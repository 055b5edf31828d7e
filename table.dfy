/** The shape of a Realm table as the two storages use it: rows keyed by their
    primary key `uid`, and the order in which `fetchAll` returns them
    (modelled as insertion order). */
module Table {
  import opened Sequences

  /** No uid is listed twice. */
  predicate Distinct(order: seq<string>) {
    forall i, j :: 0 <= i < j < |order| ==> order[i] != order[j]
  }

  /** `order` lists exactly the keys of `rows`, each once. */
  ghost predicate Consistent<R>(order: seq<string>, rows: map<string, R>) {
    && Distinct(order)
    && (forall u :: u in rows <==> u in order)
  }

  /** The fetch order after storing under `uid`: a new uid is appended, a
      known one keeps its place. */
  function Enrolled(order: seq<string>, uid: string): (o: seq<string>)
    ensures uid in o
    ensures forall u :: u in o <==> u in order || u == uid
    ensures Distinct(order) ==> Distinct(o)
    ensures IsSubsequence(order, o)
  {
    SubsequenceOfSelf(order);
    if uid in order then order
    else
      SubsequenceExtend(order, order, uid);
      order + [uid]
  }

  /** The fetch order after deleting `uid`: every other uid, in the same order. */
  function Without(order: seq<string>, uid: string): (o: seq<string>)
    ensures forall u :: u in o <==> u in order && u != uid
    ensures Distinct(order) ==> Distinct(o)
    ensures IsSubsequence(o, order)
  {
    if |order| == 0 then []
    else
      var init, last := order[..|order| - 1], order[|order| - 1];
      assert order == init + [last];
      assert Distinct(order) ==> Distinct(init) && last !in init by {
        if Distinct(order) {
          forall k | 0 <= k < |init| ensures init[k] != last {
            assert init[k] == order[k];
          }
        }
      }
      var rest := Without(init, uid);
      if last == uid then
        SubsequenceExtend(rest, init, last);
        rest
      else
        SubsequenceSnoc(rest, init, last);
        assert Distinct(order) ==> Distinct(rest + [last]) by {
          if Distinct(order) {
            assert last !in rest;
          }
        }
        rest + [last]
  }

  /** What `fetchAll` returns: the row of every uid, in fetch order. */
  function Fetched<R>(order: seq<string>, rows: map<string, R>): (all: seq<R>)
    requires forall u :: u in order ==> u in rows
    ensures |all| == |order|
    ensures forall i :: 0 <= i < |order| ==> all[i] == rows[order[i]]
  {
    seq(|order|, i requires 0 <= i < |order| => rows[order[i]])
  }

  /** `fetchAll` returns every stored row: each key's row stands at the place
      of that key, and nothing else is returned. */
  lemma FetchedComplete<R>(order: seq<string>, rows: map<string, R>)
    requires Consistent(order, rows)
    ensures forall u :: u in rows ==> exists i :: 0 <= i < |order| && order[i] == u && Fetched(order, rows)[i] == rows[u]
    ensures forall r :: r in Fetched(order, rows) ==> exists u :: u in rows && rows[u] == r
  {
    var all := Fetched(order, rows);
    forall u | u in rows
      ensures exists i :: 0 <= i < |order| && order[i] == u && all[i] == rows[u]
    {
      var i :| 0 <= i < |order| && order[i] == u;
    }
  }

  /** Storing twice under the same uid leaves the same table as storing once. */
  lemma UpsertIdempotent<R>(order: seq<string>, rows: map<string, R>, uid: string, r: R)
    ensures Enrolled(Enrolled(order, uid), uid) == Enrolled(order, uid)
    ensures rows[uid := r][uid := r] == rows[uid := r]
  {
  }
}
