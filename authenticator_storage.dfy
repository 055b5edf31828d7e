/** The Realm-backed store of authenticator rows
    (Data/Services/AuthenticatorStorage.swift). Realm itself is reduced to the
    table of rows keyed by uid and the order `fetchAll` returns them in. */
module AuthenticatorStorage {
  import opened Wrappers
  import opened AuthenticatorEntity
  import Table

  class Storage {
    /** The uids in the order `fetchAll` returns their rows. */
    var order: seq<string>
    /** The stored rows, by primary key. */
    var rows: map<string, AuthenticatorData>

    ghost predicate Valid()
      reads this
    {
      && Table.Consistent(order, rows)
      && (forall u :: u in rows ==> rows[u].uid == u)
    }

    constructor ()
      ensures Valid() && order == [] && rows == map[]
    {
      order, rows := [], map[];
    }

    /** `store(authenticator:)`: insert a row with a new uid, or overwrite the
        name, email, secret and service name of the row already stored under
        it. Either way the row under that uid is exactly `authenticator`, and
        no other uid is touched. */
    method Store(authenticator: AuthenticatorData)
      requires Valid()
      modifies this
      ensures Valid()
      ensures rows == old(rows)[authenticator.uid := authenticator]
      ensures order == Table.Enrolled(old(order), authenticator.uid)
    {
      if authenticator.uid !in rows {
        rows := rows[authenticator.uid := authenticator];
        order := order + [authenticator.uid];
      } else {
        var stored := rows[authenticator.uid];
        stored := stored.(name := authenticator.name, email := authenticator.email,
                          secret := authenticator.secret, serviceName := authenticator.serviceName);
        rows := rows[authenticator.uid := stored];
      }
    }

    /** `delete(authenticatorUid:)`: remove the row of that uid, if any. */
    method Delete(authenticatorUid: string)
      requires Valid()
      modifies this
      ensures Valid()
      ensures rows == old(rows) - {authenticatorUid}
      ensures order == Table.Without(old(order), authenticatorUid)
    {
      rows := rows - {authenticatorUid};
      order := Table.Without(order, authenticatorUid);
    }

    /** The rows as `fetchAll` returns them. */
    ghost function Contents(): seq<AuthenticatorData>
      reads this
      requires Valid()
    {
      Table.Fetched(order, rows)
    }

    /** `fetchAll()`: every stored row, in fetch order. */
    method FetchAll() returns (all: seq<AuthenticatorData>)
      requires Valid()
      ensures |all| == |order|
      ensures forall i :: 0 <= i < |order| ==> all[i] == rows[order[i]] && all[i].uid == order[i]
    {
      all := Table.Fetched(order, rows);
    }
  }

  /** After storing `d`, fetching returns `d` itself, at the place of its uid. */
  lemma {:induction false} StoredIsFetched(order: seq<string>, rows: map<string, AuthenticatorData>, d: AuthenticatorData)
    requires Table.Consistent(order, rows)
    ensures d in Table.Fetched(Table.Enrolled(order, d.uid), rows[d.uid := d])
  {
    var o := Table.Enrolled(order, d.uid);
    var i :| 0 <= i < |o| && o[i] == d.uid;
    assert Table.Fetched(o, rows[d.uid := d])[i] == d;
  }

  /** After deleting `uid`, no fetched row carries that uid. */
  lemma {:induction false} DeletedIsNotFetched(order: seq<string>, rows: map<string, AuthenticatorData>, uid: string)
    requires Table.Consistent(order, rows)
    requires forall u :: u in rows ==> rows[u].uid == u
    ensures forall r :: r in Table.Fetched(Table.Without(order, uid), rows - {uid}) ==> r.uid != uid
  {
    var o := Table.Without(order, uid);
    var all := Table.Fetched(o, rows - {uid});
    forall r | r in all
      ensures r.uid != uid
    {
      var i :| 0 <= i < |all| && all[i] == r;
      assert o[i] in order;
    }
  }
}
