/** The Realm-backed store of credentials rows
    (Data/Services/CredentialsStorage.swift). Realm itself is reduced to the
    table of rows keyed by uid and the order `fetchAll` returns them in. */
module CredentialsStorage {
  import opened Wrappers
  import opened CredentialsEntity
  import Table

  class Storage {
    /** The uids in the order `fetchAll` returns their rows. */
    var order: seq<string>
    /** The stored rows, by primary key. */
    var rows: map<string, CredentialsData>

    ghost predicate Valid()
      reads this
    {
      && Table.Consistent(order, rows)
      && (forall u :: u in rows ==> rows[u].uid == u)
    }

    constructor ()
      ensures Valid() && order == [] && rows == map[]
    {
      order, rows := [], map[];
    }

    /** `store(credentials:)`: insert a row with a new uid, or overwrite the
        name, email, password and service name of the row already stored under
        it. Either way the row under that uid is exactly `credentials`, and
        no other uid is touched. */
    method Store(credentials: CredentialsData)
      requires Valid()
      modifies this
      ensures Valid()
      ensures rows == old(rows)[credentials.uid := credentials]
      ensures order == Table.Enrolled(old(order), credentials.uid)
    {
      if credentials.uid !in rows {
        rows := rows[credentials.uid := credentials];
        order := order + [credentials.uid];
      } else {
        var stored := rows[credentials.uid];
        stored := stored.(name := credentials.name, email := credentials.email,
                          password := credentials.password, serviceName := credentials.serviceName);
        rows := rows[credentials.uid := stored];
      }
    }

    /** `delete(credentialsUid:)`: remove the row of that uid, if any. */
    method Delete(credentialsUid: string)
      requires Valid()
      modifies this
      ensures Valid()
      ensures rows == old(rows) - {credentialsUid}
      ensures order == Table.Without(old(order), credentialsUid)
    {
      rows := rows - {credentialsUid};
      order := Table.Without(order, credentialsUid);
    }

    /** The rows as `fetchAll` returns them. */
    ghost function Contents(): seq<CredentialsData>
      reads this
      requires Valid()
    {
      Table.Fetched(order, rows)
    }

    /** `fetchAll()`: every stored row, in fetch order. */
    method FetchAll() returns (all: seq<CredentialsData>)
      requires Valid()
      ensures |all| == |order|
      ensures forall i :: 0 <= i < |order| ==> all[i] == rows[order[i]] && all[i].uid == order[i]
    {
      all := Table.Fetched(order, rows);
    }
  }

  /** After storing `d`, fetching returns `d` itself, at the place of its uid. */
  lemma {:induction false} StoredIsFetched(order: seq<string>, rows: map<string, CredentialsData>, d: CredentialsData)
    requires Table.Consistent(order, rows)
    ensures d in Table.Fetched(Table.Enrolled(order, d.uid), rows[d.uid := d])
  {
    var o := Table.Enrolled(order, d.uid);
    var i :| 0 <= i < |o| && o[i] == d.uid;
    assert Table.Fetched(o, rows[d.uid := d])[i] == d;
  }

  /** After deleting `uid`, no fetched row carries that uid. */
  lemma {:induction false} DeletedIsNotFetched(order: seq<string>, rows: map<string, CredentialsData>, uid: string)
    requires Table.Consistent(order, rows)
    requires forall u :: u in rows ==> rows[u].uid == u
    ensures forall r :: r in Table.Fetched(Table.Without(order, uid), rows - {uid}) ==> r.uid != uid
  {
    var o := Table.Without(order, uid);
    var all := Table.Fetched(o, rows - {uid});
    forall r | r in all
      ensures r.uid != uid
    {
      var i :| 0 <= i < |all| && all[i] == r;
      assert o[i] in order;
    }
  }
}
