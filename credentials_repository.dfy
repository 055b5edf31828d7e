/** The repository that publishes the stored credentials
    (Domain/Repository/CredentialsRepository.swift). The published list is
    the value of `credentialsSubject`; each refresh recomputes it from storage. */
module CredentialsRepository {
  import opened Wrappers
  import opened Domain
  import opened Sequences
  import opened CredentialsEntity
  import CredentialsStorage
  import ServicesRepository
  import Table

  /** The credentials a row with a service name becomes on refresh. */
  function Resolved(d: CredentialsData, services: seq<Service>): (r: Credentials)
    requires d.serviceName.Some?
    ensures r.uid == d.uid && r.name == d.name && r.email == d.email && r.password == d.password
    ensures var found := ServicesRepository.FindService(services, d.serviceName.value);
            && (found.Some? ==> r.service == found.value)
            && (found.None? ==> r.service == DefaultService)
  {
    ToDomain(d, Some(ServicesRepository.ResolveService(services, d.serviceName.value)))
  }

  /** The rows that survive the projection: those with a service name, in order. */
  function Named(rows: seq<CredentialsData>): (kept: seq<CredentialsData>)
    ensures IsSubsequence(kept, rows)
    ensures forall d :: d in kept <==> d in rows && d.serviceName.Some?
    ensures forall d :: multiset(kept)[d] == if d.serviceName.Some? then multiset(rows)[d] else 0
  {
    if |rows| == 0 then []
    else
      var rest := Named(rows[1..]);
      assert rows == [rows[0]] + rows[1..];
      assert multiset(rows) == multiset([rows[0]]) + multiset(rows[1..]);
      if rows[0].serviceName.Some? then
        assert ([rows[0]] + rest)[1..] == rest;
        assert multiset([rows[0]] + rest) == multiset([rows[0]]) + multiset(rest);
        [rows[0]] + rest
      else
        rest
  }

  /** The refresh projection (`compactMap`): rows without a service name are
      dropped, every other row becomes a credentials value with its service
      resolved by name, and storage order is kept. */
  function Project(rows: seq<CredentialsData>, services: seq<Service>): (r: seq<Credentials>)
    ensures |r| == |Named(rows)| <= |rows|
    ensures forall i :: 0 <= i < |r| ==> r[i] == Resolved(Named(rows)[i], services)
  {
    SubsequenceBounds(Named(rows), rows);
    if |rows| == 0 then []
    else
      var rest := Project(rows[1..], services);
      match rows[0].serviceName
      case None => rest
      case Some(_) => [Resolved(rows[0], services)] + rest
  }

  /** Every row with a service name is published, resolved. */
  lemma ProjectKeepsNamed(rows: seq<CredentialsData>, services: seq<Service>, d: CredentialsData)
    requires d in rows && d.serviceName.Some?
    ensures Resolved(d, services) in Project(rows, services)
  {
    var kept := Named(rows);
    var i :| 0 <= i < |kept| && kept[i] == d;
    assert Project(rows, services)[i] == Resolved(d, services);
  }

  /** Everything published comes from a row with a service name. */
  lemma ProjectFromNamed(rows: seq<CredentialsData>, services: seq<Service>, a: Credentials)
    requires a in Project(rows, services)
    ensures exists d :: d in rows && d.serviceName.Some? && a == Resolved(d, services)
  {
    var r := Project(rows, services);
    var i :| 0 <= i < |r| && r[i] == a;
    assert Named(rows)[i] in Named(rows);
  }

  class Repository {
    const storage: CredentialsStorage.Storage
    const servicesRepository: ServicesRepository.Repository
    /** The value of `credentialsSubject`. */
    var credentials: seq<Credentials>

    ghost predicate Valid()
      reads this, storage
    {
      storage.Valid()
    }

    /** The published list starts empty, before any refresh. */
    constructor (storage: CredentialsStorage.Storage, servicesRepository: ServicesRepository.Repository)
      requires storage.Valid()
      ensures Valid() && this.storage == storage && this.servicesRepository == servicesRepository
      ensures credentials == []
    {
      this.storage := storage;
      this.servicesRepository := servicesRepository;
      credentials := [];
    }

    /** `refreshTrigger`: publish the projection of what storage holds now. */
    method Refresh()
      requires Valid()
      modifies this
      ensures Valid()
      ensures credentials == Project(storage.Contents(), servicesRepository.services)
    {
      var rows := storage.FetchAll();
      assert rows == storage.Contents();
      credentials := Project(rows, servicesRepository.services);
    }

    /** `store(credentials:)`: write the converted row, then refresh; the
        entry is then published, with its service resolved by name. */
    method Store(entry: Credentials)
      requires Valid()
      modifies this, storage
      ensures Valid()
      ensures storage.rows == old(storage.rows)[entry.uid := FromCredentials(entry)]
      ensures storage.order == Table.Enrolled(old(storage.order), entry.uid)
      ensures credentials == Project(storage.Contents(), servicesRepository.services)
      ensures entry.(service := ServicesRepository.ResolveService(servicesRepository.services, entry.service.serviceName))
              in credentials
    {
      var d := FromCredentials(entry);
      storage.Store(d);
      Refresh();
      CredentialsStorage.StoredIsFetched(old(storage.order), old(storage.rows), d);
      ProjectKeepsNamed(storage.Contents(), servicesRepository.services, d);
    }

    /** `delete(credentials:)`: remove the row of that uid, then refresh; no
        published entry carries the uid afterwards. */
    method Delete(entry: Credentials)
      requires Valid()
      modifies this, storage
      ensures Valid()
      ensures storage.rows == old(storage.rows) - {entry.uid}
      ensures storage.order == Table.Without(old(storage.order), entry.uid)
      ensures credentials == Project(storage.Contents(), servicesRepository.services)
      ensures forall a :: a in credentials ==> a.uid != entry.uid
    {
      storage.Delete(entry.uid);
      Refresh();
      CredentialsStorage.DeletedIsNotFetched(old(storage.order), old(storage.rows), entry.uid);
      forall a | a in credentials
        ensures a.uid != entry.uid
      {
        ProjectFromNamed(storage.Contents(), servicesRepository.services, a);
      }
    }
  }
}
