/** The repository that publishes the stored authenticators
    (Domain/Repository/AuthenticatorsRepository.swift). The published list is
    the value of `authenticatorsSubject`; each refresh recomputes it from storage. */
module AuthenticatorsRepository {
  import opened Wrappers
  import opened Domain
  import opened Sequences
  import opened AuthenticatorEntity
  import AuthenticatorStorage
  import ServicesRepository
  import Table

  /** The authenticator a row with a service name becomes on refresh. */
  function Resolved(d: AuthenticatorData, services: seq<Service>): (r: Authenticator)
    requires d.serviceName.Some?
    ensures r.uid == d.uid && r.name == d.name && r.email == d.email && r.secret == d.secret
    ensures var found := ServicesRepository.FindService(services, d.serviceName.value);
            && (found.Some? ==> r.service == found.value)
            && (found.None? ==> r.service == DefaultService)
  {
    ToDomain(d, Some(ServicesRepository.ResolveService(services, d.serviceName.value)))
  }

  /** The rows that survive the projection: those with a service name, in order. */
  function Named(rows: seq<AuthenticatorData>): (kept: seq<AuthenticatorData>)
    ensures IsSubsequence(kept, rows)
    ensures forall d :: d in kept <==> d in rows && d.serviceName.Some?
    ensures forall d :: multiset(kept)[d] == if d.serviceName.Some? then multiset(rows)[d] else 0
  {
    if |rows| == 0 then []
    else
      var rest := Named(rows[1..]);
      assert rows == [rows[0]] + rows[1..];
      assert multiset(rows) == multiset([rows[0]]) + multiset(rows[1..]);
      if rows[0].serviceName.Some? then
        assert ([rows[0]] + rest)[1..] == rest;
        assert multiset([rows[0]] + rest) == multiset([rows[0]]) + multiset(rest);
        [rows[0]] + rest
      else
        rest
  }

  /** The refresh projection (`compactMap`): rows without a service name are
      dropped, every other row becomes an authenticator with its service
      resolved by name, and storage order is kept. */
  function Project(rows: seq<AuthenticatorData>, services: seq<Service>): (r: seq<Authenticator>)
    ensures |r| == |Named(rows)| <= |rows|
    ensures forall i :: 0 <= i < |r| ==> r[i] == Resolved(Named(rows)[i], services)
  {
    SubsequenceBounds(Named(rows), rows);
    if |rows| == 0 then []
    else
      var rest := Project(rows[1..], services);
      match rows[0].serviceName
      case None => rest
      case Some(_) => [Resolved(rows[0], services)] + rest
  }

  /** Every row with a service name is published, as its resolved authenticator. */
  lemma ProjectKeepsNamed(rows: seq<AuthenticatorData>, services: seq<Service>, d: AuthenticatorData)
    requires d in rows && d.serviceName.Some?
    ensures Resolved(d, services) in Project(rows, services)
  {
    var kept := Named(rows);
    var i :| 0 <= i < |kept| && kept[i] == d;
    assert Project(rows, services)[i] == Resolved(d, services);
  }

  /** Everything published comes from a row with a service name. */
  lemma ProjectFromNamed(rows: seq<AuthenticatorData>, services: seq<Service>, a: Authenticator)
    requires a in Project(rows, services)
    ensures exists d :: d in rows && d.serviceName.Some? && a == Resolved(d, services)
  {
    var r := Project(rows, services);
    var i :| 0 <= i < |r| && r[i] == a;
    assert Named(rows)[i] in Named(rows);
  }

  class Repository {
    const storage: AuthenticatorStorage.Storage
    const servicesRepository: ServicesRepository.Repository
    /** The value of `authenticatorsSubject`. */
    var authenticators: seq<Authenticator>

    ghost predicate Valid()
      reads this, storage
    {
      storage.Valid()
    }

    /** The published list starts empty, before any refresh. */
    constructor (storage: AuthenticatorStorage.Storage, servicesRepository: ServicesRepository.Repository)
      requires storage.Valid()
      ensures Valid() && this.storage == storage && this.servicesRepository == servicesRepository
      ensures authenticators == []
    {
      this.storage := storage;
      this.servicesRepository := servicesRepository;
      authenticators := [];
    }

    /** `refreshTrigger`: publish the projection of what storage holds now. */
    method Refresh()
      requires Valid()
      modifies this
      ensures Valid()
      ensures authenticators == Project(storage.Contents(), servicesRepository.services)
    {
      var rows := storage.FetchAll();
      assert rows == storage.Contents();
      authenticators := Project(rows, servicesRepository.services);
    }

    /** `store(authenticator:)`: write the converted row, then refresh; the
        authenticator is then published, with its service resolved by name. */
    method Store(authenticator: Authenticator)
      requires Valid()
      modifies this, storage
      ensures Valid()
      ensures storage.rows == old(storage.rows)[authenticator.uid := FromAuthenticator(authenticator)]
      ensures storage.order == Table.Enrolled(old(storage.order), authenticator.uid)
      ensures authenticators == Project(storage.Contents(), servicesRepository.services)
      ensures authenticator.(service := ServicesRepository.ResolveService(servicesRepository.services, authenticator.service.serviceName))
              in authenticators
    {
      var d := FromAuthenticator(authenticator);
      storage.Store(d);
      Refresh();
      AuthenticatorStorage.StoredIsFetched(old(storage.order), old(storage.rows), d);
      ProjectKeepsNamed(storage.Contents(), servicesRepository.services, d);
    }

    /** `delete(authenticator:)`: remove the row of that uid, then refresh; no
        published authenticator carries the uid afterwards. */
    method Delete(authenticator: Authenticator)
      requires Valid()
      modifies this, storage
      ensures Valid()
      ensures storage.rows == old(storage.rows) - {authenticator.uid}
      ensures storage.order == Table.Without(old(storage.order), authenticator.uid)
      ensures authenticators == Project(storage.Contents(), servicesRepository.services)
      ensures forall a :: a in authenticators ==> a.uid != authenticator.uid
    {
      storage.Delete(authenticator.uid);
      Refresh();
      AuthenticatorStorage.DeletedIsNotFetched(old(storage.order), old(storage.rows), authenticator.uid);
      forall a | a in authenticators
        ensures a.uid != authenticator.uid
      {
        ProjectFromNamed(storage.Contents(), servicesRepository.services, a);
      }
    }
  }
}
