/** The persisted form of an authenticator (Data/Entities/AuthenticatorData.swift)
    and its conversions to and from the domain entity. */
module AuthenticatorEntity {
  import opened Wrappers
  import opened Domain

  /** One stored row; `uid` is the primary key, `serviceName` may be missing. */
  datatype AuthenticatorData = AuthenticatorData(
    uid: string, name: string, email: string, secret: string, serviceName: Option<string>)

  /** `toDomain(service:)`: the row's fields, with the resolved service or the default one. */
  function ToDomain(d: AuthenticatorData, service: Option<Service>): (a: Authenticator)
    ensures a.uid == d.uid && a.name == d.name && a.email == d.email && a.secret == d.secret
    ensures service.None? ==> a.service == DefaultService
    ensures service.Some? ==> a.service == service.value
  {
    Authenticator(d.uid, d.name, d.email, d.secret, service.GetOr(DefaultService))
  }

  /** `from(authenticator:)`: the row that stores `a`; its service name is always present. */
  function FromAuthenticator(a: Authenticator): (d: AuthenticatorData)
    ensures d.uid == a.uid && d.name == a.name && d.email == a.email && d.secret == a.secret
    ensures d.serviceName == Some(a.service.serviceName)
  {
    AuthenticatorData(a.uid, a.name, a.email, a.secret, Some(a.service.serviceName))
  }

  /** Storing and reading back with the same service gives the entity back. */
  lemma DomainRoundTrip(a: Authenticator)
    ensures ToDomain(FromAuthenticator(a), Some(a.service)) == a
  {
  }

  /** Reading a row and storing it again keeps every field but the service
      name, which becomes that of the resolved service. */
  lemma DataRoundTrip(d: AuthenticatorData, service: Option<Service>)
    ensures FromAuthenticator(ToDomain(d, service)) ==
            d.(serviceName := Some(service.GetOr(DefaultService).serviceName))
  {
  }
}
