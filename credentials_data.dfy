/** The persisted form of a credentials entry (Data/Entities/CredentialsData.swift)
    and its conversions to and from the domain entity. */
module CredentialsEntity {
  import opened Wrappers
  import opened Domain

  /** One stored row; `uid` is the primary key, `serviceName` may be missing. */
  datatype CredentialsData = CredentialsData(
    uid: string, name: string, email: string, password: string, serviceName: Option<string>)

  /** `toDomain(service:)`: the row's fields, with the resolved service or the default one. */
  function ToDomain(d: CredentialsData, service: Option<Service>): (c: Credentials)
    ensures c.uid == d.uid && c.name == d.name && c.email == d.email && c.password == d.password
    ensures service.None? ==> c.service == DefaultService
    ensures service.Some? ==> c.service == service.value
  {
    Credentials(d.uid, d.name, d.email, d.password, service.GetOr(DefaultService))
  }

  /** `from(credentials:)`: the row that stores `c`; its service name is always present. */
  function FromCredentials(c: Credentials): (d: CredentialsData)
    ensures d.uid == c.uid && d.name == c.name && d.email == c.email && d.password == c.password
    ensures d.serviceName == Some(c.service.serviceName)
  {
    CredentialsData(c.uid, c.name, c.email, c.password, Some(c.service.serviceName))
  }

  /** Storing and reading back with the same service gives the entity back. */
  lemma DomainRoundTrip(c: Credentials)
    ensures ToDomain(FromCredentials(c), Some(c.service)) == c
  {
  }

  /** Reading a row and storing it again keeps every field but the service
      name, which becomes that of the resolved service. */
  lemma DataRoundTrip(d: CredentialsData, service: Option<Service>)
    ensures FromCredentials(ToDomain(d, service)) ==
            d.(serviceName := Some(service.GetOr(DefaultService).serviceName))
  {
  }
}
