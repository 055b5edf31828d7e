/** The domain entities shared by the data and presentation layers
    (Domain/Entities and Data/AuthenticatorError.swift). */
module Domain {

  /** A known issuer with its icon. */
  datatype Service = Service(serviceName: string, iconName: string)

  /** `Service.default`, used whenever a name cannot be resolved. */
  const DefaultService := Service("Default", "defaults_icon")

  /** A stored two-factor account. The source's `UUID().uuidString` default uid
      is supplied by the caller. */
  datatype Authenticator = Authenticator(
    uid: string, name: string, email: string, secret: string, service: Service)

  /** A stored password entry. */
  datatype Credentials = Credentials(
    uid: string, name: string, email: string, password: string, service: Service)

  /** The HMAC hash functions the one-time-password generator can use. */
  datatype AuthenticatorAlgorithm = Sha1 | Sha256 | Sha512

  /** The failure kinds of code generation. */
  datatype AuthenticatorError = UnrecognizedError | UnableToDecodeSecret | UnableToGenerateTOTP

  /** The number of digits of a code, by its raw value. */
  datatype PasswordLength = PasswordLength(rawValue: nat)

  /** `.six`, the default code length. */
  const Six := PasswordLength(6)

  /** A generated code and the seconds left before it changes. */
  datatype OneTimePassword = OneTimePassword(code: string, expirationInSeconds: int)

  /** The outcome of a pushed flow (a sheet, an alert) reported back by a router. */
  datatype FlowResult<V> = Finished(value: V) | Cancelled
}
