/** The add/edit form for an authenticator or a password
    (Presentation/Scenes/AddNewServiceInfo/ServiceDetailsViewModel.swift).
    The five input subjects become one `FormInputs` field; the router's
    dismissal is counted. */
module ServiceDetails {
  import opened Wrappers
  import opened Domain
  import AuthenticatorsRepository
  import CredentialsRepository
  import AuthenticatorEntity
  import CredentialsEntity
  import ServicesRepository
  import Table

  /** What a form is opened with. */
  datatype ServiceDetailsModel = ServiceDetailsModel(
    uid: Option<string>,
    serviceName: Option<string>,
    key: string,
    login: Option<string>,
    service: Option<Service>)

  /** `ServiceDetailsModel.empty`: nothing set, and an empty key. */
  const EmptyModel := ServiceDetailsModel(None, None, "", None, None)

  /** Which kind of entry the form saves; the strings are title and button text. */
  datatype ServiceType =
    | AuthenticatorForm(title: string, button: string)
    | PasswordForm(title: string, button: string)

  /** A request to the router to open the form. */
  datatype FormRequest = FormRequest(serviceType: ServiceType, model: ServiceDetailsModel)

  /** The latest values of the five subjects that `serviceData` combines. */
  datatype FormInputs = FormInputs(
    uid: Option<string>,
    serviceName: Option<string>,
    login: Option<string>,
    key: Option<string>,
    service: Option<Service>)

  /** The inputs `didLoadTrigger` seeds from the model the form is opened with. */
  function SeededInputs(m: ServiceDetailsModel): (f: FormInputs)
    ensures f.uid == m.uid && f.serviceName == m.serviceName && f.login == m.login && f.service == m.service
    ensures f.key == Some(m.key)
    ensures IsContinueEnabled(f) <==>
              && m.serviceName.Some? && m.serviceName.value != []
              && m.login.Some? && m.login.value != []
              && m.key != [] && m.service.Some?
  {
    FormInputs(m.uid, m.serviceName, m.login, Some(m.key), m.service)
  }

  /** Every subject starts out holding nil. */
  const NoInputs := FormInputs(None, None, None, None, None)

  /** `isContinueButtonEnabled`: name, login, key and service all present,
      and the three texts non-empty. */
  predicate IsContinueEnabled(f: FormInputs): (enabled: bool)
    ensures enabled <==>
              && f.serviceName.Some? && f.serviceName.value != []
              && f.login.Some? && f.login.value != []
              && f.key.Some? && f.key.value != []
              && f.service.Some?
  {
    match (f.serviceName, f.login, f.key, f.service)
    case (Some(name), Some(login), Some(key), Some(_)) => name != [] && login != [] && key != []
    case _ => false
  }

  /** What one `continueTrigger` saves. */
  datatype Saved = SavedAuthenticator(authenticator: Authenticator) | SavedCredentials(credentials: Credentials)

  /** The save the continue action makes with the form's inputs, if any: none
      unless name, login, key and service are all present (their emptiness is
      not looked at); otherwise an entry of the form's kind, keeping the uid
      when there is one and taking `freshUid` when there is not. */
  function ContinueOutcome(serviceType: ServiceType, f: FormInputs, freshUid: string): (r: Option<Saved>)
    ensures r.None? <==> f.serviceName.None? || f.login.None? || f.key.None? || f.service.None?
    ensures r.Some? ==> (r.value.SavedAuthenticator? <==> serviceType.AuthenticatorForm?)
    ensures r.Some? && r.value.SavedAuthenticator? ==>
              var a := r.value.authenticator;
              && a.uid == f.uid.GetOr(freshUid)
              && Some(a.name) == f.serviceName && Some(a.email) == f.login
              && Some(a.secret) == f.key && Some(a.service) == f.service
    ensures r.Some? && r.value.SavedCredentials? ==>
              var c := r.value.credentials;
              && c.uid == f.uid.GetOr(freshUid)
              && Some(c.name) == f.serviceName && Some(c.email) == f.login
              && Some(c.password) == f.key && Some(c.service) == f.service
  {
    match (f.serviceName, f.login, f.key, f.service)
    case (Some(name), Some(login), Some(key), Some(service)) =>
      var uid := if f.uid.Some? then f.uid.value else freshUid;
      Some(match serviceType
           case AuthenticatorForm(_, _) => SavedAuthenticator(Authenticator(uid, name, login, key, service))
           case PasswordForm(_, _) => SavedCredentials(Credentials(uid, name, login, key, service)))
    case _ => None
  }

  /** An enabled continue button always leads to a save. */
  lemma EnabledContinueSaves(serviceType: ServiceType, f: FormInputs, freshUid: string)
    requires IsContinueEnabled(f)
    ensures ContinueOutcome(serviceType, f, freshUid).Some?
  {
  }

  /** The continue action checks presence only: a form with empty texts has a
      disabled button yet still saves when continue is triggered. */
  lemma ContinueIgnoresEmptiness(serviceType: ServiceType, service: Service, freshUid: string)
    ensures var f := FormInputs(None, Some(""), Some(""), Some(""), Some(service));
            !IsContinueEnabled(f) && ContinueOutcome(serviceType, f, freshUid).Some?
  {
  }

  class ServiceDetailsViewModel {
    const serviceType: ServiceType
    const serviceDetailsModel: ServiceDetailsModel
    const authenticatorsRepository: AuthenticatorsRepository.Repository
    const credentialsRepository: CredentialsRepository.Repository
    var inputs: FormInputs
    /** How many times the router was asked to dismiss the form. */
    var dismissals: nat

    ghost predicate Valid()
      reads this, authenticatorsRepository, authenticatorsRepository.storage,
            credentialsRepository, credentialsRepository.storage
    {
      authenticatorsRepository.Valid() && credentialsRepository.Valid()
    }

    constructor (serviceType: ServiceType, serviceDetailsModel: ServiceDetailsModel,
                 authenticatorsRepository: AuthenticatorsRepository.Repository,
                 credentialsRepository: CredentialsRepository.Repository)
      requires authenticatorsRepository.Valid() && credentialsRepository.Valid()
      ensures Valid()
      ensures this.serviceType == serviceType && this.serviceDetailsModel == serviceDetailsModel
      ensures this.authenticatorsRepository == authenticatorsRepository
      ensures this.credentialsRepository == credentialsRepository
      ensures inputs == NoInputs && dismissals == 0
    {
      this.serviceType := serviceType;
      this.serviceDetailsModel := serviceDetailsModel;
      this.authenticatorsRepository := authenticatorsRepository;
      this.credentialsRepository := credentialsRepository;
      inputs := NoInputs;
      dismissals := 0;
    }

    /** `didLoadTrigger`: seed all five inputs from the model the form was opened with. */
    method DidLoad()
      modifies this
      ensures inputs.uid == serviceDetailsModel.uid && inputs.serviceName == serviceDetailsModel.serviceName
      ensures inputs.login == serviceDetailsModel.login && inputs.key == Some(serviceDetailsModel.key)
      ensures inputs.service == serviceDetailsModel.service
      ensures dismissals == old(dismissals)
    {
      inputs := SeededInputs(serviceDetailsModel);
    }

    /** `serviceNameInputText`. */
    method EnterServiceName(text: Option<string>)
      modifies this
      ensures inputs == old(inputs).(serviceName := text) && dismissals == old(dismissals)
    {
      inputs := inputs.(serviceName := text);
    }

    /** `loginInputText`. */
    method EnterLogin(text: Option<string>)
      modifies this
      ensures inputs == old(inputs).(login := text) && dismissals == old(dismissals)
    {
      inputs := inputs.(login := text);
    }

    /** `keyInputText`. */
    method EnterKey(text: Option<string>)
      modifies this
      ensures inputs == old(inputs).(key := text) && dismissals == old(dismissals)
    {
      inputs := inputs.(key := text);
    }

    /** `selectIconTrigger`, given how the icon picker ended: a finished pick
        becomes the selected service, a cancelled one changes nothing. */
    method SelectIcon(result: FlowResult<Service>)
      modifies this
      ensures result.Finished? ==> inputs == old(inputs).(service := Some(result.value))
      ensures result.Cancelled? ==> inputs == old(inputs)
      ensures dismissals == old(dismissals)
    {
      if result.Finished? {
        inputs := inputs.(service := Some(result.value));
      }
    }

    /** `closeTrigger`: dismiss without saving. */
    method Close()
      modifies this
      ensures inputs == old(inputs) && dismissals == old(dismissals) + 1
    {
      dismissals := dismissals + 1;
    }

    /** `continueTrigger`: when a name, login, key and service are present,
        save to the repository of the form's kind (an update when the form has
        a uid, a new entry under `freshUid` when not) and dismiss once; when
        any is missing, do nothing at all. */
    method Continue(freshUid: string)
      requires Valid()
      modifies this, authenticatorsRepository, authenticatorsRepository.storage,
               credentialsRepository, credentialsRepository.storage
      ensures Valid() && inputs == old(inputs)
      ensures var r := ContinueOutcome(serviceType, old(inputs), freshUid);
              && (r.None? ==> dismissals == old(dismissals))
              && (r.Some? ==> dismissals == old(dismissals) + 1)
              && (!(r.Some? && r.value.SavedAuthenticator?) ==>
                    && authenticatorsRepository.authenticators == old(authenticatorsRepository.authenticators)
                    && authenticatorsRepository.storage.rows == old(authenticatorsRepository.storage.rows)
                    && authenticatorsRepository.storage.order == old(authenticatorsRepository.storage.order))
              && (!(r.Some? && r.value.SavedCredentials?) ==>
                    && credentialsRepository.credentials == old(credentialsRepository.credentials)
                    && credentialsRepository.storage.rows == old(credentialsRepository.storage.rows)
                    && credentialsRepository.storage.order == old(credentialsRepository.storage.order))
              && (r.Some? && r.value.SavedAuthenticator? ==>
                    var a := r.value.authenticator;
                    && authenticatorsRepository.storage.rows ==
                         old(authenticatorsRepository.storage.rows)[a.uid := AuthenticatorEntity.FromAuthenticator(a)]
                    && authenticatorsRepository.storage.order ==
                         Table.Enrolled(old(authenticatorsRepository.storage.order), a.uid)
                    && authenticatorsRepository.authenticators ==
                         AuthenticatorsRepository.Project(authenticatorsRepository.storage.Contents(),
                                                          authenticatorsRepository.servicesRepository.services)
                    && a.(service := ServicesRepository.ResolveService(
                                       authenticatorsRepository.servicesRepository.services, a.service.serviceName))
                       in authenticatorsRepository.authenticators)
              && (r.Some? && r.value.SavedCredentials? ==>
                    var c := r.value.credentials;
                    && credentialsRepository.storage.rows ==
                         old(credentialsRepository.storage.rows)[c.uid := CredentialsEntity.FromCredentials(c)]
                    && credentialsRepository.storage.order ==
                         Table.Enrolled(old(credentialsRepository.storage.order), c.uid)
                    && credentialsRepository.credentials ==
                         CredentialsRepository.Project(credentialsRepository.storage.Contents(),
                                                       credentialsRepository.servicesRepository.services)
                    && c.(service := ServicesRepository.ResolveService(
                                       credentialsRepository.servicesRepository.services, c.service.serviceName))
                       in credentialsRepository.credentials)
    {
      var outcome := ContinueOutcome(serviceType, inputs, freshUid);
      match outcome
      case None =>
      case Some(SavedAuthenticator(a)) =>
        authenticatorsRepository.Store(a);
        dismissals := dismissals + 1;
      case Some(SavedCredentials(c)) =>
        credentialsRepository.Store(c);
        dismissals := dismissals + 1;
    }
  }
}
