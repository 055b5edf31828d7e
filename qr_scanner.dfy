/** Reading an `otpauth://` key URI from a scanned QR code
    (Presentation/Scenes/QRScanner/QRScannerViewModel.swift). The URI comes
    already split into scheme, path and query items, as `URLComponents`
    delivers it; nil scanned text and text that does not parse are both `None`. */
module QrScanner {
  import opened Wrappers
  import opened Domain
  import ServicesRepository
  import opened ServiceDetails

  /** A `URLQueryItem`. */
  datatype QueryItem = QueryItem(name: string, value: Option<string>)

  /** The parts of `URLComponents` the scanner reads. */
  datatype UrlComponents = UrlComponents(scheme: Option<string>, path: string, queryItems: Option<seq<QueryItem>>)

  /** `first(where: { $0.name == name })`: the earliest item with that name. */
  function FirstNamed(items: seq<QueryItem>, name: string): (r: Option<QueryItem>)
    ensures r.None? <==> forall i :: 0 <= i < |items| ==> items[i].name != name
    ensures r.Some? ==> && r.value.name == name
                        && exists i :: 0 <= i < |items| && items[i] == r.value &&
                             forall j :: 0 <= j < i ==> items[j].name != name
  {
    if |items| == 0 then None
    else if items[0].name == name then Some(items[0])
    else
      var r := FirstNamed(items[1..], name);
      assert r.Some? ==> exists i :: 0 < i < |items| && items[i] == r.value &&
                           forall j :: 0 <= j < i ==> items[j].name != name by {
        if r.Some? {
          var i :| 0 <= i < |items[1..]| && items[1..][i] == r.value &&
                   forall j :: 0 <= j < i ==> items[1..][j].name != name;
          assert forall j :: 1 <= j < i + 1 ==> items[j].name == items[1..][j - 1].name;
        }
      }
      r
  }

  /** `queryItems?.first(where: { $0.name == name })?.value`. */
  function QueryValue(queryItems: Option<seq<QueryItem>>, name: string): (v: Option<string>)
    ensures queryItems.None? ==> v.None?
    ensures queryItems.Some? && (forall item :: item in queryItems.value ==> item.name != name) ==> v.None?
    ensures queryItems.Some? && FirstNamed(queryItems.value, name).Some? ==>
              v == FirstNamed(queryItems.value, name).value.value
    ensures v.Some? ==>
              && queryItems.Some?
              && exists i :: && 0 <= i < |queryItems.value|
                             && queryItems.value[i].name == name && queryItems.value[i].value == v
                             && forall j :: 0 <= j < i ==> queryItems.value[j].name != name
  {
    if queryItems.None? then None
    else match FirstNamed(queryItems.value, name)
      case None => None
      case Some(item) => item.value
  }

  /** `path.components(separatedBy: ":").last`: the text after the last
      colon, or the whole path when it has none. */
  function LastComponent(path: string): (c: string)
    ensures |c| <= |path| && c == path[|path| - |c|..]
    ensures ':' !in c
    ensures |c| < |path| ==> path[|path| - |c| - 1] == ':'
    ensures ':' !in path ==> c == path
  {
    if |path| == 0 then ""
    else if path[|path| - 1] == ':' then ""
    else
      var init := path[..|path| - 1];
      var c := LastComponent(init);
      assert path[|path| - |c| - 1..] == init[|init| - |c|..] + [path[|path| - 1]];
      c + [path[|path| - 1]]
  }

  /** `scanTrigger`: nothing unless the scheme is exactly "otpauth" and a
      `secret` item with a value is present; otherwise a model for a new entry
      (no uid) with the secret as key, the `issuer` value as service name,
      the last colon-separated part of the path as login and the service
      looked up by issuer (by "" without one), falling back to the default. */
  function ScanResult(scanned: Option<UrlComponents>, services: seq<Service>): (r: Option<ServiceDetailsModel>)
    ensures r.Some? <==> && scanned.Some? && scanned.value.scheme == Some("otpauth")
                         && QueryValue(scanned.value.queryItems, "secret").Some?
    ensures r.Some? ==>
              var u := scanned.value;
              var issuer := QueryValue(u.queryItems, "issuer");
              var found := ServicesRepository.FindService(services, issuer.GetOr(""));
              && r.value.uid.None?
              && Some(r.value.key) == QueryValue(u.queryItems, "secret")
              && r.value.serviceName == issuer
              && r.value.login == Some(LastComponent(u.path))
              && (found.Some? ==> r.value.service == found && found.value in services)
              && (found.None? ==> r.value.service == Some(DefaultService))
  {
    match scanned
    case None => None
    case Some(u) =>
      if u.scheme != Some("otpauth") then None
      else match QueryValue(u.queryItems, "secret")
        case None => None
        case Some(secret) =>
          var issuer := QueryValue(u.queryItems, "issuer");
          var service := ServicesRepository.ResolveService(services, issuer.GetOr(""));
          Some(ServiceDetailsModel(None, issuer, secret, Some(LastComponent(u.path)), Some(service)))
  }

  /** A scanned URI with an issuer opens a form whose continue saves a new
      authenticator under the fresh uid, with the URI's secret. */
  lemma ScanCreatesNewAuthenticator(scanned: Option<UrlComponents>, services: seq<Service>,
                                    title: string, button: string, freshUid: string)
    requires ScanResult(scanned, services).Some?
    requires QueryValue(scanned.value.queryItems, "issuer").Some?
    ensures var saved := ContinueOutcome(AuthenticatorForm(title, button),
                                         SeededInputs(ScanResult(scanned, services).value), freshUid);
            && saved.Some? && saved.value.SavedAuthenticator?
            && saved.value.authenticator.uid == freshUid
            && Some(saved.value.authenticator.secret) == QueryValue(scanned.value.queryItems, "secret")
  {
    var m := ScanResult(scanned, services).value;
    var f := SeededInputs(m);
    assert f.uid.None? && f.serviceName.Some? && f.login.Some? && f.key.Some? && f.service.Some?;
    assert Some(m.key) == QueryValue(scanned.value.queryItems, "secret");
  }
}
