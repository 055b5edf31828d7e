/** The catalogue of known services (Domain/Repository/ServicesRepository.swift).
    Reading the bundled Services.json is left out: its decoded contents are a
    parameter, the empty list when the file is missing or malformed. */
module ServicesRepository {
  import opened Wrappers
  import opened Domain
  import opened Text

  /** The test of `service(name:)`: the names agree once lower-cased. */
  predicate NameMatches(s: Service, name: string) {
    Lower(s.serviceName) == Lower(name)
  }

  /** `first(where:)`: the first listed service whose name matches, or none. */
  function FindService(services: seq<Service>, name: string): (r: Option<Service>)
    ensures r.None? <==> forall i :: 0 <= i < |services| ==> !NameMatches(services[i], name)
    ensures r.Some? ==> exists i :: 0 <= i < |services| && services[i] == r.value &&
                          NameMatches(r.value, name) &&
                          forall j :: 0 <= j < i ==> !NameMatches(services[j], name)
  {
    if |services| == 0 then None
    else if NameMatches(services[0], name) then Some(services[0])
    else
      var r := FindService(services[1..], name);
      assert forall i :: 1 <= i < |services| ==> services[i] == services[1..][i - 1];
      r
  }

  /** Lookup is case-insensitive: names that differ only in letter case find
      the same service. */
  lemma {:induction false} LookupIgnoresCase(services: seq<Service>, a: string, b: string)
    requires Lower(a) == Lower(b)
    ensures FindService(services, a) == FindService(services, b)
  {
    if |services| > 0 {
      LookupIgnoresCase(services[1..], a, b);
    }
  }

  /** `service(name:) ?? .default`, as the repositories and the scanner use
      it: the catalogue's match, else the default service. */
  function ResolveService(services: seq<Service>, name: string): (s: Service)
    ensures FindService(services, name).None? ==> s == DefaultService
    ensures FindService(services, name).Some? ==> s in services && NameMatches(s, name)
    ensures FindService(services, name).Some? ==> s == FindService(services, name).value
  {
    FindService(services, name).GetOr(DefaultService)
  }

  class Repository {
    /** The value of `servicesSubject`. */
    var services: seq<Service>

    /** `init()`: the subject starts empty and is at once refreshed from the bundle. */
    constructor (loaded: seq<Service>)
      ensures services == loaded
    {
      services := [];
      services := loaded;
    }

    /** A refresh replaces the whole list with what was loaded. */
    method Refresh(loaded: seq<Service>)
      modifies this
      ensures services == loaded
    {
      services := loaded;
    }

    /** `service(name:)`. */
    method ServiceNamed(name: string) returns (s: Option<Service>)
      ensures s == FindService(services, name)
      ensures s.Some? ==> s.value in services && Lower(s.value.serviceName) == Lower(name)
      ensures services == [] ==> s == None
    {
      s := FindService(services, name);
    }
  }
}
