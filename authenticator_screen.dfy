/** The list of authenticators with its search field
    (Presentation/Scenes/Authenticator/AuthenticatorViewModel.swift). */
module AuthenticatorScreen {
  import opened Wrappers
  import opened Domain
  import opened Sequences
  import opened Text
  import opened ServiceDetails
  import AuthenticatorsRepository
  import Table

  /** The search test: the query occurs, ignoring case, in the email, the
      name or the service name. */
  predicate Matches(a: Authenticator, query: string): (m: bool)
    ensures m ==> query != []
  {
    || ContainsIgnoringCase(a.email, query)
    || ContainsIgnoringCase(a.name, query)
    || ContainsIgnoringCase(a.service.serviceName, query)
  }

  /** The list shown for a search query: everything when the query is nil or
      empty, otherwise exactly the matching authenticators, in list order. */
  function Filtered(list: seq<Authenticator>, query: Option<string>): (shown: seq<Authenticator>)
    ensures query.None? || query.value == [] ==> shown == list
    ensures IsSubsequence(shown, list)
    ensures query.Some? && query.value != [] ==>
              forall a :: a in shown <==> a in list && Matches(a, query.value)
    ensures query.Some? && query.value != [] ==>
              forall a :: multiset(shown)[a] == if Matches(a, query.value) then multiset(list)[a] else 0
  {
    if query.None? || query.value == [] then
      SubsequenceOfSelf(list);
      list
    else
      var q := query.value;
      Keep(list, a => Matches(a, q))
  }

  /** Queries that differ only in letter case show the same list. */
  lemma FilterIgnoresCase(list: seq<Authenticator>, query: string)
    ensures Filtered(list, Some(query)) == Filtered(list, Some(Lower(query)))
  {
    if query != [] {
      var l := Lower(query);
      assert |l| == |query|;
      forall a | a in list
        ensures Matches(a, query) == Matches(a, l)
      {
        ContainsIgnoringCaseFolds(a.email, query);
        ContainsIgnoringCaseFolds(a.name, query);
        ContainsIgnoringCaseFolds(a.service.serviceName, query);
      }
      KeepCongruent(list, a => Matches(a, query), a => Matches(a, l));
    }
  }

  /** Searching the shown list again with the same query changes nothing. */
  lemma FilterIdempotent(list: seq<Authenticator>, query: Option<string>)
    ensures Filtered(Filtered(list, query), query) == Filtered(list, query)
  {
    if query.Some? && query.value != [] {
      var q := query.value;
      KeepIdempotent(list, a => Matches(a, q));
    }
  }

  /** `editTrigger`'s model for a row: nothing for a row outside the list,
      otherwise the row's uid, name, secret as key, email as login and service. */
  function EditModel(list: seq<Authenticator>, row: int): (m: Option<ServiceDetailsModel>)
    ensures m.Some? <==> 0 <= row < |list|
    ensures m.Some? ==>
              && m.value.uid == Some(list[row].uid) && m.value.serviceName == Some(list[row].name)
              && m.value.key == list[row].secret && m.value.login == Some(list[row].email)
              && m.value.service == Some(list[row].service)
  {
    if 0 <= row < |list| then
      var a := list[row];
      Some(ServiceDetailsModel(Some(a.uid), Some(a.name), a.secret, Some(a.email), Some(a.service)))
    else None
  }

  /** Opening a row for editing and continuing without changes saves that
      same authenticator again, under its own uid. */
  lemma EditRoundTrip(list: seq<Authenticator>, row: int, title: string, button: string, freshUid: string)
    requires 0 <= row < |list|
    ensures ContinueOutcome(AuthenticatorForm(title, button), SeededInputs(EditModel(list, row).value), freshUid)
            == Some(SavedAuthenticator(list[row]))
  {
    var f := SeededInputs(EditModel(list, row).value);
    assert f.uid == Some(list[row].uid);
  }

  /** `deleteTrigger`'s target: the authenticator at the row of the shown
      list, only once the alert finished and only for a row in range. */
  function DeleteTarget(alertFinished: bool, list: seq<Authenticator>, row: int): (target: Option<Authenticator>)
    ensures target.Some? <==> alertFinished && 0 <= row < |list|
    ensures target.Some? ==> target.value == list[row]
  {
    if alertFinished && 0 <= row < |list| then Some(list[row]) else None
  }

  class AuthenticatorViewModel {
    const repository: AuthenticatorsRepository.Repository
    /** The latest value of `searchQuerySubject`; `None` until one arrives. */
    var searchQuery: Option<Option<string>>

    ghost predicate Valid()
      reads this, repository, repository.storage
    {
      repository.Valid()
    }

    /** `authenticators`: `combineLatest` shows nothing until a query has
        arrived, then the repository list filtered by the latest query. */
    function Displayed(): (shown: seq<Authenticator>)
      reads this, repository
      ensures searchQuery.None? ==> shown == []
      ensures searchQuery.Some? ==> IsSubsequence(shown, repository.authenticators)
      ensures searchQuery.Some? && (searchQuery.value.None? || searchQuery.value.value == []) ==>
                shown == repository.authenticators
      ensures searchQuery.Some? && searchQuery.value.Some? && searchQuery.value.value != [] ==>
                forall a :: a in shown <==> a in repository.authenticators && Matches(a, searchQuery.value.value)
      ensures searchQuery.Some? && searchQuery.value.Some? && searchQuery.value.value != [] ==>
                forall a :: multiset(shown)[a] ==
                              if Matches(a, searchQuery.value.value) then multiset(repository.authenticators)[a] else 0
    {
      if searchQuery.None? then [] else Filtered(repository.authenticators, searchQuery.value)
    }

    constructor (repository: AuthenticatorsRepository.Repository)
      requires repository.Valid()
      ensures Valid() && this.repository == repository && searchQuery == None
    {
      this.repository := repository;
      searchQuery := None;
    }

    /** `searchQuery`. */
    method Search(query: Option<string>)
      modifies this
      ensures searchQuery == Some(query)
    {
      searchQuery := Some(query);
    }

    /** `willAppearTrigger` and `refreshTrigger`: ask the repository to refresh. */
    method Refresh()
      requires Valid()
      modifies repository
      ensures Valid()
      ensures repository.authenticators ==
              AuthenticatorsRepository.Project(repository.storage.Contents(), repository.servicesRepository.services)
    {
      repository.Refresh();
    }

    /** `manualInputTrigger`: open an empty form to add an account. */
    method ManualInput() returns (request: FormRequest)
      ensures request.serviceType == AuthenticatorForm("Add account", "Add account")
      ensures request.model == EmptyModel
    {
      request := FormRequest(AuthenticatorForm("Add account", "Add account"), EmptyModel);
    }

    /** `editTrigger`: for a row of the shown list, open the form on that
        authenticator; for any other row, nothing. */
    method Edit(row: int) returns (request: Option<FormRequest>)
      ensures request.Some? <==> 0 <= row < |Displayed()|
      ensures request.Some? ==> request.value.serviceType == AuthenticatorForm("Edit Data", "Save changes") &&
                                Some(request.value.model) == EditModel(Displayed(), row)
    {
      var model := EditModel(Displayed(), row);
      request := if model.Some? then Some(FormRequest(AuthenticatorForm("Edit Data", "Save changes"), model.value)) else None;
    }

    /** `deleteTrigger`, given how the alert ended: delete the authenticator
        at that row of the shown list, or leave everything as it is. */
    method Delete(alertFinished: bool, row: int)
      requires Valid()
      modifies repository, repository.storage
      ensures Valid()
      ensures var target := DeleteTarget(alertFinished, old(Displayed()), row);
              && (target.None? ==>
                    && repository.authenticators == old(repository.authenticators)
                    && repository.storage.rows == old(repository.storage.rows)
                    && repository.storage.order == old(repository.storage.order))
              && (target.Some? ==>
                    && repository.storage.rows == old(repository.storage.rows) - {target.value.uid}
                    && repository.storage.order == Table.Without(old(repository.storage.order), target.value.uid)
                    && repository.authenticators ==
                         AuthenticatorsRepository.Project(repository.storage.Contents(), repository.servicesRepository.services)
                    && forall a :: a in repository.authenticators ==> a.uid != target.value.uid)
    {
      var target := DeleteTarget(alertFinished, Displayed(), row);
      if target.Some? {
        repository.Delete(target.value);
      }
    }
  }
}
