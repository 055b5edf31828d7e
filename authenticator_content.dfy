/** The code display of one authenticator row
    (Presentation/Scenes/Authenticator/ContentView/AuthenticatorContentViewModel.swift).
    Subjects become fields; triggers become methods; each evaluation of the live
    code stream is a call of `Tick` with that evaluation's clock readings. */
module AuthenticatorContent {
  import opened Wrappers
  import opened Domain
  import opened AuthenticatorService

  /** `AuthenticatorContentViewState`. */
  datatype ViewState = Idle | Failed

  /** The default `validCodeDuration`, in seconds. */
  const DefaultValidCodeDuration := 30

  class ContentViewModel {
    const authenticator: Authenticator
    /** The time interval the code subscription is made with. */
    const validCodeDuration: int
    /** The value of `stateSubject`. */
    var state: ViewState
    /** The last value sent on `codeSubject`, if any was. */
    var code: Option<string>
    /** The last value sent on `timerSubject`, if any was. */
    var timer: Option<int>
    /** Whether `codeBag` holds a live code subscription. */
    var active: bool
    /** How many code subscriptions have been started. */
    var started: nat
    /** The value `distinctUntilChanged` of the live subscription last let through. */
    var lastPublished: Option<Result<OneTimePassword, AuthenticatorError>>
    /** Every evaluation of the live subscription, and what of them it published. */
    ghost var evaluations: seq<Result<OneTimePassword, AuthenticatorError>>
    ghost var delivered: seq<Result<OneTimePassword, AuthenticatorError>>

    /** The live stream publishes its evaluations without repeats, remembers
        the last one, and the display shows that last one. */
    ghost predicate Valid()
      reads this
    {
      && delivered == DistinctUntilChanged(evaluations)
      && lastPublished == (if |delivered| == 0 then None else Some(delivered[|delivered| - 1]))
      && (!active ==> evaluations == [])
      && (|delivered| > 0 ==> Shows(delivered[|delivered| - 1]))
    }

    /** The display reflects `r`: a code and its timer after a success, the
        failed state after a failure. */
    ghost predicate Shows(r: Result<OneTimePassword, AuthenticatorError>)
      reads this
    {
      match r
      case Success(otp) => state == Idle && code == Some(otp.code) && timer == Some(otp.expirationInSeconds)
      case Failure(_) => state == Failed
    }

    /** The state starts idle, with no code, no timer and no subscription. */
    constructor (authenticator: Authenticator, validCodeDuration: int)
      ensures Valid()
      ensures this.authenticator == authenticator && this.validCodeDuration == validCodeDuration
      ensures state == Idle && code == None && timer == None && !active && started == 0
    {
      this.authenticator := authenticator;
      this.validCodeDuration := validCodeDuration;
      state, code, timer := Idle, None, None;
      active, started, lastPublished := false, 0, None;
      evaluations, delivered := [], [];
    }

    /** The parameters of the code subscription: default length and hash,
        `validCodeDuration` as the interval. */
    function SubscriptionParameters(): (p: OtpParameters)
      reads this
      ensures p == Parameters(None, Some(validCodeDuration), None)
    {
      OtpParameters(Six, validCodeDuration, Sha1)
    }

    /** `selectTrigger`: selecting (re)starts the code subscription, cancelling
        any live one first, so exactly one is live and it starts afresh;
        deselecting cancels it, and does nothing when none is live. The display
        is left as it is either way. */
    method Select(isSelected: bool)
      requires Valid()
      modifies this
      ensures Valid()
      ensures active == isSelected
      ensures isSelected ==> started == old(started) + 1 && evaluations == [] && lastPublished == None
      ensures !isSelected ==> started == old(started)
      ensures !isSelected && !old(active) ==> lastPublished == old(lastPublished) && evaluations == old(evaluations)
      ensures state == old(state) && code == old(code) && timer == old(timer)
    {
      if isSelected {
        BindAuthenticator();
      } else {
        InvalidateAuthenticator();
      }
    }

    /** `invalidateAuthenticator`: a fresh `codeBag` disposes the live subscription. */
    method InvalidateAuthenticator()
      requires Valid()
      modifies this
      ensures Valid()
      ensures !active && started == old(started) && lastPublished == None && evaluations == []
      ensures !old(active) ==> lastPublished == old(lastPublished)
      ensures state == old(state) && code == old(code) && timer == old(timer)
    {
      active, lastPublished := false, None;
      evaluations, delivered := [], [];
    }

    /** `bindAuthenticator`: cancel, then subscribe anew. */
    method BindAuthenticator()
      requires Valid()
      modifies this
      ensures Valid()
      ensures active && started == old(started) + 1 && lastPublished == None && evaluations == []
      ensures state == old(state) && code == old(code) && timer == old(timer)
    {
      InvalidateAuthenticator();
      active, started := true, started + 1;
    }

    /** One evaluation of the live code stream. With no live subscription
        nothing happens. Otherwise the result is computed; if it equals the
        last one published it is dropped, else it is published: a success sets
        the state to idle and sends the code and the expiry as the timer, a
        failure sets the state to failed and leaves code and timer alone. */
    method Tick(lib: OtpLibrary, clock: ClockReading)
      requires Valid()
      requires validCodeDuration != 0 || lib.base32Decode(authenticator.secret).None?
      modifies this
      ensures Valid()
      ensures active == old(active) && started == old(started)
      ensures !old(active) ==> state == old(state) && code == old(code) && timer == old(timer) &&
                               evaluations == old(evaluations) && lastPublished == old(lastPublished)
      ensures old(active) ==>
                var r := GenerateOneTimePassword(lib, authenticator.secret, SubscriptionParameters(), clock);
                && evaluations == old(evaluations) + [r]
                && lastPublished == Some(r)
                && (old(lastPublished) == Some(r) ==> state == old(state) && code == old(code) && timer == old(timer))
                && (old(lastPublished) != Some(r) && r.Success? ==>
                      state == Idle && code == Some(r.value.code) && timer == Some(r.value.expirationInSeconds))
                && (old(lastPublished) != Some(r) && r.Failure? ==>
                      state == Failed && code == old(code) && timer == old(timer))
    {
      if active {
        var p := SubscriptionParameters();
        assert p.timeInterval == validCodeDuration;
        var result := GenerateOneTimePassword(lib, authenticator.secret, p, clock);
        DistinctUntilChangedSnoc(evaluations, result);
        evaluations := evaluations + [result];
        if lastPublished != Some(result) {
          delivered := delivered + [result];
          lastPublished := Some(result);
          match result
          case Success(oneTimePassword) =>
            state := Idle;
            code := Some(oneTimePassword.code);
            timer := Some(oneTimePassword.expirationInSeconds);
          case Failure(_) =>
            state := Failed;
            assert Shows(result);
        }
        assert delivered == DistinctUntilChanged(evaluations);
      }
    }

    /** `copyTrigger`: with a code published, it goes to the pasteboard and
        the "Code Copied" alert is shown; before any code, nothing happens. */
    method Copy() returns (pasteboard: Option<string>, alertShown: bool)
      ensures alertShown <==> code.Some?
      ensures pasteboard == code
    {
      pasteboard := code;
      alertShown := code.Some?;
    }
  }
}
