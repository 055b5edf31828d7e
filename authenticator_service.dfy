/** One-time-password generation (Domain/Services/AuthenticatorService.swift).
    SwiftOTP's base32 decoding and TOTP generation are foreign code: they are
    the two functions of an `OtpLibrary` value, so they are deterministic and
    otherwise unconstrained. The clock is read twice per evaluation in the
    source, once for the expiry and once for the code; both readings are inputs. */
module AuthenticatorService {
  import opened Wrappers
  import opened Domain
  import opened Sequences

  /** `base32DecodeToData` and `TOTP(secret:digits:timeInterval:algorithm:)?.generate(time:)`,
      the latter taking the secret, the digit count, the interval, the hash and
      the time in whole seconds since 1970 (`nil` from either step is `None`). */
  datatype OtpLibrary = OtpLibrary(
    base32Decode: string -> Option<seq<bv8>>,
    totp: (seq<bv8>, nat, int, AuthenticatorAlgorithm, int) -> Option<string>)

  /** The generation settings a subscriber passes. */
  datatype OtpParameters = OtpParameters(
    length: PasswordLength, timeInterval: int, algorithm: AuthenticatorAlgorithm)

  /** The defaults of the protocol extension: six digits, thirty seconds, SHA-1. */
  function Parameters(length: Option<PasswordLength>, timeInterval: Option<int>,
                      algorithm: Option<AuthenticatorAlgorithm>): (p: OtpParameters)
    ensures p.length == (if length.Some? then length.value else PasswordLength(6))
    ensures p.timeInterval == (if timeInterval.Some? then timeInterval.value else 30)
    ensures p.algorithm == (if algorithm.Some? then algorithm.value else Sha1)
  {
    OtpParameters(length.GetOr(Six), timeInterval.GetOr(30), algorithm.GetOr(Sha1))
  }

  /** Swift's `%` on `Int`, which truncates: the remainder has the sign of the dividend. */
  function SwiftRemainder(a: int, b: int): (r: int)
    requires b != 0
    ensures a >= 0 && b > 0 ==> r == a % b
    ensures a >= 0 ==> 0 <= r && (r < b || r < -b)
    ensures a < 0 ==> r <= 0 && (-r < b || -r < -b)
    ensures exists q :: a == b * q + r
  {
    var n := if a < 0 then -a else a;
    var d := if b < 0 then -b else b;
    var m := n % d;
    var r := if a < 0 then -m else m;
    TruncatedDivision(a, b, if (a < 0) == (b < 0) then n / d else -(n / d), r);
    r
  }

  /** Truncating division: the quotient of the magnitudes, negated when the
      signs differ, with the remainder of the magnitudes carrying the
      dividend's sign, reassembles the dividend. */
  lemma TruncatedDivision(a: int, b: int, q: int, r: int)
    requires b != 0
    requires var n := if a < 0 then -a else a;
             var d := if b < 0 then -b else b;
             && q == (if (a < 0) == (b < 0) then n / d else -(n / d))
             && r == (if a < 0 then -(n % d) else n % d)
    ensures a == b * q + r
  {
    var n := if a < 0 then -a else a;
    var d := if b < 0 then -b else b;
    assert n == d * (n / d) + n % d;
  }

  /** `timeInterval - (secondsPast1970 % timeInterval)`: the seconds until the
      window of the current code ends. From 1970 on, with a positive interval,
      it is a whole window at a boundary, never zero, and it ends exactly on the
      next multiple of the interval. */
  function ExpirationInSeconds(timeInterval: int, secondsPast1970: int): (e: int)
    requires timeInterval != 0
    ensures timeInterval > 0 && secondsPast1970 >= 0 ==> 1 <= e <= timeInterval
    ensures timeInterval > 0 && secondsPast1970 >= 0 ==>
              secondsPast1970 + e == (secondsPast1970 / timeInterval + 1) * timeInterval
    ensures timeInterval > 0 && secondsPast1970 >= 0 && secondsPast1970 % timeInterval == 0 ==>
              e == timeInterval
  {
    timeInterval - SwiftRemainder(secondsPast1970, timeInterval)
  }

  /** The two clock readings of one evaluation, in whole seconds since 1970:
      the one the expiry is computed from, and the one the code is generated at. */
  datatype ClockReading = ClockReading(secondsPast1970: int, codeTime: int)

  /** `generateOneTimePassword`: decode the secret, then generate. A secret that
      does not decode fails with `unableToDecodeSecret` and a generator that
      yields nothing with `unableToGenerateTOTP`; otherwise the result carries
      exactly the generated code and the expiry computed from the clock. */
  function GenerateOneTimePassword(lib: OtpLibrary, secret: string, p: OtpParameters,
                                   clock: ClockReading): (r: Result<OneTimePassword, AuthenticatorError>)
    requires p.timeInterval != 0 || lib.base32Decode(secret).None?
    ensures r == Failure(UnableToDecodeSecret) <==> lib.base32Decode(secret).None?
    ensures r == Failure(UnableToGenerateTOTP) <==>
              lib.base32Decode(secret).Some? &&
              lib.totp(lib.base32Decode(secret).value, p.length.rawValue, p.timeInterval,
                       p.algorithm, clock.codeTime).None?
    ensures r.Success? ==>
              lib.base32Decode(secret).Some? &&
              lib.totp(lib.base32Decode(secret).value, p.length.rawValue, p.timeInterval,
                       p.algorithm, clock.codeTime) == Some(r.value.code) &&
              r.value.expirationInSeconds == ExpirationInSeconds(p.timeInterval, clock.secondsPast1970)
    ensures r.Success? && p.timeInterval > 0 && clock.secondsPast1970 >= 0 ==>
              1 <= r.value.expirationInSeconds <= p.timeInterval
    ensures r != Failure(UnrecognizedError)
  {
    match lib.base32Decode(secret)
    case None => Failure(UnableToDecodeSecret)
    case Some(secretData) =>
      var expirationInSeconds := ExpirationInSeconds(p.timeInterval, clock.secondsPast1970);
      match lib.totp(secretData, p.length.rawValue, p.timeInterval, p.algorithm, clock.codeTime)
      case Some(totp) => Success(OneTimePassword(totp, expirationInSeconds))
      case None => Failure(UnableToGenerateTOTP)
  }

  /** The only multiple of a positive `k` strictly between `-k` and `k` is zero. */
  lemma FactorBetweenNeighbours(d: int, k: int)
    requires k > 0 && -k < d * k < k
    ensures d == 0
  {
    if d != 0 {
      AtLeastOneFactor(if d > 0 then d else -d, k);
    }
  }

  /** A positive factor makes a product at least as large as the other factor. */
  lemma AtLeastOneFactor(d: int, k: int)
    requires d >= 1 && k > 0
    ensures d * k >= k
  {
  }

  /** Quotients are unique: a value between two consecutive multiples of a
      positive divisor has the lower one's factor as its quotient. */
  lemma DivisionUnique(t: int, k: int, q: int)
    requires k > 0 && q * k <= t < q * k + k
    ensures t / k == q
  {
    var d := t / k - q;
    assert d * k == (t / k) * k - q * k;
    assert -k < d * k < k;
    FactorBetweenNeighbours(d, k);
  }

  /** Seen from a later second of the same window, the expiry is the earlier
      one lowered by the seconds passed and the time step has not changed
      (section 4.2 of RFC 6238, with T0 = 0); once the expiry has run out,
      the next time step begins. */
  lemma {:induction false} ExpiryCountsDown(timeInterval: int, now: int, t: int)
    requires timeInterval > 0 && now >= 0
    requires now <= t <= now + ExpirationInSeconds(timeInterval, now)
    ensures t < now + ExpirationInSeconds(timeInterval, now) ==>
              && t / timeInterval == now / timeInterval
              && ExpirationInSeconds(timeInterval, t) == ExpirationInSeconds(timeInterval, now) - (t - now)
    ensures t == now + ExpirationInSeconds(timeInterval, now) ==> t / timeInterval == now / timeInterval + 1
  {
    var q := now / timeInterval;
    var e := ExpirationInSeconds(timeInterval, now);
    assert now + e == (q + 1) * timeInterval;
    assert q * timeInterval <= now;
    if t < now + e {
      DivisionUnique(t, timeInterval, q);
      assert t % timeInterval == t - q * timeInterval;
    } else {
      DivisionUnique(t, timeInterval, q + 1);
    }
  }

  /** The one assumption made of the library: as section 4.2 of RFC 6238
      prescribes, the code it generates depends on the time only through the
      time step (the whole intervals since 1970). */
  ghost predicate CounterBased(lib: OtpLibrary)
  {
    forall data, digits, interval, algorithm, t1, t2 ::
      interval > 0 && t1 / interval == t2 / interval ==>
        lib.totp(data, digits, interval, algorithm, t1) == lib.totp(data, digits, interval, algorithm, t2)
  }

  /** For such a library, an evaluation made while the timer of an earlier one
      (both reading the clock once) is still running has the same outcome: the
      same code, with the timer lowered by the seconds passed, or the same error. */
  lemma CodeHoldsUntilExpiry(lib: OtpLibrary, secret: string, p: OtpParameters, now: int, t: int)
    requires CounterBased(lib) && p.timeInterval > 0 && now >= 0
    requires now <= t < now + ExpirationInSeconds(p.timeInterval, now)
    ensures var earlier := GenerateOneTimePassword(lib, secret, p, ClockReading(now, now));
            var later := GenerateOneTimePassword(lib, secret, p, ClockReading(t, t));
            && (earlier.Success? <==> later.Success?)
            && (earlier.Success? ==>
                  && later.value.code == earlier.value.code
                  && later.value.expirationInSeconds == earlier.value.expirationInSeconds - (t - now))
            && (earlier.Failure? ==> later == earlier)
  {
    ExpiryCountsDown(p.timeInterval, now, t);
    var data := lib.base32Decode(secret);
    if data.Some? {
      assert lib.totp(data.value, p.length.rawValue, p.timeInterval, p.algorithm, now) ==
             lib.totp(data.value, p.length.rawValue, p.timeInterval, p.algorithm, t);
    }
  }

  /** No two neighbours of `ys` are equal. */
  predicate NoAdjacentRepeats<T(==)>(ys: seq<T>) {
    forall i :: 0 < i < |ys| ==> ys[i - 1] != ys[i]
  }

  /** Rx's `distinctUntilChanged`: what is passed on from `xs` when every value
      equal to the one passed on just before it is dropped. */
  function DistinctUntilChanged<T(==)>(xs: seq<T>): (ys: seq<T>)
    ensures NoAdjacentRepeats(ys)
    ensures IsSubsequence(ys, xs)
    ensures |xs| > 0 ==> |ys| > 0 && ys[|ys| - 1] == xs[|xs| - 1]
  {
    if |xs| == 0 then []
    else
      var init, x := xs[..|xs| - 1], xs[|xs| - 1];
      assert xs == init + [x];
      var prev := DistinctUntilChanged(init);
      if |prev| > 0 && prev[|prev| - 1] == x then
        SubsequenceExtend(prev, init, x);
        prev
      else
        SubsequenceSnoc(prev, init, x);
        prev + [x]
  }

  /** One more value is passed on exactly when it differs from the last one passed on. */
  lemma DistinctUntilChangedSnoc<T>(xs: seq<T>, x: T)
    ensures var prev := DistinctUntilChanged(xs);
            DistinctUntilChanged(xs + [x]) ==
              if |prev| > 0 && prev[|prev| - 1] == x then prev else prev + [x]
  {
    assert (xs + [x])[..|xs|] == xs;
  }

  /** Position `i` of `xs` starts a new run: it is the first value or it
      differs from the value just before it. */
  predicate StartsRun<T(==)>(xs: seq<T>, i: int)
    requires 0 <= i < |xs|
  {
    i == 0 || xs[i] != xs[i - 1]
  }

  /** The values at the positions among the first `n` of `xs` that start a run,
      in order: a definition by positions, independent of what was passed on. */
  function RunStarts<T(==)>(xs: seq<T>, n: nat): seq<T>
    requires n <= |xs|
  {
    if n == 0 then []
    else RunStarts(xs, n - 1) + (if StartsRun(xs, n - 1) then [xs[n - 1]] else [])
  }

  /** `distinctUntilChanged` passes on `xs[i]` exactly when `i` starts a run:
      comparing with the last value passed on is comparing with the neighbour. */
  lemma {:induction false} DistinctUntilChangedKeepsRunStarts<T>(xs: seq<T>, n: nat)
    requires n <= |xs|
    ensures DistinctUntilChanged(xs[..n]) == RunStarts(xs, n)
    ensures n == |xs| ==> DistinctUntilChanged(xs) == RunStarts(xs, n)
  {
    assert xs[..|xs|] == xs;
    if n > 0 {
      DistinctUntilChangedKeepsRunStarts(xs, n - 1);
      assert xs[..n] == xs[..n - 1] + [xs[n - 1]];
      DistinctUntilChangedSnoc(xs[..n - 1], xs[n - 1]);
    }
  }

  /** Filtering what is already filtered changes nothing. */
  lemma {:induction false} DistinctUntilChangedIdempotent<T>(xs: seq<T>)
    ensures DistinctUntilChanged(DistinctUntilChanged(xs)) == DistinctUntilChanged(xs)
  {
    var ys := DistinctUntilChanged(xs);
    if |xs| > 0 {
      var init, x := xs[..|xs| - 1], xs[|xs| - 1];
      assert xs == init + [x];
      var prev := DistinctUntilChanged(init);
      DistinctUntilChangedIdempotent(init);
      if !(|prev| > 0 && prev[|prev| - 1] == x) {
        DistinctUntilChangedSnoc(prev, x);
      }
    }
  }

  /** The result of every evaluation, one per clock reading. */
  function Evaluations(lib: OtpLibrary, secret: string, p: OtpParameters, clock: seq<ClockReading>)
    : (rs: seq<Result<OneTimePassword, AuthenticatorError>>)
    requires p.timeInterval != 0 || lib.base32Decode(secret).None?
    ensures |rs| == |clock|
    ensures forall i :: 0 <= i < |clock| ==> rs[i] == GenerateOneTimePassword(lib, secret, p, clock[i])
  {
    seq(|clock|, i requires 0 <= i < |clock| => GenerateOneTimePassword(lib, secret, p, clock[i]))
  }

  /** `oneTimePassword(authenticator:...)`: the stream evaluates once at once
      (`startWith`) and then once per tick; `clock` holds the readings of these
      evaluations in turn. What it publishes is the evaluations with repeats of
      the last published value dropped, so it never publishes the same result
      twice in a row and always ends on the latest evaluation. */
  method OneTimePasswordStream(lib: OtpLibrary, authenticator: Authenticator, p: OtpParameters,
                               clock: seq<ClockReading>)
    returns (published: seq<Result<OneTimePassword, AuthenticatorError>>)
    requires p.timeInterval != 0 || lib.base32Decode(authenticator.secret).None?
    ensures published == DistinctUntilChanged(Evaluations(lib, authenticator.secret, p, clock))
  {
    ghost var evaluations := Evaluations(lib, authenticator.secret, p, clock);
    published := [];
    var last: Option<Result<OneTimePassword, AuthenticatorError>> := None;
    for i := 0 to |clock|
      invariant published == DistinctUntilChanged(evaluations[..i])
      invariant last == if |published| == 0 then None else Some(published[|published| - 1])
    {
      var result := GenerateOneTimePassword(lib, authenticator.secret, p, clock[i]);
      assert evaluations[..i + 1] == evaluations[..i] + [result];
      DistinctUntilChangedSnoc(evaluations[..i], result);
      if last != Some(result) {
        published := published + [result];
        last := Some(result);
      }
    }
    assert evaluations[..|clock|] == evaluations;
  }
}
