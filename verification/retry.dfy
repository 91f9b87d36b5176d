/** The auth-retry wrapper `refresh_and_retry_on_error` applied to every
    authenticated remote call of `CowinApi`.

    The wrapped operation is a script too: its i-th call within one wrapped
    invocation answers `calls(i)`. Refreshes draw on the shared fetch script,
    so a run of the wrapper threads the index of the next unused fetch. */
module Retry {
  import opened Outcomes
  import Auth

  /** HTTP 401 and 403 are the only failures the wrapper retries. */
  predicate IsAuthFailure<T>(a: Attempt<T>) {
    a.Raise? && a.error.HttpError? && (a.error.status == 401 || a.error.status == 403)
  }

  function Pow4(n: nat): nat {
    if n == 0 then 1 else 4 * Pow4(n - 1)
  }

  /** The wait before the refresh that follows failed attempt `i`: none after
      the first attempt, `4^i` seconds after every later one. */
  function Backoff(i: nat): seq<Event> {
    if i > 0 then [Sleep(Pow4(i))] else []
  }

  /** A run of the wrapper: its events, what it returns or raises, the token
      the API holds afterwards, and the next unused fetch answer. */
  datatype RetryRun<T> = RetryRun(trace: seq<Event>, result: Attempt<T>, token: Token, next: nat)

  /** What `self.refresh_token()` does when the next unused fetch answer is
      the n-th: the wrapper sees the refresh only through this run. */
  type Refresher = nat -> Auth.AuthRun

  /** The refresh of `CowinAuth`, drawing on the fetch script. */
  function AuthRefresher(fetches: Auth.FetchScript): Refresher {
    (n: nat) => Auth.RefreshToken(fetches, n)
  }

  /** A refresher that, whatever token is held, makes no call, refresh or wait
      of its own and replaces the token exactly when it returns a new one. */
  ghost predicate WellBehaved(refresh: Refresher) {
    forall n: nat, token: Token :: Auth.Unobtrusive(refresh(n), token)
  }

  /** The refresh of `CowinAuth` is such a refresher. */
  lemma AuthRefresherIsWellBehaved(fetches: Auth.FetchScript)
    ensures WellBehaved(AuthRefresher(fetches))
  {
    forall n: nat, token: Token ensures Auth.Unobtrusive(AuthRefresher(fetches)(n), token) {
      Auth.RefreshObservations(fetches, n, token);
    }
  }

  /** The events of failed attempt `i`: the call, the backoff wait, the
      refresh and the refresh's fetches. */
  function FailedAttempt(i: nat, token: Token, refresh: Auth.AuthRun): seq<Event> {
    [Call(token)] + Backoff(i) + [Refresh] + refresh.trace
  }

  /** One failed attempt holds one call and one refresh, and waits 4^i
      seconds only after an attempt other than the first. */
  lemma FailedAttemptCounts(i: nat, token: Token, run: Auth.AuthRun)
    requires Auth.Unobtrusive(run, token)
    ensures var events := FailedAttempt(i, token, run);
            && CallCount(events) == 1
            && RefreshCount(events) == 1
            && Sleeps(events) == (if i > 0 then [Pow4(i)] else [])
  {
    var head := [Call(token)] + Backoff(i) + [Refresh];
    CountsSplit([Call(token)] + Backoff(i), [Refresh]);
    CountsSplit([Call(token)], Backoff(i));
    CountsSplit(head, run.trace);
  }

  /** The call of a failed attempt carries the current token, and the attempt
      installs the fetched token exactly when the refresh succeeds. */
  lemma FailedAttemptTokens(i: nat, token: Token, run: Auth.AuthRun)
    requires Auth.Unobtrusive(run, token)
    ensures var events := FailedAttempt(i, token, run);
            && CallsUseCurrentToken(events, token)
            && TokenAfter(events, token) == (if run.result.Ok? then run.result.value else token)
  {
    var head := [Call(token)] + Backoff(i) + [Refresh];
    TokenSplit([Call(token)] + Backoff(i), [Refresh], token);
    TokenSplit([Call(token)], Backoff(i), token);
    TokenSplit(head, run.trace, token);
  }

  /** The wrapper's loop from attempt `i` on, holding `token`. */
  function Attempts<T>(calls: nat -> Attempt<T>, refresh: Refresher, i: nat, token: Token, next: nat): (r: RetryRun<T>)
    requires i <= Auth.MaxErrorRetry && WellBehaved(refresh)
    ensures CallCount(r.trace) <= Auth.MaxErrorRetry - i
    ensures RefreshCount(r.trace) <= CallCount(r.trace)
    ensures r.result.Ok? ==> 0 < CallCount(r.trace) && r.result == calls(i + CallCount(r.trace) - 1)
    decreases Auth.MaxErrorRetry - i
  {
    if i == Auth.MaxErrorRetry then
      RetryRun([], Raise(ApiRetriesExhausted), token, next)
    else
      var answer := calls(i);
      if !IsAuthFailure(answer) then
        RetryRun([Call(token)], answer, token, next)
      else
        var run := refresh(next);
        var prefix := FailedAttempt(i, token, run);
        FailedAttemptCounts(i, token, run);
        match run.result
        case Raise(e) =>
          RetryRun(prefix, Raise(e), token, run.next)
        case Ok(renewed) =>
          var rest := Attempts(calls, refresh, i + 1, renewed, run.next);
          CountsSplit(prefix, rest.trace);
          RetryRun(prefix + rest.trace, rest.result, rest.token, rest.next)
  }

  /** Every call of the wrapper's loop carries the token held at that moment,
      and the token the run reports is the one its events leave behind. */
  lemma {:induction false} AttemptsUseCurrentToken<T>(calls: nat -> Attempt<T>, refresh: Refresher,
                                                      i: nat, token: Token, next: nat)
    requires i <= Auth.MaxErrorRetry && WellBehaved(refresh)
    ensures var r := Attempts(calls, refresh, i, token, next);
            CallsUseCurrentToken(r.trace, token) && TokenAfter(r.trace, token) == r.token
    decreases Auth.MaxErrorRetry - i, 1
  {
    var r := Attempts(calls, refresh, i, token, next);
    if i == Auth.MaxErrorRetry {
      assert r.trace == [] && r.token == token;
    } else if !IsAuthFailure(calls(i)) {
      assert r.trace == [Call(token)] && r.token == token;
      assert CallsUseCurrentToken(r.trace[1..], token);
    } else if refresh(next).result.Ok? {
      RenewedTokenCarriesOn(calls, refresh, i, token, next);
    } else {
      FailedAttemptTokens(i, token, refresh(next));
      assert r.trace == FailedAttempt(i, token, refresh(next)) && r.token == token;
    }
  }

  /** The step of `AttemptsUseCurrentToken` after a refresh that succeeded. */
  lemma {:induction false} RenewedTokenCarriesOn<T>(calls: nat -> Attempt<T>, refresh: Refresher,
                                                    i: nat, token: Token, next: nat)
    requires i < Auth.MaxErrorRetry && IsAuthFailure(calls(i)) && WellBehaved(refresh)
    requires refresh(next).result.Ok?
    ensures var r := Attempts(calls, refresh, i, token, next);
            CallsUseCurrentToken(r.trace, token) && TokenAfter(r.trace, token) == r.token
    decreases Auth.MaxErrorRetry - i, 0
  {
    var run := refresh(next);
    var renewed := run.result.value;
    var prefix := FailedAttempt(i, token, run);
    var rest := Attempts(calls, refresh, i + 1, renewed, run.next);
    FailedAttemptTokens(i, token, run);
    AttemptsUseCurrentToken(calls, refresh, i + 1, renewed, run.next);
    ComposeTokens(prefix, rest.trace, token, renewed, rest.token);
    assert Attempts(calls, refresh, i, token, next) == RetryRun(prefix + rest.trace, rest.result, rest.token, rest.next);
  }

  /** The decorated call: at most five calls of the operation, each with the
      token held at that moment; an answer other than 401/403 ends the run at
      once, returned or raised unchanged. */
  function CallWithRetry<T>(calls: nat -> Attempt<T>, fetches: Auth.FetchScript, token: Token, next: nat): (r: RetryRun<T>)
    ensures CallCount(r.trace) <= Auth.MaxErrorRetry
    ensures CallsUseCurrentToken(r.trace, token)
    ensures !IsAuthFailure(calls(0)) ==> r.trace == [Call(token)] && r.result == calls(0) && r.next == next
  {
    AuthRefresherIsWellBehaved(fetches);
    AttemptsUseCurrentToken(calls, AuthRefresher(fetches), 0, token, next);
    Attempts(calls, AuthRefresher(fetches), 0, token, next)
  }

  /** The waits the wrapper makes after failed attempts i .. k-1. */
  function BackoffSleeps(i: nat, k: nat): seq<nat>
    decreases k - i
  {
    if k <= i then [] else (if i > 0 then [Pow4(i)] else []) + BackoffSleeps(i + 1, k)
  }

  /** What a run after a 401/403 answer and a refresh that fetched a token
      shows, against the rest of the run. */
  ghost predicate ExtendsByFailedAttempt<T>(r: RetryRun<T>, rest: RetryRun<T>, i: nat) {
    && r.result == rest.result
    && CallCount(r.trace) == 1 + CallCount(rest.trace)
    && RefreshCount(r.trace) == 1 + RefreshCount(rest.trace)
    && Sleeps(r.trace) == (if i > 0 then [Pow4(i)] else []) + Sleeps(rest.trace)
  }

  /** A 401/403 answer followed by a refresh that returns a token, after
      however many `OtpError`s: one call and one refresh more than the rest of
      the run, which then holds the fetched token, and the backoff wait of
      attempt `i` ahead of its waits. */
  lemma AuthFailureStep<T>(calls: nat -> Attempt<T>, refresh: Refresher, i: nat, token: Token, next: nat)
    requires i < Auth.MaxErrorRetry && IsAuthFailure(calls(i)) && WellBehaved(refresh)
    requires refresh(next).result.Ok?
    ensures ExtendsByFailedAttempt(Attempts(calls, refresh, i, token, next),
                                   Attempts(calls, refresh, i + 1, refresh(next).result.value, refresh(next).next), i)
  {
    var run := refresh(next);
    var prefix := FailedAttempt(i, token, run);
    var rest := Attempts(calls, refresh, i + 1, run.result.value, run.next);
    assert Attempts(calls, refresh, i, token, next) == RetryRun(prefix + rest.trace, rest.result, rest.token, rest.next);
    FailedAttemptCounts(i, token, run);
    CountsSplit(prefix, rest.trace);
  }

  /** A 401/403 answer at attempt `k` followed by a refresh that raises: the
      run ends with that exception after one call, one refresh and the
      backoff wait of attempt `k`. */
  lemma RefreshFailureStep<T>(calls: nat -> Attempt<T>, refresh: Refresher, k: nat, token: Token, next: nat)
    requires k < Auth.MaxErrorRetry && IsAuthFailure(calls(k)) && WellBehaved(refresh)
    requires refresh(next).result.Raise?
    ensures FailedThrough(Attempts(calls, refresh, k, token, next), k, k + 1, 1, Raise(refresh(next).result.error))
  {
    var run := refresh(next);
    FailedAttemptCounts(k, token, run);
    assert Attempts(calls, refresh, k, token, next)
        == RetryRun(FailedAttempt(k, token, run), Raise(run.result.error), token, run.next);
    assert BackoffSleeps(k, k + 1) == (if k > 0 then [Pow4(k)] else []);
  }

  /** The fetch index after `m` refreshes in a row, starting at `next`. */
  function FetchesAfter(refresh: Refresher, next: nat, m: nat): nat
    decreases m
  {
    if m == 0 then next else FetchesAfter(refresh, refresh(next).next, m - 1)
  }

  /** The next `m` refreshes, each starting where the previous one stopped,
      all return a token; any of them may first swallow `OtpError`s. */
  ghost predicate RefreshesSucceed(refresh: Refresher, next: nat, m: nat)
    decreases m
  {
    m == 0 || (refresh(next).result.Ok? && RefreshesSucceed(refresh, refresh(next).next, m - 1))
  }

  /** When every OTP arrives at once, every refresh of `CowinAuth` succeeds. */
  lemma {:induction false} EveryOtpArrives(fetches: Auth.FetchScript, next: nat, m: nat)
    requires forall n :: fetches(n).Ok?
    ensures RefreshesSucceed(AuthRefresher(fetches), next, m)
    decreases m
  {
    if m > 0 {
      EveryOtpArrives(fetches, Auth.RefreshToken(fetches, next).next, m - 1);
    }
  }

  /** The counts and waits of a run that failed attempts i .. k-1 and then
      stopped. */
  ghost predicate FailedThrough<T>(r: RetryRun<T>, i: nat, k: nat, calls: nat, result: Attempt<T>) {
    && r.result == result
    && CallCount(r.trace) == calls
    && RefreshCount(r.trace) == k - i
    && Sleeps(r.trace) == BackoffSleeps(i, k)
  }

  /** One more failed attempt ahead of a run of failures. */
  lemma FailedThroughExtend<T>(r: RetryRun<T>, rest: RetryRun<T>, i: nat, k: nat, calls: nat, result: Attempt<T>)
    requires i < k
    requires ExtendsByFailedAttempt(r, rest, i) && FailedThrough(rest, i + 1, k, calls, result)
    ensures FailedThrough(r, i, k, calls + 1, result)
  {
    assert BackoffSleeps(i, k) == (if i > 0 then [Pow4(i)] else []) + BackoffSleeps(i + 1, k);
  }

  /** Attempts i .. k-1 fail with 401/403 and attempt k (k < 5) answers
      anything else; each of the k - i refreshes returns a token. Then the
      wrapper gives attempt k's answer after k - i + 1 calls and k - i
      refreshes, waiting 4^j before the refresh after attempt j only for
      j > 0. */
  lemma {:induction false} AuthFailuresThenAnswer<T>(calls: nat -> Attempt<T>, refresh: Refresher,
                                                     i: nat, k: nat, token: Token, next: nat)
    requires i <= k < Auth.MaxErrorRetry && WellBehaved(refresh)
    requires forall j :: i <= j < k ==> IsAuthFailure(calls(j))
    requires !IsAuthFailure(calls(k))
    requires RefreshesSucceed(refresh, next, k - i)
    ensures FailedThrough(Attempts(calls, refresh, i, token, next), i, k, k - i + 1, calls(k))
    decreases k - i
  {
    if i < k {
      var run := refresh(next);
      AuthFailureStep(calls, refresh, i, token, next);
      AuthFailuresThenAnswer(calls, refresh, i + 1, k, run.result.value, run.next);
      FailedThroughExtend(Attempts(calls, refresh, i, token, next),
                          Attempts(calls, refresh, i + 1, run.result.value, run.next), i, k, k - i, calls(k));
    } else {
      assert Attempts(calls, refresh, i, token, next) == RetryRun([Call(token)], calls(k), token, next);
    }
  }

  /** Attempts i .. 4 all fail with 401/403 and every refresh returns a
      token: the wrapper raises "Failed to call api" after 5 - i calls and as
      many refreshes. */
  lemma {:induction false} AuthFailuresExhaust<T>(calls: nat -> Attempt<T>, refresh: Refresher,
                                                  i: nat, token: Token, next: nat)
    requires i <= Auth.MaxErrorRetry && WellBehaved(refresh)
    requires forall j :: i <= j < Auth.MaxErrorRetry ==> IsAuthFailure(calls(j))
    requires RefreshesSucceed(refresh, next, Auth.MaxErrorRetry - i)
    ensures FailedThrough(Attempts(calls, refresh, i, token, next), i, Auth.MaxErrorRetry,
                          Auth.MaxErrorRetry - i, Raise(ApiRetriesExhausted))
    decreases Auth.MaxErrorRetry - i
  {
    if i < Auth.MaxErrorRetry {
      var run := refresh(next);
      AuthFailureStep(calls, refresh, i, token, next);
      AuthFailuresExhaust(calls, refresh, i + 1, run.result.value, run.next);
      FailedThroughExtend(Attempts(calls, refresh, i, token, next),
                          Attempts(calls, refresh, i + 1, run.result.value, run.next),
                          i, Auth.MaxErrorRetry, Auth.MaxErrorRetry - i - 1, Raise(ApiRetriesExhausted));
    } else {
      assert Attempts(calls, refresh, i, token, next) == RetryRun([], Raise(ApiRetriesExhausted), token, next);
    }
  }

  /** Attempts i .. k all fail with 401/403; the refreshes after attempts
      i .. k-1 return tokens and the one after attempt k, which starts at
      fetch `stop`, raises. Then that
      exception ends the wrapper after k - i + 1 calls and as many refreshes,
      with the 4^j waits for j > 0, and no later attempt is made. */
  lemma {:induction false} AuthFailuresThenRefreshFails<T>(calls: nat -> Attempt<T>, refresh: Refresher,
                                                           i: nat, k: nat, token: Token, next: nat, stop: nat)
    requires i <= k < Auth.MaxErrorRetry && WellBehaved(refresh)
    requires forall j :: i <= j <= k ==> IsAuthFailure(calls(j))
    requires RefreshesSucceed(refresh, next, k - i) && FetchesAfter(refresh, next, k - i) == stop
    requires refresh(stop).result.Raise?
    ensures FailedThrough(Attempts(calls, refresh, i, token, next), i, k + 1, k - i + 1, Raise(refresh(stop).result.error))
    decreases k - i
  {
    if i < k {
      var run := refresh(next);
      AuthFailureStep(calls, refresh, i, token, next);
      AuthFailuresThenRefreshFails(calls, refresh, i + 1, k, run.result.value, run.next, stop);
      FailedThroughExtend(Attempts(calls, refresh, i, token, next),
                          Attempts(calls, refresh, i + 1, run.result.value, run.next), i, k + 1, k - i,
                          Raise(refresh(stop).result.error));
    } else {
      RefreshFailureStep(calls, refresh, k, token, next);
    }
  }

  /** Five authorization failures in a row, each refresh returning a token:
      five calls, five refreshes, waits of 4, 16, 64 and 256 seconds, then
      "Failed to call api". */
  lemma FiveAuthFailures<T>(calls: nat -> Attempt<T>, fetches: Auth.FetchScript, token: Token, next: nat)
    requires forall j :: 0 <= j < Auth.MaxErrorRetry ==> IsAuthFailure(calls(j))
    requires RefreshesSucceed(AuthRefresher(fetches), next, Auth.MaxErrorRetry)
    ensures var r := CallWithRetry(calls, fetches, token, next);
            && r.result == Raise(ApiRetriesExhausted)
            && CallCount(r.trace) == 5
            && RefreshCount(r.trace) == 5
            && Sleeps(r.trace) == [4, 16, 64, 256]
  {
    AuthRefresherIsWellBehaved(fetches);
    AuthFailuresExhaust(calls, AuthRefresher(fetches), 0, token, next);
    BackoffOfFiveAttempts();
    assert CallWithRetry(calls, fetches, token, next) == Attempts(calls, AuthRefresher(fetches), 0, token, next);
  }

  /** The waits of five failed attempts: 4, 16, 64 and 256 seconds. */
  lemma BackoffOfFiveAttempts()
    ensures BackoffSleeps(0, Auth.MaxErrorRetry) == [4, 16, 64, 256]
  {
    assert Pow4(1) == 4 && Pow4(2) == 16 && Pow4(3) == 64 && Pow4(4) == 256;
    assert BackoffSleeps(4, 5) == [256];
    assert BackoffSleeps(3, 5) == [64, 256];
    assert BackoffSleeps(2, 5) == [16, 64, 256];
    assert BackoffSleeps(1, 5) == [4, 16, 64, 256];
  }

  /** Two 401 answers, then a value, with both refreshes returning a token:
      the value is returned after three calls and two refreshes, with no wait
      before the first refresh and a 4-second wait before the second. */
  lemma TwoAuthFailuresThenSuccess(fetches: Auth.FetchScript, token: Token, next: nat)
    requires RefreshesSucceed(AuthRefresher(fetches), next, 2)
    ensures var r := CallWithRetry((j: nat) => if j < 2 then Raise(HttpError(401)) else Ok(7), fetches, token, next);
            && r.result == Ok(7)
            && CallCount(r.trace) == 3
            && RefreshCount(r.trace) == 2
            && Sleeps(r.trace) == [4]
  {
    AuthRefresherIsWellBehaved(fetches);
    AuthFailuresThenAnswer((j: nat) => if j < 2 then Raise(HttpError(401)) else Ok(7), AuthRefresher(fetches), 0, 2, token, next);
  }

  /** A 401, then a value; the refresh between them first misses its OTP and
      then fetches a token. The inner loop's retry stays inside the refresh:
      the value is returned after two calls, one refresh and no wait, having
      used two fetches. */
  lemma OtpMissedDuringRetry(token: Token)
    ensures var fetches := (n: nat) => if n == 0 then Raise(OtpError) else Ok("renewed");
            var r := CallWithRetry((j: nat) => if j == 0 then Raise(HttpError(401)) else Ok(7), fetches, token, 0);
            && r.result == Ok(7)
            && CallCount(r.trace) == 2
            && RefreshCount(r.trace) == 1
            && Sleeps(r.trace) == []
            && r.next == 2
  {
    var fetches := (n: nat) => if n == 0 then Raise(OtpError) else Ok("renewed");
    var calls := (j: nat) => if j == 0 then Raise(HttpError(401)) else Ok(7);
    Auth.RefreshAnswersFirstNonOtpError(fetches, 0, 1);
    assert RefreshesSucceed(AuthRefresher(fetches), 0, 1);
    AuthRefresherIsWellBehaved(fetches);
    AuthFailuresThenAnswer(calls, AuthRefresher(fetches), 0, 1, token, 0);
    var rest := Attempts(calls, AuthRefresher(fetches), 1, "renewed", 2);
    assert rest == RetryRun([Call("renewed")], Ok(7), "renewed", 2);
  }

  /** A refresh that raises ends the wrapper: its exception propagates and the
      operation is not called again. */
  lemma RefreshFailurePropagates<T>(calls: nat -> Attempt<T>, fetches: Auth.FetchScript, token: Token, next: nat)
    requires IsAuthFailure(calls(0))
    requires Auth.RefreshToken(fetches, next).result.Raise?
    ensures var r := CallWithRetry(calls, fetches, token, next);
            && r.result == Raise(Auth.RefreshToken(fetches, next).result.error)
            && CallCount(r.trace) == 1
            && RefreshCount(r.trace) == 1
  {
    AuthRefresherIsWellBehaved(fetches);
    RefreshFailureStep(calls, AuthRefresher(fetches), 0, token, next);
  }
}
