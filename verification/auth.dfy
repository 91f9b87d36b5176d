/** Token acquisition of `CowinAuth`: reuse of a saved token that is still
    fresh, and the bounded refresh loop over `_fetch_token`.

    One `_fetch_token` (generate an OTP, wait for it, validate it) is a single
    step whose answer comes from a script: the n-th fetch of the run answers
    `fetches(n)` -- a new token, `OtpError` when the OTP did not arrive, or any
    other exception. */
module Auth {
  import opened Outcomes

  /** Attempts of the refresh loop, and calls of a wrapped operation. */
  const MaxErrorRetry: nat := 5

  /** A saved token whose file is younger than this many seconds is reused. */
  const TokenMaxAge: real := 3600.0

  /** The answer of the n-th token fetch of a run. */
  type FetchScript = nat -> Attempt<Token>

  /** A run of the token logic: its fetch events, what it returns or raises,
      and the index of the next unused fetch answer. */
  datatype AuthRun = AuthRun(trace: seq<Event>, result: Attempt<Token>, next: nat)

  /** The fetch answers with indices in [from, upto) are all `OtpError`. */
  predicate AllOtpErrors(fetches: FetchScript, from: nat, upto: int) {
    forall n: nat :: from <= n < upto ==> fetches(n) == Raise(OtpError)
  }

  /** `refresh_token` from attempt `tries` on: fetch, return the first token,
      swallow `OtpError` and try again, let every other exception through. */
  function RefreshLoop(fetches: FetchScript, next: nat, tries: nat): (r: AuthRun)
    requires tries <= MaxErrorRetry
    ensures r.next == next + |r.trace|
    ensures tries < MaxErrorRetry ==> 0 < |r.trace| <= MaxErrorRetry - tries
    ensures AllOtpErrors(fetches, next, r.next - 1)
    ensures r.result == Raise(OtpError) ==>
              |r.trace| == MaxErrorRetry - tries && AllOtpErrors(fetches, next, r.next)
    ensures r.result != Raise(OtpError) ==> 0 < |r.trace| && r.result == fetches(r.next - 1)
    decreases MaxErrorRetry - tries
  {
    if tries == MaxErrorRetry then
      AuthRun([], Raise(OtpError), next)
    else
      var answer := fetches(next);
      if answer == Raise(OtpError) then
        var rest := RefreshLoop(fetches, next + 1, tries + 1);
        AuthRun([Fetch(answer)] + rest.trace, rest.result, rest.next)
      else
        AuthRun([Fetch(answer)], answer, next + 1)
  }

  /** `refresh_token`: at most `MaxErrorRetry` fetches; the first answer that
      is not `OtpError` is returned (a token) or raised (another exception);
      `OtpError` is raised only when every attempt ended in `OtpError`. */
  function RefreshToken(fetches: FetchScript, next: nat): (r: AuthRun)
    ensures 0 < |r.trace| <= MaxErrorRetry && r.next == next + |r.trace|
    ensures r.result == Raise(OtpError) <==> AllOtpErrors(fetches, next, next + MaxErrorRetry)
    ensures r.result != Raise(OtpError) ==>
              AllOtpErrors(fetches, next, r.next - 1) && r.result == fetches(r.next - 1)
  {
    RefreshLoop(fetches, next, 0)
  }

  /** When the first `k` fetches raise `OtpError` and fetch `k` (k < 5) answers
      anything else, the refresh returns or raises exactly that answer after
      `k + 1` fetches. */
  lemma RefreshAnswersFirstNonOtpError(fetches: FetchScript, next: nat, k: nat)
    requires k < MaxErrorRetry
    requires AllOtpErrors(fetches, next, next + k)
    requires fetches(next + k) != Raise(OtpError)
    ensures RefreshToken(fetches, next).result == fetches(next + k)
    ensures |RefreshToken(fetches, next).trace| == k + 1
  {
  }

  /** What a run of the refresh shows from outside: no API call, no refresh
      and no wait of its own, and the token held is replaced exactly when
      the run returns a new one. */
  predicate Unobtrusive(run: AuthRun, token: Token) {
    && CallCount(run.trace) == 0 && RefreshCount(run.trace) == 0 && Sleeps(run.trace) == []
    && CallsUseCurrentToken(run.trace, token)
    && TokenAfter(run.trace, token) == (if run.result.Ok? then run.result.value else token)
  }

  /** A refresh makes no API call, no refresh and no wait of its own, and it
      replaces the token held exactly when it returns a new one. */
  lemma RefreshObservations(fetches: FetchScript, next: nat, token: Token)
    ensures Unobtrusive(RefreshToken(fetches, next), token)
  {
    RefreshLoopObservations(fetches, next, 0, token);
  }

  lemma {:induction false} RefreshLoopObservations(fetches: FetchScript, next: nat, tries: nat, token: Token)
    requires tries <= MaxErrorRetry
    ensures Unobtrusive(RefreshLoop(fetches, next, tries), token)
    decreases MaxErrorRetry - tries
  {
    if tries < MaxErrorRetry {
      var answer := fetches(next);
      OneFetchObserved(answer, token);
      if answer == Raise(OtpError) {
        var rest := RefreshLoop(fetches, next + 1, tries + 1);
        RefreshLoopObservations(fetches, next + 1, tries + 1, token);
        assert RefreshLoop(fetches, next, tries) == AuthRun([Fetch(answer)] + rest.trace, rest.result, rest.next);
        UnobtrusiveAfterOtpError(RefreshLoop(fetches, next, tries), rest, token);
      } else {
        assert RefreshLoop(fetches, next, tries) == AuthRun([Fetch(answer)], answer, next + 1);
      }
    }
  }

  /** A fetch that raised `OtpError` ahead of an unobtrusive run keeps it so. */
  lemma UnobtrusiveAfterOtpError(r: AuthRun, rest: AuthRun, token: Token)
    requires r.trace == [Fetch(Raise(OtpError))] + rest.trace && r.result == rest.result
    requires Unobtrusive(rest, token)
    ensures Unobtrusive(r, token)
  {
    var head := [Fetch(Raise(OtpError))];
    OneFetchObserved(Raise(OtpError), token);
    CountsSplit(head, rest.trace);
    ComposeTokens(head, rest.trace, token, token, TokenAfter(rest.trace, token));
  }

  /** A single fetch holds no call, refresh or wait, and installs its token
      when it succeeds. */
  lemma OneFetchObserved(answer: Attempt<Token>, token: Token)
    ensures CallCount([Fetch(answer)]) == 0 && RefreshCount([Fetch(answer)]) == 0 && Sleeps([Fetch(answer)]) == []
    ensures CallsUseCurrentToken([Fetch(answer)], token)
    ensures TokenAfter([Fetch(answer)], token) == (if answer.Ok? then answer.value else token)
  {
    var head := [Fetch(answer)];
    assert head[1..] == [];
  }

  /** A token saved on disk, and the age of its file in seconds. */
  datatype SavedToken = SavedToken(contents: Token, ageSeconds: real)

  predicate IsFresh(saved: Option<SavedToken>) {
    saved.Some? && saved.value.ageSeconds < TokenMaxAge
  }

  /** `CowinAuth.__init__`: a fresh saved token is reused without any fetch;
      otherwise the token comes from a refresh. */
  function Acquire(saved: Option<SavedToken>, fetches: FetchScript, next: nat): (r: AuthRun)
    ensures IsFresh(saved) <==> r.trace == []
    ensures IsFresh(saved) ==> r.result == Ok(saved.value.contents) && r.next == next
    ensures !IsFresh(saved) ==> r == RefreshToken(fetches, next)
  {
    if IsFresh(saved) then AuthRun([], Ok(saved.value.contents), next)
    else RefreshToken(fetches, next)
  }
}
