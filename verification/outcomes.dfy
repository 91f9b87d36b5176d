/** Shared vocabulary of the booking engine: optional values, the exceptions the
    engine raises or lets through, and the observable events of its retry loops,
    together with the few observations the proofs make of a trace of events. */
module Outcomes {

  datatype Option<+T> = None | Some(value: T)

  /** The exception classes the engine distinguishes. */
  datatype Failure =
    | HttpError(status: int)   // requests' HTTPError, carrying the response status
    | OtpError                 // no OTP arrived within the wait window
    | ApiRetriesExhausted      // the wrapper's "Failed to call api"
    | DateOverflow             // date arithmetic past 9999-12-31
    | BadDateSetting           // configured booking date is neither "tomorrow" nor a date
    | Unexpected(kind: string) // any other exception a remote call raises

  /** What one step returns: a value, or the exception it raises. */
  datatype Attempt<+T> = Ok(value: T) | Raise(error: Failure)

  /** A bearer token of the remote API. */
  type Token = string

  /** Observable events of the token and retry loops. */
  datatype Event =
    | Call(token: Token)           // one call of a wrapped remote operation, with the token it carries
    | Sleep(seconds: nat)          // a blocking wait
    | Refresh                      // the wrapper starts a token refresh
    | Fetch(answer: Attempt<Token>) // one attempt to fetch a new token, and its answer

  /** The token held after `e`, when `token` was held before it: only a
      successful fetch replaces the token. */
  function HeldAfter(e: Event, token: Token): Token {
    if e.Fetch? && e.answer.Ok? then e.answer.value else token
  }

  /** The token held after all of `trace`, starting from `token`. */
  function TokenAfter(trace: seq<Event>, token: Token): Token
    decreases |trace|
  {
    if |trace| == 0 then token else TokenAfter(trace[1..], HeldAfter(trace[0], token))
  }

  /** Every call in `trace` carries the token held at the moment it is made. */
  predicate CallsUseCurrentToken(trace: seq<Event>, token: Token)
    decreases |trace|
  {
    |trace| == 0 ||
    ((trace[0].Call? ==> trace[0].token == token) &&
     CallsUseCurrentToken(trace[1..], HeldAfter(trace[0], token)))
  }

  function CallCount(trace: seq<Event>): nat
    decreases |trace|
  {
    if |trace| == 0 then 0 else (if trace[0].Call? then 1 else 0) + CallCount(trace[1..])
  }

  function RefreshCount(trace: seq<Event>): nat
    decreases |trace|
  {
    if |trace| == 0 then 0 else (if trace[0].Refresh? then 1 else 0) + RefreshCount(trace[1..])
  }

  /** The durations of the waits in `trace`, in order. */
  function Sleeps(trace: seq<Event>): seq<nat>
    decreases |trace|
  {
    if |trace| == 0 then [] else (if trace[0].Sleep? then [trace[0].seconds] else []) + Sleeps(trace[1..])
  }

  /** Every count of a trace splits over concatenation. */
  lemma CountsSplit(a: seq<Event>, b: seq<Event>)
    ensures CallCount(a + b) == CallCount(a) + CallCount(b)
    ensures RefreshCount(a + b) == RefreshCount(a) + RefreshCount(b)
    ensures Sleeps(a + b) == Sleeps(a) + Sleeps(b)
  {
    CallCountSplit(a, b);
    RefreshCountSplit(a, b);
    SleepsSplit(a, b);
  }

  lemma {:induction false} CallCountSplit(a: seq<Event>, b: seq<Event>)
    ensures CallCount(a + b) == CallCount(a) + CallCount(b)
    decreases |a|
  {
    if |a| == 0 {
      assert a + b == b;
    } else {
      assert (a + b)[0] == a[0] && (a + b)[1..] == a[1..] + b;
      CallCountSplit(a[1..], b);
    }
  }

  lemma {:induction false} RefreshCountSplit(a: seq<Event>, b: seq<Event>)
    ensures RefreshCount(a + b) == RefreshCount(a) + RefreshCount(b)
    decreases |a|
  {
    if |a| == 0 {
      assert a + b == b;
    } else {
      assert (a + b)[0] == a[0] && (a + b)[1..] == a[1..] + b;
      RefreshCountSplit(a[1..], b);
    }
  }

  lemma {:induction false} SleepsSplit(a: seq<Event>, b: seq<Event>)
    ensures Sleeps(a + b) == Sleeps(a) + Sleeps(b)
    decreases |a|
  {
    if |a| == 0 {
      assert a + b == b;
    } else {
      assert (a + b)[0] == a[0] && (a + b)[1..] == a[1..] + b;
      SleepsSplit(a[1..], b);
      var h := if a[0].Sleep? then [a[0].seconds] else [];
      assert Sleeps(a) == h + Sleeps(a[1..]);
      assert h + (Sleeps(a[1..]) + Sleeps(b)) == (h + Sleeps(a[1..])) + Sleeps(b);
    }
  }

  /** The token held, and whether calls carry it, compose over concatenation. */
  lemma {:induction false} TokenSplit(a: seq<Event>, b: seq<Event>, token: Token)
    ensures TokenAfter(a + b, token) == TokenAfter(b, TokenAfter(a, token))
    ensures CallsUseCurrentToken(a + b, token) <==>
              CallsUseCurrentToken(a, token) && CallsUseCurrentToken(b, TokenAfter(a, token))
    decreases |a|
  {
    if |a| == 0 {
      assert a + b == b;
    } else {
      assert (a + b)[1..] == a[1..] + b;
      TokenSplit(a[1..], b, HeldAfter(a[0], token));
    }
  }

  /** Two traces run one after the other, each of whose calls carry the
      token held, make one such trace. */
  lemma ComposeTokens(a: seq<Event>, b: seq<Event>, token: Token, mid: Token, final: Token)
    requires CallsUseCurrentToken(a, token) && TokenAfter(a, token) == mid
    requires CallsUseCurrentToken(b, mid) && TokenAfter(b, mid) == final
    ensures CallsUseCurrentToken(a + b, token) && TokenAfter(a + b, token) == final
  {
    TokenSplit(a, b, token);
  }
}
