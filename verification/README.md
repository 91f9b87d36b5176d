# CoWIN slot booker — a Dafny model of its decision core

The program watches the CoWIN appointment API for vaccination sessions at one
pincode. It keeps the sessions that satisfy the user's requirements and ranks
them by how closely the center's name matches the user's preferred centers. It
stops at the first poll that yields a candidate. Its calls to the API carry a
bearer token. The token is obtained through an OTP: a small web endpoint
receives the forwarded SMS and puts its six-digit code on a queue.

This project models the engine's decisions as pure Dafny functions and proves
what they guarantee:

- `Sessions`: the eligibility filter, the center-name affinity and the score
  derived from it, and the stable ranking of eligible sessions.
- `StableSort`: a stable descending insertion sort. Python's `sorted(...,
  reverse=True)` keeps ties in input order, and the proofs show this sort is
  the only order with that property.
- `Booking`: the decision after one poll, and the poll loop with its
  10-second waits.
- `Auth`: reuse of a saved token younger than an hour, and the refresh loop
  of at most five fetches that swallows only `OtpError`.
- `Retry`: the wrapper around every authenticated call. It makes at most five
  calls, refreshes the token after each 401/403, and waits 4^i seconds before
  every refresh except the first. It lets any other failure through.
- `Calendar`: Gregorian dates in Python's range (years 1 to 9999), the
  `DD-MM-YYYY` format with its parser, and the choice of the booking date.
- `Startup`: the wait until 05:30 when the engine starts after 20:59.
- `OtpServer`: the OTP endpoint and its leftmost `\d{6}` search.
- `Outcomes` and `Text`: the shared vocabulary. This covers optional values,
  the exceptions the engine tells apart, traces of events, and decimal digits.

Remote services are scripts. The n-th call of an operation answers `calls(n)`
and the n-th token fetch answers `fetches(n)`. Each answer is a value or a
raised exception (`Attempt`). A run also yields a trace of events: calls, with
the token each carries, waits, refreshes and fetches. The properties are
stated over those traces: how many calls and refreshes happen, which waits
occur, and that every call carries the token held at that moment.

The wrapper sees a token refresh only through its run: the fetches it made,
its result and the next unused fetch answer. Its lemmas therefore hold for
any refresh that makes no call, refresh or wait of its own and installs only
the token it returns. `Auth.RefreshToken` is such a refresh, whatever number
of `OtpError`s it swallows before it returns.

## Model

| member | source | states |
|---|---|---|
| Sessions.IsEligible | main.py:192-203 | a session is eligible exactly when it has total capacity, matches the fee type and vaccine (or the requirement is "ANY"), admits the user's age, and has capacity for the requested dose |
| Sessions.NoCapacityNeverEligible | main.py:193-194 | a session without total capacity is rejected whatever the requirements |
| Sessions.PaidNeverMatchesFree | main.py:195-196 | a user asking for free sessions is never offered a paid one |
| Sessions.BestRatio | main.py:108-112 | the result is the ratio of one of the fragments and bounds the ratio of every fragment |
| Sessions.CenterNameScore | main.py:103-112 | the affinity lies in [0, 1]; it is 0 without preferred centers, otherwise the largest ratio attained by a preferred fragment |
| Sessions.SessionScore | main.py:206-212 | a score is 0 or lies in (2, 10], and it is positive exactly when the affinity exceeds 0.2 |
| Sessions.ScoreFollowsAffinity | main.py:206-212 | the score is monotone in the affinity |
| Sessions.NoPreferenceScoresZero | main.py:108-112 | without preferred centers every session scores 0 |
| Sessions.PerfectMatchScoresTen | main.py:206-209 | a fragment that matches the name perfectly gives the top score 10 |
| Sessions.SortSessions | main.py:222-225 | the ranking holds only eligible sessions, each eligible input as often as it occurs, from the highest score to the lowest, and every score's sessions in input order |
| Sessions.SortSessionsIsTheStableRanking | main.py:222-225 | a sequence is the result of the ranking if and only if it is sorted by descending score and agrees with the eligible inputs on every score class |
| StableSort.Insert | main.py:223-224 | insertion adds exactly the one element, and the result starts with it or with the old head |
| StableSort.InsertSorted | main.py:223-224 | insertion keeps a descending sequence descending |
| StableSort.SortDesc | main.py:223-224 | the sort is a permutation of its input and descending by key |
| StableSort.SortDescIsStable | main.py:223-224 | the sort keeps the input order of the elements of every key |
| StableSort.SortedWithSameClassesAreEqual | main.py:223-224 | two descending sequences whose key classes agree are equal, so a stable descending order is unique |
| StableSort.InsertKeyClass | main.py:223-224 | an inserted element goes ahead of every element that has its key |
| StableSort.KeyClassPassOver | main.py:223-224 | an element that passes over a higher key keeps its place ahead of its key class |
| StableSort.SameClassesSameTopKey | main.py:223-224 | when key classes agree, the other descending side is not empty and its head's key is at least as high |
| StableSort.SameTopKeySameHead | main.py:223-224 | heads with the same key and agreeing key class are the same element |
| StableSort.SameClassesSameTail | main.py:223-224 | removing a common head keeps every key class in agreement |
| StableSort.KeyClassMembers | main.py:223-224 | a key class holds exactly the elements of the sequence with that key |
| StableSort.Filter | main.py:223 | the filter keeps every accepted element as often as it occurs and nothing else |
| StableSort.SortedHeadIsMax | main.py:252-253 | the head of a descending sequence has the highest key |
| StableSort.FilteredClassStep | main.py:223 | the key class of a filtered sequence takes the head exactly when it is accepted and has the key |
| StableSort.FirstOfFilteredClass | main.py:223-224 | the first element of a key class after filtering is the first accepted input element with that key |
| Booking.Decide | main.py:249-262 | an empty poll and a poll with nothing eligible are told apart; a candidate is an eligible session of the poll, has the highest score, and is the first with that score in the poll's order |
| Booking.NoneRankedNoneEligible | main.py:252 | an empty ranking means that no session of the poll is eligible |
| Booking.TopRankedIsFirstBest | main.py:252-253 | the top-ranked session is eligible, scores highest and comes first among the eligible sessions with that score |
| Booking.QuietPollsExtend | main.py:248-265 | a poll without a candidate followed by quiet polls makes one more quiet poll |
| Booking.PollLoop | main.py:248-265 | the loop stops at the first poll that yields a candidate or raises, with that candidate or exception; every earlier poll returned sessions without a candidate; it waits 10 seconds after each of those polls and at no other time; each poll is one answer, and the wrapper's calls, refreshes and waits inside it are not in this trace |
| Booking.PollLoopFollowsDecide | main.py:248-265 | the loop, deciding each poll as `booking_loop` does, ends with a session exactly when its last poll decided on that session; every earlier poll returned sessions that decided on none |
| Auth.RefreshLoop | main.py:54-66 | the refresh makes one fetch per attempt; it stops at the first answer that is not `OtpError`; it raises `OtpError` only after its remaining attempts all failed so |
| Auth.RefreshToken | main.py:54-66 | at most five fetches; the result is `OtpError` if and only if all five fetches failed with it, otherwise the first other answer, returned or raised |
| Auth.RefreshAnswersFirstNonOtpError | main.py:58-63 | after k `OtpError`s, the (k+1)-th fetch's answer ends the refresh |
| Auth.RefreshObservations | main.py:54-66 | a refresh makes no API call, refresh or wait of its own, and the token held changes exactly when it returns a fetched token, to that token |
| Auth.RefreshLoopObservations | main.py:57-66 | the same holds from any attempt of the refresh loop on, since only fetches happen and only a successful one installs a token |
| Auth.Acquire | main.py:43-52 | a saved token younger than an hour is reused with no fetch at all; an older or missing one leads to a refresh |
| Retry.AuthRefresherIsWellBehaved | main.py:54-66 | the refresh the wrapper calls makes no call, refresh or wait of its own and replaces the token only with one it returns |
| Retry.FailedAttemptCounts | main.py:121-128 | a failed attempt holds one call, one refresh, and a wait of 4^i seconds only when i > 0 |
| Retry.FailedAttemptTokens | main.py:121-128 | the call of a failed attempt carries the token held, and the attempt leaves the fetched token exactly when its refresh succeeds |
| Retry.Attempts | main.py:119-132 | for any refresh behaving like `refresh_token`, the loop makes at most 5 - i calls and no more refreshes than calls; a returned value is the answer of the last call |
| Retry.AttemptsUseCurrentToken | main.py:119-132 | every call of the loop carries the token held at that moment, and the token the run reports is the one its events leave held |
| Retry.RenewedTokenCarriesOn | main.py:121-130 | after a 401/403 and a refresh that fetched a token, the later calls carry the fetched token |
| Retry.CallWithRetry | main.py:115-133 | at most five calls, each with the current token; an answer other than 401/403 on the first call is returned or raised at once with no refresh |
| Retry.AuthFailureStep | main.py:121-130 | a 401/403 followed by a refresh that returns a token, after any number of missed OTPs, adds one call, one refresh and the backoff wait of that attempt to the rest of the run, which starts from that token and gives the result |
| Retry.RefreshFailureStep | main.py:121-128 | a 401/403 followed by a refresh that raises ends the run with that exception after one call, one refresh and the attempt's backoff wait |
| Retry.EveryOtpArrives | main.py:54-66 | when every OTP arrives at the first fetch, every refresh returns a token |
| Retry.FailedThroughExtend | main.py:119-130 | a failed attempt ahead of a run of failures makes one more failure, with its wait in front |
| Retry.AuthFailuresThenAnswer | main.py:119-128 | after a run of 401/403 answers whose refreshes all return tokens, however many missed OTPs each swallowed, the first other answer ends the wrapper with that answer; there is one call per attempt, one refresh per failure and the 4^j waits for j > 0 |
| Retry.AuthFailuresExhaust | main.py:119-132 | when every remaining attempt fails with 401/403 and every refresh returns a token, the wrapper raises "Failed to call api" after one call and one refresh per attempt, with the 4^j waits for j > 0 |
| Retry.AuthFailuresThenRefreshFails | main.py:119-130 | when attempts i .. k fail with 401/403 and only the refresh after attempt k raises, that exception ends the wrapper after k - i + 1 calls and as many refreshes, with the 4^j waits for j > 0 |
| Retry.BackoffOfFiveAttempts | main.py:123-125 | the waits after five failed attempts are 4, 16, 64 and 256 seconds |
| Retry.FiveAuthFailures | main.py:119-132 | five failures whose refreshes return tokens make five calls and five refreshes, wait 4, 16, 64 and 256 seconds, then raise "Failed to call api" |
| Retry.TwoAuthFailuresThenSuccess | main.py:119-128 | two 401 answers then a value, with both refreshes returning tokens: three calls, two refreshes and one 4-second wait |
| Retry.OtpMissedDuringRetry | main.py:119-128 | a 401 whose refresh (main.py:58-63) misses one OTP and then gets a token: the value comes after two calls, one refresh, no wait and two fetches |
| Retry.RefreshFailurePropagates | main.py:54-66 | a refresh that raises ends the wrapper with that exception after a single call |
| Calendar.NextDay | main.py:232 | the next day has the next ordinal, and only 9999-12-31 has none (Python's `OverflowError`) |
| Calendar.OrdinalIsInjective | main.py:232 | distinct dates have distinct day numbers, so the next day is unique |
| Calendar.DaysBeforeYearGrows | main.py:232 | every day of a year comes before the first day of any later year |
| Calendar.Format | main.py:229-234 | the text is ten characters: two-digit day, dash, two-digit month, dash, four digits |
| Calendar.ParseFormat | main.py:229-234 | reading a formatted date gives the date back |
| Calendar.FormatParse | main.py:229-234 | a text that reads as a date is that date's formatted text |
| Calendar.BookingDate | main.py:228-238 | "tomorrow", or no date after 08:59, gives the day after today (an overflow on 9999-12-31); no date until 08:59 gives today; a configured date is formatted as is; any other setting raises |
| Calendar.Tomorrow | main.py:231-232 | tomorrow's text names the day whose ordinal is one more than today's, and it fails only on the last date |
| Calendar.Pad2Value | main.py:229 | the two-digit text reads back as the number |
| Calendar.Pad4Value | main.py:229 | the four-digit text reads back as the number |
| Calendar.Pad2OfDigits | main.py:229 | two digits read and padded again are unchanged |
| Calendar.Pad4OfDigits | main.py:229 | four digits read and padded again are unchanged |
| Calendar.DigitsValueLocal | main.py:229 | a run of digits reads the same wherever it sits in a text |
| Startup.LocalHour | main.py:270 | the local hour is in 0 .. 23 |
| Startup.WakeInstant | main.py:269-275 | the engine waits exactly when it is not in debug mode and the hour is past 20; it then wakes at 05:30, after now, within a day, between 5h30 and 8h30 later |
| Startup.WakeIsEarliest | main.py:271-273 | no 05:30 between now and the wake instant is skipped |
| OtpServer.FindOtpFrom | server.py:33-34 | the match starts six digits and no earlier position from the start point does; no match means no six digits anywhere after it |
| OtpServer.FindOtp | server.py:33-34 | the search finds the leftmost run of six digits, and finds none only when there is none |
| OtpServer.LeftmostIsUnique | server.py:33-34 | any position where six digits start, with none earlier, is the search's answer |
| OtpServer.ScanOtp | server.py:33-35 | a single scan that counts consecutive digits finds the same match as the search |
| OtpServer.HandleOtp | server.py:19-40 | non-JSON is refused with 400; a wrong or missing key gets 403 before the message is searched; with the right key, a message that is not a string gets 500, and a missing message or a string without six digits in a row gets 400; 200 comes exactly when the message is a string holding six digits, and then the leftmost six are queued; a queued OTP is six digits; nothing is queued otherwise |
| OtpServer.SevenDigitsYieldFirstSix | server.py:33-38 | from "OTP 1234567" the code "123456" is queued |
| OtpServer.NoOtpIsRefused | server.py:33-40 | with the right key, any message without six digits in a row is refused with 400 and nothing is queued |
| OtpServer.ShortCodeIsRefused | server.py:33-40 | five digits are refused with 400 |
| OtpServer.MissingMessageIsRefused | server.py:29-40 | a request without a message searches the empty text and is refused with 400 |

## Left out

- HTTP transport, JSON decoding and the CoWIN endpoints are left out. Every remote call is a script of answers (`calls`, `fetches`).
- `generate_otp`, `validate_otp`, the SHA-256 hash of the OTP and `get_otp`'s 180-second queue wait are left out. One `_fetch_token` is one scripted answer: a token, `OtpError`, or another exception.
- Writing the token file is left out. Reading it and its access-time age are reduced to an optional saved token with its age in seconds.
- `difflib.SequenceMatcher.ratio` is left out. It is a parameter `Ratio`: any function of a fragment and a name with values in [0, 1].
- Python floats are modelled as exact reals, so the scores carry no rounding.
- `\d` is modelled as the ASCII digits. Python's `re` on `str` also matches other Unicode decimal digits.
- `%Y` is modelled as four zero-padded digits. For years below 1000 the width is platform dependent.
- Local time is modelled as uniform 86400-second days counted from a local midnight. There is no DST or time-zone change.
- `main` reads the clock four times (the hour, `datetime.now()` twice, `time.time()`). The model takes one reading.
- Threads, the OTP queue, `time.sleep`, Flask and gevent set-up, logging and configuration loading are left out. Sleeps appear as events in traces; the configured auth key and requirements are parameters.
- The outer composition of `booking_loop` is left out: build the API, choose the date, fetch the beneficiaries, then poll. Its parts are modelled separately (`Acquire`, `CallWithRetry`, `BookingDate`, `PollLoop`).
- `book_session` and its payload are left out. The booking call is commented out in the loop, which stops at the first candidate.
- `dose_seq` is modelled as 1 or 2 only. Another configured value makes the dose lookup in `filter_session` raise `KeyError`; that configuration error path is left out.
- `CowinApi` without auth (the public sessions URL) is left out. The engine always constructs it with auth.
- `telegram.py` is not part of this model.
- OtpServer.HandleOtp: a request body that is JSON but not an object makes `json.get` raise. The model's body is always an object or not JSON.
- OtpServer.HandleOtp: a key compared against a non-string value is reduced to "not the key" (403). The configured key is a string.
- Calendar.BookingDate: a configured value other than "tomorrow" or a date raises `BadDateSetting`. This stands for the failing `isinstance` assertion. A false-like value counts as "not configured", as `get_booking_date` does (main.py:230).
