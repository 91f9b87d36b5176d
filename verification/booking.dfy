/** The per-poll decision of `booking_loop` and the loop over successive
    polls. Each poll's answer is what the wrapped `get_sessions_by_pincode`
    returned or raised; the loop stops at the first poll that yields a
    candidate. */
module Booking {
  import opened Outcomes
  import opened StableSort
  import opened Sessions

  /** Seconds the loop waits after a poll without a candidate. */
  const PollInterval: nat := 10

  datatype Decision =
    | NoSessions                  // the poll returned an empty session list
    | NothingEligible             // sessions, but none passes the filter
    | Candidate(session: Session) // the top-ranked session is chosen

  /** One iteration of `booking_loop` after a poll that returned `sessions`:
      the candidate is an eligible session with the highest score, and the
      first such one in input order. */
  function Decide(sessions: seq<Session>, reqs: Requirements, ratio: Ratio): (d: Decision)
    ensures d.NoSessions? <==> |sessions| == 0
    ensures d.NothingEligible? <==> |sessions| > 0 && forall s :: s in sessions ==> !IsEligible(reqs, s)
    ensures d.Candidate? ==> IsEligible(reqs, d.session) && d.session in sessions
    ensures d.Candidate? ==>
              forall s :: s in sessions && IsEligible(reqs, s) ==>
                SessionScore(reqs, s, ratio) <= SessionScore(reqs, d.session, ratio)
    ensures d.Candidate? ==>
              exists k :: 0 <= k < |sessions| && sessions[k] == d.session &&
                forall j :: 0 <= j < k && IsEligible(reqs, sessions[j]) ==>
                  SessionScore(reqs, sessions[j], ratio) < SessionScore(reqs, d.session, ratio)
  {
    if |sessions| == 0 then
      NoSessions
    else
      var ranked := SortSessions(sessions, reqs, ratio);
      if |ranked| == 0 then
        NoneRankedNoneEligible(sessions, reqs, ratio);
        NothingEligible
      else
        TopRankedIsFirstBest(sessions, reqs, ratio);
        Candidate(ranked[0])
  }

  lemma NoneRankedNoneEligible(sessions: seq<Session>, reqs: Requirements, ratio: Ratio)
    requires |SortSessions(sessions, reqs, ratio)| == 0
    ensures forall s :: s in sessions ==> !IsEligible(reqs, s)
  {
    var ranked := SortSessions(sessions, reqs, ratio);
    forall s | s in sessions ensures !IsEligible(reqs, s) {
      assert multiset(ranked)[s] == 0;
    }
  }

  /** The head of the ranking is an eligible input session with the highest
      score, and no eligible session before it in the input has that score. */
  lemma TopRankedIsFirstBest(sessions: seq<Session>, reqs: Requirements, ratio: Ratio)
    requires |SortSessions(sessions, reqs, ratio)| > 0
    ensures var top := SortSessions(sessions, reqs, ratio)[0];
            && IsEligible(reqs, top) && top in sessions
            && (forall s :: s in sessions && IsEligible(reqs, s) ==>
                  SessionScore(reqs, s, ratio) <= SessionScore(reqs, top, ratio))
            && exists k :: 0 <= k < |sessions| && sessions[k] == top &&
                 forall j :: 0 <= j < k && IsEligible(reqs, sessions[j]) ==>
                   SessionScore(reqs, sessions[j], ratio) < SessionScore(reqs, top, ratio)
  {
    var ranked := SortSessions(sessions, reqs, ratio);
    var top := ranked[0];
    var key := ScoreOf(reqs, ratio);
    var keep := (s: Session) => IsEligible(reqs, s);
    var v := key(top);
    assert top in multiset(ranked);
    assert multiset(sessions)[top] > 0;
    forall s | s in sessions && IsEligible(reqs, s)
      ensures SessionScore(reqs, s, ratio) <= SessionScore(reqs, top, ratio)
    {
      assert multiset(ranked)[s] > 0;
      SortedHeadIsMax(ranked, key, s);
    }
    assert KeyClass(ranked, key, v)[0] == top;
    var k := FirstOfFilteredClass(sessions, keep, key, v);
    forall j | 0 <= j < k && IsEligible(reqs, sessions[j])
      ensures SessionScore(reqs, sessions[j], ratio) < SessionScore(reqs, top, ratio)
    {
      assert sessions[j] in sessions;
      assert !(keep(sessions[j]) && key(sessions[j]) == v);
    }
  }

  /** How the loop ended: a candidate was found, a poll raised, or the polls
      given ran out with the loop still running. */
  datatype LoopEnd = Found(candidate: Session) | Crashed(error: Failure) | StillPolling

  datatype LoopRun = LoopRun(end: LoopEnd, polls: nat, trace: seq<Event>)

  /** The choice a poll's sessions lead to, if any. */
  type Picker = seq<Session> -> Option<Session>

  /** Polls 0 .. n-1 all returned sessions and none gave a candidate. */
  ghost predicate QuietPolls(polls: seq<Attempt<seq<Session>>>, n: nat, pick: Picker)
    requires n <= |polls|
  {
    forall j :: 0 <= j < n ==> polls[j].Ok? && pick(polls[j].value).None?
  }

  lemma QuietPollsExtend(polls: seq<Attempt<seq<Session>>>, n: nat, pick: Picker)
    requires 0 < |polls| && n < |polls|
    requires polls[0].Ok? && pick(polls[0].value).None?
    requires QuietPolls(polls[1..], n, pick)
    ensures QuietPolls(polls, n + 1, pick)
  {
    forall j | 0 < j < n + 1 ensures polls[j].Ok? && pick(polls[j].value).None? {
      assert polls[j] == polls[1..][j - 1];
    }
  }

  /** The loop of `booking_loop` over the answers of successive polls: it
      stops at the first poll whose sessions give a candidate, lets a raised
      exception through, and waits `PollInterval` seconds after every other
      poll. */
  function PollLoop(polls: seq<Attempt<seq<Session>>>, pick: Picker): (r: LoopRun)
    ensures r.polls <= |polls|
    ensures r.end.StillPolling? ==> r.polls == |polls| && QuietPolls(polls, r.polls, pick)
    ensures !r.end.StillPolling? ==> 0 < r.polls && QuietPolls(polls, r.polls - 1, pick)
    ensures r.end.Found? ==> polls[r.polls - 1].Ok? && pick(polls[r.polls - 1].value) == Some(r.end.candidate)
    ensures r.end.Crashed? ==> polls[r.polls - 1] == Raise(r.end.error)
    ensures r.trace == seq(if r.end.StillPolling? then r.polls else r.polls - 1, _ => Sleep(PollInterval))
    decreases |polls|
  {
    if |polls| == 0 then
      LoopRun(StillPolling, 0, [])
    else if polls[0].Raise? then
      LoopRun(Crashed(polls[0].error), 1, [])
    else if pick(polls[0].value).Some? then
      LoopRun(Found(pick(polls[0].value).value), 1, [])
    else
      var rest := PollLoop(polls[1..], pick);
      var waits := if rest.end.StillPolling? then rest.polls else rest.polls - 1;
      QuietPollsExtend(polls, waits, pick);
      assert [Sleep(PollInterval)] + rest.trace == seq(waits + 1, _ => Sleep(PollInterval));
      LoopRun(rest.end, rest.polls + 1, [Sleep(PollInterval)] + rest.trace)
  }

  /** The candidate `Decide` chooses from a poll's sessions, if any: the
      picker `booking_loop` polls with. */
  function CandidateOf(reqs: Requirements, ratio: Ratio): Picker {
    sessions => if Decide(sessions, reqs, ratio).Candidate? then Some(Decide(sessions, reqs, ratio).session) else None
  }

  /** `booking_loop` polling with `Decide`: it ends with a candidate exactly
      when its last poll decided on that candidate, and every poll before the
      last one returned sessions that decided on none. */
  lemma PollLoopFollowsDecide(polls: seq<Attempt<seq<Session>>>, reqs: Requirements, ratio: Ratio, c: Session)
    ensures var r := PollLoop(polls, CandidateOf(reqs, ratio));
            r.end == Found(c) <==>
              0 < r.polls && polls[r.polls - 1].Ok? && Decide(polls[r.polls - 1].value, reqs, ratio) == Candidate(c)
    ensures var r := PollLoop(polls, CandidateOf(reqs, ratio));
            forall j :: 0 <= j < (if r.end.StillPolling? then r.polls else r.polls - 1) ==>
              polls[j].Ok? && !Decide(polls[j].value, reqs, ratio).Candidate?
  {
    var pick := CandidateOf(reqs, ratio);
    var r := PollLoop(polls, pick);
    var quiet := if r.end.StillPolling? then r.polls else r.polls - 1;
    assert QuietPolls(polls, quiet, pick);
    if r.end.StillPolling? && 0 < r.polls {
      assert pick(polls[r.polls - 1].value).None?;
    }
  }
}
