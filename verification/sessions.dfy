/** The session filter and scorer: which candidate sessions satisfy a user's
    requirements, how preferred-center affinity scores them, and the stable
    ranking of the eligible ones (`filter_session`, `center_name_score`,
    `session_score`, `sort_sessions` in main.py). */
module Sessions {
  import opened StableSort

  /** The requirement value that matches every fee type or vaccine. */
  const AnyChoice: string := "ANY"

  /** A center-name affinity must exceed this to count at all. */
  const AffinityThreshold: real := 0.2

  /** A counted affinity is scaled by this factor. */
  const ScoreScale: real := 10.0

  /** The dose sequence: the session field `available_capacity_dose1` or
      `available_capacity_dose2` that is consulted. */
  type DoseSeq = d: int | d == 1 || d == 2 witness 1

  /** A normalized similarity ratio between a preferred-center fragment and a
      center name, as `SequenceMatcher(None, fragment, name).ratio()` gives. */
  type Ratio = f: (string, string) -> real | forall a, b :: 0.0 <= f(a, b) <= 1.0
    witness (a: string, b: string) => 0.0

  datatype Requirements = Requirements(
    vaccineType: string,
    minAge: int,
    doseSeq: DoseSeq,
    feeType: string,
    preferredCenters: seq<string>)

  /** The fields of a session record of the remote API that the engine reads. */
  datatype Session = Session(
    name: string,
    availableCapacity: int,
    availableCapacityDose1: int,
    availableCapacityDose2: int,
    feeType: string,
    vaccine: string,
    minAgeLimit: int)

  function DoseCapacity(s: Session, dose: DoseSeq): int {
    if dose == 1 then s.availableCapacityDose1 else s.availableCapacityDose2
  }

  /** `filter_session`: the gates are checked one after another, the first
      failing one rejects. */
  function IsEligible(reqs: Requirements, s: Session): (ok: bool)
    ensures ok <==>
      && s.availableCapacity >= 1
      && (reqs.feeType == AnyChoice || s.feeType == reqs.feeType)
      && (reqs.vaccineType == AnyChoice || s.vaccine == reqs.vaccineType)
      && s.minAgeLimit <= reqs.minAge
      && DoseCapacity(s, reqs.doseSeq) >= 1
  {
    if s.availableCapacity < 1 then false
    else if reqs.feeType != AnyChoice && s.feeType != reqs.feeType then false
    else if reqs.vaccineType != AnyChoice && s.vaccine != reqs.vaccineType then false
    else if reqs.minAge < s.minAgeLimit then false
    else if DoseCapacity(s, reqs.doseSeq) < 1 then false
    else true
  }

  /** No capacity for the requested dose rescues a session without total
      capacity. */
  lemma NoCapacityNeverEligible(reqs: Requirements, s: Session)
    requires s.availableCapacity < 1
    ensures !IsEligible(reqs, s)
  {
  }

  /** A user who asks for free sessions is never offered a paid one. */
  lemma PaidNeverMatchesFree(reqs: Requirements, s: Session)
    requires reqs.feeType == "Free" && s.feeType == "Paid"
    ensures !IsEligible(reqs, s)
  {
  }

  /** The largest ratio of `name` against any of the fragments. */
  function BestRatio(fragments: seq<string>, name: string, ratio: Ratio): (r: real)
    requires |fragments| > 0
    ensures forall i :: 0 <= i < |fragments| ==> ratio(fragments[i], name) <= r
    ensures exists i :: 0 <= i < |fragments| && r == ratio(fragments[i], name)
    decreases |fragments|
  {
    if |fragments| == 1 then
      ratio(fragments[0], name)
    else
      var here := ratio(fragments[0], name);
      var rest := BestRatio(fragments[1..], name, ratio);
      if here >= rest then here else rest
  }

  /** `Requirements.center_name_score`: the best ratio of the name against the
      preferred-center fragments, 0 when there are none. */
  function CenterNameScore(reqs: Requirements, name: string, ratio: Ratio): (r: real)
    ensures 0.0 <= r <= 1.0
    ensures |reqs.preferredCenters| == 0 ==> r == 0.0
    ensures forall i :: 0 <= i < |reqs.preferredCenters| ==> ratio(reqs.preferredCenters[i], name) <= r
    ensures |reqs.preferredCenters| > 0 ==>
              exists i :: 0 <= i < |reqs.preferredCenters| && r == ratio(reqs.preferredCenters[i], name)
  {
    if |reqs.preferredCenters| == 0 then 0.0 else BestRatio(reqs.preferredCenters, name, ratio)
  }

  /** `session_score`: the scaled affinity when it exceeds the threshold,
      otherwise 0; so a score is 0 or lies in (2, 10]. */
  function SessionScore(reqs: Requirements, s: Session, ratio: Ratio): (r: real)
    ensures r == 0.0 || (ScoreScale * AffinityThreshold < r <= ScoreScale)
    ensures r > 0.0 <==> CenterNameScore(reqs, s.name, ratio) > AffinityThreshold
  {
    var affinity := CenterNameScore(reqs, s.name, ratio);
    if affinity > AffinityThreshold then ScoreScale * affinity else 0.0
  }

  /** A session whose name is at least as close to the preferred centers
      scores at least as high. */
  lemma ScoreFollowsAffinity(reqs: Requirements, a: Session, b: Session, ratio: Ratio)
    requires CenterNameScore(reqs, a.name, ratio) <= CenterNameScore(reqs, b.name, ratio)
    ensures SessionScore(reqs, a, ratio) <= SessionScore(reqs, b, ratio)
  {
  }

  /** Without preferred centers every session scores 0. */
  lemma NoPreferenceScoresZero(reqs: Requirements, s: Session, ratio: Ratio)
    requires |reqs.preferredCenters| == 0
    ensures SessionScore(reqs, s, ratio) == 0.0
  {
  }

  /** A fragment that matches the name perfectly gives the top score. */
  lemma PerfectMatchScoresTen(reqs: Requirements, s: Session, ratio: Ratio, i: nat)
    requires i < |reqs.preferredCenters| && ratio(reqs.preferredCenters[i], s.name) == 1.0
    ensures SessionScore(reqs, s, ratio) == ScoreScale
  {
  }

  /** The sort key of `sort_sessions`. */
  function ScoreOf(reqs: Requirements, ratio: Ratio): Session -> real {
    s => SessionScore(reqs, s, ratio)
  }

  /** The eligible sessions, in input order. */
  function Eligible(reqs: Requirements, sessions: seq<Session>): seq<Session> {
    Filter(sessions, s => IsEligible(reqs, s))
  }

  /** `sort_sessions`: the eligible sessions from the highest score to the
      lowest, each eligible input exactly as often as it occurs, equal scores
      in input order. */
  function SortSessions(sessions: seq<Session>, reqs: Requirements, ratio: Ratio): (r: seq<Session>)
    ensures forall i :: 0 <= i < |r| ==> IsEligible(reqs, r[i])
    ensures forall s :: multiset(r)[s] == if IsEligible(reqs, s) then multiset(sessions)[s] else 0
    ensures SortedDesc(r, ScoreOf(reqs, ratio))
    ensures forall v :: KeyClass(r, ScoreOf(reqs, ratio), v) == KeyClass(Eligible(reqs, sessions), ScoreOf(reqs, ratio), v)
  {
    var eligible := Eligible(reqs, sessions);
    var key := ScoreOf(reqs, ratio);
    var r := SortDesc(eligible, key);
    assert forall i :: 0 <= i < |r| ==> IsEligible(reqs, r[i]) by {
      forall i | 0 <= i < |r| ensures IsEligible(reqs, r[i]) {
        assert r[i] in multiset(eligible);
      }
    }
    assert forall v :: KeyClass(r, key, v) == KeyClass(eligible, key, v) by {
      forall v ensures KeyClass(r, key, v) == KeyClass(eligible, key, v) {
        SortDescIsStable(eligible, key, v);
      }
    }
    r
  }

  /** The ranking `sort_sessions` promises: ordered from the highest score to the
      lowest, each score's sessions being exactly the eligible ones of that
      score in input order. */
  ghost predicate IsStableRanking(r: seq<Session>, sessions: seq<Session>, reqs: Requirements, ratio: Ratio) {
    && SortedDesc(r, ScoreOf(reqs, ratio))
    && forall v :: KeyClass(r, ScoreOf(reqs, ratio), v) == KeyClass(Eligible(reqs, sessions), ScoreOf(reqs, ratio), v)
  }

  /** `sort_sessions` computes that ranking, and it is the only sequence that
      satisfies it. */
  lemma SortSessionsIsTheStableRanking(r: seq<Session>, sessions: seq<Session>, reqs: Requirements, ratio: Ratio)
    ensures r == SortSessions(sessions, reqs, ratio) <==> IsStableRanking(r, sessions, reqs, ratio)
  {
    if IsStableRanking(r, sessions, reqs, ratio) {
      SortedWithSameClassesAreEqual(r, SortSessions(sessions, reqs, ratio), ScoreOf(reqs, ratio));
    }
  }
}
