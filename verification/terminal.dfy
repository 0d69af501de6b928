/**
 * How a game ends and what it is worth: the final score and rank, the
 * game-over conditions checked after every change, the election held when
 * the countdown runs out, and the achievements unlocked along the way.
 */
module Terminal {
  import opened Types
  import Catalog
  import Upkeep

  // ---------------------------------------------------------------------
  // Final score and rank.
  // ---------------------------------------------------------------------

  /** `metrics[id]?.value || 0`: a missing metric counts as 0. */
  function MetricOrZero(metrics: Metrics, id: string): real {
    if id in metrics then metrics[id] else 0.0
  }

  function SumOf(metrics: Metrics, ids: seq<string>): real {
    if |ids| == 0 then 0.0 else MetricOrZero(metrics, ids[0]) + SumOf(metrics, ids[1..])
  }

  /** The mean of the four core metrics. */
  function CoreAverage(metrics: Metrics): real {
    SumOf(metrics, Catalog.CORE_METRIC_IDS) / |Catalog.CORE_METRIC_IDS| as real
  }

  /** `totalMonthsRuled || months since January 2024, inclusive`: a recorded 0 falls back to the calendar. */
  function MonthsRuled(s: GameState): int {
    if s.totalMonthsRuled != 0 then s.totalMonthsRuled
    else (s.year - Catalog.INITIAL_YEAR) * 12 + (s.month - Catalog.INITIAL_MONTH) + 1
  }

  function UnlockedCount(achs: seq<Achievement>): nat {
    if |achs| == 0 then 0 else (if achs[0].unlocked then 1 else 0) + UnlockedCount(achs[1..])
  }

  /** `Math.round`: halves round up. */
  function Round(x: real): (n: int)
    ensures n as real - 0.5 <= x < n as real + 0.5
  {
    (x + 0.5).Floor
  }

  /**
   * Searching the tiers `tiers[..hi]` from the top: the highest tier whose
   * threshold the score reaches, or the first tier when it reaches none.
   */
  function RankIndex(score: real, tiers: seq<Rank>, hi: nat): (i: nat)
    requires 0 < hi <= |tiers|
    ensures i < hi
    ensures forall j :: i < j < hi ==> score < tiers[j].minScore
    ensures score >= tiers[i].minScore || forall j :: 0 <= j < hi ==> score < tiers[j].minScore
    ensures score < tiers[i].minScore ==> i == 0
    decreases hi
  {
    if score >= tiers[hi - 1].minScore then hi - 1
    else if hi == 1 then 0
    else RankIndex(score, tiers, hi - 1)
  }

  function RankFor(score: real): (r: Rank) {
    Catalog.RankTiersWellFormed();
    Catalog.RANK_TIERS[RankIndex(score, Catalog.RANK_TIERS, |Catalog.RANK_TIERS|)]
  }

  datatype ScoreResult = ScoreResult(score: int, rank: Rank, breakdown: seq<ScoreItem>, totalMonths: int)

  function Total(items: seq<ScoreItem>): real {
    if |items| == 0 then 0.0 else items[0].contribution + Total(items[1..])
  }

  /** The five score items, each its raw value times its weight. */
  function Breakdown(s: GameState): (b: seq<ScoreItem>)
    ensures |b| == 5
    ensures forall k :: 0 <= k < 5 ==> b[k].contribution == b[k].rawValue * Weights()[k]
    ensures b[0].rawValue == CoreAverage(s.metrics) && b[1].rawValue == s.politicalCapital
    ensures b[2].rawValue == s.overallApproval && b[3].rawValue == MonthsRuled(s) as real
    ensures b[4].rawValue == UnlockedCount(s.achievements) as real
  {
    var raw := [CoreAverage(s.metrics), s.politicalCapital, s.overallApproval,
                MonthsRuled(s) as real, UnlockedCount(s.achievements) as real];
    seq(5, k requires 0 <= k < 5 => ScoreItem(raw[k], raw[k] * Weights()[k]))
  }

  function Weights(): (w: seq<real>)
    ensures |w| == 5
  {
    [Catalog.WEIGHT_CORE_METRICS_AVG, Catalog.WEIGHT_POLITICAL_CAPITAL, Catalog.WEIGHT_OVERALL_APPROVAL,
     Catalog.WEIGHT_DURATION_MONTHS, Catalog.WEIGHT_ACHIEVEMENT]
  }

  /** `calculateFinalScoreAndRank`: the rounded weighted sum and the rank the unrounded sum reaches. */
  function FinalScore(s: GameState): (r: ScoreResult)
    ensures r.breakdown == Breakdown(s)
    ensures r.score as real - 0.5 <= Total(r.breakdown) < r.score as real + 0.5
    ensures r.rank in Catalog.RANK_TIERS
    ensures r.rank == RankFor(Total(r.breakdown))
    ensures Total(r.breakdown) >= 0.0 ==>
              && r.rank.minScore <= Total(r.breakdown)
              && forall t :: t in Catalog.RANK_TIERS && t.minScore <= Total(r.breakdown) ==> t.minScore <= r.rank.minScore
    ensures r.totalMonths == MonthsRuled(s)
  {
    var b := Breakdown(s);
    var r := ScoreResult(Round(Total(b)), RankFor(Total(b)), b, MonthsRuled(s));
    if Total(b) >= 0.0 then RankIsHighestReached(Total(b)); r else r
  }

  /** Over ascending tiers, the search finds the highest tier the score reaches. */
  lemma HighestTier(score: real, tiers: seq<Rank>)
    requires |tiers| > 0 && Catalog.StrictlyAscendingTiers(tiers) && tiers[0].minScore <= score
    ensures var i := RankIndex(score, tiers, |tiers|);
            && tiers[i].minScore <= score
            && forall j :: 0 <= j < |tiers| && tiers[j].minScore <= score ==> j <= i
  {
  }

  /** Over ascending tiers, a higher score never lands in a lower tier. */
  lemma TierMonotone(a: real, b: real, tiers: seq<Rank>)
    requires |tiers| > 0 && Catalog.StrictlyAscendingTiers(tiers) && a <= b
    ensures RankIndex(a, tiers, |tiers|) <= RankIndex(b, tiers, |tiers|)
  {
  }

  /** The rank is the highest tier a non-negative score reaches. */
  lemma RankIsHighestReached(score: real)
    requires score >= 0.0
    ensures RankFor(score).minScore <= score
    ensures forall t :: t in Catalog.RANK_TIERS && t.minScore <= score ==> t.minScore <= RankFor(score).minScore
  {
    var tiers := Catalog.RANK_TIERS;
    Catalog.RankTiersWellFormed();
    HighestTier(score, tiers);
    var i := RankIndex(score, tiers, |tiers|);
    forall t | t in tiers && t.minScore <= score ensures t.minScore <= tiers[i].minScore {
      var j :| 0 <= j < |tiers| && tiers[j] == t;
      assert j <= i;
    }
  }

  /** A higher score never earns a lower rank. */
  lemma RankMonotone(a: real, b: real)
    requires a <= b
    ensures RankFor(a).minScore <= RankFor(b).minScore
  {
    var tiers := Catalog.RANK_TIERS;
    Catalog.RankTiersWellFormed();
    TierMonotone(a, b, tiers);
  }

  /** Each unlocked achievement adds its full weight: the total is the weighted sum of the raw values. */
  lemma TotalIsWeightedSum(s: GameState)
    ensures Total(FinalScore(s).breakdown) ==
              CoreAverage(s.metrics) * 1.5 + s.politicalCapital * 0.25 + s.overallApproval * 1.0
              + MonthsRuled(s) as real * 0.15 + UnlockedCount(s.achievements) as real * 25.0
  {
    var b := Breakdown(s);
    assert Total(b) == b[0].contribution + Total(b[1..]);
    assert Total(b[1..]) == b[1].contribution + Total(b[2..]);
    assert Total(b[2..]) == b[2].contribution + Total(b[3..]);
    assert Total(b[3..]) == b[3].contribution + Total(b[4..]);
    assert Total(b[4..]) == b[4].contribution + Total(b[5..]);
  }

  /** A state in the first month with nothing recorded counts one month ruled. */
  lemma FirstMonthCountsOne(s: GameState)
    requires s.totalMonthsRuled == 0 && s.year == Catalog.INITIAL_YEAR && s.month == Catalog.INITIAL_MONTH
    ensures FinalScore(s).totalMonths == 1
  {
  }

  // ---------------------------------------------------------------------
  // Game over.
  // ---------------------------------------------------------------------

  /** Any date after January 2024. */
  predicate PastFirstMonth(year: int, month: int) {
    year > Catalog.INITIAL_YEAR || (year == Catalog.INITIAL_YEAR && month > Catalog.INITIAL_MONTH)
  }

  /** Any date after July 2024. */
  predicate PastSeventhMonth(year: int, month: int) {
    year > Catalog.INITIAL_YEAR || (year == Catalog.INITIAL_YEAR && month > Catalog.INITIAL_MONTH + 6)
  }

  predicate Bankrupt(s: GameState) {
    && s.politicalCapital <= 0.0
    && (exists i :: 0 <= i < |s.activePolicies| && Upkeep.Charges(s.activePolicies[i]))
    && PastFirstMonth(s.year, s.month)
  }

  /**
   * Which condition ends the game, if any. The crisis checks run after the
   * bankruptcy check and overwrite its verdict, so they take precedence.
   */
  function Verdict(s: GameState): (v: Option<GameOverReason>)
    requires "stability" in s.metrics && "happiness" in s.metrics
    ensures v == Some(NationalCrisis) <==> s.metrics["stability"] < 10.0
    ensures v == Some(WidespreadUnhappiness) <==> s.metrics["stability"] >= 10.0 && s.metrics["happiness"] < 10.0
    ensures v == Some(PublicProtest) <==>
              s.metrics["stability"] >= 10.0 && s.metrics["happiness"] >= 10.0
              && s.overallApproval < 20.0 && PastSeventhMonth(s.year, s.month)
    ensures v == Some(PoliticalBankruptcy) <==>
              s.metrics["stability"] >= 10.0 && s.metrics["happiness"] >= 10.0
              && !(s.overallApproval < 20.0 && PastSeventhMonth(s.year, s.month))
              && Bankrupt(s)
    ensures v != Some(ElectionLost)
  {
    if s.metrics["stability"] < 10.0 then Some(NationalCrisis)
    else if s.metrics["happiness"] < 10.0 then Some(WidespreadUnhappiness)
    else if s.overallApproval < 20.0 && PastSeventhMonth(s.year, s.month) then Some(PublicProtest)
    else if Bankrupt(s) then Some(PoliticalBankruptcy)
    else None
  }

  /** The fields every ending sets: the final score, rank and breakdown, the months ruled, and delegation off. */
  function Finish(s: GameState, reason: GameOverReason): (r: GameState)
    ensures r.gameOver && r.gameOverReason == Some(reason) && !r.delegationActive
    ensures r.finalScore == Some(FinalScore(s).score) && r.finalRank == Some(FinalScore(s).rank)
    ensures r.totalMonthsRuled == MonthsRuled(s)
  {
    var sc := FinalScore(s);
    s.(gameOver := true, gameOverReason := Some(reason),
       finalScore := Some(sc.score), finalRank := Some(sc.rank),
       scoreBreakdown := sc.breakdown, totalMonthsRuled := sc.totalMonths,
       delegationActive := false)
  }

  /** The game-over effect: a finished game is left alone; otherwise any verdict ends it and closes the open screens. */
  function EvaluateGameOver(s: GameState): (r: GameState)
    requires "stability" in s.metrics && "happiness" in s.metrics
    ensures s.gameOver ==> r == s
    ensures !s.gameOver && Verdict(s).None? ==> r == s
    ensures !s.gameOver && Verdict(s).Some? ==>
              && r.gameOver && r.gameOverReason == Verdict(s)
              && !r.showEventModal && r.currentEvent.None?
              && !r.showSummaryModal && r.summary.None?
              && !r.delegationActive
              && r.finalScore == Some(FinalScore(s).score) && r.finalRank == Some(FinalScore(s).rank)
              && r.scoreBreakdown == FinalScore(s).breakdown
              && r.totalMonthsRuled == MonthsRuled(s)
              && r.metrics == s.metrics && r.politicalCapital == s.politicalCapital
              && r.activePolicies == s.activePolicies
              && r.(gameOver := s.gameOver, gameOverReason := s.gameOverReason, delegationActive := s.delegationActive,
                    finalScore := s.finalScore, finalRank := s.finalRank, scoreBreakdown := s.scoreBreakdown,
                    totalMonthsRuled := s.totalMonthsRuled, showEventModal := s.showEventModal,
                    currentEvent := s.currentEvent, showSummaryModal := s.showSummaryModal, summary := s.summary) == s
  {
    if s.gameOver then s
    else
      match Verdict(s)
      case None => s
      case Some(reason) =>
        Finish(s, reason).(showEventModal := false, currentEvent := None,
                           showSummaryModal := false, summary := None)
  }

  /** Game over is final: checking again changes nothing. */
  lemma GameOverIsFinal(s: GameState)
    requires "stability" in s.metrics && "happiness" in s.metrics
    ensures var r := EvaluateGameOver(s);
            "stability" in r.metrics && "happiness" in r.metrics && EvaluateGameOver(r) == r
  {
  }

  /** A stable, content, still-popular nation in credit is not over. */
  lemma HealthyStateContinues(s: GameState)
    requires "stability" in s.metrics && "happiness" in s.metrics
    requires s.metrics["stability"] >= 10.0 && s.metrics["happiness"] >= 10.0
    requires s.overallApproval >= 20.0 && s.politicalCapital > 0.0
    ensures EvaluateGameOver(s) == s
  {
  }

  // ---------------------------------------------------------------------
  // Elections.
  // ---------------------------------------------------------------------

  predicate ElectionDue(s: GameState) {
    s.electionUpcoming && !s.gameOver && !s.showEventModal && !s.showSummaryModal
  }

  /**
   * The election effect: with at least 50% approval the government wins 20
   * capital; otherwise the game ends, scored on the state before the vote.
   */
  function HoldElection(s: GameState): (r: GameState)
    ensures !ElectionDue(s) ==> r == s
    ensures ElectionDue(s) ==>
              && r.showElectionModal && !r.electionUpcoming
              && (r.electionResult == Some(Won) <==> s.overallApproval >= 50.0)
              && (r.electionResult == Some(Lost) <==> s.overallApproval < 50.0)
              && (r.gameOver <==> s.overallApproval < 50.0)
              && (s.overallApproval >= 50.0 ==> r.politicalCapital == s.politicalCapital + 20.0
                                                && r.(politicalCapital := s.politicalCapital, electionUpcoming := true,
                                                      electionResult := s.electionResult, showElectionModal := s.showElectionModal) == s)
              && (s.overallApproval < 50.0 ==> r.gameOverReason == Some(ElectionLost)
                                               && r.politicalCapital == s.politicalCapital
                                               && r.finalScore == Some(FinalScore(s).score)
                                               && r.finalRank == Some(FinalScore(s).rank)
                                               && r.scoreBreakdown == FinalScore(s).breakdown
                                               && r.totalMonthsRuled == MonthsRuled(s)
                                               && !r.delegationActive
                                               && r.(gameOver := s.gameOver, gameOverReason := s.gameOverReason,
                                                     delegationActive := s.delegationActive, finalScore := s.finalScore,
                                                     finalRank := s.finalRank, scoreBreakdown := s.scoreBreakdown,
                                                     totalMonthsRuled := s.totalMonthsRuled,
                                                     showElectionModal := s.showElectionModal,
                                                     electionUpcoming := s.electionUpcoming,
                                                     electionResult := s.electionResult) == s)
  {
    if !ElectionDue(s) then s
    else if s.overallApproval >= 50.0 then
      s.(showElectionModal := true, politicalCapital := s.politicalCapital + 20.0,
         electionUpcoming := false, electionResult := Some(Won))
    else
      Finish(s, ElectionLost).(showElectionModal := true, electionUpcoming := false, electionResult := Some(Lost))
  }

  /** An election is held once: the result state has no election pending. */
  lemma ElectionHeldOnce(s: GameState)
    ensures HoldElection(HoldElection(s)) == HoldElection(s)
  {
  }

  // ---------------------------------------------------------------------
  // Achievements.
  // ---------------------------------------------------------------------

  /** Active policies with effects, i.e. not categories. */
  function StandardCount(ps: seq<Policy>): (n: nat)
    ensures n <= |ps|
  {
    if |ps| == 0 then 0 else (if |ps[0].effects| > 0 then 1 else 0) + StandardCount(ps[1..])
  }

  /** Whether an achievement condition holds; a metric the state lacks does not satisfy one. */
  predicate Holds(c: Condition, s: GameState) {
    match c
    case MetricAtLeast(m, t) => m in s.metrics && s.metrics[m] >= t
    case StandardPoliciesActiveAtLeast(n) => StandardCount(s.activePolicies) >= n
    case MonthsRuledAtLeast(n) => s.totalMonthsRuled >= n
  }

  function Unlock(achs: seq<Achievement>, s: GameState): (r: seq<Achievement>)
    ensures |r| == |achs|
    ensures forall i :: 0 <= i < |achs| ==>
              r[i].(unlocked := achs[i].unlocked) == achs[i]
              && (r[i].unlocked <==> achs[i].unlocked || Holds(achs[i].condition, s))
  {
    if |achs| == 0 then []
    else
      var a := achs[0];
      var rest := Unlock(achs[1..], s);
      assert forall i :: 1 <= i < |achs| ==> achs[i] == achs[1..][i - 1];
      [if !a.unlocked && Holds(a.condition, s) then a.(unlocked := true) else a] + rest
  }

  /** `checkAndUnlockAchievements`, run only while play is live (no open summary or event, game not over). */
  function UnlockAchievements(s: GameState): (r: GameState)
    ensures s.showSummaryModal || s.showEventModal || s.gameOver ==> r == s
    ensures r.(achievements := s.achievements) == s
    ensures |r.achievements| == |s.achievements|
    ensures forall i :: 0 <= i < |s.achievements| && s.achievements[i].unlocked ==> r.achievements[i].unlocked
  {
    if s.showSummaryModal || s.showEventModal || s.gameOver then s
    else s.(achievements := Unlock(s.achievements, s))
  }

  /** Unlocking is idempotent. */
  lemma UnlockIdempotent(s: GameState)
    ensures UnlockAchievements(UnlockAchievements(s)) == UnlockAchievements(s)
  {
    var r := UnlockAchievements(s);
    if !(s.showSummaryModal || s.showEventModal || s.gameOver) {
      var again := Unlock(r.achievements, r);
      assert r.metrics == s.metrics && r.activePolicies == s.activePolicies && r.totalMonthsRuled == s.totalMonthsRuled;
      assert forall i :: 0 <= i < |again| ==> again[i] == r.achievements[i];
    }
  }

  /** While play is live, an achievement is unlocked afterwards exactly when it was already or its condition holds now. */
  lemma UnlockedExactly(s: GameState, i: int)
    requires !s.showSummaryModal && !s.showEventModal && !s.gameOver
    requires 0 <= i < |s.achievements|
    ensures UnlockAchievements(s).achievements[i].unlocked <==>
              s.achievements[i].unlocked || Holds(s.achievements[i].condition, s)
  {
  }
}
