/**
 * A game from its first month: the initial state of a new game, and the
 * delegation-mode tick that makes the automated decision and then ends the
 * turn.
 */
module Session {
  import opened Types
  import Catalog
  import Calendar
  import Approval
  import Effects
  import Turn
  import Terminal
  import Delegation

  /** A new game: January 2024, 150 capital, the initial metrics and groups, nothing enacted. */
  function InitialState(): (s: GameState)
    ensures s.year == Catalog.INITIAL_YEAR && s.month == Catalog.INITIAL_MONTH
    ensures s.turnIdentifier == Calendar.TurnIdentifier(Catalog.INITIAL_YEAR, Catalog.INITIAL_MONTH)
    ensures s.politicalCapital == Catalog.INITIAL_POLITICAL_CAPITAL
    ensures s.metrics == Catalog.INITIAL_METRICS && |s.activePolicies| == 0
    ensures s.overallApproval == Approval.Recompute(Catalog.INITIAL_METRICS, Catalog.INITIAL_VOTER_GROUPS).overall
    ensures !s.gameOver && !s.electionUpcoming && s.electionCooldown == Catalog.ELECTION_INTERVAL_MONTHS
    ensures s.summary.None? && !s.showSummaryModal && !s.showEventModal && !s.delegationActive
    ensures !s.showElectionModal && !s.showResetConfirmation
    ensures s.achievements == Catalog.ALL_ACHIEVEMENTS && s.totalMonthsRuled == 0
  {
    var approval := Approval.Recompute(Catalog.INITIAL_METRICS, Catalog.INITIAL_VOTER_GROUPS);
    GameState(Catalog.INITIAL_YEAR, Catalog.INITIAL_MONTH,
              Calendar.TurnIdentifier(Catalog.INITIAL_YEAR, Catalog.INITIAL_MONTH),
              Catalog.INITIAL_POLITICAL_CAPITAL, Catalog.INITIAL_METRICS, [],
              approval.groups, approval.overall,
              false, None, false, Catalog.ELECTION_INTERVAL_MONTHS, None, None,
              false, false, None, Catalog.ALL_ACHIEVEMENTS, None, None, [], 0, false, false, false)
  }

  /** A fresh game is live: every metric lies within 0..100 and no ending applies. */
  lemma FreshGameIsLive(s: GameState)
    requires s.metrics == Catalog.INITIAL_METRICS && |s.activePolicies| == 0 && !s.gameOver
    requires s.year == Catalog.INITIAL_YEAR && s.month == Catalog.INITIAL_MONTH
    ensures Effects.AllInRange(s.metrics)
    ensures "stability" in s.metrics && "happiness" in s.metrics
    ensures Terminal.EvaluateGameOver(s) == s
  {
    Catalog.InitialMetricsInRange();
    var m := Catalog.INITIAL_METRICS;
    assert m["stability"] == 50.0 && m["happiness"] == 50.0;
    assert !Terminal.Bankrupt(s);
  }

  lemma InitialStateIsLive()
    ensures Effects.AllInRange(InitialState().metrics)
    ensures Terminal.EvaluateGameOver(InitialState()) == InitialState()
  {
    FreshGameIsLive(InitialState());
  }

  /**
   * The first turn of a fresh game with nothing enacted and no event: the
   * economy at 50 earns 1 + 1 capital, so 150 becomes 152.
   */
  lemma FirstTurnEarnsTwo(s: GameState)
    requires s.metrics == Catalog.INITIAL_METRICS && |s.activePolicies| == 0
    requires s.politicalCapital == Catalog.INITIAL_POLITICAL_CAPITAL
    ensures Turn.Summarize(s, None).pcAfter == 152.0
  {
    var m := Catalog.INITIAL_METRICS;
    assert "economy" in m && m["economy"] == 50.0;
    assert Catalog.POLITICAL_CAPITAL_KEY !in m;
    Turn.SummaryCapital(s, None);
    var g := Effects.EconomyGain(m);
    assert g.Floor == 2;
  }

  /**
   * Delegation plays a turn only when it is on, the game is running and no
   * summary, event, election or reset-confirmation screen is open.
   */
  predicate AutoplayDue(s: GameState) {
    && s.delegationActive && !s.gameOver && !s.showSummaryModal && !s.showEventModal
    && !s.showElectionModal && !s.showResetConfirmation
  }

  /** Asking to start over opens the confirmation dialog and changes nothing else. */
  function RequestReset(s: GameState): (r: GameState)
    ensures r.showResetConfirmation
    ensures !AutoplayDue(r)
    ensures r.(showResetConfirmation := s.showResetConfirmation) == s
  {
    s.(showResetConfirmation := true)
  }

  /** Declining closes the dialog and changes nothing else. */
  function CancelReset(s: GameState): (r: GameState)
    ensures !r.showResetConfirmation
    ensures r.(showResetConfirmation := s.showResetConfirmation) == s
  {
    s.(showResetConfirmation := false)
  }

  /** Confirming closes the dialog and starts a new game: whatever was played is discarded. */
  function ConfirmReset(s: GameState): (r: GameState)
    ensures !r.showResetConfirmation && !r.delegationActive && !r.gameOver
    ensures r.metrics == Catalog.INITIAL_METRICS && |r.activePolicies| == 0
    ensures r.politicalCapital == Catalog.INITIAL_POLITICAL_CAPITAL && r.totalMonthsRuled == 0
    ensures r.year == Catalog.INITIAL_YEAR && r.month == Catalog.INITIAL_MONTH
  {
    InitialState()
  }

  /** Opening and then declining the dialog gives back the game as it was. */
  lemma ResetDialogRoundTrip(s: GameState)
    requires !s.showResetConfirmation
    ensures CancelReset(RequestReset(s)) == s
  {
  }

  /**
   * The delegation tick as written: the decision is applied to the live
   * state, but the delayed end of turn runs on the state captured before the
   * decision, and its summary is stored on the decided state.
   */
  function AutoplayAsWritten(s: GameState, catalog: seq<Policy>, event: Option<MiniEvent>): (r: GameState)
    requires "economy" in s.metrics
    ensures !AutoplayDue(s) ==> r == s
    ensures AutoplayDue(s) ==> r.summary == Some(Turn.Summarize(s, event))
    ensures AutoplayDue(s) ==> r.activePolicies == Delegation.AutomatedDecisions(s, catalog).activePolicies
  {
    if !AutoplayDue(s) then s
    else
      var decided := Delegation.AutomatedDecisions(s, catalog);
      var t := Turn.Summarize(s, event);
      decided.(summary := Some(t), showSummaryModal := true,
               voterGroups := Approval.Recompute(t.metricsAfter, s.voterGroups).groups)
  }

  /** As written, the committed capital is the summary's, computed before the decision: whatever the decision spent comes back. */
  lemma DecisionSpendRefunded(s: GameState, catalog: seq<Policy>, event: Option<MiniEvent>)
    requires "economy" in s.metrics
    requires AutoplayDue(s)
    ensures Turn.Commit(AutoplayAsWritten(s, catalog, event)).politicalCapital
            == Turn.Commit(Turn.EndTurn(s, event)).politicalCapital
  {
  }

  /** A one-entry catalog: a standard policy costing 10 with no prerequisites. */
  function ExampleCatalog(): seq<Policy> {
    [Policy("examplePolicy", 10.0, [Entry("economy", 1.0)], NoPrerequisites, None, None, None, 1,
            false, None, None, None, None)]
  }

  /** Every tracked metric at 70: none needs help, so the automation falls back to a general enactment. */
  function ComfortableMetrics(): Metrics {
    map["economy" := 70.0, "happiness" := 70.0, "environment" := 70.0,
        "stability" := 70.0, "education" := 70.0, "healthcare" := 70.0]
  }

  /** January 2024 with 150 capital, comfortable metrics, nothing enacted and delegation on. */
  function RefundExample(): GameState {
    GameState(2024, 1, "2024-01", 150.0, ComfortableMetrics(), [], [], 50.0,
              false, None, false, 48, None, None, false, false, None, [], None, None, [], 0, true, false, false)
  }

  lemma ComfortableTracked()
    ensures forall i :: 0 <= i < |Catalog.TRACKED_METRIC_IDS| ==>
              Catalog.TRACKED_METRIC_IDS[i] in ComfortableMetrics() && ComfortableMetrics()[Catalog.TRACKED_METRIC_IDS[i]] >= Delegation.LOW_MAX
  {
    var ids := Catalog.TRACKED_METRIC_IDS;
    var m := ComfortableMetrics();
    assert forall i :: 0 <= i < |ids| ==> ids[i] in m && m[ids[i]] == 70.0;
  }

  /** When every tracked metric is at 60 or more, no band has a metric to work on. */
  lemma ComfortableNeedsNoHelp(s: GameState, catalog: seq<Policy>)
    requires forall i :: 0 <= i < |Catalog.TRACKED_METRIC_IDS| ==>
               Catalog.TRACKED_METRIC_IDS[i] in s.metrics && s.metrics[Catalog.TRACKED_METRIC_IDS[i]] >= Delegation.LOW_MAX
    ensures Delegation.Banded(s, catalog) == Delegation.NoDecision
  {
    var worst := Delegation.Worst(s.metrics);
    var rs := Delegation.Readings(s.metrics, Catalog.TRACKED_METRIC_IDS);
    assert forall j :: 0 <= j < |rs| ==> rs[j].value >= Delegation.LOW_MAX;
    forall i | 0 <= i < |worst| ensures worst[i].value >= Delegation.LOW_MAX {
      assert worst[i] in multiset(rs);
      var j :| 0 <= j < |rs| && rs[j] == worst[i];
    }
    Delegation.BandEmptyAbove(worst, None, Delegation.ULTRA_CRITICAL_MAX);
    Delegation.BandEmptyAbove(worst, Some(Delegation.ULTRA_CRITICAL_MAX), Delegation.CRITICAL_MAX);
    Delegation.BandEmptyAbove(worst, Some(Delegation.CRITICAL_MAX), Delegation.LOW_MAX);
  }

  /** With nothing active, comfortable metrics and 10 capital to spare, the automation enacts the example policy. */
  lemma ExampleDecision(s: GameState)
    requires forall i :: 0 <= i < |Catalog.TRACKED_METRIC_IDS| ==>
               Catalog.TRACKED_METRIC_IDS[i] in s.metrics && s.metrics[Catalog.TRACKED_METRIC_IDS[i]] >= Delegation.LOW_MAX
    requires |s.activePolicies| == 0 && !s.gameOver && s.politicalCapital >= 10.0
    ensures Delegation.Decide(s, ExampleCatalog()) == Delegation.EnactOf(ExampleCatalog()[0])
  {
    var catalog := ExampleCatalog();
    var p := catalog[0];
    ComfortableNeedsNoHelp(s, catalog);
    assert Delegation.GeneralUpgrade(s).None?;
    assert Delegation.Enactable(s, p);
    assert Delegation.GeneralEnact(s, catalog) == Some(p);
  }

  /**
   * From any comfortable state with nothing enacted and 10 capital to spare,
   * the automation pays 10 for the example policy, and as written that spend
   * is undone at commit.
   */
  lemma ExampleSpendRefunded(s: GameState)
    requires "economy" in s.metrics && AutoplayDue(s)
    requires forall i :: 0 <= i < |Catalog.TRACKED_METRIC_IDS| ==>
               Catalog.TRACKED_METRIC_IDS[i] in s.metrics && s.metrics[Catalog.TRACKED_METRIC_IDS[i]] >= Delegation.LOW_MAX
    requires |s.activePolicies| == 0 && s.politicalCapital >= 10.0
    ensures Delegation.AutomatedDecisions(s, ExampleCatalog()).politicalCapital == s.politicalCapital - 10.0
    ensures Turn.Commit(AutoplayAsWritten(s, ExampleCatalog(), None)).politicalCapital
            == Turn.Commit(Turn.EndTurn(s, None)).politicalCapital
  {
    ExampleDecision(s);
    DecisionSpendRefunded(s, ExampleCatalog(), None);
  }

  /** The concrete case: January 2024, 150 capital, every tracked metric at 70, delegation on. */
  lemma RefundExampleSpends()
    ensures var s := RefundExample();
            && AutoplayDue(s)
            && Delegation.AutomatedDecisions(s, ExampleCatalog()).politicalCapital == s.politicalCapital - 10.0
            && Turn.Commit(AutoplayAsWritten(s, ExampleCatalog(), None)).politicalCapital
               == Turn.Commit(Turn.EndTurn(s, None)).politicalCapital
  {
    var s := RefundExample();
    ComfortableTracked();
    assert "economy" in s.metrics;
    ExampleSpendRefunded(s);
  }

  /** The corrected tick: the automated decision, then the end of turn on the decided state. */
  function AutoplayTick(s: GameState, catalog: seq<Policy>, event: Option<MiniEvent>): (r: GameState)
    requires "economy" in s.metrics
    ensures !AutoplayDue(s) ==> r == s
    ensures AutoplayDue(s) ==> r.summary.Some? && r.showSummaryModal
    ensures AutoplayDue(s) ==> r.summary.value.pcBefore == Delegation.AutomatedDecisions(s, catalog).politicalCapital
    ensures AutoplayDue(s) ==> r.activePolicies == Delegation.AutomatedDecisions(s, catalog).activePolicies
  {
    if !AutoplayDue(s) then s
    else
      var decided := Delegation.AutomatedDecisions(s, catalog);
      Turn.EndTurn(decided, event)
  }

  /** Corrected: the committed capital is the one the turn earns on top of what the decision left. */
  lemma DecisionSpendKept(s: GameState, catalog: seq<Policy>, event: Option<MiniEvent>)
    requires "economy" in s.metrics
    requires AutoplayDue(s)
    ensures var decided := Delegation.AutomatedDecisions(s, catalog);
            Turn.Commit(AutoplayTick(s, catalog, event)).politicalCapital == Turn.Summarize(decided, event).pcAfter
  {
  }

  /** While the reset-confirmation dialog is open, neither tick plays a turn. */
  lemma ResetDialogPausesDelegation(s: GameState, catalog: seq<Policy>, event: Option<MiniEvent>)
    requires "economy" in s.metrics
    ensures AutoplayAsWritten(RequestReset(s), catalog, event) == RequestReset(s)
    ensures AutoplayTick(RequestReset(s), catalog, event) == RequestReset(s)
  {
  }
}
