/**
 * The two-phase turn. Ending a turn computes a pending summary (upkeep,
 * policy effects, capital income, the optional mini event, approval) and
 * shows it without touching the committed metrics, capital or policies.
 * Committing the summary writes it into the state, rebuilds the active
 * policy list, advances the calendar and counts down to the next election.
 */
module Turn {
  import opened Types
  import Catalog
  import Calendar
  import Approval
  import opened Upkeep
  import opened Effects

  /** A summary screen or event screen is open, or the game is over: ending the turn does nothing. */
  predicate EndTurnBlocked(s: GameState) {
    s.gameOver || s.showEventModal || s.showSummaryModal
  }

  /**
   * The metric and capital side of a turn, from the metrics before it, the
   * capital upkeep left and the upkeep survivors: the policies' effects, the
   * economy's income on the economy before the turn and the policies'
   * capital effects (the total floored at 0), then the event.
   */
  function TurnOutcome(metrics: Metrics, capital: real, survivors: seq<Policy>, event: Option<MiniEvent>): (r: (Metrics, real))
    requires "economy" in metrics
    ensures r.0.Keys == metrics.Keys
    ensures AllInRange(metrics) ==> AllInRange(r.0)
    ensures r.1 >= 0.0
  {
    var applied := ApplyPolicies(metrics, 0.0, survivors);
    var pc := Max(0.0, capital + EconomyGain(metrics) + applied.1);
    match event
    case Some(ev) => ApplyEvent(applied.0, pc, ev)
    case None => (applied.0, pc)
  }

  /**
   * Reference definition of one metric after a turn: its value before the
   * turn run through the survivors' effects in list order, each addition
   * clamped to 0..100, and then, when the event targets it, moved by the
   * event and clamped once more.
   */
  function MetricAfter(x: real, survivors: seq<Policy>, event: Option<MiniEvent>, k: string): real {
    var run := PoliciesClampedRun(x, survivors, k);
    if EventTargets(event, k) then Clamp(run + event.value.effect.value, 0.0, 100.0) else run
  }

  /**
   * Reference definition of the capital after a turn: what upkeep left, plus
   * the economy's income (1 plus one per full 50 points of economy before the
   * turn), plus the capital the policies' records carry, floored at 0; a
   * capital event then moves it and floors it again.
   */
  function CapitalAfter(metrics: Metrics, capital: real, survivors: seq<Policy>, event: Option<MiniEvent>): real
    requires "economy" in metrics
  {
    var earned := Max(0.0, capital + EconomyGain(metrics) + PoliciesCapital(survivors));
    if event.Some? && event.value.effect.kind == PcEvent then Max(0.0, earned + event.value.effect.value) else earned
  }

  /** The outcome's metrics agree with the per-metric reference definition. */
  lemma OutcomeMetric(metrics: Metrics, capital: real, survivors: seq<Policy>, event: Option<MiniEvent>, k: string)
    requires "economy" in metrics && k in metrics
    ensures TurnOutcome(metrics, capital, survivors, event).0[k] == MetricAfter(metrics[k], survivors, event, k)
  {
    var applied := ApplyPolicies(metrics, 0.0, survivors);
    assert applied.0[k] == PoliciesClampedRun(metrics[k], survivors, k);
  }

  /** The outcome's capital agrees with the reference definition when capital is not itself a metric. */
  lemma OutcomeCapital(metrics: Metrics, capital: real, survivors: seq<Policy>, event: Option<MiniEvent>)
    requires "economy" in metrics && Catalog.POLITICAL_CAPITAL_KEY !in metrics
    ensures TurnOutcome(metrics, capital, survivors, event).1 == CapitalAfter(metrics, capital, survivors, event)
  {
    PoliciesCapitalSum(metrics, 0.0, survivors);
  }

  /**
   * `calculateEndOfTurnSummary`, given the mini event the random draw
   * produced (None when no event fires): upkeep is settled first, then the
   * turn's outcome is computed on the survivors and approval recomputed.
   */
  function Summarize(s: GameState, event: Option<MiniEvent>): (t: TurnSummary)
    requires "economy" in s.metrics
    ensures t.turnIdentifierBefore == s.turnIdentifier && t.metricsBefore == s.metrics
    ensures t.pcBefore == s.politicalCapital && t.approvalBefore == s.overallApproval
    ensures t.metricsAfter.Keys == s.metrics.Keys
    ensures AllInRange(s.metrics) ==> AllInRange(t.metricsAfter)
    ensures t.pcAfter >= 0.0
    ensures t.approvalAfter == Approval.Recompute(t.metricsAfter, s.voterGroups).overall
    ensures InPercentRange(t.approvalAfter)
    ensures t.eventTriggered == event
    ensures t.policiesDeactivated == ResolveUpkeep(s.politicalCapital, s.activePolicies).deactivated
    ensures t.policiesExpired == Expired(ResolveUpkeep(s.politicalCapital, s.activePolicies).survivors)
    ensures var up := ResolveUpkeep(s.politicalCapital, s.activePolicies);
            t.metricsAfter == TurnOutcome(s.metrics, up.capital, up.survivors, event).0
            && t.pcAfter == TurnOutcome(s.metrics, up.capital, up.survivors, event).1
    ensures t.significantChanges == SignificantChanges(s.metrics, t.metricsAfter)
  {
    var up := ResolveUpkeep(s.politicalCapital, s.activePolicies);
    var after := TurnOutcome(s.metrics, up.capital, up.survivors, event);
    var approval := Approval.Recompute(after.0, s.voterGroups);
    TurnSummary(s.turnIdentifier, s.metrics, after.0, s.politicalCapital, after.1,
                s.overallApproval, approval.overall, up.deactivated, Expired(up.survivors),
                event, SignificantChanges(s.metrics, after.0))
  }

  /** Each metric of the summary agrees with the reference definition, on the upkeep survivors. */
  lemma SummaryMetric(s: GameState, event: Option<MiniEvent>, k: string)
    requires "economy" in s.metrics && k in s.metrics
    ensures Summarize(s, event).metricsAfter[k]
            == MetricAfter(s.metrics[k], ResolveUpkeep(s.politicalCapital, s.activePolicies).survivors, event, k)
  {
    var up := ResolveUpkeep(s.politicalCapital, s.activePolicies);
    OutcomeMetric(s.metrics, up.capital, up.survivors, event, k);
  }

  /** The summary's capital agrees with the reference definition, on what upkeep leaves. */
  lemma SummaryCapital(s: GameState, event: Option<MiniEvent>)
    requires "economy" in s.metrics && Catalog.POLITICAL_CAPITAL_KEY !in s.metrics
    ensures var up := ResolveUpkeep(s.politicalCapital, s.activePolicies);
            Summarize(s, event).pcAfter == CapitalAfter(s.metrics, up.capital, up.survivors, event)
  {
    var up := ResolveUpkeep(s.politicalCapital, s.activePolicies);
    OutcomeCapital(s.metrics, up.capital, up.survivors, event);
  }

  /** Ending a turn: store the summary, open its screen and show the recomputed group approvals. */
  function EndTurn(s: GameState, event: Option<MiniEvent>): (r: GameState)
    requires "economy" in s.metrics
    ensures EndTurnBlocked(s) ==> r == s
    ensures !EndTurnBlocked(s) ==>
              && r.summary == Some(Summarize(s, event))
              && r.showSummaryModal
              && r.voterGroups == Approval.Recompute(r.summary.value.metricsAfter, s.voterGroups).groups
              && r.(summary := s.summary, showSummaryModal := s.showSummaryModal, voterGroups := s.voterGroups) == s
  {
    if EndTurnBlocked(s) then s
    else
      var t := Summarize(s, event);
      s.(summary := Some(t), showSummaryModal := true,
         voterGroups := Approval.Recompute(t.metricsAfter, s.voterGroups).groups)
  }

  /** The committed metrics, capital and policies are untouched by ending a turn. */
  lemma EndTurnCommitsNothing(s: GameState, event: Option<MiniEvent>)
    requires "economy" in s.metrics
    ensures EndTurn(s, event).metrics == s.metrics
    ensures EndTurn(s, event).politicalCapital == s.politicalCapital
    ensures EndTurn(s, event).activePolicies == s.activePolicies
    ensures EndTurn(s, event).overallApproval == s.overallApproval
  {
    var r := EndTurn(s, event);
    if !EndTurnBlocked(s) {
      assert r.metrics == r.(summary := s.summary, showSummaryModal := s.showSummaryModal, voterGroups := s.voterGroups).metrics;
    }
  }

  // ---------------------------------------------------------------------
  // Rebuilding the active list on commit.
  // ---------------------------------------------------------------------

  /** Whether an instance has run out: a remaining duration of 0 or less. */
  predicate Finished(p: Policy) {
    p.currentDuration.Some? && p.currentDuration.value <= 0
  }

  /**
   * One entry of the rebuilt list, as the commit code is written: dropped if
   * switched off; otherwise the expired copy if there is one, else the first
   * active instance with that id (as it was before the turn), dropped if it
   * has run out.
   */
  function KeepAsWritten(p: Policy, all: seq<Policy>, deactivatedIds: seq<string>, expired: seq<Policy>): Option<Policy> {
    if p.id in deactivatedIds then None
    else
      var inst := match FindById(expired, p.id)
        case Some(e) => e
        case None => FindById(all, p.id).GetOr(p);
      if Finished(inst) then None else Some(inst)
  }

  function RebuildAsWritten(ps: seq<Policy>, all: seq<Policy>, deactivatedIds: seq<string>, expired: seq<Policy>): seq<Policy> {
    if |ps| == 0 then []
    else
      (match KeepAsWritten(ps[0], all, deactivatedIds, expired) case Some(q) => [q] case None => [])
      + RebuildAsWritten(ps[1..], all, deactivatedIds, expired)
  }

  /** The active list `proceedToNextMonth` builds, as written. */
  function CommitActiveAsWritten(active: seq<Policy>, deactivatedIds: seq<string>, expired: seq<Policy>): seq<Policy> {
    RebuildAsWritten(active, active, deactivatedIds, expired)
  }

  /** The corrected entry: a kept policy carries its decremented duration forward. */
  function Keep(p: Policy, deactivatedIds: seq<string>, expired: seq<Policy>): Option<Policy> {
    if p.id in deactivatedIds then None
    else
      var inst := FindById(expired, p.id).GetOr(Tick(p));
      if Finished(inst) then None else Some(inst)
  }

  /** The corrected rebuild of the active list on commit. */
  function CommitActive(active: seq<Policy>, deactivatedIds: seq<string>, expired: seq<Policy>): seq<Policy> {
    if |active| == 0 then []
    else
      (match Keep(active[0], deactivatedIds, expired) case Some(q) => [q] case None => [])
      + CommitActive(active[1..], deactivatedIds, expired)
  }

  /** Reference definition of the intended countdown: every policy ticks one month; those that run out leave. */
  function Countdown(ps: seq<Policy>): seq<Policy> {
    if |ps| == 0 then []
    else (if RunsOut(ps[0]) then [] else [Tick(ps[0])]) + Countdown(ps[1..])
  }

  /** The as-written rebuild: policies that do not run out are kept unchanged. */
  function KeepUnexpired(ps: seq<Policy>): seq<Policy> {
    if |ps| == 0 then []
    else (if RunsOut(ps[0]) then [] else [ps[0]]) + KeepUnexpired(ps[1..])
  }

  lemma FindFirst(x: Policy, rest: seq<Policy>, id: string)
    ensures FindById([x] + rest, id) == if x.id == id then Some(x) else FindById(rest, id)
  {
    assert ([x] + rest)[0] == x;
    assert ([x] + rest)[1..] == rest;
  }

  /** The tail of a list with unique ids has unique ids. */
  lemma TailUnique(w: seq<Policy>)
    requires |w| > 0 && NoDuplicateIds(w)
    ensures NoDuplicateIds(w[1..])
    ensures forall i :: 0 <= i < |w[1..]| ==> w[1..][i].id != w[0].id
  {
    forall a, b | 0 <= a < b < |w[1..]| ensures w[1..][a].id != w[1..][b].id {
      assert w[1..][a] == w[a + 1] && w[1..][b] == w[b + 1];
    }
    forall i | 0 <= i < |w[1..]| ensures w[1..][i].id != w[0].id {
      assert w[1..][i] == w[i + 1];
    }
  }

  /** An id no policy of `w` carries is not in the expired list either. */
  lemma ExpiredOmits(w: seq<Policy>, id: string)
    requires forall i :: 0 <= i < |w| ==> w[i].id != id
    ensures FindById(Expired(w), id) == None
  {
    forall q | q in Expired(w) ensures q.id != id {
      var i :| 0 <= i < |w| && RunsOut(w[i]) && q == Tick(w[i]);
    }
  }

  /** For a policy of a list with unique ids, the expired list holds its ticked copy exactly when it runs out. */
  lemma {:induction false} FindExpired(w: seq<Policy>, p: Policy)
    requires NoDuplicateIds(w)
    requires p in w
    ensures FindById(Expired(w), p.id) == if RunsOut(p) then Some(Tick(p)) else None
    decreases |w|
  {
    var head := if RunsOut(w[0]) then [Tick(w[0])] else [];
    assert Expired(w) == head + Expired(w[1..]);
    TailUnique(w);
    if p == w[0] {
      ExpiredOmits(w[1..], p.id);
      if RunsOut(w[0]) {
        FindFirst(Tick(w[0]), Expired(w[1..]), p.id);
      } else {
        assert Expired(w) == Expired(w[1..]);
      }
    } else {
      var k :| 0 <= k < |w| && w[k] == p;
      assert k > 0 && w[1..][k - 1] == p;
      FindExpired(w[1..], p);
      if RunsOut(w[0]) {
        FindFirst(Tick(w[0]), Expired(w[1..]), p.id);
      } else {
        assert Expired(w) == Expired(w[1..]);
      }
    }
  }

  /** What the expired list says about each policy that was not switched off. */
  ghost predicate ExpiredMatches(active: seq<Policy>, ids: seq<string>, expired: seq<Policy>) {
    forall p :: p in active && p.id !in ids ==>
      FindById(expired, p.id) == if RunsOut(p) then Some(Tick(p)) else None
  }

  lemma {:induction false} CommitActiveIsCountdown(active: seq<Policy>, ids: seq<string>, expired: seq<Policy>)
    requires ExpiredMatches(active, ids, expired)
    ensures CommitActive(active, ids, expired) == Countdown(WithoutIds(active, ids))
  {
    if |active| > 0 {
      var p := active[0];
      assert ExpiredMatches(active[1..], ids, expired) by {
        forall q | q in active[1..] && q.id !in ids
          ensures FindById(expired, q.id) == if RunsOut(q) then Some(Tick(q)) else None
        {
          assert q in active;
        }
      }
      CommitActiveIsCountdown(active[1..], ids, expired);
      var rest := CommitActive(active[1..], ids, expired);
      if p.id in ids {
        assert Keep(p, ids, expired) == None;
        assert CommitActive(active, ids, expired) == rest;
        assert WithoutIds(active, ids) == WithoutIds(active[1..], ids);
      } else {
        assert p in active;
        assert Keep(p, ids, expired) == if RunsOut(p) then None else Some(Tick(p));
        var w := [p] + WithoutIds(active[1..], ids);
        assert WithoutIds(active, ids) == w;
        assert w[0] == p && w[1..] == WithoutIds(active[1..], ids);
        assert Countdown(w) == (if RunsOut(p) then [] else [Tick(p)]) + Countdown(w[1..]);
      }
    }
  }

  lemma {:induction false} AsWrittenKeepsUnexpired(ps: seq<Policy>, all: seq<Policy>, ids: seq<string>, expired: seq<Policy>)
    requires NoDuplicateIds(all)
    requires forall i :: 0 <= i < |ps| ==> ps[i] in all
    requires ExpiredMatches(all, ids, expired)
    ensures RebuildAsWritten(ps, all, ids, expired) == KeepUnexpired(WithoutIds(ps, ids))
  {
    if |ps| > 0 {
      var p := ps[0];
      assert p in all;
      assert forall i :: 0 <= i < |ps[1..]| ==> ps[1..][i] in all by {
        forall i | 0 <= i < |ps[1..]| ensures ps[1..][i] in all {
          assert ps[1..][i] == ps[i + 1];
        }
      }
      AsWrittenKeepsUnexpired(ps[1..], all, ids, expired);
      if p.id in ids {
        assert KeepAsWritten(p, all, ids, expired) == None;
        assert WithoutIds(ps, ids) == WithoutIds(ps[1..], ids);
      } else {
        if RunsOut(p) {
          assert KeepAsWritten(p, all, ids, expired) == None;
        } else {
          FindUnique(all, p);
          assert KeepAsWritten(p, all, ids, expired) == Some(p);
        }
        var w := [p] + WithoutIds(ps[1..], ids);
        assert WithoutIds(ps, ids) == w;
        assert w[0] == p && w[1..] == WithoutIds(ps[1..], ids);
        assert KeepUnexpired(w) == (if RunsOut(p) then [] else [p]) + KeepUnexpired(w[1..]);
      }
    }
  }

  /** Dropping policies keeps ids unique. */
  lemma WithoutIdsKeepsUnique(ps: seq<Policy>, ids: seq<string>)
    requires NoDuplicateIds(ps)
    ensures NoDuplicateIds(WithoutIds(ps, ids))
  {
    var w := WithoutIds(ps, ids);
    UniqueIdsDistinct(ps);
    forall x: Policy, y: Policy | x in multiset(w) && y in multiset(w) && x.id == y.id ensures x == y && multiset(w)[x] == 1 {
      WithoutIdsCount(ps, ids, x);
      WithoutIdsCount(ps, ids, y);
    }
    DistinctIdsUnique(w);
  }

  /** A policy that survives upkeep is one of the active policies. */
  lemma SurvivorIsActive(ps: seq<Policy>, ids: seq<string>, p: Policy)
    requires p in WithoutIds(ps, ids)
    ensures p in ps && p.id !in ids
  {
    WithoutIdsCount(ps, ids, p);
  }

  /**
   * With unique ids and the expired list the summary computes, the corrected
   * commit keeps exactly the surviving policies that have not run out, each
   * one month further along.
   */
  lemma CommitCountsDown(active: seq<Policy>, ids: seq<string>)
    requires NoDuplicateIds(active)
    ensures var w := WithoutIds(active, ids);
            CommitActive(active, ids, Expired(w)) == Countdown(w)
  {
    var w := WithoutIds(active, ids);
    WithoutIdsKeepsUnique(active, ids);
    forall p | p in active && p.id !in ids
      ensures FindById(Expired(w), p.id) == if RunsOut(p) then Some(Tick(p)) else None
    {
      WithoutIdsCount(active, ids, p);
      assert p in multiset(w);
      FindExpired(w, p);
    }
    CommitActiveIsCountdown(active, ids, Expired(w));
  }

  /** As written, the commit keeps the surviving policies that have not run out with their durations unchanged. */
  lemma CommitAsWrittenFreezesDurations(active: seq<Policy>, ids: seq<string>)
    requires NoDuplicateIds(active)
    ensures var w := WithoutIds(active, ids);
            CommitActiveAsWritten(active, ids, Expired(w)) == KeepUnexpired(w)
  {
    var w := WithoutIds(active, ids);
    WithoutIdsKeepsUnique(active, ids);
    forall p | p in active && p.id !in ids
      ensures FindById(Expired(w), p.id) == if RunsOut(p) then Some(Tick(p)) else None
    {
      WithoutIdsCount(active, ids, p);
      assert p in multiset(w);
      FindExpired(w, p);
    }
    AsWrittenKeepsUnexpired(active, active, ids, Expired(w));
  }

  /** A two-month policy, as an example timed policy. */
  function TimedExample(): Policy {
    Policy("timedExample", 0.0, [], NoPrerequisites, Some(2), Some(2), None, 1,
           false, None, None, None, None)
  }

  /**
   * The as-written commit never lets a policy of duration 2 or more run out:
   * the example keeps its full duration turn after turn and never appears in
   * the expired list.
   */
  lemma TimedPolicyNeverExpiresAsWritten()
    ensures Expired([TimedExample()]) == []
    ensures CommitActiveAsWritten([TimedExample()], [], Expired([TimedExample()])) == [TimedExample()]
  {
    var p := TimedExample();
    WithoutNoIds([p]);
    CommitAsWrittenFreezesDurations([p], []);
  }

  /** `n` turns of the intended countdown. */
  function Turns(ps: seq<Policy>, n: nat): seq<Policy>
    decreases n
  {
    if n == 0 then ps else Turns(Countdown(ps), n - 1)
  }

  /** Intended: a policy with `d` months left is active for exactly `d` more turns. */
  lemma {:induction false} DurationLimitsLifetime(p: Policy, n: nat)
    requires p.currentDuration.Some? && p.currentDuration.value >= 1
    ensures Turns([p], n) == if n < p.currentDuration.value then [p.(currentDuration := Some(p.currentDuration.value - n))] else []
    decreases n
  {
    if n > 0 {
      var d := p.currentDuration.value;
      if d == 1 {
        assert Countdown([p]) == [];
        EmptyStaysEmpty(n - 1);
      } else {
        assert Countdown([p]) == [Tick(p)];
        DurationLimitsLifetime(Tick(p), n - 1);
      }
    }
  }

  lemma {:induction false} EmptyStaysEmpty(n: nat)
    ensures Turns([], n) == []
  {
    if n > 0 {
      EmptyStaysEmpty(n - 1);
    }
  }

  // ---------------------------------------------------------------------
  // Committing the summary.
  // ---------------------------------------------------------------------

  function NextCooldown(cooldown: int): int {
    if cooldown - 1 <= 0 then Catalog.ELECTION_INTERVAL_MONTHS else cooldown - 1
  }

  /**
   * `proceedToNextMonth`, as written: the active list is rebuilt from the
   * instances as they stood before the turn, so kept policies keep their
   * durations (see `CommitAsWrittenFreezesDurations`).
   */
  function Commit(s: GameState): (r: GameState)
    ensures s.summary.None? ==> r == s
    ensures s.summary.Some? ==>
              && (r.year, r.month) == Calendar.NextMonth(s.year, s.month)
              && r.turnIdentifier == Calendar.TurnIdentifier(r.year, r.month)
              && r.metrics == s.summary.value.metricsAfter
              && r.politicalCapital == s.summary.value.pcAfter
              && r.overallApproval == Approval.Recompute(s.summary.value.metricsAfter, s.voterGroups).overall
              && r.electionUpcoming == (s.electionCooldown <= 1)
              && r.currentEvent == s.summary.value.eventTriggered
              && r.showEventModal == s.summary.value.eventTriggered.Some?
              && r.summary.None? && !r.showSummaryModal
              && r.electionResult.None?
              && r.totalMonthsRuled == s.totalMonthsRuled + 1
              && r.activePolicies == CommitActiveAsWritten(s.activePolicies, Ids(s.summary.value.policiesDeactivated),
                                                           s.summary.value.policiesExpired)
              && r.voterGroups == Approval.Recompute(s.summary.value.metricsAfter, s.voterGroups).groups
              && r.electionCooldown == NextCooldown(s.electionCooldown)
              && r.gameOver == s.gameOver && r.achievements == s.achievements
              && r.delegationActive == s.delegationActive
              && r.(year := s.year, month := s.month, turnIdentifier := s.turnIdentifier,
                    politicalCapital := s.politicalCapital, metrics := s.metrics, activePolicies := s.activePolicies,
                    overallApproval := s.overallApproval, voterGroups := s.voterGroups,
                    electionUpcoming := s.electionUpcoming, electionCooldown := s.electionCooldown,
                    electionResult := s.electionResult, currentEvent := s.currentEvent,
                    showEventModal := s.showEventModal, showSummaryModal := s.showSummaryModal,
                    summary := s.summary, totalMonthsRuled := s.totalMonthsRuled) == s
  {
    match s.summary
    case None => s
    case Some(t) =>
      var next := Calendar.NextMonth(s.year, s.month);
      var approval := Approval.Recompute(t.metricsAfter, s.voterGroups);
      s.(year := next.0, month := next.1,
         turnIdentifier := Calendar.TurnIdentifier(next.0, next.1),
         politicalCapital := t.pcAfter,
         metrics := t.metricsAfter,
         activePolicies := CommitActiveAsWritten(s.activePolicies, Ids(t.policiesDeactivated), t.policiesExpired),
         overallApproval := approval.overall,
         voterGroups := approval.groups,
         electionUpcoming := s.electionCooldown - 1 <= 0,
         electionCooldown := NextCooldown(s.electionCooldown),
         electionResult := None,
         currentEvent := t.eventTriggered,
         showEventModal := t.eventTriggered.Some?,
         showSummaryModal := false,
         summary := None,
         totalMonthsRuled := s.totalMonthsRuled + 1)
  }

  /**
   * The commit as evidently intended: the same as `Commit` except that each
   * kept policy carries its decremented duration forward.
   */
  function CommitCorrected(s: GameState): (r: GameState)
    ensures s.summary.None? ==> r == s
    ensures s.summary.Some? ==>
              && r.activePolicies == CommitActive(s.activePolicies, Ids(s.summary.value.policiesDeactivated),
                                                  s.summary.value.policiesExpired)
              && r.(activePolicies := Commit(s).activePolicies) == Commit(s)
  {
    match s.summary
    case None => s
    case Some(t) => Commit(s).(activePolicies := CommitActive(s.activePolicies, Ids(t.policiesDeactivated), t.policiesExpired))
  }

  /** The election countdown stays within 1..48 and triggers exactly when it was at 1. */
  lemma CooldownBounded(c: int)
    requires 1 <= c <= Catalog.ELECTION_INTERVAL_MONTHS
    ensures 1 <= NextCooldown(c) <= Catalog.ELECTION_INTERVAL_MONTHS
    ensures NextCooldown(c) == Catalog.ELECTION_INTERVAL_MONTHS <==> c == 1
  {
  }

  /** `n` commits' worth of countdown. */
  function CooldownAfter(c: int, n: nat): int
    decreases n
  {
    if n == 0 then c else CooldownAfter(NextCooldown(c), n - 1)
  }

  /** From a fresh countdown, the first 47 commits stay clear of an election and the 48th triggers one. */
  lemma {:induction false} ElectionEveryInterval(n: nat)
    requires 1 <= n <= Catalog.ELECTION_INTERVAL_MONTHS
    ensures CooldownAfter(Catalog.ELECTION_INTERVAL_MONTHS, n - 1) == Catalog.ELECTION_INTERVAL_MONTHS - (n - 1)
    ensures CooldownAfter(Catalog.ELECTION_INTERVAL_MONTHS, n - 1) <= 1 <==> n == Catalog.ELECTION_INTERVAL_MONTHS
  {
    if n > 1 {
      ElectionEveryInterval(n - 1);
      CooldownStep(Catalog.ELECTION_INTERVAL_MONTHS, n - 2);
    }
  }

  lemma {:induction false} CooldownStep(c: int, n: nat)
    ensures CooldownAfter(c, n + 1) == NextCooldown(CooldownAfter(c, n))
    decreases n
  {
    if n > 0 {
      CooldownStep(NextCooldown(c), n - 1);
    }
  }

  /** Ending a turn leaves the policies alone and records the upkeep outcome for the commit. */
  lemma EndTurnRecordsUpkeep(s: GameState, event: Option<MiniEvent>)
    requires "economy" in s.metrics && !EndTurnBlocked(s)
    ensures var e := EndTurn(s, event);
            var up := ResolveUpkeep(s.politicalCapital, s.activePolicies);
            && e.summary.Some? && e.activePolicies == s.activePolicies
            && e.summary.value.policiesDeactivated == up.deactivated
            && e.summary.value.policiesExpired == Expired(WithoutIds(s.activePolicies, Ids(up.deactivated)))
            && up.survivors == WithoutIds(s.activePolicies, Ids(up.deactivated))
  {
  }

  /** The approval committed equals the approval the summary showed. */
  lemma CommitShowsSummaryApproval(s: GameState, event: Option<MiniEvent>)
    requires "economy" in s.metrics && !EndTurnBlocked(s)
    ensures EndTurn(s, event).summary.Some?
    ensures Commit(EndTurn(s, event)).overallApproval == EndTurn(s, event).summary.value.approvalAfter
  {
    var e := EndTurn(s, event);
    var t := e.summary.value;
    Approval.IgnoresPriorApprovals(t.metricsAfter, e.voterGroups, s.voterGroups) by {
      Approval.RecomputeIdempotent(t.metricsAfter, s.voterGroups);
    }
  }

  /**
   * A full turn as written: the approval committed equals the approval the
   * summary showed, and with unique ids the policies carried forward are the
   * upkeep survivors that do not run out, with their durations unchanged.
   */
  lemma EndThenCommit(s: GameState, event: Option<MiniEvent>)
    requires "economy" in s.metrics
    requires !EndTurnBlocked(s)
    requires NoDuplicateIds(s.activePolicies)
    ensures var e := EndTurn(s, event);
            var c := Commit(e);
            && c.overallApproval == e.summary.value.approvalAfter
            && c.activePolicies == KeepUnexpired(ResolveUpkeep(s.politicalCapital, s.activePolicies).survivors)
            && c.politicalCapital == e.summary.value.pcAfter >= 0.0
            && NoDuplicateIds(c.activePolicies)
  {
    var up := ResolveUpkeep(s.politicalCapital, s.activePolicies);
    CommitShowsSummaryApproval(s, event);
    EndTurnRecordsUpkeep(s, event);
    CommitAsWrittenFreezesDurations(s.activePolicies, Ids(up.deactivated));
    WithoutIdsKeepsUnique(s.activePolicies, Ids(up.deactivated));
    KeepUnexpiredKeepsUnique(up.survivors);
  }

  /**
   * A full turn as intended: the policies carried forward are the upkeep
   * survivors counted down one month, those that run out dropped.
   */
  lemma EndThenCommitCorrected(s: GameState, event: Option<MiniEvent>)
    requires "economy" in s.metrics
    requires !EndTurnBlocked(s)
    requires NoDuplicateIds(s.activePolicies)
    ensures var c := CommitCorrected(EndTurn(s, event));
            && c.activePolicies == Countdown(ResolveUpkeep(s.politicalCapital, s.activePolicies).survivors)
            && NoDuplicateIds(c.activePolicies)
  {
    var up := ResolveUpkeep(s.politicalCapital, s.activePolicies);
    EndTurnRecordsUpkeep(s, event);
    CommitCountsDown(s.activePolicies, Ids(up.deactivated));
    WithoutIdsKeepsUnique(s.activePolicies, Ids(up.deactivated));
    CountdownKeepsUnique(up.survivors);
  }

  /** Keeping the policies that do not run out keeps ids unique. */
  lemma {:induction false} KeepUnexpiredKeepsUnique(ps: seq<Policy>)
    requires NoDuplicateIds(ps)
    ensures NoDuplicateIds(KeepUnexpired(ps))
    ensures forall q :: q in KeepUnexpired(ps) ==> q in ps
  {
    if |ps| > 0 {
      TailUnique(ps);
      KeepUnexpiredKeepsUnique(ps[1..]);
      var rest := KeepUnexpired(ps[1..]);
      forall q | q in rest ensures q in ps && q.id != ps[0].id {
        var i :| 0 <= i < |ps[1..]| && ps[1..][i] == q;
        assert ps[i + 1] == q;
      }
      var head := if RunsOut(ps[0]) then [] else [ps[0]];
      assert KeepUnexpired(ps) == head + rest;
      ConsUnique(head, rest, ps[0].id);
    }
  }

  /** Counting down keeps ids unique and introduces no new id. */
  lemma {:induction false} CountdownKeepsUnique(ps: seq<Policy>)
    requires NoDuplicateIds(ps)
    ensures NoDuplicateIds(Countdown(ps))
    ensures forall q :: q in Countdown(ps) ==> exists i :: 0 <= i < |ps| && q.id == ps[i].id
  {
    if |ps| > 0 {
      TailUnique(ps);
      CountdownKeepsUnique(ps[1..]);
      var rest := Countdown(ps[1..]);
      forall q | q in rest ensures (exists i :: 0 <= i < |ps| && q.id == ps[i].id) && q.id != ps[0].id {
        var i :| 0 <= i < |ps[1..]| && q.id == ps[1..][i].id;
        assert ps[i + 1] == ps[1..][i];
      }
      var head := if RunsOut(ps[0]) then [] else [Tick(ps[0])];
      assert Countdown(ps) == head + rest;
      ConsUnique(head, rest, ps[0].id);
    }
  }

  /** Putting at most one policy with a fresh id before a list with unique ids keeps ids unique. */
  lemma ConsUnique(head: seq<Policy>, rest: seq<Policy>, id: string)
    requires |head| <= 1 && (|head| == 1 ==> head[0].id == id)
    requires NoDuplicateIds(rest)
    requires forall q :: q in rest ==> q.id != id
    ensures NoDuplicateIds(head + rest)
  {
    var w := head + rest;
    forall a, b | 0 <= a < b < |w| ensures w[a].id != w[b].id {
      assert w[b] == rest[b - |head|];
      if |head| == 1 && a == 0 {
        assert rest[b - 1] in rest;
      } else {
        assert w[a] == rest[a - |head|];
      }
    }
  }
}
