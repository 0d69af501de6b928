/**
 * Voter approval. Each group's approval is 50 plus the priority-weighted
 * deviation of the metrics from the neutral value 50, plus a fixed affinity
 * bonus for three named groups, clamped to 0..100. Overall approval is the
 * population-weighted mean of the group approvals (50 when the population
 * shares do not sum to a positive total), clamped again.
 */
module Approval {
  import opened Types
  import Catalog

  const NEUTRAL: real := 50.0

  /** `metrics[id]?.value ?? fallback` */
  function MetricOr(metrics: Metrics, id: string, fallback: real): real {
    if id in metrics then metrics[id] else fallback
  }

  /** One priority's contribution: the metric's distance from neutral times its weight. */
  function Deviation(metrics: Metrics, e: Entry): real {
    (MetricOr(metrics, e.key, NEUTRAL) - NEUTRAL) * e.amount
  }

  /** The sum over the group's priorities of `(metric - 50) * weight`; an unknown metric counts as neutral. */
  function WeightedDeviation(metrics: Metrics, priorities: NumberRecord): real {
    if |priorities| == 0 then 0.0
    else Deviation(metrics, priorities[0]) + WeightedDeviation(metrics, priorities[1..])
  }

  /** Whether `metrics` holds `id` strictly above `threshold`. */
  predicate Above(metrics: Metrics, id: string, threshold: real) {
    id in metrics && metrics[id] > threshold
  }

  /**
   * The affinity bonus: capitalists gain five times their economy weight when
   * the economy exceeds 80, environmentalists likewise for environment above
   * 70, socialists for happiness above 70.
   */
  function AffinityBonus(groupId: string, metrics: Metrics, priorities: NumberRecord): (b: real)
    ensures groupId !in {"capitalists", "environmentalists", "socialists"} ==> b == 0.0
  {
    if groupId == "capitalists" && Above(metrics, "economy", 80.0) then 5.0 * LookupOrZero(priorities, "economy")
    else if groupId == "environmentalists" && Above(metrics, "environment", 70.0) then 5.0 * LookupOrZero(priorities, "environment")
    else if groupId == "socialists" && Above(metrics, "happiness", 70.0) then 5.0 * LookupOrZero(priorities, "happiness")
    else 0.0
  }

  /** One group's approval under `metrics`. */
  function GroupApproval(metrics: Metrics, g: VoterGroup): (a: real)
    ensures InPercentRange(a)
    ensures InPercentRange(NEUTRAL + WeightedDeviation(metrics, g.metricPriorities) + AffinityBonus(g.id, metrics, g.metricPriorities))
            ==> a == NEUTRAL + WeightedDeviation(metrics, g.metricPriorities) + AffinityBonus(g.id, metrics, g.metricPriorities)
    ensures NEUTRAL + WeightedDeviation(metrics, g.metricPriorities) + AffinityBonus(g.id, metrics, g.metricPriorities) > 100.0
            ==> a == 100.0
    ensures NEUTRAL + WeightedDeviation(metrics, g.metricPriorities) + AffinityBonus(g.id, metrics, g.metricPriorities) < 0.0
            ==> a == 0.0
  {
    Clamp(NEUTRAL + WeightedDeviation(metrics, g.metricPriorities) + AffinityBonus(g.id, metrics, g.metricPriorities), 0.0, 100.0)
  }

  /** Groups equal in everything except their stored approval. */
  predicate SameGroupsUpToApproval(a: seq<VoterGroup>, b: seq<VoterGroup>) {
    |a| == |b| && forall i :: 0 <= i < |a| ==> a[i].(approval := 0.0) == b[i].(approval := 0.0)
  }

  /** The groups with their approval recomputed under `metrics`, everything else kept. */
  function Regroup(metrics: Metrics, groups: seq<VoterGroup>): (r: seq<VoterGroup>)
    ensures SameGroupsUpToApproval(groups, r)
    ensures forall i :: 0 <= i < |r| ==> InPercentRange(r[i].approval)
    ensures forall i :: 0 <= i < |r| ==> r[i].approval == GroupApproval(metrics, groups[i])
  {
    if |groups| == 0 then []
    else [groups[0].(approval := GroupApproval(metrics, groups[0]))] + Regroup(metrics, groups[1..])
  }

  /** Sum of population shares. */
  function Population(groups: seq<VoterGroup>): real {
    Catalog.TotalPopulationShare(groups)
  }

  /** Sum of `approval * populationPercentage`. */
  function WeightedApproval(groups: seq<VoterGroup>): real {
    if |groups| == 0 then 0.0
    else groups[0].approval * groups[0].populationPercentage + WeightedApproval(groups[1..])
  }

  predicate NonNegativeShares(groups: seq<VoterGroup>) {
    forall i :: 0 <= i < |groups| ==> groups[i].populationPercentage >= 0.0
  }

  datatype Outcome = Outcome(groups: seq<VoterGroup>, overall: real)

  /** `_calculateOverallApprovalLogic(metrics, groups)` */
  function Recompute(metrics: Metrics, groups: seq<VoterGroup>): (r: Outcome)
    ensures r.groups == Regroup(metrics, groups)
    ensures InPercentRange(r.overall)
    ensures Population(groups) <= 0.0 ==> r.overall == NEUTRAL
  {
    var gs := Regroup(metrics, groups);
    var total := Population(gs);
    var mean := if total > 0.0 then WeightedApproval(gs) / total else NEUTRAL;
    SharesKept(groups, gs);
    Outcome(gs, Clamp(mean, 0.0, 100.0))
  }

  /** Recomputing keeps each group's population share, so the total is unchanged. */
  lemma {:induction false} SharesKept(a: seq<VoterGroup>, b: seq<VoterGroup>)
    requires SameGroupsUpToApproval(a, b)
    ensures Population(a) == Population(b)
  {
    if |a| > 0 {
      assert a[0].populationPercentage == a[0].(approval := 0.0).populationPercentage;
      assert b[0].populationPercentage == b[0].(approval := 0.0).populationPercentage;
      SharesKept(a[1..], b[1..]);
    }
  }

  /** With non-negative shares and every approval in `lo..hi`, the weighted sum lies between `lo` and `hi` times the population. */
  lemma {:induction false} WeightedApprovalBounds(groups: seq<VoterGroup>, lo: real, hi: real)
    requires NonNegativeShares(groups)
    requires forall i :: 0 <= i < |groups| ==> lo <= groups[i].approval <= hi
    ensures lo * Population(groups) <= WeightedApproval(groups) <= hi * Population(groups)
  {
    if |groups| > 0 {
      var g := groups[0];
      WeightedApprovalBounds(groups[1..], lo, hi);
      assert lo * g.populationPercentage <= g.approval * g.populationPercentage by {
        assert (g.approval - lo) * g.populationPercentage >= 0.0;
      }
      assert g.approval * g.populationPercentage <= hi * g.populationPercentage by {
        assert (hi - g.approval) * g.populationPercentage >= 0.0;
      }
    }
  }

  /**
   * Overall approval is a true weighted mean: when the shares are
   * non-negative and sum to a positive total, it lies between the lowest and
   * the highest group approval, so the final clamp never changes it.
   */
  lemma OverallWithinGroupRange(metrics: Metrics, groups: seq<VoterGroup>, lo: real, hi: real)
    requires NonNegativeShares(groups) && Population(groups) > 0.0
    requires forall i :: 0 <= i < |groups| ==> lo <= GroupApproval(metrics, groups[i]) <= hi
    ensures lo <= Recompute(metrics, groups).overall <= hi
  {
    var gs := Regroup(metrics, groups);
    var lo' := if lo < 0.0 then 0.0 else lo;
    var hi' := if hi > 100.0 then 100.0 else hi;
    RegroupedWithin(metrics, groups, lo', hi');
    MeanWithin(gs, lo', hi');
    var mean := WeightedApproval(gs) / Population(gs);
    assert Recompute(metrics, groups).overall == Clamp(mean, 0.0, 100.0);
  }

  /** The recomputed groups keep their shares and carry approvals within any bounds the group approvals meet, narrowed to 0..100. */
  lemma RegroupedWithin(metrics: Metrics, groups: seq<VoterGroup>, lo: real, hi: real)
    requires NonNegativeShares(groups)
    requires forall i :: 0 <= i < |groups| ==> (lo <= 0.0 || lo <= GroupApproval(metrics, groups[i]))
    requires forall i :: 0 <= i < |groups| ==> (hi >= 100.0 || GroupApproval(metrics, groups[i]) <= hi)
    ensures var gs := Regroup(metrics, groups);
            && NonNegativeShares(gs) && Population(gs) == Population(groups)
            && forall i :: 0 <= i < |gs| ==> (if lo < 0.0 then 0.0 else lo) <= gs[i].approval <= (if hi > 100.0 then 100.0 else hi)
  {
    var gs := Regroup(metrics, groups);
    SharesKept(groups, gs);
    forall i | 0 <= i < |gs|
      ensures gs[i].populationPercentage >= 0.0
      ensures (if lo < 0.0 then 0.0 else lo) <= gs[i].approval <= (if hi > 100.0 then 100.0 else hi)
    {
      assert gs[i].populationPercentage == gs[i].(approval := 0.0).populationPercentage;
      assert groups[i].populationPercentage == groups[i].(approval := 0.0).populationPercentage;
      assert gs[i].approval == GroupApproval(metrics, groups[i]);
    }
  }

  /** A population-weighted mean lies between the lowest and highest approval. */
  lemma MeanWithin(gs: seq<VoterGroup>, lo: real, hi: real)
    requires NonNegativeShares(gs) && Population(gs) > 0.0
    requires forall i :: 0 <= i < |gs| ==> lo <= gs[i].approval <= hi
    ensures lo <= WeightedApproval(gs) / Population(gs) <= hi
  {
    var w, p := WeightedApproval(gs), Population(gs);
    WeightedApprovalBounds(gs, lo, hi);
    assert lo * p <= w <= hi * p;
    DivideBounds(w, p, lo, hi);
  }

  lemma DivideBounds(x: real, p: real, lo: real, hi: real)
    requires p > 0.0 && lo * p <= x <= hi * p
    ensures lo <= x / p <= hi
  {
    assert x / p * p == x;
  }

  /** When every group is at the same approval `a`, overall approval is `a`. */
  lemma UnanimousOverall(metrics: Metrics, groups: seq<VoterGroup>, a: real)
    requires NonNegativeShares(groups) && Population(groups) > 0.0
    requires forall i :: 0 <= i < |groups| ==> GroupApproval(metrics, groups[i]) == a
    ensures Recompute(metrics, groups).overall == a
  {
    OverallWithinGroupRange(metrics, groups, a, a);
  }

  /** The stored approvals are outputs only: two group lists that differ only there give the same result. */
  lemma {:induction false} IgnoresPriorApprovals(metrics: Metrics, a: seq<VoterGroup>, b: seq<VoterGroup>)
    requires SameGroupsUpToApproval(a, b)
    ensures Recompute(metrics, a) == Recompute(metrics, b)
  {
    var ra := Regroup(metrics, a);
    var rb := Regroup(metrics, b);
    forall i | 0 <= i < |ra| ensures ra[i] == rb[i] {
      var x := a[i].(approval := 0.0);
      assert x == b[i].(approval := 0.0);
      assert a[i].id == x.id && b[i].id == x.id;
      assert a[i].metricPriorities == x.metricPriorities && b[i].metricPriorities == x.metricPriorities;
      assert GroupApproval(metrics, a[i]) == GroupApproval(metrics, b[i]);
      assert ra[i] == a[i].(approval := GroupApproval(metrics, a[i])) by {
        assert ra[i].(approval := 0.0) == x;
      }
      assert rb[i] == b[i].(approval := GroupApproval(metrics, b[i])) by {
        assert rb[i].(approval := 0.0) == x;
      }
    }
  }

  /** Recomputing twice under the same metrics changes nothing further. */
  lemma RecomputeIdempotent(metrics: Metrics, groups: seq<VoterGroup>)
    ensures Recompute(metrics, Recompute(metrics, groups).groups) == Recompute(metrics, groups)
  {
    var gs := Recompute(metrics, groups).groups;
    IgnoresPriorApprovals(metrics, gs, groups);
  }

  /** Every weight the group attaches to metric `k` is non-negative. */
  predicate FavoursOrIgnores(priorities: NumberRecord, k: string) {
    forall i :: 0 <= i < |priorities| && priorities[i].key == k ==> priorities[i].amount >= 0.0
  }

  lemma {:induction false} DeviationMonotone(metrics: Metrics, k: string, v: real, priorities: NumberRecord)
    requires v >= MetricOr(metrics, k, NEUTRAL)
    requires FavoursOrIgnores(priorities, k)
    ensures WeightedDeviation(metrics[k := v], priorities) >= WeightedDeviation(metrics, priorities)
  {
    if |priorities| > 0 {
      EntryDeviationMonotone(metrics, k, v, priorities[0]);
      DeviationMonotone(metrics, k, v, priorities[1..]);
    }
  }

  /** Raising metric `k` never lowers one priority's contribution when its weight on `k` is non-negative. */
  lemma EntryDeviationMonotone(metrics: Metrics, k: string, v: real, e: Entry)
    requires v >= MetricOr(metrics, k, NEUTRAL)
    requires e.key == k ==> e.amount >= 0.0
    ensures Deviation(metrics[k := v], e) >= Deviation(metrics, e)
  {
    var before := MetricOr(metrics, e.key, NEUTRAL);
    var after := MetricOr(metrics[k := v], e.key, NEUTRAL);
    if e.key == k {
      assert (after - NEUTRAL) * e.amount - (before - NEUTRAL) * e.amount == (after - before) * e.amount;
    } else {
      assert after == before;
    }
  }

  lemma BonusMonotone(groupId: string, metrics: Metrics, k: string, v: real, priorities: NumberRecord)
    requires v >= MetricOr(metrics, k, NEUTRAL)
    requires FavoursOrIgnores(priorities, k)
    ensures AffinityBonus(groupId, metrics[k := v], priorities) >= AffinityBonus(groupId, metrics, priorities)
  {
    var m' := metrics[k := v];
    if Lookup(priorities, k).Some? {
      assert LookupOrZero(priorities, k) >= 0.0;
    }
    assert Above(metrics, "economy", 80.0) ==> Above(m', "economy", 80.0);
    assert Above(metrics, "environment", 70.0) ==> Above(m', "environment", 70.0);
    assert Above(metrics, "happiness", 70.0) ==> Above(m', "happiness", 70.0);
  }

  /**
   * Raising one metric never lowers the approval of a group that weights it
   * non-negatively: neither the weighted deviation nor the affinity bonus can
   * fall.
   */
  lemma GroupApprovalMonotone(metrics: Metrics, k: string, v: real, g: VoterGroup)
    requires v >= MetricOr(metrics, k, NEUTRAL)
    requires FavoursOrIgnores(g.metricPriorities, k)
    ensures GroupApproval(metrics[k := v], g) >= GroupApproval(metrics, g)
  {
    DeviationMonotone(metrics, k, v, g.metricPriorities);
    BonusMonotone(g.id, metrics, k, v, g.metricPriorities);
  }

  /** With every metric neutral, every group and the whole electorate stand at 50. */
  lemma NeutralMetricsGiveNeutralApproval(metrics: Metrics, groups: seq<VoterGroup>)
    requires forall id :: id in metrics ==> metrics[id] == NEUTRAL
    ensures forall i :: 0 <= i < |groups| ==> Recompute(metrics, groups).groups[i].approval == NEUTRAL
    ensures NonNegativeShares(groups) ==> Recompute(metrics, groups).overall == NEUTRAL
  {
    forall g: VoterGroup ensures GroupApproval(metrics, g) == NEUTRAL {
      NeutralDeviation(metrics, g.metricPriorities);
    }
    if NonNegativeShares(groups) && Population(groups) > 0.0 {
      UnanimousOverall(metrics, groups, NEUTRAL);
    }
  }

  lemma {:induction false} NeutralDeviation(metrics: Metrics, priorities: NumberRecord)
    requires forall id :: id in metrics ==> metrics[id] == NEUTRAL
    ensures WeightedDeviation(metrics, priorities) == 0.0
  {
    if |priorities| > 0 {
      NeutralDeviation(metrics, priorities[1..]);
    }
  }
}
