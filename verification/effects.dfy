/**
 * The metric side of a turn: policy effects added to the metrics (clamped to
 * 0..100) or, for the `politicalCapital` key, collected as a capital change;
 * duration countdown and expiry; the capital earned from the economy; the
 * optional mini event; and the list of significant metric changes.
 */
module Effects {
  import opened Types
  import Catalog

  /** The effects a policy applies: the upgraded ones at level 2 when declared, else the base ones. */
  function CurrentEffects(p: Policy): NumberRecord {
    if p.level == 2 && p.upgradedEffects.Some? then p.upgradedEffects.value else p.effects
  }

  predicate AllInRange(metrics: Metrics) {
    forall k :: k in metrics ==> InPercentRange(metrics[k])
  }

  /** One effect entry: an existing metric moves and is clamped; the capital key feeds the capital change; anything else is ignored. */
  function ApplyEntry(metrics: Metrics, delta: real, e: Entry): (r: (Metrics, real))
    ensures r.0.Keys == metrics.Keys
    ensures e.key in metrics ==> r.0[e.key] == Clamp(metrics[e.key] + e.amount, 0.0, 100.0) && r.1 == delta
    ensures forall k :: k in metrics && k != e.key ==> r.0[k] == metrics[k]
    ensures e.key !in metrics ==> r.0 == metrics
    ensures e.key !in metrics ==> r.1 == delta + (if e.key == Catalog.POLITICAL_CAPITAL_KEY then e.amount else 0.0)
  {
    if e.key in metrics then (metrics[e.key := Clamp(metrics[e.key] + e.amount, 0.0, 100.0)], delta)
    else if e.key == Catalog.POLITICAL_CAPITAL_KEY then (metrics, delta + e.amount)
    else (metrics, delta)
  }

  /** Reference definition: the capital change a record carries when capital is not itself a metric. */
  function CapitalAmount(effects: NumberRecord): real {
    if |effects| == 0 then 0.0
    else (if effects[0].key == Catalog.POLITICAL_CAPITAL_KEY then effects[0].amount else 0.0)
         + CapitalAmount(effects[1..])
  }

  /** Whether some entry of `effects` names `k`. */
  predicate Mentions(effects: NumberRecord, k: string) {
    exists i :: 0 <= i < |effects| && effects[i].key == k
  }

  /**
   * Reference definition of one metric under a record: starting from `x`,
   * every entry naming `k` adds its amount and clamps to 0..100 at once.
   */
  function ClampedRun(x: real, effects: NumberRecord, k: string): real
    decreases |effects|
  {
    if |effects| == 0 then x
    else ClampedRun(if effects[0].key == k then Clamp(x + effects[0].amount, 0.0, 100.0) else x, effects[1..], k)
  }

  /** `for (const metricId in effects)`, entry by entry. */
  function ApplyRecord(metrics: Metrics, delta: real, effects: NumberRecord): (r: (Metrics, real))
    ensures r.0.Keys == metrics.Keys
    ensures AllInRange(metrics) ==> AllInRange(r.0)
    ensures forall k :: k in metrics && !Mentions(effects, k) ==> r.0[k] == metrics[k]
    ensures forall k :: k in metrics ==> r.0[k] == ClampedRun(metrics[k], effects, k)
    decreases |effects|
  {
    if |effects| == 0 then (metrics, delta)
    else
      var step := ApplyEntry(metrics, delta, effects[0]);
      var r := ApplyRecord(step.0, step.1, effects[1..]);
      forall k | Mentions(effects[1..], k) ensures Mentions(effects, k) {
        var i :| 0 <= i < |effects[1..]| && effects[1..][i].key == k;
        assert effects[i + 1].key == k;
      }
      assert Mentions(effects, effects[0].key);
      forall k | k in metrics ensures r.0[k] == ClampedRun(metrics[k], effects, k) {
        var x := if effects[0].key == k then Clamp(metrics[k] + effects[0].amount, 0.0, 100.0) else metrics[k];
        assert step.0[k] == x;
        assert ClampedRun(metrics[k], effects, k) == ClampedRun(x, effects[1..], k);
      }
      r
  }

  /** The capital change of a record is the sum of its `politicalCapital` entries, provided capital is not a metric. */
  lemma {:induction false} RecordCapital(metrics: Metrics, delta: real, effects: NumberRecord)
    requires Catalog.POLITICAL_CAPITAL_KEY !in metrics
    ensures ApplyRecord(metrics, delta, effects).1 == delta + CapitalAmount(effects)
    decreases |effects|
  {
    if |effects| > 0 {
      var step := ApplyEntry(metrics, delta, effects[0]);
      RecordCapital(step.0, step.1, effects[1..]);
    }
  }

  /** A run over entries none of which names `k` leaves the value alone. */
  lemma {:induction false} ClampedRunUntouched(x: real, effects: NumberRecord, k: string)
    requires forall j :: 0 <= j < |effects| ==> effects[j].key != k
    ensures ClampedRun(x, effects, k) == x
    decreases |effects|
  {
    if |effects| > 0 {
      assert forall j :: 0 <= j < |effects[1..]| ==> effects[1..][j] == effects[j + 1];
      ClampedRunUntouched(x, effects[1..], k);
    }
  }

  /** A run over entries of which exactly the one at `i` names `k` adds that amount once and clamps. */
  lemma {:induction false} ClampedRunOnce(x: real, effects: NumberRecord, k: string, i: nat)
    requires i < |effects| && effects[i].key == k
    requires forall j :: 0 <= j < |effects| && j != i ==> effects[j].key != k
    ensures ClampedRun(x, effects, k) == Clamp(x + effects[i].amount, 0.0, 100.0)
    decreases |effects|
  {
    assert forall j :: 0 <= j < |effects[1..]| ==> effects[1..][j] == effects[j + 1];
    if i == 0 {
      ClampedRunUntouched(Clamp(x + effects[0].amount, 0.0, 100.0), effects[1..], k);
    } else {
      ClampedRunOnce(x, effects[1..], k, i - 1);
    }
  }

  /** A metric named by exactly one entry of a record ends at its value plus that amount, clamped to 0..100. */
  lemma RecordSingleEffect(metrics: Metrics, delta: real, effects: NumberRecord, k: string, i: nat)
    requires k in metrics
    requires i < |effects| && effects[i].key == k
    requires forall j :: 0 <= j < |effects| && j != i ==> effects[j].key != k
    ensures ApplyRecord(metrics, delta, effects).0[k] == Clamp(metrics[k] + effects[i].amount, 0.0, 100.0)
  {
    ClampedRunOnce(metrics[k], effects, k, i);
  }

  /** An effect that does not hit a bound moves its metric by exactly its amount. */
  lemma SingleEffectIsExact(metrics: Metrics, delta: real, k: string, amount: real)
    requires k in metrics && InPercentRange(metrics[k] + amount)
    ensures ApplyRecord(metrics, delta, [Entry(k, amount)]).0 == metrics[k := metrics[k] + amount]
  {
  }

  /** Every amount a record gives metric `k` is non-negative. */
  predicate Raises(effects: NumberRecord, k: string) {
    forall i :: 0 <= i < |effects| && effects[i].key == k ==> effects[i].amount >= 0.0
  }

  /** A record that only raises metric `k` never lowers it (from within range). */
  lemma {:induction false} RaisingRecordNeverLowers(metrics: Metrics, delta: real, effects: NumberRecord, k: string)
    requires k in metrics && metrics[k] <= 100.0
    requires Raises(effects, k)
    ensures ApplyRecord(metrics, delta, effects).0[k] >= metrics[k]
    decreases |effects|
  {
    if |effects| > 0 {
      var step := ApplyEntry(metrics, delta, effects[0]);
      assert step.0[k] >= metrics[k];
      assert Raises(effects[1..], k) by {
        forall i | 0 <= i < |effects[1..]| && effects[1..][i].key == k ensures effects[1..][i].amount >= 0.0 {
          assert effects[1..][i] == effects[i + 1];
        }
      }
      RaisingRecordNeverLowers(step.0, step.1, effects[1..], k);
    }
  }

  /** Reference definition of one metric under the policies' records, applied in list order. */
  function PoliciesClampedRun(x: real, ps: seq<Policy>, k: string): real
    decreases |ps|
  {
    if |ps| == 0 then x else PoliciesClampedRun(ClampedRun(x, CurrentEffects(ps[0]), k), ps[1..], k)
  }

  /** The effects of every surviving policy, in list order. */
  function ApplyPolicies(metrics: Metrics, delta: real, ps: seq<Policy>): (r: (Metrics, real))
    ensures r.0.Keys == metrics.Keys
    ensures AllInRange(metrics) ==> AllInRange(r.0)
    ensures forall k :: k in metrics ==> r.0[k] == PoliciesClampedRun(metrics[k], ps, k)
    decreases |ps|
  {
    if |ps| == 0 then (metrics, delta)
    else
      var step := ApplyRecord(metrics, delta, CurrentEffects(ps[0]));
      ApplyPolicies(step.0, step.1, ps[1..])
  }

  /** Reference definition: the total capital change the policies carry. */
  function PoliciesCapital(ps: seq<Policy>): real {
    if |ps| == 0 then 0.0 else CapitalAmount(CurrentEffects(ps[0])) + PoliciesCapital(ps[1..])
  }

  lemma {:induction false} PoliciesCapitalSum(metrics: Metrics, delta: real, ps: seq<Policy>)
    requires Catalog.POLITICAL_CAPITAL_KEY !in metrics
    ensures ApplyPolicies(metrics, delta, ps).1 == delta + PoliciesCapital(ps)
    decreases |ps|
  {
    if |ps| > 0 {
      var step := ApplyRecord(metrics, delta, CurrentEffects(ps[0]));
      RecordCapital(metrics, delta, CurrentEffects(ps[0]));
      PoliciesCapitalSum(step.0, step.1, ps[1..]);
    }
  }

  /** A policy whose remaining duration runs out this turn: it has one and one less is at most 0. */
  predicate RunsOut(p: Policy) {
    p.currentDuration.Some? && p.currentDuration.value - 1 <= 0
  }

  /** A policy with one month less to run. */
  function Tick(p: Policy): (q: Policy)
    ensures q.id == p.id
    ensures q.currentDuration.Some? <==> p.currentDuration.Some?
    ensures p.currentDuration.Some? ==> q.currentDuration.value == p.currentDuration.value - 1
    ensures q.(currentDuration := p.currentDuration) == p
  {
    if p.currentDuration.Some? then p.(currentDuration := Some(p.currentDuration.value - 1)) else p
  }

  /** The policies that expire this turn, each with its decremented duration. */
  function Expired(ps: seq<Policy>): (r: seq<Policy>)
    ensures forall i :: 0 <= i < |ps| && RunsOut(ps[i]) ==> Tick(ps[i]) in r
    ensures forall q :: q in r ==> exists i :: 0 <= i < |ps| && RunsOut(ps[i]) && q == Tick(ps[i])
    ensures |r| <= |ps|
  {
    if |ps| == 0 then []
    else
      var rest := Expired(ps[1..]);
      assert forall i :: 1 <= i < |ps| ==> ps[i] == ps[1..][i - 1];
      (if RunsOut(ps[0]) then [Tick(ps[0])] else []) + rest
  }

  /** Permanent policies never expire. */
  lemma PermanentNeverExpire(ps: seq<Policy>)
    requires forall i :: 0 <= i < |ps| ==> ps[i].currentDuration.None?
    ensures Expired(ps) == []
  {
    var r := Expired(ps);
    assert forall j :: 0 <= j < |r| ==> r[j] in r;
  }

  /** The capital the economy earns each turn: 1 plus one per full 50 economy points. */
  function EconomyGain(metrics: Metrics): (g: real)
    requires "economy" in metrics
    ensures g == g.Floor as real
    ensures 50.0 * (g - 1.0) <= metrics["economy"] < 50.0 * g
    ensures InPercentRange(metrics["economy"]) ==> 1.0 <= g <= 3.0
    ensures metrics["economy"] >= 0.0 ==> g >= 1.0
  {
    var q := metrics["economy"] / 50.0;
    FloorBounds(q);
    IntFloor(1 + q.Floor);
    assert 50.0 * q == metrics["economy"];
    (1 + q.Floor) as real
  }

  lemma IntFloor(n: int)
    ensures (n as real).Floor == n
  {
  }

  lemma FloorBounds(x: real)
    ensures x.Floor as real <= x < x.Floor as real + 1.0
  {
  }

  /** Whether the drawn event, if any, is a metric event aimed at `k`; an empty target id aims at nothing. */
  predicate EventTargets(event: Option<MiniEvent>, k: string) {
    event.Some? && event.value.effect.kind == MetricEvent && event.value.effect.targetId == Some(k) && k != ""
  }

  /**
   * A mini event: a capital event moves the capital (floored at 0), a metric
   * event moves its existing target (clamped). A missing or empty target id
   * is falsy and moves nothing.
   */
  function ApplyEvent(metrics: Metrics, capital: real, ev: MiniEvent): (r: (Metrics, real))
    ensures r.0.Keys == metrics.Keys
    ensures AllInRange(metrics) ==> AllInRange(r.0)
    ensures ev.effect.kind == PcEvent ==> r == (metrics, Max(0.0, capital + ev.effect.value))
    ensures ev.effect.kind == MetricEvent ==> r.1 == capital
    ensures forall k :: k in metrics && !EventTargets(Some(ev), k) ==> r.0[k] == metrics[k]
    ensures forall k :: k in metrics && EventTargets(Some(ev), k) ==> r.0[k] == Clamp(metrics[k] + ev.effect.value, 0.0, 100.0)
    ensures ev.effect.targetId == Some("") ==> r.0 == metrics
  {
    match ev.effect.kind
    case PcEvent => (metrics, Max(0.0, capital + ev.effect.value))
    case MetricEvent =>
      match ev.effect.targetId
      case Some(t) =>
        if t != "" && t in metrics then (metrics[t := Clamp(metrics[t] + ev.effect.value, 0.0, 100.0)], capital)
        else (metrics, capital)
      case None => (metrics, capital)
  }

  function Abs(x: real): real {
    if x < 0.0 then -x else x
  }

  /** The metrics that moved by at least the significance threshold, with their change. */
  function SignificantChanges(before: Metrics, after: Metrics): (r: map<string, real>)
    ensures forall k :: k in r ==> k in before && k in after && r[k] == after[k] - before[k]
    ensures forall k :: k in r ==> r[k] >= Catalog.SIGNIFICANT_METRIC_CHANGE_THRESHOLD || r[k] <= -Catalog.SIGNIFICANT_METRIC_CHANGE_THRESHOLD
  {
    map k | k in after && k in before && Abs(after[k] - before[k]) >= Catalog.SIGNIFICANT_METRIC_CHANGE_THRESHOLD
      :: after[k] - before[k]
  }

  /** A metric is listed exactly when it moved by 5 or more in either direction. */
  lemma SignificantExactly(before: Metrics, after: Metrics, k: string)
    requires k in before && k in after
    ensures k in SignificantChanges(before, after) <==>
              after[k] >= before[k] + 5.0 || after[k] <= before[k] - 5.0
  {
  }
}
