/**
 * Delegation mode's automated policy decision (`makeAutomatedPolicyDecisions`).
 * At most one action per call: the tracked metrics below 60 are worked
 * through worst first in three bands (under 30, under 45, under 60), trying
 * for each an upgrade and then an enactment that helps it; failing that, the
 * least harmful affordable upgrade, then the least harmful affordable
 * standard policy, then the cheapest available category.
 */
module Delegation {
  import opened Types
  import Catalog
  import opened Ordering
  import Ledger

  /** Below this much capital the automation does nothing. */
  const MIN_CAPITAL: real := 5.0
  const ULTRA_CRITICAL_MAX: real := 30.0
  const CRITICAL_MAX: real := 45.0
  const LOW_MAX: real := 60.0

  /** The one action a call takes, if any. */
  datatype Decision =
    | UpgradeOf(target: Policy)
    | EnactOf(policy: Policy)
    | NoDecision

  // ---------------------------------------------------------------------
  // Which metrics need help, worst first.
  // ---------------------------------------------------------------------

  datatype Reading = Reading(id: string, value: real)

  /** `metrics[id]?.value || 0`. */
  function Readings(metrics: Metrics, ids: seq<string>): (r: seq<Reading>)
    ensures |r| == |ids|
    ensures forall i :: 0 <= i < |ids| ==> r[i].id == ids[i]
    ensures forall i :: 0 <= i < |ids| ==> r[i].value == if ids[i] in metrics then metrics[ids[i]] else 0.0
  {
    if |ids| == 0 then []
    else [Reading(ids[0], if ids[0] in metrics then metrics[ids[0]] else 0.0)] + Readings(metrics, ids[1..])
  }

  function ValueOf(r: Reading): real {
    r.value
  }

  /** The tracked metrics in ascending order of value (equal values keep their list order). */
  function Worst(metrics: Metrics): (r: seq<Reading>)
    ensures multiset(r) == multiset(Readings(metrics, Catalog.TRACKED_METRIC_IDS))
    ensures SortedBy(r, ValueOf)
  {
    SortBy(Readings(metrics, Catalog.TRACKED_METRIC_IDS), ValueOf)
  }

  /** Ties keep their order: the tracked metrics with any one value appear in tracked-list order. */
  lemma WorstStable(metrics: Metrics, value: real)
    ensures WithKey(Worst(metrics), ValueOf, value) == WithKey(Readings(metrics, Catalog.TRACKED_METRIC_IDS), ValueOf, value)
  {
    SortStable(Readings(metrics, Catalog.TRACKED_METRIC_IDS), ValueOf, value);
  }

  /** The ids of the readings with `lo <= value < hi` (no lower bound when `lo` is None), in order. */
  function Band(rs: seq<Reading>, lo: Option<real>, hi: real): (r: seq<string>)
    ensures |r| <= |rs|
  {
    if |rs| == 0 then []
    else
      (if (lo.None? || lo.value <= rs[0].value) && rs[0].value < hi then [rs[0].id] else [])
      + Band(rs[1..], lo, hi)
  }

  // ---------------------------------------------------------------------
  // Step 1a: an upgrade that helps metric m.
  // ---------------------------------------------------------------------

  /** What an upgrade would give metric `m` (0 when the upgrade does not mention it). */
  function UpgradeGain(p: Policy, m: string): real {
    if p.upgradedEffects.Some? then LookupOrZero(p.upgradedEffects.value, m) else 0.0
  }

  /** An active instance that can be upgraded now. */
  predicate UpgradeAffordable(s: GameState, p: Policy) {
    Ledger.Upgradable(p) && s.politicalCapital >= p.upgradeCost.value
  }

  /** The active instances whose upgrade is affordable and helps `m`. */
  function UpgradeHelps(s: GameState, m: string): Policy -> bool {
    (p: Policy) => UpgradeAffordable(s, p) && UpgradeGain(p, m) > 0.0
  }

  /** Largest gain for `m` first. */
  function UpgradeGainKey(m: string): Policy -> Key {
    (p: Policy) => Key(-UpgradeGain(p, m), 0.0)
  }

  /** The active instance whose affordable upgrade helps `m` most; the first such in the active list on ties. */
  function BestUpgradeFor(s: GameState, m: string): (r: Option<Policy>)
    ensures r.Some? ==> r.value in s.activePolicies && UpgradeAffordable(s, r.value) && UpgradeGain(r.value, m) > 0.0
    ensures r.Some? ==> forall q :: q in s.activePolicies && UpgradeAffordable(s, q) && UpgradeGain(q, m) > 0.0
                           ==> UpgradeGain(q, m) <= UpgradeGain(r.value, m)
    ensures r.None? <==> forall q :: q in s.activePolicies ==> !(UpgradeAffordable(s, q) && UpgradeGain(q, m) > 0.0)
    ensures r.Some? ==> FirstInOrder(s.activePolicies, UpgradeHelps(s, m), UpgradeGainKey(m), r.value)
  {
    var cands := Filter(s.activePolicies, UpgradeHelps(s, m));
    if |cands| == 0 then None
    else
      var i := FirstMin(cands, UpgradeGainKey(m));
      FirstMinOfFilter(s.activePolicies, UpgradeHelps(s, m), UpgradeGainKey(m));
      Some(cands[i])
  }

  // ---------------------------------------------------------------------
  // Step 1b: an enactment that helps metric m.
  // ---------------------------------------------------------------------

  /** A standard policy worth enacting for `m`, directly or by first unlocking the category it needs. */
  datatype Candidate = Candidate(policy: Policy, unlock: Option<Policy>)

  /** What enacting `p` gives metric `m`. */
  function Gain(p: Policy, m: string): real {
    LookupOrZero(p.effects, m)
  }

  /** The first required policy that is not active. */
  function FirstMissing(required: seq<string>, active: seq<Policy>): (r: Option<string>)
    ensures r.Some? ==> r.value in required && !HasId(active, r.value)
    ensures r.None? <==> forall k :: 0 <= k < |required| ==> HasId(active, required[k])
  {
    if |required| == 0 then None
    else if !HasId(active, required[0]) then Some(required[0])
    else
      var rest := FirstMissing(required[1..], active);
      assert forall k :: 1 <= k < |required| ==> required[k] == required[1..][k - 1];
      rest
  }

  /** The first catalog entry with that id that is an inactive category. */
  function FindCategory(catalog: seq<Policy>, id: string, active: seq<Policy>): (r: Option<Policy>)
    ensures r.Some? ==> r.value in catalog && r.value.id == id && |r.value.effects| == 0 && !HasId(active, id)
    ensures r.None? <==> forall i :: 0 <= i < |catalog| ==> !(catalog[i].id == id && |catalog[i].effects| == 0 && !HasId(active, id))
  {
    if |catalog| == 0 then None
    else if catalog[0].id == id && |catalog[0].effects| == 0 && !HasId(active, id) then Some(catalog[0])
    else
      var rest := FindCategory(catalog[1..], id, active);
      assert forall i :: 1 <= i < |catalog| ==> catalog[i] == catalog[1..][i - 1];
      rest
  }

  /** A catalog entry the player could enact right now. */
  predicate Enactable(s: GameState, p: Policy) {
    && !HasId(s.activePolicies, p.id)
    && s.politicalCapital >= p.cost
    && Ledger.CheckPrerequisites(p, s.metrics, s.activePolicies).met
  }

  /** The inactive category in the catalog under the id of `p`'s first required policy that is not active; an empty id is falsy and names none. */
  function CategoryToUnlock(s: GameState, catalog: seq<Policy>, p: Policy): Option<Policy> {
    match FirstMissing(p.prerequisites.policies, s.activePolicies)
    case None => None
    case Some(rid) => if rid == "" then None else FindCategory(catalog, rid, s.activePolicies)
  }

  /** The one unmet prerequisite of `p` is a category that can be enacted now. */
  predicate UnlockableThrough(s: GameState, catalog: seq<Policy>, p: Policy) {
    var check := Ledger.CheckPrerequisites(p, s.metrics, s.activePolicies);
    && !check.met && |check.reasons| == 1
    && CategoryToUnlock(s, catalog, p).Some?
    && Enactable(s, CategoryToUnlock(s, catalog, p).value)
  }

  /**
   * Whether `p` qualifies for `m`: directly when its prerequisites are met
   * and it is affordable; otherwise, when the only unmet prerequisite is an
   * inactive category that is itself affordable and available, by unlocking
   * that category.
   */
  function CandidateOf(s: GameState, catalog: seq<Policy>, p: Policy): (r: Option<Candidate>)
    requires !HasId(s.activePolicies, p.id)
    ensures r.Some? ==> r.value.policy == p
    ensures r.Some? && r.value.unlock.None? ==> Enactable(s, p)
    ensures r.Some? && r.value.unlock.Some? ==>
              && r.value.unlock.value in catalog && |r.value.unlock.value.effects| == 0
              && Enactable(s, r.value.unlock.value)
              && r.value.unlock.value.id in p.prerequisites.policies
              && |Ledger.CheckPrerequisites(p, s.metrics, s.activePolicies).reasons| == 1
              && r.value.unlock.value.id != ""
              && r.value.unlock == CategoryToUnlock(s, catalog, p)
    ensures Enactable(s, p) ==> r == Some(Candidate(p, None))
    ensures UnlockableThrough(s, catalog, p) ==> r == Some(Candidate(p, CategoryToUnlock(s, catalog, p)))
    ensures r.None? <==> !Enactable(s, p) && !UnlockableThrough(s, catalog, p)
  {
    var check := Ledger.CheckPrerequisites(p, s.metrics, s.activePolicies);
    if check.met && s.politicalCapital >= p.cost then Some(Candidate(p, None))
    else if !check.met && |check.reasons| == 1 then
      match FirstMissing(p.prerequisites.policies, s.activePolicies)
      case None => None
      case Some(rid) =>
        if rid == "" then None
        else match FindCategory(catalog, rid, s.activePolicies)
        case None => None
        case Some(cat) =>
          if s.politicalCapital >= cat.cost && Ledger.CheckPrerequisites(cat, s.metrics, s.activePolicies).met
          then Some(Candidate(p, Some(cat)))
          else None
    else None
  }

  /** Inactive standard catalog policies that raise `m`. */
  predicate Helps(s: GameState, p: Policy, m: string) {
    !HasId(s.activePolicies, p.id) && |p.effects| > 0 && Gain(p, m) > 0.0
  }

  /** The candidate `p` makes for `m`, if it is one of the policies that raise `m`. */
  function CandidateFor(s: GameState, catalog: seq<Policy>, m: string, p: Policy): Option<Candidate> {
    if Helps(s, p, m) then CandidateOf(s, catalog, p) else None
  }

  /** Direct candidates first, then by gain for `m`, largest first. */
  function CandidateKey(m: string): Candidate -> Key {
    (c: Candidate) => Key(if c.unlock.Some? then 1.0 else 0.0, -Gain(c.policy, m))
  }

  /** The catalog entries that make a candidate for `m`. */
  function HasCandidate(s: GameState, catalog: seq<Policy>, m: string): Policy -> bool {
    (p: Policy) => CandidateFor(s, catalog, m, p).Some?
  }

  /** A catalog entry ranked by the candidate it makes. */
  function CandidateRank(s: GameState, catalog: seq<Policy>, m: string): Policy -> Key {
    (p: Policy) => match CandidateFor(s, catalog, m, p)
                   case Some(c) => CandidateKey(m)(c)
                   case None => Key(0.0, 0.0)
  }

  /**
   * The candidate the sort puts first. The candidates are listed in catalog
   * order and sorted stably, so on equal keys the earliest catalog entry wins.
   */
  function BestEnactFor(s: GameState, catalog: seq<Policy>, m: string): (r: Option<Candidate>)
    ensures r.Some? ==> r.value.policy in catalog && CandidateFor(s, catalog, m, r.value.policy) == Some(r.value)
    ensures r.None? <==> forall p :: p in catalog ==> CandidateFor(s, catalog, m, p).None?
    ensures r.Some? ==> forall p :: p in catalog && CandidateFor(s, catalog, m, p).Some? ==>
              !KeyLess(CandidateKey(m)(CandidateFor(s, catalog, m, p).value), CandidateKey(m)(r.value))
    ensures r.Some? ==> FirstInOrder(catalog, HasCandidate(s, catalog, m), CandidateRank(s, catalog, m), r.value.policy)
  {
    var ps := Filter(catalog, HasCandidate(s, catalog, m));
    if |ps| == 0 then None
    else
      var i := FirstMin(ps, CandidateRank(s, catalog, m));
      FirstMinOfFilter(catalog, HasCandidate(s, catalog, m), CandidateRank(s, catalog, m));
      assert ps[i] in ps;
      Some(CandidateFor(s, catalog, m, ps[i]).value)
  }

  /** A direct enactment always wins over a category unlock. */
  lemma DirectBeforeUnlock(s: GameState, catalog: seq<Policy>, m: string, p: Policy)
    requires p in catalog && Helps(s, p, m) && Enactable(s, p)
    ensures BestEnactFor(s, catalog, m).Some?
    ensures BestEnactFor(s, catalog, m).value.unlock.None?
    ensures Gain(p, m) <= Gain(BestEnactFor(s, catalog, m).value.policy, m)
  {
    assert CandidateFor(s, catalog, m, p) == Some(Candidate(p, None));
    var best := BestEnactFor(s, catalog, m).value;
    assert !KeyLess(CandidateKey(m)(Candidate(p, None)), CandidateKey(m)(best));
  }

  /** The decision is an affordable upgrade of an active instance or an enactable catalog policy. */
  predicate Sound(s: GameState, catalog: seq<Policy>, d: Decision) {
    && (d.UpgradeOf? ==> d.target in s.activePolicies && UpgradeAffordable(s, d.target))
    && (d.EnactOf? ==> d.policy in catalog && Enactable(s, d.policy))
  }

  /**
   * One metric: an upgrade if one helps, else the best candidate's
   * enactment, which is the category it needs when it has to be unlocked.
   */
  function DecideFor(s: GameState, catalog: seq<Policy>, m: string): (d: Decision)
    ensures BestUpgradeFor(s, m).Some? ==> d == UpgradeOf(BestUpgradeFor(s, m).value)
    ensures BestUpgradeFor(s, m).None? ==> !d.UpgradeOf?
    ensures d.EnactOf? ==> BestEnactFor(s, catalog, m).Some?
    ensures BestUpgradeFor(s, m).None? && BestEnactFor(s, catalog, m).Some? ==>
              d == EnactOf(BestEnactFor(s, catalog, m).value.unlock.GetOr(BestEnactFor(s, catalog, m).value.policy))
    ensures BestUpgradeFor(s, m).None? && BestEnactFor(s, catalog, m).None? ==> d == NoDecision
    ensures Sound(s, catalog, d)
  {
    match BestUpgradeFor(s, m)
    case Some(q) => UpgradeOf(q)
    case None =>
      match BestEnactFor(s, catalog, m)
      case None => NoDecision
      case Some(best) =>
        assert Helps(s, best.policy, m);
        assert CandidateOf(s, catalog, best.policy) == Some(best);
        var target := best.unlock.GetOr(best.policy);
        if s.politicalCapital >= target.cost then EnactOf(target) else NoDecision
  }

  /** `tryFixSpecificMetrics`: the first metric, in order, for which there is an action. */
  function DecideAmong(s: GameState, catalog: seq<Policy>, ms: seq<string>): (d: Decision)
    ensures d.NoDecision? <==> forall i :: 0 <= i < |ms| ==> DecideFor(s, catalog, ms[i]).NoDecision?
    ensures !d.NoDecision? ==> exists i :: 0 <= i < |ms| && d == DecideFor(s, catalog, ms[i])
                                          && forall j :: 0 <= j < i ==> DecideFor(s, catalog, ms[j]).NoDecision?
    ensures Sound(s, catalog, d)
  {
    if |ms| == 0 then NoDecision
    else
      var rest := DecideAmong(s, catalog, ms[1..]);
      var d := DecideFor(s, catalog, ms[0]);
      UndecidedCons(s, catalog, ms);
      if d.NoDecision? && !rest.NoDecision? then
        FirstDecisionShifts((m: string) => DecideFor(s, catalog, m), ms, rest);
        rest
      else if d.NoDecision? then rest
      else d
  }

  /** A first deciding metric of the tail is the first of the whole list when the head decides nothing. */
  lemma FirstDecisionShifts(f: string -> Decision, ms: seq<string>, d: Decision)
    requires |ms| > 0 && f(ms[0]).NoDecision?
    requires exists i :: 0 <= i < |ms[1..]| && d == f(ms[1..][i]) && forall j :: 0 <= j < i ==> f(ms[1..][j]).NoDecision?
    ensures exists i :: 0 <= i < |ms| && d == f(ms[i]) && forall j :: 0 <= j < i ==> f(ms[j]).NoDecision?
  {
    var i :| 0 <= i < |ms[1..]| && d == f(ms[1..][i]) && forall j :: 0 <= j < i ==> f(ms[1..][j]).NoDecision?;
    assert ms[i + 1] == ms[1..][i];
    forall j | 0 <= j < i + 1 ensures f(ms[j]).NoDecision? {
      if j > 0 {
        assert ms[j] == ms[1..][j - 1];
      }
    }
  }

  /** No metric of a non-empty list has an action exactly when its head has none and its tail has none. */
  lemma UndecidedCons(s: GameState, catalog: seq<Policy>, ms: seq<string>)
    requires |ms| > 0
    ensures (forall i :: 0 <= i < |ms| ==> DecideFor(s, catalog, ms[i]).NoDecision?)
            <==> DecideFor(s, catalog, ms[0]).NoDecision?
                 && (forall i :: 0 <= i < |ms[1..]| ==> DecideFor(s, catalog, ms[1..][i]).NoDecision?)
  {
    if forall i :: 0 <= i < |ms| ==> DecideFor(s, catalog, ms[i]).NoDecision? {
      assert DecideFor(s, catalog, ms[0]).NoDecision?;
      forall i | 0 <= i < |ms[1..]| ensures DecideFor(s, catalog, ms[1..][i]).NoDecision? {
        assert ms[1..][i] == ms[i + 1];
      }
    }
    if DecideFor(s, catalog, ms[0]).NoDecision?
       && forall i :: 0 <= i < |ms[1..]| ==> DecideFor(s, catalog, ms[1..][i]).NoDecision? {
      forall i | 0 <= i < |ms| ensures DecideFor(s, catalog, ms[i]).NoDecision? {
        if i > 0 {
          assert ms[i] == ms[1..][i - 1];
        }
      }
    }
  }

  function OrElse(a: Decision, b: Decision): Decision {
    if a.NoDecision? then b else a
  }

  // ---------------------------------------------------------------------
  // Fallbacks.
  // ---------------------------------------------------------------------

  /** `metrics[id]?.value || 50`: a missing metric, and one exactly at 0, read as 50. */
  function MetricOrFifty(metrics: Metrics, id: string): real {
    if id in metrics && metrics[id] != 0.0 then metrics[id] else 50.0
  }

  /** How much `effects` lowers tracked metrics that are already under 45. */
  function Harm(metrics: Metrics, effects: NumberRecord, ids: seq<string>): (h: real)
    ensures h >= 0.0
  {
    if |ids| == 0 then 0.0
    else
      var e := LookupOrZero(effects, ids[0]);
      (if MetricOrFifty(metrics, ids[0]) < CRITICAL_MAX && e < 0.0 then -e else 0.0)
      + Harm(metrics, effects, ids[1..])
  }

  /** Harm is zero exactly when no listed metric under 45 would be lowered. */
  lemma {:induction false} NoHarmExactly(metrics: Metrics, effects: NumberRecord, ids: seq<string>)
    ensures Harm(metrics, effects, ids) == 0.0 <==>
              forall i :: 0 <= i < |ids| ==> !(MetricOrFifty(metrics, ids[i]) < CRITICAL_MAX && LookupOrZero(effects, ids[i]) < 0.0)
  {
    if |ids| > 0 {
      NoHarmExactly(metrics, effects, ids[1..]);
      assert forall i :: 1 <= i < |ids| ==> ids[i] == ids[1..][i - 1];
    }
  }

  function UpgradeHarm(metrics: Metrics, p: Policy): real {
    if p.upgradedEffects.Some? then Harm(metrics, p.upgradedEffects.value, Catalog.TRACKED_METRIC_IDS) else 0.0
  }

  /** The active instances whose upgrade is affordable. */
  function UpgradeAffordableIn(s: GameState): Policy -> bool {
    (p: Policy) => UpgradeAffordable(s, p)
  }

  /** Least harm first, then the cheaper upgrade. */
  function UpgradeHarmKey(s: GameState): Policy -> Key {
    (p: Policy) => Key(UpgradeHarm(s.metrics, p), p.upgradeCost.GetOr(0.0))
  }

  /** Fallback 1: the affordable upgrade that harms least, the cheapest on ties, the first on full ties. */
  function GeneralUpgrade(s: GameState): (r: Option<Policy>)
    ensures r.Some? ==> r.value in s.activePolicies && UpgradeAffordable(s, r.value)
    ensures r.None? <==> forall q :: q in s.activePolicies ==> !UpgradeAffordable(s, q)
    ensures r.Some? ==> forall q :: q in s.activePolicies && UpgradeAffordable(s, q) ==>
              UpgradeHarm(s.metrics, r.value) <= UpgradeHarm(s.metrics, q)
    ensures r.Some? ==> FirstInOrder(s.activePolicies, UpgradeAffordableIn(s), UpgradeHarmKey(s), r.value)
  {
    var cands := Filter(s.activePolicies, UpgradeAffordableIn(s));
    if |cands| == 0 then None
    else
      var i := FirstMin(cands, UpgradeHarmKey(s));
      FirstMinOfFilter(s.activePolicies, UpgradeAffordableIn(s), UpgradeHarmKey(s));
      Some(cands[i])
  }

  /** The standard catalog policies that can be enacted now. */
  function StandardEnactable(s: GameState): Policy -> bool {
    (p: Policy) => |p.effects| > 0 && Enactable(s, p)
  }

  /** Least harm first, then the cheaper policy. */
  function EnactHarmKey(s: GameState): Policy -> Key {
    (p: Policy) => Key(Harm(s.metrics, p.effects, Catalog.TRACKED_METRIC_IDS), p.cost)
  }

  /** Fallback 2: the enactable standard policy that harms least, the cheapest on ties, the first on full ties. */
  function GeneralEnact(s: GameState, catalog: seq<Policy>): (r: Option<Policy>)
    ensures r.Some? ==> r.value in catalog && |r.value.effects| > 0 && Enactable(s, r.value)
    ensures r.None? <==> forall p :: p in catalog ==> !(|p.effects| > 0 && Enactable(s, p))
    ensures r.Some? ==> forall p :: p in catalog && |p.effects| > 0 && Enactable(s, p) ==>
              Harm(s.metrics, r.value.effects, Catalog.TRACKED_METRIC_IDS) <= Harm(s.metrics, p.effects, Catalog.TRACKED_METRIC_IDS)
    ensures r.Some? ==> FirstInOrder(catalog, StandardEnactable(s), EnactHarmKey(s), r.value)
  {
    var cands := Filter(catalog, StandardEnactable(s));
    if |cands| == 0 then None
    else
      var i := FirstMin(cands, EnactHarmKey(s));
      FirstMinOfFilter(catalog, StandardEnactable(s), EnactHarmKey(s));
      Some(cands[i])
  }

  /** The categories that can be enacted now. */
  function CategoryEnactable(s: GameState): Policy -> bool {
    (p: Policy) => |p.effects| == 0 && Enactable(s, p)
  }

  /** Cheapest first. */
  function CostKey(): Policy -> Key {
    (p: Policy) => Key(p.cost, 0.0)
  }

  /** Fallback 3: the cheapest enactable category, the first in catalog order on ties. */
  function CheapestCategory(s: GameState, catalog: seq<Policy>): (r: Option<Policy>)
    ensures r.Some? ==> r.value in catalog && |r.value.effects| == 0 && Enactable(s, r.value)
    ensures r.None? <==> forall p :: p in catalog ==> !(|p.effects| == 0 && Enactable(s, p))
    ensures r.Some? ==> forall p :: p in catalog && |p.effects| == 0 && Enactable(s, p) ==> r.value.cost <= p.cost
    ensures r.Some? ==> FirstInOrder(catalog, CategoryEnactable(s), CostKey(), r.value)
  {
    var cands := Filter(catalog, CategoryEnactable(s));
    if |cands| == 0 then None
    else
      var i := FirstMin(cands, CostKey());
      FirstMinOfFilter(catalog, CategoryEnactable(s), CostKey());
      Some(cands[i])
  }

  /** Among equally priced enactable categories, fallback 3 takes the first in catalog order. */
  lemma EqualCostsFirstCategory(s: GameState, catalog: seq<Policy>, i: nat)
    requires i < |catalog| && CategoryEnactable(s)(catalog[i])
    requires forall j :: 0 <= j < i ==> !CategoryEnactable(s)(catalog[j])
    requires forall j :: 0 <= j < |catalog| && CategoryEnactable(s)(catalog[j]) ==> catalog[j].cost == catalog[i].cost
    ensures CheapestCategory(s, catalog) == Some(catalog[i])
  {
    var r := CheapestCategory(s, catalog).value;
    var k :| 0 <= k < |catalog| && catalog[k] == r
             && forall j :: 0 <= j < k && CategoryEnactable(s)(catalog[j]) ==> KeyLess(CostKey()(r), CostKey()(catalog[j]));
  }

  /**
   * Every shipped category costs 0, so the catalog-order tie-break alone
   * decides fallback 3: with nothing active, the first category is unlocked.
   */
  lemma FirstCategoryUnlockedFirst(s: GameState)
    requires |s.activePolicies| == 0 && s.politicalCapital >= 0.0
    ensures CheapestCategory(s, Catalog.ALL_POLICIES) == Some(Catalog.ALL_POLICIES[0])
  {
    var ps := Catalog.ALL_POLICIES;
    Catalog.CategoryShape();
    Ledger.NoPrerequisitesAlwaysMet(ps[0], s.metrics, s.activePolicies);
    EqualCostsFirstCategory(s, ps, 0);
  }

  function Lift(o: Option<Policy>, upgrade: bool): Decision {
    match o
    case None => NoDecision
    case Some(p) => if upgrade then UpgradeOf(p) else EnactOf(p)
  }

  /** Whether the automation acts at all. */
  predicate Idle(s: GameState) {
    s.politicalCapital < MIN_CAPITAL || s.gameOver
  }

  /** The three bands in turn: under 30, then 30 up to 45, then 45 up to 60. */
  function Banded(s: GameState, catalog: seq<Policy>): (d: Decision)
    ensures Sound(s, catalog, d)
  {
    var worst := Worst(s.metrics);
    OrElse(DecideAmong(s, catalog, Band(worst, None, ULTRA_CRITICAL_MAX)),
    OrElse(DecideAmong(s, catalog, Band(worst, Some(ULTRA_CRITICAL_MAX), CRITICAL_MAX)),
           DecideAmong(s, catalog, Band(worst, Some(CRITICAL_MAX), LOW_MAX))))
  }

  /** The three fallbacks in turn: a general upgrade, else a general enactment, else a category. */
  function Fallback(s: GameState, catalog: seq<Policy>): (d: Decision)
    ensures Sound(s, catalog, d)
    ensures GeneralUpgrade(s).Some? ==> d == UpgradeOf(GeneralUpgrade(s).value)
    ensures GeneralUpgrade(s).None? && GeneralEnact(s, catalog).Some? ==> d == EnactOf(GeneralEnact(s, catalog).value)
    ensures GeneralUpgrade(s).None? && GeneralEnact(s, catalog).None? && CheapestCategory(s, catalog).Some? ==>
              d == EnactOf(CheapestCategory(s, catalog).value)
    ensures d.NoDecision? <==>
              && (forall q :: q in s.activePolicies ==> !UpgradeAffordable(s, q))
              && (forall p :: p in catalog ==> !Enactable(s, p))
  {
    OrElse(Lift(GeneralUpgrade(s), true),
    OrElse(Lift(GeneralEnact(s, catalog), false),
           Lift(CheapestCategory(s, catalog), false)))
  }

  /** The decision: the three bands, then the fallbacks. */
  function Decide(s: GameState, catalog: seq<Policy>): (d: Decision)
    ensures Idle(s) ==> d.NoDecision?
    ensures Sound(s, catalog, d)
    ensures !Idle(s) ==> (d.NoDecision? <==>
              && Banded(s, catalog).NoDecision?
              && (forall q :: q in s.activePolicies ==> !UpgradeAffordable(s, q))
              && (forall p :: p in catalog ==> !Enactable(s, p)))
    ensures !Idle(s) && !Banded(s, catalog).NoDecision? ==> d == Banded(s, catalog)
    ensures !Idle(s) && Banded(s, catalog).NoDecision? ==> d == Fallback(s, catalog)
  {
    if Idle(s) then NoDecision else OrElse(Banded(s, catalog), Fallback(s, catalog))
  }

  /** Marks every instance with that id as upgraded (each keeps its own fields). */
  function MarkUpgraded(ps: seq<Policy>, id: string): (r: seq<Policy>)
    ensures |r| == |ps|
    ensures forall i :: 0 <= i < |ps| ==> r[i] == if ps[i].id == id then ps[i].(level := 2) else ps[i]
  {
    if |ps| == 0 then []
    else [if ps[0].id == id then ps[0].(level := 2) else ps[0]] + MarkUpgraded(ps[1..], id)
  }

  /** Carrying out a decision on the state. */
  function Apply(s: GameState, d: Decision): (r: GameState)
    ensures Ledger.SameOutsideLedger(r, s)
    ensures d.NoDecision? ==> r == s
    ensures d.UpgradeOf? ==> r.politicalCapital == s.politicalCapital - d.target.upgradeCost.GetOr(0.0)
                             && r.activePolicies == MarkUpgraded(s.activePolicies, d.target.id)
    ensures d.EnactOf? ==> r.politicalCapital == s.politicalCapital - d.policy.cost
                           && r.activePolicies == s.activePolicies + [NewInstance(d.policy)]
  {
    match d
    case NoDecision => s
    case UpgradeOf(q) =>
      s.(politicalCapital := s.politicalCapital - q.upgradeCost.GetOr(0.0),
         activePolicies := MarkUpgraded(s.activePolicies, q.id))
    case EnactOf(p) =>
      s.(politicalCapital := s.politicalCapital - p.cost,
         activePolicies := s.activePolicies + [NewInstance(p)])
  }

  /** `makeAutomatedPolicyDecisions`, drawing on `catalog`. */
  function AutomatedDecisions(s: GameState, catalog: seq<Policy>): (r: GameState)
    ensures Idle(s) ==> r == s
    ensures Ledger.SameOutsideLedger(r, s)
    ensures s.politicalCapital >= 0.0 ==> r.politicalCapital >= 0.0
  {
    var d := Decide(s, catalog);
    Apply(s, d)
  }

  /** An automated upgrade of an active instance is the player's upgrade of that id, given unique ids. */
  lemma UpgradeThroughLedger(s: GameState, q: Policy)
    requires NoDuplicateIds(s.activePolicies)
    requires !s.gameOver && q in s.activePolicies && UpgradeAffordable(s, q)
    ensures Ledger.Upgrade(s, q.id) == Success(Apply(s, UpgradeOf(q)))
  {
    FindUnique(s.activePolicies, q);
    assert Ledger.UpgradeTarget(s, q.id) == Some(q);
    var u := Ledger.Upgrade(s, q.id);
    assert u.Success?;
    var r := Apply(s, UpgradeOf(q));
    MarkIsReplace(s.activePolicies, q);
    var replaced := Ledger.ReplaceById(s.activePolicies, q.id, q.(level := 2));
    assert u.value.activePolicies == replaced by {
      forall j | 0 <= j < |replaced| ensures u.value.activePolicies[j] == replaced[j] {
      }
    }
    Ledger.SameLedgerSame(u.value, r, s);
  }

  /** With unique ids, marking a member's id upgraded is replacing it by its level-2 copy. */
  lemma MarkIsReplace(ps: seq<Policy>, q: Policy)
    requires NoDuplicateIds(ps) && q in ps
    ensures MarkUpgraded(ps, q.id) == Ledger.ReplaceById(ps, q.id, q.(level := 2))
  {
    var i :| 0 <= i < |ps| && ps[i] == q;
    forall j | 0 <= j < |ps| && ps[j].id == q.id ensures ps[j] == q {
      assert j == i;
    }
  }

  /** An automated enactment is the player's enactment. */
  lemma EnactThroughLedger(s: GameState, p: Policy)
    requires !s.gameOver && !HasId(s.activePolicies, p.id) && s.politicalCapital >= p.cost
    ensures Ledger.Enact(s, p) == Success(Apply(s, EnactOf(p)))
  {
  }

  /**
   * The automation takes at most one ordinary ledger action: with unique ids
   * its result is the state itself, or exactly what the player's enactment
   * or upgrade would produce.
   */
  lemma ActsThroughLedger(s: GameState, catalog: seq<Policy>)
    requires NoDuplicateIds(s.activePolicies)
    ensures var d := Decide(s, catalog);
            var r := AutomatedDecisions(s, catalog);
            && (d.NoDecision? ==> r == s)
            && (d.EnactOf? ==> Ledger.Enact(s, d.policy) == Success(r))
            && (d.UpgradeOf? ==> Ledger.Upgrade(s, d.target.id) == Success(r))
  {
    var d := Decide(s, catalog);
    assert AutomatedDecisions(s, catalog) == Apply(s, d);
    match d
    case NoDecision =>
    case UpgradeOf(q) => UpgradeThroughLedger(s, q);
    case EnactOf(p) => EnactThroughLedger(s, p);
  }

  /** Policy ids stay unique. */
  lemma DecisionsKeepIdsUnique(s: GameState, catalog: seq<Policy>)
    requires NoDuplicateIds(s.activePolicies)
    ensures NoDuplicateIds(AutomatedDecisions(s, catalog).activePolicies)
  {
    ActsThroughLedger(s, catalog);
    var d := Decide(s, catalog);
    if d.EnactOf? {
      Ledger.EnactKeepsIdsUnique(s, d.policy);
    } else if d.UpgradeOf? {
      Ledger.UpgradeKeepsIdsUnique(s, d.target.id);
    }
  }

  /** Nothing is enacted whose prerequisites are unmet. */
  lemma EnactsOnlyWhenPrerequisitesMet(s: GameState, catalog: seq<Policy>)
    ensures Decide(s, catalog).EnactOf? ==>
              Ledger.PrerequisitesHold(Decide(s, catalog).policy.prerequisites, s.metrics, s.activePolicies)
  {
  }

  // ---------------------------------------------------------------------
  // The bands partition the metrics under 60.
  // ---------------------------------------------------------------------

  lemma {:induction false} BandEmptyAbove(rs: seq<Reading>, lo: Option<real>, hi: real)
    requires forall i :: 0 <= i < |rs| ==> rs[i].value >= hi
    ensures Band(rs, lo, hi) == []
  {
    if |rs| > 0 {
      assert forall i :: 1 <= i < |rs| ==> rs[i] == rs[1..][i - 1];
      BandEmptyAbove(rs[1..], lo, hi);
    }
  }

  lemma {:induction false} BandLowerBoundIrrelevant(rs: seq<Reading>, lo: Option<real>, a: real, b: real)
    requires lo.None? || lo.value <= a
    requires forall i :: 0 <= i < |rs| ==> rs[i].value >= a
    ensures Band(rs, Some(a), b) == Band(rs, lo, b)
  {
    if |rs| > 0 {
      assert forall i :: 1 <= i < |rs| ==> rs[i] == rs[1..][i - 1];
      BandLowerBoundIrrelevant(rs[1..], lo, a, b);
    }
  }

  lemma TailSorted(rs: seq<Reading>)
    requires |rs| > 0 && SortedBy(rs, ValueOf)
    ensures SortedBy(rs[1..], ValueOf)
    ensures forall i :: 0 <= i < |rs| ==> rs[0].value <= rs[i].value
  {
    forall i, j | 0 <= i < j < |rs[1..]| ensures ValueOf(rs[1..][i]) <= ValueOf(rs[1..][j]) {
      assert rs[1..][i] == rs[i + 1] && rs[1..][j] == rs[j + 1];
    }
    forall i | 0 <= i < |rs| ensures rs[0].value <= rs[i].value {
      if i > 0 {
        assert ValueOf(rs[0]) <= ValueOf(rs[i]);
      }
    }
  }

  /** The band of a list: its head's contribution, then the band of the rest. */
  lemma BandCons(rs: seq<Reading>, lo: Option<real>, hi: real)
    requires |rs| > 0
    ensures Band(rs, lo, hi) == (if (lo.None? || lo.value <= rs[0].value) && rs[0].value < hi then [rs[0].id] else []) + Band(rs[1..], lo, hi)
  {
  }

  /** Over readings in ascending order, adjacent bands concatenate into the wider band. */
  lemma {:induction false} BandsJoin(rs: seq<Reading>, lo: Option<real>, a: real, b: real)
    requires SortedBy(rs, ValueOf)
    requires lo.None? || lo.value <= a
    requires a <= b
    ensures Band(rs, lo, a) + Band(rs, Some(a), b) == Band(rs, lo, b)
    decreases |rs|
  {
    if |rs| == 0 {
      assert Band(rs, lo, a) == [] && Band(rs, Some(a), b) == [] && Band(rs, lo, b) == [];
    } else if rs[0].value < a {
      TailSorted(rs);
      BandsJoin(rs[1..], lo, a, b);
      JoinStep(rs, lo, a, b);
    } else {
      TailSorted(rs);
      BandEmptyAbove(rs, lo, a);
      BandLowerBoundIrrelevant(rs, lo, a, b);
    }
  }

  lemma JoinStep(rs: seq<Reading>, lo: Option<real>, a: real, b: real)
    requires |rs| > 0 && rs[0].value < a && a <= b
    requires Band(rs[1..], lo, a) + Band(rs[1..], Some(a), b) == Band(rs[1..], lo, b)
    ensures Band(rs, lo, a) + Band(rs, Some(a), b) == Band(rs, lo, b)
  {
    var head := if lo.None? || lo.value <= rs[0].value then [rs[0].id] else [];
    BandCons(rs, lo, a);
    BandCons(rs, Some(a), b);
    BandCons(rs, lo, b);
    assert head + Band(rs[1..], lo, a) + Band(rs[1..], Some(a), b) == head + (Band(rs[1..], lo, a) + Band(rs[1..], Some(a), b));
  }

  lemma {:induction false} DecideAmongAppend(s: GameState, catalog: seq<Policy>, a: seq<string>, b: seq<string>)
    ensures DecideAmong(s, catalog, a + b) == OrElse(DecideAmong(s, catalog, a), DecideAmong(s, catalog, b))
  {
    if |a| == 0 {
      assert a + b == b;
    } else {
      var ab := a + b;
      assert ab[0] == a[0] && ab[1..] == a[1..] + b;
      DecideAmongAppend(s, catalog, a[1..], b);
      var d := DecideFor(s, catalog, a[0]);
      assert DecideAmong(s, catalog, ab) == if d.NoDecision? then DecideAmong(s, catalog, ab[1..]) else d;
      assert DecideAmong(s, catalog, a) == if d.NoDecision? then DecideAmong(s, catalog, a[1..]) else d;
    }
  }

  /**
   * The three bands amount to one pass over every tracked metric under 60,
   * worst first: the first metric in that order with an action decides.
   */
  lemma BandsAreOnePass(s: GameState, catalog: seq<Policy>)
    requires !Idle(s)
    ensures var worst := Worst(s.metrics);
            var pass := DecideAmong(s, catalog, Band(worst, None, LOW_MAX));
            !pass.NoDecision? ==> Decide(s, catalog) == pass
  {
    var worst := Worst(s.metrics);
    var b0 := Band(worst, None, ULTRA_CRITICAL_MAX);
    var b1 := Band(worst, Some(ULTRA_CRITICAL_MAX), CRITICAL_MAX);
    var b2 := Band(worst, Some(CRITICAL_MAX), LOW_MAX);
    BandsJoin(worst, None, ULTRA_CRITICAL_MAX, CRITICAL_MAX);
    BandsJoin(worst, None, CRITICAL_MAX, LOW_MAX);
    assert b0 + b1 + b2 == Band(worst, None, LOW_MAX);
    DecideAmongAppend(s, catalog, b0 + b1, b2);
    DecideAmongAppend(s, catalog, b0, b1);
    var d0, d1, d2 := DecideAmong(s, catalog, b0), DecideAmong(s, catalog, b1), DecideAmong(s, catalog, b2);
    assert DecideAmong(s, catalog, Band(worst, None, LOW_MAX)) == OrElse(OrElse(d0, d1), d2);
    assert Banded(s, catalog) == OrElse(d0, OrElse(d1, d2));
  }
}
