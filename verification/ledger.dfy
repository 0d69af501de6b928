/**
 * The player's two ledger actions, enacting and upgrading a policy, and the
 * prerequisite check that gates them in the interface and in delegation.
 */
module Ledger {
  import opened Types

  /** Why a prerequisite is unmet (the source reports these as display strings). */
  datatype Reason =
    | MetricUnavailable(metricId: string)
    | BelowMinimum(metricId: string, min: real)
    | AboveMaximum(metricId: string, max: real)
    | PolicyRequired(policyId: string)

  datatype Check = Check(met: bool, reasons: seq<Reason>)

  /** Reference definition: the metric exists and lies within every bound given. */
  predicate BoundHolds(b: MetricBound, metrics: Metrics) {
    b.metricId in metrics
    && (b.min.Some? ==> metrics[b.metricId] >= b.min.value)
    && (b.max.Some? ==> metrics[b.metricId] <= b.max.value)
  }

  /** Reference definition: every metric bound holds and every required policy is active. */
  predicate PrerequisitesHold(pre: Prerequisites, metrics: Metrics, active: seq<Policy>) {
    (forall i :: 0 <= i < |pre.metrics| ==> BoundHolds(pre.metrics[i], metrics))
    && (forall k :: 0 <= k < |pre.policies| ==> HasId(active, pre.policies[k]))
  }

  /** The reasons one metric bound contributes: unavailable alone, or below and/or above. */
  function BoundReasons(b: MetricBound, metrics: Metrics): (r: seq<Reason>)
    ensures |r| == 0 <==> BoundHolds(b, metrics)
    ensures b.metricId !in metrics ==> r == [MetricUnavailable(b.metricId)]
    ensures |r| <= 2
  {
    if b.metricId !in metrics then [MetricUnavailable(b.metricId)]
    else
      var v := metrics[b.metricId];
      (if b.min.Some? && v < b.min.value then [BelowMinimum(b.metricId, b.min.value)] else [])
      + (if b.max.Some? && v > b.max.value then [AboveMaximum(b.metricId, b.max.value)] else [])
  }

  function MetricReasons(bounds: seq<MetricBound>, metrics: Metrics): (r: seq<Reason>)
    ensures |r| == 0 <==> forall i :: 0 <= i < |bounds| ==> BoundHolds(bounds[i], metrics)
    ensures forall j :: 0 <= j < |r| ==> !r[j].PolicyRequired?
  {
    if |bounds| == 0 then []
    else
      var rest := MetricReasons(bounds[1..], metrics);
      assert forall i :: 1 <= i < |bounds| ==> bounds[i] == bounds[1..][i - 1];
      BoundReasons(bounds[0], metrics) + rest
  }

  function PolicyReasons(required: seq<string>, active: seq<Policy>): (r: seq<Reason>)
    ensures forall j :: 0 <= j < |r| ==> r[j].PolicyRequired?
    ensures forall id :: PolicyRequired(id) in r <==> id in required && !HasId(active, id)
    ensures |r| == 0 <==> forall k :: 0 <= k < |required| ==> HasId(active, required[k])
    ensures |r| <= |required|
  {
    if |required| == 0 then []
    else
      var rest := PolicyReasons(required[1..], active);
      assert forall k :: 1 <= k < |required| ==> required[k] == required[1..][k - 1];
      assert forall id :: id in required <==> id == required[0] || id in required[1..];
      (if HasId(active, required[0]) then [] else [PolicyRequired(required[0])]) + rest
  }

  /**
   * `checkPolicyPrerequisites(policy, metrics, active)`: the metric reasons in
   * bound order, then one reason per required policy that is not active.
   */
  function CheckPrerequisites(p: Policy, metrics: Metrics, active: seq<Policy>): (c: Check)
    ensures c.met <==> |c.reasons| == 0
    ensures c.met <==> PrerequisitesHold(p.prerequisites, metrics, active)
    ensures forall id :: PolicyRequired(id) in c.reasons <==>
              id in p.prerequisites.policies && !HasId(active, id)
  {
    var reasons := MetricReasons(p.prerequisites.metrics, metrics)
                   + PolicyReasons(p.prerequisites.policies, active);
    Check(|reasons| == 0, reasons)
  }

  /** A policy without prerequisites is always available. */
  lemma NoPrerequisitesAlwaysMet(p: Policy, metrics: Metrics, active: seq<Policy>)
    requires p.prerequisites == NoPrerequisites
    ensures CheckPrerequisites(p, metrics, active) == Check(true, [])
  {
  }

  /** When a policy has no metric bounds, each reason names exactly one inactive required policy. */
  lemma SingleReasonNamesRequiredPolicy(p: Policy, metrics: Metrics, active: seq<Policy>)
    requires |p.prerequisites.metrics| == 0
    requires |CheckPrerequisites(p, metrics, active).reasons| == 1
    ensures exists id :: CheckPrerequisites(p, metrics, active).reasons == [PolicyRequired(id)]
                         && id in p.prerequisites.policies && !HasId(active, id)
  {
    var r := CheckPrerequisites(p, metrics, active).reasons;
    assert r[0] in r;
  }

  /** Adding active policies can only help: a met check stays met. */
  lemma MetStaysMetWithMorePolicies(p: Policy, metrics: Metrics, active: seq<Policy>, more: seq<Policy>)
    requires CheckPrerequisites(p, metrics, active).met
    ensures CheckPrerequisites(p, metrics, active + more).met
  {
    forall k | 0 <= k < |p.prerequisites.policies|
      ensures HasId(active + more, p.prerequisites.policies[k])
    {
      var i :| 0 <= i < |active| && active[i].id == p.prerequisites.policies[k];
      assert (active + more)[i] == active[i];
    }
  }

  datatype ActionError = GameIsOver | InsufficientCapital | AlreadyActive | NotUpgradable

  /** Everything but the capital and the active list agrees. */
  predicate SameOutsideLedger(a: GameState, b: GameState) {
    a.(politicalCapital := b.politicalCapital, activePolicies := b.activePolicies) == b
  }

  /** Two states equal to `s` outside the ledger that agree on the ledger are equal. */
  lemma SameLedgerSame(a: GameState, b: GameState, s: GameState)
    requires SameOutsideLedger(a, s) && SameOutsideLedger(b, s)
    requires a.politicalCapital == b.politicalCapital && a.activePolicies == b.activePolicies
    ensures a == b
  {
  }

  /**
   * `enactPolicy(policy)`: refused once the game is over, when the capital
   * does not cover the cost, or when a policy with that id is already
   * active; otherwise the cost is paid and a fresh level-1 instance appended.
   * Prerequisites are not consulted here (the interface checks them).
   */
  function Enact(s: GameState, p: Policy): (r: Result<GameState, ActionError>)
    ensures s.gameOver ==> r == Failure(GameIsOver)
    ensures !s.gameOver && s.politicalCapital < p.cost ==> r == Failure(InsufficientCapital)
    ensures !s.gameOver && s.politicalCapital >= p.cost && HasId(s.activePolicies, p.id) ==> r == Failure(AlreadyActive)
    ensures r.Success? <==> !s.gameOver && s.politicalCapital >= p.cost && !HasId(s.activePolicies, p.id)
    ensures r.Success? ==>
              && SameOutsideLedger(r.value, s)
              && r.value.politicalCapital == s.politicalCapital - p.cost
              && r.value.politicalCapital >= 0.0
              && |r.value.activePolicies| == |s.activePolicies| + 1
              && r.value.activePolicies[..|s.activePolicies|] == s.activePolicies
              && r.value.activePolicies[|s.activePolicies|] == NewInstance(p)
  {
    if s.gameOver then Failure(GameIsOver)
    else if s.politicalCapital < p.cost then Failure(InsufficientCapital)
    else if HasId(s.activePolicies, p.id) then Failure(AlreadyActive)
    else Success(s.(politicalCapital := s.politicalCapital - p.cost,
                    activePolicies := s.activePolicies + [NewInstance(p)]))
  }

  /** Enacting keeps policy ids unique, and a second enactment of the same policy is refused. */
  lemma EnactKeepsIdsUnique(s: GameState, p: Policy)
    requires NoDuplicateIds(s.activePolicies)
    requires Enact(s, p).Success?
    ensures NoDuplicateIds(Enact(s, p).value.activePolicies)
    ensures HasId(Enact(s, p).value.activePolicies, p.id)
    ensures Enact(Enact(s, p).value, p).Failure?
    ensures Enact(s, p).value.politicalCapital >= p.cost ==> Enact(Enact(s, p).value, p) == Failure(AlreadyActive)
  {
    var t := Enact(s, p).value;
    assert t.activePolicies[|s.activePolicies|].id == p.id;
  }

  /** Whether the active instance `q` can still be upgraded at all. */
  predicate Upgradable(q: Policy) {
    q.upgradable && q.level == 1 && q.upgradeCost.Some?
  }

  /** The instance `upgradePolicy(id)` works from: the first active one with that id. */
  function UpgradeTarget(s: GameState, id: string): Option<Policy> {
    FindById(s.activePolicies, id)
  }

  /**
   * `upgradePolicy(id)`: the first active instance with that id must be
   * upgradable, at level 1 and priced, and affordable; then its upgrade cost
   * is paid and every instance with that id is replaced by it at level 2.
   */
  function Upgrade(s: GameState, id: string): (r: Result<GameState, ActionError>)
    ensures s.gameOver ==> r == Failure(GameIsOver)
    ensures !s.gameOver && (UpgradeTarget(s, id).None? || !Upgradable(UpgradeTarget(s, id).value))
            ==> r == Failure(NotUpgradable)
    ensures r.Success? <==>
              !s.gameOver && UpgradeTarget(s, id).Some? && Upgradable(UpgradeTarget(s, id).value)
              && s.politicalCapital >= UpgradeTarget(s, id).value.upgradeCost.value
    ensures r.Success? ==>
              var q := UpgradeTarget(s, id).value;
              && SameOutsideLedger(r.value, s)
              && r.value.politicalCapital == s.politicalCapital - q.upgradeCost.value
              && r.value.politicalCapital >= 0.0
              && |r.value.activePolicies| == |s.activePolicies|
              && (forall i :: 0 <= i < |s.activePolicies| ==>
                    r.value.activePolicies[i] == if s.activePolicies[i].id == id then q.(level := 2) else s.activePolicies[i])
  {
    if s.gameOver then Failure(GameIsOver)
    else
      match UpgradeTarget(s, id)
      case None => Failure(NotUpgradable)
      case Some(q) =>
        if !Upgradable(q) then Failure(NotUpgradable)
        else if s.politicalCapital < q.upgradeCost.value then Failure(InsufficientCapital)
        else Success(s.(politicalCapital := s.politicalCapital - q.upgradeCost.value,
                        activePolicies := ReplaceById(s.activePolicies, id, q.(level := 2))))
  }

  /** Every instance with id `id` replaced by `q`, which carries that id. */
  function ReplaceById(ps: seq<Policy>, id: string, q: Policy): (r: seq<Policy>)
    requires q.id == id
    ensures |r| == |ps|
    ensures forall i :: 0 <= i < |ps| ==> r[i] == if ps[i].id == id then q else ps[i]
  {
    if |ps| == 0 then []
    else [if ps[0].id == id then q else ps[0]] + ReplaceById(ps[1..], id, q)
  }

  /** A policy can be upgraded once: the upgraded state refuses a second upgrade. */
  lemma UpgradeOnce(s: GameState, id: string)
    requires Upgrade(s, id).Success?
    ensures Upgrade(Upgrade(s, id).value, id) == Failure(NotUpgradable)
  {
    var ps := Upgrade(s, id).value.activePolicies;
    var q := UpgradeTarget(s, id).value;
    var i :| 0 <= i < |s.activePolicies| && s.activePolicies[i] == q;
    assert ps[i] == q.(level := 2);
    assert HasId(ps, id);
    var q' := FindById(ps, id).value;
    var j :| 0 <= j < |ps| && ps[j] == q';
    assert s.activePolicies[j].id == id;
    assert !Upgradable(q');
  }

  /** Upgrading never changes which ids are active, so unique ids stay unique. */
  lemma UpgradeKeepsIdsUnique(s: GameState, id: string)
    requires NoDuplicateIds(s.activePolicies)
    requires Upgrade(s, id).Success?
    ensures NoDuplicateIds(Upgrade(s, id).value.activePolicies)
  {
    var ps := Upgrade(s, id).value.activePolicies;
    assert forall i :: 0 <= i < |ps| ==> ps[i].id == s.activePolicies[i].id;
  }

  /** Every instance in play is at level 1 or 2. */
  predicate LevelsInPlay(ps: seq<Policy>) {
    forall i :: 0 <= i < |ps| ==> ps[i].level == 1 || ps[i].level == 2
  }

  /** Enacting adds a level-1 instance and upgrading lifts one to level 2, so levels stay 1 or 2. */
  lemma LedgerKeepsLevels(s: GameState, p: Policy, id: string)
    requires LevelsInPlay(s.activePolicies)
    ensures Enact(s, p).Success? ==> LevelsInPlay(Enact(s, p).value.activePolicies)
    ensures Upgrade(s, id).Success? ==> LevelsInPlay(Upgrade(s, id).value.activePolicies)
  {
  }
}
