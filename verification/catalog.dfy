/**
 * The static reference data of the simulation: initial metrics, voter
 * groups, the policy catalog, mini events, achievements, scoring weights,
 * rank tiers and the numeric tuning constants, together with the facts about
 * that data the engine relies on.
 */
module Catalog {
  import opened Types

  const INITIAL_YEAR: int := 2024
  const INITIAL_MONTH: int := 1
  const INITIAL_POLITICAL_CAPITAL: real := 150.0
  const ELECTION_INTERVAL_MONTHS: int := 12 * 4
  /** The per-turn event probability; the draw itself is an input of the model. */
  const MINI_EVENT_CHANCE: real := 0.20
  const SIGNIFICANT_METRIC_CHANGE_THRESHOLD: real := 5.0

  /** The metric id under which a policy effect changes political capital instead of a metric. */
  const POLITICAL_CAPITAL_KEY: string := "politicalCapital"

  const TRACKED_METRIC_IDS: seq<string> :=
    ["economy", "happiness", "environment", "stability", "education", "healthcare"]

  const CORE_METRIC_IDS: seq<string> := ["economy", "happiness", "environment", "stability"]

  const INITIAL_METRICS: Metrics := map[
    "economy" := 50.0, "happiness" := 50.0, "environment" := 50.0,
    "stability" := 50.0, "education" := 40.0, "healthcare" := 40.0
  ]

  const INITIAL_VOTER_GROUPS: seq<VoterGroup> := [
    VoterGroup("capitalists", 0.20, 50.0,
      [Entry("economy", 0.7), Entry("stability", 0.2), Entry("education", 0.1),
       Entry("happiness", -0.05), Entry("environment", -0.1)]),
    VoterGroup("socialists", 0.25, 50.0,
      [Entry("happiness", 0.5), Entry("healthcare", 0.3), Entry("education", 0.2),
       Entry("economy", -0.1), Entry("stability", 0.05)]),
    VoterGroup("environmentalists", 0.15, 50.0,
      [Entry("environment", 0.8), Entry("happiness", 0.1), Entry("healthcare", 0.1),
       Entry("economy", -0.2)]),
    VoterGroup("patriots", 0.20, 50.0,
      [Entry("stability", 0.6), Entry("economy", 0.3), Entry("happiness", 0.1),
       Entry("environment", -0.05)]),
    VoterGroup("liberals", 0.20, 50.0,
      [Entry("happiness", 0.4), Entry("education", 0.3), Entry("environment", 0.1),
       Entry("stability", 0.1), Entry("economy", 0.1)])
  ]

  /** A category entry: no cost, no upkeep, no effect, no parent. */
  function CategoryPolicy(id: string): Policy {
    Policy(id, 0.0, [], NoPrerequisites, None, None, Some(0.0), 1, false, None, None, None, None)
  }

  /** A standard, non-upgradable entry under the category `parent`. */
  function StandardPolicy(id: string, cost: real, upkeep: real, effects: NumberRecord,
                          requires_: seq<string>, parent: string): Policy {
    Policy(id, cost, effects, Prerequisites([], requires_), None, None, Some(upkeep), 1,
           false, None, None, None, Some(parent))
  }

  /** A standard entry that can be upgraded once to level 2. */
  function UpgradablePolicy(id: string, cost: real, upkeep: real, effects: NumberRecord,
                            requires_: seq<string>, parent: string, upgradeCost: real,
                            upgradedEffects: NumberRecord, upgradedUpkeep: real): Policy {
    Policy(id, cost, effects, Prerequisites([], requires_), None, None, Some(upkeep), 1,
           true, Some(upgradeCost), Some(upgradedEffects), Some(upgradedUpkeep), Some(parent))
  }

  const ALL_POLICIES: seq<Policy> := [
    CategoryPolicy("taxCategory"),
    CategoryPolicy("industryCategory"),
    CategoryPolicy("environmentCategory"),
    CategoryPolicy("infrastructureCategory"),
    CategoryPolicy("educationCategory"),
    CategoryPolicy("healthcareCategory"),
    CategoryPolicy("welfareCategory"),
    UpgradablePolicy("incomeTaxCut", 12.0, 3.0,
      [Entry("happiness", 5.0), Entry("economy", 3.0), Entry("politicalCapital", -5.0)],
      ["taxCategory"], "taxCategory", 15.0,
      [Entry("happiness", 8.0), Entry("economy", 5.0), Entry("politicalCapital", -7.0)], 5.0),
    StandardPolicy("corporateTaxCut", 18.0, 4.0,
      [Entry("economy", 8.0), Entry("stability", -2.0), Entry("politicalCapital", -6.0)],
      ["taxCategory"], "taxCategory"),
    StandardPolicy("technologyGrants", 22.0, 5.0,
      [Entry("economy", 6.0), Entry("education", 4.0), Entry("environment", -2.0)],
      ["industryCategory"], "industryCategory"),
    UpgradablePolicy("carbonTax", 15.0, 2.0,
      [Entry("environment", 10.0), Entry("economy", -3.0), Entry("happiness", -2.0),
       Entry("politicalCapital", 2.0)],
      ["environmentCategory", "taxCategory"], "environmentCategory", 12.0,
      [Entry("environment", 15.0), Entry("economy", -4.0), Entry("happiness", -3.0),
       Entry("politicalCapital", 3.0)], 3.0),
    StandardPolicy("renewableEnergySubsidies", 25.0, 6.0,
      [Entry("environment", 8.0), Entry("economy", 3.0), Entry("happiness", 2.0)],
      ["environmentCategory"], "environmentCategory"),
    StandardPolicy("publicTransportExpansion", 30.0, 7.0,
      [Entry("happiness", 6.0), Entry("environment", 4.0), Entry("economy", 2.0)],
      ["infrastructureCategory"], "infrastructureCategory"),
    StandardPolicy("internetInfrastructureInvestment", 28.0, 5.0,
      [Entry("economy", 5.0), Entry("education", 5.0), Entry("happiness", 3.0)],
      ["infrastructureCategory"], "infrastructureCategory"),
    UpgradablePolicy("schoolFundingIncrease", 20.0, 6.0,
      [Entry("education", 8.0), Entry("happiness", 3.0), Entry("economy", 1.0)],
      ["educationCategory"], "educationCategory", 18.0,
      [Entry("education", 12.0), Entry("happiness", 5.0), Entry("economy", 2.0)], 9.0),
    StandardPolicy("nationalHealthcareProgram", 35.0, 10.0,
      [Entry("healthcare", 10.0), Entry("happiness", 7.0), Entry("stability", 3.0),
       Entry("economy", -2.0)],
      ["healthcareCategory"], "healthcareCategory"),
    StandardPolicy("unemploymentBenefits", 20.0, 7.0,
      [Entry("happiness", 6.0), Entry("stability", 4.0), Entry("economy", -3.0)],
      ["welfareCategory", "taxCategory"], "welfareCategory")
  ]

  const MINI_EVENTS: seq<MiniEvent> := [
    MiniEvent("economicBoom", EventEffect(MetricEvent, Some("economy"), 8.0)),
    MiniEvent("scientificBreakthrough", EventEffect(MetricEvent, Some("education"), 6.0)),
    MiniEvent("naturalDisaster", EventEffect(MetricEvent, Some("happiness"), -7.0)),
    MiniEvent("pcBoost", EventEffect(PcEvent, None, 25.0)),
    MiniEvent("scandal", EventEffect(MetricEvent, Some("stability"), -10.0)),
    MiniEvent("stockMarketCrash", EventEffect(MetricEvent, Some("economy"), -12.0))
  ]

  const ALL_ACHIEVEMENTS: seq<Achievement> := [
    Achievement("economicPowerhouse", false, MetricAtLeast("economy", 90.0)),
    Achievement("utopiaSeeker", false, MetricAtLeast("happiness", 90.0)),
    Achievement("greenParadise", false, MetricAtLeast("environment", 90.0)),
    Achievement("ironStability", false, MetricAtLeast("stability", 95.0)),
    Achievement("educationFirst", false, MetricAtLeast("education", 85.0)),
    Achievement("healthForAll", false, MetricAtLeast("healthcare", 85.0)),
    Achievement("policyMaster", false, StandardPoliciesActiveAtLeast(10)),
    Achievement("longReign", false, MonthsRuledAtLeast(120))
  ]

  const WEIGHT_CORE_METRICS_AVG: real := 1.5
  const WEIGHT_POLITICAL_CAPITAL: real := 0.25
  const WEIGHT_OVERALL_APPROVAL: real := 1.0
  const WEIGHT_DURATION_MONTHS: real := 0.15
  const WEIGHT_ACHIEVEMENT: real := 25.0

  const RANK_TIERS: seq<Rank> := [
    Rank("새싹 정치인", 0.0),
    Rank("지역 유지", 300.0),
    Rank("중앙 정치인", 600.0),
    Rank("국민 지도자", 1000.0),
    Rank("위대한 통치자", 1500.0),
    Rank("전설적인 현자", 2000.0)
  ]

  /** Some catalog entry names `id` as its parent. */
  predicate IsParentId(catalog: seq<Policy>, id: string) {
    exists i :: 0 <= i < |catalog| && catalog[i].parentId == Some(id)
  }

  predicate StrictlyAscendingTiers(tiers: seq<Rank>) {
    forall i, j :: 0 <= i < j < |tiers| ==> tiers[i].minScore < tiers[j].minScore
  }

  function TotalPopulationShare(groups: seq<VoterGroup>): real {
    if |groups| == 0 then 0.0
    else groups[0].populationPercentage + TotalPopulationShare(groups[1..])
  }

  /** Rank tiers ascend strictly and start at 0, so every non-negative score has a tier. */
  lemma RankTiersWellFormed()
    ensures |RANK_TIERS| > 0 && RANK_TIERS[0].minScore == 0.0
    ensures StrictlyAscendingTiers(RANK_TIERS)
  {
  }

  /** Effect-free entries (categories) are free, upkeep-free roots without prerequisites. */
  predicate CategoriesAreInert(ps: seq<Policy>) {
    forall i :: 0 <= i < |ps| && |ps[i].effects| == 0 ==>
      ps[i].cost == 0.0 && ps[i].upkeep == Some(0.0) && ps[i].parentId.None?
      && ps[i].prerequisites == NoPrerequisites
  }

  /** Every effect-free entry is the parent of some other entry. */
  predicate CategoriesHaveChildren(ps: seq<Policy>) {
    forall i :: 0 <= i < |ps| && |ps[i].effects| == 0 ==> IsParentId(ps, ps[i].id)
  }

  /** `ps[j]` is an effect-free entry named `id`. */
  predicate CategoryAt(ps: seq<Policy>, j: int, id: string) {
    0 <= j < |ps| && ps[j].id == id && |ps[j].effects| == 0
  }

  /** Every entry with effects hangs under an effect-free parent. */
  ghost predicate ParentsAreCategories(ps: seq<Policy>) {
    forall i :: 0 <= i < |ps| && |ps[i].effects| > 0 ==>
      ps[i].parentId.Some? && NamesCategory(ps, ps[i].parentId.value)
  }

  /**
   * Every required policy id names an effect-free entry; since those require
   * nothing (CategoriesAreInert), prerequisite chains have length one and
   * cannot cycle.
   */
  ghost predicate PrerequisitesNameCategories(ps: seq<Policy>) {
    forall i :: 0 <= i < |ps| ==> RequiresOnlyCategories(ps, ps[i])
  }

  /** Every policy id `p` requires names an effect-free entry of `ps`. */
  ghost predicate RequiresOnlyCategories(ps: seq<Policy>, p: Policy) {
    forall k :: 0 <= k < |p.prerequisites.policies| ==> NamesCategory(ps, p.prerequisites.policies[k])
  }

  ghost predicate NamesCategory(ps: seq<Policy>, id: string) {
    exists j :: CategoryAt(ps, j, id)
  }

  /** Every upgradable entry declares its upgrade cost, effects and upkeep. */
  predicate UpgradableEntriesComplete(ps: seq<Policy>) {
    forall i :: 0 <= i < |ps| && ps[i].upgradable ==>
      ps[i].upgradeCost.Some? && ps[i].upgradedEffects.Some? && ps[i].upgradedUpkeep.Some?
  }

  /** No entry declares a duration: every policy is permanent. */
  predicate AllPermanent(ps: seq<Policy>) {
    forall i :: 0 <= i < |ps| ==> ps[i].duration.None?
  }

  /** The first seven entries are the categories; the rest carry effects. */
  lemma CategoryShape()
    ensures CategoriesAreInert(ALL_POLICIES)
    ensures forall i :: 0 <= i < |ALL_POLICIES| ==> (|ALL_POLICIES[i].effects| == 0 <==> i < 7)
  {
  }

  /** The index of one child of each category, in catalog order. */
  const CATEGORY_CHILD: seq<int> := [7, 9, 10, 12, 14, 15, 16]

  /** A table naming, for each leading effect-free entry, an entry whose parent it is. */
  lemma {:induction false} ChildTableWitnesses(ps: seq<Policy>, child: seq<int>)
    requires |child| <= |ps|
    requires forall i :: 0 <= i < |ps| && |ps[i].effects| == 0 ==> i < |child|
    requires forall i :: 0 <= i < |child| ==> 0 <= child[i] < |ps| && ps[child[i]].parentId == Some(ps[i].id)
    ensures CategoriesHaveChildren(ps)
  {
    forall i | 0 <= i < |ps| && |ps[i].effects| == 0
      ensures IsParentId(ps, ps[i].id)
    {
      var j := child[i];
      assert ps[j].parentId == Some(ps[i].id);
    }
  }

  lemma CategoriesAreParents()
    ensures CategoriesHaveChildren(ALL_POLICIES)
  {
    CategoryShape();
    ChildTableWitnesses(ALL_POLICIES, CATEGORY_CHILD);
  }

  lemma PolicyParentsAreCategories()
    ensures ParentsAreCategories(ALL_POLICIES)
  {
    var ps := ALL_POLICIES;
    assert CategoryAt(ps, 0, "taxCategory");
    assert CategoryAt(ps, 1, "industryCategory");
    assert CategoryAt(ps, 2, "environmentCategory");
    assert CategoryAt(ps, 3, "infrastructureCategory");
    assert CategoryAt(ps, 4, "educationCategory");
    assert CategoryAt(ps, 5, "healthcareCategory");
    assert CategoryAt(ps, 6, "welfareCategory");
  }

  lemma RequiredPoliciesAreCategories()
    ensures PrerequisitesNameCategories(ALL_POLICIES)
  {
    var ps := ALL_POLICIES;
    assert CategoryAt(ps, 0, "taxCategory");
    assert CategoryAt(ps, 1, "industryCategory");
    assert CategoryAt(ps, 2, "environmentCategory");
    assert CategoryAt(ps, 3, "infrastructureCategory");
    assert CategoryAt(ps, 4, "educationCategory");
    assert CategoryAt(ps, 5, "healthcareCategory");
    assert CategoryAt(ps, 6, "welfareCategory");
    forall i | 0 <= i < |ps|
      ensures RequiresOnlyCategories(ps, ps[i])
    {
    }
  }

  lemma UpgradableEntries()
    ensures UpgradableEntriesComplete(ALL_POLICIES)
  {
  }

  lemma CatalogPoliciesPermanent()
    ensures AllPermanent(ALL_POLICIES)
  {
  }

  /** A cheap fingerprint of an id: its length and first character. */
  function IdCode(p: Policy): int {
    |p.id| * 256 + (if |p.id| > 0 then p.id[0] as int else 0)
  }

  /** The fingerprints of the catalog's ids, in catalog order. */
  const ID_CODES: seq<int> := [
    11 * 256 + 't' as int, 16 * 256 + 'i' as int, 19 * 256 + 'e' as int, 22 * 256 + 'i' as int,
    17 * 256 + 'e' as int, 18 * 256 + 'h' as int, 15 * 256 + 'w' as int, 12 * 256 + 'i' as int,
    15 * 256 + 'c' as int, 16 * 256 + 't' as int, 9 * 256 + 'c' as int, 24 * 256 + 'r' as int,
    24 * 256 + 'p' as int, 32 * 256 + 'i' as int, 21 * 256 + 's' as int, 25 * 256 + 'n' as int,
    20 * 256 + 'u' as int]

  lemma CodesDistinct()
    ensures forall i, j :: 0 <= i < j < |ID_CODES| ==> ID_CODES[i] != ID_CODES[j]
  {
  }

  lemma CodesMatch()
    ensures |ID_CODES| == |ALL_POLICIES|
    ensures forall i :: 0 <= i < |ALL_POLICIES| ==> IdCode(ALL_POLICIES[i]) == ID_CODES[i]
  {
  }

  /** Entries whose fingerprints are pairwise distinct have pairwise distinct ids. */
  lemma DistinctCodesDistinctIds(ps: seq<Policy>, codes: seq<int>)
    requires |codes| == |ps|
    requires forall i :: 0 <= i < |ps| ==> IdCode(ps[i]) == codes[i]
    requires forall i, j :: 0 <= i < j < |codes| ==> codes[i] != codes[j]
    ensures NoDuplicateIds(ps)
  {
    forall i, j | 0 <= i < j < |ps| ensures ps[i].id != ps[j].id {
      assert IdCode(ps[i]) != IdCode(ps[j]);
    }
  }

  /** The catalog's ids are pairwise distinct: they differ already in length or first character. */
  lemma CatalogIdsUnique()
    ensures NoDuplicateIds(ALL_POLICIES)
  {
    CodesDistinct();
    CodesMatch();
    DistinctCodesDistinctIds(ALL_POLICIES, ID_CODES);
  }

  /** Population shares sum to one and every group starts at approval 50. */
  lemma VoterGroupsWellFormed()
    ensures TotalPopulationShare(INITIAL_VOTER_GROUPS) == 1.0
    ensures forall i :: 0 <= i < |INITIAL_VOTER_GROUPS| ==> INITIAL_VOTER_GROUPS[i].approval == 50.0
  {
  }

  lemma InitialMetricsInRange()
    ensures forall id :: id in INITIAL_METRICS ==> InPercentRange(INITIAL_METRICS[id])
    ensures forall i :: 0 <= i < |TRACKED_METRIC_IDS| ==> TRACKED_METRIC_IDS[i] in INITIAL_METRICS
  {
  }

  /** Metric events always target an existing metric; pc events carry no target. */
  lemma EventsTargetMetrics()
    ensures forall i :: 0 <= i < |MINI_EVENTS| ==>
      var e := MINI_EVENTS[i].effect;
      (e.kind == MetricEvent ==> e.targetId.Some? && e.targetId.value in INITIAL_METRICS)
      && (e.kind == PcEvent ==> e.targetId.None?)
  {
  }

}
