/**
 * The shapes of the governance simulation's state: metrics, policies (both
 * catalog definitions and active instances), voter groups, mini events, the
 * pending end-of-turn summary, achievements, rank tiers and the aggregate
 * game state. Icons, descriptions and other display-only fields are dropped.
 */
module Types {

  datatype Option<+T> = None | Some(value: T) {
    function GetOr(default: T): T {
      match this
      case Some(v) => v
      case None => default
    }
  }

  datatype Result<+R, +E> = Success(value: R) | Failure(error: E)

  /** One own property of a JavaScript object whose values are numbers. */
  datatype Entry = Entry(key: string, amount: real)

  /** A JavaScript object `{ [key: string]: number }`, in key insertion order. */
  type NumberRecord = seq<Entry>

  /** `record[key]`, or None when the key is not an own property. */
  function Lookup(r: NumberRecord, key: string): (v: Option<real>)
    ensures v.Some? <==> exists i :: 0 <= i < |r| && r[i].key == key
    ensures v.Some? ==> exists i :: 0 <= i < |r| && r[i].key == key && r[i].amount == v.value
  {
    if |r| == 0 then None
    else if r[0].key == key then Some(r[0].amount)
    else Lookup(r[1..], key)
  }

  /** JavaScript's `record[key] || 0` for a numeric record. */
  function LookupOrZero(r: NumberRecord, key: string): real {
    Lookup(r, key).GetOr(0.0)
  }

  predicate UniqueKeys(r: NumberRecord) {
    forall i, j :: 0 <= i < j < |r| ==> r[i].key != r[j].key
  }

  /** Metric values keyed by metric id (the source's `{ [id]: Metric }`, values only). */
  type Metrics = map<string, real>

  /** `Math.max(lo, Math.min(hi, x))` */
  function Clamp(x: real, lo: real, hi: real): (r: real)
    requires lo <= hi
    ensures lo <= r <= hi
    ensures lo <= x <= hi ==> r == x
    ensures x < lo ==> r == lo
    ensures x > hi ==> r == hi
  {
    if x > hi then hi else if x < lo then lo else x
  }

  function Max(a: real, b: real): (r: real)
    ensures r >= a && r >= b && (r == a || r == b)
  {
    if a >= b then a else b
  }

  predicate InPercentRange(x: real) {
    0.0 <= x <= 100.0
  }

  /** A metric-range prerequisite: the metric must lie within the given bounds. */
  datatype MetricBound = MetricBound(metricId: string, min: Option<real>, max: Option<real>)

  /**
   * `prerequisites?: { metrics?, policies? }`. An absent prerequisites object,
   * an absent field and an empty one behave identically in the source, so an
   * empty sequence stands for all three.
   */
  datatype Prerequisites = Prerequisites(metrics: seq<MetricBound>, policies: seq<string>)

  const NoPrerequisites := Prerequisites([], [])

  /**
   * A policy. The same shape serves as catalog definition and as active
   * instance; an instance additionally carries its level and remaining duration.
   */
  datatype Policy = Policy(
    id: string,
    cost: real,
    effects: NumberRecord,
    prerequisites: Prerequisites,
    duration: Option<int>,
    currentDuration: Option<int>,
    upkeep: Option<real>,
    level: int,
    upgradable: bool,
    upgradeCost: Option<real>,
    upgradedEffects: Option<NumberRecord>,
    upgradedUpkeep: Option<real>,
    parentId: Option<string>
  )

  function Ids(ps: seq<Policy>): (r: seq<string>)
    ensures |r| == |ps|
    ensures forall i :: 0 <= i < |ps| ==> r[i] == ps[i].id
  {
    if |ps| == 0 then [] else [ps[0].id] + Ids(ps[1..])
  }

  /** `policies.some(p => p.id === id)` */
  predicate HasId(ps: seq<Policy>, id: string) {
    exists i :: 0 <= i < |ps| && ps[i].id == id
  }

  /** `policies.find(p => p.id === id)` */
  function FindById(ps: seq<Policy>, id: string): (r: Option<Policy>)
    ensures r.Some? <==> HasId(ps, id)
    ensures r.Some? ==> r.value.id == id
    ensures r.Some? ==> exists i :: 0 <= i < |ps| && ps[i] == r.value
                                  && forall j :: 0 <= j < i ==> ps[j].id != id
  {
    if |ps| == 0 then None
    else if ps[0].id == id then Some(ps[0])
    else
      var r := FindById(ps[1..], id);
      assert forall k :: 0 <= k < |ps| - 1 ==> ps[1..][k] == ps[k + 1];
      r
  }

  /** No policy id appears twice in the list. */
  predicate NoDuplicateIds(ps: seq<Policy>) {
    forall i, j :: 0 <= i < j < |ps| ==> ps[i].id != ps[j].id
  }

  /** In a list with unique ids, looking up a member's id finds that member. */
  lemma FindUnique(all: seq<Policy>, p: Policy)
    requires NoDuplicateIds(all) && p in all
    ensures FindById(all, p.id) == Some(p)
  {
    var k :| 0 <= k < |all| && all[k] == p;
    assert HasId(all, p.id);
    var f := FindById(all, p.id).value;
    var i :| 0 <= i < |all| && all[i] == f && forall j :: 0 <= j < i ==> all[j].id != p.id;
    assert i == k;
  }

  /** `{...policy, currentDuration: policy.duration, level: 1}` */
  function NewInstance(p: Policy): Policy {
    p.(currentDuration := p.duration, level := 1)
  }

  datatype EventKind = MetricEvent | PcEvent

  datatype EventEffect = EventEffect(kind: EventKind, targetId: Option<string>, value: real)

  datatype MiniEvent = MiniEvent(id: string, effect: EventEffect)

  datatype VoterGroup = VoterGroup(
    id: string,
    populationPercentage: real,
    approval: real,
    metricPriorities: NumberRecord
  )

  /** The pending preview produced by ending a turn and consumed by committing it. */
  datatype TurnSummary = TurnSummary(
    turnIdentifierBefore: string,
    metricsBefore: Metrics,
    metricsAfter: Metrics,
    pcBefore: real,
    pcAfter: real,
    approvalBefore: real,
    approvalAfter: real,
    policiesDeactivated: seq<Policy>,
    policiesExpired: seq<Policy>,
    eventTriggered: Option<MiniEvent>,
    significantChanges: map<string, real>
  )

  /** The executable achievement conditions, as a closed set of kinds. */
  datatype Condition =
    | MetricAtLeast(metricId: string, threshold: real)
    | StandardPoliciesActiveAtLeast(count: nat)
    | MonthsRuledAtLeast(months: nat)

  datatype Achievement = Achievement(id: string, unlocked: bool, condition: Condition)

  datatype Rank = Rank(title: string, minScore: real)

  datatype ScoreItem = ScoreItem(rawValue: real, contribution: real)

  datatype GameOverReason =
    | PoliticalBankruptcy
    | NationalCrisis
    | WidespreadUnhappiness
    | PublicProtest
    | ElectionLost

  datatype ElectionOutcome = Won | Lost

  /** The aggregate root (`EnhancedGameState`, presentation fields dropped). */
  datatype GameState = GameState(
    year: int,
    month: int,
    turnIdentifier: string,
    politicalCapital: real,
    metrics: Metrics,
    activePolicies: seq<Policy>,
    voterGroups: seq<VoterGroup>,
    overallApproval: real,
    gameOver: bool,
    gameOverReason: Option<GameOverReason>,
    electionUpcoming: bool,
    electionCooldown: int,
    electionResult: Option<ElectionOutcome>,
    currentEvent: Option<MiniEvent>,
    showEventModal: bool,
    showSummaryModal: bool,
    summary: Option<TurnSummary>,
    achievements: seq<Achievement>,
    finalScore: Option<int>,
    finalRank: Option<Rank>,
    scoreBreakdown: seq<ScoreItem>,
    totalMonthsRuled: int,
    delegationActive: bool,
    showElectionModal: bool,
    showResetConfirmation: bool
  )
}
