/**
 * The policy card of the policy tree: which effects and upkeep it shows, and
 * the one button it offers (enact, unlock a category, upgrade, or a disabled
 * status). The card is the interface's gate in front of the ledger actions,
 * so its button is stated against `Ledger.Enact` and `Ledger.Upgrade`.
 * Styles, borders, opacity and the texts of the labels are display only.
 */
module Card {
  import opened Types
  import Ledger
  import Effects
  import Upkeep

  /** `policy.level || 1`: an absent (zero) level reads as level 1. */
  function Level(p: Policy): (n: int)
    ensures n != 0
    ensures p.level != 0 ==> n == p.level
  {
    if p.level == 0 then 1 else p.level
  }

  predicate IsUpgraded(p: Policy) {
    Level(p) > 1
  }

  /** The effects the card lists: the upgraded ones once upgraded, when declared. */
  function DisplayEffects(p: Policy): (e: NumberRecord)
    ensures e == p.effects || (IsUpgraded(p) && p.upgradedEffects == Some(e))
  {
    if IsUpgraded(p) && p.upgradedEffects.Some? then p.upgradedEffects.value else p.effects
  }

  /** The upkeep the card lists, if any: the upgraded one once upgraded, when declared. */
  function DisplayUpkeep(p: Policy): (u: Option<real>)
    ensures u == p.upkeep || (IsUpgraded(p) && u == p.upgradedUpkeep && u.Some?)
  {
    if IsUpgraded(p) && p.upgradedUpkeep.Some? then p.upgradedUpkeep else p.upkeep
  }

  /** For the levels the game produces, the card shows exactly what the turn applies and charges. */
  lemma DisplayMatchesTurn(p: Policy)
    requires p.level <= 2
    ensures DisplayEffects(p) == Effects.CurrentEffects(p)
    ensures DisplayUpkeep(p).GetOr(0.0) == Upkeep.EffectiveUpkeep(p)
  {
  }

  /** A category: no effects, no cost, and some catalog policy names it as parent. */
  predicate IsCategory(p: Policy, catalog: seq<Policy>) {
    |p.effects| == 0 && p.cost == 0.0
    && exists i :: 0 <= i < |catalog| && catalog[i].parentId == Some(p.id)
  }

  /** The button's caption, as a closed set of kinds. */
  datatype Label =
    | EnactLabel
    | CategoryActive
    | UpgradeLabel
    | TemporaryActive(turnsLeft: int)
    | PermanentUpgraded
    | PermanentActive
    | UnlockCategory
    | PrerequisitesUnmet
    | InsufficientFunds
    | CannotEnact

  /** What a click calls: `onEnact(policy)` or `onUpgrade(policy.id)`. */
  datatype Action = EnactAction | UpgradeAction

  datatype Button = Button(caption: Label, action: Action, disabled: bool)

  predicate CanAffordUpgrade(p: Policy, capital: real) {
    p.upgradable && p.upgradeCost.Some? && capital >= p.upgradeCost.value
  }

  /** The upgrade button's shape: upgradable, at level 1 and priced. */
  predicate OffersUpgrade(p: Policy) {
    p.upgradable && Level(p) == 1 && p.upgradeCost.Some?
  }

  /**
   * The card's button. An active policy shows a disabled category marker,
   * an upgrade button, or a disabled temporary/permanent status; an inactive
   * one shows an enact or unlock button, disabled with the first failing
   * reason (prerequisites before funds).
   */
  function ButtonFor(p: Policy, capital: real, isActive: bool, metrics: Metrics,
                     active: seq<Policy>, catalog: seq<Policy>): (b: Button)
    ensures b.action == UpgradeAction ==> isActive && !IsCategory(p, catalog) && OffersUpgrade(p)
    ensures !isActive ==> b.action == EnactAction
    ensures !isActive ==>
              (!b.disabled <==> capital >= p.cost && Ledger.CheckPrerequisites(p, metrics, active).met)
    ensures isActive ==> (!b.disabled <==> b.action == UpgradeAction && CanAffordUpgrade(p, capital))
    ensures b.caption != CannotEnact
    ensures b.disabled && !isActive ==>
              (b.caption == PrerequisitesUnmet <==> !Ledger.CheckPrerequisites(p, metrics, active).met)
    ensures b.disabled && !isActive ==>
              (b.caption == InsufficientFunds <==> Ledger.CheckPrerequisites(p, metrics, active).met && capital < p.cost)
  {
    var category := IsCategory(p, catalog);
    var canAffordEnact := capital >= p.cost;
    var met := Ledger.CheckPrerequisites(p, metrics, active).met;
    if isActive then
      if category then Button(CategoryActive, EnactAction, true)
      else if OffersUpgrade(p) then Button(UpgradeLabel, UpgradeAction, !CanAffordUpgrade(p, capital))
      else if p.currentDuration.Some? && p.currentDuration.value > 0 then
        Button(TemporaryActive(p.currentDuration.value), EnactAction, true)
      else Button(if IsUpgraded(p) then PermanentUpgraded else PermanentActive, EnactAction, true)
    else if category then
      var canActivate := canAffordEnact && met;
      var caption := if canActivate then UnlockCategory
                   else if !met then PrerequisitesUnmet
                   else if !canAffordEnact then InsufficientFunds
                   else UnlockCategory;
      Button(caption, EnactAction, !canActivate)
    else if canAffordEnact && met then Button(EnactLabel, EnactAction, false)
    else if !met then Button(PrerequisitesUnmet, EnactAction, true)
    else if !canAffordEnact then Button(InsufficientFunds, EnactAction, true)
    else Button(CannotEnact, EnactAction, true)
  }

  /**
   * The card as the policy tree builds it for catalog policy `p`: active
   * when some active policy has its id, and then showing that instance.
   */
  function CardFor(s: GameState, catalog: seq<Policy>, p: Policy): Button {
    var instance := FindById(s.activePolicies, p.id).GetOr(p);
    ButtonFor(instance, s.politicalCapital, HasId(s.activePolicies, p.id), s.metrics, s.activePolicies, catalog)
  }

  /**
   * For an inactive policy the enact button is enabled exactly when
   * enacting would succeed and the prerequisites are met.
   */
  lemma EnactButtonExactly(s: GameState, catalog: seq<Policy>, p: Policy)
    requires !s.gameOver && !HasId(s.activePolicies, p.id)
    ensures CardFor(s, catalog, p).action == EnactAction
    ensures !CardFor(s, catalog, p).disabled <==>
              Ledger.Enact(s, p).Success? && Ledger.CheckPrerequisites(p, s.metrics, s.activePolicies).met
  {
  }

  /**
   * For an active policy the button is enabled exactly when it is an
   * upgrade button of a non-category and upgrading would succeed. Instances
   * in play always carry a level (1 when enacted, 2 once upgraded).
   */
  lemma UpgradeButtonExactly(s: GameState, catalog: seq<Policy>, p: Policy)
    requires !s.gameOver && HasId(s.activePolicies, p.id)
    requires FindById(s.activePolicies, p.id).value.level != 0
    ensures !CardFor(s, catalog, p).disabled <==>
              CardFor(s, catalog, p).action == UpgradeAction
              && !IsCategory(FindById(s.activePolicies, p.id).value, catalog)
              && Ledger.Upgrade(s, p.id).Success?
  {
    var q := FindById(s.activePolicies, p.id).value;
    assert Ledger.UpgradeTarget(s, p.id) == Some(q);
    assert OffersUpgrade(q) <==> Ledger.Upgradable(q);
  }

  /** An active category never offers an action; only its children can be enacted. */
  lemma ActiveCategoryIsInert(s: GameState, catalog: seq<Policy>, p: Policy)
    requires HasId(s.activePolicies, p.id)
    requires IsCategory(FindById(s.activePolicies, p.id).value, catalog)
    ensures CardFor(s, catalog, p) == Button(CategoryActive, EnactAction, true)
  {
  }
}
