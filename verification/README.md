# democracy4-lite turn engine, in Dafny

A model of the turn-resolution engine of democracy4-lite, a browser game in
which the player governs a nation month by month. The player spends political
capital (PC) to enact and upgrade policies. Policies move six metrics
(economy, happiness, environment, stability, education, healthcare), all
clamped to 0..100. Five voter groups turn those metrics into an overall
approval rating.

A turn has two phases:
- **Ending the turn** computes a summary without changing the committed state.
  It charges upkeep (switching off the dearest policies when PC runs short),
  applies policy effects, earns PC from the economy, applies an optional mini
  event, and lists the significant metric changes.
- **Committing** applies the summary: it advances the calendar, counts down to
  the next election and rebuilds the active policy list.

Around the turn:
- The game ends on a national crisis, widespread unhappiness, a public protest,
  political bankruptcy, or a lost election.
- A final score and rank are computed at the end.
- Achievements unlock once and stay unlocked.
- A delegation mode plays the game itself. It makes one greedy decision per
  turn, tiered by how badly each metric needs help.

Modelling choices:
- Every operation is a pure function over an immutable `GameState`.
- JavaScript numbers are `real`; calendar values and durations are `int`.
- A JavaScript object of numbers is a sequence of `Entry(key, amount)`, kept in
  key order.
- The metrics object is a `map<string, real>` of metric values.
- The random event draw is an `Option<MiniEvent>` parameter.
- The policy catalog is a parameter of delegation. Its properties therefore
  hold for any catalog, with `Catalog.ALL_POLICIES` as the shipped one.
- Game-over reasons and prerequisite reasons are datatypes, not display text.

Modules follow the program's structure:

| module | file | models |
|---|---|---|
| `Types` | types.dfy | the shapes of types.ts, without icons and display text |
| `Catalog` | catalog.dfy | the constants of constants.tsx and facts about them |
| `Calendar` | calendar.dfy | `generateTurnIdentifier` and the month advance |
| `Ordering` | ordering.dfy | the stable `Array.prototype.sort` the source relies on |
| `Approval` | approval.dfy | `_calculateOverallApprovalLogic` |
| `Ledger` | ledger.dfy | `enactPolicy`, `upgradePolicy`, `checkPolicyPrerequisites` |
| `Upkeep` | upkeep.dfy | the upkeep step of the end of turn |
| `Effects` | effects.dfy | policy effects, durations, economy gain, mini events, significant changes |
| `Turn` | turn.dfy | `calculateEndOfTurnSummary` and `proceedToNextMonth` |
| `Terminal` | terminal.dfy | game over, elections, final score and rank, achievements |
| `Delegation` | delegation.dfy | `makeAutomatedPolicyDecisions` |
| `Session` | session.dfy | the initial state and the delegation tick |
| `Card` | policy_card.dfy | the policy card's displayed values and its button |
| `SummaryModal` | summary_modal.dfy | the report's next-turn caption and bar heights |

The commit and the delegation tick are each modelled as written and also
corrected. `Turn.Commit` and `Session.AutoplayAsWritten` follow the code;
`Turn.CommitCorrected` and `Session.AutoplayTick` are the corrected versions.
Both defects are explained under "Findings".

## Model

| member | source | states |
|---|---|---|
| `Calendar.NatToDecimal` | constants.tsx:55-57 | `String(n)` for a natural number is a non-empty run of digits with no leading zero, one character exactly when n < 10 |
| `Calendar.PadStart` | constants.tsx:55-57 | `padStart` leaves text at least as wide unchanged; otherwise it prefixes the pad character up to the exact width and keeps the text as suffix |
| `Calendar.NextMonth` | App.tsx:873-878 | month 12 (or beyond) rolls over to January of the next year; any earlier month advances by one in the same year |
| `Calendar.PaddedMonthDigits` | constants.tsx:55-57 | a month in 0..99 renders as exactly two digits whose value is the month |
| `Catalog.RankTiersWellFormed` | constants.tsx:400-407 | the rank tiers are non-empty, start at 0 and ascend strictly, so every non-negative score has a tier |
| `Catalog.CategoryShape` | constants.tsx:103-306 | category entries are free, upkeep-free and effect-free roots; exactly the first seven entries have no effects |
| `Catalog.CategoriesAreParents` | constants.tsx:103-306 | every effect-free entry is the parent of another entry |
| `Catalog.PolicyParentsAreCategories` | constants.tsx:175-306 | every entry with effects hangs under an effect-free parent |
| `Catalog.RequiredPoliciesAreCategories` | constants.tsx:175-306 | every required policy id names a category, and categories require nothing, so the prerequisite graph has depth one |
| `Catalog.UpgradableEntries` | constants.tsx:175-306 | every upgradable entry declares its upgrade cost, upgraded effects and upgraded upkeep |
| `Catalog.CatalogPoliciesPermanent` | constants.tsx:101-306 | no catalog entry declares a duration |
| `Catalog.CatalogIdsUnique` | constants.tsx:101-306 | catalog ids are pairwise distinct |
| `Catalog.VoterGroupsWellFormed` | constants.tsx:72-98 | population shares sum to 1 and every group starts at approval 50 |
| `Catalog.InitialMetricsInRange` | constants.tsx:61-69 | every initial metric lies in 0..100 and every tracked metric id is present |
| `Catalog.EventsTargetMetrics` | constants.tsx:310-317 | metric events target an existing metric; PC events carry no target |
| `Ordering.FirstMin` | App.tsx:582 | the chosen index has a minimal key and no earlier element has an equal key (a stable sort's first element) |
| `Ordering.SortBy` | App.tsx:554-556 | sorting returns a permutation of its input in ascending key order |
| `Ordering.InsertStable` | App.tsx:707-711 | inserting into a sorted list puts the new element before every element with its own key and leaves the order of the others alone |
| `Ordering.SortStable` | App.tsx:707-711 | the sort is stable: for every key, the elements with that key come out in their input order |
| `Ordering.FilterOrder` | App.tsx:474-478 | filtering keeps list order: each kept element sits at a position of the input before which every passing element was kept earlier |
| `Ordering.FirstMinOfFilter` | App.tsx:474-479 | the head of a stable sort of a filtered list is the first in list order among the passing elements with the least key |
| `Approval.AffinityBonus` | App.tsx:64-66 | only capitalists, environmentalists and socialists can receive the affinity bonus |
| `Approval.GroupApproval` | App.tsx:58-69 | a group's approval is 50 plus its weighted deviation and bonus when that lies in 0..100, exactly 100 above it and exactly 0 below it |
| `Approval.Regroup` | App.tsx:58-73 | the groups keep their order and every field but approval; each approval is recomputed and lies in 0..100 |
| `Approval.Recompute` | App.tsx:51-78 | the overall approval lies in 0..100 and is 50 when the total population share is not positive |
| `Approval.OverallWithinGroupRange` | App.tsx:75-77 | with non-negative shares, the overall approval lies between the lowest and highest group approval |
| `Approval.UnanimousOverall` | App.tsx:75-77 | when every group has the same approval, the overall approval equals it |
| `Approval.IgnoresPriorApprovals` | App.tsx:51-78 | two group lists that differ only in their stored approvals give the same result |
| `Approval.RecomputeIdempotent` | App.tsx:51-78 | recomputing twice under the same metrics changes nothing further |
| `Approval.GroupApprovalMonotone` | App.tsx:58-69 | raising a metric that a group weights non-negatively never lowers that group's approval |
| `Approval.NeutralMetricsGiveNeutralApproval` | App.tsx:51-78 | with every metric at 50, every group and the electorate stand at 50 |
| `Ledger.BoundReasons` | App.tsx:414-428 | a metric bound yields no reason exactly when the metric exists and lies within the bounds; a missing metric yields the single unavailable reason |
| `Ledger.PolicyReasons` | App.tsx:431-439 | a required-policy reason is given exactly for each required id that no active policy carries |
| `Ledger.CheckPrerequisites` | App.tsx:407-444 | the check is met exactly when it gives no reasons, exactly when every bound holds and every required policy is active |
| `Ledger.NoPrerequisitesAlwaysMet` | App.tsx:408 | a policy without prerequisites is met with no reasons |
| `Ledger.MetStaysMetWithMorePolicies` | App.tsx:431-439 | a met check stays met when more policies become active |
| `Ledger.Enact` | App.tsx:350-373 | enacting is refused when the game is over, PC is short or the id is active; otherwise PC drops by the cost and one level-1 instance with the declared duration is appended, nothing else changing |
| `Ledger.EnactKeepsIdsUnique` | App.tsx:356-369 | enacting keeps active ids unique, and a second enactment of the same policy is refused |
| `Ledger.Upgrade` | App.tsx:375-405 | upgrading succeeds exactly when the first active instance with that id is upgradable, at level 1, priced and affordable; it pays the upgrade cost and raises that id to level 2 |
| `Ledger.UpgradeOnce` | App.tsx:381 | a policy can be upgraded only once |
| `Ledger.UpgradeKeepsIdsUnique` | App.tsx:401 | upgrading keeps active ids unique |
| `Ledger.LedgerKeepsLevels` | App.tsx:350-405 | enacting and upgrading keep every instance at level 1 or 2 |
| `Upkeep.DearestFirst` | App.tsx:694-711 | the charging policies are ordered by descending upkeep, as a permutation of the charging ones |
| `Upkeep.DearestFirstStable` | App.tsx:707-711 | policies with equal upkeep keep their active-list order, so the earlier one is switched off first |
| `Upkeep.SwitchOff` | App.tsx:713-722 | the switched-off policies are the shortest prefix of the dearest-first list after which PC covers the remaining upkeep |
| `Upkeep.ResolveUpkeep` | App.tsx:691-725 | the survivors are the active policies minus the switched-off ones; with nothing to charge everything is kept at the same PC |
| `Upkeep.CoveredUpkeepKeepsAll` | App.tsx:691-725 | when PC covers the total upkeep, nothing is switched off and PC pays the whole total |
| `Upkeep.RemainingUpkeep` | App.tsx:713-724 | the survivors' upkeep equals the total less what the switched-off policies charged |
| `Upkeep.UpkeepSettled` | App.tsx:713-724 | after upkeep PC is non-negative and equals PC minus the survivors' upkeep, floored at 0 |
| `Upkeep.SwitchOffOnlyWhileShort` | App.tsx:706-722 | policies are switched off only while PC is short of the remaining upkeep |
| `Upkeep.UpkeepSumPermutation` | App.tsx:701-704 | the total upkeep depends only on which policies are charged, not their order |
| `Effects.ApplyEntry` | App.tsx:736-742 | an effect on an existing metric moves and clamps it; a `politicalCapital` effect on no metric adds to the PC change; anything else is ignored |
| `Effects.ApplyRecord` | App.tsx:736-743 | every metric ends at its value run through the record's entries for it in order, each addition clamped to 0..100 (reference `ClampedRun`); keys, range and unmentioned metrics are kept |
| `Effects.RecordSingleEffect` | App.tsx:736-743 | a metric named by exactly one entry ends at its old value plus that amount, clamped to 0..100 |
| `Effects.RecordCapital` | App.tsx:740-741 | the PC change of a record is the sum of its `politicalCapital` entries |
| `Effects.RaisingRecordNeverLowers` | App.tsx:738-739 | a record that only raises a metric never lowers it |
| `Effects.ApplyPolicies` | App.tsx:732-743 | every metric ends at its value run through each policy's current effects in list order, clamped after each addition (reference `PoliciesClampedRun`); keys and range are kept |
| `Effects.PoliciesCapitalSum` | App.tsx:732-760 | the policies' PC change is the sum of their `politicalCapital` effects |
| `Effects.Expired` | App.tsx:745-753 | the expired list holds exactly the decremented copies of the policies whose duration runs out this turn |
| `Effects.PermanentNeverExpire` | App.tsx:747 | policies without a duration never expire |
| `Effects.EconomyGain` | App.tsx:727 | the gain is the whole number g with 50·(g−1) ≤ economy < 50·g, i.e. 1 plus the number of full 50s; between 1 and 3 for an in-range economy |
| `Effects.ApplyEvent` | App.tsx:769-790 | a PC event moves PC with a floor of 0; a metric event clamps only its existing target and leaves PC unchanged; an empty target id is falsy and moves nothing |
| `Effects.SignificantExactly` | App.tsx:792-802 | a metric is listed exactly when it moved by 5 or more in either direction |
| `Turn.Summarize` | App.tsx:678-816 | the summary keeps the before-values, takes metrics and PC from `TurnOutcome` on what upkeep leaves, recomputes approval from the new metrics, lists exactly the changes of 5 or more, and reports the upkeep and expiry outcome |
| `Turn.TurnOutcome` | App.tsx:727-790 | the metric and capital side of a turn keeps the metric keys and range, and leaves PC ≥ 0 |
| `Turn.OutcomeMetric` | App.tsx:732-790 | each metric after the turn is its value run through the survivors' effects, each addition clamped, then moved and clamped again when the event targets it (reference `MetricAfter`) |
| `Turn.OutcomeCapital` | App.tsx:724-786 | PC after the turn is max(0, PC after upkeep + 1 + floor(economy before/50) + the policies' PC effects), then moved by a PC event and floored again (reference `CapitalAfter`) |
| `Turn.SummaryMetric` | App.tsx:678-816 | the summary's metrics agree with `MetricAfter` on the upkeep survivors |
| `Turn.SummaryCapital` | App.tsx:678-816 | the summary's PC agrees with `CapitalAfter` on the PC and survivors upkeep leaves |
| `Turn.EndTurn` | App.tsx:678-824 | ending a turn does nothing when blocked; otherwise it only stores the summary, opens its screen and updates the group approvals |
| `Turn.EndTurnCommitsNothing` | App.tsx:818-823 | ending a turn never changes the committed metrics, PC or active policies |
| `Turn.CommitAsWrittenFreezesDurations` | App.tsx:856-869 | as written, the commit keeps the surviving policies that do not run out with their durations unchanged |
| `Turn.TimedPolicyNeverExpiresAsWritten` | App.tsx:856-869 | as written, a policy with two months left neither expires nor counts down |
| `Turn.CommitCountsDown` | App.tsx:745-758 | corrected, the commit keeps each surviving policy with one month less and drops exactly those that run out |
| `Turn.DurationLimitsLifetime` | App.tsx:745-756 | corrected, a policy with d months left stays active exactly d more turns |
| `Turn.Commit` | App.tsx:826-911 | committing with no summary does nothing; otherwise it advances the calendar, takes metrics and PC from the summary, rebuilds the active list as written, recomputes approval and groups, counts the election down (flagging an election at 0), clears the summary, adds a month ruled and changes nothing else |
| `Turn.CommitCorrected` | App.tsx:856-869 | the corrected commit differs from `Commit` only in its active list, which is the corrected rebuild |
| `Turn.CooldownBounded` | App.tsx:881-886 | the election countdown stays within 1..48 and triggers exactly when it was at 1 |
| `Turn.ElectionEveryInterval` | App.tsx:881-886 | from a fresh countdown, the first 47 commits hold no election and the 48th does |
| `Turn.EndThenCommit` | App.tsx:678-911 | a turn ended and committed shows the summary's approval and PC, keeps PC ≥ 0, keeps active ids unique, and carries forward exactly the upkeep survivors that do not run out, durations unchanged |
| `Turn.EndThenCommitCorrected` | App.tsx:745-758 | corrected, a turn ended and committed carries forward the upkeep survivors counted down one month, those that run out dropped, with ids unique |
| `Turn.EndTurnRecordsUpkeep` | App.tsx:691-725 | ending a turn records the switched-off policies and the expired ones among the survivors, and leaves the active list alone |
| `Turn.CommitShowsSummaryApproval` | App.tsx:763-888 | the approval committed equals the approval the summary showed |
| `Turn.KeepUnexpiredKeepsUnique` | App.tsx:856-869 | keeping the policies that do not run out keeps ids unique and adds nothing |
| `Terminal.Round` | App.tsx:958 | `Math.round` gives the integer within half a unit, rounding halves up |
| `Terminal.RankIndex` | App.tsx:947-956 | the search from the top returns the highest tier the score reaches, or tier 0 when none is reached |
| `Terminal.Breakdown` | App.tsx:928-943 | the five score items are the core-metric mean, PC, approval, months ruled and achievements, each contributing its raw value times its weight |
| `Terminal.FinalScore` | App.tsx:920-959 | the score is the rounded sum of contributions; the rank is the tier the unrounded sum reaches, the highest one for a non-negative sum; the months ruled are reported |
| `Terminal.RankIsHighestReached` | App.tsx:947-956 | for a non-negative score the rank is the highest tier whose minimum the score reaches |
| `Terminal.RankMonotone` | App.tsx:947-956 | a higher score never earns a lower rank |
| `Terminal.TotalIsWeightedSum` | App.tsx:930-945 | the unrounded score is the weighted sum of the five raw values |
| `Terminal.FirstMonthCountsOne` | App.tsx:925 | with no months recorded in January 2024, one month counts as ruled |
| `Terminal.Verdict` | App.tsx:968-985 | a national crisis beats unhappiness, which beats a protest after July 2024, which beats bankruptcy after January 2024; each holds exactly under its condition |
| `Terminal.EvaluateGameOver` | App.tsx:962-1004 | a finished game is left alone; a verdict ends the game, closes the open screens, records score, rank, breakdown and months ruled, switches delegation off and changes nothing else |
| `Terminal.GameOverIsFinal` | App.tsx:963 | checking for game over again changes nothing |
| `Terminal.HealthyStateContinues` | App.tsx:968-985 | a stable, content, still-popular nation with PC left is not over |
| `Terminal.HoldElection` | App.tsx:1007-1040 | an election is won exactly at approval 50 or more, granting 20 PC; a loss ends the game with the final score, rank, breakdown and months ruled and changes nothing else |
| `Terminal.ElectionHeldOnce` | App.tsx:1007-1040 | holding the election leaves none pending, so a second pass changes nothing |
| `Terminal.UnlockAchievements` | App.tsx:284-302 | achievements are checked only while play is live, only flip to unlocked, and nothing else changes |
| `Terminal.UnlockIdempotent` | App.tsx:284-302 | unlocking twice is the same as unlocking once |
| `Terminal.UnlockedExactly` | App.tsx:287-295 | an achievement is unlocked afterwards exactly when it already was or its condition holds |
| `Delegation.Worst` | App.tsx:554-556 | the tracked readings are sorted ascending by value, as a permutation of the readings |
| `Delegation.WorstStable` | App.tsx:554-556 | tracked metrics with equal values keep their tracked-list order |
| `Delegation.BestUpgradeFor` | App.tsx:473-479 | the chosen upgrade is affordable, helps the metric, and helps it at least as much as any other; on equal gains it is the first in the active list; none exactly when no candidate exists |
| `Delegation.FindCategory` | App.tsx:508-512 | the category found is an inactive, effect-free catalog entry with that id; none exactly when no such entry exists |
| `Delegation.CandidateOf` | App.tsx:495-517 | a policy is a direct candidate exactly when enactable; otherwise it is a candidate through the category under its first missing required id exactly when that is its single unmet prerequisite, the id is not empty (an empty id is falsy) and the category can be enacted; else none |
| `Delegation.BestEnactFor` | App.tsx:495-528 | the chosen candidate is a catalog entry's candidate, no candidate sorts before it (direct before unlock, larger gain first), and on equal keys it is the first in catalog order; none exactly when no entry has a candidate |
| `Delegation.DirectBeforeUnlock` | App.tsx:521-525 | a direct enactment always wins over a category unlock, and the winner gains the metric at least as much |
| `Delegation.DecideFor` | App.tsx:473-549 | for one metric, the best helpful affordable upgrade is chosen when there is one; otherwise the best candidate is enacted, through its category when it needs one; otherwise nothing; every decision is sound |
| `Delegation.DecideAmong` | App.tsx:470-551 | over a list of metrics the decision is that of the first metric with an action, and nothing exactly when no metric has one; every decision is sound |
| `Delegation.FirstDecisionShifts` | App.tsx:472-550 | when the head metric has no action, the first deciding metric of the tail is the first of the whole list |
| `Delegation.NoHarmExactly` | App.tsx:568-612 | the harm score is 0 exactly when no tracked metric under 45 would be lowered |
| `Delegation.GeneralUpgrade` | App.tsx:568-595 | fallback 1 picks an affordable upgrade of an active policy with the least harm, then the cheaper upgrade, then the first in the active list; none exactly when nothing is upgradable |
| `Delegation.GeneralEnact` | App.tsx:597-627 | fallback 2 picks an enactable standard policy with the least harm, then the cheaper cost, then the first in catalog order; none exactly when none is enactable |
| `Delegation.CheapestCategory` | App.tsx:629-647 | fallback 3 picks the cheapest enactable category, the first in catalog order on equal costs; none exactly when none is enactable |
| `Delegation.EqualCostsFirstCategory` | App.tsx:630-636 | when the enactable categories all cost the same, fallback 3 takes the first of them in catalog order |
| `Delegation.FirstCategoryUnlockedFirst` | App.tsx:630-636 | every shipped category is free, so with nothing active fallback 3 unlocks the first catalog entry |
| `Delegation.Fallback` | App.tsx:567-647 | a general upgrade when there is one, else a general enactment, else the cheapest category; nothing exactly when nothing is upgradable or enactable |
| `Delegation.Decide` | App.tsx:447-647 | below 5 PC or after game over nothing is decided; otherwise the bands' decision when they find one, else the fallbacks'; nothing exactly when the bands find nothing and nothing is upgradable or enactable; every decision is sound |
| `Delegation.Apply` | App.tsx:474-549 | carrying out a decision changes only PC and the active list, paying exactly the cost or upgrade cost |
| `Delegation.AutomatedDecisions` | App.tsx:447-651 | an idle automation changes nothing; otherwise only PC and the active list change, and PC stays non-negative |
| `Delegation.ActsThroughLedger` | App.tsx:474-549 | every automated action is exactly what the player's enact or upgrade would do |
| `Delegation.DecisionsKeepIdsUnique` | App.tsx:495-647 | the automation never adds an id that is already active |
| `Delegation.EnactsOnlyWhenPrerequisitesMet` | App.tsx:495-647 | nothing is enacted whose prerequisites are unmet |
| `Delegation.BandsJoin` | App.tsx:559-565 | over ascending readings, adjacent value bands concatenate into the wider band |
| `Delegation.DecideAmongAppend` | App.tsx:470-472 | deciding over two lists in turn is deciding over their concatenation |
| `Delegation.BandsAreOnePass` | App.tsx:559-565 | the three tiers decide as one pass over the metrics under 60, worst first |
| `Session.InitialState` | App.tsx:196-243 | a new game starts in January 2024 with 150 PC, the initial metrics and groups, nothing enacted, the full election countdown and no summary |
| `Session.FirstTurnEarnsTwo` | App.tsx:727-761 | from the initial metrics and 150 PC with nothing enacted and no event, the first turn ends with 152 PC |
| `Session.FreshGameIsLive` | App.tsx:196-243 | a fresh game has all metrics in range and no ending applies |
| `Session.AutoplayAsWritten` | App.tsx:654-675 | the tick runs only with delegation on, the game running and no summary, event, election or reset-confirmation screen open; as written, it stores a summary computed from the state before the decision on the decided state |
| `Session.RequestReset` | App.tsx:1112-1114 | asking to start over opens the confirmation dialog, which pauses delegation, and changes nothing else |
| `Session.CancelReset` | App.tsx:1121-1123 | declining closes the dialog and changes nothing else |
| `Session.ConfirmReset` | App.tsx:1059-1119 | confirming starts a new game: January 2024, 150 PC, the initial metrics, nothing enacted, delegation off, the dialog closed |
| `Session.ResetDialogRoundTrip` | App.tsx:1112-1123 | opening and then declining the dialog gives back the game as it was |
| `Session.ResetDialogPausesDelegation` | App.tsx:656-675 | while the reset-confirmation dialog is open, neither the as-written nor the corrected tick plays a turn |
| `Session.DecisionSpendRefunded` | App.tsx:654-675 | as written, the committed PC ignores whatever the automated decision spent |
| `Session.ExampleSpendRefunded` | App.tsx:654-675 | from any state where every tracked metric is at 60 or more, nothing is enacted and 10 PC is spare, the automation pays 10 for the one-policy catalog's policy, and as written the commit gives it back |
| `Session.RefundExampleSpends` | App.tsx:654-675 | with a one-policy catalog the automation spends 10 PC, and as written the commit restores it |
| `Session.AutoplayTick` | App.tsx:654-675 | under the same gate, including the reset-confirmation screen; corrected, the summary is computed from the decided state |
| `Session.DecisionSpendKept` | App.tsx:654-675 | corrected, the committed PC is what the turn earns on top of what the decision left |
| `Card.DisplayEffects` | components/PolicyCard.tsx:19-22 | the card lists the base effects, or the upgraded ones once upgraded |
| `Card.DisplayUpkeep` | components/PolicyCard.tsx:19-24 | the card lists the base upkeep, or the declared upgraded one once upgraded |
| `Card.DisplayMatchesTurn` | components/PolicyCard.tsx:22-24 | for levels up to 2 the card shows exactly the effects the turn applies and the upkeep it charges |
| `Card.ButtonFor` | components/PolicyCard.tsx:26-159 | an inactive card is enabled exactly when PC covers the cost and prerequisites are met, naming prerequisites before funds; an active card is enabled only as an affordable upgrade of a level-1 non-category; "cannot enact" is unreachable |
| `Card.EnactButtonExactly` | components/PolicyCard.tsx:80-157 | for an inactive policy the button is enabled exactly when enacting would succeed and prerequisites are met |
| `Card.UpgradeButtonExactly` | components/PolicyCard.tsx:89-104 | for an active policy the button is enabled exactly when it is an upgrade of a non-category and upgrading would succeed |
| `Card.ActiveCategoryIsInert` | components/PolicyCard.tsx:89-96 | an active category's button is always disabled |
| `SummaryModal.SplitOnce` | components/EndOfTurnSummaryModal.tsx:130 | splitting text with one separator gives the parts before and after it |
| `SummaryModal.Split` | components/EndOfTurnSummaryModal.tsx:130 | splitting always gives at least one piece, and exactly one when the separator does not occur |
| `SummaryModal.ParseDigits` | components/EndOfTurnSummaryModal.tsx:131-132 | text made only of digits parses to its full decimal value |
| `SummaryModal.ParseInt` | components/EndOfTurnSummaryModal.tsx:131-132 | `parseInt` gives a number exactly when a digit follows at most one leading sign, and that number is the value of the leading run of digits, negated after a '-' |
| `SummaryModal.ParseSignedPrefix` | components/EndOfTurnSummaryModal.tsx:131-132 | an optional sign, a run of digits and any tail that does not continue the run parse to the signed value of the digits, whatever the tail holds |
| `SummaryModal.ParseSignPrefix` | components/EndOfTurnSummaryModal.tsx:131-132 | a '+' or '-', a run of digits and a tail that does not continue it parse to the digits' value, negated after '-' |
| `SummaryModal.ParseDigitPrefix` | components/EndOfTurnSummaryModal.tsx:131-132 | a run of digits and a tail that does not continue it parse to the digits' value |
| `SummaryModal.IdentifierReadsBack` | components/EndOfTurnSummaryModal.tsx:130-132 | the identifier of a non-negative year and a calendar month splits into exactly two pieces that parse back to the year and the month |
| `SummaryModal.DecimalRoundTrip` | components/EndOfTurnSummaryModal.tsx:131-132 | reading back the decimal rendering of a natural number gives the number |
| `SummaryModal.NextTurnCaption` | components/EndOfTurnSummaryModal.tsx:130-138 | when year and month parse, the caption is the identifier of the month after them; an unreadable year shows "NaN" |
| `SummaryModal.CaptionRoundTrip` | components/EndOfTurnSummaryModal.tsx:130-138 | for a non-negative year and a month 1..12 the caption names the calendar's next month |
| `SummaryModal.CaptionMatchesCommit` | components/EndOfTurnSummaryModal.tsx:130-138 | the report names, as the next turn, the identifier the commit then moves to |
| `SummaryModal.BarHeight` | components/EndOfTurnSummaryModal.tsx:30-33 | a bar is 0..80 pixels, 0 on a zero scale, and proportional to the value within the scale |
| `SummaryModal.BarHeightMonotone` | components/EndOfTurnSummaryModal.tsx:30-33 | on a positive scale a larger value never draws a shorter bar |

## Left out

- Rendering, styles, toasts, the news feed and advisor messages are display only.
- Game-over, election and prerequisite messages are modelled as reason datatypes, not text.
- Saving and loading through `localStorage` is left out. The reset-confirmation dialog is modelled as a flag that pauses delegation; the news item and the cleared undo snapshot of a restart are not modelled.
- The timers are left out. The 700 ms delay before delegation ends the turn and the automatic closing of the summary become explicit calls.
- `Math.random` is left out: the event draw is an input.
- React's effect scheduling is not modelled. Each handler or effect is one state transition. When the game-over and election effects fire on the same state, their interleaving is not modelled.
- The reasons produced by the card's own prerequisite check are not modelled separately. That check differs from the one in App.tsx only in its message text.
- Approval: a group's affinity bonus reads a metric the state may lack. The source would throw there; the model gives no bonus. A priority weight missing from a group gives NaN in the source and is not modelled.
- Achievements: a condition on a metric the state lacks counts as not met, where the source would throw.
- The `policyMaster` and `longReign` conditions are modelled as counts over the state, the same as the other conditions.
- `Turn.Summarize`, `Turn.EndTurn`: require an `economy` metric. Without one the source throws when it reads `metrics.economy.value` (App.tsx:727); the model does not model that throw.
- `Effects.EconomyGain`: requires an `economy` metric, for the same reason.
- `Terminal.Verdict`, `Terminal.EvaluateGameOver`: require `stability` and `happiness` metrics. Without them the source throws (App.tsx:968-975); the model does not model that throw.
- `Turn.SummaryCapital`, `Turn.OutcomeCapital`: stated for metric sets without a `politicalCapital` metric, which the game never has. With one, that key's effects move the metric instead of the capital, and `TurnOutcome` still gives the result.
- `Effects.SignificantChanges`: the changes are a map from metric id to change. It has no list order, no metric names and no direction text.
- The end-of-turn list of decremented policies that the source builds and then never reads (App.tsx:729, 756) is not modelled as a separate value.
- `SummaryModal.ParseInt` does not skip leading whitespace; turn identifiers never contain any.
- `SummaryModal.CaptionRoundTrip` is stated for non-negative years only. A negative year renders with a leading '-', which the split treats as a separator.
- Number formatting (`toFixed`) is left out. The final score's `Math.round` is modelled.
- `enactPolicy` checks its guards against the state of the render but appends through a functional update. The model applies both to the same state.
- The advisor (`_selectAdvisorMessageLogic`) and the text-generation stub are left out: they choose display text only.

## Findings

| source | as written | input that shows it | evidently intended | confidence | as-written member | corrected member |
|---|---|---|---|---|---|---|
| App.tsx:856-869 | The commit rebuilds the active list from the expired copy of a policy, else from the undecremented instance in `prev.activePolicies`. A policy that does not expire this turn keeps its old `currentDuration`. | A policy with `currentDuration` 2: it is not expired after one turn and is kept with 2 again. It never expires (no shipped catalog entry declares a duration, so this is latent). | Each kept policy carries its decremented duration forward, so a policy with d months left lasts exactly d turns | not executed | `Turn.TimedPolicyNeverExpiresAsWritten` | `Turn.EndThenCommitCorrected` |
| App.tsx:654-675 | In delegation mode the effect applies the automated decision through a state update. It then calls the end-of-turn function after a delay, and that function reads the `gameState` captured before the decision. The summary's PC, metrics and upkeep all come from the pre-decision state, and the commit copies that PC back. | Delegation on, every metric at 70, 150 PC, and a catalog with one 10-PC standard policy: the automation enacts it and pays 10, yet the committed PC is the same as if nothing had been enacted. | The end of turn works on the state after the decision, so what the decision spent stays spent | not executed; depends on React closure semantics | `Session.RefundExampleSpends` | `Session.DecisionSpendKept` |
