/**
 * Upkeep at the end of a turn. Every active policy with a positive effective
 * upkeep charges it; when the capital cannot cover the total, the dearest
 * policies are switched off one at a time, dearest first, until the rest is
 * covered or none is left; the capital then pays what remains, floored at 0.
 */
module Upkeep {
  import opened Types
  import opened Ordering

  /** The upkeep a policy charges: the upgraded upkeep at level 2 when declared, else the base upkeep; undeclared means 0. */
  function EffectiveUpkeep(p: Policy): real {
    if p.level == 2 && p.upgradedUpkeep.Some? then p.upgradedUpkeep.value
    else p.upkeep.GetOr(0.0)
  }

  function NegatedUpkeep(p: Policy): real {
    -EffectiveUpkeep(p)
  }

  predicate Charges(p: Policy) {
    EffectiveUpkeep(p) > 0.0
  }

  /** The policies that charge upkeep, in list order. */
  function Charging(ps: seq<Policy>): (r: seq<Policy>)
    ensures forall i :: 0 <= i < |r| ==> Charges(r[i])
    ensures |r| <= |ps|
  {
    if |ps| == 0 then []
    else (if Charges(ps[0]) then [ps[0]] else []) + Charging(ps[1..])
  }

  /** `Charging` keeps each charging policy as often as the list holds it, and nothing else. */
  lemma {:induction false} ChargingCount(ps: seq<Policy>, x: Policy)
    ensures multiset(Charging(ps))[x] == if Charges(x) then multiset(ps)[x] else 0
  {
    if |ps| > 0 {
      assert ps == [ps[0]] + ps[1..];
      ChargingCount(ps[1..], x);
    }
  }

  function UpkeepSum(ps: seq<Policy>): real {
    if |ps| == 0 then 0.0 else EffectiveUpkeep(ps[0]) + UpkeepSum(ps[1..])
  }

  /** The policies whose id is not among `ids`, in list order. */
  function WithoutIds(ps: seq<Policy>, ids: seq<string>): (r: seq<Policy>)
    ensures forall i :: 0 <= i < |r| ==> r[i].id !in ids
    ensures |r| <= |ps|
  {
    if |ps| == 0 then []
    else (if ps[0].id in ids then [] else [ps[0]]) + WithoutIds(ps[1..], ids)
  }

  /** `WithoutIds` drops every policy whose id is listed and keeps the others as often as the list holds them. */
  lemma {:induction false} WithoutIdsCount(ps: seq<Policy>, ids: seq<string>, x: Policy)
    ensures multiset(WithoutIds(ps, ids))[x] == if x.id in ids then 0 else multiset(ps)[x]
  {
    if |ps| > 0 {
      assert ps == [ps[0]] + ps[1..];
      WithoutIdsCount(ps[1..], ids, x);
    }
  }

  /** The charging policies, dearest first; equal upkeeps keep their list order. */
  function DearestFirst(ps: seq<Policy>): (r: seq<Policy>)
    ensures multiset(r) == multiset(Charging(ps))
    ensures |r| == |Charging(ps)|
    ensures forall i, j :: 0 <= i < j < |r| ==> EffectiveUpkeep(r[i]) >= EffectiveUpkeep(r[j])
  {
    var r := SortBy(Charging(ps), NegatedUpkeep);
    assert forall i, j :: 0 <= i < j < |r| ==> NegatedUpkeep(r[i]) <= NegatedUpkeep(r[j]);
    r
  }

  /**
   * Ties keep their order: the charging policies of any one upkeep (sort key
   * `v`, the negated upkeep) appear in the dearest-first list in the order
   * they have in the active list, so of two equally expensive policies the
   * earlier one is switched off first.
   */
  lemma DearestFirstStable(ps: seq<Policy>, v: real)
    ensures WithKey(DearestFirst(ps), NegatedUpkeep, v) == WithKey(Charging(ps), NegatedUpkeep, v)
  {
    SortStable(Charging(ps), NegatedUpkeep, v);
  }

  /**
   * The switch-off loop: walking the dearest-first list, a policy is switched
   * off while the capital is short of the running total.
   */
  function SwitchOff(capital: real, total: real, sorted: seq<Policy>): (d: seq<Policy>)
    ensures |d| <= |sorted| && d == sorted[..|d|]
    ensures |d| < |sorted| ==> capital >= total - UpkeepSum(d)
    ensures forall n :: 0 <= n < |d| ==> capital < total - UpkeepSum(sorted[..n])
    decreases |sorted|
  {
    if |sorted| == 0 || capital >= total then []
    else
      var rest := SwitchOff(capital, total - EffectiveUpkeep(sorted[0]), sorted[1..]);
      var d := [sorted[0]] + rest;
      assert UpkeepSum(d) == EffectiveUpkeep(sorted[0]) + UpkeepSum(rest) by {
        assert d[1..] == rest;
      }
      forall n | 0 <= n < |d| ensures capital < total - UpkeepSum(sorted[..n]) {
        if n > 0 {
          assert sorted[..n][1..] == sorted[1..][..n - 1];
        }
      }
      d
  }

  datatype UpkeepOutcome = UpkeepOutcome(capital: real, survivors: seq<Policy>, deactivated: seq<Policy>)

  /** The upkeep step of `calculateEndOfTurnSummary`. */
  function ResolveUpkeep(capital: real, active: seq<Policy>): (r: UpkeepOutcome)
    ensures |Charging(active)| == 0 ==> r == UpkeepOutcome(capital, active, [])
    ensures |r.deactivated| <= |DearestFirst(active)|
    ensures r.deactivated == DearestFirst(active)[..|r.deactivated|]
    ensures r.survivors == WithoutIds(active, Ids(r.deactivated))
    ensures |Charging(active)| > 0 ==>
              r.capital == Max(0.0, capital - (UpkeepSum(Charging(active)) - UpkeepSum(r.deactivated)))
  {
    var charging := Charging(active);
    if |charging| == 0 then
      WithoutNoIds(active);
      UpkeepOutcome(capital, active, [])
    else
      Settle(capital, active, UpkeepSum(charging), DearestFirst(active))
  }

  /** Charging `total` against `capital`, switching off a prefix of `sorted` when short. */
  function Settle(capital: real, active: seq<Policy>, total: real, sorted: seq<Policy>): (r: UpkeepOutcome)
    ensures |r.deactivated| <= |sorted| && r.deactivated == sorted[..|r.deactivated|]
    ensures r.survivors == WithoutIds(active, Ids(r.deactivated))
    ensures r.capital == Max(0.0, capital - (total - UpkeepSum(r.deactivated)))
    ensures r.deactivated == if capital < total then SwitchOff(capital, total, sorted) else []
  {
    var d := if capital < total then SwitchOff(capital, total, sorted) else [];
    UpkeepOutcome(Max(0.0, capital - (total - UpkeepSum(d))), WithoutIds(active, Ids(d)), d)
  }

  /** When the capital covers the total upkeep, nothing is switched off and the capital pays it all. */
  lemma CoveredUpkeepKeepsAll(capital: real, active: seq<Policy>)
    requires capital >= UpkeepSum(Charging(active))
    ensures ResolveUpkeep(capital, active).deactivated == []
    ensures ResolveUpkeep(capital, active).survivors == active
    ensures |Charging(active)| > 0 ==> ResolveUpkeep(capital, active).capital == capital - UpkeepSum(Charging(active))
  {
    WithoutNoIds(active);
  }

  lemma {:induction false} WithoutNoIds(ps: seq<Policy>)
    ensures WithoutIds(ps, []) == ps
  {
    if |ps| > 0 {
      WithoutNoIds(ps[1..]);
      assert ps == [ps[0]] + ps[1..];
    }
  }

  // ---------------------------------------------------------------------
  // The settled-upkeep theorem and the facts it rests on.
  // ---------------------------------------------------------------------

  lemma {:induction false} UpkeepSumAppend(a: seq<Policy>, b: seq<Policy>)
    ensures UpkeepSum(a + b) == UpkeepSum(a) + UpkeepSum(b)
  {
    if |a| > 0 {
      assert (a + b)[1..] == a[1..] + b;
      UpkeepSumAppend(a[1..], b);
    } else {
      assert a + b == b;
    }
  }

  /** The total upkeep of a list depends only on which policies it holds, not their order. */
  lemma {:induction false} UpkeepSumPermutation(a: seq<Policy>, b: seq<Policy>)
    requires multiset(a) == multiset(b)
    ensures UpkeepSum(a) == UpkeepSum(b)
    decreases |a|
  {
    if |a| > 0 {
      var x := a[0];
      assert x in multiset(b);
      var j :| 0 <= j < |b| && b[j] == x;
      var b' := b[..j] + b[j + 1..];
      RemoveAt(b, j);
      assert a == [x] + a[1..];
      assert multiset(a[1..]) == multiset(b');
      UpkeepSumPermutation(a[1..], b');
    }
  }

  /** Taking out the element at `j` takes its upkeep out of the sum and it out of the multiset. */
  lemma RemoveAt(b: seq<Policy>, j: int)
    requires 0 <= j < |b|
    ensures UpkeepSum(b) == EffectiveUpkeep(b[j]) + UpkeepSum(b[..j] + b[j + 1..])
    ensures multiset(b[..j] + b[j + 1..]) == multiset(b) - multiset{b[j]}
  {
    var x := b[j];
    assert b == b[..j] + ([x] + b[j + 1..]);
    assert multiset(b) == multiset(b[..j]) + multiset{x} + multiset(b[j + 1..]);
    UpkeepSumAppend(b[..j], [x] + b[j + 1..]);
    UpkeepSumAppend(b[..j], b[j + 1..]);
    assert UpkeepSum([x] + b[j + 1..]) == EffectiveUpkeep(x) + UpkeepSum(b[j + 1..]) by {
      assert ([x] + b[j + 1..])[1..] == b[j + 1..];
    }
  }

  /** No id appears twice among the policies of a multiset, and no policy twice. */
  ghost predicate IdsDistinct(m: multiset<Policy>) {
    forall x, y :: x in m && y in m && x.id == y.id ==> x == y && m[x] == 1
  }

  lemma {:induction false} UniqueCount(s: seq<Policy>, x: Policy)
    requires NoDuplicateIds(s)
    ensures multiset(s)[x] <= 1
  {
    if |s| > 0 {
      assert s == [s[0]] + s[1..];
      UniqueCount(s[1..], x);
      if s[0] == x {
        assert forall k :: 0 <= k < |s[1..]| ==> s[1..][k] == s[k + 1] && s[k + 1].id != x.id;
        assert x !in multiset(s[1..]);
      }
    }
  }

  lemma UniqueIdsDistinct(s: seq<Policy>)
    requires NoDuplicateIds(s)
    ensures IdsDistinct(multiset(s))
  {
    forall x, y | x in multiset(s) && y in multiset(s) && x.id == y.id
      ensures x == y && multiset(s)[x] == 1
    {
      var i :| 0 <= i < |s| && s[i] == x;
      var j :| 0 <= j < |s| && s[j] == y;
      UniqueCount(s, x);
    }
  }

  /** A policy at two positions of a list is counted at least twice. */
  lemma TwoPositions(s: seq<Policy>, i: int, j: int)
    requires 0 <= i < j < |s| && s[i] == s[j]
    ensures multiset(s)[s[i]] >= 2
  {
    assert s == s[..j] + s[j..];
    assert s[i] == s[..j][i];
    assert s[j] == s[j..][0];
    assert multiset(s) == multiset(s[..j]) + multiset(s[j..]);
  }

  lemma DistinctIdsUnique(s: seq<Policy>)
    requires IdsDistinct(multiset(s))
    ensures NoDuplicateIds(s)
  {
    forall i, j | 0 <= i < j < |s| ensures s[i].id != s[j].id {
      if s[i].id == s[j].id {
        assert s[i] == s[j];
        TwoPositions(s, i, j);
      }
    }
  }

  lemma SurvivorCount(active: seq<Policy>, d: seq<Policy>, rest: seq<Policy>, x: Policy)
    requires IdsDistinct(multiset(Charging(active)))
    requires multiset(d) + multiset(rest) == multiset(Charging(active))
    ensures multiset(Charging(WithoutIds(active, Ids(d))))[x] == multiset(rest)[x]
  {
    var mc := multiset(Charging(active));
    var ids := Ids(d);
    ChargingCount(WithoutIds(active, ids), x);
    WithoutIdsCount(active, ids, x);
    ChargingCount(active, x);
    assert mc[x] == multiset(d)[x] + multiset(rest)[x];
    if x.id in ids {
      var k :| 0 <= k < |d| && ids[k] == x.id;
      assert d[k] in multiset(d);
      if x in mc {
        SamePolicy(mc, x, d[k]);
        assert multiset(d)[x] >= 1;
      }
    } else {
      assert forall k :: 0 <= k < |d| ==> d[k].id == ids[k] && d[k] != x;
      assert multiset(d)[x] == 0;
    }
  }

  lemma SamePolicy(m: multiset<Policy>, x: Policy, y: Policy)
    requires IdsDistinct(m) && x in m && y in m && x.id == y.id
    ensures x == y && m[x] == 1
  {
  }

  /**
   * The upkeep left after switching off is exactly the upkeep the surviving
   * policies charge: with unique ids, the survivors that charge are the
   * dearest-first list minus its switched-off prefix.
   */
  lemma SurvivorsAreTheRest(active: seq<Policy>, d: seq<Policy>, rest: seq<Policy>)
    requires NoDuplicateIds(active)
    requires multiset(d) + multiset(rest) == multiset(Charging(active))
    ensures multiset(Charging(WithoutIds(active, Ids(d)))) == multiset(rest)
  {
    ChargingIdsDistinct(active);
    forall x ensures multiset(Charging(WithoutIds(active, Ids(d))))[x] == multiset(rest)[x] {
      SurvivorCount(active, d, rest, x);
    }
  }

  /** Filtering keeps ids distinct. */
  lemma ChargingIdsDistinct(active: seq<Policy>)
    requires NoDuplicateIds(active)
    ensures IdsDistinct(multiset(Charging(active)))
  {
    var mc := multiset(Charging(active));
    UniqueIdsDistinct(active);
    forall x, y | x in mc && y in mc && x.id == y.id ensures x == y && mc[x] == 1 {
      ChargingCount(active, x);
      ChargingCount(active, y);
    }
  }

  /** The survivors' upkeep is the total less what the switched-off policies charged. */
  lemma RemainingUpkeep(capital: real, active: seq<Policy>)
    requires NoDuplicateIds(active)
    ensures var r := ResolveUpkeep(capital, active);
            && UpkeepSum(Charging(r.survivors)) == UpkeepSum(Charging(active)) - UpkeepSum(r.deactivated)
            && |Charging(r.survivors)| == |DearestFirst(active)| - |r.deactivated|
  {
    var r := ResolveUpkeep(capital, active);
    PrefixUpkeep(active, DearestFirst(active), r.deactivated);
  }

  /**
   * Switching off a prefix of a reordering of the charging policies leaves
   * charging exactly the rest: their upkeep is the total less the prefix's.
   */
  lemma PrefixUpkeep(active: seq<Policy>, sorted: seq<Policy>, d: seq<Policy>)
    requires NoDuplicateIds(active)
    requires multiset(sorted) == multiset(Charging(active))
    requires |d| <= |sorted| && d == sorted[..|d|]
    ensures UpkeepSum(Charging(WithoutIds(active, Ids(d)))) == UpkeepSum(Charging(active)) - UpkeepSum(d)
    ensures |Charging(WithoutIds(active, Ids(d)))| == |sorted| - |d|
  {
    var rest := sorted[|d|..];
    assert sorted == d + rest;
    assert multiset(d) + multiset(rest) == multiset(Charging(active));
    SurvivorsAreTheRest(active, d, rest);
    var kept := Charging(WithoutIds(active, Ids(d)));
    UpkeepSumPermutation(kept, rest);
    UpkeepSumPermutation(sorted, Charging(active));
    UpkeepSumAppend(d, rest);
    assert |multiset(kept)| == |multiset(rest)|;
  }

  /**
   * The settled-upkeep theorem: after the upkeep step the capital is the old
   * capital less the upkeep of the policies that stay active (floored at 0),
   * and either those policies are fully paid for or every charging policy
   * has been switched off.
   */
  lemma UpkeepSettled(capital: real, active: seq<Policy>)
    requires NoDuplicateIds(active)
    requires |Charging(active)| > 0
    ensures var r := ResolveUpkeep(capital, active);
            && r.capital == Max(0.0, capital - UpkeepSum(Charging(r.survivors)))
            && (capital >= UpkeepSum(Charging(r.survivors)) || |Charging(r.survivors)| == 0)
  {
    var r := ResolveUpkeep(capital, active);
    var total := UpkeepSum(Charging(active));
    var remaining := UpkeepSum(Charging(r.survivors));
    RemainingUpkeep(capital, active);
    assert remaining == total - UpkeepSum(r.deactivated);
    assert r.capital == Max(0.0, capital - remaining);
    if capital < total {
      var sorted := DearestFirst(active);
      var d := SwitchOff(capital, total, sorted);
      assert r.deactivated == d;
      if |d| < |sorted| {
        assert capital >= remaining;
      } else {
        assert |Charging(r.survivors)| == 0;
      }
    } else {
      CoveredUpkeepKeepsAll(capital, active);
      assert r.deactivated == [];
    }
  }

  /**
   * Policies are switched off only while needed: before each one, the
   * policies not yet switched off charged more than the capital held.
   */
  lemma SwitchOffOnlyWhileShort(capital: real, active: seq<Policy>)
    ensures var r := ResolveUpkeep(capital, active);
            forall n :: 0 <= n < |r.deactivated| ==>
              capital < UpkeepSum(Charging(active)) - UpkeepSum(DearestFirst(active)[..n])
  {
    var r := ResolveUpkeep(capital, active);
    var total := UpkeepSum(Charging(active));
    if |Charging(active)| > 0 && capital < total {
      assert r.deactivated == SwitchOff(capital, total, DearestFirst(active));
    }
  }
}
