// The currency plan: how the dollars still needed are split between now and lower target rates.
module FxPlans {
  import opened Basics

  datatype Zone = Cheap | Neutral | Expensive

  datatype Position = Position(zone: Zone, sigma: real)

  // `target` is None for dollars bought at the live rate.
  datatype Tranche = Tranche(target: Option<int>, usd: real, krw: int)

  // Dollars put aside for one target rate, before rounding; in the order first met.
  datatype Slot = Slot(target: int, usd: real)

  const STEP := 10
  const MULTIPLIERS: seq<real> := [0.5, 1.0]

  function ZoneOf(percentile: real): Zone {
    if percentile < 33.0 then Cheap
    else if percentile > 67.0 then Expensive
    else Neutral
  }

  function NowShare(zone: Zone): (share: real)
    ensures 0.0 < share < 1.0
  {
    match zone
    case Cheap => 0.5
    case Neutral => 0.34
    case Expensive => 0.2
  }

  function Ceiling(x: real): (n: int)
    ensures x <= n as real < x + 1.0
  {
    -((-x).Floor)
  }

  // Rounding to the nearest whole number; a half goes to the even one.
  function Nearest(x: real): (n: int)
    ensures -0.5 <= n as real - x <= 0.5
    ensures n as real - x == 0.5 || n as real - x == -0.5 ==> n % 2 == 0
  {
    var low := x.Floor;
    var rest := x - low as real;
    if rest < 0.5 || (rest == 0.5 && low % 2 == 0) then low else low + 1
  }

  lemma NearestKeepsOrder(x: real, y: real)
    requires x <= y
    ensures Nearest(x) <= Nearest(y)
  {
  }

  function Cents(x: real): (r: real)
    ensures -0.005 <= r - x <= 0.005
  {
    Nearest(x * 100.0) as real / 100.0
  }

  function TargetRate(live: real, sigma: real, multiplier: real): int {
    var ceiling := Ceiling(live / STEP as real) * STEP - STEP;
    var target := ((live - sigma * multiplier) / STEP as real).Floor * STEP;
    if target <= ceiling then target else ceiling
  }

  // A target is the highest multiple of ten that lies strictly below the live rate and no higher than
  // the live rate less the given share of a month's volatility.
  lemma TargetIsHighest(live: real, sigma: real, multiplier: real, k: int)
    ensures var target := TargetRate(live, sigma, multiplier);
            target % STEP == 0 &&
            ((k * STEP) as real < live && (k * STEP) as real <= live - sigma * multiplier
             <==> k * STEP <= target)
  {
    var ceiling := Ceiling(live / STEP as real);
    var floor := ((live - sigma * multiplier) / STEP as real).Floor;
    assert (k * STEP) as real < live <==> k <= ceiling - 1 by {
      assert (k * STEP) as real < live <==> k as real < live / 10.0;
    }
    assert (k * STEP) as real <= live - sigma * multiplier <==> k <= floor by {
      assert (k * STEP) as real <= live - sigma * multiplier
        <==> k as real <= (live - sigma * multiplier) / 10.0;
    }
  }

  lemma TargetBelowLive(live: real, sigma: real, multiplier: real)
    ensures TargetRate(live, sigma, multiplier) as real < live
    ensures TargetRate(live, sigma, multiplier) % STEP == 0
  {
    var target := TargetRate(live, sigma, multiplier);
    TargetIsHighest(live, sigma, multiplier, target / STEP);
    assert target / STEP * STEP == target;
  }

  lemma TargetFallsWithMultiplier(live: real, sigma: real, small: real, large: real)
    requires sigma >= 0.0 && small <= large
    ensures TargetRate(live, sigma, large) <= TargetRate(live, sigma, small)
  {
    var target := TargetRate(live, sigma, large);
    TargetIsHighest(live, sigma, large, target / STEP);
    assert target / STEP * STEP == target;
    assert sigma * (large - small) >= 0.0;
    assert sigma * large == sigma * small + sigma * (large - small);
    TargetIsHighest(live, sigma, small, target / STEP);
  }

  // ------------------------------------------------------------------ putting dollars aside per target

  function Add(slots: seq<Slot>, target: int, usd: real): seq<Slot> {
    if slots == [] then [Slot(target, usd)]
    else if slots[0].target == target then [Slot(target, slots[0].usd + usd)] + slots[1..]
    else [slots[0]] + Add(slots[1..], target, usd)
  }

  function Total(slots: seq<Slot>): real {
    if slots == [] then 0.0 else slots[0].usd + Total(slots[1..])
  }

  ghost predicate OnePerTarget(slots: seq<Slot>) {
    forall i, j :: 0 <= i < j < |slots| ==> slots[i].target != slots[j].target
  }

  // Putting dollars aside adds exactly those dollars, whether the target is new or not.
  lemma {:induction false} AddConserves(slots: seq<Slot>, target: int, usd: real)
    requires OnePerTarget(slots)
    ensures Total(Add(slots, target, usd)) == Total(slots) + usd
    ensures OnePerTarget(Add(slots, target, usd))
    ensures forall t :: t in Places(Add(slots, target, usd)) <==> t == target || t in Places(slots)
  {
    if slots == [] {
    } else {
      var rest := slots[1..];
      assert Places(slots) == {slots[0].target} + Places(rest);
      if slots[0].target == target {
        var after := Add(slots, target, usd);
        assert after[0].target == target && after[1..] == rest;
        assert Places(after) == {target} + Places(rest);
      } else {
        AddConserves(rest, target, usd);
        var after := Add(slots, target, usd);
        assert after[0] == slots[0] && after[1..] == Add(rest, target, usd);
        assert Places(after) == {slots[0].target} + Places(after[1..]);
        forall j | 0 < j < |after| ensures after[j].target != after[0].target {
          assert after[j] == after[1..][j - 1];
          assert after[j].target in Places(after[1..]);
          assert slots[0].target !in Places(rest);
        }
        forall i, j | 0 <= i < j < |after| ensures after[i].target != after[j].target {
          if i > 0 {
            assert after[i] == after[1..][i - 1] && after[j] == after[1..][j - 1];
          }
        }
      }
    }
  }

  ghost function Places(slots: seq<Slot>): set<int> {
    set i | 0 <= i < |slots| :: slots[i].target
  }

  ghost function Group(targets: seq<int>, each: real): seq<Slot> {
    if targets == [] then []
    else
      var last := |targets| - 1;
      Add(Group(targets[..last], each), targets[last], each)
  }

  lemma OneMorePart(k: nat, each: real)
    ensures (k + 1) as real * each == k as real * each + each
  {
    assert (k + 1) as real == k as real + 1.0;
  }

  // One equal part per target, however many of the targets coincide.
  lemma {:induction false} GroupConserves(targets: seq<int>, each: real)
    ensures Total(Group(targets, each)) == |targets| as real * each
    ensures OnePerTarget(Group(targets, each))
    ensures forall t :: t in Places(Group(targets, each)) <==> t in targets
  {
    hide Add;
    if targets == [] {
    } else {
      var last := |targets| - 1;
      GroupConserves(targets[..last], each);
      AddConserves(Group(targets[..last], each), targets[last], each);
      assert targets == targets[..last] + [targets[last]];
      OneMorePart(last, each);
    }
  }

  ghost function TargetsOf(multipliers: seq<real>, live: real, sigma: real): seq<int> {
    seq(|multipliers|, i requires 0 <= i < |multipliers| => TargetRate(live, sigma, multipliers[i]))
  }

  // The loop over the volatility multipliers: targets that fall on the same ten share one slot.
  method SplitBelow(multipliers: seq<real>, live: real, sigma: real, each: real) returns (slots: seq<Slot>)
    ensures slots == Group(TargetsOf(multipliers, live, sigma), each)
  {
    hide TargetRate, Add;
    slots := [];
    ghost var targets := TargetsOf(multipliers, live, sigma);
    for i := 0 to |multipliers|
      invariant slots == Group(targets[..i], each)
    {
      assert targets[..i + 1][..i] == targets[..i];
      slots := Add(slots, TargetRate(live, sigma, multipliers[i]), each);
    }
    assert targets[..|multipliers|] == targets;
  }

  // ------------------------------------------------------------------ the plan

  function TrancheFor(target: Option<int>, usd: real, live: real): Tranche {
    Tranche(target, Cents(usd), Nearest(usd * (if target.Some? then target.value as real else live)))
  }

  function NowUsd(need: real, zone: Zone): real {
    need * NowShare(zone)
  }

  // The dollars behind each tranche, before rounding.
  function Amounts(position: Option<Position>, need: real, live: real): seq<real> {
    if need <= 0.0 then []
    else if position.None? then [need]
    else
      var p := position.value;
      var now := NowUsd(need, p.zone);
      if TargetRate(live, p.sigma, 0.5) == TargetRate(live, p.sigma, 1.0) then [now, need - now]
      else [now, (need - now) / 2.0, (need - now) / 2.0]
  }

  function Targets(position: Option<Position>, need: real, live: real): (targets: seq<Option<int>>)
    ensures |targets| == |Amounts(position, need, live)|
  {
    if need <= 0.0 then []
    else if position.None? then [None]
    else
      var near := TargetRate(live, position.value.sigma, 0.5);
      var far := TargetRate(live, position.value.sigma, 1.0);
      if near == far then [None, Some(near)] else [None, Some(near), Some(far)]
  }

  ghost predicate IsPlan(plan: seq<Tranche>, position: Option<Position>, need: real, live: real) {
    var targets, amounts := Targets(position, need, live), Amounts(position, need, live);
    |plan| == |targets| && forall i :: 0 <= i < |plan| ==> plan[i] == TrancheFor(targets[i], amounts[i], live)
  }

  lemma TwoTargets(live: real, sigma: real, each: real)
    ensures var near, far := TargetRate(live, sigma, 0.5), TargetRate(live, sigma, 1.0);
            Group(TargetsOf(MULTIPLIERS, live, sigma), each)
            == if near == far then [Slot(near, each + each)] else [Slot(near, each), Slot(far, each)]
  {
    hide TargetRate;
    var near, far := TargetRate(live, sigma, 0.5), TargetRate(live, sigma, 1.0);
    var targets := TargetsOf(MULTIPLIERS, live, sigma);
    assert targets == [near, far] && targets[..1] == [near] && targets[..1][..0] == [];
    assert Group(targets[..1], each) == Add([], near, each);
    assert Group(targets, each) == Add(Add([], near, each), far, each);
    assert Add([], far, each) == [Slot(far, each)];
  }

  method ComputeFxPlan(position: Option<Position>, need: real, live: real) returns (plan: seq<Tranche>)
    ensures IsPlan(plan, position, need, live)
  {
    hide TargetRate, Cents, Nearest;
    if need <= 0.0 {
      return [];
    }
    if position.None? {
      return [TrancheFor(None, need, live)];
    }
    var p := position.value;
    var now := NowUsd(need, p.zone);
    var each := (need - now) / |MULTIPLIERS| as real;
    assert each == (need - now) / 2.0 && each + each == need - now;
    var slots := SplitBelow(MULTIPLIERS, live, p.sigma, each);
    TwoTargets(live, p.sigma, each);
    hide TrancheFor, NowUsd, Group, TargetsOf;
    plan := [TrancheFor(None, now, live)];
    for i := 0 to |slots|
      invariant |plan| == i + 1 && plan[0] == TrancheFor(None, now, live)
      invariant forall k :: 0 <= k < i ==> plan[k + 1] == TrancheFor(Some(slots[k].target), slots[k].usd, live)
    {
      plan := plan + [TrancheFor(Some(slots[i].target), slots[i].usd, live)];
    }
    var targets, amounts := Targets(position, need, live), Amounts(position, need, live);
    assert targets[0] == None && amounts[0] == now;
    forall i | 0 <= i < |plan| ensures plan[i] == TrancheFor(targets[i], amounts[i], live) {
      if i > 0 {
        assert targets[i] == Some(slots[i - 1].target) && amounts[i] == slots[i - 1].usd;
      }
    }
  }

  function Sum(amounts: seq<real>): real {
    if amounts == [] then 0.0 else amounts[0] + Sum(amounts[1..])
  }

  lemma SumOfOne(x: real)
    ensures Sum([x]) == x
  {
    assert [x][1..] == [];
  }

  lemma {:induction false} SumSplits(a: seq<real>, b: seq<real>)
    ensures Sum(a + b) == Sum(a) + Sum(b)
  {
    if a == [] {
      assert a + b == b;
    } else {
      SumSplits(a[1..], b);
      assert (a + b)[1..] == a[1..] + b;
    }
  }

  lemma PartOf(need: real, share: real)
    requires need > 0.0 && 0.0 < share < 1.0
    ensures 0.0 < need * share < need
  {
    assert need * (1.0 - share) > 0.0;
  }

  // Nothing is lost and nothing bought twice: before rounding the tranches add up to the need, all of
  // them positive, and rounding moves each by at most half a cent.
  lemma DollarsAddUp(plan: seq<Tranche>, position: Option<Position>, need: real, live: real)
    requires need > 0.0 && IsPlan(plan, position, need, live)
    ensures Sum(Amounts(position, need, live)) == need
    ensures forall i :: 0 <= i < |plan| ==>
              0.0 < Amounts(position, need, live)[i]
              && -0.005 <= plan[i].usd - Amounts(position, need, live)[i] <= 0.005
  {
    hide TargetRate, Cents, Nearest, Targets;
    var amounts := Amounts(position, need, live);
    if position.Some? {
      PartOf(need, NowShare(position.value.zone));
    }
    hide NowUsd;
    match |amounts|
    case 1 => assert amounts == [amounts[0]]; SumOfOne(amounts[0]);
    case 2 => assert amounts == [amounts[0]] + [amounts[1]]; SumSplits([amounts[0]], [amounts[1]]);
      SumOfOne(amounts[0]); SumOfOne(amounts[1]);
    case _ => assert amounts == ([amounts[0]] + [amounts[1]]) + [amounts[2]];
      SumSplits([amounts[0]] + [amounts[1]], [amounts[2]]); SumSplits([amounts[0]], [amounts[1]]);
      SumOfOne(amounts[0]); SumOfOne(amounts[1]); SumOfOne(amounts[2]);
  }

  // The rounded dollars of the whole plan miss the need by at most a cent and a half.
  lemma RoundingDrift(plan: seq<Tranche>, position: Option<Position>, need: real, live: real)
    requires need > 0.0 && IsPlan(plan, position, need, live)
    ensures var rounded := Sum(seq(|plan|, i requires 0 <= i < |plan| => plan[i].usd));
            -0.015 <= rounded - need <= 0.015
  {
    hide TargetRate, Cents;
    DollarsAddUp(plan, position, need, live);
    var rounded := seq(|plan|, i requires 0 <= i < |plan| => plan[i].usd);
    Drift(rounded, Amounts(position, need, live));
  }

  lemma {:induction false} Drift(rounded: seq<real>, exact: seq<real>)
    requires |rounded| == |exact|
    requires forall i :: 0 <= i < |exact| ==> -0.005 <= rounded[i] - exact[i] <= 0.005
    ensures -0.005 * |exact| as real <= Sum(rounded) - Sum(exact) <= 0.005 * |exact| as real
  {
    if exact == [] {
    } else {
      Drift(rounded[1..], exact[1..]);
    }
  }

  // After the tranche bought now, the targets fall strictly, are multiples of ten, and all lie below
  // the live rate: none is met already when its alert is set.
  lemma TargetsFall(plan: seq<Tranche>, position: Option<Position>, need: real, live: real, i: nat, j: nat)
    requires position.Some? ==> position.value.sigma >= 0.0
    requires IsPlan(plan, position, need, live) && 0 < i <= j < |plan|
    ensures plan[0].target == None && plan[i].target.Some? && plan[j].target.Some?
    ensures plan[j].target.value as real < live && plan[j].target.value % STEP == 0
    ensures i < j ==> plan[j].target.value < plan[i].target.value
  {
    var p := position.value;
    TargetFallsWithMultiplier(live, p.sigma, 0.5, 1.0);
    TargetBelowLive(live, p.sigma, 0.5);
    TargetBelowLive(live, p.sigma, 1.0);
    hide TargetRate, Cents, Nearest;
  }

  // Within rounding, what a tranche costs and brings.
  predicate Worth(t: Tranche, usd: real, rate: real) {
    -0.005 <= t.usd - usd <= 0.005 && -0.5 <= t.krw as real - usd * rate <= 0.5
  }

  lemma TrancheWorth(target: Option<int>, usd: real, live: real)
    ensures var t := TrancheFor(target, usd, live);
            t.target == target && Worth(t, usd, if target.None? then live else target.value as real)
  {
    hide Cents, Nearest;
  }

  lemma TranchesWorth(plan: seq<Tranche>, position: Option<Position>, need: real, live: real, i: nat)
    requires IsPlan(plan, position, need, live) && i < |plan|
    ensures var target := Targets(position, need, live)[i];
            plan[i].target == target
            && Worth(plan[i], Amounts(position, need, live)[i], if target.None? then live else target.value as real)
  {
    TrancheWorth(Targets(position, need, live)[i], Amounts(position, need, live)[i], live);
    hide TrancheFor, Worth, Targets, Amounts;
  }

  // The dollars behind the tranches and where they are bought.
  lemma AmountsMean(percentile: real, sigma: real, need: real, live: real)
    requires need > 0.0
    ensures var position := Some(Position(ZoneOf(percentile), sigma));
            var targets, amounts := Targets(position, need, live), Amounts(position, need, live);
            var now := need * (if percentile < 33.0 then 0.5 else if percentile > 67.0 then 0.2 else 0.34);
            && 2 <= |amounts| == |targets| <= 3 && targets[0].None? && amounts[0] == now
            && forall i :: 1 <= i < |targets| ==> targets[i].Some? && amounts[i] == (need - now) / (|amounts| - 1) as real
  {
    hide TargetRate;
  }

  // What a plan buys for whom: nothing without a need; everything now without a view of the rate; else
  // half of it now while the rate is in the lower third of its year, a fifth in the upper third, about
  // a third in between, and the rest in equal parts at the targets. Won are rounded, each at its rate.
  lemma WhatIsBought(plan: seq<Tranche>, percentile: real, sigma: real, need: real, live: real)
    requires IsPlan(plan, Some(Position(ZoneOf(percentile), sigma)), need, live)
    ensures need <= 0.0 <==> plan == []
    ensures need > 0.0 ==>
              var now := need * (if percentile < 33.0 then 0.5 else if percentile > 67.0 then 0.2 else 0.34);
              && 2 <= |plan| <= 3 && plan[0].target.None? && Worth(plan[0], now, live)
              && forall i :: 1 <= i < |plan| ==>
                   plan[i].target.Some? && Worth(plan[i], (need - now) / (|plan| - 1) as real, plan[i].target.value as real)
  {
    if need > 0.0 {
      AmountsMean(percentile, sigma, need, live);
      var position := Some(Position(ZoneOf(percentile), sigma));
      hide TargetRate, TrancheFor, Worth, Targets, Amounts, ZoneOf;
      TranchesWorth(plan, position, need, live, 0);
      forall i | 1 <= i < |plan| ensures plan[i].target == Targets(position, need, live)[i]
        && Worth(plan[i], Amounts(position, need, live)[i], Targets(position, need, live)[i].value as real)
      {
        TranchesWorth(plan, position, need, live, i);
      }
    }
  }

  lemma WithoutPosition(plan: seq<Tranche>, need: real, live: real)
    requires need > 0.0 && IsPlan(plan, None, need, live)
    ensures |plan| == 1 && plan[0].target.None? && Worth(plan[0], need, live)
  {
    TrancheWorth(None, need, live);
    hide TrancheFor, Worth;
  }

  lemma FirstTranche(plan: seq<Tranche>, position: Position, need: real, live: real)
    requires need > 0.0 && IsPlan(plan, Some(position), need, live)
    ensures plan != [] && plan[0].usd == Cents(NowUsd(need, position.zone))
  {
    hide TargetRate, Nearest, NowUsd, Cents;
    assert Amounts(Some(position), need, live)[0] == NowUsd(need, position.zone);
    assert plan[0] == TrancheFor(Targets(Some(position), need, live)[0], Amounts(Some(position), need, live)[0], live);
  }

  lemma CentsKeepOrder(x: real, y: real)
    requires x <= y
    ensures Cents(x) <= Cents(y)
  {
    NearestKeepsOrder(x * 100.0, y * 100.0);
    hide Nearest;
  }

  lemma Larger(need: real, small: real, large: real)
    requires need > 0.0 && small <= large
    ensures need * small <= need * large
  {
    assert need * (large - small) >= 0.0;
  }

  lemma LowerRateLargerShare(need: real, low: real, high: real)
    requires need > 0.0 && low <= high
    ensures Cents(NowUsd(need, ZoneOf(high))) <= Cents(NowUsd(need, ZoneOf(low)))
  {
    hide Cents;
    Larger(need, NowShare(ZoneOf(high)), NowShare(ZoneOf(low)));
    CentsKeepOrder(NowUsd(need, ZoneOf(high)), NowUsd(need, ZoneOf(low)));
  }

  // The lower the rate stands in its year, the more dollars a plan buys at once, also after rounding.
  lemma CheaperBuysMore(low: real, high: real, sigma: real, live: real, need: real, cheap: seq<Tranche>, dear: seq<Tranche>)
    requires need > 0.0 && low <= high
    requires IsPlan(cheap, Some(Position(ZoneOf(low), sigma)), need, live)
    requires IsPlan(dear, Some(Position(ZoneOf(high), sigma)), need, live)
    ensures cheap != [] && dear != [] && dear[0].usd <= cheap[0].usd
  {
    hide IsPlan, Cents, NowUsd, ZoneOf;
    FirstTranche(cheap, Position(ZoneOf(low), sigma), need, live);
    FirstTranche(dear, Position(ZoneOf(high), sigma), need, live);
    LowerRateLargerShare(need, low, high);
  }
}
