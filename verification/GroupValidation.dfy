// Portfolio validation with index groups: one security belongs to one item only, or its
// holdings would be counted under two items.
module GroupValidation {
  import opened Basics

  datatype Security = Security(ticker: string, market: string)

  datatype Alternate = Alternate(security: Security, leverage: real)

  datatype Group = Group(key: string, members: seq<Security>, domesticAlt: Option<Alternate>)

  datatype Item = Item(primary: Security, weight: real, group: Option<Group>)

  datatype Reason =
    | NoItems | WeightRange | BlankTicker | WrongTotal
    | GroupTwice | AlternateNotDomestic | AlternateLeveraged | SecurityTwice

  datatype Verdict = Accepted | Rejected(reason: Reason)

  const DOMESTIC_MARKETS := {"KOSPI", "KOSDAQ", "KRX"}

  // ------------------------------------------------------------------ normalisation

  function Keep(members: seq<Security>, excluded: set<Security>): seq<Security> {
    if members == [] then []
    else (if members[0] in excluded then [] else [members[0]]) + Keep(members[1..], excluded)
  }

  // An alternate equal to the primary is dropped, and so are members equal to either.
  function NormalGroup(g: Group, primary: Security): Group {
    var alt := if g.domesticAlt.Some? && g.domesticAlt.value.security == primary then None else g.domesticAlt;
    var excluded := {primary} + if alt.Some? then {alt.value.security} else {};
    g.(domesticAlt := alt, members := Keep(g.members, excluded))
  }

  function Normal(i: Item): Item {
    if i.group.None? then i else i.(group := Some(NormalGroup(i.group.value, i.primary)))
  }

  // The securities an item stands for.
  function Keys(i: Item): seq<Security> {
    match i.group
    case None => [i.primary]
    case Some(g) => [i.primary] + g.members + if g.domesticAlt.Some? then [g.domesticAlt.value.security] else []
  }

  function AllKeys(items: seq<Item>): seq<Security> {
    if items == [] then [] else Keys(items[0]) + AllKeys(items[1..])
  }

  function NormalAll(items: seq<Item>): (r: seq<Item>)
    ensures |r| == |items|
  {
    seq(|items|, n requires 0 <= n < |items| => Normal(items[n]))
  }

  function GroupKeys(items: seq<Item>): seq<string> {
    if items == [] then []
    else (if items[0].group.Some? then [items[0].group.value.key] else []) + GroupKeys(items[1..])
  }

  predicate HasGroup(items: seq<Item>) {
    exists n :: 0 <= n < |items| && items[n].group.Some?
  }

  // ------------------------------------------------------------------ the check, item by item

  predicate AlternateDomestic(i: Item) {
    i.group.Some? && i.group.value.domesticAlt.Some? ==>
      i.group.value.domesticAlt.value.security.market in DOMESTIC_MARKETS
  }

  predicate AlternateUnleveraged(i: Item) {
    i.group.Some? && i.group.value.domesticAlt.Some? ==> i.group.value.domesticAlt.value.leverage == 1.0
  }

  // Adding keys to those already owned fails on the first repetition.
  function Own(owner: set<Security>, keys: seq<Security>): Option<set<Security>>
    decreases keys
  {
    if keys == [] then Some(owner)
    else if keys[0] in owner then None
    else Own(owner + {keys[0]}, keys[1..])
  }

  // One item: the verdict, and what is owned and which groups are known afterwards.
  function CheckItem(i: Item, owner: set<Security>, groups: set<string>): (Verdict, set<Security>, set<string>) {
    var known := if i.group.Some? then groups + {i.group.value.key} else groups;
    if i.group.Some? && i.group.value.key in groups then (Rejected(GroupTwice), owner, groups)
    else if !AlternateDomestic(i) then (Rejected(AlternateNotDomestic), owner, known)
    else if !AlternateUnleveraged(i) then (Rejected(AlternateLeveraged), owner, known)
    else
      var owned := Own(owner, Keys(Normal(i)));
      if owned.None? then (Rejected(SecurityTwice), owner, known) else (Accepted, owned.value, known)
  }

  function Check(items: seq<Item>, owner: set<Security>, groups: set<string>): Verdict {
    if items == [] then Accepted
    else
      var (v, owned, known) := CheckItem(items[0], owner, groups);
      if v.Rejected? then v else Check(items[1..], owned, known)
  }

  function GroupVerdict(items: seq<Item>): Verdict {
    if HasGroup(items) then Check(items, {}, {}) else Accepted
  }

  method AnyGroup(items: array<Item>) returns (any: bool)
    ensures any <==> HasGroup(items[..])
  {
    any := false;
    for k := 0 to items.Length
      invariant any <==> exists n :: 0 <= n < k && items[n].group.Some?
    {
      any := any || items[k].group.Some?;
    }
  }

  // The validation proper, rewriting the items in place as it goes: the first done items are
  // normalised, the others untouched; on acceptance of a portfolio with groups that is all.
  method ValidateGroupMembers(items: array<Item>) returns (v: Verdict, done: nat)
    modifies items
    ensures v == GroupVerdict(old(items[..]))
    ensures done <= items.Length && items[..] == NormalAll(old(items[..])[..done]) + old(items[..])[done..]
    ensures v.Accepted? ==> done == if HasGroup(old(items[..])) then items.Length else 0
  {
    ghost var was := items[..];
    done := 0;
    var any := AnyGroup(items);
    if !any {
      return Accepted, 0;
    }
    var owner: set<Security>, groups: set<string> := {}, {};
    for k := 0 to items.Length
      invariant done == k && items[..] == NormalAll(was[..k]) + was[k..]
      invariant Check(was, {}, {}) == Check(was[k..], owner, groups)
    {
      CheckSuffix(was, k, owner, groups);
      NormalPrefix(was, k);
      hide Check, CheckItem, Normal, NormalAll, HasGroup;
      assert items[k] == items[..][k] == was[k];
      v, owner, groups := ValidateItem(items, k, owner, groups);
      if v.Rejected? {
        done := if v.reason == SecurityTwice then k + 1 else k;
        return;
      }
      done := k + 1;
    }
    return Accepted, items.Length;
  }

  lemma CheckSuffix(was: seq<Item>, k: nat, owner: set<Security>, groups: set<string>)
    requires k < |was|
    ensures var (v, owned, known) := CheckItem(was[k], owner, groups);
      Check(was[k..], owner, groups) == if v.Rejected? then v else Check(was[k + 1..], owned, known)
  {
    assert was[k..][0] == was[k] && was[k..][1..] == was[k + 1..];
  }

  lemma NormalPrefix(was: seq<Item>, k: nat)
    requires k < |was|
    ensures (NormalAll(was[..k]) + was[k..])[k := Normal(was[k])] == NormalAll(was[..k + 1]) + was[k + 1..]
  {
  }

  // The loop body: the item is normalised in place once its group passes, then claims its keys.
  method ValidateItem(items: array<Item>, k: nat, owner: set<Security>, groups: set<string>)
    returns (v: Verdict, owned: set<Security>, known: set<string>)
    requires k < items.Length
    modifies items
    ensures (v, owned, known) == CheckItem(old(items[k]), owner, groups)
    ensures items[..] == if v.Accepted? || v.reason == SecurityTwice
                         then old(items[..])[k := Normal(old(items[k]))] else old(items[..])
  {
    var item := items[k];
    known := groups;
    if item.group.Some? {
      if item.group.value.key in groups {
        return Rejected(GroupTwice), owner, known;
      }
      known := known + {item.group.value.key};
      var alt := item.group.value.domesticAlt;
      if alt.Some? && alt.value.security.market !in DOMESTIC_MARKETS {
        return Rejected(AlternateNotDomestic), owner, known;
      }
      if alt.Some? && alt.value.leverage != 1.0 {
        return Rejected(AlternateLeveraged), owner, known;
      }
      NormaliseAt(items, k);
    }
    var more := ClaimKeys(owner, Keys(items[k]));
    if more.None? {
      return Rejected(SecurityTwice), owner, known;
    }
    return Accepted, more.value, known;
  }

  method NormaliseAt(items: array<Item>, k: nat)
    requires k < items.Length && items[k].group.Some?
    modifies items
    ensures items[..] == old(items[..])[k := Normal(old(items[k]))]
  {
    var item := items[k];
    var g := item.group.value;
    var alt := g.domesticAlt;
    if alt.Some? && alt.value.security == item.primary {
      alt := None;
    }
    var excluded := {item.primary} + if alt.Some? then {alt.value.security} else {};
    items[k] := item.(group := Some(g.(domesticAlt := alt, members := Keep(g.members, excluded))));
  }

  method ClaimKeys(owner: set<Security>, keys: seq<Security>) returns (r: Option<set<Security>>)
    ensures r == Own(owner, keys)
  {
    var owned := owner;
    for j := 0 to |keys|
      invariant Own(owner, keys) == Own(owned, keys[j..])
    {
      assert keys[j..][1..] == keys[j + 1..];
      if keys[j] in owned {
        return None;
      }
      owned := owned + {keys[j]};
    }
    return Some(owned);
  }

  function TotalWeight(items: seq<Item>): real {
    if items == [] then 0.0 else TotalWeight(items[..|items| - 1]) + items[|items| - 1].weight
  }

  lemma {:induction false} TotalsAdd(a: seq<Item>, b: seq<Item>)
    ensures TotalWeight(a + b) == TotalWeight(a) + TotalWeight(b)
    ensures |b| == 1 ==> TotalWeight(b) == b[0].weight
  {
    if b == [] {
      assert a + b == a;
    } else {
      var n := |b| - 1;
      assert (a + b)[..|a + b| - 1] == a + b[..n];
      TotalsAdd(a, b[..n]);
    }
  }

  function WeightVerdict(items: seq<Item>): Verdict {
    if items == [] then Rejected(NoItems)
    else if exists n :: 0 <= n < |items| && !(0.0 <= items[n].weight <= 100.0) then Rejected(WeightRange)
    else if exists n :: 0 <= n < |items| && Blank(items[n].primary.ticker) then Rejected(BlankTicker)
    else if !(99.99 <= TotalWeight(items) <= 100.01) then Rejected(WrongTotal)
    else Accepted
  }

  method ValidateWeights(all: seq<Item>) returns (v: Verdict)
    ensures v == WeightVerdict(all)
    ensures v.Accepted? <==>
      && all != [] && -0.01 <= TotalWeight(all) - 100.0 <= 0.01
      && forall n :: 0 <= n < |all| ==> 0.0 <= all[n].weight <= 100.0 && !Blank(all[n].primary.ticker)
    ensures v == Rejected(NoItems) <==> all == []
    ensures v == Rejected(WeightRange) <==> exists i :: i in all && (i.weight < 0.0 || i.weight > 100.0)
    ensures v == Rejected(BlankTicker) <==>
      (forall i :: i in all ==> 0.0 <= i.weight <= 100.0) && exists i :: i in all && Blank(i.primary.ticker)
    ensures v.Rejected? ==> v.reason in {NoItems, WeightRange, BlankTicker, WrongTotal}
  {
    if |all| == 0 {
      return Rejected(NoItems);
    }
    if exists n :: 0 <= n < |all| && !(0.0 <= all[n].weight <= 100.0) {
      return Rejected(WeightRange);
    }
    if exists n :: 0 <= n < |all| && Blank(all[n].primary.ticker) {
      return Rejected(BlankTicker);
    }
    var total := 0.0;
    for n := 0 to |all|
      invariant total == TotalWeight(all[..n])
    {
      assert all[..n + 1] == all[..n] + [all[n]];
      total := total + all[n].weight;
    }
    assert all[..|all|] == all;
    var off := total - 100.0;
    return if (if off < 0.0 then -off else off) > 0.01 then Rejected(WrongTotal) else Accepted;
  }

  method ValidatePortfolioWeights(items: array<Item>) returns (v: Verdict)
    modifies items
    ensures v == if WeightVerdict(old(items[..])).Accepted? then GroupVerdict(old(items[..])) else WeightVerdict(old(items[..]))
    ensures WeightVerdict(old(items[..])).Rejected? ==> items[..] == old(items[..])
    ensures v.Accepted? ==> items[..] == if HasGroup(old(items[..])) then NormalAll(old(items[..])) else old(items[..])
  {
    ghost var was := items[..];
    v := ValidateWeights(items[..]);
    if v.Accepted? {
      var done;
      v, done := ValidateGroupMembers(items);
      assert was[..items.Length] == was && NormalAll(was[..0]) + was[0..] == was;
    }
  }

  // ------------------------------------------------------------------ what acceptance means

  // No two groups share a key.
  ghost predicate KeysDiffer(items: seq<Item>) {
    forall m, n :: 0 <= m < n < |items| && items[m].group.Some? && items[n].group.Some? ==>
      items[m].group.value.key != items[n].group.value.key
  }

  // Every alternate is a domestic security without leverage.
  ghost predicate AlternatesAllowed(items: seq<Item>) {
    forall n :: 0 <= n < |items| && items[n].group.Some? && items[n].group.value.domesticAlt.Some? ==>
      var alt := items[n].group.value.domesticAlt.value;
      alt.security.market in DOMESTIC_MARKETS && alt.leverage == 1.0
  }

  ghost predicate SideRules(items: seq<Item>) {
    KeysDiffer(items) && AlternatesAllowed(items)
  }

  ghost predicate GroupsInOrder(items: seq<Item>) {
    && Distinct(GroupKeys(items))
    && forall i :: i in items ==> AlternateDomestic(i) && AlternateUnleveraged(i)
  }

  lemma DistinctConcat<T>(a: seq<T>, b: seq<T>)
    ensures Distinct(a + b) <==> Distinct(a) && Distinct(b) && Elements(a) !! Elements(b)
  {
    if Distinct(a + b) {
      assert forall i :: 0 <= i < |a| ==> a[i] == (a + b)[i];
      assert forall i :: 0 <= i < |b| ==> b[i] == (a + b)[|a| + i];
    }
    if Distinct(a) && Distinct(b) && Elements(a) !! Elements(b) {
      forall i, j | 0 <= i < j < |a + b| ensures (a + b)[i] != (a + b)[j] {
        if i < |a| <= j {
          assert a[i] in Elements(a) && b[j - |a|] in Elements(b);
        }
      }
    }
  }

  lemma {:induction false} OwnMeans(owner: set<Security>, keys: seq<Security>)
    ensures Own(owner, keys).Some? <==> Distinct(keys) && Elements(keys) !! owner
    ensures Own(owner, keys).Some? ==> Own(owner, keys).value == owner + Elements(keys)
    decreases keys
  {
    if keys == [] {
    } else {
      OwnMeans(owner + {keys[0]}, keys[1..]);
      assert keys == [keys[0]] + keys[1..];
      DistinctConcat([keys[0]], keys[1..]);
      assert Elements(keys) == {keys[0]} + Elements(keys[1..]);
      assert Elements([keys[0]]) == {keys[0]};
    }
  }

  function GroupKey(i: Item): set<string> {
    if i.group.Some? then {i.group.value.key} else {}
  }

  lemma GroupsUnfold(items: seq<Item>)
    requires items != []
    ensures var i, rest := items[0], items[1..];
      && (GroupsInOrder(items) <==>
            AlternateDomestic(i) && AlternateUnleveraged(i) && GroupsInOrder(rest) && GroupKey(i) !! Elements(GroupKeys(rest)))
      && Elements(GroupKeys(items)) == GroupKey(i) + Elements(GroupKeys(rest))
  {
    var i, rest := items[0], items[1..];
    var mine := if i.group.Some? then [i.group.value.key] else [];
    DistinctConcat(mine, GroupKeys(rest));
    assert Elements(mine) == GroupKey(i);
    assert forall j :: j in items <==> j == i || j in rest;
  }

  lemma KeysUnfold(items: seq<Item>)
    requires items != []
    ensures var keys, later := Keys(Normal(items[0])), AllKeys(NormalAll(items[1..]));
      && (Distinct(AllKeys(NormalAll(items))) <==> Distinct(keys) && Distinct(later) && Elements(keys) !! Elements(later))
      && Elements(AllKeys(NormalAll(items))) == Elements(keys) + Elements(later)
  {
    assert NormalAll(items)[1..] == NormalAll(items[1..]);
    DistinctConcat(Keys(Normal(items[0])), AllKeys(NormalAll(items[1..])));
  }

  lemma {:induction false} CheckMeans(items: seq<Item>, owner: set<Security>, groups: set<string>)
    ensures Check(items, owner, groups).Accepted? <==>
      && GroupsInOrder(items) && Elements(GroupKeys(items)) !! groups
      && Distinct(AllKeys(NormalAll(items))) && Elements(AllKeys(NormalAll(items))) !! owner
  {
    if items == [] {
    } else {
      var i, rest := items[0], items[1..];
      OwnMeans(owner, Keys(Normal(i)));
      GroupsUnfold(items);
      KeysUnfold(items);
      hide Own, Keys, Normal, NormalAll, Distinct, GroupsInOrder, AlternateDomestic, AlternateUnleveraged;
      CheckMeans(rest, owner + Elements(Keys(Normal(i))), groups + GroupKey(i));
      assert groups + GroupKey(i) == if i.group.Some? then groups + {i.group.value.key} else groups;
    }
  }

  lemma {:induction false} GroupKeysMean(items: seq<Item>, key: string)
    ensures key in GroupKeys(items) <==> exists n :: 0 <= n < |items| && items[n].group.Some? && items[n].group.value.key == key
  {
    if items == [] {
    } else {
      GroupKeysMean(items[1..], key);
      if n :| 0 <= n < |items| && items[n].group.Some? && items[n].group.value.key == key {
        assert n > 0 ==> items[1..][n - 1] == items[n];
      }
    }
  }

  lemma {:induction false} KeysDifferMean(items: seq<Item>)
    ensures KeysDiffer(items) <==> Distinct(GroupKeys(items))
  {
    if items == [] {
    } else {
      var i, rest := items[0], items[1..];
      KeysDifferMean(rest);
      KeysDifferUnfold(items);
      var mine := if i.group.Some? then [i.group.value.key] else [];
      DistinctConcat(mine, GroupKeys(rest));
      if i.group.Some? {
        GroupKeysMean(rest, i.group.value.key);
        assert Elements(mine) == {i.group.value.key};
      }
      hide KeysDiffer, Distinct;
    }
  }

  lemma KeysDifferUnfold(items: seq<Item>)
    requires items != []
    ensures var i, rest := items[0], items[1..];
      KeysDiffer(items) <==> KeysDiffer(rest) && (i.group.Some? ==>
        !exists n :: 0 <= n < |rest| && rest[n].group.Some? && rest[n].group.value.key == i.group.value.key)
  {
    var rest := items[1..];
    assert forall n :: 0 < n < |items| ==> items[n] == rest[n - 1];
    assert forall n :: 0 <= n < |rest| ==> rest[n] == items[n + 1];
  }

  lemma AlternatesMean(items: seq<Item>)
    ensures AlternatesAllowed(items) <==> forall i :: i in items ==> AlternateDomestic(i) && AlternateUnleveraged(i)
  {
    if AlternatesAllowed(items) {
      forall i | i in items ensures AlternateDomestic(i) && AlternateUnleveraged(i) {
        var n :| 0 <= n < |items| && items[n] == i;
      }
    }
    if forall i :: i in items ==> AlternateDomestic(i) && AlternateUnleveraged(i) {
      assert forall n :: 0 <= n < |items| ==> items[n] in items && AlternateDomestic(items[n]) && AlternateUnleveraged(items[n]);
    }
  }

  lemma SideRulesMean(items: seq<Item>)
    ensures SideRules(items) <==> GroupsInOrder(items)
  {
    KeysDifferMean(items);
    AlternatesMean(items);
    hide KeysDiffer, AlternatesAllowed, Distinct, AlternateDomestic, AlternateUnleveraged;
  }

  // How often an item names a security: its primary once; its alternate, unless that is the
  // primary, once; any other security as often as it is a member of the group.
  function Named(i: Item, s: Security): nat {
    if s == i.primary then 1
    else if i.group.None? then 0
    else if i.group.value.domesticAlt.Some? && i.group.value.domesticAlt.value.security == s then 1
    else multiset(i.group.value.members)[s]
  }

  function NamedIn(items: seq<Item>, s: Security): nat {
    if items == [] then 0 else Named(items[0], s) + NamedIn(items[1..], s)
  }

  ghost predicate NamedOnce(items: seq<Item>) {
    forall s: Security :: NamedIn(items, s) <= 1
  }

  lemma {:induction false} KeepCounts(members: seq<Security>, excluded: set<Security>, s: Security)
    ensures multiset(Keep(members, excluded))[s] == if s in excluded then 0 else multiset(members)[s]
  {
    if members == [] {
    } else {
      KeepCounts(members[1..], excluded, s);
      assert members == [members[0]] + members[1..];
    }
  }

  lemma Counts<T>(a: T, b: seq<T>, c: seq<T>, x: T)
    ensures multiset([a] + b + c)[x] == (if x == a then 1 else 0) + multiset(b)[x] + multiset(c)[x]
  {
  }

  lemma KeysWithoutAlternate(i: Item)
    requires i.group.Some?
    requires i.group.value.domesticAlt.Some? ==> i.group.value.domesticAlt.value.security == i.primary
    ensures Keys(Normal(i)) == [i.primary] + Keep(i.group.value.members, {i.primary}) + []
  {
    assert {i.primary} + {} == {i.primary};
    hide Keep;
  }

  lemma KeysWithAlternate(i: Item)
    requires i.group.Some? && i.group.value.domesticAlt.Some?
    requires i.group.value.domesticAlt.value.security != i.primary
    ensures var other := i.group.value.domesticAlt.value.security;
      Keys(Normal(i)) == [i.primary] + Keep(i.group.value.members, {i.primary} + {other}) + [other]
  {
    hide Keep;
  }

  lemma NoGroupKeys(i: Item, s: Security)
    requires i.group.None?
    ensures multiset(Keys(Normal(i)))[s] == Named(i, s)
  {
    assert Keys(Normal(i)) == [i.primary];
  }

  // Which securities the normalised item stands for, read off the item as it was given.
  lemma KeysMean(i: Item, s: Security)
    ensures multiset(Keys(Normal(i)))[s] == Named(i, s)
  {
    hide Keys, Normal, Keep;
    if i.group.None? {
      NoGroupKeys(i, s);
    } else {
      var members, primary, alt := i.group.value.members, i.primary, i.group.value.domesticAlt;
      if alt.Some? && alt.value.security != primary {
        var other := alt.value.security;
        KeysWithAlternate(i);
        KeepCounts(members, {primary} + {other}, s);
        Counts(primary, Keep(members, {primary} + {other}), [other], s);
      } else {
        KeysWithoutAlternate(i);
        KeepCounts(members, {primary}, s);
        Counts(primary, Keep(members, {primary}), [], s);
      }
    }
  }

  lemma {:induction false} AllKeysMean(items: seq<Item>, s: Security)
    ensures multiset(AllKeys(NormalAll(items)))[s] == NamedIn(items, s)
  {
    if items == [] {
    } else {
      assert NormalAll(items)[1..] == NormalAll(items[1..]);
      KeysMean(items[0], s);
      AllKeysMean(items[1..], s);
    }
  }

  lemma {:induction false} DistinctIffOnce<T>(s: seq<T>)
    ensures Distinct(s) <==> forall x :: multiset(s)[x] <= 1
  {
    if s == [] {
    } else {
      var a, rest := s[0], s[1..];
      DistinctIffOnce(rest);
      assert s == [a] + rest;
      DistinctConcat([a], rest);
      assert a in multiset(rest) <==> a in Elements(rest);
      assert Elements([a]) == {a};
      assert forall x :: multiset(s)[x] == multiset(rest)[x] + if x == a then 1 else 0;
      if forall x :: multiset(s)[x] <= 1 {
        assert multiset(s)[a] <= 1;
      }
    }
  }

  lemma NamedOnceMeans(items: seq<Item>)
    ensures NamedOnce(items) <==> Distinct(AllKeys(NormalAll(items)))
  {
    forall s: Security ensures multiset(AllKeys(NormalAll(items)))[s] == NamedIn(items, s) {
      AllKeysMean(items, s);
    }
    DistinctIffOnce(AllKeys(NormalAll(items)));
  }

  // Acceptance is exactly this: either the portfolio has no group, or the groups and their
  // alternates obey the side rules and no security is named twice in the whole portfolio.
  lemma AcceptedIff(items: seq<Item>)
    ensures GroupVerdict(items).Accepted? <==>
      (forall i :: i in items ==> i.group.None?) || (SideRules(items) && NamedOnce(items))
  {
    CheckMeans(items, {}, {});
    SideRulesMean(items);
    NamedOnceMeans(items);
  }

  lemma {:induction false} CheckLast(items: seq<Item>, owner: set<Security>, groups: set<string>)
    requires items != []
    ensures var init, last := items[..|items| - 1], items[|items| - 1];
      Check(items, owner, groups) ==
        if Check(init, owner, groups).Rejected? then Check(init, owner, groups)
        else CheckItem(last, owner + Elements(AllKeys(NormalAll(init))), groups + Elements(GroupKeys(init))).0
  {
    var i, rest := items[0], items[1..];
    var (v, owned, known) := CheckItem(i, owner, groups);
    if |items| == 1 {
      assert owner + Elements([]) == owner && groups + Elements<string>([]) == groups;
    } else if v.Accepted? {
      var init := items[..|items| - 1];
      assert init[0] == i && init[1..] == rest[..|rest| - 1];
      OwnMeans(owner, Keys(Normal(i)));
      KeysUnfold(init);
      GroupsUnfold(init);
      hide Own, Keys, Normal, NormalAll;
      CheckLast(rest, owned, known);
      assert known == groups + GroupKey(i);
      assert owned + Elements(AllKeys(NormalAll(init[1..]))) == owner + Elements(AllKeys(NormalAll(init)));
      assert known + Elements(GroupKeys(init[1..])) == groups + Elements(GroupKeys(init));
    }
  }

  // What is wrong with item k when all before it are in order, in the order of the checks.
  ghost predicate Offends(items: seq<Item>, k: nat, reason: Reason)
    requires k < |items|
  {
    var i := items[k];
    var again := i.group.Some?
      && exists m :: 0 <= m < k && items[m].group.Some? && items[m].group.value.key == i.group.value.key;
    var alt := if i.group.Some? then i.group.value.domesticAlt else None;
    var foreign := alt.Some? && alt.value.security.market !in DOMESTIC_MARKETS;
    var leveraged := alt.Some? && alt.value.leverage != 1.0;
    match reason
    case GroupTwice => again
    case AlternateNotDomestic => !again && foreign
    case AlternateLeveraged => !again && !foreign && leveraged
    case SecurityTwice => !again && !foreign && !leveraged && !NamedOnce(items[..k + 1])
    case _ => false
  }

  ghost predicate FirstOffence(items: seq<Item>, k: nat, reason: Reason)
    requires k < |items|
  {
    SideRules(items[..k]) && NamedOnce(items[..k]) && Offends(items, k, reason)
  }

  lemma {:induction false} AllKeysAppend(items: seq<Item>, i: Item)
    ensures AllKeys(items + [i]) == AllKeys(items) + Keys(i)
  {
    hide Keys;
    if items == [] {
      assert [] + [i] == [i];
    } else {
      assert (items + [i])[1..] == items[1..] + [i];
      AllKeysAppend(items[1..], i);
    }
  }

  lemma AllKeysLast(items: seq<Item>)
    requires items != []
    ensures AllKeys(NormalAll(items)) == AllKeys(NormalAll(items[..|items| - 1])) + Keys(Normal(items[|items| - 1]))
  {
    var init, last := items[..|items| - 1], items[|items| - 1];
    hide Normal, Keys, AllKeys;
    assert NormalAll(items) == NormalAll(init) + [Normal(last)];
    AllKeysAppend(NormalAll(init), Normal(last));
  }

  // The keys of the last item cannot all be owned anew exactly if some security is now named twice.
  lemma LastOwned(items: seq<Item>)
    requires items != [] && NamedOnce(items[..|items| - 1])
    ensures var init, n := items[..|items| - 1], |items| - 1;
      Own(Elements(AllKeys(NormalAll(init))), Keys(Normal(items[n]))).Some? <==> NamedOnce(items)
  {
    var init, last := items[..|items| - 1], items[|items| - 1];
    NamedOnceMeans(init);
    NamedOnceMeans(items);
    OwnMeans(Elements(AllKeys(NormalAll(init))), Keys(Normal(last)));
    AllKeysLast(items);
    DistinctConcat(AllKeys(NormalAll(init)), Keys(Normal(last)));
    hide Own, Keys, Normal, NormalAll, AllKeys, NamedOnce, Distinct, Elements;
  }

  lemma ItemRejects(i: Item, owner: set<Security>, groups: set<string>, reason: Reason)
    ensures var again := i.group.Some? && i.group.value.key in groups;
      CheckItem(i, owner, groups).0 == Rejected(reason) <==>
        match reason
        case GroupTwice => again
        case AlternateNotDomestic => !again && !AlternateDomestic(i)
        case AlternateLeveraged => !again && AlternateDomestic(i) && !AlternateUnleveraged(i)
        case SecurityTwice =>
          !again && AlternateDomestic(i) && AlternateUnleveraged(i) && Own(owner, Keys(Normal(i))).None?
        case _ => false
  {
    hide Own, Keys, Normal, AlternateDomestic, AlternateUnleveraged;
  }

  lemma LastOffends(items: seq<Item>, reason: Reason)
    requires items != [] && NamedOnce(items[..|items| - 1])
    ensures var init, n := items[..|items| - 1], |items| - 1;
      CheckItem(items[n], Elements(AllKeys(NormalAll(init))), Elements(GroupKeys(init))).0 == Rejected(reason)
      <==> Offends(items, n, reason)
  {
    var n := |items| - 1;
    var init, last := items[..n], items[n];
    assert items[..n + 1] == items;
    if last.group.Some? {
      GroupKeysMean(init, last.group.value.key);
      assert forall m :: 0 <= m < n ==> init[m] == items[m];
    }
    LastOwned(items);
    ItemRejects(last, Elements(AllKeys(NormalAll(init))), Elements(GroupKeys(init)), reason);
    hide CheckItem, Own, Keys, Normal, NormalAll, AllKeys, NamedOnce, GroupKeys;
  }

  lemma SameOffence(items: seq<Item>, k: nat, reason: Reason)
    requires k < |items| - 1
    ensures FirstOffence(items, k, reason) <==> FirstOffence(items[..|items| - 1], k, reason)
  {
    var init := items[..|items| - 1];
    assert items[..k] == init[..k] && items[..k + 1] == init[..k + 1];
    assert forall m :: 0 <= m <= k ==> items[m] == init[m];
    hide SideRules, NamedOnce;
  }

  lemma {:induction false} CheckRejects(items: seq<Item>, reason: Reason)
    ensures Check(items, {}, {}) == Rejected(reason) <==> exists k :: 0 <= k < |items| && FirstOffence(items, k, reason)
  {
    hide SideRules, NamedOnce, CheckItem, Offends, NormalAll, AllKeys;
    if items == [] {
    } else {
      var n := |items| - 1;
      var init := items[..n];
      CheckRejects(init, reason);
      CheckLast(items, {}, {});
      CheckMeans(init, {}, {});
      SideRulesMean(init);
      NamedOnceMeans(init);
      assert {} + Elements(AllKeys(NormalAll(init))) == Elements(AllKeys(NormalAll(init)));
      assert {} + Elements(GroupKeys(init)) == Elements(GroupKeys(init));
      forall k | 0 <= k < n ensures FirstOffence(items, k, reason) <==> FirstOffence(init, k, reason) {
        SameOffence(items, k, reason);
      }
      hide Check;
      if Check(init, {}, {}).Accepted? {
        LastOffends(items, reason);
        assert FirstOffence(items, n, reason) <==> Offends(items, n, reason);
      }
    }
  }

  // A rejection names the first fault of the first item that has one.
  lemma RejectedIff(items: seq<Item>, reason: Reason)
    ensures GroupVerdict(items) == Rejected(reason)
      <==> HasGroup(items) && exists k :: 0 <= k < |items| && FirstOffence(items, k, reason)
  {
    CheckRejects(items, reason);
  }

  // The first sequence is what is left of the second one after leaving some elements out.
  predicate InOrder<T(==)>(part: seq<T>, whole: seq<T>) {
    part == [] || (whole != [] && InOrder(if part[0] == whole[0] then part[1..] else part, whole[1..]))
  }

  lemma {:induction false} KeepInOrder(members: seq<Security>, excluded: set<Security>)
    ensures InOrder(Keep(members, excluded), members)
  {
    if members == [] {
    } else {
      KeepInOrder(members[1..], excluded);
      var kept := Keep(members[1..], excluded);
      if members[0] in excluded {
        KeepMembers(members[1..], excluded);
        assert Keep(members, excluded) == kept;
        assert kept != [] ==> kept[0] in kept && kept[0] != members[0];
      } else {
        assert Keep(members, excluded)[1..] == kept;
      }
    }
  }

  // Normalising touches nothing but the alternate and the members, and these keep their order.
  lemma NormalKeepsTheRest(i: Item)
    ensures var n := Normal(i);
      && n.primary == i.primary && n.weight == i.weight && n.group.Some? == i.group.Some?
      && (i.group.Some? ==> n.group.value.key == i.group.value.key && InOrder(n.group.value.members, i.group.value.members))
      && (i.group.Some? && i.group.value.domesticAlt.Some? ==>
            && (n.group.value.domesticAlt.None? <==> i.group.value.domesticAlt.value.security == i.primary)
            && (n.group.value.domesticAlt.Some? ==> n.group.value.domesticAlt == i.group.value.domesticAlt))
      && (i.group.Some? && i.group.value.domesticAlt.None? ==> n.group.value.domesticAlt.None?)
  {
    if i.group.Some? {
      var g := NormalGroup(i.group.value, i.primary);
      KeepInOrder(i.group.value.members, {i.primary} + if g.domesticAlt.Some? then {g.domesticAlt.value.security} else {});
    }
  }

  lemma NormalTwice(i: Item)
    ensures Normal(Normal(i)) == Normal(i)
  {
    if i.group.Some? {
      var g := NormalGroup(i.group.value, i.primary);
      KeepTwice(i.group.value.members, {i.primary} + if g.domesticAlt.Some? then {g.domesticAlt.value.security} else {});
    }
  }

  lemma KeepTwice(members: seq<Security>, excluded: set<Security>)
    ensures Keep(Keep(members, excluded), excluded) == Keep(members, excluded)
  {
    KeepMembers(members, excluded);
    KeepAll(Keep(members, excluded), excluded);
  }

  lemma {:induction false} KeepMembers(members: seq<Security>, excluded: set<Security>)
    ensures forall m :: m in Keep(members, excluded) <==> m in members && m !in excluded
  {
    if members == [] {
    } else {
      KeepMembers(members[1..], excluded);
    }
  }

  lemma {:induction false} KeepAll(members: seq<Security>, excluded: set<Security>)
    requires forall m :: m in members ==> m !in excluded
    ensures Keep(members, excluded) == members
  {
    if members == [] {
    } else {
      KeepAll(members[1..], excluded);
    }
  }

  lemma {:induction false} SameGroupKeys(items: seq<Item>)
    ensures GroupKeys(NormalAll(items)) == GroupKeys(items)
    ensures HasGroup(NormalAll(items)) <==> HasGroup(items)
  {
    if items == [] {
    } else {
      assert NormalAll(items)[1..] == NormalAll(items[1..]);
      SameGroupKeys(items[1..]);
    }
    assert forall n :: 0 <= n < |items| ==> NormalAll(items)[n].group.Some? == items[n].group.Some?;
  }

  lemma NormalAllTwice(items: seq<Item>)
    ensures NormalAll(NormalAll(items)) == NormalAll(items)
  {
    forall n | 0 <= n < |items| ensures Normal(Normal(items[n])) == Normal(items[n]) {
      NormalTwice(items[n]);
    }
    hide Normal;
    assert forall n :: 0 <= n < |items| ==> NormalAll(NormalAll(items))[n] == NormalAll(items)[n];
  }

  lemma SideRulesStay(items: seq<Item>)
    requires SideRules(items)
    ensures SideRules(NormalAll(items))
  {
    var all := NormalAll(items);
    assert forall n :: 0 <= n < |items| ==>
      all[n].group.Some? == items[n].group.Some?
      && (items[n].group.Some? ==>
            && all[n].group.value.key == items[n].group.value.key
            && (all[n].group.value.domesticAlt.Some? ==> all[n].group.value.domesticAlt == items[n].group.value.domesticAlt));
    hide NormalAll;
  }

  // Normalising again changes nothing, and a normalised portfolio that was accepted still is.
  lemma NormalisedStaysAccepted(items: seq<Item>)
    ensures NormalAll(NormalAll(items)) == NormalAll(items)
    ensures GroupVerdict(items).Accepted? && HasGroup(items) ==> GroupVerdict(NormalAll(items)).Accepted?
  {
    NormalAllTwice(items);
    assert HasGroup(items) <==> exists i :: i in items && i.group.Some?;
    assert HasGroup(NormalAll(items)) <==> exists i :: i in NormalAll(items) && i.group.Some?;
    hide NormalAll, SideRules, HasGroup, NamedOnce, GroupVerdict;
    AcceptedIff(items);
    AcceptedIff(NormalAll(items));
    NamedOnceMeans(items);
    NamedOnceMeans(NormalAll(items));
    SameGroupKeys(items);
    if SideRules(items) {
      SideRulesStay(items);
    }
  }

  // ------------------------------------------------------------------ no holding counted twice

  datatype Holding = Holding(security: Security, valueKrw: real)

  function HeldBy(keys: seq<Security>, holdings: seq<Holding>): real {
    if holdings == [] then 0.0
    else (if holdings[0].security in keys then holdings[0].valueKrw else 0.0) + HeldBy(keys, holdings[1..])
  }

  // The current values of the items, added up.
  function SumOfItems(items: seq<Item>, holdings: seq<Holding>): real {
    if items == [] then 0.0 else HeldBy(Keys(items[0]), holdings) + SumOfItems(items[1..], holdings)
  }

  lemma {:induction false} DisjointSums(a: seq<Security>, b: seq<Security>, holdings: seq<Holding>)
    requires Elements(a) !! Elements(b)
    ensures HeldBy(a + b, holdings) == HeldBy(a, holdings) + HeldBy(b, holdings)
  {
    if holdings == [] {
    } else {
      DisjointSums(a, b, holdings[1..]);
      var s := holdings[0].security;
      assert s in a ==> s in Elements(a);
      assert s in b ==> s in Elements(b);
      assert s in a + b <==> s in a || s in b;
    }
  }

  lemma {:induction false} ItemsAddUp(items: seq<Item>, holdings: seq<Holding>)
    requires Distinct(AllKeys(items))
    ensures SumOfItems(items, holdings) == HeldBy(AllKeys(items), holdings)
  {
    if items == [] {
      NothingHeld(holdings);
    } else {
      DistinctConcat(Keys(items[0]), AllKeys(items[1..]));
      DisjointSums(Keys(items[0]), AllKeys(items[1..]), holdings);
      ItemsAddUp(items[1..], holdings);
    }
  }

  lemma {:induction false} NothingHeld(holdings: seq<Holding>)
    ensures HeldBy([], holdings) == 0.0
  {
    if holdings == [] {
    } else {
      NothingHeld(holdings[1..]);
    }
  }

  // The value of the holdings whose security the portfolio names.
  function Worth(items: seq<Item>, holdings: seq<Holding>): real {
    if holdings == [] then 0.0
    else (if NamedIn(items, holdings[0].security) > 0 then holdings[0].valueKrw else 0.0) + Worth(items, holdings[1..])
  }

  lemma {:induction false} HeldIsWorth(items: seq<Item>, holdings: seq<Holding>)
    ensures HeldBy(AllKeys(NormalAll(items)), holdings) == Worth(items, holdings)
  {
    if holdings == [] {
    } else {
      AllKeysMean(items, holdings[0].security);
      HeldIsWorth(items, holdings[1..]);
    }
  }

  // What the rule is for: with any holdings at all, the items of an accepted grouped portfolio
  // add up to the value of exactly the holdings it names, each counted once.
  lemma HoldingsCountedOnce(items: seq<Item>, holdings: seq<Holding>)
    requires GroupVerdict(items).Accepted? && HasGroup(items)
    ensures SumOfItems(NormalAll(items), holdings) == Worth(items, holdings)
  {
    assert exists i :: i in items && i.group.Some?;
    hide GroupVerdict, NormalAll, NamedOnce, HasGroup, SideRules;
    AcceptedIff(items);
    NamedOnceMeans(items);
    ItemsAddUp(NormalAll(items), holdings);
    HeldIsWorth(items, holdings);
  }

  // Without the rule it fails: two items that share a security count its holding twice.
  lemma SharedSecurityCountsTwice(a: Item, b: Item, s: Security, value: real)
    requires s in Keys(a) && s in Keys(b) && value > 0.0
    ensures SumOfItems([a, b], [Holding(s, value)]) == 2.0 * value > HeldBy(AllKeys([a, b]), [Holding(s, value)])
  {
    var h := [Holding(s, value)];
    assert h[1..] == [];
    assert HeldBy(Keys(a), h) == value && HeldBy(Keys(b), h) == value;
    assert [a, b][1..] == [b] && [b][1..] == [];
    assert SumOfItems([b], h) == value;
    assert AllKeys([a, b]) == Keys(a) + AllKeys([b]);
    assert HeldBy(AllKeys([a, b]), h) == value;
  }
}
