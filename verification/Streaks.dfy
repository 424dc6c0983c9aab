// Saving streaks: month keys as text, the walk over them, and the two streak counts.
module Streaks {
  import opened Basics

  // ------------------------------------------------------------------ month keys

  // "YYYY-MM", for the years 1000 to 9999.

  // Months numbered from year 0, January.
  const FIRST := 12000
  const LAST := 119999

  function Digit(n: nat): (c: char)
    requires n < 10
    ensures '0' <= c <= '9' && Value(c) == n
  {
    '0' + n as char
  }

  function Value(c: char): nat
    requires '0' <= c <= '9'
  {
    (c - '0') as nat
  }

  function MonthKey(index: int): string
    requires FIRST <= index <= LAST
  {
    var year, month := index / 12, index % 12 + 1;
    [Digit(year / 1000), Digit(year / 100 % 10), Digit(year / 10 % 10), Digit(year % 10), '-',
     Digit(month / 10), Digit(month % 10)]
  }

  predicate IsDigit(c: char) {
    '0' <= c <= '9'
  }

  function MonthOf(key: string): nat
    requires |key| == 7 && IsDigit(key[5]) && IsDigit(key[6])
  {
    10 * Value(key[5]) + Value(key[6])
  }

  function YearOf(key: string): nat
    requires |key| == 7 && IsDigit(key[0]) && IsDigit(key[1]) && IsDigit(key[2]) && IsDigit(key[3])
  {
    1000 * Value(key[0]) + 100 * Value(key[1]) + 10 * Value(key[2]) + Value(key[3])
  }

  predicate IsMonthKey(key: string) {
    && |key| == 7
    && IsDigit(key[0]) && IsDigit(key[1]) && IsDigit(key[2]) && IsDigit(key[3])
    && key[0] != '0' && key[4] == '-'
    && IsDigit(key[5]) && IsDigit(key[6])
    && 1 <= MonthOf(key) <= 12
  }

  function IndexOf(key: string): (index: int)
    requires IsMonthKey(key)
    ensures FIRST <= index <= LAST
  {
    12 * YearOf(key) + MonthOf(key) - 1
  }

  lemma KeyRoundTrip(index: int)
    requires FIRST <= index <= LAST
    ensures IsMonthKey(MonthKey(index)) && IndexOf(MonthKey(index)) == index
  {
    var year, month, key := index / 12, index % 12 + 1, MonthKey(index);
    FourDigits(year);
    assert Value(key[0]) == year / 1000 && Value(key[1]) == year / 100 % 10;
    assert Value(key[2]) == year / 10 % 10 && Value(key[3]) == year % 10;
    assert MonthOf(key) == month;
    hide Digit, Value;
  }

  lemma FourDigits(year: int)
    requires 1000 <= year <= 9999
    ensures 1 <= year / 1000 <= 9
    ensures year == 1000 * (year / 1000) + 100 * (year / 100 % 10) + 10 * (year / 10 % 10) + year % 10
  {
    assert year / 100 == year / 10 / 10 && year / 1000 == year / 100 / 10;
  }

  lemma IndexRoundTrip(key: string)
    requires IsMonthKey(key)
    ensures MonthKey(IndexOf(key)) == key
  {
    var year, month := YearOf(key), MonthOf(key);
    assert IndexOf(key) / 12 == year && IndexOf(key) % 12 + 1 == month;
    DigitsBack(Value(key[0]), Value(key[1]), Value(key[2]), Value(key[3]));
    assert month / 10 == Value(key[5]) && month % 10 == Value(key[6]);
    assert Digit(Value(key[0])) == key[0] && Digit(Value(key[1])) == key[1] && Digit(Value(key[2])) == key[2];
    assert Digit(Value(key[3])) == key[3] && Digit(Value(key[5])) == key[5] && Digit(Value(key[6])) == key[6];
    hide Digit, Value;
  }

  lemma DigitsBack(a: nat, b: nat, c: nat, d: nat)
    requires a < 10 && b < 10 && c < 10 && d < 10
    ensures var year := 1000 * a + 100 * b + 10 * c + d;
            year / 1000 == a && year / 100 % 10 == b && year / 10 % 10 == c && year % 10 == d
  {
    var year := 1000 * a + 100 * b + 10 * c + d;
    assert year / 10 == 100 * a + 10 * b + c;
    assert year / 10 / 10 == 10 * a + b;
    assert year / 100 == year / 10 / 10 && year / 1000 == year / 10 / 10 / 10;
  }

  // Text order, character by character.
  predicate TextBefore(a: string, b: string) {
    b != [] && (a == [] || a[0] < b[0] || (a[0] == b[0] && TextBefore(a[1..], b[1..])))
  }

  // For texts of equal length the first difference decides.
  lemma {:induction false} FirstDifference(a: string, b: string, k: nat)
    requires |a| == |b| && k < |a| && a[..k] == b[..k] && a[k] != b[k]
    ensures TextBefore(a, b) <==> a[k] < b[k]
  {
    if k == 0 {
    } else {
      assert a[0] == a[..k][0] && b[0] == b[..k][0];
      assert a[1..][..k - 1] == a[..k][1..] && b[1..][..k - 1] == b[..k][1..];
      FirstDifference(a[1..], b[1..], k - 1);
    }
  }

  lemma {:induction false} NotBeforeItself(a: string)
    ensures !TextBefore(a, a)
  {
    if a == [] {
    } else {
      NotBeforeItself(a[1..]);
    }
  }

  // Comparing month keys as text is comparing the months.
  lemma TextOrderIsCalendarOrder(a: string, b: string)
    requires IsMonthKey(a) && IsMonthKey(b)
    ensures TextBefore(a, b) <==> IndexOf(a) < IndexOf(b)
  {
    if a == b {
      NotBeforeItself(a);
    } else {
      var k := Difference(a, b);
      FirstDifference(a, b, k);
      Decides(a, b, k);
    }
  }

  lemma {:induction false} Difference(a: string, b: string) returns (k: nat)
    requires |a| == |b| && a != b
    ensures k < |a| && a[..k] == b[..k] && a[k] != b[k]
  {
    if a[0] != b[0] {
      k := 0;
    } else {
      assert a == [a[0]] + a[1..] && b == [b[0]] + b[1..];
      var rest := Difference(a[1..], b[1..]);
      k := rest + 1;
      assert a[..k] == [a[0]] + a[1..][..rest] && b[..k] == [b[0]] + b[1..][..rest];
    }
  }

  lemma Decides(a: string, b: string, k: nat)
    requires IsMonthKey(a) && IsMonthKey(b) && k < 7 && a[..k] == b[..k] && a[k] != b[k]
    ensures a[k] < b[k] <==> IndexOf(a) < IndexOf(b)
  {
    assert forall i :: 0 <= i < k ==> a[i] == a[..k][i] && b[i] == b[..k][i];
    assert forall i :: 0 <= i < k ==> a[i] == b[i];
  }

  // ------------------------------------------------------------------ stepping and walking through months

  // The same day `delta` months away; the calendar library refuses years outside its range.
  function AddMonths(key: string, delta: int): (r: Option<string>)
    requires IsMonthKey(key)
    ensures r.Some? ==> IsMonthKey(r.value) && IndexOf(r.value) == IndexOf(key) + delta
    ensures r.None? <==> IndexOf(key) + delta < FIRST || IndexOf(key) + delta > LAST
  {
    var index := IndexOf(key) + delta;
    if FIRST <= index <= LAST then
      KeyRoundTrip(index);
      Some(MonthKey(index))
    else None
  }

  lemma AddThenSubtract(key: string, delta: int)
    requires IsMonthKey(key) && AddMonths(key, delta).Some?
    ensures AddMonths(AddMonths(key, delta).value, -delta) == Some(key)
  {
    IndexRoundTrip(key);
  }

  ghost function MonthsFrom(first: int, last: int): (months: seq<string>)
    requires FIRST <= first && last <= LAST
    ensures |months| == if first > last then 0 else last - first + 1
    ensures forall k :: 0 <= k < |months| ==> months[k] == MonthKey(first + k)
  {
    if first > last then [] else seq(last - first + 1, k requires 0 <= k <= last - first => MonthKey(first + k))
  }

  ghost function Months(start: string, end: string): seq<string>
    requires IsMonthKey(start) && IsMonthKey(end)
  {
    MonthsFrom(IndexOf(start), IndexOf(end))
  }

  // The walk fails, as the source's does, only when it must step past December 9999.
  method IterMonths(start: string, end: string) returns (months: Option<seq<string>>)
    requires IsMonthKey(start) && IsMonthKey(end)
    ensures months == if IndexOf(end) == LAST then (if IndexOf(start) <= IndexOf(end) then None else Some([]))
                      else Some(Months(start, end))
  {
    hide IsMonthKey, IndexOf, MonthKey, TextBefore;
    TextOrderIsCalendarOrder(end, start);
    if TextBefore(end, start) {
      return Some([]);
    }
    var out: seq<string> := [];
    var cur := start;
    IndexRoundTrip(start);
    TextOrderIsCalendarOrder(end, cur);
    while !TextBefore(end, cur)
      invariant IsMonthKey(cur) && IndexOf(cur) == IndexOf(start) + |out| <= IndexOf(end) + 1
      invariant cur == MonthKey(IndexOf(cur))
      invariant TextBefore(end, cur) <==> IndexOf(end) < IndexOf(cur)
      invariant forall k :: 0 <= k < |out| ==> out[k] == MonthKey(IndexOf(start) + k)
      decreases IndexOf(end) + 1 - IndexOf(cur)
    {
      out := out + [cur];
      var next := AddMonths(cur, 1);
      if next.None? {
        return None;
      }
      cur := next.value;
      IndexRoundTrip(cur);
      TextOrderIsCalendarOrder(end, cur);
    }
    assert out == Months(start, end);
    months := Some(out);
  }

  lemma LastMonthOnly(start: string, end: string, k: nat)
    requires IsMonthKey(start) && IsMonthKey(end) && k < |Months(start, end)|
    ensures Months(start, end)[k] == end <==> k == |Months(start, end)| - 1
  {
    hide IsMonthKey, IndexOf, MonthKey, MonthsFrom;
    KeyRoundTrip(IndexOf(start) + k);
    IndexRoundTrip(end);
  }

  // ------------------------------------------------------------------ streaks

  // Net deposits per month; a month without any counts as zero.
  function Net(nets: map<string, real>, month: string): real {
    if month in nets then nets[month] else 0.0
  }

  predicate Satisfied(nets: map<string, real>, month: string) {
    Net(nets, month) > 0.0
  }

  ghost function Met(nets: map<string, real>, months: seq<string>): (met: seq<bool>)
    ensures |met| == |months|
    ensures forall k :: 0 <= k < |met| ==> (met[k] <==> months[k] in nets && nets[months[k]] > 0.0)
  {
    seq(|months|, k requires 0 <= k < |months| => Satisfied(nets, months[k]))
  }

  ghost predicate AllMet(met: seq<bool>, from: int, to: int)
    requires 0 <= from <= to <= |met|
  {
    forall k :: from <= k < to ==> met[k]
  }

  // `run` months are met just before position `to`, and not one more.
  ghost predicate IsRunEndingAt(met: seq<bool>, to: int, run: int)
    requires 0 <= to <= |met|
  {
    && 0 <= run <= to
    && AllMet(met, to - run, to)
    && (run < to ==> !met[to - run - 1])
  }

  // The longest window of met months among the first `upTo`.
  ghost predicate IsLongest(met: seq<bool>, upTo: int, longest: int)
    requires 0 <= upTo <= |met|
  {
    && (exists i, j :: 0 <= i <= j <= upTo && AllMet(met, i, j) && j - i == longest)
    && (forall i, j :: 0 <= i <= j <= upTo && AllMet(met, i, j) ==> j - i <= longest)
  }

  // The run that ends this month, or last month while this one is not met yet.
  ghost predicate IsCurrent(met: seq<bool>, current: int) {
    if met == [] then current == 0
    else IsRunEndingAt(met, if met[|met| - 1] then |met| else |met| - 1, current)
  }

  datatype Counts = Counts(current: nat, longest: nat)

  method ComputeStreaks(nets: map<string, real>, start: string, current: string) returns (counts: Option<Counts>)
    requires IsMonthKey(start) && IsMonthKey(current)
    ensures counts.None? <==> IndexOf(current) == LAST && IndexOf(start) <= IndexOf(current)
    ensures counts.Some? ==>
              var met := if IndexOf(current) < IndexOf(start) then [] else Met(nets, Months(start, current));
              IsCurrent(met, counts.value.current) && IsLongest(met, |met|, counts.value.longest)
  {
    hide IsMonthKey, IndexOf, MonthKey, Satisfied;
    var walk := IterMonths(start, current);
    if walk.None? {
      return None;
    }
    var months := walk.value;
    if months == [] {
      assert AllMet([], 0, 0);
      return Some(Counts(0, 0));
    }
    var streak := CurrentStreak(nets, start, current, months);
    var longest := LongestStreak(nets, months);
    counts := Some(Counts(streak, longest));
  }

  // The walk backwards from this month.
  method CurrentStreak(nets: map<string, real>, start: string, current: string, months: seq<string>)
    returns (streak: nat)
    requires IsMonthKey(start) && IsMonthKey(current) && months == Months(start, current) != []
    ensures IsCurrent(Met(nets, months), streak)
  {
    hide IsMonthKey, IndexOf, MonthKey, Satisfied, Months;
    ghost var met := Met(nets, months);
    ghost var to := if met[|met| - 1] then |met| else |met| - 1;
    streak := 0;
    var i := |months|;
    while i > 0
      invariant 0 <= i <= |months|
      invariant streak == if i <= to then to - i else 0
      invariant forall k :: i <= k < to ==> met[k]
    {
      var month := months[i - 1];
      LastMonthOnly(start, current, i - 1);
      if Satisfied(nets, month) {
        streak := streak + 1;
      } else if month != current {
        break;
      }
      i := i - 1;
    }
  }

  // One pass that remembers the run so far and the best one.
  method LongestStreak(nets: map<string, real>, months: seq<string>) returns (longest: nat)
    ensures IsLongest(Met(nets, months), |months|, longest)
  {
    hide Satisfied, IsLongest;
    ghost var met := Met(nets, months);
    longest := 0;
    var run := 0;
    EmptyIsLongest(met);
    for i := 0 to |months|
      invariant IsRunEndingAt(met, i, run) && IsLongest(met, i, longest)
    {
      LongestStep(met, i, run, longest);
      if Satisfied(nets, months[i]) {
        run := run + 1;
        if run > longest {
          longest := run;
        }
      } else {
        run := 0;
      }
    }
  }

  lemma EmptyIsLongest(met: seq<bool>)
    ensures IsLongest(met, 0, 0)
  {
    assert AllMet(met, 0, 0);
  }

  // A window of met months that ends where a run ends is no longer than the run.
  lemma NotBeyondRun(met: seq<bool>, to: int, run: int, from: int)
    requires 0 <= from <= to <= |met| && IsRunEndingAt(met, to, run)
    requires AllMet(met, from, to)
    ensures to - from <= run
  {
    if from <= to - run - 1 {
      assert false;
    }
  }

  lemma LongestStep(met: seq<bool>, i: int, run: int, longest: int)
    requires 0 <= i < |met| && IsRunEndingAt(met, i, run) && IsLongest(met, i, longest)
    ensures IsRunEndingAt(met, i + 1, if met[i] then run + 1 else 0)
    ensures IsLongest(met, i + 1, if met[i] && run + 1 > longest then run + 1 else longest)
  {
    var better := if met[i] && run + 1 > longest then run + 1 else longest;
    var a, b :| 0 <= a <= b <= i && AllMet(met, a, b) && b - a == longest;
    if met[i] {
      assert AllMet(met, i - run, i + 1);
    }
    forall p, q | 0 <= p <= q <= i + 1 && AllMet(met, p, q) ensures q - p <= better {
      if q == i + 1 && p < q {
        NotBeyondRun(met, i, run, p);
      }
    }
  }

  // The streak that runs now is one of the windows the longest one beats.
  lemma CurrentWithinLongest(met: seq<bool>, current: int, longest: int)
    requires IsCurrent(met, current) && IsLongest(met, |met|, longest)
    ensures 0 <= current <= longest <= |met|
  {
    if met != [] {
      var to := if met[|met| - 1] then |met| else |met| - 1;
      assert AllMet(met, to - current, to);
    }
  }

  lemma RunsGrow(before: seq<bool>, after: seq<bool>, to: int, run: int, longer: int)
    requires |before| == |after| && forall k :: 0 <= k < |before| && before[k] ==> after[k]
    requires 0 <= to <= |before| && IsRunEndingAt(before, to, run) && IsRunEndingAt(after, to, longer)
    ensures run <= longer
  {
    NotBeyondRun(after, to, longer, to - run);
  }

  // More money in any months never shortens either streak.
  lemma RaisingNetsNeverHurts(
    before: map<string, real>, after: map<string, real>, months: seq<string>,
    current: int, longest: int, newCurrent: int, newLongest: int)
    requires forall m :: m in months ==> Net(before, m) <= Net(after, m)
    requires IsCurrent(Met(before, months), current) && IsLongest(Met(before, months), |months|, longest)
    requires IsCurrent(Met(after, months), newCurrent) && IsLongest(Met(after, months), |months|, newLongest)
    ensures current <= newCurrent && longest <= newLongest
  {
    hide Net;
    var met, now := Met(before, months), Met(after, months);
    forall k | 0 <= k < |met| && met[k] ensures now[k] {
      RaisedStaysSatisfied(before, after, months[k]);
    }
    LongestGrows(met, now, longest, newLongest);
    CurrentGrows(met, now, current, newCurrent);
  }

  lemma RaisedStaysSatisfied(before: map<string, real>, after: map<string, real>, month: string)
    requires Net(before, month) <= Net(after, month) && Satisfied(before, month)
    ensures Satisfied(after, month)
  {
  }

  lemma LongestGrows(before: seq<bool>, after: seq<bool>, longest: int, newLongest: int)
    requires |before| == |after| && forall k :: 0 <= k < |before| && before[k] ==> after[k]
    requires IsLongest(before, |before|, longest) && IsLongest(after, |after|, newLongest)
    ensures longest <= newLongest
  {
    var i, j :| 0 <= i <= j <= |before| && AllMet(before, i, j) && j - i == longest;
    assert AllMet(after, i, j);
  }

  lemma CurrentGrows(before: seq<bool>, after: seq<bool>, current: int, newCurrent: int)
    requires |before| == |after| && forall k :: 0 <= k < |before| && before[k] ==> after[k]
    requires IsCurrent(before, current) && IsCurrent(after, newCurrent)
    ensures current <= newCurrent
  {
    var n := |before|;
    if n > 0 {
      if after[n - 1] && !before[n - 1] {
        assert newCurrent > 0;
        RunsGrow(before, after, n - 1, current, newCurrent - 1);
      } else {
        RunsGrow(before, after, if before[n - 1] then n else n - 1, current, newCurrent);
      }
    }
  }

  // When a month ends and the next one begins without a deposit, a met month carries the streak over
  // and an unmet one drops it to zero; the longest streak stays.
  lemma NewMonth(met: seq<bool>, current: int, longest: int, newCurrent: int, newLongest: int)
    requires met != []
    requires IsCurrent(met, current) && IsLongest(met, |met|, longest)
    requires IsCurrent(met + [false], newCurrent) && IsLongest(met + [false], |met| + 1, newLongest)
    ensures newCurrent == if met[|met| - 1] then current else 0
    ensures newLongest == longest
  {
    var n, next := |met|, met + [false];
    assert forall k :: 0 <= k < n ==> next[k] == met[k];
    if met[n - 1] {
      assert IsRunEndingAt(next, n, current);
      RunsGrow(next, next, n, current, newCurrent);
      RunsGrow(next, next, n, newCurrent, current);
    }
    var i, j :| 0 <= i <= j <= n && AllMet(met, i, j) && j - i == longest;
    assert AllMet(next, i, j);
    var p, q :| 0 <= p <= q <= n + 1 && AllMet(next, p, q) && q - p == newLongest;
    if q <= n {
      assert AllMet(met, p, q);
    } else {
      assert p == q;
    }
  }

  // The walk for the next month is this month's walk and one key more.
  lemma NextMonthAppends(start: string, current: string)
    requires IsMonthKey(start) && IsMonthKey(current) && IndexOf(start) <= IndexOf(current) < LAST
    ensures var next := AddMonths(current, 1);
            next.Some? && Months(start, next.value) == Months(start, current) + [next.value]
  {
    hide IsMonthKey, IndexOf, MonthKey, AddMonths, MonthsFrom;
    var next := AddMonths(current, 1).value;
    IndexRoundTrip(next);
    assert Months(start, next) == Months(start, current) + [next];
  }

  // ------------------------------------------------------------------ the months shown to the user

  datatype ChallengeMonth = ChallengeMonth(month: string, net: real, satisfied: bool, targetMet: bool)

  predicate TargetMet(net: real, target: Option<real>) {
    if target.Some? && target.value != 0.0 then net >= target.value else net > 0.0
  }

  method BuildMonths(nets: map<string, real>, start: string, current: string, target: Option<real>)
    returns (rows: Option<seq<ChallengeMonth>>)
    requires IsMonthKey(start) && IsMonthKey(current)
    ensures rows.None? <==> IndexOf(current) == LAST && IndexOf(start) <= IndexOf(current)
    ensures rows.Some? ==>
              var months := if IndexOf(current) < IndexOf(start) then [] else Months(start, current);
              |rows.value| == |months|
              && forall k :: 0 <= k < |months| ==>
                   var row := rows.value[k];
                   && row.month == months[k] && row.net == (if months[k] in nets then nets[months[k]] else 0.0)
                   && (row.satisfied <==> months[k] in nets && nets[months[k]] > 0.0)
                   && (target.None? || target == Some(0.0) ==> row.targetMet == row.satisfied)
                   && (target.Some? && target != Some(0.0) ==> (row.targetMet <==> row.net >= target.value))
  {
    hide IsMonthKey, IndexOf, MonthKey;
    var walk := IterMonths(start, current);
    if walk.None? {
      return None;
    }
    var months := walk.value;
    var out: seq<ChallengeMonth> := [];
    for i := 0 to |months|
      invariant |out| == i
      invariant forall k :: 0 <= k < i ==>
                  out[k] == ChallengeMonth(months[k], Net(nets, months[k]), Met(nets, months)[k],
                                           TargetMet(Net(nets, months[k]), target))
    {
      var net := Net(nets, months[i]);
      var satisfied := net > 0.0;
      var targetMet := if target.Some? && target.value != 0.0 then net >= target.value else satisfied;
      out := out + [ChallengeMonth(months[i], net, satisfied, targetMet)];
    }
    rows := Some(out);
  }

  // Changing a positive target later never changes a streak, and a run of months that reach the target
  // is never longer than the longest streak.
  lemma TargetRunWithinStreak(
    nets: map<string, real>, months: seq<string>, target: Option<real>, i: int, j: int, longest: int)
    requires target.Some? ==> target.value >= 0.0
    requires 0 <= i <= j <= |months| && forall k :: i <= k < j ==> TargetMet(Net(nets, months[k]), target)
    requires IsLongest(Met(nets, months), |months|, longest)
    ensures j - i <= longest
  {
    assert AllMet(Met(nets, months), i, j);
  }
}
