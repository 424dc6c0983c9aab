// The monthly wrap-up job: completion of challenges, one recorded notice per challenge and
// result month, and retries of notices that could not be sent.
module ChallengeWrap {
  import opened Basics

  type Time = int
  type Month = nat // consecutive month numbers

  const DEDUP_TTL: int := 45 * 24 * 3600
  const LONGEST_MONTH: int := 31 * 24 * 3600

  datatype Goal =
    | Deposit(startMonth: Month, targetMonths: nat) // targetMonths 0: no target set
    | Threshold // a return or a portfolio value

  datatype Status = Active | Completed(at: Time)

  // A recorded wrap-up: the result month it reports and whether it announced completion.
  datatype Notice = Notice(month: Month, completion: bool)

  // dedup maps a result month to the expiry of its row in the durable table.
  datatype Challenge = Challenge(goal: Goal, status: Status, dedup: map<Month, Time>, notices: seq<Notice>)

  // One execution of the job on one challenge: when it started and ended, what the progress
  // was, whether any channel delivered the notice, and whether it ended in an exception.
  datatype Attempt = Attempt(month: Month, begin: Time, end: Time, streak: nat, pct: Option<real>, sent: bool, raises: bool)

  // ------------------------------------------------------------------ one execution

  // The challenge after one execution for result month a.month - 1.
  function Wrapped(c: Challenge, a: Attempt, monthStart: Time): Challenge
    requires a.month >= 1
  {
    var result := a.month - 1;
    if (c.status.Completed? && c.status.at < monthStart) || a.raises then c // not chosen, or rolled back
    else if result in c.dedup && a.begin < c.dedup[result] then c
    else if c.goal.Deposit? && c.goal.startMonth > result then c
    else
      var reached := match c.goal
                     case Deposit(_, target) => target > 0 && a.streak >= target
                     case Threshold => a.pct.Some? && a.pct.value >= 100.0;
      var completed := c.status.Completed? || reached;
      var row := c.dedup[result := a.end + DEDUP_TTL];
      if c.goal.Threshold? && !completed then c.(dedup := row)
      else
        var told := if a.sent then c.(notices := c.notices + [Notice(result, completed)], dedup := row) else c;
        if completed && c.status.Active? then told.(status := Completed(a.end)) else told
  }

  // The stored challenge, updated in place by the job.
  class ChallengeRecord {
    const goal: Goal
    var status: Status
    var dedup: map<Month, Time>
    var notices: seq<Notice>

    ghost function Value(): Challenge
      reads this
    {
      Challenge(goal, status, dedup, notices)
    }

    constructor (goal: Goal)
      ensures Value() == Challenge(goal, Active, map[], [])
    {
      this.goal := goal;
      status, dedup, notices := Active, map[], [];
    }

    // The body of one savepoint; a raising execution leaves the record as it was.
    method WrapOne(a: Attempt, monthStart: Time)
      requires a.month >= 1 && !a.raises && (status.Active? || status.at >= monthStart)
      modifies this
      ensures Value() == Wrapped(old(Value()), a, monthStart)
    {
      var result := a.month - 1;
      if result in dedup && a.begin < dedup[result] {
        return;
      }
      var completed := status.Completed?;
      match goal {
        case Deposit(startMonth, targetMonths) =>
          if startMonth > result {
            return;
          }
          completed := completed || (targetMonths > 0 && a.streak >= targetMonths);
        case Threshold =>
          completed := completed || (a.pct.Some? && a.pct.value >= 100.0);
          if !completed {
            dedup := dedup[result := a.end + DEDUP_TTL];
            return;
          }
      }
      if a.sent {
        notices := notices + [Notice(result, completed)];
        dedup := dedup[result := a.end + DEDUP_TTL];
      }
      if completed && !status.Completed? {
        status := Completed(a.end);
      }
    }
  }

  // The loop over one user's challenges: each ends as if it had been alone, whatever the others do.
  method WrapUser(challenges: seq<ChallengeRecord>, attempts: seq<Attempt>, monthStart: Time)
    requires Distinct(challenges) && |attempts| == |challenges|
    requires forall a :: a in attempts ==> a.month >= 1
    modifies challenges
    ensures forall i :: 0 <= i < |challenges| ==>
      challenges[i].Value() == Wrapped(old(challenges[i].Value()), attempts[i], monthStart)
  {
    for i := 0 to |challenges|
      invariant forall j :: 0 <= j < i ==>
        challenges[j].Value() == Wrapped(old(challenges[j].Value()), attempts[j], monthStart)
      invariant forall j :: i <= j < |challenges| ==> challenges[j].Value() == old(challenges[j].Value())
    {
      var c := challenges[i];
      if (c.status.Active? || c.status.at >= monthStart) && !attempts[i].raises {
        c.WrapOne(attempts[i], monthStart);
      }
    }
  }

  // ------------------------------------------------------------------ in the terms of the design

  // Open, or completed no earlier than in the month of the execution.
  predicate Selected(s: Status, monthStart: Time) {
    s.Active? || s.at >= monthStart
  }

  predicate Deduped(c: Challenge, month: Month, now: Time) {
    month in c.dedup && now < c.dedup[month]
  }

  predicate Reached(c: Challenge, a: Attempt) {
    match c.goal
    case Deposit(_, target) => target > 0 && a.streak >= target
    case Threshold => a.pct.Some? && a.pct.value >= 100.0
  }

  predicate NotStarted(c: Challenge, result: Month) {
    c.goal.Deposit? && c.goal.startMonth > result
  }

  // What is not chosen, rolled back, recorded already or not yet started stays as it is; everything
  // else leaves a trace, unless the goal is not reached and nothing could be sent.
  lemma LeftAloneIff(c: Challenge, a: Attempt, monthStart: Time)
    requires a.month >= 1 && a.begin <= a.end
    ensures Wrapped(c, a, monthStart) == c <==>
      || !Selected(c.status, monthStart) || a.raises || Deduped(c, a.month - 1, a.begin) || NotStarted(c, a.month - 1)
      || (!a.sent && (c.status.Completed? || (c.goal.Deposit? && !Reached(c, a))))
  {
    if a.month - 1 in Wrapped(c, a, monthStart).dedup && Wrapped(c, a, monthStart) == c {
      assert c.dedup[a.month - 1] == Wrapped(c, a, monthStart).dedup[a.month - 1];
    }
  }

  // ------------------------------------------------------------------ runs of the job

  // The starts of the months; no month is longer than 31 days.
  predicate MonthOk(cal: Month -> Time, m: Month) {
    cal(m) < cal(m + 1) <= cal(m) + LONGEST_MONTH
  }

  ghost predicate Calendar(cal: Month -> Time) {
    forall m: Month :: MonthOk(cal, m)
  }

  predicate Timed(a: Attempt, cal: Month -> Time) {
    a.month >= 1 && cal(a.month) <= a.begin < cal(a.month + 1) && a.begin <= a.end
  }

  // Serial executions, each begun in the month it reports from.
  ghost predicate Serial(runs: seq<Attempt>, cal: Month -> Time) {
    && (forall a :: a in runs ==> Timed(a, cal))
    && (forall i, j :: 0 <= i < j < |runs| ==> runs[i].end <= runs[j].begin)
  }

  function Run(c: Challenge, runs: seq<Attempt>, cal: Month -> Time): Challenge
    requires forall a :: a in runs ==> a.month >= 1
    decreases runs
  {
    if runs == [] then c else Run(Wrapped(c, runs[0], cal(runs[0].month)), runs[1..], cal)
  }

  function CountFor(notices: seq<Notice>, month: Month): nat {
    if notices == [] then 0
    else CountFor(notices[..|notices| - 1], month) + if notices[|notices| - 1].month == month then 1 else 0
  }

  // A recorded month keeps its dedup row past the end of the month in which it could be retried.
  ghost predicate Recorded(c: Challenge, month: Month, cal: Month -> Time) {
    && CountFor(c.notices, month) <= 1
    && (CountFor(c.notices, month) == 1 ==> month in c.dedup && c.dedup[month] >= cal(month + 1) + DEDUP_TTL)
  }

  lemma CountAppend(notices: seq<Notice>, note: Notice, month: Month)
    ensures CountFor(notices + [note], month) == CountFor(notices, month) + if note.month == month then 1 else 0
  {
    assert (notices + [note])[..|notices|] == notices;
  }

  // A wrap-up that was recorded is not recorded again while its month can still be reported.
  lemma RecordedIsDeduped(c: Challenge, a: Attempt, cal: Month -> Time)
    requires Calendar(cal) && Timed(a, cal)
    requires Recorded(c, a.month - 1, cal) && CountFor(c.notices, a.month - 1) == 1
    ensures Deduped(c, a.month - 1, a.begin)
  {
    assert MonthOk(cal, a.month);
  }

  // What one execution does to the records: nothing, a dedup row alone, or a notice with its row.
  lemma WrapRecords(c: Challenge, a: Attempt, monthStart: Time)
    requires a.month >= 1
    ensures var d := Wrapped(c, a, monthStart); var result := a.month - 1;
      || (d.notices == c.notices && (d.dedup == c.dedup || d.dedup == c.dedup[result := a.end + DEDUP_TTL]))
      || (!Deduped(c, result, a.begin) && d.dedup == c.dedup[result := a.end + DEDUP_TTL]
          && exists b :: d.notices == c.notices + [Notice(result, b)])
  {
    var d, result := Wrapped(c, a, monthStart), a.month - 1;
    if d.notices != c.notices {
      assert d.notices == c.notices + [Notice(result, c.status.Completed? || Reached(c, a))];
    }
  }

  lemma WrapKeepsRecorded(c: Challenge, a: Attempt, month: Month, cal: Month -> Time)
    requires Calendar(cal) && Recorded(c, month, cal)
    requires Timed(a, cal)
    ensures Recorded(Wrapped(c, a, cal(a.month)), month, cal)
  {
    hide CountFor, Wrapped, Deduped, Calendar;
    WrapRecords(c, a, cal(a.month));
    var d, result := Wrapped(c, a, cal(a.month)), a.month - 1;
    if result == month && CountFor(c.notices, month) == 1 {
      RecordedIsDeduped(c, a, cal);
    }
    if d.notices != c.notices {
      var b :| d.notices == c.notices + [Notice(result, b)];
      CountAppend(c.notices, Notice(result, b), month);
    }
  }

  // Over any sequence of serial executions, whatever the progress, the send outcomes and the
  // exceptions: at most one wrap-up is recorded per result month.
  lemma {:induction false} AtMostOneNoticePerMonth(c: Challenge, runs: seq<Attempt>, month: Month, cal: Month -> Time)
    requires Calendar(cal) && Serial(runs, cal) && Recorded(c, month, cal)
    ensures CountFor(Run(c, runs, cal).notices, month) <= 1
    ensures Recorded(Run(c, runs, cal), month, cal)
    decreases runs
  {
    if runs == [] {
    } else {
      assert runs[0] in runs;
      WrapKeepsRecorded(c, runs[0], month, cal);
      AtMostOneNoticePerMonth(Wrapped(c, runs[0], cal(runs[0].month)), runs[1..], month, cal);
    }
  }

  // A completion is never undone or moved, and recorded notices are never taken back.
  lemma {:induction false} CompletionIsFinal(c: Challenge, runs: seq<Attempt>, cal: Month -> Time)
    requires Serial(runs, cal)
    ensures var d := Run(c, runs, cal);
      && (c.status.Completed? ==> d.status == c.status)
      && c.notices <= d.notices
    decreases runs
  {
    if runs == [] {
    } else {
      assert runs[0] in runs;
      CompletionIsFinal(Wrapped(c, runs[0], cal(runs[0].month)), runs[1..], cal);
    }
  }

  // A challenge completed before the month of every execution is left completely alone.
  lemma {:induction false} EarlierCompletionsStayClosed(c: Challenge, runs: seq<Attempt>, cal: Month -> Time)
    requires Serial(runs, cal) && c.status.Completed?
    requires forall a :: a in runs ==> c.status.at < cal(a.month)
    ensures Run(c, runs, cal) == c
    decreases runs
  {
    if runs == [] {
    } else {
      assert runs[0] in runs;
      EarlierCompletionsStayClosed(c, runs[1..], cal);
    }
  }

  // The execution gets past the month's row and the start of the challenge, and finds the goal reached.
  predicate Completes(c: Challenge, a: Attempt)
    requires a.month >= 1
  {
    !a.raises && !Deduped(c, a.month - 1, a.begin) && !NotStarted(c, a.month - 1) && Reached(c, a)
  }

  predicate CompletesAt(c: Challenge, runs: seq<Attempt>, i: nat, cal: Month -> Time)
    requires i < |runs| && forall a :: a in runs ==> a.month >= 1
  {
    Completes(Run(c, runs[..i], cal), runs[i])
  }

  lemma {:induction false} RunLast(c: Challenge, runs: seq<Attempt>, cal: Month -> Time)
    requires runs != [] && forall a :: a in runs ==> a.month >= 1
    ensures var n := |runs| - 1;
      Run(c, runs, cal) == Wrapped(Run(c, runs[..n], cal), runs[n], cal(runs[n].month))
    decreases runs
  {
    hide Wrapped;
    if |runs| == 1 {
      assert Run(c, runs, cal) == Run(Wrapped(c, runs[0], cal(runs[0].month)), runs[1..], cal);
    } else {
      var rest := runs[1..];
      assert runs[0] in runs && forall a :: a in rest ==> a in runs;
      assert runs[..|runs| - 1][1..] == rest[..|rest| - 1];
      RunLast(Wrapped(c, runs[0], cal(runs[0].month)), rest, cal);
    }
  }

  // Over whole runs: an active challenge ends up completed exactly when some execution got as far as
  // its goal and found it reached, and it was completed at the end of the first such execution.
  lemma {:induction false} CompletedIffReached(c: Challenge, runs: seq<Attempt>, cal: Month -> Time)
    requires c.status.Active? && forall a :: a in runs ==> a.month >= 1
    ensures Run(c, runs, cal).status.Completed? <==> exists i :: 0 <= i < |runs| && CompletesAt(c, runs, i, cal)
    ensures Run(c, runs, cal).status.Completed? ==>
      exists i :: 0 <= i < |runs| && CompletesAt(c, runs, i, cal) && Run(c, runs, cal).status == Completed(runs[i].end)
                  && forall j :: 0 <= j < i ==> !CompletesAt(c, runs, j, cal)
    decreases |runs|
  {
    if runs == [] {
    } else {
      var n := |runs| - 1;
      var init, last := runs[..n], runs[n];
      assert last in runs && forall a :: a in init ==> a in runs;
      CompletedIffReached(c, init, cal);
      RunLast(c, runs, cal);
      WrapStatus(Run(c, init, cal), last, cal(last.month));
      forall i | 0 <= i < n ensures CompletesAt(c, runs, i, cal) <==> CompletesAt(c, init, i, cal) {
        assert runs[..i] == init[..i];
      }
      assert CompletesAt(c, runs, n, cal) <==> Completes(Run(c, init, cal), last);
    }
  }

  lemma WrapStatus(c: Challenge, a: Attempt, monthStart: Time)
    requires a.month >= 1
    ensures var d := Wrapped(c, a, monthStart);
      d.goal == c.goal && d.status == if c.status.Active? && Completes(c, a) then Completed(a.end) else c.status
  {
  }

  // A completion notice is still owed for the month's result.
  ghost predicate Owed(c: Challenge, month: Month, now: Time, cal: Month -> Time)
    requires month >= 1
  {
    && c.status.Completed? && c.status.at >= cal(month)
    && !Deduped(c, month - 1, now) && !NotStarted(c, month - 1)
  }

  ghost predicate Delivers(runs: seq<Attempt>) {
    exists a :: a in runs && a.sent && !a.raises
  }

  lemma SerialTail(runs: seq<Attempt>, cal: Month -> Time)
    requires runs != [] && Serial(runs, cal)
    ensures Serial(runs[1..], cal)
    ensures forall a :: a in runs[1..] ==> a in runs && a.begin >= runs[0].end
  {
    forall a | a in runs[1..] ensures a.begin >= runs[0].end {
      var i :| 0 <= i < |runs[1..]| && runs[1..][i] == a;
      assert runs[i + 1] == a;
    }
  }

  // While a notice is owed, every later execution of the same month tries again: the notice is
  // recorded if and only if one of them gets it out, and then exactly once, as a completion.
  lemma {:induction false} OwedUntilDelivered(c: Challenge, runs: seq<Attempt>, month: Month, now: Time, cal: Month -> Time)
    requires Calendar(cal) && Serial(runs, cal)
    requires month >= 1 && Owed(c, month, now, cal)
    requires forall a :: a in runs ==> a.month == month && a.begin >= now
    ensures var d := Run(c, runs, cal);
      d.notices == if Delivers(runs) then c.notices + [Notice(month - 1, true)] else c.notices
    decreases runs
  {
    if runs == [] {
    } else {
      var a := runs[0];
      assert a in runs;
      assert runs == [a] + runs[1..];
      var d := Wrapped(c, a, cal(month));
      assert Timed(a, cal);
      OwedStep(c, a, cal);
      hide Wrapped;
      if a.sent && !a.raises {
        assert Delivers(runs);
        DedupedForTheMonth(d, runs[1..], month, cal);
      } else {
        assert Delivers(runs) <==> Delivers(runs[1..]);
        OwedUntilDelivered(c, runs[1..], month, a.end, cal);
      }
    }
  }

  lemma OwedStep(c: Challenge, a: Attempt, cal: Month -> Time)
    requires a.month >= 1 && Owed(c, a.month, a.begin, cal)
    ensures Wrapped(c, a, cal(a.month)) ==
      if a.sent && !a.raises
      then c.(notices := c.notices + [Notice(a.month - 1, true)], dedup := c.dedup[a.month - 1 := a.end + DEDUP_TTL])
      else c
  {
  }

  lemma {:induction false} DedupedForTheMonth(c: Challenge, runs: seq<Attempt>, month: Month, cal: Month -> Time)
    requires Calendar(cal) && Serial(runs, cal) && month >= 1
    requires forall a :: a in runs ==> a.month == month
    requires month - 1 in c.dedup && c.dedup[month - 1] >= cal(month) + DEDUP_TTL
    ensures Run(c, runs, cal) == c
    decreases runs
  {
    if runs == [] {
    } else {
      assert runs[0] in runs;
      assert MonthOk(cal, month) && Timed(runs[0], cal);
      assert Wrapped(c, runs[0], cal(month)) == c;
      hide Wrapped;
      DedupedForTheMonth(c, runs[1..], month, cal);
    }
  }

  // The first execution that does not raise and, if asked for, delivers; the number of executions if none.
  function First(runs: seq<Attempt>, delivers: bool): (i: nat)
    ensures i <= |runs|
    ensures i < |runs| ==> !runs[i].raises && (delivers ==> runs[i].sent)
    ensures forall j :: 0 <= j < i ==> runs[j].raises || (delivers && !runs[j].sent)
  {
    if runs == [] then 0
    else if !runs[0].raises && (delivers ==> runs[0].sent) then 0
    else First(runs[1..], delivers) + 1
  }

  // The goal is known to be reached: before, or found so by one of the executions.
  ghost predicate ReachedBy(c: Challenge, runs: seq<Attempt>) {
    c.status.Completed? || exists j :: 0 <= j < |runs| && !runs[j].raises && Reached(c, runs[j])
  }

  // A challenge that the executions of the month have still to report on.
  ghost predicate Due(c: Challenge, month: Month, now: Time, cal: Month -> Time)
    requires month >= 1
  {
    Selected(c.status, cal(month)) && !Deduped(c, month - 1, now) && !NotStarted(c, month - 1)
  }

  lemma UnsentStep(c: Challenge, a: Attempt, cal: Month -> Time)
    requires Timed(a, cal) && Due(c, a.month, a.begin, cal) && c.goal.Deposit? && (a.raises || !a.sent)
    ensures var d := Wrapped(c, a, cal(a.month));
      && d.goal == c.goal && d.notices == c.notices && d.dedup == c.dedup
      && (d.status.Completed? <==> c.status.Completed? || (!a.raises && Reached(c, a)))
      && (forall now :: now >= a.end ==> Due(d, a.month, now, cal))
  {
  }

  lemma SentStep(c: Challenge, a: Attempt, cal: Month -> Time)
    requires Timed(a, cal) && Due(c, a.month, a.begin, cal) && c.goal.Deposit? && !a.raises && a.sent
    ensures var d := Wrapped(c, a, cal(a.month));
      && d.notices == c.notices + [Notice(a.month - 1, c.status.Completed? || Reached(c, a))]
      && d.dedup == c.dedup[a.month - 1 := a.end + DEDUP_TTL]
  {
  }

  lemma ReachedByOne(c: Challenge, a: Attempt)
    requires !a.raises
    ensures ReachedBy(c, [a]) <==> c.status.Completed? || Reached(c, a)
  {
    assert [a][0] == a;
  }

  lemma ReachedByFirst(c: Challenge, d: Challenge, a: Attempt, rest: seq<Attempt>)
    requires d.goal == c.goal && (d.status.Completed? <==> c.status.Completed? || (!a.raises && Reached(c, a)))
    ensures ReachedBy(c, [a] + rest) <==> ReachedBy(d, rest)
  {
    var all := [a] + rest;
    if ReachedBy(d, rest) && !c.status.Completed? {
      if d.status.Completed? {
        assert all[0] == a && Reached(c, all[0]);
      } else {
        var j :| 0 <= j < |rest| && !rest[j].raises && Reached(d, rest[j]);
        assert all[j + 1] == rest[j] && Reached(c, all[j + 1]);
      }
    }
    if ReachedBy(c, all) && !d.status.Completed? {
      var j :| 0 <= j < |all| && !all[j].raises && Reached(c, all[j]);
      assert all[j] == rest[j - 1] && Reached(d, rest[j - 1]);
    }
  }

  // Executions of one month that each find the challenge's report still due.
  ghost predicate AllDue(c: Challenge, runs: seq<Attempt>, month: Month, cal: Month -> Time) {
    && Serial(runs, cal) && month >= 1 && c.goal.Deposit?
    && forall a :: a in runs ==> a.month == month && Due(c, month, a.begin, cal)
  }

  // The first execution that gets the report out recorded it, and nothing else was recorded.
  ghost predicate ReportedBy(c: Challenge, d: Challenge, runs: seq<Attempt>, i: nat, month: Month)
    requires month >= 1 && i <= |runs|
  {
    if i == |runs| then d.notices == c.notices && d.dedup == c.dedup
    else
      && d.dedup == c.dedup[month - 1 := runs[i].end + DEDUP_TTL]
      && d.notices == c.notices + [Notice(month - 1, ReachedBy(c, runs[..i + 1]))]
  }

  // What the executions have recorded in the end.
  ghost predicate Reported(c: Challenge, runs: seq<Attempt>, month: Month, cal: Month -> Time)
    requires month >= 1 && forall a :: a in runs ==> a.month >= 1
  {
    ReportedBy(c, Run(c, runs, cal), runs, First(runs, true), month)
  }

  lemma ReportedNow(c: Challenge, runs: seq<Attempt>, month: Month, cal: Month -> Time)
    requires Calendar(cal) && AllDue(c, runs, month, cal)
    requires runs != [] && !runs[0].raises && runs[0].sent
    ensures Reported(c, runs, month, cal)
  {
    var a, rest := runs[0], runs[1..];
    assert a in runs && Timed(a, cal);
    SerialTail(runs, cal);
    SentStep(c, a, cal);
    hide Wrapped, ReachedBy, Reached, Due, Deduped;
    DedupedForTheMonth(Wrapped(c, a, cal(month)), rest, month, cal);
    assert runs[..1] == [a];
    ReachedByOne(c, a);
  }

  lemma StillDue(c: Challenge, runs: seq<Attempt>, month: Month, cal: Month -> Time)
    requires AllDue(c, runs, month, cal) && runs != [] && (runs[0].raises || !runs[0].sent)
    ensures AllDue(Wrapped(c, runs[0], cal(month)), runs[1..], month, cal)
  {
    var a := runs[0];
    assert a in runs && Timed(a, cal);
    SerialTail(runs, cal);
    UnsentStep(c, a, cal);
    hide Wrapped, Due, Serial;
  }

  lemma UnsentKeeps(c: Challenge, runs: seq<Attempt>, month: Month, cal: Month -> Time)
    requires AllDue(c, runs, month, cal) && runs != [] && (runs[0].raises || !runs[0].sent)
    ensures var a := runs[0]; var d := Wrapped(c, a, cal(month));
      && a.month == month && (forall x :: x in runs ==> x.month >= 1)
      && d.goal == c.goal && d.notices == c.notices && d.dedup == c.dedup
      && (d.status.Completed? <==> c.status.Completed? || (!a.raises && Reached(c, a)))
      && First(runs, true) == First(runs[1..], true) + 1
  {
    var a := runs[0];
    assert a in runs && Timed(a, cal);
    UnsentStep(c, a, cal);
  }

  lemma ReportedByLater(c: Challenge, v: Challenge, d: Challenge, a: Attempt, rest: seq<Attempt>, i: nat, month: Month)
    requires month >= 1 && i <= |rest| && ReportedBy(v, d, rest, i, month)
    requires v.goal == c.goal && v.notices == c.notices && v.dedup == c.dedup
    requires v.status.Completed? <==> c.status.Completed? || (!a.raises && Reached(c, a))
    ensures ReportedBy(c, d, [a] + rest, i + 1, month)
  {
    hide ReachedBy, Reached;
    if i < |rest| {
      assert ([a] + rest)[..i + 2] == [a] + rest[..i + 1];
      ReachedByFirst(c, v, a, rest[..i + 1]);
    }
  }

  lemma ReportedLater(c: Challenge, runs: seq<Attempt>, month: Month, cal: Month -> Time)
    requires AllDue(c, runs, month, cal) && runs != [] && (runs[0].raises || !runs[0].sent)
    requires AllDue(Wrapped(c, runs[0], cal(month)), runs[1..], month, cal)
    requires Reported(Wrapped(c, runs[0], cal(month)), runs[1..], month, cal)
    ensures Reported(c, runs, month, cal)
  {
    UnsentKeeps(c, runs, month, cal);
    hide Wrapped, Reached, AllDue, First, ReportedBy;
    var a, rest := runs[0], runs[1..];
    var v := Wrapped(c, a, cal(month));
    assert runs == [a] + rest;
    assert Run(c, runs, cal) == Run(v, rest, cal);
    ReportedByLater(c, v, Run(v, rest, cal), a, rest, First(rest, true), month);
  }

  // The monthly report of a savings challenge, finished or not: over all executions of a month it is
  // recorded if and only if one of them gets it out, then exactly once and with its row, and it
  // announces completion if and only if the goal was reached by then.
  lemma {:induction false} MonthlyReport(c: Challenge, runs: seq<Attempt>, month: Month, cal: Month -> Time)
    requires Calendar(cal) && AllDue(c, runs, month, cal)
    ensures Reported(c, runs, month, cal)
    decreases runs
  {
    if runs == [] {
    } else if !runs[0].raises && runs[0].sent {
      ReportedNow(c, runs, month, cal);
    } else {
      StillDue(c, runs, month, cal);
      hide Reported, Wrapped;
      MonthlyReport(Wrapped(c, runs[0], cal(month)), runs[1..], month, cal);
      ReportedLater(c, runs, month, cal);
    }
  }

  lemma ThresholdStep(c: Challenge, a: Attempt, cal: Month -> Time)
    requires Timed(a, cal) && c.goal.Threshold? && c.status.Active? && !Deduped(c, a.month - 1, a.begin)
    ensures var d := Wrapped(c, a, cal(a.month)); var row := c.(dedup := c.dedup[a.month - 1 := a.end + DEDUP_TTL]);
      && (a.raises ==> d == c)
      && (!a.raises && !Reached(c, a) ==> d == row)
      && (!a.raises && Reached(c, a) && a.sent ==>
            d == row.(status := Completed(a.end), notices := c.notices + [Notice(a.month - 1, true)]))
  {
  }

  ghost predicate AllOpen(c: Challenge, runs: seq<Attempt>, month: Month, cal: Month -> Time) {
    && Serial(runs, cal) && month >= 1 && c.goal.Threshold? && c.status.Active?
    && forall a :: a in runs ==> a.month == month && !Deduped(c, month - 1, a.begin)
  }

  // What the executions have left of a challenge with a threshold in the end.
  ghost predicate Settled(c: Challenge, runs: seq<Attempt>, month: Month, cal: Month -> Time)
    requires month >= 1 && forall a :: a in runs ==> a.month >= 1
  {
    var d := Run(c, runs, cal);
    var i := First(runs, false);
    if i == |runs| then d == c
    else
      var row := c.(dedup := c.dedup[month - 1 := runs[i].end + DEDUP_TTL]);
      && (!Reached(c, runs[i]) ==> d == row)
      && (Reached(c, runs[i]) && runs[i].sent ==>
            d == row.(status := Completed(runs[i].end), notices := c.notices + [Notice(month - 1, true)]))
  }

  lemma SettledNow(c: Challenge, runs: seq<Attempt>, month: Month, cal: Month -> Time)
    requires Calendar(cal) && AllOpen(c, runs, month, cal) && runs != [] && !runs[0].raises
    ensures Settled(c, runs, month, cal)
  {
    var a, rest := runs[0], runs[1..];
    assert a in runs && Timed(a, cal);
    SerialTail(runs, cal);
    ThresholdStep(c, a, cal);
    hide Wrapped, Reached, Deduped;
    if !Reached(c, a) || a.sent {
      DedupedForTheMonth(Wrapped(c, a, cal(month)), rest, month, cal);
    }
  }

  lemma StillOpen(c: Challenge, runs: seq<Attempt>, month: Month, cal: Month -> Time)
    requires AllOpen(c, runs, month, cal) && runs != [] && runs[0].raises
    ensures AllOpen(c, runs[1..], month, cal) && Run(c, runs, cal) == Run(c, runs[1..], cal)
  {
    assert runs[0] in runs;
    SerialTail(runs, cal);
    hide Serial, Deduped;
  }

  // A challenge with a threshold is settled by the first execution of the month that does not raise:
  // not reached, the month is closed without a notice; reached and sent, the completion is recorded.
  lemma {:induction false} ThresholdMonth(c: Challenge, runs: seq<Attempt>, month: Month, cal: Month -> Time)
    requires Calendar(cal) && AllOpen(c, runs, month, cal)
    ensures Settled(c, runs, month, cal)
    decreases runs
  {
    hide Wrapped, Reached, Deduped, Serial, Calendar;
    if runs == [] {
    } else if runs[0].raises {
      StillOpen(c, runs, month, cal);
      ThresholdMonth(c, runs[1..], month, cal);
    } else {
      SettledNow(c, runs, month, cal);
    }
  }

  lemma CompletesUnsent(c: Challenge, a: Attempt, cal: Month -> Time)
    requires Timed(a, cal) && c.status.Active? && Reached(c, a) && !a.sent && !a.raises
    requires !Deduped(c, a.month - 1, a.begin) && !NotStarted(c, a.month - 1)
    ensures var d := Wrapped(c, a, cal(a.month));
      d == c.(status := Completed(a.end)) && Owed(d, a.month, a.end, cal)
  {
  }

  // Put together: the execution that completes a challenge but cannot send leaves the
  // completion in place and the notice owed to the rest of the month.
  lemma FailedNoticeIsRetried(c: Challenge, first: Attempt, rest: seq<Attempt>, cal: Month -> Time)
    requires Calendar(cal) && Serial([first] + rest, cal)
    requires forall a :: a in rest ==> a.month == first.month
    requires c.status.Active? && Reached(c, first) && !first.sent && !first.raises
    requires first.month >= 1 && !Deduped(c, first.month - 1, first.begin) && !NotStarted(c, first.month - 1)
    ensures var d := Run(c, [first] + rest, cal);
      && d.status == Completed(first.end)
      && d.notices == if Delivers(rest) then c.notices + [Notice(first.month - 1, true)] else c.notices
  {
    hide Wrapped, Owed, Deduped, Reached, Delivers, NotStarted;
    var all := [first] + rest;
    var d := Wrapped(c, first, cal(first.month));
    assert all[0] == first && all[0] in all && all[1..] == rest;
    assert Timed(first, cal);
    SerialTail(all, cal);
    CompletesUnsent(c, first, cal);
    hide Serial, Calendar;
    assert Run(c, all, cal) == Run(d, rest, cal);
    OwedUntilDelivered(d, rest, first.month, first.end, cal);
    CompletionIsFinal(d, rest, cal);
  }
}
