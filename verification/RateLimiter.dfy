// The outgoing-call rate limiter: one clock value, one lock, and the spacing it guarantees.
module RateLimiters {
  import opened Basics

  // A caller that holds the lock at `now` sleeps until `nextAllowed`, or not at all.
  function WakeAt(nextAllowed: real, now: real): (wake: real)
    ensures wake >= now && wake >= nextAllowed
    ensures wake == now || wake == nextAllowed
  {
    var wait := nextAllowed - now;
    if wait > 0.0 then now + wait else now
  }

  class AsyncRateLimiter {
    const interval: real
    var nextAllowed: real

    constructor (rate: real)
      requires rate != 0.0
      ensures interval * rate == 1.0 && nextAllowed == 0.0
    {
      interval := 1.0 / rate;
      nextAllowed := 0.0;
    }

    // The section run under the lock. `started` and `resumed` are the two clock readings; the
    // precondition is that a sleep never ends early.
    method Acquire(started: real, resumed: real) returns (slept: real)
      requires started <= resumed && WakeAt(nextAllowed, started) <= resumed
      modifies this`nextAllowed
      ensures old(nextAllowed) <= resumed
      ensures nextAllowed == resumed + interval
      ensures slept >= 0.0 && started + slept == WakeAt(old(nextAllowed), started)
    {
      slept := 0.0;
      var wait := nextAllowed - started;
      if wait > 0.0 {
        slept := wait;
      }
      nextAllowed := resumed + interval;
    }
  }

  // ------------------------------------------------------------------ whole traces of concurrent callers

  datatype Sleeper = Sleeper(caller: nat, wake: real)

  datatype Grant = Grant(caller: nat, at: real)

  // Callers are numbered in the order they called; `queue` is the lock's waiting line.
  datatype Limiter = Limiter(
    interval: real, clock: real, nextAllowed: real,
    calls: nat, queue: seq<nat>, holder: Option<Sleeper>, grants: seq<Grant>)

  datatype Event =
    | Tick(elapsed: real)
    | Call
    | Lock
    | Resume
    | Cancel(caller: nat)

  function Start(interval: real, clock: real): Limiter {
    Limiter(interval, clock, 0.0, 0, [], None, [])
  }

  function Drop(queue: seq<nat>, caller: nat): (rest: seq<nat>)
    ensures forall c :: c in rest <==> c in queue && c != caller
  {
    if queue == [] then []
    else
      var rest := Drop(queue[1..], caller);
      assert forall c :: c in queue <==> c == queue[0] || c in queue[1..];
      if queue[0] == caller then rest else [queue[0]] + rest
  }

  // Any event may be tried at any time; one that cannot happen changes nothing.
  function Step(s: Limiter, e: Event): Limiter {
    match e
    case Tick(elapsed) =>
      if elapsed > 0.0 then s.(clock := s.clock + elapsed) else s
    case Call =>
      s.(calls := s.calls + 1, queue := s.queue + [s.calls])
    case Lock =>
      if s.holder.None? && s.queue != [] then
        s.(queue := s.queue[1..], holder := Some(Sleeper(s.queue[0], WakeAt(s.nextAllowed, s.clock))))
      else s
    case Resume =>
      if s.holder.Some? && s.holder.value.wake <= s.clock then
        s.(holder := None,
           nextAllowed := s.clock + s.interval,
           grants := s.grants + [Grant(s.holder.value.caller, s.clock)])
      else s
    case Cancel(caller) =>
      if s.holder.Some? && s.holder.value.caller == caller then s.(holder := None)
      else s.(queue := Drop(s.queue, caller))
  }

  function Run(s: Limiter, events: seq<Event>): Limiter
    decreases |events|
  {
    if events == [] then s else Run(Step(s, events[0]), events[1..])
  }

  ghost predicate Increasing(s: seq<nat>) {
    forall i, j :: 0 <= i < j < |s| ==> s[i] < s[j]
  }

  ghost predicate Spaced(grants: seq<Grant>, interval: real) {
    forall i :: 0 < i < |grants| ==> grants[i].at - grants[i - 1].at >= interval
  }

  function Holding(s: Limiter): seq<nat> {
    if s.holder.Some? then [s.holder.value.caller] else []
  }

  function Served(grants: seq<Grant>): seq<nat> {
    seq(|grants|, i requires 0 <= i < |grants| => grants[i].caller)
  }

  // Grants are spaced, the next one is due an interval after the last, and nobody wakes before that.
  ghost predicate OnTime(s: Limiter) {
    && Spaced(s.grants, s.interval)
    && (s.grants != [] ==>
          s.grants[|s.grants| - 1].at <= s.clock
          && s.nextAllowed == s.grants[|s.grants| - 1].at + s.interval)
    && (s.holder.Some? ==> s.holder.value.wake >= s.nextAllowed)
  }

  ghost predicate Inv(s: Limiter) {
    && OnTime(s)
    && Increasing(Served(s.grants) + Holding(s) + s.queue)
    && (forall c :: c in Served(s.grants) + Holding(s) + s.queue ==> c < s.calls)
  }

  lemma ConcatIncreasing(a: seq<nat>, b: seq<nat>)
    ensures Increasing(a + b) <==>
            Increasing(a) && Increasing(b) && forall x, y :: x in a && y in b ==> x < y
  {
    var c := a + b;
    if Increasing(c) {
      assert forall i :: 0 <= i < |a| ==> a[i] == c[i];
      assert forall j :: 0 <= j < |b| ==> b[j] == c[|a| + j];
      forall x, y | x in a && y in b ensures x < y {
        var i :| 0 <= i < |a| && a[i] == x;
        var j :| 0 <= j < |b| && b[j] == y;
        assert c[i] < c[|a| + j];
      }
    }
    if Increasing(a) && Increasing(b) && forall x, y :: x in a && y in b ==> x < y {
      forall i, j | 0 <= i < j < |c| ensures c[i] < c[j] {
        if i < |a| <= j {
          assert a[i] in a && b[j - |a|] in b;
        }
      }
    }
  }

  lemma {:induction false} DropIncreasing(queue: seq<nat>, caller: nat)
    requires Increasing(queue)
    ensures Increasing(Drop(queue, caller))
  {
    if queue == [] {
    } else {
      DropIncreasing(queue[1..], caller);
      ConcatIncreasing([queue[0]], queue[1..]);
      assert [queue[0]] + queue[1..] == queue;
      ConcatIncreasing([queue[0]], Drop(queue[1..], caller));
    }
  }

  lemma CancelKeepsOrder(s: Limiter, caller: nat)
    requires Inv(s)
    ensures var t := Step(s, Cancel(caller));
            Increasing(Served(t.grants) + Holding(t) + t.queue)
            && forall c :: c in Served(t.grants) + Holding(t) + t.queue ==> c < t.calls
  {
    var t := Step(s, Cancel(caller));
    var served, held := Served(s.grants), Holding(s);
    assert Served(t.grants) == served;
    forall c | c in served + Holding(t) + t.queue ensures c < t.calls {
      assert c in served + held + s.queue;
    }
    ConcatIncreasing(served + held, s.queue);
    ConcatIncreasing(served, held);
    if t.queue == s.queue {
      assert served + Holding(t) == served || served + Holding(t) == served + held;
      assert forall c :: c in served ==> c in served + held;
      ConcatIncreasing(served + Holding(t), t.queue);
    } else {
      DropIncreasing(s.queue, caller);
      assert Holding(t) == held;
      ConcatIncreasing(served + held, t.queue);
    }
  }

  lemma OneIncreasing(n: nat)
    ensures Increasing([n])
  {
  }

  lemma StepKeepsOrder(s: Limiter, e: Event)
    requires Inv(s)
    ensures var t := Step(s, e);
            Increasing(Served(t.grants) + Holding(t) + t.queue)
            && forall c :: c in Served(t.grants) + Holding(t) + t.queue ==> c < t.calls
  {
    if e.Cancel? {
      CancelKeepsOrder(s, e.caller);
    } else {
      hide Increasing, WakeAt, Drop, Spaced;
      var t := Step(s, e);
      var before := Served(s.grants) + Holding(s) + s.queue;
      var after := Served(t.grants) + Holding(t) + t.queue;
      if e.Call? {
        assert after == before + [s.calls];
        OneIncreasing(s.calls);
        ConcatIncreasing(before, [s.calls]);
      } else {
        SameOrder(s, e);
      }
    }
  }

  // Taking the lock and resuming only move a caller from one place to the next.
  lemma SameOrder(s: Limiter, e: Event)
    requires !e.Cancel? && !e.Call?
    ensures var t := Step(s, e);
            Served(t.grants) + Holding(t) + t.queue == Served(s.grants) + Holding(s) + s.queue && t.calls == s.calls
  {
    hide WakeAt;
    var t := Step(s, e);
    if e.Resume? && t != s {
      assert Served(t.grants) == Served(s.grants) + Holding(s);
    }
  }

  lemma StepKeepsTime(s: Limiter, e: Event)
    requires OnTime(s)
    ensures OnTime(Step(s, e)) && Step(s, e).interval == s.interval
  {
    hide WakeAt, Drop;
  }

  lemma StepKeepsInv(s: Limiter, e: Event)
    requires Inv(s)
    ensures Inv(Step(s, e)) && Step(s, e).interval == s.interval
  {
    hide Step, Increasing, Spaced;
    StepKeepsTime(s, e);
    StepKeepsOrder(s, e);
  }

  lemma {:induction false} RunKeepsInv(s: Limiter, events: seq<Event>)
    requires Inv(s)
    ensures Inv(Run(s, events)) && Run(s, events).interval == s.interval
    decreases |events|
  {
    if events == [] {
    } else {
      StepKeepsInv(s, events[0]);
      RunKeepsInv(Step(s, events[0]), events[1..]);
    }
  }

  function Interval(rate: real): (interval: real)
    requires rate != 0.0
    ensures interval * rate == 1.0
    ensures rate > 0.0 ==> interval > 0.0
  {
    1.0 / rate
  }

  // How many intervals fit into a length of time.
  function Intervals(length: real, rate: real): real {
    length * rate
  }

  lemma IntervalsAdd(a: real, b: real, rate: real)
    ensures Intervals(a + b, rate) == Intervals(a, rate) + Intervals(b, rate)
  {
  }

  lemma IntervalsGrow(a: real, b: real, rate: real)
    requires rate > 0.0 && a <= b
    ensures Intervals(a, rate) <= Intervals(b, rate)
  {
    IntervalsAdd(a, b - a, rate);
    assert Intervals(b - a, rate) >= 0.0;
    hide Intervals;
  }

  // The length of k intervals laid end to end.
  ghost function Spell(k: nat, interval: real): real {
    if k == 0 then 0.0 else Spell(k - 1, interval) + interval
  }

  lemma {:induction false} SpellAdds(k: nat, m: nat, interval: real)
    ensures Spell(k + m, interval) == Spell(k, interval) + Spell(m, interval)
  {
    if m == 0 {
    } else {
      SpellAdds(k, m - 1, interval);
    }
  }

  lemma {:induction false} SpellAtRate(k: nat, rate: real)
    requires rate > 0.0
    ensures Intervals(Spell(k, Interval(rate)), rate) == k as real
  {
    if k == 0 {
    } else {
      SpellAtRate(k - 1, rate);
      IntervalsAdd(Spell(k - 1, Interval(rate)), Interval(rate), rate);
      assert Intervals(Interval(rate), rate) == 1.0;
      hide Intervals, Interval;
    }
  }

  lemma Stretch(k: nat, length: real, rate: real)
    requires rate > 0.0 && length >= Spell(k, Interval(rate))
    ensures Intervals(length, rate) >= k as real
    ensures Intervals(length, rate).Floor >= k
  {
    hide Intervals, Interval, Spell;
    SpellAtRate(k, rate);
    IntervalsGrow(Spell(k, Interval(rate)), length, rate);
  }

  lemma {:induction false} SpacedApart(grants: seq<Grant>, interval: real, i: nat, j: nat)
    requires Spaced(grants, interval) && i <= j < |grants|
    ensures grants[j].at - grants[i].at >= Spell(j - i, interval)
    decreases j
  {
    if i == j {
    } else {
      SpacedApart(grants, interval, i, j - 1);
    }
  }

  // In every trace, whatever waits, sleeps and cancellations happen, two grants that are k places
  // apart are at least k intervals apart in time.
  lemma GrantsAreSpaced(rate: real, clock: real, events: seq<Event>, i: nat, j: nat)
    requires rate > 0.0
    requires i <= j < |Run(Start(Interval(rate), clock), events).grants|
    ensures var g := Run(Start(Interval(rate), clock), events).grants;
            Intervals(g[j].at - g[i].at, rate) >= (j - i) as real
  {
    hide Intervals, Interval, Step, Spell;
    RunKeepsInv(Start(Interval(rate), clock), events);
    var g := Run(Start(Interval(rate), clock), events).grants;
    SpacedApart(g, Interval(rate), i, j);
    Stretch(j - i, g[j].at - g[i].at, rate);
  }

  // Grants inside the closed window from `from` to `until`.
  function GrantsWithin(grants: seq<Grant>, from: real, until: real): nat {
    if grants == [] then 0
    else
      var last := grants[|grants| - 1];
      GrantsWithin(grants[..|grants| - 1], from, until) + (if from <= last.at <= until then 1 else 0)
  }

  lemma {:induction false} LatestInWindow(grants: seq<Grant>, interval: real, from: real, until: real)
    returns (latest: nat)
    requires interval >= 0.0 && Spaced(grants, interval)
    requires GrantsWithin(grants, from, until) > 0
    ensures latest < |grants| && from <= grants[latest].at <= until
    ensures grants[latest].at - from >= Spell(GrantsWithin(grants, from, until) - 1, interval)
  {
    var n := |grants|;
    var before := grants[..n - 1];
    var count := GrantsWithin(before, from, until);
    if count == 0 {
      latest := n - 1;
    } else {
      latest := LatestInWindow(before, interval, from, until);
      if from <= grants[n - 1].at <= until {
        SpacedApart(grants, interval, latest, n - 1);
        SpellAdds(n - 2 - latest, 1, interval);
        SpellNonNegative(n - 2 - latest, interval);
        latest := n - 1;
      }
    }
  }

  lemma {:induction false} SpellNonNegative(k: nat, interval: real)
    requires interval >= 0.0
    ensures Spell(k, interval) >= 0.0
  {
    if k == 0 {
    } else {
      SpellNonNegative(k - 1, interval);
    }
  }

  lemma WindowOfSpaced(grants: seq<Grant>, rate: real, from: real, until: real)
    requires rate > 0.0 && from <= until && Spaced(grants, Interval(rate))
    ensures GrantsWithin(grants, from, until) <= Intervals(until - from, rate).Floor + 1
  {
    hide Intervals, Interval, GrantsWithin, Spaced;
    var count := GrantsWithin(grants, from, until);
    Stretch(0, until - from, rate);
    if count > 0 {
      var latest := LatestInWindow(grants, Interval(rate), from, until);
      Stretch(count - 1, until - from, rate);
    }
  }

  // Any closed window of length T holds at most floor(T * rate) + 1 grants.
  lemma WindowBound(rate: real, clock: real, events: seq<Event>, from: real, until: real)
    requires rate > 0.0 && from <= until
    ensures GrantsWithin(Run(Start(Interval(rate), clock), events).grants, from, until)
            <= Intervals(until - from, rate).Floor + 1
  {
    hide Intervals, Interval, Step;
    RunKeepsInv(Start(Interval(rate), clock), events);
    WindowOfSpaced(Run(Start(Interval(rate), clock), events).grants, rate, from, until);
  }

  // Callers get through in the order they called, each at most once, cancelled ones never.
  lemma FirstComeFirstServed(interval: real, clock: real, events: seq<Event>, i: nat, j: nat)
    requires i < j < |Run(Start(interval, clock), events).grants|
    ensures var g := Run(Start(interval, clock), events).grants;
            g[i].caller < g[j].caller
  {
    RunKeepsInv(Start(interval, clock), events);
    var s := Run(Start(interval, clock), events);
    var order := Served(s.grants) + Holding(s) + s.queue;
    assert order[i] == s.grants[i].caller && order[j] == s.grants[j].caller;
  }

  // Everybody who called is served, asleep under the lock, or in its waiting line.
  predicate Present(s: Limiter, c: nat) {
    c in Served(s.grants) || c in Holding(s) || c in s.queue
  }

  // The caller is cancelled while it still waits.
  predicate GivesUp(s: Limiter, e: Event, c: nat) {
    e == Cancel(c) && (c in Holding(s) || c in s.queue)
  }

  lemma InOrder(s: Limiter, c: nat)
    requires Inv(s)
    ensures c in Served(s.grants) ==> c !in Holding(s) && c !in s.queue
    ensures c in Holding(s) ==> c !in s.queue
    ensures Present(s, c) ==> c < s.calls
  {
    ConcatIncreasing(Served(s.grants) + Holding(s), s.queue);
    ConcatIncreasing(Served(s.grants), Holding(s));
    assert Present(s, c) ==> c in Served(s.grants) + Holding(s) + s.queue;
    hide Increasing, Served, Holding;
    assert c in Served(s.grants) ==> c in Served(s.grants) + Holding(s);
    assert c in Holding(s) ==> c in Served(s.grants) + Holding(s);
  }

  // Giving up takes the caller out of the line and out of the lock and changes nothing else: no grant
  // is taken, no interval lost.
  lemma CancelStep(s: Limiter, caller: nat, c: nat)
    requires Inv(s)
    ensures var t := Step(s, Cancel(caller));
      && t.grants == s.grants && t.nextAllowed == s.nextAllowed && t.clock == s.clock && t.calls == s.calls
      && (Present(t, c) <==> Present(s, c) && !GivesUp(s, Cancel(caller), c))
  {
    InOrder(s, caller);
    hide Inv;
  }

  lemma StepAccounts(s: Limiter, e: Event, c: nat)
    requires Inv(s)
    ensures Present(Step(s, e), c) <==> (Present(s, c) && !GivesUp(s, e, c)) || (e.Call? && c == s.calls)
    ensures Step(s, e).calls == s.calls + if e.Call? then 1 else 0
  {
    if e.Cancel? {
      CancelStep(s, e.caller, c);
    } else if e.Call? {
    } else {
      SameOrder(s, e);
      var t := Step(s, e);
      assert Present(s, c) <==> c in Served(s.grants) + Holding(s) + s.queue;
      assert Present(t, c) <==> c in Served(t.grants) + Holding(t) + t.queue;
    }
  }

  lemma {:induction false} RunLast(s: Limiter, events: seq<Event>)
    requires events != []
    ensures Run(s, events) == Step(Run(s, events[..|events| - 1]), events[|events| - 1])
    decreases |events|
  {
    hide Step;
    if |events| == 1 {
      assert Run(s, events) == Run(Step(s, events[0]), []);
    } else {
      assert events[..|events| - 1][1..] == events[1..][..|events| - 2];
      RunLast(Step(s, events[0]), events[1..]);
    }
  }

  predicate GivesUpAt(s: Limiter, events: seq<Event>, i: nat, c: nat)
    requires i < |events|
  {
    GivesUp(Run(s, events[..i]), events[i], c)
  }

  ghost predicate GaveUp(s: Limiter, events: seq<Event>, c: nat) {
    exists i :: 0 <= i < |events| && GivesUpAt(s, events, i, c)
  }

  lemma GaveUpLast(s: Limiter, events: seq<Event>, c: nat)
    requires events != []
    ensures var n := |events| - 1; var init := events[..n];
      GaveUp(s, events, c) <==> GaveUp(s, init, c) || GivesUp(Run(s, init), events[n], c)
  {
    hide GivesUp, Run;
    var n := |events| - 1;
    var init := events[..n];
    forall i | 0 <= i < n ensures GivesUpAt(s, events, i, c) <==> GivesUpAt(s, init, i, c) {
      assert events[..i] == init[..i];
    }
    assert GivesUpAt(s, events, n, c) <==> GivesUp(Run(s, init), events[n], c);
  }

  lemma GivesUpPresent(s: Limiter, e: Event, c: nat)
    requires GivesUp(s, e, c)
    ensures Present(s, c) && !e.Call?
  {
  }

  lemma StartKeepsInv(interval: real, clock: real, events: seq<Event>)
    ensures Inv(Run(Start(interval, clock), events))
  {
    RunKeepsInv(Start(interval, clock), events);
  }

  // Nobody is forgotten: after any run everybody who called is served or still waiting, but for those
  // who gave up while they waited, and these are neither.
  lemma {:induction false} NobodyForgotten(interval: real, clock: real, events: seq<Event>, c: nat)
    ensures var s := Run(Start(interval, clock), events); var gaveUp := GaveUp(Start(interval, clock), events, c);
      (Present(s, c) <==> c < s.calls && !gaveUp) && (gaveUp ==> c < s.calls)
    decreases |events|
  {
    var start := Start(interval, clock);
    if events == [] {
    } else {
      hide Step, Inv, Present, Start, GivesUp, GaveUp;
      var n := |events| - 1;
      var init := events[..n];
      NobodyForgotten(interval, clock, init, c);
      RunLast(start, events);
      StartKeepsInv(interval, clock, init);
      var s := Run(start, init);
      StepAccounts(s, events[n], c);
      InOrder(s, c);
      GaveUpLast(start, events, c);
      if GivesUp(s, events[n], c) {
        GivesUpPresent(s, events[n], c);
      }
    }
  }

  // One undisturbed pass through the lock does what `Acquire` does with the same two readings, and
  // serves the head of the line. With `slept == 0.0` it covers the caller who need not wait at all:
  // that is possible exactly when the last grant is an interval old.
  lemma LockedSection(s: Limiter, slept: real)
    requires s.holder.None? && s.queue != [] && slept >= 0.0
    ensures var t := Run(s, [Lock, Tick(slept), Resume]);
            var resumed := s.clock + slept;
            if WakeAt(s.nextAllowed, s.clock) <= resumed then
              && t.nextAllowed == resumed + s.interval && t.holder.None?
              && t.grants == s.grants + [Grant(s.queue[0], resumed)]
              && t.queue == s.queue[1..]
            else
              t.grants == s.grants && t.nextAllowed == s.nextAllowed && t.holder.Some?
    ensures WakeAt(s.nextAllowed, s.clock) <= s.clock <==> s.nextAllowed <= s.clock
  {
    var locked := Step(s, Lock);
    var awake := Step(locked, Tick(slept));
    assert Run(s, [Lock, Tick(slept), Resume]) == Run(locked, [Tick(slept), Resume]);
    assert Run(locked, [Tick(slept), Resume]) == Run(awake, [Resume]);
    assert Run(awake, [Resume]) == Run(Step(awake, Resume), []);
  }
}
