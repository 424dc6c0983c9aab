// Automatic plan generation: overlapping server instances claim one durable row per alert and
// day, build a plan, and then keep or release the claim; the outer loop isolates failures.
module AutoPlans {
  import opened Basics

  type Id = nat
  type Alert = nat

  const DAY: nat := 86400
  const CLAIM_TTL: nat := 2 * 86400

  // The claim row's key: the alert and the day on which it was due.
  datatype Key = Key(alert: Alert, day: nat)

  // The stored value is the same for everyone; owner is history, not something code reads.
  datatype Row = Row(owner: Id, expires: nat)

  // What building a plan can come to. A retriable block is another generation in progress, a
  // missing exchange rate, or a required synchronisation.
  datatype Outcome = Committed | Blocked(retriable: bool) | Raised

  datatype Phase =
    | Idle
    | Evaluating(key: Key, oncePerDay: bool, since: nat) // key computed, not yet claimed
    | Building(key: Key, oncePerDay: bool) // claim held, plan being built
    | Releasing(key: Key) // claim about to be deleted

  datatype World = World(now: nat, rows: map<Key, Row>, phases: map<Id, Phase>, plans: map<Key, nat>)

  datatype Event =
    | Wait(d: nat)
    | Start(id: Id, alert: Alert, oncePerDay: bool)
    | Skip(id: Id) // off schedule, or a plan already pending
    | Crash(id: Id) // the instance dies; what it claimed stays claimed
    | GateBlock(id: Id) // the market signal blocks the evaluation
    | Claim(id: Id)
    | Finish(id: Id, outcome: Outcome)
    | Release(id: Id)
    | Purge

  function At(w: World, id: Id): Phase {
    if id in w.phases then w.phases[id] else Idle
  }

  function Plans(w: World, key: Key): nat {
    if key in w.plans then w.plans[key] else 0
  }

  predicate Taken(w: World, key: Key) {
    key in w.rows && w.now < w.rows[key].expires
  }

  function Claimed(w: World, key: Key, id: Id): World {
    if Taken(w, key) then w else w.(rows := w.rows[key := Row(id, w.now + CLAIM_TTL)])
  }

  function Move(w: World, id: Id, p: Phase): World {
    w.(phases := w.phases[id := p])
  }

  function Next(w: World, e: Event): World {
    match e
    case Wait(d) => w.(now := w.now + d)
    case Start(id, alert, oncePerDay) =>
      var key := Key(alert, w.now / DAY);
      if !At(w, id).Idle? || (oncePerDay && Taken(w, key)) then w
      else Move(w, id, Evaluating(key, oncePerDay, w.now))
    case Skip(id) => if At(w, id).Evaluating? then Move(w, id, Idle) else w
    case Crash(id) => Move(w, id, Idle)
    case GateBlock(id) =>
      var p := At(w, id);
      if !p.Evaluating? then w
      else Move(if p.oncePerDay then Claimed(w, p.key, id) else w, id, Idle)
    case Claim(id) =>
      var p := At(w, id);
      if !p.Evaluating? then w
      else if Taken(w, p.key) then Move(w, id, Idle)
      else Move(Claimed(w, p.key, id), id, Building(p.key, p.oncePerDay))
    case Finish(id, outcome) =>
      var p := At(w, id);
      if !p.Building? then w
      else (
        match outcome
        case Committed => Move(w.(plans := w.plans[p.key := Plans(w, p.key) + 1]), id, Idle)
        case Blocked(retriable) =>
          if !p.oncePerDay || retriable then Move(w, id, Releasing(p.key)) else Move(w, id, Idle)
        case Raised => Move(w, id, Releasing(p.key)))
    case Release(id) =>
      var p := At(w, id);
      if !p.Releasing? then w else Move(w.(rows := w.rows - {p.key}), id, Idle)
    case Purge => w.(rows := map key | key in w.rows && w.now < w.rows[key].expires :: w.rows[key])
  }

  function Run(w: World, events: seq<Event>): World
    decreases events
  {
    if events == [] then w else Run(Next(w, events[0]), events[1..])
  }

  const START := World(0, map[], map[], map[])

  // The alert's evaluation has been under way for at most stall seconds; builds may take any time.
  predicate EvaluatesWithin(p: Phase, now: nat, stall: nat) {
    p.Evaluating? ==> now <= p.since + stall
  }

  ghost predicate Prompt(w: World, stall: nat) {
    forall id :: EvaluatesWithin(At(w, id), w.now, stall)
  }

  // At no moment of the run is an evaluation older than stall.
  ghost predicate PromptRun(w: World, events: seq<Event>, stall: nat)
    decreases events
  {
    Prompt(w, stall) && (events != [] ==> PromptRun(Next(w, events[0]), events[1..], stall))
  }

  // ------------------------------------------------------------------ invariant

  predicate Owning(p: Phase) {
    p.Building? || p.Releasing?
  }

  // Nobody can still claim the key: its day and the following one are over.
  predicate Closed(w: World, key: Key) {
    w.now >= (key.day + 2) * DAY
  }

  // A claim made for a day outlives the whole following day.
  predicate RowOk(w: World, key: Key) {
    key in w.rows ==> w.rows[key].expires >= (key.day + 2) * DAY
  }

  // Whoever builds or releases has the row, or the row has run out and the key is closed.
  predicate PhaseOk(w: World, id: Id) {
    var p := At(w, id);
    && (p.Evaluating? ==> p.since / DAY == p.key.day && p.since <= w.now)
    && (Owning(p) ==>
          && (if p.key in w.rows then w.rows[p.key].owner == id else Closed(w, p.key))
          && Plans(w, p.key) == 0)
  }

  predicate Apart(w: World, a: Id, b: Id) {
    a != b && Owning(At(w, a)) && Owning(At(w, b)) ==> At(w, a).key != At(w, b).key
  }

  // A committed plan's claim stays in place for as long as anyone could still try the key.
  predicate PlanOk(w: World, key: Key) {
    && Plans(w, key) <= 1
    && (Plans(w, key) == 1 ==> key in w.rows || Closed(w, key))
  }

  ghost predicate Inv(w: World) {
    && (forall key :: RowOk(w, key))
    && (forall key :: PlanOk(w, key))
    && (forall id :: PhaseOk(w, id))
    && (forall a, b :: Apart(w, a, b))
  }

  // An attempt claims only while the key is open, so it finds any earlier claim in place.
  lemma ClaimsInTime(w: World, id: Id)
    requires PhaseOk(w, id) && At(w, id).Evaluating? && EvaluatesWithin(At(w, id), w.now, DAY)
    ensures !Closed(w, At(w, id).key)
    ensures w.now + CLAIM_TTL >= (At(w, id).key.day + 2) * DAY
    ensures RowOk(w, At(w, id).key) && At(w, id).key in w.rows ==> Taken(w, At(w, id).key)
  {
    var p := At(w, id);
    assert p.since < (p.key.day + 1) * DAY && p.key.day * DAY <= p.since;
  }

  lemma StepKeepsRow(w: World, e: Event, key: Key)
    requires Inv(w) && Prompt(w, DAY)
    ensures RowOk(Next(w, e), key)
  {
    assert RowOk(w, key);
    if (e.GateBlock? || e.Claim?) && At(w, e.id).Evaluating? {
      assert PhaseOk(w, e.id) && EvaluatesWithin(At(w, e.id), w.now, DAY);
      ClaimsInTime(w, e.id);
    }
  }

  lemma StepKeepsOwnPhase(w: World, e: Event)
    requires Inv(w) && Prompt(w, DAY) && !e.Wait? && !e.Purge?
    ensures PhaseOk(Next(w, e), e.id)
  {
    assert PhaseOk(w, e.id) && EvaluatesWithin(At(w, e.id), w.now, DAY);
    if At(w, e.id).Evaluating? {
      assert PlanOk(w, At(w, e.id).key) && RowOk(w, At(w, e.id).key);
      ClaimsInTime(w, e.id);
    }
  }

  // Another caller's step can claim or delete the row under a key only if this one does not own it.
  lemma OthersRow(w: World, e: Event, id: Id)
    requires Inv(w) && Prompt(w, DAY) && Owning(At(w, id)) && !e.Wait? && !e.Purge? && e.id != id
    ensures var key := At(w, id).key; var v := Next(w, e);
      && (key in v.rows <==> key in w.rows) && (key in w.rows ==> v.rows[key] == w.rows[key])
      && Plans(v, key) == Plans(w, key) && At(v, id) == At(w, id)
  {
    assert PhaseOk(w, id) && PhaseOk(w, e.id) && Apart(w, id, e.id);
    if At(w, e.id).Evaluating? {
      assert EvaluatesWithin(At(w, e.id), w.now, DAY) && RowOk(w, At(w, e.id).key);
      ClaimsInTime(w, e.id);
    }
  }

  lemma StepKeepsOtherPhase(w: World, e: Event, id: Id)
    requires Inv(w) && Prompt(w, DAY)
    requires e.Wait? || e.Purge? || e.id != id
    ensures PhaseOk(Next(w, e), id)
  {
    assert PhaseOk(w, id) && At(Next(w, e), id) == At(w, id);
    if Owning(At(w, id)) {
      assert RowOk(w, At(w, id).key);
      if !e.Wait? && !e.Purge? {
        OthersRow(w, e, id);
      }
    }
  }

  // A claim that starts a build finds nobody else at work on the key.
  lemma WorkedOnIsTaken(w: World, id: Id, other: Id)
    requires Inv(w) && Prompt(w, DAY)
    requires At(w, id).Evaluating? && Owning(At(w, other)) && At(w, other).key == At(w, id).key
    ensures Taken(w, At(w, id).key)
  {
    assert EvaluatesWithin(At(w, id), w.now, DAY) && PhaseOk(w, id) && PhaseOk(w, other) && RowOk(w, At(w, id).key);
    ClaimsInTime(w, id);
  }

  lemma StepKeepsApart(w: World, e: Event, a: Id, b: Id)
    requires Inv(w) && Prompt(w, DAY)
    ensures Apart(Next(w, e), a, b)
  {
    assert Apart(w, a, b);
    if e == Claim(a) && At(w, a).Evaluating? && Owning(At(w, b)) && At(w, b).key == At(w, a).key {
      WorkedOnIsTaken(w, a, b);
    }
    if e == Claim(b) && At(w, b).Evaluating? && Owning(At(w, a)) && At(w, a).key == At(w, b).key {
      WorkedOnIsTaken(w, b, a);
    }
  }

  lemma StepKeepsPlan(w: World, e: Event, key: Key)
    requires Inv(w) && Prompt(w, DAY)
    ensures PlanOk(Next(w, e), key)
  {
    assert PlanOk(w, key) && RowOk(w, key);
    if e.Finish? || e.Release? {
      assert PhaseOk(w, e.id);
    }
  }

  lemma StepKeepsInv(w: World, e: Event)
    requires Inv(w) && Prompt(w, DAY)
    ensures Inv(Next(w, e))
  {
    var v := Next(w, e);
    forall key ensures RowOk(v, key) && PlanOk(v, key) {
      StepKeepsRow(w, e, key);
      StepKeepsPlan(w, e, key);
    }
    forall id ensures PhaseOk(v, id) {
      if !e.Wait? && !e.Purge? && e.id == id {
        StepKeepsOwnPhase(w, e);
      } else {
        StepKeepsOtherPhase(w, e, id);
      }
    }
    forall a, b ensures Apart(v, a, b) {
      StepKeepsApart(w, e, a, b);
    }
  }

  lemma {:induction false} RunKeepsInv(w: World, events: seq<Event>, stall: nat)
    requires stall <= DAY
    requires Inv(w) && PromptRun(w, events, stall)
    ensures Inv(Run(w, events)) && Prompt(Run(w, events), stall)
    decreases events
  {
    if events == [] {
    } else {
      assert Prompt(w, DAY) by {
        assert forall id :: EvaluatesWithin(At(w, id), w.now, stall) ==> EvaluatesWithin(At(w, id), w.now, DAY);
      }
      StepKeepsInv(w, events[0]);
      hide Next, Inv, Prompt;
      RunKeepsInv(Next(w, events[0]), events[1..], stall);
    }
  }

  // ------------------------------------------------------------------ runs, piece by piece

  lemma RunFour(w: World, a: Event, b: Event, c: Event, d: Event)
    ensures Run(w, [a, b, c, d]) == Next(Next(Next(Next(w, a), b), c), d)
  {
    hide Next;
    var u := Next(w, a);
    assert [a, b, c, d][1..] == [b, c, d] && [b, c, d][1..] == [c, d] && [c, d][1..] == [d] && [d][1..] == [];
    assert Run(w, [a, b, c, d]) == Run(u, [b, c, d]);
    assert Run(u, [b, c, d]) == Run(Next(u, b), [c, d]);
    assert Run(Next(u, b), [c, d]) == Run(Next(Next(u, b), c), [d]);
    assert Run(Next(Next(u, b), c), [d]) == Run(Next(Next(Next(u, b), c), d), []);
  }

  lemma PromptFour(w: World, a: Event, b: Event, c: Event, d: Event, stall: nat)
    requires Prompt(w, stall) && Prompt(Next(w, a), stall) && Prompt(Next(Next(w, a), b), stall)
    requires Prompt(Next(Next(Next(w, a), b), c), stall) && Prompt(Next(Next(Next(Next(w, a), b), c), d), stall)
    ensures PromptRun(w, [a, b, c, d], stall)
  {
    hide Next, Prompt;
    var u := Next(w, a);
    var v := Next(u, b);
    var x := Next(v, c);
    assert [a, b, c, d][1..] == [b, c, d] && [b, c, d][1..] == [c, d] && [c, d][1..] == [d] && [d][1..] == [];
    assert PromptRun(Next(x, d), [], stall);
    assert PromptRun(x, [d], stall);
    assert PromptRun(v, [c, d], stall);
    assert PromptRun(u, [b, c, d], stall);
  }

  lemma {:induction false} RunSplits(w: World, a: seq<Event>, b: seq<Event>)
    ensures Run(w, a + b) == Run(Run(w, a), b)
    decreases a
  {
    if a == [] {
      assert a + b == b;
    } else {
      assert (a + b)[1..] == a[1..] + b;
      RunSplits(Next(w, a[0]), a[1..], b);
    }
  }

  lemma {:induction false} PromptSplits(w: World, a: seq<Event>, b: seq<Event>, stall: nat)
    requires PromptRun(w, a, stall) && PromptRun(Run(w, a), b, stall)
    ensures PromptRun(w, a + b, stall)
    decreases a
  {
    hide Next, Prompt;
    if a == [] {
      assert a + b == b;
    } else {
      assert (a + b)[1..] == a[1..] + b;
      PromptSplits(Next(w, a[0]), a[1..], b, stall);
    }
  }

  lemma {:induction false} PromptGrows(w: World, events: seq<Event>, stall: nat, longer: nat)
    requires stall <= longer && PromptRun(w, events, stall)
    ensures PromptRun(w, events, longer)
    decreases events
  {
    assert forall id :: EvaluatesWithin(At(w, id), w.now, stall) ==> EvaluatesWithin(At(w, id), w.now, longer);
    if events == [] {
    } else {
      hide Next;
      PromptGrows(Next(w, events[0]), events[1..], stall, longer);
    }
  }

  // ------------------------------------------------------------------ what each event changes

  // An attempt moves on only by its own events, each in its own phase.
  lemma PhaseChanges(w: World, e: Event, id: Id)
    ensures var p, q := At(w, id), At(Next(w, e), id);
      q == p ||
      match e
      case Start(x, alert, oncePerDay) =>
        var key := Key(alert, w.now / DAY);
        x == id && p.Idle? && q == Evaluating(key, oncePerDay, w.now) && (oncePerDay ==> !Taken(w, key))
      case Skip(x) => x == id && p.Evaluating? && q.Idle?
      case GateBlock(x) => x == id && p.Evaluating? && q.Idle?
      case Crash(x) => x == id && q.Idle?
      case Claim(x) =>
        x == id && p.Evaluating? && if Taken(w, p.key) then q.Idle? else q == Building(p.key, p.oncePerDay)
      case Finish(x, outcome) => x == id && p.Building? && (q.Idle? || (outcome != Committed && q == Releasing(p.key)))
      case Release(x) => x == id && p.Releasing? && q.Idle?
      case _ => false
  {
  }

  // The event claims the key for its caller, or for nobody in particular at a gate.
  predicate ClaimsKey(w: World, e: Event, key: Key) {
    (e.Claim? || e.GateBlock?) && At(w, e.id).Evaluating? && At(w, e.id).key == key
    && (e.GateBlock? ==> At(w, e.id).oncePerDay)
  }

  // A key is taken by a claim alone and freed, before it runs out, by a release alone; a plan comes
  // from a committed build alone.
  lemma KeyChanges(w: World, e: Event, key: Key)
    requires !e.Wait?
    ensures Taken(Next(w, e), key) <==> ClaimsKey(w, e, key) || (Taken(w, key) && !(e.Release? && At(w, e.id) == Releasing(key)))
    ensures Plans(Next(w, e), key) == Plans(w, key)
      + if e.Finish? && e.outcome.Committed? && At(w, e.id).Building? && At(w, e.id).key == key then 1 else 0
  {
  }

  // The same world to all who cannot tell a row that has run out from none.
  ghost predicate SameSeen(v: World, w: World) {
    && v.now == w.now && v.phases == w.phases && v.plans == w.plans
    && forall key :: SameRow(v, w, key)
  }

  predicate SameRow(v: World, w: World, key: Key) {
    (Taken(v, key) <==> Taken(w, key)) && (Taken(v, key) ==> v.rows[key] == w.rows[key])
  }

  lemma StepKeepsSameRow(v: World, w: World, e: Event, key: Key)
    requires SameSeen(v, w)
    ensures SameRow(Next(v, e), Next(w, e), key)
  {
    assert SameRow(v, w, key);
    if (e.Claim? || e.GateBlock?) && At(w, e.id).Evaluating? {
      assert SameRow(v, w, At(w, e.id).key);
    }
  }

  lemma StepKeepsSamePhases(v: World, w: World, e: Event)
    requires SameSeen(v, w)
    ensures var a, b := Next(v, e), Next(w, e); a.now == b.now && a.phases == b.phases && a.plans == b.plans
  {
    if e.Start? {
      assert SameRow(v, w, Key(e.alert, w.now / DAY));
    }
    if e.Claim? && At(w, e.id).Evaluating? {
      assert SameRow(v, w, At(w, e.id).key);
    }
  }

  lemma StepKeepsSameSeen(v: World, w: World, e: Event)
    requires SameSeen(v, w)
    ensures SameSeen(Next(v, e), Next(w, e))
  {
    StepKeepsSamePhases(v, w, e);
    forall key ensures SameRow(Next(v, e), Next(w, e), key) {
      StepKeepsSameRow(v, w, e, key);
    }
  }

  lemma {:induction false} RunKeepsSameSeen(v: World, w: World, events: seq<Event>)
    requires SameSeen(v, w)
    ensures SameSeen(Run(v, events), Run(w, events))
    decreases events
  {
    if events == [] {
    } else {
      StepKeepsSameSeen(v, w, events[0]);
      hide Next, SameSeen;
      RunKeepsSameSeen(Next(v, events[0]), Next(w, events[0]), events[1..]);
    }
  }

  // Purging leaves exactly the rows that have not run out, and no run can tell that it happened.
  lemma PurgeGoesUnnoticed(w: World, events: seq<Event>)
    ensures forall key :: key in Next(w, Purge).rows <==> Taken(w, key)
    ensures SameSeen(Run(Next(w, Purge), events), Run(w, events))
  {
    assert SameSeen(Next(w, Purge), w);
    RunKeepsSameSeen(Next(w, Purge), w, events);
  }

  // ------------------------------------------------------------------ main results

  // Any number of instances, ticks, gate blocks, crashes and failed builds, in any interleaving and
  // with builds of any length: if every attempt claims within a day of computing its key, at most
  // one plan is ever committed for an alert and claim day.
  lemma AtMostOnePlan(events: seq<Event>, key: Key, stall: nat)
    requires stall <= DAY && PromptRun(START, events, stall)
    ensures Plans(Run(START, events), key) <= 1
  {
    RunKeepsInv(START, events, stall);
    assert PlanOk(Run(START, events), key);
  }

  // An attempt that stalls one second longer gets a second plan committed: it computes its key in
  // the last second of the day and claims just when the first claim has run out.
  function StalledRun(alert: Alert): seq<Event> {
    [Start(0, alert, false), Claim(0), Finish(0, Committed), Wait(DAY - 1)]
    + [Start(1, alert, false), Wait(DAY + 1), Claim(1), Finish(1, Committed)]
  }

  lemma StalledAttemptCommitsTwice(alert: Alert)
    ensures PromptRun(START, StalledRun(alert), DAY + 1)
    ensures Plans(Run(START, StalledRun(alert)), Key(alert, 0)) == 2
  {
    var a := [Start(0, alert, false), Claim(0), Finish(0, Committed), Wait(DAY - 1)];
    var b := [Start(1, alert, false), Wait(DAY + 1), Claim(1), Finish(1, Committed)];
    RunSplits(START, a, b);
    PlanInTime(alert);
    PlanOverdue(Run(START, a), alert);
    PromptSplits(START, a, b, DAY + 1);
  }

  lemma PlanInTime(alert: Alert)
    ensures var a := [Start(0, alert, false), Claim(0), Finish(0, Committed), Wait(DAY - 1)]; var w := Run(START, a);
      && w.now == DAY - 1 && w.rows == map[Key(alert, 0) := Row(0, CLAIM_TTL)] && w.plans == map[Key(alert, 0) := 1]
      && (forall id :: At(w, id).Idle?)
      && PromptRun(START, a, DAY + 1)
  {
    RunFour(START, Start(0, alert, false), Claim(0), Finish(0, Committed), Wait(DAY - 1));
    PromptFour(START, Start(0, alert, false), Claim(0), Finish(0, Committed), Wait(DAY - 1), DAY + 1);
  }

  lemma OnlyOneMoves(w: World, e: Event, id: Id)
    requires !e.Purge? && (e.Wait? || e.id == id)
    ensures forall other :: other != id ==> At(Next(w, e), other) == At(w, other)
  {
  }

  lemma PlanOverdue(w: World, alert: Alert)
    requires w.now == DAY - 1 && w.rows == map[Key(alert, 0) := Row(0, CLAIM_TTL)] && w.plans == map[Key(alert, 0) := 1]
    requires forall id :: At(w, id).Idle?
    ensures var b := [Start(1, alert, false), Wait(DAY + 1), Claim(1), Finish(1, Committed)];
      Plans(Run(w, b), Key(alert, 0)) == 2 && PromptRun(w, b, DAY + 1)
  {
    RunFour(w, Start(1, alert, false), Wait(DAY + 1), Claim(1), Finish(1, Committed));
    var started := Next(w, Start(1, alert, false));
    var waited := Next(started, Wait(DAY + 1));
    var claimed := Next(waited, Claim(1));
    assert At(started, 1) == At(waited, 1) == Evaluating(Key(alert, 0), false, DAY - 1);
    assert At(claimed, 1) == Building(Key(alert, 0), false);
    OnlyOneMoves(w, Start(1, alert, false), 1);
    OnlyOneMoves(started, Wait(DAY + 1), 1);
    OnlyOneMoves(waited, Claim(1), 1);
    OnlyOneMoves(claimed, Finish(1, Committed), 1);
    hide Next, Plans, Taken;
    PromptFour(w, Start(1, alert, false), Wait(DAY + 1), Claim(1), Finish(1, Committed), DAY + 1);
  }

  // So a day is exactly the stall the protocol tolerates, whatever the builds do.
  lemma OnePlanIffStallWithinDay(stall: nat)
    ensures (forall events, key :: PromptRun(START, events, stall) ==> Plans(Run(START, events), key) <= 1)
      <==> stall <= DAY
  {
    if stall <= DAY {
      forall events, key | PromptRun(START, events, stall) ensures Plans(Run(START, events), key) <= 1 {
        AtMostOnePlan(events, key, stall);
      }
    } else {
      StalledAttemptCommitsTwice(0);
      PromptGrows(START, StalledRun(0), DAY + 1, stall);
      assert Plans(Run(START, StalledRun(0)), Key(0, 0)) > 1;
    }
  }

  // A delete never removes another instance's claim: at a release the row, if it is still there, is
  // the releaser's own, nobody else works on the key, and it has no plan.
  lemma ReleasesOnlyItsOwn(events: seq<Event>, id: Id, stall: nat)
    requires stall <= DAY && PromptRun(START, events, stall) && At(Run(START, events), id).Releasing?
    ensures var w := Run(START, events); var key := At(w, id).key;
      && (if key in w.rows then w.rows[key].owner == id else Closed(w, key))
      && (forall other :: other != id && Owning(At(w, other)) ==> At(w, other).key != key)
      && Plans(w, key) == 0
  {
    RunKeepsInv(START, events, stall);
    var w := Run(START, events);
    assert PhaseOk(w, id);
    forall other | other != id && Owning(At(w, other)) ensures At(w, other).key != At(w, id).key {
      assert Apart(w, id, other);
    }
  }

  // Two instances are never building for the same key at once, however long they take.
  lemma BuildsAlone(events: seq<Event>, a: Id, b: Id, stall: nat)
    requires stall <= DAY && PromptRun(START, events, stall)
    requires At(Run(START, events), a).Building? && At(Run(START, events), b).Building?
    requires At(Run(START, events), a).key == At(Run(START, events), b).key
    ensures a == b
  {
    RunKeepsInv(START, events, stall);
    assert Apart(Run(START, events), a, b);
  }

  // An alert without a set time is evaluated once a day: while a claim made for a day exists,
  // no further evaluation of that alert starts on that day.
  lemma ClaimClosesTheDay(events: seq<Event>, key: Key, id: Id, stall: nat)
    requires stall <= DAY && PromptRun(START, events, stall)
    requires key in Run(START, events).rows && At(Run(START, events), id).Idle?
    requires Run(START, events).now / DAY == key.day
    ensures At(Next(Run(START, events), Start(id, key.alert, true)), id).Idle?
  {
    RunKeepsInv(START, events, stall);
    assert RowOk(Run(START, events), key);
  }

  // What an evaluation that ends early leaves behind for the others: skipped it leaves no trace for
  // anybody, stopped at the gate none for an alert with a set time, so that the next attempt of the
  // same day still gets to build; nobody else's attempt and no plan is touched either way.
  lemma EarlyEndLeavesTheDayOpen(events: seq<Event>, id: Id, other: Id, e: Event, stall: nat)
    requires stall <= DAY && PromptRun(START, events, stall)
    requires var w := Run(START, events); At(w, id).Evaluating? && (e == Skip(id) || (e == GateBlock(id) && !At(w, id).oncePerDay))
    requires id != other && At(Run(START, events), other).Idle?
    ensures var w := Run(START, events); var p := At(w, id); var v := Next(w, e);
      && v.rows == w.rows && v.plans == w.plans && At(v, id).Idle?
      && (forall x :: x != id ==> At(v, x) == At(w, x))
      && (w.now / DAY == p.key.day && !Taken(w, p.key) ==>
            At(Next(Next(v, Start(other, p.key.alert, p.oncePerDay)), Claim(other)), other) == Building(p.key, p.oncePerDay))
  {
  }

  // So a once-a-day evaluation that ends without a plan, by a market gate or by a block that is
  // not retriable, still uses up the day. After a retriable block or a failure the same day's next
  // attempt gets to build, and so does every failed or blocked attempt of an alert with a set time.
  lemma EvaluationUsesUpTheDay(events: seq<Event>, id: Id, other: Id, outcome: Outcome, stall: nat)
    requires stall <= DAY && PromptRun(START, events, stall)
    requires id != other && At(Run(START, events), other).Idle?
    requires var w := Run(START, events); var p := At(w, id);
      && (p.Evaluating? || p.Building?) && w.now / DAY == p.key.day
      && (p.Building? ==> outcome != Committed)
    ensures var w := Run(START, events); var p := At(w, id); var start := Start(other, p.key.alert, p.oncePerDay);
      && (p.Evaluating? && p.oncePerDay ==> At(Next(Next(w, GateBlock(id)), start), other).Idle?)
      && (p.Building? ==>
            var v := Next(Next(w, Finish(id, outcome)), Release(id));
            if p.oncePerDay && outcome == Blocked(false) then At(Next(v, start), other).Idle?
            else At(Next(Next(v, start), Claim(other)), other) == Building(p.key, p.oncePerDay))
  {
    RunKeepsInv(START, events, stall);
    var w := Run(START, events);
    assert PhaseOk(w, id) && RowOk(w, At(w, id).key);
  }

  // ------------------------------------------------------------------ the outer loop

  // A reload returns the rows among the requested ones that are still active, in any order.
  ghost predicate IsReload(asked: seq<Alert>, loaded: seq<Alert>) {
    Distinct(loaded) && forall a :: a in loaded ==> a in asked
  }

  // The alert is still active whenever the loop reloads.
  ghost predicate StaysActive(a: Alert, reload: (nat, seq<Alert>) -> seq<Alert>) {
    forall n, asked :: a in asked ==> a in reload(n, asked)
  }

  lemma {:induction false} ElementsBound(s: seq<Alert>)
    ensures |Elements(s)| <= |s|
  {
    if s == [] {
    } else {
      ElementsBound(s[1..]);
      assert Elements(s) == {s[0]} + Elements(s[1..]);
    }
  }

  lemma ReloadShrinks(asked: seq<Alert>, loaded: seq<Alert>)
    requires IsReload(asked, loaded)
    ensures |loaded| <= |asked|
  {
    DistinctCount(loaded);
    SubsetCount(Elements(loaded), Elements(asked));
    ElementsBound(asked);
  }

  // Where the loop stands: attempts are distinct, none is still to come, and no alert that stays
  // active has been dropped.
  ghost predicate Standing(initial: seq<Alert>, todo: seq<Alert>, attempts: seq<Alert>,
                           reload: (nat, seq<Alert>) -> seq<Alert>) {
    && Distinct(attempts) && Distinct(todo)
    && (forall a :: a in todo || a in attempts ==> a in initial)
    && (forall a :: a in todo ==> a !in attempts)
    && (forall a :: a in initial && StaysActive(a, reload) ==> a in attempts || a in todo)
  }

  lemma Attempted(initial: seq<Alert>, todo: seq<Alert>, attempts: seq<Alert>,
                  reload: (nat, seq<Alert>) -> seq<Alert>)
    requires todo != [] && Standing(initial, todo, attempts, reload)
    ensures Standing(initial, todo[1..], attempts + [todo[0]], reload)
  {
    hide StaysActive;
    assert todo == [todo[0]] + todo[1..];
    assert todo[0] in todo && todo[0] !in attempts && todo[0] !in todo[1..];
    forall a | a in todo[1..] ensures a in todo && a !in attempts + [todo[0]] {
    }
    forall a | a in initial && StaysActive(a, reload) ensures a in attempts + [todo[0]] || a in todo[1..] {
      assert a in attempts || a in todo;
    }
  }

  lemma Reloaded(initial: seq<Alert>, todo: seq<Alert>, attempts: seq<Alert>,
                 reload: (nat, seq<Alert>) -> seq<Alert>, n: nat)
    requires Standing(initial, todo, attempts, reload) && IsReload(todo, reload(n, todo))
    ensures Standing(initial, reload(n, todo), attempts, reload)
    ensures |reload(n, todo)| <= |todo|
  {
    ReloadShrinks(todo, reload(n, todo));
  }

  // Process the rows in order; after a failure, reload the rows after the failed one and start
  // over on those. Whatever fails and however rows are reloaded, the loop ends, no alert is
  // attempted twice, nothing but loaded alerts is attempted, and every alert that stays active
  // is attempted.
  method RunAutoExecution(initial: seq<Alert>, fails: (nat, Alert) -> bool, reload: (nat, seq<Alert>) -> seq<Alert>)
    returns (attempts: seq<Alert>)
    requires Distinct(initial)
    requires forall n, asked :: IsReload(asked, reload(n, asked))
    ensures Distinct(attempts)
    ensures forall a :: a in attempts ==> a in initial
    ensures forall a :: a in initial && StaysActive(a, reload) ==> a in attempts
    ensures (forall n, a :: !fails(n, a)) ==> attempts == initial
  {
    hide StaysActive, IsReload;
    attempts := [];
    var rows, index, reloads := initial, 0, 0;
    assert rows[0..] == initial;
    while index < |rows|
      invariant 0 <= index <= |rows| && Standing(initial, rows[index..], attempts, reload)
      invariant (forall n, a :: !fails(n, a)) ==> rows == initial && attempts == initial[..index]
      decreases |rows| - index
    {
      hide Standing;
      var alert := rows[index];
      Attempted(initial, rows[index..], attempts, reload);
      assert rows[index..][1..] == rows[index + 1..];
      var failed := fails(|attempts|, alert);
      attempts := attempts + [alert];
      if !failed {
        index := index + 1;
      } else {
        var remaining := rows[index + 1..];
        if remaining != [] {
          Reloaded(initial, remaining, attempts, reload, reloads);
          rows := reload(reloads, remaining);
        } else {
          rows := [];
        }
        assert rows[0..] == rows;
        reloads := reloads + 1;
        index := 0;
      }
    }
  }
}
