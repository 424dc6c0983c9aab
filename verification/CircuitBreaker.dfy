// The in-memory circuit breaker: its object, and every interleaving of concurrent calls on it.
// A call is two steps around the awaited function: the first takes the state decision and, when
// half open, the probe slot; the second records the outcome.
module CircuitBreakers {
  import opened Basics

  type Time = int

  datatype State = CLOSED | OPEN | HALF_OPEN

  // Bypass stands for configuration and authentication errors, which are not counted.
  datatype Outcome = Success | Failure | Bypass

  datatype Config = Config(failMax: nat, resetTimeout: nat)

  datatype Breaker = Breaker(state: State, failures: nat, openedAt: Time, probeClaimed: bool)

  const NEW := Breaker(CLOSED, 0, 0, false)

  // ------------------------------------------------------------------ operations on states

  function Observed(b: Breaker, cfg: Config, now: Time): Breaker {
    if b.state == OPEN && now - b.openedAt >= cfg.resetTimeout
    then b.(state := HALF_OPEN, probeClaimed := false)
    else b
  }

  function AfterSuccess(b: Breaker): Breaker {
    b.(failures := 0, state := CLOSED, probeClaimed := false)
  }

  function AfterFailure(b: Breaker, cfg: Config, now: Time): Breaker {
    var f := b.failures + 1;
    if f >= cfg.failMax || b.state == HALF_OPEN
    then Breaker(OPEN, f, now, false)
    else b.(failures := f)
  }

  function AfterBegin(b: Breaker, cfg: Config, now: Time): (Breaker, bool) {
    var o := Observed(b, cfg, now);
    match o.state
    case OPEN => (o, false)
    case HALF_OPEN => if o.probeClaimed then (o, false) else (o.(probeClaimed := true), true)
    case CLOSED => (o, true)
  }

  function AfterEnd(b: Breaker, cfg: Config, now: Time, outcome: Outcome): Breaker {
    match outcome
    case Success => AfterSuccess(b)
    case Failure => AfterFailure(b, cfg, now)
    case Bypass => b.(probeClaimed := false)
  }

  // ------------------------------------------------------------------ the object

  class CircuitBreaker {
    const cfg: Config
    var state: State
    var failures: nat
    var openedAt: Time
    var halfOpenProbeClaimed: bool

    ghost function Value(): Breaker
      reads this
    {
      Breaker(state, failures, openedAt, halfOpenProbeClaimed)
    }

    constructor (failMax: nat, resetTimeout: nat)
      ensures Value() == NEW && cfg == Config(failMax, resetTimeout)
    {
      cfg := Config(failMax, resetTimeout);
      state, failures, openedAt, halfOpenProbeClaimed := CLOSED, 0, 0, false;
    }

    // The state property: reading it moves an open breaker to half open once the timeout is over.
    method Observe(now: Time) returns (s: State)
      modifies this
      ensures Value() == Observed(old(Value()), cfg, now) && s == state
    {
      if state == OPEN && now - openedAt >= cfg.resetTimeout {
        state := HALF_OPEN;
        halfOpenProbeClaimed := false;
      }
      s := state;
    }

    method IsAvailable(now: Time) returns (available: bool)
      modifies this
      ensures Value() == Observed(old(Value()), cfg, now)
      ensures available <==> !(old(state) == OPEN && now < old(openedAt) + cfg.resetTimeout)
    {
      var s := Observe(now);
      available := s != OPEN;
    }

    method RecordSuccess()
      modifies this
      ensures Value() == AfterSuccess(old(Value()))
    {
      failures := 0;
      state := CLOSED;
      halfOpenProbeClaimed := false;
    }

    method RecordFailure(now: Time)
      modifies this
      ensures Value() == AfterFailure(old(Value()), cfg, now)
    {
      failures := failures + 1;
      if failures >= cfg.failMax || state == HALF_OPEN {
        state := OPEN;
        openedAt := now;
        halfOpenProbeClaimed := false;
      }
    }

    method BeginCall(now: Time) returns (admitted: bool)
      modifies this
      ensures (Value(), admitted) == AfterBegin(old(Value()), cfg, now)
    {
      var current := Observe(now);
      if current == OPEN {
        return false;
      }
      if current == HALF_OPEN {
        if halfOpenProbeClaimed {
          return false;
        }
        halfOpenProbeClaimed := true;
      }
      return true;
    }

    method EndCall(outcome: Outcome, now: Time)
      modifies this
      ensures Value() == AfterEnd(old(Value()), cfg, now, outcome)
    {
      match outcome
      case Success => RecordSuccess();
      case Bypass => halfOpenProbeClaimed := false;
      case Failure => RecordFailure(now);
    }
  }

  // ------------------------------------------------------------------ interleaved calls

  type Id = nat

  // claimant, admitted and bypassed are history: who last took the probe slot, and how many
  // calls were admitted and how many bypass outcomes came in during the current half-open episode.
  datatype World = World(now: Time, breaker: Breaker, inFlight: set<Id>,
                         claimant: Option<Id>, admitted: nat, bypassed: nat)

  datatype Event =
    | Wait(d: nat)
    | Preview
    | Begin(id: Id)
    | End(id: Id, outcome: Outcome)
    | Cancel(id: Id) // the task is cancelled while its call is awaited
    | Record(ok: bool) // an outcome recorded directly, after a preview instead of a call

  const START := World(0, NEW, {}, None, 0, 0)

  // The history restarts when an episode begins.
  function Noted(w: World, b: Breaker): World {
    if b.state == HALF_OPEN && w.breaker.state != HALF_OPEN
    then w.(breaker := b, admitted := 0, bypassed := 0)
    else w.(breaker := b)
  }

  function Next(w: World, e: Event, cfg: Config): World {
    match e
    case Wait(d) => w.(now := w.now + d)
    case Preview => Noted(w, Observed(w.breaker, cfg, w.now))
    case Begin(id) =>
      if id in w.inFlight then w
      else
        var (b, ok) := AfterBegin(w.breaker, cfg, w.now);
        var v := Noted(w, b);
        if !ok then v
        else if b.state == HALF_OPEN
        then v.(inFlight := v.inFlight + {id}, claimant := Some(id), admitted := v.admitted + 1)
        else v.(inFlight := v.inFlight + {id})
    case End(id, outcome) =>
      if id !in w.inFlight then w
      else
        var v := w.(breaker := AfterEnd(w.breaker, cfg, w.now, outcome), inFlight := w.inFlight - {id});
        if outcome == Bypass then v.(bypassed := v.bypassed + 1) else v
    case Cancel(id) => w.(inFlight := w.inFlight - {id})
    case Record(ok) => w.(breaker := if ok then AfterSuccess(w.breaker) else AfterFailure(w.breaker, cfg, w.now))
  }

  function Run(w: World, events: seq<Event>, cfg: Config): World
    decreases events
  {
    if events == [] then w else Run(Next(w, events[0], cfg), events[1..], cfg)
  }

  // The call that holds the probe slot is cancelled.
  predicate HitsClaimant(w: World, e: Event) {
    e.Cancel? && w.breaker.probeClaimed && w.claimant == Some(e.id)
  }

  ghost predicate SparesClaimant(w: World, events: seq<Event>, cfg: Config)
    decreases events
  {
    events != [] ==> !HitsClaimant(w, events[0]) && SparesClaimant(Next(w, events[0], cfg), events[1..], cfg)
  }

  // A success is recorded, by the end of a call or directly.
  predicate Succeeds(e: Event) {
    e == Record(true) || (e.End? && e.outcome == Success)
  }

  predicate Started(w: World, id: Id, cfg: Config) {
    id !in w.inFlight && id in Next(w, Begin(id), cfg).inFlight
  }

  // Holds with and without cancellations.
  predicate Counted(w: World, cfg: Config) {
    && (w.breaker.state == CLOSED <==> w.breaker.failures < cfg.failMax)
    && (w.breaker.probeClaimed ==> w.breaker.state == HALF_OPEN)
    && (w.breaker.state == HALF_OPEN ==>
          w.admitted + (if w.breaker.probeClaimed then 0 else 1) <= 1 + w.bypassed)
    && w.breaker.openedAt <= w.now
  }

  // A taken slot belongs to a call that is still in flight.
  predicate SlotOwned(w: World) {
    w.breaker.probeClaimed ==> w.claimant.Some? && w.claimant.value in w.inFlight
  }

  // Cancelling the claimant is the one step after which nobody is left to give the slot back.
  lemma SlotLostIff(w: World, e: Event, cfg: Config)
    requires Counted(w, cfg) && SlotOwned(w)
    ensures SlotOwned(Next(w, e, cfg)) <==> !HitsClaimant(w, e)
  {
  }

  lemma {:induction false} RunKeepsInv(w: World, events: seq<Event>, cfg: Config)
    requires cfg.failMax >= 1 && Counted(w, cfg)
    ensures Counted(Run(w, events, cfg), cfg)
    ensures SlotOwned(w) && SparesClaimant(w, events, cfg) ==> SlotOwned(Run(w, events, cfg))
    decreases events
  {
    if events == [] {
    } else {
      var v := Next(w, events[0], cfg);
      assert Counted(v, cfg);
      if SlotOwned(w) {
        SlotLostIff(w, events[0], cfg);
      }
      hide Next, Counted, SlotOwned, HitsClaimant;
      RunKeepsInv(v, events[1..], cfg);
    }
  }

  // ------------------------------------------------------------------ runs, piece by piece

  lemma RunTwo(w: World, a: Event, b: Event, cfg: Config)
    ensures Run(w, [a, b], cfg) == Next(Next(w, a, cfg), b, cfg)
  {
    hide Next;
    assert [a, b][1..] == [b];
    assert Run(Next(w, a, cfg), [b], cfg) == Run(Next(Next(w, a, cfg), b, cfg), [], cfg);
  }

  lemma {:induction false} RunSplits(w: World, a: seq<Event>, b: seq<Event>, cfg: Config)
    ensures Run(w, a + b, cfg) == Run(Run(w, a, cfg), b, cfg)
    decreases a
  {
    if a == [] {
      assert a + b == b;
    } else {
      assert (a + b)[1..] == a[1..] + b;
      RunSplits(Next(w, a[0], cfg), a[1..], b, cfg);
    }
  }

  // ------------------------------------------------------------------ main results

  // Over every interleaving: the breaker is closed exactly while fewer than failMax failures
  // stand, and a half-open episode admits at most one call more than the bypass outcomes in it.
  lemma ClosedIffFewFailures(events: seq<Event>, cfg: Config)
    requires cfg.failMax >= 1
    ensures var w := Run(START, events, cfg);
      && (w.breaker.state == CLOSED <==> w.breaker.failures < cfg.failMax)
      && (w.breaker.state == HALF_OPEN ==> w.admitted <= 1 + w.bypassed)
  {
    RunKeepsInv(START, events, cfg);
  }

  // From the moment the breaker opened, and until a success is recorded, by a call that was already
  // under way or directly, no call starts before the reset timeout is over.
  lemma {:induction false} NoCallBeforeTimeout(w: World, events: seq<Event>, cfg: Config, id: Id)
    requires w.breaker.state == OPEN && w.breaker.openedAt <= w.now
    requires forall e :: e in events ==> !Succeeds(e)
    requires Run(w, events, cfg).now < w.breaker.openedAt + cfg.resetTimeout
    ensures Run(w, events, cfg).breaker.state == OPEN
    ensures !Started(Run(w, events, cfg), id, cfg)
    decreases events
  {
    if events == [] {
    } else {
      var v := Next(w, events[0], cfg);
      assert events[0] in events && !Succeeds(events[0]);
      TimeGrows(v, events[1..], cfg);
      NoCallBeforeTimeout(v, events[1..], cfg, id);
    }
  }

  // And that success is the only way: an open breaker whose timeout is running lets the next call in
  // after a step exactly if the step records a success.
  lemma OnlySuccessReopens(w: World, e: Event, cfg: Config, id: Id)
    requires Counted(w, cfg) && cfg.failMax >= 1 && w.breaker.state == OPEN && !e.Wait?
    requires w.now < w.breaker.openedAt + cfg.resetTimeout && id !in w.inFlight && e != Begin(id)
    ensures Started(Next(w, e, cfg), id, cfg) <==> e == Record(true) || (e.End? && e.id in w.inFlight && e.outcome == Success)
  {
  }

  lemma {:induction false} TimeGrows(w: World, events: seq<Event>, cfg: Config)
    ensures Run(w, events, cfg).now >= w.now
    decreases events
  {
    if events == [] {
    } else {
      TimeGrows(Next(w, events[0], cfg), events[1..], cfg);
    }
  }

  // A failure is recorded: by the end of a call in flight, or directly.
  predicate Fails(w: World, e: Event) {
    e == Record(false) || (e.End? && e.id in w.inFlight && e.outcome == Failure)
  }

  // A success is recorded, by the end of a call in flight or directly.
  predicate Mends(w: World, e: Event) {
    e == Record(true) || (e.End? && e.id in w.inFlight && e.outcome == Success)
  }

  // The failures recorded since the last success, as the run itself tells them.
  function FailuresSince(events: seq<Event>, cfg: Config): nat {
    if events == [] then 0
    else
      var n := |events| - 1;
      var w := Run(START, events[..n], cfg);
      if Mends(w, events[n]) then 0
      else FailuresSince(events[..n], cfg) + if Fails(w, events[n]) then 1 else 0
  }

  lemma RunLast(w: World, events: seq<Event>, cfg: Config)
    requires events != []
    ensures var n := |events| - 1; Run(w, events, cfg) == Next(Run(w, events[..n], cfg), events[n], cfg)
  {
    var n := |events| - 1;
    assert events == events[..n] + [events[n]];
    RunSplits(w, events[..n], [events[n]], cfg);
    var u := Run(w, events[..n], cfg);
    assert Run(u, [events[n]], cfg) == Run(Next(u, events[n], cfg), [], cfg);
  }

  lemma StepFails(w: World, e: Event, cfg: Config)
    ensures Next(w, e, cfg).breaker.failures
      == if Mends(w, e) then 0 else w.breaker.failures + if Fails(w, e) then 1 else 0
  {
  }

  lemma {:induction false} CountsFailures(events: seq<Event>, cfg: Config)
    ensures Run(START, events, cfg).breaker.failures == FailuresSince(events, cfg)
  {
    if events == [] {
    } else {
      var n := |events| - 1;
      CountsFailures(events[..n], cfg);
      RunLast(START, events, cfg);
      StepFails(Run(START, events[..n], cfg), events[n], cfg);
      hide Next, Fails, Mends;
    }
  }

  // So, told by events alone: the breaker is closed exactly while fewer than failMax failures have been
  // recorded since the last success; bypass outcomes, cancellations and refused calls count for nothing.
  lemma ClosedIffFewFailuresSince(events: seq<Event>, cfg: Config)
    requires cfg.failMax >= 1
    ensures Run(START, events, cfg).breaker.state == CLOSED <==> FailuresSince(events, cfg) < cfg.failMax
  {
    CountsFailures(events, cfg);
    ClosedIffFewFailures(events, cfg);
  }

  // The event starts a half-open episode.
  predicate Reopens(w: World, e: Event, cfg: Config) {
    w.breaker.state != HALF_OPEN && Next(w, e, cfg).breaker.state == HALF_OPEN
  }

  // The calls let in, and the bypass outcomes, since the last half-open episode began.
  function ProbesSince(events: seq<Event>, cfg: Config): nat {
    if events == [] then 0
    else
      var n := |events| - 1;
      var w, e := Run(START, events[..n], cfg), events[n];
      (if Reopens(w, e, cfg) then 0 else ProbesSince(events[..n], cfg))
      + if e.Begin? && Started(w, e.id, cfg) && Next(w, e, cfg).breaker.state == HALF_OPEN then 1 else 0
  }

  function BypassesSince(events: seq<Event>, cfg: Config): nat {
    if events == [] then 0
    else
      var n := |events| - 1;
      var w, e := Run(START, events[..n], cfg), events[n];
      if Reopens(w, e, cfg) then 0
      else BypassesSince(events[..n], cfg) + if e.End? && e.id in w.inFlight && e.outcome == Bypass then 1 else 0
  }

  lemma StepCounts(w: World, e: Event, cfg: Config)
    ensures var v := Next(w, e, cfg); var base := if Reopens(w, e, cfg) then 0 else w.admitted;
      v.admitted == base + if e.Begin? && Started(w, e.id, cfg) && v.breaker.state == HALF_OPEN then 1 else 0
    ensures var v := Next(w, e, cfg);
      v.bypassed == if Reopens(w, e, cfg) then 0
                    else w.bypassed + if e.End? && e.id in w.inFlight && e.outcome == Bypass then 1 else 0
  {
  }

  lemma {:induction false} CountsProbes(events: seq<Event>, cfg: Config)
    ensures Run(START, events, cfg).admitted == ProbesSince(events, cfg)
    ensures Run(START, events, cfg).bypassed == BypassesSince(events, cfg)
  {
    if events == [] {
    } else {
      var n := |events| - 1;
      CountsProbes(events[..n], cfg);
      RunLast(START, events, cfg);
      StepCounts(Run(START, events[..n], cfg), events[n], cfg);
      hide Next, Started, Reopens;
    }
  }

  // A half-open episode lets in one call, and one more for each bypass outcome in it, never more.
  lemma ProbesBounded(events: seq<Event>, cfg: Config)
    requires cfg.failMax >= 1 && Run(START, events, cfg).breaker.state == HALF_OPEN
    ensures ProbesSince(events, cfg) <= 1 + BypassesSince(events, cfg)
  {
    CountsProbes(events, cfg);
    ClosedIffFewFailures(events, cfg);
  }

  // Every failure that leaves the breaker open, whatever its state was before, shuts it for a full
  // timeout from that moment: until a success is recorded no call starts sooner, and if nothing else
  // happens the next one starts as soon as that time is over.
  lemma FailureRestartsTimer(before: seq<Event>, e: Event, later: seq<Event>, d: nat, cfg: Config, id: Id)
    requires cfg.failMax >= 1 && Fails(Run(START, before, cfg), e)
    requires FailuresSince(before, cfg) + 1 >= cfg.failMax || Run(START, before, cfg).breaker.state == HALF_OPEN
    requires forall x :: x in later ==> !Succeeds(x)
    ensures var w := Run(START, before, cfg); var v := Next(w, e, cfg); var u := Run(v, later, cfg);
      && (u.now < w.now + cfg.resetTimeout ==> u.breaker.state == OPEN && !Started(u, id, cfg))
      && (id !in v.inFlight ==> (Started(Next(v, Wait(d), cfg), id, cfg) <==> d >= cfg.resetTimeout))
  {
    CountsFailures(before, cfg);
    RunKeepsInv(START, before, cfg);
    var w := Run(START, before, cfg);
    var v := Next(w, e, cfg);
    assert v.now == w.now && v.breaker.state == OPEN && v.breaker.openedAt == w.now;
    if Run(v, later, cfg).now < w.now + cfg.resetTimeout {
      NoCallBeforeTimeout(v, later, cfg, id);
    }
  }

  // The half-open call decides: a success closes the breaker for everyone with a clean count, a
  // failure shuts it for a full timeout from now, a bypass outcome hands the slot to the next call.
  lemma HalfOpenOutcomeDecides(w: World, id: Id, other: Id, d: nat, cfg: Config)
    requires Counted(w, cfg) && w.breaker.state == HALF_OPEN && id in w.inFlight && other !in w.inFlight
    requires cfg.failMax >= 1
    ensures var v := Next(w, End(id, Success), cfg);
      Started(v, other, cfg) && v.breaker.state == CLOSED && v.breaker.failures == 0
    ensures Started(Next(Next(w, End(id, Failure), cfg), Wait(d), cfg), other, cfg) <==> d >= cfg.resetTimeout
    ensures Started(Next(w, End(id, Bypass), cfg), other, cfg)
  {
  }

  // Unless the call that holds the slot is cancelled the breaker cannot wedge, whatever else is
  // cancelled: a taken probe slot always belongs to a call still in flight, and once nothing is in
  // flight, waiting out the timeout admits a call.
  lemma CannotWedge(events: seq<Event>, cfg: Config, id: Id)
    requires cfg.failMax >= 1 && SparesClaimant(START, events, cfg)
    ensures var w := Run(START, events, cfg);
      && (w.breaker.probeClaimed ==> w.claimant.Some? && w.claimant.value in w.inFlight)
      && (w.inFlight == {} ==> Started(Next(w, Wait(cfg.resetTimeout), cfg), id, cfg))
  {
    RunKeepsInv(START, events, cfg);
  }

  // The slot is taken but nobody is left to give it back.
  predicate Wedged(w: World) {
    w.breaker.state == HALF_OPEN && w.breaker.probeClaimed && w.inFlight == {}
  }

  // With any cancellations, an idle breaker recovers by itself if and only if it is not wedged.
  lemma RecoversUnlessWedged(events: seq<Event>, cfg: Config, id: Id)
    requires cfg.failMax >= 1 && Run(START, events, cfg).inFlight == {}
    ensures Started(Next(Run(START, events, cfg), Wait(cfg.resetTimeout), cfg), id, cfg) <==> !Wedged(Run(START, events, cfg))
  {
    RunKeepsInv(START, events, cfg);
  }

  // A wedged breaker leaves that state exactly when an outcome is recorded directly: by calls alone, and
  // by waiting and looking, it never does.
  lemma WedgedUntilRecorded(w: World, e: Event, cfg: Config)
    requires Wedged(w)
    ensures Wedged(Next(w, e, cfg)) <==> !e.Record?
  {
  }

  // So where a breaker is only ever used through calls, it refuses every call for ever.
  lemma {:induction false} WedgedForEver(w: World, events: seq<Event>, cfg: Config, id: Id)
    requires Wedged(w) && forall e :: e in events ==> !e.Record?
    ensures Wedged(Run(w, events, cfg)) && !Started(Run(w, events, cfg), id, cfg)
    decreases events
  {
    if events == [] {
    } else {
      assert events[0] in events;
      WedgedUntilRecorded(w, events[0], cfg);
      hide Next, Wedged;
      WedgedForEver(Next(w, events[0], cfg), events[1..], cfg, id);
    }
  }

  // Where outcomes are also recorded directly, such a caller finds a wedged breaker available all the
  // while, and its outcome frees the slot: a success at once, a failure after a full timeout.
  lemma RecordUnwedges(w: World, events: seq<Event>, d: nat, cfg: Config, id: Id)
    requires cfg.failMax >= 1 && Wedged(w) && forall e :: e in events ==> !e.Record?
    ensures var v := Run(w, events, cfg);
      && Observed(v.breaker, cfg, v.now).state != OPEN
      && Started(Next(v, Record(true), cfg), id, cfg)
      && (Started(Next(Next(v, Record(false), cfg), Wait(d), cfg), id, cfg) <==> d >= cfg.resetTimeout)
  {
    WedgedForEver(w, events, cfg, id);
  }

  function FailedCalls(n: nat): seq<Event> {
    if n == 0 then [] else FailedCalls(n - 1) + [Begin(0), End(0, Failure)]
  }

  // Cancelling a probe reaches that state, whatever the configuration: cancellation is not an
  // Exception, so neither branch of the handler frees the slot.
  lemma CancelledProbeWedges(cfg: Config)
    requires cfg.failMax >= 1
    ensures Wedged(Run(START, FailedCalls(cfg.failMax) + [Wait(cfg.resetTimeout), Begin(0), Cancel(0)], cfg))
  {
    FailingOpens(cfg, cfg.failMax);
    var w := Run(START, FailedCalls(cfg.failMax), cfg);
    RunSplits(START, FailedCalls(cfg.failMax), [Wait(cfg.resetTimeout), Begin(0), Cancel(0)], cfg);
    RunTwo(Next(w, Wait(cfg.resetTimeout), cfg), Begin(0), Cancel(0), cfg);
    assert [Wait(cfg.resetTimeout), Begin(0), Cancel(0)][1..] == [Begin(0), Cancel(0)];
  }

  lemma {:induction false} FailingOpens(cfg: Config, n: nat)
    requires 1 <= cfg.failMax && n <= cfg.failMax
    ensures Run(START, FailedCalls(n), cfg)
      == World(0, Breaker(if n == cfg.failMax then OPEN else CLOSED, n, 0, false), {}, None, 0, 0)
  {
    if n == 0 {
    } else {
      FailingOpens(cfg, n - 1);
      var w := Run(START, FailedCalls(n - 1), cfg);
      RunSplits(START, FailedCalls(n - 1), [Begin(0), End(0, Failure)], cfg);
      RunTwo(w, Begin(0), End(0, Failure), cfg);
    }
  }
}
