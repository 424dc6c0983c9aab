// The recommendation cache keys carry a generation token. Invalidation rotates the token, so
// a slow computation that started before a settings change can only write under a token that
// later readers no longer use. This module interleaves, one store operation at a time, any
// number of readers, computations and invalidations, with the loss (expiry or eviction) of any
// key at any moment.
module Generation {
  import opened Basics

  type Id = nat
  type Gen = nat // uuid4 modelled as a fresh counter
  type Kind = nat // which of the result keys: overall, horizon, age, and their stale copies

  // A moment of the run: the number of steps taken and the number of settings saves so far.
  datatype Stamp = Stamp(step: nat, saves: nat)

  predicate NotBefore(a: Stamp, b: Stamp) {
    a.step >= b.step && a.saves >= b.saves
  }

  datatype Actor =
    | Idle
    // obtaining a generation: the key was missing, a candidate is in hand; then it was offered
    | Missed(candidate: Gen, startFloor: Stamp)
    | Offered(candidate: Gen, startFloor: Stamp)
    // a generation in hand; startFloor and floor are the last invalidation finished before the
    // call started and before its last step, fallback tells that the final read found nothing
    | Holding(gen: Gen, startFloor: Stamp, floor: Stamp, fallback: bool)
    | Loaded(gen: Gen, startFloor: Stamp, floor: Stamp, fallback: bool, readAt: Stamp)
    // invalidating: the current generation was read; then its results were deleted
    | Clearing(seen: Option<Gen>)
    | Cleared

  datatype World = World(
    now: Stamp,
    nextGen: Gen,
    current: Option<Gen>,
    results: map<(Kind, Gen), Stamp>, // a stored result, told by when its settings were read
    actors: map<Id, Actor>,
    // history: when each generation first became visible, and the last finished invalidation
    known: map<Gen, Stamp>,
    rotated: Stamp)

  datatype Event =
    | Save
    | BeginGet(id: Id)
    | Offer(id: Id)
    | Take(id: Id)
    | Load(id: Id)
    | Put(id: Id, kind: Kind)
    | Quit(id: Id)
    | BeginInvalidate(id: Id)
    | ClearOld(id: Id)
    | Rotate(id: Id)
    | LoseGen
    | LoseResult(kind: Kind, gen: Gen)

  function At(w: World, id: Id): Actor {
    if id in w.actors then w.actors[id] else Idle
  }

  function Known(w: World, g: Gen): map<Gen, Stamp> {
    if g in w.known then w.known else w.known[g := w.now]
  }

  // One step; an event whose actor is not at that point changes nothing but the clock.
  function Step(w: World, e: Event): World {
    match e
    case Save => w.(now := Stamp(w.now.step, w.now.saves + 1))
    case BeginGet(id) =>
      if !At(w, id).Idle? then w
      else
        var candidate := w.nextGen;
        var next := if w.current.Some? then Holding(w.current.value, w.rotated, w.rotated, false)
                    else Missed(candidate, w.rotated);
        w.(nextGen := candidate + 1, actors := w.actors[id := next])
    case Offer(id) =>
      var a := At(w, id);
      if !a.Missed? then w
      else
        var v := w.(actors := w.actors[id := Offered(a.candidate, a.startFloor)]);
        if w.current.Some? then v // set(nx=True) refused
        else v.(current := Some(a.candidate), known := Known(w, a.candidate))
    case Take(id) =>
      var a := At(w, id);
      if !a.Offered? then w
      else if w.current.Some? then
        w.(actors := w.actors[id := Holding(w.current.value, a.startFloor, w.rotated, false)])
      else
        w.(actors := w.actors[id := Holding(a.candidate, a.startFloor, w.rotated, true)],
           known := Known(w, a.candidate))
    case Load(id) =>
      var a := At(w, id);
      if !a.Holding? then w
      else w.(actors := w.actors[id := Loaded(a.gen, a.startFloor, a.floor, a.fallback, w.now)])
    case Put(id, kind) =>
      var a := At(w, id);
      if !a.Loaded? then w else w.(results := w.results[(kind, a.gen) := a.readAt])
    case Quit(id) => w.(actors := w.actors[id := Idle])
    case BeginInvalidate(id) =>
      if !At(w, id).Idle? then w else w.(actors := w.actors[id := Clearing(w.current)])
    case ClearOld(id) =>
      var a := At(w, id);
      if !a.Clearing? then w
      else
        w.(actors := w.actors[id := Cleared],
           results := map key | key in w.results && a.seen != Some(key.1) :: w.results[key])
    case Rotate(id) =>
      if !At(w, id).Cleared? then w
      else
        w.(nextGen := w.nextGen + 1, current := Some(w.nextGen), known := Known(w, w.nextGen),
           actors := w.actors[id := Idle], rotated := w.now)
    case LoseGen => w.(current := None)
    case LoseResult(kind, gen) => w.(results := w.results - {(kind, gen)})
  }

  function Tick(w: World): World {
    w.(now := Stamp(w.now.step + 1, w.now.saves))
  }

  function Next(w: World, e: Event): World {
    Tick(Step(w, e))
  }

  function Run(w: World, events: seq<Event>): World
    decreases events
  {
    if events == [] then w else Run(Next(w, events[0]), events[1..])
  }

  const START := World(Stamp(0, 0), 0, None, map[], map[], map[], Stamp(0, 0))

  // ------------------------------------------------------------------ what each event changes

  // A stored result comes from the call that loaded it, under the generation that call had in hand, and
  // goes when it is lost or when an invalidation deletes the results of the generation it had read.
  lemma ResultChanges(w: World, e: Event, kind: Kind, gen: Gen)
    ensures var v := Next(w, e); var key := (kind, gen);
      && (key in v.results && !(key in w.results && v.results[key] == w.results[key]) ==>
            e.Put? && e.kind == kind && At(w, e.id).Loaded? && At(w, e.id).gen == gen && v.results[key] == At(w, e.id).readAt)
      && (key in w.results && key !in v.results <==>
            key in w.results && (e == LoseResult(kind, gen) || (e.ClearOld? && At(w, e.id) == Clearing(Some(gen)))))
  {
  }

  // The current generation changes to a candidate that was offered while there was none, to a new one
  // at the end of an invalidation, or goes when the store loses it.
  lemma CurrentChanges(w: World, e: Event)
    ensures var v := Next(w, e);
      v.current ==
        if e.Offer? && At(w, e.id).Missed? && w.current.None? then Some(At(w, e.id).candidate)
        else if e.Rotate? && At(w, e.id).Cleared? then Some(w.nextGen)
        else if e == LoseGen then None
        else w.current
    ensures Next(w, e).nextGen >= w.nextGen
    ensures e.Rotate? && At(w, e.id).Cleared? ==> Next(w, e).nextGen > w.nextGen
  {
  }

  // An actor moves on by its own events alone; a call ends when it quits, an invalidation with its rotation.
  lemma ActorChanges(w: World, e: Event, id: Id)
    ensures var p, q := At(w, id), At(Next(w, e), id);
      && (q.Idle? <==> e == Quit(id) || (e == Rotate(id) && p.Cleared?)
                       || (p.Idle? && e != BeginGet(id) && e != BeginInvalidate(id)))
      && (q != p && !q.Idle? ==>
            || (e == BeginGet(id) && p.Idle? && (q.Holding? <==> w.current.Some?) && (q.Missed? <==> w.current.None?))
            || (e == Offer(id) && p.Missed? && q.Offered? && q.candidate == p.candidate)
            || (e == Take(id) && p.Offered? && q.Holding?
                && q.gen == (if w.current.Some? then w.current.value else p.candidate))
            || (e == Load(id) && p.Holding? && q.Loaded? && q.gen == p.gen && q.readAt == w.now)
            || (e == BeginInvalidate(id) && p.Idle? && q == Clearing(w.current))
            || (e == ClearOld(id) && p.Clearing? && q.Cleared?))
  {
  }

  // ------------------------------------------------------------------ invariant

  ghost predicate GenInHand(a: Actor) {
    a.Holding? || a.Loaded?
  }

  ghost predicate Waiting(a: Actor) {
    a.Missed? || a.Offered?
  }

  // A candidate that is not yet visible belongs to its owner alone.
  ghost predicate CandidateOk(w: World, id: Id) {
    var a := At(w, id);
    Waiting(a) ==>
      && a.candidate < w.nextGen
      && NotBefore(w.rotated, a.startFloor)
      && (a.Missed? ==> a.candidate !in w.known)
      && (a.candidate in w.known ==> NotBefore(w.known[a.candidate], a.startFloor))
  }

  ghost predicate Apart(w: World, id: Id, other: Id) {
    id != other && Waiting(At(w, id)) && Waiting(At(w, other)) ==> At(w, id).candidate != At(w, other).candidate
  }

  // A generation in hand was visible before its settings were read, and became visible at or
  // after the invalidation it is measured against.
  ghost predicate HandOk(w: World, id: Id) {
    var a := At(w, id);
    GenInHand(a) ==>
      && a.gen in w.known
      && NotBefore(w.known[a.gen], a.startFloor)
      && (!a.fallback ==> NotBefore(w.known[a.gen], a.floor))
      && (a.Loaded? ==> NotBefore(a.readAt, w.known[a.gen]))
  }

  ghost predicate Inv(w: World) {
    && NotBefore(w.now, w.rotated)
    && (forall g :: g in w.known ==> g < w.nextGen && NotBefore(w.now, w.known[g]))
    && (w.current.Some? ==> w.current.value in w.known && NotBefore(w.known[w.current.value], w.rotated))
    && (forall key :: key in w.results ==> key.1 in w.known && NotBefore(w.results[key], w.known[key.1]))
    && (forall id :: CandidateOk(w, id))
    && (forall id, other :: Apart(w, id, other))
    && (forall id :: HandOk(w, id))
  }

  lemma StepKeepsCandidate(w: World, e: Event, id: Id)
    requires Inv(w)
    ensures CandidateOk(Step(w, e), id)
  {
    assert CandidateOk(w, id);
    if e.Offer? || e.Take? {
      assert CandidateOk(w, e.id) && Apart(w, id, e.id);
    }
  }

  lemma StepKeepsApart(w: World, e: Event, id: Id, other: Id)
    requires Inv(w)
    ensures Apart(Step(w, e), id, other)
  {
    assert Apart(w, id, other) && CandidateOk(w, id) && CandidateOk(w, other);
  }

  lemma StepKeepsHand(w: World, e: Event, id: Id)
    requires Inv(w)
    ensures HandOk(Step(w, e), id)
  {
    assert HandOk(w, id) && CandidateOk(w, id);
    if e.Offer? || e.Take? {
      assert CandidateOk(w, e.id);
    }
  }

  lemma StepKeepsKeys(w: World, e: Event)
    requires Inv(w)
    ensures var v := Step(w, e);
      && NotBefore(v.now, v.rotated)
      && (forall g :: g in v.known ==> g < v.nextGen && NotBefore(v.now, v.known[g]))
      && (v.current.Some? ==> v.current.value in v.known && NotBefore(v.known[v.current.value], v.rotated))
      && (forall key :: key in v.results ==> key.1 in v.known && NotBefore(v.results[key], v.known[key.1]))
  {
    if e.Put? {
      assert HandOk(w, e.id);
    } else if e.Offer? || e.Take? {
      assert CandidateOk(w, e.id);
    }
  }

  lemma StepKeepsInv(w: World, e: Event)
    requires Inv(w)
    ensures Inv(Next(w, e))
  {
    var u, v := Step(w, e), Next(w, e);
    StepKeepsKeys(w, e);
    forall id ensures CandidateOk(v, id) && HandOk(v, id) {
      StepKeepsCandidate(w, e, id);
      StepKeepsHand(w, e, id);
    }
    forall id, other ensures Apart(v, id, other) {
      StepKeepsApart(w, e, id, other);
    }
  }

  lemma {:induction false} RunKeepsInv(w: World, events: seq<Event>)
    requires Inv(w)
    ensures Inv(Run(w, events))
    decreases events
  {
    if events == [] {
    } else {
      StepKeepsInv(w, events[0]);
      RunKeepsInv(Next(w, events[0]), events[1..]);
    }
  }

  // ------------------------------------------------------------------ freshness

  ghost predicate Stays(events: seq<Event>, id: Id) {
    Quit(id) !in events
  }

  // The same call of id, possibly further along.
  ghost predicate SameCall(a: Actor, b: Actor) {
    Waiting(a) || GenInHand(a) ==>
      && (Waiting(b) || GenInHand(b))
      && b.startFloor == a.startFloor
      && (GenInHand(a) ==> GenInHand(b) && b.gen == a.gen && b.floor == a.floor && b.fallback == a.fallback)
  }

  lemma StepKeepsCall(w: World, e: Event, id: Id)
    requires e != Quit(id)
    ensures SameCall(At(w, id), At(Next(w, e), id))
  {
  }

  lemma {:induction false} RunKeepsCall(w: World, events: seq<Event>, id: Id)
    requires Stays(events, id)
    ensures SameCall(At(w, id), At(Run(w, events), id))
    decreases events
  {
    if events == [] {
    } else {
      hide Step;
      assert events[0] in events && Stays(events[1..], id);
      StepKeepsCall(w, events[0], id);
      RunKeepsCall(Next(w, events[0]), events[1..], id);
    }
  }

  lemma StepOnlyMovesForward(w: World, e: Event)
    requires NotBefore(w.now, w.rotated)
    ensures NotBefore(Next(w, e).rotated, w.rotated) && NotBefore(Next(w, e).now, w.now)
    ensures NotBefore(Next(w, e).now, Next(w, e).rotated)
  {
  }

  lemma {:induction false} RunOnlyMovesForward(w: World, events: seq<Event>)
    requires NotBefore(w.now, w.rotated)
    ensures NotBefore(Run(w, events).rotated, w.rotated) && NotBefore(Run(w, events).now, w.now)
    decreases events
  {
    if events == [] {
    } else {
      StepOnlyMovesForward(w, events[0]);
      hide Next;
      RunOnlyMovesForward(Next(w, events[0]), events[1..]);
    }
  }

  // The heart of the protocol: whatever is stored under a generation in hand was computed from
  // settings read after every invalidation that had finished when the call started, also after
  // every one that had finished when the call returned, unless it returned its own candidate
  // because the key it re-read was gone, and in any case after the generation became visible.
  lemma ReadIsFresh(events: seq<Event>, id: Id, kind: Kind)
    requires var w := Run(START, events); GenInHand(At(w, id)) && (kind, At(w, id).gen) in w.results
    ensures var w := Run(START, events); var a := At(w, id); var read := w.results[(kind, a.gen)];
      && NotBefore(read, a.startFloor)
      && (!a.fallback ==> NotBefore(read, a.floor))
      && a.gen in w.known && NotBefore(read, w.known[a.gen])
  {
    RunKeepsInv(START, events);
    assert HandOk(Run(START, events), id);
  }

  lemma {:induction false} RunSplits(w: World, a: seq<Event>, b: seq<Event>)
    ensures Run(w, a + b) == Run(Run(w, a), b)
    decreases a
  {
    if a == [] {
      assert a + b == b;
    } else {
      assert (a + b)[1..] == a[1..] + b;
      RunSplits(Next(w, a[0]), a[1..], b);
    }
  }

  // Trace form, for a call that starts after the invalidation by x has finished: in any run
  // whatsoever, losses of the generation key included, a result it can read was computed from
  // settings read at or after the step that finished the invalidation.
  lemma StartedAfterInvalidation(before: seq<Event>, x: Id, between: seq<Event>, after: seq<Event>, id: Id, kind: Kind)
    requires At(Run(START, before), x).Cleared?
    requires At(Run(START, before + [Rotate(x)] + between), id).Idle?
    requires Stays(after, id)
    requires var w := Run(START, before + [Rotate(x)] + between + [BeginGet(id)] + after);
      GenInHand(At(w, id)) && (kind, At(w, id).gen) in w.results
    ensures var w := Run(START, before + [Rotate(x)] + between + [BeginGet(id)] + after);
      NotBefore(w.results[(kind, At(w, id).gen)], Run(START, before).now)
  {
    var w0, w1 := RotatedBy(before, x, between);
    JoinRuns(before + [Rotate(x)] + between, BeginGet(id), after);
    RunKeepsCall(Next(w1, BeginGet(id)), after, id);
    ReadIsFresh(before + [Rotate(x)] + between + [BeginGet(id)] + after, id, kind);
  }

  lemma JoinRuns(first: seq<Event>, e: Event, rest: seq<Event>)
    ensures Run(START, first + [e] + rest) == Run(Next(Run(START, first), e), rest)
  {
    RunSplits(START, first, [e] + rest);
    assert first + ([e] + rest) == first + [e] + rest;
    assert ([e] + rest)[1..] == rest;
  }

  // Nothing under generation g is older than since, and nothing that is ever computed under it will be.
  ghost predicate Clean(w: World, g: Gen, since: Stamp) {
    && NotBefore(w.now, since)
    && (forall kind :: (kind, g) in w.results ==> NotBefore(w.results[(kind, g)], since))
    && (forall a :: FreshLoad(w, a, g, since))
  }

  predicate FreshLoad(w: World, a: Id, g: Gen, since: Stamp) {
    At(w, a).Loaded? && At(w, a).gen == g ==> NotBefore(At(w, a).readAt, since)
  }

  lemma StepKeepsClean(w: World, e: Event, g: Gen, since: Stamp)
    requires Clean(w, g, since)
    ensures Clean(Next(w, e), g, since)
  {
    var v := Next(w, e);
    forall a ensures FreshLoad(v, a, g, since) {
      assert FreshLoad(w, a, g, since);
    }
    forall kind | (kind, g) in v.results ensures NotBefore(v.results[(kind, g)], since) {
      if e.Put? {
        assert FreshLoad(w, e.id, g, since);
      }
    }
  }

  lemma {:induction false} RunKeepsClean(w: World, events: seq<Event>, g: Gen, since: Stamp)
    requires Clean(w, g, since)
    ensures Clean(Run(w, events), g, since)
    decreases events
  {
    if events == [] {
    } else {
      StepKeepsClean(w, events[0], g, since);
      hide Next, Clean;
      RunKeepsClean(Next(w, events[0]), events[1..], g, since);
    }
  }

  // What id finds under its generation, now or after any further events that leave it its call.
  ghost predicate ReadsFresh(w: World, id: Id, kind: Kind, since: Stamp) {
    GenInHand(At(w, id)) && (kind, At(w, id).gen) in w.results ==>
      NotBefore(w.results[(kind, At(w, id).gen)], since)
  }

  ghost predicate ReadsFreshAfter(w: World, after: seq<Event>, id: Id, kind: Kind, since: Stamp) {
    ReadsFresh(Run(w, after), id, kind, since)
  }

  ghost predicate AlwaysReadsFresh(w: World, id: Id, since: Stamp) {
    forall after, kind :: Stays(after, id) ==> ReadsFreshAfter(w, after, id, kind, since)
  }

  // For a caller with a generation in hand, being clean is exactly what makes every later read fresh.
  lemma CleanIffFresh(w: World, id: Id, since: Stamp)
    requires GenInHand(At(w, id)) && !At(w, id).Loaded? && NotBefore(w.now, since)
    ensures AlwaysReadsFresh(w, id, since) <==> Clean(w, At(w, id).gen, since)
  {
    var g := At(w, id).gen;
    if Clean(w, g, since) {
      forall after, kind | Stays(after, id) ensures ReadsFreshAfter(w, after, id, kind, since) {
        RunKeepsCall(w, after, id);
        RunKeepsClean(w, after, g, since);
      }
    }
    if AlwaysReadsFresh(w, id, since) {
      forall kind | (kind, g) in w.results ensures NotBefore(w.results[(kind, g)], since) {
        assert Stays([], id) && Run(w, []) == w;
        assert ReadsFreshAfter(w, [], id, kind, since);
      }
      forall a ensures FreshLoad(w, a, g, since) {
        if At(w, a).Loaded? && At(w, a).gen == g {
          PutShows(w, a);
          assert Stays([Put(a, 0)], id);
          assert ReadsFreshAfter(w, [Put(a, 0)], id, 0, since);
        }
      }
    }
  }

  lemma PutShows(w: World, a: Id)
    requires At(w, a).Loaded?
    ensures var v := Run(w, [Put(a, 0)]);
      v.actors == w.actors && (0, At(w, a).gen) in v.results && v.results[(0, At(w, a).gen)] == At(w, a).readAt
  {
    assert [Put(a, 0)][1..] == [];
    assert Run(w, [Put(a, 0)]) == Run(Next(w, Put(a, 0)), []);
  }

  // A generation that is current is never older than the last rotation, nor is anything under it.
  lemma CurrentIsClean(w: World, since: Stamp)
    requires Inv(w) && NotBefore(w.rotated, since) && w.current.Some?
    ensures Clean(w, w.current.value, since)
  {
    forall a ensures FreshLoad(w, a, w.current.value, since) {
      assert HandOk(w, a);
    }
  }

  // The last read either finds a generation, or falls back to a candidate under which nothing stale
  // is stored or under way: exactly then can the caller never be served a stale result.
  lemma TakeFreshIff(w: World, id: Id, since: Stamp)
    requires Inv(w) && NotBefore(w.rotated, since) && At(w, id).Offered?
    ensures AlwaysReadsFresh(Next(w, Take(id)), id, since)
      <==> w.current.Some? || Clean(w, At(w, id).candidate, since)
  {
    var v := Next(w, Take(id));
    assert NotBefore(v.now, since);
    CleanIffFresh(v, id, since);
    if w.current.Some? {
      CurrentIsClean(w, since);
      StepKeepsClean(w, Take(id), w.current.value, since);
    } else {
      TakeKeepsLoads(w, id, At(w, id).candidate, since);
    }
  }

  lemma TakeKeepsLoads(w: World, id: Id, g: Gen, since: Stamp)
    requires NotBefore(w.now, since) && At(w, id).Offered?
    ensures Clean(Next(w, Take(id)), g, since) <==> Clean(w, g, since)
  {
    var v := Next(w, Take(id));
    if Clean(v, g, since) {
      forall a ensures FreshLoad(w, a, g, since) {
        assert FreshLoad(v, a, g, since);
      }
    }
    if Clean(w, g, since) {
      StepKeepsClean(w, Take(id), g, since);
    }
  }

  // Trace form, for a call already under way when the invalidation by x finished: in all
  // continuations it reads only results computed from settings read after the invalidation, if and
  // only if its final read finds a generation, or falls back to a candidate under which no result
  // computed from older settings is stored or about to be stored.
  lemma ReturnedAfterInvalidation(before: seq<Event>, x: Id, between: seq<Event>, id: Id)
    requires At(Run(START, before), x).Cleared?
    requires At(Run(START, before + [Rotate(x)] + between), id).Offered?
    ensures var since := Run(START, before).now; var w := Run(START, before + [Rotate(x)] + between);
      (forall after, kind :: Stays(after, id) ==>
         ReadsFreshAfter(START, before + [Rotate(x)] + between + [Take(id)] + after, id, kind, since))
      <==> w.current.Some? || Clean(w, At(w, id).candidate, since)
  {
    hide Step, Run, Clean, ReadsFresh;
    var w0, w1 := RotatedBy(before, x, between);
    RunKeepsInv(START, before + [Rotate(x)] + between);
    TakeFreshIff(w1, id, w0.now);
    var v := Next(w1, Take(id));
    forall after, kind
      ensures ReadsFreshAfter(START, before + [Rotate(x)] + between + [Take(id)] + after, id, kind, w0.now)
        <==> ReadsFreshAfter(v, after, id, kind, w0.now)
    {
      JoinRuns(before + [Rotate(x)] + between, Take(id), after);
    }
  }

  lemma RotatedBy(before: seq<Event>, x: Id, between: seq<Event>) returns (w0: World, w1: World)
    requires At(Run(START, before), x).Cleared?
    ensures w0 == Run(START, before) && w1 == Run(START, before + [Rotate(x)] + between)
    ensures w1 == Run(Next(w0, Rotate(x)), between)
    ensures NotBefore(w1.rotated, w0.now)
  {
    w0 := Run(START, before);
    JoinRuns(before, Rotate(x), between);
    w1 := Run(Next(w0, Rotate(x)), between);
    RunOnlyMovesForward(Next(w0, Rotate(x)), between);
  }

  // The key is not lost while a caller is between its offer and its final read: so it is when the
  // store's operations never hand over to another caller, for the offer leaves the key in place.
  predicate KeepsTogether(w: World, e: Event, id: Id) {
    At(w, id).Offered? ==> e != LoseGen
  }

  ghost predicate Unbroken(w: World, events: seq<Event>)
    decreases events
  {
    events != [] ==>
      (forall id :: KeepsTogether(w, events[0], id)) && Unbroken(Next(w, events[0]), events[1..])
  }

  // Whoever has made its offer will find a generation, and nobody has had to fall back.
  ghost predicate Anchored(w: World, id: Id) {
    (At(w, id).Offered? ==> w.current.Some?) && (GenInHand(At(w, id)) ==> !At(w, id).fallback)
  }

  lemma StepKeepsAnchored(w: World, e: Event, id: Id)
    requires Anchored(w, id) && KeepsTogether(w, e, id)
    ensures Anchored(Next(w, e), id)
  {
  }

  lemma {:induction false} RunKeepsAnchored(w: World, events: seq<Event>, id: Id)
    requires Anchored(w, id) && Unbroken(w, events)
    ensures Anchored(Run(w, events), id)
    decreases events
  {
    if events == [] {
    } else {
      assert KeepsTogether(w, events[0], id);
      StepKeepsAnchored(w, events[0], id);
      hide Next, Anchored;
      RunKeepsAnchored(Next(w, events[0]), events[1..], id);
    }
  }

  // Then there is no gap: nobody ever falls back, and every result a caller can read was computed from
  // settings read after every invalidation that had finished when the caller got its generation.
  lemma UnbrokenReadIsFresh(events: seq<Event>, id: Id, kind: Kind)
    requires Unbroken(START, events)
    requires var w := Run(START, events); GenInHand(At(w, id)) && (kind, At(w, id).gen) in w.results
    ensures var w := Run(START, events); var a := At(w, id);
      !a.fallback && NotBefore(w.results[(kind, a.gen)], a.floor)
  {
    RunKeepsAnchored(START, events, id);
    ReadIsFresh(events, id, kind);
  }

  // On a store whose operations suspend there is a gap: candidate 0 becomes visible, a computation
  // reads the old settings under it, the settings are saved and the invalidation finishes, the key
  // is lost, and the final read falls back to candidate 0, under which the old result then appears.
  lemma FallbackCanServeStale()
    ensures var before := [BeginGet(0), Offer(0), BeginGet(1), Load(1)] + [Save, BeginInvalidate(2), ClearOld(2)];
      var w0 := Run(START, before);
      var w := Run(START, before + [Rotate(2)] + [LoseGen, Take(0), Put(1, 0)]);
      && At(w0, 2).Cleared? && GenInHand(At(w, 0)) && At(w, 0).fallback
      && (0, At(w, 0).gen) in w.results
      && w.results[(0, At(w, 0).gen)].saves < w0.now.saves
  {
    hide Step;
    var before := [BeginGet(0), Offer(0), BeginGet(1), Load(1)] + [Save, BeginInvalidate(2), ClearOld(2)];
    var w1 := ShareCandidate();
    var w0 := SaveAndInvalidate(w1);
    RunSplits(START, [BeginGet(0), Offer(0), BeginGet(1), Load(1)], [Save, BeginInvalidate(2), ClearOld(2)]);
    JoinRuns(before, Rotate(2), [LoseGen, Take(0), Put(1, 0)]);
    FallBack(w0);
  }

  lemma ShareCandidate() returns (w: World)
    ensures w == Run(START, [BeginGet(0), Offer(0), BeginGet(1), Load(1)])
    ensures w.now == Stamp(4, 0) && w.current == Some(0) && w.results == map[]
    ensures At(w, 0).Offered? && At(w, 0).candidate == 0 && At(w, 1).Loaded? && At(w, 1).gen == 0 && At(w, 2).Idle?
    ensures At(w, 1).readAt == Stamp(3, 0) && w.nextGen == 2
  {
    w := Next(Next(Next(Next(START, BeginGet(0)), Offer(0)), BeginGet(1)), Load(1));
    RunFour(START, BeginGet(0), Offer(0), BeginGet(1), Load(1));
  }

  lemma SaveAndInvalidate(w1: World) returns (w: World)
    requires At(w1, 2).Idle? && w1.now == Stamp(4, 0)
    ensures w == Run(w1, [Save, BeginInvalidate(2), ClearOld(2)])
    ensures At(w, 2).Cleared? && At(w, 0) == At(w1, 0) && At(w, 1) == At(w1, 1) && w.now == Stamp(7, 1)
  {
    w := Next(Next(Next(w1, Save), BeginInvalidate(2)), ClearOld(2));
    RunThree(w1, Save, BeginInvalidate(2), ClearOld(2));
  }

  lemma FallBack(w0: World)
    requires At(w0, 2).Cleared? && At(w0, 0).Offered? && At(w0, 1).Loaded? && At(w0, 1).gen == At(w0, 0).candidate
    ensures var w := Run(Next(w0, Rotate(2)), [LoseGen, Take(0), Put(1, 0)]);
      && At(w, 0).Holding? && At(w, 0).gen == At(w0, 0).candidate && At(w, 0).fallback
      && (0, At(w, 0).gen) in w.results && w.results[(0, At(w, 0).gen)] == At(w0, 1).readAt
  {
    RunThree(Next(w0, Rotate(2)), LoseGen, Take(0), Put(1, 0));
  }

  lemma RunThree(w: World, a: Event, b: Event, c: Event)
    ensures Run(w, [a, b, c]) == Next(Next(Next(w, a), b), c)
  {
    hide Next;
    assert [a, b, c][1..] == [b, c] && [b, c][1..] == [c] && [c][1..] == [];
    var v := Next(w, a);
    assert Run(w, [a, b, c]) == Run(v, [b, c]);
    assert Run(v, [b, c]) == Run(Next(v, b), [c]);
    assert Run(Next(v, b), [c]) == Run(Next(Next(v, b), c), []);
  }

  lemma RunFour(w: World, a: Event, b: Event, c: Event, d: Event)
    ensures Run(w, [a, b, c, d]) == Next(Next(Next(Next(w, a), b), c), d)
  {
    hide Next;
    assert [a, b, c, d][1..] == [b, c, d];
    RunThree(Next(w, a), b, c, d);
  }

  // ------------------------------------------------------------------ what the token is for

  // Until a rotation or a loss, every caller gets the one current generation, so results are
  // shared; callers arriving with the key in place never take the slow path.
  lemma {:induction false} SharedUntilRotated(w: World, events: seq<Event>, id: Id)
    requires w.current.Some?
    requires forall e :: e in events ==> !e.Rotate? && !e.LoseGen?
    ensures var v := Run(w, events);
      && v.current == w.current
      && (At(v, id).Idle? ==> At(Step(v, BeginGet(id)), id) == Holding(w.current.value, v.rotated, v.rotated, false))
      && (At(v, id).Offered? ==> At(Step(v, Take(id)), id).Holding? && At(Step(v, Take(id)), id).gen == w.current.value)
    decreases events
  {
    if events == [] {
    } else {
      assert events[0] in events;
      SharedUntilRotated(Next(w, events[0]), events[1..], id);
    }
  }

  // An invalidation that runs undisturbed leaves no result under the generation it found,
  // keeps all others, and installs a generation nobody has used.
  lemma UndisturbedInvalidation(w: World, x: Id)
    requires Inv(w) && At(w, x).Idle?
    ensures var v := Run(w, [BeginInvalidate(x), ClearOld(x), Rotate(x)]);
      && v.current.Some? && v.current.value !in w.known && w.current != v.current
      && (forall key :: key in v.results <==> key in w.results && w.current != Some(key.1))
      && (forall key :: key in v.results ==> v.results[key] == w.results[key] && v.current != Some(key.1))
      && (forall id :: At(v, id) == At(w, id))
  {
    RunThree(w, BeginInvalidate(x), ClearOld(x), Rotate(x));
    ClearedWorld(w, x);
    var w2 := Next(Next(w, BeginInvalidate(x)), ClearOld(x));
    hide Next, Run, Inv;
    RotateWorld(w2, x);
  }

  lemma ClearedWorld(w: World, x: Id)
    requires Inv(w) && At(w, x).Idle?
    ensures var v := Next(Next(w, BeginInvalidate(x)), ClearOld(x));
      && At(v, x).Cleared? && v.known == w.known && v.nextGen == w.nextGen
      && (forall key :: key in v.results <==> key in w.results && w.current != Some(key.1))
      && (forall key :: key in v.results ==> v.results[key] == w.results[key] && key.1 < w.nextGen)
      && (forall id :: id != x ==> At(v, id) == At(w, id))
      && (w.current.Some? ==> w.current.value < w.nextGen)
      && (forall g :: g in w.known ==> g < w.nextGen)
  {
  }

  lemma RotateWorld(w: World, x: Id)
    requires At(w, x).Cleared?
    ensures var v := Next(w, Rotate(x));
      && v.current == Some(w.nextGen) && v.results == w.results
      && At(v, x).Idle? && (forall id :: id != x ==> At(v, id) == At(w, id))
  {
  }
}
