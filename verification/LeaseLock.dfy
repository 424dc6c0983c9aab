// The in-process lease lock: SET NX EX to acquire, re-read then delete to release, and the
// bounded wait of callers that lost the race. The lock is first written against the cache
// store, then its acquire, re-read and delete steps are interleaved among any number of
// callers with the passing of time and the loss of the key.
module LeaseLock {
  import opened Basics
  import opened CacheStores
  import CacheRuns

  // ------------------------------------------------------------------ on the cache store

  // What anyone can read under the lock key from time now on.
  ghost predicate SameLock(s: Store, t: Store, key: Key, now: Time) {
    forall at :: at >= now ==> Peek(s, key, at) == Peek(t, key, at)
  }

  method TryLock(cache: CacheStore, key: Key, token: string, ttl: int, now: Time) returns (acquired: bool)
    requires cache.Valid() && ttl > 0
    modifies cache
    ensures cache.Valid()
    ensures acquired <==> old(Peek(cache.State(), key, now)).None?
    ensures !acquired ==> cache.State() == old(cache.State())
    ensures acquired ==> forall at :: at >= now ==>
      Peek(cache.State(), key, at) == if at < now + ttl then Some(token) else None
  {
    ghost var before := cache.State();
    acquired := cache.Set(key, token, true, Some(ttl), now);
    if acquired {
      CacheRuns.SetStep(before, key, token, true, Some(ttl), now, MAX_ENTRIES, key);
    }
  }

  // The re-read on leaving: it tells whether the own token is stored, and no reader can notice it.
  method ReadsOwn(cache: CacheStore, key: Key, token: string, now: Time) returns (own: bool)
    requires cache.Valid()
    modifies cache
    ensures cache.Valid()
    ensures own <==> old(Peek(cache.State(), key, now)) == Some(token)
    ensures SameLock(old(cache.State()), cache.State(), key, now)
  {
    ghost var before := cache.State();
    FindWithout(before.entries, key, key);
    if Held(before, key, now) {
      FindAppend(Without(before.entries, key), Find(before.entries, key).value, key);
    }
    var current := cache.Get(key, now);
    own := current == Some(token);
  }

  // The delete that follows, whatever has happened to the store in between.
  method Release(cache: CacheStore, key: Key)
    requires cache.Valid()
    modifies cache
    ensures cache.Valid()
    ensures forall at :: Peek(cache.State(), key, at).None?
    ensures forall k, at :: k != key ==> Peek(cache.State(), k, at) == old(Peek(cache.State(), k, at))
  {
    ghost var before := cache.State();
    cache.Delete([key]);
    forall k, at ensures Peek(cache.State(), k, at) == if k == key then None else Peek(before, k, at) {
      FindWithoutAll(before.entries, [key], k);
    }
  }

  // Both without a pause: only the lock this caller wrote is deleted; any other value, or none, is
  // left as it was.
  method Unlock(cache: CacheStore, key: Key, token: string, now: Time)
    requires cache.Valid()
    modifies cache
    ensures cache.Valid()
    ensures old(Peek(cache.State(), key, now)) == Some(token) ==> forall at :: Peek(cache.State(), key, at).None?
    ensures old(Peek(cache.State(), key, now)) != Some(token) ==> SameLock(old(cache.State()), cache.State(), key, now)
  {
    var own := ReadsOwn(cache, key, token, now);
    if own {
      Release(cache, key);
    }
  }

  // A lock that is still running and that nobody deleted is missing only after at least as many
  // other keys as the store holds were set or hit since the lock was last written or read.
  lemma LostOnlyUnderPressure(calls: seq<CacheRuns.Call>, key: Key, token: string, ttl: int, taken: Time, now: Time)
    requires CacheRuns.Clocked(calls, now) && now < taken + ttl
    requires CacheRuns.LastWrite(calls, key, MAX_ENTRIES) == Some(Written(key, token, Some(ttl), taken))
    ensures var seen := Peek(CacheRuns.Run(calls, MAX_ENTRIES), key, now);
      seen == Some(token) || (seen == None && |CacheRuns.OthersSince(calls, key, MAX_ENTRIES)| >= MAX_ENTRIES)
  {
    CacheRuns.Refines(calls, key, MAX_ENTRIES, now);
  }

  // ------------------------------------------------------------------ the interleaved lock

  type Id = nat
  type Token = nat // uuid4 modelled as a fresh counter

  datatype Lease = Lease(owner: Token, expires: Time)

  datatype Phase =
    | Outside
    | Inside(lease: Lease) // the body is running
    | Checked(lease: Lease) // the re-read found the own token; the delete is still to come

  datatype World = World(now: Time, nextToken: Token, lease: Option<Lease>, phases: map<Id, Phase>)

  datatype Event =
    | Wait(d: nat)
    | Acquire(id: Id)
    | Leave(id: Id)
    | Delete(id: Id)
    | Lose // the key is evicted

  function At(w: World, id: Id): Phase {
    if id in w.phases then w.phases[id] else Outside
  }

  predicate Running(l: Lease, now: Time) {
    now < l.expires
  }

  function Next(w: World, e: Event, ttl: int): World {
    match e
    case Wait(d) => w.(now := w.now + d)
    case Acquire(id) =>
      var taken := w.lease.Some? && Running(w.lease.value, w.now);
      if !At(w, id).Outside? then w
      else if taken then w.(nextToken := w.nextToken + 1)
      else
        var l := Lease(w.nextToken, w.now + ttl);
        w.(nextToken := w.nextToken + 1, lease := Some(l), phases := w.phases[id := Inside(l)])
    case Leave(id) =>
      var p := At(w, id);
      if !p.Inside? then w
      else if w.lease.Some? && Running(w.lease.value, w.now) && w.lease.value.owner == p.lease.owner
      then w.(phases := w.phases[id := Checked(p.lease)])
      else w.(phases := w.phases[id := Outside])
    case Delete(id) =>
      if !At(w, id).Checked? then w
      else w.(lease := None, phases := w.phases[id := Outside])
    case Lose => w.(lease := None)
  }

  function Run(w: World, events: seq<Event>, ttl: int): World
    decreases events
  {
    if events == [] then w else Run(Next(w, events[0], ttl), events[1..], ttl)
  }

  const START := World(0, 0, None, map[])

  predicate InLock(p: Phase) {
    p.Inside? || p.Checked?
  }

  // The holder is in the lock and its lease has not run out.
  predicate Holds(w: World, id: Id) {
    InLock(At(w, id)) && Running(At(w, id).lease, w.now)
  }

  // A delete that takes away a running lock which is not the caller's own.
  predicate TakesAway(w: World, e: Event) {
    && e.Delete? && At(w, e.id).Checked?
    && w.lease.Some? && Running(w.lease.value, w.now) && w.lease.value.owner != At(w, e.id).lease.owner
  }

  // No eviction, and no delete takes away somebody else's running lock.
  ghost predicate Undisturbed(w: World, events: seq<Event>, ttl: int)
    decreases events
  {
    events != [] ==>
      events[0] != Lose && !TakesAway(w, events[0]) && Undisturbed(Next(w, events[0], ttl), events[1..], ttl)
  }

  // No eviction, and no lease runs out between a re-read and the delete that follows it.
  ghost predicate PromptRelease(w: World, events: seq<Event>, ttl: int)
    decreases events
  {
    && Prompt(w)
    && (events != [] ==> events[0] != Lose && PromptRelease(Next(w, events[0], ttl), events[1..], ttl))
  }

  // A lease expires ttl after it was acquired.
  predicate OutInTime(w: World, id: Id, hold: nat, ttl: int) {
    InLock(At(w, id)) ==> w.now <= At(w, id).lease.expires - ttl + hold
  }

  ghost predicate AllOut(w: World, hold: nat, ttl: int) {
    forall id :: OutInTime(w, id, hold, ttl)
  }

  // No eviction, and every caller is out of the lock within hold ticks of acquiring it.
  ghost predicate HeldAtMost(w: World, events: seq<Event>, hold: nat, ttl: int)
    decreases events
  {
    && AllOut(w, hold, ttl)
    && (events != [] ==> events[0] != Lose && HeldAtMost(Next(w, events[0], ttl), events[1..], hold, ttl))
  }

  // The stored lock carries a token already issued; if the token is this caller's, so is the lease.
  ghost predicate Known(w: World, id: Id) {
    InLock(At(w, id)) ==>
      && At(w, id).lease.owner < w.nextToken
      && (w.lease.Some? && w.lease.value.owner == At(w, id).lease.owner ==> w.lease.value == At(w, id).lease)
  }

  ghost predicate Apart(w: World, a: Id, b: Id) {
    a != b && InLock(At(w, a)) && InLock(At(w, b)) ==> At(w, a).lease.owner != At(w, b).lease.owner
  }

  ghost predicate Inv(w: World) {
    && (w.lease.Some? ==> w.lease.value.owner < w.nextToken)
    && (forall id :: Known(w, id))
    && (forall a, b :: Apart(w, a, b))
  }

  // A holder whose lease is running owns the stored lock.
  ghost predicate Owns(w: World, id: Id) {
    Holds(w, id) ==> w.lease == Some(At(w, id).lease)
  }

  ghost predicate Exclusive(w: World) {
    forall id :: Owns(w, id)
  }

  ghost predicate Prompt(w: World) {
    forall id :: At(w, id).Checked? ==> Holds(w, id)
  }

  lemma StepKeepsInv(w: World, e: Event, ttl: int)
    requires Inv(w)
    ensures Inv(Next(w, e, ttl))
    ensures Exclusive(w) && e != Lose && !TakesAway(w, e) ==> Exclusive(Next(w, e, ttl))
  {
    var v := Next(w, e, ttl);
    forall id ensures Known(v, id) {
      assert Known(w, id);
    }
    forall a, b ensures Apart(v, a, b) {
      assert Apart(w, a, b) && Known(w, a) && Known(w, b);
    }
    if Exclusive(w) && e != Lose && !TakesAway(w, e) {
      forall id ensures Owns(v, id) {
        assert Owns(w, id) && Known(w, id);
        if e.Delete? {
          assert Known(w, e.id) && Apart(w, id, e.id);
        }
      }
    }
  }

  lemma {:induction false} RunKeepsInv(w: World, events: seq<Event>, ttl: int)
    requires Inv(w)
    ensures Inv(Run(w, events, ttl))
    ensures Exclusive(w) && Undisturbed(w, events, ttl) ==> Exclusive(Run(w, events, ttl))
    decreases events
  {
    if events == [] {
    } else {
      StepKeepsInv(w, events[0], ttl);
      hide Next, Inv, Exclusive, TakesAway;
      RunKeepsInv(Next(w, events[0], ttl), events[1..], ttl);
    }
  }

  // A caller whose lease is running when it deletes takes away nobody's lock.
  lemma PromptTakesNothing(w: World, e: Event)
    requires Inv(w) && Exclusive(w) && Prompt(w)
    ensures !TakesAway(w, e)
  {
    if e.Delete? && At(w, e.id).Checked? {
      assert Owns(w, e.id);
    }
  }

  lemma {:induction false} PromptIsUndisturbed(w: World, events: seq<Event>, ttl: int)
    requires Inv(w) && Exclusive(w) && PromptRelease(w, events, ttl)
    ensures Undisturbed(w, events, ttl)
    decreases events
  {
    if events == [] {
    } else {
      PromptTakesNothing(w, events[0]);
      StepKeepsInv(w, events[0], ttl);
      hide Next, Inv, Exclusive, Prompt, TakesAway;
      PromptIsUndisturbed(Next(w, events[0], ttl), events[1..], ttl);
    }
  }

  lemma {:induction false} HeldIsPrompt(w: World, events: seq<Event>, hold: nat, ttl: int)
    requires hold < ttl && HeldAtMost(w, events, hold, ttl)
    ensures PromptRelease(w, events, ttl)
    ensures AllOut(Run(w, events, ttl), hold, ttl)
    decreases events
  {
    forall id | At(w, id).Checked? ensures Holds(w, id) {
      assert OutInTime(w, id, hold, ttl);
    }
    if events == [] {
    } else {
      hide Next, Prompt, AllOut;
      HeldIsPrompt(Next(w, events[0], ttl), events[1..], hold, ttl);
    }
  }

  // ------------------------------------------------------------------ runs, piece by piece

  lemma RunFour(w: World, a: Event, b: Event, c: Event, d: Event, ttl: int)
    ensures Run(w, [a, b, c, d], ttl) == Next(Next(Next(Next(w, a, ttl), b, ttl), c, ttl), d, ttl)
  {
    hide Next;
    var u := Next(w, a, ttl);
    var v := Next(u, b, ttl);
    var x := Next(v, c, ttl);
    assert [a, b, c, d][1..] == [b, c, d] && [b, c, d][1..] == [c, d] && [c, d][1..] == [d] && [d][1..] == [];
    assert Run(w, [a, b, c, d], ttl) == Run(u, [b, c, d], ttl);
    assert Run(u, [b, c, d], ttl) == Run(v, [c, d], ttl);
    assert Run(v, [c, d], ttl) == Run(x, [d], ttl);
    assert Run(x, [d], ttl) == Run(Next(x, d, ttl), [], ttl);
  }

  lemma HeldFour(w: World, a: Event, b: Event, c: Event, d: Event, hold: nat, ttl: int)
    requires a != Lose && b != Lose && c != Lose && d != Lose
    requires AllOut(w, hold, ttl) && AllOut(Next(w, a, ttl), hold, ttl) && AllOut(Next(Next(w, a, ttl), b, ttl), hold, ttl)
    requires AllOut(Next(Next(Next(w, a, ttl), b, ttl), c, ttl), hold, ttl)
    requires AllOut(Next(Next(Next(Next(w, a, ttl), b, ttl), c, ttl), d, ttl), hold, ttl)
    ensures HeldAtMost(w, [a, b, c, d], hold, ttl)
  {
    hide Next, AllOut;
    var u := Next(w, a, ttl);
    var v := Next(u, b, ttl);
    var x := Next(v, c, ttl);
    assert [a, b, c, d][1..] == [b, c, d] && [b, c, d][1..] == [c, d] && [c, d][1..] == [d] && [d][1..] == [];
    assert HeldAtMost(Next(x, d, ttl), [], hold, ttl);
    assert HeldAtMost(x, [d], hold, ttl);
    assert HeldAtMost(v, [c, d], hold, ttl);
    assert HeldAtMost(u, [b, c, d], hold, ttl);
  }

  lemma {:induction false} RunSplits(w: World, a: seq<Event>, b: seq<Event>, ttl: int)
    ensures Run(w, a + b, ttl) == Run(Run(w, a, ttl), b, ttl)
    decreases a
  {
    if a == [] {
      assert a + b == b;
    } else {
      assert (a + b)[1..] == a[1..] + b;
      RunSplits(Next(w, a[0], ttl), a[1..], b, ttl);
    }
  }

  lemma {:induction false} HeldSplits(w: World, a: seq<Event>, b: seq<Event>, hold: nat, ttl: int)
    requires HeldAtMost(w, a, hold, ttl) && HeldAtMost(Run(w, a, ttl), b, hold, ttl)
    ensures HeldAtMost(w, a + b, hold, ttl)
    decreases a
  {
    hide Next, AllOut;
    if a == [] {
      assert a + b == b;
    } else {
      assert (a + b)[1..] == a[1..] + b;
      HeldSplits(Next(w, a[0], ttl), a[1..], b, hold, ttl);
    }
  }

  lemma {:induction false} HeldLonger(w: World, events: seq<Event>, hold: nat, longer: nat, ttl: int)
    requires hold <= longer && HeldAtMost(w, events, hold, ttl)
    ensures HeldAtMost(w, events, longer, ttl)
    decreases events
  {
    forall id ensures OutInTime(w, id, longer, ttl) {
      assert OutInTime(w, id, hold, ttl);
    }
    if events == [] {
    } else {
      hide Next, AllOut;
      HeldLonger(Next(w, events[0], ttl), events[1..], hold, longer, ttl);
    }
  }

  // ------------------------------------------------------------------ exclusion

  // Mutual exclusion. As long as no key is evicted and no delete takes away somebody else's running
  // lock, two callers never hold running leases at once, even if holders overran.
  lemma AtMostOneHolder(events: seq<Event>, ttl: int, a: Id, b: Id)
    requires Undisturbed(START, events, ttl)
    requires Holds(Run(START, events, ttl), a) && Holds(Run(START, events, ttl), b)
    ensures a == b
    ensures Run(START, events, ttl).lease == Some(At(Run(START, events, ttl), a).lease)
  {
    RunKeepsInv(START, events, ttl);
    assert Owns(Run(START, events, ttl), a) && Owns(Run(START, events, ttl), b);
    assert Apart(Run(START, events, ttl), a, b);
  }

  // Without evictions, the first delete that takes away somebody else's lock is a late one: the
  // lease of the caller that deletes ran out after its re-read.
  lemma FirstTakenLockIsTakenLate(events: seq<Event>, ttl: int, id: Id)
    requires Undisturbed(START, events, ttl) && TakesAway(Run(START, events, ttl), Delete(id))
    ensures !Running(At(Run(START, events, ttl), id).lease, Run(START, events, ttl).now)
  {
    RunKeepsInv(START, events, ttl);
    assert Owns(Run(START, events, ttl), id);
  }

  // Between the re-read that finds the own token and the delete nothing happens but the passing of
  // time: so it is when the store's operations never hand over to another caller.
  predicate KeepsTogether(w: World, e: Event, id: Id) {
    At(w, id).Checked? ==> e.Wait? || e == Delete(id)
  }

  ghost predicate Unbroken(w: World, events: seq<Event>, ttl: int)
    decreases events
  {
    events != [] ==>
      && events[0] != Lose && (forall id :: KeepsTogether(w, events[0], id))
      && Unbroken(Next(w, events[0], ttl), events[1..], ttl)
  }

  // What the re-read found is still stored.
  predicate StillOwn(w: World, id: Id) {
    At(w, id).Checked? ==> w.lease == Some(At(w, id).lease)
  }

  lemma StepKeepsOwn(w: World, e: Event, ttl: int, id: Id)
    requires Inv(w) && StillOwn(w, id) && e != Lose && KeepsTogether(w, e, id)
    ensures StillOwn(Next(w, e, ttl), id)
  {
    assert Known(w, id);
  }

  lemma {:induction false} UnbrokenIsUndisturbed(w: World, events: seq<Event>, ttl: int)
    requires Inv(w) && (forall id :: StillOwn(w, id)) && Unbroken(w, events, ttl)
    ensures Undisturbed(w, events, ttl)
    decreases events
  {
    if events == [] {
    } else {
      var v := Next(w, events[0], ttl);
      forall id ensures StillOwn(v, id) {
        assert StillOwn(w, id) && KeepsTogether(w, events[0], id);
        StepKeepsOwn(w, events[0], ttl, id);
      }
      if events[0].Delete? {
        assert StillOwn(w, events[0].id);
      }
      StepKeepsInv(w, events[0], ttl);
      hide Next, Inv, StillOwn;
      UnbrokenIsUndisturbed(v, events[1..], ttl);
    }
  }

  // Then exclusion needs nothing from the callers: at most one running holder in every run without
  // evictions, however long holders overrun their leases.
  lemma UnbrokenIsExclusive(events: seq<Event>, ttl: int, a: Id, b: Id)
    requires Unbroken(START, events, ttl)
    requires Holds(Run(START, events, ttl), a) && Holds(Run(START, events, ttl), b)
    ensures a == b
  {
    UnbrokenIsUndisturbed(START, events, ttl);
    AtMostOneHolder(events, ttl, a, b);
  }

  // So in a run without evictions and without late deletes, whoever is about to delete deletes its own.
  lemma DeletesOnlyItsOwn(events: seq<Event>, ttl: int, id: Id)
    requires PromptRelease(START, events, ttl)
    requires At(Run(START, events, ttl), id).Checked?
    ensures Run(START, events, ttl).lease == Some(At(Run(START, events, ttl), id).lease)
  {
    PromptIsUndisturbed(START, events, ttl);
    RunKeepsInv(START, events, ttl);
    CheckedAtEnd(START, events, ttl);
    assert Owns(Run(START, events, ttl), id);
  }

  lemma {:induction false} CheckedAtEnd(w: World, events: seq<Event>, ttl: int)
    requires PromptRelease(w, events, ttl)
    ensures Prompt(Run(w, events, ttl))
    decreases events
  {
    if events == [] {
    } else {
      hide Next, Prompt;
      CheckedAtEnd(Next(w, events[0], ttl), events[1..], ttl);
    }
  }

  // A holder that overran is harmless when it leaves: re-reading never changes the lock, and it
  // goes on to a delete only if the stored lock is its own and still running.
  lemma LeavingIsOwnerChecked(w: World, id: Id, ttl: int)
    requires Inv(w) && At(w, id).Inside?
    ensures var v := Next(w, Leave(id), ttl);
      && v.lease == w.lease
      && (At(v, id).Checked? <==> Holds(w, id) && w.lease == Some(At(w, id).lease))
  {
    assert Known(w, id);
  }

  // The stored lock is running and carries the caller's token.
  predicate SeesOwn(w: World, id: Id) {
    InLock(At(w, id)) && w.lease.Some? && Running(w.lease.value, w.now) && w.lease.value.owner == At(w, id).lease.owner
  }

  // A caller gets in, re-reads and gets out by its own events alone, whatever the others do.
  lemma PhaseChanges(w: World, e: Event, id: Id, ttl: int)
    ensures var p, q := At(w, id), At(Next(w, e, ttl), id);
      if e == Acquire(id) && p.Outside? && !(w.lease.Some? && Running(w.lease.value, w.now))
      then q.Inside? && Next(w, e, ttl).lease == Some(q.lease) && q.lease.expires == w.now + ttl
      else if e == Leave(id) && p.Inside? then q == if SeesOwn(w, id) then Checked(p.lease) else Outside
      else if e == Delete(id) && p.Checked? then q.Outside?
      else q == p
  {
  }

  // The stored lock goes away by the delete of a caller that re-read it, or by an eviction, and comes
  // by an acquisition that finds none running; nothing else touches it.
  lemma LeaseChanges(w: World, e: Event, ttl: int)
    ensures var v := Next(w, e, ttl);
      && (v.lease.None? <==> e == Lose || (e.Delete? && At(w, e.id).Checked?)
                             || (w.lease.None? && !(e.Acquire? && At(w, e.id).Outside?)))
      && (v.lease.Some? && v.lease != w.lease ==>
            e.Acquire? && At(v, e.id) == Inside(v.lease.value) && !(w.lease.Some? && Running(w.lease.value, w.now)))
  {
  }

  // A holder in time hands the lock over: when it has left, the next caller gets in at once. One that
  // has lost it is out after the re-read, and the lock of whoever has it now stays.
  lemma HandsOver(events: seq<Event>, ttl: nat, id: Id, other: Id)
    requires ttl > 0 && Undisturbed(START, events, ttl)
    requires var w := Run(START, events, ttl); At(w, id).Inside? && At(w, other).Outside?
    ensures var w := Run(START, events, ttl); var read := Next(w, Leave(id), ttl); var out := Next(read, Delete(id), ttl);
      && At(out, id).Outside?
      && (if Holds(w, id) then out.lease.None? && Holds(Next(out, Acquire(other), ttl), other)
          else At(read, id).Outside? && out.lease == w.lease)
  {
    RunKeepsInv(START, events, ttl);
    var w := Run(START, events, ttl);
    assert Known(w, id) && Owns(w, id);
  }

  // On a store whose operations suspend, late deletes happen at every lease length: caller 0 re-reads
  // with one unit left, the lease runs out, caller 1 acquires, caller 0 deletes caller 1's lock, and
  // caller 2 enters beside caller 1 while both leases are running.
  function LateRun(ttl: nat): seq<Event>
    requires ttl >= 1
  {
    [Acquire(0), Wait(ttl - 1), Leave(0), Wait(1)] + [Acquire(1), Delete(0), Acquire(2), Wait(0)]
  }

  lemma LateDeleteBreaksExclusion(ttl: nat)
    requires ttl >= 1
    ensures Holds(Run(START, LateRun(ttl), ttl), 1) && Holds(Run(START, LateRun(ttl), ttl), 2)
    ensures HeldAtMost(START, LateRun(ttl), ttl, ttl)
  {
    var a := [Acquire(0), Wait(ttl - 1), Leave(0), Wait(1)];
    var b := [Acquire(1), Delete(0), Acquire(2), Wait(0)];
    RunSplits(START, a, b, ttl);
    RunFour(START, Acquire(0), Wait(ttl - 1), Leave(0), Wait(1), ttl);
    HeldFour(START, Acquire(0), Wait(ttl - 1), Leave(0), Wait(1), ttl, ttl);
    var w := Run(START, a, ttl);
    RunFour(w, Acquire(1), Delete(0), Acquire(2), Wait(0), ttl);
    HeldFour(w, Acquire(1), Delete(0), Acquire(2), Wait(0), ttl, ttl);
    HeldSplits(START, a, b, ttl, ttl);
  }

  // Once that has happened a delete that is not late can do harm too: caller 1 re-reads before caller
  // 0's late delete, and then takes away caller 2's lock while its own lease is running.
  lemma PromptDeleteAfterLateOne(ttl: nat)
    requires ttl >= 1
    ensures var w := Run(START, [Acquire(0), Wait(ttl - 1), Leave(0), Wait(1)]
                              + [Acquire(1), Leave(1), Delete(0), Acquire(2)], ttl);
      Holds(w, 1) && TakesAway(w, Delete(1))
  {
    var a := [Acquire(0), Wait(ttl - 1), Leave(0), Wait(1)];
    RunSplits(START, a, [Acquire(1), Leave(1), Delete(0), Acquire(2)], ttl);
    RunFour(START, Acquire(0), Wait(ttl - 1), Leave(0), Wait(1), ttl);
    RunFour(Run(START, a, ttl), Acquire(1), Leave(1), Delete(0), Acquire(2), ttl);
  }

  // What a caller can do about it: without evictions there is never more than one running holder if
  // and only if everybody is out of the lock before the lease is over; and then there is never more
  // than one caller in the lock at all.
  lemma ExclusiveIffOutBeforeExpiry(hold: nat, ttl: nat)
    requires ttl >= 1
    ensures (forall events, a, b :: HeldAtMost(START, events, hold, ttl) ==> NotBoth(events, a, b, ttl)) <==> hold < ttl
    ensures hold < ttl ==> forall events, a, b :: HeldAtMost(START, events, hold, ttl) ==>
      (InLockAfter(events, a, ttl) && InLockAfter(events, b, ttl) ==> a == b)
  {
    if hold < ttl {
      forall events, a, b | HeldAtMost(START, events, hold, ttl)
        ensures NotBoth(events, a, b, ttl)
        ensures InLockAfter(events, a, ttl) && InLockAfter(events, b, ttl) ==> a == b
      {
        HeldIsExclusive(events, hold, ttl, a, b);
      }
    } else {
      LateDeleteBreaksExclusion(ttl);
      HeldLonger(START, LateRun(ttl), ttl, hold, ttl);
      assert !NotBoth(LateRun(ttl), 1, 2, ttl);
    }
  }

  predicate NotBoth(events: seq<Event>, a: Id, b: Id, ttl: int) {
    Holds(Run(START, events, ttl), a) && Holds(Run(START, events, ttl), b) ==> a == b
  }

  predicate InLockAfter(events: seq<Event>, id: Id, ttl: int) {
    InLock(At(Run(START, events, ttl), id))
  }

  lemma HeldIsExclusive(events: seq<Event>, hold: nat, ttl: nat, a: Id, b: Id)
    requires hold < ttl && HeldAtMost(START, events, hold, ttl)
    ensures NotBoth(events, a, b, ttl)
    ensures InLockAfter(events, a, ttl) && InLockAfter(events, b, ttl) ==> a == b
  {
    HeldIsPrompt(START, events, hold, ttl);
    PromptIsUndisturbed(START, events, ttl);
    var w := Run(START, events, ttl);
    assert OutInTime(w, a, hold, ttl) && OutInTime(w, b, hold, ttl);
    if InLock(At(w, a)) && InLock(At(w, b)) {
      AtMostOneHolder(events, ttl, a, b);
    }
  }

  lemma {:induction false} LeaseWithinTtl(w: World, events: seq<Event>, ttl: nat)
    requires w.lease.Some? ==> w.lease.value.expires <= w.now + ttl
    ensures var v := Run(w, events, ttl); v.lease.Some? ==> v.lease.value.expires <= v.now + ttl
    decreases events
  {
    if events == [] {
    } else {
      LeaseWithinTtl(Next(w, events[0], ttl), events[1..], ttl);
    }
  }

  // The lock is never lost for ever, whatever overruns, evictions and late deletes a run holds: a
  // caller outside gets in exactly when no running lease is stored, and that is so at the latest one
  // lease length from now, if nobody else comes first.
  lemma FreeLockIsTaken(events: seq<Event>, id: Id, ttl: nat)
    requires ttl > 0 && At(Run(START, events, ttl), id).Outside?
    ensures var w := Run(START, events, ttl);
      && (Holds(Next(w, Acquire(id), ttl), id) <==> !(w.lease.Some? && Running(w.lease.value, w.now)))
      && Holds(Next(Next(w, Wait(ttl), ttl), Acquire(id), ttl), id)
  {
    LeaseWithinTtl(START, events, ttl);
  }

  // ------------------------------------------------------------------ the bounded wait

  // Poll i saw neither a cached value nor a free lock.
  predicate Blind<V>(cached: nat -> Option<V>, locked: nat -> bool, i: nat) {
    cached(i).None? && locked(i)
  }

  // A caller without the lock fetches on its own only after seeing the lock free with nothing
  // cached, or after the full number of blind polls; otherwise it returns the cached value of
  // its last poll. Nothing and nobody makes it poll more often than maxPolls.
  method SingleFlight<V>(acquired: bool, fetch: V, cached: nat -> Option<V>, locked: nat -> bool, maxPolls: nat)
    returns (result: V, fetched: bool, polls: nat)
    ensures acquired ==> fetched && polls == 0
    ensures polls <= maxPolls && forall i :: 0 <= i < polls - 1 ==> Blind(cached, locked, i)
    ensures fetched ==> result == fetch
    ensures fetched && !acquired ==>
      || (polls == maxPolls && forall i :: 0 <= i < maxPolls ==> Blind(cached, locked, i))
      || (polls > 0 && cached(polls - 1).None? && !locked(polls - 1))
    ensures !fetched ==> polls > 0 && cached(polls - 1) == Some(result)
  {
    polls := 0;
    if acquired {
      return fetch, true, 0;
    }
    for i := 0 to maxPolls
      invariant polls == i
      invariant forall j :: 0 <= j < i ==> Blind(cached, locked, j)
    {
      polls := i + 1;
      var value := cached(i);
      if value.Some? {
        return value.value, false, polls;
      }
      if !locked(i) {
        return fetch, true, polls;
      }
    }
    return fetch, true, polls;
  }
}
