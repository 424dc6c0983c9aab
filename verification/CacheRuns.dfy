// Whole runs of the cache: what a lookup can still find, and why a live key may be missing.
module CacheRuns {
  import opened Basics
  import opened CacheStores

  datatype Op =
    | Get(key: Key)
    | Set(key: Key, value: string, nx: bool, ex: Option<int>)
    | Delete(keys: seq<Key>)
    | Sweep
    | Clear

  datatype Call = Call(at: Time, op: Op)

  function Apply(s: Store, c: Call, cap: nat): Store {
    match c.op
    case Get(k) => AfterGet(s, k, c.at).0
    case Set(k, v, nx, ex) => AfterSet(s, k, v, nx, ex, c.at, cap).0
    case Delete(ks) => AfterDelete(s, ks)
    case Sweep => AfterSweep(s, c.at)
    case Clear => Store([], s.evictions)
  }

  function Run(calls: seq<Call>, cap: nat): Store {
    if calls == [] then Store([], 0)
    else Apply(Run(calls[..|calls| - 1], cap), calls[|calls| - 1], cap)
  }

  // The clock never runs backwards, and "now" is not before the last call.
  ghost predicate Clocked(calls: seq<Call>, now: Time) {
    && (forall i, j :: 0 <= i < j < |calls| ==> calls[i].at <= calls[j].at)
    && (forall i :: 0 <= i < |calls| ==> calls[i].at <= now)
  }

  // A set takes effect: without nx always, with nx exactly if nothing is readable under the key.
  predicate Effective(s: Store, k: Key, nx: bool, at: Time) {
    !nx || Peek(s, k, at).None?
  }

  // The key a call makes most recently used: a set that took effect or a get that hit.
  function TouchedBy(s: Store, c: Call): Option<Key> {
    match c.op
    case Get(k) => if Peek(s, k, c.at).Some? then Some(k) else None
    case Set(k, v, nx, ex) => if Effective(s, k, nx, c.at) then Some(k) else None
    case _ => None
  }

  // The reference TTL map at one key: the last effective write that was not deleted since.
  function LastWrite(calls: seq<Call>, k: Key, cap: nat): Option<Entry> {
    if calls == [] then None
    else
      var prefix := calls[..|calls| - 1];
      WriteAfter(LastWrite(prefix, k, cap), Run(prefix, cap), calls[|calls| - 1], k)
  }

  function WriteAfter(w: Option<Entry>, s: Store, c: Call, k: Key): Option<Entry> {
    match c.op
    case Set(key, v, nx, ex) =>
      if key == k && Effective(s, k, nx, c.at) then Some(Entry(k, v, if ex.Some? then Some(c.at + ex.value) else None))
      else w
    case Delete(ks) => if k in ks then None else w
    case Clear => None
    case _ => w
  }

  // The write has no lifetime or is still within it.
  predicate Lasts(w: Option<Entry>, now: Time) {
    w.Some? && (w.value.expiresAt.None? || now < w.value.expiresAt.value)
  }

  function Touch(others: set<Key>, key: Key, k: Key): set<Key> {
    if key == k then {} else others + {key}
  }

  // The distinct other keys touched since k itself was last touched.
  function OthersSince(calls: seq<Call>, k: Key, cap: nat): set<Key> {
    if calls == [] then {}
    else
      var prefix := calls[..|calls| - 1];
      OthersAfter(OthersSince(prefix, k, cap), TouchedBy(Run(prefix, cap), calls[|calls| - 1]), k)
  }

  function OthersAfter(others: set<Key>, touched: Option<Key>, k: Key): set<Key> {
    if touched.None? then others else Touch(others, touched.value, k)
  }

  // ------------------------------------------------------------------ order of recency

  // The keys more recently used than k.
  function Behind(es: seq<Entry>, k: Key): set<Key> {
    if es == [] then {}
    else if es[0].key == k then Keys(es[1..])
    else Behind(es[1..], k)
  }

  ghost predicate Steady(calls: seq<Call>) {
    forall c :: c in calls ==> c.op.Get? || (c.op.Set? && c.op.ex.None?)
  }

  // What is known about key k after a run: w is its last write, others the keys touched since.
  ghost predicate Tracks(s: Store, w: Option<Entry>, others: set<Key>, k: Key, cap: nat, now: Time) {
    && DistinctKeys(s.entries) && |s.entries| <= cap
    && (k in Keys(s.entries) ==> Find(s.entries, k) == w && Behind(s.entries, k) <= others)
    && (k !in Keys(s.entries) && w.Some? && !Expired(w.value, now) ==> |others| >= cap)
  }

  lemma TracksDelete(s: Store, w: Option<Entry>, others: set<Key>, ks: seq<Key>, at: Time, k: Key, cap: nat, now: Time)
    requires Tracks(s, w, others, k, cap, at) && at <= now
    ensures Tracks(AfterDelete(s, ks), if k in ks then None else w, others, k, cap, now)
  {
    DeleteStep(s.entries, ks, k);
  }

  lemma TracksSweep(s: Store, w: Option<Entry>, others: set<Key>, at: Time, k: Key, cap: nat, now: Time)
    requires Tracks(s, w, others, k, cap, at) && at <= now
    ensures Tracks(AfterSweep(s, at), w, others, k, cap, now)
  {
    UnexpiredDistinct(s.entries, at);
    UnexpiredBehind(s.entries, at, k);
  }

  lemma TracksClear(s: Store, k: Key, cap: nat, now: Time, others: set<Key>)
    ensures Tracks(Store([], s.evictions), None, others, k, cap, now)
  {
  }

  lemma TracksGet(s: Store, w: Option<Entry>, others: set<Key>, key: Key, at: Time, k: Key, cap: nat, now: Time)
    requires Tracks(s, w, others, k, cap, at) && at <= now
    ensures Tracks(AfterGet(s, key, at).0, w, if Peek(s, key, at).Some? then Touch(others, key, k) else others, k, cap, now)
  {
    GetStep(s, key, at, k);
    SubsetCount(others, others + {key});
  }

  lemma TracksSet(s: Store, w: Option<Entry>, others: set<Key>, key: Key, v: string, nx: bool, ex: Option<int>,
                  at: Time, k: Key, cap: nat, now: Time)
    requires cap >= 1 && Tracks(s, w, others, k, cap, at) && at <= now
    ensures var ok := Effective(s, key, nx, at);
      Tracks(AfterSet(s, key, v, nx, ex, at, cap).0,
             if ok && key == k then Some(Entry(k, v, if ex.Some? then Some(at + ex.value) else None)) else w,
             if ok then Touch(others, key, k) else others, k, cap, now)
  {
    hide Behind, Find, Keys, DistinctKeys, AfterEvict, Without;
    RefusedIff(s, key, v, nx, ex, at, cap);
    SetStep(s, key, v, nx, ex, at, cap, k);
    SubsetCount(others, others + {key});
    if Behind(s.entries, k) <= others {
      SubsetCount(Behind(s.entries, k) + {key}, others + {key});
    }
  }

  lemma GetStep(s: Store, key: Key, at: Time, k: Key)
    requires DistinctKeys(s.entries)
    ensures var t := AfterGet(s, key, at).0;
      && DistinctKeys(t.entries) && |t.entries| <= |s.entries|
      && (k in Keys(t.entries) ==> Find(t.entries, k) == Find(s.entries, k))
      && (k !in Keys(t.entries) && k in Keys(s.entries) ==> key == k && Expired(Find(s.entries, k).value, at))
      && (k in Keys(t.entries) && key == k ==> Behind(t.entries, k) == {} && Held(s, k, at))
      && (k in Keys(t.entries) && key != k ==>
            Behind(t.entries, k) <= Behind(s.entries, k) + if Held(s, key, at) then {key} else {})
  {
    hide Behind, Find, Keys, DistinctKeys, Without;
    WithoutDistinct(s.entries, key);
    WithoutLess(s.entries, key);
    FindWithout(s.entries, key, k);
    BehindWithout(s.entries, key, k);
    if Held(s, key, at) {
      var e := Find(s.entries, key).value;
      AppendDistinct(Without(s.entries, key), e);
      FindAppend(Without(s.entries, key), e, k);
      BehindAppend(Without(s.entries, key), e, k);
    }
  }

  lemma SetStep(s: Store, key: Key, v: string, nx: bool, ex: Option<int>, at: Time, cap: nat, k: Key)
    requires cap >= 1 && DistinctKeys(s.entries) && |s.entries| <= cap
    ensures var (t, ok) := AfterSet(s, key, v, nx, ex, at, cap);
      && DistinctKeys(t.entries) && |t.entries| <= cap
      && (!ok ==> t == s)
      && (ok && key == k && k in Keys(t.entries) ==> Find(t.entries, k) == Some(Written(key, v, ex, at)) && Behind(t.entries, k) == {})
      && (ok && key == k && k !in Keys(t.entries) ==> Expired(Written(key, v, ex, at), at))
      && (ok && key != k && k in Keys(t.entries) ==>
            Find(t.entries, k) == Find(s.entries, k) && Behind(t.entries, k) <= Behind(s.entries, k) + {key})
      && (ok && key != k && k in Keys(s.entries) && k !in Keys(t.entries) ==>
            Expired(Find(s.entries, k).value, at) || |Behind(s.entries, k) + {key}| >= cap)
  {
    hide Behind, Find, Keys, DistinctKeys, Without, AfterEvict;
    var (t, ok) := AfterSet(s, key, v, nx, ex, at, cap);
    if ok {
      var w := Without(s.entries, key);
      var e := Written(key, v, ex, at);
      WithoutDistinct(s.entries, key);
      FindWithout(s.entries, key, k);
      AppendDistinct(w, e);
      FindAppend(w, e, k);
      BehindWithout(s.entries, key, k);
      BehindAppend(w, e, k);
      if |w + [e]| > cap {
        EvictStep(s.(entries := w + [e]), at, cap, k);
        if k !in Keys(t.entries) && k in Keys(w + [e]) && !Expired(Find(w + [e], k).value, at) {
          SubsetCount(Behind(w + [e], k), Behind(s.entries, k) + {key});
        }
      }
    }
  }

  lemma EvictStep(s: Store, at: Time, cap: nat, k: Key)
    requires cap >= 1 && DistinctKeys(s.entries)
    ensures var t := AfterEvict(s, at, cap);
      && DistinctKeys(t.entries) && |t.entries| <= cap
      && (k in Keys(t.entries) ==> Find(t.entries, k) == Find(s.entries, k) && Behind(t.entries, k) <= Behind(s.entries, k))
      && (k in Keys(s.entries) && k !in Keys(t.entries) && !Expired(Find(s.entries, k).value, at) ==>
            |Behind(s.entries, k)| >= cap)
  {
    hide Behind, Find, Keys, DistinctKeys, Unexpired;
    var live := Unexpired(s.entries, at);
    var over := if |live| > cap then |live| - cap else 0;
    UnexpiredDistinct(s.entries, at);
    UnexpiredBehind(s.entries, at, k);
    BehindDrop(live, over, k);
    DropDistinct(live, over);
    if k in Keys(live) && k !in Keys(live[over..]) {
      EvictCount(live, over, k);
      SubsetCount(Behind(live, k), Behind(s.entries, k));
    }
  }

  // An entry evicted from the front has every kept entry behind it.
  lemma EvictCount(live: seq<Entry>, over: nat, k: Key)
    requires DistinctKeys(live) && over <= |live|
    requires k in Keys(live) && k !in Keys(live[over..])
    ensures |Behind(live, k)| >= |live| - over
  {
    hide Behind, Keys, DistinctKeys;
    BehindDrop(live, over, k);
    DropDistinct(live, over);
    KeysCount(live[over..]);
    SubsetCount(Keys(live[over..]), Behind(live, k));
  }

  lemma DeleteStep(es: seq<Entry>, ks: seq<Key>, k: Key)
    requires DistinctKeys(es)
    ensures var r := WithoutAll(es, ks);
      && DistinctKeys(r) && |r| <= |es|
      && Find(r, k) == (if k in ks then None else Find(es, k))
      && (k in Keys(r) ==> Behind(r, k) <= Behind(es, k))
    decreases ks
  {
    FindWithoutAll(es, ks, k);
    if ks != [] {
      WithoutDistinct(es, ks[0]);
      BehindWithout(es, ks[0], k);
      DeleteStep(Without(es, ks[0]), ks[1..], k);
      FindWithoutAll(Without(es, ks[0]), ks[1..], k);
    }
  }

  lemma TracksCall(s: Store, w: Option<Entry>, others: set<Key>, c: Call, k: Key, cap: nat, now: Time)
    requires cap >= 1 && Tracks(s, w, others, k, cap, c.at) && c.at <= now
    ensures Tracks(Apply(s, c, cap), WriteAfter(w, s, c, k), OthersAfter(others, TouchedBy(s, c), k), k, cap, now)
  {
    hide Tracks, AfterSet, AfterGet, AfterDelete, AfterSweep, Peek;
    match c.op
    case Get(key) => TracksGet(s, w, others, key, c.at, k, cap, now);
    case Set(key, v, nx, ex) => TracksSet(s, w, others, key, v, nx, ex, c.at, k, cap, now);
    case Delete(ks) => TracksDelete(s, w, others, ks, c.at, k, cap, now);
    case Sweep => TracksSweep(s, w, others, c.at, k, cap, now);
    case Clear => TracksClear(s, k, cap, now, others);
  }

  lemma {:induction false} Accounted(calls: seq<Call>, k: Key, cap: nat, now: Time)
    requires cap >= 1 && Clocked(calls, now)
    ensures Tracks(Run(calls, cap), LastWrite(calls, k, cap), OthersSince(calls, k, cap), k, cap, now)
  {
    if calls == [] {
    } else {
      hide Tracks, Apply, WriteAfter, OthersAfter, TouchedBy;
      var prefix, c := calls[..|calls| - 1], calls[|calls| - 1];
      assert Clocked(prefix, c.at) && c.at <= now;
      Accounted(prefix, k, cap, c.at);
      TracksCall(Run(prefix, cap), LastWrite(prefix, k, cap), OthersSince(prefix, k, cap), c, k, cap, now);
    }
  }

  // ------------------------------------------------------------------ facts about Behind

  lemma {:induction false} BehindWithout(es: seq<Entry>, gone: Key, k: Key)
    requires DistinctKeys(es)
    ensures gone != k ==> Behind(Without(es, gone), k) == Behind(es, k) - {gone}
  {
    if es == [] {
    } else {
      BehindWithout(es[1..], gone, k);
    }
  }

  lemma {:induction false} BehindAppend(es: seq<Entry>, e: Entry, k: Key)
    ensures k in Keys(es) ==> Behind(es + [e], k) == Behind(es, k) + {e.key}
    ensures k !in Keys(es) ==> Behind(es + [e], k) == {}
  {
    if es == [] {
    } else {
      assert (es + [e])[1..] == es[1..] + [e];
      AppendDistinct(es[1..], e);
      BehindAppend(es[1..], e, k);
    }
  }

  lemma {:induction false} UnexpiredBehind(es: seq<Entry>, at: Time, k: Key)
    requires DistinctKeys(es)
    ensures k in Keys(Unexpired(es, at)) ==> Find(Unexpired(es, at), k) == Find(es, k)
    ensures k in Keys(es) && k !in Keys(Unexpired(es, at)) ==> Expired(Find(es, k).value, at)
    ensures k in Keys(Unexpired(es, at)) ==> Behind(Unexpired(es, at), k) <= Behind(es, k)
  {
    if es == [] {
    } else {
      UnexpiredBehind(es[1..], at, k);
    }
  }

  lemma {:induction false} BehindDrop(es: seq<Entry>, n: nat, k: Key)
    requires DistinctKeys(es) && n <= |es|
    ensures k in Keys(es[n..]) ==> Behind(es[n..], k) == Behind(es, k) && Find(es[n..], k) == Find(es, k)
    ensures k in Keys(es) && k !in Keys(es[n..]) ==> Keys(es[n..]) <= Behind(es, k)
  {
    if n == 0 {
      assert es[0..] == es;
    } else {
      assert es[1..][n - 1..] == es[n..];
      BehindDrop(es[1..], n - 1, k);
      DropDistinct(es[1..], n - 1);
    }
  }

  lemma {:induction false} BehindIsSmall(es: seq<Entry>, k: Key)
    requires DistinctKeys(es)
    ensures k in Keys(es) ==> |Behind(es, k)| < |es|
  {
    if es == [] {
    } else {
      BehindIsSmall(es[1..], k);
      KeysCount(es[1..]);
    }
  }

  lemma {:induction false} KeysCount(es: seq<Entry>)
    requires DistinctKeys(es)
    ensures |Keys(es)| == |es|
  {
    if es == [] {
    } else {
      KeysCount(es[1..]);
    }
  }

  lemma {:induction false} UnexpiredMembers(es: seq<Entry>, at: Time)
    ensures forall e :: e in Unexpired(es, at) ==> e in es && !Expired(e, at)
  {
    if es == [] {
    } else {
      UnexpiredMembers(es[1..], at);
    }
  }

  lemma {:induction false} AllUnexpired(es: seq<Entry>, at: Time)
    requires forall e :: e in es ==> !Expired(e, at)
    ensures Unexpired(es, at) == es
  {
    if es == [] {
    } else {
      AllUnexpired(es[1..], at);
    }
  }

  lemma ExactWhenTracked(s: Store, w: Option<Entry>, others: set<Key>, k: Key, cap: nat, now: Time)
    requires Tracks(s, w, others, k, cap, now)
    requires w.Some? && w.value.expiresAt.None?
    requires k in Keys(s.entries) ==> others <= Behind(s.entries, k)
    ensures Peek(s, k, now).Some? <==> |others| < cap
  {
    BehindIsSmall(s.entries, k);
    if k in Keys(s.entries) {
      assert others == Behind(s.entries, k);
    }
  }

  ghost predicate Timeless(es: seq<Entry>) {
    forall e :: e in es ==> e.expiresAt.None?
  }

  // In a steady run the dictionary order behind k is exactly the set of keys touched since.
  lemma {:induction false} SteadyOrder(calls: seq<Call>, k: Key, cap: nat, now: Time)
    requires cap >= 1 && Clocked(calls, now) && Steady(calls)
    ensures var es := Run(calls, cap).entries;
      && Timeless(es)
      && (k in Keys(es) ==> OthersSince(calls, k, cap) <= Behind(es, k))
      && (LastWrite(calls, k, cap).Some? ==> LastWrite(calls, k, cap).value.expiresAt.None?)
  {
    if calls == [] {
    } else {
      var prefix, c := calls[..|calls| - 1], calls[|calls| - 1];
      assert Clocked(prefix, now) && Steady(prefix);
      assert c in calls;
      SteadyOrder(prefix, k, cap, now);
      Accounted(prefix, k, cap, now);
      SteadyStep(Run(prefix, cap), OthersSince(prefix, k, cap), c, k, cap);
    }
  }

  lemma SteadyStep(s: Store, others: set<Key>, c: Call, k: Key, cap: nat)
    requires c.op.Get? || (c.op.Set? && c.op.ex.None?)
    requires DistinctKeys(s.entries) && Timeless(s.entries)
    requires k in Keys(s.entries) ==> others <= Behind(s.entries, k)
    ensures var es, t := Apply(s, c, cap).entries, TouchedBy(s, c);
      && Timeless(es)
      && (k in Keys(es) ==> (if t.Some? then Touch(others, t.value, k) else others) <= Behind(es, k))
  {
    var key := c.op.key;
    FindUnique(s.entries, key);
    if c.op.Set? {
      RefusedIff(s, key, c.op.value, c.op.nx, c.op.ex, c.at, cap);
    }
    hide Behind, Keys, DistinctKeys, AfterEvict, Without;
    match c.op
    case Get(_) =>
      if Find(s.entries, key).Some? {
        MoveToBack(s.entries, others, Find(s.entries, key).value, k);
      }
    case Set(_, v, nx, ex) =>
      var e := Written(key, v, ex, c.at);
      MoveToBack(s.entries, others, e, k);
      SteadyEvict(s.(entries := Without(s.entries, key) + [e]), Touch(others, key, k), c.at, k, cap);
  }

  lemma SteadyEvict(s: Store, others: set<Key>, at: Time, k: Key, cap: nat)
    requires DistinctKeys(s.entries) && Timeless(s.entries)
    requires k in Keys(s.entries) ==> others <= Behind(s.entries, k)
    ensures var es := AfterEvict(s, at, cap).entries;
      Timeless(es) && (k in Keys(es) ==> others <= Behind(es, k))
  {
    hide Behind, Find, Keys, DistinctKeys, Unexpired;
    AllUnexpired(s.entries, at);
    var over := if |s.entries| > cap then |s.entries| - cap else 0;
    BehindDrop(s.entries, over, k);
    DropDistinct(s.entries, over);
  }

  lemma MoveToBack(es: seq<Entry>, others: set<Key>, e: Entry, k: Key)
    requires DistinctKeys(es) && Timeless(es) && e.expiresAt.None?
    requires k in Keys(es) ==> others <= Behind(es, k)
    ensures var put := Without(es, e.key) + [e];
      && DistinctKeys(put) && Timeless(put)
      && (k in Keys(put) ==> Touch(others, e.key, k) <= Behind(put, k))
  {
    var w := Without(es, e.key);
    WithoutMembers(es, e.key);
    WithoutDistinct(es, e.key);
    BehindWithout(es, e.key, k);
    AppendDistinct(w, e);
    BehindAppend(w, e, k);
  }

  // ------------------------------------------------------------------ main results

  // Over any run the store is the reference TTL map with losses, and a live key is lost only
  // after at least cap distinct other keys were set or hit since it was last set or hit.
  lemma Refines(calls: seq<Call>, k: Key, cap: nat, now: Time)
    requires cap >= 1 && Clocked(calls, now)
    ensures var s := Run(calls, cap); var w := LastWrite(calls, k, cap);
      && |s.entries| <= cap
      && (Peek(s, k, now).Some? ==> Lasts(w, now) && Peek(s, k, now) == Some(w.value.value))
      && (Lasts(w, now) && Peek(s, k, now).None? ==> |OthersSince(calls, k, cap)| >= cap)
  {
    Accounted(calls, k, cap, now);
  }

  // Without deletions and lifetimes the criterion is exact: a written key is present if and
  // only if fewer than cap distinct other keys were touched since its own last touch.
  lemma LruExact(calls: seq<Call>, k: Key, cap: nat, now: Time)
    requires cap >= 1 && Clocked(calls, now) && Steady(calls)
    requires LastWrite(calls, k, cap).Some?
    ensures Peek(Run(calls, cap), k, now).Some? <==> |OthersSince(calls, k, cap)| < cap
  {
    hide Behind, Find, Keys, DistinctKeys, Run, LastWrite, OthersSince;
    Accounted(calls, k, cap, now);
    SteadyOrder(calls, k, cap, now);
    ExactWhenTracked(Run(calls, cap), LastWrite(calls, k, cap), OthersSince(calls, k, cap), k, cap, now);
  }

  // A set that takes effect with a positive or absent lifetime is readable right afterwards,
  // and every other key it leaves live keeps its value: a set only ever loses other keys.
  lemma SetSurvivesItsOwnEviction(s: Store, k: Key, v: string, nx: bool, ex: Option<int>, now: Time, cap: nat, other: Key)
    requires cap >= 1 && DistinctKeys(s.entries) && |s.entries| <= cap
    requires AfterSet(s, k, v, nx, ex, now, cap).1
    requires ex.Some? ==> ex.value > 0
    ensures var t := AfterSet(s, k, v, nx, ex, now, cap).0;
      && Peek(t, k, now) == Some(v)
      && (other != k && Peek(t, other, now).Some? ==> Peek(t, other, now) == Peek(s, other, now))
  {
    hide Behind, Keys, DistinctKeys, AfterEvict, Without;
    SetStep(s, k, v, nx, ex, now, cap, k);
    SetStep(s, k, v, nx, ex, now, cap, other);
  }

  // The eviction pass clears expired entries first. While the counter stands still no live key
  // is lost; when it moves, exactly cap entries remain, all of them live, and the counter grows
  // by the number of live entries dropped.
  lemma EvictsLiveOnlyUnderPressure(s: Store, now: Time, cap: nat, other: Key)
    requires DistinctKeys(s.entries)
    ensures var t := AfterEvict(s, now, cap);
      && t.evictions - s.evictions + |t.entries| == |Unexpired(s.entries, now)|
      && (t.evictions == s.evictions ==> Peek(t, other, now) == Peek(s, other, now))
      && (t.evictions > s.evictions ==> |t.entries| == cap && Unexpired(t.entries, now) == t.entries)
  {
    hide Behind, Find, Keys, DistinctKeys, Unexpired;
    var live := Unexpired(s.entries, now);
    UnexpiredBehind(s.entries, now, other);
    UnexpiredMembers(s.entries, now);
    if |live| <= cap {
      assert live[0..] == live;
    } else {
      AllUnexpired(live[|live| - cap..], now);
    }
  }

  // Unlinking what a scan found, with anything at all going on in between: the matching keys that were
  // live at the scan are gone, written again or not, and every other key reads as it would have.
  lemma ScanThenUnlink(calls: seq<Call>, between: seq<Call>, matches: Key -> bool, found: seq<Key>, scanned: Time,
                       unlinked: Time, cap: nat, k: Key, at: Time)
    requires forall key :: key in found <==> matches(key) && Peek(Run(calls, cap), key, scanned).Some?
    ensures Peek(Run(calls + between + [Call(unlinked, Delete(found))], cap), k, at)
      == if matches(k) && Peek(Run(calls, cap), k, scanned).Some? then None
         else Peek(Run(calls + between, cap), k, at)
  {
    var all := calls + between + [Call(unlinked, Delete(found))];
    assert all[..|all| - 1] == calls + between;
    FindWithoutAll(Run(calls + between, cap).entries, found, k);
  }
}
