// The in-memory TTL cache: one insertion-ordered dictionary serves as the TTL map and as the
// LRU queue (front = least recently used). Each public operation is one atomic step because
// the store's asyncio lock is held for the whole operation; the clock is an argument.
module CacheStores {
  import opened Basics

  type Key = string
  type Time = int

  datatype Entry = Entry(key: Key, value: string, expiresAt: Option<Time>)

  const MAX_ENTRIES: nat := 20_000

  // The whole state of a store: the ordered dictionary and the eviction counter.
  datatype Store = Store(entries: seq<Entry>, evictions: nat)

  predicate Expired(e: Entry, now: Time) {
    e.expiresAt.Some? && e.expiresAt.value <= now
  }

  // ---------------------------------------------------------------- ordered dictionary

  function Keys(es: seq<Entry>): set<Key> {
    if es == [] then {} else {es[0].key} + Keys(es[1..])
  }

  ghost predicate DistinctKeys(es: seq<Entry>) {
    es == [] || (es[0].key !in Keys(es[1..]) && DistinctKeys(es[1..]))
  }

  function Find(es: seq<Entry>, key: Key): (r: Option<Entry>)
    ensures r.Some? ==> r.value.key == key
    ensures r.Some? <==> key in Keys(es)
  {
    if es == [] then None
    else if es[0].key == key then Some(es[0])
    else Find(es[1..], key)
  }

  function Without(es: seq<Entry>, key: Key): (r: seq<Entry>)
    ensures Keys(r) == Keys(es) - {key} && |r| <= |es|
  {
    if es == [] then []
    else if es[0].key == key then Without(es[1..], key)
    else [es[0]] + Without(es[1..], key)
  }

  function WithoutAll(es: seq<Entry>, keys: seq<Key>): seq<Entry>
    decreases keys
  {
    if keys == [] then es else WithoutAll(Without(es, keys[0]), keys[1..])
  }

  function Unexpired(es: seq<Entry>, now: Time): (r: seq<Entry>)
    ensures Keys(r) <= Keys(es) && |r| <= |es|
  {
    if es == [] then []
    else if Expired(es[0], now) then Unexpired(es[1..], now)
    else [es[0]] + Unexpired(es[1..], now)
  }

  function ExpiredKeys(es: seq<Entry>, now: Time): (r: seq<Key>)
    ensures |r| + |Unexpired(es, now)| == |es|
  {
    if es == [] then []
    else if Expired(es[0], now) then [es[0].key] + ExpiredKeys(es[1..], now)
    else ExpiredKeys(es[1..], now)
  }

  // ---------------------------------------------------------------- operations on states

  function AfterGet(s: Store, key: Key, now: Time): (Store, Option<string>) {
    match Find(s.entries, key)
    case None => (s, None)
    case Some(e) =>
      var rest := Without(s.entries, key);
      if Expired(e, now) then (s.(entries := rest), None)
      else (s.(entries := rest + [e]), Some(e.value))
  }

  function AfterEvict(s: Store, now: Time, cap: nat): Store {
    var live := Unexpired(s.entries, now);
    var over := if |live| > cap then |live| - cap else 0;
    Store(live[over..], s.evictions + over)
  }

  predicate Held(s: Store, key: Key, now: Time) {
    var held := Find(s.entries, key);
    held.Some? && !Expired(held.value, now)
  }

  function Written(key: Key, value: string, ex: Option<int>, now: Time): Entry {
    Entry(key, value, if ex.Some? then Some(now + ex.value) else None)
  }

  function AfterSet(s: Store, key: Key, value: string, nx: bool, ex: Option<int>, now: Time, cap: nat): (Store, bool) {
    if nx && Held(s, key, now) then (s, false)
    else
      var put := s.(entries := Without(s.entries, key) + [Written(key, value, ex, now)]);
      (if |put.entries| > cap then AfterEvict(put, now, cap) else put, true)
  }

  function AfterDelete(s: Store, keys: seq<Key>): Store {
    s.(entries := WithoutAll(s.entries, keys))
  }

  function AfterSweep(s: Store, now: Time): Store {
    s.(entries := Unexpired(s.entries, now))
  }

  function Peek(s: Store, key: Key, now: Time): Option<string> {
    if Held(s, key, now) then Some(Find(s.entries, key).value.value) else None
  }

  // A write is refused only where it asks for an absent key and finds something readable.
  lemma RefusedIff(s: Store, key: Key, value: string, nx: bool, ex: Option<int>, now: Time, cap: nat)
    ensures AfterSet(s, key, value, nx, ex, now, cap).1 <==> !nx || Peek(s, key, now).None?
  {
  }

  // ---------------------------------------------------------------- the store object

  class CacheStore {
    var data: seq<Entry>
    var lruEvictions: nat

    ghost function State(): Store
      reads this
    {
      Store(data, lruEvictions)
    }

    ghost predicate Valid()
      reads this
    {
      DistinctKeys(data) && |data| <= MAX_ENTRIES
    }

    constructor ()
      ensures Valid() && State() == Store([], 0)
    {
      data := [];
      lruEvictions := 0;
    }

    method Get(key: Key, now: Time) returns (r: Option<string>)
      requires Valid()
      modifies this
      ensures Valid()
      ensures (State(), r) == AfterGet(old(State()), key, now)
    {
      WithoutDistinct(data, key);
      var entry := Find(data, key);
      if entry.None? {
        return None;
      }
      data := Without(data, key);
      if Expired(entry.value, now) {
        return None;
      }
      WithoutLess(old(data), key);
      AppendDistinct(data, entry.value);
      data := data + [entry.value];
      return Some(entry.value.value);
    }

    method Set(key: Key, value: string, nx: bool, ex: Option<int>, now: Time) returns (ok: bool)
      requires Valid()
      modifies this
      ensures Valid()
      ensures (State(), ok) == AfterSet(old(State()), key, value, nx, ex, now, MAX_ENTRIES)
      ensures ok <==> !nx || old(Peek(State(), key, now)).None?
    {
      WithoutDistinct(data, key);
      if nx {
        var existing := Find(data, key);
        if existing.Some? && !Expired(existing.value, now) {
          return false;
        }
      }
      var expiresAt := if ex.Some? then Some(now + ex.value) else None;
      data := Without(data, key);
      AppendDistinct(data, Entry(key, value, expiresAt));
      data := data + [Entry(key, value, expiresAt)];
      if |data| > MAX_ENTRIES {
        EvictOverCapacity(now);
      }
      return true;
    }

    method EvictOverCapacity(now: Time)
      requires DistinctKeys(data)
      modifies this
      ensures Valid()
      ensures State() == AfterEvict(old(State()), now, MAX_ENTRIES)
    {
      var n := RemoveExpired(now);
      ghost var live := data;
      while |data| > MAX_ENTRIES
        invariant DistinctKeys(data) && |data| <= |live| && data == live[|live| - |data|..]
        invariant |live| > MAX_ENTRIES ==> |data| >= MAX_ENTRIES
        invariant |live| <= MAX_ENTRIES ==> data == live
        invariant lruEvictions == old(lruEvictions) + (|live| - |data|)
      {
        DropDistinct(data, 1);
        data := data[1..];
        lruEvictions := lruEvictions + 1;
      }
    }

    // The comprehension over expired keys followed by their deletion, shared by the eviction
    // pass and the sweep.
    method RemoveExpired(now: Time) returns (count: nat)
      requires DistinctKeys(data)
      modifies this`data
      ensures DistinctKeys(data)
      ensures data == Unexpired(old(data), now)
      ensures count == |old(data)| - |data|
    {
      var expired := ExpiredKeys(data, now);
      RemovingExpiredKeys(data, now);
      UnexpiredDistinct(data, now);
      for i := 0 to |expired|
        invariant WithoutAll(data, expired[i..]) == WithoutAll(old(data), expired)
      {
        assert expired[i..][1..] == expired[i + 1..];
        data := Without(data, expired[i]);
      }
      assert expired[|expired|..] == [];
      count := |expired|;
    }

    method SweepExpired(now: Time) returns (count: nat)
      requires Valid()
      modifies this
      ensures Valid()
      ensures State() == AfterSweep(old(State()), now)
      ensures count == |old(data)| - |data| && lruEvictions == old(lruEvictions)
      ensures forall e :: e in data <==> e in old(data) && (e.expiresAt.None? || now < e.expiresAt.value)
    {
      count := RemoveExpired(now);
      UnexpiredExactly(old(data), now);
    }

    method Delete(keys: seq<Key>)
      requires Valid()
      modifies this
      ensures Valid()
      ensures State() == AfterDelete(old(State()), keys)
    {
      for i := 0 to |keys|
        invariant Valid() && lruEvictions == old(lruEvictions)
        invariant WithoutAll(data, keys[i..]) == WithoutAll(old(data), keys)
      {
        assert keys[i..][1..] == keys[i + 1..];
        WithoutDistinct(data, keys[i]);
        data := Without(data, keys[i]);
      }
      assert keys[|keys|..] == [];
    }

    // Reads several keys without touching their recency.
    method MGet(keys: seq<Key>, now: Time) returns (r: seq<Option<string>>)
      ensures |r| == |keys|
      ensures forall i :: 0 <= i < |keys| ==> r[i] == Peek(State(), keys[i], now)
    {
      r := [];
      for i := 0 to |keys|
        invariant |r| == i
        invariant forall j :: 0 <= j < i ==> r[j] == Peek(State(), keys[j], now)
      {
        var entry := Find(data, keys[i]);
        if entry.None? || Expired(entry.value, now) {
          r := r + [None];
        } else {
          r := r + [Some(entry.value.value)];
        }
      }
    }

    // All live keys that match the pattern, in dictionary order, in one batch.
    method Scan(matches: Key -> bool, now: Time) returns (found: seq<Key>)
      requires Valid()
      ensures forall k :: k in found <==> matches(k) && Peek(State(), k, now).Some?
      ensures forall k :: k in found <==> matches(k) && exists e :: e in data && e.key == k && !Expired(e, now)
    {
      found := [];
      for i := 0 to |data|
        invariant forall k :: k in found <==> matches(k) && exists e :: e in data[..i] && e.key == k && !Expired(e, now)
      {
        assert data[..i + 1] == data[..i] + [data[i]];
        if !Expired(data[i], now) && matches(data[i].key) {
          found := found + [data[i].key];
        }
      }
      assert data[..|data|] == data;
      forall k ensures (exists e :: e in data && e.key == k && !Expired(e, now)) <==> Peek(State(), k, now).Some? {
        FindUnique(data, k);
      }
    }

    // Scan and unlink without a pause: afterwards no live key matches the pattern, every other live key is kept.
    method ScanUnlink(matches: Key -> bool, now: Time)
      requires Valid()
      modifies this
      ensures Valid()
      ensures forall k :: Peek(State(), k, now) == if matches(k) then None else old(Peek(State(), k, now))
    {
      var keys := Scan(matches, now);
      ghost var before := State();
      if keys != [] {
        Delete(keys);
      }
      forall k ensures Peek(State(), k, now) == if matches(k) then None else Peek(before, k, now) {
        FindUnique(before.entries, k);
        FindWithoutAll(before.entries, keys, k);
      }
    }

    method TakeLruEvictions() returns (count: nat)
      modifies this`lruEvictions
      ensures count == old(lruEvictions) && lruEvictions == 0
    {
      count, lruEvictions := lruEvictions, 0;
    }

    method Aclose()
      modifies this
      ensures Valid() && State() == Store([], old(lruEvictions))
    {
      data := [];
    }
  }

  // ---------------------------------------------------------------- dictionary facts

  lemma {:induction false} WithoutDistinct(es: seq<Entry>, key: Key)
    requires DistinctKeys(es)
    ensures DistinctKeys(Without(es, key))
  {
    if es == [] {
    } else {
      WithoutDistinct(es[1..], key);
    }
  }

  lemma {:induction false} AppendDistinct(es: seq<Entry>, e: Entry)
    ensures Keys(es + [e]) == Keys(es) + {e.key}
    ensures DistinctKeys(es) && e.key !in Keys(es) ==> DistinctKeys(es + [e])
  {
    if es == [] {
    } else {
      assert (es + [e])[1..] == es[1..] + [e];
      AppendDistinct(es[1..], e);
    }
  }

  lemma {:induction false} DropDistinct(es: seq<Entry>, n: nat)
    requires DistinctKeys(es) && n <= |es|
    ensures DistinctKeys(es[n..]) && Keys(es[n..]) <= Keys(es)
  {
    if n == 0 {
      assert es[0..] == es;
    } else {
      assert es[1..][n - 1..] == es[n..];
      DropDistinct(es[1..], n - 1);
    }
  }

  lemma {:induction false} WithoutLess(es: seq<Entry>, key: Key)
    ensures key in Keys(es) ==> |Without(es, key)| < |es|
    ensures key !in Keys(es) ==> Without(es, key) == es
  {
    if es == [] {
    } else {
      WithoutLess(es[1..], key);
    }
  }

  lemma {:induction false} UnexpiredDistinct(es: seq<Entry>, now: Time)
    requires DistinctKeys(es)
    ensures DistinctKeys(Unexpired(es, now))
  {
    if es == [] {
    } else {
      UnexpiredDistinct(es[1..], now);
    }
  }

  // What is left are the entries that never run out or have not run out yet.
  lemma {:induction false} UnexpiredExactly(es: seq<Entry>, now: Time)
    ensures forall e :: e in Unexpired(es, now) <==> e in es && (e.expiresAt.None? || now < e.expiresAt.value)
  {
    if es == [] {
    } else {
      UnexpiredExactly(es[1..], now);
    }
  }

  lemma {:induction false} FindUnexpired(es: seq<Entry>, now: Time, key: Key)
    requires DistinctKeys(es)
    ensures var e := Find(es, key);
      Find(Unexpired(es, now), key) == if e.Some? && !Expired(e.value, now) then e else None
  {
    if es == [] {
    } else {
      FindUnexpired(es[1..], now, key);
    }
  }

  // A sweep takes out exactly what has run out, so nobody can tell from any key, then or later.
  lemma SweepLeaves(s: Store, at: Time, key: Key, now: Time)
    requires DistinctKeys(s.entries) && at <= now
    ensures var v := AfterSweep(s, at);
      && (forall e :: e in v.entries <==> e in s.entries && (e.expiresAt.None? || at < e.expiresAt.value))
      && v.evictions == s.evictions && Peek(v, key, now) == Peek(s, key, now)
  {
    UnexpiredExactly(s.entries, at);
    FindUnexpired(s.entries, at, key);
  }

  // Removing the expired keys one by one leaves exactly the unexpired entries, in order.
  lemma {:induction false} RemovingExpiredKeys(es: seq<Entry>, now: Time)
    requires DistinctKeys(es)
    ensures WithoutAll(es, ExpiredKeys(es, now)) == Unexpired(es, now)
  {
    if es == [] {
    } else {
      RemovingExpiredKeys(es[1..], now);
      var ks := ExpiredKeys(es[1..], now);
      if Expired(es[0], now) {
        assert es[0].key !in Keys(es[1..]);
        WithoutLess(es[1..], es[0].key);
        assert ([es[0].key] + ks)[1..] == ks;
      } else {
        ExpiredKeysAreKeys(es[1..], now);
        SkipHead(es[0], es[1..], ks);
        assert [es[0]] + es[1..] == es;
      }
    }
  }

  lemma {:induction false} ExpiredKeysAreKeys(es: seq<Entry>, now: Time)
    ensures forall k :: k in ExpiredKeys(es, now) ==> k in Keys(es)
  {
    if es == [] {
    } else {
      ExpiredKeysAreKeys(es[1..], now);
    }
  }

  lemma {:induction false} SkipHead(e: Entry, es: seq<Entry>, keys: seq<Key>)
    requires e.key !in keys
    ensures WithoutAll([e] + es, keys) == [e] + WithoutAll(es, keys)
    decreases keys
  {
    if keys == [] {
    } else {
      assert ([e] + es)[1..] == es;
      SkipHead(e, Without(es, keys[0]), keys[1..]);
    }
  }

  // With distinct keys, looking a key up finds its only entry.
  lemma {:induction false} FindUnique(es: seq<Entry>, key: Key)
    requires DistinctKeys(es)
    ensures forall e :: e in es && e.key == key ==> Find(es, key) == Some(e)
    ensures Find(es, key).Some? ==> Find(es, key).value in es
  {
    if es == [] {
    } else {
      FindUnique(es[1..], key);
      KeysOfEntries(es[1..]);
    }
  }

  lemma {:induction false} WithoutMembers(es: seq<Entry>, key: Key)
    ensures forall e :: e in Without(es, key) ==> e in es
  {
    if es == [] {
    } else {
      WithoutMembers(es[1..], key);
    }
  }

  lemma {:induction false} KeysOfEntries(es: seq<Entry>)
    ensures forall e :: e in es ==> e.key in Keys(es)
  {
    if es == [] {
    } else {
      KeysOfEntries(es[1..]);
    }
  }

  lemma {:induction false} FindWithout(es: seq<Entry>, gone: Key, key: Key)
    ensures Find(Without(es, gone), key) == if key == gone then None else Find(es, key)
  {
    if es == [] {
    } else {
      FindWithout(es[1..], gone, key);
    }
  }

  lemma {:induction false} FindWithoutAll(es: seq<Entry>, gone: seq<Key>, key: Key)
    ensures Find(WithoutAll(es, gone), key) == if key in gone then None else Find(es, key)
    decreases gone
  {
    if gone == [] {
    } else {
      FindWithout(es, gone[0], key);
      FindWithoutAll(Without(es, gone[0]), gone[1..], key);
    }
  }

  lemma {:induction false} FindAppend(es: seq<Entry>, e: Entry, key: Key)
    ensures Find(es + [e], key) == if key in Keys(es) then Find(es, key) else if key == e.key then Some(e) else None
  {
    if es == [] {
    } else {
      assert (es + [e])[1..] == es[1..] + [e];
      FindAppend(es[1..], e, key);
    }
  }
}
