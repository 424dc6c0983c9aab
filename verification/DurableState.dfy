// The durable key-value table: rows with an optional expiry, claimed atomically through the
// primary key. Each method is one committed transaction; the clock is an argument.
module DurableState {
  import opened Basics

  type Time = int

  datatype Row = Row(value: string, expiresAt: Option<Time>)

  type Rows = map<string, Row>

  predicate Lapsed(r: Row, now: Time) {
    r.expiresAt.Some? && r.expiresAt.value <= now
  }

  // What a caller sees under a key: the value of an unexpired row.
  function Seen(rows: Rows, key: string, now: Time): Option<string> {
    if key in rows && !Lapsed(rows[key], now) then Some(rows[key].value) else None
  }

  // No caller can tell the tables apart from time now on.
  ghost predicate SameFrom(a: Rows, b: Rows, now: Time) {
    forall key, at :: at >= now ==> Seen(a, key, at) == Seen(b, key, at)
  }

  class DurableTable {
    var rows: Rows

    constructor ()
      ensures rows == map[]
    {
      rows := map[];
    }

    // Reading an expired row deletes it, which no later reader can notice.
    method Get(key: string, now: Time) returns (r: Option<string>)
      modifies this
      ensures r == Seen(old(rows), key, now)
      ensures SameFrom(old(rows), rows, now)
      ensures rows.Keys == old(rows).Keys - if key in old(rows) && r.None? then {key} else {}
    {
      if key !in rows {
        return None;
      }
      var row := rows[key];
      if Lapsed(row, now) {
        rows := rows - {key};
        return None;
      }
      return Some(row.value);
    }

    method Set(key: string, value: string, ttl: Option<int>, now: Time)
      modifies this
      ensures forall at :: Seen(rows, key, at) == if ttl.Some? && now + ttl.value <= at then None else Some(value)
      ensures forall k, at :: k != key ==> Seen(rows, k, at) == Seen(old(rows), k, at)
    {
      var expiresAt := if ttl.Some? then Some(now + ttl.value) else None;
      rows := rows[key := Row(value, expiresAt)];
    }

    // Delete an expired row, then insert unless the key is taken: succeeds exactly when nobody
    // sees a value, and then holds the key until now + ttl.
    method Claim(key: string, ttl: int, now: Time) returns (claimed: bool)
      requires ttl > 0
      modifies this
      ensures claimed <==> Seen(old(rows), key, now).None?
      ensures !claimed ==> rows == old(rows)
      ensures claimed ==> forall at :: Seen(rows, key, at) == if now + ttl <= at then None else Some("1")
      ensures forall k, at :: k != key ==> Seen(rows, k, at) == Seen(old(rows), k, at)
    {
      if key in rows && Lapsed(rows[key], now) {
        rows := rows - {key};
      }
      claimed := key !in rows;
      if claimed {
        rows := rows[key := Row("1", Some(now + ttl))];
      }
    }

    method Delete(key: string)
      modifies this
      ensures forall k, at :: Seen(rows, k, at) == if k == key then None else Seen(old(rows), k, at)
    {
      rows := rows - {key};
    }

    // Purging removes every expired row and nothing a reader could still see.
    method PurgeExpired(now: Time) returns (count: nat)
      modifies this
      ensures SameFrom(old(rows), rows, now)
      ensures forall k :: k in rows <==> k in old(rows) && !Lapsed(old(rows)[k], now)
      ensures count == |old(rows)| - |rows|
    {
      var expired := set k | k in rows && Lapsed(rows[k], now);
      rows := rows - expired;
      count := |expired|;
      assert old(rows).Keys == rows.Keys + expired;
      assert |old(rows).Keys| == |rows.Keys| + |expired|;
    }
  }
}
