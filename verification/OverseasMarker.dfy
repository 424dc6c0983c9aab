// The "no overseas holdings" marker and what a sync may conclude from it: unknown is not zero.
module OverseasMarker {
  import opened Basics

  type Time = int

  const TTL_HAS_OVERSEAS_TRUE: int := 21600
  const TTL_HAS_OVERSEAS_FALSE: int := 900

  datatype Marker = NoHoldings | DepositUnknown | HasHoldings // "0", "u", "1"

  // What the broker fetch came to, had it been called.
  datatype Fetch =
    | TokenExpired
    | Failed
    | Fetched(positions: seq<Position>, totalUsd: real, depositUsd: Option<real>)

  datatype Position = Position(avgPrice: real, qty: int, valueUsd: real)

  // The result handed on; ok is false for a failed fetch.
  datatype Overseas = Overseas(positions: seq<Position>, totalUsd: real, depositUsd: Option<real>, ok: bool)

  const EMPTY_OVERSEAS := Overseas([], 0.0, Some(0.0), true)

  datatype Stored = Stored(marker: Marker, expires: Time)

  // ------------------------------------------------------------------ one sync

  function LiveMarker(stored: Option<Stored>, now: Time): Option<Marker> {
    if stored.Some? && now < stored.value.expires then Some(stored.value.marker) else None
  }

  // The fetch is skipped exactly while a no-holdings marker is live.
  predicate Skips(stored: Option<Stored>, now: Time) {
    LiveMarker(stored, now) == Some(NoHoldings) || LiveMarker(stored, now) == Some(DepositUnknown)
  }

  predicate HasOverseas(f: Fetch)
    requires f.Fetched?
  {
    f.positions != [] || (f.depositUsd.Some? && f.depositUsd.value > 0.0)
  }

  function MarkerFor(f: Fetch): Marker
    requires f.Fetched?
  {
    if HasOverseas(f) then HasHoldings else if f.depositUsd.None? then DepositUnknown else NoHoldings
  }

  // The cache entry of one account, read before and written after each fetch.
  class MarkerCache {
    var stored: Option<Stored>

    constructor ()
      ensures stored == None
    {
      stored := None;
    }

    method FetchCached(fetch: Fetch, now: Time) returns (r: Option<Overseas>, fetched: bool)
      modifies this
      ensures fetched <==> !Skips(old(stored), now)
      ensures (r, stored) == AfterSync(old(stored), fetch, now)
    {
      var cached := LiveMarker(stored, now);
      if cached == Some(NoHoldings) {
        return Some(EMPTY_OVERSEAS), false;
      }
      if cached == Some(DepositUnknown) {
        return Some(EMPTY_OVERSEAS.(depositUsd := None)), false;
      }
      match fetch
      case TokenExpired => return None, true; // re-raised: the sync itself fails
      case Failed => return Some(EMPTY_OVERSEAS.(ok := false)), true;
      case Fetched(positions, totalUsd, depositUsd) =>
        var has := positions != [] || (depositUsd.Some? && depositUsd.value > 0.0);
        var marker := if has then HasHoldings else if depositUsd.None? then DepositUnknown else NoHoldings;
        stored := Some(Stored(marker, now + if has then TTL_HAS_OVERSEAS_TRUE else TTL_HAS_OVERSEAS_FALSE));
        return Some(Overseas(positions, totalUsd, depositUsd, true)), true;
    }
  }

  function AfterSync(stored: Option<Stored>, fetch: Fetch, now: Time): (Option<Overseas>, Option<Stored>) {
    if LiveMarker(stored, now) == Some(NoHoldings) then (Some(EMPTY_OVERSEAS), stored)
    else if LiveMarker(stored, now) == Some(DepositUnknown) then (Some(EMPTY_OVERSEAS.(depositUsd := None)), stored)
    else
      match fetch
      case TokenExpired => (None, stored)
      case Failed => (Some(EMPTY_OVERSEAS.(ok := false)), stored)
      case Fetched(positions, totalUsd, depositUsd) =>
        (Some(Overseas(positions, totalUsd, depositUsd, true)),
         Some(Stored(MarkerFor(fetch), now + if HasOverseas(fetch) then TTL_HAS_OVERSEAS_TRUE else TTL_HAS_OVERSEAS_FALSE)))
  }

  // ------------------------------------------------------------------ the combined balance

  datatype Domestic = Domestic(totalKrw: real, depositKrw: real, investedKrw: real)

  // depositForeign None: unknown, the stored amount is kept; a number is final, zero included.
  datatype Balance = Balance(totalKrw: real, depositKrw: real, depositForeign: Option<real>, overseasKnown: bool,
                             investedKrw: real, pnlKrw: real)

  function Invested(ps: seq<Position>): real {
    if ps == [] then 0.0 else ps[0].avgPrice * ps[0].qty as real + Invested(ps[1..])
  }

  function Combine(d: Domestic, o: Overseas, usdKrw: real): Balance {
    var stock := d.totalKrw + o.totalUsd * usdKrw;
    var invested := d.investedKrw + Invested(o.positions) * usdKrw;
    var cash := if o.depositUsd.Some? then o.depositUsd.value else 0.0;
    Balance(stock + d.depositKrw + cash * usdKrw, d.depositKrw,
            if o.ok then o.depositUsd else None, o.ok, invested, stock - invested)
  }

  // ------------------------------------------------------------------ runs of syncs

  datatype Event =
    | Sync(now: Time, fetch: Fetch, domestic: Domestic, usdKrw: real)
    | Evict // the marker is lost early

  function Next(stored: Option<Stored>, e: Event): Option<Stored> {
    match e
    case Sync(now, fetch, _, _) => AfterSync(stored, fetch, now).1
    case Evict => None
  }

  function Run(events: seq<Event>): Option<Stored> {
    if events == [] then None else Next(Run(events[..|events| - 1]), events[|events| - 1])
  }

  // The balance produced by the i-th event, if it is a sync that got through.
  function Result(events: seq<Event>, i: nat): Option<Balance>
    requires i < |events| && events[i].Sync?
  {
    var o := AfterSync(Run(events[..i]), events[i].fetch, events[i].now).0;
    if o.None? then None else Some(Combine(events[i].domestic, o.value, events[i].usdKrw))
  }

  ghost predicate Clocked(events: seq<Event>) {
    forall i, j :: 0 <= i < j < |events| && events[i].Sync? && events[j].Sync? ==> events[i].now <= events[j].now
  }

  predicate ConfirmsNothing(f: Fetch) {
    f.Fetched? && f.positions == [] && f.depositUsd.Some? && f.depositUsd.value <= 0.0
  }

  // Event i is a sync that calls the broker.
  predicate Calls(events: seq<Event>, i: nat)
    requires i < |events|
  {
    events[i].Sync? && !Skips(Run(events[..i]), events[i].now)
  }

  // Whatever is stored was written by a successful fetch and has not been touched since.
  lemma {:induction false} StoredOrigin(events: seq<Event>) returns (j: nat)
    requires Run(events).Some?
    ensures j < |events| && Calls(events, j) && events[j].fetch.Fetched?
    ensures Run(events) == Some(Stored(MarkerFor(events[j].fetch),
      events[j].now + if HasOverseas(events[j].fetch) then TTL_HAS_OVERSEAS_TRUE else TTL_HAS_OVERSEAS_FALSE))
    ensures forall k :: j < k < |events| ==> events[k].Sync? && Run(events[..k]) == Run(events)
  {
    var n := |events| - 1;
    var prefix := events[..n];
    if Calls(events, n) && events[n].fetch.Fetched? {
      j := n;
    } else {
      j := StoredOrigin(prefix);
      assert events[..j] == prefix[..j];
      forall k | j < k < |events| ensures events[k].Sync? && Run(events[..k]) == Run(events) {
        if k < n {
          assert events[..k] == prefix[..k] && events[k] == prefix[k];
        }
      }
    }
  }

  // Unknown is not zero. Over any run of syncs with failures, expiries and evictions, a sync
  // reports a definite foreign deposit only if its own fetch reported exactly that amount, or
  // the amount is 0 and an earlier fetch, less than the marker's lifetime ago, succeeded with no
  // positions and a known deposit that was not positive, with the broker not called in between.
  lemma DefiniteDepositMeans(events: seq<Event>, i: nat, d: real) returns (j: nat)
    requires Clocked(events) && i < |events| && events[i].Sync?
    requires Result(events, i).Some? && Result(events, i).value.depositForeign == Some(d)
    ensures j <= i && Calls(events, j) && events[j].fetch.Fetched?
    ensures if j == i then events[i].fetch.depositUsd == Some(d)
            else && d == 0.0 && ConfirmsNothing(events[j].fetch)
                 && events[i].now < events[j].now + TTL_HAS_OVERSEAS_FALSE
                 && forall k :: j < k <= i ==> events[k].Sync? && !Calls(events, k)
  {
    if Calls(events, i) {
      j := i;
    } else {
      var before := events[..i];
      j := StoredOrigin(before);
      assert before[..j] == events[..j];
      forall k | j < k <= i ensures events[k].Sync? && !Calls(events, k) {
        assert events[..k] == before[..k];
        assert k < i ==> events[k] == before[k] && events[k].now <= events[i].now;
      }
    }
  }

  // A fetch that fails, or that does not report the field, leaves the deposit unknown, both in
  // its own sync and in every sync answered from the marker it leaves behind; and overseas
  // holdings are unknown exactly in the syncs whose own fetch failed.
  lemma UnknownStaysUnknown(events: seq<Event>, i: nat)
    requires i < |events| && events[i].Sync? && Result(events, i).Some?
    ensures var b := Result(events, i).value; var f := events[i].fetch;
      && (Calls(events, i) && (f.Failed? || f.depositUsd.None?) ==> b.depositForeign.None?)
      && (!b.overseasKnown <==> Calls(events, i) && f.Failed?)
      && (!Calls(events, i) && LiveMarker(Run(events[..i]), events[i].now) == Some(DepositUnknown) ==> b.depositForeign.None?)
      && (Calls(events, i) && f.Failed? ==> Run(events[..i + 1]) == Run(events[..i]))
  {
    assert events[..i + 1][..i] == events[..i];
  }

  predicate FoundNothing(f: Fetch) {
    f.Fetched? && f.positions == [] && (f.depositUsd.None? || f.depositUsd.value <= 0.0)
  }

  // Event j is a call that found nothing, its marker is young enough for event i and was not lost.
  ghost predicate Covers(events: seq<Event>, j: nat, i: nat)
    requires i < |events| && events[i].Sync?
  {
    && j < i && Calls(events, j) && FoundNothing(events[j].fetch)
    && events[i].now < events[j].now + TTL_HAS_OVERSEAS_FALSE
    && forall k :: j < k < i ==> events[k].Sync? && !Calls(events, k)
  }

  lemma {:induction false} MarkerStays(events: seq<Event>, j: nat, i: nat)
    requires j < i <= |events| && Calls(events, j) && events[j].fetch.Fetched?
    requires forall k :: j < k < i ==> events[k].Sync? && !Calls(events, k)
    ensures Run(events[..i]) == AfterSync(Run(events[..j]), events[j].fetch, events[j].now).1
    decreases i
  {
    var before := events[..i];
    assert before[..i - 1] == events[..i - 1];
    if i > j + 1 {
      MarkerStays(events, j, i - 1);
    }
  }

  // What the marker is for: a sync does without the broker if and only if an earlier call, less than
  // the marker's lifetime ago, found no positions and no positive deposit, and its marker was not lost.
  lemma NotCalledIff(events: seq<Event>, i: nat)
    requires Clocked(events) && i < |events| && events[i].Sync?
    ensures !Calls(events, i) <==> exists j :: 0 <= j < i && Covers(events, j, i)
  {
    if !Calls(events, i) {
      var before := events[..i];
      var j := StoredOrigin(before);
      assert before[..j] == events[..j];
      forall k | j < k < i ensures events[k].Sync? && !Calls(events, k) {
        assert events[..k] == before[..k] && events[k] == before[k] && events[k].now <= events[i].now;
      }
      assert Covers(events, j, i);
    }
    if j :| 0 <= j < i && Covers(events, j, i) {
      MarkerStays(events, j, i);
    }
  }

  // A sync that does without the broker reports what the covering call left: 0 if that call was told a
  // deposit, unknown if it was told none; and no positions.
  lemma CoveredDeposit(events: seq<Event>, j: nat, i: nat)
    requires Clocked(events) && i < |events| && events[i].Sync? && Covers(events, j, i)
    ensures Result(events, i).Some? && Result(events, i).value.overseasKnown
    ensures Result(events, i).value.depositForeign == if events[j].fetch.depositUsd.None? then None else Some(0.0)
  {
    MarkerStays(events, j, i);
  }

  // ------------------------------------------------------------------ the totals

  // What the positions are worth above what was paid for them.
  function Gain(ps: seq<Position>): real {
    if ps == [] then 0.0 else ps[0].valueUsd - ps[0].avgPrice * ps[0].qty as real + Gain(ps[1..])
  }

  function Value(ps: seq<Position>): real {
    if ps == [] then 0.0 else ps[0].valueUsd + Value(ps[1..])
  }

  lemma {:induction false} GainIsValueLessInvested(ps: seq<Position>)
    ensures Gain(ps) == Value(ps) - Invested(ps)
  {
    if ps == [] {
    } else {
      GainIsValueLessInvested(ps[1..]);
    }
  }

  // The balance of any sync in any run adds up: the total is the cash of both currencies, what was
  // invested and the profit; and the profit is the domestic one and that of the positions this sync
  // fetched. Without a successful fetch the overseas part counts for nothing in any of them.
  lemma BalanceAddsUp(events: seq<Event>, i: nat)
    requires i < |events| && events[i].Sync? && Result(events, i).Some?
    ensures var b := Result(events, i).value; var Sync(_, f, d, rate) := events[i];
      var cash := if b.depositForeign.Some? then b.depositForeign.value else 0.0;
      && b.depositKrw == d.depositKrw
      && b.totalKrw == b.depositKrw + cash * rate + b.investedKrw + b.pnlKrw
      && (Calls(events, i) && f.Fetched? ==>
            && b.depositForeign == f.depositUsd
            && b.pnlKrw == d.totalKrw - d.investedKrw + (f.totalUsd - Value(f.positions) + Gain(f.positions)) * rate)
      && (!(Calls(events, i) && f.Fetched?) ==>
            && cash == 0.0 && b.investedKrw == d.investedKrw && b.pnlKrw == d.totalKrw - d.investedKrw)
  {
    var Sync(now, f, d, rate) := events[i];
    var o := AfterSync(Run(events[..i]), f, now).0.value;
    GainIsValueLessInvested(o.positions);
    InWon(o.totalUsd, Invested(o.positions), rate);
  }

  lemma InWon(total: real, invested: real, rate: real)
    ensures (total - invested) * rate == total * rate - invested * rate
  {
  }
}
