// The overseas balance is read from three exchanges, single exchanges first, because on a real
// account the NASDAQ listing covers the whole United States. The merge drops repeated tickers
// and yields nothing at all when any exchange could not be read.
module OverseasMerge {
  import opened Basics

  type Ticker = string

  datatype Market = NYSE | AMEX | NASDAQ

  // The order in which the exchanges are queried.
  const QUERY_ORDER := [NYSE, AMEX, NASDAQ]

  datatype Row = Row(ticker: Ticker, qty: int, valueUsd: real)

  // One exchange's answer: all its pages, with the deposit field of the first page if present.
  datatype Listing = TokenExpired | Failed | Listed(rows: seq<Row>, depositUsd: Option<real>)

  datatype Position = Position(ticker: Ticker, market: Market, qty: int, valueUsd: real)

  datatype Merged =
    | Expired
    | Incomplete(failed: seq<Market>)
    | Balance(positions: seq<Position>, totalUsd: real, depositUsd: Option<real>)

  // ------------------------------------------------------------------ what the merge computes

  function Tickers(ps: seq<Position>): set<Ticker> {
    set p | p in ps :: p.ticker
  }

  function AddRow(ps: seq<Position>, m: Market, r: Row): seq<Position> {
    if r.qty <= 0 || r.ticker in Tickers(ps) then ps
    else ps + [Position(r.ticker, m, r.qty, r.valueUsd)]
  }

  function AddRows(ps: seq<Position>, m: Market, rows: seq<Row>): seq<Position> {
    if rows == [] then ps
    else AddRow(AddRows(ps, m, rows[..|rows| - 1]), m, rows[|rows| - 1])
  }

  function AddListings(listings: Market -> Listing, ms: seq<Market>): seq<Position> {
    if ms == [] then []
    else
      var before := AddListings(listings, ms[..|ms| - 1]);
      var m := ms[|ms| - 1];
      if listings(m).Listed? then AddRows(before, m, listings(m).rows) else before
  }

  function Total(ps: seq<Position>): real {
    if ps == [] then 0.0 else Total(ps[..|ps| - 1]) + ps[|ps| - 1].valueUsd
  }

  function FailedOf(listings: Market -> Listing, ms: seq<Market>): seq<Market> {
    if ms == [] then []
    else
      var m := ms[|ms| - 1];
      FailedOf(listings, ms[..|ms| - 1]) + if listings(m).Failed? then [m] else []
  }

  // A reported deposit replaces nothing and zero, never a non-zero amount.
  function Deposit(listings: Market -> Listing, ms: seq<Market>): Option<real> {
    if ms == [] then None
    else
      var before := Deposit(listings, ms[..|ms| - 1]);
      var l := listings(ms[|ms| - 1]);
      if l.Listed? && l.depositUsd.Some? && (before.None? || before.value == 0.0) then l.depositUsd else before
  }

  // An expired token is passed on at once, any other failure spoils the whole result.
  function Outcome(listings: Market -> Listing): Merged {
    if listings(NYSE).TokenExpired? || listings(AMEX).TokenExpired? || listings(NASDAQ).TokenExpired? then Expired
    else if FailedOf(listings, QUERY_ORDER) != [] then Incomplete(FailedOf(listings, QUERY_ORDER))
    else
      var ps := AddListings(listings, QUERY_ORDER);
      Balance(ps, Total(ps), Deposit(listings, QUERY_ORDER))
  }

  method GetOverseasBalance(listings: Market -> Listing) returns (r: Merged)
    ensures r == Outcome(listings)
  {
    var positions: seq<Position> := [];
    var failed: seq<Market> := [];
    var deposit: Option<real> := None;
    for k := 0 to |QUERY_ORDER|
      invariant positions == AddListings(listings, QUERY_ORDER[..k])
      invariant failed == FailedOf(listings, QUERY_ORDER[..k])
      invariant deposit == Deposit(listings, QUERY_ORDER[..k])
      invariant forall j :: 0 <= j < k ==> !listings(QUERY_ORDER[j]).TokenExpired?
    {
      var market := QUERY_ORDER[k];
      assert QUERY_ORDER[..k + 1] == QUERY_ORDER[..k] + [market];
      hide AddRows;
      match listings(market)
      case TokenExpired => return Expired;
      case Failed => failed := failed + [market];
      case Listed(rows, depositUsd) =>
        positions := MergeRows(positions, market, rows);
        if deposit.None? || deposit.value == 0.0 {
          if depositUsd.Some? {
            deposit := depositUsd;
          }
        }
    }
    assert QUERY_ORDER[..|QUERY_ORDER|] == QUERY_ORDER;
    assert QUERY_ORDER[0] == NYSE && QUERY_ORDER[1] == AMEX && QUERY_ORDER[2] == NASDAQ;
    if failed != [] {
      return Incomplete(failed);
    }
    var total := SumValues(positions);
    return Balance(positions, total, deposit);
  }

  // The row loop of one exchange, with the set of tickers seen so far.
  method MergeRows(before: seq<Position>, market: Market, rows: seq<Row>) returns (positions: seq<Position>)
    ensures positions == AddRows(before, market, rows)
  {
    positions := before;
    var seen := Tickers(positions);
    for i := 0 to |rows|
      invariant positions == AddRows(before, market, rows[..i]) && seen == Tickers(positions)
    {
      var row := rows[i];
      assert rows[..i + 1] == rows[..i] + [row];
      if row.qty > 0 && row.ticker !in seen {
        seen := seen + {row.ticker};
        positions := positions + [Position(row.ticker, market, row.qty, row.valueUsd)];
      }
    }
    assert rows[..|rows|] == rows;
  }

  method SumValues(positions: seq<Position>) returns (total: real)
    ensures total == Total(positions)
  {
    total := 0.0;
    for i := 0 to |positions|
      invariant total == Total(positions[..i])
    {
      assert positions[..i + 1] == positions[..i] + [positions[i]];
      total := total + positions[i].valueUsd;
    }
    assert positions[..|positions|] == positions;
  }

  // ------------------------------------------------------------------ what the account is

  // A holding, and the exchange that lists it.
  datatype Holding = Holding(qty: int, valueUsd: real, home: Market)

  type Account = map<Ticker, Holding>

  // A listing shows every holding it covers, possibly among sold-out rows, once each.
  ghost predicate Shows(rows: seq<Row>, account: Account, covered: set<Market>) {
    && (forall i, j :: 0 <= i < j < |rows| ==> rows[i].ticker != rows[j].ticker)
    && (forall r :: r in rows && r.qty > 0 ==>
          && r.ticker in account && account[r.ticker].home in covered
          && r.qty == account[r.ticker].qty && r.valueUsd == account[r.ticker].valueUsd)
    && (forall t :: t in account && account[t].home in covered ==> Row(t, account[t].qty, account[t].valueUsd) in rows)
  }

  ghost predicate Positive(account: Account) {
    forall t :: t in account ==> account[t].qty > 0
  }

  // The three listings of an account: on a real account NASDAQ covers every exchange.
  ghost predicate ListsAccount(listings: Market -> Listing, account: Account, isReal: bool) {
    && Positive(account)
    && (forall m :: listings(m).Listed?)
    && Shows(listings(NYSE).rows, account, {NYSE})
    && Shows(listings(AMEX).rows, account, {AMEX})
    && Shows(listings(NASDAQ).rows, account, if isReal then {NYSE, AMEX, NASDAQ} else {NASDAQ})
  }

  function Expected(account: Account, t: Ticker): Position
    requires t in account
  {
    Position(t, account[t].home, account[t].qty, account[t].valueUsd)
  }

  // The positions are right so far: one per ticker, all as held, and complete for the markets done.
  ghost predicate Right(ps: seq<Position>, account: Account, done: set<Market>) {
    && (forall i, j :: 0 <= i < j < |ps| ==> ps[i].ticker != ps[j].ticker)
    && (forall p :: p in ps ==> p.ticker in account && p == Expected(account, p.ticker) && p.market in done)
    && (forall t :: t in account && account[t].home in done ==> Expected(account, t) in ps)
  }

  ghost predicate Partial(ps: seq<Position>, account: Account, done: set<Market>, m: Market, rows: seq<Row>) {
    && (forall i, j :: 0 <= i < j < |ps| ==> ps[i].ticker != ps[j].ticker)
    && (forall p :: p in ps ==> p.ticker in account && p == Expected(account, p.ticker) && p.market in done + {m})
    && (forall t :: t in account && account[t].home in done ==> Expected(account, t) in ps)
    && (forall r :: r in rows && r.qty > 0 ==> r.ticker in Tickers(ps))
  }

  lemma NotDoneYet(ps: seq<Position>, account: Account, done: set<Market>, t: Ticker)
    requires t in account && t !in Tickers(ps)
    requires forall u :: u in account && account[u].home in done ==> Expected(account, u) in ps
    ensures account[t].home !in done
  {
  }

  lemma {:induction false} AddingRows(ps: seq<Position>, account: Account, done: set<Market>, m: Market, covered: set<Market>,
                                      rows: seq<Row>, n: nat)
    requires Right(ps, account, done) && Shows(rows, account, covered) && n <= |rows|
    requires m !in done && covered <= done + {m}
    ensures Partial(AddRows(ps, m, rows[..n]), account, done, m, rows[..n])
  {
    if n == 0 {
      assert rows[..0] == [];
    } else {
      AddingRows(ps, account, done, m, covered, rows, n - 1);
      assert rows[..n][..n - 1] == rows[..n - 1];
      assert rows[..n] == rows[..n - 1] + [rows[n - 1]];
      assert rows[n - 1] in rows;
      AddingRow(AddRows(ps, m, rows[..n - 1]), account, done, m, rows[..n - 1], rows[n - 1]);
    }
  }

  lemma AddingRow(ps: seq<Position>, account: Account, done: set<Market>, m: Market, earlier: seq<Row>, r: Row)
    requires Partial(ps, account, done, m, earlier)
    requires r.qty > 0 ==>
      && r.ticker in account && account[r.ticker].home in done + {m}
      && r.qty == account[r.ticker].qty && r.valueUsd == account[r.ticker].valueUsd
    ensures Partial(AddRow(ps, m, r), account, done, m, earlier + [r])
  {
    if r.qty > 0 && r.ticker !in Tickers(ps) {
      NotDoneYet(ps, account, done, r.ticker);
      var p := Position(r.ticker, m, r.qty, r.valueUsd);
      assert p == Expected(account, r.ticker);
      assert Tickers(ps + [p]) == Tickers(ps) + {r.ticker};
      forall i | 0 <= i < |ps| ensures ps[i].ticker != r.ticker {
        assert ps[i] in ps;
      }
    }
  }

  lemma AddingListing(ps: seq<Position>, account: Account, done: set<Market>, m: Market, covered: set<Market>, rows: seq<Row>)
    requires Right(ps, account, done) && Shows(rows, account, covered)
    requires m !in done && m in covered && covered <= done + {m} && Positive(account)
    ensures Right(AddRows(ps, m, rows), account, done + {m})
  {
    AddingRows(ps, account, done, m, covered, rows, |rows|);
    assert rows[..|rows|] == rows;
    var after := AddRows(ps, m, rows);
    forall t | t in account && account[t].home == m ensures Expected(account, t) in after {
      var r := Row(t, account[t].qty, account[t].valueUsd);
      assert r in rows && r.qty > 0 && r.ticker in Tickers(after);
      var p :| p in after && p.ticker == t;
    }
  }

  // ps is the account: every holding once, under the exchange that lists it, and nothing else.
  ghost predicate IsAccount(ps: seq<Position>, account: Account) {
    && (forall i, j :: 0 <= i < j < |ps| ==> ps[i].ticker != ps[j].ticker)
    && (forall p :: p in ps ==> p.ticker in account && p == Expected(account, p.ticker))
    && (forall t :: t in account ==> Expected(account, t) in ps)
  }

  // ------------------------------------------------------------------ main results

  // Whatever order the listings come in, and whether or not NASDAQ repeats the other exchanges:
  // when all three could be read, the balance holds every holding of the account exactly once,
  // under the exchange that lists it, and nothing else.
  lemma EveryHoldingOnce(listings: Market -> Listing, account: Account, isReal: bool)
    requires ListsAccount(listings, account, isReal)
    ensures Outcome(listings).Balance?
    ensures IsAccount(Outcome(listings).positions, account) && |Outcome(listings).positions| == |account|
  {
    var a := AddRows([], NYSE, listings(NYSE).rows);
    var b := AddRows(a, AMEX, listings(AMEX).rows);
    var c := AddRows(b, NASDAQ, listings(NASDAQ).rows);
    QueryUnfolds(listings);
    hide AddRows, Shows, Outcome;
    AddingListing([], account, {}, NYSE, {NYSE}, listings(NYSE).rows);
    AddingListing(a, account, {NYSE}, AMEX, {AMEX}, listings(AMEX).rows);
    AddingListing(b, account, {NYSE, AMEX}, NASDAQ, if isReal then {NYSE, AMEX, NASDAQ} else {NASDAQ}, listings(NASDAQ).rows);
    assert {} + {NYSE} == {NYSE} && {NYSE} + {AMEX} == {NYSE, AMEX};
    AllCovered(c, account);
    SameSize(c, account);
  }

  lemma AllCovered(ps: seq<Position>, account: Account)
    requires Right(ps, account, {NYSE, AMEX} + {NASDAQ})
    ensures IsAccount(ps, account)
  {
    forall t | t in account ensures account[t].home in {NYSE, AMEX} + {NASDAQ} {
      assert account[t].home == NYSE || account[t].home == AMEX || account[t].home == NASDAQ;
    }
  }

  lemma QueryUnfolds(listings: Market -> Listing)
    requires forall m :: listings(m).Listed?
    ensures Outcome(listings).Balance?
    ensures Outcome(listings).positions
      == AddRows(AddRows(AddRows([], NYSE, listings(NYSE).rows), AMEX, listings(AMEX).rows), NASDAQ, listings(NASDAQ).rows)
  {
    hide AddRows;
    assert QUERY_ORDER[..2] == [NYSE, AMEX] && [NYSE, AMEX][..1] == [NYSE] && [NYSE][..0] == [];
    assert AddListings(listings, [NYSE]) == AddRows([], NYSE, listings(NYSE).rows);
    assert AddListings(listings, [NYSE, AMEX]) == AddRows(AddListings(listings, [NYSE]), AMEX, listings(AMEX).rows);
    assert FailedOf(listings, [NYSE]) == [] && FailedOf(listings, [NYSE, AMEX]) == [];
  }

  lemma SameSize(ps: seq<Position>, account: Account)
    requires IsAccount(ps, account)
    ensures |ps| == |account|
  {
    var names := seq(|ps|, i requires 0 <= i < |ps| => ps[i].ticker);
    DistinctCount(names);
    assert Elements(names) == account.Keys by {
      forall t | t in account ensures t in names {
        var i :| 0 <= i < |ps| && ps[i] == Expected(account, t);
        assert names[i] == t;
      }
    }
  }

  // The value of an account, added up over its tickers in any order.
  ghost function Worth(account: Account): real {
    if account == map[] then 0.0
    else
      var t :| t in account;
      account[t].valueUsd + Worth(account - {t})
  }

  // The total is the sum over the distinct tickers: no holding is counted twice.
  lemma TotalIsWorth(listings: Market -> Listing, account: Account, isReal: bool)
    requires ListsAccount(listings, account, isReal)
    ensures Outcome(listings).Balance? && Outcome(listings).totalUsd == Worth(account)
  {
    EveryHoldingOnce(listings, account, isReal);
    SumOverTickers(Outcome(listings).positions, account);
  }

  lemma {:induction false} SumOverTickers(ps: seq<Position>, account: Account)
    requires IsAccount(ps, account)
    ensures Total(ps) == Worth(account)
  {
    if ps != [] {
      var last := ps[|ps| - 1];
      var init := ps[..|ps| - 1];
      var rest := account - {last.ticker};
      assert last in ps;
      forall t | t in rest ensures Expected(rest, t) in init {
        assert Expected(account, t) in ps && Expected(account, t) != last;
      }
      SumOverTickers(init, rest);
      WorthWithout(account, last.ticker);
    } else {
      SameSize(ps, account);
      assert account == map[];
    }
  }

  lemma {:induction false} WorthWithout(account: Account, t: Ticker)
    requires t in account
    ensures Worth(account) == account[t].valueUsd + Worth(account - {t})
  {
    var first :| t in account && first in account && Worth(account) == account[first].valueUsd + Worth(account - {first});
    if first == t {
    } else {
      WorthWithout(account - {first}, t);
      WorthWithout(account - {t}, first);
      assert account - {first} - {t} == account - {t} - {first};
    }
  }

  lemma FailedUnfolds(listings: Market -> Listing)
    ensures FailedOf(listings, QUERY_ORDER) == []
            <==> !listings(NYSE).Failed? && !listings(AMEX).Failed? && !listings(NASDAQ).Failed?
  {
    assert QUERY_ORDER[..2] == [NYSE, AMEX] && [NYSE, AMEX][..1] == [NYSE] && [NYSE][..0] == [];
    assert FailedOf(listings, [NYSE]) == if listings(NYSE).Failed? then [NYSE] else [];
    assert FailedOf(listings, [NYSE, AMEX]) == FailedOf(listings, [NYSE]) + if listings(AMEX).Failed? then [AMEX] else [];
  }

  // No partial result: a balance comes out only if every exchange was read.
  lemma AllOrNothing(listings: Market -> Listing)
    ensures Outcome(listings).Balance? <==> forall m :: listings(m).Listed?
  {
    hide FailedOf, AddListings, Deposit, Total;
    FailedUnfolds(listings);
    if Outcome(listings).Balance? {
      forall m ensures listings(m).Listed? {
        match m
        case NYSE =>
        case AMEX =>
        case NASDAQ =>
      }
    }
  }

  // The deposit is unknown only if no exchange reported the field; a reported non-zero amount
  // is never overwritten by another exchange's zero.
  lemma DepositMeans(listings: Market -> Listing)
    requires forall m :: listings(m).Listed?
    ensures Outcome(listings).Balance?
    ensures var d := Outcome(listings).depositUsd;
      && (d.None? <==> forall m :: listings(m).depositUsd.None?)
      && (d.Some? ==> exists m :: listings(m).depositUsd == d)
      && (d == Some(0.0) ==> forall m :: listings(m).depositUsd.Some? ==> listings(m).depositUsd == Some(0.0))
  {
    QueryUnfolds(listings);
    hide AddListings, AddRows;
    assert QUERY_ORDER[..2] == [NYSE, AMEX] && [NYSE, AMEX][..1] == [NYSE] && [NYSE][..0] == [];
    var a := Deposit(listings, [NYSE]);
    assert a == listings(NYSE).depositUsd;
    var b := Deposit(listings, [NYSE, AMEX]);
    assert b == if listings(AMEX).depositUsd.Some? && (a.None? || a.value == 0.0) then listings(AMEX).depositUsd else a;
    var c := Deposit(listings, QUERY_ORDER);
    assert c == if listings(NASDAQ).depositUsd.Some? && (b.None? || b.value == 0.0) then listings(NASDAQ).depositUsd else b;
    forall m ensures listings(m) == listings(NYSE) || listings(m) == listings(AMEX) || listings(m) == listings(NASDAQ) {
      assert m == NYSE || m == AMEX || m == NASDAQ;
    }
  }
}
