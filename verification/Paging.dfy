// Continuation paging. A server answers a request key with a page, whether more follow, and the
// key of the next page; following the links from the empty key is the only way to the full list.
module Paging {
  import opened Basics

  // KIS sends two continuation keys and judges by the second; Kiwoom sends one (in nk).
  datatype Key = Key(fk: string, nk: string)

  const FIRST := Key("", "")
  const MAX_PAGES: nat := 20
  const UNFILLED_MAX_PAGES: nat := 5

  datatype Reply<Row> = Failed | Page(rows: seq<Row>, more: bool, next: Key)

  type Server<!Row> = Key -> Reply<Row>

  datatype Error = RequestFailed | NoKey | KeyRepeated | TooManyPages

  datatype Result<T> = Ok(value: T) | Err(error: Error)

  // ------------------------------------------------------------------ the full list

  // pages is the whole list that starts at key: each page links to the next, the last ends it.
  ghost predicate FullChain<Row>(server: Server<Row>, key: Key, pages: seq<Reply<Row>>)
    decreases pages
  {
    && pages != []
    && pages[0] == server(key) && pages[0].Page?
    && (if |pages| == 1 then !pages[0].more
        else pages[0].more && FullChain(server, pages[0].next, pages[1..]))
  }

  // The keys actually used along a chain, starting with the first.
  ghost function KeysOf<Row>(key: Key, pages: seq<Reply<Row>>): seq<Key>
    requires forall p :: p in pages ==> p.Page?
    decreases pages
  {
    if pages == [] then [] else [key] + KeysOf(pages[0].next, pages[1..])
  }

  lemma {:induction false} ChainPages<Row>(server: Server<Row>, key: Key, pages: seq<Reply<Row>>)
    requires FullChain(server, key, pages)
    ensures forall p :: p in pages ==> p.Page?
    ensures forall i :: 0 <= i < |pages| ==> (pages[i].more <==> i < |pages| - 1)
    decreases pages
  {
    if |pages| == 1 {
    } else {
      ChainPages(server, pages[0].next, pages[1..]);
      assert pages == [pages[0]] + pages[1..];
    }
  }

  // There is at most one full list.
  lemma {:induction false} ChainUnique<Row>(server: Server<Row>, key: Key, a: seq<Reply<Row>>, b: seq<Reply<Row>>)
    requires FullChain(server, key, a) && FullChain(server, key, b)
    ensures a == b
    decreases a
  {
    if |a| == 1 {
    } else {
      ChainUnique(server, a[0].next, a[1..], b[1..]);
      assert a == [a[0]] + a[1..] && b == [b[0]] + b[1..];
    }
  }

  // A list that ends never comes back to a key: following equal keys would go on for ever.
  lemma {:induction false} NoKeyTwice<Row>(server: Server<Row>, key: Key, pages: seq<Reply<Row>>, i: nat)
    requires FullChain(server, key, pages) && i < |pages| - 1
    requires pages[i].Page?
    ensures pages[i].next != key
    decreases pages
  {
    if pages[i].next == key {
      ChainSuffix(server, key, pages, i);
      ChainUnique(server, key, pages, pages[i + 1..]);
      assert false;
    }
  }

  lemma {:induction false} ChainSuffix<Row>(server: Server<Row>, key: Key, pages: seq<Reply<Row>>, i: nat)
    requires FullChain(server, key, pages) && i < |pages| - 1
    ensures pages[i].Page? && FullChain(server, pages[i].next, pages[i + 1..])
    decreases pages
  {
    if i == 0 {
    } else {
      ChainSuffix(server, pages[0].next, pages[1..], i - 1);
      assert pages[1..][i..] == pages[i + 1..];
    }
  }

  // ------------------------------------------------------------------ following the links

  // What the page loop does from a key on: prev is the key just requested, pages those so far.
  function Follow<Row>(server: Server<Row>, key: Key, budget: nat): Result<seq<Reply<Row>>>
    decreases budget
  {
    if budget == 0 then Err(TooManyPages)
    else
      var reply := server(key);
      if reply.Failed? then Err(RequestFailed)
      else if !reply.more then Ok([reply])
      else if Blank(reply.next.nk) then Err(NoKey)
      else if reply.next == key then Err(KeyRepeated)
      else
        Prepend([reply], Follow(server, reply.next, budget - 1))
  }

  function Prepend<T>(done: seq<T>, rest: Result<seq<T>>): Result<seq<T>> {
    if rest.Err? then rest else Ok(done + rest.value)
  }

  lemma PrependPrepend<T>(a: seq<T>, b: seq<T>, rest: Result<seq<T>>)
    ensures Prepend(a, Prepend(b, rest)) == Prepend(a + b, rest)
    ensures Prepend([], rest) == rest
  {
    if rest.Ok? {
      assert a + (b + rest.value) == a + b + rest.value;
      assert [] + rest.value == rest.value;
    }
  }

  function Same(key: Key): Key {
    key
  }

  // pages were followed from key on and led to the key at: each promises more and links on, by a key
  // as link reads it, to somewhere else.
  ghost predicate Trail<Row>(server: Server<Row>, link: Key -> Key, key: Key, pages: seq<Reply<Row>>, at: Key)
    decreases pages
  {
    if pages == [] then at == key
    else
      && pages[0] == server(key) && pages[0].Page? && pages[0].more
      && !Blank(pages[0].next.nk) && link(pages[0].next) != key
      && Trail(server, link, link(pages[0].next), pages[1..], at)
  }

  // Why there is no going on from a key with so many requests left.
  predicate Stuck<Row>(server: Server<Row>, link: Key -> Key, at: Key, left: int, error: Error) {
    match error
    case TooManyPages => left == 0
    case RequestFailed => left > 0 && server(at).Failed?
    case NoKey => left > 0 && server(at).Page? && server(at).more && Blank(server(at).next.nk)
    case KeyRepeated =>
      left > 0 && server(at).Page? && server(at).more && !Blank(server(at).next.nk) && link(server(at).next) == at
  }

  ghost predicate FailsAfter<Row>(server: Server<Row>, key: Key, pages: seq<Reply<Row>>, at: Key, budget: nat, error: Error) {
    Trail(server, Same, key, pages, at) && |pages| <= budget && Stuck(server, Same, at, budget - |pages|, error)
  }

  lemma {:induction false} TrailAppend<Row>(server: Server<Row>, link: Key -> Key, key: Key, pages: seq<Reply<Row>>, at: Key)
    requires Trail(server, link, key, pages, at) && server(at).Page? && server(at).more
    requires !Blank(server(at).next.nk) && link(server(at).next) != at
    ensures Trail(server, link, key, pages + [server(at)], link(server(at).next))
    decreases pages
  {
    if pages == [] {
      assert [] + [server(at)] == [server(at)] && [server(at)][1..] == [];
    } else {
      assert (pages + [server(at)])[1..] == pages[1..] + [server(at)];
      TrailAppend(server, link, link(pages[0].next), pages[1..], at);
    }
  }

  lemma {:induction false} TrailFails<Row>(server: Server<Row>, key: Key, budget: nat, pages: seq<Reply<Row>>, at: Key,
                                           error: Error)
    requires Trail(server, Same, key, pages, at) && |pages| <= budget && Stuck(server, Same, at, budget - |pages|, error)
    ensures Follow(server, key, budget) == Err(error)
    decreases pages
  {
    if pages == [] {
    } else {
      TrailFails(server, pages[0].next, budget - 1, pages[1..], at, error);
    }
  }

  lemma {:induction false} FailsOnTrail<Row>(server: Server<Row>, key: Key, budget: nat)
    returns (pages: seq<Reply<Row>>, at: Key)
    requires Follow(server, key, budget).Err?
    ensures Trail(server, Same, key, pages, at) && |pages| <= budget
    ensures Stuck(server, Same, at, budget - |pages|, Follow(server, key, budget).error)
    decreases budget
  {
    if Stuck(server, Same, key, budget, Follow(server, key, budget).error) {
      pages, at := [], key;
    } else {
      var rest;
      rest, at := FailsOnTrail(server, server(key).next, budget - 1);
      pages := [server(key)] + rest;
      assert pages[1..] == rest;
    }
  }

  // Each error is raised exactly where it says: at the end of a trail of keyed pages, on the request
  // that failed, on the page that names no next key or only its own, or when the requests run out.
  lemma FailsIff<Row>(server: Server<Row>, key: Key, budget: nat, error: Error)
    ensures Follow(server, key, budget) == Err(error)
      <==> exists pages, at :: FailsAfter(server, key, pages, at, budget, error)
  {
    hide Follow, Stuck, Trail;
    if Follow(server, key, budget) == Err(error) {
      var pages, at := FailsOnTrail(server, key, budget);
      assert FailsAfter(server, key, pages, at, budget, error);
    }
    if pages, at :| FailsAfter(server, key, pages, at, budget, error) {
      TrailFails(server, key, budget, pages, at, error);
    }
  }

  // The KIS balance loop.
  method FetchBalancePages<Row>(server: Server<Row>) returns (r: Result<seq<Reply<Row>>>, requests: nat)
    ensures r == Follow(server, FIRST, MAX_PAGES)
    ensures requests <= MAX_PAGES && (r.Ok? ==> requests == |r.value|)
    ensures r.Err? ==> exists pages, at :: FailsAfter(server, FIRST, pages, at, MAX_PAGES, r.error)
                                           && requests == if r.error == TooManyPages then MAX_PAGES else |pages| + 1
  {
    var pages: seq<Reply<Row>> := [];
    var key := FIRST;
    requests := 0;
    PrependPrepend(pages, pages, Follow(server, key, MAX_PAGES));
    assert Trail(server, Same, FIRST, pages, key);
    hide Trail, Blank;
    for page := 0 to MAX_PAGES
      invariant requests == page == |pages|
      invariant Follow(server, FIRST, MAX_PAGES) == Prepend(pages, Follow(server, key, MAX_PAGES - page))
      invariant Trail(server, Same, FIRST, pages, key)
    {
      ghost var before := pages;
      var data := server(key);
      requests := requests + 1;
      if data.Page? {
        PrependPrepend(pages, [data], Follow(server, data.next, MAX_PAGES - page - 1));
      }
      if data.Failed? {
        assert FailsAfter(server, FIRST, before, key, MAX_PAGES, RequestFailed);
        return Err(RequestFailed), requests;
      }
      pages := pages + [data];
      if !data.more {
        return Ok(pages), requests;
      }
      var prev := key;
      key := data.next;
      if Blank(key.nk) {
        assert FailsAfter(server, FIRST, before, prev, MAX_PAGES, NoKey);
        return Err(NoKey), requests;
      }
      if key == prev {
        assert FailsAfter(server, FIRST, before, prev, MAX_PAGES, KeyRepeated);
        return Err(KeyRepeated), requests;
      }
      TrailAppend(server, Same, FIRST, before, prev);
    }
    assert FailsAfter(server, FIRST, pages, key, MAX_PAGES, TooManyPages);
    return Err(TooManyPages), requests;
  }

  function Rows<Row>(pages: seq<Reply<Row>>): seq<Row>
    requires forall p :: p in pages ==> p.Page?
  {
    if pages == [] then [] else pages[0].rows + Rows(pages[1..])
  }

  // The Kiwoom loop, which keeps the first reply and the rows of all pages.
  method FetchListPages<Row>(server: Server<Row>) returns (r: Result<(Reply<Row>, seq<Row>)>)
    requires forall key :: server(key).Page? ==> server(key).next.fk == ""
    ensures var f := Follow(server, FIRST, MAX_PAGES);
      && (f.Err? ==> r == Err(f.error))
      && (f.Ok? ==> f.value != [] && (forall p :: p in f.value ==> p.Page?) && r == Ok((f.value[0], Rows(f.value))))
  {
    ghost var pages: seq<Reply<Row>> := [];
    var first: Option<Reply<Row>> := None;
    var rows: seq<Row> := [];
    var nextKey := "";
    PrependPrepend(pages, pages, Follow(server, FIRST, MAX_PAGES));
    for page := 0 to MAX_PAGES
      invariant |pages| == page && (forall p :: p in pages ==> p.Page?)
      invariant rows == Rows(pages)
      invariant first == if page == 0 then None else Some(pages[0])
      invariant Follow(server, FIRST, MAX_PAGES) == Prepend(pages, Follow(server, Key("", nextKey), MAX_PAGES - page))
    {
      var data := server(Key("", nextKey));
      if data.Failed? {
        return Err(RequestFailed);
      }
      if first.None? {
        first := Some(data);
      }
      RowsAppend(pages, data);
      PrependPrepend(pages, [data], Follow(server, data.next, MAX_PAGES - page - 1));
      rows := rows + data.rows;
      pages := pages + [data];
      var prevKey := nextKey;
      nextKey := data.next.nk;
      if !data.more {
        return Ok((first.value, rows));
      }
      if Blank(nextKey) {
        return Err(NoKey);
      }
      if nextKey == prevKey {
        return Err(KeyRepeated);
      }
    }
    return Err(TooManyPages);
  }

  lemma {:induction false} RowsAppend<Row>(pages: seq<Reply<Row>>, p: Reply<Row>)
    requires p.Page? && forall q :: q in pages ==> q.Page?
    ensures Rows(pages + [p]) == Rows(pages) + p.rows
  {
    if pages == [] {
      assert [p][1..] == [];
    } else {
      assert (pages + [p])[1..] == pages[1..] + [p];
      RowsAppend(pages[1..], p);
    }
  }

  // ------------------------------------------------------------------ all or nothing

  // The keys the server hands out are usable: never blank while more pages follow.
  ghost predicate KeyedLinks<Row>(pages: seq<Reply<Row>>) {
    forall i :: 0 <= i < |pages| - 1 ==> pages[i].Page? && !Blank(pages[i].next.nk)
  }

  // Paging succeeds with exactly the full list, in order, precisely when the list ends within
  // the page limit and every link carries a key. Otherwise it raises: it never returns a proper
  // prefix, and never a page twice.
  lemma AllOrNothing<Row>(server: Server<Row>, key: Key, budget: nat, pages: seq<Reply<Row>>)
    ensures Follow(server, key, budget) == Ok(pages)
      <==> FullChain(server, key, pages) && |pages| <= budget && KeyedLinks(pages)
  {
    if Follow(server, key, budget).Ok? {
      FollowedIsFull(server, key, budget);
    }
    if FullChain(server, key, pages) && |pages| <= budget && KeyedLinks(pages) {
      FullIsFollowed(server, key, budget, pages);
    }
  }

  lemma {:induction false} FollowedIsFull<Row>(server: Server<Row>, key: Key, budget: nat)
    requires Follow(server, key, budget).Ok?
    ensures var pages := Follow(server, key, budget).value;
      FullChain(server, key, pages) && |pages| <= budget && KeyedLinks(pages)
    decreases budget
  {
    var reply := server(key);
    if !reply.more {
    } else {
      FollowedIsFull(server, reply.next, budget - 1);
      var rest := Follow(server, reply.next, budget - 1).value;
      var pages := [reply] + rest;
      assert pages[1..] == rest;
      assert forall i :: 1 <= i < |pages| - 1 ==> pages[i] == rest[i - 1];
    }
  }

  lemma {:induction false} FullIsFollowed<Row>(server: Server<Row>, key: Key, budget: nat, pages: seq<Reply<Row>>)
    requires FullChain(server, key, pages) && |pages| <= budget && KeyedLinks(pages)
    ensures Follow(server, key, budget) == Ok(pages)
    decreases budget
  {
    assert pages == [pages[0]] + pages[1..];
    if |pages| == 1 {
      assert pages == [server(key)];
    } else {
      NoKeyTwice(server, key, pages, 0);
      assert !Blank(pages[0].next.nk);
      assert forall i :: 0 <= i < |pages| - 2 ==> pages[1..][i] == pages[i + 1];
      FullIsFollowed(server, pages[0].next, budget - 1, pages[1..]);
    }
  }

  // A server that ends its list within the limit and keys every link is read completely, so the
  // repeated-key guard only ever fires on lists that would never have ended.
  lemma RepeatedKeyMeansEndless<Row>(server: Server<Row>, budget: nat, pages: seq<Reply<Row>>)
    requires Follow(server, FIRST, budget) == Err(KeyRepeated)
    ensures !FullChain(server, FIRST, pages)
  {
    RepeatedOnChain(server, FIRST, budget, pages);
  }

  lemma {:induction false} RepeatedOnChain<Row>(server: Server<Row>, key: Key, budget: nat, pages: seq<Reply<Row>>)
    requires Follow(server, key, budget) == Err(KeyRepeated)
    ensures !FullChain(server, key, pages)
    decreases budget
  {
    if FullChain(server, key, pages) {
      if server(key).next == key {
        NoKeyTwice(server, key, pages, 0);
      } else {
        RepeatedOnChain(server, server(key).next, budget - 1, pages[1..]);
      }
    }
  }

  // ------------------------------------------------------------------ unfilled quantity

  datatype Order = Order(number: string, remaining: int)

  function WithoutZeros(s: string): string {
    if s != "" && s[0] == '0' then WithoutZeros(s[1..]) else s
  }

  predicate AllZeros(s: string) {
    forall k :: 0 <= k < |s| ==> s[k] == '0'
  }

  // What comes off is zeros, and none is left in front.
  lemma {:induction false} WithoutZerosMeans(s: string) returns (k: nat)
    ensures k <= |s| && AllZeros(s[..k]) && WithoutZeros(s) == s[k..]
    ensures WithoutZeros(s) == "" || WithoutZeros(s)[0] != '0'
  {
    if s == "" || s[0] != '0' {
      k := 0;
    } else {
      var rest := WithoutZerosMeans(s[1..]);
      k := rest + 1;
      assert s[..k] == [s[0]] + s[1..][..rest];
    }
  }

  // The same number: equal once some zeros are taken off the front of each.
  ghost predicate SameNumber(a: string, b: string) {
    exists i, j :: 0 <= i <= |a| && 0 <= j <= |b| && AllZeros(a[..i]) && AllZeros(b[..j]) && a[i..] == b[j..]
  }

  lemma {:induction false} ZerosComeOff(s: string, k: nat)
    requires k <= |s| && AllZeros(s[..k])
    ensures WithoutZeros(s) == WithoutZeros(s[k..])
  {
    if k == 0 {
      assert s[0..] == s;
    } else {
      assert s[..k][0] == s[0];
      assert s[..k] == [s[0]] + s[1..][..k - 1] && s[1..][k - 1..] == s[k..];
      ZerosComeOff(s[1..], k - 1);
    }
  }

  lemma SameNumberIff(a: string, b: string)
    ensures WithoutZeros(a) == WithoutZeros(b) <==> SameNumber(a, b)
  {
    var k := WithoutZerosMeans(a);
    var m := WithoutZerosMeans(b);
    if SameNumber(a, b) {
      var i, j :| 0 <= i <= |a| && 0 <= j <= |b| && AllZeros(a[..i]) && AllZeros(b[..j]) && a[i..] == b[j..];
      ZerosComeOff(a, i);
      ZerosComeOff(b, j);
    }
  }

  function Strip(s: string): string {
    StripRight(StripLeft(s))
  }

  function StripLeft(s: string): string {
    if s != "" && IsSpace(s[0]) then StripLeft(s[1..]) else s
  }

  function StripRight(s: string): string {
    if s != "" && IsSpace(s[|s| - 1]) then StripRight(s[..|s| - 1]) else s
  }

  function Stripped(k: Key): Key {
    Key(Strip(k.fk), Strip(k.nk))
  }

  function Lookup(rows: seq<Order>, target: string): Option<int> {
    if rows == [] then None
    else if WithoutZeros(rows[0].number) == target then Some(rows[0].remaining)
    else Lookup(rows[1..], target)
  }

  function Search(server: Server<Order>, target: string, key: Key, budget: nat): Result<int>
    decreases budget
  {
    if budget == 0 then Err(TooManyPages)
    else
      var reply := server(key);
      if reply.Failed? then Err(RequestFailed)
      else if Lookup(reply.rows, target).Some? then Ok(Lookup(reply.rows, target).value)
      else if !reply.more then Ok(0)
      else if Stripped(reply.next).nk == "" then Err(NoKey)
      else if Stripped(reply.next) == key then Err(KeyRepeated)
      else Search(server, target, Stripped(reply.next), budget - 1)
  }

  // The pages actually visited: linked by stripped keys, the last one ending the list if last.
  ghost predicate Visited(server: Server<Order>, key: Key, pages: seq<Reply<Order>>, complete: bool)
    decreases pages
  {
    && pages != []
    && pages[0] == server(key) && pages[0].Page?
    && (if |pages| == 1 then !complete || !pages[0].more
        else pages[0].more && Visited(server, Stripped(pages[0].next), pages[1..], complete))
  }

  ghost predicate Absent(pages: seq<Reply<Order>>, target: string) {
    forall p :: p in pages ==> p.Page? && forall o :: o in p.rows ==> WithoutZeros(o.number) != target
  }

  lemma {:induction false} LookupMeans(rows: seq<Order>, target: string)
    ensures match Lookup(rows, target)
      case None => forall o :: o in rows ==> WithoutZeros(o.number) != target
      case Some(q) => exists i :: 0 <= i < |rows| && WithoutZeros(rows[i].number) == target && rows[i].remaining == q
                        && forall j :: 0 <= j < i ==> WithoutZeros(rows[j].number) != target
  {
    if rows == [] || WithoutZeros(rows[0].number) == target {
    } else {
      LookupMeans(rows[1..], target);
      if Lookup(rows[1..], target).Some? {
        var i :| 0 <= i < |rows[1..]| && WithoutZeros(rows[1..][i].number) == target
          && rows[1..][i].remaining == Lookup(rows, target).value
          && forall j :: 0 <= j < i ==> WithoutZeros(rows[1..][j].number) != target;
        assert rows[i + 1] == rows[1..][i];
        forall j | 0 <= j < i + 1 ensures WithoutZeros(rows[j].number) != target {
          assert j > 0 ==> rows[j] == rows[1..][j - 1];
        }
      }
    }
  }

  // pages tells why the search from key may answer q: either q is the remaining quantity of the
  // order as first listed on the last page reached, with the order on no earlier page, or q is
  // 0 and the list was read to its end without the order on any page.
  ghost predicate Explains(server: Server<Order>, target: string, key: Key, q: int, pages: seq<Reply<Order>>) {
    || (q == 0 && Visited(server, key, pages, true) && Absent(pages, target))
    || (Visited(server, key, pages, false) && Absent(pages[..|pages| - 1], target)
        && pages[|pages| - 1].Page? && Lookup(pages[|pages| - 1].rows, target) == Some(q))
  }

  // Every answer is explained by the pages the search visited, within the page limit.
  lemma {:induction false} AnswerMeans(server: Server<Order>, target: string, key: Key, budget: nat) returns (pages: seq<Reply<Order>>)
    requires Search(server, target, key, budget).Ok?
    ensures |pages| <= budget
    ensures Explains(server, target, key, Search(server, target, key, budget).value, pages)
    decreases budget
  {
    var reply := server(key);
    LookupMeans(reply.rows, target);
    if Lookup(reply.rows, target).Some? || !reply.more {
      pages := [reply];
    } else {
      var rest := AnswerMeans(server, target, Stripped(reply.next), budget - 1);
      pages := [reply] + rest;
      ExplainsFromBefore(server, target, key, Search(server, target, key, budget).value, rest);
    }
  }

  lemma ExplainsFromBefore(server: Server<Order>, target: string, key: Key, q: int, rest: seq<Reply<Order>>)
    requires server(key).Page? && server(key).more && forall o :: o in server(key).rows ==> WithoutZeros(o.number) != target
    requires Explains(server, target, Stripped(server(key).next), q, rest)
    ensures Explains(server, target, key, q, [server(key)] + rest)
  {
    hide Lookup, WithoutZeros, Stripped;
    var pages := [server(key)] + rest;
    assert pages[1..] == rest;
    assert pages[..|pages| - 1] == [server(key)] + rest[..|rest| - 1];
  }

  // pages are what the search read to answer q for the order: either it read the list to its end, no
  // row of any page has that number, and q is 0; or no row of an earlier page has it, and q is what
  // remains in the first row of the last page that does.
  ghost predicate Answered(server: Server<Order>, orderNo: string, q: int, pages: seq<Reply<Order>>) {
    && (forall p :: p in pages ==> p.Page?)
    && (|| (q == 0 && Visited(server, FIRST, pages, true) && forall p :: p in pages ==> Unlisted(p.rows, orderNo))
        || (Visited(server, FIRST, pages, false)
            && (forall p :: p in pages[..|pages| - 1] ==> Unlisted(p.rows, orderNo))
            && FirstListed(pages[|pages| - 1].rows, orderNo, q)))
  }

  ghost predicate Unlisted(rows: seq<Order>, orderNo: string) {
    forall o :: o in rows ==> !SameNumber(o.number, orderNo)
  }

  ghost predicate FirstListed(rows: seq<Order>, orderNo: string, q: int) {
    exists i :: 0 <= i < |rows| && SameNumber(rows[i].number, orderNo) && rows[i].remaining == q
      && Unlisted(rows[..i], orderNo)
  }

  lemma UnlistedIff(rows: seq<Order>, orderNo: string)
    ensures Unlisted(rows, orderNo) <==> forall o :: o in rows ==> WithoutZeros(o.number) != WithoutZeros(orderNo)
  {
    hide WithoutZeros, SameNumber;
    forall o | o in rows ensures SameNumber(o.number, orderNo) <==> WithoutZeros(o.number) == WithoutZeros(orderNo) {
      SameNumberIff(o.number, orderNo);
    }
  }

  lemma FoundIsFirstListed(rows: seq<Order>, orderNo: string, q: int)
    requires Lookup(rows, WithoutZeros(orderNo)) == Some(q)
    ensures FirstListed(rows, orderNo, q)
  {
    hide WithoutZeros, SameNumber;
    var target := WithoutZeros(orderNo);
    LookupMeans(rows, target);
    var i :| 0 <= i < |rows| && WithoutZeros(rows[i].number) == target && rows[i].remaining == q
      && forall j :: 0 <= j < i ==> WithoutZeros(rows[j].number) != target;
    SameNumberIff(rows[i].number, orderNo);
    forall o | o in rows[..i] ensures WithoutZeros(o.number) != target {
      var j :| 0 <= j < i && rows[j] == o;
    }
    UnlistedIff(rows[..i], orderNo);
  }

  lemma SearchAnswers(server: Server<Order>, orderNo: string)
    ensures var r := Search(server, WithoutZeros(orderNo), FIRST, UNFILLED_MAX_PAGES);
      r.Ok? ==> exists pages :: |pages| <= UNFILLED_MAX_PAGES && Answered(server, orderNo, r.value, pages)
  {
    hide WithoutZeros, SameNumber, Search;
    var target := WithoutZeros(orderNo);
    var r := Search(server, target, FIRST, UNFILLED_MAX_PAGES);
    if r.Ok? {
      var pages := AnswerMeans(server, target, FIRST, UNFILLED_MAX_PAGES);
      VisitedArePages(server, FIRST, pages, false);
      forall p | p in pages && p.Page?
        ensures Unlisted(p.rows, orderNo) <==> forall o :: o in p.rows ==> WithoutZeros(o.number) != target
      {
        UnlistedIff(p.rows, orderNo);
      }
      hide Unlisted;
      if r.value == 0 && Visited(server, FIRST, pages, true) && Absent(pages, target) {
      } else {
        FoundIsFirstListed(pages[|pages| - 1].rows, orderNo, r.value);
      }
      assert Answered(server, orderNo, r.value, pages);
    }
  }

  lemma {:induction false} VisitedArePages(server: Server<Order>, key: Key, pages: seq<Reply<Order>>, complete: bool)
    requires Visited(server, key, pages, complete) || Visited(server, key, pages, !complete)
    ensures forall p :: p in pages ==> p.Page?
    decreases pages
  {
    if |pages| == 1 {
    } else {
      VisitedArePages(server, Stripped(pages[0].next), pages[1..], complete);
      assert pages == [pages[0]] + pages[1..];
    }
  }

  // The paged search: a quantity, or an error when the list could not be seen to its end.
  method UnfilledQuantity(server: Server<Order>, orderNo: string) returns (r: Result<int>)
    ensures r == Search(server, WithoutZeros(orderNo), FIRST, UNFILLED_MAX_PAGES)
    ensures r.Ok? ==> exists pages :: |pages| <= UNFILLED_MAX_PAGES && Answered(server, orderNo, r.value, pages)
  {
    SearchAnswers(server, orderNo);
    hide Answered, WithoutZeros;
    var target := WithoutZeros(orderNo);
    var key := FIRST;
    for page := 0 to UNFILLED_MAX_PAGES
      invariant Search(server, target, FIRST, UNFILLED_MAX_PAGES) == Search(server, target, key, UNFILLED_MAX_PAGES - page)
    {
      var data := server(key);
      if data.Failed? {
        return Err(RequestFailed);
      }
      for i := 0 to |data.rows|
        invariant Lookup(data.rows, target) == Lookup(data.rows[i..], target)
      {
        assert data.rows[i..][1..] == data.rows[i + 1..];
        if WithoutZeros(data.rows[i].number) == target {
          return Ok(data.rows[i].remaining);
        }
      }
      assert data.rows[|data.rows|..] == [];
      if !data.more {
        return Ok(0);
      }
      var prev := key;
      key := Stripped(data.next);
      if key.nk == "" {
        return Err(NoKey);
      }
      if key == prev {
        return Err(KeyRepeated);
      }
    }
    return Err(TooManyPages);
  }

  // ------------------------------------------------------------------ the search and the full list

  // The server pays no attention to white space around a key.
  ghost predicate KeysIgnoreSpace<Row>(server: Server<Row>) {
    forall key :: SameUnderStrip(server, key)
  }

  predicate SameUnderStrip<Row(==)>(server: Server<Row>, key: Key) {
    server(key) == server(Stripped(key))
  }

  // The beginning of the server's list from key on: pages linked by non-blank keys.
  ghost predicate Linked<Row>(server: Server<Row>, key: Key, pages: seq<Reply<Row>>)
    decreases pages
  {
    && pages != []
    && pages[0] == server(key) && pages[0].Page?
    && (|pages| > 1 ==>
          pages[0].more && !Blank(pages[0].next.nk) && Linked(server, pages[0].next, pages[1..]))
  }

  // The search for target may stop with q at the last of these pages, and not before.
  ghost predicate StopsWith(pages: seq<Reply<Order>>, target: string, q: int) {
    && pages != [] && pages[|pages| - 1].Page?
    && Absent(pages[..|pages| - 1], target)
    && match Lookup(pages[|pages| - 1].rows, target)
       case Some(found) => q == found
       case None => q == 0 && !pages[|pages| - 1].more
  }

  // The order is listed within the limit, and q is its remaining quantity where it is listed first.
  ghost predicate ListsWithin(server: Server<Order>, target: string, budget: nat, q: int) {
    exists pages: seq<Reply<Order>> :: Linked(server, FIRST, pages) && |pages| <= budget && StopsWith(pages, target, q)
      && Lookup(pages[|pages| - 1].rows, target).Some?
  }

  // The whole list can be followed within the limit, and the order is on no page of it.
  ghost predicate EndsWithout(server: Server<Order>, target: string, budget: nat) {
    exists pages :: FullChain(server, FIRST, pages) && |pages| <= budget && KeyedLinks(pages) && Absent(pages, target)
  }

  // What comes off is white space on both sides, and none is left on either.
  lemma StripMeans(s: string) returns (i: nat, j: nat)
    ensures i <= j <= |s| && Strip(s) == s[i..j] && Blank(s[..i]) && Blank(s[j..])
    ensures Strip(s) == "" || (!IsSpace(Strip(s)[0]) && !IsSpace(Strip(s)[|Strip(s)| - 1]))
  {
    i := StripLeftMeans(s);
    var left := StripLeft(s);
    var n := StripRightMeans(left);
    j := i + n;
    assert s[i..][..n] == s[i..j] && s[i..][n..] == s[j..];
  }

  lemma {:induction false} StripLeftMeans(s: string) returns (i: nat)
    ensures i <= |s| && StripLeft(s) == s[i..] && Blank(s[..i])
    ensures StripLeft(s) == "" || !IsSpace(StripLeft(s)[0])
  {
    if s == "" || !IsSpace(s[0]) {
      i := 0;
    } else {
      var rest := StripLeftMeans(s[1..]);
      i := rest + 1;
      assert s[..i] == [s[0]] + s[1..][..rest];
    }
  }

  lemma {:induction false} StripRightMeans(s: string) returns (n: nat)
    ensures n <= |s| && StripRight(s) == s[..n] && Blank(s[n..])
    ensures StripRight(s) == "" || !IsSpace(StripRight(s)[|StripRight(s)| - 1])
    ensures StripRight(s) == "" || StripRight(s)[0] == s[0]
  {
    if s == "" || !IsSpace(s[|s| - 1]) {
      n := |s|;
    } else {
      n := StripRightMeans(s[..|s| - 1]);
      assert s[n..] == s[..|s| - 1][n..] + [s[|s| - 1]];
    }
  }

  lemma StripBlank(s: string)
    ensures Strip(s) == "" <==> Blank(s)
  {
    StripLeftBlank(s);
    StripRightBlank(StripLeft(s));
  }

  lemma {:induction false} StripLeftBlank(s: string)
    ensures Blank(StripLeft(s)) <==> Blank(s)
    ensures StripLeft(s) == "" || !IsSpace(StripLeft(s)[0])
  {
    if s == "" || !IsSpace(s[0]) {
    } else {
      StripLeftBlank(s[1..]);
      assert forall c :: c in s <==> c == s[0] || c in s[1..];
    }
  }

  lemma {:induction false} StripRightBlank(s: string)
    ensures s == "" || !IsSpace(s[0]) ==> (StripRight(s) == "" <==> s == "")
    ensures s == "" ==> Blank(s)
    ensures s != "" && !IsSpace(s[0]) ==> !Blank(s)
  {
    if s == "" || !IsSpace(s[|s| - 1]) || IsSpace(s[0]) {
    } else {
      StripRightBlank(s[..|s| - 1]);
    }
  }

  // A link back to the page itself would repeat that page for ever, so a search that stops never
  // meets one: the repeated-key guard costs no answer.
  lemma {:induction false} SelfLinkRepeats<Row>(server: Server<Row>, key: Key, pages: seq<Reply<Row>>)
    requires Linked(server, key, pages) && server(pages[0].next) == pages[0]
    ensures pages[|pages| - 1] == pages[0]
    decreases pages
  {
    if |pages| == 1 {
    } else {
      SelfLinkRepeats(server, pages[0].next, pages[1..]);
    }
  }

  lemma {:induction false} SearchStops(server: Server<Order>, target: string, key: Key, budget: nat, q: int)
    returns (pages: seq<Reply<Order>>)
    requires KeysIgnoreSpace(server) && Search(server, target, Stripped(key), budget) == Ok(q)
    ensures Linked(server, key, pages) && |pages| <= budget && StopsWith(pages, target, q)
    decreases budget
  {
    hide Stripped, Lookup;
    assert SameUnderStrip(server, key);
    var reply := server(key);
    LookupMeans(reply.rows, target);
    if Lookup(reply.rows, target).Some? || !reply.more {
      pages := [reply];
    } else {
      StrippedBlank(reply.next);
      var rest := SearchStops(server, target, reply.next, budget - 1, q);
      pages := [reply] + rest;
      assert pages[1..] == rest && pages[..|pages| - 1] == [reply] + rest[..|rest| - 1];
      assert pages[|pages| - 1] == rest[|rest| - 1];
    }
  }

  lemma StrippedBlank(key: Key)
    ensures Stripped(key).nk == "" <==> Blank(key.nk)
  {
    StripBlank(key.nk);
  }

  // The trail of a search that has not come across the order.
  ghost predicate Missed(server: Server<Order>, target: string, key: Key, pages: seq<Reply<Order>>, at: Key, left: int) {
    && Trail(server, Stripped, key, pages, at)
    && (forall p :: p in pages ==> p.Page? && Lookup(p.rows, target).None?)
    && (left > 0 && server(at).Page? ==> Lookup(server(at).rows, target).None?)
  }

  ghost predicate MissesAfter(server: Server<Order>, target: string, key: Key, pages: seq<Reply<Order>>, at: Key,
                              budget: nat, error: Error) {
    && |pages| <= budget && Missed(server, target, key, pages, at, budget - |pages|)
    && Stuck(server, Stripped, at, budget - |pages|, error)
  }

  lemma {:induction false} MissedFails(server: Server<Order>, target: string, key: Key, budget: nat,
                                       pages: seq<Reply<Order>>, at: Key, error: Error)
    requires Missed(server, target, key, pages, at, budget - |pages|) && |pages| <= budget
    requires Stuck(server, Stripped, at, budget - |pages|, error)
    ensures Search(server, target, key, budget) == Err(error)
    decreases pages
  {
    hide Lookup, Stripped;
    if pages == [] {
      if budget > 0 && server(key).Page? {
        StrippedBlank(server(key).next);
      }
    } else {
      StrippedBlank(pages[0].next);
      MissedFails(server, target, Stripped(pages[0].next), budget - 1, pages[1..], at, error);
    }
  }

  lemma {:induction false} FailsMissing(server: Server<Order>, target: string, key: Key, budget: nat)
    returns (pages: seq<Reply<Order>>, at: Key)
    requires Search(server, target, key, budget).Err?
    ensures Missed(server, target, key, pages, at, budget - |pages|) && |pages| <= budget
    ensures Stuck(server, Stripped, at, budget - |pages|, Search(server, target, key, budget).error)
    decreases budget
  {
    hide Lookup, Stripped;
    var error := Search(server, target, key, budget).error;
    if budget > 0 && server(key).Page? {
      StrippedBlank(server(key).next);
    }
    if Stuck(server, Stripped, key, budget, error) {
      pages, at := [], key;
    } else {
      var rest;
      rest, at := FailsMissing(server, target, Stripped(server(key).next), budget - 1);
      pages := [server(key)] + rest;
      assert pages[1..] == rest;
    }
  }

  // A search raises exactly where it must give up before it found the order or the end of the list.
  lemma SearchFailsIff(server: Server<Order>, target: string, key: Key, budget: nat, error: Error)
    ensures Search(server, target, key, budget) == Err(error)
      <==> exists pages, at :: MissesAfter(server, target, key, pages, at, budget, error)
  {
    hide Search, Missed, Stuck;
    if Search(server, target, key, budget) == Err(error) {
      var pages, at := FailsMissing(server, target, key, budget);
      assert MissesAfter(server, target, key, pages, at, budget, error);
    }
    if pages, at :| MissesAfter(server, target, key, pages, at, budget, error) {
      MissedFails(server, target, key, budget, pages, at, error);
    }
  }

  lemma {:induction false} StopsSearch(server: Server<Order>, target: string, key: Key, budget: nat, q: int,
                                       pages: seq<Reply<Order>>)
    requires KeysIgnoreSpace(server)
    requires Linked(server, key, pages) && |pages| <= budget && StopsWith(pages, target, q)
    ensures Search(server, target, Stripped(key), budget) == Ok(q)
    decreases budget
  {
    hide Stripped, Lookup;
    assert SameUnderStrip(server, key);
    var reply, last := pages[0], pages[|pages| - 1];
    if |pages| == 1 {
    } else {
      assert pages[..|pages| - 1] == [reply] + pages[1..][..|pages| - 2];
      NotOnPage(reply, pages[..|pages| - 1], target);
      StrippedBlank(reply.next);
      if Stripped(reply.next) == Stripped(key) {
        assert SameUnderStrip(server, reply.next);
        SelfLinkRepeats(server, key, pages);
        assert false;
      }
      StopsSearch(server, target, reply.next, budget - 1, q, pages[1..]);
    }
  }

  lemma NotOnPage(page: Reply<Order>, pages: seq<Reply<Order>>, target: string)
    requires page in pages && Absent(pages, target)
    ensures page.Page? && Lookup(page.rows, target).None?
  {
    LookupMeans(page.rows, target);
  }

  // A whole list with keyed links is a beginning that does not go on, and the other way round.
  lemma {:induction false} FullIsLinked<Row>(server: Server<Row>, key: Key, pages: seq<Reply<Row>>)
    ensures FullChain(server, key, pages) && KeyedLinks(pages)
      <==> Linked(server, key, pages) && pages[|pages| - 1].Page? && !pages[|pages| - 1].more
    decreases pages
  {
    if |pages| <= 1 {
    } else {
      assert pages == [pages[0]] + pages[1..];
      if pages[0].Page? {
        FullIsLinked(server, pages[0].next, pages[1..]);
      }
      assert forall i :: 0 <= i < |pages| - 2 ==> pages[1..][i] == pages[i + 1];
      assert forall i :: 1 <= i < |pages| - 1 ==> pages[i] == pages[1..][i - 1];
    }
  }

  // Zero means absent. For every order number, page limit and server that ignores white space around
  // its keys: the search answers q exactly when the order is listed within the limit with q remaining
  // where it is listed first, or q is 0 and the whole list ends within the limit without it.
  lemma ZeroMeansAbsent(server: Server<Order>, target: string, budget: nat, q: int)
    requires KeysIgnoreSpace(server)
    ensures Search(server, target, FIRST, budget) == Ok(q)
      <==> ListsWithin(server, target, budget, q) || (q == 0 && EndsWithout(server, target, budget))
    ensures !(ListsWithin(server, target, budget, q) && EndsWithout(server, target, budget))
  {
    hide Search, Lookup, Linked, FullChain;
    assert Stripped(FIRST) == FIRST;
    if Search(server, target, FIRST, budget) == Ok(q) {
      var pages := SearchStops(server, target, FIRST, budget, q);
      StopMeans(server, target, budget, q, pages);
    }
    if ListsWithin(server, target, budget, q) {
      var pages: seq<Reply<Order>> :| Linked(server, FIRST, pages) && |pages| <= budget && StopsWith(pages, target, q)
        && Lookup(pages[|pages| - 1].rows, target).Some?;
      StopsSearch(server, target, FIRST, budget, q, pages);
      if EndsWithout(server, target, budget) {
        var full :| FullChain(server, FIRST, full) && |full| <= budget && KeyedLinks(full) && Absent(full, target);
        BeginsChain(server, FIRST, pages, full);
        NotOnPage(pages[|pages| - 1], full, target);
        assert false;
      }
    }
    if EndsWithout(server, target, budget) {
      var full :| FullChain(server, FIRST, full) && |full| <= budget && KeyedLinks(full) && Absent(full, target);
      FullStops(server, target, full);
      StopsSearch(server, target, FIRST, budget, 0, full);
    }
  }

  lemma StopMeans(server: Server<Order>, target: string, budget: nat, q: int, pages: seq<Reply<Order>>)
    requires Linked(server, FIRST, pages) && |pages| <= budget && StopsWith(pages, target, q)
    ensures ListsWithin(server, target, budget, q) || (q == 0 && EndsWithout(server, target, budget))
  {
    hide Linked, FullChain, Lookup;
    if Lookup(pages[|pages| - 1].rows, target).None? {
      StopsAtEnd(server, target, q, pages);
      hide StopsWith, Absent, KeyedLinks;
    }
  }

  lemma StopsAtEnd(server: Server<Order>, target: string, q: int, pages: seq<Reply<Order>>)
    requires Linked(server, FIRST, pages) && StopsWith(pages, target, q)
    requires Lookup(pages[|pages| - 1].rows, target).None?
    ensures q == 0 && FullChain(server, FIRST, pages) && KeyedLinks(pages) && Absent(pages, target)
  {
    hide Lookup, WithoutZeros;
    var last := pages[|pages| - 1];
    LookupMeans(last.rows, target);
    FullIsLinked(server, FIRST, pages);
    hide Linked, FullChain, KeyedLinks;
    assert pages == pages[..|pages| - 1] + [last];
  }

  lemma FullStops(server: Server<Order>, target: string, full: seq<Reply<Order>>)
    requires FullChain(server, FIRST, full) && KeyedLinks(full) && Absent(full, target)
    ensures Linked(server, FIRST, full) && StopsWith(full, target, 0)
  {
    FullIsLinked(server, FIRST, full);
    NotOnPage(full[|full| - 1], full, target);
  }

  // Every beginning of a list that ends consists of its pages.
  lemma {:induction false} BeginsChain<Row>(server: Server<Row>, key: Key, pages: seq<Reply<Row>>, full: seq<Reply<Row>>)
    requires Linked(server, key, pages) && FullChain(server, key, full)
    ensures pages <= full
    decreases pages
  {
    if |pages| == 1 {
    } else {
      BeginsChain(server, pages[0].next, pages[1..], full[1..]);
      assert pages == [pages[0]] + pages[1..] && full == [full[0]] + full[1..];
    }
  }

  // When there is an answer at all: exactly when the order is listed or the list ends, within the limit
  // and behind non-blank keys; and 0 is an answer without a listing exactly in the second case.
  lemma AnswersIff(server: Server<Order>, target: string, budget: nat)
    requires KeysIgnoreSpace(server)
    ensures Search(server, target, FIRST, budget).Ok?
      <==> (exists q :: ListsWithin(server, target, budget, q)) || EndsWithout(server, target, budget)
    ensures Search(server, target, FIRST, budget) == Ok(0) && !ListsWithin(server, target, budget, 0)
      <==> EndsWithout(server, target, budget)
  {
    hide Search, ListsWithin, EndsWithout;
    var answer := Search(server, target, FIRST, budget);
    if answer.Ok? {
      ZeroMeansAbsent(server, target, budget, answer.value);
    }
    ZeroMeansAbsent(server, target, budget, 0);
    if q :| ListsWithin(server, target, budget, q) {
      ZeroMeansAbsent(server, target, budget, q);
    }
  }

  // Measured against the full list: an order that is on none of its pages is answered with 0, exactly
  // when the list fits the limit and all its links carry a key; otherwise there is no answer.
  lemma AbsentFromFullList(server: Server<Order>, target: string, budget: nat, full: seq<Reply<Order>>)
    requires KeysIgnoreSpace(server) && FullChain(server, FIRST, full) && Absent(full, target)
    ensures Search(server, target, FIRST, budget).Ok? <==> |full| <= budget && KeyedLinks(full)
    ensures Search(server, target, FIRST, budget).Ok? ==> Search(server, target, FIRST, budget) == Ok(0)
  {
    hide Search, Lookup, Linked, FullChain, KeyedLinks;
    var answer := Search(server, target, FIRST, budget);
    assert Stripped(FIRST) == FIRST;
    if answer.Ok? {
      var pages := SearchStops(server, target, FIRST, budget, answer.value);
      BeginsChain(server, FIRST, pages, full);
      NotOnPage(pages[|pages| - 1], full, target);
      FullIsLinked(server, FIRST, pages);
      ChainUnique(server, FIRST, pages, full);
    }
    if |full| <= budget && KeyedLinks(full) {
      FullStops(server, target, full);
      StopsSearch(server, target, FIRST, budget, 0, full);
    }
  }

  // Any server at all is searched as if its keys were stripped.
  function Seen<Row>(server: Server<Row>): Server<Row> {
    key => server(Stripped(key))
  }

  lemma {:induction false} StripRightTwice(s: string)
    ensures StripRight(StripRight(s)) == StripRight(s)
    ensures StripRight(s) == "" || StripRight(s)[0] == s[0]
  {
    if s == "" || !IsSpace(s[|s| - 1]) {
    } else {
      StripRightTwice(s[..|s| - 1]);
    }
  }

  lemma StripTwice(s: string)
    ensures Strip(Strip(s)) == Strip(s)
  {
    StripLeftBlank(s);
    StripRightTwice(StripLeft(s));
    assert StripLeft(Strip(s)) == Strip(s);
  }

  lemma StrippedTwice(key: Key)
    ensures Stripped(Stripped(key)) == Stripped(key)
  {
    StripTwice(key.fk);
    StripTwice(key.nk);
  }

  lemma SeenIgnoresSpace<Row>(server: Server<Row>)
    ensures KeysIgnoreSpace(Seen(server))
  {
    forall key ensures SameUnderStrip(Seen(server), key) {
      StrippedTwice(key);
      hide Stripped;
    }
  }

  lemma {:induction false} SearchSeesStripped(server: Server<Order>, target: string, key: Key, budget: nat)
    ensures Search(server, target, Stripped(key), budget) == Search(Seen(server), target, Stripped(key), budget)
    decreases budget
  {
    StrippedTwice(key);
    hide Stripped, Lookup;
    var reply := server(Stripped(key));
    assert Seen(server)(Stripped(key)) == reply;
    if budget == 0 || !reply.Page? {
    } else {
      SearchSeesStripped(server, target, reply.next, budget - 1);
    }
  }

  lemma {:induction false} LinkedAlike<Row>(server: Server<Row>, other: Server<Row>, key: Key, pages: seq<Reply<Row>>)
    requires forall k :: server(k) == other(k)
    ensures Linked(server, key, pages) <==> Linked(other, key, pages)
    decreases pages
  {
    if |pages| <= 1 {
    } else if pages[0].Page? {
      LinkedAlike(server, other, pages[0].next, pages[1..]);
    }
  }

  // Without any premise: what the search answers, for every server, is what is true of the list behind
  // stripped keys.
  lemma EveryServer(server: Server<Order>, target: string, budget: nat, q: int)
    ensures Search(server, target, FIRST, budget) == Ok(q)
      <==> ListsWithin(Seen(server), target, budget, q) || (q == 0 && EndsWithout(Seen(server), target, budget))
  {
    hide Search, ListsWithin, EndsWithout;
    assert Stripped(FIRST) == FIRST;
    SearchSeesStripped(server, target, FIRST, budget);
    SeenIgnoresSpace(server);
    ZeroMeansAbsent(Seen(server), target, budget, q);
  }

  // So an order on a server's own list is answered as absent exactly when the list behind stripped keys
  // ends without it, which takes a server that tells some key from its stripped form.
  lemma OrderLostIff(server: Server<Order>, target: string, budget: nat, q: int)
    requires ListsWithin(server, target, budget, q)
    ensures Search(server, target, FIRST, budget) == Ok(0) && !ListsWithin(Seen(server), target, budget, 0)
      <==> EndsWithout(Seen(server), target, budget)
    ensures EndsWithout(Seen(server), target, budget) ==> !KeysIgnoreSpace(server)
  {
    hide Search, EndsWithout;
    EveryServer(server, target, budget, 0);
    SeenIgnoresSpace(server);
    ZeroMeansAbsent(Seen(server), target, budget, 0);
    if KeysIgnoreSpace(server) {
      forall k ensures server(k) == Seen(server)(k) {
        assert SameUnderStrip(server, k);
      }
      ListsAlike(server, Seen(server), target, budget, q);
      ZeroMeansAbsent(Seen(server), target, budget, q);
    }
  }

  lemma ListsAlike(server: Server<Order>, other: Server<Order>, target: string, budget: nat, q: int)
    requires (forall k :: server(k) == other(k)) && ListsWithin(server, target, budget, q)
    ensures ListsWithin(other, target, budget, q)
  {
    hide Linked, Lookup;
    var pages: seq<Reply<Order>> :| Linked(server, FIRST, pages) && |pages| <= budget && StopsWith(pages, target, q)
      && Lookup(pages[|pages| - 1].rows, target).Some?;
    LinkedAlike(server, other, FIRST, pages);
  }

  // There are such servers: one that tells " k" from "k" lists the order behind the first key and
  // nothing behind the second, which is the one the search asks for.
  function Particular(key: Key): Reply<Order> {
    if key == FIRST then Page([], true, Key("", " k"))
    else if key == Key("", " k") then Page([Order("7", 5)], false, FIRST)
    else Page([], false, FIRST)
  }

  lemma StrippedKeyLosesOrder()
    ensures var full := [Particular(FIRST), Particular(Key("", " k"))];
      && FullChain(Particular, FIRST, full) && KeyedLinks(full) && Order("7", 5) in full[1].rows
      && Search(Particular, "7", FIRST, UNFILLED_MAX_PAGES) == Ok(0)
  {
    var full := [Particular(FIRST), Particular(Key("", " k"))];
    assert full[1..] == [Particular(Key("", " k"))];
    assert FullChain(Particular, Key("", " k"), full[1..]);
    assert full[0].next.nk[1] == 'k' && !IsSpace('k');
    assert StripLeft(" k") == StripLeft("k") == "k" by {
      assert " k"[1..] == "k";
    }
    assert Stripped(Key("", " k")) == Key("", "k");
    assert Search(Particular, "7", Key("", "k"), 4) == Ok(0);
  }
}
