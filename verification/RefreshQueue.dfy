// The browser client's handling of 401 responses: one session refresh at a time, the other
// failed requests wait in a queue, and every logical request is sent at most twice.
module RefreshQueue {
  import opened Basics

  type Id = nat
  type Token = string

  datatype Status = Success | Unauthorized | OtherError

  datatype RefreshOutcome = Session(token: Token) | NoSession | RefreshError

  datatype Phase =
    | InFlight(bearer: Option<Token>)
    | Queued
    | Resolved(token: Token) // taken from the queue with a token, to be sent again
    | Refreshing // this request's handler drives the session refresh
    | Settled(ok: bool)

  // sends, queuedTimes and releasedTimes are history.
  datatype Request = Request(phase: Phase, isAuth: bool, retried: bool, sends: nat, queuedTimes: nat, releasedTimes: nat)

  datatype World = World(requests: map<Id, Request>, isRefreshing: bool, queue: seq<Id>, cachedToken: Option<Token>)

  datatype Event =
    | Send(id: Id, isAuth: bool)
    | Respond(id: Id, status: Status)
    | FinishRefresh(id: Id, outcome: RefreshOutcome)
    | Resume(id: Id)
    | SessionChanged(token: Option<Token>)

  const START := World(map[], false, [], None)

  // ------------------------------------------------------------------ steps

  function Phased(w: World, id: Id, p: Phase): World
    requires id in w.requests
  {
    w.(requests := w.requests[id := w.requests[id].(phase := p)])
  }

  // Sending again: the token just obtained, unless the request hook finds a cached one.
  function Resent(w: World, id: Id, token: Token): World
    requires id in w.requests
  {
    var r := w.requests[id];
    var bearer := if w.cachedToken.Some? then w.cachedToken else Some(token);
    w.(requests := w.requests[id := r.(phase := InFlight(bearer), retried := true, sends := r.sends + 1)])
  }

  function Released(r: Request, token: Option<Token>): Request {
    r.(phase := if token.Some? then Resolved(token.value) else Settled(false), releasedTimes := r.releasedTimes + 1)
  }

  // Every waiting request is resolved with the token, or rejected when there is none.
  function Drained(w: World, token: Option<Token>): World {
    w.(queue := [],
       requests := map id | id in w.requests ::
         if id in w.queue then Released(w.requests[id], token) else w.requests[id])
  }

  function Next(w: World, e: Event): World {
    match e
    case Send(id, isAuth) =>
      if id in w.requests then w
      else w.(requests := w.requests[id := Request(InFlight(w.cachedToken), isAuth, false, 1, 0, 0)])
    case Respond(id, status) =>
      if id !in w.requests || !w.requests[id].phase.InFlight? then w
      else
        var r := w.requests[id];
        if status == Unauthorized && !r.retried && !r.isAuth then
          if w.isRefreshing then
            w.(queue := w.queue + [id],
               requests := w.requests[id := r.(phase := Queued, queuedTimes := r.queuedTimes + 1)])
          else
            w.(isRefreshing := true, requests := w.requests[id := r.(phase := Refreshing, retried := true)])
        else Phased(w, id, Settled(status == Success))
    case FinishRefresh(id, outcome) =>
      if id !in w.requests || !w.requests[id].phase.Refreshing? then w
      else (
        match outcome
        case Session(token) => Resent(Drained(w.(cachedToken := Some(token)), Some(token)), id, token).(isRefreshing := false)
        case _ => Phased(Drained(w, None), id, Settled(false)).(isRefreshing := false))
    case Resume(id) =>
      if id !in w.requests || !w.requests[id].phase.Resolved? then w
      else Resent(w, id, w.requests[id].phase.token)
    case SessionChanged(token) => w.(cachedToken := token)
  }

  function Run(w: World, events: seq<Event>): World
    decreases events
  {
    if events == [] then w else Run(Next(w, events[0]), events[1..])
  }

  // ------------------------------------------------------------------ the module's variables

  class ApiClient {
    var requests: map<Id, Request>
    var isRefreshing: bool
    var failedQueue: seq<Id>
    var cachedToken: Option<Token>

    ghost function Value(): World
      reads this
    {
      World(requests, isRefreshing, failedQueue, cachedToken)
    }

    constructor ()
      ensures Value() == START
    {
      requests, isRefreshing, failedQueue, cachedToken := map[], false, [], None;
    }

    method ProcessQueue(token: Option<Token>)
      requires forall id :: id in failedQueue ==> id in requests
      requires Distinct(failedQueue)
      modifies this
      ensures Value() == Drained(old(Value()), token)
    {
      for i := 0 to |failedQueue|
        invariant failedQueue == old(failedQueue) && cachedToken == old(cachedToken) && isRefreshing == old(isRefreshing)
        invariant requests.Keys == old(requests).Keys
        invariant forall id :: id in requests ==>
          requests[id] == if id in failedQueue[..i] then Released(old(requests)[id], token) else old(requests)[id]
      {
        var id := failedQueue[i];
        assert failedQueue[..i + 1] == failedQueue[..i] + [id];
        assert id !in failedQueue[..i];
        requests := requests[id := Released(requests[id], token)];
      }
      assert failedQueue[..|failedQueue|] == failedQueue;
      failedQueue := [];
    }

    method HandleResponse(id: Id, status: Status)
      requires id in requests && requests[id].phase.InFlight?
      modifies this
      ensures Value() == Next(old(Value()), Respond(id, status))
    {
      var r := requests[id];
      if status == Unauthorized && !r.retried && !r.isAuth {
        if isRefreshing {
          failedQueue := failedQueue + [id];
          requests := requests[id := r.(phase := Queued, queuedTimes := r.queuedTimes + 1)];
          return;
        }
        requests := requests[id := r.(phase := Refreshing, retried := true)];
        isRefreshing := true;
        return;
      }
      requests := requests[id := r.(phase := Settled(status == Success))];
    }

    // The continuation of the handler that awaited the session refresh.
    method AfterRefresh(id: Id, outcome: RefreshOutcome)
      requires id in requests && requests[id].phase.Refreshing?
      requires Inv(Value())
      modifies this
      ensures Value() == Next(old(Value()), FinishRefresh(id, outcome))
    {
      assert Tidy(Value(), id);
      assert forall q :: q in failedQueue ==> Tidy(Value(), q);
      match outcome
      case Session(token) =>
        cachedToken := Some(token);
        ProcessQueue(Some(token));
        var r := requests[id];
        requests := requests[id := r.(phase := InFlight(cachedToken), sends := r.sends + 1)];
        isRefreshing := false;
      case NoSession =>
        ProcessQueue(None);
        isRefreshing := false;
        requests := requests[id := requests[id].(phase := Settled(false))];
      case RefreshError =>
        ProcessQueue(None);
        isRefreshing := false;
        requests := requests[id := requests[id].(phase := Settled(false))];
    }

    // A resolved queue entry marks its request before sending it again.
    method ResumeQueued(id: Id)
      requires id in requests && requests[id].phase.Resolved?
      modifies this
      ensures Value() == Next(old(Value()), Resume(id))
    {
      var r := requests[id];
      var bearer := if cachedToken.Some? then cachedToken else Some(r.phase.token);
      requests := requests[id := r.(phase := InFlight(bearer), retried := true, sends := r.sends + 1)];
    }
  }

  // ------------------------------------------------------------------ invariant

  predicate IsRefresher(w: World, id: Id) {
    id in w.requests && w.requests[id].phase.Refreshing?
  }

  predicate IsQueued(w: World, id: Id) {
    id in w.requests && w.requests[id].phase.Queued?
  }

  // One request's flags and history agree with where it is.
  predicate Tidy(w: World, id: Id) {
    && (id in w.queue <==> IsQueued(w, id))
    && (id in w.requests ==>
          var r := w.requests[id];
          && r.releasedTimes <= r.queuedTimes <= 1
          && (r.queuedTimes != r.releasedTimes <==> r.phase.Queued?)
          && match r.phase
             case InFlight(_) => r.sends == (if r.retried then 2 else 1) && (r.queuedTimes == 1 ==> r.retried)
             case Queued => !r.retried && r.sends == 1
             case Resolved(_) => !r.retried && r.sends == 1 && r.queuedTimes == 1
             case Refreshing => r.retried && r.sends == 1 && r.queuedTimes == 0
             case Settled(_) => 1 <= r.sends <= 2)
  }

  ghost predicate Inv(w: World) {
    && (forall id :: Tidy(w, id))
    && Distinct(w.queue)
    && (w.queue != [] ==> w.isRefreshing)
    && (w.isRefreshing <==> exists id :: IsRefresher(w, id))
    && (forall a, b :: IsRefresher(w, a) && IsRefresher(w, b) ==> a == b)
  }

  lemma FinishKeepsTidy(w: World, driver: Id, outcome: RefreshOutcome, id: Id)
    requires Inv(w)
    ensures Tidy(Next(w, FinishRefresh(driver, outcome)), id)
  {
    assert Tidy(w, id) && Tidy(w, driver);
    if IsRefresher(w, driver) && id in w.requests {
      var token := if outcome.Session? then Some(outcome.token) else None;
      var d := Drained(if outcome.Session? then w.(cachedToken := token) else w, token);
      assert d.requests[id] == if id in w.queue then Released(w.requests[id], token) else w.requests[id];
    }
  }

  lemma StepKeepsTidy(w: World, e: Event, id: Id)
    requires Inv(w)
    ensures Tidy(Next(w, e), id)
  {
    if e.FinishRefresh? {
      FinishKeepsTidy(w, e.id, e.outcome, id);
    } else {
      assert Tidy(w, id);
    }
  }

  lemma StepKeepsRefresher(w: World, e: Event)
    requires Inv(w)
    ensures var v := Next(w, e);
      && Distinct(v.queue) && (v.queue != [] ==> v.isRefreshing)
      && (v.isRefreshing <==> exists id :: IsRefresher(v, id))
      && (forall a, b :: IsRefresher(v, a) && IsRefresher(v, b) ==> a == b)
  {
    var v := Next(w, e);
    if e.Respond? || e.FinishRefresh? {
      assert Tidy(w, e.id);
    }
    forall id ensures IsRefresher(v, id) ==> IsRefresher(w, id) || (e.Respond? && id == e.id && !w.isRefreshing) {
      assert Tidy(w, id);
    }
    if v.isRefreshing && w.isRefreshing {
      var id :| IsRefresher(w, id);
      assert Tidy(w, id);
      assert IsRefresher(v, id);
    } else if v.isRefreshing {
      assert IsRefresher(v, e.id);
    } else {
      if w.isRefreshing {
        assert e.FinishRefresh? && IsRefresher(w, e.id);
      }
      forall id ensures !IsRefresher(v, id) {
        assert Tidy(w, id);
        assert IsRefresher(v, id) ==> IsRefresher(w, id);
      }
    }
  }

  lemma {:induction false} RunKeepsInv(w: World, events: seq<Event>)
    requires Inv(w)
    ensures Inv(Run(w, events))
    decreases events
  {
    if events == [] {
    } else {
      StepKeepsRefresher(w, events[0]);
      forall id ensures Tidy(Next(w, events[0]), id) {
        StepKeepsTidy(w, events[0], id);
      }
      hide Next, Tidy;
      RunKeepsInv(Next(w, events[0]), events[1..]);
    }
  }

  // ------------------------------------------------------------------ main results

  // Over every interleaving of responses: at most one session refresh is in flight, requests
  // wait only while one is, and no logical request is sent more than twice.
  lemma OneRefreshTwoSends(events: seq<Event>, a: Id, b: Id)
    ensures var w := Run(START, events);
      && (IsRefresher(w, a) && IsRefresher(w, b) ==> a == b)
      && (w.queue != [] ==> exists id :: IsRefresher(w, id))
      && (a in w.requests ==> w.requests[a].sends <= 2)
  {
    RunKeepsInv(START, events);
    assert Tidy(Run(START, events), a);
  }

  // Every request is queued at most once and leaves the queue exactly once: while it waits it
  // has not been released, and once it is not waiting it has been released as often as queued.
  lemma SettledExactlyOnce(events: seq<Event>, id: Id)
    requires id in Run(START, events).requests
    ensures var w := Run(START, events); var r := w.requests[id];
      && r.queuedTimes <= 1
      && r.releasedTimes == (if id in w.queue then 0 else r.queuedTimes)
  {
    RunKeepsInv(START, events);
    assert Tidy(Run(START, events), id);
  }

  // When the refresh ends nobody is left waiting: with a new session every waiting request and
  // the refreshing one will carry the new token, without one all of them fail.
  lemma RefreshSettlesQueue(events: seq<Event>, id: Id, outcome: RefreshOutcome, other: Id)
    requires IsRefresher(Run(START, events), id) && other in Run(START, events).queue
    ensures var w := Run(START, events); var v := Next(w, FinishRefresh(id, outcome));
      && v.queue == [] && !v.isRefreshing
      && other in v.requests && id in v.requests && other != id
      && (outcome.Session? ==>
            && v.requests[other].phase == Resolved(outcome.token) && v.requests[id].phase == InFlight(Some(outcome.token))
            && Next(v, Resume(other)).requests[other].phase == InFlight(Some(outcome.token)))
      && (!outcome.Session? ==> v.requests[other].phase == v.requests[id].phase == Settled(false))
  {
    RunKeepsInv(START, events);
    assert Tidy(Run(START, events), other) && Tidy(Run(START, events), id);
  }

  // A 401 that is still worth a refresh: not for an auth request, nor for one sent again already.
  predicate Retriable(w: World, e: Event, id: Id) {
    id in w.requests && w.requests[id].phase.InFlight?
    && !w.requests[id].retried && !w.requests[id].isAuth && e == Respond(id, Unauthorized)
  }

  // The refresh that the request drives or waits for ends.
  predicate RefreshEnds(w: World, e: Event, id: Id) {
    e.FinishRefresh? && IsRefresher(w, e.id) && (e.id == id || id in w.queue)
  }

  // The caller of the request gets its response, or an error.
  predicate Answers(w: World, e: Event, id: Id, ok: bool) {
    id in w.requests && (
      || (w.requests[id].phase.InFlight? && e.Respond? && e.id == id && !Retriable(w, e, id) && (ok <==> e.status == Success))
      || (!ok && RefreshEnds(w, e, id) && !e.outcome.Session?))
  }

  // What one event does to a request, exhaustively.
  lemma PhaseChanges(w: World, e: Event, id: Id)
    requires Inv(w) && id in w.requests && !w.requests[id].phase.Settled?
    ensures id in Next(w, e).requests
    ensures var p, q := w.requests[id].phase, Next(w, e).requests[id].phase;
      && (forall ok :: q == Settled(ok) <==> Answers(w, e, id, ok))
      && (q.Queued? <==> (p.Queued? && !RefreshEnds(w, e, id)) || (Retriable(w, e, id) && w.isRefreshing))
      && (q.Refreshing? <==> (p.Refreshing? && !RefreshEnds(w, e, id)) || (Retriable(w, e, id) && !w.isRefreshing))
      && (q.Resolved? && p != q ==> RefreshEnds(w, e, id) && e.outcome == Session(q.token))
      && (q.InFlight? && p != q ==>
            || (e == Resume(id) && p.Resolved? && q.bearer == if w.cachedToken.Some? then w.cachedToken else Some(p.token))
            || (RefreshEnds(w, e, id) && e.id == id && e.outcome.Session? && q.bearer == Some(e.outcome.token)))
      && (p.InFlight? && !(e.Respond? && e.id == id) ==> q == p)
      && (p.Resolved? && q == p ==> e != Resume(id))
  {
    assert Tidy(w, id);
    if e.FinishRefresh? {
      assert Tidy(w, e.id);
    }
  }

  lemma SettledStays(w: World, e: Event, id: Id)
    requires Inv(w) && id in w.requests && w.requests[id].phase.Settled?
    ensures id in Next(w, e).requests && Next(w, e).requests[id] == w.requests[id]
  {
    assert Tidy(w, id);
  }

  lemma {:induction false} RunLast(w: World, events: seq<Event>)
    requires events != []
    ensures Run(w, events) == Next(Run(w, events[..|events| - 1]), events[|events| - 1])
    decreases events
  {
    hide Next;
    if |events| == 1 {
      assert Run(w, events) == Run(Next(w, events[0]), []);
    } else {
      assert events[..|events| - 1][1..] == events[1..][..|events| - 2];
      RunLast(Next(w, events[0]), events[1..]);
    }
  }

  predicate AnsweredAt(events: seq<Event>, i: nat, id: Id, ok: bool)
    requires i < |events|
  {
    Answers(Run(START, events[..i]), events[i], id, ok)
  }

  // A new request goes out once, with the token at hand.
  lemma SentInFlight(w: World, e: Event, id: Id)
    requires id !in w.requests
    ensures id in Next(w, e).requests <==> e.Send? && e.id == id
    ensures e.Send? && e.id == id ==>
      Next(w, e).requests[id] == Request(InFlight(w.cachedToken), e.isAuth, false, 1, 0, 0)
  {
  }

  // The token at hand is the last one a session event or a successful refresh brought.
  lemma TokenChanges(w: World, e: Event)
    ensures Next(w, e).cachedToken ==
      if e.SessionChanged? then e.token
      else if e.FinishRefresh? && IsRefresher(w, e.id) && e.outcome.Session? then Some(e.outcome.token)
      else w.cachedToken
  {
  }

  // Over whole runs: the caller has its response or its error exactly if some event was its answer.
  // That is a reply other than a 401 still worth a refresh, or the end of a refresh without a session.
  lemma {:induction false} AnsweredIff(events: seq<Event>, id: Id, ok: bool)
    ensures id in Run(START, events).requests && Run(START, events).requests[id].phase == Settled(ok)
      <==> exists i :: 0 <= i < |events| && AnsweredAt(events, i, id, ok)
    decreases |events|
  {
    if events == [] {
    } else {
      var n := |events| - 1;
      var init, e := events[..n], events[n];
      AnsweredIff(init, id, ok);
      RunLast(START, events);
      RunKeepsInv(START, init);
      var w := Run(START, init);
      forall i | 0 <= i < n ensures AnsweredAt(events, i, id, ok) <==> AnsweredAt(init, i, id, ok) {
        assert events[..i] == init[..i];
      }
      assert AnsweredAt(events, n, id, ok) <==> Answers(w, e, id, ok);
      if id !in w.requests {
        SentInFlight(w, e, id);
      } else if w.requests[id].phase.Settled? {
        SettledStays(w, e, id);
        assert Tidy(w, id);
      } else {
        PhaseChanges(w, e, id);
      }
    }
  }

  // Sent for the last time: whatever the answer, it ends there.
  predicate LastSend(r: Request) {
    (r.retried || r.isAuth) && (r.phase.InFlight? || r.phase.Settled?)
  }

  // In every continuation such a request is never sent again, never waits and never starts a refresh.
  lemma {:induction false} NeverRefreshesAgain(w: World, events: seq<Event>, id: Id)
    requires id in w.requests && LastSend(w.requests[id]) && id !in w.queue
    ensures var v := Run(w, events);
      && id in v.requests && LastSend(v.requests[id]) && id !in v.queue
      && v.requests[id].sends == w.requests[id].sends && v.requests[id].queuedTimes == w.requests[id].queuedTimes
    decreases events
  {
    if events == [] {
    } else {
      StepKeepsLastSend(w, events[0], id);
      hide Next, LastSend;
      NeverRefreshesAgain(Next(w, events[0]), events[1..], id);
    }
  }

  lemma StepKeepsLastSend(w: World, e: Event, id: Id)
    requires id in w.requests && LastSend(w.requests[id]) && id !in w.queue
    ensures var v := Next(w, e);
      && id in v.requests && LastSend(v.requests[id]) && id !in v.queue
      && v.requests[id].sends == w.requests[id].sends && v.requests[id].queuedTimes == w.requests[id].queuedTimes
  {
  }
}
