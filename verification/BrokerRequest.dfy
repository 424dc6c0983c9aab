// Broker calls with retries. The server is an arbitrary sequence of replies, one per send; what
// matters is which replies lead to another send of the same payload.
module BrokerRequests {

  datatype Reply =
    | Accepted
    | ApiError(code: string) // a 2xx body that reports a logical error
    | Unreadable // a 2xx body that is not JSON
    | TokenExpired // an error status whose body reports an expired token
    | RateLimited // status 429, or an error status with a rate-limit body
    | ClientError // any other 4xx
    | ServerError // any other 5xx
    | TransportError // no reply at all

  datatype Verdict =
    | Delivered
    | ApiFailure(code: string)
    | Unparsed
    | Expired
    | RateLimitExceeded
    | Refused
    | ServerFailed
    | AcceptanceUnknown // retries are off and the broker may have accepted the request
    | TransportFailed
    | NoAttempts

  // Everything but a rate-limit rejection or a plain 4xx may have been acted on by the broker.
  predicate MayBeAccepted(r: Reply) {
    !r.RateLimited? && !r.ClientError?
  }

  // Whether a reply is answered with another send while attempts remain.
  predicate Retried(r: Reply, retryOnError: bool) {
    r.RateLimited? || (retryOnError && (r.ServerError? || r.TransportError?))
  }

  // How the call ends on its last reply.
  function VerdictOf(r: Reply, retryOnError: bool): Verdict {
    match r
    case Accepted => Delivered
    case ApiError(code) => ApiFailure(code)
    case Unreadable => Unparsed
    case TokenExpired => Expired
    case RateLimited => RateLimitExceeded
    case ClientError => Refused
    case ServerError => if retryOnError then ServerFailed else AcceptanceUnknown
    case TransportError => if retryOnError then TransportFailed else AcceptanceUnknown
  }

  // The number of sends and the verdict, starting at send number first with left attempts left.
  function Exchange(server: nat -> Reply, first: nat, left: nat, retryOnError: bool): (nat, Verdict)
    decreases left
  {
    if left == 0 then (0, NoAttempts)
    else if left > 1 && Retried(server(first), retryOnError) then
      After(1, Exchange(server, first + 1, left - 1, retryOnError))
    else (1, VerdictOf(server(first), retryOnError))
  }

  function After(earlier: nat, rest: (nat, Verdict)): (nat, Verdict) {
    (earlier + rest.0, rest.1)
  }

  // Every send but the last got a retried reply; the last reply ended the call, because it is
  // not one to retry or because it used up the attempts.
  lemma {:induction false} ExchangeShape(server: nat -> Reply, first: nat, left: nat, retryOnError: bool)
    ensures var (sent, v) := Exchange(server, first, left, retryOnError);
      && sent <= left && (sent == 0 <==> left == 0)
      && (forall i :: first <= i < first + sent - 1 ==> Retried(server(i), retryOnError))
      && (sent > 0 ==> v == VerdictOf(server(first + sent - 1), retryOnError))
      && (sent > 0 && Retried(server(first + sent - 1), retryOnError) ==> sent == left)
    decreases left
  {
    if left <= 1 || !Retried(server(first), retryOnError) {
    } else {
      ExchangeShape(server, first + 1, left - 1, retryOnError);
    }
  }

  // The shared retry loop.
  method BrokerRequest(server: nat -> Reply, first: nat, retries: nat, retryOnError: bool) returns (sent: nat, v: Verdict)
    ensures (sent, v) == Exchange(server, first, retries, retryOnError)
  {
    sent := 0;
    for attempt := 0 to retries
      invariant sent == attempt
      invariant retries > 0 ==> attempt < retries
      invariant Exchange(server, first, retries, retryOnError)
        == After(attempt, Exchange(server, first + attempt, retries - attempt, retryOnError))
    {
      var reply := server(first + attempt);
      sent := attempt + 1;
      match reply
      case Accepted => return sent, Delivered;
      case ApiError(code) => return sent, ApiFailure(code);
      case Unreadable => return sent, Unparsed;
      case TokenExpired => return sent, Expired;
      case ClientError => return sent, Refused;
      case RateLimited =>
        if attempt >= retries - 1 {
          return sent, RateLimitExceeded;
        }
      case ServerError =>
        if !retryOnError {
          return sent, AcceptanceUnknown;
        }
        if attempt >= retries - 1 {
          return sent, ServerFailed;
        }
      case TransportError =>
        if !retryOnError {
          return sent, AcceptanceUnknown;
        }
        if attempt >= retries - 1 {
          return sent, TransportFailed;
        }
    }
    return 0, NoAttempts;
  }

  const TRANSIENT := "1"

  function KisExchange(server: nat -> Reply, retries: nat, retryOnError: bool, retryTransient: bool): (nat, Verdict) {
    var (sent, v) := Exchange(server, 0, retries, retryOnError);
    if retryTransient && v == ApiFailure(TRANSIENT) then
      var (again, w) := Exchange(server, sent, retries, retryOnError);
      (sent + again, w)
    else (sent, v)
  }

  // The outer loop of the KIS client: a transient logical error is tried once more.
  method KisRequest(server: nat -> Reply, retries: nat, retryOnError: bool, retryTransient: bool)
    returns (total: nat, v: Verdict)
    ensures (total, v) == KisExchange(server, retries, retryOnError, retryTransient)
  {
    total := 0;
    v := NoAttempts;
    ghost var (sent0, v0) := Exchange(server, 0, retries, retryOnError);
    for attempt := 0 to 2
      invariant attempt == 0 ==> total == 0
      invariant attempt >= 1 ==> total == sent0 && v0 == ApiFailure(TRANSIENT) && retryTransient
      invariant attempt <= 1
    {
      var sent;
      sent, v := BrokerRequest(server, total, retries, retryOnError);
      total := total + sent;
      if !v.ApiFailure? || !retryTransient || v.code != TRANSIENT || attempt >= 1 {
        return;
      }
    }
  }

  // ------------------------------------------------------------------ orders are sent once

  function Sends(server: nat -> Reply, retries: nat, retryOnError: bool): nat {
    Exchange(server, 0, retries, retryOnError).0
  }

  // Among the first sent replies at most one can belong to an accepted request, and that one is last.
  ghost predicate OnlyLastMayBeAccepted(server: nat -> Reply, sent: nat) {
    forall i :: 0 <= i < sent - 1 ==> !MayBeAccepted(server(i))
  }

  // With retries on errors switched off, whatever the server does: every send but the last was
  // turned away by rate limiting, so nothing that may have been accepted is ever sent again, and
  // a lost or doubtful reply is reported as such rather than retried.
  lemma NeverResent(server: nat -> Reply, retries: nat)
    ensures var (sent, v) := Exchange(server, 0, retries, false);
      && sent <= retries
      && (forall i :: 0 <= i < sent - 1 ==> server(i).RateLimited?)
      && OnlyLastMayBeAccepted(server, sent)
      && (v == AcceptanceUnknown <==> sent > 0 && (server(sent - 1).ServerError? || server(sent - 1).TransportError?))
      && (v == Delivered <==> sent > 0 && server(sent - 1).Accepted?)
  {
    var (sent, v) := Exchange(server, 0, retries, false);
    ExchangeShape(server, 0, retries, false);
    forall i | 0 <= i < sent - 1 ensures server(i).RateLimited? {
      assert Retried(server(i), false);
    }
  }

  // Retries are not given up early either: up to retries - 1 rate-limit rejections are ridden
  // out, and the verdict is that of the first other reply.
  lemma {:induction false} RidesOutRateLimits(server: nat -> Reply, first: nat, limited: nat, left: nat, retryOnError: bool)
    requires limited < left
    requires forall i :: first <= i < first + limited ==> server(i).RateLimited?
    requires !Retried(server(first + limited), retryOnError)
    ensures Exchange(server, first, left, retryOnError) == (limited + 1, VerdictOf(server(first + limited), retryOnError))
    decreases limited
  {
    if limited == 0 {
    } else {
      RidesOutRateLimits(server, first + 1, limited - 1, left - 1, retryOnError);
    }
  }

  // With attempts left, exactly a rate-limit rejection, or with error retries on a 5xx or a lost
  // reply, leads to another send; a 4xx, an expired token and any 2xx never do.
  lemma ResentIff(server: nat -> Reply, first: nat, left: nat, retryOnError: bool)
    requires left > 1
    ensures var r := server(first);
      Exchange(server, first, left, retryOnError).0 > 1
      <==> r.RateLimited? || (retryOnError && (r.ServerError? || r.TransportError?))
  {
    ExchangeShape(server, first + 1, left - 1, retryOnError);
  }

  // How a call ends is read off its last reply alone.
  lemma LastReplyDecides(server: nat -> Reply, first: nat, left: nat, retryOnError: bool)
    requires left > 0
    ensures var (sent, v) := Exchange(server, first, left, retryOnError); var last := server(first + sent - 1);
      && (v == Delivered <==> last.Accepted?)
      && (forall code :: v == ApiFailure(code) <==> last == ApiError(code))
      && (v == Unparsed <==> last.Unreadable?)
      && (v == Expired <==> last.TokenExpired?)
      && (v == RateLimitExceeded <==> last.RateLimited?)
      && (v == Refused <==> last.ClientError?)
      && (v == ServerFailed <==> last.ServerError? && retryOnError)
      && (v == TransportFailed <==> last.TransportError? && retryOnError)
      && (v == AcceptanceUnknown <==> (last.ServerError? || last.TransportError?) && !retryOnError)
      && (v in {RateLimitExceeded, ServerFailed, TransportFailed} ==> sent == left)
  {
    ExchangeShape(server, first, left, retryOnError);
  }

  // With error retries on, passing errors are ridden out as well.
  lemma {:induction false} RidesOutErrors(server: nat -> Reply, first: nat, failed: nat, left: nat)
    requires failed < left
    requires forall i :: first <= i < first + failed ==>
      server(i).RateLimited? || server(i).ServerError? || server(i).TransportError?
    requires var r := server(first + failed); r.Accepted? || r.ApiError? || r.Unreadable? || r.TokenExpired? || r.ClientError?
    ensures Exchange(server, first, left, true) == (failed + 1, VerdictOf(server(first + failed), true))
    decreases failed
  {
    if failed == 0 {
    } else {
      RidesOutErrors(server, first + 1, failed - 1, left - 1);
    }
  }

  // The switch is exactly what is needed: no server can make a call send a possibly accepted
  // request again if and only if errors are not retried, or there is at most one attempt.
  lemma SafeIffErrorsNotRetried(retries: nat, retryOnError: bool)
    ensures (forall server: nat -> Reply :: OnlyLastMayBeAccepted(server, Sends(server, retries, retryOnError)))
      <==> !retryOnError || retries <= 1
  {
    if !retryOnError {
      forall server: nat -> Reply
        ensures OnlyLastMayBeAccepted(server, Sends(server, retries, retryOnError))
      {
        NeverResent(server, retries);
      }
    } else if retries > 1 {
      var silent: nat -> Reply := n => TransportError;
      var sent := Sends(silent, retries, retryOnError);
      ExchangeShape(silent, 0, retries, retryOnError);
      assert Retried(silent(sent - 1), true);
      assert MayBeAccepted(silent(0));
      assert !OnlyLastMayBeAccepted(silent, sent);
    }
  }

  // The same for the KIS client with its second loop: both switches must be off.
  lemma KisSafeIffSwitchesOff(retries: nat, retryOnError: bool, retryTransient: bool)
    ensures (forall server: nat -> Reply ::
        OnlyLastMayBeAccepted(server, KisExchange(server, retries, retryOnError, retryTransient).0))
      <==> retries == 0 || (!retryTransient && (!retryOnError || retries == 1))
  {
    if !retryTransient {
      SafeIffErrorsNotRetried(retries, retryOnError);
      forall server: nat -> Reply
        ensures KisExchange(server, retries, retryOnError, retryTransient).0 == Sends(server, retries, retryOnError)
      {
      }
      if retryOnError && retries > 1 {
        var server: nat -> Reply :| !OnlyLastMayBeAccepted(server, Sends(server, retries, retryOnError));
        assert !OnlyLastMayBeAccepted(server, KisExchange(server, retries, retryOnError, retryTransient).0);
      }
    } else if retries > 0 {
      var flaky: nat -> Reply := n => ApiError(TRANSIENT);
      var sent := KisExchange(flaky, retries, retryOnError, true).0;
      assert !Retried(flaky(0), retryOnError);
      assert Exchange(flaky, 0, retries, retryOnError).1 == ApiFailure(TRANSIENT);
      assert sent >= 2;
      assert MayBeAccepted(flaky(0));
      assert !OnlyLastMayBeAccepted(flaky, sent);
    }
  }

  // However it is configured, a KIS call sends at most twice the retry bound, and at most the
  // bound itself when transient errors are not retried; it reports delivery only for an
  // accepted last reply.
  lemma KisSendsBounded(server: nat -> Reply, retries: nat, retryOnError: bool, retryTransient: bool)
    ensures var (sent, v) := KisExchange(server, retries, retryOnError, retryTransient);
      && sent <= (if retryTransient then 2 * retries else retries)
      && (v == Delivered ==> sent > 0 && server(sent - 1).Accepted?)
      && (sent > 0 && server(sent - 1).Accepted? ==> v == Delivered)
  {
    var (sent, v) := Exchange(server, 0, retries, retryOnError);
    ExchangeShape(server, 0, retries, retryOnError);
    ExchangeShape(server, sent, retries, retryOnError);
  }

  // The KIS client repeats the call for one reply only, the transient logical error that ended it,
  // and the repeat starts over with all its attempts; the last reply decides here as well.
  lemma KisRepeatsIff(server: nat -> Reply, retries: nat, retryOnError: bool, retryTransient: bool)
    requires retries > 0
    ensures var (sent, v) := KisExchange(server, retries, retryOnError, retryTransient);
      var once := Sends(server, retries, retryOnError);
      && (sent > once <==> retryTransient && server(once - 1) == ApiError("1"))
      && (sent > once ==> sent == once + Exchange(server, once, retries, retryOnError).0)
      && (sent <= once ==> sent == once)
      && v == VerdictOf(server(sent - 1), retryOnError)
  {
    var once := Sends(server, retries, retryOnError);
    ExchangeShape(server, 0, retries, retryOnError);
    ExchangeShape(server, once, retries, retryOnError);
  }
}
