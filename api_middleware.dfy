/**
 * cmd/api/middleware.go: the per-client bookkeeping of `rateLimit`. The
 * `clients` table is a field that the request step and the janitor's sweep
 * change in place; the mutex, the goroutine and its one-minute sleep are not
 * modelled, so both run as sequential methods. The token bucket of
 * golang.org/x/time/rate is represented by its two parameters, and what its
 * `Allow` answers is a parameter of the step.
 */
module Middleware {
  import opened Wrappers
  import opened Durations
  import opened Responses

  /** `rate.NewLimiter(r, b)`: refill rate per second and burst size. */
  datatype Limiter = Limiter(rate: real, burst: int)

  /** Every new client gets `rate.NewLimiter(2, 4)`, whatever the configuration says. */
  const ClientLimiter: Limiter := Limiter(2.0, 4)

  datatype Client = Client(limiter: Limiter, lastSeen: int)

  /** A client is forgotten after more than three minutes without a request. */
  const Inactivity: int := 3 * Minute

  predicate Expired(c: Client, now: int)
  {
    now - c.lastSeen > Inactivity
  }

  /** What the step does with the request. */
  datatype Outcome =
    | Silent            // the middleware writes nothing and calls no handler
    | Replied(helper: Helper)
    | Next              // `next(w, r)` is called once

  /** The table after a request from `ip` at `now`: find or insert, then refresh `lastSeen`. */
  function Touched(clients: map<string, Client>, ip: string, now: int): (r: map<string, Client>)
    ensures ip in r && r[ip].lastSeen == now
    ensures ip in clients ==> r[ip].limiter == clients[ip].limiter
    ensures ip !in clients ==> r[ip].limiter == ClientLimiter
    ensures r.Keys == clients.Keys + {ip}
    ensures forall other :: other in clients && other != ip ==> r[other] == clients[other]
  {
    var limiter := if ip in clients then clients[ip].limiter else ClientLimiter;
    clients[ip := Client(limiter, now)]
  }

  /** The entries the janitor keeps. */
  function Survivors(clients: map<string, Client>, now: int): (r: map<string, Client>)
    ensures forall ip :: ip in r <==> ip in clients && !Expired(clients[ip], now)
    ensures forall ip :: ip in r ==> r[ip] == clients[ip]
  {
    map ip | ip in clients && !Expired(clients[ip], now) :: clients[ip]
  }

  /**
   * What one request step decides, as written: with the limiter disabled the
   * handler has no else-branch, so the middleware writes nothing and calls
   * no handler (net/http then ends the request with an empty 200).
   */
  function Decision(enabled: bool, host: Option<string>, allow: bool): (o: Outcome)
    ensures o == Next <==> enabled && host.Some? && allow
    ensures o == Silent <==> !enabled
  {
    if !enabled then Silent
    else if host.None? then Replied(ServerError)
    else if allow then Next
    else Replied(RateLimitExceeded)
  }

  /** The decision with the evidently intended bypass: a disabled limiter passes every request on. */
  function IntendedDecision(enabled: bool, host: Option<string>, allow: bool): (o: Outcome)
    ensures o == Next <==> !enabled || (host.Some? && allow)
    ensures !o.Silent?
  {
    if !enabled then Next else Decision(enabled, host, allow)
  }

  /**
   * Disabling the limiter, as written, writes nothing and calls no handler;
   * net/http then sends an empty 200.
   */
  lemma DisabledLimiterDropsRequests(host: Option<string>, allow: bool)
    ensures Decision(false, host, allow) == Silent
    ensures IntendedDecision(false, host, allow) == Next
    ensures Decision(true, host, allow) == IntendedDecision(true, host, allow)
  {
  }

  class RateLimiter {
    /** `s.limiter.enabled`, fixed at start-up. */
    const enabled: bool
    var clients: map<string, Client>

    constructor (enabled: bool)
      ensures this.enabled == enabled && clients == map[]
    {
      this.enabled := enabled;
      clients := map[];
    }

    /**
     * One request. `host` is what `net.SplitHostPort(r.RemoteAddr)` yields
     * (`None` on error), `now` the clock reading and `allow` the answer of the
     * client's token bucket.
     */
    method Step(host: Option<string>, now: int, allow: bool) returns (outcome: Outcome)
      modifies this
      ensures outcome == Decision(enabled, host, allow)
      ensures enabled && host.Some? ==> clients == Touched(old(clients), host.value, now)
      ensures !(enabled && host.Some?) ==> clients == old(clients)
    {
      if !enabled {
        return Silent;
      }
      if host.None? {
        return Replied(ServerError);
      }
      var ip := host.value;
      if ip !in clients {
        clients := clients[ip := Client(ClientLimiter, 0)];
      }
      clients := clients[ip := clients[ip].(lastSeen := now)];
      if !allow {
        return Replied(RateLimitExceeded);
      }
      outcome := Next;
    }

    /** One pass of the janitor at clock reading `now`: delete every expired entry while ranging over the table. */
    method Sweep(now: int)
      modifies this
      ensures clients == Survivors(old(clients), now)
    {
      var pending := clients.Keys;
      while pending != {}
        invariant pending <= old(clients).Keys
        invariant forall ip :: ip in clients <==> ip in old(clients) && (ip in pending || !Expired(old(clients)[ip], now))
        invariant forall ip :: ip in clients ==> clients[ip] == old(clients)[ip]
        decreases |pending|
      {
        var ip :| ip in pending;
        if Expired(clients[ip], now) {
          clients := clients - {ip};
        }
        pending := pending - {ip};
      }
    }
  }

  /** A client touched at `now` survives a sweep at `now`, whether or not its request was allowed. */
  lemma TouchedSurvives(clients: map<string, Client>, ip: string, now: int)
    ensures ip in Survivors(Touched(clients, ip, now), now)
  {
  }

  /** Exactly three minutes of silence is not yet expiry; one nanosecond more is. */
  lemma ExpiryBoundary(c: Client)
    ensures !Expired(c, c.lastSeen + 3 * Minute)
    ensures Expired(c, c.lastSeen + 3 * Minute + Nanosecond)
  {
  }

  /** A second sweep at the same time removes nothing more, and a sweep never adds or alters an entry. */
  lemma SweepIdempotent(clients: map<string, Client>, now: int)
    ensures Survivors(Survivors(clients, now), now) == Survivors(clients, now)
    ensures Survivors(clients, now).Keys <= clients.Keys
  {
  }
}
