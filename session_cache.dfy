/**
 * The browser's cache of `/api/sessions`: answers younger than the TTL are
 * reused, concurrent ordinary fetches share one request, and a forced fetch
 * always goes to the server. Requests are explicit: `Fetch` issues one and
 * `Complete` delivers its outcome later.
 */
module SessionCache {
  import opened Wrappers
  import opened TmuxDirectory

  const SESSION_CACHE_TTL: int := 5000

  type RequestId = nat

  /** What `fetchSessions` hands back: the cached listing, the pending request, or a new one. */
  datatype FetchOutcome = Cached(listing: Listing) | Joined(request: RequestId) | Issued(request: RequestId)

  /** Whether a cached listing taken at `timestamp` is still fresh at `now`. */
  predicate Fresh(cached: Option<Listing>, timestamp: int, now: int) {
    cached.Some? && now - timestamp < SESSION_CACHE_TTL
  }

  class SessionCache {
    /** `cachedSessions`. */
    var cached: Option<Listing>
    /** `cachedSessionsTimestamp`. */
    var timestamp: int
    /** `sessionFetchPromise`: the ordinary request other callers join. */
    var inFlight: Option<RequestId>
    /** Requests are numbered in the order they are issued. */
    var nextRequest: nat

    ghost predicate Valid()
      reads this
    {
      inFlight.Some? ==> inFlight.value < nextRequest
    }

    constructor()
      ensures Valid()
      ensures cached.None? && timestamp == 0 && inFlight.None? && nextRequest == 0
    {
      cached := None;
      timestamp := 0;
      inFlight := None;
      nextRequest := 0;
    }

    /** `invalidateSessionCache`. */
    method Invalidate()
      requires Valid()
      modifies this
      ensures Valid()
      ensures cached.None? && timestamp == 0
      ensures inFlight == old(inFlight) && nextRequest == old(nextRequest)
    {
      cached := None;
      timestamp := 0;
    }

    /**
     * `fetchSessions(force)` at time `now`. Only an ordinary fetch may be
     * answered from the cache or joined to the pending request; a forced one
     * always issues a request of its own and is never the one others join.
     */
    method Fetch(force: bool, now: int) returns (outcome: FetchOutcome)
      requires Valid()
      modifies this
      ensures Valid()
      ensures cached == old(cached) && timestamp == old(timestamp)
      ensures !force && Fresh(old(cached), old(timestamp), now) ==>
        outcome == Cached(old(cached).value) && inFlight == old(inFlight) && nextRequest == old(nextRequest)
      ensures !force && !Fresh(old(cached), old(timestamp), now) && old(inFlight).Some? ==>
        outcome == Joined(old(inFlight).value) && inFlight == old(inFlight) && nextRequest == old(nextRequest)
      ensures force || (!Fresh(old(cached), old(timestamp), now) && old(inFlight).None?) ==>
        && outcome == Issued(old(nextRequest)) && nextRequest == old(nextRequest) + 1
        && inFlight == (if force then old(inFlight) else Some(outcome.request))
    {
      if !force && Fresh(cached, timestamp, now) {
        return Cached(cached.value);
      }
      if !force && inFlight.Some? {
        return Joined(inFlight.value);
      }
      var request := nextRequest;
      nextRequest := nextRequest + 1;
      if !force {
        inFlight := Some(request);
      }
      return Issued(request);
    }

    /**
     * Request `request` settles at time `now`: a listing on success, `None`
     * on a failed or non-2xx response. A success is cached with its time; any
     * settlement empties the pending slot, whichever request it held. Only a
     * request that `Fetch` issued can settle.
     */
    method Complete(request: RequestId, response: Option<Listing>, now: int)
      requires Valid() && request < nextRequest
      modifies this
      ensures Valid()
      ensures inFlight.None? && nextRequest == old(nextRequest)
      ensures response.Some? ==> cached == response && timestamp == now
      ensures response.None? ==> cached == old(cached) && timestamp == old(timestamp)
    {
      if response.Some? {
        cached := response;
        timestamp := now;
      }
      inFlight := None;
    }
  }
}
