/** Fetch-first routing of RPC responses: the response to a request whose caller has migrated and the
    FETCH from the caller's new host meet at the old one, whichever arrives first. */
module ContextRegistry {
  import opened Options

  datatype Owner = Owner(appId: int, msgId: int)

  datatype Request = Request(owner: Owner, expiresAt: int)

  datatype PendingFetch = PendingFetch(host: string, port: int)

  const DEFAULT_REQUEST_TTL_MS := 1200000

  // ---------- one request ----------

  /** Where a live request without a local context stands. */
  datatype Slot<R> = Idle | Cached(resp: R) | Waiting(fetch: PendingFetch)

  /** A response or a FETCH arrives; `sent` says whether forwarding works, should it be attempted. */
  datatype Event<R> = Response(resp: R, sent: bool) | Fetch(fetch: PendingFetch, sent: bool)

  datatype Attempt<R> = Attempt(resp: R, fetch: PendingFetch, sent: bool)

  function Next<R>(slot: Slot<R>, e: Event<R>): (Slot<R>, Option<Attempt<R>>) {
    match e
    case Response(r, sent) =>
      if slot.Waiting? then (if sent then Idle else Cached(r), Some(Attempt(r, slot.fetch, sent)))
      else (Cached(r), None)
    case Fetch(f, sent) =>
      if slot.Cached? then (if sent then Idle else slot, Some(Attempt(slot.resp, f, sent)))
      else (Waiting(f), None)
  }

  /** A run of one request: the slot it ends in and the forward attempts made on the way. */
  function Run<R>(es: seq<Event<R>>): (Slot<R>, seq<Attempt<R>>) {
    if es == [] then (Idle, [])
    else
      var (slot, tries) := Run(es[..|es| - 1]);
      var (slot', attempt) := Next(slot, es[|es| - 1]);
      (slot', if attempt.Some? then tries + [attempt.value] else tries)
  }

  function Sent<R>(tries: seq<Attempt<R>>): nat {
    if tries == [] then 0 else Sent(tries[..|tries| - 1]) + if tries[|tries| - 1].sent then 1 else 0
  }

  /** The event before position n that a meeting needs: the last FETCH, if any. */
  function LastFetch<R>(es: seq<Event<R>>): Option<PendingFetch> {
    if es == [] then None
    else if es[|es| - 1].Fetch? then Some(es[|es| - 1].fetch)
    else LastFetch(es[..|es| - 1])
  }

  predicate NoResponse<R(==)>(es: seq<Event<R>>) { forall i :: 0 <= i < |es| ==> es[i].Fetch? }

  /** Position p holds the one response of the run. */
  predicate OnlyResponse<R(==)>(es: seq<Event<R>>, p: nat) {
    p < |es| && es[p].Response? && forall i :: 0 <= i < |es| && i != p ==> es[i].Fetch?
  }

  lemma {:induction false} BeforeResponse<R>(es: seq<Event<R>>)
    requires NoResponse(es)
    ensures Run(es) == (if LastFetch(es).Some? then Waiting(LastFetch(es).value) else Idle, [])
    ensures LastFetch(es).Some? <==> es != []
  {
    if es != [] { BeforeResponse(es[..|es| - 1]); }
  }

  lemma SentOne<R>(tries: seq<Attempt<R>>, a: Attempt<R>)
    ensures Sent(tries + [a]) == Sent(tries) + if a.sent then 1 else 0
  {
    assert (tries + [a])[..|tries|] == tries;
  }

  /** The response r has arrived: it is cached until it is sent, which happens at most once. */
  ghost predicate Arrived<R(!new)>(slot: Slot<R>, tries: seq<Attempt<R>>, r: R) {
    && Sent(tries) <= 1
    && (if Sent(tries) == 0 then slot == Cached(r) else !slot.Cached?)
    && forall t :: t in tries ==> t.resp == r
  }

  lemma ArrivedStays<R(!new)>(slot: Slot<R>, tries: seq<Attempt<R>>, r: R, e: Event<R>)
    requires Arrived(slot, tries, r) && e.Fetch?
    ensures var (slot', attempt) := Next(slot, e);
            Arrived(slot', if attempt.Some? then tries + [attempt.value] else tries, r)
  {
    var attempt := Next(slot, e).1;
    if attempt.Some? { SentOne(tries, attempt.value); }
  }

  /** The last event makes one attempt, to the last FETCH's host, iff both sides are there and the
      response has not been sent yet. */
  ghost predicate AttemptsOnce<R(!new)>(es: seq<Event<R>>, r: R)
    requires es != []
  {
    var n := |es| - 1;
    var before := Run(es[..n]).1;
    if n > 0 && Sent(before) == 0 then
      LastFetch(es).Some? && Run(es).1 == before + [Attempt(r, LastFetch(es).value, es[n].sent)]
    else Run(es).1 == before
  }

  lemma ResponseArrives<R(!new)>(es: seq<Event<R>>)
    requires es != [] && es[|es| - 1].Response? && NoResponse(es[..|es| - 1])
    ensures Arrived(Run(es).0, Run(es).1, es[|es| - 1].resp) && AttemptsOnce(es, es[|es| - 1].resp)
    ensures Run(es).1 != [] <==> |es| > 1
  {
    var n := |es| - 1;
    BeforeResponse(es[..n]);
    var slot := Run(es[..n]).0;
    if slot.Waiting? { SentOne([], Attempt(es[n].resp, slot.fetch, es[n].sent)); }
  }

  /** Over any run with one response and any number of FETCHes in any order: the response is never lost
      (until it is sent it stays cached), it is sent at most once, every attempt carries it, and from the
      moment both it and a FETCH have arrived each event attempts to send it to the last FETCH's host,
      until that works. */
  lemma {:induction false} ResponseAndFetchMeet<R(!new)>(es: seq<Event<R>>, p: nat)
    requires OnlyResponse(es, p)
    ensures Arrived(Run(es).0, Run(es).1, es[p].resp)
    ensures Run(es).1 != [] <==> |es| > 1
    ensures forall k :: p < k <= |es| ==> AttemptsOnce(es[..k], es[p].resp)
    decreases |es|
  {
    var n := |es| - 1;
    assert es[..n + 1] == es;
    if p == n {
      ResponseArrives(es);
    } else {
      assert forall i :: 0 <= i < n ==> es[..n][i] == es[i];
      ResponseAndFetchMeet(es[..n], p);
      ArrivedStays(Run(es[..n]).0, Run(es[..n]).1, es[p].resp, es[n]);
      FetchAttempts(es, es[p].resp);
      hide Arrived, AttemptsOnce;
      forall k | p < k <= |es| ensures AttemptsOnce(es[..k], es[p].resp) {
        if k <= n { assert es[..n][..k] == es[..k]; }
      }
    }
  }

  lemma FetchAttempts<R(!new)>(es: seq<Event<R>>, r: R)
    requires |es| > 1 && es[|es| - 1].Fetch?
    requires Arrived(Run(es[..|es| - 1]).0, Run(es[..|es| - 1]).1, r)
    ensures AttemptsOnce(es, r)
    ensures Run(es).1 != [] <==> Run(es[..|es| - 1]).1 != [] || Sent(Run(es[..|es| - 1]).1) == 0
  {
  }

  // ---------- the registry ----------

  datatype Disposition<R> = Drop | Local(owner: Owner) | Forward(fetch: PendingFetch) | CachedForLater

  class RpcContextRegistry<R(==)> {
    var contexts: set<Owner>
    var requests: map<int, Request>
    var cachedResponses: map<int, R>
    var pendingFetches: map<int, PendingFetch>

    /** A request has a cached response or a waiting FETCH, never both, and only while it is known. */
    ghost predicate Valid()
      reads this
    {
      && cachedResponses.Keys !! pendingFetches.Keys
      && cachedResponses.Keys <= requests.Keys && pendingFetches.Keys <= requests.Keys
    }

    function SlotOf(id: int): Slot<R>
      reads this
    {
      if id in cachedResponses then Cached(cachedResponses[id])
      else if id in pendingFetches then Waiting(pendingFetches[id])
      else Idle
    }

    predicate Live(id: int, now: int)
      reads this
    {
      id in requests && now < requests[id].expiresAt
    }

    /** Everything about every other request is as it was. */
    twostate predicate OthersUnchanged(id: int)
      reads this
    {
      forall k :: k != id ==>
        && SlotOf(k) == old(SlotOf(k))
        && (k in requests <==> k in old(requests))
        && (k in requests ==> requests[k] == old(requests)[k])
    }

    constructor ()
      ensures Valid() && requests == map[] && contexts == {} && forall id :: SlotOf(id) == Idle
    {
      contexts, requests, cachedResponses, pendingFetches := {}, map[], map[], map[];
    }

    method ClearRequest(id: int)
      requires Valid()
      modifies this
      ensures Valid() && contexts == old(contexts) && OthersUnchanged(id)
      ensures id !in requests && SlotOf(id) == Idle
    {
      requests := requests - {id};
      cachedResponses := cachedResponses - {id};
      pendingFetches := pendingFetches - {id};
    }

    /** True if the request is unknown or has just expired. */
    method ExpireRequestIfNeeded(id: int, now: int) returns (gone: bool)
      requires Valid()
      modifies this
      ensures Valid() && contexts == old(contexts) && OthersUnchanged(id)
      ensures gone <==> !old(Live(id, now))
      ensures gone <==> id !in old(requests) || now >= old(requests)[id].expiresAt
      ensures if gone then id !in requests && SlotOf(id) == Idle
              else requests == old(requests) && SlotOf(id) == old(SlotOf(id))
    {
      if id !in requests { return true; }
      if now < requests[id].expiresAt { return false; }
      ClearRequest(id);
      gone := true;
    }

    method RegisterContext(owner: Owner)
      requires Valid()
      modifies this`contexts
      ensures Valid() && contexts == old(contexts) + {owner}
    {
      contexts := contexts + {owner};
    }

    method RemoveContext(owner: Owner)
      requires Valid()
      modifies this`contexts
      ensures Valid() && contexts == old(contexts) - {owner}
    {
      contexts := contexts - {owner};
    }

    method RegisterInFlightRequest(id: int, owner: Owner, ttl: int, now: int)
      requires Valid()
      modifies this`requests
      ensures Valid() && OthersUnchanged(id) && SlotOf(id) == old(SlotOf(id))
      ensures requests == old(requests)[id := Request(owner, now + if ttl > 0 then ttl else DEFAULT_REQUEST_TTL_MS)]
      ensures Live(id, now)
    {
      requests := requests[id := Request(owner, now + if ttl > 0 then ttl else DEFAULT_REQUEST_TTL_MS)];
    }

    /** Only called when no FETCH waits for the response. */
    method CacheResponse(id: int, resp: R, now: int)
      requires Valid() && !SlotOf(id).Waiting?
      modifies this
      ensures Valid() && contexts == old(contexts) && OthersUnchanged(id)
      ensures SlotOf(id) == if old(Live(id, now)) then Cached(resp) else Idle
      ensures old(Live(id, now)) ==> requests == old(requests)
      ensures !old(Live(id, now)) ==> id !in requests
    {
      var gone := ExpireRequestIfNeeded(id, now);
      if gone { return; }
      cachedResponses := cachedResponses[id := resp];
    }

    method ConsumeCachedResponse(id: int, now: int) returns (resp: Option<R>)
      requires Valid()
      modifies this
      ensures Valid() && contexts == old(contexts) && OthersUnchanged(id)
      ensures !old(Live(id, now)) ==> resp.None? && id !in requests && SlotOf(id) == Idle
      ensures old(Live(id, now)) ==>
                && requests == old(requests)
                && resp == (if old(SlotOf(id)).Cached? then Some(old(SlotOf(id)).resp) else None)
                && SlotOf(id) == if resp.Some? then Idle else old(SlotOf(id))
    {
      var gone := ExpireRequestIfNeeded(id, now);
      if gone || id !in cachedResponses { return None; }
      resp := Some(cachedResponses[id]);
      cachedResponses := cachedResponses - {id};
    }

    /** Only called once a cached response has been ruled out. */
    method RegisterPendingFetch(id: int, fetch: PendingFetch, now: int)
      requires Valid() && !SlotOf(id).Cached?
      modifies this
      ensures Valid() && contexts == old(contexts) && OthersUnchanged(id)
      ensures SlotOf(id) == if old(Live(id, now)) then Waiting(fetch) else Idle
      ensures old(Live(id, now)) ==> requests == old(requests)
      ensures !old(Live(id, now)) ==> id !in requests
    {
      var gone := ExpireRequestIfNeeded(id, now);
      if gone { return; }
      pendingFetches := pendingFetches[id := fetch];
    }

    /** Where a response goes: dropped, to a local context, to a waiting FETCH, or into the cache. */
    method RouteResponse(id: int, resp: R, now: int) returns (d: Disposition<R>)
      requires Valid()
      modifies this
      ensures Valid() && contexts == old(contexts) && OthersUnchanged(id)
      ensures d.Drop? <==> id !in old(requests) || now >= old(requests)[id].expiresAt
      ensures d.Drop? ==> id !in requests && SlotOf(id) == Idle
      ensures !d.Drop? ==> requests == old(requests)
      ensures !d.Drop? ==> (d.Local? <==> requests[id].owner in contexts)
      ensures d.Local? ==> d.owner == requests[id].owner && SlotOf(id) == old(SlotOf(id))
      ensures d.Forward? ==> old(SlotOf(id)) == Waiting(d.fetch) && SlotOf(id) == Idle
      ensures d.CachedForLater? ==> !old(SlotOf(id)).Waiting? && SlotOf(id) == Cached(resp)
    {
      var gone := ExpireRequestIfNeeded(id, now);
      if gone { return Drop; }
      if requests[id].owner in contexts { return Local(requests[id].owner); }
      if id in pendingFetches {
        d := Forward(pendingFetches[id]);
        pendingFetches := pendingFetches - {id};
        return;
      }
      cachedResponses := cachedResponses[id := resp];
      d := CachedForLater;
    }

    method RestoreOne(owner: Owner, id: int, ttl: int, now: int) returns (got: seq<(int, R)>)
      requires Valid()
      modifies this`requests, this`cachedResponses, this`pendingFetches
      ensures Valid() && OthersUnchanged(id) && SlotOf(id) == Idle
      ensures requests == old(requests)[id := Request(owner, now + if ttl > 0 then ttl else DEFAULT_REQUEST_TTL_MS)]
      ensures got == if old(SlotOf(id)).Cached? then [(id, old(SlotOf(id)).resp)] else []
    {
      requests := requests[id := Request(owner, now + if ttl > 0 then ttl else DEFAULT_REQUEST_TTL_MS)];
      pendingFetches := pendingFetches - {id};
      got := [];
      if id in cachedResponses {
        got := [(id, cachedResponses[id])];
        cachedResponses := cachedResponses - {id};
      }
    }

    /** A migrated context arrives with its pending requests: their FETCHes are no longer needed and
        responses cached for them are handed to it. */
    method RegisterRestoredContext(owner: Owner, pending: seq<(int, int)>, now: int) returns (delivered: seq<(int, R)>)
      requires Valid()
      modifies this
      ensures Valid() && contexts == old(contexts) + {owner}
      ensures forall i :: 0 <= i < |pending| ==> Live(pending[i].0, now) && requests[pending[i].0].owner == owner
      ensures forall i :: 0 <= i < |pending| ==> SlotOf(pending[i].0) == Idle
      ensures forall id, r :: (id, r) in delivered <==> Listed(pending, id) && old(SlotOf(id)) == Cached(r)
      ensures forall id :: !Listed(pending, id) ==> SlotOf(id) == old(SlotOf(id))
    {
      contexts := contexts + {owner};
      delivered := [];
      for n := 0 to |pending|
        invariant Valid() && contexts == old(contexts) + {owner}
        invariant forall i :: 0 <= i < n ==> Live(pending[i].0, now) && requests[pending[i].0].owner == owner
        invariant forall i :: 0 <= i < n ==> SlotOf(pending[i].0) == Idle
        invariant forall id, r :: (id, r) in delivered <==> Listed(pending[..n], id) && old(SlotOf(id)) == Cached(r)
        invariant forall id :: !Listed(pending[..n], id) ==> SlotOf(id) == old(SlotOf(id))
      {
        var (id, ttl) := pending[n];
        ListedNext(pending, n);
        var got := RestoreOne(owner, id, ttl, now);
        delivered := delivered + got;
      }
      assert pending[..|pending|] == pending;
    }
  }

  predicate Listed(pending: seq<(int, int)>, id: int) {
    exists i :: 0 <= i < |pending| && pending[i].0 == id
  }

  lemma ListedNext(pending: seq<(int, int)>, n: nat)
    requires n < |pending|
    ensures forall id :: Listed(pending[..n + 1], id) <==> Listed(pending[..n], id) || id == pending[n].0
  {
    var a, b := pending[..n], pending[..n + 1];
    assert b[n] == pending[n] && forall i :: 0 <= i < n ==> b[i] == a[i];
    forall id ensures Listed(b, id) <==> Listed(a, id) || id == pending[n].0 {
      if Listed(a, id) {
        var i :| 0 <= i < |a| && a[i].0 == id;
        assert b[i].0 == id;
      }
      if id == pending[n].0 { assert b[n].0 == id; }
    }
  }

  // ---------- the server ----------

  /** What a request's slot becomes when a failed forward puts the response back `later`. */
  function Recached<R>(slot: Slot<R>, attempt: Option<Attempt<R>>, alive: bool): Slot<R> {
    if attempt.Some? && !attempt.value.sent && !alive then Idle else slot
  }

  /** A response arrives. `sent` says whether forwarding it would work; if it does not, the response is
      cached again at time `later`. */
  method DeliverResponse<R(==)>(reg: RpcContextRegistry<R>, id: int, resp: R, now: int, sent: bool, later: int)
    returns (d: Disposition<R>, attempt: Option<Attempt<R>>)
    requires reg.Valid() && now <= later
    modifies reg
    ensures reg.Valid() && reg.contexts == old(reg.contexts) && reg.OthersUnchanged(id)
    ensures d.Drop? <==> id !in old(reg.requests) || now >= old(reg.requests)[id].expiresAt
    ensures d.Local? <==> !d.Drop? && old(reg.requests)[id].owner in reg.contexts
    ensures d.Drop? || d.Local? ==> attempt.None?
    ensures !d.Drop? && !d.Local? ==>
              var (slot, a) := Next(old(reg.SlotOf(id)), Response(resp, sent));
              attempt == a && reg.SlotOf(id) == Recached(slot, a, old(reg.Live(id, later)))
  {
    d := reg.RouteResponse(id, resp, now);
    attempt := None;
    if d.Forward? {
      attempt := Some(Attempt(resp, d.fetch, sent));
      if !sent { reg.CacheResponse(id, resp, later); }
    }
  }

  /** A FETCH arrives for a request whose caller now lives at `fetch`. */
  method RecvFetch<R(==)>(reg: RpcContextRegistry<R>, id: int, fetch: PendingFetch, now: int, sent: bool, later: int)
    returns (attempt: Option<Attempt<R>>)
    requires reg.Valid() && now <= later
    modifies reg
    ensures reg.Valid() && reg.contexts == old(reg.contexts) && reg.OthersUnchanged(id)
    ensures id !in old(reg.requests) || now >= old(reg.requests)[id].expiresAt ==>
              attempt.None? && reg.SlotOf(id) == Idle && id !in reg.requests
    ensures id in old(reg.requests) && now < old(reg.requests)[id].expiresAt ==>
              var (slot, a) := Next(old(reg.SlotOf(id)), Fetch(fetch, sent));
              attempt == a && reg.SlotOf(id) == Recached(slot, a, old(reg.Live(id, later)))
  {
    attempt := None;
    var gone := reg.ExpireRequestIfNeeded(id, now);
    if gone { return; }
    var cached := reg.ConsumeCachedResponse(id, now);
    if cached.None? {
      reg.RegisterPendingFetch(id, fetch, now);
      return;
    }
    attempt := Some(Attempt(cached.value, fetch, sent));
    if !sent { reg.CacheResponse(id, cached.value, later); }
  }
}
