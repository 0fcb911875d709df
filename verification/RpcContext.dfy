/** The caller's side of RPC: channels, operations in flight, the one retry after a stale target, and the
    state that moves with the caller when it migrates. */
module RpcContexts {
  import opened Options

  const NO_CACHED_RESP_STATUS := -1
  const DEADLINE_EXCEEDED := 4
  const UNAVAILABLE := 14
  const UNSENT := "failed to send request after re-resolve"
  const STALE_TARGET := "Target service instance not available"
  const U32_LIMIT: nat := 0x1_0000_0000
  const FAABRIC_SCHEME := "faabric://"

  datatype Endpoint = Endpoint(host: string, appId: int, messageId: int)

  datatype ChannelInfo = ChannelInfo(targetUri: string, target: Endpoint)

  datatype Response = Response(requestId: int, statusCode: int, payload: string, errorMessage: string)

  const NO_RESPONSE := Response(0, 0, "", "")

  datatype Op = Op(ready: bool, response: Response, deadline: Option<int>, channelId: int, method_: string,
                   payload: string, retryCount: int)

  function NewOp(channelId: int, method_: string, payload: string, timeoutMs: int, now: int): Op {
    Op(false, NO_RESPONSE, if timeoutMs >= 0 then Some(now + timeoutMs) else None, channelId, method_, payload, 0)
  }

  // ---------- what happens to one operation ----------

  predicate Retryable(op: Op, resp: Response) {
    resp.statusCode == UNAVAILABLE && resp.errorMessage == STALE_TARGET && op.retryCount == 0 && op.method_ != ""
  }

  /** A response arrives: the first stale-target reply asks for a retry, anything else is final. */
  function Received(op: Op, resp: Response): Op {
    if Retryable(op, resp) then op.(retryCount := op.retryCount + 1) else op.(response := resp, ready := true)
  }

  /** The operation ends with an error made up locally. */
  function Failed(op: Op, id: int, status: int, message: string): Op {
    op.(ready := true, response := op.response.(requestId := id, statusCode := status, errorMessage := message))
  }

  function Expired(op: Op, id: int, now: int): Op {
    if op.ready || op.deadline.None? || now < op.deadline.value then op
    else Failed(op, id, DEADLINE_EXCEEDED, "deadline exceeded")
  }

  // ---------- migration ----------

  datatype PendingRequest = PendingRequest(requestId: int, channelId: int, cachedStatusCode: int,
                                           cachedResponse: string, timeoutRemaining: int, method_: string,
                                           payload: string, retryCount: int)

  datatype MigrationState = MigrationState(channels: seq<(int, string)>, pending: seq<PendingRequest>)

  function Max(a: int, b: int): int { if a < b then b else a }

  /** How an operation is written down at time `now`. */
  function Written(id: int, channelId: int, op: Option<Op>, now: int): PendingRequest {
    if op.None? then PendingRequest(id, channelId, NO_CACHED_RESP_STATUS, "", -1, "", "", 0)
    else
      var o := op.value;
      PendingRequest(id, channelId,
                     if o.ready then o.response.statusCode else NO_CACHED_RESP_STATUS,
                     if o.ready then o.response.payload else "",
                     if o.deadline.Some? then Max(1, o.deadline.value - now) else -1,
                     o.method_, o.payload, o.retryCount)
  }

  /** How it is read back, at time `later`. */
  function ReadBack(p: PendingRequest, later: int): Op {
    var ready := p.cachedStatusCode != NO_CACHED_RESP_STATUS;
    Op(ready,
       if ready then Response(p.requestId, p.cachedStatusCode, p.cachedResponse, "") else NO_RESPONSE,
       if p.timeoutRemaining >= 0 then Some(later + p.timeoutRemaining) else None,
       p.channelId, p.method_, p.payload, p.retryCount)
  }

  function Migrated(id: int, op: Op, now: int, later: int): Op {
    ReadBack(Written(id, op.channelId, Some(op), now), later)
  }

  /** A migration keeps an operation's channel, request and retry count; readiness survives exactly when the
      status is not the one that stands for "none cached". Of a ready response the status and the payload
      arrive, the error message does not: the response is the same iff it had none. Time left to a deadline
      is kept, but at least a millisecond. */
  lemma MigrationKeepsOp(id: int, op: Op, now: int, later: int)
    ensures var m := Migrated(id, op, now, later);
            && m.channelId == op.channelId && m.method_ == op.method_ && m.payload == op.payload
            && m.retryCount == op.retryCount
            && (m.ready <==> op.ready && op.response.statusCode != NO_CACHED_RESP_STATUS)
            && (m.ready ==> m.response == Response(id, op.response.statusCode, op.response.payload, ""))
            && (m.ready ==>
                  (m.response == op.response <==> op.response.errorMessage == "" && op.response.requestId == id))
            && (m.deadline.Some? <==> op.deadline.Some?)
            && (m.deadline.Some? && op.deadline.value > now ==> m.deadline.value - later == op.deadline.value - now)
  {
  }

  // ---------- every run of one operation ----------

  datatype Event =
    | Reply(resp: Response)
    | RetryFails(message: string)
    | Poll(now: int)
    | Migrate(now: int, later: int)

  function Next(id: int, op: Op, e: Event): Op {
    match e
    case Reply(resp) => Received(op, resp)
    case RetryFails(message) => Failed(op, id, UNAVAILABLE, message)
    case Poll(now) => Expired(op, id, now)
    case Migrate(now, later) => Migrated(id, op, now, later)
  }

  function Retries(id: int, op: Op, es: seq<Event>): nat
    decreases |es|
  {
    if es == [] then 0
    else (if es[0].Reply? && Retryable(op, es[0].resp) then 1 else 0) + Retries(id, Next(id, op, es[0]), es[1..])
  }

  function After(id: int, op: Op, es: seq<Event>): Op
    decreases |es|
  {
    if es == [] then op else After(id, Next(id, op, es[0]), es[1..])
  }

  /** Replies carry real status codes. */
  predicate RealReplies(es: seq<Event>) {
    forall i :: 0 <= i < |es| && es[i].Reply? ==> es[i].resp.statusCode != NO_CACHED_RESP_STATUS
  }

  /** Over any run, migrations included, an operation is retried at most once. */
  lemma {:induction false} RetriedAtMostOnce(id: int, op: Op, es: seq<Event>)
    requires op.retryCount >= 0
    ensures Retries(id, op, es) <= 1 && (op.retryCount > 0 ==> Retries(id, op, es) == 0)
    decreases |es|
  {
    if es != [] { RetriedAtMostOnce(id, Next(id, op, es[0]), es[1..]); }
  }

  /** Once ready, an operation stays ready until it is consumed. */
  lemma {:induction false} ReadinessIsKept(id: int, op: Op, es: seq<Event>)
    requires RealReplies(es) && op.ready && op.response.statusCode != NO_CACHED_RESP_STATUS
    ensures After(id, op, es).ready
    decreases |es|
  {
    if es != [] {
      assert es[0].Reply? ==> es[0].resp.statusCode != NO_CACHED_RESP_STATUS;
      assert forall i :: 0 <= i < |es[1..]| ==> es[1..][i] == es[i + 1];
      ReadinessIsKept(id, Next(id, op, es[0]), es[1..]);
    }
  }

  // ---------- request ids ----------

  /** The id the next request gets, and the ids that are pending. */
  datatype Ids = Ids(next: nat, pending: set<int>)

  datatype IdEvent = Start | Done(id: int)

  /** Ids count up modulo 2^32. A request whose id is pending is not recorded. */
  function NextIds(s: Ids, e: IdEvent): Ids {
    match e
    case Start => Ids((s.next + 1) % U32_LIMIT, s.pending + {s.next})
    case Done(id) => Ids(s.next, s.pending - {id})
  }

  predicate Recorded(s: Ids) { s.next !in s.pending }

  function IdsAfter(s: Ids, es: seq<IdEvent>): Ids {
    if es == [] then s else NextIds(IdsAfter(s, es[..|es| - 1]), es[|es| - 1])
  }

  /** Every request the run starts is recorded. */
  ghost predicate AllRecorded(s: Ids, es: seq<IdEvent>) {
    forall k :: 0 <= k < |es| && es[k].Start? ==> Recorded(IdsAfter(s, es[..k]))
  }

  function Starts(es: seq<IdEvent>): nat {
    if es == [] then 0 else Starts(es[..|es| - 1]) + if es[|es| - 1].Start? then 1 else 0
  }

  function IdAt(seed: nat, i: nat): nat { (seed + i) % U32_LIMIT }

  lemma IdsDiffer(seed: nat, i: nat, j: nat)
    requires i < j < i + U32_LIMIT
    ensures IdAt(seed, i) != IdAt(seed, j)
  {
    var a, b := (seed + i) / U32_LIMIT, (seed + j) / U32_LIMIT;
    assert j - i == (b - a) * U32_LIMIT + IdAt(seed, j) - IdAt(seed, i);
  }

  lemma {:induction false} NextIsCounted(seed: nat, pending: set<int>, es: seq<IdEvent>)
    ensures IdsAfter(Ids(IdAt(seed, 0), pending), es).next == IdAt(seed, Starts(es))
  {
    if es != [] { NextIsCounted(seed, pending, es[..|es| - 1]); }
  }

  /** Pending after a run: of the ids pending before, or given out in it. */
  lemma {:induction false} PendingIsKnown(seed: nat, pending: set<int>, es: seq<IdEvent>, id: int)
    requires id in IdsAfter(Ids(IdAt(seed, 0), pending), es).pending
    ensures id in pending || exists i: nat :: i < Starts(es) && IdAt(seed, i) == id
  {
    if es != [] {
      var n := |es| - 1;
      NextIsCounted(seed, pending, es[..n]);
      if id in IdsAfter(Ids(IdAt(seed, 0), pending), es[..n]).pending {
        PendingIsKnown(seed, pending, es[..n], id);
      } else {
        assert IdAt(seed, Starts(es[..n])) == id;
      }
    }
  }

  lemma {:induction false} StartsOfPrefix(es: seq<IdEvent>, k: nat)
    requires k < |es| && es[k].Start?
    ensures Starts(es[..k]) < Starts(es)
    decreases |es|
  {
    var n := |es| - 1;
    if k < n {
      assert es[..n][..k] == es[..k];
      StartsOfPrefix(es[..n], k);
    }
  }

  /** Counting from a seed with ids left over from before, as after a migration: every request of a run of at
      most 2^32 is recorded if none of the ids it comes to was left over. */
  lemma FreshIdsAreRecorded(seed: nat, left: set<int>, es: seq<IdEvent>)
    requires Starts(es) <= U32_LIMIT && forall i: nat :: i < Starts(es) ==> IdAt(seed, i) !in left
    ensures AllRecorded(Ids(IdAt(seed, 0), left), es)
  {
    var s := Ids(IdAt(seed, 0), left);
    forall k | 0 <= k < |es| && es[k].Start? ensures Recorded(IdsAfter(s, es[..k])) {
      StartsOfPrefix(es, k);
      NextIsCounted(seed, left, es[..k]);
      var n := Starts(es[..k]);
      if IdAt(seed, n) in IdsAfter(s, es[..k]).pending {
        PendingIsKnown(seed, left, es[..k], IdAt(seed, n));
        var i: nat :| i < n && IdAt(seed, i) == IdAt(seed, n);
        IdsDiffer(seed, i, n);
      }
    }
  }

  /** The run of n requests none of which completes. */
  function Burst(n: nat): (es: seq<IdEvent>)
    ensures |es| == n && forall k :: 0 <= k < n ==> es[k].Start?
  {
    seq(n, i => Start)
  }

  lemma {:induction false} BurstStarts(n: nat)
    ensures Starts(Burst(n)) == n
  {
    if n > 0 {
      assert Burst(n)[..n - 1] == Burst(n - 1);
      BurstStarts(n - 1);
    }
  }

  lemma {:induction false} StillPending(s: Ids, es: seq<IdEvent>, id: int)
    requires id in s.pending && Done(id) !in es
    ensures id in IdsAfter(s, es).pending
  {
    if es != [] {
      assert es[|es| - 1] in es;
      StillPending(s, es[..|es| - 1], id);
    }
  }

  /** A run comes to a leftover id: its request is lost unless the leftover one has completed before. */
  lemma LeftoverIdIsLost(seed: nat, left: set<int>, es: seq<IdEvent>, k: nat)
    requires k < |es| && es[k].Start? && Done(IdAt(seed, Starts(es[..k]))) !in es[..k]
    requires IdAt(seed, Starts(es[..k])) in left
    ensures !AllRecorded(Ids(IdAt(seed, 0), left), es)
  {
    var s, id := Ids(IdAt(seed, 0), left), IdAt(seed, Starts(es[..k]));
    NextIsCounted(seed, left, es[..k]);
    StillPending(s, es[..k], id);
    assert !Recorded(IdsAfter(s, es[..k]));
  }

  /** Requests started one after the other, after a migration: all are recorded iff none of their ids was
      pending when the caller moved. */
  lemma RestartedIds(seed: nat, left: set<int>, n: nat)
    requires n <= U32_LIMIT
    ensures AllRecorded(Ids(IdAt(seed, 0), left), Burst(n)) <==> forall i: nat :: i < n ==> IdAt(seed, i) !in left
  {
    BurstStarts(n);
    if i: nat :| i < n && IdAt(seed, i) in left {
      assert Burst(n)[..i] == Burst(i);
      BurstStarts(i);
      LeftoverIdIsLost(seed, left, Burst(n), i);
    } else {
      FreshIdsAreRecorded(seed, left, Burst(n));
    }
  }

  /** On the host where the caller started, the first 2^32 requests are all recorded, whatever completes
      in between. */
  lemma FirstIdsAreRecorded(seed: nat, es: seq<IdEvent>)
    requires Starts(es) <= U32_LIMIT
    ensures AllRecorded(Ids(IdAt(seed, 0), {}), es)
  {
    FreshIdsAreRecorded(seed, {}, es);
  }

  // ---------- the context ----------

  type Resolver = string -> Option<Endpoint>

  predicate IsFaabricUri(uri: string) { FAABRIC_SCHEME <= uri }

  /** Looks a target up; None stands for the exceptions thrown for foreign, empty or unknown targets. */
  function ParseChannelInfo(uri: string, resolve: Resolver): Option<ChannelInfo> {
    if !IsFaabricUri(uri) || uri == FAABRIC_SCHEME then None
    else
      var endpoint := resolve(uri[|FAABRIC_SCHEME|..]);
      if endpoint.None? then None else Some(ChannelInfo(uri, endpoint.value))
  }

  /** A context as a value. */
  datatype Context = Context(channels: map<int, ChannelInfo>, requestToChannel: map<int, int>, ops: map<int, Op>,
                             nextChannelId: int)

  ghost predicate Consistent(c: Context) {
    && c.ops.Keys == c.requestToChannel.Keys
    && (forall id :: id in c.ops ==> c.ops[id].channelId == c.requestToChannel[id])
    && 0 < c.nextChannelId && forall id :: id in c.channels ==> 0 < id < c.nextChannelId
  }

  function OpAt(c: Context, id: int): Option<Op> { if id in c.ops then Some(c.ops[id]) else None }

  predicate IsChannel(c: Context, ch: (int, string)) { ch.0 in c.channels && c.channels[ch.0].targetUri == ch.1 }

  predicate IsPending(c: Context, p: PendingRequest, now: int) {
    && p.requestId in c.requestToChannel
    && p == Written(p.requestId, c.requestToChannel[p.requestId], OpAt(c, p.requestId), now)
  }

  /** st lists every channel and every pending request of c. */
  ghost predicate Describes(st: MigrationState, c: Context, now: int) {
    && (forall ch: (int, string) :: ch in st.channels <==> IsChannel(c, ch))
    && (forall p :: p in st.pending <==> IsPending(c, p, now))
  }

  /** Every listed target can be resolved and every pending request names a listed channel. */
  ghost predicate Restorable(st: MigrationState, resolve: Resolver) {
    && (forall ch :: ch in st.channels ==> ParseChannelInfo(ch.1, resolve).Some?)
    && forall p :: p in st.pending ==> exists ch :: ch in st.channels && ch.0 == p.channelId
  }

  /** c is what a description with distinct ids is restored to. */
  ghost predicate Restores(st: MigrationState, c: Context, resolve: Resolver, later: int) {
    && (forall ch :: ch in st.channels ==>
          ch.0 in c.channels && ParseChannelInfo(ch.1, resolve) == Some(c.channels[ch.0]) && ch.0 < c.nextChannelId)
    && (forall id :: id in c.channels ==> exists ch :: ch in st.channels && ch.0 == id)
    && (forall p :: p in st.pending ==>
          p.requestId in c.ops && c.ops[p.requestId] == ReadBack(p, later)
          && p.requestId in c.requestToChannel && c.requestToChannel[p.requestId] == p.channelId)
    && (forall id :: id in c.ops ==> exists p :: p in st.pending && p.requestId == id)
    && c.ops.Keys == c.requestToChannel.Keys
  }

  lemma ChannelsRoundTrip(c: Context, st: MigrationState, c': Context, resolve: Resolver, now: int, later: int)
    requires Describes(st, c, now) && Restores(st, c', resolve, later)
    ensures c'.channels.Keys == c.channels.Keys
    ensures forall id :: id in c.channels ==>
              c'.channels[id].targetUri == c.channels[id].targetUri && id < c'.nextChannelId
  {
    forall id | id in c.channels
      ensures id in c'.channels && c'.channels[id].targetUri == c.channels[id].targetUri && id < c'.nextChannelId
    {
      assert IsChannel(c, (id, c.channels[id].targetUri));
    }
    forall id | id in c'.channels ensures id in c.channels {
      var ch :| ch in st.channels && ch.0 == id;
      assert IsChannel(c, ch);
    }
  }

  lemma RequestRoundTrip(c: Context, st: MigrationState, c': Context, resolve: Resolver, now: int, later: int, id: int)
    requires Consistent(c) && Describes(st, c, now) && Restores(st, c', resolve, later)
    ensures id in c.ops <==> id in c'.ops
    ensures id in c.ops ==> c'.ops[id] == Migrated(id, c.ops[id], now, later)
    ensures id in c.ops ==> id in c'.requestToChannel && c'.requestToChannel[id] == c.requestToChannel[id]
  {
    if id in c.ops {
      var p := Written(id, c.requestToChannel[id], OpAt(c, id), now);
      assert IsPending(c, p, now);
    }
    if id in c'.ops {
      var p :| p in st.pending && p.requestId == id;
      assert IsPending(c, p, now);
    }
  }

  /** Serialise, then restore: the same channels to the same targets, the same requests with every
      operation as migration leaves it, and fresh channel ids above all of them. */
  lemma MigrationRoundTrip(c: Context, st: MigrationState, c': Context, resolve: Resolver, now: int, later: int)
    requires Consistent(c) && Describes(st, c, now) && Restores(st, c', resolve, later)
    ensures c'.channels.Keys == c.channels.Keys && c'.requestToChannel == c.requestToChannel
    ensures forall id :: id in c.channels ==>
              c'.channels[id].targetUri == c.channels[id].targetUri && id < c'.nextChannelId
    ensures c'.ops.Keys == c.ops.Keys
    ensures forall id :: id in c.ops ==> c'.ops[id] == Migrated(id, c.ops[id], now, later)
  {
    ChannelsRoundTrip(c, st, c', resolve, now, later);
    forall id
      ensures id in c.ops <==> id in c'.ops
      ensures id in c.ops ==> c'.ops[id] == Migrated(id, c.ops[id], now, later)
      ensures id in c.ops ==> id in c'.requestToChannel && c'.requestToChannel[id] == c.requestToChannel[id]
    {
      RequestRoundTrip(c, st, c', resolve, now, later, id);
    }
    hide Describes, Restores, Migrated;
    assert c'.ops.Keys == c.ops.Keys;
    assert c'.requestToChannel.Keys == c.requestToChannel.Keys by { SameKeys(c', st, resolve, later); }
  }

  lemma SameKeys(c: Context, st: MigrationState, resolve: Resolver, later: int)
    requires Restores(st, c, resolve, later)
    ensures c.ops.Keys == c.requestToChannel.Keys
  {
  }

  predicate Resolvable(info: ChannelInfo, resolve: Resolver) { ParseChannelInfo(info.targetUri, resolve).Some? }

  /** Every target can be resolved and every pending request's channel is open. */
  ghost predicate Movable(c: Context, resolve: Resolver) {
    && (forall id :: id in c.channels ==> Resolvable(c.channels[id], resolve))
    && forall id :: id in c.requestToChannel ==> c.requestToChannel[id] in c.channels
  }

  lemma MovableRestores(c: Context, st: MigrationState, resolve: Resolver, now: int)
    requires Describes(st, c, now) && Movable(c, resolve)
    ensures Restorable(st, resolve)
  {
    forall ch | ch in st.channels ensures ParseChannelInfo(ch.1, resolve).Some? {
      assert IsChannel(c, ch);
      var id := ch.0;
      assert Resolvable(c.channels[id], resolve);
    }
    forall p | p in st.pending ensures exists ch :: ch in st.channels && ch.0 == p.channelId {
      assert IsPending(c, p, now);
      WrittenChannel(p.requestId, c.requestToChannel[p.requestId], OpAt(c, p.requestId), now);
      var id := c.requestToChannel[p.requestId];
      var ch := (id, c.channels[id].targetUri);
      assert IsChannel(c, ch) && ch.0 == p.channelId;
    }
  }

  lemma RestorableMoves(c: Context, st: MigrationState, resolve: Resolver, now: int)
    requires Describes(st, c, now) && Restorable(st, resolve)
    ensures Movable(c, resolve)
  {
    forall id | id in c.channels ensures Resolvable(c.channels[id], resolve) {
      var ch := (id, c.channels[id].targetUri);
      assert IsChannel(c, ch);
      assert ch in st.channels;
    }
    forall id | id in c.requestToChannel ensures c.requestToChannel[id] in c.channels {
      var p := Written(id, c.requestToChannel[id], OpAt(c, id), now);
      WrittenChannel(id, c.requestToChannel[id], OpAt(c, id), now);
      assert IsPending(c, p, now);
      var ch :| ch in st.channels && ch.0 == p.channelId;
      assert IsChannel(c, ch);
    }
  }

  lemma WrittenChannel(id: int, channelId: int, op: Option<Op>, now: int)
    ensures Written(id, channelId, op, now).channelId == channelId && Written(id, channelId, op, now).requestId == id
  {
  }

  /** No id is listed with two meanings. */
  ghost predicate Functional(st: MigrationState) {
    && (forall a, b :: a in st.channels && b in st.channels && a.0 == b.0 ==> a == b)
    && forall p, q :: p in st.pending && q in st.pending && p.requestId == q.requestId ==> p == q
  }

  lemma DescriptionIsFunctional(st: MigrationState, c: Context, now: int)
    requires Describes(st, c, now)
    ensures Functional(st)
  {
    hide Written;
    forall a, b | a in st.channels && b in st.channels && a.0 == b.0 ensures a == b {
      assert IsChannel(c, a) && IsChannel(c, b);
    }
    forall p, q | p in st.pending && q in st.pending && p.requestId == q.requestId ensures p == q {
      assert IsPending(c, p, now) && IsPending(c, q, now);
    }
  }

  class RpcContext {
    const resolve: Resolver
    var channels: map<int, ChannelInfo>
    var requestToChannel: map<int, int>
    var ops: map<int, Op>
    var nextChannelId: int
    var nextRequestId: nat

    ghost function Value(): Context
      reads this
    {
      Context(channels, requestToChannel, ops, nextChannelId)
    }

    ghost function RequestIds(): Ids
      reads this
    {
      Ids(nextRequestId, ops.Keys)
    }

    /** Request ids count up from a seed derived from the owner, modulo 2^32. */
    constructor (resolver: Resolver, seed: nat)
      ensures Consistent(Value()) && channels == map[] && requestToChannel == map[] && ops == map[]
      ensures resolve == resolver && nextRequestId == IdAt(seed, 0) && RequestIds() == Ids(IdAt(seed, 0), {})
    {
      resolve := resolver;
      channels, requestToChannel, ops, nextChannelId, nextRequestId := map[], map[], map[], 1, seed % U32_LIMIT;
    }

    /** Opens a channel under an id that no open channel has. */
    method CreateChannel(uri: string) returns (id: Option<int>)
      requires Consistent(Value())
      modifies this`channels, this`nextChannelId
      ensures Consistent(Value())
      ensures id.Some? <==>
                && |uri| > |FAABRIC_SCHEME| && uri[..|FAABRIC_SCHEME|] == FAABRIC_SCHEME
                && resolve(uri[|FAABRIC_SCHEME|..]).Some?
      ensures id.Some? <==> ParseChannelInfo(uri, resolve).Some?
      ensures id.Some? ==>
                && id.value !in old(channels)
                && channels == old(channels)[id.value := ChannelInfo(uri, resolve(uri[|FAABRIC_SCHEME|..]).value)]
      ensures id.None? ==> Value() == old(Value())
    {
      var info := ParseChannelInfo(uri, resolve);
      if info.None? { return None; }
      id := Some(nextChannelId);
      nextChannelId := nextChannelId + 1;
      channels := channels[id.value := info.value];
    }

    method CloseChannel(id: int)
      requires Consistent(Value())
      modifies this`channels
      ensures Consistent(Value()) && channels == old(channels) - {id}
    {
      channels := channels - {id};
    }

    /** Neither the cached target nor, looked up again, the fresh one can be reached. */
    predicate Unreachable(channelId: int, sent: bool, resent: bool)
      requires channelId in channels
      reads this
    {
      !sent && (!resent || Reresolved(channels[channelId].targetUri).None?)
    }

    /** Starts an operation on an open channel, under the next request id. It is recorded iff that id is not
        pending; otherwise the operation that has the id stands in for it. If the target cannot be reached,
        the operation under the id, whosever it is, is ready with an error. */
    method StartUnary(channelId: int, method_: string, payload: string, timeoutMs: int, now: int, sent: bool,
                      resent: bool)
      returns (id: Option<int>)
      requires Consistent(Value())
      modifies this
      ensures Consistent(Value())
      ensures id == if channelId in old(channels) then Some(old(nextRequestId)) else None
      ensures id.None? ==> Value() == old(Value()) && nextRequestId == old(nextRequestId)
      ensures id.Some? ==> RequestIds() == NextIds(old(RequestIds()), Start)
      ensures id.Some? ==> (ops.Keys != old(ops).Keys <==> old(nextRequestId) !in old(ops))
      ensures id.Some? ==>
                var r := old(nextRequestId);
                var op := if r in old(ops) then old(ops)[r] else NewOp(channelId, method_, payload, timeoutMs, now);
                var op' := if old(Unreachable(channelId, sent, resent)) then Failed(op, r, UNAVAILABLE, UNSENT) else op;
                ops == old(ops)[r := op']
      ensures id.Some? ==>
                requestToChannel == if old(Recorded(RequestIds())) then old(requestToChannel)[id.value := channelId]
                                    else old(requestToChannel)
      ensures id.Some? && id.value !in old(ops) ==>
                var op := ops[id.value];
                && op.channelId == channelId && op.method_ == method_ && op.payload == payload && op.retryCount == 0
                && op.deadline == (if timeoutMs >= 0 then Some(now + timeoutMs) else None)
                && (op.ready <==> !sent && (!resent || Reresolved(old(channels)[channelId].targetUri).None?))
      ensures id.Some? && !sent && !resent ==>
                ops[id.value].ready && ops[id.value].response.statusCode == UNAVAILABLE
      ensures channels.Keys == old(channels).Keys && (sent ==> channels == old(channels))
      ensures forall k :: k in channels ==> channels[k].targetUri == old(channels)[k].targetUri
    {
      if channelId !in channels { return None; }
      var requestId := nextRequestId;
      nextRequestId := (nextRequestId + 1) % U32_LIMIT;
      id := Some(requestId);
      AddOp(requestId, NewOp(channelId, method_, payload, timeoutMs, now));
      assert requestId in old(ops) ==> old(ops)[requestId := old(ops)[requestId]] == old(ops);
      if sent { return; }
      var endpoint := ReresolveChannel(channelId);
      if endpoint.None? || !resent { Fail(requestId, UNSENT); }
    }

    /** Records an operation, unless its id is taken. */
    method AddOp(id: int, op: Op)
      requires Consistent(Value())
      modifies this`ops, this`requestToChannel
      ensures Consistent(Value())
      ensures ops == if id in old(ops) then old(ops) else old(ops)[id := op]
      ensures requestToChannel ==
                if id in old(ops) then old(requestToChannel) else old(requestToChannel)[id := op.channelId]
    {
      if id !in ops {
        ops := ops[id := op];
        requestToChannel := requestToChannel[id := op.channelId];
      }
    }

    function Reresolved(uri: string): Option<Endpoint>
      reads this
    {
      if |uri| < |FAABRIC_SCHEME| then None else resolve(uri[|FAABRIC_SCHEME|..])
    }

    /** Looks the channel's target up again and points the channel at it. */
    method ReresolveChannel(channelId: int) returns (endpoint: Option<Endpoint>)
      requires Consistent(Value()) && channelId in channels
      modifies this`channels
      ensures Consistent(Value()) && channels.Keys == old(channels).Keys
      ensures endpoint == Reresolved(old(channels)[channelId].targetUri)
      ensures var uri := old(channels)[channelId].targetUri;
              |uri| >= |FAABRIC_SCHEME| ==> endpoint == resolve(uri[|FAABRIC_SCHEME|..])
      ensures channels == if endpoint.None? then old(channels)
                          else old(channels)[channelId := old(channels)[channelId].(target := endpoint.value)]
      ensures forall k :: k in channels ==> channels[k].targetUri == old(channels)[k].targetUri
    {
      var info := channels[channelId];
      endpoint := Reresolved(info.targetUri);
      if endpoint.Some? { channels := channels[channelId := info.(target := endpoint.value)]; }
    }

    /** First half of handling a response; `retry` is the operation to send again, if any. */
    method OnResponseReceived(resp: Response) returns (retry: Option<Op>)
      requires Consistent(Value())
      modifies this`ops
      ensures Consistent(Value()) && ops.Keys == old(ops).Keys
      ensures retry.Some? <==>
                && resp.requestId in old(ops)
                && resp.statusCode == UNAVAILABLE && resp.errorMessage == STALE_TARGET
                && old(ops)[resp.requestId].retryCount == 0 && old(ops)[resp.requestId].method_ != ""
      ensures retry.Some? ==>
                && retry.value == ops[resp.requestId]
                && var op := old(ops)[resp.requestId];
                   ops[resp.requestId] == op.(retryCount := op.retryCount + 1)
      ensures retry.None? && resp.requestId in ops ==>
                ops[resp.requestId] == old(ops)[resp.requestId].(response := resp, ready := true)
      ensures resp.requestId in ops ==> ops[resp.requestId] == Received(old(ops)[resp.requestId], resp)
      ensures forall k :: k in ops && k != resp.requestId ==> ops[k] == old(ops)[k]
    {
      if resp.requestId !in ops { return None; }
      var op := ops[resp.requestId];
      if Retryable(op, resp) {
        ops := ops[resp.requestId := op.(retryCount := op.retryCount + 1)];
        return Some(ops[resp.requestId]);
      }
      ops := ops[resp.requestId := op.(response := resp, ready := true)];
      retry := None;
    }

    method Fail(id: int, message: string)
      requires Consistent(Value())
      modifies this`ops
      ensures Consistent(Value()) && ops.Keys == old(ops).Keys
      ensures id in ops ==> ops[id].ready
      ensures ops == if id in old(ops) then old(ops)[id := Failed(old(ops)[id], id, UNAVAILABLE, message)] else old(ops)
    {
      if id in ops { ops := ops[id := Failed(ops[id], id, UNAVAILABLE, message)]; }
    }

    /** Second half: look the target up again and resend. `closed` says that the channel was closed while
        that happened. The reply leads to a resend or a ready operation, or the operation was consumed. */
    method RetryUnaryAfterUnavailable(id: int, op: Op, closed: bool, sent: bool) returns (resent: bool)
      requires Consistent(Value())
      modifies this`ops, this`channels
      ensures Consistent(Value()) && ops.Keys == old(ops).Keys
      ensures resent || id !in ops || (ops[id].ready && ops[id].response.statusCode == UNAVAILABLE)
      ensures resent <==>
                op.channelId in old(channels) && Reresolved(old(channels)[op.channelId].targetUri).Some? && !closed
                  && sent
      ensures resent ==> ops == old(ops) && op.channelId in channels
      ensures forall k :: k in ops && k != id ==> ops[k] == old(ops)[k]
    {
      resent := false;
      if op.channelId !in channels {
        Fail(id, "retry failed: channel disappeared");
        return;
      }
      var endpoint := ReresolveChannel(op.channelId);
      if endpoint.None? {
        Fail(id, "retry failed: service re-resolution failed");
        return;
      }
      if closed {
        channels := channels - {op.channelId};
        Fail(id, "retry failed: channel disappeared after re-resolution");
        return;
      }
      if !sent {
        Fail(id, "retry after re-resolution failed");
        return;
      }
      resent := true;
    }

    /** Hands a ready response to the caller and forgets the operation. */
    method GetResponse(id: int, now: int) returns (resp: Option<Response>)
      requires Consistent(Value())
      modifies this`ops, this`requestToChannel
      ensures Consistent(Value())
      ensures resp.Some? <==>
                && id in old(ops)
                && (old(ops)[id].ready || (old(ops)[id].deadline.Some? && now >= old(ops)[id].deadline.value))
      ensures resp.Some? && old(ops)[id].ready ==> resp.value == old(ops)[id].response
      ensures resp.Some? && !old(ops)[id].ready ==>
                && resp.value.requestId == id && resp.value.statusCode == DEADLINE_EXCEEDED
                && resp.value.errorMessage == "deadline exceeded"
      ensures resp.Some? ==> resp.value == Expired(old(ops)[id], id, now).response && id !in ops
      ensures resp.None? ==> Value() == old(Value())
      ensures resp.Some? ==> RequestIds() == NextIds(old(RequestIds()), Done(id))
      ensures forall k :: k != id ==> (k in ops <==> k in old(ops)) && (k in ops ==> ops[k] == old(ops)[k])
    {
      if id !in ops { return None; }
      var op := Expired(ops[id], id, now);
      if !op.ready {
        assert op == ops[id];
        return None;
      }
      ops := ops - {id};
      requestToChannel := requestToChannel - {id};
      resp := Some(op.response);
    }

    // ---------- migration ----------

    method SerializeMigrationState(now: int) returns (st: MigrationState)
      ensures Describes(st, Value(), now)
    {
      var chs := WriteChannels();
      var pending := WritePending(now);
      st := MigrationState(chs, pending);
    }

    method WriteChannels() returns (chs: seq<(int, string)>)
      ensures forall ch: (int, string) :: ch in chs <==> IsChannel(Value(), ch)
    {
      chs := [];
      var rest := channels.Keys;
      while rest != {}
        invariant rest <= channels.Keys
        invariant forall ch: (int, string) :: ch in chs <==> IsChannel(Value(), ch) && ch.0 !in rest
        decreases rest
      {
        var id := Any(rest);
        chs := chs + [(id, channels[id].targetUri)];
        rest := rest - {id};
      }
    }

    method WritePending(now: int) returns (pending: seq<PendingRequest>)
      ensures forall p :: p in pending <==> IsPending(Value(), p, now)
    {
      pending := [];
      var rest := requestToChannel.Keys;
      while rest != {}
        invariant rest <= requestToChannel.Keys
        invariant forall p :: p in pending <==> IsPending(Value(), p, now) && p.requestId !in rest
        decreases rest
      {
        var id := Any(rest);
        var p := Written(id, requestToChannel[id], if id in ops then Some(ops[id]) else None, now);
        WrittenChannel(id, requestToChannel[id], OpAt(Value(), id), now);
        pending := pending + [p];
        rest := rest - {id};
      }
    }

    /** Replaces everything by what st describes; false stands for the exceptions thrown for a target that
        cannot be resolved or a request on a channel that is not listed. */
    method DeserializeMigrationState(st: MigrationState, later: int) returns (ok: bool)
      modifies this`channels, this`requestToChannel, this`ops, this`nextChannelId
      ensures ok <==> Restorable(st, resolve)
      ensures ok && Functional(st) ==> Restores(st, Value(), resolve, later)
      ensures ok && Functional(st) && (forall ch :: ch in st.channels ==> ch.0 > 0) ==> Consistent(Value())
    {
      channels, requestToChannel, ops, nextChannelId := map[], map[], map[], 1;
      ok := ReadChannels(st.channels);
      if !ok { return; }
      ok := ReadPending(st, later);
    }

    method ReadChannels(chs: seq<(int, string)>) returns (ok: bool)
      requires channels == map[]
      modifies this`channels, this`nextChannelId
      ensures ok <==> forall ch :: ch in chs ==> ParseChannelInfo(ch.1, resolve).Some?
      ensures ok ==> ChannelsRead(chs, channels, resolve) && nextChannelId > 0
      ensures ok ==> forall id :: id in channels ==> id < nextChannelId
    {
      var highest := 0;
      for n := 0 to |chs|
        invariant forall ch :: ch in chs[..n] ==> ParseChannelInfo(ch.1, resolve).Some?
        invariant ChannelsRead(chs[..n], channels, resolve)
        invariant highest >= 0 && forall id :: id in channels ==> id <= highest
      {
        var (id, uri) := chs[n];
        assert chs[..n + 1] == chs[..n] + [chs[n]];
        var info := ParseChannelInfo(uri, resolve);
        if info.None? {
          assert chs[n] in chs;
          return false;
        }
        ChannelsReadNext(chs[..n], chs[n], channels, resolve);
        if id !in channels { channels := channels[id := info.value]; }
        highest := Max(highest, id);
      }
      assert chs[..|chs|] == chs;
      nextChannelId := highest + 1;
      ok := true;
    }

    method ReadPending(st: MigrationState, later: int) returns (ok: bool)
      requires requestToChannel == map[] && ops == map[]
      requires forall id :: id in channels <==> exists ch :: ch in st.channels && ch.0 == id
      modifies this`requestToChannel, this`ops
      ensures ok <==> forall p :: p in st.pending ==> exists ch :: ch in st.channels && ch.0 == p.channelId
      ensures ok ==> PendingRead(st.pending, requestToChannel, ops, later)
    {
      for n := 0 to |st.pending|
        invariant forall p :: p in st.pending[..n] ==> p.channelId in channels
        invariant PendingRead(st.pending[..n], requestToChannel, ops, later)
      {
        var p := st.pending[n];
        assert st.pending[..n + 1] == st.pending[..n] + [p];
        if p.channelId !in channels {
          assert p in st.pending;
          return false;
        }
        PendingReadNext(st.pending[..n], p, requestToChannel, ops, later);
        if p.requestId !in ops {
          requestToChannel := requestToChannel[p.requestId := p.channelId];
          ops := ops[p.requestId := ReadBack(p, later)];
        }
      }
      assert st.pending[..|st.pending|] == st.pending;
      ok := true;
    }
  }

  method Any<T>(s: set<T>) returns (x: T)
    requires s != {}
    ensures x in s
  {
    x :| x in s;
  }

  /** Each listed id has an entry, which is that of the first listing of it. */
  ghost predicate ChannelsRead(chs: seq<(int, string)>, channels: map<int, ChannelInfo>, resolve: Resolver) {
    && (forall ch :: ch in chs ==> ch.0 in channels)
    && forall id :: id in channels ==>
         exists ch :: ch in chs && ch.0 == id && ParseChannelInfo(ch.1, resolve) == Some(channels[id])
  }

  lemma ChannelsReadNext(chs: seq<(int, string)>, ch: (int, string), channels: map<int, ChannelInfo>, resolve: Resolver)
    requires ChannelsRead(chs, channels, resolve) && ParseChannelInfo(ch.1, resolve).Some?
    ensures ChannelsRead(chs + [ch],
                         if ch.0 in channels then channels else channels[ch.0 := ParseChannelInfo(ch.1, resolve).value],
                         resolve)
  {
    hide ParseChannelInfo;
    var more := chs + [ch];
    var channels' := if ch.0 in channels then channels else channels[ch.0 := ParseChannelInfo(ch.1, resolve).value];
    forall id | id in channels'
      ensures exists x :: x in more && x.0 == id && ParseChannelInfo(x.1, resolve) == Some(channels'[id])
    {
      if id in channels {
        var x :| x in chs && x.0 == id && ParseChannelInfo(x.1, resolve) == Some(channels[id]);
        assert x in more;
      } else {
        assert ch in more;
      }
    }
  }

  ghost predicate PendingRead(pending: seq<PendingRequest>, requestToChannel: map<int, int>, ops: map<int, Op>,
                              later: int) {
    && (forall p :: p in pending ==> p.requestId in ops)
    && ops.Keys == requestToChannel.Keys
    && forall id :: id in ops ==>
         exists p :: p in pending && p.requestId == id && ops[id] == ReadBack(p, later)
           && requestToChannel[id] == p.channelId
  }

  lemma PendingReadNext(pending: seq<PendingRequest>, p: PendingRequest, requestToChannel: map<int, int>,
                        ops: map<int, Op>, later: int)
    requires PendingRead(pending, requestToChannel, ops, later)
    ensures PendingRead(pending + [p],
                        if p.requestId in ops then requestToChannel else requestToChannel[p.requestId := p.channelId],
                        if p.requestId in ops then ops else ops[p.requestId := ReadBack(p, later)], later)
  {
    hide ReadBack;
    var more := pending + [p];
    var ops' := if p.requestId in ops then ops else ops[p.requestId := ReadBack(p, later)];
    var r' := if p.requestId in ops then requestToChannel else requestToChannel[p.requestId := p.channelId];
    forall id | id in ops'
      ensures exists q :: q in more && q.requestId == id && ops'[id] == ReadBack(q, later) && r'[id] == q.channelId
    {
      if id in ops {
        var q :| q in pending && q.requestId == id && ops[id] == ReadBack(q, later)
          && requestToChannel[id] == q.channelId;
        assert q in more;
      } else {
        assert p in more;
      }
    }
  }

  /** A caller migrates: its context is written down on one host and restored on another. That works
      exactly when every target can be resolved and every pending request's channel is open, and then the
      channels, requests and operations arrive as they left. */
  method MoveContext(origin: RpcContext, destination: RpcContext, now: int, later: int) returns (ok: bool)
    requires origin != destination && Consistent(origin.Value())
    modifies destination`channels, destination`requestToChannel, destination`ops, destination`nextChannelId
    ensures ok <==> Movable(origin.Value(), destination.resolve)
    ensures ok ==> Consistent(destination.Value())
    ensures ok ==>
              && destination.requestToChannel == origin.requestToChannel
              && destination.channels.Keys == origin.channels.Keys
    ensures ok ==> forall id :: id in origin.channels ==>
              destination.channels[id].targetUri == origin.channels[id].targetUri && id < destination.nextChannelId
    ensures ok ==> destination.ops.Keys == origin.ops.Keys
    ensures ok ==> destination.RequestIds() == Ids(old(destination.nextRequestId), origin.ops.Keys)
    ensures ok ==> forall id :: id in origin.ops ==> destination.ops[id] == Migrated(id, origin.ops[id], now, later)
  {
    hide Describes, Restores, Restorable, Functional, Migrated, Movable;
    ghost var c := origin.Value();
    var st := origin.SerializeMigrationState(now);
    DescriptionIsFunctional(st, c, now);
    PositiveIds(st, c, now);
    if Movable(c, destination.resolve) { MovableRestores(c, st, destination.resolve, now); }
    ok := destination.DeserializeMigrationState(st, later);
    if ok {
      RestorableMoves(c, st, destination.resolve, now);
      MigrationRoundTrip(c, st, destination.Value(), destination.resolve, now, later);
    }
  }

  lemma PositiveIds(st: MigrationState, c: Context, now: int)
    requires Describes(st, c, now) && Consistent(c)
    ensures forall ch :: ch in st.channels ==> ch.0 > 0
  {
    forall ch | ch in st.channels ensures ch.0 > 0 { assert IsChannel(c, ch); }
  }

  /** A reply that is not retried is exactly what the caller then gets, and the operation is gone. */
  method ReplyIsReturned(context: RpcContext, resp: Response, now: int) returns (got: Option<Response>)
    requires Consistent(context.Value()) && resp.requestId in context.ops
    requires !(&& resp.statusCode == UNAVAILABLE && resp.errorMessage == STALE_TARGET
               && context.ops[resp.requestId].retryCount == 0 && context.ops[resp.requestId].method_ != "")
    modifies context
    ensures got == Some(resp) && resp.requestId !in context.ops
  {
    var retry := context.OnResponseReceived(resp);
    got := context.GetResponse(resp.requestId, now);
  }

  /** A caller's first request, and a migration to a context of the same owner while it is pending. */
  method StartAndMove(resolver: Resolver, seed: nat, uri: string, op: string, payload: string, timeoutMs: int,
                      now: int, later: int)
    returns (moved: RpcContext, channel: int, id: int)
    requires ParseChannelInfo(uri, resolver).Some?
    ensures fresh(moved) && Consistent(moved.Value()) && moved.resolve == resolver
    ensures channel in moved.channels && moved.channels[channel].targetUri == uri
    ensures moved.nextRequestId == id && moved.ops.Keys == {id}
    ensures moved.ops[id] == Migrated(id, NewOp(channel, op, payload, timeoutMs, now), now, later)
  {
    hide Migrated;
    var origin := new RpcContext(resolver, seed);
    var made := origin.CreateChannel(uri);
    channel := made.value;
    var started := origin.StartUnary(channel, op, payload, timeoutMs, now, true, true);
    id := started.value;
    moved := new RpcContext(resolver, seed);
    var ok := MoveContext(origin, moved, now, later);
  }

  /** The ids really start again: the caller's next request has the id of the first. It is not recorded, and
      if it cannot be sent it is the first that fails. */
  method RestartAfterMove(resolver: Resolver, seed: nat, uri: string, first: string, second: string, payload: string,
                          timeoutMs: int, now: int, later: int, sent: bool, resent: bool)
    returns (moved: RpcContext, channel: int, a: int, b: int)
    requires ParseChannelInfo(uri, resolver).Some?
    ensures a == b && moved.ops.Keys == {a} && moved.resolve == resolver
    ensures var kept := Migrated(a, NewOp(channel, first, payload, timeoutMs, now), now, later);
            var unsent := !sent && (!resent || moved.Reresolved(uri).None?);
            moved.ops[a] == if unsent then Failed(kept, a, UNAVAILABLE, UNSENT) else kept
    ensures moved.ops[a].method_ == first
  {
    moved, channel, a := StartAndMove(resolver, seed, uri, first, payload, timeoutMs, now, later);
    var id := moved.StartUnary(channel, second, payload, timeoutMs, later, sent, resent);
    b := id.value;
  }
}
