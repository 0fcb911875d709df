/** Hand-off of a service instance's invocation queue when it migrates: the origin parks invocations
    until the destination fetches them, and forwards later ones. */
module ServiceMigration {
  import opened Options

  const FORWARDING_TTL_MS: int := 120000
  const RPC_TIMEOUT_MS: int := 120000

  /** Left behind by a departed instance: what arrived since, and where it went once known. */
  datatype Migration<Inv> = Migration(pending: seq<Inv>, destination: Option<string>, expiry: int)

  /** Everything one server knows about one service instance. */
  datatype Service<Inv> = Service(queue: Option<seq<Inv>>, migration: Option<Migration<Inv>>, shutdown: bool)

  datatype Reply = Queued | Parked | Forwarded(host: string) | Rejected

  // ---------- one server, one instance ----------

  /** An invocation arrives. */
  function Enqueue<Inv>(s: Service<Inv>, inv: Inv, now: int): (Service<Inv>, Reply) {
    if s.shutdown then (s, Rejected)
    else if s.queue.Some? then (s.(queue := Some(s.queue.value + [inv])), Queued)
    else if s.migration.None? then (s, Rejected)
    else
      var m := s.migration.value;
      if now >= m.expiry && m.pending == [] && m.destination.Some? then (s.(migration := None), Rejected)
      else
        var m' := if now >= m.expiry then m.(expiry := now + FORWARDING_TTL_MS) else m;
        if m'.destination.None? then (s.(migration := Some(m'.(pending := m'.pending + [inv]))), Parked)
        else (s.(migration := Some(m'.(expiry := now + FORWARDING_TTL_MS))), Forwarded(m'.destination.value))
  }

  function TryDequeue<Inv>(s: Service<Inv>): (Service<Inv>, Option<Inv>) {
    if s.queue.None? || s.queue.value == [] then (s, None)
    else (s.(queue := Some(s.queue.value[1..])), Some(s.queue.value[0]))
  }

  /** The instance leaves: its queue becomes the backlog of a migration entry with no destination yet. */
  function BeginMigration<Inv>(s: Service<Inv>, now: int, ttl: int): Service<Inv> {
    var before := if s.migration.Some? then s.migration.value.pending else [];
    var moved := if s.queue.Some? then s.queue.value else [];
    s.(queue := None, migration := Some(Migration(before + moved, None, now + ttl)))
  }

  /** The destination asks for the backlog: it is handed over and later invocations are forwarded. */
  function Fetch<Inv>(s: Service<Inv>, replyHost: string, now: int): (Service<Inv>, seq<Inv>) {
    if s.migration.None? then (s, [])
    else (s.(migration := Some(Migration([], Some(replyHost), now + RPC_TIMEOUT_MS))), s.migration.value.pending)
  }

  function Register<Inv>(s: Service<Inv>): Service<Inv> {
    s.(queue := if s.queue.Some? then s.queue else Some([]), migration := None)
  }

  /** A queue and a migration entry never coexist; a known destination means an empty backlog. */
  predicate Sane<Inv(==)>(s: Service<Inv>) {
    && !(s.queue.Some? && s.migration.Some?)
    && (s.migration.Some? && s.migration.value.destination.Some? ==> s.migration.value.pending == [])
  }

  /** Invocations accepted here that have not left yet. */
  function Waiting<Inv>(s: Service<Inv>): seq<Inv> {
    (if s.queue.Some? then s.queue.value else []) + (if s.migration.Some? then s.migration.value.pending else [])
  }

  // ---------- runs of one server ----------

  datatype Event<Inv> =
    | Arrival(inv: Inv, now: int)
    | Dequeue
    | Depart(now: int, ttl: int)
    | FetchFrom(host: string, now: int)
    | Restore
    | Shutdown

  /** A server with its history: what it accepted, and what left it (served or handed on), in order. */
  datatype Log<Inv> = Log(s: Service<Inv>, accepted: seq<Inv>, left: seq<Inv>)

  function Next<Inv(==)>(log: Log<Inv>, e: Event<Inv>): Log<Inv> {
    match e
    case Arrival(inv, now) =>
      var (s, reply) := Enqueue(log.s, inv, now);
      if reply.Rejected? then log.(s := s)
      else Log(s, log.accepted + [inv], if reply.Forwarded? then log.left + [inv] else log.left)
    case Dequeue =>
      var (s, got) := TryDequeue(log.s);
      Log(s, log.accepted, if got.Some? then log.left + [got.value] else log.left)
    case Depart(now, ttl) => log.(s := BeginMigration(log.s, now, ttl))
    case FetchFrom(host, now) =>
      var (s, drained) := Fetch(log.s, host, now);
      Log(s, log.accepted, log.left + drained)
    case Restore => log.(s := Register(log.s))
    case Shutdown => log.(s := log.s.(shutdown := true))
  }

  /** Nothing lost, nothing duplicated, nothing overtaken: what was accepted is exactly what left
      followed by what waits. */
  predicate Conserved<Inv(==)>(log: Log<Inv>) {
    Sane(log.s) && log.accepted == log.left + Waiting(log.s)
  }

  /** Re-registering drops a backlog; every other event keeps conservation. */
  predicate Safe<Inv(==)>(log: Log<Inv>, e: Event<Inv>) {
    e.Restore? ==> log.s.migration.None? || log.s.migration.value.pending == []
  }

  lemma ArrivalConserves<Inv>(log: Log<Inv>, inv: Inv, now: int)
    requires Conserved(log)
    ensures Conserved(Next(log, Arrival(inv, now)))
  {
    var (s, reply) := Enqueue(log.s, inv, now);
    match reply
    case Rejected => assert Waiting(s) == Waiting(log.s);
    case Forwarded(_) => assert Waiting(s) == [] == Waiting(log.s);
    case Queued => assert Waiting(s) == Waiting(log.s) + [inv];
    case Parked => assert Waiting(s) == Waiting(log.s) + [inv];
  }

  lemma OtherEventsConserve<Inv>(log: Log<Inv>, e: Event<Inv>)
    requires Conserved(log) && Safe(log, e) && !e.Arrival?
    ensures Conserved(Next(log, e))
  {
    var s' := Next(log, e).s;
    match e
    case Dequeue =>
      if log.s.queue.Some? && log.s.queue.value != [] {
        assert Waiting(log.s) == [log.s.queue.value[0]] + Waiting(s');
      }
    case Depart(now, ttl) => assert Waiting(s') == Waiting(log.s);
    case FetchFrom(host, now) =>
      if log.s.migration.Some? { assert Waiting(log.s) == log.s.migration.value.pending && Waiting(s') == []; }
    case Restore => assert Waiting(s') == Waiting(log.s);
    case Shutdown => assert Waiting(s') == Waiting(log.s);
  }

  /** Conservation after an event holds exactly when the event does not re-register over a backlog. */
  lemma ConservedExactly<Inv>(log: Log<Inv>, e: Event<Inv>)
    requires Conserved(log)
    ensures Conserved(Next(log, e)) <==> Safe(log, e)
  {
    if Safe(log, e) {
      if e.Arrival? { ArrivalConserves(log, e.inv, e.now); } else { OtherEventsConserve(log, e); }
    } else {
      assert Waiting(log.s) == log.s.migration.value.pending;
      assert Waiting(Next(log, e).s) == [];
      assert |log.accepted| == |log.left| + |Waiting(log.s)|;
    }
  }

  function RunFrom<Inv(==)>(log: Log<Inv>, events: seq<Event<Inv>>): Log<Inv>
    decreases |events|
  {
    if events == [] then log else RunFrom(Next(log, events[0]), events[1..])
  }

  ghost predicate SafeRun<Inv>(log: Log<Inv>, events: seq<Event<Inv>>)
    decreases |events|
  {
    events == [] || (Safe(log, events[0]) && SafeRun(Next(log, events[0]), events[1..]))
  }

  /** Over any run from an empty server, every accepted invocation is in exactly one place, in order. */
  lemma {:induction false} RunsConserve<Inv>(log: Log<Inv>, events: seq<Event<Inv>>)
    requires Conserved(log) && SafeRun(log, events)
    ensures Conserved(RunFrom(log, events))
    decreases |events|
  {
    if events != [] {
      ConservedExactly(log, events[0]);
      RunsConserve(Next(log, events[0]), events[1..]);
    }
  }

  /** The host that asked last since the instance last left. */
  function LastAsked<Inv>(events: seq<Event<Inv>>): Option<string> {
    if events == [] then None
    else
      var e := events[|events| - 1];
      if e.FetchFrom? then Some(e.host) else if e.Depart? then None else LastAsked(events[..|events| - 1])
  }

  lemma {:induction false} RunSnoc<Inv>(log: Log<Inv>, events: seq<Event<Inv>>)
    requires events != []
    ensures RunFrom(log, events) == Next(RunFrom(log, events[..|events| - 1]), events[|events| - 1])
    decreases |events|
  {
    var n := |events| - 1;
    if n > 0 {
      RunSnoc(Next(log, events[0]), events[1..]);
      assert events[1..][..n - 1] == events[..n][1..];
    }
  }

  /** In every run of a server, what it forwards goes to the host that fetched last since the instance left. */
  lemma {:induction false} ForwardsToLastFetch<Inv>(events: seq<Event<Inv>>)
    ensures var s := RunFrom(Log(Service(None, None, false), [], []), events).s;
            s.migration.Some? ==> s.migration.value.destination == LastAsked(events)
  {
    if events != [] {
      RunSnoc(Log(Service(None, None, false), [], []), events);
      ForwardsToLastFetch(events[..|events| - 1]);
    }
  }

  /** Expiry never drops a backlog: an entry only disappears on arrival when nothing is parked in it. */
  lemma ExpiryKeepsBacklog<Inv>(s: Service<Inv>, inv: Inv, now: int)
    requires Sane(s) && s.migration.Some? && s.migration.value.pending != []
    ensures var (s', reply) := Enqueue(s, inv, now);
            s'.migration.Some? && s.migration.value.pending <= s'.migration.value.pending
  {
  }

  // ---------- the server object ----------

  datatype Key = Key(appId: int, messageId: int)

  class RpcServer<Inv(==)> {
    var serviceQueues: map<Key, seq<Inv>>
    var serviceMigrations: map<Key, Migration<Inv>>
    var shutdownRequested: set<Key>

    /** What this server knows about one instance. */
    function Of(key: Key): Service<Inv>
      reads this
    {
      Service(if key in serviceQueues then Some(serviceQueues[key]) else None,
              if key in serviceMigrations then Some(serviceMigrations[key]) else None,
              key in shutdownRequested)
    }

    constructor ()
      ensures forall key :: Of(key) == Service(None, None, false)
    {
      serviceQueues, serviceMigrations, shutdownRequested := map[], map[], {};
    }

    method RegisterServiceInstance(key: Key) returns (ok: bool)
      modifies this`serviceQueues, this`serviceMigrations
      ensures ok <==> key.appId != 0 && key.messageId != 0
      ensures Of(key) == if ok then Register(old(Of(key))) else old(Of(key))
      ensures ok ==>
                && serviceQueues ==
                   old(serviceQueues)[key := if key in old(serviceQueues) then old(serviceQueues)[key] else []]
                && serviceMigrations == old(serviceMigrations) - {key}
      ensures !ok ==> serviceQueues == old(serviceQueues) && serviceMigrations == old(serviceMigrations)
      ensures forall k :: k != key ==> Of(k) == old(Of(k))
    {
      if key.appId == 0 || key.messageId == 0 { return false; }
      if key !in serviceQueues { serviceQueues := serviceQueues[key := []]; }
      serviceMigrations := serviceMigrations - {key};
      ok := true;
    }

    /** An entry that forwards, holds nothing and has outlived its time. */
    predicate Spent(key: Key, now: int)
      requires key in serviceMigrations
      reads this
    {
      var m := serviceMigrations[key];
      now >= m.expiry && m.pending == [] && m.destination.Some?
    }

    /** Rejected iff the instance is shut down, unknown, or known by a spent entry only. Otherwise queued last
        if it is here, parked last if it has left for a host not known yet, and else forwarded there. */
    method EnqueueInvocation(key: Key, inv: Inv, now: int) returns (reply: Reply)
      modifies this`serviceQueues, this`serviceMigrations
      ensures (Of(key), reply) == Enqueue(old(Of(key)), inv, now)
      ensures reply.Rejected? <==>
                || key in shutdownRequested
                || (key !in old(serviceQueues) && (key !in old(serviceMigrations) || old(Spent(key, now))))
      ensures reply.Queued? <==> key !in shutdownRequested && key in old(serviceQueues)
      ensures reply.Parked? <==>
                && key !in shutdownRequested && key !in old(serviceQueues) && key in old(serviceMigrations)
                && old(serviceMigrations)[key].destination.None?
      ensures reply.Forwarded? ==> old(serviceMigrations)[key].destination == Some(reply.host)
      ensures serviceQueues ==
                if reply.Queued? then old(serviceQueues)[key := old(serviceQueues)[key] + [inv]] else old(serviceQueues)
      ensures reply.Queued? || key in shutdownRequested ==> serviceMigrations == old(serviceMigrations)
      ensures reply.Rejected? && key !in shutdownRequested ==> serviceMigrations == old(serviceMigrations) - {key}
      ensures reply.Parked? ==>
                var m := old(serviceMigrations)[key];
                serviceMigrations == old(serviceMigrations)[key :=
                  Migration(m.pending + [inv], None, if now >= m.expiry then now + FORWARDING_TTL_MS else m.expiry)]
      ensures reply.Forwarded? ==>
                serviceMigrations == old(serviceMigrations)[key :=
                  old(serviceMigrations)[key].(expiry := now + FORWARDING_TTL_MS)]
      ensures forall k :: k != key ==> Of(k) == old(Of(k))
    {
      if key in shutdownRequested { return Rejected; }
      if key in serviceQueues {
        serviceQueues := serviceQueues[key := serviceQueues[key] + [inv]];
        return Queued;
      }
      if key !in serviceMigrations { return Rejected; }
      var m := serviceMigrations[key];
      if now >= m.expiry {
        if m.pending == [] && m.destination.Some? {
          serviceMigrations := serviceMigrations - {key};
          return Rejected;
        }
        m := m.(expiry := now + FORWARDING_TTL_MS);
      }
      if m.destination.None? {
        serviceMigrations := serviceMigrations[key := m.(pending := m.pending + [inv])];
        return Parked;
      }
      serviceMigrations := serviceMigrations[key := m.(expiry := now + FORWARDING_TTL_MS)];
      return Forwarded(m.destination.value);
    }

    method TryDequeueInvocation(key: Key) returns (inv: Option<Inv>)
      modifies this`serviceQueues
      ensures (Of(key), inv) == TryDequeue(old(Of(key)))
      ensures inv.Some? <==> key in old(serviceQueues) && old(serviceQueues)[key] != []
      ensures inv.Some? ==>
                && inv.value == old(serviceQueues)[key][0]
                && serviceQueues == old(serviceQueues)[key := old(serviceQueues)[key][1..]]
      ensures inv.None? ==> serviceQueues == old(serviceQueues)
      ensures forall k :: k != key ==> Of(k) == old(Of(k))
    {
      if key !in serviceQueues || serviceQueues[key] == [] { return None; }
      inv := Some(serviceQueues[key][0]);
      serviceQueues := serviceQueues[key := serviceQueues[key][1..]];
    }

    /** What waits for an instance: first what an earlier departure left, then the queue. */
    function Backlog(key: Key): seq<Inv>
      reads this
    {
      (if key in serviceMigrations then serviceMigrations[key].pending else []) +
      (if key in serviceQueues then serviceQueues[key] else [])
    }

    method BeginServiceQueueMigration(key: Key, now: int, ttl: int) returns (ok: bool)
      modifies this`serviceQueues, this`serviceMigrations
      ensures ok <==> key.appId != 0 && key.messageId != 0 && ttl > 0
      ensures Of(key) == if ok then BeginMigration(old(Of(key)), now, ttl) else old(Of(key))
      ensures ok ==>
                && serviceQueues == old(serviceQueues) - {key}
                && serviceMigrations == old(serviceMigrations)[key := Migration(old(Backlog(key)), None, now + ttl)]
      ensures !ok ==> serviceQueues == old(serviceQueues) && serviceMigrations == old(serviceMigrations)
      ensures forall k :: k != key ==> Of(k) == old(Of(k))
    {
      if key.appId == 0 || key.messageId == 0 || ttl <= 0 { return false; }
      var pending := if key in serviceMigrations then serviceMigrations[key].pending else [];
      assert pending + [] == pending;
      if key in serviceQueues {
        pending := Drain(pending, serviceQueues[key]);
        serviceQueues := serviceQueues - {key};
      }
      serviceMigrations := serviceMigrations[key := Migration(pending, None, now + ttl)];
      ok := true;
    }

    /** Drains the backlog towards the host that asked; `sent` is what is forwarded, in order. */
    method RecvInvocationFetch(key: Key, replyHost: string, now: int) returns (sent: seq<Inv>)
      modifies this`serviceMigrations
      ensures (Of(key), sent) == Fetch(old(Of(key)), replyHost, now)
      ensures key in old(serviceMigrations) ==>
                && sent == old(serviceMigrations)[key].pending
                && serviceMigrations ==
                   old(serviceMigrations)[key := Migration([], Some(replyHost), now + RPC_TIMEOUT_MS)]
      ensures key !in old(serviceMigrations) ==> sent == [] && serviceMigrations == old(serviceMigrations)
      ensures forall k :: k != key ==> Of(k) == old(Of(k))
    {
      sent := [];
      if key !in serviceMigrations { return; }
      var pending := serviceMigrations[key].pending;
      serviceMigrations := serviceMigrations[key := Migration([], Some(replyHost), now + RPC_TIMEOUT_MS)];
      for i := 0 to |pending|
        invariant sent == pending[..i]
      {
        sent := sent + [pending[i]];
      }
      assert pending[..|pending|] == pending;
    }
  }

  /** Moves a queue behind a backlog, one invocation at a time. */
  method Drain<Inv>(backlog: seq<Inv>, toMove: seq<Inv>) returns (pending: seq<Inv>)
    ensures pending == backlog + toMove
  {
    pending := backlog;
    var queue := toMove;
    while queue != []
      invariant pending + queue == backlog + toMove
      decreases |queue|
    {
      pending := pending + [queue[0]];
      queue := queue[1..];
    }
    assert pending + [] == pending;
  }

  // ---------- many servers ----------

  datatype Owner = At(host: string) | Between(from: string)

  /** One instance across all hosts. `fetches` are the INVOKE_FETCH messages in flight, as (origin,
      new host); `departed` is when the instance last left each host. */
  datatype Cluster<Inv> = Cluster(servers: map<string, Service<Inv>>, owner: Owner,
                                  fetches: set<(string, string)>, departed: map<string, nat>, clock: nat)

  function ServerAt<Inv>(c: Cluster<Inv>, h: string): Service<Inv> {
    if h in c.servers then c.servers[h] else Service(None, None, false)
  }

  datatype Move<Inv> =
    | Leave(now: int, ttl: int)
    | Land(host: string)
    | HandleFetch(origin: string, host: string, now: int)
    | Deliver(host: string, inv: Inv, now: int)
    | Serve(host: string)

  predicate Possible<Inv>(c: Cluster<Inv>, m: Move<Inv>) {
    match m
    case Leave(_, _) => c.owner.At?
    case Land(_) => c.owner.Between?
    case HandleFetch(origin, host, _) => (origin, host) in c.fetches
    case _ => true
  }

  function Apply<Inv>(c: Cluster<Inv>, m: Move<Inv>): Cluster<Inv>
    requires Possible(c, m)
  {
    match m
    case Leave(now, ttl) =>
      var h := c.owner.host;
      c.(servers := c.servers[h := BeginMigration(ServerAt(c, h), now, ttl)], owner := Between(h),
         departed := c.departed[h := c.clock], clock := c.clock + 1)
    case Land(g) =>
      c.(servers := c.servers[g := Register(ServerAt(c, g))], owner := At(g),
         fetches := if g == c.owner.from then c.fetches else c.fetches + {(c.owner.from, g)})
    case HandleFetch(h, g, now) =>
      c.(servers := c.servers[h := Fetch(ServerAt(c, h), g, now).0], fetches := c.fetches - {(h, g)})
    case Deliver(h, inv, now) => c.(servers := c.servers[h := Enqueue(ServerAt(c, h), inv, now).0])
    case Serve(h) => c.(servers := c.servers[h := TryDequeue(ServerAt(c, h)).0])
  }

  /** Every INVOKE_FETCH sent to a host is handled before the instance next leaves that host. */
  ghost predicate Timely<Inv>(c: Cluster<Inv>, m: Move<Inv>) {
    m.Leave? && c.owner.At? ==> forall g :: (c.owner.host, g) !in c.fetches
  }

  /** From h, the instance went on to g: it is still there, or left there later than it left h. */
  predicate WentOn<Inv>(c: Cluster<Inv>, h: string, g: string) {
    h in c.departed && (c.owner == At(g) || (g in c.departed && c.departed[h] < c.departed[g]))
  }

  predicate ServerOk<Inv(==)>(c: Cluster<Inv>, h: string) {
    var s := ServerAt(c, h);
    && Sane(s)
    && (s.queue.Some? <==> c.owner == At(h))
    && (s.migration.Some? ==> h in c.departed)
    && (s.migration.Some? && s.migration.value.destination.Some? ==> WentOn(c, h, s.migration.value.destination.value))
  }

  ghost predicate ClusterInv<Inv>(c: Cluster<Inv>) {
    && (forall h :: ServerOk(c, h))
    && (forall h :: h in c.departed ==> c.departed[h] < c.clock)
    && (c.owner.Between? ==> c.owner.from in c.departed)
    && forall h, g :: (h, g) in c.fetches ==> WentOn(c, h, g) && h != g
  }

  lemma LeaveKeeps<Inv>(c: Cluster<Inv>, m: Move<Inv>, x: string)
    requires ClusterInv(c) && m.Leave? && Possible(c, m)
    ensures ServerOk(Apply(c, m), x)
  {
    assert ServerOk(c, x) && ServerOk(c, c.owner.host);
  }

  lemma LandKeeps<Inv>(c: Cluster<Inv>, m: Move<Inv>, x: string)
    requires ClusterInv(c) && m.Land? && Possible(c, m)
    ensures ServerOk(Apply(c, m), x)
  {
    assert ServerOk(c, x) && ServerOk(c, m.host);
  }

  lemma OtherMovesKeep<Inv>(c: Cluster<Inv>, m: Move<Inv>, x: string)
    requires ClusterInv(c) && !m.Leave? && !m.Land? && Possible(c, m)
    ensures ServerOk(Apply(c, m), x)
  {
    assert ServerOk(c, x);
    if m.HandleFetch? { assert ServerOk(c, m.origin); } else { assert ServerOk(c, m.host); }
  }

  lemma FetchesKeep<Inv>(c: Cluster<Inv>, m: Move<Inv>, h: string, g: string)
    requires ClusterInv(c) && Possible(c, m) && Timely(c, m) && (h, g) in Apply(c, m).fetches
    ensures WentOn(Apply(c, m), h, g) && h != g
  {
    assert m.Leave? ==> c.departed[h] < c.clock && (g in c.departed ==> c.departed[g] < c.clock);
  }

  lemma MoveKeepsInv<Inv>(c: Cluster<Inv>, m: Move<Inv>)
    requires ClusterInv(c) && Possible(c, m) && Timely(c, m)
    ensures ClusterInv(Apply(c, m))
  {
    forall x ensures ServerOk(Apply(c, m), x) {
      if m.Leave? { LeaveKeeps(c, m, x); } else if m.Land? { LandKeeps(c, m, x); } else { OtherMovesKeep(c, m, x); }
    }
    forall h, g | (h, g) in Apply(c, m).fetches ensures WentOn(Apply(c, m), h, g) && h != g {
      FetchesKeep(c, m, h, g);
    }
  }

  // ---------- following forwarding destinations ----------

  /** How many departures lie after h's own; hosts that do not forward come last. */
  function Hops<Inv>(c: Cluster<Inv>, h: string): nat {
    if ServerAt(c, h).migration.None? || h !in c.departed || c.clock <= c.departed[h] then 0
    else c.clock - c.departed[h]
  }

  function Destination<Inv>(c: Cluster<Inv>, h: string): Option<string> {
    var s := ServerAt(c, h);
    if s.migration.Some? then s.migration.value.destination else None
  }

  /** Each host of the path forwards to the next. */
  predicate Follows<Inv>(c: Cluster<Inv>, path: seq<string>) {
    path != [] && forall i, j :: 0 <= i && j == i + 1 < |path| ==> Destination(c, path[i]) == Some(path[j])
  }

  ghost predicate Cyclic<Inv>(c: Cluster<Inv>) {
    exists path: seq<string> :: |path| > 1 && Follows(c, path) && path[0] == path[|path| - 1]
  }

  lemma HopForward<Inv>(c: Cluster<Inv>, h: string)
    requires ClusterInv(c) && Destination(c, h).Some?
    ensures Hops(c, Destination(c, h).value) < Hops(c, h)
  {
    assert ServerOk(c, h) && ServerOk(c, Destination(c, h).value);
  }

  /** Where an invocation sent to h goes by following destinations, up to a host that does not forward. */
  ghost function Route<Inv>(c: Cluster<Inv>, h: string): (path: seq<string>)
    requires ClusterInv(c)
    ensures Follows(c, path) && path[0] == h && Destination(c, path[|path| - 1]) == None
    decreases Hops(c, h)
  {
    if Destination(c, h).None? then [h]
    else
      HopForward(c, h);
      [h] + Route(c, Destination(c, h).value)
  }

  ghost function Resolve<Inv>(c: Cluster<Inv>, h: string): (r: string)
    requires ClusterInv(c)
    ensures Destination(c, r) == None
    ensures exists path :: Follows(c, path) && path[0] == h && path[|path| - 1] == r
  {
    var path := Route(c, h);
    path[|path| - 1]
  }

  lemma {:induction false} HopsFall<Inv>(c: Cluster<Inv>, path: seq<string>, i: nat, j: nat)
    requires ClusterInv(c) && Follows(c, path) && i < j < |path|
    ensures Hops(c, path[j]) < Hops(c, path[i])
    decreases j - i
  {
    assert Destination(c, path[j - 1]) == Some(path[j]);
    HopForward(c, path[j - 1]);
    if i < j - 1 { HopsFall(c, path, i, j - 1); }
  }

  /** No path along destinations visits a host twice. */
  lemma PathsAreSimple<Inv>(c: Cluster<Inv>, path: seq<string>)
    requires ClusterInv(c) && Follows(c, path)
    ensures forall i, j :: 0 <= i < j < |path| ==> path[i] != path[j]
  {
    forall i, j | 0 <= i < j < |path| ensures path[i] != path[j] { HopsFall(c, path, i, j); }
  }

  lemma NoCycle<Inv>(c: Cluster<Inv>)
    requires ClusterInv(c)
    ensures !Cyclic(c)
  {
    forall path: seq<string> | |path| > 1 && Follows(c, path) ensures path[0] != path[|path| - 1] {
      PathsAreSimple(c, path);
    }
  }

  ghost predicate TimelyRun<Inv>(c: Cluster<Inv>, moves: seq<Move<Inv>>)
    decreases |moves|
  {
    moves == [] || (Possible(c, moves[0]) && Timely(c, moves[0]) && TimelyRun(Apply(c, moves[0]), moves[1..]))
  }

  ghost function After<Inv>(c: Cluster<Inv>, moves: seq<Move<Inv>>): Cluster<Inv>
    requires TimelyRun(c, moves)
    decreases |moves|
  {
    if moves == [] then c else After(Apply(c, moves[0]), moves[1..])
  }

  lemma {:induction false} RunsKeepInv<Inv>(c: Cluster<Inv>, moves: seq<Move<Inv>>)
    requires ClusterInv(c) && TimelyRun(c, moves)
    ensures ClusterInv(After(c, moves))
    decreases |moves|
  {
    if moves != [] {
      MoveKeepsInv(c, moves[0]);
      RunsKeepInv(Apply(c, moves[0]), moves[1..]);
    }
  }

  function Fresh<Inv>(h: string): Cluster<Inv> {
    Cluster(map[h := Service(Some([]), None, false)], At(h), {}, map[], 0)
  }

  lemma FreshIsOk<Inv>(h: string)
    ensures ClusterInv<Inv>(Fresh(h))
  {
    forall x ensures ServerOk<Inv>(Fresh(h), x) {}
  }

  /** In every state a timely run reaches, forwarding destinations form no cycle, and following them from
      any host leads to one that does not forward: it has the instance, parks invocations or has no entry. */
  lemma ForwardingNeverCycles<Inv>(first: string, moves: seq<Move<Inv>>, h: string)
    requires TimelyRun(Fresh(first), moves)
    ensures var c := After(Fresh(first), moves);
            && !Cyclic(c)
            && exists path :: Follows(c, path) && path[0] == h && Destination(c, path[|path| - 1]) == None
  {
    FreshIsOk<Inv>(first);
    RunsKeepInv(Fresh(first), moves);
    var c := After(Fresh(first), moves);
    NoCycle(c);
    assert Follows(c, Route(c, h));
  }

  // ---------- exactly when forwarding cycles ----------

  /** Forwarding from g leads to h. */
  ghost predicate Leads<Inv>(c: Cluster<Inv>, g: string, h: string) {
    exists path :: Follows(c, path) && path[0] == g && path[|path| - 1] == h
  }

  /** A fetch that h has yet to handle would close a cycle: h still has an entry to note it in, and forwarding
      from the fetch's sender leads to h. */
  ghost predicate Closes<Inv>(c: Cluster<Inv>, m: Move<Inv>) {
    m.HandleFetch? && ServerAt(c, m.origin).migration.Some? && Leads(c, m.host, m.origin)
  }

  predicate SameOrNone<Inv>(c: Cluster<Inv>, c': Cluster<Inv>, x: string) {
    Destination(c', x) == Destination(c, x) || Destination(c', x) == None
  }

  /** Every move but a handled fetch can only take destinations away. */
  lemma OnlyFetchesAdd<Inv>(c: Cluster<Inv>, m: Move<Inv>, x: string)
    requires Possible(c, m)
    ensures SameOrNone(c, Apply(c, m), x) || (m.HandleFetch? && x == m.origin && ServerAt(c, x).migration.Some?)
  {
  }

  lemma FetchAdds<Inv>(c: Cluster<Inv>, m: Move<Inv>)
    requires Possible(c, m) && m.HandleFetch? && ServerAt(c, m.origin).migration.Some?
    ensures var c' := Apply(c, m);
            && Destination(c', m.origin) == Some(m.host)
            && forall x :: x != m.origin ==> Destination(c', x) == Destination(c, x)
  {
  }

  lemma FewerPaths<Inv>(c: Cluster<Inv>, c': Cluster<Inv>, path: seq<string>)
    requires Follows(c', path) && forall x :: SameOrNone(c, c', x)
    ensures Follows(c, path)
  {
    forall i, j | 0 <= i && j == i + 1 < |path| ensures Destination(c, path[i]) == Some(path[j]) {
      assert SameOrNone(c, c', path[i]) && Destination(c', path[i]) == Some(path[j]);
    }
  }

  lemma FewerDestinations<Inv>(c: Cluster<Inv>, c': Cluster<Inv>)
    requires !Cyclic(c) && forall x :: SameOrNone(c, c', x)
    ensures !Cyclic(c')
  {
    forall path: seq<string> | |path| > 1 && Follows(c', path) ensures path[0] != path[|path| - 1] {
      FewerPaths(c, c', path);
    }
  }

  /** Two states that differ in h's destination have the same paths that do not pass through h. */
  lemma SamePath<Inv>(c: Cluster<Inv>, c': Cluster<Inv>, h: string, path: seq<string>)
    requires Follows(c', path) && (forall x :: x != h ==> Destination(c', x) == Destination(c, x))
    requires forall i :: 0 <= i < |path| - 1 ==> path[i] != h
    ensures Follows(c, path)
  {
    forall i, j | 0 <= i && j == i + 1 < |path| ensures Destination(c, path[i]) == Some(path[j]) {
      assert path[i] != h;
    }
  }

  /** Where a path first comes to h. */
  lemma {:induction false} FirstVisit<Inv>(c: Cluster<Inv>, path: seq<string>, h: string, n: nat)
    returns (cut: seq<string>)
    requires Follows(c, path) && n < |path| && path[n] == h
    ensures Follows(c, cut) && cut[0] == path[0] && cut[|cut| - 1] == h
    ensures forall i :: 0 <= i < |cut| - 1 ==> cut[i] != h
  {
    if k :| 0 <= k < n && path[k] == h {
      cut := FirstVisit(c, path, h, k);
    } else {
      cut := path[..n + 1];
    }
  }

  /** A cycle through path[i], opened after it. */
  lemma OpenCycle<Inv>(c: Cluster<Inv>, path: seq<string>, i: nat) returns (open: seq<string>)
    requires |path| > 1 && Follows(c, path) && path[0] == path[|path| - 1] && i < |path| - 1
    ensures Follows(c, open) && open[0] == path[i + 1] && open[|open| - 1] == path[i]
  {
    open := path[i + 1..] + path[1..i + 1];
    var n := |path| - 1 - i;
    forall k, l | 0 <= k && l == k + 1 < |open| ensures Destination(c, open[k]) == Some(open[l]) {
      if l < n {
        assert Destination(c, path[i + 1 + k]) == Some(path[i + 1 + l]);
      } else {
        assert open[l] == path[l - n + 1];
        assert Destination(c, path[l - n]) == Some(path[l - n + 1]);
      }
    }
  }

  /** The edge from h to g, and a path from g to h, make a cycle. */
  lemma ClosesCycle<Inv>(c: Cluster<Inv>, c': Cluster<Inv>, h: string, g: string)
    requires Leads(c, g, h) && Destination(c', h) == Some(g)
    requires forall x :: x != h ==> Destination(c', x) == Destination(c, x)
    ensures Cyclic(c')
  {
    var path :| Follows(c, path) && path[0] == g && path[|path| - 1] == h;
    var cut := FirstVisit(c, path, h, |path| - 1);
    SamePath(c', c, h, cut);
    var loop := [h] + cut;
    forall i, j | 0 <= i && j == i + 1 < |loop| ensures Destination(c', loop[i]) == Some(loop[j]) {
      if i > 0 { assert Destination(c', cut[i - 1]) == Some(cut[i]); }
    }
    assert Follows(c', loop) && loop[0] == loop[|loop| - 1];
  }

  /** Conversely, a new cycle passes through the new edge. */
  lemma CycleWasClosed<Inv>(c: Cluster<Inv>, c': Cluster<Inv>, h: string, g: string)
    requires !Cyclic(c) && Cyclic(c') && Destination(c', h) == Some(g)
    requires forall x :: x != h ==> Destination(c', x) == Destination(c, x)
    ensures Leads(c, g, h)
  {
    var path: seq<string> :| |path| > 1 && Follows(c', path) && path[0] == path[|path| - 1];
    if forall i :: 0 <= i < |path| - 1 ==> path[i] != h { SamePath(c, c', h, path); }
    var i :| 0 <= i < |path| - 1 && path[i] == h;
    var next := i + 1;
    assert Destination(c', path[i]) == Some(path[next]);
    var open := OpenCycle(c', path, i);
    var cut := FirstVisit(c', open, h, |open| - 1);
    SamePath(c, c', h, cut);
  }

  /** In any state without a cycle, whatever fetches are late: a move makes one iff it is a fetch that closes
      one. */
  lemma MoveMakesCycle<Inv>(c: Cluster<Inv>, m: Move<Inv>)
    requires Possible(c, m) && !Cyclic(c)
    ensures Cyclic(Apply(c, m)) <==> Closes(c, m)
  {
    var c' := Apply(c, m);
    if m.HandleFetch? && ServerAt(c, m.origin).migration.Some? {
      FetchAdds(c, m);
      if Leads(c, m.host, m.origin) { ClosesCycle(c, c', m.origin, m.host); }
      if Cyclic(c') { CycleWasClosed(c, c', m.origin, m.host); }
    } else {
      forall x ensures SameOrNone(c, c', x) { OnlyFetchesAdd(c, m, x); }
      FewerDestinations(c, c');
    }
  }

  predicate Steps<Inv(==)>(c: Cluster<Inv>, m: Move<Inv>, c': Cluster<Inv>) {
    Possible(c, m) && c' == Apply(c, m)
  }

  /** A run of possible moves, timely or not. */
  ghost predicate IsRun<Inv>(states: seq<Cluster<Inv>>, moves: seq<Move<Inv>>) {
    && |states| == |moves| + 1
    && forall k, n :: 0 <= k && n == k + 1 < |states| ==> Steps(states[k], moves[k], states[n])
  }

  lemma FreshHasNoCycle<Inv>(h: string)
    ensures !Cyclic<Inv>(Fresh(h))
  {
    FreshIsOk<Inv>(h);
    NoCycle<Inv>(Fresh(h));
  }

  lemma {:induction false} NoCycleUntil<Inv>(states: seq<Cluster<Inv>>, moves: seq<Move<Inv>>, n: nat)
    requires IsRun(states, moves) && !Cyclic(states[0]) && n < |states|
    requires forall k :: 0 <= k < n ==> !Closes(states[k], moves[k])
    ensures !Cyclic(states[n])
  {
    if n > 0 {
      var k := n - 1;
      NoCycleUntil(states, moves, k);
      assert Steps(states[k], moves[k], states[n]);
      MoveMakesCycle(states[k], moves[k]);
    }
  }

  /** Over every run, whenever its fetches are handled: forwarding is free of cycles throughout iff no fetch is
      handled by a host that has an entry and that forwarding from the fetch's sender leads to. */
  lemma RunsCycle<Inv>(first: string, states: seq<Cluster<Inv>>, moves: seq<Move<Inv>>)
    requires IsRun(states, moves) && states[0] == Fresh(first)
    ensures (forall n :: 0 <= n < |states| ==> !Cyclic(states[n]))
            <==> forall k :: 0 <= k < |moves| ==> !Closes(states[k], moves[k])
  {
    FreshHasNoCycle<Inv>(first);
    if forall k :: 0 <= k < |moves| ==> !Closes(states[k], moves[k]) {
      forall n | 0 <= n < |states| ensures !Cyclic(states[n]) { NoCycleUntil(states, moves, n); }
    }
    if forall n :: 0 <= n < |states| ==> !Cyclic(states[n]) {
      forall k | 0 <= k < |moves| ensures !Closes(states[k], moves[k]) {
        var n := k + 1;
        assert Steps(states[k], moves[k], states[n]);
        MoveMakesCycle(states[k], moves[k]);
      }
    }
  }

  // ---------- a late fetch ----------

  /** The instance leaves h although g's fetch has not reached h, which then handles it. */
  function LateFetch<Inv>(c: Cluster<Inv>, h: string, g: string, now: int, ttl: int, later: int): Cluster<Inv>
    requires c.owner == At(h) && (h, g) in c.fetches
  {
    Apply(Apply(c, Leave(now, ttl)), HandleFetch(h, g, later))
  }

  /** A path and a route from the same host agree, and the path is no longer. */
  lemma {:induction false} PathInRoute<Inv>(c: Cluster<Inv>, path: seq<string>, route: seq<string>, i: nat)
    requires Follows(c, path) && Follows(c, route) && path[0] == route[0]
    requires Destination(c, route[|route| - 1]) == None && i < |path|
    ensures i < |route| && route[i] == path[i]
  {
    if i > 0 {
      PathInRoute(c, path, route, i - 1);
      assert Destination(c, path[i - 1]) == Some(path[i]);
    }
  }

  /** Forwarding from g ends at h, which does not forward, iff it leads there. */
  lemma EndsThere<Inv>(c: Cluster<Inv>, g: string, h: string)
    requires ClusterInv(c) && Destination(c, h) == None
    ensures Leads(c, g, h) <==> Resolve(c, g) == h
  {
    var route := Route(c, g);
    if Leads(c, g, h) {
      var path :| Follows(c, path) && path[0] == g && path[|path| - 1] == h;
      PathInRoute(c, path, route, |path| - 1);
      PathInRoute(c, route, path, |route| - 1);
    }
  }

  lemma LeaveKeepsPaths<Inv>(c: Cluster<Inv>, m: Move<Inv>, g: string, h: string)
    requires ClusterInv(c) && Possible(c, m) && m.Leave?
    ensures Leads(Apply(c, m), g, h) <==> Leads(c, g, h)
    ensures Destination(c, c.owner.host) == None && !Cyclic(Apply(c, m))
  {
    var c' := Apply(c, m);
    assert ServerOk(c, c.owner.host);
    assert forall x :: Destination(c', x) == Destination(c, x);
    assert forall path :: Follows(c', path) <==> Follows(c, path);
    NoCycle(c);
    FewerDestinations(c, c');
  }

  /** The timing is needed: leaving a host before it has handled a fetch makes a cycle, if it handles it next,
      iff forwarding from the host that sent the fetch leads to the one being left. */
  lemma LateFetchCycles<Inv>(c: Cluster<Inv>, h: string, g: string, now: int, ttl: int, later: int)
    requires ClusterInv(c) && c.owner == At(h) && (h, g) in c.fetches
    ensures !Timely(c, Leave(now, ttl))
    ensures Cyclic(LateFetch(c, h, g, now, ttl, later)) <==> Resolve(c, g) == h
  {
    var leave: Move<Inv> := Leave(now, ttl);
    LeaveKeepsPaths(c, leave, g, h);
    MoveMakesCycle(Apply(c, leave), HandleFetch(h, g, later));
    EndsThere(c, g, h);
  }

  lemma OneMore<Inv>(c: Cluster<Inv>, m: Move<Inv>, rest: seq<Move<Inv>>)
    requires Possible(c, m) && Timely(c, m) && TimelyRun(Apply(c, m), rest)
    ensures TimelyRun(c, [m] + rest) && After(c, [m] + rest) == After(Apply(c, m), rest)
  {
    assert ([m] + rest)[1..] == rest;
  }

  const AWAY: Move<int> := Leave(0, 1)

  /** From a to b and back, after which b handles a's fetch. */
  function Detour(a: string, b: string): Cluster<int>
    requires a != b
  {
    Apply(Apply(Apply(Apply(Apply(Fresh(a), AWAY), Land(b)), AWAY), Land(a)), HandleFetch(b, a, 0))
  }

  lemma DetourIsTimely(a: string, b: string)
    requires a != b
    ensures var moves := [AWAY, Land(b), AWAY, Land(a), HandleFetch(b, a, 0)];
            TimelyRun(Fresh(a), moves) && After(Fresh(a), moves) == Detour(a, b)
  {
    var back := HandleFetch(b, a, 0);
    var c1 := Apply(Fresh(a), AWAY);
    var c2 := Apply(c1, Land(b));
    var c3 := Apply(c2, AWAY);
    var c4 := Apply(c3, Land(a));
    OneMore(c4, back, []);
    OneMore(c3, Land(a), [back] + []);
    OneMore(c2, AWAY, [Land(a)] + ([back] + []));
    OneMore(c1, Land(b), [AWAY] + ([Land(a)] + ([back] + [])));
    OneMore(Fresh(a), AWAY, [Land(b)] + ([AWAY] + ([Land(a)] + ([back] + []))));
    assert [AWAY, Land(b), AWAY, Land(a), back] == [AWAY] + ([Land(b)] + ([AWAY] + ([Land(a)] + ([back] + []))));
  }

  /** Such runs exist, between any two hosts: back at a before a has handled b's fetch but after b has
      handled a's. Leaving a again then makes a and b forward to each other. */
  lemma LateFetchMakesCycle(a: string, b: string)
    requires a != b
    ensures var moves := [AWAY, Land(b), AWAY, Land(a), HandleFetch(b, a, 0)];
            && TimelyRun(Fresh(a), moves)
            && var c := After(Fresh(a), moves);
               c.owner == At(a) && (a, b) in c.fetches && Cyclic(LateFetch(c, a, b, 0, 1, 0))
  {
    DetourIsTimely(a, b);
    assert Detour(a, b).fetches == {(a, b)} && Destination(Detour(a, b), b) == Some(a);
    var c := LateFetch(Detour(a, b), a, b, 0, 1, 0);
    assert Follows(c, [a, b, a]);
  }
}
