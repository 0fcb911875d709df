/** The MPI calls with their data. A program is any list of calls made by all ranks; each rank computes what it
    sends from its own input and from what it has received. In every run, on every layout, each call delivers
    what MPI promises and no message strays into another call. */
module MpiCalls {
  import opened Options
  import opened Placement
  import opened MessageNetwork
  import opened MpiCollectives
  import opened MpiPrograms
  import opened MpiResults

  datatype Kind =
    | BarrierJoin | BarrierDone | Scattered | Gathered | AllGathered | Reduced | AllReduced | AllToAlled | Broadcasted

  /** A message: its type and element count, the place in the program of the call it was sent for, and its
      buffers. */
  datatype Packet = Packet(kind: Kind, count: nat, call: nat, payload: seq<Buffer>)

  const NOTHING := Packet(BarrierJoin, 0, 0, [])

  /** A collective call, as all ranks make it: same root, same counts, and each rank's own data. */
  datatype Call =
    | Broadcast(root: nat, value: Buffer)
    | Scatter(root: nat, count: nat, parts: seq<Buffer>)
    | Gather(root: nat, sendCount: nat, recvCount: nat, chunks: seq<Buffer>)
    | AllGather(sendCount: nat, recvCount: nat, chunks: seq<Buffer>)
    | Reduce(root: nat, op: Op, count: nat, bufs: seq<Buffer>)
    | AllReduce(op: Op, count: nat, bufs: seq<Buffer>)
    | AllToAll(count: nat, table: seq<seq<Buffer>>)
    | Barrier

  /** Buffers are as long as the counts say, and both ends give the same count, as MPI asks of its callers. */
  predicate ValidCall(w: World, c: Call) {
    var n := |w.hostOf|;
    n > 0 && match c
      case Broadcast(root, _) => root < n
      case Scatter(root, count, parts) => root < n == |parts| && SameSize(parts, count)
      case Gather(root, sendCount, recvCount, chunks) =>
        root < n == |chunks| && SameSize(chunks, sendCount) && sendCount == recvCount
      case AllGather(sendCount, recvCount, chunks) =>
        n == |chunks| && SameSize(chunks, sendCount) && sendCount == recvCount
      case Reduce(root, _, count, bufs) => root < n == |bufs| && SameSize(bufs, count)
      case AllReduce(_, count, bufs) => n == |bufs| && SameSize(bufs, count)
      case AllToAll(count, table) =>
        n == |table| && forall r :: 0 <= r < n ==> |table[r]| == n && SameSize(table[r], count)
      case Barrier => true
  }

  // ---------- data in packets ----------

  function Wrap<D>(up: D -> Packet, s: seq<D>): (t: seq<Packet>)
    ensures |t| == |s| && forall i :: 0 <= i < |t| ==> t[i] == up(s[i])
  {
    seq(|s|, i requires 0 <= i < |s| => up(s[i]))
  }

  function Unwrap<D>(un: Packet -> D, s: seq<Packet>): (t: seq<D>)
    ensures |t| == |s| && forall i :: 0 <= i < |t| ==> t[i] == un(s[i])
  {
    seq(|s|, i requires 0 <= i < |s| => un(s[i]))
  }

  function WrapFinish<D>(finish: seq<D> -> D, down: D -> Packet, un: Packet -> D): seq<Packet> -> Packet {
    (got: seq<Packet>) => down(finish(Unwrap(un, got)))
  }

  function WrapMerge<D>(mergeUp: (nat, seq<D>) -> D, up: D -> Packet, un: Packet -> D): (nat, seq<Packet>) -> Packet {
    (me: nat, got: seq<Packet>) => up(mergeUp(me, Unwrap(un, got)))
  }

  ghost predicate Inverse<D(!new)>(un: Packet -> D, up: D -> Packet) { forall d :: un(up(d)) == d }

  lemma UnwrapPieces<D(!new)>(un: Packet -> D, up: D -> Packet, data: seq<D>, ranks: seq<nat>)
    requires Inverse(un, up) && Bounded(ranks, |data|)
    ensures Unwrap(un, Pieces(Wrap(up, data), ranks)) == Pieces(data, ranks)
  {
  }

  /** A collective that computes right on plain data computes right on packets. */
  lemma WrapComputes<D(!new)>(w: World, root: nat, own: seq<D>, merged: seq<D>, total: D, finish: seq<D> -> D,
                              mergeUp: (nat, seq<D>) -> D, up: D -> Packet, down: D -> Packet, un: Packet -> D)
    requires ValidWorld(w) && root < |w.hostOf| == |own| == |merged| && Inverse(un, up)
    requires Computes(w, root, own, merged, total, finish, mergeUp)
    ensures Computes(w, root, Wrap(up, own), Wrap(up, merged), down(total), WrapFinish(finish, down, un),
                     WrapMerge(mergeUp, up, un)) == true
  {
    WrapFinishes(w, root, own, merged, total, finish, up, down, un);
    hide FinishesRight, Wrap, WrapMerge;
    forall me | 0 <= me < |w.hostOf|
      ensures MergesRight(w, Wrap(up, own), Wrap(up, merged), WrapMerge(mergeUp, up, un), me)
    {
      assert MergesRight(w, own, merged, mergeUp, me);
      WrapMerges(w, own, merged, mergeUp, up, un, me);
    }
  }

  lemma WrapFinishes<D(!new)>(w: World, root: nat, own: seq<D>, merged: seq<D>, total: D, finish: seq<D> -> D,
                              up: D -> Packet, down: D -> Packet, un: Packet -> D)
    requires ValidWorld(w) && root < |w.hostOf| == |own| == |merged| && Inverse(un, up)
    requires FinishesRight(w, root, own, merged, total, finish)
    ensures FinishesRight(w, root, Wrap(up, own), Wrap(up, merged), down(total), WrapFinish(finish, down, un)) == true
  {
    hide Fan, Inverse;
    var all := Contributions(w, root, own, merged);
    assert Contributions(w, root, Wrap(up, own), Wrap(up, merged)) == Wrap(up, all);
    UnwrapPieces(un, up, all, Fan(w, root));
  }

  lemma WrapMerges<D(!new)>(w: World, own: seq<D>, merged: seq<D>, mergeUp: (nat, seq<D>) -> D, up: D -> Packet,
                            un: Packet -> D, me: nat)
    requires me < |w.hostOf| == |own| == |merged| && Inverse(un, up) && MergesRight(w, own, merged, mergeUp, me)
    ensures MergesRight(w, Wrap(up, own), Wrap(up, merged), WrapMerge(mergeUp, up, un), me)
  {
    hide LocalOthers, LeaderOf, Inverse;
    UnwrapPieces(un, up, own, LocalOthers(w, me));
  }

  function ReducePacket(kind: Kind, count: nat, call: nat): Partial -> Packet {
    (d: Partial) => Packet(kind, count, call, if d.Some? then [d.value] else [])
  }

  function PartialOf(): Packet -> Partial {
    (p: Packet) => if |p.payload| == 1 then Some(p.payload[0]) else None
  }

  /** Chunks in one packet, `count` elements each. */
  function ChunksPacket(kind: Kind, count: nat, call: nat): seq<Chunk> -> Packet {
    (d: seq<Chunk>) => Packet(kind, count * |d|, call, d)
  }

  function ChunksOf(): Packet -> seq<Chunk> {
    (p: Packet) => p.payload
  }

  // ---------- the calls as stages ----------

  function ScatterPackets(parts: seq<Buffer>, count: nat, call: nat): (s: seq<Packet>)
    ensures |s| == |parts| && forall r :: 0 <= r < |s| ==> s[r] == Packet(Scattered, count, call, [parts[r]])
  {
    seq(|parts|, r requires 0 <= r < |parts| => Packet(Scattered, count, call, [parts[r]]))
  }

  function RowPackets(row: seq<Buffer>, count: nat, call: nat): (s: seq<Packet>)
    ensures |s| == |row| && forall r :: 0 <= r < |s| ==> s[r] == Packet(AllToAlled, count, call, [row[r]])
  {
    seq(|row|, r requires 0 <= r < |row| => Packet(AllToAlled, count, call, [row[r]]))
  }

  function TablePackets(table: seq<seq<Buffer>>, count: nat, call: nat): (s: seq<seq<Packet>>)
    ensures |s| == |table| && forall r :: 0 <= r < |s| ==> s[r] == RowPackets(table[r], count, call)
  {
    seq(|table|, r requires 0 <= r < |table| => RowPackets(table[r], count, call))
  }

  /** What the root posts: one chunk for a rank of its own host, and for a leader as many as its host has
      ranks. */
  function Posted(w: World, root: nat, recvCount: nat, call: nat, chunks: seq<Chunk>): (s: seq<Packet>)
    requires root < |w.hostOf| == |chunks|
    ensures |s| == |chunks|
    ensures forall r :: 0 <= r < |s| ==>
              s[r] == Packet(Gathered,
                             if w.hostOf[r] == w.hostOf[root] then recvCount else |RanksOn(w, w.hostOf[r])| * recvCount,
                             call, Contributions(w, root, Singles(chunks), HostChunks(w, chunks))[r])
  {
    var data := Contributions(w, root, Singles(chunks), HostChunks(w, chunks));
    seq(|chunks|, r requires 0 <= r < |chunks| =>
      Packet(Gathered, if w.hostOf[r] == w.hostOf[root] then recvCount else |RanksOn(w, w.hostOf[r])| * recvCount,
             call, data[r]))
  }

  /** What each rank sends up, and each leader for its host. */
  function SentUp(w: World, root: nat, sendCount: nat, call: nat, chunks: seq<Chunk>): seq<Packet>
    requires root < |w.hostOf| == |chunks|
  {
    var up := ChunksPacket(Gathered, sendCount, call);
    Contributions(w, root, Wrap(up, Singles(chunks)), Wrap(up, HostChunks(w, chunks)))
  }

  lemma SentUpAt(w: World, root: nat, sendCount: nat, call: nat, chunks: seq<Chunk>, r: nat)
    requires root < |w.hostOf| == |chunks| && r < |chunks|
    ensures |SentUp(w, root, sendCount, call, chunks)| == |chunks|
    ensures SentUp(w, root, sendCount, call, chunks)[r] ==
            Packet(Gathered,
                   if w.hostOf[r] == w.hostOf[root] then sendCount else sendCount * |RanksOn(w, w.hostOf[r])|,
                   call, Contributions(w, root, Singles(chunks), HostChunks(w, chunks))[r])
  {
    RanksBounded(w, w.hostOf[r]);
  }

  /** What the root posts is what it is sent iff both ends give the same count. */
  lemma GatherCountsMatch(w: World, root: nat, sendCount: nat, recvCount: nat, call: nat, chunks: seq<Chunk>)
    requires root < |w.hostOf| == |chunks|
    ensures Posted(w, root, recvCount, call, chunks) == SentUp(w, root, sendCount, call, chunks)
            <==> sendCount == recvCount
  {
    hide SentUp;
    var posted, sent := Posted(w, root, recvCount, call, chunks), SentUp(w, root, sendCount, call, chunks);
    SentUpAt(w, root, sendCount, call, chunks, root);
    if sendCount == recvCount {
      forall r | 0 <= r < |posted| ensures posted[r] == sent[r] {
        SentUpAt(w, root, sendCount, call, chunks, r);
        assert recvCount * |RanksOn(w, w.hostOf[r])| == |RanksOn(w, w.hostOf[r])| * recvCount;
      }
    } else {
      assert posted[root].count != sent[root].count;
    }
  }

  ghost function GatherCall(w: World, root: nat, sendCount: nat, recvCount: nat, call: nat, chunks: seq<Chunk>,
                            share: bool): (s: seq<Stage<Packet>>)
    requires ValidWorld(w) && root < |w.hostOf| == |chunks| && sendCount == recvCount
    ensures AllValid(w, s)
    ensures s == TwoStages(w, root, Wrap(ChunksPacket(Gathered, sendCount, call), Singles(chunks)),
                           Wrap(ChunksPacket(Gathered, sendCount, call), HostChunks(w, chunks)),
                           ChunksPacket(AllGathered, recvCount, call)(chunks), share)
  {
    var up := ChunksPacket(Gathered, sendCount, call);
    GatherCountsMatch(w, root, sendCount, recvCount, call, chunks);
    [Converge(root, Wrap(up, Singles(chunks)), Wrap(up, HostChunks(w, chunks)),
              Posted(w, root, recvCount, call, chunks))]
    + if share then [Spread(root, Packet(AllGathered, recvCount * |w.hostOf|, call, chunks))] else []
  }

  ghost function ReduceCall(w: World, root: nat, op: Op, count: nat, call: nat, bufs: seq<Buffer>, share: bool)
    : (s: seq<Stage<Packet>>)
    requires root < |w.hostOf| == |bufs|
    ensures AllValid(w, s)
  {
    var up := ReducePacket(Reduced, count, call);
    TwoStages(w, root, Wrap(up, Own(bufs)), Wrap(up, Merged(w, op, bufs)),
              ReducePacket(AllReduced, count, call)(FlatReduce(op, bufs)), share)
  }

  ghost function Stages(w: World, c: Call, call: nat): (s: seq<Stage<Packet>>)
    requires ValidWorld(w) && ValidCall(w, c)
    ensures AllValid(w, s)
  {
    match c
    case Broadcast(root, value) => [Spread(root, Packet(Broadcasted, |value|, call, [value]))]
    case Scatter(root, count, parts) => [Deal(root, ScatterPackets(parts, count, call))]
    case Gather(root, k, m, chunks) => GatherCall(w, root, k, m, call, chunks, false)
    case AllGather(k, m, chunks) => GatherCall(w, 0, k, m, call, chunks, true)
    case Reduce(root, op, count, bufs) => ReduceCall(w, root, op, count, call, bufs, false)
    case AllReduce(op, count, bufs) => ReduceCall(w, 0, op, count, call, bufs, true)
    case AllToAll(count, table) => [Exchange(TablePackets(table, count, call))]
    case Barrier => [Join(Packet(BarrierJoin, 0, call, [])), Spread(0, Packet(BarrierDone, 0, call, []))]
  }

  ghost predicate ValidCalls(w: World, calls: seq<Call>) {
    ValidWorld(w) && forall i :: 0 <= i < |calls| ==> ValidCall(w, calls[i])
  }

  /** The stages of a program; call i's messages carry i. */
  ghost function AllStages(w: World, calls: seq<Call>): (s: seq<Stage<Packet>>)
    requires ValidCalls(w, calls)
    ensures AllValid(w, s)
  {
    if calls == [] then []
    else
      var k := |calls| - 1;
      AllStages(w, calls[..k]) + Stages(w, calls[k], k)
  }

  // ---------- what a rank computes ----------

  /** The root sends its value; the others hand on what came last. */
  function SpreadDo(root: nat, value: Packet): Behaviour<Packet> {
    (me: nat, pc: nat, got: seq<Packet>) =>
      if me == root then value else if got == [] then NOTHING else got[|got| - 1]
  }

  function DealDo(n: nat, root: nat, parts: seq<Packet>): Behaviour<Packet> {
    (me: nat, pc: nat, got: seq<Packet>) =>
      if me == root && pc < |Others(n, root)| && Others(n, root)[pc] < |parts| then parts[Others(n, root)[pc]]
      else NOTHING
  }

  function ExchangeDo(n: nat, table: seq<seq<Packet>>): Behaviour<Packet> {
    (me: nat, pc: nat, got: seq<Packet>) =>
      if me < |table| && pc < |Others(n, me)| && Others(n, me)[pc] < |table[me]| then table[me][Others(n, me)[pc]]
      else NOTHING
  }

  function JoinDo(join: Packet): Behaviour<Packet> {
    (me: nat, pc: nat, got: seq<Packet>) => join
  }

  /** The root's receive buffer before a gather: its own chunk in place. */
  function Blank(n: nat, root: nat, chunk: Chunk): (buf: seq<Chunk>)
    requires root < n
    ensures |buf| == n && buf[root] == chunk
  {
    Const(n, [])[root := chunk]
  }

  function GatherRoot(w: World, root: nat, chunks: seq<Chunk>): seq<seq<Chunk>> -> seq<Chunk>
    requires ValidWorld(w) && root < |w.hostOf| == |chunks|
  {
    GatherFinish(w, root, Blank(|w.hostOf|, root, chunks[root]))
  }

  function GatherDo(w: World, root: nat, sendCount: nat, recvCount: nat, call: nat, chunks: seq<Chunk>)
    : Behaviour<Packet>
    requires ValidWorld(w) && root < |w.hostOf| == |chunks|
  {
    var up := ChunksPacket(Gathered, sendCount, call);
    Collective(w, root, Wrap(up, Singles(chunks)),
               WrapFinish(GatherRoot(w, root, chunks), ChunksPacket(AllGathered, recvCount, call), ChunksOf()),
               WrapMerge(GatherMerge(chunks), up, ChunksOf()))
  }

  function ReduceDo(w: World, root: nat, op: Op, count: nat, call: nat, bufs: seq<Buffer>): Behaviour<Packet>
    requires root < |w.hostOf| == |bufs|
  {
    var up := ReducePacket(Reduced, count, call);
    Collective(w, root, Wrap(up, Own(bufs)),
               WrapFinish(ReduceFinish(op, bufs, root), ReducePacket(AllReduced, count, call), PartialOf()),
               WrapMerge(ReduceMerge(op, bufs), up, PartialOf()))
  }

  /** What a rank sends in a call, from its own data and from what it has received in this call. */
  ghost function CallDo(w: World, c: Call, call: nat): Behaviour<Packet>
    requires ValidWorld(w) && ValidCall(w, c)
  {
    var n := |w.hostOf|;
    match c
    case Broadcast(root, value) => SpreadDo(root, Packet(Broadcasted, |value|, call, [value]))
    case Scatter(root, count, parts) => DealDo(n, root, ScatterPackets(parts, count, call))
    case Gather(root, k, m, chunks) => GatherDo(w, root, k, m, call, chunks)
    case AllGather(k, m, chunks) => GatherDo(w, 0, k, m, call, chunks)
    case Reduce(root, op, count, bufs) => ReduceDo(w, root, op, count, call, bufs)
    case AllReduce(op, count, bufs) => ReduceDo(w, 0, op, count, call, bufs)
    case AllToAll(count, table) => ExchangeDo(n, TablePackets(table, count, call))
    case Barrier =>
      var join := Packet(BarrierJoin, 0, call, []);
      Then(Programs(w, [Join(join)]), JoinDo(join), SpreadDo(0, Packet(BarrierDone, 0, call, [])))
  }

  ghost function AllDo(w: World, calls: seq<Call>): Behaviour<Packet>
    requires ValidCalls(w, calls)
  {
    if calls == [] then JoinDo(NOTHING)
    else
      var k := |calls| - 1;
      Then(Programs(w, AllStages(w, calls[..k])), AllDo(w, calls[..k]), CallDo(w, calls[k], k))
  }

  lemma OneStage<D>(w: World, me: nat, st: Stage<D>)
    requires ValidWorld(w) && me < |w.hostOf| && ValidStage(w, st)
    ensures StagesFrom(w, me, [st], 0) == Script(w, me, st, 0)
  {
    assert StagesFrom(w, me, [st], 1) == [];
    assert Script(w, me, st, 0) + [] == Script(w, me, st, 0);
  }

  lemma SpreadConsistent(w: World, root: nat, value: Packet)
    requires ValidWorld(w) && root < |w.hostOf|
    ensures LocallyConsistent(Programs(w, [Spread(root, value)]), SpreadDo(root, value)) == true
  {
    var progs: seq<Program<Packet>> := Programs(w, [Spread(root, value)]);
    forall r, pc | 0 <= r < |progs| && 0 <= pc < |progs[r]|
      ensures SendsRight(progs, SpreadDo(root, value), r, pc)
    {
      OneStage(w, r, Spread(root, value));
      if r != root && progs[r][pc].Send? { SpreadLeaderSends(w, r, root, value, pc); }
    }
  }

  lemma SpreadLeaderSends<D>(w: World, me: nat, root: nat, value: D, pc: nat)
    requires ValidWorld(w) && me < |w.hostOf| && root < |w.hostOf| && me != root
    requires var p := SpreadScript(w, me, root, value, 0); pc < |p| && p[pc].Send?
    ensures var p := SpreadScript(w, me, root, value, 0); p[pc].data == value && Received(p[..pc]) == [value]
  {
    hide Fan, LocalOthers, LeaderOf, Local;
    var first := [Recv(root, value, 1)];
    var rest := SendAll(LocalOthers(w, me), Const(|w.hostOf|, value), 2);
    var p := SpreadScript(w, me, root, value, 0);
    assert p == first + rest;
    RecvsThenSends(first, rest, pc);
    ReceivedOne(Recv(root, value, 1));
  }

  lemma DealConsistent(w: World, root: nat, parts: seq<Packet>)
    requires ValidWorld(w) && root < |w.hostOf| == |parts|
    ensures LocallyConsistent(Programs(w, [Deal(root, parts)]), DealDo(|w.hostOf|, root, parts)) == true
  {
    var progs: seq<Program<Packet>> := Programs(w, [Deal(root, parts)]);
    forall r, pc | 0 <= r < |progs| && 0 <= pc < |progs[r]|
      ensures SendsRight(progs, DealDo(|w.hostOf|, root, parts), r, pc)
    {
      OneStage(w, r, Deal(root, parts));
    }
  }

  lemma ExchangeConsistent(w: World, table: seq<seq<Packet>>)
    requires ValidWorld(w) && ValidStage(w, Exchange(table))
    ensures LocallyConsistent(Programs(w, [Exchange(table)]), ExchangeDo(|w.hostOf|, table)) == true
  {
    var progs: seq<Program<Packet>> := Programs(w, [Exchange(table)]);
    forall r, pc | 0 <= r < |progs| && 0 <= pc < |progs[r]|
      ensures SendsRight(progs, ExchangeDo(|w.hostOf|, table), r, pc)
    {
      OneStage(w, r, Exchange(table));
    }
  }

  lemma JoinConsistent(w: World, join: Packet)
    requires ValidWorld(w) && |w.hostOf| > 0
    ensures LocallyConsistent(Programs(w, [Join(join)]), JoinDo(join)) == true
  {
    var progs: seq<Program<Packet>> := Programs(w, [Join(join)]);
    forall r, pc | 0 <= r < |progs| && 0 <= pc < |progs[r]| ensures SendsRight(progs, JoinDo(join), r, pc) {
      OneStage(w, r, Join(join));
    }
  }

  lemma GatherRight(w: World, root: nat, sendCount: nat, recvCount: nat, call: nat, chunks: seq<Chunk>)
    requires ValidWorld(w) && root < |w.hostOf| == |chunks|
    ensures var up, down := ChunksPacket(Gathered, sendCount, call), ChunksPacket(AllGathered, recvCount, call);
            Computes(w, root, Wrap(up, Singles(chunks)), Wrap(up, HostChunks(w, chunks)), down(chunks),
                     WrapFinish(GatherRoot(w, root, chunks), down, ChunksOf()),
                     WrapMerge(GatherMerge(chunks), up, ChunksOf())) == true
  {
    var up, down := ChunksPacket(Gathered, sendCount, call), ChunksPacket(AllGathered, recvCount, call);
    GatherComputes(w, root, chunks, Blank(|w.hostOf|, root, chunks[root]));
    assert Inverse(ChunksOf(), up);
    hide Computes;
    WrapComputes(w, root, Singles(chunks), HostChunks(w, chunks), chunks, GatherRoot(w, root, chunks),
                 GatherMerge(chunks), up, down, ChunksOf());
  }

  lemma ReduceRight(w: World, root: nat, op: Op, count: nat, call: nat, bufs: seq<Buffer>)
    requires ValidWorld(w) && root < |w.hostOf| == |bufs|
    ensures var up, down := ReducePacket(Reduced, count, call), ReducePacket(AllReduced, count, call);
            Computes(w, root, Wrap(up, Own(bufs)), Wrap(up, Merged(w, op, bufs)), down(FlatReduce(op, bufs)),
                     WrapFinish(ReduceFinish(op, bufs, root), down, PartialOf()),
                     WrapMerge(ReduceMerge(op, bufs), up, PartialOf())) == true
  {
    var up, down := ReducePacket(Reduced, count, call), ReducePacket(AllReduced, count, call);
    ReduceComputes(w, op, bufs, root);
    assert Inverse(PartialOf(), up);
    hide Computes;
    WrapComputes(w, root, Own(bufs), Merged(w, op, bufs), FlatReduce(op, bufs), ReduceFinish(op, bufs, root),
                 ReduceMerge(op, bufs), up, down, PartialOf());
  }

  lemma GatherConsistent(w: World, root: nat, k: nat, m: nat, call: nat, chunks: seq<Chunk>, share: bool)
    requires ValidWorld(w) && root < |w.hostOf| == |chunks| && k == m
    ensures LocallyConsistent(Programs(w, GatherCall(w, root, k, m, call, chunks, share)),
                              GatherDo(w, root, k, m, call, chunks)) == true
  {
    var up, down := ChunksPacket(Gathered, k, call), ChunksPacket(AllGathered, m, call);
    GatherRight(w, root, k, m, call, chunks);
    CollectiveConsistent(w, root, Wrap(up, Singles(chunks)), Wrap(up, HostChunks(w, chunks)), down(chunks), share,
                         WrapFinish(GatherRoot(w, root, chunks), down, ChunksOf()),
                         WrapMerge(GatherMerge(chunks), up, ChunksOf()));
  }

  lemma ReduceConsistent(w: World, root: nat, op: Op, count: nat, call: nat, bufs: seq<Buffer>, share: bool)
    requires ValidWorld(w) && root < |w.hostOf| == |bufs|
    ensures LocallyConsistent(Programs(w, ReduceCall(w, root, op, count, call, bufs, share)),
                              ReduceDo(w, root, op, count, call, bufs)) == true
  {
    var up, down := ReducePacket(Reduced, count, call), ReducePacket(AllReduced, count, call);
    ReduceRight(w, root, op, count, call, bufs);
    CollectiveConsistent(w, root, Wrap(up, Own(bufs)), Wrap(up, Merged(w, op, bufs)), down(FlatReduce(op, bufs)), share,
                         WrapFinish(ReduceFinish(op, bufs, root), down, PartialOf()),
                         WrapMerge(ReduceMerge(op, bufs), up, PartialOf()));
  }

  lemma BarrierConsistent(w: World, call: nat)
    requires ValidWorld(w) && |w.hostOf| > 0
    ensures LocallyConsistent(Programs(w, Stages(w, Barrier, call)), CallDo(w, Barrier, call)) == true
  {
    var join, done := Packet(BarrierJoin, 0, call, []), Packet(BarrierDone, 0, call, []);
    JoinConsistent(w, join);
    SpreadConsistent(w, 0, done);
    assert [Join(join)] + [Spread(0, done)] == Stages(w, Barrier, call);
    ThenConsistent(w, [Join(join)], [Spread(0, done)], JoinDo(join), SpreadDo(0, done));
  }

  /** In every call, ranks that have received what they should send what they should. */
  lemma CallConsistent(w: World, c: Call, call: nat)
    requires ValidWorld(w) && ValidCall(w, c)
    ensures LocallyConsistent(Programs(w, Stages(w, c, call)), CallDo(w, c, call)) == true
  {
    hide LocallyConsistent;
    match c
    case Broadcast(root, value) => SpreadConsistent(w, root, Packet(Broadcasted, |value|, call, [value]));
    case Scatter(root, count, parts) => DealConsistent(w, root, ScatterPackets(parts, count, call));
    case Gather(root, k, m, chunks) => GatherConsistent(w, root, k, m, call, chunks, false);
    case AllGather(k, m, chunks) => GatherConsistent(w, 0, k, m, call, chunks, true);
    case Reduce(root, op, count, bufs) => ReduceConsistent(w, root, op, count, call, bufs, false);
    case AllReduce(op, count, bufs) => ReduceConsistent(w, 0, op, count, call, bufs, true);
    case AllToAll(count, table) => ExchangeConsistent(w, TablePackets(table, count, call));
    case Barrier => BarrierConsistent(w, call);
  }

  lemma {:induction false} AllConsistent(w: World, calls: seq<Call>)
    requires ValidCalls(w, calls)
    ensures LocallyConsistent(Programs(w, AllStages(w, calls)), AllDo(w, calls)) == true
  {
    if calls == [] {
      NothingToSend(w);
    } else {
      hide LocallyConsistent, Stages, CallDo, ValidWorld, ValidCall;
      var k := |calls| - 1;
      AllConsistent(w, calls[..k]);
      CallConsistent(w, calls[k], k);
      ThenConsistent(w, AllStages(w, calls[..k]), Stages(w, calls[k], k), AllDo(w, calls[..k]), CallDo(w, calls[k], k));
    }
  }

  lemma NothingToSend(w: World)
    requires ValidWorld(w)
    ensures LocallyConsistent(Programs<Packet>(w, []), JoinDo(NOTHING)) == true
  {
  }

  // ---------- what a call delivers ----------

  /** Everything rank me receives in one call, in order. */
  ghost function CallInbox(w: World, c: Call, call: nat, me: nat): seq<Packet>
    requires ValidWorld(w) && ValidCall(w, c) && me < |w.hostOf|
  {
    Received(StagesFrom(w, me, Stages(w, c, call), 0))
  }

  function LastPayload(got: seq<Packet>): Option<seq<Buffer>> {
    if got == [] then None else Some(got[|got| - 1].payload)
  }

  function Both(d: Partial): Option<seq<Buffer>> { if d.Some? then Some([d.value]) else None }

  /** What me has in its receive buffer after the call, from its own data and what it received. */
  function Output(w: World, c: Call, me: nat, got: seq<Packet>): Option<seq<Buffer>>
    requires ValidWorld(w) && ValidCall(w, c) && me < |w.hostOf|
  {
    match c
    case Broadcast(root, value) => if me == root then Some([value]) else LastPayload(got)
    case Scatter(root, _, parts) => if me == root then Some([parts[me]]) else LastPayload(got)
    case Gather(root, _, _, chunks) =>
      if me == root then Some(GatherRoot(w, root, chunks)(Unwrap(ChunksOf(), got))) else None
    case AllGather(_, _, chunks) =>
      if me == 0 then Some(GatherRoot(w, 0, chunks)(Unwrap(ChunksOf(), got))) else LastPayload(got)
    case Reduce(root, op, _, bufs) =>
      if me == root then Both(ReduceFinish(op, bufs, root)(Unwrap(PartialOf(), got))) else None
    case AllReduce(op, _, bufs) =>
      if me == 0 then Both(ReduceFinish(op, bufs, 0)(Unwrap(PartialOf(), got))) else LastPayload(got)
    case AllToAll(_, table) => Some(Filed(|w.hostOf|, me, table[me][me], got))
    case Barrier => None
  }

  /** Rank s's message at place s, and one's own chunk at one's own. */
  function Filed(n: nat, me: nat, own: Buffer, got: seq<Packet>): seq<Buffer> {
    seq(n, s requires 0 <= s < n =>
      if s == me then own
      else
        var i := if s < me then s else s - 1;
        if i < |got| && |got[i].payload| == 1 then got[i].payload[0] else [])
  }

  /** What MPI promises of a call: the root's value to everyone, its r-th part to rank r, all chunks in rank
      order or the reduction of all buffers to the root or to everyone, and rank s's r-th chunk to rank r. */
  ghost predicate Promised(w: World, c: Call, me: nat, output: Option<seq<Buffer>>)
    requires ValidCall(w, c) && me < |w.hostOf|
  {
    match c
    case Broadcast(_, value) => output == Some([value])
    case Scatter(_, _, parts) => output == Some([parts[me]])
    case Gather(root, _, _, chunks) => me == root ==> output == Some(chunks)
    case AllGather(_, _, chunks) => output == Some(chunks)
    case Reduce(root, op, count, bufs) => me == root ==> IsReduction(op, bufs, count, output)
    case AllReduce(op, count, bufs) => IsReduction(op, bufs, count, output)
    case AllToAll(_, table) =>
      output.Some? && |output.value| == |table| && forall s :: 0 <= s < |table| ==> output.value[s] == table[s][me]
    case Barrier => true
  }

  ghost predicate IsReduction(op: Op, bufs: seq<Buffer>, count: nat, output: Option<seq<Buffer>>)
    requires SameSize(bufs, count)
  {
    output.Some? && |output.value| == 1 && Reduces(op, bufs, count, output.value[0])
  }

  /** The messages of the call and no others, and the promised data out of them; a rank that is not the root of
      a broadcast or scatter gets exactly one. */
  ghost predicate Delivers(w: World, c: Call, call: nat, me: nat, got: seq<Packet>)
    requires ValidWorld(w) && ValidCall(w, c) && me < |w.hostOf|
  {
    && (forall j :: 0 <= j < |got| ==> got[j].call == call)
    && Promised(w, c, me, Output(w, c, me, got))
    && (c.Broadcast? || c.Scatter? ==> |got| == if me == c.root then 0 else 1)
  }

  lemma BroadcastDelivers(w: World, root: nat, value: Packet, me: nat)
    requires ValidWorld(w) && root < |w.hostOf| && me < |w.hostOf|
    ensures Received(StagesFrom(w, me, [Spread(root, value)], 0)) == if me == root then [] else [value]
  {
    OneStage(w, me, Spread(root, value));
    if me == root {
      ReceivedNothing(SpreadScript(w, root, root, value, 0));
    } else {
      SpreadReceived(w, me, root, value, 0);
    }
  }

  lemma ScatterDelivers(w: World, root: nat, parts: seq<Packet>, me: nat)
    requires ValidWorld(w) && root < |w.hostOf| == |parts| && me < |w.hostOf|
    ensures Received(StagesFrom(w, me, [Deal(root, parts)], 0)) == if me == root then [] else [parts[me]]
  {
    OneStage(w, me, Deal(root, parts));
    if me == root {
      ReceivedNothing(SendAll(Others(|w.hostOf|, root), parts, 0));
    } else {
      ReceivedOne(Recv(root, parts[me], 1));
    }
  }

  lemma ExchangeDelivers(w: World, table: seq<seq<Packet>>, me: nat)
    requires ValidWorld(w) && me < |w.hostOf| && ValidStage(w, Exchange(table))
    ensures Received(StagesFrom(w, me, [Exchange(table)], 0)) == Pieces(Column(table, me), Others(|w.hostOf|, me))
  {
    var n := |w.hostOf|;
    OneStage(w, me, Exchange(table));
    var sends, recvs := SendAll(Others(n, me), table[me], 0), RecvAll(Others(n, me), Column(table, me), 1);
    ReceivedConcat(sends, recvs);
    ReceivedNothing(sends);
    ReceivedRecvAll(Others(n, me), Column(table, me), 1);
    assert [] + Received(recvs) == Received(recvs);
  }

  lemma {:induction false} WithoutSize(s: seq<nat>, x: nat)
    requires Distinct(s) && forall i :: 0 <= i < |s| ==> s[i] == i
    ensures |Without(s, x)| == if x < |s| then |s| - 1 else |s|
    decreases |s|
  {
    if s != [] { WithoutSize(s[..|s| - 1], x); }
  }

  lemma {:induction false} WithoutAt(s: seq<nat>, x: nat, k: nat)
    requires Distinct(s) && (forall i :: 0 <= i < |s| ==> s[i] == i) && k < |s| && k != x
    ensures var i := if k < x then k else k - 1; i < |Without(s, x)| && Without(s, x)[i] == k
    decreases |s|
  {
    var n := |s| - 1;
    WithoutSize(s[..n], x);
    if k < n { WithoutAt(s[..n], x, k); }
  }

  lemma OthersAt(n: nat, me: nat, s: nat)
    requires me < n && s < n && s != me
    ensures var i := if s < me then s else s - 1; i < |Others(n, me)| && Others(n, me)[i] == s
  {
    UptoIsIdentity(n);
    WithoutAt(Upto(n), me, s);
  }

  lemma AllToAllDelivers(w: World, count: nat, table: seq<seq<Buffer>>, call: nat, me: nat)
    requires ValidWorld(w) && ValidCall(w, AllToAll(count, table)) && me < |w.hostOf|
    ensures var c := AllToAll(count, table); Promised(w, c, me, Output(w, c, me, CallInbox(w, c, call, me)))
  {
    var n, packets := |w.hostOf|, TablePackets(table, count, call);
    ExchangeDelivers(w, packets, me);
    forall s | 0 <= s < n
      ensures Filed(n, me, table[me][me], Pieces(Column(packets, me), Others(n, me)))[s] == table[s][me]
    {
      FiledAt(n, table, count, call, me, s);
    }
  }

  lemma FiledAt(n: nat, table: seq<seq<Buffer>>, count: nat, call: nat, me: nat, s: nat)
    requires n == |table| && (forall r :: 0 <= r < n ==> |table[r]| == n) && me < n && s < n
    ensures var packets := TablePackets(table, count, call);
            Filed(n, me, table[me][me], Pieces(Column(packets, me), Others(n, me)))[s] == table[s][me]
  {
    hide Others, RowPackets;
    if s != me { OthersAt(n, me, s); }
  }

  lemma CollectiveDelivers<D>(w: World, root: nat, own: seq<D>, merged: seq<D>, total: D, share: bool,
                              finish: seq<D> -> D, me: nat)
    requires ValidWorld(w) && root < |w.hostOf| == |own| == |merged| && me < |w.hostOf|
    requires FinishesRight(w, root, own, merged, total, finish)
    ensures var got := Received(StagesFrom(w, me, TwoStages(w, root, own, merged, total, share), 0));
            && (me == root ==> finish(got) == total)
            && (me != root && share ==> got != [] && got[|got| - 1] == total)
  {
    hide Fan, Contributions, StagesFrom;
    if me == root {
      RootReceived(w, root, own, merged, total, share);
    } else if share {
      OtherReceived(w, me, root, own, merged, total);
    }
  }

  lemma GatherDelivers(w: World, root: nat, k: nat, call: nat, chunks: seq<Chunk>, share: bool, me: nat)
    requires ValidWorld(w) && root < |w.hostOf| == |chunks| && me < |w.hostOf|
    ensures var got := Received(StagesFrom(w, me, GatherCall(w, root, k, k, call, chunks, share), 0));
            && (me == root ==> GatherRoot(w, root, chunks)(Unwrap(ChunksOf(), got)) == chunks)
            && (me != root && share ==> LastPayload(got) == Some(chunks))
  {
    var up, down := ChunksPacket(Gathered, k, call), ChunksPacket(AllGathered, k, call);
    GatherRight(w, root, k, k, call, chunks);
    var finish := WrapFinish(GatherRoot(w, root, chunks), down, ChunksOf());
    hide FinishesRight, MergesRight, StagesFrom, TwoStages, ValidWorld;
    CollectiveDelivers(w, root, Wrap(up, Singles(chunks)), Wrap(up, HostChunks(w, chunks)), down(chunks), share,
                       finish, me);
  }

  lemma ReduceDelivers(w: World, root: nat, op: Op, count: nat, call: nat, bufs: seq<Buffer>, share: bool, me: nat)
    requires ValidWorld(w) && root < |w.hostOf| == |bufs| && me < |w.hostOf| && SameSize(bufs, count)
    ensures var got := Received(StagesFrom(w, me, ReduceCall(w, root, op, count, call, bufs, share), 0));
            && (me == root ==>
                  IsReduction(op, bufs, count, Both(ReduceFinish(op, bufs, root)(Unwrap(PartialOf(), got)))))
            && (me != root && share ==> IsReduction(op, bufs, count, LastPayload(got)))
  {
    var up, down := ReducePacket(Reduced, count, call), ReducePacket(AllReduced, count, call);
    FlatReduceMeans(op, bufs, count);
    ReduceRight(w, root, op, count, call, bufs);
    var finish := WrapFinish(ReduceFinish(op, bufs, root), down, PartialOf());
    hide FinishesRight, MergesRight, StagesFrom, TwoStages, ValidWorld, FlatReduce, Reduces;
    CollectiveDelivers(w, root, Wrap(up, Own(bufs)), Wrap(up, Merged(w, op, bufs)), down(FlatReduce(op, bufs)), share,
                       finish, me);
  }

  lemma CallKeepsPromise(w: World, c: Call, call: nat, me: nat)
    requires ValidWorld(w) && ValidCall(w, c) && me < |w.hostOf|
    ensures Promised(w, c, me, Output(w, c, me, CallInbox(w, c, call, me)))
    ensures c.Broadcast? || c.Scatter? ==> |CallInbox(w, c, call, me)| == if me == c.root then 0 else 1
  {
    match c
    case Broadcast(root, value) => BroadcastDelivers(w, root, Packet(Broadcasted, |value|, call, [value]), me);
    case Scatter(root, count, parts) => ScatterDelivers(w, root, ScatterPackets(parts, count, call), me);
    case Gather(root, k, _, chunks) => GatherDelivers(w, root, k, call, chunks, false, me);
    case AllGather(k, _, chunks) => GatherDelivers(w, 0, k, call, chunks, true, me);
    case Reduce(root, op, count, bufs) => ReduceDelivers(w, root, op, count, call, bufs, false, me);
    case AllReduce(op, count, bufs) => ReduceDelivers(w, 0, op, count, call, bufs, true, me);
    case AllToAll(count, table) => AllToAllDelivers(w, count, table, call, me);
    case Barrier =>
  }

  // ---------- which call a message belongs to ----------

  /** All the data of a stage belongs to one call. */
  ghost predicate Carries(st: Stage<Packet>, call: nat) {
    match st
    case Spread(_, value) => value.call == call
    case Converge(_, own, merged, due) =>
      forall r :: 0 <= r < |own| && r < |merged| && r < |due| ==>
        own[r].call == call && merged[r].call == call && due[r].call == call
    case Deal(_, parts) => forall r :: 0 <= r < |parts| ==> parts[r].call == call
    case Exchange(table) =>
      forall r, x :: 0 <= r < |table| && 0 <= x < |table[r]| ==> table[r][x].call == call
    case Join(value) => value.call == call
  }

  lemma StagesCarry(w: World, c: Call, call: nat)
    requires ValidWorld(w) && ValidCall(w, c)
    ensures forall i :: 0 <= i < |Stages(w, c, call)| ==> Carries(Stages(w, c, call)[i], call)
  {
    hide ValidWorld, SameSize, Singles, HostChunks, Merged, FlatReduce, Own, ValidStage;
    match c
    case AllToAll(count, table) =>
      hide TablePackets;
    case _ =>
  }

  ghost predicate AllOf(p: Program<Packet>, call: nat) {
    forall i :: 0 <= i < |p| ==> p[i].data.call == call
  }

  lemma ScriptCarries(w: World, me: nat, st: Stage<Packet>, base: nat, call: nat)
    requires ValidWorld(w) && me < |w.hostOf| && ValidStage(w, st) && Carries(st, call)
    ensures AllOf(Script(w, me, st, base), call)
  {
    hide Fan, LocalOthers, Others, LeaderOf, Local, ValidWorld;
  }

  lemma {:induction false} ReceivedOf(p: Program<Packet>, call: nat)
    requires AllOf(p, call)
    ensures forall k :: 0 <= k < |Received(p)| ==> Received(p)[k].call == call
  {
    if p != [] { ReceivedOf(p[..|p| - 1], call); }
  }

  lemma {:induction false} StagesFromCarry(w: World, me: nat, stages: seq<Stage<Packet>>, k: nat, call: nat)
    requires ValidWorld(w) && me < |w.hostOf| && k <= |stages| && AllValid(w, stages)
    requires forall i :: k <= i < |stages| ==> Carries(stages[i], call)
    ensures AllOf(StagesFrom(w, me, stages, k), call)
    decreases |stages| - k
  {
    if k < |stages| {
      ScriptCarries(w, me, stages[k], 4 * k, call);
      StagesFromCarry(w, me, stages, k + 1, call);
    }
  }

  /** What a rank is meant to receive in a call belongs to it and holds the promised data. */
  lemma CallDelivers(w: World, c: Call, call: nat, me: nat)
    requires ValidWorld(w) && ValidCall(w, c) && me < |w.hostOf|
    ensures Delivers(w, c, call, me, CallInbox(w, c, call, me))
  {
    hide Stages, Promised, Output;
    CallKeepsPromise(w, c, call, me);
    StagesCarry(w, c, call);
    StagesFromCarry(w, me, Stages(w, c, call), 0, call);
    ReceivedOf(StagesFrom(w, me, Stages(w, c, call), 0), call);
  }

  // ---------- programs of calls ----------

  /** Everything rank me receives in a program of calls, in order. */
  ghost function Inbox(w: World, me: nat, calls: seq<Call>): seq<Packet>
    requires ValidCalls(w, calls) && me < |w.hostOf|
  {
    Received(StagesFrom(w, me, AllStages(w, calls), 0))
  }

  lemma InboxNext(w: World, me: nat, calls: seq<Call>)
    requires ValidCalls(w, calls) && me < |w.hostOf| && calls != []
    ensures var k := |calls| - 1; Inbox(w, me, calls) == Inbox(w, me, calls[..k]) + CallInbox(w, calls[k], k, me)
  {
    hide Stages, ValidWorld, ValidCall;
    var k := |calls| - 1;
    assert AllStages(w, calls) == AllStages(w, calls[..k]) + Stages(w, calls[k], k);
    ThenProgram(w, me, AllStages(w, calls[..k]), Stages(w, calls[k], k));
  }

  lemma {:induction false} InboxPrefix(w: World, me: nat, calls: seq<Call>, i: nat)
    requires ValidCalls(w, calls) && me < |w.hostOf| && i <= |calls|
    ensures Inbox(w, me, calls[..i]) <= Inbox(w, me, calls)
    decreases |calls|
  {
    hide Inbox, ValidWorld, ValidCall;
    if i < |calls| {
      var front := calls[..|calls| - 1];
      assert front[..i] == calls[..i];
      InboxPrefix(w, me, front, i);
      InboxNext(w, me, calls);
    } else {
      assert calls[..i] == calls;
    }
  }

  /** Rank me has received all of its i-th call. */
  ghost predicate HasReceived(w: World, me: nat, calls: seq<Call>, i: nat, got: seq<Packet>)
    requires ValidCalls(w, calls) && me < |w.hostOf| && i < |calls|
  {
    |Inbox(w, me, calls[..i])| <= |Inbox(w, me, calls[..i + 1])| <= |got|
  }

  /** What it received during that call. */
  ghost function During(w: World, me: nat, calls: seq<Call>, i: nat, got: seq<Packet>): seq<Packet>
    requires ValidCalls(w, calls) && me < |w.hostOf| && i < |calls| && HasReceived(w, me, calls, i, got)
  {
    got[|Inbox(w, me, calls[..i])|..|Inbox(w, me, calls[..i + 1])|]
  }

  lemma DuringIsInbox(w: World, me: nat, calls: seq<Call>, i: nat, got: seq<Packet>)
    requires ValidCalls(w, calls) && me < |w.hostOf| && i < |calls| && got <= Inbox(w, me, calls)
    requires HasReceived(w, me, calls, i, got)
    ensures During(w, me, calls, i, got) == CallInbox(w, calls[i], i, me)
  {
    hide Inbox, CallInbox, ValidWorld, ValidCall;
    InboxPrefix(w, me, calls, i + 1);
    assert calls[..i + 1][..i] == calls[..i];
    InboxNext(w, me, calls[..i + 1]);
  }

  /** A message received so far, by its place in the inbox, is one of the call it was received in. */
  lemma CallOfMessage(w: World, me: nat, calls: seq<Call>, i: nat, j: nat)
    requires ValidCalls(w, calls) && me < |w.hostOf| && i < |calls|
    requires |Inbox(w, me, calls[..i])| <= j < |Inbox(w, me, calls[..i + 1])|
    ensures j < |Inbox(w, me, calls)| && Inbox(w, me, calls)[j].call == i
  {
    hide Inbox, CallInbox, ValidWorld, ValidCall, Promised, Output;
    InboxPrefix(w, me, calls, i + 1);
    assert calls[..i + 1][..i] == calls[..i];
    InboxNext(w, me, calls[..i + 1]);
    CallDelivers(w, calls[i], i, me);
  }

  /** Every message was sent for the call its receiver was making, and every call that a rank has received all
      of has delivered to it what it should. */
  ghost predicate AllDelivered(w: World, calls: seq<Call>, me: nat, got: seq<Packet>)
    requires ValidCalls(w, calls) && me < |w.hostOf|
  {
    && (forall i, j ::
          0 <= i < |calls| && |Inbox(w, me, calls[..i])| <= j < |Inbox(w, me, calls[..i + 1])| && j < |got| ==>
            got[j].call == i)
    && forall i :: 0 <= i < |calls| && HasReceived(w, me, calls, i, got) ==>
         Delivers(w, calls[i], i, me, During(w, me, calls, i, got))
  }

  lemma PrefixDelivers(w: World, calls: seq<Call>, me: nat, got: seq<Packet>)
    requires ValidCalls(w, calls) && me < |w.hostOf| && got <= Inbox(w, me, calls)
    ensures AllDelivered(w, calls, me, got)
  {
    hide Inbox, CallInbox, Delivers, ValidWorld, ValidCall;
    forall i, j | 0 <= i < |calls| && |Inbox(w, me, calls[..i])| <= j < |Inbox(w, me, calls[..i + 1])| && j < |got|
      ensures got[j].call == i
    {
      CallOfMessage(w, me, calls, i, j);
    }
    forall i | 0 <= i < |calls| && HasReceived(w, me, calls, i, got)
      ensures Delivers(w, calls[i], i, me, During(w, me, calls, i, got))
    {
      DuringIsInbox(w, me, calls, i, got);
      CallDelivers(w, calls[i], i, me);
    }
  }

  /** Every run of every program of collectives, on every layout, under every schedule: it cannot deadlock, no
      receive sees a message of another call, type or count, no message is left over, and every call
      delivers to every rank what MPI promises. */
  lemma CollectivesComplete(w: World, calls: seq<Call>, schedule: seq<nat>, states: seq<State<Packet>>)
    requires ValidCalls(w, calls)
    requires IsRun(Programs(w, AllStages(w, calls)), AllDo(w, calls), schedule, states) == true
    ensures |states| > |schedule|
    ensures var last := states[|schedule|];
            && GoodRun(Programs(w, AllStages(w, calls)), schedule, last) == true
            && |last.got| == |w.hostOf|
            && forall r :: 0 <= r < |w.hostOf| ==> AllDelivered(w, calls, r, last.got[r])
  {
    var progs := Programs(w, AllStages(w, calls));
    AllConsistent(w, calls);
    ProgramsMatch(w, AllStages(w, calls));
    RunsComplete(progs, AllDo(w, calls), schedule, states);
    var last := states[|schedule|];
    hide AllDelivered, AllStages;
    forall r | 0 <= r < |w.hostOf| ensures AllDelivered(w, calls, r, last.got[r]) {
      ReceivedPrefix(progs[r], last.pc[r]);
      PrefixDelivers(w, calls, r, last.got[r]);
    }
  }

  // ---------- barriers ----------

  lemma {:induction false} PrefixCounts<D>(p: Program<D>, i: nat, j: nat, x: nat)
    requires i <= j <= |p|
    ensures |SendsTo(p[..i], x)| <= |SendsTo(p[..j], x)| && |RecvsFrom(p[..i], x)| <= |RecvsFrom(p[..j], x)|
  {
    assert p[..j][..i] == p[..i];
    PrefixProjections(p[..j], i, x);
  }

  /** A rank has received no more from s than s has sent it; so if r has done its first `after` actions, and
      these receive more from s than the first `before` actions of s send it, s is past those. */
  lemma Caused<D>(progs: seq<Program<D>>, st: State<D>, s: nat, before: nat, r: nat, after: nat)
    requires Inv(progs, st) && s < |progs| && r < |progs| && before <= |progs[s]|
    requires after <= st.pc[r] && |RecvsFrom(progs[r][..after], s)| > |SendsTo(progs[s][..before], r)|
    ensures st.pc[s] > before
  {
    assert QueueOk(progs, st, s, r);
    PrefixCounts(progs[r], after, st.pc[r], s);
    if st.pc[s] <= before { PrefixCounts(progs[s], st.pc[s], before, r); }
  }

  lemma EqualTraffic<D>(w: World, stages: seq<Stage<D>>, s: nat, r: nat)
    requires ValidWorld(w) && s < |w.hostOf| && r < |w.hostOf| && AllValid(w, stages)
    ensures |SendsTo(StagesFrom(w, s, stages, 0), r)| == |RecvsFrom(StagesFrom(w, r, stages, 0), s)|
  {
    StagesMatch(w, stages, s, r, 0);
  }

  /** What rank r does from stage |a| on: the two halves of a barrier. */
  lemma BarrierScript<D>(w: World, r: nat, a: seq<Stage<D>>, join: D, done: D)
    requires ValidWorld(w) && r < |w.hostOf| && AllValid(w, a)
    ensures AllValid(w, a + [Join(join)]) && AllValid(w, a + [Join(join)] + [Spread(0, done)])
    ensures StagesFrom(w, r, a + [Join(join)], 0) == StagesFrom(w, r, a, 0) + Script(w, r, Join(join), 4 * |a|)
    ensures StagesFrom(w, r, a + [Join(join)] + [Spread(0, done)], 0)
            == StagesFrom(w, r, a + [Join(join)], 0) + Script(w, r, Spread(0, done), 4 * |a| + 4)
  {
    hide Script, ValidWorld, StagesFrom;
    LastStage(w, r, a, Join(join));
    LastStage(w, r, a + [Join(join)], Spread(0, done));
  }

  lemma LastStage<D>(w: World, r: nat, a: seq<Stage<D>>, st: Stage<D>)
    requires ValidWorld(w) && r < |w.hostOf| && AllValid(w, a) && ValidStage(w, st)
    ensures AllValid(w, a + [st])
    ensures StagesFrom(w, r, a + [st], 0) == StagesFrom(w, r, a, 0) + Script(w, r, st, 4 * |a|)
  {
    hide Script, ValidStage, ValidWorld;
    StagesSplit(w, r, a, [st], 0);
    assert (a + [st])[|a|] == st;
    assert StagesFrom(w, r, a + [st], |a| + 1) == [];
    assert Script(w, r, st, 4 * |a|) + [] == Script(w, r, st, 4 * |a|);
  }

  /** The programs run through a barrier after the stages a. */
  ghost predicate ThroughBarrier<D>(w: World, progs: seq<Program<D>>, a: seq<Stage<D>>, join: D, done: D) {
    && ValidWorld(w) && |progs| == |w.hostOf| && AllValid(w, a) && AllValid(w, a + [Join(join)] + [Spread(0, done)])
    && forall r :: 0 <= r < |progs| ==> StagesFrom(w, r, a + [Join(join)] + [Spread(0, done)], 0) <= progs[r]
  }

  lemma BarrierPrefixes<D>(w: World, progs: seq<Program<D>>, a: seq<Stage<D>>, join: D, done: D, r: nat)
    requires ThroughBarrier(w, progs, a, join, done) && r < |progs|
    ensures AllValid(w, a + [Join(join)])
    ensures StagesFrom(w, r, a, 0) <= StagesFrom(w, r, a + [Join(join)], 0) <= progs[r]
  {
    BarrierScript(w, r, a, join, done);
  }

  lemma PrefixIs<D>(p: Program<D>, q: Program<D>)
    requires q <= p
    ensures |q| <= |p| && p[..|q|] == q
  {
  }

  /** Once rank 0 has received all joins, every other rank has sent its own. */
  lemma AllJoined<D>(w: World, progs: seq<Program<D>>, st: State<D>, a: seq<Stage<D>>, join: D, done: D, b: nat)
    requires ThroughBarrier(w, progs, a, join, done) && Inv(progs, st) && b < |progs| && b != 0
    requires AllValid(w, a + [Join(join)]) && st.pc[0] >= |StagesFrom(w, 0, a + [Join(join)], 0)|
    ensures st.pc[b] > |StagesFrom(w, b, a, 0)|
  {
    hide Script, ValidWorld, StagesFrom;
    BarrierPrefixes(w, progs, a, join, done, 0);
    BarrierPrefixes(w, progs, a, join, done, b);
    var whole, start := StagesFrom(w, 0, a + [Join(join)], 0), StagesFrom(w, b, a, 0);
    PrefixIs(progs[0], whole);
    PrefixIs(progs[b], start);
    BarrierScript(w, 0, a, join, done);
    ProjectConcat(StagesFrom(w, 0, a, 0), Script(w, 0, Join(join), 4 * |a|), b);
    JoinProjects(w, 0, b, join, 4 * |a|);
    EqualTraffic(w, a, b, 0);
    Caused(progs, st, b, |start|, 0, |whole|);
  }

  /** A rank that has heard from x in the closing broadcast: x is past its joins. */
  lemma HeardFrom<D>(w: World, progs: seq<Program<D>>, st: State<D>, a: seq<Stage<D>>, join: D, done: D, x: nat, r: nat,
                     after: nat)
    requires ThroughBarrier(w, progs, a, join, done) && Inv(progs, st) && x < |progs| && r < |progs|
    requires AllValid(w, a + [Join(join)]) && after <= st.pc[r]
    requires |RecvsFrom(progs[r][..after], x)| > |RecvsFrom(StagesFrom(w, r, a + [Join(join)], 0), x)|
    ensures st.pc[x] > |StagesFrom(w, x, a + [Join(join)], 0)|
  {
    hide Script, ValidWorld, ValidStage;
    BarrierPrefixes(w, progs, a, join, done, x);
    PrefixIs(progs[x], StagesFrom(w, x, a + [Join(join)], 0));
    EqualTraffic(w, a + [Join(join)], x, r);
    Caused(progs, st, x, |StagesFrom(w, x, a + [Join(join)], 0)|, r, after);
  }

  /** Who a rank hears from in a broadcast. */
  function Source(w: World, me: nat, root: nat): nat
    requires me < |w.hostOf| && root < |w.hostOf|
  {
    if me == LeaderOf(w, me) || Local(w, me, root) then root else LeaderOf(w, me)
  }

  /** A rank other than the root hears exactly once, from the root or, on another host, from its leader. */
  lemma BroadcastSource<D>(w: World, me: nat, root: nat, value: D, base: nat, s: nat)
    requires ValidWorld(w) && me < |w.hostOf| && root < |w.hostOf| && s < |w.hostOf| && me != root
    ensures |RecvsFrom(Script(w, me, Spread(root, value), base), s)| == if s == Source(w, me, root) then 1 else 0
  {
    SpreadProjects(w, me, s, root, value, base);
  }

  lemma PastDone<D>(w: World, progs: seq<Program<D>>, st: State<D>, a: seq<Stage<D>>, join: D, done: D, r: nat)
    requires ThroughBarrier(w, progs, a, join, done) && Inv(progs, st) && r < |progs| && r != 0
    requires AllValid(w, a + [Join(join)])
    requires st.pc[r] >= |StagesFrom(w, r, a + [Join(join)] + [Spread(0, done)], 0)|
    ensures st.pc[Source(w, r, 0)] > |StagesFrom(w, Source(w, r, 0), a + [Join(join)], 0)|
  {
    hide Script, ValidWorld, StagesFrom;
    var whole := StagesFrom(w, r, a + [Join(join)] + [Spread(0, done)], 0);
    PrefixIs(progs[r], whole);
    BarrierScript(w, r, a, join, done);
    ProjectConcat(StagesFrom(w, r, a + [Join(join)], 0), Script(w, r, Spread(0, done), 4 * |a| + 4), Source(w, r, 0));
    BroadcastSource(w, r, 0, done, 4 * |a| + 4, Source(w, r, 0));
    HeardFrom(w, progs, st, a, join, done, Source(w, r, 0), r, |whole|);
  }

  /** A leader of another host that has begun the closing broadcast has heard from rank 0. */
  lemma LeaderHeard<D>(w: World, progs: seq<Program<D>>, st: State<D>, a: seq<Stage<D>>, join: D, done: D, l: nat)
    requires ThroughBarrier(w, progs, a, join, done) && Inv(progs, st) && l < |progs| && l != 0 && l == LeaderOf(w, l)
    requires AllValid(w, a + [Join(join)]) && st.pc[l] > |StagesFrom(w, l, a + [Join(join)], 0)|
    ensures st.pc[0] > |StagesFrom(w, 0, a + [Join(join)], 0)|
  {
    var base := StagesFrom(w, l, a + [Join(join)], 0);
    BarrierScript(w, l, a, join, done);
    PrefixIs(progs[l], StagesFrom(w, l, a + [Join(join)] + [Spread(0, done)], 0));
    hide ValidWorld, ValidStage, StagesFrom;
    var script := SpreadScript(w, l, 0, done, 4 * |a| + 4);
    var after := |base| + 1;
    assert script[0] == Recv(0, done, 4 * |a| + 5);
    FirstAction(progs[l], base, script);
    SnocProjects(base, script[0], 0);
    HeardFrom(w, progs, st, a, join, done, 0, l, after);
  }

  lemma FirstAction<D>(p: Program<D>, base: Program<D>, more: Program<D>)
    requires base + more <= p && more != []
    ensures |base| + 1 <= |p| && p[..|base| + 1] == base + [more[0]]
  {
    assert p[..|base| + 1] == (base + more)[..|base| + 1];
  }

  /** Whoever is past the barrier, rank 0 has received all joins. */
  lemma PastMeansJoined<D>(w: World, progs: seq<Program<D>>, st: State<D>, a: seq<Stage<D>>, join: D, done: D, r: nat)
    requires ThroughBarrier(w, progs, a, join, done) && Inv(progs, st) && r < |progs|
    requires st.pc[r] >= |StagesFrom(w, r, a + [Join(join)] + [Spread(0, done)], 0)|
    ensures AllValid(w, a + [Join(join)]) && st.pc[0] >= |StagesFrom(w, 0, a + [Join(join)], 0)|
    ensures r != 0 ==> st.pc[0] > |StagesFrom(w, 0, a + [Join(join)], 0)|
  {
    hide StagesFrom, ValidStage;
    BarrierPrefixes(w, progs, a, join, done, r);
    if r == 0 {
      BarrierScript(w, 0, a, join, done);
    } else {
      PastDone(w, progs, st, a, join, done, r);
      var x := Source(w, r, 0);
      if x != 0 {
        LeaderIsLowest(w, r);
        LeaderHeard(w, progs, st, a, join, done, x);
      }
    }
  }

  lemma {:induction false} ProgramPrefix(w: World, calls: seq<Call>, i: nat, r: nat)
    requires ValidCalls(w, calls) && i <= |calls| && r < |w.hostOf|
    ensures ValidCalls(w, calls[..i])
    ensures StagesFrom(w, r, AllStages(w, calls[..i]), 0) <= StagesFrom(w, r, AllStages(w, calls), 0)
    decreases |calls|
  {
    hide Stages, ValidWorld, ValidCall, ValidStage, StagesFrom;
    if i < |calls| {
      var k := |calls| - 1;
      assert calls[..k][..i] == calls[..i];
      ProgramPrefix(w, calls[..k], i, r);
      ThenProgram(w, r, AllStages(w, calls[..k]), Stages(w, calls[k], k));
    } else {
      assert calls[..i] == calls;
    }
  }

  /** How much of its program rank r has done when it comes to call i. */
  ghost function StartOf(w: World, calls: seq<Call>, i: nat, r: nat): nat
    requires ValidCalls(w, calls) && i <= |calls| && r < |w.hostOf|
  {
    |StagesFrom(w, r, AllStages(w, calls[..i]), 0)|
  }

  /** In every state of every run: if some rank is past a barrier, every other rank has entered it. */
  lemma BarrierHolds(w: World, calls: seq<Call>, i: nat, schedule: seq<nat>, states: seq<State<Packet>>, k: nat,
                     past: nat, other: nat)
    requires ValidCalls(w, calls) && i < |calls| && calls[i].Barrier? && past < |w.hostOf| && other < |w.hostOf|
    requires IsRun(Programs(w, AllStages(w, calls)), AllDo(w, calls), schedule, states) && k < |states|
    requires |states[k].pc| == |w.hostOf| && states[k].pc[past] >= StartOf(w, calls, i + 1, past) && other != past
    ensures states[k].pc[other] > StartOf(w, calls, i, other)
  {
    hide StagesFrom, ThroughBarrier, MessageNetwork.Inv, AllStages, AllDo, IsRun;
    CallsInv(w, calls, schedule, states, k);
    CallsThroughBarrier(w, calls, i);
    EnteredBarrier(w, Programs(w, AllStages(w, calls)), states[k], AllStages(w, calls[..i]),
                   Packet(BarrierJoin, 0, i, []), Packet(BarrierDone, 0, i, []), past, other);
  }

  lemma CallsInv(w: World, calls: seq<Call>, schedule: seq<nat>, states: seq<State<Packet>>, k: nat)
    requires ValidCalls(w, calls) && k < |states|
    requires IsRun(Programs(w, AllStages(w, calls)), AllDo(w, calls), schedule, states)
    ensures MessageNetwork.Inv(Programs(w, AllStages(w, calls)), states[k])
  {
    hide StagesFrom, AllDo;
    AllConsistent(w, calls);
    ProgramsMatch(w, AllStages(w, calls));
    RunInv(Programs(w, AllStages(w, calls)), AllDo(w, calls), schedule, states, k);
  }

  lemma BarrierStages(w: World, calls: seq<Call>, i: nat)
    requires ValidCalls(w, calls) && i < |calls| && calls[i].Barrier?
    ensures AllStages(w, calls[..i + 1]) ==
            AllStages(w, calls[..i]) + [Join(Packet(BarrierJoin, 0, i, []))]
            + [Spread(0, Packet(BarrierDone, 0, i, []))]
  {
    hide ValidStage, ValidWorld;
    assert calls[..i + 1][..i] == calls[..i];
  }

  lemma CallsThroughBarrier(w: World, calls: seq<Call>, i: nat)
    requires ValidCalls(w, calls) && i < |calls| && calls[i].Barrier?
    ensures var a := AllStages(w, calls[..i]);
            var join, done := Packet(BarrierJoin, 0, i, []), Packet(BarrierDone, 0, i, []);
            && ThroughBarrier(w, Programs(w, AllStages(w, calls)), a, join, done)
            && AllStages(w, calls[..i + 1]) == a + [Join(join)] + [Spread(0, done)]
  {
    hide StagesFrom, AllStages, ValidCall, ValidStage, ValidWorld;
    var progs := Programs(w, AllStages(w, calls));
    var a := AllStages(w, calls[..i]);
    var join, done := Packet(BarrierJoin, 0, i, []), Packet(BarrierDone, 0, i, []);
    BarrierStages(w, calls, i);
    forall r | 0 <= r < |progs| ensures StagesFrom(w, r, a + [Join(join)] + [Spread(0, done)], 0) <= progs[r] {
      ProgramPrefix(w, calls, i + 1, r);
    }
  }

  lemma EnteredBarrier<D>(w: World, progs: seq<Program<D>>, st: State<D>, a: seq<Stage<D>>, join: D, done: D, past: nat,
                          other: nat)
    requires ThroughBarrier(w, progs, a, join, done) && Inv(progs, st) && past < |progs| && other < |progs|
    requires st.pc[past] >= |StagesFrom(w, past, a + [Join(join)] + [Spread(0, done)], 0)| && other != past
    ensures st.pc[other] > |StagesFrom(w, other, a, 0)|
  {
    hide StagesFrom, ValidStage, ValidWorld;
    PastMeansJoined(w, progs, st, a, join, done, past);
    if other != 0 {
      AllJoined(w, progs, st, a, join, done, other);
    } else {
      BarrierPrefixes(w, progs, a, join, done, 0);
    }
  }
}
