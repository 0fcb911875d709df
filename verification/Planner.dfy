/** The planner's callBatch and setMessageResult: how slots and MPI ports are claimed for new,
    growing and migrating apps and given back as results arrive. */
module Planner {
  import opened Options
  import opened Placement
  import opened Decisions
  import opened PlannerLedger
  import opened PlannerSteps
  import opened PlannerRuns
  import opened HostOrder
  import Migrations
  import opened BinPackScheduler

  // ---------- the scheduler's view of the hosts ----------

  function View(hosts: HostTable): HostMap {
    map ip | ip in hosts :: Host(ip, hosts[ip].slots, hosts[ip].usedSlots)
  }

  lemma {:induction false} HostsFromSuffix(rows: seq<Row>, i: nat)
    requires i <= |rows|
    ensures HostsFrom(rows, i) == multiset(Decisions.Hosts(rows)[i..])
    decreases |rows| - i
  {
    if i < |rows| {
      HostsFromSuffix(rows, i + 1);
      assert Decisions.Hosts(rows)[i..] == [rows[i].host] + Decisions.Hosts(rows)[i + 1..];
    }
  }

  lemma HostsFromAll(rows: seq<Row>)
    ensures HostsFrom(rows, 0) == multiset(Decisions.Hosts(rows))
  {
    HostsFromSuffix(rows, 0);
    assert Decisions.Hosts(rows)[0..] == Decisions.Hosts(rows);
  }

  /** A placement the scheduler finds feasible can be claimed. */
  lemma FeasibleHasRoom(hosts: HostTable, rows: seq<Row>)
    requires HostsOk(hosts, multiset{}) && FeasibleOn(View(hosts), Decisions.Hosts(rows))
    ensures HasRoom(hosts, HostsFrom(rows, 0))
  {
    HostsFromAll(rows);
    forall h | h in HostsFrom(rows, 0)
      ensures h in hosts && hosts[h].usedSlots + HostsFrom(rows, 0)[h] <= hosts[h].slots
    {
      assert h in Decisions.Hosts(rows);
      assert h in View(hosts);
    }
  }

  /** A re-placement that is feasible once the app's own slots are freed can be moved to. */
  lemma FeasibleRoomToMove(hosts: HostTable, freq: map<string, int>, was: seq<Row>, now: seq<Row>)
    requires HostsOk(hosts, multiset{}) && forall h :: At(freq, h) == multiset(Decisions.Hosts(was))[h]
    requires FeasibleOn(Freed(View(hosts), freq), Decisions.Hosts(now))
    ensures RoomToMove(hosts, was, now)
  {
    HostsFromAll(was);
    HostsFromAll(now);
    forall h | h in HostsFrom(now, 0)
      ensures h in hosts && hosts[h].usedSlots + HostsFrom(now, 0)[h] <= hosts[h].slots + HostsFrom(was, 0)[h]
    {
      assert At(freq, h) == HostsFrom(was, 0)[h];
      FreedRoom(hosts, freq, h, multiset(Decisions.Hosts(now)), HostsFrom(was, 0)[h]);
    }
  }

  lemma FreedRoom(hosts: HostTable, freq: map<string, int>, h: string, need: multiset<string>, own: nat)
    requires HostsOk(hosts, multiset{}) && At(freq, h) == own && h in need
    requires h in Freed(View(hosts), freq) && need[h] <= Available(Freed(View(hosts), freq)[h])
    ensures h in hosts && hosts[h].usedSlots + need[h] <= hosts[h].slots + own
  {
    assert HostOk(hosts[h], multiset{}[h]);
  }

  ghost function RowsAt(rows: seq<Row>, h: string): set<int> {
    set i | 0 <= i < |rows| && rows[i].host == h
  }

  lemma {:induction false} RowsAtSize(rows: seq<Row>, h: string)
    ensures |RowsAt(rows, h)| == multiset(Decisions.Hosts(rows))[h]
  {
    if rows != [] {
      var n := |rows| - 1;
      RowsAtSize(rows[..n], h);
      assert RowsAt(rows, h) == RowsAt(rows[..n], h) + if rows[n].host == h then {n} else {};
      assert Decisions.Hosts(rows) == Decisions.Hosts(rows[..n]) + [rows[n].host];
    }
  }

  lemma RowsFitMarks(rows: seq<Row>, ports: seq<Port>, h: string, marks: set<int>)
    requires ports == Ports(rows) && Distinct(ports)
    requires forall i :: 0 <= i < |ports| && ports[i].0 == h ==> ports[i].1 - MPI_BASE_PORT in marks
    ensures multiset(Decisions.Hosts(rows))[h] <= |marks|
  {
    RowsAtSize(rows, h);
    var f := map i | i in RowsAt(rows, h) :: ports[i].1 - MPI_BASE_PORT;
    forall i, j | i in f && j in f && i != j ensures f[i] != f[j] {
      assert ports[i].0 == ports[j].0 == h && ports[i] != ports[j];
    }
    InjectiveSize(f);
    assert f.Keys == RowsAt(rows, h);
    SubsetSize(f.Values, marks);
  }

  /** Used slots cover the app's own messages. */
  lemma UsedCoversRunning(b: Book, app: int, h: string)
    requires Inv(b) && h in b.hosts
    ensures multiset(Decisions.Hosts(Running(b, app)))[h] <= b.hosts[h].usedSlots
  {
    var ports := Ports(Running(b, app));
    OwnedParts(b, app);
    assert HostOk(b.hosts[h], multiset{}[h]);
    MarkedSetSize(b.hosts[h].mpiPorts);
    forall i | 0 <= i < |ports| && ports[i].0 == h
      ensures ports[i].1 - MPI_BASE_PORT in MarkedSet(b.hosts[h].mpiPorts)
    {
      assert ports[i] in ports;
      assert InUse(b.hosts, ports[i]);
    }
    RowsFitMarks(Running(b, app), ports, h, MarkedSet(b.hosts[h].mpiPorts));
  }

  lemma RunningKnown(b: Book, app: int)
    requires Inv(b)
    ensures forall h :: h in Decisions.Hosts(Running(b, app)) ==> h in b.hosts
  {
    var rows := Running(b, app);
    OwnedParts(b, app);
    forall i | 0 <= i < |rows| ensures rows[i].host in b.hosts {
      assert Ports(rows)[i] in Ports(rows);
    }
  }

  /** A migration never runs out of slots: the placement the app has fits once freed. */
  lemma MigrationFits(b: Book, app: int, freq: map<string, int>)
    requires Inv(b) && forall h :: At(freq, h) == multiset(Decisions.Hosts(Running(b, app)))[h]
    ensures SomeFits(Freed(View(b.hosts), freq), |Running(b, app)|)
  {
    var p := Decisions.Hosts(Running(b, app));
    RunningKnown(b, app);
    forall h | h in p ensures h in View(b.hosts) && View(b.hosts)[h].usedSlots >= multiset(p)[h] {
      UsedCoversRunning(b, app, h);
    }
    forall h | h in View(b.hosts) ensures View(b.hosts)[h].usedSlots <= View(b.hosts)[h].slots {
      assert HostOk(b.hosts[h], multiset{}[h]);
    }
    OldPlacementFits(View(b.hosts), freq, p);
  }

  /** The scheduler's view once the rows' own slots are given back. */
  function FreedView(hosts: HostTable, rows: seq<Row>): HostMap {
    map ip | ip in hosts ::
      Host(ip, hosts[ip].slots, Max(0, hosts[ip].usedSlots - multiset(Decisions.Hosts(rows))[ip]))
  }

  lemma FreedIsView(hosts: HostTable, freq: map<string, int>, rows: seq<Row>)
    requires HostsOk(hosts, multiset{}) && forall h :: At(freq, h) == multiset(Decisions.Hosts(rows))[h]
    ensures Freed(View(hosts), freq) == FreedView(hosts, rows)
  {
    var a, b := Freed(View(hosts), freq), FreedView(hosts, rows);
    assert a.Keys == b.Keys;
    forall h | h in hosts ensures a[h] == b[h] {
      assert HostOk(hosts[h], multiset{}[h]);
      assert At(freq, h) == multiset(Decisions.Hosts(rows))[h];
    }
  }

  function Messages(rows: seq<Row>): (msgs: seq<Message>)
    ensures |msgs| == |rows|
  {
    seq(|rows|, i requires 0 <= i < |rows| => Message(rows[i].messageId, rows[i].appIdx, rows[i].groupIdx))
  }

  /** The same messages in the same places; those that keep their host keep their port. */
  predicate Moves(was: seq<Row>, rows: seq<Row>) {
    && Messages(rows) == Messages(was)
    && forall i :: 0 <= i < |rows| && rows[i].host == was[i].host ==> rows[i].mpiPort == was[i].mpiPort
  }

  /** A decision object holding the given rows. */
  method Restore(app: int, rows: seq<Row>) returns (d: SchedulingDecision)
    ensures fresh(d) && d.Complete() && d.Rows() == rows && d.hosts == Decisions.Hosts(rows) && d.appId == app
  {
    d := new SchedulingDecision(app, 0);
    for i := 0 to |rows|
      invariant fresh(d) && d.Complete() && d.Rows() == rows[..i] && d.appId == app
    {
      d.AddMessage(rows[i].host, Message(rows[i].messageId, rows[i].appIdx, rows[i].groupIdx));
      d.mpiPorts := d.mpiPorts[i := rows[i].mpiPort];
    }
    assert rows[..|rows|] == rows;
    assert forall i :: 0 <= i < |rows| ==> d.Rows()[i].host == d.hosts[i];
  }

  lemma PreloadedInFlight(b: Book)
    requires Inv(b)
    ensures forall app :: app in b.preloaded ==> app in b.inFlight
  {
    assert forall app :: app in b.preloaded ==> app in b.preloaded.Keys;
  }

  lemma SchedulerPreconditions(b: Book, app: int)
    requires Inv(b)
    ensures Named(View(b.hosts)) && "" !in View(b.hosts) && "" !in Decisions.Hosts(Running(b, app))
  {
    RunningKnown(b, app);
  }

  lemma MigrationFacts(b: Book, app: int, freq: map<string, int>)
    requires Inv(b) && app in b.inFlight && forall h :: At(freq, h) == multiset(Decisions.Hosts(b.inFlight[app]))[h]
    ensures Freed(View(b.hosts), freq) == FreedView(b.hosts, b.inFlight[app])
    ensures SomeFits(Freed(View(b.hosts), freq), |b.inFlight[app]|) == true && HostsOk(b.hosts, multiset{}) == true
  {
    FreedIsView(b.hosts, freq, b.inFlight[app]);
    MigrationFits(b, app, freq);
  }

  /** What BinPack decides can be carried out: same messages, and room for those that move. */
  lemma MoveFacts(b: Book, app: int, freq: map<string, int>, rows: seq<Row>)
    requires HostsOk(b.hosts, multiset{}) == true && app in b.inFlight
    requires forall h :: At(freq, h) == multiset(Decisions.Hosts(b.inFlight[app]))[h]
    requires FeasibleOn(Freed(View(b.hosts), freq), Decisions.Hosts(rows))
    requires Migrations.Minimised(rows, b.inFlight[app], multiset(Decisions.Hosts(rows)))
    requires Better(Decisions.Hosts(rows), Decisions.Hosts(b.inFlight[app]))
    ensures Moves(b.inFlight[app], rows) && RoomToMove(b.hosts, b.inFlight[app], rows) == true
    ensures SomeBetter(Freed(View(b.hosts), freq), Decisions.Hosts(b.inFlight[app])) == true
  {
    hide RoomToMove, HostsOk, Freed;
    FeasibleRoomToMove(b.hosts, freq, b.inFlight[app], rows);
  }

  // ---------- requests ----------

  /** The first `size` messages of a known-size app: those of the request, then placeholders. */
  function KnownSize(msgs: seq<Message>, size: nat): (r: seq<Message>)
    ensures |r| == Max(size, |msgs|) && msgs <= r
    ensures forall i :: |msgs| <= i < |r| ==> r[i] == Message(0, 0, i)
  {
    msgs + seq(Max(size, |msgs|) - |msgs|, k => Message(0, 0, |msgs| + k))
  }

  /** Row i is message i's, whatever its host and port. */
  predicate Carried(rows: seq<Row>, msgs: seq<Message>) {
    && |rows| == |msgs|
    && forall i :: 0 <= i < |rows| ==>
         rows[i] == Row(rows[i].host, msgs[i].id, msgs[i].appIdx, msgs[i].groupIdx, rows[i].mpiPort)
  }

  lemma KnownSizeRows(msgs: seq<Message>, size: nat, rows: seq<Row>)
    requires size > 0 && |msgs| == 1 && msgs[0].id != 0 && msgs[0].groupIdx == 0 && Carried(rows, KnownSize(msgs, size))
    ensures PreloadOk(rows) && forall i :: 0 < i < |rows| ==> rows[i].messageId != rows[0].messageId
  {
  }

  lemma StillCarried(rows: seq<Row>, decision: seq<Row>, msgs: seq<Message>)
    requires Carried(decision, msgs) && SameButPorts(rows, decision)
    ensures Carried(rows, msgs) && Decisions.Hosts(rows) == Decisions.Hosts(decision)
  {
  }

  lemma SoundMeans(b: Book, b': Book, app: int)
    requires Sound(b, b', app)
    ensures Inv(b') && (Exact(b) ==> Exact(b'))
  {
  }

  /** An app starts: its rows carry the request's messages, padded to its known size, on an optimal choice of
      hosts. All are in flight, or the first with all in reserve if the size was known. */
  ghost predicate Began(b: Book, b': Book, app: int, msgs: seq<Message>, size: nat, rows: seq<Row>) {
    && Carried(rows, KnownSize(msgs, size)) && (size > 0 ==> |rows| > 0)
    && Optimal(View(b.hosts), Decisions.Hosts(rows)) && RoomiestFirst(View(b.hosts), Decisions.Hosts(rows))
    && b'.inFlight == b.inFlight[app := if size > 0 then [rows[0]] else rows]
    && b'.preloaded == if size > 0 then b.preloaded[app := rows] else b.preloaded
  }

  /** An app grows: rows that carry the request's messages are added. They sit where they were reserved, by
      group index, or else on hosts with room, those with most of the app's messages first. */
  ghost predicate Grew(b: Book, b': Book, app: int, msgs: seq<Message>, rows: seq<Row>) {
    && Carried(rows, msgs) && app in b.inFlight
    && b'.inFlight == b.inFlight[app := b.inFlight[app] + rows] && b'.preloaded == b.preloaded - {app}
    && if app in b.preloaded then b'.hosts == b.hosts && AtReserved(msgs, b.preloaded[app], rows)
       else OwnHostsFirst(View(b.hosts), multiset(Decisions.Hosts(b.inFlight[app])), Decisions.Hosts(rows))
  }

  /** Row i has the host and port of the reserved row that message i's group index names. */
  predicate AtReserved(msgs: seq<Message>, pre: seq<Row>, rows: seq<Row>) {
    |rows| == |msgs| && forall i :: 0 <= i < |rows| ==>
      && 0 <= msgs[i].groupIdx < |pre|
      && rows[i].host == pre[msgs[i].groupIdx].host && rows[i].mpiPort == pre[msgs[i].groupIdx].mpiPort
  }

  /** An app moves: the same messages on a best placement of the hosts without them, as many as possible
      staying where they are. */
  ghost predicate Relocated(b: Book, b': Book, app: int, rows: seq<Row>) {
    && app in b.inFlight && Moves(b.inFlight[app], rows)
    && Optimal(FreedView(b.hosts, b.inFlight[app]), Decisions.Hosts(rows))
    && Better(Decisions.Hosts(rows), Decisions.Hosts(b.inFlight[app]))
    && KeepsMost(Decisions.Hosts(b.inFlight[app]), Decisions.Hosts(rows))
    && b'.inFlight == b.inFlight[app := rows] && b'.preloaded == b.preloaded
  }

  /** As many messages stay on their host as the two histograms have in common. */
  ghost predicate KeepsMost(was: Placement, now: Placement) {
    |was| == |now| && Migrations.Kept(now, was) == |multiset(was) * multiset(now)|
  }

  lemma MinimisedKeepsMost(rows: seq<Row>, was: seq<Row>)
    requires Migrations.Minimised(rows, was, multiset(Decisions.Hosts(rows)))
    ensures KeepsMost(Decisions.Hosts(was), Decisions.Hosts(rows))
  {
  }

  /** Some placement on the hosts without the app's messages is better than the one it has. */
  ghost predicate CanImprove(b: Book, app: int)
    requires app in b.inFlight
  {
    SomeBetter(FreedView(b.hosts, b.inFlight[app]), Decisions.Hosts(b.inFlight[app]))
  }

  datatype Answer = NoSlots | NoMigration | Accepted(rows: seq<Row>)

  class Planner {
    var hostMap: HostTable
    var inFlight: map<int, seq<Row>>
    var preloaded: map<int, seq<Row>>
    var appResults: map<int, set<int>>
    var evictedRequests: set<int>

    ghost function Books(): Book
      reads this
    {
      Book(hostMap, inFlight, preloaded)
    }

    constructor ()
      ensures Books() == Book(map[], map[], map[]) && Inv(Books()) && Exact(Books())
      ensures appResults == map[] && evictedRequests == {}
    {
      hostMap, inFlight, preloaded, appResults, evictedRequests := map[], map[], map[], map[], {};
      new;
      forall app ensures AppOk(Books(), app) {}
    }

    /** A host registers with all its slots free; one that is known is left alone. */
    method RegisterHost(ip: string, slots: int) returns (ok: bool)
      requires Inv(Books()) && ip != ""
      modifies this`hostMap
      ensures ok <==> slots >= 0
      ensures Happens(old(Books()), if ok && ip !in old(hostMap) then Register(ip, slots) else Nothing, Books())
      ensures Inv(Books()) && (old(Exact(Books())) ==> Exact(Books()))
    {
      if slots < 0 { return false; }
      ok := true;
      if ip !in hostMap {
        var ports: seq<bool> := [];
        for i := 0 to slots
          invariant ports == seq(i, _ => false)
        {
          ports := ports + [false];
        }
        hostMap := hostMap[ip := HostEntry(slots, 0, ports)];
        RegisterKeepsInv(old(Books()), Books(), ip, slots);
      }
    }

    // ---------- slots and ports of one host ----------

    method ClaimHostSlots(ip: string)
      requires ip in hostMap
      modifies this`hostMap
      ensures hostMap == ClaimSlot(old(hostMap), ip)
    {
      hostMap := hostMap[ip := hostMap[ip].(usedSlots := hostMap[ip].usedSlots + 1)];
    }

    method ReleaseHostSlots(ip: string)
      requires ip in hostMap
      modifies this`hostMap
      ensures hostMap == ReleaseSlot(old(hostMap), ip)
    {
      hostMap := hostMap[ip := hostMap[ip].(usedSlots := hostMap[ip].usedSlots - 1)];
    }

    /** Takes the lowest free port; None stands for the exception thrown when there is none. */
    method ClaimHostMpiPort(ip: string) returns (port: Option<int>)
      requires ip in hostMap
      modifies this`hostMap
      ensures port.None? <==> forall k :: 0 <= k < |old(hostMap[ip].mpiPorts)| ==> old(hostMap[ip].mpiPorts)[k]
      ensures port.None? ==> hostMap == old(hostMap)
      ensures port.Some? ==>
                && IsPort(old(hostMap), (ip, port.value)) && !InUse(old(hostMap), (ip, port.value))
                && (forall q :: MPI_BASE_PORT <= q < port.value ==> InUse(old(hostMap), (ip, q)))
                && hostMap == MarkPort(old(hostMap), (ip, port.value), true)
    {
      var e := hostMap[ip];
      for i := 0 to |e.mpiPorts|
        invariant hostMap == old(hostMap)
        invariant forall k :: 0 <= k < i ==> e.mpiPorts[k]
      {
        if !e.mpiPorts[i] {
          hostMap := hostMap[ip := e.(mpiPorts := e.mpiPorts[i := true])];
          return Some(MPI_BASE_PORT + i);
        }
      }
      port := None;
    }

    /** Frees a port; false stands for the exception thrown when the host has no such port. */
    method ReleaseHostMpiPort(ip: string, mpiPort: int) returns (ok: bool)
      requires ip in hostMap
      modifies this`hostMap
      ensures ok <==> IsPort(old(hostMap), (ip, mpiPort))
      ensures hostMap == if ok then MarkPort(old(hostMap), (ip, mpiPort), false) else old(hostMap)
    {
      var e := hostMap[ip];
      for i := 0 to |e.mpiPorts|
        invariant hostMap == old(hostMap)
        invariant !(MPI_BASE_PORT <= mpiPort < MPI_BASE_PORT + i)
      {
        if MPI_BASE_PORT + i == mpiPort {
          hostMap := hostMap[ip := e.(mpiPorts := e.mpiPorts[i := false])];
          return true;
        }
      }
      ok := false;
    }

    /** Claims one slot, then one port: with a slot to spare, neither fails. */
    method ClaimBoth(ip: string) returns (port: int)
      requires HostsOk(hostMap, multiset{}) && ip in hostMap && hostMap[ip].usedSlots < hostMap[ip].slots
      modifies this`hostMap
      ensures HostsOk(hostMap, multiset{}) && OneMoreUsed(old(hostMap), hostMap, ip, 1)
      ensures (ip, port) !in old(Taken(hostMap)) && Taken(hostMap) == old(Taken(hostMap)) + iset{(ip, port)}
    {
      SlotClaimed(hostMap, multiset{}, ip);
      ClaimHostSlots(ip);
      PortAvailable(hostMap, multiset{ip}, ip);
      ghost var mid := hostMap;
      var p := ClaimHostMpiPort(ip);
      assert p.Some?;
      port := p.value;
      PortClaimed(mid, multiset{ip}, (ip, port));
      assert multiset{ip} - multiset{ip} == multiset{};
    }

    method ReleaseBoth(ip: string, mpiPort: int)
      requires HostsOk(hostMap, multiset{}) && InUse(hostMap, (ip, mpiPort))
      modifies this`hostMap
      ensures HostsOk(hostMap, multiset{}) && OneMoreUsed(old(hostMap), hostMap, ip, -1)
      ensures Taken(hostMap) == old(Taken(hostMap)) - iset{(ip, mpiPort)}
    {
      Released(hostMap, (ip, mpiPort));
      ReleaseHostSlots(ip);
      var ok := ReleaseHostMpiPort(ip, mpiPort);
    }

    // ---------- a new app ----------

    /** One turn of the claiming loop: the next row gets a slot and a port. */
    method ClaimRow(decision: seq<Row>, rows: seq<Row>, ghost start: HostTable) returns (row: Row)
      requires |rows| < |decision| && Claiming(start, hostMap, decision, rows) == true
      modifies this`hostMap
      ensures Claiming(start, hostMap, decision, rows + [row]) == true
    {
      ghost var before := hostMap;
      ghost var need := HostsFrom(decision, |rows| + 1);
      row := decision[|rows|];
      assert row.host in multiset{row.host} + need;
      var port := ClaimBoth(row.host);
      RoomAfterClaim(before, hostMap, row.host, need);
      NewPortsSnoc(start, before, hostMap, Ports(rows), (row.host, port));
      row := row.(mpiPort := port);
      assert Ports(rows + [row]) == Ports(rows) + [(row.host, port)];
    }

    /** Claims a slot and a port for every row of a decision. */
    method ClaimRows(decision: seq<Row>) returns (rows: seq<Row>)
      requires HostsOk(hostMap, multiset{}) && HasRoom(hostMap, HostsFrom(decision, 0))
      modifies this`hostMap
      ensures HostsOk(hostMap, multiset{}) && SameShape(old(hostMap), hostMap)
      ensures SameButPorts(rows, decision) && NewPorts(old(hostMap), hostMap, Ports(rows))
    {
      rows := [];
      for i := 0 to |decision|
        invariant |rows| == i && Claiming(old(hostMap), hostMap, decision, rows) == true
      {
        var row := ClaimRow(decision, rows, old(hostMap));
        rows := rows + [row];
      }
    }

    /** callBatch for an app that is not in flight. A known-size (MPI or OpenMP) app claims slots and
        ports for its whole size; all rows but the first are set aside for its scale change. */
    method ScheduleNew(app: int, decision: seq<Row>, known: bool) returns (rows: seq<Row>)
      requires Inv(Books()) == true && app !in inFlight && HasRoom(hostMap, HostsFrom(decision, 0)) == true
      requires known ==>
                 && PreloadOk(decision)
                 && forall i :: 0 < i < |decision| ==> decision[i].messageId != decision[0].messageId
      modifies this`hostMap, this`inFlight, this`preloaded
      ensures Sound(old(Books()), Books(), app) == true
      ensures Happens(old(Books()), Start(app, rows, known), Books()) == true
      ensures SameButPorts(rows, decision) && Owned(Books(), app) == Ports(rows)
      ensures inFlight == old(inFlight)[app := if known then [rows[0]] else rows]
      ensures preloaded == if known then old(preloaded)[app := rows] else old(preloaded)
    {
      rows := ClaimRows(decision);
      var kept := rows;
      if known {
        preloaded := preloaded[app := rows];
        kept := KeepFirst(rows);
      }
      inFlight := inFlight[app := kept];
      NewHappens(old(Books()), Books(), app, rows, known);
      hide Starts;
    }

    // ---------- a growing app ----------

    /** Claims a slot for every row, before any port. */
    method ClaimSlots(decision: seq<Row>)
      requires HostsOk(hostMap, multiset{}) && HasRoom(hostMap, HostsFrom(decision, 0))
      modifies this`hostMap
      ensures HostsOk(hostMap, HostsFrom(decision, 0)) && SameShape(old(hostMap), hostMap)
      ensures Taken(hostMap) == old(Taken(hostMap))
    {
      ghost var owed: multiset<string> := multiset{};
      for i := 0 to |decision|
        invariant owed + HostsFrom(decision, i) == HostsFrom(decision, 0)
        invariant Slotting(old(hostMap), hostMap, decision, i, owed) == true
      {
        SlottingStep(old(hostMap), hostMap, decision, i, owed);
        ClaimHostSlots(decision[i].host);
        owed := owed + multiset{decision[i].host};
      }
      assert owed == HostsFrom(decision, 0);
    }

    /** A port for every row whose slot is claimed. */
    method ClaimPorts(decision: seq<Row>) returns (rows: seq<Row>)
      requires HostsOk(hostMap, HostsFrom(decision, 0)) && HasHosts(hostMap, decision)
      modifies this`hostMap
      ensures HostsOk(hostMap, multiset{}) && SameShape(old(hostMap), hostMap)
      ensures SameButPorts(rows, decision) && NewPorts(old(hostMap), hostMap, Ports(rows))
    {
      rows := [];
      for i := 0 to |decision|
        invariant |rows| == i && Porting(old(hostMap), hostMap, decision, rows) == true
      {
        var row := ClaimPort(decision, rows, old(hostMap));
        rows := rows + [row];
      }
    }

    method ClaimPort(decision: seq<Row>, rows: seq<Row>, ghost start: HostTable) returns (row: Row)
      requires |rows| < |decision| && Porting(start, hostMap, decision, rows) == true
      modifies this`hostMap
      ensures Porting(start, hostMap, decision, rows + [row]) == true
    {
      row := decision[|rows|];
      PortAvailable(hostMap, HostsFrom(decision, |rows|), row.host);
      ghost var before := hostMap;
      var port := ClaimHostMpiPort(row.host);
      row := row.(mpiPort := port.value);
      PortingStep(start, before, decision, rows, row);
    }

    /** callBatch for an app in flight that adds messages and has nothing preloaded. */
    method ScheduleMore(app: int, decision: seq<Row>) returns (rows: seq<Row>)
      requires Inv(Books()) == true && app in inFlight && app !in preloaded
               && HasRoom(hostMap, HostsFrom(decision, 0)) == true
      modifies this`hostMap, this`inFlight
      ensures Sound(old(Books()), Books(), app) == true
      ensures Happens(old(Books()), Grow(app, rows), Books()) == true
      ensures SameButPorts(rows, decision) && inFlight == old(inFlight)[app := old(inFlight)[app] + rows]
      ensures Owned(Books(), app) == old(Owned(Books(), app)) + Ports(rows)
    {
      RoomKnowsHosts(hostMap, decision);
      ClaimSlots(decision);
      rows := ClaimPorts(decision);
      inFlight := inFlight[app := inFlight[app] + rows];
      NewPortsEffect(old(hostMap), hostMap, rows);
      GrowIsSound(old(Books()), Books(), app, rows);
    }

    /** callBatch for the scale change of a known-size app: its slots and ports were claimed when it
        started. Reserved rows that no message asks for are forgotten, and their slots leak. */
    method ConsumePreloaded(app: int, msgs: seq<Message>) returns (rows: seq<Row>)
      requires Inv(Books()) == true && app in preloaded && AsksFor(msgs, preloaded[app])
      modifies this`inFlight, this`preloaded
      ensures Inv(Books()) == true && Replaces(old(Books()), Books(), app)
      ensures Happens(old(Books()), Scale(app, msgs), Books())
      ensures rows == Consumed(msgs, old(preloaded)[app])
      ensures inFlight == old(inFlight)[app := old(inFlight)[app] + rows] && preloaded == old(preloaded) - {app}
      ensures old(Exact(Books())) ==> (Exact(Books()) <==> |msgs| == |old(preloaded)[app]| - 1)
    {
      var found := GetPreloadedSchedulingDecision(app, msgs);
      rows := UnderOwnIndexes(msgs, found, preloaded[app]);
      preloaded := preloaded - {app};
      inFlight := inFlight[app := inFlight[app] + rows];
      ConsumeLedger(old(Books()), Books(), app, msgs);
    }

    method GetPreloadedSchedulingDecision(app: int, msgs: seq<Message>) returns (rows: seq<Row>)
      requires app in preloaded && PreloadOk(preloaded[app]) && AsksFor(msgs, preloaded[app])
      ensures rows == Filtered(msgs, preloaded[app])
    {
      var pre := preloaded[app];
      rows := [];
      for i := 0 to |msgs|
        invariant rows == Filtered(msgs, pre)[..i]
      {
        var k := 0;
        while k < |pre| && pre[k].groupIdx != msgs[i].groupIdx
          invariant 0 <= k <= msgs[i].groupIdx
        {
          k := k + 1;
        }
        rows := rows + [Row(pre[k].host, msgs[i].id, pre[k].appIdx, pre[k].groupIdx, pre[k].mpiPort)];
      }
      assert Filtered(msgs, pre)[..|msgs|] == Filtered(msgs, pre);
    }

    /** The rows as they are added to the app's decision, with the messages' app indexes. */
    method UnderOwnIndexes(msgs: seq<Message>, found: seq<Row>, ghost pre: seq<Row>) returns (rows: seq<Row>)
      requires AsksFor(msgs, pre) && found == Filtered(msgs, pre)
      ensures rows == Consumed(msgs, pre)
    {
      rows := [];
      for i := 0 to |msgs|
        invariant rows == Consumed(msgs, pre)[..i]
      {
        rows := rows + [Row(found[i].host, msgs[i].id, msgs[i].appIdx, msgs[i].groupIdx, found[i].mpiPort)];
      }
      assert Consumed(msgs, pre)[..|msgs|] == Consumed(msgs, pre);
    }

    // ---------- a migrating app ----------

    /** Gives back slot and port of every row that changes host. */
    method ReleaseMoved(was: seq<Row>, now: seq<Row>)
      requires |was| == |now| && HostsOk(hostMap, multiset{}) && Distinct(Ports(was))
      requires forall p :: p in Ports(was) ==> p in Taken(hostMap)
      modifies this`hostMap
      ensures Leaving(old(hostMap), hostMap, was, now, |was|) == true
    {
      for i := 0 to |was|
        invariant Leaving(old(hostMap), hostMap, was, now, i) == true
      {
        ghost var before := hostMap;
        if now[i].host != was[i].host {
          NotYetMoved(was, now, i);
          assert Ports(was)[i] in Ports(was);
          assert Ports(was)[i] in Taken(before);
          ReleaseBoth(was[i].host, was[i].mpiPort);
        }
        LeavingStep(old(hostMap), before, hostMap, was, now, i);
      }
    }

    method ClaimMoved(was: seq<Row>, now: seq<Row>) returns (rows: seq<Row>)
      requires |was| == |now| && HostsOk(hostMap, multiset{}) && Distinct(Ports(was))
      requires HasRoom(hostMap, Incoming(was, now, 0))
      requires forall k :: 0 <= k < |was| && was[k].host == now[k].host ==> Ports(was)[k] in Taken(hostMap)
      modifies this`hostMap
      ensures |rows| == |now| && Arriving(old(hostMap), hostMap, was, now, rows) == true
    {
      rows := [];
      for i := 0 to |now|
        invariant |rows| == i && Arriving(old(hostMap), hostMap, was, now, rows) == true
      {
        ghost var before := hostMap;
        var row;
        if now[i].host != was[i].host {
          assert now[i].host in Incoming(was, now, i);
          var port := ClaimBoth(now[i].host);
          row := now[i].(mpiPort := port);
          MoveStep(old(hostMap), before, hostMap, was, now, rows, row);
        } else {
          row := now[i].(mpiPort := was[i].mpiPort);
          StayStep(old(hostMap), hostMap, was, now, rows, row);
        }
        rows := rows + [row];
      }
    }

    method MoveRows(was: seq<Row>, now: seq<Row>) returns (rows: seq<Row>, ghost mid: HostTable)
      requires |was| == |now| && HostsOk(hostMap, multiset{}) && Distinct(Ports(was)) && RoomToMove(hostMap, was, now)
      requires forall p :: p in Ports(was) ==> p in Taken(hostMap)
      modifies this`hostMap
      ensures Leaving(old(hostMap), mid, was, now, |was|) == true
      ensures |rows| == |now| && Arriving(mid, hostMap, was, now, rows) == true
    {
      hide RoomToMove, Leaving, Arriving, HasRoom, HostsOk;
      ReleaseMoved(was, now);
      mid := hostMap;
      RoomForArrivals(old(hostMap), mid, was, now);
      StayersHeld(old(hostMap), mid, was, now);
      rows := ClaimMoved(was, now);
    }

    /** callBatch for a migration: moved rows give back slot and port before the new ones are claimed. */
    method ScheduleMove(app: int, decision: seq<Row>) returns (rows: seq<Row>)
      requires Inv(Books()) == true && app in inFlight && |decision| == |inFlight[app]|
      requires RoomToMove(hostMap, inFlight[app], decision)
      modifies this`hostMap, this`inFlight
      ensures Sound(old(Books()), Books(), app) == true
      ensures Happens(old(Books()), Move(app, rows), Books()) == true
      ensures SameButPorts(rows, decision) && inFlight == old(inFlight)[app := rows]
      ensures forall k :: 0 <= k < |rows| && old(inFlight)[app][k].host == decision[k].host ==>
                rows[k].mpiPort == old(inFlight)[app][k].mpiPort
    {
      hide Inv, MovesTo, Sound, RoomToMove, Leaving, Arriving, HostsOk, Distinct;
      var was := inFlight[app];
      MoversHeld(Books(), app);
      ghost var mid;
      rows, mid := MoveRows(was, decision);
      inFlight := inFlight[app := rows];
      ArrivedRows(mid, hostMap, was, decision, rows);
      MigrateHappens(old(Books()), mid, Books(), app, decision, rows);
      MoveIsSound(old(Books()), Books(), app, rows);
    }

    // ---------- results ----------

    predicate ResultKnown(app: int, id: int)
      reads this`appResults
    {
      app in appResults && id in appResults[app]
    }

    /** Takes the message off the books and gives back its slot and port. */
    method ReleaseMessage(app: int, id: int, executedHost: string)
      requires Inv(Books()) == true && FirstReport(Running(Books(), app), id, executedHost, false)
      modifies this`hostMap, this`inFlight, this`preloaded
      ensures app in old(inFlight) && Finishes(old(Books()), Books(), app, IndexOf(old(inFlight)[app], id)) == true
      ensures Happens(old(Books()), Finish(app, IndexOf(old(inFlight)[app], id)), Books()) == true
      ensures Inv(Books()) == true
      ensures old(Exact(Books())) ==>
                (Exact(Books()) <==> app in inFlight || old(Reserved(Books(), app)) == [])
    {
      hide Inv, Exact, Ends, HostsOk, InUse;
      var rows := inFlight[app];
      var k := IndexOf(rows, id);
      HeldPort(Books(), app, k);
      ReleaseBoth(executedHost, rows[k].mpiPort);
      rows := Without(rows, k);
      if rows == [] {
        inFlight := inFlight - {app};
        preloaded := preloaded - {app};
      } else {
        inFlight := inFlight[app := rows];
      }
      FinishHappens(old(Books()), Books(), app, k);
    }

    /** callBatch when the policy answers that the app must freeze: the app is only noted as evicted. Its
        messages leave the books one by one, when they report that they froze. */
    method Freeze(app: int)
      requires app in inFlight
      modifies this`evictedRequests
      ensures evictedRequests == old(evictedRequests) + {app}
    {
      evictedRequests := evictedRequests + {app};
    }

    /** A message reports its result, or that it froze: its row, slot and port are given back. False
        stands for the exception thrown for a frozen message of an app that was not evicted. */
    method SetMessageResult(app: int, id: int, executedHost: string, migrated: bool, frozen: bool) returns (ok: bool)
      requires Inv(Books()) == true
      requires migrated || (frozen && app !in evictedRequests)
               || FirstReport(Running(Books(), app), id, executedHost, ResultKnown(app, id) && !frozen)
      modifies this`hostMap, this`inFlight, this`preloaded, this`appResults
      ensures ok <==> migrated || !frozen || app in evictedRequests
      ensures ok && !migrated && (frozen || app !in old(appResults) || id !in old(appResults)[app]) ==>
                Happens(old(Books()), Finish(app, IndexOf(Running(old(Books()), app), id)), Books()) == true
      ensures !ok || migrated || (!frozen && old(ResultKnown(app, id))) ==> Books() == old(Books())
      ensures Inv(Books()) == true
      ensures ok && !migrated ==> ResultKnown(app, id) == (old(ResultKnown(app, id)) || !frozen)
      ensures appResults == if !ok || migrated || frozen then old(appResults)
                            else old(appResults)[app := (if app in old(appResults) then old(appResults)[app] else {})
                                                        + {id}]
      ensures old(Exact(Books())) ==>
                (Exact(Books()) <==> Books() == old(Books()) || app in inFlight || old(Reserved(Books(), app)) == [])
    {
      if migrated { return true; }
      if frozen && app !in evictedRequests { return false; }
      ok := true;
      var known := ResultKnown(app, id);
      if !frozen {
        appResults := appResults[app := (if app in appResults then appResults[app] else {}) + {id}];
      }
      if known && !frozen { return; }
      ReleaseMessage(app, id, executedHost);
    }

    // ---------- callBatch ----------

    /** Places messages on free slots by the BinPack policy. */
    method AskScheduler(kind: DecisionType, old_: seq<Row>, app: int, msgs: seq<Message>) returns (r: Option<seq<Row>>)
      requires Inv(Books()) == true && !kind.DistChange?
      ensures r.None? <==> !SomeFits(View(hostMap), |msgs|)
      ensures r.Some? ==>
                && Carried(r.value, msgs) && HasRoom(hostMap, HostsFrom(r.value, 0)) == true
                && (kind.New? ==>
                      && Optimal(View(hostMap), Decisions.Hosts(r.value)) == true
                      && RoomiestFirst(View(hostMap), Decisions.Hosts(r.value)) == true)
                && (kind.ScaleChange? ==>
                      OwnHostsFirst(View(hostMap), multiset(Decisions.Hosts(old_)), Decisions.Hosts(r.value)) == true)
    {
      hide Optimal, RoomiestFirst, OwnHostsFirst, SomeFits;
      var verdict := ScheduleMessages(View(hostMap), Decisions.Hosts(old_), kind, app, msgs, false);
      if verdict.NotEnoughSlots? { return None; }
      var d := verdict.decision;
      var rows := Zip(d.hosts, d.messageIds, d.appIdxs, d.groupIdxs, d.mpiPorts);
      assert Decisions.Hosts(rows) == d.hosts;
      FeasibleHasRoom(hostMap, rows);
      r := Some(rows);
    }

    /** An app that is not in flight. An MPI or OpenMP one is placed and paid for in full. */
    method CallNew(app: int, msgs: seq<Message>, size: nat) returns (r: Answer, ghost e: Event)
      requires Inv(Books()) == true && app !in inFlight
      requires size > 0 ==> |msgs| == 1 && msgs[0].id != 0 && msgs[0].groupIdx == 0
      modifies this`hostMap, this`inFlight, this`preloaded
      ensures Happens(old(Books()), e, Books()) == true
      ensures Inv(Books()) == true && (old(Exact(Books())) ==> Exact(Books()))
      ensures r.NoSlots? <==> !SomeFits(View(old(hostMap)), Max(size, |msgs|))
      ensures if r.NoSlots? then Books() == old(Books()) && e == Nothing
              else r.Accepted? && Began(old(Books()), Books(), app, msgs, size, r.rows) == true
                   && Owned(Books(), app) == Ports(r.rows) && e == Start(app, r.rows, size > 0)
    {
      hide Inv, Exact, Replaces, Optimal, RoomiestFirst, SomeFits;
      var all := KnownSize(msgs, size);
      var decision := AskScheduler(New, [], app, all);
      if decision.None? { return NoSlots, Nothing; }
      if size > 0 { KnownSizeRows(msgs, size, decision.value); }
      hide Happens, Carried, KnownSize, PreloadOk, SameButPorts, Sound;
      var rows := ScheduleNew(app, decision.value, size > 0);
      StillCarried(rows, decision.value, all);
      SoundMeans(old(Books()), Books(), app);
      r, e := Accepted(rows), Start(app, rows, size > 0);
    }

    /** An app in flight that grows, from its reserve if it has one. */
    method CallScale(app: int, msgs: seq<Message>) returns (r: Answer, ghost e: Event)
      requires Inv(Books()) == true && app in inFlight && (app in preloaded ==> AsksFor(msgs, preloaded[app]))
      modifies this`hostMap, this`inFlight, this`preloaded
      ensures Happens(old(Books()), e, Books()) == true
      ensures Inv(Books()) == true
      ensures old(Exact(Books())) ==>
                (Exact(Books()) <==> app !in old(preloaded) || |msgs| == |old(preloaded)[app]| - 1)
      ensures r.NoSlots? <==> app !in old(preloaded) && !SomeFits(View(old(hostMap)), |msgs|)
      ensures if r.NoSlots? then Books() == old(Books()) && e == Nothing
              else r.Accepted? && Grew(old(Books()), Books(), app, msgs, r.rows) == true
                   && e == if app in old(preloaded) then Scale(app, msgs) else Grow(app, r.rows)
    {
      hide Inv, Exact, Replaces, OwnHostsFirst, SomeFits;
      var rows;
      if app in preloaded {
        rows := ConsumePreloaded(app, msgs);
        e := Scale(app, msgs);
      } else {
        var decision := AskScheduler(ScaleChange, inFlight[app], app, msgs);
        if decision.None? { return NoSlots, Nothing; }
        rows := ScheduleMore(app, decision.value);
        assert Decisions.Hosts(rows) == Decisions.Hosts(decision.value);
        e := Grow(app, rows);
      }
      r := Accepted(rows);
    }

    /** A better placement of the app's messages, if the BinPack policy finds one. */
    method AskMigration(app: int) returns (r: Option<seq<Row>>)
      requires Inv(Books()) == true && app in inFlight
      ensures r.Some? <==> SomeBetter(FreedView(hostMap, inFlight[app]), Decisions.Hosts(inFlight[app])) == true
      ensures r.Some? ==>
                && Moves(inFlight[app], r.value) && RoomToMove(hostMap, inFlight[app], r.value) == true
                && Better(Decisions.Hosts(r.value), Decisions.Hosts(inFlight[app]))
                && KeepsMost(Decisions.Hosts(inFlight[app]), Decisions.Hosts(r.value)) == true
                && Optimal(FreedView(hostMap, inFlight[app]), Decisions.Hosts(r.value)) == true
    {
      hide Inv, Exact, Optimal, SomeFits, SomeBetter, FeasibleOn, Migrations.Minimised, FreedView, Freed, RoomToMove;
      var was := inFlight[app];
      var d := Restore(app, was);
      SchedulerPreconditions(Books(), app);
      var verdict, freed, freq := ScheduleMigration(View(hostMap), d, app, Messages(was), false);
      MigrationFacts(Books(), app, freq);
      if !verdict.Scheduled? { return None; }
      var m := verdict.decision;
      var rows := Zip(m.hosts, m.messageIds, m.appIdxs, m.groupIdxs, m.mpiPorts);
      assert Decisions.Hosts(rows) == m.hosts;
      MoveFacts(Books(), app, freq, rows);
      MinimisedKeepsMost(rows, was);
      r := Some(rows);
    }

    /** An app in flight asks whether it should migrate: it does iff some placement that fits is better
        than the one it has, and then it moves to a best one. */
    method CallMigrate(app: int) returns (r: Answer, ghost e: Event)
      requires Inv(Books()) == true && app in inFlight
      modifies this`hostMap, this`inFlight
      ensures Happens(old(Books()), e, Books()) == true
      ensures Inv(Books()) == true && (old(Exact(Books())) ==> Exact(Books()))
      ensures r.Accepted? <==> CanImprove(old(Books()), app) == true
      ensures if r.Accepted? then Relocated(old(Books()), Books(), app, r.rows) == true && e == Move(app, r.rows)
              else r.NoMigration? && Books() == old(Books()) && e == Nothing
    {
      hide Inv, Exact, Replaces, Optimal, SomeBetter, KeepsMost, Better;
      var now := AskMigration(app);
      if now.None? { return NoMigration, Nothing; }
      hide Happens;
      var rows := ScheduleMove(app, now.value);
      assert Decisions.Hosts(rows) == Decisions.Hosts(now.value);
      r, e := Accepted(rows), Move(app, rows);
    }

    /** callBatch: start, grow or migrate an app, whichever the request calls for. Nothing it does can
        run out of ports or break the books. */
    method CallBatch(app: int, msgs: seq<Message>, size: nat, isMigration: bool) returns (r: Answer, ghost e: Event)
      requires Inv(Books()) == true
      requires app !in inFlight && size > 0 ==> |msgs| == 1 && msgs[0].id != 0 && msgs[0].groupIdx == 0
      requires app in preloaded && !isMigration ==> AsksFor(msgs, preloaded[app])
      modifies this`hostMap, this`inFlight, this`preloaded
      ensures Happens(old(Books()), e, Books()) == true
      ensures Inv(Books()) == true
      ensures !r.Accepted? ==> Books() == old(Books()) && e == Nothing
      ensures app !in old(inFlight) && r.Accepted? ==>
                Began(old(Books()), Books(), app, msgs, size, r.rows) == true && e == Start(app, r.rows, size > 0)
      ensures app in old(inFlight) && !isMigration && r.Accepted? ==>
                && Grew(old(Books()), Books(), app, msgs, r.rows) == true
                && e == if app in old(preloaded) then Scale(app, msgs) else Grow(app, r.rows)
      ensures app in old(inFlight) && isMigration ==> (r.Accepted? <==> CanImprove(old(Books()), app) == true)
      ensures app in old(inFlight) && isMigration && r.Accepted? ==>
                Relocated(old(Books()), Books(), app, r.rows) == true && e == Move(app, r.rows)
      ensures r.NoMigration? <==> app in old(inFlight) && isMigration && !r.Accepted?
      ensures r.NoSlots? <==>
                && !(app in old(inFlight) && (isMigration || app in old(preloaded)))
                && !SomeFits(View(old(hostMap)), if app in old(inFlight) then |msgs| else Max(size, |msgs|))
      ensures old(Exact(Books())) ==>
                (Exact(Books()) <==> isMigration || app !in old(preloaded) || |msgs| == |old(preloaded)[app]| - 1)
    {
      hide Inv, Exact, Replaces, Happens, Began, Grew, Relocated, CanImprove, SomeFits;
      match GetDecisionType(inFlight.Keys, app, isMigration)
      case New =>
        PreloadedInFlight(Books());
        r, e := CallNew(app, msgs, size);
      case ScaleChange => r, e := CallScale(app, msgs);
      case DistChange => r, e := CallMigrate(app);
    }
  }

  method OneHost(ip: string, slots: nat) returns (planner: Planner)
    requires ip != ""
    ensures fresh(planner) && planner.appResults == map[] && planner.inFlight == map[] && planner.preloaded == map[]
    ensures Inv(planner.Books()) == true && Exact(planner.Books()) == true
    ensures planner.hostMap.Keys == {ip} && planner.hostMap[ip].slots == slots && planner.hostMap[ip].usedSlots == 0
  {
    planner := new Planner();
    hide Inv, Exact;
    var ok := planner.RegisterHost(ip, slots);
  }

  /** A two-rank app on a host with two slots: one message runs, the other's slot is in reserve. */
  method StartTwo(ip: string, app: int, id: int) returns (planner: Planner, row: Row)
    requires ip != "" && id != 0
    ensures fresh(planner) && planner.appResults == map[]
    ensures Inv(planner.Books()) == true && Exact(planner.Books()) == true
    ensures planner.inFlight == map[app := [row]] && row.messageId == id
    ensures planner.preloaded.Keys == {app} && |planner.preloaded[app]| == 2
  {
    hide Inv, Exact, Optimal, SomeFits, Happens;
    planner := OneHost(ip, 2);
    TwoFit(planner.hostMap, ip);
    var r, e := planner.CallNew(app, [Message(id, 0, 0)], 2);
    row := r.rows[0];
  }

  /** If it ends before its scale change, a slot stays used that no message holds. */
  method EndBeforeScaling(ip: string, app: int, id: int) returns (planner: Planner)
    requires ip != "" && id != 0
    ensures fresh(planner) && planner.inFlight == map[] && planner.preloaded == map[]
    ensures Inv(planner.Books()) == true && !Exact(planner.Books())
  {
    hide Inv, Exact, Effect;
    var row;
    planner, row := StartTwo(ip, app, id);
    ghost var b := planner.Books();
    assert IndexOf([row], id) == 0;
    assert Running(b, app) == [row] && |Reserved(b, app)| == 1;
    var done := planner.SetMessageResult(app, id, row.host, false, false);
    assert Ends(b, planner.Books(), app, 0);
  }

  lemma TwoFit(hosts: HostTable, ip: string)
    requires hosts.Keys == {ip} && hosts[ip].slots == 2 && hosts[ip].usedSlots == 0
    ensures SomeFits(View(hosts), 2)
  {
    var p := [ip, ip];
    assert FeasibleOn(View(hosts), p) && |p| == 2;
  }
}
