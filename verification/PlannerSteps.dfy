/** What each kind of planner call does to the books: starting, growing, migrating and finishing an
    app each change only that app's holdings. */
module PlannerSteps {
  import opened Placement
  import opened Decisions
  import opened PlannerLedger

  // ---------- capacity ----------

  ghost predicate HasRoom(hosts: HostTable, need: multiset<string>) {
    forall h :: h in need ==> h in hosts && hosts[h].usedSlots + need[h] <= hosts[h].slots
  }

  /** Ports that were free before and are the only newly marked ones. */
  ghost predicate NewPorts(before: HostTable, after: HostTable, ports: seq<Port>) {
    && Distinct(ports)
    && (forall p :: p in ports ==> p !in Taken(before))
    && (forall p: Port :: p in Taken(after) <==> p in Taken(before) || p in ports)
  }

  lemma NewPortsSnoc(a: HostTable, b: HostTable, c: HostTable, ports: seq<Port>, p: Port)
    requires NewPorts(a, b, ports) && p !in Taken(b) && Taken(c) == Taken(b) + iset{p}
    ensures NewPorts(a, c, ports + [p])
  {
    assert p !in ports;
    forall q: Port ensures q in ports + [p] <==> q in ports || q == p {}
  }

  /** The rows with ports filled in, everything else as it was. */
  predicate SameButPorts(rows: seq<Row>, decision: seq<Row>) {
    |rows| == |decision| && forall i :: 0 <= i < |rows| ==> rows[i] == decision[i].(mpiPort := rows[i].mpiPort)
  }

  /** How many rows from i on each host has. */
  function HostsFrom(rows: seq<Row>, i: nat): multiset<string>
    requires i <= |rows|
    decreases |rows| - i
  {
    if i == |rows| then multiset{} else multiset{rows[i].host} + HostsFrom(rows, i + 1)
  }

  /** One slot claimed, and on every host but `ip` nothing changed. */
  ghost predicate OneMoreUsed(before: HostTable, after: HostTable, ip: string, n: int) {
    && SameShape(before, after)
    && forall h :: h in after ==> after[h].usedSlots == before[h].usedSlots + if h == ip then n else 0
  }

  lemma RoomAfterClaim(before: HostTable, after: HostTable, ip: string, need: multiset<string>)
    requires HasRoom(before, multiset{ip} + need) && OneMoreUsed(before, after, ip, 1)
    ensures HasRoom(after, need) == true
  {
    forall h | h in need ensures h in after && after[h].usedSlots + need[h] <= after[h].slots {
      assert h in multiset{ip} + need;
    }
  }

  /** Halfway through claiming: `rows` have ports, and the rest still fits. */
  ghost predicate Claiming(start: HostTable, now: HostTable, decision: seq<Row>, rows: seq<Row>) {
    && |rows| <= |decision|
    && HostsOk(now, multiset{}) && SameShape(start, now)
    && (forall k :: 0 <= k < |rows| ==> rows[k] == decision[k].(mpiPort := rows[k].mpiPort))
    && NewPorts(start, now, Ports(rows))
    && HasRoom(now, HostsFrom(decision, |rows|))
  }

  ghost predicate HasHosts(hosts: HostTable, decision: seq<Row>) {
    forall i :: 0 <= i < |decision| ==> decision[i].host in hosts
  }

  lemma {:induction false} InHostsFrom(decision: seq<Row>, k: nat, i: nat)
    requires k <= i < |decision|
    ensures decision[i].host in HostsFrom(decision, k)
    decreases i - k
  {
    if k < i { InHostsFrom(decision, k + 1, i); }
  }

  lemma RoomKnowsHosts(hosts: HostTable, decision: seq<Row>)
    requires HasRoom(hosts, HostsFrom(decision, 0))
    ensures HasHosts(hosts, decision)
  {
    forall i | 0 <= i < |decision| ensures decision[i].host in hosts { InHostsFrom(decision, 0, i); }
  }

  /** Slots are claimed for all rows, ports for the first |rows| of them. */
  ghost predicate Porting(start: HostTable, now: HostTable, decision: seq<Row>, rows: seq<Row>) {
    && |rows| <= |decision| && HasHosts(now, decision)
    && HostsOk(now, HostsFrom(decision, |rows|)) && SameShape(start, now)
    && (forall k :: 0 <= k < |rows| ==> rows[k] == decision[k].(mpiPort := rows[k].mpiPort))
    && NewPorts(start, now, Ports(rows))
  }

  /** Slots are claimed for the first i rows, no ports yet; the rest still fits. */
  ghost predicate Slotting(start: HostTable, now: HostTable, decision: seq<Row>, i: nat, owed: multiset<string>)
    requires i <= |decision|
  {
    && HostsOk(now, owed) && SameShape(start, now) && Taken(now) == Taken(start)
    && HasRoom(now, HostsFrom(decision, i))
  }

  lemma SlottingStep(start: HostTable, now: HostTable, decision: seq<Row>, i: nat, owed: multiset<string>)
    requires i < |decision| && Slotting(start, now, decision, i, owed)
    ensures decision[i].host in now
    ensures Slotting(start, ClaimSlot(now, decision[i].host), decision, i + 1, owed + multiset{decision[i].host})
            == true
  {
    var host := decision[i].host;
    assert host in HostsFrom(decision, i);
    SlotClaimed(now, owed, host);
    RoomAfterClaim(now, ClaimSlot(now, host), host, HostsFrom(decision, i + 1));
  }

  lemma PortingStep(start: HostTable, now: HostTable, decision: seq<Row>, rows: seq<Row>, row: Row)
    requires |rows| < |decision| && Porting(start, now, decision, rows)
    requires row == decision[|rows|].(mpiPort := row.mpiPort)
    requires IsPort(now, (row.host, row.mpiPort)) && !InUse(now, (row.host, row.mpiPort))
    ensures Porting(start, MarkPort(now, (row.host, row.mpiPort), true), decision, rows + [row])
  {
    hide HostOk, MarkPort, InUse;
    var p := (row.host, row.mpiPort);
    var after := MarkPort(now, p, true);
    var owed := HostsFrom(decision, |rows|);
    PortClaimed(now, owed, p);
    assert owed - multiset{row.host} == HostsFrom(decision, |rows| + 1);
    NewPortsSnoc(start, now, after, Ports(rows), p);
    assert Ports(rows + [row]) == Ports(rows) + [p];
  }

  // ---------- messages and rows ----------

  function IndexOf(rows: seq<Row>, id: int): (k: nat)
    ensures k <= |rows|
    ensures k < |rows| ==> rows[k].messageId == id
    ensures forall j :: 0 <= j < k ==> rows[j].messageId != id
  {
    if rows == [] then 0 else if rows[0].messageId == id then 0 else 1 + IndexOf(rows[1..], id)
  }

  function Without(rows: seq<Row>, k: nat): seq<Row>
    requires k < |rows|
  {
    rows[..k] + rows[k + 1..]
  }

  /** Removes, one by one, the message of every row but the first. */
  method KeepFirst(rows: seq<Row>) returns (kept: seq<Row>)
    requires rows != [] && forall i :: 0 < i < |rows| ==> rows[i].messageId != rows[0].messageId
    ensures kept == [rows[0]]
  {
    kept := rows;
    assert kept == [rows[0]] + rows[1..];
    for i := 1 to |rows|
      invariant kept == [rows[0]] + rows[i..]
    {
      var k := IndexOf(kept, rows[i].messageId);
      assert kept[1] == rows[i] && k == 1;
      kept := Without(kept, k);
    }
  }

  // ---------- moving rows between hosts ----------

  /** Hosts that rows i.. leave, and hosts they arrive at. */
  function Outgoing(was: seq<Row>, now: seq<Row>, i: nat): multiset<string>
    requires |was| == |now| && i <= |was|
    decreases |was| - i
  {
    if i == |was| then multiset{}
    else (if was[i].host != now[i].host then multiset{was[i].host} else multiset{}) + Outgoing(was, now, i + 1)
  }

  function Incoming(was: seq<Row>, now: seq<Row>, i: nat): multiset<string>
    requires |was| == |now| && i <= |was|
    decreases |was| - i
  {
    if i == |was| then multiset{}
    else (if was[i].host != now[i].host then multiset{now[i].host} else multiset{}) + Incoming(was, now, i + 1)
  }

  lemma {:induction false} MovesBalance(was: seq<Row>, now: seq<Row>, i: nat, h: string)
    requires |was| == |now| && i <= |was|
    ensures HostsFrom(now, i)[h] + Outgoing(was, now, i)[h] == HostsFrom(was, i)[h] + Incoming(was, now, i)[h]
    decreases |was| - i
  {
    if i < |was| { MovesBalance(was, now, i + 1, h); }
  }

  // ---------- what each kind of call does to the books ----------

  /** The step gives one app what it asked for, and keeps exact books exact. */
  ghost predicate Sound(b: Book, b': Book, app: int) {
    Inv(b') && Replaces(b, b', app) && (Exact(b) ==> Exact(b'))
  }

  lemma SoundStep(b: Book, b': Book, app: int)
    requires Inv(b) && Replaces(b, b', app) && InventsNothing(b, b', app) && Leaked(b, b', app) == iset{}
    ensures Sound(b, b', app)
  {
    ReplaceKeepsInv(b, b', app);
    if Exact(b) { ExactUnlessLeaked(b, b', app); }
  }

  ghost predicate SameOthers(b: Book, b': Book, app: int) {
    && (forall a :: a != app ==> (a in b.inFlight <==> a in b'.inFlight) && (a in b.preloaded <==> a in b'.preloaded))
    && (forall a :: a != app && a in b.inFlight ==> b'.inFlight[a] == b.inFlight[a])
    && forall a :: a != app && a in b.preloaded ==> b'.preloaded[a] == b.preloaded[a]
  }

  /** What one call has to show, in terms of the app's own holdings `was` and `now`. */
  lemma CallReplaces(b: Book, b': Book, app: int, was: seq<Port>, now: seq<Port>)
    requires Shapes(b) && SameOthers(b, b', app) && was == Owned(b, app) && now == Owned(b', app)
    requires app in b'.inFlight || app !in b'.preloaded
    requires app in b'.preloaded ==> PreloadOk(b'.preloaded[app])
    requires HostsOk(b'.hosts, multiset{}) && SameShape(b.hosts, b'.hosts) && Distinct(now)
    requires forall p :: p in now ==> p in Taken(b'.hosts) && (p in was || p !in Taken(b.hosts))
    requires forall p: Port :: p in Taken(b.hosts) && p !in was ==> p in Taken(b'.hosts)
    ensures Replaces(b, b', app)
  {
    forall a | a in b'.preloaded.Keys ensures a in b'.inFlight.Keys {
      if a != app { assert a in b.preloaded.Keys; }
    }
    forall a | a != app ensures Owned(b', a) == Owned(b, a) {}
  }

  lemma GrowPorts(before: HostTable, after: HostTable, owned: seq<Port>, extra: seq<Port>)
    requires NewPorts(before, after, extra) && Distinct(owned) && forall p :: p in owned ==> p in Taken(before)
    ensures Distinct(owned + extra)
    ensures forall p :: p in owned + extra ==> p in Taken(after) && (p in owned || p !in Taken(before))
  {
    var all := owned + extra;
    forall i, j | 0 <= i < j < |all| ensures all[i] != all[j] {
      if i < |owned| <= j { assert all[i] in owned && all[j] in extra; }
    }
  }

  /** A new app: a known-size one keeps its first row in flight and the others in reserve. */
  lemma NewIsSound(b: Book, b': Book, app: int, rows: seq<Row>, known: bool)
    requires Inv(b) && app !in b.inFlight && (known ==> PreloadOk(rows))
    requires HostsOk(b'.hosts, multiset{}) && SameShape(b.hosts, b'.hosts) && NewPorts(b.hosts, b'.hosts, Ports(rows))
    requires b'.inFlight == b.inFlight[app := if known then [rows[0]] else rows]
    requires b'.preloaded == if known then b.preloaded[app := rows] else b.preloaded
    ensures Sound(b, b', app) && Owned(b', app) == Ports(rows)
  {
    assert Owned(b, app) == [];
    assert Owned(b', app) == Ports(rows);
    forall a | a != app ensures Owned(b', a) == Owned(b, a) {}
    SoundStep(b, b', app);
  }

  /** Growing an app by rows with ports of their own. */
  lemma GrowIsSound(b: Book, b': Book, app: int, rows: seq<Row>)
    requires Inv(b) && app in b.inFlight && app !in b.preloaded
    requires HostsOk(b'.hosts, multiset{}) && SameShape(b.hosts, b'.hosts) && NewPorts(b.hosts, b'.hosts, Ports(rows))
    requires b'.inFlight == b.inFlight[app := b.inFlight[app] + rows] && b'.preloaded == b.preloaded
    ensures Sound(b, b', app) && Owned(b', app) == Owned(b, app) + Ports(rows)
  {
    assert AppOk(b, app);
    assert Owned(b', app) == Owned(b, app) + Ports(rows);
    GrowPorts(b.hosts, b'.hosts, Owned(b, app), Ports(rows));
    CallReplaces(b, b', app, Owned(b, app), Owned(b', app));
    SoundStep(b, b', app);
  }

  // ---------- consuming a preloaded decision ----------

  /** Each message asks for a reserved row of its own. */
  predicate AsksFor(msgs: seq<Message>, pre: seq<Row>) {
    && (forall i :: 0 <= i < |msgs| ==> 1 <= msgs[i].groupIdx < |pre|)
    && forall i, j :: 0 <= i < j < |msgs| ==> msgs[i].groupIdx != msgs[j].groupIdx
  }

  /** The reserved row of each message's group index, under the message's own identity. */
  function Consumed(msgs: seq<Message>, pre: seq<Row>): (rows: seq<Row>)
    requires AsksFor(msgs, pre)
    ensures |rows| == |msgs|
    ensures forall i :: 0 <= i < |rows| ==> Ports(rows)[i] == Ports(pre)[msgs[i].groupIdx]
  {
    seq(|msgs|, i requires 0 <= i < |msgs| =>
      var row := pre[msgs[i].groupIdx];
      Row(row.host, msgs[i].id, msgs[i].appIdx, msgs[i].groupIdx, row.mpiPort))
  }

  /** The reserved rows themselves, of which only the message id is the message's own. */
  function Filtered(msgs: seq<Message>, pre: seq<Row>): (rows: seq<Row>)
    requires AsksFor(msgs, pre)
    ensures |rows| == |msgs|
    ensures forall i :: 0 <= i < |rows| ==> Ports(rows)[i] == Ports(pre)[msgs[i].groupIdx]
  {
    seq(|msgs|, i requires 0 <= i < |msgs| => pre[msgs[i].groupIdx].(messageId := msgs[i].id))
  }

  function GroupIdxs(msgs: seq<Message>): set<int> { set m | m in msgs :: m.groupIdx }

  lemma {:induction false} GroupIdxsSize(msgs: seq<Message>, pre: seq<Row>)
    requires AsksFor(msgs, pre)
    ensures |GroupIdxs(msgs)| == |msgs|
  {
    if msgs != [] {
      var n := |msgs| - 1;
      GroupIdxsSize(msgs[..n], pre);
      assert GroupIdxs(msgs) == GroupIdxs(msgs[..n]) + {msgs[n].groupIdx};
      assert forall m :: m in msgs[..n] ==> exists i :: 0 <= i < n && msgs[i] == m;
    }
  }

  function OneTo(n: nat): set<int> { if n == 0 then {} else OneTo(n - 1) + {n} }

  lemma {:induction false} OneToFacts(n: nat)
    ensures |OneTo(n)| == n
    ensures forall k :: k in OneTo(n) <==> 1 <= k <= n
  {
    if n > 0 { OneToFacts(n - 1); }
  }

  /** The messages ask for every reserved row iff there are as many of them. */
  lemma AllAskedFor(msgs: seq<Message>, pre: seq<Row>)
    requires AsksFor(msgs, pre) && pre != []
    ensures |msgs| == |pre| - 1 <==> GroupIdxs(msgs) == OneTo(|pre| - 1)
  {
    GroupIdxsSize(msgs, pre);
    OneToFacts(|pre| - 1);
    SubsetSize(GroupIdxs(msgs), OneTo(|pre| - 1));
  }

  /** What consuming does to the app's holdings. */
  lemma ConsumedPorts(b: Book, app: int, msgs: seq<Message>)
    requires Inv(b) && app in b.preloaded && AsksFor(msgs, b.preloaded[app])
    ensures var run, res, got := Ports(Running(b, app)), Ports(Reserved(b, app)),
                                 Ports(Consumed(msgs, b.preloaded[app]));
            && Owned(b, app) == run + res && Distinct(run + got) && (forall p :: p in run + got ==> p in run + res)
            && (forall p :: p in run ==> p !in res) && Distinct(res)
            && |res| == |b.preloaded[app]| - 1 && forall i :: 0 <= i < |msgs| ==> got[i] == res[msgs[i].groupIdx - 1]
  {
    var pre := b.preloaded[app];
    assert AppOk(b, app);
    var run, res, got := Ports(Running(b, app)), Ports(Reserved(b, app)), Ports(Consumed(msgs, pre));
    var at := seq(|msgs|, i requires 0 <= i < |msgs| => msgs[i].groupIdx - 1);
    forall i | 0 <= i < |at| ensures 0 <= at[i] < |res| && got[i] == res[at[i]] {
      assert pre[1..][at[i]] == pre[msgs[i].groupIdx];
    }
    DistinctPick(run, res, got, at);
  }

  ghost predicate Consumes(b: Book, b': Book, app: int, msgs: seq<Message>) {
    && app in b.preloaded && AsksFor(msgs, b.preloaded[app])
    && b'.inFlight == b.inFlight[app := Running(b, app) + Consumed(msgs, b.preloaded[app])]
    && b'.preloaded == b.preloaded - {app} && b'.hosts == b.hosts
  }

  lemma ConsumeReplaces(b: Book, b': Book, app: int, msgs: seq<Message>)
    requires Inv(b) && Consumes(b, b', app, msgs)
    ensures Replaces(b, b', app)
  {
    ConsumedPorts(b, app, msgs);
    assert AppOk(b, app);
    assert Owned(b', app) == Ports(Running(b, app)) + Ports(Consumed(msgs, b.preloaded[app]));
    CallReplaces(b, b', app, Owned(b, app), Owned(b', app));
  }

  lemma NoneLeftOver(msgs: seq<Message>, pre: seq<Row>, res: seq<Port>, got: seq<Port>)
    requires pre != [] && AsksFor(msgs, pre) && |res| == |pre| - 1 && Distinct(res) && |got| == |msgs|
    requires forall i :: 0 <= i < |msgs| ==> got[i] == res[msgs[i].groupIdx - 1]
    ensures (forall p :: p in res ==> p in got) <==> |msgs| == |pre| - 1
  {
    hide Distinct;
    AllAskedFor(msgs, pre);
    OneToFacts(|res|);
    forall k | 1 <= k <= |res| ensures res[k - 1] in got <==> k in GroupIdxs(msgs) {
      PickedIff(msgs, res, got, k);
    }
    hide AsksFor;
    if |msgs| == |res| {
      forall p | p in res ensures p in got {
        var i :| 0 <= i < |res| && res[i] == p;
        var k := i + 1;
        assert k in OneTo(|res|) && res[k - 1] == p;
      }
    } else {
      var k :| k in OneTo(|res|) && k !in GroupIdxs(msgs);
      assert res[k - 1] in res && res[k - 1] !in got;
    }
  }

  /** What leaks is the reserved ports that no message asked for. */
  lemma ConsumeLeaks(b: Book, b': Book, app: int, msgs: seq<Message>)
    requires Inv(b) && Consumes(b, b', app, msgs)
    ensures Leaked(b, b', app) == iset{} <==> |msgs| == |b.preloaded[app]| - 1
  {
    var pre := b.preloaded[app];
    ConsumedPorts(b, app, msgs);
    var run, res, got := Ports(Running(b, app)), Ports(Reserved(b, app)), Ports(Consumed(msgs, pre));
    NoneLeftOver(msgs, pre, res, got);
    assert AppOk(b, app) && Owned(b', app) == run + got;
    forall p: Port ensures p in Leaked(b, b', app) <==> p in res && p !in got {}
    if p :| p in res && p !in got { assert p in Leaked(b, b', app); }
  }

  lemma PickedIff(msgs: seq<Message>, res: seq<Port>, got: seq<Port>, k: int)
    requires 1 <= k <= |res| && Distinct(res) && |got| == |msgs|
    requires forall i :: 0 <= i < |msgs| ==> 1 <= msgs[i].groupIdx <= |res| && got[i] == res[msgs[i].groupIdx - 1]
    ensures res[k - 1] in got <==> k in GroupIdxs(msgs)
  {
    if res[k - 1] in got {
      var i :| 0 <= i < |got| && got[i] == res[k - 1];
      assert msgs[i] in msgs && msgs[i].groupIdx == k;
    }
    if k in GroupIdxs(msgs) {
      var i :| 0 <= i < |msgs| && msgs[i].groupIdx == k;
      assert got[i] in got;
    }
  }

  /** The books stay exact iff every reserved row is asked for. */
  lemma ConsumeLedger(b: Book, b': Book, app: int, msgs: seq<Message>)
    requires Inv(b) && Consumes(b, b', app, msgs)
    ensures Inv(b') && Replaces(b, b', app)
    ensures Exact(b) ==> (Exact(b') <==> |msgs| == |b.preloaded[app]| - 1)
  {
    ConsumeReplaces(b, b', app, msgs);
    ReplaceKeepsInv(b, b', app);
    ConsumeLeaks(b, b', app, msgs);
    if Exact(b) { ExactUnlessLeaked(b, b', app); }
  }

  lemma DistinctPick(run: seq<Port>, res: seq<Port>, got: seq<Port>, at: seq<int>)
    requires Distinct(run + res) && |got| == |at| && Distinct(at)
    requires forall i :: 0 <= i < |at| ==> 0 <= at[i] < |res| && got[i] == res[at[i]]
    ensures Distinct(run + got) && (forall p :: p in run + got ==> p in run + res)
    ensures Distinct(res) && forall p :: p in run ==> p !in res
  {
    var all := run + res;
    forall i, j | 0 <= i < j < |run + got| ensures (run + got)[i] != (run + got)[j] {
      var x := if i < |run| then i else |run| + at[i - |run|];
      var y := if j < |run| then j else |run| + at[j - |run|];
      assert (run + got)[i] == all[x] && (run + got)[j] == all[y] && x != y;
    }
    forall i, j | 0 <= i < j < |res| ensures res[i] != res[j] { assert all[|run| + i] != all[|run| + j]; }
    forall p | p in run ensures p !in res {
      var i :| 0 <= i < |run| && run[i] == p;
      forall k | 0 <= k < |res| ensures res[k] != p { assert all[i] != all[|run| + k]; }
    }
  }

  // ---------- migrating an app ----------

  /** The app's new placement fits once its old one is given back. */
  ghost predicate RoomToMove(hosts: HostTable, was: seq<Row>, now: seq<Row>) {
    forall h :: h in HostsFrom(now, 0) ==>
      h in hosts && hosts[h].usedSlots + HostsFrom(now, 0)[h] <= hosts[h].slots + HostsFrom(was, 0)[h]
  }

  /** Ports of the first i rows of `was` that sit elsewhere in `now`. */
  function MovedPorts(was: seq<Row>, now: seq<Row>, i: nat): set<Port>
    requires i <= |was| == |now|
  {
    set k | 0 <= k < i && was[k].host != now[k].host :: Ports(was)[k]
  }

  /** Halfway through releasing: rows before i that move have given back slot and port. */
  ghost predicate Leaving(start: HostTable, cur: HostTable, was: seq<Row>, now: seq<Row>, i: nat)
    requires i <= |was| == |now|
  {
    && HostsOk(cur, multiset{}) && SameShape(start, cur)
    && (forall p: Port :: p in Taken(cur) <==> p in Taken(start) && p !in MovedPorts(was, now, i))
    && forall h :: h in cur ==>
         cur[h].usedSlots - Outgoing(was, now, i)[h] == start[h].usedSlots - Outgoing(was, now, 0)[h]
  }

  lemma MovedPortsStep(was: seq<Row>, now: seq<Row>, i: nat)
    requires i < |was| == |now|
    ensures MovedPorts(was, now, i + 1) ==
            MovedPorts(was, now, i) + if was[i].host != now[i].host then {Ports(was)[i]} else {}
  {
  }

  lemma LeavingStep(start: HostTable, cur: HostTable, after: HostTable, was: seq<Row>, now: seq<Row>, i: nat)
    requires i < |was| == |now| && Leaving(start, cur, was, now, i)
    requires if was[i].host == now[i].host then after == cur
             else && HostsOk(after, multiset{}) && OneMoreUsed(cur, after, was[i].host, -1)
                  && Taken(after) == Taken(cur) - iset{Ports(was)[i]}
    ensures Leaving(start, after, was, now, i + 1)
  {
    MovedPortsStep(was, now, i);
  }

  lemma NotYetMoved(was: seq<Row>, now: seq<Row>, i: nat)
    requires i < |was| == |now| && Distinct(Ports(was))
    ensures Ports(was)[i] !in MovedPorts(was, now, i)
  {
  }

  /** After the release, the arrivals fit. */
  lemma RoomForArrivals(start: HostTable, cur: HostTable, was: seq<Row>, now: seq<Row>)
    requires |was| == |now| && RoomToMove(start, was, now) && Leaving(start, cur, was, now, |was|)
    ensures HasRoom(cur, Incoming(was, now, 0))
  {
    forall h | h in Incoming(was, now, 0)
      ensures h in cur && cur[h].usedSlots + Incoming(was, now, 0)[h] <= cur[h].slots
    {
      ArrivalIsPlaced(was, now, 0, h);
      MovesBalance(was, now, 0, h);
      assert h in HostsFrom(now, 0);
      assert h in start.Keys;
    }
  }

  lemma {:induction false} ArrivalIsPlaced(was: seq<Row>, now: seq<Row>, i: nat, h: string)
    requires i <= |was| == |now|
    ensures Incoming(was, now, i)[h] <= HostsFrom(now, i)[h]
    decreases |was| - i
  {
    if i < |was| { ArrivalIsPlaced(was, now, i + 1, h); }
  }

  /** Halfway through claiming again: moved rows have new ports, the others their old ones. */
  ghost predicate Arriving(mid: HostTable, cur: HostTable, was: seq<Row>, now: seq<Row>, rows: seq<Row>)
    requires |was| == |now|
  {
    && |rows| <= |now| && HostsOk(cur, multiset{}) && SameShape(mid, cur)
    && Distinct(Ports(rows))
    && (forall k :: 0 <= k < |rows| ==> RowArrived(mid, cur, was[k], now[k], rows[k]))
    && (forall p: Port :: p in Taken(mid) ==> p in Taken(cur))
    && (forall p: Port :: p in Taken(cur) ==> p in Taken(mid) || p in Ports(rows))
    && HasRoom(cur, Incoming(was, now, |rows|))
  }

  ghost predicate RowArrived(mid: HostTable, cur: HostTable, was: Row, now: Row, row: Row) {
    && row == now.(mpiPort := row.mpiPort)
    && (row.host, row.mpiPort) in Taken(cur)
    && if was.host == now.host then row.mpiPort == was.mpiPort else (row.host, row.mpiPort) !in Taken(mid)
  }

  lemma StayStep(mid: HostTable, cur: HostTable, was: seq<Row>, now: seq<Row>, rows: seq<Row>, row: Row)
    requires |rows| < |was| == |now| && Arriving(mid, cur, was, now, rows) && Distinct(Ports(was))
    requires now[|rows|].host == was[|rows|].host && row == now[|rows|].(mpiPort := was[|rows|].mpiPort)
    requires Ports(was)[|rows|] in Taken(mid)
    ensures Arriving(mid, cur, was, now, rows + [row])
  {
    var p := Ports(was)[|rows|];
    assert Ports(rows + [row]) == Ports(rows) + [p];
    forall k | 0 <= k < |rows| ensures Ports(rows)[k] != p {
      assert RowArrived(mid, cur, was[k], now[k], rows[k]);
      assert Ports(was)[k] != Ports(was)[|rows|];
    }
  }

  lemma MoveStep(mid: HostTable, cur: HostTable, after: HostTable, was: seq<Row>, now: seq<Row>, rows: seq<Row>,
                 row: Row)
    requires |rows| < |was| == |now| && Arriving(mid, cur, was, now, rows)
    requires now[|rows|].host != was[|rows|].host && row == now[|rows|].(mpiPort := row.mpiPort)
    requires HostsOk(after, multiset{}) && OneMoreUsed(cur, after, row.host, 1)
    requires (row.host, row.mpiPort) !in Taken(cur) && Taken(after) == Taken(cur) + iset{(row.host, row.mpiPort)}
    ensures Arriving(mid, after, was, now, rows + [row])
  {
    hide HostsOk, InUse;
    var p := (row.host, row.mpiPort);
    assert Ports(rows + [row]) == Ports(rows) + [p];
    forall k | 0 <= k < |rows| ensures Ports(rows)[k] != p && RowArrived(mid, after, was[k], now[k], rows[k]) {
      assert RowArrived(mid, cur, was[k], now[k], rows[k]);
    }
    RoomAfterClaim(cur, after, row.host, Incoming(was, now, |rows| + 1));
  }

  /** The moved rows' ports are given back, leaving the hosts as in `mid`, and new ones claimed. */
  ghost predicate Migrates(b: Book, mid: HostTable, b': Book, app: int, now: seq<Row>, rows: seq<Row>) {
    && app in b.inFlight && |b.inFlight[app]| == |now| == |rows|
    && Leaving(b.hosts, mid, b.inFlight[app], now, |now|)
    && Arriving(mid, b'.hosts, b.inFlight[app], now, rows)
    && b'.inFlight == b.inFlight[app := rows] && b'.preloaded == b.preloaded
  }

  lemma OwnedParts(b: Book, app: int)
    requires Inv(b)
    ensures Distinct(Ports(Running(b, app))) && Distinct(Ports(Reserved(b, app)))
    ensures forall p :: p in Ports(Running(b, app)) ==> p !in Ports(Reserved(b, app)) && p in Taken(b.hosts)
    ensures forall p :: p in Ports(Reserved(b, app)) ==> p in Taken(b.hosts)
  {
    assert AppOk(b, app);
    DistinctPick(Ports(Running(b, app)), Ports(Reserved(b, app)), [], []);
    DistinctPrefix(Ports(Running(b, app)), Ports(Reserved(b, app)));
  }

  lemma MoversHeld(b: Book, app: int)
    requires Inv(b) && app in b.inFlight
    ensures HostsOk(b.hosts, multiset{}) && Distinct(Ports(b.inFlight[app]))
    ensures forall p :: p in Ports(b.inFlight[app]) ==> p in Taken(b.hosts)
  {
    OwnedParts(b, app);
  }

  lemma DistinctPrefix(run: seq<Port>, res: seq<Port>)
    requires Distinct(run + res)
    ensures Distinct(run)
  {
    assert (run + res)[..|run|] == run;
  }

  lemma StayedPort(was: seq<Row>, now: seq<Row>, p: Port)
    requires |was| == |now| && p in Ports(was) && p !in MovedPorts(was, now, |was|)
    ensures exists k :: 0 <= k < |was| && Ports(was)[k] == p && was[k].host == now[k].host
  {
    var k :| 0 <= k < |was| && Ports(was)[k] == p;
  }

  lemma DistinctUnion(a: seq<Port>, b: seq<Port>)
    requires Distinct(a) && Distinct(b) && forall p :: p in a ==> p !in b
    ensures Distinct(a + b)
  {
    forall i, j | 0 <= i < j < |a + b| ensures (a + b)[i] != (a + b)[j] {
      if i < |a| <= j { assert a[i] in a && b[j - |a|] in b; }
    }
  }

  lemma StayersHeld(start: HostTable, mid: HostTable, was: seq<Row>, now: seq<Row>)
    requires |was| == |now| && Leaving(start, mid, was, now, |was|) && Distinct(Ports(was))
    requires forall p :: p in Ports(was) ==> p in Taken(start)
    ensures HostsOk(mid, multiset{})
    ensures forall k :: 0 <= k < |was| && was[k].host == now[k].host ==> Ports(was)[k] in Taken(mid)
  {
    forall k | 0 <= k < |was| && was[k].host == now[k].host ensures Ports(was)[k] in Taken(mid) {
      assert Ports(was)[k] in Ports(was);
      assert Ports(was)[k] !in MovedPorts(was, now, |was|);
    }
  }

  lemma ArrivedRows(mid: HostTable, cur: HostTable, was: seq<Row>, now: seq<Row>, rows: seq<Row>)
    requires |was| == |now| == |rows| && Arriving(mid, cur, was, now, rows)
    ensures SameButPorts(rows, now)
    ensures forall k :: 0 <= k < |rows| && was[k].host == now[k].host ==> rows[k].mpiPort == was[k].mpiPort
  {
    forall k | 0 <= k < |rows|
      ensures rows[k] == now[k].(mpiPort := rows[k].mpiPort)
              && (was[k].host == now[k].host ==> rows[k].mpiPort == was[k].mpiPort)
    {
      assert RowArrived(mid, cur, was[k], now[k], rows[k]);
    }
  }

  // ---------- a result ----------

  /** A message in flight on the reporting host, or a repeated report of one that has left. */
  predicate FirstReport(rows: seq<Row>, id: int, host: string, known: bool) {
    var k := IndexOf(rows, id);
    if known then k == |rows| else k < |rows| && rows[k].host == host
  }

  /** The row's port is given back; the app's entry and its reserve go with its last message. */
  ghost predicate Finishes(b: Book, b': Book, app: int, k: nat) {
    && app in b.inFlight && k < |b.inFlight[app]|
    && HostsOk(b'.hosts, multiset{}) && SameShape(b.hosts, b'.hosts)
    && Taken(b'.hosts) == Taken(b.hosts) - iset{Ports(b.inFlight[app])[k]}
    && if |b.inFlight[app]| == 1 then
         b'.inFlight == b.inFlight - {app} && b'.preloaded == b.preloaded - {app}
       else
         b'.inFlight == b.inFlight[app := Without(b.inFlight[app], k)] && b'.preloaded == b.preloaded
  }

  /** Removing position k from a sequence of distinct ports. */
  lemma DistinctWithout(s: seq<Port>, k: nat)
    requires k < |s| && Distinct(s)
    ensures Distinct(s[..k] + s[k + 1..])
    ensures forall p :: p in s[..k] + s[k + 1..] <==> p in s && p != s[k]
  {
    var t := s[..k] + s[k + 1..];
    forall i | 0 <= i < |t| ensures t[i] == s[if i < k then i else i + 1] {}
    forall p | p in s && p != s[k] ensures p in t {
      var i :| 0 <= i < |s| && s[i] == p;
      assert t[if i < k then i else i - 1] == p;
    }
  }

  lemma FinishOwned(b: Book, b': Book, app: int, k: nat)
    requires Finishes(b, b', app, k)
    ensures k < |Owned(b, app)| && Owned(b, app)[k] == Ports(b.inFlight[app])[k] && SameOthers(b, b', app)
    ensures Owned(b', app) == if |b.inFlight[app]| == 1 then [] else Owned(b, app)[..k] + Owned(b, app)[k + 1..]
    ensures Reserved(b, app) == [] && |b.inFlight[app]| == 1 ==> Owned(b, app) == [Owned(b, app)[k]]
  {
  }

  lemma FinishReplaces(b: Book, b': Book, app: int, k: nat)
    requires Inv(b) && Finishes(b, b', app, k)
    ensures Replaces(b, b', app) && InventsNothing(b, b', app)
  {
    hide HostsOk, SameShape, InUse, PreloadOk;
    assert AppOk(b, app);
    FinishOwned(b, b', app, k);
    var was, now := Owned(b, app), Owned(b', app);
    DistinctWithout(was, k);
    forall p | p in now ensures p in Taken(b'.hosts) && p in was {
      assert p in was && p != was[k];
    }
    forall p: Port | p in Taken(b.hosts) && p !in was ensures p in Taken(b'.hosts) {
      assert was[k] in was;
    }
    CallReplaces(b, b', app, was, now);
  }

  /** A finished message gives back exactly its own slot and port; slots still reserved leak iff the
      app's last message ends before the scale change. */
  lemma FinishLedger(b: Book, b': Book, app: int, k: nat)
    requires Inv(b) && Finishes(b, b', app, k)
    ensures Inv(b') && Replaces(b, b', app)
    ensures Exact(b) ==> (Exact(b') <==> !(|b.inFlight[app]| == 1 && Reserved(b, app) != []))
  {
    FinishReplaces(b, b', app, k);
    ReplaceKeepsInv(b, b', app);
    FinishLeaks(b, b', app, k);
    if Exact(b) { ExactUnlessLeaked(b, b', app); }
  }

  lemma FinishLeaksReserve(b: Book, b': Book, app: int, k: nat)
    requires Inv(b) && Finishes(b, b', app, k) && |b.inFlight[app]| == 1 && Reserved(b, app) != []
    ensures Leaked(b, b', app) != iset{}
  {
    OwnedParts(b, app);
    var was, res := Ports(b.inFlight[app]), Ports(Reserved(b, app));
    assert was[k] in was && res[0] in res;
    assert Owned(b, app) == was + res;
    assert Owned(b', app) == [];
    assert res[0] in Leaked(b, b', app);
  }

  lemma FinishLeaksNothing(b: Book, b': Book, app: int, k: nat, p: Port)
    requires Inv(b) && Finishes(b, b', app, k) && !(|b.inFlight[app]| == 1 && Reserved(b, app) != [])
    ensures p !in Leaked(b, b', app)
  {
    FinishOwned(b, b', app, k);
    assert Owned(b, app)[k] == Ports(b.inFlight[app])[k];
    if p in Owned(b, app) {
      assert AppOk(b, app);
      DistinctWithout(Owned(b, app), k);
    }
  }

  lemma FinishLeaks(b: Book, b': Book, app: int, k: nat)
    requires Inv(b) && Finishes(b, b', app, k)
    ensures Leaked(b, b', app) == iset{} <==> !(|b.inFlight[app]| == 1 && Reserved(b, app) != [])
  {
    if |b.inFlight[app]| == 1 && Reserved(b, app) != [] {
      FinishLeaksReserve(b, b', app, k);
    } else {
      forall p: Port ensures p !in Leaked(b, b', app) { FinishLeaksNothing(b, b', app, k, p); }
    }
  }
}
