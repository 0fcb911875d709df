/** What the planner's bookkeeping means: every in-flight message and every slot reserved for a
    known-size app holds one MPI port of its host, and no two hold the same one. */
module PlannerLedger {
  import opened Placement
  import opened Decisions

  const MPI_BASE_PORT := 8020

  /** A registered host; port MPI_BASE_PORT + k is in use iff mpiPorts[k]. */
  datatype HostEntry = HostEntry(slots: nat, usedSlots: int, mpiPorts: seq<bool>)

  type HostTable = map<string, HostEntry>

  /** A host and one of its ports. */
  type Port = (string, int)

  // ---------- one host ----------

  /** How many ports are marked as used. */
  function Marked(ports: seq<bool>): nat {
    if ports == [] then 0
    else Marked(ports[..|ports| - 1]) + if ports[|ports| - 1] then 1 else 0
  }

  lemma {:induction false} MarkedBound(ports: seq<bool>)
    ensures Marked(ports) <= |ports|
    ensures Marked(ports) == |ports| <==> forall k :: 0 <= k < |ports| ==> ports[k]
  {
    if ports != [] { MarkedBound(ports[..|ports| - 1]); }
  }

  lemma {:induction false} MarkedUpdate(ports: seq<bool>, k: nat, used: bool)
    requires k < |ports| && ports[k] != used
    ensures Marked(ports[k := used]) == Marked(ports) + if used then 1 else -1
  {
    var n := |ports| - 1;
    if k == n {
      assert ports[k := used][..n] == ports[..n];
    } else {
      assert ports[k := used][..n] == ports[..n][k := used];
      MarkedUpdate(ports[..n], k, used);
    }
  }

  lemma {:induction false} NoneMarked(n: nat)
    ensures Marked(seq(n, _ => false)) == 0
  {
    if n > 0 {
      assert seq(n, _ => false)[..n - 1] == seq(n - 1, _ => false);
      NoneMarked(n - 1);
    }
  }

  // ---------- all hosts ----------

  /** Used slots are the marked ports plus `owed`: slots claimed whose port is still to come. */
  ghost predicate HostOk(e: HostEntry, owed: int) {
    |e.mpiPorts| == e.slots && e.usedSlots == Marked(e.mpiPorts) + owed && e.usedSlots <= e.slots
  }

  ghost predicate HostsOk(hosts: HostTable, owed: multiset<string>) {
    forall h :: h in hosts ==> HostOk(hosts[h], owed[h])
  }

  predicate InUse(hosts: HostTable, p: Port) {
    && p.0 in hosts
    && 0 <= p.1 - MPI_BASE_PORT < |hosts[p.0].mpiPorts|
    && hosts[p.0].mpiPorts[p.1 - MPI_BASE_PORT]
  }

  ghost function Taken(hosts: HostTable): iset<Port> {
    iset p: Port | InUse(hosts, p)
  }

  function ClaimSlot(hosts: HostTable, ip: string): HostTable
    requires ip in hosts
  {
    hosts[ip := hosts[ip].(usedSlots := hosts[ip].usedSlots + 1)]
  }

  function ReleaseSlot(hosts: HostTable, ip: string): HostTable
    requires ip in hosts
  {
    hosts[ip := hosts[ip].(usedSlots := hosts[ip].usedSlots - 1)]
  }

  predicate IsPort(hosts: HostTable, p: Port) {
    p.0 in hosts && 0 <= p.1 - MPI_BASE_PORT < |hosts[p.0].mpiPorts|
  }

  function MarkPort(hosts: HostTable, p: Port, used: bool): HostTable
    requires IsPort(hosts, p)
  {
    var e := hosts[p.0];
    hosts[p.0 := e.(mpiPorts := e.mpiPorts[p.1 - MPI_BASE_PORT := used])]
  }

  /** Same hosts with the same number of slots. */
  ghost predicate SameShape(a: HostTable, b: HostTable) {
    a.Keys == b.Keys && forall h :: h in a ==> a[h].slots == b[h].slots
  }

  lemma SlotClaimed(hosts: HostTable, owed: multiset<string>, ip: string)
    requires HostsOk(hosts, owed) && ip in hosts && hosts[ip].usedSlots < hosts[ip].slots
    ensures HostsOk(ClaimSlot(hosts, ip), owed + multiset{ip})
    ensures Taken(ClaimSlot(hosts, ip)) == Taken(hosts) && SameShape(hosts, ClaimSlot(hosts, ip))
  {
    var after := ClaimSlot(hosts, ip);
    forall h | h in after ensures HostOk(after[h], (owed + multiset{ip})[h]) {
      assert HostOk(hosts[h], owed[h]);
    }
    forall p: Port ensures InUse(after, p) <==> InUse(hosts, p) {}
  }

  /** A claimed slot always finds a free port. */
  lemma PortAvailable(hosts: HostTable, owed: multiset<string>, ip: string)
    requires HostsOk(hosts, owed) && ip in hosts && owed[ip] > 0
    ensures exists k :: 0 <= k < |hosts[ip].mpiPorts| && !hosts[ip].mpiPorts[k]
  {
    assert HostOk(hosts[ip], owed[ip]);
    MarkedBound(hosts[ip].mpiPorts);
  }

  lemma PortClaimed(hosts: HostTable, owed: multiset<string>, p: Port)
    requires HostsOk(hosts, owed) && IsPort(hosts, p) && !InUse(hosts, p) && owed[p.0] > 0
    ensures HostsOk(MarkPort(hosts, p, true), owed - multiset{p.0})
    ensures Taken(MarkPort(hosts, p, true)) == Taken(hosts) + iset{p} && SameShape(hosts, MarkPort(hosts, p, true))
  {
    var after := MarkPort(hosts, p, true);
    forall h | h in after ensures HostOk(after[h], (owed - multiset{p.0})[h]) {
      assert HostOk(hosts[h], owed[h]);
      if h == p.0 { MarkedUpdate(hosts[h].mpiPorts, p.1 - MPI_BASE_PORT, true); }
    }
    forall q: Port ensures InUse(after, q) <==> InUse(hosts, q) || q == p {}
  }

  lemma Released(hosts: HostTable, p: Port)
    requires HostsOk(hosts, multiset{}) && InUse(hosts, p)
    ensures IsPort(ReleaseSlot(hosts, p.0), p)
    ensures var after := MarkPort(ReleaseSlot(hosts, p.0), p, false);
            HostsOk(after, multiset{}) && Taken(after) == Taken(hosts) - iset{p} && SameShape(hosts, after)
  {
    var after := MarkPort(ReleaseSlot(hosts, p.0), p, false);
    forall h | h in after ensures HostOk(after[h], 0) {
      assert HostOk(hosts[h], multiset{}[h]);
      if h == p.0 { MarkedUpdate(hosts[h].mpiPorts, p.1 - MPI_BASE_PORT, false); }
    }
    forall q: Port ensures InUse(after, q) <==> InUse(hosts, q) && q != p {}
  }

  // ---------- the planner's books ----------

  datatype Book = Book(hosts: HostTable, inFlight: map<int, seq<Row>>, preloaded: map<int, seq<Row>>)

  function Ports(rows: seq<Row>): (r: seq<Port>)
    ensures |r| == |rows| && forall i :: 0 <= i < |r| ==> r[i] == (rows[i].host, rows[i].mpiPort)
  {
    seq(|rows|, i requires 0 <= i < |rows| => (rows[i].host, rows[i].mpiPort))
  }

  function Running(b: Book, app: int): seq<Row> {
    if app in b.inFlight then b.inFlight[app] else []
  }

  /** Rows of a preloaded decision other than the first, which is in flight already. */
  function Reserved(b: Book, app: int): seq<Row> {
    if app in b.preloaded && b.preloaded[app] != [] then b.preloaded[app][1..] else []
  }

  /** Every port an app holds, one per in-flight message and per reserved slot. */
  function Owned(b: Book, app: int): seq<Port> {
    Ports(Running(b, app)) + Ports(Reserved(b, app))
  }

  /** Every port the app holds is its own and marked as used. */
  ghost predicate AppOk(b: Book, app: int) {
    var owned := Owned(b, app);
    Distinct(owned) && forall p :: p in owned ==> p in Taken(b.hosts)
  }

  ghost predicate Apart(b: Book, a: int, c: int) {
    forall p :: p in Owned(b, a) ==> p !in Owned(b, c)
  }

  /** A preloaded decision is indexed by group index. */
  predicate PreloadOk(rows: seq<Row>) {
    rows != [] && forall i :: 0 <= i < |rows| ==> rows[i].groupIdx == i
  }

  ghost predicate Shapes(b: Book) {
    && "" !in b.hosts
    && b.preloaded.Keys <= b.inFlight.Keys
    && forall app :: app in b.preloaded ==> PreloadOk(b.preloaded[app])
  }

  ghost predicate Inv(b: Book) {
    && HostsOk(b.hosts, multiset{})
    && Shapes(b)
    && (forall app :: AppOk(b, app))
    && forall a, c :: a != c ==> Apart(b, a, c)
  }

  ghost predicate Covered(b: Book, p: Port) {
    exists app :: p in Owned(b, app)
  }

  /** No port is marked as used without an owner. */
  ghost predicate Exact(b: Book) {
    forall p: Port :: p in Taken(b.hosts) ==> Covered(b, p)
  }

  /** Only one app's holdings changed, and it took nothing that another app holds. */
  ghost predicate Replaces(b: Book, b': Book, app: int) {
    && HostsOk(b'.hosts, multiset{}) && Shapes(b') && SameShape(b.hosts, b'.hosts)
    && (forall a :: a != app ==> Owned(b', a) == Owned(b, a))
    && Distinct(Owned(b', app))
    && (forall p :: p in Owned(b', app) ==> p in Taken(b'.hosts) && (p in Owned(b, app) || p !in Taken(b.hosts)))
    && forall p: Port :: p in Taken(b.hosts) && p !in Owned(b, app) ==> p in Taken(b'.hosts)
  }

  lemma ReplaceKeepsInv(b: Book, b': Book, app: int)
    requires Inv(b) && Replaces(b, b', app)
    ensures Inv(b')
  {
    forall a ensures AppOk(b', a) {
      if a != app {
        assert AppOk(b, a) && Apart(b, a, app);
      }
    }
    forall a, c | a != c ensures Apart(b', a, c) {
      assert Apart(b, a, c) && AppOk(b, a) && AppOk(b, c);
      if c == app { assert Apart(b, c, a); }
    }
  }

  /** Ports a step leaves marked though the app no longer holds them. */
  ghost function Leaked(b: Book, b': Book, app: int): iset<Port> {
    iset p: Port | p in Owned(b, app) && p !in Owned(b', app) && p in Taken(b'.hosts)
  }

  /** The step marks no port that nobody holds. */
  ghost predicate InventsNothing(b: Book, b': Book, app: int) {
    forall p: Port :: p in Taken(b'.hosts) ==> p in Taken(b.hosts) || p in Owned(b', app)
  }

  lemma ExactWithoutLeak(b: Book, b': Book, app: int)
    requires Replaces(b, b', app) && InventsNothing(b, b', app) && Exact(b) && Leaked(b, b', app) == iset{}
    ensures Exact(b')
  {
    forall p: Port | p in Taken(b'.hosts) ensures Covered(b', p) {
      if p !in Owned(b', app) {
        assert p !in Leaked(b, b', app);
        assert Covered(b, p);
        var a :| p in Owned(b, a);
        assert p in Owned(b', a);
      }
    }
  }

  lemma LeakIsUncovered(b: Book, b': Book, app: int, p: Port)
    requires Inv(b) && Replaces(b, b', app) && p in Leaked(b, b', app)
    ensures !Exact(b')
  {
    forall a ensures p !in Owned(b', a) {
      if a != app { assert Apart(b, app, a); }
    }
    assert !Covered(b', p);
  }

  /** A step that invents no ports keeps the books exact iff it leaks none. */
  lemma ExactUnlessLeaked(b: Book, b': Book, app: int)
    requires Inv(b) && Replaces(b, b', app) && InventsNothing(b, b', app) && Exact(b)
    ensures Exact(b') <==> Leaked(b, b', app) == iset{}
  {
    if Leaked(b, b', app) == iset{} {
      ExactWithoutLeak(b, b', app);
    } else {
      var p :| p in Leaked(b, b', app);
      LeakIsUncovered(b, b', app, p);
    }
  }

  // ---------- what the invariant says about slots ----------

  /** A message in flight, or a slot reserved for one: position i in what `app` owns. */
  datatype Holder = Holder(app: int, i: int)

  ghost predicate HoldsAt(b: Book, x: Holder, host: string) {
    0 <= x.i < |Owned(b, x.app)| && Owned(b, x.app)[x.i].0 == host
  }

  ghost function MarkedSet(ports: seq<bool>): set<int> {
    set k | 0 <= k < |ports| && ports[k]
  }

  lemma {:induction false} MarkedSetSize(ports: seq<bool>)
    ensures |MarkedSet(ports)| == Marked(ports)
  {
    if ports != [] {
      var n := |ports| - 1;
      MarkedSetSize(ports[..n]);
      assert MarkedSet(ports) == MarkedSet(ports[..n]) + if ports[n] then {n} else {};
    }
  }

  /** The port index a holder has on its host. */
  ghost function PortIndex(b: Book, x: Holder): int {
    if 0 <= x.i < |Owned(b, x.app)| then Owned(b, x.app)[x.i].1 - MPI_BASE_PORT else -1
  }

  /** Two holders on one host have different ports, so no two messages share one. */
  lemma PortsAreDistinct(b: Book, x: Holder, y: Holder, host: string)
    requires Inv(b) && HoldsAt(b, x, host) && HoldsAt(b, y, host) && x != y
    ensures PortIndex(b, x) != PortIndex(b, y)
  {
    assert AppOk(b, x.app);
    var px, py := Owned(b, x.app)[x.i], Owned(b, y.app)[y.i];
    assert px in Owned(b, x.app) && py in Owned(b, y.app);
    if x.app != y.app { assert Apart(b, x.app, y.app); }
    assert px != py;
  }

  lemma HolderIsMarked(b: Book, x: Holder, host: string)
    requires Inv(b) && HoldsAt(b, x, host)
    ensures host in b.hosts && PortIndex(b, x) in MarkedSet(b.hosts[host].mpiPorts)
  {
    assert AppOk(b, x.app);
    assert Owned(b, x.app)[x.i] in Taken(b.hosts);
  }

  lemma {:induction false} SubsetSize<T>(a: set<T>, b: set<T>)
    requires a <= b
    ensures |a| <= |b| && (|a| == |b| ==> a == b)
  {
    assert b == a + (b - a);
    assert |b| == |a| + |b - a|;
  }

  lemma {:induction false} InjectiveSize<T, U>(f: map<T, U>)
    requires forall x, y :: x in f && y in f && x != y ==> f[x] != f[y]
    ensures |f.Values| == |f.Keys|
    decreases |f.Keys|
  {
    if f.Keys != {} {
      var x :| x in f.Keys;
      var rest := f - {x};
      assert rest.Keys == f.Keys - {x};
      InjectiveSize(rest);
      forall v | v in f.Values ensures v in rest.Values + {f[x]} {
        var y :| y in f && f[y] == v;
        if y != x { assert rest[y] == v; }
      }
      assert f.Values == rest.Values + {f[x]};
      assert f[x] !in rest.Values;
    }
  }

  /** All messages in flight on a host and all slots reserved on it. */
  ghost function HoldersAt(b: Book, host: string): set<Holder> {
    set app, i | app in b.inFlight && 0 <= i < |Owned(b, app)| && Owned(b, app)[i].0 == host :: Holder(app, i)
  }

  lemma HoldersAreAll(b: Book, x: Holder, host: string)
    requires Shapes(b)
    ensures x in HoldersAt(b, host) <==> HoldsAt(b, x, host)
  {
    assert x.app in b.preloaded.Keys ==> x.app in b.inFlight.Keys;
  }

  /** Which port indexes of a host its holders have. */
  ghost function HeldIndexes(b: Book, host: string): map<Holder, int> {
    map x | x in HoldersAt(b, host) :: PortIndex(b, x)
  }

  lemma HeldAreMarked(b: Book, host: string)
    requires Inv(b) && host in b.hosts
    ensures |HeldIndexes(b, host).Values| == |HoldersAt(b, host)|
    ensures HeldIndexes(b, host).Values <= MarkedSet(b.hosts[host].mpiPorts)
  {
    var f := HeldIndexes(b, host);
    forall x, y | x in f && y in f && x != y ensures f[x] != f[y] {
      HoldersAreAll(b, x, host);
      HoldersAreAll(b, y, host);
      PortsAreDistinct(b, x, y, host);
    }
    InjectiveSize(f);
    assert f.Keys == HoldersAt(b, host);
    forall x | x in f ensures f[x] in MarkedSet(b.hosts[host].mpiPorts) {
      HoldersAreAll(b, x, host);
      HolderIsMarked(b, x, host);
    }
  }

  /** In-flight messages plus reserved slots on a host never exceed its used slots, which never exceed
      its slots; they are all the used slots iff every marked port of the host has a holder. */
  lemma SlotAccounting(b: Book, host: string)
    requires Inv(b) && host in b.hosts
    ensures |HoldersAt(b, host)| <= b.hosts[host].usedSlots <= b.hosts[host].slots
    ensures |HoldersAt(b, host)| == b.hosts[host].usedSlots <==>
            HeldIndexes(b, host).Values == MarkedSet(b.hosts[host].mpiPorts)
  {
    assert HostOk(b.hosts[host], multiset{}[host]);
    MarkedSetSize(b.hosts[host].mpiPorts);
    HeldAreMarked(b, host);
    SubsetSize(HeldIndexes(b, host).Values, MarkedSet(b.hosts[host].mpiPorts));
  }

  lemma ExactHost(b: Book, host: string)
    requires Inv(b) && Exact(b) && host in b.hosts
    ensures |HoldersAt(b, host)| == b.hosts[host].usedSlots
  {
    SlotAccounting(b, host);
    HeldAreMarked(b, host);
    forall k | k in MarkedSet(b.hosts[host].mpiPorts) ensures k in HeldIndexes(b, host).Values {
      var x := MarkHasHolder(b, host, k);
      HoldersAreAll(b, x, host);
      assert HeldIndexes(b, host)[x] == k;
    }
  }

  lemma HeldIsCovered(b: Book, host: string, k: int)
    requires Shapes(b) && k in HeldIndexes(b, host).Values
    ensures Covered(b, (host, MPI_BASE_PORT + k))
  {
    var x :| x in HeldIndexes(b, host) && HeldIndexes(b, host)[x] == k;
    HoldersAreAll(b, x, host);
    assert Owned(b, x.app)[x.i] == (host, MPI_BASE_PORT + k);
  }

  lemma EqualHostCovers(b: Book, p: Port)
    requires Inv(b) && p in Taken(b.hosts) && |HoldersAt(b, p.0)| == b.hosts[p.0].usedSlots
    ensures Covered(b, p)
  {
    hide HoldersAt, HeldIndexes, Covered, Distinct;
    SlotAccounting(b, p.0);
    HeldIsCovered(b, p.0, p.1 - MPI_BASE_PORT);
    assert p == (p.0, MPI_BASE_PORT + (p.1 - MPI_BASE_PORT));
  }

  /** The books are exact iff on every host the holders are as many as the used slots. */
  lemma ExactMeansEqual(b: Book)
    requires Inv(b)
    ensures Exact(b) <==> forall host :: host in b.hosts ==> |HoldersAt(b, host)| == b.hosts[host].usedSlots
  {
    hide Inv, HoldersAt, Covered;
    if Exact(b) {
      forall host | host in b.hosts ensures |HoldersAt(b, host)| == b.hosts[host].usedSlots { ExactHost(b, host); }
    }
    if forall host :: host in b.hosts ==> |HoldersAt(b, host)| == b.hosts[host].usedSlots {
      forall p: Port | p in Taken(b.hosts) ensures Covered(b, p) { EqualHostCovers(b, p); }
    }
  }

  lemma MarkHasHolder(b: Book, host: string, k: int) returns (x: Holder)
    requires Exact(b) && host in b.hosts && k in MarkedSet(b.hosts[host].mpiPorts)
    ensures HoldsAt(b, x, host) && PortIndex(b, x) == k
  {
    var p: Port := (host, MPI_BASE_PORT + k);
    assert p in Taken(b.hosts);
    assert Covered(b, p);
    var app :| p in Owned(b, app);
    var i :| 0 <= i < |Owned(b, app)| && Owned(b, app)[i] == p;
    x := Holder(app, i);
  }

  // ---------- runs ----------

  ghost predicate Registers(b: Book, b': Book, ip: string, slots: nat) {
    && ip != "" && ip !in b.hosts
    && b' == b.(hosts := b.hosts[ip := HostEntry(slots, 0, seq(slots, _ => false))])
  }

  lemma RegisterHosts(b: Book, b': Book, ip: string, slots: nat)
    requires HostsOk(b.hosts, multiset{}) && Registers(b, b', ip, slots)
    ensures HostsOk(b'.hosts, multiset{}) && Taken(b'.hosts) == Taken(b.hosts)
  {
    NoneMarked(slots);
    forall h | h in b'.hosts ensures HostOk(b'.hosts[h], multiset{}[h]) {
      if h != ip { assert HostOk(b.hosts[h], multiset{}[h]); }
    }
    forall p: Port ensures InUse(b'.hosts, p) <==> InUse(b.hosts, p) {}
  }

  lemma RegisterKeepsInv(b: Book, b': Book, ip: string, slots: nat)
    requires Inv(b) && Registers(b, b', ip, slots)
    ensures Inv(b') && (Exact(b) ==> Exact(b'))
  {
    RegisterHosts(b, b', ip, slots);
    forall app ensures Owned(b', app) == Owned(b, app) {}
    forall app ensures AppOk(b', app) { assert AppOk(b, app); }
    forall a, c | a != c ensures Apart(b', a, c) { assert Apart(b, a, c); }
    if Exact(b) {
      forall p: Port | p in Taken(b'.hosts) ensures Covered(b', p) {
        assert Covered(b, p);
        var app :| p in Owned(b, app);
        assert p in Owned(b', app);
      }
    }
  }
}
