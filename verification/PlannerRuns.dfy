/** The planner's calls as events on its books, and what holds in every run of them. */
module PlannerRuns {
  import opened Placement
  import opened Decisions
  import opened PlannerLedger
  import opened PlannerSteps

  // ---------- what a call does to the hosts ----------

  /** The ports in `given` are unmarked, then those in `taken` marked; no other flag changes. */
  ghost predicate FlagEffect(before: HostTable, after: HostTable, given: set<Port>, taken: set<Port>) {
    && SameShape(before, after)
    && (forall h :: h in after ==> |after[h].mpiPorts| == |before[h].mpiPorts|)
    && (forall p :: p in given ==> InUse(before, p))
    && (forall p :: p in taken ==> IsPort(before, p) && (InUse(before, p) ==> p in given))
    && forall p: Port :: InUse(after, p) <==> (InUse(before, p) && p !in given) || p in taken
  }

  function AtHost(ports: set<Port>, h: string): set<Port> { set p | p in ports && p.0 == h }

  /** And one slot goes with every port. */
  ghost predicate Effect(before: HostTable, after: HostTable, given: set<Port>, taken: set<Port>) {
    && FlagEffect(before, after, given, taken)
    && forall h :: h in after ==>
         after[h].usedSlots == before[h].usedSlots - |AtHost(given, h)| + |AtHost(taken, h)|
  }

  ghost function UsedPorts(hosts: HostTable, h: string): set<Port>
    requires h in hosts
  {
    set k | k in MarkedSet(hosts[h].mpiPorts) :: (h, MPI_BASE_PORT + k)
  }

  lemma UsedPortsSize(hosts: HostTable, h: string)
    requires h in hosts
    ensures |UsedPorts(hosts, h)| == Marked(hosts[h].mpiPorts)
    ensures forall p: Port :: p in UsedPorts(hosts, h) <==> p.0 == h && InUse(hosts, p)
  {
    var marks := MarkedSet(hosts[h].mpiPorts);
    var f := map k | k in marks :: (h, MPI_BASE_PORT + k);
    InjectiveSize(f);
    assert f.Keys == marks;
    assert f.Values == UsedPorts(hosts, h);
    MarkedSetSize(hosts[h].mpiPorts);
    forall p: Port ensures p in UsedPorts(hosts, h) <==> p.0 == h && InUse(hosts, p) {
      if p.0 == h && InUse(hosts, p) { assert p.1 - MPI_BASE_PORT in marks; }
    }
  }

  lemma MarksChange(before: HostTable, after: HostTable, given: set<Port>, taken: set<Port>, h: string)
    requires FlagEffect(before, after, given, taken) && h in before
    ensures Marked(after[h].mpiPorts) == Marked(before[h].mpiPorts) - |AtHost(given, h)| + |AtHost(taken, h)|
  {
    UsedPortsSize(before, h);
    UsedPortsSize(after, h);
    var u, g, t := UsedPorts(before, h), AtHost(given, h), AtHost(taken, h);
    assert g <= u && t !! (u - g);
    assert UsedPorts(after, h) == (u - g) + t;
  }

  /** Slots that follow the flags keep matching them. */
  lemma EffectKeepsHosts(before: HostTable, after: HostTable, given: set<Port>, taken: set<Port>)
    requires HostsOk(before, multiset{}) && Effect(before, after, given, taken)
    ensures HostsOk(after, multiset{})
  {
    forall h | h in after ensures HostOk(after[h], multiset{}[h]) {
      assert h in before.Keys;
      assert HostOk(before[h], multiset{}[h]);
      MarksChange(before, after, given, taken, h);
      MarkedBound(after[h].mpiPorts);
    }
  }

  /** Conversely, tables that match their flags have the effect their flags say. */
  lemma EffectOf(before: HostTable, after: HostTable, given: set<Port>, taken: set<Port>)
    requires HostsOk(before, multiset{}) && HostsOk(after, multiset{}) && FlagEffect(before, after, given, taken)
    ensures Effect(before, after, given, taken)
  {
    forall h | h in after
      ensures after[h].usedSlots == before[h].usedSlots - |AtHost(given, h)| + |AtHost(taken, h)|
    {
      assert h in before.Keys;
      assert HostOk(before[h], multiset{}[h]) && HostOk(after[h], multiset{}[h]);
      MarksChange(before, after, given, taken, h);
    }
  }

  function PortSet(rows: seq<Row>): set<Port> { set p | p in Ports(rows) }

  /** Claiming fresh ports is such an effect. */
  lemma NewPortsEffect(before: HostTable, after: HostTable, rows: seq<Row>)
    requires HostsOk(before, multiset{}) && HostsOk(after, multiset{}) && SameShape(before, after)
    requires NewPorts(before, after, Ports(rows))
    ensures Effect(before, after, {}, PortSet(rows))
  {
    FlagsMatch(before, after);
    forall p | p in PortSet(rows) ensures IsPort(before, p) && !InUse(before, p) {
      assert p in Taken(after) && p !in Taken(before);
      assert p.0 in before.Keys;
    }
    forall p: Port ensures InUse(after, p) <==> InUse(before, p) || p in PortSet(rows) {
      assert p in Taken(after) <==> p in Taken(before) || p in Ports(rows);
    }
    EffectOf(before, after, {}, PortSet(rows));
  }

  lemma FlagsMatch(before: HostTable, after: HostTable)
    requires HostsOk(before, multiset{}) && HostsOk(after, multiset{}) && SameShape(before, after)
    ensures forall h :: h in after ==> h in before && |after[h].mpiPorts| == |before[h].mpiPorts|
  {
    forall h | h in after ensures h in before && |after[h].mpiPorts| == |before[h].mpiPorts| {
      assert h in before.Keys;
      assert HostOk(before[h], multiset{}[h]) && HostOk(after[h], multiset{}[h]);
    }
  }

  lemma EffectNewPorts(before: HostTable, after: HostTable, rows: seq<Row>)
    requires Effect(before, after, {}, PortSet(rows)) && Distinct(Ports(rows))
    ensures NewPorts(before, after, Ports(rows))
  {
    forall p | p in Ports(rows) ensures p !in Taken(before) { assert p in PortSet(rows); }
    forall p: Port ensures p in Taken(after) <==> p in Taken(before) || p in Ports(rows) {
      assert p in Ports(rows) <==> p in PortSet(rows);
    }
  }

  // ---------- events ----------

  /** One call that changed something: a host registers; an app starts, grows, scales from its reserve or
      moves; a message of an app finishes. */
  datatype Event =
    | Register(ip: string, slots: nat)
    | Start(app: int, rows: seq<Row>, known: bool)
    | Grow(app: int, rows: seq<Row>)
    | Scale(app: int, msgs: seq<Message>)
    | Move(app: int, rows: seq<Row>)
    | Finish(app: int, k: nat)
    | Nothing

  /** The app starts on ports of its own; a known-size one has all but its first row in reserve. */
  ghost predicate Starts(b: Book, b': Book, app: int, rows: seq<Row>, known: bool) {
    && app !in b.inFlight && (known ==> PreloadOk(rows))
    && Distinct(Ports(rows)) && Effect(b.hosts, b'.hosts, {}, PortSet(rows))
    && b'.inFlight == b.inFlight[app := if known then [rows[0]] else rows]
    && b'.preloaded == if known then b.preloaded[app := rows] else b.preloaded
  }

  ghost predicate Grows(b: Book, b': Book, app: int, rows: seq<Row>) {
    && app in b.inFlight && app !in b.preloaded
    && Distinct(Ports(rows)) && Effect(b.hosts, b'.hosts, {}, PortSet(rows))
    && b'.inFlight == b.inFlight[app := b.inFlight[app] + rows] && b'.preloaded == b.preloaded
  }

  /** Rows that change host give back their port and take another; the others keep theirs. */
  ghost predicate MovesTo(b: Book, b': Book, app: int, rows: seq<Row>) {
    && app in b.inFlight && |b.inFlight[app]| == |rows| && Distinct(Ports(rows))
    && (forall k :: 0 <= k < |rows| && rows[k].host == b.inFlight[app][k].host ==>
          rows[k].mpiPort == b.inFlight[app][k].mpiPort)
    && Effect(b.hosts, b'.hosts, MovedPorts(b.inFlight[app], rows, |rows|), MovedPorts(rows, b.inFlight[app], |rows|))
    && b'.inFlight == b.inFlight[app := rows] && b'.preloaded == b.preloaded
  }

  /** A message gives back its port; the app's entry and its reserve go with its last message. */
  ghost predicate Ends(b: Book, b': Book, app: int, k: nat) {
    && app in b.inFlight && k < |b.inFlight[app]|
    && Effect(b.hosts, b'.hosts, {Ports(b.inFlight[app])[k]}, {})
    && if |b.inFlight[app]| == 1 then
         b'.inFlight == b.inFlight - {app} && b'.preloaded == b.preloaded - {app}
       else
         b'.inFlight == b.inFlight[app := Without(b.inFlight[app], k)] && b'.preloaded == b.preloaded
  }

  ghost predicate Happens(b: Book, e: Event, b': Book) {
    match e
    case Register(ip, slots) => Registers(b, b', ip, slots)
    case Start(app, rows, known) => Starts(b, b', app, rows, known)
    case Grow(app, rows) => Grows(b, b', app, rows)
    case Scale(app, msgs) => Consumes(b, b', app, msgs)
    case Move(app, rows) => MovesTo(b, b', app, rows)
    case Finish(app, k) => Ends(b, b', app, k)
    case Nothing => b' == b
  }

  /** A scale change that does not ask for every reserved row, or the end of an app that still has a
      reserve. */
  predicate Leaks(b: Book, e: Event) {
    match e
    case Scale(app, msgs) => |msgs| != |Reserved(b, app)|
    case Finish(app, _) => |Running(b, app)| == 1 && Reserved(b, app) != []
    case _ => false
  }

  // ---------- one event ----------

  lemma StartStep(b: Book, b': Book, app: int, rows: seq<Row>, known: bool)
    requires Inv(b) && Starts(b, b', app, rows, known)
    ensures Sound(b, b', app)
  {
    EffectKeepsHosts(b.hosts, b'.hosts, {}, PortSet(rows));
    EffectNewPorts(b.hosts, b'.hosts, rows);
    NewIsSound(b, b', app, rows, known);
  }

  /** Claiming for every row of a new app is a start. */
  lemma NewHappens(b: Book, b': Book, app: int, rows: seq<Row>, known: bool)
    requires Inv(b) && app !in b.inFlight && (known ==> PreloadOk(rows))
    requires HostsOk(b'.hosts, multiset{}) && SameShape(b.hosts, b'.hosts) && NewPorts(b.hosts, b'.hosts, Ports(rows))
    requires b'.inFlight == b.inFlight[app := if known then [rows[0]] else rows]
    requires b'.preloaded == if known then b.preloaded[app := rows] else b.preloaded
    ensures Starts(b, b', app, rows, known) && Sound(b, b', app) && Owned(b', app) == Ports(rows)
  {
    NewPortsEffect(b.hosts, b'.hosts, rows);
    NewIsSound(b, b', app, rows, known);
  }

  lemma GrowStep(b: Book, b': Book, app: int, rows: seq<Row>)
    requires Inv(b) && Grows(b, b', app, rows)
    ensures Sound(b, b', app)
  {
    EffectKeepsHosts(b.hosts, b'.hosts, {}, PortSet(rows));
    EffectNewPorts(b.hosts, b'.hosts, rows);
    GrowIsSound(b, b', app, rows);
  }

  /** Where the app's ports after a move come from. */
  lemma MovedPortsOwned(b: Book, b': Book, app: int, rows: seq<Row>, p: Port)
    requires Inv(b) && MovesTo(b, b', app, rows)
    ensures p in Ports(rows) ==>
              && p in Taken(b'.hosts) && (p in Ports(b.inFlight[app]) || p !in Taken(b.hosts))
              && p !in Ports(Reserved(b, app))
    ensures p in Ports(Reserved(b, app)) ==> p in Taken(b'.hosts)
    ensures p in Taken(b.hosts) && p !in Ports(b.inFlight[app]) ==> p in Taken(b'.hosts)
    ensures p in Taken(b'.hosts) ==> p in Taken(b.hosts) || p in Ports(rows)
    ensures p in Taken(b'.hosts) && p in Ports(b.inFlight[app]) ==> p in Ports(rows)
  {
    var was := b.inFlight[app];
    var given, taken := MovedPorts(was, rows, |rows|), MovedPorts(rows, was, |rows|);
    OwnedParts(b, app);
    assert InUse(b'.hosts, p) <==> (InUse(b.hosts, p) && p !in given) || p in taken;
    assert p in given ==> p in Ports(was);
    assert p in taken ==> p in Ports(rows);
    if p in Ports(rows) {
      var k :| 0 <= k < |rows| && Ports(rows)[k] == p;
      if rows[k].host == was[k].host {
        assert Ports(was)[k] == p && p in Ports(was);
        NotMovedAway(was, rows, k);
      } else {
        assert p in taken;
      }
    }
    if p in Ports(was) && p !in given { StayedPort(was, rows, p); }
  }

  lemma NotMovedAway(was: seq<Row>, rows: seq<Row>, k: nat)
    requires k < |was| == |rows| && Distinct(Ports(was)) && was[k].host == rows[k].host
    ensures Ports(was)[k] !in MovedPorts(was, rows, |rows|)
  {
  }

  lemma MoveIsSound(b: Book, b': Book, app: int, rows: seq<Row>)
    requires Inv(b) && MovesTo(b, b', app, rows)
    ensures Sound(b, b', app)
  {
    var was, res := Ports(b.inFlight[app]), Ports(Reserved(b, app));
    EffectKeepsHosts(b.hosts, b'.hosts, MovedPorts(b.inFlight[app], rows, |rows|),
                     MovedPorts(rows, b.inFlight[app], |rows|));
    OwnedParts(b, app);
    assert Owned(b, app) == was + res && Owned(b', app) == Ports(rows) + res;
    forall p: Port
      ensures p in Ports(rows) ==> p in Taken(b'.hosts) && (p in was || p !in Taken(b.hosts)) && p !in res
      ensures p in res ==> p in Taken(b'.hosts)
      ensures p in Taken(b.hosts) && p !in was ==> p in Taken(b'.hosts)
      ensures p in Taken(b'.hosts) ==> p in Taken(b.hosts) || p in Ports(rows)
      ensures p in Taken(b'.hosts) && p in was ==> p in Ports(rows)
    {
      MovedPortsOwned(b, b', app, rows, p);
    }
    hide MovesTo, Effect;
    DistinctUnion(Ports(rows), res);
    CallReplaces(b, b', app, Owned(b, app), Owned(b', app));
    SoundStep(b, b', app);
  }

  lemma SameMovers(was: seq<Row>, now: seq<Row>, rows: seq<Row>)
    requires |was| == |now| == |rows| && forall k :: 0 <= k < |rows| ==> rows[k].host == now[k].host
    ensures MovedPorts(was, rows, |rows|) == MovedPorts(was, now, |rows|)
  {
  }

  /** A row that stays keeps its port marked while others move. */
  lemma StayersFlags(was: seq<Row>, now: seq<Row>, rows: seq<Row>, p: Port)
    requires |was| == |now| == |rows| && Distinct(Ports(was)) && p in Ports(rows)
    requires forall k :: 0 <= k < |rows| ==>
               rows[k].host == now[k].host && (was[k].host == now[k].host ==> rows[k].mpiPort == was[k].mpiPort)
    ensures p in MovedPorts(rows, was, |rows|) || (p in Ports(was) && p !in MovedPorts(was, now, |rows|))
  {
    var k :| 0 <= k < |rows| && Ports(rows)[k] == p;
    if rows[k].host == was[k].host {
      assert Ports(was)[k] == p && p in Ports(was);
      NotMovedAway(was, now, k);
    }
  }

  lemma MigrationFlags(start: HostTable, mid: HostTable, cur: HostTable, was: seq<Row>, now: seq<Row>,
                       rows: seq<Row>, p: Port)
    requires |was| == |now| == |rows| && Distinct(Ports(was)) && forall q :: q in Ports(was) ==> q in Taken(start)
    requires Leaving(start, mid, was, now, |now|) && Arriving(mid, cur, was, now, rows)
    ensures var given, taken := MovedPorts(was, now, |rows|), MovedPorts(rows, was, |rows|);
            && (p in given ==> InUse(start, p))
            && (p in taken ==> InUse(cur, p) && (InUse(start, p) ==> p in given))
            && (InUse(cur, p) <==> (InUse(start, p) && p !in given) || p in taken)
  {
    var given, taken := MovedPorts(was, now, |rows|), MovedPorts(rows, was, |rows|);
    ArrivedRows(mid, cur, was, now, rows);
    assert p in Taken(mid) <==> p in Taken(start) && p !in given;
    if p in given {
      var k :| 0 <= k < |was| && Ports(was)[k] == p;
      assert p in Ports(was);
    }
    if p in taken {
      var k :| 0 <= k < |rows| && rows[k].host != was[k].host && Ports(rows)[k] == p;
      assert RowArrived(mid, cur, was[k], now[k], rows[k]);
    }
    if p in Ports(rows) { StayersFlags(was, now, rows, p); }
  }

  /** Releasing the moved rows and claiming for them again is a move. */
  lemma MigrateHappens(b: Book, mid: HostTable, b': Book, app: int, now: seq<Row>, rows: seq<Row>)
    requires Inv(b) && Migrates(b, mid, b', app, now, rows)
    ensures MovesTo(b, b', app, rows)
  {
    var was := b.inFlight[app];
    MoversHeld(b, app);
    ArrivedRows(mid, b'.hosts, was, now, rows);
    SameMovers(was, now, rows);
    FlagsMatch(b.hosts, b'.hosts);
    var given, taken := MovedPorts(was, rows, |rows|), MovedPorts(rows, was, |rows|);
    forall p: Port
      ensures p in given ==> InUse(b.hosts, p)
      ensures p in taken ==> IsPort(b.hosts, p) && (InUse(b.hosts, p) ==> p in given)
      ensures InUse(b'.hosts, p) <==> (InUse(b.hosts, p) && p !in given) || p in taken
    {
      MigrationFlags(b.hosts, mid, b'.hosts, was, now, rows, p);
      assert p.0 in b'.hosts ==> p.0 in b.hosts;
    }
    EffectOf(b.hosts, b'.hosts, given, taken);
  }

  /** Giving back one port is the end of a message. */
  lemma ReleaseEffect(before: HostTable, after: HostTable, p: Port)
    requires HostsOk(before, multiset{}) && HostsOk(after, multiset{}) && SameShape(before, after)
    requires InUse(before, p) && Taken(after) == Taken(before) - iset{p}
    ensures Effect(before, after, {p}, {})
  {
    FlagsMatch(before, after);
    forall q: Port ensures InUse(after, q) <==> InUse(before, q) && q !in {p} {
      assert q in Taken(after) <==> q in Taken(before) - iset{p};
    }
    EffectOf(before, after, {p}, {});
  }

  /** What the report of a message needs: its row's port is marked on its host. */
  lemma HeldPort(b: Book, app: int, k: nat)
    requires Inv(b) && app in b.inFlight && k < |b.inFlight[app]|
    ensures HostsOk(b.hosts, multiset{}) && InUse(b.hosts, Ports(b.inFlight[app])[k])
  {
    OwnedParts(b, app);
    assert Ports(b.inFlight[app])[k] in Ports(b.inFlight[app]);
  }

  lemma FinishHappens(b: Book, b': Book, app: int, k: nat)
    requires Inv(b) && Finishes(b, b', app, k)
    ensures Ends(b, b', app, k) && Inv(b')
    ensures Exact(b) ==> (Exact(b') <==> !(|b.inFlight[app]| == 1 && Reserved(b, app) != []))
  {
    HeldPort(b, app, k);
    ReleaseEffect(b.hosts, b'.hosts, Ports(b.inFlight[app])[k]);
    FinishLedger(b, b', app, k);
  }

  lemma EndIsFinish(b: Book, b': Book, app: int, k: nat)
    requires HostsOk(b.hosts, multiset{}) && Ends(b, b', app, k)
    ensures Finishes(b, b', app, k)
  {
    var p := Ports(b.inFlight[app])[k];
    EffectKeepsHosts(b.hosts, b'.hosts, {p}, {});
    forall q: Port ensures q in Taken(b'.hosts) <==> q in Taken(b.hosts) && q != p {}
  }

  /** A port once marked without an owner never gets one again, and is never unmarked. */
  lemma LeakStays(b: Book, b': Book, app: int, p: Port)
    requires Inv(b) && Replaces(b, b', app) && p in Taken(b.hosts) && !Covered(b, p)
    ensures !Exact(b')
  {
    assert p !in Owned(b, app);
    forall a ensures p !in Owned(b', a) {
      if a != app { assert p !in Owned(b, a); }
    }
    assert p in Taken(b'.hosts) && !Covered(b', p);
  }

  lemma InexactStays(b: Book, b': Book, app: int)
    requires Inv(b) && Replaces(b, b', app) && !Exact(b)
    ensures !Exact(b')
  {
    var p: Port :| p in Taken(b.hosts) && !Covered(b, p);
    LeakStays(b, b', app, p);
  }

  lemma RegisterStep(b: Book, b': Book, ip: string, slots: nat)
    requires Inv(b) && Registers(b, b', ip, slots)
    ensures Inv(b') && (Exact(b') <==> Exact(b))
  {
    RegisterKeepsInv(b, b', ip, slots);
    RegisterHosts(b, b', ip, slots);
    if Exact(b') {
      forall p: Port | p in Taken(b.hosts) ensures Covered(b, p) {
        assert Covered(b', p);
        var app :| p in Owned(b', app);
        assert Owned(b', app) == Owned(b, app);
      }
    }
  }

  /** Every event keeps the books right, and keeps them exact iff it does not leak. */
  lemma EventKeepsBooks(b: Book, e: Event, b': Book)
    requires Inv(b) && Happens(b, e, b')
    ensures Inv(b') && (Exact(b') <==> Exact(b) && !Leaks(b, e))
  {
    hide Inv, Exact, Replaces, Starts, Grows, MovesTo, Ends, Registers;
    match e
    case Register(ip, slots) => RegisterStep(b, b', ip, slots);
    case Start(app, rows, known) =>
      StartStep(b, b', app, rows, known);
      if !Exact(b) { InexactStays(b, b', app); }
    case Grow(app, rows) =>
      GrowStep(b, b', app, rows);
      if !Exact(b) { InexactStays(b, b', app); }
    case Scale(app, msgs) =>
      ConsumeLedger(b, b', app, msgs);
      ReservedSize(b, app);
      if !Exact(b) { InexactStays(b, b', app); }
    case Move(app, rows) =>
      MoveIsSound(b, b', app, rows);
      if !Exact(b) { InexactStays(b, b', app); }
    case Finish(app, k) =>
      FinishStep(b, b', app, k);
      if !Exact(b) { InexactStays(b, b', app); }
    case Nothing =>
  }

  lemma ReservedSize(b: Book, app: int)
    requires Inv(b) && app in b.preloaded
    ensures |Reserved(b, app)| == |b.preloaded[app]| - 1
  {
  }

  lemma FinishStep(b: Book, b': Book, app: int, k: nat)
    requires Inv(b) && Ends(b, b', app, k)
    ensures Inv(b') && Replaces(b, b', app)
    ensures Exact(b) ==> (Exact(b') <==> !(|Running(b, app)| == 1 && Reserved(b, app) != []))
  {
    EndIsFinish(b, b', app, k);
    FinishLedger(b, b', app, k);
  }

  // ---------- every run ----------

  /** A run from a planner without hosts: one event between each two books. */
  ghost predicate IsRun(books: seq<Book>, events: seq<Event>) {
    && |books| == |events| + 1 && books[0] == Book(map[], map[], map[])
    && forall k, n :: 0 <= k && n == k + 1 < |books| ==> Happens(books[k], events[k], books[n])
  }

  ghost predicate NoneLeaks(books: seq<Book>, events: seq<Event>)
    requires |books| == |events| + 1
  {
    forall k :: 0 <= k < |events| ==> !Leaks(books[k], events[k])
  }

  lemma {:induction false} RunKeepsBooks(books: seq<Book>, events: seq<Event>)
    requires IsRun(books, events)
    ensures Inv(books[|events|]) && (Exact(books[|events|]) <==> NoneLeaks(books, events))
    decreases |events|
  {
    hide Inv, Exact, Happens, Leaks;
    var n := |events|;
    if n == 0 {
      EmptyBooks();
    } else {
      var front, prev, last := books[..n], books[n - 1], books[n];
      assert front[n - 1] == prev && IsRun(front, events[..n - 1]);
      RunKeepsBooks(front, events[..n - 1]);
      assert Happens(prev, events[n - 1], last);
      EventKeepsBooks(prev, events[n - 1], last);
      assert forall k :: 0 <= k < n - 1 ==> front[k] == books[k] && events[..n - 1][k] == events[k];
    }
  }

  lemma EmptyBooks()
    ensures Inv(Book(map[], map[], map[])) && Exact(Book(map[], map[], map[]))
  {
    forall app ensures AppOk(Book(map[], map[], map[]), app) {}
  }

  /** In every run of the planner's calls, on every host: in-flight messages plus reserved slots are at
      most the used slots, which are at most the slots, and no two of them share a port. They make up all
      used slots of every host iff no app ended before its scale change and every scale change asked for
      every reserved row. */
  lemma RunsKeepAccounts(books: seq<Book>, events: seq<Event>)
    requires IsRun(books, events)
    ensures var b := books[|events|];
            && (forall host :: host in b.hosts ==>
                  |HoldersAt(b, host)| <= b.hosts[host].usedSlots <= b.hosts[host].slots)
            && (forall host, x, y :: HoldsAt(b, x, host) && HoldsAt(b, y, host) && x != y ==>
                  PortIndex(b, x) != PortIndex(b, y))
            && ((forall host :: host in b.hosts ==> |HoldersAt(b, host)| == b.hosts[host].usedSlots)
                <==> NoneLeaks(books, events))
  {
    var b := books[|events|];
    RunKeepsBooks(books, events);
    ExactMeansEqual(b);
    forall host | host in b.hosts ensures |HoldersAt(b, host)| <= b.hosts[host].usedSlots <= b.hosts[host].slots {
      SlotAccounting(b, host);
    }
    forall host, x, y | HoldsAt(b, x, host) && HoldsAt(b, y, host) && x != y
      ensures PortIndex(b, x) != PortIndex(b, y)
    {
      PortsAreDistinct(b, x, y, host);
    }
  }
}
