/** The two-level MPI collectives: what each rank sends and receives, for every layout of ranks over
    hosts, and the proof that the ends always match. */
module MpiCollectives {
  import opened Placement
  import opened MessageNetwork

  // ---------- layout ----------

  /** hostOf is hostForRank; `order` lists the keys of ranksForHost as the map iterates them. */
  datatype World = World(hostOf: seq<string>, order: seq<string>)

  predicate ValidWorld(w: World) {
    Distinct(w.order) && HostSet(w.order) == HostSet(w.hostOf)
  }

  lemma HostIsListed(w: World, h: string)
    requires ValidWorld(w)
    ensures h in w.order <==> h in w.hostOf
  {
    assert h in HostSet(w.order) <==> h in w.order;
    assert h in HostSet(w.hostOf) <==> h in w.hostOf;
  }

  /** The ranks below k on host h, ascending. */
  function RanksBelow(hostOf: seq<string>, h: string, k: nat): (s: seq<nat>)
    requires k <= |hostOf|
    ensures forall r :: r in s <==> 0 <= r < k && hostOf[r] == h
    ensures forall i, j :: 0 <= i < j < |s| ==> s[i] < s[j]
  {
    if k == 0 then []
    else
      var s := RanksBelow(hostOf, h, k - 1);
      assert forall i :: 0 <= i < |s| ==> s[i] in s;
      s + if hostOf[k - 1] == h then [k - 1] else []
  }

  function RanksOn(w: World, h: string): (s: seq<nat>)
    ensures forall r :: r in s <==> 0 <= r < |w.hostOf| && w.hostOf[r] == h
    ensures Distinct(s)
  {
    RanksBelow(w.hostOf, h, |w.hostOf|)
  }

  /** The local leader of a host is the lowest rank on it. */
  function Leader(w: World, h: string): (r: nat)
    requires h in w.hostOf
    ensures r < |w.hostOf| && w.hostOf[r] == h
  {
    var s := RanksOn(w, h);
    assert s != [] by { var k :| 0 <= k < |w.hostOf| && w.hostOf[k] == h; assert k in s; }
    assert s[0] in s;
    s[0]
  }

  lemma LeaderIsLowest(w: World, r: nat)
    requires r < |w.hostOf|
    ensures LeaderOf(w, r) <= r && LeaderOf(w, LeaderOf(w, r)) == LeaderOf(w, r)
  {
    var s := RanksOn(w, w.hostOf[r]);
    assert r in s;
    var k :| 0 <= k < |s| && s[k] == r;
  }

  function LeaderOf(w: World, r: nat): nat
    requires r < |w.hostOf|
  {
    Leader(w, w.hostOf[r])
  }

  predicate Local(w: World, a: nat, b: nat)
    requires a < |w.hostOf| && b < |w.hostOf|
  {
    w.hostOf[a] == w.hostOf[b]
  }

  function Without(s: seq<nat>, x: nat): (t: seq<nat>)
    requires Distinct(s)
    ensures Distinct(t) && forall y :: y in t <==> y in s && y != x
  {
    if s == [] then []
    else
      assert Distinct(s[..|s| - 1]);
      var t := Without(s[..|s| - 1], x);
      assert s == s[..|s| - 1] + [s[|s| - 1]];
      assert s[|s| - 1] !in s[..|s| - 1];
      if s[|s| - 1] == x then t else t + [s[|s| - 1]]
  }

  /** The other ranks of me's host. */
  function LocalOthers(w: World, me: nat): (t: seq<nat>)
    requires me < |w.hostOf|
    ensures Distinct(t) && Bounded(t, |w.hostOf|)
    ensures forall r :: r in t <==> 0 <= r < |w.hostOf| && Local(w, r, me) && r != me
  {
    var t := Without(RanksOn(w, w.hostOf[me]), me);
    MembersBounded(t, |w.hostOf|);
    t
  }

  /** The ranks of host h a root talks to directly: all its local ranks, or the leader of another host. */
  function FanHost(w: World, root: nat, h: string): (t: seq<nat>)
    requires root < |w.hostOf| && h in w.hostOf
    ensures Distinct(t)
    ensures forall r :: r in t <==>
              0 <= r < |w.hostOf| && r != root && w.hostOf[r] == h && (Local(w, r, root) || r == LeaderOf(w, r))
  {
    if h == w.hostOf[root] then LocalOthers(w, root) else [Leader(w, h)]
  }

  function FanBelow(w: World, root: nat, k: nat): (t: seq<nat>)
    requires ValidWorld(w) && root < |w.hostOf| && k <= |w.order|
  {
    if k == 0 then []
    else
      HostIsListed(w, w.order[k - 1]);
      FanBelow(w, root, k - 1) + FanHost(w, root, w.order[k - 1])
  }

  lemma {:induction false} FanBelowMember(w: World, root: nat, k: nat, r: nat)
    requires ValidWorld(w) && root < |w.hostOf| && k <= |w.order|
    ensures r in FanBelow(w, root, k) <==>
              && r < |w.hostOf| && r != root && w.hostOf[r] in w.order[..k]
              && (Local(w, r, root) || r == LeaderOf(w, r))
  {
    if k > 0 {
      FanBelowMember(w, root, k - 1, r);
      var h := w.order[k - 1];
      HostIsListed(w, h);
      assert w.order[..k] == w.order[..k - 1] + [h];
      var a, b := FanBelow(w, root, k - 1), FanHost(w, root, h);
      assert FanBelow(w, root, k) == a + b;
      assert r in a + b <==> r in a || r in b;
    }
  }

  predicate Disjoint(a: seq<nat>, b: seq<nat>) { forall x :: x in a ==> x !in b }

  lemma DistinctConcat(a: seq<nat>, b: seq<nat>)
    requires Distinct(a) && Distinct(b) && Disjoint(a, b)
    ensures Distinct(a + b)
  {
    forall i, j | 0 <= i < |a| && 0 <= j < |b| ensures a[i] != b[j] { assert a[i] in a && b[j] in b; }
  }

  lemma FanHostsDisjoint(w: World, root: nat, k: nat)
    requires ValidWorld(w) && root < |w.hostOf| && 0 < k <= |w.order|
    ensures w.order[k - 1] in w.hostOf
    ensures Disjoint(FanBelow(w, root, k - 1), FanHost(w, root, w.order[k - 1]))
  {
    HostIsListed(w, w.order[k - 1]);
    assert w.order[k - 1] !in w.order[..k - 1];
    var a, b := FanBelow(w, root, k - 1), FanHost(w, root, w.order[k - 1]);
    forall x | x in a ensures x !in b {
      FanBelowMember(w, root, k - 1, x);
    }
  }

  lemma {:induction false} FanBelowDistinct(w: World, root: nat, k: nat)
    requires ValidWorld(w) && root < |w.hostOf| && k <= |w.order|
    ensures Distinct(FanBelow(w, root, k))
  {
    if k > 0 {
      hide ValidWorld, LeaderOf, Local, FanHost, Disjoint;
      FanHostsDisjoint(w, root, k);
      var a, b := FanBelow(w, root, k - 1), FanHost(w, root, w.order[k - 1]);
      assert FanBelow(w, root, k) == a + b;
      FanBelowDistinct(w, root, k - 1);
      DistinctConcat(a, b);
    }
  }

  lemma FanMembers(w: World, root: nat)
    requires ValidWorld(w) && root < |w.hostOf|
    ensures var t := FanBelow(w, root, |w.order|);
            && Bounded(t, |w.hostOf|)
            && forall r :: r in t <==>
                 0 <= r < |w.hostOf| && r != root && (Local(w, r, root) || r == LeaderOf(w, r))
  {
    var t := FanBelow(w, root, |w.order|);
    assert w.order[..|w.order|] == w.order;
    forall r: nat
      ensures r in t <==> r < |w.hostOf| && r != root && (Local(w, r, root) || r == LeaderOf(w, r))
    {
      FanBelowMember(w, root, |w.order|, r);
      if r < |w.hostOf| { HostIsListed(w, w.hostOf[r]); }
    }
    MembersBounded(t, |w.hostOf|);
  }

  function Fan(w: World, root: nat): (t: seq<nat>)
    requires ValidWorld(w) && root < |w.hostOf|
    ensures Distinct(t) && Bounded(t, |w.hostOf|)
    ensures forall r :: r in t <==>
              0 <= r < |w.hostOf| && r != root && (Local(w, r, root) || r == LeaderOf(w, r))
  {
    FanBelowDistinct(w, root, |w.order|);
    FanMembers(w, root);
    FanBelow(w, root, |w.order|)
  }

  // ---------- building blocks ----------

  predicate Bounded(s: seq<nat>, n: nat) {
    forall i :: 0 <= i < |s| ==> s[i] < n
  }

  lemma MembersBounded(s: seq<nat>, n: nat)
    requires forall x :: x in s ==> x < n
    ensures Bounded(s, n)
  {
    forall i | 0 <= i < |s| ensures s[i] < n { assert s[i] in s; }
  }

  function SendAll<D>(targets: seq<nat>, data: seq<D>, phase: nat): (p: Program<D>)
    requires Bounded(targets, |data|)
    ensures |p| == |targets| && forall i :: 0 <= i < |p| ==> p[i] == Send(targets[i], data[targets[i]], phase)
  {
    seq(|targets|, i requires 0 <= i < |targets| => Send(targets[i], data[targets[i]], phase))
  }

  function RecvAll<D>(sources: seq<nat>, data: seq<D>, phase: nat): (p: Program<D>)
    requires Bounded(sources, |data|)
    ensures |p| == |sources| && forall i :: 0 <= i < |p| ==> p[i] == Recv(sources[i], data[sources[i]], phase)
  {
    seq(|sources|, i requires 0 <= i < |sources| => Recv(sources[i], data[sources[i]], phase))
  }

  /** At most one message between two ranks. */
  function One<D>(yes: bool, d: D, phase: nat): seq<Stamped<D>> {
    if yes then [Stamped(d, phase)] else []
  }

  lemma SnocProjects<D>(p: Program<D>, a: Action<D>, x: nat)
    ensures SendsTo(p + [a], x) == SendsTo(p, x) + One(a.Send? && a.to == x, a.data, a.phase)
    ensures RecvsFrom(p + [a], x) == RecvsFrom(p, x) + One(a.Recv? && a.from == x, a.data, a.phase)
  {
    var q := p + [a];
    assert q[..|q| - 1] == p && q[|q| - 1] == a;
  }

  lemma LastIsNew(s: seq<nat>, x: nat)
    requires s != [] && Distinct(s)
    ensures var k := |s| - 1; Distinct(s[..k]) && s[k] !in s[..k] && (x in s <==> x in s[..k] || x == s[k])
  {
    var k := |s| - 1;
    assert s == s[..k] + [s[k]];
  }

  lemma {:induction false} SendAllProjects<D>(targets: seq<nat>, data: seq<D>, phase: nat, x: nat)
    requires Distinct(targets) && x < |data| && Bounded(targets, |data|)
    ensures SendsTo(SendAll(targets, data, phase), x) == One(x in targets, data[x], phase)
    ensures RecvsFrom(SendAll(targets, data, phase), x) == []
  {
    if targets != [] {
      var k := |targets| - 1;
      LastIsNew(targets, x);
      SendAllProjects(targets[..k], data, phase, x);
      var last := Send(targets[k], data[targets[k]], phase);
      assert SendAll(targets, data, phase) == SendAll(targets[..k], data, phase) + [last];
      SnocProjects(SendAll(targets[..k], data, phase), last, x);
    }
  }

  lemma {:induction false} RecvAllProjects<D>(sources: seq<nat>, data: seq<D>, phase: nat, x: nat)
    requires Distinct(sources) && x < |data| && Bounded(sources, |data|)
    ensures RecvsFrom(RecvAll(sources, data, phase), x) == One(x in sources, data[x], phase)
    ensures SendsTo(RecvAll(sources, data, phase), x) == []
  {
    if sources != [] {
      var k := |sources| - 1;
      LastIsNew(sources, x);
      RecvAllProjects(sources[..k], data, phase, x);
      var last := Recv(sources[k], data[sources[k]], phase);
      assert RecvAll(sources, data, phase) == RecvAll(sources[..k], data, phase) + [last];
      SnocProjects(RecvAll(sources[..k], data, phase), last, x);
    }
  }

  lemma {:induction false} ProjectConcat<D>(p: Program<D>, q: Program<D>, x: nat)
    ensures SendsTo(p + q, x) == SendsTo(p, x) + SendsTo(q, x)
    ensures RecvsFrom(p + q, x) == RecvsFrom(p, x) + RecvsFrom(q, x)
  {
    if q == [] {
      assert p + q == p;
    } else {
      var k := |q| - 1;
      ProjectConcat(p, q[..k], x);
      assert (p + q)[..|p + q| - 1] == p + q[..k];
      assert (p + q)[|p + q| - 1] == q[k];
    }
  }

  lemma {:induction false} ReceivedConcat<D>(p: Program<D>, q: Program<D>)
    ensures Received(p + q) == Received(p) + Received(q)
  {
    if q == [] {
      assert p + q == p;
    } else {
      var k := |q| - 1;
      ReceivedConcat(p, q[..k]);
      assert (p + q)[..|p + q| - 1] == p + q[..k];
    }
  }

  lemma SingleProjects<D>(a: Action<D>, x: nat)
    ensures SendsTo([a], x) == One(a.Send? && a.to == x, a.data, a.phase)
    ensures RecvsFrom([a], x) == One(a.Recv? && a.from == x, a.data, a.phase)
  {
    assert [a][..0] == [];
  }

  // ---------- communication stages ----------

  /** The patterns the collectives are made of. Data is per rank: `own` what each rank contributes,
      `merged` what its host's leader forwards for the whole host, `due` what the root expects of it. */
  datatype Stage<D> =
    | Spread(root: nat, value: D)                      // broadcast
    | Converge(root: nat, own: seq<D>, merged: seq<D>, due: seq<D>) // reduce, gather
    | Deal(root: nat, parts: seq<D>)                   // scatter
    | Exchange(table: seq<seq<D>>)                     // all-to-all
    | Join(value: D)                                   // first half of a barrier

  ghost predicate ValidStage<D>(w: World, st: Stage<D>) {
    var n := |w.hostOf|;
    match st
    case Spread(root, _) => root < n
    case Converge(root, own, merged, due) =>
      root < n && |own| == |merged| == n && due == Contributions(w, root, own, merged)
    case Deal(root, parts) => root < n && |parts| == n
    case Exchange(table) => |table| == n && forall r :: 0 <= r < n ==> |table[r]| == n
    case Join(_) => n > 0
  }

  function Const<D>(n: nat, d: D): (s: seq<D>)
    ensures |s| == n && forall i :: 0 <= i < n ==> s[i] == d
  {
    seq(n, i => d)
  }

  function Upto(n: nat): (s: seq<nat>)
    ensures Distinct(s) && forall r :: r in s <==> 0 <= r < n
  {
    if n == 0 then [] else
      var s := Upto(n - 1);
      assert forall i :: 0 <= i < |s| ==> s[i] in s;
      s + [n - 1]
  }

  /** Every rank but me, ascending. */
  function Others(n: nat, me: nat): (s: seq<nat>)
    ensures Distinct(s) && Bounded(s, n) && forall r :: r in s <==> 0 <= r < n && r != me
  {
    var s := Without(Upto(n), me);
    MembersBounded(s, n);
    s
  }

  /** What rank me does in broadcast. */
  function SpreadScript<D>(w: World, me: nat, root: nat, value: D, base: nat): Program<D>
    requires ValidWorld(w) && me < |w.hostOf| && root < |w.hostOf|
  {
    var values := Const(|w.hostOf|, value);
    if me == root then SendAll(Fan(w, root), values, base)
    else if me == LeaderOf(w, me) then
      [Recv(root, value, base + 1)] +
      if Local(w, me, root) then [] else SendAll(LocalOthers(w, me), values, base + 2)
    else [Recv(if Local(w, me, root) then root else LeaderOf(w, me), value, base + 3)]
  }

  /** What the root of a reduce or gather is sent by each rank it hears from directly. */
  function Contributions<D>(w: World, root: nat, own: seq<D>, merged: seq<D>): (s: seq<D>)
    requires root < |w.hostOf| == |own| == |merged|
    ensures |s| == |own| && forall r :: 0 <= r < |s| ==> s[r] == if Local(w, r, root) then own[r] else merged[r]
  {
    seq(|own|, r requires 0 <= r < |own| => if Local(w, r, root) then own[r] else merged[r])
  }

  /** What rank me does in reduce and gather. */
  function ConvergeScript<D>(w: World, me: nat, root: nat, own: seq<D>, merged: seq<D>, due: seq<D>,
                             base: nat): Program<D>
    requires ValidWorld(w) && me < |w.hostOf| && root < |w.hostOf| == |own| == |merged| == |due|
  {
    if me == root then RecvAll(Fan(w, root), due, base + 3)
    else if me == LeaderOf(w, me) then
      if Local(w, me, root) then [Send(root, own[me], base)]
      else RecvAll(LocalOthers(w, me), own, base + 1) + [Send(root, merged[me], base + 2)]
    else [Send(if Local(w, me, root) then root else LeaderOf(w, me), own[me], base)]
  }

  /** Column me of a table. */
  function Column<D>(table: seq<seq<D>>, me: nat): (s: seq<D>)
    requires forall r :: 0 <= r < |table| ==> me < |table[r]|
    ensures |s| == |table| && forall r :: 0 <= r < |s| ==> s[r] == table[r][me]
  {
    seq(|table|, r requires 0 <= r < |table| => table[r][me])
  }

  function Script<D>(w: World, me: nat, st: Stage<D>, base: nat): Program<D>
    requires ValidWorld(w) && me < |w.hostOf| && ValidStage(w, st)
  {
    var n := |w.hostOf|;
    match st
    case Spread(root, value) => SpreadScript(w, me, root, value, base)
    case Converge(root, own, merged, due) => ConvergeScript(w, me, root, own, merged, due, base)
    case Deal(root, parts) =>
      if me == root then SendAll(Others(n, root), parts, base) else [Recv(root, parts[me], base + 1)]
    case Exchange(table) =>
      SendAll(Others(n, me), table[me], base) +
      RecvAll(Others(n, me), Column(table, me), base + 1)
    case Join(value) =>
      if me == 0 then RecvAll(Others(n, 0), Const(n, value), base + 1) else [Send(0, value, base)]
  }

  // ---------- matching, stage by stage ----------

  /** What me sends to x in a broadcast: nothing, or one copy of the value. */
  function SpreadSent<D>(w: World, me: nat, x: nat, root: nat, value: D, base: nat): seq<Stamped<D>>
    requires me < |w.hostOf| && x < |w.hostOf| && root < |w.hostOf|
  {
    if me == root then One(x != root && (Local(w, x, root) || x == LeaderOf(w, x)), value, base)
    else One(me == LeaderOf(w, me) && !Local(w, me, root) && Local(w, x, me) && x != me, value, base + 2)
  }

  function SpreadExpected<D>(w: World, me: nat, x: nat, root: nat, value: D, base: nat): seq<Stamped<D>>
    requires me < |w.hostOf| && x < |w.hostOf| && root < |w.hostOf|
  {
    if me == root then []
    else if me == LeaderOf(w, me) then One(x == root, value, base + 1)
    else One(x == if Local(w, me, root) then root else LeaderOf(w, me), value, base + 3)
  }

  lemma SpreadRootProjects<D>(w: World, x: nat, root: nat, value: D, base: nat)
    requires ValidWorld(w) && x < |w.hostOf| && root < |w.hostOf|
    ensures SendsTo(SpreadScript(w, root, root, value, base), x) == SpreadSent(w, root, x, root, value, base)
    ensures RecvsFrom(SpreadScript(w, root, root, value, base), x) == []
  {
    SendAllProjects(Fan(w, root), Const(|w.hostOf|, value), base, x);
  }

  lemma SpreadLeaderProjects<D>(w: World, me: nat, x: nat, root: nat, value: D, base: nat)
    requires ValidWorld(w) && x < |w.hostOf| && root < |w.hostOf| && me < |w.hostOf|
    requires me != root && me == LeaderOf(w, me)
    ensures SendsTo(SpreadScript(w, me, root, value, base), x) == SpreadSent(w, me, x, root, value, base)
    ensures RecvsFrom(SpreadScript(w, me, root, value, base), x) == SpreadExpected(w, me, x, root, value, base)
  {
    var first := [Recv(root, value, base + 1)];
    SingleProjects(Recv(root, value, base + 1), x);
    if Local(w, me, root) {
      assert first + [] == first;
    } else {
      var rest := SendAll(LocalOthers(w, me), Const(|w.hostOf|, value), base + 2);
      SendAllProjects(LocalOthers(w, me), Const(|w.hostOf|, value), base + 2, x);
      ProjectConcat(first, rest, x);
    }
  }

  lemma SpreadMemberProjects<D>(w: World, me: nat, x: nat, root: nat, value: D, base: nat)
    requires ValidWorld(w) && x < |w.hostOf| && root < |w.hostOf| && me < |w.hostOf|
    requires me != root && me != LeaderOf(w, me)
    ensures SendsTo(SpreadScript(w, me, root, value, base), x) == []
    ensures RecvsFrom(SpreadScript(w, me, root, value, base), x) == SpreadExpected(w, me, x, root, value, base)
  {
    SingleProjects(Recv(if Local(w, me, root) then root else LeaderOf(w, me), value, base + 3), x);
  }

  lemma SpreadProjects<D>(w: World, me: nat, x: nat, root: nat, value: D, base: nat)
    requires ValidWorld(w) && x < |w.hostOf| && root < |w.hostOf| && me < |w.hostOf|
    ensures SendsTo(SpreadScript(w, me, root, value, base), x) == SpreadSent(w, me, x, root, value, base)
    ensures RecvsFrom(SpreadScript(w, me, root, value, base), x) == SpreadExpected(w, me, x, root, value, base)
  {
    if me == root {
      SpreadRootProjects(w, x, root, value, base);
    } else if me == LeaderOf(w, me) {
      SpreadLeaderProjects(w, me, x, root, value, base);
    } else {
      SpreadMemberProjects(w, me, x, root, value, base);
    }
  }

  lemma SpreadEdges<D>(w: World, s: nat, r: nat, root: nat, value: D, base: nat)
    requires s < |w.hostOf| && r < |w.hostOf| && root < |w.hostOf|
    ensures Meets(SpreadSent(w, s, r, root, value, base), SpreadExpected(w, r, s, root, value, base))
  {
    LeaderIsLowest(w, s);
    LeaderIsLowest(w, r);
  }

  /** What me sends to x in a reduce or gather. */
  function ConvergeSent<D>(w: World, me: nat, x: nat, root: nat, own: seq<D>, merged: seq<D>,
                           base: nat): seq<Stamped<D>>
    requires me < |w.hostOf| && x < |w.hostOf| && root < |w.hostOf| == |own| == |merged|
  {
    if me == root then []
    else if Local(w, me, root) then One(x == root, own[me], base)
    else if me == LeaderOf(w, me) then One(x == root, merged[me], base + 2)
    else One(x == LeaderOf(w, me), own[me], base)
  }

  function ConvergeExpected<D>(w: World, me: nat, x: nat, root: nat, own: seq<D>, merged: seq<D>,
                               base: nat): seq<Stamped<D>>
    requires me < |w.hostOf| && x < |w.hostOf| && root < |w.hostOf| == |own| == |merged|
  {
    if me == root then
      One(x != root && (Local(w, x, root) || x == LeaderOf(w, x)), Contributions(w, root, own, merged)[x], base + 3)
    else
      One(me == LeaderOf(w, me) && !Local(w, me, root) && Local(w, x, me) && x != me, own[x], base + 1)
  }

  lemma ConvergeLeaderProjects<D>(w: World, me: nat, x: nat, root: nat, own: seq<D>, merged: seq<D>, due: seq<D>,
                                  base: nat)
    requires ValidWorld(w) && x < |w.hostOf| && me < |w.hostOf| && root < |w.hostOf| == |own| == |merged|
    requires due == Contributions(w, root, own, merged)
    requires me != root && me == LeaderOf(w, me) && !Local(w, me, root)
    ensures SendsTo(ConvergeScript(w, me, root, own, merged, due, base), x)
            == ConvergeSent(w, me, x, root, own, merged, base)
    ensures RecvsFrom(ConvergeScript(w, me, root, own, merged, due, base), x)
            == ConvergeExpected(w, me, x, root, own, merged, base)
  {
    RecvAllProjects(LocalOthers(w, me), own, base + 1, x);
    SingleProjects(Send(root, merged[me], base + 2), x);
    ProjectConcat(RecvAll(LocalOthers(w, me), own, base + 1), [Send(root, merged[me], base + 2)], x);
  }

  lemma ConvergeProjects<D>(w: World, me: nat, x: nat, root: nat, own: seq<D>, merged: seq<D>, due: seq<D>, base: nat)
    requires ValidWorld(w) && x < |w.hostOf| && me < |w.hostOf| && root < |w.hostOf| == |own| == |merged|
    requires due == Contributions(w, root, own, merged)
    ensures SendsTo(ConvergeScript(w, me, root, own, merged, due, base), x)
            == ConvergeSent(w, me, x, root, own, merged, base)
    ensures RecvsFrom(ConvergeScript(w, me, root, own, merged, due, base), x)
            == ConvergeExpected(w, me, x, root, own, merged, base)
  {
    if me == root {
      RecvAllProjects(Fan(w, root), due, base + 3, x);
    } else if me == LeaderOf(w, me) && !Local(w, me, root) {
      ConvergeLeaderProjects(w, me, x, root, own, merged, due, base);
    } else {
      SingleProjects(Send(if Local(w, me, root) then root else LeaderOf(w, me), own[me], base), x);
    }
  }

  lemma ConvergeEdges<D>(w: World, s: nat, r: nat, root: nat, own: seq<D>, merged: seq<D>, base: nat)
    requires s < |w.hostOf| && r < |w.hostOf| && root < |w.hostOf| == |own| == |merged|
    ensures Meets(ConvergeSent(w, s, r, root, own, merged, base), ConvergeExpected(w, r, s, root, own, merged, base))
  {
    LeaderIsLowest(w, s);
    LeaderIsLowest(w, r);
  }

  lemma DealProjects<D>(w: World, me: nat, x: nat, root: nat, parts: seq<D>, base: nat)
    requires ValidWorld(w) && me < |w.hostOf| && x < |w.hostOf| && root < |w.hostOf| == |parts|
    ensures SendsTo(Script(w, me, Deal(root, parts), base), x) == One(me == root && x != root, parts[x], base)
    ensures RecvsFrom(Script(w, me, Deal(root, parts), base), x) == One(me != root && x == root, parts[me], base + 1)
  {
    if me == root {
      SendAllProjects(Others(|w.hostOf|, root), parts, base, x);
    } else {
      SingleProjects(Recv(root, parts[me], base + 1), x);
    }
  }

  lemma ExchangeProjects<D>(w: World, me: nat, x: nat, table: seq<seq<D>>, base: nat)
    requires ValidWorld(w) && me < |w.hostOf| && x < |w.hostOf| && ValidStage(w, Exchange(table))
    ensures SendsTo(Script(w, me, Exchange(table), base), x) == One(x != me, table[me][x], base)
    ensures RecvsFrom(Script(w, me, Exchange(table), base), x) == One(x != me, table[x][me], base + 1)
  {
    var n := |w.hostOf|;
    SendAllProjects(Others(n, me), table[me], base, x);
    RecvAllProjects(Others(n, me), Column(table, me), base + 1, x);
    ProjectConcat(SendAll(Others(n, me), table[me], base), RecvAll(Others(n, me), Column(table, me), base + 1), x);
  }

  lemma JoinProjects<D>(w: World, me: nat, x: nat, value: D, base: nat)
    requires ValidWorld(w) && me < |w.hostOf| && x < |w.hostOf|
    ensures SendsTo(Script(w, me, Join(value), base), x) == One(me != 0 && x == 0, value, base)
    ensures RecvsFrom(Script(w, me, Join(value), base), x) == One(me == 0 && x != 0, value, base + 1)
  {
    var n := |w.hostOf|;
    if me == 0 {
      RecvAllProjects(Others(n, 0), Const(n, value), base + 1, x);
    } else {
      SingleProjects(Send(0, value, base), x);
    }
  }

  lemma FlatMatches<D>(w: World, s: nat, r: nat, st: Stage<D>, base: nat)
    requires ValidWorld(w) && s < |w.hostOf| && r < |w.hostOf| && ValidStage(w, st) && !st.Spread? && !st.Converge?
    ensures Meets(SendsTo(Script(w, s, st, base), r), RecvsFrom(Script(w, r, st, base), s))
  {
    match st
    case Deal(root, parts) =>
      DealProjects(w, s, r, root, parts, base);
      DealProjects(w, r, s, root, parts, base);
    case Exchange(table) =>
      ExchangeProjects(w, s, r, table, base);
      ExchangeProjects(w, r, s, table, base);
    case Join(value) =>
      JoinProjects(w, s, r, value, base);
      JoinProjects(w, r, s, value, base);
  }

  /** In every stage, what s sends to r is what r expects from s, and is sent in an earlier phase. */
  lemma StageMatches<D>(w: World, s: nat, r: nat, st: Stage<D>, base: nat)
    requires ValidWorld(w) && s < |w.hostOf| && r < |w.hostOf| && ValidStage(w, st)
    ensures Meets(SendsTo(Script(w, s, st, base), r), RecvsFrom(Script(w, r, st, base), s))
  {
    if st.Spread? {
      SpreadProjects(w, s, r, st.root, st.value, base);
      SpreadProjects(w, r, s, st.root, st.value, base);
      SpreadEdges(w, s, r, st.root, st.value, base);
    } else if st.Converge? {
      ConvergeProjects(w, s, r, st.root, st.own, st.merged, st.due, base);
      ConvergeProjects(w, r, s, st.root, st.own, st.merged, st.due, base);
      ConvergeEdges(w, s, r, st.root, st.own, st.merged, base);
    } else {
      FlatMatches(w, s, r, st, base);
    }
  }

  predicate Phased<D>(p: Program<D>, lo: nat, hi: nat, n: nat) {
    Ordered(p) && InRange(p, n) && forall i :: 0 <= i < |p| ==> lo <= p[i].phase < hi
  }

  lemma BurstPhased<D>(others: seq<nat>, data: seq<D>, phase: nat)
    requires Bounded(others, |data|)
    ensures Phased(SendAll(others, data, phase), phase, phase + 1, |data|)
    ensures Phased(RecvAll(others, data, phase), phase, phase + 1, |data|)
  {
  }

  lemma PhasedConcat<D>(p: Program<D>, q: Program<D>, lo: nat, mid: nat, mid': nat, hi: nat, n: nat)
    requires Phased(p, lo, mid, n) && Phased(q, mid', hi, n) && lo <= mid <= mid' <= hi
    ensures Phased(p + q, lo, hi, n)
  {
  }

  lemma SpreadLeaderPhased<D>(w: World, me: nat, root: nat, value: D, base: nat)
    requires ValidWorld(w) && me < |w.hostOf| && root < |w.hostOf| && me != root && me == LeaderOf(w, me)
    ensures Phased(SpreadScript(w, me, root, value, base), base, base + 4, |w.hostOf|)
  {
    var first := [Recv(root, value, base + 1)];
    if Local(w, me, root) {
      assert first + [] == first;
    } else {
      var rest := SendAll(LocalOthers(w, me), Const(|w.hostOf|, value), base + 2);
      BurstPhased(LocalOthers(w, me), Const(|w.hostOf|, value), base + 2);
      PhasedConcat(first, rest, base, base + 2, base + 2, base + 4, |w.hostOf|);
    }
  }

  lemma SpreadPhased<D>(w: World, me: nat, root: nat, value: D, base: nat)
    requires ValidWorld(w) && me < |w.hostOf| && root < |w.hostOf|
    ensures Phased(SpreadScript(w, me, root, value, base), base, base + 4, |w.hostOf|)
  {
    if me == root {
      BurstPhased(Fan(w, root), Const(|w.hostOf|, value), base);
    } else if me == LeaderOf(w, me) {
      SpreadLeaderPhased(w, me, root, value, base);
    }
  }

  lemma ConvergePhased<D>(w: World, me: nat, root: nat, own: seq<D>, merged: seq<D>, due: seq<D>, base: nat)
    requires ValidWorld(w) && me < |w.hostOf| && root < |w.hostOf| == |own| == |merged|
    requires due == Contributions(w, root, own, merged)
    ensures Phased(ConvergeScript(w, me, root, own, merged, due, base), base, base + 4, |w.hostOf|)
  {
    if me == root {
      BurstPhased(Fan(w, root), due, base + 3);
    } else if me == LeaderOf(w, me) && !Local(w, me, root) {
      BurstPhased(LocalOthers(w, me), own, base + 1);
      PhasedConcat(RecvAll(LocalOthers(w, me), own, base + 1), [Send(root, merged[me], base + 2)],
                   base, base + 2, base + 2, base + 4, |w.hostOf|);
    }
  }

  lemma FlatPhased<D>(w: World, me: nat, st: Stage<D>, base: nat)
    requires ValidWorld(w) && me < |w.hostOf| && ValidStage(w, st) && !st.Spread? && !st.Converge?
    ensures Phased(Script(w, me, st, base), base, base + 4, |w.hostOf|)
  {
    var n := |w.hostOf|;
    match st
    case Deal(root, parts) => BurstPhased(Others(n, root), parts, base);
    case Exchange(table) =>
      BurstPhased(Others(n, me), table[me], base);
      BurstPhased(Others(n, me), Column(table, me), base + 1);
      PhasedConcat(SendAll(Others(n, me), table[me], base), RecvAll(Others(n, me), Column(table, me), base + 1),
                   base, base + 1, base + 1, base + 4, n);
    case Join(value) => BurstPhased(Others(n, 0), Const(n, value), base + 1);
  }

  /** A stage only talks to existing ranks and keeps within its four phases, in order. */
  lemma StagePhased<D>(w: World, me: nat, st: Stage<D>, base: nat)
    requires ValidWorld(w) && me < |w.hostOf| && ValidStage(w, st)
    ensures Phased(Script(w, me, st, base), base, base + 4, |w.hostOf|)
  {
    match st
    case Spread(root, value) => SpreadPhased(w, me, root, value, base);
    case Converge(root, own, merged, due) => ConvergePhased(w, me, root, own, merged, due, base);
    case Deal(root, parts) => FlatPhased(w, me, st, base);
    case Exchange(table) => FlatPhased(w, me, st, base);
    case Join(value) => FlatPhased(w, me, st, base);
  }

  // ---------- programs of collectives ----------

  /** The k-th stage of a program runs in phases 4k to 4k+3. */
  function StagesFrom<D>(w: World, me: nat, stages: seq<Stage<D>>, k: nat): Program<D>
    requires ValidWorld(w) && me < |w.hostOf|
    requires k <= |stages| && forall i :: 0 <= i < |stages| ==> ValidStage(w, stages[i])
    decreases |stages| - k
  {
    if k == |stages| then [] else Script(w, me, stages[k], 4 * k) + StagesFrom(w, me, stages, k + 1)
  }

  lemma MeetsConcat<D>(a: seq<Stamped<D>>, b: seq<Stamped<D>>, c: seq<Stamped<D>>, d: seq<Stamped<D>>)
    requires Meets(a, b) && Meets(c, d)
    ensures Meets(a + c, b + d)
  {
  }

  lemma {:induction false} StagesMatch<D>(w: World, stages: seq<Stage<D>>, s: nat, r: nat, k: nat)
    requires ValidWorld(w) && s < |w.hostOf| && r < |w.hostOf|
    requires k <= |stages| && forall i :: 0 <= i < |stages| ==> ValidStage(w, stages[i])
    ensures Meets(SendsTo(StagesFrom(w, s, stages, k), r), RecvsFrom(StagesFrom(w, r, stages, k), s))
    decreases |stages| - k
  {
    if k < |stages| {
      var ps, pr := Script(w, s, stages[k], 4 * k), Script(w, r, stages[k], 4 * k);
      var qs, qr := StagesFrom(w, s, stages, k + 1), StagesFrom(w, r, stages, k + 1);
      StageMatches(w, s, r, stages[k], 4 * k);
      StagesMatch(w, stages, s, r, k + 1);
      ProjectConcat(ps, qs, r);
      ProjectConcat(pr, qr, s);
      MeetsConcat(SendsTo(ps, r), RecvsFrom(pr, s), SendsTo(qs, r), RecvsFrom(qr, s));
    }
  }

  lemma {:induction false} StagesPhased<D>(w: World, me: nat, stages: seq<Stage<D>>, k: nat)
    requires ValidWorld(w) && me < |w.hostOf|
    requires k <= |stages| && forall i :: 0 <= i < |stages| ==> ValidStage(w, stages[i])
    ensures Phased(StagesFrom(w, me, stages, k), 4 * k, 4 * |stages| + 1, |w.hostOf|)
    decreases |stages| - k
  {
    if k < |stages| {
      StagePhased(w, me, stages[k], 4 * k);
      StagesPhased(w, me, stages, k + 1);
    }
  }

  function Programs<D>(w: World, stages: seq<Stage<D>>): (p: seq<Program<D>>)
    requires ValidWorld(w) && forall i :: 0 <= i < |stages| ==> ValidStage(w, stages[i])
    ensures |p| == |w.hostOf| && forall r :: 0 <= r < |p| ==> p[r] == StagesFrom(w, r, stages, 0)
  {
    seq(|w.hostOf|, r requires 0 <= r < |w.hostOf| => StagesFrom(w, r, stages, 0))
  }

  /** For every layout and every program of collectives called in the same order by all ranks, sends
      and receives agree one for one: so MessageNetwork.RunsComplete applies to all of them. */
  lemma ProgramsMatch<D>(w: World, stages: seq<Stage<D>>)
    requires ValidWorld(w) && forall i :: 0 <= i < |stages| ==> ValidStage(w, stages[i])
    ensures WellMatched(Programs(w, stages)) == true
  {
    var progs := Programs(w, stages);
    forall r | 0 <= r < |progs| ensures RankOk(progs, r) {
      StagesPhased(w, r, stages, 0);
    }
    forall s, r | 0 <= s < |progs| && 0 <= r < |progs| ensures PairMatched(progs, s, r) {
      StagesMatch(w, stages, s, r, 0);
    }
  }

  /** More stages only add to the end of what a rank does. */
  lemma {:induction false} StagesSplit<D>(w: World, me: nat, a: seq<Stage<D>>, b: seq<Stage<D>>, k: nat)
    requires ValidWorld(w) && me < |w.hostOf| && k <= |a|
    requires forall i :: 0 <= i < |a + b| ==> ValidStage(w, (a + b)[i])
    requires forall i :: 0 <= i < |a| ==> ValidStage(w, a[i])
    ensures StagesFrom(w, me, a + b, k) == StagesFrom(w, me, a, k) + StagesFrom(w, me, a + b, |a|)
    decreases |a| - k
  {
    hide Script, ValidStage, ValidWorld;
    if k < |a| {
      assert (a + b)[k] == a[k];
      StagesSplit(w, me, a, b, k + 1);
    }
  }

  // ---------- prefixes ----------

  lemma ReceivedPrefix<D>(p: Program<D>, i: nat)
    requires i <= |p|
    ensures Received(p[..i]) <= Received(p)
  {
    ReceivedConcat(p[..i], p[i..]);
    assert p[..i] + p[i..] == p;
  }
}
