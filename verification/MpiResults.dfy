/** What the two-level collectives compute: the same as the flat ones, for every layout. */
module MpiResults {
  import opened Options
  import opened Placement
  import opened MessageNetwork
  import opened MpiCollectives
  import opened MpiPrograms

  // ---------- reduction operators ----------

  datatype Op = Max | Min | Sum

  type Buffer = seq<int>

  function Apply(op: Op, a: int, b: int): int {
    match op
    case Max => if a < b then b else a
    case Min => if a < b then a else b
    case Sum => a + b
  }

  function Combine(op: Op, x: Buffer, y: Buffer): (z: Buffer)
    ensures |z| == if |x| < |y| then |x| else |y|
    ensures forall i :: 0 <= i < |z| ==> z[i] == Apply(op, x[i], y[i])
  {
    seq(if |x| < |y| then |x| else |y|, i requires 0 <= i < |x| && i < |y| => Apply(op, x[i], y[i]))
  }

  /** op_reduce: folds `input` into `output` in place, element by element. */
  method OpReduce(op: Op, input: Buffer, output: array<int>)
    requires |input| == output.Length
    modifies output
    ensures output[..] == Combine(op, old(output[..]), input)
    ensures op.Sum? ==> forall i :: 0 <= i < output.Length ==> output[i] == old(output[i]) + input[i]
    ensures op.Max? ==> forall i :: 0 <= i < output.Length ==>
              && output[i] >= old(output[i]) && output[i] >= input[i]
              && (output[i] == old(output[i]) || output[i] == input[i])
    ensures op.Min? ==> forall i :: 0 <= i < output.Length ==>
              && output[i] <= old(output[i]) && output[i] <= input[i]
              && (output[i] == old(output[i]) || output[i] == input[i])
  {
    for slot := 0 to output.Length
      invariant forall i :: 0 <= i < slot ==> output[i] == Apply(op, old(output[i]), input[i])
      invariant forall i :: slot <= i < output.Length ==> output[i] == old(output[i])
    {
      output[slot] := Apply(op, output[slot], input[slot]);
    }
  }

  /** A partial result; None stands for "nothing reduced yet". */
  type Partial = Option<Buffer>

  function Plus(op: Op, x: Partial, y: Partial): Partial {
    if x.None? then y else if y.None? then x else Some(Combine(op, x.value, y.value))
  }

  lemma PlusLaws(op: Op, x: Partial, y: Partial, z: Partial)
    ensures Plus(op, x, y) == Plus(op, y, x)
    ensures Plus(op, Plus(op, x, y), z) == Plus(op, x, Plus(op, y, z))
  {
    if x.Some? && y.Some? {
      assert Combine(op, x.value, y.value) == Combine(op, y.value, x.value);
      if z.Some? {
        assert Combine(op, Combine(op, x.value, y.value), z.value)
               == Combine(op, x.value, Combine(op, y.value, z.value));
      }
    }
  }

  /** The reduction of the buffers of a set of ranks, each exactly once. */
  ghost function Over(op: Op, bufs: seq<Buffer>, s: set<nat>): Partial
    requires forall r :: r in s ==> r < |bufs|
  {
    if s == {} then None
    else
      var r := Pick(s);
      Plus(op, Some(bufs[r]), Over(op, bufs, s - {r}))
  }

  ghost function Pick<T>(s: set<T>): T
    requires s != {}
    ensures Pick(s) in s
  {
    var x :| x in s; x
  }

  /** It does not matter in which order the ranks are taken. */
  lemma {:induction false} OverInsert(op: Op, bufs: seq<Buffer>, s: set<nat>, r: nat)
    requires (forall q :: q in s ==> q < |bufs|) && r < |bufs| && r !in s
    ensures Over(op, bufs, s + {r}) == Plus(op, Some(bufs[r]), Over(op, bufs, s))
    decreases |s|
  {
    var t := s + {r};
    var p := Pick(t);
    if p == r {
      assert t - {p} == s;
    } else {
      var u := s - {p};
      assert t - {p} == u + {r};
      OverInsert(op, bufs, u, r);
      OverInsert(op, bufs, u, p);
      assert u + {p} == s;
      PlusSwap(op, Some(bufs[p]), Some(bufs[r]), Over(op, bufs, u));
    }
  }

  lemma PlusSwap(op: Op, x: Partial, y: Partial, z: Partial)
    ensures Plus(op, x, Plus(op, y, z)) == Plus(op, y, Plus(op, x, z))
  {
    PlusLaws(op, x, y, z);
    PlusLaws(op, y, x, z);
  }

  lemma {:induction false} OverUnion(op: Op, bufs: seq<Buffer>, s: set<nat>, t: set<nat>)
    requires s !! t && forall q :: q in s || q in t ==> q < |bufs|
    ensures Over(op, bufs, s + t) == Plus(op, Over(op, bufs, s), Over(op, bufs, t))
    decreases |s|
  {
    if s == {} {
      assert s + t == t;
    } else {
      var p := Pick(s);
      var u := s - {p};
      OverUnion(op, bufs, u, t);
      assert u + t + {p} == s + t;
      OverInsert(op, bufs, u + t, p);
      PlusLaws(op, Some(bufs[p]), Over(op, bufs, u), Over(op, bufs, t));
    }
  }

  // ---------- folding received buffers ----------

  /** A rank folds what it receives into what it has, in order of arrival. */
  function Fold(op: Op, acc: Partial, data: seq<Partial>): Partial {
    if data == [] then acc else Plus(op, Fold(op, acc, data[..|data| - 1]), data[|data| - 1])
  }

  lemma {:induction false} FoldConcat(op: Op, acc: Partial, a: seq<Partial>, b: seq<Partial>)
    ensures Fold(op, acc, a + b) == Fold(op, Fold(op, acc, a), b)
  {
    if b == [] {
      assert a + b == a;
    } else {
      var k := |b| - 1;
      assert (a + b)[..|a + b| - 1] == a + b[..k];
      FoldConcat(op, acc, a, b[..k]);
    }
  }

  lemma FoldSnoc(op: Op, acc: Partial, data: seq<Partial>, i: nat)
    requires i < |data|
    ensures Fold(op, acc, data[..i + 1]) == Plus(op, Fold(op, acc, data[..i]), data[i])
  {
    assert data[..i + 1][..i] == data[..i];
  }

  function Own(bufs: seq<Buffer>): (s: seq<Partial>)
    ensures |s| == |bufs| && forall r :: 0 <= r < |s| ==> s[r] == Some(bufs[r])
  {
    seq(|bufs|, r requires 0 <= r < |bufs| => Some(bufs[r]))
  }

  function Pieces<D>(data: seq<D>, ranks: seq<nat>): (s: seq<D>)
    requires Bounded(ranks, |data|)
    ensures |s| == |ranks| && forall i :: 0 <= i < |s| ==> s[i] == data[ranks[i]]
  {
    seq(|ranks|, i requires 0 <= i < |ranks| => data[ranks[i]])
  }

  function Members(s: seq<nat>): set<nat> { set r | r in s }

  /** Folding the buffers of distinct ranks extends a reduction by exactly those ranks. */
  lemma {:induction false} FoldOver(op: Op, bufs: seq<Buffer>, ranks: seq<nat>, s: set<nat>)
    requires Distinct(ranks) && Bounded(ranks, |bufs|) && s !! Members(ranks)
    requires forall q :: q in s ==> q < |bufs|
    ensures Bounded(ranks, |Own(bufs)|)
    ensures forall q :: q in s + Members(ranks) ==> q < |bufs|
    ensures Fold(op, Over(op, bufs, s), Pieces(Own(bufs), ranks)) == Over(op, bufs, s + Members(ranks))
  {
    if ranks == [] {
      assert s + Members(ranks) == s;
    } else {
      var k := |ranks| - 1;
      var rest := ranks[..k];
      assert ranks == rest + [ranks[k]];
      assert Members(ranks) == Members(rest) + {ranks[k]};
      FoldOver(op, bufs, rest, s);
      assert Pieces(Own(bufs), ranks)[..k] == Pieces(Own(bufs), rest);
      assert Pieces(Own(bufs), ranks)[..k + 1] == Pieces(Own(bufs), ranks);
      FoldSnoc(op, Over(op, bufs, s), Pieces(Own(bufs), ranks), k);
      hide Fold, Over;
      assert s + Members(ranks) == (s + Members(rest)) + {ranks[k]};
      OverInsert(op, bufs, s + Members(rest), ranks[k]);
      PlusLaws(op, Over(op, bufs, s + Members(rest)), Some(bufs[ranks[k]]), None);
    }
  }

  // ---------- reduce ----------

  ghost function RanksIn(w: World, hosts: seq<string>): set<nat> {
    set r: nat | r < |w.hostOf| && w.hostOf[r] in hosts
  }

  ghost function HostRanks(w: World, r: nat): set<nat>
    requires r < |w.hostOf|
  {
    set q: nat | q < |w.hostOf| && Local(w, q, r)
  }

  /** What the leader of r's host forwards: the reduction over its whole host. */
  ghost function Merged(w: World, op: Op, bufs: seq<Buffer>): (s: seq<Partial>)
    requires |bufs| == |w.hostOf|
    ensures |s| == |bufs| && forall r :: 0 <= r < |s| ==> s[r] == Over(op, bufs, HostRanks(w, r))
  {
    seq(|bufs|, r requires 0 <= r < |bufs| => Over(op, bufs, HostRanks(w, r)))
  }

  lemma OverOne(op: Op, bufs: seq<Buffer>, r: nat)
    requires r < |bufs|
    ensures Over(op, bufs, {r}) == Some(bufs[r])
  {
    OverInsert(op, bufs, {}, r);
    assert {} + {r} == {r};
  }

  /** A leader that folds in its local ranks holds the reduction over its host. */
  lemma LeaderReduces(w: World, op: Op, bufs: seq<Buffer>, me: nat)
    requires me < |w.hostOf| == |bufs|
    ensures Fold(op, Some(bufs[me]), Pieces(Own(bufs), LocalOthers(w, me))) == Merged(w, op, bufs)[me]
  {
    OverOne(op, bufs, me);
    FoldOver(op, bufs, LocalOthers(w, me), {me});
    assert {me} + Members(LocalOthers(w, me)) == HostRanks(w, me);
  }

  lemma RootFoldLocal(w: World, op: Op, bufs: seq<Buffer>, root: nat, hosts: seq<string>)
    requires root < |w.hostOf| == |bufs| && w.hostOf[root] !in hosts
    ensures Bounded(LocalOthers(w, root), |bufs|)
    ensures var data := Contributions(w, root, Own(bufs), Merged(w, op, bufs));
            Fold(op, Over(op, bufs, {root} + RanksIn(w, hosts)), Pieces(data, LocalOthers(w, root)))
            == Over(op, bufs, {root} + RanksIn(w, hosts + [w.hostOf[root]]))
  {
    var data := Contributions(w, root, Own(bufs), Merged(w, op, bufs));
    var others := LocalOthers(w, root);
    forall i | 0 <= i < |others| ensures data[others[i]] == Own(bufs)[others[i]] { assert others[i] in others; }
    assert Pieces(data, others) == Pieces(Own(bufs), others);
    FoldOver(op, bufs, others, {root} + RanksIn(w, hosts));
    assert {root} + RanksIn(w, hosts) + Members(others) == {root} + RanksIn(w, hosts + [w.hostOf[root]]);
  }

  lemma RootFoldRemote(w: World, op: Op, bufs: seq<Buffer>, root: nat, hosts: seq<string>, h: string)
    requires root < |w.hostOf| == |bufs| && h !in hosts && h in w.hostOf && h != w.hostOf[root]
    ensures var data := Contributions(w, root, Own(bufs), Merged(w, op, bufs));
            Plus(op, Over(op, bufs, {root} + RanksIn(w, hosts)), data[Leader(w, h)])
            == Over(op, bufs, {root} + RanksIn(w, hosts + [h]))
  {
    var s, t := {root} + RanksIn(w, hosts), HostRanks(w, Leader(w, h));
    OverUnion(op, bufs, s, t);
    assert s + t == {root} + RanksIn(w, hosts + [h]);
  }

  lemma FoldPieces(op: Op, acc: Partial, data: seq<Partial>, a: seq<nat>, b: seq<nat>)
    requires Bounded(a, |data|) && Bounded(b, |data|)
    ensures Bounded(a + b, |data|)
    ensures Fold(op, acc, Pieces(data, a + b)) == Fold(op, Fold(op, acc, Pieces(data, a)), Pieces(data, b))
  {
    assert Pieces(data, a + b) == Pieces(data, a) + Pieces(data, b);
    FoldConcat(op, acc, Pieces(data, a), Pieces(data, b));
  }

  lemma FanBelowStep(w: World, root: nat, k: nat)
    requires ValidWorld(w) && root < |w.hostOf| && 0 < k <= |w.order|
    ensures var h := w.order[k - 1];
            && h in w.hostOf && h !in w.order[..k - 1] && w.order[..k] == w.order[..k - 1] + [h]
            && FanBelow(w, root, k) == FanBelow(w, root, k - 1) + FanHost(w, root, h)
            && Bounded(FanHost(w, root, h), |w.hostOf|)
  {
    HostIsListed(w, w.order[k - 1]);
    MembersBounded(FanHost(w, root, w.order[k - 1]), |w.hostOf|);
  }

  lemma FanBelowBounded(w: World, root: nat, k: nat)
    requires ValidWorld(w) && root < |w.hostOf| && k <= |w.order|
    ensures Bounded(FanBelow(w, root, k), |w.hostOf|)
  {
    forall r | r in FanBelow(w, root, k) ensures r < |w.hostOf| { FanBelowMember(w, root, k, r); }
    MembersBounded(FanBelow(w, root, k), |w.hostOf|);
  }

  /** After the first k hosts, the root has reduced itself and every rank on those hosts. */
  lemma {:induction false} RootFold(w: World, op: Op, bufs: seq<Buffer>, root: nat, k: nat)
    requires ValidWorld(w) && root < |w.hostOf| == |bufs| && k <= |w.order|
    ensures Bounded(FanBelow(w, root, k), |bufs|)
    ensures var data := Contributions(w, root, Own(bufs), Merged(w, op, bufs));
            Fold(op, Some(bufs[root]), Pieces(data, FanBelow(w, root, k)))
            == Over(op, bufs, {root} + RanksIn(w, w.order[..k]))
  {
    hide Fold, Over, Contributions, FanBelow, RanksIn, Merged, Own, ValidWorld;
    FanBelowBounded(w, root, k);
    if k == 0 {
      RootFoldNone(w, op, bufs, root);
    } else {
      FanBelowBounded(w, root, k - 1);
      RootFold(w, op, bufs, root, k - 1);
      RootFoldStep(w, op, bufs, root, k);
    }
  }

  lemma RootFoldNone(w: World, op: Op, bufs: seq<Buffer>, root: nat)
    requires ValidWorld(w) && root < |w.hostOf| == |bufs|
    ensures var data := Contributions(w, root, Own(bufs), Merged(w, op, bufs));
            Fold(op, Some(bufs[root]), Pieces(data, FanBelow(w, root, 0)))
            == Over(op, bufs, {root} + RanksIn(w, w.order[..0]))
  {
    hide Contributions, Merged, Own, ValidWorld;
    OverOne(op, bufs, root);
    assert {root} + RanksIn(w, w.order[..0]) == {root};
  }

  lemma RootFoldStep(w: World, op: Op, bufs: seq<Buffer>, root: nat, k: nat)
    requires ValidWorld(w) && root < |w.hostOf| == |bufs| && 0 < k <= |w.order|
    requires Bounded(FanBelow(w, root, k - 1), |bufs|) && Bounded(FanBelow(w, root, k), |bufs|)
    requires var data := Contributions(w, root, Own(bufs), Merged(w, op, bufs));
             Fold(op, Some(bufs[root]), Pieces(data, FanBelow(w, root, k - 1)))
             == Over(op, bufs, {root} + RanksIn(w, w.order[..k - 1]))
    ensures var data := Contributions(w, root, Own(bufs), Merged(w, op, bufs));
            Fold(op, Some(bufs[root]), Pieces(data, FanBelow(w, root, k)))
            == Over(op, bufs, {root} + RanksIn(w, w.order[..k]))
  {
    hide Fold, Over, Contributions, FanHost, FanBelow, RanksIn, Merged, Own, ValidWorld;
    var data := Contributions(w, root, Own(bufs), Merged(w, op, bufs));
    var h := w.order[k - 1];
    FanBelowStep(w, root, k);
    FoldPieces(op, Some(bufs[root]), data, FanBelow(w, root, k - 1), FanHost(w, root, h));
    RootFoldHost(w, op, bufs, root, w.order[..k - 1], h);
  }

  lemma RootFoldHost(w: World, op: Op, bufs: seq<Buffer>, root: nat, hosts: seq<string>, h: string)
    requires root < |w.hostOf| == |bufs| && h !in hosts && h in w.hostOf && Bounded(FanHost(w, root, h), |bufs|)
    ensures var data := Contributions(w, root, Own(bufs), Merged(w, op, bufs));
            Fold(op, Over(op, bufs, {root} + RanksIn(w, hosts)), Pieces(data, FanHost(w, root, h)))
            == Over(op, bufs, {root} + RanksIn(w, hosts + [h]))
  {
    if h == w.hostOf[root] {
      RootFoldLocal(w, op, bufs, root, hosts);
    } else {
      RootFoldRemote(w, op, bufs, root, hosts, h);
      var data := Contributions(w, root, Own(bufs), Merged(w, op, bufs));
      assert Pieces(data, FanHost(w, root, h)) == [data[Leader(w, h)]];
      FoldOne(op, Over(op, bufs, {root} + RanksIn(w, hosts)), data[Leader(w, h)]);
    }
  }

  lemma FoldOne(op: Op, acc: Partial, x: Partial)
    ensures Fold(op, acc, [x]) == Plus(op, acc, x)
  {
    assert [x][..0] == [];
  }

  /** The flat reduction: every rank's buffer once, in rank order. */
  function FlatReduce(op: Op, bufs: seq<Buffer>): Partial { Fold(op, None, Own(bufs)) }

  lemma FlatIsOver(op: Op, bufs: seq<Buffer>)
    ensures FlatReduce(op, bufs) == Over(op, bufs, Members(Upto(|bufs|)))
  {
    var ranks := Upto(|bufs|);
    MembersBounded(ranks, |bufs|);
    FoldOver(op, bufs, ranks, {});
    UptoIsIdentity(|bufs|);
    assert Pieces(Own(bufs), ranks) == Own(bufs);
    assert {} + Members(ranks) == Members(ranks);
  }

  /** All ranks contribute as many elements. */
  predicate SameSize(bufs: seq<Buffer>, n: nat) { forall r :: 0 <= r < |bufs| ==> |bufs[r]| == n }

  function SumAt(bufs: seq<Buffer>, i: nat): int
    requires forall r :: 0 <= r < |bufs| ==> i < |bufs[r]|
  {
    if bufs == [] then 0 else SumAt(bufs[..|bufs| - 1], i) + bufs[|bufs| - 1][i]
  }

  /** x is the greatest, the least or the sum of the ranks' i-th elements. */
  predicate ReducesAt(op: Op, bufs: seq<Buffer>, i: nat, x: int)
    requires forall r :: 0 <= r < |bufs| ==> i < |bufs[r]|
  {
    match op
    case Max => (forall r :: 0 <= r < |bufs| ==> bufs[r][i] <= x) && exists r :: 0 <= r < |bufs| && bufs[r][i] == x
    case Min => (forall r :: 0 <= r < |bufs| ==> bufs[r][i] >= x) && exists r :: 0 <= r < |bufs| && bufs[r][i] == x
    case Sum => x == SumAt(bufs, i)
  }

  ghost predicate Reduces(op: Op, bufs: seq<Buffer>, n: nat, v: Buffer)
    requires SameSize(bufs, n)
  {
    |v| == n && forall i :: 0 <= i < n ==> ReducesAt(op, bufs, i, v[i])
  }

  lemma ReducesNext(op: Op, bufs: seq<Buffer>, i: nat, x: int)
    requires |bufs| > 1 && forall r :: 0 <= r < |bufs| ==> i < |bufs[r]|
    requires ReducesAt(op, bufs[..|bufs| - 1], i, x)
    ensures ReducesAt(op, bufs, i, Apply(op, x, bufs[|bufs| - 1][i]))
  {
    var n := |bufs| - 1;
    var y := Apply(op, x, bufs[n][i]);
    if !op.Sum? {
      var r :| 0 <= r < n && bufs[..n][r][i] == x;
      assert bufs[r][i] == x;
      assert forall q :: 0 <= q < n ==> bufs[q] == bufs[..n][q];
      assert bufs[r][i] == y || bufs[n][i] == y;
    }
  }

  /** The flat reduction is, element by element, the greatest, the least or the sum over the ranks. */
  lemma {:induction false} FlatReduceMeans(op: Op, bufs: seq<Buffer>, n: nat)
    requires bufs != [] && SameSize(bufs, n)
    ensures FlatReduce(op, bufs).Some? && Reduces(op, bufs, n, FlatReduce(op, bufs).value)
  {
    var k := |bufs| - 1;
    assert Own(bufs)[..k + 1] == Own(bufs) && Own(bufs)[..k] == Own(bufs[..k]);
    FoldSnoc(op, None, Own(bufs), k);
    if k == 0 {
      assert Own(bufs)[..0] == [];
      forall i | 0 <= i < n ensures ReducesAt(op, bufs, i, bufs[0][i]) { SumOfOne(bufs, i); }
    } else {
      FlatReduceMeans(op, bufs[..k], n);
      var v := FlatReduce(op, bufs[..k]).value;
      forall i | 0 <= i < n ensures ReducesAt(op, bufs, i, Combine(op, v, bufs[k])[i]) {
        ReducesNext(op, bufs, i, v[i]);
      }
    }
  }

  lemma SumOfOne(bufs: seq<Buffer>, i: nat)
    requires |bufs| == 1 && i < |bufs[0]|
    ensures SumAt(bufs, i) == bufs[0][i]
  {
    assert SumAt(bufs[..0], i) == 0;
  }

  lemma {:induction false} UptoIsIdentity(n: nat)
    ensures |Upto(n)| == n && forall i :: 0 <= i < n ==> Upto(n)[i] == i
  {
    if n > 0 { UptoIsIdentity(n - 1); }
  }

  lemma AllRanksListed(w: World, root: nat)
    requires ValidWorld(w) && root < |w.hostOf|
    ensures {root} + RanksIn(w, w.order) == Members(Upto(|w.hostOf|))
  {
    forall r: nat | r < |w.hostOf| ensures w.hostOf[r] in w.order { HostIsListed(w, w.hostOf[r]); }
  }

  /** Two-level reduce equals the flat one: folding what the root receives into its own buffer gives
      the reduction of every rank's buffer, each exactly once. */
  lemma RootReduces(w: World, op: Op, bufs: seq<Buffer>, root: nat)
    requires ValidWorld(w) && root < |w.hostOf| == |bufs|
    ensures var data := Contributions(w, root, Own(bufs), Merged(w, op, bufs));
            Fold(op, Some(bufs[root]), Pieces(data, Fan(w, root))) == FlatReduce(op, bufs)
  {
    RootFold(w, op, bufs, root, |w.order|);
    assert w.order[..|w.order|] == w.order;
    AllRanksListed(w, root);
    FlatIsOver(op, bufs);
  }

  // ---------- ranks that compute what they send ----------

  lemma {:induction false} ReceivedRecvAll<D>(ranks: seq<nat>, data: seq<D>, phase: nat)
    requires Bounded(ranks, |data|)
    ensures Received(RecvAll(ranks, data, phase)) == Pieces(data, ranks)
  {
    if ranks != [] {
      var k := |ranks| - 1;
      ReceivedRecvAll(ranks[..k], data, phase);
      assert RecvAll(ranks, data, phase)[..k] == RecvAll(ranks[..k], data, phase);
      assert Pieces(data, ranks)[..k] == Pieces(data, ranks[..k]);
      assert Pieces(data, ranks) == Pieces(data, ranks[..k]) + [data[ranks[k]]];
    }
  }

  lemma {:induction false} ReceivedNothing<D>(p: Program<D>)
    requires forall i :: 0 <= i < |p| ==> p[i].Send?
    ensures Received(p) == []
  {
    if p != [] { ReceivedNothing(p[..|p| - 1]); }
  }

  /** A rank in a converging collective, optionally followed by a broadcast of the result. The root
      finishes from what it received; a remote leader merges its local ranks and later forwards the
      result; everyone else sends its own data and keeps the last thing received. */
  function Collective<D>(w: World, root: nat, own: seq<D>, finish: seq<D> -> D,
                         mergeUp: (nat, seq<D>) -> D): Behaviour<D>
    requires root < |w.hostOf| == |own|
  {
    (me: nat, pc: nat, got: seq<D>) =>
      if me == root || me >= |w.hostOf| then finish(got)
      else if me == LeaderOf(w, me) && !Local(w, me, root) && |got| == |LocalOthers(w, me)| then mergeUp(me, got)
      else if got == [] then own[me]
      else got[|got| - 1]
  }

  ghost predicate FinishesRight<D>(w: World, root: nat, own: seq<D>, merged: seq<D>, total: D, finish: seq<D> -> D)
    requires ValidWorld(w) && root < |w.hostOf| == |own| == |merged|
  {
    finish(Pieces(Contributions(w, root, own, merged), Fan(w, root))) == total
  }

  ghost predicate MergesRight<D>(w: World, own: seq<D>, merged: seq<D>, mergeUp: (nat, seq<D>) -> D, me: nat)
    requires me < |w.hostOf| == |own| == |merged|
  {
    me == LeaderOf(w, me) ==> mergeUp(me, Pieces(own, LocalOthers(w, me))) == merged[me]
  }

  /** What it takes for the local computations to be right. */
  ghost predicate Computes<D>(w: World, root: nat, own: seq<D>, merged: seq<D>, total: D,
                              finish: seq<D> -> D, mergeUp: (nat, seq<D>) -> D)
    requires ValidWorld(w) && root < |w.hostOf| == |own| == |merged|
  {
    && FinishesRight(w, root, own, merged, total, finish)
    && forall me :: 0 <= me < |w.hostOf| ==> MergesRight(w, own, merged, mergeUp, me)
  }

  function TwoStages<D>(w: World, root: nat, own: seq<D>, merged: seq<D>, total: D, share: bool): (s: seq<Stage<D>>)
    requires root < |w.hostOf| == |own| == |merged|
    ensures AllValid(w, s)
  {
    [Converge(root, own, merged, Contributions(w, root, own, merged))] + if share then [Spread(root, total)] else []
  }

  /** The converging half, and then the broadcast if there is one. */
  function UpScript<D>(w: World, me: nat, root: nat, own: seq<D>, merged: seq<D>): Program<D>
    requires ValidWorld(w) && me < |w.hostOf| && root < |w.hostOf| == |own| == |merged|
  {
    ConvergeScript(w, me, root, own, merged, Contributions(w, root, own, merged), 0)
  }

  function ShareScript<D>(w: World, me: nat, root: nat, total: D, share: bool): Program<D>
    requires ValidWorld(w) && me < |w.hostOf| && root < |w.hostOf|
  {
    if share then SpreadScript(w, me, root, total, 4) else []
  }

  lemma TwoStageProgram<D>(w: World, me: nat, root: nat, own: seq<D>, merged: seq<D>, total: D, share: bool)
    requires ValidWorld(w) && me < |w.hostOf| && root < |w.hostOf| == |own| == |merged|
    ensures StagesFrom(w, me, TwoStages(w, root, own, merged, total, share), 0)
            == UpScript(w, me, root, own, merged) + ShareScript(w, me, root, total, share)
  {
    var stages := TwoStages(w, root, own, merged, total, share);
    assert StagesFrom(w, me, stages, |stages|) == [];
    if share {
      assert StagesFrom(w, me, stages, 1) == SpreadScript(w, me, root, total, 4) + [];
    }
  }

  lemma RecvsThenSends<D>(c: Program<D>, s: Program<D>, pc: nat)
    requires pc < |c + s| && (c + s)[pc].Send?
    requires (forall i :: 0 <= i < |c| ==> c[i].Recv?) && forall i :: 0 <= i < |s| ==> s[i].Send?
    ensures |c| <= pc && (c + s)[pc] in s && Received((c + s)[..pc]) == Received(c)
  {
    var k := pc - |c|;
    assert (c + s)[pc] == s[k];
    assert (c + s)[..pc] == c + s[..k];
    ReceivedConcat(c, s[..k]);
    ReceivedNothing(s[..k]);
  }

  lemma RootConsistent<D>(w: World, root: nat, own: seq<D>, merged: seq<D>, total: D, share: bool, pc: nat)
    requires ValidWorld(w) && root < |w.hostOf| == |own| == |merged|
    requires var p := UpScript(w, root, root, own, merged) + ShareScript(w, root, root, total, share);
             pc < |p| && p[pc].Send?
    ensures var p := UpScript(w, root, root, own, merged) + ShareScript(w, root, root, total, share);
            p[pc].data == total && Received(p[..pc]) == Pieces(Contributions(w, root, own, merged), Fan(w, root))
  {
    var c, s := UpScript(w, root, root, own, merged), ShareScript(w, root, root, total, share);
    hide Received, Fan, Contributions, LocalOthers;
    RecvsThenSends(c, s, pc);
    ReceivedRecvAll(Fan(w, root), Contributions(w, root, own, merged), 3);
  }

  lemma ReceivedSnoc<D>(p: Program<D>, a: Action<D>)
    ensures Received(p + [a]) == Received(p) + if a.Recv? then [a.data] else []
  {
    var q := p + [a];
    assert q[..|q| - 1] == p && q[|q| - 1] == a;
  }

  lemma ReceivedOne<D>(a: Action<D>)
    ensures Received([a]) == if a.Recv? then [a.data] else []
  {
    assert [a][..0] == [];
  }

  /** Receives, one send, and if the result is shared one receive and only sends after it. */
  function LeaderProgram<D>(a: Program<D>, send: Action<D>, recv: Action<D>, rest: Program<D>,
                            share: bool): Program<D> {
    a + [send] + if share then [recv] + rest else []
  }

  lemma LeaderForwards<D>(a: Program<D>, send: Action<D>, recv: Action<D>, rest: Program<D>)
    requires send.Send? && recv.Recv? && forall i :: 0 <= i < |rest| ==> rest[i].Send?
    ensures Received(a + [send] + [recv] + rest) == Received(a) + [recv.data]
  {
    hide Received;
    ReceivedSnoc(a, send);
    ReceivedSnoc(a + [send], recv);
    ReceivedNothing(rest);
    ReceivedConcat(a + [send] + [recv], rest);
  }

  lemma LeaderSends<D>(a: Program<D>, send: Action<D>, recv: Action<D>, rest: Program<D>, share: bool, pc: nat)
    requires send.Send? && recv.Recv?
    requires (forall i :: 0 <= i < |a| ==> a[i].Recv?) && forall i :: 0 <= i < |rest| ==> rest[i].Send?
    requires var p := LeaderProgram(a, send, recv, rest, share); pc < |p| && p[pc].Send?
    ensures var p := LeaderProgram(a, send, recv, rest, share);
            || (Received(p[..pc]) == Received(a) && p[pc] == send)
            || (Received(p[..pc]) == Received(a) + [recv.data] && p[pc] in rest)
  {
    var p := LeaderProgram(a, send, recv, rest, share);
    if pc <= |a| {
      assert p[..pc] == a;
    } else {
      var k := pc - |a| - 2;
      assert p[..pc] == a + [send] + [recv] + rest[..k];
      assert p[pc] == rest[k];
      LeaderForwards(a, send, recv, rest[..k]);
    }
  }

  lemma LeaderConsistent<D>(w: World, me: nat, root: nat, own: seq<D>, merged: seq<D>, total: D, share: bool, pc: nat)
    requires ValidWorld(w) && me < |w.hostOf| && root < |w.hostOf| == |own| == |merged|
    requires me != root && me == LeaderOf(w, me) && !Local(w, me, root)
    requires var p := UpScript(w, me, root, own, merged) + ShareScript(w, me, root, total, share);
             pc < |p| && p[pc].Send?
    ensures var p := UpScript(w, me, root, own, merged) + ShareScript(w, me, root, total, share);
            var got := Received(p[..pc]);
            || (got == Pieces(own, LocalOthers(w, me)) && p[pc].data == merged[me])
            || (got == Pieces(own, LocalOthers(w, me)) + [total] && p[pc].data == total)
  {
    var a := RecvAll(LocalOthers(w, me), own, 1);
    var rest := SendAll(LocalOthers(w, me), Const(|w.hostOf|, total), 6);
    ReceivedRecvAll(LocalOthers(w, me), own, 1);
    assert UpScript(w, me, root, own, merged) + ShareScript(w, me, root, total, share)
        == LeaderProgram(a, Send(root, merged[me], 2), Recv(root, total, 5), rest, share);
    LeaderSends(a, Send(root, merged[me], 2), Recv(root, total, 5), rest, share, pc);
  }

  lemma MemberConsistent<D>(w: World, me: nat, root: nat, own: seq<D>, merged: seq<D>, total: D, share: bool, pc: nat)
    requires ValidWorld(w) && me < |w.hostOf| && root < |w.hostOf| == |own| == |merged|
    requires me != root && (me != LeaderOf(w, me) || Local(w, me, root))
    requires var p := UpScript(w, me, root, own, merged) + ShareScript(w, me, root, total, share);
             pc < |p| && p[pc].Send?
    ensures var p := UpScript(w, me, root, own, merged) + ShareScript(w, me, root, total, share);
            Received(p[..pc]) == [] && p[pc].data == own[me]
  {
    var s := ShareScript(w, me, root, total, share);
    assert forall i :: 0 <= i < |s| ==> s[i].Recv?;
    assert pc == 0;
  }

  lemma RankConsistent<D>(w: World, me: nat, root: nat, own: seq<D>, merged: seq<D>, total: D, share: bool, pc: nat,
                          finish: seq<D> -> D, mergeUp: (nat, seq<D>) -> D)
    requires ValidWorld(w) && me < |w.hostOf| && root < |w.hostOf| == |own| == |merged|
    requires Computes(w, root, own, merged, total, finish, mergeUp)
    requires var p := UpScript(w, me, root, own, merged) + ShareScript(w, me, root, total, share);
             pc < |p| && p[pc].Send?
    ensures var p := UpScript(w, me, root, own, merged) + ShareScript(w, me, root, total, share);
            Collective(w, root, own, finish, mergeUp)(me, pc, Received(p[..pc])) == p[pc].data
  {
    if me == root {
      RootConsistent(w, root, own, merged, total, share, pc);
    } else if me == LeaderOf(w, me) && !Local(w, me, root) {
      assert MergesRight(w, own, merged, mergeUp, me);
      LeaderConsistent(w, me, root, own, merged, total, share, pc);
    } else {
      MemberConsistent(w, me, root, own, merged, total, share, pc);
    }
  }

  function CollectivePrograms<D>(w: World, root: nat, own: seq<D>, merged: seq<D>, total: D,
                                 share: bool): seq<Program<D>>
    requires ValidWorld(w) && root < |w.hostOf| == |own| == |merged|
  {
    Programs(w, TwoStages(w, root, own, merged, total, share))
  }

  lemma CollectiveConsistent<D>(w: World, root: nat, own: seq<D>, merged: seq<D>, total: D, share: bool,
                                finish: seq<D> -> D, mergeUp: (nat, seq<D>) -> D)
    requires ValidWorld(w) && root < |w.hostOf| == |own| == |merged|
    requires Computes(w, root, own, merged, total, finish, mergeUp) == true
    ensures LocallyConsistent(CollectivePrograms(w, root, own, merged, total, share),
                              Collective(w, root, own, finish, mergeUp)) == true
  {
    var progs: seq<Program<D>> := CollectivePrograms(w, root, own, merged, total, share);
    forall r, pc | 0 <= r < |progs| && 0 <= pc < |progs[r]|
      ensures SendsRight(progs, Collective(w, root, own, finish, mergeUp), r, pc)
    {
      TwoStageProgram(w, r, root, own, merged, total, share);
      if progs[r][pc].Send? {
        RankConsistent(w, r, root, own, merged, total, share, pc, finish, mergeUp);
      }
    }
  }

  lemma RootReceived<D>(w: World, root: nat, own: seq<D>, merged: seq<D>, total: D, share: bool)
    requires ValidWorld(w) && root < |w.hostOf| == |own| == |merged|
    ensures Received(StagesFrom(w, root, TwoStages(w, root, own, merged, total, share), 0))
            == Pieces(Contributions(w, root, own, merged), Fan(w, root))
  {
    TwoStageProgram(w, root, root, own, merged, total, share);
    ReceivedConcat(UpScript(w, root, root, own, merged), ShareScript(w, root, root, total, share));
    ReceivedRecvAll(Fan(w, root), Contributions(w, root, own, merged), 3);
    ReceivedNothing(ShareScript(w, root, root, total, share));
  }

  lemma SpreadReceived<D>(w: World, me: nat, root: nat, total: D, base: nat)
    requires ValidWorld(w) && me < |w.hostOf| && root < |w.hostOf| && me != root
    ensures Received(SpreadScript(w, me, root, total, base)) == [total]
  {
    if me == LeaderOf(w, me) {
      var rest := if Local(w, me, root) then [] else SendAll(LocalOthers(w, me), Const(|w.hostOf|, total), base + 2);
      ReceivedConcat([Recv(root, total, base + 1)], rest);
      ReceivedOne(Recv(root, total, base + 1));
      ReceivedNothing(rest);
    } else {
      ReceivedOne(Recv(if Local(w, me, root) then root else LeaderOf(w, me), total, base + 3));
    }
  }

  lemma OtherReceived<D>(w: World, me: nat, root: nat, own: seq<D>, merged: seq<D>, total: D)
    requires ValidWorld(w) && me < |w.hostOf| && root < |w.hostOf| == |own| == |merged| && me != root
    ensures var got := Received(StagesFrom(w, me, TwoStages(w, root, own, merged, total, true), 0));
            got != [] && got[|got| - 1] == total
  {
    TwoStageProgram(w, me, root, own, merged, total, true);
    ReceivedConcat(UpScript(w, me, root, own, merged), SpreadScript(w, me, root, total, 4));
    SpreadReceived(w, me, root, total, 4);
  }

  /** The root holds the total, and every rank does if the result is then broadcast. */
  ghost predicate HasTotal<D>(got: seq<seq<D>>, root: nat, total: D, share: bool, finish: seq<D> -> D) {
    && root < |got| && finish(got[root]) == total
    && (share ==> forall r :: 0 <= r < |got| && r != root ==> got[r] != [] && got[r][|got[r]| - 1] == total)
  }

  /** What each rank receives in the collective. */
  ghost predicate CollectiveInbox<D>(w: World, root: nat, own: seq<D>, merged: seq<D>, total: D, share: bool,
                                     got: seq<seq<D>>)
    requires ValidWorld(w) && root < |w.hostOf| == |own| == |merged|
  {
    && |got| == |w.hostOf|
    && forall r :: 0 <= r < |got| ==>
         got[r] == Received(StagesFrom(w, r, TwoStages(w, root, own, merged, total, share), 0))
  }

  lemma InboxHasTotal<D>(w: World, root: nat, own: seq<D>, merged: seq<D>, total: D, share: bool,
                         finish: seq<D> -> D, got: seq<seq<D>>)
    requires ValidWorld(w) && root < |w.hostOf| == |own| == |merged|
    requires FinishesRight(w, root, own, merged, total, finish)
    requires CollectiveInbox(w, root, own, merged, total, share, got) == true
    ensures HasTotal(got, root, total, share, finish) == true
  {
    RootReceived(w, root, own, merged, total, share);
    if share {
      forall r | 0 <= r < |got| && r != root ensures got[r] != [] && got[r][|got[r]| - 1] == total {
        OtherReceived(w, r, root, own, merged, total);
      }
    }
  }

  /** Any run of a program with a two-level collective in it, under any schedule, that cannot go on has
      completed, and the collective has left its total where it belongs. */
  lemma CollectiveResult<D>(w: World, c: Context<D>, root: nat, own: seq<D>, merged: seq<D>, total: D, share: bool,
                            finish: seq<D> -> D, mergeUp: (nat, seq<D>) -> D,
                            schedule: seq<nat>, states: seq<State<D>>)
    requires GoodContext(w, c) && root < |w.hostOf| == |own| == |merged|
    requires Computes(w, root, own, merged, total, finish, mergeUp)
    requires IsRun(Programs(w, Whole(w, c, TwoStages(w, root, own, merged, total, share))),
                   WholeDo(w, c, TwoStages(w, root, own, merged, total, share),
                           Collective(w, root, own, finish, mergeUp)),
                   schedule, states) == true
    ensures var mid := TwoStages(w, root, own, merged, total, share);
            var progs, last := Programs(w, Whole(w, c, mid)), states[|schedule|];
            && GoodRun(progs, schedule, last) && |last.got| == |w.hostOf|
            && (Stuck(progs, last) ==> HasTotal(Middle(w, c, mid, last.got), root, total, share, finish))
  {
    var mid := TwoStages(w, root, own, merged, total, share);
    var progs, last := Programs(w, Whole(w, c, mid)), states[|schedule|];
    CollectiveConsistent(w, root, own, merged, total, share, finish, mergeUp);
    WholeRuns(w, c, mid, Collective(w, root, own, finish, mergeUp), schedule, states);
    if Stuck(progs, last) {
      forall r | 0 <= r < |w.hostOf| ensures MiddleOf(w, c, mid, r, last.got[r]) == Received(StagesFrom(w, r, mid, 0)) {
        MiddleReceived(w, c, mid, r);
      }
      InboxHasTotal(w, root, own, merged, total, share, finish, Middle(w, c, mid, last.got));
    }
  }

  // ---------- reduce and allReduce ----------

  /** The root, or a leader, folds received buffers into its own in place. */
  method ReduceInto(op: Op, got: seq<Buffer>, output: array<int>)
    requires forall i :: 0 <= i < |got| ==> |got[i]| == output.Length
    modifies output
    ensures Some(output[..]) == Fold(op, Some(old(output[..])), Own(got))
  {
    for i := 0 to |got|
      invariant Some(output[..]) == Fold(op, Some(old(output[..])), Own(got)[..i])
    {
      FoldSnoc(op, Some(old(output[..])), Own(got), i);
      OpReduce(op, got[i], output);
    }
    assert Own(got)[..|got|] == Own(got);
  }

  function ReduceFinish(op: Op, bufs: seq<Buffer>, root: nat): seq<Partial> -> Partial
    requires root < |bufs|
  {
    (got: seq<Partial>) => Fold(op, Some(bufs[root]), got)
  }

  function ReduceMerge(op: Op, bufs: seq<Buffer>): (nat, seq<Partial>) -> Partial {
    (me: nat, got: seq<Partial>) => if me < |bufs| then Fold(op, Some(bufs[me]), got) else None
  }

  lemma ReduceComputes(w: World, op: Op, bufs: seq<Buffer>, root: nat)
    requires ValidWorld(w) && root < |w.hostOf| == |bufs|
    ensures Computes(w, root, Own(bufs), Merged(w, op, bufs), FlatReduce(op, bufs), ReduceFinish(op, bufs, root),
                     ReduceMerge(op, bufs)) == true
  {
    assert FinishesRight(w, root, Own(bufs), Merged(w, op, bufs), FlatReduce(op, bufs),
                         ReduceFinish(op, bufs, root)) by {
      RootReduces(w, op, bufs, root);
    }
    forall me | 0 <= me < |w.hostOf| ensures MergesRight(w, Own(bufs), Merged(w, op, bufs), ReduceMerge(op, bufs), me) {
      LeaderReduces(w, op, bufs, me);
    }
  }

  ghost function ReduceStages(w: World, op: Op, bufs: seq<Buffer>, root: nat, share: bool): seq<Stage<Partial>>
    requires root < |w.hostOf| == |bufs|
  {
    TwoStages(w, root, Own(bufs), Merged(w, op, bufs), FlatReduce(op, bufs), share)
  }

  /** reduce (share false) and allReduce (root 0, share true), anywhere in a program of collectives: on
      every layout, every run that cannot go on has left the flat reduction of all the buffers at the
      root, or at every rank. */
  lemma ReduceResult(w: World, c: Context<Partial>, op: Op, bufs: seq<Buffer>, root: nat, share: bool,
                     schedule: seq<nat>, states: seq<State<Partial>>)
    requires GoodContext(w, c) && root < |w.hostOf| == |bufs|
    requires IsRun(Programs(w, Whole(w, c, ReduceStages(w, op, bufs, root, share))),
                   WholeDo(w, c, ReduceStages(w, op, bufs, root, share),
                           Collective(w, root, Own(bufs), ReduceFinish(op, bufs, root), ReduceMerge(op, bufs))),
                   schedule, states) == true
    ensures |states| > |schedule|
    ensures var mid := ReduceStages(w, op, bufs, root, share);
            var progs, last := Programs(w, Whole(w, c, mid)), states[|schedule|];
            && GoodRun(progs, schedule, last) && |last.got| == |w.hostOf|
            && (Stuck(progs, last) ==>
                  HasTotal(Middle(w, c, mid, last.got), root, FlatReduce(op, bufs), share,
                           ReduceFinish(op, bufs, root)))
    ensures SameSize(bufs, |bufs[root]|) ==>
              FlatReduce(op, bufs).Some? && Reduces(op, bufs, |bufs[root]|, FlatReduce(op, bufs).value)
  {
    if SameSize(bufs, |bufs[root]|) { FlatReduceMeans(op, bufs, |bufs[root]|); }
    ReduceComputes(w, op, bufs, root);
    CollectiveResult(w, c, root, Own(bufs), Merged(w, op, bufs), FlatReduce(op, bufs), share,
                     ReduceFinish(op, bufs, root), ReduceMerge(op, bufs), schedule, states);
  }

  // ---------- gather and allGather ----------

  type Chunk = seq<int>

  function Singles(chunks: seq<Chunk>): (s: seq<seq<Chunk>>)
    ensures |s| == |chunks| && forall r :: 0 <= r < |s| ==> s[r] == [chunks[r]]
  {
    seq(|chunks|, r requires 0 <= r < |chunks| => [chunks[r]])
  }

  lemma RanksBounded(w: World, h: string)
    ensures Bounded(RanksOn(w, h), |w.hostOf|)
  {
    MembersBounded(RanksOn(w, h), |w.hostOf|);
  }

  /** A leader's message: the chunks of its host's ranks, in rank order. */
  function HostChunks(w: World, chunks: seq<Chunk>): (s: seq<seq<Chunk>>)
    requires |chunks| == |w.hostOf|
    ensures |s| == |chunks|
    ensures forall r :: 0 <= r < |s| ==>
              (RanksBounded(w, w.hostOf[r]); s[r] == Pieces(chunks, RanksOn(w, w.hostOf[r])))
  {
    seq(|chunks|, r requires 0 <= r < |chunks| =>
      (RanksBounded(w, w.hostOf[r]); Pieces(chunks, RanksOn(w, w.hostOf[r]))))
  }

  function Flatten(got: seq<seq<Chunk>>): seq<Chunk> {
    if got == [] then [] else Flatten(got[..|got| - 1]) + got[|got| - 1]
  }

  lemma {:induction false} FlattenSingles(chunks: seq<Chunk>, ranks: seq<nat>)
    requires Bounded(ranks, |chunks|)
    ensures Flatten(Pieces(Singles(chunks), ranks)) == Pieces(chunks, ranks)
  {
    if ranks != [] {
      var k := |ranks| - 1;
      FlattenSingles(chunks, ranks[..k]);
      assert Pieces(Singles(chunks), ranks)[..k] == Pieces(Singles(chunks), ranks[..k]);
      assert Pieces(chunks, ranks) == Pieces(chunks, ranks[..k]) + [chunks[ranks[k]]];
    }
  }

  lemma {:induction false} WithoutFirst(s: seq<nat>)
    requires s != [] && Distinct(s)
    ensures Without(s, s[0]) == s[1..]
  {
    var k := |s| - 1;
    if k > 0 {
      WithoutFirst(s[..k]);
      assert s[..k][1..] + [s[k]] == s[1..];
    } else {
      assert s[..0] == [];
    }
  }

  lemma LeaderFirst(w: World, me: nat)
    requires me < |w.hostOf| && me == LeaderOf(w, me)
    ensures RanksOn(w, w.hostOf[me]) == [me] + LocalOthers(w, me)
  {
    var s := RanksOn(w, w.hostOf[me]);
    assert me in s;
    WithoutFirst(s);
  }

  /** A leader that puts its own chunk first and then its local ranks' has them all in rank order. */
  lemma LeaderGathers(w: World, chunks: seq<Chunk>, me: nat)
    requires me < |w.hostOf| == |chunks| && me == LeaderOf(w, me)
    ensures [chunks[me]] + Flatten(Pieces(Singles(chunks), LocalOthers(w, me))) == HostChunks(w, chunks)[me]
  {
    hide LocalOthers, LeaderOf, RanksOn, Flatten;
    LeaderFirst(w, me);
    RanksBounded(w, w.hostOf[me]);
    FlattenSingles(chunks, LocalOthers(w, me));
    assert [chunks[me]] + Pieces(chunks, LocalOthers(w, me)) == Pieces(chunks, RanksOn(w, w.hostOf[me]));
  }

  /** Copying each received chunk to its rank's offset. */
  function PlaceRanks(ranks: seq<nat>, data: seq<Chunk>, buf: seq<Chunk>): (r: seq<Chunk>)
    requires |data| >= |ranks| && Bounded(ranks, |buf|)
    ensures |r| == |buf|
  {
    if ranks == [] then buf
    else
      var k := |ranks| - 1;
      PlaceRanks(ranks[..k], data, buf)[ranks[k] := data[k]]
  }

  /** One message at the root: a local rank's own chunk, or a whole remote host's. */
  function PlaceMessage(w: World, root: nat, from: nat, data: seq<Chunk>, buf: seq<Chunk>): (r: seq<Chunk>)
    requires root < |w.hostOf| == |buf| && from < |w.hostOf|
    ensures |r| == |buf|
  {
    var ranks := Carriers(w, root, from);
    if |data| < |ranks| then buf else PlaceRanks(ranks, data, buf)
  }

  function PlaceAll(w: World, root: nat, fan: seq<nat>, got: seq<seq<Chunk>>, buf: seq<Chunk>): (r: seq<Chunk>)
    requires root < |w.hostOf| == |buf| && Bounded(fan, |buf|) && |fan| <= |got|
    ensures |r| == |buf|
  {
    if fan == [] then buf
    else
      var k := |fan| - 1;
      PlaceMessage(w, root, fan[k], got[k], PlaceAll(w, root, fan[..k], got, buf))
  }

  lemma {:induction false} PlaceRanksRight(ranks: seq<nat>, chunks: seq<Chunk>, buf: seq<Chunk>, r: nat)
    requires Bounded(ranks, |buf|) && |buf| == |chunks| && r < |buf|
    requires r in ranks || buf[r] == chunks[r]
    ensures PlaceRanks(ranks, Pieces(chunks, ranks), buf)[r] == chunks[r]
  {
    if ranks != [] {
      var k := |ranks| - 1;
      assert ranks == ranks[..k] + [ranks[k]];
      if r != ranks[k] { PlaceRanksRight(ranks[..k], chunks, buf, r); }
      PlacePrefix(ranks[..k], Pieces(chunks, ranks[..k]), Pieces(chunks, ranks), buf);
    }
  }

  lemma {:induction false} PlacePrefix(ranks: seq<nat>, data: seq<Chunk>, more: seq<Chunk>, buf: seq<Chunk>)
    requires Bounded(ranks, |buf|) && |ranks| <= |data| <= |more| && data == more[..|data|]
    ensures PlaceRanks(ranks, data, buf) == PlaceRanks(ranks, more, buf)
  {
    if ranks != [] { PlacePrefix(ranks[..|ranks| - 1], data, more, buf); }
  }

  predicate Covers(w: World, root: nat, from: nat, r: nat)
    requires root < |w.hostOf| && from < |w.hostOf| && r < |w.hostOf|
  {
    r == from || (!Local(w, from, root) && Local(w, r, from))
  }

  /** Filing message msg from rank `from` spoils nothing that was right and makes right what it covers. */
  ghost predicate FilesRight(w: World, root: nat, chunks: seq<Chunk>, from: nat, msg: seq<Chunk>)
    requires root < |w.hostOf| == |chunks| && from < |w.hostOf|
  {
    forall buf: seq<Chunk>, r ::
      |buf| == |chunks| && 0 <= r < |buf| && (Covers(w, root, from, r) || buf[r] == chunks[r]) ==>
        PlaceMessage(w, root, from, msg, buf)[r] == chunks[r]
  }

  /** The ranks whose chunks a message from `from` carries. */
  function Carriers(w: World, root: nat, from: nat): (ranks: seq<nat>)
    requires root < |w.hostOf| && from < |w.hostOf|
    ensures Distinct(ranks) && Bounded(ranks, |w.hostOf|)
    ensures forall r :: 0 <= r < |w.hostOf| ==> (r in ranks <==> Covers(w, root, from, r))
  {
    RanksBounded(w, w.hostOf[from]);
    if Local(w, from, root) then [from] else RanksOn(w, w.hostOf[from])
  }

  lemma ContributionIs(w: World, root: nat, from: nat, chunks: seq<Chunk>)
    requires root < |w.hostOf| == |chunks| && from < |w.hostOf|
    ensures Contributions(w, root, Singles(chunks), HostChunks(w, chunks))[from]
            == Pieces(chunks, Carriers(w, root, from))
  {
    hide RanksOn;
    RanksBounded(w, w.hostOf[from]);
    assert Pieces(chunks, [from]) == [chunks[from]];
  }

  lemma ContributionFilesRight(w: World, root: nat, from: nat, chunks: seq<Chunk>)
    requires root < |w.hostOf| == |chunks| && from < |w.hostOf|
    ensures FilesRight(w, root, chunks, from, Contributions(w, root, Singles(chunks), HostChunks(w, chunks))[from])
  {
    hide Carriers, Contributions, Singles, HostChunks, Covers;
    var msg := Contributions(w, root, Singles(chunks), HostChunks(w, chunks))[from];
    var ranks := Carriers(w, root, from);
    ContributionIs(w, root, from, chunks);
    forall buf: seq<Chunk>, r | |buf| == |chunks| && 0 <= r < |buf| && (Covers(w, root, from, r) || buf[r] == chunks[r])
      ensures PlaceMessage(w, root, from, msg, buf)[r] == chunks[r]
    {
      PlaceRanksRight(ranks, chunks, buf, r);
    }
  }

  lemma {:induction false} PlaceAllRight(w: World, root: nat, fan: seq<nat>, got: seq<seq<Chunk>>,
                                         chunks: seq<Chunk>, buf: seq<Chunk>, r: nat, i: nat)
    requires root < |w.hostOf| == |buf| == |chunks| && r < |w.hostOf| && Bounded(fan, |buf|) && |fan| <= |got|
    requires forall j :: 0 <= j < |fan| ==> FilesRight(w, root, chunks, fan[j], got[j])
    requires buf[r] == chunks[r] || (i < |fan| && Covers(w, root, fan[i], r))
    ensures PlaceAll(w, root, fan, got, buf)[r] == chunks[r]
  {
    hide PlaceMessage, Covers;
    if fan != [] {
      var k := |fan| - 1;
      if buf[r] == chunks[r] || i < k {
        PlaceAllRight(w, root, fan[..k], got, chunks, buf, r, i);
      }
      assert FilesRight(w, root, chunks, fan[k], got[k]);
    }
  }

  /** Every rank but the root is covered by some message the root receives. */
  lemma FanCovers(w: World, root: nat, r: nat) returns (i: nat)
    requires ValidWorld(w) && root < |w.hostOf| && r < |w.hostOf| && r != root
    ensures i < |Fan(w, root)| && Covers(w, root, Fan(w, root)[i], r)
  {
    LeaderIsLowest(w, r);
    var f := if Local(w, r, root) then r else LeaderOf(w, r);
    assert f in Fan(w, root);
    i :| 0 <= i < |Fan(w, root)| && Fan(w, root)[i] == f;
  }

  lemma GatherPlaces(w: World, root: nat, fan: seq<nat>, chunks: seq<Chunk>, buf: seq<Chunk>, r: nat, i: nat)
    requires root < |w.hostOf| == |buf| == |chunks| && r < |w.hostOf| && Bounded(fan, |buf|)
    requires buf[r] == chunks[r] || (i < |fan| && Covers(w, root, fan[i], r))
    ensures var data := Contributions(w, root, Singles(chunks), HostChunks(w, chunks));
            PlaceAll(w, root, fan, Pieces(data, fan), buf)[r] == chunks[r]
  {
    var data := Contributions(w, root, Singles(chunks), HostChunks(w, chunks));
    forall j | 0 <= j < |fan| ensures FilesRight(w, root, chunks, fan[j], Pieces(data, fan)[j]) {
      ContributionFilesRight(w, root, fan[j], chunks);
    }
    PlaceAllRight(w, root, fan, Pieces(data, fan), chunks, buf, r, i);
  }

  /** Gather puts rank r's data at offset r, whatever the receive buffer held before. */
  lemma GatherPlacesAll(w: World, root: nat, chunks: seq<Chunk>, buf: seq<Chunk>)
    requires ValidWorld(w) && root < |w.hostOf| == |buf| == |chunks| && buf[root] == chunks[root]
    ensures var data := Contributions(w, root, Singles(chunks), HostChunks(w, chunks));
            PlaceAll(w, root, Fan(w, root), Pieces(data, Fan(w, root)), buf) == chunks
  {
    var data := Contributions(w, root, Singles(chunks), HostChunks(w, chunks));
    var all := PlaceAll(w, root, Fan(w, root), Pieces(data, Fan(w, root)), buf);
    forall r | 0 <= r < |chunks| ensures all[r] == chunks[r] {
      var i := 0;
      if r != root { i := FanCovers(w, root, r); }
      GatherPlaces(w, root, Fan(w, root), chunks, buf, r, i);
    }
  }

  lemma PlaceAllStep(w: World, root: nat, fan: seq<nat>, got: seq<seq<Chunk>>, buf: seq<Chunk>, i: nat)
    requires root < |w.hostOf| == |buf| && Bounded(fan, |buf|) && |fan| <= |got| && i < |fan|
    ensures PlaceAll(w, root, fan[..i + 1], got, buf)
            == PlaceMessage(w, root, fan[i], got[i], PlaceAll(w, root, fan[..i], got, buf))
  {
    assert fan[..i + 1][..i] == fan[..i];
  }

  /** The root of a gather: keeps or copies its own chunk, then files every message it receives. */
  method GatherAtRoot(w: World, root: nat, inPlace: bool, own: Chunk, got: seq<seq<Chunk>>, recvBuffer: array<Chunk>)
    requires ValidWorld(w) && root < |w.hostOf| == recvBuffer.Length && |got| == |Fan(w, root)|
    modifies recvBuffer
    ensures recvBuffer[..] ==
            PlaceAll(w, root, Fan(w, root), got,
                     if inPlace then old(recvBuffer[..]) else old(recvBuffer[..])[root := own])
  {
    if !inPlace { recvBuffer[root] := own; }
    var fan := Fan(w, root);
    FileAll(w, root, fan, got, recvBuffer);
  }

  method FileAll(w: World, root: nat, fan: seq<nat>, got: seq<seq<Chunk>>, recvBuffer: array<Chunk>)
    requires root < |w.hostOf| == recvBuffer.Length && |got| == |fan| && Bounded(fan, |w.hostOf|)
    modifies recvBuffer
    ensures recvBuffer[..] == PlaceAll(w, root, fan, got, old(recvBuffer[..]))
  {
    ghost var start := recvBuffer[..];
    for i := 0 to |fan|
      invariant recvBuffer[..] == PlaceAll(w, root, fan[..i], got, start)
    {
      PlaceAllStep(w, root, fan, got, start, i);
      FileMessage(w, root, fan[i], got[i], recvBuffer);
    }
    assert fan[..|fan|] == fan;
  }

  method FileMessage(w: World, root: nat, from: nat, data: seq<Chunk>, recvBuffer: array<Chunk>)
    requires root < |w.hostOf| == recvBuffer.Length && from < |w.hostOf|
    modifies recvBuffer
    ensures recvBuffer[..] == PlaceMessage(w, root, from, data, old(recvBuffer[..]))
  {
    var ranks := Carriers(w, root, from);
    if |data| < |ranks| { return; }
    ghost var start := recvBuffer[..];
    for r := 0 to |ranks|
      invariant recvBuffer[..] == PlaceRanks(ranks[..r], data, start)
    {
      assert ranks[..r + 1][..r] == ranks[..r];
      recvBuffer[ranks[r]] := data[r];
    }
    assert ranks[..|ranks|] == ranks;
  }

  function GatherFinish(w: World, root: nat, buf: seq<Chunk>): seq<seq<Chunk>> -> seq<Chunk>
    requires ValidWorld(w) && root < |w.hostOf| == |buf|
  {
    (got: seq<seq<Chunk>>) => if |got| < |Fan(w, root)| then [] else PlaceAll(w, root, Fan(w, root), got, buf)
  }

  function GatherMerge(chunks: seq<Chunk>): (nat, seq<seq<Chunk>>) -> seq<Chunk> {
    (me: nat, got: seq<seq<Chunk>>) => if me < |chunks| then [chunks[me]] + Flatten(got) else []
  }

  lemma GatherComputes(w: World, root: nat, chunks: seq<Chunk>, buf: seq<Chunk>)
    requires ValidWorld(w) && root < |w.hostOf| == |buf| == |chunks| && buf[root] == chunks[root]
    ensures Computes(w, root, Singles(chunks), HostChunks(w, chunks), chunks, GatherFinish(w, root, buf),
                     GatherMerge(chunks)) == true
  {
    assert FinishesRight(w, root, Singles(chunks), HostChunks(w, chunks), chunks, GatherFinish(w, root, buf)) by {
      GatherPlacesAll(w, root, chunks, buf);
    }
    forall me | 0 <= me < |w.hostOf|
      ensures MergesRight(w, Singles(chunks), HostChunks(w, chunks), GatherMerge(chunks), me)
    {
      if me == LeaderOf(w, me) { LeaderGathers(w, chunks, me); }
    }
  }

  function GatherStages(w: World, root: nat, chunks: seq<Chunk>, share: bool): seq<Stage<seq<Chunk>>>
    requires ValidWorld(w) && root < |w.hostOf| == |chunks|
  {
    TwoStages(w, root, Singles(chunks), HostChunks(w, chunks), chunks, share)
  }

  /** gather (share false) and allGather (root 0, share true), anywhere in a program of collectives: on
      every layout, every run that cannot go on has left rank r's chunk at offset r, at the root or at
      every rank. */
  lemma GatherResult(w: World, c: Context<seq<Chunk>>, root: nat, chunks: seq<Chunk>, buf: seq<Chunk>, share: bool,
                     schedule: seq<nat>, states: seq<State<seq<Chunk>>>)
    requires GoodContext(w, c) && root < |w.hostOf| == |buf| == |chunks| && buf[root] == chunks[root]
    requires IsRun(Programs(w, Whole(w, c, GatherStages(w, root, chunks, share))),
                   WholeDo(w, c, GatherStages(w, root, chunks, share),
                           Collective(w, root, Singles(chunks), GatherFinish(w, root, buf), GatherMerge(chunks))),
                   schedule, states) == true
    ensures |states| > |schedule|
    ensures var mid := GatherStages(w, root, chunks, share);
            var progs, last := Programs(w, Whole(w, c, mid)), states[|schedule|];
            && GoodRun(progs, schedule, last) && |last.got| == |w.hostOf|
            && (Stuck(progs, last) ==>
                 HasTotal(Middle(w, c, mid, last.got), root, chunks, share, GatherFinish(w, root, buf)))
  {
    GatherComputes(w, root, chunks, buf);
    CollectiveResult(w, c, root, Singles(chunks), HostChunks(w, chunks), chunks, share,
                     GatherFinish(w, root, buf), GatherMerge(chunks), schedule, states);
  }
}
