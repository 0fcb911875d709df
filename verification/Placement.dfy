/** Placements of messages on hosts, their locality score, and the theorem that
    filling the hosts largest-first is the best placement there is. */
module Placement {

  // ---------- sums over sequences ----------

  function Sum(s: seq<int>): int {
    if s == [] then 0 else s[0] + Sum(s[1..])
  }

  function Squares(s: seq<int>): int {
    if s == [] then 0 else s[0] * s[0] + Squares(s[1..])
  }

  function NonZeros(s: seq<int>): nat {
    if s == [] then 0 else (if s[0] != 0 then 1 else 0) + NonZeros(s[1..])
  }

  lemma {:induction false} UpdateEffect(s: seq<int>, i: nat, v: int)
    requires i < |s|
    ensures Sum(s[i := v]) == Sum(s) - s[i] + v
    ensures Squares(s[i := v]) == Squares(s) - s[i] * s[i] + v * v
    ensures NonZeros(s[i := v]) ==
            NonZeros(s) - (if s[i] != 0 then 1 else 0) + (if v != 0 then 1 else 0)
  {
    if i > 0 {
      assert s[i := v][1..] == s[1..][i - 1 := v];
      UpdateEffect(s[1..], i - 1, v);
    } else {
      assert s[i := v][1..] == s[1..];
    }
  }

  lemma {:induction false} PositiveSum(s: seq<int>)
    requires forall i :: 0 <= i < |s| ==> s[i] >= 0
    ensures Sum(s) >= 0
    ensures Sum(s) == 0 <==> (forall i :: 0 <= i < |s| ==> s[i] == 0)
    ensures Sum(s) == 0 ==> Squares(s) == 0 && NonZeros(s) == 0
  {
    if s != [] {
      PositiveSum(s[1..]);
      if Sum(s) == 0 {
        forall i | 0 <= i < |s| ensures s[i] == 0 {
          if i > 0 { assert s[i] == s[1..][i - 1]; }
        }
      }
    }
  }

  lemma {:induction false} SumBelow(f: seq<int>, caps: seq<int>)
    requires |f| == |caps| && forall i :: 0 <= i < |f| ==> f[i] <= caps[i]
    ensures Sum(f) <= Sum(caps)
  {
    if f != [] { SumBelow(f[1..], caps[1..]); }
  }

  // ---------- largest-first filling ----------

  function Min(a: int, b: int): int { if a < b then a else b }

  /** How many of `n` messages each host takes when the hosts are filled in order. */
  function Fill(caps: seq<int>, n: int): seq<int> {
    if caps == [] then [] else [Min(n, caps[0])] + Fill(caps[1..], n - Min(n, caps[0]))
  }

  predicate Descending(caps: seq<int>) {
    forall i, j :: 0 <= i < j < |caps| ==> caps[i] >= caps[j]
  }

  /** f is a histogram of n messages that overfills no host. */
  predicate Fits(f: seq<int>, caps: seq<int>, n: int) {
    && |f| == |caps| && Sum(f) == n
    && forall i :: 0 <= i < |f| ==> 0 <= f[i] <= caps[i]
  }

  lemma {:induction false} FillFits(caps: seq<int>, n: nat)
    requires forall i :: 0 <= i < |caps| ==> caps[i] >= 0
    ensures |Fill(caps, n)| == |caps|
    ensures forall i :: 0 <= i < |caps| ==> 0 <= Fill(caps, n)[i] <= caps[i]
    ensures Sum(Fill(caps, n)) == Min(n, Sum(caps))
  {
    if caps != [] {
      FillFits(caps[1..], n - Min(n, caps[0]));
      PositiveSum(caps[1..]);
    }
  }

  /** Moving one message from host k to the first, at least as full, host. */
  lemma MoveToFirst(f: seq<int>, k: nat)
    requires 0 < k < |f| && f[0] >= f[k] > 0
    ensures var g := f[0 := f[0] + 1][k := f[k] - 1];
            Sum(g) == Sum(f) && Squares(g) >= Squares(f) && NonZeros(g) <= NonZeros(f)
  {
    var h := f[0 := f[0] + 1];
    UpdateEffect(f, 0, f[0] + 1);
    UpdateEffect(h, k, f[k] - 1);
    var a, b := f[0], f[k];
    assert (a + 1) * (a + 1) - a * a == 2 * a + 1;
    assert b * b - (b - 1) * (b - 1) == 2 * b - 1;
  }

  lemma SwapWithFirst(f: seq<int>, k: nat)
    requires 0 < k < |f|
    ensures var g := f[0 := f[k]][k := f[0]];
            Sum(g) == Sum(f) && Squares(g) == Squares(f) && NonZeros(g) == NonZeros(f)
  {
    UpdateEffect(f, 0, f[k]);
    UpdateEffect(f[0 := f[k]], k, f[0]);
  }

  /** No histogram that fits beats the largest-first one: it occupies the fewest
      hosts and has the greatest sum of squares. The proof moves one message at a
      time towards the first host, swapping the first host with a fuller one when
      that would not help; both steps keep the host count and the squares in order. */
  /** A later host gets something only once the earlier ones are full. */
  lemma {:induction false} FillIsGreedy(caps: seq<int>, n: nat, i: nat, j: nat)
    requires (forall k :: 0 <= k < |caps| ==> caps[k] >= 0) && i < j < |caps|
    ensures |Fill(caps, n)| == |caps| && (Fill(caps, n)[j] > 0 ==> Fill(caps, n)[i] == caps[i])
  {
    FillFits(caps, n);
    var left := n - Min(n, caps[0]);
    FillFits(caps[1..], left);
    if i > 0 {
      FillIsGreedy(caps[1..], left, i - 1, j - 1);
    } else if left == 0 {
      FillNothing(caps[1..], j - 1);
    }
  }

  lemma {:induction false} FillNothing(caps: seq<int>, j: nat)
    requires (forall k :: 0 <= k < |caps| ==> caps[k] >= 0) && j < |caps|
    ensures |Fill(caps, 0)| == |caps| && Fill(caps, 0)[j] == 0
  {
    FillFits(caps, 0);
    if j > 0 { FillNothing(caps[1..], j - 1); }
  }

  lemma {:induction false} FillIsBest(f: seq<int>, caps: seq<int>, n: nat)
    requires Descending(caps) && Fits(f, caps, n)
    ensures Squares(f) <= Squares(Fill(caps, n))
    ensures NonZeros(Fill(caps, n)) <= NonZeros(f)
    decreases |caps|, if caps == [] then 0 else caps[0] - f[0]
  {
    if caps == [] { return; }
    var rest := f[1..];
    PositiveSum(rest);
    if f[0] == Min(n, caps[0]) {
      FillIsBest(rest, caps[1..], n - f[0]);
    } else {
      var j :| 0 <= j < |rest| && rest[j] != 0;
      var k := j + 1;
      if f[k] > f[0] {
        SwapWithFirst(f, k);
        FillIsBest(f[0 := f[k]][k := f[0]], caps, n);
      } else {
        MoveToFirst(f, k);
        FillIsBest(f[0 := f[0] + 1][k := f[k] - 1], caps, n);
      }
    }
  }

  // ---------- placements ----------

  /** Message i of the app runs on host p[i]. */
  type Placement = seq<string>

  function HostSet(p: Placement): set<string> { set h | h in p }

  predicate Distinct<T(==)>(s: seq<T>) {
    forall i, j :: 0 <= i < j < |s| ==> s[i] != s[j]
  }

  /** Host-message histogram of p over a list of hosts. */
  function Histogram(hosts: seq<string>, p: Placement): (f: seq<int>)
    ensures |f| == |hosts|
    ensures forall i :: 0 <= i < |hosts| ==> f[i] == multiset(p)[hosts[i]]
  {
    seq(|hosts|, i requires 0 <= i < |hosts| => multiset(p)[hosts[i]])
  }

  predicate Apart(p: Placement, i: int, j: int) {
    0 <= i < j < |p| && p[i] != p[j]
  }

  /** The unordered pairs of messages that run on different hosts. */
  function CrossHostPairs(p: Placement): set<(int, int)> {
    set i, j | 0 <= i < |p| && 0 <= j < |p| && Apart(p, i, j) :: (i, j)
  }

  function CrossPairs(p: Placement): nat { |CrossHostPairs(p)| }

  /** Fewer hosts first, then fewer cross-host pairs. */
  predicate Better(a: Placement, b: Placement) {
    if |HostSet(a)| != |HostSet(b)| then |HostSet(a)| < |HostSet(b)|
    else CrossPairs(a) < CrossPairs(b)
  }

  function AwayFrom(p: Placement, h: string): set<int> {
    set i | 0 <= i < |p| && p[i] != h
  }

  lemma {:induction false} CountAway(p: Placement, h: string)
    ensures |AwayFrom(p, h)| == |p| - multiset(p)[h]
  {
    if p != [] {
      var k := |p| - 1;
      CountAway(p[..k], h);
      assert p == p[..k] + [p[k]];
      AwayStep(p[..k], p[k], h);
    }
  }

  lemma AwayStep(q: Placement, g: string, h: string)
    ensures AwayFrom(q + [g], h) == AwayFrom(q, h) + (if g != h then {|q|} else {})
    ensures |q| !in AwayFrom(q, h)
  {
  }

  function PairUp<T>(s: set<T>, k: int): set<(T, int)> {
    set i | i in s :: (i, k)
  }

  lemma {:induction false} PairUpSize<T>(s: set<T>, k: int)
    ensures |PairUp(s, k)| == |s|
  {
    if s != {} {
      var x :| x in s;
      PairUpSize(s - {x}, k);
      assert PairUp(s, k) == PairUp(s - {x}, k) + {(x, k)};
    }
  }

  lemma CrossPairsSplit(p: Placement, h: string)
    ensures CrossHostPairs(p + [h]) == CrossHostPairs(p) + PairUp(AwayFrom(p, h), |p|)
    ensures CrossHostPairs(p) !! PairUp(AwayFrom(p, h), |p|)
  {
    forall i, j
      ensures (i, j) in CrossHostPairs(p + [h]) <==>
              (i, j) in CrossHostPairs(p) + PairUp(AwayFrom(p, h), |p|)
    {
      assert j == |p| ==> (Apart(p + [h], i, j) <==> i in AwayFrom(p, h));
      assert j != |p| ==> (Apart(p + [h], i, j) <==> Apart(p, i, j));
    }
  }

  lemma CrossPairsStep(p: Placement, h: string)
    ensures CrossPairs(p + [h]) == CrossPairs(p) + |p| - multiset(p)[h]
  {
    CountAway(p, h);
    PairUpSize(AwayFrom(p, h), |p|);
    CrossPairsSplit(p, h);
  }

  /** Placing one more message on host k. */
  lemma HistogramStep(hosts: seq<string>, q: Placement, k: nat)
    requires Distinct(hosts) && k < |hosts|
    ensures var f, g := Histogram(hosts, q), Histogram(hosts, q + [hosts[k]]);
            && Sum(g) == Sum(f) + 1
            && Squares(g) == Squares(f) + 2 * f[k] + 1
            && NonZeros(g) == NonZeros(f) + if f[k] == 0 then 1 else 0
  {
    var f := Histogram(hosts, q);
    assert Histogram(hosts, q + [hosts[k]]) == f[k := f[k] + 1];
    UpdateEffect(f, k, f[k] + 1);
    var c := f[k];
    assert (c + 1) * (c + 1) == c * c + 2 * c + 1;
  }

  lemma EmptyPlacement(hosts: seq<string>)
    ensures var f := Histogram(hosts, []); Sum(f) == 0 && Squares(f) == 0 && NonZeros(f) == 0
    ensures CrossPairs([]) == 0 && HostSet([]) == {}
  {
    PositiveSum(Histogram(hosts, []));
    assert CrossHostPairs([]) == {};
  }

  /** Over any list of distinct hosts that covers p: twice the cross-host pairs and the
      squared histogram make up the square of the number of messages. */
  lemma {:induction false} CrossPairsAndSquares(hosts: seq<string>, p: Placement)
    requires Distinct(hosts) && forall h :: h in p ==> h in hosts
    ensures 2 * CrossPairs(p) + Squares(Histogram(hosts, p)) == |p| * |p|
  {
    if p == [] {
      EmptyPlacement(hosts);
    } else {
      var q, h := p[..|p| - 1], p[|p| - 1];
      assert p == q + [h] && h in p;
      CrossPairsAndSquares(hosts, q);
      var k :| 0 <= k < |hosts| && hosts[k] == h;
      CrossPairsAndSquaresStep(hosts, q, k);
    }
  }

  lemma CrossPairsAndSquaresStep(hosts: seq<string>, q: Placement, k: nat)
    requires Distinct(hosts) && k < |hosts|
    requires 2 * CrossPairs(q) + Squares(Histogram(hosts, q)) == |q| * |q|
    ensures var p := q + [hosts[k]];
            2 * CrossPairs(p) + Squares(Histogram(hosts, p)) == |p| * |p|
  {
    hide CrossPairs, Squares, Sum, NonZeros;
    CrossPairsStep(q, hosts[k]);
    HistogramStep(hosts, q, k);
    hide Histogram, Distinct;
    var n := |q|;
    assert (n + 1) * (n + 1) == n * n + 2 * n + 1;
  }

  lemma HistogramTotalsStep(hosts: seq<string>, q: Placement, k: nat)
    requires Distinct(hosts) && k < |hosts|
    requires Sum(Histogram(hosts, q)) == |q| && NonZeros(Histogram(hosts, q)) == |HostSet(q)|
    ensures var p := q + [hosts[k]];
            Sum(Histogram(hosts, p)) == |p| && NonZeros(Histogram(hosts, p)) == |HostSet(p)|
  {
    hide Sum, NonZeros, Squares;
    var h := hosts[k];
    HistogramStep(hosts, q, k);
    assert h in HostSet(q) <==> h in multiset(q);
    assert HostSet(q + [h]) == HostSet(q) + {h};
    if h in HostSet(q) { assert HostSet(q) + {h} == HostSet(q); }
    assert Histogram(hosts, q)[k] == multiset(q)[h];
  }

  lemma {:induction false} HistogramTotals(hosts: seq<string>, p: Placement)
    requires Distinct(hosts) && forall h :: h in p ==> h in hosts
    ensures Sum(Histogram(hosts, p)) == |p|
    ensures NonZeros(Histogram(hosts, p)) == |HostSet(p)|
  {
    if p == [] {
      EmptyPlacement(hosts);
    } else {
      hide Histogram, Sum, NonZeros, HostSet;
      var q, h := p[..|p| - 1], p[|p| - 1];
      assert p == q + [h];
      HistogramTotals(hosts, q);
      assert h in p;
      var k :| 0 <= k < |hosts| && hosts[k] == h;
      HistogramTotalsStep(hosts, q, k);
    }
  }

  function Repeat(h: string, n: nat): (p: Placement)
    ensures |p| == n && forall i :: 0 <= i < n ==> p[i] == h
  {
    seq(n, i => h)
  }

  lemma {:induction false} RepeatCount(h: string, n: nat, g: string)
    ensures multiset(Repeat(h, n))[g] == if g == h then n else 0
  {
    if n > 0 {
      RepeatCount(h, n - 1, g);
      assert Repeat(h, n) == Repeat(h, n - 1) + [h];
    }
  }

  /** The placement that fills `hosts` in order with n messages. */
  function FillPlacement(hosts: seq<string>, caps: seq<nat>, n: nat): Placement
    requires |hosts| == |caps|
  {
    if hosts == [] then []
    else Repeat(hosts[0], Min(n, caps[0])) + FillPlacement(hosts[1..], caps[1..], n - Min(n, caps[0]))
  }

  lemma {:induction false} FillPlacementCount(hosts: seq<string>, caps: seq<nat>, n: nat, i: nat)
    requires |hosts| == |caps| && Distinct(hosts) && i < |hosts|
    ensures |Fill(caps, n)| == |caps|
    ensures multiset(FillPlacement(hosts, caps, n))[hosts[i]] == Fill(caps, n)[i]
  {
    FillFits(caps, n);
    var k := Min(n, caps[0]);
    var tail := FillPlacement(hosts[1..], caps[1..], n - k);
    assert FillPlacement(hosts, caps, n) == Repeat(hosts[0], k) + tail;
    RepeatCount(hosts[0], k, hosts[i]);
    if i > 0 {
      FillPlacementCount(hosts[1..], caps[1..], n - k, i - 1);
    } else {
      FillPlacementHosts(hosts[1..], caps[1..], n - k);
      assert hosts[0] !in tail;
    }
  }

  lemma {:induction false} FillPlacementHosts(hosts: seq<string>, caps: seq<nat>, n: nat)
    requires |hosts| == |caps|
    ensures forall h :: h in FillPlacement(hosts, caps, n) ==> h in hosts
    ensures |FillPlacement(hosts, caps, n)| == Min(n, Sum(caps))
  {
    if hosts != [] {
      FillPlacementHosts(hosts[1..], caps[1..], n - Min(n, caps[0]));
      PositiveSum(caps[1..]);
    }
  }

  /** p runs only on the listed hosts and fills none beyond its capacity. */
  predicate Feasible(hosts: seq<string>, caps: seq<nat>, p: Placement)
    requires |hosts| == |caps|
  {
    && (forall h :: h in p ==> h in hosts)
    && forall i :: 0 <= i < |hosts| ==> multiset(p)[hosts[i]] <= caps[i]
  }

  lemma FillPlacementFeasible(hosts: seq<string>, caps: seq<nat>, n: nat)
    requires |hosts| == |caps| && Distinct(hosts)
    ensures Feasible(hosts, caps, FillPlacement(hosts, caps, n))
  {
    FillPlacementHosts(hosts, caps, n);
    FillFits(caps, n);
    forall i | 0 <= i < |hosts|
      ensures multiset(FillPlacement(hosts, caps, n))[hosts[i]] <= caps[i]
    {
      FillPlacementCount(hosts, caps, n, i);
    }
  }

  /** A feasible placement never needs more slots than there are. */
  lemma FeasibleNeedsSlots(hosts: seq<string>, caps: seq<nat>, p: Placement)
    requires |hosts| == |caps| && Distinct(hosts) && Feasible(hosts, caps, p)
    ensures |p| <= Sum(caps)
  {
    HistogramTotals(hosts, p);
    SumBelow(Histogram(hosts, p), caps);
  }

  /** Largest-first filling is globally optimal: no placement of as many messages that
      respects the capacities spans fewer hosts or has fewer cross-host pairs. */
  lemma LargestFirstIsOptimal(hosts: seq<string>, caps: seq<nat>, p: Placement)
    requires |hosts| == |caps| && Distinct(hosts) && Descending(caps)
    requires Feasible(hosts, caps, p)
    ensures var best := FillPlacement(hosts, caps, |p|);
            && |best| == |p|
            && |HostSet(best)| <= |HostSet(p)|
            && CrossPairs(best) <= CrossPairs(p)
            && !Better(p, best)
  {
    var best := FillPlacement(hosts, caps, |p|);
    var f, g := Histogram(hosts, p), Histogram(hosts, best);
    FeasibleNeedsSlots(hosts, caps, p);
    FillPlacementHosts(hosts, caps, |p|);
    HistogramTotals(hosts, p);
    HistogramTotals(hosts, best);
    CrossPairsAndSquares(hosts, p);
    CrossPairsAndSquares(hosts, best);
    FillFits(caps, |p|);
    assert g == Fill(caps, |p|) by {
      forall i | 0 <= i < |hosts| ensures g[i] == Fill(caps, |p|)[i] {
        FillPlacementCount(hosts, caps, |p|, i);
      }
    }
    FillIsBest(f, caps, |p|);
  }
}
