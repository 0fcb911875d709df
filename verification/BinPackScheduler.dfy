/** The bin-pack policy: greedy packing, the locality score, and migration by re-packing. */
module BinPackScheduler {
  import opened Placement
  import opened Decisions
  import opened HostOrder
  import opened Migrations

  // ---------- locality score ----------

  lemma {:induction false} PrefixStep(f: seq<int>, i: nat)
    requires i < |f|
    ensures Sum(f[..i + 1]) == Sum(f[..i]) + f[i]
    ensures Squares(f[..i + 1]) == Squares(f[..i]) + f[i] * f[i]
  {
    if i > 0 {
      PrefixStep(f[1..], i - 1);
      assert f[..i + 1][1..] == f[1..][..i] && f[..i][1..] == f[1..][..i - 1];
    } else {
      assert f[..1] == [f[0]];
    }
  }

  method ListKeys(freq: map<string, int>) returns (ks: seq<string>)
    ensures Distinct(ks) && forall h :: h in ks <==> h in freq
  {
    ks := [];
    var rest := freq.Keys;
    while rest != {}
      invariant rest <= freq.Keys && Distinct(ks)
      invariant forall h :: h in ks <==> h in freq && h !in rest
      decreases rest
    {
      var k :| k in rest;
      ks := ks + [k];
      rest := rest - {k};
    }
  }

  /** Messages on the hosts other than the i-th. */
  method MessagesElsewhere(ks: seq<string>, freq: map<string, int>, ghost f: seq<int>, i: nat) returns (n: int)
    requires |f| == |ks| && i < |ks| && Distinct(ks)
    requires forall j :: 0 <= j < |ks| ==> ks[j] in freq && freq[ks[j]] == f[j]
    ensures n == Sum(f) - f[i]
  {
    n := 0;
    for j := 0 to |ks|
      invariant n == Sum(f[..j]) - if i < j then f[i] else 0
    {
      PrefixStep(f, j);
      if ks[j] != ks[i] { n := n + freq[ks[j]]; }
    }
    assert f[..|f|] == f;
  }

  lemma ScoreStep(score: int, n: int, f: seq<int>, i: nat)
    requires i < |f| && score == n * Sum(f[..i]) - Squares(f[..i])
    ensures score + (n - f[i]) * f[i] == n * Sum(f[..i + 1]) - Squares(f[..i + 1])
  {
    PrefixStep(f, i);
    var s, x := Sum(f[..i]), f[i];
    assert n * (s + x) == n * s + n * x;
    assert (n - x) * x == n * x - x * x;
  }

  /** The score loop returns the number of hosts and exactly the number of unordered pairs of
      messages on different hosts. */
  method GetLocalityScore(hosts: Placement) returns (numHosts: nat, score: int)
    ensures numHosts == |HostSet(hosts)| && score == CrossPairs(hosts)
  {
    var freq := GetHostFreqCount(hosts);
    var ks := ListKeys(freq);
    ghost var f := Histogram(ks, hosts);
    HistogramTotals(ks, hosts);
    CrossPairsAndSquares(ks, hosts);
    assert forall j :: 0 <= j < |ks| ==> freq[ks[j]] == At(freq, ks[j]) == f[j];
    numHosts := |freq|;
    if numHosts == 1 {
      SingleHostHasNoPairs(hosts);
      return 1, 0;
    }
    score := 0;
    for i := 0 to |ks|
      invariant score == Sum(f) * Sum(f[..i]) - Squares(f[..i])
    {
      var elsewhere := MessagesElsewhere(ks, freq, f, i);
      ScoreStep(score, Sum(f), f, i);
      score := score + elsewhere * freq[ks[i]];
    }
    assert f[..|f|] == f;
    score := score / 2;
  }

  lemma SingleHostHasNoPairs(hosts: Placement)
    requires |HostSet(hosts)| == 1
    ensures CrossPairs(hosts) == 0
  {
    var h :| h in HostSet(hosts);
    assert HostSet(hosts) == {h} by {
      assert |HostSet(hosts) - {h}| == 0;
    }
    forall i, j ensures !Apart(hosts, i, j) {
      if 0 <= i < j < |hosts| { assert hosts[i] in HostSet(hosts) && hosts[j] in HostSet(hosts); }
    }
    assert CrossHostPairs(hosts) == {};
  }

  method IsFirstDecisionBetter(a: Placement, b: Placement) returns (better: bool)
    ensures better == Better(a, b)
  {
    var hostsA, scoreA := GetLocalityScore(a);
    var hostsB, scoreB := GetLocalityScore(b);
    if hostsA != hostsB { return hostsA < hostsB; }
    return scoreA < scoreB;
  }

  // ---------- sorted hosts ----------

  /** The host map once the app's own slots are given back. */
  function Freed(hostMap: HostMap, freq: map<string, int>): HostMap {
    map ip | ip in hostMap :: if ip in freq then FreeSlots(hostMap[ip], freq[ip]) else hostMap[ip]
  }

  method FreeOwnSlots(s: seq<Host>, hostMap: HostMap, freq: map<string, int>)
    returns (t: seq<Host>, freed: HostMap)
    requires Lists(s, hostMap)
    ensures freed == Freed(hostMap, freq) && Lists(t, freed)
  {
    t, freed := s, hostMap;
    for i := 0 to |s|
      invariant |t| == |s| && freed.Keys == hostMap.Keys
      invariant forall j :: 0 <= j < i ==> t[j] == freed[s[j].ip] == Freed(hostMap, freq)[s[j].ip]
      invariant forall j :: i <= j < |s| ==> t[j] == s[j] && freed[s[j].ip] == s[j]
    {
      assert forall j :: 0 <= j < |s| && j != i ==> Ips(s)[j] != Ips(s)[i];
      if t[i].ip in freq {
        t := t[i := FreeSlots(t[i], freq[t[i].ip])];
        freed := freed[t[i].ip := t[i]];
      }
    }
    forall ip | ip in hostMap ensures freed[ip] == Freed(hostMap, freq)[ip] {
      var k :| 0 <= k < |s| && Ips(s)[k] == ip;
      assert s[k].ip == ip;
    }
    assert Ips(t) == Ips(s);
  }

  /** getSortedHosts: list the map, give the app's slots back if migrating, sort. */
  method GetSortedHosts(hostMap: HostMap, freq: map<string, int>, free: bool, order: Order)
    returns (sorted: seq<Host>, freed: HostMap)
    requires Named(hostMap)
    ensures freed == if free then Freed(hostMap, freq) else hostMap
    ensures Lists(sorted, freed) && Sorted(order, freq, sorted)
  {
    var s := ListHosts(hostMap);
    freed := hostMap;
    if free { s, freed := FreeOwnSlots(s, hostMap, freq); }
    sorted := SortHosts(s, order, freq);
    SortKeepsListing(s, sorted, freed);
  }

  // ---------- packing ----------

  /** Row i carries message i and no port. */
  predicate Carries(rows: seq<Row>, msgs: seq<Message>) {
    && |rows| <= |msgs|
    && forall i :: 0 <= i < |rows| ==>
         rows[i] == Row(rows[i].host, msgs[i].id, msgs[i].appIdx, msgs[i].groupIdx, 0)
  }

  method PackHost(d: SchedulingDecision, ip: string, msgs: seq<Message>, n: nat)
    requires d.Complete() && Carries(d.Rows(), msgs) && |d.hosts| + n <= |msgs|
    modifies d
    ensures d.Complete() && Carries(d.Rows(), msgs) && d.appId == old(d.appId) && d.groupId == old(d.groupId)
    ensures d.hosts == old(d.hosts) + Repeat(ip, n)
  {
    for i := 0 to n
      invariant d.Complete() && Carries(d.Rows(), msgs) && d.appId == old(d.appId) && d.groupId == old(d.groupId)
      invariant d.hosts == old(d.hosts) + Repeat(ip, i)
    {
      assert Repeat(ip, i + 1) == Repeat(ip, i) + [ip];
      d.AddMessage(ip, msgs[|d.hosts|]);
    }
  }

  function PackedHosts(s: seq<Host>, n: nat): Placement {
    FillPlacement(Ips(s), Capacities(s), n)
  }

  lemma PackStep(s: seq<Host>, n: nat)
    requires s != []
    ensures var k := Min(n, Available(s[0])); PackedHosts(s, n) == Repeat(s[0].ip, k) + PackedHosts(s[1..], n - k)
  {
    assert Ips(s)[1..] == Ips(s[1..]) && Capacities(s)[1..] == Capacities(s[1..]);
  }

  lemma PackNothing(s: seq<Host>)
    ensures PackedHosts(s, 0) == []
  {
    FillPlacementHosts(Ips(s), Capacities(s), 0);
    PositiveSum(Capacities(s));
  }

  /** Fills the hosts in order until the messages run out. */
  method Pack(d: SchedulingDecision, s: seq<Host>, msgs: seq<Message>) returns (left: nat)
    requires d.Complete() && d.Rows() == []
    modifies d
    ensures d.Complete() && Carries(d.Rows(), msgs) && d.appId == old(d.appId) && d.groupId == old(d.groupId)
    ensures d.hosts == PackedHosts(s, |msgs|) && left == |msgs| - |d.hosts|
  {
    left := |msgs|;
    var k := 0;
    assert s[0..] == s;
    while k < |s|
      invariant k <= |s| && left == |msgs| - |d.hosts|
      invariant d.Complete() && Carries(d.Rows(), msgs) && d.appId == old(d.appId) && d.groupId == old(d.groupId)
      invariant d.hosts + PackedHosts(s[k..], left) == PackedHosts(s, |msgs|)
    {
      PackStep(s[k..], left);
      assert s[k..][1..] == s[k + 1..];
      var onThisHost := Min(left, Available(s[k]));
      ghost var before := d.hosts;
      PackHost(d, s[k].ip, msgs, onThisHost);
      left := left - onThisHost;
      assert d.hosts + PackedHosts(s[k + 1..], left)
          == before + (Repeat(s[k].ip, onThisHost) + PackedHosts(s[k + 1..], left));
      if left == 0 {
        PackNothing(s[k + 1..]);
        return;
      }
      k := k + 1;
    }
  }

  // ---------- feasibility over the host map ----------

  /** p runs only on known hosts and overfills none. */
  predicate FeasibleOn(hostMap: HostMap, p: Placement) {
    && (forall h :: h in p ==> h in hostMap)
    && forall h :: h in hostMap ==> multiset(p)[h] <= Available(hostMap[h])
  }

  /** Nothing that fits as many messages is better. */
  ghost predicate Optimal(hostMap: HostMap, p: Placement) {
    && FeasibleOn(hostMap, p)
    && forall q :: FeasibleOn(hostMap, q) && |q| == |p| ==> !Better(q, p)
  }

  lemma FeasibleOnListing(s: seq<Host>, hostMap: HostMap, p: Placement)
    requires Lists(s, hostMap)
    ensures FeasibleOn(hostMap, p) <==> Feasible(Ips(s), Capacities(s), p)
  {
    forall h | h in hostMap ensures exists k :: 0 <= k < |s| && Ips(s)[k] == h && s[k] == hostMap[h] {
      var k :| 0 <= k < |s| && Ips(s)[k] == h;
      assert s[k] == hostMap[h];
    }
    forall k | 0 <= k < |s| ensures Ips(s)[k] in hostMap && Capacities(s)[k] == Available(hostMap[Ips(s)[k]]) {}
    forall h ensures h in Ips(s) <==> h in hostMap {}
  }

  /** Feasibility and the score only look at the histogram. */
  lemma HistogramDecides(hostMap: HostMap, p: Placement, q: Placement)
    requires multiset(p) == multiset(q)
    ensures FeasibleOn(hostMap, p) ==> FeasibleOn(hostMap, q)
    ensures HostSet(p) == HostSet(q) && CrossPairs(p) == CrossPairs(q) && |p| == |q|
  {
    assert forall h :: (h in p <==> h in multiset(p)) && (h in q <==> h in multiset(q));
    assert |p| == |multiset(p)| && |q| == |multiset(q)|;
    var hosts := DistinctHosts(p);
    CrossPairsAndSquares(hosts, p);
    CrossPairsAndSquares(hosts, q);
    assert Histogram(hosts, p) == Histogram(hosts, q);
  }

  lemma {:induction false} DistinctHosts(p: Placement) returns (hosts: seq<string>)
    ensures Distinct(hosts) && forall h :: h in hosts <==> h in p
  {
    if p == [] {
      hosts := [];
    } else {
      hosts := DistinctHosts(p[1..]);
      assert p == [p[0]] + p[1..];
      if p[0] !in hosts { hosts := [p[0]] + hosts; }
    }
  }

  lemma SortedIsDescending(order: Order, freq: map<string, int>, s: seq<Host>)
    requires order.Larger? || order.LargerWithFreqTaint?
    requires Sorted(order, freq, s)
    ensures Descending(Capacities(s))
  {
    forall i, j | 0 <= i < j < |s| ensures Available(s[i]) >= Available(s[j]) {
      assert !Before(order, freq, s[j], s[i]);
    }
  }

  /** Packing a listing always gives a feasible placement; it is as long as any that fits. */
  lemma PackedIsFeasible(s: seq<Host>, hostMap: HostMap, n: nat)
    requires Lists(s, hostMap)
    ensures FeasibleOn(hostMap, PackedHosts(s, n)) && |PackedHosts(s, n)| <= n
    ensures forall p :: FeasibleOn(hostMap, p) && |p| <= n ==> |p| <= |PackedHosts(s, n)|
  {
    FillPlacementFeasible(Ips(s), Capacities(s), n);
    FillPlacementHosts(Ips(s), Capacities(s), n);
    FeasibleOnListing(s, hostMap, PackedHosts(s, n));
    forall p | FeasibleOn(hostMap, p) ensures |p| <= Sum(Capacities(s)) {
      FeasibleOnListing(s, hostMap, p);
      FeasibleNeedsSlots(Ips(s), Capacities(s), p);
    }
  }

  /** Packing the largest hosts first gives an optimal placement. */
  lemma PackedIsOptimal(s: seq<Host>, hostMap: HostMap, n: nat)
    requires Lists(s, hostMap) && Descending(Capacities(s)) && |PackedHosts(s, n)| == n
    ensures Optimal(hostMap, PackedHosts(s, n))
    ensures forall q, r :: FeasibleOn(hostMap, q) && |q| == n && Better(q, r) ==> Better(PackedHosts(s, n), r)
  {
    PackedIsFeasible(s, hostMap, n);
    var best := PackedHosts(s, n);
    forall q | FeasibleOn(hostMap, q) && |q| == n
      ensures !Better(q, best) && forall r :: Better(q, r) ==> Better(best, r)
    {
      FeasibleOnListing(s, hostMap, q);
      LargestFirstIsOptimal(Ips(s), Capacities(s), q);
    }
  }

  /** When the accounting of the host map covers the app, its own placement fits once freed. */
  lemma OldPlacementFits(hostMap: HostMap, freq: map<string, int>, p: Placement)
    requires forall h :: At(freq, h) == multiset(p)[h]
    requires forall h :: h in p ==> h in hostMap && hostMap[h].usedSlots >= multiset(p)[h]
    requires forall h :: h in hostMap ==> hostMap[h].usedSlots <= hostMap[h].slots
    ensures FeasibleOn(Freed(hostMap, freq), p)
  {
    forall h | h in hostMap ensures multiset(p)[h] <= Available(Freed(hostMap, freq)[h]) {
      assert At(freq, h) == multiset(p)[h];
      if multiset(p)[h] > 0 { assert h in p; }
    }
  }

  // ---------- makeSchedulingDecision ----------

  ghost predicate SomeFits(hostMap: HostMap, n: nat) {
    exists p :: FeasibleOn(hostMap, p) && |p| == n
  }

  ghost predicate SomeBetter(hostMap: HostMap, old_: Placement) {
    exists p :: FeasibleOn(hostMap, p) && |p| == |old_| && Better(p, old_)
  }

  function OrderFor(kind: DecisionType): Order {
    match kind
    case New => Larger
    case ScaleChange => LargerWithFreq
    case DistChange => LargerWithFreqTaint
  }

  /** The host a decision considers first. */
  predicate First(order: Order, freq: map<string, int>, hostMap: HostMap, h: string) {
    h in hostMap && forall g :: g in hostMap ==> !Before(order, freq, hostMap[g], hostMap[h])
  }

  ghost predicate FirstFits(order: Order, freq: map<string, int>, hostMap: HostMap, n: nat) {
    n == 0 || exists h :: First(order, freq, hostMap, h) && Available(hostMap[h]) >= n
  }

  ghost predicate OneHostFits(hostMap: HostMap, n: nat) {
    n == 0 || exists h :: h in hostMap && Available(hostMap[h]) >= n
  }

  /** A host gets messages only if every host that comes before it is full. */
  predicate FillsInOrder(order: Order, freq: map<string, int>, hostMap: HostMap, p: Placement) {
    forall g, h :: g in p && g in hostMap && h in hostMap && Before(order, freq, hostMap[h], hostMap[g]) ==>
      multiset(p)[h] == Available(hostMap[h])
  }

  // What the orders mean, host by host.

  /** a has more slots free than b; if equal, more slots; if equal, the later name. */
  predicate Roomier(a: Host, b: Host) {
    || Available(a) > Available(b)
    || (Available(a) == Available(b) && (a.slots > b.slots || (a.slots == b.slots && Less(b.ip, a.ip))))
  }

  predicate Full(hostMap: HostMap, p: Placement, h: string)
    requires h in hostMap
  {
    multiset(p)[h] == Available(hostMap[h])
  }

  /** A host is used only once all roomier ones are full. */
  predicate RoomiestFirst(hostMap: HostMap, p: Placement) {
    forall g, h :: g in p && g in hostMap && h in hostMap && Roomier(hostMap[h], hostMap[g]) ==> Full(hostMap, p, h)
  }

  /** A host is used only once all with more of the app's own messages are full, and among equals all
      roomier ones. */
  predicate OwnHostsFirst(hostMap: HostMap, own: multiset<string>, p: Placement) {
    forall g, h :: g in p && g in hostMap && h in hostMap
                   && (own[h] > own[g] || (own[h] == own[g] && Roomier(hostMap[h], hostMap[g]))) ==>
      Full(hostMap, p, h)
  }

  /** A host is used only once all with more slots free are full, and among equals all with more of the
      app's own messages. */
  predicate RoomThenOwnFirst(hostMap: HostMap, own: multiset<string>, p: Placement) {
    forall g, h :: g in p && g in hostMap && h in hostMap
                   && (|| Available(hostMap[h]) > Available(hostMap[g])
                       || (Available(hostMap[h]) == Available(hostMap[g]) && own[h] > own[g])) ==>
      Full(hostMap, p, h)
  }

  /** A host is used only once all with more used slots are full, and among equals all roomier ones. */
  predicate FullestFirst(hostMap: HostMap, p: Placement) {
    forall g, h :: g in p && g in hostMap && h in hostMap
                   && (|| hostMap[h].usedSlots > hostMap[g].usedSlots
                       || (hostMap[h].usedSlots == hostMap[g].usedSlots && Roomier(hostMap[h], hostMap[g]))) ==>
      Full(hostMap, p, h)
  }

  lemma LargerMeans(hostMap: HostMap, freq: map<string, int>, p: Placement)
    requires FillsInOrder(Larger, freq, hostMap, p)
    ensures RoomiestFirst(hostMap, p)
  {
  }

  lemma FreqMeans(hostMap: HostMap, freq: map<string, int>, own: multiset<string>, p: Placement)
    requires Named(hostMap) && FillsInOrder(LargerWithFreq, freq, hostMap, p) && forall h :: At(freq, h) == own[h]
    ensures OwnHostsFirst(hostMap, own, p)
  {
    forall g, h | g in p && g in hostMap && h in hostMap
                  && (own[h] > own[g] || (own[h] == own[g] && Roomier(hostMap[h], hostMap[g])))
      ensures Full(hostMap, p, h)
    {
      assert hostMap[h].ip == h && hostMap[g].ip == g;
      assert Before(LargerWithFreq, freq, hostMap[h], hostMap[g]);
    }
  }

  lemma TaintMeans(hostMap: HostMap, freq: map<string, int>, own: multiset<string>, p: Placement)
    requires Named(hostMap) && FillsInOrder(LargerWithFreqTaint, freq, hostMap, p) && forall h :: At(freq, h) == own[h]
    ensures RoomThenOwnFirst(hostMap, own, p)
  {
    forall g, h | g in p && g in hostMap && h in hostMap
                  && (|| Available(hostMap[h]) > Available(hostMap[g])
                      || (Available(hostMap[h]) == Available(hostMap[g]) && own[h] > own[g]))
      ensures Full(hostMap, p, h)
    {
      assert hostMap[h].ip == h && hostMap[g].ip == g;
      assert Before(LargerWithFreqTaint, freq, hostMap[h], hostMap[g]);
    }
  }

  lemma FullerMeans(hostMap: HostMap, freq: map<string, int>, p: Placement)
    requires FillsInOrder(Fuller, freq, hostMap, p)
    ensures FullestFirst(hostMap, p)
  {
  }

  /** Some host has room for n messages, and no host has more of the app's own, or as many and is roomier. */
  ghost predicate OwnHostFits(hostMap: HostMap, own: multiset<string>, n: nat) {
    || n == 0
    || exists h :: h in hostMap && Available(hostMap[h]) >= n && NoneAhead(hostMap, own, h)
  }

  predicate NoneAhead(hostMap: HostMap, own: multiset<string>, h: string)
    requires h in hostMap
  {
    forall g :: g in hostMap ==> own[g] < own[h] || (own[g] == own[h] && !Roomier(hostMap[g], hostMap[h]))
  }

  lemma OwnFirstMeans(hostMap: HostMap, freq: map<string, int>, own: multiset<string>, h: string)
    requires Named(hostMap) && h in hostMap && forall x :: At(freq, x) == own[x]
    ensures First(LargerWithFreq, freq, hostMap, h) <==> NoneAhead(hostMap, own, h)
  {
    forall g | g in hostMap
      ensures !Before(LargerWithFreq, freq, hostMap[g], hostMap[h]) <==>
              own[g] < own[h] || (own[g] == own[h] && !Roomier(hostMap[g], hostMap[h]))
    {
      assert hostMap[h].ip == h && hostMap[g].ip == g;
    }
  }

  lemma OwnFitsMeans(hostMap: HostMap, freq: map<string, int>, own: multiset<string>, n: nat)
    requires Named(hostMap) && forall x :: At(freq, x) == own[x]
    ensures FirstFits(LargerWithFreq, freq, hostMap, n) <==> OwnHostFits(hostMap, own, n)
  {
    hide NoneAhead, Before, Roomier;
    forall h | h in hostMap ensures First(LargerWithFreq, freq, hostMap, h) <==> NoneAhead(hostMap, own, h) {
      OwnFirstMeans(hostMap, freq, own, h);
    }
  }

  lemma SameUse(p: Placement, q: Placement)
    requires multiset(p) == multiset(q)
    ensures forall h :: (h in p <==> h in q) && multiset(p)[h] == multiset(q)[h]
  {
    assert forall h :: (h in p <==> h in multiset(p)) && (h in q <==> h in multiset(q));
  }

  /** The histogram decides in which order hosts were filled. */
  lemma SameOwnFill(hostMap: HostMap, own: multiset<string>, p: Placement, q: Placement)
    requires multiset(p) == multiset(q) && OwnHostsFirst(hostMap, own, p)
    ensures OwnHostsFirst(hostMap, own, q)
  {
    hide Roomier;
    SameUse(p, q);
  }

  lemma SameRoomFill(hostMap: HostMap, own: multiset<string>, p: Placement, q: Placement)
    requires multiset(p) == multiset(q) && RoomThenOwnFirst(hostMap, own, p)
    ensures RoomThenOwnFirst(hostMap, own, q)
  {
    SameUse(p, q);
  }

  lemma SameFullestFill(hostMap: HostMap, p: Placement, q: Placement)
    requires multiset(p) == multiset(q) && FullestFirst(hostMap, p)
    ensures FullestFirst(hostMap, q)
  {
    hide Roomier;
    SameUse(p, q);
  }

  lemma HostAt(s: seq<Host>, hostMap: HostMap, h: string) returns (k: nat)
    requires Lists(s, hostMap) && h in hostMap
    ensures k < |s| && s[k].ip == h && s[k] == hostMap[h]
  {
    k :| 0 <= k < |s| && Ips(s)[k] == h;
  }

  lemma PackedFillsInOrder(s: seq<Host>, hostMap: HostMap, order: Order, freq: map<string, int>, n: nat)
    requires Lists(s, hostMap) && Sorted(order, freq, s)
    ensures FillsInOrder(order, freq, hostMap, PackedHosts(s, n))
  {
    var p, caps := PackedHosts(s, n), Capacities(s);
    forall g, h | g in p && g in hostMap && h in hostMap && Before(order, freq, hostMap[h], hostMap[g])
      ensures multiset(p)[h] == Available(hostMap[h])
    {
      var j := HostAt(s, hostMap, g);
      var i := HostAt(s, hostMap, h);
      BeforeAsymmetric(order, freq, s[i], s[j]);
      FillPlacementCount(Ips(s), caps, n, i);
      FillPlacementCount(Ips(s), caps, n, j);
      assert g in multiset(p);
      FillIsGreedy(caps, n, i, j);
    }
  }

  lemma HeadIsFirst(s: seq<Host>, hostMap: HostMap, order: Order, freq: map<string, int>, h: string)
    requires Lists(s, hostMap) && Sorted(order, freq, s) && s != []
    ensures First(order, freq, hostMap, h) <==> h == s[0].ip
    ensures s[0].ip in hostMap && hostMap[s[0].ip] == s[0]
  {
    assert Ips(s)[0] in Ips(s);
    forall g | g in hostMap ensures !Before(order, freq, hostMap[g], s[0]) {
      var k := HostAt(s, hostMap, g);
      BeforeAsymmetric(order, freq, s[0], s[0]);
    }
    if First(order, freq, hostMap, h) {
      var k := HostAt(s, hostMap, h);
      TiesHaveOneName(order, freq, s[0], s[k]);
    }
  }

  lemma HeadPacking(s: seq<Host>, n: nat)
    requires s != []
    ensures var k := Min(n, Available(s[0]));
            && PackedHosts(s[..1], n) == Repeat(s[0].ip, k)
            && (k == n ==> PackedHosts(s[..1], n) == PackedHosts(s, n))
  {
    hide FillPlacement;
    var head, k := s[..1], Min(n, Available(s[0]));
    PackStep(head, n);
    PackStep(s, n);
    assert head[1..] == [];
    PackedNowhere(n - k);
    assert Repeat(s[0].ip, k) + [] == Repeat(s[0].ip, k);
    if k == n { PackNothing(s[1..]); }
  }

  lemma PackedNowhere(n: nat)
    ensures PackedHosts([], n) == []
  {
  }

  lemma FirstFitsHead(s: seq<Host>, hostMap: HostMap, order: Order, freq: map<string, int>, n: nat)
    requires Lists(s, hostMap) && Sorted(order, freq, s) && s != []
    ensures FirstFits(order, freq, hostMap, n) <==> Min(n, Available(s[0])) == n
  {
    hide First, Sorted, Lists;
    forall h ensures First(order, freq, hostMap, h) <==> h == s[0].ip { HeadIsFirst(s, hostMap, order, freq, h); }
    HeadIsFirst(s, hostMap, order, freq, s[0].ip);
  }

  /** Packing on the first host alone: it works iff that host has room, and is then all that packing does. */
  lemma SingleHostFacts(s: seq<Host>, hostMap: HostMap, order: Order, freq: map<string, int>, n: nat)
    requires Lists(s, hostMap) && Sorted(order, freq, s)
    ensures var one := PackedHosts(if |s| > 1 then s[..1] else s, n);
            && (|one| == n <==> FirstFits(order, freq, hostMap, n)) && |one| <= n
            && (|one| == n ==> one == PackedHosts(s, n))
            && FeasibleOn(hostMap, one)
  {
    if s == [] {
      PackedNowhere(n);
      assert forall h :: h in hostMap <==> h in Ips(s);
    } else {
      hide PackedHosts, FirstFits, Sorted, FeasibleOn, Lists;
      HeadPacking(s, n);
      FirstFitsHead(s, hostMap, order, freq, n);
      FeasibleHead(s, hostMap, Min(n, Available(s[0])));
      assert |s| == 1 ==> s[..1] == s;
    }
  }

  lemma FeasibleHead(s: seq<Host>, hostMap: HostMap, k: nat)
    requires Lists(s, hostMap) && s != [] && k <= Available(s[0])
    ensures FeasibleOn(hostMap, Repeat(s[0].ip, k))
  {
    assert Ips(s)[0] in Ips(s);
    forall h | h in hostMap ensures multiset(Repeat(s[0].ip, k))[h] <= Available(hostMap[h]) {
      RepeatCount(s[0].ip, k, h);
    }
  }

  /** Unless it is a scale change, the first host is the one with most room. */
  lemma FirstIsLargest(s: seq<Host>, hostMap: HostMap, kind: DecisionType, freq: map<string, int>, n: nat)
    requires Lists(s, hostMap) && Sorted(OrderFor(kind), freq, s) && !kind.ScaleChange?
    ensures FirstFits(OrderFor(kind), freq, hostMap, n) <==> OneHostFits(hostMap, n)
  {
    if h :| h in hostMap && Available(hostMap[h]) >= n {
      var k := HostAt(s, hostMap, h);
      SortedIsDescending(OrderFor(kind), freq, s);
      assert Available(s[0]) == Capacities(s)[0] >= Capacities(s)[k] == Available(s[k]);
      HeadIsFirst(s, hostMap, OrderFor(kind), freq, s[0].ip);
    }
  }

  lemma VerdictFacts(s: seq<Host>, hostMap: HostMap, kind: DecisionType, freq: map<string, int>, n: nat)
    requires Lists(s, hostMap) && Sorted(OrderFor(kind), freq, s)
    ensures |PackedHosts(s, n)| < n <==> !SomeFits(hostMap, n)
    ensures FeasibleOn(hostMap, PackedHosts(s, n))
    ensures |PackedHosts(s, n)| == n && !kind.ScaleChange? ==>
              Optimal(hostMap, PackedHosts(s, n))
    ensures |PackedHosts(s, n)| == n && kind.DistChange? ==>
              forall old_ :: |old_| == n ==> (SomeBetter(hostMap, old_) <==> Better(PackedHosts(s, n), old_))
  {
    PackedIsFeasible(s, hostMap, n);
    if |PackedHosts(s, n)| == n && !kind.ScaleChange? {
      SortedIsDescending(OrderFor(kind), freq, s);
      PackedIsOptimal(s, hostMap, n);
    }
  }

  /** Accept the packed decision only if it beats the old one, and then move as little as possible. */
  method MigrateIfBetter(d: SchedulingDecision, oldDecision: SchedulingDecision, ghost hostMap: HostMap)
    returns (r: Outcome)
    requires d.Complete() && oldDecision.Complete() && |d.hosts| == |oldDecision.hosts|
    requires "" !in d.hosts && "" !in oldDecision.hosts && FeasibleOn(hostMap, d.hosts)
    ensures r.DoNotMigrate? || (r.Scheduled? && fresh(r.decision))
    ensures r.DoNotMigrate? <==> !Better(d.hosts, oldDecision.hosts)
    ensures r.Scheduled? ==>
              && r.decision.Complete() && r.decision.appId == oldDecision.appId
              && Minimised(r.decision.Rows(), oldDecision.Rows(), multiset(r.decision.hosts))
              && multiset(r.decision.hosts) == multiset(d.hosts)
              && FeasibleOn(hostMap, r.decision.hosts)
              && Better(r.decision.hosts, oldDecision.hosts)
              && (Optimal(hostMap, d.hosts) ==> Optimal(hostMap, r.decision.hosts))
  {
    var better := IsFirstDecisionBetter(d.hosts, oldDecision.hosts);
    if better {
      var minimised := MinimiseNumOfMigrations(d, oldDecision);
      assert Hosts(minimised.Rows()) == minimised.hosts;
      HistogramDecides(hostMap, d.hosts, minimised.hosts);
      r := Scheduled(minimised);
    } else {
      r := DoNotMigrate;
    }
  }

  /** Sort the hosts for this kind of decision and pack the messages on them. */
  method PackSorted(hostMap: HostMap, freq: map<string, int>, kind: DecisionType, appId: int,
                    msgs: seq<Message>, singleHost: bool)
    returns (d: SchedulingDecision, left: nat, freed: HostMap)
    requires Named(hostMap) && "" !in hostMap
    ensures freed == if kind.DistChange? then Freed(hostMap, freq) else hostMap
    ensures fresh(d) && d.Complete() && d.appId == appId && Carries(d.Rows(), msgs)
    ensures left == |msgs| - |d.hosts| && FeasibleOn(freed, d.hosts) && "" !in d.hosts
    ensures left == 0 <==>
              if singleHost then FirstFits(OrderFor(kind), freq, freed, |msgs|) else SomeFits(freed, |msgs|)
    ensures singleHost && !kind.ScaleChange? ==> (left == 0 <==> OneHostFits(freed, |msgs|))
    ensures left == 0 ==> FillsInOrder(OrderFor(kind), freq, freed, d.hosts)
    ensures left == 0 && !kind.ScaleChange? ==> Optimal(freed, d.hosts)
    ensures left == 0 && kind.DistChange? ==>
              forall old_ :: |old_| == |msgs| ==> (SomeBetter(freed, old_) <==> Better(d.hosts, old_))
  {
    d := new SchedulingDecision(appId, 0);
    var sorted;
    sorted, freed := GetSortedHosts(hostMap, freq, kind.DistChange?, OrderFor(kind));
    VerdictFacts(sorted, freed, kind, freq, |msgs|);
    PackedFillsInOrder(sorted, freed, OrderFor(kind), freq, |msgs|);
    SingleHostFacts(sorted, freed, OrderFor(kind), freq, |msgs|);
    if !kind.ScaleChange? { FirstIsLargest(sorted, freed, kind, freq, |msgs|); }
    hide Optimal, SomeFits, SomeBetter, FirstFits, OneHostFits, FillsInOrder, Sorted, PackedHosts;
    if singleHost && |sorted| > 1 { sorted := sorted[..1]; }
    left := Pack(d, sorted, msgs);
  }

  /** DIST_CHANGE. `freed` is the planner's copy of the host map with the app's own slots given back.
      A refusal for lack of slots means nothing fits, or under the single-host hint that no one host has
      room; DO_NOT_MIGRATE means nothing that fits is better; an accepted migration is optimal, strictly
      better, and keeps as many messages in place as its histogram allows. */
  method ScheduleMigration(hostMap: HostMap, oldDecision: SchedulingDecision, appId: int,
                           msgs: seq<Message>, singleHost: bool)
    returns (r: Outcome, freed: HostMap, ghost freq: map<string, int>)
    requires Named(hostMap) && "" !in hostMap
    requires oldDecision.Complete() && "" !in oldDecision.hosts && |msgs| == |oldDecision.hosts|
    ensures forall h :: At(freq, h) == multiset(oldDecision.hosts)[h]
    ensures freed == Freed(hostMap, freq)
    ensures !r.MustFreeze? && (r.Scheduled? ==> fresh(r.decision))
    ensures r.NotEnoughSlots? <==> !(if singleHost then OneHostFits(freed, |msgs|) else SomeFits(freed, |msgs|))
    ensures r.DoNotMigrate? <==> !r.NotEnoughSlots? && !SomeBetter(freed, oldDecision.hosts)
    ensures r.Scheduled? ==>
              && r.decision.Complete() && r.decision.appId == oldDecision.appId
              && FeasibleOn(freed, r.decision.hosts)
              && Better(r.decision.hosts, oldDecision.hosts)
              && Minimised(r.decision.Rows(), oldDecision.Rows(), multiset(r.decision.hosts))
              && Optimal(freed, r.decision.hosts)
              && RoomThenOwnFirst(freed, multiset(oldDecision.hosts), r.decision.hosts)
  {
    hide Optimal, SomeFits, SomeBetter, OneHostFits, FirstFits, FillsInOrder, RoomThenOwnFirst;
    var freqCount := GetHostFreqCount(oldDecision.hosts);
    freq := freqCount;
    var d, left;
    d, left, freed := PackSorted(hostMap, freqCount, DistChange, appId, msgs, singleHost);
    if left > 0 {
      r := NotEnoughSlots;
    } else {
      r := MigrateIfBetter(d, oldDecision, freed);
      FreedNamed(hostMap, freq);
      TaintMeans(freed, freq, multiset(oldDecision.hosts), d.hosts);
      if r.Scheduled? { SameRoomFill(freed, multiset(oldDecision.hosts), d.hosts, r.decision.hosts); }
    }
  }

  lemma FreedNamed(hostMap: HostMap, freq: map<string, int>)
    requires Named(hostMap)
    ensures Named(Freed(hostMap, freq))
  {
  }

  /** NEW and SCALE_CHANGE: the messages in order on hosts with room for them. A NEW decision is optimal and
      fills the roomiest hosts first, a scale change those with most of the app's messages. Under the
      single-host hint the host that comes first must have room for everything. */
  method ScheduleMessages(hostMap: HostMap, oldHosts: Placement, kind: DecisionType, appId: int,
                          msgs: seq<Message>, singleHost: bool)
    returns (r: Outcome)
    requires Named(hostMap) && "" !in hostMap && !kind.DistChange?
    ensures (r.Scheduled? && fresh(r.decision)) || r.NotEnoughSlots?
    ensures r.Scheduled? <==>
              if !singleHost then SomeFits(hostMap, |msgs|)
              else if kind.New? then OneHostFits(hostMap, |msgs|)
              else OwnHostFits(hostMap, multiset(oldHosts), |msgs|)
    ensures r.Scheduled? ==>
              && r.decision.Complete() && r.decision.appId == appId
              && |r.decision.hosts| == |msgs| && Carries(r.decision.Rows(), msgs)
              && FeasibleOn(hostMap, r.decision.hosts)
              && (kind.New? ==> Optimal(hostMap, r.decision.hosts) && RoomiestFirst(hostMap, r.decision.hosts))
              && (kind.ScaleChange? ==> OwnHostsFirst(hostMap, multiset(oldHosts), r.decision.hosts))
  {
    hide Optimal, SomeFits, FirstFits, OneHostFits, OwnHostFits, FillsInOrder, RoomiestFirst, OwnHostsFirst;
    var freq: map<string, int> := map[];
    if !kind.New? { freq := GetHostFreqCount(oldHosts); }
    var d, left, same := PackSorted(hostMap, freq, kind, appId, msgs, singleHost);
    if kind.ScaleChange? { OwnFitsMeans(hostMap, freq, multiset(oldHosts), |msgs|); }
    if left > 0 { return NotEnoughSlots; }
    if kind.New? {
      LargerMeans(hostMap, freq, d.hosts);
    } else {
      FreqMeans(hostMap, freq, multiset(oldHosts), d.hosts);
    }
    r := Scheduled(d);
  }

  // ---------- runs of migrations ----------

  /** A run of accepted migrations of one app: same messages, each placement better than the last. */
  ghost predicate MigrationRun(run: seq<Placement>, n: nat) {
    && (forall i :: 0 <= i < |run| ==> |run[i]| == n)
    && forall i, j :: 0 <= i < j < |run| && j == i + 1 ==> Better(run[j], run[i])
  }

  function Potential(p: Placement): nat { |HostSet(p)| * (|p| * |p| + 1) + CrossPairs(p) }

  lemma PotentialBound(p: Placement)
    ensures |HostSet(p)| <= |p| && CrossPairs(p) <= |p| * |p|
  {
    var hosts := DistinctHosts(p);
    CrossPairsAndSquares(hosts, p);
    HistogramTotals(hosts, p);
    SquaresNonNegative(Histogram(hosts, p));
  }

  lemma {:induction false} SquaresNonNegative(f: seq<int>)
    requires forall i :: 0 <= i < |f| ==> f[i] >= 0
    ensures Squares(f) >= 0 && NonZeros(f) <= Sum(f)
  {
    if f != [] {
      SquaresNonNegative(f[1..]);
      assert f[0] * f[0] >= 0;
    }
  }

  lemma LowerDigitCannotCatchUp(x: int, y: int, k: int, c: int, d: int)
    requires x < y && 0 <= c < k && 0 <= d
    ensures x * k + c < y * k + d
  {
    assert (y - x - 1) * k >= 0;
    assert y * k - x * k - k == (y - x - 1) * k;
  }

  lemma BetterDescends(a: Placement, b: Placement)
    requires |a| == |b| && Better(a, b)
    ensures Potential(a) < Potential(b)
  {
    PotentialBound(a);
    if |HostSet(a)| != |HostSet(b)| {
      LowerDigitCannotCatchUp(|HostSet(a)|, |HostSet(b)|, |a| * |a| + 1, CrossPairs(a), CrossPairs(b));
    }
  }

  /** Accepted migrations of fixed messages must stop: a run is no longer than its first
      placement's potential. */
  lemma {:induction false} MigrationsTerminate(run: seq<Placement>, n: nat)
    requires run != [] && MigrationRun(run, n)
    ensures |run| <= Potential(run[0]) + 1
  {
    if |run| > 1 {
      BetterDescends(run[1], run[0]);
      MigrationsTerminate(run[1..], n);
    }
  }
}
