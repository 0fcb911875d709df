/** The other scheduling policies: Spot avoids hosts about to be evicted, Forced rotates every message
    away, Compact migrates to empty hosts. */
module PolicySchedulers {
  import opened Options
  import opened Placement
  import opened Decisions
  import opened HostOrder
  import opened Migrations
  import opened BinPackScheduler

  // ---------- shared ----------

  /** What greedy packing in the given order produces. */
  ghost predicate IsPacked(hostMap: HostMap, freq: map<string, int>, order: Order, n: nat, p: Placement) {
    exists s :: Lists(s, hostMap) && Sorted(order, freq, s) && p == PackedHosts(s, n)
  }

  /** Packs on the hosts in the given order; whatever the order, it stops short only if nothing fits. */
  method PackInOrder(hostMap: HostMap, freq: map<string, int>, free: bool, order: Order, appId: int, msgs: seq<Message>)
    returns (d: SchedulingDecision, left: nat, freed: HostMap)
    requires Named(hostMap) && "" !in hostMap
    ensures IsPacked(freed, freq, order, |msgs|, d.hosts)
    ensures freed == if free then Freed(hostMap, freq) else hostMap
    ensures fresh(d) && d.Complete() && d.appId == appId && Carries(d.Rows(), msgs)
    ensures left == |msgs| - |d.hosts| && FeasibleOn(freed, d.hosts) && "" !in d.hosts
    ensures left > 0 <==> !SomeFits(freed, |msgs|)
  {
    d := new SchedulingDecision(appId, 0);
    var sorted;
    sorted, freed := GetSortedHosts(hostMap, freq, free, order);
    left := Pack(d, sorted, msgs);
    PackedIsFeasible(sorted, freed, |msgs|);
    if left == 0 { assert FeasibleOn(freed, d.hosts) && |d.hosts| == |msgs|; }
  }

  lemma IsPackedFills(hostMap: HostMap, freq: map<string, int>, order: Order, n: nat, p: Placement)
    requires IsPacked(hostMap, freq, order, n, p)
    ensures FillsInOrder(order, freq, hostMap, p)
  {
    var s :| Lists(s, hostMap) && Sorted(order, freq, s) && p == PackedHosts(s, n);
    PackedFillsInOrder(s, hostMap, order, freq, n);
  }

  /** The minimised decision has the packed one's histogram, hence its feasibility. */
  lemma MinimisedFits(hostMap: HostMap, rows: seq<Row>, oldRows: seq<Row>, packed: Placement, hosts: Placement)
    requires Minimised(rows, oldRows, multiset(packed)) && hosts == Hosts(rows) && FeasibleOn(hostMap, packed)
    ensures multiset(hosts) == multiset(packed) && FeasibleOn(hostMap, hosts)
  {
    HistogramDecides(hostMap, packed, hosts);
  }

  /** What the planner's accounting guarantees of a host map an app runs on. */
  predicate Accounts(hostMap: HostMap, p: Placement) {
    && (forall h :: h in p ==> h in hostMap && hostMap[h].usedSlots >= multiset(p)[h])
    && forall h :: h in hostMap ==> 0 <= hostMap[h].usedSlots <= hostMap[h].slots
  }

  // ---------- Spot ----------

  const MUST_EVICT_IP := "E.VI.CT.ME"

  predicate Evicted(hostMap: HostMap, ip: string) { ip in hostMap && hostMap[ip].ip == MUST_EVICT_IP }

  /** Hosts carry their own name, or the mark of the next eviction. */
  predicate NamedOrEvicted(hostMap: HostMap) {
    forall ip :: ip in hostMap ==> hostMap[ip].ip == ip || hostMap[ip].ip == MUST_EVICT_IP
  }

  function Remaining(hostMap: HostMap): HostMap {
    map ip | ip in hostMap && !Evicted(hostMap, ip) :: hostMap[ip]
  }

  /** Takes the hosts about to be evicted out of the map. */
  method FilterEvicted(hostMap: HostMap) returns (rest: HostMap, removed: set<string>)
    ensures rest == Remaining(hostMap)
    ensures forall ip :: ip in removed <==> Evicted(hostMap, ip)
  {
    removed := {};
    var todo := hostMap.Keys;
    while todo != {}
      invariant todo <= hostMap.Keys
      invariant forall ip :: ip in removed <==> Evicted(hostMap, ip) && ip !in todo
      decreases todo
    {
      var ip :| ip in todo;
      if hostMap[ip].ip == MUST_EVICT_IP { removed := removed + {ip}; }
      todo := todo - {ip};
    }
    rest := hostMap - removed;
  }

  method SpotMessages(hostMap: HostMap, oldHosts: Placement, kind: DecisionType, appId: int, msgs: seq<Message>)
    returns (r: Outcome)
    requires NamedOrEvicted(hostMap) && "" !in hostMap && !kind.DistChange?
    ensures (r.Scheduled? && fresh(r.decision)) || r.NotEnoughSlots?
    ensures r.NotEnoughSlots? <==> !SomeFits(Remaining(hostMap), |msgs|)
    ensures r.Scheduled? ==>
              && r.decision.Complete() && Carries(r.decision.Rows(), msgs) && |r.decision.hosts| == |msgs|
              && FeasibleOn(hostMap, r.decision.hosts)
              && (forall h :: h in r.decision.hosts ==> !Evicted(hostMap, h))
              && (kind.New? ==> RoomiestFirst(Remaining(hostMap), r.decision.hosts))
              && (kind.ScaleChange? ==> OwnHostsFirst(Remaining(hostMap), multiset(oldHosts), r.decision.hosts))
  {
    hide IsPacked, SomeFits, FillsInOrder, RoomiestFirst, OwnHostsFirst;
    var rest, removed := FilterEvicted(hostMap);
    var freq: map<string, int> := map[];
    if !kind.New? { freq := GetHostFreqCount(oldHosts); }
    var d, left, same := PackInOrder(rest, freq, false, if kind.New? then Larger else LargerWithFreq, appId, msgs);
    if left > 0 { return NotEnoughSlots; }
    IsPackedFills(rest, freq, if kind.New? then Larger else LargerWithFreq, |msgs|, d.hosts);
    if kind.New? {
      LargerMeans(rest, freq, d.hosts);
    } else {
      FreqMeans(rest, freq, multiset(oldHosts), d.hosts);
    }
    SpareEvicted(hostMap, d.hosts);
    r := Scheduled(d);
  }

  lemma SpareEvicted(hostMap: HostMap, p: Placement)
    requires FeasibleOn(Remaining(hostMap), p)
    ensures FeasibleOn(hostMap, p) && forall h :: h in p ==> !Evicted(hostMap, h)
  {
    forall h | h in p ensures h in hostMap && !Evicted(hostMap, h) { assert h in Remaining(hostMap); }
    forall h | h in hostMap ensures multiset(p)[h] <= Available(hostMap[h]) {
      if multiset(p)[h] > 0 { assert h in p && h in Remaining(hostMap); }
    }
  }

  lemma RemainingNamed(hostMap: HostMap)
    requires NamedOrEvicted(hostMap) && "" !in hostMap
    ensures Named(Remaining(hostMap)) && "" !in Remaining(hostMap)
  {
  }

  lemma NoneEvicted(hostMap: HostMap, freq: map<string, int>, p: Placement)
    requires FeasibleOn(Freed(Remaining(hostMap), freq), p)
    ensures forall h :: h in p ==> !Evicted(hostMap, h)
  {
    forall h | h in p ensures !Evicted(hostMap, h) { assert h in Freed(Remaining(hostMap), freq); }
  }

  /** Spot DIST_CHANGE: freeze iff the app does not fit elsewhere, else migrate iff it must, and never to a
      host about to be evicted. */
  method SpotMigration(hostMap: HostMap, oldDecision: SchedulingDecision, appId: int, msgs: seq<Message>)
    returns (r: Outcome, freed: HostMap, ghost freq: map<string, int>)
    requires NamedOrEvicted(hostMap) && "" !in hostMap
    requires oldDecision.Complete() && "" !in oldDecision.hosts && |msgs| == |oldDecision.hosts|
    ensures forall h :: At(freq, h) == multiset(oldDecision.hosts)[h]
    ensures freed == Freed(Remaining(hostMap), freq)
    ensures !r.NotEnoughSlots? && (r.Scheduled? ==> fresh(r.decision))
    ensures r.MustFreeze? <==> !SomeFits(freed, |msgs|)
    ensures r.DoNotMigrate? <==> SomeFits(freed, |msgs|) && forall h :: h in oldDecision.hosts ==> !Evicted(hostMap, h)
    ensures r.Scheduled? ==>
              && r.decision.Complete() && FeasibleOn(freed, r.decision.hosts)
              && (forall h :: h in r.decision.hosts ==> !Evicted(hostMap, h))
              && Minimised(r.decision.Rows(), oldDecision.Rows(), multiset(r.decision.hosts))
              && OwnHostsFirst(freed, multiset(oldDecision.hosts), r.decision.hosts)
  {
    hide IsPacked, SomeFits, Minimised, Freed, Remaining, FillsInOrder, OwnHostsFirst;
    var rest, removed := FilterEvicted(hostMap);
    RemainingNamed(hostMap);
    var freqCount := GetHostFreqCount(oldDecision.hosts);
    freq := freqCount;
    var d, left;
    d, left, freed := PackInOrder(rest, freqCount, true, LargerWithFreq, appId, msgs);
    if left > 0 { return MustFreeze, freed, freq; }
    var affected := false;
    for i := 0 to |oldDecision.hosts|
      invariant affected <==> exists j :: 0 <= j < i && Evicted(hostMap, oldDecision.hosts[j])
    {
      if oldDecision.hosts[i] in removed { affected := true; }
    }
    if !affected { return DoNotMigrate, freed, freq; }
    var m := MinimiseNumOfMigrations(d, oldDecision);
    assert Hosts(m.Rows()) == m.hosts;
    MinimisedFits(freed, m.Rows(), oldDecision.Rows(), d.hosts, m.hosts);
    IsPackedFills(freed, freq, LargerWithFreq, |msgs|, d.hosts);
    FreedNamed(rest, freq);
    FreqMeans(freed, freq, multiset(oldDecision.hosts), d.hosts);
    SameOwnFill(freed, multiset(oldDecision.hosts), d.hosts, m.hosts);
    NoneEvicted(hostMap, freq, m.hosts);
    r := Scheduled(m);
  }

  /** On a map whose accounting covers the app, only an app with a message on a host about to be evicted is
      ever frozen. */
  lemma OnlyEvictedFreeze(hostMap: HostMap, p: Placement, freq: map<string, int>)
    requires Accounts(hostMap, p) && forall h :: At(freq, h) == multiset(p)[h]
    requires !SomeFits(Freed(Remaining(hostMap), freq), |p|)
    ensures exists h :: h in p && Evicted(hostMap, h)
  {
    if forall h :: h in p ==> !Evicted(hostMap, h) {
      OldPlacementFits(Remaining(hostMap), freq, p);
    }
  }

  // ---------- Compact ----------

  /** The map with a placement's messages added to the used slots; unknown hosts are skipped. */
  function Occupied(hostMap: HostMap, p: Placement): HostMap {
    map ip | ip in hostMap :: hostMap[ip].(usedSlots := hostMap[ip].usedSlots + multiset(p)[ip])
  }

  function EmptyHosts(hostMap: HostMap): set<string> {
    set ip | ip in hostMap && hostMap[ip].usedSlots == 0
  }

  lemma OccupiedSnoc(hostMap: HostMap, p: Placement, ip: string)
    ensures Occupied(hostMap, p + [ip]) ==
            var m := Occupied(hostMap, p);
            if ip in m then m[ip := m[ip].(usedSlots := m[ip].usedSlots + 1)] else m
  {
    var m := Occupied(hostMap, p);
    var t := if ip in m then m[ip := m[ip].(usedSlots := m[ip].usedSlots + 1)] else m;
    forall h | h in hostMap ensures Occupied(hostMap, p + [ip])[h] == t[h] {
      assert multiset(p + [ip])[h] == multiset(p)[h] + if h == ip then 1 else 0;
    }
  }

  method UpdateHostMapWithDecision(hostMap: HostMap, hosts: Placement) returns (m: HostMap)
    ensures m == Occupied(hostMap, hosts)
  {
    m := hostMap;
    assert m == Occupied(hostMap, hosts[..0]);
    hide Occupied;
    for i := 0 to |hosts|
      invariant m == Occupied(hostMap, hosts[..i])
    {
      var ip := hosts[i];
      assert hosts[..i + 1] == hosts[..i] + [ip];
      OccupiedSnoc(hostMap, hosts[..i], ip);
      if ip in m { m := m[ip := m[ip].(usedSlots := m[ip].usedSlots + 1)]; }
    }
    assert hosts[..|hosts|] == hosts;
  }

  method GetNumFreeHosts(hostMap: HostMap) returns (n: nat)
    ensures n == |EmptyHosts(hostMap)|
  {
    ghost var seen: set<string> := {};
    n := 0;
    var rest := hostMap.Keys;
    while rest != {}
      invariant rest <= hostMap.Keys && n == |seen|
      invariant forall ip :: ip in seen <==> ip in EmptyHosts(hostMap) && ip !in rest
      decreases rest
    {
      var ip :| ip in rest;
      if hostMap[ip].usedSlots == 0 { n, seen := n + 1, seen + {ip}; }
      rest := rest - {ip};
    }
    assert seen == EmptyHosts(hostMap);
  }

  /** p leaves more hosts empty than q does. */
  predicate EmptiesMore(hostMap: HostMap, p: Placement, q: Placement) {
    |EmptyHosts(Occupied(hostMap, p))| > |EmptyHosts(Occupied(hostMap, q))|
  }

  /** A decision is better if it leaves more hosts empty. */
  method CompactIsFirstBetter(hostMap: HostMap, newHosts: Placement, oldHosts: Placement) returns (better: bool)
    ensures better <==> EmptiesMore(hostMap, newHosts, oldHosts)
  {
    var before := UpdateHostMapWithDecision(hostMap, oldHosts);
    var numBefore := GetNumFreeHosts(before);
    var after := UpdateHostMapWithDecision(hostMap, newHosts);
    var numAfter := GetNumFreeHosts(after);
    better := numAfter > numBefore;
  }

  predicate UsedByOthers(others: seq<Placement>, ip: string) {
    exists i :: 0 <= i < |others| && ip in others[i]
  }

  function Unshared(hostMap: HostMap, others: seq<Placement>): HostMap {
    map ip | ip in hostMap && !UsedByOthers(others, ip) :: hostMap[ip]
  }

  /** Takes out the hosts that run apps of other users; `others` are those apps' placements. */
  method FilterOtherUsers(hostMap: HostMap, others: seq<Placement>) returns (rest: HostMap)
    ensures rest == Unshared(hostMap, others)
  {
    rest := hostMap;
    for i := 0 to |others|
      invariant rest == Unshared(hostMap, others[..i])
    {
      rest := rest - HostSet(others[i]);
      UsedNext(others, i);
    }
    assert others[..|others|] == others;
  }

  lemma UsedNext(others: seq<Placement>, i: nat)
    requires i < |others|
    ensures forall ip :: UsedByOthers(others[..i + 1], ip) <==>
              UsedByOthers(others[..i], ip) || ip in HostSet(others[i])
  {
    var a, b := others[..i], others[..i + 1];
    assert b[i] == others[i] && forall j :: 0 <= j < i ==> b[j] == a[j];
    forall ip ensures UsedByOthers(b, ip) <==> UsedByOthers(a, ip) || ip in others[i] {
      if UsedByOthers(a, ip) {
        var j :| 0 <= j < |a| && ip in a[j];
        assert ip in b[j];
      }
      if ip in others[i] { assert ip in b[i]; }
    }
  }

  /** Compact DIST_CHANGE: `packed` is the app packed again on the fullest hosts first. It is declined iff
      that leaves no more hosts empty than the app does now. */
  method CompactMigration(hostMap: HostMap, others: seq<Placement>, oldDecision: SchedulingDecision, appId: int,
                          msgs: seq<Message>)
    returns (r: Outcome, freed: HostMap, ghost freq: map<string, int>, ghost packed: Placement)
    requires Named(hostMap) && "" !in hostMap
    requires oldDecision.Complete() && "" !in oldDecision.hosts && |msgs| == |oldDecision.hosts|
    ensures forall h :: At(freq, h) == multiset(oldDecision.hosts)[h]
    ensures freed == Freed(Unshared(hostMap, others), freq) && IsPacked(freed, freq, Fuller, |msgs|, packed)
    ensures FeasibleOn(freed, packed) && FullestFirst(freed, packed)
    ensures !r.MustFreeze? && (r.Scheduled? ==> fresh(r.decision))
    ensures r.NotEnoughSlots? <==> !SomeFits(freed, |msgs|)
    ensures r.DoNotMigrate? <==> SomeFits(freed, |msgs|) && !EmptiesMore(freed, packed, oldDecision.hosts)
    ensures r.Scheduled? ==>
              && r.decision.Complete() && FeasibleOn(freed, r.decision.hosts)
              && (forall h :: h in r.decision.hosts ==> !UsedByOthers(others, h))
              && Minimised(r.decision.Rows(), oldDecision.Rows(), multiset(packed))
              && EmptiesMore(freed, r.decision.hosts, oldDecision.hosts)
              && FullestFirst(freed, r.decision.hosts)
  {
    hide IsPacked, SomeFits, Minimised, Freed, Unshared, EmptiesMore, FillsInOrder, FullestFirst;
    var rest := FilterOtherUsers(hostMap, others);
    UnsharedNamed(hostMap, others);
    var freqCount := GetHostFreqCount(oldDecision.hosts);
    freq := freqCount;
    var d, left;
    d, left, freed := PackInOrder(rest, freqCount, true, Fuller, appId, msgs);
    packed := d.hosts;
    IsPackedFills(freed, freq, Fuller, |msgs|, d.hosts);
    FullerMeans(freed, freq, d.hosts);
    if left > 0 { return NotEnoughSlots, freed, freq, packed; }
    var better := CompactIsFirstBetter(freed, d.hosts, oldDecision.hosts);
    if !better { return DoNotMigrate, freed, freq, packed; }
    var m := MinimiseNumOfMigrations(d, oldDecision);
    assert Hosts(m.Rows()) == m.hosts;
    MinimisedFits(freed, m.Rows(), oldDecision.Rows(), d.hosts, m.hosts);
    SameFullestFill(freed, d.hosts, m.hosts);
    SameEmpties(freed, d.hosts, m.hosts, oldDecision.hosts);
    NoneShared(hostMap, others, freq, m.hosts);
    r := Scheduled(m);
  }

  lemma SameEmpties(hostMap: HostMap, a: Placement, b: Placement, q: Placement)
    requires multiset(a) == multiset(b)
    ensures EmptiesMore(hostMap, a, q) <==> EmptiesMore(hostMap, b, q)
  {
    assert Occupied(hostMap, a) == Occupied(hostMap, b);
  }

  lemma UnsharedNamed(hostMap: HostMap, others: seq<Placement>)
    requires Named(hostMap) && "" !in hostMap
    ensures Named(Unshared(hostMap, others)) && "" !in Unshared(hostMap, others)
  {
  }

  lemma NoneShared(hostMap: HostMap, others: seq<Placement>, freq: map<string, int>, p: Placement)
    requires FeasibleOn(Freed(Unshared(hostMap, others), freq), p)
    ensures forall h :: h in p ==> !UsedByOthers(others, h)
  {
    forall h | h in p ensures !UsedByOthers(others, h) { assert h in Freed(Unshared(hostMap, others), freq); }
  }

  /** The planner's map once the app has moved from one placement to the other. */
  function AfterMove(hostMap: HostMap, was: Placement, now: Placement): HostMap {
    map ip | ip in hostMap :: hostMap[ip].(usedSlots := hostMap[ip].usedSlots - multiset(was)[ip] + multiset(now)[ip])
  }

  /** Used slots cover the app's messages, and one more where an app of another user runs too. */
  predicate AccountsWith(hostMap: HostMap, others: seq<Placement>, p: Placement) {
    && (forall h :: h in p ==>
          h in hostMap && hostMap[h].usedSlots >= multiset(p)[h] + if UsedByOthers(others, h) then 1 else 0)
    && forall h :: h in hostMap ==> 0 <= hostMap[h].usedSlots <= hostMap[h].slots
  }

  /** On a map whose accounting covers the apps, an accepted migration leaves strictly more hosts of the
      whole map empty, whoever else runs on the hosts it leaves. */
  lemma CompactEmptiesHosts(hostMap: HostMap, others: seq<Placement>, freq: map<string, int>, was: Placement,
                            now: Placement)
    requires AccountsWith(hostMap, others, was) && forall h :: At(freq, h) == multiset(was)[h]
    requires FeasibleOn(Freed(Unshared(hostMap, others), freq), now)
    requires EmptiesMore(Freed(Unshared(hostMap, others), freq), now, was)
    ensures |EmptyHosts(AfterMove(hostMap, was, now))| > |EmptyHosts(hostMap)|
  {
    var rest := Unshared(hostMap, others);
    var freed := Freed(rest, freq);
    var moved := AfterMove(hostMap, was, now);
    var kept := set ip | ip in EmptyHosts(hostMap) && ip !in rest;
    forall ip
      ensures ip in EmptyHosts(hostMap) <==> ip in EmptyHosts(Occupied(freed, was)) || ip in kept
      ensures ip in EmptyHosts(moved) <==> ip in EmptyHosts(Occupied(freed, now)) || ip in kept
    {
      if ip in rest {
        OwnHostMoves(hostMap, others, freq, was, now, ip);
      } else if ip in hostMap {
        SharedHostStays(hostMap, others, freq, was, now, ip);
      }
    }
    hide Occupied, Freed, Unshared, AfterMove;
    assert EmptyHosts(hostMap) == EmptyHosts(Occupied(freed, was)) + kept;
    assert EmptyHosts(moved) == EmptyHosts(Occupied(freed, now)) + kept;
    KeptApart(hostMap, rest, freq, was, kept);
    KeptApart(hostMap, rest, freq, now, kept);
  }

  lemma KeptApart(hostMap: HostMap, rest: HostMap, freq: map<string, int>, p: Placement, kept: set<string>)
    requires forall ip :: ip in kept ==> ip !in rest
    ensures EmptyHosts(Occupied(Freed(rest, freq), p)) !! kept
  {
  }

  /** A host without other users: its used slots before and after, seen through the freed map or not. */
  lemma OwnHostMoves(hostMap: HostMap, others: seq<Placement>, freq: map<string, int>, was: Placement, now: Placement,
                     ip: string)
    requires AccountsWith(hostMap, others, was) && forall h :: At(freq, h) == multiset(was)[h]
    requires ip in Unshared(hostMap, others)
    ensures var freed := Freed(Unshared(hostMap, others), freq);
            && Occupied(freed, was)[ip].usedSlots == hostMap[ip].usedSlots
            && Occupied(freed, now)[ip].usedSlots == AfterMove(hostMap, was, now)[ip].usedSlots
  {
    assert At(freq, ip) == multiset(was)[ip];
    if multiset(was)[ip] > 0 { assert ip in was; }
  }

  /** A host with other users may lose messages of the app but never becomes empty by it. */
  lemma SharedHostStays(hostMap: HostMap, others: seq<Placement>, freq: map<string, int>, was: Placement,
                        now: Placement, ip: string)
    requires AccountsWith(hostMap, others, was) && FeasibleOn(Freed(Unshared(hostMap, others), freq), now)
    requires ip in hostMap && UsedByOthers(others, ip)
    ensures AfterMove(hostMap, was, now)[ip].usedSlots == 0 <==> hostMap[ip].usedSlots == 0
  {
    assert ip !in Freed(Unshared(hostMap, others), freq) && ip !in now;
    if multiset(was)[ip] > 0 { assert ip in was; }
  }

  // ---------- Forced ----------

  const MIGRATE_EVERY_N_CHECKS: nat := 10

  /** Position the search for the next host starts from: that of `current`, or the first. */
  function StartIndex(order: seq<string>, current: string): (k: nat)
    ensures order != [] ==> k < |order|
    ensures current in order ==> k < |order| && order[k] == current
  {
    if current !in order then 0
    else if order[0] == current then 0
    else 1 + StartIndex(order[1..], current)
  }

  /** The host `off` places after the start, cyclically. */
  function Cyclic(order: seq<string>, start: nat, off: nat): string
    requires order != []
  {
    order[(start + off) % |order|]
  }

  predicate Eligible(avail: map<string, int>, current: string, host: string) {
    host != current && At(avail, host) > 0
  }

  lemma WrapAround(n: nat, k: nat)
    requires k < n
    ensures k % n == k && (k + n) % n == k
  {
    assert (k + n) % n == k by { assert k + n == 1 * n + k; ModUnique(k + n, n, 1, k); }
    ModUnique(k, n, 0, k);
  }

  lemma ModUnique(x: nat, n: nat, q: nat, r: nat)
    requires n > 0 && x == q * n + r && r < n
    ensures x % n == r
  {
    var d := x / n - q;
    assert d * n == r - x % n;
    assert d >= 1 ==> d * n >= n;
    assert d <= -1 ==> d * n <= -1 * n;
  }

  /** The offsets 1 to n from any start reach every position. */
  lemma ReachesAll(order: seq<string>, start: nat, k: nat) returns (off: nat)
    requires start < |order| && k < |order|
    ensures 1 <= off <= |order| && Cyclic(order, start, off) == order[k]
  {
    off := if k > start then k - start else k + |order| - start;
    WrapAround(|order|, k);
  }

  /** The first host after `current`, cyclically, that has a free slot. */
  ghost predicate IsNext(order: seq<string>, avail: map<string, int>, current: string, host: string) {
    order != [] && exists off ::
      && 1 <= off <= |order| && host == Cyclic(order, StartIndex(order, current), off)
      && forall o :: 1 <= o < off ==> !Eligible(avail, current, Cyclic(order, StartIndex(order, current), o))
  }

  /** The next host with a free slot; `current` itself only if no other has one. None stands for the
      exception thrown when nothing is free. */
  method NextHostAfter(order: seq<string>, avail: map<string, int>, current: string) returns (host: Option<string>)
    ensures host.Some? ==> At(avail, host.value) > 0
    ensures host.Some? && host.value != current ==> host.value in order && IsNext(order, avail, current, host.value)
    ensures host == Some(current) || host.None? ==> forall h :: h in order && h != current ==> At(avail, h) <= 0
    ensures host.None? ==> At(avail, current) <= 0
  {
    var n, start := |order|, StartIndex(order, current);
    for off := 1 to n + 1
      invariant n > 0 ==> forall o :: 1 <= o < off ==> !Eligible(avail, current, Cyclic(order, start, o))
    {
      var cand := Cyclic(order, start, off);
      if cand != current && At(avail, cand) > 0 { return Some(cand); }
    }
    forall h | h in order && h != current ensures At(avail, h) <= 0 {
      var k :| 0 <= k < n && order[k] == h;
      var off := ReachesAll(order, start, k);
      assert !Eligible(avail, current, Cyclic(order, start, off));
    }
    if At(avail, current) > 0 { return Some(current); }
    host := None;
  }

  /** Position c is passed on the way round from a to b. */
  ghost predicate Passed(a: nat, b: nat, c: nat) { if a < b then a < c < b else c > a || c < b }

  lemma OffsetUnique(n: nat, a: nat, b: nat, off: nat)
    requires a < n && b < n && 1 <= off <= n && (a + off) % n == b
    ensures off == if a < b then b - a else b + n - a
  {
    if a + off < n { ModUnique(a + off, n, 0, a + off); } else { ModUnique(a + off, n, 1, a + off - n); }
  }

  /** The hosts passed on the way to the next one have no free slot. */
  lemma NextPassesFull(order: seq<string>, avail: map<string, int>, current: string, host: string,
                       a: nat, b: nat, c: nat)
    requires Distinct(order) && a < |order| && b < |order| && c < |order| && Passed(a, b, c)
    requires order[a] == current && order[b] == host && IsNext(order, avail, current, host)
    ensures At(avail, order[c]) <= 0
  {
    var n := |order|;
    var off :| 1 <= off <= n && host == Cyclic(order, StartIndex(order, current), off)
               && forall o :: 1 <= o < off ==> !Eligible(avail, current, Cyclic(order, StartIndex(order, current), o));
    assert StartIndex(order, current) == a;
    OffsetUnique(n, a, b, off);
    var o := if a < c then c - a else c + n - a;
    WrapAround(n, c);
    assert Cyclic(order, a, o) == order[c];
    assert !Eligible(avail, current, Cyclic(order, a, o));
  }

  /** Message j went to the next host round from its own: those passed were full by then. */
  ghost predicate WentToNext(order: seq<string>, caps: seq<nat>, was: Placement, p: Placement, j: nat)
    requires |order| == |caps| && j < |p| <= |was|
  {
    forall a: nat, b: nat, c: nat :: a < |order| && b < |order| && c < |order| && Passed(a, b, c)
                                     && order[a] == was[j] && order[b] == p[j] ==>
      multiset(p[..j])[order[c]] == caps[c]
  }

  /** Placing the first |p| messages of `was`: only on known hosts, none overfilled, each on the next host
      round with room, and one left in place only if every other host ends up full. */
  ghost predicate Rotated(order: seq<string>, caps: seq<nat>, was: Placement, p: Placement) {
    && |order| == |caps| && |p| <= |was|
    && Feasible(order, caps, p)
    && (forall j :: 0 <= j < |p| && p[j] == was[j] ==> AllFullBut(order, caps, p, was[j]))
    && forall j :: 0 <= j < |p| ==> WentToNext(order, caps, was, p, j)
  }

  lemma WentToNextSnoc(order: seq<string>, caps: seq<nat>, was: Placement, p: Placement, host: string,
                       avail: map<string, int>)
    requires |order| == |caps| && |p| < |was|
    requires forall j :: 0 <= j < |p| ==> WentToNext(order, caps, was, p, j)
    requires Tracks(order, caps, p, avail) && PassesFull(order, avail, was[|p|], host)
    requires forall k :: 0 <= k < |order| ==> multiset(p)[order[k]] <= caps[k]
    ensures forall j :: 0 <= j <= |p| ==> WentToNext(order, caps, was, p + [host], j)
  {
    var q := p + [host];
    forall j | 0 <= j <= |p| ensures WentToNext(order, caps, was, q, j) {
      assert q[..j] == p[..j];
      if j < |p| {
        assert WentToNext(order, caps, was, p, j);
      } else {
        assert q[..j] == p;
      }
    }
  }

  /** Every host passed on the way from `current` to `host` has no free slot. */
  ghost predicate PassesFull(order: seq<string>, avail: map<string, int>, current: string, host: string) {
    forall a: nat, b: nat, c: nat :: a < |order| && b < |order| && c < |order| && Passed(a, b, c)
                                     && order[a] == current && order[b] == host ==>
      At(avail, order[c]) <= 0
  }

  lemma NextPasses(order: seq<string>, avail: map<string, int>, current: string, host: string)
    requires Distinct(order)
    requires host != current ==> IsNext(order, avail, current, host)
    requires host == current ==> forall h :: h in order && h != host ==> At(avail, h) <= 0
    ensures PassesFull(order, avail, current, host)
  {
    forall a: nat, b: nat, c: nat | a < |order| && b < |order| && c < |order| && Passed(a, b, c)
                                    && order[a] == current && order[b] == host
      ensures At(avail, order[c]) <= 0
    {
      if host != current { NextPassesFull(order, avail, current, host, a, b, c); }
    }
  }

  ghost predicate AllFullBut(order: seq<string>, caps: seq<nat>, p: Placement, host: string)
    requires |order| == |caps|
  {
    forall k :: 0 <= k < |order| && order[k] != host ==> multiset(p)[order[k]] == caps[k]
  }

  ghost predicate Tracks(order: seq<string>, caps: seq<nat>, p: Placement, avail: map<string, int>) {
    && |order| == |caps| && (forall h :: h in avail <==> h in order)
    && forall k :: 0 <= k < |order| ==> At(avail, order[k]) + multiset(p)[order[k]] == caps[k]
  }

  lemma RotateStep(order: seq<string>, caps: seq<nat>, was: Placement, p: Placement, avail: map<string, int>,
                   host: string)
    requires Rotated(order, caps, was, p) && Tracks(order, caps, p, avail) && |p| < |was| && host in order
    requires At(avail, host) > 0 && PassesFull(order, avail, was[|p|], host)
    requires host == was[|p|] ==> forall h :: h in order && h != host ==> At(avail, h) <= 0
    ensures Rotated(order, caps, was, p + [host])
    ensures Tracks(order, caps, p + [host], avail[host := At(avail, host) - 1])
  {
    hide WentToNext, PassesFull;
    var q := p + [host];
    WentToNextSnoc(order, caps, was, p, host, avail);
    forall k | 0 <= k < |order|
      ensures multiset(q)[order[k]] == multiset(p)[order[k]] + if order[k] == host then 1 else 0
      ensures multiset(q)[order[k]] <= caps[k]
      ensures multiset(p)[order[k]] == caps[k] ==> order[k] != host
    {
      assert At(avail, order[k]) + multiset(p)[order[k]] == caps[k];
    }
    forall j | 0 <= j < |q| && q[j] == was[j] ensures AllFullBut(order, caps, q, was[j]) {
      if j < |p| {
        assert AllFullBut(order, caps, p, was[j]);
      } else {
        forall k | 0 <= k < |order| && order[k] != host ensures multiset(q)[order[k]] == caps[k] {
          assert order[k] in order && At(avail, order[k]) <= 0;
        }
      }
    }
  }

  /** While slots outnumber the messages placed, some host has one free. */
  lemma SomeFree(order: seq<string>, caps: seq<nat>, p: Placement, avail: map<string, int>) returns (k: nat)
    requires Tracks(order, caps, p, avail) && Distinct(order) && Feasible(order, caps, p) && |p| < Sum(caps)
    ensures k < |order| && At(avail, order[k]) > 0
  {
    HistogramTotals(order, p);
    if forall i :: 0 <= i < |order| ==> caps[i] <= Histogram(order, p)[i] {
      SumBelow(caps, Histogram(order, p));
    }
    k :| 0 <= k < |order| && caps[k] > Histogram(order, p)[k];
  }

  method StartTracking(sorted: seq<Host>) returns (avail: map<string, int>, order: seq<string>)
    requires Distinct(Ips(sorted))
    ensures order == Ips(sorted) && Tracks(order, Capacities(sorted), [], avail) == true
  {
    avail, order := map[], [];
    for i := 0 to |sorted|
      invariant order == Ips(sorted)[..i]
      invariant forall h :: h in avail <==> h in order
      invariant forall k :: 0 <= k < i ==> At(avail, Ips(sorted)[k]) == Available(sorted[k])
    {
      assert forall k :: 0 <= k < i ==> Ips(sorted)[k] != Ips(sorted)[i];
      avail := avail[sorted[i].ip := Available(sorted[i])];
      order := order + [sorted[i].ip];
    }
  }

  /** One turn of the rotation: some host always has room for the next message. */
  method NextForRotation(order: seq<string>, avail: map<string, int>, ghost caps: seq<nat>, was: Placement,
                         p: Placement)
    returns (host: string, avail': map<string, int>)
    requires Rotated(order, caps, was, p) == true && Tracks(order, caps, p, avail) == true && |p| < |was|
    requires Distinct(order) && |was| <= Sum(caps) && forall h :: h in was ==> h in order
    ensures Rotated(order, caps, was, p + [host]) == true && Tracks(order, caps, p + [host], avail') == true
    ensures host != was[|p|] ==> IsNext(order, avail, was[|p|], host)
  {
    var next := NextHostAfter(order, avail, was[|p|]);
    ghost var k := SomeFree(order, caps, p, avail);
    assert order[k] in order && was[|p|] in order;
    host := next.value;
    NextPasses(order, avail, was[|p|], host);
    RotateStep(order, caps, was, p, avail, host);
    avail' := avail[host := At(avail, host) - 1];
  }

  /** Moves each message to the next host with room. When the old placement fits, it never throws. */
  method RotatePlacement(oldDecision: SchedulingDecision, sorted: seq<Host>) returns (d: SchedulingDecision)
    requires oldDecision.Complete() && Distinct(Ips(sorted))
    requires Feasible(Ips(sorted), Capacities(sorted), oldDecision.hosts)
    ensures fresh(d) && d.Complete() && d.appId == oldDecision.appId && d.groupId == oldDecision.groupId
    ensures |d.hosts| == |oldDecision.hosts|
            && Rotated(Ips(sorted), Capacities(sorted), oldDecision.hosts, d.hosts) == true
    ensures forall i :: 0 <= i < |d.hosts| ==>
              d.Rows()[i] == oldDecision.Rows()[i].(host := d.hosts[i], mpiPort := -1)
  {
    hide Rotated, Tracks;
    ghost var caps := Capacities(sorted);
    var was := oldDecision.hosts;
    var oldRows := Zip(was, oldDecision.messageIds, oldDecision.appIdxs, oldDecision.groupIdxs, oldDecision.mpiPorts);
    FeasibleNeedsSlots(Ips(sorted), caps, was);
    d := new SchedulingDecision(oldDecision.appId, oldDecision.groupId);
    var avail, order := StartTracking(sorted);
    NothingRotated(order, caps, was);
    for i := 0 to |was|
      invariant fresh(d) && d.Complete() && |d.hosts| == i && d.appId == oldDecision.appId
                && d.groupId == oldDecision.groupId
      invariant Rotated(order, caps, was, d.hosts) == true && Tracks(order, caps, d.hosts, avail) == true
      invariant forall j :: 0 <= j < i ==> d.Rows()[j] == oldRows[j].(host := d.hosts[j], mpiPort := -1)
    {
      var host;
      host, avail := NextForRotation(order, avail, caps, was, d.hosts);
      PlaceNext(d, oldRows[i].(host := host, mpiPort := -1));
    }
  }

  lemma NothingRotated(order: seq<string>, caps: seq<nat>, was: Placement)
    requires |order| == |caps|
    ensures Rotated(order, caps, was, []) == true
  {
  }

  /** Adding in the position after the last row appends. */
  method PlaceNext(d: SchedulingDecision, row: Row)
    requires d.Complete()
    modifies d
    ensures d.Complete() && d.appId == old(d.appId) && d.groupId == old(d.groupId)
    ensures d.Rows() == old(d.Rows()) + [row] && d.hosts == old(d.hosts) + [row.host]
  {
    d.AddMessageInPosition(|d.hosts|, row);
    assert d.Rows() == old(d.Rows()) + [row];
    assert forall i :: 0 <= i < |d.hosts| ==> d.hosts[i] == d.Rows()[i].host;
    assert forall i :: 0 <= i < |old(d.hosts)| ==> old(d.hosts)[i] == old(d.Rows())[i].host;
  }

  predicate DecisionsDiffer(a: Placement, b: Placement) { a != b }

  /** A message that keeps its host does so because p fills every other one. */
  predicate StaysOnlyIfFull(hostMap: HostMap, was: Placement, p: Placement)
    requires |p| == |was|
  {
    forall i, h :: 0 <= i < |p| && p[i] == was[i] && h in hostMap && h != p[i] ==>
      multiset(p)[h] == Available(hostMap[h])
  }

  /** On the way round from one host to another, roomiest first, h is passed. */
  predicate OnTheWay(hostMap: HostMap, from: string, to: string, h: string)
    requires from in hostMap && to in hostMap && h in hostMap
  {
    if Roomier(hostMap[from], hostMap[to]) then Roomier(hostMap[from], hostMap[h]) && Roomier(hostMap[h], hostMap[to])
    else Roomier(hostMap[from], hostMap[h]) || Roomier(hostMap[h], hostMap[to])
  }

  /** Each message goes to the next host round from its own: those passed are filled by the messages before it. */
  predicate RotatesInTurn(hostMap: HostMap, was: Placement, p: Placement)
    requires |p| == |was|
  {
    forall j, h :: 0 <= j < |p| && was[j] in hostMap && p[j] in hostMap && h in hostMap
                   && OnTheWay(hostMap, was[j], p[j], h) ==>
      Full(hostMap, p[..j], h)
  }

  lemma ListedByRoom(sorted: seq<Host>, freed: HostMap, freq: map<string, int>, a: nat, b: nat)
    requires Lists(sorted, freed) && Sorted(Larger, freq, sorted) && a < |sorted| && b < |sorted|
    ensures Roomier(sorted[a], sorted[b]) <==> a < b
  {
    LessTotal(sorted[a].ip, sorted[b].ip);
    BeforeAsymmetric(Larger, freq, sorted[a], sorted[b]);
    if a < b {
      assert !Before(Larger, freq, sorted[b], sorted[a]);
      assert Ips(sorted)[a] != Ips(sorted)[b];
    } else if b < a {
      assert !Before(Larger, freq, sorted[a], sorted[b]);
    }
  }

  lemma RotationInTurn(sorted: seq<Host>, freed: HostMap, freq: map<string, int>, was: Placement, p: Placement)
    requires Lists(sorted, freed) && Sorted(Larger, freq, sorted) && |p| == |was|
    requires Rotated(Ips(sorted), Capacities(sorted), was, p)
    ensures RotatesInTurn(freed, was, p)
  {
    forall j, h | 0 <= j < |p| && was[j] in freed && p[j] in freed && h in freed && OnTheWay(freed, was[j], p[j], h)
      ensures Full(freed, p[..j], h)
    {
      var a :| 0 <= a < |sorted| && Ips(sorted)[a] == was[j];
      var b :| 0 <= b < |sorted| && Ips(sorted)[b] == p[j];
      var c :| 0 <= c < |sorted| && Ips(sorted)[c] == h;
      ListedByRoom(sorted, freed, freq, a, b);
      ListedByRoom(sorted, freed, freq, a, c);
      ListedByRoom(sorted, freed, freq, c, b);
      assert Passed(a, b, c) && WentToNext(Ips(sorted), Capacities(sorted), was, p, j);
    }
  }

  class ForcedMigrationScheduler {
    var distChangeCounter: nat

    constructor ()
      ensures distChangeCounter == 0
    {
      distChangeCounter := 0;
    }

    /** Forced DIST_CHANGE: every tenth check moves the app, unless no message can leave its host. The
        rotation respects the capacity left once the app's own slots are freed, and a message stays where it
        is only if every other host is full. */
    method ForcedMigration(hostMap: HostMap, oldDecision: SchedulingDecision)
      returns (r: Outcome, freed: HostMap, ghost freq: map<string, int>)
      requires Named(hostMap) && oldDecision.Complete() && Accounts(hostMap, oldDecision.hosts)
      modifies this
      ensures distChangeCounter == old(distChangeCounter) + 1
      ensures forall h :: At(freq, h) == multiset(oldDecision.hosts)[h]
      ensures freed == Freed(hostMap, freq)
      ensures r.DoNotMigrate? || (r.Scheduled? && fresh(r.decision))
      ensures distChangeCounter % MIGRATE_EVERY_N_CHECKS != 0 ==> r.DoNotMigrate?
      ensures distChangeCounter % MIGRATE_EVERY_N_CHECKS == 0 && r.DoNotMigrate? ==>
                StaysOnlyIfFull(freed, oldDecision.hosts, oldDecision.hosts)
      ensures distChangeCounter % MIGRATE_EVERY_N_CHECKS == 0 && r.DoNotMigrate? ==>
                RotatesInTurn(freed, oldDecision.hosts, oldDecision.hosts)
      ensures r.Scheduled? ==>
                && r.decision.Complete() && |r.decision.hosts| == |oldDecision.hosts|
                && RotatesInTurn(freed, oldDecision.hosts, r.decision.hosts)
                && FeasibleOn(freed, r.decision.hosts) && r.decision.hosts != oldDecision.hosts
                && StaysOnlyIfFull(freed, oldDecision.hosts, r.decision.hosts)
    {
      var freqCount := GetHostFreqCount(oldDecision.hosts);
      freq := freqCount;
      var sorted;
      sorted, freed := GetSortedHosts(hostMap, freqCount, true, Larger);
      distChangeCounter := distChangeCounter + 1;
      if distChangeCounter % MIGRATE_EVERY_N_CHECKS != 0 { return DoNotMigrate, freed, freq; }
      OldPlacementFits(hostMap, freqCount, oldDecision.hosts);
      FeasibleOnListing(sorted, freed, oldDecision.hosts);
      var d := RotatePlacement(oldDecision, sorted);
      RotationOnMap(sorted, freed, oldDecision.hosts, d.hosts);
      RotationInTurn(sorted, freed, freqCount, oldDecision.hosts, d.hosts);
      if !DecisionsDiffer(d.hosts, oldDecision.hosts) { return DoNotMigrate, freed, freq; }
      r := Scheduled(d);
    }
  }

  lemma RotationOnMap(sorted: seq<Host>, freed: HostMap, was: Placement, p: Placement)
    requires Lists(sorted, freed) && Rotated(Ips(sorted), Capacities(sorted), was, p)
    ensures FeasibleOn(freed, p)
    ensures |p| == |was| ==> StaysOnlyIfFull(freed, was, p)
  {
    FeasibleOnListing(sorted, freed, p);
    forall i, h | 0 <= i < |p| && p[i] == was[i] && h in freed && h != p[i]
      ensures multiset(p)[h] == Available(freed[h])
    {
      assert AllFullBut(Ips(sorted), Capacities(sorted), p, was[i]);
      var k :| 0 <= k < |sorted| && Ips(sorted)[k] == h;
      assert freed[sorted[k].ip] == sorted[k];
    }
  }
}
