/** The orders in which the schedulers visit hosts, and the sort that produces them. */
module HostOrder {
  import opened Placement
  import opened Decisions

  datatype Order = Larger | LargerWithFreq | LargerWithFreqTaint | Fuller

  /** Sorts by available slots, then by size, then by name, always descending. */
  predicate IsFirstHostLarger(a: Host, b: Host) {
    if Available(a) != Available(b) then Available(a) > Available(b)
    else if a.slots != b.slots then a.slots > b.slots
    else Less(b.ip, a.ip)
  }

  /** The comparators of getSortedHosts; `freq` is the app's own histogram. */
  predicate Before(order: Order, freq: map<string, int>, a: Host, b: Host) {
    match order
    case Larger => IsFirstHostLarger(a, b)
    case LargerWithFreq =>
      if At(freq, a.ip) != At(freq, b.ip) then At(freq, a.ip) > At(freq, b.ip)
      else IsFirstHostLarger(a, b)
    case LargerWithFreqTaint =>
      if Available(a) != Available(b) then Available(a) > Available(b)
      else if At(freq, a.ip) != At(freq, b.ip) then At(freq, a.ip) > At(freq, b.ip)
      else IsFirstHostLarger(a, b)
    case Fuller =>
      if a.usedSlots != b.usedSlots then a.usedSlots > b.usedSlots
      else IsFirstHostLarger(a, b)
  }

  lemma BeforeAsymmetric(order: Order, freq: map<string, int>, a: Host, b: Host)
    ensures !(Before(order, freq, a, b) && Before(order, freq, b, a))
  {
    LessTotal(a.ip, b.ip);
  }

  /** "Not after" is transitive, so the comparator is a strict weak order. */
  lemma NotAfterTransitive(order: Order, freq: map<string, int>, a: Host, b: Host, c: Host)
    requires !Before(order, freq, b, a) && !Before(order, freq, c, b)
    ensures !Before(order, freq, c, a)
  {
    LessTotal(a.ip, b.ip);
    LessTotal(b.ip, c.ip);
    LessTotal(a.ip, c.ip);
    if Less(b.ip, a.ip) && Less(c.ip, b.ip) { LessTransitive(c.ip, b.ip, a.ip); }
  }

  /** Ties are broken by name, so only a host ties with itself. */
  lemma TiesHaveOneName(order: Order, freq: map<string, int>, a: Host, b: Host)
    requires !Before(order, freq, a, b) && !Before(order, freq, b, a)
    ensures a.ip == b.ip
  {
    LessTotal(a.ip, b.ip);
  }

  predicate Sorted(order: Order, freq: map<string, int>, s: seq<Host>) {
    forall i, j :: 0 <= i < j < |s| ==> !Before(order, freq, s[j], s[i])
  }

  function Ips(s: seq<Host>): (r: seq<string>)
    ensures |r| == |s| && forall i :: 0 <= i < |s| ==> r[i] == s[i].ip
  {
    seq(|s|, i requires 0 <= i < |s| => s[i].ip)
  }

  function Capacities(s: seq<Host>): (r: seq<nat>)
    ensures |r| == |s| && forall i :: 0 <= i < |s| ==> r[i] == Available(s[i])
  {
    seq(|s|, i requires 0 <= i < |s| => Available(s[i]))
  }

  lemma InsertKeepsOrder(s: seq<Host>, k: nat, h: Host, order: Order, freq: map<string, int>)
    requires Sorted(order, freq, s) && k <= |s|
    requires k > 0 ==> !Before(order, freq, h, s[k - 1])
    requires forall j :: k <= j < |s| ==> !Before(order, freq, s[j], h)
    ensures Sorted(order, freq, s[..k] + [h] + s[k..])
  {
    forall i | 0 <= i < k ensures !Before(order, freq, h, s[i]) {
      if i < k - 1 { NotAfterTransitive(order, freq, s[i], s[k - 1], h); }
    }
  }

  lemma InsertKeepsNames(s: seq<Host>, k: nat, h: Host)
    requires Distinct(Ips(s)) && k <= |s| && h.ip !in Ips(s)
    ensures var r := s[..k] + [h] + s[k..];
            Distinct(Ips(r)) && (forall x :: x in r <==> x == h || x in s)
  {
    var r := s[..k] + [h] + s[k..];
    forall i, j | 0 <= i < j < |r| ensures Ips(r)[i] != Ips(r)[j] {
      assert i < k ==> Ips(r)[i] == Ips(s)[i];
      assert i > k ==> Ips(r)[i] == Ips(s)[i - 1];
      assert j < k ==> Ips(r)[j] == Ips(s)[j];
      assert j > k ==> Ips(r)[j] == Ips(s)[j - 1];
    }
    assert s == s[..k] + s[k..];
  }

  method InsertHost(s: seq<Host>, h: Host, order: Order, freq: map<string, int>) returns (r: seq<Host>)
    requires Sorted(order, freq, s) && Distinct(Ips(s)) && h.ip !in Ips(s)
    ensures Sorted(order, freq, r) && Distinct(Ips(r))
    ensures forall x :: x in r <==> x == h || x in s
  {
    var k := |s|;
    while k > 0 && Before(order, freq, h, s[k - 1])
      invariant 0 <= k <= |s|
      invariant forall j :: k <= j < |s| ==> !Before(order, freq, s[j], h)
    {
      k := k - 1;
      BeforeAsymmetric(order, freq, h, s[k]);
    }
    r := s[..k] + [h] + s[k..];
    InsertKeepsOrder(s, k, h, order, freq);
    InsertKeepsNames(s, k, h);
  }

  /** std::sort with one of the comparators above. */
  method SortHosts(hosts: seq<Host>, order: Order, freq: map<string, int>) returns (s: seq<Host>)
    requires Distinct(Ips(hosts))
    ensures Sorted(order, freq, s) && Distinct(Ips(s))
    ensures forall x :: x in s <==> x in hosts
  {
    s := [];
    for i := 0 to |hosts|
      invariant Sorted(order, freq, s) && Distinct(Ips(s))
      invariant forall x :: x in s <==> x in hosts[..i]
    {
      assert hosts[..i + 1] == hosts[..i] + [hosts[i]];
      forall k | 0 <= k < |s| ensures s[k].ip != hosts[i].ip {
        assert s[k] in hosts[..i];
        var m :| 0 <= m < i && hosts[m] == s[k];
        assert Ips(hosts)[m] != Ips(hosts)[i];
      }
      s := InsertHost(s, hosts[i], order, freq);
    }
  }

  /** Every host is filed under its own name. */
  predicate Named(hostMap: HostMap) {
    forall ip :: ip in hostMap ==> hostMap[ip].ip == ip
  }

  /** s lists every host of the map exactly once. */
  predicate Lists(s: seq<Host>, hostMap: HostMap) {
    && Distinct(Ips(s))
    && (forall i :: 0 <= i < |s| ==> s[i].ip in hostMap && hostMap[s[i].ip] == s[i])
    && forall ip :: ip in hostMap ==> ip in Ips(s)
  }

  /** Sorting a listing of the map leaves a listing of the map. */
  lemma SortKeepsListing(s: seq<Host>, t: seq<Host>, hostMap: HostMap)
    requires Lists(s, hostMap) && Distinct(Ips(t)) && forall x :: x in t <==> x in s
    ensures Lists(t, hostMap)
  {
    forall i | 0 <= i < |t| ensures t[i].ip in hostMap && hostMap[t[i].ip] == t[i] {
      assert t[i] in s;
    }
    forall ip | ip in hostMap ensures ip in Ips(t) {
      var k :| 0 <= k < |s| && Ips(s)[k] == ip;
      assert s[k] in t;
      var m :| 0 <= m < |t| && t[m] == s[k];
      assert Ips(t)[m] == ip;
    }
  }

  method ListHosts(hostMap: HostMap) returns (s: seq<Host>)
    requires Named(hostMap)
    ensures Lists(s, hostMap)
  {
    s := [];
    var rest := hostMap.Keys;
    while rest != {}
      invariant rest <= hostMap.Keys && Distinct(Ips(s))
      invariant forall i :: 0 <= i < |s| ==> s[i].ip in hostMap && s[i].ip !in rest && hostMap[s[i].ip] == s[i]
      invariant forall ip :: ip in hostMap && ip !in rest ==> ip in Ips(s)
      decreases rest
    {
      var ip :| ip in rest;
      ghost var before := s;
      s := s + [hostMap[ip]];
      assert Ips(s) == Ips(before) + [ip];
      rest := rest - {ip};
    }
  }
}
