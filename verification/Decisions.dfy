/** Hosts, requests and scheduling decisions shared by all the batch schedulers. */
module Decisions {
  import opened Placement

  // ---------- ordering of host names ----------

  /** Lexicographic order on strings, as std::string compares them. */
  predicate Less(a: string, b: string) {
    if b == [] then false
    else if a == [] then true
    else a[0] < b[0] || (a[0] == b[0] && Less(a[1..], b[1..]))
  }

  predicate FirstDifference(a: string, b: string, k: nat) {
    k < |a| && k < |b| && a[..k] == b[..k] && a[k] < b[k]
  }

  /** a comes first if it is a proper prefix of b, or has the smaller character where they first differ. */
  lemma {:induction false} LessMeans(a: string, b: string)
    ensures Less(a, b) <==> a < b || exists k :: FirstDifference(a, b, k)
  {
    forall k: nat | FirstDifference(a, b, k) ensures a != [] && b != [] && a[0] <= b[0] {
      assert k == 0 || a[..k][0] == b[..k][0];
    }
    if a != [] && b != [] && a[0] == b[0] {
      LessMeans(a[1..], b[1..]);
      assert a == [a[0]] + a[1..] && b == [b[0]] + b[1..];
      if k: nat :| FirstDifference(a[1..], b[1..], k) {
        assert a[..k + 1] == [a[0]] + a[1..][..k] && b[..k + 1] == [b[0]] + b[1..][..k];
        assert FirstDifference(a, b, k + 1);
      }
      if k: nat :| FirstDifference(a, b, k) {
        assert a[1..][..k - 1] == a[..k][1..] && b[1..][..k - 1] == b[..k][1..];
        assert FirstDifference(a[1..], b[1..], k - 1);
      }
    } else if a != [] && b != [] && a[0] < b[0] {
      assert FirstDifference(a, b, 0);
    }
  }

  lemma {:induction false} LessTotal(a: string, b: string)
    ensures !(Less(a, b) && Less(b, a))
    ensures a == b <==> !Less(a, b) && !Less(b, a)
  {
    if a != [] && b != [] {
      LessTotal(a[1..], b[1..]);
      assert a == [a[0]] + a[1..] && b == [b[0]] + b[1..];
    }
  }

  lemma {:induction false} LessTransitive(a: string, b: string, c: string)
    requires Less(a, b) && Less(b, c)
    ensures Less(a, c)
  {
    if a != [] && a[0] == b[0] == c[0] { LessTransitive(a[1..], b[1..], c[1..]); }
  }

  // ---------- hosts ----------

  datatype Host = Host(ip: string, slots: int, usedSlots: int)

  type HostMap = map<string, Host>

  function Max(a: int, b: int): int { if a < b then b else a }

  function Available(h: Host): (n: nat)
    ensures h.usedSlots + n == Max(h.slots, h.usedSlots)
  {
    Max(0, h.slots - h.usedSlots)
  }

  function FreeSlots(h: Host, n: int): (r: Host)
    ensures r.ip == h.ip && r.slots == h.slots && h.usedSlots - n <= r.usedSlots
    ensures r.usedSlots >= 0 && (r.usedSlots > 0 ==> r.usedSlots + n == h.usedSlots)
  {
    h.(usedSlots := Max(0, h.usedSlots - n))
  }

  // ---------- messages and decisions ----------

  datatype Message = Message(id: int, appIdx: int, groupIdx: int)

  /** One row across the five vectors of a scheduling decision. */
  datatype Row = Row(host: string, messageId: int, appIdx: int, groupIdx: int, mpiPort: int)

  const EMPTY_ROW := Row("", 0, 0, 0, 0)

  function Hosts(rows: seq<Row>): (p: Placement)
    ensures |p| == |rows| && forall i :: 0 <= i < |rows| ==> p[i] == rows[i].host
  {
    seq(|rows|, i requires 0 <= i < |rows| => rows[i].host)
  }

  function Pad<T>(s: seq<T>, size: nat, filler: T): (r: seq<T>)
    ensures |r| == Max(size, |s|)
    ensures forall i :: 0 <= i < |r| ==> r[i] == if i < |s| then s[i] else filler
  {
    s + seq(Max(size, |s|) - |s|, i => filler)
  }

  /** Reads five parallel vectors row by row. */
  function Zip(hosts: seq<string>, ids: seq<int>, apps: seq<int>, groups: seq<int>, ports: seq<int>): (r: seq<Row>)
    requires |hosts| == |ids| == |apps| == |groups| == |ports|
    ensures |r| == |hosts|
    ensures forall i :: 0 <= i < |r| ==> r[i] == Row(hosts[i], ids[i], apps[i], groups[i], ports[i])
  {
    seq(|hosts|, i requires 0 <= i < |hosts| => Row(hosts[i], ids[i], apps[i], groups[i], ports[i]))
  }

  class SchedulingDecision {
    var appId: int
    var groupId: int
    var nFunctions: nat
    var hosts: seq<string>
    var messageIds: seq<int>
    var appIdxs: seq<int>
    var groupIdxs: seq<int>
    var mpiPorts: seq<int>

    /** The five vectors have one length. */
    ghost predicate Aligned()
      reads this
    {
      |hosts| == |messageIds| == |appIdxs| == |groupIdxs| == |mpiPorts|
    }

    ghost function Rows(): seq<Row>
      requires Aligned()
      reads this
    {
      Zip(hosts, messageIds, appIdxs, groupIdxs, mpiPorts)
    }

    /** Every function counted, every row filled. */
    ghost predicate Complete()
      reads this
    {
      Aligned() && nFunctions == |hosts|
    }

    constructor (appId: int, groupId: int)
      ensures Complete() && Rows() == []
      ensures this.appId == appId && this.groupId == groupId
    {
      this.appId, this.groupId, nFunctions := appId, groupId, 0;
      hosts, messageIds, appIdxs, groupIdxs, mpiPorts := [], [], [], [], [];
    }

    method AddMessage(host: string, msg: Message)
      requires Aligned()
      modifies this
      ensures Aligned() && nFunctions == old(nFunctions) + 1
      ensures appId == old(appId) && groupId == old(groupId)
      ensures hosts == old(hosts) + [host]
      ensures Rows() == old(Rows()) + [Row(host, msg.id, msg.appIdx, msg.groupIdx, 0)]
    {
      nFunctions := nFunctions + 1;
      hosts := hosts + [host];
      messageIds := messageIds + [msg.id];
      appIdxs := appIdxs + [msg.appIdx];
      groupIdxs := groupIdxs + [msg.groupIdx];
      mpiPorts := mpiPorts + [0];
    }

    method AddMessageInPosition(pos: nat, row: Row)
      requires Aligned()
      modifies this
      ensures Aligned() && nFunctions == old(nFunctions) + 1
      ensures appId == old(appId) && groupId == old(groupId)
      ensures Rows() == Pad(old(Rows()), Max(pos + 1, nFunctions), EMPTY_ROW)[pos := row]
    {
      nFunctions := nFunctions + 1;
      var desiredSize := Max(pos + 1, nFunctions);
      if desiredSize > |hosts| {
        hosts := Pad(hosts, desiredSize, "");
        messageIds := Pad(messageIds, desiredSize, 0);
        appIdxs := Pad(appIdxs, desiredSize, 0);
        groupIdxs := Pad(groupIdxs, desiredSize, 0);
        mpiPorts := Pad(mpiPorts, desiredSize, 0);
      }
      hosts := hosts[pos := row.host];
      messageIds := messageIds[pos := row.messageId];
      appIdxs := appIdxs[pos := row.appIdx];
      groupIdxs := groupIdxs[pos := row.groupIdx];
      mpiPorts := mpiPorts[pos := row.mpiPort];
    }
  }

  /** The verdict of a scheduler: the three sentinel decisions or a real one. */
  datatype Outcome = NotEnoughSlots | DoNotMigrate | MustFreeze | Scheduled(decision: SchedulingDecision)

  datatype DecisionType = New | DistChange | ScaleChange

  function GetDecisionType(inFlight: set<int>, appId: int, isMigration: bool): DecisionType {
    if appId !in inFlight then New else if isMigration then DistChange else ScaleChange
  }

  // ---------- histograms ----------

  /** What a missing key of a std::map<string, int> stands for. */
  function At(freq: map<string, int>, h: string): int { if h in freq then freq[h] else 0 }

  method GetHostFreqCount(hosts: seq<string>) returns (freq: map<string, int>)
    ensures freq.Keys == HostSet(hosts)
    ensures forall h :: At(freq, h) == multiset(hosts)[h]
  {
    freq := map[];
    for i := 0 to |hosts|
      invariant freq.Keys == HostSet(hosts[..i])
      invariant forall h :: At(freq, h) == multiset(hosts[..i])[h]
    {
      assert hosts[..i + 1] == hosts[..i] + [hosts[i]];
      freq := freq[hosts[i] := At(freq, hosts[i]) + 1];
    }
    assert hosts[..|hosts|] == hosts;
  }

  /** The first host, in the map's order, that still has messages to take. */
  method NextHostWithSlots(freq: map<string, int>) returns (host: string)
    requires exists h :: h in freq && freq[h] > 0
    ensures host in freq && freq[host] > 0
    ensures forall h :: h in freq && freq[h] > 0 ==> !Less(h, host)
  {
    host :| host in freq && freq[host] > 0;
    var rest := freq.Keys;
    while rest != {}
      invariant host in freq && freq[host] > 0
      invariant forall h :: h in freq && h !in rest && freq[h] > 0 ==> !Less(h, host)
      decreases rest
    {
      var k :| k in rest;
      if freq[k] > 0 && Less(k, host) {
        forall h | h in freq && h !in rest && freq[h] > 0 ensures !Less(h, k) {
          if Less(h, k) { LessTransitive(h, k, host); }
        }
        host := k;
      }
      LessTotal(k, k);
      rest := rest - {k};
    }
  }
}
