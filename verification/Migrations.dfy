/** Turning a better histogram into the decision that moves the fewest messages. */
module Migrations {
  import opened Placement
  import opened Decisions

  // ---------- multisets ----------

  lemma SubsetSize<T>(a: multiset<T>, b: multiset<T>)
    requires a <= b
    ensures |a| <= |b| && (|a| == |b| ==> a == b)
  {
    assert b == a + (b - a);
  }

  /** The hosts already given out; an empty name marks a row that is still free. */
  function Assigned(p: Placement): multiset<string> { multiset(p)["" := 0] }

  lemma {:induction false} PadAssigned(p: Placement, n: nat)
    ensures Assigned(p + Repeat("", n)) == Assigned(p)
  {
    forall h ensures Assigned(p + Repeat("", n))[h] == Assigned(p)[h] { RepeatCount("", n, h); }
  }

  lemma AssignStep(rows: seq<Row>, size: nat, pos: nat, row: Row)
    requires row.host != "" && pos < size && (pos < |rows| ==> rows[pos].host == "")
    ensures Assigned(Hosts(Pad(rows, size, EMPTY_ROW)[pos := row]))
            == Assigned(Hosts(rows)) + multiset{row.host}
  {
    var padded := Pad(rows, size, EMPTY_ROW);
    assert Hosts(padded) == Hosts(rows) + Repeat("", |padded| - |rows|);
    PadAssigned(Hosts(rows), |padded| - |rows|);
    assert Hosts(padded[pos := row]) == Hosts(padded)[pos := row.host];
  }

  /** A filled prefix of length m accounts for at least m given-out hosts. */
  lemma FilledPrefix(p: Placement, m: nat)
    requires m <= |p| && forall i :: 0 <= i < m ==> Filled(p, i)
    ensures |Assigned(p)| >= m
    ensures m == |p| ==> Assigned(p) == multiset(p)
  {
    assert p == p[..m] + p[m..];
    forall x | x in p[..m] ensures x != "" {
      var i :| 0 <= i < m && p[i] == x;
      assert Filled(p, i);
    }
    assert "" !in p[..m];
    SubsetSize(multiset(p[..m]), Assigned(p));
  }

  // ---------- keeping messages in place ----------

  /** How many messages stay where they were. */
  function Kept(p: Placement, old_: Placement): nat
    requires |p| == |old_|
  {
    if p == [] then 0
    else Kept(p[..|p| - 1], old_[..|p| - 1]) + if p[|p| - 1] == old_[|p| - 1] then 1 else 0
  }

  /** No placement with a given histogram keeps more messages than the two histograms share. */
  lemma {:induction false} KeptBound(p: Placement, old_: Placement)
    requires |p| == |old_|
    ensures Kept(p, old_) <= |multiset(old_) * multiset(p)|
  {
    if p != [] {
      var n := |p| - 1;
      assert p == p[..n] + [p[n]] && old_ == old_[..n] + [old_[n]];
      KeptBound(p[..n], old_[..n]);
      var shared := multiset(old_[..n]) * multiset(p[..n]);
      if p[n] == old_[n] {
        assert multiset(old_) * multiset(p) == shared + multiset{p[n]};
      } else {
        SubsetSize(shared, multiset(old_) * multiset(p));
      }
    }
  }

  predicate Filled(p: Placement, i: int) { 0 <= i < |p| && p[i] != "" }

  lemma {:induction false} KeptCount(p: Placement, old_: Placement, first: Placement)
    requires |first| <= |p| == |old_|
    requires forall i :: 0 <= i < |p| ==> (Filled(first, i) <==> p[i] == old_[i])
    ensures Kept(p, old_) == |Assigned(first)|
  {
    if p != [] {
      var n := |p| - 1;
      if |first| == |p| {
        assert first == first[..n] + [first[n]];
        forall i | 0 <= i < n ensures Filled(first[..n], i) <==> Filled(first, i) {}
        KeptCount(p[..n], old_[..n], first[..n]);
      } else {
        KeptCount(p[..n], old_[..n], first);
        assert !Filled(first, n);
      }
    }
  }

  /** Extending the old placement by a host of which the new histogram still has one. */
  lemma SharedStep(before: Placement, h: string, target: multiset<string>)
    ensures multiset(before + [h]) * target ==
            multiset(before) * target +
            if multiset(before)[h] < target[h] then multiset{h} else multiset{}
  {
  }

  // ---------- minimiseNumOfMigrations ----------

  /** What is left of the target histogram once the hosts in `given` are handed out. */
  ghost predicate Remaining(freq: map<string, int>, target: multiset<string>, given: multiset<string>) {
    && given <= target
    && forall h :: At(freq, h) == target[h] - given[h]
  }

  lemma TakeOne(freq: map<string, int>, target: multiset<string>, given: multiset<string>, host: string)
    requires Remaining(freq, target, given) && At(freq, host) > 0
    ensures host in freq && Remaining(freq[host := freq[host] - 1], target, given + multiset{host})
  {
    var freq' := freq[host := freq[host] - 1];
    forall h ensures At(freq', h) == target[h] - (given + multiset{host})[h] {
      assert At(freq, h) == target[h] - given[h];
    }
  }

  /** Rows after the first i messages of the first pass. */
  ghost predicate KeptRows(rows: seq<Row>, freq: map<string, int>, oldRows: seq<Row>, i: nat)
    requires i <= |oldRows|
  {
    && |rows| <= i
    && (forall j :: 0 <= j < |rows| ==> rows[j] == EMPTY_ROW || rows[j] == oldRows[j])
    && (forall j :: 0 <= j < i && !Filled(Hosts(rows), j) ==> At(freq, oldRows[j].host) == 0)
  }

  lemma KeepRow(rows: seq<Row>, n: nat, freq: map<string, int>, freq': map<string, int>, oldRows: seq<Row>, i: nat)
    requires i < |oldRows| && n <= i && KeptRows(rows, freq, oldRows, i)
    requires oldRows[i].host != ""
    requires forall h :: At(freq, h) == 0 ==> At(freq', h) == 0
    ensures KeptRows(Pad(rows, Max(i + 1, n + 1), EMPTY_ROW)[i := oldRows[i]], freq', oldRows, i + 1)
  {
    var rows' := Pad(rows, Max(i + 1, n + 1), EMPTY_ROW)[i := oldRows[i]];
    forall j | 0 <= j < i + 1 && !Filled(Hosts(rows'), j) ensures At(freq', oldRows[j].host) == 0 {
      assert !Filled(Hosts(rows), j);
    }
  }

  lemma SkipRow(rows: seq<Row>, freq: map<string, int>, oldRows: seq<Row>, i: nat)
    requires i < |oldRows| && KeptRows(rows, freq, oldRows, i) && At(freq, oldRows[i].host) == 0
    ensures KeptRows(rows, freq, oldRows, i + 1)
  {
  }

  /** The hosts handed out after the first i messages of the first pass. */
  ghost predicate KeptHosts(given: multiset<string>, n: nat, freq: map<string, int>, oldHosts: Placement,
                            target: multiset<string>)
  {
    && given == multiset(oldHosts) * target
    && n == |given|
    && Remaining(freq, target, given)
  }

  lemma KeepHost(given: multiset<string>, n: nat, freq: map<string, int>, oldHosts: Placement,
                 target: multiset<string>, host: string)
    requires KeptHosts(given, n, freq, oldHosts, target)
    ensures if At(freq, host) > 0 then
              host in freq &&
              KeptHosts(given + multiset{host}, n + 1, freq[host := freq[host] - 1], oldHosts + [host], target)
            else
              At(freq, host) == 0 && KeptHosts(given, n, freq, oldHosts + [host], target)
  {
    SharedStep(oldHosts, host, target);
    assert At(freq, host) == target[host] - given[host];
    if At(freq, host) > 0 { TakeOne(freq, target, given, host); }
  }

  /** State of the first pass after i messages. */
  ghost predicate FirstPass(rows: seq<Row>, n: nat, freq: map<string, int>, oldRows: seq<Row>, i: nat,
                            target: multiset<string>)
    requires i <= |oldRows|
  {
    && n <= i
    && KeptRows(rows, freq, oldRows, i)
    && KeptHosts(Assigned(Hosts(rows)), n, freq, Hosts(oldRows[..i]), target)
  }

  lemma FirstPassStep(rows: seq<Row>, n: nat, freq: map<string, int>, oldRows: seq<Row>, i: nat,
                      target: multiset<string>)
    requires i < |oldRows| && FirstPass(rows, n, freq, oldRows, i, target) && oldRows[i].host != ""
    ensures var host := oldRows[i].host;
            if host in freq && freq[host] > 0 then
              FirstPass(Pad(rows, Max(i + 1, n + 1), EMPTY_ROW)[i := oldRows[i]], n + 1,
                        freq[host := freq[host] - 1], oldRows, i + 1, target)
            else
              FirstPass(rows, n, freq, oldRows, i + 1, target)
  {
    var host := oldRows[i].host;
    assert Hosts(oldRows[..i + 1]) == Hosts(oldRows[..i]) + [host];
    KeepHost(Assigned(Hosts(rows)), n, freq, Hosts(oldRows[..i]), target, host);
    if host in freq && freq[host] > 0 {
      AssignStep(rows, Max(i + 1, n + 1), i, oldRows[i]);
      KeepRow(rows, n, freq, freq[host := freq[host] - 1], oldRows, i);
    } else {
      SkipRow(rows, freq, oldRows, i);
    }
  }

  method KeepOne(d: SchedulingDecision, oldRows: seq<Row>, freqIn: map<string, int>, i: nat,
                 ghost target: multiset<string>)
    returns (freq: map<string, int>)
    requires d.Aligned() && i < |oldRows| && oldRows[i].host != ""
    requires FirstPass(d.Rows(), d.nFunctions, freqIn, oldRows, i, target)
    modifies d
    ensures d.Aligned() && d.appId == old(d.appId) && d.groupId == old(d.groupId)
    ensures FirstPass(d.Rows(), d.nFunctions, freq, oldRows, i + 1, target)
  {
    var host := oldRows[i].host;
    freq := freqIn;
    FirstPassStep(d.Rows(), d.nFunctions, freq, oldRows, i, target);
    if host in freq && freq[host] > 0 {
      d.AddMessageInPosition(i, oldRows[i]);
      freq := freq[host := freq[host] - 1];
    }
  }

  /** First pass: each message keeps its host while the new histogram has room for it. */
  method KeepInPlace(d: SchedulingDecision, oldRows: seq<Row>, freqIn: map<string, int>,
                     ghost target: multiset<string>)
    returns (freq: map<string, int>)
    requires d.Aligned() && forall j :: 0 <= j < |oldRows| ==> oldRows[j].host != ""
    requires FirstPass(d.Rows(), d.nFunctions, freqIn, oldRows, 0, target)
    modifies d
    ensures d.Aligned() && d.appId == old(d.appId) && d.groupId == old(d.groupId)
    ensures FirstPass(d.Rows(), d.nFunctions, freq, oldRows, |oldRows|, target)
  {
    freq := freqIn;
    for i := 0 to |oldRows|
      invariant d.Aligned() && d.appId == old(d.appId) && d.groupId == old(d.groupId)
      invariant FirstPass(d.Rows(), d.nFunctions, freq, oldRows, i, target)
    {
      freq := KeepOne(d, oldRows, freq, i, target);
    }
  }

  /** A message sent to another host: it keeps its identity and has no port yet. */
  predicate Moved(row: Row, oldRow: Row) {
    row == oldRow.(host := row.host, mpiPort := -1) && row.host != oldRow.host
  }

  /** Rows of the second pass: the first i are filled, what the first pass kept is untouched,
      and no message that moved can be given its old host again. */
  ghost predicate RestRows(rows: seq<Row>, freq: map<string, int>, oldRows: seq<Row>, i: nat, kept: seq<Row>) {
    && |kept| <= |rows| <= |oldRows| && i <= |oldRows|
    && (forall j :: 0 <= j < i ==> Filled(Hosts(rows), j))
    && (forall j :: Filled(Hosts(kept), j) ==> rows[j] == kept[j])
    && (forall j :: i <= j < |rows| && !Filled(Hosts(kept), j) ==> rows[j].host == "")
    && (forall j :: 0 <= j < |oldRows| && !Filled(Hosts(kept), j) ==> At(freq, oldRows[j].host) == 0)
    && (forall j :: 0 <= j < i && j < |rows| && !Filled(Hosts(kept), j) ==> Moved(rows[j], oldRows[j]))
  }

  lemma MoveRow(rows: seq<Row>, n: nat, freq: map<string, int>, freq': map<string, int>,
                oldRows: seq<Row>, i: nat, kept: seq<Row>, host: string)
    requires i < |oldRows| && n < |oldRows| && RestRows(rows, freq, oldRows, i, kept)
    requires !Filled(Hosts(kept), i) && host != "" && At(freq, host) > 0
    requires forall h :: At(freq, h) == 0 ==> At(freq', h) == 0
    ensures RestRows(Pad(rows, Max(i + 1, n + 1), EMPTY_ROW)[i := oldRows[i].(host := host, mpiPort := -1)],
                     freq', oldRows, i + 1, kept)
  {
    var row := oldRows[i].(host := host, mpiPort := -1);
    var rows' := Pad(rows, Max(i + 1, n + 1), EMPTY_ROW)[i := row];
    assert Moved(row, oldRows[i]);
    forall j | 0 <= j < i + 1
      ensures Filled(Hosts(rows'), j)
      ensures !Filled(Hosts(kept), j) ==> Moved(rows'[j], oldRows[j])
    {
      assert j < i ==> Filled(Hosts(rows), j);
    }
  }

  /** The source's test for an unfilled row is exact, and reads no row that is missing. */
  lemma UnfilledTest(p: Placement, n: nat, i: nat)
    requires n == |Assigned(p)| && forall j :: 0 <= j < i ==> Filled(p, j)
    ensures n > i ==> i < |p|
    ensures n <= i || p[i] == "" <==> !Filled(p, i)
  {
    SubsetSize(Assigned(p), multiset(p));
    assert |multiset(p)| == |p|;
    if Filled(p, i) {
      assert forall j :: 0 <= j < i + 1 ==> Filled(p, j);
      FilledPrefix(p, i + 1);
    }
  }

  /** While a row is unfilled, some host of the histogram has not been handed out. */
  lemma SomeHostLeft(p: Placement, freq: map<string, int>, target: multiset<string>, i: nat)
    requires Remaining(freq, target, Assigned(p)) && |p| <= |target| && i < |target| && !Filled(p, i)
    requires forall j :: 0 <= j < i ==> Filled(p, j)
    ensures |Assigned(p)| < |target| && exists h :: h in freq && freq[h] > 0
  {
    SubsetSize(Assigned(p), multiset(p));
    if i < |p| { assert p[i] in multiset(p); }
    assert |Assigned(p)| < |target|;
    if forall h :: At(freq, h) <= 0 {
      assert forall h :: At(freq, h) == target[h] - Assigned(p)[h];
      assert target <= Assigned(p);
      SubsetSize(target, Assigned(p));
    }
    var h :| At(freq, h) > 0;
    assert h in freq && freq[h] > 0;
  }

  /** State of the second pass after i messages. */
  ghost predicate SecondPass(rows: seq<Row>, n: nat, freq: map<string, int>, oldRows: seq<Row>, i: nat,
                             target: multiset<string>, kept: seq<Row>)
  {
    && RestRows(rows, freq, oldRows, i, kept)
    && n == |Assigned(Hosts(rows))|
    && Remaining(freq, target, Assigned(Hosts(rows)))
  }

  lemma SecondPassStarts(rows: seq<Row>, n: nat, freq: map<string, int>, oldRows: seq<Row>, target: multiset<string>)
    requires FirstPass(rows, n, freq, oldRows, |oldRows|, target)
    ensures SecondPass(rows, n, freq, oldRows, 0, target, rows)
  {
    forall j | 0 <= j < |rows| && !Filled(Hosts(rows), j) ensures rows[j].host == "" {}
  }

  lemma SecondPassMove(rows: seq<Row>, n: nat, freq: map<string, int>, oldRows: seq<Row>, i: nat,
                       target: multiset<string>, kept: seq<Row>, host: string)
    requires i < |oldRows| == |target| && "" !in target && n < |oldRows|
    requires SecondPass(rows, n, freq, oldRows, i, target, kept) && !Filled(Hosts(rows), i)
    requires host in freq && freq[host] > 0
    ensures SecondPass(Pad(rows, Max(i + 1, n + 1), EMPTY_ROW)[i := oldRows[i].(host := host, mpiPort := -1)], n + 1,
                       freq[host := freq[host] - 1], oldRows, i + 1, target, kept)
  {
    assert At(freq, host) == target[host] - Assigned(Hosts(rows))[host];
    TakeOne(freq, target, Assigned(Hosts(rows)), host);
    AssignStep(rows, Max(i + 1, n + 1), i, oldRows[i].(host := host, mpiPort := -1));
    MoveRow(rows, n, freq, freq[host := freq[host] - 1], oldRows, i, kept, host);
  }

  method PlaceOne(d: SchedulingDecision, oldRows: seq<Row>, freqIn: map<string, int>, i: nat,
                  ghost target: multiset<string>, ghost kept: seq<Row>)
    returns (freq: map<string, int>)
    requires d.Aligned() && i < |oldRows| == |target| && "" !in target
    requires SecondPass(d.Rows(), d.nFunctions, freqIn, oldRows, i, target, kept)
    modifies d
    ensures d.Aligned() && d.appId == old(d.appId) && d.groupId == old(d.groupId)
    ensures SecondPass(d.Rows(), d.nFunctions, freq, oldRows, i + 1, target, kept)
  {
    freq := freqIn;
    UnfilledTest(Hosts(d.Rows()), d.nFunctions, i);
    if d.nFunctions <= i || d.hosts[i] == "" {
      SomeHostLeft(Hosts(d.Rows()), freq, target, i);
      var host := NextHostWithSlots(freq);
      SecondPassMove(d.Rows(), d.nFunctions, freq, oldRows, i, target, kept, host);
      d.AddMessageInPosition(i, oldRows[i].(host := host, mpiPort := -1));
      freq := freq[host := freq[host] - 1];
    }
  }

  /** Second pass: every other message takes the next host of the histogram. */
  method PlaceRest(d: SchedulingDecision, oldRows: seq<Row>, freqIn: map<string, int>,
                   ghost target: multiset<string>, ghost kept: seq<Row>)
    requires d.Aligned() && |oldRows| == |target| && "" !in target
    requires SecondPass(d.Rows(), d.nFunctions, freqIn, oldRows, 0, target, kept)
    modifies d
    ensures d.Aligned() && d.appId == old(d.appId) && d.groupId == old(d.groupId)
    ensures exists freq :: SecondPass(d.Rows(), d.nFunctions, freq, oldRows, |oldRows|, target, kept)
  {
    var freq := freqIn;
    for i := 0 to |oldRows|
      invariant d.Aligned() && d.appId == old(d.appId) && d.groupId == old(d.groupId)
      invariant SecondPass(d.Rows(), d.nFunctions, freq, oldRows, i, target, kept)
    {
      freq := PlaceOne(d, oldRows, freq, i, target, kept);
    }
  }

  /** What the two passes together leave behind. */
  ghost predicate Minimised(rows: seq<Row>, oldRows: seq<Row>, target: multiset<string>) {
    && |rows| == |oldRows| && multiset(Hosts(rows)) == target
    && (forall j :: 0 <= j < |rows| ==> rows[j] == oldRows[j] || Moved(rows[j], oldRows[j]))
    && Kept(Hosts(rows), Hosts(oldRows)) == |multiset(Hosts(oldRows)) * target|
  }

  lemma PassesMinimise(rows: seq<Row>, n: nat, freq: map<string, int>, oldRows: seq<Row>, target: multiset<string>,
                       kept: seq<Row>, keptN: nat, keptFreq: map<string, int>)
    requires |oldRows| == |target|
    requires FirstPass(kept, keptN, keptFreq, oldRows, |oldRows|, target)
    requires SecondPass(rows, n, freq, oldRows, |oldRows|, target, kept)
    ensures Minimised(rows, oldRows, target) && n == |rows|
  {
    var p := Hosts(rows);
    if |oldRows| > 0 { assert Filled(p, |oldRows| - 1); }
    FilledPrefix(p, |p|);
    SubsetSize(Assigned(p), target);
    forall j | 0 <= j < |rows|
      ensures Filled(Hosts(kept), j) <==> p[j] == Hosts(oldRows)[j]
      ensures rows[j] == oldRows[j] || Moved(rows[j], oldRows[j])
    {
      if Filled(Hosts(kept), j) { assert rows[j] == kept[j] == oldRows[j]; }
    }
    KeptCount(p, Hosts(oldRows), Hosts(kept));
    assert oldRows[..|oldRows|] == oldRows;
  }

  /** Keeps the new decision's histogram and moves as few messages as that allows: every message
      keeps its position and identity, a message that stays keeps its port, and exactly as many
      stay as the two histograms share, which KeptBound shows is the most possible. */
  method MinimiseNumOfMigrations(newDecision: SchedulingDecision, oldDecision: SchedulingDecision)
    returns (d: SchedulingDecision)
    requires newDecision.Complete() && oldDecision.Complete()
    requires |newDecision.hosts| == |oldDecision.hosts|
    requires "" !in newDecision.hosts && "" !in oldDecision.hosts
    ensures fresh(d) && d.Complete() && d.appId == oldDecision.appId && d.groupId == oldDecision.groupId
    ensures Minimised(d.Rows(), oldDecision.Rows(), multiset(newDecision.hosts))
  {
    d := new SchedulingDecision(oldDecision.appId, oldDecision.groupId);
    var freq := GetHostFreqCount(newDecision.hosts);
    var oldRows := Zip(oldDecision.hosts, oldDecision.messageIds, oldDecision.appIdxs, oldDecision.groupIdxs,
                       oldDecision.mpiPorts);
    ghost var target := multiset(newDecision.hosts);
    freq := KeepInPlace(d, oldRows, freq, target);
    ghost var kept, keptN, keptFreq := d.Rows(), d.nFunctions, freq;
    SecondPassStarts(kept, keptN, freq, oldRows, target);
    PlaceRest(d, oldRows, freq, target, kept);
    ghost var lastFreq :| SecondPass(d.Rows(), d.nFunctions, lastFreq, oldRows, |oldRows|, target, kept);
    PassesMinimise(d.Rows(), d.nFunctions, lastFreq, oldRows, target, kept, keptN, keptFreq);
  }
}
