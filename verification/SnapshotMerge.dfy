/** Applying diffs to a snapshot, and when the order in which they are applied does not matter. */
module SnapshotMerge {
  import opened Options

  datatype Byte = Byte(bits: bv8)

  const ZERO := Byte(0)

  function Xor(x: Byte, y: Byte): Byte { Byte(x.bits ^ y.bits) }

  lemma XorUndoes(x: Byte, y: Byte)
    ensures Xor(x, Xor(x, y)) == y
    ensures Xor(x, y) == ZERO <==> x == y
    ensures Xor(x, ZERO) == x
  {
  }

  datatype Operation = Bytewise | XOR | Ignore

  datatype Diff = Diff(op: Operation, offset: nat, data: seq<Byte>)

  // ---------- applying ----------

  /** Memory claimed beyond the end of the snapshot reads as zero. */
  function At(mem: seq<Byte>, k: nat): Byte { if k < |mem| then mem[k] else ZERO }

  function Extended(mem: seq<Byte>, size: nat): (r: seq<Byte>)
    ensures |r| == if size > |mem| then size else |mem|
    ensures forall k: nat :: At(r, k) == At(mem, k)
  {
    if size > |mem| then mem + seq(size - |mem|, _ => ZERO) else mem
  }

  /** Copies bytes in at an offset, extending the snapshot up to its maximum. */
  function WriteData(mem: seq<Byte>, maxSize: nat, offset: nat, bytes: seq<Byte>): Option<seq<Byte>> {
    var end := offset + |bytes|;
    if end > |mem| && end > maxSize then None
    else
      var ext := Extended(mem, end);
      Some(ext[..offset] + bytes + ext[end..])
  }

  /** XORs bytes in at an offset, within the snapshot only. */
  function XorData(mem: seq<Byte>, offset: nat, bytes: seq<Byte>): Option<seq<Byte>> {
    var end := offset + |bytes|;
    if end > |mem| then None
    else Some(mem[..offset] + seq(|bytes|, i requires 0 <= i < |bytes| => Xor(bytes[i], mem[offset + i])) + mem[end..])
  }

  function ApplyDiff(mem: seq<Byte>, maxSize: nat, d: Diff): Option<seq<Byte>> {
    match d.op
    case Ignore => Some(mem)
    case Bytewise => WriteData(mem, maxSize, d.offset, d.data)
    case XOR => XorData(mem, d.offset, d.data)
  }

  function ApplyAll(mem: seq<Byte>, maxSize: nat, ds: seq<Diff>): Option<seq<Byte>> {
    if ds == [] then Some(mem)
    else
      var before := ApplyAll(mem, maxSize, ds[..|ds| - 1]);
      if before.None? then None else ApplyDiff(before.value, maxSize, ds[|ds| - 1])
  }

  // ---------- one byte ----------

  predicate Covers(d: Diff, k: nat) { d.offset <= k < d.offset + |d.data| }

  function ByteAfter(d: Diff, k: nat, x: Byte): Byte {
    if !Covers(d, k) then x
    else match d.op
      case Ignore => x
      case Bytewise => d.data[k - d.offset]
      case XOR => Xor(d.data[k - d.offset], x)
  }

  /** Diffs that can be applied to a snapshot of `size` bytes growing to at most `limit`. */
  predicate Applicable(d: Diff, size: nat, limit: nat) {
    d.offset + |d.data| <= if d.op.XOR? then size else limit
  }

  function End(d: Diff): nat { if d.op.Bytewise? then d.offset + |d.data| else 0 }

  lemma ApplyByte(mem: seq<Byte>, maxSize: nat, d: Diff, size: nat, limit: nat)
    requires size <= |mem| <= limit <= maxSize && Applicable(d, size, limit)
    ensures ApplyDiff(mem, maxSize, d).Some?
    ensures var r := ApplyDiff(mem, maxSize, d).value;
            |r| == (if End(d) > |mem| then End(d) else |mem|)
            && forall k: nat :: At(r, k) == ByteAfter(d, k, At(mem, k))
  {
    hide Xor;
    var r := ApplyDiff(mem, maxSize, d).value;
    if d.op.Bytewise? {
      var ext := Extended(mem, d.offset + |d.data|);
      forall k: nat ensures At(r, k) == ByteAfter(d, k, At(ext, k)) {}
    } else if d.op.XOR? {
      forall k: nat ensures At(r, k) == ByteAfter(d, k, At(mem, k)) {}
    }
  }

  /** The diff leaves byte k as it is, whatever it is. */
  predicate Idle(d: Diff, k: nat) {
    !Covers(d, k) || d.op.Ignore? || (d.op.XOR? && d.data[k - d.offset] == ZERO)
  }

  /** How many diffs have an effect on byte k. */
  function Effective(ds: seq<Diff>, k: nat): nat {
    if ds == [] then 0 else Effective(ds[..|ds| - 1], k) + if Idle(ds[|ds| - 1], k) then 0 else 1
  }

  /** Every diff with an effect on byte k turns x into y. */
  predicate Turns(ds: seq<Diff>, k: nat, x: Byte, y: Byte) {
    forall d :: d in ds && !Idle(d, k) ==> ByteAfter(d, k, x) == y
  }

  lemma IdleKeeps(d: Diff, k: nat, x: Byte)
    requires Idle(d, k)
    ensures ByteAfter(d, k, x) == x
  {
    XorUndoes(x, x);
    XorUndoes(ZERO, x);
  }

  predicate AllApplicable(ds: seq<Diff>, size: nat, limit: nat) {
    forall d :: d in ds ==> Applicable(d, size, limit)
  }

  /** When at most one diff has an effect on a byte, that diff alone decides it, wherever it comes. */
  lemma {:induction false} AppliedByte(mem: seq<Byte>, maxSize: nat, ds: seq<Diff>, limit: nat, k: nat, y: Byte)
    requires |mem| <= limit <= maxSize && AllApplicable(ds, |mem|, limit)
    requires Effective(ds, k) <= 1 && Turns(ds, k, At(mem, k), y)
    ensures ApplyAll(mem, maxSize, ds).Some? && |mem| <= |ApplyAll(mem, maxSize, ds).value| <= limit
    ensures At(ApplyAll(mem, maxSize, ds).value, k) == if Effective(ds, k) == 0 then At(mem, k) else y
  {
    if ds != [] {
      var n := |ds| - 1;
      var last := ds[n];
      assert last in ds && forall d :: d in ds[..n] ==> d in ds;
      AppliedByte(mem, maxSize, ds[..n], limit, k, y);
      ApplyByte(ApplyAll(mem, maxSize, ds[..n]).value, maxSize, last, |mem|, limit);
      if Idle(last, k) { IdleKeeps(last, k, At(ApplyAll(mem, maxSize, ds[..n]).value, k)); }
    }
  }

  /** The snapshot ends up reaching as far as every byte-wise diff. */
  lemma {:induction false} AppliedSize(mem: seq<Byte>, maxSize: nat, ds: seq<Diff>, limit: nat, d: Diff)
    requires |mem| <= limit <= maxSize && AllApplicable(ds, |mem|, limit) && d in ds
    ensures ApplyAll(mem, maxSize, ds).Some? && |ApplyAll(mem, maxSize, ds).value| <= limit
    ensures |mem| <= |ApplyAll(mem, maxSize, ds).value| && End(d) <= |ApplyAll(mem, maxSize, ds).value|
  {
    hide At, ByteAfter, WriteData, XorData;
    var n := |ds| - 1;
    var last := ds[n];
    assert last in ds && forall x :: x in ds[..n] ==> x in ds;
    if n > 0 { AppliedSize(mem, maxSize, ds[..n], limit, if d in ds[..n] then d else ds[0]); }
    ApplyByte(ApplyAll(mem, maxSize, ds[..n]).value, maxSize, last, |mem|, limit);
  }

  // ---------- reordering ----------

  lemma {:induction false} EffectiveConcat(a: seq<Diff>, b: seq<Diff>, k: nat)
    ensures Effective(a + b, k) == Effective(a, k) + Effective(b, k)
  {
    if b == [] {
      assert a + b == a;
    } else {
      EffectiveConcat(a, b[..|b| - 1], k);
      assert (a + b)[..|a + b| - 1] == a + b[..|b| - 1];
    }
  }

  lemma {:induction false} EffectivePermuted(a: seq<Diff>, b: seq<Diff>, k: nat)
    requires multiset(a) == multiset(b)
    ensures Effective(a, k) == Effective(b, k)
    decreases |a|
  {
    hide Idle;
    if a == [] {
      assert |multiset(b)| == 0;
    } else {
      var n := |a| - 1;
      var x := a[n];
      assert a == a[..n] + [x];
      assert x in multiset(b);
      var j :| 0 <= j < |b| && b[j] == x;
      var c := b[..j] + b[j + 1..];
      assert b == b[..j] + [x] + b[j + 1..];
      assert multiset(c) == multiset(b) - multiset{x};
      EffectivePermuted(a[..n], c, k);
      EffectiveConcat(b[..j], b[j + 1..], k);
      EffectiveConcat(b[..j] + [x], b[j + 1..], k);
      EffectiveConcat(b[..j], [x], k);
      assert [x][..0] == [];
    }
  }

  /** What a list of diffs has to be for it to carry `old` to `updated`: a byte that changed has one
      diff, which writes it, a byte that did not has none with an effect. */
  ghost predicate Faithful(ds: seq<Diff>, was: seq<Byte>, now: seq<Byte>) {
    && |was| <= |now| && AllApplicable(ds, |was|, |now|)
    && (|was| < |now| ==> exists d :: d in ds && End(d) == |now|)
    && (forall k: nat :: k < |now| ==> FaithfulAt(ds, was, now, k))
  }

  ghost predicate FaithfulAt(ds: seq<Diff>, was: seq<Byte>, now: seq<Byte>, k: nat) {
    && (if k < |was| && was[k] == At(now, k) then Effective(ds, k) == 0 else Effective(ds, k) == 1)
    && Turns(ds, k, At(was, k), At(now, k))
  }

  lemma SameMembers(a: seq<Diff>, b: seq<Diff>, d: Diff)
    requires multiset(a) == multiset(b)
    ensures d in a <==> d in b
  {
    assert d in a <==> d in multiset(a);
    assert d in b <==> d in multiset(b);
  }

  /** Faithful diffs, applied in any order, turn the snapshot into the updated memory. */
  lemma FaithfulRoundTrip(ds: seq<Diff>, order: seq<Diff>, was: seq<Byte>, now: seq<Byte>, maxSize: nat)
    requires Faithful(ds, was, now) && multiset(order) == multiset(ds) && |now| <= maxSize
    ensures ApplyAll(was, maxSize, order) == Some(now)
  {
    forall d ensures d in order <==> d in ds { SameMembers(order, ds, d); }
    forall k: nat | k < |now|
      ensures ApplyAll(was, maxSize, order).Some? && |ApplyAll(was, maxSize, order).value| <= |now|
      ensures At(ApplyAll(was, maxSize, order).value, k) == now[k]
    {
      assert FaithfulAt(ds, was, now, k);
      EffectivePermuted(order, ds, k);
      AppliedByte(was, maxSize, order, |now|, k, now[k]);
    }
    if |was| < |now| {
      var d :| d in ds && End(d) == |now|;
      AppliedSize(was, maxSize, order, |now|, d);
    } else if order != [] {
      AppliedSize(was, maxSize, order, |now|, order[0]);
    }
    var r := ApplyAll(was, maxSize, order).value;
    forall k: nat | k < |now| ensures r[k] == now[k] { assert At(r, k) == now[k]; }
    assert r == now;
  }

  // ---------- several hosts ----------

  /** A host's view of the snapshot after it ran, and the diffs it sent back. */
  datatype Contribution = Contribution(now: seq<Byte>, diffs: seq<Diff>)

  function AllDiffs(hosts: seq<Contribution>): seq<Diff> {
    if hosts == [] then [] else AllDiffs(hosts[..|hosts| - 1]) + hosts[|hosts| - 1].diffs
  }

  predicate Changes(was: seq<Byte>, h: Contribution, k: nat) {
    k < |was| == |h.now| && was[k] != h.now[k]
  }

  /** Every host ran on the same snapshot, kept its size, and no two changed the same byte. */
  ghost predicate Separate(was: seq<Byte>, hosts: seq<Contribution>) {
    && (forall i :: 0 <= i < |hosts| ==> |hosts[i].now| == |was| && Faithful(hosts[i].diffs, was, hosts[i].now))
    && forall i, j, k: nat :: 0 <= i < j < |hosts| && Changes(was, hosts[i], k) ==> !Changes(was, hosts[j], k)
  }

  /** Which host's value byte k must end up with: that of the host that changed it, if any. */
  function Merged(was: seq<Byte>, hosts: seq<Contribution>, k: nat): Byte
    requires k < |was|
  {
    if hosts == [] then was[k]
    else
      var last := hosts[|hosts| - 1];
      if Changes(was, last, k) then last.now[k] else Merged(was, hosts[..|hosts| - 1], k)
  }

  lemma {:induction false} NobodyChanges(was: seq<Byte>, hosts: seq<Contribution>, k: nat)
    requires k < |was| && forall i :: 0 <= i < |hosts| ==> !Changes(was, hosts[i], k)
    ensures Merged(was, hosts, k) == was[k]
  {
    if hosts != [] { NobodyChanges(was, hosts[..|hosts| - 1], k); }
  }

  lemma SeparatePrefix(was: seq<Byte>, hosts: seq<Contribution>)
    requires hosts != [] && Separate(was, hosts)
    ensures Separate(was, hosts[..|hosts| - 1])
  {
    var n := |hosts| - 1;
    assert forall i :: 0 <= i < n ==> hosts[..n][i] == hosts[i];
  }

  /** Across all hosts, byte k has one diff with an effect iff some host changed it, and that diff
      writes that host's value. */
  lemma {:induction false} MergedByte(was: seq<Byte>, hosts: seq<Contribution>, k: nat)
    requires Separate(was, hosts) && k < |was|
    ensures Effective(AllDiffs(hosts), k) == if Merged(was, hosts, k) == was[k] then 0 else 1
    ensures Turns(AllDiffs(hosts), k, was[k], Merged(was, hosts, k))
    ensures AllApplicable(AllDiffs(hosts), |was|, |was|)
  {
    if hosts != [] {
      var n := |hosts| - 1;
      var last := hosts[n];
      SeparatePrefix(was, hosts);
      MergedByte(was, hosts[..n], k);
      assert FaithfulAt(last.diffs, was, last.now, k);
      EffectiveConcat(AllDiffs(hosts[..n]), last.diffs, k);
      if Changes(was, last, k) {
        NobodyChanges(was, hosts[..n], k);
        EffectiveNone(AllDiffs(hosts[..n]), k);
      } else {
        EffectiveNone(last.diffs, k);
      }
    }
  }

  lemma {:induction false} EffectiveNone(ds: seq<Diff>, k: nat)
    requires Effective(ds, k) == 0
    ensures forall d :: d in ds ==> Idle(d, k)
  {
    if ds != [] {
      EffectiveNone(ds[..|ds| - 1], k);
      assert ds == ds[..|ds| - 1] + [ds[|ds| - 1]];
    }
  }

  /** Writing the queued diffs of all hosts in any interleaving gives each byte the value written by
      the host that changed it and leaves every other byte alone. */
  lemma MergeIsOrderIndependent(was: seq<Byte>, hosts: seq<Contribution>, order: seq<Diff>, maxSize: nat)
    requires Separate(was, hosts) && multiset(order) == multiset(AllDiffs(hosts)) && |was| <= maxSize
    ensures var r := ApplyAll(was, maxSize, order);
            r.Some? && |r.value| == |was| && forall k :: 0 <= k < |was| ==> r.value[k] == Merged(was, hosts, k)
  {
    forall d ensures d in order <==> d in AllDiffs(hosts) { SameMembers(order, AllDiffs(hosts), d); }
    AllFit(was, hosts);
    var r := ApplyAll(was, maxSize, order);
    if order != [] { AppliedSize(was, maxSize, order, |was|, order[0]); }
    forall k: nat | k < |was| ensures At(r.value, k) == Merged(was, hosts, k) {
      MergedByte(was, hosts, k);
      EffectivePermuted(order, AllDiffs(hosts), k);
      AppliedByte(was, maxSize, order, |was|, k, Merged(was, hosts, k));
    }
  }

  lemma {:induction false} AllFit(was: seq<Byte>, hosts: seq<Contribution>)
    requires Separate(was, hosts)
    ensures AllApplicable(AllDiffs(hosts), |was|, |was|)
  {
    if hosts != [] {
      SeparatePrefix(was, hosts);
      AllFit(was, hosts[..|hosts| - 1]);
    }
  }

  /** The merged value names a host: if one changed byte k, its value is the result. */
  lemma {:induction false} MergedIsTheChange(was: seq<Byte>, hosts: seq<Contribution>, k: nat, i: nat)
    requires Separate(was, hosts) && i < |hosts| && Changes(was, hosts[i], k)
    ensures Merged(was, hosts, k) == hosts[i].now[k]
  {
    var n := |hosts| - 1;
    if i < n {
      SeparatePrefix(was, hosts);
      MergedIsTheChange(was, hosts[..n], k, i);
    }
  }
}
