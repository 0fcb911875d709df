/** The chunked comparison of two byte arrays: chunks that compare equal are skipped, the others are
    scanned byte by byte, and the result is the maximal differing runs of a plain byte scan. */
module ByteRuns {

  const ARRAY_COMP_CHUNK_SIZE: nat := 128

  datatype Run = Run(start: nat, end: nat)

  /** A differing stretch of [lo, hi) that cannot be made longer. */
  predicate Maximal<B(==)>(a: seq<B>, b: seq<B>, lo: nat, hi: nat, r: Run)
    requires hi <= |a| && hi <= |b|
  {
    && lo <= r.start < r.end <= hi
    && (forall k :: r.start <= k < r.end ==> a[k] != b[k])
    && (r.start == lo || a[r.start - 1] == b[r.start - 1])
    && (r.end == hi || a[r.end] == b[r.end])
  }

  predicate InOrder(runs: seq<Run>) {
    forall i, j :: 0 <= i < j < |runs| ==> runs[i].end < runs[j].start
  }

  ghost predicate InSome(runs: seq<Run>, k: nat) {
    exists i :: 0 <= i < |runs| && runs[i].start <= k < runs[i].end
  }

  /** Exactly the maximal differing runs of [lo, hi), in order. */
  ghost predicate IsRuns<B>(runs: seq<Run>, a: seq<B>, b: seq<B>, lo: nat, hi: nat)
    requires hi <= |a| && hi <= |b|
  {
    && (forall i :: 0 <= i < |runs| ==> Maximal(a, b, lo, hi, runs[i]))
    && InOrder(runs)
    && forall k :: lo <= k < hi && a[k] != b[k] ==> InSome(runs, k)
  }

  lemma MaximalEqual<B>(a: seq<B>, b: seq<B>, lo: nat, hi: nat, r: Run, s: Run, k: nat)
    requires hi <= |a| && hi <= |b| && Maximal(a, b, lo, hi, r) && Maximal(a, b, lo, hi, s)
    requires r.start <= k < r.end && s.start <= k < s.end
    ensures r == s
  {
    assert s.start == lo || !(r.start <= s.start - 1 < r.end);
    assert r.start == lo || !(s.start <= r.start - 1 < s.end);
    assert s.end == hi || !(r.start <= s.end < r.end);
    assert r.end == hi || !(s.start <= r.end < s.end);
  }

  /** Dropping the first run leaves the runs after it. */
  lemma DropFirst<B>(runs: seq<Run>, a: seq<B>, b: seq<B>, lo: nat, hi: nat)
    requires hi <= |a| && hi <= |b| && runs != [] && IsRuns(runs, a, b, lo, hi)
    ensures runs[0].end <= hi && IsRuns(runs[1..], a, b, runs[0].end, hi)
  {
    var end := runs[0].end;
    forall i | 0 <= i < |runs[1..]| ensures Maximal(a, b, end, hi, runs[1..][i]) {
      assert Maximal(a, b, lo, hi, runs[i + 1]) && runs[0].end < runs[i + 1].start;
    }
    forall k | end <= k < hi && a[k] != b[k] ensures InSome(runs[1..], k) {
      assert InSome(runs, k);
      var i :| 0 <= i < |runs| && runs[i].start <= k < runs[i].end;
      assert runs[1..][i - 1] == runs[i];
    }
  }

  lemma FirstEqual<B>(r: seq<Run>, s: seq<Run>, a: seq<B>, b: seq<B>, lo: nat, hi: nat)
    requires hi <= |a| && hi <= |b| && IsRuns(r, a, b, lo, hi) && IsRuns(s, a, b, lo, hi) && r != []
    ensures s != [] && s[0].start <= r[0].start
  {
    assert Maximal(a, b, lo, hi, r[0]);
    assert InSome(s, r[0].start);
    var i :| 0 <= i < |s| && s[i].start <= r[0].start < s[i].end;
    assert Maximal(a, b, lo, hi, s[0]) && Maximal(a, b, lo, hi, s[i]);
    if i > 0 { assert s[0].end < s[i].start; }
  }

  /** The maximal runs are unique, so the scan's result is determined by the two arrays. */
  lemma {:induction false} RunsUnique<B>(r: seq<Run>, s: seq<Run>, a: seq<B>, b: seq<B>, lo: nat, hi: nat)
    requires hi <= |a| && hi <= |b| && IsRuns(r, a, b, lo, hi) && IsRuns(s, a, b, lo, hi)
    ensures r == s
    decreases |r|
  {
    if r != [] {
      FirstEqual(r, s, a, b, lo, hi);
      FirstEqual(s, r, a, b, lo, hi);
      assert Maximal(a, b, lo, hi, r[0]) && Maximal(a, b, lo, hi, s[0]);
      MaximalEqual(a, b, lo, hi, r[0], s[0], r[0].start);
      DropFirst(r, a, b, lo, hi);
      DropFirst(s, a, b, lo, hi);
      RunsUnique(r[1..], s[1..], a, b, r[0].end, hi);
      assert r == [r[0]] + r[1..] && s == [s[0]] + s[1..];
    } else if s != [] {
      FirstEqual(s, r, a, b, lo, hi);
    }
  }

  // ---------- the scan ----------

  /** A run that has been emitted: the byte after it has been seen, and is equal. */
  predicate Closed<B(==)>(a: seq<B>, b: seq<B>, lo: nat, c: nat, r: Run)
    requires c <= |a| && c <= |b|
  {
    r.end < c && Maximal(a, b, lo, c, r)
  }

  /** State of the scan before byte c: a run may be open since `start`. */
  ghost predicate Scanned<B>(runs: seq<Run>, open: bool, start: nat, a: seq<B>, b: seq<B>, lo: nat, c: nat)
    requires c <= |a| && c <= |b|
  {
    && lo <= c
    && (forall i :: 0 <= i < |runs| ==> Closed(a, b, lo, c, runs[i]))
    && InOrder(runs)
    && (if open then
          && lo <= start < c && (forall k :: start <= k < c ==> a[k] != b[k])
          && (start == lo || a[start - 1] == b[start - 1])
          && (forall i :: 0 <= i < |runs| ==> runs[i].end < start)
          && forall k :: lo <= k < start && a[k] != b[k] ==> InSome(runs, k)
        else
          && (c == lo || a[c - 1] == b[c - 1])
          && forall k :: lo <= k < c && a[k] != b[k] ==> InSome(runs, k))
  }

  lemma SomeGrows(runs: seq<Run>, r: Run, k: nat)
    ensures InSome(runs + [r], k) <==> InSome(runs, k) || r.start <= k < r.end
  {
    var more := runs + [r];
    if InSome(runs, k) {
      var i :| 0 <= i < |runs| && runs[i].start <= k < runs[i].end;
      assert more[i] == runs[i];
    }
    if r.start <= k < r.end { assert more[|runs|] == r; }
  }

  /** An equal stretch [c, d) closes an open run just before it. */
  lemma CloseRun<B>(runs: seq<Run>, start: nat, a: seq<B>, b: seq<B>, lo: nat, c: nat, d: nat)
    requires c < d <= |a| && d <= |b| && Scanned(runs, true, start, a, b, lo, c)
    requires forall k :: c <= k < d ==> a[k] == b[k]
    ensures Scanned(runs + [Run(start, c)], false, start, a, b, lo, d)
  {
    forall i | 0 <= i < |runs| ensures Closed(a, b, lo, d, runs[i]) {
      assert Closed(a, b, lo, c, runs[i]);
    }
    forall k | lo <= k < d && a[k] != b[k] ensures InSome(runs + [Run(start, c)], k) {
      SomeGrows(runs, Run(start, c), k);
    }
  }

  /** An equal stretch, or a differing byte, when no run ends. */
  lemma KeepScanning<B>(runs: seq<Run>, open: bool, start: nat, a: seq<B>, b: seq<B>, lo: nat, c: nat, d: nat)
    requires c < d <= |a| && d <= |b| && Scanned(runs, open, start, a, b, lo, c)
    requires if a[c] == b[c] then !open && forall k :: c <= k < d ==> a[k] == b[k] else d == c + 1
    ensures Scanned(runs, open || a[c] != b[c], if !open && a[c] != b[c] then c else start, a, b, lo, d)
  {
    forall i | 0 <= i < |runs| ensures Closed(a, b, lo, d, runs[i]) {
      assert Closed(a, b, lo, c, runs[i]);
    }
  }

  /** Byte-wise scan of one chunk. */
  method ScanChunk<B(==)>(a: seq<B>, b: seq<B>, ghost lo: nat, from: nat, to: nat, runs: seq<Run>, open: bool,
                           start: nat)
    returns (runs': seq<Run>, open': bool, start': nat)
    requires from <= to <= |a| && to <= |b| && Scanned(runs, open, start, a, b, lo, from)
    ensures Scanned(runs', open', start', a, b, lo, to)
  {
    runs', open', start' := runs, open, start;
    for c := from to to
      invariant Scanned(runs', open', start', a, b, lo, c) == true
    {
      var dirty := a[c] != b[c];
      if !dirty && open' {
        CloseRun(runs', start', a, b, lo, c, c + 1);
        open' := false;
        runs' := runs' + [Run(start', c)];
      } else {
        KeepScanning(runs', open', start', a, b, lo, c, c + 1);
        if dirty && !open' { open', start' := true, c; }
      }
    }
  }

  lemma FinishScan<B>(runs: seq<Run>, open: bool, start: nat, a: seq<B>, b: seq<B>, lo: nat, hi: nat)
    requires hi <= |a| && hi <= |b| && Scanned(runs, open, start, a, b, lo, hi)
    ensures IsRuns(if open then runs + [Run(start, hi)] else runs, a, b, lo, hi)
  {
    hide InSome;
    var all := if open then runs + [Run(start, hi)] else runs;
    forall i | 0 <= i < |all| ensures Maximal(a, b, lo, hi, all[i]) {
      if i < |runs| { assert Closed(a, b, lo, hi, runs[i]); }
    }
    forall k | lo <= k < hi && a[k] != b[k] ensures InSome(all, k) {
      if open { SomeGrows(runs, Run(start, hi), k); }
    }
  }

  /** Appends the differing runs between two offsets, a chunk at a time. */
  method DiffArrayRegions<B(==)>(startOffset: nat, endOffset: nat, a: seq<B>, b: seq<B>) returns (runs: seq<Run>)
    requires startOffset <= endOffset <= |a| && endOffset <= |b|
    ensures IsRuns(runs, a, b, startOffset, endOffset)
  {
    runs := [];
    var open, start, i := false, 0, startOffset;
    while i < endOffset
      invariant startOffset <= i <= endOffset
      invariant Scanned(runs, open, start, a, b, startOffset, i) == true
    {
      var step := if endOffset - i < ARRAY_COMP_CHUNK_SIZE then endOffset - i else ARRAY_COMP_CHUNK_SIZE;
      if a[i..i + step] == b[i..i + step] {
        assert forall k :: i <= k < i + step ==> a[k] == a[i..i + step][k - i] == b[k];
        if open {
          CloseRun(runs, start, a, b, startOffset, i, i + step);
          open := false;
          runs := runs + [Run(start, i)];
        } else {
          KeepScanning(runs, open, start, a, b, startOffset, i, i + step);
        }
      } else {
        runs, open, start := ScanChunk(a, b, startOffset, i, i + step, runs, open, start);
      }
      i := i + step;
    }
    FinishScan(runs, open, start, a, b, startOffset, endOffset);
    if open { runs := runs + [Run(start, endOffset)]; }
  }
}
