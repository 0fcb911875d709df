/** Diffing memory against a snapshot, page by page within merge regions. Diffs are spans into the
    updated memory, which an XOR region rewrites in place; they are read when they are applied. */
module Snapshot {
  import opened Options
  import opened ByteRuns
  import opened SnapshotMerge
  import opened SnapshotRegions

  /** A diff before its data is read: a stretch of the updated memory. */
  datatype Span = Span(op: Operation, offset: nat, length: nat)

  predicate Reaches(s: Span, k: nat) { s.offset <= k < s.offset + s.length }

  /** How many spans of one operation reach byte k. */
  function Hits(spans: seq<Span>, op: Operation, k: nat): nat {
    if spans == [] then 0
    else
      var last := spans[|spans| - 1];
      Hits(spans[..|spans| - 1], op, k) + if last.op == op && Reaches(last, k) then 1 else 0
  }

  lemma {:induction false} HitsConcat(a: seq<Span>, b: seq<Span>, op: Operation, k: nat)
    ensures Hits(a + b, op, k) == Hits(a, op, k) + Hits(b, op, k)
  {
    if b == [] {
      assert a + b == a;
    } else {
      HitsConcat(a, b[..|b| - 1], op, k);
      assert (a + b)[..|a + b| - 1] == a + b[..|b| - 1];
    }
  }

  lemma HitsOne(s: Span, op: Operation, k: nat)
    ensures Hits([s], op, k) == if s.op == op && Reaches(s, k) then 1 else 0
  {
    assert [s][..0] == [];
  }

  // ---------- the state of one byte ----------

  predicate Untouched(spans: seq<Span>, mem: seq<Byte>, now: seq<Byte>, k: nat)
    requires k < |mem| && k < |now|
  {
    Hits(spans, Bytewise, k) == 0 && Hits(spans, XOR, k) == 0 && mem[k] == now[k]
  }

  /** Byte k is dealt with: unchanged and in no span, changed and in one byte-wise span, or in one XOR
      span with its memory holding the difference. */
  predicate Settled(spans: seq<Span>, mem: seq<Byte>, was: seq<Byte>, now: seq<Byte>, k: nat)
    requires k < |mem| && k < |was| && k < |now|
  {
    var b, x := Hits(spans, Bytewise, k), Hits(spans, XOR, k);
    || (b == 0 && x == 0 && was[k] == now[k] == mem[k])
    || (b == 1 && x == 0 && was[k] != now[k] == mem[k])
    || (b == 0 && x == 1 && mem[k] == Xor(was[k], now[k]))
  }

  predicate SameByte(spans: seq<Span>, mem: seq<Byte>, spans': seq<Span>, mem': seq<Byte>, k: nat)
    requires k < |mem| && k < |mem'|
  {
    && Hits(spans', Bytewise, k) == Hits(spans, Bytewise, k) && Hits(spans', XOR, k) == Hits(spans, XOR, k)
    && mem'[k] == mem[k]
  }

  datatype View = View(spans: seq<Span>, mem: seq<Byte>)

  /** From one view to the next, bytes in [lo, hi) were settled and the others left alone. */
  ghost predicate Advanced(v: View, v': View, was: seq<Byte>, now: seq<Byte>, lo: nat, hi: nat)
    requires |was| <= |now|
  {
    && |v'.mem| == |v.mem| == |now|
    && (forall k: nat :: k < |was| && lo <= k < hi ==> Settled(v'.spans, v'.mem, was, now, k))
    && (forall k: nat :: k < |now| && !(lo <= k < hi && k < |was|) ==> SameByte(v.spans, v.mem, v'.spans, v'.mem, k))
    && (forall s :: s in v'.spans ==> s in v.spans || (!s.op.Ignore? && s.offset + s.length <= |was|))
    && forall s :: s in v.spans ==> s in v'.spans
  }

  lemma AdvanceMore(v: View, v': View, v'': View, was: seq<Byte>, now: seq<Byte>, lo: nat, mid: nat, hi: nat)
    requires |was| <= |now| && lo <= mid <= hi && Advanced(v, v', was, now, lo, mid)
             && Advanced(v', v'', was, now, mid, hi)
    ensures Advanced(v, v'', was, now, lo, hi)
  {
    hide Hits, Xor;
    forall k: nat | k < |was| && lo <= k < hi ensures Settled(v''.spans, v''.mem, was, now, k) {
      if k < mid {
        assert Settled(v'.spans, v'.mem, was, now, k) && SameByte(v'.spans, v'.mem, v''.spans, v''.mem, k);
      }
    }
    forall k: nat | k < |now| && !(lo <= k < hi && k < |was|) ensures SameByte(v.spans, v.mem, v''.spans, v''.mem, k) {
      assert SameByte(v.spans, v.mem, v'.spans, v'.mem, k) && SameByte(v'.spans, v'.mem, v''.spans, v''.mem, k);
    }
  }

  ghost predicate Fresh(v: View, was: seq<Byte>, now: seq<Byte>, lo: nat, hi: nat) {
    && |was| <= |v.mem| == |now|
    && forall k: nat :: k < |was| && lo <= k < hi ==> Untouched(v.spans, v.mem, now, k)
  }

  /** Nothing to do where nothing changed. */
  lemma AdvanceClean(v: View, was: seq<Byte>, now: seq<Byte>, lo: nat, hi: nat)
    requires Fresh(v, was, now, lo, hi) && forall k: nat :: k < |was| && lo <= k < hi ==> was[k] == now[k]
    ensures Advanced(v, v, was, now, lo, hi)
  {
    hide Hits, Xor;
    forall k: nat | k < |was| && lo <= k < hi ensures Settled(v.spans, v.mem, was, now, k) {
      assert Untouched(v.spans, v.mem, now, k);
    }
  }

  lemma StaysFresh(v: View, v': View, was: seq<Byte>, now: seq<Byte>, lo: nat, mid: nat, hi: nat)
    requires |was| <= |now| && lo <= mid && Fresh(v, was, now, lo, hi) && Advanced(v, v', was, now, lo, mid)
    ensures Fresh(v', was, now, mid, hi)
  {
    hide Hits, Xor;
    forall k: nat | k < |was| && mid <= k < hi ensures Untouched(v'.spans, v'.mem, now, k) {
      assert Untouched(v.spans, v.mem, now, k) && SameByte(v.spans, v.mem, v'.spans, v'.mem, k);
    }
  }

  // ---------- one stretch of a region ----------

  function RunSpans(runs: seq<Run>): (r: seq<Span>)
    ensures |r| == |runs|
    ensures forall i :: 0 <= i < |r| && runs[i].start <= runs[i].end ==>
              r[i] == Span(Bytewise, runs[i].start, runs[i].end - runs[i].start)
  {
    seq(|runs|, i requires 0 <= i < |runs| =>
      Span(Bytewise, runs[i].start, if runs[i].start <= runs[i].end then runs[i].end - runs[i].start else 0))
  }

  lemma RunSpansPrefix(runs: seq<Run>)
    requires runs != [] && runs[|runs| - 1].start < runs[|runs| - 1].end
    ensures var n := |runs| - 1;
            && RunSpans(runs)[..n] == RunSpans(runs[..n])
            && RunSpans(runs)[n] == Span(Bytewise, runs[n].start, runs[n].end - runs[n].start)
  {
  }

  lemma NotInBoth(runs: seq<Run>, k: nat)
    requires InOrder(runs) && runs != []
    ensures !(InSome(runs[..|runs| - 1], k) && runs[|runs| - 1].start <= k)
  {
  }

  lemma {:induction false} RunHits(runs: seq<Run>, k: nat)
    requires InOrder(runs) && forall i :: 0 <= i < |runs| ==> runs[i].start < runs[i].end
    ensures Hits(RunSpans(runs), Bytewise, k) == if InSome(runs, k) then 1 else 0
    ensures Hits(RunSpans(runs), XOR, k) == 0
  {
    if runs == [] {
      assert !InSome(runs, k);
    } else {
      var n := |runs| - 1;
      RunHits(runs[..n], k);
      RunSpansPrefix(runs);
      assert runs == runs[..n] + [runs[n]];
      SomeGrows(runs[..n], runs[n], k);
      NotInBoth(runs, k);
      hide InSome, InOrder, RunSpans;
    }
  }

  /** Byte-wise: the differing runs of the stretch become spans. */
  lemma AdvanceRuns(v: View, was: seq<Byte>, now: seq<Byte>, lo: nat, hi: nat, runs: seq<Run>)
    requires lo <= hi <= |was| && Fresh(v, was, now, lo, hi) && IsRuns(runs, was, v.mem, lo, hi)
    ensures Advanced(v, View(v.spans + RunSpans(runs), v.mem), was, now, lo, hi)
  {
    hide Hits, Xor;
    var spans := v.spans + RunSpans(runs);
    forall i | 0 <= i < |runs| ensures lo <= runs[i].start < runs[i].end <= hi {
      assert Maximal(was, v.mem, lo, hi, runs[i]);
    }
    forall k: nat | k < |now|
      ensures Hits(spans, XOR, k) == Hits(v.spans, XOR, k)
      ensures Hits(spans, Bytewise, k) == Hits(v.spans, Bytewise, k) + if InSome(runs, k) then 1 else 0
    {
      HitsConcat(v.spans, RunSpans(runs), Bytewise, k);
      HitsConcat(v.spans, RunSpans(runs), XOR, k);
      RunHits(runs, k);
    }
    forall k: nat | k < |was| && lo <= k < hi ensures Settled(spans, v.mem, was, now, k) {
      assert Untouched(v.spans, v.mem, now, k);
      RunsDecide(runs, was, v.mem, lo, hi, k);
    }
  }

  lemma RunsDecide(runs: seq<Run>, a: seq<Byte>, b: seq<Byte>, lo: nat, hi: nat, k: nat)
    requires hi <= |a| && hi <= |b| && IsRuns(runs, a, b, lo, hi) && lo <= k < hi
    ensures InSome(runs, k) <==> a[k] != b[k]
  {
    if InSome(runs, k) {
      var i :| 0 <= i < |runs| && runs[i].start <= k < runs[i].end;
      assert Maximal(a, b, lo, hi, runs[i]);
    }
  }

  /** XOR: the stretch becomes one span and its memory the difference. */
  lemma AdvanceXor(v: View, mem: seq<Byte>, was: seq<Byte>, now: seq<Byte>, lo: nat, hi: nat)
    requires lo <= hi <= |was| && Fresh(v, was, now, lo, hi) && |mem| == |v.mem|
    requires forall k: nat :: k < |mem| ==> mem[k] == if lo <= k < hi then Xor(was[k], v.mem[k]) else v.mem[k]
    ensures Advanced(v, View(v.spans + [Span(XOR, lo, hi - lo)], mem), was, now, lo, hi)
  {
    hide Hits, Xor;
    var s := Span(XOR, lo, hi - lo);
    forall k: nat | k < |now|
      ensures Hits(v.spans + [s], Bytewise, k) == Hits(v.spans, Bytewise, k)
      ensures Hits(v.spans + [s], XOR, k) == Hits(v.spans, XOR, k) + if lo <= k < hi then 1 else 0
    {
      HitsConcat(v.spans, [s], Bytewise, k);
      HitsConcat(v.spans, [s], XOR, k);
      HitsOne(s, Bytewise, k);
      HitsOne(s, XOR, k);
    }
    forall k: nat | k < |was| && lo <= k < hi ensures Settled(v.spans + [s], mem, was, now, k) {
      assert Untouched(v.spans, v.mem, now, k);
    }
  }

  method XorRange(original: seq<Byte>, updated: array<Byte>, lo: nat, hi: nat)
    requires lo <= hi <= |original| && hi <= updated.Length
    modifies updated
    ensures forall k: nat :: k < updated.Length ==>
              updated[..][k] == if lo <= k < hi then Xor(original[k], old(updated[..])[k]) else old(updated[..])[k]
  {
    hide Xor;
    for i := lo to hi
      invariant forall k: nat :: k < updated.Length ==>
                  updated[k] == if lo <= k < i then Xor(original[k], old(updated[k])) else old(updated[k])
    {
      updated[i] := Xor(original[i], updated[i]);
    }
  }

  /** The part of a region that lies in one dirty page. */
  method DiffStretch(op: Operation, original: seq<Byte>, updated: array<Byte>, ghost now: seq<Byte>, spans: seq<Span>,
                     lo: nat, hi: nat)
    returns (spans': seq<Span>)
    requires !op.Ignore? && lo <= hi <= |original| && Fresh(View(spans, updated[..]), original, now, lo, hi)
    modifies updated
    ensures Advanced(old(View(spans, updated[..])), View(spans', updated[..]), original, now, lo, hi)
  {
    ghost var v := View(spans, updated[..]);
    if op.Bytewise? {
      var runs := DiffArrayRegions(lo, hi, original, updated[..]);
      AdvanceRuns(v, original, now, lo, hi, runs);
      spans' := spans + RunSpans(runs);
    } else {
      XorRange(original, updated, lo, hi);
      AdvanceXor(v, updated[..], original, now, lo, hi);
      spans' := spans + [Span(XOR, lo, hi - lo)];
    }
  }

  // ---------- pages ----------

  function RequiredPagesRoundDown(n: nat, page: nat): nat
    requires page > 0
  {
    n / page
  }

  function RequiredPages(n: nat, page: nat): nat
    requires page > 0
  {
    (n + page - 1) / page
  }

  lemma PageBounds(n: nat, page: nat)
    requires page > 0
    ensures RequiredPagesRoundDown(n, page) * page <= n
    ensures n <= RequiredPages(n, page) * page
    ensures forall p: nat {:trigger p * page} :: p < RequiredPages(n, page) ==> p * page < n
  {
    var q := RequiredPages(n, page);
    assert n + page - 1 == q * page + (n + page - 1) % page;
    forall p: nat | p < q ensures p * page < n {
      assert (p + 1) * page <= q * page by { Monotone(p + 1, q, page); }
      assert (p + 1) * page == p * page + page;
    }
  }

  lemma Monotone(a: nat, b: nat, page: nat)
    requires a <= b
    ensures a * page <= b * page
  {
    assert (b - a) * page >= 0;
    assert b * page == a * page + (b - a) * page;
  }

  /** Every byte that changed lies in a page flagged dirty. */
  ghost predicate Sound(dirty: seq<bool>, was: seq<Byte>, now: seq<Byte>, page: nat)
    requires page > 0
  {
    && |was| <= |now| && RequiredPages(|was|, page) <= |dirty|
    && forall k: nat :: k < |was| && was[k] != now[k] ==> k / page < |dirty| && dirty[k / page]
  }

  // ---------- dirty flags of several threads ----------

  predicate Flagged(dirty: seq<bool>, p: nat) { p < |dirty| && dirty[p] }

  method MergeDirtyPages(dest: seq<bool>, source: seq<bool>) returns (merged: seq<bool>)
    ensures |merged| == Max(|dest|, |source|)
    ensures forall p: nat :: Flagged(merged, p) <==> Flagged(dest, p) || Flagged(source, p)
  {
    merged := dest;
    var overlap := |dest|;
    if |source| > |dest| {
      merged := merged + source[|dest|..];
    } else {
      overlap := |source|;
    }
    for p := 0 to overlap
      invariant |merged| == Max(|dest|, |source|)
      invariant forall q: nat :: q < p ==> merged[q] == (dest[q] || source[q])
      invariant forall q: nat :: p <= q < |merged| ==> merged[q] == if q < |dest| then dest[q] else source[q]
    {
      merged := merged[p := merged[p] || source[p]];
    }
  }

  ghost predicate FlaggedBySome(sources: seq<seq<bool>>, p: nat) {
    exists i :: 0 <= i < |sources| && Flagged(sources[i], p)
  }

  /** A page is flagged once merged iff some thread, or the flags merged into, had it flagged. */
  method MergeManyDirtyPages(dest: seq<bool>, sources: seq<seq<bool>>) returns (merged: seq<bool>)
    ensures forall p: nat :: Flagged(merged, p) <==> Flagged(dest, p) || FlaggedBySome(sources, p)
  {
    merged := dest;
    for i := 0 to |sources|
      invariant forall p: nat :: Flagged(merged, p) <==> Flagged(dest, p) || FlaggedBySome(sources[..i], p)
    {
      forall p: nat
        ensures FlaggedBySome(sources[..i + 1], p) <==> FlaggedBySome(sources[..i], p) || Flagged(sources[i], p)
      {
        var a, b := sources[..i], sources[..i + 1];
        assert b[i] == sources[i] && forall j :: 0 <= j < i ==> b[j] == a[j];
      }
      merged := MergeDirtyPages(merged, sources[i]);
    }
    assert sources[..|sources|] == sources;
  }

  // ---------- one region ----------

  function Min(a: nat, b: nat): nat { if a < b then a else b }

  function Max(a: nat, b: nat): nat { if a < b then b else a }

  /** Where a region stops: its own end, or that of the original data. */
  function RegionEnd(r: Region, size: nat): nat {
    Min(if r.length > 0 then r.offset + r.length else size, size)
  }

  /** How far a region is dealt with once every page before `pageStart` is. */
  function Frontier(lo: nat, hi: nat, pageStart: nat): nat { Max(lo, Min(hi, pageStart)) }

  lemma PagesStep(lo: nat, hi: nat, p: nat, page: nat)
    requires page > 0 && lo <= hi && RequiredPagesRoundDown(lo, page) <= p < RequiredPages(hi, page)
    ensures Frontier(lo, hi, p * page) == Max(lo, p * page) <= Min(hi, (p + 1) * page)
            == Frontier(lo, hi, (p + 1) * page)
  {
    PageBounds(hi, page);
    var d := RequiredPagesRoundDown(lo, page);
    assert lo == d * page + lo % page;
    assert (d + 1) * page == d * page + page;
    Monotone(d + 1, p + 1, page);
    Monotone(p, p + 1, page);
  }

  /** Bytes of pages that are not flagged did not change. */
  lemma CleanPages(dirty: seq<bool>, was: seq<Byte>, now: seq<Byte>, page: nat, k: nat, from: nat, to: nat)
    requires page > 0 && Sound(dirty, was, now, page) && k < |was| && to <= |dirty|
    requires from * page <= k < to * page && forall p :: from <= p < to ==> !dirty[p]
    ensures was[k] == now[k]
  {
    var p := k / page;
    assert k == p * page + k % page;
    assert (p + 1) * page == p * page + page;
    if p < from { Monotone(p + 1, from, page); }
    if p >= to { Monotone(to, p, page); }
  }

  method FirstDirty(dirty: seq<bool>, from: nat, to: nat) returns (p: nat)
    requires from <= to <= |dirty|
    ensures from <= p <= to && (forall q :: from <= q < p ==> !dirty[q]) && (p < to ==> dirty[p])
  {
    p := from;
    while p < to && !dirty[p]
      invariant from <= p <= to && forall q :: from <= q < p ==> !dirty[q]
    {
      p := p + 1;
    }
  }

  /** The part of a region in page p. */
  method DiffPage(op: Operation, lo: nat, hi: nat, p: nat, page: nat, original: seq<Byte>, updated: array<Byte>,
                  ghost now: seq<Byte>, dirty: seq<bool>, spans: seq<Span>)
    returns (spans': seq<Span>)
    requires page > 0 && !op.Ignore? && lo <= hi <= |original| && Sound(dirty, original, now, page)
    requires RequiredPagesRoundDown(lo, page) <= p < RequiredPages(hi, page) <= |dirty|
    requires Fresh(View(spans, updated[..]), original, now, Frontier(lo, hi, p * page), hi)
    modifies updated
    ensures Advanced(old(View(spans, updated[..])), View(spans', updated[..]), original, now,
                     Frontier(lo, hi, p * page), Frontier(lo, hi, (p + 1) * page)) == true
  {
    PagesStep(lo, hi, p, page);
    var startByte, endByte := Max(lo, p * page), Min(hi, (p + 1) * page);
    if !dirty[p] {
      forall k: nat | k < |original| && startByte <= k < endByte ensures original[k] == now[k] {
        CleanPages(dirty, original, now, page, k, p, p + 1);
      }
      AdvanceClean(View(spans, updated[..]), original, now, startByte, endByte);
      return spans;
    }
    spans' := DiffStretch(op, original, updated, now, spans, startByte, endByte);
  }

  lemma SkippedPages(v: View, dirty: seq<bool>, was: seq<Byte>, now: seq<Byte>, page: nat, lo: nat, hi: nat, found: nat)
    requires page > 0 && lo <= hi <= |was| && Sound(dirty, was, now, page) && Fresh(v, was, now, lo, hi)
    requires found <= |dirty| && forall p :: RequiredPagesRoundDown(lo, page) <= p < found ==> !dirty[p]
    ensures Advanced(v, v, was, now, lo, Frontier(lo, hi, found * page))
  {
    PageBounds(lo, page);
    forall k: nat | k < |was| && lo <= k < Frontier(lo, hi, found * page) ensures was[k] == now[k] {
      CleanPages(dirty, was, now, page, k, RequiredPagesRoundDown(lo, page), found);
    }
    AdvanceClean(v, was, now, lo, Frontier(lo, hi, found * page));
  }

  /** SnapshotMergeRegion::addDiffs for the Bytewise, XOR and Ignore operations. */
  method AddDiffs(r: Region, original: seq<Byte>, updated: array<Byte>, ghost now: seq<Byte>, dirty: seq<bool>,
                  page: nat, spans: seq<Span>)
    returns (spans': seq<Span>)
    requires page > 0 && Sound(dirty, original, now, page)
    requires Fresh(View(spans, updated[..]), original, now, r.offset, RegionEnd(r, |original|))
    modifies updated
    ensures r.op.Ignore? ==> spans' == spans && updated[..] == old(updated[..])
    ensures !r.op.Ignore? ==>
              Advanced(old(View(spans, updated[..])), View(spans', updated[..]), original, now, r.offset,
                       RegionEnd(r, |original|)) == true
  {
    ghost var v := View(spans, updated[..]);
    if r.op.Ignore? { return spans; }
    if r.offset > |original| {
      AdvanceClean(v, original, now, r.offset, RegionEnd(r, |original|));
      return spans;
    }
    var lo, hi := r.offset, RegionEnd(r, |original|);
    assert lo <= hi;
    var startPage, endPage := RequiredPagesRoundDown(lo, page), RequiredPages(hi, page);
    spans' := DiffPages(r.op, lo, hi, startPage, endPage, page, original, updated, now, dirty, spans);
  }

  method DiffPages(op: Operation, lo: nat, hi: nat, startPage: nat, endPage: nat, page: nat, original: seq<Byte>,
                   updated: array<Byte>, ghost now: seq<Byte>, dirty: seq<bool>, spans: seq<Span>)
    returns (spans': seq<Span>)
    requires page > 0 && !op.Ignore? && lo <= hi <= |original| && Sound(dirty, original, now, page)
    requires startPage == RequiredPagesRoundDown(lo, page) && endPage == RequiredPages(hi, page)
    requires Fresh(View(spans, updated[..]), original, now, lo, hi)
    modifies updated
    ensures Advanced(old(View(spans, updated[..])), View(spans', updated[..]), original, now, lo, hi) == true
  {
    ghost var v := View(spans, updated[..]);
    PagesInFlags(lo, hi, |original|, page);
    var found := FirstDirty(dirty, Min(startPage, endPage), endPage);
    spans' := spans;
    SkippedPages(v, dirty, original, now, page, lo, hi, found);
    var p := found;
    while p < endPage
      invariant found <= p <= endPage
      invariant Advanced(v, View(spans', updated[..]), original, now, lo, Frontier(lo, hi, p * page)) == true
    {
      ghost var mid := View(spans', updated[..]);
      StaysFresh(v, mid, original, now, lo, Frontier(lo, hi, p * page), hi);
      spans' := DiffPage(op, lo, hi, p, page, original, updated, now, dirty, spans');
      PagesStep(lo, hi, p, page);
      AdvanceMore(v, mid, View(spans', updated[..]), original, now, lo, Frontier(lo, hi, p * page),
                  Frontier(lo, hi, (p + 1) * page));
      p := p + 1;
    }
    PageBounds(hi, page);
    Monotone(endPage, p, page);
    assert Frontier(lo, hi, p * page) == hi;
  }

  lemma PagesMonotone(n: nat, m: nat, page: nat)
    requires page > 0 && n <= m
    ensures RequiredPages(n, page) <= RequiredPages(m, page)
  {
    PageBounds(n, page);
    PageBounds(m, page);
    hide RequiredPages;
    var a := RequiredPages(m, page);
    assert a < RequiredPages(n, page) ==> a * page < n;
  }

  lemma PagesInFlags(lo: nat, hi: nat, size: nat, page: nat)
    requires page > 0 && lo <= hi <= size
    ensures RequiredPages(hi, page) <= RequiredPages(size, page)
    ensures RequiredPagesRoundDown(lo, page) <= RequiredPages(hi, page)
  {
    PagesMonotone(hi, size, page);
    PageBounds(hi, page);
    PageBounds(lo, page);
    hide RequiredPages, RequiredPagesRoundDown;
    var b, d := RequiredPages(hi, page), RequiredPagesRoundDown(lo, page);
    assert (b + 1) * page == b * page + page;
    if b < d { Monotone(b + 1, d, page); }
  }

  // ---------- all regions ----------

  /** The memory a snapshot should get: its own bytes in Ignore regions, the updated ones elsewhere. */
  function Goal(was: seq<Byte>, now: seq<Byte>, regions: seq<Region>): (g: seq<Byte>)
    ensures |g| == |now|
    ensures forall k: nat :: k < |g| ==> g[k] == if k < |was| && Ignored(regions, k, |was|) then was[k] else now[k]
  {
    seq(|now|, k requires 0 <= k < |now| => if k < |was| && Ignored(regions, k, |was|) then was[k] else now[k])
  }

  /** After the first i regions: their bytes are settled, unless ignored, the others untouched, and what
      lies beyond the snapshot is as it was in the first view. */
  ghost predicate Progress(first: View, v: View, was: seq<Byte>, now: seq<Byte>, regions: seq<Region>, i: nat)
    requires i <= |regions|
  {
    && |was| <= |now| == |v.mem| == |first.mem|
    && (forall k: nat :: k < |was| ==>
          if Times(regions[..i], k, |was|) == 0 || Ignored(regions, k, |was|) then Untouched(v.spans, v.mem, now, k)
          else Settled(v.spans, v.mem, was, now, k))
    && (forall k: nat :: |was| <= k < |now| ==> SameByte(first.spans, first.mem, v.spans, v.mem, k))
    && (forall s :: s in v.spans ==> s in first.spans || (!s.op.Ignore? && s.offset + s.length <= |was|))
    && forall s :: s in first.spans ==> s in v.spans
  }

  lemma InExtent(r: Region, k: nat, size: nat)
    requires k < size
    ensures In(r, k, size) <==> r.offset <= k < RegionEnd(r, size)
  {
  }

  /** In a tiling, a byte of region i lies in none before it. */
  lemma NotBefore(regions: seq<Region>, i: nat, k: nat, size: nat)
    requires Tiled(regions, size) && i < |regions| && k < size && In(regions[i], k, size)
    ensures Times(regions[..i], k, size) == 0
  {
    assert regions == regions[..i] + [regions[i]] + regions[i + 1..];
    TimesConcat(regions[..i] + [regions[i]], regions[i + 1..], k, size);
    TimesConcat(regions[..i], [regions[i]], k, size);
    TimesOne(regions[i], k, size);
  }

  lemma RegionIsFresh(first: View, v: View, was: seq<Byte>, now: seq<Byte>, regions: seq<Region>, i: nat)
    requires i < |regions| && Tiled(regions, |was|) && Progress(first, v, was, now, regions, i)
    ensures Fresh(v, was, now, regions[i].offset, RegionEnd(regions[i], |was|)) == true
  {
    hide Hits, Xor, Times;
    forall k: nat | k < |was| && regions[i].offset <= k < RegionEnd(regions[i], |was|)
      ensures Untouched(v.spans, v.mem, now, k)
    {
      InExtent(regions[i], k, |was|);
      NotBefore(regions, i, k, |was|);
    }
  }

  lemma TimesNext(regions: seq<Region>, i: nat, k: nat, size: nat)
    requires i < |regions|
    ensures Times(regions[..i + 1], k, size) == Times(regions[..i], k, size) + if In(regions[i], k, size) then 1 else 0
  {
    assert regions[..i + 1][..i] == regions[..i];
  }

  lemma ProgressIgnored(first: View, v: View, was: seq<Byte>, now: seq<Byte>, regions: seq<Region>, i: nat)
    requires i < |regions| && Progress(first, v, was, now, regions, i) && regions[i].op.Ignore?
    ensures Progress(first, v, was, now, regions, i + 1) == true
  {
    hide Hits, Xor, Times;
    forall k: nat | k < |was|
      ensures if Times(regions[..i + 1], k, |was|) == 0 || Ignored(regions, k, |was|)
              then Untouched(v.spans, v.mem, now, k)
              else Settled(v.spans, v.mem, was, now, k)
    {
      TimesNext(regions, i, k, |was|);
      if In(regions[i], k, |was|) { assert Ignored(regions, k, |was|); }
    }
  }

  lemma ProgressStep(first: View, v: View, v': View, was: seq<Byte>, now: seq<Byte>, regions: seq<Region>, i: nat)
    requires i < |regions| && Progress(first, v, was, now, regions, i) && Tiled(regions, |was|)
             && !regions[i].op.Ignore?
    requires Advanced(v, v', was, now, regions[i].offset, RegionEnd(regions[i], |was|))
    ensures Progress(first, v', was, now, regions, i + 1) == true
  {
    hide Hits, Xor, Times, Ignored, In;
    forall k: nat | k < |was|
      ensures if Times(regions[..i + 1], k, |was|) == 0 || Ignored(regions, k, |was|)
              then Untouched(v'.spans, v'.mem, now, k)
              else Settled(v'.spans, v'.mem, was, now, k)
    {
      InExtent(regions[i], k, |was|);
      TimesNext(regions, i, k, |was|);
      if In(regions[i], k, |was|) {
        IgnoredByItsRegion(regions, i, k, |was|);
      } else {
        assert SameByte(v.spans, v.mem, v'.spans, v'.mem, k);
      }
    }
    forall k: nat | |was| <= k < |now| ensures SameByte(first.spans, first.mem, v'.spans, v'.mem, k) {
      assert SameByte(first.spans, first.mem, v.spans, v.mem, k) && SameByte(v.spans, v.mem, v'.spans, v'.mem, k);
    }
  }

  // ---------- reading the spans ----------

  predicate Within(spans: seq<Span>, n: nat) {
    forall s :: s in spans ==> !s.op.Ignore? && s.offset + s.length <= n
  }

  /** The diffs that spans stand for when the memory they point into is `mem`. */
  function Read(spans: seq<Span>, mem: seq<Byte>): (ds: seq<Diff>)
    requires Within(spans, |mem|)
    ensures |ds| == |spans|
    ensures forall i :: 0 <= i < |ds| ==>
              ds[i] == Diff(spans[i].op, spans[i].offset, mem[spans[i].offset..spans[i].offset + spans[i].length])
  {
    seq(|spans|, i requires 0 <= i < |spans| =>
      Diff(spans[i].op, spans[i].offset, mem[spans[i].offset..spans[i].offset + spans[i].length]))
  }

  lemma ReadOne(s: Span, mem: seq<Byte>, k: nat, x: Byte)
    requires s.offset + s.length <= |mem| && !s.op.Ignore?
    ensures var d := Diff(s.op, s.offset, mem[s.offset..s.offset + s.length]);
            && (Covers(d, k) <==> Reaches(s, k))
            && (Idle(d, k) <==> !Reaches(s, k) || (s.op.XOR? && At(mem, k) == ZERO))
            && (!Idle(d, k) ==> ByteAfter(d, k, x) == if s.op.XOR? then Xor(At(mem, k), x) else At(mem, k))
  {
    hide Xor;
  }

  /** How many of the diffs have an effect on byte k, in terms of the spans that reach it. */
  lemma {:induction false} EffectiveHits(spans: seq<Span>, mem: seq<Byte>, k: nat)
    requires Within(spans, |mem|)
    ensures Effective(Read(spans, mem), k) ==
            Hits(spans, Bytewise, k) + if At(mem, k) == ZERO then 0 else Hits(spans, XOR, k)
  {
    if spans != [] {
      var n := |spans| - 1;
      ReadPrefix(spans, mem);
      EffectiveHits(spans[..n], mem, k);
      ReadOne(spans[n], mem, k, ZERO);
      hide Idle, Covers, At, Reaches, ByteAfter, Read;
      assert Effective(Read(spans, mem), k) ==
             Effective(Read(spans[..n], mem), k) + if Idle(Read(spans, mem)[n], k) then 0 else 1;
    }
  }

  lemma ReadPrefix(spans: seq<Span>, mem: seq<Byte>)
    requires Within(spans, |mem|) && spans != []
    ensures var n := |spans| - 1;
            && Within(spans[..n], |mem|) && Within([spans[n]], |mem|)
            && Read(spans, mem)[..n] == Read(spans[..n], mem)
            && Read(spans, mem)[n]
               == Diff(spans[n].op, spans[n].offset, mem[spans[n].offset..spans[n].offset + spans[n].length])
  {
  }

  lemma {:induction false} HitBySpan(spans: seq<Span>, s: Span, k: nat)
    requires s in spans && Reaches(s, k)
    ensures Hits(spans, s.op, k) > 0
  {
    var n := |spans| - 1;
    if spans[n] != s {
      assert spans == spans[..n] + [spans[n]];
      HitBySpan(spans[..n], s, k);
    }
  }

  /** A diff with an effect on byte k comes from a span that reaches it. */
  lemma DiffWithEffect(spans: seq<Span>, mem: seq<Byte>, k: nat, d: Diff, x: Byte)
    requires Within(spans, |mem|) && d in Read(spans, mem) && !Idle(d, k)
    ensures !d.op.Ignore? && Hits(spans, d.op, k) > 0
    ensures ByteAfter(d, k, x) == if d.op.XOR? then Xor(At(mem, k), x) else At(mem, k)
  {
    hide Hits, Xor;
    var i :| 0 <= i < |spans| && Read(spans, mem)[i] == d;
    ReadOne(spans[i], mem, k, x);
    HitBySpan(spans, spans[i], k);
  }

  /** A settled byte is faithfully described by the diffs. */
  lemma SettledIsFaithful(spans: seq<Span>, mem: seq<Byte>, was: seq<Byte>, now: seq<Byte>, k: nat)
    requires Within(spans, |mem|) && k < |was| <= |now| == |mem| && Settled(spans, mem, was, now, k)
    ensures FaithfulAt(Read(spans, mem), was, now, k)
  {
    var ds := Read(spans, mem);
    EffectiveHits(spans, mem, k);
    XorUndoes(was[k], now[k]);
    XorSwaps(was[k], now[k]);
    hide Hits, Xor, Effective, Idle, Covers, ByteAfter, Reaches;
    forall d | d in ds && !Idle(d, k) ensures ByteAfter(d, k, was[k]) == now[k] {
      DiffWithEffect(spans, mem, k, d, was[k]);
    }
  }

  lemma XorSwaps(x: Byte, y: Byte)
    ensures Xor(Xor(x, y), x) == y
  {
  }

  /** An ignored byte keeps its value: no diff has an effect on it. */
  lemma UntouchedIsFaithful(spans: seq<Span>, mem: seq<Byte>, was: seq<Byte>, now: seq<Byte>, goal: seq<Byte>, k: nat)
    requires Within(spans, |mem|) && k < |was| <= |now| == |mem| == |goal| && Untouched(spans, mem, now, k)
    requires goal[k] == was[k]
    ensures FaithfulAt(Read(spans, mem), was, goal, k)
  {
    var ds := Read(spans, mem);
    EffectiveHits(spans, mem, k);
    forall d | d in ds ensures Idle(d, k) {
      if !Idle(d, k) { DiffWithEffect(spans, mem, k, d, was[k]); }
    }
  }

  /** A byte beyond the snapshot is written by the one span that extends it. */
  lemma ExtensionIsFaithful(spans: seq<Span>, mem: seq<Byte>, was: seq<Byte>, now: seq<Byte>, k: nat)
    requires Within(spans, |mem|) && |was| <= k < |now| == |mem| && mem[k] == now[k]
    requires Hits(spans, Bytewise, k) == 1 && Hits(spans, XOR, k) == 0
    ensures FaithfulAt(Read(spans, mem), was, now, k)
  {
    var ds := Read(spans, mem);
    EffectiveHits(spans, mem, k);
    hide Hits, Xor, Effective, Idle, Covers, ByteAfter, Reaches;
    forall d | d in ds && !Idle(d, k) ensures ByteAfter(d, k, At(was, k)) == now[k] {
      DiffWithEffect(spans, mem, k, d, At(was, k));
    }
  }

  /** The span that covers what the updated memory has beyond the snapshot. */
  function ExtensionSpans(size: nat, updatedSize: nat): seq<Span> {
    if updatedSize > size then [Span(Bytewise, size, updatedSize - size)] else []
  }

  lemma ExtensionHits(size: nat, n: nat, k: nat)
    requires k < n
    ensures Hits(ExtensionSpans(size, n), Bytewise, k) == if k < size then 0 else 1
    ensures Hits(ExtensionSpans(size, n), XOR, k) == 0
  {
    if n > size {
      HitsOne(Span(Bytewise, size, n - size), Bytewise, k);
      HitsOne(Span(Bytewise, size, n - size), XOR, k);
    }
  }

  lemma StartProgress(was: seq<Byte>, now: seq<Byte>, regions: seq<Region>)
    requires |was| <= |now|
    ensures var v := View(ExtensionSpans(|was|, |now|), now);
            Progress(v, v, was, now, regions, 0) == true
  {
    forall k: nat | k < |was| ensures Untouched(ExtensionSpans(|was|, |now|), now, now, k) {
      ExtensionHits(|was|, |now|, k);
    }
  }

  /** Once every region is done, the spans read as diffs that are faithful to the goal. */
  lemma ProgressIsFaithful(v: View, was: seq<Byte>, now: seq<Byte>, regions: seq<Region>)
    requires |was| <= |now| && Tiled(regions, |was|)
    requires Progress(View(ExtensionSpans(|was|, |now|), now), v, was, now, regions, |regions|)
    ensures Within(v.spans, |v.mem|) && Faithful(Read(v.spans, v.mem), was, Goal(was, now, regions))
  {
    assert regions[..|regions|] == regions;
    AllDone(v, was, now, Goal(was, now, regions), View(ExtensionSpans(|was|, |now|), now));
  }

  /** Byte k of the goal is the updated one, which the spans deliver, or the snapshot's, which they leave. */
  ghost predicate DoneAt(v: View, was: seq<Byte>, now: seq<Byte>, goal: seq<Byte>, k: nat)
    requires k < |was| <= |now| == |v.mem| == |goal|
  {
    || (goal[k] == now[k] && Settled(v.spans, v.mem, was, now, k))
    || (goal[k] == was[k] && Untouched(v.spans, v.mem, now, k))
  }

  lemma AllDone(v: View, was: seq<Byte>, now: seq<Byte>, goal: seq<Byte>, first: View)
    requires first == View(ExtensionSpans(|was|, |now|), now) && |was| <= |now| == |v.mem| == |goal|
    requires forall k: nat :: k < |was| ==> DoneAt(v, was, now, goal, k)
    requires forall k: nat :: |was| <= k < |now| ==>
               SameByte(first.spans, first.mem, v.spans, v.mem, k) && goal[k] == now[k]
    requires forall s :: s in v.spans ==> s in first.spans || (!s.op.Ignore? && s.offset + s.length <= |was|)
    requires forall s :: s in first.spans ==> s in v.spans
    ensures Within(v.spans, |v.mem|) && Faithful(Read(v.spans, v.mem), was, goal)
  {
    hide Hits, Xor;
    var ds := Read(v.spans, v.mem);
    forall k: nat | k < |goal| ensures FaithfulAt(ds, was, goal, k) {
      if k < |was| {
        assert DoneAt(v, was, now, goal, k);
        DoneIsFaithful(v, was, now, goal, k);
      } else {
        assert SameByte(first.spans, first.mem, v.spans, v.mem, k);
        ExtensionHits(|was|, |now|, k);
        ExtensionIsFaithful(v.spans, v.mem, was, goal, k);
      }
    }
    SpansFit(v, was, now, first);
  }

  lemma DoneIsFaithful(v: View, was: seq<Byte>, now: seq<Byte>, goal: seq<Byte>, k: nat)
    requires Within(v.spans, |v.mem|) && k < |was| <= |now| == |v.mem| == |goal| && DoneAt(v, was, now, goal, k)
    ensures FaithfulAt(Read(v.spans, v.mem), was, goal, k)
  {
    hide Hits, Xor, Effective, Read, Turns;
    if goal[k] == now[k] && Settled(v.spans, v.mem, was, now, k) {
      SettledIsFaithful(v.spans, v.mem, was, now, k);
    } else {
      UntouchedIsFaithful(v.spans, v.mem, was, now, goal, k);
    }
  }

  lemma SpansFit(v: View, was: seq<Byte>, now: seq<Byte>, first: View)
    requires |was| <= |now| == |v.mem| && first == View(ExtensionSpans(|was|, |now|), now) && Within(v.spans, |v.mem|)
    requires forall s :: s in v.spans ==> s in first.spans || (!s.op.Ignore? && s.offset + s.length <= |was|)
    requires forall s :: s in first.spans ==> s in v.spans
    ensures AllApplicable(Read(v.spans, v.mem), |was|, |now|)
    ensures |was| < |now| ==> exists d :: d in Read(v.spans, v.mem) && End(d) == |now|
  {
    var ds := Read(v.spans, v.mem);
    forall d | d in ds ensures Applicable(d, |was|, |now|) {
      var i :| 0 <= i < |ds| && ds[i] == d;
      assert v.spans[i] in v.spans;
    }
    if |was| < |now| { ReadExtension(v, was, now); }
  }

  lemma ReadExtension(v: View, was: seq<Byte>, now: seq<Byte>)
    requires |was| < |now| == |v.mem| && Within(v.spans, |v.mem|) && Span(Bytewise, |was|, |now| - |was|) in v.spans
    ensures exists d :: d in Read(v.spans, v.mem) && End(d) == |now|
  {
    var i :| 0 <= i < |v.spans| && v.spans[i] == Span(Bytewise, |was|, |now| - |was|);
    var ds := Read(v.spans, v.mem);
    assert ds[i] in ds && End(ds[i]) == |now|;
  }

  // ---------- the snapshot object ----------

  class SnapshotData {
    var data: seq<Byte>
    var maxSize: nat
    var mergeRegions: seq<Region>
    var queuedDiffs: seq<Diff>
    const pageSize: nat

    /** The snapshot can hold what it holds, and pages have a size. */
    ghost predicate Valid()
      reads this
    {
      |data| <= maxSize && pageSize > 0
    }

    constructor (dataIn: seq<Byte>, maxSizeIn: nat, page: nat)
      requires page > 0 && (maxSizeIn == 0 || |dataIn| <= maxSizeIn)
      ensures Valid() && data == dataIn && mergeRegions == [] && queuedDiffs == [] && pageSize == page
      ensures maxSize == if maxSizeIn == 0 then |dataIn| else maxSizeIn
    {
      data, mergeRegions, queuedDiffs, pageSize := dataIn, [], [], page;
      maxSize := if maxSizeIn == 0 then |dataIn| else maxSizeIn;
    }

    method AddMergeRegion(offset: nat, length: nat, op: Operation)
      modifies this`mergeRegions
      ensures mergeRegions == old(mergeRegions) + [Region(offset, length, op)]
    {
      mergeRegions := mergeRegions + [Region(offset, length, op)];
    }

    /** Adds regions so that the merge regions cover every byte exactly once. */
    method FillGapsWithBytewiseRegions(fillType: Operation)
      requires Apart(mergeRegions)
      modifies this`mergeRegions
      ensures Tiled(mergeRegions, |data|) && old(mergeRegions) <= mergeRegions
      ensures forall r :: r in mergeRegions ==> r in old(mergeRegions) || r.op == fillType
    {
      mergeRegions := FillGaps(mergeRegions, |data|, fillType);
    }

    /** Where the updated memory differs from the snapshot. Reading the spans once every region has been
        dealt with gives diffs that carry the snapshot to the memory as it was when this was called, except
        in Ignore regions, where the snapshot keeps its bytes. */
    method DiffWithDirtyRegions(updated: array<Byte>, dirty: seq<bool>) returns (spans: seq<Span>)
      requires Valid() && Sound(dirty, data, updated[..], pageSize)
      requires Tiled(mergeRegions, |data|)
      modifies updated, this`mergeRegions
      ensures data == old(data) && multiset(mergeRegions) == multiset(old(mergeRegions))
      ensures Within(spans, updated.Length)
      ensures Faithful(Read(spans, updated[..]), data, Goal(data, old(updated[..]), old(mergeRegions))) == true
    {
      ghost var now := updated[..];
      spans := [];
      if updated.Length > |data| { spans := spans + [Span(Bytewise, |data|, updated.Length - |data|)]; }
      assert spans == ExtensionSpans(|data|, |now|);
      var flagged := FirstDirty(dirty, 0, |dirty|);
      if flagged == |dirty| {
        NothingChanged(dirty, data, now, mergeRegions, pageSize);
        return;
      }
      if mergeRegions == [] {
        EmptySnapshot(mergeRegions, data, now);
        return;
      }
      var sorted := SortRegions(mergeRegions);
      TiledPermuted(mergeRegions, sorted, |data|);
      SameGoal(mergeRegions, sorted, data, now);
      mergeRegions := sorted;
      spans := DiffRegions(sorted, updated, dirty, spans);
      ProgressIsFaithful(View(spans, updated[..]), data, now, sorted);
    }

    method DiffRegions(regions: seq<Region>, updated: array<Byte>, dirty: seq<bool>, extension: seq<Span>)
      returns (spans: seq<Span>)
      requires Valid() && Sound(dirty, data, updated[..], pageSize)
               && extension == ExtensionSpans(|data|, updated.Length)
      requires Tiled(regions, |data|)
      modifies updated
      ensures Progress(old(View(extension, updated[..])), View(spans, updated[..]), data, old(updated[..]), regions,
                       |regions|) == true
    {
      hide Tiled, Sound, Within, Faithful;
      ghost var now := updated[..];
      ghost var first := View(extension, now);
      SoundSizes(dirty, data, now, pageSize);
      spans := extension;
      StartProgress(data, now, regions);
      for i := 0 to |regions|
        invariant Progress(first, View(spans, updated[..]), data, now, regions, i) == true
      {
        ghost var v := View(spans, updated[..]);
        RegionIsFresh(first, v, data, now, regions, i);
        assert regions[i] in regions;
        spans := AddDiffs(regions[i], data, updated, now, dirty, pageSize, spans);
        if regions[i].op.Ignore? {
          ProgressIgnored(first, v, data, now, regions, i);
        } else {
          ProgressStep(first, v, View(spans, updated[..]), data, now, regions, i);
        }
      }
    }

    method QueueDiffs(diffs: seq<Diff>)
      modifies this`queuedDiffs
      ensures queuedDiffs == old(queuedDiffs) + diffs
    {
      for i := 0 to |diffs|
        invariant queuedDiffs == old(queuedDiffs) + diffs[..i]
      {
        queuedDiffs := queuedDiffs + [diffs[i]];
      }
      assert diffs[..|diffs|] == diffs;
    }

    /** Applies one diff; false stands for the exception thrown when it does not fit. */
    method ApplyDiffToData(d: Diff) returns (ok: bool)
      modifies this`data
      ensures ok <==> ApplyDiff(old(data), maxSize, d).Some?
      ensures data == if ok then ApplyDiff(old(data), maxSize, d).value else old(data)
    {
      var r := ApplyDiff(data, maxSize, d);
      ok := r.Some?;
      if ok { data := r.value; }
    }

    /** Writes the queued diffs in queue order and clears the queue. */
    method WriteQueuedDiffs() returns (count: Option<nat>)
      modifies this`data, this`queuedDiffs
      ensures count.Some? <==> ApplyAll(old(data), maxSize, old(queuedDiffs)).Some?
      ensures count.Some? ==> Some(data) == ApplyAll(old(data), maxSize, old(queuedDiffs))
      ensures count.Some? ==> count.value == |old(queuedDiffs)| && queuedDiffs == []
      ensures count.None? ==> queuedDiffs == old(queuedDiffs)
    {
      for i := 0 to |queuedDiffs|
        invariant queuedDiffs == old(queuedDiffs)
        invariant ApplyAll(old(data), maxSize, queuedDiffs[..i]) == Some(data)
      {
        assert queuedDiffs[..i + 1][..i] == queuedDiffs[..i];
        var ok := ApplyDiffToData(queuedDiffs[i]);
        if !ok {
          FailurePropagates(old(data), maxSize, queuedDiffs, i + 1);
          return None;
        }
      }
      assert queuedDiffs[..|queuedDiffs|] == queuedDiffs;
      count := Some(|queuedDiffs|);
      queuedDiffs := [];
    }
  }

  lemma {:induction false} FailurePropagates(mem: seq<Byte>, maxSize: nat, ds: seq<Diff>, i: nat)
    requires i <= |ds| && ApplyAll(mem, maxSize, ds[..i]).None?
    ensures ApplyAll(mem, maxSize, ds).None?
    decreases |ds|
  {
    if i < |ds| {
      assert ds[..|ds| - 1][..i] == ds[..i];
      FailurePropagates(mem, maxSize, ds[..|ds| - 1], i);
    } else {
      assert ds[..i] == ds;
    }
  }

  lemma SoundSizes(dirty: seq<bool>, was: seq<Byte>, now: seq<Byte>, page: nat)
    requires page > 0 && Sound(dirty, was, now, page)
    ensures |was| <= |now|
  {
  }

  lemma TiledPermuted(a: seq<Region>, b: seq<Region>, size: nat)
    requires Tiled(a, size) && multiset(a) == multiset(b)
    ensures Tiled(b, size) && forall r :: r in b <==> r in a
  {
    forall k: nat | k < size ensures Times(b, k, size) == 1 { TimesPermuted(a, b, k, size); }
    forall r ensures r in b <==> r in a { assert r in b <==> r in multiset(b); assert r in a <==> r in multiset(a); }
  }

  lemma SameGoal(a: seq<Region>, b: seq<Region>, was: seq<Byte>, now: seq<Byte>)
    requires forall r :: r in b <==> r in a
    ensures Goal(was, now, a) == Goal(was, now, b)
  {
    forall k: nat | k < |was| ensures Ignored(a, k, |was|) <==> Ignored(b, k, |was|) {
      IgnoredMembers(a, b, k, |was|);
      IgnoredMembers(b, a, k, |was|);
    }
  }

  lemma IgnoredMembers(a: seq<Region>, b: seq<Region>, k: nat, size: nat)
    requires forall r :: r in a && r.op.Ignore? ==> r in b
    ensures Ignored(a, k, size) ==> Ignored(b, k, size)
  {
    if Ignored(a, k, size) {
      var i :| 0 <= i < |a| && a[i].op.Ignore? && In(a[i], k, size);
      assert a[i] in a && a[i] in b;
    }
  }

  /** No flag is set: the shared part is unchanged, and the extension says the rest. */
  lemma NothingChanged(dirty: seq<bool>, was: seq<Byte>, now: seq<Byte>, regions: seq<Region>, page: nat)
    requires page > 0 && Sound(dirty, was, now, page) && forall p :: 0 <= p < |dirty| ==> !dirty[p]
    ensures var spans := ExtensionSpans(|was|, |now|);
            Within(spans, |now|) && Faithful(Read(spans, now), was, Goal(was, now, regions)) == true
  {
    UnchangedIsFaithful(was, now);
    assert Goal(was, now, regions) == now;
  }

  lemma UnchangedIsFaithful(was: seq<Byte>, now: seq<Byte>)
    requires |was| <= |now| && forall k: nat :: k < |was| ==> was[k] == now[k]
    ensures var spans := ExtensionSpans(|was|, |now|);
            Within(spans, |now|) && Faithful(Read(spans, now), was, now)
  {
    var v := View(ExtensionSpans(|was|, |now|), now);
    forall k: nat | k < |was| ensures DoneAt(v, was, now, now, k) { ExtensionHits(|was|, |now|, k); }
    AllDone(v, was, now, now, v);
  }

  /** Without merge regions, a tiled snapshot is empty. */
  lemma EmptySnapshot(regions: seq<Region>, was: seq<Byte>, now: seq<Byte>)
    requires |was| <= |now| && regions == [] && Tiled(regions, |was|)
    ensures var spans := ExtensionSpans(|was|, |now|);
            Within(spans, |now|) && Faithful(Read(spans, now), was, Goal(was, now, regions)) == true
  {
    assert Times(regions, 0, |was|) == 0;
    UnchangedIsFaithful(was, now);
    assert Goal(was, now, regions) == now;
  }

  // ---------- what the snapshot promises ----------

  /** Where nothing is ignored, the goal is the updated memory. */
  lemma NothingIgnored(was: seq<Byte>, now: seq<Byte>, regions: seq<Region>)
    requires forall r :: r in regions ==> !r.op.Ignore?
    ensures Goal(was, now, regions) == now
  {
    forall k: nat | k < |was| ensures !Ignored(regions, k, |was|) {
      assert forall i :: 0 <= i < |regions| ==> regions[i] in regions;
    }
  }

  /** Filling the gaps, diffing the memory of a thread that ran from the snapshot and writing the diffs
      back gives the snapshot exactly that memory outside Ignore regions, although diffing rewrites it in
      place; inside them it keeps its own. */
  method MergeBack(snap: SnapshotData, updated: array<Byte>, dirty: seq<bool>, fillType: Operation)
    requires snap.Valid() && Sound(dirty, snap.data, updated[..], snap.pageSize) && updated.Length <= snap.maxSize
    requires Apart(snap.mergeRegions) && snap.queuedDiffs == []
    modifies snap, updated
    ensures snap.data == Goal(old(snap.data), old(updated[..]), snap.mergeRegions) && snap.queuedDiffs == []
    ensures !fillType.Ignore? && (forall r :: r in old(snap.mergeRegions) ==> !r.op.Ignore?) ==>
              snap.data == old(updated[..])
    ensures Tiled(snap.mergeRegions, old(|snap.data|))
    ensures forall r :: r in old(snap.mergeRegions) ==> r in snap.mergeRegions
    ensures forall r :: r in snap.mergeRegions ==> r in old(snap.mergeRegions) || r.op == fillType
  {
    hide Faithful, Tiled, Sound, Apart, ApplyAll, Goal;
    snap.FillGapsWithBytewiseRegions(fillType);
    ghost var filled := snap.mergeRegions;
    var spans := snap.DiffWithDirtyRegions(updated, dirty);
    TiledPermuted(filled, snap.mergeRegions, |snap.data|);
    SameGoal(filled, snap.mergeRegions, snap.data, old(updated[..]));
    ghost var was := snap.data;
    if forall r :: r in snap.mergeRegions ==> !r.op.Ignore? {
      NothingIgnored(was, old(updated[..]), snap.mergeRegions);
    }
    var diffs := Read(spans, updated[..]);
    FaithfulRoundTrip(diffs, diffs, snap.data, Goal(snap.data, old(updated[..]), filled), snap.maxSize);
    snap.QueueDiffs(diffs);
    assert [] + diffs == diffs;
    var n := snap.WriteQueuedDiffs();
  }

  // ---------- several hosts ----------

  /** What host i did: it ran from the snapshot to `now`, and its diffs carry the snapshot to the goal. */
  ghost predicate Contributes(h: Contribution, was: seq<Byte>, now: seq<Byte>, regions: seq<Region>) {
    |now| == |was| && h.now == Goal(was, now, regions) && Faithful(h.diffs, was, h.now)
  }

  predicate Differs(was: seq<Byte>, now: seq<Byte>, k: nat) {
    k < |was| && k < |now| && was[k] != now[k]
  }

  predicate NobodyDiffers(was: seq<Byte>, nows: seq<seq<Byte>>, k: nat) {
    forall i :: 0 <= i < |nows| ==> !Differs(was, nows[i], k)
  }

  /** Hosts changed the same byte only where changes are ignored. */
  ghost predicate NoConflict(was: seq<Byte>, nows: seq<seq<Byte>>, regions: seq<Region>) {
    forall i, j, k: nat :: 0 <= i < j < |nows| && Differs(was, nows[i], k) && Differs(was, nows[j], k) ==>
      Ignored(regions, k, |was|)
  }

  ghost predicate AllContribute(hosts: seq<Contribution>, was: seq<Byte>, nows: seq<seq<Byte>>, regions: seq<Region>) {
    |hosts| <= |nows| && forall i :: 0 <= i < |hosts| ==> Contributes(hosts[i], was, nows[i], regions)
  }

  lemma GoalChanges(h: Contribution, was: seq<Byte>, now: seq<Byte>, regions: seq<Region>, k: nat)
    requires Contributes(h, was, now, regions)
    ensures Changes(was, h, k) <==> Differs(was, now, k) && !Ignored(regions, k, |was|)
    ensures Changes(was, h, k) ==> h.now[k] == now[k]
  {
    hide Faithful;
  }

  lemma ContributionsAreSeparate(hosts: seq<Contribution>, was: seq<Byte>, nows: seq<seq<Byte>>, regions: seq<Region>)
    requires AllContribute(hosts, was, nows, regions) && NoConflict(was, nows, regions)
    ensures Separate(was, hosts)
  {
    hide Faithful, Goal, Ignored;
    forall i, j, k: nat | 0 <= i < j < |hosts| && Changes(was, hosts[i], k) ensures !Changes(was, hosts[j], k) {
      GoalChanges(hosts[i], was, nows[i], regions, k);
      GoalChanges(hosts[j], was, nows[j], regions, k);
    }
  }

  /** Each byte that a host changed, outside Ignore regions, has that host's value; all others are as before. */
  ghost predicate MergedFrom(result: seq<Byte>, was: seq<Byte>, nows: seq<seq<Byte>>, regions: seq<Region>) {
    && |result| == |was|
    && (forall i, k: nat :: 0 <= i < |nows| && Differs(was, nows[i], k) && !Ignored(regions, k, |was|) ==>
          result[k] == nows[i][k])
    && forall k: nat :: k < |was| && (Ignored(regions, k, |was|) || NobodyDiffers(was, nows, k)) ==> result[k] == was[k]
  }

  lemma MergedBytes(hosts: seq<Contribution>, was: seq<Byte>, nows: seq<seq<Byte>>, regions: seq<Region>,
                    result: seq<Byte>)
    requires AllContribute(hosts, was, nows, regions) && |hosts| == |nows| && Separate(was, hosts)
    requires |result| == |was| && forall k :: 0 <= k < |was| ==> result[k] == Merged(was, hosts, k)
    ensures MergedFrom(result, was, nows, regions)
  {
    hide Faithful, Goal, Ignored;
    forall i, k: nat | 0 <= i < |nows| && Differs(was, nows[i], k) && !Ignored(regions, k, |was|)
      ensures result[k] == nows[i][k]
    {
      GoalChanges(hosts[i], was, nows[i], regions, k);
      MergedIsTheChange(was, hosts, k, i);
    }
    forall k: nat | k < |was| && (Ignored(regions, k, |was|) || NobodyDiffers(was, nows, k))
      ensures result[k] == was[k]
    {
      forall i | 0 <= i < |hosts| ensures !Changes(was, hosts[i], k) {
        GoalChanges(hosts[i], was, nows[i], regions, k);
      }
      NobodyChanges(was, hosts, k);
    }
  }

  /** Writing all hosts' diffs, in any order, merges their changes. */
  lemma InterleavedMerge(hosts: seq<Contribution>, was: seq<Byte>, nows: seq<seq<Byte>>, regions: seq<Region>,
                         order: seq<Diff>, maxSize: nat)
    requires AllContribute(hosts, was, nows, regions) && |hosts| == |nows| && NoConflict(was, nows, regions)
    requires multiset(order) == multiset(AllDiffs(hosts)) && |was| <= maxSize
    ensures var r := ApplyAll(was, maxSize, order); r.Some? && MergedFrom(r.value, was, nows, regions)
  {
    hide AllContribute, NoConflict, Separate, MergedFrom, ApplyAll;
    ContributionsAreSeparate(hosts, was, nows, regions);
    MergeIsOrderIndependent(was, hosts, order, maxSize);
    MergedBytes(hosts, was, nows, regions, ApplyAll(was, maxSize, order).value);
  }

  lemma NoConflictFilled(was: seq<Byte>, nows: seq<seq<Byte>>, regions: seq<Region>, filled: seq<Region>)
    requires NoConflict(was, nows, regions) && forall r :: r in regions ==> r in filled
    ensures NoConflict(was, nows, filled)
  {
    hide Ignored, Differs;
    forall i, j, k: nat | 0 <= i < j < |nows| && Differs(was, nows[i], k) && Differs(was, nows[j], k)
      ensures Ignored(filled, k, |was|)
    {
      IgnoredMembers(regions, filled, k, |was|);
    }
  }

  ghost function Contents(mems: seq<array<Byte>>): (nows: seq<seq<Byte>>)
    reads mems
    ensures |nows| == |mems| && forall i :: 0 <= i < |mems| ==> nows[i] == mems[i][..]
  {
    seq(|mems|, i requires 0 <= i < |mems| reads mems => mems[i][..])
  }

  /** Several hosts ran from one snapshot. Each memory is diffed against it, the diffs are queued in whatever
      order they arrive and written: the snapshot gets every host's changes. */
  method MergeHosts(snap: SnapshotData, mems: seq<array<Byte>>, dirty: seq<seq<bool>>, fillType: Operation,
                    arrival: seq<Diff> -> seq<Diff>)
    requires snap.Valid() && Apart(snap.mergeRegions) && snap.queuedDiffs == [] && |dirty| == |mems|
    requires forall i, j :: 0 <= i < j < |mems| ==> mems[i] != mems[j]
    requires forall i :: 0 <= i < |mems| ==>
               mems[i].Length == |snap.data| && Sound(dirty[i], snap.data, mems[i][..], snap.pageSize)
    requires NoConflict(snap.data, Contents(mems), snap.mergeRegions)
    requires forall ds :: multiset(arrival(ds)) == multiset(ds)
    modifies snap, mems
    ensures MergedFrom(snap.data, old(snap.data), old(Contents(mems)), snap.mergeRegions) && snap.queuedDiffs == []
    ensures forall r :: r in old(snap.mergeRegions) ==> r in snap.mergeRegions
    ensures forall r :: r in snap.mergeRegions ==> r in old(snap.mergeRegions) || r.op == fillType
  {
    hide Faithful, Tiled, Sound, Apart, ApplyAll, Goal, NoConflict, MergedFrom;
    ghost var was, nows := snap.data, Contents(mems);
    snap.FillGapsWithBytewiseRegions(fillType);
    ghost var filled := snap.mergeRegions;
    NoConflictFilled(was, nows, old(snap.mergeRegions), filled);
    var diffs: seq<Diff> := [];
    ghost var hosts: seq<Contribution> := [];
    for i := 0 to |mems|
      invariant snap.Valid() && snap.data == was && snap.queuedDiffs == [] && snap.maxSize == old(snap.maxSize)
      invariant Tiled(snap.mergeRegions, |was|) && multiset(snap.mergeRegions) == multiset(filled)
      invariant |hosts| == i && AllContribute(hosts, was, nows, filled) && diffs == AllDiffs(hosts)
      invariant forall j :: i <= j < |mems| ==> mems[j][..] == nows[j]
    {
      ghost var before := snap.mergeRegions;
      var spans := snap.DiffWithDirtyRegions(mems[i], dirty[i]);
      TiledPermuted(before, snap.mergeRegions, |was|);
      TiledPermuted(before, filled, |was|);
      SameGoal(before, filled, was, nows[i]);
      var ds := Read(spans, mems[i][..]);
      hosts := hosts + [Contribution(Goal(was, nows[i], filled), ds)];
      assert hosts[..i] + [hosts[i]] == hosts;
      diffs := diffs + ds;
    }
    TiledPermuted(snap.mergeRegions, filled, |was|);
    snap.QueueDiffs(arrival(diffs));
    InterleavedMerge(hosts, was, nows, filled, arrival(diffs), snap.maxSize);
    assert [] + arrival(diffs) == arrival(diffs);
    var n := snap.WriteQueuedDiffs();
    SameMerge(snap.data, was, nows, filled, snap.mergeRegions);
  }

  lemma SameMerge(result: seq<Byte>, was: seq<Byte>, nows: seq<seq<Byte>>, a: seq<Region>, b: seq<Region>)
    requires MergedFrom(result, was, nows, a) && forall r :: r in b <==> r in a
    ensures MergedFrom(result, was, nows, b)
  {
    forall k: nat | k < |was| ensures Ignored(a, k, |was|) <==> Ignored(b, k, |was|) {
      IgnoredMembers(a, b, k, |was|);
      IgnoredMembers(b, a, k, |was|);
    }
    hide Ignored;
  }
}
