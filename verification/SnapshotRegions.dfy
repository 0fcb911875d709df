/** Merge regions of a snapshot, and the fill-in regions that make them cover all of it. */
module SnapshotRegions {
  import opened SnapshotMerge

  datatype Region = Region(offset: nat, length: nat, op: Operation)

  /** A region of length zero reaches to the end of the snapshot. */
  predicate In(r: Region, k: nat, size: nat) {
    r.offset <= k < if r.length > 0 then r.offset + r.length else size
  }

  /** How many regions byte k lies in. */
  function Times(regions: seq<Region>, k: nat, size: nat): nat {
    if regions == [] then 0
    else Times(regions[..|regions| - 1], k, size) + if In(regions[|regions| - 1], k, size) then 1 else 0
  }

  /** Every byte of the snapshot lies in exactly one region. */
  ghost predicate Tiled(regions: seq<Region>, size: nat) {
    forall k: nat :: k < size ==> Times(regions, k, size) == 1
  }

  /** Regions of positive length that do not overlap. */
  ghost predicate Apart(regions: seq<Region>) {
    && (forall r :: r in regions ==> r.length > 0)
    && forall k: nat :: Times(regions, k, 0) <= 1
  }

  predicate Ignored(regions: seq<Region>, k: nat, size: nat) {
    exists i :: 0 <= i < |regions| && regions[i].op.Ignore? && In(regions[i], k, size)
  }

  lemma {:induction false} TimesConcat(a: seq<Region>, b: seq<Region>, k: nat, size: nat)
    ensures Times(a + b, k, size) == Times(a, k, size) + Times(b, k, size)
  {
    if b == [] {
      assert a + b == a;
    } else {
      TimesConcat(a, b[..|b| - 1], k, size);
      assert (a + b)[..|a + b| - 1] == a + b[..|b| - 1];
    }
  }

  lemma TimesOne(r: Region, k: nat, size: nat)
    ensures Times([r], k, size) == if In(r, k, size) then 1 else 0
  {
    assert [r][..0] == [];
  }

  lemma TimesSplit(regions: seq<Region>, j: nat, k: nat, size: nat)
    requires j < |regions|
    ensures Times(regions, k, size) ==
            Times(regions[..j] + regions[j + 1..], k, size) + if In(regions[j], k, size) then 1 else 0
  {
    assert regions == regions[..j] + [regions[j]] + regions[j + 1..];
    TimesConcat(regions[..j], regions[j + 1..], k, size);
    TimesConcat(regions[..j] + [regions[j]], regions[j + 1..], k, size);
    TimesConcat(regions[..j], [regions[j]], k, size);
    TimesOne(regions[j], k, size);
  }

  lemma {:induction false} TimesPermuted(a: seq<Region>, b: seq<Region>, k: nat, size: nat)
    requires multiset(a) == multiset(b)
    ensures Times(a, k, size) == Times(b, k, size)
    decreases |a|
  {
    if a == [] {
      assert |multiset(b)| == 0;
    } else {
      var n := |a| - 1;
      assert a == a[..n] + [a[n]];
      assert a[n] in multiset(b);
      var j :| 0 <= j < |b| && b[j] == a[n];
      assert b == b[..j] + [b[j]] + b[j + 1..];
      assert multiset(b[..j] + b[j + 1..]) == multiset(b) - multiset{b[j]};
      TimesPermuted(a[..n], b[..j] + b[j + 1..], k, size);
      TimesSplit(b, j, k, size);
    }
  }

  /** Two regions that share a byte count it twice. */
  lemma SharedByte(regions: seq<Region>, i: nat, j: nat, k: nat, size: nat)
    requires i < j < |regions| && In(regions[i], k, size) && In(regions[j], k, size)
    ensures Times(regions, k, size) >= 2
  {
    TimesSplit(regions, j, k, size);
    var rest := regions[..j] + regions[j + 1..];
    assert rest[i] == regions[i];
    TimesSplit(rest, i, k, size);
  }

  /** In a tiling, a byte is ignored iff the one region it lies in is. */
  lemma IgnoredByItsRegion(regions: seq<Region>, i: nat, k: nat, size: nat)
    requires Tiled(regions, size) && i < |regions| && k < size && In(regions[i], k, size)
    ensures Ignored(regions, k, size) <==> regions[i].op.Ignore?
  {
    if Ignored(regions, k, size) {
      var j :| 0 <= j < |regions| && regions[j].op.Ignore? && In(regions[j], k, size);
      if i < j { SharedByte(regions, i, j, k, size); }
      if j < i { SharedByte(regions, j, i, k, size); }
    }
  }

  // ---------- sorting ----------

  predicate ByOffset(regions: seq<Region>) {
    forall i, j :: 0 <= i < j < |regions| ==> regions[i].offset <= regions[j].offset
  }

  lemma InsertInOrder(sorted: seq<Region>, i: nat, r: Region)
    requires ByOffset(sorted) && i <= |sorted| && (i == 0 || sorted[i - 1].offset <= r.offset)
    requires forall j :: i <= j < |sorted| ==> sorted[j].offset > r.offset
    ensures var more := sorted[..i] + [r] + sorted[i..];
            ByOffset(more) && multiset(more) == multiset(sorted) + multiset{r}
  {
    var more := sorted[..i] + [r] + sorted[i..];
    forall a, b | 0 <= a < b < |more| ensures more[a].offset <= more[b].offset {
      assert a < i ==> more[a] == sorted[a];
      assert b > i ==> more[b] == sorted[b - 1];
    }
    assert sorted == sorted[..i] + sorted[i..];
  }

  method Insert(sorted: seq<Region>, r: Region) returns (more: seq<Region>)
    requires ByOffset(sorted)
    ensures multiset(more) == multiset(sorted) + multiset{r} && ByOffset(more)
  {
    var i := |sorted|;
    while i > 0 && sorted[i - 1].offset > r.offset
      invariant 0 <= i <= |sorted|
      invariant forall j :: i <= j < |sorted| ==> sorted[j].offset > r.offset
    {
      i := i - 1;
    }
    InsertInOrder(sorted, i, r);
    more := sorted[..i] + [r] + sorted[i..];
  }

  method SortRegions(regions: seq<Region>) returns (sorted: seq<Region>)
    ensures multiset(sorted) == multiset(regions) && ByOffset(sorted)
  {
    sorted := [];
    for n := 0 to |regions|
      invariant multiset(sorted) == multiset(regions[..n]) && ByOffset(sorted)
    {
      assert regions[..n + 1] == regions[..n] + [regions[n]];
      sorted := Insert(sorted, regions[n]);
    }
    assert regions[..|regions|] == regions;
  }

  // ---------- filling gaps ----------

  lemma ApartPermuted(a: seq<Region>, b: seq<Region>)
    requires Apart(a) && multiset(a) == multiset(b)
    ensures Apart(b)
  {
    forall r | r in b ensures r.length > 0 { assert r in multiset(b) && r in multiset(a); }
    forall k: nat ensures Times(b, k, 0) <= 1 { TimesPermuted(a, b, k, 0); }
  }

  /** In offset order, each region ends before the next one starts. */
  lemma ApartInOrder(regions: seq<Region>, i: nat, j: nat)
    requires Apart(regions) && ByOffset(regions) && i < j < |regions|
    ensures regions[i].offset + regions[i].length <= regions[j].offset
  {
    assert regions[i] in regions && regions[j] in regions;
    var k := regions[j].offset;
    assert Times(regions, k, 0) <= 1;
    if In(regions[i], k, 0) { SharedByte(regions, i, j, k, 0); }
  }

  lemma {:induction false} SizeIrrelevant(regions: seq<Region>, k: nat, size: nat)
    requires forall r :: r in regions ==> r.length > 0
    ensures Times(regions, k, size) == Times(regions, k, 0)
  {
    if regions != [] {
      assert regions[|regions| - 1] in regions;
      SizeIrrelevant(regions[..|regions| - 1], k, size);
    }
  }

  /** The first i regions and the gaps so far cover everything below `end`, once. */
  ghost predicate Filled(sorted: seq<Region>, i: nat, gaps: seq<Region>, end: nat)
    requires i <= |sorted|
  {
    && (i > 0 ==> end == sorted[i - 1].offset + sorted[i - 1].length) && (i == 0 ==> end == 0 && gaps == [])
    && (forall r :: r in gaps ==> r.length > 0)
    && forall k: nat :: Times(sorted[..i], k, 0) + Times(gaps, k, 0) == if k < end then 1 else 0
  }

  lemma FillNext(sorted: seq<Region>, i: nat, gaps: seq<Region>, end: nat, op: Operation)
    requires i < |sorted| && Apart(sorted) && ByOffset(sorted) && Filled(sorted, i, gaps, end)
    ensures end <= sorted[i].offset
    ensures var r := sorted[i];
            Filled(sorted, i + 1, if r.offset == end then gaps else gaps + [Region(end, r.offset - end, op)],
                   r.offset + r.length)
  {
    var r := sorted[i];
    if i > 0 { ApartInOrder(sorted, i - 1, i); }
    assert sorted[i] in sorted;
    var g := Region(end, r.offset - end, op);
    var gaps' := if r.offset == end then gaps else gaps + [g];
    assert sorted[..i + 1] == sorted[..i] + [r];
    forall k: nat
      ensures Times(sorted[..i + 1], k, 0) + Times(gaps', k, 0) == if k < r.offset + r.length then 1 else 0
    {
      assert Times(sorted[..i], k, 0) + Times(gaps, k, 0) == if k < end then 1 else 0;
      TimesConcat(sorted[..i], [r], k, 0);
      TimesOne(r, k, 0);
      TimesConcat(gaps, [g], k, 0);
      TimesOne(g, k, 0);
    }
  }

  lemma FillEnds(regions: seq<Region>, sorted: seq<Region>, gaps: seq<Region>, end: nat, size: nat, op: Operation)
    requires Apart(regions) && multiset(sorted) == multiset(regions) && Filled(sorted, |sorted|, gaps, end)
    ensures Tiled(regions + gaps + (if end < size then [Region(end, 0, op)] else []), size)
  {
    var tail := if end < size then [Region(end, 0, op)] else [];
    forall k: nat | k < size ensures Times(regions + gaps + tail, k, size) == 1 {
      assert sorted[..|sorted|] == sorted;
      assert Times(sorted[..|sorted|], k, 0) + Times(gaps, k, 0) == if k < end then 1 else 0;
      TimesPermuted(regions, sorted, k, 0);
      SizeIrrelevant(regions, k, size);
      SizeIrrelevant(gaps, k, size);
      TimesConcat(regions, gaps, k, size);
      TimesConcat(regions + gaps, tail, k, size);
      TimesOne(Region(end, 0, op), k, size);
    }
  }

  /** fillGapsWithBytewiseRegions: the regions to add so that every byte lies in exactly one. */
  method FillGaps(regions: seq<Region>, size: nat, fillType: Operation) returns (filled: seq<Region>)
    requires Apart(regions)
    ensures Tiled(filled, size) && regions <= filled
    ensures forall r :: r in filled ==> r in regions || r.op == fillType
  {
    if regions == [] {
      filled := [Region(0, 0, fillType)];
      forall k: nat | k < size ensures Times(filled, k, size) == 1 { TimesOne(filled[0], k, size); }
      return;
    }
    var sorted := SortRegions(regions);
    ApartPermuted(regions, sorted);
    var gaps: seq<Region>, lastRegionEnd: nat := [], 0;
    for i := 0 to |sorted|
      invariant Filled(sorted, i, gaps, lastRegionEnd) == true
      invariant forall r :: r in gaps ==> r.op == fillType
    {
      var r := sorted[i];
      FillNext(sorted, i, gaps, lastRegionEnd, fillType);
      if r.offset == 0 {
        lastRegionEnd := r.length;
      } else if r.offset == lastRegionEnd {
        lastRegionEnd := lastRegionEnd + r.length;
      } else {
        gaps := gaps + [Region(lastRegionEnd, r.offset - lastRegionEnd, fillType)];
        lastRegionEnd := r.offset + r.length;
      }
    }
    FillEnds(regions, sorted, gaps, lastRegionEnd, size, fillType);
    filled := regions + gaps;
    if lastRegionEnd < size {
      filled := filled + [Region(lastRegionEnd, 0, fillType)];
    } else {
      assert filled + [] == filled;
    }
  }
}
