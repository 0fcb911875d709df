/** Producing a delta, and when applying it gives the new memory back. */
module DeltaCodec {
  import opened Options
  import opened DeltaBytes
  import opened Delta

  function Min(a: nat, b: nat): nat { if a < b then a else b }

  // ---------- which commands are produced ----------

  /** A stretch present in both memories. */
  function Changed(cfg: Settings, was: seq<byte>, now: seq<byte>, start: nat, length: nat): seq<Command>
    requires start + length <= |was| && start + length <= |now|
  {
    if length == 0 then []
    else if cfg.xorWithOld then [XorWith(start, XorSeq(was[start..start + length], now[start..start + length]))]
    else [Overwrite(start, now[start..start + length])]
  }

  /** A stretch the old memory does not have in full. */
  function Added(now: seq<byte>, start: nat, length: nat): seq<Command>
    requires start + length <= |now|
  {
    if length == 0 then [] else [Overwrite(start, now[start..start + length])]
  }

  predicate AnyNonZero(s: seq<byte>) { exists i :: 0 <= i < |s| && s[i] != 0 }

  /** The page lies wholly in both memories. */
  predicate Shared(was: seq<byte>, now: seq<byte>, start: nat, page: nat) {
    start + page <= |was| && start + page <= |now|
  }

  /** Commands for the page at `start`. A shared page is compared with the first page of the old memory.
      A page beyond the old memory is checked for zeros up to its full length; `beyond` is whatever follows
      the new memory there. */
  function PageCommands(cfg: Settings, was: seq<byte>, now: seq<byte>, beyond: seq<byte>, start: nat): seq<Command>
    requires start < |now| && cfg.pageSize > 0
  {
    var end := start + cfg.pageSize;
    var length := Min(end, |now|) - start;
    if start < |was| && Shared(was, now, start, cfg.pageSize) then
      if now[start..end] != was[..cfg.pageSize] then Changed(cfg, was, now, start, cfg.pageSize) else []
    else if start >= |was| then
      if AnyNonZero((now + beyond)[start..Min(end, |now + beyond|)]) then Added(now, start, length) else []
    else Added(now, start, length)
  }

  function PagesFrom(cfg: Settings, was: seq<byte>, now: seq<byte>, beyond: seq<byte>, p: nat): seq<Command>
    requires cfg.pageSize > 0
    decreases |now| - p * cfg.pageSize
  {
    if p * cfg.pageSize >= |now| then []
    else
      assert (p + 1) * cfg.pageSize == p * cfg.pageSize + cfg.pageSize;
      PageCommands(cfg, was, now, beyond, p * cfg.pageSize) + PagesFrom(cfg, was, now, beyond, p + 1)
  }

  function WholeCommands(cfg: Settings, was: seq<byte>, now: seq<byte>): seq<Command> {
    if |now| >= |was| then Changed(cfg, was, now, 0, |was|) + Added(now, |was|, |now| - |was|)
    else Changed(cfg, was, now, 0, |now|)
  }

  predicate Usable(cfg: Settings) { cfg.usePages ==> cfg.pageSize > 0 }

  function Commands(cfg: Settings, was: seq<byte>, now: seq<byte>, beyond: seq<byte>): seq<Command>
    requires Usable(cfg)
  {
    [TotalSize(|now|)] + if cfg.usePages then PagesFrom(cfg, was, now, beyond, 0) else WholeCommands(cfg, was, now)
  }

  function Plain(cfg: Settings, was: seq<byte>, now: seq<byte>, beyond: seq<byte>): seq<byte>
    requires Usable(cfg)
  {
    [DELTA_PROTOCOL_VERSION] + EncodeAll(Commands(cfg, was, now, beyond)) + [CMD_END]
  }

  function Wrapped(plain: seq<byte>, packed: seq<byte>): seq<byte> {
    [DELTA_PROTOCOL_VERSION, CMD_ZSTD] + Le(|packed|, 8) + Le(|plain|, 8) + packed + [CMD_END]
  }

  function Serialized(cfg: Settings, was: seq<byte>, now: seq<byte>, beyond: seq<byte>,
                      pack: seq<byte> -> seq<byte>): seq<byte>
    requires Usable(cfg)
  {
    var plain := Plain(cfg, was, now, beyond);
    if cfg.useZstd then Wrapped(plain, pack(plain)) else plain
  }

  /** The encoding loop appends what the page commands encode to. */
  method SerializePages(cfg: Settings, was: seq<byte>, now: seq<byte>, beyond: seq<byte>) returns (outb: seq<byte>)
    requires cfg.pageSize > 0
    ensures outb == EncodeAll(PagesFrom(cfg, was, now, beyond, 0))
  {
    hide EncodeAll, PageCommands;
    outb := [];
    var pageStart, p := 0, 0;
    ghost var all := EncodeAll(PagesFrom(cfg, was, now, beyond, 0));
    while pageStart < |now|
      invariant pageStart == p * cfg.pageSize
      invariant outb + EncodeAll(PagesFrom(cfg, was, now, beyond, p)) == all
      decreases |now| - pageStart
    {
      var cs := PageCommands(cfg, was, now, beyond, pageStart);
      EncodeConcat(cs, PagesFrom(cfg, was, now, beyond, p + 1));
      Assoc(outb, EncodeAll(cs), EncodeAll(PagesFrom(cfg, was, now, beyond, p + 1)));
      outb := outb + EncodeAll(cs);
      assert (p + 1) * cfg.pageSize == p * cfg.pageSize + cfg.pageSize;
      pageStart, p := pageStart + cfg.pageSize, p + 1;
    }
    EncodeNothing();
    assert outb + [] == outb;
  }

  lemma EncodeNothing()
    ensures EncodeAll([]) == []
  {
  }

  method SerializeDelta(cfg: Settings, was: seq<byte>, now: seq<byte>, beyond: seq<byte>, pack: seq<byte> -> seq<byte>)
    returns (delta: seq<byte>)
    requires Usable(cfg)
    ensures delta == Serialized(cfg, was, now, beyond, pack)
  {
    var outb := [DELTA_PROTOCOL_VERSION] + Encode(TotalSize(|now|));
    var body;
    if cfg.usePages {
      body := SerializePages(cfg, was, now, beyond);
    } else {
      body := EncodeAll(WholeCommands(cfg, was, now));
    }
    outb := outb + body + [CMD_END];
    PlainParts(cfg, was, now, beyond);
    if !cfg.useZstd { return outb; }
    var packed := pack(outb);
    delta := [DELTA_PROTOCOL_VERSION, CMD_ZSTD] + Le(|packed|, 8) + Le(|outb|, 8) + packed + [CMD_END];
  }

  lemma PlainParts(cfg: Settings, was: seq<byte>, now: seq<byte>, beyond: seq<byte>)
    requires Usable(cfg)
    ensures var body := if cfg.usePages then PagesFrom(cfg, was, now, beyond, 0) else WholeCommands(cfg, was, now);
            Plain(cfg, was, now, beyond)
              == [DELTA_PROTOCOL_VERSION] + Encode(TotalSize(|now|)) + EncodeAll(body) + [CMD_END]
  {
    hide Encode;
    var body := if cfg.usePages then PagesFrom(cfg, was, now, beyond, 0) else WholeCommands(cfg, was, now);
    var cs := Commands(cfg, was, now, beyond);
    assert cs[0] == TotalSize(|now|) && cs[1..] == body;
  }

  // ---------- what they do ----------

  lemma {:induction false} PerformConcat(a: seq<Command>, b: seq<Command>, mem: seq<byte>)
    ensures PerformAll(a + b, mem) == var r := PerformAll(a, mem); if r.None? then None else PerformAll(b, r.value)
    decreases |a|
  {
    hide Perform;
    if a == [] {
      assert a + b == b;
    } else {
      assert (a + b)[1..] == a[1..] + b;
      var r := Perform(a[0], mem);
      if r.Some? { PerformConcat(a[1..], b, r.value); }
    }
  }

  lemma PerformOne(c: Command, mem: seq<byte>)
    ensures PerformAll([c], mem) == Perform(c, mem)
  {
    hide Perform;
    assert [c][1..] == [];
  }

  /** mem with [start, start + |s|) replaced. */
  function Splice(mem: seq<byte>, start: nat, s: seq<byte>): seq<byte>
    requires start + |s| <= |mem|
  {
    mem[..start] + s + mem[start + |s|..]
  }

  lemma AddedWrites(now: seq<byte>, start: nat, length: nat, mem: seq<byte>)
    requires start + length <= |now| == |mem|
    ensures PerformAll(Added(now, start, length), mem) == Some(Splice(mem, start, now[start..start + length]))
  {
    if length == 0 {
      assert Splice(mem, start, []) == mem;
    } else {
      PerformOne(Overwrite(start, now[start..start + length]), mem);
    }
  }

  lemma XorRestores(was: seq<byte>, now: seq<byte>)
    requires |was| == |now|
    ensures XorSeq(XorSeq(was, now), was) == now
  {
    hide Xor;
    forall i | 0 <= i < |now| ensures XorSeq(XorSeq(was, now), was)[i] == now[i] { XorUndo(was[i], now[i]); }
  }

  /** Overwriting, or XOR on top of the old bytes, leaves the new bytes. */
  lemma ChangedWrites(cfg: Settings, was: seq<byte>, now: seq<byte>, start: nat, length: nat, mem: seq<byte>)
    requires start + length <= |was| && start + length <= |now| == |mem|
    requires mem[start..start + length] == was[start..start + length]
    ensures PerformAll(Changed(cfg, was, now, start, length), mem)
            == Some(Splice(mem, start, now[start..start + length]))
  {
    if length == 0 || !cfg.xorWithOld {
      AddedWrites(now, start, length, mem);
    } else {
      hide XorSeq;
      var a, b := was[start..start + length], now[start..start + length];
      PerformOne(XorWith(start, XorSeq(a, b)), mem);
      XorRestores(a, b);
    }
  }

  /** The old memory resized to the new one's length: what the decoder starts from. */
  lemma WholeRestores(cfg: Settings, was: seq<byte>, now: seq<byte>)
    ensures PerformAll(WholeCommands(cfg, was, now), Resize(was, |now|)) == Some(now)
  {
    hide Changed, Added;
    var mem := Resize(was, |now|);
    if |now| >= |was| {
      assert mem[0..|was|] == was[0..|was|];
      ChangedWrites(cfg, was, now, 0, |was|, mem);
      var mid := Splice(mem, 0, now[0..|was|]);
      AddedWrites(now, |was|, |now| - |was|, mid);
      PerformConcat(Changed(cfg, was, now, 0, |was|), Added(now, |was|, |now| - |was|), mem);
      assert Splice(mid, |was|, now[|was|..|now|]) == now;
    } else {
      assert mem[0..|now|] == was[0..|now|];
      ChangedWrites(cfg, was, now, 0, |now|, mem);
      assert Splice(mem, 0, now[0..|now|]) == now;
    }
  }

  // ---------- pages ----------

  /** A shared page that looks like the first old page is taken for unchanged. */
  predicate Skipped(was: seq<byte>, now: seq<byte>, start: nat, page: nat) {
    Shared(was, now, start, page) && start < |was| && now[start..start + page] == was[..page]
  }

  /** What the decoder ends up with for the page at `start`. */
  function PageResult(was: seq<byte>, now: seq<byte>, start: nat, page: nat): (r: seq<byte>)
    requires start < |now| && page > 0
    ensures |r| == Min(start + page, |now|) - start
  {
    if Skipped(was, now, start, page) then was[start..start + page] else now[start..Min(start + page, |now|)]
  }

  lemma ZerosKept(was: seq<byte>, now: seq<byte>, beyond: seq<byte>, start: nat, end: nat, mem: seq<byte>)
    requires |was| <= start < end && start < |now| == |mem| && mem[start..] == Resize(was, |now|)[start..]
    requires !AnyNonZero((now + beyond)[start..Min(end, |now + beyond|)])
    ensures Splice(mem, start, now[start..Min(end, |now|)]) == mem
  {
    var window := (now + beyond)[start..Min(end, |now + beyond|)];
    forall k | start <= k < Min(end, |now|) ensures now[k] == 0 == mem[k] {
      assert window[k - start] == now[k];
      assert mem[start..][k - start] == mem[k] && Resize(was, |now|)[start..][k - start] == 0;
    }
  }

  lemma SameStretch(was: seq<byte>, now: seq<byte>, start: nat, length: nat, mem: seq<byte>)
    requires start + length <= |was| && start + length <= |now| == |mem| && mem[start..] == Resize(was, |now|)[start..]
    ensures mem[start..start + length] == was[start..start + length]
  {
    forall k | start <= k < start + length ensures mem[k] == was[k] {
      assert mem[start..][k - start] == mem[k] && Resize(was, |now|)[start..][k - start] == was[k];
    }
  }

  lemma SharedPageWrites(cfg: Settings, was: seq<byte>, now: seq<byte>, beyond: seq<byte>, start: nat, mem: seq<byte>)
    requires cfg.pageSize > 0 && start < |now| == |mem| && mem[start..] == Resize(was, |now|)[start..]
    requires start < |was| && Shared(was, now, start, cfg.pageSize)
    ensures PerformAll(PageCommands(cfg, was, now, beyond, start), mem) ==
            Some(Splice(mem, start, PageResult(was, now, start, cfg.pageSize)))
  {
    hide Changed, Added, AnyNonZero, Perform, Resize;
    var page := cfg.pageSize;
    SameStretch(was, now, start, page, mem);
    if now[start..start + page] != was[..page] {
      ChangedWrites(cfg, was, now, start, page, mem);
    } else {
      assert Splice(mem, start, was[start..start + page]) == mem;
    }
  }

  lemma PageWrites(cfg: Settings, was: seq<byte>, now: seq<byte>, beyond: seq<byte>, start: nat, mem: seq<byte>)
    requires cfg.pageSize > 0 && start < |now| == |mem| && mem[start..] == Resize(was, |now|)[start..]
    ensures PerformAll(PageCommands(cfg, was, now, beyond, start), mem) ==
            Some(Splice(mem, start, PageResult(was, now, start, cfg.pageSize)))
  {
    hide Changed, Added, AnyNonZero, Perform, Resize, Splice;
    var end := start + cfg.pageSize;
    if start < |was| && Shared(was, now, start, cfg.pageSize) {
      SharedPageWrites(cfg, was, now, beyond, start, mem);
    } else if start >= |was| && !AnyNonZero((now + beyond)[start..Min(end, |now + beyond|)]) {
      ZerosKept(was, now, beyond, start, end, mem);
    } else {
      AddedWrites(now, start, Min(end, |now|) - start, mem);
    }
  }

  /** The decoder's result from page p on. */
  function Patched(was: seq<byte>, now: seq<byte>, page: nat, p: nat): seq<byte>
    requires page > 0
    decreases |now| - p * page
  {
    if p * page >= |now| then []
    else
      assert (p + 1) * page == p * page + page;
      PageResult(was, now, p * page, page) + Patched(was, now, page, p + 1)
  }

  lemma {:induction false} PatchedSize(was: seq<byte>, now: seq<byte>, page: nat, p: nat)
    requires page > 0 && p * page <= |now|
    ensures |Patched(was, now, page, p)| == |now| - p * page
    decreases |now| - p * page
  {
    if p * page < |now| {
      assert (p + 1) * page == p * page + page;
      if (p + 1) * page <= |now| { PatchedSize(was, now, page, p + 1); }
    }
  }

  lemma {:induction false} PagesWrite(cfg: Settings, was: seq<byte>, now: seq<byte>, beyond: seq<byte>, p: nat,
                                      mem: seq<byte>)
    requires cfg.pageSize > 0 && |mem| == |now| && p * cfg.pageSize <= |now|
    requires mem[p * cfg.pageSize..] == Resize(was, |now|)[p * cfg.pageSize..]
    ensures PerformAll(PagesFrom(cfg, was, now, beyond, p), mem) ==
            Some(mem[..p * cfg.pageSize] + Patched(was, now, cfg.pageSize, p))
    decreases |now| - p * cfg.pageSize
  {
    hide PageCommands, Perform, PageResult, Resize;
    var page, start := cfg.pageSize, p * cfg.pageSize;
    if start >= |now| {
      assert mem[..start] + [] == mem;
    } else {
      assert (p + 1) * page == start + page;
      PageWrites(cfg, was, now, beyond, start, mem);
      var part := PageResult(was, now, start, page);
      var mid := Splice(mem, start, part);
      PerformConcat(PageCommands(cfg, was, now, beyond, start), PagesFrom(cfg, was, now, beyond, p + 1), mem);
      if start + page <= |now| {
        SpliceTail(mem, Resize(was, |now|), start, part);
        PagesWrite(cfg, was, now, beyond, p + 1, mid);
        assert mid[..start + page] + Patched(was, now, page, p + 1)
               == mem[..start] + (part + Patched(was, now, page, p + 1));
      } else {
        assert PagesFrom(cfg, was, now, beyond, p + 1) == [] && Patched(was, now, page, p + 1) == [];
        assert mid == mem[..start] + (part + []);
      }
    }
  }

  lemma SpliceTail(mem: seq<byte>, ref: seq<byte>, start: nat, part: seq<byte>)
    requires |mem| == |ref| && start + |part| <= |mem| && mem[start..] == ref[start..]
    ensures Splice(mem, start, part)[start + |part|..] == ref[start + |part|..]
  {
    forall k | start + |part| <= k < |mem| ensures mem[k] == ref[k] {
      assert mem[start..][k - start] == mem[k] && ref[start..][k - start] == ref[k];
    }
  }

  /** A shared page that looks like the first old page but differs from its own. */
  predicate Overlooked(was: seq<byte>, now: seq<byte>, page: nat, p: nat) {
    var start := p * page;
    Skipped(was, now, start, page) && now[start..start + page] != was[start..start + page]
  }

  lemma {:induction false} PatchedIsNew(was: seq<byte>, now: seq<byte>, page: nat, p: nat)
    requires page > 0 && p * page <= |now|
    ensures Patched(was, now, page, p) == now[p * page..] <==> NoneOverlooked(was, now, page, p)
    decreases |now| - p * page
  {
    hide *;
    var start := p * page;
    assert (p + 1) * page == start + page;
    if start + page <= |now| {
      PatchedIsNew(was, now, page, p + 1);
      PatchedSize(was, now, page, p + 1);
      PartIsNew(was, now, page, p);
      PatchedStep(was, now, page, p);
      JoinIsNew(PageResult(was, now, start, page), Patched(was, now, page, p + 1), now, start, page);
    } else {
      PastEnd(was, now, page, p);
      TailIsNew(was, now, page, p);
    }
  }

  lemma TailIsNew(was: seq<byte>, now: seq<byte>, page: nat, p: nat)
    requires page > 0 && p * page <= |now| < p * page + page
    ensures Patched(was, now, page, p) == now[p * page..]
  {
    var start := p * page;
    assert (p + 1) * page == start + page;
    if start < |now| {
      PatchedStep(was, now, page, p);
      assert PageResult(was, now, start, page) + [] == now[start..];
    }
  }

  lemma JoinIsNew(part: seq<byte>, rest: seq<byte>, now: seq<byte>, start: nat, page: nat)
    requires |part| == page && start + page <= |now|
    ensures part + rest == now[start..] <==> part == now[start..start + page] && rest == now[start + page..]
  {
    SplitEqual(part, rest, now[start..start + page], now[start + page..]);
    assert now[start..] == now[start..start + page] + now[start + page..];
  }

  lemma PatchedStep(was: seq<byte>, now: seq<byte>, page: nat, p: nat)
    requires page > 0 && p * page < |now|
    ensures Patched(was, now, page, p) == PageResult(was, now, p * page, page) + Patched(was, now, page, p + 1)
    ensures NoneOverlooked(was, now, page, p) <==>
              !Overlooked(was, now, page, p) && NoneOverlooked(was, now, page, p + 1)
  {
    hide PageResult, Overlooked;
  }

  lemma PartIsNew(was: seq<byte>, now: seq<byte>, page: nat, p: nat)
    requires page > 0 && p * page + page <= |now|
    ensures |PageResult(was, now, p * page, page)| == page
    ensures PageResult(was, now, p * page, page) == now[p * page..p * page + page] <==> !Overlooked(was, now, page, p)
  {
  }

  lemma SplitEqual(a: seq<byte>, b: seq<byte>, c: seq<byte>, d: seq<byte>)
    requires |a| == |c|
    ensures a + b == c + d <==> a == c && b == d
  {
    if a + b == c + d {
      assert a == (a + b)[..|a|] == (c + d)[..|c|] == c;
      assert b == (a + b)[|a|..] == (c + d)[|c|..] == d;
    }
  }

  predicate NoneOverlooked(was: seq<byte>, now: seq<byte>, page: nat, p: nat)
    requires page > 0
    decreases |now| - p * page
  {
    p * page >= |now|
    || (!Overlooked(was, now, page, p)
        && (assert (p + 1) * page == p * page + page; NoneOverlooked(was, now, page, p + 1)))
  }

  lemma PastEnd(was: seq<byte>, now: seq<byte>, page: nat, p: nat)
    requires page > 0 && p * page + page > |now|
    ensures NoneOverlooked(was, now, page, p)
  {
    assert (p + 1) * page == p * page + page;
  }

  lemma {:induction false} NoneOverlookedMeans(was: seq<byte>, now: seq<byte>, page: nat, p: nat)
    requires page > 0
    ensures NoneOverlooked(was, now, page, p) <==> forall q: nat :: p <= q ==> !Overlooked(was, now, page, q)
    decreases |now| - p * page
  {
    hide Overlooked;
    assert (p + 1) * page == p * page + page;
    if p * page < |now| {
      NoneOverlookedMeans(was, now, page, p + 1);
    } else {
      forall q: nat | p <= q ensures !Overlooked(was, now, page, q) { BeyondEnd(was, now, page, p, q); }
    }
  }

  lemma BeyondEnd(was: seq<byte>, now: seq<byte>, page: nat, p: nat, q: nat)
    requires page > 0 && p * page >= |now| && p <= q
    ensures !Overlooked(was, now, page, q)
  {
    assert q * page == p * page + (q - p) * page;
    assert (q - p) * page >= 0;
  }

  // ---------- the round trip ----------

  lemma ChangedNarrow(cfg: Settings, was: seq<byte>, now: seq<byte>, start: nat, length: nat)
    requires |now| < U32_LIMIT && start + length <= |was| && start + length <= |now|
    ensures forall c :: c in Changed(cfg, was, now, start, length) ==> Narrow(c)
    ensures forall c :: c in Added(now, start, length) ==> Narrow(c)
  {
  }

  lemma {:induction false} PagesNarrow(cfg: Settings, was: seq<byte>, now: seq<byte>, beyond: seq<byte>, p: nat)
    requires |now| < U32_LIMIT && cfg.pageSize > 0
    ensures forall c :: c in PagesFrom(cfg, was, now, beyond, p) ==> Narrow(c)
    decreases |now| - p * cfg.pageSize
  {
    if p * cfg.pageSize < |now| {
      assert (p + 1) * cfg.pageSize == p * cfg.pageSize + cfg.pageSize;
      PagesNarrow(cfg, was, now, beyond, p + 1);
      if Shared(was, now, p * cfg.pageSize, cfg.pageSize) {
        ChangedNarrow(cfg, was, now, p * cfg.pageSize, cfg.pageSize);
      }
    }
  }

  lemma AllNarrow(cfg: Settings, was: seq<byte>, now: seq<byte>, beyond: seq<byte>)
    requires |now| < U32_LIMIT && Usable(cfg)
    ensures forall c :: c in Commands(cfg, was, now, beyond) ==> Narrow(c)
  {
    if cfg.usePages {
      PagesNarrow(cfg, was, now, beyond, 0);
    } else {
      ChangedNarrow(cfg, was, now, 0, Min(|was|, |now|));
    }
  }

  /** What the decoder makes of the plain delta: the new memory, except for overlooked pages. */
  function Decoded(cfg: Settings, was: seq<byte>, now: seq<byte>): seq<byte>
    requires Usable(cfg)
  {
    if cfg.usePages then Patched(was, now, cfg.pageSize, 0) else now
  }

  lemma CommandsDecode(cfg: Settings, was: seq<byte>, now: seq<byte>, beyond: seq<byte>)
    requires Usable(cfg)
    ensures PerformAll(Commands(cfg, was, now, beyond), was) == Some(Decoded(cfg, was, now))
  {
    hide PagesFrom, WholeCommands, Patched;
    var mem := Resize(was, |now|);
    var body := if cfg.usePages then PagesFrom(cfg, was, now, beyond, 0) else WholeCommands(cfg, was, now);
    PerformConcat([TotalSize(|now|)], body, was);
    PerformOne(TotalSize(|now|), was);
    if cfg.usePages {
      PagesWrite(cfg, was, now, beyond, 0, mem);
      assert mem[..0] + Patched(was, now, cfg.pageSize, 0) == Patched(was, now, cfg.pageSize, 0);
    } else {
      WholeRestores(cfg, was, now);
    }
  }

  lemma PlainDecodes(cfg: Settings, was: seq<byte>, now: seq<byte>, beyond: seq<byte>, unpack: Decompressor, depth: nat)
    requires Usable(cfg) && |now| < U32_LIMIT
    ensures ApplyDelta(Plain(cfg, was, now, beyond), was, unpack, depth) == Some(Decoded(cfg, was, now))
  {
    AllNarrow(cfg, was, now, beyond);
    CommandsDecode(cfg, was, now, beyond);
    hide Commands, Exec, EncodeAll, PerformAll;
    ExecCommands([DELTA_PROTOCOL_VERSION], Commands(cfg, was, now, beyond), was, unpack, depth);
  }

  lemma WrappedReads(plain: seq<byte>, packed: seq<byte>, unpack: Decompressor)
    requires |plain| < U32_LIMIT * U32_LIMIT && |packed| < U32_LIMIT * U32_LIMIT && unpack(packed) == Some(plain)
    ensures ReadCompressed(Wrapped(plain, packed), 1, unpack) == Some((plain, |packed|))
  {
    hide Le, FromLe;
    var head := [DELTA_PROTOCOL_VERSION, CMD_ZSTD];
    var a, b, delta := Le(|packed|, 8), Le(|plain|, 8), Wrapped(plain, packed);
    U64RoundTrip(|packed|);
    U64RoundTrip(|plain|);
    ReadLe(head, |packed|, 8, b + packed + [CMD_END]);
    assert delta == head + a + (b + packed + [CMD_END]);
    ReadLe(head + a, |plain|, 8, packed + [CMD_END]);
    assert delta == (head + a) + b + (packed + [CMD_END]);
    assert delta[18..18 + |packed|] == packed;
  }

  lemma WrappedDecodes(plain: seq<byte>, packed: seq<byte>, mem: seq<byte>, unpack: Decompressor, depth: nat)
    requires |plain| < U32_LIMIT * U32_LIMIT && |packed| < U32_LIMIT * U32_LIMIT && unpack(packed) == Some(plain)
             && depth > 0
    ensures ApplyDelta(Wrapped(plain, packed), mem, unpack, depth) == ApplyDelta(plain, mem, unpack, depth - 1)
  {
    hide Le, ReadCompressed;
    var delta := Wrapped(plain, packed);
    WrappedReads(plain, packed, unpack);
    assert delta[1] == CMD_ZSTD && delta[18 + |packed|] == CMD_END && |delta| == 19 + |packed|;
    var r := ApplyDelta(plain, mem, unpack, depth - 1);
    if r.Some? { EndStops(delta, 18 + |packed|, r.value, unpack, depth); }
  }

  lemma EndStops(delta: seq<byte>, at: nat, mem: seq<byte>, unpack: Decompressor, depth: nat)
    requires at < |delta| && delta[at] == CMD_END
    ensures Exec(delta, at, mem, unpack, depth) == Some(mem)
  {
  }

  /** Lengths the formats' counters can hold, and a compressor that can be undone. */
  predicate Fits(cfg: Settings, was: seq<byte>, now: seq<byte>, beyond: seq<byte>, pack: seq<byte> -> seq<byte>,
                 unpack: Decompressor) {
    && Usable(cfg) && |now| < U32_LIMIT
    && (cfg.useZstd ==>
          var plain := Plain(cfg, was, now, beyond);
          |plain| < U32_LIMIT * U32_LIMIT && |pack(plain)| < U32_LIMIT * U32_LIMIT
            && unpack(pack(plain)) == Some(plain))
  }

  /** Applying a delta to the old memory gives the new one: always when the memory is encoded whole, and
      page by page exactly when no page shared by both memories equals the first old page while differing
      from its own. */
  lemma DeltaRoundTrip(cfg: Settings, was: seq<byte>, now: seq<byte>, beyond: seq<byte>, pack: seq<byte> -> seq<byte>,
                       unpack: Decompressor, depth: nat)
    requires Fits(cfg, was, now, beyond, pack, unpack) && depth > 0
    ensures ApplyDelta(Serialized(cfg, was, now, beyond, pack), was, unpack, depth) == Some(now)
      <==> !cfg.usePages || forall p: nat :: !Overlooked(was, now, cfg.pageSize, p)
  {
    hide ApplyDelta, Plain, Wrapped;
    PlainDecodes(cfg, was, now, beyond, unpack, depth);
    PlainDecodes(cfg, was, now, beyond, unpack, depth - 1);
    if cfg.useZstd {
      var plain := Plain(cfg, was, now, beyond);
      WrappedDecodes(plain, pack(plain), was, unpack, depth);
    }
    if cfg.usePages {
      PatchedIsNew(was, now, cfg.pageSize, 0);
      NoneOverlookedMeans(was, now, cfg.pageSize, 0);
      assert now[0..] == now;
    }
  }

  /** So a memory of two different pages whose second page becomes a copy of the first is not restored. */
  lemma PageCanBeOverlooked(cfg: Settings, first: seq<byte>, second: seq<byte>, pack: seq<byte> -> seq<byte>,
                            unpack: Decompressor, depth: nat)
    requires cfg.usePages && |first| == |second| == cfg.pageSize && first != second && depth > 0
    requires Fits(cfg, first + second, first + first, [], pack, unpack)
    ensures ApplyDelta(Serialized(cfg, first + second, first + first, [], pack), first + second, unpack, depth)
            != Some(first + first)
  {
    var was, now, page := first + second, first + first, cfg.pageSize;
    assert Overlooked(was, now, page, 1) by {
      assert now[page..page + page] == first == was[..page] && was[page..page + page] == second;
    }
    DeltaRoundTrip(cfg, was, now, [], pack, unpack, depth);
  }
}
