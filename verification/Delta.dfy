/** The binary delta between an old and a new memory: a list of commands written as bytes, whole or page
    by page, optionally compressed. */
module Delta {
  import opened Options
  import opened DeltaBytes

  const DELTA_PROTOCOL_VERSION: byte := 1
  const CMD_TOTAL_SIZE: byte := 0x00
  const CMD_ZSTD: byte := 0x01
  const CMD_OVERWRITE: byte := 0x02
  const CMD_XOR: byte := 0x03
  const CMD_END: byte := 0xFE

  datatype Settings = Settings(usePages: bool, pageSize: nat, xorWithOld: bool, useZstd: bool)

  // ---------- commands ----------

  datatype Command =
    | TotalSize(size: nat)
    | Overwrite(offset: nat, data: seq<byte>)
    | XorWith(offset: nat, data: seq<byte>)

  /** The target grows with zeros, or is cut off. */
  function Resize(mem: seq<byte>, size: nat): (r: seq<byte>)
    ensures |r| == size
    ensures forall k :: 0 <= k < size ==> r[k] == if k < |mem| then mem[k] else 0
  {
    if size <= |mem| then mem[..size] else mem + seq(size - |mem|, _ => 0)
  }

  function XorSeq(a: seq<byte>, b: seq<byte>): (r: seq<byte>)
    requires |a| == |b|
    ensures |r| == |a| && forall i :: 0 <= i < |r| ==> r[i] == Xor(a[i], b[i])
  {
    seq(|a|, i requires 0 <= i < |a| => Xor(a[i], b[i]))
  }

  /** Carries out a command; writing outside the target is an error. */
  function Perform(c: Command, mem: seq<byte>): Option<seq<byte>> {
    match c
    case TotalSize(n) => Some(Resize(mem, n))
    case Overwrite(offset, data) =>
      var end := offset + |data|;
      if end > |mem| then None else Some(mem[..offset] + data + mem[end..])
    case XorWith(offset, data) =>
      var end := offset + |data|;
      if end > |mem| then None else Some(mem[..offset] + XorSeq(data, mem[offset..end]) + mem[end..])
  }

  function PerformAll(cs: seq<Command>, mem: seq<byte>): Option<seq<byte>>
    decreases |cs|
  {
    if cs == [] then Some(mem)
    else
      var r := Perform(cs[0], mem);
      if r.None? then None else PerformAll(cs[1..], r.value)
  }

  function Encode(c: Command): seq<byte> {
    match c
    case TotalSize(n) => [CMD_TOTAL_SIZE] + Le(n, 4)
    case Overwrite(offset, data) => [CMD_OVERWRITE] + Le(offset, 4) + Le(|data|, 4) + data
    case XorWith(offset, data) => [CMD_XOR] + Le(offset, 4) + Le(|data|, 4) + data
  }

  function EncodeAll(cs: seq<Command>): seq<byte> {
    if cs == [] then [] else Encode(cs[0]) + EncodeAll(cs[1..])
  }

  lemma {:induction false} EncodeConcat(a: seq<Command>, b: seq<Command>)
    ensures EncodeAll(a + b) == EncodeAll(a) + EncodeAll(b)
  {
    hide Encode;
    if a == [] {
      assert a + b == b && EncodeAll(a) + EncodeAll(b) == EncodeAll(b);
    } else {
      EncodeConcat(a[1..], b);
      assert (a + b)[1..] == a[1..] + b;
      Assoc(Encode(a[0]), EncodeAll(a[1..]), EncodeAll(b));
    }
  }

  lemma Assoc<T>(a: seq<T>, b: seq<T>, c: seq<T>)
    ensures (a + b) + c == a + (b + c)
  {
  }

  /** Commands whose numbers fit the 32 bits they are written in. */
  predicate Narrow(c: Command) {
    match c
    case TotalSize(n) => n < U32_LIMIT
    case Overwrite(offset, data) => offset < U32_LIMIT && |data| < U32_LIMIT
    case XorWith(offset, data) => offset < U32_LIMIT && |data| < U32_LIMIT
  }

  // ---------- decoding ----------

  type Decompressor = seq<byte> -> Option<seq<byte>>

  /** The decoder from position `at` on. Blocks of compressed commands nest at most `depth` deep. */
  function Exec(delta: seq<byte>, at: nat, mem: seq<byte>, unpack: Decompressor, depth: nat): Option<seq<byte>>
    decreases depth, |delta| - at
  {
    if at >= |delta| then Some(mem)
    else if delta[at] == CMD_TOTAL_SIZE then
      var size := ReadBytesOf(delta, at + 1, 4);
      if size.None? then None else Exec(delta, at + 5, Resize(mem, size.value), unpack, depth)
    else if delta[at] == CMD_OVERWRITE || delta[at] == CMD_XOR then
      var c := ReadBlock(delta, at);
      if c.None? then None
      else
        var r := Perform(c.value, mem);
        if r.None? then None else Exec(delta, at + 9 + |c.value.data|, r.value, unpack, depth)
    else if delta[at] == CMD_ZSTD then
      var inner := ReadCompressed(delta, at, unpack);
      if inner.None? || depth == 0 then None
      else
        var r := ApplyDelta(inner.value.0, mem, unpack, depth - 1);
        if r.None? then None else Exec(delta, at + 17 + inner.value.1, r.value, unpack, depth)
    else if delta[at] == CMD_END then Some(mem)
    else Exec(delta, at + 1, mem, unpack, depth)
  }

  /** An overwrite or XOR block at position `at`. */
  function ReadBlock(delta: seq<byte>, at: nat): (c: Option<Command>)
    requires at < |delta|
    ensures c.Some? ==> !c.value.TotalSize?
  {
    var offset, length := ReadBytesOf(delta, at + 1, 4), ReadBytesOf(delta, at + 5, 4);
    if offset.None? || length.None? || at + 9 + length.value > |delta| then None
    else
      var data := delta[at + 9..at + 9 + length.value];
      Some(if delta[at] == CMD_XOR then XorWith(offset.value, data) else Overwrite(offset.value, data))
  }

  /** The commands in a compressed block, and how long the block was. */
  function ReadCompressed(delta: seq<byte>, at: nat, unpack: Decompressor): Option<(seq<byte>, nat)> {
    var packed, plain := ReadBytesOf(delta, at + 1, 8), ReadBytesOf(delta, at + 9, 8);
    if packed.None? || plain.None? || at + 17 + packed.value > |delta| then None
    else
      var r := unpack(delta[at + 17..at + 17 + packed.value]);
      if r.None? || |r.value| != plain.value then None else Some((r.value, packed.value))
  }

  function ApplyDelta(delta: seq<byte>, mem: seq<byte>, unpack: Decompressor, depth: nat): Option<seq<byte>>
    decreases depth, |delta|, 1
  {
    if |delta| < 2 || delta[0] != DELTA_PROTOCOL_VERSION then None else Exec(delta, 1, mem, unpack, depth)
  }

  /** The decoding loop. */
  method Decode(delta: seq<byte>, target: seq<byte>, unpack: Decompressor, depth: nat) returns (r: Option<seq<byte>>)
    ensures r == ApplyDelta(delta, target, unpack, depth)
    decreases depth
  {
    if |delta| < 2 || delta[0] != DELTA_PROTOCOL_VERSION { return None; }
    var mem, readIdx := target, 1;
    while readIdx < |delta|
      invariant 0 <= readIdx
      invariant Exec(delta, readIdx, mem, unpack, depth) == ApplyDelta(delta, target, unpack, depth)
    {
      var cmd := delta[readIdx];
      if cmd == CMD_TOTAL_SIZE {
        var size := ReadBytesOf(delta, readIdx + 1, 4);
        if size.None? { return None; }
        mem, readIdx := Resize(mem, size.value), readIdx + 5;
      } else if cmd == CMD_OVERWRITE || cmd == CMD_XOR {
        var c := ReadBlock(delta, readIdx);
        if c.None? { return None; }
        var written := Perform(c.value, mem);
        if written.None? { return None; }
        mem, readIdx := written.value, readIdx + 9 + |c.value.data|;
      } else if cmd == CMD_ZSTD {
        var inner := ReadCompressed(delta, readIdx, unpack);
        if inner.None? || depth == 0 { return None; }
        var done := Decode(inner.value.0, mem, unpack, depth - 1);
        if done.None? { return None; }
        mem, readIdx := done.value, readIdx + 17 + inner.value.1;
      } else if cmd == CMD_END {
        return Some(mem);
      } else {
        readIdx := readIdx + 1;
      }
    }
    r := Some(mem);
  }

  // ---------- what is encoded is what is decoded ----------

  lemma ReadLe(pre: seq<byte>, n: nat, width: nat, post: seq<byte>)
    requires width > 0 && FromLe(Le(n, width)) == n
    ensures ReadBytesOf(pre + Le(n, width) + post, |pre|, width) == Some(n)
  {
    assert (pre + Le(n, width) + post)[|pre|..|pre| + width] == Le(n, width);
  }

  lemma Regroup<T>(p: seq<T>, a: seq<T>, b: seq<T>, d: seq<T>, q: seq<T>)
    ensures p + a + b + d + q == p + a + (b + d + q)
    ensures p + a + b + d + q == (p + a) + b + (d + q)
    ensures p + a + b + d + q == (p + a + b) + d + q
  {
  }

  lemma Flatten<T>(p: seq<T>, h: seq<T>, a: seq<T>, b: seq<T>, d: seq<T>, q: seq<T>)
    ensures p + (h + a + b + d) + q == (p + h) + a + b + d + q
  {
  }

  lemma Middle<T>(p: seq<T>, m: seq<T>, q: seq<T>)
    ensures (p + m + q)[|p|..|p| + |m|] == m
  {
  }

  /** The two numbers and the data of a block, each found where it was written. */
  lemma ReadPieces(pre: seq<byte>, offset: nat, data: seq<byte>, post: seq<byte>)
    requires offset < U32_LIMIT && |data| < U32_LIMIT
    ensures var delta := pre + Le(offset, 4) + Le(|data|, 4) + data + post;
            && ReadBytesOf(delta, |pre|, 4) == Some(offset) && ReadBytesOf(delta, |pre| + 4, 4) == Some(|data|)
            && |delta| == |pre| + 8 + |data| + |post| && delta[|pre| + 8..|pre| + 8 + |data|] == data
  {
    hide Le, FromLe, ReadBytesOf;
    var a, b := Le(offset, 4), Le(|data|, 4);
    U32RoundTrip(offset);
    U32RoundTrip(|data|);
    Regroup(pre, a, b, data, post);
    ReadLe(pre, offset, 4, b + data + post);
    ReadLe(pre + a, |data|, 4, data + post);
    Middle(pre + a + b, data, post);
  }

  lemma ReadEncodedBlock(pre: seq<byte>, c: Command, post: seq<byte>)
    requires Narrow(c) && !c.TotalSize?
    ensures ReadBlock(pre + Encode(c) + post, |pre|) == Some(c)
  {
    hide Le, FromLe, ReadBytesOf;
    var head := [if c.XorWith? then CMD_XOR else CMD_OVERWRITE];
    Flatten(pre, head, Le(c.offset, 4), Le(|c.data|, 4), c.data, post);
    ReadPieces(pre + head, c.offset, c.data, post);
    assert (pre + Encode(c) + post)[|pre|] == head[0];
  }

  lemma ExecSizeCommand(pre: seq<byte>, size: nat, post: seq<byte>, mem: seq<byte>, unpack: Decompressor, depth: nat)
    requires size < U32_LIMIT
    ensures var delta := pre + Encode(TotalSize(size)) + post;
            Exec(delta, |pre|, mem, unpack, depth) == Exec(delta, |pre| + 5, Resize(mem, size), unpack, depth)
  {
    hide Le, FromLe, ReadBytesOf, Exec;
    var delta := pre + Encode(TotalSize(size)) + post;
    U32RoundTrip(size);
    ReadLe(pre + [CMD_TOTAL_SIZE], size, 4, post);
    assert delta == (pre + [CMD_TOTAL_SIZE]) + Le(size, 4) + post;
    assert delta[|pre|] == CMD_TOTAL_SIZE;
    ExecSize(delta, |pre|, size, mem, unpack, depth);
  }

  lemma ExecBlockCommand(pre: seq<byte>, c: Command, post: seq<byte>, mem: seq<byte>, unpack: Decompressor, depth: nat)
    requires Narrow(c) && !c.TotalSize?
    ensures var delta, r := pre + Encode(c) + post, Perform(c, mem);
            Exec(delta, |pre|, mem, unpack, depth) ==
            if r.None? then None else Exec(delta, |pre| + 9 + |c.data|, r.value, unpack, depth)
  {
    hide Le, FromLe, ReadBytesOf, Exec, Perform, ReadBlock;
    var delta := pre + Encode(c) + post;
    ReadEncodedBlock(pre, c, post);
    assert delta[|pre|] == Encode(c)[0];
    ExecBlock(delta, |pre|, c, mem, unpack, depth);
  }

  /** One encoded command, wherever it stands, is decoded into its effect. */
  lemma ExecCommand(pre: seq<byte>, c: Command, post: seq<byte>, mem: seq<byte>, unpack: Decompressor, depth: nat)
    requires Narrow(c)
    ensures Exec(pre + Encode(c) + post, |pre|, mem, unpack, depth) ==
            var r := Perform(c, mem);
            if r.None? then None else Exec(pre + Encode(c) + post, |pre + Encode(c)|, r.value, unpack, depth)
  {
    hide Exec, Perform, Le, Narrow;
    if c.TotalSize? {
      assert c.size < U32_LIMIT by { NarrowSize(c); }
      ExecSizeCommand(pre, c.size, post, mem, unpack, depth);
      PerformSize(c.size, mem);
    } else {
      ExecBlockCommand(pre, c, post, mem, unpack, depth);
    }
  }

  lemma NarrowSize(c: Command)
    requires Narrow(c) && c.TotalSize?
    ensures c.size < U32_LIMIT
  {
  }

  lemma PerformSize(size: nat, mem: seq<byte>)
    ensures Perform(TotalSize(size), mem) == Some(Resize(mem, size))
  {
  }

  lemma ExecSize(delta: seq<byte>, at: nat, size: nat, mem: seq<byte>, unpack: Decompressor, depth: nat)
    requires at < |delta| && delta[at] == CMD_TOTAL_SIZE && ReadBytesOf(delta, at + 1, 4) == Some(size)
    ensures Exec(delta, at, mem, unpack, depth) == Exec(delta, at + 5, Resize(mem, size), unpack, depth)
  {
  }

  lemma ExecBlock(delta: seq<byte>, at: nat, c: Command, mem: seq<byte>, unpack: Decompressor, depth: nat)
    requires at < |delta| && (delta[at] == CMD_OVERWRITE || delta[at] == CMD_XOR)
    requires !c.TotalSize? && ReadBlock(delta, at) == Some(c)
    ensures Exec(delta, at, mem, unpack, depth) ==
            var r := Perform(c, mem);
            if r.None? then None else Exec(delta, at + 9 + |c.data|, r.value, unpack, depth)
  {
    hide Perform, ReadBlock;
  }

  lemma {:induction false} ExecCommands(pre: seq<byte>, cs: seq<Command>, mem: seq<byte>, unpack: Decompressor,
                                        depth: nat)
    requires forall c :: c in cs ==> Narrow(c)
    ensures Exec(pre + EncodeAll(cs) + [CMD_END], |pre|, mem, unpack, depth) == PerformAll(cs, mem)
    decreases |cs|
  {
    hide Encode, Perform;
    if cs == [] {
      assert (pre + [] + [CMD_END])[|pre|] == CMD_END;
    } else {
      var first, rest := Encode(cs[0]), EncodeAll(cs[1..]) + [CMD_END];
      var delta := pre + first + rest;
      ExecCommand(pre, cs[0], rest, mem, unpack, depth);
      assert pre + EncodeAll(cs) + [CMD_END] == delta;
      assert pre + first + EncodeAll(cs[1..]) + [CMD_END] == delta;
      var r := Perform(cs[0], mem);
      hide Exec;
      if r.Some? { ExecCommands(pre + first, cs[1..], r.value, unpack, depth); }
    }
  }
}
