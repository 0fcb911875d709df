/** Bytes as numbers: exclusive or, and little-endian integers. */
module DeltaBytes {
  import opened Options

  type byte = x: int | 0 <= x < 256

  function Pow(b: nat, n: nat): nat { if n == 0 then 1 else b * Pow(b, n - 1) }

  /** Exclusive or of the lowest n bits. */
  function XorBits(x: nat, y: nat, n: nat): (r: nat)
    ensures r < Pow(2, n)
  {
    if n == 0 then 0 else (if x % 2 == y % 2 then 0 else 1) + 2 * XorBits(x / 2, y / 2, n - 1)
  }

  lemma {:induction false} XorBitsUndo(x: nat, y: nat, n: nat)
    requires y < Pow(2, n)
    ensures XorBits(XorBits(x, y, n), x, n) == y
  {
    if n > 0 {
      XorBitsUndo(x / 2, y / 2, n - 1);
      var bit := if x % 2 == y % 2 then 0 else 1;
      var r := XorBits(x / 2, y / 2, n - 1);
      assert (bit + 2 * r) % 2 == bit && (bit + 2 * r) / 2 == r;
    }
  }

  function Xor(x: byte, y: byte): byte {
    assert Pow(2, 8) == 256;
    XorBits(x, y, 8)
  }

  lemma XorUndo(x: byte, y: byte)
    ensures Xor(Xor(x, y), x) == y
  {
    assert Pow(2, 8) == 256;
    XorBitsUndo(x, y, 8);
  }

  // ---------- little-endian integers ----------

  /** The lowest `width` bytes of n, lowest first. */
  function Le(n: nat, width: nat): (s: seq<byte>)
    ensures |s| == width
  {
    if width == 0 then [] else [n % 256] + Le(n / 256, width - 1)
  }

  function FromLe(s: seq<byte>): nat {
    if s == [] then 0 else s[0] + 256 * FromLe(s[1..])
  }

  lemma {:induction false} LeRoundTrip(n: nat, width: nat)
    requires n < Pow(256, width)
    ensures FromLe(Le(n, width)) == n
  {
    if width > 0 {
      assert n / 256 < Pow(256, width - 1);
      LeRoundTrip(n / 256, width - 1);
      assert Le(n, width)[1..] == Le(n / 256, width - 1);
    }
  }

  const U32_LIMIT: nat := 0x1_0000_0000

  lemma U32RoundTrip(n: nat)
    requires n < U32_LIMIT
    ensures FromLe(Le(n, 4)) == n
  {
    assert Pow(256, 1) == 256 && Pow(256, 2) == 65536 && Pow(256, 3) == 16777216 && Pow(256, 4) == U32_LIMIT;
    LeRoundTrip(n, 4);
  }

  lemma U64RoundTrip(n: nat)
    requires n < U32_LIMIT * U32_LIMIT
    ensures FromLe(Le(n, 8)) == n
  {
    assert Pow(256, 1) == 256 && Pow(256, 2) == 65536 && Pow(256, 3) == 16777216 && Pow(256, 4) == U32_LIMIT;
    assert Pow(256, 5) == 256 * U32_LIMIT && Pow(256, 6) == 65536 * U32_LIMIT;
    assert Pow(256, 7) == 16777216 * U32_LIMIT && Pow(256, 8) == U32_LIMIT * U32_LIMIT;
    LeRoundTrip(n, 8);
  }

  /** Reads an integer, refusing to go past the end. */
  function ReadBytesOf(bytes: seq<byte>, offset: nat, width: nat): Option<nat> {
    if offset >= |bytes| || offset + width > |bytes| then None else Some(FromLe(bytes[offset..offset + width]))
  }
}
