/** Fixed-width little-endian encoding of unsigned integers, as Borsh and
    Python's `struct.pack("<...")` write them. */
module LittleEndian {
  import opened Types

  /** 256 to the power `n`: the number of values that fit in `n` bytes. */
  function Pow256(n: nat): (r: nat)
    ensures r > 0
  {
    if n == 0 then 1 else 256 * Pow256(n - 1)
  }

  /** The `width` bytes of `x`, least significant first. */
  function Encode(x: nat, width: nat): (r: seq<byte>)
    requires x < Pow256(width)
    ensures |r| == width
    decreases width
  {
    if width == 0 then [] else [x % 256] + Encode(x / 256, width - 1)
  }

  /** The unsigned integer whose little-endian bytes are `s`. */
  function Decode(s: seq<byte>): (r: nat)
    ensures r < Pow256(|s|)
  {
    if s == [] then 0
    else
      var rest := Decode(s[1..]);
      assert s[0] + 256 * rest <= 255 + 256 * (Pow256(|s| - 1) - 1);
      s[0] + 256 * rest
  }

  /** Splitting off the least significant byte of `lo + 256 * hi`. */
  lemma DivMod256(lo: nat, hi: nat)
    requires lo < 256
    ensures (lo + 256 * hi) % 256 == lo && (lo + 256 * hi) / 256 == hi
  {
  }

  lemma {:induction false} DecodeEncode(x: nat, width: nat)
    requires x < Pow256(width)
    ensures Decode(Encode(x, width)) == x
    decreases width
  {
    if width > 0 {
      var e := Encode(x, width);
      assert e[1..] == Encode(x / 256, width - 1);
      DecodeEncode(x / 256, width - 1);
    }
  }

  lemma {:induction false} EncodeDecode(s: seq<byte>)
    ensures Encode(Decode(s), |s|) == s
  {
    if s != [] {
      EncodeDecode(s[1..]);
      DivMod256(s[0], Decode(s[1..]));
    }
  }

  /** `u32::to_le_bytes`, Borsh's u32 and `struct.pack("<I", x)`. */
  function LE32(x: u32): (r: seq<byte>)
    ensures |r| == 4 && Decode(r) == x
  {
    assert Pow256(4) == 0x1_0000_0000;
    DecodeEncode(x, 4);
    Encode(x, 4)
  }

  /** `u64::to_le_bytes`, Borsh's u64 and usize, and `struct.pack("<Q", x)`. */
  function LE64(x: u64): (r: seq<byte>)
    ensures |r| == 8 && Decode(r) == x
  {
    assert Pow256(8) == 0x1_0000_0000_0000_0000;
    DecodeEncode(x, 8);
    Encode(x, 8)
  }
}
