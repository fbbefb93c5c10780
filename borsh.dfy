/** The parts of the Borsh binary format that the program's types use:
    u8, u32, u64 (usize is written as u64), `Vec<u8>` and `try_from_slice`. */
module Borsh {
  import opened Types
  import opened LittleEndian

  /** Why Borsh refused to read or write a value (the `io::Error` kinds it raises). */
  datatype Error =
    | UnexpectedEof              // the input ended inside a field
    | UnexpectedVariant(tag: byte) // an enum tag with no variant
    | NotAllBytesRead            // `try_from_slice` found bytes after the value
    | LengthOverflow             // a `Vec` longer than a u32 length can say

  /** Reads one u8; yields it and the bytes after it. */
  function ReadU8(s: seq<byte>): (r: Result<(u8, seq<byte>), Error>)
    ensures r.Ok? <==> |s| >= 1
    ensures r.Ok? ==> [r.value.0] + r.value.1 == s
  {
    if |s| < 1 then Err(UnexpectedEof) else Ok((s[0], s[1..]))
  }

  /** Reads a little-endian u32; yields it and the bytes after it. */
  function ReadU32(s: seq<byte>): (r: Result<(u32, seq<byte>), Error>)
    ensures r.Ok? <==> |s| >= 4
    ensures r.Ok? ==> LE32(r.value.0) + r.value.1 == s
  {
    if |s| < 4 then Err(UnexpectedEof)
    else
      assert Pow256(4) == 0x1_0000_0000;
      var x := Decode(s[..4]);
      EncodeDecode(s[..4]);
      assert s == s[..4] + s[4..];
      Ok((x, s[4..]))
  }

  /** Reads a little-endian u64; yields it and the bytes after it. */
  function ReadU64(s: seq<byte>): (r: Result<(u64, seq<byte>), Error>)
    ensures r.Ok? <==> |s| >= 8
    ensures r.Ok? ==> LE64(r.value.0) + r.value.1 == s
  {
    if |s| < 8 then Err(UnexpectedEof)
    else
      assert Pow256(8) == 0x1_0000_0000_0000_0000;
      var x := Decode(s[..8]);
      EncodeDecode(s[..8]);
      assert s == s[..8] + s[8..];
      Ok((x, s[8..]))
  }

  /** `Vec<u8>`: a u32 little-endian length, then that many bytes. */
  function WriteVec(data: seq<byte>): (r: Result<seq<byte>, Error>)
    ensures r.Ok? <==> |data| < 0x1_0000_0000
  {
    if |data| >= 0x1_0000_0000 then Err(LengthOverflow) else Ok(LE32(|data|) + data)
  }

  /** Reads a `Vec<u8>`; yields it and the bytes after it. */
  function ReadVec(s: seq<byte>): (r: Result<(seq<byte>, seq<byte>), Error>)
    ensures r.Ok? ==> WriteVec(r.value.0).Ok? && WriteVec(r.value.0).value + r.value.1 == s
  {
    match ReadU32(s)
    case Err(e) => Err(e)
    case Ok((n, rest)) =>
      if |rest| < n then Err(UnexpectedEof)
      else
        assert LE32(n) + rest == s;
        assert rest[..n] + rest[n..] == rest;
        Ok((rest[..n], rest[n..]))
  }

  lemma ReadVecWriteVec(data: seq<byte>, rest: seq<byte>)
    requires |data| < 0x1_0000_0000
    ensures ReadVec(WriteVec(data).value + rest) == Ok((data, rest))
  {
    var s := WriteVec(data).value + rest;
    var n := |data|;
    assert s == LE32(n) + (data + rest);
    var r := ReadU32(s);
    EncodeInjectiveSuffix(r.value.0, n, r.value.1, data + rest);
    assert (data + rest)[..n] == data && (data + rest)[n..] == rest;
  }

  /** A u32 prefix is determined by its bytes, so what follows it is too. */
  lemma EncodeInjectiveSuffix(x: u32, y: u32, s: seq<byte>, t: seq<byte>)
    requires LE32(x) + s == LE32(y) + t
    ensures x == y && s == t
  {
    var a := LE32(x) + s;
    assert LE32(x) == a[..4] && LE32(y) == a[..4];
    assert s == a[4..] && t == a[4..];
  }

  /** `try_from_slice`: a value read from the whole input, with nothing left over. */
  function Finish<T>(r: Result<(T, seq<byte>), Error>): (f: Result<T, Error>)
    ensures f.Ok? <==> r.Ok? && r.value.1 == []
    ensures f.Ok? ==> f.value == r.value.0
    ensures r.Ok? && r.value.1 != [] ==> f == Err(NotAllBytesRead)
  {
    match r
    case Err(e) => Err(e)
    case Ok((v, rest)) => if rest == [] then Ok(v) else Err(NotAllBytesRead)
  }
}
