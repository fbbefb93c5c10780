/** The program's instruction enum and its derived Borsh encoding
    (program/src/instruction.rs). */
module Instruction {
  import opened Types
  import opened LittleEndian
  import Borsh

  datatype EchoInstruction =
    | Echo(data: seq<byte>)
    | InitializeAuthorizedEcho(bufferSeed: u64, bufferSize: usize)
    | AuthorizedEcho(data: seq<byte>)
    | InitializeVendingMachineEcho(price: u64, bufferSize: usize)
    | VendingMachineEcho(data: seq<byte>)

  /** The Borsh tag of a variant: its position in the declaration. */
  function VariantIndex(i: EchoInstruction): (t: u8)
    ensures t <= 4
  {
    match i
    case Echo(_) => 0
    case InitializeAuthorizedEcho(_, _) => 1
    case AuthorizedEcho(_) => 2
    case InitializeVendingMachineEcho(_, _) => 3
    case VendingMachineEcho(_) => 4
  }

  /** Borsh refuses to write a `Vec` whose length does not fit in a u32. */
  predicate Serializable(i: EchoInstruction)
  {
    (i.Echo? || i.AuthorizedEcho? || i.VendingMachineEcho?) ==> |i.data| < 0x1_0000_0000
  }

  /** `EchoInstruction::serialize`: the tag byte, then the fields in order. */
  function Serialize(i: EchoInstruction): (r: Result<seq<byte>, Borsh.Error>)
    ensures r.Ok? <==> Serializable(i)
    ensures r.Ok? ==> |r.value| >= 1 && r.value[0] == VariantIndex(i)
  {
    match i
    case Echo(data) => WithTag(0, Borsh.WriteVec(data))
    case InitializeAuthorizedEcho(bufferSeed, bufferSize) => Ok([1] + LE64(bufferSeed) + LE64(bufferSize))
    case AuthorizedEcho(data) => WithTag(2, Borsh.WriteVec(data))
    case InitializeVendingMachineEcho(price, bufferSize) => Ok([3] + LE64(price) + LE64(bufferSize))
    case VendingMachineEcho(data) => WithTag(4, Borsh.WriteVec(data))
  }

  function WithTag(tag: byte, fields: Result<seq<byte>, Borsh.Error>): Result<seq<byte>, Borsh.Error>
  {
    match fields
    case Err(e) => Err(e)
    case Ok(bytes) => Ok([tag] + bytes)
  }

  /** The variant with tag 0, 2 or 4, whose only field is `data: Vec<u8>`. */
  function VecVariant(tag: byte, data: seq<byte>): (i: EchoInstruction)
    requires tag == 0 || tag == 2 || tag == 4
    ensures VariantIndex(i) == tag && i.data == data
    ensures Serialize(i) == WithTag(tag, Borsh.WriteVec(data))
  {
    if tag == 0 then Echo(data) else if tag == 2 then AuthorizedEcho(data) else VendingMachineEcho(data)
  }

  /** The variant with tag 1 or 3, whose fields are a u64 and a usize. */
  function U64PairVariant(tag: byte, a: u64, b: u64): (i: EchoInstruction)
    requires tag == 1 || tag == 3
    ensures VariantIndex(i) == tag
    ensures Serialize(i) == Ok([tag] + LE64(a) + LE64(b))
  {
    if tag == 1 then InitializeAuthorizedEcho(a, b) else InitializeVendingMachineEcho(a, b)
  }

  /** The bytes of a `Vec<u8>` variant followed by `rest` are its tag, then its field and `rest`. */
  lemma VecVariantThen(tag: byte, data: seq<byte>, rest: seq<byte>)
    requires tag == 0 || tag == 2 || tag == 4
    requires |data| < 0x1_0000_0000
    ensures Serialize(VecVariant(tag, data)).value + rest == [tag] + (Borsh.WriteVec(data).value + rest)
  {
    var w := Borsh.WriteVec(data).value;
    assert [tag] + w + rest == [tag] + (w + rest);
  }

  /** The fields of a `Vec<u8>` variant, read from `s`. */
  function ReadVecVariant(tag: byte, s: seq<byte>): (r: Result<(EchoInstruction, seq<byte>), Borsh.Error>)
    requires tag == 0 || tag == 2 || tag == 4
    ensures r.Ok? ==> Serialize(r.value.0).Ok? && Serialize(r.value.0).value + r.value.1 == [tag] + s
  {
    match Borsh.ReadVec(s)
    case Err(e) => Err(e)
    case Ok((data, rest)) =>
      var i := VecVariant(tag, data);
      VecVariantThen(tag, data, rest);
      Ok((i, rest))
  }

  /** Two u64s (usize is read as u64) from the front of `s`. */
  function ReadTwoU64(s: seq<byte>): (r: Result<(u64, u64, seq<byte>), Borsh.Error>)
    ensures r.Ok? <==> |s| >= 16
    ensures r.Ok? ==> LE64(r.value.0) + LE64(r.value.1) + r.value.2 == s
  {
    match Borsh.ReadU64(s)
    case Err(e) => Err(e)
    case Ok((a, rest)) =>
      match Borsh.ReadU64(rest)
      case Err(e) => Err(e)
      case Ok((b, rest')) => Ok((a, b, rest'))
  }

  /** The bytes of a two-u64 variant followed by `rest` are its tag, then its fields and `rest`. */
  lemma U64PairVariantThen(tag: byte, a: u64, b: u64, rest: seq<byte>)
    requires tag == 1 || tag == 3
    ensures Serialize(U64PairVariant(tag, a, b)).value + rest == [tag] + (LE64(a) + LE64(b) + rest)
  {
    assert [tag] + LE64(a) + LE64(b) + rest == [tag] + (LE64(a) + LE64(b) + rest);
  }

  /** The fields of a variant with two u64s, read from `s`. */
  function ReadU64PairVariant(tag: byte, s: seq<byte>): (r: Result<(EchoInstruction, seq<byte>), Borsh.Error>)
    requires tag == 1 || tag == 3
    ensures r.Ok? ==> Serialize(r.value.0).Ok? && Serialize(r.value.0).value + r.value.1 == [tag] + s
  {
    match ReadTwoU64(s)
    case Err(e) => Err(e)
    case Ok((a, b, rest)) =>
      var i := U64PairVariant(tag, a, b);
      U64PairVariantThen(tag, a, b, rest);
      Ok((i, rest))
  }

  /** `EchoInstruction::deserialize`: an instruction from the front of `s`, and the bytes after it. */
  function Deserialize(s: seq<byte>): (r: Result<(EchoInstruction, seq<byte>), Borsh.Error>)
    ensures r.Ok? ==> Serialize(r.value.0).Ok? && Serialize(r.value.0).value + r.value.1 == s
  {
    match Borsh.ReadU8(s)
    case Err(e) => Err(e)
    case Ok((tag, rest)) =>
      if tag == 0 || tag == 2 || tag == 4 then ReadVecVariant(tag, rest)
      else if tag == 1 || tag == 3 then ReadU64PairVariant(tag, rest)
      else Err(Borsh.UnexpectedVariant(tag))
  }

  /** `EchoInstruction::try_from_slice`: the whole input must be one instruction. */
  function TryFromSlice(s: seq<byte>): (r: Result<EchoInstruction, Borsh.Error>)
    ensures r.Ok? ==> Serialize(r.value) == Ok(s)
  {
    var d := Deserialize(s);
    assert d.Ok? && d.value.1 == [] ==> Serialize(d.value.0).value + [] == Serialize(d.value.0).value;
    Borsh.Finish(d)
  }

  /** Two u64 fields are determined by their bytes, and so is what follows them. */
  lemma TwoU64Unique(a: u64, b: u64, s: seq<byte>, a': u64, b': u64, s': seq<byte>)
    requires LE64(a) + LE64(b) + s == LE64(a') + LE64(b') + s'
    ensures a == a' && b == b' && s == s'
  {
    var x := LE64(a) + LE64(b) + s;
    assert LE64(a) == x[..8] == LE64(a');
    assert LE64(b) == x[8..16] == LE64(b');
    assert s == x[16..] == s';
  }

  lemma ReadVecVariantOf(tag: byte, data: seq<byte>, rest: seq<byte>)
    requires tag == 0 || tag == 2 || tag == 4
    requires |data| < 0x1_0000_0000
    ensures ReadVecVariant(tag, Borsh.WriteVec(data).value + rest) == Ok((VecVariant(tag, data), rest))
  {
    Borsh.ReadVecWriteVec(data, rest);
  }

  lemma ReadU64PairVariantOf(tag: byte, a: u64, b: u64, rest: seq<byte>)
    requires tag == 1 || tag == 3
    ensures ReadU64PairVariant(tag, LE64(a) + LE64(b) + rest) == Ok((U64PairVariant(tag, a, b), rest))
  {
    var r := ReadTwoU64(LE64(a) + LE64(b) + rest);
    TwoU64Unique(r.value.0, r.value.1, r.value.2, a, b, rest);
  }

  lemma DeserializeVecVariant(tag: byte, data: seq<byte>, rest: seq<byte>)
    requires tag == 0 || tag == 2 || tag == 4
    requires |data| < 0x1_0000_0000
    ensures Deserialize([tag] + Borsh.WriteVec(data).value + rest) == Ok((VecVariant(tag, data), rest))
  {
    var s := [tag] + Borsh.WriteVec(data).value + rest;
    assert s[1..] == Borsh.WriteVec(data).value + rest;
    ReadVecVariantOf(tag, data, rest);
  }

  lemma DeserializeU64PairVariant(tag: byte, a: u64, b: u64, rest: seq<byte>)
    requires tag == 1 || tag == 3
    ensures Deserialize([tag] + LE64(a) + LE64(b) + rest) == Ok((U64PairVariant(tag, a, b), rest))
  {
    var s := [tag] + LE64(a) + LE64(b) + rest;
    assert s[1..] == LE64(a) + LE64(b) + rest;
    ReadU64PairVariantOf(tag, a, b, rest);
  }

  /** Reading an encoded instruction gives it back, and leaves what followed it. */
  lemma DeserializeSerialize(i: EchoInstruction, rest: seq<byte>)
    requires Serializable(i)
    ensures Deserialize(Serialize(i).value + rest) == Ok((i, rest))
  {
    var tag := VariantIndex(i);
    if i.Echo? || i.AuthorizedEcho? || i.VendingMachineEcho? {
      assert i == VecVariant(tag, i.data);
      assert Serialize(i).value == [tag] + Borsh.WriteVec(i.data).value;
      DeserializeVecVariant(tag, i.data, rest);
    } else {
      var a, b := if i.InitializeAuthorizedEcho? then i.bufferSeed else i.price, i.bufferSize;
      assert i == U64PairVariant(tag, a, b);
      DeserializeU64PairVariant(tag, a, b, rest);
    }
  }

  /** Every instruction Borsh can write is read back by `try_from_slice`. */
  lemma RoundTrip(i: EchoInstruction)
    requires Serializable(i)
    ensures TryFromSlice(Serialize(i).value) == Ok(i)
  {
    DeserializeSerialize(i, []);
    assert Serialize(i).value + [] == Serialize(i).value;
  }

  /** `try_from_slice` refuses a complete instruction followed by more bytes. */
  lemma TrailingBytesRejected(i: EchoInstruction, extra: seq<byte>)
    requires Serializable(i) && extra != []
    ensures TryFromSlice(Serialize(i).value + extra) == Err(Borsh.NotAllBytesRead)
  {
    DeserializeSerialize(i, extra);
  }

  /** A first byte above 4 names no variant. */
  lemma UnknownTagRejected(s: seq<byte>)
    requires |s| >= 1 && s[0] > 4
    ensures TryFromSlice(s) == Err(Borsh.UnexpectedVariant(s[0]))
  {
  }

  /** Input that ends before the selected variant's fields do is refused as truncated. */
  lemma TruncatedInputRejected(s: seq<byte>)
    requires |s| >= 1 && s[0] <= 4
    requires (s[0] == 1 || s[0] == 3) ==> |s| < 17
    requires (s[0] == 0 || s[0] == 2 || s[0] == 4) ==> |s| < 5 || |s| < 5 + Decode(s[1..5])
    ensures TryFromSlice(s) == Err(Borsh.UnexpectedEof)
  {
    if (s[0] == 0 || s[0] == 2 || s[0] == 4) && |s| >= 5 {
      var r := Borsh.ReadU32(s[1..]);
      assert s[1..][..4] == s[1..5];
      assert LE32(r.value.0) == s[1..5];
    }
  }

  /** InitializeAuthorizedEcho is the tag 1 and two little-endian u64s: 17 bytes. */
  lemma InitializeAuthorizedEchoLayout(bufferSeed: u64, bufferSize: usize)
    ensures Serialize(InitializeAuthorizedEcho(bufferSeed, bufferSize)) == Ok([1] + LE64(bufferSeed) + LE64(bufferSize))
    ensures |Serialize(InitializeAuthorizedEcho(bufferSeed, bufferSize)).value| == 17
  {
  }

  /** The unit test `serialize_echo`: `Echo { data: vec![1, 2, 16, 64, 128] }`. */
  lemma SerializeEchoExample()
    ensures Serialize(Echo([1, 2, 16, 64, 128])) == Ok([0, 5, 0, 0, 0, 1, 2, 16, 64, 128])
  {
    assert Encode(0, 0) == [];
    assert Encode(0, 1) == [0];
    assert Encode(0, 2) == [0, 0];
    assert Encode(0, 3) == [0, 0, 0];
    assert LE32(5) == Encode(5, 4) == [5, 0, 0, 0];
    var data := [1, 2, 16, 64, 128];
    assert Borsh.WriteVec(data) == Ok([5, 0, 0, 0] + data);
    assert Serialize(Echo(data)) == WithTag(0, Borsh.WriteVec(data));
    assert [0] + ([5, 0, 0, 0] + data) == [0, 5, 0, 0, 0, 1, 2, 16, 64, 128];
  }
}
