/** The Python client's instruction builders (client/instructions.py): each
    returns a `TransactionInstruction` whose data is built with `struct.pack`
    and whose account list follows the processor's positional order. */
module Client {
  import opened Types
  import opened LittleEndian
  import opened Solana
  import Instruction
  import Borsh

  /** `__InstructionId`: one value per `EchoInstruction` variant. */
  datatype InstructionId =
    | Echo
    | InitializeAuthorizedEcho
    | AuthorizedEcho
    | InitializeVendingMachineEcho
    | VendingMachineEcho
  {
    function Value(): (v: nat)
      ensures v <= 4
    {
      match this
      case Echo => 0
      case InitializeAuthorizedEcho => 1
      case AuthorizedEcho => 2
      case InitializeVendingMachineEcho => 3
      case VendingMachineEcho => 4
    }
  }

  /** The client's id for the variant of an instruction. */
  function IdOf(i: Instruction.EchoInstruction): InstructionId
  {
    match i
    case Echo(_) => Echo
    case InitializeAuthorizedEcho(_, _) => InitializeAuthorizedEcho
    case AuthorizedEcho(_) => AuthorizedEcho
    case InitializeVendingMachineEcho(_, _) => InitializeVendingMachineEcho
    case VendingMachineEcho(_) => VendingMachineEcho
  }

  /** The client's ids are the program's Borsh variant tags. */
  lemma IdsAreVariantTags(i: Instruction.EchoInstruction)
    ensures IdOf(i).Value() == Instruction.VariantIndex(i)
  {
  }

  /** `SYS_PROGRAM_ID`, "11111111111111111111111111111111" in base58: 32 zero bytes. */
  const SYS_PROGRAM_ID: Pubkey := Zeros(32)

  datatype AccountMeta = AccountMeta(pubkey: Pubkey, isSigner: bool, isWritable: bool)

  datatype TransactionInstruction = TransactionInstruction(keys: seq<AccountMeta>, programId: Pubkey, data: seq<byte>)

  /** Python's `struct.error`, raised by `struct.pack` for a value out of range. */
  datatype StructError = StructError

  /** `struct.pack("<B" | "<I" | "<Q", x)` for a width of 1, 4 or 8 bytes. */
  function Pack(x: int, width: nat): (r: Result<seq<byte>, StructError>)
    ensures r.Ok? <==> 0 <= x < Pow256(width)
    ensures r.Ok? ==> |r.value| == width && Decode(r.value) == x
  {
    if 0 <= x < Pow256(width) then
      DecodeEncode(x, width);
      Ok(Encode(x, width))
    else Err(StructError)
  }

  /** The tag byte `struct.pack("<B", id.value)`. */
  function Tag(id: InstructionId): (r: seq<byte>)
    ensures r == [id.Value()]
  {
    assert Encode(id.Value(), 1) == [id.Value()];
    Pack(id.Value(), 1).value
  }

  /** `echo(program_id, buffer, data)`: the tag followed directly by `data`. */
  function EchoIx(programId: Pubkey, buffer: Pubkey, data: seq<byte>): (r: TransactionInstruction)
    ensures r.keys == [AccountMeta(buffer, false, true)] && r.programId == programId
    ensures r.data == [Instruction.VariantIndex(Instruction.Echo(data))] + data
  {
    TransactionInstruction([AccountMeta(buffer, false, true)], programId, Tag(Echo) + data)
  }

  /** The program never reads the bytes built by `echo` as `Echo { data }`:
      Borsh expects a u32 length between the tag and the bytes. */
  lemma EchoIxNeverDecodesToEcho(programId: Pubkey, buffer: Pubkey, data: seq<byte>)
    ensures Instruction.TryFromSlice(EchoIx(programId, buffer, data).data) != Ok(Instruction.Echo(data))
  {
  }

  /** What the program makes of the bytes built by `echo`: it takes the first
      four bytes of `data` as a length, so the instruction is accepted exactly
      when they happen to encode the length of the rest, and the echoed data is
      then that rest. */
  lemma {:induction false} EchoIxMisread(programId: Pubkey, buffer: Pubkey, data: seq<byte>)
    ensures var r := Instruction.TryFromSlice(EchoIx(programId, buffer, data).data);
            r.Ok? <==> |data| >= 4 && Decode(data[..4]) == |data| - 4
    ensures var r := Instruction.TryFromSlice(EchoIx(programId, buffer, data).data);
            r.Ok? ==> r.value == Instruction.Echo(data[4..])
  {
    var bytes := EchoIx(programId, buffer, data).data;
    assert bytes == [0] + data;
    var r := Instruction.TryFromSlice(bytes);
    if r.Ok? {
      var d := r.value.data;
      assert Instruction.Serialize(r.value) == Ok(bytes);
      assert r.value == Instruction.Echo(d);
      assert bytes == [0] + LE32(|d|) + d;
      assert data == LE32(|d|) + d;
      assert data[..4] == LE32(|d|) && data[4..] == d;
    }
    if |data| >= 4 && Decode(data[..4]) == |data| - 4 {
      var v := Instruction.Echo(data[4..]);
      assert |data| - 4 < 0x1_0000_0000 by {
        assert Decode(data[..4]) < Pow256(4);
        assert Pow256(4) == 0x1_0000_0000;
      }
      EncodeDecode(data[..4]);
      assert LE32(|data| - 4) == data[..4];
      assert Instruction.Serialize(v).value == bytes by {
        assert data == data[..4] + data[4..];
      }
      Instruction.RoundTrip(v);
    }
  }

  /** With fewer than four bytes of data the tag is not followed by a whole
      length, so the program refuses the instruction. */
  lemma EchoIxShortDataRejected(programId: Pubkey, buffer: Pubkey, data: seq<byte>)
    requires |data| < 4
    ensures Instruction.TryFromSlice(EchoIx(programId, buffer, data).data) == Err(Borsh.UnexpectedEof)
  {
    var bytes := EchoIx(programId, buffer, data).data;
    assert bytes[0] == 0 && |bytes[1..]| < 4;
  }

  /** `echo` as the program's decoder expects it: the tag, `struct.pack("<I", len(data))`, then `data`. */
  function EchoIxWithLength(programId: Pubkey, buffer: Pubkey, data: seq<byte>)
    : (r: Result<TransactionInstruction, StructError>)
    ensures r.Ok? <==> |data| < 0x1_0000_0000
    ensures r.Ok? ==> r.value.keys == [AccountMeta(buffer, false, true)] && r.value.programId == programId
    ensures r.Ok? ==> Instruction.TryFromSlice(r.value.data) == Ok(Instruction.Echo(data))
  {
    assert Pow256(4) == 0x1_0000_0000;
    match Pack(|data|, 4)
    case Err(e) => Err(e)
    case Ok(length) =>
      assert length == LE32(|data|);
      assert Instruction.Serialize(Instruction.Echo(data)).value == Tag(Echo) + length + data;
      Instruction.RoundTrip(Instruction.Echo(data));
      Ok(TransactionInstruction([AccountMeta(buffer, false, true)], programId, Tag(Echo) + length + data))
  }

  /** `initialize_authorized_echo`: the buffer (writable), the authority
      (signer) and the system program, in the order the processor takes them;
      data is the tag and two little-endian u64s. */
  function InitializeAuthorizedEchoIx(authorizedBuffer: Pubkey, authority: Pubkey, programId: Pubkey,
                                      bufferSeed: int, bufferSize: int)
    : (r: Result<TransactionInstruction, StructError>)
    ensures r.Ok? <==> 0 <= bufferSeed < 0x1_0000_0000_0000_0000 && 0 <= bufferSize < 0x1_0000_0000_0000_0000
    ensures r.Ok? ==> r.value.keys == [AccountMeta(authorizedBuffer, false, true),
                                       AccountMeta(authority, true, false),
                                       AccountMeta(SYS_PROGRAM_ID, false, false)]
    ensures r.Ok? ==> r.value.programId == programId && |r.value.data| == 17
    ensures r.Ok? ==> Instruction.TryFromSlice(r.value.data)
                      == Ok(Instruction.InitializeAuthorizedEcho(bufferSeed, bufferSize))
  {
    assert Pow256(8) == 0x1_0000_0000_0000_0000;
    match Pack(bufferSeed, 8)
    case Err(e) => Err(e)
    case Ok(seed) =>
      match Pack(bufferSize, 8)
      case Err(e) => Err(e)
      case Ok(size) =>
        EncodeDecode(seed);
        EncodeDecode(size);
        Instruction.RoundTrip(Instruction.InitializeAuthorizedEcho(bufferSeed, bufferSize));
        Ok(TransactionInstruction(
          [AccountMeta(authorizedBuffer, false, true),
           AccountMeta(authority, true, false),
           AccountMeta(SYS_PROGRAM_ID, false, false)],
          programId,
          Tag(InitializeAuthorizedEcho) + seed + size))
  }

  /** `authorized_echo`: the buffer (writable) then the authority (signer);
      data is the tag, `struct.pack("<I", len(data))` and `data`. */
  function AuthorizedEchoIx(authorizedBuffer: Pubkey, authority: Pubkey, programId: Pubkey, data: seq<byte>)
    : (r: Result<TransactionInstruction, StructError>)
    ensures r.Ok? <==> |data| < 0x1_0000_0000
    ensures r.Ok? ==> r.value.keys == [AccountMeta(authorizedBuffer, false, true), AccountMeta(authority, true, false)]
    ensures r.Ok? ==> r.value.programId == programId
    ensures r.Ok? ==> Instruction.TryFromSlice(r.value.data) == Ok(Instruction.AuthorizedEcho(data))
  {
    assert Pow256(4) == 0x1_0000_0000;
    match Pack(|data|, 4)
    case Err(e) => Err(e)
    case Ok(length) =>
      assert length == LE32(|data|);
      assert Instruction.Serialize(Instruction.AuthorizedEcho(data)).value == Tag(AuthorizedEcho) + length + data;
      Instruction.RoundTrip(Instruction.AuthorizedEcho(data));
      Ok(TransactionInstruction(
        [AccountMeta(authorizedBuffer, false, true), AccountMeta(authority, true, false)],
        programId,
        Tag(AuthorizedEcho) + length + data))
  }
}
