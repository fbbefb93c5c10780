/** The header persisted at the start of an authorized buffer, and the size rule
    for such an account (program/src/state.rs). */
module State {
  import opened Types
  import opened LittleEndian
  import Borsh

  /** Bytes taken by the Borsh form of the header: a u8 and a u64. */
  const HEADER_LEN: nat := 9

  datatype AuthorizedBufferHeader = AuthorizedBufferHeader(bumpSeed: u8, bufferSeed: u64)

  /** Borsh serialization: the fields in declaration order. */
  function Serialize(h: AuthorizedBufferHeader): (r: seq<byte>)
    ensures |r| == HEADER_LEN
    ensures r[0] == h.bumpSeed && Decode(r[1..]) == h.bufferSeed
  {
    [h.bumpSeed] + LE64(h.bufferSeed)
  }

  /** Borsh deserialization of a header from the front of `s`. */
  function Deserialize(s: seq<byte>): (r: Result<(AuthorizedBufferHeader, seq<byte>), Borsh.Error>)
    ensures r.Ok? <==> |s| >= HEADER_LEN
    ensures r.Ok? ==> Serialize(r.value.0) + r.value.1 == s
  {
    match Borsh.ReadU8(s)
    case Err(e) => Err(e)
    case Ok((bump, rest)) =>
      match Borsh.ReadU64(rest)
      case Err(e) => Err(e)
      case Ok((seed, rest')) => Ok((AuthorizedBufferHeader(bump, seed), rest'))
  }

  /** `AuthorizedBufferHeader::try_from_slice`: any 9 bytes are a header, since
      every bit pattern is a u8 and a u64; any other length is refused. */
  function TryFromSlice(s: seq<byte>): (r: Result<AuthorizedBufferHeader, Borsh.Error>)
    ensures r.Ok? <==> |s| == HEADER_LEN
    ensures r.Ok? ==> Serialize(r.value) == s
  {
    Borsh.Finish(Deserialize(s))
  }

  /** Distinct headers are stored as distinct bytes. */
  lemma SerializeInjective(h1: AuthorizedBufferHeader, h2: AuthorizedBufferHeader)
    ensures Serialize(h1) == Serialize(h2) ==> h1 == h2
  {
    if Serialize(h1) == Serialize(h2) {
      assert Serialize(h1)[1..] == Serialize(h2)[1..];
    }
  }

  lemma RoundTrip(h: AuthorizedBufferHeader)
    ensures TryFromSlice(Serialize(h)) == Ok(h)
  {
    SerializeInjective(TryFromSlice(Serialize(h)).value, h);
  }

  /** `required_account_size`: `1 + 8 + buffer_size` in usize arithmetic, which
      wraps around when it does not fit. */
  function RequiredAccountSize(bufferSize: usize): (r: usize)
    ensures bufferSize <= USIZE_MAX - HEADER_LEN ==> r - bufferSize == HEADER_LEN
    ensures bufferSize > USIZE_MAX - HEADER_LEN ==> r < HEADER_LEN
  {
    (1 + 8 + bufferSize) % 0x1_0000_0000_0000_0000
  }

  /** An account of the required size holds exactly one header and `bufferSize` payload bytes. */
  lemma PayloadRegion(h: AuthorizedBufferHeader, bufferSize: usize)
    requires bufferSize <= USIZE_MAX - HEADER_LEN
    ensures RequiredAccountSize(bufferSize) == |Serialize(h)| + bufferSize
    ensures RequiredAccountSize(0) == |Serialize(h)|
  {
  }
}
