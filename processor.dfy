/** The instruction processor (program/src/processor.rs): the plain echo, the
    creation of an authorized buffer at a program-derived address, and the
    authorized write into such a buffer. Account buffers are changed in place. */
module Processor {
  import opened Types
  import opened LittleEndian
  import opened Solana
  import State
  import Instruction

  /** The namespace seed `b"authority"`. */
  const AUTHORITY_SEED: seq<byte> := [97, 117, 116, 104, 111, 114, 105, 116, 121]

  /** The seeds of an authorized buffer's address: the namespace, the
      authority's public key and the buffer seed's little-endian bytes. */
  function BufferSeeds(authority: Pubkey, bufferSeed: u64): (seeds: seq<seq<byte>>)
    ensures |seeds| == 3 && seeds[0] == AUTHORITY_SEED && seeds[1] == authority
    ensures |seeds[2]| == 8 && Decode(seeds[2]) == bufferSeed
  {
    [AUTHORITY_SEED, authority, LE64(bufferSeed)]
  }

  /** Distinct (authority, seed) pairs ask the derivation distinct questions. */
  lemma BufferSeedsInjective(a1: Pubkey, s1: u64, a2: Pubkey, s2: u64)
    ensures BufferSeeds(a1, s1) == BufferSeeds(a2, s2) ==> a1 == a2 && s1 == s2
  {
    if BufferSeeds(a1, s1) == BufferSeeds(a2, s2) {
      assert BufferSeeds(a1, s1)[2] == BufferSeeds(a2, s2)[2];
    }
  }

  /* ---------------------------------------------------------------------- */
  /* The truncate-or-zero-pad write shared by Echo and AuthorizedEcho        */
  /* ---------------------------------------------------------------------- */

  /** What a region of `len` bytes holds after receiving `data`: the first
      `min(len, |data|)` bytes of `data`, then zeros. */
  function Padded(data: seq<byte>, len: nat): (r: seq<byte>)
    ensures |r| == len
    ensures forall k :: 0 <= k < Min(len, |data|) ==> r[k] == data[k]
    ensures forall k :: Min(len, |data|) <= k < len ==> r[k] == 0
  {
    if |data| >= len then data[..len] else data + Zeros(len - |data|)
  }

  /** `buffer[from..]` receives `data`: `copy_from_slice` of the first
      `min` bytes, then `fill(0)` of the rest; `buffer[..from]` is untouched. */
  method WritePadded(buffer: array<byte>, from: nat, data: seq<byte>)
    requires from <= buffer.Length
    modifies buffer
    ensures buffer[..] == old(buffer[..from]) + Padded(data, buffer.Length - from)
  {
    var len := buffer.Length - from;
    var sizeToCopy := Min(len, |data|);
    var i := 0;
    while i < sizeToCopy
      invariant 0 <= i <= sizeToCopy
      invariant buffer[..from] == old(buffer[..from])
      invariant forall j :: from <= j < from + i ==> buffer[j] == data[j - from]
    {
      buffer[from + i] := data[i];
      i := i + 1;
    }
    if sizeToCopy < len {
      while i < len
        invariant sizeToCopy <= i <= len
        invariant buffer[..from] == old(buffer[..from])
        invariant forall j :: from <= j < from + sizeToCopy ==> buffer[j] == data[j - from]
        invariant forall j :: from + sizeToCopy <= j < from + i ==> buffer[j] == 0
      {
        buffer[from + i] := 0;
        i := i + 1;
      }
    }
    var expected := old(buffer[..from]) + Padded(data, len);
    assert forall j :: 0 <= j < buffer.Length ==> buffer[j] == expected[j];
  }

  /* ---------------------------------------------------------------------- */
  /* Echo (lines 23-35)                                                      */
  /* ---------------------------------------------------------------------- */

  twostate predicate EchoDone(accounts: seq<AccountInfo>, data: seq<byte>, r: ProgramResult)
    reads if |accounts| > 0 then {accounts[0], accounts[0].data} else {}
  {
    if |accounts| == 0 then r == Failure(NotEnoughAccountKeys)
    else
      && r == Success
      && unchanged(accounts[0])
      && accounts[0].data[..] == Padded(data, old(accounts[0].data.Length))
  }

  method ProcessEcho(accounts: seq<AccountInfo>, data: seq<byte>) returns (r: ProgramResult)
    modifies if |accounts| > 0 then {accounts[0].data} else {}
    ensures EchoDone(accounts, data, r)
  {
    if |accounts| == 0 {
      return Failure(NotEnoughAccountKeys);
    }
    var dataAccount := accounts[0];
    WritePadded(dataAccount.data, 0, data);
    r := Success;
  }

  /* ---------------------------------------------------------------------- */
  /* InitializeAuthorizedEcho (lines 36-87)                                  */
  /* ---------------------------------------------------------------------- */

  /** The request the program hands to the system program, and the header it
      then writes, when its checks pass. */
  datatype InitializePlan = InitializePlan(request: CreateAccountRequest, header: State.AuthorizedBufferHeader)

  /** The checks of InitializeAuthorizedEcho and what it asks for, before any
      account is touched: the supplied buffer key must be the address derived
      from the authority's key and the seed, else IllegalOwner; a failure of
      `Rent::get()` is passed on. */
  function PlanInitialize(rt: Runtime, programId: Pubkey, bufferKey: Pubkey, authorityKey: Pubkey,
                          bufferSeed: u64, bufferSize: usize): (r: Result<InitializePlan, ProgramError>)
    ensures var derived := rt.findProgramAddress(BufferSeeds(authorityKey, bufferSeed), programId);
            derived.0 != bufferKey ==> r == Err(IllegalOwner)
    ensures var derived := rt.findProgramAddress(BufferSeeds(authorityKey, bufferSeed), programId);
            derived.0 == bufferKey ==> (r.Ok? <==> rt.rentSysvar.Ok?) && (rt.rentSysvar.Err? ==> r == Err(rt.rentSysvar.error))
    ensures r.Ok? ==>
              var req := r.value.request;
              && req.from == authorityKey
              && req.to == bufferKey
              && req.space == State.RequiredAccountSize(bufferSize)
              && req.lamports == rt.rentSysvar.value.minimumBalance(State.RequiredAccountSize(bufferSize))
              && req.owner == programId
              && req.signerSeeds == BufferSeeds(authorityKey, bufferSeed) + [[r.value.header.bumpSeed]]
              && r.value.header.bufferSeed == bufferSeed
              && rt.findProgramAddress(BufferSeeds(authorityKey, bufferSeed), programId) == (bufferKey, r.value.header.bumpSeed)
  {
    var (key, bump) := rt.findProgramAddress(BufferSeeds(authorityKey, bufferSeed), programId);
    if key != bufferKey then Err(IllegalOwner)
    else
      var accountSize := State.RequiredAccountSize(bufferSize);
      match rt.rentSysvar
      case Err(e) => Err(e)
      case Ok(rent) =>
        Ok(InitializePlan(
          CreateAccountRequest(authorityKey, key, rent.minimumBalance(accountSize), accountSize, programId,
                               BufferSeeds(authorityKey, bufferSeed) + [[bump]]),
          State.AuthorizedBufferHeader(bump, bufferSeed)))
  }

  /** The account data after Borsh writes `bytes` through a `&mut [u8]` of
      the old data: as many bytes as fit, the rest of the data untouched. */
  function HeaderWritten(old_data: seq<byte>, bytes: seq<byte>): (r: seq<byte>)
    ensures |r| == |old_data|
    ensures forall k :: 0 <= k < Min(|old_data|, |bytes|) ==> r[k] == bytes[k]
    ensures forall k :: Min(|old_data|, |bytes|) <= k < |old_data| ==> r[k] == old_data[k]
  {
    var n := Min(|old_data|, |bytes|);
    bytes[..n] + old_data[n..]
  }

  /** `header.serialize(&mut *data)`: writes what fits and fails with an I/O
      error when the buffer is shorter than the header. */
  method SerializeInto(buffer: array<byte>, bytes: seq<byte>) returns (r: ProgramResult)
    modifies buffer
    ensures buffer[..] == HeaderWritten(old(buffer[..]), bytes)
    ensures r == if |bytes| <= buffer.Length then Success else Failure(BorshIoError)
  {
    var n := Min(buffer.Length, |bytes|);
    var i := 0;
    while i < n
      invariant 0 <= i <= n
      invariant forall j :: 0 <= j < i ==> buffer[j] == bytes[j]
      invariant forall j :: i <= j < buffer.Length ==> buffer[j] == old(buffer[j])
    {
      buffer[i] := bytes[i];
      i := i + 1;
    }
    r := if |bytes| <= buffer.Length then Success else Failure(BorshIoError);
    var expected := HeaderWritten(old(buffer[..]), bytes);
    assert forall j :: 0 <= j < buffer.Length ==> buffer[j] == expected[j];
  }

  twostate predicate InitializeDone(programId: Pubkey, accounts: seq<AccountInfo>, bufferSeed: u64,
                                    bufferSize: usize, rt: Runtime, r: ProgramResult)
    reads if |accounts| > 0 then {accounts[0], accounts[0].data} else {}
  {
    if |accounts| < 3 then
      r == Failure(NotEnoughAccountKeys) && Untouched(accounts)
    else
      match PlanInitialize(rt, programId, accounts[0].key, accounts[1].key, bufferSeed, bufferSize)
      case Err(e) => r == Failure(e) && Untouched(accounts)
      case Ok(plan) =>
        match rt.createAccount(plan.request)
        case Err(e) => r == Failure(e) && Untouched(accounts)
        case Ok(_) =>
          && fresh(accounts[0].data)
          && accounts[0].owner == programId
          && accounts[0].data[..] == HeaderWritten(Zeros(plan.request.space), State.Serialize(plan.header))
          && r == if State.HEADER_LEN <= plan.request.space then Success else Failure(BorshIoError)
  }

  method ProcessInitializeAuthorizedEcho(programId: Pubkey, accounts: seq<AccountInfo>, bufferSeed: u64,
                                         bufferSize: usize, rt: Runtime) returns (r: ProgramResult)
    modifies if |accounts| > 0 then {accounts[0]} else {}
    ensures InitializeDone(programId, accounts, bufferSeed, bufferSize, rt, r)
  {
    if |accounts| < 3 {
      return Failure(NotEnoughAccountKeys);
    }
    var authorizedBuffer, authority := accounts[0], accounts[1];
    var seeds := BufferSeeds(authority.key, bufferSeed);
    var (authorizedBufferKey, bumpSeed) := rt.findProgramAddress(seeds, programId);
    if authorizedBufferKey != authorizedBuffer.key {
      return Failure(IllegalOwner);
    }
    var accountSize := State.RequiredAccountSize(bufferSize);
    if rt.rentSysvar.Err? {
      return Failure(rt.rentSysvar.error);
    }
    var request := CreateAccountRequest(authority.key, authorizedBufferKey,
                                        rt.rentSysvar.value.minimumBalance(accountSize), accountSize, programId,
                                        seeds + [[bumpSeed]]);
    var created := rt.createAccount(request);
    if created.Err? {
      return Failure(created.error);
    }
    authorizedBuffer.Allocate(accountSize, programId);
    var header := State.AuthorizedBufferHeader(bumpSeed, bufferSeed);
    r := SerializeInto(authorizedBuffer.data, State.Serialize(header));
  }

  /* ---------------------------------------------------------------------- */
  /* AuthorizedEcho (lines 88-127)                                           */
  /* ---------------------------------------------------------------------- */

  /** The header that `try_from_slice` reads from the first 9 bytes of an
      account; on 9 bytes it cannot fail. */
  function StoredHeader(accountData: seq<byte>): (h: State.AuthorizedBufferHeader)
    requires |accountData| >= State.HEADER_LEN
    ensures State.Serialize(h) == accountData[..State.HEADER_LEN]
  {
    State.TryFromSlice(accountData[..State.HEADER_LEN]).value
  }

  /** The outcome of AuthorizedEcho's checks on a buffer holding
      `accountData`: slicing `[..9]` panics on a shorter buffer; the header
      is re-derived from the authority's public key and the stored seed; a
      bump mismatch is reported before a key mismatch. */
  function AuthorizeWrite(findProgramAddress: FindProgramAddress, programId: Pubkey, bufferKey: Pubkey,
                          authorityKey: Pubkey, accountData: seq<byte>): (r: ProgramResult)
    ensures |accountData| < State.HEADER_LEN <==> r == Panic(SliceOutOfRange)
    ensures r.Panic? || r.Success? || r == Failure(InvalidAccountData) || r == Failure(IllegalOwner)
  {
    if |accountData| < State.HEADER_LEN then Panic(SliceOutOfRange)
    else
      var header := StoredHeader(accountData);
      var (key, bump) := findProgramAddress(BufferSeeds(authorityKey, header.bufferSeed), programId);
      if bump != header.bumpSeed then Failure(InvalidAccountData)
      else if key != bufferKey then Failure(IllegalOwner)
      else Success
  }

  /** The account data after a successful AuthorizedEcho of `data`. */
  function WritePayload(accountData: seq<byte>, data: seq<byte>): (r: seq<byte>)
    requires |accountData| >= State.HEADER_LEN
    ensures |r| == |accountData|
  {
    accountData[..State.HEADER_LEN] + Padded(data, |accountData| - State.HEADER_LEN)
  }

  twostate predicate AuthorizedEchoDone(programId: Pubkey, accounts: seq<AccountInfo>, data: seq<byte>,
                                        rt: Runtime, r: ProgramResult)
    reads if |accounts| > 0 then {accounts[0], accounts[0].data} else {}
  {
    if |accounts| < 2 then
      r == Failure(NotEnoughAccountKeys) && Untouched(accounts)
    else
      && unchanged(accounts[0])
      && r == AuthorizeWrite(rt.findProgramAddress, programId, accounts[0].key, accounts[1].key,
                             old(accounts[0].data[..]))
      && if r == Success then accounts[0].data[..] == WritePayload(old(accounts[0].data[..]), data)
         else unchanged(accounts[0].data)
  }

  method ProcessAuthorizedEcho(programId: Pubkey, accounts: seq<AccountInfo>, data: seq<byte>, rt: Runtime)
    returns (r: ProgramResult)
    modifies if |accounts| > 0 then {accounts[0].data} else {}
    ensures AuthorizedEchoDone(programId, accounts, data, rt, r)
  {
    if |accounts| < 2 {
      return Failure(NotEnoughAccountKeys);
    }
    var authorizedBuffer, authority := accounts[0], accounts[1];
    if authorizedBuffer.data.Length < State.HEADER_LEN {
      return Panic(SliceOutOfRange);
    }
    var header := StoredHeader(authorizedBuffer.data[..]);
    var (authorizedBufferKey, bumpSeed) :=
      rt.findProgramAddress(BufferSeeds(authority.key, header.bufferSeed), programId);
    if bumpSeed != header.bumpSeed {
      return Failure(InvalidAccountData);
    }
    if authorizedBufferKey != authorizedBuffer.key {
      return Failure(IllegalOwner);
    }
    WritePadded(authorizedBuffer.data, State.HEADER_LEN, data);
    r := Success;
  }

  /* ---------------------------------------------------------------------- */
  /* Dispatch (lines 16-135)                                                 */
  /* ---------------------------------------------------------------------- */

  /** Neither the first account's handle nor its data changed. */
  twostate predicate Untouched(accounts: seq<AccountInfo>)
    reads if |accounts| > 0 then {accounts[0], accounts[0].data} else {}
  {
    |accounts| > 0 ==> unchanged(accounts[0]) && unchanged(accounts[0].data)
  }

  /** What `process_instruction` does with one decoded instruction. The two
      vending-machine variants reach `todo!()`. */
  twostate predicate Processed(programId: Pubkey, accounts: seq<AccountInfo>,
                               instruction: Instruction.EchoInstruction, rt: Runtime, r: ProgramResult)
    reads if |accounts| > 0 then {accounts[0], accounts[0].data} else {}
  {
    match instruction
    case Echo(data) => EchoDone(accounts, data, r)
    case InitializeAuthorizedEcho(bufferSeed, bufferSize) =>
      InitializeDone(programId, accounts, bufferSeed, bufferSize, rt, r)
    case AuthorizedEcho(data) => AuthorizedEchoDone(programId, accounts, data, rt, r)
    case InitializeVendingMachineEcho(_, _) => r == Panic(NotImplemented) && Untouched(accounts)
    case VendingMachineEcho(_) => r == Panic(NotImplemented) && Untouched(accounts)
  }

  method ProcessInstruction(programId: Pubkey, accounts: seq<AccountInfo>,
                            instruction: Instruction.EchoInstruction, rt: Runtime) returns (r: ProgramResult)
    modifies if |accounts| > 0 then {accounts[0], accounts[0].data} else {}
    ensures Processed(programId, accounts, instruction, rt, r)
  {
    match instruction
    case Echo(data) =>
      r := ProcessEcho(accounts, data);
    case InitializeAuthorizedEcho(bufferSeed, bufferSize) =>
      r := ProcessInitializeAuthorizedEcho(programId, accounts, bufferSeed, bufferSize, rt);
    case AuthorizedEcho(data) =>
      r := ProcessAuthorizedEcho(programId, accounts, data, rt);
    case InitializeVendingMachineEcho(_, _) =>
      r := Panic(NotImplemented);
    case VendingMachineEcho(_) =>
      r := Panic(NotImplemented);
  }

  /* ---------------------------------------------------------------------- */
  /* Properties of the authorized buffer                                    */
  /* ---------------------------------------------------------------------- */

  /** A stored bump that differs from the re-derived one is reported as
      InvalidAccountData, whether or not the buffer key matches. */
  lemma BumpCheckedFirst(fpa: FindProgramAddress, programId: Pubkey, bufferKey: Pubkey,
                         authorityKey: Pubkey, accountData: seq<byte>)
    requires |accountData| >= State.HEADER_LEN
    requires var stored := StoredHeader(accountData);
             fpa(BufferSeeds(authorityKey, stored.bufferSeed), programId).1 != stored.bumpSeed
    ensures AuthorizeWrite(fpa, programId, bufferKey, authorityKey, accountData) == Failure(InvalidAccountData)
  {
  }

  /** With the bump right, a buffer key other than the re-derived address is
      reported as IllegalOwner. */
  lemma ForeignBufferRejected(fpa: FindProgramAddress, programId: Pubkey, bufferKey: Pubkey,
                              authorityKey: Pubkey, accountData: seq<byte>)
    requires |accountData| >= State.HEADER_LEN
    requires var stored := StoredHeader(accountData);
             fpa(BufferSeeds(authorityKey, stored.bufferSeed), programId).0 != bufferKey
    requires var stored := StoredHeader(accountData);
             fpa(BufferSeeds(authorityKey, stored.bufferSeed), programId).1 == stored.bumpSeed
    ensures AuthorizeWrite(fpa, programId, bufferKey, authorityKey, accountData) == Failure(IllegalOwner)
  {
  }

  /** The only gate of AuthorizedEcho: the write is accepted exactly when the
      buffer starts with the header of some seed whose address, derived from
      the authority's public key, is the buffer's key with the stored bump.
      Nothing here depends on the authority having signed. */
  lemma AuthorizeWriteAcceptsExactly(fpa: FindProgramAddress, programId: Pubkey, bufferKey: Pubkey,
                                     authorityKey: Pubkey, accountData: seq<byte>)
    ensures AuthorizeWrite(fpa, programId, bufferKey, authorityKey, accountData) == Success
        <==> |accountData| >= State.HEADER_LEN &&
             exists seed: u64 ::
               var derived := fpa(BufferSeeds(authorityKey, seed), programId);
               derived.0 == bufferKey &&
               accountData[..State.HEADER_LEN] == State.Serialize(State.AuthorizedBufferHeader(derived.1, seed))
  {
    if |accountData| >= State.HEADER_LEN {
      var h := StoredHeader(accountData);
      var derived := fpa(BufferSeeds(authorityKey, h.bufferSeed), programId);
      if AuthorizeWrite(fpa, programId, bufferKey, authorityKey, accountData) == Success {
        assert h == State.AuthorizedBufferHeader(derived.1, h.bufferSeed);
      }
      forall seed: u64 | fpa(BufferSeeds(authorityKey, seed), programId).0 == bufferKey &&
                         accountData[..State.HEADER_LEN] ==
                           State.Serialize(State.AuthorizedBufferHeader(fpa(BufferSeeds(authorityKey, seed), programId).1, seed))
        ensures AuthorizeWrite(fpa, programId, bufferKey, authorityKey, accountData) == Success
      {
        State.SerializeInjective(h, State.AuthorizedBufferHeader(fpa(BufferSeeds(authorityKey, seed), programId).1, seed));
      }
    }
  }

  /** Changing the stored bump of an accepted buffer gets the write refused
      with InvalidAccountData. */
  lemma TamperedBumpRejected(fpa: FindProgramAddress, programId: Pubkey, bufferKey: Pubkey,
                             authorityKey: Pubkey, accountData: seq<byte>, bump: byte)
    requires AuthorizeWrite(fpa, programId, bufferKey, authorityKey, accountData) == Success
    requires bump != accountData[0]
    ensures AuthorizeWrite(fpa, programId, bufferKey, authorityKey, accountData[0 := bump])
            == Failure(InvalidAccountData)
  {
    var tampered := accountData[0 := bump];
    var h, t := StoredHeader(accountData), StoredHeader(tampered);
    assert State.Serialize(t)[1..] == tampered[1..9] == accountData[1..9] == State.Serialize(h)[1..];
    assert t.bufferSeed == h.bufferSeed && t.bumpSeed == bump;
    BumpCheckedFirst(fpa, programId, bufferKey, authorityKey, tampered);
  }

  /** An accepted write leaves the header in place, so the same write is
      accepted again, and repeating it leaves the buffer as it was. */
  lemma AuthorizedEchoRepeatable(fpa: FindProgramAddress, programId: Pubkey, bufferKey: Pubkey,
                                 authorityKey: Pubkey, accountData: seq<byte>, data: seq<byte>)
    requires AuthorizeWrite(fpa, programId, bufferKey, authorityKey, accountData) == Success
    ensures AuthorizeWrite(fpa, programId, bufferKey, authorityKey, WritePayload(accountData, data)) == Success
    ensures WritePayload(WritePayload(accountData, data), data) == WritePayload(accountData, data)
  {
    var written := WritePayload(accountData, data);
    assert written[..State.HEADER_LEN] == accountData[..State.HEADER_LEN];
  }

  /** A buffer created by InitializeAuthorizedEcho (its header, then zeros)
      passes AuthorizedEcho's checks for the same authority. */
  lemma InitializedBufferAccepted(rt: Runtime, programId: Pubkey, bufferKey: Pubkey, authorityKey: Pubkey,
                                  bufferSeed: u64, bufferSize: usize)
    requires PlanInitialize(rt, programId, bufferKey, authorityKey, bufferSeed, bufferSize).Ok?
    ensures var plan := PlanInitialize(rt, programId, bufferKey, authorityKey, bufferSeed, bufferSize).value;
            AuthorizeWrite(rt.findProgramAddress, programId, bufferKey, authorityKey,
                           State.Serialize(plan.header) + Zeros(bufferSize)) == Success
  {
    var plan := PlanInitialize(rt, programId, bufferKey, authorityKey, bufferSeed, bufferSize).value;
    var accountData := State.Serialize(plan.header) + Zeros(bufferSize);
    assert accountData[..State.HEADER_LEN] == State.Serialize(plan.header);
    State.SerializeInjective(StoredHeader(accountData), plan.header);
  }

  /** When the size does not overflow, the new account is the header followed
      by `bufferSize` zero bytes, and the header write succeeds. */
  lemma InitializedLayout(header: State.AuthorizedBufferHeader, bufferSize: usize)
    requires bufferSize <= USIZE_MAX - State.HEADER_LEN
    ensures State.HEADER_LEN <= State.RequiredAccountSize(bufferSize)
    ensures HeaderWritten(Zeros(State.RequiredAccountSize(bufferSize)), State.Serialize(header))
            == State.Serialize(header) + Zeros(bufferSize)
  {
    var size := State.RequiredAccountSize(bufferSize);
    var written := HeaderWritten(Zeros(size), State.Serialize(header));
    var expected := State.Serialize(header) + Zeros(bufferSize);
    assert |written| == |expected|;
    assert forall k :: 0 <= k < |written| ==> written[k] == expected[k];
  }
}
