# Solana echo program — a Dafny model

This project models the on-chain core of a small Solana "echo" program:

- **Instruction bytes.** The program decodes them with Borsh into an `EchoInstruction` and maps any decoding failure to `InvalidInstructionData`.
- **Echo.** Truncates or zero-pads the payload into the whole of the first account's data.
- **InitializeAuthorizedEcho.** Re-derives the program-derived address of ("authority", authority key, LE64 buffer seed). It refuses a buffer account with any other key. Otherwise it asks the system program to create the account with `9 + buffer_size` bytes, then writes a 9-byte header (bump seed, buffer seed) at its front.
- **AuthorizedEcho.** Reads that header back, re-derives the address, and checks the bump first and then the key. Only then does it write the payload after the header.

It also models the Python client's instruction builders, which pack the same bytes by hand with `struct.pack`.

Modules follow the program's files:

- `Types`, `LittleEndian` and `Borsh` are the byte-level vocabulary.
- `Solana` holds the runtime entities: `Pubkey`, `ProgramError`, `ProgramResult`, and the `AccountInfo` class whose `data` is an `array` changed in place.
- `State` models program/src/state.rs.
- `Instruction` models program/src/instruction.rs.
- `Processor` models program/src/processor.rs.
- `Entrypoint` models program/src/entrypoint.rs.
- `Client` models client/instructions.py.

The processor's three live paths are methods over `AccountInfo`. Each is proved against a two-state predicate that fixes the new account state with pure functions: `Padded`, `PlanInitialize`, `HeaderWritten`, `AuthorizeWrite` and `WritePayload`. The properties of the paths are lemmas about those functions.

How the model represents the runtime:

- `Pubkey::find_program_address`, the rent sysvar and the system program's `create_account` are fields of a `Runtime` value passed to the processor. The derivation is a Dafny function, so it is deterministic, which is all the program's checks rely on.
- A Rust panic is a third outcome, `ProgramResult.Panic`. Two things panic: slicing `[..9]` of an account shorter than 9 bytes, and the two `todo!()` vending-machine arms.
- `usize` is the 64-bit target's `usize`. `required_account_size` wraps around modulo 2^64, as a release build does.
- Bytes are integers in 0..255.

Two facts the model makes visible:

- **No signer check.** AuthorizedEcho never checks that the authority signed. `AuthorizeWriteAcceptsExactly` shows that acceptance depends only on the authority's public key, the stored header and the derivation.
- **Short accounts panic.** An account shorter than 9 bytes makes AuthorizedEcho panic (`AuthorizeWrite`), rather than return an error.

## Model

| member | source | states |
|---|---|---|
| State.Serialize | program/src/state.rs:3-7 | the header is 9 bytes: byte 0 is the bump seed and bytes 1..9 are the buffer seed in little-endian |
| State.Deserialize | program/src/state.rs:3-7 | reading a header from the front of a slice succeeds exactly when at least 9 bytes are present, and the header's bytes followed by the rest are the input |
| State.TryFromSlice | program/src/state.rs:3-7 | every 9-byte slice decodes (any bit pattern is a u8 and a u64), any other length is refused, and the decoded header re-encodes to the slice |
| State.SerializeInjective | program/src/state.rs:3-7 | distinct (bump seed, buffer seed) pairs are stored as distinct bytes |
| State.RoundTrip | program/src/state.rs:3-7 | decoding an encoded header gives the header back |
| State.RequiredAccountSize | program/src/state.rs:10-12 | without overflow the size is the buffer size plus 9; when `1 + 8 + buffer_size` overflows usize the wrapped size is below 9 |
| State.PayloadRegion | program/src/state.rs:10-12 | the required size is the header length plus the buffer size, and the required size of 0 is the header length |
| Instruction.VariantIndex | program/src/instruction.rs:3-28 | the tag of each variant is its declaration index, at most 4 |
| Instruction.Serialize | program/src/instruction.rs:3-28 | encoding succeeds exactly when every `Vec<u8>` is shorter than 2^32 bytes, and its first byte is the variant tag |
| Instruction.VecVariant | program/src/instruction.rs:6-8 | a variant whose field is `data: Vec<u8>` encodes as its tag, LE32 of the length, then the bytes |
| Instruction.Deserialize | program/src/instruction.rs:3-28 | a successful decode consumed exactly the encoding of the decoded value |
| Instruction.TryFromSlice | program/src/instruction.rs:3-28 | a successful `try_from_slice` yields the one value whose encoding is the whole input |
| Instruction.DeserializeSerialize | program/src/instruction.rs:3-28 | decoding an encoded instruction followed by any bytes gives the instruction and those bytes |
| Instruction.RoundTrip | program/src/instruction.rs:3-28 | `try_from_slice` of an encoded instruction gives the instruction back |
| Instruction.TrailingBytesRejected | program/src/instruction.rs:3-28 | an encoded instruction followed by extra bytes is refused as not all bytes read |
| Instruction.UnknownTagRejected | program/src/instruction.rs:3-28 | input whose first byte exceeds 4 is refused as an unexpected variant |
| Instruction.TruncatedInputRejected | program/src/instruction.rs:3-28 | input too short for the selected variant's fields is refused as an unexpected end |
| Instruction.InitializeAuthorizedEchoLayout | program/src/instruction.rs:10-13 | InitializeAuthorizedEcho encodes as [1], LE64 of the buffer seed and LE64 of the buffer size: 17 bytes |
| Instruction.SerializeEchoExample | program/src/instruction.rs:30-38 | `Echo { data: [1, 2, 16, 64, 128] }` encodes as [0, 5, 0, 0, 0, 1, 2, 16, 64, 128] |
| Entrypoint.DecodeInstruction | program/src/entrypoint.rs:26-27 | decoding fails exactly when `try_from_slice` fails, every failure becomes InvalidInstructionData, and a decoded instruction is the one the bytes encode |
| Entrypoint.DecodeSerialized | program/src/entrypoint.rs:26-27 | the Borsh bytes of any instruction decode to that instruction |
| Entrypoint.ProcessInstruction | program/src/entrypoint.rs:14-30 | undecodable data gives InvalidInstructionData with no account changed; otherwise the outcome and new state are the processor's for the decoded instruction, with the same program id and accounts |
| Processor.BufferSeeds | program/src/processor.rs:45-52 | the derivation seeds are "authority", the authority's key and the 8-byte little-endian buffer seed |
| Processor.BufferSeedsInjective | program/src/processor.rs:45-52 | distinct (authority, buffer seed) pairs give distinct seed lists |
| Processor.Padded | program/src/processor.rs:27-34 | a region of the given length holds the first min(length, len(data)) bytes of the data and zeros after them |
| Processor.WritePadded | program/src/processor.rs:27-34 | the copy loop and the zero-fill loop leave the bytes before the region untouched and the region equal to `Padded` |
| Processor.ProcessEcho | program/src/processor.rs:23-35 | with no account, NotEnoughAccountKeys; otherwise Success, the same data array with its length unchanged, holding the data truncated or zero-padded |
| Processor.PlanInitialize | program/src/processor.rs:45-79 | IllegalOwner when the derived key differs from the buffer key; otherwise a rent error is passed on, or create_account is requested from the authority, for the buffer key, with space `required_account_size`, rent-exempt lamports, the program as owner, and the three seeds plus the derived bump as signer seeds |
| Processor.HeaderWritten | program/src/processor.rs:86 | the Borsh writer stores as many header bytes as fit and leaves the rest of the data as it was |
| Processor.SerializeInto | program/src/processor.rs:86 | the header write stores the bytes that fit, and fails with an I/O error exactly when the account is shorter than the header |
| Solana.AccountInfo.Allocate | program/src/processor.rs:60-79 | a created account has fresh zeroed data of the requested size and the requested owner |
| Processor.ProcessInitializeAuthorizedEcho | program/src/processor.rs:36-87 | fewer than three accounts, a key mismatch, a rent failure or a create_account failure leave the buffer account untouched with that error; otherwise the account is created as planned and its data is the header {derived bump, buffer seed} written over zeros |
| Processor.InitializedLayout | program/src/processor.rs:81-86 | without overflow, the created account holds the 9-byte header followed by `buffer_size` zeros |
| Processor.StoredHeader | program/src/processor.rs:94-95 | on an account of at least 9 bytes the header read from bytes 0..9 always exists and re-encodes to them |
| Processor.AuthorizeWrite | program/src/processor.rs:94-117 | the `[..9]` slice panics exactly when the account is shorter than 9 bytes; the only other outcomes are InvalidAccountData, IllegalOwner and Success |
| Processor.BumpCheckedFirst | program/src/processor.rs:97-111 | a stored bump that differs from the re-derived one gives InvalidAccountData whatever the buffer key is |
| Processor.ForeignBufferRejected | program/src/processor.rs:112-117 | with the bump matching, a buffer key other than the re-derived one gives IllegalOwner |
| Processor.AuthorizeWriteAcceptsExactly | program/src/processor.rs:88-117 | the write is accepted exactly when the account has at least 9 bytes and begins with the header of some seed whose derivation from the authority's public key is the buffer key with the stored bump; no signature enters |
| Processor.TamperedBumpRejected | program/src/processor.rs:106-111 | changing the stored bump of an accepted buffer makes the write fail with InvalidAccountData |
| Processor.ProcessAuthorizedEcho | program/src/processor.rs:88-127 | too few accounts give NotEnoughAccountKeys; otherwise the outcome is `AuthorizeWrite`'s; on Success bytes 0..9 are kept and bytes 9.. get the data truncated or zero-padded; on any other outcome nothing is written |
| Processor.AuthorizedEchoRepeatable | program/src/processor.rs:119-126 | after an accepted write the header is unchanged, so the same write is accepted again, and repeating it leaves the same data |
| Processor.InitializedBufferAccepted | program/src/processor.rs:36-127 | a buffer holding the header that InitializeAuthorizedEcho planned, followed by zeros, passes AuthorizedEcho's checks for the same authority |
| Processor.ProcessInstruction | program/src/processor.rs:16-135 | each decoded instruction is dispatched to its path; the two vending-machine arms panic and change nothing |
| Client.IdsAreVariantTags | client/instructions.py:8-13 | the client's instruction ids are the program's Borsh variant tags, in the same order |
| Client.Pack | client/instructions.py:43-44 | `struct.pack` of a 1-, 4- or 8-byte unsigned little-endian value fails exactly when the value is out of range, and otherwise yields bytes that decode to the value |
| Client.EchoIx | client/instructions.py:16-23 | `echo` lists the buffer as its only (writable, non-signer) account, and its data is the tag followed directly by the payload |
| Client.EchoIxNeverDecodesToEcho | client/instructions.py:22 | the bytes built by `echo` never decode to `Echo` of the payload the client passed |
| Client.EchoIxMisread | client/instructions.py:22 | the program accepts `echo`'s bytes exactly when the first four payload bytes encode the length of the rest, and then echoes only that rest |
| Client.EchoIxShortDataRejected | client/instructions.py:22 | an `echo` payload shorter than four bytes is refused as an unexpected end |
| Client.EchoIxWithLength | client/instructions.py:16-23 | the corrected `echo`, with a u32 length, fails exactly when the payload has 2^32 bytes or more, and otherwise decodes to `Echo` of the payload |
| Client.InitializeAuthorizedEchoIx | client/instructions.py:26-47 | packing fails exactly when the buffer seed or the buffer size is outside 0..2^64; otherwise the data is 17 bytes that decode to InitializeAuthorizedEcho of the two values, and the accounts are the buffer (writable), the authority (signer) and the system program, in the processor's order |
| Client.AuthorizedEchoIx | client/instructions.py:50-69 | packing fails exactly when the payload has 2^32 bytes or more; otherwise the data decodes to AuthorizedEcho of the payload, and the accounts are the buffer (writable) then the authority (signer) |

## Left out

- client/client.py is not part of this model. Its RPC calls, airdrop, transaction submission, keypair files and command line are I/O.
- The internals of `Pubkey::find_program_address` (SHA-256 and the off-curve search) are not modelled. It is an arbitrary deterministic function given to the processor.
- `Rent::get`, `minimum_balance`, `invoke_signed` and `create_account` are not modelled. They are runtime parameters that either fail, with the error passed on unchanged, or create a zeroed account of the requested size owned by the program. Lamport balances and the funding transfer are not tracked.
- `msg!` logging is left out, because it has no effect on state or outcome.
- The vending-machine arms are modelled only as the `todo!()` panic. The variants are still decoded.
- RefCell `borrow`/`borrow_mut` runtime checks, and the runtime's own checks on account ownership, writability and signatures, are left out. They belong to the host, not to this program.
- State.RequiredAccountSize: a build with overflow checks enabled would panic instead of wrapping. Only the wrapping release behaviour is modelled.
- Processor.ProcessInstruction: only the first account's data and owner are changed by the model. The lamports moved between the authority and the buffer by create_account are not modelled.
- The account-list shape is checked positionally, as `next_account_info` does. Extra accounts are ignored.

## Findings

| source | as written | input that shows it | evidently intended | confidence | as-written member | corrected member |
|---|---|---|---|---|---|---|
| client/instructions.py:22 | `echo` packs the tag and then the raw payload, with no u32 length, while `Echo { data: Vec<u8> }` (program/src/instruction.rs:6-8) is Borsh-encoded with a LE32 length before the bytes | payload `b"hi"`: the data is [0, 104, 105], which the program refuses (unexpected end, so InvalidInstructionData); any payload is refused unless its first four bytes happen to encode the length of the rest | `struct.pack("<I", len(data))` between the tag and the payload, as `authorized_echo` does at client/instructions.py:65 | not executed | Client.EchoIx, with Client.EchoIxNeverDecodesToEcho and Client.EchoIxMisread | Client.EchoIxWithLength |
