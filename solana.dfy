/** The pieces of the `solana_program` crate that the echo program uses:
    public keys, program errors and results, account handles, and the
    runtime services that lie outside the program (address derivation,
    the rent sysvar, the system program's `create_account`). */
module Solana {
  import opened Types

  /** A 32-byte public key. */
  type Pubkey = s: seq<byte> | |s| == 32 witness seq(32, _ => 0)

  /** The `ProgramError` values that the program returns or passes on. */
  datatype ProgramError =
    | InvalidArgument
    | InvalidInstructionData
    | InvalidAccountData
    | AccountDataTooSmall
    | InsufficientFunds
    | MissingRequiredSignature
    | AccountAlreadyInitialized
    | NotEnoughAccountKeys
    | AccountBorrowFailed
    | IllegalOwner
    | UnsupportedSysvar
    | BorshIoError
    | Custom(code: u32)

  /** Where a program aborts instead of returning. */
  datatype PanicReason =
    | SliceOutOfRange   // an index or range past the end of a slice
    | NotImplemented    // `todo!()`

  /** How one run of the program ends: `Ok(())`, `Err(e)`, or a panic,
      which aborts the program without a `ProgramResult`. */
  datatype ProgramResult = Success | Failure(error: ProgramError) | Panic(reason: PanicReason)

  /** `Pubkey::find_program_address(seeds, program_id)`: the derived address and
      its bump seed. Its hashing and curve search are not modelled; being a
      function, it gives the same answer to the same question. */
  type FindProgramAddress = (seq<seq<byte>>, Pubkey) -> (Pubkey, u8)

  /** The rent sysvar; only `minimum_balance` is used. */
  datatype Rent = Rent(minimumBalance: usize -> u64)

  /** `invoke_signed(&system_instruction::create_account(from, to, lamports, space, owner), .., &[signerSeeds])`. */
  datatype CreateAccountRequest = CreateAccountRequest(
    from: Pubkey,
    to: Pubkey,
    lamports: u64,
    space: u64,
    owner: Pubkey,
    signerSeeds: seq<seq<byte>>)

  /** What the program can ask of the runtime, as answers fixed before the run:
      address derivation, `Rent::get()`, and the system program's verdict on a
      create-account request. */
  datatype Runtime = Runtime(
    findProgramAddress: FindProgramAddress,
    rentSysvar: Result<Rent, ProgramError>,
    createAccount: CreateAccountRequest -> Result<(), ProgramError>)

  /** An `AccountInfo`: the key and flags are fixed for the run, the owner and
      the data buffer change when the system program creates the account. */
  class AccountInfo {
    const key: Pubkey
    const isSigner: bool
    const isWritable: bool
    var owner: Pubkey
    var data: array<byte>

    /** What a successful `create_account` leaves in this handle: a new
        zero-filled buffer of `space` bytes, owned by `newOwner`. */
    method Allocate(space: nat, newOwner: Pubkey)
      modifies this
      ensures fresh(data) && data[..] == Zeros(space) && owner == newOwner
    {
      data := new byte[space](_ => 0);
      owner := newOwner;
    }
  }
}
