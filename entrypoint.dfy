/** The program entrypoint (program/src/entrypoint.rs): decode the instruction
    bytes, turn any decoding failure into InvalidInstructionData, and hand the
    decoded instruction to the processor. */
module Entrypoint {
  import opened Types
  import opened Solana
  import Instruction
  import Processor

  /** `EchoInstruction::try_from_slice(data).map_err(|_| InvalidInstructionData)`. */
  function DecodeInstruction(instructionData: seq<byte>): (r: Result<Instruction.EchoInstruction, ProgramError>)
    ensures r.Err? <==> Instruction.TryFromSlice(instructionData).Err?
    ensures r.Err? ==> r.error == InvalidInstructionData
    ensures r.Ok? ==> Instruction.Serialize(r.value) == Ok(instructionData)
  {
    match Instruction.TryFromSlice(instructionData)
    case Err(_) => Err(InvalidInstructionData)
    case Ok(instruction) => Ok(instruction)
  }

  /** Bytes that Borsh wrote for an instruction decode to that instruction. */
  lemma DecodeSerialized(instruction: Instruction.EchoInstruction)
    requires Instruction.Serializable(instruction)
    ensures DecodeInstruction(Instruction.Serialize(instruction).value) == Ok(instruction)
  {
    Instruction.RoundTrip(instruction);
  }

  method ProcessInstruction(programId: Pubkey, accounts: seq<AccountInfo>, instructionData: seq<byte>, rt: Runtime)
    returns (r: ProgramResult)
    modifies if |accounts| > 0 then {accounts[0], accounts[0].data} else {}
    ensures DecodeInstruction(instructionData).Err? ==>
              r == Failure(InvalidInstructionData) && Processor.Untouched(accounts)
    ensures DecodeInstruction(instructionData).Ok? ==>
              Processor.Processed(programId, accounts, DecodeInstruction(instructionData).value, rt, r)
  {
    var decoded := DecodeInstruction(instructionData);
    if decoded.Err? {
      return Failure(decoded.error);
    }
    r := Processor.ProcessInstruction(programId, accounts, decoded.value, rt);
  }
}
