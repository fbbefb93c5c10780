/** Machine integer widths, bytes and the failure-carrying result type shared by the model. */
module Types {

  type u8 = x: int | 0 <= x < 0x100

  /** A byte of an instruction or of an account's data, as its value 0..255. */
  type byte = u8

  type u32 = x: int | 0 <= x < 0x1_0000_0000
  type u64 = x: int | 0 <= x < 0x1_0000_0000_0000_0000

  /** The program runs on a 64-bit target, where usize has the range of u64. */
  type usize = u64

  const USIZE_MAX: usize := 0xFFFF_FFFF_FFFF_FFFF

  /** `n` zero bytes. */
  function Zeros(n: nat): (r: seq<byte>)
    ensures |r| == n && forall i :: 0 <= i < n ==> r[i] == 0
  {
    seq(n, _ => 0)
  }

  function Min(a: nat, b: nat): nat
  {
    if a <= b then a else b
  }

  datatype Result<+T, +E> = Ok(value: T) | Err(error: E)
}
