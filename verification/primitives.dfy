/** Machine integers, results and instruction aborts shared by the two on-chain programs
    and the waitlist route. */
module Primitives {

  datatype Result<+T, +E> = Ok(value: T) | Err(error: E)

  /** Why a Solana instruction aborts. An abort undoes every account change of the
      instruction, so a handler that returns one of these leaves its accounts as they were.
      - Program: a `require!` or a checked operation failed with the program's error code;
      - ArithmeticPanic: an unchecked `+`, `-` or `*` overflowed (the programs are built
        with overflow checks, so this panics instead of wrapping);
      - CpiFailed: the call into the SPL token program failed. */
  datatype Abort<+E> = Program(code: E) | ArithmeticPanic | CpiFailed

  const U32_LIMIT: int := 0x1_0000_0000
  const U64_LIMIT: int := 0x1_0000_0000_0000_0000
  const U128_LIMIT: int := 0x1_0000_0000_0000_0000_0000_0000_0000_0000
  const I64_MIN: int := -0x8000_0000_0000_0000
  const I64_LIMIT: int := 0x8000_0000_0000_0000

  type u32 = x: int | 0 <= x < U32_LIMIT
  type u64 = x: int | 0 <= x < U64_LIMIT
  type i64 = x: int | I64_MIN <= x < I64_LIMIT

  predicate IsI64(x: int) { I64_MIN <= x < I64_LIMIT }

  /** An account address. Accounts the model keeps as objects are referred to by the
      object itself; this type stands for the addresses of signers and owners. */
  type Pubkey = nat

  function Max(a: int, b: int): (m: int)
    ensures m >= a && m >= b && (m == a || m == b)
  {
    if a >= b then a else b
  }
}
