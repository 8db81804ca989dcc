/** Constants, machine integers and the vocabulary of library calls. */
module Types {
  const MAX_THREAD_NUM: nat := 100

  const INT_MAX: int := 0x7fff_ffff
  const INT_MIN: int := -0x8000_0000
  const SIZE_T_RANGE: nat := 0x1_0000_0000_0000_0000

  /** The C `int` of the library's interface. */
  type Int32 = x: int | INT_MIN <= x <= INT_MAX

  /** Conversion of an `int` to `size_t`: a negative id becomes a huge one. */
  function AsSizeT(x: Int32): (r: nat) {
    if x < 0 then x + SIZE_T_RANGE else x
  }

  /** Reduction of an integer to 32-bit two's complement. */
  function AsInt32(x: int): (r: Int32)
    decreases if x > INT_MAX then x - INT_MAX else if x < INT_MIN then INT_MIN - x else 0
  {
    if x > INT_MAX then AsInt32(x - 0x1_0000_0000)
    else if x < INT_MIN then AsInt32(x + 0x1_0000_0000)
    else x
  }

  /** The `enum State` of a thread. */
  datatype State = Running | Blocked | Ready

  /** A timer expiry or a library call made by the running thread. */
  datatype Call =
    | Tick
    | Spawn(nullEntry: bool)
    | Terminate(tid: Int32)
    | Block(tid: Int32)
    | Resume(tid: Int32)
    | Sleep(quantums: Int32)

  /**
   * How a call ends: it returns a value at once, it gives up the processor
   * (and ends in `siglongjmp`), or the whole process exits.
   */
  datatype Reply = Returns(value: Int32) | Switched | Exits
}
