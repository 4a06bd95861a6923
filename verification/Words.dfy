/** 32-bit machine words: the bit helpers of the reference model and encoder.
    Python's unbounded integers are 32-bit vectors here, because every value the
    model computes with is masked to 32 bits before it is stored or compared. */
module Words {

  datatype Option<+T> = None | Some(value: T)

  datatype Result<+T, +E> = Success(value: T) | Failure(error: E) {
    predicate IsFailure() {
      Failure?
    }

    function PropagateFailure<U>(): Result<U, E>
      requires Failure?
    {
      Failure(error)
    }

    function Extract(): T
      requires Success?
    {
      value
    }
  }

  // The word operations have names so that proofs about whole instructions can treat
  // them as black boxes. Arithmetic is modulo 2^32.

  function Add32(a: bv32, b: bv32): bv32 {
    a + b
  }

  function Sub32(a: bv32, b: bv32): bv32 {
    a - b
  }

  function And32(a: bv32, b: bv32): bv32 {
    a & b
  }

  function Or32(a: bv32, b: bv32): bv32 {
    a | b
  }

  function Xor32(a: bv32, b: bv32): bv32 {
    a ^ b
  }

  function ShiftLeft(a: bv32, shamt: bv32): bv32
    requires shamt < 32
  {
    a << shamt
  }

  function ShiftRight(a: bv32, shamt: bv32): bv32
    requires shamt < 32
  {
    a >> shamt
  }

  function ClearBit0(value: bv32): bv32 {
    value & 0xFFFF_FFFE
  }

  /** The field value[high:low], moved down to bit 0. */
  function BitRange(value: bv32, high: bv32, low: bv32): bv32
    requires low <= high < 32
  {
    (value >> low) & ((1 << (high - low + 1)) - 1)
  }

  /** Two's complement sign extension of the low `bits` bits. */
  function Sext(value: bv32, bits: bv32): bv32
    requires 0 < bits <= 32
  {
    var sign: bv32 := 1 << (bits - 1);
    (value & (sign - 1)) - (value & sign)
  }

  /** a < b when both are read as two's complement numbers. */
  predicate SignedLess(a: bv32, b: bv32) {
    a ^ 0x8000_0000 < b ^ 0x8000_0000
  }

  /** Shift right, copying the sign bit. */
  function ShiftRightArithmetic(a: bv32, shamt: bv32): bv32
    requires shamt < 32
  {
    if a & 0x8000_0000 == 0 then a >> shamt else !((!a) >> shamt)
  }

  // ---------------------------------------------------------------- words as numbers

  function Half(a: bv32): bv32 {
    a >> 1
  }

  predicate Odd(a: bv32) {
    a & 1 == 1
  }

  /** The value of a word read as an unsigned number. It is the int that a memory address
      denotes; no other int arithmetic is done on words. */
  function Unsigned(a: bv32): nat
    decreases a
  {
    if a == 0 then 0 else 2 * Unsigned(Half(a)) + (if Odd(a) then 1 else 0)
  }
}
