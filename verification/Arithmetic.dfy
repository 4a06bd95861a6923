/** What the operations on words compute, as operations on numbers. */
module Arithmetic {
  import opened Words
  import opened Numbers
  import opened Powers

  const MODULUS: int := 0x1_0000_0000

  /** The two's complement reading of a number below 2^32. */
  function SignedOf(n: int): int {
    if n < 0x8000_0000 then n else n - MODULUS
  }

  function Signed(a: bv32): int {
    SignedOf(Unsigned(a))
  }

  // ---------------------------------------------------------------- sums and differences

  lemma UnsignedBelow(a: bv32)
    ensures 0 <= Unsigned(a) < MODULUS
  {
    hide Unsigned, Below;
    UnsignedMaximum();
    if a != MAX_WORD {
      if Below(MAX_WORD, a) {
        NothingAbove(a);
      }
      BelowOrEqual(a, MAX_WORD);
      UnsignedMonotone(a, MAX_WORD);
    }
  }

  lemma NothingAbove(a: bv32)
    ensures !Below(MAX_WORD, a)
  {
  }

  lemma MaximumWraps()
    ensures Add32(MAX_WORD, 1) == 0
  {
  }

  /** Counting up is modulo 2^32. */
  lemma UnsignedNext(a: bv32)
    ensures Unsigned(Add32(a, 1)) == (Unsigned(a) + 1) % MODULUS
  {
    hide Unsigned, Add32;
    UnsignedBelow(Add32(a, 1));
    if a == MAX_WORD {
      MaximumWraps();
      UnsignedMaximum();
      AddNothing(0);
    } else {
      UnsignedSuccessor(a);
    }
  }

  /** One less, and one step of a sum. */
  lemma OneLess(a: bv32, b: bv32) returns (c: bv32)
    requires b != 0
    ensures Add32(a, b) == Add32(Add32(a, c), 1) && b == Add32(c, 1) && c < b
  {
    c := b - 1;
    LessByOne(a, b);
  }

  lemma LessByOne(a: bv32, b: bv32)
    requires b != 0
    ensures Add32(a, b) == Add32(Add32(a, b - 1), 1) && b == Add32(b - 1, 1) && b - 1 < b
  {
  }

  /** Addition is modulo 2^32. */
  lemma {:induction false} UnsignedAdd(a: bv32, b: bv32)
    ensures Unsigned(Add32(a, b)) == (Unsigned(a) + Unsigned(b)) % MODULUS
    decreases b
  {
    hide Unsigned, Add32;
    UnsignedBelow(a);
    if b == 0 {
      AddNothing(a);
    } else {
      var c := OneLess(a, b);
      UnsignedAdd(a, c);
      UnsignedNext(Add32(a, c));
      UnsignedNext(c);
      UnsignedBelow(c);
      NotZero(b);
      SumStep(Unsigned(a), Unsigned(b), Unsigned(c));
    }
  }

  lemma SumStep(a: nat, b: nat, c: nat)
    requires b == (c + 1) % MODULUS && 0 < b && c < MODULUS
    ensures ((a + c) % MODULUS + 1) % MODULUS == (a + b) % MODULUS
  {
    assert b == c + 1;
    RemainderOfSum(a + c, 1, MODULUS);
  }

  lemma NotZero(a: bv32)
    requires a != 0
    ensures Unsigned(a) > 0
  {
    hide Unsigned;
    NothingBelowZero(a);
    UnsignedMonotone(0, a);
  }

  lemma OneTaken(a: bv32, b: bv32) returns (c: bv32)
    requires b != 0
    ensures Sub32(a, b) == Sub32(Sub32(a, c), 1) && b == Add32(c, 1) && c < b
  {
    c := b - 1;
    TakenByOne(a, b);
  }

  lemma TakenByOne(a: bv32, b: bv32)
    requires b != 0
    ensures Sub32(a, b) == Sub32(Sub32(a, b - 1), 1) && b == Add32(b - 1, 1) && b - 1 < b
  {
  }

  lemma TakeOne(a: bv32)
    ensures Add32(Sub32(a, 1), 1) == a
  {
  }

  lemma TakeNothing(a: bv32)
    ensures Sub32(a, 0) == a && Unsigned(0) == 0
  {
  }

  /** Subtraction is modulo 2^32. */
  lemma {:induction false} UnsignedSubtract(a: bv32, b: bv32)
    ensures Unsigned(Sub32(a, b)) == (Unsigned(a) - Unsigned(b)) % MODULUS
    decreases b
  {
    hide Unsigned, Add32, Sub32;
    TakeNothing(a);
    UnsignedBelow(a);
    if b != 0 {
      var c := OneTaken(a, b);
      var d := Sub32(a, c);
      UnsignedSubtract(a, c);
      TakeOne(d);
      UnsignedNext(Sub32(d, 1));
      UnsignedBelow(Sub32(d, 1));
      UnsignedNext(c);
      UnsignedBelow(c);
      NotZero(b);
      DifferenceStep(Unsigned(a), Unsigned(b), Unsigned(c), Unsigned(Sub32(d, 1)));
    }
  }

  lemma DifferenceStep(a: nat, b: nat, c: nat, e: nat)
    requires b == (c + 1) % MODULUS && 0 < b && c < MODULUS && e < MODULUS && (a - c) % MODULUS == (e + 1) % MODULUS
    ensures e == (a - b) % MODULUS
  {
    assert b == c + 1;
    Predecessor(e, (a - c) % MODULUS);
    RemainderOfSum(a - c, -1, MODULUS);
  }

  lemma Predecessor(n: int, next: int)
    requires 0 <= n < MODULUS && next == (n + 1) % MODULUS
    ensures n == (next - 1) % MODULUS
  {
  }

  function Complement(a: bv32): bv32 {
    !a
  }

  lemma ComplementIs(a: bv32)
    ensures Complement(a) == Sub32(MAX_WORD, a)
  {
  }

  /** The complement counts down from the largest number. */
  lemma UnsignedComplement(a: bv32)
    ensures Unsigned(Complement(a)) == MODULUS - 1 - Unsigned(a)
  {
    hide Unsigned, Sub32, Complement;
    ComplementIs(a);
    UnsignedSubtract(MAX_WORD, a);
    UnsignedMaximum();
    UnsignedBelow(a);
  }

  // ---------------------------------------------------------------- order

  lemma LessIsBelow(a: bv32, b: bv32)
    ensures Below(a, b) <==> a < b
  {
  }

  lemma UnsignedLess(a: bv32, b: bv32)
    ensures a < b <==> Unsigned(a) < Unsigned(b)
  {
    hide Unsigned, Below;
    LessIsBelow(a, b);
    if Below(a, b) {
      UnsignedMonotone(a, b);
    } else if a != b {
      BelowOrEqual(b, a);
      UnsignedMonotone(b, a);
    }
  }

  lemma UnsignedEqual(a: bv32, b: bv32)
    ensures a == b <==> Unsigned(a) == Unsigned(b)
  {
    hide Unsigned;
    if a != b {
      UnsignedLess(a, b);
      UnsignedLess(b, a);
      LessIsBelow(a, b);
      LessIsBelow(b, a);
      hide Below;
      if !Below(b, a) {
        BelowOrEqual(a, b);
      }
    }
  }

  lemma HalfOfMaximum()
    ensures Half(MAX_WORD) == 0x7FFF_FFFF && Odd(MAX_WORD) && Complement(0x7FFF_FFFF) == 0x8000_0000
  {
  }

  lemma UnsignedSign()
    ensures Unsigned(0x8000_0000) == 0x8000_0000
  {
    hide Unsigned, Half, Odd, Complement;
    UnsignedMaximum();
    UnsignedIs(MAX_WORD);
    HalfOfMaximum();
    UnsignedComplement(0x7FFF_FFFF);
  }

  lemma SignBit(a: bv32)
    ensures a < 0x8000_0000 <==> Unsigned(a) < 0x8000_0000
  {
    hide Unsigned;
    UnsignedSign();
    UnsignedLess(a, 0x8000_0000);
  }

  lemma SignedLessCases(a: bv32, b: bv32)
    ensures SignedLess(a, b) <==> if (a < 0x8000_0000) == (b < 0x8000_0000) then a < b else b < 0x8000_0000
  {
  }

  lemma SignedLessIs(a: bv32, b: bv32)
    ensures SignedLess(a, b) <==> Signed(a) < Signed(b)
  {
    hide Unsigned, SignedLess;
    SignedLessCases(a, b);
    SignBit(a);
    SignBit(b);
    UnsignedLess(a, b);
    UnsignedBelow(a);
    UnsignedBelow(b);
  }

  // ---------------------------------------------------------------- shifts

  lemma UnsignedHalf(a: bv32)
    ensures Unsigned(Half(a)) == Unsigned(a) / 2
  {
    hide Unsigned, Half, Odd;
    UnsignedIs(a);
  }

  /** A smaller shift amount, and the number of one more. */
  lemma AmountBelow(a: bv32, k: bv32) returns (c: bv32)
    requires 0 < k < 32
    ensures c < k && Unsigned(k) == Unsigned(c) + 1
    ensures ShiftRight(a, k) == Half(ShiftRight(a, c))
    ensures ShiftLeft(a, k) == Add32(ShiftLeft(a, c), ShiftLeft(a, c))
  {
    hide Unsigned, Add32, ShiftLeft, ShiftRight, Half;
    ShiftOnce(a, k);
    c := k - 1;
    LessByOne(0, k);
    UnsignedNext(c);
    UnsignedBelow(c);
    NotZero(k);
  }

  lemma ShiftOnce(a: bv32, k: bv32)
    requires 0 < k < 32
    ensures k - 1 < k
    ensures ShiftRight(a, k) == Half(ShiftRight(a, k - 1))
    ensures ShiftLeft(a, k) == Add32(ShiftLeft(a, k - 1), ShiftLeft(a, k - 1))
  {
    hide ShiftLeft, ShiftRight, Add32, Half;
    RightOnce(a, k);
    LeftOnce(a, k);
  }

  lemma RightOnce(a: bv32, k: bv32)
    requires 0 < k < 32
    ensures ShiftRight(a, k) == Half(ShiftRight(a, k - 1))
  {
  }

  lemma LeftOnce(a: bv32, k: bv32)
    requires 0 < k < 32
    ensures ShiftLeft(a, k) == Add32(ShiftLeft(a, k - 1), ShiftLeft(a, k - 1))
  {
  }

  lemma ShiftNothing(a: bv32)
    ensures ShiftRight(a, 0) == a && ShiftLeft(a, 0) == a && Unsigned(0) == 0 && Pow2(0) == 1
  {
  }

  /** A shift to the right divides. */
  lemma {:induction false} UnsignedShiftRight(a: bv32, k: bv32)
    requires k < 32
    ensures Unsigned(ShiftRight(a, k)) == Unsigned(a) / Pow2(Unsigned(k))
    decreases k
  {
    ShiftNothing(a);
    hide ShiftLeft, ShiftRight, Half, Unsigned;
    if k != 0 {
      var c := AmountBelow(a, k);
      UnsignedShiftRight(a, c);
      UnsignedHalf(ShiftRight(a, c));
      HalfOfQuotient(Unsigned(a), Pow2(Unsigned(c)));
    }
  }

  lemma PowerSteps(n: nat)
    ensures Pow2(n + 1) == 2 * Pow2(n)
  {
  }

  lemma DoubledRemainder(x: int, p: nat, y: nat)
    requires p > 0 && y == (x * p) % MODULUS
    ensures (y + y) % MODULUS == (x * (2 * p)) % MODULUS
  {
    RemainderOfSum(x * p, y, MODULUS);
    RemainderOfSum(x * p, x * p, MODULUS);
    assert x * p + x * p == x * (2 * p);
  }

  /** A shift to the left multiplies modulo 2^32. */
  lemma {:induction false} UnsignedShiftLeft(a: bv32, k: bv32)
    requires k < 32
    ensures Unsigned(ShiftLeft(a, k)) == (Unsigned(a) * Pow2(Unsigned(k))) % MODULUS
    decreases k
  {
    ShiftNothing(a);
    hide ShiftLeft, ShiftRight, Half, Unsigned, Add32, Pow2;
    if k == 0 {
      UnsignedBelow(a);
    } else {
      var c := AmountBelow(a, k);
      PowerSteps(Unsigned(c));
      UnsignedShiftLeft(a, c);
      UnsignedAdd(ShiftLeft(a, c), ShiftLeft(a, c));
      DoubledRemainder(Unsigned(a), Pow2(Unsigned(c)), Unsigned(ShiftLeft(a, c)));
    }
  }

  predicate Negative(a: bv32) {
    a & 0x8000_0000 != 0
  }

  lemma NegativeIs(a: bv32)
    ensures Negative(a) <==> !(a < 0x8000_0000)
  {
  }

  lemma ComplementMeans(a: bv32)
    ensures Complement(a) == !a
  {
  }

  lemma ShiftRightMeans(a: bv32, k: bv32)
    requires k < 32
    ensures ShiftRight(a, k) == a >> k
  {
  }

  lemma ShiftOfComplement(a: bv32, k: bv32)
    requires k < 32
    ensures Complement(ShiftRight(Complement(a), k)) == !((!a) >> k)
  {
    ComplementMeans(a);
    ShiftRightMeans(!a, k);
    ComplementMeans((!a) >> k);
    hide Complement, ShiftRight;
  }

  lemma ArithmeticCases(a: bv32, k: bv32)
    requires k < 32
    ensures ShiftRightArithmetic(a, k) ==
            if Negative(a) then Complement(ShiftRight(Complement(a), k)) else ShiftRight(a, k)
  {
    hide Complement, ShiftRight;
    ShiftOfComplement(a, k);
    ShiftRightMeans(a, k);
  }

  /** An arithmetic shift divides the signed number, rounding towards minus infinity. */
  lemma SignedShiftRight(a: bv32, k: bv32)
    requires k < 32
    ensures Signed(ShiftRightArithmetic(a, k)) == Signed(a) / Pow2(Unsigned(k))
  {
    hide Unsigned, ShiftRight, ShiftRightArithmetic, Complement, Negative;
    ArithmeticCases(a, k);
    NegativeIs(a);
    SignBit(a);
    UnsignedBelow(a);
    var p := Pow2(Unsigned(k));
    if !Negative(a) {
      UnsignedShiftRight(a, k);
      QuotientShrinks(Unsigned(a), p);
    } else {
      UnsignedComplement(a);
      UnsignedShiftRight(Complement(a), k);
      UnsignedComplement(ShiftRight(Complement(a), k));
      QuotientShrinks(Unsigned(Complement(a)), p);
      QuotientOfComplement(Unsigned(Complement(a)), p);
    }
  }

  lemma QuotientShrinks(x: nat, p: nat)
    requires p > 0
    ensures 0 <= x / p <= x
  {
    ProductIsNoLess(x / p, p);
  }

  lemma ProductIsNoLess(q: nat, p: nat)
    requires p > 0
    ensures q * p >= q
  {
  }

  // ---------------------------------------------------------------- single bits

  /** A word of ones only. */
  predicate Ones(m: bv32) {
    m & (m + 1) == 0
  }

  lemma HalfOfMask(a: bv32, m: bv32)
    requires Ones(m) && m != 0
    ensures Half(And32(a, m)) == And32(Half(a), Half(m)) && Odd(And32(a, m)) == Odd(a)
    ensures Odd(m) && Ones(Half(m)) && Half(m) < m
  {
  }

  lemma EmptyMask(a: bv32)
    ensures And32(a, 0) == 0 && Unsigned(0) == 0
  {
  }

  lemma RemainderOfDouble(x: nat, o: nat, k: nat)
    requires o < 2 && k > 0
    ensures (2 * x + o) % (2 * k) == 2 * (x % k) + o
  {
    var q, r := x / k, x % k;
    assert 2 * x + o == q * (2 * k) + (2 * r + o);
    QuotientIs(2 * x + o, 2 * k, q, 2 * r + o);
  }

  /** The low bits are a remainder. */
  lemma {:induction false} UnsignedMask(a: bv32, m: bv32)
    requires Ones(m)
    ensures Unsigned(And32(a, m)) == Unsigned(a) % (Unsigned(m) + 1)
    decreases m
  {
    hide Unsigned, Half, Odd, And32, Ones;
    EmptyMask(a);
    if m != 0 {
      HalfOfMask(a, m);
      UnsignedMask(Half(a), Half(m));
      UnsignedIs(a);
      UnsignedIs(m);
      UnsignedIs(And32(a, m));
      MaskStep(Unsigned(Half(a)), if Odd(a) then 1 else 0, Unsigned(Half(m)));
    }
  }

  lemma MaskStep(x: nat, o: nat, h: nat)
    requires o < 2
    ensures (2 * x + o) % (2 * h + 1 + 1) == 2 * (x % (h + 1)) + o
  {
    RemainderOfDouble(x, o, h + 1);
  }

  datatype BitOp = Both | Either | Differ

  predicate BitOf(op: BitOp, x: bool, y: bool) {
    match op
    case Both => x && y
    case Either => x || y
    case Differ => x != y
  }

  /** Two numbers combined binary digit by binary digit. */
  function Bitwise(op: BitOp, a: nat, b: nat): nat {
    if a == 0 && b == 0 then 0
    else 2 * Bitwise(op, a / 2, b / 2) + (if BitOf(op, a % 2 == 1, b % 2 == 1) then 1 else 0)
  }

  function Combined(op: BitOp, a: bv32, b: bv32): bv32 {
    match op
    case Both => And32(a, b)
    case Either => Or32(a, b)
    case Differ => Xor32(a, b)
  }

  lemma HalfOfAnd(a: bv32, b: bv32)
    ensures Half(And32(a, b)) == And32(Half(a), Half(b)) && Odd(And32(a, b)) == (Odd(a) && Odd(b))
  {
  }

  lemma HalfOfOr(a: bv32, b: bv32)
    ensures Half(Or32(a, b)) == Or32(Half(a), Half(b)) && Odd(Or32(a, b)) == (Odd(a) || Odd(b))
  {
  }

  lemma HalfOfXor(a: bv32, b: bv32)
    ensures Half(Xor32(a, b)) == Xor32(Half(a), Half(b)) && Odd(Xor32(a, b)) == (Odd(a) != Odd(b))
  {
  }

  lemma HalfOfCombined(op: BitOp, a: bv32, b: bv32)
    ensures Half(Combined(op, a, b)) == Combined(op, Half(a), Half(b))
    ensures Odd(Combined(op, a, b)) == BitOf(op, Odd(a), Odd(b))
  {
    HalfOfAnd(a, b);
    HalfOfOr(a, b);
    HalfOfXor(a, b);
    hide Half, Odd, And32, Or32, Xor32;
  }

  lemma NothingCombined(op: BitOp)
    ensures Combined(op, 0, 0) == 0 && Unsigned(0) == 0 && Bitwise(op, 0, 0) == 0
  {
  }

  lemma BitwiseSteps(op: BitOp, a: nat, b: nat, x: bool, y: bool)
    ensures var c, d := 2 * a + (if x then 1 else 0), 2 * b + (if y then 1 else 0);
            c + d > 0 ==> Bitwise(op, c, d) == 2 * Bitwise(op, a, b) + (if BitOf(op, x, y) then 1 else 0)
  {
  }

  /** And, or and exclusive or of words are those of the binary digits of their numbers. */
  lemma {:induction false} UnsignedBitwise(op: BitOp, a: bv32, b: bv32)
    ensures Unsigned(Combined(op, a, b)) == Bitwise(op, Unsigned(a), Unsigned(b))
    decreases a, b
  {
    hide Unsigned, Half, Odd, Combined, BitOf, Bitwise;
    if a == 0 && b == 0 {
      NothingCombined(op);
    } else {
      HalvesShrink(a, b);
      UnsignedBitwise(op, Half(a), Half(b));
      BitwiseHalves(op, a, b);
    }
  }

  lemma BitwiseHalves(op: BitOp, a: bv32, b: bv32)
    requires a != 0 || b != 0
    requires Unsigned(Combined(op, Half(a), Half(b))) == Bitwise(op, Unsigned(Half(a)), Unsigned(Half(b)))
    ensures Unsigned(Combined(op, a, b)) == Bitwise(op, Unsigned(a), Unsigned(b))
  {
    hide Unsigned, Half, Odd, Combined, BitOf, Bitwise;
    HalfOfCombined(op, a, b);
    UnsignedIs(a);
    UnsignedIs(b);
    UnsignedIs(Combined(op, a, b));
    BitwiseSteps(op, Unsigned(Half(a)), Unsigned(Half(b)), Odd(a), Odd(b));
    if a != 0 {
      NotZero(a);
    } else {
      NotZero(b);
    }
  }

  lemma HalvesShrink(a: bv32, b: bv32)
    requires a != 0 || b != 0
    ensures Half(a) < a || (Half(a) == a && Half(b) < b)
  {
  }

  // ---------------------------------------------------------------- bytes

  lemma PowersOfTwo()
    ensures Pow2(7) == 0x80 && Pow2(8) == 0x100 && Pow2(15) == 0x8000 && Pow2(16) == 0x1_0000 && Pow2(24) == 0x100_0000
  {
    assert Pow2(4) == 16;
    assert Pow2(12) == 0x1000;
    assert Pow2(20) == 0x10_0000;
  }

  lemma SmallNumbers()
    ensures Unsigned(0) == 0 && Unsigned(1) == 1 && Unsigned(2) == 2 && Unsigned(3) == 3 && Unsigned(4) == 4
    ensures Unsigned(7) == 7 && Unsigned(8) == 8 && Unsigned(16) == 16 && Unsigned(24) == 24 && Unsigned(31) == 31
  {
    UnsignedHalves(1, 0);
    UnsignedHalves(2, 1);
    UnsignedHalves(4, 2);
    UnsignedHalves(8, 4);
    UnsignedHalves(16, 8);
    UnsignedHalves(3, 1);
    UnsignedHalves(6, 3);
    UnsignedHalves(12, 6);
    UnsignedHalves(24, 12);
    UnsignedHalves(7, 3);
    UnsignedHalves(15, 7);
    UnsignedHalves(31, 15);
    hide Unsigned;
  }

  lemma UnsignedHalves(a: bv32, h: bv32)
    requires Half(a) == h && a != 0
    ensures Unsigned(a) == 2 * Unsigned(h) + (if Odd(a) then 1 else 0)
  {
  }

  /** A power of two as a word. */
  lemma UnsignedPower(k: bv32, p: bv32)
    requires k < 32 && p == ShiftLeft(1, k)
    ensures Unsigned(p) == Pow2(Unsigned(k)) % MODULUS
  {
    SmallNumbers();
    hide Unsigned, ShiftLeft, Pow2;
    UnsignedShiftLeft(1, k);
  }

  lemma ByteLimits()
    ensures Unsigned(0x80) == 0x80 && Unsigned(0x100) == 0x100 && Unsigned(0x8000) == 0x8000
    ensures Unsigned(0x1_0000) == 0x1_0000 && Unsigned(0x100_0000) == 0x100_0000
  {
    hide Unsigned, Pow2;
    PowersOfTwo();
    SmallNumbers();
    UnsignedHalves(0x100, 0x80);
    UnsignedHalves(0x1_0000, 0x8000);
    UnsignedPower(8, 0x100);
    UnsignedPower(16, 0x1_0000);
    UnsignedPower(24, 0x100_0000);
  }

  // The limits have names, so that proofs about numbers need not look at the bits.

  predicate IsByte(v: bv32) {
    v < 0x100
  }

  predicate IsHalfWord(v: bv32) {
    v < 0x1_0000
  }

  predicate IsThreeBytes(v: bv32) {
    v < 0x100_0000
  }

  lemma LimitNumbers(v: bv32)
    ensures IsByte(v) <==> Unsigned(v) < 0x100
    ensures IsHalfWord(v) <==> Unsigned(v) < 0x1_0000
    ensures IsThreeBytes(v) <==> Unsigned(v) < 0x100_0000
  {
    ByteLimits();
    hide Unsigned;
    UnsignedLess(v, 0x100);
    UnsignedLess(v, 0x1_0000);
    UnsignedLess(v, 0x100_0000);
  }

  /** high above a byte. */
  function AboveByte(low: bv32, high: bv32): bv32 {
    low | (high << 8)
  }

  /** high above a half word. */
  function AboveHalf(low: bv32, high: bv32): bv32 {
    low | (high << 16)
  }

  lemma AboveByteAdds(low: bv32, high: bv32)
    requires IsByte(low) && IsThreeBytes(high)
    ensures AboveByte(low, high) == Add32(low, ShiftLeft(high, 8))
  {
  }

  lemma AboveHalfAdds(low: bv32, high: bv32)
    requires IsHalfWord(low) && IsHalfWord(high)
    ensures AboveHalf(low, high) == Add32(low, ShiftLeft(high, 16))
  {
  }

  lemma UnsignedAboveByte(low: bv32, high: bv32)
    requires IsByte(low) && IsThreeBytes(high)
    ensures Unsigned(AboveByte(low, high)) == Unsigned(low) + 0x100 * Unsigned(high)
  {
    hide Unsigned, Pow2, ShiftLeft, Add32, AboveByte, IsByte, IsThreeBytes, IsHalfWord;
    AboveByteAdds(low, high);
    PowersOfTwo();
    SmallNumbers();
    LimitNumbers(low);
    LimitNumbers(high);
    UnsignedShiftLeft(high, 8);
    UnsignedAdd(low, ShiftLeft(high, 8));
    NoOverflow(Unsigned(low), Unsigned(high) * 0x100);
  }

  lemma NoOverflow(low: nat, high: nat)
    requires low + high < MODULUS
    ensures (low + high % MODULUS) % MODULUS == low + high
  {
  }

  lemma UnsignedAboveHalf(low: bv32, high: bv32)
    requires IsHalfWord(low) && IsHalfWord(high)
    ensures Unsigned(AboveHalf(low, high)) == Unsigned(low) + 0x1_0000 * Unsigned(high)
  {
    hide Unsigned, Pow2, ShiftLeft, Add32, AboveHalf, IsByte, IsThreeBytes, IsHalfWord;
    AboveHalfAdds(low, high);
    PowersOfTwo();
    SmallNumbers();
    LimitNumbers(low);
    LimitNumbers(high);
    UnsignedShiftLeft(high, 16);
    UnsignedAdd(low, ShiftLeft(high, 16));
    NoOverflow(Unsigned(low), Unsigned(high) * 0x1_0000);
  }

  predicate Short7(v: bv32) {
    v < 0x80
  }

  predicate Short15(v: bv32) {
    v < 0x8000
  }

  lemma SextOfByte(v: bv32)
    requires IsByte(v)
    ensures Sext(v, 8) == if Short7(v) then v else Sub32(v, 0x100)
  {
  }

  lemma SextMeans16(v: bv32)
    ensures Sext(v, 16) == Sub32(v & 0x7FFF, v & 0x8000)
  {
  }

  lemma ShortBits(v: bv32)
    requires Short15(v)
    ensures v & 0x7FFF == v && v & 0x8000 == 0 && Sub32(v, 0) == v
  {
  }

  lemma LongBits(v: bv32)
    requires IsHalfWord(v) && !Short15(v)
    ensures v & 0x8000 == 0x8000
    ensures Sub32(v & 0x7FFF, 0x8000) == Sub32(v, 0x1_0000)
  {
  }

  lemma SextOfHalf(v: bv32)
    requires IsHalfWord(v)
    ensures Sext(v, 16) == if Short15(v) then v else Sub32(v, 0x1_0000)
  {
    hide Sext, Sub32, Short15, IsHalfWord;
    SextMeans16(v);
    if Short15(v) {
      ShortBits(v);
    } else {
      LongBits(v);
    }
  }

  lemma SignedBelowZero(n: int)
    requires -0x8000_0000 <= n < 0
    ensures SignedOf(n % MODULUS) == n
  {
    assert n % MODULUS == n + MODULUS;
  }

  lemma SignedDifference(a: bv32, b: bv32)
    requires Unsigned(a) < Unsigned(b) <= 0x8000_0000
    ensures Signed(Sub32(a, b)) == Unsigned(a) - Unsigned(b)
  {
    hide Unsigned, Sub32;
    UnsignedSubtract(a, b);
    SignedBelowZero(Unsigned(a) - Unsigned(b));
  }

  lemma ShortNumbers(v: bv32)
    ensures Short7(v) <==> Unsigned(v) < 0x80
    ensures Short15(v) <==> Unsigned(v) < 0x8000
  {
    ByteLimits();
    hide Unsigned;
    UnsignedLess(v, 0x80);
    UnsignedLess(v, 0x8000);
  }

  /** Sign extension of a byte. */
  lemma SignedByte(v: bv32)
    requires IsByte(v)
    ensures Signed(Sext(v, 8)) == if Unsigned(v) < 0x80 then Unsigned(v) else Unsigned(v) - 0x100
  {
    hide Unsigned, Sext, Sub32, Short7, Short15, IsByte, IsHalfWord, IsThreeBytes;
    SextOfByte(v);
    ByteLimits();
    ShortNumbers(v);
    LimitNumbers(v);
    if !Short7(v) {
      SignedDifference(v, 0x100);
    }
  }

  /** Sign extension of a half word. */
  lemma SignedHalf(v: bv32)
    requires IsHalfWord(v)
    ensures Signed(Sext(v, 16)) == if Unsigned(v) < 0x8000 then Unsigned(v) else Unsigned(v) - 0x1_0000
  {
    hide Unsigned, Sext, Sub32, Short7, Short15, IsByte, IsHalfWord, IsThreeBytes;
    SextOfHalf(v);
    ByteLimits();
    ShortNumbers(v);
    LimitNumbers(v);
    if !Short15(v) {
      SignedDifference(v, 0x1_0000);
    }
  }

  /** Byte k of a number, counted from the least significant one. */
  function Digit256(n: nat, k: nat): nat {
    if k == 0 then n % 0x100 else Digit256(n / 0x100, k - 1)
  }

  lemma MaskNumber()
    ensures Unsigned(0xFF) == 0xFF && Unsigned(0xFFFF) == 0xFFFF
  {
    ByteLimits();
    OneBelow();
    hide Unsigned, Add32;
    UnsignedNext(0xFF);
    UnsignedNext(0xFFFF);
    UnsignedBelow(0xFF);
    UnsignedBelow(0xFFFF);
  }

  lemma OneBelow()
    ensures Add32(0xFF, 1) == 0x100 && Add32(0xFFFF, 1) == 0x1_0000
  {
  }

  lemma ShiftByte(v: bv32)
    ensures Unsigned(v >> 8) == Unsigned(v) / 0x100
  {
    ShiftRightMeans(v, 8);
    SmallNumbers();
    PowersOfTwo();
    hide Unsigned, ShiftRight, Pow2;
    UnsignedShiftRight(v, 8);
  }

  // ---------------------------------------------------------------- from numbers to words

  /** The word for a number, modulo 2^32. */
  function FromNumber(n: nat): bv32 {
    if n == 0 then 0 else (FromNumber(n / 2) << 1) | (if n % 2 == 1 then 1 else 0)
  }

  function Doubled(a: bv32, bit: bool): bv32 {
    (a << 1) | (if bit then 1 else 0)
  }

  lemma DoubledAdds(a: bv32, bit: bool)
    ensures Doubled(a, bit) == Add32(Add32(a, a), if bit then 1 else 0)
  {
  }

  lemma UnsignedDoubled(a: bv32, bit: bool)
    ensures Unsigned(Doubled(a, bit)) == (2 * Unsigned(a) + (if bit then 1 else 0)) % MODULUS
  {
    DoubledAdds(a, bit);
    SmallNumbers();
    hide Unsigned, Doubled, Add32;
    UnsignedAdd(a, a);
    UnsignedAdd(Add32(a, a), if bit then 1 else 0);
    RemainderOfSum(2 * Unsigned(a), if bit then 1 else 0, MODULUS);
  }

  lemma RemainderOfDoubled(x: nat, o: nat)
    ensures (2 * (x % MODULUS) + o) % MODULUS == (2 * x + o) % MODULUS
  {
    RemainderOfSum(x, x % MODULUS + o, MODULUS);
    RemainderOfSum(x, x + o, MODULUS);
  }

  lemma {:induction false} UnsignedFromNumber(n: nat)
    ensures Unsigned(FromNumber(n)) == n % MODULUS
  {
    if n == 0 {
      SmallNumbers();
    } else {
      FromNumberDoubles(n);
      hide Unsigned, Doubled, FromNumber;
      UnsignedFromNumber(n / 2);
      UnsignedDoubled(FromNumber(n / 2), n % 2 == 1);
      RemainderOfDoubled(n / 2, n % 2);
    }
  }

  lemma FromNumberDoubles(n: nat)
    requires n > 0
    ensures FromNumber(n) == Doubled(FromNumber(n / 2), n % 2 == 1)
  {
  }

  function ByteNumber(b: bv8): nat {
    Unsigned(b as bv32)
  }

  lemma ByteOfWord(v: bv32, k: bv32)
    requires k in {0, 8, 16, 24}
    ensures ByteNumber(((v >> k) & 0xFF) as bv8) == Unsigned(ShiftRight(v, k)) % 0x100
  {
    hide Unsigned, And32, Ones, ShiftRight;
    ByteMask(v, k);
    MaskNumber();
    UnsignedMask(ShiftRight(v, k), 0xFF);
  }

  lemma ByteMask(v: bv32, k: bv32)
    requires k < 32
    ensures (((v >> k) & 0xFF) as bv8) as bv32 == And32(ShiftRight(v, k), 0xFF) && Ones(0xFF)
  {
  }
}
