/** Words and the unsigned numbers they stand for. */
module Numbers {
  import opened Words

  const MAX_WORD: bv32 := 0xFFFF_FFFF

  lemma UnsignedIs(a: bv32)
    ensures Unsigned(a) == 2 * Unsigned(Half(a)) + (if Odd(a) then 1 else 0)
  {
  }

  lemma IncrementEven(a: bv32)
    requires !Odd(a)
    ensures Half(Add32(a, 1)) == Half(a) && Odd(Add32(a, 1))
  {
  }

  lemma IncrementOdd(a: bv32)
    requires Odd(a) && a != MAX_WORD
    ensures Half(Add32(a, 1)) == Add32(Half(a), 1) && !Odd(Add32(a, 1))
  {
  }

  lemma HalfOfOdd(a: bv32)
    requires Odd(a)
    ensures Half(a) < a && Half(a) != MAX_WORD
  {
  }

  /** Adding one to a word adds one to its number, unless it is the largest word. */
  lemma {:induction false} UnsignedSuccessor(a: bv32)
    requires a != MAX_WORD
    ensures Unsigned(Add32(a, 1)) == Unsigned(a) + 1
    decreases a
  {
    hide Half, Odd, Unsigned, Add32;
    UnsignedIs(a);
    UnsignedIs(Add32(a, 1));
    if Odd(a) {
      IncrementOdd(a);
      HalfOfOdd(a);
      UnsignedSuccessor(Half(a));
    } else {
      IncrementEven(a);
    }
  }

  lemma UnsignedNibbles(a: bv32)
    requires a & 0xF == 0xF
    ensures Unsigned(a) == 16 * Unsigned(a >> 4) + 15
  {
    hide Half, Odd, Unsigned;
    NibbleBits(a);
    UnsignedIs(a);
    UnsignedIs(Half(a));
    UnsignedIs(Half(Half(a)));
    UnsignedIs(Half(Half(Half(a))));
  }

  lemma NibbleBits(a: bv32)
    requires a & 0xF == 0xF
    ensures Odd(a) && Odd(Half(a)) && Odd(Half(Half(a))) && Odd(Half(Half(Half(a))))
    ensures Half(Half(Half(Half(a)))) == a >> 4
  {
  }

  lemma UnsignedMaximum()
    ensures Unsigned(MAX_WORD) == 0xFFFF_FFFF
  {
    hide Unsigned;
    UnsignedNibbles(0xFFFF_FFFF);
    UnsignedNibbles(0xFFF_FFFF);
    UnsignedNibbles(0xFF_FFFF);
    UnsignedNibbles(0xF_FFFF);
    UnsignedNibbles(0xFFFF);
    UnsignedNibbles(0xFFF);
    UnsignedNibbles(0xFF);
    UnsignedNibbles(0xF);
    AddNothing(0);
  }

  lemma AddTwo(a: bv32)
    ensures Add32(a, 2) == Add32(Add32(a, 1), 1)
  {
  }

  lemma AddFour(a: bv32)
    ensures Add32(a, 4) == Add32(Add32(a, 2), 2)
  {
  }

  /** Advancing a pc by an instruction length adds that length while the result is below 2^32. */
  lemma UnsignedAdvance(a: bv32, length: bv32)
    requires (length == 2 || length == 4) && Unsigned(a) + 4 < 0x1_0000_0000
    ensures length == 2 ==> Unsigned(Add32(a, length)) == Unsigned(a) + 2
    ensures length == 4 ==> Unsigned(Add32(a, length)) == Unsigned(a) + 4
  {
    hide Unsigned, Add32;
    UnsignedAdvance2(a);
    if length == 4 {
      UnsignedAdvance2(Add32(a, 2));
      AddFour(a);
    }
  }

  lemma UnsignedAdvance2(a: bv32)
    requires Unsigned(a) + 2 < 0x1_0000_0000
    ensures Unsigned(Add32(a, 2)) == Unsigned(a) + 2
  {
    hide Unsigned, Add32;
    UnsignedMaximum();
    UnsignedSuccessor(a);
    UnsignedSuccessor(Add32(a, 1));
    AddTwo(a);
  }

  predicate Below(a: bv32, b: bv32) {
    a < b
  }

  lemma HalvesNotReversed(a: bv32, b: bv32)
    requires !Below(b, a)
    ensures !Below(Half(b), Half(a))
  {
  }

  lemma NeighboursOrdered(a: bv32, b: bv32)
    requires !Below(b, a) && a != b && Half(a) == Half(b)
    ensures Below(a, b)
  {
  }

  lemma NothingBelowZero(a: bv32)
    requires a != 0
    ensures Below(0, a) && Below(Half(a), a)
  {
  }

  lemma {:induction false} BelowOrEqual(a: bv32, b: bv32)
    requires !Below(b, a) && a != b
    ensures Below(a, b)
    decreases b
  {
    if b == 0 {
      NothingBelowZero(a);
    } else if Half(a) == Half(b) {
      NeighboursOrdered(a, b);
    } else {
      HalvesNotReversed(a, b);
      NothingBelowZero(b);
      assert Half(b) < b;
      hide Half, Below;
      BelowOrEqual(Half(a), Half(b));
      if !Below(a, b) {
        HalvesNotReversed(b, a);
      }
    }
  }

  lemma BelowAsymmetric(a: bv32, b: bv32)
    requires Below(a, b)
    ensures !Below(b, a)
  {
  }

  lemma HalvesOrdered(a: bv32, b: bv32)
    requires Below(a, b) && Half(a) != Half(b)
    ensures Below(Half(a), Half(b))
  {
    hide Half, Below;
    BelowAsymmetric(a, b);
    HalvesNotReversed(a, b);
    BelowOrEqual(Half(a), Half(b));
  }

  lemma HalvesOfNeighbours(a: bv32, b: bv32)
    requires Below(a, b) && Half(a) == Half(b)
    ensures !Odd(a) && Odd(b)
  {
  }

  lemma HalfShrinks(a: bv32, b: bv32)
    requires Below(a, b)
    ensures Half(b) < b
  {
  }

  /** Word order is number order. */
  lemma {:induction false} UnsignedMonotone(a: bv32, b: bv32)
    requires Below(a, b)
    ensures Unsigned(a) < Unsigned(b)
    decreases b
  {
    hide Unsigned, Half, Odd, Below;
    UnsignedIs(a);
    UnsignedIs(b);
    HalfShrinks(a, b);
    if Half(a) == Half(b) {
      HalvesOfNeighbours(a, b);
    } else {
      HalvesOrdered(a, b);
      UnsignedMonotone(Half(a), Half(b));
    }
  }

  lemma AddNothing(a: bv32)
    ensures Add32(a, 0) == a && Unsigned(0) == 0
  {
  }
}
