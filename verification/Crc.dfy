/** The bit-serial CRC-16 of the CoreMark kernels (reflected polynomial 0xA001). */
module Crc {

  // The operations on the register have names, so that proofs can treat them as black boxes.

  function Xor16(a: bv16, b: bv16): bv16 {
    a ^ b
  }

  function Half16(v: bv16): bv16 {
    v >> 1
  }

  predicate Odd16(v: bv16) {
    v & 1 == 1
  }

  predicate Top16(v: bv16) {
    v & 0x8000 != 0
  }

  /** Shift left, with this bit coming in. */
  function Push(v: bv16, bit: bool): bv16 {
    (v << 1) | (if bit then 1 else 0)
  }

  function HalfByte(data: bv8): bv8 {
    data >> 1
  }

  predicate OddByte(data: bv8) {
    data & 1 == 1
  }

  function Widen(data: bv8): bv16 {
    data as bv16
  }

  function LowByte(v: bv16): bv8 {
    (v & 0xFF) as bv8
  }

  function HighByte(v: bv16): bv8 {
    (v >> 8) as bv8
  }

  function Low16(v: bv32): bv16 {
    (v & 0xFFFF) as bv16
  }

  function High16(v: bv32): bv16 {
    (v >> 16) as bv16
  }

  // ---------------------------------------------------------------- reference definition

  /** One step of the shift register: the polynomial is subtracted when the bit that
      leaves differs from the bit that comes in. */
  function Feed(crc: bv16, bit: bool): bv16 {
    if Odd16(crc) != bit then Xor16(Half16(crc), 0xA001) else Half16(crc)
  }

  /** Bit by bit: the difference of the two enters at the top and at the places of the reflected
      polynomial x^16 + x^15 + x^2 + 1, and all other bits move down. */
  lemma FeedMoves(crc: bv16, bit: bool)
    ensures var next := Feed(crc, bit); var f := (crc & 1 != 0) != bit;
            && (next & 0x8000 != 0 <==> f)
            && (next & 0x4000 != 0 <==> crc & 0x8000 != 0)
            && (next & 0x2000 != 0 <==> (crc & 0x4000 != 0) != f)
            && next & 0x1FFE == (crc >> 1) & 0x1FFE
            && (next & 1 != 0 <==> (crc & 2 != 0) != f)
  {
  }

  function FeedBits(crc: bv16, bits: seq<bool>): bv16
    decreases |bits|
  {
    if bits == [] then crc else FeedBits(Feed(crc, bits[0]), bits[1..])
  }

  /** The low n bits of a byte, least significant first. */
  function BitsOf(data: bv8, n: nat): (bits: seq<bool>)
    ensures |bits| == n
    decreases n
  {
    if n == 0 then [] else [OddByte(data)] + BitsOf(HalfByte(data), n - 1)
  }

  /** Its bits, the least significant first. */
  lemma ByteBits(data: bv8)
    ensures var bits := BitsOf(data, 8);
            && bits[0] == (data & 1 != 0) && bits[1] == (data & 2 != 0)
            && bits[2] == (data & 4 != 0) && bits[3] == (data & 8 != 0)
            && bits[4] == (data & 0x10 != 0) && bits[5] == (data & 0x20 != 0)
            && bits[6] == (data & 0x40 != 0) && bits[7] == (data & 0x80 != 0)
  {
    hide OddByte, HalfByte;
    FirstBits(data, 4);
    FirstBits(HalfByte(HalfByte(HalfByte(HalfByte(data)))), 0);
    LowBits(data);
    HighBits(data);
  }

  lemma FirstBits(data: bv8, n: nat)
    ensures var bits := BitsOf(data, n + 4);
            && bits[0] == OddByte(data) && bits[1] == OddByte(HalfByte(data))
            && bits[2] == OddByte(HalfByte(HalfByte(data))) && bits[3] == OddByte(HalfByte(HalfByte(HalfByte(data))))
            && bits[4..] == BitsOf(HalfByte(HalfByte(HalfByte(HalfByte(data)))), n)
  {
    hide OddByte, HalfByte, BitsOf;
    var bits := BitsOf(data, n + 4);
    TwoBits(data, n + 2);
    TwoBits(HalfByte(HalfByte(data)), n);
    assert bits[2] == bits[2..][0] && bits[3] == bits[2..][1] && bits[4..] == bits[2..][2..];
  }

  lemma TwoBits(data: bv8, n: nat)
    ensures var bits := BitsOf(data, n + 2);
            && bits[0] == OddByte(data) && bits[1] == OddByte(HalfByte(data))
            && bits[2..] == BitsOf(HalfByte(HalfByte(data)), n)
  {
    hide OddByte, HalfByte, BitsOf;
    var bits := BitsOf(data, n + 2);
    NextBit(data, n + 1);
    NextBit(HalfByte(data), n);
    assert bits[1] == bits[1..][0] && bits[2..] == bits[1..][1..];
  }

  lemma NextBit(data: bv8, n: nat)
    ensures BitsOf(data, n + 1)[0] == OddByte(data) && BitsOf(data, n + 1)[1..] == BitsOf(HalfByte(data), n)
  {
    hide OddByte, HalfByte;
  }

  lemma LowBits(data: bv8)
    ensures OddByte(data) == (data & 1 != 0) && OddByte(HalfByte(data)) == (data & 2 != 0)
    ensures OddByte(HalfByte(HalfByte(data))) == (data & 4 != 0)
    ensures OddByte(HalfByte(HalfByte(HalfByte(data)))) == (data & 8 != 0)
  {
  }

  lemma HighBits(data: bv8)
    ensures var data4 := HalfByte(HalfByte(HalfByte(HalfByte(data))));
            && OddByte(data4) == (data & 0x10 != 0) && OddByte(HalfByte(data4)) == (data & 0x20 != 0)
            && OddByte(HalfByte(HalfByte(data4))) == (data & 0x40 != 0)
            && OddByte(HalfByte(HalfByte(HalfByte(data4)))) == (data & 0x80 != 0)
  {
  }

  function MessageBits(message: seq<bv8>): (bits: seq<bool>)
    ensures |bits| == 8 * |message|
    decreases |message|
  {
    if message == [] then [] else BitsOf(message[0], 8) + MessageBits(message[1..])
  }

  function MessageCrc(message: seq<bv8>, crc: bv16): bv16 {
    FeedBits(crc, MessageBits(message))
  }

  /** The bytes of a 16-bit value, low byte first. */
  function WordBytes(v: bv16): seq<bv8> {
    [LowByte(v), HighByte(v)]
  }

  // ---------------------------------------------------------------- the routines

  /** The shift as the routine does it: part of the polynomial before the shift, the top
      bit after it. */
  function ShiftOut(crc: bv16, subtract: bool): bv16 {
    if subtract then ((crc ^ 0x4002) >> 1) | 0x8000 else (crc >> 1) & 0x7FFF
  }

  lemma ShiftOutIsFeed(crc: bv16, bit: bool)
    ensures ShiftOut(crc, Odd16(crc) != bit) == Feed(crc, bit)
  {
  }

  method Crcu8(value: bv8, start: bv16) returns (crc: bv16)
    ensures crc == MessageCrc([value], start)
  {
    hide Feed, ShiftOut, Odd16, OddByte, HalfByte;
    var data := value;
    crc := start;
    assert MessageBits([value]) == BitsOf(value, 8) + [] == BitsOf(value, 8);
    for i := 0 to 8
      invariant FeedBits(crc, BitsOf(data, 8 - i)) == MessageCrc([value], start)
    {
      var x16 := OddByte(data) != Odd16(crc);
      ShiftOutIsFeed(crc, OddByte(data));
      assert BitsOf(data, 8 - i)[1..] == BitsOf(HalfByte(data), 8 - (i + 1));
      data := HalfByte(data);
      crc := ShiftOut(crc, x16);
    }
  }

  lemma WordBytesMean(v: bv16)
    ensures WordBytes(v) == [LowByte(v), HighByte(v)]
  {
  }

  lemma WordBytesAre(v: bv16)
    ensures WordBytes(v) == [(v & 0xFF) as bv8, ((v >> 8) & 0xFF) as bv8]
  {
  }

  method Crcu16(value: bv16, start: bv16) returns (crc: bv16)
    ensures crc == MessageCrc(WordBytes(value), start)
    ensures crc == MessageCrc([(value & 0xFF) as bv8, ((value >> 8) & 0xFF) as bv8], start)
  {
    WordBytesAre(value);
    hide MessageCrc, LowByte, HighByte, WordBytes;
    crc := Crcu8(LowByte(value), start);
    crc := Crcu8(HighByte(value), crc);
    MessageCrcSplits([LowByte(value)], [HighByte(value)], start);
    assert [LowByte(value)] + [HighByte(value)] == WordBytes(value) by {
      WordBytesMean(value);
    }
  }

  method Crc16(value: bv16, start: bv16) returns (crc: bv16)
    ensures crc == MessageCrc(WordBytes(value), start)
  {
    crc := Crcu16(value, start);
  }

  /** The four bytes of a value, lowest first. */
  function LongBytes(v: bv32): (bytes: seq<bv8>)
    ensures |bytes| == 4
  {
    WordBytes(Low16(v)) + WordBytes(High16(v))
  }

  lemma LongBytesAre(v: bv32)
    ensures LongBytes(v) == [(v & 0xFF) as bv8, ((v >> 8) & 0xFF) as bv8, ((v >> 16) & 0xFF) as bv8,
                             ((v >> 24) & 0xFF) as bv8]
  {
    LowBytes(v);
    HighBytes(v);
    hide Low16, High16, LowByte, HighByte;
  }

  lemma LowBytes(v: bv32)
    ensures LowByte(Low16(v)) == (v & 0xFF) as bv8 && HighByte(Low16(v)) == ((v >> 8) & 0xFF) as bv8
  {
  }

  lemma HighBytes(v: bv32)
    ensures LowByte(High16(v)) == ((v >> 16) & 0xFF) as bv8 && HighByte(High16(v)) == ((v >> 24) & 0xFF) as bv8
  {
  }

  method Crcu32(value: bv32, start: bv16) returns (crc: bv16)
    ensures crc == MessageCrc([(value & 0xFF) as bv8, ((value >> 8) & 0xFF) as bv8, ((value >> 16) & 0xFF) as bv8,
                               ((value >> 24) & 0xFF) as bv8], start)
  {
    LongBytesAre(value);
    hide MessageCrc, WordBytes, Low16, High16;
    crc := Crc16(Low16(value), start);
    crc := Crc16(High16(value), crc);
    MessageCrcSplits(WordBytes(Low16(value)), WordBytes(High16(value)), start);
  }

  // ---------------------------------------------------------------- concatenation

  lemma {:induction false} FeedBitsSplits(crc: bv16, a: seq<bool>, b: seq<bool>)
    ensures FeedBits(crc, a + b) == FeedBits(FeedBits(crc, a), b)
    decreases |a|
  {
    hide Feed;
    if a == [] {
      assert a + b == b;
    } else {
      assert (a + b)[1..] == a[1..] + b;
      FeedBitsSplits(Feed(crc, a[0]), a[1..], b);
    }
  }

  lemma {:induction false} MessageBitsSplit(a: seq<bv8>, b: seq<bv8>)
    ensures MessageBits(a + b) == MessageBits(a) + MessageBits(b)
    decreases |a|
  {
    hide BitsOf;
    if a == [] {
      assert a + b == b;
    } else {
      assert (a + b)[1..] == a[1..] + b;
      MessageBitsSplit(a[1..], b);
    }
  }

  lemma MessageCrcSplits(a: seq<bv8>, b: seq<bv8>, crc: bv16)
    ensures MessageCrc(a + b, crc) == MessageCrc(b, MessageCrc(a, crc))
  {
    hide FeedBits, MessageBits;
    MessageBitsSplit(a, b);
    FeedBitsSplits(crc, MessageBits(a), MessageBits(b));
  }

  // ---------------------------------------------------------------- linearity

  function XorBits(a: seq<bool>, b: seq<bool>): (r: seq<bool>)
    requires |a| == |b|
    ensures |r| == |a|
    decreases |a|
  {
    if a == [] then [] else [a[0] != b[0]] + XorBits(a[1..], b[1..])
  }

  lemma OddOfXor(c: bv16, d: bv16)
    ensures Odd16(Xor16(c, d)) == (Odd16(c) != Odd16(d))
  {
  }

  lemma HalfOfXor(c: bv16, d: bv16)
    ensures Half16(Xor16(c, d)) == Xor16(Half16(c), Half16(d))
  {
  }

  lemma XorBoth(a: bv16, b: bv16, p: bv16)
    ensures Xor16(Xor16(a, p), Xor16(b, p)) == Xor16(a, b)
  {
    hide Xor16;
    XorOne(Xor16(a, p), b, p);
    XorOne(a, b, p);
    XorTwice(Xor16(a, b), p);
  }

  lemma XorAssociates(a: bv16, b: bv16, p: bv16)
    ensures Xor16(a, Xor16(b, p)) == Xor16(Xor16(a, b), p)
  {
  }

  lemma XorOne(a: bv16, b: bv16, p: bv16)
    ensures Xor16(Xor16(a, p), b) == Xor16(Xor16(a, b), p)
    ensures Xor16(a, Xor16(b, p)) == Xor16(Xor16(a, b), p)
  {
    hide Xor16;
    XorAssociates(a, p, b);
    XorCommutes(p, b);
    XorAssociates(a, b, p);
  }

  lemma FeedIsLinear(c: bv16, d: bv16, x: bool, y: bool)
    ensures Feed(Xor16(c, d), x != y) == Xor16(Feed(c, x), Feed(d, y))
  {
    hide Xor16, Half16, Odd16;
    OddOfXor(c, d);
    HalfOfXor(c, d);
    XorBoth(Half16(c), Half16(d), 0xA001);
    XorOne(Half16(c), Half16(d), 0xA001);
  }

  /** The CRC is linear over exclusive or, in the register and the data together. */
  lemma {:induction false} CrcIsLinear(c: bv16, d: bv16, a: seq<bool>, b: seq<bool>)
    requires |a| == |b|
    ensures FeedBits(Xor16(c, d), XorBits(a, b)) == Xor16(FeedBits(c, a), FeedBits(d, b))
    decreases |a|
  {
    hide Feed, Xor16;
    if a != [] {
      FeedIsLinear(c, d, a[0], b[0]);
      assert XorBits(a, b)[1..] == XorBits(a[1..], b[1..]);
      CrcIsLinear(Feed(c, a[0]), Feed(d, b[0]), a[1..], b[1..]);
    }
  }

  // ---------------------------------------------------------------- bijection

  /** The register before a step, recovered from the register after it: the polynomial was
      subtracted exactly when the top bit is set. */
  function Unfeed(crc: bv16, bit: bool): bv16 {
    if Top16(crc) then Push(Xor16(crc, 0xA001), !bit) else Push(crc, bit)
  }

  function UnfeedBits(crc: bv16, bits: seq<bool>): bv16
    decreases |bits|
  {
    if bits == [] then crc else Unfeed(UnfeedBits(crc, bits[1..]), bits[0])
  }

  lemma HalfHasNoTop(v: bv16)
    ensures !Top16(Half16(v)) && Top16(Xor16(Half16(v), 0xA001))
  {
  }

  lemma XorTwice(v: bv16, p: bv16)
    ensures Xor16(Xor16(v, p), p) == v
  {
  }

  lemma PushHalf(v: bv16)
    ensures Push(Half16(v), Odd16(v)) == v
  {
  }

  lemma HalfPush(v: bv16, bit: bool)
    requires !Top16(v)
    ensures Half16(Push(v, bit)) == v
  {
  }

  lemma OddPush(v: bv16, bit: bool)
    ensures Odd16(Push(v, bit)) == bit
  {
  }

  lemma PolynomialHasTop(v: bv16)
    requires Top16(v)
    ensures !Top16(Xor16(v, 0xA001))
  {
  }

  lemma UnfeedFeed(crc: bv16, bit: bool)
    ensures Unfeed(Feed(crc, bit), bit) == crc
  {
    hide Xor16, Half16, Odd16, Top16, Push;
    HalfHasNoTop(crc);
    XorTwice(Half16(crc), 0xA001);
    PushHalf(crc);
  }

  lemma FeedUnfeed(crc: bv16, bit: bool)
    ensures Feed(Unfeed(crc, bit), bit) == crc
  {
    hide Xor16, Half16, Odd16, Top16, Push;
    if Top16(crc) {
      PolynomialHasTop(crc);
      HalfPush(Xor16(crc, 0xA001), !bit);
      OddPush(Xor16(crc, 0xA001), !bit);
      XorTwice(crc, 0xA001);
    } else {
      HalfPush(crc, bit);
      OddPush(crc, bit);
    }
  }

  /** For fixed data the CRC is a bijection of the register, and this is its inverse. */
  lemma {:induction false} CrcIsBijective(crc: bv16, bits: seq<bool>)
    ensures UnfeedBits(FeedBits(crc, bits), bits) == crc
    ensures FeedBits(UnfeedBits(crc, bits), bits) == crc
    decreases |bits|
  {
    hide Feed, Unfeed;
    if bits != [] {
      CrcIsBijective(Feed(crc, bits[0]), bits[1..]);
      CrcIsBijective(crc, bits[1..]);
      UnfeedFeed(crc, bits[0]);
      FeedUnfeed(UnfeedBits(crc, bits[1..]), bits[0]);
    }
  }

  // ---------------------------------------------------------------- data as a register difference

  function Idle(n: nat): (bits: seq<bool>)
    ensures |bits| == n
  {
    seq(n, _ => false)
  }

  /** The number whose bits these are, least significant first (up to 16 bits). */
  function Pack(bits: seq<bool>): bv16
    decreases |bits|
  {
    if bits == [] then 0 else Push(Pack(bits[1..]), bits[0])
  }

  /** Whether the bits of v from n upwards are clear. */
  predicate Narrow(v: bv16, n: nat)
    decreases n
  {
    if n == 0 then v == 0 else Narrow(Half16(v), n - 1)
  }

  lemma HalfOfZero()
    ensures Half16(0) == 0 && !Top16(0)
  {
  }

  /** The bit that bit 15 becomes after n steps to the right. */
  lemma {:induction false} NarrowLeavesTop(v: bv16, n: nat)
    requires Narrow(v, n) && n <= 15
    ensures !Top16(v)
  {
    hide Top16, Half16;
    NarrowerIsNarrow(v, n, 15);
    var v1 := Half16(v); var v2 := Half16(v1); var v3 := Half16(v2); var v4 := Half16(v3);
    var v5 := Half16(v4); var v6 := Half16(v5); var v7 := Half16(v6); var v8 := Half16(v7);
    var v9 := Half16(v8); var v10 := Half16(v9); var v11 := Half16(v10); var v12 := Half16(v11);
    var v13 := Half16(v12); var v14 := Half16(v13); var v15 := Half16(v14);
    assert Narrow(v4, 11);
    assert Narrow(v8, 7);
    assert Narrow(v12, 3);
    assert v15 == 0;
    FifteenHalves(v);
  }

  lemma FifteenHalves(v: bv16)
    requires
      var v4 := Half16(Half16(Half16(Half16(v))));
      var v8 := Half16(Half16(Half16(Half16(v4))));
      var v12 := Half16(Half16(Half16(Half16(v8))));
      Half16(Half16(Half16(v12))) == 0
    ensures !Top16(v)
  {
  }

  lemma {:induction false} NarrowerIsNarrow(v: bv16, n: nat, m: nat)
    requires n <= m && Narrow(v, n)
    ensures Narrow(v, m)
    decreases m
  {
    hide Half16;
    HalfOfZero();
    if n > 0 {
      NarrowerIsNarrow(Half16(v), n - 1, m - 1);
    } else if m > 0 {
      NarrowerIsNarrow(Half16(v), 0, m - 1);
    }
  }

  lemma {:induction false} PackIsNarrow(bits: seq<bool>)
    requires |bits| <= 16
    ensures Narrow(Pack(bits), |bits|)
    ensures |bits| <= 15 ==> !Top16(Pack(bits))
    decreases |bits|
  {
    hide Half16, Push, Top16;
    if bits != [] {
      PackIsNarrow(bits[1..]);
      HalfPush(Pack(bits[1..]), bits[0]);
    }
    if |bits| <= 15 {
      NarrowLeavesTop(Pack(bits), |bits|);
    }
  }

  /** A difference of the register that has the data bit last is the data bit fed in. */
  lemma FeedOfPacked(crc: bv16, rest: bv16, bit: bool)
    requires !Top16(rest)
    ensures Feed(Xor16(crc, Push(rest, bit)), false) == Xor16(Feed(crc, bit), rest)
  {
    hide Xor16, Half16, Odd16, Top16, Push;
    OddOfXor(crc, Push(rest, bit));
    HalfOfXor(crc, Push(rest, bit));
    OddPush(rest, bit);
    HalfPush(rest, bit);
    XorOne(Half16(crc), rest, 0xA001);
  }

  lemma XorZero(v: bv16)
    ensures Xor16(v, 0) == v
  {
  }

  /** Up to 16 bits of data act as a difference of the register they are fed into. */
  lemma {:induction false} DataIsRegisterDifference(crc: bv16, bits: seq<bool>)
    requires |bits| <= 16
    ensures FeedBits(crc, bits) == FeedBits(Xor16(crc, Pack(bits)), Idle(|bits|))
    decreases |bits|
  {
    hide Feed, Xor16, Push, Top16;
    if bits == [] {
      XorZero(crc);
    } else {
      var rest := bits[1..];
      PackIsNarrow(rest);
      FeedOfPacked(crc, Pack(rest), bits[0]);
      DataIsRegisterDifference(Feed(crc, bits[0]), rest);
      assert Idle(|bits|)[1..] == Idle(|rest|);
    }
  }

  lemma {:induction false} PackIsInjective(a: seq<bool>, b: seq<bool>)
    requires |a| == |b| <= 16 && Pack(a) == Pack(b)
    ensures a == b
    decreases |a|
  {
    hide Push, Top16, Odd16, Half16;
    if a != [] {
      PackIsNarrow(a[1..]);
      PackIsNarrow(b[1..]);
      HalfPush(Pack(a[1..]), a[0]);
      HalfPush(Pack(b[1..]), b[0]);
      OddPush(Pack(a[1..]), a[0]);
      OddPush(Pack(b[1..]), b[0]);
      PackIsInjective(a[1..], b[1..]);
      assert a == [a[0]] + a[1..] && b == [b[0]] + b[1..];
    }
  }

  // ---------------------------------------------------------------- words as data

  lemma {:induction false} ZeroBits(n: nat)
    ensures BitsOf(0, n) == Idle(n)
  {
    hide OddByte, HalfByte;
    if n > 0 {
      assert HalfByte(0) == 0 && !OddByte(0) by {
        ZeroByte();
      }
      ZeroBits(n - 1);
    }
  }

  lemma ZeroByte()
    ensures HalfByte(0) == 0 && !OddByte(0)
  {
  }

  lemma TwoBytes(a: bv8, b: bv8)
    ensures MessageBits([a, b]) == BitsOf(a, 8) + BitsOf(b, 8)
  {
    hide BitsOf;
    assert [a, b][1..] == [b] && MessageBits([b]) == BitsOf(b, 8) + [];
  }

  /** The bits of data, n of them, put below those of high. */
  function Below(high: bv16, data: bv8, n: nat): bv16
    decreases n
  {
    if n == 0 then high else Push(Below(high, HalfByte(data), n - 1), OddByte(data))
  }

  lemma {:induction false} PackBelow(data: bv8, n: nat, more: seq<bool>)
    ensures Pack(BitsOf(data, n) + more) == Below(Pack(more), data, n)
    decreases n
  {
    hide Push, OddByte, HalfByte;
    if n == 0 {
      assert [] + more == more;
    } else {
      var bits, rest := BitsOf(data, n), BitsOf(HalfByte(data), n - 1);
      assert bits == [OddByte(data)] + rest;
      assert bits + more == [OddByte(data)] + (rest + more);
      assert (bits + more)[1..] == rest + more;
      PackBelow(HalfByte(data), n - 1, more);
    }
  }

  /** Four bits put below those of high. */
  function BelowNibble(high: bv16, data: bv8): bv16 {
    (high << 4) | Widen(data & 15)
  }

  function BelowOctet(high: bv16, data: bv8): bv16 {
    (high << 8) | Widen(data)
  }

  lemma BelowByte(high: bv16, data: bv8)
    ensures Below(high, data, 8) == BelowOctet(high, data)
  {
    hide Push, OddByte, HalfByte, BelowNibble, BelowOctet;
    var d4 := HalfByte(HalfByte(HalfByte(HalfByte(data))));
    FourBelow(high, d4, 0);
    FourBelow(high, data, 4);
    NibblesOfByte(high, data);
  }

  lemma FourBelow(high: bv16, data: bv8, n: nat)
    ensures Below(high, data, n + 4) == BelowNibble(Below(high, HalfByte(HalfByte(HalfByte(HalfByte(data)))), n), data)
  {
    hide Push, OddByte, HalfByte, BelowNibble;
    var d1 := HalfByte(data);
    var d2 := HalfByte(d1);
    var d3 := HalfByte(d2);
    assert Below(high, d2, n + 2) == Push(Push(Below(high, HalfByte(d3), n), OddByte(d3)), OddByte(d2));
    FourPushes(Below(high, HalfByte(d3), n), data);
  }

  lemma FourPushes(high: bv16, data: bv8)
    ensures
      Push(Push(Push(Push(high, OddByte(HalfByte(HalfByte(HalfByte(data))))), OddByte(HalfByte(HalfByte(data)))),
          OddByte(HalfByte(data))), OddByte(data))
      == BelowNibble(high, data)
  {
  }

  lemma NibblesOfByte(high: bv16, data: bv8)
    ensures BelowNibble(BelowNibble(high, HalfByte(HalfByte(HalfByte(HalfByte(data))))), data) == BelowOctet(high, data)
  {
  }

  lemma BytesOfWord(v: bv16)
    ensures BelowOctet(BelowOctet(0, HighByte(v)), LowByte(v)) == v
  {
  }

  lemma PackWord(value: bv16)
    ensures Pack(MessageBits(WordBytes(value))) == value
  {
    hide LowByte, HighByte, Below, BitsOf, MessageBits, BelowOctet;
    var a, b := LowByte(value), HighByte(value);
    TwoBytes(a, b);
    PackBelow(a, 8, BitsOf(b, 8));
    PackBelow(b, 8, []);
    assert BitsOf(b, 8) + [] == BitsOf(b, 8);
    BelowByte(0, b);
    BelowByte(Pack(BitsOf(b, 8)), a);
    BytesOfWord(value);
  }

  lemma XorCommutes(a: bv16, b: bv16)
    ensures Xor16(a, b) == Xor16(b, a)
  {
  }

  lemma BytesOfZero()
    ensures WordBytes(0) == [0, 0]
  {
  }

  /** A 16-bit value fed into a register gives what zero gives from their exclusive or. */
  lemma WordIsRegisterDifference(value: bv16, crc: bv16)
    ensures MessageCrc(WordBytes(value), crc) == MessageCrc(WordBytes(0), Xor16(value, crc))
  {
    hide MessageBits, Xor16, FeedBits, BitsOf, Pack, LowByte, HighByte;
    PackWord(value);
    BytesOfZero();
    TwoBytes(0, 0);
    ZeroBits(8);
    assert MessageBits(WordBytes(0)) == Idle(16);
    DataIsRegisterDifference(crc, MessageBits(WordBytes(value)));
    XorCommutes(crc, value);
  }

  // ---------------------------------------------------------------- error detection

  lemma XorCancels(crc: bv16, x: bv16, y: bv16)
    requires Xor16(crc, x) == Xor16(crc, y)
    ensures x == y
  {
    assert Xor16(crc, Xor16(crc, x)) == x;
    assert Xor16(crc, Xor16(crc, y)) == y;
  }

  lemma ShortDataIsInjective(crc: bv16, a: seq<bool>, b: seq<bool>)
    requires |a| == |b| <= 16 && a != b
    ensures FeedBits(crc, a) != FeedBits(crc, b)
  {
    hide FeedBits, UnfeedBits, Pack, Xor16, Idle;
    if FeedBits(crc, a) == FeedBits(crc, b) {
      DataIsRegisterDifference(crc, a);
      DataIsRegisterDifference(crc, b);
      CrcIsBijective(Xor16(crc, Pack(a)), Idle(|a|));
      CrcIsBijective(Xor16(crc, Pack(b)), Idle(|a|));
      XorCancels(crc, Pack(a), Pack(b));
      PackIsInjective(a, b);
    }
  }

  /** Two messages of any length that differ only within 16 consecutive bits have different
      CRCs, whatever the start value. */
  lemma BurstsAreDetected(prefix: seq<bool>, a: seq<bool>, b: seq<bool>, suffix: seq<bool>, crc: bv16)
    requires |a| == |b| <= 16 && a != b
    ensures FeedBits(crc, prefix + a + suffix) != FeedBits(crc, prefix + b + suffix)
  {
    hide FeedBits, UnfeedBits;
    var c := FeedBits(crc, prefix);
    FeedBitsSplits(crc, prefix, a);
    FeedBitsSplits(crc, prefix, b);
    FeedBitsSplits(crc, prefix + a, suffix);
    FeedBitsSplits(crc, prefix + b, suffix);
    ShortDataIsInjective(c, a, b);
    CrcIsBijective(FeedBits(c, a), suffix);
    CrcIsBijective(FeedBits(c, b), suffix);
  }

  /** Byte messages that differ only within two adjacent bytes have different CRCs. */
  lemma AdjacentByteErrorsAreDetected(prefix: seq<bv8>, a: seq<bv8>, b: seq<bv8>, suffix: seq<bv8>, crc: bv16)
    requires |a| == |b| <= 2 && a != b
    ensures MessageCrc(prefix + a + suffix, crc) != MessageCrc(prefix + b + suffix, crc)
  {
    hide FeedBits, MessageBits;
    MessageBitsSplit(prefix, a);
    MessageBitsSplit(prefix, b);
    MessageBitsSplit(prefix + a, suffix);
    MessageBitsSplit(prefix + b, suffix);
    if MessageBits(a) == MessageBits(b) {
      MessageBitsInjective(a, b);
    }
    BurstsAreDetected(MessageBits(prefix), MessageBits(a), MessageBits(b), MessageBits(suffix), crc);
  }

  lemma {:induction false} MessageBitsInjective(a: seq<bv8>, b: seq<bv8>)
    requires |a| == |b| && MessageBits(a) == MessageBits(b)
    ensures a == b
    decreases |a|
  {
    hide BitsOf, Pack, Below;
    if a != [] {
      assert MessageBits(a)[..8] == BitsOf(a[0], 8) && MessageBits(b)[..8] == BitsOf(b[0], 8);
      assert MessageBits(a)[8..] == MessageBits(a[1..]) && MessageBits(b)[8..] == MessageBits(b[1..]);
      ByteFromBits(a[0], b[0]);
      MessageBitsInjective(a[1..], b[1..]);
      assert a == [a[0]] + a[1..] && b == [b[0]] + b[1..];
    }
  }

  lemma ByteFromBits(a: bv8, b: bv8)
    requires BitsOf(a, 8) == BitsOf(b, 8)
    ensures a == b
  {
    hide BitsOf, Below, BelowOctet;
    PackBelow(a, 8, []);
    PackBelow(b, 8, []);
    BelowByte(0, a);
    BelowByte(0, b);
    WidenIsInjective(a, b);
  }

  lemma WidenIsInjective(a: bv8, b: bv8)
    ensures BelowOctet(0, a) == BelowOctet(0, b) ==> a == b
  {
  }

  // ---------------------------------------------------------------- odd errors

  /** Whether an odd number of the low n bits of v are set. */
  predicate OddLow(v: bv16, n: nat)
    decreases n
  {
    n > 0 && Odd16(v) != OddLow(Half16(v), n - 1)
  }

  /** Whether an odd number of the bits of the register are set. */
  predicate OddWeight(v: bv16) {
    OddLow(v, 16)
  }

  predicate OddBits(bits: seq<bool>)
    decreases |bits|
  {
    bits != [] && bits[0] != OddBits(bits[1..])
  }

  lemma {:induction false} WeightOfXor(a: bv16, b: bv16, n: nat)
    ensures OddLow(Xor16(a, b), n) == (OddLow(a, n) != OddLow(b, n))
    decreases n
  {
    hide Xor16, Half16, Odd16;
    if n > 0 {
      OddOfXor(a, b);
      HalfOfXor(a, b);
      WeightOfXor(Half16(a), Half16(b), n - 1);
    }
  }

  function Halves(v: bv16, n: nat): bv16
    decreases n
  {
    if n == 0 then v else Halves(Half16(v), n - 1)
  }

  lemma {:induction false} OneBitMore(v: bv16, n: nat)
    ensures OddLow(v, n + 1) == (OddLow(v, n) != Odd16(Halves(v, n)))
    decreases n
  {
    hide Half16, Odd16;
    if n > 0 {
      OneBitMore(Half16(v), n - 1);
    }
  }

  lemma {:induction false} HalvesAdd(v: bv16, m: nat, n: nat)
    ensures Halves(v, m + n) == Halves(Halves(v, m), n)
    decreases m
  {
    hide Half16;
    if m > 0 {
      HalvesAdd(Half16(v), m - 1, n);
    }
  }

  lemma FourHalves(v: bv16)
    ensures Halves(v, 4) == v >> 4
  {
    var v1 := Half16(v);
    var v2 := Half16(v1);
    var v3 := Half16(v2);
    assert Halves(v, 4) == Halves(v2, 2) == Half16(v3);
  }

  lemma NothingLeft(v: bv16)
    ensures Halves(v, 16) == 0
  {
    HalvesAdd(v, 4, 12);
    HalvesAdd(v >> 4, 4, 8);
    HalvesAdd((v >> 4) >> 4, 4, 4);
    FourHalves(v);
    FourHalves(v >> 4);
    FourHalves((v >> 4) >> 4);
    FourHalves(((v >> 4) >> 4) >> 4);
    hide Halves;
  }

  /** The bit that leaves is counted separately. */
  lemma WeightOfHalf(v: bv16)
    ensures OddWeight(Half16(v)) == (OddWeight(v) != Odd16(v))
  {
    OneBitMore(Half16(v), 15);
    NothingLeft(v);
    NoWeight();
    hide Half16, Odd16;
  }

  lemma NoWeight()
    ensures !Odd16(0)
  {
  }

  lemma WeightOfPolynomial()
    ensures OddWeight(0xA001)
  {
    assert !OddLow(5, 3) by {
      assert Half16(5) == 2 && Half16(2) == 1 && Half16(1) == 0;
      assert OddLow(1, 1) && !Odd16(2) && Odd16(5);
      assert OddLow(2, 2);
    }
    assert !OddLow(0x50, 7) by {
      assert Half16(0x50) == 0x28 && Half16(0x28) == 0x14 && Half16(0x14) == 0xA && Half16(0xA) == 5;
      assert !OddLow(0xA, 4) && !OddLow(0x14, 5) && !OddLow(0x28, 6);
    }
    assert !OddLow(0x500, 11) by {
      assert Half16(0x500) == 0x280 && Half16(0x280) == 0x140 && Half16(0x140) == 0xA0 && Half16(0xA0) == 0x50;
      assert !OddLow(0xA0, 8) && !OddLow(0x140, 9) && !OddLow(0x280, 10);
    }
    assert !OddLow(0x5000, 15) by {
      assert Half16(0x5000) == 0x2800 && Half16(0x2800) == 0x1400 && Half16(0x1400) == 0xA00 && Half16(0xA00) == 0x500;
      assert !OddLow(0xA00, 12) && !OddLow(0x1400, 13) && !OddLow(0x2800, 14);
    }
    assert Half16(0xA001) == 0x5000;
  }

  lemma FeedParity(crc: bv16, bit: bool)
    ensures OddWeight(Feed(crc, bit)) == (OddWeight(crc) != bit)
  {
    hide OddLow, Xor16, Half16, Odd16;
    WeightOfHalf(crc);
    WeightOfPolynomial();
    WeightOfXor(Half16(crc), 0xA001, 16);
  }

  lemma {:induction false} CrcParity(crc: bv16, bits: seq<bool>)
    ensures OddWeight(FeedBits(crc, bits)) == (OddWeight(crc) != OddBits(bits))
    decreases |bits|
  {
    hide Feed, OddWeight;
    if bits != [] {
      FeedParity(crc, bits[0]);
      CrcParity(Feed(crc, bits[0]), bits[1..]);
    }
  }

  lemma {:induction false} XorParity(a: seq<bool>, b: seq<bool>)
    requires |a| == |b|
    ensures OddBits(XorBits(a, b)) == (OddBits(a) != OddBits(b))
    decreases |a|
  {
    if a != [] {
      XorParity(a[1..], b[1..]);
      assert XorBits(a, b)[1..] == XorBits(a[1..], b[1..]);
    }
  }

  /** Messages that differ in an odd number of bits, anywhere, have different CRCs. */
  lemma OddErrorsAreDetected(a: seq<bool>, b: seq<bool>, crc: bv16)
    requires |a| == |b| && OddBits(XorBits(a, b))
    ensures FeedBits(crc, a) != FeedBits(crc, b)
  {
    hide FeedBits, OddWeight, OddBits, XorBits;
    XorParity(a, b);
    CrcParity(crc, a);
    CrcParity(crc, b);
  }
}
