/** Program images: what the assembler appends is what the model fetches back. */
module Image {
  import opened Words
  import opened Isa
  import opened Decoder
  import opened Encoder
  import opened Machine
  import opened Numbers

  /** What add16 and add32 append. */
  datatype Parcel = Short(value: bv32) | Long(value: bv32) {
    function Length(): bv32 {
      if Short? then 2 else 4
    }

    /** The low two bits tell the lengths apart. */
    predicate Proper() {
      if Short? then IsCompressed(value) else value & 3 == 3
    }
  }

  function LittleEndian(value: bv32, size: nat): seq<bv8> {
    seq(size, k requires 0 <= k < size => ByteOf(value, k))
  }

  function ParcelBytes(p: Parcel): seq<bv8> {
    LittleEndian(p.value, if p.Short? then 2 else 4)
  }

  function Flatten(ps: seq<Parcel>): seq<bv8> {
    if ps == [] then [] else ParcelBytes(ps[0]) + Flatten(ps[1..])
  }

  function FromLittleEndian(bytes: seq<bv8>): bv32
    requires |bytes| == 4
  {
    (bytes[0] as bv32) | ((bytes[1] as bv32) << 8) | ((bytes[2] as bv32) << 16) | ((bytes[3] as bv32) << 24)
  }

  /** Zero bytes up to a multiple of four. */
  function Padded(bytes: seq<bv8>): (r: seq<bv8>)
    ensures |r| % 4 == 0 && bytes <= r && |bytes| <= |r| < |bytes| + 4
    decreases (4 - |bytes| % 4) % 4
  {
    if |bytes| % 4 == 0 then bytes else Padded(bytes + [0])
  }

  function Grouped(bytes: seq<bv8>): (words: seq<bv32>)
    requires |bytes| % 4 == 0
    ensures 4 * |words| == |bytes|
  {
    if bytes == [] then [] else [FromLittleEndian(bytes[..4])] + Grouped(bytes[4..])
  }

  class ProgramImage {
    var bytes: seq<bv8>

    constructor ()
      ensures bytes == []
    {
      bytes := [];
    }

    method Add16(value: bv32)
      modifies this
      ensures bytes == old(bytes) + ParcelBytes(Short(value & 0xFFFF))
    {
      bytes := bytes + ParcelBytes(Short(value & 0xFFFF));
    }

    method Add32(value: bv32)
      modifies this
      ensures bytes == old(bytes) + ParcelBytes(Long(value))
    {
      bytes := bytes + ParcelBytes(Long(value));
    }

    method Words() returns (words: seq<bv32>)
      ensures words == Grouped(Padded(bytes))
    {
      var data := bytes;
      while |data| % 4 != 0
        invariant Padded(data) == Padded(bytes)
        decreases (4 - |data| % 4) % 4
      {
        data := data + [0];
      }
      words := Grouped(data);
    }
  }

  // ---------------------------------------------------------------- loading

  /** The cells from address on hold the given bytes. */
  ghost predicate Holds(memory: Memory, address: int, bytes: seq<bv8>) {
    forall a :: address <= a < address + |bytes| ==> a in memory && memory[a] == bytes[a - address]
  }

  lemma GroupBytes(bytes: seq<bv8>)
    requires |bytes| == 4
    ensures forall k :: 0 <= k < 4 ==> ByteOf(FromLittleEndian(bytes), k) == bytes[k]
  {
    var w := FromLittleEndian(bytes);
    ByteOfShifts(w);
    GroupBits(bytes[0], bytes[1], bytes[2], bytes[3]);
  }

  lemma ByteOfShifts(w: bv32)
    ensures ByteOf(w, 0) == LowByte(w) && ByteOf(w, 1) == LowByte(w >> 8)
    ensures ByteOf(w, 2) == LowByte((w >> 8) >> 8) && ByteOf(w, 3) == LowByte(((w >> 8) >> 8) >> 8)
  {
    hide LowByte;
    assert ByteOf(w, 2) == ByteOf(w >> 8, 1);
    assert ByteOf(w, 3) == ByteOf(w >> 8, 2);
    assert ByteOf(w >> 8, 2) == ByteOf((w >> 8) >> 8, 1);
    assert ByteOf((w >> 8) >> 8, 1) == ByteOf(((w >> 8) >> 8) >> 8, 0);
  }

  lemma GroupBits(a: bv8, b: bv8, c: bv8, d: bv8)
    ensures var w := (a as bv32) | ((b as bv32) << 8) | ((c as bv32) << 16) | ((d as bv32) << 24);
      LowByte(w) == a && LowByte(w >> 8) == b && LowByte((w >> 8) >> 8) == c && LowByte(((w >> 8) >> 8) >> 8) == d
  {
  }

  lemma {:induction false} StoreBytesCells(memory: Memory, address: int, value: bv32, size: nat)
    ensures Holds(StoreBytes(memory, address, value, size), address, LittleEndian(value, size))
    ensures Outside(memory, StoreBytes(memory, address, value, size), address, size)
  {
    hide ByteOf;
    if size > 0 {
      StoreBytesCells(memory, address, value, size - 1);
      var before := StoreBytes(memory, address, value, size - 1);
      assert StoreBytes(memory, address, value, size) == before[address + size - 1 := ByteOf(value, size - 1)];
    }
  }

  /** The two memories agree outside [address, address + size). */
  ghost predicate Outside(before: Memory, after: Memory, address: int, size: nat) {
    forall a :: !(address <= a < address + size) ==>
        (a in after <==> a in before) && (a in before ==> after[a] == before[a])
  }

  /** Loading grouped bytes puts each byte in its own cell and touches no other cell. */
  lemma {:induction false} LoadedCells(memory: Memory, base: int, bytes: seq<bv8>)
    requires |bytes| % 4 == 0
    ensures Holds(LoadWords(memory, base, Grouped(bytes)), base, bytes)
    ensures Outside(memory, LoadWords(memory, base, Grouped(bytes)), base, |bytes|)
    decreases |bytes|
  {
    if bytes != [] {
      var w := FromLittleEndian(bytes[..4]);
      var mid := StoreBytes(memory, base, w, 4);
      StoreBytesCells(memory, base, w, 4);
      GroupBytes(bytes[..4]);
      LoadedCells(mid, base + 4, bytes[4..]);
      var words := Grouped(bytes);
      assert words[0] == w && words[1..] == Grouped(bytes[4..]);
      var after := LoadWords(memory, base, words);
      assert after == LoadWords(mid, base + 4, Grouped(bytes[4..]));
      hide FromLittleEndian, ByteOf, StoreBytes, LoadWords, Grouped;
      forall a | base <= a < base + |bytes|
        ensures a in after && after[a] == bytes[a - base]
      {
        if a < base + 4 {
          assert a in mid && mid[a] == bytes[..4][a - base];
        } else {
          assert after[a] == bytes[4..][a - (base + 4)];
        }
      }
    }
  }

  // ---------------------------------------------------------------- fetching back

  lemma HalfBits(value: bv32)
    ensures value < 0x1_0000 ==> (LowByte(value) as bv32) | ((LowByte(value >> 8) as bv32) << 8) == value
    ensures ((LowByte(value) as bv32) | ((LowByte(value >> 8) as bv32) << 8)) & 3 == value & 3
  {
  }

  lemma WordBits(value: bv32)
    ensures (LowByte(value) as bv32) | ((LowByte(value >> 8) as bv32) << 8) |
            ((LowByte((value >> 8) >> 8) as bv32) << 16)
            | ((LowByte(((value >> 8) >> 8) >> 8) as bv32) << 24) == value
  {
  }

  lemma ParcelCells(p: Parcel)
    ensures ParcelBytes(p)[0] == LowByte(p.value) && ParcelBytes(p)[1] == LowByte(p.value >> 8)
    ensures p.Long? ==>
      ParcelBytes(p)[2] == LowByte((p.value >> 8) >> 8) && ParcelBytes(p)[3] == LowByte(((p.value >> 8) >> 8) >> 8)
  {
    hide ByteOf, LowByte;
    ByteOfShifts(p.value);
  }

  /** Fetching where a parcel's bytes lie returns the parcel. */
  lemma FetchParcel(memory: Memory, pc: bv32, p: Parcel)
    requires pc & 1 == 0 && p.Proper() && Holds(memory, Unsigned(pc), ParcelBytes(p))
    ensures FetchAt(memory, pc) == Success((p.value, p.Length()))
  {
    var a := Unsigned(pc);
    ParcelCells(p);
    HalfBits(p.value);
    assert memory[a] == ParcelBytes(p)[0] && memory[a + 1] == ParcelBytes(p)[1];
    if p.Long? {
      WordBits(p.value);
      assert memory[a + 2] == ParcelBytes(p)[2] && memory[a + 3] == ParcelBytes(p)[3];
    }
    hide LowByte, Unsigned, ParcelBytes;
  }

  /** A word that decodes has both low bits set, as the format of 32-bit instructions asks. */
  lemma WordsAreLong(insn: bv32)
    requires Decode32(insn).Success?
    ensures insn & 3 == 3
  {
    hide BitRange, ImmU, ImmJ, ImmI, ImmB, ImmS;
    LowBitsOfOpcode(insn);
  }

  lemma LowBitsOfOpcode(insn: bv32)
    ensures insn & 3 == (insn & 0x7F) & 3
  {
  }

  /** A step at an even pc where an encoded instruction lies performs that instruction. */
  lemma EncodedStep(m: Machine, i: Instr)
    requires m.Running() && m.arch.pc & 1 == 0 && WellRanged(i)
    requires Holds(m.arch.memory, Unsigned(m.arch.pc), ParcelBytes(Long(Encode32(i))))
    ensures Step(m) == Completed(m, Encode32(i), 4, Exec(i, m.arch, 4))
  {
    hide Exec, Completed, Encode32, WellRanged, Decode32, FetchAt, Holds, ParcelBytes, Unsigned;
    DecodeEncode(i);
    WordsAreLong(Encode32(i));
    FetchParcel(m.arch.memory, m.arch.pc, Long(Encode32(i)));
  }

  /** So does a step where a half word with that meaning lies; it counts 2 bytes, and what it
      leaves as it is it does not log. */
  lemma CompressedStep(m: Machine, c: bv32, i: Instr)
    requires m.Running() && m.arch.pc & 1 == 0 && IsCompressed(c) && Decode16(c) == Success(i)
    requires Holds(m.arch.memory, Unsigned(m.arch.pc), ParcelBytes(Short(c)))
    ensures var outcome := Exec(i, m.arch, 2);
            Step(m) == Completed(m, c, 2, if Unlogged(i) && outcome.Done? then outcome.(effect := NO_EFFECT)
                else outcome)
  {
    hide Exec, Completed, Decode16, FetchAt, Holds, ParcelBytes, Unsigned;
    FetchParcel(m.arch.memory, m.arch.pc, Short(c));
  }

  /** The instructions found by fetching from pc on, count of them. */
  function FetchAll(memory: Memory, pc: bv32, count: nat): seq<Result<(bv32, bv32), Cause>>
    decreases count
  {
    if count == 0 then []
    else
      var fetched := FetchAt(memory, pc);
      [fetched] + FetchAll(memory, Add32(pc, if fetched.Success? then fetched.value.1 else 0), count - 1)
  }

  function Expected(ps: seq<Parcel>): seq<Result<(bv32, bv32), Cause>> {
    seq(|ps|, k requires 0 <= k < |ps| => Success((ps[k].value, ps[k].Length())))
  }

  lemma HoldsSplit(memory: Memory, address: int, front: seq<bv8>, back: seq<bv8>)
    requires Holds(memory, address, front + back)
    ensures Holds(memory, address, front) && Holds(memory, address + |front|, back)
  {
  }

  /** Both instruction lengths keep an even pc even. */
  lemma NextEven(pc: bv32, p: Parcel)
    requires pc & 1 == 0
    ensures Add32(pc, p.Length()) & 1 == 0
  {
  }

  /** Fetching through the cells of a parcel sequence returns that sequence. */
  lemma {:induction false} FetchHeld(memory: Memory, pc: bv32, ps: seq<Parcel>)
    requires pc & 1 == 0
    requires forall p :: p in ps ==> p.Proper()
    requires Holds(memory, Unsigned(pc), Flatten(ps)) && StartsBelow(Unsigned(pc), ps)
    ensures FetchAll(memory, pc, |ps|) == Expected(ps)
    decreases |ps|
  {
    hide Unsigned, FetchAt, Add32, ByteOf;
    if ps != [] {
      var p, rest := ps[0], ps[1..];
      var next := Add32(pc, p.Length());
      assert Flatten(ps) == ParcelBytes(p) + Flatten(rest);
      HoldsSplit(memory, Unsigned(pc), ParcelBytes(p), Flatten(rest));
      FetchParcel(memory, pc, p);
      NextEven(pc, p);
      if rest != [] {
        LaterStart(Unsigned(pc), ps);
        AdvancePast(pc, p);
        FetchHeld(memory, next, rest);
      }
      assert FetchAll(memory, pc, |ps|) == [Success((p.value, p.Length()))] + FetchAll(memory, next, |rest|);
      assert Expected(ps) == [Success((p.value, p.Length()))] + Expected(rest);
    }
  }

  /** The last instruction starts below 2^32. */
  predicate StartsBelow(address: int, ps: seq<Parcel>) {
    ps != [] ==> address + |Flatten(ps[..|ps| - 1])| < 0x1_0000_0000
  }

  lemma LaterStart(address: int, ps: seq<Parcel>)
    requires |ps| >= 2 && StartsBelow(address, ps)
    ensures address + |ParcelBytes(ps[0])| < 0x1_0000_0000 && StartsBelow(address + |ParcelBytes(ps[0])|, ps[1..])
  {
    hide ParcelBytes;
    var front, rest := ps[..|ps| - 1], ps[1..];
    assert front[0] == ps[0] && front[1..] == rest[..|rest| - 1];
  }

  lemma AdvancePast(pc: bv32, p: Parcel)
    requires Unsigned(pc) + |ParcelBytes(p)| < 0x1_0000_0000
    ensures Unsigned(Add32(pc, p.Length())) == Unsigned(pc) + |ParcelBytes(p)|
  {
    hide Unsigned, Add32;
    if p.Short? {
      UnsignedAdvance2(pc);
    } else {
      UnsignedAdvance(pc, 4);
    }
  }

  /** Assemble, load at an even base and fetch: the parcels come back in order, with their lengths,
      whatever words they straddle and whatever the padding. */
  lemma AssembleLoadFetch(memory: Memory, base: bv32, ps: seq<Parcel>)
    requires base & 1 == 0 && StartsBelow(Unsigned(base), ps)
    requires forall p :: p in ps ==> p.Proper()
    ensures FetchAll(LoadWords(memory, Unsigned(base), Grouped(Padded(Flatten(ps)))), base, |ps|) == Expected(ps)
  {
    hide Unsigned, FetchAll, LoadWords, Grouped, Expected, Flatten, StartsBelow;
    var bytes := Padded(Flatten(ps));
    var after := LoadWords(memory, Unsigned(base), Grouped(bytes));
    LoadedCells(memory, Unsigned(base), bytes);
    assert bytes == Flatten(ps) + bytes[|Flatten(ps)|..];
    HoldsSplit(after, Unsigned(base), Flatten(ps), bytes[|Flatten(ps)|..]);
    FetchHeld(after, base, ps);
  }

  lemma {:induction false} StoreKeepsBelow(memory: Memory, address: int, value: bv32, size: nat, a: int)
    requires a < address
    ensures Byte(StoreBytes(memory, address, value, size), a) == Byte(memory, a)
  {
    hide ByteOf;
    if size > 0 {
      StoreKeepsBelow(memory, address, value, size - 1, a);
    }
  }

  lemma {:induction false} LoadKeepsBelow(memory: Memory, address: int, words: seq<bv32>, a: int)
    requires a < address
    ensures Byte(LoadWords(memory, address, words), a) == Byte(memory, a)
    decreases |words|
  {
    hide StoreBytes, Byte;
    if words != [] {
      StoreKeepsBelow(memory, address, words[0], 4, a);
      LoadKeepsBelow(StoreBytes(memory, address, words[0], 4), address + 4, words[1..], a);
    }
  }

  /** That bound is needed: of two half words loaded at the last even address only the first comes back,
      since the second lies at 2^32 and is fetched from 0. */
  lemma SecondIsFetchedFromZero(p: Parcel, q: Parcel)
    requires p.Short? && p.Proper() && q.Short?
    ensures FetchAll(LoadWords(map[], 0xFFFF_FFFE, Grouped(Padded(Flatten([p, q])))), 0xFFFF_FFFE, 2) ==
            [Success((p.value, 2)), Success((0, 2))]
  {
    hide LoadWords, Grouped, ParcelBytes, FetchAt, Padded, Byte, Holds, Unsigned, Add32;
    var bytes := Padded(Flatten([p, q]));
    var after := LoadWords(map[], 0xFFFF_FFFE, Grouped(bytes));
    var base := LastEvenAddress();
    LoadedCells(map[], 0xFFFF_FFFE, bytes);
    assert Flatten([p, q]) == ParcelBytes(p) + Flatten([q]);
    assert bytes == ParcelBytes(p) + bytes[|ParcelBytes(p)|..];
    HoldsSplit(after, 0xFFFF_FFFE, ParcelBytes(p), bytes[|ParcelBytes(p)|..]);
    FetchParcel(after, base, p);
    LoadKeepsBelow(map[], 0xFFFF_FFFE, Grouped(bytes), 0);
    LoadKeepsBelow(map[], 0xFFFF_FFFE, Grouped(bytes), 1);
    NothingStored();
    FetchNothing(after);
    assert FetchAll(after, base, 2) == [Success((p.value, 2))] + FetchAll(after, 0, 1);
    assert FetchAll(after, 0, 1) == [FetchAt(after, 0)] + FetchAll(after, 2, 0);
  }

  lemma LastEvenAddress() returns (base: bv32)
    ensures base == 0xFFFF_FFFE && base & 1 == 0 && Unsigned(base) == 0xFFFF_FFFE && Unsigned(0) == 0
    ensures Add32(base, 2) == 0
  {
    base := 0xFFFF_FFFE;
    UnsignedMaximum();
    UnsignedIs(0xFFFF_FFFF);
    UnsignedIs(0xFFFF_FFFE);
  }

  lemma NothingStored()
    ensures Byte(map[], 0) == Byte(map[], 1) == 0
  {
  }

  lemma FetchNothing(memory: Memory)
    requires Byte(memory, 0) == Byte(memory, 1) == 0
    ensures FetchAt(memory, 0) == Success((0, 2))
  {
  }
}
