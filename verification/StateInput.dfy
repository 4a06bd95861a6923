/** The initial input of the state benchmark. */
module StateInput {
  import opened CoreState
  import opened StateBench

  /** 5012, 1234, -874, +122 */
  function IntPattern(i: nat): seq<bv8> {
    match i
    case 0 => [0x35, 0x30, 0x31, 0x32]
    case 1 => [0x31, 0x32, 0x33, 0x34]
    case 2 => [0x2D, 0x38, 0x37, 0x34]
    case _ => [0x2B, 0x31, 0x32, 0x32]
  }

  /** 35.54400, .1234500, -110.700, +0.64400 */
  function FloatPattern(i: nat): seq<bv8> {
    match i
    case 0 => [0x33, 0x35, 0x2E, 0x35, 0x34, 0x34, 0x30, 0x30]
    case 1 => [0x2E, 0x31, 0x32, 0x33, 0x34, 0x35, 0x30, 0x30]
    case 2 => [0x2D, 0x31, 0x31, 0x30, 0x2E, 0x37, 0x30, 0x30]
    case _ => [0x2B, 0x30, 0x2E, 0x36, 0x34, 0x34, 0x30, 0x30]
  }

  /** 5.500e+3, -.123e-2, -87e+832, +0.6e-12 */
  function SciPattern(i: nat): seq<bv8> {
    match i
    case 0 => [0x35, 0x2E, 0x35, 0x30, 0x30, 0x65, 0x2B, 0x33]
    case 1 => [0x2D, 0x2E, 0x31, 0x32, 0x33, 0x65, 0x2D, 0x32]
    case 2 => [0x2D, 0x38, 0x37, 0x65, 0x2B, 0x38, 0x33, 0x32]
    case _ => [0x2B, 0x30, 0x2E, 0x36, 0x65, 0x2D, 0x31, 0x32]
  }

  /** T0.3e-1F, -T.T++Tq, 1T3.4e4z, 34.0e-T^ */
  function ErrPattern(i: nat): seq<bv8> {
    match i
    case 0 => [0x54, 0x30, 0x2E, 0x33, 0x65, 0x2D, 0x31, 0x46]
    case 1 => [0x2D, 0x54, 0x2E, 0x54, 0x2B, 0x2B, 0x54, 0x71]
    case 2 => [0x31, 0x54, 0x33, 0x2E, 0x34, 0x65, 0x34, 0x7A]
    case _ => [0x33, 0x34, 0x2E, 0x30, 0x65, 0x2D, 0x54, 0x5E]
  }

  /** The pattern for a seed, which counts in 16 bits. */
  function PatternFor(seed: nat): (r: seq<bv8>)
    ensures |r| == if seed % 8 <= 2 then 4 else 8
  {
    var which := (seed / 8) % 4;
    if seed % 8 <= 2 then IntPattern(which)
    else if seed % 8 <= 4 then FloatPattern(which)
    else if seed % 8 <= 6 then SciPattern(which)
    else ErrPattern(which)
  }

  /** The characters of some bytes. */
  function TextOf(bytes: seq<bv8>): string {
    seq(|bytes|, i requires 0 <= i < |bytes| => bytes[i] as char)
  }

  lemma IntText()
    ensures TextOf(IntPattern(0)) == "5012"
    ensures TextOf(IntPattern(1)) == "1234"
    ensures TextOf(IntPattern(2)) == "-874"
    ensures TextOf(IntPattern(3)) == "+122"
  {
  }

  lemma FloatText()
    ensures TextOf(FloatPattern(0)) == "35.54400"
    ensures TextOf(FloatPattern(1)) == ".1234500"
    ensures TextOf(FloatPattern(2)) == "-110.700"
    ensures TextOf(FloatPattern(3)) == "+0.64400"
  {
  }

  lemma SciText()
    ensures TextOf(SciPattern(0)) == "5.500e+3"
    ensures TextOf(SciPattern(1)) == "-.123e-2"
    ensures TextOf(SciPattern(2)) == "-87e+832"
    ensures TextOf(SciPattern(3)) == "+0.6e-12"
  {
  }

  lemma ErrText()
    ensures TextOf(ErrPattern(0)) == "T0.3e-1F"
    ensures TextOf(ErrPattern(1)) == "-T.T++Tq"
    ensures TextOf(ErrPattern(2)) == "1T3.4e4z"
    ensures TextOf(ErrPattern(3)) == "34.0e-T^"
  {
  }

  lemma PatternPick(more: nat, which: nat, kind: nat)
    requires which < 4 && kind < 8
    ensures PatternFor(32 * more + 8 * which + kind) ==
            if kind <= 2 then IntPattern(which)
            else if kind <= 4 then FloatPattern(which)
            else if kind <= 6 then SciPattern(which)
            else ErrPattern(which)
  {
    hide IntPattern, FloatPattern, SciPattern, ErrPattern;
    SeedParts(more, which, kind);
  }

  lemma SeedParts(more: nat, which: nat, kind: nat)
    requires which < 4 && kind < 8
    ensures var seed := 32 * more + 8 * which + kind; seed % 8 == kind && (seed / 8) % 4 == which
  {
    var seed := 32 * more + 8 * which + kind;
    assert seed / 8 == 4 * more + which;
  }

  /** The low three bits of the seed pick the kind of number, the next two the text. */
  lemma PatternText(more: nat, which: nat, kind: nat)
    requires which < 4 && kind < 8
    ensures TextOf(PatternFor(32 * more + 8 * which + kind)) ==
            if kind in {0, 1, 2} then ["5012", "1234", "-874", "+122"][which]
            else if kind in {3, 4} then ["35.54400", ".1234500", "-110.700", "+0.64400"][which]
            else if kind in {5, 6} then ["5.500e+3", "-.123e-2", "-87e+832", "+0.6e-12"][which]
            else ["T0.3e-1F", "-T.T++Tq", "1T3.4e4z", "34.0e-T^"][which]
  {
    hide *;
    PatternPick(more, which, kind);
    IntText();
    FloatText();
    SciText();
    ErrText();
  }

  function NextSeed(seed: nat): nat {
    (seed + 1) % 0x1_0000
  }

  /** What the scanner makes of a pattern. Most are what they are meant to be; the third
      scientific one has an exponent without a point, which the scanner rejects. */
  function StateOfPattern(seed: nat): State {
    if seed % 8 <= 2 then Int
    else if seed % 8 <= 4 then Float
    else if seed % 8 <= 6 && (seed / 8) % 4 != 2 then Scientific
    else Invalid
  }

  lemma RunFour(state: State, a: Kind, b: Kind, c: Kind, d: Kind)
    ensures RunOn(state, [a, b, c, d]) == Step(Step(Step(Step(state, a), b), c), d)
  {
    hide Step;
    assert [a, b, c, d][1..] == [b, c, d] && [b, c, d][1..] == [c, d] && [c, d][1..] == [d] && [d][1..] == [];
    var s1 := Step(state, a);
    var s2 := Step(s1, b);
    assert RunOn(s1, [b, c, d]) == RunOn(s2, [c, d]);
    var s3 := Step(s2, c);
    assert RunOn(s2, [c, d]) == RunOn(s3, [d]);
    assert RunOn(s3, [d]) == RunOn(Step(s3, d), []);
  }

  lemma {:induction false} RunSplits(state: State, s: seq<Kind>, t: seq<Kind>)
    ensures RunOn(state, s + t) == RunOn(RunOn(state, s), t)
    decreases |s|
  {
    hide Step;
    if s == [] {
      assert s + t == t;
    } else {
      assert (s + t)[1..] == s[1..] + t;
      RunSplits(Step(state, s[0]), s[1..], t);
    }
  }

  lemma RunEight(state: State, a: Kind, b: Kind, c: Kind, d: Kind, e: Kind, f: Kind, g: Kind, h: Kind)
    ensures RunOn(state, [a, b, c, d, e, f, g, h]) ==
            Step(Step(Step(Step(Step(Step(Step(Step(state, a), b), c), d), e), f), g), h)
  {
    hide Step;
    assert [a, b, c, d, e, f, g, h] == [a, b, c, d] + [e, f, g, h];
    RunSplits(state, [a, b, c, d], [e, f, g, h]);
    RunFour(state, a, b, c, d);
    RunFour(RunOn(state, [a, b, c, d]), e, f, g, h);
  }

  lemma IntKinds(i: nat)
    requires i < 4
    ensures Kinds(IntPattern(i)) ==
            match i
            case 0 => [Digit, Digit, Digit, Digit]
            case 1 => [Digit, Digit, Digit, Digit]
            case 2 => [Sign, Digit, Digit, Digit]
            case _ => [Sign, Digit, Digit, Digit]
  {
  }

  lemma IntPatternsScan(i: nat)
    requires i < 4
    ensures RunOn(Start, Kinds(IntPattern(i))) == Int
    ensures forall k :: 0 <= k < |IntPattern(i)| ==>
            KindOf(IntPattern(i)[k]) != Comma && KindOf(IntPattern(i)[k]) != Nul
  {
    hide RunOn, Kinds, KindOf, IntPattern;
    IntKinds(i);
    assert forall k :: 0 <= k < |IntPattern(i)| ==> KindOf(IntPattern(i)[k]) == Kinds(IntPattern(i))[k];
    match i
    case 0 =>
      RunFour(Start, Digit, Digit, Digit, Digit);
    case 1 =>
      RunFour(Start, Digit, Digit, Digit, Digit);
    case 2 =>
      RunFour(Start, Sign, Digit, Digit, Digit);
    case 3 =>
      RunFour(Start, Sign, Digit, Digit, Digit);
  }

  lemma FloatKinds(i: nat)
    requires i < 4
    ensures Kinds(FloatPattern(i)) ==
            match i
            case 0 => [Digit, Digit, Dot, Digit, Digit, Digit, Digit, Digit]
            case 1 => [Dot, Digit, Digit, Digit, Digit, Digit, Digit, Digit]
            case 2 => [Sign, Digit, Digit, Digit, Dot, Digit, Digit, Digit]
            case _ => [Sign, Digit, Dot, Digit, Digit, Digit, Digit, Digit]
  {
  }

  lemma FloatPatternsScan(i: nat)
    requires i < 4
    ensures RunOn(Start, Kinds(FloatPattern(i))) == Float
    ensures forall k :: 0 <= k < |FloatPattern(i)| ==>
            KindOf(FloatPattern(i)[k]) != Comma && KindOf(FloatPattern(i)[k]) != Nul
  {
    hide RunOn, Kinds, KindOf, FloatPattern;
    FloatKinds(i);
    assert forall k :: 0 <= k < |FloatPattern(i)| ==> KindOf(FloatPattern(i)[k]) == Kinds(FloatPattern(i))[k];
    match i
    case 0 =>
      RunEight(Start, Digit, Digit, Dot, Digit, Digit, Digit, Digit, Digit);
    case 1 =>
      RunEight(Start, Dot, Digit, Digit, Digit, Digit, Digit, Digit, Digit);
    case 2 =>
      RunEight(Start, Sign, Digit, Digit, Digit, Dot, Digit, Digit, Digit);
    case 3 =>
      RunEight(Start, Sign, Digit, Dot, Digit, Digit, Digit, Digit, Digit);
  }

  lemma SciKinds(i: nat)
    requires i < 4
    ensures Kinds(SciPattern(i)) ==
            match i
            case 0 => [Digit, Dot, Digit, Digit, Digit, E, Sign, Digit]
            case 1 => [Sign, Dot, Digit, Digit, Digit, E, Sign, Digit]
            case 2 => [Sign, Digit, Digit, E, Sign, Digit, Digit, Digit]
            case _ => [Sign, Digit, Dot, Digit, E, Sign, Digit, Digit]
  {
  }

  lemma SciPatternsScan(i: nat)
    requires i < 4
    ensures RunOn(Start, Kinds(SciPattern(i))) == if i == 2 then Invalid else Scientific
    ensures forall k :: 0 <= k < |SciPattern(i)| ==>
            KindOf(SciPattern(i)[k]) != Comma && KindOf(SciPattern(i)[k]) != Nul
  {
    hide RunOn, Kinds, KindOf, SciPattern;
    SciKinds(i);
    assert forall k :: 0 <= k < |SciPattern(i)| ==> KindOf(SciPattern(i)[k]) == Kinds(SciPattern(i))[k];
    match i
    case 0 =>
      RunEight(Start, Digit, Dot, Digit, Digit, Digit, E, Sign, Digit);
    case 1 =>
      RunEight(Start, Sign, Dot, Digit, Digit, Digit, E, Sign, Digit);
    case 2 =>
      RunEight(Start, Sign, Digit, Digit, E, Sign, Digit, Digit, Digit);
    case 3 =>
      RunEight(Start, Sign, Digit, Dot, Digit, E, Sign, Digit, Digit);
  }

  lemma ErrKinds(i: nat)
    requires i < 4
    ensures Kinds(ErrPattern(i)) ==
            match i
            case 0 => [Other, Digit, Dot, Digit, E, Sign, Digit, Other]
            case 1 => [Sign, Other, Dot, Other, Sign, Sign, Other, Other]
            case 2 => [Digit, Other, Digit, Dot, Digit, E, Digit, Other]
            case _ => [Digit, Digit, Dot, Digit, E, Sign, Other, Other]
  {
  }

  lemma ErrPatternsScan(i: nat)
    requires i < 4
    ensures RunOn(Start, Kinds(ErrPattern(i))) == Invalid
    ensures forall k :: 0 <= k < |ErrPattern(i)| ==>
            KindOf(ErrPattern(i)[k]) != Comma && KindOf(ErrPattern(i)[k]) != Nul
  {
    hide RunOn, Kinds, KindOf, ErrPattern;
    ErrKinds(i);
    assert forall k :: 0 <= k < |ErrPattern(i)| ==> KindOf(ErrPattern(i)[k]) == Kinds(ErrPattern(i))[k];
    match i
    case 0 =>
      RunEight(Start, Other, Digit, Dot, Digit, E, Sign, Digit, Other);
    case 1 =>
      RunEight(Start, Sign, Other, Dot, Other, Sign, Sign, Other, Other);
    case 2 =>
      RunEight(Start, Digit, Other, Digit, Dot, Digit, E, Digit, Other);
    case 3 =>
      RunEight(Start, Digit, Digit, Dot, Digit, E, Sign, Other, Other);
  }

  /** The state of each pattern, and that it is one token. */
  lemma PatternsScan(seed: nat)
    ensures RunOn(Start, Kinds(PatternFor(seed))) == StateOfPattern(seed)
    ensures forall k :: 0 <= k < |PatternFor(seed)| ==>
            KindOf(PatternFor(seed)[k]) != Comma && KindOf(PatternFor(seed)[k]) != Nul
  {
    hide IntPattern, FloatPattern, SciPattern, ErrPattern, RunOn, Kinds, KindOf;
    var which := (seed / 8) % 4;
    IntPatternsScan(which);
    FloatPatternsScan(which);
    SciPatternsScan(which);
    ErrPatternsScan(which);
  }

  // ---------------------------------------------------------------- filling the buffer

  /** The text that is put behind total bytes, from the pattern of this seed on: each pattern
      with a comma, as long as it leaves room. */
  function TextFrom(total: nat, seed: nat, room: nat): (r: seq<bv8>)
    ensures total < room ==> total + |r| < room
    decreases room - total
  {
    var buf := PatternFor(seed);
    if total + |buf| + 1 < room then buf + [0x2C] + TextFrom(total + |buf| + 1, NextSeed(seed), room) else []
  }

  /** The whole buffer: text and zeros. */
  function Input(size: nat, seed: nat): (r: seq<bv8>)
    requires size > 0
    ensures |r| == size
    ensures size >= 2 ==> r[size - 1] == 0 && r[size - 2] == 0
  {
    var text := if size > 2 then TextFrom(0, NextSeed(seed), size - 1) else [];
    text + seq(size - |text|, _ => 0)
  }

  /** The patterns for so many seeds in a row, each with a comma behind it. */
  function Patterns(seed: nat, n: nat): seq<bv8>
    decreases n
  {
    if n == 0 then [] else PatternFor(seed % 0x1_0000) + [',' as bv8] + Patterns(seed + 1, n - 1)
  }

  lemma CommaIs()
    ensures [',' as bv8] == [0x2C]
  {
  }

  /** The text is as many patterns as leave a byte of room, and the next one would not. */
  lemma {:induction false} TextIs(total: nat, seed: nat, room: nat) returns (n: nat)
    ensures TextFrom(total, seed % 0x1_0000, room) == Patterns(seed, n)
    ensures var length := total + |Patterns(seed, n)|;
            && (n > 0 ==> length < room) && room <= length + |PatternFor((seed + n) % 0x1_0000)| + 1
    decreases room - total
  {
    hide PatternFor;
    var buf := PatternFor(seed % 0x1_0000);
    CommaIs();
    if total + |buf| + 1 < room {
      var m := TextIs(total + |buf| + 1, seed + 1, room);
      NextSeedIs(seed);
      assert seed + 1 + m == seed + (m + 1);
      n := m + 1;
    } else {
      n := 0;
    }
  }

  lemma NextSeedIs(seed: nat)
    ensures NextSeed(seed % 0x1_0000) == (seed + 1) % 0x1_0000
  {
  }

  /** The buffer starts with the patterns for the seeds behind the one given, as many as leave two
      bytes of room, and is zero behind them. */
  lemma InputIs(size: nat, seed: nat) returns (n: nat)
    requires size > 2
    ensures var text := Patterns(seed + 1, n);
            && |text| <= size && Input(size, seed % 0x1_0000) == text + seq(size - |text|, _ => 0)
            && (n > 0 ==> |text| <= size - 2) && size - 2 <= |text| + |PatternFor((seed + 1 + n) % 0x1_0000)|
  {
    hide PatternFor, TextFrom, Patterns;
    NextSeedIs(seed);
    n := TextIs(0, seed + 1, size - 1);
    if n == 0 {
      NoPatterns(seed + 1);
    }
  }

  lemma NoPatterns(seed: nat)
    ensures Patterns(seed, 0) == []
  {
  }

  /** The memory holds this text, and behind it what it held before. */
  ghost predicate Holds(cells: seq<bv8>, text: seq<bv8>, whole: seq<bv8>) {
    |text| <= |whole| && cells == text + whole[|text|..]
  }

  lemma NothingHeld(whole: seq<bv8>)
    ensures Holds(whole, [], whole)
  {
  }

  lemma TextBegins(text: seq<bv8>, rest: seq<bv8>)
    requires text == []
    ensures text + rest == rest
  {
  }

  /** Write patterns as long as they leave room. */
  method WriteText(room: nat, seed0: nat, p: array<bv8>, ghost whole: seq<bv8>)
    returns (total: nat, ghost text: seq<bv8>)
    requires room < p.Length && p[..] == whole
    modifies p
    ensures total == |text| <= room && Holds(p[..], text, whole)
    ensures text == if room > 1 then TextFrom(0, NextSeed(seed0), room) else []
  {
    hide PatternFor, NextSeed, TextFrom, Holds;
    var next, seed := 0, seed0;
    var buf: seq<bv8> := [];
    total, text := 0, [];
    NothingHeld(whole);
    while total + next + 1 < room
      invariant |text| == total <= room && Holds(p[..], text, whole)
      invariant next == |buf| && (next == 0 ==> text == [] && seed == seed0)
      invariant next > 0 ==> room > 1 && buf == PatternFor(seed)
      invariant next > 0 ==> TextFrom(0, NextSeed(seed0), room) == text + TextFrom(total, seed, room)
      decreases room - total, if next == 0 then 1 else 0
    {
      if next > 0 {
        WriteToken(p, total, buf, text, whole);
        TextUnfolds(total, seed, room, text);
        text := text + buf + [0x2C];
        total := total + next + 1;
      } else {
        TextBegins(text, TextFrom(total, NextSeed(seed), room));
      }
      seed := NextSeed(seed);
      buf := PatternFor(seed);
      next := |buf|;
    }
    if next > 0 {
      TextEnds(total, seed, room, text);
    }
  }

  /** Fill the first size bytes of the memory with text and zeros, and no others. */
  method InitState(size: nat, seed: nat, p: array<bv8>)
    requires 0 < size <= p.Length
    modifies p
    ensures p[..] == Input(size, seed) + old(p[size..])
  {
    hide NextSeed, TextFrom, Input, Holds;
    ghost var whole := p[..];
    var total;
    ghost var text;
    total, text := WriteText(size - 1, seed, p, whole);
    ZeroFill(p, total, size, text, whole);
    InputIsText(size, seed, text);
  }

  lemma InputIsText(size: nat, seed: nat, text: seq<bv8>)
    requires size > 0 && text == if size > 2 then TextFrom(0, NextSeed(seed), size - 1) else []
    ensures |text| <= size && Input(size, seed) == text + seq(size - |text|, _ => 0)
  {
    hide TextFrom, NextSeed;
  }

  lemma TextUnfolds(total: nat, seed: nat, room: nat, text: seq<bv8>)
    requires total + |PatternFor(seed)| + 1 < room
    ensures text + TextFrom(total, seed, room) == text + PatternFor(seed) + [0x2C] +
            TextFrom(total + |PatternFor(seed)| + 1, NextSeed(seed), room)
  {
    hide PatternFor, NextSeed;
  }

  lemma TextEnds(total: nat, seed: nat, room: nat, text: seq<bv8>)
    requires total + |PatternFor(seed)| + 1 >= room
    ensures text + TextFrom(total, seed, room) == text
  {
    hide PatternFor, NextSeed;
  }

  method ZeroFill(p: array<bv8>, start: nat, size: nat, ghost text: seq<bv8>, ghost whole: seq<bv8>)
    requires start == |text| <= size <= p.Length == |whole| && Holds(p[..], text, whole)
    modifies p
    ensures p[..] == text + seq(size - start, _ => 0) + whole[size..]
  {
    var total := start;
    while total < size
      invariant start <= total <= size
      invariant p[..] == text + seq(total - start, _ => 0) + whole[total..]
    {
      p[total] := 0;
      total := total + 1;
    }
  }

  /** Copy a pattern, and put a comma behind it. */
  method WriteToken(p: array<bv8>, total: nat, buf: seq<bv8>, ghost text: seq<bv8>, ghost whole: seq<bv8>)
    requires total + |buf| + 1 <= p.Length == |whole| && |text| == total
    requires Holds(p[..], text, whole)
    modifies p
    ensures Holds(p[..], text + buf + [0x2C], whole)
  {
    for i := 0 to |buf|
      invariant p[..] == text + buf[..i] + whole[total + i..]
    {
      p[total + i] := buf[i];
    }
    p[total + |buf|] := 0x2C;
  }

  /** The benchmark on its own input: with a step of at least 2, as it is always called,
      neither scan leaves the buffer. */
  lemma InputIsSafe(size: nat, seed: nat, step: int, v: bv8)
    requires size >= 2 && step >= 2
    ensures HasNul(Input(size, seed), 0) && HasNul(Corrupted(Input(size, seed), step, v), 0)
  {
    hide Input;
    ScansStayInside(Input(size, seed), step, v);
  }
}
