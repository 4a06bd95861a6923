/** The number scanner of the CoreMark state kernel. */
module CoreState {

  datatype State = Start | Invalid | S1 | S2 | Int | Float | Exponent | Scientific

  /** The position of a state in the enumeration, and so in the arrays of counts. */
  function Code(state: State): (code: nat)
    ensures code < 8
  {
    match state
    case Start => 0
    case Invalid => 1
    case S1 => 2
    case S2 => 3
    case Int => 4
    case Float => 5
    case Exponent => 6
    case Scientific => 7
  }

  datatype Kind = Nul | Comma | Digit | Sign | Dot | E | Other

  /** The classes of bytes that the scanner tells apart. */
  function KindOf(c: bv8): Kind {
    if c == 0 then Nul
    else if c == 0x2C then Comma
    else if 0x30 <= c <= 0x39 then Digit
    else if c == 0x2B || c == 0x2D then Sign
    else if c == 0x2E then Dot
    else if c == 0x45 || c == 0x65 then E
    else Other
  }

  /** The same by character. */
  lemma KindMeans(c: char)
    requires c <= '~'
    ensures KindOf(c as bv8) == Nul <==> c == '\0'
    ensures KindOf(c as bv8) == Comma <==> c == ','
    ensures KindOf(c as bv8) == Digit <==> '0' <= c <= '9'
    ensures KindOf(c as bv8) == Sign <==> c == '+' || c == '-'
    ensures KindOf(c as bv8) == Dot <==> c == '.'
    ensures KindOf(c as bv8) == E <==> c == 'E' || c == 'e'
  {
  }

  function Kinds(s: seq<bv8>): (r: seq<Kind>)
    ensures |r| == |s| && forall i :: 0 <= i < |s| ==> r[i] == KindOf(s[i])
  {
    seq(|s|, i requires 0 <= i < |s| => KindOf(s[i]))
  }

  // ---------------------------------------------------------------- the state machine

  function Step(state: State, c: Kind): State {
    match state
    case Start => if c == Digit then Int else if c == Sign then S1 else if c == Dot then Float else Invalid
    case S1 => if c == Digit then Int else if c == Dot then Float else Invalid
    case Int => if c == Dot then Float else if c == Digit then Int else Invalid
    case Float => if c == E then S2 else if c == Digit then Float else Invalid
    case S2 => if c == Sign then Exponent else Invalid
    case Exponent => if c == Digit then Scientific else Invalid
    case Scientific => if c == Digit then Scientific else Invalid
    case Invalid => Invalid
  }

  /** The counters that one step bumps. */
  function Bumped(state: State, c: Kind): multiset<State> {
    match state
    case Start => if Step(state, c) == Invalid then multiset{Start, Invalid} else multiset{Start}
    case S1 => multiset{S1}
    case Int => if c == Digit then multiset{} else multiset{Int}
    case Float => if c == Digit then multiset{} else multiset{Float}
    case S2 => multiset{S2}
    case Exponent => multiset{Exponent}
    case Scientific => if c == Digit then multiset{} else multiset{Invalid}
    case Invalid => multiset{}
  }

  function RunOn(state: State, t: seq<Kind>): State
    decreases |t|
  {
    if t == [] then state else RunOn(Step(state, t[0]), t[1..])
  }

  // ---------------------------------------------------------------- the languages

  ghost predicate Digits(t: seq<Kind>) {
    forall i :: 0 <= i < |t| ==> t[i] == Digit
  }

  /** d+ */
  ghost predicate SomeDigits(t: seq<Kind>) {
    t != [] && Digits(t)
  }

  /** d* . d* */
  ghost predicate Fraction(t: seq<Kind>) {
    exists i :: 0 <= i < |t| && t[i] == Dot && Digits(t[..i]) && Digits(t[i + 1..])
  }

  /** [+-] d+ */
  ghost predicate Power(t: seq<Kind>) {
    t != [] && t[0] == Sign && SomeDigits(t[1..])
  }

  /** d* [eE] [+-] d+ */
  ghost predicate Scaled(t: seq<Kind>) {
    exists j :: 0 <= j < |t| && t[j] == E && Digits(t[..j]) && Power(t[j + 1..])
  }

  /** d* . d* [eE] [+-] d+ */
  ghost predicate ScaledFraction(t: seq<Kind>) {
    exists i :: 0 <= i < |t| && t[i] == Dot && Digits(t[..i]) && Scaled(t[i + 1..])
  }

  /** Without an optional sign. */
  function Body(t: seq<Kind>): seq<Kind> {
    if t != [] && t[0] == Sign then t[1..] else t
  }

  ghost predicate IsInt(t: seq<Kind>) {
    SomeDigits(Body(t))
  }

  ghost predicate IsFloat(t: seq<Kind>) {
    Fraction(Body(t))
  }

  ghost predicate IsScientific(t: seq<Kind>) {
    ScaledFraction(Body(t))
  }

  lemma {:induction false} InvalidStays(t: seq<Kind>)
    ensures RunOn(Invalid, t) == Invalid
    decreases |t|
  {
    if t != [] {
      InvalidStays(t[1..]);
    }
  }

  lemma {:induction false} FromScientific(t: seq<Kind>)
    ensures RunOn(Scientific, t) == if Digits(t) then Scientific else Invalid
    decreases |t|
  {
    if t != [] {
      if t[0] == Digit {
        FromScientific(t[1..]);
        DigitsFirst(t);
      } else {
        InvalidStays(t[1..]);
      }
    }
  }

  lemma DigitsFirst(t: seq<Kind>)
    requires t != []
    ensures Digits(t) <==> t[0] == Digit && Digits(t[1..])
  {
    if t[0] == Digit && Digits(t[1..]) {
      forall i | 0 <= i < |t|
        ensures t[i] == Digit
      {
        if i > 0 {
          assert t[1..][i - 1] == Digit;
        }
      }
    }
  }

  lemma FromS2(t: seq<Kind>)
    ensures RunOn(S2, t) == Scientific <==> Power(t)
    ensures RunOn(S2, t) !in {Start, S1, Int, Float}
  {
    if t != [] {
      var u := t[1..];
      if t[0] != Sign {
        InvalidStays(u);
      } else if u != [] {
        if u[0] == Digit {
          FromScientific(u[1..]);
        } else {
          InvalidStays(u[1..]);
        }
        DigitsFirst(u);
      }
    }
  }

  lemma ScaledFirst(t: seq<Kind>)
    ensures Scaled(t) <==> t != [] && (if t[0] == E then Power(t[1..]) else t[0] == Digit && Scaled(t[1..]))
  {
    hide Power;
    if Scaled(t) {
      var j :| 0 <= j < |t| && t[j] == E && Digits(t[..j]) && Power(t[j + 1..]);
      if j > 0 {
        DigitsFirst(t[..j]);
        assert t[..j][1..] == t[1..][..j - 1] && t[1..][j..] == t[j + 1..];
        assert t[1..][j - 1] == E;
      }
    }
    if t != [] && t[0] == E && Power(t[1..]) {
      assert Digits(t[..0]);
    }
    if t != [] && t[0] == Digit && Scaled(t[1..]) {
      var j :| 0 <= j < |t[1..]| && t[1..][j] == E && Digits(t[1..][..j]) && Power(t[1..][j + 1..]);
      DigitsFirst(t[..j + 1]);
      assert t[..j + 1][1..] == t[1..][..j] && t[1..][j + 1..] == t[j + 2..];
      assert t[j + 1] == E;
    }
  }

  lemma {:induction false} FromFloat(t: seq<Kind>)
    ensures RunOn(Float, t) == Float <==> Digits(t)
    ensures RunOn(Float, t) == Scientific <==> Scaled(t)
    ensures RunOn(Float, t) !in {Start, S1, Int}
    decreases |t|
  {
    ScaledFirst(t);
    if t != [] {
      DigitsFirst(t);
      if t[0] == Digit {
        FromFloat(t[1..]);
      } else if t[0] == E {
        FromS2(t[1..]);
      } else {
        InvalidStays(t[1..]);
      }
    }
  }

  lemma FractionFirst(t: seq<Kind>)
    ensures Fraction(t) <==> t != [] && (if t[0] == Dot then Digits(t[1..]) else t[0] == Digit && Fraction(t[1..]))
  {
    if Fraction(t) {
      var i :| 0 <= i < |t| && t[i] == Dot && Digits(t[..i]) && Digits(t[i + 1..]);
      if i > 0 {
        DigitsFirst(t[..i]);
        assert t[..i][1..] == t[1..][..i - 1] && t[1..][i..] == t[i + 1..];
        assert t[1..][i - 1] == Dot;
      }
    }
    if t != [] && t[0] == Dot && Digits(t[1..]) {
      assert Digits(t[..0]);
    }
    if t != [] && t[0] == Digit && Fraction(t[1..]) {
      var i :| 0 <= i < |t[1..]| && t[1..][i] == Dot && Digits(t[1..][..i]) && Digits(t[1..][i + 1..]);
      DigitsFirst(t[..i + 1]);
      assert t[..i + 1][1..] == t[1..][..i] && t[1..][i + 1..] == t[i + 2..];
      assert t[i + 1] == Dot;
    }
  }

  lemma ScaledFractionFirst(t: seq<Kind>)
    ensures ScaledFraction(t) <==>
            t != [] && (if t[0] == Dot then Scaled(t[1..]) else t[0] == Digit && ScaledFraction(t[1..]))
  {
    hide Scaled;
    if ScaledFraction(t) {
      var i :| 0 <= i < |t| && t[i] == Dot && Digits(t[..i]) && Scaled(t[i + 1..]);
      if i > 0 {
        DigitsFirst(t[..i]);
        assert t[..i][1..] == t[1..][..i - 1] && t[1..][i..] == t[i + 1..];
        assert t[1..][i - 1] == Dot;
      }
    }
    if t != [] && t[0] == Dot && Scaled(t[1..]) {
      assert Digits(t[..0]);
    }
    if t != [] && t[0] == Digit && ScaledFraction(t[1..]) {
      var i :| 0 <= i < |t[1..]| && t[1..][i] == Dot && Digits(t[1..][..i]) && Scaled(t[1..][i + 1..]);
      DigitsFirst(t[..i + 1]);
      assert t[..i + 1][1..] == t[1..][..i] && t[1..][i + 1..] == t[i + 2..];
      assert t[i + 1] == Dot;
    }
  }

  lemma {:induction false} FromInt(t: seq<Kind>)
    ensures RunOn(Int, t) == Int <==> Digits(t)
    ensures RunOn(Int, t) == Float <==> Fraction(t)
    ensures RunOn(Int, t) == Scientific <==> ScaledFraction(t)
    ensures RunOn(Int, t) !in {Start, S1}
    decreases |t|
  {
    hide Fraction, ScaledFraction, Scaled, Digits;
    FractionFirst(t);
    ScaledFractionFirst(t);
    if t != [] {
      DigitsFirst(t);
      if t[0] == Digit {
        FromInt(t[1..]);
      } else if t[0] == Dot {
        FromFloat(t[1..]);
      } else {
        InvalidStays(t[1..]);
      }
    } else {
      NoDigits();
    }
  }

  lemma NoDigits()
    ensures Digits([])
  {
  }

  /** After a sign, and from the start when there is none. */
  lemma FromFront(state: State, t: seq<Kind>)
    requires state == S1 || (state == Start && (t == [] || t[0] != Sign))
    ensures RunOn(state, t) == Int <==> SomeDigits(t)
    ensures RunOn(state, t) == Float <==> Fraction(t)
    ensures RunOn(state, t) == Scientific <==> ScaledFraction(t)
    ensures RunOn(state, t) == state <==> t == []
  {
    hide Fraction, ScaledFraction, Scaled, Digits;
    FractionFirst(t);
    ScaledFractionFirst(t);
    if t != [] {
      DigitsFirst(t);
      if t[0] == Digit {
        FromInt(t[1..]);
      } else if t[0] == Dot {
        FromFloat(t[1..]);
      } else {
        InvalidStays(t[1..]);
      }
    }
  }

  /** The machine classifies a token exactly as the three notations do. */
  lemma Classification(t: seq<Kind>)
    ensures RunOn(Start, t) == Int <==> IsInt(t)
    ensures RunOn(Start, t) == Float <==> IsFloat(t)
    ensures RunOn(Start, t) == Scientific <==> IsScientific(t)
    ensures RunOn(Start, t) == Start <==> t == []
  {
    hide Fraction, ScaledFraction, SomeDigits;
    if t != [] && t[0] == Sign {
      FromFront(S1, t[1..]);
      NeverBack(t);
    } else {
      FromFront(Start, t);
    }
  }

  lemma {:induction false} NeverStart(state: State, t: seq<Kind>)
    requires state != Start
    ensures RunOn(state, t) != Start
    decreases |t|
  {
    if t != [] {
      NeverStart(Step(state, t[0]), t[1..]);
    }
  }

  lemma NeverBack(t: seq<Kind>)
    requires t != []
    ensures RunOn(Start, t) != Start
  {
    NeverStart(Step(Start, t[0]), t[1..]);
  }

  // ---------------------------------------------------------------- the counters, from the path

  datatype Move = Move(from: State, to: State)

  /** The moves of the machine over these symbols. */
  function Moves(state: State, t: seq<Kind>): (moves: seq<Move>)
    ensures |moves| == |t|
    decreases |t|
  {
    if t == [] then [] else [Move(state, Step(state, t[0]))] + Moves(Step(state, t[0]), t[1..])
  }

  /** Move k goes from the state of the first k symbols to that of the first k + 1. */
  lemma {:induction false} MovesAt(state: State, t: seq<Kind>, k: nat)
    requires k < |t|
    ensures Moves(state, t)[k] == Move(RunOn(state, t[..k]), RunOn(state, t[..k + 1]))
    decreases |t|
  {
    hide Step;
    var next := Step(state, t[0]);
    if k == 0 {
      assert t[..1] == [t[0]] && t[..0] == [];
      assert RunOn(next, []) == next;
    } else {
      MovesAt(next, t[1..], k - 1);
      assert t[..k][1..] == t[1..][..k - 1] && t[..k + 1][1..] == t[1..][..k];
    }
  }

  /** The moves that bump the counter of a state: START, S1, S2 and EXPONENT count the symbols read
      there, INT and FLOAT those that lead away, and INVALID the ways into it from START and from
      SCIENTIFIC; the counter of SCIENTIFIC stays. */
  predicate Bumps(x: State, m: Move) {
    match x
    case Start | S1 | S2 | Exponent => m.from == x
    case Int | Float => m.from == x && m.to != x
    case Invalid => m.to == Invalid && (m.from == Start || m.from == Scientific)
    case Scientific => false
  }

  /** How many of the moves bump the counter of a state. */
  function BumpCount(moves: seq<Move>, x: State): nat
    decreases |moves|
  {
    if moves == [] then 0 else (if Bumps(x, moves[0]) then 1 else 0) + BumpCount(moves[1..], x)
  }

  lemma BumpedIs(state: State, c: Kind, x: State)
    ensures Bumped(state, c)[x] == if Bumps(x, Move(state, Step(state, c))) then 1 else 0
  {
  }

  // ---------------------------------------------------------------- scanning one token

  /** The token at p: everything in front of the next comma, NUL or end. */
  function TokenEnd(s: seq<bv8>, p: nat): (q: nat)
    requires p <= |s|
    ensures p <= q <= |s|
    ensures forall i :: p <= i < q ==> KindOf(s[i]) != Comma && KindOf(s[i]) != Nul
    ensures q < |s| ==> KindOf(s[q]) == Comma || KindOf(s[q]) == Nul
    decreases |s| - p
  {
    if p == |s| || KindOf(s[p]) == Comma || KindOf(s[p]) == Nul then p else TokenEnd(s, p + 1)
  }

  ghost predicate HasNul(s: seq<bv8>, p: nat) {
    exists i :: p <= i < |s| && KindOf(s[i]) == Nul
  }

  datatype Scan = Scan(state: State, end: nat, bumps: multiset<State>)

  /** Scan from p in this state: to an invalid byte, over a comma, or up to a NUL. */
  function ScanFrom(s: seq<bv8>, p: nat, state: State): Scan
    decreases |s| - p
  {
    if p >= |s| || KindOf(s[p]) == Nul || state == Invalid then Scan(state, p, multiset{})
    else if KindOf(s[p]) == Comma then Scan(state, p + 1, multiset{})
    else
      var c := KindOf(s[p]);
      var rest := ScanFrom(s, p + 1, Step(state, c));
      Scan(rest.state, rest.end, Bumped(state, c) + rest.bumps)
  }

  /** The scan ends in the state of the whole token, whatever it left unread after an invalid
      byte; a token that is valid is read in full, together with a comma behind it. */
  lemma {:induction false} ScanIsRun(s: seq<bv8>, p: nat, state: State)
    requires p <= |s|
    ensures var q := TokenEnd(s, p); var r := ScanFrom(s, p, state);
            && r.state == RunOn(state, Kinds(s[p..q]))
            && (r.state != Invalid ==> r.end == if q < |s| && KindOf(s[q]) == Comma then q + 1 else q)
            && (r.state == Invalid && state != Invalid ==> p < r.end <= q)
    decreases |s| - p
  {
    hide KindOf, Step, Bumped, TokenEnd;
    var q := TokenEnd(s, p);
    TokenUnfolds(s, p);
    if p == q {
      assert s[p..q] == [];
    } else if state == Invalid {
      InvalidStays(Kinds(s[p..q]));
    } else {
      var t := Kinds(s[p..q]);
      assert t[0] == KindOf(s[p]) && t[1..] == Kinds(s[p + 1..q]);
      ScanIsRun(s, p + 1, Step(state, t[0]));
      if Step(state, t[0]) == Invalid {
        assert ScanFrom(s, p + 1, Invalid).end == p + 1;
      }
    }
  }

  /** The symbols that a scan from p to end reads: all that it passes but for a comma at its end. */
  function Read(s: seq<bv8>, p: nat, end: nat): seq<Kind>
    requires p <= end <= |s|
  {
    if end > p && KindOf(s[end - 1]) == Comma then Kinds(s[p..end - 1]) else Kinds(s[p..end])
  }

  /** The counters of a scan are the counts of its moves. */
  lemma {:induction false} BumpsAreMoves(s: seq<bv8>, p: nat, state: State, x: State)
    requires p <= |s|
    ensures var r := ScanFrom(s, p, state);
            && p <= r.end <= |s|
            && r.bumps[x] == BumpCount(Moves(state, Read(s, p, r.end)), x)
    decreases |s| - p
  {
    hide KindOf, Step, Bumped, Bumps, Read, Moves, BumpCount;
    if p == |s| || KindOf(s[p]) == Nul || state == Invalid {
      NothingRead(s, p, p);
      NoMoves(state, x);
    } else if KindOf(s[p]) == Comma {
      NothingRead(s, p, p + 1);
      NoMoves(state, x);
    } else {
      var c := KindOf(s[p]);
      var next := Step(state, c);
      var rest := ScanFrom(s, p + 1, next);
      BumpsAreMoves(s, p + 1, next, x);
      BumpedIs(state, c, x);
      OneRead(s, p, rest.end);
      OneMove(state, c, Read(s, p + 1, rest.end), x);
    }
  }

  lemma NoMoves(state: State, x: State)
    ensures BumpCount(Moves(state, []), x) == 0
  {
  }

  lemma OneMove(state: State, c: Kind, t: seq<Kind>, x: State)
    ensures var next := Step(state, c);
            BumpCount(Moves(state, [c] + t), x) ==
            (if Bumps(x, Move(state, next)) then 1 else 0) + BumpCount(Moves(next, t), x)
  {
    hide Step, Bumps;
    assert ([c] + t)[1..] == t;
    var moves := Moves(state, [c] + t);
    assert moves[0] == Move(state, Step(state, c)) && moves[1..] == Moves(Step(state, c), t);
  }

  lemma NothingRead(s: seq<bv8>, p: nat, end: nat)
    requires p <= end <= |s| && (end == p || (end == p + 1 && KindOf(s[p]) == Comma))
    ensures Read(s, p, end) == []
  {
  }

  lemma OneRead(s: seq<bv8>, p: nat, end: nat)
    requires p < end <= |s| && KindOf(s[p]) != Comma
    ensures Read(s, p, end) == [KindOf(s[p])] + Read(s, p + 1, end)
  {
    hide KindOf, Kinds;
    KindsFrom(s, p, if KindOf(s[end - 1]) == Comma then end - 1 else end);
  }

  lemma KindsFrom(s: seq<bv8>, p: nat, end: nat)
    requires p < end <= |s|
    ensures Kinds(s[p..end]) == [KindOf(s[p])] + Kinds(s[p + 1..end])
  {
    hide KindOf, Kinds;
  }

  /** Every scan that reads a symbol counts START exactly once. */
  lemma StartIsCountedOnce(s: seq<bv8>, p: nat)
    requires p < |s| && KindOf(s[p]) != Nul
    ensures ScanFrom(s, p, Start).bumps[Start] == if KindOf(s[p]) == Comma then 0 else 1
  {
    hide KindOf;
    if KindOf(s[p]) != Comma {
      var next := Step(Start, KindOf(s[p]));
      NeverBumped(s, p + 1, next);
    }
  }

  lemma {:induction false} NeverBumped(s: seq<bv8>, p: nat, state: State)
    requires state != Start
    ensures ScanFrom(s, p, state).bumps[Start] == 0
    decreases |s| - p
  {
    hide KindOf;
    if p < |s| && KindOf(s[p]) != Nul && state != Invalid && KindOf(s[p]) != Comma {
      NeverBumped(s, p + 1, Step(state, KindOf(s[p])));
    }
  }

  lemma TokenUnfolds(s: seq<bv8>, p: nat)
    requires p <= |s|
    ensures TokenEnd(s, p) > p ==> TokenEnd(s, p) == TokenEnd(s, p + 1)
  {
    hide KindOf;
  }

  /** A scan that starts in front of a NUL moves on, but not past the NUL. */
  lemma ScanProgress(s: seq<bv8>, p: nat)
    requires p < |s| && KindOf(s[p]) != Nul && HasNul(s, p)
    ensures var r := ScanFrom(s, p, Start);
            p < r.end < |s| && HasNul(s, r.end) && forall i :: p <= i < r.end ==> KindOf(s[i]) != Nul
  {
    hide KindOf, RunOn, Kinds, ScanFrom, TokenEnd;
    ScanIsRun(s, p, Start);
    var q := TokenEnd(s, p);
    var nul :| p <= nul < |s| && KindOf(s[nul]) == Nul;
    assert q <= nul;
    if q == p {
      assert KindOf(s[p]) == Comma;
    }
    assert KindOf(s[q]) == Comma ==> q < nul;
  }

  /** One iteration of the scan, with the counters so far. */
  lemma ScanUnfolds(s: seq<bv8>, p: nat, state: State, bumps: multiset<State>)
    requires p < |s|
    ensures var r := ScanFrom(s, p, state); var c := KindOf(s[p]);
            if c == Nul || state == Invalid then r.state == state && r.end == p && bumps + r.bumps == bumps
            else if c == Comma then r.state == state && r.end == p + 1 && bumps + r.bumps == bumps
            else
              var rest := ScanFrom(s, p + 1, Step(state, c));
              r.state == rest.state && r.end == rest.end && bumps + r.bumps == (bumps + Bumped(state, c)) + rest.bumps
  {
    hide KindOf, Step, Bumped;
    if KindOf(s[p]) != Nul && state != Invalid && KindOf(s[p]) != Comma {
      var c := KindOf(s[p]);
      var rest := ScanFrom(s, p + 1, Step(state, c));
      assert bumps + (Bumped(state, c) + rest.bumps) == (bumps + Bumped(state, c)) + rest.bumps;
    }
  }

  /** The array holds the counts of base, and these bumps on top. */
  ghost predicate Counted(counts: seq<nat>, base: seq<nat>, bumps: multiset<State>) {
    |counts| == |base| == 8 && forall x: State :: counts[Code(x)] == base[Code(x)] + bumps[x]
  }

  lemma CountedMore(counts: seq<nat>, mid: seq<nat>, base: seq<nat>, a: multiset<State>, b: multiset<State>)
    requires Counted(mid, base, a) && Counted(counts, mid, b)
    ensures Counted(counts, base, a + b)
  {
  }

  /** The places of the states in the arrays of counts. */
  lemma Codes()
    ensures [Code(Start), Code(Invalid), Code(S1), Code(S2)] == [0, 1, 2, 3]
    ensures [Code(Int), Code(Float), Code(Exponent), Code(Scientific)] == [4, 5, 6, 7]
  {
  }

  lemma CodesDiffer(x: State, y: State)
    ensures Code(x) == Code(y) <==> x == y
  {
  }

  method Bump(counts: array<nat>, x: State)
    requires counts.Length == 8
    modifies counts
    ensures Counted(counts[..], old(counts[..]), multiset{x})
  {
    counts[Code(x)] := counts[Code(x)] + 1;
    forall y: State
      ensures counts[Code(y)] == old(counts[Code(y)]) + multiset{x}[y]
    {
      CodesDiffer(x, y);
    }
  }

  /** The switch in the scan loop. */
  method Switch(state: State, symbol: Kind, counts: array<nat>) returns (next: State)
    requires counts.Length == 8 && state != Invalid && symbol != Comma && symbol != Nul
    modifies counts
    ensures next == Step(state, symbol)
    ensures Counted(counts[..], old(counts[..]), Bumped(state, symbol))
  {
    hide Code;
    next := state;
    match state {
      case Start =>
        if symbol == Digit {
          next := Int;
        } else if symbol == Sign {
          next := S1;
        } else if symbol == Dot {
          next := Float;
        } else {
          next := Invalid;
          Bump(counts, Invalid);
        }
        Bump(counts, Start);
      case S1 =>
        if symbol == Digit {
          next := Int;
        } else if symbol == Dot {
          next := Float;
        } else {
          next := Invalid;
        }
        Bump(counts, S1);
      case Int =>
        if symbol == Dot {
          next := Float;
          Bump(counts, Int);
        } else if symbol != Digit {
          next := Invalid;
          Bump(counts, Int);
        }
      case Float =>
        if symbol == E {
          next := S2;
          Bump(counts, Float);
        } else if symbol != Digit {
          next := Invalid;
          Bump(counts, Float);
        }
      case S2 =>
        next := if symbol == Sign then Exponent else Invalid;
        Bump(counts, S2);
      case Exponent =>
        next := if symbol == Digit then Scientific else Invalid;
        Bump(counts, Exponent);
      case Scientific =>
        if symbol != Digit {
          next := Invalid;
          Bump(counts, Invalid);
        }
    }
  }

  /** The scanner: the state it ends in, the place it stops at, and the counters. */
  method StateTransition(mem: array<bv8>, start: nat, transitionCount: array<nat>) returns (state: State, str: nat)
    requires HasNul(mem[..], start) && transitionCount.Length == 8 && (mem as object) != (transitionCount as object)
    modifies transitionCount
    ensures var r := ScanFrom(mem[..], start, Start);
            state == r.state && str == r.end && Counted(transitionCount[..], old(transitionCount[..]), r.bumps)
    ensures start <= str <= mem.Length
    ensures MovesCounted(transitionCount[..], old(transitionCount[..]),
                         Moves(Start, Read(mem[..], start, ScanFrom(mem[..], start, Start).end)))
  {
    hide KindOf, Step, Bumped, Counted, ScanFrom, MovesCounted;
    str, state := start, Start;
    ghost var s := mem[..];
    ghost var all := ScanFrom(s, start, Start);
    ghost var nul :| start <= nul < |s| && KindOf(s[nul]) == Nul;
    ghost var bumps: multiset<State> := multiset{};
    NotBumped(transitionCount[..]);
    assert bumps + all.bumps == all.bumps;
    while KindOf(mem[str]) != Nul && state != Invalid
      invariant str <= nul && mem[..] == s
      invariant var r := ScanFrom(s, str, state); all == Scan(r.state, r.end, bumps + r.bumps)
      invariant Counted(transitionCount[..], old(transitionCount[..]), bumps)
      decreases nul - str
    {
      var symbol := KindOf(mem[str]);
      ScanUnfolds(s, str, state, bumps);
      if symbol == Comma {
        str := str + 1;
        CountedIsMoves(transitionCount[..], old(transitionCount[..]), s, start);
        return;
      }
      ghost var before := transitionCount[..];
      ghost var more := Bumped(state, symbol);
      state := Switch(state, symbol, transitionCount);
      CountedMore(transitionCount[..], before, old(transitionCount[..]), bumps, more);
      bumps := bumps + more;
      str := str + 1;
    }
    ScanUnfolds(s, str, state, bumps);
    CountedIsMoves(transitionCount[..], old(transitionCount[..]), s, start);
  }

  /** Each counter has grown by the moves that bump it. */
  ghost predicate MovesCounted(counts: seq<nat>, base: seq<nat>, moves: seq<Move>) {
    |counts| == |base| == 8 && forall x: State :: counts[Code(x)] == base[Code(x)] + BumpCount(moves, x)
  }

  lemma CountedIsMoves(counts: seq<nat>, base: seq<nat>, s: seq<bv8>, p: nat)
    requires p <= |s| && Counted(counts, base, ScanFrom(s, p, Start).bumps)
    ensures var r := ScanFrom(s, p, Start);
            p <= r.end <= |s| && MovesCounted(counts, base, Moves(Start, Read(s, p, r.end)))
  {
    hide Code, ScanFrom, Read, Moves;
    BumpsAreMoves(s, p, Start, Start);
    forall x: State
      ensures counts[Code(x)] == base[Code(x)] + BumpCount(Moves(Start, Read(s, p, ScanFrom(s, p, Start).end)), x)
    {
      BumpsAreMoves(s, p, Start, x);
    }
  }

  lemma NotBumped(counts: seq<nat>)
    requires |counts| == 8
    ensures Counted(counts, counts, multiset{})
  {
  }
}
