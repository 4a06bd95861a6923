/** The body of the state benchmark: scan, corrupt, scan, undo; and the initial input. */
module StateBench {
  import opened Crc
  import opened CoreState
  import opened Powers
  import opened SoftArith
  import A = Arithmetic
  import Words

  // ---------------------------------------------------------------- scanning all tokens

  datatype Slice = Slice(state: State, from: nat, to: nat)

  /** The slices that repeated scans cut the input into. */
  ghost function Slices(s: seq<bv8>, p: nat): (r: seq<Slice>)
    requires HasNul(s, p)
    decreases |s| - p
  {
    if KindOf(s[p]) == Nul then []
    else
      ScanProgress(s, p);
      var scan := ScanFrom(s, p, Start);
      [Slice(scan.state, p, scan.end)] + Slices(s, scan.end)
  }

  ghost function AllBumps(s: seq<bv8>, p: nat): multiset<State>
    requires HasNul(s, p)
    decreases |s| - p
  {
    if KindOf(s[p]) == Nul then multiset{}
    else
      ScanProgress(s, p);
      var scan := ScanFrom(s, p, Start);
      scan.bumps + AllBumps(s, scan.end)
  }

  ghost function States(slices: seq<Slice>): (r: multiset<State>)
    ensures |r| == |slices|
  {
    if slices == [] then multiset{} else multiset{slices[0].state} + States(slices[1..])
  }

  ghost function FirstNul(s: seq<bv8>, p: nat): (n: nat)
    requires HasNul(s, p)
    ensures p <= n < |s| && KindOf(s[n]) == Nul && forall i :: p <= i < n ==> KindOf(s[i]) != Nul
    decreases |s| - p
  {
    if KindOf(s[p]) == Nul then p else FirstNul(s, p + 1)
  }

  ghost function Text(s: seq<bv8>, slices: seq<Slice>): seq<bv8>
    requires forall k :: 0 <= k < |slices| ==> slices[k].from <= slices[k].to <= |s|
  {
    if slices == [] then [] else s[slices[0].from..slices[0].to] + Text(s, slices[1..])
  }

  /** The slices are not empty and put together they are the input up to the first NUL. */
  lemma {:induction false} SlicesCover(s: seq<bv8>, p: nat)
    requires HasNul(s, p)
    ensures var slices := Slices(s, p);
            && (forall k :: 0 <= k < |slices| ==> p <= slices[k].from < slices[k].to <= FirstNul(s, p))
            && Text(s, slices) == s[p..FirstNul(s, p)]
    decreases |s| - p
  {
    hide KindOf, ScanFrom;
    if KindOf(s[p]) != Nul {
      ScanProgress(s, p);
      var end := ScanFrom(s, p, Start).end;
      SlicesCover(s, end);
      SameNul(s, p, end);
      var slices := Slices(s, p);
      assert slices[1..] == Slices(s, end);
      forall k | 0 <= k < |slices|
        ensures p <= slices[k].from < slices[k].to <= FirstNul(s, p)
      {
        if k > 0 {
          assert slices[k] == slices[1..][k - 1];
        }
      }
      assert s[p..end] + s[end..FirstNul(s, p)] == s[p..FirstNul(s, p)];
    }
  }

  lemma SameNul(s: seq<bv8>, p: nat, q: nat)
    requires HasNul(s, p) && p <= q && HasNul(s, q) && forall i :: p <= i < q ==> KindOf(s[i]) != Nul
    ensures FirstNul(s, p) == FirstNul(s, q)
  {
    hide KindOf;
    var a, b := FirstNul(s, p), FirstNul(s, q);
  }

  /** The state of each slice classifies the token that starts there. */
  lemma {:induction false} SlicesClassify(s: seq<bv8>, p: nat, k: nat)
    requires HasNul(s, p) && k < |Slices(s, p)|
    ensures Slices(s, p)[k].from < |s|
    ensures var slice := Slices(s, p)[k];
            var token := Kinds(s[slice.from..TokenEnd(s, slice.from)]);
            && (slice.state == Int <==> IsInt(token))
            && (slice.state == Float <==> IsFloat(token))
            && (slice.state == Scientific <==> IsScientific(token))
            && (slice.state == Start <==> token == [])
    decreases |s| - p
  {
    hide KindOf, ScanFrom, IsInt, IsFloat, IsScientific, RunOn;
    ScanProgress(s, p);
    var end := ScanFrom(s, p, Start).end;
    if k == 0 {
      ScanIsRun(s, p, Start);
      Classification(Kinds(s[p..TokenEnd(s, p)]));
    } else {
      SlicesClassify(s, end, k - 1);
    }
  }

  /** How often the moves of these slices bump a counter. */
  ghost function Bumpings(s: seq<bv8>, slices: seq<Slice>, x: State): nat
    requires forall k :: 0 <= k < |slices| ==> slices[k].from <= slices[k].to <= |s|
  {
    if slices == [] then 0
    else BumpCount(Moves(Start, Read(s, slices[0].from, slices[0].to)), x) + Bumpings(s, slices[1..], x)
  }

  /** The counters of repeated scans are the counts of the moves in all slices. */
  lemma {:induction false} AllBumpsAre(s: seq<bv8>, p: nat, x: State)
    requires HasNul(s, p)
    ensures forall k :: 0 <= k < |Slices(s, p)| ==> Slices(s, p)[k].from <= Slices(s, p)[k].to <= |s|
    ensures AllBumps(s, p)[x] == Bumpings(s, Slices(s, p), x)
    decreases |s| - p
  {
    hide KindOf, ScanFrom, Moves, Read, BumpCount, HasNul;
    SlicesCover(s, p);
    if KindOf(s[p]) != Nul {
      ScanProgress(s, p);
      var end := ScanFrom(s, p, Start).end;
      BumpsAreMoves(s, p, Start, x);
      AllBumpsAre(s, end, x);
      assert Slices(s, p)[1..] == Slices(s, end);
    }
  }

  // ---------------------------------------------------------------- the loop over the tokens

  lemma SliceUnfolds(s: seq<bv8>, p: nat, states: multiset<State>, bumps: multiset<State>)
    requires HasNul(s, p) && KindOf(s[p]) != Nul
    ensures var scan := ScanFrom(s, p, Start);
            && HasNul(s, scan.end)
            && states + States(Slices(s, p)) == states + multiset{scan.state} + States(Slices(s, scan.end))
            && bumps + AllBumps(s, p) == bumps + scan.bumps + AllBumps(s, scan.end)
  {
    hide KindOf, ScanFrom;
    ScanProgress(s, p);
    var end := ScanFrom(s, p, Start).end;
    assert Slices(s, p)[1..] == Slices(s, end);
  }

  lemma SlicesEnd(s: seq<bv8>, p: nat, states: multiset<State>, bumps: multiset<State>)
    requires HasNul(s, p) && KindOf(s[p]) == Nul
    ensures states + States(Slices(s, p)) == states && bumps + AllBumps(s, p) == bumps
  {
    hide KindOf;
  }

  method ScanAll(mem: array<bv8>, finalCounts: array<nat>, trackCounts: array<nat>)
    requires HasNul(mem[..], 0) && finalCounts.Length == trackCounts.Length == 8 && finalCounts != trackCounts
    requires (mem as object) != (finalCounts as object) && (mem as object) != (trackCounts as object)
    modifies finalCounts, trackCounts
    ensures Counted(finalCounts[..], old(finalCounts[..]), States(Slices(mem[..], 0)))
    ensures Counted(trackCounts[..], old(trackCounts[..]), AllBumps(mem[..], 0))
  {
    hide KindOf, ScanFrom, Counted, Slices, AllBumps, States;
    var p := 0;
    ghost var s := mem[..];
    ghost var states: multiset<State>, bumps: multiset<State> := multiset{}, multiset{};
    NotBumped(finalCounts[..]);
    NotBumped(trackCounts[..]);
    assert multiset{} + States(Slices(s, 0)) == States(Slices(s, 0)) && multiset{} + AllBumps(s, 0) == AllBumps(s, 0);
    while KindOf(mem[p]) != Nul
      invariant mem[..] == s && HasNul(s, p) && p < mem.Length
      invariant states + States(Slices(s, p)) == States(Slices(s, 0)) && bumps + AllBumps(s, p) == AllBumps(s, 0)
      invariant Counted(finalCounts[..], old(finalCounts[..]), states)
      invariant Counted(trackCounts[..], old(trackCounts[..]), bumps)
      decreases mem.Length - p
    {
      ScanProgress(s, p);
      ghost var scan := ScanFrom(s, p, Start);
      ghost var finals, tracks := finalCounts[..], trackCounts[..];
      SliceUnfolds(s, p, states, bumps);
      p := ScanOne(mem, p, finalCounts, trackCounts);
      CountedMore(finalCounts[..], finals, old(finalCounts[..]), states, multiset{scan.state});
      CountedMore(trackCounts[..], tracks, old(trackCounts[..]), bumps, scan.bumps);
      states, bumps := states + multiset{scan.state}, bumps + scan.bumps;
    }
    SlicesEnd(s, p, states, bumps);
  }

  method ScanOne(mem: array<bv8>, p: nat, finalCounts: array<nat>, trackCounts: array<nat>) returns (q: nat)
    requires HasNul(mem[..], p) && finalCounts.Length == trackCounts.Length == 8 && finalCounts != trackCounts
    requires (mem as object) != (finalCounts as object) && (mem as object) != (trackCounts as object)
    modifies finalCounts, trackCounts
    ensures var r := ScanFrom(mem[..], p, Start);
            && q == r.end
            && Counted(finalCounts[..], old(finalCounts[..]), multiset{r.state})
            && Counted(trackCounts[..], old(trackCounts[..]), r.bumps)
  {
    hide KindOf, ScanFrom, Counted;
    var fstate;
    fstate, q := StateTransition(mem, p, trackCounts);
    Bump(finalCounts, fstate);
  }

  function Sum(m: multiset<State>): nat {
    m[Start] + m[Invalid] + m[S1] + m[S2] + m[Int] + m[Float] + m[Exponent] + m[Scientific]
  }

  lemma {:induction false} SumOfStates(slices: seq<Slice>)
    ensures Sum(States(slices)) == |slices|
    decreases |slices|
  {
    if slices != [] {
      var x, rest := slices[0].state, States(slices[1..]);
      SumOfStates(slices[1..]);
      match x
      case Start => assert Sum(multiset{x} + rest) == 1 + Sum(rest);
      case Invalid => assert Sum(multiset{x} + rest) == 1 + Sum(rest);
      case S1 => assert Sum(multiset{x} + rest) == 1 + Sum(rest);
      case S2 => assert Sum(multiset{x} + rest) == 1 + Sum(rest);
      case Int => assert Sum(multiset{x} + rest) == 1 + Sum(rest);
      case Float => assert Sum(multiset{x} + rest) == 1 + Sum(rest);
      case Exponent => assert Sum(multiset{x} + rest) == 1 + Sum(rest);
      case Scientific => assert Sum(multiset{x} + rest) == 1 + Sum(rest);
    }
  }

  /** The final counts add up to the number of slices. */
  lemma FinalCountsSum(counts: seq<nat>, base: seq<nat>, slices: seq<Slice>)
    requires Counted(counts, base, States(slices)) && forall i :: 0 <= i < 8 ==> base[i] == 0
    ensures counts[0] + counts[1] + counts[2] + counts[3] + counts[4] + counts[5] + counts[6] + counts[7] == |slices|
  {
    SumOfStates(slices);
    assert counts[Code(Start)] == States(slices)[Start] && counts[Code(Invalid)] == States(slices)[Invalid];
    assert counts[Code(S1)] == States(slices)[S1] && counts[Code(S2)] == States(slices)[S2];
    assert counts[Code(Int)] == States(slices)[Int] && counts[Code(Float)] == States(slices)[Float];
    assert counts[Code(Exponent)] == States(slices)[Exponent] && counts[Code(Scientific)] == States(slices)[Scientific];
  }

  // ---------------------------------------------------------------- corruption

  /** A byte that is not a comma is changed. */
  function Flip(b: bv8, v: bv8): bv8 {
    if b == 0x2C then b else b ^ v
  }

  function CommaWith(v: bv8): bv8 {
    0x2C ^ v
  }

  lemma FlipTwice(b: bv8, v: bv8)
    ensures Flip(Flip(b, v), v) == b <==> v == 0 || b != CommaWith(v)
  {
  }

  /** Every step-th byte is changed. */
  function Corrupted(s: seq<bv8>, step: int, v: bv8): (r: seq<bv8>)
    requires step > 0
    ensures |r| == |s| && forall i :: 0 <= i < |s| ==> r[i] == if i % step == 0 then Flip(s[i], v) else s[i]
  {
    seq(|s|, i requires 0 <= i < |s| => if i % step == 0 then Flip(s[i], v) else s[i])
  }

  /** Every byte whose place is a multiple of the step, and that is no comma, is combined with the value. */
  lemma CorruptedAt(s: seq<bv8>, step: int, v: bv8, i: nat)
    requires step > 0 && i < |s|
    ensures Corrupted(s, step, v)[i] == if i % step == 0 && s[i] != ',' as bv8 then s[i] ^ v else s[i]
  {
    assert ',' as bv8 == 0x2C;
    hide Corrupted;
  }

  /** Between one visited place and the next there is none. */
  lemma NotVisited(p: int, i: int, step: int)
    requires step > 0 && p % step == 0 && p < i < p + step
    ensures i % step != 0
  {
    var k := p / step;
    assert p == k * step;
    if i % step == 0 {
      var j := i / step;
      assert i == j * step;
      if j <= k {
        Scale(j, k, step);
      } else {
        Scale(k + 1, j, step);
      }
    }
  }

  lemma Scale(a: int, b: int, step: int)
    requires a <= b && step > 0
    ensures a * step <= b * step
  {
  }

  lemma NextVisited(p: int, step: int)
    requires step > 0 && p % step == 0
    ensures (p + step) % step == 0
  {
    var k := p / step;
    assert p == k * step;
    assert (k + 1) * step + 0 == p + step;
    QuotientIsUnique(k + 1, step, 0);
  }

  method Corrupt(mem: array<bv8>, step: int, v: bv8)
    requires step > 0
    modifies mem
    ensures mem[..] == Corrupted(old(mem[..]), step, v)
  {
    hide Flip;
    var p := 0;
    ghost var s := mem[..];
    while p < mem.Length
      invariant 0 <= p && p % step == 0
      invariant forall i :: 0 <= i < mem.Length ==> mem[i] == if i < p && i % step == 0 then Flip(s[i], v) else s[i]
      decreases mem.Length - p
    {
      forall i | p < i < p + step
        ensures i % step != 0
      {
        NotVisited(p, i, step);
      }
      NextVisited(p, step);
      mem[p] := Flip(mem[p], v);
      p := p + step;
    }
  }

  /** Corrupting twice with one value restores the input exactly when the value is 0 or no
      visited byte becomes a comma. */
  lemma UndoCorruption(s: seq<bv8>, step: int, v: bv8)
    requires step > 0
    ensures Corrupted(Corrupted(s, step, v), step, v) == s <==>
            v == 0 || forall i :: 0 <= i < |s| && i % step == 0 ==> s[i] != CommaWith(v)
  {
    hide Flip, CommaWith;
    var r := Corrupted(Corrupted(s, step, v), step, v);
    forall i | 0 <= i < |s|
      ensures r[i] == s[i] <==> i % step != 0 || v == 0 || s[i] != CommaWith(v)
    {
      FlipTwice(s[i], v);
    }
  }

  /** The digit 0 becomes a comma, and stays one. */
  lemma CommaStays()
    ensures Corrupted([0x30], 1, 0x1C) == [0x2C] && Corrupted([0x2C], 1, 0x1C) == [0x2C]
  {
  }

  lemma NextIsNotVisited(i: int, step: int)
    requires step >= 2 && i >= 0
    ensures i % step != 0 || (i + 1) % step != 0
  {
    if i % step == 0 {
      NotVisited(i, i + 1, step);
    }
  }

  /** With two zero bytes at the end, and a step of at least 2, a zero byte always remains. */
  lemma ScansStayInside(s: seq<bv8>, step: int, v: bv8)
    requires step >= 2 && |s| >= 2 && s[|s| - 1] == 0 && s[|s| - 2] == 0
    ensures HasNul(s, 0) && HasNul(Corrupted(s, step, v), 0)
  {
    hide Flip;
    NextIsNotVisited(|s| - 2, step);
    var i := if (|s| - 1) % step != 0 then |s| - 1 else |s| - 2;
    assert Corrupted(s, step, v)[i] == 0;
    assert KindOf(Corrupted(s, step, v)[i]) == Nul && KindOf(s[i]) == Nul;
  }

  // ---------------------------------------------------------------- the benchmark

  /** A count as a 32-bit value. */
  function Word(count: nat): bv32 {
    A.FromNumber(count)
  }

  /** The bytes that the first n pairs of counts are fed as, a final count and a transition count in
      turn. */
  function CountsMessage(finals: seq<nat>, tracks: seq<nat>, n: nat): (message: seq<bv8>)
    requires |finals| == |tracks| == 8 && n <= 8
    ensures |message| == 8 * n
  {
    if n == 0 then []
    else CountsMessage(finals, tracks, n - 1) + LongBytes(Word(finals[n - 1])) + LongBytes(Word(tracks[n - 1]))
  }

  lemma LongByteIs(count: nat, k: nat)
    requires k < 4
    ensures A.ByteNumber(LongBytes(Word(count))[k]) == A.Digit256(count, k)
  {
    hide LongBytes, A.ByteNumber, Words.Unsigned, Words.ShiftRight, A.Digit256, A.FromNumber;
    var v := Word(count);
    LongBytesAre(v);
    A.UnsignedFromNumber(count);
    A.ByteOfWord(v, 0);
    A.ByteOfWord(v, 8);
    A.ByteOfWord(v, 16);
    A.ByteOfWord(v, 24);
    ShiftedWord(v);
    DigitsOf(count);
  }

  lemma ShiftedWord(v: bv32)
    ensures Words.Unsigned(Words.ShiftRight(v, 0)) == Words.Unsigned(v)
    ensures Words.Unsigned(Words.ShiftRight(v, 8)) == Words.Unsigned(v) / 0x100
    ensures Words.Unsigned(Words.ShiftRight(v, 16)) == Words.Unsigned(v) / 0x1_0000
    ensures Words.Unsigned(Words.ShiftRight(v, 24)) == Words.Unsigned(v) / 0x100_0000
  {
    A.ShiftNothing(v);
    A.SmallNumbers();
    A.PowersOfTwo();
    hide Words.Unsigned, Words.ShiftRight, Pow2;
    A.UnsignedShiftRight(v, 8);
    A.UnsignedShiftRight(v, 16);
    A.UnsignedShiftRight(v, 24);
  }

  lemma QuotientsOf(n: nat)
    ensures n / 0x100 / 0x100 == n / 0x1_0000 && n / 0x1_0000 / 0x100 == n / 0x100_0000
  {
  }

  lemma LowDigits(n: nat, p: nat, m: nat)
    requires p > 0 && m > 0 && p * (m * 0x100) == 0x1_0000_0000
    ensures ((n % 0x1_0000_0000) / p) % 0x100 == (n / p) % 0x100
  {
    var q, r := n / 0x1_0000_0000, n % 0x1_0000_0000;
    var a, b := r / p, r % p;
    assert n == (q * (m * 0x100) + a) * p + b;
    QuotientIs(n, p, q * (m * 0x100) + a, b);
    var c, d := a / 0x100, a % 0x100;
    assert q * (m * 0x100) + a == (q * m + c) * 0x100 + d;
    QuotientIs(q * (m * 0x100) + a, 0x100, q * m + c, d);
  }

  lemma DigitsUnfold(n: nat)
    ensures A.Digit256(n, 0) == n % 0x100 && A.Digit256(n, 1) == (n / 0x100) % 0x100
    ensures A.Digit256(n, 2) == (n / 0x100 / 0x100) % 0x100 && A.Digit256(n, 3) == (n / 0x100 / 0x100 / 0x100) % 0x100
  {
    assert A.Digit256(n / 0x100, 1) == (n / 0x100 / 0x100) % 0x100;
    assert A.Digit256(n / 0x100, 2) == A.Digit256(n / 0x100 / 0x100, 1) == (n / 0x100 / 0x100 / 0x100) % 0x100;
  }

  lemma DigitsOf(n: nat)
    ensures A.Digit256(n, 0) == (n % 0x1_0000_0000) % 0x100
    ensures A.Digit256(n, 1) == ((n % 0x1_0000_0000) / 0x100) % 0x100
    ensures A.Digit256(n, 2) == ((n % 0x1_0000_0000) / 0x1_0000) % 0x100
    ensures A.Digit256(n, 3) == ((n % 0x1_0000_0000) / 0x100_0000) % 0x100
  {
    hide A.Digit256;
    DigitsUnfold(n);
    QuotientsOf(n);
    LowDigits(n, 1, 0x100_0000);
    LowDigits(n, 0x100, 0x1_0000);
    LowDigits(n, 0x1_0000, 0x100);
    LowDigits(n, 0x100_0000, 1);
  }

  /** Each count is fed as its four lowest bytes, lowest first. */
  lemma {:induction false} CountsMessageIs(finals: seq<nat>, tracks: seq<nat>, n: nat, i: nat, k: nat)
    requires |finals| == |tracks| == 8 && i < n <= 8 && k < 4
    ensures A.ByteNumber(CountsMessage(finals, tracks, n)[8 * i + k]) == A.Digit256(finals[i], k)
    ensures A.ByteNumber(CountsMessage(finals, tracks, n)[8 * i + 4 + k]) == A.Digit256(tracks[i], k)
    decreases n
  {
    hide A.ByteNumber, A.Digit256, LongBytes, Word;
    if i < n - 1 {
      CountsMessageIs(finals, tracks, n - 1, i, k);
    } else {
      LongByteIs(finals[i], k);
      LongByteIs(tracks[i], k);
    }
  }

  /** What both scans count. */
  ghost predicate TwoScans(finals: seq<nat>, tracks: seq<nat>, a: seq<bv8>, b: seq<bv8>)
    requires HasNul(a, 0) && HasNul(b, 0)
  {
    var zeros := [0, 0, 0, 0, 0, 0, 0, 0];
    && Counted(finals, zeros, States(Slices(a, 0)) + States(Slices(b, 0)))
    && Counted(tracks, zeros, AllBumps(a, 0) + AllBumps(b, 0))
  }

  /** Each final count is the number of slices of both scans in that state, and each other count the
      number of moves in them that bump it. */
  lemma TwoScansMean(finals: seq<nat>, tracks: seq<nat>, a: seq<bv8>, b: seq<bv8>, x: State)
    requires HasNul(a, 0) && HasNul(b, 0) && TwoScans(finals, tracks, a, b)
    ensures forall k :: 0 <= k < |Slices(a, 0)| ==> Slices(a, 0)[k].from <= Slices(a, 0)[k].to <= |a|
    ensures forall k :: 0 <= k < |Slices(b, 0)| ==> Slices(b, 0)[k].from <= Slices(b, 0)[k].to <= |b|
    ensures |finals| == |tracks| == 8
    ensures finals[Code(x)] == States(Slices(a, 0))[x] + States(Slices(b, 0))[x]
    ensures tracks[Code(x)] == Bumpings(a, Slices(a, 0), x) + Bumpings(b, Slices(b, 0), x)
  {
    hide Slices, AllBumps, Bumpings, States, HasNul, Code;
    AllBumpsAre(a, 0, x);
    AllBumpsAre(b, 0, x);
    assert 0 <= Code(x) < 8;
  }

  /** Scan, corrupt with the low byte of seed1, scan again, and undo with that of seed2. */
  method BenchState(mem: array<bv8>, seed1: bv16, seed2: bv16, step: int, seed: bv16)
    returns (crc: bv16, ghost finals: seq<nat>, ghost tracks: seq<nat>)
    requires step > 0 && HasNul(mem[..], 0) && HasNul(Corrupted(mem[..], step, LowByte(seed1)), 0)
    modifies mem
    ensures var corrupted := Corrupted(old(mem[..]), step, LowByte(seed1));
            && TwoScans(finals, tracks, old(mem[..]), corrupted)
            && mem[..] == Corrupted(corrupted, step, LowByte(seed2))
            && crc == MessageCrc(CountsMessage(finals, tracks, 8), seed)
    ensures LowByte(seed1) == LowByte(seed2) ==>
              (mem[..] == old(mem[..]) <==>
               LowByte(seed1) == 0 || forall i :: 0 <= i < mem.Length && i % step == 0 ==>
                   old(mem[i]) != CommaWith(LowByte(seed1)))
  {
    hide KindOf, Counted, Flip, CommaWith, LowByte, CountsMessage, MessageCrc, Slices, AllBumps, States;
    var finalCounts := new nat[8](_ => 0);
    var trackCounts := new nat[8](_ => 0);
    ghost var s := mem[..];
    ghost var zeros := [0, 0, 0, 0, 0, 0, 0, 0];
    assert finalCounts[..] == zeros && trackCounts[..] == zeros;
    ScanAll(mem, finalCounts, trackCounts);
    ghost var finals1, tracks1 := finalCounts[..], trackCounts[..];
    Corrupt(mem, step, LowByte(seed1));
    ghost var t := mem[..];
    ScanAll(mem, finalCounts, trackCounts);
    finals, tracks := finalCounts[..], trackCounts[..];
    CountedMore(finals, finals1, zeros, States(Slices(s, 0)), States(Slices(t, 0)));
    CountedMore(tracks, tracks1, zeros, AllBumps(s, 0), AllBumps(t, 0));
    Corrupt(mem, step, LowByte(seed2));
    UndoCorruption(s, step, LowByte(seed1));
    crc := CrcOfCounts(finalCounts, trackCounts, seed);
  }

  method CrcOfCounts(finalCounts: array<nat>, trackCounts: array<nat>, seed: bv16) returns (crc: bv16)
    requires finalCounts.Length == trackCounts.Length == 8
    ensures crc == MessageCrc(CountsMessage(finalCounts[..], trackCounts[..], 8), seed)
  {
    hide MessageCrc, Word, LongBytes;
    crc := seed;
    NothingFed(seed);
    for i := 0 to 8
      invariant crc == MessageCrc(CountsMessage(finalCounts[..], trackCounts[..], i), seed)
    {
      var front := CountsMessage(finalCounts[..], trackCounts[..], i);
      var f, t := Word(finalCounts[i]), Word(trackCounts[i]);
      LongBytesAre(f);
      LongBytesAre(t);
      MessageCrcSplits(front, LongBytes(f), seed);
      MessageCrcSplits(front + LongBytes(f), LongBytes(t), seed);
      crc := Crcu32(f, crc);
      crc := Crcu32(t, crc);
    }
  }

  lemma NothingFed(seed: bv16)
    ensures MessageCrc([], seed) == seed
  {
  }
}
