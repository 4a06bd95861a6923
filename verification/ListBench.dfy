/** The body of the list benchmark, which is to leave the list as it found it. */
module ListBench {
  import opened Crc
  import opened CoreList
  import opened ListSort

  // ---------------------------------------------------------------- the arithmetic of the score

  function Plus(a: bv16, b: bv16): bv16 {
    a + b
  }

  function Minus(a: bv16, b: bv16): bv16 {
    a - b
  }

  function Bit8(data: bv16): bv16 {
    (data >> 8) & 1
  }

  function Bit9(data: bv16): bv16 {
    (data >> 9) & 1
  }

  /** retval + found * 4 - missed. */
  function Score(retval: bv16, found: bv16, missed: bv16): bv16 {
    Minus(Plus(retval, found * 4), missed)
  }

  /** The 16-bit value of a number. */
  function Wrapped(n: int): bv16
    decreases if n < 0 then -n else n
  {
    if n == 0 then 0 else if n > 0 then Wrapped(n - 1) + 1 else Wrapped(n + 1) - 1
  }

  function LowByteOf(i: nat): bv16 {
    Wrapped(i % 256)
  }

  /** A non-negative idx is counted up, in 16 bits. */
  function NextIdx(idx: Int16): Int16 {
    if idx < 0 then idx else if idx == 0x7FFF then -0x8000 else idx + 1
  }

  // ---------------------------------------------------------------- one find

  /** The node behind index k, if any, moves to index 1. */
  function MoveUp(nodes: seq<ListHead>, k: nat): (r: seq<ListHead>)
    requires k < |nodes|
    ensures |r| == |nodes|
  {
    if k + 1 == |nodes| then nodes
    else [nodes[0], nodes[k + 1]] + nodes[1..k + 1] + nodes[k + 2..]
  }

  lemma MoveUpPermutes(nodes: seq<ListHead>, k: nat)
    requires k < |nodes|
    ensures Permuted(MoveUp(nodes, k), nodes)
  {
    if k + 1 < |nodes| {
      var a, b, rest := nodes[0], nodes[k + 1], nodes[k + 2..];
      var middle := nodes[1..k + 1];
      assert nodes == [a] + middle + [b] + rest;
      assert MoveUp(nodes, k) == [a, b] + middle + rest;
      BehindHead(a, b, middle, rest);
    }
  }

  lemma BehindHead(a: ListHead, b: ListHead, middle: seq<ListHead>, rest: seq<ListHead>)
    ensures Permuted([a, b] + middle + rest, [a] + middle + [b] + rest)
  {
    assert multiset([a, b]) == multiset([a]) + multiset([b]);
    assert multiset([a, b] + middle + rest) == multiset([a, b]) + multiset(middle) + multiset(rest);
    assert multiset([a] + middle + [b] + rest) == multiset([a]) + multiset(middle) + multiset([b]) + multiset(rest);
  }

  /** Where a node may be found after MoveUp. */
  lemma MoveUpAt(nodes: seq<ListHead>, k: nat, i: nat)
    requires k + 1 < |nodes| && i < |nodes|
    ensures MoveUp(nodes, k)[i] == if i == 0 then nodes[0] else if i == 1 then nodes[k + 1]
            else if i <= k + 1 then nodes[i - 1] else nodes[i]
  {
  }

  /** Bring the node behind the found one to the front, just behind the head. */
  method CacheNext(list: ListHead, thisFind: ListHead, ghost nodes: seq<ListHead>, ghost k: nat)
    requires IsList(list, nodes) && k < |nodes| && thisFind == nodes[k]
    modifies nodes`next
    ensures IsList(list, MoveUp(nodes, k))
  {
    if thisFind.next != null {
      assert nodes[k].next == nodes[k + 1] && nodes[0].next == NodeAt(nodes, 1) &&
             nodes[k + 1].next == NodeAt(nodes, k + 2);
      var finder := thisFind.next;
      thisFind.next := finder.next;
      finder.next := list.next;
      list.next := finder;
      MovedUp(list, nodes, k);
    }
  }

  lemma MovedUp(list: ListHead, nodes: seq<ListHead>, k: nat)
    requires Distinct(nodes) && k + 1 < |nodes| && list == nodes[0]
    requires list.next == nodes[k + 1]
    requires nodes[k + 1].next == if k == 0 then NodeAt(nodes, 2) else nodes[1]
    requires k > 0 ==> nodes[k].next == NodeAt(nodes, k + 2)
    requires forall i {:trigger nodes[i].next} :: 1 <= i < |nodes| && i != k && i != k + 1 ==>
             nodes[i].next == NodeAt(nodes, i + 1)
    ensures IsList(list, MoveUp(nodes, k))
  {
    var r := MoveUp(nodes, k);
    forall i, j | 0 <= i < j < |r|
      ensures r[i] != r[j]
    {
      MoveUpAt(nodes, k, i);
      MoveUpAt(nodes, k, j);
    }
    forall i | 0 <= i < |r|
      ensures r[i].next == NodeAt(r, i + 1)
    {
      MoveUpAt(nodes, k, i);
      if i + 1 < |r| {
        MoveUpAt(nodes, k, i + 1);
      }
    }
  }

  // ---------------------------------------------------------------- all finds

  /** What the finds have done so far: the order of the nodes, the score, and the idx that is
      searched next. */
  datatype Findings = Findings(order: seq<ListHead>, retval: bv16, found: bv16, missed: bv16, idx: Int16)

  lemma InfosOfPermuted(a: seq<ListHead>, b: seq<ListHead>)
    requires Permuted(a, b)
    ensures |a| == |b| && Infos(a) == Infos(b) && forall i :: 0 <= i < |a| ==> a[i] in b
  {
    SameLength(a, b);
    forall n
      ensures n in a <==> n in b
    {
      assert n in multiset(a) <==> n in multiset(b);
    }
  }

  /** The order after a find: reversed, and a hit at index k brings its new successor to the
      front. */
  ghost function Reordered(nodes: seq<ListHead>, k: nat): (r: seq<ListHead>)
    requires k <= |nodes|
    ensures Permuted(r, nodes)
  {
    hide Permuted, MoveUp;
    ReversedPermutes(nodes);
    if k == |nodes| then Reversed(nodes)
    else
      MoveUpPermutes(Reversed(nodes), |nodes| - 1 - k);
      PermutedFurther(MoveUp(Reversed(nodes), |nodes| - 1 - k), Reversed(nodes), nodes);
      MoveUp(Reversed(nodes), |nodes| - 1 - k)
  }

  function MissScore(retval: bv16, data: bv16): bv16 {
    Plus(retval, Bit8(data))
  }

  function HitScore(retval: bv16, data: bv16): bv16 {
    if Odd16(data) then Plus(retval, Bit9(data)) else retval
  }

  /** Where the nodes are after a find: the old order backwards, but for the node in front of a hit
      at index k, which was behind it once reversed and is second now. */
  lemma ReorderedAt(nodes: seq<ListHead>, k: nat, i: nat)
    requires k <= |nodes| && i < |nodes|
    ensures |Reordered(nodes, k)| == |nodes|
    ensures Reordered(nodes, k)[i] ==
            if k == |nodes| || k == 0 || i == 0 then nodes[|nodes| - 1 - i]
            else if i == 1 then nodes[k - 1]
            else if i <= |nodes| - k then nodes[|nodes| - i]
            else nodes[|nodes| - 1 - i]
  {
    hide Permuted, Reversed, MoveUp;
    var n, r := |nodes|, Reversed(nodes);
    if 0 < k < n {
      MoveUpAt(r, n - 1 - k, i);
      assert r[n - k] == nodes[k - 1] && r[i] == nodes[n - 1 - i] && (i > 0 ==> r[i - 1] == nodes[n - i]);
    } else {
      NothingMoves(r);
    }
  }

  lemma NothingMoves(nodes: seq<ListHead>)
    ensures nodes != [] ==> MoveUp(nodes, |nodes| - 1) == nodes
  {
  }

  /** One find. A miss takes a bit of the item behind the new head for the score. */
  ghost function FindRound(s: Findings, data16: bv16): (r: Findings)
    requires |s.order| >= 2
    reads s.order`info, Infos(s.order)`data16, Infos(s.order)`idx
    ensures Permuted(r.order, s.order)
  {
    hide Permuted, MissScore, HitScore, Plus;
    var n := |s.order|;
    var k := FirstWanted(s.order, s.idx, data16);
    if k == n then
      Findings(Reordered(s.order, k), MissScore(s.retval, s.order[n - 2].info.data16), s.found, Plus(s.missed, 1),
          NextIdx(s.idx))
    else
      Findings(Reordered(s.order, k), HitScore(s.retval, s.order[k].info.data16), Plus(s.found, 1), s.missed,
          NextIdx(s.idx))
  }

  /** The first n finds. */
  ghost function FindRounds(s: Findings, n: nat): (r: Findings)
    requires |s.order| >= 2
    reads s.order`info, Infos(s.order)`data16, Infos(s.order)`idx
    ensures Permuted(r.order, s.order) && |r.order| == |s.order|
    decreases n
  {
    hide Permuted, FindRound;
    if n == 0 then SamePermutes(s.order); s
    else
      var t := FindRounds(s, n - 1);
      InfosOfPermuted(t.order, s.order);
      var r := FindRound(t, LowByteOf(n - 1));
      PermutedFurther(r.order, t.order, s.order);
      r
  }

  lemma SecondNode(list: ListHead?, nodes: seq<ListHead>)
    requires IsList(list, nodes) && |nodes| >= 2
    ensures list == nodes[0] && list.next == nodes[1]
  {
    assert nodes[0].next == NodeAt(nodes, 1);
  }

  /** The body of the loop over the finds. */
  method FindOnce(list0: ListHead, data16: bv16, retval0: bv16, found0: bv16, missed0: bv16, idx0: Int16,
                  ghost nodes: seq<ListHead>)
    returns (list: ListHead, retval: bv16, found: bv16, missed: bv16, idx: Int16, ghost order: seq<ListHead>)
    requires IsList(list0, nodes) && |nodes| >= 2
    modifies nodes`next
    ensures Findings(order, retval, found, missed, idx) ==
            FindRound(Findings(nodes, retval0, found0, missed0, idx0), data16)
    ensures IsList(list, order)
  {
    hide Plus, MissScore, HitScore, NextIdx, LowByteOf, FirstWanted, Permuted, IsList, Distinct, MoveUp;
    list, retval, found, missed, idx, order := list0, retval0, found0, missed0, idx0, Reversed(nodes);
    ghost var k := FirstWanted(nodes, idx, data16);
    ghost var s := Findings(nodes, retval0, found0, missed0, idx0);
    ghost var round := FindRound(s, data16);
    assert round == if k == |nodes| then
        Findings(Reordered(nodes, k), MissScore(retval0, nodes[|nodes| - 2].info.data16), found0, Plus(missed0, 1),
            NextIdx(idx0))
      else
        Findings(Reordered(nodes, k), HitScore(retval0, nodes[k].info.data16), Plus(found0, 1), missed0, NextIdx(idx0));
    hide FindRound;
    var thisFind := Find(list, idx, data16, nodes);
    var reversed := Reverse(list, nodes);
    SecondNode(reversed, order);
    list := reversed;
    if thisFind == null {
      missed := Plus(missed, 1);
      retval := MissScore(retval, list.next.info.data16);
    } else {
      found := Plus(found, 1);
      retval := HitScore(retval, thisFind.info.data16);
      assert order[|nodes| - 1 - k] == thisFind;
      CacheNext(list, thisFind, order, |nodes| - 1 - k);
      order := MoveUp(order, |nodes| - 1 - k);
    }
    idx := NextIdx(idx);
    assert round == FindRound(s, data16);
  }

  function Rounds(findNum: Int16): nat {
    if findNum < 0 then 0 else findNum as nat
  }

  /** The data that was searched last. */
  function LastData(rounds: nat): bv16 {
    if rounds == 0 then 0 else LowByteOf(rounds - 1)
  }

  lemma LastDataIs(rounds: nat)
    ensures LastData(rounds) == if rounds == 0 then 0 else Wrapped((rounds - 1) % 256)
  {
  }

  // ---------------------------------------------------------------- the score as a number

  lemma PlusStep(a: bv16, b: bv16)
    ensures Plus(a, b) == Plus(Plus(a, b - 1), 1)
  {
  }

  lemma MinusStep(a: bv16, b: bv16)
    ensures Minus(a, b) == Minus(Minus(a, b - 1), 1)
  {
  }

  lemma StepDown(b: bv16)
    ensures Minus(b, 1) == b - 1
  {
  }

  lemma Splits(a: bv16, b: bv16)
    ensures Plus(a, b) == Plus(Plus(a, Minus(b, 1)), 1)
    ensures Minus(a, b) == Minus(Minus(a, Minus(b, 1)), 1)
  {
    PlusStep(a, b);
    MinusStep(a, b);
    StepDown(b);
    hide Plus, Minus;
  }

  lemma UpAndDown(a: bv16)
    ensures Minus(Plus(a, 1), 1) == a
  {
  }

  lemma DownAndUp(a: bv16)
    ensures Plus(Minus(a, 1), 1) == a
  {
  }

  lemma ZeroIsNothing(a: bv16)
    ensures Plus(a, 0) == a && Minus(a, 0) == a
  {
  }

  lemma WrappedSteps(n: int)
    ensures Wrapped(0) == 0
    ensures n > 0 ==> Wrapped(n) == Plus(Wrapped(n - 1), 1)
    ensures n < 0 ==> Wrapped(n) == Minus(Wrapped(n + 1), 1)
  {
  }

  lemma WrappedNext(n: int)
    ensures Wrapped(n + 1) == Plus(Wrapped(n), 1) && Wrapped(n) == Minus(Wrapped(n + 1), 1)
  {
    hide Plus, Minus, Wrapped;
    WrappedSteps(n);
    WrappedSteps(n + 1);
    UpAndDown(Wrapped(n));
    DownAndUp(Wrapped(n + 1));
  }

  /** Sums of numbers are sums of their 16-bit values. */
  lemma {:induction false} WrappedSum(a: int, b: int)
    ensures Wrapped(a + b) == Plus(Wrapped(a), Wrapped(b))
    decreases if b < 0 then -b else b
  {
    hide Plus, Minus, Wrapped;
    WrappedSteps(b);
    ZeroIsNothing(Wrapped(a));
    if b > 0 {
      WrappedSum(a, b - 1);
      WrappedNext(a + b - 1);
      UpAndDown(Wrapped(b - 1));
      Splits(Wrapped(a), Wrapped(b));
    } else if b < 0 {
      WrappedSum(a, b + 1);
      WrappedNext(a + b);
      Splits(Wrapped(a), Wrapped(b + 1));
      UpAndDown(Plus(Wrapped(a), Wrapped(b)));
    }
  }

  /** So are differences. */
  lemma {:induction false} WrappedDifference(a: int, b: nat)
    ensures Wrapped(a - b) == Minus(Wrapped(a), Wrapped(b))
  {
    hide Plus, Minus, Wrapped;
    WrappedSteps(b);
    ZeroIsNothing(Wrapped(a));
    if b > 0 {
      WrappedDifference(a, b - 1);
      WrappedNext(a - b);
      UpAndDown(Wrapped(b - 1));
      Splits(Wrapped(a), Wrapped(b));
    }
  }

  lemma OneDown(x: bv16)
    requires x != 0
    ensures Minus(x, 1) < x
  {
  }

  /** Every value is that of a number. */
  lemma {:induction false} NumberOf(x: bv16) returns (n: nat)
    ensures Wrapped(n) == x
    decreases x
  {
    hide Plus, Minus, Wrapped;
    if x == 0 {
      n := 0;
      WrappedSteps(0);
    } else {
      OneDown(x);
      var m := NumberOf(Minus(x, 1));
      n := m + 1;
      WrappedNext(m);
      DownAndUp(x);
    }
  }

  lemma FourTimes(found: bv16)
    ensures found * 4 == Plus(Plus(found, found), Plus(found, found))
  {
  }

  /** The score as a number. */
  lemma ScoreOf(r: nat, f: nat, m: nat)
    ensures Score(Wrapped(r), Wrapped(f), Wrapped(m)) == Wrapped(r + 4 * f - m)
  {
    FourTimes(Wrapped(f));
    WrappedSum(f, f);
    WrappedSum(f + f, f + f);
    WrappedSum(r, 4 * f);
    WrappedDifference(r + 4 * f, m);
    hide Plus, Minus, Wrapped;
  }

  /** Some item has this idx, or, when that is negative, this low byte. */
  ghost predicate Occurs(nodes: seq<ListHead>, idx: Int16, byte: bv16)
    reads nodes`info, Infos(nodes)`data16, Infos(nodes)`idx
  {
    exists n :: n in nodes && if idx >= 0 then n.info.idx == idx else n.info.data16 & 0xFF == byte
  }

  /** The idx that is searched after so many finds: it counts up, and once it has wrapped around it stays. */
  function IdxAfter(finderIdx: Int16, n: nat): Int16 {
    if finderIdx < 0 then finderIdx
    else if finderIdx as int + n <= 0x7FFF then (finderIdx as int + n) as Int16
    else -0x8000
  }

  function OneIf(c: bool): nat {
    if c then 1 else 0
  }

  /** What find number i is worth: 4 for a hit, and 1 more when the item found is odd with bit 9 set; -1 for
      a miss, and 1 more when bit 8 is set in the item behind the new head, the last but one before. */
  ghost function Worth(nodes: seq<ListHead>, finderIdx: Int16, i: nat): int
    requires |nodes| >= 2
    reads nodes`info, Infos(nodes)`data16, Infos(nodes)`idx
  {
    hide Permuted, FindRound;
    var before := FindRounds(Findings(nodes, 0, 0, 0, finderIdx), i).order;
    InfosOfPermuted(before, nodes);
    var idx := IdxAfter(finderIdx, i);
    if Occurs(nodes, idx, Wrapped(i % 256)) then
      var k := FirstWanted(before, idx, Wrapped(i % 256));
      4 + if k < |before| then OneIf(before[k].info.data16 & 1 != 0 && before[k].info.data16 & 0x200 != 0) else 0
    else -1 + OneIf(before[|before| - 2].info.data16 & 0x100 != 0)
  }

  /** What the first n finds are worth. */
  ghost function Points(nodes: seq<ListHead>, finderIdx: Int16, n: nat): int
    requires |nodes| >= 2
    reads nodes`info, Infos(nodes)`data16, Infos(nodes)`idx
  {
    if n == 0 then 0 else Points(nodes, finderIdx, n - 1) + Worth(nodes, finderIdx, n - 1)
  }

  lemma IdxAdvances(finderIdx: Int16, n: nat)
    ensures NextIdx(IdxAfter(finderIdx, n)) == IdxAfter(finderIdx, n + 1)
  {
  }

  lemma OccursIs(nodes: seq<ListHead>, order: seq<ListHead>, idx: Int16, byte: bv16)
    requires Permuted(order, nodes)
    ensures FirstWanted(order, idx, byte) < |order| <==> Occurs(nodes, idx, byte)
  {
    hide Permuted;
    InfosOfPermuted(order, nodes);
    PermutedMembers(order, nodes);
    var k := FirstWanted(order, idx, byte);
    FirstWantedIs(order, idx, byte, k);
    if k < |order| {
      assert order[k] in nodes;
    } else {
      forall n | n in nodes
        ensures !Wanted(n.info, idx, byte)
      {
        var i :| 0 <= i < |order| && order[i] == n;
      }
    }
  }

  lemma HitScoreIs(retval: bv16, data: bv16)
    ensures HitScore(retval, data) == if data & 1 != 0 && data & 0x200 != 0 then Plus(retval, 1) else retval
  {
  }

  lemma MissScoreIs(retval: bv16, data: bv16)
    ensures MissScore(retval, data) == if data & 0x100 != 0 then Plus(retval, 1) else retval
  {
  }

  lemma HitIs(retval: bv16, found: bv16, missed: bv16, data: bv16)
    ensures Score(HitScore(retval, data), Plus(found, 1), missed) ==
            Plus(Score(retval, found, missed), Wrapped(4 + OneIf(data & 1 != 0 && data & 0x200 != 0)))
  {
    HitScoreIs(retval, data);
    hide Score, HitScore, Plus, Minus, Wrapped;
    var r: nat := NumberOf(retval);
    var f: nat := NumberOf(found);
    var m: nat := NumberOf(missed);
    var more := OneIf(data & 1 != 0 && data & 0x200 != 0);
    WrappedNext(r);
    WrappedNext(f);
    ScoreOf(r, f, m);
    ScoreOf(r + more, f + 1, m);
    WrappedSum(r + 4 * f - m, 4 + more);
  }

  lemma MissIs(retval: bv16, found: bv16, missed: bv16, data: bv16)
    ensures Score(MissScore(retval, data), found, Plus(missed, 1)) ==
            Plus(Score(retval, found, missed), Wrapped(-1 + OneIf(data & 0x100 != 0)))
  {
    MissScoreIs(retval, data);
    hide Score, MissScore, Plus, Minus, Wrapped;
    var r: nat := NumberOf(retval);
    var f: nat := NumberOf(found);
    var m: nat := NumberOf(missed);
    var more: int := OneIf(data & 0x100 != 0);
    WrappedNext(r);
    WrappedNext(m);
    ScoreOf(r, f, m);
    ScoreOf(r + OneIf(data & 0x100 != 0), f, m + 1);
    WrappedSum(r + 4 * f - m, -1 + more);
  }

  /** The score is the 16-bit value of what the finds are worth. */
  lemma {:induction false} ScoreIs(nodes: seq<ListHead>, finderIdx: Int16, n: nat)
    requires |nodes| >= 2
    ensures var s := FindRounds(Findings(nodes, 0, 0, 0, finderIdx), n);
            && s.idx == IdxAfter(finderIdx, n)
            && Score(s.retval, s.found, s.missed) == Wrapped(Points(nodes, finderIdx, n))
  {
    hide Permuted, Score, HitScore, MissScore, Plus, Wrapped, FirstWanted, Occurs, Reordered, NextIdx, IdxAfter;
    if n == 0 {
      NothingScored(finderIdx);
    } else {
      ScoreIs(nodes, finderIdx, n - 1);
      var s := FindRounds(Findings(nodes, 0, 0, 0, finderIdx), n - 1);
      OneRound(nodes, finderIdx, n - 1, s);
      WrappedSum(Points(nodes, finderIdx, n - 1), Worth(nodes, finderIdx, n - 1));
      hide FindRound, Worth;
      assert FindRounds(Findings(nodes, 0, 0, 0, finderIdx), n) == FindRound(s, LowByteOf(n - 1));
    }
  }

  lemma NothingScored(finderIdx: Int16)
    ensures Score(0, 0, 0) == Wrapped(0) && IdxAfter(finderIdx, 0) == finderIdx
  {
    ScoreOf(0, 0, 0);
  }

  lemma OneRound(nodes: seq<ListHead>, finderIdx: Int16, i: nat, s: Findings)
    requires |nodes| >= 2 && s == FindRounds(Findings(nodes, 0, 0, 0, finderIdx), i) && s.idx == IdxAfter(finderIdx, i)
    ensures Permuted(s.order, nodes) && |s.order| == |nodes|
    ensures var r := FindRound(s, LowByteOf(i));
            && r.idx == IdxAfter(finderIdx, i + 1)
            && Score(r.retval, r.found, r.missed) ==
               Plus(Score(s.retval, s.found, s.missed), Wrapped(Worth(nodes, finderIdx, i)))
  {
    hide Permuted, Score, HitScore, MissScore, Plus, Wrapped, FirstWanted, Occurs, Reordered, NextIdx, IdxAfter,
         FindRounds;
    IdxAdvances(finderIdx, i);
    InfosOfPermuted(s.order, nodes);
    OccursIs(nodes, s.order, s.idx, LowByteOf(i));
    var k := FirstWanted(s.order, s.idx, LowByteOf(i));
    if k < |s.order| {
      HitIs(s.retval, s.found, s.missed, s.order[k].info.data16);
    } else {
      MissIs(s.retval, s.found, s.missed, s.order[|s.order| - 2].info.data16);
    }
  }

  method FindPhase(list0: ListHead, findNum: Int16, finderIdx: Int16, ghost nodes: seq<ListHead>)
    returns (list: ListHead, score: bv16, idx: Int16, data16: bv16, ghost order: seq<ListHead>)
    requires IsList(list0, nodes) && |nodes| >= 2
    modifies nodes`next
    ensures IsList(list, order) && Permuted(order, nodes) && |order| == |nodes|
    ensures var n := if findNum > 0 then findNum as nat else 0;
            && order == FindRounds(Findings(nodes, 0, 0, 0, finderIdx), n).order
            && score == Wrapped(Points(nodes, finderIdx, n)) && idx == IdxAfter(finderIdx, n)
            && data16 == if n == 0 then 0 else Wrapped((n - 1) % 256)
  {
    hide Plus, Bit8, Bit9, NextIdx, LowByteOf, FirstWanted, Odd16, Permuted, Score, FindRound, Points, Wrapped,
         IdxAfter;
    ghost var start := Findings(nodes, 0, 0, 0, finderIdx);
    var i := 0;
    var retval: bv16, found: bv16, missed: bv16 := 0, 0, 0;
    list, idx, data16, order := list0, finderIdx, 0, nodes;
    while i < findNum as int
      invariant 0 <= i <= Rounds(findNum) && data16 == LastData(i)
      invariant IsList(list, order)
      invariant Findings(order, retval, found, missed, idx) == FindRounds(start, i)
    {
      assert |order| == |nodes| && forall k :: 0 <= k < |order| ==> order[k] in nodes by {
        InfosOfPermuted(FindRounds(start, i).order, nodes);
      }
      data16 := LowByteOf(i);
      ghost var soFar := FindRounds(start, i);
      label before:
      list, retval, found, missed, idx, order := FindOnce(list, data16, retval, found, missed, idx, order);
      assert Infos(nodes) == old@before(Infos(nodes));
      assert soFar == FindRounds(start, i);
      i := i + 1;
    }
    score := Score(retval, found, missed);
    ScoreIs(nodes, finderIdx, i);
    LastDataIs(i);
  }

  // ---------------------------------------------------------------- remove and put back

  function WithoutThird(nodes: seq<ListHead>): (r: seq<ListHead>)
    requires |nodes| >= 3
    ensures |r| == |nodes| - 1
  {
    nodes[..2] + nodes[3..]
  }

  lemma WithoutThirdAt(nodes: seq<ListHead>, i: nat)
    requires |nodes| >= 3 && i < |nodes| - 1
    ensures WithoutThird(nodes)[i] == if i < 2 then nodes[i] else nodes[i + 1]
  {
  }

  /** The items in the order of their nodes. */
  ghost function Items(nodes: seq<ListHead>): (items: seq<ListData>)
    reads nodes`info
    ensures |items| == |nodes| && forall i :: 0 <= i < |nodes| ==> items[i] == nodes[i].info
    decreases |nodes|
  {
    if nodes == [] then [] else [nodes[0].info] + Items(nodes[1..])
  }

  lemma ItemsAre(nodes: seq<ListHead>, items: seq<ListData>)
    requires |items| == |nodes| && forall i :: 0 <= i < |nodes| ==> nodes[i].info == items[i]
    ensures Items(nodes) == items
  {
  }

  /** Without the second item. */
  function Spared(items: seq<ListData>): seq<ListData>
    requires |items| >= 3
  {
    [items[0]] + items[2..]
  }

  /** Remove the item behind the head of the list. */
  method RemoveSecond(list: ListHead, ghost nodes: seq<ListHead>) returns (remover: ListHead)
    requires IsList(list, nodes) && |nodes| >= 3
    modifies {nodes[1], nodes[2]}`next, {nodes[1], nodes[2]}`info
    ensures remover == nodes[2] && IsList(list, WithoutThird(nodes))
    ensures Items(WithoutThird(nodes)) == old(Spared(Items(nodes))) && remover.info == old(Items(nodes)[1])
  {
    ghost var items := Items(nodes);
    assert nodes[0].next == nodes[1] && nodes[1].next == nodes[2] && nodes[2].next == NodeAt(nodes, 3);
    remover := Remove(list.next);
    ThirdIsOut(list, nodes);
    forall i | 0 <= i < |nodes| - 1
      ensures WithoutThird(nodes)[i].info == Spared(items)[i]
    {
      WithoutThirdAt(nodes, i);
    }
    ItemsAre(WithoutThird(nodes), Spared(items));
  }

  lemma ThirdIsOut(list: ListHead, nodes: seq<ListHead>)
    requires |nodes| >= 3 && Distinct(nodes) && list == nodes[0] && list.next == nodes[1] &&
             nodes[1].next == NodeAt(nodes, 3)
    requires forall i {:trigger nodes[i].next} :: 3 <= i < |nodes| ==> nodes[i].next == NodeAt(nodes, i + 1)
    ensures IsList(list, WithoutThird(nodes))
  {
    var r := WithoutThird(nodes);
    forall i, j | 0 <= i < j < |r|
      ensures r[i] != r[j]
    {
      WithoutThirdAt(nodes, i);
      WithoutThirdAt(nodes, j);
    }
    forall i | 0 <= i < |r|
      ensures r[i].next == NodeAt(r, i + 1)
    {
      WithoutThirdAt(nodes, i);
      if i + 1 < |r| {
        WithoutThirdAt(nodes, i + 1);
      }
    }
  }

  /** Undo that. */
  method RestoreSecond(list: ListHead, remover: ListHead, ghost nodes: seq<ListHead>, ghost items: seq<ListData>)
    requires |nodes| >= 3 && Distinct(nodes) && IsList(list, WithoutThird(nodes)) && remover == nodes[2]
    requires |items| == |nodes| && Items(WithoutThird(nodes)) == Spared(items) && remover.info == items[1]
    modifies {nodes[1], nodes[2]}`next, {nodes[1], nodes[2]}`info
    ensures IsList(list, nodes) && Items(nodes) == items
  {
    ghost var r := WithoutThird(nodes);
    assert r[0] == nodes[0] && r[1] == nodes[1] && r[0].next == r[1] && r[1].next == NodeAt(r, 2) == NodeAt(nodes, 3);
    forall i | 3 <= i < |nodes|
      ensures nodes[i].next == NodeAt(nodes, i + 1)
    {
      assert nodes[i] == r[i - 1] && r[i - 1].next == NodeAt(r, i) == NodeAt(nodes, i + 1);
    }
    forall i | 0 <= i < |nodes| && i != 1 && i != 2
      ensures nodes[i].info == items[i]
    {
      var j := if i == 0 then 0 else i - 1;
      assert nodes[i] == r[j] && Items(r)[j] == Spared(items)[j] == items[i];
    }
    assert Items(r)[1] == items[2];
    var put := UndoRemove(remover, list.next);
    ItemsAre(nodes, items);
  }

  // ---------------------------------------------------------------- the checksum

  /** Feed the same value into the CRC so many times. */
  function RepeatCrc(value: bv16, times: nat, crc: bv16): bv16
    decreases times
  {
    if times == 0 then crc else RepeatCrc(value, times - 1, MessageCrc(WordBytes(value), crc))
  }

  function Repeated(bytes: seq<bv8>, times: nat): seq<bv8> {
    if times == 0 then [] else bytes + Repeated(bytes, times - 1)
  }

  /** It is the CRC of the message that repeats its two bytes, low byte first. */
  lemma {:induction false} RepeatIs(value: bv16, times: nat, crc: bv16)
    ensures RepeatCrc(value, times, crc) ==
            MessageCrc(Repeated([(value & 0xFF) as bv8, ((value >> 8) & 0xFF) as bv8], times), crc)
    decreases times
  {
    WordBytesAre(value);
    hide MessageCrc, WordBytes;
    var bytes := WordBytes(value);
    if times == 0 {
      NothingFed(crc);
    } else {
      RepeatIs(value, times - 1, MessageCrc(bytes, crc));
      MessageCrcSplits(bytes, Repeated(bytes, times - 1), crc);
    }
  }

  lemma NothingFed(crc: bv16)
    ensures MessageCrc([], crc) == crc
  {
  }

  /** The loop over the nodes from a finder on feeds the first item of the list each time. */
  method CrcFrom(list: ListHead, start: ListHead?, seed: bv16, ghost nodes: seq<ListHead>, ghost k: nat)
    returns (retval: bv16)
    requires IsList(list, nodes) && k <= |nodes| && start == NodeAt(nodes, k)
    ensures retval == RepeatCrc(list.info.data16, |nodes| - k, seed)
  {
    hide MessageCrc, WordBytes;
    var finder := start;
    retval := seed;
    ghost var i := k;
    while finder != null
      invariant k <= i <= |nodes| && finder == NodeAt(nodes, i)
      invariant RepeatCrc(list.info.data16, |nodes| - i, retval) == RepeatCrc(list.info.data16, |nodes| - k, seed)
      decreases |nodes| - i
    {
      retval := Crc16(list.info.data16, retval);
      finder := finder.next;
      i := i + 1;
    }
  }

  // ---------------------------------------------------------------- back to the original order

  ghost predicate Increasing(nodes: seq<ListHead>)
    reads nodes`info, Infos(nodes)`idx
  {
    forall i, j :: 0 <= i < j < |nodes| ==> nodes[i].info.idx < nodes[j].info.idx
  }

  lemma LeastIsFirst(nodes: seq<ListHead>, sorted: seq<ListHead>)
    requires Increasing(nodes) && SortedBy(ByIdx, sorted) && Permuted(sorted, nodes) && nodes != [] && sorted != []
    ensures sorted[0] == nodes[0]
  {
    assert nodes[0] in multiset(nodes) && nodes[0] in multiset(sorted);
    assert sorted[0] in multiset(sorted) && sorted[0] in multiset(nodes);
    var a :| 0 <= a < |sorted| && sorted[a] == nodes[0];
    var b :| 0 <= b < |nodes| && nodes[b] == sorted[0];
    assert a > 0 ==> KeyOf(ByIdx, sorted[0].info) <= KeyOf(ByIdx, sorted[a].info);
  }

  lemma TailsPermuted(a: seq<ListHead>, b: seq<ListHead>)
    requires Permuted(a, b) && a != [] && b != [] && a[0] == b[0]
    ensures Permuted(a[1..], b[1..])
  {
    assert a == [a[0]] + a[1..] && b == [b[0]] + b[1..];
    assert multiset(a[1..]) == multiset(a) - multiset{a[0]};
    assert multiset(b[1..]) == multiset(b) - multiset{a[0]};
  }

  lemma TailIncreases(nodes: seq<ListHead>)
    requires Increasing(nodes) && nodes != []
    ensures Increasing(nodes[1..])
  {
  }

  lemma TailSorted(nodes: seq<ListHead>)
    requires SortedBy(ByIdx, nodes) && nodes != []
    ensures SortedBy(ByIdx, nodes[1..])
  {
  }

  /** There is one way only to sort nodes with distinct idx. */
  lemma {:induction false} SortedIsUnique(nodes: seq<ListHead>, sorted: seq<ListHead>)
    requires Increasing(nodes) && SortedBy(ByIdx, sorted) && Permuted(sorted, nodes)
    ensures sorted == nodes
    decreases |nodes|
  {
    hide Increasing, SortedBy, Permuted;
    SameLength(sorted, nodes);
    if nodes != [] {
      LeastIsFirst(nodes, sorted);
      TailsPermuted(sorted, nodes);
      TailIncreases(nodes);
      TailSorted(sorted);
      SortedIsUnique(nodes[1..], sorted[1..]);
      assert nodes == [nodes[0]] + nodes[1..] && sorted == [sorted[0]] + sorted[1..];
    }
  }

  // ---------------------------------------------------------------- the benchmark

  /** The nodes whose items stay in the list while one is removed. */
  function Survivors(nodes: seq<ListHead>): seq<ListHead>
    requires |nodes| >= 3
  {
    [nodes[0]] + nodes[2..]
  }

  lemma FirstOfItems(nodes: seq<ListHead>, items: seq<ListData>, idx: Int16, data16: bv16, k: nat)
    requires items == Items(nodes) && k <= |items|
    ensures FirstWanted(nodes, idx, data16) == k <==>
            (k < |items| ==> Wanted(items[k], idx, data16)) && forall i :: 0 <= i < k ==> !Wanted(items[i], idx, data16)
  {
    hide Wanted;
    FirstWantedIs(nodes, idx, data16, k);
  }

  lemma SurvivorAt(nodes: seq<ListHead>, i: nat)
    requires |nodes| >= 3 && i < |nodes| - 1
    ensures |Survivors(nodes)| == |nodes| - 1
    ensures Survivors(nodes)[i] == if i == 0 then nodes[0] else nodes[i + 1]
  {
  }

  lemma SparedAt(items: seq<ListData>, i: nat)
    requires |items| >= 3 && i < |items| - 1
    ensures |Spared(items)| == |items| - 1
    ensures Spared(items)[i] == if i == 0 then items[0] else items[i + 1]
  {
  }

  lemma SurvivorsAreSpared(nodes: seq<ListHead>)
    requires |nodes| >= 3
    ensures Items(Survivors(nodes)) == Spared(Items(nodes))
  {
    hide Items, Survivors, Spared;
    SurvivorAt(nodes, 0);
    SparedAt(Items(nodes), 0);
    forall i | 0 <= i < |nodes| - 1
      ensures Survivors(nodes)[i].info == Spared(Items(nodes))[i]
    {
      SurvivorAt(nodes, i);
      SparedAt(Items(nodes), i);
    }
    ItemsAre(Survivors(nodes), Spared(Items(nodes)));
  }

  /** How often the checksum loop runs: from the first wanted item on, or else from the item
      behind the head. */
  ghost function SumLength(nodes: seq<ListHead>, idx: Int16, data16: bv16): nat
    requires |nodes| >= 3
    reads nodes`info, Infos(nodes)`data16, Infos(nodes)`idx
  {
    var n := |nodes| - 1;
    var k := FirstWanted(Survivors(nodes), idx, data16);
    if k < n then n - k else n - 1
  }

  method SumUp(list: ListHead, idx: Int16, data16: bv16, score: bv16, ghost nodes: seq<ListHead>) returns (retval: bv16)
    requires IsList(list, nodes)
    ensures var k := FirstWanted(nodes, idx, data16);
            |nodes| >= 1 && retval == RepeatCrc(list.info.data16, if k < |nodes| then |nodes| - k
                else |nodes| - 1, score)
  {
    hide Wanted, FirstWanted, RepeatCrc, IsList;
    HeadOf(list, nodes);
    var finder := Find(list, idx, data16, nodes);
    ghost var from := FirstWanted(nodes, idx, data16);
    if finder == null {
      finder := list.next;
      from := 1;
    }
    retval := CrcFrom(list, finder, score, nodes, from);
  }

  /** Remove an item, sum up the list from the wanted item on, and put the item back. */
  method RemovalPhase(list: ListHead, idx: Int16, data16: bv16, score: bv16, ghost nodes: seq<ListHead>)
    returns (retval: bv16)
    requires IsList(list, nodes) && |nodes| >= 3
    modifies nodes`next, nodes`info
    ensures IsList(list, nodes) && Items(nodes) == old(Items(nodes))
    ensures retval == RepeatCrc(nodes[0].info.data16, SumLength(nodes, idx, data16), score)
    ensures retval == old(RepeatCrc(nodes[0].info.data16, SumLength(nodes, idx, data16), score))
  {
    hide Wanted, FirstWanted, RepeatCrc, IsList, Items, Distinct, NodeAt, WithoutThird, Spared;
    ghost var items := Items(nodes);
    ghost var left := WithoutThird(nodes);
    HeadOf(list, nodes);
    SurvivorsAreSpared(nodes);
    FirstOfItems(Survivors(nodes), Spared(items), idx, data16, FirstWanted(Survivors(nodes), idx, data16));
    var remover := RemoveSecond(list, nodes);
    ghost var k := FirstWanted(left, idx, data16);
    FirstOfItems(left, Spared(items), idx, data16, k);
    retval := SumUp(list, idx, data16, score, left);
    RestoreSecond(list, remover, nodes, items);
    SurvivorsAreSpared(nodes);
    FirstOfItems(Survivors(nodes), Spared(items), idx, data16, k);
  }

  lemma HeadOf(list: ListHead, nodes: seq<ListHead>)
    requires IsList(list, nodes)
    ensures nodes != [] && list == nodes[0] && list.next == NodeAt(nodes, 1) && Distinct(nodes)
  {
  }

  /** Sort by value if asked to, then remove an item, sum up and put it back. */
  method ContentPhase(list0: ListHead, res: CoreResults, finderIdx: Int16, idx: Int16, data16: bv16, score: bv16,
                      ghost order: seq<ListHead>)
    returns (list: ListHead, retval: bv16, ghost mid: seq<ListHead>)
    requires IsList(list0, order) && |order| >= 3
    modifies order`next, order`info, Infos(order)`data16, res`crc, res`crcstate, res`crcmatrix
    ensures IsList(list, mid) && Permuted(mid, order) && |mid| == |order|
    ensures if finderIdx > 0 then SortedBy(ByValue, mid) && Stable(ByValue, order, mid) else mid == order
    ensures finderIdx > 0 ==>
            forall d :: d in old(Infos(order)) ==> Cached(d.data16) && Kept(ByValue, old(d.data16), d.data16)
    ensures retval == RepeatCrc(mid[0].info.data16, SumLength(mid, idx, data16), score)
    ensures finderIdx <= 0 ==> retval == old(RepeatCrc(order[0].info.data16, SumLength(order, idx, data16), score))
    ensures forall n :: n in order ==> n.info == old(n.info)
    ensures forall d :: d in Infos(order) ==> Upper(d.data16) == old(Upper(d.data16))
    ensures finderIdx <= 0 ==> forall d :: d in Infos(order) ==> d.data16 == old(d.data16)
  {
    hide Upper, Cached, Plain, Value, SortedBy, Stable, Permuted, IsList, Items, SumLength, RepeatCrc;
    list, mid := list0, order;
    if finderIdx > 0 {
      ghost var comparisons;
      list, mid, comparisons := MergeSort(list, ByValue, res, order);
    } else {
      SamePermutes(order);
    }
    InfosOfPermuted(mid, order);
    retval := RemovalPhase(list, idx, data16, score, mid);
  }

  /** The last phase: sort by idx, which also rebuilds the lower bytes, and sum up. */
  method IndexPhase(list0: ListHead, score: bv16, ghost mid: seq<ListHead>, ghost nodes: seq<ListHead>)
    returns (list: ListHead, retval: bv16, ghost sorted: seq<ListHead>)
    requires IsList(list0, mid) && |mid| >= 3 && Permuted(mid, nodes)
    modifies mid`next, Infos(mid)`data16
    ensures IsList(list, sorted) && Permuted(sorted, nodes) && |sorted| == |nodes|
    ensures SortedBy(ByIdx, sorted) && Stable(ByIdx, mid, sorted)
    ensures forall n :: n in nodes ==> Regen(n.info.data16) == n.info.data16
    ensures forall n :: n in nodes ==> Upper(n.info.data16) == old(Upper(n.info.data16))
    ensures retval == RepeatCrc(sorted[0].info.data16, |nodes| - 1, score)
  {
    hide Upper, Regen, SortedBy, Stable, Permuted, IsList, RepeatCrc, Increasing, Distinct;
    ghost var comparisons;
    list, sorted, comparisons := MergeSort(list0, ByIdx, null, mid);
    PermutedFurther(sorted, mid, nodes);
    SameLength(sorted, nodes);
    HeadOf(list, sorted);
    PermutedMembers(mid, nodes);
    retval := CrcFrom(list, list.next, score, sorted, 1);
  }

  lemma PermutedMembers(a: seq<ListHead>, b: seq<ListHead>)
    requires Permuted(a, b)
    ensures forall n :: n in b ==> n in a
  {
    forall n | n in b
      ensures n in a
    {
      assert n in multiset(b) && n in multiset(a);
    }
  }

  /** What the finds come to. */
  ghost function Searched(nodes: seq<ListHead>, findNum: Int16, finderIdx: Int16): (s: Findings)
    requires |nodes| >= 3
    reads nodes`info, Infos(nodes)`data16, Infos(nodes)`idx
    ensures Permuted(s.order, nodes) && |s.order| == |nodes|
  {
    FindRounds(Findings(nodes, 0, 0, 0, finderIdx), Rounds(findNum))
  }

  /** The order that the finds leave. */
  ghost function SearchOrder(nodes: seq<ListHead>, findNum: Int16, finderIdx: Int16): seq<ListHead>
    requires |nodes| >= 3
    reads nodes`info, Infos(nodes)`data16, Infos(nodes)`idx
  {
    Searched(nodes, findNum, finderIdx).order
  }

  /** What the item of a node holds. */
  datatype Entry = Entry(data: bv16, idx: Int16)

  type Entries = map<ListHead, Entry>

  ghost function EntriesOf(nodes: seq<ListHead>): Entries
    reads nodes`info, Infos(nodes)`data16, Infos(nodes)`idx
  {
    map n | n in nodes :: Entry(n.info.data16, n.info.idx)
  }

  function EntryIn(entries: Entries, n: ListHead): Entry {
    if n in entries then entries[n] else Entry(0, 0)
  }

  function ValueIn(entries: Entries, n: ListHead): int {
    Value(EntryIn(entries, n).data)
  }

  /** mid is the stable sort of the order by these values. */
  ghost predicate Ordered(entries: Entries, order: seq<ListHead>, mid: seq<ListHead>) {
    && (forall x, y :: 0 <= x < y < |mid| ==> ValueIn(entries, mid[x]) <= ValueIn(entries, mid[y]))
    && (forall a, b, x, y ::
          0 <= a < b < |order| && 0 <= x < |mid| && 0 <= y < |mid| && order[a] == mid[x] && order[b] == mid[y]
          && ValueIn(entries, order[a]) == ValueIn(entries, order[b])
          ==> x < y)
  }

  /** What comes between the finds and the sort by idx: the order found as it is, or sorted by
      values that are cached then and are the old ones where no kernel was needed. */
  ghost predicate Shuffled(finderIdx: Int16, order: seq<ListHead>, was: Entries, mid: seq<ListHead>, now: Entries) {
    if finderIdx <= 0 then mid == order && now == was
    else now.Keys == was.Keys && Ordered(now, order, mid) && forall n :: n in was ==> ValueKept(was[n], now[n])
  }

  predicate ValueKept(was: Entry, now: Entry) {
    now.idx == was.idx && Cached(now.data) && Kept(ByValue, was.data, now.data)
  }

  predicate WantedEntry(e: Entry, idx: Int16, data16: bv16) {
    if idx >= 0 then e.idx == idx else e.data & 0xFF == data16
  }

  ghost function FirstIn(nodes: seq<ListHead>, entries: Entries, idx: Int16, data16: bv16): (k: nat)
    ensures k <= |nodes|
    decreases |nodes|
  {
    if nodes == [] || WantedEntry(EntryIn(entries, nodes[0]), idx, data16) then 0
    else 1 + FirstIn(nodes[1..], entries, idx, data16)
  }

  /** The sum in front of the sort by idx: the first item of mid, fed into the score from the item
      that the last search was for on, or else from the second one. */
  ghost function SumOf(score: bv16, idx: Int16, data16: bv16, mid: seq<ListHead>, entries: Entries): bv16
    requires |mid| >= 3
  {
    var n := |mid| - 1;
    var k := FirstIn(Survivors(mid), entries, idx, data16);
    RepeatCrc(EntryIn(entries, mid[0]).data, if k < n then n - k else n - 1, score)
  }

  /** The entries are what the items of these nodes hold. */
  ghost predicate Agree(nodes: seq<ListHead>, entries: Entries)
    reads nodes`info, Infos(nodes)`data16, Infos(nodes)`idx
  {
    forall n :: n in nodes ==> EntryIn(entries, n) == Entry(n.info.data16, n.info.idx)
  }

  lemma AgreeHead(nodes: seq<ListHead>, entries: Entries, idx: Int16, data16: bv16)
    requires Agree(nodes, entries) && nodes != []
    ensures Agree(nodes[1..], entries)
    ensures WantedEntry(EntryIn(entries, nodes[0]), idx, data16) == Wanted(nodes[0].info, idx, data16)
  {
    hide EntryIn;
  }

  lemma {:induction false} FirstInIs(nodes: seq<ListHead>, entries: Entries, idx: Int16, data16: bv16)
    requires Agree(nodes, entries)
    ensures FirstIn(nodes, entries, idx, data16) == FirstWanted(nodes, idx, data16)
    decreases |nodes|
  {
    hide EntryIn, Agree, WantedEntry, Wanted;
    if nodes != [] {
      AgreeHead(nodes, entries, idx, data16);
      FirstInIs(nodes[1..], entries, idx, data16);
    }
  }

  lemma SumIs(score: bv16, idx: Int16, data16: bv16, mid: seq<ListHead>, entries: Entries)
    requires |mid| >= 3 && Agree(mid, entries)
    ensures SumOf(score, idx, data16, mid, entries) ==
            RepeatCrc(mid[0].info.data16, SumLength(mid, idx, data16), score)
  {
    hide FirstIn, FirstWanted, RepeatCrc, EntryIn;
    FirstInIs(Survivors(mid), entries, idx, data16);
  }

  lemma {:induction false} FirstInAt(nodes: seq<ListHead>, entries: Entries, idx: Int16, data16: bv16, k: nat)
    requires k <= |nodes| && forall n :: n in nodes ==> n in entries
    requires forall i :: 0 <= i < k ==>
              var e := entries[nodes[i]]; !if idx >= 0 then e.idx == idx else e.data & 0xFF == data16
    requires k < |nodes| ==> var e := entries[nodes[k]]; if idx >= 0 then e.idx == idx else e.data & 0xFF == data16
    ensures FirstIn(nodes, entries, idx, data16) == k
    decreases |nodes|
  {
    if k > 0 {
      assert !WantedEntry(EntryIn(entries, nodes[0]), idx, data16);
      FirstInAt(nodes[1..], entries, idx, data16, k - 1);
    }
  }

  /** The sum is the CRC of the first item, repeated for each item from the first match on among
      those left, all but the second, or for all but the first of them when none matches. */
  lemma SumMeans(score: bv16, idx: Int16, data16: bv16, mid: seq<ListHead>, entries: Entries, left: seq<ListHead>,
                 k: nat)
    requires |mid| >= 3 && (forall n :: n in mid ==> n in entries) && left == [mid[0]] + mid[2..] && k <= |left|
    requires forall i :: 0 <= i < k ==>
              var e := entries[left[i]]; !if idx >= 0 then e.idx == idx else e.data & 0xFF == data16
    requires k < |left| ==> var e := entries[left[k]]; if idx >= 0 then e.idx == idx else e.data & 0xFF == data16
    ensures var first := entries[mid[0]].data;
            SumOf(score, idx, data16, mid, entries) ==
            MessageCrc(Repeated([(first & 0xFF) as bv8, ((first >> 8) & 0xFF) as bv8],
                if k < |left| then |left| - k else |left| - 1), score)
  {
    hide FirstIn, RepeatCrc, MessageCrc, Repeated;
    FirstInAt(left, entries, idx, data16, k);
    RepeatIs(entries[mid[0]].data, if k < |left| then |left| - k else |left| - 1, score);
  }

  lemma OrderedIs(entries: Entries, order: seq<ListHead>, mid: seq<ListHead>)
    requires SortedBy(ByValue, mid) && Stable(ByValue, order, mid) && Agree(mid, entries) && Agree(order, entries)
    ensures Ordered(entries, order, mid)
  {
    hide EntryIn, Value;
    forall x, y | 0 <= x < y < |mid|
      ensures ValueIn(entries, mid[x]) <= ValueIn(entries, mid[y])
    {
      assert KeyOf(ByValue, mid[x].info) <= KeyOf(ByValue, mid[y].info);
    }
  }

  lemma AgreePermuted(nodes: seq<ListHead>, mid: seq<ListHead>)
    requires Permuted(mid, nodes)
    ensures Agree(mid, EntriesOf(nodes))
  {
    InfosOfPermuted(mid, nodes);
  }

  lemma SameEntries(order: seq<ListHead>, nodes: seq<ListHead>)
    requires Permuted(order, nodes)
    ensures EntriesOf(order) == EntriesOf(nodes)
  {
    hide Permuted;
    PermutedMembers(order, nodes);
    InfosOfPermuted(order, nodes);
  }

  method SearchPhase(list0: ListHead, findNum: Int16, finderIdx: Int16, ghost nodes: seq<ListHead>)
    returns (list: ListHead, score: bv16, idx: Int16, data16: bv16, ghost order: seq<ListHead>)
    requires IsList(list0, nodes) && |nodes| >= 3
    modifies nodes`next
    ensures order == old(SearchOrder(nodes, findNum, finderIdx))
    ensures IsList(list, order) && Permuted(order, nodes) && |order| == |nodes|
    ensures var n := if findNum > 0 then findNum as nat else 0;
            && score == old(Wrapped(Points(nodes, finderIdx, n))) && idx == IdxAfter(finderIdx, n)
            && data16 == if n == 0 then 0 else Wrapped((n - 1) % 256)
  {
    hide Permuted, IsList, Wrapped, Points, FindRounds, IdxAfter;
    ghost var s := SearchOrder(nodes, findNum, finderIdx);
    list, score, idx, data16, order := FindPhase(list0, findNum, finderIdx, nodes);
    assert Infos(nodes) == old(Infos(nodes));
    assert s == SearchOrder(nodes, findNum, finderIdx);
  }

  /** The same, with what the items hold in between. */
  method ValuePhase(list0: ListHead, res: CoreResults, finderIdx: Int16, idx: Int16, data16: bv16, score: bv16,
                    ghost order: seq<ListHead>)
    returns (list: ListHead, retval: bv16, ghost mid: seq<ListHead>, ghost entries: Entries)
    requires IsList(list0, order) && |order| >= 3
    modifies order`next, order`info, Infos(order)`data16, res`crc, res`crcstate, res`crcmatrix
    ensures IsList(list, mid) && Permuted(mid, order) && |mid| == |order|
    ensures forall n :: n in order ==> n.info == old(n.info)
    ensures forall d :: d in Infos(order) ==> Upper(d.data16) == old(Upper(d.data16))
    ensures Shuffled(finderIdx, order, old(EntriesOf(order)), mid, entries)
    ensures retval == SumOf(score, idx, data16, mid, entries)
  {
    hide Upper, Plain, Value, Permuted, IsList, RepeatCrc, SumLength, SumOf, SortedBy, Stable, Cached, Ordered, Score,
         Agree, Kept;
    hide Shuffled, LastData, Rounds;
    ghost var was := EntriesOf(order);
    list, retval, mid := ContentPhase(list0, res, finderIdx, idx, data16, score, order);
    entries := EntriesOf(order);
    SamePermutes(order);
    AgreePermuted(order, mid);
    AgreePermuted(order, order);
    SumIs(score, idx, data16, mid, entries);
    forall n | n in order
      ensures if finderIdx > 0 then ValueKept(was[n], entries[n]) else entries[n] == was[n]
    {
      assert n.info in Infos(order);
    }
    if finderIdx > 0 {
      OrderedIs(entries, order, mid);
    }
    IsShuffled(finderIdx, order, was, mid, entries, order);
  }

  /** Everything before the sort by idx. */
  method ShufflePhase(list0: ListHead, res: CoreResults, finderIdx: Int16, ghost nodes: seq<ListHead>)
    returns (list: ListHead, retval: bv16, ghost mid: seq<ListHead>, ghost entries: Entries)
    requires IsList(list0, nodes) && |nodes| >= 3
    modifies nodes`next, nodes`info, Infos(nodes)`data16, res`crc, res`crcstate, res`crcmatrix
    ensures IsList(list, mid) && Permuted(mid, nodes) && |mid| == |nodes|
    ensures forall n :: n in nodes ==> n.info == old(n.info)
    ensures forall n :: n in nodes ==> Upper(n.info.data16) == old(Upper(n.info.data16))
    ensures Shuffled(finderIdx, old(SearchOrder(nodes, res.seed3, finderIdx)), old(EntriesOf(nodes)), mid, entries)
    ensures var n := if res.seed3 > 0 then res.seed3 as nat else 0;
            retval == SumOf(old(Wrapped(Points(nodes, finderIdx, n))), IdxAfter(finderIdx, n),
                if n == 0 then 0 else Wrapped((n - 1) % 256), mid, entries)
  {
    hide Upper, Permuted, IsList, SumOf, Searched, Points, IdxAfter, Wrapped, Shuffled;
    ghost var was := EntriesOf(nodes);
    ghost var order: seq<ListHead>;
    var idx, data16;
    list, retval, idx, data16, order := SearchPhase(list0, res.seed3, finderIdx, nodes);
    InfosOfPermuted(order, nodes);
    SameEntries(order, nodes);
    assert EntriesOf(nodes) == was;
    list, retval, mid, entries := ValuePhase(list, res, finderIdx, idx, data16, retval, order);
    PermutedFurther(mid, order, nodes);
  }

  lemma IsShuffled(finderIdx: Int16, order: seq<ListHead>, was: Entries, mid: seq<ListHead>, now: Entries,
                   nodes: seq<ListHead>)
    requires was.Keys == now.Keys == set n | n in nodes
    requires if finderIdx <= 0 then mid == order else Ordered(now, order, mid)
    requires forall n :: n in nodes ==> if finderIdx > 0 then ValueKept(was[n], now[n]) else now[n] == was[n]
    ensures Shuffled(finderIdx, order, was, mid, now)
  {
    hide Ordered, ValueKept;
  }

  // ---------------------------------------------------------------- exactly when the order comes back

  ghost predicate AllIn(a: seq<ListHead>, b: seq<ListHead>) {
    forall i :: 0 <= i < |a| ==> a[i] in b
  }

  lemma StableOrders(from: seq<ListHead>, to: seq<ListHead>, p: nat, q: nat, x: nat, y: nat)
    requires Stable(ByIdx, from, to)
    requires p < q < |from| && x < |to| && y < |to| && from[p] == to[x] && from[q] == to[y]
    requires KeyOf(ByIdx, from[p].info) == KeyOf(ByIdx, from[q].info)
    ensures x < y
  {
    hide KeyOf;
  }

  lemma FirstIsLeast(a: seq<ListHead>, i: nat)
    requires SortedBy(ByIdx, a) && i < |a|
    ensures KeyOf(ByIdx, a[0].info) <= KeyOf(ByIdx, a[i].info)
  {
    hide KeyOf;
  }

  lemma SameFirst(from: seq<ListHead>, a: seq<ListHead>, b: seq<ListHead>)
    requires SortedBy(ByIdx, a) && Stable(ByIdx, from, a) && SortedBy(ByIdx, b) && Stable(ByIdx, from, b)
    requires Permuted(a, b) && AllIn(a, from) && a != [] && b != []
    ensures a[0] == b[0]
  {
    hide SortedBy, Stable, Permuted, KeyOf;
    PermutedBack(a, b);
    var i := MovedTo(b, a, 0);
    var j := MovedTo(a, b, 0);
    var p :| 0 <= p < |from| && from[p] == a[0];
    var q :| 0 <= q < |from| && from[q] == a[i];
    FirstIsLeast(a, i);
    FirstIsLeast(b, j);
    if p < q {
      StableOrders(from, b, p, q, j, 0);
    } else if q < p {
      StableOrders(from, a, q, p, i, 0);
    }
  }

  lemma TailStable(from: seq<ListHead>, a: seq<ListHead>)
    requires Stable(ByIdx, from, a) && a != []
    ensures Stable(ByIdx, from, a[1..])
  {
    var r := a[1..];
    forall p, q, x, y | 0 <= p < q < |from| && 0 <= x < |r| && 0 <= y < |r| && from[p] == r[x] && from[q] == r[y]
                        && KeyOf(ByIdx, from[p].info) == KeyOf(ByIdx, from[q].info)
      ensures x < y
    {
      StableOrders(from, a, p, q, x + 1, y + 1);
    }
  }

  /** A stable sort has one result only. */
  lemma {:induction false} StableSortIsUnique(from: seq<ListHead>, a: seq<ListHead>, b: seq<ListHead>)
    requires SortedBy(ByIdx, a) && Stable(ByIdx, from, a) && SortedBy(ByIdx, b) && Stable(ByIdx, from, b)
    requires Permuted(a, b) && AllIn(a, from)
    ensures a == b
    decreases |a|
  {
    hide SortedBy, Stable, Permuted;
    SameLength(a, b);
    if a != [] {
      SameFirst(from, a, b);
      TailsPermuted(a, b);
      TailSorted(a);
      TailSorted(b);
      TailStable(from, a);
      TailStable(from, b);
      StableSortIsUnique(from, a[1..], b[1..]);
      assert a == [a[0]] + a[1..] && b == [b[0]] + b[1..];
    }
  }

  /** The order that comes out of a stable sort by idx is the one that went into the benchmark
      exactly when that was sorted and the shuffling kept nodes of equal idx in order. */
  lemma ComesBack(nodes: seq<ListHead>, mid: seq<ListHead>, sorted: seq<ListHead>)
    requires SortedBy(ByIdx, sorted) && Stable(ByIdx, mid, sorted) && Permuted(sorted, nodes) && Permuted(mid, nodes)
    ensures sorted == nodes <==> SortedBy(ByIdx, nodes) && Stable(ByIdx, mid, nodes)
  {
    hide SortedBy, Stable, Permuted;
    if SortedBy(ByIdx, nodes) && Stable(ByIdx, mid, nodes) {
      PermutedBack(mid, nodes);
      forall i | 0 <= i < |sorted|
        ensures sorted[i] in mid
      {
        var j := MovedTo(sorted, nodes, i);
        var k := MovedTo(nodes, mid, j);
      }
      StableSortIsUnique(mid, sorted, nodes);
    }
  }

  /** A node stands in front of its old predecessor after one search for idx 0, unless its
      predecessor is the one that the hit brings to the front; and that one has another idx. */
  lemma NeighboursSwap(nodes: seq<ListHead>, k: nat, i: nat) returns (x: nat, y: nat)
    requires k <= |nodes| && i + 1 < |nodes| && (k == |nodes| || k == 0 || i != k - 1)
    ensures x < y < |nodes| && Reordered(nodes, k)[x] == nodes[i + 1] && Reordered(nodes, k)[y] == nodes[i]
  {
    var n, back := |nodes|, Reversed(nodes);
    var b := n - 2 - i;
    SameLength(Reordered(nodes, k), nodes);
    if k == n || k == 0 {
      x, y := b, b + 1;
    } else {
      var kr := n - 1 - k;
      x := if b == 0 then 0 else if b <= kr then b + 1 else b;
      y := if b + 1 <= kr then b + 2 else b + 1;
      if b == kr + 1 {
        x := 1;
      }
      MoveUpAt(back, kr, x);
      MoveUpAt(back, kr, y);
    }
  }

  lemma SomeTie(nodes: seq<ListHead>) returns (i: nat)
    requires SortedBy(ByIdx, nodes) && !Increasing(nodes)
    ensures i + 1 < |nodes| && nodes[i].info.idx == nodes[i + 1].info.idx
  {
    var a, b :| 0 <= a < b < |nodes| && nodes[a].info.idx >= nodes[b].info.idx;
    assert KeyOf(ByIdx, nodes[a].info) <= KeyOf(ByIdx, nodes[a + 1].info);
    assert a + 1 < b ==> KeyOf(ByIdx, nodes[a + 1].info) <= KeyOf(ByIdx, nodes[b].info);
    i := a;
  }

  /** k is where a search for idx 0 stops. */
  ghost predicate StopsAt(nodes: seq<ListHead>, k: nat)
    reads nodes`info, Infos(nodes)`idx
  {
    k <= |nodes| && (k < |nodes| ==> nodes[k].info.idx == 0) && forall i :: 0 <= i < k ==> nodes[i].info.idx != 0
  }

  /** One search for idx 0 puts nodes of equal idx out of order. */
  lemma TiesAreReversed(nodes: seq<ListHead>, k: nat)
    requires SortedBy(ByIdx, nodes) && !Increasing(nodes) && StopsAt(nodes, k)
    ensures !Stable(ByIdx, Reordered(nodes, k), nodes)
  {
    hide SortedBy, Stable, Increasing, Reordered;
    var i := SomeTie(nodes);
    var x, y := NeighboursSwap(nodes, k, i);
    var order := Reordered(nodes, k);
    if Stable(ByIdx, order, nodes) {
      SameLength(order, nodes);
      StableOrders(order, nodes, x, y, i + 1, i);
    }
  }

  /** The order after the one search that seed3 == 1 asks for. */
  lemma OneSearch(nodes: seq<ListHead>) returns (k: nat)
    requires |nodes| >= 3
    ensures StopsAt(nodes, k) && SearchOrder(nodes, 1, 0) == Reordered(nodes, k)
  {
    hide Reordered, FirstWanted, Permuted;
    var s := Findings(nodes, 0, 0, 0, 0);
    assert FindRounds(s, 1) == FindRound(FindRounds(s, 0), LowByteOf(0));
    k := FirstWanted(nodes, 0, LowByteOf(0));
    FirstWantedIs(nodes, 0, LowByteOf(0), k);
  }

  /** Of two nodes with equal idx the first one has the smaller value, or an equal one and its place
      in front after the search. */
  ghost predicate TiesKept(entries: Entries, order: seq<ListHead>, nodes: seq<ListHead>) {
    forall i, j, a, b ::
      0 <= i < j < |nodes| && EntryIn(entries, nodes[i]).idx == EntryIn(entries, nodes[j]).idx
      && 0 <= a < |order| && 0 <= b < |order| && order[a] == nodes[i] && order[b] == nodes[j]
      ==> ValueIn(entries, nodes[i]) < ValueIn(entries, nodes[j]) ||
          (ValueIn(entries, nodes[i]) == ValueIn(entries, nodes[j]) && a < b)
  }

  /** After a sort by value that is what decides whether nodes of equal idx come back in order. */
  lemma TiesDecide(entries: Entries, order: seq<ListHead>, mid: seq<ListHead>, nodes: seq<ListHead>)
    requires Ordered(entries, order, mid) && Permuted(order, nodes) && Permuted(mid, nodes) && Distinct(nodes) &&
             Distinct(mid)
    requires forall n :: n in nodes ==> EntryIn(entries, n).idx == n.info.idx
    ensures Stable(ByIdx, mid, nodes) <==> TiesKept(entries, order, nodes)
  {
    hide Ordered, Permuted, ValueIn, EntryIn;
    PermutedBack(order, nodes);
    PermutedBack(mid, nodes);
    if Stable(ByIdx, mid, nodes) {
      forall i, j, a, b | 0 <= i < j < |nodes| && EntryIn(entries, nodes[i]).idx == EntryIn(entries, nodes[j]).idx
                          && 0 <= a < |order| && 0 <= b < |order| && order[a] == nodes[i] && order[b] == nodes[j]
        ensures ValueIn(entries, nodes[i]) < ValueIn(entries, nodes[j]) ||
                (ValueIn(entries, nodes[i]) == ValueIn(entries, nodes[j]) && a < b)
      {
        var p := MovedTo(nodes, mid, i);
        var q := MovedTo(nodes, mid, j);
        assert p < q;
        OrderedPair(entries, order, mid, a, b, p, q);
      }
    }
    if TiesKept(entries, order, nodes) {
      forall p, q, i, j | 0 <= p < q < |mid| && 0 <= i < |nodes| && 0 <= j < |nodes| && mid[p] == nodes[i] &&
          mid[q] == nodes[j]
                          && KeyOf(ByIdx, mid[p].info) == KeyOf(ByIdx, mid[q].info)
        ensures i < j
      {
        var a := MovedTo(nodes, order, i);
        var b := MovedTo(nodes, order, j);
        OrderedPair(entries, order, mid, a, b, p, q);
      }
    }
  }

  /** Two nodes in the sorted order: smaller values first, and of equal values the first of the
      order. */
  lemma OrderedPair(entries: Entries, order: seq<ListHead>, mid: seq<ListHead>, a: nat, b: nat, p: nat, q: nat)
    requires Ordered(entries, order, mid) && a < |order| && b < |order| && p < q < |mid| && order[a] == mid[p] &&
             order[b] == mid[q]
    requires mid[p] != mid[q]
    ensures ValueIn(entries, mid[p]) < ValueIn(entries, mid[q]) ||
            (ValueIn(entries, mid[p]) == ValueIn(entries, mid[q]) && a < b)
  {
    hide ValueIn;
  }

  /** When no value needs a kernel, the values are those the items came with. */
  lemma PlainTies(finderIdx: Int16, order: seq<ListHead>, was: Entries, mid: seq<ListHead>, now: Entries,
                  nodes: seq<ListHead>)
    requires finderIdx > 0 && Shuffled(finderIdx, order, was, mid, now) && AllPlain(was)
    requires forall n :: n in nodes ==> n in was
    ensures TiesKept(now, order, nodes) <==> TiesKept(was, order, nodes)
  {
    hide Value, Plain, Upper, Cached, Ordered;
    forall n | n in nodes
      ensures ValueIn(now, n) == ValueIn(was, n) && EntryIn(now, n).idx == EntryIn(was, n).idx
    {
      assert ValueKept(was[n], now[n]);
    }
  }

  ghost predicate AllPlain(entries: Entries) {
    forall n :: n in entries ==> Plain(entries[n].data)
  }

  // ---------------------------------------------------------------- the whole body

  twostate lemma InfosKept(nodes: seq<ListHead>)
    requires forall n :: n in nodes ==> n.info == old(n.info)
    requires forall n :: n in nodes ==> n.info.idx == old(n.info.idx)
    ensures Infos(nodes) == old(Infos(nodes)) && Increasing(nodes) == old(Increasing(nodes))
    ensures forall k: nat :: StopsAt(nodes, k) == old(StopsAt(nodes, k))
  {
  }

  /** All phases one after the other. */
  method BenchPhases(res: CoreResults, finderIdx: Int16, ghost nodes: seq<ListHead>)
    returns (retval: bv16, list: ListHead, ghost mid: seq<ListHead>, ghost entries: Entries,
            ghost sorted: seq<ListHead>)
    requires res.list != null && IsList(res.list, nodes) && |nodes| >= 3
    modifies nodes`next, nodes`info, Infos(nodes)`data16, res`crc, res`crcstate, res`crcmatrix
    ensures IsList(list, sorted) && Permuted(sorted, nodes) && SortedBy(ByIdx, sorted)
    ensures Permuted(mid, nodes) && Distinct(mid) && |mid| == |nodes| && Stable(ByIdx, mid, sorted)
    ensures Shuffled(finderIdx, old(SearchOrder(nodes, res.seed3, finderIdx)), old(EntriesOf(nodes)), mid, entries)
    ensures forall n :: n in nodes ==> n.info == old(n.info)
    ensures forall n :: n in nodes ==> n.info.data16 == Regen(old(n.info.data16))
    ensures |sorted| == |nodes|
    ensures var n := if res.seed3 > 0 then res.seed3 as nat else 0;
            retval == RepeatCrc(sorted[0].info.data16, |nodes| - 1,
                SumOf(Wrapped(old(Points(nodes, finderIdx, n))), IdxAfter(finderIdx, n),
                    if n == 0 then 0 else Wrapped((n - 1) % 256), mid, entries))
  {
    hide Upper, Regen, Permuted, IsList, RepeatCrc, Searched, Distinct, NodeAt, Increasing, SortedBy, Stable, StopsAt;
    hide Kept, Cached, Plain, Points, IdxAfter, Wrapped, SumOf, Shuffled, SearchOrder, Infos, EntriesOf;
    list, retval, mid, entries := ShufflePhase(res.list, res, finderIdx, nodes);
    ghost var middle := retval;
    InfosOfPermuted(mid, nodes);
    HeadOf(list, mid);
    InfosKept(nodes);
    label shuffled:
    list, retval, sorted := IndexPhase(list, retval, mid, nodes);
    assert retval == RepeatCrc(sorted[0].info.data16, |nodes| - 1, middle);
    assert forall n :: n in nodes ==> n.info == old@shuffled(n.info);
    forall n | n in nodes
      ensures n.info.data16 == Regen(old(n.info.data16))
    {
      RegenOfUpper(n.info.data16, old(n.info.data16));
    }
  }

  /** The list benchmark. Whatever the search and the sort by value did to the list, it ends
      up with the same nodes sorted by idx, each with its own item, every idx and upper byte
      unchanged, and every lower byte rebuilt from its upper byte. It is the same list again
      exactly when it came in sorted by idx and the shuffling kept nodes of equal idx in order:
      for every search and sort when all idx are distinct, and already for one search for
      idx 0 only then. With a sort by value the values decide first, then the search. */
  method BenchList(res: CoreResults, finderIdx: Int16, ghost nodes: seq<ListHead>)
    returns (retval: bv16, ghost list: ListHead, ghost mid: seq<ListHead>, ghost entries: Entries,
            ghost sorted: seq<ListHead>)
    requires res.list != null && IsList(res.list, nodes) && |nodes| >= 3
    modifies nodes`next, nodes`info, Infos(nodes)`data16, res`crc, res`crcstate, res`crcmatrix
    ensures IsList(list, sorted) && Permuted(sorted, nodes) && SortedBy(ByIdx, sorted)
    ensures |sorted| == |nodes| && |mid| == |nodes|
    ensures var n := if res.seed3 > 0 then res.seed3 as nat else 0;
            retval == RepeatCrc(sorted[0].info.data16, |nodes| - 1,
                SumOf(Wrapped(old(Points(nodes, finderIdx, n))), IdxAfter(finderIdx, n),
                    if n == 0 then 0 else Wrapped((n - 1) % 256), mid, entries))
    ensures Permuted(mid, nodes) && Stable(ByIdx, mid, sorted)
    ensures Shuffled(finderIdx, old(SearchOrder(nodes, res.seed3, finderIdx)), old(EntriesOf(nodes)), mid, entries)
    ensures sorted == nodes <==> SortedBy(ByIdx, nodes) && Stable(ByIdx, mid, nodes)
    ensures finderIdx > 0 ==>
              (sorted == nodes <==>
                  SortedBy(ByIdx, nodes) && TiesKept(entries, old(SearchOrder(nodes, res.seed3, finderIdx)), nodes))
    ensures finderIdx > 0 && AllPlain(old(EntriesOf(nodes))) ==>
              (sorted == nodes <==>
               SortedBy(ByIdx, nodes) && TiesKept(old(EntriesOf(nodes)), old(SearchOrder(nodes, res.seed3, finderIdx)),
                   nodes))
    ensures sorted == nodes ==> list == res.list
    ensures old(Increasing(nodes)) ==> sorted == nodes
    ensures res.seed3 == 1 && finderIdx == 0 ==> (sorted == nodes <==> old(Increasing(nodes)))
    ensures forall n :: n in nodes ==> n.info == old(n.info)
    ensures forall n :: n in nodes ==> n.info.data16 == Regen(old(n.info.data16))
  {
    hide Points, Wrapped, IdxAfter;
    hide Upper, Regen, Permuted, IsList, RepeatCrc, Searched, SumOf, Distinct, NodeAt, Increasing, SortedBy, Stable,
         StopsAt, Reordered;
    hide Infos, Plain, Cached, Kept, Ordered, TiesKept;
    ghost var k := OneSearch(nodes);
    ghost var order, was := SearchOrder(nodes, res.seed3, finderIdx), EntriesOf(nodes);
    assert was.Keys == set n | n in nodes;
    HeadOf(res.list, nodes);
    var head;
    retval, head, mid, entries, sorted := BenchPhases(res, finderIdx, nodes);
    list := head;
    HeadOf(list, sorted);
    InfosKept(nodes);
    ComesBack(nodes, mid, sorted);
    if finderIdx > 0 {
      assert forall n :: n in nodes ==> EntryIn(entries, n).idx == n.info.idx;
      TiesDecide(entries, order, mid, nodes);
      if AllPlain(was) {
        PlainTies(finderIdx, order, was, mid, entries, nodes);
      }
    }
    if Increasing(nodes) {
      SortedIsUnique(nodes, sorted);
    } else if SortedBy(ByIdx, nodes) {
      TiesAreReversed(nodes, k);
    }
  }
}
