/** The bottom-up merge sort of the linked list, in place and without recursion. */
module ListSort {
  import opened CoreList
  import opened MergeOrder
  import opened Powers

  // ---------------------------------------------------------------- what a view means in the heap

  type ListView = View<ListHead, ListData>

  /** The view knows the data of each node, and the key of each item that has settled. */
  ghost predicate Tracks(v: ListView, cmp: Comparator, res: CoreResults?)
    reads v.info.Keys`info, v.touched`data16, v.touched`idx
  {
    && (forall n :: n in v.info ==> v.info[n] == n.info)
    && (forall d :: d in v.touched ==> d in v.key && v.key[d] == KeyOf(cmp, d) && SettledItem(cmp, res, d))
  }

  method CompareNodes(cmp: Comparator, p: ListHead, q: ListHead, res: CoreResults?, ghost v: ListView)
    returns (r: int, ghost w: ListView)
    requires cmp.ByValue? ==> res != null
    requires Tracks(v, cmp, res) && p in v.info && q in v.info
    modifies p.info`data16, q.info`data16, ResultsOf(res)`crc, ResultsOf(res)`crcstate, ResultsOf(res)`crcmatrix
    ensures Tracks(w, cmp, res) && Extends(v, w) && Settled(v)
    ensures IsTouched(w, p) && IsTouched(w, q)
    ensures r <= 0 <==> Key(w, p) <= Key(w, q)
    ensures Kept(cmp, old(p.info.data16), p.info.data16) && Kept(cmp, old(q.info.data16), q.info.data16)
  {
    hide Value, Cached, Upper, Regen, Plain;
    r := Compare(cmp, p.info, q.info, res);
    w := v.(key := v.key[p.info := KeyOf(cmp, p.info)][q.info := KeyOf(cmp, q.info)],
        touched := v.touched + {p.info, q.info});
  }

  // ---------------------------------------------------------------- nodes consumed so far

  /** place gives the index of each node in the list that a pass consumes. */
  ghost predicate Placed(nodes: seq<ListHead>, place: map<ListHead, int>) {
    && (forall k :: 0 <= k < |nodes| ==> nodes[k] in place && place[nodes[k]] == k)
    && (forall n :: n in place ==> 0 <= place[n] < |nodes| && nodes[place[n]] == n)
  }

  ghost predicate Within(place: map<ListHead, int>, s: seq<ListHead>, low: int, high: int) {
    forall x :: 0 <= x < |s| ==> s[x] in place && low <= place[s[x]] < high
  }

  /** done holds the nodes in front of i and those between m and j, once each. */
  ghost predicate Consumed(place: map<ListHead, int>, done: seq<ListHead>, i: int, m: int, j: int) {
    && Distinct(done)
    && |done| == i + (j - m)
    && forall x :: 0 <= x < |done| ==> done[x] in place && (0 <= place[done[x]] < i || m <= place[done[x]] < j)
  }

  lemma ConsumedOne(place: map<ListHead, int>, done: seq<ListHead>, i: int, m: int, j: int, e: ListHead, i': int,
                    j': int)
    requires Consumed(place, done, i, m, j) && e in place && 0 <= i <= m <= j
    requires (i' == i + 1 <= m && j' == j && place[e] == i) || (i' == i && j' == j + 1 && place[e] == j)
    ensures e !in done && Distinct(done)
    ensures Consumed(place, done + [e], i', m, j')
  {
  }

  ghost predicate Linked(nodes: seq<ListHead>, i: int, m: int)
    reads nodes`next
  {
    forall k {:trigger nodes[k].next} :: 0 <= i <= k < m <= |nodes| ==> nodes[k].next == NodeAt(nodes, k + 1)
  }

  ghost predicate Chained(done: seq<ListHead>)
    reads done`next
  {
    forall k {:trigger done[k].next} :: 0 <= k < |done| - 1 ==> done[k].next == done[k + 1]
  }

  ghost predicate Ends(list: ListHead?, tail: ListHead?, done: seq<ListHead>) {
    if done == [] then list == null && tail == null else list == done[0] && tail == done[|done| - 1]
  }

  function NodeOf(node: ListHead?): set<ListHead> {
    if node == null then {} else {node}
  }

  /** Add an element to the merged list. */
  method Append(list: ListHead?, tail: ListHead?, e: ListHead, ghost done: seq<ListHead>)
    returns (newList: ListHead?, newTail: ListHead?)
    requires Ends(list, tail, done) && Chained(done) && Distinct(done) && e !in done
    modifies NodeOf(tail)`next
    ensures Ends(newList, newTail, done + [e]) && Chained(done + [e])
  {
    newList := list;
    if tail != null {
      tail.next := e;
    } else {
      newList := e;
    }
    newTail := e;
  }

  // ---------------------------------------------------------------- one merge

  /** The runs p = nodes[a..m] and q = nodes[m..end] are being merged after done; block is
      what was merged so far, up to i in p and up to j in q. */
  ghost predicate MergeHeap(nodes: seq<ListHead>, place: map<ListHead, int>, done: seq<ListHead>, list: ListHead?,
                            tail: ListHead?, i: int, m: int, j: int)
    reads nodes`next, done`next
  {
    && 0 <= i <= m <= j <= |nodes|
    && Placed(nodes, place) && Consumed(place, done, i, m, j)
    && Ends(list, tail, done) && Chained(done)
    && Linked(nodes, i, m) && Linked(nodes, j, |nodes|)
  }

  /** block, taken from the runs nodes[a..m] and nodes[m..end], has been put after front. */
  ghost predicate Progress(nodes: seq<ListHead>, place: map<ListHead, int>, front: seq<ListHead>, block: seq<ListHead>,
                           list: ListHead?, tail: ListHead?, a: int, i: int, m: int, j: int, end: int)
    reads nodes`next, front`next, block`next
  {
    && 0 <= a <= i <= m <= j <= end <= |nodes|
    && MergeHeap(nodes, place, front + block, list, tail, i, m, j)
    && |block| == (i - a) + (j - m)
    && Within(place, block, a, end)
  }

  lemma TailIsConsumed(nodes: seq<ListHead>, place: map<ListHead, int>, done: seq<ListHead>, list: ListHead?,
                       tail: ListHead?, i: int, m: int, j: int)
    requires MergeHeap(nodes, place, done, list, tail, i, m, j)
    ensures forall k :: i <= k < m || j <= k < |nodes| ==> nodes[k] !in NodeOf(tail)
  {
    forall k | i <= k < m || j <= k < |nodes|
      ensures nodes[k] != tail
    {
      assert place[nodes[k]] == k;
    }
  }

  /** The next node of the merge goes to the end of the merged list. */
  method EmitNode(list: ListHead?, tail: ListHead?, e: ListHead, ghost nodes: seq<ListHead>,
                  ghost place: map<ListHead, int>, ghost front: seq<ListHead>, ghost block: seq<ListHead>, ghost a: int,
                  ghost i: int, ghost m: int, ghost j: int, ghost end: int, ghost i': int, ghost j': int)
    returns (newList: ListHead?, newTail: ListHead?)
    requires Progress(nodes, place, front, block, list, tail, a, i, m, j, end)
    requires (i' == i + 1 <= m && j' == j && e == nodes[i]) || (i' == i && j' == j + 1 <= end && e == nodes[j])
    modifies NodeOf(tail)`next
    ensures Progress(nodes, place, front, block + [e], newList, newTail, a, i', m, j', end)
  {
    hide Consumed, Ends, Chained, Distinct, NodeAt;
    ghost var done := front + block;
    assert Consumed(place, done + [e], i', m, j') && e !in done && Distinct(done) by {
      ConsumedOne(place, done, i, m, j, e, i', j');
    }
    assert forall k :: i <= k < m || j <= k < |nodes| ==> nodes[k] !in NodeOf(tail) by {
      TailIsConsumed(nodes, place, done, list, tail, i, m, j);
    }
    newList, newTail := Append(list, tail, e, done);
    assert done + [e] == front + (block + [e]);
  }

  /** What is left of the two runs, and the part merged so far, are in order. */
  ghost predicate MergeOrdered(v: ListView, nodes: seq<ListHead>, block: seq<ListHead>, i: int, m: int, j: int,
                               end: int) {
    0 <= i <= m <= j <= end <= |nodes| && Merging(v, block, nodes[i..m], nodes[j..end])
  }

  lemma TookP(v: ListView, nodes: seq<ListHead>, block: seq<ListHead>, i: int, m: int, j: int, end: int)
    requires MergeOrdered(v, nodes, block, i, m, j, end) && i < m
    requires j < end ==> IsTouched(v, nodes[i]) && IsTouched(v, nodes[j]) && Key(v, nodes[i]) <= Key(v, nodes[j])
    ensures MergeOrdered(v, nodes, block + [nodes[i]], i + 1, m, j, end)
  {
    hide Merging, IsTouched, Key;
    assert nodes[i..m][1..] == nodes[i + 1..m];
    if j == end {
      assert nodes[j..end] == [];
      TakeRestOfP(v, block, nodes[i..m]);
    } else {
      TakeP(v, block, nodes[i..m], nodes[j..end]);
    }
  }

  lemma TookQ(v: ListView, nodes: seq<ListHead>, block: seq<ListHead>, i: int, m: int, j: int, end: int)
    requires MergeOrdered(v, nodes, block, i, m, j, end) && j < end
    requires i < m ==> IsTouched(v, nodes[i]) && IsTouched(v, nodes[j]) && Key(v, nodes[j]) < Key(v, nodes[i])
    ensures MergeOrdered(v, nodes, block + [nodes[j]], i, m, j + 1, end)
  {
    hide Merging, IsTouched, Key;
    assert nodes[j..end][1..] == nodes[j + 1..end];
    if i == m {
      assert nodes[i..m] == [];
      TakeRestOfQ(v, block, nodes[j..end]);
    } else {
      TakeQ(v, block, nodes[i..m], nodes[j..end]);
    }
  }

  /** Decide whether the next node comes from the first run, comparing when both have nodes. */
  method FirstIsNext(cmp: Comparator, p: ListHead?, q: ListHead?, psize: int, qsize: int, res: CoreResults?,
                     ghost nodes: seq<ListHead>, ghost block: seq<ListHead>, ghost i: int, ghost m: int, ghost j: int,
                     ghost end: int, ghost v: ListView)
    returns (fromP: bool, ghost w: ListView, ghost compared: nat)
    requires cmp.ByValue? ==> res != null
    requires MergeOrdered(v, nodes, block, i, m, j, end) && (i < m || j < end)
    requires psize == m - i && (psize > 0 ==> p == nodes[i]) && q == NodeAt(nodes, j) &&
             (qsize == 0 || q == null <==> j == end)
    requires Tracks(v, cmp, res) && Known(v, nodes)
    modifies v.info.Values`data16, ResultsOf(res)`crc, ResultsOf(res)`crcstate, ResultsOf(res)`crcmatrix
    ensures Tracks(w, cmp, res) && Extends(v, w) && compared <= 1
    ensures if fromP then i < m && MergeOrdered(w, nodes, block + [nodes[i]], i + 1, m, j, end)
            else j < end && MergeOrdered(w, nodes, block + [nodes[j]], i, m, j + 1, end)
    ensures forall d :: d in v.info.Values ==> Kept(cmp, old(d.data16), d.data16)
  {
    hide Upper, Plain, Value, KeyOf, SettledItem, Merging, IsTouched, Key;
    w, compared := v, 0;
    if psize == 0 {
      fromP := false;
      TookQ(w, nodes, block, i, m, j, end);
    } else if qsize == 0 || q == null {
      fromP := true;
      TookP(w, nodes, block, i, m, j, end);
    } else {
      var r;
      assert p in v.info && q in v.info && p.info in v.info.Values && q.info in v.info.Values;
      r, w := CompareNodes(cmp, p, q, res, v);
      MergingKept(v, w, block, nodes[i..m], nodes[j..end]);
      compared := 1;
      fromP := r <= 0;
      if fromP {
        TookP(w, nodes, block, i, m, j, end);
      } else {
        TookQ(w, nodes, block, i, m, j, end);
      }
    }
  }

  lemma StartMerge(nodes: seq<ListHead>, place: map<ListHead, int>, front: seq<ListHead>, list: ListHead?,
                   tail: ListHead?, a: int, m: int, end: int)
    requires MergeHeap(nodes, place, front, list, tail, a, a, a) && a <= m <= end <= |nodes|
    ensures Progress(nodes, place, front, [], list, tail, a, a, m, m, end)
  {
    assert front + [] == front;
  }

  lemma EndMerge(nodes: seq<ListHead>, place: map<ListHead, int>, done: seq<ListHead>, list: ListHead?, tail: ListHead?,
                 m: int, end: int)
    requires MergeHeap(nodes, place, done, list, tail, m, m, end)
    ensures MergeHeap(nodes, place, done, list, tail, end, end, end)
  {
  }

  lemma TailIsOurs(nodes: seq<ListHead>, place: map<ListHead, int>, done: seq<ListHead>, list: ListHead?,
                   tail: ListHead?, i: int, m: int, j: int)
    requires MergeHeap(nodes, place, done, list, tail, i, m, j)
    ensures tail != null ==> tail in nodes
    ensures i < m ==> nodes[i].next == NodeAt(nodes, i + 1)
    ensures j < |nodes| ==> nodes[j].next == NodeAt(nodes, j + 1)
  {
    if tail != null {
      assert nodes[place[tail]] == tail;
    }
  }

  ghost predicate Known(v: ListView, nodes: seq<ListHead>) {
    forall k :: 0 <= k < |nodes| ==> nodes[k] in v.info
  }

  /** p and q are the next nodes of the two runs, with psize nodes and at most qsize nodes left. */
  ghost predicate Cursors(nodes: seq<ListHead>, p: ListHead?, q: ListHead?, psize: int, qsize: int, i: int, m: int,
                          j: int, end: int) {
    && 0 <= i <= m <= j <= end <= |nodes|
    && psize == m - i && (i < m ==> p == nodes[i])
    && q == NodeAt(nodes, j) && end == Min(j + qsize, |nodes|) && qsize >= 0
  }

  lemma MergeFacts(nodes: seq<ListHead>, place: map<ListHead, int>, front: seq<ListHead>, block: seq<ListHead>,
                   list: ListHead?, tail: ListHead?, p: ListHead?, q: ListHead?, psize: int, qsize: int, a: int, i: int,
                   m: int, j: int, end: int, v: ListView)
    requires Known(v, nodes) && Cursors(nodes, p, q, psize, qsize, i, m, j, end) &&
             Progress(nodes, place, front, block, list, tail, a, i, m, j, end)
    ensures 0 <= i <= m <= j <= end <= |nodes|
    ensures Linked(nodes, i, m) && Linked(nodes, j, |nodes|)
    ensures psize == m - i && (psize > 0 ==> p == nodes[i]) && q == NodeAt(nodes, j) &&
            (qsize == 0 || q == null <==> j == end)
    ensures tail != null ==> tail in v.info
  {
    TailIsOurs(nodes, place, front + block, list, tail, i, m, j);
  }

  /** Take the next node from one of the runs. */
  method NextNode(fromP: bool, p0: ListHead?, q0: ListHead?, psize0: int, qsize0: int, ghost nodes: seq<ListHead>,
                  ghost i: int, ghost m: int, ghost j: int, ghost end: int)
    returns (e: ListHead, p: ListHead?, q: ListHead?, psize: int, qsize: int)
    requires Cursors(nodes, p0, q0, psize0, qsize0, i, m, j, end) && Linked(nodes, i, m) && Linked(nodes, j, |nodes|)
    requires if fromP then i < m else j < end
    ensures e == if fromP then nodes[i] else nodes[j]
    ensures if fromP then Cursors(nodes, p, q, psize, qsize, i + 1, m, j, end)
            else Cursors(nodes, p, q, psize, qsize, i, m, j + 1, end)
  {
    p, q, psize, qsize := p0, q0, psize0, qsize0;
    if fromP {
      e := p;
      assert e.next == NodeAt(nodes, i + 1);
      p := p.next;
      psize := psize - 1;
    } else {
      e := q;
      assert e.next == NodeAt(nodes, j + 1);
      q := q.next;
      qsize := qsize - 1;
    }
  }

  /** Take the next node from one of the runs to the end of the merged list. */
  method TakeNode(fromP: bool, p0: ListHead?, q0: ListHead?, psize0: int, qsize0: int, list0: ListHead?,
                  tail0: ListHead?, ghost nodes: seq<ListHead>, ghost place: map<ListHead, int>,
                  ghost front: seq<ListHead>, ghost block: seq<ListHead>, ghost a: int, ghost i: int, ghost m: int,
                  ghost j: int, ghost end: int)
    returns (p: ListHead?, q: ListHead?, psize: int, qsize: int, list: ListHead?, tail: ListHead?)
    requires Cursors(nodes, p0, q0, psize0, qsize0, i, m, j, end) && Linked(nodes, i, m) && Linked(nodes, j, |nodes|)
    requires Progress(nodes, place, front, block, list0, tail0, a, i, m, j, end) && (if fromP then i < m else j < end)
    modifies NodeOf(tail0)`next
    ensures if fromP
            then Cursors(nodes, p, q, psize, qsize, i + 1, m, j, end) &&
                 Progress(nodes, place, front, block + [nodes[i]], list, tail, a, i + 1, m, j, end)
            else Cursors(nodes, p, q, psize, qsize, i, m, j + 1, end) &&
                 Progress(nodes, place, front, block + [nodes[j]], list, tail, a, i, m, j + 1, end)
  {
    hide Progress, NodeAt;
    var e: ListHead;
    e, p, q, psize, qsize := NextNode(fromP, p0, q0, psize0, qsize0, nodes, i, m, j, end);
    list, tail := EmitNode(list0, tail0, e, nodes, place, front, block, a, i, m, j, end,
                           if fromP then i + 1 else i, if fromP then j else j + 1);
  }

  /** The body of the merge loop. */
  method MergeStep(cmp: Comparator, p0: ListHead?, q0: ListHead?, psize0: int, qsize0: int, list0: ListHead?,
                   tail0: ListHead?, res: CoreResults?, ghost nodes: seq<ListHead>, ghost place: map<ListHead, int>,
                   ghost front: seq<ListHead>, ghost block0: seq<ListHead>, ghost a: int, ghost i0: int, ghost m: int,
                   ghost j0: int, ghost end: int, ghost v: ListView)
    returns (p: ListHead?, q: ListHead?, psize: int, qsize: int, list: ListHead?, tail: ListHead?,
             ghost block: seq<ListHead>, ghost i: int, ghost j: int, ghost w: ListView, ghost compared: nat)
    requires cmp.ByValue? ==> res != null
    requires Cursors(nodes, p0, q0, psize0, qsize0, i0, m, j0, end) && (psize0 > 0 || (qsize0 > 0 && q0 != null))
    requires Progress(nodes, place, front, block0, list0, tail0, a, i0, m, j0, end)
    requires MergeOrdered(v, nodes, block0, i0, m, j0, end)
    requires Tracks(v, cmp, res) && Known(v, nodes)
    modifies v.info.Keys`next, v.info.Values`data16, ResultsOf(res)`crc, ResultsOf(res)`crcstate,
             ResultsOf(res)`crcmatrix
    ensures i + j == i0 + j0 + 1 && compared <= 1 && |block| == |block0| + 1
    ensures Cursors(nodes, p, q, psize, qsize, i, m, j, end)
    ensures Progress(nodes, place, front, block, list, tail, a, i, m, j, end)
    ensures MergeOrdered(w, nodes, block, i, m, j, end)
    ensures Tracks(w, cmp, res) && Extends(v, w)
    ensures forall d :: d in v.info.Values ==> Kept(cmp, old(d.data16), d.data16)
  {
    hide Upper, Plain, Value, KeyOf, SettledItem, Tracks, MergeHeap, MergeOrdered, Within;
    hide Cursors, Progress, Known, NodeAt, Kept;
    var fromP;
    MergeFacts(nodes, place, front, block0, list0, tail0, p0, q0, psize0, qsize0, a, i0, m, j0, end, v);
    fromP, w, compared := FirstIsNext(cmp, p0, q0, psize0, qsize0, res, nodes, block0, i0, m, j0, end, v);
    i, j := if fromP then i0 + 1 else i0, if fromP then j0 else j0 + 1;
    p, q, psize, qsize, list, tail :=
        TakeNode(fromP, p0, q0, psize0, qsize0, list0, tail0, nodes, place, front, block0, a, i0, m, j0, end);
    block := block0 + [if fromP then nodes[i0] else nodes[j0]];
  }

  /** Merge the run of psize nodes at start with the run of up to insize nodes at second. */
  method MergeRuns(cmp: Comparator, start: ListHead, second: ListHead?, size: nat, insize: nat, head: ListHead?,
                   last: ListHead?, res: CoreResults?, ghost nodes: seq<ListHead>, ghost place: map<ListHead, int>,
                   ghost front: seq<ListHead>, ghost a: int, ghost end: int, ghost v: ListView)
    returns (list: ListHead?, tail: ListHead?, rest: ListHead?, ghost block: seq<ListHead>, ghost w: ListView,
            ghost comparisons: nat)
    requires cmp.ByValue? ==> res != null
    requires size > 0 && Cursors(nodes, start, second, size, insize, a, a + size, a + size, end)
    requires MergeHeap(nodes, place, front, head, last, a, a, a)
    requires MergeOrdered(v, nodes, [], a, a + size, a + size, end)
    requires Tracks(v, cmp, res) && Known(v, nodes)
    modifies v.info.Keys`next, v.info.Values`data16, ResultsOf(res)`crc, ResultsOf(res)`crcstate,
             ResultsOf(res)`crcmatrix
    ensures Progress(nodes, place, front, block, list, tail, a, a + size, a + size, end, end)
    ensures MergeOrdered(w, nodes, block, a + size, a + size, end, end)
    ensures rest == NodeAt(nodes, end)
    ensures Tracks(w, cmp, res) && Extends(v, w)
    ensures comparisons <= |block|
    ensures forall d :: d in v.info.Values ==> Kept(cmp, old(d.data16), d.data16)
  {
    hide Upper, Plain, Value, KeyOf, SettledItem, Tracks, MergeHeap, MergeOrdered, Within, Progress, Known;
    ghost var m := a + size;
    ghost var i, j := a, m;
    var p: ListHead? := start;
    var q, psize, qsize := second, size, insize;
    list, tail := head, last;
    block, w, comparisons := [], v, 0;
    StartMerge(nodes, place, front, head, last, a, m, end);
    while psize > 0 || (qsize > 0 && q != null)
      invariant Cursors(nodes, p, q, psize, qsize, i, m, j, end)
      invariant Progress(nodes, place, front, block, list, tail, a, i, m, j, end)
      invariant MergeOrdered(w, nodes, block, i, m, j, end)
      invariant Tracks(w, cmp, res) && Extends(v, w) && Known(w, nodes)
      invariant comparisons <= |block|
      invariant forall d :: d in v.info.Values ==> Kept(cmp, old(d.data16), d.data16)
      decreases m + end - i - j
    {
      ghost var compared;
      ghost var u := w;
      p, q, psize, qsize, list, tail, block, i, j, w, compared :=
          MergeStep(cmp, p, q, psize, qsize, list, tail, res, nodes, place, front, block, a, i, m, j, end, w);
      ExtendsFurther(v, u, w);
      KnownStill(u, w, nodes);
      comparisons := comparisons + compared;
    }
    rest := q;
  }

  lemma ExtendsFurther(u: ListView, v: ListView, w: ListView)
    requires Extends(u, v) && Extends(v, w)
    ensures Extends(u, w) && w.info == u.info && w.pos == u.pos
  {
  }

  lemma KnownStill(v: ListView, w: ListView, nodes: seq<ListHead>)
    requires Extends(v, w) && Known(v, nodes)
    ensures Known(w, nodes) && w.info == v.info && w.pos == v.pos
  {
  }

  // ---------------------------------------------------------------- one pass

  ghost function Places(nodes: seq<ListHead>): (place: map<ListHead, int>)
    ensures Distinct(nodes) ==> Placed(nodes, place)
    decreases |nodes|
  {
    if nodes == [] then map[]
    else Places(nodes[..|nodes| - 1])[nodes[|nodes| - 1] := |nodes| - 1]
  }

  /** Step insize places along from p. */
  method StepAlong(p: ListHead, insize: nat, ghost nodes: seq<ListHead>, ghost a: int)
    returns (q: ListHead?, psize: nat)
    requires insize > 0 && 0 <= a < |nodes| && p == nodes[a] && Linked(nodes, a, |nodes|)
    ensures psize == Min(insize, |nodes| - a) && q == NodeAt(nodes, a + psize)
  {
    q := p;
    psize := 0;
    for i := 0 to insize
      invariant psize == i <= |nodes| - a && q == NodeAt(nodes, a + psize) && q != null
    {
      psize := psize + 1;
      assert nodes[a + i].next == NodeAt(nodes, a + i + 1);
      q := q.next;
      if q == null {
        break;
      }
    }
  }

  /** Everything behind a is still to be merged in runs of length k; done is in front. */
  ghost predicate PassOrdered(v: ListView, nodes: seq<ListHead>, done: seq<ListHead>, a: int, k: nat) {
    && k > 0 && 0 <= a <= |nodes|
    && Runs(v, nodes[a..], k)
    && Earlier(v, done, nodes[a..])
    && Runs(v, done, 2 * k)
    && (a < |nodes| ==> FullRuns(v, done, 2 * k))
  }

  /** The first run of a list of runs. */
  lemma FirstRun(v: ListView, s: seq<ListHead>, k: nat)
    requires k > 0 && Runs(v, s, k) && s != []
    ensures var h := Min(k, |s|); SortedRun(v, s[..h]) && Earlier(v, s[..h], s[h..]) && Runs(v, s[h..], k)
  {
    hide SortedRun, Earlier;
  }

  /** The two runs at the front of the unsorted part. */
  lemma CutRuns(v: ListView, nodes: seq<ListHead>, done: seq<ListHead>, a: int, k: nat, m: int, end: int)
    requires PassOrdered(v, nodes, done, a, k) && a < |nodes|
    requires m == a + Min(k, |nodes| - a) && end == Min(m + k, |nodes|)
    ensures MergeOrdered(v, nodes, [], a, m, m, end)
    ensures Earlier(v, nodes[a..end], nodes[end..]) && Runs(v, nodes[end..], k)
  {
    hide SortedRun, Earlier, Runs, FullRuns, Merging;
    var s := nodes[a..];
    assert s[..m - a] == nodes[a..m] && s[m - a..] == nodes[m..];
    FirstRun(v, s, k);
    if m < |nodes| {
      var t := nodes[m..];
      assert t[..end - m] == nodes[m..end] && t[end - m..] == nodes[end..];
      FirstRun(v, t, k);
    } else {
      NoNodesSorted(v, nodes[a..m]);
      assert nodes[m..end] == [] && nodes[end..] == nodes[m..];
    }
    EarlierParts(v, nodes, a, m, end);
    MergeBegins(v, nodes[a..m], nodes[m..end]);
  }

  lemma NoNodesSorted(v: ListView, s: seq<ListHead>)
    ensures SortedRun(v, []) && Earlier(v, [], s) && Earlier(v, [], [])
  {
  }

  lemma MergeBegins(v: ListView, p: seq<ListHead>, q: seq<ListHead>)
    requires SortedRun(v, p) && SortedRun(v, q) && Earlier(v, p, q) && p != []
    ensures Merging(v, [], p, q)
  {
    hide SortedRun;
  }

  lemma EarlierParts(v: ListView, nodes: seq<ListHead>, a: int, m: int, end: int)
    requires 0 <= a <= m <= end <= |nodes|
    requires Earlier(v, nodes[a..m], nodes[m..]) && Earlier(v, nodes[m..end], nodes[end..])
    ensures Earlier(v, nodes[a..m], nodes[m..end]) && Earlier(v, nodes[a..end], nodes[end..])
  {
    forall i, j | 0 <= i < m - a && 0 <= j < end - m
      ensures Pos(v, nodes[a..m][i]) < Pos(v, nodes[m..end][j])
    {
      assert nodes[m..end][j] == nodes[m..][j];
    }
    forall i, j | 0 <= i < end - a && 0 <= j < |nodes| - end
      ensures Pos(v, nodes[a..end][i]) < Pos(v, nodes[end..][j])
    {
      if i < m - a {
        assert nodes[a..end][i] == nodes[a..m][i] && nodes[end..][j] == nodes[m..][end - m + j];
      } else {
        assert nodes[a..end][i] == nodes[m..end][i - (m - a)];
      }
    }
  }

  lemma EarlierMembers(v: ListView, a: seq<ListHead>, b: seq<ListHead>, a': seq<ListHead>, b': seq<ListHead>)
    requires Earlier(v, a, b)
    requires forall x :: 0 <= x < |a'| ==> a'[x] in a
    requires forall x :: 0 <= x < |b'| ==> b'[x] in b
    ensures Earlier(v, a', b')
  {
  }

  /** The merged block extends the part that is sorted in runs of twice the length. */
  lemma JoinBlock(v: ListView, w: ListView, nodes: seq<ListHead>, done: seq<ListHead>, block: seq<ListHead>, a: int,
                  k: nat, m: int, end: int)
    requires PassOrdered(v, nodes, done, a, k) && a < |nodes| && Extends(v, w) && Settled(v)
    requires m == a + Min(k, |nodes| - a) && end == Min(m + k, |nodes|)
    requires MergeOrdered(w, nodes, block, m, m, end, end) && |block| == end - a
    requires forall x :: 0 <= x < |block| ==> block[x] in nodes[a..end]
    ensures PassOrdered(w, nodes, done + block, end, k)
  {
    hide Runs, FullRuns, SortedRun, Settled;
    CutRuns(v, nodes, done, a, k, m, end);
    FullRunsKept(v, w, done, 2 * k);
    RunsKept(v, w, nodes[end..], k);
    SortedBlock(w, nodes, block, m, end);
    forall x | 0 <= x < |block|
      ensures block[x] in nodes[a..]
    {
      var y :| 0 <= y < end - a && nodes[a..end][y] == block[x];
      assert nodes[a..][y] == block[x];
    }
    forall x | 0 <= x < |nodes| - end
      ensures nodes[end..][x] in nodes[a..]
    {
      assert nodes[end..][x] == nodes[a..][end - a + x];
    }
    EarlierMembers(v, done, nodes[a..], done, block);
    EarlierMembers(v, done, nodes[a..], done, nodes[end..]);
    EarlierMembers(v, nodes[a..end], nodes[end..], block, nodes[end..]);
    AppendRun(w, done, block, 2 * k);
    EarlierJoin(w, done, block, nodes[end..]);
  }

  lemma EarlierJoin(v: ListView, a: seq<ListHead>, b: seq<ListHead>, c: seq<ListHead>)
    requires Earlier(v, a, c) && Earlier(v, b, c)
    ensures Earlier(v, a + b, c)
  {
  }

  lemma SortedBlock(v: ListView, nodes: seq<ListHead>, block: seq<ListHead>, m: int, end: int)
    requires MergeOrdered(v, nodes, block, m, m, end, end)
    ensures SortedRun(v, block)
  {
  }

  lemma BlockMembers(nodes: seq<ListHead>, place: map<ListHead, int>, block: seq<ListHead>, a: int, end: int)
    requires Placed(nodes, place) && Within(place, block, a, end) && 0 <= a <= end <= |nodes|
    ensures forall x :: 0 <= x < |block| ==> block[x] in nodes[a..end]
  {
    forall x | 0 <= x < |block|
      ensures block[x] in nodes[a..end]
    {
      assert nodes[a..end][place[block[x]] - a] == block[x];
    }
  }

  /** The same nodes, each as often. */
  ghost predicate Permuted(a: seq<ListHead>, b: seq<ListHead>) {
    multiset(a) == multiset(b)
  }

  lemma {:induction false} DistinctInside(a: seq<ListHead>, b: seq<ListHead>)
    requires Distinct(a) && |a| == |b| && forall x :: 0 <= x < |a| ==> a[x] in b
    ensures multiset(a) == multiset(b)
    decreases |a|
  {
    if a != [] {
      var n := |a| - 1;
      var y :| 0 <= y < |b| && b[y] == a[n];
      var c := b[..y] + b[y + 1..];
      forall x | 0 <= x < n
        ensures a[..n][x] in c
      {
        StaysIn(b, y, a[x]);
      }
      DistinctInside(a[..n], c);
      assert a == a[..n] + [a[n]];
      OneTakenOut(b, y);
    }
  }

  lemma OneTakenOut(b: seq<ListHead>, y: nat)
    requires y < |b|
    ensures multiset(b) == multiset(b[..y] + b[y + 1..]) + multiset{b[y]}
  {
    assert b == b[..y] + [b[y]] + b[y + 1..];
  }

  lemma StaysIn(b: seq<ListHead>, y: nat, n: ListHead)
    requires y < |b| && n in b && n != b[y]
    ensures n in b[..y] + b[y + 1..]
  {
    var c := b[..y] + b[y + 1..];
    var z :| 0 <= z < |b| && b[z] == n;
    if z < y {
      assert c[z] == b[z];
    } else {
      assert c[z - 1] == b[z];
    }
  }

  lemma AllConsumed(nodes: seq<ListHead>, place: map<ListHead, int>, done: seq<ListHead>, list: ListHead?,
                    tail: ListHead?)
    requires MergeHeap(nodes, place, done, list, tail, |nodes|, |nodes|, |nodes|)
    ensures Permuted(done, nodes) && Distinct(done)
    ensures nodes != [] ==> tail != null && tail in nodes
  {
    forall x | 0 <= x < |done|
      ensures done[x] in nodes
    {
      assert nodes[place[done[x]]] == done[x];
    }
    DistinctInside(done, nodes);
  }

  lemma PassBegins(nodes: seq<ListHead>, list: ListHead?, v: ListView, k: nat)
    requires k > 0 && IsList(list, nodes) && Runs(v, nodes, k)
    ensures MergeHeap(nodes, Places(nodes), [], null, null, 0, 0, 0)
    ensures PassOrdered(v, nodes, [], 0, k)
  {
    assert nodes[0..] == nodes;
  }

  lemma TracksSettled(v: ListView, cmp: Comparator, res: CoreResults?)
    requires Tracks(v, cmp, res)
    ensures Settled(v)
  {
    hide SettledItem, KeyOf;
  }

  /** Merge two runs at a. */
  method MergeAt(cmp: Comparator, p: ListHead, insize: nat, head: ListHead?, last: ListHead?, res: CoreResults?,
                 ghost nodes: seq<ListHead>, ghost done0: seq<ListHead>, ghost a: int, ghost v: ListView)
    returns (list: ListHead?, tail: ListHead?, q: ListHead?, ghost done: seq<ListHead>, ghost end: int,
            ghost w: ListView, ghost comparisons: nat)
    requires cmp.ByValue? ==> res != null
    requires insize > 0 && 0 <= a < |nodes| && p == nodes[a] &&
             MergeHeap(nodes, Places(nodes), done0, head, last, a, a, a)
    requires PassOrdered(v, nodes, done0, a, insize)
    requires Tracks(v, cmp, res) && Known(v, nodes)
    modifies v.info.Keys`next, v.info.Values`data16, ResultsOf(res)`crc, ResultsOf(res)`crcstate,
             ResultsOf(res)`crcmatrix
    ensures end == Min(a + 2 * insize, |nodes|) && q == NodeAt(nodes, end)
    ensures MergeHeap(nodes, Places(nodes), done, list, tail, end, end, end)
    ensures PassOrdered(w, nodes, done, end, insize)
    ensures Tracks(w, cmp, res) && Extends(v, w)
    ensures comparisons <= end - a
    ensures forall d :: d in v.info.Values ==> Kept(cmp, old(d.data16), d.data16)
  {
    hide Upper, Plain, Value, KeyOf, SettledItem, Tracks, PassOrdered, MergeOrdered, Within, Known, Places, Consumed,
         Chained, Ends, Placed, Extends;
    ghost var place := Places(nodes);
    var psize;
    q, psize := StepAlong(p, insize, nodes, a);
    ghost var m := a + psize;
    end := Min(m + insize, |nodes|);
    CutRuns(v, nodes, done0, a, insize, m, end);
    TracksSettled(v, cmp, res);
    ghost var block;
    list, tail, q, block, w, comparisons := MergeRuns(cmp, p, q, psize, insize, head, last, res, nodes, place, done0, a,
        end, v);
    done := done0 + block;
    EndMerge(nodes, place, done, list, tail, m, end);
    BlockMembers(nodes, place, block, a, end);
    JoinBlock(v, w, nodes, done0, block, a, insize, m, end);
  }

  method EndList(list: ListHead?, tail: ListHead, ghost done: seq<ListHead>)
    requires Distinct(done) && Ends(list, tail, done) && Chained(done)
    modifies tail`next
    ensures IsList(list, done)
  {
    tail.next := null;
  }

  lemma ExtendsItself(v: ListView)
    ensures Extends(v, v)
  {
  }

  lemma KnownMember(v: ListView, nodes: seq<ListHead>, n: ListHead)
    requires Known(v, nodes) && n in nodes
    ensures n in v.info
  {
  }

  lemma HeapEnds(nodes: seq<ListHead>, place: map<ListHead, int>, done: seq<ListHead>, list: ListHead?, tail: ListHead?,
                 a: int)
    requires MergeHeap(nodes, place, done, list, tail, a, a, a)
    ensures Ends(list, tail, done) && Chained(done)
  {
  }

  lemma PassOrderedEnds(v: ListView, nodes: seq<ListHead>, done: seq<ListHead>, k: nat)
    requires PassOrdered(v, nodes, done, |nodes|, k)
    ensures Runs(v, done, 2 * k)
  {
  }

  /** Merge all pairs of runs of length insize. */
  method SortPass(cmp: Comparator, start: ListHead, insize: nat, res: CoreResults?, ghost nodes: seq<ListHead>,
                  ghost v: ListView)
    returns (list: ListHead?, nmerges: nat, ghost done: seq<ListHead>, ghost w: ListView, ghost comparisons: nat)
    requires cmp.ByValue? ==> res != null
    requires insize > 0 && IsList(start, nodes) && Runs(v, nodes, insize)
    requires Tracks(v, cmp, res) && Known(v, nodes)
    modifies v.info.Keys`next, v.info.Values`data16, ResultsOf(res)`crc, ResultsOf(res)`crcstate,
             ResultsOf(res)`crcmatrix
    ensures list != null && IsList(list, done) && Permuted(done, nodes)
    ensures Runs(w, done, 2 * insize)
    ensures nmerges <= 1 <==> |nodes| <= 2 * insize
    ensures Tracks(w, cmp, res) && Extends(v, w)
    ensures comparisons <= |nodes|
    ensures forall d :: d in v.info.Values ==> Kept(cmp, old(d.data16), d.data16)
  {
    hide Upper, Plain, Value, KeyOf, SettledItem, Tracks, PassOrdered, Known, Extends, MergeHeap, Runs, FullRuns,
         Chained, Consumed, Earlier;
    var p: ListHead? := start;
    ghost var a := 0;
    var tail: ListHead?;
    list, tail, nmerges := null, null, 0;
    done, w, comparisons := [], v, 0;
    PassBegins(nodes, start, v, insize);
    ExtendsItself(v);
    while p != null
      invariant 0 <= a <= |nodes| && p == NodeAt(nodes, a)
      invariant MergeHeap(nodes, Places(nodes), done, list, tail, a, a, a)
      invariant PassOrdered(w, nodes, done, a, insize)
      invariant Tracks(w, cmp, res) && Extends(v, w) && Known(w, nodes) && w.info == v.info
      invariant comparisons <= a
      invariant if nmerges == 0 then a == 0 else if nmerges == 1 then a == Min(2 * insize, |nodes|)
                else |nodes| > 2 * insize
      invariant forall d :: d in v.info.Values ==> Kept(cmp, old(d.data16), d.data16)
      decreases |nodes| - a
    {
      nmerges := nmerges + 1;
      ghost var u, compared := w, 0;
      list, tail, p, done, a, w, compared := MergeAt(cmp, p, insize, list, tail, res, nodes, done, a, w);
      comparisons := comparisons + compared;
      ExtendsFurther(v, u, w);
      KnownStill(u, w, nodes);
    }
    assert a == |nodes|;
    PassOrderedEnds(w, nodes, done, insize);
    AllConsumed(nodes, Places(nodes), done, list, tail);
    HeapEnds(nodes, Places(nodes), done, list, tail, a);
    assert tail in v.info by {
      KnownMember(v, nodes, tail);
    }
    EndList(list, tail, done);
  }

  // ---------------------------------------------------------------- the sort

  ghost predicate SortedBy(cmp: Comparator, nodes: seq<ListHead>)
    reads nodes`info, set n | n in nodes :: n.info
  {
    forall x, y :: 0 <= x < y < |nodes| ==> KeyOf(cmp, nodes[x].info) <= KeyOf(cmp, nodes[y].info)
  }

  /** Nodes with equal keys keep their order. */
  ghost predicate Stable(cmp: Comparator, nodes: seq<ListHead>, sorted: seq<ListHead>)
    reads nodes`info, sorted`info, set n | n in nodes :: n.info, set n | n in sorted :: n.info
  {
    forall a, b, x, y ::
      0 <= a < b < |nodes| && 0 <= x < |sorted| && 0 <= y < |sorted| && nodes[a] == sorted[x] && nodes[b] == sorted[y]
      && KeyOf(cmp, nodes[a].info) == KeyOf(cmp, nodes[b].info)
      ==> x < y
  }

  /** The comparisons of so many passes over n nodes. */
  ghost function Work(passes: nat, n: nat): nat {
    passes * n
  }

  /** The number of passes from runs of length k on. */
  ghost function Passes(k: nat, n: nat): nat
    requires k > 0
    decreases n - k
  {
    if n <= 2 * k then 1 else 1 + Passes(2 * k, n)
  }

  lemma PassesStep(k: nat, n: nat)
    requires k > 0
    ensures Passes(k, n) == if n <= 2 * k then 1 else 1 + Passes(2 * k, n)
  {
  }

  lemma PowerStep(k: nat, r: nat)
    ensures k * Pow2(r + 1) == 2 * k * Pow2(r)
  {
    assert Pow2(r + 1) == 2 * Pow2(r);
  }

  lemma {:induction false} PassesDouble(k: nat, n: nat)
    requires k > 0
    ensures n <= k * Pow2(Passes(k, n))
    ensures Passes(k, n) > 1 ==> n > k * Pow2(Passes(k, n) - 1)
    ensures Passes(k, n) >= 1
    decreases n - k
  {
    hide Pow2;
    PowerStep(k, 0);
    assert Pow2(0) == 1 by {
      PowerZero();
    }
    if n > 2 * k {
      PassesDouble(2 * k, n);
      var r := Passes(2 * k, n);
      PowerStep(k, r);
      PowerStep(k, r - 1);
    }
  }

  lemma PowerZero()
    ensures Pow2(0) == 1
  {
  }

  /** The number of passes is the binary logarithm of the length, rounded up, but at least 1. */
  lemma PassesIsLogarithm(n: nat)
    ensures 1 <= Passes(1, n) && n <= Pow2(Passes(1, n))
    ensures Passes(1, n) > 1 ==> n > Pow2(Passes(1, n) - 1)
  {
    PassesDouble(1, n);
  }

  lemma OneRun(list: ListHead, v: ListView, s: seq<ListHead>, k: nat)
    requires k > 0 && Runs(v, s, k) && IsList(list, s) && |s| <= k
    ensures SortedRun(v, s)
  {
    assert s[..|s|] == s;
  }

  ghost function Infos(nodes: seq<ListHead>): set<ListData>
    reads nodes`info
  {
    set n | n in nodes :: n.info
  }

  /** The view before anything has been compared. */
  ghost function FirstView(nodes: seq<ListHead>): ListView
    reads nodes`info
  {
    View(map n | n in nodes :: n.info, map[], {}, Places(nodes))
  }

  lemma SortBegins(start: ListHead, nodes: seq<ListHead>, cmp: Comparator, res: CoreResults?)
    requires IsList(start, nodes)
    ensures Distinct(nodes)
    ensures var v := FirstView(nodes);
            && Tracks(v, cmp, res) && Known(v, nodes) && Runs(v, nodes, 1)
            && (forall n :: n in v.info.Keys ==> n in nodes) && v.info.Values == Infos(nodes) && v.pos == Places(nodes)
  {
    SingletonRuns(FirstView(nodes), nodes);
  }

  lemma KeysAreTracked(v: ListView, cmp: Comparator, res: CoreResults?, n: ListHead)
    requires Tracks(v, cmp, res) && IsTouched(v, n)
    ensures Key(v, n) == KeyOf(cmp, n.info) && SettledItem(cmp, res, n.info)
  {
    hide KeyOf, SettledItem;
  }

  lemma SortEnds(list: ListHead?, nodes: seq<ListHead>, sorted: seq<ListHead>, v: ListView, cmp: Comparator,
                 res: CoreResults?)
    requires Distinct(nodes) && IsList(list, sorted) && Permuted(sorted, nodes)
    requires Tracks(v, cmp, res) && v.pos == Places(nodes) && SortedRun(v, sorted)
    ensures SortedBy(cmp, sorted) && Stable(cmp, nodes, sorted)
    ensures |nodes| >= 2 ==> forall n :: n in nodes ==> SettledItem(cmp, res, n.info)
  {
    hide Tracks, KeyOf, SettledItem, Places, Runs;
    assert |nodes| == |multiset(nodes)| == |sorted|;
    if |nodes| >= 2 {
      forall x | 0 <= x < |sorted|
        ensures Key(v, sorted[x]) == KeyOf(cmp, sorted[x].info) && SettledItem(cmp, res, sorted[x].info)
      {
        assert IsTouched(v, sorted[x]);
        KeysAreTracked(v, cmp, res, sorted[x]);
      }
      forall n | n in nodes
        ensures SettledItem(cmp, res, n.info)
      {
        assert n in multiset(nodes) && n in sorted;
      }
      SortedIsStable(nodes, sorted, v, cmp);
    }
  }

  lemma SortedIsStable(nodes: seq<ListHead>, sorted: seq<ListHead>, v: ListView, cmp: Comparator)
    requires Distinct(nodes) && Ordered(v, sorted) && v.pos == Places(nodes)
    requires forall x :: 0 <= x < |sorted| ==> Key(v, sorted[x]) == KeyOf(cmp, sorted[x].info)
    ensures SortedBy(cmp, sorted) && Stable(cmp, nodes, sorted)
  {
    hide Key, KeyOf, Places;
    forall x, y | 0 <= x < y < |sorted|
      ensures KeyOf(cmp, sorted[x].info) <= KeyOf(cmp, sorted[y].info)
    {
      assert Before(v, sorted[x], sorted[y]);
    }
    forall a, b, x, y | 0 <= a < b < |nodes| && 0 <= x < |sorted| && 0 <= y < |sorted| && nodes[a] == sorted[x] &&
        nodes[b] == sorted[y]
                        && KeyOf(cmp, nodes[a].info) == KeyOf(cmp, nodes[b].info)
      ensures x < y
    {
      assert Pos(v, nodes[a]) == a && Pos(v, nodes[b]) == b;
    }
  }

  /** The loop over the passes, from runs of length 1. */
  method SortPasses(start: ListHead, cmp: Comparator, res: CoreResults?, ghost nodes: seq<ListHead>, ghost v: ListView)
    returns (list: ListHead?, ghost sorted: seq<ListHead>, ghost w: ListView, ghost comparisons: nat)
    requires cmp.ByValue? ==> res != null
    requires IsList(start, nodes) && Tracks(v, cmp, res) && Known(v, nodes) && Runs(v, nodes, 1)
    modifies v.info.Keys`next, v.info.Values`data16, ResultsOf(res)`crc, ResultsOf(res)`crcstate,
             ResultsOf(res)`crcmatrix
    ensures list != null && IsList(list, sorted) && Permuted(sorted, nodes)
    ensures Tracks(w, cmp, res) && SortedRun(w, sorted) && w.info == v.info && w.pos == v.pos
    ensures forall d :: d in v.info.Values ==> Kept(cmp, old(d.data16), d.data16)
    ensures comparisons <= Work(Passes(1, |nodes|), |nodes|)
  {
    hide Upper, Plain, Value, KeyOf, SettledItem, Tracks, Known, Extends, Runs, SortedRun, Pow2, Permuted, Work,
         IsTouched, Settled;
    hide Passes, IsList, NodeAt, Distinct;
    list := start;
    var insize := 1;
    sorted, comparisons, w := nodes, 0, v;
    assert Permuted(nodes, nodes) && Work(0, |nodes|) == 0 by {
      NothingDone(nodes);
    }
    ghost var rounds := 0;
    while true
      invariant insize > 0 && (insize == 1 || insize < |nodes|)
      invariant list != null && IsList(list, sorted) && Permuted(sorted, nodes) && |sorted| == |nodes|
      invariant Tracks(w, cmp, res) && Known(w, sorted) && Runs(w, sorted, insize)
      invariant w.info == v.info && w.pos == v.pos
      invariant Passes(1, |nodes|) == rounds + Passes(insize, |nodes|) && comparisons <= Work(rounds, |nodes|)
      invariant forall d :: d in v.info.Values ==> Kept(cmp, old(d.data16), d.data16)
      decreases |nodes| - insize
    {
      ghost var u, was := w, sorted;
      var nmerges;
      ghost var compared;
      list, nmerges, sorted, w, compared := SortPass(cmp, list, insize, res, sorted, w);
      PassCounted(rounds, |nodes|, comparisons, compared);
      comparisons, rounds := comparisons + compared, rounds + 1;
      AfterPass(u, w, was, sorted, nodes);
      PassesStep(insize, |nodes|);
      if nmerges <= 1 {
        OneRun(list, w, sorted, 2 * insize);
        return;
      }
      insize := 2 * insize;
    }
  }

  /** Sort the list in place: the same nodes, in order of their keys, equal keys in their old
      order. Every item of a list of at least two nodes is compared, hence settled. */
  method MergeSort(start: ListHead, cmp: Comparator, res: CoreResults?, ghost nodes: seq<ListHead>)
    returns (list: ListHead, ghost sorted: seq<ListHead>, ghost comparisons: nat)
    requires cmp.ByValue? ==> res != null
    requires IsList(start, nodes)
    modifies nodes`next, Infos(nodes)`data16, ResultsOf(res)`crc, ResultsOf(res)`crcstate, ResultsOf(res)`crcmatrix
    ensures IsList(list, sorted) && Permuted(sorted, nodes)
    ensures SortedBy(cmp, sorted) && Stable(cmp, nodes, sorted)
    ensures |nodes| >= 2 ==> forall n :: n in nodes ==> SettledItem(cmp, res, n.info)
    ensures forall d :: d in Infos(nodes) ==> Kept(cmp, old(d.data16), d.data16)
    ensures comparisons <= Passes(1, |nodes|) * |nodes|
  {
    hide Upper, Plain, Value, KeyOf, SettledItem, Tracks, Known, Runs, SortedRun, Places, SortedBy, Stable, Permuted,
         Work, Passes;
    hide Infos, FirstView, IsList, NodeAt, Distinct;
    ghost var v := FirstView(nodes);
    ghost var w;
    SortBegins(start, nodes, cmp, res);
    var head;
    head, sorted, w, comparisons := SortPasses(start, cmp, res, nodes, v);
    list := head;
    SortEnds(list, nodes, sorted, w, cmp, res);
    WorkIs(Passes(1, |nodes|), |nodes|);
  }

  lemma WorkIs(passes: nat, n: nat)
    ensures Work(passes, n) == passes * n
  {
  }

  lemma SameLength(a: seq<ListHead>, b: seq<ListHead>)
    requires Permuted(a, b)
    ensures |a| == |b|
  {
    assert |a| == |multiset(a)|;
  }

  lemma NothingDone(a: seq<ListHead>)
    ensures Permuted(a, a) && Work(0, |a|) == 0
  {
  }

  lemma AfterPass(u: ListView, w: ListView, was: seq<ListHead>, sorted: seq<ListHead>, nodes: seq<ListHead>)
    requires Extends(u, w) && Known(u, was) && Permuted(sorted, was) && Permuted(was, nodes)
    ensures Known(w, sorted) && Permuted(sorted, nodes) && |sorted| == |nodes|
    ensures w.info == u.info && w.pos == u.pos
  {
    SameLength(sorted, nodes);
    KnownPermuted(u, was, sorted);
  }

  lemma KnownPermuted(v: ListView, a: seq<ListHead>, b: seq<ListHead>)
    requires Known(v, a) && Permuted(b, a)
    ensures Known(v, b)
  {
    forall k | 0 <= k < |b|
      ensures b[k] in v.info
    {
      assert b[k] in multiset(a) && b[k] in a;
    }
  }

  lemma PassCounted(rounds: nat, n: nat, comparisons: nat, compared: nat)
    requires comparisons <= Work(rounds, n) && compared <= n
    ensures comparisons + compared <= Work(rounds + 1, n)
  {
  }

  // ---------------------------------------------------------------- permutations

  lemma SamePermutes(a: seq<ListHead>)
    ensures Permuted(a, a)
  {
  }

  lemma PermutedFurther(a: seq<ListHead>, b: seq<ListHead>, c: seq<ListHead>)
    requires Permuted(a, b) && Permuted(b, c)
    ensures Permuted(a, c)
  {
  }

  lemma {:induction false} ReversedPermutes(nodes: seq<ListHead>)
    ensures Permuted(Reversed(nodes), nodes)
    decreases |nodes|
  {
    if nodes != [] {
      var rest := nodes[1..];
      ReversedPermutes(rest);
      assert nodes == [nodes[0]] + rest;
      assert Reversed(nodes) == Reversed(rest) + [nodes[0]];
    }
  }

  lemma MovedTo(from: seq<ListHead>, to: seq<ListHead>, i: nat) returns (j: nat)
    requires Permuted(from, to) && i < |from|
    ensures j < |to| && to[j] == from[i]
  {
    assert from[i] in multiset(from) && from[i] in multiset(to);
    j :| 0 <= j < |to| && to[j] == from[i];
  }

  lemma PermutedBack(a: seq<ListHead>, b: seq<ListHead>)
    requires Permuted(a, b)
    ensures Permuted(b, a) && |a| == |b|
  {
    SameLength(a, b);
  }
}
