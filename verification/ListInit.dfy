/** Building the list in a memory block. */
module ListInit {
  import opened CoreList
  import opened ListBench
  import opened ListSort

  // ---------------------------------------------------------------- layout of the block

  const PER_ITEM: nat := 20
  const HEAD_BYTES: nat := 8
  const ITEM_BYTES: nat := 4

  /** The number of cells that the block is divided into; the count is unsigned. */
  function CellCount(blksize: nat): int {
    blksize / PER_ITEM - 2
  }

  function HeadAt(size: nat, i: nat): nat
    requires i < size
  {
    HEAD_BYTES * i
  }

  function ItemAt(size: nat, i: nat): nat
    requires i < size
  {
    HEAD_BYTES * size + ITEM_BYTES * i
  }

  /** Two cells less than fit the block, and each cell right behind the one before it. */
  lemma CellsAre(blksize: nat, i: nat)
    ensures (CellCount(blksize) + 2) * 20 <= blksize < (CellCount(blksize) + 3) * 20
    ensures var size := CellCount(blksize);
            i + 1 < size ==>
              && HeadAt(size, 0) == 0 && HeadAt(size, i + 1) - HeadAt(size, i) == 8
              && ItemAt(size, 0) == HeadAt(size, size - 1) + 8 && ItemAt(size, i + 1) - ItemAt(size, i) == 4
  {
  }

  /** All headers lie in front of all items, no two cells overlap, and all are in the block. */
  lemma CellsAreDisjoint(blksize: nat, i: nat, j: nat)
    requires var size := CellCount(blksize); i < size && j < size
    ensures var size := CellCount(blksize);
            && HeadAt(size, i) + HEAD_BYTES <= ItemAt(size, j)
            && ItemAt(size, j) + ITEM_BYTES <= blksize
            && (i < j ==>
                HeadAt(size, i) + HEAD_BYTES <= HeadAt(size, j) && ItemAt(size, i) + ITEM_BYTES <= ItemAt(size, j))
  {
  }

  // ---------------------------------------------------------------- patterns

  /** The seven-bit pattern of the i-th item, in both bytes. */
  function Pattern(i: bv16, seed: bv16): bv16 {
    var datpat := (seed ^ i) & 0xF;
    var dat := (datpat << 3) | (i & 7);
    (dat << 8) | dat
  }

  /** Four bits of the mixture and three of the number, in both bytes. */
  lemma PatternIs(i: bv16, seed: bv16)
    ensures Pattern(i, seed) == ((seed ^ i) % 16 * 8 + i % 8) * 257
  {
  }

  lemma PatternIsRegular(i: bv16, seed: bv16)
    ensures Regen(Pattern(i, seed)) == Pattern(i, seed)
    ensures !Cached(Pattern(i, seed))
  {
  }

  function Mixed(i: bv16, next: bv16, seed: bv16): bv16 {
    ((next & 7) << 8) | (i ^ seed)
  }

  /** The low 14 bits as a number. */
  function Index14(v: bv16): (r: Int16)
    ensures 0 <= r <= 0x3FFF
  {
    ((v & 0x3FFF) as bv14) as int as Int16
  }

  function Wrap16(i: nat): Int16 {
    var u := i % 0x1_0000;
    (if u < 0x8000 then u else u - 0x1_0000) as Int16
  }

  /** The idx of the node at position i of the new list: in order for the first fifth, mixed
      up behind that. */
  function IdxAt(i: nat, size: nat, seed: bv16): Int16 {
    if i < size / 5 then Wrap16(i) else Index14(Mixed(Wrapped(i), Wrapped(i + 1), seed))
  }

  lemma MixedIs(i: bv16, next: bv16, seed: bv16)
    ensures Mixed(i, next, seed) % 0x4000 == ((next % 8) | ((seed ^ i) / 256)) % 64 * 256 + (seed ^ i) % 256
  {
  }

  lemma Index14Is(v: bv16)
    ensures Index14(v) as int == (v % 0x4000) as int
  {
  }

  lemma Wrap16Is(i: nat)
    ensures (i - Wrap16(i) as int) % 0x1_0000 == 0
  {
  }

  /** The first fifth has its number, in 16 bits. Behind that, the low byte is that of the number mixed
      with the seed, and the next number goes into the low three bits of the upper byte. */
  lemma IdxMeans(i: nat, size: nat, seed: bv16)
    ensures i < size / 5 ==> (i - IdxAt(i, size, seed) as int) % 0x1_0000 == 0
    ensures i >= size / 5 ==>
              var mixed := seed ^ Wrapped(i);
              IdxAt(i, size, seed) as int == (((Wrapped(i + 1) % 8) | (mixed / 256)) % 64 * 256 + mixed % 256) as int
  {
    hide Wrapped, Mixed, Index14, Wrap16;
    Wrap16Is(i);
    MixedIs(Wrapped(i), Wrapped(i + 1), seed);
    Index14Is(Mixed(Wrapped(i), Wrapped(i + 1), seed));
  }

  // ---------------------------------------------------------------- insertion

  ghost predicate DistinctItems(items: seq<ListData>) {
    forall i, j :: 0 <= i < j < |items| ==> items[i] != items[j]
  }

  /** Insert a new item behind insertPoint, unless that would use the last cell. */
  method InsertNew(insertPoint: ListHead, idx: Int16, data16: bv16, heads: seq<ListHead>, items: seq<ListData>,
                   memblock0: nat, datablock0: nat, ghost nodes: seq<ListHead>)
    returns (newitem: ListHead?, memblock: nat, datablock: nat)
    requires IsList(insertPoint, nodes)
    requires memblock0 < |heads| ==> heads[memblock0] !in nodes
    modifies heads`next, heads`info, insertPoint`next, items`data16, items`idx
    ensures newitem == null <==> memblock0 + 1 >= |heads| || datablock0 + 1 >= |items|
    ensures newitem == null ==> memblock == memblock0 && datablock == datablock0 && IsList(insertPoint, nodes)
    ensures newitem == null ==>
            forall i :: 0 <= i < |items| ==>
            items[i].data16 == old(items[i].data16) && items[i].idx == old(items[i].idx)
    ensures newitem == null ==> forall i :: 0 <= i < |heads| ==> heads[i].info == old(heads[i].info)
    ensures newitem != null ==>
              && newitem == heads[memblock0] && memblock == memblock0 + 1 && datablock == datablock0 + 1
              && newitem.info == items[datablock0] && items[datablock0].data16 == data16 && items[datablock0].idx == idx
              && IsList(insertPoint, [insertPoint, newitem] + nodes[1..])
              && (forall i :: 0 <= i < |items| && items[i] != items[datablock0] ==>
                    items[i].data16 == old(items[i].data16) && items[i].idx == old(items[i].idx))
              && (forall i :: 0 <= i < |heads| && heads[i] != newitem ==> heads[i].info == old(heads[i].info))
  {
    memblock, datablock := memblock0, datablock0;
    if memblock + 1 >= |heads| || datablock + 1 >= |items| {
      return null, memblock, datablock;
    }
    newitem := heads[memblock];
    memblock := memblock + 1;
    assert insertPoint == nodes[0] && nodes[0].next == NodeAt(nodes, 1);
    newitem.next := insertPoint.next;
    insertPoint.next := newitem;
    newitem.info := items[datablock];
    datablock := datablock + 1;
    newitem.info.data16 := data16;
    newitem.info.idx := idx;
    Inserted(insertPoint, newitem, nodes);
  }

  lemma Inserted(list: ListHead, newitem: ListHead, nodes: seq<ListHead>)
    requires nodes != [] && list == nodes[0] && Distinct(nodes) && newitem !in nodes
    requires list.next == newitem && newitem.next == NodeAt(nodes, 1)
    requires forall i {:trigger nodes[i].next} :: 1 <= i < |nodes| ==> nodes[i].next == NodeAt(nodes, i + 1)
    ensures IsList(list, [list, newitem] + nodes[1..])
  {
    var r := [list, newitem] + nodes[1..];
    forall i | 2 <= i < |r|
      ensures r[i] == nodes[i - 1]
    {
    }
    forall i, j | 0 <= i < j < |r|
      ensures r[i] != r[j]
    {
    }
    forall i | 0 <= i < |r|
      ensures r[i].next == NodeAt(r, i + 1)
    {
      if i >= 2 {
        assert nodes[i - 1].next == NodeAt(nodes, i);
      }
    }
  }

  // ---------------------------------------------------------------- filling the block

  /** The order in which m cells are linked: the head, then the last cell first. */
  function Built(heads: seq<ListHead>, m: nat): (r: seq<ListHead>)
    requires 1 <= m <= |heads|
    ensures |r| == m && r[0] == heads[0]
  {
    [heads[0]] + Reversed(heads[1..m])
  }

  lemma BuiltAt(heads: seq<ListHead>, m: nat, p: nat)
    requires 1 <= p < m <= |heads|
    ensures Built(heads, m)[p] == heads[m - p]
  {
  }

  lemma BuiltMore(heads: seq<ListHead>, m: nat)
    requires 1 <= m < |heads|
    ensures [heads[0], heads[m]] + Built(heads, m)[1..] == Built(heads, m + 1)
  {
    var r := [heads[0], heads[m]] + Built(heads, m)[1..];
    forall p | 0 <= p <= m
      ensures r[p] == Built(heads, m + 1)[p]
    {
      if p > 0 {
        BuiltAt(heads, m + 1, p);
      }
      if p > 1 {
        BuiltAt(heads, m, p - 1);
      }
    }
  }

  lemma BuiltMembers(heads: seq<ListHead>, m: nat)
    requires 1 <= m <= |heads| && Distinct(heads)
    ensures forall p :: 0 <= p < m ==> Built(heads, m)[p] in heads
    ensures forall j :: 0 <= j < m ==> heads[j] in Built(heads, m)
    ensures m < |heads| ==> heads[m] !in Built(heads, m)
  {
    forall p | 0 <= p < m
      ensures Built(heads, m)[p] in heads[..m]
    {
      if p > 0 {
        BuiltAt(heads, m, p);
        assert heads[..m][m - p] == heads[m - p];
      } else {
        assert heads[..m][0] == heads[0];
      }
    }
    forall j | 0 <= j < m
      ensures heads[j] in Built(heads, m)
    {
      if j > 0 {
        BuiltAt(heads, m, m - j);
      }
    }
  }

  /** What the first m items hold before they are indexed. */
  ghost predicate Filled(heads: seq<ListHead>, items: seq<ListData>, m: nat, seed: bv16)
    reads heads`info, items`data16, items`idx
  {
    && 1 <= m <= |heads| == |items|
    && (forall j :: 0 <= j < m ==> heads[j].info == items[j])
    && items[0].idx == 0 && items[0].data16 == 0x8080
    && (m >= 2 ==> items[1].data16 == 0xFFFF)
    && (forall j :: 1 <= j < m ==> items[j].idx == 0x7FFF)
    && (forall j :: 2 <= j < m ==> items[j].data16 == Pattern(Wrapped(j - 2), seed))
  }

  /** Insert the next cell, if there is one left. */
  method FillNext(list: ListHead, data16: bv16, heads: seq<ListHead>, items: seq<ListData>, memblock0: nat,
                  datablock0: nat, ghost seed: bv16)
    returns (memblock: nat, datablock: nat)
    requires Distinct(heads) && DistinctItems(items) && memblock0 == datablock0 < |heads|
    requires Filled(heads, items, memblock0, seed) && list == heads[0] && IsList(list, Built(heads, memblock0))
    requires memblock0 + 1 < |heads| ==> data16 == if memblock0 == 1 then 0xFFFF
             else Pattern(Wrapped(memblock0 - 2), seed)
    modifies heads`next, heads`info, items`data16, items`idx
    ensures memblock == datablock == if memblock0 + 1 < |heads| then memblock0 + 1 else memblock0
    ensures Filled(heads, items, memblock, seed) && IsList(list, Built(heads, memblock))
  {
    hide IsList, Built, Pattern, Wrapped;
    BuiltMembers(heads, memblock0);
    BuiltMore(heads, memblock0);
    var newitem;
    newitem, memblock, datablock := InsertNew(list, 0x7FFF, data16, heads, items, memblock0, datablock0,
        Built(heads, memblock0));
  }

  method FillList(heads: seq<ListHead>, items: seq<ListData>, seed: bv16) returns (list: ListHead)
    requires |heads| == |items| >= 3 && Distinct(heads) && DistinctItems(items)
    modifies heads`next, heads`info, items`data16, items`idx
    ensures list == heads[0] && IsList(list, Built(heads, |heads| - 1))
    ensures Filled(heads, items, |heads| - 1, seed)
  {
    hide IsList, Built, Pattern, Wrapped, Distinct, DistinctItems;
    var size := |heads|;
    list := heads[0];
    list.next := null;
    list.info := items[0];
    list.info.idx := 0;
    list.info.data16 := 0x8080;
    StartList(heads);
    var memblock, datablock := FillNext(list, 0xFFFF, heads, items, 1, 1, seed);
    hide Filled;
    for i := 0 to size
      invariant memblock == datablock == if i + 2 < size then i + 2 else size - 1
      invariant IsList(list, Built(heads, memblock))
      invariant Filled(heads, items, memblock, seed)
    {
      memblock, datablock := FillNext(list, Pattern(Wrapped(i), seed), heads, items, memblock, datablock, seed);
    }
  }

  lemma StartList(heads: seq<ListHead>)
    requires heads != [] && heads[0].next == null
    ensures IsList(heads[0], Built(heads, 1))
  {
  }

  // ---------------------------------------------------------------- indexing

  /** What the items hold once all inner nodes have an idx. */
  ghost predicate Indexed(items: seq<ListData>, size: nat, seed: bv16)
    reads items`data16, items`idx
  {
    && 3 <= size == |items|
    && items[0].idx == 0 && items[0].data16 == 0x8080
    && items[1].idx == 0x7FFF && items[1].data16 == 0xFFFF
    && (forall j :: 2 <= j < size - 1 ==>
        items[j].data16 == Pattern(Wrapped(j - 2), seed) && items[j].idx == IdxAt(size - 1 - j, size, seed))
  }

  method IndexList(list: ListHead, heads: seq<ListHead>, items: seq<ListData>, seed: bv16)
    requires |heads| == |items| >= 3 && Distinct(heads) && DistinctItems(items)
    requires list == heads[0] && IsList(list, Built(heads, |heads| - 1)) && Filled(heads, items, |heads| - 1, seed)
    modifies items`idx
    ensures Indexed(items, |heads|, seed)
  {
    hide Built, Pattern, Wrapped, IdxAt, Wrap16, Index14, Mixed;
    var size := |heads|;
    ghost var nodes := Built(heads, size - 1);
    assert nodes[0].next == NodeAt(nodes, 1);
    BuiltAt(heads, size - 1, 1);
    var finder := list.next;
    var i := 1;
    while finder.next != null
      invariant 1 <= i <= size - 2 && finder == nodes[i] == heads[size - 1 - i]
      invariant items[0].idx == 0 && items[1].idx == 0x7FFF
      invariant forall j :: size - 1 - i < j < size - 1 ==> items[j].idx == IdxAt(size - 1 - j, size, seed)
      decreases size - i
    {
      assert nodes[i].next == NodeAt(nodes, i + 1);
      finder.info.idx := IdxAt(i, size, seed);
      i := i + 1;
      finder := finder.next;
      BuiltAt(heads, size - 1, i);
    }
    assert nodes[i].next == NodeAt(nodes, i + 1);
  }

  // ---------------------------------------------------------------- the result

  /** The keys that the sort sees: at each position of the list as built. */
  ghost predicate Keyed(heads: seq<ListHead>, size: nat, seed: bv16)
    requires |heads| == size >= 3
    reads heads`info, Infos(heads)`idx
  {
    var nodes := Built(heads, size - 1);
    && nodes[0].info.idx == 0 && nodes[size - 2].info.idx == 0x7FFF
    && forall p {:trigger nodes[p]} :: 1 <= p < size - 2 ==> nodes[p].info.idx == IdxAt(p, size, seed)
  }

  lemma IndexedKeys(heads: seq<ListHead>, items: seq<ListData>, seed: bv16)
    requires |heads| == |items| >= 3 && Indexed(items, |heads|, seed)
    requires forall j :: 0 <= j < |heads| - 1 ==> heads[j].info == items[j]
    ensures Keyed(heads, |heads|, seed)
  {
    hide IdxAt, Pattern, Built;
    var size := |heads|;
    var nodes := Built(heads, size - 1);
    BuiltAt(heads, size - 1, size - 2);
    forall p | 1 <= p < size - 2
      ensures nodes[p].info.idx == IdxAt(p, size, seed)
    {
      BuiltAt(heads, size - 1, p);
    }
  }

  lemma IdxRange(i: nat, size: nat, seed: bv16)
    requires size / 5 <= 0x8000
    ensures IdxAt(i, size, seed) >= 0
  {
  }

  lemma IdxWraps(size: nat, seed: bv16)
    requires size / 5 > 0x8000
    ensures IdxAt(0x8000, size, seed) < 0 && 0x8000 < size - 2
  {
  }

  /** A last node with no smaller key than any other stays last. */
  lemma GreatestStaysLast(nodes: seq<ListHead>, sorted: seq<ListHead>)
    requires SortedBy(ByIdx, sorted) && Stable(ByIdx, nodes, sorted) && Permuted(sorted, nodes) && nodes != []
    requires forall b :: 0 <= b < |nodes| ==> KeyOf(ByIdx, nodes[b].info) <= KeyOf(ByIdx, nodes[|nodes| - 1].info)
    ensures |sorted| == |nodes| && sorted[|nodes| - 1] == nodes[|nodes| - 1]
  {
    hide Permuted, KeyOf;
    var last := |nodes| - 1;
    PermutedBack(sorted, nodes);
    var b := MovedTo(sorted, nodes, last);
    var a := MovedTo(nodes, sorted, last);
    if a < last {
      assert KeyOf(ByIdx, sorted[a].info) <= KeyOf(ByIdx, sorted[last].info);
    }
  }

  /** The first node stays first exactly when no other has a smaller key. */
  lemma LeastStaysFirst(nodes: seq<ListHead>, sorted: seq<ListHead>)
    requires SortedBy(ByIdx, sorted) && Stable(ByIdx, nodes, sorted) && Permuted(sorted, nodes) && nodes != []
    ensures |sorted| == |nodes|
    ensures sorted[0] == nodes[0] <==>
            forall b :: 0 <= b < |nodes| ==> KeyOf(ByIdx, nodes[0].info) <= KeyOf(ByIdx, nodes[b].info)
  {
    hide Permuted, KeyOf;
    PermutedBack(sorted, nodes);
    var b := MovedTo(sorted, nodes, 0);
    var a := MovedTo(nodes, sorted, 0);
    if a > 0 {
      assert KeyOf(ByIdx, sorted[0].info) <= KeyOf(ByIdx, sorted[a].info);
    }
    forall c | 0 <= c < |nodes| && sorted[0] == nodes[0]
      ensures KeyOf(ByIdx, nodes[0].info) <= KeyOf(ByIdx, nodes[c].info)
    {
      var d := MovedTo(nodes, sorted, c);
      if d > 0 {
        assert KeyOf(ByIdx, sorted[0].info) <= KeyOf(ByIdx, sorted[d].info);
      }
    }
  }

  /** The idx of the fake tail is the greatest; the idx of the fake head is the least exactly
      when the numbers given in order fit 16 bits. */
  lemma FakeKeys(heads: seq<ListHead>, size: nat, seed: bv16)
    requires |heads| == size >= 3 && Keyed(heads, size, seed)
    ensures var nodes := Built(heads, size - 1);
            && (forall b :: 0 <= b < |nodes| ==> KeyOf(ByIdx, nodes[b].info) <= KeyOf(ByIdx, nodes[size - 2].info))
            && ((forall b :: 0 <= b < |nodes| ==> KeyOf(ByIdx, nodes[0].info) <= KeyOf(ByIdx, nodes[b].info)) <==>
                size / 5 <= 0x8000)
  {
    hide Built, IdxAt;
    var nodes := Built(heads, size - 1);
    if size / 5 <= 0x8000 {
      forall b | 0 <= b < |nodes|
        ensures nodes[b].info.idx >= 0
      {
        IdxRange(b, size, seed);
      }
    } else {
      IdxWraps(size, seed);
      assert nodes[0x8000].info.idx < 0;
    }
  }

  lemma RegularIsKept(was: bv16, now: bv16)
    requires Regen(was) == was && Regen(now) == now && Upper(was) == Upper(now)
    ensures was == now
  {
    hide Regen, Upper;
    RegenOfUpper(was, now);
  }

  ghost predicate Regular(items: seq<ListData>)
    reads items`data16
  {
    forall j :: 0 <= j < |items| ==> Regen(items[j].data16) == items[j].data16
  }

  lemma FakesAreRegular()
    ensures Regen(0x8080) == 0x8080 && Regen(0xFFFF) == 0xFFFF
  {
  }

  lemma IndexedIsRegular(items: seq<ListData>, size: nat, seed: bv16)
    requires Indexed(items, size, seed)
    ensures Regular(items[..size - 1])
  {
    hide Regen, Pattern, IdxAt;
    FakesAreRegular();
    forall j | 0 <= j < size - 1
      ensures Regen(items[j].data16) == items[j].data16
    {
      if j >= 2 {
        PatternIsRegular(Wrapped(j - 2), seed);
      }
    }
  }

  /** The sort by idx leaves regular items alone. */
  method SortByIdx(list0: ListHead, ghost nodes: seq<ListHead>, ghost items: seq<ListData>)
    returns (list: ListHead, ghost sorted: seq<ListHead>)
    requires IsList(list0, nodes) && |nodes| >= 2 && Regular(items)
    requires forall j :: 0 <= j < |items| ==> exists n :: n in nodes && n.info == items[j]
    requires forall n :: n in nodes ==> n.info in items
    modifies nodes`next, items`data16
    ensures IsList(list, sorted) && Permuted(sorted, nodes)
    ensures SortedBy(ByIdx, sorted) && Stable(ByIdx, nodes, sorted)
    ensures forall j :: 0 <= j < |items| ==> items[j].data16 == old(items[j].data16)
  {
    hide IsList, SortedBy, Stable, Permuted, Regen, Upper;
    ghost var comparisons;
    list, sorted, comparisons := MergeSort(list0, ByIdx, null, nodes);
    forall j | 0 <= j < |items|
      ensures items[j].data16 == old(items[j].data16)
    {
      var n :| n in nodes && n.info == items[j];
      assert n.info in Infos(nodes);
      RegularIsKept(old(items[j].data16), items[j].data16);
    }
  }

  lemma BuiltPermutes(heads: seq<ListHead>, m: nat)
    requires 1 <= m <= |heads|
    ensures Permuted(Built(heads, m), heads[..m])
  {
    ReversedPermutes(heads[1..m]);
    assert heads[..m] == [heads[0]] + heads[1..m];
  }

  /** The cells are filled and linked, and the inner nodes have their idx. */
  method BuildList(heads: seq<ListHead>, items: seq<ListData>, seed: bv16) returns (list: ListHead)
    requires |heads| == |items| >= 3 && Distinct(heads) && DistinctItems(items)
    modifies heads`next, heads`info, items`data16, items`idx
    ensures list == heads[0] && IsList(list, Built(heads, |heads| - 1))
    ensures Indexed(items, |heads|, seed)
    ensures forall j :: 0 <= j < |heads| - 1 ==> heads[j].info == items[j]
  {
    hide IsList, Built, Pattern, Wrapped, IdxAt, Indexed;
    list := FillList(heads, items, seed);
    BuiltMembers(heads, |heads| - 1);
    IndexList(list, heads, items, seed);
  }

  lemma SortedEnds(heads: seq<ListHead>, items: seq<ListData>, seed: bv16, list: ListHead, sorted: seq<ListHead>)
    requires |heads| == |items| >= 3 && Indexed(items, |heads|, seed)
    requires forall j :: 0 <= j < |heads| - 1 ==> heads[j].info == items[j]
    requires var built := Built(heads, |heads| - 1);
             SortedBy(ByIdx, sorted) && Stable(ByIdx, built, sorted) && Permuted(sorted, built)
    requires IsList(list, sorted)
    ensures |sorted| == |heads| - 1 && sorted[|sorted| - 1] == heads[1]
    ensures list == heads[0] <==> |heads| / 5 <= 0x8000
    ensures Permuted(sorted, heads[..|heads| - 1])
  {
    hide SortedBy, Stable, Keyed, Built, Permuted, Indexed, KeyOf, Reversed;
    var built := Built(heads, |heads| - 1);
    IndexedKeys(heads, items, seed);
    FakeKeys(heads, |heads|, seed);
    GreatestStaysLast(built, sorted);
    LeastStaysFirst(built, sorted);
    BuiltAt(heads, |heads| - 1, |heads| - 2);
    BuiltPermutes(heads, |heads| - 1);
    PermutedFurther(sorted, built, heads[..|heads| - 1]);
  }

  /** Build the list: all cells but the last, each with its own item, sorted by idx. */
  method InitList(blksize: nat, heads: seq<ListHead>, items: seq<ListData>, seed: bv16)
    returns (list: ListHead, ghost nodes: seq<ListHead>)
    requires |heads| == |items| == CellCount(blksize) >= 3 && Distinct(heads) && DistinctItems(items)
    modifies heads`next, heads`info, items`data16, items`idx
    ensures IsList(list, nodes) && |nodes| == |heads| - 1
    ensures Permuted(nodes, heads[..|heads| - 1]) && forall j :: 0 <= j < |heads| - 1 ==> heads[j].info == items[j]
    ensures SortedBy(ByIdx, nodes) && nodes[|nodes| - 1] == heads[1]
    ensures items[0].idx == 0 && items[0].data16 == 0x8080 && items[1].idx == 0x7FFF && items[1].data16 == 0xFFFF
    ensures forall j :: 2 <= j < |heads| - 1 ==>
              items[j].data16 == Pattern(Wrapped(j - 2), seed) && items[j].idx == IdxAt(|heads| - 1 - j, |heads|, seed)
    ensures list == heads[0] <==> |heads| / 5 <= 0x8000
  {
    hide IsList, Built, Pattern, Wrapped, IdxAt, SortedBy, Stable, Permuted, Regular, Distinct, DistinctItems;
    list := BuildList(heads, items, seed);
    ghost var built := Built(heads, |heads| - 1);
    BuiltMembers(heads, |heads| - 1);
    IndexedIsRegular(items, |heads|, seed);
    list, nodes := SortByIdx(list, built, items[..|heads| - 1]);
    SortedEnds(heads, items, seed, list, nodes);
  }

  lemma MixedSeven()
    ensures Mixed(7, 8, 2) & 0x3FFF == 5
  {
  }

  lemma IndexFive(v: bv16)
    requires v & 0x3FFF == 5
    ensures Index14(v) == 5
  {
  }

  /** The mixed idx may repeat an idx given in order. */
  lemma IdxRepeats()
    ensures CellCount(666) == 31 && IdxAt(5, 31, 2) == IdxAt(7, 31, 2) == 5
  {
    hide Index14, Mixed;
    MixedSeven();
    IndexFive(Mixed(7, 8, 2));
    assert Wrapped(7) == 7 && Wrapped(8) == 8 && Wrap16(5) == 5;
  }

  /** A list built in 666 bytes with seed 2 has two nodes of idx 5, so that the benchmark does
      not always bring its order back. */
  lemma BuiltListMayTie(heads: seq<ListHead>, items: seq<ListData>, nodes: seq<ListHead>)
    requires |heads| == |items| == CellCount(666) && Indexed(items, |heads|, 2)
    requires forall j :: 0 <= j < |heads| - 1 ==> heads[j].info == items[j]
    requires Permuted(nodes, heads[..|heads| - 1]) && Distinct(heads)
    ensures !Increasing(nodes)
  {
    hide IdxAt, Pattern;
    IdxRepeats();
    var front := heads[..30];
    assert items[25].idx == items[23].idx && front[25] == heads[25] && front[23] == heads[23];
    PermutedBack(nodes, front);
    var a := MovedTo(front, nodes, 25);
    var b := MovedTo(front, nodes, 23);
    assert nodes[a].info.idx == nodes[b].info.idx && a != b;
  }
}
