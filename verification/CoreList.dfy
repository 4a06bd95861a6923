/** The linked list of the CoreMark list kernel: cells, items, the cached benchmark values
    and the list surgery done in place. */
module CoreList {
  import opened Crc

  newtype Int16 = x: int | -0x8000 <= x < 0x8000

  /** A data item: idx captures the initial order, the upper byte of data16 is a backup of
      the lower one. */
  class ListData {
    var data16: bv16
    var idx: Int16
  }

  class ListHead {
    var next: ListHead?
    var info: ListData

    constructor (info: ListData)
      ensures this.next == null && this.info == info
    {
      this.next := null;
      this.info := info;
    }
  }

  /** The part of the results block that the list kernel uses. */
  class CoreResults {
    var list: ListHead?
    var seed3: Int16
    var crc: bv16
    var crcstate: bv16
    var crcmatrix: bv16
  }

  // ---------------------------------------------------------------- the 16 data bits

  /** Bit 7: the low seven bits are a cached result. */
  predicate Cached(data: bv16) {
    (data >> 7) & 1 == 1
  }

  function Upper(data: bv16): bv16 {
    data & 0xFF00
  }

  function Flag(data: bv16): bv16 {
    data & 7
  }

  function Value(data: bv16): int {
    (data & 0x7F) as int
  }

  function WithCache(data: bv16, result: bv16): bv16 {
    (data & 0xFF00) | 0x80 | (result & 0x7F)
  }

  /** The lower byte rebuilt from the upper byte. */
  function Regen(data: bv16): bv16 {
    (data & 0xFF00) | (0xFF & (data >> 8))
  }

  function LowSeven(data: bv16): bv16 {
    data & 0x7F
  }

  /** The fields as numbers: the flag is the remainder by 8, the value that by 128, and the upper byte
      is the quotient by 256. */
  lemma FieldsAre(data: bv16)
    ensures Cached(data) <==> data & 0x80 != 0
    ensures Upper(data) == data / 256 * 256
    ensures Flag(data) == data % 8
    ensures Value(data) == (data % 128) as int
    ensures Regen(data) == data / 256 * 257
  {
    RegenIs(data);
  }

  lemma RegenIs(data: bv16)
    ensures Regen(data) == data / 256 * 257
  {
  }

  /** The cache keeps the upper byte and holds the mark and the low seven bits of the result. */
  lemma WithCacheIs(data: bv16, result: bv16)
    ensures WithCache(data, result) == data / 256 * 256 + 128 + result % 128
  {
  }

  lemma WithCacheFacts(data: bv16, result: bv16)
    ensures Cached(WithCache(data, result))
    ensures Upper(WithCache(data, result)) == Upper(data)
    ensures LowSeven(WithCache(data, result)) == LowSeven(result)
  {
  }

  lemma ValueOfLowSeven(a: bv16, b: bv16)
    requires LowSeven(a) == LowSeven(b)
    ensures Value(a) == Value(b)
  {
  }

  lemma RegenFacts(data: bv16)
    ensures Upper(Regen(data)) == Upper(data)
    ensures Regen(Regen(data)) == Regen(data)
  {
  }

  /** Regeneration forgets whatever happened to the lower byte. */
  lemma RegenOfUpper(a: bv16, b: bv16)
    requires Upper(a) == Upper(b)
    ensures Regen(a) == Regen(b)
  {
  }

  // ---------------------------------------------------------------- comparators

  /** The comparators of the benchmark, and any other that compares items by a key of theirs and
      has no other effect. */
  datatype Comparator = ByValue | ByIdx | ByKey(key: (bv16, Int16) -> int)

  function KeyOf(cmp: Comparator, item: ListData): int
    reads item`data16, item`idx
  {
    match cmp
    case ByValue => Value(item.data16)
    case ByIdx => item.idx as int
    case ByKey(key) => key(item.data16, item.idx)
  }

  /** A comparison changes the item no more: its value is cached, or, when sorting by idx
      without a results block, its lower byte is rebuilt. */
  predicate SettledItem(cmp: Comparator, res: CoreResults?, item: ListData)
    reads item`data16, item`idx
  {
    match cmp
    case ByValue => Cached(item.data16)
    case ByIdx => res == null ==> Regen(item.data16) == item.data16
    case ByKey(_) => true
  }

  /** The value of an item is there already, or is computed without a kernel. */
  predicate Plain(data: bv16) {
    Cached(data) || Flag(data) >= 2
  }

  /** What comparisons keep of the data: the upper byte, and, when sorting by value, a value
      that is no kernel's. */
  predicate Kept(cmp: Comparator, was: bv16, now: bv16) {
    Upper(now) == Upper(was) && (cmp.ByValue? && Plain(was) ==> Plain(now) && Value(now) == Value(was))
  }

  /** Caching a value computed without a kernel keeps it. */
  lemma PlainIsKept(data: bv16)
    ensures Value(WithCache(data, data)) == Value(data) && Cached(WithCache(data, data))
  {
    WithCacheFacts(data, data);
    ValueOfLowSeven(WithCache(data, data), data);
  }

  /** A run of a benchmark kernel, with the arguments that depend on the item and on the run so
      far. */
  datatype Call = NoCall | StateCall(period: bv16, crc: bv16) | MatrixCall(val: bv16, crc: bv16)

  /** Bits 3 to 6, twice. */
  function DataType(data: bv16): bv16 {
    var dtype := (data >> 3) & 0xF;
    dtype | (dtype << 4)
  }

  /** The period for the corruption of the state benchmark: never 0, and one byte. */
  function Period(data: bv16): (r: bv16)
    ensures 0x22 <= r <= 0xFF
  {
    if DataType(data) < 0x22 then 0x22 else DataType(data)
  }

  /** The kernel that is run for the item, if any. */
  function CallFor(data: bv16, crc: bv16): Call {
    if Cached(data) then NoCall
    else if Flag(data) == 0 then StateCall(Period(data), crc)
    else if Flag(data) == 1 then MatrixCall(DataType(data), crc)
    else NoCall
  }

  lemma DataTypeIs(data: bv16)
    ensures DataType(data) == data / 8 % 16 * 17
  {
  }

  /** The data picks the kernel: none when a result is cached or the flag is above 1. The argument
      repeats a four-bit number in both halves of a byte, for the state kernel at least 2. */
  lemma CallMeans(data: bv16, crc: bv16)
    ensures CallFor(data, crc) == var nibble := data / 8 % 16;
            if data & 0x80 != 0 || data % 8 >= 2 then NoCall
            else if data % 8 == 1 then MatrixCall(nibble * 17, crc)
            else if nibble <= 1 then StateCall(34, crc)
            else StateCall(nibble * 17, crc)
    ensures Plain(data) <==> data & 0x80 != 0 || data % 8 >= 2
  {
    FieldsAre(data);
    DataTypeIs(data);
    SmallNibble(data / 8 % 16);
    hide Cached, Flag, DataType;
  }

  lemma SmallNibble(n: bv16)
    requires n < 16
    ensures n * 17 < 0x22 <==> n <= 1
  {
  }

  /** The seven-bit value of an item, computed once and then cached. call is the kernel that is run
      for it. A kernel may return anything here; result is what it returned, or the data when the
      value is computed without one. */
  method CalcFunc(item: ListData, res: CoreResults) returns (value: int, ghost result: bv16, ghost call: Call)
    modifies item`data16, res`crc, res`crcstate, res`crcmatrix
    ensures call == old(CallFor(item.data16, res.crc))
    ensures Cached(item.data16) && value == Value(item.data16)
    ensures Upper(item.data16) == old(Upper(item.data16)) && Kept(ByValue, old(item.data16), item.data16)
    ensures old(Cached(item.data16)) ==>
              item.data16 == old(item.data16) && res.crc == old(res.crc) && res.crcstate == old(res.crcstate) &&
                  res.crcmatrix == old(res.crcmatrix)
    ensures !old(Cached(item.data16)) ==>
              && item.data16 == WithCache(old(item.data16), result)
              && res.crc == MessageCrc(WordBytes(result), old(res.crc))
              && (old(Flag(item.data16)) >= 2 ==> result == old(item.data16))
              && res.crcstate == (if old(Flag(item.data16)) == 0 && old(res.crcstate) == 0 then result
                  else old(res.crcstate))
              && res.crcmatrix == (if old(Flag(item.data16)) == 1 && old(res.crcmatrix) == 0 then result
                  else old(res.crcmatrix))
  {
    hide Cached, Upper, Flag, WithCache, MessageCrc, Value, LowSeven, DataType;
    var data := item.data16;
    call := NoCall;
    if Cached(data) {
      value := Value(data);
      result := 0;
    } else {
      var flag := Flag(data);
      var dtype := DataType(data);
      var retval: bv16;
      if flag == 0 {
        if dtype < 0x22 {
          dtype := 0x22;
        }
        retval, call := *, StateCall(dtype, res.crc);
        if res.crcstate == 0 {
          res.crcstate := retval;
        }
      } else if flag == 1 {
        retval, call := *, MatrixCall(dtype, res.crc);
        if res.crcmatrix == 0 {
          res.crcmatrix := retval;
        }
      } else {
        retval := data;
      }
      result := retval;
      res.crc := Crcu16(retval, res.crc);
      value := Value(retval);
      item.data16 := WithCache(data, retval);
      WithCacheFacts(data, retval);
      PlainIsKept(data);
      ValueOfLowSeven(item.data16, retval);
      FlagIsSmall(data);
    }
  }

  lemma FlagIsSmall(data: bv16)
    ensures Flag(data) == 0 || Flag(data) == 1 || Flag(data) >= 2
  {
  }

  method CmpComplex(a: ListData, b: ListData, res: CoreResults) returns (r: int)
    modifies a`data16, b`data16, res`crc, res`crcstate, res`crcmatrix
    ensures Cached(a.data16) && Cached(b.data16)
    ensures r == Value(a.data16) - Value(b.data16)
    ensures Kept(ByValue, old(a.data16), a.data16) && Kept(ByValue, old(b.data16), b.data16)
    ensures old(Cached(a.data16)) ==> a.data16 == old(a.data16)
    ensures old(Cached(b.data16)) ==> b.data16 == old(b.data16)
  {
    hide Cached, Upper, Value, Flag, Plain;
    var val1, val2;
    ghost var result, call;
    val1, result, call := CalcFunc(a, res);
    val2, result, call := CalcFunc(b, res);
    r := val1 - val2;
  }

  method CmpIdx(a: ListData, b: ListData, res: CoreResults?) returns (r: int)
    modifies a`data16, b`data16
    ensures res == null ==> a.data16 == Regen(old(a.data16)) && b.data16 == Regen(old(b.data16))
    ensures res != null ==> a.data16 == old(a.data16) && b.data16 == old(b.data16)
    ensures r == a.idx as int - b.idx as int
  {
    hide Regen;
    RegenFacts(a.data16);
    if res == null {
      a.data16 := Regen(a.data16);
      b.data16 := Regen(b.data16);
    }
    r := a.idx as int - b.idx as int;
  }

  function ResultsOf(res: CoreResults?): set<CoreResults> {
    if res == null then {} else {res}
  }

  /** What a sort may rely on, whichever comparator it was given: both items are settled
      afterwards, settled items do not change, and the result compares settled keys. */
  method Compare(cmp: Comparator, a: ListData, b: ListData, res: CoreResults?) returns (r: int)
    requires cmp.ByValue? ==> res != null
    modifies a`data16, b`data16, ResultsOf(res)`crc, ResultsOf(res)`crcstate, ResultsOf(res)`crcmatrix
    ensures SettledItem(cmp, res, a) && SettledItem(cmp, res, b)
    ensures r == KeyOf(cmp, a) - KeyOf(cmp, b)
    ensures Kept(cmp, old(a.data16), a.data16) && Kept(cmp, old(b.data16), b.data16)
    ensures old(SettledItem(cmp, res, a)) ==> a.data16 == old(a.data16)
    ensures old(SettledItem(cmp, res, b)) ==> b.data16 == old(b.data16)
  {
    hide Cached, Upper, Value, Regen, Plain;
    match cmp
    case ByValue =>
      r := CmpComplex(a, b, res);
    case ByIdx =>
      RegenFacts(a.data16);
      RegenFacts(b.data16);
      r := CmpIdx(a, b, res);
    case ByKey(key) =>
      r := key(a.data16, a.idx) - key(b.data16, b.idx);
  }

  // ---------------------------------------------------------------- lists

  function NodeAt(nodes: seq<ListHead>, i: int): ListHead?
    requires 0 <= i
  {
    if i < |nodes| then nodes[i] else null
  }

  ghost predicate Distinct(nodes: seq<ListHead>) {
    forall i, j :: 0 <= i < j < |nodes| ==> nodes[i] != nodes[j]
  }

  /** list is the head of a NULL-terminated list of exactly these nodes. */
  ghost predicate IsList(list: ListHead?, nodes: seq<ListHead>)
    reads nodes`next
  {
    && Distinct(nodes)
    && list == NodeAt(nodes, 0)
    && forall i {:trigger nodes[i].next} :: 0 <= i < |nodes| ==> nodes[i].next == NodeAt(nodes, i + 1)
  }

  /** A heap determines the nodes of a list. */
  lemma {:induction false} ListIsUnique(list: ListHead?, a: seq<ListHead>, b: seq<ListHead>)
    requires IsList(list, a) && IsList(list, b)
    ensures a == b
  {
    if |a| <= |b| {
      SamePrefix(list, a, b, |a|);
    } else {
      SamePrefix(list, b, a, |b|);
    }
  }

  lemma {:induction false} SamePrefix(list: ListHead?, a: seq<ListHead>, b: seq<ListHead>, n: nat)
    requires IsList(list, a) && IsList(list, b) && n <= |a| <= |b|
    ensures forall i :: 0 <= i < n ==> a[i] == b[i]
    ensures NodeAt(a, n) == NodeAt(b, n)
  {
    if n > 0 {
      SamePrefix(list, a, b, n - 1);
      assert a[n - 1].next == b[n - 1].next;
    }
  }

  /** What a search looks for: an idx, or, when that is negative, a low data byte. */
  predicate Wanted(item: ListData, idx: Int16, data16: bv16)
    reads item`data16, item`idx
  {
    if idx >= 0 then item.idx == idx else item.data16 & 0xFF == data16
  }

  lemma WantedMeans(item: ListData, idx: Int16, data16: bv16)
    ensures Wanted(item, idx, data16) <==> if idx >= 0 then item.idx == idx else item.data16 % 256 == data16
  {
  }

  ghost function FirstWanted(nodes: seq<ListHead>, idx: Int16, data16: bv16): (k: nat)
    reads nodes`info, (set n | n in nodes :: n.info)`data16, (set n | n in nodes :: n.info)`idx
    ensures k <= |nodes|
    decreases |nodes|
  {
    if nodes == [] || Wanted(nodes[0].info, idx, data16) then 0 else 1 + FirstWanted(nodes[1..], idx, data16)
  }

  /** The index of the first wanted node is the one index that is wanted and has no wanted
      one before it. */
  lemma {:induction false} FirstWantedIs(nodes: seq<ListHead>, idx: Int16, data16: bv16, k: nat)
    requires k <= |nodes|
    ensures FirstWanted(nodes, idx, data16) == k <==>
            (k < |nodes| ==> Wanted(nodes[k].info, idx, data16)) &&
            forall i :: 0 <= i < k ==> !Wanted(nodes[i].info, idx, data16)
    decreases |nodes|
  {
    hide Wanted;
    if nodes != [] && k > 0 {
      FirstWantedIs(nodes[1..], idx, data16, k - 1);
      assert forall i :: 1 <= i < k ==> nodes[i] == nodes[1..][i - 1];
    }
  }

  /** The first wanted node, if there is one. */
  method Find(start: ListHead?, idx: Int16, data16: bv16, ghost nodes: seq<ListHead>) returns (found: ListHead?)
    requires IsList(start, nodes)
    ensures found == NodeAt(nodes, FirstWanted(nodes, idx, data16))
  {
    hide Wanted;
    found := start;
    ghost var k := 0;
    while found != null && !Wanted(found.info, idx, data16)
      invariant k <= |nodes| && found == NodeAt(nodes, k)
      invariant forall i :: 0 <= i < k ==> !Wanted(nodes[i].info, idx, data16)
      decreases |nodes| - k
    {
      found := found.next;
      k := k + 1;
    }
    FirstWantedIs(nodes, idx, data16, k);
  }

  function Reversed(nodes: seq<ListHead>): (r: seq<ListHead>)
    ensures |r| == |nodes|
    ensures forall i :: 0 <= i < |nodes| ==> r[i] == nodes[|nodes| - 1 - i]
  {
    seq(|nodes|, i requires 0 <= i < |nodes| => nodes[|nodes| - 1 - i])
  }

  lemma BackwardLinks(list: ListHead?, nodes: seq<ListHead>)
    requires Distinct(nodes) && list == if nodes == [] then null else nodes[|nodes| - 1]
    requires forall i {:trigger nodes[i].next} :: 0 <= i < |nodes| ==>
               nodes[i].next == if i == 0 then null else nodes[i - 1]
    ensures IsList(list, Reversed(nodes))
  {
    var r := Reversed(nodes);
    forall i, j | 0 <= i < j < |r|
      ensures r[i] != r[j]
    {
      assert r[i] == nodes[|nodes| - 1 - i] && r[j] == nodes[|nodes| - 1 - j];
    }
    forall i | 0 <= i < |r|
      ensures r[i].next == NodeAt(r, i + 1)
    {
      assert r[i] == nodes[|nodes| - 1 - i];
      assert nodes[|nodes| - 1 - i].next == if i == |nodes| - 1 then null else nodes[|nodes| - 2 - i];
    }
  }

  method Reverse(start: ListHead?, ghost nodes: seq<ListHead>) returns (next: ListHead?)
    requires IsList(start, nodes)
    modifies nodes`next
    ensures IsList(next, Reversed(nodes))
  {
    var list := start;
    next := null;
    ghost var k := 0;
    while list != null
      invariant k <= |nodes| && list == NodeAt(nodes, k)
      invariant next == (if k == 0 then null else nodes[k - 1])
      invariant forall i {:trigger nodes[i].next} :: 0 <= i < k ==>
                  nodes[i].next == if i == 0 then null else nodes[i - 1]
      invariant forall i {:trigger nodes[i].next} :: k <= i < |nodes| ==> nodes[i].next == NodeAt(nodes, i + 1)
      decreases |nodes| - k
    {
      var tmp := list.next;
      list.next := next;
      next := list;
      list := tmp;
      k := k + 1;
    }
    BackwardLinks(next, nodes);
  }

  /** Remove an item: the next cell gives up its data and is unlinked. */
  method Remove(item: ListHead) returns (ret: ListHead)
    requires item.next != null && item.next != item
    modifies item`next, item`info, item.next`next, item.next`info
    ensures ret == old(item.next) && item.next == old(item.next.next) && ret.next == null
    ensures item.info == old(item.next.info) && ret.info == old(item.info)
  {
    ret := item.next;
    var tmp := item.info;
    item.info := ret.info;
    ret.info := tmp;
    item.next := item.next.next;
    ret.next := null;
  }

  method UndoRemove(itemRemoved: ListHead, itemModified: ListHead) returns (ret: ListHead)
    requires itemRemoved != itemModified
    modifies itemRemoved`next, itemRemoved`info, itemModified`next, itemModified`info
    ensures ret == itemRemoved && itemModified.next == itemRemoved && itemRemoved.next == old(itemModified.next)
    ensures itemRemoved.info == old(itemModified.info) && itemModified.info == old(itemRemoved.info)
  {
    var tmp := itemRemoved.info;
    itemRemoved.info := itemModified.info;
    itemModified.info := tmp;
    itemRemoved.next := itemModified.next;
    itemModified.next := itemRemoved;
    ret := itemRemoved;
  }
}
