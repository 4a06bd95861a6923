/** Address spaces of the bus models: memories mapped side by side, and windows onto them. */
module AddressSpaces {
  import opened Words

  datatype Error = OutOfRange | InvalidLength | OperationOutOfRange | Overlap | InvalidAddress | Incomparable

  /** The checks in front of every access to a memory or a window. */
  function CheckRange(size: int, address: int, length: int): Option<Error> {
    if address < 0 || address >= size then Some(OutOfRange)
    else if length < 0 then Some(InvalidLength)
    else if address + length > size then Some(OperationOutOfRange)
    else None
  }

  /** An access is let through exactly when all of it lies within, and its start does. */
  lemma RangeErrors(size: int, address: int, length: int)
    ensures CheckRange(size, address, length) == None <==>
            0 <= address < size && 0 <= length && address + length <= size
    ensures CheckRange(size, address, length) == Some(OutOfRange) <==> !(0 <= address < size)
    ensures CheckRange(size, address, length) == Some(InvalidLength) <==> 0 <= address < size && length < 0
    ensures CheckRange(size, address, length) == Some(OperationOutOfRange) <==>
            0 <= address < size && address + length > size && length >= 0
  {
  }

  class MemoryRegion {
    const mem: array<bv8>
    var parent: AddressSpace?
    var base: Option<int>

    constructor (size: nat)
      ensures fresh(mem) && mem.Length == size && (forall i :: 0 <= i < size ==> mem[i] == 0)
      ensures parent == null && base == Some(0)
    {
      mem := new bv8[size](_ => 0);
      parent := null;
      base := Some(0);
    }

    method Read(address: int, length: int) returns (r: Result<seq<bv8>, Error>)
      ensures match CheckRange(mem.Length, address, length)
              case Some(e) => r == Failure(e)
              case None => r == Success(mem[address..address + length])
    {
      var error := CheckRange(mem.Length, address, length);
      if error.Some? {
        return Failure(error.value);
      }
      return Success(mem[address..address + length]);
    }

    method Write(address: int, data: seq<bv8>) returns (error: Option<Error>)
      modifies mem
      ensures error == CheckRange(mem.Length, address, |data|)
      ensures mem[..] == if error.None? then Patch(old(mem[..]), address, data) else old(mem[..])
    {
      error := CheckRange(mem.Length, address, |data|);
      if error.Some? {
        return;
      }
      forall k | 0 <= k < |data| {
        mem[address + k] := data[k];
      }
    }
  }

  class AddressSpace {
    const size: int
    const base: Option<int>
    var regions: seq<Entry>

    constructor (size: int, base: Option<int>)
      ensures this.size == size && this.base == base && regions == []
    {
      this.size, this.base, this.regions := size, base, [];
    }

    ghost predicate Valid()
      reads this
    {
      Disjoint(regions)
    }

    /** The entries that overlap a range, in ascending order. */
    method FindRegions(address: int, length: int) returns (r: Result<seq<Entry>, Error>)
      ensures r == RegionsFor(size, regions, address, length)
      ensures r.Success? ==> JustOverlapping(regions, r.value, address, AtLeastOne(length))
      ensures r.Success? && Valid() ==> Chain(r.value)
      ensures r.Success? ==> InOrder(r.value)
    {
      hide JustOverlapping, Chain, Disjoint, Select, Clashing, InOrder;
      FoundOverlaps(regions, address, length);
      if Valid() {
        FoundIsChain(regions, address, length);
      }
      if address < 0 || address >= size {
        return Failure(OutOfRange);
      }
      if length < 0 {
        return Failure(InvalidLength);
      }
      var found := Select(regions, address, AtLeastOne(length));
      if Clashing(found) {
        return Failure(Incomparable);
      }
      SortOrders(found);
      return Success(Sort(found));
    }

    method GetAbsoluteAddress(address: int) returns (r: Result<Option<int>, Error>)
      ensures r == AbsoluteAddress(base, size, address)
    {
      return AbsoluteAddress(base, size, address);
    }

    /** Map a region, unless it would share an address with one that is mapped already. */
    method RegisterRegion(region: MemoryRegion, regionBase: int, sizeIfAny: Option<int>, offset: Option<int>)
      returns (error: Option<Error>)
      requires Valid()
      modifies this`regions, region`parent, region`base
      ensures Valid()
      ensures var length := if sizeIfAny.Some? then sizeIfAny.value else region.mem.Length;
              if regionBase < 0 || regionBase >= size then error == Some(OutOfRange)
              else if length < 0 then error == Some(InvalidLength)
              else if Clashing(Select(old(regions), regionBase, AtLeastOne(length))) then error == Some(Incomparable)
              else if exists i :: 0 <= i < |old(regions)| && Overlaps(old(regions)[i], regionBase, AtLeastOne(length))
                  then error == Some(Overlap)
              else
                && error == None
                && regions == old(regions) + [Entry(regionBase, length, offset, region)]
                && region.parent == this
                && region.base == (if offset == Some(0) && base.Some? then Some(base.value + regionBase) else None)
      ensures error.Some? ==>
              regions == old(regions) && region.parent == old(region.parent) && region.base == old(region.base)
      ensures old(AllFit(regions)) && (error == None ==> Fits(regions[|old(regions)|])) ==> AllFit(regions)
      ensures old(OwnMemories(regions)) && (error == None ==> region.mem !in Memories(old(regions))) ==>
              OwnMemories(regions)
    {
      hide Disjoint, Overlaps, Select, Clashing, JustOverlapping, Chain;
      var length := if sizeIfAny.Some? then sizeIfAny.value else region.mem.Length;
      var found := FindRegions(regionBase, length);
      if found.Failure? {
        return Some(found.error);
      }
      FoundNone(regions, regionBase, length);
      if found.value != [] {
        return Some(Overlap);
      }
      region.parent := this;
      if offset == Some(0) {
        var absolute := GetAbsoluteAddress(regionBase);
        region.base := absolute.value;
      } else {
        region.base := None;
      }
      RegisterKeepsDisjoint(regions, Entry(regionBase, length, offset, region));
      regions := regions + [Entry(regionBase, length, offset, region)];
      error := None;
    }

    /** Read bytes from the regions that the range spans. */
    method Read(address: int, length: int) returns (r: Result<seq<bv8>, Error>)
      ensures r == SpaceRead(size, regions, Contents(regions), address, length)
      ensures Valid() && AllFit(regions) ==> IsRead(size, regions, Contents(regions), address, length, r)
      ensures Valid() && 0 <= address < size ==>
                forall i :: 0 <= i < |regions| && Within(regions[i], address, length) ==>
                  var e := regions[i];
                  var at := match e.offset case Some(o) => o + (address - e.base) case None => address;
                  match CheckRange(e.region.mem.Length, at, length)
                  case Some(error) => r == Failure(error)
                  case None => r == Success(e.region.mem[at..at + length])
    {
      hide Disjoint, AllFit, IsRead, SpaceRead, Within;
      ghost var image := Contents(regions);
      if Valid() && AllFit(regions) {
        ReadIsFlat(size, regions, image, address, length);
      }
      r := ReadRegions(address, length);
      if Valid() && 0 <= address < size {
        forall i | 0 <= i < |regions| && Within(regions[i], address, length)
          ensures var e := regions[i];
                  var at := match e.offset case Some(o) => o + (address - e.base) case None => address;
                  match CheckRange(e.region.mem.Length, at, length)
                  case Some(error) => r == Failure(error)
                  case None => r == Success(BytesOf(image, e.region.mem)[at..at + length])
        {
          ReadOfOne(size, regions, image, i, address, length);
        }
      }
    }

    method ReadRegions(address0: int, length0: int) returns (r: Result<seq<bv8>, Error>)
      ensures r == SpaceRead(size, regions, Contents(regions), address0, length0)
    {
      hide Disjoint, RegionsFor, JustOverlapping, Chain, ReadThrough, Behind, Select, Sort, Clashing;
      ghost var image := Contents(regions);
      var found := FindRegions(address0, length0);
      if found.Failure? {
        return Failure(found.error);
      }
      var entries := found.value;
      if entries == [] {
        return Failure(InvalidAddress);
      }
      var address, length := address0, length0;
      var data: seq<bv8> := [];
      assert entries[0..] == entries;
      BehindNothing(ReadThrough(entries, image, address0, length0));
      for j := 0 to |entries|
        invariant ReadThrough(entries, image, address0, length0) ==
                  Behind(data, ReadThrough(entries[j..], image, address, length))
      {
        var e := entries[j];
        assert entries[j..][1..] == entries[j + 1..];
        FoundEntry(regions, entries, address0, AtLeastOne(length0), j);
        ReadThroughStep(entries[j..], image, data, address, length);
        if e.base > address {
          return Failure(InvalidAddress);
        }
        var segAddr := address - e.base;
        var segLen := if e.size - segAddr < length then e.size - segAddr else length;
        var offset;
        if e.offset == None {
          segAddr := address;
          offset := 0;
        } else {
          offset := e.offset.value;
        }
        var read := e.region.Read(segAddr + offset, segLen);
        if read.Failure? {
          return Failure(read.error);
        }
        assert BytesOf(image, e.region.mem) == e.region.mem[..];
        data, address, length := data + read.value, address + segLen, length - segLen;
      }
      ReadThroughEnd(image, data, address, length);
      if length > 0 {
        return Failure(InvalidAddress);
      }
      r := Success(data);
    }

    /** Write bytes to the regions that the range spans. A range with a gap is refused, but
        the part in front of the gap has been written by then. */
    method Write(address0: int, data: seq<bv8>) returns (error: Option<Error>, ghost to: int)
      modifies Memories(regions)
      ensures error == SpaceWrite(size, regions, address0, |data|)
      ensures Contents(regions) == SpaceAfter(size, regions, old(Contents(regions)), address0, data)
      ensures Valid() && AllFit(regions) && OwnMemories(regions) ==>
                && IsWritten(size, regions, address0, |data|, error, to)
                && address0 <= to <= address0 + |data| &&
                    Written(regions, old(Contents(regions)), Contents(regions), address0, to, data)
      ensures Valid() && 0 <= address0 < size ==>
                forall i :: 0 <= i < |regions| && Within(regions[i], address0, |data|) ==>
                  var e := regions[i];
                  var at := match e.offset case Some(o) => o + (address0 - e.base) case None => address0;
                  var was := old(Contents(regions));
                  && error == CheckRange(e.region.mem.Length, at, |data|)
                  && Contents(regions) == if error.Some? then was else
                       was[e.region.mem := was[e.region.mem][..at] + data + was[e.region.mem][at + |data|..]]
    {
      hide Disjoint, AllFit, OwnMemories, IsWritten, Written, SpaceAfter, SpaceWrite, Within;
      ghost var was := Contents(regions);
      if Valid() && 0 <= address0 < size {
        forall i | 0 <= i < |regions| && Within(regions[i], address0, |data|)
          ensures var e := regions[i];
                  var at := match e.offset case Some(o) => o + (address0 - e.base) case None => address0;
                  var refused := CheckRange(e.region.mem.Length, at, |data|);
                  && SpaceWrite(size, regions, address0, |data|) == refused
                  && SpaceAfter(size, regions, was, address0, data) == if refused.Some? then was else
                       was[e.region.mem := was[e.region.mem][..at] + data + was[e.region.mem][at + |data|..]]
        {
          WriteOfOne(size, regions, was, i, address0, data);
        }
      }
      to := address0;
      if Valid() && AllFit(regions) && OwnMemories(regions) {
        to := WriteIsFlat(size, regions, address0, data, Contents(regions));
      }
      error := WriteRegions(address0, data);
    }

    /** The part of a write that one region serves. */
    method WriteSegment(e: Entry, start0: int, address0: int, length0: int, data: seq<bv8>)
      returns (refused: Option<Error>, start: int, address: int, length: int)
      requires e in regions && 0 <= start0 && length0 >= 0 && start0 + length0 == |data| &&
               0 <= start0 + End(e) - address0
      modifies Memories(regions)
      ensures var n := Least(End(e) - address0, length0);
              var a := address0 + Shift(e);
              && refused == CheckRange(e.region.mem.Length, a, if n < 0 then 0 else n)
              && (refused.None? ==> start == start0 + n && address == address0 + n && length == length0 - n)
              && Contents(regions) == if refused.Some? then old(Contents(regions))
                                      else Patched(old(Contents(regions)), e.region.mem, a,
                                          Piece(data, start0, start0 + n))
    {
      hide Patch, Piece;
      start, address, length := start0, address0, length0;
      var segAddr := address - e.base;
      var segLen := if e.size - segAddr < length then e.size - segAddr else length;
      var offset;
      if e.offset == None {
        segAddr := address;
        offset := 0;
      } else {
        offset := e.offset.value;
      }
      ghost var was := Contents(regions);
      var piece := Piece(data, start, start + segLen);
      refused := e.region.Write(segAddr + offset, piece);
      OneMemory(regions, e.region.mem, was, e.region.mem[..]);
      PieceLength(data, start, start + segLen);
      if refused.None? {
        address, start, length := address + segLen, start + segLen, length - segLen;
      }
    }

    method WriteRegions(address0: int, data: seq<bv8>) returns (error: Option<Error>)
      modifies Memories(regions)
      ensures error == SpaceWrite(size, regions, address0, |data|)
      ensures Contents(regions) == SpaceAfter(size, regions, old(Contents(regions)), address0, data)
    {
      hide Disjoint, RegionsFor, JustOverlapping, Overlaps, Chain, Patched, ThroughError, After, Piece, Contents;
      ghost var image := Contents(regions);
      var found := FindRegions(address0, |data|);
      if found.Failure? {
        return Some(found.error);
      }
      var entries := found.value;
      ThroughEnd(address0, address0, image, data, |data|);
      if entries == [] {
        return Some(InvalidAddress);
      }
      var start, address, length := 0, address0, |data|;
      assert entries[0..] == entries;
      for j := 0 to |entries|
        invariant 0 <= start == address - address0 && start + length == |data| && length >= 0
        invariant ThroughError(entries, address0, |data|) == ThroughError(entries[j..], address, length)
        invariant After(entries, image, address0, address0, data) ==
                  After(entries[j..], Contents(regions), address0, address, data)
      {
        var e := entries[j];
        assert entries[j..][1..] == entries[j + 1..];
        FoundEntry(regions, entries, address0, AtLeastOne(|data|), j);
        ThroughErrorStep(entries[j..], address, length);
        AfterStep(entries[j..], Contents(regions), address0, address, data);
        if e.base > address {
          return Some(InvalidAddress);
        }
        var refused;
        refused, start, address, length := WriteSegment(e, start, address, length, data);
        if refused.Some? {
          return refused;
        }
      }
      ThroughEnd(address0, address, Contents(regions), data, length);
      if length > 0 {
        return Some(InvalidAddress);
      }
      return None;
    }
  }

  /** None for a space without a place of its own. */
  function AbsoluteAddress(base: Option<int>, size: int, address: int): Result<Option<int>, Error> {
    match base
    case None => Success(None)
    case Some(b) =>
      match CheckRange(size, address, 0)
      case Some(e) => Failure(e)
      case None => Success(Some(address + b))
  }

  // ---------------------------------------------------------------- the region table

  /** Addresses [base, base + size) belong to the region. They are counted from base, plus the
      offset, or passed on as they are when there is no offset. */
  datatype Entry = Entry(base: int, size: int, offset: Option<int>, region: MemoryRegion)

  function End(e: Entry): int {
    e.base + e.size
  }

  /** Added to an address it gives the address within the region. */
  function Shift(e: Entry): int {
    match e.offset
    case Some(o) => o - e.base
    case None => 0
  }

  predicate Contains(e: Entry, a: int) {
    e.base <= a < End(e)
  }

  predicate Overlaps(e: Entry, address: int, length: int) {
    address < End(e) && e.base < address + length
  }

  /** Two ranges overlap when they have an address in common; an empty region overlaps a range
      that it lies inside of. */
  lemma OverlapsMeans(e: Entry, address: int, length: int)
    requires length > 0 && e.size >= 0
    ensures Overlaps(e, address, length) <==>
            || (exists a :: Contains(e, a) && address <= a < address + length)
            || (e.size == 0 && address < e.base < address + length)
  {
    if Overlaps(e, address, length) && e.size > 0 {
      assert Contains(e, if address < e.base then e.base else address);
    }
  }

  function AtLeastOne(length: int): (n: int)
    ensures n >= 1 && n >= length && (n == 1 || n == length)
  {
    if length < 1 then 1 else length
  }

  predicate Apart(d: Entry, e: Entry) {
    End(d) <= e.base || End(e) <= d.base
  }

  /** The regions have no address in common, and an empty one lies in no other. */
  ghost predicate Disjoint(entries: seq<Entry>) {
    && (forall i :: 0 <= i < |entries| ==> entries[i].size >= 0)
    && (forall i, j :: 0 <= i < j < |entries| ==> Apart(entries[i], entries[j]))
  }

  /** The entry lies within its memory, at a place that the memory has: at the offset, or at its
      own base when there is none. */
  predicate Fits(e: Entry) {
    match e.offset
    case Some(o) => 0 <= o < e.region.mem.Length && o + e.size <= e.region.mem.Length
    case None => 0 <= e.base < e.region.mem.Length && e.base + e.size <= e.region.mem.Length
  }

  ghost predicate AllFit(entries: seq<Entry>) {
    forall i :: 0 <= i < |entries| ==> Fits(entries[i])
  }

  /** No two entries share a memory. */
  ghost predicate OwnMemories(entries: seq<Entry>) {
    forall i, j :: 0 <= i < j < |entries| ==> entries[i].region.mem != entries[j].region.mem
  }

  ghost predicate Covered(entries: seq<Entry>, a: int) {
    exists i :: 0 <= i < |entries| && Contains(entries[i], a)
  }

  ghost predicate AllCovered(entries: seq<Entry>, from: int, to: int) {
    forall a :: from <= a < to ==> Covered(entries, a)
  }

  /** The entries that overlap the range, in the order of the table. */
  function Select(entries: seq<Entry>, address: int, length: int): (r: seq<Entry>)
    decreases |entries|
  {
    if entries == [] then []
    else (if Overlaps(entries[0], address, length) then [entries[0]] else []) + Select(entries[1..], address, length)
  }

  /** The list holds just the entries that overlap the range. */
  ghost predicate JustOverlapping(entries: seq<Entry>, found: seq<Entry>, from: int, length: int) {
    && (forall i :: 0 <= i < |found| ==> found[i] in entries && Overlaps(found[i], from, length))
    && (forall i :: 0 <= i < |entries| && Overlaps(entries[i], from, length) ==> entries[i] in found)
  }

  lemma {:induction false} SelectMembers(entries: seq<Entry>, address: int, length: int)
    ensures JustOverlapping(entries, Select(entries, address, length), address, length)
    decreases |entries|
  {
    hide Overlaps;
    if entries != [] {
      var tail := entries[1..];
      var r, rest := Select(entries, address, length), Select(tail, address, length);
      SelectMembers(tail, address, length);
      assert forall i :: 0 <= i < |tail| ==> tail[i] == entries[i + 1];
      assert forall i :: 0 <= i < |rest| ==> rest[i] in tail && Overlaps(rest[i], address, length);
      forall i | 0 <= i < |r|
        ensures r[i] in entries && Overlaps(r[i], address, length)
      {
        if Overlaps(entries[0], address, length) {
          assert r == [entries[0]] + rest;
          assert i > 0 ==> rest[i - 1] in tail;
        } else {
          assert r == rest && rest[i] in tail;
        }
      }
      forall i | 0 <= i < |entries| && Overlaps(entries[i], address, length)
        ensures entries[i] in r
      {
        if i > 0 {
          assert tail[i - 1] in rest;
        }
      }
    }
  }

  ghost predicate Subset(a: seq<Entry>, b: seq<Entry>) {
    forall i :: 0 <= i < |a| ==> a[i] in b
  }

  /** Entries are sorted by base, size and offset. */
  predicate AtMost(d: Entry, e: Entry) {
    || d.base < e.base
    || (d.base == e.base && d.size < e.size)
    || (d.base == e.base && d.size == e.size &&
          (d.offset == e.offset || (d.offset.Some? && e.offset.Some? && d.offset.value < e.offset.value)))
  }

  /** The comparison of two entries fails when it comes to a missing offset, or to the regions. */
  predicate Clash(d: Entry, e: Entry) {
    && d.base == e.base && d.size == e.size
    && if d.offset == e.offset then d.region != e.region else d.offset.None? || e.offset.None?
  }

  predicate Clashing(s: seq<Entry>) {
    exists i, j :: 0 <= i < j < |s| && Clash(s[i], s[j])
  }

  function Insert(e: Entry, s: seq<Entry>): (r: seq<Entry>)
    decreases |s|
  {
    if s == [] || AtMost(e, s[0]) then [e] + s else [s[0]] + Insert(e, s[1..])
  }

  function Sort(s: seq<Entry>): (r: seq<Entry>)
    decreases |s|
  {
    if s == [] then [] else Insert(s[0], Sort(s[1..]))
  }

  /** The entry comes first: by base, then size, then offset, where there is one to compare. */
  predicate Less(d: Entry, e: Entry) {
    || d.base < e.base
    || (d.base == e.base && d.size < e.size)
    || (d.base == e.base && d.size == e.size && d.offset.Some? && e.offset.Some? && d.offset.value < e.offset.value)
  }

  /** The comparison fails just for different entries of which neither comes first. */
  lemma ClashMeans(d: Entry, e: Entry)
    ensures Clash(d, e) <==> d != e && !Less(d, e) && !Less(e, d)
  {
  }

  lemma AtMostMeans(d: Entry, e: Entry)
    requires !Clash(d, e)
    ensures AtMost(d, e) <==> !Less(e, d)
  {
  }

  ghost predicate InOrder(s: seq<Entry>) {
    forall i, j :: 0 <= i < j < |s| ==> !Less(s[j], s[i])
  }

  lemma {:induction false} InsertKeepsOrder(e: Entry, s: seq<Entry>)
    requires InOrder(s) && forall i :: 0 <= i < |s| ==> !Clash(e, s[i])
    ensures InOrder(Insert(e, s))
    decreases |s|
  {
    hide Less, Clash, AtMost;
    if s != [] {
      AtMostMeans(e, s[0]);
      if AtMost(e, s[0]) {
        forall j | 0 <= j < |s|
          ensures !Less(s[j], e)
        {
          NothingIsLess(s[0]);
          NotLessJoins(e, s[0], s[j]);
        }
      } else {
        var r := Insert(e, s[1..]);
        InsertKeepsOrder(e, s[1..]);
        InsertMembers(e, s[1..]);
        LessIsOneWay(s[0], e);
        forall j | 0 <= j < |r|
          ensures !Less(r[j], s[0])
        {
          assert r[j] in [e] + s[1..];
        }
      }
    }
  }

  lemma NothingIsLess(e: Entry)
    ensures !Less(e, e)
  {
  }

  lemma LessIsOneWay(d: Entry, e: Entry)
    requires Less(d, e)
    ensures !Less(e, d)
  {
  }

  /** Where no comparison fails, the order carries on. */
  lemma NotLessJoins(d: Entry, e: Entry, f: Entry)
    requires !Less(e, d) && !Less(f, e) && !Clash(d, e) && !Clash(d, f)
    ensures !Less(f, d)
  {
  }

  /** Entries that can all be compared are put in order. */
  lemma {:induction false} SortOrders(s: seq<Entry>)
    requires !Clashing(s)
    ensures InOrder(Sort(s))
    decreases |s|
  {
    hide Less, Clash;
    if s != [] {
      var t := s[1..];
      assert !Clashing(t) by {
        assert forall i :: 0 <= i < |t| ==> t[i] == s[i + 1];
      }
      SortOrders(t);
      SortMembers(t);
      forall i | 0 <= i < |Sort(t)|
        ensures !Clash(s[0], Sort(t)[i])
      {
        assert Sort(t)[i] in t;
        var k :| 0 <= k < |t| && t[k] == Sort(t)[i];
        assert !Clash(s[0], s[k + 1]);
      }
      InsertKeepsOrder(s[0], Sort(t));
    }
  }

  /** One behind the other, without a common address. */
  ghost predicate Chain(s: seq<Entry>) {
    (forall i :: 0 <= i < |s| ==> s[i].size >= 0) && forall i, j :: 0 <= i < j < |s| ==> End(s[i]) <= s[j].base
  }

  lemma {:induction false} InsertMembers(e: Entry, s: seq<Entry>)
    ensures Subset(Insert(e, s), [e] + s) && Subset([e] + s, Insert(e, s))
    decreases |s|
  {
    if s != [] && !AtMost(e, s[0]) {
      var r := Insert(e, s[1..]);
      InsertMembers(e, s[1..]);
      forall i | 0 <= i < |r|
        ensures r[i] in [e] + s
      {
        assert r[i] in [e] + s[1..];
      }
      forall i | 0 <= i < |s| + 1
        ensures ([e] + s)[i] in Insert(e, s)
      {
        if i == 0 {
          assert ([e] + s[1..])[0] in r;
        } else if i > 1 {
          assert ([e] + s[1..])[i - 1] in r;
        }
      }
    }
  }

  lemma {:induction false} SortMembers(s: seq<Entry>)
    ensures Subset(Sort(s), s) && Subset(s, Sort(s))
    decreases |s|
  {
    if s != [] {
      var r := Sort(s[1..]);
      SortMembers(s[1..]);
      InsertMembers(s[0], r);
      forall i | 0 <= i < |Sort(s)|
        ensures Sort(s)[i] in s
      {
        assert Sort(s)[i] in [s[0]] + r;
        if Sort(s)[i] != s[0] {
          var k :| 0 <= k < |r| && r[k] == Sort(s)[i];
          assert r[k] in s[1..];
        }
      }
      forall i | 0 <= i < |s|
        ensures s[i] in Sort(s)
      {
        if i == 0 {
          assert ([s[0]] + r)[0] in Sort(s);
        } else {
          assert s[1..][i - 1] in r;
          var k :| 0 <= k < |r| && r[k] == s[i];
          assert ([s[0]] + r)[k + 1] in Sort(s);
        }
      }
    }
  }

  lemma {:induction false} InsertChains(e: Entry, s: seq<Entry>)
    requires Chain(s) && e.size >= 0 && forall i :: 0 <= i < |s| ==> Apart(e, s[i])
    ensures Chain(Insert(e, s))
    decreases |s|
  {
    if s != [] && !AtMost(e, s[0]) {
      var t := s[1..];
      assert forall i :: 0 <= i < |t| ==> t[i] == s[i + 1];
      InsertChains(e, s[1..]);
      InsertMembers(e, s[1..]);
      assert Apart(e, s[0]);
      var r := Insert(e, s[1..]);
      forall j | 0 <= j < |r|
        ensures End(s[0]) <= r[j].base
      {
        assert r[j] in [e] + s[1..];
      }
    } else {
      forall j | 0 <= j < |s|
        ensures End(e) <= s[j].base
      {
        assert Apart(e, s[j]) && s[0].size >= 0 && s[j].size >= 0 && (j > 0 ==> End(s[0]) <= s[j].base);
      }
    }
  }

  lemma {:induction false} SortChains(s: seq<Entry>)
    requires Disjoint(s)
    ensures Chain(Sort(s))
    decreases |s|
  {
    hide Chain;
    if s != [] {
      var r := Sort(s[1..]);
      SortChains(s[1..]);
      SortMembers(s[1..]);
      forall i | 0 <= i < |r|
        ensures Apart(s[0], r[i])
      {
        assert r[i] in s[1..];
        var j :| 0 <= j < |s[1..]| && s[1..][j] == r[i];
        assert s[j + 1] == r[i];
      }
      InsertChains(s[0], r);
    } else {
      NoChain();
    }
  }

  lemma NoChain()
    ensures Chain([])
  {
  }

  lemma DisjointHead(e: Entry, s: seq<Entry>)
    requires Disjoint(s) && e.size >= 0 && forall i :: 0 <= i < |s| ==> Apart(e, s[i])
    ensures Disjoint([e] + s)
  {
  }

  lemma DisjointTail(s: seq<Entry>)
    requires Disjoint(s) && s != []
    ensures Disjoint(s[1..]) && s[0].size >= 0
    ensures forall i :: 0 <= i < |s[1..]| ==> Apart(s[0], s[1..][i])
  {
    forall i | 0 <= i < |s[1..]|
      ensures Apart(s[0], s[1..][i])
    {
      assert s[1..][i] == s[i + 1];
    }
  }

  lemma {:induction false} SelectStaysDisjoint(s: seq<Entry>, address: int, length: int)
    requires Disjoint(s)
    ensures Disjoint(Select(s, address, length))
    decreases |s|
  {
    hide Overlaps, Disjoint, Apart;
    if s != [] {
      var tail := s[1..];
      var rest := Select(tail, address, length);
      DisjointTail(s);
      SelectStaysDisjoint(tail, address, length);
      if Overlaps(s[0], address, length) {
        SelectMembers(tail, address, length);
        forall j | 0 <= j < |rest|
          ensures Apart(s[0], rest[j])
        {
          assert rest[j] in tail;
          var k :| 0 <= k < |tail| && tail[k] == rest[j];
        }
        DisjointHead(s[0], rest);
      } else {
        assert [] + rest == rest;
      }
    } else {
      NothingOverlaps();
    }
  }

  lemma NothingOverlaps()
    ensures Disjoint([])
  {
  }

  function Found(entries: seq<Entry>, address: int, length: int): seq<Entry> {
    Sort(Select(entries, address, AtLeastOne(length)))
  }

  /** What find_regions answers. */
  function RegionsFor(size: int, entries: seq<Entry>, address: int, length: int): Result<seq<Entry>, Error> {
    if !InSpace(size, address, length) then Failure(RangeError(size, address))
    else if Clashing(Select(entries, address, AtLeastOne(length))) then Failure(Incomparable)
    else Success(Found(entries, address, length))
  }

  lemma FoundOverlaps(entries: seq<Entry>, address: int, length: int)
    ensures JustOverlapping(entries, Found(entries, address, length), address, AtLeastOne(length))
  {
    hide Overlaps, AtLeastOne;
    var n := AtLeastOne(length);
    var s := Select(entries, address, n);
    var found := Sort(s);
    SelectMembers(entries, address, n);
    SortMembers(s);
    forall i | 0 <= i < |found|
      ensures found[i] in entries && Overlaps(found[i], address, n)
    {
      assert found[i] in s;
      var k :| 0 <= k < |s| && s[k] == found[i];
    }
    forall i | 0 <= i < |entries| && Overlaps(entries[i], address, n)
      ensures entries[i] in found
    {
      assert entries[i] in s;
      var k :| 0 <= k < |s| && s[k] == entries[i];
      assert s[k] in found;
    }
  }

  lemma FoundIsChain(entries: seq<Entry>, address: int, length: int)
    requires Disjoint(entries)
    ensures Chain(Found(entries, address, length)) &&
            JustOverlapping(entries, Found(entries, address, length), address, AtLeastOne(length))
  {
    hide Overlaps, Chain, Disjoint, JustOverlapping;
    SelectStaysDisjoint(entries, address, AtLeastOne(length));
    SortChains(Select(entries, address, AtLeastOne(length)));
    FoundOverlaps(entries, address, length);
  }

  /** Only empty regions cannot be told apart by their place and size. */
  lemma OnlyEmptyClash(entries: seq<Entry>, address: int, length: int)
    requires Disjoint(entries) && forall i :: 0 <= i < |entries| ==> entries[i].size > 0
    ensures !Clashing(Select(entries, address, length))
  {
    var s := Select(entries, address, length);
    SelectStaysDisjoint(entries, address, length);
    SelectMembers(entries, address, length);
    forall i, j | 0 <= i < j < |s|
      ensures !Clash(s[i], s[j])
    {
      assert Apart(s[i], s[j]) && s[i] in entries;
      var k :| 0 <= k < |entries| && entries[k] == s[i];
    }
  }

  lemma FoundNone(entries: seq<Entry>, address: int, length: int)
    ensures Found(entries, address, length) == [] <==>
            forall i :: 0 <= i < |entries| ==> !Overlaps(entries[i], address, AtLeastOne(length))
  {
    hide Overlaps;
    var s := Select(entries, address, AtLeastOne(length));
    SelectMembers(entries, address, AtLeastOne(length));
    SortMembers(s);
    if Found(entries, address, length) != [] {
      assert Sort(s)[0] in s;
    }
  }

  lemma RegisterKeepsDisjoint(entries: seq<Entry>, e: Entry)
    requires Disjoint(entries) && e.size >= 0
    requires forall i :: 0 <= i < |entries| ==> !Overlaps(entries[i], e.base, AtLeastOne(e.size))
    ensures Disjoint(entries + [e])
  {
  }

  // ---------------------------------------------------------------- walking over the found entries

  /** The first j found entries have been used, up to address at; left bytes are to come. */
  ghost predicate Walking(entries: seq<Entry>, found: seq<Entry>, from: int, length: int, j: int, at: int, left: int) {
    && 0 <= j <= |found| && from <= at && left >= 0 && at + left == from + length
    && Chain(found) && JustOverlapping(entries, found, from, AtLeastOne(length))
    && (j == 0 ==> at == from)
    && (j > 0 ==> if left > 0 then at == End(found[j - 1]) else j == |found|)
    && AllCovered(entries, from, at)
    && (left == 0 && length == 0 && j > 0 ==> Covered(entries, from))
  }

  lemma WalkBegins(entries: seq<Entry>, from: int, length: int)
    requires Disjoint(entries) && length >= 0
    ensures Walking(entries, Found(entries, from, length), from, length, 0, from, length)
  {
    FoundIsChain(entries, from, length);
  }

  /** The next entry either has the next address, or that address is in no entry. */
  lemma WalkSteps(entries: seq<Entry>, found: seq<Entry>, from: int, length: int, j: int, at: int, left: int)
    requires Walking(entries, found, from, length, j, at, left) && j < |found| && length >= 0
    ensures var e := found[j];
            if e.base > at then at < from + AtLeastOne(length) && !Covered(entries, at)
            else
              && e.base <= at <= End(e) && e in entries && (e.size > 0 ==> at < End(e))
              && var n := if End(e) - at < left then End(e) - at else left;
                 Walking(entries, found, from, length, j + 1, at + n, left - n)
  {
    var e := found[j];
    assert e in found && Overlaps(e, from, AtLeastOne(length));
    if e.base > at {
      WalkFails(entries, found, from, length, j, at, left);
    } else {
      var n := if End(e) - at < left then End(e) - at else left;
      forall a | at <= a < at + n
        ensures Covered(entries, a)
      {
        assert Contains(e, a);
        ContainedIsCovered(entries, e, a);
      }
      if Contains(e, at) {
        ContainedIsCovered(entries, e, at);
      }
      assert j + 1 < |found| ==> Overlaps(found[j + 1], from, AtLeastOne(length)) && End(e) <= found[j + 1].base;
    }
  }

  lemma ContainedIsCovered(entries: seq<Entry>, e: Entry, a: int)
    requires e in entries && Contains(e, a)
    ensures Covered(entries, a)
  {
    var i :| 0 <= i < |entries| && entries[i] == e;
    assert Contains(entries[i], a);
  }

  /** When no found entry is left for the next address, no entry at all has it. */
  lemma WalkFails(entries: seq<Entry>, found: seq<Entry>, from: int, length: int, j: int, at: int, left: int)
    requires Walking(entries, found, from, length, j, at, left) && length >= 0
    requires j < |found| ==> found[j].base > at
    requires left > 0 || (j == 0 && length == 0)
    ensures !Covered(entries, at)
  {
    forall k | 0 <= k < |found|
      ensures !Contains(found[k], at)
    {
      assert k < j - 1 ==> End(found[k]) <= found[j - 1].base;
      assert j < k ==> End(found[j]) <= found[k].base;
    }
    forall i | 0 <= i < |entries|
      ensures !Contains(entries[i], at)
    {
      assert Contains(entries[i], at) ==> Overlaps(entries[i], from, AtLeastOne(length));
      assert Overlaps(entries[i], from, AtLeastOne(length)) ==> entries[i] in found;
    }
  }

  // ---------------------------------------------------------------- the flat byte map

  /** The first entry that contains the address. */
  function Lookup(entries: seq<Entry>, a: int): (k: nat)
    ensures k <= |entries| && (k < |entries| ==> Contains(entries[k], a))
    ensures forall i :: 0 <= i < k ==> !Contains(entries[i], a)
    decreases |entries|
  {
    if entries == [] || Contains(entries[0], a) then 0 else 1 + Lookup(entries[1..], a)
  }

  lemma LookupIsUnique(entries: seq<Entry>, e: Entry, a: int)
    requires Disjoint(entries) && e in entries && Contains(e, a)
    ensures Lookup(entries, a) < |entries| && entries[Lookup(entries, a)] == e
  {
    var k := Lookup(entries, a);
    var i :| 0 <= i < |entries| && entries[i] == e;
    assert Contains(entries[i], a);
  }

  ghost function Memories(entries: seq<Entry>): set<array<bv8>> {
    set i | 0 <= i < |entries| :: entries[i].region.mem
  }

  /** The byte that the space has at an address: from the offset on, the memory has the bytes of
      the addresses from the base on. Without an offset, addresses of the space are those of the memory. */
  ghost function ByteAt(entries: seq<Entry>, image: Image, a: int): bv8
    requires Covered(entries, a) && AllFit(entries) && Complete(entries, image)
  {
    var e := entries[Lookup(entries, a)];
    assert Fits(e) && Contains(e, a);
    match e.offset
    case Some(o) => BytesOf(image, e.region.mem)[o + (a - e.base)]
    case None => BytesOf(image, e.region.mem)[a]
  }

  /** Counted from the base of its region, byte k is at the offset plus k, or at the address itself. */
  lemma ByteOfRegion(entries: seq<Entry>, image: Image, e: Entry, k: nat)
    requires Disjoint(entries) && AllFit(entries) && Complete(entries, image) && e in entries && k < e.size
    ensures Covered(entries, e.base + k)
    ensures var bytes := BytesOf(image, e.region.mem);
            match e.offset
            case Some(o) => 0 <= o + k < |bytes| && ByteAt(entries, image, e.base + k) == bytes[o + k]
            case None => 0 <= e.base + k < |bytes| && ByteAt(entries, image, e.base + k) == bytes[e.base + k]
  {
    ByteInEntry(entries, image, e, e.base + k);
  }

  lemma ByteInEntry(entries: seq<Entry>, image: Image, e: Entry, a: int)
    requires Disjoint(entries) && AllFit(entries) && Complete(entries, image) && e in entries && Contains(e, a)
    ensures Covered(entries, a) && 0 <= a + Shift(e) < e.region.mem.Length == |BytesOf(image, e.region.mem)|
    ensures ByteAt(entries, image, a) == BytesOf(image, e.region.mem)[a + Shift(e)]
  {
    LookupIsUnique(entries, e, a);
    ContainedIsCovered(entries, e, a);
  }

  /** The first address from here on that no entry has. */
  ghost predicate FirstGap(entries: seq<Entry>, from: int, gap: int) {
    from <= gap && AllCovered(entries, from, gap) && !Covered(entries, gap)
  }

  predicate InSpace(size: int, address: int, length: int) {
    0 <= address < size && length >= 0
  }

  function RangeError(size: int, address: int): Error {
    if address < 0 || address >= size then OutOfRange else InvalidLength
  }

  /** The bytes of some memories. */
  type Image = map<array<bv8>, seq<bv8>>

  /** The contents of the mapped memories. */
  ghost function Contents(entries: seq<Entry>): Image
    reads Memories(entries)
  {
    map m | m in Memories(entries) :: m[..]
  }

  function BytesOf(image: Image, mem: array<bv8>): seq<bv8> {
    if mem in image then image[mem] else []
  }

  /** The image has the bytes of all mapped memories. */
  ghost predicate Complete(entries: seq<Entry>, image: Image) {
    forall i :: 0 <= i < |entries| ==> |BytesOf(image, entries[i].region.mem)| == entries[i].region.mem.Length
  }

  /** Just one memory has changed. */
  lemma OneMemory(entries: seq<Entry>, mem: array<bv8>, before: Image, bytes: seq<bv8>)
    requires mem in Memories(entries) && before.Keys == Memories(entries) && mem[..] == bytes
    requires forall m :: m in before && m != mem ==> before[m] == m[..]
    ensures Contents(entries) == before[mem := bytes]
  {
  }

  /** From one image to the other, just the bytes at addresses from up to to have become data. */
  ghost predicate Written(entries: seq<Entry>, before: Image, after: Image, from: int, to: int, data: seq<bv8>)
    requires to - from <= |data|
  {
    forall i :: 0 <= i < |entries| ==>
      WrittenIn(entries[i], BytesOf(before, entries[i].region.mem), BytesOf(after, entries[i].region.mem), from, to,
          data)
  }

  ghost predicate WrittenIn(e: Entry, before: seq<bv8>, after: seq<bv8>, from: int, to: int, data: seq<bv8>)
    requires to - from <= |data|
  {
    |before| == |after| &&
    forall x :: 0 <= x < |after| ==>
      after[x] == if Contains(e, x - Shift(e)) && from <= x - Shift(e) < to then data[x - Shift(e) - from]
          else before[x]
  }

  lemma NothingWritten(entries: seq<Entry>, image: Image, from: int, data: seq<bv8>)
    ensures Written(entries, image, image, from, from, data)
  {
  }

  /** Seen as a flat byte map, just the range written has changed. */
  lemma WrittenBytes(entries: seq<Entry>, before: Image, after: Image, from: int, to: int, data: seq<bv8>, a: int)
    requires AllFit(entries) && Complete(entries, before) && to - from <= |data| &&
             Written(entries, before, after, from, to, data)
    requires Covered(entries, a)
    ensures Complete(entries, after)
    ensures ByteAt(entries, after, a) == if from <= a < to then data[a - from] else ByteAt(entries, before, a)
  {
    hide Lookup, BytesOf, Contains, Fits, WrittenIn;
    var e := entries[Lookup(entries, a)];
    assert Complete(entries, after) by {
      hide Lookup, AllFit, ByteAt;
      forall i | 0 <= i < |entries|
        ensures |BytesOf(after, entries[i].region.mem)| == entries[i].region.mem.Length
      {
        SameSize(entries[i], BytesOf(before, entries[i].region.mem), BytesOf(after, entries[i].region.mem), from, to,
                 data);
      }
    }
    assert Fits(e) && Contains(e, a);
    WrittenAt(e, BytesOf(before, e.region.mem), BytesOf(after, e.region.mem), from, to, data, a);
  }

  lemma SameSize(e: Entry, before: seq<bv8>, after: seq<bv8>, from: int, to: int, data: seq<bv8>)
    requires to - from <= |data| && WrittenIn(e, before, after, from, to, data)
    ensures |before| == |after|
  {
  }

  lemma WrittenAt(e: Entry, before: seq<bv8>, after: seq<bv8>, from: int, to: int, data: seq<bv8>, a: int)
    requires to - from <= |data| && WrittenIn(e, before, after, from, to, data)
    requires Fits(e) && Contains(e, a) && |before| == e.region.mem.Length
    ensures |after| == |before|
    ensures var x := match e.offset case Some(o) => o + (a - e.base) case None => a;
            0 <= x < |after| && after[x] == if from <= a < to then data[a - from] else before[x]
  {
  }

  /** One more segment written. */
  lemma SegmentWritten(entries: seq<Entry>, before: Image, mid: Image, after: Image, k: nat, from: int, at: int,
                       to: int, data: seq<bv8>)
    requires k < |entries| && entries[k].base <= at && from <= at <= to <= End(entries[k]) && to - from <= |data|
    requires Written(entries, before, mid, from, at, data)
    requires forall i :: 0 <= i < |entries| && i != k ==>
               BytesOf(after, entries[i].region.mem) == BytesOf(mid, entries[i].region.mem) &&
                   AwayFrom(entries[i], at, to)
    requires var e := entries[k]; var was := BytesOf(mid, e.region.mem); var now := BytesOf(after, e.region.mem);
             |now| == |was| && forall x :: 0 <= x < |now| ==>
               now[x] == if at <= x - Shift(e) < to then data[x - Shift(e) - from] else was[x]
    ensures Written(entries, before, after, from, to, data)
  {
    forall i | 0 <= i < |entries|
      ensures WrittenIn(entries[i], BytesOf(before, entries[i].region.mem), BytesOf(after, entries[i].region.mem), from,
              to, data)
    {
      assert WrittenIn(entries[i], BytesOf(before, entries[i].region.mem), BytesOf(mid, entries[i].region.mem), from,
             at, data);
    }
  }

  predicate AwayFrom(e: Entry, from: int, to: int) {
    End(e) <= from || to <= e.base
  }

  lemma OthersAreAway(entries: seq<Entry>, k: nat, from: int, to: int)
    requires Disjoint(entries) && k < |entries|
    requires entries[k].base <= from && to <= End(entries[k])
    ensures forall i :: 0 <= i < |entries| && i != k ==> AwayFrom(entries[i], from, to)
  {
    forall i | 0 <= i < |entries| && i != k
      ensures AwayFrom(entries[i], from, to)
    {
      if i < k {
        assert Apart(entries[i], entries[k]);
      } else {
        assert Apart(entries[k], entries[i]);
      }
    }
  }

  // ---------------------------------------------------------------- reads and writes of a space

  function Least(a: int, b: int): int {
    if a < b then a else b
  }

  function Behind(data: seq<bv8>, rest: Result<seq<bv8>, Error>): Result<seq<bv8>, Error> {
    match rest
    case Failure(e) => Failure(e)
    case Success(more) => Success(data + more)
  }

  /** A read that goes through the entries one by one. Each serves what it can from the address
      reached so far, whether it has that address or not. */
  ghost function ReadThrough(found: seq<Entry>, image: Image, address: int, length: int): Result<seq<bv8>, Error>
    decreases |found|
  {
    if found == [] then if length > 0 then Failure(InvalidAddress) else Success([])
    else
      var e := found[0];
      var n := Least(End(e) - address, length);
      var a := address + Shift(e);
      if e.base > address then Failure(InvalidAddress)
      else
        match CheckRange(e.region.mem.Length, a, n)
        case Some(error) => Failure(error)
        case None => Behind(Piece(BytesOf(image, e.region.mem), a, a + n),
            ReadThrough(found[1..], image, address + n, length - n))
  }

  lemma BehindNothing(r: Result<seq<bv8>, Error>)
    ensures Behind([], r) == r
  {
    assert r.Success? ==> [] + r.value == r.value;
  }

  lemma ReadThroughEnd(image: Image, data: seq<bv8>, address: int, length: int)
    ensures Behind(data, ReadThrough([], image, address, length)) ==
            if length > 0 then Failure(InvalidAddress) else Success(data)
  {
    assert data + [] == data;
  }

  lemma ReadThroughStep(found: seq<Entry>, image: Image, data: seq<bv8>, address: int, length: int)
    requires found != []
    ensures var e := found[0];
            var n := Least(End(e) - address, length);
            var a := address + Shift(e);
            Behind(data, ReadThrough(found, image, address, length)) ==
            if e.base > address then Failure(InvalidAddress)
            else
              match CheckRange(e.region.mem.Length, a, n)
              case Some(error) => Failure(error)
              case None => Behind(data + Piece(BytesOf(image, e.region.mem), a, a + n),
                  ReadThrough(found[1..], image, address + n, length - n))
  {
    hide Shift, End, Piece;
    var e := found[0];
    var n := Least(End(e) - address, length);
    var a := address + Shift(e);
    var rest := ReadThrough(found[1..], image, address + n, length - n);
    var piece := Piece(BytesOf(image, e.region.mem), a, a + n);
    assert rest.Success? ==> data + (piece + rest.value) == data + piece + rest.value;
  }

  /** What a space with these contents answers to a read, for every table. */
  ghost function SpaceRead(size: int, entries: seq<Entry>, image: Image, address: int, length: int)
    : Result<seq<bv8>, Error>
  {
    match RegionsFor(size, entries, address, length)
    case Failure(e) => Failure(e)
    case Success(found) => if found == [] then Failure(InvalidAddress) else ReadThrough(found, image, address, length)
  }

  /** A stretch of the data; nothing when its end is in front of its start. */
  function Piece(data: seq<bv8>, from: int, to: int): seq<bv8> {
    if 0 <= from <= to <= |data| then data[from..to] else []
  }

  /** The bytes with a piece put in at an address. */
  function Patch(bytes: seq<bv8>, a: int, piece: seq<bv8>): (r: seq<bv8>)
    ensures |r| == |bytes|
    ensures forall x :: 0 <= x < |r| ==> r[x] == if a <= x < a + |piece| then piece[x - a] else bytes[x]
  {
    seq(|bytes|, x requires 0 <= x < |bytes| => if a <= x < a + |piece| then piece[x - a] else bytes[x])
  }

  /** The error of a write that goes through the entries one by one. A stretch of negative
      length is written as an empty one. */
  function ThroughError(found: seq<Entry>, address: int, length: int): Option<Error>
    decreases |found|
  {
    if found == [] then if length > 0 then Some(InvalidAddress) else None
    else
      var e := found[0];
      var n := Least(End(e) - address, length);
      if e.base > address then Some(InvalidAddress)
      else
        match CheckRange(e.region.mem.Length, address + Shift(e), if n < 0 then 0 else n)
        case Some(error) => Some(error)
        case None => ThroughError(found[1..], address + n, length - n)
  }

  /** What such a write of data from an address on, having got as far as another, makes of the
      memories. */
  ghost function After(found: seq<Entry>, image: Image, from: int, address: int, data: seq<bv8>): Image
    decreases |found|
  {
    if found == [] || found[0].base > address then image
    else
      var e := found[0];
      var n := Least(End(e) - address, from + |data| - address);
      var a := address + Shift(e);
      if CheckRange(e.region.mem.Length, a, if n < 0 then 0 else n).Some? then image
      else After(found[1..], Patched(image, e.region.mem, a, Piece(data, address - from, address - from + n)), from,
          address + n, data)
  }

  ghost function Patched(image: Image, mem: array<bv8>, a: int, piece: seq<bv8>): Image {
    image[mem := Patch(BytesOf(image, mem), a, piece)]
  }

  lemma FoundEntry(entries: seq<Entry>, found: seq<Entry>, from: int, length: int, j: nat)
    requires JustOverlapping(entries, found, from, length) && j < |found|
    ensures found[j] in entries && from < End(found[j])
  {
  }

  lemma ThroughEnd(from: int, address: int, image: Image, data: seq<bv8>, length: int)
    ensures ThroughError([], address, length) == if length > 0 then Some(InvalidAddress) else None
    ensures After([], image, from, address, data) == image
  {
  }

  lemma PieceLength(data: seq<bv8>, from: int, to: int)
    requires 0 <= from && to <= |data|
    ensures |Piece(data, from, to)| == if to < from then 0 else to - from
  {
  }

  lemma ThroughErrorStep(found: seq<Entry>, address: int, length: int)
    requires found != []
    ensures var e := found[0];
            var n := Least(End(e) - address, length);
            ThroughError(found, address, length) ==
            if e.base > address then Some(InvalidAddress)
            else
              match CheckRange(e.region.mem.Length, address + Shift(e), if n < 0 then 0 else n)
              case Some(error) => Some(error)
              case None => ThroughError(found[1..], address + n, length - n)
  {
  }

  lemma AfterStep(found: seq<Entry>, image: Image, from: int, address: int, data: seq<bv8>)
    requires found != []
    ensures var e := found[0];
            var n := Least(End(e) - address, from + |data| - address);
            var a := address + Shift(e);
            After(found, image, from, address, data) ==
            if e.base > address || CheckRange(e.region.mem.Length, a, if n < 0 then 0 else n).Some? then image
            else After(found[1..], Patched(image, e.region.mem, a, Piece(data, address - from, address - from + n)),
                from, address + n, data)
  {
    hide Patched, Piece;
  }

  /** What a space answers to a write, for every table. */
  function SpaceWrite(size: int, entries: seq<Entry>, address: int, length: int): Option<Error> {
    match RegionsFor(size, entries, address, length)
    case Failure(e) => Some(e)
    case Success(found) => if found == [] then Some(InvalidAddress) else ThroughError(found, address, length)
  }

  /** What a write to a space makes of its memories, for every table. */
  ghost function SpaceAfter(size: int, entries: seq<Entry>, image: Image, address: int, data: seq<bv8>): Image {
    match RegionsFor(size, entries, address, |data|)
    case Failure(_) => image
    case Success(found) => After(found, image, address, address, data)
  }

  /** A range within the space is read exactly when all of it is covered, and then it gives the
      flat contents. */
  ghost predicate IsRead(size: int, entries: seq<Entry>, image: Image, address: int, length: int,
                         r: Result<seq<bv8>, Error>)
    requires AllFit(entries) && Complete(entries, image)
  {
    if address < 0 || address >= size then r == Failure(OutOfRange)
    else if length < 0 then r == Failure(InvalidLength)
    else if Clashing(Select(entries, address, AtLeastOne(length))) then r == Failure(Incomparable)
    else if !AllCovered(entries, address, address + AtLeastOne(length)) then r == Failure(InvalidAddress)
    else
      && r.Success? && |r.value| == length
      && forall k :: address <= k < address + length ==>
          Covered(entries, k) && r.value[k - address] == ByteAt(entries, image, k)
  }

  /** A range within the space is written up to its end when all of it is covered, and up to
      the first gap otherwise. */
  ghost predicate IsWritten(size: int, entries: seq<Entry>, address: int, length: nat, error: Option<Error>, to: int) {
    if address < 0 || address >= size then error == Some(OutOfRange) && to == address
    else if Clashing(Select(entries, address, AtLeastOne(length))) then error == Some(Incomparable) && to == address
    else if AllCovered(entries, address, address + AtLeastOne(length)) then error == None && to == address + length
    else error == Some(InvalidAddress) && FirstGap(entries, address, to)
  }

  lemma EntryFits(entries: seq<Entry>, e: Entry, at: int, n: int)
    requires AllFit(entries) && e in entries && e.base <= at <= at + n <= End(e) && n >= 0 &&
             (e.size > 0 ==> at < End(e))
    ensures CheckRange(e.region.mem.Length, at + Shift(e), n) == None
  {
    assert Fits(e);
  }

  /** The bytes read are those of the flat map from an address on. */
  ghost predicate Flat(entries: seq<Entry>, image: Image, at: int, bytes: seq<bv8>)
    requires AllFit(entries) && Complete(entries, image)
  {
    forall k :: at <= k < at + |bytes| ==> Covered(entries, k) && bytes[k - at] == ByteAt(entries, image, k)
  }

  lemma FlatPiece(entries: seq<Entry>, image: Image, e: Entry, at: int, n: int)
    requires Disjoint(entries) && AllFit(entries) && Complete(entries, image)
    requires e in entries && e.base <= at <= at + n <= End(e) && n >= 0 && (e.size > 0 ==> at < End(e))
    ensures var a := at + Shift(e); var bytes := Piece(BytesOf(image, e.region.mem), a, a + n);
            |bytes| == n && Flat(entries, image, at, bytes)
  {
    hide Disjoint, AllFit, Complete, ByteAt, Shift;
    EntryFits(entries, e, at, n);
    MemoryOf(entries, image, e);
    forall k | at <= k < at + n
      ensures Covered(entries, k) && BytesOf(image, e.region.mem)[k + Shift(e)] == ByteAt(entries, image, k)
    {
      ByteInEntry(entries, image, e, k);
    }
  }

  lemma MemoryOf(entries: seq<Entry>, image: Image, e: Entry)
    requires Complete(entries, image) && e in entries
    ensures |BytesOf(image, e.region.mem)| == e.region.mem.Length
  {
  }

  lemma FlatJoin(entries: seq<Entry>, image: Image, at: int, a: seq<bv8>, b: seq<bv8>)
    requires AllFit(entries) && Complete(entries, image) && Flat(entries, image, at, a) &&
             Flat(entries, image, at + |a|, b)
    ensures Flat(entries, image, at, a + b)
  {
  }

  /** The rest of a read, from the j-th found entry on. */
  lemma {:induction false} ReadWalks(entries: seq<Entry>, found: seq<Entry>, image: Image, from: int, length: int,
                                     j: int, at: int, left: int)
    requires Disjoint(entries) && AllFit(entries) && Complete(entries, image) && length >= 0 && found != []
    requires Walking(entries, found, from, length, j, at, left)
    ensures var r := ReadThrough(found[j..], image, at, left);
            if !AllCovered(entries, from, from + AtLeastOne(length)) then r == Failure(InvalidAddress)
            else r.Success? && |r.value| == left && Flat(entries, image, at, r.value)
    decreases |found| - j
  {
    hide Disjoint, AllFit, Complete, Walking, AllCovered, Covered, Flat, Piece, BytesOf, Shift, CheckRange, ReadThrough;
    WalkBounds(entries, found, from, length, j, at, left);
    BehindNothing(ReadThrough(found[j..], image, at, left));
    if j == |found| {
      assert found[j..] == [];
      ReadThroughEnd(image, [], at, left);
      WalkEnds(entries, found, from, length, at, left);
      FlatNothing(entries, image, at);
    } else {
      var e := found[j];
      assert found[j..][0] == e && found[j..][1..] == found[j + 1..];
      ReadThroughStep(found[j..], image, [], at, left);
      if e.base > at {
        WalkGap(entries, found, from, length, j, at, left);
      } else {
        WalkSteps(entries, found, from, length, j, at, left);
        var n := Least(End(e) - at, left);
        var rest := ReadThrough(found[j + 1..], image, at + n, left - n);
        EntryFits(entries, e, at, n);
        ReadWalks(entries, found, image, from, length, j + 1, at + n, left - n);
        FlatPiece(entries, image, e, at, n);
        if rest.Success? {
          var piece := Piece(BytesOf(image, e.region.mem), at + Shift(e), at + Shift(e) + n);
          assert [] + piece == piece;
          FlatJoin(entries, image, at, piece, rest.value);
        }
      }
    }
  }

  lemma FlatNothing(entries: seq<Entry>, image: Image, at: int)
    requires AllFit(entries) && Complete(entries, image)
    ensures Flat(entries, image, at, [])
  {
  }

  /** Behind the last found entry the range is covered exactly when nothing is left. */
  lemma WalkEnds(entries: seq<Entry>, found: seq<Entry>, from: int, length: int, at: int, left: int)
    requires Walking(entries, found, from, length, |found|, at, left) && length >= 0 && found != []
    ensures AllCovered(entries, from, from + AtLeastOne(length)) <==> left == 0
    ensures left > 0 ==> FirstGap(entries, from, at)
  {
    hide Chain, JustOverlapping, Covered;
    if left > 0 {
      WalkFails(entries, found, from, length, |found|, at, left);
    }
  }

  lemma WalkBounds(entries: seq<Entry>, found: seq<Entry>, from: int, length: int, j: int, at: int, left: int)
    requires Walking(entries, found, from, length, j, at, left)
    ensures 0 <= j <= |found| && from <= at && left >= 0 && at + left == from + length
  {
  }

  lemma WalkGap(entries: seq<Entry>, found: seq<Entry>, from: int, length: int, j: int, at: int, left: int)
    requires Walking(entries, found, from, length, j, at, left) && length >= 0 && j < |found| && found[j].base > at
    ensures FirstGap(entries, from, at) && !AllCovered(entries, from, from + AtLeastOne(length))
  {
    hide Chain, JustOverlapping, Covered;
    WalkSteps(entries, found, from, length, j, at, left);
  }

  /** When the regions fit their memories, a read gives the flat contents. */
  lemma ReadIsFlat(size: int, entries: seq<Entry>, image: Image, address: int, length: int)
    requires Disjoint(entries) && AllFit(entries) && Complete(entries, image)
    ensures IsRead(size, entries, image, address, length, SpaceRead(size, entries, image, address, length))
  {
    hide Disjoint, AllFit, Complete, Clashing, Select, Sort, ReadThrough;
    if InSpace(size, address, length) && !Clashing(Select(entries, address, AtLeastOne(length))) {
      var found := Found(entries, address, length);
      WalkBegins(entries, address, length);
      if found == [] {
        WalkFails(entries, found, address, length, 0, address, length);
      } else {
        ReadWalks(entries, found, image, address, length, 0, address, length);
        assert found[0..] == found;
      }
    }
  }

  // ---------------------------------------------------------------- accesses within one region

  /** The range lies within the region. */
  predicate Within(e: Entry, address: int, length: int) {
    e.base <= address < e.base + e.size && length >= 0 && address + length <= e.base + e.size
  }

  lemma {:induction false} SelectNone(entries: seq<Entry>, address: int, length: int)
    requires forall i :: 0 <= i < |entries| ==> !Overlaps(entries[i], address, length)
    ensures Select(entries, address, length) == []
    decreases |entries|
  {
    hide Overlaps;
    if entries != [] {
      SelectNone(entries[1..], address, length);
    }
  }

  lemma WithinOverlaps(e: Entry, d: Entry, address: int, length: int)
    requires Within(e, address, length)
    ensures Overlaps(e, address, AtLeastOne(length))
    ensures Apart(d, e) ==> !Overlaps(d, address, AtLeastOne(length))
  {
  }

  lemma {:induction false} SelectOne(entries: seq<Entry>, k: nat, address: int, length: int)
    requires Disjoint(entries) && k < |entries| && Within(entries[k], address, length)
    ensures Select(entries, address, AtLeastOne(length)) == [entries[k]]
    decreases |entries|
  {
    hide Overlaps, Within, Apart, AtLeastOne, Select;
    var e, n := entries[k], AtLeastOne(length);
    var tail := entries[1..];
    DisjointTail(entries);
    WithinOverlaps(e, entries[0], address, length);
    SelectStep(entries, address, n);
    if k == 0 {
      forall i | 0 <= i < |tail|
        ensures !Overlaps(tail[i], address, n)
      {
        ApartEitherWay(e, tail[i]);
        WithinOverlaps(e, tail[i], address, length);
      }
      SelectNone(tail, address, n);
    } else {
      assert tail[k - 1] == e;
      SelectOne(tail, k - 1, address, length);
    }
  }

  lemma ApartEitherWay(d: Entry, e: Entry)
    ensures Apart(d, e) == Apart(e, d)
  {
  }

  lemma SelectStep(entries: seq<Entry>, address: int, length: int)
    requires entries != []
    ensures Select(entries, address, length) ==
            if Overlaps(entries[0], address, length) then [entries[0]] + Select(entries[1..], address, length)
            else Select(entries[1..], address, length)
  {
    hide Overlaps;
    assert [] + Select(entries[1..], address, length) == Select(entries[1..], address, length);
  }

  lemma OnlyOneFound(size: int, entries: seq<Entry>, k: nat, address: int, length: int)
    requires Disjoint(entries) && k < |entries| && Within(entries[k], address, length) && 0 <= address < size
    ensures RegionsFor(size, entries, address, length) == Success([entries[k]])
  {
    hide Disjoint, AtLeastOne, Select;
    SelectOne(entries, k, address, length);
    assert Sort([]) == [] && Sort([entries[k]]) == [entries[k]];
  }

  /** A range within a region is read from the memory of that region: its start lies as far behind
      the offset as the address is behind the base, or is the address itself without an offset. */
  lemma ReadOfOne(size: int, entries: seq<Entry>, image: Image, k: nat, address: int, length: int)
    requires Disjoint(entries) && Complete(entries, image) && k < |entries| && 0 <= address < size
    requires Within(entries[k], address, length)
    ensures var e := entries[k];
            var at := match e.offset case Some(o) => o + (address - e.base) case None => address;
            match CheckRange(e.region.mem.Length, at, length)
            case Some(error) => SpaceRead(size, entries, image, address, length) == Failure(error)
            case None =>
              SpaceRead(size, entries, image, address, length) == Success(BytesOf(image, e.region.mem)[at..at + length])
  {
    hide Disjoint, RegionsFor, CheckRange;
    var e := entries[k];
    var at := address + Shift(e);
    OnlyOneFound(size, entries, k, address, length);
    BehindNothing(ReadThrough([e], image, address, length));
    ReadThroughStep([e], image, [], address, length);
    RangeErrors(e.region.mem.Length, at, length);
    assert [e][1..] == [];
    if CheckRange(e.region.mem.Length, at, length).None? {
      MemoryOf(entries, image, e);
      var piece := Piece(BytesOf(image, e.region.mem), at, at + length);
      assert [] + piece == piece == BytesOf(image, e.region.mem)[at..at + length];
      ReadThroughEnd(image, piece, address + length, 0);
    }
  }

  /** So is a write. */
  lemma WriteOfOne(size: int, entries: seq<Entry>, image: Image, k: nat, address: int, data: seq<bv8>)
    requires Disjoint(entries) && Complete(entries, image) && k < |entries| && 0 <= address < size
    requires Within(entries[k], address, |data|)
    ensures var e := entries[k];
            var at := match e.offset case Some(o) => o + (address - e.base) case None => address;
            var error := CheckRange(e.region.mem.Length, at, |data|);
            var was := BytesOf(image, e.region.mem);
            && SpaceWrite(size, entries, address, |data|) == error
            && SpaceAfter(size, entries, image, address, data) ==
               if error.Some? then image else image[e.region.mem := was[..at] + data + was[at + |data|..]]
  {
    hide Disjoint, RegionsFor, CheckRange, Piece, Patch, ThroughError, After;
    var e := entries[k];
    var at := address + Shift(e);
    OnlyOneFound(size, entries, k, address, |data|);
    RangeErrors(e.region.mem.Length, at, |data|);
    ThroughErrorStep([e], address, |data|);
    AfterStep([e], image, address, address, data);
    WholePiece(data);
    assert [e][1..] == [];
    if CheckRange(e.region.mem.Length, at, |data|).None? {
      PatchedWhole(BytesOf(image, e.region.mem), at, data);
      ThroughEnd(address, address + |data|, Patched(image, e.region.mem, at, data), data, 0);
    }
  }

  lemma WholePiece(data: seq<bv8>)
    ensures Piece(data, 0, |data|) == data
  {
  }

  lemma PatchedWhole(was: seq<bv8>, at: int, data: seq<bv8>)
    requires 0 <= at && at + |data| <= |was|
    ensures Patch(was, at, data) == was[..at] + data + was[at + |data|..]
  {
  }

  /** A region just mapped, with the offset 0 that is the default, is read counted from its base. */
  lemma MappedIsRead(size: int, was: seq<Entry>, image: Image, region: MemoryRegion, base: int, length: int,
                     address: int, n: int)
    requires Disjoint(was) && 0 <= base < size && 0 < length <= region.mem.Length
    requires forall i :: 0 <= i < |was| ==> !Overlaps(was[i], base, length)
    requires var entries := was + [Entry(base, length, Some(0), region)]; Complete(entries, image)
    requires base <= address < base + length && address < size && n >= 0 && address + n <= base + length
    ensures var entries := was + [Entry(base, length, Some(0), region)];
            && address - base + n <= |BytesOf(image, region.mem)|
            && SpaceRead(size, entries, image, address, n) ==
               Success(BytesOf(image, region.mem)[address - base..address - base + n])
  {
    hide Disjoint, SpaceRead, Overlaps;
    var e := Entry(base, length, Some(0), region);
    RegisterKeepsDisjoint(was, e);
    MemoryOf(was + [e], image, e);
    ReadOfOne(size, was + [e], image, |was|, address, n);
  }

  /** And written, which changes just those bytes of its memory. */
  lemma MappedIsWritten(size: int, was: seq<Entry>, image: Image, region: MemoryRegion, base: int, length: int,
                        address: int, data: seq<bv8>)
    requires Disjoint(was) && 0 <= base < size && 0 < length <= region.mem.Length
    requires forall i :: 0 <= i < |was| ==> !Overlaps(was[i], base, length)
    requires var entries := was + [Entry(base, length, Some(0), region)]; Complete(entries, image)
    requires base <= address < base + length && address < size && address + |data| <= base + length
    ensures var entries := was + [Entry(base, length, Some(0), region)];
            var bytes := BytesOf(image, region.mem);
            && address - base + |data| <= |bytes|
            && SpaceWrite(size, entries, address, |data|) == None
            && SpaceAfter(size, entries, image, address, data) ==
               image[region.mem := bytes[..address - base] + data + bytes[address - base + |data|..]]
  {
    hide Disjoint, SpaceWrite, SpaceAfter, Overlaps;
    var e := Entry(base, length, Some(0), region);
    RegisterKeepsDisjoint(was, e);
    MemoryOf(was + [e], image, e);
    WriteOfOne(size, was + [e], image, |was|, address, data);
  }

  /** A region that does not fit its memory cannot be read to its end, although all of it is
      covered. */
  lemma UnfitRegionFails(size: int, entries: seq<Entry>, image: Image, e: Entry)
    requires Disjoint(entries) && e in entries && e.size > 0 && 0 <= e.base < size && !Fits(e)
    ensures AllCovered(entries, e.base, End(e)) && SpaceRead(size, entries, image, e.base, e.size).Failure?
  {
    hide Clashing, Select, Sort, ReadThrough, Covered;
    forall a | e.base <= a < End(e)
      ensures Covered(entries, a)
    {
      ContainedIsCovered(entries, e, a);
    }
    var found := Found(entries, e.base, e.size);
    FoundOverlaps(entries, e.base, e.size);
    var i :| 0 <= i < |entries| && entries[i] == e;
    assert Overlaps(entries[i], e.base, e.size) && e in found;
    var k :| 0 <= k < |entries| && entries[k] == found[0];
    BehindNothing(ReadThrough(found, image, e.base, e.size));
    ReadThroughStep(found, image, [], e.base, e.size);
  }

  /** The rest of a write, from the j-th found entry on. */
  lemma {:induction false} WriteWalks(entries: seq<Entry>, found: seq<Entry>, from: int, data: seq<bv8>, j: int,
                                      at: int, left: int, before: Image, mid: Image)
    returns (to: int)
    requires Disjoint(entries) && AllFit(entries) && OwnMemories(entries) && Complete(entries, mid) && found != []
    requires Walking(entries, found, from, |data|, j, at, left)
    requires Written(entries, before, mid, from, at, data)
    ensures at <= to <= from + |data| && Written(entries, before, After(found[j..], mid, from, at, data), from, to,
            data)
    ensures var error := ThroughError(found[j..], at, left);
            if AllCovered(entries, from, from + AtLeastOne(|data|)) then error == None && to == from + |data|
            else error == Some(InvalidAddress) && FirstGap(entries, from, to)
    decreases |found| - j
  {
    hide Disjoint, AllFit, OwnMemories, Complete, Walking, AllCovered, FirstGap, Written, Patched, Piece, Shift,
         CheckRange;
    hide ThroughError, After;
    to := at;
    WalkBounds(entries, found, from, |data|, j, at, left);
    if j == |found| {
      assert found[j..] == [];
      ThroughEnd(from, at, mid, data, left);
      WalkEnds(entries, found, from, |data|, at, left);
    } else {
      var e := found[j];
      assert found[j..][0] == e && found[j..][1..] == found[j + 1..];
      ThroughErrorStep(found[j..], at, left);
      AfterStep(found[j..], mid, from, at, data);
      if e.base > at {
        WalkGap(entries, found, from, |data|, j, at, left);
      } else {
        WalkSteps(entries, found, from, |data|, j, at, left);
        var n := Least(End(e) - at, left);
        EntryFits(entries, e, at, n);
        var next := Patched(mid, e.region.mem, at + Shift(e), Piece(data, at - from, at - from + n));
        PieceWritten(entries, e, from, data, at, n, before, mid);
        to := WriteWalks(entries, found, from, data, j + 1, at + n, left - n, before, next);
      }
    }
  }

  lemma PieceWritten(entries: seq<Entry>, e: Entry, from: int, data: seq<bv8>, at: int, n: int, before: Image,
                     mid: Image)
    requires Disjoint(entries) && OwnMemories(entries) && Complete(entries, mid) && e in entries
    requires e.base <= at <= at + n <= End(e) && from <= at && at + n <= from + |data|
    requires Written(entries, before, mid, from, at, data)
    ensures var next := Patched(mid, e.region.mem, at + Shift(e), Piece(data, at - from, at - from + n));
            Complete(entries, next) && Written(entries, before, next, from, at + n, data)
  {
    hide Disjoint, OwnMemories, Complete, Written, Patched, Piece, Patch, BytesOf, Shift;
    var k :| 0 <= k < |entries| && entries[k] == e;
    var a, piece := at + Shift(e), Piece(data, at - from, at - from + n);
    var next := Patched(mid, e.region.mem, a, piece);
    OthersAreAway(entries, k, at, at + n);
    OthersUnpatched(entries, mid, k, a, piece);
    PatchedMemory(mid, e.region.mem, a, piece);
    PatchedCells(BytesOf(mid, e.region.mem), from, at, n, data, Shift(e));
    SegmentWritten(entries, before, mid, next, k, from, at, at + n, data);
  }

  lemma OthersUnpatched(entries: seq<Entry>, image: Image, k: nat, a: int, piece: seq<bv8>)
    requires k < |entries| && OwnMemories(entries) && Complete(entries, image)
    ensures var next := Patched(image, entries[k].region.mem, a, piece);
            && Complete(entries, next)
            && forall i :: 0 <= i < |entries| && i != k ==>
                BytesOf(next, entries[i].region.mem) == BytesOf(image, entries[i].region.mem)
  {
    hide Patch;
  }

  lemma PatchedMemory(image: Image, mem: array<bv8>, a: int, piece: seq<bv8>)
    ensures BytesOf(Patched(image, mem, a, piece), mem) == Patch(BytesOf(image, mem), a, piece)
  {
    hide Patch;
  }

  lemma PatchedCells(bytes: seq<bv8>, from: int, at: int, n: int, data: seq<bv8>, shift: int)
    requires from <= at && n >= 0 && at + n <= from + |data|
    ensures var now := Patch(bytes, at + shift, Piece(data, at - from, at - from + n));
            |now| == |bytes| && forall x :: 0 <= x < |now| ==> now[x] == if at <= x - shift < at + n
                then data[x - shift - from] else bytes[x]
  {
  }

  /** When the regions fit memories of their own, a write changes just the flat contents of the
      range up to the first gap. */
  lemma WriteIsFlat(size: int, entries: seq<Entry>, address: int, data: seq<bv8>, image: Image) returns (to: int)
    requires Disjoint(entries) && AllFit(entries) && OwnMemories(entries) && Complete(entries, image)
    ensures IsWritten(size, entries, address, |data|, SpaceWrite(size, entries, address, |data|), to)
    ensures address <= to <= address + |data|
    ensures Written(entries, image, SpaceAfter(size, entries, image, address, data), address, to, data)
  {
    hide Disjoint, AllFit, OwnMemories, Complete, Clashing, Select, Sort, ThroughError, Written;
    to := address;
    NothingWritten(entries, image, address, data);
    if InSpace(size, address, |data|) && !Clashing(Select(entries, address, AtLeastOne(|data|))) {
      var found := Found(entries, address, |data|);
      WalkBegins(entries, address, |data|);
      if found == [] {
        WalkFails(entries, found, address, |data|, 0, address, |data|);
      } else {
        assert found[0..] == found;
        to := WriteWalks(entries, found, address, data, 0, address, |data|, image, image);
      }
    }
  }

  // ---------------------------------------------------------------- windows

  /** A space, or a window onto another interface. */
  datatype Interface = Whole(space: AddressSpace) | Window(parent: Interface, offset: int, size: int, base: Option<int>)

  function SizeOf(v: Interface): int {
    match v
    case Whole(space) => space.size
    case Window(_, _, size, _) => size
  }

  function BaseOf(v: Interface): Option<int> {
    match v
    case Whole(space) => space.base
    case Window(_, _, _, base) => base
  }

  function Root(v: Interface): AddressSpace {
    match v
    case Whole(space) => space
    case Window(parent, _, _, _) => Root(parent)
  }

  /** The sum of the offsets. */
  function TotalOffset(v: Interface): int {
    match v
    case Whole(_) => 0
    case Window(parent, offset, _, _) => offset + TotalOffset(parent)
  }

  /** Every window lies within what it is a window onto, and knows its absolute address. */
  predicate Nested(v: Interface) {
    match v
    case Whole(_) => true
    case Window(parent, offset, size, base) =>
      && Nested(parent) && 0 <= offset < SizeOf(parent) && 0 <= size && offset + size <= SizeOf(parent)
      && AbsoluteAddress(BaseOf(parent), SizeOf(parent), offset) == Success(base)
  }

  /** A whole space is nested, and a window onto something nested that it lies within, at the absolute
      address of its start. */
  lemma NestedMeans(v: Interface)
    ensures Nested(v) <==>
            v.Window? ==>
              && Nested(v.parent) && 0 <= v.offset < SizeOf(v.parent) && 0 <= v.size <= SizeOf(v.parent) - v.offset
              && v.base == match BaseOf(v.parent) case Some(b) => Some(b + v.offset) case None => None
  {
  }

  /** Without a size, or with one that is not positive, a window reaches to the end. */
  function CreateWindow(parent: Interface, offset: int, size: Option<int>): (r: Result<Interface, Error>)
    ensures r.Success? && Nested(parent) ==> Nested(r.value)
    ensures var n := if size.Some? && size.value > 0 then size.value else SizeOf(parent) - offset;
            && (r.Success? <==> 0 <= offset < SizeOf(parent) && offset + n <= SizeOf(parent))
            && (r.Success? ==>
                r.value.Window? && r.value.parent == parent && r.value.offset == offset && r.value.size == n
                && r.value.base == match BaseOf(parent) case Some(b) => Some(b + offset) case None => None)
  {
    var length := if size.None? || size.value <= 0 then SizeOf(parent) - offset else size.value;
    match CheckRange(SizeOf(parent), offset, length)
    case Some(e) => Failure(e)
    case None =>
      match AbsoluteAddress(BaseOf(parent), SizeOf(parent), offset)
      case Failure(e) => Failure(e)
      case Success(base) => Success(Window(parent, offset, length, base))
  }

  /** An absolute address is that of the root plus all offsets. */
  lemma {:induction false} AbsoluteIsRootAbsolute(v: Interface, address: int)
    requires Nested(v) && 0 <= address < SizeOf(v)
    ensures AbsoluteAddress(BaseOf(v), SizeOf(v), address) ==
            Success(match Root(v).base case Some(b) => Some(b + TotalOffset(v) + address) case None => None)
    ensures 0 <= TotalOffset(v) + address < Root(v).size
  {
    match v
    case Whole(_) =>
    case Window(parent, offset, _, _) =>
      AbsoluteIsRootAbsolute(parent, offset + address);
      AbsoluteIsRootAbsolute(parent, offset);
  }

  /** What one window lets through, the one behind it lets through. */
  lemma ParentLetsThrough(v: Interface, address: int, length: int)
    requires Nested(v) && v.Window? && CheckRange(v.size, address, length) == None
    ensures CheckRange(SizeOf(v.parent), address + v.offset, length) == None
  {
  }

  /** A read through nested windows is the read of the root at the sum of the offsets. */
  method ReadInterface(v: Interface, address: int, length: int) returns (r: Result<seq<bv8>, Error>)
    requires Nested(v)
    ensures r == if v.Window? && CheckRange(v.size, address, length).Some?
                 then Failure(CheckRange(v.size, address, length).value)
                 else SpaceRead(Root(v).size, Root(v).regions, Contents(Root(v).regions),
                                address + TotalOffset(v), length)
    decreases v
  {
    hide SpaceRead;
    match v {
      case Whole(space) =>
        r := space.Read(address, length);
      case Window(parent, offset, size, _) =>
        var error := CheckRange(size, address, length);
        if error.Some? {
          return Failure(error.value);
        }
        ParentLetsThrough(v, address, length);
        r := ReadInterface(parent, address + offset, length);
    }
  }

  /** So is a write. */
  method WriteInterface(v: Interface, address: int, data: seq<bv8>) returns (error: Option<Error>)
    requires Nested(v)
    modifies Memories(Root(v).regions)
    ensures var s := Root(v); var start := address + TotalOffset(v);
            if v.Window? && CheckRange(v.size, address, |data|).Some? then
              error == CheckRange(v.size, address, |data|) && Contents(s.regions) == old(Contents(s.regions))
            else
              && error == SpaceWrite(s.size, s.regions, start, |data|)
              && Contents(s.regions) == SpaceAfter(s.size, s.regions, old(Contents(s.regions)), start, data)
    decreases v
  {
    hide SpaceWrite, SpaceAfter;
    match v {
      case Whole(space) =>
        ghost var to;
        error, to := space.Write(address, data);
      case Window(parent, offset, size, _) =>
        error := CheckRange(size, address, |data|);
        if error.Some? {
          return;
        }
        ParentLetsThrough(v, address, |data|);
        error := WriteInterface(parent, address + offset, data);
    }
  }
}
