/**
 * CameraMetadata: a growable packed buffer behind a lock flag.  The C library
 * underneath is given by the contracts of its entry operations; everything above
 * them is the wrapper's own logic.
 */
module Metadata {
  import opened Common

  type Tag = t: int | 0 <= t < 0x1_0000_0000 witness 0

  datatype ElementType = ByteType | Int32Type | FloatType | Int64Type | DoubleType | RationalType

  datatype Status = Ok | InvalidOperation | BadValue | NameNotFound | LibraryError

  /** An entry: its tag and type, and its elements. */
  datatype Entry = Entry(tag: Tag, kind: ElementType, data: seq<int>)

  /** A packed buffer with room for so many entries and so much out-of-line data. */
  datatype Packet = Packet(entries: seq<Entry>, entryCapacity: nat, dataCapacity: nat)

  /** The type of each known tag. */
  type TagTypes = map<Tag, ElementType>

  function ElementSize(kind: ElementType): nat
  {
    match kind
    case ByteType => 1
    case Int32Type => 4
    case FloatType => 4
    case Int64Type => 8
    case DoubleType => 8
    case RationalType => 8
  }

  /** Out-of-line bytes of an entry: none up to four, else rounded up to eight. */
  function EntryDataSize(kind: ElementType, count: nat): (size: nat)
    ensures size == 0 <==> count * ElementSize(kind) <= 4
    ensures size % 8 == 0 && (size > 0 ==> count * ElementSize(kind) <= size < count * ElementSize(kind) + 8)
  {
    var bytes := count * ElementSize(kind);
    if bytes <= 4 then 0 else (bytes + 7) / 8 * 8
  }

  function SizeOf(e: Entry): nat
  {
    EntryDataSize(e.kind, |e.data|)
  }

  function DataCount(entries: seq<Entry>): nat
  {
    if entries == [] then 0 else DataCount(entries[..|entries| - 1]) + SizeOf(entries[|entries| - 1])
  }

  // Library operations

  function FindIndex(entries: seq<Entry>, tag: Tag): (r: Option<nat>)
    ensures r.Some? ==> r.value < |entries| && entries[r.value].tag == tag
    ensures r.None? ==> forall i :: 0 <= i < |entries| ==> entries[i].tag != tag
  {
    if entries == [] then None
    else if entries[0].tag == tag then Some(0)
    else
      var r := FindIndex(entries[1..], tag);
      if r.None? then None else Some(r.value + 1)
  }

  function AddEntry(p: Packet, e: Entry): (Status, Packet)
  {
    if |p.entries| == p.entryCapacity || DataCount(p.entries) + SizeOf(e) > p.dataCapacity
    then (LibraryError, p)
    else (Ok, p.(entries := p.entries + [e]))
  }

  function UpdateEntry(p: Packet, index: nat, data: seq<int>): (Status, Packet)
  {
    if index >= |p.entries| then (LibraryError, p)
    else
      var e := p.entries[index].(data := data);
      if SizeOf(e) != SizeOf(p.entries[index])
         && p.dataCapacity < DataCount(p.entries) + SizeOf(e) - SizeOf(p.entries[index])
      then (LibraryError, p)
      else (Ok, p.(entries := p.entries[index := e]))
  }

  function DeleteEntry(p: Packet, index: nat): (Status, Packet)
  {
    if index >= |p.entries| then (LibraryError, p)
    else (Ok, p.(entries := p.entries[..index] + p.entries[index + 1..]))
  }

  function AppendPacket(dst: Packet, src: Packet): (Status, Packet)
  {
    if dst.entryCapacity < |dst.entries| + |src.entries|
       || dst.dataCapacity < DataCount(dst.entries) + DataCount(src.entries)
    then (LibraryError, dst)
    else (Ok, dst.(entries := dst.entries + src.entries))
  }

  // The wrapper, as functions of the buffer (None is the null buffer)

  function ResizeIfNeeded(b: Option<Packet>, extraEntries: nat, extraData: nat): Packet
  {
    if b.None? then Packet([], extraEntries * 2, extraData * 2)
    else
      var p := b.value;
      var wantEntries := |p.entries| + extraEntries;
      var newEntries := if wantEntries > p.entryCapacity then wantEntries * 2 else p.entryCapacity;
      var wantData := DataCount(p.entries) + extraData;
      var newData := if wantData > p.dataCapacity then wantData * 2 else p.dataCapacity;
      if newEntries > p.entryCapacity || newData > p.dataCapacity
      then AppendPacket(Packet([], newEntries, newData), p).1
      else p
  }

  /** Adds or overwrites an entry without resizing. */
  function Write(p: Packet, tag: Tag, kind: ElementType, data: seq<int>): (Status, Packet)
  {
    match FindIndex(p.entries, tag)
    case None => AddEntry(p, Entry(tag, kind, data))
    case Some(index) => UpdateEntry(p, index, data)
  }

  function Put(b: Option<Packet>, tag: Tag, kind: ElementType, data: seq<int>): (Status, Packet)
  {
    Write(ResizeIfNeeded(b, 1, EntryDataSize(kind, |data|)), tag, kind, data)
  }

  function Erase(b: Option<Packet>, tag: Tag): (Status, Option<Packet>)
  {
    if b.None? then (LibraryError, b)
    else
      match FindIndex(b.value.entries, tag)
      case None => (Ok, b)
      case Some(index) =>
        var (status, p) := DeleteEntry(b.value, index);
        (status, Some(p))
  }

  function Lookup(b: Option<Packet>, tag: Tag): Option<seq<int>>
  {
    if b.None? then None
    else
      match FindIndex(b.value.entries, tag)
      case None => None
      case Some(index) => Some(b.value.entries[index].data)
  }

  // What every operation keeps

  ghost predicate UniqueTags(entries: seq<Entry>)
  {
    forall i, j :: 0 <= i < j < |entries| ==> entries[i].tag != entries[j].tag
  }

  ghost predicate Typed(entries: seq<Entry>, types: TagTypes)
  {
    forall i :: 0 <= i < |entries| ==>
      entries[i].tag in types && types[entries[i].tag] == entries[i].kind
  }

  ghost predicate WellFormed(b: Option<Packet>, types: TagTypes)
  {
    b.Some? ==>
      && UniqueTags(b.value.entries) && Typed(b.value.entries, types)
      && |b.value.entries| <= b.value.entryCapacity
      && DataCount(b.value.entries) <= b.value.dataCapacity
  }

  /** A buffer holds exactly the given tags with the given values. */
  ghost predicate Agrees(b: Option<Packet>, m: map<Tag, seq<int>>)
  {
    forall tag: Tag :: Lookup(b, tag) == if tag in m then Some(m[tag]) else None
  }

  lemma {:induction false} DataCountConcat(left: seq<Entry>, right: seq<Entry>)
    ensures DataCount(left + right) == DataCount(left) + DataCount(right)
  {
    if right == [] {
      assert left + right == left;
    } else {
      var n := |right| - 1;
      DataCountConcat(left, right[..n]);
      assert (left + right)[..|left| + n] == left + right[..n];
    }
  }

  lemma DataCountOne(e: Entry)
    ensures DataCount([e]) == SizeOf(e)
  {
    assert [e][..0] == [];
  }

  /** Replacing or deleting one entry changes the data count by its size alone. */
  lemma DataCountAt(entries: seq<Entry>, index: nat, e: Entry)
    requires index < |entries|
    ensures DataCount(entries[index := e]) == DataCount(entries) - SizeOf(entries[index]) + SizeOf(e)
    ensures DataCount(entries[..index] + entries[index + 1..]) == DataCount(entries) - SizeOf(entries[index])
  {
    var before, after := entries[..index], entries[index + 1..];
    assert entries == (before + [entries[index]]) + after;
    assert entries[index := e] == (before + [e]) + after;
    DataCountConcat(before + [entries[index]], after);
    DataCountConcat(before + [e], after);
    DataCountConcat(before, [entries[index]]);
    DataCountConcat(before, [e]);
    DataCountConcat(before, after);
    DataCountOne(e);
    DataCountOne(entries[index]);
  }

  /** A capacity that holds what is wanted: the present one, or else twice that. */
  ghost function Grown(wanted: nat, capacity: nat): nat
  {
    if wanted <= capacity then capacity else 2 * wanted
  }

  /**
   * Resizing keeps the entries and leaves room for what was asked: a capacity that suffices
   * stays, one that does not becomes twice what is wanted, so an existing buffer is
   * reallocated only to more than double one capacity.
   */
  lemma ResizeLeavesRoom(b: Option<Packet>, extraEntries: nat, extraData: nat, types: TagTypes)
    requires WellFormed(b, types)
    ensures
      var p := ResizeIfNeeded(b, extraEntries, extraData);
      && p.entries == (if b.None? then [] else b.value.entries)
      && |p.entries| + extraEntries <= p.entryCapacity
      && DataCount(p.entries) + extraData <= p.dataCapacity
      && WellFormed(Some(p), types)
      && p.entryCapacity == Grown(|p.entries| + extraEntries, if b.None? then 0 else b.value.entryCapacity)
      && p.dataCapacity == Grown(DataCount(p.entries) + extraData, if b.None? then 0 else b.value.dataCapacity)
      && (b.Some? && p != b.value ==>
            && p.entryCapacity >= b.value.entryCapacity && p.dataCapacity >= b.value.dataCapacity
            && (p.entryCapacity > 2 * b.value.entryCapacity || p.dataCapacity > 2 * b.value.dataCapacity))
  {
    if b.Some? {
      assert [] + b.value.entries == b.value.entries;
    }
  }

  lemma LookupUnique(p: Packet, index: nat)
    requires UniqueTags(p.entries) && index < |p.entries|
    ensures FindIndex(p.entries, p.entries[index].tag) == Some(index)
  {
  }

  ghost predicate HasRoomFor(p: Packet, entries: seq<Entry>)
  {
    |entries| <= p.entryCapacity && DataCount(entries) <= p.dataCapacity
  }

  /** The entries with one tag's data set: in its place if it has one, else at the end. */
  ghost function WithData(entries: seq<Entry>, tag: Tag, kind: ElementType, data: seq<int>): seq<Entry>
  {
    match FindIndex(entries, tag)
    case None => entries + [Entry(tag, kind, data)]
    case Some(index) => entries[index := entries[index].(data := data)]
  }

  /** Without resizing, a write succeeds if and only if its outcome has room; else it changes nothing. */
  lemma WriteNeedsRoom(p: Packet, tag: Tag, kind: ElementType, data: seq<int>)
    requires HasRoomFor(p, p.entries)
    ensures
      var (status, q) := Write(p, tag, kind, data);
      var entries := WithData(p.entries, tag, kind, data);
      && (status == Ok <==> HasRoomFor(p, entries))
      && q == if status == Ok then p.(entries := entries) else p
  {
    match FindIndex(p.entries, tag)
    case None =>
      DataCountConcat(p.entries, [Entry(tag, kind, data)]);
      DataCountOne(Entry(tag, kind, data));
    case Some(index) =>
      DataCountAt(p.entries, index, p.entries[index].(data := data));
  }

  /** Writing into a buffer with room. */
  lemma PutInRoom(p: Packet, tag: Tag, data: seq<int>, types: TagTypes)
    requires WellFormed(Some(p), types) && tag in types
    requires |p.entries| < p.entryCapacity
    requires DataCount(p.entries) + EntryDataSize(types[tag], |data|) <= p.dataCapacity
    ensures
      var (status, q) := Write(p, tag, types[tag], data);
      && status == Ok && WellFormed(Some(q), types)
      && forall t: Tag :: Lookup(Some(q), t) == if t == tag then Some(data) else Lookup(Some(p), t)
  {
    match FindIndex(p.entries, tag)
    case None =>
      var e := Entry(tag, types[tag], data);
      DataCountConcat(p.entries, [e]);
      DataCountOne(e);
      AddedLookups(p, e);
    case Some(index) =>
      DataCountAt(p.entries, index, p.entries[index].(data := data));
      UpdatedLookups(p, index, data);
  }

  /** A known tag can always be written: the write succeeds and sets that tag alone. */
  lemma PutSetsOneTag(b: Option<Packet>, tag: Tag, data: seq<int>, types: TagTypes, m: map<Tag, seq<int>>)
    requires WellFormed(b, types) && tag in types && Agrees(b, m)
    ensures
      var (status, p) := Put(b, tag, types[tag], data);
      status == Ok && WellFormed(Some(p), types) && Agrees(Some(p), m[tag := data])
  {
    var size := EntryDataSize(types[tag], |data|);
    ResizeLeavesRoom(b, 1, size, types);
    ResizedLookups(b, 1, size, types);
    PutInRoom(ResizeIfNeeded(b, 1, size), tag, data, types);
  }

  lemma ResizedLookups(b: Option<Packet>, extraEntries: nat, extraData: nat, types: TagTypes)
    requires WellFormed(b, types)
    ensures forall t: Tag :: Lookup(Some(ResizeIfNeeded(b, extraEntries, extraData)), t) == Lookup(b, t)
  {
    ResizeLeavesRoom(b, extraEntries, extraData, types);
  }

  lemma AddedLookups(p: Packet, e: Entry)
    requires UniqueTags(p.entries) && FindIndex(p.entries, e.tag).None?
    ensures
      var q := p.(entries := p.entries + [e]);
      UniqueTags(q.entries) &&
      forall t: Tag :: Lookup(Some(q), t) == if t == e.tag then Some(e.data) else Lookup(Some(p), t)
  {
    var q := p.(entries := p.entries + [e]);
    forall t: Tag
      ensures Lookup(Some(q), t) == if t == e.tag then Some(e.data) else Lookup(Some(p), t)
    {
      SameLookup(q, p, t, e);
    }
  }

  lemma SameLookup(q: Packet, p: Packet, t: Tag, e: Entry)
    requires UniqueTags(p.entries) && FindIndex(p.entries, e.tag).None? && q.entries == p.entries + [e]
    ensures Lookup(Some(q), t) == if t == e.tag then Some(e.data) else Lookup(Some(p), t)
  {
    if t == e.tag {
      LookupUnique(q, |p.entries|);
    } else {
      match FindIndex(p.entries, t)
      case None =>
      case Some(i) => LookupUnique(q, i);
    }
  }

  lemma UpdatedLookups(p: Packet, index: nat, data: seq<int>)
    requires UniqueTags(p.entries) && index < |p.entries|
    ensures
      var q := p.(entries := p.entries[index := p.entries[index].(data := data)]);
      UniqueTags(q.entries) &&
      forall t: Tag :: Lookup(Some(q), t) == if t == p.entries[index].tag then Some(data) else Lookup(Some(p), t)
  {
    var q := p.(entries := p.entries[index := p.entries[index].(data := data)]);
    forall t: Tag
      ensures Lookup(Some(q), t) == if t == p.entries[index].tag then Some(data) else Lookup(Some(p), t)
    {
      match FindIndex(p.entries, t)
      case None =>
      case Some(i) => LookupUnique(q, i); LookupUnique(p, i);
    }
  }

  lemma DeletedLookups(p: Packet, index: nat)
    requires UniqueTags(p.entries) && index < |p.entries|
    ensures
      var q := p.(entries := p.entries[..index] + p.entries[index + 1..]);
      UniqueTags(q.entries) &&
      forall t: Tag :: Lookup(Some(q), t) == if t == p.entries[index].tag then None else Lookup(Some(p), t)
  {
    var q := p.(entries := p.entries[..index] + p.entries[index + 1..]);
    forall t: Tag
      ensures Lookup(Some(q), t) == if t == p.entries[index].tag then None else Lookup(Some(p), t)
    {
      match FindIndex(p.entries, t)
      case None =>
      case Some(i) =>
        LookupUnique(p, i);
        if i != index { LookupUnique(q, if i < index then i else i - 1); }
    }
  }

  /** Erasing removes that tag alone; on the null buffer it fails and changes nothing. */
  lemma EraseRemovesOneTag(b: Option<Packet>, tag: Tag, types: TagTypes, m: map<Tag, seq<int>>)
    requires WellFormed(b, types) && Agrees(b, m)
    ensures
      var (status, c) := Erase(b, tag);
      && (status == if b.None? then LibraryError else Ok)
      && WellFormed(c, types) && Agrees(c, m - {tag})
  {
    if b.None? {
      assert tag !in m by { assert Lookup(b, tag) == None; }
    } else {
      match FindIndex(b.value.entries, tag)
      case None => assert Lookup(b, tag) == None;
      case Some(index) =>
        DataCountAt(b.value.entries, index, b.value.entries[index]);
        DeletedLookups(b.value, index);
    }
  }

  // Whole runs

  datatype Op = Update(tag: Tag, data: seq<int>) | Delete(tag: Tag)

  function Apply(b: Option<Packet>, op: Op, types: TagTypes): (Status, Option<Packet>)
  {
    match op
    case Update(tag, data) =>
      if tag !in types then (BadValue, b)
      else
        var (status, p) := Put(b, tag, types[tag], data);
        (status, Some(p))
    case Delete(tag) => Erase(b, tag)
  }

  /** The plain map the buffer stands for. */
  ghost function ApplyToMap(m: map<Tag, seq<int>>, op: Op, types: TagTypes): map<Tag, seq<int>>
  {
    match op
    case Update(tag, data) => if tag in types then m[tag := data] else m
    case Delete(tag) => m - {tag}
  }

  function RunOps(b: Option<Packet>, ops: seq<Op>, types: TagTypes): Option<Packet>
  {
    if ops == [] then b
    else Apply(RunOps(b, ops[..|ops| - 1], types), ops[|ops| - 1], types).1
  }

  ghost function RunOnMap(ops: seq<Op>, types: TagTypes): map<Tag, seq<int>>
  {
    if ops == [] then map[]
    else ApplyToMap(RunOnMap(ops[..|ops| - 1], types), ops[|ops| - 1], types)
  }

  /** From an empty object, any run of updates and erasures behaves as on a plain map. */
  lemma {:induction false} RunRefinesMap(ops: seq<Op>, types: TagTypes)
    ensures WellFormed(RunOps(None, ops, types), types)
    ensures Agrees(RunOps(None, ops, types), RunOnMap(ops, types))
  {
    if ops != [] {
      var front, op := ops[..|ops| - 1], ops[|ops| - 1];
      RunRefinesMap(front, types);
      var b, m := RunOps(None, front, types), RunOnMap(front, types);
      match op
      case Update(tag, data) => if tag in types { PutSetsOneTag(b, tag, data, types, m); }
      case Delete(tag) => EraseRemovesOneTag(b, tag, types, m);
    }
  }
}
