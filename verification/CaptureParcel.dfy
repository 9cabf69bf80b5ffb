/** CaptureResult and CaptureRequest in parcels. */
module CaptureParcel {
  import opened Common
  import opened MetadataParcel

  /** The metadata library's log2 alignment and validation, and where a blob is mapped when it is read. */
  datatype Library = Library(k: nat, validate: Packet -> bool, mapAt: seq<byte> -> nat)

  /** A camera id with the metadata of that camera. */
  datatype CameraEntry = CameraEntry(id: string, metadata: Option<Packet>)

  datatype Extras = Extras(
    requestId: int, burstId: int, afTriggerId: int, precaptureTriggerId: int,
    frameNumber: int, partialResultCount: int, errorStreamId: int,
    errorPhysicalCameraId: string,
    lastCompletedRegularFrameNumber: int,
    lastCompletedReprocessFrameNumber: int,
    lastCompletedZslFrameNumber: int)

  datatype Result = Result(metadata: Option<Packet>, physical: seq<CameraEntry>, extras: Extras)

  datatype Request = Request(
    settings: seq<CameraEntry>, isReprocess: bool, surfaceConverted: bool,
    surfaces: seq<Option<nat>>, streamIdx: seq<int>, surfaceIdx: seq<int>)

  // Lists of cameras with metadata

  predicate Placed(entries: seq<CameraEntry>, lib: Library, at: seq<Placement>)
  {
    |at| == |entries| && forall i :: 0 <= i < |entries| ==> Fits(entries[i].metadata, lib.k, at[i])
  }

  ghost predicate AllSound(entries: seq<CameraEntry>, lib: Library)
  {
    forall i :: 0 <= i < |entries| ==> Sound(entries[i].metadata, lib.validate)
  }

  function WriteEntries(entries: seq<CameraEntry>, lib: Library, at: seq<Placement>): seq<Item>
    requires Placed(entries, lib, at)
  {
    if entries == [] then []
    else
      [Text(entries[0].id)] + WriteMetadata(entries[0].metadata, lib.k, at[0])
        + WriteEntries(entries[1..], lib, at[1..])
  }

  /** `idError` is what a missing camera id is reported as. */
  function ReadEntries(n: nat, items: seq<Item>, lib: Library, idError: Status, read: seq<CameraEntry>)
    : Read<seq<CameraEntry>>
  {
    if n == 0 then Done(read, items)
    else if items == [] || !items[0].Text? then Fail(idError)
    else
      match ReadMetadata(items[1..], lib.k, lib.validate, lib.mapAt)
      case Fail(status) => Fail(status)
      case Done(m, rest) => ReadEntries(n - 1, rest, lib, idError, read + [CameraEntry(items[0].s, m)])
  }

  lemma OneEntryReadBack(e: CameraEntry, lib: Library, at: Placement, n: nat, idError: Status,
                         read: seq<CameraEntry>, after: seq<Item>)
    requires Fits(e.metadata, lib.k, at) && Sound(e.metadata, lib.validate)
    ensures ReadEntries(n + 1, [Text(e.id)] + WriteMetadata(e.metadata, lib.k, at) + after, lib, idError, read)
         == ReadEntries(n, after, lib, idError, read + [e])
  {
    var items := [Text(e.id)] + WriteMetadata(e.metadata, lib.k, at) + after;
    assert items[1..] == WriteMetadata(e.metadata, lib.k, at) + after;
    MetadataRoundTrip(e.metadata, lib.k, at, lib.validate, lib.mapAt, after);
  }

  lemma {:induction false} EntriesReadBack(
    entries: seq<CameraEntry>, lib: Library, at: seq<Placement>, idError: Status,
    read: seq<CameraEntry>, tail: seq<Item>)
    requires Placed(entries, lib, at) && AllSound(entries, lib)
    ensures ReadEntries(|entries|, WriteEntries(entries, lib, at) + tail, lib, idError, read)
         == Done(read + entries, tail)
    decreases |entries|
  {
    if entries == [] {
      assert WriteEntries(entries, lib, at) + tail == tail && read + entries == read;
    } else {
      var e, rest := entries[0], entries[1..];
      var head := [Text(e.id)] + WriteMetadata(e.metadata, lib.k, at[0]);
      var after := WriteEntries(rest, lib, at[1..]) + tail;
      assert (head + WriteEntries(rest, lib, at[1..])) + tail == head + after;
      OneEntryReadBack(e, lib, at[0], |rest|, idError, read, after);
      EntriesReadBack(rest, lib, at[1..], idError, read + [e], tail);
      assert (read + [e]) + rest == read + entries;
    }
  }

  // CaptureResultExtras

  function WriteExtras(e: Extras): seq<Item>
  {
    [Int32(e.requestId), Int32(e.burstId), Int32(e.afTriggerId), Int32(e.precaptureTriggerId),
     Int64(e.frameNumber), Int32(e.partialResultCount), Int32(e.errorStreamId)]
      + (if |e.errorPhysicalCameraId| > 0 then [Bool(true), Text(e.errorPhysicalCameraId)] else [Bool(false)])
      + [Int64(e.lastCompletedRegularFrameNumber), Int64(e.lastCompletedReprocessFrameNumber),
         Int64(e.lastCompletedZslFrameNumber)]
  }

  /** readInt32 with its status ignored: a failed read leaves the field and the cursor alone. */
  function NextInt32(items: seq<Item>, prior: int): (int, seq<Item>)
  {
    if items != [] && items[0].Int32? then (items[0].i, items[1..]) else (prior, items)
  }

  function NextInt64(items: seq<Item>, prior: int): (int, seq<Item>)
  {
    if items != [] && items[0].Int64? then (items[0].l, items[1..]) else (prior, items)
  }

  /** The fields before the physical camera id. */
  function ReadExtrasHead(e: Extras, items: seq<Item>): (Extras, seq<Item>)
  {
    var (requestId, i1) := NextInt32(items, e.requestId);
    var (burstId, i2) := NextInt32(i1, e.burstId);
    var (afTriggerId, i3) := NextInt32(i2, e.afTriggerId);
    var (precaptureTriggerId, i4) := NextInt32(i3, e.precaptureTriggerId);
    var (frameNumber, i5) := NextInt64(i4, e.frameNumber);
    var (partialResultCount, i6) := NextInt32(i5, e.partialResultCount);
    var (errorStreamId, i7) := NextInt32(i6, e.errorStreamId);
    (e.(requestId := requestId, burstId := burstId, afTriggerId := afTriggerId,
        precaptureTriggerId := precaptureTriggerId, frameNumber := frameNumber,
        partialResultCount := partialResultCount, errorStreamId := errorStreamId), i7)
  }

  /** The fields after it. */
  function ReadExtrasTail(e: Extras, items: seq<Item>): (Extras, seq<Item>)
  {
    var (regular, i1) := NextInt64(items, e.lastCompletedRegularFrameNumber);
    var (reprocess, i2) := NextInt64(i1, e.lastCompletedReprocessFrameNumber);
    var (zsl, i3) := NextInt64(i2, e.lastCompletedZslFrameNumber);
    (e.(lastCompletedRegularFrameNumber := regular, lastCompletedReprocessFrameNumber := reprocess,
        lastCompletedZslFrameNumber := zsl), i3)
  }

  /** Reading into an object that holds `e`: an absent camera id leaves the old one in place. */
  function ReadExtras(e: Extras, items: seq<Item>): Read<Extras>
  {
    var (head, i1) := ReadExtrasHead(e, items);
    var present := i1 != [] && i1[0].Bool? && i1[0].b;
    var i2 := if i1 != [] && i1[0].Bool? then i1[1..] else i1;
    if present then
      if i2 == [] || !i2[0].Text? then Fail(NotEnoughData)
      else
        var (whole, rest) := ReadExtrasTail(head.(errorPhysicalCameraId := i2[0].s), i2[1..]);
        Done(whole, rest)
    else
      var (whole, rest) := ReadExtrasTail(head, i2);
      Done(whole, rest)
  }

  lemma HeadReadBack(e: Extras, prior: Extras, tail: seq<Item>)
    ensures
      var items := [Int32(e.requestId), Int32(e.burstId), Int32(e.afTriggerId), Int32(e.precaptureTriggerId),
                    Int64(e.frameNumber), Int32(e.partialResultCount), Int32(e.errorStreamId)] + tail;
      ReadExtrasHead(prior, items)
      == (e.(errorPhysicalCameraId := prior.errorPhysicalCameraId,
             lastCompletedRegularFrameNumber := prior.lastCompletedRegularFrameNumber,
             lastCompletedReprocessFrameNumber := prior.lastCompletedReprocessFrameNumber,
             lastCompletedZslFrameNumber := prior.lastCompletedZslFrameNumber), tail)
  {
    var items := [Int32(e.requestId), Int32(e.burstId), Int32(e.afTriggerId), Int32(e.precaptureTriggerId),
                  Int64(e.frameNumber), Int32(e.partialResultCount), Int32(e.errorStreamId)] + tail;
    assert items[1..][1..] == items[2..] && items[2..][1..] == items[3..] && items[3..][1..] == items[4..];
    assert items[4..][1..] == items[5..] && items[5..][1..] == items[6..] && items[6..][1..] == items[7..];
    assert items[7..] == tail;
  }

  lemma TailReadBack(e: Extras, prior: Extras, tail: seq<Item>)
    ensures
      var items := [Int64(e.lastCompletedRegularFrameNumber), Int64(e.lastCompletedReprocessFrameNumber),
                    Int64(e.lastCompletedZslFrameNumber)] + tail;
      ReadExtrasTail(prior, items)
      == (prior.(lastCompletedRegularFrameNumber := e.lastCompletedRegularFrameNumber,
               lastCompletedReprocessFrameNumber := e.lastCompletedReprocessFrameNumber,
               lastCompletedZslFrameNumber := e.lastCompletedZslFrameNumber), tail)
  {
    var items := [Int64(e.lastCompletedRegularFrameNumber), Int64(e.lastCompletedReprocessFrameNumber),
                  Int64(e.lastCompletedZslFrameNumber)] + tail;
    assert items[1..][1..] == items[2..] && items[2..][1..] == items[3..] && items[3..] == tail;
  }

  /** What the reading object ends up with. */
  function ReceivedExtras(e: Extras, prior: Extras): Extras
  {
    if |e.errorPhysicalCameraId| > 0 then e else e.(errorPhysicalCameraId := prior.errorPhysicalCameraId)
  }

  /** What is written after the head: the camera id, if there is one, and the last fields. */
  ghost function LastExtras(e: Extras, tail: seq<Item>): seq<Item>
  {
    [Int64(e.lastCompletedRegularFrameNumber), Int64(e.lastCompletedReprocessFrameNumber),
     Int64(e.lastCompletedZslFrameNumber)] + tail
  }

  ghost function AfterHead(e: Extras, tail: seq<Item>): seq<Item>
  {
    var id := e.errorPhysicalCameraId;
    (if |id| > 0 then [Bool(true), Text(id)] else [Bool(false)]) + LastExtras(e, tail)
  }

  lemma WrittenExtras(e: Extras, tail: seq<Item>)
    ensures WriteExtras(e) + tail
         == [Int32(e.requestId), Int32(e.burstId), Int32(e.afTriggerId), Int32(e.precaptureTriggerId),
             Int64(e.frameNumber), Int32(e.partialResultCount), Int32(e.errorStreamId)] + AfterHead(e, tail)
  {
  }

  lemma ExtrasReadBack(e: Extras, prior: Extras, tail: seq<Item>)
    ensures ReadExtras(prior, WriteExtras(e) + tail) == Done(ReceivedExtras(e, prior), tail)
  {
    var id, middle, last := e.errorPhysicalCameraId, AfterHead(e, tail), LastExtras(e, tail);
    WrittenExtras(e, tail);
    HeadReadBack(e, prior, middle);
    var head := ReadExtrasHead(prior, WriteExtras(e) + tail).0;
    if |id| > 0 {
      assert middle[0] == Bool(true) && middle[1..] == [Text(id)] + last;
      assert middle[1..][0] == Text(id) && middle[1..][1..] == last;
      TailReadBack(e, head.(errorPhysicalCameraId := id), tail);
    } else {
      assert middle[0] == Bool(false) && middle[1..] == last;
      TailReadBack(e, head, tail);
    }
  }

  // CaptureResult

  /** Where the blobs of a result are written: its own metadata's, then one per physical camera. */
  predicate ResultPlaced(r: Result, lib: Library, first: Placement, at: seq<Placement>)
  {
    Fits(r.metadata, lib.k, first) && Placed(r.physical, lib, at)
  }

  function WriteResult(r: Result, lib: Library, first: Placement, at: seq<Placement>): seq<Item>
    requires ResultPlaced(r, lib, first, at)
  {
    WriteMetadata(r.metadata, lib.k, first)
      + ([Int32(|r.physical|)] + (WriteEntries(r.physical, lib, at) + WriteExtras(r.extras)))
  }

  /** Reading into an object that holds the given extras. */
  function ReadResult(prior: Extras, items: seq<Item>, lib: Library): Read<Result>
  {
    match ReadMetadata(items, lib.k, lib.validate, lib.mapAt)
    case Fail(status) => Fail(status)
    case Done(metadata, i1) =>
      if i1 == [] || !i1[0].Int32? then Fail(NotEnoughData)
      else if i1[0].i < 0 then Fail(BadValue)
      else
        match ReadEntries(i1[0].i, i1[1..], lib, NotEnoughData, [])
        case Fail(status) => Fail(status)
        case Done(physical, i2) =>
          match ReadExtras(prior, i2)
          case Fail(status) => Fail(status)
          case Done(extras, rest) => Done(Result(metadata, physical, extras), rest)
  }

  ghost predicate SoundResult(r: Result, lib: Library)
  {
    Sound(r.metadata, lib.validate) && AllSound(r.physical, lib)
  }

  lemma ResultReadBack(r: Result, lib: Library, first: Placement, at: seq<Placement>, prior: Extras, tail: seq<Item>)
    requires ResultPlaced(r, lib, first, at) && SoundResult(r, lib)
    ensures ReadResult(prior, WriteResult(r, lib, first, at) + tail, lib)
         == Done(r.(extras := ReceivedExtras(r.extras, prior)), tail)
  {
    var last := WriteExtras(r.extras) + tail;
    var listed := WriteEntries(r.physical, lib, at) + last;
    var counted := [Int32(|r.physical|)] + listed;
    assert WriteResult(r, lib, first, at) + tail == WriteMetadata(r.metadata, lib.k, first) + counted;
    MetadataRoundTrip(r.metadata, lib.k, first, lib.validate, lib.mapAt, counted);
    assert counted[1..] == listed;
    EntriesReadBack(r.physical, lib, at, NotEnoughData, [], last);
    assert [] + r.physical == r.physical;
    ExtrasReadBack(r.extras, prior, tail);
  }

  /**
   * A result read back is the one written, consuming exactly its own items, if and only if
   * it names an errored physical camera or the reading object did not.
   */
  lemma ResultRoundTrip(r: Result, lib: Library, first: Placement, at: seq<Placement>, prior: Extras, tail: seq<Item>)
    requires ResultPlaced(r, lib, first, at) && SoundResult(r, lib)
    ensures ReadResult(prior, WriteResult(r, lib, first, at) + tail, lib) == Done(r, tail)
      <==> r.extras.errorPhysicalCameraId != "" || prior.errorPhysicalCameraId == ""
  {
    ResultReadBack(r, lib, first, at, prior, tail);
  }

  /** One result and one reading object whose old camera id survives. */
  lemma StaleCameraIdSurvives(lib: Library, first: Placement, tail: seq<Item>)
    ensures
      var fresh0 := Extras(0, 0, 0, 0, 0, 0, 0, "", 0, 0, 0);
      var r := Result(None, [], fresh0);
      && ResultPlaced(r, lib, first, [])
      && ReadResult(fresh0.(errorPhysicalCameraId := "7"), WriteResult(r, lib, first, []) + tail, lib)
         == Done(r.(extras := fresh0.(errorPhysicalCameraId := "7")), tail)
  {
    var fresh0 := Extras(0, 0, 0, 0, 0, 0, 0, "", 0, 0, 0);
    ResultReadBack(Result(None, [], fresh0), lib, first, [], fresh0.(errorPhysicalCameraId := "7"), tail);
  }

  // CaptureRequest

  /** More items after some; nothing if the rest cannot be written. */
  function Prepend(items: seq<Item>, rest: Option<seq<Item>>): Option<seq<Item>>
  {
    if rest.Some? then Some(items + rest.value) else None
  }

  /** No result when a null surface is dereferenced. */
  function WriteSurfaces(surfaces: seq<Option<nat>>): Option<seq<Item>>
  {
    if surfaces == [] then Some([])
    else if surfaces[0].None? then None
    else Prepend([Text("android.view.Surface"), SurfaceOf(surfaces[0])], WriteSurfaces(surfaces[1..]))
  }

  /** No result when there are fewer surface than stream indexes. */
  function WriteIndexes(streams: seq<int>, surfaces: seq<int>): Option<seq<Item>>
  {
    if streams == [] then Some([])
    else if surfaces == [] then None
    else Prepend([Int32(streams[0]), Int32(surfaces[0])], WriteIndexes(streams[1..], surfaces[1..]))
  }

  /** The surfaces a request sends: none once they have been converted to indexes. */
  function SentSurfaces(r: Request): seq<Option<nat>>
  {
    if r.surfaceConverted then [] else r.surfaces
  }

  function WriteTargets(r: Request): Option<seq<Item>>
  {
    var surfaces, indexes := WriteSurfaces(SentSurfaces(r)), WriteIndexes(r.streamIdx, r.surfaceIdx);
    if surfaces.None? || indexes.None? then None
    else
      Some([Int32(if r.isReprocess then 1 else 0), Int32(|SentSurfaces(r)|)] + (surfaces.value
        + ([Int32(|r.streamIdx|)] + indexes.value)))
  }

  /** No result stands for a write that does not get to its end. */
  function WriteRequest(r: Request, lib: Library, at: seq<Placement>): Option<seq<Item>>
    requires Placed(r.settings, lib, at)
  {
    Prepend([Int32(|r.settings|)], Prepend(WriteEntries(r.settings, lib, at), WriteTargets(r)))
  }

  /** A null class name stands for a null surface, which is skipped. */
  function ReadSurfaces(n: int, items: seq<Item>, read: seq<Option<nat>>): Read<seq<Option<nat>>>
    decreases if n < 0 then 0 else n
  {
    if n <= 0 then Done(read, items)
    else if items == [] || !items[0].Text? then
      ReadSurfaces(n - 1, if items != [] && items[0].NullText? then items[1..] else items, read)
    else if |items| == 1 || !items[1].SurfaceOf? then Fail(NotEnoughData)
    else ReadSurfaces(n - 1, items[2..], read + [items[1].producer])
  }

  function ReadIndexes(n: nat, items: seq<Item>, streams: seq<int>, surfaces: seq<int>): Read<(seq<int>, seq<int>)>
  {
    if n == 0 then Done((streams, surfaces), items)
    else if |items| < 2 || !items[0].Int32? || !items[1].Int32? then Fail(NotEnoughData)
    else ReadIndexes(n - 1, items[2..], streams + [items[0].i], surfaces + [items[1].i])
  }

  /** The part of a request after its settings. */
  function ReadTargets(settings: seq<CameraEntry>, converted: bool, items: seq<Item>): Read<Request>
  {
    if |items| < 2 || !items[0].Int32? || !items[1].Int32? then Fail(NotEnoughData)
    else
      match ReadSurfaces(items[1].i, items[2..], [])
      case Fail(status) => Fail(status)
      case Done(surfaces, i1) =>
        if i1 == [] || !i1[0].Int32? then Fail(NotEnoughData)
        else if i1[0].i < 0 then Fail(BadValue)
        else
          match ReadIndexes(i1[0].i, i1[1..], [], [])
          case Fail(status) => Fail(status)
          case Done(indexes, rest) =>
            Done(Request(settings, items[0].i != 0, converted, surfaces, indexes.0, indexes.1), rest)
  }

  /** Reading into an object whose surfaceConverted flag, which is not sent, is `converted`. */
  function ReadRequest(converted: bool, items: seq<Item>, lib: Library): Read<Request>
  {
    if items == [] || !items[0].Int32? then Fail(NotEnoughData)
    else if items[0].i <= 0 then Fail(BadValue)
    else
      match ReadEntries(items[0].i, items[1..], lib, BadValue, [])
      case Fail(status) => Fail(status)
      case Done(settings, i1) => ReadTargets(settings, converted, i1)
  }

  lemma {:induction false} SurfacesWritable(surfaces: seq<Option<nat>>)
    ensures WriteSurfaces(surfaces).Some? <==> forall i :: 0 <= i < |surfaces| ==> surfaces[i].Some?
    decreases |surfaces|
  {
    if surfaces != [] {
      SurfacesWritable(surfaces[1..]);
      assert forall i :: 0 < i < |surfaces| ==> surfaces[i] == surfaces[1..][i - 1];
      assert forall i :: 0 <= i < |surfaces| - 1 ==> surfaces[1..][i] == surfaces[i + 1];
    }
  }

  lemma {:induction false} IndexesWritable(streams: seq<int>, surfaces: seq<int>)
    ensures WriteIndexes(streams, surfaces).Some? <==> |streams| <= |surfaces|
    decreases |streams|
  {
    if streams != [] && surfaces != [] {
      IndexesWritable(streams[1..], surfaces[1..]);
    }
  }

  /** Surfaces are there or no longer needed, and each stream index has its surface index. */
  ghost predicate CanWrite(r: Request)
  {
    && (r.surfaceConverted || forall i :: 0 <= i < |r.surfaces| ==> r.surfaces[i].Some?)
    && |r.streamIdx| <= |r.surfaceIdx|
  }

  /** Exactly such requests can be written; any other dereferences a null surface or runs out of indexes. */
  lemma WritableExactly(r: Request, lib: Library, at: seq<Placement>)
    requires Placed(r.settings, lib, at)
    ensures WriteRequest(r, lib, at).Some? <==> CanWrite(r)
  {
    SurfacesWritable(SentSurfaces(r));
    IndexesWritable(r.streamIdx, r.surfaceIdx);
  }

  lemma {:induction false} SurfacesReadBack(surfaces: seq<Option<nat>>, read: seq<Option<nat>>, tail: seq<Item>)
    requires WriteSurfaces(surfaces).Some?
    ensures ReadSurfaces(|surfaces|, WriteSurfaces(surfaces).value + tail, read) == Done(read + surfaces, tail)
    decreases |surfaces|
  {
    if surfaces == [] {
      assert WriteSurfaces(surfaces).value + tail == tail && read + surfaces == read;
    } else {
      var items := WriteSurfaces(surfaces).value + tail;
      assert items[2..] == WriteSurfaces(surfaces[1..]).value + tail;
      SurfacesReadBack(surfaces[1..], read + [surfaces[0]], tail);
      assert (read + [surfaces[0]]) + surfaces[1..] == read + surfaces;
    }
  }

  /** One place in a parcelled surface array: null, or a class name and a surface. */
  datatype Slot = NullSlot | Slot(className: string, producer: Option<nat>)

  ghost function SlotItems(slots: seq<Slot>): seq<Item>
  {
    if slots == [] then []
    else
      (match slots[0]
       case NullSlot => [NullText]
       case Slot(name, producer) => [Text(name), SurfaceOf(producer)])
      + SlotItems(slots[1..])
  }

  ghost function Producers(slots: seq<Slot>): seq<Option<nat>>
  {
    if slots == [] then []
    else (if slots[0].NullSlot? then [] else [slots[0].producer]) + Producers(slots[1..])
  }

  /** Of any surface array the places that are not null are read, in order, and each takes up its own items. */
  lemma {:induction false} NullSlotsSkipped(slots: seq<Slot>, read: seq<Option<nat>>, tail: seq<Item>)
    ensures ReadSurfaces(|slots|, SlotItems(slots) + tail, read) == Done(read + Producers(slots), tail)
    decreases |slots|
  {
    var items := SlotItems(slots) + tail;
    if slots == [] {
      assert items == tail && read + Producers(slots) == read;
    } else if slots[0].NullSlot? {
      assert items[1..] == SlotItems(slots[1..]) + tail;
      NullSlotsSkipped(slots[1..], read, tail);
      assert Producers(slots) == Producers(slots[1..]);
    } else {
      assert items[2..] == SlotItems(slots[1..]) + tail;
      NullSlotsSkipped(slots[1..], read + [slots[0].producer], tail);
      assert read + [slots[0].producer] + Producers(slots[1..]) == read + Producers(slots);
    }
  }

  lemma {:induction false} IndexesReadBack(
    streams: seq<int>, surfaces: seq<int>, a: seq<int>, b: seq<int>, tail: seq<Item>)
    requires WriteIndexes(streams, surfaces).Some? && |streams| <= |surfaces|
    ensures ReadIndexes(|streams|, WriteIndexes(streams, surfaces).value + tail, a, b)
         == Done((a + streams, b + surfaces[..|streams|]), tail)
    decreases |streams|
  {
    if streams == [] {
      assert WriteIndexes(streams, surfaces).value + tail == tail;
      assert a + streams == a && b + surfaces[..0] == b;
    } else {
      var n, items := |streams|, WriteIndexes(streams, surfaces).value + tail;
      assert items[2..] == WriteIndexes(streams[1..], surfaces[1..]).value + tail;
      IndexesReadBack(streams[1..], surfaces[1..], a + [streams[0]], b + [surfaces[0]], tail);
      assert (a + [streams[0]]) + streams[1..] == a + streams;
      assert (b + [surfaces[0]]) + surfaces[1..][..n - 1] == b + surfaces[..n];
    }
  }

  lemma TargetsShape(r: Request, tail: seq<Item>)
    requires WriteTargets(r).Some?
    ensures
      var items := WriteTargets(r).value + tail;
      && |items| >= 2 && items[0] == Int32(if r.isReprocess then 1 else 0) && items[1] == Int32(|SentSurfaces(r)|)
      && items[2..] == WriteSurfaces(SentSurfaces(r)).value
           + ([Int32(|r.streamIdx|)] + (WriteIndexes(r.streamIdx, r.surfaceIdx).value + tail))
  {
  }

  /** What is left of a request that was sent: surfaces not yet converted, and paired indexes. */
  ghost function Sent(r: Request, converted: bool): Request
    requires |r.streamIdx| <= |r.surfaceIdx|
  {
    r.(surfaceConverted := converted,
       surfaces := if r.surfaceConverted then [] else r.surfaces,
       surfaceIdx := r.surfaceIdx[..|r.streamIdx|])
  }

  lemma TargetsReadBack(r: Request, converted: bool, tail: seq<Item>)
    requires WriteTargets(r).Some? && |r.streamIdx| <= |r.surfaceIdx|
    ensures ReadTargets(r.settings, converted, WriteTargets(r).value + tail) == Done(Sent(r, converted), tail)
  {
    var indexed := WriteIndexes(r.streamIdx, r.surfaceIdx).value + tail;
    var counted := [Int32(|r.streamIdx|)] + indexed;
    TargetsShape(r, tail);
    SurfacesReadBack(SentSurfaces(r), [], counted);
    assert [] + SentSurfaces(r) == SentSurfaces(r);
    assert counted[1..] == indexed;
    IndexesReadBack(r.streamIdx, r.surfaceIdx, [], [], tail);
    assert [] + r.streamIdx == r.streamIdx;
    assert [] + r.surfaceIdx[..|r.streamIdx|] == r.surfaceIdx[..|r.streamIdx|];
  }

  lemma RequestShape(r: Request, lib: Library, at: seq<Placement>, tail: seq<Item>)
    requires Placed(r.settings, lib, at) && WriteRequest(r, lib, at).Some?
    ensures WriteTargets(r).Some?
    ensures WriteRequest(r, lib, at).value + tail
         == [Int32(|r.settings|)] + (WriteEntries(r.settings, lib, at) + (WriteTargets(r).value + tail))
  {
  }

  /**
   * A request that can be written and has at least one setting is read back whole but for
   * surfaces already converted and surface indexes without a stream; one without settings
   * is refused.
   */
  lemma RequestRoundTrip(r: Request, lib: Library, at: seq<Placement>, converted: bool, tail: seq<Item>)
    requires Placed(r.settings, lib, at) && AllSound(r.settings, lib) && CanWrite(r)
    ensures WriteRequest(r, lib, at).Some?
    ensures ReadRequest(converted, WriteRequest(r, lib, at).value + tail, lib)
         == if r.settings == [] then Fail(BadValue) else Done(Sent(r, converted), tail)
  {
    WritableExactly(r, lib, at);
    RequestShape(r, lib, at, tail);
    var targets := WriteTargets(r).value + tail;
    var items := WriteRequest(r, lib, at).value + tail;
    assert items[1..] == WriteEntries(r.settings, lib, at) + targets;
    if r.settings != [] {
      EntriesReadBack(r.settings, lib, at, BadValue, [], targets);
      assert [] + r.settings == r.settings;
      TargetsReadBack(r, converted, tail);
    }
  }

  lemma {:induction false} ReadIndexesPaired(n: nat, items: seq<Item>, streams: seq<int>, surfaces: seq<int>)
    requires |streams| == |surfaces| && ReadIndexes(n, items, streams, surfaces).Done?
    ensures
      var (a, b) := ReadIndexes(n, items, streams, surfaces).value;
      |a| == |b|
    decreases n
  {
    if n > 0 {
      ReadIndexesPaired(n - 1, items[2..], streams + [items[0].i], surfaces + [items[1].i]);
    }
  }

  /** A request read from any parcel can be sent on if and only if it is converted or got no null producer. */
  lemma ReadThenWritable(converted: bool, items: seq<Item>, lib: Library, at: seq<Placement>)
    requires ReadRequest(converted, items, lib).Done?
    requires Placed(ReadRequest(converted, items, lib).value.settings, lib, at)
    ensures
      var r := ReadRequest(converted, items, lib).value;
      WriteRequest(r, lib, at).Some? <==> converted || forall i :: 0 <= i < |r.surfaces| ==> r.surfaces[i].Some?
  {
    var r := ReadRequest(converted, items, lib).value;
    WritableExactly(r, lib, at);
    var i1 := ReadEntries(items[0].i, items[1..], lib, BadValue, []).rest;
    var i2 := ReadSurfaces(i1[1].i, i1[2..], []).rest;
    ReadIndexesPaired(i2[0].i, i2[1..], [], []);
  }

  /** A parcel with a null producer is read into a request that cannot be sent on. */
  lemma NullProducerCannotBeSent(id: string, lib: Library, at: seq<Placement>, tail: seq<Item>)
    requires |at| == 1
    ensures
      var items := [Int32(1), Text(id), Int32(0), Int32(0), Int32(1),
                    Text("android.view.Surface"), SurfaceOf(None), Int32(0)] + tail;
      var r := Request([CameraEntry(id, None)], false, false, [None], [], []);
      && ReadRequest(false, items, lib) == Done(r, tail)
      && Placed(r.settings, lib, at) && WriteRequest(r, lib, at).None?
  {
    var items := [Int32(1), Text(id), Int32(0), Int32(0), Int32(1),
                  Text("android.view.Surface"), SurfaceOf(None), Int32(0)] + tail;
    var r := Request([CameraEntry(id, None)], false, false, [None], [], []);
    assert items[1..][1..] == items[2..] && items[2..][1..] == items[3..];
    assert ReadMetadata(items[2..], lib.k, lib.validate, lib.mapAt) == Done(None, items[3..]);
    assert [] + [CameraEntry(id, None)] == [CameraEntry(id, None)];
    assert ReadEntries(0, items[3..], lib, BadValue, [CameraEntry(id, None)])
        == Done([CameraEntry(id, None)], items[3..]);
    assert ReadEntries(1, items[1..], lib, BadValue, []) == Done([CameraEntry(id, None)], items[3..]);
    var i1 := items[3..];
    assert i1[2..] == items[5..] && items[5..][2..] == items[7..] && items[7..][1..] == tail;
    var none: Option<nat> := None;
    assert [] + [none] == [none];
    assert ReadSurfaces(0, items[7..], [none]) == Done([none], items[7..]);
    assert ReadSurfaces(1, items[5..], []) == Done([none], items[7..]);
    assert ReadIndexes(0, tail, [], []) == Done(([], []), tail);
  }

  // The objects

  /** The loop that reads a list of cameras with metadata. */
  method ReadEntryLoop(n: nat, items: seq<Item>, lib: Library, idError: Status)
    returns (status: Option<Status>, entries: seq<CameraEntry>, rest: seq<Item>)
    ensures ReadEntries(n, items, lib, idError, [])
         == if status.Some? then Fail(status.value) else Done(entries, rest)
  {
    entries, rest := [], items;
    for i := 0 to n
      invariant ReadEntries(n - i, rest, lib, idError, entries) == ReadEntries(n, items, lib, idError, [])
    {
      if rest == [] || !rest[0].Text? {
        return Some(idError), entries, rest;
      }
      var id := rest[0].s;
      match ReadMetadata(rest[1..], lib.k, lib.validate, lib.mapAt) {
        case Fail(error) => return Some(error), entries, rest;
        case Done(metadata, after) =>
          entries, rest := entries + [CameraEntry(id, metadata)], after;
      }
    }
    status := None;
  }

  /** The loop that writes one. */
  method WriteEntryLoop(entries: seq<CameraEntry>, lib: Library, at: seq<Placement>) returns (items: seq<Item>)
    requires Placed(entries, lib, at)
    ensures items == WriteEntries(entries, lib, at)
  {
    items := [];
    for i := 0 to |entries|
      invariant items + WriteEntries(entries[i..], lib, at[i..]) == WriteEntries(entries, lib, at)
    {
      var entry := [Text(entries[i].id)] + WriteMetadata(entries[i].metadata, lib.k, at[i]);
      EntryShape(entries, lib, at, i, items, entry);
      items := items + entry;
    }
  }

  lemma EntryShape(entries: seq<CameraEntry>, lib: Library, at: seq<Placement>, i: nat,
                   items: seq<Item>, entry: seq<Item>)
    requires Placed(entries, lib, at) && i < |entries|
    requires entry == [Text(entries[i].id)] + WriteMetadata(entries[i].metadata, lib.k, at[i])
    ensures items + WriteEntries(entries[i..], lib, at[i..])
         == (items + entry) + WriteEntries(entries[i + 1..], lib, at[i + 1..])
  {
    assert entries[i..][1..] == entries[i + 1..] && at[i..][1..] == at[i + 1..];
  }

  class CaptureResult {
    var mMetadata: Option<Packet>
    var mPhysicalMetadatas: seq<CameraEntry>
    var mResultExtras: Extras

    function View(): Result
      reads this
    {
      Result(mMetadata, mPhysicalMetadatas, mResultExtras)
    }

    constructor (r: Result)
      ensures View() == r
    {
      mMetadata, mPhysicalMetadatas, mResultExtras := r.metadata, r.physical, r.extras;
    }

    method ReadFromParcel(items: seq<Item>, lib: Library) returns (status: Option<Status>, rest: seq<Item>)
      modifies this
      ensures ReadResult(old(mResultExtras), items, lib)
           == if status.Some? then Fail(status.value) else Done(View(), rest)
    {
      mMetadata, mPhysicalMetadatas, rest := None, [], items;
      match ReadMetadata(items, lib.k, lib.validate, lib.mapAt) {
        case Fail(error) => return Some(error), rest;
        case Done(metadata, after) => mMetadata, rest := metadata, after;
      }
      if rest == [] || !rest[0].Int32? {
        return Some(NotEnoughData), rest;
      }
      var physicalMetadataCount := rest[0].i;
      if physicalMetadataCount < 0 {
        return Some(BadValue), rest;
      }
      status, mPhysicalMetadatas, rest := ReadEntryLoop(physicalMetadataCount, rest[1..], lib, NotEnoughData);
      if status.Some? {
        return;
      }
      match ReadExtras(mResultExtras, rest) {
        case Fail(error) => status := Some(error);
        case Done(extras, after) => mResultExtras, rest := extras, after;
      }
    }

    method WriteToParcel(lib: Library, first: Placement, at: seq<Placement>) returns (items: seq<Item>)
      requires ResultPlaced(View(), lib, first, at)
      ensures items == WriteResult(View(), lib, first, at)
    {
      var physical := WriteEntryLoop(mPhysicalMetadatas, lib, at);
      items := WriteMetadata(mMetadata, lib.k, first)
        + ([Int32(|mPhysicalMetadatas|)] + (physical + WriteExtras(mResultExtras)));
    }
  }

  class CaptureRequest {
    var mPhysicalCameraSettings: seq<CameraEntry>
    var mIsReprocess: bool
    var mSurfaceConverted: bool
    var mSurfaceList: seq<Option<nat>>
    var mStreamIdxList: seq<int>
    var mSurfaceIdxList: seq<int>

    function View(): Request
      reads this
    {
      Request(mPhysicalCameraSettings, mIsReprocess, mSurfaceConverted, mSurfaceList, mStreamIdxList, mSurfaceIdxList)
    }

    constructor (r: Request)
      ensures View() == r
    {
      mPhysicalCameraSettings, mIsReprocess, mSurfaceConverted := r.settings, r.isReprocess, r.surfaceConverted;
      mSurfaceList, mStreamIdxList, mSurfaceIdxList := r.surfaces, r.streamIdx, r.surfaceIdx;
    }

    method ReadSurfaceLoop(size: int, items: seq<Item>) returns (status: Option<Status>, rest: seq<Item>)
      requires mSurfaceList == []
      modifies this`mSurfaceList
      ensures ReadSurfaces(size, items, [])
           == if status.Some? then Fail(status.value) else Done(mSurfaceList, rest)
    {
      rest := items;
      var i := 0;
      while i < size
        invariant size <= 0 ==> i == 0
        invariant size > 0 ==> i <= size
        invariant ReadSurfaces(size - i, rest, mSurfaceList) == ReadSurfaces(size, items, [])
      {
        if rest == [] || !rest[0].Text? {
          if rest != [] && rest[0].NullText? {
            rest := rest[1..];
          }
        } else {
          if |rest| == 1 || !rest[1].SurfaceOf? {
            return Some(NotEnoughData), rest;
          }
          mSurfaceList := mSurfaceList + [rest[1].producer];
          rest := rest[2..];
        }
        i := i + 1;
      }
      status := None;
    }

    method ReadIndexLoop(size: nat, items: seq<Item>) returns (status: Option<Status>, rest: seq<Item>)
      requires mStreamIdxList == [] && mSurfaceIdxList == []
      modifies this`mStreamIdxList, this`mSurfaceIdxList
      ensures ReadIndexes(size, items, [], [])
           == if status.Some? then Fail(status.value) else Done((mStreamIdxList, mSurfaceIdxList), rest)
    {
      rest := items;
      for i := 0 to size
        invariant ReadIndexes(size - i, rest, mStreamIdxList, mSurfaceIdxList) == ReadIndexes(size, items, [], [])
      {
        if rest == [] || !rest[0].Int32? {
          return Some(NotEnoughData), rest;
        }
        if |rest| == 1 || !rest[1].Int32? {
          return Some(NotEnoughData), rest;
        }
        mStreamIdxList, mSurfaceIdxList := mStreamIdxList + [rest[0].i], mSurfaceIdxList + [rest[1].i];
        rest := rest[2..];
      }
      status := None;
    }

    method ReadTargetsPart(items: seq<Item>) returns (status: Option<Status>, rest: seq<Item>)
      requires mSurfaceList == [] && mStreamIdxList == [] && mSurfaceIdxList == []
      modifies this`mIsReprocess, this`mSurfaceList, this`mStreamIdxList, this`mSurfaceIdxList
      ensures ReadTargets(mPhysicalCameraSettings, mSurfaceConverted, items)
           == if status.Some? then Fail(status.value) else Done(View(), rest)
    {
      rest := items;
      if |items| < 2 || !items[0].Int32? || !items[1].Int32? {
        return Some(NotEnoughData), rest;
      }
      mIsReprocess := items[0].i != 0;
      status, rest := ReadSurfaceLoop(items[1].i, items[2..]);
      if status.Some? {
        return;
      }
      if rest == [] || !rest[0].Int32? {
        return Some(NotEnoughData), rest;
      }
      var streamSurfaceSize := rest[0].i;
      if streamSurfaceSize < 0 {
        return Some(BadValue), rest;
      }
      status, rest := ReadIndexLoop(streamSurfaceSize, rest[1..]);
    }

    method ReadFromParcel(items: seq<Item>, lib: Library) returns (status: Option<Status>, rest: seq<Item>)
      modifies this
      ensures ReadRequest(old(mSurfaceConverted), items, lib)
           == if status.Some? then Fail(status.value) else Done(View(), rest)
    {
      mSurfaceList, mStreamIdxList, mSurfaceIdxList, mPhysicalCameraSettings, rest := [], [], [], [], items;
      if items == [] || !items[0].Int32? {
        return Some(NotEnoughData), rest;
      }
      var settingsCount := items[0].i;
      if settingsCount <= 0 {
        return Some(BadValue), rest;
      }
      status, mPhysicalCameraSettings, rest := ReadEntryLoop(settingsCount, items[1..], lib, BadValue);
      if status.Some? {
        return;
      }
      status, rest := ReadTargetsPart(rest);
    }

    /** No result when the loop meets a null surface. */
    method WriteSurfaceLoop() returns (written: Option<seq<Item>>)
      ensures written == WriteSurfaces(mSurfaceList)
    {
      var items := [];
      PrependNothing(WriteSurfaces(mSurfaceList));
      assert mSurfaceList[0..] == mSurfaceList;
      for i := 0 to |mSurfaceList|
        invariant Prepend(items, WriteSurfaces(mSurfaceList[i..])) == WriteSurfaces(mSurfaceList)
      {
        assert mSurfaceList[i..][1..] == mSurfaceList[i + 1..];
        if mSurfaceList[i].None? {
          return None;
        }
        var surface := [Text("android.view.Surface"), SurfaceOf(mSurfaceList[i])];
        PrependTwice(items, surface, WriteSurfaces(mSurfaceList[i + 1..]));
        items := items + surface;
      }
      assert items + [] == items;
      written := Some(items);
    }

    /** No result when the loop runs out of surface indexes. */
    method WriteIndexLoop() returns (written: Option<seq<Item>>)
      ensures written == WriteIndexes(mStreamIdxList, mSurfaceIdxList)
    {
      var items := [];
      PrependNothing(WriteIndexes(mStreamIdxList, mSurfaceIdxList));
      assert mStreamIdxList[0..] == mStreamIdxList && mSurfaceIdxList[0..] == mSurfaceIdxList;
      for i := 0 to |mStreamIdxList|
        invariant i <= |mSurfaceIdxList|
        invariant Prepend(items, WriteIndexes(mStreamIdxList[i..], mSurfaceIdxList[i..]))
               == WriteIndexes(mStreamIdxList, mSurfaceIdxList)
      {
        assert mStreamIdxList[i..][1..] == mStreamIdxList[i + 1..];
        if i == |mSurfaceIdxList| {
          return None;
        }
        assert mSurfaceIdxList[i..][1..] == mSurfaceIdxList[i + 1..];
        var pair := [Int32(mStreamIdxList[i]), Int32(mSurfaceIdxList[i])];
        PrependTwice(items, pair, WriteIndexes(mStreamIdxList[i + 1..], mSurfaceIdxList[i + 1..]));
        items := items + pair;
      }
      assert items + [] == items;
      written := Some(items);
    }

    method WriteToParcel(lib: Library, at: seq<Placement>) returns (written: Option<seq<Item>>)
      requires Placed(mPhysicalCameraSettings, lib, at)
      ensures written == WriteRequest(View(), lib, at)
      ensures written.Some? <==> CanWrite(View())
    {
      WritableExactly(View(), lib, at);
      var settings := WriteEntryLoop(mPhysicalCameraSettings, lib, at);
      var surfaces := Some([]);
      if !mSurfaceConverted {
        surfaces := WriteSurfaceLoop();
      }
      if surfaces.None? {
        return None;
      }
      var indexes := WriteIndexLoop();
      if indexes.None? {
        return None;
      }
      var size := if mSurfaceConverted then 0 else |mSurfaceList|;
      written := Some([Int32(|mPhysicalCameraSettings|)] + (settings
        + ([Int32(if mIsReprocess then 1 else 0), Int32(size)]
           + (surfaces.value + ([Int32(|mStreamIdxList|)] + indexes.value)))));
    }
  }

  lemma PrependNothing(rest: Option<seq<Item>>)
    ensures Prepend([], rest) == rest
  {
    if rest.Some? { assert [] + rest.value == rest.value; }
  }

  lemma PrependTwice(a: seq<Item>, b: seq<Item>, rest: Option<seq<Item>>)
    ensures Prepend(a, Prepend(b, rest)) == Prepend(a + b, rest)
  {
    if rest.Some? { assert a + (b + rest.value) == (a + b) + rest.value; }
  }
}
