/**
 * Camera metadata in a parcel: the packet sits in a blob at an aligned address, so
 * where it starts depends on where the writer's blob happened to lie.
 */
module MetadataParcel {
  import opened Common

  /** One thing in a parcel.  A surface is the name of its buffer producer. */
  datatype Item =
    | Int32(i: int)
    | Int64(l: int)
    | Bool(b: bool)
    | Text(s: string)
    | NullText
    | Blob(bytes: seq<byte>)
    | SurfaceOf(producer: Option<nat>)

  datatype Status = BadValue | NotEnoughData

  datatype Read<+T> = Fail(status: Status) | Done(value: T, rest: seq<Item>)

  /** A metadata packet in its compact form; the null buffer is None. */
  type Packet = seq<byte>

  // Alignment

  function Pow2(k: nat): (p: nat)
    ensures p > 0
  {
    if k == 0 then 1 else 2 * Pow2(k - 1)
  }

  /** x & ~mask, bit by bit. */
  function AndNot(x: nat, mask: nat): nat
    decreases x
  {
    if x == 0 then 0
    else (if mask % 2 == 1 then 0 else x % 2) + 2 * AndNot(x / 2, mask / 2)
  }

  /** The ALIGN_TO macro. */
  function AlignTo(val: nat, alignment: nat): nat
    requires alignment > 0
  {
    AndNot(val + (alignment - 1), alignment - 1)
  }

  /** x with its k lowest bits cleared, and x shifted right by k. */
  function RoundDown(x: nat, k: nat): nat
  {
    if k == 0 then x else 2 * RoundDown(x / 2, k - 1)
  }

  function ShiftRight(x: nat, k: nat): nat
  {
    if k == 0 then x else ShiftRight(x / 2, k - 1)
  }

  lemma {:induction false} AndNotZero(x: nat)
    ensures AndNot(x, 0) == x
    decreases x
  {
    if x > 0 { AndNotZero(x / 2); }
  }

  lemma {:induction false} ZeroRoundsDown(k: nat)
    ensures RoundDown(0, k) == 0
    decreases k
  {
    if k > 0 { ZeroRoundsDown(k - 1); }
  }

  lemma HalfMask(m: nat)
    requires m > 0
    ensures (2 * m - 1) % 2 == 1 && (2 * m - 1) / 2 == m - 1
  {
  }

  /** Clearing the bits below a power of two rounds down to a multiple of it. */
  lemma {:induction false} AndNotRoundsDown(x: nat, k: nat)
    ensures AndNot(x, Pow2(k) - 1) == RoundDown(x, k)
    decreases k
  {
    if k == 0 {
      AndNotZero(x);
    } else if x == 0 {
      ZeroRoundsDown(k);
    } else {
      HalfMask(Pow2(k - 1));
      AndNotRoundsDown(x / 2, k - 1);
    }
  }

  lemma {:induction false} RoundDownBounds(x: nat, k: nat)
    ensures RoundDown(x, k) <= x < RoundDown(x, k) + Pow2(k)
    decreases k
  {
    if k > 0 { RoundDownBounds(x / 2, k - 1); }
  }

  lemma {:induction false} RoundDownIsMultiple(x: nat, k: nat)
    ensures RoundDown(x, k) == Pow2(k) * ShiftRight(x, k)
    decreases k
  {
    if k > 0 {
      RoundDownIsMultiple(x / 2, k - 1);
      Doubled(Pow2(k - 1), ShiftRight(x / 2, k - 1));
    }
  }

  lemma Doubled(a: nat, b: nat)
    ensures 2 * (a * b) == (2 * a) * b
  {
  }

  /** The first multiple of the alignment not below the address. */
  ghost predicate IsFirstMultiple(aligned: nat, addr: nat, alignment: nat)
  {
    addr <= aligned < addr + alignment && IsMultiple(aligned, alignment)
  }

  ghost predicate IsMultiple(x: nat, alignment: nat)
  {
    exists n: nat :: x == Times(alignment, n)
  }

  ghost function Times(a: nat, b: nat): nat
  {
    a * b
  }

  lemma AlignToRoundsUp(addr: nat, k: nat)
    ensures IsFirstMultiple(AlignTo(addr, Pow2(k)), addr, Pow2(k))
  {
    var x := addr + (Pow2(k) - 1);
    assert Times(Pow2(k), ShiftRight(x, k)) == Pow2(k) * ShiftRight(x, k);
    AndNotRoundsDown(x, k);
    RoundDownBounds(x, k);
    RoundDownIsMultiple(x, k);
  }

  // Metadata

  /** What the writer cannot choose: the blob's address and what the blob held before. */
  datatype Placement = Placement(addr: nat, stale: seq<byte>)

  function Offset(k: nat, at: Placement): (offset: nat)
    ensures offset < Pow2(k)
  {
    AlignToRoundsUp(at.addr, k);
    AlignTo(at.addr, Pow2(k)) - at.addr
  }

  /** Whether a fresh blob of that size was handed out. */
  predicate Fits(m: Option<Packet>, k: nat, at: Placement)
  {
    m.Some? ==> |at.stale| == |m.value| + Pow2(k)
  }

  /** The blob with the packet copied to the aligned offset. */
  function BlobOf(m: Packet, k: nat, at: Placement): (blob: seq<byte>)
    requires |at.stale| == |m| + Pow2(k)
    ensures |blob| == |at.stale|
    ensures blob[Offset(k, at)..Offset(k, at) + |m|] == m
  {
    var o := Offset(k, at);
    at.stale[..o] + m + at.stale[o + |m|..]
  }

  function WriteMetadata(m: Option<Packet>, k: nat, at: Placement): seq<Item>
    requires Fits(m, k, at)
  {
    if m.None? then [Int32(0)]
    else [Int32(|m.value| + Pow2(k)), Blob(BlobOf(m.value, k, at)), Int32(Offset(k, at))]
  }

  /** The bytes at some addresses of a blob mapped at `base`. */
  function Load(base: nat, blob: seq<byte>, start: nat, n: nat): seq<byte>
    requires base <= start && start + n <= base + |blob|
  {
    blob[start - base..start - base + n]
  }

  /** `mapAt` tells at which address the reader finds a blob. */
  function ReadMetadata(items: seq<Item>, k: nat, validate: Packet -> bool, mapAt: seq<byte> -> nat)
    : Read<Option<Packet>>
  {
    if items == [] || !items[0].Int32? then Fail(NotEnoughData)
    else
      var blobSize := items[0].i;
      if blobSize == 0 then Done(None, items[1..])
      else if 0 <= blobSize <= Pow2(k) then Fail(BadValue)
      else if |items| == 1 || !items[1].Blob? || |items[1].bytes| != blobSize then Fail(NotEnoughData)
      else if |items| == 2 || !items[2].Int32? then Fail(NotEnoughData)
      else if items[2].i < 0 || items[2].i >= Pow2(k) then Fail(BadValue)
      else
        var blob := items[1].bytes;
        var metadataStart := mapAt(blob) + items[2].i;
        var m := Load(mapAt(blob), blob, metadataStart, blobSize - Pow2(k));
        if validate(m) then Done(Some(m), items[3..]) else Fail(BadValue)
  }

  /** A packet the reader will accept. */
  ghost predicate Sound(m: Option<Packet>, validate: Packet -> bool)
  {
    m.Some? ==> |m.value| > 0 && validate(m.value)
  }

  /**
   * Wherever the writer's blob lay, the packet is inside it, at the first aligned address from
   * the blob's on; wherever the reader's is mapped, it recovers the packet, consuming exactly
   * what was written.
   */
  lemma MetadataRoundTrip(m: Option<Packet>, k: nat, at: Placement, validate: Packet -> bool,
                          mapAt: seq<byte> -> nat, tail: seq<Item>)
    requires Fits(m, k, at) && Sound(m, validate)
    ensures ReadMetadata(WriteMetadata(m, k, at) + tail, k, validate, mapAt) == Done(m, tail)
    ensures m.Some? ==> Offset(k, at) < Pow2(k) && Offset(k, at) + |m.value| <= |at.stale|
    ensures m.Some? ==> IsFirstMultiple(at.addr + Offset(k, at), at.addr, Pow2(k))
  {
    AlignToRoundsUp(at.addr, k);
    var items := WriteMetadata(m, k, at) + tail;
    if m.Some? {
      assert items[3..] == tail;
    } else {
      assert items[1..] == tail;
    }
  }

  /** The packet that a size, a blob and an offset describe, if they fit each other. */
  ghost function Described(items: seq<Item>, k: nat): Option<Packet>
  {
    if |items| >= 3 && items[0].Int32? && items[1].Blob? && items[2].Int32?
       && |items[1].bytes| == items[0].i > Pow2(k) && 0 <= items[2].i < Pow2(k)
    then
      var size, offset := items[0].i - Pow2(k), items[2].i;
      Some(items[1].bytes[offset..offset + size])
    else None
  }

  /**
   * Whatever the parcel holds, it is read as null exactly if it starts with a size of 0, and as
   * a packet exactly if it starts with one, not empty, within its blob, and valid.
   */
  lemma ReadExactly(items: seq<Item>, k: nat, validate: Packet -> bool, mapAt: seq<byte> -> nat)
    ensures
      var r := ReadMetadata(items, k, validate, mapAt);
      && (r.Done? && r.value.None? <==> items != [] && items[0] == Int32(0))
      && (r.Done? && r.value.Some? <==> Described(items, k).Some? && validate(Described(items, k).value))
      && (r.Done? && r.value.Some? ==> r.value == Described(items, k) && |r.value.value| > 0 && r.rest == items[3..])
  {
    if Described(items, k).Some? {
      var blob := items[1].bytes;
      assert Load(mapAt(blob), blob, mapAt(blob) + items[2].i, items[0].i - Pow2(k)) == Described(items, k).value;
    }
  }
}
