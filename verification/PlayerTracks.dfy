/**
 * One codec track of the stagefright SimplePlayer: input buffer indices shared with the
 * codec, output buffers that are dropped or rendered in order, and an audio sink whose
 * fill level is computed from 32-bit frame counters that wrap.
 */
module PlayerTracks {
  import opened Common

  type uint32 = x: int | 0 <= x < TWO_32

  // ---- input indices ----

  /** Input buffers by owner, and the samples queued to the codec so far. */
  datatype Inputs = Inputs(codec: set<nat>, avail: seq<nat>, fed: seq<int>)

  /** Each index belongs to exactly one of codec and available list. */
  ghost predicate InputsOwned(t: Inputs, all: set<nat>)
  {
    && NoDuplicates(t.avail)
    && (forall j :: 0 <= j < |t.avail| ==> t.avail[j] !in t.codec && t.avail[j] in all)
    && t.codec <= all
    && (forall i <- all :: i in t.codec || i in t.avail)
  }

  function DequeueInput(t: Inputs, index: nat): Inputs
  {
    t.(codec := t.codec - {index}, avail := t.avail + [index])
  }

  function QueueInput(t: Inputs, sample: int): Inputs
    requires t.avail != []
  {
    t.(codec := t.codec + {t.avail[0]}, avail := t.avail[1..], fed := t.fed + [sample])
  }

  lemma DequeueInputKeeps(t: Inputs, all: set<nat>, index: nat)
    requires InputsOwned(t, all) && index in t.codec
    ensures InputsOwned(DequeueInput(t, index), all)
  {
    var u := DequeueInput(t, index);
    assert u.avail[|t.avail|] == index;
    assert forall i | i in t.avail :: i in u.avail;
  }

  lemma QueueInputKeeps(t: Inputs, all: set<nat>, sample: int)
    requires InputsOwned(t, all) && t.avail != []
    ensures InputsOwned(QueueInput(t, sample), all)
  {
    var u := QueueInput(t, sample);
    assert t.avail == [t.avail[0]] + u.avail;
  }

  // ---- output buffers ----

  /** An output buffer held for rendering: which part of which buffer is left, and when it is due. */
  datatype Info = Info(index: nat, offset: nat, size: nat, time: int)

  /** An output buffer as the codec handed it out. */
  datatype Output = Output(index: nat, time: int, payload: seq<byte>)

  /**
   * An output buffer given back: what reached the sink, how late it was, whether it was
   * rendered or dropped, and whether there was a sink.
   */
  datatype Done = Done(index: nat, time: int, written: seq<byte>, late: int, rendered: bool, toAudio: bool)

  datatype Outputs = Outputs(
    codec: set<nat>,               // buffers with the codec
    buffers: map<nat, seq<byte>>,  // buffer contents
    avail: seq<Info>,
    dequeued: seq<Output>,         // every buffer ever obtained
    done: seq<Done>,               // every buffer ever given back
    head: seq<byte>                // what of the front buffer reached the sink
  )

  predicate InBuffer(t: Outputs, info: Info)
  {
    info.index in t.buffers && info.offset + info.size <= |t.buffers[info.index]|
  }

  predicate Bounded(t: Outputs)
  {
    forall j :: 0 <= j < |t.avail| ==> InBuffer(t, t.avail[j])
  }

  function Rest(t: Outputs, info: Info): (r: seq<byte>)
    requires InBuffer(t, info)
    ensures |r| == info.size
  {
    t.buffers[info.index][info.offset..info.offset + info.size]
  }

  ghost predicate Holds(t: Outputs, index: nat)
  {
    exists j :: 0 <= j < |t.avail| && t.avail[j].index == index
  }

  /** Each output buffer is with the codec or held once. */
  ghost predicate OutputsOwned(t: Outputs)
  {
    && (forall j, k :: 0 <= j < k < |t.avail| ==> t.avail[j].index != t.avail[k].index)
    && (forall j :: 0 <= j < |t.avail| ==> t.avail[j].index !in t.codec)
    && (forall i <- t.buffers :: i in t.codec || Holds(t, i))
  }

  /** What was given back: a prefix reached the sink, all of it if it was rendered to one in time. */
  predicate Settled(d: Done, o: Output)
  {
    && d.index == o.index && d.time == o.time
    && d.written <= o.payload
    && -10000 < d.late && (d.rendered <==> d.late <= 30000)
    && (d.late <= 30000 && d.toAudio ==> d.written == o.payload)
  }

  /** What is held still has everything that has not reached the sink. */
  predicate Waiting(t: Outputs, info: Info, o: Output, written: seq<byte>)
    requires InBuffer(t, info)
  {
    info.index == o.index && info.time == o.time && o.payload == written + Rest(t, info)
  }

  /** Given back and held buffers are the dequeued ones, in dequeue order. */
  ghost predicate InOrder(t: Outputs)
    requires Bounded(t)
  {
    && |t.dequeued| == |t.done| + |t.avail|
    && (forall i :: 0 <= i < |t.done| ==> Settled(t.done[i], t.dequeued[i]))
    && (forall j :: 0 < j < |t.avail| ==> Waiting(t, t.avail[j], t.dequeued[|t.done| + j], []))
    && (if t.avail == [] then t.head == [] else Waiting(t, t.avail[0], t.dequeued[|t.done|], t.head))
  }

  function DequeueOutput(t: Outputs, info: Info, content: seq<byte>): Outputs
    requires info.offset + info.size <= |content|
  {
    t.(codec := t.codec - {info.index},
       buffers := t.buffers[info.index := content],
       avail := t.avail + [info],
       dequeued := t.dequeued
                   + [Output(info.index, info.time, content[info.offset..info.offset + info.size])])
  }

  /** The next n bytes of the front buffer reach the sink. */
  function Consume(t: Outputs, n: nat): Outputs
    requires t.avail != [] && n <= t.avail[0].size && InBuffer(t, t.avail[0])
  {
    var info := t.avail[0];
    t.(avail := t.avail[0 := info.(offset := info.offset + n, size := info.size - n)],
       head := t.head + Rest(t, info)[..n])
  }

  /** The front buffer goes back to the codec. */
  function Finish(t: Outputs, late: int, rendered: bool, toAudio: bool): Outputs
    requires t.avail != []
  {
    var info := t.avail[0];
    t.(codec := t.codec + {info.index},
       avail := t.avail[1..],
       done := t.done + [Done(info.index, info.time, t.head, late, rendered, toAudio)],
       head := [])
  }

  /** The indices of the held buffers. */
  ghost function HeldSet(t: Outputs): set<nat>
  {
    set j | 0 <= j < |t.avail| :: t.avail[j].index
  }

  /** The codec's buffers are fetched anew; those held are as they were. */
  ghost predicate Keeps(t: Outputs, buffers: map<nat, seq<byte>>)
  {
    forall j :: 0 <= j < |t.avail| ==>
      var i := t.avail[j].index; i in buffers && i in t.buffers && buffers[i] == t.buffers[i]
  }

  ghost function Refresh(t: Outputs, buffers: map<nat, seq<byte>>): Outputs
  {
    t.(codec := buffers.Keys - HeldSet(t), buffers := buffers)
  }

  lemma RefreshOwned(t: Outputs, buffers: map<nat, seq<byte>>)
    requires OutputsOwned(t)
    ensures OutputsOwned(Refresh(t, buffers))
  {
    var u := Refresh(t, buffers);
    forall i | i in u.buffers && i !in u.codec ensures Holds(u, i) {
      var j :| 0 <= j < |t.avail| && t.avail[j].index == i;
      assert u.avail[j].index == i;
    }
  }

  lemma RefreshInOrder(t: Outputs, buffers: map<nat, seq<byte>>)
    requires Bounded(t) && InOrder(t) && Keeps(t, buffers)
    ensures Bounded(Refresh(t, buffers)) && InOrder(Refresh(t, buffers))
  {
    var u := Refresh(t, buffers);
    forall j | 0 <= j < |t.avail|
      ensures InBuffer(t, t.avail[j]) && InBuffer(u, u.avail[j]) && Rest(u, u.avail[j]) == Rest(t, t.avail[j])
    {
      assert t.avail[j].index in buffers;
    }
  }

  lemma DequeueOutputOwned(t: Outputs, info: Info, content: seq<byte>)
    requires OutputsOwned(t) && info.index in t.codec
    requires info.offset + info.size <= |content|
    ensures OutputsOwned(DequeueOutput(t, info, content))
  {
    var u := DequeueOutput(t, info, content);
    assert u.avail[|t.avail|] == info;
    forall i | i in u.buffers ensures i in u.codec || Holds(u, i) {
      if i != info.index && i !in t.codec {
        var j :| 0 <= j < |t.avail| && t.avail[j].index == i;
        assert u.avail[j].index == i;
      }
    }
  }

  /** Filling a buffer that is with the codec leaves every held one alone. */
  lemma HeldUndisturbed(t: Outputs, info: Info, content: seq<byte>, j: nat)
    requires Bounded(t) && OutputsOwned(t) && info.index in t.codec && j < |t.avail|
    requires info.offset + info.size <= |content|
    ensures
      var u := DequeueOutput(t, info, content);
      InBuffer(u, t.avail[j]) && Rest(u, t.avail[j]) == Rest(t, t.avail[j])
  {
    assert t.avail[j].index != info.index;
    assert InBuffer(t, t.avail[j]);
  }

  lemma DequeueOutputInOrder(t: Outputs, info: Info, content: seq<byte>)
    requires Bounded(t) && OutputsOwned(t) && InOrder(t) && info.index in t.codec
    requires info.offset + info.size <= |content|
    ensures Bounded(DequeueOutput(t, info, content)) && InOrder(DequeueOutput(t, info, content))
  {
    var u := DequeueOutput(t, info, content);
    forall j | 0 <= j < |t.avail|
      ensures InBuffer(u, u.avail[j]) && Rest(u, u.avail[j]) == Rest(t, t.avail[j])
    {
      HeldUndisturbed(t, info, content, j);
      assert u.avail[j] == t.avail[j];
    }
    assert u.avail[|t.avail|] == info;
    assert InBuffer(u, info) && [] + Rest(u, info) == Rest(u, info);
  }

  lemma ConsumeOwned(t: Outputs, n: nat)
    requires OutputsOwned(t) && t.avail != [] && n <= t.avail[0].size && InBuffer(t, t.avail[0])
    ensures OutputsOwned(Consume(t, n))
  {
    var u := Consume(t, n);
    assert forall j :: 0 <= j < |t.avail| ==> u.avail[j].index == t.avail[j].index;
    forall i | i in u.buffers && i !in u.codec ensures Holds(u, i) {
      var j :| 0 <= j < |t.avail| && t.avail[j].index == i;
      assert u.avail[j].index == i;
    }
  }

  lemma ConsumeInOrder(t: Outputs, n: nat)
    requires Bounded(t) && InOrder(t) && t.avail != [] && n <= t.avail[0].size
    ensures Bounded(Consume(t, n)) && InOrder(Consume(t, n))
  {
    var u, info := Consume(t, n), t.avail[0];
    var r := Rest(t, info);
    assert InBuffer(u, u.avail[0]) && Rest(u, u.avail[0]) == r[n..];
    assert r == r[..n] + r[n..];
    assert t.head + r == (t.head + r[..n]) + r[n..];
    assert forall j :: 0 < j < |t.avail| ==> u.avail[j] == t.avail[j];
    assert forall j :: 0 < j < |t.avail| ==> InBuffer(t, t.avail[j]) && InBuffer(u, u.avail[j]);
  }

  lemma FinishOwned(t: Outputs, late: int, rendered: bool, toAudio: bool)
    requires OutputsOwned(t) && t.avail != []
    ensures OutputsOwned(Finish(t, late, rendered, toAudio))
  {
    var u := Finish(t, late, rendered, toAudio);
    assert forall j :: 0 <= j < |u.avail| ==> u.avail[j] == t.avail[j + 1];
    forall i | i in u.buffers && i !in u.codec ensures Holds(u, i) {
      var j :| 0 <= j < |t.avail| && t.avail[j].index == i;
      assert j > 0 && u.avail[j - 1].index == i;
    }
  }

  lemma FinishInOrder(t: Outputs, late: int, rendered: bool, toAudio: bool)
    requires Bounded(t) && InOrder(t) && t.avail != []
    requires -10000 < late && (rendered <==> late <= 30000)
    requires rendered && toAudio ==> t.avail[0].size == 0
    ensures Bounded(Finish(t, late, rendered, toAudio)) && InOrder(Finish(t, late, rendered, toAudio))
  {
    var u, n := Finish(t, late, rendered, toAudio), |t.done|;
    assert forall j :: 0 <= j < |u.avail| ==> u.avail[j] == t.avail[j + 1];
    assert forall j :: 0 <= j < |u.avail| ==> InBuffer(t, t.avail[j + 1]) && InBuffer(u, u.avail[j]);
    assert Settled(u.done[n], t.dequeued[n]) by {
      assert Waiting(t, t.avail[0], t.dequeued[n], t.head);
    }
    forall j | 0 <= j < |u.avail| ensures Waiting(u, u.avail[j], u.dequeued[|u.done| + j], []) {
      assert Waiting(t, t.avail[j + 1], t.dequeued[n + (j + 1)], []);
    }
  }

  /** The bytes of all buffers given back that reached the sink. */
  ghost function Heard(done: seq<Done>): seq<byte>
  {
    if done == [] then [] else Heard(done[..|done| - 1]) + done[|done| - 1].written
  }

  lemma HeardOne(done: seq<Done>, d: Done)
    ensures Heard(done + [d]) == Heard(done) + d.written
  {
    assert (done + [d])[..|done|] == done;
  }

  // ---- the audio sink ----

  /** The sink, with the true numbers of bytes and frames written to it and of frames played by it. */
  datatype Audio = Audio(frameCount: nat, frameSize: nat, bytes: nat, written: nat, played: nat)

  ghost predicate AudioOk(a: Audio, numFramesWritten: nat)
  {
    && 0 < a.frameSize && a.frameCount < TWO_32
    && a.played <= a.written <= a.played + a.frameCount
    && a.bytes == a.written * a.frameSize
    && numFramesWritten == a.written % TWO_32
  }

  /** Unsigned 32-bit subtraction. */
  function Minus32(x: nat, y: nat): (r: nat)
    ensures r < TWO_32
  {
    (x - y) % TWO_32
  }

  /** The room in the sink as computed from the 32-bit counters. */
  function FramesAvailable(frameCount: nat, numFramesWritten: nat, numFramesPlayed: nat): (r: nat)
  {
    Minus32(frameCount, Minus32(numFramesWritten, numFramesPlayed))
  }

  lemma WrapMinus(w: nat, p: nat)
    requires p <= w < p + TWO_32
    ensures Minus32(w % TWO_32, p % TWO_32) == w - p
  {
    var a, b := w / TWO_32, p / TWO_32;
    assert w == a * TWO_32 + w % TWO_32 && p == b * TWO_32 + p % TWO_32;
    assert a == b || a == b + 1;
  }

  /** The counters may have wrapped any number of times; the computed room is the true room. */
  lemma RoomIsTrue(a: Audio, numFramesWritten: nat)
    requires AudioOk(a, numFramesWritten)
    ensures FramesAvailable(a.frameCount, numFramesWritten, a.played % TWO_32) == a.frameCount - (a.written - a.played)
  {
    WrapMinus(a.written, a.played);
  }

  /** How many bytes one call may copy. */
  function CopySize(size: nat, frames: nat, frameSize: nat): (copy: nat)
    ensures copy <= size
  {
    if size > frames * frameSize then frames * frameSize else size
  }

  lemma WholeFrames(size: nat, frames: nat, frameSize: nat)
    requires frameSize > 0 && size % frameSize == 0
    ensures
      var copy := CopySize(size, frames, frameSize);
      && copy / frameSize <= frames && copy == (copy / frameSize) * frameSize
      && (size - copy) % frameSize == 0
      && (copy < size ==> copy / frameSize == frames)
  {
    var k := size / frameSize;
    assert size == k * frameSize;
    if size > frames * frameSize {
      Multiple(frames, frameSize);
      Multiple(k - frames, frameSize) by { FewerFrames(frames, k, frameSize); }
      assert size - frames * frameSize == (k - frames) * frameSize;
    } else {
      FewerFrames(k, frames, frameSize);
    }
  }

  lemma Multiple(k: nat, d: nat)
    requires d > 0
    ensures (k * d) / d == k && (k * d) % d == 0
  {
    DivUnique(k * d, d, k);
  }

  lemma DivUnique(x: nat, d: nat, k: nat)
    requires d > 0 && x == k * d
    ensures x / d == k && x % d == 0
  {
    var q, r := x / d, x % d;
    assert x == q * d + r;
    assert (k - q) * d == r;
    assert k - q >= 1 ==> (k - q) * d >= d;
    assert k - q <= -1 ==> (k - q) * d <= 0 - d;
  }

  lemma FewerFrames(j: nat, k: nat, d: nat)
    requires d > 0 && j * d <= k * d
    ensures j <= k
  {
    assert j >= k + 1 ==> j * d >= (k + 1) * d;
  }

  // ---- a whole track ----

  datatype Track = Track(
    inputs: Inputs,
    outputs: Outputs,
    audio: Option<Audio>,
    numFramesWritten: uint32,
    sink: seq<byte>            // every byte ever written to an audio sink
  )

  datatype Event =
    | TakeInput(index: nat)
    | TakeOutput(info: Info, content: seq<byte>)
    | AudioFormat(frameCount: nat, frameSize: nat)
    | NewBuffers(buffers: map<nat, seq<byte>>)
    | Feed(sample: int)
    | Play(frames: nat)
    | WriteAudio(late: int)
    | GiveBack(late: int, rendered: bool)

  predicate WellFormed(t: Track)
  {
    Bounded(t.outputs) && (t.audio.Some? ==> t.audio.value.frameSize > 0)
  }

  /** Sizes are whole frames of the sink there is. */
  predicate Whole(t: Outputs, frameSize: nat)
    requires frameSize > 0
  {
    forall j :: 0 <= j < |t.avail| ==> t.avail[j].size % frameSize == 0
  }

  ghost predicate Enabled(t: Track, e: Event)
    requires WellFormed(t)
  {
    match e
    case TakeInput(index) => index in t.inputs.codec
    case TakeOutput(info, content) =>
      && info.index in t.outputs.codec && info.offset + info.size <= |content|
      && (t.audio.Some? ==> info.size % t.audio.value.frameSize == 0)
    case AudioFormat(frameCount, frameSize) =>
      frameCount < TWO_32 && frameSize > 0 && Whole(t.outputs, frameSize)
    case NewBuffers(buffers) => Keeps(t.outputs, buffers)
    case Feed(_) => t.inputs.avail != []
    case Play(frames) => t.audio.Some? && t.audio.value.played + frames <= t.audio.value.written
    case WriteAudio(late) => -10000 < late <= 30000 && t.audio.Some? && t.outputs.avail != []
    case GiveBack(late, rendered) =>
      && -10000 < late && (rendered <==> late <= 30000) && t.outputs.avail != []
      && (rendered && t.audio.Some? ==> t.outputs.avail[0].size == 0)
  }

  /** What one call copies to the sink from the front buffer. */
  function AudioCopy(t: Track): (copy: nat)
    requires WellFormed(t) && t.audio.Some? && t.outputs.avail != []
    ensures copy <= t.outputs.avail[0].size
  {
    var a := t.audio.value;
    CopySize(t.outputs.avail[0].size,
             FramesAvailable(a.frameCount, t.numFramesWritten, a.played % TWO_32), a.frameSize)
  }

  /** The front buffer's next bytes are written to the sink and counted in frames. */
  function WriteSink(t: Track, copy: nat): Track
    requires WellFormed(t) && t.audio.Some? && t.outputs.avail != [] && copy <= t.outputs.avail[0].size
  {
    var a := t.audio.value;
    var frames := copy / a.frameSize;
    t.(outputs := Consume(t.outputs, copy),
       audio := Some(a.(bytes := a.bytes + copy, written := a.written + frames)),
       numFramesWritten := (t.numFramesWritten + frames) % TWO_32,
       sink := t.sink + Rest(t.outputs, t.outputs.avail[0])[..copy])
  }

  /** The front buffer's next bytes, as many as the sink has room for. */
  function RenderAudio(t: Track): Track
    requires WellFormed(t) && t.audio.Some? && t.outputs.avail != []
  {
    WriteSink(t, AudioCopy(t))
  }

  ghost function Step(t: Track, e: Event): Track
    requires WellFormed(t) && Enabled(t, e)
  {
    match e
    case TakeInput(index) => t.(inputs := DequeueInput(t.inputs, index))
    case TakeOutput(info, content) => t.(outputs := DequeueOutput(t.outputs, info, content))
    case AudioFormat(frameCount, frameSize) =>
      t.(audio := Some(Audio(frameCount, frameSize, 0, 0, 0)), numFramesWritten := 0)
    case NewBuffers(buffers) => t.(outputs := Refresh(t.outputs, buffers))
    case Feed(sample) => t.(inputs := QueueInput(t.inputs, sample))
    case Play(frames) => t.(audio := Some(t.audio.value.(played := t.audio.value.played + frames)))
    case WriteAudio(late) => RenderAudio(t)
    case GiveBack(late, rendered) => t.(outputs := Finish(t.outputs, late, rendered, t.audio.Some?))
  }

  ghost predicate OutputsOk(t: Outputs)
  {
    Bounded(t) && OutputsOwned(t) && InOrder(t)
  }

  ghost predicate SinkOk(t: Track)
  {
    && (t.audio.Some? ==> AudioOk(t.audio.value, t.numFramesWritten) && Whole(t.outputs, t.audio.value.frameSize))
    && t.sink == Heard(t.outputs.done) + t.outputs.head
  }

  ghost predicate Inv(t: Track, all: set<nat>)
  {
    InputsOwned(t.inputs, all) && OutputsOk(t.outputs) && SinkOk(t)
  }

  lemma WriteAudioSink(t: Track)
    requires WellFormed(t) && SinkOk(t) && t.audio.Some? && t.outputs.avail != []
    ensures SinkOk(RenderAudio(t))
  {
    var u, a, copy, info := RenderAudio(t), t.audio.value, AudioCopy(t), t.outputs.avail[0];
    RoomIsTrue(a, t.numFramesWritten);
    var room := a.frameCount - (a.written - a.played);
    WholeFrames(info.size, room, a.frameSize);
    var frames := copy / a.frameSize;
    assert AudioOk(u.audio.value, u.numFramesWritten) by { CountersAdd(a, t.numFramesWritten, frames, copy); }
    ConsumeWhole(t.outputs, copy, a.frameSize);
    assert u.sink == Heard(u.outputs.done) + u.outputs.head;
  }

  lemma ConsumeWhole(t: Outputs, n: nat, frameSize: nat)
    requires frameSize > 0 && Whole(t, frameSize) && t.avail != []
    requires n <= t.avail[0].size && InBuffer(t, t.avail[0]) && (t.avail[0].size - n) % frameSize == 0
    ensures Whole(Consume(t, n), frameSize)
  {
    assert forall j :: 0 < j < |t.avail| ==> Consume(t, n).avail[j] == t.avail[j];
  }

  lemma WrapAdd(w: nat, n: nat)
    ensures (w % TWO_32 + n) % TWO_32 == (w + n) % TWO_32
  {
    var q := w / TWO_32;
    assert w + n == q * TWO_32 + (w % TWO_32 + n);
  }

  lemma BytesAdd(written: nat, frames: nat, frameSize: nat)
    ensures written * frameSize + frames * frameSize == (written + frames) * frameSize
  {
  }

  lemma CountersAdd(a: Audio, numFramesWritten: nat, frames: nat, copy: nat)
    requires AudioOk(a, numFramesWritten)
    requires frames <= a.frameCount - (a.written - a.played) && copy == frames * a.frameSize
    ensures AudioOk(a.(bytes := a.bytes + copy, written := a.written + frames), (numFramesWritten + frames) % TWO_32)
  {
    BytesAdd(a.written, frames, a.frameSize);
    WrapAdd(a.written, frames);
  }

  lemma GiveBackSink(t: Track, late: int, rendered: bool)
    requires WellFormed(t) && SinkOk(t) && Enabled(t, GiveBack(late, rendered))
    ensures SinkOk(Step(t, GiveBack(late, rendered)))
  {
    var u, info := Step(t, GiveBack(late, rendered)), t.outputs.avail[0];
    HeardOne(t.outputs.done, Done(info.index, info.time, t.outputs.head, late, rendered, t.audio.Some?));
    assert forall j :: 0 <= j < |u.outputs.avail| ==> u.outputs.avail[j] == t.outputs.avail[j + 1];
  }

  lemma TakeOutputSink(t: Track, info: Info, content: seq<byte>)
    requires WellFormed(t) && SinkOk(t) && Enabled(t, TakeOutput(info, content))
    ensures SinkOk(Step(t, TakeOutput(info, content)))
  {
    var u := Step(t, TakeOutput(info, content));
    assert forall j :: 0 <= j < |t.outputs.avail| ==> u.outputs.avail[j] == t.outputs.avail[j];
    assert u.outputs.avail[|t.outputs.avail|] == info;
  }

  lemma SinkStep(t: Track, e: Event)
    requires WellFormed(t) && SinkOk(t) && Enabled(t, e)
    ensures SinkOk(Step(t, e))
  {
    match e
    case TakeInput(_) =>
    case TakeOutput(info, content) => TakeOutputSink(t, info, content);
    case AudioFormat(_, _) =>
    case NewBuffers(_) =>
    case Feed(_) =>
    case Play(_) =>
    case WriteAudio(_) => WriteAudioSink(t);
    case GiveBack(late, rendered) => GiveBackSink(t, late, rendered);
  }

  lemma OutputsStep(t: Track, e: Event)
    requires WellFormed(t) && OutputsOk(t.outputs) && Enabled(t, e)
    ensures OutputsOk(Step(t, e).outputs)
  {
    match e
    case TakeInput(_) =>
    case TakeOutput(info, content) =>
      DequeueOutputOwned(t.outputs, info, content);
      DequeueOutputInOrder(t.outputs, info, content);
    case AudioFormat(_, _) =>
    case NewBuffers(buffers) =>
      RefreshOwned(t.outputs, buffers);
      RefreshInOrder(t.outputs, buffers);
    case Feed(_) =>
    case Play(_) =>
    case WriteAudio(_) =>
      ConsumeOwned(t.outputs, AudioCopy(t));
      ConsumeInOrder(t.outputs, AudioCopy(t));
    case GiveBack(late, rendered) =>
      FinishOwned(t.outputs, late, rendered, t.audio.Some?);
      FinishInOrder(t.outputs, late, rendered, t.audio.Some?);
  }

  lemma StepKeepsInv(t: Track, all: set<nat>, e: Event)
    requires Inv(t, all) && Enabled(t, e)
    ensures Inv(Step(t, e), all)
  {
    SinkStep(t, e);
    OutputsStep(t, e);
    match e
    case TakeInput(index) => DequeueInputKeeps(t.inputs, all, index);
    case Feed(sample) => QueueInputKeeps(t.inputs, all, sample);
    case _ =>
  }

  /** A history of a track, across any number of work calls, stops and starts. */
  ghost predicate LegalRun(t: Track, run: seq<Event>)
    decreases |run|
  {
    run == [] || (WellFormed(t) && Enabled(t, run[0]) && LegalRun(Step(t, run[0]), run[1..]))
  }

  ghost function Run(t: Track, run: seq<Event>): Track
    requires LegalRun(t, run)
    decreases |run|
  {
    if run == [] then t else Run(Step(t, run[0]), run[1..])
  }

  lemma {:induction false} RunKeepsInv(t: Track, all: set<nat>, run: seq<Event>)
    requires Inv(t, all) && LegalRun(t, run)
    ensures Inv(Run(t, run), all)
    decreases |run|
  {
    if run != [] {
      StepKeepsInv(t, all, run[0]);
      RunKeepsInv(Step(t, run[0]), all, run[1..]);
    }
  }

  lemma {:induction false} RunAppend(t: Track, run: seq<Event>, e: Event)
    requires LegalRun(t, run) && WellFormed(Run(t, run)) && Enabled(Run(t, run), e)
    ensures LegalRun(t, run + [e]) && Run(t, run + [e]) == Step(Run(t, run), e)
    decreases |run|
  {
    if run == [] {
      assert run + [e] == [e] && [e][1..] == [];
      assert LegalRun(Step(t, e), []);
    } else {
      RunAppend(Step(t, run[0]), run[1..], e);
      assert (run + [e])[1..] == run[1..] + [e];
    }
  }

  /** A track just prepared: every buffer with the codec, no sink. */
  ghost predicate Fresh(t: Track, all: set<nat>)
  {
    && t.inputs == Inputs(all, [], []) && t.audio == None && t.sink == []
    && t.outputs.avail == [] && t.outputs.dequeued == [] && t.outputs.done == [] && t.outputs.head == []
    && t.outputs.codec == t.outputs.buffers.Keys
  }

  /**
   * After any history: every input index has one owner; every dequeued output buffer has
   * been given back once, in order, or is still held; what was rendered in time to a sink
   * reached it whole, everything that reached it did so in order; and the sink never holds
   * more frames than it has room for, however often the counters have wrapped.
   */
  lemma EveryBufferOnce(t: Track, all: set<nat>, run: seq<Event>)
    requires Fresh(t, all) && LegalRun(t, run)
    ensures
      var u := Run(t, run);
      && InputsOwned(u.inputs, all)
      && Bounded(u.outputs) && OutputsOwned(u.outputs) && InOrder(u.outputs)
      && u.sink == Heard(u.outputs.done) + u.outputs.head
      && (u.audio.Some? ==>
            && u.audio.value.written - u.audio.value.played <= u.audio.value.frameCount
            && u.audio.value.bytes == u.audio.value.written * u.audio.value.frameSize)
  {
    RunKeepsInv(t, all, run);
  }

  // What a history has done, in terms of its events alone

  /** What is recorded of a track, other than which buffers are where. */
  datatype Records = Records(samples: seq<int>, outputs: seq<Output>, lates: seq<int>, played: nat)

  ghost function RecordsOf(t: Track): Records
  {
    Records(t.inputs.fed, t.outputs.dequeued, LatesOf(t.outputs.done),
            if t.audio.Some? then t.audio.value.played else 0)
  }

  ghost function LatesOf(done: seq<Done>): seq<int>
  {
    seq(|done|, i requires 0 <= i < |done| => done[i].late)
  }

  /** What an event adds: a sample, an output, how late one was, or frames played; a new format counts anew. */
  ghost function Recorded(r: Records, e: Event): Records
  {
    match e
    case Feed(sample) => r.(samples := r.samples + [sample])
    case TakeOutput(info, content) =>
      if info.offset + info.size > |content| then r
      else
        r.(outputs := r.outputs + [Output(info.index, info.time, content[info.offset..info.offset + info.size])])
    case GiveBack(late, _) => r.(lates := r.lates + [late])
    case AudioFormat(_, _) => r.(played := 0)
    case Play(frames) => r.(played := r.played + frames)
    case _ => r
  }

  ghost function RecordsAfter(r: Records, run: seq<Event>): Records
    decreases |run|
  {
    if run == [] then r else RecordsAfter(Recorded(r, run[0]), run[1..])
  }

  ghost function InputsTaken(run: seq<Event>): seq<nat>
  {
    if run == [] then []
    else (if run[0].TakeInput? then [run[0].index] else []) + InputsTaken(run[1..])
  }

  lemma RecordsStep(t: Track, e: Event)
    requires WellFormed(t) && Enabled(t, e)
    ensures RecordsOf(Step(t, e)) == Recorded(RecordsOf(t), e)
  {
    if e.GiveBack? {
      assert LatesOf(Step(t, e).outputs.done) == LatesOf(t.outputs.done) + [e.late];
    } else {
      assert Step(t, e).outputs.done == t.outputs.done;
    }
  }

  lemma {:induction false} RunRecords(t: Track, run: seq<Event>)
    requires LegalRun(t, run)
    ensures RecordsOf(Run(t, run)) == RecordsAfter(RecordsOf(t), run)
    decreases |run|
  {
    if run != [] {
      RecordsStep(t, run[0]);
      RunRecords(Step(t, run[0]), run[1..]);
    }
  }

  /** The rest of `from` is what is available, once as many samples have been fed as are gone from it. */
  ghost predicate UsesInOrder(from: seq<nat>, fedBefore: nat, t: Inputs)
  {
    fedBefore <= |t.fed| <= fedBefore + |from| && t.avail == from[|t.fed| - fedBefore..]
  }

  lemma InputsStep(t: Track, e: Event)
    requires WellFormed(t) && Enabled(t, e)
    ensures
      var u := Step(t, e).inputs;
      if e.Feed? then t.inputs.avail == [t.inputs.avail[0]] + u.avail && |u.fed| == |t.inputs.fed| + 1
      else u.avail == t.inputs.avail + InputsTaken([e]) && |u.fed| == |t.inputs.fed|
  {
    assert [e][1..] == [];
  }

  lemma {:induction false} RunUsesInputs(t: Track, run: seq<Event>)
    requires LegalRun(t, run)
    ensures UsesInOrder(t.inputs.avail + InputsTaken(run), |t.inputs.fed|, Run(t, run).inputs)
    decreases |run|
  {
    var avail, from := t.inputs.avail, t.inputs.avail + InputsTaken(run);
    if run == [] {
      assert from == avail;
    } else {
      var u := Step(t, run[0]);
      InputsStep(t, run[0]);
      RunUsesInputs(u, run[1..]);
      assert InputsTaken(run) == InputsTaken([run[0]]) + InputsTaken(run[1..]) by { assert [run[0]][1..] == []; }
      var later := u.inputs.avail + InputsTaken(run[1..]);
      if run[0].Feed? {
        assert from == [avail[0]] + later;
      } else {
        assert from == later;
      }
    }
  }

  /**
   * After any history of a fresh track: the codec was fed the samples of the Feed events, in
   * buffers used in the order they were handed out; the outputs were those handed out, as late
   * as they were when given back; and the sink has played what it played.
   */
  lemma HistoryIsRecorded(t: Track, all: set<nat>, run: seq<Event>)
    requires Fresh(t, all) && LegalRun(t, run)
    ensures
      var u := Run(t, run);
      && RecordsOf(u) == RecordsAfter(Records([], [], [], 0), run)
      && UsesInOrder(InputsTaken(run), 0, u.inputs)
  {
    RunRecords(t, run);
    RunUsesInputs(t, run);
    assert [] + InputsTaken(run) == InputsTaken(run);
    assert RecordsOf(t) == Records([], [], [], 0);
  }
}
