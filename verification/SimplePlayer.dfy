/**
 * The stagefright SimplePlayer object: a handler of requests and work messages, and the
 * codec tracks its work function drives.  The handler performs the steps of
 * PlayerMessages, the tracks those of PlayerTracks.
 */
module SimplePlayer {
  import opened Common
  import opened PlayerTracks
  import Msg = PlayerMessages

  /**
   * A fresh track gets to `t` by the given events.  Said of every run equal to `trace`, so
   * that the run is looked into only where a proof names it.
   */
  ghost predicate Reached(start: Track, all: set<nat>, trace: seq<Event>, t: Track)
  {
    forall run :: run == trace ==> Fresh(start, all) && LegalRun(start, run) && t == Run(start, run)
  }

  /** A track just prepared. */
  ghost function FreshTrack(inputs: set<nat>, outputs: map<nat, seq<byte>>): Track
  {
    Track(Inputs(inputs, [], []), Outputs(outputs.Keys, outputs, [], [], [], []), None, 0, [])
  }

  lemma FreshReached(inputs: set<nat>, outputs: map<nat, seq<byte>>)
    ensures var t := FreshTrack(inputs, outputs); Reached(t, inputs, [], t)
  {
    var t := FreshTrack(inputs, outputs);
    assert Fresh(t, inputs);
    assert LegalRun(t, []) && Run(t, []) == t;
  }

  /** One track.  The codec's and the sink's side is kept in the fields after the blank line. */
  class CodecState {
    var mBuffers: map<nat, seq<byte>>
    var mAvailInputBufferIndices: seq<nat>
    var mAvailOutputBufferInfos: seq<Info>
    var mAudioTrack: Option<Audio>
    var mNumFramesWritten: uint32

    var codecInputs: set<nat>
    var codecOutputs: set<nat>
    ghost var fed: seq<int>
    ghost var dequeued: seq<Output>
    ghost var done: seq<Done>
    ghost var head: seq<byte>
    ghost var sink: seq<byte>
    ghost const all: set<nat>
    ghost const start: Track
    ghost var trace: seq<Event>

    ghost function View(): Track
      reads this
    {
      Track(Inputs(codecInputs, mAvailInputBufferIndices, fed),
            Outputs(codecOutputs, mBuffers, mAvailOutputBufferInfos, dequeued, done, head),
            mAudioTrack, mNumFramesWritten, sink)
    }

    /** The track is where its history since it was prepared has brought it. */
    ghost predicate Valid()
      reads this
    {
      Reached(start, all, trace, View())
    }

    constructor (inputs: set<nat>, outputs: map<nat, seq<byte>>)
      ensures Valid() && trace == [] && all == inputs && codecInputs == inputs
      ensures mAvailInputBufferIndices == [] && fed == []
    {
      mBuffers, mAvailInputBufferIndices, mAvailOutputBufferInfos := outputs, [], [];
      mAudioTrack, mNumFramesWritten := None, 0;
      codecInputs, codecOutputs := inputs, outputs.Keys;
      fed, dequeued, done, head, sink, all, trace := [], [], [], [], [], inputs, [];
      start := FreshTrack(inputs, outputs);
      FreshReached(inputs, outputs);
    }

    /** Any valid track satisfies the track invariant. */
    lemma Holds()
      requires Valid()
      ensures Inv(View(), all)
    {
      assert LegalRun(start, trace);
      FreshInv(start, all);
      RunKeepsInv(start, all, trace);
    }

    lemma Ready()
      requires Valid()
      ensures WellFormed(View())
      ensures mAudioTrack.Some? ==> mAudioTrack.value.played <= mAudioTrack.value.written
    {
      Holds();
    }

    /** The next step is possible, and what it leads to. */
    lemma CanStep(e: Event)
      requires Valid() && WellFormed(View()) && Enabled(View(), e)
      ensures Reached(start, all, trace + [e], Step(View(), e))
    {
      assert LegalRun(start, trace);
      RunAppend(start, trace, e);
    }

    // ---- single steps ----

    method DequeueInputBuffer(index: nat)
      requires WellFormed(View()) && Enabled(View(), TakeInput(index))
      modifies this`codecInputs, this`mAvailInputBufferIndices
      ensures View() == Step(old(View()), TakeInput(index))
    {
      codecInputs := codecInputs - {index};
      mAvailInputBufferIndices := mAvailInputBufferIndices + [index];
    }

    method DequeueOutputBuffer(info: Info, content: seq<byte>)
      requires WellFormed(View()) && Enabled(View(), TakeOutput(info, content))
      modifies this`codecOutputs, this`mBuffers, this`mAvailOutputBufferInfos, this`dequeued
      ensures View() == Step(old(View()), TakeOutput(info, content))
    {
      codecOutputs := codecOutputs - {info.index};
      mBuffers := mBuffers[info.index := content];
      mAvailOutputBufferInfos := mAvailOutputBufferInfos + [info];
      dequeued := dequeued
        + [Output(info.index, info.time, content[info.offset..info.offset + info.size])];
    }

    /** A new audio format: the sink is replaced, and the frame counter starts again. */
    method OnOutputFormatChanged(frameCount: nat, frameSize: nat)
      requires WellFormed(View()) && Enabled(View(), AudioFormat(frameCount, frameSize))
      modifies this`mAudioTrack, this`mNumFramesWritten
      ensures View() == Step(old(View()), AudioFormat(frameCount, frameSize))
    {
      mAudioTrack := Some(Audio(frameCount, frameSize, 0, 0, 0));
      mNumFramesWritten := 0;
    }

    /** The first available input buffer is filled with a sample and queued. */
    method QueueInputBuffer(sample: int)
      requires WellFormed(View()) && Enabled(View(), Feed(sample))
      modifies this`codecInputs, this`mAvailInputBufferIndices, this`fed
      ensures View() == Step(old(View()), Feed(sample))
    {
      var index := mAvailInputBufferIndices[0];
      mAvailInputBufferIndices := mAvailInputBufferIndices[1..];
      codecInputs := codecInputs + {index};
      fed := fed + [sample];
    }

    /** The sink plays on by itself. */
    method PlayOn(frames: nat)
      requires WellFormed(View()) && Enabled(View(), Play(frames))
      modifies this`mAudioTrack
      ensures View() == Step(old(View()), Play(frames))
    {
      mAudioTrack := Some(mAudioTrack.value.(played := mAudioTrack.value.played + frames));
    }

    /** How much of the front buffer the sink has room for, from the two 32-bit counters. */
    method BytesToCopy() returns (copy: nat)
      requires WellFormed(View()) && mAudioTrack.Some? && mAvailOutputBufferInfos != []
      ensures copy == AudioCopy(View())
    {
      var a := mAudioTrack.value;
      var numFramesPlayed := a.played % TWO_32;
      var numFramesAvailableToWrite := Minus32(a.frameCount, Minus32(mNumFramesWritten, numFramesPlayed));
      var numBytesAvailableToWrite := numFramesAvailableToWrite * a.frameSize;
      copy := mAvailOutputBufferInfos[0].size;
      if copy > numBytesAvailableToWrite {
        copy := numBytesAvailableToWrite;
      }
    }

    /** Writes the next bytes of the front buffer and moves past them. */
    method WriteFront(copy: nat)
      requires WellFormed(View()) && mAudioTrack.Some? && mAvailOutputBufferInfos != []
      requires copy <= mAvailOutputBufferInfos[0].size
      modifies this`mAudioTrack, this`mNumFramesWritten, this`mAvailOutputBufferInfos, this`head, this`sink
      ensures View() == WriteSink(old(View()), copy)
    {
      var a, info := mAudioTrack.value, mAvailOutputBufferInfos[0];
      assert InBuffer(View().outputs, info);
      ghost var data := mBuffers[info.index][info.offset..info.offset + info.size][..copy];
      var numFramesWritten := copy / a.frameSize;
      mAudioTrack := Some(a.(bytes := a.bytes + copy, written := a.written + numFramesWritten));
      sink := sink + data;
      head := head + data;
      info := info.(offset := info.offset + copy, size := info.size - copy);
      mAvailOutputBufferInfos := mAvailOutputBufferInfos[0 := info];
      mNumFramesWritten := (mNumFramesWritten + numFramesWritten) % TWO_32;
    }

    /** Copies what fits of the front buffer; what does not fit stays in it. */
    method RenderAudio()
      requires WellFormed(View()) && mAudioTrack.Some? && mAvailOutputBufferInfos != []
      modifies this`mAudioTrack, this`mNumFramesWritten, this`mAvailOutputBufferInfos, this`head, this`sink
      ensures View() == PlayerTracks.RenderAudio(old(View()))
    {
      var copy := BytesToCopy();
      if copy == 0 {
        NothingCopied(View());
        return;
      }
      WriteFront(copy);
    }

    /** The front buffer is dropped (over 30 ms late) or rendered, and goes back to the codec. */
    method ReleaseFront(late: int, rendered: bool)
      requires WellFormed(View()) && Enabled(View(), GiveBack(late, rendered))
      modifies this`codecOutputs, this`mAvailOutputBufferInfos, this`done, this`head
      ensures View() == Step(old(View()), GiveBack(late, rendered))
    {
      var info := mAvailOutputBufferInfos[0];
      codecOutputs := codecOutputs + {info.index};
      mAvailOutputBufferInfos := mAvailOutputBufferInfos[1..];
      done := done + [Done(info.index, info.time, head, late, rendered, mAudioTrack.Some?)];
      head := [];
    }

    // ---- loops of the work function ----

    /** Takes input buffers for as long as the codec has one to offer. */
    method DequeueInputs(offers: seq<nat>)
      requires Valid()
      modifies this`codecInputs, this`mAvailInputBufferIndices, this`trace
      ensures Valid() && old(trace) <= trace
      ensures View() == AfterOffers(old(View()), offers)
    {
      var k := 0;
      while k < |offers| && offers[k] in codecInputs
        invariant k <= |offers| && Valid() && old(trace) <= trace
        invariant AfterOffers(View(), offers[k..]) == AfterOffers(old(View()), offers)
      {
        Ready();
        CanStep(TakeInput(offers[k]));
        DequeueInputBuffer(offers[k]);
        trace := trace + [TakeInput(offers[k])];
        assert offers[k..][1..] == offers[k + 1..];
        k := k + 1;
      }
    }

    /** Takes one output buffer, if the codec may hand it out. */
    method TakeReply(info: Info, content: seq<byte>) returns (taken: bool)
      requires Valid()
      modifies this`codecOutputs, this`mBuffers, this`mAvailOutputBufferInfos, this`dequeued, this`trace
      ensures Valid() && old(trace) <= trace
      ensures taken <==> Can(old(View()), TakeOutput(info, content))
      ensures View() == if taken then Step(old(View()), TakeOutput(info, content)) else old(View())
    {
      Ready();
      taken := info.index in codecOutputs && info.offset + info.size <= |content|
        && (mAudioTrack.Some? ==> info.size % mAudioTrack.value.frameSize == 0);
      if taken {
        CanStep(TakeOutput(info, content));
        DequeueOutputBuffer(info, content);
        trace := trace + [TakeOutput(info, content)];
      }
    }

    /** Follows a change to an audio format whose frames the held buffers consist of. */
    method TakeFormat(frameCount: nat, frameSize: nat) returns (taken: bool)
      requires Valid()
      modifies this`mAudioTrack, this`mNumFramesWritten, this`trace
      ensures Valid() && old(trace) <= trace
      ensures taken <==> Can(old(View()), AudioFormat(frameCount, frameSize))
      ensures View() == if taken then Step(old(View()), AudioFormat(frameCount, frameSize)) else old(View())
    {
      Ready();
      taken := frameCount < TWO_32 && frameSize > 0
        && forall j :: 0 <= j < |mAvailOutputBufferInfos| ==> mAvailOutputBufferInfos[j].size % frameSize == 0;
      if taken {
        CanStep(AudioFormat(frameCount, frameSize));
        OnOutputFormatChanged(frameCount, frameSize);
        trace := trace + [AudioFormat(frameCount, frameSize)];
      }
    }

    /** Fetches the codec's output buffers anew, provided those held are still the same. */
    method TakeBuffers(buffers: map<nat, seq<byte>>) returns (taken: bool)
      requires Valid()
      modifies this`mBuffers, this`codecOutputs, this`trace
      ensures Valid() && old(trace) <= trace
      ensures taken <==> Can(old(View()), NewBuffers(buffers))
      ensures View() == if taken then Step(old(View()), NewBuffers(buffers)) else old(View())
    {
      Ready();
      var infos := mAvailOutputBufferInfos;
      taken := forall j :: 0 <= j < |infos| ==>
        infos[j].index in buffers && infos[j].index in mBuffers && buffers[infos[j].index] == mBuffers[infos[j].index];
      if taken {
        CanStep(NewBuffers(buffers));
        codecOutputs := buffers.Keys - (set j | 0 <= j < |infos| :: infos[j].index);
        mBuffers := buffers;
        trace := trace + [NewBuffers(buffers)];
        assert codecOutputs == buffers.Keys - HeldSet(View().outputs);
      }
    }

    /** Takes output buffers and format changes until the codec has nothing more to say. */
    method DequeueOutputs(replies: seq<Reply>)
      requires Valid()
      modifies this
      ensures Valid() && old(trace) <= trace && fed == old(fed)
      ensures View() == AfterReplies(old(View()), replies)
    {
      var k, more := 0, true;
      while more && k < |replies|
        invariant k <= |replies| && Valid() && old(trace) <= trace && fed == old(fed)
        invariant AfterReplies(old(View()), replies) == if more then AfterReplies(View(), replies[k..]) else View()
      {
        assert replies[k..][1..] == replies[k + 1..];
        match replies[k] {
          case Buffer(info, content) => more := TakeReply(info, content);
          case FormatChanged(None) =>
          case FormatChanged(Some(audio)) => more := TakeFormat(audio.0, audio.1);
          case BuffersChanged(buffers) => more := TakeBuffers(buffers);
          case TryAgain => more := false;
        }
        k := k + 1;
      }
    }

    /** Queues one piece of configuration data in the input buffer the codec hands out. */
    method QueueOneConfig(index: nat, data: int)
      requires Valid() && mAvailInputBufferIndices == [] && index in codecInputs
      modifies this`codecInputs, this`mAvailInputBufferIndices, this`fed, this`trace
      ensures Valid() && mAvailInputBufferIndices == [] && codecInputs == old(codecInputs)
      ensures fed == old(fed) + [data]
    {
      Ready();
      CanStep(TakeInput(index));
      DequeueInputBuffer(index);
      trace := trace + [TakeInput(index)];
      FeedSample(data);
    }

    /** Queues the configuration data; every input buffer is back with the codec. */
    method QueueConfig(csd: seq<(nat, int)>)
      requires Valid() && mAvailInputBufferIndices == []
      requires forall k :: 0 <= k < |csd| ==> csd[k].0 in codecInputs
      modifies this`codecInputs, this`mAvailInputBufferIndices, this`fed, this`trace
      ensures Valid() && mAvailInputBufferIndices == [] && codecInputs == old(codecInputs)
      ensures fed == old(fed) + ConfigOf(csd)
    {
      for k := 0 to |csd|
        invariant Valid() && mAvailInputBufferIndices == [] && codecInputs == old(codecInputs)
        invariant fed == old(fed) + ConfigOf(csd)[..k]
      {
        QueueOneConfig(csd[k].0, csd[k].1);
        assert ConfigOf(csd)[..k + 1] == ConfigOf(csd)[..k] + [csd[k].1];
      }
      assert ConfigOf(csd)[..|csd|] == ConfigOf(csd);
    }

    /** Asks the codec for input, then for output buffers. */
    method DequeueBuffers(env: Surroundings, i: nat)
      requires Valid()
      modifies this
      ensures Valid() && old(trace) <= trace && fed == old(fed)
      ensures View() == AfterAsking(old(View()), env, i)
    {
      DequeueInputs(Nth(env.offers, i));
      DequeueOutputs(Nth(env.replies, i));
    }

    /** Feeds one sample to the codec. */
    method FeedSample(sample: int)
      requires Valid() && mAvailInputBufferIndices != []
      modifies this`codecInputs, this`mAvailInputBufferIndices, this`fed, this`trace
      ensures Valid() && old(trace) <= trace && fed == old(fed) + [sample]
      ensures mAvailInputBufferIndices == old(mAvailInputBufferIndices)[1..]
      ensures codecInputs == old(codecInputs) + {old(mAvailInputBufferIndices[0])}
    {
      Ready();
      CanStep(Feed(sample));
      QueueInputBuffer(sample);
      trace := trace + [Feed(sample)];
    }

    /** The sink has played up to `frames` more frames by the time its position is read, then takes what fits. */
    method CopyToSink(frames: nat, ghost late: int)
      requires Valid() && mAudioTrack.Some? && mAvailOutputBufferInfos != [] && -10000 < late <= 30000
      modifies this`mAudioTrack, this`mNumFramesWritten, this`mAvailOutputBufferInfos, this`head, this`sink, this`trace
      ensures Valid() && old(trace) <= trace
      ensures mAudioTrack.Some? && |mAvailOutputBufferInfos| == |old(mAvailOutputBufferInfos)|
      ensures mAvailOutputBufferInfos[0].time == old(mAvailOutputBufferInfos[0].time)
      ensures mAvailOutputBufferInfos[0].size > 0 ==> Full(mAudioTrack.value)
    {
      Ready();
      var a := mAudioTrack.value;
      var n := if a.played + frames <= a.written then frames else a.written - a.played;
      CanStep(Play(n));
      PlayOn(n);
      trace := trace + [Play(n)];
      FillsUp();
      CanStep(WriteAudio(late));
      RenderAudio();
      trace := trace + [WriteAudio(late)];
    }

    lemma FillsUp()
      requires Valid() && mAudioTrack.Some? && mAvailOutputBufferInfos != []
      ensures WellFormed(View())
      ensures
        var u := PlayerTracks.RenderAudio(View());
        u.outputs.avail[0].size > 0 ==> Full(u.audio.value)
    {
      Holds();
      SinkFillsUp(View());
    }

    /** Gives the front buffer back. */
    method FinishFront(late: int, rendered: bool)
      requires Valid() && mAvailOutputBufferInfos != [] && -10000 < late && (rendered <==> late <= 30000)
      requires rendered && mAudioTrack.Some? ==> mAvailOutputBufferInfos[0].size == 0
      modifies this`codecOutputs, this`mAvailOutputBufferInfos, this`done, this`head, this`trace
      ensures Valid() && old(trace) <= trace
      ensures mAvailOutputBufferInfos == old(mAvailOutputBufferInfos)[1..]
      ensures exists d :: done == old(done) + [d] && d.late == late && d.time == old(mAvailOutputBufferInfos[0].time)
    {
      Ready();
      CanStep(GiveBack(late, rendered));
      ghost var info := mAvailOutputBufferInfos[0];
      ghost var d := Done(info.index, info.time, head, late, rendered, mAudioTrack.Some?);
      ReleaseFront(late, rendered);
      trace := trace + [GiveBack(late, rendered)];
      assert done == old(done) + [d];
    }

    /** The front buffer, if there is one, rightly stays. */
    ghost predicate Waits(now: int)
      reads this
    {
      mAvailOutputBufferInfos != [] ==> Blocked(mAvailOutputBufferInfos[0], now, mAudioTrack)
    }

    /**
     * Drops or renders the buffers that are due, front first, while the sink plays on by
     * `plays[k]` frames before the k-th copy.  It stops at a buffer that is early or that
     * did not fit the sink.
     */
    method RenderDue(nowUs: int, startTimeRealUs: int, plays: seq<nat>)
      requires Valid()
      modifies this
      ensures Valid() && old(trace) <= trace && fed == old(fed) && dequeued == old(dequeued)
      ensures mAvailInputBufferIndices == old(mAvailInputBufferIndices)
      ensures old(done) <= done && LatenessFrom(done, |old(done)|, nowUs - startTimeRealUs)
      ensures Waits(nowUs - startTimeRealUs)
    {
      var k := 0;
      while mAvailOutputBufferInfos != []
        invariant Valid() && old(trace) <= trace && fed == old(fed) && dequeued == old(dequeued)
        invariant mAvailInputBufferIndices == old(mAvailInputBufferIndices)
        invariant old(done) <= done && LatenessFrom(done, |old(done)|, nowUs - startTimeRealUs)
        decreases |mAvailOutputBufferInfos|
      {
        var info := mAvailOutputBufferInfos[0];
        var whenRealUs := info.time + startTimeRealUs;
        var lateByUs := nowUs - whenRealUs;
        if lateByUs <= -10000 { return; }
        if lateByUs > 30000 {
          FinishFront(lateByUs, false);
        } else {
          if mAudioTrack.Some? {
            CopyToSink(if k < |plays| then plays[k] else 0, lateByUs);
            k := k + 1;
            if mAvailOutputBufferInfos[0].size > 0 { return; }
          }
          FinishFront(lateByUs, true);
        }
      }
    }
  }

  ghost predicate Can(t: Track, e: Event)
  {
    WellFormed(t) && Enabled(t, e)
  }

  /** The track after the input buffers offered, up to the first the codec does not have. */
  ghost function AfterOffers(t: Track, offers: seq<nat>): Track
    decreases |offers|
  {
    if offers == [] || !Can(t, TakeInput(offers[0])) then t
    else AfterOffers(Step(t, TakeInput(offers[0])), offers[1..])
  }

  /** The track after the codec's answers, up to the first that ends the asking. */
  ghost function AfterReplies(t: Track, replies: seq<Reply>): Track
    decreases |replies|
  {
    if replies == [] then t else
      match replies[0]
      case Buffer(info, content) =>
        if Can(t, TakeOutput(info, content)) then
          AfterReplies(Step(t, TakeOutput(info, content)), replies[1..])
        else t
      case FormatChanged(None) => AfterReplies(t, replies[1..])
      case FormatChanged(Some(audio)) =>
        if Can(t, AudioFormat(audio.0, audio.1)) then
          AfterReplies(Step(t, AudioFormat(audio.0, audio.1)), replies[1..])
        else t
      case BuffersChanged(buffers) =>
        if Can(t, NewBuffers(buffers)) then
          AfterReplies(Step(t, NewBuffers(buffers)), replies[1..])
        else t
      case TryAgain => t
  }

  /** Every buffer offered is taken, in order, up to one that the codec no longer has. */
  lemma {:induction false} OffersTaken(t: Track, offers: seq<nat>) returns (n: nat)
    requires WellFormed(t)
    ensures n <= |offers|
    ensures
      var u := AfterOffers(t, offers);
      && u == t.(inputs := u.inputs) && u.inputs.fed == t.inputs.fed
      && u.inputs.avail == t.inputs.avail + offers[..n]
      && (n < |offers| ==> offers[n] !in u.inputs.codec)
    decreases |offers|
  {
    if offers == [] || offers[0] !in t.inputs.codec {
      n := 0;
    } else {
      var u := Step(t, TakeInput(offers[0]));
      var m := OffersTaken(u, offers[1..]);
      n := m + 1;
      assert offers[..n] == [offers[0]] + offers[1..][..n - 1];
    }
  }

  /** What a reply is to a track: an event, unless it is a change to a format without audio or nothing at all. */
  ghost function EventIn(reply: Reply): Option<Event>
  {
    match reply
    case Buffer(info, content) => Some(TakeOutput(info, content))
    case FormatChanged(None) => None
    case FormatChanged(Some(audio)) => Some(AudioFormat(audio.0, audio.1))
    case BuffersChanged(buffers) => Some(NewBuffers(buffers))
    case TryAgain => None
  }

  ghost function EventsIn(replies: seq<Reply>): seq<Event>
  {
    if replies == [] then []
    else
      var rest := EventsIn(replies[1..]);
      if EventIn(replies[0]).None? then rest else [EventIn(replies[0]).value] + rest
  }

  /** There is nothing, or something that cannot be followed. */
  ghost predicate EndsAsking(t: Track, reply: Reply)
  {
    reply.TryAgain? || (EventIn(reply).Some? && !Can(t, EventIn(reply).value))
  }

  lemma AfterOneReply(t: Track, replies: seq<Reply>)
    requires replies != []
    ensures EndsAsking(t, replies[0]) ==> AfterReplies(t, replies) == t
    ensures !EndsAsking(t, replies[0]) ==>
      AfterReplies(t, replies)
      == AfterReplies(if EventIn(replies[0]).None? then t else Step(t, EventIn(replies[0]).value), replies[1..])
  {
  }

  lemma RunCons(t: Track, e: Event, run: seq<Event>)
    requires Can(t, e) && LegalRun(Step(t, e), run)
    ensures LegalRun(t, [e] + run) && Run(t, [e] + run) == Run(Step(t, e), run)
  {
    assert ([e] + run)[1..] == run;
  }

  /** Every reply is followed, in order, up to one that ends the asking. */
  lemma {:induction false} RepliesTaken(t: Track, replies: seq<Reply>) returns (n: nat)
    ensures n <= |replies|
    ensures
      var u, run := AfterReplies(t, replies), EventsIn(replies[..n]);
      && LegalRun(t, run) && u == Run(t, run)
      && (n < |replies| ==> EndsAsking(u, replies[n]))
    decreases |replies|
  {
    n := 0;
    if replies != [] {
      AfterOneReply(t, replies);
      if !EndsAsking(t, replies[0]) {
        var e := EventIn(replies[0]);
        var m := RepliesTaken(if e.None? then t else Step(t, e.value), replies[1..]);
        n := m + 1;
        var rest := EventsIn(replies[1..][..m]);
        assert replies[..n][0] == replies[0] && replies[..n][1..] == replies[1..][..m];
        if e.Some? { RunCons(t, e.value, rest); }
      }
    }
  }

  ghost predicate Full(a: Audio)
  {
    a.written - a.played == a.frameCount
  }

  /** Buffers given back from position n on were as late as recorded. */
  ghost predicate LatenessFrom(done: seq<Done>, n: nat, now: int)
  {
    forall i :: n <= i < |done| ==> done[i].late == now - done[i].time
  }

  /** A buffer that rightly stays at the front: early, or due but the sink is full. */
  ghost predicate Blocked(info: Info, now: int, audio: Option<Audio>)
  {
    || now - info.time <= -10000
    || (now - info.time <= 30000 && info.size > 0 && audio.Some? && Full(audio.value))
  }

  /** What the codec answers when asked for output. */
  datatype Reply =
    | Buffer(info: Info, content: seq<byte>)
    | FormatChanged(audio: Option<(nat, nat)>)
    | BuffersChanged(buffers: map<nat, seq<byte>>)
    | TryAgain

  lemma FreshInv(t: Track, all: set<nat>)
    requires Fresh(t, all)
    ensures Inv(t, all)
  {
    assert InputsOwned(t.inputs, all);
    FreshOutputs(t.outputs);
    assert Heard(t.outputs.done) + t.outputs.head == [];
  }

  lemma FreshOutputs(t: Outputs)
    requires t.avail == [] && t.dequeued == [] && t.done == [] && t.head == [] && t.codec == t.buffers.Keys
    ensures OutputsOk(t)
  {
  }

  /** A buffer that does not go entirely into the sink leaves the sink full. */
  lemma SinkFillsUp(t: Track)
    requires WellFormed(t) && SinkOk(t) && t.audio.Some? && t.outputs.avail != []
    ensures
      var u := PlayerTracks.RenderAudio(t);
      u.outputs.avail[0].size > 0 ==> Full(u.audio.value)
  {
    var a := t.audio.value;
    RoomIsTrue(a, t.numFramesWritten);
    WholeFrames(t.outputs.avail[0].size, a.frameCount - (a.written - a.played), a.frameSize);
  }

  /** With nothing to copy, returning early is the same as copying nothing. */
  lemma NothingCopied(t: Track)
    requires WellFormed(t) && t.audio.Some? && t.outputs.avail != [] && AudioCopy(t) == 0
    ensures PlayerTracks.RenderAudio(t) == t
  {
    var info := t.outputs.avail[0];
    assert 0 / t.audio.value.frameSize == 0;
    assert info.(offset := info.offset + 0, size := info.size - 0) == info;
    assert t.outputs.avail[0 := info] == t.outputs.avail;
  }

  /** A sample of the source: the position of its track among the selected ones, and its data. */
  datatype Sample = Sample(track: nat, data: int)

  /** The samples of one track among those from k up to n. */
  ghost function OfTrack(samples: seq<Sample>, k: nat, n: nat, track: nat): seq<int>
    requires n <= |samples|
  {
    if n <= k then [] else
      OfTrack(samples, k, n - 1, track) + if samples[n - 1].track == track then [samples[n - 1].data] else []
  }

  /** What the codecs, the sinks and the clock do during one call of the work function. */
  datatype Surroundings = Surroundings(
    offers: seq<seq<nat>>, replies: seq<seq<Reply>>, plays: seq<seq<nat>>, nowUs: int)

  function Nth<T>(s: seq<seq<T>>, i: nat): seq<T>
  {
    if i < |s| then s[i] else []
  }

  /**
   * A codec as configured for a track: its input buffers, its output buffers, and the
   * configuration data to queue, each with the input buffer the codec hands out for it.
   */
  datatype Codec = Codec(inputs: set<nat>, outputs: map<nat, seq<byte>>, csd: seq<(nat, int)>)

  ghost predicate HandsOutOwn(c: Codec)
  {
    forall k :: 0 <= k < |c.csd| ==> c.csd[k].0 in c.inputs
  }

  ghost function ConfigOf(csd: seq<(nat, int)>): (data: seq<int>)
    ensures |data| == |csd|
  {
    seq(|csd|, k requires 0 <= k < |csd| => csd[k].1)
  }

  /** What opening the source would give: a status, the selected tracks and the samples. */
  datatype Source = Source(status: int, codecs: seq<Codec>, samples: seq<Sample>)

  /** Samples belong to tracks, and a codec hands out only input buffers of its own. */
  ghost predicate SourceOk(src: Source)
  {
    && (forall k :: 0 <= k < |src.samples| ==> src.samples[k].track < |src.codecs|)
    && (forall i :: 0 <= i < |src.codecs| ==> HandsOutOwn(src.codecs[i]))
  }

  /** A track whose codec has its configuration data and all of its input buffers. */
  ghost predicate Prepared(c: CodecState, codec: Codec)
    reads c
  {
    && c.Valid() && c.all == codec.inputs == c.codecInputs && c.mAvailInputBufferIndices == []
    && c.fed == ConfigOf(codec.csd)
  }

  class Player {
    var mState: Msg.PlayState
    var mDoMoreStuffGeneration: int
    var mStartTimeRealUs: int
    var mExtractor: bool
    var mStateByTrackIndex: seq<CodecState>

    var posted: multiset<int>
    var samples: seq<Sample>
    var sample: nat
    ghost var worked: seq<Msg.Work>

    ghost function View(): Msg.State
      reads this
    {
      Msg.State(mState, mDoMoreStuffGeneration, posted, mExtractor, worked)
    }

    /** The tracks are separate objects, and samples belong to tracks. */
    ghost predicate Shape()
      reads this`mStateByTrackIndex, this`samples, this`sample
    {
      && (forall i, j :: 0 <= i < j < |mStateByTrackIndex| ==> mStateByTrackIndex[i] != mStateByTrackIndex[j])
      && sample <= |samples|
      && (forall k :: 0 <= k < |samples| ==> samples[k].track < |mStateByTrackIndex|)
    }

    /** Every track is where its own history has brought it. */
    ghost predicate Valid()
      reads this`mStateByTrackIndex, this`samples, this`sample, mStateByTrackIndex
    {
      Shape() && forall i :: 0 <= i < |mStateByTrackIndex| ==> mStateByTrackIndex[i].Valid()
    }

    /** Every track continues the given history. */
    ghost predicate Continues(traces: seq<seq<Event>>)
      reads this`mStateByTrackIndex, mStateByTrackIndex
    {
      && |traces| == |mStateByTrackIndex|
      && (forall i :: 0 <= i < |mStateByTrackIndex| ==> Goes(mStateByTrackIndex[i], traces[i]))
    }

    /** The first n tracks are as in `after`, the others as in `before`. */
    ghost predicate Asked(before: seq<Track>, after: seq<Track>, n: nat)
      reads this`mStateByTrackIndex, mStateByTrackIndex
    {
      && |before| == |after| == |mStateByTrackIndex|
      && (forall i :: 0 <= i < |mStateByTrackIndex| ==>
            IsAt(mStateByTrackIndex[i], if i < n then after[i] else before[i]))
    }

    /** The tracks' books, of which the first n tracks have been rendered at a time since. */
    ghost predicate Booked(books: seq<Book>, n: nat, now: int)
      reads this`mStateByTrackIndex, mStateByTrackIndex
    {
      && |books| == |mStateByTrackIndex|
      && (forall i :: 0 <= i < |mStateByTrackIndex| ==>
            if i < n then Rendered(mStateByTrackIndex[i], books[i], now)
            else InBook(mStateByTrackIndex[i], books[i]))
    }

    /** The source is used up, or its next sample's track has no input buffer. */
    ghost predicate FedOut()
      reads this`mStateByTrackIndex, this`samples, this`sample, mStateByTrackIndex
    {
      sample < |samples| && samples[sample].track < |mStateByTrackIndex| ==>
        mStateByTrackIndex[samples[sample].track].mAvailInputBufferIndices == []
    }

    constructor ()
      ensures Valid() && View() == Msg.Init() && mStateByTrackIndex == []
    {
      mState, mDoMoreStuffGeneration, mStartTimeRealUs := Msg.UNINITIALIZED, 0, -1;
      mExtractor, mStateByTrackIndex := false, [];
      posted, samples, sample, worked := multiset{}, [], 0, [];
    }

    // ---- the work function ----

    /** Takes what the codecs have to offer. */
    method DequeueAll(env: Surroundings, ghost views: seq<Track>, ghost traces: seq<seq<Event>>)
      requires Shape() && Continues(traces) && Asked(views, AllAsked(views, env), 0)
      modifies mStateByTrackIndex
      ensures Continues(traces) && Asked(views, AllAsked(views, env), |mStateByTrackIndex|)
    {
      ghost var after := AllAsked(views, env);
      for i := 0 to |mStateByTrackIndex|
        invariant Continues(traces) && Asked(views, after, i)
      {
        assert after[i] == AfterAsking(views[i], env, i);
        DequeueTrack(i, env, views, after, traces);
      }
    }

    method DequeueTrack(k: nat, env: Surroundings, ghost before: seq<Track>, ghost after: seq<Track>,
                        ghost traces: seq<seq<Event>>)
      requires Shape() && Continues(traces) && Asked(before, after, k) && k < |mStateByTrackIndex|
      requires after[k] == AfterAsking(before[k], env, k)
      modifies mStateByTrackIndex[k]
      ensures Continues(traces) && Asked(before, after, k + 1)
    {
      assert Goes(mStateByTrackIndex[k], traces[k]) && IsAt(mStateByTrackIndex[k], before[k]);
      mStateByTrackIndex[k].DequeueBuffers(env, k);
      assert Goes(mStateByTrackIndex[k], traces[k]) && IsAt(mStateByTrackIndex[k], after[k]);
    }

    lemma AskedIsBooked(before: seq<Track>, after: seq<Track>, now: int)
      requires Asked(before, after, |mStateByTrackIndex|)
      ensures Booked(BooksOf(after), 0, now)
    {
      forall i | 0 <= i < |mStateByTrackIndex| ensures InBook(mStateByTrackIndex[i], BooksOf(after)[i]) {
        assert IsAt(mStateByTrackIndex[i], after[i]);
      }
    }

    /** Feeds the next sample to its track. */
    method FeedNext(ghost traces: seq<seq<Event>>, ghost books: seq<Book>, ghost next: seq<Book>, ghost now: int)
      requires Shape() && Continues(traces) && Booked(books, 0, now) && sample < |samples|
      requires next == FedOne(books, samples[sample])
      requires mStateByTrackIndex[samples[sample].track].mAvailInputBufferIndices != []
      modifies this`sample, mStateByTrackIndex
      ensures sample == old(sample) + 1 && Shape()
      ensures Continues(traces) && Booked(next, 0, now)
    {
      var s := samples[sample];
      assert Goes(mStateByTrackIndex[s.track], traces[s.track]) && InBook(mStateByTrackIndex[s.track], books[s.track]);
      mStateByTrackIndex[s.track].FeedSample(s.data);
      sample := sample + 1;
      assert Goes(mStateByTrackIndex[s.track], traces[s.track]) && InBook(mStateByTrackIndex[s.track], next[s.track]);
    }

    /** Feeds samples in source order until the next one's track has no input buffer. */
    method FeedAll(ghost traces: seq<seq<Event>>, ghost books: seq<Book>, ghost now: int)
      requires Shape() && Continues(traces) && Booked(books, 0, now)
      modifies this`sample, mStateByTrackIndex
      ensures Shape() && old(sample) <= sample && FedOut()
      ensures Continues(traces) && Booked(FedAll(books, samples, old(sample), sample), 0, now)
    {
      ghost var first, sofar := sample, books;
      while sample < |samples| && mStateByTrackIndex[samples[sample].track].mAvailInputBufferIndices != []
        invariant Shape() && first <= sample && Continues(traces)
        invariant sofar == FedAll(books, samples, first, sample) && Booked(sofar, 0, now)
        decreases |samples| - sample
      {
        ghost var next := FedAll(books, samples, first, sample + 1);
        FeedNext(traces, sofar, next, now);
        sofar := next;
      }
    }

    /** Renders what is due on every track. */
    method RenderAll(env: Surroundings, ghost traces: seq<seq<Event>>, ghost books: seq<Book>)
      requires Shape() && Continues(traces) && Booked(books, 0, env.nowUs - mStartTimeRealUs) && FedOut()
      modifies mStateByTrackIndex
      ensures Continues(traces) && FedOut()
      ensures Booked(books, |mStateByTrackIndex|, env.nowUs - mStartTimeRealUs)
    {
      for i := 0 to |mStateByTrackIndex|
        invariant Continues(traces) && Booked(books, i, env.nowUs - mStartTimeRealUs) && FedOut()
      {
        RenderTrack(i, env, traces, books);
      }
    }

    method RenderTrack(k: nat, env: Surroundings, ghost traces: seq<seq<Event>>, ghost books: seq<Book>)
      requires Shape() && Continues(traces) && k < |mStateByTrackIndex| && FedOut()
      requires Booked(books, k, env.nowUs - mStartTimeRealUs)
      modifies mStateByTrackIndex[k]
      ensures Continues(traces) && Booked(books, k + 1, env.nowUs - mStartTimeRealUs) && FedOut()
    {
      assert Goes(mStateByTrackIndex[k], traces[k]) && InBook(mStateByTrackIndex[k], books[k]);
      mStateByTrackIndex[k].RenderDue(env.nowUs, mStartTimeRealUs, Nth(env.plays, k));
      assert Goes(mStateByTrackIndex[k], traces[k]);
      assert Rendered(mStateByTrackIndex[k], books[k], env.nowUs - mStartTimeRealUs);
    }

    /**
     * What a round of work has done since the tracks were as in `views`: dequeued what the
     * codecs handed out, fed each track its next samples until one had no input buffer,
     * started the clock if it was not running, and given back exactly what was due.
     */
    ghost predicate RoundDone(views: seq<Track>, env: Surroundings, from: nat, clock: int)
      reads this`mStateByTrackIndex, this`samples, this`sample, this`mStartTimeRealUs, mStateByTrackIndex
    {
      && from <= sample <= |samples| && FedOut()
      && mStartTimeRealUs == (if clock < 0 then env.nowUs + 1000000 else clock)
      && Booked(FedAll(BooksOf(AllAsked(views, env)), samples, from, sample), |mStateByTrackIndex|,
                env.nowUs - mStartTimeRealUs)
    }

    /** The same, with the tracks' histories continued. */
    ghost predicate WorkDone(views: seq<Track>, traces: seq<seq<Event>>, env: Surroundings, from: nat, clock: int)
      reads this`mStateByTrackIndex, this`samples, this`sample, this`mStartTimeRealUs, mStateByTrackIndex
    {
      Shape() && Continues(traces) && RoundDone(views, env, from, clock)
    }

    /** One round of work. */
    method OnDoMoreStuff(env: Surroundings, ghost views: seq<Track>, ghost traces: seq<seq<Event>>)
      returns (err: int)
      requires Shape() && Continues(traces) && Asked(views, AllAsked(views, env), 0)
      modifies this`sample, this`mStartTimeRealUs, mStateByTrackIndex
      ensures err == Msg.OK && WorkDone(views, traces, env, old(sample), old(mStartTimeRealUs))
    {
      DequeueAll(env, views, traces);
      AskedIsBooked(views, AllAsked(views, env), 0);
      FeedAndRender(env, traces, BooksOf(AllAsked(views, env)));
      return Msg.OK;
    }

    lemma BookedAnyTime(books: seq<Book>, now: int, later: int)
      requires Booked(books, 0, now)
      ensures Booked(books, 0, later)
    {
    }

    /** The second half of a round of work. */
    method FeedAndRender(env: Surroundings, ghost traces: seq<seq<Event>>, ghost books: seq<Book>)
      requires Shape() && Continues(traces) && Booked(books, 0, 0)
      modifies this`sample, this`mStartTimeRealUs, mStateByTrackIndex
      ensures Shape() && old(sample) <= sample && FedOut() && Continues(traces)
      ensures mStartTimeRealUs == if old(mStartTimeRealUs) < 0 then env.nowUs + 1000000 else old(mStartTimeRealUs)
      ensures Booked(FedAll(books, samples, old(sample), sample), |mStateByTrackIndex|, env.nowUs - mStartTimeRealUs)
    {
      FeedAll(traces, books, 0);
      ghost var fed := FedAll(books, samples, old(sample), sample);
      StartClock(env.nowUs);
      BookedAnyTime(fed, 0, env.nowUs - mStartTimeRealUs);
      RenderAll(env, traces, fed);
    }

    /** The first round after a start fixes the real time that media time 0 stands for. */
    method StartClock(nowUs: int)
      modifies this`mStartTimeRealUs
      ensures mStartTimeRealUs == if old(mStartTimeRealUs) < 0 then nowUs + 1000000 else old(mStartTimeRealUs)
    {
      if mStartTimeRealUs < 0 {
        mStartTimeRealUs := nowUs + 1000000;
      }
    }

    // ---- the handler ----

    /** The tracks and samples are those of the source, none of them used yet. */
    ghost predicate Opened(src: Source)
      reads this`mStateByTrackIndex, this`samples, this`sample, mStateByTrackIndex
    {
      && samples == src.samples && sample == 0
      && |mStateByTrackIndex| == |src.codecs|
      && (forall i :: 0 <= i < |mStateByTrackIndex| ==> Prepared(mStateByTrackIndex[i], src.codecs[i]))
    }

    /** Opens the source; on success there is a fresh track for each selected stream. */
    method OnPrepare(src: Source) returns (err: int)
      requires mState == Msg.UNPREPARED && mStateByTrackIndex == []
      requires SourceOk(src)
      modifies this`mExtractor, this`mStateByTrackIndex, this`samples, this`sample
      ensures err == src.status && mExtractor == (err == Msg.OK)
      ensures err == Msg.OK ==> Valid() && Opened(src)
      ensures err != Msg.OK ==>
                mStateByTrackIndex == [] && samples == old(samples) && sample == old(sample)
      ensures forall i :: 0 <= i < |mStateByTrackIndex| ==> fresh(mStateByTrackIndex[i])
    {
      if src.status != Msg.OK {
        mExtractor := false;
        return src.status;
      }
      mExtractor := true;
      for i := 0 to |src.codecs|
        invariant |mStateByTrackIndex| == i && mExtractor
        invariant forall j :: 0 <= j < i ==> fresh(mStateByTrackIndex[j])
        invariant forall j :: 0 <= j < i ==> Prepared(mStateByTrackIndex[j], src.codecs[j])
        invariant forall j, k :: 0 <= j < k < i ==> mStateByTrackIndex[j] != mStateByTrackIndex[k]
      {
        var state := new CodecState(src.codecs[i].inputs, src.codecs[i].outputs);
        state.QueueConfig(src.codecs[i].csd);
        mStateByTrackIndex := mStateByTrackIndex + [state];
      }
      samples, sample := src.samples, 0;
      return Msg.OK;
    }

    method OnStart() returns (err: int)
      requires mState == Msg.STOPPED
      modifies this`mDoMoreStuffGeneration, this`posted, this`mStartTimeRealUs
      ensures err == Msg.OK && mDoMoreStuffGeneration == old(mDoMoreStuffGeneration) + 1
      ensures posted == old(posted) + multiset{mDoMoreStuffGeneration} && mStartTimeRealUs == -1
    {
      mStartTimeRealUs := -1;
      mDoMoreStuffGeneration := mDoMoreStuffGeneration + 1;
      posted := posted + multiset{mDoMoreStuffGeneration};
      return Msg.OK;
    }

    method OnStop() returns (err: int)
      requires mState == Msg.STARTED
      modifies this`mDoMoreStuffGeneration
      ensures err == Msg.OK && mDoMoreStuffGeneration == old(mDoMoreStuffGeneration) + 1
    {
      mDoMoreStuffGeneration := mDoMoreStuffGeneration + 1;
      return Msg.OK;
    }

    method OnReset() returns (err: int)
      requires mState == Msg.STOPPED
      modifies this`mStartTimeRealUs, this`mStateByTrackIndex, this`mExtractor, this`samples, this`sample
      ensures err == Msg.OK && !mExtractor && mStartTimeRealUs == -1
      ensures mStateByTrackIndex == [] && samples == [] && sample == 0
    {
      mStartTimeRealUs := -1;
      mStateByTrackIndex, mExtractor := [], false;
      samples, sample := [], 0;
      return Msg.OK;
    }

    /** Between reset and the next successful prepare there are no tracks. */
    ghost predicate Idle()
      reads this
    {
      mState == Msg.UNINITIALIZED || mState == Msg.UNPREPARED ==> mStateByTrackIndex == [] && samples == []
    }

    method HandlePrepare(src: Source) returns (err: int)
      requires Valid() && Idle()
      requires SourceOk(src)
      modifies this`mState, this`mExtractor, this`mStateByTrackIndex, this`samples, this`sample
      ensures
        var o := Msg.Step(old(View()), Msg.Prepare(src.status));
        View() == o.next && err == o.reply
      ensures Valid() && Idle()
      ensures old(mState) != Msg.UNPREPARED ==>
                mStateByTrackIndex == old(mStateByTrackIndex) && samples == old(samples) && sample == old(sample)
      ensures old(mState) == Msg.UNPREPARED ==>
                forall i :: 0 <= i < |mStateByTrackIndex| ==> fresh(mStateByTrackIndex[i])
      ensures old(mState) == Msg.UNPREPARED && src.status == Msg.OK ==> Opened(src)
    {
      if mState != Msg.UNPREPARED {
        err := Msg.INVALID_OPERATION;
      } else {
        err := OnPrepare(src);
        if err == Msg.OK {
          mState := Msg.STOPPED;
        }
      }
    }

    /** The status variable is set only on failure. */
    method HandleSetDataSource(unset: int) returns (err: int)
      requires Idle()
      modifies this`mState
      ensures
        var o := Msg.Step(old(View()), Msg.SetDataSource(unset));
        View() == o.next && err == o.reply
      ensures Idle()
    {
      err := unset;
      if mState != Msg.UNINITIALIZED {
        err := Msg.INVALID_OPERATION;
      } else {
        mState := Msg.UNPREPARED;
      }
    }

    method HandleStop() returns (err: int)
      requires Idle()
      modifies this`mState, this`mDoMoreStuffGeneration
      ensures
        var o := Msg.Step(old(View()), Msg.Stop);
        View() == o.next && err == o.reply
      ensures Idle()
    {
      if mState != Msg.STARTED {
        err := Msg.INVALID_OPERATION;
      } else {
        err := OnStop();
        if err == Msg.OK { mState := Msg.STOPPED; }
      }
    }

    method HandleStart(src: Source) returns (err: int)
      requires Valid() && Idle()
      requires SourceOk(src)
      modifies this`mState, this`mExtractor, this`mStateByTrackIndex, this`samples, this`sample
      modifies this`mDoMoreStuffGeneration, this`posted, this`mStartTimeRealUs
      ensures
        var o := Msg.Step(old(View()), Msg.Start(src.status));
        View() == o.next && err == o.reply
      ensures Valid() && Idle()
      ensures err == Msg.OK ==> mStartTimeRealUs == -1
      ensures old(mState) != Msg.UNPREPARED ==>
                mStateByTrackIndex == old(mStateByTrackIndex) && samples == old(samples) && sample == old(sample)
      ensures old(mState) == Msg.UNPREPARED ==>
                forall i :: 0 <= i < |mStateByTrackIndex| ==> fresh(mStateByTrackIndex[i])
      ensures old(mState) == Msg.UNPREPARED && src.status == Msg.OK ==> Opened(src)
      ensures err != Msg.OK ==> mStartTimeRealUs == old(mStartTimeRealUs)
    {
      err := Msg.OK;
      if mState == Msg.UNPREPARED {
        err := HandlePrepare(src);
      }
      if err == Msg.OK {
        err := StartStopped();
      }
    }

    method StartStopped() returns (err: int)
      requires Idle()
      modifies this`mState, this`mDoMoreStuffGeneration, this`posted, this`mStartTimeRealUs
      ensures View() == Msg.OnStart(old(View())).next && err == Msg.OnStart(old(View())).reply
      ensures Idle() && mStartTimeRealUs == if err == Msg.OK then -1 else old(mStartTimeRealUs)
    {
      if mState != Msg.STOPPED {
        err := Msg.INVALID_OPERATION;
      } else {
        err := OnStart();
        if err == Msg.OK {
          mState := Msg.STARTED;
        }
      }
    }

    method HandleReset() returns (err: int)
      requires Valid() && Idle()
      modifies this
      ensures
        var o := Msg.Step(old(View()), Msg.Reset);
        View() == o.next && err == o.reply
      ensures Valid() && Idle() && mStateByTrackIndex == []
    {
      err := Msg.OK;
      if mState == Msg.STARTED {
        var stopped := OnStop();
        mState := Msg.STOPPED;
      }
      if mState == Msg.STOPPED {
        err := OnReset();
        mState := Msg.UNINITIALIZED;
      }
    }

    /** A work message: a round of work if it is current, nothing if it is stale. */
    method HandleWork(generation: int, env: Surroundings, ghost views: seq<Track>, ghost traces: seq<seq<Event>>)
      requires Shape() && Continues(traces) && Asked(views, AllAsked(views, env), 0) && generation in posted
      modifies this`posted, this`worked, this`sample, this`mStartTimeRealUs, mStateByTrackIndex
      ensures View() == Msg.Step(old(View()), Msg.DoMoreStuff(generation)).next
      ensures generation == mDoMoreStuffGeneration ==>
                WorkDone(views, traces, env, old(sample), old(mStartTimeRealUs))
      ensures generation != mDoMoreStuffGeneration ==>
                && sample == old(sample) && mStartTimeRealUs == old(mStartTimeRealUs)
                && Shape() && Continues(traces) && Asked(views, AllAsked(views, env), 0)
    {
      if generation != mDoMoreStuffGeneration {
        posted := posted - multiset{generation};
        return;
      }
      LiveWork(env, views, traces);
    }

    /** A current message: a round of work, after which the message is posted again. */
    method LiveWork(env: Surroundings, ghost views: seq<Track>, ghost traces: seq<seq<Event>>)
      requires Shape() && Continues(traces) && Asked(views, AllAsked(views, env), 0)
      requires mDoMoreStuffGeneration in posted
      modifies this`posted, this`worked, this`sample, this`mStartTimeRealUs, mStateByTrackIndex
      ensures posted == old(posted) && worked == old(worked) + [Msg.Work(mState, mDoMoreStuffGeneration)]
      ensures WorkDone(views, traces, env, old(sample), old(mStartTimeRealUs))
    {
      var err := OnDoMoreStuff(env, views, traces);
      AccountForMessage(err == Msg.OK);
    }

    /** The message delivered is off the queue, and is posted again if the work says so. */
    method AccountForMessage(again: bool)
      requires mDoMoreStuffGeneration in posted
      modifies this`posted, this`worked
      ensures posted == if again then old(posted) else old(posted) - multiset{mDoMoreStuffGeneration}
      ensures worked == old(worked) + [Msg.Work(mState, mDoMoreStuffGeneration)]
    {
      TakenAndPosted(posted, mDoMoreStuffGeneration);
      posted := posted - multiset{mDoMoreStuffGeneration};
      worked := worked + [Msg.Work(mState, mDoMoreStuffGeneration)];
      if again {
        posted := posted + multiset{mDoMoreStuffGeneration};
      }
    }

    /** A request: everything but the work message. */
    method HandleRequest(m: Msg.Message, src: Source, ghost views: seq<Track>, ghost after: seq<Track>,
                         ghost traces: seq<seq<Event>>)
      returns (reply: int)
      requires Valid() && Idle() && Continues(traces) && Asked(views, after, 0)
      requires !m.DoMoreStuff? && (m.Prepare? || m.Start? ==> m.prepared == src.status)
      requires SourceOk(src)
      modifies this, mStateByTrackIndex
      ensures View() == Msg.Step(old(View()), m).next && reply == Msg.Step(old(View()), m).reply
      ensures Valid() && Idle()
      ensures !m.Reset? && old(mState) != Msg.UNPREPARED ==>
                && mStateByTrackIndex == old(mStateByTrackIndex) && samples == old(samples) && sample == old(sample)
                && Continues(traces) && Asked(views, after, 0)
      ensures old(mState) == Msg.UNPREPARED && Msg.Opens(m) ==> Opened(src)
      ensures !m.Reset? ==> mStartTimeRealUs == if m.Start? && reply == Msg.OK then -1 else old(mStartTimeRealUs)
    {
      reply := Msg.OK;
      match m {
        case SetDataSource(unset) => reply := HandleSetDataSource(unset);
        case SetSurface =>
          if mState != Msg.UNPREPARED { reply := Msg.INVALID_OPERATION; }
        case Prepare(_) => reply := HandlePrepare(src);
        case Start(_) => reply := HandleStart(src);
        case Stop => reply := HandleStop();
        case Reset => reply := HandleReset();
      }
    }

    /**
     * One message.  `src` is what opening the source would give now, `env` what the codecs,
     * sinks and clock would do during a round of work.  A request that opens the source makes
     * its tracks; a current work message does a round of work; a stale one, a stop and any
     * other start leave the tracks exactly as they are.
     */
    method OnMessageReceived(m: Msg.Message, src: Source, env: Surroundings,
                             ghost views: seq<Track>, ghost traces: seq<seq<Event>>)
      returns (reply: int)
      requires Valid() && Idle() && Continues(traces) && Asked(views, AllAsked(views, env), 0)
      requires Msg.Enabled(View(), m)
      requires m.Prepare? || m.Start? ==> m.prepared == src.status
      requires SourceOk(src)
      modifies this, mStateByTrackIndex
      ensures View() == Msg.Step(old(View()), m).next && reply == Msg.Step(old(View()), m).reply
      ensures Valid() && Idle()
      ensures !m.Reset? && old(mState) != Msg.UNPREPARED ==>
                mStateByTrackIndex == old(mStateByTrackIndex) && samples == old(samples) && Continues(traces)
      ensures old(mState) == Msg.UNPREPARED && Msg.Opens(m) ==> Opened(src)
      ensures IsCurrent(m, old(mDoMoreStuffGeneration)) ==>
                RoundDone(views, env, old(sample), old(mStartTimeRealUs))
      ensures !m.Reset? && !IsCurrent(m, old(mDoMoreStuffGeneration)) && old(mState) != Msg.UNPREPARED ==>
                sample == old(sample) && Asked(views, AllAsked(views, env), 0)
      ensures !IsCurrent(m, old(mDoMoreStuffGeneration)) && !m.Reset? ==>
                mStartTimeRealUs == if m.Start? && reply == Msg.OK then -1 else old(mStartTimeRealUs)
    {
      if m.DoMoreStuff? {
        reply := Msg.OK;
        HandleWork(m.generation, env, views, traces);
      } else {
        reply := HandleRequest(m, src, views, AllAsked(views, env), traces);
      }
    }
  }

  lemma TakenAndPosted(posted: multiset<int>, generation: int)
    requires generation in posted
    ensures posted - multiset{generation} + multiset{generation} == posted
  {
  }

  ghost predicate IsCurrent(m: Msg.Message, generation: int)
  {
    m.DoMoreStuff? && m.generation == generation
  }

  /** A track after its codec has been asked for input and output buffers. */
  ghost function AfterAsking(t: Track, env: Surroundings, i: nat): Track
  {
    AfterReplies(AfterOffers(t, Nth(env.offers, i)), Nth(env.replies, i))
  }

  ghost function AllAsked(views: seq<Track>, env: Surroundings): (after: seq<Track>)
    ensures |after| == |views|
  {
    seq(|views|, i requires 0 <= i < |views| => AfterAsking(views[i], env, i))
  }

  /** What a round of work keeps count of: samples fed, outputs dequeued, input buffers left, outputs given back. */
  datatype Book = Book(fed: seq<int>, dequeued: seq<Output>, avail: seq<nat>, done: seq<Done>)

  ghost function BookOf(t: Track): Book
  {
    Book(t.inputs.fed, t.outputs.dequeued, t.inputs.avail, t.outputs.done)
  }

  ghost function BooksOf(tracks: seq<Track>): (books: seq<Book>)
    ensures |books| == |tracks|
  {
    seq(|tracks|, i requires 0 <= i < |tracks| => BookOf(tracks[i]))
  }

  ghost predicate SameButDone(c: CodecState, book: Book)
    reads c
  {
    c.fed == book.fed && c.dequeued == book.dequeued && c.mAvailInputBufferIndices == book.avail
  }

  ghost predicate InBook(c: CodecState, book: Book)
    reads c
  {
    SameButDone(c, book) && c.done == book.done
  }

  /** More outputs have been given back, each as late as recorded, and the front one rightly stays. */
  ghost predicate Rendered(c: CodecState, book: Book, now: int)
    reads c
  {
    SameButDone(c, book) && book.done <= c.done && LatenessFrom(c.done, |book.done|, now) && c.Waits(now)
  }

  ghost predicate IsAt(c: CodecState, t: Track)
    reads c
  {
    c.View() == t
  }

  ghost predicate Goes(c: CodecState, trace: seq<Event>)
    reads c
  {
    c.Valid() && trace <= c.trace
  }

  /** One track's book after a sample: fed, in its first input buffer. */
  ghost function FedOne(books: seq<Book>, s: Sample): (r: seq<Book>)
    ensures |r| == |books|
  {
    if s.track < |books| then
      var b := books[s.track];
      books[s.track := b.(fed := b.fed + [s.data], avail := if b.avail == [] then [] else b.avail[1..])]
    else books
  }

  /** The tracks' books after the samples from k up to n. */
  ghost function FedAll(books: seq<Book>, samples: seq<Sample>, k: nat, n: nat): (r: seq<Book>)
    requires n <= |samples|
    ensures |r| == |books|
  {
    if n <= k then books else FedOne(FedAll(books, samples, k, n - 1), samples[n - 1])
  }

  /** What is left of some input buffers once n of them are filled. */
  ghost function Unfilled(avail: seq<nat>, n: nat): seq<nat>
  {
    if n <= |avail| then avail[n..] else []
  }

  lemma OneFilled(avail: seq<nat>, n: nat)
    ensures (var left := Unfilled(avail, n); if left == [] then [] else left[1..]) == Unfilled(avail, n + 1)
  {
  }

  /** A track's book after some samples of its own. */
  ghost function WithSamples(b: Book, mine: seq<int>): Book
  {
    b.(fed := b.fed + mine, avail := Unfilled(b.avail, |mine|))
  }

  lemma OneSampleMore(b: Book, mine: seq<int>, data: int)
    ensures
      var c := WithSamples(b, mine);
      c.(fed := c.fed + [data], avail := if c.avail == [] then [] else c.avail[1..]) == WithSamples(b, mine + [data])
  {
    OneFilled(b.avail, |mine|);
    assert (b.fed + mine) + [data] == b.fed + (mine + [data]);
  }

  lemma NoSample(b: Book)
    ensures WithSamples(b, []) == b
  {
    assert b.fed + [] == b.fed;
  }

  /** Each track is fed its own samples, all of them and in source order; nothing else in its book changes. */
  lemma {:induction false} EachTrackItsSamples(books: seq<Book>, samples: seq<Sample>, k: nat, n: nat, i: nat)
    requires i < |books| && n <= |samples|
    ensures FedAll(books, samples, k, n)[i] == WithSamples(books[i], OfTrack(samples, k, n, i))
  {
    if n <= k {
      NoSample(books[i]);
    } else {
      EachTrackItsSamples(books, samples, k, n - 1, i);
      var before, mine := FedAll(books, samples, k, n - 1), OfTrack(samples, k, n - 1, i);
      if samples[n - 1].track == i {
        OneSampleMore(books[i], mine, samples[n - 1].data);
      } else {
        assert FedOne(before, samples[n - 1])[i] == before[i];
        assert mine + [] == mine;
      }
    }
  }
}
