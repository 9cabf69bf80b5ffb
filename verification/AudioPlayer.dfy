/**
 * The stagefright AudioPlayer: an audio callback drains source buffers in chunks
 * while another thread may seek whenever the player's lock is free.  A step is
 * either one locked section, one unlocked stretch of the callback, or one call
 * from outside.
 */
module AudioPlayer {
  import opened Common

  type Status = int

  const END_OF_STREAM: Status := -1011

  datatype ReadResult = Data(bytes: seq<byte>) | Fail(status: Status)

  /** What the first read in start() gave. */
  datatype FirstRead = FormatChanged | First(result: ReadResult)

  /** A media buffer; `id` counts the buffers obtained, `from` is its range offset. */
  datatype Buffer = Buffer(id: nat, data: seq<byte>, from: nat)
  {
    function Rest(): seq<byte>
      requires from <= |data|
    {
      data[from..]
    }
  }

  datatype Pc =
    | Idle                            // no callback running
    | LoopTop                         // about to look for a seek
    | Reading(seek: Option<int>)      // no input buffer; the read carries this seek
    | Accounting(error: Option<Status>, refresh: bool)  // read done, lock not yet retaken
    | Copying                         // an input buffer is at hand

  datatype State = State(
    pc: Pc,
    remaining: nat,                   // size_remaining of the running callback
    offload: bool,
    seeking: bool,
    seekTimeUs: int,
    reachedEOS: bool,
    finalStatus: Option<Status>,
    isFirst: bool,
    first: Option<Buffer>,
    firstError: Option<Status>,
    input: Option<Buffer>,
    // history
    lastRequest: Option<int>,         // latest seek request
    source: seq<seq<byte>>,           // payload of every buffer obtained
    released: seq<nat>,               // buffers released, in order
    epochStart: nat,                  // buffers obtained when the last seek was taken
    epochSeek: Option<int>,           // the seek then taken
    requests: seq<Option<int>>,       // seek option of each read since then
    delivered: seq<byte>,             // bytes delivered since then
    heard: seq<byte>                  // bytes delivered ever
  )

  datatype Event =
    | Callback(size: nat)
    | TakeSeek
    | Obtain(result: ReadResult)
    | Account
    | Copy
    | SeekTo(timeUs: int)
    | StreamEnd
    | Reset

  predicate Enabled(s: State, e: Event)
  {
    match e
    case Callback(_) => s.pc.Idle?
    case TakeSeek => s.pc.LoopTop?
    case Obtain(_) => s.pc.Reading?
    case Account => s.pc.Accounting?
    case Copy => s.pc.Copying? && s.input.Some? && s.input.value.from <= |s.input.value.data|
    case SeekTo(_) => true
    case StreamEnd => true
    case Reset => s.pc.Idle?
  }

  function Release(s: State, b: Option<Buffer>): State
  {
    if b.Some? then s.(released := s.released + [b.value.id]) else s
  }

  /** A player just started, having made its first read. */
  function Started(offload: bool, seek: Option<int>, read: FirstRead): State
  {
    var s := State(Idle, 0, offload, false, if seek.Some? then seek.value else 0, false, None,
                   false, None, None, None, seek, [], [], 0, seek, [seek], [], []);
    match read
    case FormatChanged => s
    case First(Data(bytes)) => s.(isFirst := true, first := Some(Buffer(0, bytes, 0)), source := [bytes])
    case First(Fail(status)) => s.(isFirst := true, firstError := Some(status))
  }

  function ReleaseFirst(s: State): State
  {
    if s.isFirst then Release(s, s.first).(first := None, isFirst := false) else s
  }

  function ReleaseInput(s: State): State
  {
    Release(s, s.input).(input := None)
  }

  function DoTakeSeek(s: State): State
  {
    if s.seeking then
      ReleaseInput(ReleaseFirst(s)).(
        seeking := false, pc := Reading(Some(s.seekTimeUs)),
        epochStart := |s.source|, epochSeek := Some(s.seekTimeUs), requests := [], delivered := [])
    else
      s.(pc := if s.input.None? then Reading(None) else Copying)
  }

  function DoObtain(s: State, result: ReadResult): State
    requires s.pc.Reading?
  {
    var refresh := s.pc.seek.Some?;
    if s.isFirst then
      s.(input := s.first, first := None, isFirst := false, pc := Accounting(s.firstError, refresh))
    else
      var t := s.(requests := s.requests + [s.pc.seek]);
      match result
      case Data(bytes) =>
        t.(input := Some(Buffer(|s.source|, bytes, 0)), source := s.source + [bytes],
           pc := Accounting(None, refresh))
      case Fail(status) => t.(pc := Accounting(Some(status), refresh))
  }

  function DoAccount(s: State): State
    requires s.pc.Accounting?
  {
    if s.pc.error.Some? then
      s.(reachedEOS := s.reachedEOS || !s.offload, finalStatus := s.pc.error, pc := Idle)
    else if s.pc.refresh && !s.seeking then
      s.(seekTimeUs := 0, pc := Copying)
    else
      s.(pc := Copying)
  }

  function CopySize(s: State): (n: nat)
    requires Enabled(s, Copy)
    ensures n <= s.remaining && s.input.value.from + n <= |s.input.value.data|
  {
    var available := |s.input.value.data| - s.input.value.from;
    if s.remaining > available then available else s.remaining
  }

  function DoCopy(s: State): State
    requires Enabled(s, Copy)
  {
    var b := s.input.value;
    if b.from == |b.data| then
      ReleaseInput(s).(pc := LoopTop)
    else
      var n := CopySize(s);
      var bytes := b.data[b.from..b.from + n];
      s.(input := Some(b.(from := b.from + n)), remaining := s.remaining - n,
         pc := if s.remaining == n then Idle else LoopTop,
         delivered := s.delivered + bytes, heard := s.heard + bytes)
  }

  function DoSeekTo(s: State, timeUs: int): State
  {
    s.(seeking := true, reachedEOS := false, seekTimeUs := timeUs, lastRequest := Some(timeUs))
  }

  function Step(s: State, e: Event): State
    requires Enabled(s, e)
  {
    match e
    case Callback(size) =>
      if s.reachedEOS || size == 0 then s else s.(pc := LoopTop, remaining := size)
    case TakeSeek => DoTakeSeek(s)
    case Obtain(result) => DoObtain(s, result)
    case Account => DoAccount(s)
    case Copy => DoCopy(s)
    case SeekTo(timeUs) => DoSeekTo(s, timeUs)
    case StreamEnd => s.(reachedEOS := true)
    case Reset =>
      ReleaseInput(Release(s, s.first).(first := None)).(
        seeking := false, seekTimeUs := 0, reachedEOS := false, finalStatus := None)
  }

  ghost predicate InRange(b: Option<Buffer>)
  {
    b.Some? ==> b.value.from <= |b.value.data|
  }

  ghost function RestOf(b: Option<Buffer>): seq<byte>
    requires InRange(b)
  {
    if b.Some? then b.value.Rest() else []
  }

  /** The callback's private fields agree with where it is. */
  ghost predicate Coherent(s: State)
  {
    && InRange(s.first) && InRange(s.input)
    && (s.isFirst ==> s.input.None?)
    && (s.isFirst ==> (s.firstError.None? <==> s.first.Some?))
    && (!s.isFirst ==> s.first.None?)
    && (s.pc.Reading? ==> s.input.None? && (s.isFirst ==> s.pc.seek.None?))
    && (s.pc.Copying? ==> s.input.Some?)
    && (s.pc.Accounting? ==> (s.pc.error.None? <==> s.input.Some?))
    && (s.pc.Accounting? || s.pc.Copying? ==> !s.isFirst)
    && (!s.pc.Idle? ==> s.remaining > 0)
  }

  /** The one buffer the player holds, if any. */
  ghost function Held(s: State): Option<nat>
  {
    if s.input.Some? then Some(s.input.value.id)
    else if s.first.Some? then Some(s.first.value.id)
    else None
  }

  /** Of `total` buffers each is either the one held or released exactly once. */
  ghost predicate Ledger(released: seq<nat>, held: Option<nat>, total: nat)
  {
    && NoDuplicates(released)
    && (forall i :: 0 <= i < |released| ==> released[i] < total && held != Some(released[i]))
    && (held.Some? ==> held.value < total)
    && (forall id :: 0 <= id < total ==> held == Some(id) || id in released)
  }

  lemma LedgerRelease(released: seq<nat>, id: nat, total: nat)
    requires Ledger(released, Some(id), total)
    ensures Ledger(released + [id], None, total)
  {
    var after := released + [id];
    assert after[|released|] == id;
    forall other | 0 <= other < total
      ensures other in after
    {
      if other != id { assert other in released; }
    }
  }

  lemma LedgerObtain(released: seq<nat>, total: nat)
    requires Ledger(released, None, total)
    ensures Ledger(released, Some(total), total + 1)
  {
  }

  ghost predicate Accounted(s: State)
  {
    Ledger(s.released, Held(s), |s.source|)
  }

  /** Bytes delivered since the last seek, then what is held, is what the source gave since then. */
  ghost predicate GapFree(s: State)
    requires Coherent(s)
  {
    && s.epochStart <= |s.source|
    && s.delivered + RestOf(s.input) + RestOf(s.first) == Concat(s.source[s.epochStart..])
    && (Held(s).Some? ==> s.epochStart <= Held(s).value)
  }

  /** The first read of an epoch carries the seek that opened it, the others carry none. */
  ghost predicate SeekCarried(s: State)
  {
    if s.pc.Reading? && s.pc.seek.Some? then
      s.requests == [] && s.epochSeek == s.pc.seek
    else
      && s.requests != [] && s.requests[0] == s.epochSeek
      && forall i :: 1 <= i < |s.requests| ==> s.requests[i].None?
  }

  ghost predicate LatestSeek(s: State)
  {
    s.seeking ==> s.lastRequest == Some(s.seekTimeUs)
  }

  ghost predicate Inv(s: State)
  {
    Coherent(s) && Accounted(s) && GapFree(s) && SeekCarried(s) && LatestSeek(s)
  }

  lemma NothingObtained(s: State)
    requires s.source == [] && s.released == [] && s.input.None? && s.first.None?
    requires s.epochStart == 0 && s.delivered == []
    ensures Accounted(s) && InRange(s.first) && InRange(s.input)
    ensures s.delivered + RestOf(s.input) + RestOf(s.first) == Concat(s.source[s.epochStart..])
  {
    assert s.source[0..] == [];
  }

  lemma FirstObtained(s: State, bytes: seq<byte>)
    requires s.source == [bytes] && s.released == [] && s.input.None? && s.first == Some(Buffer(0, bytes, 0))
    requires s.epochStart == 0 && s.delivered == []
    ensures Accounted(s) && InRange(s.first) && InRange(s.input)
    ensures s.delivered + RestOf(s.input) + RestOf(s.first) == Concat(s.source[s.epochStart..])
  {
    ConcatOne([], bytes);
    assert [] + [bytes] == [bytes] && s.source[0..] == [bytes];
    assert RestOf(s.first) == bytes;
  }

  lemma StartedInv(offload: bool, seek: Option<int>, read: FirstRead)
    ensures Inv(Started(offload, seek, read))
  {
    var s := Started(offload, seek, read);
    if read.First? && read.result.Data? {
      FirstObtained(s, read.result.bytes);
    } else {
      NothingObtained(s);
    }
  }

  /** Dropping whatever is held, as a seek or a reset does. */
  lemma ReleaseAll(s: State)
    requires Coherent(s) && Accounted(s)
    ensures Ledger(ReleaseInput(ReleaseFirst(s)).released, None, |s.source|)
  {
    if Held(s).Some? { LedgerRelease(s.released, Held(s).value, |s.source|); }
  }

  lemma TakeSeekKeepsInv(s: State)
    requires Inv(s) && s.pc.LoopTop?
    ensures Inv(DoTakeSeek(s))
  {
    if s.seeking {
      ReleaseAll(s);
      assert s.source[|s.source|..] == [];
    }
  }

  lemma ObtainKeepsInv(s: State, result: ReadResult)
    requires Inv(s) && s.pc.Reading?
    ensures Inv(DoObtain(s, result))
  {
    if !s.isFirst && result.Data? {
      LedgerObtain(s.released, |s.source|);
      var t, tail := DoObtain(s, result), s.source[s.epochStart..];
      assert t.source[s.epochStart..] == tail + [result.bytes];
      ConcatOne(tail, result.bytes);
      assert s.delivered + [] + [] == s.delivered;
      assert t.delivered + RestOf(t.input) + RestOf(t.first) == s.delivered + result.bytes;
    }
  }

  /** Delivering the next bytes of a buffer moves them from what is held to what was delivered. */
  lemma CopyMoves(delivered: seq<byte>, data: seq<byte>, from: nat, n: nat)
    requires from + n <= |data|
    ensures delivered + data[from..] == (delivered + data[from..from + n]) + data[from + n..]
  {
    assert data[from..] == data[from..from + n] + data[from + n..];
  }

  lemma CopyKeepsInv(s: State)
    requires Inv(s) && s.pc.Copying?
    ensures Inv(DoCopy(s))
  {
    var b := s.input.value;
    if b.from == |b.data| {
      LedgerRelease(s.released, b.id, |s.source|);
    } else {
      CopyKeepsGapFree(s);
    }
  }

  lemma CopyKeepsGapFree(s: State)
    requires Coherent(s) && GapFree(s) && s.pc.Copying? && s.input.value.from < |s.input.value.data|
    ensures Coherent(DoCopy(s)) && GapFree(DoCopy(s))
  {
    CopyMoves(s.delivered, s.input.value.data, s.input.value.from, CopySize(s));
  }

  lemma StepKeepsInv(s: State, e: Event)
    requires Inv(s) && Enabled(s, e) && !e.Reset?
    ensures Inv(Step(s, e))
  {
    match e
    case TakeSeek => TakeSeekKeepsInv(s);
    case Obtain(result) => ObtainKeepsInv(s, result);
    case Copy => CopyKeepsInv(s);
    case _ =>
  }

  /** A legal interleaving of callbacks, seeks and stream ends; no reset. */
  ghost predicate LegalRun(s: State, run: seq<Event>)
    decreases |run|
  {
    run == [] || (!run[0].Reset? && Enabled(s, run[0]) && LegalRun(Step(s, run[0]), run[1..]))
  }

  ghost function Run(s: State, run: seq<Event>): State
    requires LegalRun(s, run)
    decreases |run|
  {
    if run == [] then s else Run(Step(s, run[0]), run[1..])
  }

  lemma {:induction false} RunKeepsInv(s: State, run: seq<Event>)
    requires Inv(s) && LegalRun(s, run)
    ensures Inv(Run(s, run))
    decreases |run|
  {
    if run != [] {
      StepKeepsInv(s, run[0]);
      RunKeepsInv(Step(s, run[0]), run[1..]);
    }
  }

  /**
   * Whatever the source returns and whenever seeks arrive: since the last seek taken,
   * the bytes delivered are a prefix of the source's payloads with nothing skipped or
   * repeated; buffers are held or released once; only buffers obtained after that seek
   * are still used; and a pending seek is for the latest request.
   */
  lemma PlaybackIsGapFree(offload: bool, seek: Option<int>, read: FirstRead, run: seq<Event>)
    requires LegalRun(Started(offload, seek, read), run)
    ensures
      var t := Run(Started(offload, seek, read), run);
      && t.epochStart <= |t.source|
      && t.delivered <= Concat(t.source[t.epochStart..])
      && Accounted(t)
      && (Held(t).Some? ==> t.epochStart <= Held(t).value)
      && SeekCarried(t)
      && (t.seeking ==> t.lastRequest == Some(t.seekTimeUs))
  {
    StartedInv(offload, seek, read);
    RunKeepsInv(Started(offload, seek, read), run);
  }

  /** After a reset every buffer ever obtained has been released, once. */
  lemma ResetReleasesEverything(offload: bool, seek: Option<int>, read: FirstRead, run: seq<Event>)
    requires LegalRun(Started(offload, seek, read), run)
    requires Run(Started(offload, seek, read), run).pc.Idle?
    ensures
      var s := Run(Started(offload, seek, read), run);
      var t := Step(s, Reset);
      && NoDuplicates(t.released) && (forall id: nat :: id in t.released <==> id < |s.source|)
      && Held(t).None? && !t.seeking && t.seekTimeUs == 0 && !t.reachedEOS && t.finalStatus.None?
  {
    var s := Run(Started(offload, seek, read), run);
    StartedInv(offload, seek, read);
    RunKeepsInv(Started(offload, seek, read), run);
    ReleaseAll(s);
    assert Step(s, Reset).released == ReleaseInput(ReleaseFirst(s)).released;
  }

  lemma RunCons(s: State, e: Event, run: seq<Event>)
    requires !e.Reset? && Enabled(s, e) && LegalRun(Step(s, e), run)
    ensures LegalRun(s, [e] + run) && Run(s, [e] + run) == Run(Step(s, e), run)
  {
    assert ([e] + run)[1..] == run;
  }

  lemma {:induction false} RunSnoc(s: State, run: seq<Event>, e: Event)
    requires LegalRun(s, run) && !e.Reset? && Enabled(Run(s, run), e)
    ensures LegalRun(s, run + [e]) && Run(s, run + [e]) == Step(Run(s, run), e)
    decreases |run|
  {
    if run == [] {
      RunCons(s, e, []);
      assert run + [e] == [e] + [];
    } else {
      RunSnoc(Step(s, run[0]), run[1..], e);
      RunCons(s, run[0], run[1..] + [e]);
      assert run + [e] == [run[0]] + (run[1..] + [e]);
    }
  }

  lemma {:induction false} RunPrefix(s: State, run: seq<Event>, n: nat)
    requires LegalRun(s, run) && n < |run|
    ensures LegalRun(s, run[..n]) && !run[n].Reset? && Enabled(Run(s, run[..n]), run[n])
    ensures LegalRun(s, run[..n + 1]) && Run(s, run[..n + 1]) == Step(Run(s, run[..n]), run[n])
    decreases n
  {
    if n == 0 {
      assert run[..0] == [];
    } else {
      RunPrefix(Step(s, run[0]), run[1..], n - 1);
      assert run[..n][1..] == run[1..][..n - 1];
    }
    RunSnoc(s, run[..n], run[n]);
    assert run[..n + 1] == run[..n] + [run[n]];
  }

  // Seeks that are buried behind the end of the stream

  /** Event k of the run tells the player that the stream is over. */
  ghost predicate EndsStream(s: State, run: seq<Event>, k: nat)
    requires k < |run|
  {
    || run[k].StreamEnd?
    || (run[k].Account? && !s.offload && LegalRun(s, run[..k])
        && var p := Run(s, run[..k]).pc; p.Accounting? && p.error.Some?)
  }

  /** A seek was requested at i, and none was taken after it, in the first n events. */
  ghost predicate Untaken(run: seq<Event>, i: nat, n: nat)
    requires n <= |run|
  {
    i < n && run[i].SeekTo? && forall j :: i < j < n ==> !run[j].TakeSeek?
  }

  /** The stream ended at k, and no seek was requested after it. */
  ghost predicate Ended(s: State, run: seq<Event>, k: nat, n: nat)
    requires n <= |run|
  {
    k < n && EndsStream(s, run, k) && forall j :: k < j < n ==> !run[j].SeekTo?
  }

  ghost predicate SomeUntaken(run: seq<Event>, n: nat)
    requires n <= |run|
  {
    exists i: nat :: Untaken(run, i, n)
  }

  ghost predicate SomeEnd(s: State, run: seq<Event>, n: nat)
    requires n <= |run|
  {
    exists k: nat :: Ended(s, run, k, n)
  }

  lemma UntakenNext(run: seq<Event>, n: nat)
    requires n < |run|
    ensures SomeUntaken(run, n + 1) <==> run[n].SeekTo? || (SomeUntaken(run, n) && !run[n].TakeSeek?)
  {
    var m := n + 1;
    if i: nat :| Untaken(run, i, m) {
      if i < n { assert Untaken(run, i, n); }
    }
    if run[n].SeekTo? {
      assert Untaken(run, n, n + 1);
    } else if SomeUntaken(run, n) && !run[n].TakeSeek? {
      var i: nat :| Untaken(run, i, n);
      assert Untaken(run, i, n + 1);
    }
  }

  lemma EndedNext(s: State, run: seq<Event>, n: nat)
    requires n < |run|
    ensures SomeEnd(s, run, n + 1) <==> EndsStream(s, run, n) || (SomeEnd(s, run, n) && !run[n].SeekTo?)
  {
    var m := n + 1;
    if k: nat :| Ended(s, run, k, m) {
      if k < n { assert Ended(s, run, k, n); }
    }
    if EndsStream(s, run, n) {
      assert Ended(s, run, n, n + 1);
    } else if SomeEnd(s, run, n) && !run[n].SeekTo? {
      var k: nat :| Ended(s, run, k, n);
      assert Ended(s, run, k, n + 1);
    }
  }

  /** One event's effect on the two flags. */
  lemma FlagsStep(s: State, e: Event)
    requires Enabled(s, e) && !e.Reset?
    ensures
      var t := Step(s, e);
      && t.offload == s.offload
      && (t.seeking <==> e.SeekTo? || (s.seeking && !e.TakeSeek?))
      && (t.reachedEOS <==> || e.StreamEnd? || (e.Account? && !s.offload && s.pc.error.Some?)
                            || (s.reachedEOS && !e.SeekTo?))
  {
    match e
    case TakeSeek => assert Step(s, e) == DoTakeSeek(s);
    case Obtain(result) => assert Step(s, e) == DoObtain(s, result);
    case Copy => assert Step(s, e) == DoCopy(s);
    case _ =>
  }

  /** The flags, in terms of what happened alone. */
  lemma {:induction false} FlagsFromHistory(s: State, run: seq<Event>, n: nat)
    requires LegalRun(s, run) && n <= |run| && !s.seeking && !s.reachedEOS
    ensures LegalRun(s, run[..n])
    ensures var t := Run(s, run[..n]);
      && t.offload == s.offload
      && (t.seeking <==> SomeUntaken(run, n))
      && (t.reachedEOS <==> SomeEnd(s, run, n))
    decreases n
  {
    if n == 0 {
      assert run[..0] == [];
    } else {
      FlagsFromHistory(s, run, n - 1);
      RunPrefix(s, run, n - 1);
      FlagsStep(Run(s, run[..n - 1]), run[n - 1]);
      UntakenNext(run, n - 1);
      EndedNext(s, run, n - 1);
    }
  }

  // What is read, and from where, in terms of what happened alone

  /** The time of the last seek requested in the first n events. */
  ghost function LastSeek(run: seq<Event>, n: nat): Option<int>
    requires n <= |run|
  {
    if n == 0 then None
    else if run[n - 1].SeekTo? then Some(run[n - 1].timeUs)
    else LastSeek(run, n - 1)
  }

  /** Event n is a look for a seek that finds one. */
  ghost predicate TakesSeek(run: seq<Event>, n: nat)
    requires n < |run|
  {
    run[n].TakeSeek? && SomeUntaken(run, n)
  }

  /** What a read after the first n events asks for: the seek found by the last look, if it found one. */
  ghost function Carried(run: seq<Event>, n: nat): Option<int>
    requires n <= |run|
  {
    if n == 0 then None
    else if run[n - 1].TakeSeek? then (if TakesSeek(run, n - 1) then LastSeek(run, n - 1) else None)
    else Carried(run, n - 1)
  }

  /** The buffer stashed by start() is still to be used: nothing was obtained and no seek taken since. */
  ghost predicate StashPending(read: FirstRead, run: seq<Event>, n: nat)
    requires n <= |run|
  {
    if n == 0 then read.First?
    else StashPending(read, run, n - 1) && !run[n - 1].Obtain? && !TakesSeek(run, n - 1)
  }

  /** What the source has given: the first read's data, and that of each read since. */
  ghost function Payloads(read: FirstRead, run: seq<Event>, n: nat): seq<seq<byte>>
    requires n <= |run|
  {
    if n == 0 then (if read.First? && read.result.Data? then [read.result.bytes] else [])
    else
      Payloads(read, run, n - 1)
      + if run[n - 1].Obtain? && run[n - 1].result.Data? && !StashPending(read, run, n - 1)
        then [run[n - 1].result.bytes] else []
  }

  /** How much of that came before the last seek taken. */
  ghost function PayloadsBefore(read: FirstRead, run: seq<Event>, n: nat): nat
    requires n <= |run|
  {
    if n == 0 then 0
    else if TakesSeek(run, n - 1) then |Payloads(read, run, n - 1)|
    else PayloadsBefore(read, run, n - 1)
  }

  /** What the reads since the last seek taken asked for. */
  ghost function AskedFor(seek: Option<int>, read: FirstRead, run: seq<Event>, n: nat): seq<Option<int>>
    requires n <= |run|
  {
    if n == 0 then [seek]
    else if TakesSeek(run, n - 1) then []
    else
      AskedFor(seek, read, run, n - 1)
      + if run[n - 1].Obtain? && !StashPending(read, run, n - 1) then [Carried(run, n - 1)] else []
  }

  /** One event's effect on where reads go. */
  lemma SeekStep(s: State, e: Event)
    requires Enabled(s, e) && !e.Reset?
    ensures
      var t := Step(s, e);
      && (t.isFirst <==> s.isFirst && !e.Obtain? && !(e.TakeSeek? && s.seeking))
      && (t.seeking ==> if e.SeekTo? then t.seekTimeUs == e.timeUs else s.seeking && t.seekTimeUs == s.seekTimeUs)
      && (t.pc.Reading? ==> if e.TakeSeek? then t.pc.seek == (if s.seeking then Some(s.seekTimeUs) else None)
                            else s.pc == t.pc)
  {
    match e
    case TakeSeek => assert Step(s, e) == DoTakeSeek(s);
    case Obtain(result) => assert Step(s, e) == DoObtain(s, result);
    case Account => assert Step(s, e) == DoAccount(s);
    case Copy => assert Step(s, e) == DoCopy(s);
    case _ =>
  }

  /** One event's effect on what has been read. */
  lemma ReadStep(s: State, e: Event)
    requires Enabled(s, e) && !e.Reset?
    ensures
      var t := Step(s, e);
      && t.source == s.source + (if e.Obtain? && e.result.Data? && !s.isFirst then [e.result.bytes] else [])
      && t.epochStart == (if e.TakeSeek? && s.seeking then |s.source| else s.epochStart)
      && t.requests == (if e.TakeSeek? && s.seeking then []
                        else s.requests + if e.Obtain? && !s.isFirst then [s.pc.seek] else [])
  {
    match e
    case TakeSeek => assert Step(s, e) == DoTakeSeek(s);
    case Obtain(result) => assert Step(s, e) == DoObtain(s, result);
    case Account => assert Step(s, e) == DoAccount(s);
    case Copy => assert Step(s, e) == DoCopy(s);
    case _ =>
  }

  /** Where reads go, as the events say. */
  ghost predicate SeeksAgree(t: State, read: FirstRead, run: seq<Event>, n: nat)
    requires n <= |run|
  {
    && (t.isFirst <==> StashPending(read, run, n))
    && (t.seeking <==> SomeUntaken(run, n))
    && (t.seeking ==> LastSeek(run, n) == Some(t.seekTimeUs))
    && (t.pc.Reading? ==> t.pc.seek == Carried(run, n))
  }

  /** What has been read, as the events say. */
  ghost predicate ReadsAgree(t: State, seek: Option<int>, read: FirstRead, run: seq<Event>, n: nat)
    requires n <= |run|
  {
    && t.source == Payloads(read, run, n)
    && t.epochStart == PayloadsBefore(read, run, n)
    && t.requests == AskedFor(seek, read, run, n)
  }

  lemma AgreeStep(s: State, seek: Option<int>, read: FirstRead, run: seq<Event>, n: nat)
    requires n < |run| && Enabled(s, run[n]) && !run[n].Reset?
    requires SeeksAgree(s, read, run, n) && ReadsAgree(s, seek, read, run, n)
    ensures SeeksAgree(Step(s, run[n]), read, run, n + 1) && ReadsAgree(Step(s, run[n]), seek, read, run, n + 1)
  {
    SeekStep(s, run[n]);
    ReadStep(s, run[n]);
    FlagsStep(s, run[n]);
    UntakenNext(run, n);
  }

  lemma {:induction false} AgreeAlong(offload: bool, seek: Option<int>, read: FirstRead, run: seq<Event>, n: nat)
    requires LegalRun(Started(offload, seek, read), run) && n <= |run|
    ensures LegalRun(Started(offload, seek, read), run[..n])
    ensures
      var t := Run(Started(offload, seek, read), run[..n]);
      SeeksAgree(t, read, run, n) && ReadsAgree(t, seek, read, run, n)
    decreases n
  {
    var s := Started(offload, seek, read);
    if n == 0 {
      assert run[..0] == [];
    } else {
      AgreeAlong(offload, seek, read, run, n - 1);
      RunPrefix(s, run, n - 1);
      AgreeStep(Run(s, run[..n - 1]), seek, read, run, n - 1);
    }
  }

  /**
   * Every read goes where it was last asked to: the first read after a look that finds a
   * seek carries the time of the last request before that look, and all others carry none.
   */
  lemma ReadsGoWhereRequested(offload: bool, seek: Option<int>, read: FirstRead, run: seq<Event>, o: nat)
    requires LegalRun(Started(offload, seek, read), run) && o < |run| && run[o].Obtain?
    ensures LegalRun(Started(offload, seek, read), run[..o])
    ensures Run(Started(offload, seek, read), run[..o]).pc == Reading(Carried(run, o))
  {
    AgreeAlong(offload, seek, read, run, o);
    RunPrefix(Started(offload, seek, read), run, o);
  }

  /**
   * The payloads that playback is a gap-free prefix of are those the source gave since the
   * last seek taken, and what the reads since then asked for is as said above.
   */
  lemma PlaybackFollowsEvents(offload: bool, seek: Option<int>, read: FirstRead, run: seq<Event>)
    requires LegalRun(Started(offload, seek, read), run)
    ensures
      var t, n := Run(Started(offload, seek, read), run), |run|;
      && PayloadsBefore(read, run, n) <= |Payloads(read, run, n)|
      && t.delivered <= Concat(Payloads(read, run, n)[PayloadsBefore(read, run, n)..])
      && t.requests == AskedFor(seek, read, run, n)
  {
    assert run[..|run|] == run;
    AgreeAlong(offload, seek, read, run, |run|);
    PlaybackIsGapFree(offload, seek, read, run);
  }

  /** A requested seek was not taken, and then the stream ended with no newer request since. */
  ghost predicate Buried(s: State, run: seq<Event>)
  {
    exists i: nat, k: nat :: i < k && Untaken(run, i, |run|) && Ended(s, run, k, |run|)
  }

  /**
   * After any run a seek is pending although the stream counts as over, if and only if some
   * requested seek was not taken and later, with no newer request since, the sink reported
   * the end of the stream or (unless offloaded) a failed read was accounted for.
   */
  lemma SeekBuriedExactly(offload: bool, seek: Option<int>, read: FirstRead, run: seq<Event>)
    requires LegalRun(Started(offload, seek, read), run)
    ensures
      var s := Started(offload, seek, read);
      (Run(s, run).seeking && Run(s, run).reachedEOS) <==> Buried(s, run)
  {
    var s := Started(offload, seek, read);
    FlagsFromHistory(s, run, |run|);
    assert run[..|run|] == run;
    if SomeUntaken(run, |run|) && SomeEnd(s, run, |run|) {
      var i: nat :| Untaken(run, i, |run|);
      var k: nat :| Ended(s, run, k, |run|);
      assert i < k;
    }
  }

  /** Once the callback is idle, a buried seek and all playback wait until somebody seeks again. */
  lemma {:induction false} BuriedUntilNextSeek(t: State, run: seq<Event>)
    requires t.pc.Idle? && t.reachedEOS && LegalRun(t, run)
    requires forall j :: 0 <= j < |run| ==> !run[j].SeekTo?
    ensures Run(t, run) == t
    decreases |run|
  {
    if run != [] {
      assert Step(t, run[0]) == t;
      BuriedUntilNextSeek(t, run[1..]);
    }
  }

  /** Such runs exist: the seek arrives while a read that fails is under way, or just before the sink's report. */
  lemma BuriedSeekHappens(offload: bool)
    ensures
      var run := [Callback(4), TakeSeek, Obtain(Fail(-1)), SeekTo(7), Account];
      var s := Started(false, None, FormatChanged);
      LegalRun(s, run) && Run(s, run).seeking && Run(s, run).reachedEOS
    ensures
      var run := [SeekTo(7), StreamEnd];
      var s := Started(offload, None, FormatChanged);
      LegalRun(s, run) && Run(s, run).seeking && Run(s, run).reachedEOS
  {
    ReadFailureBuries();
    var s0 := Started(offload, None, FormatChanged);
    var s1 := Step(s0, SeekTo(7));
    RunCons(s1, StreamEnd, []);
    RunCons(s0, SeekTo(7), [StreamEnd]);
    assert [SeekTo(7)] + [StreamEnd] == [SeekTo(7), StreamEnd];
  }

  lemma ReadFailureBuries()
    ensures
      var run := [Callback(4), TakeSeek, Obtain(Fail(-1)), SeekTo(7), Account];
      var s := Started(false, None, FormatChanged);
      LegalRun(s, run) && Run(s, run).seeking && Run(s, run).reachedEOS
  {
    var s0 := Started(false, None, FormatChanged);
    var s1 := Step(s0, Callback(4));
    var s2 := Step(s1, TakeSeek);
    var s3 := Step(s2, Obtain(Fail(-1)));
    var s4 := Step(s3, SeekTo(7));
    var s5 := Step(s4, Account);
    RunCons(s4, Account, []);
    RunCons(s3, SeekTo(7), [Account]);
    RunCons(s2, Obtain(Fail(-1)), [SeekTo(7), Account]);
    RunCons(s1, TakeSeek, [Obtain(Fail(-1)), SeekTo(7), Account]);
    RunCons(s0, Callback(4), [TakeSeek, Obtain(Fail(-1)), SeekTo(7), Account]);
    assert [Callback(4)] + [TakeSeek, Obtain(Fail(-1)), SeekTo(7), Account]
        == [Callback(4), TakeSeek, Obtain(Fail(-1)), SeekTo(7), Account];
  }

  /** The state of a player that has just started. */
  ghost predicate JustStarted(s: State)
  {
    exists seek, read :: s == Started(s.offload, seek, read)
  }

  /**
   * A player that has just started gets to `t` by the given events.  Said of every run
   * equal to `trace`, so that the run is looked into only where a proof names it.
   */
  ghost predicate Reached(s: State, trace: seq<Event>, t: State)
  {
    forall run :: run == trace ==> JustStarted(s) && LegalRun(s, run) && t == Run(s, run)
  }

  lemma StartReached(offload: bool, seek: Option<int>, read: FirstRead)
    ensures var s := Started(offload, seek, read); Reached(s, [], s)
  {
    var s := Started(offload, seek, read);
    assert s.offload == offload;
    assert JustStarted(s);
    assert LegalRun(s, []) && Run(s, []) == s;
  }

  lemma ReachedInv(s: State, trace: seq<Event>, t: State)
    requires Reached(s, trace, t)
    ensures Inv(t)
  {
    assert LegalRun(s, trace);
    var seek, read :| s == Started(s.offload, seek, read);
    StartedInv(s.offload, seek, read);
    RunKeepsInv(s, trace);
  }

  lemma ReachedCoherent(s: State, trace: seq<Event>, t: State)
    requires Reached(s, trace, t)
    ensures Coherent(t)
  {
    ReachedInv(s, trace, t);
  }

  lemma ReachedNext(s: State, trace: seq<Event>, t: State, e: Event)
    requires Reached(s, trace, t) && !e.Reset? && Enabled(t, e)
    ensures Reached(s, trace + [e], Step(t, e))
  {
    assert LegalRun(s, trace);
    RunSnoc(s, trace, e);
  }

  lemma CopyEnabled(s: State, trace: seq<Event>, t: State)
    requires Reached(s, trace, t) && t.pc.Copying?
    ensures Enabled(t, Copy)
  {
    ReachedInv(s, trace, t);
  }

  /** The last thing that happened is that a failed read was accounted for. */
  ghost predicate EndedByFailure(trace: seq<Event>, finalStatus: Option<Status>)
  {
    trace != [] && trace[|trace| - 1] == Account && finalStatus.Some?
  }

  /** The player object; `model` is its protocol state, which the fields always match. */
  class Player {
    const offload: bool
    var mSeeking: bool
    var mSeekTimeUs: int
    var mReachedEOS: bool
    var mFinalStatus: Option<Status>
    var mIsFirstBuffer: bool
    var mFirstBuffer: Option<Buffer>
    var mFirstBufferError: Option<Status>
    var mInputBuffer: Option<Buffer>
    var obtained: nat                 // numbers the buffers obtained

    ghost var start: State
    ghost var trace: seq<Event>
    ghost var model: State

    ghost predicate Matches()
      reads this
    {
      && model.offload == offload
      && model.seeking == mSeeking && model.seekTimeUs == mSeekTimeUs
      && model.reachedEOS == mReachedEOS && model.finalStatus == mFinalStatus
      && model.isFirst == mIsFirstBuffer && model.first == mFirstBuffer
      && model.firstError == mFirstBufferError && model.input == mInputBuffer
      && |model.source| == obtained
    }

    /** The object is where some legal run from a successful start has taken it. */
    ghost predicate Valid()
      reads this
    {
      Matches() && Reached(start, trace, model)
    }

    /** A successful start: `seek` is the seek pending before it, `read` what its read gave. */
    constructor (offload: bool, seek: Option<int>, read: FirstRead)
      ensures Valid() && model == Started(offload, seek, read) && trace == []
    {
      this.offload := offload;
      mSeeking, mSeekTimeUs := false, if seek.Some? then seek.value else 0;
      mReachedEOS, mFinalStatus, mInputBuffer := false, None, None;
      match read {
        case FormatChanged =>
          mIsFirstBuffer, mFirstBuffer, mFirstBufferError := false, None, None;
          obtained := 0;
        case First(Data(bytes)) =>
          mIsFirstBuffer, mFirstBuffer, mFirstBufferError := true, Some(Buffer(0, bytes, 0)), None;
          obtained := 1;
        case First(Fail(status)) =>
          mIsFirstBuffer, mFirstBuffer, mFirstBufferError := true, None, Some(status);
          obtained := 0;
      }
      StartReached(offload, seek, read);
      start, trace, model := Started(offload, seek, read), [], Started(offload, seek, read);
    }

    ghost method Record(e: Event)
      requires Reached(start, trace, model)
      requires !e.Reset? && Enabled(model, e)
      modifies this`trace, this`model
      ensures model == Step(old(model), e) && trace == old(trace) + [e]
      ensures Reached(start, trace, model)
    {
      ReachedNext(start, trace, model, e);
      trace, model := trace + [e], Step(model, e);
    }

    method DoSeekTo(timeUs: int)
      requires Valid()
      modifies this
      ensures Valid() && start == old(start) && trace == old(trace) + [SeekTo(timeUs)]
      ensures model.pc == old(model.pc) && model.remaining == old(model.remaining) && model.heard == old(model.heard)
      ensures mInputBuffer == old(mInputBuffer) && mIsFirstBuffer == old(mIsFirstBuffer)
    {
      Record(SeekTo(timeUs));
      mSeeking, mReachedEOS, mSeekTimeUs := true, false, timeUs;
    }

    /** Seeks that arrive while the lock is free. */
    method Interfere(timesUs: seq<int>)
      requires Valid()
      modifies this
      ensures Valid() && start == old(start)
      ensures model.pc == old(model.pc) && model.remaining == old(model.remaining)
      ensures model.heard == old(model.heard) && mInputBuffer == old(mInputBuffer)
      ensures mIsFirstBuffer == old(mIsFirstBuffer)
      ensures |trace| == |old(trace)| + |timesUs| && old(trace) <= trace
    {
      for i := 0 to |timesUs|
        invariant Valid() && start == old(start)
        invariant model.pc == old(model.pc) && model.remaining == old(model.remaining)
        invariant model.heard == old(model.heard) && mInputBuffer == old(mInputBuffer)
        invariant mIsFirstBuffer == old(mIsFirstBuffer)
        invariant |trace| == |old(trace)| + i && old(trace) <= trace
      {
        DoSeekTo(timesUs[i]);
      }
    }

    /** A pending seek drops the stashed buffer and the input buffer. */
    method DropForSeek() returns (seek: Option<int>)
      requires Valid() && model.pc.LoopTop? && mSeeking
      modifies this
      ensures Valid() && start == old(start) && trace == old(trace) + [TakeSeek]
      ensures model.pc == Reading(seek) && mInputBuffer.None? && !mIsFirstBuffer
      ensures model.remaining == old(model.remaining) && model.heard == old(model.heard)
    {
      ReachedCoherent(start, trace, model);
      Record(TakeSeek);
      if mIsFirstBuffer {
        mFirstBuffer := None;
        mIsFirstBuffer := false;
      }
      seek := Some(mSeekTimeUs);
      mInputBuffer := None;
      mSeeking := false;
    }

    method TakePendingSeek() returns (seek: Option<int>)
      requires Valid() && model.pc.LoopTop?
      modifies this
      ensures Valid() && start == old(start) && trace == old(trace) + [TakeSeek]
      ensures model.pc == if mInputBuffer.None? then Reading(seek) else Copying
      ensures model.remaining == old(model.remaining) && model.heard == old(model.heard)
      ensures mIsFirstBuffer ==> old(mIsFirstBuffer)
      ensures mInputBuffer.Some? ==> old(mInputBuffer.Some?)
    {
      if mSeeking {
        seek := DropForSeek();
      } else {
        seek := None;
        Record(TakeSeek);
      }
    }

    /** Gets the stashed first buffer, or reads the source, whose answer would be `result`. */
    method ReadInput(seek: Option<int>, result: ReadResult) returns (error: Option<Status>)
      requires Valid() && model.pc == Reading(seek)
      modifies this
      ensures Valid() && start == old(start) && trace == old(trace) + [Obtain(result)]
      ensures model.pc == Accounting(error, seek.Some?) && !mIsFirstBuffer
      ensures model.remaining == old(model.remaining) && model.heard == old(model.heard)
      ensures !old(mIsFirstBuffer) && result.Fail? ==> error.Some?
    {
      ReachedCoherent(start, trace, model);
      Record(Obtain(result));
      if mIsFirstBuffer {
        mInputBuffer, mFirstBuffer, error := mFirstBuffer, None, mFirstBufferError;
        mIsFirstBuffer := false;
      } else {
        match result {
          case Data(bytes) =>
            mInputBuffer, error := Some(Buffer(obtained, bytes, 0)), None;
            obtained := obtained + 1;
          case Fail(status) =>
            error := Some(status);
        }
      }
    }

    /** With the lock retaken after a read; `more` tells whether the loop goes on. */
    method AccountRead(seek: Option<int>, error: Option<Status>) returns (more: bool)
      requires Valid() && model.pc == Accounting(error, seek.Some?)
      modifies this
      ensures Valid() && start == old(start) && trace == old(trace) + [Account]
      ensures more == error.None? && model.pc == if more then Copying else Idle
      ensures !more ==> mFinalStatus == error
      ensures model.remaining == old(model.remaining) && model.heard == old(model.heard)
      ensures mIsFirstBuffer == old(mIsFirstBuffer)
    {
      Record(Account);
      if error.Some? {
        if !mReachedEOS && !offload {
          mReachedEOS := true;
        }
        mFinalStatus := error;
        return false;
      }
      if seek.Some? && !mSeeking {
        mSeekTimeUs := 0;
      }
      more := true;
    }

    static method Memcpy(to: array<byte>, at: nat, bytes: seq<byte>)
      requires at + |bytes| <= to.Length
      modifies to
      ensures to[at..at + |bytes|] == bytes && to[..at] == old(to[..at])
    {
      forall i | 0 <= i < |bytes| {
        to[at + i] := bytes[i];
      }
    }

    /** Copies what fits of a buffer to `data[done..]`. */
    static method CopyBytes(b: Buffer, data: array<byte>, done: nat) returns (copy: nat)
      requires b.from < |b.data| && done < data.Length
      modifies data
      ensures copy == if data.Length - done > |b.data| - b.from then |b.data| - b.from else data.Length - done
      ensures data[done..done + copy] == b.data[b.from..b.from + copy]
      ensures data[..done] == old(data[..done])
    {
      copy := data.Length - done;
      if copy > |b.data| - b.from {
        copy := |b.data| - b.from;
      }
      Memcpy(data, done, b.data[b.from..b.from + copy]);
    }

    method ReleaseUsed()
      requires Valid() && model.pc.Copying? && Enabled(model, Copy)
      requires mInputBuffer.value.from == |mInputBuffer.value.data|
      modifies this`mInputBuffer, this`trace, this`model
      ensures Valid() && trace == old(trace) + [Copy] && mInputBuffer.None?
      ensures model.pc == LoopTop && model.remaining == old(model.remaining) && model.heard == old(model.heard)
    {
      Record(Copy);
      mInputBuffer := None;
    }

    method CopySome(data: array<byte>, done: nat) returns (copy: nat)
      requires Valid() && model.pc.Copying? && Enabled(model, Copy)
      requires mInputBuffer.value.from < |mInputBuffer.value.data|
      requires done + model.remaining == data.Length && model.remaining > 0
      modifies this`mInputBuffer, this`trace, this`model, data
      ensures Valid() && trace == old(trace) + [Copy]
      ensures 0 < copy && model.remaining + copy == old(model.remaining)
      ensures model.pc == if model.remaining > 0 then LoopTop else Idle
      ensures model.heard == old(model.heard) + data[done..done + copy]
      ensures data[..done] == old(data[..done])
    {
      var b := mInputBuffer.value;
      copy := CopyBytes(b, data, done);
      assert copy == CopySize(model);
      Record(Copy);
      mInputBuffer := Some(b.(from := b.from + copy));
    }

    /** Releases a used-up buffer, or copies what fits to `data[done..]`. */
    method CopyOut(data: array<byte>, done: nat) returns (copy: nat)
      requires Valid() && model.pc.Copying? && Enabled(model, Copy)
      requires done + model.remaining == data.Length && model.remaining > 0
      modifies this`mInputBuffer, this`trace, this`model, data
      ensures Valid() && trace == old(trace) + [Copy]
      ensures model.remaining + copy == old(model.remaining)
      ensures model.pc == if model.remaining > 0 then LoopTop else Idle
      ensures copy == 0 ==> mInputBuffer.None?
      ensures model.heard == old(model.heard) + data[done..done + copy]
      ensures data[..done] == old(data[..done])
    {
      var b := mInputBuffer.value;
      if b.from == |b.data| {
        ReleaseUsed();
        copy := 0;
        assert data[done..done + copy] == [];
      } else {
        copy := CopySome(data, done);
      }
    }

    /** CopyOut within the callback: what was heard plus the filled part of `data`. */
    method CopyNext(data: array<byte>, done: nat, ghost heard: seq<byte>) returns (done': nat)
      requires Valid() && model.pc.Copying?
      requires done + model.remaining == data.Length && model.remaining > 0
      requires model.heard == heard + data[..done]
      modifies this, data
      ensures Valid() && start == old(start)
      ensures done <= done' && done' + model.remaining == data.Length
      ensures model.pc == if model.remaining > 0 then LoopTop else Idle
      ensures done' == done ==> mInputBuffer.None?
      ensures mIsFirstBuffer == old(mIsFirstBuffer)
      ensures model.heard == heard + data[..done']
      ensures old(trace) <= trace
    {
      CopyEnabled(start, trace, model);
      var copy := CopyOut(data, done);
      done' := done + copy;
      assert data[..done'] == data[..done] + data[done..done'];
    }

    /** The part of the callback's loop that takes a seek and makes sure of an input buffer. */
    method NextInput(answers: seq<ReadResult>, r: nat, seeks: seq<seq<int>>, k: nat)
      returns (more: bool, r': nat, k': nat)
      requires Valid() && model.pc.LoopTop? && r <= |answers|
      modifies this
      ensures Valid() && start == old(start)
      ensures model.pc == if more then Copying else Idle
      ensures model.remaining == old(model.remaining) && model.heard == old(model.heard)
      ensures r <= r' <= |answers|
      ensures mIsFirstBuffer ==> old(mIsFirstBuffer)
      ensures more ==> mIsFirstBuffer != old(mIsFirstBuffer) || r < r' || old(mInputBuffer.Some?)
      ensures old(trace) <= trace && (!more ==> EndedByFailure(trace, mFinalStatus))
    {
      Interfere(if k < |seeks| then seeks[k] else []);
      r', k', more := r, k + 1, true;
      var seek := TakePendingSeek();
      if mInputBuffer.None? {
        var fromSource := !mIsFirstBuffer;
        var error := ReadInput(seek, if r < |answers| then answers[r] else Fail(END_OF_STREAM));
        if fromSource && r < |answers| { r' := r + 1; }
        Interfere(if k' < |seeks| then seeks[k'] else []);
        k' := k' + 1;
        more := AccountRead(seek, error);
      }
    }

    /**
     * One audio callback.  `answers` are what the source answers (a source that runs dry
     * fails), and `seeks[k]` are the seeks arriving at the k-th moment the lock is free.
     */
    method FillBuffer(data: array<byte>, answers: seq<ReadResult>, seeks: seq<seq<int>>)
      returns (sizeDone: nat)
      requires Valid() && model.pc.Idle?
      modifies this, data
      ensures Valid() && start == old(start) && model.pc.Idle?
      ensures sizeDone <= data.Length
      ensures model.heard == old(model.heard) + data[..sizeDone]
      ensures if old(mReachedEOS) || data.Length == 0 then sizeDone == 0 && trace == old(trace)
              else old(trace) + [Callback(data.Length)] <= trace
      ensures sizeDone < data.Length && !old(mReachedEOS) ==> EndedByFailure(trace, mFinalStatus)
    {
      sizeDone := 0;
      if mReachedEOS || data.Length == 0 {
        assert data[..sizeDone] == [];
        return;
      }
      Record(Callback(data.Length));
      ghost var begun := trace;
      var r, k := 0, 0;
      ghost var heard := model.heard;
      while sizeDone < data.Length
        invariant Valid() && start == old(start) && begun <= trace
        invariant sizeDone <= data.Length && r <= |answers|
        invariant model.pc == if sizeDone < data.Length then LoopTop else Idle
        invariant sizeDone < data.Length ==> model.remaining == data.Length - sizeDone
        invariant model.heard == heard + data[..sizeDone]
        decreases data.Length - sizeDone,
                  |answers| - r + (if mIsFirstBuffer then 1 else 0),
                  if mInputBuffer.Some? then 1 else 0
      {
        var more;
        more, r, k := NextInput(answers, r, seeks, k);
        if !more { break; }
        sizeDone := CopyNext(data, sizeDone, heard);
      }
    }
  }
}
