/**
 * The converting stream source of the stagefright `stream` command: a writer
 * thread copies bytes into shared buffers chunk by chunk while the listener
 * returns buffers from another thread.  The lock is dropped between chunks, so
 * the protocol is a step system; the class below performs exactly its steps.
 */
module ConvertingStream {
  import opened Common

  /** A buffer queued to the listener, with the bytes it carried. */
  datatype Delivery = Delivery(index: nat, bytes: seq<byte>)

  datatype State = State(
    mem: seq<seq<byte>>,          // the shared buffers
    queue: seq<nat>,              // buffers waiting to be filled
    current: Option<nat>,         // the buffer being filled
    offset: nat,                  // how much of it is filled
    pending: seq<byte>,           // what the write in progress has not copied yet
    offered: seq<byte>,           // every byte ever given to the writer
    delivered: seq<Delivery>,     // every buffer ever queued to the listener
    held: map<nat, seq<byte>>,    // buffers with the listener, and what they carried
    eosIssued: nat                // number of EOS commands sent
  )

  datatype Event =
    | BeginWrite(data: seq<byte>)
    | CopyChunk
    | BufferAvailable(index: nat, reachedEOS: bool)

  /** What the environment may do next: one writer, and a listener that returns only what it holds. */
  predicate Enabled(s: State, e: Event)
  {
    match e
    case BeginWrite(_) => s.pending == []
    case CopyChunk => s.pending != [] && (s.current.Some? || s.queue != [])
    case BufferAvailable(index, _) => index in s.held && index < |s.mem|
  }

  /** The well-typedness the step functions need; part of the invariant. */
  predicate InBounds(s: State)
  {
    && (forall k :: 0 <= k < |s.queue| ==> s.queue[k] < |s.mem|)
    && (s.current.Some? ==> s.current.value < |s.mem| && s.offset <= |s.mem[s.current.value]|)
  }

  function Acquire(s: State): (t: State)
    requires InBounds(s) && (s.current.Some? || s.queue != [])
    ensures InBounds(t) && t.current.Some?
  {
    if s.current.Some? then s
    else s.(current := Some(s.queue[0]), offset := 0, queue := s.queue[1..])
  }

  /** Every buffer can take a byte; the current one still can. */
  ghost predicate HasRoom(s: State)
  {
    && (forall i :: 0 <= i < |s.mem| ==> |s.mem[i]| > 0)
    && InBounds(s)
    && (s.current.Some? ==> s.offset < |s.mem[s.current.value]|)
  }

  function HandOver(s: State): State
    requires InBounds(s) && s.current.Some?
  {
    var bytes := s.mem[s.current.value][..s.offset];
    s.(current := None,
       delivered := s.delivered + [Delivery(s.current.value, bytes)],
       held := s.held[s.current.value := bytes])
  }

  /** Overwrites part of a buffer. */
  function Splice(buffer: seq<byte>, at: nat, data: seq<byte>): (r: seq<byte>)
    requires at + |data| <= |buffer|
    ensures |r| == |buffer| && r[..at] == buffer[..at] && r[..at + |data|] == buffer[..at] + data
  {
    buffer[..at] + data + buffer[at + |data|..]
  }

  function ChunkSize(s: State): (n: nat)
    requires InBounds(s) && s.current.Some?
    ensures n <= |s.pending| && s.offset + n <= |s.mem[s.current.value]|
  {
    var room := |s.mem[s.current.value]| - s.offset;
    if |s.pending| > room then room else |s.pending|
  }

  function Fill(s: State): (t: State)
    requires InBounds(s) && s.current.Some?
    ensures InBounds(t) && t.current == s.current
  {
    var i, n := s.current.value, ChunkSize(s);
    s.(mem := s.mem[i := Splice(s.mem[i], s.offset, s.pending[..n])],
       offset := s.offset + n,
       pending := s.pending[n..])
  }

  function FlushIfFull(s: State): State
    requires InBounds(s) && s.current.Some?
  {
    if s.offset == |s.mem[s.current.value]| then HandOver(s) else s
  }

  function Step(s: State, e: Event): State
    requires InBounds(s) && Enabled(s, e)
  {
    match e
    case BeginWrite(data) => s.(pending := data, offered := s.offered + data)
    case CopyChunk => FlushIfFull(Fill(Acquire(s)))
    case BufferAvailable(index, reachedEOS) =>
      var t := Requeue(s, index);
      if !reachedEOS then t
      else (if t.current.Some? then HandOver(t) else t).(eosIssued := t.eosIssued + 1)
  }

  /** All bytes queued to the listener, in order. */
  ghost function DeliveredBytes(ds: seq<Delivery>): seq<byte>
  {
    if ds == [] then [] else DeliveredBytes(ds[..|ds| - 1]) + ds[|ds| - 1].bytes
  }

  ghost function CurrentBytes(s: State): seq<byte>
    requires InBounds(s)
  {
    if s.current.Some? then s.mem[s.current.value][..s.offset] else []
  }

  /** Each buffer is in exactly one of queue, current and listener. */
  ghost predicate Partitioned(s: State)
  {
    && NoDuplicates(s.queue)
    && (forall k :: 0 <= k < |s.queue| ==>
          s.queue[k] < |s.mem| && s.queue[k] !in s.held && s.current != Some(s.queue[k]))
    && (forall i <- s.held :: i < |s.mem| && s.current != Some(i))
    && (s.current.Some? ==> s.current.value < |s.mem|)
    && (forall i :: 0 <= i < |s.mem| ==> i in s.queue || i in s.held || s.current == Some(i))
  }

  /** A buffer with the listener still carries what it was queued with. */
  ghost predicate Undisturbed(s: State)
    requires Partitioned(s)
  {
    forall i <- s.held :: s.held[i] <= s.mem[i]
  }

  ghost predicate Inv(s: State)
  {
    && (forall i :: 0 <= i < |s.mem| ==> |s.mem[i]| > 0)
    && Partitioned(s)
    && Undisturbed(s)
    && (s.current.Some? ==> 0 < s.offset < |s.mem[s.current.value]|)
    && s.offered == DeliveredBytes(s.delivered) + CurrentBytes(s) + s.pending
  }

  /** Before the first write every buffer is with the listener and carries nothing. */
  ghost predicate Init(s: State)
  {
    && (forall i :: 0 <= i < |s.mem| ==> |s.mem[i]| > 0)
    && s.queue == [] && s.current == None
    && s.pending == [] && s.offered == [] && s.delivered == []
    && (forall i <- s.held :: i < |s.mem|)
    && (forall i :: 0 <= i < |s.mem| ==> i in s.held && s.held[i] == [])
  }

  lemma DeliveredBytesOne(ds: seq<Delivery>, d: Delivery)
    ensures DeliveredBytes(ds + [d]) == DeliveredBytes(ds) + d.bytes
  {
    assert (ds + [d])[..|ds|] == ds;
  }

  /** The invariant with the lock held: the current buffer may be empty or full. */
  ghost predicate InvLocked(s: State)
  {
    && (forall i :: 0 <= i < |s.mem| ==> |s.mem[i]| > 0)
    && Partitioned(s)
    && Undisturbed(s)
    && (s.current.Some? ==> s.offset <= |s.mem[s.current.value]|)
    && s.offered == DeliveredBytes(s.delivered) + CurrentBytes(s) + s.pending
  }

  lemma HandOverKeeps(s: State)
    requires InvLocked(s) && s.current.Some?
    ensures InvLocked(HandOver(s))
  {
    DeliveredBytesOne(s.delivered, Delivery(s.current.value, CurrentBytes(s)));
  }

  lemma AcquireKeeps(s: State)
    requires InvLocked(s) && (s.current.Some? || s.queue != [])
    requires s.current.Some? ==> s.offset < |s.mem[s.current.value]|
    ensures InvLocked(Acquire(s)) && Acquire(s).current.Some?
    ensures Acquire(s).offset < |Acquire(s).mem[Acquire(s).current.value]|
  {
    if s.current.None? {
      var t := Acquire(s);
      assert s.queue == [s.queue[0]] + s.queue[1..];
      assert forall i | i in s.queue :: i in t.queue || t.current == Some(i);
      assert CurrentBytes(t) == [] == CurrentBytes(s);
    }
  }

  lemma FillKeeps(s: State)
    requires InvLocked(s) && s.current.Some?
    ensures InvLocked(Fill(s)) && Fill(s).current == s.current
  {
    var t, n := Fill(s), ChunkSize(s);
    assert CurrentBytes(t) == CurrentBytes(s) + s.pending[..n];
    assert s.pending == s.pending[..n] + s.pending[n..];
  }

  lemma ChunkKeepsInv(s: State)
    requires Inv(s) && Enabled(s, CopyChunk)
    ensures Inv(Step(s, CopyChunk))
  {
    AcquireKeeps(s);
    FillKeeps(Acquire(s));
    var t := Fill(Acquire(s));
    if t.offset == |t.mem[t.current.value]| { HandOverKeeps(t); }
  }

  /** The state in which a returned buffer has joined the queue. */
  function Requeue(s: State, index: nat): State
  {
    s.(queue := s.queue + [index], held := s.held - {index})
  }

  lemma RequeueKeepsInv(s: State, index: nat)
    requires Inv(s) && index in s.held
    ensures Inv(Requeue(s, index))
  {
    var t := Requeue(s, index);
    assert t.queue[|s.queue|] == index;
    assert forall i | i in s.queue :: i in t.queue;
  }

  lemma ReturnKeepsInv(s: State, index: nat, reachedEOS: bool)
    requires Inv(s) && index in s.held
    ensures Enabled(s, BufferAvailable(index, reachedEOS))
    ensures Inv(Step(s, BufferAvailable(index, reachedEOS)))
  {
    RequeueKeepsInv(s, index);
    var t := Requeue(s, index);
    if reachedEOS && t.current.Some? { HandOverKeeps(t); }
  }

  lemma StepKeepsInv(s: State, e: Event)
    requires Inv(s) && Enabled(s, e)
    ensures Inv(Step(s, e))
  {
    match e
    case BeginWrite(data) =>
      assert s.offered + data == DeliveredBytes(s.delivered) + CurrentBytes(s) + data;
    case CopyChunk => ChunkKeepsInv(s);
    case BufferAvailable(index, reachedEOS) => ReturnKeepsInv(s, index, reachedEOS);
  }

  /** A legal interleaving of the writer and the listener. */
  ghost predicate LegalRun(s: State, run: seq<Event>)
    decreases |run|
  {
    run == [] || (InBounds(s) && Enabled(s, run[0]) && LegalRun(Step(s, run[0]), run[1..]))
  }

  ghost function Run(s: State, run: seq<Event>): State
    requires LegalRun(s, run)
    decreases |run|
  {
    if run == [] then s else Run(Step(s, run[0]), run[1..])
  }

  lemma {:induction false} RunKeepsInv(s: State, run: seq<Event>)
    requires Inv(s) && LegalRun(s, run)
    ensures Inv(Run(s, run))
    decreases |run|
  {
    if run != [] {
      StepKeepsInv(s, run[0]);
      RunKeepsInv(Step(s, run[0]), run[1..]);
    }
  }

  /**
   * In every interleaving: no byte is lost, repeated or reordered; each buffer has
   * one owner; what the listener holds is not overwritten; and with the lock free
   * a current buffer is partly filled.
   */
  lemma EveryInterleavingConservesBytes(s: State, run: seq<Event>)
    requires Init(s) && LegalRun(s, run)
    ensures
      var t := Run(s, run);
      && Partitioned(t) && Undisturbed(t)
      && (t.current.Some? ==> 0 < t.offset < |t.mem[t.current.value]|)
      && t.offered == DeliveredBytes(t.delivered) + CurrentBytes(t) + t.pending
  {
    RunKeepsInv(s, run);
  }

  lemma {:induction false} RunSnoc(s: State, run: seq<Event>, e: Event)
    requires LegalRun(s, run)
    requires InBounds(Run(s, run)) && Enabled(Run(s, run), e)
    ensures LegalRun(s, run + [e])
    ensures Run(s, run + [e]) == Step(Run(s, run), e)
    decreases |run|
  {
    if run == [] {
      assert run + [e] == [e] && [e][1..] == [];
      assert LegalRun(Step(s, e), []);
    } else {
      RunSnoc(Step(s, run[0]), run[1..], e);
      assert (run + [e])[1..] == run[1..] + [e];
    }
  }

  // What a run has done, in terms of its events alone

  ghost function OfferedBy(e: Event): seq<byte>
  {
    if e.BeginWrite? then e.data else []
  }

  ghost function ReturnedBy(e: Event): seq<nat>
  {
    if e.BufferAvailable? then [e.index] else []
  }

  predicate ReportsEnd(e: Event)
  {
    e.BufferAvailable? && e.reachedEOS
  }

  ghost function AllOffered(run: seq<Event>): seq<byte>
  {
    if run == [] then [] else OfferedBy(run[0]) + AllOffered(run[1..])
  }

  ghost function AllReturned(run: seq<Event>): seq<nat>
  {
    if run == [] then [] else ReturnedBy(run[0]) + AllReturned(run[1..])
  }

  ghost function EndReports(run: seq<Event>): nat
  {
    if run == [] then 0 else (if ReportsEnd(run[0]) then 1 else 0) + EndReports(run[1..])
  }

  ghost function Indices(ds: seq<Delivery>): seq<nat>
  {
    if ds == [] then [] else Indices(ds[..|ds| - 1]) + [ds[|ds| - 1].index]
  }

  lemma IndicesOne(ds: seq<Delivery>, d: Delivery)
    ensures Indices(ds + [d]) == Indices(ds) + [d.index]
  {
    assert (ds + [d])[..|ds|] == ds;
  }

  ghost function CurrentIndex(s: State): seq<nat>
  {
    if s.current.Some? then [s.current.value] else []
  }

  /** The buffers delivered, being filled and waiting, in the order of their use. */
  ghost function UseOrder(s: State): seq<nat>
  {
    Indices(s.delivered) + (CurrentIndex(s) + s.queue)
  }

  lemma HandOverOrder(s: State)
    requires InBounds(s) && s.current.Some?
    ensures UseOrder(HandOver(s)) == UseOrder(s)
  {
    IndicesOne(s.delivered, Delivery(s.current.value, s.mem[s.current.value][..s.offset]));
    assert Indices(s.delivered) + ([s.current.value] + s.queue)
        == (Indices(s.delivered) + [s.current.value]) + ([] + s.queue);
  }

  lemma AcquireOrder(s: State)
    requires InBounds(s) && (s.current.Some? || s.queue != [])
    ensures UseOrder(Acquire(s)) == UseOrder(s)
  {
    if s.current.None? {
      assert [] + s.queue == [s.queue[0]] + s.queue[1..];
    }
  }

  lemma RequeueOrder(s: State, index: nat)
    ensures UseOrder(Requeue(s, index)) == UseOrder(s) + [index]
  {
    assert Indices(s.delivered) + (CurrentIndex(s) + (s.queue + [index]))
        == (Indices(s.delivered) + (CurrentIndex(s) + s.queue)) + [index];
  }

  lemma StepOrder(s: State, e: Event)
    requires InBounds(s) && Enabled(s, e)
    ensures UseOrder(Step(s, e)) == UseOrder(s) + ReturnedBy(e)
  {
    match e
    case BeginWrite(_) =>
    case CopyChunk =>
      AcquireOrder(s);
      var t := Fill(Acquire(s));
      if t.offset == |t.mem[t.current.value]| { HandOverOrder(t); }
    case BufferAvailable(index, reachedEOS) =>
      RequeueOrder(s, index);
      var t := Requeue(s, index);
      if reachedEOS && t.current.Some? { HandOverOrder(t); }
  }

  lemma StepTallies(s: State, e: Event)
    requires InBounds(s) && Enabled(s, e)
    ensures
      var t := Step(s, e);
      && t.offered == s.offered + OfferedBy(e)
      && t.eosIssued == s.eosIssued + (if ReportsEnd(e) then 1 else 0)
      && (ReportsEnd(e) ==> t.current.None?)
  {
  }

  /**
   * In every interleaving: what was offered is what the writes gave, in order; buffers are
   * used in the order in which they were returned; and an end-of-stream command is issued
   * for exactly the returns at which the writer had reached its end.
   */
  lemma {:induction false} RunTallies(s: State, run: seq<Event>)
    requires LegalRun(s, run)
    ensures
      var t := Run(s, run);
      && t.offered == s.offered + AllOffered(run)
      && UseOrder(t) == UseOrder(s) + AllReturned(run)
      && t.eosIssued == s.eosIssued + EndReports(run)
    decreases |run|
  {
    if run != [] {
      var t := Step(s, run[0]);
      StepTallies(s, run[0]);
      StepOrder(s, run[0]);
      RunTallies(t, run[1..]);
      Regroup(s.offered, OfferedBy(run[0]), AllOffered(run[1..]));
      Regroup(UseOrder(s), ReturnedBy(run[0]), AllReturned(run[1..]));
    }
  }

  lemma Regroup<T>(a: seq<T>, b: seq<T>, c: seq<T>)
    ensures (a + b) + c == a + (b + c)
  {
  }

  ghost function Sizes(mem: seq<seq<byte>>): seq<nat>
  {
    seq(|mem|, i requires 0 <= i < |mem| => |mem[i]|)
  }

  /** How many buffers were queued without being full. */
  ghost function Short(sizes: seq<nat>, ds: seq<Delivery>): nat
  {
    if ds == [] then 0
    else
      var d := ds[|ds| - 1];
      Short(sizes, ds[..|ds| - 1]) + if d.index < |sizes| && |d.bytes| == sizes[d.index] then 0 else 1
  }

  lemma ShortOne(sizes: seq<nat>, ds: seq<Delivery>, d: Delivery)
    ensures Short(sizes, ds + [d])
         == Short(sizes, ds) + if d.index < |sizes| && |d.bytes| == sizes[d.index] then 0 else 1
  {
    assert (ds + [d])[..|ds|] == ds;
  }

  lemma HandOverShort(s: State)
    requires InBounds(s) && s.current.Some?
    ensures Short(Sizes(s.mem), HandOver(s).delivered)
         == Short(Sizes(s.mem), s.delivered) + if s.offset == |s.mem[s.current.value]| then 0 else 1
  {
    ShortOne(Sizes(s.mem), s.delivered, Delivery(s.current.value, s.mem[s.current.value][..s.offset]));
  }

  lemma StepShort(s: State, e: Event)
    requires InBounds(s) && Enabled(s, e)
    ensures
      var t, sizes := Step(s, e), Sizes(s.mem);
      && Sizes(t.mem) == sizes
      && Short(sizes, t.delivered) <= Short(sizes, s.delivered) + if ReportsEnd(e) then 1 else 0
  {
    match e
    case BeginWrite(_) =>
    case CopyChunk =>
      var t := Fill(Acquire(s));
      assert Sizes(t.mem) == Sizes(s.mem);
      if t.offset == |t.mem[t.current.value]| { HandOverShort(t); }
    case BufferAvailable(index, reachedEOS) =>
      var t := Requeue(s, index);
      if reachedEOS && t.current.Some? { HandOverShort(t); }
  }

  /** In every interleaving a buffer is queued before it is full only where the end is reported. */
  lemma {:induction false} ShortOnlyAtEnd(s: State, run: seq<Event>)
    requires LegalRun(s, run)
    ensures Short(Sizes(s.mem), Run(s, run).delivered) <= Short(Sizes(s.mem), s.delivered) + EndReports(run)
    decreases |run|
  {
    if run != [] {
      StepShort(s, run[0]);
      ShortOnlyAtEnd(Step(s, run[0]), run[1..]);
    }
  }

  lemma NoneCurrent(t: State)
    requires Inv(t) && t.current.None?
    ensures t.offered == DeliveredBytes(t.delivered) + t.pending
  {
    assert DeliveredBytes(t.delivered) + [] == DeliveredBytes(t.delivered);
  }

  lemma EndStep(u: State, e: Event)
    requires Inv(u) && Enabled(u, e) && ReportsEnd(e)
    ensures
      var t := Step(u, e);
      && t.current.None? && t.eosIssued == u.eosIssued + 1 && t.offered == u.offered
      && t.offered == DeliveredBytes(t.delivered) + t.pending
  {
    StepTallies(u, e);
    assert u.offered + [] == u.offered;
    StepKeepsInv(u, e);
    NoneCurrent(Step(u, e));
  }

  lemma ReachedInv(s: State, run: seq<Event>)
    requires Init(s) && LegalRun(s, run)
    ensures Inv(Run(s, run)) && s.offered == []
  {
    RunKeepsInv(s, run);
  }

  /**
   * Whenever the end of the stream is reported, everything copied so far has been delivered
   * before: nothing is left in a partly filled buffer.
   */
  lemma EverythingDeliveredAtEnd(s: State, run: seq<Event>, e: Event)
    requires Init(s) && LegalRun(s, run) && Enabled(Run(s, run), e) && ReportsEnd(e)
    ensures Inv(Run(s, run))
    ensures
      var t := Step(Run(s, run), e);
      && t.current.None?
      && AllOffered(run) == DeliveredBytes(t.delivered) + t.pending
      && t.eosIssued == s.eosIssued + EndReports(run) + 1
  {
    ReachedInv(s, run);
    OfferedSoFar(s, run);
    EndStep(Run(s, run), e);
  }

  lemma OfferedSoFar(s: State, run: seq<Event>)
    requires LegalRun(s, run) && s.offered == []
    ensures Run(s, run).offered == AllOffered(run) && Run(s, run).eosIssued == s.eosIssued + EndReports(run)
  {
    RunTallies(s, run);
    assert [] + AllOffered(run) == AllOffered(run);
  }

  // A whole write, with the listener's returns between its chunks

  /** The listener returns a buffer, if it holds it. */
  ghost function Offer(s: State, buffer: (nat, bool)): (t: State)
    requires Inv(s)
    ensures Inv(t) && t.pending == s.pending && t.offered == s.offered
  {
    if buffer.0 in s.held then
      StepKeepsInv(s, BufferAvailable(buffer.0, buffer.1));
      Step(s, BufferAvailable(buffer.0, buffer.1))
    else s
  }

  ghost function OfferAll(s: State, buffers: seq<(nat, bool)>): (t: State)
    requires Inv(s)
    ensures Inv(t) && t.pending == s.pending && t.offered == s.offered
    decreases |buffers|
  {
    if buffers == [] then s else OfferAll(Offer(s, buffers[0]), buffers[1..])
  }

  /** One chunk, if there is a buffer for it. */
  ghost function TryChunk(s: State): (t: State)
    requires Inv(s) && s.pending != []
    ensures Inv(t) && t.offered == s.offered
    ensures |t.pending| <= |s.pending| && (Enabled(s, CopyChunk) ==> |t.pending| < |s.pending|)
  {
    if Enabled(s, CopyChunk) then
      ChunkKeepsInv(s);
      Step(s, CopyChunk)
    else s
  }

  /** The first of the rounds in which buffers are offered. */
  ghost function Round(schedule: seq<seq<(nat, bool)>>): seq<(nat, bool)>
  {
    if schedule == [] then [] else schedule[0]
  }

  ghost function Later(schedule: seq<seq<(nat, bool)>>): seq<seq<(nat, bool)>>
  {
    if schedule == [] then [] else schedule[1..]
  }

  /** Rounds of returns, and after each a chunk, until all is copied or there is neither buffer nor round left. */
  ghost function WriteOut(s: State, schedule: seq<seq<(nat, bool)>>): (t: State)
    requires Inv(s)
    ensures Inv(t) && t.offered == s.offered
    ensures t.pending != [] ==> t.current.None? && t.queue == []
    decreases |s.pending| + |schedule|
  {
    if s.pending == [] then s
    else
      var u := OfferAll(s, Round(schedule));
      if !Enabled(u, CopyChunk) && Later(schedule) == [] then u else WriteOut(TryChunk(u), Later(schedule))
  }

  lemma {:induction false} OfferAllIsRun(start: State, before: seq<Event>, s: State, buffers: seq<(nat, bool)>)
    returns (run: seq<Event>)
    requires LegalRun(start, before) && Run(start, before) == s && Inv(s)
    ensures LegalRun(start, run) && Run(start, run) == OfferAll(s, buffers)
    decreases |buffers|
  {
    run := before;
    if buffers != [] {
      var (index, reachedEOS) := buffers[0];
      if index in s.held {
        RunSnoc(start, before, BufferAvailable(index, reachedEOS));
        run := before + [BufferAvailable(index, reachedEOS)];
      }
      run := OfferAllIsRun(start, run, Offer(s, buffers[0]), buffers[1..]);
    }
  }

  /** A whole write is a legal run: the invariant and the theorems above hold of it. */
  lemma {:induction false} WriteOutIsRun(
    start: State, before: seq<Event>, s: State, schedule: seq<seq<(nat, bool)>>) returns (run: seq<Event>)
    requires LegalRun(start, before) && Run(start, before) == s && Inv(s)
    ensures LegalRun(start, run) && Run(start, run) == WriteOut(s, schedule)
    decreases |s.pending| + |schedule|
  {
    run := before;
    if s.pending != [] {
      var u := OfferAll(s, Round(schedule));
      run := OfferAllIsRun(start, before, s, Round(schedule));
      if Enabled(u, CopyChunk) {
        RunSnoc(start, run, CopyChunk);
        run := WriteOutIsRun(start, run + [CopyChunk], TryChunk(u), Later(schedule));
      } else if Later(schedule) != [] {
        run := WriteOutIsRun(start, run, u, Later(schedule));
      }
    }
  }

  /** The source object.  The listener's side is kept in the fields after the blank line. */
  class MyConvertingStreamSource {
    var mBuffers: seq<seq<byte>>
    var mBufferQueue: seq<nat>
    var mCurrentBufferIndex: int
    var mCurrentBufferOffset: nat

    var listenerHeld: map<nat, seq<byte>>
    var listenerQueued: seq<Delivery>
    var eosIssued: nat
    ghost var pending: seq<byte>
    ghost var offered: seq<byte>

    ghost function View(): State
      reads this
    {
      State(mBuffers, mBufferQueue,
            if mCurrentBufferIndex < 0 then None else Some(mCurrentBufferIndex),
            mCurrentBufferOffset, pending, offered, listenerQueued, listenerHeld, eosIssued)
    }

    constructor (buffers: seq<seq<byte>>)
      requires forall i :: 0 <= i < |buffers| ==> |buffers[i]| > 0
      ensures Init(View()) && mBuffers == buffers
    {
      mBuffers, mBufferQueue := buffers, [];
      mCurrentBufferIndex, mCurrentBufferOffset := -1, 0;
      listenerHeld, listenerQueued, eosIssued := map i | 0 <= i < |buffers| :: buffers[i][..0], [], 0;
      pending, offered := [], [];
    }

    /** The listener receives a buffer. */
    method QueueBuffer(index: nat, size: nat)
      requires index < |mBuffers| && size <= |mBuffers[index]|
      modifies this`listenerHeld, this`listenerQueued
      ensures listenerHeld == old(listenerHeld)[index := mBuffers[index][..size]]
      ensures listenerQueued == old(listenerQueued) + [Delivery(index, mBuffers[index][..size])]
    {
      var bytes := mBuffers[index][..size];
      listenerQueued := listenerQueued + [Delivery(index, bytes)];
      listenerHeld := listenerHeld[index := bytes];
    }

    method OnBufferAvailable(index: nat, reachedEOS: bool)
      requires Inv(View()) && index in listenerHeld
      modifies this
      ensures View() == Step(old(View()), BufferAvailable(index, reachedEOS))
      ensures Inv(View())
    {
      StepKeepsInv(View(), BufferAvailable(index, reachedEOS));
      listenerHeld := listenerHeld - {index};
      mBufferQueue := mBufferQueue + [index];
      if reachedEOS {
        if mCurrentBufferIndex >= 0 {
          QueueBuffer(mCurrentBufferIndex, mCurrentBufferOffset);
          mCurrentBufferIndex := -1;
        }
        eosIssued := eosIssued + 1;
      }
    }

    /** One locked section of the write loop; copies a non-empty prefix of `data`. */
    method WriteChunk(data: seq<byte>) returns (copy: nat)
      requires HasRoom(View()) && data == pending != []
      requires mCurrentBufferIndex >= 0 || mBufferQueue != []
      modifies this
      ensures View() == Step(old(View()), CopyChunk)
      ensures 0 < copy <= |data| && pending == data[copy..] && offered == old(offered)
    {
      AcquireBuffer();
      copy := CopyIntoCurrent(data);
      if mCurrentBufferOffset == |mBuffers[mCurrentBufferIndex]| {
        QueueBuffer(mCurrentBufferIndex, mCurrentBufferOffset);
        mCurrentBufferIndex := -1;
      }
    }

    /** Makes sure of a current buffer. */
    method AcquireBuffer()
      requires InBounds(View()) && (mCurrentBufferIndex >= 0 || mBufferQueue != [])
      modifies this`mCurrentBufferIndex, this`mCurrentBufferOffset, this`mBufferQueue
      ensures View() == Acquire(old(View()))
    {
      if mCurrentBufferIndex < 0 {
        mCurrentBufferIndex := mBufferQueue[0];
        mCurrentBufferOffset := 0;
        mBufferQueue := mBufferQueue[1..];
      }
    }

    /** Copies what fits into the current buffer. */
    method CopyIntoCurrent(data: seq<byte>) returns (copy: nat)
      requires InBounds(View()) && mCurrentBufferIndex >= 0 && data == pending
      modifies this`mBuffers, this`mCurrentBufferOffset, this`pending
      ensures View() == Fill(old(View())) && copy == ChunkSize(old(View()))
    {
      var mem := mBuffers[mCurrentBufferIndex];
      copy := |data|;
      if copy + mCurrentBufferOffset > |mem| {
        copy := |mem| - mCurrentBufferOffset;
      }
      mBuffers := mBuffers[mCurrentBufferIndex := Splice(mem, mCurrentBufferOffset, data[..copy])];
      mCurrentBufferOffset := mCurrentBufferOffset + copy;
      pending := data[copy..];
    }

    /**
     * A whole write.  `schedule[k]` lists the buffers the listener tries to return (with
     * the writer's end-of-stream flag as they do) before the k-th time the writer looks at
     * the shared state; when the schedule ends with no buffer to fill, the writer stays blocked.
     */
    method WriteData(data: seq<byte>, schedule: seq<seq<(nat, bool)>>) returns (totalWritten: nat)
      requires Inv(View()) && pending == []
      modifies this
      ensures Inv(Step(old(View()), BeginWrite(data)))
      ensures View() == WriteOut(Step(old(View()), BeginWrite(data)), schedule)
      ensures totalWritten + |pending| == |data|
      ensures Inv(View()) && offered == old(offered) + data
      ensures pending != [] ==> mCurrentBufferIndex < 0 && mBufferQueue == []
    {
      StepKeepsInv(View(), BeginWrite(data));
      pending, offered := data, offered + data;
      ghost var start := View();
      totalWritten := 0;
      var k, rest := 0, data;
      while rest != []
        invariant k <= |schedule|
        invariant Inv(View()) && pending == rest
        invariant totalWritten + |rest| == |data|
        invariant WriteOut(View(), schedule[k..]) == WriteOut(start, schedule)
        decreases |rest| + |schedule| - k
      {
        ghost var left := schedule[k..];
        if k < |schedule| {
          Returns(schedule[k]);
          k := k + 1;
        }
        assert schedule[k..] == Later(left);
        var copy := TryWriteChunk(rest);
        if copy == 0 && k == |schedule| {
          return;
        }
        rest := rest[copy..];
        totalWritten := totalWritten + copy;
      }
    }

    /** The writer looks for a buffer and copies a chunk if there is one. */
    method TryWriteChunk(data: seq<byte>) returns (copy: nat)
      requires Inv(View()) && data == pending != []
      modifies this
      ensures View() == TryChunk(old(View()))
      ensures copy <= |data| && pending == data[copy..]
      ensures copy == 0 <==> !Enabled(old(View()), CopyChunk)
    {
      copy := 0;
      if mCurrentBufferIndex >= 0 || mBufferQueue != [] {
        copy := WriteChunk(data);
      }
    }

    /** The listener returns those of the given buffers that it holds. */
    method Returns(buffers: seq<(nat, bool)>)
      requires Inv(View())
      modifies this
      ensures View() == OfferAll(old(View()), buffers)
    {
      ghost var start := View();
      for j := 0 to |buffers|
        invariant Inv(View()) && OfferAll(View(), buffers[j..]) == OfferAll(start, buffers)
      {
        var (index, reachedEOS) := buffers[j];
        assert buffers[j..][1..] == buffers[j + 1..];
        if index in listenerHeld {
          OnBufferAvailable(index, reachedEOS);
        }
      }
    }
  }
}
