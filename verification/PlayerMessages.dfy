/**
 * The message protocol of the stagefright SimplePlayer: API requests and self-posted
 * work messages reach one handler in any order.  A work message carries the generation
 * it was posted in and is ignored once the player has moved on.
 */
module PlayerMessages {

  datatype PlayState = UNINITIALIZED | UNPREPARED | STOPPED | STARTED

  const OK := 0
  const INVALID_OPERATION := -38

  /** One execution of the work function: the state and generation it ran in. */
  datatype Work = Work(state: PlayState, generation: int)

  datatype State = State(
    state: PlayState,
    generation: int,
    pending: multiset<int>,   // generations of the work messages in the looper
    extractor: bool,          // whether there is a data source to read from
    worked: seq<Work>         // every execution of the work function
  )

  /**
   * What the handler may receive.  `prepared` is the outcome of opening the source, were
   * it opened now; `unset` is what an uninitialised status variable happens to hold.
   */
  datatype Message =
    | SetDataSource(unset: int)
    | SetSurface
    | Prepare(prepared: int)
    | Start(prepared: int)
    | Stop
    | Reset
    | DoMoreStuff(generation: int)

  function Init(): State
  {
    State(UNINITIALIZED, 0, multiset{}, false, [])
  }

  /** Work messages are delivered only if they were posted; requests may come at any time. */
  predicate Enabled(s: State, m: Message)
  {
    m.DoMoreStuff? ==> m.generation in s.pending
  }

  /** A state and the status replied to the sender. */
  datatype Outcome = Outcome(next: State, reply: int)

  function OnPrepare(s: State, prepared: int): Outcome
  {
    if prepared == OK then Outcome(s.(state := STOPPED, extractor := true), OK)
    else Outcome(s.(extractor := false), prepared)
  }

  function OnStart(s: State): Outcome
  {
    if s.state != STOPPED then Outcome(s, INVALID_OPERATION)
    else
      var g := s.generation + 1;
      Outcome(s.(state := STARTED, generation := g, pending := s.pending + multiset{g}), OK)
  }

  function OnStop(s: State): State
  {
    s.(state := STOPPED, generation := s.generation + 1)
  }

  function Step(s: State, m: Message): Outcome
    requires Enabled(s, m)
  {
    match m
    case SetDataSource(unset) =>
      if s.state != UNINITIALIZED then Outcome(s, INVALID_OPERATION)
      else Outcome(s.(state := UNPREPARED), unset)
    case SetSurface =>
      Outcome(s, if s.state != UNPREPARED then INVALID_OPERATION else OK)
    case Prepare(prepared) =>
      if s.state != UNPREPARED then Outcome(s, INVALID_OPERATION) else OnPrepare(s, prepared)
    case Start(prepared) =>
      var p := if s.state == UNPREPARED then OnPrepare(s, prepared) else Outcome(s, OK);
      if p.reply != OK then p else OnStart(p.next)
    case Stop =>
      if s.state != STARTED then Outcome(s, INVALID_OPERATION) else Outcome(OnStop(s), OK)
    case Reset =>
      var t := if s.state == STARTED then OnStop(s) else s;
      Outcome(if t.state == STOPPED then t.(state := UNINITIALIZED, extractor := false) else t, OK)
    case DoMoreStuff(generation) =>
      if generation != s.generation then Outcome(s.(pending := s.pending - multiset{generation}), OK)
      else Outcome(s.(worked := s.worked + [Work(s.state, s.generation)]), OK)
  }

  /** Exactly one live work message when started, none otherwise, and work only ever ran when started. */
  ghost predicate Inv(s: State)
  {
    && s.pending[s.generation] == (if s.state == STARTED then 1 else 0)
    && (forall g <- s.pending :: g <= s.generation)
    && (s.extractor <==> s.state == STOPPED || s.state == STARTED)
    && (forall i :: 0 <= i < |s.worked| ==> s.worked[i].state == STARTED)
    && (forall i :: 0 <= i < |s.worked| ==> s.worked[i].generation <= s.generation)
  }

  lemma PrepareKeepsInv(s: State, prepared: int)
    requires Inv(s) && s.state == UNPREPARED
    ensures Inv(OnPrepare(s, prepared).next)
  {
  }

  lemma StartKeepsInv(s: State)
    requires Inv(s)
    ensures Inv(OnStart(s).next)
  {
    assert s.generation + 1 !in s.pending;
  }

  lemma StopKeepsInv(s: State)
    requires Inv(s) && s.state == STARTED
    ensures Inv(OnStop(s))
  {
    assert s.generation + 1 !in s.pending;
  }

  lemma WorkKeepsInv(s: State, generation: int)
    requires Inv(s) && Enabled(s, DoMoreStuff(generation))
    ensures Inv(Step(s, DoMoreStuff(generation)).next)
  {
    if generation != s.generation {
      var p := s.pending - multiset{generation};
      assert p[s.generation] == s.pending[s.generation];
      assert forall g <- p :: g in s.pending;
    } else {
      assert s.state == STARTED;
    }
  }

  lemma StepKeepsInv(s: State, m: Message)
    requires Inv(s) && Enabled(s, m)
    ensures Inv(Step(s, m).next)
  {
    match m
    case SetDataSource(_) =>
    case SetSurface =>
    case Prepare(prepared) =>
      if s.state == UNPREPARED { PrepareKeepsInv(s, prepared); }
    case Start(prepared) =>
      if s.state == UNPREPARED { PrepareKeepsInv(s, prepared); }
      StartKeepsInv(if s.state == UNPREPARED then OnPrepare(s, prepared).next else s);
    case Stop =>
      if s.state == STARTED { StopKeepsInv(s); }
    case Reset =>
      if s.state == STARTED { StopKeepsInv(s); }
    case DoMoreStuff(generation) => WorkKeepsInv(s, generation);
  }

  /** A delivery order of requests and timers. */
  ghost predicate LegalRun(s: State, run: seq<Message>)
    decreases |run|
  {
    run == [] || (Enabled(s, run[0]) && LegalRun(Step(s, run[0]).next, run[1..]))
  }

  ghost function Run(s: State, run: seq<Message>): State
    requires LegalRun(s, run)
    decreases |run|
  {
    if run == [] then s else Run(Step(s, run[0]).next, run[1..])
  }

  lemma {:induction false} RunKeepsInv(s: State, run: seq<Message>)
    requires Inv(s) && LegalRun(s, run)
    ensures Inv(Run(s, run))
    decreases |run|
  {
    if run != [] {
      StepKeepsInv(s, run[0]);
      RunKeepsInv(Step(s, run[0]).next, run[1..]);
    }
  }

  /**
   * In every order of requests and timers: one live work message exactly while started,
   * work runs only then and only with a source to read from.
   */
  lemma OneWorkLoop(run: seq<Message>)
    requires LegalRun(Init(), run)
    ensures
      var s := Run(Init(), run);
      && s.pending[s.generation] == (if s.state == STARTED then 1 else 0)
      && (forall i :: 0 <= i < |s.worked| ==> s.worked[i].state == STARTED)
      && (s.state == STARTED ==> s.extractor)
  {
    RunKeepsInv(Init(), run);
  }

  // How many work messages there are

  ghost predicate Starting(s: State, m: Message)
    requires Enabled(s, m)
  {
    s.state != STARTED && Step(s, m).next.state == STARTED
  }

  ghost predicate Stopping(s: State, m: Message)
    requires Enabled(s, m)
  {
    s.state == STARTED && Step(s, m).next.state != STARTED
  }

  ghost predicate Stale(s: State, m: Message)
  {
    m.DoMoreStuff? && m.generation != s.generation
  }

  ghost function Starts(s: State, run: seq<Message>): nat
    requires LegalRun(s, run)
    decreases |run|
  {
    if run == [] then 0
    else (if Starting(s, run[0]) then 1 else 0) + Starts(Step(s, run[0]).next, run[1..])
  }

  ghost function Stops(s: State, run: seq<Message>): nat
    requires LegalRun(s, run)
    decreases |run|
  {
    if run == [] then 0
    else (if Stopping(s, run[0]) then 1 else 0) + Stops(Step(s, run[0]).next, run[1..])
  }

  ghost function StaleDeliveries(s: State, run: seq<Message>): nat
    requires LegalRun(s, run)
    decreases |run|
  {
    if run == [] then 0
    else (if Stale(s, run[0]) then 1 else 0) + StaleDeliveries(Step(s, run[0]).next, run[1..])
  }

  /** A stale work message disappears without work and without being posted again. */
  lemma StaleMessageDies(s: State, generation: int)
    requires Enabled(s, DoMoreStuff(generation)) && generation != s.generation
    ensures
      var t := Step(s, DoMoreStuff(generation)).next;
      t.worked == s.worked && t.state == s.state && |t.pending| == |s.pending| - 1
  {
  }

  lemma PendingStep(s: State, m: Message)
    requires Enabled(s, m)
    ensures |Step(s, m).next.pending| + (if Stale(s, m) then 1 else 0)
         == |s.pending| + (if Starting(s, m) then 1 else 0)
  {
    if Stale(s, m) { StaleMessageDies(s, m.generation); }
  }

  /** Each start posts exactly one message, and each goes with its one stale delivery. */
  lemma {:induction false} LoopsOnlyFromStarts(s: State, run: seq<Message>)
    requires LegalRun(s, run)
    ensures |Run(s, run).pending| + StaleDeliveries(s, run) == |s.pending| + Starts(s, run)
    decreases |run|
  {
    if run != [] {
      PendingStep(s, run[0]);
      LoopsOnlyFromStarts(Step(s, run[0]).next, run[1..]);
    }
  }

  lemma {:induction false} StartsAndStops(s: State, run: seq<Message>)
    requires LegalRun(s, run)
    ensures (if s.state == STARTED then 1 else 0) + Starts(s, run)
         == (if Run(s, run).state == STARTED then 1 else 0) + Stops(s, run)
    decreases |run|
  {
    if run != [] {
      StartsAndStops(Step(s, run[0]).next, run[1..]);
    }
  }

  /**
   * Every stop leaves exactly one stale message behind, which is gone after its one
   * delivery: the stale messages still pending are the stops less the stale deliveries.
   */
  lemma StaleMessagesGo(run: seq<Message>)
    requires LegalRun(Init(), run)
    ensures
      var s := Run(Init(), run);
      |s.pending| - s.pending[s.generation] == Stops(Init(), run) - StaleDeliveries(Init(), run)
  {
    RunKeepsInv(Init(), run);
    LoopsOnlyFromStarts(Init(), run);
    StartsAndStops(Init(), run);
  }

  // Which requests do something

  /** Opening the source at this message would succeed. */
  predicate Opens(m: Message)
  {
    (m.Prepare? || m.Start?) && m.prepared == OK
  }

  /** The requests that move a player in that state; `Target` is where to. */
  predicate Moves(state: PlayState, m: Message)
  {
    match state
    case UNINITIALIZED => m.SetDataSource?
    case UNPREPARED => Opens(m)
    case STOPPED => m.Start? || m.Reset?
    case STARTED => m.Stop? || m.Reset?
  }

  function Target(m: Message): PlayState
  {
    match m
    case SetDataSource(_) => UNPREPARED
    case Start(_) => STARTED
    case Reset => UNINITIALIZED
    case _ => STOPPED
  }

  /** The state after a run, from its requests alone. */
  ghost function StateAfter(state: PlayState, run: seq<Message>): PlayState
    decreases |run|
  {
    if run == [] then state
    else StateAfter(if Moves(state, run[0]) then Target(run[0]) else state, run[1..])
  }

  ghost function WorkDeliveries(run: seq<Message>): nat
  {
    if run == [] then 0 else (if run[0].DoMoreStuff? then 1 else 0) + WorkDeliveries(run[1..])
  }

  lemma RequestStep(s: State, m: Message)
    requires Enabled(s, m)
    ensures
      var t := Step(s, m).next;
      && t.state == (if Moves(s.state, m) then Target(m) else s.state)
      && t.generation == s.generation + (if Starting(s, m) then 1 else 0) + (if Stopping(s, m) then 1 else 0)
      && |t.worked| + (if Stale(s, m) then 1 else 0) == |s.worked| + (if m.DoMoreStuff? then 1 else 0)
  {
  }

  /**
   * Through any run the player is in the state its requests alone lead to, each start and stop
   * opens a generation, and the work function has run once for each work message delivered in
   * the generation it was posted in.
   */
  lemma {:induction false} RunFollowsRequests(s: State, run: seq<Message>)
    requires LegalRun(s, run)
    ensures
      var t := Run(s, run);
      && t.state == StateAfter(s.state, run)
      && t.generation == s.generation + Starts(s, run) + Stops(s, run)
      && |t.worked| + StaleDeliveries(s, run) == |s.worked| + WorkDeliveries(run)
    decreases |run|
  {
    if run != [] {
      RequestStep(s, run[0]);
      RunFollowsRequests(Step(s, run[0]).next, run[1..]);
    }
  }

  /** A request that moves nothing leaves a player as it was and is refused, or answered with what opening gave. */
  lemma RefusedLeavesAlone(s: State, m: Message)
    requires Inv(s) && Enabled(s, m) && !Moves(s.state, m) && !m.DoMoreStuff?
    ensures Step(s, m).next == s
    ensures !m.SetSurface? && !m.Reset? ==>
      Step(s, m).reply == if s.state == UNPREPARED && (m.Prepare? || m.Start?) then m.prepared else INVALID_OPERATION
  {
  }

  // What replies tell

  /** The request had its effect: the player has moved to the state the request is for. */
  ghost predicate Succeeded(s: State, m: Message)
    requires Enabled(s, m) && !m.DoMoreStuff?
  {
    var t := Step(s, m).next;
    match m
    case SetDataSource(_) => t.state == UNPREPARED != s.state
    case SetSurface => t.state == UNPREPARED
    case Prepare(_) => t.state == STOPPED != s.state
    case Start(_) => t.state == STARTED != s.state
    case Stop => t.state == STOPPED != s.state
    case Reset => t.state == UNINITIALIZED
  }

  /** The same request, with the uninitialised variable holding something else. */
  function Holding(m: Message, unset: int): Message
  {
    if m.SetDataSource? then SetDataSource(unset) else m
  }

  ghost predicate TellsSuccess(s: State, m: Message)
    requires Enabled(s, m) && !m.DoMoreStuff?
  {
    Step(s, m).reply == OK <==> Succeeded(s, m)
  }

  /** Replies of OK and success coincide whatever an uninitialised variable holds. */
  ghost predicate Reliable(s: State, m: Message)
    requires Enabled(s, m) && !m.DoMoreStuff?
  {
    forall unset :: TellsSuccess(s, Holding(m, unset))
  }

  /**
   * In every state a reply can be relied on if and only if the request is neither
   * setDataSource to an uninitialized player, whose reply is never set, nor reset of an
   * unprepared one, which is answered with OK and does nothing.
   */
  lemma ReplyTellsSuccess(s: State, m: Message)
    requires !m.DoMoreStuff?
    ensures Reliable(s, m)
      <==> !(m.SetDataSource? && s.state == UNINITIALIZED) && !(m.Reset? && s.state == UNPREPARED)
  {
    if m.SetDataSource? && s.state == UNINITIALIZED {
      assert !TellsSuccess(s, Holding(m, INVALID_OPERATION));
    } else if m.Reset? && s.state == UNPREPARED {
      assert !TellsSuccess(s, Holding(m, OK));
    }
  }

  /** A player that took its source yet replied with a failure. */
  lemma SetDataSourceReplyUnset()
    ensures
      var o := Step(Init(), SetDataSource(-1));
      o.next.state == UNPREPARED && o.reply != OK
  {
  }

  ghost predicate StaysUnprepared(s: State, run: seq<Message>)
    requires LegalRun(s, run)
    decreases |run|
  {
    s.state == UNPREPARED && (run == [] || StaysUnprepared(Step(s, run[0]).next, run[1..]))
  }

  /**
   * An unprepared player stays that way through any requests, reset included, if and only if
   * its source is never opened: a source that cannot be opened can never be replaced.
   */
  lemma {:induction false} UnpreparedIsStuck(s: State, run: seq<Message>)
    requires LegalRun(s, run) && s.state == UNPREPARED
    ensures StaysUnprepared(s, run) <==> forall k :: 0 <= k < |run| ==> !Opens(run[k])
    decreases |run|
  {
    if run != [] {
      var t := Step(s, run[0]).next;
      assert t.state == UNPREPARED <==> !Opens(run[0]);
      if t.state == UNPREPARED {
        UnpreparedIsStuck(t, run[1..]);
        assert forall k :: 0 < k < |run| ==> run[k] == run[1..][k - 1];
        assert forall k :: 0 <= k < |run| - 1 ==> run[1..][k] == run[k + 1];
      }
    }
  }

  /** A reset that is answered with OK and leaves the player holding its source, refusing another. */
  lemma ResetKeepsSource()
    ensures
      var s := Step(Init(), SetDataSource(OK)).next;
      && Step(s, Reset).reply == OK && Step(s, Reset).next == s
      && Step(Step(s, Reset).next, SetDataSource(OK)).reply == INVALID_OPERATION
  {
  }
}
