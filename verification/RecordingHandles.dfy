/**
 * Recording frame handles on their way from the camera service through the app to a
 * recorder and back.  A handle is duplicated by every parcel that carries it, so each
 * process closes its own copy once it has passed the frame on.
 */
module RecordingHandles {
  import opened Common

  /** The four binder calls that carry handles. */
  datatype Channel = ToApp | ToRecorder | ToProxy | ToService

  /** Who is responsible for a copy, up to its being duplicated into a parcel and closed. */
  datatype Place =
    | Arrived          // app: just read from the service's call
    | ForRecorder      // app: a proxy listener was found
    | NoProxy          // app: no proxy listener was found
    | WithListener     // app: handed to the plain listener
    | Unwanted         // app: there was no listener at all
    | WithRecorder     // recorder: handed to the proxy listener
    | Relaying         // app: read from the recorder's release
    | Sent             // duplicated into a parcel, still to be closed
    | Closed
    | Leaked           // released when the camera was gone: nobody closes it any more

  /** A process-local copy of a frame's handle. */
  datatype Copy = Copy(frame: nat, place: Place)

  datatype Parcel = Parcel(channel: Channel, frames: seq<nat>)

  datatype State = State(
    copies: seq<Copy>,         // every copy ever made in the app and the recorder
    closes: seq<nat>,          // every close call, by copy
    parcels: seq<Parcel>,      // calls under way
    sent: seq<nat>,            // every frame the service has handed out
    returned: seq<nat>,        // every frame the service has got back
    proxyListener: bool,
    listener: bool,
    connected: bool            // whether the app still has its camera
  )

  function Init(): State
  {
    State([], [], [], [], [], false, false, true)
  }

  /** Distinct copies, all at the given place. */
  predicate At(copies: seq<Copy>, ids: seq<nat>, place: Place)
  {
    && (forall i, j :: 0 <= i < j < |ids| ==> ids[i] != ids[j])
    && (forall k :: 0 <= k < |ids| ==> ids[k] < |copies| && copies[ids[k]].place == place)
  }

  function FramesOf(copies: seq<Copy>, ids: seq<nat>): (frames: seq<nat>)
    requires forall k :: 0 <= k < |ids| ==> ids[k] < |copies|
    ensures |frames| == |ids|
  {
    seq(|ids|, k requires 0 <= k < |ids| => copies[ids[k]].frame)
  }

  /** The copies with some of them moved to another place. */
  function Moved(copies: seq<Copy>, ids: seq<nat>, place: Place): (r: seq<Copy>)
    requires forall k :: 0 <= k < |ids| ==> ids[k] < |copies|
    ensures |r| == |copies|
  {
    if ids == [] then copies else
      var r := Moved(copies, ids[..|ids| - 1], place);
      var id := ids[|ids| - 1];
      r[id := r[id].(place := place)]
  }

  function NewCopies(frames: seq<nat>, place: Place): (r: seq<Copy>)
    ensures |r| == |frames|
  {
    seq(|frames|, k requires 0 <= k < |frames| => Copy(frames[k], place))
  }

  // ---- the four kinds of step ----

  function Move(s: State, ids: seq<nat>, place: Place): State
    requires forall k :: 0 <= k < |ids| ==> ids[k] < |s.copies|
  {
    s.(copies := Moved(s.copies, ids, place))
  }

  /** The copies are duplicated into a parcel. */
  function Send(s: State, ids: seq<nat>, channel: Channel): State
    requires forall k :: 0 <= k < |ids| ==> ids[k] < |s.copies|
  {
    s.(copies := Moved(s.copies, ids, Sent),
       parcels := s.parcels + [Parcel(channel, FramesOf(s.copies, ids))])
  }

  function Close(s: State, ids: seq<nat>): State
    requires forall k :: 0 <= k < |ids| ==> ids[k] < |s.copies|
  {
    s.(copies := Moved(s.copies, ids, Closed), closes := s.closes + ids)
  }

  function Without(parcels: seq<Parcel>, k: nat): seq<Parcel>
    requires k < |parcels|
  {
    parcels[..k] + parcels[k + 1..]
  }

  /** A call arrives: a new copy for each frame, except at the service, which has its frames back. */
  function Deliver(s: State, k: nat): State
    requires k < |s.parcels|
  {
    var p := s.parcels[k];
    var t := s.(parcels := Without(s.parcels, k));
    match p.channel
    case ToApp => t.(copies := t.copies + NewCopies(p.frames, Arrived))
    case ToRecorder => t.(copies := t.copies + NewCopies(p.frames, WithRecorder))
    case ToProxy => t.(copies := t.copies + NewCopies(p.frames, Relaying))
    case ToService => t.(returned := t.returned + p.frames)
  }

  datatype Event =
    | HandOut(frames: seq<nat>)                  // the service sends frames to the app
    | Receive(k: nat)                            // any call under way arrives
    | LookForProxy(ids: seq<nat>)                // the app reads its proxy listener field
    | LookForListener(ids: seq<nat>)             // and, without one, its listener field
    | Forward(ids: seq<nat>)                     // to the recorder
    | Release(ids: seq<nat>, place: Place)       // back to the service
    | ReleaseToProxy(ids: seq<nat>)              // by the recorder, back to the app
    | CloseSent(ids: seq<nat>)
    | SetListeners(proxyListener: bool, listener: bool)
    | Disconnect

  /** The service hands out only frames it has; holders pass on only what they hold. */
  ghost predicate Enabled(s: State, e: Event)
  {
    match e
    case HandOut(frames) => NoDuplicates(frames) && forall k :: 0 <= k < |frames| ==> frames[k] !in s.sent
    case Receive(k) => k < |s.parcels|
    case LookForProxy(ids) => At(s.copies, ids, Arrived)
    case LookForListener(ids) => At(s.copies, ids, NoProxy)
    case Forward(ids) => At(s.copies, ids, ForRecorder)
    case Release(ids, place) =>
      At(s.copies, ids, place) && (place == Unwanted || place == WithListener || place == Relaying)
    case ReleaseToProxy(ids) => At(s.copies, ids, WithRecorder)
    case CloseSent(ids) => At(s.copies, ids, Sent)
    case SetListeners(_, _) => true
    case Disconnect => true
  }

  ghost function Step(s: State, e: Event): State
    requires Enabled(s, e)
  {
    match e
    case HandOut(frames) =>
      s.(parcels := s.parcels + [Parcel(ToApp, frames)], sent := s.sent + frames)
    case Receive(k) => Deliver(s, k)
    case LookForProxy(ids) => Move(s, ids, if s.proxyListener then ForRecorder else NoProxy)
    case LookForListener(ids) => Move(s, ids, if s.listener then WithListener else Unwanted)
    case Forward(ids) => Send(s, ids, ToRecorder)
    case Release(ids, _) => if s.connected then Send(s, ids, ToService) else Move(s, ids, Leaked)
    case ReleaseToProxy(ids) => Send(s, ids, ToProxy)
    case CloseSent(ids) => Close(s, ids)
    case SetListeners(proxyListener, listener) => s.(proxyListener := proxyListener, listener := listener)
    case Disconnect => s.(connected := false)
  }

  // ---- conservation ----

  predicate Active(place: Place)
  {
    place != Sent && place != Closed
  }

  ghost function Count(s: seq<nat>, x: nat): nat
  {
    if s == [] then 0 else Count(s[..|s| - 1], x) + if s[|s| - 1] == x then 1 else 0
  }

  ghost function HeldOne(c: Copy, frame: nat): nat
  {
    if Active(c.place) && c.frame == frame then 1 else 0
  }

  /** How many copies of a frame await their holder's next step. */
  ghost function Held(copies: seq<Copy>, frame: nat): nat
  {
    if copies == [] then 0 else
      Held(copies[..|copies| - 1], frame) + HeldOne(copies[|copies| - 1], frame)
  }

  /** How often a frame is under way. */
  ghost function InFlight(parcels: seq<Parcel>, frame: nat): nat
  {
    if parcels == [] then 0 else
      InFlight(parcels[..|parcels| - 1], frame) + Count(parcels[|parcels| - 1].frames, frame)
  }

  /** Under way, with a holder, or back: as often as it was handed out. */
  ghost predicate ConservedFrame(s: State, frame: nat)
  {
    InFlight(s.parcels, frame) + Held(s.copies, frame) + Count(s.returned, frame) == Count(s.sent, frame)
  }

  /** Closed once if closed, not at all otherwise. */
  ghost predicate ClosedOnce(copies: seq<Copy>, closes: seq<nat>)
  {
    && (forall id: nat :: id < |copies| ==> Count(closes, id) == if copies[id].place == Closed then 1 else 0)
    && (forall id: nat :: id >= |copies| ==> Count(closes, id) == 0)
  }

  ghost predicate Inv(s: State)
  {
    && (forall frame: nat :: ConservedFrame(s, frame))
    && (forall frame: nat :: Count(s.sent, frame) <= 1)
    && ClosedOnce(s.copies, s.closes)
  }

  // ---- counting ----

  lemma {:induction false} CountConcat(s: seq<nat>, t: seq<nat>, x: nat)
    ensures Count(s + t, x) == Count(s, x) + Count(t, x)
    decreases |t|
  {
    if t == [] {
      assert s + t == s;
    } else {
      var n := |t| - 1;
      CountConcat(s, t[..n], x);
      assert (s + t)[..|s + t| - 1] == s + t[..n];
    }
  }

  lemma {:induction false} CountZero(s: seq<nat>, x: nat)
    ensures Count(s, x) == 0 <==> forall k :: 0 <= k < |s| ==> s[k] != x
  {
    if s != [] {
      CountZero(s[..|s| - 1], x);
    }
  }

  lemma {:induction false} CountDistinct(s: seq<nat>, x: nat)
    requires NoDuplicates(s)
    ensures Count(s, x) <= 1
  {
    if s != [] {
      CountDistinct(s[..|s| - 1], x);
      CountZero(s[..|s| - 1], x);
    }
  }

  lemma CountIn(s: seq<nat>, x: nat)
    requires NoDuplicates(s)
    ensures Count(s, x) == if x in s then 1 else 0
  {
    CountDistinct(s, x);
    CountZero(s, x);
  }

  lemma {:induction false} HeldUpdate(copies: seq<Copy>, id: nat, c: Copy, frame: nat)
    requires id < |copies|
    ensures Held(copies[id := c], frame) + HeldOne(copies[id], frame) == Held(copies, frame) + HeldOne(c, frame)
    decreases |copies|
  {
    var n := |copies| - 1;
    if id == n {
      assert copies[id := c][..n] == copies[..n];
    } else {
      HeldUpdate(copies[..n], id, c, frame);
      assert copies[id := c][..n] == copies[..n][id := c];
    }
  }

  lemma {:induction false} HeldAppend(copies: seq<Copy>, frames: seq<nat>, place: Place, frame: nat)
    requires Active(place)
    ensures Held(copies + NewCopies(frames, place), frame) == Held(copies, frame) + Count(frames, frame)
    decreases |frames|
  {
    if frames == [] {
      assert copies + NewCopies(frames, place) == copies;
    } else {
      var n := |frames| - 1;
      HeldAppend(copies, frames[..n], place, frame);
      var all := copies + NewCopies(frames, place);
      assert all[..|all| - 1] == copies + NewCopies(frames[..n], place);
    }
  }

  lemma WithoutPrefix(parcels: seq<Parcel>, k: nat)
    requires k < |parcels| - 1
    ensures
      var n, w := |parcels| - 1, Without(parcels, k);
      |w| == n && w[..n - 1] == Without(parcels[..n], k) && w[n - 1] == parcels[n]
  {
  }

  lemma {:induction false} InFlightWithout(parcels: seq<Parcel>, k: nat, frame: nat)
    requires k < |parcels|
    ensures InFlight(parcels, frame) == InFlight(Without(parcels, k), frame) + Count(parcels[k].frames, frame)
    decreases |parcels|
  {
    var n := |parcels| - 1;
    if k == n {
      assert Without(parcels, k) == parcels[..n];
    } else {
      InFlightWithout(parcels[..n], k, frame);
      WithoutPrefix(parcels, k);
    }
  }

  lemma InFlightOne(parcels: seq<Parcel>, p: Parcel, frame: nat)
    ensures InFlight(parcels + [p], frame) == InFlight(parcels, frame) + Count(p.frames, frame)
  {
    assert (parcels + [p])[..|parcels|] == parcels;
  }

  // ---- moving copies ----

  /** Moving touches the named copies' places and nothing else. */
  lemma {:induction false} MovedAt(copies: seq<Copy>, ids: seq<nat>, place: Place, id: nat)
    requires (forall k :: 0 <= k < |ids| ==> ids[k] < |copies|) && id < |copies|
    ensures Moved(copies, ids, place)[id] == if id in ids then copies[id].(place := place) else copies[id]
    decreases |ids|
  {
    if ids != [] {
      var n := |ids| - 1;
      MovedAt(copies, ids[..n], place, id);
      assert ids == ids[..n] + [ids[n]];
    }
  }

  lemma CountFrames(copies: seq<Copy>, ids: seq<nat>, frame: nat)
    requires ids != [] && forall k :: 0 <= k < |ids| ==> ids[k] < |copies|
    ensures
      var m := |ids| - 1;
      Count(FramesOf(copies, ids), frame)
      == Count(FramesOf(copies, ids[..m]), frame) + if copies[ids[m]].frame == frame then 1 else 0
  {
    var fs := FramesOf(copies, ids);
    assert fs[..|fs| - 1] == FramesOf(copies, ids[..|ids| - 1]);
  }

  lemma PrefixAt(copies: seq<Copy>, ids: seq<nat>, place: Place)
    requires At(copies, ids, place) && ids != []
    ensures At(copies, ids[..|ids| - 1], place) && ids[|ids| - 1] !in ids[..|ids| - 1]
  {
  }

  /** Distinct copies that all change from one place to another change the count by their frames. */
  lemma {:induction false} HeldMoved(copies: seq<Copy>, ids: seq<nat>, from: Place, place: Place, frame: nat)
    requires At(copies, ids, from)
    ensures
      var n := Count(FramesOf(copies, ids), frame);
      Held(Moved(copies, ids, place), frame) + (if Active(from) then n else 0)
      == Held(copies, frame) + (if Active(place) then n else 0)
    decreases |ids|
  {
    if ids != [] {
      var m := |ids| - 1;
      var rest, id := ids[..m], ids[m];
      PrefixAt(copies, ids, from);
      HeldMoved(copies, rest, from, place, frame);
      var r := Moved(copies, rest, place);
      MovedAt(copies, rest, place, id);
      HeldUpdate(r, id, r[id].(place := place), frame);
      CountFrames(copies, ids, frame);
    }
  }

  // ---- every step keeps the invariant ----

  lemma HandOutKeeps(s: State, frames: seq<nat>)
    requires Inv(s) && Enabled(s, HandOut(frames))
    ensures Inv(Step(s, HandOut(frames)))
  {
    var t := Step(s, HandOut(frames));
    forall frame: nat ensures ConservedFrame(t, frame) && Count(t.sent, frame) <= 1 {
      assert ConservedFrame(s, frame);
      InFlightOne(s.parcels, Parcel(ToApp, frames), frame);
      CountConcat(s.sent, frames, frame);
      CountIn(frames, frame);
      CountZero(s.sent, frame);
    }
  }

  lemma MoveKeeps(s: State, ids: seq<nat>, from: Place, place: Place)
    requires Inv(s) && At(s.copies, ids, from) && Active(from) && Active(place)
    ensures Inv(Move(s, ids, place))
  {
    var t := Move(s, ids, place);
    forall frame: nat ensures ConservedFrame(t, frame) {
      assert ConservedFrame(s, frame);
      HeldMoved(s.copies, ids, from, place, frame);
    }
    OpenMoved(s.copies, s.closes, ids, from, place);
  }

  /** Copies that neither were nor become closed. */
  lemma OpenMoved(copies: seq<Copy>, closes: seq<nat>, ids: seq<nat>, from: Place, place: Place)
    requires ClosedOnce(copies, closes) && At(copies, ids, from) && from != Closed && place != Closed
    ensures ClosedOnce(Moved(copies, ids, place), closes)
  {
    forall id: nat | id < |copies|
      ensures Count(closes, id) == if Moved(copies, ids, place)[id].place == Closed then 1 else 0
    {
      MovedAt(copies, ids, place, id);
    }
  }

  lemma SendKeeps(s: State, ids: seq<nat>, from: Place, channel: Channel)
    requires Inv(s) && At(s.copies, ids, from) && Active(from)
    ensures Inv(Send(s, ids, channel))
  {
    var t := Send(s, ids, channel);
    forall frame: nat ensures ConservedFrame(t, frame) {
      assert ConservedFrame(s, frame);
      HeldMoved(s.copies, ids, from, Sent, frame);
      InFlightOne(s.parcels, Parcel(channel, FramesOf(s.copies, ids)), frame);
    }
    OpenMoved(s.copies, s.closes, ids, from, Sent);
  }

  lemma CloseKeeps(s: State, ids: seq<nat>)
    requires Inv(s) && At(s.copies, ids, Sent)
    ensures Inv(Close(s, ids))
  {
    var t := Close(s, ids);
    forall frame: nat ensures ConservedFrame(t, frame) {
      assert ConservedFrame(s, frame);
      HeldMoved(s.copies, ids, Sent, Closed, frame);
    }
    forall id: nat
      ensures Count(t.closes, id) == if id < |t.copies| && t.copies[id].place == Closed then 1 else 0
    {
      CountConcat(s.closes, ids, id);
      CountIn(ids, id);
      if id < |s.copies| { MovedAt(s.copies, ids, Closed, id); }
    }
  }

  lemma OpenAppend(copies: seq<Copy>, closes: seq<nat>, frames: seq<nat>, place: Place)
    requires ClosedOnce(copies, closes) && place != Closed
    ensures ClosedOnce(copies + NewCopies(frames, place), closes)
  {
  }

  lemma DeliverKeeps(s: State, k: nat)
    requires Inv(s) && k < |s.parcels|
    ensures Inv(Deliver(s, k))
  {
    var t, p := Deliver(s, k), s.parcels[k];
    var place := if p.channel == ToApp then Arrived else if p.channel == ToRecorder then WithRecorder else Relaying;
    forall frame: nat ensures ConservedFrame(t, frame) {
      assert ConservedFrame(s, frame);
      InFlightWithout(s.parcels, k, frame);
      if p.channel == ToService {
        CountConcat(s.returned, p.frames, frame);
      } else {
        HeldAppend(s.copies, p.frames, place, frame);
      }
    }
    if p.channel != ToService { OpenAppend(s.copies, s.closes, p.frames, place); }
  }

  lemma StepKeepsInv(s: State, e: Event)
    requires Inv(s) && Enabled(s, e)
    ensures Inv(Step(s, e))
  {
    match e
    case HandOut(frames) => HandOutKeeps(s, frames);
    case Receive(k) => DeliverKeeps(s, k);
    case LookForProxy(ids) => MoveKeeps(s, ids, Arrived, if s.proxyListener then ForRecorder else NoProxy);
    case LookForListener(ids) => MoveKeeps(s, ids, NoProxy, if s.listener then WithListener else Unwanted);
    case Forward(ids) => SendKeeps(s, ids, ForRecorder, ToRecorder);
    case Release(ids, place) =>
      if s.connected { SendKeeps(s, ids, place, ToService); } else { MoveKeeps(s, ids, place, Leaked); }
    case ReleaseToProxy(ids) => SendKeeps(s, ids, WithRecorder, ToProxy);
    case CloseSent(ids) => CloseKeeps(s, ids);
    case Disconnect =>
      assert forall frame: nat :: ConservedFrame(s, frame) ==> ConservedFrame(s.(connected := false), frame);
    case SetListeners(proxyListener, listener) =>
      var t := s.(proxyListener := proxyListener, listener := listener);
      assert forall frame: nat :: ConservedFrame(s, frame) ==> ConservedFrame(t, frame);
  }

  // ---- whole runs ----

  ghost predicate LegalRun(s: State, run: seq<Event>)
    decreases |run|
  {
    run == [] || (Enabled(s, run[0]) && LegalRun(Step(s, run[0]), run[1..]))
  }

  ghost function Run(s: State, run: seq<Event>): State
    requires LegalRun(s, run)
    decreases |run|
  {
    if run == [] then s else Run(Step(s, run[0]), run[1..])
  }

  lemma {:induction false} RunKeepsInv(s: State, run: seq<Event>)
    requires Inv(s) && LegalRun(s, run)
    ensures Inv(Run(s, run))
    decreases |run|
  {
    if run != [] {
      StepKeepsInv(s, run[0]);
      RunKeepsInv(Step(s, run[0]), run[1..]);
    }
  }

  /**
   * In every run, single or batched, with the listeners set and cleared at any time: each
   * frame handed out is in exactly one place, comes back at most once, and no copy is
   * closed twice or closed by anyone but its last holder.
   */
  lemma EachFrameInOnePlace(run: seq<Event>)
    requires LegalRun(Init(), run)
    ensures
      var s := Run(Init(), run);
      && (forall frame: nat :: InFlight(s.parcels, frame) + Held(s.copies, frame) + Count(s.returned, frame)
                               == Count(s.sent, frame) <= 1)
      && ClosedOnce(s.copies, s.closes)
  {
    assert Inv(Init());
    RunKeepsInv(Init(), run);
    var s := Run(Init(), run);
    forall frame: nat
      ensures InFlight(s.parcels, frame) + Held(s.copies, frame) + Count(s.returned, frame)
              == Count(s.sent, frame) <= 1
    {
      assert ConservedFrame(s, frame);
    }
  }

  /** Nothing is under way and every copy has been closed. */
  ghost predicate Drained(s: State)
  {
    s.parcels == [] && forall id :: 0 <= id < |s.copies| ==> s.copies[id].place == Closed
  }

  lemma {:induction false} NothingHeld(copies: seq<Copy>, frame: nat)
    requires forall id :: 0 <= id < |copies| ==> copies[id].place == Closed
    ensures Held(copies, frame) == 0
  {
    if copies != [] { NothingHeld(copies[..|copies| - 1], frame); }
  }

  /** Once a run is drained, every frame handed out has come back and every copy was closed, exactly once. */
  lemma DrainedExactlyOnce(run: seq<Event>)
    requires LegalRun(Init(), run) && Drained(Run(Init(), run))
    ensures
      var s := Run(Init(), run);
      && (forall frame: nat :: Count(s.returned, frame) == Count(s.sent, frame) <= 1)
      && (forall id: nat :: id < |s.copies| ==> Count(s.closes, id) == 1)
  {
    var s := Run(Init(), run);
    assert Inv(Init());
    RunKeepsInv(Init(), run);
    forall frame: nat ensures Count(s.returned, frame) == Count(s.sent, frame) <= 1 {
      assert ConservedFrame(s, frame);
      NothingHeld(s.copies, frame);
    }
  }

  // ---- every schedule drains ----

  ghost function PlaceWeight(place: Place): nat
  {
    match place
    case Arrived => 16
    case ForRecorder => 15
    case NoProxy => 7
    case WithListener => 5
    case Unwanted => 5
    case WithRecorder => 10
    case Relaying => 5
    case Sent => 1
    case Closed => 0
    case Leaked => 0
  }

  ghost function ChannelWeight(channel: Channel): nat
  {
    match channel
    case ToApp => 17
    case ToRecorder => 11
    case ToProxy => 6
    case ToService => 1
  }

  ghost function ParcelWeight(p: Parcel): nat
  {
    1 + Times(|p.frames|, ChannelWeight(p.channel))
  }

  ghost function Times(n: nat, w: nat): nat
  {
    if n == 0 then 0 else Times(n - 1, w) + w
  }

  ghost function CopiesWeight(copies: seq<Copy>): nat
  {
    if copies == [] then 0 else CopiesWeight(copies[..|copies| - 1]) + PlaceWeight(copies[|copies| - 1].place)
  }

  ghost function ParcelsWeight(parcels: seq<Parcel>): nat
  {
    if parcels == [] then 0 else ParcelsWeight(parcels[..|parcels| - 1]) + ParcelWeight(parcels[|parcels| - 1])
  }

  /** How much handling is left to do. */
  ghost function Work(s: State): nat
  {
    CopiesWeight(s.copies) + ParcelsWeight(s.parcels)
  }

  lemma {:induction false} CopiesWeightUpdate(copies: seq<Copy>, id: nat, c: Copy)
    requires id < |copies|
    ensures CopiesWeight(copies[id := c]) + PlaceWeight(copies[id].place) == CopiesWeight(copies) + PlaceWeight(c.place)
    decreases |copies|
  {
    var n := |copies| - 1;
    if id == n {
      assert copies[id := c][..n] == copies[..n];
    } else {
      CopiesWeightUpdate(copies[..n], id, c);
      assert copies[id := c][..n] == copies[..n][id := c];
    }
  }

  lemma {:induction false} CopiesWeightAppend(copies: seq<Copy>, frames: seq<nat>, place: Place, w: nat)
    requires PlaceWeight(place) <= w
    ensures CopiesWeight(copies + NewCopies(frames, place)) <= CopiesWeight(copies) + Times(|frames|, w)
    decreases |frames|
  {
    if frames == [] {
      assert copies + NewCopies(frames, place) == copies;
    } else {
      var n := |frames| - 1;
      CopiesWeightAppend(copies, frames[..n], place, w);
      var all := copies + NewCopies(frames, place);
      assert all[..|all| - 1] == copies + NewCopies(frames[..n], place);
    }
  }

  lemma {:induction false} ParcelsWeightWithout(parcels: seq<Parcel>, k: nat)
    requires k < |parcels|
    ensures ParcelsWeight(parcels) == ParcelsWeight(Without(parcels, k)) + ParcelWeight(parcels[k])
    decreases |parcels|
  {
    var n := |parcels| - 1;
    if k == n {
      assert Without(parcels, k) == parcels[..n];
    } else {
      ParcelsWeightWithout(parcels[..n], k);
      WithoutPrefix(parcels, k);
    }
  }

  lemma DeliverLessWork(s: State, k: nat)
    requires k < |s.parcels|
    ensures Work(Deliver(s, k)) < Work(s)
  {
    var p := s.parcels[k];
    ParcelsWeightWithout(s.parcels, k);
    match p.channel
    case ToApp => CopiesWeightAppend(s.copies, p.frames, Arrived, 17);
    case ToRecorder => CopiesWeightAppend(s.copies, p.frames, WithRecorder, 11);
    case ToProxy => CopiesWeightAppend(s.copies, p.frames, Relaying, 6);
    case ToService =>
  }

  lemma {:induction false} TimesAdd(n: nat, a: nat, b: nat)
    ensures Times(n, a + b) == Times(n, a) + Times(n, b)
    decreases n
  {
    if n > 0 { TimesAdd(n - 1, a, b); }
  }

  lemma {:induction false} TimesLess(n: nat, a: nat, b: nat)
    requires a < b
    ensures Times(n, a) + n <= Times(n, b)
    decreases n
  {
    if n > 0 { TimesLess(n - 1, a, b); }
  }

  /** Moving copies from one place to another changes their weight by the difference, each. */
  lemma {:induction false} MovedWeight(copies: seq<Copy>, ids: seq<nat>, from: Place, place: Place)
    requires At(copies, ids, from)
    ensures CopiesWeight(Moved(copies, ids, place)) + Times(|ids|, PlaceWeight(from))
         == CopiesWeight(copies) + Times(|ids|, PlaceWeight(place))
    decreases |ids|
  {
    if ids != [] {
      var m := |ids| - 1;
      var rest, id := ids[..m], ids[m];
      PrefixAt(copies, ids, from);
      MovedWeight(copies, rest, from, place);
      var r := Moved(copies, rest, place);
      MovedAt(copies, rest, place, id);
      CopiesWeightUpdate(r, id, r[id].(place := place));
    }
  }

  lemma MoveLessWork(s: State, ids: seq<nat>, from: Place, place: Place)
    requires At(s.copies, ids, from) && ids != [] && PlaceWeight(place) < PlaceWeight(from)
    ensures Work(Move(s, ids, place)) < Work(s) && Work(Close(s, ids)) == Work(Move(s, ids, Closed))
  {
    MovedWeight(s.copies, ids, from, place);
    TimesLess(|ids|, PlaceWeight(place), PlaceWeight(from));
  }

  /** A parcel and copies to be closed weigh less than copies at a place that is far enough from the end. */
  lemma SendWeight(n: nat, channel: nat, place: nat)
    requires n > 0 && channel + 2 < place
    ensures 1 + Times(n, channel) + Times(n, 1) < Times(n, place)
  {
    TimesAdd(n, channel, 1);
    TimesLess(n, channel + 1, channel + 2);
    TimesLess(n, channel + 2, place);
  }

  lemma ParcelsWeightOne(parcels: seq<Parcel>, p: Parcel)
    ensures ParcelsWeight(parcels + [p]) == ParcelsWeight(parcels) + ParcelWeight(p)
  {
    assert (parcels + [p])[..|parcels|] == parcels;
  }

  lemma SendLessWork(s: State, ids: seq<nat>, from: Place, channel: Channel)
    requires At(s.copies, ids, from) && ids != [] && ChannelWeight(channel) + 2 < PlaceWeight(from)
    ensures Work(Send(s, ids, channel)) < Work(s)
  {
    MovedWeight(s.copies, ids, from, Sent);
    SendWeight(|ids|, ChannelWeight(channel), PlaceWeight(from));
    ParcelsWeightOne(s.parcels, Parcel(channel, FramesOf(s.copies, ids)));
  }

  /** An event by which somebody deals with what is there; not a new frame or a change of listeners. */
  ghost predicate Handling(e: Event)
  {
    match e
    case HandOut(_) => false
    case SetListeners(_, _) => false
    case Disconnect => false
    case Receive(_) => true
    case LookForProxy(ids) => ids != []
    case LookForListener(ids) => ids != []
    case Forward(ids) => ids != []
    case Release(ids, _) => ids != []
    case ReleaseToProxy(ids) => ids != []
    case CloseSent(ids) => ids != []
  }

  lemma HandlingLessWork(s: State, e: Event)
    requires Enabled(s, e) && Handling(e)
    ensures Work(Step(s, e)) < Work(s)
  {
    match e
    case Receive(k) => DeliverLessWork(s, k);
    case LookForProxy(ids) => MoveLessWork(s, ids, Arrived, if s.proxyListener then ForRecorder else NoProxy);
    case LookForListener(ids) => MoveLessWork(s, ids, NoProxy, if s.listener then WithListener else Unwanted);
    case Forward(ids) => SendLessWork(s, ids, ForRecorder, ToRecorder);
    case Release(ids, place) =>
      if s.connected { SendLessWork(s, ids, place, ToService); } else { MoveLessWork(s, ids, place, Leaked); }
    case ReleaseToProxy(ids) => SendLessWork(s, ids, WithRecorder, ToProxy);
    case CloseSent(ids) => MoveLessWork(s, ids, Sent, Closed);
    case _ =>
  }

  /** How many handling events a run has. */
  ghost function Handlings(run: seq<Event>): nat
  {
    if run == [] then 0 else (if Handling(run[0]) then 1 else 0) + Handlings(run[1..])
  }

  /** Nothing new is handed out, and nobody acts on no copies at all. */
  ghost predicate Settling(run: seq<Event>)
  {
    forall i :: 0 <= i < |run| ==> Handling(run[i]) || run[i].SetListeners? || run[i].Disconnect?
  }

  /**
   * Every schedule settles: once the service hands out nothing more, there are at most as
   * many handling events as there is work, in whatever order they come, however the
   * listeners change and whenever the camera is disconnected.
   */
  lemma {:induction false} EveryScheduleSettles(s: State, run: seq<Event>)
    requires LegalRun(s, run) && Settling(run)
    ensures Handlings(run) + Work(Run(s, run)) <= Work(s) && Run(s, run).sent == s.sent
    decreases |run|
  {
    if run != [] {
      if Handling(run[0]) { HandlingLessWork(s, run[0]); }
      EveryScheduleSettles(Step(s, run[0]), run[1..]);
    }
  }

  /** What happens next to a copy that is still open. */
  ghost function Next(s: State, id: nat): Event
    requires id < |s.copies| && s.copies[id].place != Closed && s.copies[id].place != Leaked
  {
    match s.copies[id].place
    case Arrived => LookForProxy([id])
    case ForRecorder => Forward([id])
    case NoProxy => LookForListener([id])
    case WithRecorder => ReleaseToProxy([id])
    case Sent => CloseSent([id])
    case place => Release([id], place)
  }

  lemma OneAt(copies: seq<Copy>, id: nat)
    requires id < |copies|
    ensures At(copies, [id], copies[id].place)
  {
  }

  /** Nothing is under way, and nobody has a copy left to deal with. */
  ghost predicate Settled(s: State)
  {
    && s.parcels == []
    && forall id :: 0 <= id < |s.copies| ==> s.copies[id].place == Closed || s.copies[id].place == Leaked
  }

  /** There is nothing left to handle exactly when the state is settled. */
  lemma StuckIsSettled(s: State)
    ensures Settled(s) <==> forall e :: Handling(e) ==> !Enabled(s, e)
  {
    if Settled(s) {
      forall e | Handling(e) ensures !Enabled(s, e) {
        NothingEnabled(s, e);
      }
    } else if s.parcels != [] {
      assert Handling(Receive(0)) && Enabled(s, Receive(0));
    } else {
      var id :| 0 <= id < |s.copies| && s.copies[id].place != Closed && s.copies[id].place != Leaked;
      OneAt(s.copies, id);
      assert Handling(Next(s, id)) && Enabled(s, Next(s, id));
    }
  }

  /** The copies an event acts on. */
  ghost function Touched(e: Event): seq<nat>
  {
    match e
    case LookForProxy(ids) => ids
    case LookForListener(ids) => ids
    case Forward(ids) => ids
    case Release(ids, _) => ids
    case ReleaseToProxy(ids) => ids
    case CloseSent(ids) => ids
    case _ => []
  }

  lemma NothingEnabled(s: State, e: Event)
    requires Settled(s) && Handling(e)
    ensures !Enabled(s, e)
  {
    var ids := Touched(e);
    if ids != [] && ids[0] < |s.copies| {
      assert s.copies[ids[0]].place == Closed || s.copies[ids[0]].place == Leaked;
    }
  }

  // ---- a camera that is disconnected ----

  ghost predicate HasLeak(copies: seq<Copy>)
  {
    exists id :: 0 <= id < |copies| && copies[id].place == Leaked
  }

  /** An event by which copies are released to a camera that is gone. */
  ghost predicate Late(e: Event, connected: bool)
  {
    e.Release? && e.ids != [] && !connected
  }

  /** Somebody releases a frame in the app after the camera was disconnected. */
  ghost predicate ReleasedLate(run: seq<Event>, connected: bool)
    decreases |run|
  {
    run != [] && (Late(run[0], connected) || ReleasedLate(run[1..], connected && !run[0].Disconnect?))
  }

  /** Leaked copies are never touched again; moving others leaks only if they are moved there. */
  lemma LeakMoved(copies: seq<Copy>, ids: seq<nat>, from: Place, place: Place)
    requires At(copies, ids, from) && from != Leaked
    ensures HasLeak(Moved(copies, ids, place)) <==> HasLeak(copies) || (ids != [] && place == Leaked)
  {
    var r := Moved(copies, ids, place);
    forall id: nat | id < |copies|
      ensures r[id].place == Leaked <==> copies[id].place == Leaked || (id in ids && place == Leaked)
    {
      MovedAt(copies, ids, place, id);
      if id in ids {
        var k :| 0 <= k < |ids| && ids[k] == id;
        assert copies[ids[k]].place == from;
      }
    }
    if id :| 0 <= id < |copies| && copies[id].place == Leaked { assert r[id].place == Leaked; }
    if ids != [] && place == Leaked { assert r[ids[0]].place == Leaked; }
  }

  lemma LeakAppend(copies: seq<Copy>, frames: seq<nat>, place: Place)
    requires place != Leaked
    ensures HasLeak(copies + NewCopies(frames, place)) <==> HasLeak(copies)
  {
    var all := copies + NewCopies(frames, place);
    if id :| 0 <= id < |copies| && copies[id].place == Leaked { assert all[id].place == Leaked; }
  }

  lemma LeakStep(s: State, e: Event)
    requires Enabled(s, e)
    ensures Step(s, e).connected == (s.connected && !e.Disconnect?)
    ensures HasLeak(Step(s, e).copies) <==> HasLeak(s.copies) || Late(e, s.connected)
  {
    match e
    case Receive(k) =>
      var p := s.parcels[k];
      LeakAppend(s.copies, p.frames, Arrived);
      LeakAppend(s.copies, p.frames, WithRecorder);
      LeakAppend(s.copies, p.frames, Relaying);
    case LookForProxy(ids) => LeakMoved(s.copies, ids, Arrived, if s.proxyListener then ForRecorder else NoProxy);
    case LookForListener(ids) => LeakMoved(s.copies, ids, NoProxy, if s.listener then WithListener else Unwanted);
    case Forward(ids) => LeakMoved(s.copies, ids, ForRecorder, Sent);
    case Release(ids, place) => LeakMoved(s.copies, ids, place, if s.connected then Sent else Leaked);
    case ReleaseToProxy(ids) => LeakMoved(s.copies, ids, WithRecorder, Sent);
    case CloseSent(ids) => LeakMoved(s.copies, ids, Sent, Closed);
    case _ =>
  }

  lemma {:induction false} LeakExactly(s: State, run: seq<Event>)
    requires LegalRun(s, run)
    ensures HasLeak(Run(s, run).copies) <==> HasLeak(s.copies) || ReleasedLate(run, s.connected)
    decreases |run|
  {
    if run != [] {
      LeakStep(s, run[0]);
      LeakExactly(Step(s, run[0]), run[1..]);
    }
  }

  /**
   * Once a run has settled, every frame has come back and every copy was closed, exactly
   * once, if and only if no frame was released in the app after the camera was disconnected.
   */
  lemma SettledExactlyOnce(run: seq<Event>)
    requires LegalRun(Init(), run) && Settled(Run(Init(), run))
    ensures
      var s := Run(Init(), run);
      (forall id: nat :: id < |s.copies| ==> Count(s.closes, id) == 1) <==> !ReleasedLate(run, true)
    ensures
      var s := Run(Init(), run);
      !ReleasedLate(run, true) ==> forall frame: nat :: Count(s.returned, frame) == Count(s.sent, frame) <= 1
  {
    var s := Run(Init(), run);
    LeakExactly(Init(), run);
    assert Inv(Init());
    RunKeepsInv(Init(), run);
    if ReleasedLate(run, true) {
      var id :| 0 <= id < |s.copies| && s.copies[id].place == Leaked;
      assert Count(s.closes, id) == 0;
    } else {
      assert Drained(s);
      DrainedExactlyOnce(run);
    }
  }

  lemma {:induction false} RunAppend(s: State, run: seq<Event>, e: Event)
    requires LegalRun(s, run) && Enabled(Run(s, run), e)
    ensures LegalRun(s, run + [e]) && Run(s, run + [e]) == Step(Run(s, run), e)
    decreases |run|
  {
    if run == [] {
      assert run + [e] == [e] && [e][1..] == [];
      assert LegalRun(Step(s, e), []);
    } else {
      RunAppend(Step(s, run[0]), run[1..], e);
      assert (run + [e])[1..] == run[1..] + [e];
    }
  }

  /** A state with one copy of frame 0, at a given place, and no listeners. */
  ghost function OneCopy(place: Place, connected: bool): State
  {
    State([Copy(0, place)], [], [], [0], [], false, false, connected)
  }

  lemma MovedSingle(from: Place, place: Place)
    ensures At([Copy(0, from)], [0], from) && Moved([Copy(0, from)], [0], place) == [Copy(0, place)]
  {
    assert [0][..0] == [];
    assert Moved([Copy(0, from)], [], place) == [Copy(0, from)];
  }

  lemma FrameArrives()
    ensures var run := [HandOut([0]), Receive(0)];
      LegalRun(Init(), run) && Run(Init(), run) == OneCopy(Arrived, true)
  {
    var parcel := State([], [], [Parcel(ToApp, [0])], [0], [], false, false, true);
    assert Step(Init(), HandOut([0])) == parcel;
    RunAppend(Init(), [], HandOut([0]));
    assert [] + [HandOut([0])] == [HandOut([0])];
    assert Without(parcel.parcels, 0) == [] && NewCopies([0], Arrived) == [Copy(0, Arrived)];
    RunAppend(Init(), [HandOut([0])], Receive(0));
    assert [HandOut([0])] + [Receive(0)] == [HandOut([0]), Receive(0)];
  }

  lemma NobodyWantsIt()
    ensures var run := [HandOut([0]), Receive(0)] + [LookForProxy([0])] + [LookForListener([0])];
      LegalRun(Init(), run) && Run(Init(), run) == OneCopy(Unwanted, true)
  {
    FrameArrives();
    var run := [HandOut([0]), Receive(0)];
    MovedSingle(Arrived, NoProxy);
    RunAppend(Init(), run, LookForProxy([0]));
    MovedSingle(NoProxy, Unwanted);
    RunAppend(Init(), run + [LookForProxy([0])], LookForListener([0]));
  }

  /** A run that settles with a leak: one frame nobody wants, given back after the camera was disconnected. */
  lemma LateReleaseLeaks()
    ensures
      var run := [HandOut([0]), Receive(0)] + [LookForProxy([0])] + [LookForListener([0])]
                 + [Disconnect] + [Release([0], Unwanted)];
      && LegalRun(Init(), run) && Settled(Run(Init(), run))
      && Run(Init(), run).copies == [Copy(0, Leaked)] && Run(Init(), run).returned == []
  {
    NobodyWantsIt();
    var run := [HandOut([0]), Receive(0)] + [LookForProxy([0])] + [LookForListener([0])];
    RunAppend(Init(), run, Disconnect);
    MovedSingle(Unwanted, Leaked);
    RunAppend(Init(), run + [Disconnect], Release([0], Unwanted));
  }

  lemma MovedAll(copies: seq<Copy>, ids: seq<nat>, from: Place, place: Place)
    requires At(copies, ids, from)
    ensures At(Moved(copies, ids, place), ids, place)
  {
    forall k | 0 <= k < |ids| ensures Moved(copies, ids, place)[ids[k]].place == place {
      MovedAt(copies, ids, place, ids[k]);
    }
  }

  lemma MovedNext(copies: seq<Copy>, ids: seq<nat>, place: Place, k: nat)
    requires k < |ids| && forall j :: 0 <= j < |ids| ==> ids[j] < |copies|
    ensures
      var r := Moved(copies, ids[..k], place);
      Moved(copies, ids[..k + 1], place) == r[ids[k] := r[ids[k]].(place := place)]
  {
    assert ids[..k + 1][..k] == ids[..k];
  }

  /** The identifiers of the next n copies. */
  function NewIds(first: nat, n: nat): (ids: seq<nat>)
    ensures |ids| == n
  {
    seq(n, k requires 0 <= k < n => first + k)
  }

  lemma NewIdsAt(copies: seq<Copy>, frames: seq<nat>, place: Place)
    ensures At(copies + NewCopies(frames, place), NewIds(|copies|, |frames|), place)
  {
  }

  lemma NewFrames(copies: seq<Copy>, frames: seq<nat>, place: Place)
    ensures FramesOf(copies + NewCopies(frames, place), NewIds(|copies|, |frames|)) == frames
  {
  }

  /** The three processes and the binder between them. */
  class Recording {
    var copies: seq<Copy>
    var closes: seq<nat>
    var parcels: seq<Parcel>
    var returned: seq<nat>
    var mRecordingProxyListener: bool
    var mListener: bool
    var mCamera: bool
    ghost var sent: seq<nat>

    ghost function View(): State
      reads this
    {
      State(copies, closes, parcels, sent, returned, mRecordingProxyListener, mListener, mCamera)
    }

    constructor ()
      ensures View() == Init()
    {
      copies, closes, parcels, returned, sent := [], [], [], [], [];
      mRecordingProxyListener, mListener, mCamera := false, false, true;
    }

    // ---- parcels ----

    /** Writes the handles into a parcel, one after the other. */
    method WriteNativeHandles(ids: seq<nat>) returns (frames: seq<nat>)
      requires forall k :: 0 <= k < |ids| ==> ids[k] < |copies|
      ensures frames == FramesOf(copies, ids)
    {
      frames := [];
      for k := 0 to |ids|
        invariant |frames| == k && forall j :: 0 <= j < k ==> frames[j] == copies[ids[j]].frame
      {
        frames := frames + [copies[ids[k]].frame];
      }
    }

    /** Reads the handles of a parcel: a new copy for each. */
    method ReadNativeHandles(frames: seq<nat>, place: Place) returns (handles: seq<nat>)
      modifies this`copies
      ensures copies == old(copies) + NewCopies(frames, place)
      ensures handles == NewIds(|old(copies)|, |frames|)
    {
      handles := [];
      ghost var before := copies;
      for i := 0 to |frames|
        invariant |handles| == i && |copies| == |before| + i
        invariant forall j :: 0 <= j < i ==> handles[j] == |before| + j
        invariant copies[..|before|] == before
        invariant forall j :: 0 <= j < i ==> copies[|before| + j] == Copy(frames[j], place)
      {
        handles := handles + [|copies|];
        copies := copies + [Copy(frames[i], place)];
      }
    }

    /** A call that carries the handles. */
    method Transact(channel: Channel, ids: seq<nat>)
      requires forall k :: 0 <= k < |ids| ==> ids[k] < |copies|
      modifies this`copies, this`parcels
      ensures View() == Send(old(View()), ids, channel)
    {
      var frames := WriteNativeHandles(ids);
      parcels := parcels + [Parcel(channel, frames)];
      copies := Moved(copies, ids, Sent);
    }

    /** Closes the handles, one after the other. */
    method CloseHandles(ids: seq<nat>)
      requires forall k :: 0 <= k < |ids| ==> ids[k] < |copies|
      modifies this`copies, this`closes
      ensures View() == Close(old(View()), ids)
    {
      ghost var before, closed := copies, closes;
      for k := 0 to |ids|
        invariant |copies| == |before| && copies == Moved(before, ids[..k], Closed)
        invariant closes == closed + ids[..k]
      {
        MovedNext(before, ids, Closed, k);
        closes := closes + [ids[k]];
        copies := copies[ids[k] := copies[ids[k]].(place := Closed)];
        assert ids[..k + 1] == ids[..k] + [ids[k]];
      }
      assert ids[..|ids|] == ids;
    }

    // ---- passing frames on ----

    /** Duplicates the handles into a call, then closes this process's copies. */
    method PassOn(channel: Channel, ids: seq<nat>, ghost e: Event, ghost start: State, ghost before: seq<Event>)
      returns (ghost trace: seq<Event>)
      requires exists from :: Active(from) && At(copies, ids, from)
      requires Enabled(View(), e) && Step(View(), e) == Send(View(), ids, channel)
      requires LegalRun(start, before) && View() == Run(start, before)
      modifies this`copies, this`parcels, this`closes
      ensures LegalRun(start, trace) && View() == Run(start, trace)
      ensures At(copies, ids, Closed)
      ensures parcels == old(parcels) + [Parcel(channel, FramesOf(old(copies), ids))]
    {
      ghost var from :| Active(from) && At(copies, ids, from);
      RunAppend(start, before, e);
      MovedAll(copies, ids, from, Sent);
      Transact(channel, ids);
      trace := before + [e];
      RunAppend(start, trace, CloseSent(ids));
      MovedAll(copies, ids, Sent, Closed);
      CloseHandles(ids);
      trace := trace + [CloseSent(ids)];
    }

    /** Forwards to the recorder, unless the timestamps do not match the handles. */
    method ForwardToRecorder(timestamps: seq<int>, ids: seq<nat>, ghost start: State, ghost before: seq<Event>)
      returns (ghost trace: seq<Event>)
      requires At(copies, ids, ForRecorder)
      requires LegalRun(start, before) && View() == Run(start, before)
      modifies this`copies, this`parcels, this`closes
      ensures LegalRun(start, trace) && View() == Run(start, trace)
      ensures |timestamps| != |ids| ==> View() == old(View())
      ensures |timestamps| == |ids| ==> At(copies, ids, Closed)
                                        && parcels == old(parcels) + [Parcel(ToRecorder, FramesOf(old(copies), ids))]
    {
      trace := before;
      if |timestamps| != |ids| { return; }
      trace := PassOn(ToRecorder, ids, Forward(ids), start, before);
    }

    /** Back to the service, from whoever holds the copies in the app; without a camera they stay unclosed. */
    method ReleaseToCamera(ids: seq<nat>, ghost place: Place, ghost start: State, ghost before: seq<Event>)
      returns (ghost trace: seq<Event>)
      requires At(copies, ids, place) && (place == Unwanted || place == WithListener || place == Relaying)
      requires LegalRun(start, before) && View() == Run(start, before)
      modifies this`copies, this`parcels, this`closes
      ensures LegalRun(start, trace) && View() == Run(start, trace)
      ensures ReleaseDone(old(copies), old(parcels), old(closes), ids)
    {
      if !mCamera {
        RunAppend(start, before, Release(ids, place));
        MovedAll(copies, ids, place, Leaked);
        copies := Moved(copies, ids, Leaked);
        trace := before + [Release(ids, place)];
        return;
      }
      trace := PassOn(ToService, ids, Release(ids, place), start, before);
    }

    /** With a camera, sent to it and closed; without, neither. */
    ghost predicate ReleaseDone(was: seq<Copy>, calls: seq<Parcel>, closed: seq<nat>, ids: seq<nat>)
      reads this
      requires forall k :: 0 <= k < |ids| ==> ids[k] < |was|
    {
      if mCamera then
        At(copies, ids, Closed) && parcels == calls + [Parcel(ToService, FramesOf(was, ids))]
      else
        At(copies, ids, Leaked) && parcels == calls && closes == closed
    }

    /** Back to the app, from the recorder. */
    method ReleaseByRecorder(ids: seq<nat>, ghost start: State, ghost before: seq<Event>)
      returns (ghost trace: seq<Event>)
      requires At(copies, ids, WithRecorder)
      requires LegalRun(start, before) && View() == Run(start, before)
      modifies this`copies, this`parcels, this`closes
      ensures LegalRun(start, trace) && View() == Run(start, trace)
      ensures At(copies, ids, Closed)
      ensures parcels == old(parcels) + [Parcel(ToProxy, FramesOf(old(copies), ids))]
    {
      trace := PassOn(ToProxy, ids, ReleaseToProxy(ids), start, before);
    }

    /** The app looks for a listener of one kind, and the copies are for it or not. */
    method Look(ids: seq<nat>, place: Place, ghost e: Event, ghost start: State, ghost before: seq<Event>)
      returns (ghost trace: seq<Event>)
      requires exists from :: Active(from) && At(copies, ids, from)
      requires Enabled(View(), e) && Step(View(), e) == Move(View(), ids, place)
      requires LegalRun(start, before) && View() == Run(start, before)
      modifies this`copies
      ensures LegalRun(start, trace) && View() == Run(start, trace)
      ensures At(copies, ids, place) && FramesOf(copies, ids) == FramesOf(old(copies), ids)
    {
      ghost var from :| Active(from) && At(copies, ids, from);
      RunAppend(start, before, e);
      MovedAll(copies, ids, from, place);
      FramesMoved(copies, ids, place);
      copies := Moved(copies, ids, place);
      trace := before + [e];
    }

    /** The app's callback: to the proxy listener if there is one, else to the listener, else straight back. */
    method RecordingFrameHandleCallback(timestamps: seq<int>, ids: seq<nat>,
                                        ghost start: State, ghost before: seq<Event>)
      returns (ghost trace: seq<Event>)
      requires At(copies, ids, Arrived) && |timestamps| == |ids|
      requires LegalRun(start, before) && View() == Run(start, before)
      modifies this`copies, this`parcels, this`closes
      ensures LegalRun(start, trace) && View() == Run(start, trace)
      ensures mRecordingProxyListener ==>
                && At(copies, ids, Closed)
                && parcels == old(parcels) + [Parcel(ToRecorder, FramesOf(old(copies), ids))]
      ensures !mRecordingProxyListener && mListener ==> At(copies, ids, WithListener) && parcels == old(parcels)
      ensures !mRecordingProxyListener && !mListener ==> ReleaseDone(old(copies), old(parcels), old(closes), ids)
    {
      var place := if mRecordingProxyListener then ForRecorder else NoProxy;
      trace := Look(ids, place, LookForProxy(ids), start, before);
      if mRecordingProxyListener {
        trace := ForwardToRecorder(timestamps, ids, start, trace);
        return;
      }
      place := if mListener then WithListener else Unwanted;
      trace := Look(ids, place, LookForListener(ids), start, trace);
      if !mListener {
        trace := ReleaseToCamera(ids, Unwanted, start, trace);
      }
    }

    // ---- calls arriving ----

    /** Takes call k off the binder and reads its handles. */
    method Arrive(k: nat, place: Place, ghost start: State, ghost before: seq<Event>)
      returns (handles: seq<nat>, ghost trace: seq<Event>)
      requires k < |parcels|
      requires match parcels[k].channel
               case ToApp => place == Arrived
               case ToRecorder => place == WithRecorder
               case ToProxy => place == Relaying
               case ToService => false
      requires LegalRun(start, before) && View() == Run(start, before)
      modifies this`copies, this`parcels
      ensures LegalRun(start, trace) && View() == Run(start, trace)
      ensures handles == NewIds(|old(copies)|, |old(parcels)[k].frames|) && At(copies, handles, place)
      ensures View() == Deliver(old(View()), k)
    {
      RunAppend(start, before, Receive(k));
      NewIdsAt(copies, parcels[k].frames, place);
      var frames := parcels[k].frames;
      parcels := Without(parcels, k);
      handles := ReadNativeHandles(frames, place);
      trace := before + [Receive(k)];
    }

    /** The app receives recording frames from the service and deals with them at once. */
    method OnClientTransact(k: nat, timestamps: seq<int>, ghost start: State, ghost before: seq<Event>)
      returns (ghost trace: seq<Event>)
      requires k < |parcels| && parcels[k].channel == ToApp && |timestamps| == |parcels[k].frames|
      requires LegalRun(start, before) && View() == Run(start, before)
      modifies this`copies, this`parcels, this`closes
      ensures LegalRun(start, trace) && View() == Run(start, trace)
      ensures
        var frames := old(parcels)[k].frames;
        var handles := NewIds(|old(copies)|, |frames|);
        var calls := Without(old(parcels), k);
        if mRecordingProxyListener then
          At(copies, handles, Closed) && parcels == calls + [Parcel(ToRecorder, frames)]
        else if mListener then
          At(copies, handles, WithListener) && parcels == calls
        else
          ReleaseDone(old(copies) + NewCopies(frames, Arrived), calls, old(closes), handles)
    {
      var handles;
      ghost var frames := parcels[k].frames;
      NewFrames(copies, frames, Arrived);
      handles, trace := Arrive(k, Arrived, start, before);
      trace := RecordingFrameHandleCallback(timestamps, handles, start, trace);
    }

    /** The recorder receives recording frames, which its listener then holds. */
    method OnListenerTransact(k: nat, ghost start: State, ghost before: seq<Event>)
      returns (handles: seq<nat>, ghost trace: seq<Event>)
      requires k < |parcels| && parcels[k].channel == ToRecorder
      requires LegalRun(start, before) && View() == Run(start, before)
      modifies this`copies, this`parcels
      ensures LegalRun(start, trace) && View() == Run(start, trace)
      ensures At(copies, handles, WithRecorder) && FramesOf(copies, handles) == old(parcels)[k].frames
      ensures View() == Deliver(old(View()), k)
    {
      NewFrames(copies, parcels[k].frames, WithRecorder);
      handles, trace := Arrive(k, WithRecorder, start, before);
    }

    /** The app receives a release from the recorder and relays it to the service. */
    method OnProxyTransact(k: nat, ghost start: State, ghost before: seq<Event>)
      returns (ghost trace: seq<Event>)
      requires k < |parcels| && parcels[k].channel == ToProxy
      requires LegalRun(start, before) && View() == Run(start, before)
      modifies this`copies, this`parcels, this`closes
      ensures LegalRun(start, trace) && View() == Run(start, trace)
      ensures
        var frames := old(parcels)[k].frames;
        ReleaseDone(old(copies) + NewCopies(frames, Relaying), Without(old(parcels), k), old(closes),
                    NewIds(|old(copies)|, |frames|))
    {
      var handles;
      NewFrames(copies, parcels[k].frames, Relaying);
      handles, trace := Arrive(k, Relaying, start, before);
      trace := ReleaseToCamera(handles, Relaying, start, trace);
    }

    /** The service gets frames back. */
    method OnCameraTransact(k: nat, ghost start: State, ghost before: seq<Event>)
      returns (ghost trace: seq<Event>)
      requires k < |parcels| && parcels[k].channel == ToService
      requires LegalRun(start, before) && View() == Run(start, before)
      modifies this`parcels, this`returned
      ensures LegalRun(start, trace) && View() == Run(start, trace)
      ensures returned == old(returned) + old(parcels)[k].frames
    {
      RunAppend(start, before, Receive(k));
      returned := returned + parcels[k].frames;
      parcels := Without(parcels, k);
      trace := before + [Receive(k)];
    }
  }

  lemma FramesMoved(copies: seq<Copy>, ids: seq<nat>, place: Place)
    requires forall k :: 0 <= k < |ids| ==> ids[k] < |copies|
    ensures FramesOf(Moved(copies, ids, place), ids) == FramesOf(copies, ids)
  {
    forall k | 0 <= k < |ids| ensures Moved(copies, ids, place)[ids[k]].frame == copies[ids[k]].frame {
      MovedAt(copies, ids, place, ids[k]);
    }
  }
}
