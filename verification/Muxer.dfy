/**
 * The sample loop of the stagefright `muxer` command: samples of the selected tracks
 * are copied to the output, optionally trimmed to a time range by a started flag and
 * an offset that are updated as samples go by.
 */
module Muxer {

  datatype Sample = Sample(track: int, time: int, sync: bool, data: seq<int>)

  /** The trim options, in microseconds. */
  datatype Range = Range(start: int, end: int)

  /** A sync sample inside the range turns trimming on. */
  predicate Opens(s: Sample, range: Range)
  {
    s.sync && range.start < s.time <= range.end
  }

  /** The samples of the selected tracks, under the muxer's track numbers. */
  function Mapped(samples: seq<Sample>, tracks: map<int, int>): (ms: seq<Sample>)
  {
    if samples == [] then [] else
      var s := samples[|samples| - 1];
      Mapped(samples[..|samples| - 1], tracks)
      + if s.track in tracks then [s.(track := tracks[s.track])] else []
  }

  /** No sample from i to k lies past the end. */
  ghost predicate Clear(ms: seq<Sample>, range: Range, i: nat, k: nat)
    requires k < |ms|
  {
    forall j :: i <= j <= k ==> ms[j].time <= range.end
  }

  ghost predicate OpenAt(ms: seq<Sample>, range: Range, k: nat, i: nat)
    requires k < |ms|
  {
    i <= k && Opens(ms[i], range) && Clear(ms, range, i, k)
  }

  /** The earliest opening sample with none past the end since. */
  ghost predicate IsOpener(ms: seq<Sample>, range: Range, k: nat, i: nat)
    requires k < |ms|
  {
    OpenAt(ms, range, k, i) && forall j: nat :: j < i ==> !OpenAt(ms, range, k, j)
  }

  ghost function Shifted(s: Sample, offset: int): Sample
  {
    s.(time := s.time - offset)
  }

  /** What is written for sample k: nothing, or the sample relative to its opener. */
  ghost function Emitted(ms: seq<Sample>, range: Range, k: nat): (r: seq<Sample>)
    requires k < |ms|
  {
    if exists i: nat :: IsOpener(ms, range, k, i) then
      var i: nat :| IsOpener(ms, range, k, i);
      [Shifted(ms[k], ms[i].time)]
    else []
  }

  /** The trimmed output of the first n samples. */
  ghost function Trimmed(ms: seq<Sample>, range: Range, n: nat): (r: seq<Sample>)
    requires n <= |ms|
  {
    if n == 0 then [] else Trimmed(ms, range, n - 1) + Emitted(ms, range, n - 1)
  }

  lemma EmittedWith(ms: seq<Sample>, range: Range, k: nat, i: nat)
    requires k < |ms| && IsOpener(ms, range, k, i)
    ensures Emitted(ms, range, k) == [Shifted(ms[k], ms[i].time)]
  {
    forall j: nat | IsOpener(ms, range, k, j) ensures j == i {
      assert OpenAt(ms, range, k, j) && OpenAt(ms, range, k, i);
      assert !(j < i) && !(i < j);
    }
  }

  ghost predicate NoneOpen(ms: seq<Sample>, range: Range, k: nat)
    requires k < |ms|
  {
    forall i: nat :: i <= k ==> !OpenAt(ms, range, k, i)
  }

  lemma EmittedNone(ms: seq<Sample>, range: Range, k: nat)
    requires k < |ms| && NoneOpen(ms, range, k)
    ensures Emitted(ms, range, k) == []
  {
  }

  datatype Trim = Trim(started: bool, offset: int)

  /** The flag and offset after the first n samples, in terms of the samples alone. */
  ghost predicate Tracks(t: Trim, ms: seq<Sample>, range: Range, n: nat)
    requires n <= |ms|
  {
    if t.started then
      n > 0 && exists i: nat :: IsOpener(ms, range, n - 1, i) && t.offset == ms[i].time
    else
      n > 0 ==> NoneOpen(ms, range, n - 1)
  }

  function Advance(t: Trim, s: Sample, range: Range): Trim
  {
    if s.time > range.end then t.(started := false)
    else if Opens(s, range) && !t.started then Trim(true, s.time)
    else t
  }

  lemma OpenAtNext(ms: seq<Sample>, range: Range, n: nat, i: nat)
    requires 0 < n < |ms| && i < n
    ensures OpenAt(ms, range, n, i) <==> OpenAt(ms, range, n - 1, i) && ms[n].time <= range.end
  {
    assert Clear(ms, range, i, n) <==> Clear(ms, range, i, n - 1) && ms[n].time <= range.end;
  }

  lemma OpenerStays(ms: seq<Sample>, range: Range, n: nat, i: nat)
    requires 0 < n < |ms| && ms[n].time <= range.end && IsOpener(ms, range, n - 1, i)
    ensures IsOpener(ms, range, n, i)
  {
    OpenAtNext(ms, range, n, i);
    forall j: nat | j < i ensures !OpenAt(ms, range, n, j) { OpenAtNext(ms, range, n, j); }
  }

  lemma AdvanceStarted(t: Trim, ms: seq<Sample>, range: Range, n: nat)
    requires n < |ms| && Tracks(t, ms, range, n) && t.started
    requires ms[n].time <= range.end
    ensures Tracks(t, ms, range, n + 1) && Emitted(ms, range, n) == [Shifted(ms[n], t.offset)]
  {
    var i: nat :| IsOpener(ms, range, n - 1, i) && t.offset == ms[i].time;
    OpenerStays(ms, range, n, i);
    EmittedWith(ms, range, n, i);
  }

  lemma AdvanceOpens(t: Trim, ms: seq<Sample>, range: Range, n: nat)
    requires n < |ms| && Tracks(t, ms, range, n) && !t.started
    requires Opens(ms[n], range)
    ensures Tracks(Trim(true, ms[n].time), ms, range, n + 1)
    ensures Emitted(ms, range, n) == [Shifted(ms[n], ms[n].time)]
  {
    forall j: nat | j < n ensures !OpenAt(ms, range, n, j) { OpenAtNext(ms, range, n, j); }
    assert IsOpener(ms, range, n, n);
    EmittedWith(ms, range, n, n);
  }

  lemma AdvanceOff(t: Trim, ms: seq<Sample>, range: Range, n: nat)
    requires n < |ms| && Tracks(t, ms, range, n)
    requires ms[n].time > range.end || (!t.started && !Opens(ms[n], range))
    ensures Tracks(t.(started := false), ms, range, n + 1) && Emitted(ms, range, n) == []
  {
    forall j: nat | j <= n ensures !OpenAt(ms, range, n, j) {
      if j < n { OpenAtNext(ms, range, n, j); }
    }
    EmittedNone(ms, range, n);
  }

  /** One sample: the flag and offset stay meaningful, and what is written is what should be. */
  lemma AdvanceTracks(t: Trim, ms: seq<Sample>, range: Range, n: nat)
    requires n < |ms| && Tracks(t, ms, range, n)
    ensures
      var u := Advance(t, ms[n], range);
      && Tracks(u, ms, range, n + 1)
      && Emitted(ms, range, n) == if u.started then [Shifted(ms[n], u.offset)] else []
  {
    if ms[n].time > range.end || (!t.started && !Opens(ms[n], range)) {
      AdvanceOff(t, ms, range, n);
    } else if t.started {
      AdvanceStarted(t, ms, range, n);
    } else {
      AdvanceOpens(t, ms, range, n);
    }
  }

  /** The trim state after one sample of a selected track. */
  method UpdateTrim(s: Sample, enableTrim: bool, range: Range, trimStarted: bool, trimOffsetTimeUs: int)
    returns (started: bool, offset: int)
    ensures Trim(started, offset) == if enableTrim then Advance(Trim(trimStarted, trimOffsetTimeUs), s, range)
                                     else Trim(trimStarted, trimOffsetTimeUs)
  {
    started, offset := trimStarted, trimOffsetTimeUs;
    if s.sync {
      if enableTrim && s.time > range.start && s.time <= range.end {
        if !started { offset := s.time; }
        started := true;
      }
    }
    if enableTrim && s.time > range.end { started := false; }
  }

  /** What the loop has established after n selected samples. */
  ghost predicate Progress(t: Trim, written: seq<Sample>, enableTrim: bool, ms: seq<Sample>, range: Range, n: nat)
    requires n <= |ms|
  {
    if enableTrim then Tracks(t, ms, range, n) && written == Trimmed(ms, range, n)
    else t == Trim(false, 0) && written == ms[..n]
  }

  lemma ProgressStep(t: Trim, u: Trim, written: seq<Sample>, enableTrim: bool, ms: seq<Sample>, range: Range, n: nat)
    requires n < |ms| && Progress(t, written, enableTrim, ms, range, n)
    requires u == if enableTrim then Advance(t, ms[n], range) else t
    ensures !enableTrim || u.started ==> Progress(u, written + [Shifted(ms[n], u.offset)], enableTrim, ms, range, n + 1)
    ensures enableTrim && !u.started ==> Progress(u, written, enableTrim, ms, range, n + 1)
  {
    if enableTrim {
      AdvanceTracks(t, ms, range, n);
    } else {
      assert Shifted(ms[n], 0) == ms[n];
      assert ms[..n + 1] == ms[..n] + [ms[n]];
    }
  }

  /**
   * The loop over everything the extractor yields.  A sample of a track that is not in
   * the map is skipped without touching the trim state.
   */
  method Muxing(samples: seq<Sample>, tracks: map<int, int>, enableTrim: bool, range: Range)
    returns (written: seq<Sample>)
    ensures
      var ms := Mapped(samples, tracks);
      written == if enableTrim then Trimmed(ms, range, |ms|) else ms
  {
    written := [];
    ghost var all := Mapped(samples, tracks);
    ghost var n := 0;
    var trimStarted, trimOffsetTimeUs := false, 0;
    var pos := 0;
    while pos < |samples|
      invariant pos <= |samples| && n <= |all|
      invariant all[..n] == Mapped(samples[..pos], tracks)
      invariant Progress(Trim(trimStarted, trimOffsetTimeUs), written, enableTrim, all, range, n)
    {
      var s := samples[pos];
      MappedNext(samples, tracks, pos, n);
      if s.track in tracks {
        ghost var before := Trim(trimStarted, trimOffsetTimeUs);
        trimStarted, trimOffsetTimeUs := UpdateTrim(s, enableTrim, range, trimStarted, trimOffsetTimeUs);
        ProgressStep(before, Trim(trimStarted, trimOffsetTimeUs), written, enableTrim, all, range, n);
        if !enableTrim || (enableTrim && trimStarted) {
          var w := Sample(tracks[s.track], s.time - trimOffsetTimeUs, s.sync, s.data);
          assert w == Shifted(all[n], trimOffsetTimeUs);
          written := written + [w];
        }
        n := n + 1;
      }
      pos := pos + 1;
    }
    assert samples[..pos] == samples;
  }

  lemma MappedPrefix(samples: seq<Sample>, tracks: map<int, int>, pos: nat)
    requires pos <= |samples|
    ensures Mapped(samples[..pos], tracks) <= Mapped(samples, tracks)
    decreases |samples| - pos
  {
    if pos < |samples| {
      MappedPrefix(samples, tracks, pos + 1);
      assert samples[..pos + 1][..pos] == samples[..pos];
    } else {
      assert samples[..pos] == samples;
    }
  }

  /** The next mapped sample, if the next sample is mapped. */
  lemma MappedNext(samples: seq<Sample>, tracks: map<int, int>, pos: nat, n: nat)
    requires pos < |samples| && n <= |Mapped(samples, tracks)|
    requires Mapped(samples, tracks)[..n] == Mapped(samples[..pos], tracks)
    ensures
      var all, s := Mapped(samples, tracks), samples[pos];
      if s.track in tracks then
        n < |all| && all[n] == s.(track := tracks[s.track]) && all[..n + 1] == Mapped(samples[..pos + 1], tracks)
      else
        all[..n] == Mapped(samples[..pos + 1], tracks)
  {
    assert samples[..pos + 1][..pos] == samples[..pos];
    MappedPrefix(samples, tracks, pos + 1);
  }

  ghost predicate InTimeOrder(ms: seq<Sample>)
  {
    forall i, j :: 0 <= i < j < |ms| ==> ms[i].time <= ms[j].time
  }

  /** Every sample of a piece, relative to the piece's first. */
  ghost function ShiftedAll(ms: seq<Sample>, offset: int): (r: seq<Sample>)
    ensures |r| == |ms|
  {
    seq(|ms|, k requires 0 <= k < |ms| => Shifted(ms[k], offset))
  }

  /** The first sample that may open the output, and the end of the samples within the range. */
  ghost predicate Bounds(ms: seq<Sample>, range: Range, first: nat, cut: nat)
  {
    && first < cut <= |ms|
    && Opens(ms[first], range) && (forall i :: 0 <= i < first ==> !Opens(ms[i], range))
    && ms[cut - 1].time <= range.end && (forall i :: cut <= i < |ms| ==> ms[i].time > range.end)
  }

  /** The slice up to sample n. */
  ghost function SliceTo(ms: seq<Sample>, first: nat, cut: nat, n: nat): (r: seq<Sample>)
    requires first < cut <= |ms|
  {
    if n <= first then [] else ShiftedAll(ms[first..if n < cut then n else cut], ms[first].time)
  }

  lemma SliceGrows(ms: seq<Sample>, first: nat, cut: nat, k: nat)
    requires first < cut <= |ms|
    ensures SliceTo(ms, first, cut, k + 1)
         == SliceTo(ms, first, cut, k) + if first <= k < cut then [Shifted(ms[k], ms[first].time)] else []
  {
    if first <= k < cut {
      assert ms[first..k + 1] == ms[first..k] + [ms[k]];
    }
  }

  lemma EmittedInSlice(ms: seq<Sample>, range: Range, first: nat, cut: nat, k: nat)
    requires InTimeOrder(ms) && Bounds(ms, range, first, cut) && k < |ms|
    ensures Emitted(ms, range, k) == if first <= k < cut then [Shifted(ms[k], ms[first].time)] else []
  {
    if first <= k < cut {
      assert ms[cut - 1].time <= range.end;
      assert Clear(ms, range, first, k);
      assert IsOpener(ms, range, k, first);
      EmittedWith(ms, range, k, first);
    } else {
      forall i: nat | i <= k ensures !OpenAt(ms, range, k, i) {
        if k < first { assert !Opens(ms[i], range); } else { assert !Clear(ms, range, i, k); }
      }
      EmittedNone(ms, range, k);
    }
  }

  lemma {:induction false} SliceSoFar(ms: seq<Sample>, range: Range, first: nat, cut: nat, n: nat)
    requires InTimeOrder(ms) && Bounds(ms, range, first, cut) && n <= |ms|
    ensures Trimmed(ms, range, n) == SliceTo(ms, first, cut, n)
  {
    if n > 0 {
      SliceSoFar(ms, range, first, cut, n - 1);
      EmittedInSlice(ms, range, first, cut, n - 1);
      SliceGrows(ms, first, cut, n - 1);
    }
  }

  /**
   * With samples in non-decreasing time order the output is one slice: from the first
   * opening sample through the last within the range, shifted to begin at 0.
   */
  lemma TrimmedIsSlice(ms: seq<Sample>, range: Range, first: nat, cut: nat)
    requires InTimeOrder(ms) && Bounds(ms, range, first, cut)
    ensures Trimmed(ms, range, |ms|) == ShiftedAll(ms[first..cut], ms[first].time)
    ensures Trimmed(ms, range, |ms|)[0].time == 0
  {
    SliceSoFar(ms, range, first, cut, |ms|);
  }

  /** When no sample may open the output, in whatever order, nothing is written. */
  lemma {:induction false} NothingOpens(ms: seq<Sample>, range: Range, n: nat)
    requires n <= |ms| && forall i :: 0 <= i < |ms| ==> !Opens(ms[i], range)
    ensures Trimmed(ms, range, n) == []
  {
    if n > 0 {
      NothingOpens(ms, range, n - 1);
      EmittedNone(ms, range, n - 1);
    }
  }

  /** One of the two lemmas above always applies. */
  lemma BoundsExist(ms: seq<Sample>, range: Range) returns (first: nat, cut: nat)
    requires InTimeOrder(ms) && exists i :: 0 <= i < |ms| && Opens(ms[i], range)
    ensures Bounds(ms, range, first, cut)
  {
    first := 0;
    while !Opens(ms[first], range)
      invariant first < |ms| && forall i :: 0 <= i < first ==> !Opens(ms[i], range)
      decreases |ms| - first
    {
      first := first + 1;
    }
    cut := |ms|;
    while ms[cut - 1].time > range.end
      invariant first < cut <= |ms| && forall i :: cut <= i < |ms| ==> ms[i].time > range.end
      decreases cut
    {
      cut := cut - 1;
    }
  }

  /** A written sample is a sample within the range, relative to an opening sample no later than itself. */
  ghost predicate Explained(w: Sample, ms: seq<Sample>, range: Range)
  {
    exists k: nat, i: nat ::
      k < |ms| && IsOpener(ms, range, k, i) && ms[k].time <= range.end && w == Shifted(ms[k], ms[i].time)
  }

  /** No sample before n was written. */
  ghost predicate NoneBefore(ms: seq<Sample>, range: Range, n: nat)
    requires n <= |ms|
  {
    forall k: nat :: k < n ==> NoneOpen(ms, range, k)
  }

  /** An opener that is not the sample itself was written before it. */
  lemma OpenerOfFirst(ms: seq<Sample>, range: Range, k: nat, i: nat)
    requires k < |ms| && IsOpener(ms, range, k, i) && NoneBefore(ms, range, k)
    ensures i == k
  {
    if i < k {
      assert NoneOpen(ms, range, i);
      assert Clear(ms, range, i, i);
      assert OpenAt(ms, range, i, i);
    }
  }

  lemma EmittedCases(ms: seq<Sample>, range: Range, k: nat)
    requires k < |ms|
    ensures Emitted(ms, range, k) == [] ==> NoneOpen(ms, range, k)
    ensures |Emitted(ms, range, k)| <= 1
    ensures Emitted(ms, range, k) != [] ==> Explained(Emitted(ms, range, k)[0], ms, range)
    ensures Emitted(ms, range, k) != [] && NoneBefore(ms, range, k) ==>
              Emitted(ms, range, k)[0].sync && Emitted(ms, range, k)[0].time == 0
  {
    if i: nat :| IsOpener(ms, range, k, i) {
      EmittedWith(ms, range, k, i);
      if NoneBefore(ms, range, k) { OpenerOfFirst(ms, range, k, i); }
    } else {
      NoneBelow(ms, range, k, k);
    }
  }

  lemma {:induction false} NoneBelow(ms: seq<Sample>, range: Range, k: nat, i: nat)
    requires k < |ms| && forall j: nat :: !IsOpener(ms, range, k, j)
    ensures forall j: nat :: j <= i ==> !OpenAt(ms, range, k, j)
  {
    if i > 0 { NoneBelow(ms, range, k, i - 1); }
    assert !IsOpener(ms, range, k, i);
  }

  lemma {:induction false} AllExplained(ms: seq<Sample>, range: Range, n: nat)
    requires n <= |ms|
    ensures forall i :: 0 <= i < |Trimmed(ms, range, n)| ==> Explained(Trimmed(ms, range, n)[i], ms, range)
  {
    if n > 0 {
      AllExplained(ms, range, n - 1);
      EmittedCases(ms, range, n - 1);
      var before, more := Trimmed(ms, range, n - 1), Emitted(ms, range, n - 1);
      assert Trimmed(ms, range, n) == before + more;
      forall i | 0 <= i < |before + more| ensures Explained((before + more)[i], ms, range) {
        if i < |before| { assert (before + more)[i] == before[i]; } else { assert (before + more)[i] == more[0]; }
      }
    }
  }

  lemma {:induction false} FirstIsSync(ms: seq<Sample>, range: Range, n: nat)
    requires n <= |ms|
    ensures Trimmed(ms, range, n) != [] ==> Trimmed(ms, range, n)[0].sync && Trimmed(ms, range, n)[0].time == 0
    ensures Trimmed(ms, range, n) == [] ==> NoneBefore(ms, range, n)
  {
    if n > 0 {
      FirstIsSync(ms, range, n - 1);
      EmittedCases(ms, range, n - 1);
      var before, more := Trimmed(ms, range, n - 1), Emitted(ms, range, n - 1);
      assert Trimmed(ms, range, n) == before + more;
      if before == [] { assert before + more == more; } else { assert (before + more)[0] == before[0]; }
    }
  }

  /**
   * In any order: every written sample is within the range, the first is a sync sample
   * at time 0, and nothing is written only when nothing may open the output.
   */
  lemma AnyOrder(ms: seq<Sample>, range: Range)
    ensures var out := Trimmed(ms, range, |ms|);
      && (forall i :: 0 <= i < |out| ==> Explained(out[i], ms, range))
      && (out != [] ==> out[0].sync && out[0].time == 0)
      && (out == [] <==>
            forall i :: 0 <= i < |ms| ==> !(ms[i].sync && range.start < ms[i].time <= range.end))
  {
    AllExplained(ms, range, |ms|);
    FirstIsSync(ms, range, |ms|);
    if Trimmed(ms, range, |ms|) == [] {
      forall i | 0 <= i < |ms| ensures !Opens(ms[i], range) {
        assert NoneOpen(ms, range, i);
        assert Clear(ms, range, i, i) <==> ms[i].time <= range.end;
        assert !OpenAt(ms, range, i, i);
      }
    } else if forall i :: 0 <= i < |ms| ==> !Opens(ms[i], range) {
      NothingOpens(ms, range, |ms|);
    }
  }

  // One piece or several

  /** An opening sample, later one past the end, later another opening sample. */
  ghost predicate Restarts(ms: seq<Sample>, range: Range)
  {
    exists i, j, k :: 0 <= i < j < k < |ms| && Restart(ms, range, i, j, k)
  }

  ghost predicate Restart(ms: seq<Sample>, range: Range, i: nat, j: nat, k: nat)
    requires i < |ms| && j < |ms| && k < |ms|
  {
    Opens(ms[i], range) && ms[j].time > range.end && Opens(ms[k], range)
  }

  /** All written samples are relative to the same opening sample. */
  ghost predicate OnePiece(ms: seq<Sample>, range: Range)
  {
    forall k: nat, i: nat, k': nat, i': nat ::
      k < |ms| && k' < |ms| && IsOpener(ms, range, k, i) && IsOpener(ms, range, k', i') ==> i == i'
  }

  lemma OpenerExists(ms: seq<Sample>, range: Range, k: nat, i: nat) returns (opener: nat)
    requires k < |ms| && OpenAt(ms, range, k, i)
    ensures opener <= i && IsOpener(ms, range, k, opener)
  {
    if forall j: nat :: !IsOpener(ms, range, k, j) {
      NoneBelow(ms, range, k, i);
      assert false;
    }
    opener :| IsOpener(ms, range, k, opener);
    assert !(i < opener);
  }

  lemma OpensIsOpen(ms: seq<Sample>, range: Range, i: nat)
    requires i < |ms| && Opens(ms[i], range)
    ensures OpenAt(ms, range, i, i)
  {
    assert Clear(ms, range, i, i);
  }

  /** Two openers have a sample past the end between them. */
  lemma TwoOpenersRestart(ms: seq<Sample>, range: Range, k: nat, i: nat, k': nat, i': nat)
    requires k < |ms| && k' < |ms| && i < i'
    requires IsOpener(ms, range, k, i) && IsOpener(ms, range, k', i')
    ensures Restarts(ms, range)
  {
    assert !OpenAt(ms, range, k', i);
    assert !Clear(ms, range, i, k');
    var j :| i <= j <= k' && ms[j].time > range.end;
    assert Restart(ms, range, i, j, i');
  }

  /**
   * In any order, all written samples are relative to one opening sample if and only if no
   * opening sample follows a sample past the end that follows an opening sample.
   */
  lemma OnePieceExactly(ms: seq<Sample>, range: Range)
    ensures OnePiece(ms, range) <==> !Restarts(ms, range)
  {
    if Restarts(ms, range) {
      var i, j, k :| 0 <= i < j < k < |ms| && Restart(ms, range, i, j, k);
      OpensIsOpen(ms, range, i);
      OpensIsOpen(ms, range, k);
      var a := OpenerExists(ms, range, i, i);
      var b := OpenerExists(ms, range, k, k);
      assert Clear(ms, range, b, k);
      assert b > j;
    } else {
      forall k: nat, i: nat, k': nat, i': nat
        | k < |ms| && k' < |ms| && IsOpener(ms, range, k, i) && IsOpener(ms, range, k', i')
        ensures i == i'
      {
        if i < i' { TwoOpenersRestart(ms, range, k, i, k', i'); }
        if i' < i { TwoOpenersRestart(ms, range, k', i', k, i); }
      }
    }
  }

  /** The samples written, with their own times. */
  ghost function Kept(ms: seq<Sample>, range: Range, n: nat): (r: seq<Sample>)
    requires n <= |ms|
  {
    if n == 0 then [] else
      Kept(ms, range, n - 1) + if NoneOpen(ms, range, n - 1) then [] else [ms[n - 1]]
  }

  /** In one piece, the output is the kept samples, all shifted by the opening sample's time. */
  lemma {:induction false} OneShift(ms: seq<Sample>, range: Range, n: nat, k: nat, i: nat)
    requires n <= |ms| && OnePiece(ms, range) && k < |ms| && IsOpener(ms, range, k, i)
    ensures Trimmed(ms, range, n) == ShiftedAll(Kept(ms, range, n), ms[i].time)
    decreases n
  {
    if n > 0 {
      OneShift(ms, range, n - 1, k, i);
      if NoneOpen(ms, range, n - 1) {
        EmittedNone(ms, range, n - 1);
      } else {
        var o: nat :| o <= n - 1 && OpenAt(ms, range, n - 1, o);
        var opener := OpenerExists(ms, range, n - 1, o);
        EmittedWith(ms, range, n - 1, opener);
        assert opener == i;
      }
      assert Kept(ms, range, n)[..|Kept(ms, range, n - 1)|] == Kept(ms, range, n - 1);
    }
  }

  /** Out of order, a sample past the end may be followed by a second piece that begins at 0 again. */
  lemma OutOfOrderRestarts()
    ensures
      var s := (t: int) => Sample(0, t, true, []);
      Trimmed([s(1), s(9), s(2)], Range(0, 5), 3) == [s(0), s(0)]
  {
    var s := (t: int) => Sample(0, t, true, []);
    var ms, range := [s(1), s(9), s(2)], Range(0, 5);
    assert IsOpener(ms, range, 0, 0);
    EmittedWith(ms, range, 0, 0);
    assert forall i: nat :: i <= 1 ==> !Clear(ms, range, i, 1) && !Clear(ms, range, i, 2) by { assert ms[1].time > 5; }
    EmittedNone(ms, range, 1);
    assert IsOpener(ms, range, 2, 2);
    EmittedWith(ms, range, 2, 2);
    assert Trimmed(ms, range, 1) == Trimmed(ms, range, 0) + [s(0)];
    assert Trimmed(ms, range, 2) == Trimmed(ms, range, 1);
  }
}
