/** SortedVector<String8>: distinct strings in strcmp order. */
module SortedStrings {

  predicate Less(a: string, b: string)
  {
    if b == "" then false
    else if a == "" then true
    else a[0] < b[0] || (a[0] == b[0] && Less(a[1..], b[1..]))
  }

  lemma {:induction false} LessIsStrict(a: string, b: string)
    ensures Less(a, b) ==> !Less(b, a) && a != b
    ensures a == b || Less(a, b) || Less(b, a)
    decreases |a|
  {
    if a != "" && b != "" && a[0] == b[0] {
      LessIsStrict(a[1..], b[1..]);
      assert a == [a[0]] + a[1..] && b == [b[0]] + b[1..];
    }
  }

  lemma {:induction false} LessIsTransitive(a: string, b: string, c: string)
    requires Less(a, b) && Less(b, c)
    ensures Less(a, c)
    decreases |a|
  {
    if a != "" && a[0] == b[0] && b[0] == c[0] {
      LessIsTransitive(a[1..], b[1..], c[1..]);
    }
  }

  ghost predicate Increasing(ss: seq<string>)
  {
    forall i, j :: 0 <= i < j < |ss| ==> Less(ss[i], ss[j])
  }

  lemma IncreasingIsDistinct(ss: seq<string>, i: nat, j: nat)
    requires Increasing(ss) && i < |ss| && j < |ss| && ss[i] == ss[j]
    ensures i == j
  {
    LessIsStrict(ss[i], ss[j]);
  }

  /** SortedVector::add */
  function Add(ss: seq<string>, s: string): seq<string>
  {
    if ss == [] || Less(s, ss[0]) then [s] + ss
    else if s == ss[0] then ss
    else [ss[0]] + Add(ss[1..], s)
  }

  ghost predicate AllAbove(ss: seq<string>, low: string)
  {
    forall i :: 0 <= i < |ss| ==> Less(low, ss[i])
  }

  lemma {:induction false} AddAllAbove(ss: seq<string>, s: string, low: string)
    requires AllAbove(ss, low) && Less(low, s)
    ensures AllAbove(Add(ss, s), low)
    decreases |ss|
  {
    if ss != [] && !Less(s, ss[0]) && s != ss[0] {
      AddAllAbove(ss[1..], s, low);
    }
  }

  lemma {:induction false} AddKeepsIncreasing(ss: seq<string>, s: string)
    requires Increasing(ss)
    ensures Increasing(Add(ss, s))
    decreases |ss|
  {
    if ss == [] {
    } else if Less(s, ss[0]) {
      forall j | 0 <= j < |ss|
        ensures Less(s, ss[j])
      {
        if j > 0 { LessIsTransitive(s, ss[0], ss[j]); }
      }
    } else if s != ss[0] {
      LessIsStrict(s, ss[0]);
      AddKeepsIncreasing(ss[1..], s);
      AddAllAbove(ss[1..], s, ss[0]);
    }
  }

  lemma {:induction false} AddMembers(ss: seq<string>, s: string)
    ensures forall x :: x in Add(ss, s) <==> x in ss || x == s
    decreases |ss|
  {
    if ss != [] && !Less(s, ss[0]) {
      assert ss == [ss[0]] + ss[1..];
      if s != ss[0] { AddMembers(ss[1..], s); }
    }
  }

  /** Adding in order appends. */
  lemma {:induction false} AddAtEnd(ss: seq<string>, s: string)
    requires Increasing(ss + [s])
    ensures Add(ss, s) == ss + [s]
    decreases |ss|
  {
    if ss != [] {
      assert Less((ss + [s])[0], (ss + [s])[|ss|]);
      LessIsStrict(ss[0], s);
      assert (ss + [s])[1..] == ss[1..] + [s];
      AddAtEnd(ss[1..], s);
      assert ss == [ss[0]] + ss[1..];
    }
  }

  /** SortedVector::indexOf for an element that is there. */
  function IndexOf(ss: seq<string>, s: string): (i: nat)
    requires s in ss
    ensures i < |ss| && ss[i] == s
  {
    if ss[0] == s then 0 else 1 + IndexOf(ss[1..], s)
  }

  // What adding does to the elements that are there

  function AddAll(ss: seq<string>, more: seq<string>): seq<string>
    decreases |more|
  {
    if more == [] then ss else AddAll(Add(ss, more[0]), more[1..])
  }

  /** Nothing moves down past an index, and an element stays at it unless something smaller is new. */
  lemma {:induction false} AddAt(ss: seq<string>, s: string, i: nat)
    requires Increasing(ss) && i < |ss|
    ensures i < |Add(ss, s)|
    ensures s in ss || !Less(s, ss[i]) ==> Add(ss, s)[i] == ss[i]
    ensures s !in ss && Less(s, ss[i]) ==> Less(Add(ss, s)[i], ss[i])
    decreases |ss|
  {
    if Less(s, ss[0]) {
      forall j | 0 <= j < |ss| ensures Less(s, ss[j]) {
        if j > 0 { LessIsTransitive(s, ss[0], ss[j]); }
      }
      forall j | 0 <= j < |ss| ensures ss[j] != s { LessIsStrict(s, ss[j]); }
    } else if s != ss[0] && i > 0 {
      AddAt(ss[1..], s, i - 1);
    } else if s != ss[0] {
      LessIsStrict(s, ss[0]);
    }
  }

  lemma {:induction false} AddAllLower(ss: seq<string>, more: seq<string>, i: nat, bound: string)
    requires Increasing(ss) && i < |ss| && Less(ss[i], bound)
    ensures i < |AddAll(ss, more)| && Less(AddAll(ss, more)[i], bound)
    decreases |more|
  {
    if more != [] {
      AddAt(ss, more[0], i);
      AddKeepsIncreasing(ss, more[0]);
      var t := Add(ss, more[0]);
      if t[i] != ss[i] { LessIsTransitive(t[i], ss[i], bound); }
      AddAllLower(t, more[1..], i, bound);
    }
  }

  /** Something new is smaller than the element at i. */
  ghost predicate Displaces(ss: seq<string>, more: seq<string>, i: nat)
    requires i < |ss|
  {
    exists j :: 0 <= j < |more| && more[j] !in ss && Less(more[j], ss[i])
  }

  /** An element keeps its index exactly when nothing smaller is new. */
  lemma {:induction false} AddAllAt(ss: seq<string>, more: seq<string>, i: nat)
    requires Increasing(ss) && i < |ss|
    ensures i < |AddAll(ss, more)|
    ensures AddAll(ss, more)[i] == ss[i] <==> !Displaces(ss, more, i)
    decreases |more|
  {
    if more != [] {
      var s, t := more[0], Add(ss, more[0]);
      AddAt(ss, s, i);
      AddKeepsIncreasing(ss, s);
      if s !in ss && Less(s, ss[i]) {
        AddAllLower(t, more[1..], i, ss[i]);
        LessIsStrict(AddAll(ss, more)[i], ss[i]);
        assert Displaces(ss, more, i);
      } else {
        AddAllAt(t, more[1..], i);
        AddMembers(ss, s);
        if Displaces(t, more[1..], i) {
          var j :| 0 <= j < |more[1..]| && more[1..][j] !in t && Less(more[1..][j], t[i]);
          assert more[j + 1] !in ss && Less(more[j + 1], ss[i]);
        }
        if Displaces(ss, more, i) {
          var j :| 0 <= j < |more| && more[j] !in ss && Less(more[j], ss[i]);
          assert j > 0 && more[1..][j - 1] == more[j] && more[j] !in t;
        }
      }
    }
  }

  lemma {:induction false} AddAllMembers(ss: seq<string>, more: seq<string>)
    ensures forall x :: x in AddAll(ss, more) <==> x in ss || x in more
    decreases |more|
  {
    if more != [] {
      AddMembers(ss, more[0]);
      AddAllMembers(Add(ss, more[0]), more[1..]);
      assert more == [more[0]] + more[1..];
    }
  }
}
