/**
 * The list work behind CameraMetadata's permission filter: std::sort,
 * std::set_difference and the 32-bit conversions between them.
 */
module KeyLists {
  import opened Common

  const TWO_31 := 0x8000_0000

  function ToUnsigned(x: int): (u: int)
    ensures 0 <= u < TWO_32
    ensures -TWO_31 <= x < TWO_31 ==> u == if x < 0 then x + TWO_32 else x
  {
    x % TWO_32
  }

  /** The signed integer a 32-bit word stands for. */
  function ToSigned(word: int): (x: int)
    ensures 0 <= word < TWO_32 ==> -TWO_31 <= x < TWO_31 && ToUnsigned(x) == word
  {
    Key(word, true)
  }

  /** How a 32-bit word compares: as itself, or as a signed integer. */
  function Key(word: int, signed: bool): int
  {
    if signed && word >= TWO_31 then word - TWO_32 else word
  }

  ghost predicate Ordered(s: seq<int>, signed: bool)
  {
    forall i, j :: 0 <= i < j < |s| ==> Key(s[i], signed) <= Key(s[j], signed)
  }

  /** Increasing as unsigned words. */
  ghost predicate Sorted(s: seq<int>)
  {
    forall i, j :: 0 <= i < j < |s| ==> s[i] <= s[j]
  }

  ghost predicate AreWords(s: seq<int>)
  {
    forall i :: 0 <= i < |s| ==> 0 <= s[i] < TWO_32
  }

  function Insert(x: int, s: seq<int>, signed: bool): seq<int>
  {
    if s == [] || Key(x, signed) <= Key(s[0], signed) then [x] + s
    else [s[0]] + Insert(x, s[1..], signed)
  }

  ghost predicate KeysAbove(s: seq<int>, signed: bool, low: int)
  {
    forall i :: 0 <= i < |s| ==> low <= Key(s[i], signed)
  }

  lemma {:induction false} InsertOrdered(x: int, s: seq<int>, signed: bool, low: int)
    requires Ordered(s, signed) && KeysAbove(s, signed, low) && low <= Key(x, signed)
    ensures Ordered(Insert(x, s, signed), signed) && KeysAbove(Insert(x, s, signed), signed, low)
    decreases |s|
  {
    if s != [] && Key(x, signed) > Key(s[0], signed) {
      InsertOrdered(x, s[1..], signed, Key(s[0], signed));
    }
  }

  lemma {:induction false} InsertMultiset(x: int, s: seq<int>, signed: bool)
    ensures multiset(Insert(x, s, signed)) == multiset(s) + multiset{x}
    decreases |s|
  {
    if s != [] && Key(x, signed) > Key(s[0], signed) {
      assert s == [s[0]] + s[1..];
      InsertMultiset(x, s[1..], signed);
    }
  }

  lemma InsertKeeps(x: int, s: seq<int>, signed: bool)
    requires Ordered(s, signed)
    ensures Ordered(Insert(x, s, signed), signed) && multiset(Insert(x, s, signed)) == multiset{x} + multiset(s)
  {
    InsertMultiset(x, s, signed);
    InsertOrdered(x, s, signed,
                  if s == [] || Key(x, signed) < Key(s[0], signed) then Key(x, signed) else Key(s[0], signed));
  }

  lemma HeadMultiset(s: seq<int>)
    requires s != []
    ensures multiset(s) == multiset{s[0]} + multiset(s[1..])
  {
    assert s == [s[0]] + s[1..];
  }

  /** std::sort on a vector of signed or unsigned 32-bit integers. */
  function Sort(s: seq<int>, signed: bool): (r: seq<int>)
    ensures Ordered(r, signed) && multiset(r) == multiset(s)
  {
    if s == [] then []
    else
      var rest := Sort(s[1..], signed);
      HeadMultiset(s);
      InsertKeeps(s[0], rest, signed);
      Insert(s[0], rest, signed)
  }

  /** std::set_difference on two lists, as it walks them. */
  function SetDiff(a: seq<int>, b: seq<int>): seq<int>
    decreases |a| + |b|
  {
    if a == [] then []
    else if b == [] then a
    else if a[0] < b[0] then [a[0]] + SetDiff(a[1..], b)
    else if b[0] < a[0] then SetDiff(a, b[1..])
    else SetDiff(a[1..], b[1..])
  }

  /** The loop of std::set_difference. */
  method SetDifference(a: seq<int>, b: seq<int>) returns (r: seq<int>)
    ensures r == SetDiff(a, b)
  {
    r := [];
    var i, j := 0, 0;
    while i < |a| && j < |b|
      invariant i <= |a| && j <= |b|
      invariant r + SetDiff(a[i..], b[j..]) == SetDiff(a, b)
      decreases |a| - i + |b| - j
    {
      assert a[i..][1..] == a[i + 1..] && b[j..][1..] == b[j + 1..];
      if a[i] < b[j] {
        assert r + ([a[i]] + SetDiff(a[i + 1..], b[j..])) == (r + [a[i]]) + SetDiff(a[i + 1..], b[j..]);
        r := r + [a[i]];
        i := i + 1;
      } else {
        if !(b[j] < a[i]) {
          i := i + 1;
        }
        j := j + 1;
      }
    }
    assert SetDiff(a[i..], b[j..]) == a[i..];
    r := r + a[i..];
  }

  ghost predicate Above(s: seq<int>, low: int)
  {
    forall i :: 0 <= i < |s| ==> low <= s[i]
  }

  /** What is left of a sorted list is sorted. */
  lemma {:induction false} SetDiffSorted(a: seq<int>, b: seq<int>, low: int)
    requires Sorted(a) && Above(a, low)
    ensures Sorted(SetDiff(a, b)) && Above(SetDiff(a, b), low)
    decreases |a| + |b|
  {
    if a != [] && b != [] {
      if a[0] < b[0] {
        SetDiffSorted(a[1..], b, a[0]);
      } else if b[0] < a[0] {
        SetDiffSorted(a, b[1..], low);
      } else {
        SetDiffSorted(a[1..], b[1..], low);
      }
    }
  }

  lemma SmallerIsAbsent(x: int, s: seq<int>)
    requires Sorted(s) && s != [] && x < s[0]
    ensures multiset(s)[x] == 0
  {
    assert x !in s;
  }

  lemma ConsMultiset(x: int, s: seq<int>)
    ensures multiset([x] + s) == multiset{x} + multiset(s)
  {
  }

  lemma KeepOne(a: multiset<int>, b: multiset<int>, x: int)
    requires b[x] == 0
    ensures multiset{x} + (a - b) == (multiset{x} + a) - b
  {
  }

  lemma SkipOne(a: multiset<int>, b: multiset<int>, y: int)
    requires a[y] == 0
    ensures a - b == a - (multiset{y} + b)
  {
  }

  lemma MatchOne(a: multiset<int>, b: multiset<int>, x: int)
    ensures a - b == (multiset{x} + a) - (multiset{x} + b)
  {
  }

  lemma SortedTail(s: seq<int>)
    requires s != [] && Sorted(s)
    ensures Sorted(s[1..])
  {
  }

  /** On sorted lists the walk removes exactly one occurrence for each listed element. */
  lemma {:induction false} SetDiffOfSorted(a: seq<int>, b: seq<int>)
    requires Sorted(a) && Sorted(b)
    ensures multiset(SetDiff(a, b)) == multiset(a) - multiset(b)
    decreases |a| + |b|
  {
    if a != [] && b != [] {
      HeadMultiset(a);
      HeadMultiset(b);
      SortedTail(a);
      SortedTail(b);
      if a[0] < b[0] {
        SetDiffOfSorted(a[1..], b);
        SmallerIsAbsent(a[0], b);
        ConsMultiset(a[0], SetDiff(a[1..], b));
        KeepOne(multiset(a[1..]), multiset(b), a[0]);
      } else if b[0] < a[0] {
        SetDiffOfSorted(a, b[1..]);
        SmallerIsAbsent(b[0], a);
        SkipOne(multiset(a), multiset(b[1..]), b[0]);
      } else {
        SetDiffOfSorted(a[1..], b[1..]);
        MatchOne(multiset(a[1..]), multiset(b[1..]), a[0]);
      }
    }
  }

  ghost predicate AllBelow(low: seq<int>, high: seq<int>)
  {
    forall i, j :: 0 <= i < |low| && 0 <= j < |high| ==> low[i] < high[j]
  }

  lemma {:induction false} NothingSmallerRemoved(a: seq<int>, low: seq<int>)
    requires AllBelow(low, a)
    ensures SetDiff(a, low) == a
    decreases |low|
  {
    if a != [] && low != [] {
      NothingSmallerRemoved(a, low[1..]);
    }
  }

  /** Elements listed after larger ones are never matched. */
  lemma {:induction false} TailIgnored(a: seq<int>, high: seq<int>, low: seq<int>)
    requires Sorted(a) && Sorted(high) && high != [] && AllBelow(low, high)
    ensures SetDiff(a, high + low) == SetDiff(a, high)
    decreases |a| + |high|
  {
    if a != [] {
      assert (high + low)[1..] == high[1..] + low;
      if a[0] < high[0] {
        TailIgnored(a[1..], high, low);
      } else {
        var a' := if high[0] < a[0] then a else a[1..];
        if high[1..] == [] {
          assert high[1..] + low == low;
          NothingSmallerRemoved(a', low);
        } else {
          TailIgnored(a', high[1..], low);
        }
      }
    }
  }

  /** Number of leading words that are negative as signed integers. */
  function HighCount(s: seq<int>): (n: nat)
    ensures n <= |s|
    ensures forall i :: 0 <= i < n ==> s[i] >= TWO_31
    ensures n < |s| ==> s[n] < TWO_31
  {
    if s == [] || s[0] < TWO_31 then 0 else 1 + HighCount(s[1..])
  }

  /** A signed sort puts the words from 2^31 up first, each half increasing. */
  lemma SignedSortHalves(s: seq<int>)
    requires AreWords(s) && Ordered(s, true)
    ensures Sorted(s[..HighCount(s)]) && Sorted(s[HighCount(s)..])
    ensures AllBelow(s[HighCount(s)..], s[..HighCount(s)])
  {
    var n := HighCount(s);
    forall i | n <= i < |s|
      ensures s[i] < TWO_31
    {
      assert Key(s[n], true) <= Key(s[i], true);
    }
    forall i, j | 0 <= i < j < n || n <= i < j < |s|
      ensures s[i] <= s[j]
    {
      assert Key(s[i], true) <= Key(s[j], true);
    }
  }

  /** Some removed tag lies above 2^31, and some removed tag below it is an available key. */
  ghost predicate Straddles(keys: seq<int>, removed: seq<int>)
  {
    && (exists r :: r in removed && r >= TWO_31)
    && (exists r :: r in removed && r < TWO_31 && r in keys)
  }

  /** The keys that std::set_difference leaves of the sorted available keys. */
  function RemainingKeys(keys: seq<int>, removed: seq<int>): seq<int>
  {
    SetDiff(Sort(keys, false), Sort(removed, true))
  }

  lemma SortedIsOrdered(s: seq<int>)
    requires Ordered(s, false)
    ensures Sorted(s)
  {
    forall i, j | 0 <= i < j < |s|
      ensures s[i] <= s[j]
    {
      assert Key(s[i], false) <= Key(s[j], false);
    }
  }

  lemma MultisetMembers(s: seq<int>, t: seq<int>)
    requires multiset(s) == multiset(t)
    ensures forall x :: x in s <==> x in t
  {
    forall x
      ensures x in s <==> x in t
    {
      assert x in multiset(s) <==> x in multiset(t);
    }
  }

  lemma WordsOf(removed: seq<int>, s: seq<int>)
    requires AreWords(removed) && forall x :: x in removed <==> x in s
    ensures AreWords(s)
  {
    forall i | 0 <= i < |s|
      ensures 0 <= s[i] < TWO_32
    {
      assert s[i] in s;
    }
  }

  lemma LowIsSmall(s: seq<int>, x: int)
    requires AreWords(s) && Ordered(s, true) && x in s[HighCount(s)..]
    ensures x < TWO_31
  {
    var n := HighCount(s);
    var i :| n <= i < |s| && s[i] == x;
    assert Key(s[n], true) <= Key(s[i], true);
  }

  /** The two halves of the signed order: from 2^31 up, and below. */
  ghost predicate Halves(removed: seq<int>, high: seq<int>, low: seq<int>)
  {
    && Sort(removed, true) == high + low
    && Sorted(high) && Sorted(low) && AllBelow(low, high)
    && (forall x :: x in high ==> x >= TWO_31)
    && (forall x :: x in low ==> x < TWO_31)
  }

  /** The same words, in the signed order. */
  lemma SignedSorted(removed: seq<int>)
    requires AreWords(removed)
    ensures AreWords(Sort(removed, true)) && Ordered(Sort(removed, true), true)
  {
    var s := Sort(removed, true);
    MultisetMembers(removed, s);
    WordsOf(removed, s);
  }

  lemma HalvesOf(removed: seq<int>) returns (high: seq<int>, low: seq<int>)
    requires AreWords(removed)
    ensures Halves(removed, high, low)
  {
    var s := Sort(removed, true);
    SignedSorted(removed);
    SignedSortHalves(s);
    high, low := s[..HighCount(s)], s[HighCount(s)..];
    assert s == high + low;
    forall x | x in low
      ensures x < TWO_31
    {
      LowIsSmall(s, x);
    }
  }

  lemma SignedHalves(removed: seq<int>) returns (high: seq<int>, low: seq<int>)
    requires AreWords(removed)
    ensures Halves(removed, high, low)
    ensures multiset(removed) == multiset(high) + multiset(low)
    ensures forall x :: x in removed <==> x in high || x in low
  {
    high, low := HalvesOf(removed);
    assert multiset(high + low) == multiset(high) + multiset(low);
    MultisetMembers(removed, high + low);
  }

  /** With any removed tag from 2^31 up, only such tags are taken out. */
  lemma RemainingAfterSignedSort(keys: seq<int>, removed: seq<int>, high: seq<int>, low: seq<int>)
    requires Halves(removed, high, low)
    ensures multiset(RemainingKeys(keys, removed))
         == multiset(keys) - (if high == [] then multiset(low) else multiset(high))
  {
    var c := Sort(keys, false);
    SortedIsOrdered(c);
    if high == [] {
      assert high + low == low;
      SetDiffOfSorted(c, low);
    } else {
      TailIgnored(c, high, low);
      SetDiffOfSorted(c, high);
    }
  }

  lemma RemainingKeysSorted(keys: seq<int>, removed: seq<int>)
    ensures Sorted(RemainingKeys(keys, removed))
  {
    var c := Sort(keys, false);
    SortedIsOrdered(c);
    SetDiffSorted(c, Sort(removed, true), if c == [] then 0 else c[0]);
  }

  /** Leaving `low` in place does not matter exactly when none of it is there. */
  lemma SubtractingAbsent(keys: seq<int>, high: seq<int>, low: seq<int>)
    requires forall x :: x in low ==> x !in high
    ensures multiset(keys) - multiset(high) == multiset(keys) - (multiset(high) + multiset(low))
      <==> !(exists x :: x in low && x in keys)
  {
    var k, h, l := multiset(keys), multiset(high), multiset(low);
    if x :| x in low && x in keys {
      assert x in l && x in k && x !in h;
      assert (k - h)[x] != (k - (h + l))[x];
    } else {
      forall x
        ensures (k - h)[x] == (k - (h + l))[x]
      {
        if x in l { assert x in low; }
      }
    }
  }

  lemma StraddlesHalves(keys: seq<int>, removed: seq<int>, high: seq<int>, low: seq<int>)
    requires Halves(removed, high, low)
    requires forall x :: x in removed <==> x in high || x in low
    ensures Straddles(keys, removed) <==> high != [] && exists x :: x in low && x in keys
  {
    if high != [] { assert high[0] in high && high[0] in removed; }
  }

  /**
   * The remaining keys are the available keys less the removed tags, once each, if and
   * only if the removed tags do not straddle 2^31.
   */
  lemma RemainingKeysExact(keys: seq<int>, removed: seq<int>)
    requires AreWords(removed)
    ensures multiset(RemainingKeys(keys, removed)) == multiset(keys) - multiset(removed)
      <==> !Straddles(keys, removed)
  {
    var high, low := SignedHalves(removed);
    RemainingAfterSignedSort(keys, removed, high, low);
    StraddlesHalves(keys, removed, high, low);
    SubtractingAbsent(keys, high, low);
  }

  /** An input on which it goes wrong: the low tag stays listed though it was removed. */
  lemma StraddlingKeepsRemovedKey()
    ensures
      var keys, removed := [1, TWO_31], [TWO_31, 1];
      multiset(RemainingKeys(keys, removed)) != multiset(keys) - multiset(removed)
  {
    var keys, removed := [1, TWO_31], [TWO_31, 1];
    assert removed[0] in removed && removed[1] in removed && keys[0] in keys;
    assert Straddles(keys, removed);
    RemainingKeysExact(keys, removed);
  }
}
