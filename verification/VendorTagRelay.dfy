/**
 * Vendor tag descriptors that are sent on.  The writer sends the count it was given, not
 * the number of tags it holds; the two differ when a parcel lists a tag twice.
 */
module VendorTagRelay {
  import opened Common
  import opened SortedStrings
  import opened VendorTags
  import P = VendorTagParcel

  // What a read makes of the parcel's tags

  /** Each tag read is where the parcel has it, and the count is left alone. */
  lemma {:induction false} TagsFromParcel(n: nat, s: ReadState)
    ensures
      var r := ReadTags(n, s);
      r.Done? ==>
        && |r.state.allTags| == |s.allTags| + n && 4 * n <= |s.rest| && r.state.d.count == s.d.count
        && r.state.d.sections == s.d.sections
        && (forall i :: 0 <= i < |s.allTags| ==> r.state.allTags[i] == s.allTags[i])
        && (forall i :: 0 <= i < n ==> s.rest[4 * i] == Int(r.state.allTags[|s.allTags| + i]))
    decreases n
  {
    if n > 0 && ReadTags(n, s).Done? {
      var t := ReadTag(s).state;
      var r := ReadTags(n - 1, t).state;
      TagsFromParcel(n - 1, t);
      assert r.allTags[|s.allTags|] == t.allTags[|s.allTags|];
      forall i | 0 < i < n ensures s.rest[4 * i] == Int(r.allTags[|s.allTags| + i]) {
        assert t.rest[4 * (i - 1)] == s.rest[4 * i];
      }
    }
  }

  lemma {:induction false} AddKeyLength(keys: seq<Word>, key: Word)
    requires Ascending(keys)
    ensures |AddKey(keys, key)| == |keys| + if key in keys then 0 else 1
    decreases |keys|
  {
    if keys != [] && key > keys[0] {
      assert keys == [keys[0]] + keys[1..];
      AddKeyLength(keys[1..], key);
    }
  }

  lemma SnocDuplicates(tags: seq<Word>, t: Word)
    ensures NoDuplicates(tags + [t]) <==> NoDuplicates(tags) && t !in tags
  {
    var all := tags + [t];
    if NoDuplicates(all) {
      assert forall i, j :: 0 <= i < j < |tags| ==> tags[i] == all[i] && tags[j] == all[j];
      assert all[|tags|] == t;
    }
  }

  /** The keys held are as many as the tags read exactly if no tag was read twice. */
  ghost predicate Tallied(s: ReadState)
  {
    && Ascending(s.d.keys) && (forall t :: t in s.d.keys <==> t in s.allTags)
    && |s.d.keys| <= |s.allTags| && (|s.d.keys| == |s.allTags| <==> NoDuplicates(s.allTags))
  }

  lemma TagTallied(s: ReadState)
    requires Tallied(s) && ReadTag(s).Done?
    ensures Tallied(ReadTag(s).state)
  {
    var t := s.rest[0].word;
    AddKeyLength(s.d.keys, t);
    AddKeyAscending(s.d.keys, t);
    AddKeyMembers(s.d.keys, t);
    SnocDuplicates(s.allTags, t);
  }

  lemma {:induction false} TagsTallied(n: nat, s: ReadState)
    requires Tallied(s)
    ensures ReadTags(n, s).Done? ==> Tallied(ReadTags(n, s).state)
    decreases n
  {
    if n > 0 && ReadTag(s).Done? {
      TagTallied(s);
      TagsTallied(n - 1, ReadTag(s).state);
    }
  }

  lemma {:induction false} AddLength(ss: seq<string>, s: string)
    ensures |Add(ss, s)| <= |ss| + 1
    decreases |ss|
  {
    if ss != [] { AddLength(ss[1..], s); }
  }

  /** Reading sections touches nothing else, and stores at most as many as are read. */
  lemma {:induction false} SectionsAlone(n: nat, s: ReadState)
    ensures
      var r := ReadSections(n, s);
      r.Done? ==>
        && r.state == s.(d := s.d.(sections := r.state.d.sections), rest := r.state.rest)
        && |r.state.d.sections| <= |s.d.sections| + n
    decreases n
  {
    if n > 0 && s.rest != [] && s.rest[0].Text? && s.rest[0].text != "" {
      AddLength(s.d.sections, s.rest[0].text);
      SectionsAlone(n - 1, s.(d := s.d.(sections := Add(s.d.sections, s.rest[0].text)), rest := s.rest[1..]));
    }
  }

  /** What a successful read has read, before it is indexed. */
  ghost predicate ReadUp(s: ReadState, items: seq<Item>)
  {
    && items != [] && items[0].Int? && AsSigned(items[0].word) == s.d.count == |s.allTags| < 0x8000_0000
    && 4 * |s.allTags| < |items|
    && (forall i :: 0 <= i < |s.allTags| ==> items[1 + 4 * i] == Int(s.allTags[i]))
    && Tallied(s) && |s.d.sections| < TWO_32
    && (s.allTags == [] ==> s.d.sections == [])
  }

  lemma ForwardReadsUp(items: seq<Item>)
    requires ReadForward(EMPTY, items).Done?
    ensures ReadUp(ReadForward(EMPTY, items).state, items)
  {
    var count := AsSigned(items[0].word);
    var start := ReadState(EMPTY.(count := count), [], 0, items[1..]);
    TagsFromParcel(count, start);
    TagsTallied(count, start);
    var s := ReadTags(count, start).state;
    forall i | 0 <= i < count ensures items[1 + 4 * i] == Int(s.allTags[i]) {
      assert start.rest[4 * i] == Int(s.allTags[0 + i]);
    }
    if count > 0 { SectionsAlone(s.rest[0].word, s.(rest := s.rest[1..])); }
  }

  /** A descriptor whose tags and sections could be sent, whatever its count says. */
  ghost predicate Relayable(d: Desc)
  {
    && Consistent(d) && P.Acceptable(d) && |d.sections| < TWO_32
    && |d.keys| <= d.count < 0x8000_0000
    && (d.keys == [] ==> d.sections == [])
  }

  lemma ReadIsRelayable(items: seq<Item>)
    requires Read(EMPTY, items).Done?
    ensures Relayable(Read(EMPTY, items).state.d)
  {
    P.ReadIsConsistent(items);
    P.ReadIsAcceptable(EMPTY, items);
    ForwardReadsUp(items);
    var s := ReadForward(EMPTY, items).state;
    P.ReindexKeepsForward(s.d, s.allTags);
    if s.allTags != [] { assert s.allTags[0] in s.d.keys; }
  }

  lemma RelayableTag(d: Desc, t: Word)
    requires Relayable(d) && t in d.keys
    ensures P.SendableTag(d, t)
  {
  }

  lemma RelayableFacts(d: Desc)
    requires Relayable(d)
    ensures Writable(d) && Lists(d, d.keys) && P.SendableSections(d.sections) && P.OnlyKeys(d)
    ensures forall i :: 0 <= i < |d.keys| ==> P.SendableTag(d, d.keys[i])
    ensures d.keys != [] ==> d.sections != []
  {
    forall i | 0 <= i < |d.keys| ensures P.SendableTag(d, d.keys[i]) {
      RelayableTag(d, d.keys[i]);
    }
    if d.keys != [] { assert P.SendableTag(d, d.keys[0]); }
  }

  lemma {:induction false} ReadTagsSplit(a: nat, b: nat, s: ReadState)
    requires ReadTags(a, s).Done?
    ensures ReadTags(a + b, s) == ReadTags(b, ReadTags(a, s).state)
    decreases a
  {
    if a > 0 { ReadTagsSplit(a - 1, b, ReadTag(s).state); }
  }

  /** The number of sections taken for a tag, and a section's name for its type. */
  lemma SectionsAreNoTag(n: nat, s: ReadState)
    requires n > 0 && |s.rest| >= 2 && s.rest[1].Text?
    ensures ReadTags(n, s).Fail?
  {
  }

  ghost function WrittenSections(d: Desc, tail: seq<Item>): seq<Item>
    requires |d.sections| < TWO_32
  {
    [Int(|d.sections|)] + WriteSections(d.sections) + tail
  }

  lemma WrittenShape(d: Desc, tail: seq<Item>)
    requires Writable(d) && d.sections != []
    ensures Write(d) + tail == [Int(d.count)] + (WriteTags(d, d.keys[0..]) + WrittenSections(d, tail))
    ensures (Write(d) + tail)[1..] == WriteTags(d, d.keys[0..]) + WrittenSections(d, tail)
  {
    assert d.keys[0..] == d.keys;
  }

  ghost function Start(count: int, rest: seq<Item>): ReadState
  {
    ReadState(EMPTY.(count := count), [], 0, rest)
  }

  lemma AllTagsRead(d: Desc, rest: seq<Item>)
    requires forall i :: 0 <= i < |d.keys| ==> P.SendableTag(d, d.keys[i]) && WritableTag(d, d.keys[i])
    requires Ascending(d.keys)
    ensures
      var r := ReadTags(|d.keys|, Start(d.count, WriteTags(d, d.keys[0..]) + rest));
      r.Done? && r.state.rest == rest
  {
    assert d.keys[..0] == [];
    assert P.Prefix(d, 0) == EMPTY.(count := d.count);
    var max := P.TagsReadBack(d, 0, 0, rest);
  }

  lemma TooFewTagsRead(n: nat, count: nat, s: ReadState)
    requires n < count && ReadTags(n, s).Done?
    requires var rest := ReadTags(n, s).state.rest; |rest| >= 2 && rest[1].Text?
    ensures ReadTags(count, s).Fail?
  {
    ReadTagsSplit(n, count - n, s);
    SectionsAreNoTag(count - n, ReadTags(n, s).state);
  }

  /** Too few tags for the count: the reader goes on with the sections. */
  lemma TooFewTags(d: Desc, tail: seq<Item>)
    requires Writable(d) && d.sections != [] && |d.keys| < d.count < 0x8000_0000 && Ascending(d.keys)
    requires forall i :: 0 <= i < |d.keys| ==> P.SendableTag(d, d.keys[i]) && WritableTag(d, d.keys[i])
    ensures Read(EMPTY, Write(d) + tail).Fail?
  {
    WrittenShape(d, tail);
    AllTagsRead(d, WrittenSections(d, tail));
    TooFewTagsRead(|d.keys|, d.count, Start(d.count, (Write(d) + tail)[1..]));
  }

  /** Whether some tag is listed twice in a parcel of that many tags. */
  ghost predicate RepeatsTag(items: seq<Item>)
    requires items != [] && items[0].Int?
  {
    exists i, j :: 0 <= i < j && 1 + 4 * j < |items| && j < AsSigned(items[0].word) && SameTag(items, i, j)
  }

  ghost predicate SameTag(items: seq<Item>, i: nat, j: nat)
  {
    1 + 4 * i < |items| && 1 + 4 * j < |items| && items[1 + 4 * i] == items[1 + 4 * j]
  }

  lemma RepeatsExactly(s: ReadState, items: seq<Item>)
    requires ReadUp(s, items)
    ensures RepeatsTag(items) <==> |s.d.keys| != s.d.count
  {
    var n := |s.allTags|;
    if !NoDuplicates(s.allTags) {
      var i, j :| 0 <= i < j < n && s.allTags[i] == s.allTags[j];
      assert SameTag(items, i, j);
    } else {
      forall i: nat, j: nat | i < j < n ensures !SameTag(items, i, j) {
        assert s.allTags[i] != s.allTags[j];
      }
    }
  }

  /**
   * Whatever the parcel, a descriptor read from it and sent on is read again, the same but
   * for its index, if and only if the parcel lists no tag twice; otherwise reading fails.
   */
  lemma SentOnExactly(items: seq<Item>, tail: seq<Item>)
    requires Read(EMPTY, items).Done?
    ensures Writable(Read(EMPTY, items).state.d)
    ensures
      var d := Read(EMPTY, items).state.d;
      var r := Read(EMPTY, Write(d) + tail);
      && (r.Done? <==> !RepeatsTag(items))
      && (r.Done? ==> r.state.rest == tail && r.state.d == d.(reverse := r.state.d.reverse) && Consistent(r.state.d))
  {
    var d := Read(EMPTY, items).state.d;
    ReadIsRelayable(items);
    RelayableFacts(d);
    ForwardReadsUp(items);
    var s := ReadForward(EMPTY, items).state;
    P.ReindexKeepsForward(s.d, s.allTags);
    RepeatsExactly(s, items);
    if RepeatsTag(items) {
      assert s.allTags[0] in s.d.keys;
      TooFewTags(d, tail);
    } else {
      var _ := P.ReadOfWritten(d, tail);
      P.ReceivedIsConsistent(d);
    }
  }

  lemma RepeatedTagIndexed(d: Desc, t: Word)
    requires t in d.names && SectionName(d, t).Some?
    ensures Reindex(d, [t, t]).Some?
  {
    var tags := [t, t];
    assert tags[1..] == [t] && [t][1..] == [];
    var e := d.(reverse := AddReverse(d.reverse, SectionName(d, t).value, d.names[t], t));
    assert SectionName(e, t) == SectionName(d, t);
    var f := e.(reverse := AddReverse(e.reverse, SectionName(e, t).value, e.names[t], t));
    assert Reindex(f, []) == Some(f);
    assert Reindex(e, [t]) == Some(f);
  }

  lemma OneSectionRead(s: ReadState)
    requires s.d.sections == [] && s.maxSection == 0 && s.rest == [Int(1), Text("s")]
    ensures ReadSectionList(s) == Done(s.(d := s.d.(sections := ["s"]), rest := []))
  {
    assert s.rest[1..] == [Text("s")];
    assert Add([], "s") == ["s"];
    var t := s.(d := s.d.(sections := ["s"]), rest := []);
    assert ReadSections(0, t) == Done(t);
    assert ReadSections(1, s.(rest := [Text("s")])) == Done(t);
  }

  lemma TwoTagsRead(t: Word, items: seq<Item>) returns (s: ReadState)
    requires t >= VENDOR_TAG_BOUNDARY
    requires items == [Int(t), Int(0), Text("n"), Int(0), Int(t), Int(0), Text("m"), Int(0), Int(1), Text("s")]
    ensures ReadTags(2, Start(2, items)) == Done(s)
    ensures s.rest == [Int(1), Text("s")] && s.allTags == [t, t] && s.maxSection == 0 && s.d.sections == []
    ensures t in s.d.names && t in s.d.sectionOf && s.d.sectionOf[t] == 0
  {
    var s1 := ReadTag(Start(2, items)).state;
    s := ReadTag(s1).state;
    assert s1.rest == items[4..] && s.rest == items[8..];
    assert ReadTags(0, s) == Done(s);
    assert ReadTags(1, s1) == Done(s);
  }

  /** A parcel that lists a tag twice, and is read. */
  lemma RepeatedTagIsRead()
    ensures
      var t := VENDOR_TAG_BOUNDARY;
      var items := [Int(2), Int(t), Int(0), Text("n"), Int(0), Int(t), Int(0), Text("m"), Int(0), Int(1), Text("s")];
      Read(EMPTY, items).Done? && RepeatsTag(items)
  {
    var t := VENDOR_TAG_BOUNDARY;
    var items := [Int(2), Int(t), Int(0), Text("n"), Int(0), Int(t), Int(0), Text("m"), Int(0), Int(1), Text("s")];
    assert SameTag(items, 0, 1);
    var s2 := TwoTagsRead(t, items[1..]);
    OneSectionRead(s2);
    RepeatedTagIndexed(s2.d.(sections := ["s"]), t);
  }
}
