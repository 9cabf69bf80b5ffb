/** What survives sending a vendor tag descriptor, or a cache of them, through a parcel. */
module VendorTagParcel {
  import opened Common
  import opened SortedStrings
  import opened VendorTags

  ghost predicate SendableTag(d: Desc, t: Word)
  {
    WritableTag(d, t) && t >= VENDOR_TAG_BOUNDARY && d.names[t] != "" && d.sectionOf[t] < |d.sections|
  }

  /** Only the listed keys are in the forward maps. */
  ghost predicate OnlyKeys(d: Desc)
  {
    && (forall t <- d.names :: t in d.keys)
    && (forall t <- d.sectionOf :: t in d.keys)
    && (forall t <- d.types :: t in d.keys)
  }

  ghost predicate SendableSections(sections: seq<string>)
  {
    && Increasing(sections) && |sections| < TWO_32
    && forall i :: 0 <= i < |sections| ==> sections[i] != ""
  }

  /** Descriptors as createDescriptorFromOps builds them from distinct tags with non-empty names. */
  ghost predicate Sendable(d: Desc)
  {
    && (forall i :: 0 <= i < |d.keys| ==> SendableTag(d, d.keys[i]))
    && Ascending(d.keys) && OnlyKeys(d) && SendableSections(d.sections)
    && d.count == |d.keys| < 0x8000_0000
    && (d.keys == [] ==> d.sections == [])
  }

  lemma SendableFacts(d: Desc)
    requires Sendable(d)
    ensures Writable(d) && InRange(d) && Lists(d, d.keys) && forall t :: t in d.keys <==> t in d.names
  {
    forall i | 0 <= i < |d.keys|
      ensures WritableTag(d, d.keys[i]) && d.keys[i] in d.names && d.keys[i] in d.sectionOf
    {
      assert SendableTag(d, d.keys[i]);
    }
    forall t | t in d.keys
      ensures t in d.names && t in d.types && t in d.sectionOf && d.sectionOf[t] < |d.sections|
    {
      var i :| 0 <= i < |d.keys| && d.keys[i] == t;
      assert SendableTag(d, d.keys[i]);
    }
  }

  /** Part of a map, for the keys read so far. */
  ghost function Only<V>(m: map<Word, V>, keys: seq<Word>): map<Word, V>
  {
    map t | t in keys && t in m :: m[t]
  }

  lemma OnlyOne<V>(m: map<Word, V>, keys: seq<Word>, t: Word)
    requires t in m
    ensures Only(m, keys + [t]) == Only(m, keys)[t := m[t]]
  {
  }

  lemma OnlyAll<V>(m: map<Word, V>, keys: seq<Word>)
    requires forall t <- m :: t in keys
    ensures Only(m, keys) == m
  {
  }

  /** The descriptor after its first `k` tags have been read. */
  ghost function Prefix(d: Desc, k: nat): Desc
    requires k <= |d.keys|
  {
    var keys := d.keys[..k];
    Desc(keys, Only(d.names, keys), Only(d.sectionOf, keys), Only(d.types, keys), [], map[], d.count)
  }

  /** Reading one written tag. */
  lemma TagReadBack(d: Desc, t: Word, s: ReadState, tail: seq<Item>)
    requires SendableTag(d, t)
    requires s.rest == [Int(t), Int(d.types[t]), Text(d.names[t]), Int(d.sectionOf[t])] + tail
    ensures ReadTag(s) == Done(AddTag(s, t, d.types[t], d.names[t], d.sectionOf[t], tail))
  {
    assert s.rest[4..] == tail;
  }

  lemma PrefixStep(d: Desc, k: nat, max: Word, rest: seq<Item>, tail: seq<Item>)
    requires Ascending(d.keys) && k < |d.keys| && WritableTag(d, d.keys[k])
    ensures
      var t := d.keys[k];
      AddTag(ReadState(Prefix(d, k), d.keys[..k], max, rest), t, d.types[t], d.names[t], d.sectionOf[t], tail)
      == ReadState(Prefix(d, k + 1), d.keys[..k + 1],
                   if max >= d.sectionOf[t] then max else d.sectionOf[t], tail)
  {
    var t := d.keys[k];
    assert d.keys[..k] + [t] == d.keys[..k + 1];
    AddKeyAtEnd(d.keys[..k], t);
    OnlyOne(d.names, d.keys[..k], t);
    OnlyOne(d.sectionOf, d.keys[..k], t);
    OnlyOne(d.types, d.keys[..k], t);
  }

  lemma {:induction false} TagsReadBack(d: Desc, k: nat, max: Word, tail: seq<Item>) returns (max': Word)
    requires forall i :: 0 <= i < |d.keys| ==> SendableTag(d, d.keys[i]) && WritableTag(d, d.keys[i])
    requires Ascending(d.keys) && k <= |d.keys|
    requires max == 0 || max < |d.sections|
    ensures max' == 0 || max' < |d.sections|
    ensures ReadTags(|d.keys| - k, ReadState(Prefix(d, k), d.keys[..k], max, WriteTags(d, d.keys[k..]) + tail))
         == Done(ReadState(Prefix(d, |d.keys|), d.keys, max', tail))
    decreases |d.keys| - k
  {
    if k == |d.keys| {
      assert d.keys[..k] == d.keys && WriteTags(d, d.keys[k..]) + tail == tail;
      max' := max;
    } else {
      var t := d.keys[k];
      assert SendableTag(d, t);
      var tail' := WriteTags(d, d.keys[k + 1..]) + tail;
      var s := ReadState(Prefix(d, k), d.keys[..k], max, WriteTags(d, d.keys[k..]) + tail);
      assert d.keys[k..][1..] == d.keys[k + 1..];
      assert s.rest == [Int(t), Int(d.types[t]), Text(d.names[t]), Int(d.sectionOf[t])] + tail';
      TagReadBack(d, t, s, tail');
      PrefixStep(d, k, max, s.rest, tail');
      max' := TagsReadBack(d, k + 1, if max >= d.sectionOf[t] then max else d.sectionOf[t], tail);
    }
  }

  lemma {:induction false} SectionsReadBack(s: ReadState, sections: seq<string>, k: nat, tail: seq<Item>)
    requires Increasing(sections) && k <= |sections|
    requires forall i :: 0 <= i < |sections| ==> sections[i] != ""
    requires s.d.sections == sections[..k] && s.rest == WriteSections(sections[k..]) + tail
    ensures ReadSections(|sections| - k, s) == Done(s.(d := s.d.(sections := sections), rest := tail))
    decreases |sections| - k
  {
    if k == |sections| {
      assert sections[..k] == sections && WriteSections(sections[k..]) + tail == tail;
    } else {
      assert sections[k..][1..] == sections[k + 1..];
      assert s.rest[0] == Text(sections[k]);
      assert s.rest[1..] == WriteSections(sections[k + 1..]) + tail;
      assert sections[..k] + [sections[k]] == sections[..k + 1];
      AddAtEnd(sections[..k], sections[k]);
      SectionsReadBack(s.(d := s.d.(sections := sections[..k + 1]), rest := s.rest[1..]), sections, k + 1, tail);
    }
  }

  lemma {:induction false} ReindexFromHere(d: Desc, order: seq<Word>, k: nat)
    requires InRange(d) && Lists(d, order) && k <= |order|
    ensures Reindex(d.(reverse := Indexed(order[..k], d.names, SectionNames(d))), order[k..])
         == Some(d.(reverse := Indexed(order, d.names, SectionNames(d))))
    decreases |order| - k
  {
    if k == |order| {
      assert order[..k] == order;
    } else {
      var t := order[k];
      assert order[k..][1..] == order[k + 1..];
      assert order[..k + 1][..k] == order[..k];
      assert SectionName(d, t) == Some(SectionNames(d)[t]);
      ReindexFromHere(d, order, k + 1);
    }
  }

  /** What the reader makes of a written descriptor: the same, indexed in increasing tag order. */
  ghost function Received(d: Desc): Desc
    requires InRange(d) && Lists(d, d.keys)
  {
    d.(reverse := Indexed(d.keys, d.names, SectionNames(d)))
  }

  /** All of a descriptor but sections and reverse index, read back. */
  lemma WholePrefix(d: Desc)
    requires OnlyKeys(d)
    ensures Prefix(d, |d.keys|) == d.(sections := [], reverse := map[])
    ensures Prefix(d, 0) == EMPTY.(count := d.count)
  {
    assert d.keys[..|d.keys|] == d.keys;
    OnlyAll(d.names, d.keys);
    OnlyAll(d.sectionOf, d.keys);
    OnlyAll(d.types, d.keys);
  }

  lemma SectionListReadBack(d: Desc, max: Word, tail: seq<Item>)
    requires SendableSections(d.sections) && d.sections != [] && (max == 0 || max < |d.sections|)
    ensures
      var e := d.(sections := [], reverse := map[]);
      ReadSectionList(ReadState(e, d.keys, max, [Int(|d.sections|)] + WriteSections(d.sections) + tail))
      == Done(ReadState(d.(reverse := map[]), d.keys, max, tail))
  {
    var e := d.(sections := [], reverse := map[]);
    var items := [Int(|d.sections|)] + WriteSections(d.sections) + tail;
    assert items[1..] == WriteSections(d.sections) + tail;
    assert d.sections[0..] == d.sections && d.sections[..0] == [];
    SectionsReadBack(ReadState(e, d.keys, max, items[1..]), d.sections, 0, tail);
  }

  lemma ReindexReceived(d: Desc)
    requires InRange(d) && Lists(d, d.keys)
    ensures Reindex(d.(reverse := map[]), d.keys) == Some(Received(d))
  {
    ReindexFromHere(d, d.keys, 0);
    assert d.keys[..0] == [] && d.keys[0..] == d.keys;
  }

  /** What Write puts after the tags. */
  function WrittenSections(d: Desc): seq<Item>
    requires |d.sections| < TWO_32
  {
    if d.sections == [] then [] else [Int(|d.sections|)] + WriteSections(d.sections)
  }

  lemma WrittenHead(d: Desc, tail: seq<Item>)
    requires Writable(d)
    ensures
      var items := Write(d) + tail;
      items[0] == Int(d.count) && items[1..] == WriteTags(d, d.keys) + (WrittenSections(d) + tail)
  {
    assert Write(d) + tail == [Int(d.count)] + (WriteTags(d, d.keys) + (WrittenSections(d) + tail));
  }

  lemma HeadReadBack(d: Desc, tail: seq<Item>) returns (max: Word)
    requires Sendable(d) && Writable(d)
    ensures max == 0 || max < |d.sections|
    ensures
      var items := Write(d) + tail;
      && items[0] == Int(d.count)
      && ReadTags(d.count, ReadState(EMPTY.(count := d.count), [], 0, items[1..]))
         == Done(ReadState(d.(sections := [], reverse := map[]), d.keys, max, WrittenSections(d) + tail))
  {
    WrittenHead(d, tail);
    WholePrefix(d);
    max := AllTagsReadBack(d, WrittenSections(d) + tail);
  }

  lemma AllTagsReadBack(d: Desc, after: seq<Item>) returns (max: Word)
    requires forall i :: 0 <= i < |d.keys| ==> SendableTag(d, d.keys[i]) && WritableTag(d, d.keys[i])
    requires Ascending(d.keys)
    ensures max == 0 || max < |d.sections|
    ensures ReadTags(|d.keys|, ReadState(Prefix(d, 0), [], 0, WriteTags(d, d.keys) + after))
         == Done(ReadState(Prefix(d, |d.keys|), d.keys, max, after))
  {
    assert d.keys[0..] == d.keys && d.keys[..0] == [];
    max := TagsReadBack(d, 0, 0, after);
  }

  lemma ForwardReadBack(d: Desc, tail: seq<Item>) returns (max: Word)
    requires Sendable(d) && Writable(d)
    ensures ReadForward(EMPTY, Write(d) + tail) == Done(ReadState(d.(reverse := map[]), d.keys, max, tail))
  {
    max := HeadReadBack(d, tail);
    if d.keys == [] {
      assert WrittenSections(d) + tail == tail;
    } else {
      assert SendableTag(d, d.keys[0]);
      SectionListReadBack(d, max, tail);
    }
  }

  /** Reading a written descriptor into a fresh one, whatever follows it in the parcel. */
  lemma ReadOfWritten(d: Desc, tail: seq<Item>) returns (max: Word)
    requires Sendable(d) && Writable(d) && InRange(d) && Lists(d, d.keys)
    ensures Read(EMPTY, Write(d) + tail) == Done(ReadState(Received(d), d.keys, max, tail))
  {
    max := ForwardReadBack(d, tail);
    ReindexReceived(d);
  }

  /** The tag that is indexed last under each section and name is the largest that shares them. */
  ghost predicate LastsLargest(tags: seq<Word>, nameOf: map<Word, string>, sectionOf: map<Word, string>)
    requires forall i :: 0 <= i < |tags| ==> tags[i] in nameOf && tags[i] in sectionOf
  {
    forall t :: t in tags ==>
      var last := LastWith(tags, nameOf, sectionOf, nameOf[t], sectionOf[t]); last.Some? && t <= last.value
  }

  lemma DistinctPairsAreLargest(tags: seq<Word>, nameOf: map<Word, string>, sectionOf: map<Word, string>)
    requires forall i :: 0 <= i < |tags| ==> tags[i] in nameOf && tags[i] in sectionOf
    requires DistinctPairs(tags, nameOf, sectionOf)
    ensures LastsLargest(tags, nameOf, sectionOf)
  {
  }

  /** The same index answers, for one section and name. */
  ghost predicate SameAnswer(d: Desc, e: Desc, name: string, section: string)
  {
    LookupTag(d.reverse, name, section) == LookupTag(e.reverse, name, section)
  }

  ghost predicate AllSameAnswers(d: Desc, e: Desc)
  {
    forall name, section :: SameAnswer(d, e, name, section)
  }

  /** Both answers, as the last tag of a list. */
  lemma AnswersAreLasts(d: Desc, order: seq<Word>, name: string, section: string)
    requires InRange(d) && Lists(d, order) && Lists(d, d.keys)
    requires d.reverse == Indexed(order, d.names, SectionNames(d))
    ensures SameAnswer(Received(d), d, name, section)
      <==> LastWith(d.keys, d.names, SectionNames(d), name, section)
           == LastWith(order, d.names, SectionNames(d), name, section)
  {
    IndexedFindsLast(d.keys, d.names, SectionNames(d), name, section);
    IndexedFindsLast(order, d.names, SectionNames(d), name, section);
  }

  lemma LargestThenSame(keys: seq<Word>, order: seq<Word>, nameOf: map<Word, string>, sectionOf: map<Word, string>,
                        name: string, section: string)
    requires forall i :: 0 <= i < |keys| ==> keys[i] in nameOf && keys[i] in sectionOf
    requires forall i :: 0 <= i < |order| ==> order[i] in nameOf && order[i] in sectionOf
    requires Ascending(keys) && forall t :: t in keys <==> t in order
    requires LastsLargest(order, nameOf, sectionOf)
    ensures LastWith(keys, nameOf, sectionOf, name, section) == LastWith(order, nameOf, sectionOf, name, section)
  {
    var a := LastWith(keys, nameOf, sectionOf, name, section);
    var b := LastWith(order, nameOf, sectionOf, name, section);
    if a.Some? { assert a.value in order; }
    if b.Some? {
      assert b.value in keys;
      LastIsLargest(keys, nameOf, sectionOf, name, section, b.value);
    }
  }

  lemma SameThenLargest(d: Desc, order: seq<Word>, t: Word)
    requires InRange(d) && Lists(d, order) && Lists(d, d.keys) && Ascending(d.keys) && t in order
    requires LastWith(d.keys, d.names, SectionNames(d), d.names[t], SectionNames(d)[t])
          == LastWith(order, d.names, SectionNames(d), d.names[t], SectionNames(d)[t])
    ensures
      var last := LastWith(order, d.names, SectionNames(d), d.names[t], SectionNames(d)[t]);
      last.Some? && t <= last.value
  {
    assert t in d.keys;
    LastIsLargest(d.keys, d.names, SectionNames(d), d.names[t], SectionNames(d)[t], t);
  }

  /** Sender and receiver answer every lookup the same if and only if the sender's last are the largest. */
  lemma AnswersAgreeExactly(d: Desc, order: seq<Word>)
    requires InRange(d) && Lists(d, order) && Lists(d, d.keys) && Ascending(d.keys)
    requires d.reverse == Indexed(order, d.names, SectionNames(d))
    ensures AllSameAnswers(Received(d), d) <==> LastsLargest(order, d.names, SectionNames(d))
  {
    if LastsLargest(order, d.names, SectionNames(d)) {
      forall name, section ensures SameAnswer(Received(d), d, name, section) {
        AnswersAreLasts(d, order, name, section);
        LargestThenSame(d.keys, order, d.names, SectionNames(d), name, section);
      }
    }
    if AllSameAnswers(Received(d), d) {
      forall t | t in order
        ensures
          var last := LastWith(order, d.names, SectionNames(d), d.names[t], SectionNames(d)[t]);
          last.Some? && t <= last.value
      {
        assert SameAnswer(Received(d), d, d.names[t], SectionNames(d)[t]);
        AnswersAreLasts(d, order, d.names[t], SectionNames(d)[t]);
        SameThenLargest(d, order, t);
      }
    }
  }

  /**
   * Writing a descriptor and reading it into a fresh one gives the same names, types and
   * sections and consumes exactly what was written.  The reverse index is rebuilt in tag
   * order, so it answers every lookup the same if and only if, of the tags that share a
   * section and name, the one the sender indexed last is the largest.
   */
  lemma RoundTrip(d: Desc, order: seq<Word>, tail: seq<Item>)
    requires Sendable(d) && Writable(d) && InRange(d) && Lists(d, order) && Lists(d, d.keys)
    requires d.reverse == Indexed(order, d.names, SectionNames(d))
    ensures
      var r := Read(EMPTY, Write(d) + tail);
      && r.Done? && r.state.rest == tail
      && r.state.d == d.(reverse := r.state.d.reverse)
      && Consistent(r.state.d)
      && (AllSameAnswers(r.state.d, d) <==> LastsLargest(order, d.names, SectionNames(d)))
  {
    var _ := ReadOfWritten(d, tail);
    ReceivedIsConsistent(d);
    AnswersAgreeExactly(d, order);
  }

  /** The receiver answers with the largest of the tags that share a section and name. */
  lemma SharedPairReadsBackLargest(d: Desc, tail: seq<Item>, t: Word)
    requires Sendable(d) && Writable(d) && InRange(d) && Lists(d, d.keys) && t in d.keys
    ensures
      var r := Read(EMPTY, Write(d) + tail);
      && r.Done?
      && var answer := LookupTag(r.state.d.reverse, d.names[t], SectionNames(d)[t]);
      && answer.Some? && answer.value in d.keys
      && d.names[answer.value] == d.names[t] && SectionNames(d)[answer.value] == SectionNames(d)[t]
      && forall u :: u in d.keys && d.names[u] == d.names[t] && SectionNames(d)[u] == SectionNames(d)[t] ==>
                       u <= answer.value
  {
    var _ := ReadOfWritten(d, tail);
    var name, section := d.names[t], SectionNames(d)[t];
    IndexedFindsLast(d.keys, d.names, SectionNames(d), name, section);
    forall u | u in d.keys && d.names[u] == name && SectionNames(d)[u] == section
      ensures u <= LastWith(d.keys, d.names, SectionNames(d), name, section).value
    {
      LastIsLargest(d.keys, d.names, SectionNames(d), name, section, u);
    }
  }

  lemma {:induction false} LastIsLargest(tags: seq<Word>, nameOf: map<Word, string>,
                                         sectionOf: map<Word, string>, name: string, section: string, u: Word)
    requires forall i :: 0 <= i < |tags| ==> tags[i] in nameOf && tags[i] in sectionOf
    requires Ascending(tags) && u in tags && nameOf[u] == name && sectionOf[u] == section
    ensures LastWith(tags, nameOf, sectionOf, name, section).Some?
    ensures u <= LastWith(tags, nameOf, sectionOf, name, section).value
    decreases |tags|
  {
    var n := |tags| - 1;
    assert tags == tags[..n] + [tags[n]];
    if nameOf[tags[n]] != name || sectionOf[tags[n]] != section {
      LastIsLargest(tags[..n], nameOf, sectionOf, name, section, u);
    }
  }

  // Any parcel that is read successfully, written by this code or not

  /** The forward maps hold exactly the tags read, and nothing is indexed yet. */
  ghost predicate Parsed(s: ReadState)
  {
    && Ascending(s.d.keys) && Increasing(s.d.sections) && s.d.reverse == map[]
    && (forall t :: t in s.d.keys <==> t in s.allTags)
    && (forall t :: t in s.d.names <==> t in s.allTags)
    && (forall t :: t in s.d.sectionOf <==> t in s.allTags)
    && (forall t :: t in s.d.types <==> t in s.allTags)
  }

  lemma {:induction false} ReadTagsParse(n: nat, s: ReadState)
    requires Parsed(s)
    ensures ReadTags(n, s).Done? ==> Parsed(ReadTags(n, s).state)
    decreases n
  {
    if n > 0 && ReadTag(s).Done? {
      var t := s.rest[0].word;
      AddKeyAscending(s.d.keys, t);
      AddKeyMembers(s.d.keys, t);
      ReadTagsParse(n - 1, ReadTag(s).state);
    }
  }

  lemma {:induction false} ReadSectionsParse(n: nat, s: ReadState)
    requires Parsed(s)
    ensures ReadSections(n, s).Done? ==> Parsed(ReadSections(n, s).state)
    decreases n
  {
    if n > 0 && s.rest != [] && s.rest[0].Text? && s.rest[0].text != "" {
      AddKeepsIncreasing(s.d.sections, s.rest[0].text);
      ReadSectionsParse(n - 1, s.(d := s.d.(sections := Add(s.d.sections, s.rest[0].text)), rest := s.rest[1..]));
    }
  }

  lemma {:induction false} ReindexInRange(d: Desc, tags: seq<Word>)
    requires Reindex(d, tags).Some?
    ensures forall i :: 0 <= i < |tags| ==> SectionName(d, tags[i]).Some?
    decreases |tags|
  {
    if tags != [] {
      var d' := d.(reverse := AddReverse(d.reverse, SectionName(d, tags[0]).value, d.names[tags[0]], tags[0]));
      ReindexInRange(d', tags[1..]);
      forall i | 0 <= i < |tags|
        ensures SectionName(d, tags[i]).Some?
      {
        if i > 0 { assert SectionName(d', tags[1..][i - 1]).Some?; }
      }
    }
  }

  lemma ParsedInRange(s: ReadState)
    requires Parsed(s) && Reindex(s.d, s.allTags).Some?
    ensures InRange(s.d) && Lists(s.d, s.allTags)
  {
    ReindexInRange(s.d, s.allTags);
    forall t | t in s.allTags
      ensures t in s.d.names && t in s.d.sectionOf && s.d.sectionOf[t] < |s.d.sections|
    {
      var i :| 0 <= i < |s.allTags| && s.allTags[i] == t;
      assert SectionName(s.d, s.allTags[i]).Some?;
    }
  }

  lemma ParsedThenIndexed(s: ReadState)
    requires Parsed(s) && Reindex(s.d, s.allTags).Some?
    ensures Consistent(Reindex(s.d, s.allTags).value)
  {
    ParsedInRange(s);
    ReindexFromHere(s.d, s.allTags, 0);
    assert s.allTags[..0] == [] && s.allTags[0..] == s.allTags;
    var d := s.d.(reverse := Indexed(s.allTags, s.d.names, SectionNames(s.d)));
    assert SectionNames(d) == SectionNames(s.d);
    IndexingIsConsistent(d, s.allTags);
  }

  lemma ForwardParsed(items: seq<Item>)
    requires ReadForward(EMPTY, items).Done?
    ensures Parsed(ReadForward(EMPTY, items).state)
  {
    var count := AsSigned(items[0].word);
    var start := ReadState(EMPTY.(count := count), [], 0, items[1..]);
    ReadTagsParse(count, start);
    var s := ReadTags(count, start).state;
    if count > 0 { ReadSectionsParse(s.rest[0].word, s.(rest := s.rest[1..])); }
  }

  /** Whatever the parcel holds, a descriptor read from it successfully is consistent. */
  lemma ReadIsConsistent(items: seq<Item>)
    ensures Read(EMPTY, items).Done? ==> Consistent(Read(EMPTY, items).state.d)
  {
    var r := ReadForward(EMPTY, items);
    if r.Done? {
      ForwardParsed(items);
      if Reindex(r.state.d, r.state.allTags).Some? { ParsedThenIndexed(r.state); }
    }
  }

  /** Only vendor tags, of known types, and no empty name of a tag or section. */
  ghost predicate Acceptable(d: Desc)
  {
    && (forall t <- d.types :: VENDOR_TAG_BOUNDARY <= t && 0 <= d.types[t] < NUM_TYPES)
    && (forall t <- d.names :: d.names[t] != "")
    && "" !in d.sections
  }

  lemma {:induction false} ReadTagsAccept(n: nat, s: ReadState)
    requires Acceptable(s.d)
    ensures ReadTags(n, s).Done? ==> Acceptable(ReadTags(n, s).state.d)
    decreases n
  {
    if n > 0 && ReadTag(s).Done? {
      ReadTagsAccept(n - 1, ReadTag(s).state);
    }
  }

  lemma {:induction false} ReadSectionsAccept(n: nat, s: ReadState)
    requires Acceptable(s.d)
    ensures ReadSections(n, s).Done? ==> Acceptable(ReadSections(n, s).state.d)
    decreases n
  {
    if n > 0 && s.rest != [] && s.rest[0].Text? && s.rest[0].text != "" {
      AddMembers(s.d.sections, s.rest[0].text);
      ReadSectionsAccept(n - 1, s.(d := s.d.(sections := Add(s.d.sections, s.rest[0].text)), rest := s.rest[1..]));
    }
  }

  lemma ForwardAccepts(d: Desc, items: seq<Item>)
    requires Acceptable(d) && ReadForward(d, items).Done?
    ensures Acceptable(ReadForward(d, items).state.d)
  {
    var count := AsSigned(items[0].word);
    var start := ReadState(d.(count := count), [], 0, items[1..]);
    ReadTagsAccept(count, start);
    var s := ReadTags(count, start).state;
    if count > 0 { ReadSectionsAccept(s.rest[0].word, s.(rest := s.rest[1..])); }
  }

  /** Whatever the parcel holds and wherever it is read to, nothing unacceptable gets in. */
  lemma ReadIsAcceptable(d: Desc, items: seq<Item>)
    requires Acceptable(d)
    ensures Read(d, items).Done? ==> Acceptable(Read(d, items).state.d)
  {
    if Read(d, items).Done? {
      ForwardAccepts(d, items);
      var s := ReadForward(d, items).state;
      ReindexKeepsForward(s.d, s.allTags);
    }
  }

  // The cache: one descriptor per vendor, iterated in no particular order

  type Cache = map<nat, Desc>

  datatype CacheResult = CacheFail(status: Status) | CacheDone(cache: Cache, rest: seq<Item>)

  /** Written descriptors in the given order, each marked as present. */
  function WriteDescriptors(written: map<nat, seq<Item>>, order: seq<nat>): seq<Item>
    requires forall i :: 0 <= i < |order| ==> order[i] in written
  {
    if order == [] then []
    else [Long(order[0]), Int(1)] + written[order[0]] + WriteDescriptors(written, order[1..])
  }

  function AddVendorDescriptor(c: Cache, id: nat, d: Desc): Option<Cache>
  {
    if id in c then None else Some(c[id := d])
  }

  function ReadDescriptors(n: nat, items: seq<Item>, c: Cache): CacheResult
  {
    if n == 0 then CacheDone(c, items)
    else if |items| < 2 || !items[0].Long? || !items[1].Int? || items[1].word == 0 then CacheFail(NotEnoughData)
    else
      match Read(EMPTY, items[2..])
      case Fail(status) => CacheFail(status)
      case Done(s) =>
        match AddVendorDescriptor(c, items[0].value, s.d)
        case None => CacheFail(BadValue)
        case Some(c') => ReadDescriptors(n - 1, s.rest, c')
  }

  function ReadCache(items: seq<Item>): CacheResult
  {
    if items == [] || !items[0].Int? then CacheFail(NotEnoughData)
    else if AsSigned(items[0].word) < 0 then CacheFail(BadValue)
    else ReadDescriptors(AsSigned(items[0].word), items[1..], map[])
  }

  /** A cache whose descriptors are written as `written`, iterated in the given order. */
  function WriteCache(written: map<nat, seq<Item>>, order: seq<nat>): seq<Item>
    requires |written| < TWO_32 && forall i :: 0 <= i < |order| ==> order[i] in written
  {
    [Int(|written|)] + WriteDescriptors(written, order)
  }

  /** What is written as `items` is read into a fresh descriptor as `d`, whatever follows. */
  ghost predicate Arrives(items: seq<Item>, d: Desc)
  {
    forall tail :: ArrivesBefore(items, d, tail)
  }

  ghost predicate ArrivesBefore(items: seq<Item>, d: Desc, tail: seq<Item>)
  {
    var r := Read(EMPTY, items + tail);
    r.Done? && r.state.d == d && r.state.rest == tail
  }

  /** A descriptor that arrives unchanged but for an index that answers the same. */
  ghost predicate Faithful(d: Desc)
  {
    && Sendable(d) && InRange(d)
    && exists order :: Lists(d, order) && d.reverse == Indexed(order, d.names, SectionNames(d))
                       && LastsLargest(order, d.names, SectionNames(d))
  }

  /** The same names, types, sections and lookup answers. */
  ghost predicate Equivalent(e: Desc, d: Desc)
  {
    e == d.(reverse := e.reverse) && AllSameAnswers(e, d)
  }

  lemma FaithfulArrives(d: Desc)
    requires Faithful(d)
    ensures Writable(d) && Lists(d, d.keys)
    ensures Arrives(Write(d), Received(d)) && Equivalent(Received(d), d)
  {
    SendableFacts(d);
    var order :| Lists(d, order) && d.reverse == Indexed(order, d.names, SectionNames(d))
                 && LastsLargest(order, d.names, SectionNames(d));
    AnswersAgreeExactly(d, order);
    forall tail
      ensures ArrivesBefore(Write(d), Received(d), tail)
    {
      var _ := ReadOfWritten(d, tail);
    }
  }

  /** The received descriptors of the vendors in `order`. */
  ghost function Part(received: Cache, order: seq<nat>): Cache
  {
    map id | id in order && id in received :: received[id]
  }

  ghost predicate AllArrive(written: map<nat, seq<Item>>, received: Cache)
  {
    written.Keys == received.Keys && forall id <- written :: Arrives(written[id], received[id])
  }

  lemma OneDescriptorReadBack(w: seq<Item>, d: Desc, id: nat, n: nat, c: Cache, tail: seq<Item>)
    requires Arrives(w, d) && id !in c
    ensures ReadDescriptors(n + 1, [Long(id), Int(1)] + w + tail, c) == ReadDescriptors(n, tail, c[id := d])
  {
    var items := [Long(id), Int(1)] + w + tail;
    assert items[2..] == w + tail;
    assert ArrivesBefore(w, d, tail);
  }

  lemma PartOne(received: Cache, order: seq<nat>, k: nat)
    requires NoDuplicates(order) && k < |order| && order[k] in received
    ensures order[k] !in Part(received, order[..k])
    ensures Part(received, order[..k + 1]) == Part(received, order[..k])[order[k] := received[order[k]]]
  {
    assert order[..k + 1] == order[..k] + [order[k]];
  }

  lemma DescriptorsHead(written: map<nat, seq<Item>>, order: seq<nat>, k: nat, tail: seq<Item>)
    requires k < |order| && forall i :: 0 <= i < |order| ==> order[i] in written
    ensures WriteDescriptors(written, order[k..]) + tail
         == [Long(order[k]), Int(1)] + written[order[k]] + (WriteDescriptors(written, order[k + 1..]) + tail)
  {
    assert order[k..][1..] == order[k + 1..];
  }

  lemma {:induction false} DescriptorsReadBack(
    written: map<nat, seq<Item>>, received: Cache, order: seq<nat>, k: nat, tail: seq<Item>)
    requires AllArrive(written, received) && NoDuplicates(order) && k <= |order|
    requires forall i :: 0 <= i < |order| ==> order[i] in written
    ensures ReadDescriptors(|order| - k, WriteDescriptors(written, order[k..]) + tail, Part(received, order[..k]))
         == CacheDone(Part(received, order), tail)
    decreases |order| - k
  {
    if k == |order| {
      assert order[..k] == order && WriteDescriptors(written, order[k..]) + tail == tail;
    } else {
      var id, tail' := order[k], WriteDescriptors(written, order[k + 1..]) + tail;
      DescriptorsHead(written, order, k, tail);
      PartOne(received, order, k);
      OneDescriptorReadBack(written[id], received[id], id, |order| - k - 1, Part(received, order[..k]), tail');
      DescriptorsReadBack(written, received, order, k + 1, tail);
    }
  }

  lemma CacheHeader(n: nat, items: seq<Item>)
    requires n < 0x8000_0000
    ensures ReadCache([Int(n)] + items) == ReadDescriptors(n, items, map[])
  {
    assert ([Int(n)] + items)[1..] == items;
  }

  lemma PartWhole(received: Cache, order: seq<nat>)
    requires forall id <- received :: id in order
    ensures Part(received, order) == received && Part(received, []) == map[]
  {
  }

  lemma WrittenCache(written: map<nat, seq<Item>>, order: seq<nat>, tail: seq<Item>)
    requires |written| < TWO_32 && forall i :: 0 <= i < |order| ==> order[i] in written
    ensures WriteCache(written, order) + tail == [Int(|written|)] + (WriteDescriptors(written, order) + tail)
  {
  }

  /**
   * A cache whose descriptors arrive as `received` is read back as exactly that, in
   * whatever order the map was iterated, consuming exactly what was written.
   */
  lemma CacheReadBack(written: map<nat, seq<Item>>, received: Cache, order: seq<nat>, tail: seq<Item>)
    requires |order| == |written| < 0x8000_0000 && AllArrive(written, received) && NoDuplicates(order)
    requires forall i :: 0 <= i < |order| ==> order[i] in written
    requires forall id <- written :: id in order
    ensures ReadCache(WriteCache(written, order) + tail) == CacheDone(received, tail)
  {
    CacheHeader(|written|, WriteDescriptors(written, order) + tail);
    WrittenCache(written, order, tail);
    assert order[0..] == order && order[..0] == [];
    PartWhole(received, order);
    DescriptorsReadBack(written, received, order, 0, tail);
  }

  /** Said of every descriptor equal to one cached, so that none is looked into before a proof names it. */
  ghost predicate FaithfulCache(cache: Cache)
  {
    forall id, d :: id in cache && cache[id] == d ==> Faithful(d)
  }

  /** Each vendor's descriptor as written. */
  ghost function Written(cache: Cache): map<nat, seq<Item>>
    requires forall id <- cache :: Writable(cache[id])
  {
    map id | id in cache :: Write(cache[id])
  }

  /** `order` goes through the vendors of a cache, once each. */
  ghost predicate Iterates(order: seq<nat>, cache: Cache)
  {
    && NoDuplicates(order) && |order| == |cache|
    && (forall i :: 0 <= i < |order| ==> order[i] in cache)
    && (forall id <- cache :: id in order)
  }

  /** The same vendors, each with an equivalent descriptor. */
  ghost predicate EquivalentCache(e: Cache, cache: Cache)
  {
    e.Keys == cache.Keys && forall id <- cache :: Equivalent(e[id], cache[id])
  }

  /** What a faithful descriptor arrives as. */
  ghost function Arrival(d: Desc): (e: Desc)
    requires Faithful(d)
    ensures Writable(d) && Arrives(Write(d), e) && Equivalent(e, d)
  {
    FaithfulArrives(d);
    Received(d)
  }

  lemma AllFaithfulArrive(cache: Cache) returns (received: Cache)
    requires FaithfulCache(cache)
    ensures forall id <- cache :: Writable(cache[id])
    ensures AllArrive(Written(cache), received) && EquivalentCache(received, cache)
  {
    received := map id | id in cache :: Arrival(cache[id]);
    forall id | id in cache
      ensures Writable(cache[id]) && Arrives(Write(cache[id]), received[id]) && Equivalent(received[id], cache[id])
    {
      assert received[id] == Arrival(cache[id]);
    }
  }

  /**
   * A cache of such descriptors, written in whatever order its map is iterated, is read
   * back with the same vendors and, for each, the same names, types, sections and lookup
   * answers, consuming exactly what was written.
   */
  lemma CacheRoundTrip(cache: Cache, order: seq<nat>, tail: seq<Item>)
    requires FaithfulCache(cache) && Iterates(order, cache) && |cache| < 0x8000_0000
    ensures forall id <- cache :: Writable(cache[id])
    ensures |Written(cache)| < TWO_32
    ensures
      var r := ReadCache(WriteCache(Written(cache), order) + tail);
      r.CacheDone? && r.rest == tail && EquivalentCache(r.cache, cache)
  {
    var received := AllFaithfulArrive(cache);
    var written := Written(cache);
    assert written.Keys == cache.Keys;
    SameSize(written, cache);
    CacheReadBack(written, received, order, tail);
  }

  lemma SameSize(written: map<nat, seq<Item>>, cache: Cache)
    requires written.Keys == cache.Keys
    ensures |written| == |cache|
  {
    assert |written| == |written.Keys| && |cache| == |cache.Keys|;
  }

  lemma ReceivedIsConsistent(d: Desc)
    requires Sendable(d) && InRange(d) && Lists(d, d.keys)
    ensures Consistent(Received(d))
  {
    SendableFacts(d);
    assert SectionNames(Received(d)) == SectionNames(d);
    IndexingIsConsistent(Received(d), d.keys);
  }

  // Parcels that point past their sections

  /** Some tag read has a section index not below the number of distinct section names. */
  ghost predicate PointsPast(d: Desc, tags: seq<Word>)
  {
    exists i :: 0 <= i < |tags| && tags[i] in d.sectionOf && d.sectionOf[tags[i]] >= |d.sections|
  }

  lemma {:induction false} ReindexFailsExactly(d: Desc, tags: seq<Word>)
    requires forall i :: 0 <= i < |tags| ==> tags[i] in d.names && tags[i] in d.sectionOf
    ensures Reindex(d, tags).None? <==> PointsPast(d, tags)
    decreases |tags|
  {
    if tags != [] {
      var rest := tags[1..];
      assert forall i :: 0 <= i < |rest| ==> rest[i] == tags[i + 1];
      if d.sectionOf[tags[0]] < |d.sections| {
        var e := d.(reverse := AddReverse(d.reverse, SectionName(d, tags[0]).value, d.names[tags[0]], tags[0]));
        ReindexFailsExactly(e, rest);
        assert PointsPast(e, rest) <==> PointsPast(d, rest);
        if PointsPast(d, tags) {
          var i :| 0 <= i < |tags| && tags[i] in d.sectionOf && d.sectionOf[tags[i]] >= |d.sections|;
          assert rest[i - 1] == tags[i];
        }
      } else {
        assert PointsPast(d, tags);
      }
    }
  }

  /**
   * A parcel whose items are all well formed makes the original read past its section list
   * if and only if a section index is not below the number of distinct section names: the
   * count that is checked counts repeated names.
   */
  lemma ReadsPastExactly(items: seq<Item>)
    ensures Read(EMPTY, items) == Fail(OutOfBounds)
      <==> ReadForward(EMPTY, items).Done?
           && var s := ReadForward(EMPTY, items).state; PointsPast(s.d, s.allTags)
  {
    var r := ReadForward(EMPTY, items);
    if r.Done? {
      ForwardParsed(items);
      assert forall i :: 0 <= i < |r.state.allTags| ==> r.state.allTags[i] in r.state.allTags;
      ReindexFailsExactly(r.state.d, r.state.allTags);
    } else {
      ForwardNeverPast(items);
    }
  }

  lemma {:induction false} ReadTagsFailure(n: nat, s: ReadState)
    ensures ReadTags(n, s) != Fail(OutOfBounds)
    decreases n
  {
    if n > 0 && ReadTag(s).Done? { ReadTagsFailure(n - 1, ReadTag(s).state); }
  }

  lemma {:induction false} ReadSectionsFailure(n: nat, s: ReadState)
    ensures ReadSections(n, s) != Fail(OutOfBounds)
    decreases n
  {
    if n > 0 && s.rest != [] && s.rest[0].Text? && s.rest[0].text != "" {
      ReadSectionsFailure(n - 1, s.(d := s.d.(sections := Add(s.d.sections, s.rest[0].text)), rest := s.rest[1..]));
    }
  }

  lemma ForwardNeverPast(items: seq<Item>)
    ensures ReadForward(EMPTY, items) != Fail(OutOfBounds)
  {
    if items != [] && items[0].Int? && AsSigned(items[0].word) >= 0 {
      var count := AsSigned(items[0].word);
      var start := ReadState(EMPTY.(count := count), [], 0, items[1..]);
      ReadTagsFailure(count, start);
      var r := ReadTags(count, start);
      if r.Done? && r.state.rest != [] && r.state.rest[0].Int? {
        ReadSectionsFailure(r.state.rest[0].word, r.state.(rest := r.state.rest[1..]));
      }
    }
  }

  /** Two sections of one name: the index 1 passes the check and is out of range. */
  lemma RepeatedSectionReadsPast()
    ensures
      var items := [Int(1), Int(VENDOR_TAG_BOUNDARY), Int(0), Text("n"), Int(1), Int(2), Text("s"), Text("s")];
      Read(EMPTY, items) == Fail(OutOfBounds)
  {
    var t := VENDOR_TAG_BOUNDARY;
    var items := [Int(1), Int(t), Int(0), Text("n"), Int(1), Int(2), Text("s"), Text("s")];
    var s0 := ReadState(EMPTY.(count := 1), [], 0, items[1..]);
    var s1 := AddTag(s0, t, 0, "n", 1, items[5..]);
    assert ReadTag(s0) == Done(s1) by { assert items[1..][4..] == items[5..]; }
    assert ReadTags(1, s0) == Done(s1);
    var s2 := s1.(rest := items[6..]);
    assert items[5..][1..] == items[6..] && items[6..][1..] == items[7..] && items[7..][1..] == [];
    var s3 := s2.(d := s2.d.(sections := ["s"]), rest := items[7..]);
    assert !Less("s", "s") by { LessIsStrict("s", "s"); }
    assert Add([], "s") == ["s"] && Add(["s"], "s") == ["s"];
    assert ReadSections(2, s2) == ReadSections(1, s3);
    assert ReadSections(1, s3) == Done(s3.(rest := []));
  }

  // Reading into a descriptor that is in use

  /** The section names at the head of a list of items. */
  ghost function Texts(n: nat, items: seq<Item>): seq<string>
  {
    if n == 0 || items == [] || !items[0].Text? then [] else [items[0].text] + Texts(n - 1, items[1..])
  }

  lemma {:induction false} SectionsAdded(n: nat, s: ReadState)
    requires ReadSections(n, s).Done?
    ensures
      var t := ReadSections(n, s).state;
      && t.allTags == s.allTags && t.d.sectionOf == s.d.sectionOf
      && t.d.sections == AddAll(s.d.sections, Texts(n, s.rest))
    decreases n
  {
    if n > 0 {
      var name := s.rest[0].text;
      SectionsAdded(n - 1, s.(d := s.d.(sections := Add(s.d.sections, name)), rest := s.rest[1..]));
      assert Texts(n, s.rest)[1..] == Texts(n - 1, s.rest[1..]);
    }
  }

  /** A tag that the parcel does not mention keeps its section index. */
  lemma {:induction false} TagsKeepIndexes(n: nat, s: ReadState, t: Word)
    requires ReadTags(n, s).Done? && t !in ReadTags(n, s).state.allTags
    ensures
      var u := ReadTags(n, s).state;
      && u.d.sections == s.d.sections
      && (t in u.d.sectionOf <==> t in s.d.sectionOf)
      && (t in s.d.sectionOf ==> u.d.sectionOf[t] == s.d.sectionOf[t])
      && (forall x :: x in s.allTags ==> x in u.allTags)
    decreases n
  {
    if n > 0 {
      var next := ReadTag(s).state;
      TagsKeepIndexes(n - 1, next, t);
      assert next.allTags[|s.allTags|] in next.allTags;
    }
  }

  lemma {:induction false} ReindexKeepsForward(d: Desc, tags: seq<Word>)
    requires Reindex(d, tags).Some?
    ensures Reindex(d, tags).value == d.(reverse := Reindex(d, tags).value.reverse)
    decreases |tags|
  {
    if tags != [] {
      ReindexKeepsForward(
        d.(reverse := AddReverse(d.reverse, SectionName(d, tags[0]).value, d.names[tags[0]], tags[0])), tags[1..]);
    }
  }

  /** Each tag takes four items. */
  lemma {:induction false} TagsConsume(n: nat, s: ReadState)
    requires ReadTags(n, s).Done?
    ensures |s.rest| >= 4 * n && ReadTags(n, s).state.rest == s.rest[4 * n..]
    decreases n
  {
    if n > 0 {
      TagsConsume(n - 1, ReadTag(s).state);
      assert s.rest[4..][4 * (n - 1)..] == s.rest[4 * n..];
    }
  }

  /** The section names a parcel lists after its tags. */
  ghost function Listed(items: seq<Item>): seq<string>
    requires items != [] && items[0].Int?
  {
    var count := AsSigned(items[0].word);
    if count <= 0 || |items| <= 1 + 4 * count || !items[1 + 4 * count].Int? then []
    else Texts(items[1 + 4 * count].word, items[2 + 4 * count..])
  }

  /** The names added to the section list of a descriptor that is read into are those listed. */
  lemma ForwardAdds(d: Desc, items: seq<Item>, t: Word)
    requires ReadForward(d, items).Done? && t !in ReadForward(d, items).state.allTags
    ensures
      var e := ReadForward(d, items).state.d;
      && e.sections == AddAll(d.sections, Listed(items))
      && (t in d.sectionOf ==> t in e.sectionOf && e.sectionOf[t] == d.sectionOf[t])
  {
    var count := AsSigned(items[0].word);
    var start := ReadState(d.(count := count), [], 0, items[1..]);
    var s := ReadTags(count, start).state;
    TagsConsume(count, start);
    if count > 0 {
      var from := s.(rest := s.rest[1..]);
      assert s.rest == items[1 + 4 * count..] && from.rest == items[2 + 4 * count..];
      SectionsAdded(s.rest[0].word, from);
    }
    TagsKeepIndexes(count, start, t);
  }

  /**
   * Reading a parcel into a descriptor that is in use: a tag that the parcel does not
   * mention keeps its section if and only if no section name that the parcel lists anew
   * sorts before it, because section indexes are positions in a sorted list.
   */
  lemma OldTagsKeepSections(d: Desc, items: seq<Item>, t: Word)
    requires Increasing(d.sections) && SectionName(d, t).Some?
    requires Read(d, items).Done? && t !in Read(d, items).state.allTags
    ensures SectionName(Read(d, items).state.d, t) == SectionName(d, t)
      <==> !Displaces(d.sections, Listed(items), d.sectionOf[t])
  {
    var s := ReadForward(d, items).state;
    ForwardAdds(d, items, t);
    ReindexKeepsForward(s.d, s.allTags);
    AddAllAt(d.sections, Listed(items), d.sectionOf[t]);
  }

  /** A descriptor with one tag, named "n", in section "b". */
  ghost function OneTag(t: Word): Desc
  {
    Desc([t], map[t := "n"], map[t := 0], map[t := 0], ["b"], map["b" := map["n" := t]], 1)
  }

  lemma OneTagIsConsistent(t: Word)
    ensures Consistent(OneTag(t)) && SectionName(OneTag(t), t) == Some("b")
  {
  }

  lemma ReadSectionA(s: ReadState)
    requires s.rest == [Int(1), Text("a")] && s.maxSection == 0 && s.d.sections == ["b"]
    ensures ReadSectionList(s) == Done(s.(d := s.d.(sections := ["a", "b"]), rest := []))
  {
    assert s.rest[1..] == [Text("a")] && [Text("a")][1..] == [];
    assert Less("a", "b") && Add(["b"], "a") == ["a", "b"];
    var s2 := s.(rest := [Text("a")]);
    assert ReadSections(1, s2) == ReadSections(0, s2.(d := s2.d.(sections := ["a", "b"]), rest := []));
  }

  lemma ReadTagM(s: ReadState, u: Word)
    requires u >= VENDOR_TAG_BOUNDARY && s.rest == [Int(u), Int(0), Text("m"), Int(0), Int(1), Text("a")]
    ensures ReadTags(1, s) == Done(AddTag(s, u, 0, "m", 0, [Int(1), Text("a")]))
  {
    assert s.rest[4..] == [Int(1), Text("a")];
    var t := AddTag(s, u, 0, "m", 0, [Int(1), Text("a")]);
    assert ReadTag(s) == Done(t) && ReadTags(0, t) == Done(t);
  }

  /** Into such a descriptor a parcel with another tag, in section "a", is read: the old tag is in "a" now. */
  lemma ReadingMovesOldTag(t: Word, u: Word)
    requires u >= VENDOR_TAG_BOUNDARY && t != u
    ensures
      var r := Read(OneTag(t), [Int(1), Int(u), Int(0), Text("m"), Int(0), Int(1), Text("a")]);
      && Consistent(OneTag(t)) && SectionName(OneTag(t), t) == Some("b")
      && r.Done? && SectionName(r.state.d, t) == Some("a")
  {
    OneTagIsConsistent(t);
    var d := OneTag(t);
    var items := [Int(1), Int(u), Int(0), Text("m"), Int(0), Int(1), Text("a")];
    var s0 := ReadState(d.(count := 1), [], 0, items[1..]);
    ReadTagM(s0, u);
    var s1 := AddTag(s0, u, 0, "m", 0, [Int(1), Text("a")]);
    ReadSectionA(s1);
    var e := s1.d.(sections := ["a", "b"]);
    assert s1.allTags == [u] && [u][1..] == [];
    assert Reindex(e, [u]) == Some(e.(reverse := AddReverse(e.reverse, "a", "m", u)));
  }
}
