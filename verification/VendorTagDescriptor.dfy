/** The VendorTagDescriptor object, whose reverse index holds name tables by reference. */
module VendorTagDescriptor {
  import opened Common
  import opened SortedStrings
  import opened VendorTags
  import P = VendorTagParcel

  /** What a vendor's tag operations answer; a missing entry is a null answer. */
  datatype Ops = Ops(
    count: int, tags: seq<Word>,
    name: map<Word, string>, section: map<Word, string>, kind: map<Word, int>)

  predicate OpsTagOk(ops: Ops, t: Word)
  {
    && t >= VENDOR_TAG_BOUNDARY && t in ops.name && t in ops.section
    && t in ops.kind && 0 <= ops.kind[t] < NUM_TYPES
  }

  ghost predicate OpsOk(ops: Ops)
  {
    ops.count >= 0 && forall i :: 0 <= i < |ops.tags| ==> OpsTagOk(ops, ops.tags[i])
  }

  ghost predicate TagsOk(ops: Ops, tags: seq<Word>)
  {
    forall i :: 0 <= i < |tags| ==> OpsTagOk(ops, tags[i])
  }

  ghost predicate KeysBuilt(tags: seq<Word>, keys: seq<Word>)
  {
    Ascending(keys) && forall t :: t in keys <==> t in tags
  }

  /** A map with the answers for exactly the given tags. */
  ghost predicate MapBuilt<V>(tags: seq<Word>, answers: map<Word, V>, m: map<Word, V>)
  {
    && (forall t <- m :: t in tags)
    && (forall i :: 0 <= i < |tags| ==> tags[i] in answers && tags[i] in m && m[tags[i]] == answers[tags[i]])
  }

  /** Exactly the sections of the given tags, sorted. */
  ghost predicate SectionsBuilt(tags: seq<Word>, section: map<Word, string>, sections: seq<string>)
  {
    && Increasing(sections)
    && (forall i :: 0 <= i < |tags| ==> tags[i] in section && section[tags[i]] in sections)
    && (forall s :: s in sections ==> exists i :: 0 <= i < |tags| && section[tags[i]] == s)
  }

  /** Names, types and the section list, for the given tags. */
  ghost predicate ForwardBuilt(ops: Ops, tags: seq<Word>, d: Desc)
  {
    && TagsOk(ops, tags)
    && KeysBuilt(tags, d.keys)
    && MapBuilt(tags, ops.name, d.names) && MapBuilt(tags, ops.kind, d.types)
    && SectionsBuilt(tags, ops.section, d.sections)
  }

  /** Section indexes for the given tags. */
  ghost predicate IndexesBuilt(ops: Ops, tags: seq<Word>, d: Desc)
  {
    && (forall t <- d.sectionOf :: t in tags)
    && (forall i :: 0 <= i < |tags| ==>
          tags[i] in ops.section && SectionName(d, tags[i]) == Some(ops.section[tags[i]]))
  }

  /** What building from operations must give. */
  ghost predicate Built(ops: Ops, d: Desc)
    requires OpsOk(ops)
  {
    && ForwardBuilt(ops, ops.tags, d) && IndexesBuilt(ops, ops.tags, d)
    && d.reverse == Indexed(ops.tags, ops.name, ops.section)
    && d.count == |ops.tags|
  }

  lemma KeysBuiltOne(tags: seq<Word>, keys: seq<Word>, t: Word)
    requires KeysBuilt(tags, keys)
    ensures KeysBuilt(tags + [t], AddKey(keys, t))
  {
    AddKeyAscending(keys, t);
    AddKeyMembers(keys, t);
  }

  lemma MapBuiltOne<V>(tags: seq<Word>, answers: map<Word, V>, m: map<Word, V>, t: Word)
    requires MapBuilt(tags, answers, m) && t in answers
    ensures MapBuilt(tags + [t], answers, m[t := answers[t]])
  {
  }

  lemma SectionsBuiltOne(tags: seq<Word>, section: map<Word, string>, sections: seq<string>, t: Word)
    requires SectionsBuilt(tags, section, sections) && t in section
    ensures SectionsBuilt(tags + [t], section, Add(sections, section[t]))
  {
    AddKeepsIncreasing(sections, section[t]);
    AddMembers(sections, section[t]);
    var more := tags + [t];
    forall s | s in Add(sections, section[t])
      ensures exists i :: 0 <= i < |more| && section[more[i]] == s
    {
      if s in sections {
        var i :| 0 <= i < |tags| && section[tags[i]] == s;
        assert more[i] == tags[i];
      } else {
        assert more[|tags|] == t;
      }
    }
  }

  /** The descriptor once one more tag has been collected. */
  function Collect(ops: Ops, d: Desc, t: Word): Desc
    requires OpsTagOk(ops, t)
  {
    d.(keys := AddKey(d.keys, t), names := d.names[t := ops.name[t]],
       types := d.types[t := ops.kind[t]], sections := Add(d.sections, ops.section[t]))
  }

  lemma ForwardBuiltOne(ops: Ops, tags: seq<Word>, d: Desc, t: Word, more: seq<Word>)
    requires ForwardBuilt(ops, tags, d) && OpsTagOk(ops, t) && more == tags + [t]
    ensures ForwardBuilt(ops, more, Collect(ops, d, t))
  {
    KeysBuiltOne(tags, d.keys, t);
    MapBuiltOne(tags, ops.name, d.names, t);
    MapBuiltOne(tags, ops.kind, d.types, t);
    SectionsBuiltOne(tags, ops.section, d.sections, t);
  }

  /** All the given tags collected in order. */
  function CollectAll(ops: Ops, tags: seq<Word>, d: Desc): Desc
    requires TagsOk(ops, tags)
  {
    if tags == [] then d
    else
      var n := |tags| - 1;
      assert OpsTagOk(ops, tags[n]);
      Collect(ops, CollectAll(ops, tags[..n], d), tags[n])
  }

  lemma {:induction false} CollectAllBuilds(ops: Ops, tags: seq<Word>, count: int)
    requires TagsOk(ops, tags)
    ensures ForwardBuilt(ops, tags, CollectAll(ops, tags, EMPTY.(count := count)))
    decreases |tags|
  {
    if tags != [] {
      var n := |tags| - 1;
      CollectAllBuilds(ops, tags[..n], count);
      assert OpsTagOk(ops, tags[n]);
      assert tags == tags[..n] + [tags[n]];
      ForwardBuiltOne(ops, tags[..n], CollectAll(ops, tags[..n], EMPTY.(count := count)), tags[n], tags);
    }
  }

  /** There are no more sections than tags. */
  lemma SectionCount(ops: Ops, d: Desc)
    requires SectionsBuilt(ops.tags, ops.section, d.sections)
    ensures |d.sections| <= |ops.tags|
  {
    var owner: seq<nat> := seq(|d.sections|, i requires 0 <= i < |d.sections| =>
      assert d.sections[i] in d.sections;
      var k: nat :| k < |ops.tags| && ops.section[ops.tags[k]] == d.sections[i]; k);
    forall i, j | 0 <= i < j < |owner|
      ensures owner[i] != owner[j]
    {
      LessIsStrict(d.sections[i], d.sections[j]);
    }
    Pigeonhole(owner, |ops.tags|);
  }

  lemma {:induction false} Pigeonhole(s: seq<nat>, n: nat)
    requires NoDuplicates(s) && forall i :: 0 <= i < |s| ==> s[i] < n
    ensures |s| <= n
    decreases n
  {
    if s != [] {
      assert s[0] < n;
      if i :| 0 <= i < |s| && s[i] == n - 1 {
        var rest := s[..i] + s[i + 1..];
        Pigeonhole(rest, n - 1);
      } else {
        Pigeonhole(s, n - 1);
      }
    }
  }

  /** The section index of each of the given tags. */
  function SectionIndexes(tags: seq<Word>, section: map<Word, string>, sections: seq<string>): map<Word, Word>
    requires |sections| < TWO_32
    requires forall i :: 0 <= i < |tags| ==> tags[i] in section && section[tags[i]] in sections
  {
    if tags == [] then map[]
    else
      var n := |tags| - 1;
      SectionIndexes(tags[..n], section, sections)[tags[n] := IndexOf(sections, section[tags[n]])]
  }

  lemma {:induction false} SectionIndexesBuild(ops: Ops, tags: seq<Word>, d: Desc)
    requires |d.sections| < TWO_32
    requires forall i :: 0 <= i < |tags| ==> tags[i] in ops.section && ops.section[tags[i]] in d.sections
    requires d.sectionOf == SectionIndexes(tags, ops.section, d.sections)
    ensures IndexesBuilt(ops, tags, d)
    decreases |tags|
  {
    if tags != [] {
      var n := |tags| - 1;
      SectionIndexesBuild(ops, tags[..n],
                          d.(sectionOf := SectionIndexes(tags[..n], ops.section, d.sections)));
      assert tags == tags[..n] + [tags[n]];
    }
  }

  /** A name table of the reverse index: a heap object, so that sharing can be seen. */
  class NameTable {
    var entries: map<string, Word>

    constructor (entries: map<string, Word>)
      ensures this.entries == entries
    {
      this.entries := entries;
    }
  }

  class Descriptor {
    var mReverseMapping: map<string, NameTable>
    var mTagKeys: seq<Word>
    var mTagToNameMap: map<Word, string>
    var mTagToSectionMap: map<Word, Word>
    var mTagToTypeMap: map<Word, int>
    var mSections: seq<string>
    var mTagCount: int

    ghost function Tables(): set<NameTable>
      reads this
    {
      mReverseMapping.Values
    }

    /** No two sections share a name table. */
    ghost predicate Valid()
      reads this
    {
      forall s, u :: s in mReverseMapping && u in mReverseMapping && mReverseMapping[s] == mReverseMapping[u] ==> s == u
    }

    ghost function Reverse(): ReverseIndex
      reads this, Tables()
    {
      map s | s in mReverseMapping :: mReverseMapping[s].entries
    }

    /** Everything but the reverse index. */
    ghost function Forward(): Desc
      reads this
    {
      Desc(mTagKeys, mTagToNameMap, mTagToSectionMap, mTagToTypeMap, mSections, map[], mTagCount)
    }

    ghost function View(): Desc
      reads this, Tables()
    {
      Forward().(reverse := Reverse())
    }

    constructor ()
      ensures Valid() && View() == EMPTY && Tables() == {}
    {
      mReverseMapping, mTagKeys := map[], [];
      mTagToNameMap, mTagToSectionMap, mTagToTypeMap := map[], map[], map[];
      mSections, mTagCount := [], 0;
    }

    /**
     * lookupTag.  In a consistent descriptor it finds a tag with that name and section, and
     * finds none only if no stored tag has them.
     */
    method Lookup(name: string, section: string) returns (tag: Option<Word>)
      ensures tag == LookupTag(Reverse(), name, section)
      ensures Consistent(View()) ==> if tag.Some? then HasPair(View(), tag.value, name, section)
                                     else forall t :: !HasPair(View(), t, name, section)
    {
      LookupInverts(View(), name, section);
      if section !in mReverseMapping {
        return None;
      }
      var table := mReverseMapping[section];
      tag := if name in table.entries then Some(table.entries[name]) else None;
    }

    /** Enters a tag in its section's table, making the table first if need be. */
    method AddToReverse(section: string, name: string, tag: Word)
      requires Valid()
      modifies this`mReverseMapping, Tables()
      ensures Valid() && fresh(Tables() - old(Tables()))
      ensures Reverse() == AddReverse(old(Reverse()), section, name, tag)
    {
      if section !in mReverseMapping {
        var table := new NameTable(map[]);
        mReverseMapping := mReverseMapping[section := table];
      }
      var table := mReverseMapping[section];
      assert table in Tables();
      table.entries := table.entries[name := tag];
    }

    method CollectOne(ops: Ops, t: Word)
      requires OpsTagOk(ops, t)
      modifies this`mTagKeys, this`mTagToNameMap, this`mSections, this`mTagToTypeMap
      ensures Forward() == Collect(ops, old(Forward()), t)
    {
      mTagKeys, mTagToNameMap := AddKey(mTagKeys, t), mTagToNameMap[t := ops.name[t]];
      mSections := Add(mSections, ops.section[t]);
      mTagToTypeMap := mTagToTypeMap[t := ops.kind[t]];
    }

    /** First loop of createDescriptorFromOps: stops at the first tag that is not acceptable. */
    method CollectTags(ops: Ops) returns (ok: bool)
      modifies this`mTagKeys, this`mTagToNameMap, this`mSections, this`mTagToTypeMap
      ensures ok <==> TagsOk(ops, ops.tags)
      ensures ok ==> Forward() == CollectAll(ops, ops.tags, old(Forward()))
    {
      for i := 0 to |ops.tags|
        invariant TagsOk(ops, ops.tags[..i])
        invariant Forward() == CollectAll(ops, ops.tags[..i], old(Forward()))
      {
        var t := ops.tags[i];
        if !OpsTagOk(ops, t) {
          return false;
        }
        assert ops.tags[..i + 1][..i] == ops.tags[..i];
        CollectOne(ops, t);
      }
      assert ops.tags[..|ops.tags|] == ops.tags;
      ok := true;
    }

    /** Second loop of createDescriptorFromOps: section indexes and the reverse index. */
    method IndexTags(ops: Ops)
      requires Valid() && mTagToSectionMap == map[] && mReverseMapping == map[] && |mSections| < TWO_32
      requires forall i :: 0 <= i < |ops.tags| ==>
        && ops.tags[i] in ops.section && ops.section[ops.tags[i]] in mSections
        && ops.tags[i] in ops.name && ops.tags[i] in mTagToNameMap
        && mTagToNameMap[ops.tags[i]] == ops.name[ops.tags[i]]
      modifies this`mTagToSectionMap, this`mReverseMapping
      ensures Valid() && fresh(Tables())
      ensures mTagToSectionMap == SectionIndexes(ops.tags, ops.section, mSections)
      ensures Reverse() == Indexed(ops.tags, ops.name, ops.section)
    {
      for i := 0 to |ops.tags|
        invariant Valid() && fresh(Tables())
        invariant mTagToSectionMap == SectionIndexes(ops.tags[..i], ops.section, mSections)
        invariant Reverse() == Indexed(ops.tags[..i], ops.name, ops.section)
      {
        var t := ops.tags[i];
        assert ops.tags[..i + 1][..i] == ops.tags[..i];
        IndexOne(ops.section[t], t);
      }
      assert ops.tags[..|ops.tags|] == ops.tags;
    }

    method IndexOne(section: string, t: Word)
      requires Valid() && section in mSections && |mSections| < TWO_32 && t in mTagToNameMap
      modifies this`mTagToSectionMap, this`mReverseMapping, Tables()
      ensures Valid() && fresh(Tables() - old(Tables()))
      ensures mTagToSectionMap == old(mTagToSectionMap)[t := IndexOf(mSections, section)]
      ensures Reverse() == AddReverse(old(Reverse()), section, mTagToNameMap[t], t)
    {
      mTagToSectionMap := mTagToSectionMap[t := IndexOf(mSections, section)];
      AddToReverse(section, mTagToNameMap[t], t);
    }

    /**
     * createDescriptorFromOps.  It succeeds exactly when every tag is a vendor tag with a
     * name, a section and a known type, and then the descriptor is the one they describe.
     */
    static method CreateDescriptorFromOps(ops: Ops) returns (status: Status, desc: Descriptor?)
      requires ops.count >= 0 ==> |ops.tags| == ops.count < 0x8000_0000
      ensures status == if OpsOk(ops) then Ok else BadValue
      ensures status != Ok ==> desc == null
      ensures status == Ok ==> desc != null && fresh(desc) && desc.Valid() && Built(ops, desc.View())
      ensures status == Ok ==> Consistent(desc.View())
    {
      if ops.count < 0 {
        return BadValue, null;
      }
      var d := new Descriptor();
      d.mTagCount := ops.count;
      var ok := d.CollectTags(ops);
      if !ok {
        return BadValue, null;
      }
      CollectAllBuilds(ops, ops.tags, ops.count);
      SectionCount(ops, d.Forward());
      d.IndexTags(ops);
      SectionIndexesBuild(ops, ops.tags, d.View());
      BuiltIsConsistent(ops, d.View());
      return Ok, d;
    }

    /** Fresh copies of the name tables. */
    method CopyTables() returns (copy: map<string, NameTable>)
      ensures copy.Keys == mReverseMapping.Keys
      ensures forall s <- copy :: fresh(copy[s]) && copy[s].entries == mReverseMapping[s].entries
      ensures forall s, u :: s in copy && u in copy && copy[s] == copy[u] ==> s == u
    {
      copy := map[];
      var todo := mReverseMapping.Keys;
      while todo != {}
        invariant todo <= mReverseMapping.Keys && copy.Keys == mReverseMapping.Keys - todo
        invariant forall s <- copy :: fresh(copy[s]) && copy[s].entries == mReverseMapping[s].entries
        invariant forall s, u :: s in copy && u in copy && copy[s] == copy[u] ==> s == u
        decreases |todo|
      {
        var s :| s in todo;
        var nameMapper := new NameTable(mReverseMapping[s].entries);
        copy := copy[s := nameMapper];
        todo := todo - {s};
      }
    }

    /** Copies everything; the name tables are copied, not shared. */
    method CopyFrom(src: Descriptor)
      requires src.Valid() && Valid()
      modifies this
      ensures View() == old(src.View()) && Valid()
      ensures src.View() == old(src.View())
      ensures this != src ==> fresh(Tables()) && Tables() !! src.Tables()
      ensures old(Consistent(src.View())) ==> Consistent(View())
    {
      if this == src {
        return;
      }
      mReverseMapping := src.CopyTables();
      mTagKeys, mTagToNameMap := src.mTagKeys, src.mTagToNameMap;
      mTagToSectionMap, mTagToTypeMap := src.mTagToSectionMap, src.mTagToTypeMap;
      mSections, mTagCount := src.mSections, src.mTagCount;
      assert Reverse() == src.Reverse();
      assert src.Reverse() == old(src.Reverse());
    }

    method WriteTagLoop(ghost v: Desc) returns (items: seq<Item>)
      requires v == View() && Writable(v)
      ensures items == WriteTags(v, mTagKeys)
    {
      items := [];
      for i := 0 to |mTagKeys|
        invariant items + WriteTags(v, mTagKeys[i..]) == WriteTags(v, mTagKeys)
      {
        var t := mTagKeys[i];
        assert WritableTag(v, t);
        assert mTagKeys[i..][1..] == mTagKeys[i + 1..];
        var entry := [Int(t), Int(mTagToTypeMap[t]), Text(mTagToNameMap[t]), Int(mTagToSectionMap[t])];
        assert items + (entry + WriteTags(v, mTagKeys[i + 1..])) == (items + entry) + WriteTags(v, mTagKeys[i + 1..]);
        items := items + entry;
      }
    }

    method WriteSectionLoop() returns (items: seq<Item>)
      ensures items == WriteSections(mSections)
    {
      items := [];
      for i := 0 to |mSections|
        invariant items + WriteSections(mSections[i..]) == WriteSections(mSections)
      {
        assert mSections[i..][1..] == mSections[i + 1..];
        assert items + ([Text(mSections[i])] + WriteSections(mSections[i + 1..]))
            == (items + [Text(mSections[i])]) + WriteSections(mSections[i + 1..]);
        items := items + [Text(mSections[i])];
      }
    }

    /** writeToParcel */
    method WriteToParcel() returns (items: seq<Item>)
      requires Writable(View())
      ensures items == Write(View())
    {
      ghost var v := View();
      var tags := WriteTagLoop(v);
      items := [Int(mTagCount)] + tags;
      assert items == [Int(v.count)] + WriteTags(v, v.keys);
      if |mSections| > 0 {
        var sections := WriteSectionLoop();
        assert [Int(|mSections|)] + sections == P.WrittenSections(v);
        items := items + ([Int(|mSections|)] + sections);
      } else {
        assert items + P.WrittenSections(v) == items;
      }
      assert items == [Int(v.count)] + WriteTags(v, v.keys) + P.WrittenSections(v);
      assert View() == v;
    }

    /** The forward part of readFromParcel's state; `reverse` stays as it was. */
    ghost function Reading(reverse: ReverseIndex, allTags: seq<Word>, maxSection: Word, rest: seq<Item>): ReadState
      reads this
    {
      ReadState(Forward().(reverse := reverse), allTags, maxSection, rest)
    }

    /** Reads one tag; on success the state has advanced as ReadTag says. */
    method ReadOneTag(allTags: seq<Word>, maxSection: Word, items: seq<Item>, ghost reverse: ReverseIndex)
      returns (status: Status, allTags': seq<Word>, maxSection': Word, rest: seq<Item>)
      modifies this`mTagKeys, this`mTagToNameMap, this`mTagToSectionMap, this`mTagToTypeMap
      ensures status != Ok ==> ReadTag(old(Reading(reverse, allTags, maxSection, items))) == Fail(status)
      ensures status == Ok ==>
        ReadTag(old(Reading(reverse, allTags, maxSection, items)))
        == Done(Reading(reverse, allTags', maxSection', rest))
    {
      allTags', maxSection', rest := allTags, maxSection, items;
      if |items| == 0 || !items[0].Int? {
        return NotEnoughData, allTags', maxSection', rest;
      }
      var tag := items[0].word;
      if tag < VENDOR_TAG_BOUNDARY {
        return BadValue, allTags', maxSection', rest;
      }
      if |items| == 1 || !items[1].Int? {
        return NotEnoughData, allTags', maxSection', rest;
      }
      var tagType := AsSigned(items[1].word);
      if tagType < 0 || tagType >= NUM_TYPES {
        return BadValue, allTags', maxSection', rest;
      }
      if |items| == 2 || !items[2].Text? || items[2].text == "" {
        return NotEnoughData, allTags', maxSection', rest;
      }
      if |items| == 3 || !items[3].Int? {
        return NotEnoughData, allTags', maxSection', rest;
      }
      var sectionIndex := items[3].word;
      maxSection' := if maxSection >= sectionIndex then maxSection else sectionIndex;
      allTags', rest := allTags + [tag], items[4..];
      mTagKeys, mTagToNameMap := AddKey(mTagKeys, tag), mTagToNameMap[tag := items[2].text];
      mTagToSectionMap := mTagToSectionMap[tag := sectionIndex];
      mTagToTypeMap := mTagToTypeMap[tag := tagType];
      status := Ok;
    }

    method ReadTagLoop(tagCount: nat, items: seq<Item>, ghost reverse: ReverseIndex)
      returns (status: Status, allTags: seq<Word>, maxSection: Word, rest: seq<Item>)
      modifies this`mTagKeys, this`mTagToNameMap, this`mTagToSectionMap, this`mTagToTypeMap
      ensures status != Ok ==> ReadTags(tagCount, old(Reading(reverse, [], 0, items))) == Fail(status)
      ensures status == Ok ==>
        ReadTags(tagCount, old(Reading(reverse, [], 0, items))) == Done(Reading(reverse, allTags, maxSection, rest))
    {
      status, allTags, maxSection, rest := Ok, [], 0, items;
      for i := 0 to tagCount
        invariant status == Ok
        invariant ReadTags(tagCount - i, Reading(reverse, allTags, maxSection, rest))
               == ReadTags(tagCount, old(Reading(reverse, [], 0, items)))
      {
        status, allTags, maxSection, rest := ReadOneTag(allTags, maxSection, rest, reverse);
        if status != Ok {
          return;
        }
      }
    }

    method ReadSectionLoop(allTags: seq<Word>, maxSection: Word, items: seq<Item>, ghost reverse: ReverseIndex)
      returns (status: Status, rest: seq<Item>)
      modifies this`mSections
      ensures status != Ok ==> ReadSectionList(old(Reading(reverse, allTags, maxSection, items))) == Fail(status)
      ensures status == Ok ==>
        ReadSectionList(old(Reading(reverse, allTags, maxSection, items)))
        == Done(Reading(reverse, allTags, maxSection, rest))
    {
      rest := items;
      if items == [] || !items[0].Int? {
        return NotEnoughData, rest;
      }
      var sectionCount := items[0].word;
      if sectionCount < (maxSection + 1) % TWO_32 {
        return BadValue, rest;
      }
      if sectionCount == 0 && mSections == [] {
        return Aborted, rest;
      }
      rest := items[1..];
      ghost var start := Reading(reverse, allTags, maxSection, rest);
      for i := 0 to sectionCount
        invariant ReadSections(sectionCount - i, Reading(reverse, allTags, maxSection, rest))
               == ReadSections(sectionCount, start)
      {
        if rest == [] || !rest[0].Text? || rest[0].text == "" {
          return NotEnoughData, rest;
        }
        mSections := Add(mSections, rest[0].text);
        rest := rest[1..];
      }
      status := Ok;
    }

    /** Rebuilds the reverse index; `ok` is false when a section index is out of range. */
    method ReindexLoop(tags: seq<Word>) returns (ok: bool)
      requires Valid()
      modifies this`mReverseMapping, Tables()
      ensures Valid() && fresh(Tables() - old(Tables()))
      ensures ok <==> Reindex(old(View()), tags).Some?
      ensures ok ==> Reindex(old(View()), tags) == Some(View())
    {
      ghost var start := View();
      for i := 0 to |tags|
        invariant Valid() && fresh(Tables() - old(Tables()))
        invariant Reindex(View(), tags[i..]) == Reindex(start, tags)
      {
        var t := tags[i];
        assert tags[i..][1..] == tags[i + 1..];
        if t !in mTagToNameMap || t !in mTagToSectionMap || mTagToSectionMap[t] >= |mSections| {
          return false;
        }
        AddToReverse(mSections[mTagToSectionMap[t]], mTagToNameMap[t], t);
      }
      ok := true;
    }

    method ReadForwardPart(items: seq<Item>, ghost reverse: ReverseIndex)
      returns (status: Status, allTags: seq<Word>, ghost maxSection: Word, rest: seq<Item>)
      modifies this`mTagKeys, this`mTagToNameMap, this`mTagToSectionMap, this`mTagToTypeMap
      modifies this`mSections, this`mTagCount
      ensures status != Ok ==> ReadForward(old(Forward()).(reverse := reverse), items) == Fail(status)
      ensures status == Ok ==>
        ReadForward(old(Forward()).(reverse := reverse), items) == Done(Reading(reverse, allTags, maxSection, rest))
    {
      allTags, maxSection, rest := [], 0, items;
      if items == [] || !items[0].Int? {
        return NotEnoughData, allTags, maxSection, rest;
      }
      var tagCount := AsSigned(items[0].word);
      if tagCount < 0 {
        return BadValue, allTags, maxSection, rest;
      }
      mTagCount := tagCount;
      var max;
      status, allTags, max, rest := ReadTagLoop(tagCount, items[1..], reverse);
      maxSection := max;
      if status == Ok && tagCount > 0 {
        status, rest := ReadSectionLoop(allTags, max, rest, reverse);
      }
    }

    /** readFromParcel: adds what the parcel says to what the object holds. */
    method ReadFromParcel(items: seq<Item>) returns (status: Status, rest: seq<Item>)
      requires Valid()
      modifies this, Tables()
      ensures Valid() && fresh(Tables() - old(Tables()))
      ensures status != Ok ==> Read(old(View()), items) == Fail(status)
      ensures status == Ok ==>
        var r := Read(old(View()), items);
        r.Done? && View() == r.state.d && rest == r.state.rest
      ensures status == Ok && old(View()) == EMPTY ==> Consistent(View())
    {
      P.ReadIsConsistent(items);
      ghost var reverse := Reverse();
      ghost var maxSection;
      var allTags;
      status, allTags, maxSection, rest := ReadForwardPart(items, reverse);
      if status != Ok {
        return;
      }
      assert View() == Reading(reverse, allTags, maxSection, rest).d;
      var ok := ReindexLoop(allTags);
      if !ok {
        status := OutOfBounds;
      }
    }
  }

  // What holds of descriptors built from operations

  lemma {:induction false} IndexedCongruent(tags: seq<Word>, n: map<Word, string>, s: map<Word, string>,
                                            n': map<Word, string>, s': map<Word, string>)
    requires forall i :: 0 <= i < |tags| ==>
      && tags[i] in n && tags[i] in s && tags[i] in n' && tags[i] in s'
      && n[tags[i]] == n'[tags[i]] && s[tags[i]] == s'[tags[i]]
    ensures Indexed(tags, n, s) == Indexed(tags, n', s')
    decreases |tags|
  {
    if tags != [] { IndexedCongruent(tags[..|tags| - 1], n, s, n', s'); }
  }

  lemma BuiltTag(ops: Ops, d: Desc, t: Word)
    requires OpsOk(ops) && Built(ops, d) && t in ops.tags
    ensures t in ops.name && t in ops.section && t in d.names && t in d.types
    ensures d.names[t] == ops.name[t] && d.types[t] == ops.kind[t]
    ensures t in d.sectionOf && d.sectionOf[t] < |d.sections| && d.sections[d.sectionOf[t]] == ops.section[t]
  {
    var i :| 0 <= i < |ops.tags| && ops.tags[i] == t;
    assert OpsTagOk(ops, ops.tags[i]);
    assert SectionName(d, ops.tags[i]) == Some(ops.section[ops.tags[i]]);
  }

  lemma BuiltInRange(ops: Ops, d: Desc)
    requires OpsOk(ops) && Built(ops, d)
    ensures InRange(d) && Lists(d, ops.tags)
  {
    forall t | t in ops.tags
      ensures t in d.names && t in d.types && t in d.sectionOf && d.sectionOf[t] < |d.sections|
    {
      BuiltTag(ops, d, t);
    }
  }

  lemma BuiltIndex(ops: Ops, d: Desc)
    requires OpsOk(ops) && Built(ops, d) && InRange(d) && Lists(d, ops.tags)
    ensures d.reverse == Indexed(ops.tags, d.names, SectionNames(d))
  {
    forall i | 0 <= i < |ops.tags|
      ensures
        var t := ops.tags[i];
        && t in ops.name && t in ops.section && t in d.names && t in SectionNames(d)
        && d.names[t] == ops.name[t] && SectionNames(d)[t] == ops.section[t]
    {
      BuiltTag(ops, d, ops.tags[i]);
    }
    IndexedCongruent(ops.tags, ops.name, ops.section, d.names, SectionNames(d));
  }

  /** A descriptor built from operations is consistent, whatever tags share names. */
  lemma BuiltIsConsistent(ops: Ops, d: Desc)
    requires OpsOk(ops) && Built(ops, d)
    ensures InRange(d) && Lists(d, ops.tags) && d.reverse == Indexed(ops.tags, d.names, SectionNames(d))
    ensures Consistent(d)
  {
    BuiltInRange(ops, d);
    BuiltIndex(ops, d);
    IndexingIsConsistent(d, ops.tags);
  }

  ghost function Members(s: seq<Word>): set<Word>
  {
    set t | t in s
  }

  lemma {:induction false} DistinctLength(s: seq<Word>)
    requires NoDuplicates(s)
    ensures |Members(s)| == |s|
    decreases |s|
  {
    if s != [] {
      var n := |s| - 1;
      DistinctLength(s[..n]);
      assert s == s[..n] + [s[n]];
      assert Members(s) == Members(s[..n]) + {s[n]};
      assert s[n] !in Members(s[..n]);
    }
  }

  lemma SameMembersSameLength(s: seq<Word>, u: seq<Word>)
    requires NoDuplicates(s) && NoDuplicates(u) && forall t :: t in s <==> t in u
    ensures |s| == |u|
  {
    DistinctLength(s);
    DistinctLength(u);
    assert Members(s) == Members(u);
  }

  /** The tags listed have names and sections that are not empty. */
  ghost predicate NonEmptyAnswers(ops: Ops)
  {
    forall i :: 0 <= i < |ops.tags| ==>
      && (ops.tags[i] in ops.name ==> ops.name[ops.tags[i]] != "")
      && (ops.tags[i] in ops.section ==> ops.section[ops.tags[i]] != "")
  }

  lemma BuiltTagSendable(ops: Ops, d: Desc, t: Word)
    requires OpsOk(ops) && Built(ops, d) && NonEmptyAnswers(ops) && t in ops.tags
    ensures P.SendableTag(d, t)
  {
    BuiltTag(ops, d, t);
    var k :| 0 <= k < |ops.tags| && ops.tags[k] == t;
    assert OpsTagOk(ops, ops.tags[k]);
  }

  lemma BuiltSectionsSendable(ops: Ops, d: Desc)
    requires SectionsBuilt(ops.tags, ops.section, d.sections) && NonEmptyAnswers(ops)
    requires |ops.tags| < 0x8000_0000
    ensures P.SendableSections(d.sections)
  {
    SectionCount(ops, d);
    forall i | 0 <= i < |d.sections|
      ensures d.sections[i] != ""
    {
      assert d.sections[i] in d.sections;
      var k :| 0 <= k < |ops.tags| && ops.section[ops.tags[k]] == d.sections[i];
    }
  }

  /** Distinct tags with non-empty names and sections make a descriptor that can be sent. */
  lemma BuiltIsSendable(ops: Ops, d: Desc)
    requires OpsOk(ops) && Built(ops, d) && NonEmptyAnswers(ops)
    requires NoDuplicates(ops.tags) && |ops.tags| < 0x8000_0000
    ensures P.Sendable(d)
  {
    forall i | 0 <= i < |d.keys|
      ensures P.SendableTag(d, d.keys[i])
    {
      assert d.keys[i] in ops.tags;
      BuiltTagSendable(ops, d, d.keys[i]);
    }
    SameMembersSameLength(ops.tags, d.keys);
    BuiltSectionsSendable(ops, d);
    SectionCount(ops, d);
  }

  lemma {:induction false} LastWithCongruent(
    tags: seq<Word>, n: map<Word, string>, s: map<Word, string>,
    n': map<Word, string>, s': map<Word, string>, name: string, section: string)
    requires forall i :: 0 <= i < |tags| ==>
      && tags[i] in n && tags[i] in s && tags[i] in n' && tags[i] in s'
      && n[tags[i]] == n'[tags[i]] && s[tags[i]] == s'[tags[i]]
    ensures LastWith(tags, n, s, name, section) == LastWith(tags, n', s', name, section)
    decreases |tags|
  {
    if tags != [] { LastWithCongruent(tags[..|tags| - 1], n, s, n', s', name, section); }
  }

  /** The operations' answers and the built maps agree on the tags. */
  lemma BuiltSameMaps(ops: Ops, d: Desc)
    requires OpsOk(ops) && Built(ops, d) && InRange(d)
    ensures forall i :: 0 <= i < |ops.tags| ==>
      && ops.tags[i] in ops.name && ops.tags[i] in ops.section
      && ops.tags[i] in d.names && ops.tags[i] in SectionNames(d)
      && ops.name[ops.tags[i]] == d.names[ops.tags[i]] && ops.section[ops.tags[i]] == SectionNames(d)[ops.tags[i]]
  {
    forall i | 0 <= i < |ops.tags|
      ensures
        && ops.tags[i] in ops.name && ops.tags[i] in ops.section
        && ops.tags[i] in d.names && ops.tags[i] in SectionNames(d)
        && ops.name[ops.tags[i]] == d.names[ops.tags[i]] && ops.section[ops.tags[i]] == SectionNames(d)[ops.tags[i]]
    {
      BuiltTag(ops, d, ops.tags[i]);
    }
  }

  lemma LargestCongruent(tags: seq<Word>, n: map<Word, string>, s: map<Word, string>,
                         n': map<Word, string>, s': map<Word, string>)
    requires forall i :: 0 <= i < |tags| ==>
      && tags[i] in n && tags[i] in s && tags[i] in n' && tags[i] in s'
      && n[tags[i]] == n'[tags[i]] && s[tags[i]] == s'[tags[i]]
    ensures P.LastsLargest(tags, n, s) <==> P.LastsLargest(tags, n', s')
  {
    forall t | t in tags
      ensures LastWith(tags, n, s, n[t], s[t]) == LastWith(tags, n', s', n'[t], s'[t])
    {
      LastWithCongruent(tags, n, s, n', s', n[t], s[t]);
    }
  }

  /** Operations whose descriptor can be sent: distinct tags, non-empty names and sections. */
  ghost predicate SendableOps(ops: Ops)
  {
    OpsOk(ops) && NonEmptyAnswers(ops) && NoDuplicates(ops.tags) && |ops.tags| < 0x8000_0000
  }

  /** What the round-trip lemmas need to know of a built descriptor. */
  lemma BuiltForSending(ops: Ops, d: Desc)
    requires SendableOps(ops) && Built(ops, d)
    ensures P.Sendable(d) && Writable(d) && InRange(d) && Lists(d, ops.tags) && Lists(d, d.keys)
    ensures d.reverse == Indexed(ops.tags, d.names, SectionNames(d))
  {
    BuiltIsSendable(ops, d);
    P.SendableFacts(d);
    BuiltIsConsistent(ops, d);
  }

  lemma BuiltLargest(ops: Ops, d: Desc)
    requires OpsOk(ops) && Built(ops, d) && InRange(d) && Lists(d, ops.tags)
    ensures P.LastsLargest(ops.tags, d.names, SectionNames(d)) <==> P.LastsLargest(ops.tags, ops.name, ops.section)
  {
    BuiltSameMaps(ops, d);
    LargestCongruent(ops.tags, ops.name, ops.section, d.names, SectionNames(d));
  }

  /**
   * A descriptor built from operations with distinct tags and non-empty names, written and
   * read into a fresh one, keeps every name, type and section; it keeps every answer of
   * lookupTag if and only if, of the tags that share a section and name, the one listed
   * last is the largest.
   */
  lemma BuiltRoundTrip(ops: Ops, d: Desc, tail: seq<Item>)
    requires SendableOps(ops) && Built(ops, d)
    ensures Writable(d)
    ensures
      var r := Read(EMPTY, Write(d) + tail);
      && r.Done? && r.state.rest == tail
      && r.state.d == d.(reverse := r.state.d.reverse)
      && Consistent(r.state.d)
      && (P.AllSameAnswers(r.state.d, d) <==> P.LastsLargest(ops.tags, ops.name, ops.section))
  {
    BuiltForSending(ops, d);
    BuiltLargest(ops, d);
    P.RoundTrip(d, ops.tags, tail);
  }

  /** In particular it keeps every answer when no two tags share section and name. */
  lemma BuiltDistinctRoundTrip(ops: Ops, d: Desc, tail: seq<Item>)
    requires SendableOps(ops) && Built(ops, d) && DistinctPairs(ops.tags, ops.name, ops.section)
    ensures Writable(d)
    ensures
      var r := Read(EMPTY, Write(d) + tail);
      r.Done? && r.state.rest == tail && P.Equivalent(r.state.d, d)
  {
    P.DistinctPairsAreLargest(ops.tags, ops.name, ops.section);
    BuiltRoundTrip(ops, d, tail);
  }

  // Caches of built descriptors

  /** Each vendor's descriptor was built from that vendor's operations. */
  ghost predicate BuiltCache(opsOf: map<nat, Ops>, cache: P.Cache)
  {
    && opsOf.Keys == cache.Keys
    && forall id <- cache :: SendableOps(opsOf[id]) && Built(opsOf[id], cache[id])
                             && DistinctPairs(opsOf[id].tags, opsOf[id].name, opsOf[id].section)
  }

  lemma BuiltIsFaithful(ops: Ops, d: Desc)
    requires SendableOps(ops) && Built(ops, d) && DistinctPairs(ops.tags, ops.name, ops.section)
    ensures P.Faithful(d)
  {
    BuiltForSending(ops, d);
    P.DistinctPairsAreLargest(ops.tags, ops.name, ops.section);
    BuiltLargest(ops, d);
  }

  /**
   * A cache of descriptors built from operations with distinct tags, non-empty names and
   * distinct section/name pairs, written in any iteration order and read back, has the same
   * vendors and, for each, the same names, types, sections and lookup answers, with nothing
   * left over.
   */
  lemma BuiltCacheRoundTrip(opsOf: map<nat, Ops>, cache: P.Cache, order: seq<nat>, tail: seq<Item>)
    requires BuiltCache(opsOf, cache) && P.Iterates(order, cache) && |cache| < 0x8000_0000
    ensures forall id <- cache :: Writable(cache[id])
    ensures |P.Written(cache)| < TWO_32
    ensures
      var r := P.ReadCache(P.WriteCache(P.Written(cache), order) + tail);
      r.CacheDone? && r.rest == tail && P.EquivalentCache(r.cache, cache)
  {
    forall id, d | id in cache && cache[id] == d ensures P.Faithful(d) {
      BuiltIsFaithful(opsOf[id], d);
    }
    P.CacheRoundTrip(cache, order, tail);
  }

  // A pair that two tags share

  /** A descriptor with its section indexes and reverse index added. */
  ghost function Finished(ops: Ops, f: Desc): Desc
    requires ForwardBuilt(ops, ops.tags, f) && |f.sections| < TWO_32
  {
    assert forall i :: 0 <= i < |ops.tags| ==> OpsTagOk(ops, ops.tags[i]);
    f.(sectionOf := SectionIndexes(ops.tags, ops.section, f.sections),
       reverse := Indexed(ops.tags, ops.name, ops.section), count := |ops.tags|)
  }

  lemma FinishedIsBuilt(ops: Ops, f: Desc)
    requires OpsOk(ops) && ForwardBuilt(ops, ops.tags, f) && |f.sections| < TWO_32
    ensures Built(ops, Finished(ops, f))
  {
    SectionIndexesBuild(ops, ops.tags, Finished(ops, f));
  }

  /** The descriptor that acceptable operations describe. */
  ghost function DescriptorOf(ops: Ops): (d: Desc)
    requires OpsOk(ops) && |ops.tags| < 0x8000_0000
    ensures Built(ops, d)
  {
    CollectAllBuilds(ops, ops.tags, 0);
    var f := CollectAll(ops, ops.tags, EMPTY.(count := 0));
    SectionCount(ops, f);
    FinishedIsBuilt(ops, f);
    Finished(ops, f)
  }

  /** The larger of two tags with one name and section, listed first. */
  ghost function SharedOps(small: Word, large: Word): Ops
  {
    Ops(2, [large, small], map[small := "n", large := "n"], map[small := "s", large := "s"],
        map[small := 0, large := 0])
  }

  lemma SharedSender(small: Word, large: Word, d: Desc)
    requires VENDOR_TAG_BOUNDARY <= small < large && OpsOk(SharedOps(small, large)) && Built(SharedOps(small, large), d)
    ensures LookupTag(d.reverse, "n", "s") == Some(small)
  {
    var ops := SharedOps(small, large);
    IndexedFindsLast(ops.tags, ops.name, ops.section, "n", "s");
  }

  /** The two tags are the only ones, under one name and section. */
  ghost predicate OnlyShared(small: Word, large: Word, d: Desc)
    requires InRange(d)
  {
    && small in d.keys && large in d.keys && (forall t :: t in d.keys ==> t == small || t == large)
    && small in d.names && large in d.names && d.names[small] == "n" == d.names[large]
    && SectionNames(d)[small] == "s" == SectionNames(d)[large]
  }

  lemma SharedKeys(small: Word, large: Word, keys: seq<Word>)
    requires KeysBuilt([large, small], keys)
    ensures small in keys && large in keys && forall t :: t in keys ==> t == small || t == large
  {
    assert [large, small][0] == large && [large, small][1] == small;
  }

  lemma SharedTag(small: Word, large: Word, d: Desc, t: Word)
    requires OpsOk(SharedOps(small, large)) && Built(SharedOps(small, large), d) && InRange(d)
    requires t == small || t == large
    ensures t in d.names && d.names[t] == "n" && SectionNames(d)[t] == "s"
  {
    var ops := SharedOps(small, large);
    assert ops.tags[0] == large && ops.tags[1] == small;
    BuiltTag(ops, d, t);
  }

  lemma SharedIsOnly(small: Word, large: Word, d: Desc)
    requires OpsOk(SharedOps(small, large)) && Built(SharedOps(small, large), d) && InRange(d)
    ensures OnlyShared(small, large, d)
  {
    SharedKeys(small, large, d.keys);
    SharedTag(small, large, d, small);
    SharedTag(small, large, d, large);
  }

  lemma OnlySharedAnswer(small: Word, large: Word, d: Desc, tail: seq<Item>)
    requires small < large && P.Sendable(d) && Writable(d) && InRange(d) && Lists(d, d.keys)
    requires OnlyShared(small, large, d)
    ensures
      var r := Read(EMPTY, Write(d) + tail);
      r.Done? && LookupTag(r.state.d.reverse, "n", "s") == Some(large)
  {
    P.SharedPairReadsBackLargest(d, tail, small);
  }

  lemma SharedReceiver(small: Word, large: Word, d: Desc, tail: seq<Item>)
    requires VENDOR_TAG_BOUNDARY <= small < large && SendableOps(SharedOps(small, large))
    requires Built(SharedOps(small, large), d)
    ensures Writable(d)
    ensures
      var r := Read(EMPTY, Write(d) + tail);
      r.Done? && LookupTag(r.state.d.reverse, "n", "s") == Some(large)
  {
    BuiltForSending(SharedOps(small, large), d);
    SharedIsOnly(small, large, d);
    OnlySharedAnswer(small, large, d, tail);
  }

  /**
   * Two tags with one name and section, the larger listed first: the sender answers with the
   * smaller, which it indexed last, and the receiver with the larger.
   */
  lemma SharedPairAnswersDiffer(small: Word, large: Word, tail: seq<Item>)
    requires VENDOR_TAG_BOUNDARY <= small < large
    ensures
      var ops := SharedOps(small, large);
      && SendableOps(ops) && Writable(DescriptorOf(ops))
      && var d := DescriptorOf(ops);
      var r := Read(EMPTY, Write(d) + tail);
      && r.Done?
      && LookupTag(d.reverse, "n", "s") == Some(small)
      && LookupTag(r.state.d.reverse, "n", "s") == Some(large)
  {
    var ops := SharedOps(small, large);
    assert SendableOps(ops);
    var d := DescriptorOf(ops);
    SharedSender(small, large, d);
    SharedReceiver(small, large, d, tail);
  }
}
