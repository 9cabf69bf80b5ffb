/**
 * Vendor tag descriptors as values: forward maps from tags to names, types and
 * section indexes, the reverse index from section and name to tag, and the parcel
 * form, which leaves the reverse index out.
 */
module VendorTags {
  import opened Common
  import opened SortedStrings

  const VENDOR_TAG_BOUNDARY := 0x8000_0000
  const NUM_TYPES := 6

  type Word = w: int | 0 <= w < TWO_32 witness 0

  /** One thing in a parcel. */
  datatype Item = Int(word: Word) | Text(text: string) | Long(value: nat)

  /**
   * `Aborted` and `OutOfBounds` are not statuses of the original: it ends the process where
   * a check of its own fails, and accesses a list past its end without a check.
   */
  datatype Status = Ok | BadValue | NotEnoughData | Aborted | OutOfBounds

  type ReverseIndex = map<string, map<string, Word>>

  /** `keys` are the tags in increasing order, as the forward maps list them. */
  datatype Desc = Desc(
    keys: seq<Word>,
    names: map<Word, string>,
    sectionOf: map<Word, Word>,
    types: map<Word, int>,
    sections: seq<string>,
    reverse: ReverseIndex,
    count: int)

  const EMPTY := Desc([], map[], map[], map[], [], map[], 0)

  ghost predicate Ascending(keys: seq<Word>)
  {
    forall i, j :: 0 <= i < j < |keys| ==> keys[i] < keys[j]
  }

  /** KeyedVector::add, as it changes the list of keys. */
  function AddKey(keys: seq<Word>, key: Word): seq<Word>
  {
    if keys == [] || key < keys[0] then [key] + keys
    else if key == keys[0] then keys
    else [keys[0]] + AddKey(keys[1..], key)
  }

  lemma {:induction false} AddKeyMembers(keys: seq<Word>, key: Word)
    ensures forall k :: k in AddKey(keys, key) <==> k in keys || k == key
    decreases |keys|
  {
    if keys != [] && key >= keys[0] {
      assert keys == [keys[0]] + keys[1..];
      if key != keys[0] { AddKeyMembers(keys[1..], key); }
    }
  }

  lemma {:induction false} AddKeyAscending(keys: seq<Word>, key: Word)
    requires Ascending(keys)
    ensures Ascending(AddKey(keys, key))
    decreases |keys|
  {
    if keys != [] && key > keys[0] {
      AddKeyAscending(keys[1..], key);
      AddKeyMembers(keys[1..], key);
      var rest := AddKey(keys[1..], key);
      forall i | 0 <= i < |rest|
        ensures keys[0] < rest[i]
      {
        assert rest[i] in keys[1..] || rest[i] == key;
      }
    }
  }

  lemma {:induction false} AddKeyAtEnd(keys: seq<Word>, key: Word)
    requires Ascending(keys + [key])
    ensures AddKey(keys, key) == keys + [key]
    decreases |keys|
  {
    if keys != [] {
      assert (keys + [key])[0] < (keys + [key])[|keys|];
      assert (keys + [key])[1..] == keys[1..] + [key];
      AddKeyAtEnd(keys[1..], key);
      assert keys == [keys[0]] + keys[1..];
    }
  }

  // The reverse index

  function AddReverse(r: ReverseIndex, section: string, name: string, tag: Word): ReverseIndex
  {
    r[section := (if section in r then r[section] else map[])[name := tag]]
  }

  /** lookupTag */
  function LookupTag(r: ReverseIndex, name: string, section: string): Option<Word>
  {
    if section in r && name in r[section] then Some(r[section][name]) else None
  }

  /** The index filled in the order of `tags`. */
  function Indexed(tags: seq<Word>, nameOf: map<Word, string>, sectionOf: map<Word, string>): ReverseIndex
    requires forall i :: 0 <= i < |tags| ==> tags[i] in nameOf && tags[i] in sectionOf
  {
    if tags == [] then map[]
    else
      var n := |tags| - 1;
      AddReverse(Indexed(tags[..n], nameOf, sectionOf), sectionOf[tags[n]], nameOf[tags[n]], tags[n])
  }

  /** The last tag of the list with the given name and section. */
  function LastWith(tags: seq<Word>, nameOf: map<Word, string>, sectionOf: map<Word, string>,
                    name: string, section: string): (r: Option<Word>)
    requires forall i :: 0 <= i < |tags| ==> tags[i] in nameOf && tags[i] in sectionOf
    ensures r.Some? ==> r.value in tags && nameOf[r.value] == name && sectionOf[r.value] == section
    ensures r.None? ==> forall t <- tags :: nameOf[t] != name || sectionOf[t] != section
  {
    if tags == [] then None
    else
      var n := |tags| - 1;
      if nameOf[tags[n]] == name && sectionOf[tags[n]] == section then Some(tags[n])
      else
        assert tags == tags[..n] + [tags[n]];
        LastWith(tags[..n], nameOf, sectionOf, name, section)
  }

  /** A lookup finds the tag indexed last under that name and section, and only that. */
  lemma {:induction false} IndexedFindsLast(
    tags: seq<Word>, nameOf: map<Word, string>, sectionOf: map<Word, string>, name: string, section: string)
    requires forall i :: 0 <= i < |tags| ==> tags[i] in nameOf && tags[i] in sectionOf
    ensures LookupTag(Indexed(tags, nameOf, sectionOf), name, section)
         == LastWith(tags, nameOf, sectionOf, name, section)
    decreases |tags|
  {
    if tags != [] {
      IndexedFindsLast(tags[..|tags| - 1], nameOf, sectionOf, name, section);
    }
  }

  /** No two tags share both name and section. */
  ghost predicate DistinctPairs(tags: seq<Word>, nameOf: map<Word, string>, sectionOf: map<Word, string>)
    requires forall i :: 0 <= i < |tags| ==> tags[i] in nameOf && tags[i] in sectionOf
  {
    forall t, u :: t in tags && u in tags && nameOf[t] == nameOf[u] && sectionOf[t] == sectionOf[u] ==> t == u
  }

  // Consistency

  ghost predicate InRange(d: Desc)
  {
    && (forall t <- d.names :: t in d.sectionOf && t in d.types)
    && (forall t <- d.sectionOf :: t in d.names && d.sectionOf[t] < |d.sections|)
    && (forall t <- d.types :: t in d.names)
  }

  function SectionName(d: Desc, t: Word): Option<string>
  {
    if t in d.sectionOf && d.sectionOf[t] < |d.sections| then Some(d.sections[d.sectionOf[t]]) else None
  }

  ghost function SectionNames(d: Desc): map<Word, string>
    requires InRange(d)
  {
    map t | t in d.sectionOf :: d.sections[d.sectionOf[t]]
  }

  /** Every indexed tag is stored with the name and section it is indexed under. */
  ghost predicate ReverseSound(d: Desc)
  {
    forall s, n :: s in d.reverse && n in d.reverse[s] ==>
      var t := d.reverse[s][n]; t in d.names && d.names[t] == n && SectionName(d, t) == Some(s)
  }

  /** Every stored tag's section and name are indexed. */
  ghost predicate ReverseComplete(d: Desc)
    requires InRange(d)
  {
    forall t <- d.names :: LookupTag(d.reverse, d.names[t], d.sections[d.sectionOf[t]]).Some?
  }

  /** Forward maps agree with each other, and the reverse index inverts them. */
  ghost predicate Consistent(d: Desc)
  {
    && InRange(d) && Ascending(d.keys) && Increasing(d.sections)
    && (forall t :: t in d.keys <==> t in d.names)
    && ReverseSound(d) && ReverseComplete(d)
  }

  /** `order` lists exactly the stored tags. */
  ghost predicate Lists(d: Desc, order: seq<Word>)
    requires InRange(d)
  {
    && (forall i :: 0 <= i < |order| ==> order[i] in d.names && order[i] in SectionNames(d))
    && (forall t :: t in d.names ==> t in order)
  }

  lemma IndexingIsSound(d: Desc, order: seq<Word>)
    requires InRange(d) && Lists(d, order) && d.reverse == Indexed(order, d.names, SectionNames(d))
    ensures ReverseSound(d)
  {
    forall s, n | s in d.reverse && n in d.reverse[s]
      ensures var t := d.reverse[s][n]; t in d.names && d.names[t] == n && SectionName(d, t) == Some(s)
    {
      IndexedFindsLast(order, d.names, SectionNames(d), n, s);
      assert LookupTag(d.reverse, n, s) == Some(d.reverse[s][n]);
    }
  }

  lemma IndexingIsComplete(d: Desc, order: seq<Word>)
    requires InRange(d) && Lists(d, order) && d.reverse == Indexed(order, d.names, SectionNames(d))
    ensures ReverseComplete(d)
  {
    forall t | t in d.names
      ensures LookupTag(d.reverse, d.names[t], d.sections[d.sectionOf[t]]).Some?
    {
      IndexedFindsLast(order, d.names, SectionNames(d), d.names[t], SectionNames(d)[t]);
      assert t in order;
    }
  }

  /** Indexing every tag makes a descriptor consistent, in whatever order. */
  lemma IndexingIsConsistent(d: Desc, order: seq<Word>)
    requires InRange(d) && Ascending(d.keys) && Increasing(d.sections)
    requires forall t :: t in d.keys <==> t in d.names
    requires Lists(d, order) && d.reverse == Indexed(order, d.names, SectionNames(d))
    ensures Consistent(d)
  {
    IndexingIsSound(d, order);
    IndexingIsComplete(d, order);
  }

  /** The tag is stored with that name and section. */
  ghost predicate HasPair(d: Desc, t: Word, name: string, section: string)
  {
    t in d.names && d.names[t] == name && SectionName(d, t) == Some(section)
  }

  lemma LookupInverts(d: Desc, name: string, section: string)
    ensures Consistent(d) ==>
      var tag := LookupTag(d.reverse, name, section);
      if tag.Some? then HasPair(d, tag.value, name, section) else forall t :: !HasPair(d, t, name, section)
  {
  }

  // Parcels

  function WriteTags(d: Desc, keys: seq<Word>): seq<Item>
    requires forall i :: 0 <= i < |keys| ==> WritableTag(d, keys[i])
  {
    if keys == [] then []
    else
      assert WritableTag(d, keys[0]);
      [Int(keys[0]), Int(d.types[keys[0]]), Text(d.names[keys[0]]), Int(d.sectionOf[keys[0]])]
        + WriteTags(d, keys[1..])
  }

  function WriteSections(sections: seq<string>): seq<Item>
  {
    if sections == [] then [] else [Text(sections[0])] + WriteSections(sections[1..])
  }

  predicate WritableTag(d: Desc, t: Word)
  {
    t in d.names && t in d.types && t in d.sectionOf && 0 <= d.types[t] < NUM_TYPES
  }

  ghost predicate Writable(d: Desc)
  {
    && 0 <= d.count < TWO_32 && |d.sections| < TWO_32
    && forall i :: 0 <= i < |d.keys| ==> WritableTag(d, d.keys[i])
  }

  /** writeToParcel; note that it writes the stored count, not the number of keys. */
  function Write(d: Desc): seq<Item>
    requires Writable(d)
  {
    [Int(d.count)] + WriteTags(d, d.keys)
      + (if d.sections == [] then [] else [Int(|d.sections|)] + WriteSections(d.sections))
  }

  function AsSigned(w: Word): int
  {
    if w < 0x8000_0000 then w else w - TWO_32
  }

  datatype ReadState = ReadState(d: Desc, allTags: seq<Word>, maxSection: Word, rest: seq<Item>)
  datatype ReadResult = Fail(status: Status) | Done(state: ReadState)

  function AddTag(s: ReadState, tag: Word, kind: int, name: string, section: Word, rest: seq<Item>): ReadState
  {
    var d := s.d;
    ReadState(
      d.(keys := AddKey(d.keys, tag), names := d.names[tag := name],
         sectionOf := d.sectionOf[tag := section], types := d.types[tag := kind]),
      s.allTags + [tag], if s.maxSection >= section then s.maxSection else section, rest)
  }

  function ReadTag(s: ReadState): ReadResult
  {
    var items := s.rest;
    if |items| == 0 || !items[0].Int? then Fail(NotEnoughData)
    else if items[0].word < VENDOR_TAG_BOUNDARY then Fail(BadValue)
    else if |items| == 1 || !items[1].Int? then Fail(NotEnoughData)
    else if AsSigned(items[1].word) < 0 || AsSigned(items[1].word) >= NUM_TYPES then Fail(BadValue)
    else if |items| == 2 || !items[2].Text? || items[2].text == "" then Fail(NotEnoughData)
    else if |items| == 3 || !items[3].Int? then Fail(NotEnoughData)
    else Done(AddTag(s, items[0].word, AsSigned(items[1].word), items[2].text, items[3].word, items[4..]))
  }

  function ReadTags(n: nat, s: ReadState): ReadResult
  {
    if n == 0 then Done(s)
    else
      match ReadTag(s)
      case Fail(status) => Fail(status)
      case Done(t) => ReadTags(n - 1, t)
  }

  function ReadSections(n: nat, s: ReadState): ReadResult
  {
    if n == 0 then Done(s)
    else if s.rest == [] || !s.rest[0].Text? || s.rest[0].text == "" then Fail(NotEnoughData)
    else
      ReadSections(n - 1, s.(d := s.d.(sections := Add(s.d.sections, s.rest[0].text)), rest := s.rest[1..]))
  }

  /** The section list, which is there only if there are tags, must cover every index read, and needs capacity. */
  function ReadSectionList(s: ReadState): ReadResult
  {
    if s.rest == [] || !s.rest[0].Int? then Fail(NotEnoughData)
    else if s.rest[0].word < (s.maxSection + 1) % TWO_32 then Fail(BadValue)
    else if s.rest[0].word == 0 && s.d.sections == [] then Fail(Aborted)
    else ReadSections(s.rest[0].word, s.(rest := s.rest[1..]))
  }

  /**
   * Rebuilds the reverse index from the tags read, in the order read.  No result stands for
   * an access past the end of the section list, which the original does not check for.
   */
  function Reindex(d: Desc, tags: seq<Word>): Option<Desc>
    decreases |tags|
  {
    if tags == [] then Some(d)
    else if tags[0] !in d.names || SectionName(d, tags[0]).None? then None
    else
      Reindex(d.(reverse := AddReverse(d.reverse, SectionName(d, tags[0]).value, d.names[tags[0]], tags[0])),
              tags[1..])
  }

  /** The part of readFromParcel that reads: count, tags and sections. */
  function ReadForward(d: Desc, items: seq<Item>): ReadResult
  {
    if items == [] || !items[0].Int? then Fail(NotEnoughData)
    else
      var count := AsSigned(items[0].word);
      if count < 0 then Fail(BadValue)
      else
        match ReadTags(count, ReadState(d.(count := count), [], 0, items[1..]))
        case Fail(status) => Fail(status)
        case Done(s) => if count > 0 then ReadSectionList(s) else Done(s)
  }

  /** readFromParcel into an object holding `d`. */
  function Read(d: Desc, items: seq<Item>): ReadResult
  {
    match ReadForward(d, items)
    case Fail(status) => Fail(status)
    case Done(s) =>
      match Reindex(s.d, s.allTags)
      case None => Fail(OutOfBounds)
      case Some(e) => Done(s.(d := e))
  }
}
