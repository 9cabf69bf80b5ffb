/** Resolving a full tag name such as "com.vendor.section.tag": CameraMetadata::getTagFromName. */
module TagNames {
  import opened Common
  import opened SortedStrings
  import opened VendorTags

  /** The built-in sections, the range of tags of each, and the built-in tag names. */
  datatype BuiltIn = BuiltIn(sections: seq<string>, bounds: seq<(Word, Word)>, tagName: map<Word, string>)

  datatype Resolution = Found(tag: Word) | NameNotFound | BadName

  ghost predicate ValidBuiltIn(b: BuiltIn)
  {
    && |b.bounds| == |b.sections|
    && forall i :: 0 <= i < |b.bounds| ==> b.bounds[i].0 <= b.bounds[i].1
  }

  function AllSections(b: BuiltIn, vendor: Option<Desc>): seq<string>
  {
    b.sections + (if vendor.Some? then vendor.value.sections else [])
  }

  /** The section found by keeping the longest prefix seen so far. */
  function BestPrefix(sections: seq<string>, name: string): (r: Option<nat>)
    ensures r.Some? ==> r.value < |sections| && sections[r.value] <= name
  {
    if sections == [] then None
    else
      var n := |sections| - 1;
      var best := BestPrefix(sections[..n], name);
      if sections[n] <= name && (best.None? || |sections[best.value]| < |sections[n]|) then Some(n) else best
  }

  /** No listed section that the name begins with is longer than the given length. */
  ghost predicate NoneLonger(sections: seq<string>, name: string, length: nat)
  {
    forall i :: 0 <= i < |sections| ==> sections[i] <= name ==> |sections[i]| <= length
  }

  /** It is the longest of the sections that the name begins with, the first of these if several. */
  lemma {:induction false} BestPrefixIsLongest(sections: seq<string>, name: string)
    ensures BestPrefix(sections, name).None? <==> forall i :: 0 <= i < |sections| ==> !(sections[i] <= name)
    ensures BestPrefix(sections, name).Some? ==>
      var best := BestPrefix(sections, name).value;
      forall i :: 0 <= i < |sections| && sections[i] <= name ==>
        |sections[i]| <= |sections[best]| && (|sections[i]| == |sections[best]| ==> best <= i)
    decreases |sections|
  {
    if sections != [] {
      var n := |sections| - 1;
      var front := sections[..n];
      BestPrefixIsLongest(front, name);
      assert forall i :: 0 <= i < n ==> sections[i] == front[i];
    }
  }

  /** A prefix of that kind is the one found. */
  lemma LongestIsBestPrefix(sections: seq<string>, name: string, k: nat)
    requires k < |sections| && sections[k] <= name
    requires forall i :: 0 <= i < |sections| && sections[i] <= name ==>
      |sections[i]| <= |sections[k]| && (|sections[i]| == |sections[k]| ==> k <= i)
    ensures BestPrefix(sections, name) == Some(k)
  {
    BestPrefixIsLongest(sections, name);
  }

  /** The first tag of a built-in section with the given name. */
  function FirstNamed(b: BuiltIn, from: nat, end: Word, name: string): (r: Resolution)
    requires from <= end
    decreases end - from
    ensures r.Found? ==> from <= r.tag < end && r.tag in b.tagName && b.tagName[r.tag] == name
    ensures !r.Found? ==>
      r == NameNotFound && forall t: Word :: from <= t < end ==> !(t in b.tagName && b.tagName[t] == name)
  {
    if from == end then NameNotFound
    else if from in b.tagName && b.tagName[from] == name then Found(from)
    else FirstNamed(b, from + 1, end, name)
  }

  function TagFromName(b: BuiltIn, vendor: Option<Desc>, name: string): Resolution
    requires ValidBuiltIn(b)
  {
    var sections := AllSections(b, vendor);
    match BestPrefix(sections, name)
    case None => NameNotFound
    case Some(k) =>
      var section := sections[k];
      if |section| + 1 >= |name| then BadName
      else if k < |b.sections| then
        FirstNamed(b, b.bounds[k].0, b.bounds[k].1, name[|section| + 1..])
      else
        match LookupTag(vendor.value.reverse, name[|section| + 1..], section)
        case None => NameNotFound
        case Some(tag) => Found(tag)
  }

  /** The section loop: built-in sections first, then the vendor's. */
  method FindSection(builtIn: seq<string>, vendorSections: seq<string>, name: string) returns (best: Option<nat>)
    ensures best == BestPrefix(builtIn + vendorSections, name)
  {
    ghost var all := builtIn + vendorSections;
    var totalSectionCount := |builtIn| + |vendorSections|;
    var sectionLength := 0;
    best := None;
    for i := 0 to totalSectionCount
      invariant best == BestPrefix(all[..i], name)
      invariant best.Some? ==> sectionLength == |all[best.value]|
    {
      var str := if i < |builtIn| then builtIn[i] else vendorSections[i - |builtIn|];
      assert all[..i + 1][..i] == all[..i] && str == all[i];
      if str <= name {
        if best.None? || sectionLength < |str| {
          best, sectionLength := Some(i), |str|;
        }
      }
    }
    assert all[..|all|] == all;
  }

  /** The loop over a built-in section's tags. */
  method FindBuiltInTag(b: BuiltIn, tagBegin: Word, tagEnd: Word, name: string) returns (r: Resolution)
    requires tagBegin <= tagEnd
    ensures r == FirstNamed(b, tagBegin, tagEnd, name)
  {
    var candidateTag: nat := tagBegin;
    while candidateTag < tagEnd
      invariant candidateTag <= tagEnd
      invariant FirstNamed(b, candidateTag, tagEnd, name) == FirstNamed(b, tagBegin, tagEnd, name)
    {
      if candidateTag in b.tagName && b.tagName[candidateTag] == name {
        return Found(candidateTag);
      }
      candidateTag := candidateTag + 1;
    }
    return NameNotFound;
  }

  /** getTagFromName */
  method GetTagFromName(b: BuiltIn, vendor: Option<Desc>, name: string) returns (r: Resolution)
    requires ValidBuiltIn(b)
    ensures r == TagFromName(b, vendor, name)
  {
    var vendorSections := if vendor.Some? then vendor.value.sections else [];
    var best := FindSection(b.sections, vendorSections, name);
    if best.None? {
      return NameNotFound;
    }
    var section := (b.sections + vendorSections)[best.value];
    if |section| + 1 >= |name| {
      return BadName;
    }
    var nameTagName := name[|section| + 1..];
    if best.value < |b.sections| {
      r := FindBuiltInTag(b, b.bounds[best.value].0, b.bounds[best.value].1, nameTagName);
    } else {
      match LookupTag(vendor.value.reverse, nameTagName, section)
      case None => r := NameNotFound;
      case Some(tag) => r := Found(tag);
    }
  }

  /** No other tag has this tag's name and section. */
  ghost predicate UniquePair(d: Desc, t: Word)
    requires t in d.names
  {
    forall u <- d.names :: d.names[u] == d.names[t] && SectionName(d, u) == SectionName(d, t) ==> u == t
  }

  lemma LookupUniquePair(d: Desc, t: Word)
    requires Consistent(d) && t in d.names && UniquePair(d, t)
    ensures LookupTag(d.reverse, d.names[t], d.sections[d.sectionOf[t]]) == Some(t)
  {
    assert LookupTag(d.reverse, d.names[t], d.sections[d.sectionOf[t]]).Some?;
  }

  /** A vendor section that is the longest known prefix and not built in is the one chosen. */
  lemma VendorSectionChosen(builtIn: seq<string>, vendorSections: seq<string>, name: string, k: nat)
    requires Increasing(vendorSections) && k < |vendorSections|
    requires vendorSections[k] <= name && vendorSections[k] !in builtIn
    requires NoneLonger(builtIn + vendorSections, name, |vendorSections[k]|)
    ensures BestPrefix(builtIn + vendorSections, name) == Some(|builtIn| + k)
  {
    var all, section := builtIn + vendorSections, vendorSections[k];
    forall i | 0 <= i < |all| && all[i] <= name
      ensures |all[i]| <= |section| && (|all[i]| == |section| ==> |builtIn| + k <= i)
    {
      if |all[i]| == |section| {
        SamePrefix(all[i], section, name);
        if i >= |builtIn| {
          IncreasingIsDistinct(vendorSections, i - |builtIn|, k);
        }
      }
    }
    LongestIsBestPrefix(all, name, |builtIn| + k);
  }

  /**
   * A vendor tag's full name resolves to the tag when its section is the longest known
   * section the name begins with, is not built in, and the tag does not share its name.
   */
  lemma VendorNameResolves(b: BuiltIn, d: Desc, t: Word, section: string, name: string)
    requires ValidBuiltIn(b) && Consistent(d) && t in d.names && d.names[t] != "" && UniquePair(d, t)
    requires section == d.sections[d.sectionOf[t]] && name == section + "." + d.names[t]
    requires section !in b.sections && NoneLonger(b.sections + d.sections, name, |section|)
    ensures TagFromName(b, Some(d), name) == Found(t)
  {
    LookupUniquePair(d, t);
    NameResolves(b, d, d.sectionOf[t], d.names[t], t, name);
  }

  lemma NameResolves(b: BuiltIn, d: Desc, k: nat, tagName: string, t: Word, name: string)
    requires ValidBuiltIn(b) && Increasing(d.sections) && k < |d.sections| && tagName != ""
    requires name == d.sections[k] + "." + tagName
    requires LookupTag(d.reverse, tagName, d.sections[k]) == Some(t)
    requires d.sections[k] !in b.sections && NoneLonger(b.sections + d.sections, name, |d.sections[k]|)
    ensures TagFromName(b, Some(d), name) == Found(t)
  {
    assert d.sections[k] <= name;
    VendorSectionChosen(b.sections, d.sections, name, k);
    ResolvesInSection(b, d, k, tagName, t, name);
  }

  lemma ResolvesInSection(b: BuiltIn, d: Desc, k: nat, tagName: string, t: Word, name: string)
    requires ValidBuiltIn(b) && k < |d.sections| && tagName != "" && name == d.sections[k] + "." + tagName
    requires BestPrefix(b.sections + d.sections, name) == Some(|b.sections| + k)
    requires LookupTag(d.reverse, tagName, d.sections[k]) == Some(t)
    ensures TagFromName(b, Some(d), name) == Found(t)
  {
    assert AllSections(b, Some(d))[|b.sections| + k] == d.sections[k];
    assert name[|d.sections[k]| + 1..] == tagName;
  }

  lemma SamePrefix(a: string, b: string, name: string)
    requires a <= name && b <= name && |a| == |b|
    ensures a == b
  {
    assert a == name[..|a|] && b == name[..|b|];
  }

  // What a name resolves to, in terms of the known sections and tags

  /** The earliest of the longest known sections that the name begins with. */
  ghost predicate Chosen(sections: seq<string>, name: string, k: nat)
  {
    && k < |sections| && sections[k] <= name
    && forall i :: 0 <= i < |sections| && sections[i] <= name ==>
         |sections[i]| <= |sections[k]| && (|sections[i]| == |sections[k]| ==> k <= i)
  }

  ghost predicate Named(b: BuiltIn, t: Word, name: string)
  {
    t in b.tagName && b.tagName[t] == name
  }

  /** The first tag with that name among those from `from` up to `end`. */
  ghost predicate IsFirstNamed(b: BuiltIn, from: Word, end: Word, name: string, t: Word)
  {
    from <= t < end && Named(b, t, name) && forall u: Word :: from <= u < t ==> !Named(b, u, name)
  }

  lemma {:induction false} FirstNamedIsFirst(b: BuiltIn, from: Word, end: Word, name: string)
    requires from <= end
    ensures match FirstNamed(b, from, end, name)
      case Found(t) => IsFirstNamed(b, from, end, name, t)
      case NameNotFound => forall t: Word :: from <= t < end ==> !Named(b, t, name)
      case BadName => false
    decreases end - from
  {
    if from < end && !Named(b, from, name) {
      FirstNamedIsFirst(b, from + 1, end, name);
    }
  }

  /** The part of a name after a section and one more character. */
  lemma AfterSection(section: string, separator: char, tagName: string)
    ensures
      var name := section + [separator] + tagName;
      section <= name && |name| == |section| + 1 + |tagName| && name[|section| + 1..] == tagName
  {
  }

  /**
   * A name that is a built-in section, one character, and a tag name resolves within that
   * section, if it is the one chosen: to the first of the section's tags with that name, and
   * to nothing if there is none.
   */
  lemma BuiltInNameResolves(b: BuiltIn, vendor: Option<Desc>, k: nat, separator: char, tagName: string)
    requires ValidBuiltIn(b) && k < |b.sections| && tagName != ""
    requires Chosen(AllSections(b, vendor), b.sections[k] + [separator] + tagName, k)
    ensures
      var (from, end) := b.bounds[k];
      match TagFromName(b, vendor, b.sections[k] + [separator] + tagName)
      case Found(t) => IsFirstNamed(b, from, end, tagName, t)
      case NameNotFound => forall t: Word :: from <= t < end ==> !Named(b, t, tagName)
      case BadName => false
  {
    var name := b.sections[k] + [separator] + tagName;
    LongestIsBestPrefix(AllSections(b, vendor), name, k);
    AfterSection(b.sections[k], separator, tagName);
    FirstNamedIsFirst(b, b.bounds[k].0, b.bounds[k].1, tagName);
  }

  /** The same for a vendor section: a tag with that name and section is found if there is any. */
  lemma VendorNameResolution(b: BuiltIn, d: Desc, k: nat, separator: char, tagName: string)
    requires ValidBuiltIn(b) && Consistent(d) && k < |d.sections| && tagName != ""
    requires Chosen(b.sections + d.sections, d.sections[k] + [separator] + tagName, |b.sections| + k)
    ensures match TagFromName(b, Some(d), d.sections[k] + [separator] + tagName)
      case Found(t) => HasPair(d, t, tagName, d.sections[k])
      case NameNotFound => forall t :: !HasPair(d, t, tagName, d.sections[k])
      case BadName => false
  {
    var name := d.sections[k] + [separator] + tagName;
    LongestIsBestPrefix(AllSections(b, Some(d)), name, |b.sections| + k);
    AfterSection(d.sections[k], separator, tagName);
    assert AllSections(b, Some(d))[|b.sections| + k] == d.sections[k];
    LookupInverts(d, tagName, d.sections[k]);
  }

  /** Only a name that begins with no known section is not found for want of one. */
  lemma UnknownSectionExactly(b: BuiltIn, vendor: Option<Desc>, name: string)
    requires ValidBuiltIn(b)
    ensures
      var sections := AllSections(b, vendor);
      (forall i :: 0 <= i < |sections| ==> !(sections[i] <= name)) <==> !exists k: nat :: Chosen(sections, name, k)
    ensures
      var sections := AllSections(b, vendor);
      (forall i :: 0 <= i < |sections| ==> !(sections[i] <= name)) ==> TagFromName(b, vendor, name) == NameNotFound
  {
    var sections := AllSections(b, vendor);
    BestPrefixIsLongest(sections, name);
    if BestPrefix(sections, name).Some? {
      assert Chosen(sections, name, BestPrefix(sections, name).value);
    }
  }

  /** A name is refused exactly when it ends with the section chosen, or one character after it. */
  lemma BadNameExactly(b: BuiltIn, vendor: Option<Desc>, name: string)
    requires ValidBuiltIn(b)
    ensures
      var sections := AllSections(b, vendor);
      TagFromName(b, vendor, name) == BadName
      <==> exists k: nat :: Chosen(sections, name, k) && |name| <= |sections[k]| + 1
  {
    var sections := AllSections(b, vendor);
    BestPrefixIsLongest(sections, name);
    if BestPrefix(sections, name).Some? {
      var best := BestPrefix(sections, name).value;
      assert Chosen(sections, name, best);
      forall k: nat | Chosen(sections, name, k) ensures k == best {
        LongestIsBestPrefix(sections, name, k);
      }
      if best < |b.sections| && |sections[best]| + 1 < |name| {
        FirstNamedIsFirst(b, b.bounds[best].0, b.bounds[best].1, name[|sections[best]| + 1..]);
      }
    }
  }
}
