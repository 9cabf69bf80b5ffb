/** The CameraMetadata object: its buffer and lock flag, and the operations that change them. */
module CameraMetadata {
  import opened Common
  import opened KeyLists
  import M = Metadata

  type Tag = M.Tag

  function Words(data: seq<int>): (w: seq<int>)
    ensures |w| == |data| && AreWords(w)
  {
    seq(|data|, i requires 0 <= i < |data| => ToUnsigned(data[i]))
  }

  function Signed(words: seq<int>): (data: seq<int>)
    ensures AreWords(words) ==> Words(data) == words
  {
    var data := seq(|words|, i requires 0 <= i < |words| => ToSigned(words[i]));
    assert AreWords(words) ==> Words(data) == words;
    data
  }

  class CameraMetadata {
    /** Types of the known tags, and the tag listing the available characteristics keys. */
    const types: M.TagTypes
    const keysTag: Tag

    var mBuffer: Option<M.Packet>
    var mLocked: bool

    ghost predicate Valid()
      reads this
    {
      M.WellFormed(mBuffer, types) && keysTag in types && types[keysTag] == M.Int32Type
    }

    /** The value stored under a tag. */
    function Get(tag: Tag): Option<seq<int>>
      reads this
    {
      M.Lookup(mBuffer, tag)
    }

    constructor (types: M.TagTypes, keysTag: Tag)
      requires keysTag in types && types[keysTag] == M.Int32Type
      ensures Valid() && mBuffer == None && !mLocked
      ensures this.types == types && this.keysTag == keysTag
    {
      this.types, this.keysTag := types, keysTag;
      mBuffer, mLocked := None, false;
    }

    /** Reallocates when the buffer lacks room; nothing else changes. */
    method ResizeIfNeeded(extraEntries: nat, extraData: nat)
      requires Valid()
      modifies this`mBuffer
      ensures Valid()
      ensures mBuffer == Some(M.ResizeIfNeeded(old(mBuffer), extraEntries, extraData))
      ensures forall t: Tag :: Get(t) == old(Get(t))
    {
      M.ResizeLeavesRoom(mBuffer, extraEntries, extraData, types);
      M.ResizedLookups(mBuffer, extraEntries, extraData, types);
      GrowBuffer(extraEntries, extraData);
    }

    /** Allocates the first buffer, or one of twice the wanted size with the old entries appended. */
    method GrowBuffer(extraEntries: nat, extraData: nat)
      modifies this`mBuffer
      ensures mBuffer == Some(M.ResizeIfNeeded(old(mBuffer), extraEntries, extraData))
    {
      if mBuffer == None {
        mBuffer := Some(M.Packet([], extraEntries * 2, extraData * 2));
      } else {
        var p := mBuffer.value;
        var newEntryCount := |p.entries| + extraEntries;
        newEntryCount := if newEntryCount > p.entryCapacity then newEntryCount * 2 else p.entryCapacity;
        var newDataCount := M.DataCount(p.entries) + extraData;
        newDataCount := if newDataCount > p.dataCapacity then newDataCount * 2 else p.dataCapacity;
        if newEntryCount > p.entryCapacity || newDataCount > p.dataCapacity {
          var (_, grown) := M.AppendPacket(M.Packet([], newEntryCount, newDataCount), p);
          mBuffer := Some(grown);
        }
      }
    }

    /** `inBuffer` tells whether the data points inside this object's own buffer. */
    method UpdateImpl(tag: Tag, data: seq<int>, inBuffer: bool) returns (status: M.Status)
      requires Valid()
      modifies this`mBuffer
      ensures Valid()
      ensures status == if mLocked then M.InvalidOperation else if tag !in types then M.BadValue
                        else if inBuffer then M.InvalidOperation else M.Ok
      ensures status != M.Ok ==> mBuffer == old(mBuffer)
      ensures status == M.Ok ==>
        forall t: Tag :: Get(t) == if t == tag then Some(data) else old(Get(t))
    {
      if mLocked {
        return M.InvalidOperation;
      }
      if tag !in types {
        return M.BadValue;
      }
      if inBuffer {
        return M.InvalidOperation;
      }
      var dataSize := M.EntryDataSize(types[tag], |data|);
      M.ResizeLeavesRoom(mBuffer, 1, dataSize, types);
      ResizeIfNeeded(1, dataSize);
      M.PutInRoom(mBuffer.value, tag, data, types);
      var p;
      match M.FindIndex(mBuffer.value.entries, tag) {
        case None =>
          var r := M.AddEntry(mBuffer.value, M.Entry(tag, types[tag], data));
          status, p := r.0, r.1;
        case Some(index) =>
          var r := M.UpdateEntry(mBuffer.value, index, data);
          status, p := r.0, r.1;
      }
      mBuffer := Some(p);
    }

    /** Update with data of a stated type, which must be the tag's. */
    method Update(tag: Tag, kind: M.ElementType, data: seq<int>) returns (status: M.Status)
      requires Valid()
      modifies this`mBuffer
      ensures Valid()
      ensures status == if mLocked || tag !in types || types[tag] != kind then M.InvalidOperation else M.Ok
      ensures status != M.Ok ==> mBuffer == old(mBuffer)
      ensures status == M.Ok ==>
        forall t: Tag :: Get(t) == if t == tag then Some(data) else old(Get(t))
    {
      if mLocked || tag !in types || types[tag] != kind {
        return M.InvalidOperation;
      }
      status := UpdateImpl(tag, data, false);
    }

    method Erase(tag: Tag) returns (status: M.Status)
      requires Valid()
      modifies this`mBuffer
      ensures Valid()
      ensures status == if mLocked then M.InvalidOperation else if old(mBuffer).None? then M.LibraryError else M.Ok
      ensures status != M.Ok ==> mBuffer == old(mBuffer)
      ensures status == M.Ok ==> forall t: Tag :: Get(t) == if t == tag then None else old(Get(t))
    {
      if mLocked {
        return M.InvalidOperation;
      }
      if mBuffer.None? {
        return M.LibraryError;
      }
      match M.FindIndex(mBuffer.value.entries, tag) {
        case None => status := M.Ok;
        case Some(index) =>
          M.DataCountAt(mBuffer.value.entries, index, mBuffer.value.entries[index]);
          M.DeletedLookups(mBuffer.value, index);
          var r := M.DeleteEntry(mBuffer.value, index);
          status, mBuffer := r.0, Some(r.1);
      }
    }

    predicate Exists(tag: Tag)
      reads this
    {
      Get(tag).Some?
    }

    /** Erases those of the listed tags that exist, and lists each of them once. */
    method EraseListed(tags: seq<Tag>) returns (status: M.Status, tagsRemoved: seq<int>)
      requires Valid()
      modifies this`mBuffer
      ensures Valid() && AreWords(tagsRemoved)
      ensures mLocked ==> mBuffer == old(mBuffer) && tagsRemoved == []
      ensures !mLocked ==> status == M.Ok
      ensures status == M.Ok ==>
        && (forall t: Tag :: Get(t) == if t in tags then None else old(Get(t)))
        && (forall t: Tag :: multiset(tagsRemoved)[t] == if t in tags && old(Get(t)).Some? then 1 else 0)
    {
      status, tagsRemoved := M.Ok, [];
      for i := 0 to |tags|
        invariant Valid() && AreWords(tagsRemoved) && status == M.Ok
        invariant mLocked ==> mBuffer == old(mBuffer) && tagsRemoved == []
        invariant forall t: Tag :: Get(t) == if t in tags[..i] then None else old(Get(t))
        invariant forall t: Tag ::
          multiset(tagsRemoved)[t] == if t in tags[..i] && old(Get(t)).Some? then 1 else 0
      {
        var tag := tags[i];
        assert forall t: Tag :: t in tags[..i + 1] <==> t in tags[..i] || t == tag;
        if Exists(tag) {
          status := Erase(tag);
          if status != M.Ok {
            return;
          }
          tagsRemoved := tagsRemoved + [tag];
        }
      }
      assert tags[..|tags|] == tags;
    }

    /** Rewrites the list of available keys, given the removed tags in signed order. */
    method RewriteKeys(sortedTags: seq<int>, ghost tagsRemoved: seq<int>)
      requires Valid() && !mLocked && Exists(keysTag)
      requires sortedTags == Sort(tagsRemoved, true)
      modifies this`mBuffer
      ensures Valid()
      ensures forall t: Tag | t != keysTag :: Get(t) == old(Get(t))
      ensures Exists(keysTag)
      ensures Words(Get(keysTag).value) == RemainingKeys(Words(old(Get(keysTag)).value), tagsRemoved)
    {
      var keys := Get(keysTag).value;
      var currentKeys := Sort(Words(keys), false);
      var newKeys := SetDifference(currentKeys, sortedTags);
      RemainingAreWords(Words(keys), tagsRemoved);
      var _ := Update(keysTag, M.Int32Type, Signed(newKeys));
    }

    /**
     * Removes the entries that need a permission: `tags` are the vendor tags followed by
     * the built-in tags needing one.  The list of available keys loses exactly the removed
     * tags unless these straddle 2^31.
     */
    method RemovePermissionEntries(tags: seq<Tag>) returns (status: M.Status, tagsRemoved: seq<int>)
      requires Valid()
      modifies this`mBuffer
      ensures Valid()
      ensures mLocked ==> mBuffer == old(mBuffer)
      ensures !mLocked ==> status == M.Ok
      ensures status == M.Ok ==> forall t: Tag ::
        multiset(tagsRemoved)[t] == if t in tags && old(Get(t)).Some? then 1 else 0
      ensures !mLocked ==> forall t: Tag :: t in tags ==> Get(t) == None
      ensures !mLocked ==> forall t: Tag :: t !in tags && t != keysTag ==> Get(t) == old(Get(t))
      ensures !mLocked && keysTag !in tags ==> Get(keysTag).Some? == old(Get(keysTag)).Some?
      ensures !mLocked && keysTag !in tags && old(Get(keysTag)).Some? ==>
        KeysRewritten(Words(old(Get(keysTag)).value), Words(Get(keysTag).value), tagsRemoved)
    {
      status, tagsRemoved := EraseListed(tags);
      if status != M.Ok {
        return;
      }
      if Exists(keysTag) {
        ghost var before := Words(Get(keysTag).value);
        KeysAreRewritten(before, tagsRemoved);
        ghost var removed := tagsRemoved;
        tagsRemoved := Sort(tagsRemoved, true);
        if !mLocked {
          RewriteKeys(tagsRemoved, removed);
        }
      }
    }
  }

  /** The new list of keys is sorted, and lacks exactly the removed tags unless they straddle 2^31. */
  ghost predicate KeysRewritten(before: seq<int>, after: seq<int>, removed: seq<int>)
  {
    && Sorted(after)
    && (multiset(after) == multiset(before) - multiset(removed) <==> !Straddles(before, removed))
  }

  lemma KeysAreRewritten(before: seq<int>, removed: seq<int>)
    requires AreWords(removed)
    ensures KeysRewritten(before, RemainingKeys(before, removed), Sort(removed, true))
  {
    RemainingKeysSorted(before, removed);
    RemainingKeysExact(before, removed);
    MultisetMembers(removed, Sort(removed, true));
  }

  lemma RemainingAreWords(keys: seq<int>, removed: seq<int>)
    requires AreWords(keys)
    ensures AreWords(RemainingKeys(keys, removed))
  {
    var c := Sort(keys, false);
    MultisetMembers(keys, c);
    WordsOf(keys, c);
    SetDiffWords(c, Sort(removed, true));
  }

  lemma {:induction false} SetDiffWords(a: seq<int>, b: seq<int>)
    requires AreWords(a)
    ensures AreWords(SetDiff(a, b))
    decreases |a| + |b|
  {
    if a != [] && b != [] {
      if a[0] < b[0] { SetDiffWords(a[1..], b); }
      else if b[0] < a[0] { SetDiffWords(a, b[1..]); }
      else { SetDiffWords(a[1..], b[1..]); }
    }
  }
}
