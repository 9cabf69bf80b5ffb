/** Small value types and sequence facts shared by the component models. */
module Common {

  const TWO_32 := 0x1_0000_0000

  datatype Option<+T> = None | Some(value: T)

  /** An unsigned 8-bit quantity. */
  type byte = x: int | 0 <= x < 256

  /** Joins the parts of a sequence of sequences in order. */
  function Concat<T>(parts: seq<seq<T>>): (whole: seq<T>)
  {
    if parts == [] then [] else Concat(parts[..|parts| - 1]) + parts[|parts| - 1]
  }

  lemma ConcatOne<T>(parts: seq<seq<T>>, part: seq<T>)
    ensures Concat(parts + [part]) == Concat(parts) + part
  {
    assert (parts + [part])[..|parts|] == parts;
  }

  /** No element occurs twice. */
  ghost predicate NoDuplicates<T>(s: seq<T>)
  {
    forall i, j :: 0 <= i < j < |s| ==> s[i] != s[j]
  }
}
