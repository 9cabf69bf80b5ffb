/**
 * CameraParameters and CameraParameters2: key/value maps with a textual form
 * "k1=v1;k2=v2".  The first keeps its keys sorted, the second in the order set, and
 * there unflatten can leave a key in the list twice.
 */
module Parameters {
  import opened Common
  import opened SortedStrings
  import opened Decimal

  datatype Pair = Pair(key: string, value: string)

  type Pairs = seq<Pair>

  /** strchr from position i on. */
  function FindFrom(s: string, c: char, i: nat): (r: Option<nat>)
    requires i <= |s|
    ensures r.Some? ==> i <= r.value < |s|
    decreases |s| - i
  {
    if i == |s| then None else if s[i] == c then Some(i) else FindFrom(s, c, i + 1)
  }

  function Find(s: string, c: char): (r: Option<nat>)
    ensures r.Some? ==> r.value < |s|
  {
    FindFrom(s, c, 0)
  }

  lemma {:induction false} FindFromIsFirst(s: string, c: char, i: nat)
    requires i <= |s|
    ensures
      match FindFrom(s, c, i)
      case None => forall j :: i <= j < |s| ==> s[j] != c
      case Some(k) => s[k] == c && forall j :: i <= j < k ==> s[j] != c
    decreases |s| - i
  {
    if i < |s| && s[i] != c { FindFromIsFirst(s, c, i + 1); }
  }

  /** It finds the first occurrence, if there is one. */
  lemma FindIsFirst(s: string, c: char)
    ensures Find(s, c).None? <==> c !in s
    ensures Find(s, c).Some? ==> s[Find(s, c).value] == c && c !in s[..Find(s, c).value]
  {
    FindFromIsFirst(s, c, 0);
  }

  /** The textual form. */
  function Flatten(m: Pairs): string
  {
    if m == [] then ""
    else if |m| == 1 then m[0].key + ("=" + m[0].value)
    else m[0].key + ("=" + (m[0].value + (";" + Flatten(m[1..]))))
  }

  /** One turn of unflatten(): a key up to the next '=', a value up to the next ';', and what follows. */
  function SplitPair(s: string): (r: Option<(Pair, string)>)
    ensures r.Some? ==> |r.value.1| < |s|
  {
    match Find(s, '=')
    case None => None
    case Some(i) =>
      var rest := s[i + 1..];
      match Find(rest, ';')
      case None => Some((Pair(s[..i], rest), ""))
      case Some(j) => Some((Pair(s[..i], rest[..j]), rest[j + 1..]))
  }

  /** The pairs a text stands for. */
  function ParsePairs(s: string): Pairs
    decreases |s|
  {
    match SplitPair(s)
    case None => []
    case Some((p, rest)) => [p] + ParsePairs(rest)
  }

  /** All that the round trip needs; weaker than what set() checks. */
  predicate CleanPair(p: Pair)
  {
    '=' !in p.key && ';' !in p.value
  }

  ghost predicate Clean(m: Pairs)
  {
    forall i :: 0 <= i < |m| ==> CleanPair(m[i])
  }

  /** Text up to a character it does not contain, the character, and the rest, taken apart. */
  lemma FindSplits(front: string, c: char, rest: string)
    requires c !in front
    ensures
      var s := front + ([c] + rest);
      Find(s, c) == Some(|front|) && s[..|front|] == front && s[|front| + 1..] == rest
  {
    var s := front + ([c] + rest);
    FindFromSplits(front, c, s, 0);
  }

  lemma {:induction false} FindFromSplits(front: string, c: char, s: string, i: nat)
    requires c !in front && i <= |front| < |s| && s[..|front|] == front && s[|front|] == c
    ensures FindFrom(s, c, i) == Some(|front|)
    decreases |front| - i
  {
    if i < |front| {
      assert s[i] == s[..|front|][i];
      FindFromSplits(front, c, s, i + 1);
    }
  }

  lemma SplitLast(p: Pair)
    requires CleanPair(p)
    ensures SplitPair(p.key + ("=" + p.value)) == Some((p, ""))
  {
    FindSplits(p.key, '=', p.value);
    FindIsFirst(p.value, ';');
  }

  lemma SplitFirst(p: Pair, rest: string)
    requires CleanPair(p)
    ensures SplitPair(p.key + ("=" + (p.value + (";" + rest)))) == Some((p, rest))
  {
    FindSplits(p.key, '=', p.value + (";" + rest));
    FindSplits(p.value, ';', rest);
  }

  lemma ParseAppends(m: Pairs, s: string, p: Pair, rest: string)
    requires SplitPair(s) == Some((p, rest))
    ensures m + ParsePairs(s) == (m + [p]) + ParsePairs(rest)
  {
    assert m + ([p] + ParsePairs(rest)) == (m + [p]) + ParsePairs(rest);
  }

  lemma NoMorePairs(m: Pairs, s: string)
    requires SplitPair(s).None?
    ensures m + ParsePairs(s) == m
  {
  }

  /** Parsing a flattened list gives the list, repeated keys and all. */
  lemma {:induction false} ParseOfFlatten(m: Pairs)
    requires Clean(m)
    ensures ParsePairs(Flatten(m)) == m
    decreases |m|
  {
    if |m| == 1 {
      SplitLast(m[0]);
      ParseAppends([], Flatten(m), m[0], "");
      NoMorePairs([m[0]], "");
    } else if |m| > 1 {
      SplitFirst(m[0], Flatten(m[1..]));
      ParseAppends([], Flatten(m), m[0], Flatten(m[1..]));
      ParseOfFlatten(m[1..]);
      assert m == [m[0]] + m[1..];
    }
  }

  lemma CleanCons(p: Pair, ps: Pairs)
    requires CleanPair(p) && Clean(ps)
    ensures Clean([p] + ps)
  {
  }

  lemma SplitIsClean(s: string)
    ensures SplitPair(s).Some? ==> CleanPair(SplitPair(s).value.0)
  {
    FindIsFirst(s, '=');
    var eq := Find(s, '=');
    if eq.Some? { FindIsFirst(s[eq.value + 1..], ';'); }
  }

  /** Whatever the text, its pairs are clean. */
  lemma {:induction false} ParsedIsClean(s: string)
    ensures Clean(ParsePairs(s))
    decreases |s|
  {
    var split := SplitPair(s);
    if split.Some? {
      SplitIsClean(s);
      ParsedIsClean(split.value.1);
      CleanCons(split.value.0, ParsePairs(split.value.1));
    }
  }

  /** The pairs, then possibly a ';' and text without any '='. */
  ghost predicate AccountsFor(text: string, pairs: Pairs)
  {
    if pairs == [] then '=' !in text
    else text == Flatten(pairs) || exists rest :: '=' !in rest && text == Flatten(pairs) + (";" + rest)
  }

  /** What one turn of the loop makes of the text: the whole of it, or all before a ';' and the rest. */
  ghost predicate Rejoins(s: string, p: Pair, rest: string)
  {
    || (rest == "" && s == p.key + ("=" + p.value))
    || s == p.key + ("=" + (p.value + (";" + rest)))
  }

  lemma SplitNone(s: string)
    ensures SplitPair(s).None? <==> '=' !in s
  {
    FindIsFirst(s, '=');
  }

  /** The text after the '='. */
  lemma SplitKey(s: string) returns (tail: string)
    requires Find(s, '=').Some?
    ensures tail == s[Find(s, '=').value + 1..] && s == s[..Find(s, '=').value] + ("=" + tail)
  {
    FindIsFirst(s, '=');
    tail := FindTakesApart(s, '=');
  }

  lemma SplitValue(tail: string)
    requires Find(tail, ';').Some?
    ensures var j := Find(tail, ';').value; tail == tail[..j] + (";" + tail[j + 1..])
  {
    FindIsFirst(tail, ';');
    var _ := FindTakesApart(tail, ';');
  }

  lemma SplitRejoins(s: string)
    requires SplitPair(s).Some?
    ensures Rejoins(s, SplitPair(s).value.0, SplitPair(s).value.1)
  {
    var tail := SplitKey(s);
    if Find(tail, ';').Some? { SplitValue(tail); }
  }

  lemma FindTakesApart(s: string, c: char) returns (tail: string)
    requires Find(s, c).Some? && s[Find(s, c).value] == c
    ensures tail == s[Find(s, c).value + 1..] && s == s[..Find(s, c).value] + ([c] + tail)
  {
    tail := s[Find(s, c).value + 1..];
  }

  lemma FlattenCons(p: Pair, ps: Pairs)
    requires ps != []
    ensures Flatten([p] + ps) == p.key + ("=" + (p.value + (";" + Flatten(ps))))
  {
    assert ([p] + ps)[1..] == ps;
  }

  lemma AccountCons(p: Pair, ps: Pairs, rest: string)
    requires AccountsFor(rest, ps)
    ensures AccountsFor(p.key + ("=" + (p.value + (";" + rest))), [p] + ps)
  {
    var text := p.key + ("=" + (p.value + (";" + rest)));
    if ps == [] {
      assert [p] + ps == [p] && Flatten([p]) == p.key + ("=" + p.value);
      assert text == Flatten([p]) + (";" + rest);
    } else {
      FlattenCons(p, ps);
      if rest != Flatten(ps) {
        var more :| '=' !in more && rest == Flatten(ps) + (";" + more);
        assert text == Flatten([p] + ps) + (";" + more);
      }
    }
  }

  /**
   * Whatever the text, nothing in it is lost or made up: it is its pairs as flatten()
   * prints them, but for a part at the end that has no '='.
   */
  lemma {:induction false} ParsedAccountsForText(s: string)
    ensures AccountsFor(s, ParsePairs(s))
    decreases |s|
  {
    SplitNone(s);
    if SplitPair(s).Some? {
      SplitRejoins(s);
      var (p, rest) := SplitPair(s).value;
      ParsedAccountsForText(rest);
      if s != p.key + ("=" + (p.value + (";" + rest))) {
        assert ParsePairs("") == [];
        assert [p] + [] == [p] && Flatten([p]) == s;
      } else {
        AccountCons(p, ParsePairs(rest), rest);
      }
    }
  }

  // CameraParameters: sorted by key

  /** KeyedVector::add and replaceValueFor: replaces the value of a key that is there. */
  function Put(m: Pairs, p: Pair): Pairs
  {
    if m == [] || Less(p.key, m[0].key) then [p] + m
    else if p.key == m[0].key then [p] + m[1..]
    else [m[0]] + Put(m[1..], p)
  }

  function RemoveKey(m: Pairs, key: string): Pairs
  {
    if m == [] then []
    else if m[0].key == key then m[1..]
    else [m[0]] + RemoveKey(m[1..], key)
  }

  function Lookup(m: Pairs, key: string): Option<string>
  {
    if m == [] then None
    else if m[0].key == key then Some(m[0].value)
    else Lookup(m[1..], key)
  }

  function PutAll(m: Pairs, ps: Pairs): Pairs
    decreases |ps|
  {
    if ps == [] then m else PutAll(Put(m, ps[0]), ps[1..])
  }

  lemma PutAllCons(m: Pairs, p: Pair, ps: Pairs)
    ensures PutAll(m, [p] + ps) == PutAll(Put(m, p), ps)
  {
    assert ([p] + ps)[1..] == ps;
  }

  function Unflatten(s: string): Pairs
  {
    PutAll([], ParsePairs(s))
  }

  ghost predicate SortedKeys(m: Pairs)
  {
    forall i, j :: 0 <= i < j < |m| ==> Less(m[i].key, m[j].key)
  }

  lemma {:induction false} PutClean(m: Pairs, p: Pair)
    requires Clean(m) && CleanPair(p)
    ensures Clean(Put(m, p))
    decreases |m|
  {
    if m != [] && !Less(p.key, m[0].key) && p.key != m[0].key { PutClean(m[1..], p); }
  }

  ghost predicate KeysAbove(m: Pairs, low: string)
  {
    forall i :: 0 <= i < |m| ==> Less(low, m[i].key)
  }

  lemma {:induction false} PutAbove(m: Pairs, p: Pair, low: string)
    requires KeysAbove(m, low) && Less(low, p.key)
    ensures KeysAbove(Put(m, p), low)
    decreases |m|
  {
    if m != [] && !Less(p.key, m[0].key) && p.key != m[0].key { PutAbove(m[1..], p, low); }
  }

  lemma {:induction false} PutSorted(m: Pairs, p: Pair)
    requires SortedKeys(m)
    ensures SortedKeys(Put(m, p))
    decreases |m|
  {
    if m == [] {
    } else if Less(p.key, m[0].key) {
      forall i | 1 <= i < |m|
        ensures Less(p.key, m[i].key)
      {
        LessIsTransitive(p.key, m[0].key, m[i].key);
      }
    } else if p.key != m[0].key {
      LessIsStrict(p.key, m[0].key);
      PutSorted(m[1..], p);
      PutAbove(m[1..], p, m[0].key);
    }
  }

  /** Adding in order appends. */
  lemma {:induction false} PutAtEnd(m: Pairs, p: Pair)
    requires forall i :: 0 <= i < |m| ==> Less(m[i].key, p.key)
    ensures Put(m, p) == m + [p]
    decreases |m|
  {
    if m != [] {
      LessIsStrict(m[0].key, p.key);
      PutAtEnd(m[1..], p);
      assert m == [m[0]] + m[1..];
    }
  }

  lemma {:induction false} PutAllInOrder(m: Pairs, ps: Pairs)
    requires SortedKeys(m + ps)
    ensures PutAll(m, ps) == m + ps
    decreases |ps|
  {
    if ps == [] {
      assert m + ps == m;
    } else {
      forall i | 0 <= i < |m|
        ensures Less(m[i].key, ps[0].key)
      {
        assert (m + ps)[i] == m[i] && (m + ps)[|m|] == ps[0];
      }
      PutAtEnd(m, ps[0]);
      assert (m + [ps[0]]) + ps[1..] == m + ps;
      PutAllInOrder(m + [ps[0]], ps[1..]);
    }
  }

  lemma {:induction false} PutAllKeeps(m: Pairs, ps: Pairs)
    requires Clean(m) && SortedKeys(m) && Clean(ps)
    ensures Clean(PutAll(m, ps)) && SortedKeys(PutAll(m, ps))
    decreases |ps|
  {
    if ps != [] {
      PutClean(m, ps[0]);
      PutSorted(m, ps[0]);
      PutAllKeeps(Put(m, ps[0]), ps[1..]);
    }
  }

  lemma {:induction false} RemoveKeyClean(m: Pairs, key: string)
    requires Clean(m)
    ensures Clean(RemoveKey(m, key))
    decreases |m|
  {
    if m != [] && m[0].key != key { RemoveKeyClean(m[1..], key); }
  }

  lemma {:induction false} RemoveKeySorted(m: Pairs, key: string, low: string)
    requires SortedKeys(m)
    ensures SortedKeys(RemoveKey(m, key)) && (KeysAbove(m, low) ==> KeysAbove(RemoveKey(m, key), low))
    decreases |m|
  {
    if m != [] && m[0].key != key {
      RemoveKeySorted(m[1..], key, low);
      RemoveKeySorted(m[1..], key, m[0].key);
    }
  }

  // Runs

  datatype Op = Set(key: string, value: string) | Remove(key: string) | Load(text: string)

  /** What set() accepts. */
  predicate Settable(key: string, value: string)
  {
    '=' !in key && ';' !in key && '=' !in value && ';' !in value
  }

  function Apply(m: Pairs, op: Op): Pairs
  {
    match op
    case Set(key, value) => if Settable(key, value) then Put(m, Pair(key, value)) else m
    case Remove(key) => RemoveKey(m, key)
    case Load(text) => Unflatten(text)
  }

  function Run(ops: seq<Op>): Pairs
  {
    if ops == [] then [] else Apply(Run(ops[..|ops| - 1]), ops[|ops| - 1])
  }

  lemma {:induction false} RunKeeps(ops: seq<Op>)
    ensures Clean(Run(ops)) && SortedKeys(Run(ops))
    decreases |ops|
  {
    if ops != [] {
      var m, op := Run(ops[..|ops| - 1]), ops[|ops| - 1];
      RunKeeps(ops[..|ops| - 1]);
      match op
      case Set(key, value) =>
        if Settable(key, value) {
          PutClean(m, Pair(key, value));
          PutSorted(m, Pair(key, value));
        }
      case Remove(key) =>
        RemoveKeyClean(m, key);
        RemoveKeySorted(m, key, "");
      case Load(text) =>
        ParsedIsClean(text);
        PutAllKeeps([], ParsePairs(text));
    }
  }

  /** Every map reached by setting, removing and unflattening any text survives flatten and unflatten. */
  lemma ReachableRoundTrip(ops: seq<Op>)
    ensures Unflatten(Flatten(Run(ops))) == Run(ops)
  {
    RunKeeps(ops);
    ParseOfFlatten(Run(ops));
    assert [] + Run(ops) == Run(ops);
    PutAllInOrder([], Run(ops));
  }

  // What set, remove and unflatten do to each key

  /** A plain map from keys to values. */
  type Values = map<string, string>

  ghost function LoadValues(v: Values, ps: Pairs): Values
    decreases |ps|
  {
    if ps == [] then v else LoadValues(v[ps[0].key := ps[0].value], ps[1..])
  }

  ghost function ApplyToValues(v: Values, op: Op): Values
  {
    match op
    case Set(key, value) => if Settable(key, value) then v[key := value] else v
    case Remove(key) => v - {key}
    case Load(text) => LoadValues(map[], ParsePairs(text))
  }

  ghost function ValuesOf(ops: seq<Op>): Values
  {
    if ops == [] then map[] else ApplyToValues(ValuesOf(ops[..|ops| - 1]), ops[|ops| - 1])
  }

  /** A list answers every lookup as a map does. */
  ghost predicate Answers(m: Pairs, v: Values)
  {
    forall key :: AnswersKey(m, v, key)
  }

  ghost predicate AnswersKey(m: Pairs, v: Values, key: string)
  {
    Lookup(m, key) == if key in v then Some(v[key]) else None
  }

  /** Setting one key leaves the others alone. */
  lemma {:induction false} PutKeepsOthers(m: Pairs, p: Pair, other: string)
    requires other != p.key
    ensures Lookup(Put(m, p), other) == Lookup(m, other)
    decreases |m|
  {
    if m == [] || Less(p.key, m[0].key) {
      assert ([p] + m)[1..] == m;
    } else if p.key == m[0].key {
      assert ([p] + m[1..])[1..] == m[1..];
    } else {
      assert Put(m, p)[1..] == Put(m[1..], p);
      PutKeepsOthers(m[1..], p, other);
    }
  }

  lemma PutAnswers(m: Pairs, v: Values, p: Pair)
    requires Answers(m, v)
    ensures Answers(Put(m, p), v[p.key := p.value])
  {
    var w := v[p.key := p.value];
    forall key ensures AnswersKey(Put(m, p), w, key) {
      assert AnswersKey(m, v, key);
      PutThenLookup(m, p);
      if key != p.key { PutKeepsOthers(m, p, key); }
    }
  }

  lemma {:induction false} LoadAnswers(m: Pairs, v: Values, ps: Pairs)
    requires Answers(m, v)
    ensures Answers(PutAll(m, ps), LoadValues(v, ps))
    decreases |ps|
  {
    if ps != [] {
      PutAnswers(m, v, ps[0]);
      LoadAnswers(Put(m, ps[0]), v[ps[0].key := ps[0].value], ps[1..]);
    }
  }

  lemma SortedIsDistinct(m: Pairs)
    requires SortedKeys(m)
    ensures DistinctKeys(m)
  {
    forall i, j | 0 <= i < j < |m| ensures m[i].key != m[j].key { LessIsStrict(m[i].key, m[j].key); }
  }

  lemma RemoveAnswers(m: Pairs, v: Values, key: string)
    requires Answers(m, v) && DistinctKeys(m)
    ensures Answers(RemoveKey(m, key), v - {key})
  {
    forall k ensures AnswersKey(RemoveKey(m, key), v - {key}, k) {
      assert AnswersKey(m, v, k);
      if k == key { RemoveDistinct(m, key); } else { LookupOther(m, key, k); }
    }
  }

  /**
   * After any operations every lookup is that of a plain map: set changes its key alone,
   * remove takes its key alone away, and unflatten starts anew with the text's pairs, of
   * which a later one wins.
   */
  lemma {:induction false} RunAnswersAsMap(ops: seq<Op>)
    ensures Answers(Run(ops), ValuesOf(ops))
    decreases |ops|
  {
    if ops == [] {
      assert forall key :: AnswersKey([], map[], key);
    } else {
      var before, op := ops[..|ops| - 1], ops[|ops| - 1];
      RunAnswersAsMap(before);
      var m, v := Run(before), ValuesOf(before);
      match op
      case Set(key, value) => PutAnswers(m, v, Pair(key, value));
      case Remove(key) =>
        RunKeeps(before);
        SortedIsDistinct(m);
        RemoveAnswers(m, v, key);
      case Load(text) =>
        assert forall key :: AnswersKey([], map[], key);
        LoadAnswers([], map[], ParsePairs(text));
    }
  }

  // CameraParameters2: in the order set

  /** replaceValueFor: removes the first occurrence of the key and appends. */
  function Put2(m: Pairs, p: Pair): Pairs
  {
    RemoveKey(m, p.key) + [p]
  }

  function Apply2(m: Pairs, op: Op): Pairs
  {
    match op
    case Set(key, value) => if Settable(key, value) then Put2(m, Pair(key, value)) else m
    case Remove(key) => RemoveKey(m, key)
    case Load(text) => ParsePairs(text)
  }

  function Run2(ops: seq<Op>): Pairs
  {
    if ops == [] then [] else Apply2(Run2(ops[..|ops| - 1]), ops[|ops| - 1])
  }

  lemma {:induction false} Run2Keeps(ops: seq<Op>)
    ensures Clean(Run2(ops))
    decreases |ops|
  {
    if ops != [] {
      var m, op := Run2(ops[..|ops| - 1]), ops[|ops| - 1];
      Run2Keeps(ops[..|ops| - 1]);
      match op
      case Set(key, value) => RemoveKeyClean(m, key);
      case Remove(key) => RemoveKeyClean(m, key);
      case Load(text) => ParsedIsClean(text);
    }
  }

  /** For the order-keeping variant the list, with its order and repetitions, survives. */
  lemma ReachableRoundTrip2(ops: seq<Op>)
    ensures ParsePairs(Flatten(Run2(ops))) == Run2(ops)
  {
    Run2Keeps(ops);
    ParseOfFlatten(Run2(ops));
  }

  lemma {:induction false} LookupAppend(m: Pairs, p: Pair, key: string)
    ensures Lookup(m + [p], key)
         == if Lookup(m, key).Some? then Lookup(m, key) else if p.key == key then Some(p.value) else None
    decreases |m|
  {
    if m != [] && m[0].key != key {
      assert (m + [p])[1..] == m[1..] + [p];
      LookupAppend(m[1..], p, key);
    }
  }

  lemma {:induction false} LookupOther(m: Pairs, key: string, other: string)
    requires other != key
    ensures Lookup(RemoveKey(m, key), other) == Lookup(m, other)
    decreases |m|
  {
    if m != [] && m[0].key != key {
      assert RemoveKey(m, key)[1..] == RemoveKey(m[1..], key);
      LookupOther(m[1..], key, other);
    }
  }

  /**
   * After set(), get() answers with the value set if and only if the key was in the list at
   * most once, or its second occurrence already had that value.
   */
  lemma Set2ThenGet2(m: Pairs, key: string, value: string, other: string)
    ensures Lookup(Put2(m, Pair(key, value)), key) == Some(value)
      <==> Lookup(RemoveKey(m, key), key) in {None, Some(value)}
    ensures other != key ==> Lookup(Put2(m, Pair(key, value)), other) == Lookup(m, other)
  {
    LookupAppend(RemoveKey(m, key), Pair(key, value), key);
    if other != key {
      LookupAppend(RemoveKey(m, key), Pair(key, value), other);
      LookupOther(m, key, other);
    }
  }

  lemma RepeatedText()
    ensures ParsePairs("a=1;a=2") == [Pair("a", "1"), Pair("a", "2")]
  {
    var l := [Pair("a", "1"), Pair("a", "2")];
    assert l[1..] == [Pair("a", "2")];
    assert Flatten(l[1..]) == "a=2";
    assert "a=1;a=2" == Flatten(l);
    assert CleanPair(l[0]) && CleanPair(l[1]);
    ParseOfFlatten(l);
  }

  /** An input on which the value set is not the value got: unflatten "a=1;a=2", set a to 3. */
  lemma Set2CanBeHidden()
    ensures Lookup(Run2([Load("a=1;a=2"), Set("a", "3")]), "a") == Some("2")
  {
    var ops := [Load("a=1;a=2"), Set("a", "3")];
    assert ops[..1][..0] == [] && ops[..1] == [Load("a=1;a=2")];
    var l := [Pair("a", "1"), Pair("a", "2")];
    RepeatedText();
    assert Run2(ops[..1]) == l;
    assert RemoveKey(l, "a") == [Pair("a", "2")];
    LookupAppend([Pair("a", "2")], Pair("a", "3"), "a");
  }

  /** OrderedKeyedVector::indexOfKey */
  function IndexOfKey(m: Pairs, key: string): Option<nat>
  {
    if m == [] then None
    else if m[0].key == key then Some(0)
    else
      match IndexOfKey(m[1..], key)
      case None => None
      case Some(i) => Some(i + 1)
  }

  /** compareSetOrder: None when a key was not set. */
  function CompareSetOrder(m: Pairs, key1: string, key2: string): Option<int>
  {
    match (IndexOfKey(m, key1), IndexOfKey(m, key2))
    case (Some(i), Some(j)) => Some(if i == j then 0 else if i < j then -1 else 1)
    case _ => None
  }

  lemma {:induction false} IndexAppend(m: Pairs, p: Pair, key: string)
    ensures IndexOfKey(m + [p], key)
         == if IndexOfKey(m, key).Some? then IndexOfKey(m, key) else if p.key == key then Some(|m|) else None
    ensures IndexOfKey(m, key).Some? ==> IndexOfKey(m, key).value < |m|
    decreases |m|
  {
    if m != [] && m[0].key != key {
      assert (m + [p])[1..] == m[1..] + [p];
      IndexAppend(m[1..], p, key);
    }
  }

  lemma {:induction false} RemoveKeepsOrder(m: Pairs, key: string, a: string, b: string)
    requires a != key && b != key
    ensures CompareSetOrder(RemoveKey(m, key), a, b) == CompareSetOrder(m, a, b)
    decreases |m|
  {
    if m != [] && m[0].key != key {
      assert RemoveKey(m, key)[1..] == RemoveKey(m[1..], key);
      RemoveKeepsOrder(m[1..], key, a, b);
      RemoveKeepsOrder(m[1..], key, a, a);
      RemoveKeepsOrder(m[1..], key, b, b);
    }
  }

  /**
   * A key just set is the latest if and only if it was listed at most once, or the second
   * occurrence that stays in its place was already behind the other key; the others keep
   * their order.
   */
  lemma LatestSetIsLast(m: Pairs, key: string, value: string, a: string, b: string)
    requires a != key && b != key
    ensures CompareSetOrder(Put2(m, Pair(key, value)), a, b) == CompareSetOrder(m, a, b)
    ensures IndexOfKey(m, a).Some? ==>
      var r := RemoveKey(m, key);
      && IndexOfKey(r, a).Some?
      && (CompareSetOrder(Put2(m, Pair(key, value)), key, a) == Some(1)
          <==> IndexOfKey(r, key).None? || IndexOfKey(r, a).value < IndexOfKey(r, key).value)
  {
    var r, p := RemoveKey(m, key), Pair(key, value);
    RemoveKeepsOrder(m, key, a, b);
    RemoveKeepsOrder(m, key, a, a);
    RemoveKeepsOrder(m, key, b, b);
    IndexAppend(r, p, a);
    IndexAppend(r, p, b);
    IndexAppend(r, p, key);
  }

  /**
   * Texts after which the key set last does not compare as such: unflatten one that lists
   * a, a and b, such as "a=1;a=2;b=3", and set a again.
   */
  lemma SetOrderCanBeHidden(first: string, second: string, third: string, value: string)
    requires ';' !in first && ';' !in second && ';' !in third && Settable("a", value)
    ensures
      var l := [Pair("a", first), Pair("a", second), Pair("b", third)];
      && Apply2([], Load(Flatten(l))) == l
      && CompareSetOrder(Apply2(l, Set("a", value)), "a", "b") == Some(-1)
  {
    var l := [Pair("a", first), Pair("a", second), Pair("b", third)];
    assert CleanPair(l[0]) && CleanPair(l[1]) && CleanPair(l[2]);
    ParseOfFlatten(l);
    OrderHiddenBy(first, second, third, value);
  }

  lemma OrderHiddenBy(first: string, second: string, third: string, value: string)
    requires Settable("a", value)
    ensures
      var l := [Pair("a", first), Pair("a", second), Pair("b", third)];
      CompareSetOrder(Apply2(l, Set("a", value)), "a", "b") == Some(-1)
  {
    var l := [Pair("a", first), Pair("a", second), Pair("b", third)];
    var r := [Pair("a", second), Pair("b", third)];
    assert l[1..] == r && r[1..] == [Pair("b", third)];
    assert RemoveKey(l, "a") == r;
    IndexAppend(r, Pair("a", value), "a");
    IndexAppend(r, Pair("a", value), "b");
    assert IndexOfKey(r[1..], "b") == Some(0);
  }

  ghost predicate DistinctKeys(m: Pairs)
  {
    forall i, j :: 0 <= i < j < |m| ==> m[i].key != m[j].key
  }

  ghost predicate HasKey(m: Pairs, key: string)
  {
    exists i :: 0 <= i < |m| && m[i].key == key
  }

  lemma {:induction false} RemoveDistinct(m: Pairs, key: string)
    requires DistinctKeys(m)
    ensures DistinctKeys(RemoveKey(m, key)) && Lookup(RemoveKey(m, key), key).None?
    ensures forall k :: HasKey(RemoveKey(m, key), k) ==> k != key && HasKey(m, k)
    decreases |m|
  {
    if m != [] {
      var rest := m[1..];
      assert forall i :: 0 <= i < |rest| ==> rest[i] == m[i + 1];
      if m[0].key == key {
        AbsentKey(rest, key);
      } else {
        RemoveDistinct(rest, key);
        var r := RemoveKey(rest, key);
        assert RemoveKey(m, key)[1..] == r;
        forall i | 0 <= i < |r| ensures r[i].key != m[0].key {
          assert HasKey(r, r[i].key);
          assert HasKey(rest, r[i].key);
        }
        forall k | HasKey(RemoveKey(m, key), k) ensures k != key && HasKey(m, k) {
          var i :| 0 <= i < |RemoveKey(m, key)| && RemoveKey(m, key)[i].key == k;
          if i > 0 {
            assert r[i - 1].key == k && HasKey(r, k);
            var j :| 0 <= j < |rest| && rest[j].key == k;
            assert m[j + 1].key == k;
          } else {
            assert m[0].key == k;
          }
        }
      }
    }
  }

  lemma {:induction false} AbsentKey(m: Pairs, key: string)
    requires !HasKey(m, key)
    ensures Lookup(m, key).None?
    decreases |m|
  {
    if m != [] {
      assert m[0].key != key;
      assert forall i :: 0 <= i < |m[1..]| ==> m[1..][i] == m[i + 1];
      AbsentKey(m[1..], key);
    }
  }

  /** Only a text that itself repeats a key makes a list that does. */
  lemma {:induction false} RepeatsOnlyFromText(ops: seq<Op>)
    requires forall i :: 0 <= i < |ops| && ops[i].Load? ==> DistinctKeys(ParsePairs(ops[i].text))
    ensures DistinctKeys(Run2(ops))
    decreases |ops|
  {
    if ops != [] {
      var before, op := ops[..|ops| - 1], ops[|ops| - 1];
      RepeatsOnlyFromText(before);
      var m := Run2(before);
      if !op.Load? {
        RemoveDistinct(m, op.key);
        var r := RemoveKey(m, op.key);
        assert forall i :: 0 <= i < |r| ==> HasKey(r, r[i].key);
      }
    }
  }

  lemma Put2Answers(m: Pairs, v: Values, p: Pair)
    requires Answers(m, v) && DistinctKeys(m)
    ensures Answers(Put2(m, p), v[p.key := p.value])
  {
    RemoveDistinct(m, p.key);
    var w := v[p.key := p.value];
    forall key ensures AnswersKey(Put2(m, p), w, key) {
      assert AnswersKey(m, v, key);
      LookupAppend(RemoveKey(m, p.key), p, key);
      if key != p.key { LookupOther(m, p.key, key); }
    }
  }

  lemma DistinctTail(m: Pairs)
    requires DistinctKeys(m) && m != []
    ensures DistinctKeys(m[1..]) && !HasKey(m[1..], m[0].key)
  {
    assert forall i :: 0 <= i < |m| - 1 ==> m[1..][i] == m[i + 1];
  }

  /** A list without repeated keys is the map it is loaded into. */
  lemma {:induction false} ListAnswers(m: Pairs, v: Values)
    requires DistinctKeys(m) && forall key :: HasKey(m, key) ==> key !in v
    ensures forall key :: LoadedKey(m, v, key)
    decreases |m|
  {
    if m != [] {
      DistinctTail(m);
      var w := v[m[0].key := m[0].value];
      forall key | HasKey(m[1..], key) ensures key !in w {
        var i :| 0 <= i < |m[1..]| && m[1..][i].key == key;
        assert m[i + 1].key == key;
        assert HasKey(m, key);
      }
      ListAnswers(m[1..], w);
      forall key ensures LoadedKey(m, v, key) {
        assert LoadedKey(m[1..], w, key);
        AbsentKey(m[1..], m[0].key);
        assert HasKey(m, m[0].key);
      }
    }
  }

  ghost predicate LoadedKey(m: Pairs, v: Values, key: string)
  {
    var w := LoadValues(v, m);
    if Lookup(m, key).Some? then key in w && w[key] == Lookup(m, key).value
    else (key in w <==> key in v) && (key in v ==> w[key] == v[key])
  }

  /** The same for the order-keeping variant, as long as no text repeats a key. */
  lemma {:induction false} Run2AnswersAsMap(ops: seq<Op>)
    requires forall i :: 0 <= i < |ops| && ops[i].Load? ==> DistinctKeys(ParsePairs(ops[i].text))
    ensures Answers(Run2(ops), ValuesOf(ops))
    decreases |ops|
  {
    if ops == [] {
      assert forall key :: AnswersKey([], map[], key);
    } else {
      var before, op := ops[..|ops| - 1], ops[|ops| - 1];
      Run2AnswersAsMap(before);
      RepeatsOnlyFromText(before);
      var m, v := Run2(before), ValuesOf(before);
      match op
      case Set(key, value) => if Settable(key, value) { Put2Answers(m, v, Pair(key, value)); }
      case Remove(key) => RemoveAnswers(m, v, key);
      case Load(text) =>
        ListAnswers(ParsePairs(text), map[]);
        forall key ensures AnswersKey(ParsePairs(text), LoadValues(map[], ParsePairs(text)), key) {
          assert LoadedKey(ParsePairs(text), map[], key);
        }
    }
  }

  // Numbers under keys

  /** CameraParameters::get treats an empty value as absent. */
  function Get(m: Pairs, key: string): Option<string>
  {
    if Lookup(m, key) == Some("") then None else Lookup(m, key)
  }

  /** What a text under a key is read as. */
  function ReadInt(v: string): int
  {
    ToInt32(Strtol(v, 0).0)
  }

  /** -1, -1 unless a pair is there. */
  function ReadPair(v: string, delim: char): (int, int)
  {
    match ParsePair(v, delim)
    case None => (-1, -1)
    case Some((a, b, _)) => (a, b)
  }

  /** getInt of CameraParameters, and of CameraParameters2, whose get() knows no empty value. */
  function GetInt(m: Pairs, key: string): int
  {
    match Get(m, key)
    case None => -1
    case Some(v) => ReadInt(v)
  }

  function GetInt2(m: Pairs, key: string): int
  {
    match Lookup(m, key)
    case None => -1
    case Some(v) => ReadInt(v)
  }

  /** getPreviewSize and its kin, of both. */
  function GetPair(m: Pairs, key: string, delim: char): (int, int)
  {
    match Get(m, key)
    case None => (-1, -1)
    case Some(v) => ReadPair(v, delim)
  }

  function GetPair2(m: Pairs, key: string, delim: char): (int, int)
  {
    match Lookup(m, key)
    case None => (-1, -1)
    case Some(v) => ReadPair(v, delim)
  }

  lemma {:induction false} PutThenLookup(m: Pairs, p: Pair)
    ensures Lookup(Put(m, p), p.key) == Some(p.value)
    decreases |m|
  {
    if m != [] && !Less(p.key, m[0].key) && p.key != m[0].key {
      assert Put(m, p)[1..] == Put(m[1..], p);
      PutThenLookup(m[1..], p);
    }
  }

  lemma PrintedIntIsPlain(n: int)
    ensures '=' !in PrintInt(n) && ';' !in PrintInt(n) && PrintInt(n) != ""
  {
    DigitsAreDigits(if n < 0 then -n else n);
  }

  lemma PrintedIntReadAsSet(n: int32)
    ensures Settable("", PrintInt(n)) && PrintInt(n) != "" && ReadInt(PrintInt(n)) == n
  {
    PrintedIntIsPlain(n);
    PrintedIntRead(n, "", 0);
    assert PrintInt(n) + "" == PrintInt(n);
  }

  lemma PrintedPairReadAsSet(a: int32, b: int32, delim: char)
    requires delim in "x,"
    ensures var v := PrintPair(a, b, delim); Settable("", v) && v != "" && ReadPair(v, delim) == (a, b)
  {
    PrintedIntIsPlain(a);
    PrintedIntIsPlain(b);
    PairReadBack(a, b, delim, "");
    assert PrintPair(a, b, delim) + "" == PrintPair(a, b, delim);
  }

  /** An int set under a key is the int got, even though reading detects the base. */
  lemma SetIntThenGetInt(m: Pairs, key: string, n: int32)
    requires '=' !in key && ';' !in key
    ensures GetInt(Apply(m, Set(key, PrintInt(n))), key) == n
  {
    PrintedIntReadAsSet(n);
    PutThenLookup(m, Pair(key, PrintInt(n)));
  }

  /** A size set under a key is the size got. */
  lemma SetPairThenGetPair(m: Pairs, key: string, a: int32, b: int32)
    requires '=' !in key && ';' !in key
    ensures GetPair(Apply(m, Set(key, PrintPair(a, b, 'x'))), key, 'x') == (a, b)
  {
    PrintedPairReadAsSet(a, b, 'x');
    PutThenLookup(m, Pair(key, PrintPair(a, b, 'x')));
  }

  /**
   * After any operations get() answers with what the plain map holds, an empty value counting
   * as absent; what is absent reads as -1, and what is absent or has no delimiter as -1, -1.
   */
  lemma AbsentReadsMinusOne(ops: seq<Op>, key: string, delim: char)
    ensures
      var m, v := Run(ops), ValuesOf(ops);
      var there := key in v && v[key] != "";
      && Get(m, key) == (if there then Some(v[key]) else None)
      && (!there ==> GetInt(m, key) == -1)
      && (!there || delim !in v[key] ==> GetPair(m, key, delim) == (-1, -1))
  {
    RunAnswersAsMap(ops);
    assert AnswersKey(Run(ops), ValuesOf(ops), key);
    if key in ValuesOf(ops) && delim !in ValuesOf(ops)[key] {
      NoDelimiterNoPair(ValuesOf(ops)[key], delim);
    }
  }

  /** The same for the order-keeping variant, where an empty value is one, but no pair. */
  lemma AbsentReadsMinusOne2(ops: seq<Op>, key: string, delim: char)
    requires forall i :: 0 <= i < |ops| && ops[i].Load? ==> DistinctKeys(ParsePairs(ops[i].text))
    ensures
      var m, v := Run2(ops), ValuesOf(ops);
      && (key !in v ==> GetInt2(m, key) == -1)
      && (key !in v || delim !in v[key] ==> GetPair2(m, key, delim) == (-1, -1))
  {
    Run2AnswersAsMap(ops);
    assert AnswersKey(Run2(ops), ValuesOf(ops), key);
    if key in ValuesOf(ops) && delim !in ValuesOf(ops)[key] {
      NoDelimiterNoPair(ValuesOf(ops)[key], delim);
    }
  }

  /** What get() finds first after a set() that only replaced the first occurrence. */
  function Hidden(m: Pairs, key: string): Option<string>
  {
    Lookup(RemoveKey(m, key), key)
  }

  lemma LookupAfterSet2(m: Pairs, key: string, value: string)
    requires '=' !in key && ';' !in key && Settable("", value)
    ensures Lookup(Apply2(m, Set(key, value)), key)
         == if Hidden(m, key).Some? then Hidden(m, key) else Some(value)
  {
    LookupAppend(RemoveKey(m, key), Pair(key, value), key);
  }

  /** In CameraParameters2 the int set is the int got, unless a second occurrence reads differently. */
  lemma SetInt2ThenGetInt2(m: Pairs, key: string, n: int32)
    requires '=' !in key && ';' !in key
    ensures GetInt2(Apply2(m, Set(key, PrintInt(n))), key) == n
      <==> Hidden(m, key).None? || ReadInt(Hidden(m, key).value) == n
  {
    PrintedIntReadAsSet(n);
    LookupAfterSet2(m, key, PrintInt(n));
  }

  /** The same for sizes, with 'x', and frame rate ranges, with ','. */
  lemma SetPair2ThenGetPair2(m: Pairs, key: string, a: int32, b: int32, delim: char)
    requires '=' !in key && ';' !in key && delim in "x,"
    ensures GetPair2(Apply2(m, Set(key, PrintPair(a, b, delim))), key, delim) == (a, b)
      <==> Hidden(m, key).None? || ReadPair(Hidden(m, key).value, delim) == (a, b)
  {
    PrintedPairReadAsSet(a, b, delim);
    LookupAfterSet2(m, key, PrintPair(a, b, delim));
  }

  /** So after any operations whose texts repeat no key, every int and every pair set is the one got. */
  lemma ReachableSet2ThenGet2(ops: seq<Op>, key: string, a: int32, b: int32, delim: char)
    requires forall i :: 0 <= i < |ops| && ops[i].Load? ==> DistinctKeys(ParsePairs(ops[i].text))
    requires '=' !in key && ';' !in key && delim in "x,"
    ensures GetInt2(Apply2(Run2(ops), Set(key, PrintInt(a))), key) == a
    ensures GetPair2(Apply2(Run2(ops), Set(key, PrintPair(a, b, delim))), key, delim) == (a, b)
  {
    RepeatsOnlyFromText(ops);
    RemoveDistinct(Run2(ops), key);
    SetInt2ThenGetInt2(Run2(ops), key, a);
    SetPair2ThenGetPair2(Run2(ops), key, a, b, delim);
  }

  lemma RepeatedRange()
    ensures ParsePairs("k=1,2;k=3,4") == [Pair("k", "1,2"), Pair("k", "3,4")]
  {
    var l := [Pair("k", "1,2"), Pair("k", "3,4")];
    assert l[1..] == [Pair("k", "3,4")];
    assert Flatten(l[1..]) == "k=3,4";
    assert "k=1,2;k=3,4" == Flatten(l);
    assert CleanPair(l[0]) && CleanPair(l[1]);
    ParseOfFlatten(l);
  }

  lemma PrintedRange()
    ensures PrintPair(3, 4, ',') == "3,4"
  {
    assert Digits(3) == "3" && Digits(4) == "4";
  }

  /** A text after which the range set is not the range got: unflatten "k=1,2;k=3,4", set k to 5,6. */
  lemma Range2CanBeHidden()
    ensures GetPair2(Apply2(Apply2([], Load("k=1,2;k=3,4")), Set("k", PrintPair(5, 6, ','))), "k", ',') == (3, 4)
  {
    RepeatedRange();
    PrintedRange();
    PrintedPairReadAsSet(3, 4, ',');
    PrintedPairReadAsSet(5, 6, ',');
    RangeHiddenBy("1,2", "3,4", PrintPair(5, 6, ','));
  }

  lemma RangeHiddenBy(first: string, second: string, value: string)
    requires Settable("k", value)
    ensures Lookup(Apply2([Pair("k", first), Pair("k", second)], Set("k", value)), "k") == Some(second)
  {
    var l := [Pair("k", first), Pair("k", second)];
    assert RemoveKey(l, "k") == [Pair("k", second)];
    LookupAppend([Pair("k", second)], Pair("k", value), "k");
  }

  // The objects

  /** The loop of flatten(), the same in both classes. */
  method FlattenLoop(m: Pairs) returns (flattened: string)
    ensures flattened == Flatten(m)
  {
    flattened := "";
    for i := 0 to |m|
      invariant flattened + Flatten(m[i..]) == Flatten(m)
    {
      var text := m[i].key + ("=" + m[i].value);
      if i != |m| - 1 {
        text := m[i].key + ("=" + (m[i].value + ";"));
      }
      FlattenStep(m, i, flattened, text);
      flattened := flattened + text;
    }
  }

  lemma FlattenStep(m: Pairs, i: nat, before: string, text: string)
    requires i < |m|
    requires text == if i == |m| - 1 then m[i].key + ("=" + m[i].value) else m[i].key + ("=" + (m[i].value + ";"))
    ensures before + Flatten(m[i..]) == (before + text) + Flatten(m[i + 1..])
  {
    assert m[i..][1..] == m[i + 1..];
    var rest := Flatten(m[i + 1..]);
    if i == |m| - 1 {
      assert text + rest == text;
    } else {
      assert text + rest == m[i].key + ("=" + (m[i].value + (";" + rest)));
    }
    assert before + (text + rest) == (before + text) + rest;
  }

  class CameraParameters {
    var mMap: Pairs

    constructor ()
      ensures mMap == []
    {
      mMap := [];
    }

    method DoFlatten() returns (flattened: string)
      ensures flattened == Flatten(mMap)
    {
      flattened := FlattenLoop(mMap);
    }

    method DoUnflatten(params: string)
      modifies this
      ensures mMap == Apply(old(mMap), Load(params))
    {
      mMap := [];
      var a := params;
      while true
        invariant PutAll(mMap, ParsePairs(a)) == Unflatten(params)
        decreases |a|
      {
        var split := SplitPair(a);
        if split.None? {
          break;
        }
        PutAllCons(mMap, split.value.0, ParsePairs(split.value.1));
        mMap := Put(mMap, split.value.0);
        a := split.value.1;
      }
    }

    /** Null keys and values are ignored, as are those with a delimiter in them. */
    method DoSet(key: Option<string>, value: Option<string>)
      modifies this
      ensures mMap == if key.None? || value.None? then old(mMap) else Apply(old(mMap), Set(key.value, value.value))
    {
      if key.None? || value.None? {
        return;
      }
      FindIsFirst(key.value, '=');
      FindIsFirst(key.value, ';');
      FindIsFirst(value.value, '=');
      FindIsFirst(value.value, ';');
      if Find(key.value, '=').Some? || Find(key.value, ';').Some? {
        return;
      }
      if Find(value.value, '=').Some? || Find(value.value, ';').Some? {
        return;
      }
      mMap := Put(mMap, Pair(key.value, value.value));
    }

    method DoRemove(key: string)
      modifies this
      ensures mMap == Apply(old(mMap), Remove(key))
    {
      mMap := RemoveKey(mMap, key);
    }
  }

  class CameraParameters2 {
    var mList: Pairs

    constructor ()
      ensures mList == []
    {
      mList := [];
    }

    method DoFlatten() returns (flattened: string)
      ensures flattened == Flatten(mList)
    {
      flattened := FlattenLoop(mList);
    }

    method DoUnflatten(params: string)
      modifies this
      ensures mList == Apply2(old(mList), Load(params))
    {
      mList := [];
      var a := params;
      while true
        invariant mList + ParsePairs(a) == ParsePairs(params)
        decreases |a|
      {
        var split := SplitPair(a);
        if split.None? {
          NoMorePairs(mList, a);
          break;
        }
        ParseAppends(mList, a, split.value.0, split.value.1);
        mList := mList + [split.value.0];
        a := split.value.1;
      }
    }

    method DoSet(key: string, value: string)
      modifies this
      ensures mList == Apply2(old(mList), Set(key, value))
    {
      FindIsFirst(key, '=');
      FindIsFirst(key, ';');
      FindIsFirst(value, '=');
      FindIsFirst(value, ';');
      if Find(key, '=').Some? || Find(key, ';').Some? {
        return;
      }
      if Find(value, '=').Some? || Find(value, ';').Some? {
        return;
      }
      mList := RemoveKey(mList, key) + [Pair(key, value)];
    }

    method DoRemove(key: string)
      modifies this
      ensures mList == Apply2(old(mList), Remove(key))
    {
      mList := RemoveKey(mList, key);
    }
  }
}
