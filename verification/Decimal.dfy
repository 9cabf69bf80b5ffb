/** printf("%d") and strtol, and the pair and list formats built from them. */
module Decimal {
  import opened Common

  const INT32_MIN := -0x8000_0000
  const INT32_MAX := 0x7fff_ffff
  const LONG_MIN := -0x8000_0000_0000_0000
  const LONG_MAX := 0x7fff_ffff_ffff_ffff

  type int32 = x: int | INT32_MIN <= x <= INT32_MAX

  // Printing

  function DigitChar(d: nat): char
    requires d < 10
  {
    '0' + d as char
  }

  function Digits(n: nat): (s: string)
    ensures s != ""
  {
    if n < 10 then [DigitChar(n)] else Digits(n / 10) + [DigitChar(n % 10)]
  }

  /** "%d" */
  function PrintInt(n: int): string
  {
    if n < 0 then "-" + Digits(-n) else Digits(n)
  }

  // Parsing

  /** The value of a digit in any base up to 36; 36 for anything else. */
  function DigitValue(c: char): nat
  {
    if '0' <= c <= '9' then c as int - '0' as int
    else if 'a' <= c <= 'z' then c as int - 'a' as int + 10
    else if 'A' <= c <= 'Z' then c as int - 'A' as int + 10
    else 36
  }

  /** How many characters at the start are digits of the base. */
  function LeadingDigits(s: string, base: nat): (n: nat)
    ensures n <= |s|
    ensures forall i :: 0 <= i < n ==> DigitValue(s[i]) < base
    ensures n < |s| ==> DigitValue(s[n]) >= base
  {
    if s == "" || DigitValue(s[0]) >= base then 0 else 1 + LeadingDigits(s[1..], base)
  }

  function Value(s: string, base: nat): nat
  {
    if s == "" then 0 else Value(s[..|s| - 1], base) * base + DigitValue(s[|s| - 1])
  }

  function SkipSpace(s: string): (r: string)
    ensures |r| <= |s|
  {
    if s != "" && (s[0] == ' ' || '\t' <= s[0] <= '\r') then SkipSpace(s[1..]) else s
  }

  function Clamp(n: int): int
  {
    if n < LONG_MIN then LONG_MIN else if n > LONG_MAX then LONG_MAX else n
  }

  /** The base strtol uses for unsigned text, and the text after any 0x prefix. */
  function EffectiveBase(s: string, base: nat): (r: (nat, string))
    ensures |r.1| <= |s|
  {
    if (base == 0 || base == 16) && |s| >= 3 && s[0] == '0' && (s[1] == 'x' || s[1] == 'X') && DigitValue(s[2]) < 16
    then (16, s[2..])
    else if base == 0 then (if s != "" && s[0] == '0' then 8 else 10, s)
    else (base, s)
  }

  /** Unsigned digits with any base prefix: their value and what follows, if there are any. */
  function ReadMagnitude(s: string, base: nat): (r: Option<(nat, string)>)
    ensures r.Some? ==> |r.value.1| < |s|
  {
    var (b, v) := EffectiveBase(s, base);
    var n := LeadingDigits(v, b);
    if n == 0 then None else Some((Value(v[..n], b), v[n..]))
  }

  /** strtol: the value, saturated to a long, and the text after the number; all the text if there is none. */
  function Strtol(s: string, base: nat): (r: (int, string))
    ensures |r.1| <= |s|
  {
    var t := SkipSpace(s);
    var signed := t != "" && (t[0] == '-' || t[0] == '+');
    match ReadMagnitude(if signed then t[1..] else t, base)
    case None => (0, s)
    case Some((value, rest)) => (Clamp(if signed && t[0] == '-' then -(value as int) else value), rest)
  }

  /** The conversion of a long to an int. */
  function ToInt32(n: int): (r: int32)
    ensures INT32_MIN <= n <= INT32_MAX ==> r == n
  {
    var m := n % 0x1_0000_0000;
    if m > INT32_MAX then m - 0x1_0000_0000 else m
  }

  lemma DigitCharValue(d: nat)
    requires d < 10
    ensures DigitValue(DigitChar(d)) == d && '0' <= DigitChar(d) <= '9'
  {
  }

  lemma {:induction false} DigitsAreDigits(n: nat)
    ensures forall i :: 0 <= i < |Digits(n)| ==> '0' <= Digits(n)[i] <= '9' && DigitValue(Digits(n)[i]) < 10
    decreases n
  {
    if n >= 10 {
      DigitsAreDigits(n / 10);
      DigitCharValue(n % 10);
    } else {
      DigitCharValue(n);
    }
  }

  lemma {:induction false} DigitsValue(n: nat)
    ensures Value(Digits(n), 10) == n
    decreases n
  {
    if n < 10 {
      DigitCharValue(n);
      assert Digits(n)[..0] == "";
    } else {
      var front := Digits(n / 10);
      DigitsValue(n / 10);
      DigitCharValue(n % 10);
      assert (front + [DigitChar(n % 10)])[..|front|] == front;
    }
  }

  lemma {:induction false} LeadingDigitsStop(s: string, rest: string, base: nat)
    requires forall i :: 0 <= i < |s| ==> DigitValue(s[i]) < base
    requires rest == "" || DigitValue(rest[0]) >= base
    ensures LeadingDigits(s + rest, base) == |s|
    decreases |s|
  {
    if s == "" {
      assert s + rest == rest;
    } else {
      assert (s + rest)[1..] == s[1..] + rest;
      LeadingDigitsStop(s[1..], rest, base);
    }
  }

  /** Only zero prints with a leading zero, and it prints as that alone. */
  lemma {:induction false} FirstDigit(n: nat)
    ensures Digits(n)[0] == '0' <==> n == 0
    ensures n == 0 ==> Digits(n) == "0"
    decreases n
  {
    if n >= 10 { FirstDigit(n / 10); }
  }

  /** What may follow a printed int without being read as part of it. */
  predicate Ends(rest: string, base: nat)
  {
    rest == "" || (DigitValue(rest[0]) >= 10 && (base == 10 || rest[0] !in "xX"))
  }

  /** A printed natural, read in base 10 or in the detected base. */
  lemma DigitsRead(n: nat, rest: string, base: nat)
    requires (base == 10 || base == 0) && Ends(rest, base)
    ensures ReadMagnitude(Digits(n) + rest, base) == Some((n, rest))
  {
    var d := Digits(n);
    DigitsAreDigits(n);
    FirstDigit(n);
    if base == 0 && n == 0 {
      LeadingDigitsStop("0", rest, 8);
      assert ("0" + rest)[..1] == "0" && ("0" + rest)[1..] == rest;
      assert "0"[..0] == "";
    } else {
      LeadingDigitsStop(d, rest, 10);
      DigitsValue(n);
      assert (d + rest)[..|d|] == d && (d + rest)[|d|..] == rest;
    }
  }

  lemma SignedRead(s: string, n: nat, rest: string, base: nat)
    requires s != "" && '0' <= s[0] <= '9' && ReadMagnitude(s, base) == Some((n, rest))
    ensures Strtol(s, base) == (Clamp(n), rest)
    ensures Strtol("-" + s, base) == (Clamp(-(n as int)), rest)
  {
    assert ("-" + s)[1..] == s;
  }

  lemma NaturalRead(m: nat, rest: string, base: nat)
    requires (base == 10 || base == 0) && Ends(rest, base) && m <= LONG_MAX
    ensures Strtol(Digits(m) + rest, base) == (m, rest)
    ensures Strtol("-" + (Digits(m) + rest), base) == (-(m as int), rest)
  {
    DigitsRead(m, rest, base);
    assert '0' <= Digits(m)[0] <= '9' by { DigitsAreDigits(m); }
    SignedRead(Digits(m) + rest, m, rest, base);
  }

  /** A printed int is read back, up to whatever non-digit follows it. */
  lemma PrintedIntRead(n: int32, rest: string, base: nat)
    requires (base == 10 || base == 0) && Ends(rest, base)
    ensures Strtol(PrintInt(n) + rest, base) == (n, rest)
  {
    var value: int := n;
    if value < 0 {
      NegativeRead(-value, rest, base);
    } else {
      NaturalRead(value, rest, base);
    }
  }

  lemma NegativeRead(m: nat, rest: string, base: nat)
    requires (base == 10 || base == 0) && Ends(rest, base) && m <= LONG_MAX
    ensures Strtol(("-" + Digits(m)) + rest, base) == (-(m as int), rest)
  {
    Assoc("-", Digits(m), rest);
    NaturalRead(m, rest, base);
  }

  lemma Assoc(a: string, b: string, c: string)
    ensures (a + b) + c == a + (b + c)
  {
  }

  // Pairs and lists

  /** "%dx%d" or "%d,%d" */
  function PrintPair(first: int, second: int, delim: char): string
  {
    PrintInt(first) + ([delim] + PrintInt(second))
  }

  /** parse_pair: the two values and what follows, or nothing if the delimiter is not where it should be. */
  function ParsePair(s: string, delim: char): (r: Option<(int32, int32, string)>)
    ensures r.Some? ==> |r.value.2| < |s|
  {
    var (w, end) := Strtol(s, 10);
    if end == "" || end[0] != delim then None
    else
      var (h, rest) := Strtol(end[1..], 10);
      Some((ToInt32(w), ToInt32(h), rest))
  }

  lemma PairReadBack(first: int32, second: int32, delim: char, rest: string)
    requires DigitValue(delim) >= 10 && Ends(rest, 10)
    ensures ParsePair(PrintPair(first, second, delim) + rest, delim) == Some((first, second, rest))
  {
    var after := [delim] + PrintInt(second) + rest;
    PairShape(PrintInt(first), [delim], PrintInt(second), rest);
    PrintedIntRead(first, after, 10);
    PrintedIntRead(second, rest, 10);
  }

  lemma PairShape(first: string, delim: string, second: string, rest: string)
    requires |delim| == 1
    ensures first + (delim + second) + rest == first + (delim + second + rest)
    ensures (delim + second + rest)[1..] == second + rest && (delim + second + rest)[0] == delim[0]
  {
    assert delim + second + rest == delim + (second + rest);
  }

  datatype Size = Size(width: int32, height: int32)

  /** Sizes joined by commas. */
  function PrintSizes(sizes: seq<Size>): string
  {
    if sizes == [] then ""
    else if |sizes| == 1 then PrintPair(sizes[0].width, sizes[0].height, 'x')
    else PrintPair(sizes[0].width, sizes[0].height, 'x') + ("," + PrintSizes(sizes[1..]))
  }

  /** What parseSizesList adds to its list: everything before the first malformed item. */
  function ParseSizes(s: string): seq<Size>
    decreases |s|
  {
    match ParsePair(s, 'x')
    case None => []
    case Some((w, h, rest)) =>
      if rest == "" then [Size(w, h)]
      else if rest[0] != ',' then []
      else [Size(w, h)] + ParseSizes(rest[1..])
  }

  /** parseSizesList, whose loop ends because each pair takes it past a delimiter. */
  method ParseSizesList(sizesStr: Option<string>) returns (sizes: seq<Size>)
    ensures sizes == if sizesStr.None? then [] else ParseSizes(sizesStr.value)
  {
    sizes := [];
    if sizesStr.None? {
      return;
    }
    var rest := sizesStr.value;
    while true
      invariant sizes + ParseSizes(rest) == ParseSizes(sizesStr.value)
      decreases |rest|
    {
      var pair := ParsePair(rest, 'x');
      if pair.None? || (pair.value.2 != "" && pair.value.2[0] != ',') {
        return;
      }
      var (w, h, after) := pair.value;
      if after == "" {
        return sizes + [Size(w, h)];
      }
      assert sizes + ([Size(w, h)] + ParseSizes(after[1..])) == (sizes + [Size(w, h)]) + ParseSizes(after[1..]);
      sizes, rest := sizes + [Size(w, h)], after[1..];
    }
  }

  lemma OneSizeRead(size: Size, rest: string)
    requires Ends(rest, 10)
    ensures ParseSizes(PrintPair(size.width, size.height, 'x') + rest)
         == if rest == "" then [size] else if rest[0] == ',' then [size] + ParseSizes(rest[1..]) else []
  {
    PairReadBack(size.width, size.height, 'x', rest);
  }

  /** What is read of printed sizes with some text behind them. */
  ghost function ReadOn(sizes: seq<Size>, rest: string): seq<Size>
    requires sizes != []
  {
    if rest == "" then sizes
    else if rest[0] == ',' then sizes + ParseSizes(rest[1..])
    else sizes[..|sizes| - 1]
  }

  lemma ReadOnCons(sizes: seq<Size>, rest: string)
    requires |sizes| > 1
    ensures [sizes[0]] + ReadOn(sizes[1..], rest) == ReadOn(sizes, rest)
  {
  }

  lemma PrintedCons(sizes: seq<Size>, rest: string)
    requires |sizes| > 1
    ensures PrintSizes(sizes) + rest
         == PrintPair(sizes[0].width, sizes[0].height, 'x') + ("," + (PrintSizes(sizes[1..]) + rest))
  {
  }

  /**
   * Printed sizes with any text behind them are read back, and then the text after a comma
   * is; behind anything else nothing is read, nor is the size just before it.
   */
  lemma {:induction false} SizesReadThenRest(sizes: seq<Size>, rest: string)
    requires sizes != [] && Ends(rest, 10)
    ensures ParseSizes(PrintSizes(sizes) + rest) == ReadOn(sizes, rest)
    decreases |sizes|
  {
    if |sizes| == 1 {
      assert sizes == [sizes[0]];
      OneSizeRead(sizes[0], rest);
    } else {
      var after := PrintSizes(sizes[1..]) + rest;
      assert ("," + after)[1..] == after;
      PrintedCons(sizes, rest);
      OneSizeRead(sizes[0], "," + after);
      SizesReadThenRest(sizes[1..], rest);
      ReadOnCons(sizes, rest);
    }
  }

  /** A printed list of sizes is read back. */
  lemma SizesReadBack(sizes: seq<Size>)
    ensures ParseSizes(PrintSizes(sizes)) == sizes
  {
    if sizes != [] {
      SizesReadThenRest(sizes, "");
      assert PrintSizes(sizes) + "" == PrintSizes(sizes);
    }
  }

  lemma {:induction false} SkipSpaceWithin(s: string, c: char)
    requires c !in s
    ensures c !in SkipSpace(s)
    decreases |s|
  {
    if s != "" && (s[0] == ' ' || '\t' <= s[0] <= '\r') {
      SkipSpaceWithin(s[1..], c);
    }
  }

  lemma StrtolWithin(s: string, base: nat, c: char)
    requires c !in s
    ensures c !in Strtol(s, base).1
  {
    SkipSpaceWithin(s, c);
  }

  /** Without its delimiter a text is no pair. */
  lemma NoDelimiterNoPair(s: string, delim: char)
    requires delim !in s
    ensures ParsePair(s, delim).None?
  {
    StrtolWithin(s, 10, delim);
  }

  /** Reading stops at the first item that is no size, keeping those before it. */
  lemma SizesBeforeMalformed(sizes: seq<Size>, bad: string)
    requires sizes != [] && 'x' !in bad
    ensures ParseSizes(PrintSizes(sizes) + ("," + bad)) == sizes
  {
    NoDelimiterNoPair(bad, 'x');
    assert ("," + bad)[1..] == bad;
    SizesReadThenRest(sizes, "," + bad);
  }
}
