/**
 * Line wrapping in screenrecord's TextRenderer.  Widths are real numbers; strings
 * are C strings, so the drawing loop works on a NUL-terminated copy that it patches
 * and restores at every break.
 */
module TextWrap {
  import opened Common

  const NUM_GLYPHS := 95
  const FIRST_GLYPH_CHAR := 32
  const OUTLINE_WIDTH := 1
  const MAX_GLYPH_HEIGHT := 34.0

  /** Glyph widths, eight to a row. */
  const GLYPH_WIDTH: seq<seq<nat>> := [
    [8, 9, 10, 16, 16, 20, 18, 6],
    [10, 10, 13, 15, 8, 11, 9, 11],
    [16, 16, 16, 16, 16, 16, 16, 16],
    [16, 16, 9, 9, 14, 16, 14, 14],
    [23, 17, 17, 17, 18, 16, 16, 18],
    [19, 9, 16, 18, 15, 23, 19, 19],
    [18, 19, 18, 17, 17, 18, 17, 23],
    [17, 17, 16, 9, 12, 9, 13, 13],
    [10, 15, 16, 14, 16, 15, 11, 16],
    [16, 8, 8, 15, 8, 23, 16, 16],
    [16, 16, 11, 14, 10, 16, 14, 20],
    [14, 14, 14, 10, 8, 10, 18]]

  const WHITESPACE := " \t\n\r"

  /** The advance of the widest glyph, before scaling. */
  const MAX_ADVANCE := 21.0

  datatype Renderer = Renderer(
    scale: real, borderWidth: real, indentMult: real, screenWidth: nat, screenHeight: nat)

  /** The numbers one wrapped string is laid out with. */
  datatype Geometry = Geometry(
    scale: real, xpos: real, indentWidth: real, rightEdge: real, lineHeight: real, widestGlyph: real)

  function GeometryAt(r: Renderer, xpos: real): Geometry
  {
    Geometry(r.scale, xpos, r.indentMult * r.scale, r.screenWidth as real - r.borderWidth,
             MAX_GLYPH_HEIGHT * r.scale, MAX_ADVANCE * r.scale)
  }

  /** One call of drawString. */
  datatype Line = Line(x: real, y: real, text: string)

  function GlyphIndex(ch: char): (chi: nat)
    ensures chi < NUM_GLYPHS
  {
    var chi := ch as int - FIRST_GLYPH_CHAR;
    if 0 <= chi < NUM_GLYPHS then chi else '?' as int - FIRST_GLYPH_CHAR
  }

  /** Each printable character has a glyph of its own; every other is drawn as a question mark. */
  lemma GlyphsAreDistinct(a: char, b: char)
    ensures GlyphIndex(a) == GlyphIndex(b) <==>
            (if ' ' <= a <= '~' then a else '?') == (if ' ' <= b <= '~' then b else '?')
  {
  }

  function GlyphWidth(chi: nat): (w: int)
    requires chi < NUM_GLYPHS
    ensures 6 <= w <= 23
  {
    WidthTableRows(chi / 8);
    GLYPH_WIDTH[chi / 8][chi % 8]
  }

  lemma WidthTableRows(row: nat)
    requires row < 12
    ensures |GLYPH_WIDTH| == 12
    ensures |GLYPH_WIDTH[row]| == if row == 11 then 7 else 8
    ensures forall i :: 0 <= i < |GLYPH_WIDTH[row]| ==> 6 <= GLYPH_WIDTH[row][i] <= 23
  {
  }

  /** How far a glyph moves the pen. */
  function Advance(ch: char, scale: real): (a: real)
    requires scale > 0.0
    ensures 0.0 < a <= MAX_ADVANCE * scale
  {
    var units := GlyphWidth(GlyphIndex(ch)) as real - 1.0 - OUTLINE_WIDTH as real;
    Scaled(units, scale);
    units * scale
  }

  lemma Scaled(units: real, scale: real)
    requires scale > 0.0 && 4.0 <= units <= MAX_ADVANCE
    ensures 0.0 < units * scale <= MAX_ADVANCE * scale
  {
  }

  function Width(s: string, scale: real): real
    requires scale > 0.0
  {
    if s == "" then 0.0 else Width(s[..|s| - 1], scale) + Advance(s[|s| - 1], scale)
  }

  /** A shorter prefix is not wider. */
  lemma {:induction false} WidthMonotone(s: string, i: nat, j: nat, scale: real)
    requires i <= j <= |s| && scale > 0.0
    ensures Width(s[..i], scale) <= Width(s[..j], scale)
    decreases j
  {
    if i < j {
      WidthMonotone(s, i, j - 1, scale);
      assert s[..j][..j - 1] == s[..j - 1];
    }
  }

  /** A single glyph is no wider than the widest. */
  lemma OneGlyphWidth(s: string, scale: real)
    requires |s| >= 1 && scale > 0.0
    ensures Width(s[..1], scale) <= MAX_ADVANCE * scale
  {
    assert s[..1][..0] == "";
  }

  /** The summing loop over the first `len` characters. */
  method ComputeScaledStringWidth(str: string, len: nat, scale: real) returns (width: real)
    requires len <= |str| && scale > 0.0
    ensures width == Width(str[..len], scale)
  {
    width := 0.0;
    for i := 0 to len
      invariant width == Width(str[..i], scale)
    {
      assert str[..i + 1][..i] == str[..i];
      width := width + Advance(str[i], scale);
    }
  }

  /** strchr(kWhitespace, str[i]) finds something; like strchr it also finds the terminator. */
  predicate Breakable(str: string, i: nat)
    requires i <= |str|
  {
    i == |str| || str[i] in WHITESPACE
  }

  /** Where an unforced break would go: the longest proper prefix that fits, but at least one glyph. */
  ghost predicate IsFit(str: string, maxWidth: real, scale: real, good: nat)
    requires str != "" && scale > 0.0
  {
    && 1 <= good <= |str|
    && (good == |str| ==> good == 1)
    && (good == 1 || Width(str[..good], scale) < maxWidth)
    && (good + 1 < |str| ==> maxWidth <= Width(str[..good + 1], scale))
  }

  /** A break moved back to the last whitespace, if there is any after the first character. */
  ghost predicate IsBreak(str: string, maxWidth: real, scale: real, pos: nat)
    requires str != "" && scale > 0.0
  {
    exists good ::
      && IsFit(str, maxWidth, scale, good)
      && 1 <= pos <= good
      && (forall i :: pos < i <= good ==> !Breakable(str, i))
      && (Breakable(str, pos) || (pos == good && forall i :: 1 <= i <= good ==> !Breakable(str, i)))
  }

  method BreakString(str: string, maxWidth: real, scale: real) returns (brk: Option<nat>)
    requires scale > 0.0
    ensures brk.None? <==> str == "" || Width(str, scale) <= maxWidth
    ensures brk.Some? ==> IsBreak(str, maxWidth, scale, brk.value)
  {
    assert str[..|str|] == str;
    if |str| == 0 {
      return None;
    }
    var stringWidth := ComputeScaledStringWidth(str, |str|, scale);
    if stringWidth <= maxWidth {
      return None;
    }
    var goodPos := LongestFit(str, maxWidth, scale);
    var i := goodPos;
    while i > 0
      invariant 0 <= i <= goodPos
      invariant forall j :: i < j <= goodPos ==> !Breakable(str, j)
    {
      if Breakable(str, i) {
        return Some(i);
      }
      i := i - 1;
    }
    return Some(goodPos);
  }

  method LongestFit(str: string, maxWidth: real, scale: real) returns (goodPos: nat)
    requires str != "" && scale > 0.0
    ensures IsFit(str, maxWidth, scale, goodPos)
  {
    goodPos := 0;
    var i := 0;
    while i < |str|
      invariant i <= |str| && goodPos == if i == 0 then 0 else i - 1
      invariant forall j :: 0 <= j < i ==> Width(str[..j], scale) < maxWidth
    {
      var stringWidth := ComputeScaledStringWidth(str, i, scale);
      if stringWidth < maxWidth {
        goodPos := i;
      } else {
        break;
      }
      i := i + 1;
    }
    if goodPos == 0 {
      if 2 < |str| && i < |str| { WidthMonotone(str, i, 2, scale); }
      goodPos := 1;
    }
  }

  /** With room for the widest glyph, a break leaves something for the next line and its line fits. */
  lemma BreakFits(str: string, maxWidth: real, scale: real, pos: nat)
    requires str != "" && scale > 0.0 && MAX_ADVANCE * scale <= maxWidth < Width(str, scale)
    requires IsBreak(str, maxWidth, scale, pos)
    ensures pos < |str|
    ensures Width(str[..pos], scale) <= maxWidth
  {
    var good :| IsFit(str, maxWidth, scale, good) && 1 <= pos <= good;
    OneGlyphWidth(str, scale);
    WidthMonotone(str, pos, good, scale);
    assert str[..|str|] == str;
  }

  /** The C string starting at the head of `s`. */
  function CString(s: seq<char>): string
  {
    if s == [] || s[0] == '\0' then "" else [s[0]] + CString(s[1..])
  }

  lemma {:induction false} CStringStops(text: string, rest: seq<char>)
    requires '\0' !in text
    ensures CString(text + ['\0'] + rest) == text
  {
    var s := text + ['\0'] + rest;
    if text != "" {
      assert s[1..] == text[1..] + ['\0'] + rest;
      CStringStops(text[1..], rest);
    }
  }

  /** The lines with what was skipped after each, put back together. */
  ghost function Joined(lines: seq<Line>, skipped: seq<string>): string
    requires |lines| == |skipped|
  {
    if lines == [] then ""
    else
      var n := |lines| - 1;
      Joined(lines[..n], skipped[..n]) + lines[n].text + skipped[n]
  }

  lemma JoinedOne(lines: seq<Line>, skipped: seq<string>, line: Line, skip: string)
    requires |lines| == |skipped|
    ensures Joined(lines + [line], skipped + [skip]) == Joined(lines, skipped) + line.text + skip
  {
    assert (lines + [line])[..|lines|] == lines && (skipped + [skip])[..|skipped|] == skipped;
  }

  /** The usable width for text starting at x. */
  function LineWidth(g: Geometry, x: real): real
  {
    g.rightEdge - x
  }

  function LineX(g: Geometry, first: bool): real
  {
    if first then g.xpos else g.xpos + g.indentWidth
  }

  /** The widest glyph fits on the first line and on an indented one. */
  ghost predicate WideEnough(g: Geometry)
  {
    && g.widestGlyph == MAX_ADVANCE * g.scale
    && g.widestGlyph <= LineWidth(g, LineX(g, true))
    && g.widestGlyph <= LineWidth(g, LineX(g, false))
  }

  /** How drawn lines are laid out: first line, then indented ones below each other. */
  ghost predicate Layout(g: Geometry, ypos: real, lines: seq<Line>, next: real)
  {
    && (forall i :: 0 <= i < |lines| ==> lines[i].x == LineX(g, i == 0))
    && (lines != [] ==> lines[0].y == ypos && next == lines[|lines| - 1].y + g.lineHeight)
    && (lines == [] ==> next == ypos)
    && (forall i :: 1 <= i < |lines| ==> lines[i].y == lines[i - 1].y + g.lineHeight)
  }

  ghost predicate AllFit(g: Geometry, lines: seq<Line>)
    requires g.scale > 0.0
  {
    forall i :: 0 <= i < |lines| ==> Width(lines[i].text, g.scale) <= LineWidth(g, lines[i].x)
  }

  /** What a break may swallow: nothing, or one whitespace character. */
  ghost predicate AtMostOneSpace(skipped: seq<string>)
  {
    forall i :: 0 <= i < |skipped| ==>
      skipped[i] == "" || (|skipped[i]| == 1 && skipped[i][0] in WHITESPACE)
  }

  /** What is drawn once the text before `start` is used up. */
  datatype Progress = Progress(lines: seq<Line>, skipped: seq<string>, next: real)

  ghost predicate Drawn(g: Geometry, ypos: real, text: string, p: Progress)
    requires g.scale > 0.0
  {
    && |p.lines| == |p.skipped|
    && AtMostOneSpace(p.skipped)
    && Layout(g, ypos, p.lines, p.next)
    && (WideEnough(g) ==> AllFit(g, p.lines))
    && Joined(p.lines, p.skipped) == text
  }

  function AddLine(g: Geometry, p: Progress, text: string, skip: string): Progress
  {
    Progress(p.lines + [Line(LineX(g, p.lines == []), p.next, text)],
             p.skipped + [skip], p.next + g.lineHeight)
  }

  lemma DrawnOne(g: Geometry, ypos: real, before: string, p: Progress, text: string, skip: string)
    requires g.scale > 0.0 && Drawn(g, ypos, before, p)
    requires skip == "" || (|skip| == 1 && skip[0] in WHITESPACE)
    requires WideEnough(g) ==> Width(text, g.scale) <= LineWidth(g, LineX(g, p.lines == []))
    ensures Drawn(g, ypos, before + text + skip, AddLine(g, p, text, skip))
  {
    JoinedOne(p.lines, p.skipped, Line(LineX(g, p.lines == []), p.next, text), skip);
  }

  /** A line that holds all the text left after `before`, which fits it. */
  ghost predicate TakesRest(g: Geometry, str: string, before: string, line: Line, skip: string)
    requires g.scale > 0.0
  {
    && |before| <= |str| && line.text == str[|before|..] && skip == ""
    && (line.text == "" || Width(line.text, g.scale) <= LineWidth(g, line.x))
  }

  /** A line that ends at the greedy break of the text left after `before`, which does not fit it. */
  ghost predicate EndsAtBreak(g: Geometry, str: string, before: string, line: Line, skip: string)
    requires g.scale > 0.0
  {
    && |before| + |line.text| <= |str| && |before| < |str|
    && var rest, n, width := str[|before|..], |line.text|, LineWidth(g, line.x);
    && width < Width(rest, g.scale) && IsBreak(rest, width, g.scale, n)
    && line.text == rest[..n]
    && skip == if n < |rest| && rest[n] in WHITESPACE then [rest[n]] else ""
  }

  /** Every line ends at the greedy break of what was left, but for a last one that takes all of it. */
  ghost predicate Wrapped(g: Geometry, str: string, p: Progress, done: bool)
    requires g.scale > 0.0 && |p.lines| == |p.skipped|
  {
    && (done ==> p.lines != [])
    && forall i :: 0 <= i < |p.lines| ==> WrapsAt(g, str, p, i, done)
  }

  ghost predicate WrapsAt(g: Geometry, str: string, p: Progress, i: nat, done: bool)
    requires g.scale > 0.0 && i < |p.lines| == |p.skipped|
  {
    LineEnds(g, str, Joined(p.lines[..i], p.skipped[..i]), p.lines[i], p.skipped[i], done && i == |p.lines| - 1)
  }

  ghost predicate LineEnds(g: Geometry, str: string, before: string, line: Line, skip: string, last: bool)
    requires g.scale > 0.0
  {
    if last then TakesRest(g, str, before, line, skip) else EndsAtBreak(g, str, before, line, skip)
  }

  lemma WrappedOne(g: Geometry, str: string, p: Progress, text: string, skip: string, done: bool)
    requires g.scale > 0.0 && |p.lines| == |p.skipped| && Wrapped(g, str, p, false)
    requires LineEnds(g, str, Joined(p.lines, p.skipped), Line(LineX(g, p.lines == []), p.next, text), skip, done)
    ensures Wrapped(g, str, AddLine(g, p, text, skip), done)
  {
    var q, n := AddLine(g, p, text, skip), |p.lines|;
    forall i | 0 <= i <= n
      ensures WrapsAt(g, str, q, i, done)
    {
      assert q.lines[..i] == p.lines[..i] && q.skipped[..i] == p.skipped[..i];
      if i < n { assert WrapsAt(g, str, p, i, false); }
      if i == n { assert p.lines[..i] == p.lines && p.skipped[..i] == p.skipped; }
    }
  }

  /** Where the next line starts: past the break character if that is whitespace or the terminator. */
  function NextStart(str: string, brk: nat): nat
    requires brk <= |str|
  {
    if Breakable(str, brk) then brk + 1 else brk
  }

  /** The text skipped at a break. */
  function Skipped(str: string, brk: nat): string
    requires brk <= |str|
  {
    if NextStart(str, brk) <= |str| then str[brk..NextStart(str, brk)] else ""
  }

  lemma DrawnToEnd(g: Geometry, ypos: real, str: string, start: nat, p: Progress)
    requires g.scale > 0.0 && start <= |str| && Drawn(g, ypos, str[..start], p)
    requires str[start..] == "" || Width(str[start..], g.scale) <= LineWidth(g, LineX(g, p.lines == []))
    ensures Drawn(g, ypos, str, AddLine(g, p, str[start..], ""))
  {
    DrawnOne(g, ypos, str[..start], p, str[start..], "");
    assert str[..start] + str[start..] + "" == str;
  }

  /** The text up to a break, with what is skipped there, reaches to the next start or the end. */
  lemma SkippedAtBreak(str: string, start: nat, pos: nat)
    requires start + pos <= |str|
    ensures
      var from, skip := NextStart(str, start + pos), Skipped(str, start + pos);
      && str[..start] + str[start..start + pos] + skip == (if from <= |str| then str[..from] else str)
      && (skip == "" || (|skip| == 1 && skip[0] in WHITESPACE))
  {
    assert str[..start] + str[start..start + pos] == str[..start + pos];
  }

  /** Drawing up to a break and stepping over it uses up exactly the text before the new start. */
  lemma DrawnToBreak(g: Geometry, ypos: real, str: string, start: nat, p: Progress, pos: nat)
    requires g.scale > 0.0 && start < |str| && start + pos <= |str|
    requires Drawn(g, ypos, str[..start], p)
    requires var width := LineWidth(g, LineX(g, p.lines == []));
      width < Width(str[start..], g.scale) && IsBreak(str[start..], width, g.scale, pos)
    ensures
      var from := NextStart(str, start + pos);
      && (WideEnough(g) ==> from <= |str|)
      && Drawn(g, ypos, if from <= |str| then str[..from] else str,
               AddLine(g, p, str[start..start + pos], Skipped(str, start + pos)))
  {
    var text, width := str[start..], LineWidth(g, LineX(g, p.lines == []));
    if WideEnough(g) { BreakFits(text, width, g.scale, pos); }
    var line, skip := str[start..start + pos], Skipped(str, start + pos);
    assert text[..pos] == line;
    SkippedAtBreak(str, start, pos);
    DrawnOne(g, ypos, str[..start], p, line, skip);
  }

  /** How one turn of the breaking loop ends. */
  datatype Turn = Finished | Continue(from: nat) | Overrun

  /** The text's last character alone, on a line too narrow for it. */
  ghost predicate LastGlyphTooWide(g: Geometry, lines: seq<Line>)
    requires g.scale > 0.0
  {
    && lines != [] && |lines[|lines| - 1].text| == 1
    && LineWidth(g, lines[|lines| - 1].x) < Width(lines[|lines| - 1].text, g.scale)
  }

  /** What fits on the next line: everything left, or the text before a break. */
  ghost predicate Piece(str: string, start: nat, width: real, scale: real, brk: Option<nat>, line: string)
    requires start <= |str| && scale > 0.0
  {
    match brk
    case None => line == str[start..] && (line == "" || Width(line, scale) <= width)
    case Some(pos) =>
      && start < |str| && start + pos <= |str| && line == str[start..start + pos]
      && width < Width(str[start..], scale) && IsBreak(str[start..], width, scale, pos)
  }

  /** Takes the next line's text out of the working copy, which is left as it was. */
  method NextPiece(mangle: array<char>, str: string, start: nat, width: real, scale: real)
    returns (brk: Option<nat>, line: string)
    requires scale > 0.0 && '\0' !in str
    requires mangle[..] == str + ['\0'] && start <= |str|
    modifies mangle
    ensures mangle[..] == str + ['\0']
    ensures Piece(str, start, width, scale, brk, line)
  {
    line := StringAt(mangle, str, start);
    brk := BreakString(line, width, scale);
    if brk.Some? {
      assert line != "";
      ghost var good :| IsFit(line, width, scale, good) && 1 <= brk.value <= good;
      line := Patched(mangle, str, start, brk.value);
    }
  }

  /** How one turn of the loop ends, given where it broke. */
  function TurnAt(str: string, start: nat, brk: Option<nat>): Turn
    requires brk.Some? ==> start + brk.value <= |str|
  {
    if brk.None? then Finished
    else
      var from := NextStart(str, start + brk.value);
      if from <= |str| then Continue(from) else Overrun
  }

  lemma OverrunIsNarrow(str: string, width: real, scale: real, pos: nat)
    requires str != "" && scale > 0.0 && width < Width(str, scale)
    requires IsBreak(str, width, scale, pos) && pos == |str|
    ensures |str| == 1
  {
  }

  function SkippedAt(str: string, start: nat, brk: Option<nat>): string
    requires brk.Some? ==> start + brk.value <= |str|
  {
    if brk.None? then "" else Skipped(str, start + brk.value)
  }

  /** What a turn has drawn. */
  function DrawnLine(g: Geometry, p: Progress, str: string, start: nat, brk: Option<nat>, line: string): Progress
    requires brk.Some? ==> start + brk.value <= |str|
  {
    AddLine(g, p, line, SkippedAt(str, start, brk))
  }

  lemma TurnDraws(g: Geometry, ypos: real, str: string, start: nat, p: Progress, brk: Option<nat>, line: string)
    requires g.scale > 0.0 && start <= |str|
    requires Drawn(g, ypos, str[..start], p)
    requires Piece(str, start, LineWidth(g, LineX(g, p.lines == [])), g.scale, brk, line)
    ensures
      var turn, q := TurnAt(str, start, brk), DrawnLine(g, p, str, start, brk, line);
      && Drawn(g, ypos, if turn.Continue? then str[..turn.from] else str, q)
      && (turn.Overrun? ==> !WideEnough(g))
  {
    if brk.None? {
      DrawnToEnd(g, ypos, str, start, p);
    } else {
      DrawnToBreak(g, ypos, str, start, p, brk.value);
    }
  }

  lemma PieceEnds(g: Geometry, str: string, before: string, line: Line, brk: Option<nat>)
    requires g.scale > 0.0 && |before| <= |str|
    requires Piece(str, |before|, LineWidth(g, line.x), g.scale, brk, line.text)
    ensures LineEnds(g, str, before, line, SkippedAt(str, |before|, brk), brk.None?)
  {
    if brk.Some? {
      var start, pos := |before|, brk.value;
      assert str[start..][..pos] == line.text;
      if start + pos < |str| {
        assert str[start..][pos] == str[start + pos];
        assert str[start + pos..start + pos + 1] == [str[start + pos]];
        assert str[start + pos..start + pos] == "";
      }
    }
  }

  lemma TurnWraps(g: Geometry, str: string, start: nat, p: Progress, brk: Option<nat>, line: string)
    requires g.scale > 0.0 && start <= |str| && |p.lines| == |p.skipped|
    requires Joined(p.lines, p.skipped) == str[..start] && Wrapped(g, str, p, false)
    requires Piece(str, start, LineWidth(g, LineX(g, p.lines == [])), g.scale, brk, line)
    ensures Wrapped(g, str, DrawnLine(g, p, str, start, brk, line), brk.None?)
  {
    PieceEnds(g, str, str[..start], Line(LineX(g, p.lines == []), p.next, line), brk);
    WrappedOne(g, str, p, line, SkippedAt(str, start, brk), brk.None?);
  }

  lemma TurnMoves(g: Geometry, str: string, start: nat, p: Progress, brk: Option<nat>, line: string)
    requires g.scale > 0.0 && start <= |str|
    requires Piece(str, start, LineWidth(g, LineX(g, p.lines == [])), g.scale, brk, line)
    ensures
      var turn, q := TurnAt(str, start, brk), DrawnLine(g, p, str, start, brk, line);
      && (turn.Continue? ==> start < turn.from <= |str|)
      && (turn.Overrun? ==> LastGlyphTooWide(g, q.lines))
  {
    if brk.Some? && start + brk.value == |str| {
      var text := str[start..];
      assert line == text;
      OverrunIsNarrow(text, LineWidth(g, LineX(g, p.lines == [])), g.scale, brk.value);
    }
  }

  /** The text's last character is not whitespace. */
  ghost predicate EndsInInk(str: string)
  {
    str != "" && str[|str| - 1] !in WHITESPACE
  }

  /** The text ends in exactly one whitespace character, after some other. */
  ghost predicate EndsInOneSpace(str: string)
  {
    |str| >= 2 && str[|str| - 1] in WHITESPACE && str[|str| - 2] !in WHITESPACE
  }

  /** What a turn that starts at `start` says about the text left there. */
  ghost predicate Outcome(g: Geometry, str: string, start: nat, turn: Turn)
    requires g.scale > 0.0 && start <= |str|
  {
    var width, text := LineWidth(g, LineX(g, start == 0)), str[start..];
    match turn
    case Finished => text == "" || Width(text, g.scale) <= width
    case Continue(from) =>
      && width < Width(text, g.scale)
      && (EndsInInk(str) ==> from < |str|)
      && (EndsInOneSpace(str) ==> from != |str| - 1)
      && |str| >= 2
    case Overrun => start + 1 == |str| && width < Width(text, g.scale)
  }

  /** A last character other than whitespace is not skipped, and a single last whitespace is not started at. */
  lemma NextStartAtEnd(str: string, brk: nat)
    requires brk <= |str|
    ensures EndsInInk(str) && brk < |str| ==> NextStart(str, brk) < |str|
    ensures EndsInOneSpace(str) ==> NextStart(str, brk) != |str| - 1
  {
  }

  /** A text of several characters breaks before its last; only whitespace there would be skipped. */
  lemma BreakBeforeLast(str: string, start: nat, width: real, scale: real, pos: nat)
    requires start < |str| && scale > 0.0 && IsBreak(str[start..], width, scale, pos)
    ensures 1 <= pos && start + pos <= |str| && (start + pos == |str| ==> start + 1 == |str|)
    ensures EndsInInk(str) && start + pos < |str| ==> NextStart(str, start + pos) < |str|
    ensures EndsInOneSpace(str) ==> NextStart(str, start + pos) != |str| - 1
  {
    var text := str[start..];
    var good :| IsFit(text, width, scale, good) && 1 <= pos <= good;
    NextStartAtEnd(str, start + pos);
  }

  lemma TurnOutcome(g: Geometry, str: string, start: nat, brk: Option<nat>, line: string)
    requires g.scale > 0.0 && start <= |str|
    requires Piece(str, start, LineWidth(g, LineX(g, start == 0)), g.scale, brk, line)
    ensures Outcome(g, str, start, TurnAt(str, start, brk))
  {
    if brk.Some? {
      BreakBeforeLast(str, start, LineWidth(g, LineX(g, start == 0)), g.scale, brk.value);
    }
  }

  /** One turn of the loop. */
  method DrawNextLine(g: Geometry, ghost ypos: real, mangle: array<char>, str: string, start: nat, p: Progress)
    returns (turn: Turn, p': Progress)
    requires g.scale > 0.0 && '\0' !in str
    requires mangle[..] == str + ['\0'] && start <= |str| && (start == 0 <==> p.lines == [])
    requires Drawn(g, ypos, str[..start], p) && Wrapped(g, str, p, false)
    modifies mangle
    ensures mangle[..] == str + ['\0']
    ensures p'.lines != []
    ensures turn.Continue? ==> start < turn.from <= |str| && Drawn(g, ypos, str[..turn.from], p')
    ensures !turn.Continue? ==> Drawn(g, ypos, str, p')
    ensures turn.Overrun? ==> !WideEnough(g) && LastGlyphTooWide(g, p'.lines)
    ensures Outcome(g, str, start, turn)
    ensures |p'.lines| == |p'.skipped| && Wrapped(g, str, p', turn == Finished)
  {
    var xposAdj := LineX(g, start == 0);
    var brk, line := NextPiece(mangle, str, start, LineWidth(g, xposAdj), g.scale);
    TurnDraws(g, ypos, str, start, p, brk, line);
    TurnWraps(g, str, start, p, brk, line);
    TurnMoves(g, str, start, p, brk, line);
    TurnOutcome(g, str, start, brk, line);
    turn := TurnAt(str, start, brk);
    p' := DrawnLine(g, p, str, start, brk, line);
  }

  /** The whole text fits the first line, or its last character fits a continuation line. */
  ghost predicate LastFits(g: Geometry, str: string)
    requires g.scale > 0.0
  {
    || str == ""
    || Width(str, g.scale) <= LineWidth(g, LineX(g, true))
    || (|str| >= 2 && Advance(str[|str| - 1], g.scale) <= LineWidth(g, LineX(g, false)))
  }

  lemma OneCharacter(str: string, start: nat, scale: real)
    requires start + 1 == |str| && scale > 0.0
    ensures Width(str[start..], scale) == Advance(str[start], scale)
  {
    assert str[start..] == [str[start]] && [str[start]][..0] == "";
  }

  /** A text is at least as wide as its last character. */
  lemma LastWithin(str: string, start: nat, scale: real)
    requires start < |str| && scale > 0.0
    ensures Advance(str[|str| - 1], scale) <= Width(str[start..], scale)
  {
    var text := str[start..];
    var n := |text| - 1;
    WidthMonotone(text, 0, n, scale);
    assert text[..0] == "";
  }

  /** The loop has gone past the first line only because the text did not fit it. */
  ghost predicate Underway(g: Geometry, str: string, start: nat)
    requires g.scale > 0.0
  {
    && start <= |str|
    && (start > 0 ==> LineWidth(g, LineX(g, true)) < Width(str, g.scale))
    && (start > 0 && EndsInInk(str) ==> start < |str|)
    && (EndsInOneSpace(str) ==> start != |str| - 1)
    && (|str| == 1 ==> start == 0)
  }

  lemma UnderwayNext(g: Geometry, str: string, start: nat, from: nat)
    requires g.scale > 0.0 && Underway(g, str, start) && from <= |str|
    requires Outcome(g, str, start, Continue(from))
    ensures Underway(g, str, from)
  {
    assert str[0..] == str;
  }

  lemma FinishedMeansFits(g: Geometry, str: string, start: nat)
    requires g.scale > 0.0 && Underway(g, str, start) && Outcome(g, str, start, Finished)
    ensures EndsInInk(str) || |str| == 1 ==> LastFits(g, str)
  {
    assert str[0..] == str;
    if EndsInInk(str) && start > 0 { LastWithin(str, start, g.scale); }
  }

  lemma OverrunMeansTooWide(g: Geometry, str: string, start: nat)
    requires g.scale > 0.0 && Underway(g, str, start) && Outcome(g, str, start, Overrun)
    ensures !LastFits(g, str) && !EndsInOneSpace(str)
  {
    assert str[0..] == str;
    OneCharacter(str, start, g.scale);
  }

  /**
   * The breaking loop: it breaks greedily until the rest fits; `ok` is false when it would
   * step past the terminator.  A text that does not end in whitespace, or is one character,
   * gets there exactly when neither the whole fits the first line nor its last character a
   * continuation line; one that ends in a single whitespace character after another never
   * does; other texts only under the former condition.
   */
  method DrawBroken(g: Geometry, ypos: real, str: string) returns (ok: bool, p: Progress)
    requires g.scale > 0.0 && '\0' !in str
    ensures Drawn(g, ypos, str, p) && Wrapped(g, str, p, ok)
    ensures WideEnough(g) ==> ok
    ensures !ok ==> LastGlyphTooWide(g, p.lines)
    ensures LastFits(g, str) ==> ok
    ensures EndsInInk(str) || |str| == 1 ==> (ok <==> LastFits(g, str))
    ensures EndsInOneSpace(str) ==> ok
  {
    p := Progress([], [], ypos);
    var mangle := new char[|str| + 1](i requires 0 <= i <= |str| => if i < |str| then str[i] else '\0');
    assert mangle[..] == str + ['\0'];
    var start := 0;
    while true
      invariant mangle[..] == str + ['\0'] && start <= |str|
      invariant start == 0 <==> p.lines == []
      invariant Drawn(g, ypos, str[..start], p) && Wrapped(g, str, p, false)
      invariant Underway(g, str, start)
      decreases |str| - start
    {
      var turn;
      turn, p := DrawNextLine(g, ypos, mangle, str, start, p);
      match turn {
        case Finished =>
          FinishedMeansFits(g, str, start);
          return true, p;
        case Overrun =>
          OverrunMeansTooWide(g, str, start);
          return false, p;
        case Continue(from) =>
          UnderwayNext(g, str, start, from);
          start := from;
      }
    }
  }

  /** A text on which the loop steps past the terminator: one glyph wider than the line. */
  lemma OverrunHappens()
    ensures
      var g := Geometry(1.0, 0.0, 0.0, 10.0, MAX_GLYPH_HEIGHT, MAX_ADVANCE);
      EndsInInk("@") && !LastFits(g, "@") && IsBreak("@", 10.0, 1.0, 1) && TurnAt("@", 0, Some(1)) == Overrun
  {
    var g := Geometry(1.0, 0.0, 0.0, 10.0, MAX_GLYPH_HEIGHT, MAX_ADVANCE);
    assert GlyphIndex('@') == 32;
    WidthTableRows(4);
    assert GlyphWidth(32) == 23;
    OneCharacter("@", 0, 1.0);
    assert "@"[0..] == "@";
    assert IsFit("@", 10.0, 1.0, 1);
  }

  /** Draws text at a position, wrapping it; returns the vertical position below it. */
  method DrawWrappedString(r: Renderer, xpos0: real, ypos0: real, str: string)
    returns (ok: bool, p: Progress)
    requires r.scale > 0.0 && '\0' !in str
    ensures
      var g := GeometryAt(r, Max(xpos0, r.borderWidth));
      var ypos := Max(ypos0, r.borderWidth);
      if r.screenWidth == 0 || r.screenHeight == 0 then
        ok && p == Progress([], [], ypos0)
      else if LineWidth(g, g.xpos) < 1.0 then
        ok && p == Progress([], [], ypos)
      else
        && Drawn(g, ypos, str, p) && Wrapped(g, str, p, ok)
        && (WideEnough(g) || LastFits(g, str) || EndsInOneSpace(str) ==> ok)
        && (EndsInInk(str) || |str| == 1 ==> (ok <==> LastFits(g, str)))
  {
    if r.screenWidth == 0 || r.screenHeight == 0 {
      return true, Progress([], [], ypos0);
    }
    var g := GeometryAt(r, Max(xpos0, r.borderWidth));
    ok, p := DrawFrom(g, Max(ypos0, r.borderWidth), str);
  }

  method DrawFrom(g: Geometry, ypos: real, str: string)
    returns (ok: bool, p: Progress)
    requires g.scale > 0.0 && '\0' !in str
    ensures
      if LineWidth(g, g.xpos) < 1.0 then
        ok && p == Progress([], [], ypos)
      else
        && Drawn(g, ypos, str, p) && Wrapped(g, str, p, ok)
        && (WideEnough(g) || LastFits(g, str) || EndsInOneSpace(str) ==> ok)
        && (EndsInInk(str) || |str| == 1 ==> (ok <==> LastFits(g, str)))
  {
    var available := LineWidth(g, g.xpos);
    var maxWidth := if available < 0.0 then 0 else available.Floor;
    if maxWidth < 1 {
      return true, Progress([], [], ypos);
    }
    var stringWidth := ComputeScaledStringWidth(str, |str|, g.scale);
    assert str[..|str|] == str;
    if stringWidth <= maxWidth as real {
      DrawnOne(g, ypos, "", Progress([], [], ypos), str, "");
      assert "" + str + "" == str;
      WrappedOne(g, str, Progress([], [], ypos), str, "", true);
      return true, AddLine(g, Progress([], [], ypos), str, "");
    }
    ok, p := DrawBroken(g, ypos, str);
  }

  function Max(a: real, b: real): real
  {
    if a < b then b else a
  }

  /** String8(start): the C string in the working copy. */
  method StringAt(mangle: array<char>, str: string, start: nat) returns (text: string)
    requires mangle[..] == str + ['\0'] && '\0' !in str && start <= |str|
    ensures text == str[start..]
  {
    text := CString(mangle[start..]);
    assert mangle[start..] == str[start..] + ['\0'] + [];
    CStringStops(str[start..], []);
  }

  /** Cuts the copy at the break, takes the string before it, and puts the character back. */
  method Patched(mangle: array<char>, str: string, start: nat, pos: nat) returns (line: string)
    requires mangle[..] == str + ['\0'] && '\0' !in str && start + pos <= |str|
    modifies mangle
    ensures mangle[..] == str + ['\0']
    ensures line == str[start..start + pos]
  {
    var ch := mangle[start + pos];
    mangle[start + pos] := '\0';
    line := CString(mangle[start..]);
    ghost var piece := str[start..start + pos];
    assert mangle[start..] == piece + ['\0'] + mangle[start + pos + 1..];
    CStringStops(piece, mangle[start + pos + 1..]);
    mangle[start + pos] := ch;
    assert mangle[..] == str + ['\0'];
  }
}
