/** The word wrapper of the help output. The loops of spacePrint are proved
    against a description of the layout, and the layout is proved to fit the
    width, to lose nothing and to be the only one. */
module Wrap {

  // s[p] as the C++ string gives it, with the terminator at position |s|.
  function At(s: string, p: nat): char
    requires p <= |s|
  {
    if p < |s| then s[p] else '\0'
  }

  predicate BreakAt(s: string, p: nat)
    requires p <= |s|
  {
    At(s, p) == ' ' || At(s, p) == ',' || At(s, p) == '|'
  }

  // How far the words of a line reach from `start`: to the end of the text if
  // it fits, else to the last break that fits, else to the full width.
  ghost predicate WordsEnd(s: string, start: nat, allowed: nat, m: nat)
    requires start <= |s|
  {
    if |s| - start < allowed then m == |s| - start
    else
      && 1 <= m <= allowed
      && (forall p :: start + m < p <= start + allowed ==> !BreakAt(s, p))
      && (BreakAt(s, start + m)
          || (m == allowed && forall p :: start < p <= start + allowed ==> !BreakAt(s, p)))
  }

  // The line of length n that begins at `start`: the words, up to and with the
  // first newline among them; nothing if there is no room.
  ghost predicate IsLine(s: string, start: nat, allowed: nat, n: nat)
    requires start <= |s|
  {
    if allowed == 0 then n == 0
    else
    && 1 <= n <= allowed && start + n <= |s|
    && (forall i :: start <= i < start + n - 1 ==> s[i] != '\n')
    && exists m :: WordsEnd(s, start, allowed, m) && n <= m && (n < m ==> s[start + n - 1] == '\n')
  }

  /** A printed line, and the spaces dropped after it. */
  datatype Line = Line(indent: int, text: string, gap: nat)

  function Spaces(n: int): (r: string)
    ensures |r| == (if n < 0 then 0 else n) && forall i :: 0 <= i < |r| ==> r[i] == ' '
  {
    if n <= 0 then "" else Spaces(n - 1) + " "
  }

  function Print(lines: seq<Line>): string {
    if lines == [] then ""
    else Print(lines[..|lines| - 1]) + Spaces(lines[|lines| - 1].indent) + lines[|lines| - 1].text + "\n"
  }

  // The text the lines were made from.
  function Rebuild(lines: seq<Line>): string {
    if lines == [] then "" else lines[0].text + Spaces(lines[0].gap) + Rebuild(lines[1..])
  }

  // The gap after position p: every space from there on.
  ghost predicate IsGap(s: string, p: nat, gap: nat) {
    && p + gap <= |s| && (forall i :: p <= i < p + gap ==> s[i] == ' ')
    && (p + gap < |s| ==> s[p + gap] != ' ')
  }

  ghost predicate OneLine(s: string, width: int, indent: int, start: nat, line: Line)
    requires start <= |s|
  {
    && indent <= width && line.indent == indent
    && IsLine(s, start, width - indent, |line.text|)
    && line.text == s[start..start + |line.text|]
    && IsGap(s, start + |line.text|, line.gap)
  }

  function Next(start: nat, line: Line): nat { start + |line.text| + line.gap }

  // A line that begins the text changes the indent of those after it.
  function IndentAfter(indent: int, offset: int, start: nat): int {
    if start == 0 then indent + offset else indent
  }

  /** The layout of the text from `start` on, in a width, with an indent and an
      offset for the lines after the first. */
  ghost predicate Layout(s: string, width: int, indent: int, offset: int, start: nat, lines: seq<Line>)
    requires start <= |s|
    decreases |lines|
  {
    if start == |s| then lines == []
    else
      && lines != []
      && OneLine(s, width, indent, start, lines[0])
      && Layout(s, width, IndentAfter(indent, offset, start), offset, Next(start, lines[0]), lines[1..])
  }

  /** No line reaches beyond the width, and a line is empty only if its indent
      leaves no room. */
  lemma {:induction false} LayoutFits(s: string, width: int, indent: int, offset: int, start: nat, lines: seq<Line>)
    requires start <= |s| && Layout(s, width, indent, offset, start, lines)
    ensures forall j :: 0 <= j < |lines| ==>
      lines[j].indent + |lines[j].text| <= width && (lines[j].text == "" <==> lines[j].indent == width)
    decreases |lines|
  {
    if start == |s| {
    } else {
      LayoutFits(s, width, IndentAfter(indent, offset, start), offset, Next(start, lines[0]), lines[1..]);
      assert forall j :: 1 <= j < |lines| ==> lines[j] == lines[1..][j - 1];
    }
  }

  lemma {:induction false} SpacesAre(s: string, p: nat, gap: nat)
    requires p + gap <= |s| && forall i :: p <= i < p + gap ==> s[i] == ' '
    ensures s[p..p + gap] == Spaces(gap)
    decreases gap
  {
    if gap == 0 {
    } else {
      SpacesAre(s, p, gap - 1);
      assert s[p..p + gap] == s[p..p + gap - 1] + [s[p + gap - 1]];
    }
  }

  lemma LineLossless(s: string, width: int, indent: int, start: nat, line: Line)
    requires start <= |s| && OneLine(s, width, indent, start, line)
    ensures Next(start, line) <= |s|
    ensures s[start..] == line.text + Spaces(line.gap) + s[Next(start, line)..]
  {
    SpacesAre(s, start + |line.text|, line.gap);
    SplitText(s, start, start + |line.text|, Next(start, line));
  }

  /** The first line has the indent, and the lines after it the offset more, if there
      is room for a first line. */
  lemma {:induction false} LayoutIndents(s: string, width: int, indent: int, offset: int, start: nat, lines: seq<Line>)
    requires start <= |s| && Layout(s, width, indent, offset, start, lines) && (start == 0 ==> indent < width)
    ensures forall j :: 0 <= j < |lines| ==>
      lines[j].indent == if start == 0 && j > 0 then indent + offset else indent
    decreases |lines|
  {
    if start == |s| {
    } else {
      LayoutIndents(s, width, IndentAfter(indent, offset, start), offset, Next(start, lines[0]), lines[1..]);
      assert forall j :: 1 <= j < |lines| ==> lines[j] == lines[1..][j - 1];
    }
  }

  /** A line ends with the text, after a newline, before a space, a comma or a bar, or,
      where the width holds none of these, at the full width; it never goes on behind a
      newline, and no later break would have fitted. */
  lemma LineBreaks(s: string, width: int, indent: int, start: nat, line: Line)
    requires start < |s| && indent < width && OneLine(s, width, indent, start, line)
    ensures var end, limit := start + |line.text|, start + width - indent;
      && start < end <= limit && end <= |s|
      && (end == |s| || s[end - 1] == '\n' || s[end] in " ,|"
          || (end == limit && forall i :: start < i <= limit && i < |s| ==> s[i] !in " ,|"))
      && (forall i :: start <= i < end - 1 ==> s[i] != '\n')
      && (s[end - 1] != '\n' && end < |s| ==> forall i :: end < i <= limit && i < |s| ==> s[i] !in " ,|")
      && (s[end - 1] != '\n' && |s| < limit ==> end == |s|)
  {
    var n, allowed: nat := |line.text|, width - indent;
    var m: nat :| WordsEnd(s, start, allowed, m) && n <= m && (n < m ==> s[start + n - 1] == '\n');
    forall p: nat | start < p <= start + allowed && p < |s| ensures BreakAt(s, p) <==> s[p] in " ,|" {}
  }

  /** What is printed: each line with its indent in front and a newline behind. */
  lemma {:induction false} PrintFirst(line: Line, rest: seq<Line>)
    ensures Print([line] + rest) == Spaces(line.indent) + line.text + "\n" + Print(rest)
    decreases |rest|
  {
    var all := [line] + rest;
    if rest == [] {
      assert all[..0] == [] && all == [line];
      assert Print(all) == Print(all[..0]) + Spaces(line.indent) + line.text + "\n";
      assert Print(all[..0]) + Spaces(line.indent) == Spaces(line.indent);
    } else {
      var n := |rest| - 1;
      PrintFirst(line, rest[..n]);
      assert all[..|all| - 1] == [line] + rest[..n] && all[|all| - 1] == rest[n];
      var a, b, c, d := Spaces(line.indent) + line.text + "\n", Print(rest[..n]), Spaces(rest[n].indent), rest[n].text;
      assert a + b + c + d + "\n" == a + (b + c + d + "\n");
    }
  }

  /** The lines and the dropped spaces make up the text again. */
  lemma {:induction false} LayoutLossless(s: string, width: int, indent: int, offset: int, start: nat, lines: seq<Line>)
    requires start <= |s| && Layout(s, width, indent, offset, start, lines)
    ensures Rebuild(lines) == s[start..]
    decreases |lines|
  {
    if start == |s| {
    } else {
      LayoutLossless(s, width, IndentAfter(indent, offset, start), offset, Next(start, lines[0]), lines[1..]);
      LineLossless(s, width, indent, start, lines[0]);
    }
  }

  lemma SplitText(s: string, a: nat, b: nat, c: nat)
    requires a <= b <= c <= |s|
    ensures s[a..] == s[a..b] + s[b..c] + s[c..]
  {
  }

  lemma LineUnique(s: string, start: nat, allowed: nat, n: nat, n': nat)
    requires start <= |s| && IsLine(s, start, allowed, n) && IsLine(s, start, allowed, n')
    ensures n == n'
  {
    if allowed > 0 {
      var m :| WordsEnd(s, start, allowed, m) && n <= m && (n < m ==> s[start + n - 1] == '\n');
      var m' :| WordsEnd(s, start, allowed, m') && n' <= m' && (n' < m' ==> s[start + n' - 1] == '\n');
      assert m == m';
    }
  }

  lemma GapUnique(s: string, p: nat, gap: nat, gap': nat)
    requires IsGap(s, p, gap) && IsGap(s, p, gap')
    ensures gap == gap'
  {
    var at, at' := p + gap, p + gap';
    assert at < |s| ==> s[at] != ' ';
    assert at' < |s| ==> s[at'] != ' ';
  }

  lemma OneLineUnique(s: string, width: int, indent: int, start: nat, line: Line, line': Line)
    requires start <= |s| && OneLine(s, width, indent, start, line) && OneLine(s, width, indent, start, line')
    ensures line == line'
  {
    LineUnique(s, start, width - indent, |line.text|, |line'.text|);
    GapUnique(s, start + |line.text|, line.gap, line'.gap);
  }

  /** There is only one layout, so the printed text is determined. */
  lemma {:induction false} LayoutUnique(s: string, width: int, indent: int, offset: int, start: nat,
                                        lines: seq<Line>, lines': seq<Line>)
    requires start <= |s|
    requires Layout(s, width, indent, offset, start, lines) && Layout(s, width, indent, offset, start, lines')
    ensures lines == lines'
    decreases |lines|
  {
    if start == |s| {
    } else {
      OneLineUnique(s, width, indent, start, lines[0], lines'[0]);
      LayoutUnique(s, width, IndentAfter(indent, offset, start), offset, Next(start, lines[0]), lines[1..],
                   lines'[1..]);
      assert lines == [lines[0]] + lines[1..] && lines' == [lines'[0]] + lines'[1..];
    }
  }

  // The first part of the loop body: the length of the line at `start`.
  method MeasureLine(s: string, start: nat, allowedLen: int) returns (stringLen: int)
    requires start < |s| && allowedLen >= 0
    ensures stringLen >= 0 && IsLine(s, start, allowedLen, stringLen)
  {
    stringLen := if |s| - start < allowedLen then |s| - start else allowedLen;
    if stringLen == allowedLen {
      while stringLen >= 0 && !BreakAt(s, start + stringLen)
        invariant -1 <= stringLen <= allowedLen
        invariant forall p :: start + stringLen < p <= start + allowedLen ==> !BreakAt(s, p)
      {
        stringLen := stringLen - 1;
      }
    }
    if stringLen <= 0 { stringLen := allowedLen; }
    assert allowedLen == 0 || WordsEnd(s, start, allowedLen, stringLen) || |s| - start == stringLen;
    ghost var m := stringLen;
    var i := 0;
    while i < stringLen
      invariant 0 <= i <= stringLen <= m
      invariant forall j :: start <= j < start + i && j < start + stringLen - 1 ==> s[j] != '\n'
      invariant stringLen == m ==> forall j :: start <= j < start + i ==> s[j] != '\n' || j == start + m - 1
      invariant stringLen < m ==> i == stringLen && stringLen >= 1 && s[start + stringLen - 1] == '\n'
      invariant allowedLen > 0 ==> 1 <= stringLen
    {
      if s[start + i] == '\n' { stringLen := i + 1; }
      i := i + 1;
    }
  }

  // The last part of the loop body: the spaces a line must not begin with.
  method SkipSpaces(s: string, start: nat, stringLen: int) returns (newStart: nat)
    requires stringLen >= 0 && start + stringLen <= |s|
    ensures newStart >= start + stringLen && IsGap(s, start + stringLen, newStart - start - stringLen)
  {
    newStart := start;
    while At(s, stringLen + newStart) == ' ' && newStart < |s|
      invariant start <= newStart && stringLen + newStart <= |s|
      invariant forall i :: start + stringLen <= i < newStart + stringLen ==> s[i] == ' '
    {
      newStart := newStart + 1;
    }
    newStart := newStart + stringLen;
  }

  method PrintIndent(os: string, indentSpaces: int) returns (r: string)
    ensures r == os + Spaces(indentSpaces)
  {
    r := os;
    var i := 0;
    while i < indentSpaces
      invariant 0 <= i && i <= if indentSpaces < 0 then 0 else indentSpaces
      invariant r == os + Spaces(i)
    {
      r := r + " ";
      i := i + 1;
    }
    assert indentSpaces < 0 ==> Spaces(indentSpaces) == Spaces(i);
  }

  // The line at `start`, and where the next one begins.
  method NextLine(s: string, start: nat, indent: int, allowedLen: int) returns (line: Line, next: nat)
    requires start < |s| && allowedLen >= 0
    ensures OneLine(s, indent + allowedLen, indent, start, line)
    ensures next == Next(start, line)
  {
    var stringLen := MeasureLine(s, start, allowedLen);
    next := SkipSpaces(s, start, stringLen);
    line := Line(indent, s[start..start + stringLen], next - start - stringLen);
  }

  // The lines printed so far lay out the text up to `start`, and the next one is
  // indented by `next`.
  ghost predicate LaidTo(s: string, width: int, indent: int, offset: int, lines: seq<Line>, start: nat, next: int)
    decreases |lines|
  {
    if lines == [] then start == 0 && next == indent
    else
      var line := lines[|lines| - 1];
      var from := start - |line.text| - line.gap;
      var own := if from == 0 then next - offset else next;
      && 0 <= from < |s|
      && LaidTo(s, width, indent, offset, lines[..|lines| - 1], from, own)
      && OneLine(s, width, own, from, line)
  }

  lemma LaidMore(s: string, width: int, indent: int, offset: int, lines: seq<Line>, start: nat, next: int, line: Line)
    requires start < |s| && LaidTo(s, width, indent, offset, lines, start, next)
    requires OneLine(s, width, next, start, line)
    ensures LaidTo(s, width, indent, offset, lines + [line], Next(start, line), IndentAfter(next, offset, start))
  {
    LastAdded(lines, line);
    var all := lines + [line];
    assert Next(start, line) - |line.text| - line.gap == start;
    assert all[|all| - 1] == line && all[..|all| - 1] == lines;
  }

  lemma LastAdded(lines: seq<Line>, line: Line)
    ensures |lines + [line]| == |lines| + 1 && (lines + [line])[|lines|] == line && (lines + [line])[..|lines|] == lines
  {
  }

  lemma LayoutCons(s: string, width: int, indent: int, offset: int, start: nat, line: Line, rest: seq<Line>)
    requires start < |s| && OneLine(s, width, indent, start, line)
    requires Layout(s, width, IndentAfter(indent, offset, start), offset, Next(start, line), rest)
    ensures Layout(s, width, indent, offset, start, [line] + rest)
  {
    assert ([line] + rest)[1..] == rest;
  }

  lemma LastLaid(s: string, width: int, indent: int, offset: int, lines: seq<Line>, start: nat, next: int)
    returns (from: nat, own: int)
    requires lines != [] && LaidTo(s, width, indent, offset, lines, start, next)
    ensures from < |s| && Next(from, lines[|lines| - 1]) == start && next == IndentAfter(own, offset, from)
    ensures LaidTo(s, width, indent, offset, lines[..|lines| - 1], from, own)
    ensures OneLine(s, width, own, from, lines[|lines| - 1])
  {
    from := start - |lines[|lines| - 1].text| - lines[|lines| - 1].gap;
    own := if from == 0 then next - offset else next;
  }

  lemma LastMoved(lines: seq<Line>, rest: seq<Line>)
    requires lines != []
    ensures lines[..|lines| - 1] + ([lines[|lines| - 1]] + rest) == lines + rest
  {
  }

  // What is laid out up to `start` and from there on is laid out.
  lemma {:induction false} LaidWhole(s: string, width: int, indent: int, offset: int,
                                     lines: seq<Line>, start: nat, next: int, rest: seq<Line>)
    requires LaidTo(s, width, indent, offset, lines, start, next)
    requires start <= |s| && Layout(s, width, next, offset, start, rest)
    ensures Layout(s, width, indent, offset, 0, lines + rest)
    decreases |lines|
  {
    if lines == [] {
      assert lines + rest == rest;
    } else {
      var front, line := lines[..|lines| - 1], lines[|lines| - 1];
      var from, own := LastLaid(s, width, indent, offset, lines, start, next);
      LayoutCons(s, width, own, offset, from, line, rest);
      LaidWhole(s, width, indent, offset, front, from, own, [line] + rest);
      LastMoved(lines, rest);
    }
  }

  // The first line and the spaces after it are the whole text.
  ghost predicate UsedUp(s: string, room: nat) {
    exists n: nat, gap: nat :: IsLine(s, 0, room, n) && IsGap(s, n, gap) && n + gap == |s|
  }

  /** When the text can be laid out: there is room on the lines after the first,
      or the first line, which must not be indented beyond the width, leaves
      nothing for them. */
  ghost predicate Ends(s: string, width: int, indent: int, offset: int) {
    s == "" || (indent <= width && (indent + offset < width || UsedUp(s, width - indent)))
  }

  // The end of the words is found by going back from the full width.
  lemma {:induction false} LastBreak(s: string, start: nat, allowed: nat, m: nat) returns (b: nat)
    requires start + allowed <= |s| && m <= allowed
    requires forall p :: start + m < p <= start + allowed ==> !BreakAt(s, p)
    ensures b <= m && (forall p :: start + b < p <= start + allowed ==> !BreakAt(s, p))
    ensures b > 0 ==> BreakAt(s, start + b)
  {
    if m == 0 || BreakAt(s, start + m) {
      b := m;
    } else {
      b := LastBreak(s, start, allowed, m - 1);
    }
  }

  lemma WordsExist(s: string, start: nat, allowed: nat) returns (m: nat)
    requires start < |s| && allowed > 0
    ensures WordsEnd(s, start, allowed, m) && 1 <= m && start + m <= |s|
  {
    if |s| - start < allowed {
      m := |s| - start;
    } else {
      m := LastBreak(s, start, allowed, allowed);
      if m == 0 { m := allowed; }
    }
  }

  lemma {:induction false} FirstNewline(s: string, start: nat, m: nat, n: nat) returns (r: nat)
    requires 1 <= n <= m && start + m <= |s|
    requires forall i :: start <= i < start + n - 1 ==> s[i] != '\n'
    ensures n <= r <= m && (forall i :: start <= i < start + r - 1 ==> s[i] != '\n')
    ensures r < m ==> s[start + r - 1] == '\n'
    decreases m - n
  {
    if n == m || s[start + n - 1] == '\n' {
      r := n;
    } else {
      r := FirstNewline(s, start, m, n + 1);
    }
  }

  lemma {:induction false} GapExists(s: string, p: nat, q: nat) returns (gap: nat)
    requires p <= q <= |s| && forall i :: p <= i < q ==> s[i] == ' '
    ensures IsGap(s, p, gap)
    decreases |s| - q
  {
    if q == |s| || s[q] != ' ' {
      gap := q - p;
    } else {
      gap := GapExists(s, p, q + 1);
    }
  }

  lemma OneLineExists(s: string, width: int, indent: int, start: nat) returns (line: Line)
    requires start < |s| && indent <= width
    ensures OneLine(s, width, indent, start, line)
  {
    var n: nat := 0;
    if indent < width {
      var m := WordsExist(s, start, width - indent);
      n := FirstNewline(s, start, m, 1);
    }
    var gap := GapExists(s, start + n, start + n);
    line := Line(indent, s[start..start + n], gap);
  }

  // With room on the lines to come, the rest of the text is laid out.
  lemma {:induction false} RoomyLayout(s: string, width: int, indent: int, offset: int,
                                       start: nat) returns (lines: seq<Line>)
    requires start <= |s|
    requires if start == 0 then indent <= width && indent + offset < width else indent < width
    ensures Layout(s, width, indent, offset, start, lines)
    decreases |s| - start, if indent == width then 1 else 0
  {
    if start == |s| {
      lines := [];
    } else {
      var line := OneLineExists(s, width, indent, start);
      var rest := RoomyLayout(s, width, IndentAfter(indent, offset, start), offset, Next(start, line));
      LayoutCons(s, width, indent, offset, start, line, rest);
      lines := [line] + rest;
    }
  }

  // Without room, nothing is printed and the next line begins where this one did.
  lemma {:induction false} StuckLayout(s: string, width: int, indent: int, offset: int, start: nat, lines: seq<Line>)
    requires start < |s| && s[start] != ' ' && indent >= width && (start == 0 ==> offset >= 0)
    ensures !Layout(s, width, indent, offset, start, lines)
    decreases |lines|
  {
    if lines == [] {
    } else if OneLine(s, width, indent, start, lines[0]) {
      GapUnique(s, start, lines[0].gap, 0);
      StuckLayout(s, width, IndentAfter(indent, offset, start), offset, start, lines[1..]);
    }
  }

  /** The wrapping ends exactly then: each turn of the loop prints one line of the
      layout, and there is a layout if and only if there is room or the first line
      uses up the text. */
  lemma LayoutIff(s: string, width: int, indent: int, offset: int)
    ensures (exists lines :: Layout(s, width, indent, offset, 0, lines)) <==> Ends(s, width, indent, offset)
  {
    if Ends(s, width, indent, offset) {
      var lines := EndsLaid(s, width, indent, offset);
      assert exists l :: Layout(s, width, indent, offset, 0, l);
    }
    forall lines | Layout(s, width, indent, offset, 0, lines) ensures Ends(s, width, indent, offset) {
      LaidEnds(s, width, indent, offset, lines);
    }
  }

  lemma EndsLaid(s: string, width: int, indent: int, offset: int) returns (lines: seq<Line>)
    requires Ends(s, width, indent, offset)
    ensures Layout(s, width, indent, offset, 0, lines)
  {
    if s == "" {
      lines := [];
    } else if indent + offset < width {
      lines := RoomyLayout(s, width, indent, offset, 0);
    } else {
      var n: nat, gap: nat :| IsLine(s, 0, width - indent, n) && IsGap(s, n, gap) && n + gap == |s|;
      lines := [Line(indent, s[0..n], gap)];
      assert lines[1..] == [];
    }
  }

  lemma LaidEnds(s: string, width: int, indent: int, offset: int, lines: seq<Line>)
    requires Layout(s, width, indent, offset, 0, lines)
    ensures Ends(s, width, indent, offset)
  {
    if s != "" && indent + offset >= width {
      var next := Next(0, lines[0]);
      if next < |s| {
        StuckLayout(s, width, indent + offset, offset, next, lines[1..]);
      } else {
        assert IsLine(s, 0, width - indent, |lines[0].text|) && IsGap(s, |lines[0].text|, lines[0].gap);
      }
    }
  }

  /** Where there is no layout the loop does not end: no lines that its turns can
      have printed reach the end of the text. */
  lemma NeverDone(s: string, width: int, indent: int, offset: int, lines: seq<Line>, start: nat, next: int)
    requires !Ends(s, width, indent, offset) && LaidTo(s, width, indent, offset, lines, start, next)
    ensures start != |s|
  {
    if start == |s| {
      LaidWhole(s, width, indent, offset, lines, start, next, []);
      LaidEnds(s, width, indent, offset, lines + []);
    }
  }

  /** An input with no room on any line: the wrapping does not end. */
  lemma NoRoomNeverEnds()
    ensures |"ab"| + 1 > 1 && !Ends("ab", 1, 1, 0)
    ensures forall lines, start: nat, next :: LaidTo("ab", 1, 1, 0, lines, start, next) ==> start != 2
  {
    forall lines ensures !Layout("ab", 1, 1, 0, 0, lines) { StuckLayout("ab", 1, 1, 0, 0, lines); }
    LayoutIff("ab", 1, 1, 0);
    forall lines, start: nat, next | LaidTo("ab", 1, 1, 0, lines, start, next) ensures start != 2 {
      NeverDone("ab", 1, 1, 0, lines, start, next);
    }
  }

  // A text that the first line uses up leaves nothing to the second.
  lemma UsedUpNext(s: string, width: int, indent: int, line: Line)
    requires s != "" && indent <= width && UsedUp(s, width - indent) && OneLine(s, width, indent, 0, line)
    ensures Next(0, line) == |s|
  {
    var n: nat, gap: nat :| IsLine(s, 0, width - indent, n) && IsGap(s, n, gap) && n + gap == |s|;
    LineUnique(s, 0, width - indent, n, |line.text|);
    GapUnique(s, n, gap, line.gap);
  }

  // What keeps the loop going: room for the lines to come, or a first line that
  // uses up the text.
  ghost predicate Going(s: string, width: int, indent0: int, offset: int, start: nat, indent: int) {
    if indent0 <= width && indent0 + offset < width then
      if start == 0 then indent <= width && indent + offset < width else indent < width
    else start == |s| || (start == 0 && indent == indent0)
  }

  lemma GoingOn(s: string, width: int, indent0: int, offset: int, start: nat, indent: int, line: Line)
    requires start < |s| && Ends(s, width, indent0, offset) && Going(s, width, indent0, offset, start, indent)
    requires OneLine(s, width, indent, start, line)
    ensures Next(start, line) <= |s|
    ensures Going(s, width, indent0, offset, Next(start, line), IndentAfter(indent, offset, start))
    ensures Next(start, line) > start || (indent == width && IndentAfter(indent, offset, start) < width)
      || Next(start, line) == |s|
  {
    if !(indent0 <= width && indent0 + offset < width) { UsedUpNext(s, width, indent, line); }
  }

  // The loop of spacePrint.
  method WrapText(s: string, maxWidth: int, indentSpaces: int, secondLineOffset: int)
    returns (os: string, lines: seq<Line>)
    requires Ends(s, maxWidth, indentSpaces, secondLineOffset)
    ensures os == Print(lines)
    ensures Layout(s, maxWidth, indentSpaces, secondLineOffset, 0, lines)
  {
    os, lines := "", [];
    var indent, allowedLen, start := indentSpaces, maxWidth - indentSpaces, 0;
    while start < |s|
      invariant 0 <= start <= |s| && os == Print(lines) && allowedLen == maxWidth - indent
      invariant LaidTo(s, maxWidth, indentSpaces, secondLineOffset, lines, start, indent)
      invariant Going(s, maxWidth, indentSpaces, secondLineOffset, start, indent)
      decreases |s| - start, if allowedLen == 0 then 1 else 0
    {
      var line, next := NextLine(s, start, indent, allowedLen);
      LaidMore(s, maxWidth, indentSpaces, secondLineOffset, lines, start, indent, line);
      GoingOn(s, maxWidth, indentSpaces, secondLineOffset, start, indent, line);
      os := PrintIndent(os, indent);
      if start == 0 {
        indent := indent + secondLineOffset;
        allowedLen := allowedLen - secondLineOffset;
      }
      os := os + line.text + "\n";
      PrintMore(lines, line);
      lines := lines + [line];
      start := next;
    }
    LaidWhole(s, maxWidth, indentSpaces, secondLineOffset, lines, start, indent, []);
    assert lines + [] == lines;
  }

  lemma PrintMore(lines: seq<Line>, line: Line)
    ensures Print(lines + [line]) == Print(lines) + Spaces(line.indent) + line.text + "\n"
  {
    assert (lines + [line])[..|lines|] == lines;
  }

  /** spacePrint: the text is laid out if it is too wide for one line, and
      printed as it is otherwise. */
  method SpacePrint(s: string, maxWidth: int, indentSpaces: int, secondLineOffset: int)
    returns (os: string, lines: seq<Line>)
    requires |s| + indentSpaces > maxWidth > 0 ==> Ends(s, maxWidth, indentSpaces, secondLineOffset)
    ensures os == Print(lines)
    ensures if |s| + indentSpaces > maxWidth > 0
            then Layout(s, maxWidth, indentSpaces, secondLineOffset, 0, lines)
            else lines == [Line(indentSpaces, s, 0)]
  {
    if |s| + indentSpaces > maxWidth && maxWidth > 0 {
      os, lines := WrapText(s, maxWidth, indentSpaces, secondLineOffset);
    } else {
      os := PrintIndent("", indentSpaces);
      os := os + s + "\n";
      lines := [Line(indentSpaces, s, 0)];
      assert lines[..0] == [];
    }
  }
}
