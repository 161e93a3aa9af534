/** Comment lines and their exact source positions: src/index/comments.js:246-302. */
module CommentLines {
  import opened Wrappers
  import opened CommentScanner

  datatype Line = Line(raw: string, offset: nat)

  datatype ContentLine = ContentLine(content: string, contentStartOffset: nat)

  /** The lines of `raw`, which starts at `base`: each newline-free, standing where its offset says, the next
      one just past a newline. */
  ghost predicate LinesOf(raw: string, base: nat, lines: seq<Line>) {
    && lines != [] && lines[0].offset == base && '\n' !in lines[0].raw
    && (if |lines| == 1 then lines[0].raw == raw
        else
          var n := |lines[0].raw|;
          lines[0].raw + "\n" <= raw && LinesOf(raw[n + 1..], base + n + 1, lines[1..]))
  }

  lemma {:induction false} LinesAppend(raw: string, base: nat, lines: seq<Line>, last: string)
    requires LinesOf(raw, base, lines) && '\n' !in last
    ensures LinesOf(raw + "\n" + last, base, lines + [Line(last, base + |raw| + 1)])
  {
    var longer, more := lines + [Line(last, base + |raw| + 1)], raw + "\n" + last;
    if |lines| == 1 {
      assert more[|raw| + 1..] == last && longer[1..] == [Line(last, base + |raw| + 1)];
      assert lines[0].raw + "\n" <= more;
    } else {
      var n := |lines[0].raw|;
      LinesAppend(raw[n + 1..], base + n + 1, lines[1..], last);
      assert more[n + 1..] == raw[n + 1..] + "\n" + last && longer[1..] == lines[1..] + [Line(last, base + |raw| + 1)];
    }
  }

  method SplitLinesWithOffsets(raw: string, baseOffset: nat) returns (lines: seq<Line>)
    ensures LinesOf(raw, baseOffset, lines)
  {
    hide LinesOf;
    lines := [];
    var start := 0;
    for i := 0 to |raw|
      invariant start <= i && '\n' !in raw[start..i]
      invariant if lines == [] then start == 0
                else start > 0 && LinesOf(raw[..start - 1], baseOffset, lines) && raw[start - 1] == '\n'
    {
      if raw[i] == '\n' {
        LineEnds(raw, baseOffset, lines, start, i);
        lines := lines + [Line(raw[start..i], baseOffset + start)];
        start := i + 1;
      }
    }
    LineEnds(raw, baseOffset, lines, start, |raw|);
    assert raw[..|raw|] == raw && raw[start..] == raw[start..|raw|];
    lines := lines + [Line(raw[start..], baseOffset + start)];
  }

  lemma LineEnds(raw: string, base: nat, lines: seq<Line>, start: nat, end: nat)
    requires start <= end <= |raw| && '\n' !in raw[start..end]
    requires if lines == [] then start == 0
             else start > 0 && LinesOf(raw[..start - 1], base, lines) && raw[start - 1] == '\n'
    ensures LinesOf(raw[..end], base, lines + [Line(raw[start..end], base + start)])
  {
    hide LinesOf;
    if lines == [] {
      assert raw[..end] == raw[start..end];
      OneLine(raw[start..end], base);
      assert lines + [Line(raw[start..end], base + start)] == [Line(raw[start..end], base)];
    } else {
      LinesAppend(raw[..start - 1], base, lines, raw[start..end]);
      assert raw[..end] == raw[..start - 1] + "\n" + raw[start..end];
    }
  }

  lemma OneLine(raw: string, base: nat)
    requires '\n' !in raw
    ensures LinesOf(raw, base, [Line(raw, base)])
  {
  }

  ghost function Texts(lines: seq<Line>): seq<string> {
    seq(|lines|, i requires 0 <= i < |lines| => lines[i].raw)
  }

  function JoinLines(lines: seq<string>): string {
    if lines == [] then "" else if |lines| == 1 then lines[0] else lines[0] + "\n" + JoinLines(lines[1..])
  }

  /** Rejoining the lines with newlines gives the raw comment back. */
  lemma {:induction false} RejoinLines(raw: string, base: nat, lines: seq<Line>)
    requires LinesOf(raw, base, lines)
    ensures JoinLines(Texts(lines)) == raw
  {
    if |lines| > 1 {
      RejoinLines(raw[|lines[0].raw| + 1..], base + |lines[0].raw| + 1, lines[1..]);
      assert Texts(lines)[1..] == Texts(lines[1..]);
    }
  }

  /** Line k stands in the raw text exactly where its offset says, and ends before the next begins. */
  lemma {:induction false} LineStands(raw: string, base: nat, lines: seq<Line>, k: nat)
    requires LinesOf(raw, base, lines) && k < |lines|
    ensures base <= lines[k].offset && At(raw, lines[k].offset - base, lines[k].raw) && '\n' !in lines[k].raw
    ensures k + 1 < |lines| ==> lines[k + 1].offset == lines[k].offset + |lines[k].raw| + 1
  {
    hide At;
    FirstStands(raw, base, lines);
    if k > 0 {
      var n := |lines[0].raw| + 1;
      LineStands(raw[n..], base + n, lines[1..], k - 1);
      AtDropped(raw, n, lines[k].offset - base, lines[k].raw);
    }
  }

  lemma FirstStands(raw: string, base: nat, lines: seq<Line>)
    requires LinesOf(raw, base, lines)
    ensures lines[0].offset == base && At(raw, 0, lines[0].raw)
    ensures |lines| > 1 ==>
              var n := |lines[0].raw| + 1;
              n <= |raw| && LinesOf(raw[n..], base + n, lines[1..]) && lines[1].offset == base + n
  {
    if |lines| > 1 {
      assert raw[..|lines[0].raw|] == (lines[0].raw + "\n")[..|lines[0].raw|];
      assert lines[1..][0] == lines[1];
    }
  }

  lemma AtDropped(raw: string, n: nat, i: int, m: string)
    requires n <= |raw| && At(raw[n..], i - n, m)
    ensures At(raw, i, m)
  {
    assert raw[n..][i - n..i - n + |m|] == raw[i..i + |m|];
  }

  // ---- Stripping ----

  /** The characters JavaScript's \s matches. */
  predicate IsSpace(c: char) {
    || '\t' <= c <= '\r' || c == ' ' || c == '\U{A0}' || c == '\U{1680}' || '\U{2000}' <= c <= '\U{200A}'
    || c == '\U{2028}' || c == '\U{2029}' || c == '\U{202F}' || c == '\U{205F}' || c == '\U{3000}' || c == '\U{FEFF}'
  }

  lemma SpaceCodes(c: char)
    ensures IsSpace(c) <==> c as int in SPACE_CODES
  {
  }

  /** The length of the white space `s` starts with. */
  function Leading(s: string): (n: nat)
    ensures n <= |s| && (forall i :: 0 <= i < n ==> IsSpace(s[i])) && (n < |s| ==> !IsSpace(s[n]))
  {
    if s == "" || !IsSpace(s[0]) then 0 else 1 + Leading(s[1..])
  }

  /** The content is the part of the line that stands `contentStartOffset - line.offset` into it. */
  ghost predicate PartOf(line: Line, c: ContentLine) {
    line.offset <= c.contentStartOffset && At(line.raw, c.contentStartOffset - line.offset, c.content)
  }

  /** A line comment loses its marker and one space; the offset is that of the content when the line starts
      with the marker. */
  method StripLineComment(line: string, marker: string) returns (value: string, offset: nat)
    ensures marker <= line ==> At(line, offset, value) && offset + |value| == |line|
    ensures marker <= line ==> line == marker + value || line == marker + " " + value
    ensures marker <= line ==> (offset == |marker| + 1 <==> StartsWithChar(line, |marker|, ' '))
  {
    value, offset := line, |marker|;
    if marker <= value { value := value[|marker|..]; }
    if StartsWithChar(value, 0, ' ') {
      value := value[1..];
      offset := offset + 1;
    }
  }

  predicate StartsWithChar(s: string, i: nat, c: char) { i < |s| && s[i] == c }

  /** How much stands before the content: all leading white space, and if stars are stripped a star after it
      and one space after that. */
  ghost function FrontLength(s: string, stripStar: bool): (n: nat)
    ensures n <= |s|
  {
    var w := Leading(s);
    if !(stripStar && StartsWithChar(s, w, '*')) then w
    else if StartsWithChar(s, w + 1, ' ') then w + 2
    else w + 1
  }

  ghost predicate Blank(s: string) { forall i :: 0 <= i < |s| ==> IsSpace(s[i]) }

  /** `front` is all that comes off before `content`: white space, and if stars are stripped a star after it and one
      space after that. */
  ghost predicate FrontOf(front: string, content: string, stripStar: bool) {
    || (Blank(front) && (content != "" ==> !IsSpace(content[0]) && !(stripStar && content[0] == '*')))
    || (stripStar && exists w :: Blank(w) && ((front == w + "*" && (content != "" ==> content[0] != ' '))
                                              || front == w + "* "))
  }

  lemma FrontMeans(s: string, stripStar: bool)
    ensures FrontOf(s[..FrontLength(s, stripStar)], s[FrontLength(s, stripStar)..], stripStar)
  {
    hide IsSpace, Leading;
    var w, n := Leading(s), FrontLength(s, stripStar);
    var front := s[..w];
    assert Blank(front);
    if stripStar && StartsWithChar(s, w, '*') {
      if StartsWithChar(s, w + 1, ' ') {
        assert s[..n] == front + "* ";
      } else {
        assert s[..n] == front + "*";
      }
    }
  }

  /** A block comment line in four parts: the start marker if it is the first line and starts with it, the
      stripped front, the content, and the end marker if it is the last line and what follows the start
      marker ends with it. */
  ghost predicate Parts(
    line: Line, first: bool, last: bool, b: BlockMarker, c: ContentLine, front: string, tail: string)
  {
    var m := if first && b.start <= line.raw then b.start else "";
    && line.raw == m + (front + c.content) + tail
    && c.contentStartOffset == line.offset + |m| + |front|
    && FrontOf(front, c.content, b.stripStar)
    && (if last && b.end != "" && EndsWith(line.raw[|m|..], b.end) then tail == b.end else tail == "")
  }

  ghost predicate StrippedFrom(line: Line, first: bool, last: bool, b: BlockMarker, c: ContentLine) {
    exists front, tail :: Parts(line, first, last, b, c, front, tail)
  }

  predicate EndsWith(s: string, m: string)
    ensures EndsWith(s, m) <==> |m| <= |s| && forall k :: 0 <= k < |m| ==> s[|s| - |m| + k] == m[k]
  {
    |m| <= |s| && s[|s| - |m|..] == m
  }

  lemma StrippedIsPart(line: Line, first: bool, last: bool, b: BlockMarker, c: ContentLine)
    requires StrippedFrom(line, first, last, b, c)
    ensures PartOf(line, c)
  {
    hide FrontOf, EndsWith;
    var front, tail :| Parts(line, first, last, b, c, front, tail);
    var m := if first && b.start <= line.raw then b.start else "";
    AtMiddle(m, front, c.content, tail);
  }

  lemma AtMiddle(m: string, front: string, content: string, tail: string)
    ensures At(m + (front + content) + tail, |m| + |front|, content)
  {
    assert m + (front + content) + tail == m + front + content + tail;
  }

  method StripFront(rawLine: string, stripStar: bool) returns (rest: string, removed: nat)
    ensures removed == FrontLength(rawLine, stripStar) && rest == rawLine[removed..]
  {
    var leading := Leading(rawLine);
    rest, removed := rawLine[leading..], leading;
    if stripStar && StartsWithChar(rest, 0, '*') {
      rest, removed := rest[1..], removed + 1;
      if StartsWithChar(rest, 0, ' ') {
        rest, removed := rest[1..], removed + 1;
      }
    }
  }

  method StripEnd(rawLine: string, last: bool, markerEnd: string) returns (rest: string, ghost tail: string)
    ensures rawLine == rest + tail
    ensures tail == if last && markerEnd != "" && EndsWith(rawLine, markerEnd) then markerEnd else ""
  {
    rest, tail := rawLine, "";
    if last && markerEnd != "" && EndsWith(rawLine, markerEnd) {
      rest, tail := rawLine[..|rawLine| - |markerEnd|], markerEnd;
    }
  }

  method StripBlockLine(line: Line, first: bool, last: bool, b: BlockMarker) returns (c: ContentLine)
    ensures StrippedFrom(line, first, last, b, c)
  {
    hide FrontLength, FrontOf, EndsWith;
    var m := if first && b.start <= line.raw then b.start else "";
    ghost var tail;
    var removed;
    var rawLine := line.raw[|m|..];
    ghost var middle := rawLine;
    rawLine, tail := StripEnd(rawLine, last, b.end);
    ghost var whole := rawLine;
    rawLine, removed := StripFront(rawLine, b.stripStar);
    c := ContentLine(rawLine, line.offset + |m| + removed);
    PartsOf(line, first, last, b, c, m, middle, whole, tail, removed);
  }

  lemma PartsOf(line: Line, first: bool, last: bool, b: BlockMarker, c: ContentLine,
                m: string, middle: string, whole: string, tail: string, removed: nat)
    requires m == (if first && b.start <= line.raw then b.start else "") && middle == line.raw[|m|..]
    requires middle == whole + tail && removed <= |whole|
              && c == ContentLine(whole[removed..], line.offset + |m| + removed)
    requires tail == if last && b.end != "" && EndsWith(middle, b.end) then b.end else ""
    requires removed == FrontLength(whole, b.stripStar)
    ensures StrippedFrom(line, first, last, b, c)
  {
    hide FrontLength, FrontOf, EndsWith;
    FrontMeans(whole, b.stripStar);
    StartsOff(m, line.raw);
    StartsOff(whole[..removed], whole);
    Associative(m, whole, tail);
    assert Parts(line, first, last, b, c, whole[..removed], tail);
  }

  lemma StartsOff(m: string, s: string)
    ensures m <= s ==> s == m + s[|m|..]
  {
  }

  method StripBlockCommentLines(lines: seq<Line>, b: BlockMarker) returns (trimmed: seq<ContentLine>)
    ensures |trimmed| == |lines|
    ensures forall i :: 0 <= i < |lines| ==> StrippedFrom(lines[i], i == 0, i == |lines| - 1, b, trimmed[i])
  {
    hide StrippedFrom;
    trimmed := [];
    for i := 0 to |lines|
      invariant |trimmed| == i
      invariant forall k :: 0 <= k < i ==> StrippedFrom(lines[k], k == 0, k == |lines| - 1, b, trimmed[k])
    {
      var c := StripBlockLine(lines[i], i == 0, i == |lines| - 1, b);
      trimmed := trimmed + [c];
    }
  }

  // ---- Content lines of a comment ----

  /** The content lines of a comment hold what the source text holds where they say, inside the comment, and
      each ends before the next begins. */
  ghost predicate ContentsOf(text: string, c: Comment, contents: seq<ContentLine>) {
    && contents != []
    && (forall k :: 0 <= k < |contents| ==>
          && c.start <= contents[k].contentStartOffset
          && contents[k].contentStartOffset + |contents[k].content| <= c.end
          && At(text, contents[k].contentStartOffset, contents[k].content))
    && (forall j, k :: 0 <= j < k < |contents| ==>
          contents[j].contentStartOffset + |contents[j].content| < contents[k].contentStartOffset)
  }

  /** A line comment's line without its marker and the one space after it, if there is one. */
  ghost predicate LineStripped(line: Line, marker: string, c: ContentLine) {
    || (line.raw == marker + " " + c.content && c.contentStartOffset == line.offset + |marker| + 1)
    || (line.raw == marker + c.content && c.contentStartOffset == line.offset + |marker|
        && (c.content != "" ==> c.content[0] != ' '))
  }

  /** The content lines are the stripped lines of the comment. */
  ghost predicate StrippedLines(c: Comment, contents: seq<ContentLine>) {
    exists lines :: LinesOf(c.raw, c.start, lines)
      && if c.isBlock
         then |contents| == |lines| && forall i :: 0 <= i < |lines| ==>
                StrippedFrom(lines[i], i == 0, i == |lines| - 1,
                             BlockMarker(c.markerStart, c.markerEnd, c.stripStar), contents[i])
         else |contents| == 1 && LineStripped(lines[0], c.markerStart, contents[0])
  }

  /** A part of a line of the comment stands in the text where its offset says. */
  lemma PartInText(text: string, c: Comment, lines: seq<Line>, k: nat, part: ContentLine)
    requires c.start <= c.end <= |text| && c.raw == text[c.start..c.end] && LinesOf(c.raw, c.start, lines)
    requires k < |lines| && PartOf(lines[k], part)
    ensures c.start <= part.contentStartOffset && part.contentStartOffset + |part.content| <= c.end
    ensures At(text, part.contentStartOffset, part.content)
  {
    hide LinesOf;
    LineStands(c.raw, c.start, lines, k);
    var a, b, n := lines[k].offset - c.start, part.contentStartOffset - lines[k].offset, |part.content|;
    SliceOfSlice(c.raw, a, a + |lines[k].raw|, b, n);
    SliceOfSlice(text, c.start, c.end, a + b, n);
  }

  lemma SliceOfSlice(s: string, a: nat, b: nat, i: nat, n: nat)
    requires a <= b <= |s| && i + n <= b - a
    ensures s[a..b][i..i + n] == s[a + i..a + i + n]
  {
    var x, y := s[a..b][i..i + n], s[a + i..a + i + n];
    forall k | 0 <= k < n ensures x[k] == y[k] {
      assert x[k] == s[a..b][i + k];
    }
  }

  lemma {:induction false} LinesApart(raw: string, base: nat, lines: seq<Line>, j: nat, k: nat)
    requires LinesOf(raw, base, lines) && j < k < |lines|
    ensures lines[j].offset + |lines[j].raw| < lines[k].offset
  {
    LineStands(raw, base, lines, k - 1);
    if j < k - 1 { LinesApart(raw, base, lines, j, k - 1); }
  }

  /** A line comment's marker is on its first line. */
  lemma MarkerOnFirstLine(raw: string, base: nat, lines: seq<Line>, marker: string)
    requires LinesOf(raw, base, lines) && marker <= raw && '\n' !in marker
    ensures marker <= lines[0].raw
  {
    var first := lines[0].raw;
    assert forall i :: 0 <= i < |marker| ==> raw[i] == marker[i] && marker[i] in marker;
    if |lines| > 1 {
      assert (first + "\n")[|first|] == '\n' && raw[..|first|] == (first + "\n")[..|first|] == first;
    }
  }

  lemma LineStrippedBy(line: Line, marker: string, value: string, offset: nat)
    requires line.raw == marker + value || line.raw == marker + " " + value
    requires offset + |value| == |line.raw| && (offset == |marker| + 1 <==> StartsWithChar(line.raw, |marker|, ' '))
    ensures LineStripped(line, marker, ContentLine(value, line.offset + offset))
  {
  }

  method ContentLines(text: string, c: Comment) returns (contents: seq<ContentLine>)
    requires c.start <= c.end <= |text| && c.raw == text[c.start..c.end] && c.markerStart <= c.raw
    requires !c.isBlock ==> '\n' !in c.markerStart
    ensures ContentsOf(text, c, contents) && StrippedLines(c, contents)
    ensures !c.isBlock ==> |contents| == 1
  {
    hide LinesOf, StrippedFrom, LineStripped;
    var lines := SplitLinesWithOffsets(c.raw, c.start);
    LinesNonEmpty(c.raw, c.start, lines);
    if c.isBlock {
      var b := BlockMarker(c.markerStart, c.markerEnd, c.stripStar);
      contents := StripBlockCommentLines(lines, b);
      forall k | 0 <= k < |contents| ensures PartOf(lines[k], contents[k]) {
        StrippedIsPart(lines[k], k == 0, k == |lines| - 1, b, contents[k]);
      }
    } else {
      var value, offset := StripLineComment(lines[0].raw, c.markerStart);
      MarkerOnFirstLine(c.raw, c.start, lines, c.markerStart);
      contents := [ContentLine(value, lines[0].offset + offset)];
      LineStrippedBy(lines[0], c.markerStart, value, offset);
    }
    forall k | 0 <= k < |contents|
      ensures c.start <= contents[k].contentStartOffset
                && contents[k].contentStartOffset + |contents[k].content| <= c.end
      ensures At(text, contents[k].contentStartOffset, contents[k].content)
    {
      PartInText(text, c, lines, k, contents[k]);
    }
    forall j, k | 0 <= j < k < |contents|
      ensures contents[j].contentStartOffset + |contents[j].content| < contents[k].contentStartOffset
    {
      LinesApart(c.raw, c.start, lines, j, k);
    }
  }

  lemma LinesNonEmpty(raw: string, base: nat, lines: seq<Line>)
    requires LinesOf(raw, base, lines)
    ensures lines != []
  {
  }
}
