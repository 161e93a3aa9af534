/** Finding comments: src/index/comments.js:24-128 and 351-440.

    Texts are sequences of characters and positions count them; nothing in the scanner looks inside a
    character. */
module CommentScanner {
  import opened Wrappers

  datatype BlockMarker = BlockMarker(start: string, end: string, stripStar: bool)

  datatype Style = Style(line: seq<string>, block: seq<BlockMarker>, strings: string)

  const COMMENT_STYLES: seq<Style> := [
    Style(["//"], [BlockMarker("/*", "*/", true)], ['"', '\'', '`']),
    Style(["//"], [BlockMarker("/*", "*/", true)], ['"', '\'']),
    Style([], [BlockMarker("<!--", "-->", false)], []),
    Style(["#"], [BlockMarker("/*", "*/", true)], ['"', '\'', '`']),
    Style(["#"], [BlockMarker("#=", "=#", false)], ['"', '\'', '`']),
    Style(["#"], [], ['"', '\'']),
    Style(["--"], [BlockMarker("/*", "*/", true)], ['"', '\'']),
    Style([], [BlockMarker("{{!--", "--}}", false), BlockMarker("{{!", "}}", false)], ['"', '\'']),
    Style([], [BlockMarker("{#", "#}", false)], ['"', '\'']),
    Style([], [BlockMarker("@*", "*@", false)], ['"', '\'']),
    Style([], [BlockMarker("<!--", "-->", false)], ['"', '\''])
  ]

  /** Markers are not empty, and line markers stay on their line. */
  ghost predicate Usable(s: Style) {
    && (forall m :: m in s.line ==> m != "" && '\n' !in m)
    && (forall b :: b in s.block ==> b.start != "" && b.end != "")
  }

  lemma StylesUsable()
    ensures forall i :: 0 <= i < |COMMENT_STYLES| ==> Usable(COMMENT_STYLES[i])
  {
  }

  /** A marker read backwards, brackets turned round, an exclamation mark left out. */
  ghost function Mirrored(m: string): string {
    if m == "" then ""
    else
      Mirrored(m[1..])
      + match m[0] case '{' => "}" case '<' => ">" case '!' => "" case c => [c]
  }

  /** What the styles have in common, and what tells them apart. */
  lemma StyleMarkers(k: nat)
    requires k < |COMMENT_STYLES|
    ensures var style := COMMENT_STYLES[k];
            && (forall b :: b in style.block ==> b.end == Mirrored(b.start))
            && (forall b :: b in style.block ==>
                  b.start in (if k in {0, 1, 3, 6} then {"/*"} else if k in {2, 10} then {"<!--"}
                              else if k == 4 then {"#="} else if k == 7 then {"{{!--", "{{!"}
                              else if k == 8 then {"{#"} else {"@*"}))
            && |style.block| == (if k == 5 then 0 else if k == 7 then 2 else 1)
            && style.line == (if k in {0, 1} then ["//"] else if k in {3, 4, 5} then ["#"]
                              else if k == 6 then ["--"] else [])
            && (forall c :: c in style.strings <==> (c in {'"', '\''} && k != 2) || (c == '`' && k in {0, 3, 4}))
  {
    hide Mirrored;
    MarkersMirror(k);
    forall b | b in COMMENT_STYLES[k].block ensures b.end == Mirrored(b.start) { assert MirrorsEnd(b); }
  }

  ghost predicate MirrorsEnd(b: BlockMarker) { b.end == Mirrored(b.start) }

  lemma MirrorValues()
    ensures Mirrored("/*") == "*/" && Mirrored("#=") == "=#" && Mirrored("{#") == "#}" && Mirrored("@*") == "*@"
  {
  }

  lemma LongMirrorValues()
    ensures Mirrored("<!--") == "-->" && Mirrored("{{!--") == "--}}" && Mirrored("{{!") == "}}"
  {
    assert Mirrored("--") == "--";
    assert "!--"[1..] == "--" && Mirrored("!--") == "--";
    assert "<!--"[1..] == "!--";
    assert "{!--"[1..] == "!--" && Mirrored("{!--") == "--}";
    assert "{{!--"[1..] == "{!--";
  }

  lemma MarkersMirror(k: nat)
    requires k < |COMMENT_STYLES|
    ensures forall b :: b in COMMENT_STYLES[k].block ==> MirrorsEnd(b)
  {
    hide Mirrored;
    MirrorValues();
    LongMirrorValues();
  }

  /** Of two block markers of a style that can match at one place the longer is tried first, and stars are stripped
      between slash-star markers and no others. */
  lemma StylesOrdered(k: nat)
    requires k < |COMMENT_STYLES|
    ensures var blocks := COMMENT_STYLES[k].block;
            && (forall i, j :: 0 <= i < j < |blocks| ==> !(blocks[i].start <= blocks[j].start))
            && (forall b :: b in blocks ==> (b.stripStar <==> b.start == "/*"))
  {
  }

  // ---- Searching ----

  /** `m` starts at position i. */
  predicate At(text: string, i: int, m: string)
    ensures At(text, i, m) <==> 0 <= i && i + |m| <= |text| && forall k :: 0 <= k < |m| ==> text[i + k] == m[k]
  {
    0 <= i && i + |m| <= |text| && text[i..i + |m|] == m
  }

  /** The first occurrence of `m` at or after `from`. */
  function IndexOf(text: string, m: string, from: nat): (r: Option<nat>)
    ensures r.Some? ==> from <= r.value && At(text, r.value, m) && forall j :: from <= j < r.value ==> !At(text, j, m)
    ensures r.None? ==> forall j :: from <= j ==> !At(text, j, m)
    decreases |text| - from
  {
    if from + |m| > |text| then None
    else if At(text, from, m) then Some(from)
    else IndexOf(text, m, from + 1)
  }

  predicate Includes(text: string, m: string) {
    IndexOf(text, m, 0).Some?
  }

  function FirstBlock(text: string, i: nat, blocks: seq<BlockMarker>): (r: Option<BlockMarker>)
    ensures r.Some? ==> r.value in blocks && At(text, i, r.value.start)
    ensures r.None? ==> forall b :: b in blocks ==> !At(text, i, b.start)
  {
    if blocks == [] then None
    else if At(text, i, blocks[0].start) then Some(blocks[0])
    else FirstBlock(text, i, blocks[1..])
  }

  function FirstLine(text: string, i: nat, markers: seq<string>): (r: Option<string>)
    ensures r.Some? ==> r.value in markers && At(text, i, r.value)
    ensures r.None? ==> forall m :: m in markers ==> !At(text, i, m)
  {
    if markers == [] then None
    else if At(text, i, markers[0]) then Some(markers[0])
    else FirstLine(text, i, markers[1..])
  }

  /** Marker `k` of the list is the first that starts at `i`. */
  ghost predicate FirstAt(text: string, i: nat, markers: seq<string>, k: nat) {
    k < |markers| && At(text, i, markers[k]) && forall j :: 0 <= j < k ==> !At(text, i, markers[j])
  }

  ghost function Starts(blocks: seq<BlockMarker>): seq<string> {
    seq(|blocks|, i requires 0 <= i < |blocks| => blocks[i].start)
  }

  lemma {:induction false} FirstBlockMeans(text: string, i: nat, blocks: seq<BlockMarker>)
    ensures FirstBlock(text, i, blocks).Some? ==>
              exists k: nat :: FirstAt(text, i, Starts(blocks), k) && blocks[k] == FirstBlock(text, i, blocks).value
  {
    hide At;
    if blocks != [] {
      var rest := blocks[1..];
      if At(text, i, blocks[0].start) {
        assert FirstAt(text, i, Starts(blocks), 0);
      } else if FirstBlock(text, i, blocks).Some? {
        FirstBlockMeans(text, i, rest);
        var k: nat :| FirstAt(text, i, Starts(rest), k) && rest[k] == FirstBlock(text, i, rest).value;
        FirstLater(text, i, Starts(blocks), k);
        assert Starts(blocks)[1..] == Starts(rest);
        assert blocks[k + 1] == rest[k];
      }
    }
  }

  lemma {:induction false} FirstLineMeans(text: string, i: nat, markers: seq<string>)
    ensures FirstLine(text, i, markers).Some? ==>
              exists k: nat :: FirstAt(text, i, markers, k) && markers[k] == FirstLine(text, i, markers).value
  {
    hide At;
    if markers != [] {
      var rest := markers[1..];
      if At(text, i, markers[0]) {
        assert FirstAt(text, i, markers, 0);
      } else if FirstLine(text, i, markers).Some? {
        FirstLineMeans(text, i, rest);
        var k: nat :| FirstAt(text, i, rest, k) && rest[k] == FirstLine(text, i, rest).value;
        FirstLater(text, i, markers, k);
        assert markers[k + 1] == rest[k];
      }
    }
  }

  lemma FirstLater(text: string, i: nat, markers: seq<string>, k: nat)
    requires markers != [] && !At(text, i, markers[0])
    ensures FirstAt(text, i, markers[1..], k) ==> FirstAt(text, i, markers, k + 1)
  {
    hide At;
    if FirstAt(text, i, markers[1..], k) {
      forall j | 0 <= j < k + 1 ensures !At(text, i, markers[j]) {
        if j > 0 { assert markers[1..][j - 1] == markers[j]; }
      }
    }
  }

  // ---- The reference lexer: one character at a time ----

  datatype Mode =
    | Code
    | InString(delim: char, escaped: bool)
    | InBlock(start: nat, marker: BlockMarker)
    | InLine(start: nat, lineMarker: string)

  /** Whether the comment being read is over just before position p. */
  ghost function Settle(text: string, mode: Mode, p: nat): Mode
    requires p <= |text|
  {
    match mode
    case InBlock(s, b) =>
      if p >= s + |b.start| + |b.end| && At(text, p - |b.end|, b.end) then Code else mode
    case InLine(s, m) =>
      if p >= s + |m| && At(text, p, "\n") then Code else mode
    case _ => mode
  }

  /** The mode after character i, read in `mode`. */
  ghost function Next(text: string, style: Style, i: nat, mode: Mode): Mode
    requires i < |text|
  {
    match mode
    case InString(d, escaped) =>
      if escaped then InString(d, false)
      else if text[i] == '\\' then InString(d, true)
      else if text[i] == d then Code
      else mode
    case Code =>
      var block, line := FirstBlock(text, i, style.block), FirstLine(text, i, style.line);
      if block.Some? then Settle(text, InBlock(i, block.value), i + 1)
      else if line.Some? then Settle(text, InLine(i, line.value), i + 1)
      else if text[i] in style.strings then InString(text[i], false)
      else Code
    case _ => Settle(text, mode, i + 1)
  }

  /** The mode in which character i is read. */
  ghost function ModeAt(text: string, style: Style, i: nat): Mode
    requires i <= |text|
  {
    if i == 0 then Code else Next(text, style, i - 1, ModeAt(text, style, i - 1))
  }

  /** Character p belongs to a comment: it is read inside one, or opens one. */
  ghost predicate InComment(text: string, style: Style, p: nat)
    requires p < |text|
  {
    var mode := ModeAt(text, style, p);
    || mode.InBlock? || mode.InLine?
    || (mode.Code? && (FirstBlock(text, p, style.block).Some? || FirstLine(text, p, style.line).Some?))
  }

  // ---- The scanner ----

  datatype Comment = Comment(
    start: nat, end: nat, raw: string, isBlock: bool, markerStart: string, markerEnd: string, stripStar: bool)

  ghost function OpenMode(c: Comment): Mode {
    if c.isBlock then InBlock(c.start, BlockMarker(c.markerStart, c.markerEnd, c.stripStar))
    else InLine(c.start, c.markerStart)
  }

  /** `c` is one whole comment of the reference lexer: opened in code by the marker that matches there, read
      to its end, and followed by code or the end of the text. */
  ghost predicate WholeComment(text: string, style: Style, c: Comment) {
    && c.start < c.end <= |text| && c.raw == text[c.start..c.end] && c.markerStart <= c.raw
    && ModeAt(text, style, c.start) == Code
    && (if c.isBlock
        then FirstBlock(text, c.start, style.block) == Some(BlockMarker(c.markerStart, c.markerEnd, c.stripStar))
        else && FirstBlock(text, c.start, style.block).None?
             && FirstLine(text, c.start, style.line) == Some(c.markerStart)
             && c.markerEnd == "" && !c.stripStar)
    && (forall p :: c.start < p < c.end ==> ModeAt(text, style, p) == OpenMode(c))
    && (c.end == |text| || ModeAt(text, style, c.end) == Code)
  }

  /** The markers of a comment and its extent, without the lexer.  A block comment starts with the first block marker
      of the style's list that matches there and ends behind the first end marker past it, or with the text; a line
      comment starts with the first line marker, where no block marker matches, and ends before the first newline past
      it, or with the text. */
  ghost predicate Delimited(text: string, style: Style, c: Comment) {
    if c.isBlock then
      && (exists k: nat :: FirstAt(text, c.start, Starts(style.block), k)
            && style.block[k] == BlockMarker(c.markerStart, c.markerEnd, c.stripStar))
      && EndsAtFirst(text, c.start + |c.markerStart|, c.markerEnd, c.end - |c.markerEnd|, c.end)
    else
      && (forall b :: b in style.block ==> !At(text, c.start, b.start))
      && (exists k: nat :: FirstAt(text, c.start, style.line, k) && style.line[k] == c.markerStart)
      && c.markerEnd == "" && !c.stripStar
      && EndsAtFirst(text, c.start + |c.markerStart|, "\n", c.end, c.end)
  }

  /** The first `mark` at or after `from` is at `i`, or there is none and `end` is the end of the text. */
  ghost predicate EndsAtFirst(text: string, from: nat, mark: string, i: int, end: nat) {
    || (from <= i && At(text, i, mark) && forall j :: from <= j < i ==> !At(text, j, mark))
    || (end == |text| && forall j :: from <= j ==> !At(text, j, mark))
  }

  lemma BlockDelimited(text: string, style: Style, b: BlockMarker, c: Comment)
    requires FirstBlock(text, c.start, style.block) == Some(b)
    requires var close := IndexOf(text, b.end, c.start + |b.start|);
             var end := if close.None? then |text| else close.value + |b.end|;
             c == Comment(c.start, end, c.raw, true, b.start, b.end, b.stripStar)
    ensures Delimited(text, style, c)
  {
    hide At, FirstAt, Starts, FirstBlock, IndexOf;
    FirstBlockMeans(text, c.start, style.block);
  }

  lemma LineDelimited(text: string, style: Style, m: string, c: Comment)
    requires FirstBlock(text, c.start, style.block).None? && FirstLine(text, c.start, style.line) == Some(m)
    requires var close := IndexOf(text, "\n", c.start + |m|);
             var end := if close.None? then |text| else close.value;
             c == Comment(c.start, end, c.raw, false, m, "", false)
    ensures Delimited(text, style, c)
  {
    hide At, FirstAt, FirstBlock, FirstLine, IndexOf;
    FirstLineMeans(text, c.start, style.line);
  }

  ghost predicate InOrder(out: seq<Comment>) {
    forall i, j :: 0 <= i < j < |out| ==> out[i].end <= out[j].start
  }

  ghost predicate Covered(out: seq<Comment>, p: nat) {
    exists k :: 0 <= k < |out| && out[k].start <= p < out[k].end
  }

  /** The comments of the text before position n: all of them, whole, in order. */
  ghost predicate Scanned(text: string, style: Style, n: nat, out: seq<Comment>)
    requires n <= |text|
  {
    && (forall k :: 0 <= k < |out| ==> WholeComment(text, style, out[k]) && out[k].end <= n)
    && InOrder(out)
    && (forall p :: 0 <= p < n ==> (Covered(out, p) <==> InComment(text, style, p)))
  }

  lemma {:induction false} BlockRun(text: string, style: Style, i: nat, b: BlockMarker, p: nat)
    requires i < p <= |text| && ModeAt(text, style, i) == Code && FirstBlock(text, i, style.block) == Some(b)
    requires forall j :: i + |b.start| <= j < p - |b.end| ==> !At(text, j, b.end)
    ensures ModeAt(text, style, p) == Settle(text, InBlock(i, b), p)
  {
    if p > i + 1 { BlockRun(text, style, i, b, p - 1); }
  }

  lemma {:induction false} LineRun(text: string, style: Style, i: nat, m: string, p: nat)
    requires i < p <= |text| && ModeAt(text, style, i) == Code
    requires FirstBlock(text, i, style.block).None? && FirstLine(text, i, style.line) == Some(m)
    requires forall j :: i + |m| <= j < p ==> !At(text, j, "\n")
    ensures ModeAt(text, style, p) == Settle(text, InLine(i, m), p)
  {
    if p > i + 1 { LineRun(text, style, i, m, p - 1); }
  }

  /** The block comment opened at i ends after the first end marker past its start marker, or with the text. */
  lemma BlockIsWhole(text: string, style: Style, i: nat, b: BlockMarker, c: Comment)
    requires i < |text| && ModeAt(text, style, i) == Code && FirstBlock(text, i, style.block) == Some(b)
    requires b.start != ""
    requires var close := IndexOf(text, b.end, i + |b.start|);
             var end := if close.None? then |text| else close.value + |b.end|;
             end <= |text| && c == Comment(i, end, text[i..end], true, b.start, b.end, b.stripStar)
    ensures WholeComment(text, style, c)
  {
    hide ModeAt;
    forall p | i < p < c.end ensures ModeAt(text, style, p) == InBlock(i, b) {
      BlockRun(text, style, i, b, p);
    }
    var close := IndexOf(text, b.end, i + |b.start|);
    if close.Some? { BlockRun(text, style, i, b, c.end); }
  }

  lemma LineIsWhole(text: string, style: Style, i: nat, m: string, c: Comment)
    requires i < |text| && ModeAt(text, style, i) == Code && m != ""
    requires FirstBlock(text, i, style.block).None? && FirstLine(text, i, style.line) == Some(m)
    requires var close := IndexOf(text, "\n", i + |m|);
             var end := if close.None? then |text| else close.value;
             end <= |text| && c == Comment(i, end, text[i..end], false, m, "", false)
    ensures WholeComment(text, style, c)
  {
    hide ModeAt;
    forall p | i < p < c.end ensures ModeAt(text, style, p) == InLine(i, m) {
      LineRun(text, style, i, m, p);
    }
    var close := IndexOf(text, "\n", i + |m|);
    if close.Some? { LineRun(text, style, i, m, c.end); }
  }

  /** A whole comment found at n extends what is scanned to its end. */
  lemma ScannedComment(text: string, style: Style, n: nat, out: seq<Comment>, c: Comment)
    requires n <= |text| && Scanned(text, style, n, out) && WholeComment(text, style, c) && c.start == n
    ensures Scanned(text, style, c.end, out + [c])
  {
    hide Covered, InComment, WholeComment;
    var longer := out + [c];
    WholeEnds(text, style, c);
    forall k | 0 <= k < |out| ensures out[k].start < out[k].end { WholeEnds(text, style, out[k]); }
    forall p | 0 <= p < c.end ensures Covered(longer, p) <==> InComment(text, style, p) {
      CoveredAppend(out, c, p);
      if p < n { assert Covered(out, p) <==> InComment(text, style, p); } else { WholeWithin(text, style, c, p); }
    }
  }

  lemma CoveredAppend(out: seq<Comment>, c: Comment, p: nat)
    ensures Covered(out + [c], p) <==> Covered(out, p) || c.start <= p < c.end
  {
    var longer := out + [c];
    if Covered(out, p) {
      var k :| 0 <= k < |out| && out[k].start <= p < out[k].end;
      assert longer[k] == out[k];
    }
    if c.start <= p < c.end { assert longer[|out|] == c; }
  }

  lemma WholeWithin(text: string, style: Style, c: Comment, p: nat)
    requires WholeComment(text, style, c) && c.start <= p < c.end
    ensures InComment(text, style, p)
  {
    hide ModeAt, FirstBlock, FirstLine;
    assert p > c.start ==> ModeAt(text, style, p) == OpenMode(c);
  }

  /** A character outside comments extends what is scanned by itself. */
  lemma ScannedOther(text: string, style: Style, n: nat, out: seq<Comment>)
    requires n < |text| && Scanned(text, style, n, out) && !InComment(text, style, n)
    ensures Scanned(text, style, n + 1, out)
  {
    hide ModeAt, FirstBlock, FirstLine, WholeComment, InComment;
    forall p | 0 <= p < n + 1 ensures Covered(out, p) <==> InComment(text, style, p) {
      assert p == n ==> !Covered(out, p);
    }
  }

  lemma NothingScanned(text: string, style: Style)
    ensures Scanned(text, style, 0, []) && ModeAt(text, style, 0) == Code
  {
  }

  lemma ModeNext(text: string, style: Style, i: nat)
    requires i < |text|
    ensures ModeAt(text, style, i + 1) == Next(text, style, i, ModeAt(text, style, i))
  {
  }

  /** The comments the scanner returns are exactly those of the reference lexer. */
  method ScanComments(text: string, style: Style) returns (out: seq<Comment>)
    requires Usable(style)
    ensures Scanned(text, style, |text|, out) && forall c :: c in out ==> Delimited(text, style, c)
  {
    hide ModeAt, Scanned, WholeComment, Delimited;
    out := [];
    var inString: Option<char>, escaped := None, false;
    var i := 0;
    NothingScanned(text, style);
    while i < |text|
      invariant 0 <= i <= |text| && Scanned(text, style, i, out)
      invariant i < |text| ==>
                  ModeAt(text, style, i) == if inString.Some? then InString(inString.value, escaped) else Code
      invariant inString.None? ==> !escaped
      invariant forall c :: c in out ==> Delimited(text, style, c)
      decreases |text| - i
    {
      var ch := text[i];
      ModeNext(text, style, i);
      if inString.Some? {
        ScannedOther(text, style, i, out);
        if escaped {
          escaped := false;
        } else if ch == '\\' {
          escaped := true;
        } else if ch == inString.value {
          inString := None;
        }
        i := i + 1;
        continue;
      }
      var matched := FirstBlock(text, i, style.block);
      if matched.Some? {
        var b := matched.value;
        var endIndex := IndexOf(text, b.end, i + |b.start|);
        var end := if endIndex.None? then |text| else endIndex.value + |b.end|;
        var c := Comment(i, end, text[i..end], true, b.start, b.end, b.stripStar);
        BlockIsWhole(text, style, i, b, c);
        BlockDelimited(text, style, b, c);
        ScannedComment(text, style, i, out, c);
        WholeEnds(text, style, c);
        out := out + [c];
        i := end;
        continue;
      }
      var lineMatch := FirstLine(text, i, style.line);
      if lineMatch.Some? {
        var m := lineMatch.value;
        var endIndex := IndexOf(text, "\n", i + |m|);
        var end := if endIndex.None? then |text| else endIndex.value;
        var c := Comment(i, end, text[i..end], false, m, "", false);
        LineIsWhole(text, style, i, m, c);
        LineDelimited(text, style, m, c);
        ScannedComment(text, style, i, out, c);
        WholeEnds(text, style, c);
        out := out + [c];
        i := end;
        continue;
      }
      ScannedOther(text, style, i, out);
      if ch in style.strings {
        inString := Some(ch);
      }
      i := i + 1;
    }
  }

  lemma WholeEnds(text: string, style: Style, c: Comment)
    requires WholeComment(text, style, c)
    ensures c.start < c.end <= |text| && (c.end == |text| || ModeAt(text, style, c.end) == Code)
  {
  }

  /** A comment of one scan is one of any other. */
  lemma CommentShared(text: string, style: Style, a: seq<Comment>, b: seq<Comment>, i: nat) returns (k: nat)
    requires Scanned(text, style, |text|, a) && Scanned(text, style, |text|, b) && i < |a|
    ensures k < |b| && b[k] == a[i]
  {
    hide ModeAt, FirstBlock, FirstLine;
    var c := a[i];
    assert WholeComment(text, style, c);
    assert InComment(text, style, c.start);
    assert Covered(b, c.start);
    k :| 0 <= k < |b| && b[k].start <= c.start < b[k].end;
    assert WholeComment(text, style, b[k]);
    assert b[k].start == c.start;
    assert OpenMode(c) == OpenMode(b[k]);
  }

  ghost predicate AllWhole(out: seq<Comment>) {
    InOrder(out) && forall i :: 0 <= i < |out| ==> out[i].start < out[i].end
  }

  /** A comment of the list is its first, or starts where the first has ended. */
  lemma AfterFirst(out: seq<Comment>, c: Comment)
    requires AllWhole(out) && c in out
    ensures out != [] && (c == out[0] || (c in out[1..] && out[0].end <= c.start))
    ensures c in out[1..] ==> c != out[0]
  {
    var i :| 0 <= i < |out| && out[i] == c;
    if i > 0 { assert out[1..][i - 1] == c; }
    if c in out[1..] {
      var j :| 0 <= j < |out[1..]| && out[1..][j] == c;
      assert out[j + 1] == c;
    }
  }

  lemma HasFirst(out: seq<Comment>)
    ensures out != [] ==> exists c :: c in out
  {
    assert out != [] ==> out[0] in out;
  }

  lemma RestWhole(out: seq<Comment>)
    requires AllWhole(out) && out != []
    ensures AllWhole(out[1..]) && out[0].start < out[0].end
  {
  }

  lemma {:induction false} SameInOrder(a: seq<Comment>, b: seq<Comment>)
    requires AllWhole(a) && AllWhole(b) && forall c :: c in a <==> c in b
    ensures a == b
  {
    hide AllWhole;
    if a != [] && b != [] {
      RestWhole(a);
      RestWhole(b);
      AfterFirst(a, b[0]);
      AfterFirst(b, a[0]);
      assert a[0] == b[0];
      forall c ensures c in a[1..] <==> c in b[1..] {
        if c in a[1..] || c in b[1..] {
          AfterFirst(a, c);
          AfterFirst(b, c);
        }
      }
      SameInOrder(a[1..], b[1..]);
      assert a == [a[0]] + a[1..] && b == [b[0]] + b[1..];
    } else {
      HasFirst(a);
      HasFirst(b);
    }
  }

  /** So the reference lexer determines the comments: the scanner's result is the only one. */
  lemma ScannedUnique(text: string, style: Style, a: seq<Comment>, b: seq<Comment>)
    requires Scanned(text, style, |text|, a) && Scanned(text, style, |text|, b)
    ensures a == b
  {
    hide ModeAt, FirstBlock, FirstLine;
    forall c ensures c in a <==> c in b {
      if c in a {
        var i :| 0 <= i < |a| && a[i] == c;
        var k := CommentShared(text, style, a, b, i);
      }
      if c in b {
        var i :| 0 <= i < |b| && b[i] == c;
        var k := CommentShared(text, style, b, a, i);
      }
    }
    forall i | 0 <= i < |a| ensures a[i].start < a[i].end { assert WholeComment(text, style, a[i]); }
    forall i | 0 <= i < |b| ensures b[i].start < b[i].end { assert WholeComment(text, style, b[i]); }
    SameInOrder(a, b);
  }

  /** The text with every comment put back between the gaps. */
  ghost function Interleave(text: string, out: seq<Comment>, from: nat): string
    requires from <= |text| && InOrder(out)
    requires forall k :: 0 <= k < |out| ==> from <= out[k].start <= out[k].end <= |text|
  {
    if out == [] then text[from..]
    else text[from..out[0].start] + out[0].raw + Interleave(text, out[1..], out[0].end)
  }

  lemma ThreeSlices(text: string, a: nat, b: nat, c: nat)
    requires a <= b <= c <= |text|
    ensures text[a..] == text[a..b] + text[b..c] + text[c..]
  {
  }

  lemma {:induction false} InterleaveRebuilds(text: string, out: seq<Comment>, from: nat)
    requires from <= |text| && InOrder(out)
    requires forall k :: 0 <= k < |out| ==>
               from <= out[k].start <= out[k].end <= |text| && out[k].raw == text[out[k].start..out[k].end]
    ensures Interleave(text, out, from) == text[from..]
  {
    if out != [] {
      InterleaveRebuilds(text, out[1..], out[0].end);
      ThreeSlices(text, from, out[0].start, out[0].end);
    }
  }

  // ---- The marker pre-check ----

  method HasPotentialCommentMarkers(text: string, style: Style) returns (found: bool)
    ensures found <==> text != "" && ((exists m :: m in style.line && m != "" && Includes(text, m))
                                      || (exists b :: b in style.block && b.start != "" && Includes(text, b.start)))
  {
    if text == "" { return false; }
    for i := 0 to |style.line|
      invariant forall k :: 0 <= k < i ==> style.line[k] == "" || !Includes(text, style.line[k])
    {
      if style.line[i] != "" && Includes(text, style.line[i]) { return true; }
    }
    for i := 0 to |style.block|
      invariant forall k :: 0 <= k < i ==> style.block[k].start == "" || !Includes(text, style.block[k].start)
    {
      if style.block[i].start != "" && Includes(text, style.block[i].start) { return true; }
    }
    return false;
  }

  /** The pre-check never misses a comment: when it answers no, the full scan finds nothing. */
  lemma PreCheckSound(text: string, style: Style, out: seq<Comment>)
    requires Usable(style) && Scanned(text, style, |text|, out) && out != []
    ensures text != "" && ((exists m :: m in style.line && m != "" && Includes(text, m))
                           || (exists b :: b in style.block && b.start != "" && Includes(text, b.start)))
  {
    hide ModeAt;
    var c := out[0];
    assert WholeComment(text, style, c);
    assert At(text, c.start, c.markerStart);
  }
}
