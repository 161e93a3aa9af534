/** Fenced configuration blocks inside comments, and the whole extraction: src/index/comments.js:442-551. */
module ConfigSegments {
  import opened Wrappers
  import opened CommentScanner
  import opened CommentLines

  // ---- Fence lines ----

  /** The number of backticks `s` starts with. */
  function Ticks(s: string): (n: nat)
    ensures n <= |s| && (forall i :: 0 <= i < n ==> s[i] == '`') && (n < |s| ==> s[n] != '`')
  {
    if s == "" || s[0] != '`' then 0 else 1 + Ticks(s[1..])
  }

  /** White space, then at least three backticks. */
  predicate IsFence(line: string) {
    Ticks(line[Leading(line)..]) >= 3
  }

  predicate IsWordChar(c: char) {
    'A' <= c <= 'Z' || 'a' <= c <= 'z' || '0' <= c <= '9' || c == '_' || c == '-'
  }

  function Word(s: string): (w: string)
    ensures w <= s && (forall i :: 0 <= i < |w| ==> IsWordChar(w[i])) && (|w| < |s| ==> !IsWordChar(s[|w|]))
  {
    if s == "" || !IsWordChar(s[0]) then "" else [s[0]] + Word(s[1..])
  }

  function Lower(s: string): (r: string)
    ensures |r| == |s|
    ensures forall i :: 0 <= i < |s| ==>
              if 'A' <= s[i] <= 'Z' then r[i] as int == s[i] as int + 32 else r[i] == s[i]
  {
    if s == "" then ""
    else [if 'A' <= s[0] <= 'Z' then (s[0] as int + 32) as char else s[0]] + Lower(s[1..])
  }

  /** The info word after the backticks, in lower case. */
  function FenceInfo(line: string): string {
    var rest := line[Leading(line)..][Ticks(line[Leading(line)..])..];
    Lower(Word(rest[Leading(rest)..]))
  }

  /** The language a line opens a configuration block for. */
  function Opens(line: string): (lang: Option<string>)
    ensures lang.Some? ==> IsFence(line)
  {
    if !IsFence(line) then None
    else
      var info := FenceInfo(line);
      if info == "yml" then Some("yaml")
      else if info == "json" || info == "yaml" || info == "toml" then Some(info)
      else None
  }

  // ---- What a fence line is ----

  /** The characters of the class [A-Za-z0-9_-], by their codes. */
  ghost predicate InWord(c: char) {
    var u := c as int;
    0x30 <= u <= 0x39 || 0x41 <= u <= 0x5A || 0x61 <= u <= 0x7A || u == 0x2D || u == 0x5F
  }

  ghost predicate Spaces(s: string) { forall i :: 0 <= i < |s| ==> IsSpace(s[i]) }

  ghost predicate Backticks(s: string) { |s| >= 3 && forall i :: 0 <= i < |s| ==> s[i] == '`' }

  /** White space, three backticks, and anything. */
  ghost predicate Fences(line: string) {
    exists indent, rest :: Spaces(indent) && line == indent + ("```" + rest)
  }

  /** A fence line in five parts, none of which could be longer: white space, backticks, white space, a word, and what
      follows. */
  ghost predicate FenceParts(line: string, indent: string, ticks: string, gap: string, word: string, rest: string) {
    && line == indent + (ticks + (gap + (word + rest))) && Spaces(indent) && Backticks(ticks) && Spaces(gap)
    && (forall i :: 0 <= i < |word| ==> InWord(word[i]))
    && (gap + (word + rest) != "" ==> (gap + (word + rest))[0] != '`')
    && (word + rest != "" ==> !IsSpace((word + rest)[0]))
    && (rest != "" ==> !InWord(rest[0]))
  }

  /** `word` is the name, whatever the case of its letters; `upper` is the name in capitals. */
  ghost predicate Spells(word: string, name: string, upper: string) {
    |word| == |name| == |upper| && forall i :: 0 <= i < |word| ==> word[i] in {name[i], upper[i]}
  }

  ghost predicate WordFor(word: string, lang: string) {
    || (lang == "json" && Spells(word, "json", "JSON")) || (lang == "toml" && Spells(word, "toml", "TOML"))
    || (lang == "yaml" && (Spells(word, "yaml", "YAML") || Spells(word, "yml", "YML")))
  }

  ghost predicate OpensFor(line: string, lang: string) {
    exists indent, ticks, gap, word, rest :: FenceParts(line, indent, ticks, gap, word, rest) && WordFor(word, lang)
  }

  lemma Parted(a: string, b: string)
    ensures (a + b)[|a|..] == b && (forall i :: 0 <= i < |a| ==> (a + b)[i] == a[i])
    ensures b != "" ==> (a + b)[|a|] == b[0]
  {
  }

  lemma LeadingOf(a: string, b: string)
    requires Spaces(a) && (b != "" ==> !IsSpace(b[0]))
    ensures Leading(a + b) == |a| && (a + b)[|a|..] == b
  {
    hide IsSpace, Leading;
    Parted(a, b);
  }

  lemma TicksOf(a: string, b: string)
    requires Backticks(a) && (b != "" ==> b[0] != '`')
    ensures Ticks(a + b) == |a| && (a + b)[|a|..] == b
  {
    hide Ticks;
    Parted(a, b);
  }

  lemma WordOf(a: string, b: string)
    requires (forall i :: 0 <= i < |a| ==> InWord(a[i])) && (b != "" ==> !InWord(b[0]))
    ensures Word(a + b) == a
  {
    hide Word;
    Parted(a, b);
    var w := Word(a + b);
    Parted(w, (a + b)[|w|..]);
    assert a + b == w + (a + b)[|w|..];
    assert |w| == |a|;
    assert w == (a + b)[..|w|] && a == (a + b)[..|a|];
  }

  lemma TickIsNoSpace()
    ensures !IsSpace('`')
  {
  }

  lemma FencesHaveTicks(line: string, indent: string, rest: string)
    requires Spaces(indent) && line == indent + ("```" + rest)
    ensures IsFence(line)
  {
    hide IsSpace, Leading, Ticks;
    TickIsNoSpace();
    Parted("```", rest);
    LeadingOf(indent, "```" + rest);
    var s := "```" + rest;
    assert s[0] == '`' && s[1] == '`' && s[2] == '`';
  }

  lemma TicksStand(s: string)
    requires Ticks(s) >= 3
    ensures s == "```" + s[3..]
  {
    hide Ticks;
  }

  lemma IsFenceMeans(line: string)
    ensures IsFence(line) <==> Fences(line)
  {
    hide IsSpace, Leading, Ticks;
    if IsFence(line) {
      var n := Leading(line);
      TicksStand(line[n..]);
      assert line == line[..n] + line[n..];
      assert Spaces(line[..n]);
    }
    if Fences(line) {
      var indent, rest :| Spaces(indent) && line == indent + ("```" + rest);
      FencesHaveTicks(line, indent, rest);
    }
  }

  lemma Split(s: string, n: nat)
    requires n <= |s|
    ensures s == s[..n] + s[n..]
  {
  }

  lemma WordThere(v: string)
    ensures var w := Word(v);
            && v == w + v[|w|..] && (forall i :: 0 <= i < |w| ==> InWord(w[i]))
            && (v[|w|..] != "" ==> !InWord(v[|w|..][0]))
  {
    hide Word;
    var w := Word(v);
    Split(v, |w|);
    assert w == v[..|w|];
  }

  lemma SpacesThere(s: string)
    ensures var n := Leading(s); s == s[..n] + s[n..] && Spaces(s[..n]) && (s[n..] != "" ==> !IsSpace(s[n..][0]))
  {
    hide IsSpace, Leading;
    Split(s, Leading(s));
  }

  lemma TicksThere(s: string)
    requires Ticks(s) >= 3
    ensures var n := Ticks(s); s == s[..n] + s[n..] && Backticks(s[..n]) && (s[n..] != "" ==> s[n..][0] != '`')
  {
    hide Ticks;
    Split(s, Ticks(s));
  }

  lemma PartsFound(line: string) returns (indent: string, ticks: string, gap: string, word: string, rest: string)
    requires IsFence(line)
    ensures FenceParts(line, indent, ticks, gap, word, rest) && FenceInfo(line) == Lower(word)
  {
    hide IsSpace, IsWordChar, Leading, Ticks, Word, Lower, Spaces, Backticks;
    var n := Leading(line);
    var s := line[n..];
    var m := Ticks(s);
    var t := s[m..];
    var k := Leading(t);
    var v := t[k..];
    indent, ticks, gap, word := line[..n], s[..m], t[..k], Word(v);
    rest := v[|word|..];
    SpacesThere(line);
    TicksThere(s);
    SpacesThere(t);
    WordThere(v);
  }

  lemma PartsInfo(line: string, indent: string, ticks: string, gap: string, word: string, rest: string)
    requires FenceParts(line, indent, ticks, gap, word, rest)
    ensures IsFence(line) && FenceInfo(line) == Lower(word)
  {
    hide IsSpace, IsWordChar, Leading, Ticks, Word, Lower, Spaces;
    TickIsNoSpace();
    Parted(ticks, gap + (word + rest));
    LeadingOf(indent, ticks + (gap + (word + rest)));
    TicksOf(ticks, gap + (word + rest));
    LeadingOf(gap, word + rest);
    WordOf(word, rest);
  }

  lemma LowerSpells(word: string, name: string, upper: string)
    requires |name| == |upper|
    requires forall i :: 0 <= i < |name| ==> 'a' <= name[i] <= 'z' && name[i] as int == upper[i] as int + 32
    ensures Lower(word) == name <==> Spells(word, name, upper)
  {
    hide Lower;
    var r := Lower(word);
    if Spells(word, name, upper) {
      forall i | 0 <= i < |r| ensures r[i] == name[i] { assert word[i] in {name[i], upper[i]}; }
    }
    if r == name {
      forall i | 0 <= i < |word| ensures word[i] in {name[i], upper[i]} { assert r[i] == name[i]; }
    }
  }

  lemma NamesSpelled(word: string)
    ensures Lower(word) == "json" <==> Spells(word, "json", "JSON")
    ensures Lower(word) == "toml" <==> Spells(word, "toml", "TOML")
    ensures Lower(word) == "yaml" <==> Spells(word, "yaml", "YAML")
    ensures Lower(word) == "yml" <==> Spells(word, "yml", "YML")
  {
    hide Lower, Spells;
    LowerSpells(word, "json", "JSON");
    LowerSpells(word, "toml", "TOML");
    LowerSpells(word, "yaml", "YAML");
    LowerSpells(word, "yml", "YML");
  }

  /** The language of an opening line, told from its parts. */
  lemma OpensMeans(line: string, lang: string)
    ensures Opens(line) == Some(lang) <==> OpensFor(line, lang)
  {
    hide IsFence, FenceInfo, FenceParts, Lower, Spells;
    if IsFence(line) {
      var indent, ticks, gap, word, rest := PartsFound(line);
      NamesSpelled(word);
    }
    if OpensFor(line, lang) {
      var indent, ticks, gap, word, rest :|
        FenceParts(line, indent, ticks, gap, word, rest) && WordFor(word, lang);
      PartsInfo(line, indent, ticks, gap, word, rest);
      NamesSpelled(word);
    }
  }

  // ---- Segments of one comment ----

  datatype Segment = Segment(languageId: string, start: nat, end: nat)

  /** Content lines `open` and `close` are fences with no fence between them. */
  ghost predicate Consecutive(contents: seq<ContentLine>, open: nat, close: nat) {
    && open < close < |contents| && IsFence(contents[open].content) && IsFence(contents[close].content)
    && forall k :: open < k < close ==> !IsFence(contents[k].content)
  }

  function BlockText(contents: seq<ContentLine>, open: nat, close: nat): string
    requires open < close <= |contents|
  {
    JoinLines(seq(close - open - 1, i requires 0 <= i < close - open - 1 => contents[open + 1 + i].content))
  }

  /** The segment between fences `open` and `close`: from the first non-space of the line after `open` to the
      end of the line before `close`. */
  function SegmentBetween(contents: seq<ContentLine>, lang: string, open: nat, close: nat): Segment
    requires open + 1 < close < |contents|
  {
    var first, last := contents[open + 1], contents[close - 1];
    Segment(lang, first.contentStartOffset + Leading(first.content), last.contentStartOffset + |last.content|)
  }

  /** Fence `open` starts a segment that ends at fence `close`. */
  ghost predicate Encloses(contents: seq<ContentLine>, parses: (string, string) -> bool, open: nat, close: nat) {
    && Consecutive(contents, open, close) && Opens(contents[open].content).Some? && open + 1 < close
    && var lang := Opens(contents[open].content).value;
       var s := SegmentBetween(contents, lang, open, close);
       s.start < s.end && parses(lang, BlockText(contents, open, close))
  }

  method NextFence(contents: seq<ContentLine>, i: nat) returns (endFence: int)
    requires i < |contents|
    ensures endFence == -1 ==> forall k :: i < k < |contents| ==> !IsFence(contents[k].content)
    ensures endFence != -1 ==> i < endFence < |contents| && IsFence(contents[endFence].content)
                               && forall k :: i < k < endFence ==> !IsFence(contents[k].content)
  {
    for j := i + 1 to |contents|
      invariant forall k :: i < k < j ==> !IsFence(contents[k].content)
    {
      if IsFence(contents[j].content) { return j; }
    }
    return -1;
  }

  ghost predicate Listed(spans: seq<(nat, nat)>, open: nat, close: nat) {
    exists k :: 0 <= k < |spans| && spans[k] == (open, close)
  }

  /** `spans` are the fence pairs below `n` that enclose a segment, all of them and in order. */
  ghost predicate SpansBelow(
      contents: seq<ContentLine>, parses: (string, string) -> bool, n: nat, spans: seq<(nat, nat)>)
    requires n <= |contents|
  {
    && (forall k :: 0 <= k < |spans| ==> spans[k].0 < n && Encloses(contents, parses, spans[k].0, spans[k].1))
    && (forall j, k :: 0 <= j < k < |spans| ==> spans[j].0 < spans[k].0)
    && (forall open: nat, close: nat :: open < n && Encloses(contents, parses, open, close) ==>
          Listed(spans, open, close))
  }

  ghost predicate SegmentsOf(contents: seq<ContentLine>, spans: seq<(nat, nat)>, segments: seq<Segment>) {
    && |segments| == |spans|
    && forall k :: 0 <= k < |spans| ==>
         && spans[k].0 + 1 < spans[k].1 < |contents| && Opens(contents[spans[k].0].content).Some?
         && segments[k] == SegmentBetween(contents, Opens(contents[spans[k].0].content).value, spans[k].0, spans[k].1)
  }

  /** `segments` are the segments of all the fence pairs that enclose one, in order. */
  ghost predicate SegmentsFound(contents: seq<ContentLine>, parses: (string, string) -> bool, segments: seq<Segment>) {
    exists spans: seq<(nat, nat)> ::
      SpansBelow(contents, parses, |contents|, spans) && SegmentsOf(contents, spans, segments)
  }

  // ---- The same, told from the lines alone ----

  /** The first `n` characters are all the white space the line starts with. */
  ghost predicate Indented(s: string, n: nat) {
    n <= |s| && Spaces(s[..n]) && (n < |s| ==> !IsSpace(s[n]))
  }

  /** Lines `open` and `close` are fences with no fence but with a line between; `open` opens the segment's language,
      the segment goes from the first non-space of the line after `open` to the end of the line before `close`, it is
      not empty, and the lines between, joined, are of its language. */
  ghost predicate BlockIn(
    contents: seq<ContentLine>, parses: (string, string) -> bool, open: nat, close: nat, g: Segment)
  {
    && open + 1 < close < |contents| && Fences(contents[open].content) && Fences(contents[close].content)
    && (forall k :: open < k < close ==> !Fences(contents[k].content))
    && OpensFor(contents[open].content, g.languageId)
    && contents[open + 1].contentStartOffset <= g.start
    && Indented(contents[open + 1].content, g.start - contents[open + 1].contentStartOffset)
    && g.end == contents[close - 1].contentStartOffset + |contents[close - 1].content|
    && g.start < g.end && parses(g.languageId, BlockOf(contents[open + 1..close]))
  }

  ghost function BlockOf(lines: seq<ContentLine>): string {
    JoinLines(seq(|lines|, i requires 0 <= i < |lines| => lines[i].content))
  }

  ghost predicate BlockListed(
    spans: seq<(nat, nat)>, segments: seq<Segment>, open: nat, close: nat, g: Segment)
    requires |spans| == |segments|
  {
    exists k :: 0 <= k < |spans| && spans[k] == (open, close) && segments[k] == g
  }

  /** The segments are those of all such pairs of lines, in order. */
  ghost predicate SegmentsInTerms(
    contents: seq<ContentLine>, parses: (string, string) -> bool, segments: seq<Segment>)
  {
    exists spans: seq<(nat, nat)> ::
      && |spans| == |segments| && (forall j, k :: 0 <= j < k < |spans| ==> spans[j].0 < spans[k].0)
      && (forall k :: 0 <= k < |spans| ==> BlockIn(contents, parses, spans[k].0, spans[k].1, segments[k]))
      && (forall open, close, g :: BlockIn(contents, parses, open, close, g) ==>
            BlockListed(spans, segments, open, close, g))
  }

  lemma IndentedMeans(s: string, n: nat)
    ensures Indented(s, n) <==> n == Leading(s)
  {
    hide IsSpace, Leading;
    if Indented(s, n) {
      assert forall i :: 0 <= i < n ==> s[..n][i] == s[i];
    }
  }

  lemma BlockTextMeans(contents: seq<ContentLine>, open: nat, close: nat)
    requires open < close <= |contents|
    ensures BlockText(contents, open, close) == BlockOf(contents[open + 1..close])
  {
    hide JoinLines;
    var lines := contents[open + 1..close];
    assert seq(close - open - 1, i requires 0 <= i < close - open - 1 => contents[open + 1 + i].content)
        == seq(|lines|, i requires 0 <= i < |lines| => lines[i].content);
  }

  lemma EnclosesMeans(
      contents: seq<ContentLine>, parses: (string, string) -> bool, open: nat, close: nat, g: Segment)
    ensures BlockIn(contents, parses, open, close, g) <==>
              && Encloses(contents, parses, open, close)
              && g == SegmentBetween(contents, Opens(contents[open].content).value, open, close)
  {
    hide IsFence, Fences, Opens, OpensFor, Indented, Leading, BlockText, BlockOf;
    if open + 1 < close < |contents| {
      forall k | open <= k <= close ensures IsFence(contents[k].content) <==> Fences(contents[k].content) {
        IsFenceMeans(contents[k].content);
      }
      OpensMeans(contents[open].content, g.languageId);
      BlockTextMeans(contents, open, close);
      var first := contents[open + 1];
      if first.contentStartOffset <= g.start {
        IndentedMeans(first.content, g.start - first.contentStartOffset);
      }
      assert Opens(contents[open].content).Some? ==> IsFence(contents[open].content);
      assert (forall k :: open < k < close ==> !Fences(contents[k].content))
        <==> (forall k :: open < k < close ==> !IsFence(contents[k].content));
    }
  }

  lemma FoundInTerms(contents: seq<ContentLine>, parses: (string, string) -> bool, segments: seq<Segment>)
    requires SegmentsFound(contents, parses, segments)
    ensures SegmentsInTerms(contents, parses, segments)
  {
    hide Encloses, BlockIn, SegmentBetween, Opens;
    var spans: seq<(nat, nat)> :|
      SpansBelow(contents, parses, |contents|, spans) && SegmentsOf(contents, spans, segments);
    forall k | 0 <= k < |spans| ensures BlockIn(contents, parses, spans[k].0, spans[k].1, segments[k]) {
      EnclosesMeans(contents, parses, spans[k].0, spans[k].1, segments[k]);
    }
    forall open, close, g | BlockIn(contents, parses, open, close, g)
      ensures BlockListed(spans, segments, open, close, g)
    {
      EnclosesMeans(contents, parses, open, close, g);
      EnclosedShape(contents, parses, open, close);
      assert Listed(spans, open, close);
    }
  }

  lemma SameClose(contents: seq<ContentLine>, open: nat, a: nat, b: nat)
    requires Consecutive(contents, open, a) && Consecutive(contents, open, b)
    ensures a == b
  {
  }

  /** The loop over a comment's content lines. */
  method FindSegments(contents: seq<ContentLine>, parses: (string, string) -> bool)
    returns (segments: seq<Segment>)
    ensures SegmentsFound(contents, parses, segments) && SegmentsInTerms(contents, parses, segments)
  {
    hide IsFence, FenceInfo, Leading, Encloses, Opens, SegmentsInTerms;
    segments := [];
    ghost var spans: seq<(nat, nat)> := [];
    for i := 0 to |contents|
      invariant SpansBelow(contents, parses, i, spans) && SegmentsOf(contents, spans, segments)
    {
      var segment, close := SegmentAt(contents, parses, i);
      SpansNext(contents, parses, i, spans, close);
      if segment.Some? {
        EnclosedShape(contents, parses, i, close);
        segments, spans := segments + [segment.value], spans + [(i, close)];
      }
    }
    FoundInTerms(contents, parses, segments);
  }

  /** The segment fence `i` starts, if it starts one. */
  method SegmentAt(contents: seq<ContentLine>, parses: (string, string) -> bool, i: nat)
    returns (segment: Option<Segment>, ghost close: nat)
    requires i < |contents|
    ensures segment.Some? ==>
              && Encloses(contents, parses, i, close)
              && segment.value == SegmentBetween(contents, Opens(contents[i].content).value, i, close)
    ensures segment.None? ==> forall c :: !Encloses(contents, parses, i, c)
    ensures segment.Some? ==> BlockIn(contents, parses, i, close, segment.value)
    ensures segment.None? ==> forall c, g :: !BlockIn(contents, parses, i, c, g)
  {
    hide BlockIn, SegmentBetween;
    segment, close := SegmentFrom(contents, parses, i);
    if segment.Some? {
      EnclosesMeans(contents, parses, i, close, segment.value);
    } else {
      forall c, g ensures !BlockIn(contents, parses, i, c, g) { EnclosesMeans(contents, parses, i, c, g); }
    }
  }

  method SegmentFrom(contents: seq<ContentLine>, parses: (string, string) -> bool, i: nat)
    returns (segment: Option<Segment>, ghost close: nat)
    requires i < |contents|
    ensures segment.Some? ==>
              && Encloses(contents, parses, i, close)
              && segment.value == SegmentBetween(contents, Opens(contents[i].content).value, i, close)
    ensures segment.None? ==> forall c :: !Encloses(contents, parses, i, c)
  {
    hide IsFence, FenceInfo, Leading, BlockText, Opens;
    close := 0;
    var line := contents[i].content;
    var lang := Opens(line);
    if lang.None? { return None, close; }
    var endFence := NextFence(contents, i);
    if endFence == -1 { return None, close; }
    assert Consecutive(contents, i, endFence);
    forall c | Encloses(contents, parses, i, c) ensures c == endFence {
      SameClose(contents, i, c, endFence);
    }
    if endFence <= i + 1 { return None, close; }
    var s := SegmentBetween(contents, lang.value, i, endFence);
    if s.end <= s.start { return None, close; }
    if !parses(lang.value, BlockText(contents, i, endFence)) { return None, close; }
    return Some(s), endFence;
  }

  lemma EnclosedShape(contents: seq<ContentLine>, parses: (string, string) -> bool, open: nat, close: nat)
    requires Encloses(contents, parses, open, close)
    ensures Consecutive(contents, open, close)
    ensures open + 1 < close < |contents| && Opens(contents[open].content).Some?
  {
  }

  lemma SpansNext(
      contents: seq<ContentLine>, parses: (string, string) -> bool, n: nat, spans: seq<(nat, nat)>, close: nat)
    requires n < |contents| && SpansBelow(contents, parses, n, spans)
    ensures Encloses(contents, parses, n, close) ==> SpansBelow(contents, parses, n + 1, spans + [(n, close)])
    ensures (forall c :: !Encloses(contents, parses, n, c)) ==> SpansBelow(contents, parses, n + 1, spans)
  {
    hide Encloses;
    if Encloses(contents, parses, n, close) {
      var more := spans + [(n, close)];
      forall open: nat, c: nat | open < n + 1 && Encloses(contents, parses, open, c) ensures Listed(more, open, c) {
        if open == n {
          EnclosesOnce(contents, parses, n, c, close);
          assert more[|spans|] == (n, close);
        } else {
          var k :| 0 <= k < |spans| && spans[k] == (open, c);
          assert more[k] == (open, c);
        }
      }
    }
  }

  lemma EnclosesOnce(contents: seq<ContentLine>, parses: (string, string) -> bool, open: nat, a: nat, b: nat)
    requires Encloses(contents, parses, open, a) && Encloses(contents, parses, open, b)
    ensures a == b
  {
    hide IsFence;
    SameClose(contents, open, a, b);
  }

  // ---- Order ----

  ghost predicate Ordered(segments: seq<Segment>) {
    && (forall k :: 0 <= k < |segments| ==> segments[k].start < segments[k].end)
    && (forall j, k :: 0 <= j < k < |segments| ==> segments[j].end <= segments[k].start)
  }

  ghost predicate Inside(segments: seq<Segment>, start: nat, end: nat) {
    forall k :: 0 <= k < |segments| ==> start <= segments[k].start && segments[k].end <= end
  }

  /** A later fence pair starts at or after the end of an earlier one. */
  lemma SpansApart(contents: seq<ContentLine>, a: (nat, nat), b: (nat, nat))
    requires Consecutive(contents, a.0, a.1) && Consecutive(contents, b.0, b.1) && a.0 < b.0
    ensures a.1 <= b.0
  {
  }

  lemma SegmentWithin(
      text: string, c: Comment, contents: seq<ContentLine>, parses: (string, string) -> bool, open: nat, close: nat)
    requires ContentsOf(text, c, contents) && Encloses(contents, parses, open, close)
    ensures open + 1 < close < |contents| && Opens(contents[open].content).Some?
    ensures var s := SegmentBetween(contents, Opens(contents[open].content).value, open, close);
            c.start <= s.start < s.end <= c.end
  {
    hide IsFence, FenceInfo, Opens, BlockText, At;
  }

  lemma SegmentsApart(
      text: string, c: Comment, contents: seq<ContentLine>, lang: string, lang': string, a: (nat, nat),
      b: (nat, nat))
    requires ContentsOf(text, c, contents) && a.0 + 1 < a.1 <= b.0 && b.0 + 1 < b.1 < |contents|
    ensures SegmentBetween(contents, lang, a.0, a.1).end <= SegmentBetween(contents, lang', b.0, b.1).start
  {
    hide IsFence, FenceInfo, Opens, BlockText, At, Leading;
    assert a.1 - 1 < b.0 + 1;
  }

  /** The segments of a comment are non-empty, increasing, disjoint, and inside the comment. */
  lemma SegmentsInOrder(text: string, c: Comment, contents: seq<ContentLine>, parses: (string, string) -> bool,
                        segments: seq<Segment>)
    requires ContentsOf(text, c, contents) && SegmentsFound(contents, parses, segments)
    ensures Ordered(segments) && Inside(segments, c.start, c.end)
  {
    hide IsFence, Opens, ContentsOf, Encloses, SegmentBetween;
    var spans: seq<(nat, nat)> :|
      SpansBelow(contents, parses, |contents|, spans) && SegmentsOf(contents, spans, segments);
    forall k | 0 <= k < |segments|
      ensures segments[k].start < segments[k].end && c.start <= segments[k].start && segments[k].end <= c.end
    {
      SegmentWithin(text, c, contents, parses, spans[k].0, spans[k].1);
    }
    forall j, k | 0 <= j < k < |segments| ensures segments[j].end <= segments[k].start {
      EnclosedShape(contents, parses, spans[j].0, spans[j].1);
      EnclosedShape(contents, parses, spans[k].0, spans[k].1);
      SpansApart(contents, spans[j], spans[k]);
      SegmentsApart(text, c, contents, Opens(contents[spans[j].0].content).value,
                    Opens(contents[spans[k].0].content).value, spans[j], spans[k]);
    }
  }

  lemma OrderedConcat(a: seq<Segment>, b: seq<Segment>, middle: nat, end: nat)
    requires Ordered(a) && Ordered(b) && Inside(a, 0, middle) && Inside(b, middle, end) && middle <= end
    ensures Ordered(a + b) && Inside(a + b, 0, end)
  {
  }

  // ---- The whole extraction ----

  /** A text without markers has no comments, so nothing is lost by not scanning it. */
  lemma {:induction false} NoMarkersNoComments(text: string, style: Style, n: nat)
    requires Usable(style) && n <= |text|
    requires forall m :: m in style.line ==> !Includes(text, m)
    requires forall b :: b in style.block ==> !Includes(text, b.start)
    ensures Scanned(text, style, n, []) && (ModeAt(text, style, n).Code? || ModeAt(text, style, n).InString?)
  {
    if n > 0 {
      NoMarkersNoComments(text, style, n - 1);
      assert FirstBlock(text, n - 1, style.block).None?;
      assert FirstLine(text, n - 1, style.line).None?;
      ScannedOther(text, style, n - 1, []);
    }
  }

  function TrimRight(s: string): string {
    if s != "" && IsSpace(s[|s| - 1]) then TrimRight(s[..|s| - 1]) else s
  }

  /** The content lines joined and trimmed. */
  function ContentText(contents: seq<ContentLine>): string {
    var joined := JoinLines(seq(|contents|, i requires 0 <= i < |contents| => contents[i].content));
    TrimRight(joined[Leading(joined)..])
  }

  ghost predicate Trimmed(s: string) { s == "" || (!IsSpace(s[0]) && !IsSpace(s[|s| - 1])) }

  lemma {:induction false} TrimRightMeans(s: string)
    ensures TrimRight(s) <= s && Spaces(s[|TrimRight(s)|..])
    ensures TrimRight(s) == "" || !IsSpace(TrimRight(s)[|TrimRight(s)| - 1])
  {
    hide IsSpace;
    if s != "" && IsSpace(s[|s| - 1]) {
      TrimRightMeans(s[..|s| - 1]);
      var n := |TrimRight(s)|;
      assert forall i :: 0 <= i < |s[n..]| - 1 ==> s[n..][i] == s[..|s| - 1][n..][i];
    }
  }

  /** The joined lines are white space, the trimmed text, and white space. */
  lemma ContentTextMeans(contents: seq<ContentLine>) returns (before: string, after: string)
    ensures BlockOf(contents) == before + ContentText(contents) + after
    ensures Spaces(before) && Trimmed(ContentText(contents)) && Spaces(after)
  {
    hide IsSpace, Leading, JoinLines, TrimRight;
    var joined := BlockOf(contents);
    var n := Leading(joined);
    var rest := joined[n..];
    TrimRightMeans(rest);
    before, after := joined[..n], rest[|TrimRight(rest)|..];
    assert rest == TrimRight(rest) + after;
    assert joined == before + rest;
    assert rest != "" ==> rest[0] == joined[n];
  }

  /** The tests of the extraction that are not modelled: `keep` decides on a comment and its text (length,
      noise, type), `parses` on a language and a block. */
  datatype Tests = Tests(keep: (Comment, string) -> bool, parses: (string, string) -> bool)

  /** One scanned comment, its content lines, and the segments found in it. */
  datatype Work = Work(comment: Comment, contents: seq<ContentLine>, segments: seq<Segment>)
  {
    predicate Keep(t: Tests) { t.keep(comment, ContentText(contents)) }
  }

  /** The content lines are exact, and a kept comment has all its segments, a dropped one none. */
  ghost predicate Worked(text: string, t: Tests, w: Work) {
    && ContentsOf(text, w.comment, w.contents) && StrippedLines(w.comment, w.contents)
    && (if w.Keep(t)
        then SegmentsFound(w.contents, t.parses, w.segments) && SegmentsInTerms(w.contents, t.parses, w.segments)
        else w.segments == [])
  }

  ghost function Scans(work: seq<Work>): seq<Comment> {
    seq(|work|, i requires 0 <= i < |work| => work[i].comment)
  }

  ghost function Kept(t: Tests, work: seq<Work>): seq<Comment> {
    if work == [] then []
    else
      var n := |work| - 1;
      Kept(t, work[..n]) + if work[n].Keep(t) then [work[n].comment] else []
  }

  ghost function Segments(work: seq<Work>): seq<Segment> {
    if work == [] then [] else Segments(work[..|work| - 1]) + work[|work| - 1].segments
  }

  ghost predicate InSomeComment(s: Segment, comments: seq<Comment>) {
    exists k :: 0 <= k < |comments| && comments[k].start <= s.start && s.end <= comments[k].end
  }

  /** All segments are non-empty, increasing and disjoint, and each lies inside a kept comment. */
  ghost predicate SegmentsSound(segments: seq<Segment>, comments: seq<Comment>) {
    Ordered(segments) && forall k :: 0 <= k < |segments| ==> InSomeComment(segments[k], comments)
  }

  method WorkOn(text: string, t: Tests, c: Comment) returns (kept: bool, segments: seq<Segment>, ghost w: Work)
    requires c.start <= c.end <= |text| && c.raw == text[c.start..c.end] && c.markerStart <= c.raw
    requires !c.isBlock ==> '\n' !in c.markerStart
    ensures Worked(text, t, w) && w.comment == c && w.segments == segments && (kept <==> w.Keep(t))
    ensures Ordered(segments) && Inside(segments, c.start, c.end) && (!kept ==> segments == [])
  {
    hide ContentsOf, StrippedLines, SegmentsFound, SegmentsInTerms, ContentText;
    var contents := ContentLines(text, c);
    kept := t.keep(c, ContentText(contents));
    segments := [];
    if kept {
      segments := FindSegments(contents, t.parses);
      SegmentsInOrder(text, c, contents, t.parses, segments);
    }
    w := Work(c, contents, segments);
  }

  /** The segments of one more comment, which starts after all the others end. */
  lemma WorkAppend(t: Tests, work: seq<Work>, w: Work, end: nat)
    requires SegmentsSound(Segments(work), Kept(t, work)) && Inside(Segments(work), 0, end)
    requires end <= w.comment.start <= w.comment.end
    requires Ordered(w.segments) && Inside(w.segments, w.comment.start, w.comment.end)
    requires !w.Keep(t) ==> w.segments == []
    ensures SegmentsSound(Segments(work + [w]), Kept(t, work + [w])) && Inside(Segments(work + [w]), 0, w.comment.end)
    ensures Kept(t, work + [w]) == Kept(t, work) + if w.Keep(t) then [w.comment] else []
    ensures Segments(work + [w]) == Segments(work) + w.segments
  {
    hide ContentText;
    var more := work + [w];
    assert more[..|work|] == work;
    OrderedConcat(Segments(work), w.segments, w.comment.start, w.comment.end);
    var all, comments := Segments(more), Kept(t, more);
    forall k | 0 <= k < |all| ensures InSomeComment(all[k], comments) {
      if k < |Segments(work)| {
        assert InSomeComment(Segments(work)[k], Kept(t, work));
        var j :| 0 <= j < |Kept(t, work)|
                 && Kept(t, work)[j].start <= all[k].start && all[k].end <= Kept(t, work)[j].end;
        assert comments[j] == Kept(t, work)[j];
      } else {
        assert comments[|comments| - 1] == w.comment;
      }
    }
  }

  /** The whole extraction.  `extract` is false when extraction is off.  Whether or not the marker pre-check
      let the scan run, the comments are the kept ones of a full scan. */
  method ExtractComments(text: string, extract: bool, style: Option<Style>, t: Tests)
    returns (comments: seq<Comment>, configSegments: seq<Segment>, ghost work: seq<Work>)
    requires style.Some? ==> Usable(style.value)
    ensures comments == Kept(t, work) && configSegments == Segments(work)
    ensures extract && style.Some? ==> Scanned(text, style.value, |text|, Scans(work))
    ensures !extract || style.None? ==> work == []
    ensures extract && style.Some? ==> forall c :: c in Scans(work) ==> Delimited(text, style.value, c)
    ensures forall k :: 0 <= k < |work| ==> Worked(text, t, work[k])
    ensures SegmentsSound(configSegments, comments)
  {
    hide Scanned, Delimited, Worked, Usable, Kept, Segments, SegmentsSound, Inside, ContentText, Ordered;
    comments, configSegments, work := [], [], [];
    NoWork(t);
    if !extract || style.None? { return; }
    var found := HasPotentialCommentMarkers(text, style.value);
    if !found {
      NoneScanned(text, style.value);
      return;
    }
    var rawComments := ScanComments(text, style.value);
    ghost var end: nat := 0;
    for i := 0 to |rawComments|
      invariant Scans(work) == rawComments[..i]
      invariant comments == Kept(t, work) && configSegments == Segments(work)
      invariant forall k :: 0 <= k < |work| ==> Worked(text, t, work[k])
      invariant SegmentsSound(configSegments, comments) && Inside(configSegments, 0, end)
      invariant i < |rawComments| ==> end <= rawComments[i].start
    {
      var entry := rawComments[i];
      ScannedEntry(text, style.value, rawComments, i);
      var kept, segments;
      ghost var w;
      kept, segments, w := WorkOn(text, t, entry);
      WorkAppend(t, work, w, end);
      if kept {
        comments := comments + [entry];
        configSegments := configSegments + segments;
      }
      work, end := work + [w], entry.end;
      assert Scans(work) == rawComments[..i + 1];
    }
    assert rawComments[..|rawComments|] == rawComments;
  }

  lemma NoWork(t: Tests)
    ensures Kept(t, []) == [] && Segments([]) == [] && SegmentsSound([], []) && Inside([], 0, 0)
  {
  }

  lemma NoneScanned(text: string, style: Style)
    requires Usable(style)
    requires text == "" || ((forall m :: m in style.line && m != "" ==> !Includes(text, m))
                            && (forall b :: b in style.block && b.start != "" ==> !Includes(text, b.start)))
    ensures Scanned(text, style, |text|, Scans([]))
  {
    assert Scans([]) == [];
    if text == "" {
      NothingScanned(text, style);
    } else {
      NoMarkersNoComments(text, style, |text|);
    }
  }

  /** What the scan promises about entry i. */
  lemma ScannedEntry(text: string, style: Style, out: seq<Comment>, i: nat)
    requires Usable(style) && Scanned(text, style, |text|, out) && i < |out|
    ensures var c := out[i];
            && c.start < c.end <= |text| && c.raw == text[c.start..c.end] && c.markerStart <= c.raw
            && (!c.isBlock ==> '\n' !in c.markerStart)
    ensures i + 1 < |out| ==> out[i].end <= out[i + 1].start
  {
    hide ModeAt;
    assert WholeComment(text, style, out[i]);
  }
}
