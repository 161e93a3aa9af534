/** Excerpts under byte and token caps, and the bounded read behind them:
    src/context-pack/assemble.js:1678-1690, 1725-1748 and 1773-1783. */
module Excerpts {
  import opened Wrappers
  import opened Utf8

  const SLACK_BYTES: nat := 4
  const SPACE: Scalar := 0x20

  /** The characters JavaScript's \s matches. */
  predicate IsSpace(c: Scalar) {
    || 9 <= c <= 13 || c == 0x20 || c == 0xA0 || c == 0x1680 || 0x2000 <= c <= 0x200A
    || c == 0x2028 || c == 0x2029 || c == 0x202F || c == 0x205F || c == 0x3000 || c == 0xFEFF
  }

  lemma SpaceCodes(c: Scalar)
    ensures IsSpace(c) <==> c in SPACE_CODES
  {
  }

  /** The length of the run of non-space characters `t` starts with. */
  function Run(t: Text): (n: nat)
    ensures n <= |t| && (forall i :: 0 <= i < n ==> !IsSpace(t[i])) && (n < |t| ==> IsSpace(t[n]))
  {
    if t == [] || IsSpace(t[0]) then 0 else 1 + Run(t[1..])
  }

  /** Splitting on runs of white space and dropping the empty pieces. */
  function Tokens(t: Text): seq<Text> {
    if t == [] then []
    else if IsSpace(t[0]) then Tokens(t[1..])
    else [t[..Run(t)]] + Tokens(t[Run(t)..])
  }

  function Join(ts: seq<Text>): Text {
    if ts == [] then []
    else if |ts| == 1 then ts[0]
    else ts[0] + [SPACE] + Join(ts[1..])
  }

  datatype Excerpt = Excerpt(text: Text, truncated: bool, truncatedBytes: bool, truncatedTokens: bool)

  predicate CutsBytes(t: Text, maxBytes: Option<int>) {
    maxBytes.Some? && maxBytes.value > 0 && |Encode(t)| > maxBytes.value
  }

  predicate CutsTokens(t: Text, maxTokens: Option<int>) {
    maxTokens.Some? && maxTokens.value > 0 && |Tokens(t)| > maxTokens.value
  }

  function ByteCut(t: Text, maxBytes: Option<int>): Text {
    if CutsBytes(t, maxBytes) then t[..Fit(t, maxBytes.value)] else t
  }

  function TokenCut(t: Text, maxTokens: Option<int>): Text {
    if CutsTokens(t, maxTokens) then Join(Tokens(t)[..maxTokens.value]) else t
  }

  function Slice(t: Text, maxBytes: Option<int>, maxTokens: Option<int>): Excerpt {
    var cut := ByteCut(t, maxBytes);
    Excerpt(TokenCut(cut, maxTokens), CutsBytes(t, maxBytes) || CutsTokens(cut, maxTokens),
            CutsBytes(t, maxBytes), CutsTokens(cut, maxTokens))
  }

  method SliceExcerpt(text: Text, maxBytes: Option<int>, maxTokens: Option<int>) returns (r: Excerpt)
    ensures r == Slice(text, maxBytes, maxTokens)
    ensures exists m: nat, ts :: SlicedAs(text, maxBytes, maxTokens, r, m, ts)
  {
    hide Encode, Fit, Tokens, Join, Decode, SlicedAs;
    SliceMeans(text, maxBytes, maxTokens);
    var excerpt, truncated, truncatedBytes, truncatedTokens := text, false, false, false;
    if maxBytes.Some? && maxBytes.value > 0 {
      var buffer := Encode(excerpt);
      if |buffer| > maxBytes.value {
        var safe := TrimUtf8Buffer(buffer[..maxBytes.value], text);
        DecodeEncode(text[..Fit(text, maxBytes.value)]);
        excerpt := Decode(safe);
        truncated, truncatedBytes := true, true;
      }
    }
    if maxTokens.Some? && maxTokens.value > 0 {
      var tokens := Tokens(excerpt);
      if |tokens| > maxTokens.value {
        excerpt := Join(tokens[..maxTokens.value]);
        truncated, truncatedTokens := true, true;
      }
    }
    return Excerpt(excerpt, truncated, truncatedBytes, truncatedTokens);
  }

  // ---- Caps ----

  predicate IsToken(w: Text) {
    w != [] && forall i :: 0 <= i < |w| ==> !IsSpace(w[i])
  }

  lemma {:induction false} TokensAreTokens(t: Text)
    ensures forall i :: 0 <= i < |Tokens(t)| ==> IsToken(Tokens(t)[i])
    decreases |t|
  {
    if t == [] {
    } else if IsSpace(t[0]) {
      TokensAreTokens(t[1..]);
    } else {
      TokensAreTokens(t[Run(t)..]);
    }
  }

  lemma {:induction false} RunOfToken(w: Text, rest: Text)
    requires IsToken(w) && (rest != [] ==> IsSpace(rest[0]))
    ensures Run(w + rest) == |w|
  {
    if |w| == 1 {
      assert (w + rest)[1..] == rest;
    } else {
      assert (w + rest)[1..] == w[1..] + rest;
      RunOfToken(w[1..], rest);
    }
  }

  /** Joining tokens with single spaces and splitting again gives them back. */
  lemma {:induction false} TokensOfJoin(ts: seq<Text>)
    requires forall i :: 0 <= i < |ts| ==> IsToken(ts[i])
    ensures Tokens(Join(ts)) == ts
  {
    if |ts| == 1 {
      RunOfToken(ts[0], []);
      assert ts[0] + [] == ts[0];
    } else if |ts| > 1 {
      TokensOfJoin(ts[1..]);
      var rest := [SPACE] + Join(ts[1..]);
      var joined := ts[0] + rest;
      assert Join(ts) == joined;
      RunOfToken(ts[0], rest);
      assert joined[..|ts[0]|] == ts[0] && joined[|ts[0]|..] == rest;
      assert rest[1..] == Join(ts[1..]);
      assert Tokens(rest) == ts[1..];
    }
  }

  /** Joined tokens take no more bytes than the text they were split from: each gap had at least a byte. */
  lemma {:induction false} JoinFits(t: Text)
    ensures |Encode(Join(Tokens(t)))| <= |Encode(t)|
    ensures t != [] && IsSpace(t[0]) && Tokens(t) != [] ==> |Encode(Join(Tokens(t)))| < |Encode(t)|
    decreases |t|
  {
    hide EncodeChar;
    if t == [] {
    } else if IsSpace(t[0]) {
      JoinFits(t[1..]);
      assert Encode(t) == EncodeChar(t[0]) + Encode(t[1..]);
    } else {
      var n := Run(t);
      var rest := t[n..];
      JoinFits(rest);
      EncodeConcat(t[..n], rest);
      assert t == t[..n] + rest;
      if Tokens(rest) != [] {
        EncodeConcat(t[..n], [SPACE] + Join(Tokens(rest)));
        EncodeSpace(Join(Tokens(rest)));
        assert Join(Tokens(t)) == t[..n] + ([SPACE] + Join(Tokens(rest)));
      }
    }
  }

  lemma EncodeSpace(t: Text)
    ensures |Encode([SPACE] + t)| == 1 + |Encode(t)|
  {
    assert ([SPACE] + t)[1..] == t;
  }

  lemma {:induction false} JoinPrefixFits(ts: seq<Text>, k: nat)
    requires k <= |ts|
    ensures |Encode(Join(ts[..k]))| <= |Encode(Join(ts))|
  {
    hide EncodeChar, Encode;
    EncodeNothing();
    if 0 < k < |ts| {
      var head, tail := ts[..k], ts[1..];
      JoinPrefixFits(tail, k - 1);
      assert head[1..] == tail[..k - 1];
      EncodeConcat(ts[0], [SPACE] + Join(tail));
      EncodeSpace(Join(tail));
      assert Join(ts) == ts[0] + ([SPACE] + Join(tail));
      if k > 1 {
        EncodeConcat(ts[0], [SPACE] + Join(tail[..k - 1]));
        EncodeSpace(Join(tail[..k - 1]));
        assert Join(head) == ts[0] + ([SPACE] + Join(tail[..k - 1]));
      }
    } else if k == |ts| {
      assert ts[..k] == ts;
    }
  }

  lemma EncodeNothing()
    ensures Encode([]) == []
  {
  }

  lemma TokenCutFits(t: Text, maxTokens: Option<int>)
    ensures |Encode(TokenCut(t, maxTokens))| <= |Encode(t)|
    ensures !CutsTokens(TokenCut(t, maxTokens), maxTokens)
    ensures CutsTokens(t, maxTokens) ==> Tokens(TokenCut(t, maxTokens)) == Tokens(t)[..maxTokens.value]
  {
    hide Encode, Join, Tokens;
    if CutsTokens(t, maxTokens) {
      JoinFits(t);
      JoinPrefixFits(Tokens(t), maxTokens.value);
      TokensAreTokens(t);
      TokensOfJoin(Tokens(t)[..maxTokens.value]);
    }
  }

  /** The result meets both caps; the byte cut keeps the longest whole-character prefix within the cap, the
      token cut the first tokens; and slicing the result again changes nothing and reports nothing. */
  lemma SliceMeetsCaps(t: Text, maxBytes: Option<int>, maxTokens: Option<int>)
    ensures var r := Slice(t, maxBytes, maxTokens);
            && (maxBytes.Some? && maxBytes.value > 0 ==> |Encode(r.text)| <= maxBytes.value)
            && (maxTokens.Some? && maxTokens.value > 0 ==> |Tokens(r.text)| <= maxTokens.value)
            && Slice(r.text, maxBytes, maxTokens) == Excerpt(r.text, false, false, false)
            && (r.truncated <==> r.truncatedBytes || r.truncatedTokens) && (!r.truncated ==> r.text == t)
    ensures maxBytes.Some? && maxBytes.value > 0 ==>
              forall m :: 0 <= m <= |t| ==> (|Encode(t[..m])| <= maxBytes.value <==> m <= |ByteCut(t, maxBytes)|)
    ensures ByteCut(t, maxBytes) <= t
  {
    hide Encode, Join, Tokens, Fit;
    var cut := ByteCut(t, maxBytes);
    TokenCutFits(cut, maxTokens);
    if maxBytes.Some? && maxBytes.value > 0 {
      forall m | 0 <= m <= |t| ensures |Encode(t[..m])| <= maxBytes.value <==> m <= |cut| {
        FitIsLongest(t, maxBytes.value, m);
        FitAll(t, maxBytes.value);
      }
      assert |Encode(t[..|cut|])| <= maxBytes.value;
      assert t[..|cut|] == cut;
    }
  }

  lemma FitAll(t: Text, k: nat)
    ensures |Encode(t)| <= k <==> Fit(t, k) == |t|
  {
    FitIsLongest(t, k, |t|);
    assert t[..|t|] == t;
  }

  // ---- Slices, told from bytes and tokens ----

  ghost predicate Blank(t: Text) { forall i :: 0 <= i < |t| ==> IsSpace(t[i]) }

  /** White space, a token, and white space again before the rest, until nothing but white space is left. */
  ghost predicate SplitsInto(t: Text, ts: seq<Text>)
    decreases |ts|
  {
    if ts == [] then Blank(t)
    else
      exists gap: Text, rest: Text :: t == gap + (ts[0] + rest) && Blank(gap) && IsToken(ts[0])
        && (rest != [] ==> IsSpace(rest[0])) && SplitsInto(rest, ts[1..])
  }

  lemma {:induction false} SkipsGap(gap: Text, t: Text)
    requires Blank(gap)
    ensures Tokens(gap + t) == Tokens(t)
  {
    if gap == [] {
      assert gap + t == t;
    } else {
      assert (gap + t)[1..] == gap[1..] + t;
      SkipsGap(gap[1..], t);
    }
  }

  lemma TakesToken(w: Text, rest: Text)
    requires IsToken(w) && (rest != [] ==> IsSpace(rest[0]))
    ensures Tokens(w + rest) == [w] + Tokens(rest)
  {
    RunOfToken(w, rest);
    assert (w + rest)[..|w|] == w && (w + rest)[|w|..] == rest;
  }

  /** The tokens are those of the only such split. */
  lemma {:induction false} TokensMean(t: Text, ts: seq<Text>)
    requires SplitsInto(t, ts)
    ensures Tokens(t) == ts
    decreases |ts|
  {
    hide Tokens, IsSpace;
    if ts == [] {
      SkipsGap(t, []);
      assert t + [] == t;
      NoTokens();
    } else {
      var gap: Text, rest: Text :| t == gap + (ts[0] + rest) && Blank(gap) && IsToken(ts[0])
        && (rest != [] ==> IsSpace(rest[0])) && SplitsInto(rest, ts[1..]);
      SkipsGap(gap, ts[0] + rest);
      TakesToken(ts[0], rest);
      TokensMean(rest, ts[1..]);
    }
  }

  lemma NoTokens()
    ensures Tokens([]) == []
  {
  }

  lemma {:induction false} TokensSplit(t: Text)
    ensures SplitsInto(t, Tokens(t))
    decreases |t|
  {
    hide IsSpace, Run;
    if t == [] {
    } else if IsSpace(t[0]) {
      TokensSplit(t[1..]);
      SplitsLater(t, Tokens(t[1..]));
    } else {
      var n := Run(t);
      TokensSplit(t[n..]);
      var w, rest := t[..n], t[n..];
      assert t == [] + (w + rest) && IsToken(w);
      assert Tokens(t)[1..] == Tokens(rest);
      assert Blank([]);
    }
  }

  lemma SplitsLater(t: Text, ts: seq<Text>)
    requires t != [] && IsSpace(t[0]) && SplitsInto(t[1..], ts)
    ensures SplitsInto(t, ts)
  {
    if ts != [] {
      var gap: Text, rest: Text :| t[1..] == gap + (ts[0] + rest) && Blank(gap) && IsToken(ts[0])
        && (rest != [] ==> IsSpace(rest[0])) && SplitsInto(rest, ts[1..]);
      assert t == ([t[0]] + gap) + (ts[0] + rest);
      assert Blank([t[0]] + gap);
    }
  }

  function Total(ts: seq<Text>): nat {
    if ts == [] then 0 else |ts[0]| + Total(ts[1..])
  }

  /** The tokens with one space, U+0020, between any two and none elsewhere. */
  ghost predicate JoinedBy(ts: seq<Text>, t: Text) {
    && SplitsInto(t, ts) && |t| == Total(ts) + (if ts == [] then 0 else |ts| - 1)
    && forall i :: 0 <= i < |t| && IsSpace(t[i]) ==> t[i] == 0x20
  }

  lemma {:induction false} JoinShape(ts: seq<Text>)
    requires forall i :: 0 <= i < |ts| ==> IsToken(ts[i])
    ensures |Join(ts)| == Total(ts) + (if ts == [] then 0 else |ts| - 1)
    ensures forall i :: 0 <= i < |Join(ts)| && IsSpace(Join(ts)[i]) ==> Join(ts)[i] == 0x20
  {
    hide IsSpace;
    if ts != [] {
      JoinShape(ts[1..]);
      assert |ts| == 1 ==> Total(ts[1..]) == 0;
    }
  }

  lemma JoinMeans(ts: seq<Text>)
    requires forall i :: 0 <= i < |ts| ==> IsToken(ts[i])
    ensures JoinedBy(ts, Join(ts))
  {
    hide IsSpace, Tokens, Join, SplitsInto;
    JoinShape(ts);
    TokensOfJoin(ts);
    TokensSplit(Join(ts));
  }

  /** The first `m` characters of the text and no more fit in a cap its bytes exceed, or all are kept; of their tokens
      the first are kept, joined, when there are more than the cap. */
  ghost predicate SlicedAs(t: Text, maxBytes: Option<int>, maxTokens: Option<int>, r: Excerpt, m: nat, ts: seq<Text>) {
    && m <= |t| && SplitsInto(t[..m], ts) && (r.truncated <==> r.truncatedBytes || r.truncatedTokens)
    && (forall b :: SpelledAs(b, t) ==> (r.truncatedBytes <==> maxBytes.Some? && 0 < maxBytes.value < |b|))
    && (if r.truncatedBytes
        then && m < |t| && maxBytes.Some? && (forall b :: SpelledAs(b, t[..m]) ==> |b| <= maxBytes.value)
             && (forall b :: SpelledAs(b, t[..m + 1]) ==> |b| > maxBytes.value)
        else m == |t|)
    && (r.truncatedTokens <==> maxTokens.Some? && 0 < maxTokens.value < |ts|)
    && (if r.truncatedTokens
        then JoinedBy(ts[..if maxTokens.Some? && 0 < maxTokens.value < |ts| then maxTokens.value else 0], r.text)
        else r.text == t[..m])
  }

  lemma SliceMeans(t: Text, maxBytes: Option<int>, maxTokens: Option<int>)
    ensures var cut := ByteCut(t, maxBytes);
            SlicedAs(t, maxBytes, maxTokens, Slice(t, maxBytes, maxTokens), |cut|, Tokens(cut))
  {
    hide Encode, Join, Tokens, Fit, SplitsInto, SpelledAs, JoinedBy;
    var cut := ByteCut(t, maxBytes);
    TokensSplit(cut);
    TokensAreTokens(cut);
    assert cut == t[..|cut|];
    forall b, m | 0 <= m <= |t| ensures SpelledAs(b, t[..m]) <==> b == Encode(t[..m]) { SpelledMeans(b, t[..m]); }
    assert t[..|t|] == t;
    if CutsBytes(t, maxBytes) {
      FitAll(t, maxBytes.value);
      FitIsLongest(t, maxBytes.value, |cut|);
      FitIsLongest(t, maxBytes.value, |cut| + 1);
    }
    if CutsTokens(cut, maxTokens) { JoinMeans(Tokens(cut)[..maxTokens.value]); }
  }

  // ---- Bounded reads ----

  /** The bytes of a file in a range, clamped as readFileRangeSync clamps it. */
  function FileRange(file: seq<byte>, start: int, end: int): seq<byte> {
    var safeStart := Min(Max(0, start), |file|);
    var safeEnd := Min(Max(safeStart, end), |file|);
    file[safeStart..safeEnd]
  }

  /** A range inside the file yields what stands there; one that reaches out yields what is inside. */
  lemma FileRangeMeans(before: seq<byte>, middle: seq<byte>, after: seq<byte>, start: int, end: int)
    ensures FileRange(before + middle + after, |before|, |before| + |middle|) == middle
    ensures start <= 0 ==> FileRange(middle, start, end) == FileRange(middle, 0, end)
    ensures end >= |middle| ==> FileRange(middle, start, end) == FileRange(middle, start, |middle|)
    ensures start >= |middle| || end <= start || end <= 0 ==> FileRange(middle, start, end) == []
  {
  }

  /** Where a range read stops: `slack` bytes past the byte cap.  A missing or zero cap reads it all. */
  function ReadEnd(start: int, end: int, maxBytes: Option<int>, slack: nat): int {
    if maxBytes.Some? && maxBytes.value != 0 then Min(end, start + maxBytes.value + slack) else end
  }

  /** `text` is what a range read yields, whatever the file holds: the range, trimmed and decoded. */
  ghost predicate Reads(file: seq<byte>, start: int, end: int, text: Text) {
    exists safe :: TrimmedTo(FileRange(file, start, end), safe) && text == Decode(safe)
  }

  /** The text a range read of the file yields. */
  method ReadText(file: seq<byte>, start: int, end: int, ghost t: Text) returns (text: Text)
    ensures Reads(file, start, end, text)
    ensures 0 <= start <= |file| && SpelledAs(file[start..], t) ==>
              text == t[..Fit(t, Min(Max(0, end - start), |Encode(t)|))]
  {
    hide Encode, Fit, Decode, SpelledAs, TrimmedTo, FileRange;
    if 0 <= start <= |file| { SpelledMeans(file[start..], t); }
    RangeStands(file, start, end);
    var buffer := FileRange(file, start, end);
    var safe := TrimUtf8Buffer(buffer, t);
    if 0 <= start <= |file| && file[start..] == Encode(t) {
      DecodeEncode(t[..Fit(t, |buffer|)]);
    }
    text := Decode(safe);
  }

  lemma RangeStands(file: seq<byte>, start: int, end: int)
    ensures 0 <= start <= |file| ==>
              var r := FileRange(file, start, end);
              |r| == Min(Max(0, end - start), |file[start..]|) && r <= file[start..]
  {
  }

  lemma ReadEndShifts(start: int, end: int, maxBytes: Option<int>, slack: nat)
    ensures ReadEnd(start, end, maxBytes, slack) - start == ReadEnd(0, end - start, maxBytes, slack)
  {
  }

  ghost predicate ReadFor(file: seq<byte>, range: Option<(int, int)>, maxBytes: Option<int>, text: Text) {
    if range.Some? && range.value.0 < range.value.1 then
      var (start, end) := range.value;
      var readEnd := if maxBytes.Some? && maxBytes.value != 0 then Min(end, start + maxBytes.value + 4) else end;
      Reads(file, start, readEnd, text)
    else if maxBytes.Some? && maxBytes.value > 0 then Reads(file, 0, maxBytes.value + 4, text)
    else text == []
  }

  /** The bounded read of resolveExcerpt: a range if there is one, else a prefix of the file. */
  method ResolveExcerpt(
      file: seq<byte>, range: Option<(int, int)>, maxBytes: Option<int>, maxTokens: Option<int>, ghost t: Text)
    returns (r: Excerpt)
    ensures exists text :: r == Slice(text, maxBytes, maxTokens) && ReadFor(file, range, maxBytes, text)
    ensures range.Some? && range.value.0 < range.value.1 && 0 <= range.value.0 <= |file|
              && SpelledAs(file[range.value.0..], t) ==>
              r == LimitedSlice(t, range.value.1 - range.value.0, maxBytes, maxTokens, 4)
    ensures !(range.Some? && range.value.0 < range.value.1) && SpelledAs(file, t) ==>
              r == if maxBytes.Some? && maxBytes.value > 0
                   then LimitedSlice(t, |file|, maxBytes, maxTokens, 4) else Slice([], maxBytes, maxTokens)
  {
    hide Encode, Fit, Slice, SpelledAs, Reads, SlicedAs;
    SpelledMeans(file, t);
    var text := [];
    if range.Some? && range.value.0 < range.value.1 {
      var (start, end) := range.value;
      ReadEndShifts(start, end, maxBytes, SLACK_BYTES);
      text := ReadText(file, start, ReadEnd(start, end, maxBytes, SLACK_BYTES), t);
    } else if maxBytes.Some? && maxBytes.value > 0 {
      assert file[0..] == file;
      text := ReadText(file, 0, maxBytes.value + SLACK_BYTES, t);
    }
    r := SliceExcerpt(text, maxBytes, maxTokens);
  }

  /** Slicing the first `length` bytes of the text (fewer if the text is shorter), whole characters only. */
  function FullSlice(t: Text, length: nat, maxBytes: Option<int>, maxTokens: Option<int>): Excerpt {
    Slice(t[..Fit(t, Min(length, |Encode(t)|))], maxBytes, maxTokens)
  }

  /** The same, reading at most `slack` bytes past the byte cap. */
  function LimitedSlice(t: Text, length: nat, maxBytes: Option<int>, maxTokens: Option<int>, slack: nat): Excerpt {
    FullSlice(t, Max(0, ReadEnd(0, length, maxBytes, slack)), maxBytes, maxTokens)
  }

  lemma FitOfPrefix(t: Text, m: nat, k: nat)
    requires m <= |t| && |Encode(t[..m])| > k
    ensures Fit(t[..m], k) == Fit(t, k) < m
  {
    hide Encode, Fit;
    var f, g := Fit(t, k), Fit(t[..m], k);
    FitIsLongest(t, k, m);
    assert t[..m][..f] == t[..f] && t[..m][..g] == t[..g];
    FitIsLongest(t, k, f);
    FitIsLongest(t[..m], k, f);
    FitIsLongest(t[..m], k, g);
    FitIsLongest(t, k, g);
  }

  /** A text cut four or more bytes past the cap still exceeds it, so it is cut to the same characters. */
  lemma CutBeyondCap(t: Text, l: nat, maxBytes: nat, maxTokens: Option<int>)
    requires 0 < maxBytes && maxBytes + 4 <= l <= |Encode(t)|
    ensures Slice(t[..Fit(t, l)], Some(maxBytes), maxTokens)
         == Excerpt(TokenCut(t[..Fit(t, maxBytes)], maxTokens), true, true,
             CutsTokens(t[..Fit(t, maxBytes)], maxTokens))
  {
    hide Encode, Fit, Tokens, Join;
    var a := t[..Fit(t, l)];
    FitRemainder(t, l);
    assert |Encode(a)| > maxBytes;
    FitOfPrefix(t, |a|, maxBytes);
    assert a[..Fit(a, maxBytes)] == t[..Fit(t, maxBytes)];
  }

  /** Four slack bytes suffice: the bounded read gives the excerpt and the flags of the full read. */
  lemma BoundedReadAgrees(t: Text, length: nat, maxBytes: Option<int>, maxTokens: Option<int>, slack: nat)
    requires (maxBytes.Some? ==> maxBytes.value >= 0) && slack >= 4
    ensures LimitedSlice(t, length, maxBytes, maxTokens, slack) == FullSlice(t, length, maxBytes, maxTokens)
  {
    hide Encode, Fit, Slice;
    if maxBytes.Some? && maxBytes.value > 0 {
      var m, l := maxBytes.value, Min(length, |Encode(t)|);
      if l > m + slack {
        CutBeyondCap(t, l, m, maxTokens);
        CutBeyondCap(t, m + slack, m, maxTokens);
      }
    }
  }

  ghost function Letters(n: nat): (t: Text)
    ensures |t| == n && forall i :: 0 <= i < n ==> t[i] == 0x61
  {
    seq(n, _ => 0x61)
  }

  lemma {:induction false} EncodeLetters(n: nat)
    ensures |Encode(Letters(n))| == n
  {
    if n > 0 {
      EncodeLetters(n - 1);
      assert Letters(n)[1..] == Letters(n - 1);
    }
  }

  lemma {:induction false} RunOfLetters(n: nat)
    ensures Run(Letters(n)) == n && |Tokens(Letters(n))| <= 1
  {
    if n > 0 {
      RunOfLetters(n - 1);
      assert Letters(n)[1..] == Letters(n - 1);
      assert Letters(n)[n..] == [];
    }
  }

  lemma SliceOfLetters(n: nat, k: nat, maxBytes: Option<int>, maxTokens: Option<int>)
    requires maxBytes.Some? && maxBytes.value < 0 && k <= n
    ensures Slice(Letters(n)[..Fit(Letters(n), k)], maxBytes, maxTokens).text == Letters(k)
  {
    hide Encode, Fit, Tokens;
    assert Letters(n)[..k] == Letters(k);
    EncodeLetters(k);
    FitIsLongest(Letters(n), k, k);
    if k < n {
      assert Letters(n)[..k + 1] == Letters(k + 1);
      EncodeLetters(k + 1);
      FitIsLongest(Letters(n), k, k + 1);
    }
    RunOfLetters(k);
  }

  /** The bounded read agrees with the full read for every text and range exactly when the byte cap is not
      negative: a negative cap shortens the read although it cuts nothing. */
  lemma BoundedReadAgreesWhen(maxBytes: Option<int>, maxTokens: Option<int>)
    ensures (forall t, length: nat ::
               LimitedSlice(t, length, maxBytes, maxTokens, SLACK_BYTES) == FullSlice(t, length, maxBytes, maxTokens))
            <==> (maxBytes.Some? ==> maxBytes.value >= 0)
  {
    hide Encode, Fit, Slice, FullSlice;
    if maxBytes.Some? && maxBytes.value < 0 {
      var t := Letters(8);
      EncodeLetters(8);
      var k := Max(0, 4 + maxBytes.value);
      SliceOfLetters(8, 8, maxBytes, maxTokens);
      SliceOfLetters(8, k, maxBytes, maxTokens);
      FullSliceIs(t, 8, maxBytes, maxTokens);
      FullSliceIs(t, k, maxBytes, maxTokens);
      assert LimitedSlice(t, 8, maxBytes, maxTokens, SLACK_BYTES) != FullSlice(t, 8, maxBytes, maxTokens);
    } else {
      forall t, length: nat
        ensures LimitedSlice(t, length, maxBytes, maxTokens, SLACK_BYTES) == FullSlice(t, length, maxBytes, maxTokens)
      {
        BoundedReadAgrees(t, length, maxBytes, maxTokens, SLACK_BYTES);
      }
    }
  }

  lemma FullSliceIs(t: Text, length: nat, maxBytes: Option<int>, maxTokens: Option<int>)
    requires length <= |Encode(t)|
    ensures FullSlice(t, length, maxBytes, maxTokens) == Slice(t[..Fit(t, length)], maxBytes, maxTokens)
  {
  }

  /** And four is the least slack that does: with fewer bytes a cut four-byte character goes unnoticed. */
  lemma SlackNeeded(slack: nat, maxTokens: Option<int>)
    ensures (forall t, length: nat, maxBytes: nat :: maxBytes > 0 ==>
               LimitedSlice(t, length, Some(maxBytes), maxTokens, slack)
               == FullSlice(t, length, Some(maxBytes), maxTokens))
            <==> slack >= 4
  {
    if slack >= 4 {
      forall t, length: nat, maxBytes: nat | maxBytes > 0
        ensures LimitedSlice(t, length, Some(maxBytes), maxTokens, slack)
                  == FullSlice(t, length, Some(maxBytes), maxTokens)
      {
        BoundedReadAgrees(t, length, Some(maxBytes), maxTokens, slack);
      }
    } else {
      var t: Text := [0x61, 0x1F600];
      assert t[1..] == [0x1F600] && Encode(t) == EncodeChar(0x61) + (EncodeChar(0x1F600) + []);
      assert Fit(t, 5) == 2 && Fit(t, 1 + slack) == 1;
      assert t[..2] == t && t[..1] == [0x61] && |Encode([0x61])| == 1 by { EncodeOne(0x61); }
      assert FullSlice(t, 5, Some(1), maxTokens).truncatedBytes;
      assert !LimitedSlice(t, 5, Some(1), maxTokens, slack).truncatedBytes;
    }
  }
}
