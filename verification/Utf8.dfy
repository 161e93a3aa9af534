/** UTF-8 text as bytes (RFC 3629, section 3) and the trimming of a cut buffer:
    src/context-pack/assemble.js:1617-1633. */
module Utf8 {
  import opened Wrappers

  type Scalar = c: int | 0 <= c < 0xD800 || 0xE000 <= c < 0x11_0000
  type Text = seq<Scalar>
  type byte = b: int | 0 <= b < 256

  /** The source tests bytes with masks; on bytes the masks are ranges. */
  lemma MasksAreRanges(b: bv8)
    ensures (b & 0xC0) == 0x80 <==> 0x80 <= b < 0xC0
    ensures (b & 0x80) == 0 <==> b < 0x80
    ensures (b & 0xE0) == 0xC0 <==> 0xC0 <= b < 0xE0
    ensures (b & 0xF0) == 0xE0 <==> 0xE0 <= b < 0xF0
    ensures (b & 0xF8) == 0xF0 <==> 0xF0 <= b < 0xF8
  {
  }

  predicate IsContinuation(b: byte) { 0x80 <= b < 0xC0 }

  /** So these tests read a byte as the source's masks do. */
  lemma ByMasks(b: bv8)
    ensures IsContinuation(b as int) <==> (b & 0xC0) == 0x80
    ensures Needed(b as int) == if (b & 0x80) == 0 then 1 else if (b & 0xE0) == 0xC0 then 2
                                else if (b & 0xF0) == 0xE0 then 3 else if (b & 0xF8) == 0xF0 then 4 else 1
  {
    MasksAreRanges(b);
  }

  /** The length a lead byte announces; 1 for bytes that are no lead. */
  function Needed(lead: byte): nat {
    if lead < 0x80 then 1
    else if 0xC0 <= lead < 0xE0 then 2
    else if 0xE0 <= lead < 0xF0 then 3
    else if 0xF0 <= lead < 0xF8 then 4
    else 1
  }

  function EncodeChar(c: Scalar): (b: seq<byte>)
    ensures 1 <= |b| <= 4 && |b| == Needed(b[0]) && !IsContinuation(b[0])
    ensures forall i :: 1 <= i < |b| ==> IsContinuation(b[i])
  {
    if c < 0x80 then [c]
    else if c < 0x800 then [0xC0 + c / 0x40, 0x80 + c % 0x40]
    else if c < 0x1_0000 then [0xE0 + c / 0x1000, 0x80 + c / 0x40 % 0x40, 0x80 + c % 0x40]
    else [0xF0 + c / 0x4_0000, 0x80 + c / 0x1000 % 0x40, 0x80 + c / 0x40 % 0x40, 0x80 + c % 0x40]
  }

  function Encode(t: Text): seq<byte> {
    if t == [] then [] else EncodeChar(t[0]) + Encode(t[1..])
  }

  /** The code point spelled by the first Needed(b[0]) bytes. */
  function CodePoint(b: seq<byte>): int
    requires b != [] && |b| >= Needed(b[0])
  {
    var n, lead: int := Needed(b[0]), b[0];
    if n == 1 then lead
    else
      var b1: int := b[1];
      if n == 2 then 0x40 * (lead - 0xC0) + (b1 - 0x80)
      else
        var b2: int := b[2];
        if n == 3 then 0x1000 * (lead - 0xE0) + 0x40 * (b1 - 0x80) + (b2 - 0x80)
        else
          var b3: int := b[3];
          0x4_0000 * (lead - 0xF0) + 0x1000 * (b1 - 0x80) + 0x40 * (b2 - 0x80) + (b3 - 0x80)
  }

  /** How many bytes begin a character that does not go on as it must; one if none do. */
  function Broken(b: seq<byte>): (n: nat)
    requires b != []
    ensures 1 <= n <= 3 && n <= |b|
  {
    if |b| == 1 || !Begins(b[0], b[1]) then 1
    else if |b| == 2 || b[0] < 0xF0 || !IsContinuation(b[2]) then 2
    else 3
  }

  /** The two bytes begin a character of three or four. */
  predicate Begins(lead: byte, next: byte) {
    && 0xE0 <= lead <= 0xF4 && IsContinuation(next)
    && (lead == 0xE0 ==> next >= 0xA0) && (lead == 0xED ==> next < 0xA0)
    && (lead == 0xF0 ==> next >= 0x90) && (lead == 0xF4 ==> next < 0x90)
  }

  /** Decoding; where the bytes spell no scalar value, those that begin one give U+FFFD together, and other bytes one
      each. */
  function Decode(b: seq<byte>): Text {
    if b == [] then []
    else
      var n := Needed(b[0]);
      if |b| >= n && WellSpelled(b[..n]) then [CodePoint(b) as Scalar] + Decode(b[n..])
      else [0xFFFD] + Decode(b[Broken(b)..])
  }

  predicate WellSpelled(b: seq<byte>) {
    && b != [] && |b| == Needed(b[0])
    && (0 <= CodePoint(b) < 0xD800 || 0xE000 <= CodePoint(b) < 0x11_0000)
    && EncodeChar(CodePoint(b)) == b
  }

  // ---- The encoding, from the table of RFC 3629, section 4 ----

  ghost predicate Tail(b: byte) { 0x80 <= b <= 0xBF }

  /** A row of the table: UTF8-1, UTF8-2, UTF8-3 or UTF8-4. */
  ghost predicate TableRow(b: seq<byte>) {
    || (|b| == 1 && b[0] <= 0x7F)
    || (|b| == 2 && 0xC2 <= b[0] <= 0xDF && Tail(b[1]))
    || (|b| == 3 && Tail(b[2])
        && ((b[0] == 0xE0 && 0xA0 <= b[1] <= 0xBF) || (0xE1 <= b[0] <= 0xEC && Tail(b[1]))
            || (b[0] == 0xED && 0x80 <= b[1] <= 0x9F) || (0xEE <= b[0] <= 0xEF && Tail(b[1]))))
    || (|b| == 4 && Tail(b[2]) && Tail(b[3])
        && ((b[0] == 0xF0 && 0x90 <= b[1] <= 0xBF) || (0xF1 <= b[0] <= 0xF3 && Tail(b[1]))
            || (b[0] == 0xF4 && 0x80 <= b[1] <= 0x8F)))
  }

  ghost function Low(b: byte, limit: nat): int
    requires limit > 0
  {
    b % limit
  }

  /** The payload bits of a row, section 3: 7, 5, 4 or 3 of the first byte, then 6 of each other. */
  ghost function Payload(b: seq<byte>): int
    requires 1 <= |b| <= 4
  {
    if |b| == 1 then Low(b[0], 0x80)
    else if |b| == 2 then Low(b[0], 0x20) * 0x40 + Low(b[1], 0x40)
    else if |b| == 3 then (Low(b[0], 0x10) * 0x40 + Low(b[1], 0x40)) * 0x40 + Low(b[2], 0x40)
    else ((Low(b[0], 0x08) * 0x40 + Low(b[1], 0x40)) * 0x40 + Low(b[2], 0x40)) * 0x40 + Low(b[3], 0x40)
  }

  lemma TailLow(b: byte)
    ensures Tail(b) ==> Low(b, 0x40) == b - 0x80
    ensures b < 0x80 ==> Low(b, 0x80) == b
    ensures 0xC0 <= b < 0xE0 ==> Low(b, 0x20) == b - 0xC0
    ensures 0xE0 <= b < 0xF0 ==> Low(b, 0x10) == b - 0xE0
    ensures 0xF0 <= b < 0xF8 ==> Low(b, 0x08) == b - 0xF0
  {
  }

  lemma AllLow(b: seq<byte>)
    ensures forall i :: 0 <= i < |b| ==>
              && (Tail(b[i]) ==> Low(b[i], 0x40) == b[i] - 0x80)
              && (b[i] < 0x80 ==> Low(b[i], 0x80) == b[i])
              && (0xC0 <= b[i] < 0xE0 ==> Low(b[i], 0x20) == b[i] - 0xC0)
              && (0xE0 <= b[i] < 0xF0 ==> Low(b[i], 0x10) == b[i] - 0xE0)
              && (0xF0 <= b[i] < 0xF8 ==> Low(b[i], 0x08) == b[i] - 0xF0)
  {
    hide Low, Tail;
    forall i | 0 <= i < |b| { TailLow(b[i]); }
  }

  /** For a row the source's arithmetic reads the payload. */
  lemma RowCodePoint(b: seq<byte>)
    requires TableRow(b)
    ensures |b| == Needed(b[0]) && CodePoint(b) == Payload(b)
    ensures 0 <= Payload(b) < 0xD800 || 0xE000 <= Payload(b) < 0x11_0000
    ensures if |b| == 1 then Payload(b) < 0x80 else if |b| == 2 then 0x80 <= Payload(b) < 0x800
            else if |b| == 3 then 0x800 <= Payload(b) < 0x1_0000 else 0x1_0000 <= Payload(b)
  {
    hide Low;
    AllLow(b);
  }

  lemma CharRow(c: Scalar)
    ensures TableRow(EncodeChar(c))
  {
    Digits(c);
  }

  lemma EncodedRow(c: Scalar)
    ensures TableRow(EncodeChar(c)) && Payload(EncodeChar(c)) == c
  {
    hide EncodeChar, TableRow, Payload, CodePoint;
    CharRow(c);
    RowCodePoint(EncodeChar(c));
    CharRoundTrip(c, []);
  }

  // The digits of a number in base 64.
  lemma DigitsOf(a: int, b: int, c: int, d: int)
    requires 0 <= a && 0 <= b < 0x40 && 0 <= c < 0x40 && 0 <= d < 0x40
    ensures var n := ((a * 0x40 + b) * 0x40 + c) * 0x40 + d;
            n / 0x4_0000 == a && n / 0x1000 % 0x40 == b && n / 0x40 % 0x40 == c && n % 0x40 == d
            && n / 0x1000 == a * 0x40 + b && n / 0x40 == (a * 0x40 + b) * 0x40 + c
  {
    var x := a * 0x40 + b;
    var y := x * 0x40 + c;
    var n := y * 0x40 + d;
    LastDigit(y, d);
    LastDigit(x, c);
    LastDigit(a, b);
    Digits(n);
  }

  lemma LastDigit(a: int, d: int)
    requires 0 <= d < 0x40
    ensures (a * 0x40 + d) / 0x40 == a && (a * 0x40 + d) % 0x40 == d
  {
  }

  lemma RowEncoded(b: seq<byte>)
    requires TableRow(b)
    ensures 0 <= Payload(b) < 0xD800 || 0xE000 <= Payload(b) < 0x11_0000
    ensures EncodeChar(Payload(b)) == b
  {
    RowCodePoint(b);
    if |b| == 1 { RowOne(b); } else if |b| == 2 { RowTwo(b); } else if |b| == 3 { RowThree(b); } else { RowFour(b); }
  }

  lemma RowOne(b: seq<byte>)
    requires TableRow(b) && |b| == 1
    ensures Payload(b) < 0xD800 && EncodeChar(Payload(b)) == b
  {
  }

  lemma RowTwo(b: seq<byte>)
    requires TableRow(b) && |b| == 2
    ensures 0 <= Payload(b) < 0xD800 && EncodeChar(Payload(b)) == b
  {
    hide Low;
    AllLow(b);
    DigitsOf(0, 0, b[0] - 0xC0, b[1] - 0x80);
  }

  lemma RowThree(b: seq<byte>)
    requires TableRow(b) && |b| == 3 && (0 <= Payload(b) < 0xD800 || 0xE000 <= Payload(b) < 0x11_0000)
    ensures EncodeChar(Payload(b)) == b
  {
    hide Low;
    AllLow(b);
    RowCodePoint(b);
    DigitsOf(0, b[0] - 0xE0, b[1] - 0x80, b[2] - 0x80);
  }

  lemma RowFour(b: seq<byte>)
    requires TableRow(b) && |b| == 4 && (0 <= Payload(b) < 0xD800 || 0xE000 <= Payload(b) < 0x11_0000)
    ensures EncodeChar(Payload(b)) == b
  {
    hide Low;
    AllLow(b);
    RowCodePoint(b);
    DigitsOf(b[0] - 0xF0, b[1] - 0x80, b[2] - 0x80, b[3] - 0x80);
  }

  /** Bytes encode the scalar exactly when they are a row of the table with its payload. */
  lemma EncodesRow(b: seq<byte>, c: Scalar)
    ensures EncodeChar(c) == b <==> TableRow(b) && Payload(b) == c
    ensures WellSpelled(b) <==> TableRow(b)
  {
    hide EncodeChar, TableRow, Payload, CodePoint;
    EncodedRow(c);
    RowShape(b);
    if TableRow(b) {
      RowEncoded(b);
      CharRoundTrip(Payload(b), []);
    }
    if WellSpelled(b) { EncodedRow(CodePoint(b)); }
  }

  lemma RowShape(b: seq<byte>)
    ensures TableRow(b) ==> 1 <= |b| <= 4
  {
  }

  // Base-64 digits.
  lemma Digits(c: int)
    requires c >= 0
    ensures c == 0x40 * (c / 0x40) + c % 0x40
    ensures c / 0x40 == 0x40 * (c / 0x1000) + c / 0x40 % 0x40
    ensures c / 0x1000 == 0x40 * (c / 0x4_0000) + c / 0x1000 % 0x40
  {
  }

  lemma CharRoundTrip(c: Scalar, rest: seq<byte>)
    ensures CodePoint(EncodeChar(c) + rest) == c && CodePoint(EncodeChar(c)) == c
  {
    Digits(c);
  }

  lemma {:induction false} DecodeEncode(t: Text)
    ensures Decode(Encode(t)) == t
  {
    if t != [] {
      DecodeEncode(t[1..]);
      var b, rest := EncodeChar(t[0]), Encode(t[1..]);
      CharRoundTrip(t[0], rest);
      assert (b + rest)[..|b|] == b && (b + rest)[|b|..] == rest;
    }
  }

  lemma {:induction false} EncodeConcat(a: Text, b: Text)
    ensures Encode(a + b) == Encode(a) + Encode(b)
  {
    if a == [] {
      assert a + b == b;
    } else {
      assert (a + b)[1..] == a[1..] + b;
      EncodeConcat(a[1..], b);
      Associative(EncodeChar(a[0]), Encode(a[1..]), Encode(b));
    }
  }

  /** The bytes are one row of the table for each character, with its payload. */
  ghost predicate SpelledAs(b: seq<byte>, t: Text) {
    if t == [] then b == []
    else exists n :: 1 <= n <= |b| && n <= 4 && TableRow(b[..n]) && Payload(b[..n]) == t[0] && SpelledAs(b[n..], t[1..])
  }

  /** Encoding a text gives these bytes and no others. */
  lemma {:induction false} SpelledMeans(b: seq<byte>, t: Text)
    ensures SpelledAs(b, t) <==> b == Encode(t)
    decreases |t|
  {
    hide EncodeChar, TableRow, Payload;
    if t != [] {
      var c, rest := EncodeChar(t[0]), Encode(t[1..]);
      if SpelledAs(b, t) {
        var n :| 1 <= n <= |b| && n <= 4 && TableRow(b[..n]) && Payload(b[..n]) == t[0] && SpelledAs(b[n..], t[1..]);
        SpelledMeans(b[n..], t[1..]);
        EncodesRow(b[..n], t[0]);
        assert b == b[..n] + b[n..];
      }
      if b == Encode(t) {
        SpelledMeans(rest, t[1..]);
        EncodesRow(c, t[0]);
        assert b[..|c|] == c && b[|c|..] == rest;
      }
    }
  }

  /** The first `k` bytes can be completed to a row of the table. */
  ghost predicate Completes(b: seq<byte>, k: nat) {
    k <= |b| && exists row :: TableRow(row) && b[..k] < row
  }

  lemma RowPrefix(row: seq<byte>, k: nat)
    requires TableRow(row) && 2 <= k < |row|
    ensures Begins(row[0], row[1]) && (k > 2 ==> row[0] >= 0xF0 && IsContinuation(row[2])) && k <= 3
  {
  }

  lemma Completed(b: seq<byte>, k: nat) returns (row: seq<byte>)
    requires b != [] && 2 <= k <= Broken(b)
    ensures TableRow(row) && b[..k] < row
  {
    row := if b[0] < 0xF0 then [b[0], b[1], 0x80]
           else if k == 2 then [b[0], b[1], 0x80, 0x80] else [b[0], b[1], b[2], 0x80];
  }

  /** The bytes replaced together are the longest start of a row, when no row stands there. */
  lemma BrokenMeans(b: seq<byte>, k: nat)
    requires b != [] && 2 <= k <= |b| && forall n :: 0 <= n <= |b| ==> !TableRow(b[..n])
    ensures k <= Broken(b) <==> Completes(b, k)
  {
    hide TableRow, Broken, Begins;
    if k <= Broken(b) { var row := Completed(b, k); }
    if Completes(b, k) {
      var row :| TableRow(row) && b[..k] < row;
      BrokenReaches(b, k, row);
    }
  }

  lemma BrokenReaches(b: seq<byte>, k: nat, row: seq<byte>)
    requires b != [] && 2 <= k <= |b| && TableRow(row) && b[..k] < row
    ensures k <= Broken(b)
  {
    hide TableRow, Begins;
    RowPrefix(row, k);
    assert b[..k][0] == b[0] && b[..k][1] == b[1];
    if k > 2 { assert b[..k][2] == b[2]; }
  }

  /** Decoding goes row by row; where no row starts, one replacement character stands for the bytes replaced
      together. */
  lemma DecodeMeans(b: seq<byte>)
    requires b != []
    ensures forall n :: 1 <= n <= |b| && n <= 4 && TableRow(b[..n]) ==> Decode(b) == [Payload(b[..n])] + Decode(b[n..])
    ensures (forall n :: 0 <= n <= |b| ==> !TableRow(b[..n])) ==> Decode(b) == [0xFFFD] + Decode(b[Broken(b)..])
  {
    hide TableRow, Payload, EncodeChar;
    forall n | 1 <= n <= |b| && n <= 4 && TableRow(b[..n])
      ensures Decode(b) == [Payload(b[..n])] + Decode(b[n..])
    {
      RowDecodes(b, n);
    }
    var n := Needed(b[0]);
    if n <= |b| { EncodesRow(b[..n], 0); }
  }

  lemma RowDecodes(b: seq<byte>, n: nat)
    requires 1 <= n <= |b| && n <= 4 && TableRow(b[..n])
    ensures n == Needed(b[0]) && WellSpelled(b[..n]) && CodePoint(b) == Payload(b[..n])
    ensures Decode(b) == [Payload(b[..n])] + Decode(b[n..])
  {
    hide TableRow, Payload, EncodeChar;
    EncodesRow(b[..n], 0);
    RowCodePoint(b[..n]);
  }

  /** How many leading characters fit in `k` bytes. */
  function Fit(t: Text, k: int): (m: nat)
    ensures m <= |t|
  {
    if t == [] || |EncodeChar(t[0])| > k then 0 else 1 + Fit(t[1..], k - |EncodeChar(t[0])|)
  }

  /** Fit is the longest whole-character prefix within `k` bytes. */
  lemma {:induction false} FitIsLongest(t: Text, k: nat, m: nat)
    requires m <= |t|
    ensures |Encode(t[..m])| <= k <==> m <= Fit(t, k)
  {
    if t == [] || m == 0 {
      assert t[..m] == [];
    } else {
      assert t[..m][0] == t[0] && t[..m][1..] == t[1..][..m - 1];
      if |EncodeChar(t[0])| <= k {
        FitIsLongest(t[1..], k - |EncodeChar(t[0])|, m - 1);
      }
    }
  }

  lemma EncodeSplit(t: Text, m: nat)
    requires m <= |t|
    ensures Encode(t) == Encode(t[..m]) + Encode(t[m..])
    ensures m < |t| ==> Encode(t[..m + 1]) == Encode(t[..m]) + EncodeChar(t[m])
    ensures m < |t| ==> Encode(t[m..]) == EncodeChar(t[m]) + Encode(t[m + 1..])
  {
    hide Encode, EncodeChar;
    EncodeConcat(t[..m], t[m..]);
    assert t[..m] + t[m..] == t;
    if m < |t| {
      EncodeConcat(t[..m], [t[m]]);
      EncodeConcat([t[m]], t[m + 1..]);
      EncodeOne(t[m]);
      assert t[..m] + [t[m]] == t[..m + 1] && [t[m]] + t[m + 1..] == t[m..];
    }
  }

  lemma EncodeOne(c: Scalar)
    ensures Encode([c]) == EncodeChar(c)
  {
    assert Encode([c]) == EncodeChar(c) + Encode([]);
  }

  /** The first `k` bytes are whole characters and then less than one more. */
  lemma FitRemainder(t: Text, k: nat)
    requires k <= |Encode(t)|
    ensures var m := Fit(t, k);
            && |Encode(t[..m])| <= k
            && (if m < |t| then k < |Encode(t[..m])| + |EncodeChar(t[m])| else k == |Encode(t[..m])|)
  {
    hide Encode, EncodeChar;
    var m := Fit(t, k);
    FitIsLongest(t, k, m);
    if m < |t| {
      FitIsLongest(t, k, m + 1);
      EncodeSplit(t, m);
    } else {
      assert t[..m] == t;
    }
  }

  /** A cut of well-formed text at `k` bytes: where its last lead byte is, what that byte needs, and what
      remains once an incomplete character is dropped. */
  lemma CutTail(t: Text, k: nat) returns (lead: nat)
    requires 0 < k <= |Encode(t)|
    ensures var b := Encode(t)[..k];
            && lead < k && !IsContinuation(b[lead]) && (forall i :: lead < i < k ==> IsContinuation(b[i]))
            && Encode(t[..Fit(t, k)]) == b[..if lead + Needed(b[lead]) <= k then k else lead]
  {
    var m := Fit(t, k);
    var whole := Encode(t[..m]);
    FitRemainder(t, k);
    EncodeSplit(t, m);
    if |whole| < k {
      lead := |whole|;
      PartOfChar(EncodeChar(t[m]), whole, Encode(t[m + 1..]), k);
    } else {
      assert Encode(t[..0]) == [];
      var last := EncodeChar(t[m - 1]);
      EncodeSplit(t, m - 1);
      lead := |Encode(t[..m - 1])|;
      assert Encode(t)[..k] == whole;
      PartOfChar(last, Encode(t[..m - 1]), [], k);
    }
  }

  // In front + c + back cut within or at the end of the character c, the last lead byte is c's.
  lemma PartOfChar(c: seq<byte>, front: seq<byte>, back: seq<byte>, k: nat)
    requires 1 <= |c| == Needed(c[0]) && !IsContinuation(c[0]) && forall i :: 1 <= i < |c| ==> IsContinuation(c[i])
    requires |front| < k <= |front| + |c|
    ensures var b := (front + (c + back))[..k];
            && b[|front|] == c[0] && (forall i :: |front| < i < k ==> IsContinuation(b[i]))
            && b[..|front|] == front && (k == |front| + |c| ==> b == front + c)
  {
    var b := (front + (c + back))[..k];
    forall i | |front| < i < k ensures IsContinuation(b[i]) {
      assert b[i] == c[i - |front|];
    }
  }

  ghost predicate LastLead(buffer: seq<byte>, lead: nat) {
    lead < |buffer| && !IsContinuation(buffer[lead]) && forall i :: lead < i < |buffer| ==> IsContinuation(buffer[i])
  }

  /** The buffer is cut before its last lead byte if that announces more than follows; without one nothing is left. */
  ghost predicate TrimmedTo(buffer: seq<byte>, r: seq<byte>) {
    && ((forall i :: 0 <= i < |buffer| ==> IsContinuation(buffer[i])) ==> r == [])
    && forall lead: nat :: LastLead(buffer, lead) ==>
         r == if lead + Needed(buffer[lead]) <= |buffer| then buffer else buffer[..lead]
  }

  /** Trimming a buffer.  When the buffer is a cut of well-formed text, what is left is its longest prefix of
      whole characters. */
  method TrimUtf8Buffer(buffer: seq<byte>, ghost t: Text) returns (r: seq<byte>)
    ensures TrimmedTo(buffer, r)
    ensures buffer <= Encode(t) ==> r == Encode(t[..Fit(t, |buffer|)])
  {
    hide Encode, Fit;
    var end := |buffer|;
    while end > 0 && IsContinuation(buffer[end - 1])
      invariant 0 <= end <= |buffer| && forall i :: end <= i < |buffer| ==> IsContinuation(buffer[i])
    {
      end := end - 1;
    }
    if buffer <= Encode(t) {
      assert buffer == Encode(t)[..|buffer|];
      if buffer != [] {
        var lead := CutTail(t, |buffer|);
        assert end == lead + 1;
      } else {
        NothingFits(t);
      }
    }
    if end == 0 { return buffer[..0]; }
    if end - 1 + Needed(buffer[end - 1]) <= |buffer| { return buffer; }
    return buffer[..Max(0, end - 1)];
  }

  lemma NothingFits(t: Text)
    ensures Encode(t[..Fit(t, 0)]) == []
  {
  }
}
