/** The front-coded string table of src/graph/indexes.js:51-79. */
module PrefixTables {
  import opened Wrappers

  datatype PrefixTable = PrefixTable(prefixes: seq<nat>, suffixes: seq<string>)

  /** `k` is the length of the longest prefix `a` and `b` share. */
  ghost predicate LongestShared(a: string, b: string, k: nat) {
    && k <= |a| && k <= |b| && a[..k] == b[..k]
    && (k < |a| && k < |b| ==> a[k] != b[k])
  }

  ghost function Previous(values: seq<string>, i: nat): string
    requires i < |values|
  {
    if i == 0 then "" else values[i - 1]
  }

  /** Every entry stores the longest prefix shared with the entry before it, and the rest of its text. */
  ghost predicate TableOf(table: PrefixTable, values: seq<string>) {
    TableBelow(table, values, |values|)
  }

  /** The table of the first `n` values. */
  ghost predicate TableBelow(table: PrefixTable, values: seq<string>, n: nat)
    requires n <= |values|
  {
    && |table.prefixes| == |table.suffixes| == n
    && forall i :: 0 <= i < n ==> Codes(Previous(values, i), values[i], table.prefixes[i], table.suffixes[i])
  }

  ghost predicate Codes(previous: string, text: string, prefixLen: nat, suffix: string) {
    LongestShared(previous, text, prefixLen) && suffix == text[prefixLen..]
  }

  method SharedPrefix(previous: string, text: string) returns (prefixLen: nat)
    ensures LongestShared(previous, text, prefixLen)
  {
    prefixLen := 0;
    var maxPrefix := Min(|previous|, |text|);
    while prefixLen < maxPrefix && previous[prefixLen] == text[prefixLen]
      invariant prefixLen <= maxPrefix && previous[..prefixLen] == text[..prefixLen]
    {
      prefixLen := prefixLen + 1;
    }
  }

  lemma NoEntries(values: seq<string>)
    ensures TableBelow(PrefixTable([], []), values, 0)
  {
  }

  lemma TableGrows(table: PrefixTable, values: seq<string>, i: nat, k: nat, suffix: string)
    requires i < |values| && TableBelow(table, values, i) && Codes(Previous(values, i), values[i], k, suffix)
    ensures TableBelow(PrefixTable(table.prefixes + [k], table.suffixes + [suffix]), values, i + 1)
  {
    hide Codes, Previous;
  }

  method BuildPrefixTable(values: seq<string>) returns (table: PrefixTable)
    ensures TableOf(table, values)
  {
    hide TableBelow, LongestShared, Previous, Codes;
    var prefixes: seq<nat>, suffixes, previous := [], [], "";
    NoEntries(values);
    for i := 0 to |values|
      invariant TableBelow(PrefixTable(prefixes, suffixes), values, i)
      invariant previous == if i == 0 then "" else values[i - 1]
    {
      var text := values[i];
      var prefixLen := SharedPrefix(previous, text);
      PreviousIs(values, i);
      SharedCodes(previous, text, prefixLen);
      TableGrows(PrefixTable(prefixes, suffixes), values, i, prefixLen, text[prefixLen..]);
      prefixes := prefixes + [prefixLen];
      suffixes := suffixes + [text[prefixLen..]];
      previous := text;
    }
    return PrefixTable(prefixes, suffixes);
  }

  lemma SharedCodes(a: string, b: string, k: nat)
    requires LongestShared(a, b, k)
    ensures k <= |b| && Codes(a, b, k, b[k..])
  {
  }

  lemma TableLength(table: PrefixTable, values: seq<string>)
    ensures TableOf(table, values) ==> |table.prefixes| == |values|
  {
  }

  lemma DecodeStep(table: PrefixTable, values: seq<string>, i: nat)
    requires TableOf(table, values) && i < |values|
    ensures i < |table.prefixes| && i < |table.suffixes|
    ensures Previous(values, i)[..Min(table.prefixes[i], |Previous(values, i)|)] + table.suffixes[i] == values[i]
  {
    assert Codes(Previous(values, i), values[i], table.prefixes[i], table.suffixes[i]);
    CodesDecode(Previous(values, i), values[i], table.prefixes[i], table.suffixes[i]);
  }

  lemma CodesDecode(previous: string, text: string, prefixLen: nat, suffix: string)
    requires Codes(previous, text, prefixLen, suffix)
    ensures prefixLen <= |previous| && previous[..prefixLen] + suffix == text
  {
    assert text == text[..prefixLen] + text[prefixLen..];
  }

  /** Entry `index` decodes to the string the table was built from, whatever list that was; outside the
      table there is no entry. */
  method ResolvePrefixEntry(table: PrefixTable, index: int, ghost values: seq<string>) returns (entry: Option<string>)
    ensures entry.Some? <==> 0 <= index < |table.prefixes|
    ensures TableOf(table, values) && 0 <= index < |values| ==> entry == Some(values[index])
  {
    hide TableOf, Previous;
    ghost var good := TableOf(table, values) && index < |values|;
    TableLength(table, values);
    if index < 0 || index >= |table.prefixes| { return None; }
    var value := "";
    for i := 0 to index + 1
      invariant good ==> value == if i == 0 then "" else values[i - 1]
    {
      if good {
        DecodeStep(table, values, i);
        PreviousIs(values, i);
      }
      var suffix := if i < |table.suffixes| then table.suffixes[i] else "";
      value := value[..Min(table.prefixes[i], |value|)] + suffix;
    }
    return Some(value);
  }

  lemma PreviousIs(values: seq<string>, i: nat)
    requires i < |values|
    ensures Previous(values, i) == if i == 0 then "" else values[i - 1]
  {
  }
}
