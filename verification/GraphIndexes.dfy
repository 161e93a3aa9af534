/** Id tables, adjacency lists and forward CSRs: src/graph/indexes.js:41-49 and 84-160. */
module GraphIndexes {
  import opened Wrappers
  import opened Sorting
  import opened Ordering
  import opened CsrTranspose

  ghost predicate StrictlySorted(s: seq<string>) {
    forall i, j :: 0 <= i < j < |s| ==> LeqStrings(s[i], s[j]) && s[i] != s[j]
  }

  lemma LeqStringsTotal()
    ensures TotalPreorder(LeqStrings)
    ensures forall a, b :: LeqStrings(a, b) && LeqStrings(b, a) ==> a == b
  {
    hide CompareStrings;
    StringsOrdered();
  }

  ghost predicate Distinct(s: seq<string>) {
    forall i, j :: 0 <= i < j < |s| ==> s[i] != s[j]
  }

  /** Sorting distinct strings: the same strings, strictly ascending. */
  lemma SortedStrings(s: seq<string>)
    requires Distinct(s)
    ensures StrictlySorted(StableSort(LeqStrings, s))
    ensures |StableSort(LeqStrings, s)| == |s| && forall x :: x in StableSort(LeqStrings, s) <==> x in s
  {
    LeqStringsTotal();
    StableSortCorrect(LeqStrings, s);
    var t := StableSort(LeqStrings, s);
    assert |multiset(t)| == |multiset(s)|;
    forall x ensures x in t <==> x in s {
      assert x in multiset(t) <==> x in multiset(s);
    }
    forall i, j | 0 <= i < j < |t| ensures t[i] != t[j] {
      if t[i] == t[j] { TwiceInMultiset(t, i, j); OnceInMultiset(s, t[i]); }
    }
  }

  lemma TwiceInMultiset(t: seq<string>, i: nat, j: nat)
    requires i < j < |t| && t[i] == t[j]
    ensures multiset(t)[t[i]] >= 2
  {
    assert t == t[..i] + [t[i]] + t[i + 1..j] + [t[j]] + t[j + 1..];
  }

  lemma {:induction false} OnceInMultiset(s: seq<string>, x: string)
    requires Distinct(s)
    ensures multiset(s)[x] <= 1
  {
    if s != [] {
      OnceInMultiset(s[1..], x);
      assert s == [s[0]] + s[1..];
      assert s[0] !in s[1..];
    }
  }

  datatype IdTable = IdTable(ids: seq<string>, idToIndex: map<string, nat>)

  /** The table lists the ids in order, and looking an id up gives its position. */
  ghost predicate IsIdTable(t: IdTable) {
    && StrictlySorted(t.ids)
    && (forall i :: 0 <= i < |t.ids| ==> t.ids[i] in t.idToIndex && t.idToIndex[t.ids[i]] == i)
    && (forall id :: id in t.idToIndex ==> t.idToIndex[id] < |t.ids| && t.ids[t.idToIndex[id]] == id)
  }

  /** `keys` are a Map's keys in insertion order. */
  method BuildIdTable(keys: seq<string>) returns (t: IdTable)
    requires Distinct(keys)
    ensures IsIdTable(t) && forall id :: id in t.idToIndex <==> id in keys
  {
    SortedStrings(keys);
    var ids := StableSort(LeqStrings, keys);
    var idToIndex: map<string, nat> := map[];
    for i := 0 to |ids|
      invariant forall j :: 0 <= j < i ==> ids[j] in idToIndex && idToIndex[ids[j]] == j
      invariant forall id :: id in idToIndex ==> idToIndex[id] < i && ids[idToIndex[id]] == id
    {
      idToIndex := idToIndex[ids[i] := i];
    }
    forall id ensures id in idToIndex <==> id in keys {
      if id in keys { assert id in ids; }
      if id in idToIndex { assert ids[idToIndex[id]] in ids; }
    }
    return IdTable(ids, idToIndex);
  }

  datatype GraphNode = GraphNode(id: string, out: seq<string>, incoming: seq<string>)

  datatype Adjacency = Adjacency(out: seq<string>, incoming: Option<seq<string>>, both: Option<seq<string>>)

  /** `id` is the normalized form of some entry of `raw`. */
  ghost predicate Normal(raw: seq<string>, normalize: string -> string, id: string) {
    id != "" && exists x :: x in raw && x != "" && normalize(x) == id
  }

  /** The normalized neighbours, each once, in order. */
  method NormalizedNeighbors(raw: seq<string>, normalize: string -> string) returns (list: seq<string>)
    ensures StrictlySorted(list) && forall id :: id in list <==> Normal(raw, normalize, id)
  {
    var seen: seq<string> := [];
    for i := 0 to |raw|
      invariant Distinct(seen) && forall id :: id in seen <==> Normal(raw[..i], normalize, id)
    {
      ghost var before := seen;
      if raw[i] != "" {
        var normalized := normalize(raw[i]);
        if normalized != "" && normalized !in seen { seen := seen + [normalized]; }
      }
      forall id ensures id in seen <==> Normal(raw[..i + 1], normalize, id) {
        NormalStep(raw, normalize, i, id);
      }
    }
    assert raw[..|raw|] == raw;
    SortedStrings(seen);
    list := StableSort(LeqStrings, seen);
  }

  lemma NormalStep(raw: seq<string>, normalize: string -> string, i: nat, id: string)
    requires i < |raw|
    ensures Normal(raw[..i + 1], normalize, id) <==>
              Normal(raw[..i], normalize, id) || (id != "" && raw[i] != "" && normalize(raw[i]) == id)
  {
    assert raw[..i + 1] == raw[..i] + [raw[i]];
  }

  /** What one node's adjacency entry holds: its normalized neighbours on each side, and both sides merged. */
  ghost predicate EntryOf(
    e: Adjacency, node: GraphNode, normalize: string -> string, includeIn: bool, includeBoth: bool)
  {
    && StrictlySorted(e.out) && (forall id :: id in e.out <==> Normal(node.out, normalize, id))
    && (e.incoming.Some? <==> includeIn) && (e.both.Some? <==> includeBoth)
    && (includeIn ==>
          && StrictlySorted(e.incoming.value)
          && forall id :: id in e.incoming.value <==> Normal(node.incoming, normalize, id))
    && (includeBoth ==>
          && StrictlySorted(e.both.value)
          && forall id :: id in e.both.value <==> id in e.out || (includeIn && id in e.incoming.value))
  }

  method MergeSides(out: seq<string>, incoming: seq<string>) returns (both: seq<string>)
    requires Distinct(out)
    ensures StrictlySorted(both) && forall id :: id in both <==> id in out || id in incoming
  {
    both := out;
    for i := 0 to |incoming|
      invariant Distinct(both) && forall id :: id in both <==> id in out || id in incoming[..i]
    {
      assert incoming[..i + 1] == incoming[..i] + [incoming[i]];
      if incoming[i] !in both { both := both + [incoming[i]]; }
    }
    assert incoming[..|incoming|] == incoming;
    SortedStrings(both);
    both := StableSort(LeqStrings, both);
  }

  method BuildEntry(node: GraphNode, normalize: string -> string, includeIn: bool, includeBoth: bool)
    returns (e: Adjacency)
    ensures EntryOf(e, node, normalize, includeIn, includeBoth)
  {
    hide Normal;
    var out := NormalizedNeighbors(node.out, normalize);
    var incoming := [];
    if includeIn { incoming := NormalizedNeighbors(node.incoming, normalize); }
    var both := MergeSides(out, incoming);
    e := Adjacency(out, if includeIn then Some(incoming) else None, if includeBoth then Some(both) else None);
  }

  /** The last of the first `n` nodes stored under `key`, if any. */
  ghost predicate LastUnder(nodes: seq<GraphNode>, normalizeId: string -> string, n: nat, key: string, i: int)
    requires n <= |nodes|
  {
    && key != "" && 0 <= i < n && nodes[i].id != "" && normalizeId(nodes[i].id) == key
    && forall j :: i < j < n ==> nodes[j].id == "" || normalizeId(nodes[j].id) != key
  }

  ghost predicate Stored(nodes: seq<GraphNode>, normalizeId: string -> string, n: nat, key: string)
    requires n <= |nodes|
  {
    exists i :: LastUnder(nodes, normalizeId, n, key, i)
  }

  /** An adjacency index has an entry for each normalized node id, and the last node with that id wins. */
  method BuildAdjacencyIndex(
      nodes: seq<GraphNode>, normalizeId: string -> string, normalize: string -> string,
      includeIn: bool, includeBoth: bool)
    returns (index: map<string, Adjacency>)
    ensures forall key :: key in index <==> Stored(nodes, normalizeId, |nodes|, key)
    ensures forall key, i :: LastUnder(nodes, normalizeId, |nodes|, key, i) ==>
              key in index && EntryOf(index[key], nodes[i], normalize, includeIn, includeBoth)
  {
    hide EntryOf;
    index := map[];
    for n := 0 to |nodes|
      invariant forall key :: key in index ==> Stored(nodes, normalizeId, n, key)
      invariant forall key, i :: LastUnder(nodes, normalizeId, n, key, i) ==>
                  key in index && EntryOf(index[key], nodes[i], normalize, includeIn, includeBoth)
    {
      ghost var before := index;
      var node := nodes[n];
      var nodeId := if node.id == "" then "" else normalizeId(node.id);
      if nodeId != "" {
        var entry := BuildEntry(node, normalize, includeIn, includeBoth);
        index := index[nodeId := entry];
        assert LastUnder(nodes, normalizeId, n + 1, nodeId, n);
      }
      forall key | key in index ensures Stored(nodes, normalizeId, n + 1, key) {
        if key != nodeId {
          var i :| LastUnder(nodes, normalizeId, n, key, i);
          assert LastUnder(nodes, normalizeId, n + 1, key, i);
        }
      }
      forall key, i | LastUnder(nodes, normalizeId, n + 1, key, i)
        ensures key in index && EntryOf(index[key], nodes[i], normalize, includeIn, includeBoth)
      {
        if i < n { assert LastUnder(nodes, normalizeId, n, key, i) && key != nodeId; }
      }
    }
  }

  // ---- Forward CSR ----

  /** Positions of the known neighbours, in list order; the unknown are dropped. */
  ghost function Known(out: seq<string>, idToIndex: map<string, nat>): seq<nat> {
    if out == [] then []
    else (if out[0] in idToIndex then [idToIndex[out[0]]] else []) + Known(out[1..], idToIndex)
  }

  ghost function OutOf(adjacency: map<string, Adjacency>, id: string): seq<string> {
    if id in adjacency then adjacency[id].out else []
  }

  ghost function EdgesBelow(adjacency: map<string, Adjacency>, t: IdTable, n: nat): seq<nat>
    requires n <= |t.ids|
  {
    if n == 0 then [] else EdgesBelow(adjacency, t, n - 1) + Known(OutOf(adjacency, t.ids[n - 1]), t.idToIndex)
  }

  lemma {:induction false} KnownAppend(out: seq<string>, x: string, idToIndex: map<string, nat>)
    ensures Known(out + [x], idToIndex) == Known(out, idToIndex) + if x in idToIndex then [idToIndex[x]] else []
  {
    if out == [] {
      assert out + [x] == [x];
    } else {
      assert (out + [x])[1..] == out[1..] + [x];
      KnownAppend(out[1..], x, idToIndex);
      Associative(if out[0] in idToIndex then [idToIndex[out[0]]] else [], Known(out[1..], idToIndex),
                  if x in idToIndex then [idToIndex[x]] else []);
    }
  }

  lemma {:induction false} EdgesBelowGrows(adjacency: map<string, Adjacency>, t: IdTable, m: nat, n: nat)
    requires m <= n <= |t.ids|
    ensures EdgesBelow(adjacency, t, m) <= EdgesBelow(adjacency, t, n)
  {
    if m < n { EdgesBelowGrows(adjacency, t, m, n - 1); }
  }

  /** The CSR whose row i lists the known out-neighbours of id i. */
  ghost predicate IsForward(adjacency: map<string, Adjacency>, t: IdTable, c: Csr) {
    && |c.offsets| == |t.ids| + 1 && c.edges == EdgesBelow(adjacency, t, |t.ids|)
    && forall i :: 0 <= i <= |t.ids| ==> c.offsets[i] == |EdgesBelow(adjacency, t, i)|
  }

  method AppendKnown(list: seq<u32>, out: seq<string>, t: IdTable) returns (longer: seq<u32>)
    requires IsIdTable(t) && |t.ids| < U32_LIMIT
    ensures longer == list + Known(out, t.idToIndex)
  {
    longer := list;
    for k := 0 to |out|
      invariant longer == list + Known(out[..k], t.idToIndex)
    {
      assert out[..k + 1] == out[..k] + [out[k]];
      KnownAppend(out[..k], out[k], t.idToIndex);
      if out[k] in t.idToIndex { longer := longer + [t.idToIndex[out[k]]]; }
    }
    assert out[..|out|] == out;
  }

  method BuildAdjacencyCsr(adjacency: map<string, Adjacency>, t: IdTable)
    returns (offsets: array<u32>, edges: array<u32>)
    requires |t.ids| < U32_LIMIT && |EdgesBelow(adjacency, t, |t.ids|)| < U32_LIMIT
    requires IsIdTable(t)
    ensures fresh(offsets) && fresh(edges) && IsForward(adjacency, t, Csr(offsets[..], edges[..]))
  {
    hide EdgesBelow, Known, IsIdTable;
    var n := |t.ids|;
    offsets := new u32[n + 1](_ => 0);
    var list: seq<u32> := [];
    NoEdgesBelow(adjacency, t);
    for i := 0 to n
      invariant list == EdgesBelow(adjacency, t, i)
      invariant forall j :: 0 <= j <= i ==> offsets[j] == |EdgesBelow(adjacency, t, j)|
    {
      list := AppendKnown(list, if t.ids[i] in adjacency then adjacency[t.ids[i]].out else [], t);
      EdgesBelowNext(adjacency, t, i);
      EdgesBelowGrows(adjacency, t, i + 1, n);
      offsets[i + 1] := |list|;
    }
    edges := new u32[|list|](i requires 0 <= i < |list| => list[i]);
    assert edges[..] == list;
  }

  lemma NoEdgesBelow(adjacency: map<string, Adjacency>, t: IdTable)
    ensures EdgesBelow(adjacency, t, 0) == []
  {
  }

  lemma EdgesBelowNext(adjacency: map<string, Adjacency>, t: IdTable, i: nat)
    requires i < |t.ids|
    ensures EdgesBelow(adjacency, t, i + 1)
         == EdgesBelow(adjacency, t, i) + Known(OutOf(adjacency, t.ids[i]), t.idToIndex)
  {
  }

  /** Rows are framed one after the other, and row i is exactly the known out-neighbours of id i. */
  lemma ForwardRows(adjacency: map<string, Adjacency>, t: IdTable, c: Csr, i: nat)
    requires IsForward(adjacency, t, c) && i < |t.ids|
    ensures WellFormed(c) && Nodes(c) == |t.ids|
    ensures Row(c, i) == Known(OutOf(adjacency, t.ids[i]), t.idToIndex)
  {
    hide EdgesBelow, Known;
    forall a, b | 0 <= a <= b < |c.offsets| ensures c.offsets[a] <= c.offsets[b] {
      EdgesBelowGrows(adjacency, t, a, b);
    }
    NoEdgesBelow(adjacency, t);
    EdgesBelowNext(adjacency, t, i);
    EdgesBelowGrows(adjacency, t, i + 1, |t.ids|);
    var before, upTo := EdgesBelow(adjacency, t, i), EdgesBelow(adjacency, t, i + 1);
    assert Row(c, i) == upTo[|before|..];
  }

  lemma {:induction false} KnownMeans(out: seq<string>, t: IdTable, j: nat)
    requires IsIdTable(t)
    ensures j in Known(out, t.idToIndex) <==> j < |t.ids| && t.ids[j] in out
  {
    if out != [] {
      KnownMeans(out[1..], t, j);
      assert out == [out[0]] + out[1..];
    }
  }

  lemma {:induction false} KnownIncreasing(out: seq<string>, t: IdTable)
    requires IsIdTable(t) && StrictlySorted(out)
    ensures forall a, b :: 0 <= a < b < |Known(out, t.idToIndex)| ==>
              Known(out, t.idToIndex)[a] < Known(out, t.idToIndex)[b]
  {
    if out != [] {
      KnownIncreasing(out[1..], t);
      var rest := Known(out[1..], t.idToIndex);
      if out[0] in t.idToIndex {
        forall b | 0 <= b < |rest| ensures t.idToIndex[out[0]] < rest[b] {
          assert rest[b] in rest;
          KnownMeans(out[1..], t, rest[b]);
          OrderedIds(out, t, rest[b]);
        }
      }
    }
  }

  lemma OrderedIds(out: seq<string>, t: IdTable, j: nat)
    requires IsIdTable(t) && StrictlySorted(out) && out != [] && out[0] in t.idToIndex
    requires j < |t.ids| && t.ids[j] in out[1..]
    ensures t.idToIndex[out[0]] < j
  {
    var k :| 0 <= k < |out[1..]| && out[1..][k] == t.ids[j];
    assert LeqStrings(out[0], out[k + 1]) && out[0] != out[k + 1];
    LeqStringsTotal();
  }

  lemma OutSorted(adjacency: map<string, Adjacency>, id: string)
    requires forall k :: k in adjacency ==> StrictlySorted(adjacency[k].out)
    ensures StrictlySorted(OutOf(adjacency, id))
  {
  }

  /** The forward CSR of an adjacency index with sorted lists: every edge in range, rows strictly increasing,
      and j in row i exactly when id j is an out-neighbour of id i. */
  lemma ForwardMeans(adjacency: map<string, Adjacency>, t: IdTable, c: Csr, i: nat, j: nat)
    requires IsIdTable(t) && IsForward(adjacency, t, c) && i < |t.ids|
    requires forall id :: id in adjacency ==> StrictlySorted(adjacency[id].out)
    ensures WellFormed(c) && Nodes(c) == |t.ids| && InRange(c)
    ensures j in Row(c, i) <==> j < |t.ids| && t.ids[j] in OutOf(adjacency, t.ids[i])
    ensures forall a, b :: 0 <= a < b < |Row(c, i)| ==> Row(c, i)[a] < Row(c, i)[b]
  {
    hide EdgesBelow, Known, IsForward, IsIdTable, StrictlySorted;
    ForwardRows(adjacency, t, c, i);
    var out := OutOf(adjacency, t.ids[i]);
    OutSorted(adjacency, t.ids[i]);
    KnownMeans(out, t, j);
    KnownIncreasing(out, t);
    forall k | 0 <= k < |c.edges| ensures c.edges[k] < |t.ids| {
      var s := RowOf(c, k, |t.ids|);
      ForwardRows(adjacency, t, c, s);
      assert c.edges[k] == Row(c, s)[k - c.offsets[s]];
      KnownMeans(OutOf(adjacency, t.ids[s]), t, c.edges[k]);
    }
  }

  /** End to end: id s is listed in the reverse row of id t exactly when t is an out-neighbour of s, once,
      and reversing again gives the forward CSR back. */
  lemma ReverseOfForward(adjacency: map<string, Adjacency>, t: IdTable, c: Csr, r: Csr, rr: Csr, s: nat, u: nat)
    requires IsIdTable(t) && IsForward(adjacency, t, c) && s < |t.ids| && u < |t.ids|
    requires forall id :: id in adjacency ==> StrictlySorted(adjacency[id].out)
    requires Framed(c) ==> IsTranspose(c, r)
    requires Framed(r) ==> IsTranspose(r, rr)
    ensures Framed(c) && Framed(r) && Nodes(r) == Nodes(c) == |t.ids|
    ensures Count(s, Row(r, u)) == if t.ids[u] in OutOf(adjacency, t.ids[s]) then 1 else 0
    ensures rr == c
  {
    hide EdgesBelow, Known, IsForward, IsIdTable, StrictlySorted, IsTranspose, RowsSorted;
    ForwardMeans(adjacency, t, c, s, u);
    ReverseRows(c, r, s, u);
    IncreasingCount(Row(c, s), u);
    forall i | 0 <= i < Nodes(c) ensures Ascending(Row(c, i)) {
      ForwardMeans(adjacency, t, c, i, 0);
    }
    TransposeTwiceIdentity(c, r, rr);
  }

  lemma {:induction false} IncreasingCount(s: seq<nat>, x: nat)
    requires forall a, b :: 0 <= a < b < |s| ==> s[a] < s[b]
    ensures Count(x, s) == if x in s then 1 else 0
  {
    if s != [] {
      IncreasingCount(s[1..], x);
      assert s == [s[0]] + s[1..];
    }
  }
}
