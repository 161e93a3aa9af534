/** The reverse adjacency of a compressed sparse row graph: src/graph/indexes.js:166-200.

    Row i of a CSR is edges[offsets[i]..offsets[i + 1]].  Entries of a Uint32Array are `u32`. */
module CsrTranspose {

  const U32_LIMIT: nat := 0x1_0000_0000

  type u32 = x: nat | x < U32_LIMIT

  datatype Csr = Csr(offsets: seq<nat>, edges: seq<nat>)

  /** Rows lie one after the other from 0; edges past the last row may remain. */
  ghost predicate Framed(c: Csr) {
    && |c.offsets| >= 1 && c.offsets[0] == 0 && c.offsets[|c.offsets| - 1] <= |c.edges|
    && forall i, j :: 0 <= i <= j < |c.offsets| ==> c.offsets[i] <= c.offsets[j]
  }

  ghost predicate WellFormed(c: Csr) {
    Framed(c) && c.offsets[|c.offsets| - 1] == |c.edges|
  }

  ghost function Nodes(c: Csr): nat
    requires |c.offsets| >= 1
  {
    |c.offsets| - 1
  }

  ghost function Row(c: Csr, i: nat): seq<nat>
    requires Framed(c) && i < Nodes(c)
  {
    c.edges[c.offsets[i]..c.offsets[i + 1]]
  }

  ghost function Count(x: nat, s: seq<nat>): nat {
    multiset(s)[x]
  }

  ghost function Repeat(x: nat, n: nat): (s: seq<nat>)
    ensures |s| == n && forall i :: 0 <= i < n ==> s[i] == x
  {
    seq(n, _ => x)
  }

  /** The sources below `n` of edges into `t`, ascending, once for each edge. */
  ghost function Sources(c: Csr, t: nat, n: nat): seq<nat>
    requires Framed(c) && n <= Nodes(c)
  {
    if n == 0 then [] else Sources(c, t, n - 1) + Repeat(n - 1, Count(t, Row(c, n - 1)))
  }

  /** The sources of the first `k` edges that lead to `t`, where edge k is in row `source`. */
  ghost function SourcesUpTo(c: Csr, t: nat, source: nat, k: nat): seq<nat>
    requires Framed(c) && source < Nodes(c) && c.offsets[source] <= k <= c.offsets[source + 1]
  {
    Sources(c, t, source) + Repeat(source, Count(t, c.edges[c.offsets[source]..k]))
  }

  lemma {:induction false} SourcesLength(c: Csr, t: nat, n: nat)
    requires Framed(c) && n <= Nodes(c)
    ensures |Sources(c, t, n)| == Count(t, c.edges[..c.offsets[n]])
  {
    if n > 0 {
      SourcesLength(c, t, n - 1);
      assert c.edges[..c.offsets[n]] == c.edges[..c.offsets[n - 1]] + Row(c, n - 1);
    } else {
      assert c.edges[..0] == [];
    }
  }

  lemma SourcesUpToLength(c: Csr, t: nat, source: nat, k: nat)
    requires Framed(c) && source < Nodes(c) && c.offsets[source] <= k <= c.offsets[source + 1]
    ensures |SourcesUpTo(c, t, source, k)| == Count(t, c.edges[..k])
  {
    SourcesLength(c, t, source);
    assert c.edges[..k] == c.edges[..c.offsets[source]] + c.edges[c.offsets[source]..k];
  }

  /** Edge k adds its source to its target's list and to no other. */
  lemma SourcesUpToStep(c: Csr, t: nat, source: nat, k: nat)
    requires Framed(c) && source < Nodes(c) && c.offsets[source] <= k < c.offsets[source + 1]
    ensures SourcesUpTo(c, t, source, k + 1)
         == if c.edges[k] == t then SourcesUpTo(c, t, source, k) + [source] else SourcesUpTo(c, t, source, k)
  {
    assert c.edges[c.offsets[source]..k + 1] == c.edges[c.offsets[source]..k] + [c.edges[k]];
  }

  lemma SourcesRowDone(c: Csr, t: nat, source: nat)
    requires Framed(c) && source < Nodes(c)
    ensures SourcesUpTo(c, t, source, c.offsets[source]) == Sources(c, t, source)
    ensures SourcesUpTo(c, t, source, c.offsets[source + 1]) == Sources(c, t, source + 1)
  {
    assert c.edges[c.offsets[source]..c.offsets[source]] == [];
    assert Repeat(source, 0) == [];
  }

  /** Row starts for rows of `Count(t, edges)` entries each. */
  ghost predicate RowStarts(edges: seq<nat>, starts: seq<nat>) {
    && |starts| >= 1 && starts[0] == 0 && starts[|starts| - 1] <= |edges|
    && (forall t :: 0 <= t < |starts| - 1 ==> starts[t + 1] == starts[t] + Count(t, edges))
    && (forall i, j :: 0 <= i <= j < |starts| ==> starts[i] <= starts[j])
  }

  /** out[lo..hi] holds `l` and then zeros. */
  ghost predicate Segment(out: seq<nat>, lo: nat, hi: nat, l: seq<nat>) {
    && lo + |l| <= hi <= |out|
    && (forall k :: 0 <= k < |l| ==> out[lo + k] == l[k])
    && (forall p :: lo + |l| <= p < hi ==> out[p] == 0)
  }

  /** The reverse CSR: row t lists the sources of the edges into t, in ascending order; entries that stand
      for no edge in a row are zero. */
  ghost predicate IsTranspose(c: Csr, r: Csr)
    requires Framed(c)
  {
    && RowStarts(c.edges, r.offsets) && |r.offsets| == |c.offsets| && |r.edges| == |c.edges|
    && (forall t :: 0 <= t < Nodes(c) ==> Segment(r.edges, r.offsets[t], r.offsets[t + 1], Sources(c, t, Nodes(c))))
    && (forall p :: r.offsets[Nodes(c)] <= p < |r.edges| ==> r.edges[p] == 0)
  }

  /** The scatter after the first `k` edges: each row so far holds its sources, its cursor just past them. */
  ghost predicate Scattered(c: Csr, starts: seq<nat>, cursor: seq<nat>, out: seq<nat>, source: nat, k: nat)
    requires Framed(c) && source < Nodes(c) && c.offsets[source] <= k <= c.offsets[source + 1]
  {
    && |starts| == |cursor| == |c.offsets| && |out| == |c.edges|
    && (forall t :: 0 <= t < Nodes(c) ==>
          && cursor[t] == starts[t] + |SourcesUpTo(c, t, source, k)|
          && Segment(out, starts[t], starts[t + 1], SourcesUpTo(c, t, source, k)))
    && (forall p :: starts[Nodes(c)] <= p < |out| ==> out[p] == 0)
  }

  lemma CountMonotone(x: nat, s: seq<nat>, k: nat)
    requires k < |s| && s[k] == x
    ensures Count(x, s[..k]) < Count(x, s)
  {
    assert s == s[..k] + [s[k]] + s[k + 1..];
  }

  lemma SegmentAppend(out: seq<nat>, lo: nat, hi: nat, l: seq<nat>, x: nat)
    requires Segment(out, lo, hi, l) && lo + |l| < hi
    ensures Segment(out[lo + |l| := x], lo, hi, l + [x])
  {
  }

  lemma SegmentElsewhere(out: seq<nat>, lo: nat, hi: nat, l: seq<nat>, p: nat, x: nat)
    requires Segment(out, lo, hi, l) && p < |out| && !(lo <= p < hi)
    ensures Segment(out[p := x], lo, hi, l)
  {
  }

  /** The next edge: its target's cursor has not reached the next row, and writing there keeps every row. */
  lemma ScatterStep(c: Csr, starts: seq<nat>, cursor: seq<nat>, out: seq<nat>, source: nat, k: nat)
    requires Framed(c) && source < Nodes(c) && c.offsets[source] <= k < c.offsets[source + 1]
    requires RowStarts(c.edges, starts) && Scattered(c, starts, cursor, out, source, k)
    ensures var target := c.edges[k];
            if target < Nodes(c)
            then cursor[target] < starts[target + 1]
                 && Scattered(c, starts, cursor[target := cursor[target] + 1], out[cursor[target] := source],
                              source, k + 1)
            else Scattered(c, starts, cursor, out, source, k + 1)
  {
    hide SourcesUpTo, Segment, RowStarts;
    var target := c.edges[k];
    forall t | 0 <= t < Nodes(c)
      ensures SourcesUpTo(c, t, source, k + 1)
           == if target == t then SourcesUpTo(c, t, source, k) + [source] else SourcesUpTo(c, t, source, k)
    {
      SourcesUpToStep(c, t, source, k);
    }
    if target < Nodes(c) {
      RowHasRoom(c, starts, source, k);
      var at := cursor[target];
      var out' := out[at := source];
      SegmentAppend(out, starts[target], starts[target + 1], SourcesUpTo(c, target, source, k), source);
      forall t | 0 <= t < Nodes(c) && t != target
        ensures Segment(out', starts[t], starts[t + 1], SourcesUpTo(c, t, source, k))
      {
        RowsApart(c.edges, starts, t, target, at);
        SegmentElsewhere(out, starts[t], starts[t + 1], SourcesUpTo(c, t, source, k), at, source);
      }
    }
  }

  lemma RowHasRoom(c: Csr, starts: seq<nat>, source: nat, k: nat)
    requires Framed(c) && source < Nodes(c) && c.offsets[source] <= k < c.offsets[source + 1]
    requires RowStarts(c.edges, starts) && |starts| == |c.offsets| && c.edges[k] < Nodes(c)
    ensures starts[c.edges[k]] + |SourcesUpTo(c, c.edges[k], source, k)| < starts[c.edges[k] + 1]
    ensures starts[c.edges[k] + 1] <= starts[Nodes(c)] <= |c.edges|
  {
    SourcesUpToLength(c, c.edges[k], source, k);
    CountMonotone(c.edges[k], c.edges, k);
  }

  lemma RowsApart(edges: seq<nat>, starts: seq<nat>, t: nat, u: nat, p: nat)
    requires RowStarts(edges, starts) && t < |starts| - 1 && u < |starts| - 1 && t != u
    requires starts[u] <= p < starts[u + 1]
    ensures !(starts[t] <= p < starts[t + 1])
  {
  }

  method CountIndegree(edges: array<u32>, nodeCount: nat) returns (indegree: array<u32>)
    requires edges.Length < U32_LIMIT
    ensures indegree.Length == nodeCount && forall t :: 0 <= t < nodeCount ==> indegree[t] == Count(t, edges[..])
  {
    indegree := new u32[nodeCount](_ => 0);
    for i := 0 to edges.Length
      invariant forall t :: 0 <= t < nodeCount ==> indegree[t] == Count(t, edges[..i])
    {
      var target := edges[i];
      assert edges[..i + 1] == edges[..i] + [edges[i]];
      if target < nodeCount {
        assert edges[..] == edges[..i] + edges[i..];
        CountMonotone(target, edges[..], i);
        CountWithin(target, edges[..]);
        indegree[target] := indegree[target] + 1;
      }
    }
    assert edges[..edges.Length] == edges[..];
  }

  lemma CountWithin(x: nat, s: seq<nat>)
    ensures Count(x, s) <= |s|
  {
    var m := multiset(s);
    assert |m| == |s|;
    assert |m[x := 0]| + m[x] == |m|;
  }

  /** The entries below `n` of any list number at most its length. */
  ghost function CountBelow(n: nat, s: seq<nat>): nat {
    if n == 0 then 0 else CountBelow(n - 1, s) + Count(n - 1, s)
  }

  lemma {:induction false} CountBelowStep(n: nat, s: seq<nat>, x: nat)
    ensures CountBelow(n, s + [x]) == CountBelow(n, s) + if x < n then 1 else 0
  {
    if n > 0 { CountBelowStep(n - 1, s, x); }
  }

  lemma {:induction false} CountBelowWithin(n: nat, s: seq<nat>)
    ensures CountBelow(n, s) <= |s|
    ensures CountBelow(n, s) == |s| <==> forall x :: x in s ==> x < n
  {
    if s == [] {
      CountBelowEmpty(n);
    } else {
      var front, last := s[..|s| - 1], s[|s| - 1];
      assert s == front + [last];
      CountBelowStep(n, front, last);
      assert last in s && forall x :: x in s <==> x in front || x == last;
      CountBelowWithin(n, front);
    }
  }

  lemma {:induction false} CountBelowEmpty(n: nat)
    ensures CountBelow(n, []) == 0
  {
    if n > 0 { CountBelowEmpty(n - 1); }
  }

  method StartRows(indegree: array<u32>, ghost edges: seq<nat>) returns (reverseOffsets: array<u32>)
    requires |edges| < U32_LIMIT
    requires forall t :: 0 <= t < indegree.Length ==> indegree[t] == Count(t, edges)
    ensures fresh(reverseOffsets) && reverseOffsets.Length == indegree.Length + 1
              && RowStarts(edges, reverseOffsets[..])
  {
    hide Count, RowStarts, CountBelow;
    var nodeCount := indegree.Length;
    CountBelowNext(0, edges);
    reverseOffsets := new u32[nodeCount + 1](_ => 0);
    for i := 0 to nodeCount
      invariant forall t :: 0 <= t <= i ==> reverseOffsets[t] == CountBelow(t, edges)
    {
      CountBelowNext(i, edges);
      reverseOffsets[i + 1] := reverseOffsets[i] + indegree[i];
    }
    BelowCountsStart(edges, reverseOffsets[..]);
  }

  lemma CountBelowNext(i: nat, edges: seq<nat>)
    ensures CountBelow(0, edges) == 0
    ensures CountBelow(i + 1, edges) == CountBelow(i, edges) + Count(i, edges) <= |edges|
  {
    CountBelowWithin(i + 1, edges);
  }

  lemma BelowCountsStart(edges: seq<nat>, starts: seq<nat>)
    requires |starts| >= 1 && forall t :: 0 <= t < |starts| ==> starts[t] == CountBelow(t, edges)
    ensures RowStarts(edges, starts)
  {
    hide Count;
    CountBelowWithin(|starts| - 1, edges);
    forall i, j | 0 <= i <= j < |starts| ensures starts[i] <= starts[j] {
      CountBelowMonotone(i, j, edges);
    }
  }

  lemma {:induction false} CountBelowMonotone(i: nat, j: nat, s: seq<nat>)
    requires i <= j
    ensures CountBelow(i, s) <= CountBelow(j, s)
  {
    if i < j { CountBelowMonotone(i, j - 1, s); }
  }

  lemma ScatterStart(c: Csr, starts: seq<nat>, out: seq<nat>)
    requires Framed(c) && Nodes(c) > 0 && RowStarts(c.edges, starts) && |starts| == |c.offsets| && |out| == |c.edges|
    requires forall p :: 0 <= p < |out| ==> out[p] == 0
    ensures Scattered(c, starts, starts, out, 0, 0)
  {
    forall t | 0 <= t < Nodes(c) ensures SourcesUpTo(c, t, 0, 0) == [] {
      SourcesRowDone(c, t, 0);
    }
  }

  lemma ScatterRowEnds(c: Csr, starts: seq<nat>, cursor: seq<nat>, out: seq<nat>, source: nat)
    requires Framed(c) && source < Nodes(c) && RowStarts(c.edges, starts)
    requires Scattered(c, starts, cursor, out, source, c.offsets[source + 1])
    ensures source + 1 < Nodes(c) ==> Scattered(c, starts, cursor, out, source + 1, c.offsets[source + 1])
    ensures source + 1 == Nodes(c) ==> IsTranspose(c, Csr(starts, out))
  {
    hide SourcesUpTo, Segment, RowStarts;
    var next, end := source + 1, c.offsets[source + 1];
    forall t | 0 <= t < Nodes(c)
      ensures SourcesUpTo(c, t, source, end) == Sources(c, t, next)
      ensures next < Nodes(c) ==> SourcesUpTo(c, t, next, end) == Sources(c, t, next)
    {
      SourcesRowDone(c, t, source);
      if next < Nodes(c) { SourcesRowDone(c, t, next); }
    }
  }

  /** One source's edges. */
  method ScatterRow(offsets: array<u32>, edges: array<u32>, source: nat, cursor: array<u32>, reverseEdges: array<u32>,
                    ghost c: Csr, ghost starts: seq<nat>)
    requires c == Csr(offsets[..], edges[..]) && Framed(c) && source < Nodes(c) < U32_LIMIT && |c.edges| < U32_LIMIT
    requires cursor != reverseEdges && cursor != edges && cursor != offsets
    requires reverseEdges != edges && reverseEdges != offsets
    requires RowStarts(c.edges, starts) && Scattered(c, starts, cursor[..], reverseEdges[..], source, c.offsets[source])
    modifies cursor, reverseEdges
    ensures Scattered(c, starts, cursor[..], reverseEdges[..], source, c.offsets[source + 1])
  {
    hide Scattered, RowStarts;
    ScatteredShape(c, starts, cursor[..], reverseEdges[..], source, c.offsets[source]);
    var nodeCount := offsets.Length - 1;
    var start, end := offsets[source], offsets[source + 1];
    for idx := start to end
      invariant cursor.Length == offsets.Length && reverseEdges.Length == edges.Length
      invariant Scattered(c, starts, cursor[..], reverseEdges[..], source, idx)
    {
      var target := edges[idx];
      ghost var before: seq<nat>, out: seq<nat> := cursor[..], reverseEdges[..];
      ScatterStep(c, starts, before, out, source, idx);
      if target < nodeCount {
        var pos := cursor[target];
        CursorInRange(c, starts, target, pos);
        reverseEdges[pos] := source;
        cursor[target] := pos + 1;
        assert cursor[..] == before[target := pos + 1] && reverseEdges[..] == out[pos := source];
      }
    }
  }

  lemma ScatteredShape(c: Csr, starts: seq<nat>, cursor: seq<nat>, out: seq<nat>, source: nat, k: nat)
    requires Framed(c) && source < Nodes(c) && c.offsets[source] <= k <= c.offsets[source + 1]
    requires Scattered(c, starts, cursor, out, source, k)
    ensures |starts| == |cursor| == |c.offsets| && |out| == |c.edges|
  {
  }

  lemma CursorInRange(c: Csr, starts: seq<nat>, t: nat, pos: nat)
    requires RowStarts(c.edges, starts) && t < |starts| - 1 && pos < starts[t + 1]
    ensures pos < |c.edges|
  {
  }

  /** The reverse CSR of a framed CSR.  No cursor passes the start of the next row, and out-of-range targets
      are dropped. */
  method BuildReverseAdjacencyCsr(offsets: array<u32>, edges: array<u32>)
    returns (reverseOffsets: array<u32>, reverseEdges: array<u32>)
    requires offsets.Length <= U32_LIMIT && edges.Length < U32_LIMIT
    requires offsets.Length >= 1 ==> Framed(Csr(offsets[..], edges[..]))
    ensures offsets.Length <= 1 ==> reverseOffsets[..] == [0] && reverseEdges[..] == []
    ensures offsets.Length > 1 ==>
              IsTranspose(Csr(offsets[..], edges[..]), Csr(reverseOffsets[..], reverseEdges[..]))
  {
    hide Scattered, RowStarts, IsTranspose;
    if offsets.Length <= 1 {
      reverseOffsets, reverseEdges := new u32[1](_ => 0), new u32[0](_ => 0);
      return;
    }
    var nodeCount := offsets.Length - 1;
    ghost var c := Csr(offsets[..], edges[..]);
    var indegree := CountIndegree(edges, nodeCount);
    reverseOffsets := StartRows(indegree, edges[..]);
    ghost var starts := reverseOffsets[..];
    reverseEdges := new u32[edges.Length](_ => 0);
    var cursor := new u32[nodeCount + 1](
      i requires 0 <= i < reverseOffsets.Length reads reverseOffsets => reverseOffsets[i]);
    assert cursor[..] == starts;
    ScatterStart(c, starts, reverseEdges[..]);
    for source := 0 to nodeCount
      invariant source < nodeCount ==> Scattered(c, starts, cursor[..], reverseEdges[..], source, c.offsets[source])
      invariant source == nodeCount ==> IsTranspose(c, Csr(starts, reverseEdges[..]))
      invariant reverseOffsets[..] == starts
    {
      ScatterRow(offsets, edges, source, cursor, reverseEdges, c, starts);
      ScatterRowEnds(c, starts, cursor[..], reverseEdges[..], source);
    }
  }

  // ---- What the reverse CSR means ----

  ghost predicate Ascending(s: seq<nat>) {
    forall i, j :: 0 <= i < j < |s| ==> s[i] <= s[j]
  }

  ghost predicate InRange(c: Csr)
    requires |c.offsets| >= 1
  {
    forall k :: 0 <= k < |c.edges| ==> c.edges[k] < Nodes(c)
  }

  lemma {:induction false} SourcesOrdered(c: Csr, t: nat, n: nat)
    requires Framed(c) && n <= Nodes(c)
    ensures Ascending(Sources(c, t, n)) && forall x :: x in Sources(c, t, n) ==> x < n
  {
    if n > 0 {
      SourcesOrdered(c, t, n - 1);
      var front := Sources(c, t, n - 1);
      assert forall i :: 0 <= i < |front| ==> front[i] in front;
    }
  }

  lemma CountConcat(x: nat, a: seq<nat>, b: seq<nat>)
    ensures Count(x, a + b) == Count(x, a) + Count(x, b)
  {
  }

  lemma CountNothing(x: nat)
    ensures Count(x, []) == 0
  {
  }

  lemma {:induction false} SourcesCount(c: Csr, t: nat, n: nat, s: nat)
    requires Framed(c) && n <= Nodes(c)
    ensures Count(s, Sources(c, t, n)) == if s < n then Count(t, Row(c, s)) else 0
  {
    hide Count, Row, Repeat;
    if n > 0 {
      SourcesCount(c, t, n - 1, s);
      RepeatCount(s, n - 1, Count(t, Row(c, n - 1)));
      CountConcat(s, Sources(c, t, n - 1), Repeat(n - 1, Count(t, Row(c, n - 1))));
    } else {
      CountNothing(s);
    }
  }

  lemma {:induction false} RepeatCount(x: nat, y: nat, n: nat)
    ensures Count(x, Repeat(y, n)) == if x == y then n else 0
  {
    if n > 0 {
      RepeatCount(x, y, n - 1);
      assert Repeat(y, n) == Repeat(y, n - 1) + [y];
    }
  }

  lemma TransposeFramed(c: Csr, r: Csr)
    requires Framed(c) && Nodes(c) > 0 && IsTranspose(c, r)
    ensures Framed(r) && Nodes(r) == Nodes(c) && (WellFormed(r) <==> InRange(c))
  {
    var n := Nodes(c);
    StartIsCountBelow(c.edges, r.offsets, n);
    CountBelowWithin(n, c.edges);
    assert forall k :: 0 <= k < |c.edges| ==> c.edges[k] in c.edges;
  }

  lemma {:induction false} StartIsCountBelow(edges: seq<nat>, starts: seq<nat>, t: nat)
    requires RowStarts(edges, starts) && t < |starts|
    ensures starts[t] == CountBelow(t, edges)
  {
    if t > 0 { StartIsCountBelow(edges, starts, t - 1); }
  }

  lemma TransposeRow(c: Csr, r: Csr, t: nat)
    requires WellFormed(c) && IsTranspose(c, r) && t < Nodes(c) && Framed(r)
    ensures Row(r, t) == Sources(c, t, Nodes(c))
  {
    SourcesLength(c, t, Nodes(c));
    assert c.edges[..|c.edges|] == c.edges;
    assert |Row(r, t)| == |Sources(c, t, Nodes(c))|;
  }

  /** Source s occurs in reverse row t exactly as often as t occurs in forward row s, and rows ascend. */
  lemma ReverseRows(c: Csr, r: Csr, s: nat, t: nat)
    requires WellFormed(c) && IsTranspose(c, r) && s < Nodes(c) && t < Nodes(c)
    ensures Framed(r) && Nodes(r) == Nodes(c)
    ensures Count(s, Row(r, t)) == Count(t, Row(c, s)) && Ascending(Row(r, t))
  {
    TransposeFramed(c, r);
    TransposeRow(c, r, t);
    SourcesCount(c, t, Nodes(c), s);
    SourcesOrdered(c, t, Nodes(c));
  }

  /** `d` is `c` with every row sorted. */
  ghost predicate RowsSorted(c: Csr, d: Csr)
    requires Framed(c)
  {
    && d.offsets == c.offsets && |d.edges| == |c.edges| && Framed(d)
    && forall s :: 0 <= s < Nodes(c) ==> Ascending(Row(d, s)) && multiset(Row(d, s)) == multiset(Row(c, s))
  }

  lemma TwiceRow(c: Csr, r: Csr, rr: Csr, s: nat)
    requires WellFormed(c) && InRange(c) && IsTranspose(c, r) && Framed(r) && IsTranspose(r, rr) && Framed(rr)
    requires s < Nodes(c)
    ensures Ascending(Row(rr, s)) && multiset(Row(rr, s)) == multiset(Row(c, s))
  {
    TransposeFramed(c, r);
    TransposeRow(r, rr, s);
    SourcesOrdered(r, s, Nodes(c));
    forall t: nat ensures multiset(Row(rr, s))[t] == multiset(Row(c, s))[t] {
      SourcesCount(r, s, Nodes(c), t);
      if t < Nodes(c) {
        ReverseRows(c, r, s, t);
      } else {
        assert t !in Row(c, s);
        assert Count(t, Row(c, s)) == 0;
      }
    }
  }

  lemma {:induction false} SameLengthsSameOffsets(a: Csr, b: Csr, i: nat)
    requires Framed(a) && Framed(b) && |a.offsets| == |b.offsets| && i <= Nodes(a)
    requires forall s :: 0 <= s < Nodes(a) ==> |Row(a, s)| == |Row(b, s)|
    ensures a.offsets[i] == b.offsets[i]
  {
    if i > 0 {
      SameLengthsSameOffsets(a, b, i - 1);
      assert |Row(a, i - 1)| == |Row(b, i - 1)|;
    }
  }

  lemma {:induction false} RowOf(c: Csr, k: nat, n: nat) returns (s: nat)
    requires Framed(c) && n <= Nodes(c) && k < c.offsets[n]
    ensures s < n && c.offsets[s] <= k < c.offsets[s + 1]
  {
    if k >= c.offsets[n - 1] { s := n - 1; } else { s := RowOf(c, k, n - 1); }
  }

  /** Entries of a reverse CSR are all node indices. */
  lemma ReverseEntry(c: Csr, r: Csr, t: nat, x: nat)
    requires Framed(c) && Nodes(c) > 0 && IsTranspose(c, r) && Framed(r) && t < Nodes(c) && x in Row(r, t)
    ensures x < Nodes(c)
  {
    var sources := Sources(c, t, Nodes(c));
    SourcesOrdered(c, t, Nodes(c));
    var i :| 0 <= i < |Row(r, t)| && Row(r, t)[i] == x;
    assert Segment(r.edges, r.offsets[t], r.offsets[t + 1], sources);
    assert x == r.edges[r.offsets[t] + i];
    if i < |sources| { assert sources[i] in sources; }
  }

  /** Transposing twice sorts every row, and does so exactly when every target is in range: an
      out-of-range target is dropped by the first pass and leaves a slack entry for the second. */
  lemma TransposeTwice(c: Csr, r: Csr, rr: Csr)
    requires WellFormed(c) && Nodes(c) > 0 && IsTranspose(c, r)
    requires Framed(r) ==> IsTranspose(r, rr)
    ensures Framed(r) && (InRange(c) <==> RowsSorted(c, rr))
  {
    TransposeFramed(c, r);
    TransposeFramed(r, rr);
    if InRange(c) {
      forall s | 0 <= s < Nodes(c)
        ensures Ascending(Row(rr, s)) && multiset(Row(rr, s)) == multiset(Row(c, s)) && |Row(rr, s)| == |Row(c, s)|
      {
        TwiceRow(c, r, rr, s);
        assert |multiset(Row(rr, s))| == |multiset(Row(c, s))|;
      }
      forall i | 0 <= i < |c.offsets| ensures rr.offsets[i] == c.offsets[i] {
        SameLengthsSameOffsets(rr, c, i);
      }
    }
    if RowsSorted(c, rr) {
      forall k | 0 <= k < |c.edges| ensures c.edges[k] < Nodes(c) {
        var s := RowOf(c, k, Nodes(c));
        assert c.edges[k] == Row(c, s)[k - c.offsets[s]];
        assert c.edges[k] in multiset(Row(c, s));
        ReverseEntry(r, rr, s, c.edges[k]);
      }
    }
  }

  lemma LeastFirst(a: seq<nat>, b: seq<nat>)
    requires Ascending(b) && multiset(a) == multiset(b) && a != []
    ensures b != [] && b[0] <= a[0]
  {
    assert a[0] in multiset(b);
    var i :| 0 <= i < |b| && b[i] == a[0];
  }

  lemma {:induction false} AscendingUnique(a: seq<nat>, b: seq<nat>)
    requires Ascending(a) && Ascending(b) && multiset(a) == multiset(b)
    ensures a == b
  {
    if a == [] {
      assert |multiset(b)| == 0;
    } else {
      LeastFirst(a, b);
      LeastFirst(b, a);
      assert a == [a[0]] + a[1..] && b == [b[0]] + b[1..];
      assert multiset(a[1..]) == multiset(a) - multiset{a[0]} == multiset(b) - multiset{b[0]} == multiset(b[1..]);
      AscendingUnique(a[1..], b[1..]);
    }
  }

  /** So on in-range rows already ascending, transposing twice is the identity. */
  lemma TransposeTwiceIdentity(c: Csr, r: Csr, rr: Csr)
    requires WellFormed(c) && Nodes(c) > 0 && InRange(c) && IsTranspose(c, r)
    requires Framed(r) ==> IsTranspose(r, rr)
    requires forall s :: 0 <= s < Nodes(c) ==> Ascending(Row(c, s))
    ensures rr == c
  {
    TransposeTwice(c, r, rr);
    forall k | 0 <= k < |c.edges| ensures rr.edges[k] == c.edges[k] {
      var s := RowOf(c, k, Nodes(c));
      AscendingUnique(Row(rr, s), Row(c, s));
      assert Row(rr, s)[k - c.offsets[s]] == Row(c, s)[k - c.offsets[s]];
    }
    assert rr.edges == c.edges;
  }
}
