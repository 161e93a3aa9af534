/** Keeping one edge per key: src/graph/neighborhood/edge-policy.js. */
module EdgePolicy {
  import opened Wrappers
  import opened Sorting
  import opened Ordering

  predicate IsEdgeBetter(candidate: Edge, current: Edge) {
    if candidate.confidence.Some? && current.confidence.Some? && candidate.confidence != current.confidence
    then candidate.confidence.value > current.confidence.value
    else if candidate.confidence.Some? && current.confidence.None? then true
    else if candidate.confidence.None? && current.confidence.Some? then false
    else candidate.evidence && !current.evidence
  }

  /** `d` has at least the confidence of `e`, where none is lowest, and between equal confidences evidence if `e`
      has. */
  ghost predicate AtLeastAsGood(d: Edge, e: Edge) {
    && (e.confidence.Some? ==> d.confidence.Some? && d.confidence.value >= e.confidence.value)
    && (d.confidence == e.confidence && e.evidence ==> d.evidence)
  }

  /** The source's test takes the candidate exactly when the current edge is not as good. */
  lemma BetterMeans(candidate: Edge, current: Edge)
    ensures IsEdgeBetter(candidate, current) <==> !AtLeastAsGood(current, candidate)
  {
  }

  lemma GoodIsTotal(a: Edge, b: Edge, c: Edge)
    ensures AtLeastAsGood(a, b) || AtLeastAsGood(b, a)
    ensures AtLeastAsGood(a, b) && AtLeastAsGood(b, c) ==> AtLeastAsGood(a, c)
  {
  }

  // ---- What a key names ----

  /** Edge keys are joined with '|'.  No '|' in the parts before the last. */
  predicate Separable(e: Edge) { '|' !in e.graph && '|' !in e.from && '|' !in e.edgeType }

  lemma {:induction false} SplitAtBar(p: string, q: string, s: string, t: string)
    requires '|' !in p && '|' !in q
    requires p + "|" + s == q + "|" + t
    ensures p == q && s == t
  {
    var u := p + "|" + s;
    assert u[|p|] == '|' && forall i :: 0 <= i < |p| ==> u[i] == p[i];
    assert u[|q|] == '|' && forall i :: 0 <= i < |q| ==> u[i] == q[i];
    assert |p| == |q|;
    assert p == u[..|p|] == q && s == u[|p| + 1..] == t;
  }

  /** Between such edges keys name the ends. */
  lemma EdgeKeyNamesEnds(a: Edge, b: Edge)
    requires Separable(a) && Separable(b)
    ensures EdgeKey(a) == EdgeKey(b) <==> SameEnds(a, b)
  {
    if EdgeKey(a) == EdgeKey(b) {
      SplitAtBar(a.graph, b.graph, a.from + "|" + (a.edgeType + "|" + a.to), b.from + "|" + (b.edgeType + "|" + b.to));
      SplitAtBar(a.from, b.from, a.edgeType + "|" + a.to, b.edgeType + "|" + b.to);
      SplitAtBar(a.edgeType, b.edgeType, a.to, b.to);
    }
  }

  /** No '|' in any part. */
  predicate Plain(e: Edge) { Separable(e) && '|' !in e.to }

  function Bars(s: string): nat {
    if s == "" then 0 else (if s[0] == '|' then 1 else 0) + Bars(s[1..])
  }

  lemma {:induction false} BarsConcat(a: string, b: string)
    ensures Bars(a + b) == Bars(a) + Bars(b)
  {
    if a == "" {
      assert a + b == b;
    } else {
      assert (a + b)[1..] == a[1..] + b;
      BarsConcat(a[1..], b);
    }
  }

  lemma {:induction false} NoBars(s: string)
    ensures Bars(s) == 0 <==> '|' !in s
  {
    if s != "" {
      NoBars(s[1..]);
      assert s == [s[0]] + s[1..];
    }
  }

  lemma JoinedBars(a: string, b: string)
    ensures Bars(a + "|" + b) == Bars(a) + 1 + Bars(b)
  {
    BarsConcat(a + "|", b);
    BarsConcat(a, "|");
    assert "|"[1..] == "";
  }

  lemma KeyBars(e: Edge)
    ensures Bars(EdgeKey(e)) == Bars(e.graph) + Bars(e.from) + Bars(e.edgeType) + Bars(e.to) + 3
    ensures Plain(e) <==> Bars(EdgeKey(e)) == 3
  {
    hide Bars;
    JoinedBars(e.edgeType, e.to);
    JoinedBars(e.from, e.edgeType + "|" + e.to);
    JoinedBars(e.graph, e.from + "|" + (e.edgeType + "|" + e.to));
    NoBars(e.graph);
    NoBars(e.from);
    NoBars(e.edgeType);
    NoBars(e.to);
  }

  lemma SplitPart(s: string) returns (x: string, y: string)
    requires '|' in s
    ensures s == x + "|" + y && |x| < |s| && |y| < |s|
  {
    var i :| 0 <= i < |s| && s[i] == '|';
    x, y := s[..i], s[i + 1..];
  }

  lemma Rejoin(a: string, x: string, y: string)
    ensures a + "|" + (x + "|" + y) == (a + "|" + x) + "|" + y
    ensures (x + "|" + y) + "|" + a == x + "|" + (y + "|" + a)
  {
  }

  lemma RejoinWithin(a: string, x: string, y: string, b: string)
    ensures a + "|" + ((x + "|" + y) + "|" + b) == (a + "|" + x) + "|" + (y + "|" + b)
  {
    Associative(a + "|" + x + "|", y, "|" + b);
    Associative(a + "|", x + "|" + y, "|" + b);
  }

  /** With a '|' in some part, another edge has the same key. */
  lemma Twist(a: Edge) returns (b: Edge)
    requires !Plain(a)
    ensures EdgeKey(b) == EdgeKey(a) && !SameEnds(a, b)
  {
    if '|' in a.to {
      var x, y := SplitPart(a.to);
      b := a.(edgeType := a.edgeType + "|" + x, to := y);
      Rejoin(a.edgeType, x, y);
    } else if '|' in a.edgeType {
      var x, y := SplitPart(a.edgeType);
      b := a.(from := a.from + "|" + x, edgeType := y);
      RejoinWithin(a.from, x, y, a.to);
    } else if '|' in a.from {
      var x, y := SplitPart(a.from);
      b := a.(graph := a.graph + "|" + x, from := y);
      RejoinWithin(a.graph, x, y, a.edgeType + "|" + a.to);
    } else {
      var x, y := SplitPart(a.graph);
      b := a.(graph := x, from := y + "|" + a.from);
      RejoinWithin(x, y, a.from, a.edgeType + "|" + a.to);
      assert a.graph + "|" + (a.from + "|" + (a.edgeType + "|" + a.to))
          == x + "|" + (y + "|" + (a.from + "|" + (a.edgeType + "|" + a.to)))
        by { Rejoin(a.from + "|" + (a.edgeType + "|" + a.to), x, y); }
      Rejoin(y, a.from, a.edgeType + "|" + a.to);
    }
  }

  /** Among all values an edge's key names its ends alone exactly when no part holds a '|'; among the edges the
      traversal makes, see EdgeNames. */
  lemma KeyNamesEndsWhen(a: Edge)
    ensures (forall b :: EdgeKey(b) == EdgeKey(a) ==> SameEnds(a, b)) <==> Plain(a)
  {
    hide EdgeKey, Bars;
    if Plain(a) {
      forall b | EdgeKey(b) == EdgeKey(a) ensures SameEnds(a, b) {
        KeyBars(a);
        KeyBars(b);
        EdgeKeyNamesEnds(a, b);
      }
    } else {
      var b := Twist(a);
    }
  }

  // ---- Runs of equal keys ----

  ghost function Keys(s: seq<Edge>): seq<string> {
    seq(|s|, i requires 0 <= i < |s| => EdgeKey(s[i]))
  }

  /** Equal keys are consecutive. */
  ghost predicate Grouped(keys: seq<string>) {
    forall i, j, k :: 0 <= i < j < k < |keys| && keys[i] == keys[k] ==> keys[j] == keys[i]
  }

  lemma SortedIsGrouped(s: seq<Edge>)
    requires Sorted(LeqEdges, s) && forall e :: e in s ==> Separable(e)
    ensures Grouped(Keys(s))
  {
    forall i, j, k | 0 <= i < j < k < |s| && EdgeKey(s[i]) == EdgeKey(s[k])
      ensures EdgeKey(s[j]) == EdgeKey(s[i])
    {
      EdgeKeyNamesEnds(s[i], s[k]);
      EdgeOrder(s[i], s[j], s[k]);
    }
  }

  /** Positions i up to j hold one key. */
  ghost predicate Run(keys: seq<string>, i: nat, j: nat) {
    i <= j < |keys| && forall k :: i <= k <= j ==> keys[k] == keys[i]
  }

  /** Position `p` holds the edge to keep of its run among the first `n`: at least as good as every edge of the run,
      and no earlier one is as good. */
  ghost predicate Keeps(keys: seq<string>, s: seq<Edge>, n: nat, p: nat)
    requires n <= |s| == |keys|
  {
    && p < n
    && (forall j :: 0 <= j < p && Run(keys, j, p) ==> !AtLeastAsGood(s[j], s[p]))
    && (forall j :: p < j < n && Run(keys, p, j) ==> AtLeastAsGood(s[p], s[j]))
  }

  ghost predicate Represented(keys: seq<string>, picks: seq<nat>, j: nat) {
    exists a :: 0 <= a < |picks| && Run(keys, Min(picks[a], j), Max(picks[a], j))
  }

  /** `picks` are the kept positions of the first `n` edges, one for each run. */
  ghost predicate Kept(keys: seq<string>, s: seq<Edge>, n: nat, picks: seq<nat>)
    requires n <= |s| == |keys|
  {
    && (forall a :: 0 <= a < |picks| ==> Keeps(keys, s, n, picks[a]))
    && (forall a, b :: 0 <= a < b < |picks| ==> picks[a] < picks[b] && !Run(keys, picks[a], picks[b]))
    && (forall j :: 0 <= j < n ==> Represented(keys, picks, j))
  }

  /** `deduped` lists the edges at the positions `picks`. */
  ghost predicate PickedBy(s: seq<Edge>, picks: seq<nat>, deduped: seq<Edge>) {
    |deduped| == |picks| && forall a :: 0 <= a < |picks| ==> picks[a] < |s| && deduped[a] == s[picks[a]]
  }

  /** `deduped` holds, for each run of equal keys in `s`, its earliest best edge, in list order. */
  ghost predicate DedupeOf(s: seq<Edge>, deduped: seq<Edge>) {
    exists picks :: Kept(Keys(s), s, |s|, picks) && PickedBy(s, picks, deduped)
  }

  lemma RunsJoin(keys: seq<string>, i: nat, j: nat, k: nat)
    requires i <= j <= k
    ensures Run(keys, i, k) <==> Run(keys, i, j) && Run(keys, j, k)
  {
  }

  lemma RunOne(keys: seq<string>, i: nat)
    requires i < |keys|
    ensures Run(keys, i, i)
    ensures i + 1 < |keys| ==> (Run(keys, i, i + 1) <==> keys[i] == keys[i + 1])
  {
  }

  // A new key starts: the run that just ended keeps its best.
  lemma KeptNewKey(keys: seq<string>, s: seq<Edge>, n: nat, picks: seq<nat>)
    requires 0 < n < |s| == |keys| && Kept(keys, s, n, picks) && keys[n - 1] != keys[n]
    ensures Kept(keys, s, n + 1, picks + [n])
  {
    hide IsEdgeBetter, AtLeastAsGood, Run;
    var more := picks + [n];
    forall j | 0 <= j < n ensures !Run(keys, j, n) {
      RunsJoin(keys, j, n - 1, n);
      RunOne(keys, n - 1);
    }
    forall a | 0 <= a < |more| ensures Keeps(keys, s, n + 1, more[a]) {
      if a < |picks| { assert more[a] == picks[a]; assert Keeps(keys, s, n, picks[a]); }
    }
    forall j | 0 <= j < n + 1 ensures Represented(keys, more, j) {
      if j < n {
        assert Represented(keys, picks, j);
        var a :| 0 <= a < |picks| && Run(keys, Min(picks[a], j), Max(picks[a], j));
        assert more[a] == picks[a];
      } else {
        RunOne(keys, n);
        assert more[|picks|] == n;
      }
    }
  }

  lemma KeptFirst(keys: seq<string>, s: seq<Edge>)
    requires |s| == |keys|
    ensures Kept(keys, s, 0, [])
    ensures s != [] ==> Kept(keys, s, 1, [0])
  {
    if s != [] {
      RunOne(keys, 0);
      assert [0][0] == 0 && Represented(keys, [0], 0);
    }
  }

  lemma KeepsOtherRun(keys: seq<string>, s: seq<Edge>, n: nat, p: nat)
    requires n < |s| == |keys| && Keeps(keys, s, n, p) && !Run(keys, p, n)
    ensures Keeps(keys, s, n + 1, p)
  {
  }

  lemma KeepsSameRun(keys: seq<string>, s: seq<Edge>, n: nat, p: nat)
    requires n < |s| == |keys| && Keeps(keys, s, n, p) && Run(keys, p, n)
    ensures Keeps(keys, s, n + 1, if IsEdgeBetter(s[n], s[p]) then n else p)
  {
    hide IsEdgeBetter, AtLeastAsGood, Run;
    BetterMeans(s[n], s[p]);
    if IsEdgeBetter(s[n], s[p]) {
      forall j | 0 <= j < n && Run(keys, j, n) ensures !AtLeastAsGood(s[j], s[n]) {
        if j < p { RunsJoin(keys, j, p, n); } else { RunsJoin(keys, p, j, n); }
        GoodIsTotal(s[p], s[j], s[n]);
        GoodIsTotal(s[j], s[p], s[n]);
      }
    }
  }

  lemma RepresentedMoves(keys: seq<string>, picks: seq<nat>, at: nat, n: nat, next: nat, j: nat)
    requires at < n && j <= n && Run(keys, at, n) && next in {at, n}
    requires j < n ==> Represented(keys, picks + [at], j)
    ensures Represented(keys, picks + [next], j)
  {
    hide Run;
    var was, now := picks + [at], picks + [next];
    RunOf(keys, at, n);
    if j < n {
      var a :| 0 <= a < |was| && Run(keys, Min(was[a], j), Max(was[a], j));
      if a < |picks| {
        assert now[a] == was[a];
      } else {
        assert was[a] == at && now[a] == next;
        if j < at { RunsJoin(keys, j, at, n); } else { RunsJoin(keys, at, j, n); }
      }
    } else {
      RunOne(keys, n);
      assert now[|picks|] == next;
    }
  }

  lemma RunOf(keys: seq<string>, i: nat, j: nat)
    requires Run(keys, i, j)
    ensures j < |keys|
  {
  }

  // The run goes on: its kept position moves to `n` exactly when the new edge is better.
  lemma KeptSameKey(keys: seq<string>, s: seq<Edge>, n: nat, picks: seq<nat>, at: nat)
    requires at < n < |s| == |keys| && Kept(keys, s, n, picks + [at]) && Run(keys, at, n)
    ensures Kept(keys, s, n + 1, picks + [if IsEdgeBetter(s[n], s[at]) then n else at])
  {
    hide IsEdgeBetter, AtLeastAsGood, Keeps, Run, Represented;
    var last, next := |picks|, if IsEdgeBetter(s[n], s[at]) then n else at;
    var was, now := picks + [at], picks + [next];
    assert was[last] == at;
    forall a | 0 <= a < |now| ensures Keeps(keys, s, n + 1, now[a]) {
      assert Keeps(keys, s, n, was[a]);
      if a < last {
        RunsJoin(keys, was[a], at, n);
        KeepsOtherRun(keys, s, n, was[a]);
      } else {
        KeepsSameRun(keys, s, n, at);
      }
    }
    forall a, b | 0 <= a < b < |now| ensures now[a] < now[b] && !Run(keys, now[a], now[b]) {
      assert was[a] < was[b] && !Run(keys, was[a], was[b]);
      RunsJoin(keys, was[a], was[b], now[b]);
    }
    forall j | 0 <= j < n + 1 ensures Represented(keys, now, j) {
      RepresentedMoves(keys, picks, at, n, next, j);
    }
  }

  /** The result holds, for each run of equal keys, its earliest best edge, in list order. */
  method DedupeSortedEdges(sortedEdges: seq<Edge>) returns (deduped: seq<Edge>)
    ensures DedupeOf(sortedEdges, deduped)
  {
    hide IsEdgeBetter, AtLeastAsGood, Kept, EdgeKey, Run;
    deduped := [];
    ghost var picks: seq<nat> := [];
    ghost var keys := Keys(sortedEdges);
    if |sortedEdges| <= 1 {
      KeptFirst(keys, sortedEdges);
      if |sortedEdges| == 1 { picks := [0]; }
      assert PickedBy(sortedEdges, picks, sortedEdges);
      return sortedEdges;
    }
    var best, lastKey := sortedEdges[0], EdgeKey(sortedEdges[0]);
    ghost var at := 0;
    KeptFirst(keys, sortedEdges);
    RunOne(keys, 0);
    assert picks + [at] == [0];
    for n := 1 to |sortedEdges|
      invariant at < n && best == sortedEdges[at] && lastKey == keys[n - 1] && Run(keys, at, n - 1)
      invariant PickedBy(sortedEdges, picks, deduped) && Kept(keys, sortedEdges, n, picks + [at])
    {
      var edge := sortedEdges[n];
      var key := EdgeKey(edge);
      assert key == keys[n];
      RunOne(keys, n);
      RunOne(keys, n - 1);
      RunsJoin(keys, at, n - 1, n);
      if key != lastKey {
        KeptNewKey(keys, sortedEdges, n, picks + [at]);
        deduped, picks := deduped + [best], picks + [at];
        best, lastKey, at := edge, key, n;
      } else {
        KeptSameKey(keys, sortedEdges, n, picks, at);
        if IsEdgeBetter(edge, best) {
          best, at := edge, n;
        }
      }
    }
    deduped, picks := deduped + [best], picks + [at];
  }

  // ---- What the pass promises ----

  ghost predicate OnePerKey(edges: seq<Edge>) {
    forall a, b :: 0 <= a < b < |edges| ==> EdgeKey(edges[a]) != EdgeKey(edges[b])
  }

  /** `e` or an edge with its key that is at least as good. */
  ghost predicate Covers(edges: seq<Edge>, e: Edge) {
    exists d :: d in edges && EdgeKey(d) == EdgeKey(e) && AtLeastAsGood(d, e)
  }

  lemma KeptIsGood(keys: seq<string>, s: seq<Edge>, p: nat, j: nat)
    requires |s| == |keys| && Keeps(keys, s, |s|, p) && j < |s| && Run(keys, Min(p, j), Max(p, j))
    ensures keys[p] == keys[j] && AtLeastAsGood(s[p], s[j])
  {
    hide AtLeastAsGood;
    GoodIsTotal(s[p], s[j], s[j]);
  }

  /** Every edge of the list is covered. */
  lemma DedupeCovers(s: seq<Edge>, deduped: seq<Edge>, e: Edge)
    requires DedupeOf(s, deduped) && e in s
    ensures Covers(deduped, e)
  {
    hide EdgeKey, AtLeastAsGood, Run, Keeps;
    var keys := Keys(s);
    var picks :| Kept(keys, s, |s|, picks) && PickedBy(s, picks, deduped);
    var j :| 0 <= j < |s| && s[j] == e;
    assert Represented(keys, picks, j);
    var a :| 0 <= a < |picks| && Run(keys, Min(picks[a], j), Max(picks[a], j));
    KeptIsGood(keys, s, picks[a], j);
    assert deduped[a] in deduped && EdgeKey(deduped[a]) == keys[picks[a]] == keys[j];
  }

  /** The result is a subsequence, so as sorted as the list. */
  lemma DedupeSorted(s: seq<Edge>, deduped: seq<Edge>)
    requires Sorted(LeqEdges, s) && DedupeOf(s, deduped)
    ensures Sorted(LeqEdges, deduped)
  {
    hide LeqEdges, Run;
    var picks :| Kept(Keys(s), s, |s|, picks) && PickedBy(s, picks, deduped);
    forall a, b | 0 <= a < b < |deduped| ensures LeqEdges(deduped[a], deduped[b]) {
      assert picks[a] < picks[b];
    }
  }

  lemma {:induction false} IncreasingBound(picks: seq<nat>, n: nat)
    requires forall a, b :: 0 <= a < b < |picks| ==> picks[a] < picks[b]
    requires forall a :: 0 <= a < |picks| ==> picks[a] < n
    ensures |picks| <= n
  {
    if picks != [] {
      var m := |picks| - 1;
      IncreasingBound(picks[..m], picks[m]);
    }
  }

  lemma DedupeMembers(s: seq<Edge>, deduped: seq<Edge>)
    requires DedupeOf(s, deduped)
    ensures |deduped| <= |s| && forall e :: e in deduped ==> e in s
  {
    hide Run, Keeps, Represented;
    var picks :| Kept(Keys(s), s, |s|, picks) && PickedBy(s, picks, deduped);
    IncreasingBound(picks, |s|);
  }

  lemma RunPick(keys: seq<string>, s: seq<Edge>, picks: seq<nat>, j: nat) returns (a: nat)
    requires |s| == |keys| && Kept(keys, s, |s|, picks) && j < |keys|
    ensures a < |picks| && Run(keys, Min(picks[a], j), Max(picks[a], j)) && picks[a] < |keys|
              && keys[picks[a]] == keys[j]
  {
    assert Represented(keys, picks, j);
    a :| 0 <= a < |picks| && Run(keys, Min(picks[a], j), Max(picks[a], j));
  }

  lemma GroupedRuns(keys: seq<string>, i: nat, j: nat)
    requires Grouped(keys) && i < j < |keys| && keys[i] == keys[j]
    ensures Run(keys, i, j)
  {
  }

  /** One edge a key is kept exactly when equal keys stand together. */
  lemma OnePerKeyWhen(s: seq<Edge>, deduped: seq<Edge>)
    requires DedupeOf(s, deduped)
    ensures OnePerKey(deduped) <==> Grouped(Keys(s))
  {
    hide EdgeKey, Keeps, Represented, Run, Grouped;
    var keys := Keys(s);
    var picks :| Kept(keys, s, |s|, picks) && PickedBy(s, picks, deduped);
    if Grouped(keys) {
      forall a, b | 0 <= a < b < |deduped| ensures EdgeKey(deduped[a]) != EdgeKey(deduped[b]) {
        assert picks[a] < picks[b] && !Run(keys, picks[a], picks[b]);
        if keys[picks[a]] == keys[picks[b]] { GroupedRuns(keys, picks[a], picks[b]); }
      }
    } else {
      var i, j, k := NotGrouped(keys);
      var a := RunPick(keys, s, picks, i);
      var b := RunPick(keys, s, picks, k);
      RunsApart(keys, i, j, k, picks[a], picks[b]);
      assert EdgeKey(deduped[a]) == keys[i] == keys[k] == EdgeKey(deduped[b]);
    }
  }

  lemma NotGrouped(keys: seq<string>) returns (i: nat, j: nat, k: nat)
    requires !Grouped(keys)
    ensures i < j < k < |keys| && keys[i] == keys[k] != keys[j]
  {
    i, j, k :| 0 <= i < j < k < |keys| && keys[i] == keys[k] && keys[j] != keys[i];
  }

  lemma RunsApart(keys: seq<string>, i: nat, j: nat, k: nat, p: nat, r: nat)
    requires i < j < k < |keys| && keys[i] == keys[k] != keys[j]
    requires Run(keys, Min(p, i), Max(p, i)) && Run(keys, Min(r, k), Max(r, k))
    ensures p < j < r
  {
  }

  /** Of two edges the pass drops one exactly when they share a key. */
  lemma DedupePair(s: seq<Edge>, deduped: seq<Edge>)
    requires |s| == 2 && DedupeOf(s, deduped)
    ensures |deduped| == 2 <==> EdgeKey(s[0]) != EdgeKey(s[1])
  {
    hide EdgeKey, Grouped;
    DedupeMembers(s, deduped);
    PairGrouped(Keys(s));
    OnePerKeyWhen(s, deduped);
    DedupeCovers(s, deduped, s[0]);
    DedupeCovers(s, deduped, s[1]);
    if |deduped| == 2 { assert EdgeKey(deduped[0]) != EdgeKey(deduped[1]); }
  }

  lemma PairGrouped(keys: seq<string>)
    requires |keys| == 2
    ensures Grouped(keys)
  {
  }

  lemma PairSorted(a: Edge, b: Edge)
    ensures StableSort(LeqEdges, [a, b]) == if LeqEdges(a, b) then [a, b] else [b, a]
  {
    hide LeqEdges;
    assert [a, b][1..] == [b] && [b][1..] == [];
    assert StableSort(LeqEdges, [b]) == Insert(LeqEdges, b, []) == [b];
    assert StableSort(LeqEdges, [a, b]) == Insert(LeqEdges, a, [b]);
    assert [b] + Insert(LeqEdges, a, []) == [b, a];
  }

  lemma PairDeduped(s: seq<Edge>) returns (deduped: seq<Edge>)
    requires |s| == 2 && EdgeKey(s[0]) == EdgeKey(s[1])
    ensures DedupeOf(s, deduped)
  {
    hide EdgeKey, IsEdgeBetter, AtLeastAsGood, Kept;
    var keys := Keys(s);
    KeptFirst(keys, s);
    assert [] + [0] == [0];
    KeptSameKey(keys, s, 1, [], 0);
    var pick: nat := if IsEdgeBetter(s[1], s[0]) then 1 else 0;
    assert [] + [pick] == [pick];
    deduped := [s[pick]];
    assert PickedBy(s, [pick], deduped);
  }

  /** Of two edges with different keys both are kept. */
  lemma PairKept(s: seq<Edge>)
    requires |s| == 2 && EdgeKey(s[0]) != EdgeKey(s[1])
    ensures DedupeOf(s, s) && OnePerKey(s)
  {
    hide EdgeKey, IsEdgeBetter, AtLeastAsGood, Kept;
    var keys := Keys(s);
    KeptFirst(keys, s);
    KeptNewKey(keys, s, 1, [0]);
    assert [0] + [1] == [0, 1];
    assert PickedBy(s, [0, 1], s);
  }

  /** Next to any edge value with other ends an edge is kept exactly when no part of it holds a '|'; otherwise the
      pass drops one of the two. */
  lemma BothKeptWhen(a: Edge)
    ensures (forall b, deduped :: !SameEnds(a, b) && DedupeOf(StableSort(LeqEdges, [a, b]), deduped) ==> |deduped| == 2)
            <==> Plain(a)
  {
    hide EdgeKey, LeqEdges, StableSort, DedupeOf, SameEnds, Plain;
    KeyNamesEndsWhen(a);
    if Plain(a) {
      forall b, deduped | !SameEnds(a, b) && DedupeOf(StableSort(LeqEdges, [a, b]), deduped) ensures |deduped| == 2 {
        PairSorted(a, b);
        DedupePair(StableSort(LeqEdges, [a, b]), deduped);
      }
    } else {
      var b :| EdgeKey(b) == EdgeKey(a) && !SameEnds(a, b);
      PairSorted(a, b);
      var deduped := PairDeduped(StableSort(LeqEdges, [a, b]));
      DedupePair(StableSort(LeqEdges, [a, b]), deduped);
    }
  }
}
