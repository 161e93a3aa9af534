/** Which of the edges the traversal makes share an edge key: the edges of src/graph/neighborhood.js:419-547 under the
    keys of src/graph/ordering.js:32-100. */
module EdgeNames {
  import opened Wrappers
  import opened Sorting
  import opened Ordering
  import opened EdgePolicy

  /** A key of the given kind with a name. */
  predicate Names(kind: string, k: string) { kind <= k && |k| > |kind| }

  predicate CandidateKey(k: string) {
    || Names("symbol:", k) || Names("chunk:", k) || Names("file:", k)
    || Names("symbolKey:", k) || Names("signatureKey:", k)
  }

  function Joined(keys: seq<string>): string {
    if keys == [] then "" else if |keys| == 1 then keys[0] else keys[0] + "|" + Joined(keys[1..])
  }

  /** Several candidates, each once, in order. */
  ghost predicate CandidateList(keys: seq<string>) {
    && |keys| >= 2 && (forall k :: k in keys ==> CandidateKey(k))
    && forall i, j :: 0 <= i < j < |keys| ==> CompareStrings(keys[i], keys[j]) < 0
  }

  /** Where symbol edges lead: a resolved reference or its one candidate, several candidates, a name or a status. */
  ghost predicate SymbolTarget(k: string) {
    || CandidateKey(k) || Names("name:", k) || Names("status:", k)
    || exists keys :: CandidateList(keys) && k == "candidates:" + Joined(keys)
  }

  /** The type of the edges of a graph, for the three graphs that have one. */
  function TypeIn(graph: string): string {
    if graph == "callGraph" then "call" else if graph == "usageGraph" then "usage" else "import"
  }

  /** The kind of key their edges lead to. */
  function TargetKind(graph: string): string {
    if graph == "importGraph" then "file:" else "chunk:"
  }

  predicate SourceKey(graph: string, k: string) {
    Names("chunk:", k) || (graph == "importGraph" && Names("file:", k))
  }

  predicate TypedGraph(graph: string) { graph in {"callGraph", "usageGraph", "importGraph"} }

  /** The edges the traversal makes. */
  ghost predicate MadeEdge(e: Edge) {
    && SourceKey(e.graph, e.from)
    && if TypedGraph(e.graph) then e.edgeType == TypeIn(e.graph) && Names(TargetKind(e.graph), e.to)
       else e.graph == "symbolEdges" && e.edgeType != "" && SymbolTarget(e.to)
  }

  predicate OccursAt(part: string, s: string, i: nat) {
    i + |part| <= |s| && s[i..i + |part|] == part
  }

  /** What stands between the source of an edge of a typed graph and the name of its target. */
  function Between(graph: string): string {
    "|" + TypeIn(graph) + "|" + TargetKind(graph)
  }

  /** Nothing in the source or the target looks like the middle of an edge of the graph. */
  ghost predicate TypedApart(e: Edge) {
    && (forall i: nat :: OccursAt(Between(e.graph), e.from, i) ==> !SourceKey(e.graph, e.from[..i]))
    && (forall i: nat :: OccursAt(Between(e.graph), e.to, i) ==> i + |Between(e.graph)| == |e.to|)
  }

  /** A '|' stands in the source only first in its name, in the type only last, and in the target before none. */
  ghost predicate SymbolApart(e: Edge) {
    && (forall i :: 0 <= i < |e.from| && e.from[i] == '|' ==> !SourceKey(e.graph, e.from[..i]))
    && (forall i :: 0 <= i < |e.edgeType| && e.edgeType[i] == '|' ==> i + 1 == |e.edgeType|)
    && (forall i :: 0 <= i < |e.to| && e.to[i] == '|' ==> !SymbolTarget(e.to[i + 1..]))
  }

  ghost predicate Unambiguous(e: Edge) { if TypedGraph(e.graph) then TypedApart(e) else SymbolApart(e) }

  // ---- Edges of one type ----

  lemma TypedKey(e: Edge)
    requires MadeEdge(e) && TypedGraph(e.graph)
    ensures var name := e.to[|TargetKind(e.graph)|..];
            && name != "" && e.to == TargetKind(e.graph) + name
            && EdgeKey(e) == e.graph + "|" + (e.from + Between(e.graph) + name)
  {
    var kind := TargetKind(e.graph);
    var name := e.to[|kind|..];
    Associative(e.from, "|" + e.edgeType + "|" + kind, name);
    Associative("|" + e.edgeType + "|", kind, name);
    Associative("|" + e.edgeType, "|", e.to);
    Associative("|", e.edgeType, "|" + e.to);
    Associative(e.from, "|", e.edgeType + ("|" + e.to));
  }

  /** The last character of the mark occurs nowhere else in it. */
  predicate Ends(mark: string) {
    mark != "" && forall i :: 0 <= i < |mark| - 1 ==> mark[i] != mark[|mark| - 1]
  }

  lemma NoOverlap(mark: string, p: string, x: string, q: string, y: string)
    requires Ends(mark) && p + mark + x == q + mark + y && |p| < |q|
    ensures |p| + |mark| <= |q|
  {
    var s, last := p + mark + x, |p| + |mark| - 1;
    assert s[last] == mark[|mark| - 1];
    assert forall i :: |q| <= i < |q| + |mark| ==> s[i] == mark[i - |q|];
  }

  /** So of two splits of one string at the mark, the later has the earlier in its first part. */
  lemma SplitsApart(mark: string, p: string, x: string, q: string, y: string)
    requires Ends(mark) && p + mark + x == q + mark + y && |p| < |q|
    ensures OccursAt(mark, q, |p|) && q[..|p|] == p
    ensures |y| + |mark| <= |x| && OccursAt(mark, x, |x| - |mark| - |y|)
  {
    NoOverlap(mark, p, x, q, y);
    var s, n := p + mark + x, |p| + |mark|;
    assert q == s[..|q|] && s[..|p|] == p && s[|p|..n] == mark && s[n..] == x;
    assert q[|p|..n] == mark && q[..|p|] == p;
    var i := |q| - n;
    assert x[i..i + |mark|] == s[|q|..|q| + |mark|] == mark;
  }

  lemma BetweenMarks(graph: string)
    ensures Ends(Between(graph)) && Between(graph)[0] == '|' && '|' !in TargetKind(graph)
  {
  }

  lemma SameGraph(a: Edge, b: Edge)
    requires MadeEdge(a) && MadeEdge(b) && EdgeKey(a) == EdgeKey(b)
    ensures a.graph == b.graph
    ensures a.from + "|" + (a.edgeType + "|" + a.to) == b.from + "|" + (b.edgeType + "|" + b.to)
  {
    hide SourceKey, SymbolTarget, Names;
    SplitAtBar(a.graph, b.graph, a.from + "|" + (a.edgeType + "|" + a.to), b.from + "|" + (b.edgeType + "|" + b.to));
  }

  lemma SameHead(p: string, x: string, y: string)
    requires p + x == p + y
    ensures x == y
  {
    assert (p + x)[|p|..] == x && (p + y)[|p|..] == y;
  }

  lemma TypedNamesEnds(a: Edge, b: Edge)
    requires MadeEdge(a) && MadeEdge(b) && TypedGraph(a.graph) && TypedApart(a) && EdgeKey(a) == EdgeKey(b)
    ensures SameEnds(a, b)
  {
    hide EdgeKey, Between, TargetKind, OccursAt, Ends;
    SameGraph(a, b);
    TypedKey(a);
    TypedKey(b);
    var mark, kind := Between(a.graph), TargetKind(a.graph);
    var x, y := a.to[|kind|..], b.to[|kind|..];
    SameHead(a.graph + "|", a.from + mark + x, b.from + mark + y);
    BetweenMarks(a.graph);
    if |b.from| < |a.from| {
      SplitsApart(mark, b.from, y, a.from, x);
    } else if |a.from| < |b.from| {
      SplitsApart(mark, a.from, x, b.from, y);
      OccursLater(mark, kind, x, |x| - |mark| - |y|);
    } else {
      assert a.from == (a.from + mark + x)[..|a.from|] == b.from;
      SameHead(a.from + mark, x, y);
    }
  }

  lemma OccursLater(mark: string, kind: string, x: string, i: nat)
    requires OccursAt(mark, x, i)
    ensures OccursAt(mark, kind + x, |kind| + i)
  {
    assert (kind + x)[|kind| + i..|kind| + i + |mark|] == x[i..i + |mark|];
  }

  lemma CutAt(mark: string, s: string, i: nat) returns (x: string, y: string)
    requires OccursAt(mark, s, i)
    ensures s == x + mark + y && x == s[..i] && y == s[i + |mark|..]
  {
    x, y := s[..i], s[i + |mark|..];
  }

  lemma Regroup(mark: string, x: string, y: string, z: string)
    ensures x + mark + (y + mark + z) == (x + mark + y) + mark + z
  {
    Associative(x + mark, y + mark, z);
    Associative(x + mark, y, mark);
  }

  lemma AfterKind(mark: string, kind: string, s: string, i: nat)
    requires OccursAt(mark, s, i) && kind <= s && mark != "" && mark[0] !in kind
    ensures |kind| <= i && OccursAt(mark, s[|kind|..], i - |kind|)
  {
    assert s[i] == s[i..i + |mark|][0] && forall j :: 0 <= j < |kind| ==> kind[j] == s[j];
    assert s[|kind|..][i - |kind|..i - |kind| + |mark|] == s[i..i + |mark|];
  }

  lemma LongerSource(graph: string, k: string, more: string)
    requires SourceKey(graph, k)
    ensures SourceKey(graph, k + more)
  {
  }

  lemma TypedSourceTwin(a: Edge, i: nat) returns (b: Edge)
    requires MadeEdge(a) && TypedGraph(a.graph)
    requires OccursAt(Between(a.graph), a.from, i) && SourceKey(a.graph, a.from[..i])
    ensures MadeEdge(b) && EdgeKey(b) == EdgeKey(a) && !SameEnds(a, b)
  {
    hide EdgeKey, Between, SourceKey, Ends, TargetKind, TypeIn;
    var mark, kind := Between(a.graph), TargetKind(a.graph);
    var name := a.to[|kind|..];
    BetweenMarks(a.graph);
    TypedKey(a);
    var x, y := CutAt(mark, a.from, i);
    b := a.(from := x, to := kind + (y + mark + name));
    assert |b.from| < |a.from|;
    assert b.to[|kind|..] == y + mark + name;
    TypedKey(b);
    Regroup(mark, x, y, name);
  }

  lemma TypedTargetTwin(a: Edge, i: nat) returns (b: Edge)
    requires MadeEdge(a) && TypedGraph(a.graph)
    requires OccursAt(Between(a.graph), a.to, i) && i + |Between(a.graph)| != |a.to|
    ensures MadeEdge(b) && EdgeKey(b) == EdgeKey(a) && !SameEnds(a, b)
  {
    hide EdgeKey, Between, SourceKey, Ends, TargetKind, TypeIn, OccursAt;
    var mark, kind := Between(a.graph), TargetKind(a.graph);
    var name := a.to[|kind|..];
    BetweenMarks(a.graph);
    TypedKey(a);
    AfterKind(mark, kind, a.to, i);
    var x, y := CutAt(mark, name, i - |kind|);
    OccursEnds(mark, a.to, i);
    b := a.(from := a.from + (mark + x), to := kind + y);
    assert |b.from| > |a.from|;
    assert b.to[|kind|..] == y;
    LongerSource(a.graph, a.from, mark + x);
    TypedKey(b);
    Associative(a.from, mark, x);
    Regroup(mark, a.from, x, y);
  }

  lemma TypedTwin(a: Edge) returns (b: Edge)
    requires MadeEdge(a) && TypedGraph(a.graph) && !TypedApart(a)
    ensures MadeEdge(b) && EdgeKey(b) == EdgeKey(a) && !SameEnds(a, b)
  {
    hide EdgeKey, Between, SourceKey, MadeEdge, SameEnds, TypedGraph;
    if i: nat :| OccursAt(Between(a.graph), a.from, i) && SourceKey(a.graph, a.from[..i]) {
      b := TypedSourceTwin(a, i);
    } else {
      var i: nat :| OccursAt(Between(a.graph), a.to, i) && i + |Between(a.graph)| != |a.to|;
      b := TypedTargetTwin(a, i);
    }
  }

  lemma OccursEnds(mark: string, s: string, i: nat)
    requires OccursAt(mark, s, i)
    ensures i + |mark| <= |s|
  {
  }

  // ---- Symbol edges ----

  lemma NoBarFirst(k: string)
    requires SymbolTarget(k)
    ensures k != "" && k[0] != '|'
  {
  }

  /** `s` is the three parts joined. */
  ghost predicate Joins(s: string, x: string, y: string, z: string) {
    var at := |x| + 1 + |y|;
    && |s| == at + 1 + |z| && s[|x|] == '|' && s[at] == '|'
    && s[..|x|] == x && s[|x| + 1..at] == y && s[at + 1..] == z
  }

  lemma JoinsParts(x: string, y: string, z: string)
    ensures Joins(x + "|" + (y + "|" + z), x, y, z)
  {
    var s, tail := x + "|" + (y + "|" + z), y + "|" + z;
    assert s[|x| + 1..] == tail;
    assert tail[..|y|] == y && tail[|y|] == '|' && tail[|y| + 1..] == z;
    assert s[|x| + 1..|x| + 1 + |y|] == tail[..|y|] && s[|x| + 1 + |y|] == tail[|y|];
    assert s[|x| + |y| + 2..] == tail[|y| + 1..];
  }

  /** The one string was joined from other parts: the second parts split it earlier within the first part, later
      within the last, or at a bar inside the middle one. */
  lemma JoinsOtherwise(s: string, x: string, y: string, z: string, x': string, y': string, z': string)
    requires Joins(s, x, y, z) && Joins(s, x', y', z') && y' != "" && z' != "" && z'[0] != '|'
    ensures || (x == x' && y == y' && z == z') || (|x'| < |x| && x[|x'|] == '|' && x[..|x'|] == x')
            || (|z'| < |z| && z[|z| - |z'| - 1] == '|' && z[|z| - |z'|..] == z')
            || exists i :: 0 <= i < |y| - 1 && y[i] == '|'
  {
    var at, at' := |x| + 1 + |y|, |x'| + 1 + |y'|;
    assert z'[0] == s[at' + 1];
    if |x'| < |x| {
      assert x[|x'|] == s[|x'|];
    } else if |z'| < |z| {
      assert z[|z| - |z'| - 1] == s[at'] && z[|z| - |z'|..] == s[at' + 1..];
    } else if |x| < |x'| {
      assert y[|x'| - |x| - 1] == s[|x'|];
    } else if |z| < |z'| {
      assert at' + 1 < at;
      assert y[|y'|] == s[at'];
    }
  }

  lemma SymbolNamesEnds(a: Edge, b: Edge)
    requires MadeEdge(a) && MadeEdge(b) && !TypedGraph(a.graph) && SymbolApart(a) && EdgeKey(a) == EdgeKey(b)
    ensures SameEnds(a, b)
  {
    hide EdgeKey, SymbolTarget, SourceKey, Joins;
    SameGraph(a, b);
    NoBarFirst(b.to);
    JoinsParts(a.from, a.edgeType, a.to);
    JoinsParts(b.from, b.edgeType, b.to);
    JoinsOtherwise(a.from + "|" + (a.edgeType + "|" + a.to), a.from, a.edgeType, a.to, b.from, b.edgeType, b.to);
  }

  lemma CutBar(s: string, i: nat) returns (x: string, y: string)
    requires i < |s| && s[i] == '|'
    ensures s == x + "|" + y && x == s[..i] && y == s[i + 1..] && |x| < |s| && |y| < |s|
  {
    x, y := s[..i], s[i + 1..];
  }

  lemma SymbolTwin(a: Edge) returns (b: Edge)
    requires MadeEdge(a) && !TypedGraph(a.graph) && !SymbolApart(a)
    ensures MadeEdge(b) && EdgeKey(b) == EdgeKey(a) && !SameEnds(a, b)
  {
    hide SymbolTarget, SourceKey, EdgeKey;
    if i :| 0 <= i < |a.from| && a.from[i] == '|' && SourceKey(a.graph, a.from[..i]) {
      var x, y := CutBar(a.from, i);
      b := a.(from := x, edgeType := y + "|" + a.edgeType);
      KeyRegrouped(a, b, x, y);
    } else if i :| 0 <= i < |a.edgeType| && a.edgeType[i] == '|' && i + 1 != |a.edgeType| {
      var x, y := CutBar(a.edgeType, i);
      b := a.(from := a.from + ("|" + x), edgeType := y);
      Associative(a.from, "|", x);
      LongerSource(a.graph, a.from, "|" + x);
      KeyRegrouped(a, b, x, y);
    } else {
      var i :| 0 <= i < |a.to| && a.to[i] == '|' && SymbolTarget(a.to[i + 1..]);
      var x, y := CutBar(a.to, i);
      b := a.(edgeType := a.edgeType + "|" + x, to := y);
      KeyRegrouped(a, b, x, y);
    }
  }

  lemma KeyRegrouped(a: Edge, b: Edge, x: string, y: string)
    requires || (a.from == x + "|" + y && b == a.(from := x, edgeType := y + "|" + a.edgeType))
             || (a.edgeType == x + "|" + y && b == a.(from := a.from + "|" + x, edgeType := y))
             || (a.to == x + "|" + y && b == a.(edgeType := a.edgeType + "|" + x, to := y))
    ensures EdgeKey(b) == EdgeKey(a)
  {
    Rejoin(a.edgeType + "|" + a.to, x, y);
    Associative(y + "|", a.edgeType, "|" + a.to);
    RejoinWithin(a.from, x, y, a.to);
    Rejoin(a.edgeType, x, y);
  }

  // ---- All four graphs ----

  lemma MadeTwin(a: Edge) returns (b: Edge)
    requires MadeEdge(a) && !Unambiguous(a)
    ensures MadeEdge(b) && EdgeKey(b) == EdgeKey(a) && !SameEnds(a, b)
  {
    hide EdgeKey, MadeEdge, TypedApart, SymbolApart;
    if TypedGraph(a.graph) { b := TypedTwin(a); } else { b := SymbolTwin(a); }
  }

  /** Among the edges the traversal makes, an edge's key names its ends alone exactly when it is unambiguous. */
  lemma MadeKeyNamesEndsWhen(a: Edge)
    requires MadeEdge(a)
    ensures (forall b :: MadeEdge(b) && EdgeKey(b) == EdgeKey(a) ==> SameEnds(a, b)) <==> Unambiguous(a)
  {
    hide EdgeKey, MadeEdge, TypedApart, SymbolApart, SameEnds;
    if Unambiguous(a) {
      forall b | MadeEdge(b) && EdgeKey(b) == EdgeKey(a) ensures SameEnds(a, b) {
        if TypedGraph(a.graph) { TypedNamesEnds(a, b); } else { SymbolNamesEnds(a, b); }
      }
    } else {
      var b := MadeTwin(a);
    }
  }

  /** And exactly then it is kept beside each of them that has other ends; otherwise one of two is dropped. */
  lemma MadeBothKeptWhen(a: Edge)
    requires MadeEdge(a)
    ensures (forall b, deduped ::
               MadeEdge(b) && !SameEnds(a, b) && DedupeOf(StableSort(LeqEdges, [a, b]), deduped) ==> |deduped| == 2)
            <==> Unambiguous(a)
  {
    hide EdgeKey, LeqEdges, StableSort, DedupeOf, SameEnds, MadeEdge, Unambiguous;
    MadeKeyNamesEndsWhen(a);
    if Unambiguous(a) {
      forall b, deduped | MadeEdge(b) && !SameEnds(a, b) && DedupeOf(StableSort(LeqEdges, [a, b]), deduped)
        ensures |deduped| == 2
      {
        PairSorted(a, b);
        DedupePair(StableSort(LeqEdges, [a, b]), deduped);
      }
    } else {
      var b :| MadeEdge(b) && EdgeKey(b) == EdgeKey(a) && !SameEnds(a, b);
      PairSorted(a, b);
      var deduped := PairDeduped(StableSort(LeqEdges, [a, b]));
      DedupePair(StableSort(LeqEdges, [a, b]), deduped);
    }
  }
}
