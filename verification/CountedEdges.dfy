/** The edge cap counts cap keys, not edges: src/graph/neighborhood.js:316-337, with the keys of
    src/graph/neighborhood/edge-policy.js:37-67. */
module CountedEdges {
  import opened Wrappers
  import opened Sorting
  import opened Ordering
  import opened EdgePolicy
  import opened Reachability
  import opened SearchInvariants
  import opened SearchOutcome
  import opened WorkBudgets
  import opened Neighborhood
  import opened Refs
  import opened StoredKeys

  lemma CapKeysOf(q: Query, emitted: seq<Edge>, edges: seq<Edge>)
    requires DedupeOf(StableSort(LeqEdges, emitted), edges) && CapKeysFiner(q) && OnePerKey(edges)
    ensures |edges| <= |CapKeys(q, emitted)|
  {
    hide StableSort, LeqEdges, Sorted, DedupeOf, Grouped, Separable, OnePerKey, Covers, CapKeysFiner;
    DedupedFaithful(emitted, edges);
    DistinctCapKeys(q, edges, CapKeys(q, emitted));
  }

  lemma PairCounted(q: Query, a: Edge, b: Edge)
    requires q.capKey(a) == q.capKey(b) && EdgeKey(a) != EdgeKey(b)
    ensures |CapKeys(q, [a, b])| == 1
    ensures var s := StableSort(LeqEdges, [a, b]); |s| == 2 && DedupeOf(s, s) && OnePerKey(s)
  {
    hide EdgeKey, LeqEdges, DedupeOf, OnePerKey, StableSort;
    PairSorted(a, b);
    PairKept(StableSort(LeqEdges, [a, b]));
    assert [a, b][0] == a && [a, b][1] == b;
    assert CapKeys(q, [a, b]) == {q.capKey(a)};
  }

  /** As many cap keys as edges, for every list of emitted edges that comes out with one edge a key, exactly when
      equal cap keys are only those of equal keys. */
  lemma EdgeCountWhen(q: Query)
    ensures CapKeysFiner(q) <==>
              forall emitted, edges ::
                DedupeOf(StableSort(LeqEdges, emitted), edges) && OnePerKey(edges) ==> |edges| <= |CapKeys(q, emitted)|
  {
    hide EdgeKey, LeqEdges, DedupeOf, OnePerKey, StableSort, CapKeys;
    if CapKeysFiner(q) {
      forall emitted, edges | DedupeOf(StableSort(LeqEdges, emitted), edges) && OnePerKey(edges)
        ensures |edges| <= |CapKeys(q, emitted)|
      {
        CapKeysOf(q, emitted, edges);
      }
    } else {
      var a, b :| q.capKey(a) == q.capKey(b) && EdgeKey(a) != EdgeKey(b);
      PairCounted(q, a, b);
    }
  }

  // ---- Two names of one file ----

  /** With a graph index an import edge between files it numbers has their numbers in its cap key. */
  function ImportCapKey(root: Root, ids: map<Key, string>, e: Edge): string {
    var from, to := NormalizeKey(root, e.from), NormalizeKey(root, e.to);
    if e.graph == "importGraph" && from in ids && to in ids
    then e.graph + "|" + (ids[from] + "|" + (e.edgeType + "|" + ids[to])) else EdgeKey(e)
  }

  /** Different files have different numbers, and numbers hold no bar. */
  ghost predicate Numbers(ids: map<Key, string>) {
    && (forall k :: k in ids ==> '|' !in ids[k])
    && forall a, b :: a in ids && b in ids && ids[a] == ids[b] ==> a == b
  }

  ghost predicate Numbered(root: Root, ids: map<Key, string>, e: Edge) {
    && e.graph == "importGraph" && e.edgeType == "import"
    && NormalizeKey(root, e.from) in ids && NormalizeKey(root, e.to) in ids
  }

  /** Import edges between numbered files share a cap key exactly when they connect the same files. */
  lemma ImportCapKeyMeans(root: Root, ids: map<Key, string>, a: Edge, b: Edge)
    requires Numbers(ids) && Numbered(root, ids, a) && Numbered(root, ids, b)
    ensures ImportCapKey(root, ids, a) == ImportCapKey(root, ids, b) <==>
              && NormalizeKey(root, a.from) == NormalizeKey(root, b.from)
              && NormalizeKey(root, a.to) == NormalizeKey(root, b.to)
  {
    hide NormalizeKey;
    if ImportCapKey(root, ids, a) == ImportCapKey(root, ids, b) {
      var f, g := ids[NormalizeKey(root, a.from)], ids[NormalizeKey(root, b.from)];
      var t, u := ids[NormalizeKey(root, a.to)], ids[NormalizeKey(root, b.to)];
      SplitAtBar("importGraph", "importGraph", f + "|" + ("import" + "|" + t), g + "|" + ("import" + "|" + u));
      SplitAtBar(f, g, "import" + "|" + t, "import" + "|" + u);
      SplitAtBar("import", "import", t, u);
    }
  }

  /** The file `from` imports one file under its normal path and under `x`, normalised once. */
  function TwoNamesImports(root: Root, from: Key, x: Key): Imports {
    var s := NormalizeKey(root, x);
    k => if k == from then Ascending(s, NormalizeKey(root, s)) else []
  }

  /** One edge is allowed. */
  function TwoNames(root: Root, ids: map<Key, string>, from: Key, x: Key): Query {
    Importing(root, from, TwoNamesImports(root, from, x), 1).(
      maxEdges := Some(1), capKey := e => ImportCapKey(root, ids, e))
  }

  /** The key `x` is not normal after normalising it once, but after twice, and the index numbers both files. */
  ghost predicate Named(root: Root, ids: map<Key, string>, from: Key, x: Key) {
    var t := NormalizeKey(root, NormalizeKey(root, x));
    && Again(root, x) && NormalizeKey(root, t) == t && t in ids
    && NormalizeKey(root, from) == from && SourceId(root, from) != "" && from in ids
  }

  lemma TwoNamesLists(root: Root, from: Key, x: Key)
    requires Again(root, x)
    ensures ImportLists(root, TwoNamesImports(root, from, x))
  {
    hide NormalizeKey, NormalizedOnce, SourceId, Ascending, CompareStrings;
    var s := NormalizeKey(root, x);
    var imports := TwoNamesImports(root, from, x);
    AgainFiles(root, x);
    AscendingOrder(s, NormalizeKey(root, s));
    forall k, i, j | 0 <= i < j < |imports(k)| ensures CompareStrings(imports(k)[i], imports(k)[j]) < 0 {
      assert k == from && i == 0 && j == 1;
    }
  }

  lemma TwoNamesIs(root: Root, ids: map<Key, string>, from: Key, x: Key)
    requires Again(root, x)
    ensures var q := TwoNames(root, ids, from, x);
            && q.Depth() == 1 && q.maxEdges == Some(1) && q.minConfidence.None? && q.maxNodes.None?
            && q.seeds == [from] && q.normalize == Normalizer(root) && Receivable(root, q)
            && (forall e :: q.capKey(e) == ImportCapKey(root, ids, e))
            && (forall k :: q.Offered(k) == ImportCandidates(root, TwoNamesImports(root, from, x), k))
  {
    hide ImportCandidates, ImportLists, NormalizeKey, TwoNamesImports, ImportCapKey;
    TwoNamesLists(root, from, x);
  }

  lemma TargetInKey(from: Key, s: Key, t: Key)
    requires s != t
    ensures EdgeKey(To(from, s).edge) != EdgeKey(To(from, t).edge)
  {
    var before := "importGraph|" + from + "|import|";
    assert EdgeKey(To(from, s).edge) == before + s && EdgeKey(To(from, t).edge) == before + t;
    assert (before + s)[|before|..] == s && (before + t)[|before|..] == t;
  }

  lemma TwoNamesOffers(root: Root, ids: map<Key, string>, from: Key, x: Key)
    requires Named(root, ids, from, x)
    ensures var q, s := TwoNames(root, ids, from, x), NormalizeKey(root, x);
            var a, b := To(from, s), To(from, NormalizeKey(root, s));
            && q.IsSeed(from) && a in q.Offered(from) && b in q.Offered(from) && EdgeKey(a.edge) != EdgeKey(b.edge)
            && (forall u, c :: c in q.Offered(u) ==> q.capKey(c.edge) == q.capKey(a.edge))
  {
    hide NormalizeKey, TwoNames, ImportCandidates, ImportLists, Query.Offered, Receivable, Ascending, EdgeKey;
    var q, s := TwoNames(root, ids, from, x), NormalizeKey(root, x);
    var t := NormalizeKey(root, s);
    AgainFiles(root, x);
    AscendingOrder(s, t);
    TwoNamesIs(root, ids, from, x);
    TargetInKey(from, s, t);
    assert from in q.seeds;
    forall u, c | c in q.Offered(u) ensures c in {To(from, s), To(from, t)} {
      assert c.next in TwoNamesImports(root, from, x)(NormalizeKey(root, u));
    }
  }

  lemma OneCapKeyAdmits(q: Query, emitted: seq<Edge>, e: Edge)
    requires q.maxEdges.Some? && q.maxEdges.value > 0 && forall d :: d in emitted ==> q.capKey(d) == q.capKey(e)
    ensures !EdgeRefused(q, emitted, e)
  {
    assert emitted != [] ==> emitted[0] in emitted && q.capKey(emitted[0]) in CapKeys(q, emitted);
    assert emitted == [] ==> CapKeys(q, emitted) == {};
  }

  /** With one cap key among all edges a run is not stopped by the edge cap. */
  lemma OneCapKeyRuns(
      q: Query, nodes: map<Key, nat>, order: seq<QueueEntry>, visited: seq<Candidate>, truncation: set<Cap>, k: string)
    requires Explored(q, nodes, order, visited, truncation, Running)
    requires q.maxEdges.Some? && q.maxEdges.value > 0
    requires forall u, c :: c in q.Offered(u) ==> q.capKey(c.edge) == k
    ensures truncation * STOP_CAPS == {}
  {
    hide OrderOk, Queued, NearestTaken, RefusalsRecorded, DepthCut, CutAmong, Query.Offered, EdgesOf, CapKeys;
    hide EdgeRefused, Stream;
    forall j: nat ensures !StoppedAt(q, order, visited, truncation, Running, j) {
      if j < |Last(q, order)| && visited == Stream(q, order[..|order| - 1]) + Last(q, order)[..j] {
        VisitedKeys(q, order, visited, j, k);
        OneCapKeyAdmits(q, EdgesOf(q, visited), Last(q, order)[j].edge);
      }
    }
  }

  ghost function Last(q: Query, order: seq<QueueEntry>): seq<Candidate> {
    if order == [] then [] else q.Offered(order[|order| - 1].key)
  }

  lemma VisitedKeys(q: Query, order: seq<QueueEntry>, visited: seq<Candidate>, j: nat, k: string)
    requires j < |Last(q, order)| && forall u, c :: c in q.Offered(u) ==> q.capKey(c.edge) == k
    requires visited == Stream(q, order[..|order| - 1]) + Last(q, order)[..j]
    ensures q.capKey(Last(q, order)[j].edge) == k && forall e :: e in EdgesOf(q, visited) ==> q.capKey(e) == k
  {
    hide Query.Offered, EdgesOf, Stream;
    var before := order[..|order| - 1];
    assert Last(q, order)[j] in Last(q, order);
    forall e | e in EdgesOf(q, visited) ensures q.capKey(e) == k {
      EdgesOfMembers(q, visited, e);
      var c :| c in visited && c.edge == e;
      if c in Stream(q, before) { StreamMembers(q, before, c); }
    }
  }

  /** The run itself: one edge is allowed, the cap is not recorded, and two come back. */
  method RunTwoNames(root: Root, ids: map<Key, string>, from: Key, x: Key) returns (r: GraphNeighborhood)
    requires Named(root, ids, from, x)
    ensures var q := TwoNames(root, ids, from, x);
            Receivable(root, q) && q.maxEdges == Some(1) && EdgesCap !in r.truncation && |r.edges| >= 2
  {
    hide NodesPromised, Explored, PathsPromised, NormalizeKey, TwoNames, Receivable, EdgeKey, Query.Offered, OnePerKey;
    hide CapKeysFiner, CapKeys, SeparableEdges, ImportCapKey, Covers;
    var budget := new WorkBudget(None, None, 256);
    ghost var order, visited;
    ghost var q, s := TwoNames(root, ids, from, x), NormalizeKey(root, x);
    ghost var a, b := To(from, s), To(from, NormalizeKey(root, s));
    TwoNamesIs(root, ids, from, x);
    TwoNamesOffers(root, ids, from, x);
    r, order, visited := BuildGraphNeighborhood(TwoNames(root, ids, from, x), 20000, budget, n => 0);
    OneCapKeyRuns(q, r.nodes, order, visited, r.truncation, q.capKey(a.edge));
    SeedFound(q, r.nodes, r.truncation, from);
    assert OfferedEdge(q, r.nodes, a.edge) && OfferedEdge(q, r.nodes, b.edge);
    TwoCovered(r.edges, a.edge, b.edge);
    assert EdgesCap in r.truncation ==> EdgesCap in r.truncation * STOP_CAPS;
  }

  lemma SeedFound(q: Query, nodes: map<Key, nat>, truncation: set<Cap>, k: Key)
    requires NodesPromised(q, nodes, truncation) && q.maxNodes.None? && q.IsSeed(k)
    ensures k in nodes && nodes[k] == 0
  {
    hide Query.KeysApart, Query.Shortest, Query.WithinSteps, Query.InSteps, Entered;
  }

  lemma TwoCovered(edges: seq<Edge>, a: Edge, b: Edge)
    requires Covers(edges, a) && Covers(edges, b) && EdgeKey(a) != EdgeKey(b)
    ensures |edges| >= 2
  {
    hide EdgeKey, IsEdgeBetter;
    var d :| d in edges && EdgeKey(d) == EdgeKey(a);
    var e :| e in edges && EdgeKey(e) == EdgeKey(b);
    assert d != e;
  }
}
