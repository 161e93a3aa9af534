/** The result of the bounded breadth-first traversal of src/graph/neighborhood.js. */
module Neighborhood {
  import opened Wrappers
  import opened Sorting
  import opened Ordering
  import opened EdgePolicy
  import opened Reachability
  import opened SearchInvariants
  import opened SearchOutcome
  import opened WitnessPaths
  import opened GraphTraversal
  import opened QueryTerms
  import opened WorkBudgets

  datatype GraphNeighborhood = GraphNeighborhood(
    nodes: map<Key, nat>, edges: seq<Edge>, paths: seq<WitnessPath>, truncation: set<Cap>, workUnitsUsed: nat)

  // ---- Edges ----

  ghost predicate SeparableEdges(q: Query, nodes: map<Key, nat>) {
    forall e :: OfferedEdge(q, nodes, e) ==> Separable(e)
  }

  /** Equal cap keys only for edges with equal keys, as when no graph index is given. */
  ghost predicate CapKeysFiner(q: Query) {
    forall a, b :: q.capKey(a) == q.capKey(b) ==> EdgeKey(a) == EdgeKey(b)
  }

  lemma SortMembers(emitted: seq<Edge>)
    ensures Sorted(LeqEdges, StableSort(LeqEdges, emitted))
    ensures forall e :: e in StableSort(LeqEdges, emitted) <==> e in emitted
    ensures |StableSort(LeqEdges, emitted)| == |emitted|
  {
    hide LeqEdges, Sorted;
    LeqEdgesTotal();
    StableSortCorrect(LeqEdges, emitted);
    assert |multiset(StableSort(LeqEdges, emitted))| == |multiset(emitted)|;
    forall e ensures e in StableSort(LeqEdges, emitted) <==> e in emitted {
      assert e in multiset(StableSort(LeqEdges, emitted)) <==> e in multiset(emitted);
    }
  }

  /** Whatever the keys: the result is sorted, covers every emitted edge, and holds one edge a key exactly when
      equal keys stand together in the sorted list. */
  lemma DedupedFaithful(emitted: seq<Edge>, edges: seq<Edge>)
    requires DedupeOf(StableSort(LeqEdges, emitted), edges)
    ensures Sorted(LeqEdges, edges) && |edges| <= |emitted| && forall e :: e in edges ==> e in emitted
    ensures forall e :: e in emitted ==> Covers(edges, e)
    ensures OnePerKey(edges) <==> Grouped(Keys(StableSort(LeqEdges, emitted)))
    ensures (forall e :: e in emitted ==> Separable(e)) ==> OnePerKey(edges)
  {
    hide LeqEdges, StableSort, DedupeOf, Covers, OnePerKey, Grouped, Sorted, Separable;
    var s := StableSort(LeqEdges, emitted);
    SortMembers(emitted);
    DedupeMembers(s, edges);
    DedupeSorted(s, edges);
    OnePerKeyWhen(s, edges);
    forall e | e in emitted ensures Covers(edges, e) { DedupeCovers(s, edges, e); }
    if forall e :: e in emitted ==> Separable(e) { SortedIsGrouped(s); }
  }

  lemma {:induction false} DistinctCapKeys(q: Query, edges: seq<Edge>, caps: set<string>)
    requires CapKeysFiner(q) && OnePerKey(edges) && forall e :: e in edges ==> q.capKey(e) in caps
    ensures |edges| <= |caps|
  {
    if edges != [] {
      var k := q.capKey(edges[0]);
      assert edges[0] in edges;
      forall e | e in edges[1..] ensures q.capKey(e) in caps - {k} {
        var i :| 0 <= i < |edges[1..]| && edges[1..][i] == e;
        assert EdgeKey(edges[0]) != EdgeKey(edges[i + 1]);
      }
      DistinctCapKeys(q, edges[1..], caps - {k});
    }
  }

  /** What the caller is promised about the edges: they are sorted, offered by expanded nodes, and have no more
      distinct cap keys than the edge cap; unless the run was stopped they cover every confident edge offered by a
      found node nearer than the depth, of the whole lists when no cut is recorded; with separable keys there is
      one a key. */
  ghost predicate EdgesPromised(q: Query, nodes: map<Key, nat>, edges: seq<Edge>, truncation: set<Cap>) {
    && (forall e :: e in edges ==> OfferedEdge(q, nodes, e)) && Sorted(LeqEdges, edges)
    && (q.maxEdges.Some? ==> |CapKeys(q, edges)| <= q.maxEdges.value)
    && (truncation * STOP_CAPS == {} ==> forall e :: OfferedEdge(q, nodes, e) ==> Covers(edges, e))
    && (truncation * STOP_CAPS == {} && FanoutCap !in truncation ==>
          forall k :: k in nodes && nodes[k] < q.Depth() ==> q.Offered(k) == q.candidates(k))
    && (SeparableEdges(q, nodes) ==> OnePerKey(edges))
    && (q.maxEdges.Some? && CapKeysFiner(q) && OnePerKey(edges) ==> |edges| <= q.maxEdges.value)
  }

  lemma PromisedInTerms(
      q: Query, nodes: map<Key, nat>, order: seq<QueueEntry>, visited: seq<Candidate>, edges: seq<Edge>,
      truncation: set<Cap>, reason: StopReason)
    requires NodesPromised(q, nodes, truncation) && EdgesPromised(q, nodes, edges, truncation)
    requires Explored(q, nodes, order, visited, truncation, reason)
    ensures InTerms(q, nodes, order, visited, edges, truncation)
  {
    hide NodesPromised, Explored, FoundInTerms, VisitedInTerms, RecordsInTerms, EdgeInTerms, OfferedEdge, Covers;
    hide Sorted, SeparableEdges, OnePerKey, CapKeysFiner, CapKeys, Query.Depth, Query.Offered;
    NodesInTerms(q, nodes, truncation);
    CandidatesInTerms(q, nodes, order, visited, truncation, reason);
    CapsInTerms(q, nodes, order, visited, truncation, reason);
    forall e ensures OfferedEdge(q, nodes, e) <==> EdgeInTerms(q, nodes, e) { EdgeTerms(q, nodes, e); }
  }

  lemma FewerCapKeys(q: Query, some: seq<Edge>, all: seq<Edge>)
    requires forall e :: e in some ==> e in all
    ensures |CapKeys(q, some)| <= |CapKeys(q, all)|
  {
    SubsetSize(CapKeys(q, some), CapKeys(q, all));
  }

  lemma SubsetSize(a: set<string>, b: set<string>)
    requires a <= b
    ensures |a| <= |b|
  {
    assert b == a + (b - a);
  }

  lemma EdgesOfEmitted(q: Query, nodes: map<Key, nat>, emitted: seq<Edge>, truncation: set<Cap>, edges: seq<Edge>)
    requires EmittedPromised(q, nodes, emitted, truncation) && DedupeOf(StableSort(LeqEdges, emitted), edges)
    requires q.maxEdges.Some? ==> |CapKeys(q, emitted)| <= q.maxEdges.value
    ensures EdgesPromised(q, nodes, edges, truncation)
  {
    hide StableSort, LeqEdges, Sorted, DedupeOf, Grouped, Separable, OnePerKey, Covers, OfferedEdge, CapKeysFiner;
    DedupedFaithful(emitted, edges);
    if q.maxEdges.Some? {
      FewerCapKeys(q, edges, emitted);
      if CapKeysFiner(q) && OnePerKey(edges) { DistinctCapKeys(q, edges, CapKeys(q, edges)); }
    }
  }

  // ---- Paths ----

  /** The paths were built for the parent links and targets of a run. */
  ghost predicate PathsPromised(q: Query, nodes: map<Key, nat>, paths: seq<WitnessPath>, truncation: set<Cap>) {
    && (exists parents, targets :: PathsFrom(q, nodes, parents, targets, paths))
    && (PathsCap in truncation <==> PathsCut(q, nodes))
  }

  lemma NormalizedPaths(q: Query, nodes: map<Key, nat>, paths: seq<WitnessPath>, truncation: set<Cap>)
    requires PathsPromised(q, nodes, paths, truncation)
    ensures q.includePaths && q.Normalized() ==> PathsOk(q, nodes, paths)
  {
    hide PathsFrom, PathsOk, Query.Normalized;
    var parents, targets :| PathsFrom(q, nodes, parents, targets, paths);
    if q.includePaths && q.Normalized() { PathsOfTargets(q, nodes, parents, targets, paths); }
  }

  // ---- The run ----

  /** A traversal with its seeds in the queue. */
  method Seeded(q: Query, windowSize: nat) returns (t: Traversal)
    ensures fresh(t) && t.q == q && AtHead(q, t.State(), 0, |t.queue|, 0)
    ensures t.EdgesOk() && t.Emits() && t.visited == []
  {
    hide AtHead, Traversal.EdgesOk, Traversal.Emits;
    t := new Traversal(q, windowSize);
    if q.maxDepth.Some? && q.requestedDepth > q.maxDepth.value {
      t.truncation := {DepthCap};
    }
    t.AddSeeds();
  }

  /** The search: seeds, then the queue. */
  method Search(q: Query, windowSize: nat, budget: WorkBudget, clock: nat -> int) returns (t: Traversal)
    requires budget.Valid()
    modifies budget
    ensures fresh(t) && t.q == q && t.Over(old(budget.Reading(clock)), budget, clock)
  {
    hide AtHead, Traversal.EdgesOk, Traversal.Emits, Traversal.Over, WorkBudget.Valid, WorkBudget.Reading;
    t := Seeded(q, windowSize);
    t.Run(budget, clock);
  }

  /** The record of the cap on paths changes nothing else. */
  lemma PathsCapAside(
      q: Query, nodes: map<Key, nat>, order: seq<QueueEntry>, visited: seq<Candidate>, edges: seq<Edge>,
      reason: StopReason, a: set<Cap>, b: set<Cap>)
    requires b in {a, a + {PathsCap}}
    requires NodesPromised(q, nodes, a) && EdgesPromised(q, nodes, edges, a)
    requires Explored(q, nodes, order, visited, a, reason)
    ensures NodesPromised(q, nodes, b) && EdgesPromised(q, nodes, edges, b)
    ensures Explored(q, nodes, order, visited, b, reason)
    ensures Passed(visited, b) == Passed(visited, a) && b * STOP_CAPS == a * STOP_CAPS
  {
    hide OfferedEdge, SeparableEdges, Covers, CapKeysFiner, OnePerKey, Sorted, Stream, Entered, CutAmong, DepthCut;
    hide RefusalsRecorded, OrderOk, Queued, NearestTaken, EdgeRefused, SeedsIn, CapKeys;
    hide Query.KeysApart, Query.WithinSteps, Query.InSteps, Query.Shortest, Query.Offered;
    assert b * STOP_CAPS == a * STOP_CAPS;
    if a * STOP_CAPS != {} {
      var j :| StoppedAt(q, order, visited, a, reason, j);
      assert StoppedAt(q, order, visited, b, reason, j);
    }
  }

  /** What the run's end means for the caller. */
  lemma OverMeans(t: Traversal, meter: Meter, budget: WorkBudget, clock: nat -> int)
    requires t.Over(meter, budget, clock)
    ensures budget.Valid() && t.EdgesOk() && PathsCap !in t.truncation
    ensures Traced(t.q, t.nodeMap, t.parentMap, t.pathTargets) && t.Emitted() == EdgesOf(t.q, t.visited)
    ensures NodesPromised(t.q, t.nodeMap, t.truncation)
    ensures Explored(t.q, t.nodeMap, t.queue, t.visited, t.truncation, budget.reason)
    ensures EmittedPromised(t.q, t.nodeMap, t.Emitted(), t.truncation)
    ensures t.q.maxEdges.Some? ==> |CapKeys(t.q, t.Emitted())| <= t.q.maxEdges.value
    ensures Charged(meter, budget.Reading(clock), Passed(t.visited, t.truncation))
    ensures t.truncation * STOP_CAPS == {} ==> Continues(meter, budget.Reading(clock), |t.visited|)
  {
    hide Traced, NodesPromised, Explored, EmittedPromised, CapKeys, EdgesOf, Traversal.Emitted;
    hide Charged, Continues, WorkBudget.Valid, WorkBudget.Reading;
    ExploredEmits(t.q, t.nodeMap, t.queue, t.visited, t.truncation, budget.reason);
    assert |t.edgeByKey.Keys| == |t.edgeByKey|;
  }

  lemma RunningStays(q: Query, nodes: map<Key, nat>, order: seq<QueueEntry>, visited: seq<Candidate>,
                     truncation: set<Cap>, budget: WorkBudget)
    requires Explored(q, nodes, order, visited, truncation, budget.reason) && PathsCap !in truncation
    requires budget.Valid() && budget.Unlimited() && q.Uncapped()
    ensures truncation == {}
  {
    hide Explored;
    UncappedRecordsNothing(q, nodes, order, visited, truncation);
  }

  /** The whole traversal, for any window size (the source's is 20000).  `order` are the nodes expanded and `visited`
      the candidates dealt with, each for one unit of the budget; the edges are the deduplicated sort of theirs. */
  method BuildGraphNeighborhood(q: Query, windowSize: nat, budget: WorkBudget, clock: nat -> int)
    returns (r: GraphNeighborhood, ghost order: seq<QueueEntry>, ghost visited: seq<Candidate>)
    requires budget.Valid()
    modifies budget
    ensures budget.Valid() && r.workUnitsUsed == budget.used
    ensures NodesPromised(q, r.nodes, r.truncation)
    ensures Explored(q, r.nodes, order, visited, r.truncation, budget.reason)
    ensures DedupeOf(StableSort(LeqEdges, EdgesOf(q, visited)), r.edges)
    ensures EdgesPromised(q, r.nodes, r.edges, r.truncation)
    ensures InTerms(q, r.nodes, order, visited, r.edges, r.truncation)
    ensures PathsPromised(q, r.nodes, r.paths, r.truncation)
    ensures q.includePaths && q.Normalized() ==> PathsOk(q, r.nodes, r.paths)
    ensures Charged(old(budget.Reading(clock)), budget.Reading(clock), Passed(visited, r.truncation))
    ensures r.truncation * STOP_CAPS == {} ==>
              Continues(old(budget.Reading(clock)), budget.Reading(clock), |visited|)
    ensures old(budget.used == 0 && budget.Fresh(clock)) ==> budget.LetThrough(clock, Passed(visited, r.truncation))
    ensures old(budget.reason) == Running ==>
              && (WorkCap in r.truncation <==> budget.reason == MaxWorkUnits)
              && (ClockCap in r.truncation <==> budget.reason == MaxWallClockMs)
    // Without caps and limits nothing is recorded, so the result is complete.
    ensures NoCaps(q) && budget.maxUnits.None? && budget.maxMs.None? ==> r.truncation == {}
    ensures NoCaps(q) && budget.maxUnits.None? && budget.maxMs.None? && q.KeysApart() ==>
              forall k :: k in r.nodes <==> q.WithinSteps(k, q.Depth())
  {
    hide InTerms, Charged, Continues, EdgesPromised, NodesPromised, Explored, EmittedPromised, PathsOk, Traced, Passed;
    hide DedupeOf, StableSort, PathsTo, CapKeys, EdgesOf, WorkBudget.Valid, WorkBudget.Reading, WorkBudget.Fresh;
    hide WorkBudget.LetThrough, Traversal.Over, Traversal.EdgesOk, Traversal.Emitted;
    hide Query.Uncapped, NoCaps, Query.Normalized, Query.KeysApart, Query.WithinSteps, NonSeeds, WorkBudget.Passes;
    ghost var meter := budget.Reading(clock);
    budget.ReadingFresh(clock);
    var t := Search(q, windowSize, budget, clock);
    OverMeans(t, meter, budget, clock);
    order, visited := t.queue, t.visited;
    if meter.used == 0 && meter.onlySingles {
      budget.FreshLetsThrough(clock, meter, Passed(visited, t.truncation));
    }
    UncappedMeans(q);
    assert budget.Unlimited() <==> budget.maxUnits.None? && budget.maxMs.None?;
    if q.Uncapped() && budget.Unlimited() {
      RunningStays(q, t.nodeMap, order, visited, t.truncation, budget);
      NoPathsCap(q);
    }
    ghost var emitted, recorded := t.Emitted(), t.truncation;
    var merged := t.MergeEdges();
    var edges := DedupeSortedEdges(merged);
    EdgesOfEmitted(q, t.nodeMap, emitted, recorded, edges);
    var paths := [];
    if q.includePaths { paths := t.BuildPaths(); }
    TargetCount(q, t.nodeMap, t.parentMap, t.pathTargets);
    assert PathsFrom(q, t.nodeMap, t.parentMap, t.pathTargets, paths);
    NormalizedPaths(q, t.nodeMap, paths, t.truncation);
    if meter.running {
      StopsRecorded(q, t.nodeMap, order, visited, recorded, meter, budget, clock);
    }
    PathsCapAside(q, t.nodeMap, order, visited, edges, budget.reason, recorded, t.truncation);
    PromisedInTerms(q, t.nodeMap, order, visited, edges, t.truncation, budget.reason);
    UnrecordedComplete(q, t.nodeMap, t.truncation);
    r := GraphNeighborhood(t.nodeMap, edges, paths, t.truncation, budget.used);
  }

  /** Unless it had stopped before, a budget that has stopped is recorded. */
  lemma StopsRecorded(
      q: Query, nodes: map<Key, nat>, order: seq<QueueEntry>, visited: seq<Candidate>, truncation: set<Cap>,
      meter: Meter, budget: WorkBudget, clock: nat -> int)
    requires Explored(q, nodes, order, visited, truncation, budget.reason) && meter.running
    requires truncation * STOP_CAPS == {} ==> Continues(meter, budget.Reading(clock), |visited|)
    ensures WorkCap in truncation <==> budget.reason == MaxWorkUnits
    ensures ClockCap in truncation <==> budget.reason == MaxWallClockMs
  {
    hide OrderOk, Queued, NearestTaken, RefusalsRecorded, CutAmong, DepthCut, EdgeRefused, EdgesOf, Stream;
    hide WorkBudget.Reading;
    budget.ReadingFresh(clock);
    assert WorkCap in truncation <==> WorkCap in truncation * STOP_CAPS;
    assert ClockCap in truncation <==> ClockCap in truncation * STOP_CAPS;
    if truncation * STOP_CAPS != {} {
      var j :| StoppedAt(q, order, visited, truncation, budget.reason, j);
    }
  }

  lemma UnrecordedComplete(q: Query, nodes: map<Key, nat>, truncation: set<Cap>)
    requires NodesPromised(q, nodes, truncation)
    ensures truncation == {} && q.KeysApart() ==> forall k :: k in nodes <==> q.WithinSteps(k, q.Depth())
  {
    hide Query.KeysApart, Query.WithinSteps, Query.InSteps, Query.Shortest, Entered, SeedsIn;
  }

  lemma NoPathsCap(q: Query)
    requires q.Uncapped()
    ensures q.maxPaths.None?
  {
  }

  lemma TargetCount(q: Query, nodes: map<Key, nat>, parents: map<Key, Parent>, targets: seq<Key>)
    requires Traced(q, nodes, parents, targets)
    ensures q.includePaths ==> |targets| == |NonSeeds(nodes)|
  {
    hide NodesOk, ParentsOk;
  }
}
