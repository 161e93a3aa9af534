/** The state of the traversal and its loops: src/graph/neighborhood.js:285-364, 399-602 and 604-655. */
module GraphTraversal {
  import opened Wrappers
  import opened Sorting
  import opened Ordering
  import opened EdgePolicy
  import opened EdgeMerge
  import opened Reachability
  import opened SearchInvariants
  import opened SearchOutcome
  import opened WitnessPaths
  import opened WorkBudgets

  class Traversal {
    const q: Query
    const windowSize: nat
    var nodeMap: map<Key, nat>
    var parentMap: map<Key, Parent>
    var queue: seq<QueueEntry>
    var pathTargets: seq<Key>
    var edges: seq<Edge>
    var edgeWindows: seq<seq<Edge>>
    var edgeByKey: map<string, Edge>
    var truncation: set<Cap>
    ghost var chunks: seq<seq<Edge>>  // the spilled windows, before each was sorted
    ghost var visited: seq<Candidate>  // the candidates dealt with

    constructor (q: Query, windowSize: nat)
      ensures this.q == q && this.windowSize == windowSize
      ensures State() == Search(map[], map[], [], [], [], {})
      ensures EdgesOk() && Emits()
    {
      this.q, this.windowSize := q, windowSize;
      nodeMap, parentMap, queue, pathTargets, visited := map[], map[], [], [], [];
      edges, edgeWindows, edgeByKey, truncation, chunks := [], [], map[], {}, [];
    }

    /** The variables of the search. */
    ghost function State(): Search
      reads this`nodeMap, this`parentMap, this`pathTargets, this`queue, this`visited, this`truncation
    {
      Search(nodeMap, parentMap, pathTargets, queue, visited, truncation)
    }

    // ---- Edges ----

    /** Every edge added so far, in the order added. */
    ghost function Emitted(): seq<Edge>
      reads this`chunks, this`edges
    {
      Flatten(chunks) + edges
    }

    /** The map holds the distinct cap keys of the edges, never more than the edge cap. */
    ghost predicate EdgesOk()
      reads this`chunks, this`edges, this`edgeWindows, this`edgeByKey
    {
      && edgeWindows == SortEach(LeqEdges, chunks)
      && (q.maxEdges.Some? ==> chunks == [] && |edgeByKey| <= q.maxEdges.value && |edgeByKey| <= |edges|)
      && edgeByKey.Keys == CapKeys(q, Emitted())
    }

    /** The edges added are those of the visited candidates that the confidence filter keeps. */
    ghost predicate Emits()
      reads this`chunks, this`edges, this`visited
    {
      Emitted() == EdgesOf(q, visited)
    }

    method AddEdge(edge: Edge) returns (added: bool)
      requires EdgesOk() && q.Confident(edge)
      modifies this`edges, this`edgeWindows, this`edgeByKey, this`truncation, this`chunks
      ensures EdgesOk()
      ensures added <==> q.capKey(edge) in old(edgeByKey)
                         || !(q.maxEdges.Some? && |old(edgeByKey)| >= q.maxEdges.value)
      ensures Emitted() == old(Emitted()) + if added then [edge] else []
      ensures truncation == if added then old(truncation) else old(truncation) + {EdgesCap}
      // A refusal by the edge cap always satisfies the test that ends the run.
      ensures !added ==> EdgeRefused(q, Emitted(), edge) && |edges| >= q.maxEdges.value
    {
      hide SortEach, Flatten, Emitted, CapKeys;
      var key := q.capKey(edge);
      if key !in edgeByKey && q.maxEdges.Some? && |edgeByKey| >= q.maxEdges.value {
        assert |edgeByKey.Keys| == |edgeByKey|;
        truncation := truncation + {EdgesCap};
        return false;
      }
      Keep(edge, key);
      if q.maxEdges.None? && |edges| >= windowSize {
        Spill();
      }
      return true;
    }

    /** The edge is appended, and the better one of those with its cap key is remembered. */
    method Keep(edge: Edge, key: string)
      requires EdgesOk() && key == q.capKey(edge)
      requires key in edgeByKey || !(q.maxEdges.Some? && |edgeByKey| >= q.maxEdges.value)
      modifies this`edges, this`edgeByKey
      ensures EdgesOk() && Emitted() == old(Emitted()) + [edge]
      ensures key in edgeByKey && edgeByKey == old(edgeByKey)[key := edgeByKey[key]]
      ensures edgeByKey[key] == if key !in old(edgeByKey) || IsEdgeBetter(edge, old(edgeByKey)[key]) then edge
                                else old(edgeByKey)[key]
    {
      hide SortEach, Flatten, IsEdgeBetter, CapKeys;
      ghost var keys, before := edgeByKey.Keys, Emitted();
      if key !in edgeByKey || IsEdgeBetter(edge, edgeByKey[key]) {
        edgeByKey := edgeByKey[key := edge];
      }
      assert edgeByKey.Keys == keys + {key};
      edges := edges + [edge];
      assert Emitted() == before + [edge];
      CapKeysAppend(q, before, edge);
    }

    method Spill()
      requires q.maxEdges.None? && EdgesOk()
      modifies this`edges, this`edgeWindows, this`chunks
      ensures EdgesOk() && Emitted() == old(Emitted())
      ensures edges == [] && chunks == old(chunks) + [old(edges)]
    {
      hide CapKeys;
      FlattenAppend(chunks, edges);
      ghost var sorted := SortEach(LeqEdges, chunks + [edges]);
      assert sorted == edgeWindows + [StableSort(LeqEdges, edges)];
      chunks := chunks + [edges];
      edges := StableSort(LeqEdges, edges);
      edgeWindows := edgeWindows + [edges];
      edges := [];
      assert Flatten(chunks) + [] == Flatten(chunks);
    }

    // ---- Nodes ----

    method AddNode(raw: Key, distance: nat) returns (added: bool)
      modifies this`nodeMap, this`queue, this`truncation
      ensures added <==> SeedUnmet(q, old(nodeMap), raw) && !Full(q, old(nodeMap))
      ensures added ==> nodeMap == old(nodeMap)[q.normalize(raw) := distance]
                        && queue == old(queue) + Enqueued(q, q.normalize(raw), distance)
      ensures !added ==> nodeMap == old(nodeMap) && queue == old(queue)
      ensures truncation == if !added && SeedUnmet(q, old(nodeMap), raw) then old(truncation) + {NodesCap}
                            else old(truncation)
    {
      var key := q.normalize(raw);
      if key == "" || key in nodeMap { return false; }
      if q.maxNodes.Some? && |nodeMap| >= q.maxNodes.value {
        truncation := truncation + {NodesCap};
        return false;
      }
      nodeMap := nodeMap[key := distance];
      if distance < q.Depth() {
        queue := queue + [QueueEntry(key, distance)];
      }
      return true;
    }

    method AddSeed(i: nat)
      requires i < |q.seeds| && SeedsAdded(q, nodeMap, queue, NodesCap in truncation, i)
      modifies this`nodeMap, this`queue, this`truncation
      ensures SeedsAdded(q, nodeMap, queue, NodesCap in truncation, i + 1)
      ensures truncation in {old(truncation), old(truncation) + {NodesCap}}
    {
      hide SeedsAdded, SeedUnmet;
      SeedNotAdmitted(q, nodeMap, queue, NodesCap in truncation, i);
      var added := AddNode(q.seeds[i], 0);
      if added { SeedAdmitted(q, old(nodeMap), old(queue), NodesCap in truncation, i); }
    }

    method AddSeeds()
      requires State() == Search(map[], map[], [], [], [], truncation)
      requires truncation == if DepthCut(q) then {DepthCap} else {}
      modifies this`nodeMap, this`queue, this`truncation
      ensures AtHead(q, State(), 0, |queue|, 0)
    {
      hide SeedsAdded, AtHead, DepthCut;
      NoSeedsYet(q);
      for i := 0 to |q.seeds|
        invariant SeedsAdded(q, nodeMap, queue, NodesCap in truncation, i)
        invariant truncation in {old(truncation), old(truncation) + {NodesCap}}
        invariant parentMap == map[] && pathTargets == [] && visited == []
      {
        AddSeed(i);
      }
      SeedsAtHead(q, nodeMap, queue, truncation);
    }

    /** The candidate's target is added one step beyond the node being expanded, with that node as parent. */
    method Reach(current: QueueEntry, candidate: Candidate)
      modifies this`nodeMap, this`queue, this`truncation, this`parentMap, this`pathTargets
      ensures State() == Admit(q, old(State()), current, candidate)
    {
      if candidate.next in nodeMap { return; }
      var addedNode := AddNode(candidate.next, current.distance + 1);
      if addedNode {
        parentMap := parentMap[candidate.next := Parent(current.key, candidate.edge)];
        if q.includePaths && candidate.next !in pathTargets {
          pathTargets := pathTargets + [candidate.next];
        }
      }
    }

    /** One candidate, past the budget: `stop` when the edge cap refuses its edge. */
    method Visit(current: QueueEntry, candidate: Candidate) returns (stop: bool)
      requires EdgesOk() && Emits()
      modifies this
      ensures EdgesOk() && Emits()
      ensures !stop ==> State() == Dealt(q, old(State()), current, candidate)
      ensures stop ==>
                && State() == old(State()).(truncation := old(truncation) + {EdgesCap})
                && EdgeRefused(q, EdgesOf(q, visited), candidate.edge)
    {
      hide EdgesOk, Emitted, EdgesOf, EdgeRefused, Admit, Query.Confident;
      var edge := candidate.edge;
      EdgesOfAppend(q, visited, candidate);
      if !q.Confident(edge) {
        visited := visited + [candidate];
        return false;
      }
      var added := AddEdge(edge);
      if !added && q.maxEdges.Some? && |edges| >= q.maxEdges.value { return true; }
      if candidate.next == "" {
        visited := visited + [candidate];
        return false;
      }
      Reach(current, candidate);
      AdmitKeepsVisited(q, old(State()), current, candidate);
      visited := visited + [candidate];
      return false;
    }

    method CutFanout(key: Key) returns (edgeCandidates: seq<Candidate>)
      modifies this`truncation
      ensures edgeCandidates == q.Offered(key)
      ensures truncation == old(truncation) + FanoutRecord(q, key)
    {
      edgeCandidates := q.candidates(key);
      if q.maxFanoutPerNode.Some? && |edgeCandidates| > q.maxFanoutPerNode.value {
        truncation := truncation + {FanoutCap};
        edgeCandidates := edgeCandidates[..q.maxFanoutPerNode.value];
      }
    }

    // ---- The loops ----

    /** Since `meter` the budget let the visited candidates through and is still running, if there were any. */
    ghost predicate Metered(meter: Meter, budget: WorkBudget, clock: nat -> int)
      reads this`visited, budget
    {
      && budget.Valid() && Charged(meter, budget.Reading(clock), |visited|)
      && Continues(meter, budget.Reading(clock), |visited|)
    }

    /** The run is over: every unit was a visited candidate, but for one the edge cap refused.  Unless a stop is
        recorded the budget did not stop it. */
    ghost predicate Over(meter: Meter, budget: WorkBudget, clock: nat -> int)
      reads this, budget
    {
      && budget.Valid() && EdgesOk() && Emits() && Ended(q, State(), budget.reason)
      && Charged(meter, budget.Reading(clock), Passed(visited, truncation))
      && (truncation * STOP_CAPS == {} ==> Continues(meter, budget.Reading(clock), |visited|))
    }

    /** One candidate: one work unit, then the visit. */
    method Step(current: QueueEntry, candidate: Candidate, queueIndex: nat, budget: WorkBudget, clock: nat -> int)
      returns (stop: bool)
      requires EdgesOk() && Emits() && budget.Valid()
      requires 0 < queueIndex <= |queue|
      modifies this, budget
      ensures EdgesOk() && Emits() && budget.Valid()
      ensures !stop ==>
                && State() == Dealt(q, old(State()), current, candidate)
                && Charged(old(budget.Reading(clock)), budget.Reading(clock), 1)
                && Continues(old(budget.Reading(clock)), budget.Reading(clock), 1)
      ensures stop ==>
                && State() == Stopped(old(State()), queueIndex - 1, budget.reason)
                && (budget.reason == Running ==> EdgeRefused(q, EdgesOf(q, visited), candidate.edge))
                && Charged(old(budget.Reading(clock)), budget.Reading(clock), if budget.reason == Running then 1 else 0)
    {
      hide EdgesOk, Emits, Dealt, EdgesOf, EdgeRefused;
      stop := budget.Consume(Some(1.0), clock);
      if stop {
        truncation := truncation + {if budget.reason == MaxWorkUnits then WorkCap else ClockCap};
        queue := queue[..queueIndex];
        return;
      }
      stop := Visit(current, candidate);
      if stop {
        queue := queue[..queueIndex];
      }
    }

    /** One round of the candidate loop. */
    method VisitNext(edgeCandidates: seq<Candidate>, queueIndex: nat, j: nat, budget: WorkBudget, clock: nat -> int,
                     ghost meter: Meter, ghost boundary: nat, ghost lvl: nat)
      returns (stop: bool)
      requires EdgesOk() && Emits() && Metered(meter, budget, clock) && 0 < queueIndex <= |queue|
      requires Amid(q, State(), queueIndex - 1, boundary, lvl, j)
      requires edgeCandidates == q.Offered(queue[queueIndex - 1].key) && j < |edgeCandidates|
      modifies this, budget
      ensures stop ==> Over(meter, budget, clock) && queueIndex == |queue| && truncation * STOP_CAPS != {}
      ensures !stop ==> EdgesOk() && Emits() && Metered(meter, budget, clock)
      ensures !stop ==> Amid(q, State(), queueIndex - 1, boundary, lvl, j + 1)
      ensures !stop ==> queueIndex <= |queue| && queue[..queueIndex] == old(queue)[..queueIndex]
    {
      hide EdgesOk, Emits, Amid, Over, Metered, EdgesOf, EdgeRefused, Dealt, Stopped, Passed, Query.Offered;
      hide Charged, Continues, WorkBudget.Valid, WorkBudget.Reading;
      ghost var s, reading := State(), budget.Reading(clock);
      MeteredMeans(meter, budget, clock);
      stop := Step(queue[queueIndex - 1], edgeCandidates[j], queueIndex, budget, clock);
      if stop {
        StepStops(s, queueIndex - 1, boundary, lvl, j, budget, clock, meter, reading);
      } else {
        StepGoesOn(s, queueIndex - 1, boundary, lvl, j, budget, clock, meter, reading);
      }
    }

    lemma MeteredMeans(meter: Meter, budget: WorkBudget, clock: nat -> int)
      requires Metered(meter, budget, clock)
      ensures budget.Valid() && Charged(meter, budget.Reading(clock), |visited|)
      ensures Continues(meter, budget.Reading(clock), |visited|)
    {
    }

    /** From state `s` and a budget read as `reading` one candidate was dealt with. */
    lemma StepGoesOn(s: Search, h: nat, boundary: nat, lvl: nat, j: nat, budget: WorkBudget, clock: nat -> int,
                     meter: Meter, reading: Meter)
      requires Amid(q, s, h, boundary, lvl, j) && j < |q.Offered(s.queue[h].key)|
      requires State() == Dealt(q, s, s.queue[h], q.Offered(s.queue[h].key)[j]) && budget.Valid()
      requires Charged(meter, reading, |s.visited|) && Continues(meter, reading, |s.visited|)
      requires Charged(reading, budget.Reading(clock), 1) && Continues(reading, budget.Reading(clock), 1)
      ensures Metered(meter, budget, clock) && Amid(q, State(), h, boundary, lvl, j + 1)
      ensures h < |queue| && queue[..h + 1] == s.queue[..h + 1]
    {
      hide Amid, Dealt, Charged, Continues, WorkBudget.Valid, WorkBudget.Reading, Query.Offered;
      AmidNext(q, s, h, boundary, lvl, j);
      ChargedCompose(meter, reading, budget.Reading(clock), |s.visited|, 1);
    }

    /** From there the run was stopped at the candidate. */
    lemma StepStops(s: Search, h: nat, boundary: nat, lvl: nat, j: nat, budget: WorkBudget, clock: nat -> int,
                    meter: Meter, reading: Meter)
      requires Amid(q, s, h, boundary, lvl, j) && j < |q.Offered(s.queue[h].key)|
      requires State() == Stopped(s, h, budget.reason) && budget.Valid() && EdgesOk() && Emits()
      requires budget.reason == Running ==> EdgeRefused(q, EdgesOf(q, visited), q.Offered(s.queue[h].key)[j].edge)
      requires Charged(meter, reading, |s.visited|) && Continues(meter, reading, |s.visited|)
      requires Charged(reading, budget.Reading(clock), if budget.reason == Running then 1 else 0)
      ensures Over(meter, budget, clock) && |queue| == h + 1 && truncation * STOP_CAPS != {}
    {
      hide Amid, Ended, EdgesOk, Emits, EdgesOf, EdgeRefused, Passed, Stopped, Query.Offered;
      hide Charged, Continues, WorkBudget.Valid, WorkBudget.Reading;
      AmidUnstopped(q, s, h, boundary, lvl, j);
      StopCounts(s, h, budget.reason);
      AmidStops(q, s, h, boundary, lvl, j, budget.reason);
      ChargedCompose(meter, reading, budget.Reading(clock), |s.visited|, if budget.reason == Running then 1 else 0);
    }

    /** All offered candidates of the queue entry just taken. */
    method VisitAll(edgeCandidates: seq<Candidate>, queueIndex: nat, budget: WorkBudget, clock: nat -> int,
                    ghost meter: Meter, ghost boundary: nat, ghost lvl: nat)
      returns (stop: bool)
      requires EdgesOk() && Emits() && Metered(meter, budget, clock) && 0 < queueIndex <= |queue|
      requires Amid(q, State(), queueIndex - 1, boundary, lvl, 0)
      requires edgeCandidates == q.Offered(queue[queueIndex - 1].key)
      modifies this, budget
      ensures stop ==> Over(meter, budget, clock) && queueIndex == |queue| && truncation * STOP_CAPS != {}
      ensures !stop ==> EdgesOk() && Emits() && Metered(meter, budget, clock) && queueIndex <= |queue|
      ensures !stop ==> AtHead(q, State(), queueIndex, boundary, lvl)
    {
      hide EdgesOk, Emits, Amid, AtHead, Over, Metered, Query.Offered;
      ghost var taken := queue[..queueIndex];
      for j := 0 to |edgeCandidates|
        invariant EdgesOk() && Emits() && Metered(meter, budget, clock)
        invariant queueIndex <= |queue| && queue[..queueIndex] == taken
        invariant Amid(q, State(), queueIndex - 1, boundary, lvl, j)
      {
        assert queue[queueIndex - 1] == taken[queueIndex - 1];
        stop := VisitNext(edgeCandidates, queueIndex, j, budget, clock, meter, boundary, lvl);
        if stop { return; }
      }
      assert queue[queueIndex - 1] == taken[queueIndex - 1];
      AmidEnd(q, State(), queueIndex - 1, boundary, lvl, |edgeCandidates|);
      stop := false;
    }

    /** One round of the queue loop: the entry at `queueIndex` is expanded. */
    method Expand(queueIndex: nat, budget: WorkBudget, clock: nat -> int,
                  ghost meter: Meter, ghost boundary: nat, ghost lvl: nat)
      returns (stop: bool)
      requires EdgesOk() && Emits() && Metered(meter, budget, clock)
      requires AtHead(q, State(), queueIndex, boundary, lvl) && queueIndex < boundary <= |queue|
      modifies this, budget
      ensures stop ==> Over(meter, budget, clock) && queueIndex + 1 == |queue| && truncation * STOP_CAPS != {}
      ensures !stop ==> EdgesOk() && Emits() && Metered(meter, budget, clock) && queueIndex + 1 <= |queue|
      ensures !stop ==> AtHead(q, State(), queueIndex + 1, boundary, lvl)
    {
      hide EdgesOk, Emits, Amid, AtHead, Over, Metered, Query.Offered, FanoutRecord;
      AmidStart(q, State(), queueIndex, boundary, lvl);
      var current := queue[queueIndex];
      var edgeCandidates := CutFanout(current.key);
      stop := VisitAll(edgeCandidates, queueIndex + 1, budget, clock, meter, boundary, lvl);
    }

    /** The queue loop. */
    method Run(budget: WorkBudget, clock: nat -> int)
      requires AtHead(q, State(), 0, |queue|, 0) && EdgesOk() && Emits() && visited == [] && budget.Valid()
      modifies this, budget
      ensures Over(old(budget.Reading(clock)), budget, clock)
    {
      hide EdgesOk, Emits, AtHead, Over, Metered, Query.Depth, WorkBudget.Valid, WorkBudget.Reading;
      var queueIndex: nat := 0;
      ghost var meter, boundary: nat, lvl: nat, stopped := budget.Reading(clock), |queue|, 0, false;
      MeterStart(budget, clock);
      HeadBounds(queueIndex, boundary, lvl);
      while queueIndex < |queue|
        invariant queueIndex <= |queue|
        invariant stopped ==> Over(meter, budget, clock) && queueIndex == |queue|
        invariant !stopped ==> EdgesOk() && Emits() && Metered(meter, budget, clock)
        invariant !stopped ==> AtHead(q, State(), queueIndex, boundary, lvl)
        invariant !stopped ==> queueIndex <= boundary <= |queue| && lvl <= q.Depth()
        decreases !stopped, q.Depth() - lvl, boundary - queueIndex
      {
        boundary, lvl := EnterLevel(q, State(), queueIndex, boundary, lvl);
        HeadBounds(queueIndex, boundary, lvl);
        var stop := Expand(queueIndex, budget, clock, meter, boundary, lvl);
        queueIndex, stopped := queueIndex + 1, stop;
        if !stop { HeadBounds(queueIndex, boundary, lvl); }
      }
      if !stopped { HeadOver(budget, clock, meter, boundary, lvl); }
    }

    lemma MeterStart(budget: WorkBudget, clock: nat -> int)
      requires visited == [] && budget.Valid()
      ensures Metered(budget.Reading(clock), budget, clock)
    {
      hide WorkBudget.Valid, WorkBudget.Fresh, WorkBudget.Passes;
      ChargedNothing(budget.Reading(clock));
    }

    lemma HeadBounds(queueIndex: nat, boundary: nat, lvl: nat)
      requires AtHead(q, State(), queueIndex, boundary, lvl)
      ensures lvl <= q.Depth() && queueIndex <= boundary <= |queue|
    {
      hide Sound, Unstopped, Stream;
    }

    lemma HeadOver(budget: WorkBudget, clock: nat -> int, meter: Meter, boundary: nat, lvl: nat)
      requires AtHead(q, State(), |queue|, boundary, lvl) && EdgesOk() && Emits() && Metered(meter, budget, clock)
      ensures Over(meter, budget, clock)
    {
      hide EdgesOk, Emits, Ended, Sound, Frontier, Charged, Continues, WorkBudget.Valid, WorkBudget.Reading;
      HeadEnds(q, State(), boundary, lvl, budget.reason);
      assert EdgesCap in truncation ==> EdgesCap in truncation * STOP_CAPS;
    }

    // ---- The result ----

    /** All windows merged: one stable sort of the emitted edges, whatever the window size. */
    method MergeEdges() returns (merged: seq<Edge>)
      requires EdgesOk()
      modifies this`edges, this`edgeWindows
      ensures merged == StableSort(LeqEdges, old(Emitted()))
    {
      hide CapKeys;
      LeqEdgesTotal();
      if edgeWindows != [] {
        ghost var pieces := chunks + [edges];
        edges := StableSort(LeqEdges, edges);
        edgeWindows := edgeWindows + [edges];
        assert edgeWindows == SortEach(LeqEdges, pieces);
        forall i | 0 <= i < |edgeWindows| ensures Sorted(LeqEdges, edgeWindows[i]) {
          StableSortCorrect(LeqEdges, pieces[i]);
        }
        FlattenAppend(chunks, old(edges));
        SpillIsOneSort(LeqEdges, pieces);
        merged := MergeWindows(LeqEdges, edgeWindows);
      } else {
        assert Emitted() == edges;
        merged := StableSort(LeqEdges, edges);
      }
    }

    /** Parent links followed back from `key`, then reversed to run from the seed.  A key that is not a found node
        yields no path. */
    method BuildPathForNode(key: Key) returns (path: Option<WitnessPath>)
      ensures path == if key in nodeMap then Some(PathTo(nodeMap, parentMap, key)) else None
    {
      var nodes: seq<Key>, edgesOut: seq<Edge> := [], [];
      var cursor := key;
      var safety := 0;
      ghost var whole := Back(nodeMap, parentMap, key, MAX_PATH_STEPS);
      while cursor != "" && safety < MAX_PATH_STEPS
        invariant 0 <= safety <= MAX_PATH_STEPS
        invariant var rest := Back(nodeMap, parentMap, cursor, MAX_PATH_STEPS - safety);
                  whole == Walked(nodes + rest.nodes, edgesOut + rest.edges)
        decreases MAX_PATH_STEPS - safety
      {
        ghost var steps := MAX_PATH_STEPS - safety;
        ghost var rest := Back(nodeMap, parentMap, cursor, steps);
        BackStep(nodeMap, parentMap, cursor, steps, nodes, edgesOut);
        if cursor in nodeMap { nodes := nodes + [cursor]; }
        if cursor in parentMap {
          edgesOut := edgesOut + [parentMap[cursor].edge];
          cursor := parentMap[cursor].key;
        } else {
          cursor := "";
        }
        safety := safety + 1;
      }
      assert whole == Walked(nodes, edgesOut);
      if key !in nodeMap { return None; }
      return Some(WitnessPath(key, Max(0, |nodes| - 1), Reversed(nodes), Reversed(edgesOut)));
    }

    /** Paths for the first `maxPaths` targets. */
    method BuildPaths() returns (paths: seq<WitnessPath>)
      modifies this`truncation
      ensures paths == PathsTo(nodeMap, parentMap, KeptTargets(q, pathTargets))
      ensures truncation == if q.maxPaths.Some? && |pathTargets| > q.maxPaths.value then old(truncation) + {PathsCap}
                            else old(truncation)
    {
      hide PathTo, PathsTo;
      var targets := pathTargets;
      if q.maxPaths.Some? && |targets| > q.maxPaths.value {
        truncation := truncation + {PathsCap};
        targets := targets[..q.maxPaths.value];
      }
      paths := [];
      NoPaths(nodeMap, parentMap);
      ghost var recorded := truncation;
      for i := 0 to |targets|
        invariant truncation == recorded && paths == PathsTo(nodeMap, parentMap, targets[..i])
      {
        assert targets[..i + 1] == targets[..i] + [targets[i]];
        PathsToAppend(nodeMap, parentMap, targets[..i], targets[i]);
        var path := BuildPathForNode(targets[i]);
        if path.Some? { paths := paths + [path.value]; }
      }
      assert targets[..|targets|] == targets;
    }
  }

  /** Units the budget let through: the visited candidates, and the one the edge cap refused. */
  ghost function Passed(visited: seq<Candidate>, truncation: set<Cap>): nat {
    |visited| + if EdgesCap in truncation then 1 else 0
  }

  lemma StopCounts(s: Search, h: nat, reason: StopReason)
    requires h < |s.queue| && s.truncation * STOP_CAPS == {}
    ensures var t := Stopped(s, h, reason);
            && Passed(t.visited, t.truncation) == |s.visited| + (if reason == Running then 1 else 0)
            && t.truncation * STOP_CAPS != {} && |t.queue| == h + 1 && t.visited == s.visited
  {
    StopRecorded(s.truncation, StopCap(reason));
    assert EdgesCap in s.truncation ==> EdgesCap in s.truncation * STOP_CAPS;
  }

  lemma CapKeysAppend(q: Query, edges: seq<Edge>, e: Edge)
    ensures CapKeys(q, edges + [e]) == CapKeys(q, edges) + {q.capKey(e)}
  {
    forall k ensures k in CapKeys(q, edges + [e]) <==> k in CapKeys(q, edges) || k == q.capKey(e) {
      assert forall x :: x in edges + [e] <==> x in edges || x == e;
    }
  }

  lemma AdmitKeepsVisited(q: Query, s: Search, u: QueueEntry, c: Candidate)
    ensures Admit(q, s, u, c).visited == s.visited
  {
  }

  lemma NoPaths(nodes: map<Key, nat>, parents: map<Key, Parent>)
    ensures PathsTo(nodes, parents, []) == []
  {
  }

  /** One step of the walk moves from what is left to what is collected. */
  lemma BackStep(
      nodes: map<Key, nat>, parents: map<Key, Parent>, cursor: Key, steps: nat, front: seq<Key>, edges: seq<Edge>)
    requires cursor != "" && steps > 0
    ensures var rest := Back(nodes, parents, cursor, steps);
            var front' := if cursor in nodes then front + [cursor] else front;
            if cursor in parents
            then var more := Back(nodes, parents, parents[cursor].key, steps - 1);
                 && front + rest.nodes == front' + more.nodes
                 && edges + rest.edges == edges + [parents[cursor].edge] + more.edges
            else front + rest.nodes == front' + Back(nodes, parents, "", steps - 1).nodes
                 && edges + rest.edges == edges + Back(nodes, parents, "", steps - 1).edges
  {
  }
}
