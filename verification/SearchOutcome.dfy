/** What a run of the traversal of src/graph/neighborhood.js leaves, stopped or not, and what its records mean. */
module SearchOutcome {
  import opened Wrappers
  import opened Ordering
  import opened Reachability
  import opened SearchInvariants
  import opened WorkBudgets

  // ---- The end of a run ----

  /** The edge cap refuses `e`: it would bring one distinct cap key too many. */
  ghost predicate EdgeRefused(q: Query, emitted: seq<Edge>, e: Edge) {
    && q.maxEdges.Some? && |CapKeys(q, emitted)| == q.maxEdges.value
    && q.Confident(e) && q.capKey(e) !in CapKeys(q, emitted)
  }

  /** The stop recorded when the budget's state is `reason`: a running budget leaves the edge cap. */
  function StopCap(reason: StopReason): Cap {
    match reason
    case Running => EdgesCap
    case MaxWorkUnits => WorkCap
    case MaxWallClockMs => ClockCap
  }

  /** The run stopped at candidate `j` of the last node of `order`: the budget was used up, or the edge cap
      refused the candidate's edge. */
  ghost predicate StoppedAt(
    q: Query, order: seq<QueueEntry>, visited: seq<Candidate>, truncation: set<Cap>, reason: StopReason, j: nat)
  {
    && order != []
    && var n := |order| - 1;
       var cs := q.Offered(order[n].key);
       && j < |cs| && visited == Stream(q, order[..n]) + cs[..j]
       && truncation * STOP_CAPS == {StopCap(reason)}
       && (reason == Running ==> EdgeRefused(q, EdgesOf(q, visited), cs[j].edge))
  }

  /** How a run went.  The nodes in `order` were expanded, nearest first: all found nodes nearer than the depth, or
      when the run was stopped none but the nearest.  `visited` are their candidates, all of them or those up to
      the stop.  Every record of a cap means what it says. */
  ghost predicate Explored(
    q: Query, nodes: map<Key, nat>, order: seq<QueueEntry>, visited: seq<Candidate>, truncation: set<Cap>,
    reason: StopReason)
  {
    && OrderOk(q, nodes, order)
    && (if truncation * STOP_CAPS == {} then Queued(q, nodes, order) && visited == Stream(q, order)
        else NearestTaken(q, nodes, order) && exists j :: StoppedAt(q, order, visited, truncation, reason, j))
    && RefusalsRecorded(q, nodes, visited, NodesCap in truncation)
    && (DepthCap in truncation <==> DepthCut(q)) && (FanoutCap in truncation <==> CutAmong(q, order))
    && |nodes| <= |q.seeds| + |visited|
  }

  /** A found node nearer than the depth is in `order`, or not nearer than its last. */
  ghost predicate NearestTaken(q: Query, nodes: map<Key, nat>, order: seq<QueueEntry>) {
    order != [] && forall k :: k in nodes && nodes[k] < q.Depth() ==>
                     QueueEntry(k, nodes[k]) in order || nodes[k] >= order[|order| - 1].distance
  }

  /** A found node one step nearer leads to `k` by a key that was no found node's. */
  ghost predicate Entered(q: Query, nodes: map<Key, nat>, k: Key)
    requires k in nodes
  {
    exists u, c :: u in nodes && nodes[u] + 1 == nodes[k] && c in q.Offered(u) && q.Leads(c)
                   && q.normalize(c.next) == k && (c.next in nodes ==> nodes[c.next] > nodes[u])
  }

  /** What the caller is promised about the found nodes: they are really reached, within the depth and the node
      cap; the seeds are among them unless the cap, then met, refused one; with keys apart every distance is
      shortest, and when nothing stopped the run or refused a node they are all the nodes within the depth. */
  ghost predicate NodesPromised(q: Query, nodes: map<Key, nat>, truncation: set<Cap>) {
    && (forall k :: k in nodes ==> nodes[k] <= q.Depth() && q.InSteps(k, nodes[k]))
    && (forall k :: k in nodes && nodes[k] > 0 ==> Entered(q, nodes, k))
    && (q.maxNodes.Some? ==> |nodes| <= q.maxNodes.value)
    && (if NodesCap in truncation then q.maxNodes.Some? && |nodes| == q.maxNodes.value else SeedsIn(q, nodes))
    && (q.KeysApart() ==> forall k :: k in nodes ==> q.Shortest(k, nodes[k]))
    && (q.KeysApart() && truncation * STOP_CAPS == {} && NodesCap !in truncation ==>
          forall k :: k in nodes <==> q.WithinSteps(k, q.Depth()))
  }

  ghost predicate Traced(q: Query, nodes: map<Key, nat>, parents: map<Key, Parent>, targets: seq<Key>) {
    NodesOk(q, nodes) && ParentsOk(q, nodes, parents) && TargetsOk(q, nodes, parents, targets)
  }

  /** The search is over, stopped or not. */
  ghost predicate Ended(q: Query, s: Search, reason: StopReason) {
    && Traced(q, s.nodes, s.parents, s.targets) && PathsCap !in s.truncation
    && NodesPromised(q, s.nodes, s.truncation)
    && Explored(q, s.nodes, s.queue, s.visited, s.truncation, reason)
  }

  lemma ParentedEntered(q: Query, nodes: map<Key, nat>, parents: map<Key, Parent>, k: Key)
    requires ParentsOk(q, nodes, parents) && k in nodes && nodes[k] > 0
    ensures Entered(q, nodes, k)
  {
    var r :| r in parents && q.normalize(r) == k;
    assert ParentOk(q, nodes, r, parents[r]);
  }

  lemma SeedsAreIn(q: Query, s: Search, h: nat, lvl: nat)
    requires Sound(q, s, h, lvl) && NodesCap !in s.truncation
    ensures SeedsIn(q, s.nodes)
  {
    hide SearchOk, Minimal, Open, SomeUnmet, SomeSeedUnmet, Query.KeysApart, Query.IsSeed;
    forall k | q.IsSeed(k) ensures k in s.nodes && s.nodes[k] == 0 {
      SeedFound(q, s.nodes, k);
    }
  }

  lemma SoundPromises(q: Query, s: Search, h: nat, lvl: nat)
    requires Sound(q, s, h, lvl)
    ensures Traced(q, s.nodes, s.parents, s.targets) && OrderOk(q, s.nodes, s.queue) && Queued(q, s.nodes, s.queue)
    ensures NodesCap in s.truncation ==> q.maxNodes.Some? && |s.nodes| == q.maxNodes.value
    ensures forall k :: k in s.nodes ==> s.nodes[k] <= q.Depth() && q.InSteps(k, s.nodes[k])
    ensures forall k :: k in s.nodes && s.nodes[k] > 0 ==> Entered(q, s.nodes, k)
    ensures q.maxNodes.Some? ==> |s.nodes| <= q.maxNodes.value
    ensures q.KeysApart() ==> forall k :: k in s.nodes ==> q.Shortest(k, s.nodes[k])
    ensures q.KeysApart() && NodesCap !in s.truncation && h == |s.queue| ==>
              forall k :: k in s.nodes <==> q.WithinSteps(k, q.Depth())
  {
    hide ParentsOk, TargetsOk, OrderOk, Queued, Settled, SeedsIn, SomeUnmet, SomeSeedUnmet, SeedsNearest, Entered;
    hide Query.KeysApart, Query.InSteps, Query.WithinSteps, Query.Shortest;
    forall k | k in s.nodes && s.nodes[k] > 0 ensures Entered(q, s.nodes, k) {
      ParentedEntered(q, s.nodes, s.parents, k);
    }
    if q.KeysApart() && NodesCap !in s.truncation && h == |s.queue| {
      AllFound(q, s.nodes, s.queue);
    }
  }

  /** The queue is used up. */
  lemma HeadEnds(q: Query, s: Search, boundary: nat, lvl: nat, reason: StopReason)
    requires AtHead(q, s, |s.queue|, boundary, lvl)
    ensures Ended(q, s, reason)
  {
    hide Traced, OrderOk, Queued, RefusalsRecorded, CutAmong, DepthCut, Stream, Entered;
    hide Query.KeysApart, Query.InSteps, Query.WithinSteps, Query.Shortest, Frontier, SearchOk, Minimal, Open, SeedsIn;
    assert s.queue[..|s.queue|] == s.queue;
    SoundPromises(q, s, |s.queue|, lvl);
    SoundRecords(q, s, |s.queue|, lvl);
    if NodesCap !in s.truncation { SeedsAreIn(q, s, |s.queue|, lvl); }
  }

  lemma CutOrder(q: Query, nodes: map<Key, nat>, queue: seq<QueueEntry>, n: nat)
    requires OrderOk(q, nodes, queue) && Queued(q, nodes, queue) && 0 < n <= |queue|
    ensures OrderOk(q, nodes, queue[..n]) && NearestTaken(q, nodes, queue[..n])
  {
    forall k | k in nodes && nodes[k] < q.Depth()
      ensures QueueEntry(k, nodes[k]) in queue[..n] || nodes[k] >= queue[..n][n - 1].distance
    {
      var i :| 0 <= i < |queue| && queue[i] == QueueEntry(k, nodes[k]);
      if i < n { assert queue[..n][i] == queue[i]; }
    }
  }

  lemma StopRecorded(truncation: set<Cap>, cap: Cap)
    requires truncation * STOP_CAPS == {} && cap in STOP_CAPS
    ensures (truncation + {cap}) * STOP_CAPS == {cap}
    ensures forall c :: c !in STOP_CAPS ==> (c in truncation + {cap} <==> c in truncation)
  {
  }

  /** What a stop leaves: the queue is cut after the entry being expanded, and the stop is recorded. */
  function Stopped(s: Search, h: nat, reason: StopReason): Search
    requires h < |s.queue|
  {
    s.(queue := s.queue[..h + 1], truncation := s.truncation + {StopCap(reason)})
  }

  lemma StopIsAt(q: Query, s: Search, h: nat, boundary: nat, lvl: nat, j: nat, reason: StopReason)
    requires Amid(q, s, h, boundary, lvl, j) && j < |q.Offered(s.queue[h].key)|
    requires reason == Running ==> EdgeRefused(q, EdgesOf(q, s.visited), q.Offered(s.queue[h].key)[j].edge)
    ensures var t := Stopped(s, h, reason); StoppedAt(q, t.queue, t.visited, t.truncation, reason, j)
  {
    hide Sound, Frontier, CutAmong, DepthCut, Stream, EdgesOf, EdgeRefused, Query.Offered;
    var t := Stopped(s, h, reason);
    StopRecorded(s.truncation, StopCap(reason));
    assert t.queue[..h] == s.queue[..h] && t.queue[h] == s.queue[h];
  }

  lemma SoundOrder(q: Query, s: Search, h: nat, lvl: nat)
    requires Sound(q, s, h, lvl)
    ensures OrderOk(q, s.nodes, s.queue) && Queued(q, s.nodes, s.queue)
  {
    hide NodesOk, ParentsOk, TargetsOk, OrderOk, Queued, Minimal, Open, RefusalsRecorded, SeedsNearest, Query.KeysApart;
  }

  lemma StopExplored(q: Query, s: Search, h: nat, boundary: nat, lvl: nat, j: nat, reason: StopReason)
    requires Amid(q, s, h, boundary, lvl, j)
    requires var t := Stopped(s, h, reason); StoppedAt(q, t.queue, t.visited, t.truncation, reason, j)
    ensures var t := Stopped(s, h, reason); Explored(q, t.nodes, t.queue, t.visited, t.truncation, reason)
    ensures PathsCap !in Stopped(s, h, reason).truncation
  {
    hide Sound, Frontier, CutAmong, DepthCut, OrderOk, Queued, NearestTaken, RefusalsRecorded, StoppedAt, Stream;
    hide Query.Offered;
    SoundOrder(q, s, h, lvl);
    SoundRecords(q, s, h, lvl);
    CutOrder(q, s.nodes, s.queue, h + 1);
    StopRecorded(s.truncation, StopCap(reason));
  }

  /** A stop ends the run at the candidate in hand. */
  lemma AmidStops(q: Query, s: Search, h: nat, boundary: nat, lvl: nat, j: nat, reason: StopReason)
    requires Amid(q, s, h, boundary, lvl, j) && j < |q.Offered(s.queue[h].key)|
    requires reason == Running ==> EdgeRefused(q, EdgesOf(q, s.visited), q.Offered(s.queue[h].key)[j].edge)
    ensures Ended(q, Stopped(s, h, reason), reason)
  {
    hide Traced, Explored, StoppedAt, Unstopped, Entered, EdgeRefused, EdgesOf, Stream, Sound, Frontier, SeedsIn;
    hide Query.KeysApart, Query.InSteps, Query.WithinSteps, Query.Shortest, Query.Offered;
    StopIsAt(q, s, h, boundary, lvl, j, reason);
    StopExplored(q, s, h, boundary, lvl, j, reason);
    AmidUnstopped(q, s, h, boundary, lvl, j);
    StopRecorded(s.truncation, StopCap(reason));
    SoundPromises(q, s, h, lvl);
    if NodesCap !in s.truncation { SeedsAreIn(q, s, h, lvl); }
  }

  lemma AmidUnstopped(q: Query, s: Search, h: nat, boundary: nat, lvl: nat, j: nat)
    requires Amid(q, s, h, boundary, lvl, j)
    ensures s.truncation * STOP_CAPS == {} && h < |s.queue|
  {
  }

  lemma SoundRecords(q: Query, s: Search, h: nat, lvl: nat)
    requires Sound(q, s, h, lvl)
    ensures RefusalsRecorded(q, s.nodes, s.visited, NodesCap in s.truncation)
    ensures |s.nodes| <= |q.seeds| + |s.visited|
  {
  }

  // ---- Emitted edges ----

  /** `e` is an edge some expanded node offers and the confidence filter keeps. */
  ghost predicate OfferedEdge(q: Query, nodes: map<Key, nat>, e: Edge) {
    exists u, c :: u in nodes && nodes[u] < q.Depth() && c in q.Offered(u) && q.Confident(e) && c.edge == e
  }

  /** The emitted edges are offered by expanded nodes; when nothing stopped the run they are all of those, and
      without a fanout record nothing was cut from any list. */
  ghost predicate EmittedPromised(q: Query, nodes: map<Key, nat>, emitted: seq<Edge>, truncation: set<Cap>) {
    && (forall e :: e in emitted ==> OfferedEdge(q, nodes, e))
    && (truncation * STOP_CAPS == {} ==> forall e :: OfferedEdge(q, nodes, e) ==> e in emitted)
    && (truncation * STOP_CAPS == {} && FanoutCap !in truncation ==>
          forall k :: k in nodes && nodes[k] < q.Depth() ==> q.Offered(k) == q.candidates(k))
  }

  lemma {:induction false} StreamMembers(q: Query, order: seq<QueueEntry>, c: Candidate)
    ensures c in Stream(q, order) <==> exists i :: 0 <= i < |order| && c in q.Offered(order[i].key)
  {
    hide Query.Offered;
    if order != [] {
      var n := |order| - 1;
      StreamMembers(q, order[..n], c);
      if c in Stream(q, order[..n]) {
        var i :| 0 <= i < n && c in q.Offered(order[..n][i].key);
        assert order[..n][i] == order[i];
      }
      if i :| 0 <= i < |order| && c in q.Offered(order[i].key) {
        assert i < n ==> order[..n][i] == order[i];
      }
    }
  }

  lemma {:induction false} EdgesOfMembers(q: Query, cs: seq<Candidate>, e: Edge)
    ensures e in EdgesOf(q, cs) <==> q.Confident(e) && exists c :: c in cs && c.edge == e
    ensures |EdgesOf(q, cs)| <= |cs|
  {
    hide Query.Confident;
    if cs != [] {
      var n := |cs| - 1;
      EdgesOfMembers(q, cs[..n], e);
      assert cs == cs[..n] + [cs[n]];
    }
  }

  lemma EdgesOfAppend(q: Query, cs: seq<Candidate>, c: Candidate)
    ensures EdgesOf(q, cs + [c]) == EdgesOf(q, cs) + if q.Confident(c.edge) then [c.edge] else []
  {
    assert (cs + [c])[..|cs|] == cs;
  }

  /** A visited candidate is offered by a node of the order. */
  lemma VisitedOffered(
      q: Query, nodes: map<Key, nat>, order: seq<QueueEntry>, visited: seq<Candidate>, truncation: set<Cap>,
      reason: StopReason, c: Candidate)
    returns (u: Key)
    requires Explored(q, nodes, order, visited, truncation, reason) && c in visited
    ensures u in nodes && nodes[u] < q.Depth() && c in q.Offered(u)
  {
    hide RefusalsRecorded, CutAmong, DepthCut, Queued, NearestTaken, EdgeRefused, Stream, Query.Offered;
    if truncation * STOP_CAPS == {} {
      StreamMembers(q, order, c);
      var i :| 0 <= i < |order| && c in q.Offered(order[i].key);
      u := order[i].key;
    } else {
      var j :| StoppedAt(q, order, visited, truncation, reason, j);
      var n := |order| - 1;
      if c in Stream(q, order[..n]) {
        StreamMembers(q, order[..n], c);
        var i :| 0 <= i < n && c in q.Offered(order[..n][i].key);
        u := order[i].key;
      } else {
        u := order[n].key;
      }
    }
  }

  lemma AllOffered(q: Query, nodes: map<Key, nat>, order: seq<QueueEntry>, e: Edge)
    requires Queued(q, nodes, order) && OfferedEdge(q, nodes, e)
    ensures e in EdgesOf(q, Stream(q, order))
  {
    hide Query.Offered, Query.Confident;
    var u, c :| u in nodes && nodes[u] < q.Depth() && c in q.Offered(u) && q.Confident(e) && c.edge == e;
    var i :| 0 <= i < |order| && order[i] == QueueEntry(u, nodes[u]);
    StreamMembers(q, order, c);
    EdgesOfMembers(q, Stream(q, order), e);
  }

  lemma ExploredEmits(
      q: Query, nodes: map<Key, nat>, order: seq<QueueEntry>, visited: seq<Candidate>, truncation: set<Cap>,
      reason: StopReason)
    requires Explored(q, nodes, order, visited, truncation, reason)
    ensures EmittedPromised(q, nodes, EdgesOf(q, visited), truncation)
  {
    hide RefusalsRecorded, DepthCut, NearestTaken, StoppedAt, Stream, EdgesOf, OrderOk, Query.Offered, Query.Confident;
    forall e | e in EdgesOf(q, visited) ensures OfferedEdge(q, nodes, e) {
      EdgesOfMembers(q, visited, e);
      var c :| c in visited && c.edge == e;
      var u := VisitedOffered(q, nodes, order, visited, truncation, reason, c);
    }
    if truncation * STOP_CAPS == {} {
      forall e | OfferedEdge(q, nodes, e) ensures e in EdgesOf(q, visited) {
        AllOffered(q, nodes, order, e);
      }
      forall k | k in nodes && nodes[k] < q.Depth() && FanoutCap !in truncation
        ensures q.Offered(k) == q.candidates(k)
      {
        var i :| 0 <= i < |order| && order[i] == QueueEntry(k, nodes[k]);
      }
    }
  }

  /** When the run was not stopped and no node refused, the targets of expanded nodes are found, or written with a
      found key. */
  lemma TargetsMet(
      q: Query, nodes: map<Key, nat>, order: seq<QueueEntry>, visited: seq<Candidate>, truncation: set<Cap>,
      reason: StopReason, u: Key, c: Candidate)
    requires Explored(q, nodes, order, visited, truncation, reason)
    requires truncation * STOP_CAPS == {} && NodesCap !in truncation
    requires u in nodes && nodes[u] < q.Depth() && c in q.Offered(u) && q.Leads(c)
    ensures c.next in nodes || q.normalize(c.next) in nodes
  {
    hide DepthCut, CutAmong, Stream, SomeSeedUnmet, Query.Offered;
    var i :| 0 <= i < |order| && order[i] == QueueEntry(u, nodes[u]);
    StreamMembers(q, order, c);
    assert !Unmet(q, nodes, c);
  }

  lemma NotAmong(a: set<Cap>, b: set<Cap>, cap: Cap)
    requires a * b == {}
    ensures cap in b ==> cap !in a
  {
    assert cap in a && cap in b ==> cap in a * b;
  }

  lemma NoEdgeStop(q: Query, order: seq<QueueEntry>, visited: seq<Candidate>, truncation: set<Cap>, j: nat)
    requires q.maxEdges.None?
    ensures !StoppedAt(q, order, visited, truncation, Running, j)
  {
  }

  /** Without caps and with a budget that did not stop, nothing is recorded. */
  lemma UncappedRecordsNothing(
      q: Query, nodes: map<Key, nat>, order: seq<QueueEntry>, visited: seq<Candidate>, truncation: set<Cap>)
    requires q.Uncapped() && PathsCap !in truncation
    requires Explored(q, nodes, order, visited, truncation, Running)
    ensures truncation == {}
  {
    hide OrderOk, Queued, NearestTaken, Stream, StoppedAt, SomeUnmet, SomeSeedUnmet;
    forall j: nat ensures !StoppedAt(q, order, visited, truncation, Running, j) {
      NoEdgeStop(q, order, visited, truncation, j);
    }
    forall cap ensures cap !in truncation {
      NotAmong(truncation, STOP_CAPS, cap);
      match cap
      case DepthCap =>
      case NodesCap =>
      case EdgesCap =>
      case FanoutCap =>
      case PathsCap =>
      case WorkCap =>
      case ClockCap =>
    }
  }
}
