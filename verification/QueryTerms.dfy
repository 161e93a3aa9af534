/** What a result of the traversal means in terms of the fields of its query alone: the depths, the confidence, the
    fanout and the candidate lists of src/graph/neighborhood.js:84-86, 549-557 and 570. */
module QueryTerms {
  import opened Wrappers
  import opened Ordering
  import opened EdgePolicy
  import opened Reachability
  import opened SearchInvariants
  import opened SearchOutcome
  import opened WorkBudgets

  // ---- The terms ----

  /** The confidence filter lets the edge pass. */
  ghost predicate Allowed(q: Query, e: Edge) {
    q.minConfidence.Some? && e.confidence.Some? ==> e.confidence.value >= q.minConfidence.value
  }

  /** Neither farther than asked for nor than allowed. */
  ghost predicate WithinDepths(q: Query, d: nat) {
    d <= q.requestedDepth && (q.maxDepth.Some? ==> d <= q.maxDepth.value)
  }

  ghost predicate NearerThanDepths(q: Query, d: nat) {
    d < q.requestedDepth && (q.maxDepth.Some? ==> d < q.maxDepth.value)
  }

  /** Candidate `i` of `u` is there, and among the first that the fanout cap allows. */
  ghost predicate ListedAt(q: Query, u: Key, i: nat) {
    i < |q.candidates(u)| && (q.maxFanoutPerNode.Some? ==> i < q.maxFanoutPerNode.value)
  }

  /** A listed candidate of `u` with an allowed edge leads to the node stored under `v`. */
  ghost predicate Step(q: Query, u: Key, v: Key) {
    exists i: nat :: ListedAt(q, u, i)
      && Allowed(q, q.candidates(u)[i].edge) && q.candidates(u)[i].next != ""
      && v != "" && q.normalize(q.candidates(u)[i].next) == v
  }

  /** Steps from the normal form of a seed. */
  ghost predicate Route(q: Query, w: seq<Key>) {
    && w != [] && w[0] != "" && (exists s :: s in q.seeds && q.normalize(s) == w[0])
    && forall i: nat :: i + 1 < |w| ==> Step(q, w[i], w[i + 1])
  }

  // ---- The definitions have them ----

  lemma DepthMeans(q: Query, d: nat)
    ensures d <= q.Depth() <==> WithinDepths(q, d)
    ensures d < q.Depth() <==> NearerThanDepths(q, d)
  {
  }

  lemma ConfidentMeans(q: Query, e: Edge)
    ensures q.Confident(e) <==> Allowed(q, e)
  {
  }

  lemma OfferedMeans(q: Query, u: Key)
    ensures forall i: nat :: i < |q.Offered(u)| <==> ListedAt(q, u, i)
    ensures forall i: nat :: i < |q.Offered(u)| ==> q.Offered(u)[i] == q.candidates(u)[i]
    ensures |q.Offered(u)| == if q.maxFanoutPerNode.Some? then Min(|q.candidates(u)|, q.maxFanoutPerNode.value)
                              else |q.candidates(u)|
  {
  }

  lemma StepMeans(q: Query, u: Key, v: Key)
    ensures q.Follows(u, v) <==> Step(q, u, v)
  {
    hide Query.Offered, Query.Confident, Allowed, ListedAt;
    OfferedMeans(q, u);
    if q.Follows(u, v) {
      var c :| c in q.Offered(u) && q.Leads(c) && q.normalize(c.next) == v;
      var i :| 0 <= i < |q.Offered(u)| && q.Offered(u)[i] == c;
      ConfidentMeans(q, c.edge);
      assert ListedAt(q, u, i);
    }
    if Step(q, u, v) {
      var i: nat :| ListedAt(q, u, i)
        && Allowed(q, q.candidates(u)[i].edge) && q.candidates(u)[i].next != ""
        && v != "" && q.normalize(q.candidates(u)[i].next) == v;
      var c := q.Offered(u)[i];
      ConfidentMeans(q, c.edge);
      assert c in q.Offered(u) && q.Leads(c);
    }
  }

  lemma RouteMeans(q: Query, w: seq<Key>)
    ensures q.Walk(w) <==> Route(q, w)
  {
    hide Query.Follows, Step;
    if q.Walk(w) {
      forall i: nat | i + 1 < |w| ensures Step(q, w[i], w[i + 1]) { StepMeans(q, w[i], w[i + 1]); }
    }
    if Route(q, w) {
      forall i | 0 <= i < |w| - 1 ensures q.Follows(w[i], w[i + 1]) { StepMeans(q, w[i], w[i + 1]); }
    }
  }

  // ---- Nodes ----

  ghost predicate RouteTo(q: Query, w: seq<Key>, k: Key, d: nat) {
    Route(q, w) && w[|w| - 1] == k && |w| == d + 1
  }

  /** Every distance is that of a route, within both depths.  With keys apart none is longer than any route's, and
      when nothing stopped the run or refused a node every route within both depths ends at a found node. */
  ghost predicate FoundInTerms(q: Query, nodes: map<Key, nat>, truncation: set<Cap>) {
    && (forall k :: k in nodes ==> WithinDepths(q, nodes[k]) && exists w :: RouteTo(q, w, k, nodes[k]))
    && (q.KeysApart() ==> forall w, k, d :: RouteTo(q, w, k, d) && k in nodes ==> nodes[k] <= d)
    && (q.KeysApart() && truncation * STOP_CAPS == {} && NodesCap !in truncation ==>
          forall w, k, d :: RouteTo(q, w, k, d) && WithinDepths(q, d) ==> k in nodes)
  }

  lemma NodesInTerms(q: Query, nodes: map<Key, nat>, truncation: set<Cap>)
    requires NodesPromised(q, nodes, truncation)
    ensures FoundInTerms(q, nodes, truncation)
  {
    hide Query.Depth, Query.KeysApart, Query.Walk, Entered, SeedsIn, WithinDepths, Route;
    forall k | k in nodes ensures WithinDepths(q, nodes[k]) && exists w :: RouteTo(q, w, k, nodes[k]) {
      DepthMeans(q, nodes[k]);
      var w :| q.WalkTo(w, k) && |w| - 1 == nodes[k];
      RouteMeans(q, w);
      WalkNotEmpty(q, w);
      assert RouteTo(q, w, k, nodes[k]);
    }
    if q.KeysApart() {
      forall w, k, d | RouteTo(q, w, k, d) && k in nodes ensures nodes[k] <= d {
        RouteMeans(q, w);
        assert q.WalkTo(w, k) && q.Shortest(k, nodes[k]);
      }
      if truncation * STOP_CAPS == {} && NodesCap !in truncation {
        forall w, k, d | RouteTo(q, w, k, d) && WithinDepths(q, d) ensures k in nodes {
          RouteMeans(q, w);
          DepthMeans(q, d);
          assert q.WalkTo(w, k) && q.WithinSteps(k, q.Depth());
        }
      }
    }
  }

  lemma WalkNotEmpty(q: Query, w: seq<Key>)
    requires q.Walk(w)
    ensures w != []
  {
  }

  // ---- Candidates ----

  /** The first candidates of `u`, as many as the fanout cap allows. */
  ghost function Listed(q: Query, u: Key): seq<Candidate> {
    var all := q.candidates(u);
    if q.maxFanoutPerNode.None? then all else all[..Min(|all|, q.maxFanoutPerNode.value)]
  }

  /** Those of the nodes in `order`, list after list. */
  ghost function Lists(q: Query, order: seq<QueueEntry>): seq<Candidate> {
    if order == [] then [] else Lists(q, order[..|order| - 1]) + Listed(q, order[|order| - 1].key)
  }

  lemma {:induction false} ListsAreStream(q: Query, order: seq<QueueEntry>)
    ensures Lists(q, order) == Stream(q, order)
  {
    hide Query.Offered, Listed, ListedAt;
    if order != [] {
      var u := order[|order| - 1].key;
      ListsAreStream(q, order[..|order| - 1]);
      OfferedMeans(q, u);
      ListedIs(q, u);
      assert Listed(q, u) == q.Offered(u);
    }
  }

  lemma ListedIs(q: Query, u: Key)
    ensures |Listed(q, u)| == if q.maxFanoutPerNode.Some? then Min(|q.candidates(u)|, q.maxFanoutPerNode.value)
                              else |q.candidates(u)|
    ensures forall i: nat :: i < |Listed(q, u)| ==> Listed(q, u)[i] == q.candidates(u)[i]
  {
  }

  /** The visited candidates are those lists, cut off where the run was stopped. */
  ghost predicate VisitedInTerms(q: Query, order: seq<QueueEntry>, visited: seq<Candidate>, truncation: set<Cap>) {
    visited <= Lists(q, order) && (truncation * STOP_CAPS == {} ==> visited == Lists(q, order))
  }

  lemma CandidatesInTerms(
      q: Query, nodes: map<Key, nat>, order: seq<QueueEntry>, visited: seq<Candidate>, truncation: set<Cap>,
      reason: StopReason)
    requires Explored(q, nodes, order, visited, truncation, reason)
    ensures VisitedInTerms(q, order, visited, truncation)
  {
    hide Lists, OrderOk, Queued, NearestTaken, RefusalsRecorded, DepthCut, CutAmong, EdgeRefused, Query.Offered;
    ListsAreStream(q, order);
    if truncation * STOP_CAPS != {} {
      var j :| StoppedAt(q, order, visited, truncation, reason, j);
    }
  }

  /** The depth is recorded exactly when more was asked for than allowed, the fanout exactly when an expanded node
      has more candidates than allowed, and the node cap only when it is met. */
  ghost predicate RecordsInTerms(q: Query, nodes: map<Key, nat>, order: seq<QueueEntry>, truncation: set<Cap>) {
    && (DepthCap in truncation <==> q.maxDepth.Some? && q.maxDepth.value < q.requestedDepth)
    && (FanoutCap in truncation <==>
          q.maxFanoutPerNode.Some?
          && exists i :: 0 <= i < |order| && |q.candidates(order[i].key)| > q.maxFanoutPerNode.value)
    && (NodesCap in truncation ==> q.maxNodes.Some? && |nodes| == q.maxNodes.value)
  }

  lemma CapsInTerms(
      q: Query, nodes: map<Key, nat>, order: seq<QueueEntry>, visited: seq<Candidate>, truncation: set<Cap>,
      reason: StopReason)
    requires NodesPromised(q, nodes, truncation) && Explored(q, nodes, order, visited, truncation, reason)
    ensures RecordsInTerms(q, nodes, order, truncation)
  {
    hide OrderOk, Queued, NearestTaken, RefusalsRecorded, StoppedAt, Stream, Query.KeysApart, Query.Offered, ListedAt;
    hide Query.Shortest, Query.InSteps, Query.WithinSteps, Entered, SeedsIn, Query.Depth;
    forall i | 0 <= i < |order|
      ensures q.Offered(order[i].key) == q.candidates(order[i].key) <==>
                q.maxFanoutPerNode.Some? ==> |q.candidates(order[i].key)| <= q.maxFanoutPerNode.value
    {
      OfferedMeans(q, order[i].key);
    }
  }

  // ---- Edges ----

  /** `e` is the allowed edge of a listed candidate of a found node nearer than both depths. */
  ghost predicate EdgeInTerms(q: Query, nodes: map<Key, nat>, e: Edge) {
    Allowed(q, e) && exists u, i: nat ::
      u in nodes && NearerThanDepths(q, nodes[u]) && ListedAt(q, u, i) && q.candidates(u)[i].edge == e
  }

  lemma EdgeTerms(q: Query, nodes: map<Key, nat>, e: Edge)
    ensures OfferedEdge(q, nodes, e) <==> EdgeInTerms(q, nodes, e)
  {
    hide Query.Offered, Query.Confident, Query.Depth, Allowed, NearerThanDepths;
    ConfidentMeans(q, e);
    if OfferedEdge(q, nodes, e) {
      var u, c :| u in nodes && nodes[u] < q.Depth() && c in q.Offered(u) && q.Confident(e) && c.edge == e;
      var i :| 0 <= i < |q.Offered(u)| && q.Offered(u)[i] == c;
      OfferedMeans(q, u);
      DepthMeans(q, nodes[u]);
      assert ListedAt(q, u, i);
    }
    if EdgeInTerms(q, nodes, e) {
      var u, i: nat :|
        u in nodes && NearerThanDepths(q, nodes[u]) && ListedAt(q, u, i) && q.candidates(u)[i].edge == e;
      OfferedMeans(q, u);
      DepthMeans(q, nodes[u]);
      assert q.Offered(u)[i] in q.Offered(u);
    }
  }

  /** The returned edges are such edges, and unless the run was stopped they cover all of them. */
  ghost predicate EdgesInTerms(q: Query, nodes: map<Key, nat>, edges: seq<Edge>, truncation: set<Cap>) {
    && (forall e :: e in edges ==> EdgeInTerms(q, nodes, e))
    && (truncation * STOP_CAPS == {} ==> forall e :: EdgeInTerms(q, nodes, e) ==> Covers(edges, e))
  }

  // ---- All of it ----

  /** No cap is set in any field. */
  ghost predicate NoCaps(q: Query) {
    q.maxDepth == q.maxFanoutPerNode == q.maxNodes == q.maxEdges == q.maxPaths == None
  }

  lemma UncappedMeans(q: Query)
    ensures q.Uncapped() <==> NoCaps(q)
  {
  }

  ghost predicate InTerms(
    q: Query, nodes: map<Key, nat>, order: seq<QueueEntry>, visited: seq<Candidate>, edges: seq<Edge>,
    truncation: set<Cap>)
  {
    && FoundInTerms(q, nodes, truncation) && VisitedInTerms(q, order, visited, truncation)
    && EdgesInTerms(q, nodes, edges, truncation) && RecordsInTerms(q, nodes, order, truncation)
  }
}
