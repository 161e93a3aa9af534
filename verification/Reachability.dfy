/** What a traversal query means: the candidate relation, walks from the seeds, and shortest distances.

    A node is represented by its node key (src/graph/ordering.js:19-31); "" is the key of a reference that
    names no node.  `candidates(k)` is the candidate list of node k before the fanout cut, `next` the key of
    the reference a candidate leads to as written, and `normalize` the key of that reference after
    normalizeFileRef. */
module Reachability {
  import opened Wrappers
  import opened Ordering

  type Key = string

  datatype Candidate = Candidate(edge: Edge, next: Key)

  datatype Query = Query(
    seeds: seq<Key>,
    candidates: Key -> seq<Candidate>,
    normalize: Key -> Key,
    capKey: Edge -> string,
    requestedDepth: nat,
    maxDepth: Option<nat>,
    maxFanoutPerNode: Option<nat>,
    maxNodes: Option<nat>,
    maxEdges: Option<nat>,
    maxPaths: Option<nat>,
    minConfidence: Option<real>,
    includePaths: bool)
  {
    function Depth(): nat {
      if maxDepth.None? || requestedDepth <= maxDepth.value then requestedDepth else maxDepth.value
    }

    /** The candidate list after the fanout cut. */
    function Offered(k: Key): seq<Candidate> {
      var all := candidates(k);
      if maxFanoutPerNode.Some? && |all| > maxFanoutPerNode.value then all[..maxFanoutPerNode.value] else all
    }

    predicate Confident(e: Edge) {
      !(minConfidence.Some? && e.confidence.Some? && e.confidence.value < minConfidence.value)
    }

    predicate Leads(c: Candidate) {
      Confident(c.edge) && c.next != "" && normalize(c.next) != ""
    }

    /** One step of the candidate relation. */
    ghost predicate Follows(u: Key, v: Key) {
      exists c :: c in Offered(u) && Leads(c) && normalize(c.next) == v
    }

    ghost predicate IsSeed(k: Key) {
      k != "" && exists s :: s in seeds && normalize(s) == k
    }

    ghost predicate Walk(w: seq<Key>) {
      |w| > 0 && IsSeed(w[0]) && forall i :: 0 <= i < |w| - 1 ==> Follows(w[i], w[i + 1])
    }

    ghost predicate WalkTo(w: seq<Key>, k: Key) {
      Walk(w) && w[|w| - 1] == k
    }

    ghost predicate WithinSteps(k: Key, d: nat) {
      exists w :: WalkTo(w, k) && |w| - 1 <= d
    }

    ghost predicate InSteps(k: Key, d: nat) {
      exists w :: WalkTo(w, k) && |w| - 1 == d
    }

    /** `d` is the length of a shortest walk from a seed to `k`. */
    ghost predicate Shortest(k: Key, d: nat) {
      InSteps(k, d) && forall w :: WalkTo(w, k) ==> |w| - 1 >= d
    }

    /** `u` is reached nearer than the depth, so its candidates count. */
    ghost predicate Expandable(u: Key) {
      exists d: nat :: d < Depth() && InSteps(u, d)
    }

    /** `c` is a leading candidate of a node that counts. */
    ghost predicate Offers(u: Key, c: Candidate) {
      Expandable(u) && c in Offered(u) && Leads(c)
    }

    /** A node may be stored under `k`: it is the key of a seed or of a candidate's target. */
    ghost predicate Stores(k: Key) {
      IsSeed(k) || exists u, c :: Offers(u, c) && normalize(c.next) == k
    }

    /** No candidate is written with a key that some node is stored under but that is not its target's. */
    ghost predicate KeysApart() {
      forall u, c :: Offers(u, c) && Stores(c.next) ==> normalize(c.next) == c.next
    }

    /** Every candidate names its target by the key it is stored under. */
    ghost predicate Normalized() {
      forall u, c :: Offers(u, c) ==> normalize(c.next) == c.next
    }

    /** Normalising `k` is final: the normalised key, if there is one, names itself or nothing. */
    ghost predicate Final(k: Key) {
      normalize(k) == "" || normalize(normalize(k)) in {normalize(k), ""}
    }

    /** The keys of the seeds and of the candidates' targets are final. */
    ghost predicate AllFinal() {
      (forall s :: s in seeds ==> Final(s)) && (forall u, c :: Offers(u, c) ==> Final(c.next))
    }

    /** No cap is set. */
    predicate Uncapped() {
      maxDepth.None? && maxFanoutPerNode.None? && maxNodes.None? && maxEdges.None? && maxPaths.None?
    }
  }

  /** When normalising is final, keys are apart. */
  lemma FinalKeysApart(q: Query)
    requires q.AllFinal()
    ensures q.KeysApart()
  {
    hide Query.Offers;
    forall u, c | q.Offers(u, c) && q.Stores(c.next) ensures q.normalize(c.next) == c.next {
      LeadsSomewhere(q, u, c);
      if q.IsSeed(c.next) {
        var s :| s in q.seeds && q.normalize(s) == c.next;
        assert q.Final(s);
      } else {
        var u', c' :| q.Offers(u', c') && q.normalize(c'.next) == c.next;
        assert q.Final(c'.next);
      }
    }
  }

  lemma LeadsSomewhere(q: Query, u: Key, c: Candidate)
    requires q.Offers(u, c)
    ensures c.next != "" && q.normalize(c.next) != ""
  {
  }

  datatype QueueEntry = QueueEntry(key: Key, distance: nat)

  ghost predicate SeedsIn(q: Query, nodes: map<Key, nat>) {
    forall k :: q.IsSeed(k) ==> k in nodes && nodes[k] == 0
  }

  /** The successors of the first `h` queue entries are all found, at most one step farther. */
  ghost predicate Settled(q: Query, nodes: map<Key, nat>, queue: seq<QueueEntry>, h: nat)
    requires h <= |queue|
  {
    forall i, v :: 0 <= i < h && q.Follows(queue[i].key, v) ==> v in nodes && nodes[v] <= queue[i].distance + 1
  }

  ghost predicate Queued(q: Query, nodes: map<Key, nat>, queue: seq<QueueEntry>) {
    forall k :: k in nodes && nodes[k] < q.Depth() ==> QueueEntry(k, nodes[k]) in queue
  }

  /** Breadth-first search: while everything nearer than `d` is settled, a walk of at most `d` steps
      cannot leave the found nodes, and no found node on it is farther than its position. */
  lemma {:induction false} WalkIsFound(
      q: Query, nodes: map<Key, nat>, queue: seq<QueueEntry>, h: nat, d: nat, w: seq<Key>)
    requires h <= |queue| && d <= q.Depth()
    requires SeedsIn(q, nodes) && Settled(q, nodes, queue, h) && Queued(q, nodes, queue)
    requires forall i :: h <= i < |queue| ==> queue[i].distance >= d
    requires q.Walk(w) && |w| - 1 <= d
    ensures w[|w| - 1] in nodes && nodes[w[|w| - 1]] <= |w| - 1
  {
    if |w| > 1 {
      var prefix := w[..|w| - 1];
      WalkIsFound(q, nodes, queue, h, d, prefix);
      var u := w[|w| - 2];
      assert u == prefix[|prefix| - 1];
      var i :| 0 <= i < |queue| && queue[i] == QueueEntry(u, nodes[u]);
      assert q.Follows(w[|w| - 2], w[|w| - 1]);
    }
  }

  lemma StepExtends(q: Query, u: Key, d: nat, k: Key)
    requires q.InSteps(u, d) && q.Follows(u, k)
    ensures q.InSteps(k, d + 1)
  {
    var w :| q.WalkTo(w, u) && |w| - 1 == d;
    var longer := w + [k];
    forall i | 0 <= i < |longer| - 1 ensures q.Follows(longer[i], longer[i + 1]) {
      if i < |w| - 1 { assert q.Follows(w[i], w[i + 1]); }
    }
    assert q.WalkTo(longer, k);
  }

  /** A node first seen from a frontier node at distance `d` has shortest distance d + 1. */
  lemma NewNodeShortest(
      q: Query, nodes: map<Key, nat>, queue: seq<QueueEntry>, h: nat, u: Key, d: nat, k: Key)
    requires h <= |queue| && d < q.Depth()
    requires SeedsIn(q, nodes) && Settled(q, nodes, queue, h) && Queued(q, nodes, queue)
    requires forall i :: h <= i < |queue| ==> queue[i].distance >= d
    requires q.InSteps(u, d) && q.Follows(u, k) && k !in nodes
    ensures q.Shortest(k, d + 1)
  {
    StepExtends(q, u, d, k);
    forall w | q.WalkTo(w, k) ensures |w| - 1 >= d + 1 {
      if |w| - 1 <= d {
        WalkIsFound(q, nodes, queue, h, d, w);
      }
    }
  }

  lemma SeedShortest(q: Query, k: Key)
    requires q.IsSeed(k)
    ensures q.Shortest(k, 0)
  {
    assert q.WalkTo([k], k);
  }

  /** When the queue is exhausted, the found nodes are exactly those within the depth. */
  lemma AllFound(q: Query, nodes: map<Key, nat>, queue: seq<QueueEntry>)
    requires SeedsIn(q, nodes) && Settled(q, nodes, queue, |queue|) && Queued(q, nodes, queue)
    requires forall k :: k in nodes ==> nodes[k] <= q.Depth() && q.InSteps(k, nodes[k])
    ensures forall k :: k in nodes <==> q.WithinSteps(k, q.Depth())
  {
    forall k ensures k in nodes <==> q.WithinSteps(k, q.Depth()) {
      if k in nodes {
        var w :| q.WalkTo(w, k) && |w| - 1 == nodes[k];
      }
      if q.WithinSteps(k, q.Depth()) {
        var w :| q.WalkTo(w, k) && |w| - 1 <= q.Depth();
        WalkIsFound(q, nodes, queue, |queue|, q.Depth(), w);
      }
    }
  }
}
