/** What the traversal of src/graph/neighborhood.js keeps at every step, over the values of its variables. */
module SearchInvariants {
  import opened Wrappers
  import opened Ordering
  import opened Reachability
  import opened WorkBudgets

  datatype Cap = DepthCap | NodesCap | EdgesCap | FanoutCap | PathsCap | WorkCap | ClockCap

  // The caps whose record means the run was cut short.
  const STOP_CAPS: set<Cap> := {EdgesCap, WorkCap, ClockCap}

  datatype Parent = Parent(key: Key, edge: Edge)

  /** The variables of the search; `visited` are the candidates dealt with so far, in order. */
  datatype Search = Search(
    nodes: map<Key, nat>, parents: map<Key, Parent>, targets: seq<Key>, queue: seq<QueueEntry>,
    visited: seq<Candidate>, truncation: set<Cap>)

  // ---- Steps ----

  function Enqueued(q: Query, k: Key, distance: nat): seq<QueueEntry> {
    if distance < q.Depth() then [QueueEntry(k, distance)] else []
  }

  predicate Full(q: Query, nodes: map<Key, nat>) {
    q.maxNodes.Some? && |nodes| >= q.maxNodes.value
  }

  /** Reaching for the target of a candidate of `u`: a new node is admitted with its parent link, its path target
      and its queue entry, unless the node cap refuses it. */
  function Admit(q: Query, s: Search, u: QueueEntry, c: Candidate): Search {
    var k := q.normalize(c.next);
    if c.next in s.nodes || k == "" || k in s.nodes then s
    else if Full(q, s.nodes) then s.(truncation := s.truncation + {NodesCap})
    else
      s.(nodes := s.nodes[k := u.distance + 1], queue := s.queue + Enqueued(q, k, u.distance + 1),
         parents := s.parents[c.next := Parent(u.key, c.edge)],
         targets := if q.includePaths && c.next !in s.targets then s.targets + [c.next] else s.targets)
  }

  /** A candidate dealt with: its target is reached for unless its edge is filtered out or it leads nowhere. */
  function Dealt(q: Query, s: Search, u: QueueEntry, c: Candidate): Search {
    var reached := if q.Confident(c.edge) && c.next != "" then Admit(q, s, u, c) else s;
    reached.(visited := s.visited + [c])
  }

  // ---- Nodes, parents and the queue ----

  ghost predicate NodesOk(q: Query, nodes: map<Key, nat>) {
    && (forall k :: k in nodes ==> k != "" && nodes[k] <= q.Depth() && q.InSteps(k, nodes[k]))
    && (q.maxNodes.Some? ==> |nodes| <= q.maxNodes.value)
  }

  ghost predicate Minimal(q: Query, nodes: map<Key, nat>) {
    forall k :: k in nodes ==> q.Shortest(k, nodes[k])
  }

  /** `p` was expanded and one of its candidates names `raw` over `p.edge`, which was then no found key. */
  ghost predicate ParentOk(q: Query, nodes: map<Key, nat>, raw: Key, p: Parent) {
    && p.key in nodes && nodes[p.key] < q.Depth()
    && (exists c :: c in q.Offered(p.key) && q.Leads(c) && c.next == raw && c.edge == p.edge)
    && q.normalize(raw) in nodes && nodes[q.normalize(raw)] == nodes[p.key] + 1
    && (raw in nodes ==> nodes[raw] > nodes[p.key])
  }

  ghost predicate ParentsOk(q: Query, nodes: map<Key, nat>, parents: map<Key, Parent>) {
    && (forall r :: r in parents ==> ParentOk(q, nodes, r, parents[r]))
    && (forall k :: k in nodes && nodes[k] > 0 ==> exists r :: r in parents && q.normalize(r) == k)
  }

  ghost function NonSeeds(nodes: map<Key, nat>): set<Key> {
    set k | k in nodes && nodes[k] > 0
  }

  /** Targets are the parented keys, one for each found node but the seeds, in the order found, so never nearer
      than the one before. */
  ghost predicate TargetsOk(q: Query, nodes: map<Key, nat>, parents: map<Key, Parent>, targets: seq<Key>) {
    && (forall r :: r in targets ==> r in parents && q.normalize(r) in nodes)
    && (if q.includePaths then (forall r :: r in parents ==> r in targets) && |targets| == |NonSeeds(nodes)|
        else targets == [])
    && (forall a, b :: 0 <= a < b < |targets| ==>
          targets[a] != targets[b] && nodes[q.normalize(targets[a])] <= nodes[q.normalize(targets[b])])
  }

  /** Queue entries are found nodes nearer than the depth, each once, in order of distance. */
  ghost predicate OrderOk(q: Query, nodes: map<Key, nat>, queue: seq<QueueEntry>) {
    && (forall i :: 0 <= i < |queue| ==>
          queue[i].key in nodes && nodes[queue[i].key] == queue[i].distance < q.Depth())
    && (forall i, j :: 0 <= i < j < |queue| ==>
          queue[i].key != queue[j].key && queue[i].distance <= queue[j].distance)
  }

  /** `lvl` is the distance being expanded, and the first `h` entries have been taken. */
  ghost predicate QueueOk(q: Query, nodes: map<Key, nat>, queue: seq<QueueEntry>, h: nat, lvl: nat) {
    && h <= |queue| && OrderOk(q, nodes, queue) && Queued(q, nodes, queue)
    && (forall i :: h <= i < |queue| ==> lvl <= queue[i].distance)
    && (forall k :: k in nodes ==> nodes[k] <= lvl + 1)
  }

  ghost predicate SearchOk(
      q: Query, nodes: map<Key, nat>, parents: map<Key, Parent>, targets: seq<Key>,
      queue: seq<QueueEntry>, h: nat, lvl: nat)
  {
    && NodesOk(q, nodes) && ParentsOk(q, nodes, parents) && TargetsOk(q, nodes, parents, targets)
    && QueueOk(q, nodes, queue, h, lvl)
  }

  /** Nothing was refused: the seeds are in, every found node within the depth is queued, and the first `h`
      entries are settled. */
  ghost predicate Open(q: Query, nodes: map<Key, nat>, queue: seq<QueueEntry>, h: nat) {
    h <= |queue| && SeedsIn(q, nodes) && Queued(q, nodes, queue) && Settled(q, nodes, queue, h)
  }

  lemma NodesGrow(q: Query, nodes: map<Key, nat>, k: Key, d: nat)
    requires NodesOk(q, nodes) && k !in nodes && k != "" && d <= q.Depth() && q.InSteps(k, d)
    requires q.maxNodes.Some? ==> |nodes| < q.maxNodes.value
    ensures NodesOk(q, nodes[k := d])
  {
    hide Query.InSteps, Query.Depth;
    assert nodes[k := d].Keys == nodes.Keys + {k};
  }

  lemma ParentsGrow(q: Query, nodes: map<Key, nat>, parents: map<Key, Parent>, u: Key, d: nat, c: Candidate)
    requires ParentsOk(q, nodes, parents)
    requires u in nodes && nodes[u] == d < q.Depth() && forall k :: k in nodes ==> nodes[k] <= d + 1
    requires c in q.Offered(u) && q.Leads(c) && c.next !in nodes && q.normalize(c.next) !in nodes
    ensures c.next !in parents
    ensures ParentsOk(q, nodes[q.normalize(c.next) := d + 1], parents[c.next := Parent(u, c.edge)])
  {
    hide Query.Offered, Query.Leads, Query.Depth;
    var k := q.normalize(c.next);
    var nodes' := nodes[k := d + 1];
    assert c.next in parents ==> ParentOk(q, nodes, c.next, parents[c.next]);
    var parents' := parents[c.next := Parent(u, c.edge)];
    forall r | r in parents' ensures ParentOk(q, nodes', r, parents'[r]) {
      if r != c.next {
        assert ParentOk(q, nodes, r, parents[r]);
        ParentStays(q, nodes, r, parents[r], k, d + 1);
      }
    }
    forall j | j in nodes' && nodes'[j] > 0 ensures exists r :: r in parents' && q.normalize(r) == j {
      if j == k {
        assert c.next in parents';
      } else {
        var r :| r in parents && q.normalize(r) == j;
        assert r in parents';
      }
    }
  }

  lemma ParentStays(q: Query, nodes: map<Key, nat>, raw: Key, p: Parent, k: Key, d: nat)
    requires ParentOk(q, nodes, raw, p) && k !in nodes && forall j :: j in nodes ==> nodes[j] <= d
    ensures ParentOk(q, nodes[k := d], raw, p)
  {
  }

  lemma TargetsGrow(
      q: Query, nodes: map<Key, nat>, parents: map<Key, Parent>, targets: seq<Key>, raw: Key, p: Parent, d: nat)
    requires TargetsOk(q, nodes, parents, targets) && raw !in parents && q.normalize(raw) !in nodes && d > 0
    requires forall k :: k in nodes ==> nodes[k] <= d
    ensures raw !in targets
    ensures TargetsOk(q, nodes[q.normalize(raw) := d], parents[raw := p],
                      if q.includePaths then targets + [raw] else targets)
  {
    var nodes' := nodes[q.normalize(raw) := d];
    assert forall r :: r in targets ==> r != raw && nodes'[q.normalize(r)] == nodes[q.normalize(r)] <= d;
    assert NonSeeds(nodes') == NonSeeds(nodes) + {q.normalize(raw)};
  }

  lemma QueuedGrows(q: Query, nodes: map<Key, nat>, queue: seq<QueueEntry>, k: Key, d: nat)
    requires Queued(q, nodes, queue) && k !in nodes
    ensures Queued(q, nodes[k := d], queue + Enqueued(q, k, d))
  {
    var nodes', queue' := nodes[k := d], queue + Enqueued(q, k, d);
    forall j | j in nodes' && nodes'[j] < q.Depth() ensures QueueEntry(j, nodes'[j]) in queue' {
      if j != k { assert QueueEntry(j, nodes[j]) in queue; }
    }
  }

  lemma OrderGrows(q: Query, nodes: map<Key, nat>, queue: seq<QueueEntry>, k: Key, d: nat)
    requires OrderOk(q, nodes, queue) && k !in nodes && forall j :: j in nodes ==> nodes[j] <= d
    ensures OrderOk(q, nodes[k := d], queue + Enqueued(q, k, d))
  {
    var nodes', queue' := nodes[k := d], queue + Enqueued(q, k, d);
    forall i | 0 <= i < |queue'|
      ensures queue'[i].key in nodes' && nodes'[queue'[i].key] == queue'[i].distance < q.Depth()
    {
      if i < |queue| { assert queue'[i] == queue[i]; }
    }
    forall i, j | 0 <= i < j < |queue'|
      ensures queue'[i].key != queue'[j].key && queue'[i].distance <= queue'[j].distance
    {
      assert queue'[i] == queue[i] && queue[i].key in nodes;
      if j < |queue| { assert queue'[j] == queue[j]; }
    }
  }

  lemma QueueGrows(q: Query, nodes: map<Key, nat>, queue: seq<QueueEntry>, h: nat, d: nat, k: Key)
    requires QueueOk(q, nodes, queue, h, d) && k !in nodes
    ensures QueueOk(q, nodes[k := d + 1], queue + Enqueued(q, k, d + 1), h, d)
  {
    hide OrderOk, Queued;
    QueuedGrows(q, nodes, queue, k, d + 1);
    OrderGrows(q, nodes, queue, k, d + 1);
  }

  /** Admitting a new node found from the node being expanded keeps the search invariants. */
  lemma AdmitKeeps(
      q: Query, nodes: map<Key, nat>, parents: map<Key, Parent>, targets: seq<Key>,
      queue: seq<QueueEntry>, h: nat, u: Key, d: nat, c: Candidate)
    requires SearchOk(q, nodes, parents, targets, queue, h, d)
    requires u in nodes && nodes[u] == d < q.Depth()
    requires c in q.Offered(u) && q.Leads(c) && c.next !in nodes && q.normalize(c.next) !in nodes
    requires q.maxNodes.Some? ==> |nodes| < q.maxNodes.value
    ensures c.next !in targets
    ensures SearchOk(q, nodes[q.normalize(c.next) := d + 1], parents[c.next := Parent(u, c.edge)],
                     if q.includePaths then targets + [c.next] else targets,
                     queue + Enqueued(q, q.normalize(c.next), d + 1), h, d)
  {
    hide OrderOk, Queued, ParentsOk, TargetsOk, Query.Offered, Query.InSteps;
    var k := q.normalize(c.next);
    assert q.InSteps(k, d + 1) by {
      assert q.Follows(u, k);
      StepExtends(q, u, d, k);
    }
    NodesGrow(q, nodes, k, d + 1);
    ParentsGrow(q, nodes, parents, u, d, c);
    TargetsGrow(q, nodes, parents, targets, c.next, Parent(u, c.edge), d + 1);
    QueueGrows(q, nodes, queue, h, d, k);
  }

  lemma SeedsGrow(q: Query, nodes: map<Key, nat>, k: Key, d: nat)
    requires SeedsIn(q, nodes) && k !in nodes
    ensures SeedsIn(q, nodes[k := d])
  {
  }

  lemma SettledGrows(
      q: Query, nodes: map<Key, nat>, queue: seq<QueueEntry>, h: nat, k: Key, d: nat, more: seq<QueueEntry>)
    requires h <= |queue| && Settled(q, nodes, queue, h) && k !in nodes
    ensures Settled(q, nodes[k := d], queue + more, h)
  {
    forall i, v | 0 <= i < h && q.Follows((queue + more)[i].key, v)
      ensures v in nodes[k := d] && nodes[k := d][v] <= (queue + more)[i].distance + 1
    {
      assert (queue + more)[i] == queue[i];
    }
  }

  /** A found node is stored under the key of a seed or of a candidate's target. */
  lemma FoundIsStored(q: Query, nodes: map<Key, nat>, parents: map<Key, Parent>, k: Key)
    requires NodesOk(q, nodes) && ParentsOk(q, nodes, parents) && k in nodes
    ensures q.Stores(k)
  {
    hide Query.Offered, Query.Leads;
    if nodes[k] == 0 {
      var w :| q.WalkTo(w, k) && |w| - 1 == 0;
    } else {
      var r :| r in parents && q.normalize(r) == k;
      assert ParentOk(q, nodes, r, parents[r]);
      var u := parents[r].key;
      var c :| c in q.Offered(u) && q.Leads(c) && c.next == r && c.edge == parents[r].edge;
      assert q.Offers(u, c) by { assert q.InSteps(u, nodes[u]); }
    }
  }

  /** While nothing was refused it also gets its shortest distance, and the search stays open. */
  lemma AdmitStaysOpen(
      q: Query, nodes: map<Key, nat>, queue: seq<QueueEntry>, h: nat, u: Key, d: nat, c: Candidate)
    requires Minimal(q, nodes) && QueueOk(q, nodes, queue, h, d) && Open(q, nodes, queue, h)
    requires u in nodes && nodes[u] == d < q.Depth()
    requires c in q.Offered(u) && q.Leads(c) && q.normalize(c.next) !in nodes
    ensures Minimal(q, nodes[q.normalize(c.next) := d + 1])
    ensures Open(q, nodes[q.normalize(c.next) := d + 1], queue + Enqueued(q, q.normalize(c.next), d + 1), h)
  {
    hide OrderOk, Query.Offered, Query.Shortest, SeedsIn, Settled, Queued;
    var k := q.normalize(c.next);
    assert q.Shortest(k, d + 1) by {
      assert q.Follows(u, k);
      NearestShortest(q, nodes, u);
      NewNodeShortest(q, nodes, queue, h, u, d, k);
    }
    QueuedGrows(q, nodes, queue, k, d + 1);
    SettledGrows(q, nodes, queue, h, k, d + 1, Enqueued(q, k, d + 1));
    SeedsGrow(q, nodes, k, d + 1);
  }

  lemma NearestShortest(q: Query, nodes: map<Key, nat>, u: Key)
    requires Minimal(q, nodes) && u in nodes
    ensures q.InSteps(u, nodes[u])
  {
  }

  // ---- Progress ----

  /** The candidate leads to a node that is not found. */
  ghost predicate Unmet(q: Query, nodes: map<Key, nat>, c: Candidate) {
    && q.Confident(c.edge) && c.next != "" && c.next !in nodes
    && q.normalize(c.next) != "" && q.normalize(c.next) !in nodes
  }

  ghost predicate SeedUnmet(q: Query, nodes: map<Key, nat>, s: Key) {
    q.normalize(s) != "" && q.normalize(s) !in nodes
  }

  ghost predicate SomeSeedUnmet(q: Query, nodes: map<Key, nat>) {
    exists s :: s in q.seeds && SeedUnmet(q, nodes, s)
  }

  ghost predicate SomeUnmet(q: Query, nodes: map<Key, nat>, visited: seq<Candidate>) {
    exists c :: c in visited && Unmet(q, nodes, c)
  }

  /** The node cap is recorded exactly when a seed or the target of a visited candidate is missing, and then it
      is met. */
  ghost predicate RefusalsRecorded(q: Query, nodes: map<Key, nat>, visited: seq<Candidate>, capped: bool) {
    && (capped ==> Full(q, nodes))
    && (capped <==> SomeSeedUnmet(q, nodes) || SomeUnmet(q, nodes, visited))
  }

  /** The candidates of the nodes in `order`, list after list. */
  ghost function Stream(q: Query, order: seq<QueueEntry>): seq<Candidate> {
    if order == [] then [] else Stream(q, order[..|order| - 1]) + q.Offered(order[|order| - 1].key)
  }

  /** The edges of the candidates that the confidence filter keeps. */
  ghost function EdgesOf(q: Query, cs: seq<Candidate>): seq<Edge> {
    if cs == [] then []
    else
      var n := |cs| - 1;
      EdgesOf(q, cs[..n]) + if q.Confident(cs[n].edge) then [cs[n].edge] else []
  }

  ghost function CapKeys(q: Query, edges: seq<Edge>): set<string> {
    set e | e in edges :: q.capKey(e)
  }

  /** Some list was cut to the fanout cap. */
  ghost predicate CutAmong(q: Query, order: seq<QueueEntry>) {
    exists i :: 0 <= i < |order| && q.Offered(order[i].key) != q.candidates(order[i].key)
  }

  ghost predicate DepthCut(q: Query) {
    q.maxDepth.Some? && q.requestedDepth > q.maxDepth.value
  }

  /** The run has not stopped; the nodes in `order` were expanded. */
  ghost predicate Unstopped(q: Query, truncation: set<Cap>, order: seq<QueueEntry>) {
    && truncation * STOP_CAPS == {} && PathsCap !in truncation
    && (DepthCap in truncation <==> DepthCut(q)) && (FanoutCap in truncation <==> CutAmong(q, order))
  }

  /** The entries not yet taken: those before `boundary` are at distance `lvl`, the rest one step beyond. */
  ghost predicate Frontier(queue: seq<QueueEntry>, h: nat, boundary: nat, lvl: nat) {
    && h <= boundary <= |queue|
    && (forall i :: h <= i < boundary ==> queue[i].distance == lvl)
    && (forall i :: boundary <= i < |queue| ==> queue[i].distance == lvl + 1)
  }

  /** What every step keeps.  With keys apart every distance is shortest, and until a node is refused the search
      is open. */
  ghost predicate Sound(q: Query, s: Search, h: nat, lvl: nat) {
    && SearchOk(q, s.nodes, s.parents, s.targets, s.queue, h, lvl)
    && (q.KeysApart() ==>
          Minimal(q, s.nodes) && (NodesCap !in s.truncation ==> Open(q, s.nodes, s.queue, h)))
    && RefusalsRecorded(q, s.nodes, s.visited, NodesCap in s.truncation)
    && |s.nodes| <= |q.seeds| + |s.visited| && SeedsNearest(q, s.nodes)
  }

  ghost predicate SeedsNearest(q: Query, nodes: map<Key, nat>) {
    forall k :: k in nodes && q.IsSeed(k) ==> nodes[k] == 0
  }

  /** At the head of the queue loop: the first `h` entries are expanded. */
  ghost predicate AtHead(q: Query, s: Search, h: nat, boundary: nat, lvl: nat) {
    && Sound(q, s, h, lvl) && Frontier(s.queue, h, boundary, lvl) && lvl <= q.Depth()
    && s.visited == Stream(q, s.queue[..h]) && Unstopped(q, s.truncation, s.queue[..h])
  }

  /** Entry `h` is being expanded, and its first `j` candidates are visited. */
  ghost predicate Amid(q: Query, s: Search, h: nat, boundary: nat, lvl: nat, j: nat) {
    && Sound(q, s, h, lvl) && h < |s.queue| && s.queue[h].distance == lvl <= q.Depth()
    && Frontier(s.queue, h + 1, boundary, lvl)
    && j <= |q.Offered(s.queue[h].key)|
    && s.visited == Stream(q, s.queue[..h]) + q.Offered(s.queue[h].key)[..j]
    && Unstopped(q, s.truncation, s.queue[..h + 1])
  }

  // ---- One candidate ----

  lemma VisitedMore(q: Query, nodes: map<Key, nat>, visited: seq<Candidate>, c: Candidate)
    ensures SomeUnmet(q, nodes, visited + [c]) <==> SomeUnmet(q, nodes, visited) || Unmet(q, nodes, c)
  {
    hide Unmet;
    var more := visited + [c];
    assert forall x :: x in more <==> x in visited || x == c;
  }

  lemma MetStaysMet(q: Query, nodes: map<Key, nat>, visited: seq<Candidate>, k: Key, d: nat)
    requires !SomeSeedUnmet(q, nodes) && !SomeUnmet(q, nodes, visited)
    ensures !SomeSeedUnmet(q, nodes[k := d]) && !SomeUnmet(q, nodes[k := d], visited)
  {
    forall c | c in visited ensures !Unmet(q, nodes[k := d], c) { assert !Unmet(q, nodes, c); }
    forall s | s in q.seeds ensures !SeedUnmet(q, nodes[k := d], s) { assert !SeedUnmet(q, nodes, s); }
  }

  /** Refusals stay recorded when a candidate is dealt with. */
  lemma DealtRecords(q: Query, s: Search, u: QueueEntry, c: Candidate)
    requires RefusalsRecorded(q, s.nodes, s.visited, NodesCap in s.truncation)
    ensures var t := Dealt(q, s, u, c);
            RefusalsRecorded(q, t.nodes, t.visited, NodesCap in t.truncation)
    ensures var t := Dealt(q, s, u, c);
            t.nodes == s.nodes || (Unmet(q, s.nodes, c) && !Full(q, s.nodes) && NodesCap !in s.truncation)
  {
    hide SomeUnmet, SomeSeedUnmet;
    var k, t := q.normalize(c.next), Dealt(q, s, u, c);
    if t.nodes == s.nodes {
      VisitedMore(q, s.nodes, s.visited, c);
    } else {
      MetStaysMet(q, s.nodes, s.visited, k, u.distance + 1);
      VisitedMore(q, t.nodes, s.visited, c);
    }
  }

  lemma NodesCount(nodes: map<Key, nat>, k: Key, d: nat)
    requires k !in nodes
    ensures |nodes[k := d]| == |nodes| + 1
  {
    assert nodes[k := d].Keys == nodes.Keys + {k};
  }

  /** While nothing is refused a new node is no seed. */
  lemma SeedsStayNearest(q: Query, nodes: map<Key, nat>, visited: seq<Candidate>, k: Key, d: nat)
    requires RefusalsRecorded(q, nodes, visited, false) && SeedsNearest(q, nodes) && k !in nodes
    ensures SeedsNearest(q, nodes[k := d])
  {
    hide SomeUnmet, SomeSeedUnmet, Query.IsSeed;
    if q.IsSeed(k) { SeedFound(q, nodes, k); }
  }

  lemma SeedFound(q: Query, nodes: map<Key, nat>, k: Key)
    requires !SomeSeedUnmet(q, nodes) && q.IsSeed(k)
    ensures k in nodes
  {
    var s :| s in q.seeds && q.normalize(s) == k;
    assert !SeedUnmet(q, nodes, s);
  }

  /** The queue only grew, by entries one step beyond `distance`. */
  ghost predicate OneStepOn(before: seq<QueueEntry>, after: seq<QueueEntry>, distance: nat) {
    before <= after && forall i :: |before| <= i < |after| ==> after[i].distance == distance + 1
  }

  /** Dealing with a candidate keeps what every step keeps. */
  lemma DealtKeeps(q: Query, s: Search, h: nat, u: QueueEntry, c: Candidate)
    requires Sound(q, s, h, u.distance) && c in q.Offered(u.key)
    requires u.key in s.nodes && s.nodes[u.key] == u.distance < q.Depth()
    ensures var t := Dealt(q, s, u, c);
            && Sound(q, t, h, u.distance) && OneStepOn(s.queue, t.queue, u.distance)
            && t.truncation in {s.truncation, s.truncation + {NodesCap}}
  {
    hide SearchOk, Minimal, Open, RefusalsRecorded, SeedsNearest, Query.KeysApart, Query.Offered;
    var t := Dealt(q, s, u, c);
    DealtRecords(q, s, u, c);
    if t.nodes != s.nodes {
      var k := q.normalize(c.next);
      AdmittedShape(q, s, h, u, c);
      NodesCount(s.nodes, k, u.distance + 1);
      SeedsStayNearest(q, s.nodes, s.visited, k, u.distance + 1);
      AdmitKeeps(q, s.nodes, s.parents, s.targets, s.queue, h, u.key, u.distance, c);
      if q.KeysApart() {
        QueueOf(q, s, h, u.distance);
        AdmitStaysOpen(q, s.nodes, s.queue, h, u.key, u.distance, c);
      }
    } else {
      UnchangedShape(q, s, u, c);
    }
  }

  lemma QueueOf(q: Query, s: Search, h: nat, lvl: nat)
    requires SearchOk(q, s.nodes, s.parents, s.targets, s.queue, h, lvl)
    ensures QueueOk(q, s.nodes, s.queue, h, lvl)
  {
  }

  lemma UnchangedShape(q: Query, s: Search, u: QueueEntry, c: Candidate)
    requires Dealt(q, s, u, c).nodes == s.nodes
    ensures var t := Dealt(q, s, u, c);
            && t.queue == s.queue && t.parents == s.parents && t.targets == s.targets
            && t.visited == s.visited + [c] && t.truncation in {s.truncation, s.truncation + {NodesCap}}
  {
    var k := q.normalize(c.next);
    assert k !in s.nodes ==> s.nodes[k := u.distance + 1] != s.nodes;
  }

  lemma AdmittedShape(q: Query, s: Search, h: nat, u: QueueEntry, c: Candidate)
    requires Dealt(q, s, u, c).nodes != s.nodes
    ensures var t, k := Dealt(q, s, u, c), q.normalize(c.next);
            && q.Leads(c) && c.next !in s.nodes && k !in s.nodes && !Full(q, s.nodes)
            && t.nodes == s.nodes[k := u.distance + 1] && t.queue == s.queue + Enqueued(q, k, u.distance + 1)
            && t.parents == s.parents[c.next := Parent(u.key, c.edge)]
            && t.targets == (if q.includePaths && c.next !in s.targets then s.targets + [c.next] else s.targets)
            && t.visited == s.visited + [c] && t.truncation == s.truncation
  {
  }

  lemma FrontierStays(a: seq<QueueEntry>, b: seq<QueueEntry>, h: nat, boundary: nat, lvl: nat)
    requires Frontier(a, h, boundary, lvl) && OneStepOn(a, b, lvl)
    ensures Frontier(b, h, boundary, lvl) && forall i :: 0 <= i <= |a| ==> b[..i] == a[..i]
  {
  }

  lemma UnstoppedStays(q: Query, a: set<Cap>, b: set<Cap>, order: seq<QueueEntry>)
    requires Unstopped(q, a, order) && b in {a, a + {NodesCap}}
    ensures Unstopped(q, b, order)
  {
    hide CutAmong, DepthCut;
    assert b * STOP_CAPS == a * STOP_CAPS;
  }

  lemma CurrentFound(q: Query, s: Search, h: nat, lvl: nat)
    requires Sound(q, s, h, lvl) && h < |s.queue|
    ensures var u := s.queue[h]; u.key in s.nodes && s.nodes[u.key] == u.distance < q.Depth()
  {
    hide NodesOk, ParentsOk, TargetsOk, Minimal, Open, RefusalsRecorded, Query.KeysApart;
  }

  /** One more candidate of the entry being expanded. */
  lemma AmidNext(q: Query, s: Search, h: nat, boundary: nat, lvl: nat, j: nat)
    requires Amid(q, s, h, boundary, lvl, j) && j < |q.Offered(s.queue[h].key)|
    ensures var t := Dealt(q, s, s.queue[h], q.Offered(s.queue[h].key)[j]);
            && Amid(q, t, h, boundary, lvl, j + 1) && h < |t.queue| && t.queue[..h + 1] == s.queue[..h + 1]
            && |t.visited| == |s.visited| + 1
  {
    hide Sound, Unstopped, Frontier, Stream, Query.Offered, Admit;
    var u := s.queue[h];
    var cs := q.Offered(u.key);
    var t := Dealt(q, s, u, cs[j]);
    CurrentFound(q, s, h, lvl);
    DealtKeeps(q, s, h, u, cs[j]);
    FrontierStays(s.queue, t.queue, h + 1, boundary, lvl);
    UnstoppedStays(q, s.truncation, t.truncation, s.queue[..h + 1]);
    assert t.queue[h] == u;
    assert cs[..j + 1] == cs[..j] + [cs[j]];
    Associative(Stream(q, s.queue[..h]), cs[..j], [cs[j]]);
  }

  // ---- One entry ----

  lemma CutAmongAppend(q: Query, order: seq<QueueEntry>, u: QueueEntry)
    ensures CutAmong(q, order + [u]) <==> CutAmong(q, order) || q.Offered(u.key) != q.candidates(u.key)
  {
    hide Query.Offered;
    var more := order + [u];
    if CutAmong(q, order) {
      var i :| 0 <= i < |order| && q.Offered(order[i].key) != q.candidates(order[i].key);
      assert more[i] == order[i];
    }
    if q.Offered(u.key) != q.candidates(u.key) { assert more[|order|] == u; }
  }

  lemma StreamAppend(q: Query, order: seq<QueueEntry>, u: QueueEntry)
    ensures Stream(q, order + [u]) == Stream(q, order) + q.Offered(u.key)
  {
    assert (order + [u])[..|order|] == order;
  }

  function FanoutRecord(q: Query, k: Key): set<Cap> {
    if q.Offered(k) == q.candidates(k) then {} else {FanoutCap}
  }

  lemma SoundRecord(q: Query, s: Search, h: nat, lvl: nat, more: set<Cap>)
    requires Sound(q, s, h, lvl) && NodesCap !in more
    ensures Sound(q, s.(truncation := s.truncation + more), h, lvl)
  {
    hide SearchOk, Minimal, Open, RefusalsRecorded, Query.KeysApart;
  }

  /** The next entry is taken, and its list cut. */
  lemma AmidStart(q: Query, s: Search, h: nat, boundary: nat, lvl: nat)
    requires AtHead(q, s, h, boundary, lvl) && h < boundary
    ensures var t := s.(truncation := s.truncation + FanoutRecord(q, s.queue[h].key));
            Amid(q, t, h, boundary, lvl, 0)
  {
    hide Sound, CutAmong, DepthCut, Stream, Query.Offered;
    var u := s.queue[h];
    var t := s.(truncation := s.truncation + FanoutRecord(q, u.key));
    SoundRecord(q, s, h, lvl, FanoutRecord(q, u.key));
    assert s.queue[..h + 1] == s.queue[..h] + [u];
    CutAmongAppend(q, s.queue[..h], u);
    assert t.truncation * STOP_CAPS == s.truncation * STOP_CAPS;
    assert Stream(q, s.queue[..h]) + q.Offered(u.key)[..0] == Stream(q, s.queue[..h]);
  }

  /** With nothing refused and keys apart, the targets of visited candidates are found. */
  lemma VisitedTargetsFound(q: Query, s: Search, h: nat, lvl: nat, u: Key, c: Candidate)
    requires Sound(q, s, h, lvl) && q.KeysApart() && NodesCap !in s.truncation
    requires u in s.nodes && s.nodes[u] < q.Depth() && c in q.Offered(u) && c in s.visited && q.Leads(c)
    ensures q.normalize(c.next) in s.nodes
  {
    hide Minimal, Open, SomeSeedUnmet, TargetsOk, QueueOk, Query.Offered, Query.InSteps, Query.Stores;
    assert !Unmet(q, s.nodes, c);
    if c.next in s.nodes {
      FoundIsStored(q, s.nodes, s.parents, c.next);
      OffersOf(q, s.nodes, u, c);
    }
  }

  lemma OffersOf(q: Query, nodes: map<Key, nat>, u: Key, c: Candidate)
    requires NodesOk(q, nodes) && u in nodes && nodes[u] < q.Depth() && c in q.Offered(u) && q.Leads(c)
    ensures q.Offers(u, c)
  {
    hide Query.Offered, Query.InSteps, Query.Leads;
    assert q.InSteps(u, nodes[u]);
  }

  /** Once all candidates of entry `h` are visited, one more entry is settled. */
  lemma SettleNext(q: Query, nodes: map<Key, nat>, queue: seq<QueueEntry>, h: nat, lvl: nat)
    requires QueueOk(q, nodes, queue, h, lvl) && Open(q, nodes, queue, h) && h < |queue| && queue[h].distance == lvl
    requires forall c :: c in q.Offered(queue[h].key) && q.Leads(c) ==> q.normalize(c.next) in nodes
    ensures Open(q, nodes, queue, h + 1)
  {
    hide OrderOk, Queued, SeedsIn, Query.Offered, Query.Leads;
  }

  lemma QueueTaken(q: Query, nodes: map<Key, nat>, queue: seq<QueueEntry>, h: nat, lvl: nat)
    requires QueueOk(q, nodes, queue, h, lvl) && h < |queue|
    ensures QueueOk(q, nodes, queue, h + 1, lvl)
  {
    hide OrderOk, Queued;
  }

  lemma SoundTaken(q: Query, s: Search, h: nat, lvl: nat)
    requires Sound(q, s, h, lvl) && h < |s.queue| && s.queue[h].distance == lvl
    requires forall c :: c in q.Offered(s.queue[h].key) ==> c in s.visited
    ensures Sound(q, s, h + 1, lvl)
  {
    hide NodesOk, ParentsOk, TargetsOk, QueueOk, Minimal, Open, RefusalsRecorded, Query.KeysApart, Query.Offered;
    hide Query.Leads;
    QueueTaken(q, s.nodes, s.queue, h, lvl);
    if q.KeysApart() && NodesCap !in s.truncation {
      CurrentFound(q, s, h, lvl);
      forall c | c in q.Offered(s.queue[h].key) && q.Leads(c) ensures q.normalize(c.next) in s.nodes {
        VisitedTargetsFound(q, s, h, lvl, s.queue[h].key, c);
      }
      SettleNext(q, s.nodes, s.queue, h, lvl);
    }
  }

  /** The entry being expanded is done. */
  lemma AmidEnd(q: Query, s: Search, h: nat, boundary: nat, lvl: nat, j: nat)
    requires Amid(q, s, h, boundary, lvl, j) && j == |q.Offered(s.queue[h].key)|
    ensures AtHead(q, s, h + 1, boundary, lvl)
  {
    hide Sound, CutAmong, DepthCut, Stream, Query.Offered, Unstopped;
    var u := s.queue[h];
    var cs := q.Offered(u.key);
    assert cs[..j] == cs;
    forall c | c in cs ensures c in s.visited {}
    SoundTaken(q, s, h, lvl);
    assert s.queue[..h + 1] == s.queue[..h] + [u];
    StreamAppend(q, s.queue[..h], u);
  }

  lemma NextLevel(q: Query, s: Search, h: nat, lvl: nat)
    requires Sound(q, s, h, lvl) && forall i :: h <= i < |s.queue| ==> s.queue[i].distance == lvl + 1
    ensures Sound(q, s, h, lvl + 1)
  {
    hide NodesOk, ParentsOk, TargetsOk, OrderOk, Queued, Minimal, Open, RefusalsRecorded, Query.KeysApart;
  }

  /** When the entries at one distance are used up, the next distance begins. */
  lemma EnterLevel(q: Query, s: Search, h: nat, boundary: nat, lvl: nat) returns (boundary': nat, lvl': nat)
    requires AtHead(q, s, h, boundary, lvl) && h < |s.queue|
    ensures AtHead(q, s, h, boundary', lvl') && h < boundary'
    ensures (lvl' == lvl && boundary' == boundary) || lvl' == lvl + 1
  {
    hide Sound, Unstopped, Stream;
    boundary', lvl' := boundary, lvl;
    CurrentFound(q, s, h, lvl);
    if h == boundary {
      NextLevel(q, s, h, lvl);
      boundary', lvl' := |s.queue|, lvl + 1;
    }
  }

  // ---- Seeds ----

  /** The first `n` seeds were added, all at distance 0. */
  ghost predicate SeedsAdded(q: Query, nodes: map<Key, nat>, queue: seq<QueueEntry>, refused: bool, n: nat)
    requires n <= |q.seeds|
  {
    && (forall k :: k in nodes ==> nodes[k] == 0 && q.IsSeed(k))
    && (q.maxNodes.Some? ==> |nodes| <= q.maxNodes.value) && |nodes| <= n
    && OrderOk(q, nodes, queue) && Queued(q, nodes, queue)
    && (refused ==> Full(q, nodes))
    && (refused <==> SeedUnmetBelow(q, nodes, n))
  }

  ghost predicate SeedUnmetBelow(q: Query, nodes: map<Key, nat>, n: nat)
    requires n <= |q.seeds|
  {
    exists i :: 0 <= i < n && SeedUnmet(q, nodes, q.seeds[i])
  }

  lemma NoSeedsYet(q: Query)
    ensures SeedsAdded(q, map[], [], false, 0)
  {
  }

  lemma IsSeedBy(q: Query, n: nat)
    requires n < |q.seeds| && q.normalize(q.seeds[n]) != ""
    ensures q.IsSeed(q.normalize(q.seeds[n]))
  {
  }

  lemma SeedsMet(q: Query, nodes: map<Key, nat>, n: nat, k: Key)
    requires n <= |q.seeds| && !SeedUnmetBelow(q, nodes, n)
    ensures !SeedUnmetBelow(q, nodes[k := 0], n)
  {
    forall i | 0 <= i < n ensures !SeedUnmet(q, nodes[k := 0], q.seeds[i]) {
      assert !SeedUnmet(q, nodes, q.seeds[i]);
    }
  }

  lemma SeedsBelowNext(q: Query, nodes: map<Key, nat>, n: nat)
    requires n < |q.seeds|
    ensures SeedUnmetBelow(q, nodes, n + 1) <==> SeedUnmetBelow(q, nodes, n) || SeedUnmet(q, nodes, q.seeds[n])
  {
    hide SeedUnmet;
  }

  lemma SeedAdmitted(q: Query, nodes: map<Key, nat>, queue: seq<QueueEntry>, refused: bool, n: nat)
    requires n < |q.seeds| && SeedsAdded(q, nodes, queue, refused, n)
    requires SeedUnmet(q, nodes, q.seeds[n]) && !Full(q, nodes)
    ensures var k := q.normalize(q.seeds[n]);
            SeedsAdded(q, nodes[k := 0], queue + Enqueued(q, k, 0), refused, n + 1)
  {
    hide SeedUnmetBelow, OrderOk, Queued, Query.IsSeed;
    var k := q.normalize(q.seeds[n]);
    NodesCount(nodes, k, 0);
    IsSeedBy(q, n);
    OrderGrows(q, nodes, queue, k, 0);
    QueuedGrows(q, nodes, queue, k, 0);
    SeedsMet(q, nodes, n, k);
    SeedsBelowNext(q, nodes[k := 0], n);
  }

  lemma SeedNotAdmitted(q: Query, nodes: map<Key, nat>, queue: seq<QueueEntry>, refused: bool, n: nat)
    requires n < |q.seeds| && SeedsAdded(q, nodes, queue, refused, n)
    ensures !SeedUnmet(q, nodes, q.seeds[n]) ==> SeedsAdded(q, nodes, queue, refused, n + 1)
    ensures SeedUnmet(q, nodes, q.seeds[n]) && Full(q, nodes) ==> SeedsAdded(q, nodes, queue, true, n + 1)
  {
    hide SeedUnmetBelow, SeedUnmet, OrderOk, Queued, Query.IsSeed;
    SeedsBelowNext(q, nodes, n);
  }

  lemma SeedsRecorded(q: Query, nodes: map<Key, nat>, queue: seq<QueueEntry>, refused: bool)
    requires SeedsAdded(q, nodes, queue, refused, |q.seeds|)
    ensures RefusalsRecorded(q, nodes, [], refused)
  {
    hide SeedUnmet, OrderOk, Queued, Query.IsSeed;
    assert SeedUnmetBelow(q, nodes, |q.seeds|) <==> SomeSeedUnmet(q, nodes);
  }

  lemma SeedsSearchOk(q: Query, nodes: map<Key, nat>, queue: seq<QueueEntry>, refused: bool)
    requires SeedsAdded(q, nodes, queue, refused, |q.seeds|)
    ensures SearchOk(q, nodes, map[], [], queue, 0, 0) && Minimal(q, nodes)
    ensures !refused ==> Open(q, nodes, queue, 0)
  {
    hide SeedUnmet, OrderOk, Queued, Query.Shortest;
    forall k | k in nodes ensures q.Shortest(k, nodes[k]) { SeedShortest(q, k); }
    NearestIn(q, nodes);
    assert NonSeeds(nodes) == {};
    if !refused {
      forall k | q.IsSeed(k) ensures k in nodes && nodes[k] == 0 { SeedIn(q, nodes, k); }
    }
  }

  lemma NearestIn(q: Query, nodes: map<Key, nat>)
    requires Minimal(q, nodes)
    ensures forall k :: k in nodes ==> q.InSteps(k, nodes[k])
  {
  }

  lemma SeedIn(q: Query, nodes: map<Key, nat>, k: Key)
    requires !SeedUnmetBelow(q, nodes, |q.seeds|) && q.IsSeed(k)
    ensures k in nodes
  {
    var s :| s in q.seeds && q.normalize(s) == k;
    var i :| 0 <= i < |q.seeds| && q.seeds[i] == s;
    assert !SeedUnmet(q, nodes, q.seeds[i]);
  }

  lemma SeedsShape(q: Query, nodes: map<Key, nat>, queue: seq<QueueEntry>, refused: bool)
    requires SeedsAdded(q, nodes, queue, refused, |q.seeds|)
    ensures forall i :: 0 <= i < |queue| ==> queue[i].distance == 0
    ensures SeedsNearest(q, nodes) && |nodes| <= |q.seeds|
  {
  }

  /** The seeds alone: the queue loop begins. */
  lemma SeedsAtHead(q: Query, nodes: map<Key, nat>, queue: seq<QueueEntry>, truncation: set<Cap>)
    requires SeedsAdded(q, nodes, queue, NodesCap in truncation, |q.seeds|)
    requires truncation <= {DepthCap, NodesCap} && (DepthCap in truncation <==> DepthCut(q))
    ensures AtHead(q, Search(nodes, map[], [], queue, [], truncation), 0, |queue|, 0)
  {
    hide SearchOk, Minimal, Open, RefusalsRecorded, DepthCut, OrderOk, Queued, SeedUnmetBelow, Query.KeysApart;
    SeedsSearchOk(q, nodes, queue, NodesCap in truncation);
    SeedsRecorded(q, nodes, queue, NodesCap in truncation);
    SeedsShape(q, nodes, queue, NodesCap in truncation);
    assert queue[..0] == [];
  }
}
