/** Witness paths: src/graph/neighborhood.js:339-360 and 640-655. */
module WitnessPaths {
  import opened Wrappers
  import opened Ordering
  import opened Reachability
  import opened SearchInvariants
  import opened SearchOutcome

  const MAX_PATH_STEPS: nat := 5000

  datatype WitnessPath = WitnessPath(to: Key, distance: nat, nodes: seq<Key>, edges: seq<Edge>)

  // ---- The walk ----

  /** Parent links followed from `cursor` for at most `steps` steps: the found nodes met and the edges taken. */
  datatype Walked = Walked(nodes: seq<Key>, edges: seq<Edge>)

  function Back(nodes: map<Key, nat>, parents: map<Key, Parent>, cursor: Key, steps: nat): Walked
    decreases steps
  {
    if cursor == "" || steps == 0 then Walked([], [])
    else
      var here := if cursor in nodes then [cursor] else [];
      if cursor !in parents then Walked(here, [])
      else
        var rest := Back(nodes, parents, parents[cursor].key, steps - 1);
        Walked(here + rest.nodes, [parents[cursor].edge] + rest.edges)
  }

  function Reversed<T>(s: seq<T>): seq<T> {
    seq(|s|, i requires 0 <= i < |s| => s[|s| - 1 - i])
  }

  lemma ReversedTwice<T>(s: seq<T>)
    ensures Reversed(Reversed(s)) == s
  {
  }

  /** The path to `key`: the walk back from it, reversed. */
  function PathTo(nodes: map<Key, nat>, parents: map<Key, Parent>, key: Key): WitnessPath {
    var back := Back(nodes, parents, key, MAX_PATH_STEPS);
    WitnessPath(key, Max(0, |back.nodes| - 1), Reversed(back.nodes), Reversed(back.edges))
  }

  /** Paths to the targets that are found nodes. */
  function PathsTo(nodes: map<Key, nat>, parents: map<Key, Parent>, targets: seq<Key>): seq<WitnessPath> {
    if targets == [] then []
    else
      var n := |targets| - 1;
      PathsTo(nodes, parents, targets[..n]) + if targets[n] in nodes then [PathTo(nodes, parents, targets[n])] else []
  }

  lemma PathsToAppend(nodes: map<Key, nat>, parents: map<Key, Parent>, targets: seq<Key>, k: Key)
    ensures PathsTo(nodes, parents, targets + [k])
         == PathsTo(nodes, parents, targets) + if k in nodes then [PathTo(nodes, parents, k)] else []
  {
    hide PathTo;
    assert (targets + [k])[..|targets|] == targets;
  }

  // ---- What a path should be ----

  /** `e` is an edge `u` offers to `v`, naming it by the key it is stored under. */
  ghost predicate Linked(q: Query, u: Key, e: Edge, v: Key) {
    exists c :: c in q.Offered(u) && q.Leads(c) && c.next == v && q.normalize(v) == v && c.edge == e
  }

  ghost predicate LinkedFrom(q: Query, nodes: map<Key, nat>, e: Edge, v: Key) {
    exists u :: u in nodes && v in nodes && nodes[u] + 1 == nodes[v] && Linked(q, u, e, v)
  }

  /** A true walk back from `key`: one step nearer each time, each step over an edge offered to the node behind
      it, to distance 0 unless the step limit cuts it. */
  ghost predicate BackOk(q: Query, nodes: map<Key, nat>, key: Key, w: Walked, steps: nat) {
    && key in nodes && |w.nodes| == Min(nodes[key] + 1, steps) && |w.edges| == Min(nodes[key], steps)
    && (steps > 0 ==> w.nodes[0] == key)
    && (forall i :: 0 <= i < |w.nodes| ==> w.nodes[i] in nodes && nodes[w.nodes[i]] == nodes[key] - i)
    && (forall i :: 0 <= i < |w.nodes| - 1 ==> Linked(q, w.nodes[i + 1], w.edges[i], w.nodes[i]))
    && (|w.edges| == |w.nodes| > 0 ==> LinkedFrom(q, nodes, w.edges[|w.edges| - 1], w.nodes[|w.nodes| - 1]))
  }

  /** A true path from a seed to `p.to`, as long as its distance unless the step limit cuts it. */
  ghost predicate WitnessOk(q: Query, nodes: map<Key, nat>, p: WitnessPath) {
    p.distance == |p.nodes| - 1 && BackOk(q, nodes, p.to, Walked(Reversed(p.nodes), Reversed(p.edges)), 5000)
  }

  /** Every node but a seed on the parent chain of `k` was entered by its own key, for `steps` steps. */
  ghost predicate OwnChain(q: Query, nodes: map<Key, nat>, parents: map<Key, Parent>, k: Key, steps: nat)
    decreases steps
  {
    && k in nodes
    && (steps == 0 || nodes[k] == 0
        || (k in parents && q.normalize(k) == k && OwnChain(q, nodes, parents, parents[k].key, steps - 1)))
  }

  lemma ParentLink(q: Query, nodes: map<Key, nat>, parents: map<Key, Parent>, k: Key)
    requires ParentsOk(q, nodes, parents) && k in parents
    ensures var p := parents[k];
            && p.key in nodes && (k in nodes ==> nodes[k] > 0)
            && (q.normalize(k) == k ==> k in nodes && nodes[k] == nodes[p.key] + 1 && Linked(q, p.key, p.edge, k))
  {
    hide Query.Offered, Query.Leads;
    assert ParentOk(q, nodes, k, parents[k]);
  }

  lemma BackOfSeed(q: Query, nodes: map<Key, nat>, parents: map<Key, Parent>, k: Key, steps: nat)
    requires ParentsOk(q, nodes, parents) && k in nodes && nodes[k] == 0 && k != "" && steps > 0
    ensures Back(nodes, parents, k, steps) == Walked([k], []) && BackOk(q, nodes, k, Walked([k], []), steps)
  {
    hide ParentsOk;
    if k in parents { ParentLink(q, nodes, parents, k); }
  }

  lemma BackHead(nodes: map<Key, nat>, parents: map<Key, Parent>, k: Key, steps: nat)
    requires k in nodes && k != "" && steps > 0
    ensures var b := Back(nodes, parents, k, steps);
            && b.nodes != [] && b.nodes[0] == k
            && (k !in parents ==> b == Walked([k], []))
            && (k in parents ==>
                  var rest := Back(nodes, parents, parents[k].key, steps - 1);
                  b == Walked([k] + rest.nodes, [parents[k].edge] + rest.edges))
  {
  }

  /** A true walk goes on from the node before. */
  lemma BackExtends(q: Query, nodes: map<Key, nat>, k: Key, u: Key, e: Edge, w: Walked, steps: nat)
    requires steps > 0 && k in nodes && u in nodes && nodes[k] == nodes[u] + 1 && Linked(q, u, e, k)
    requires BackOk(q, nodes, u, w, steps - 1)
    ensures BackOk(q, nodes, k, Walked([k] + w.nodes, [e] + w.edges), steps)
  {
    hide Linked;
    var l := Walked([k] + w.nodes, [e] + w.edges);
    forall i | 0 <= i < |l.nodes| ensures l.nodes[i] in nodes && nodes[l.nodes[i]] == nodes[k] - i {
      if i > 0 { assert l.nodes[i] == w.nodes[i - 1]; }
    }
    forall i | 0 <= i < |l.nodes| - 1 ensures Linked(q, l.nodes[i + 1], l.edges[i], l.nodes[i]) {
      if i > 0 { assert l.edges[i] == w.edges[i - 1] && l.nodes[i] == w.nodes[i - 1]; }
    }
  }

  lemma BackShrinks(q: Query, nodes: map<Key, nat>, k: Key, u: Key, e: Edge, w: Walked, steps: nat)
    requires steps > 0 && BackOk(q, nodes, k, Walked([k] + w.nodes, [e] + w.edges), steps) && nodes[k] > 0
    requires u in nodes && (steps > 1 ==> w.nodes != [] && w.nodes[0] == u)
    ensures LinkedFrom(q, nodes, e, k)
    ensures steps > 1 ==> nodes[k] == nodes[u] + 1
    ensures steps > 1 ==> BackOk(q, nodes, u, w, steps - 1)
  {
    hide Linked;
    var l := Walked([k] + w.nodes, [e] + w.edges);
    if steps > 1 {
      assert l.nodes[1] == u && l.edges[0] == e && l.nodes[0] == k;
      forall i | 0 <= i < |w.nodes| ensures w.nodes[i] in nodes && nodes[w.nodes[i]] == nodes[u] - i {
        assert l.nodes[i + 1] == w.nodes[i];
      }
      forall i | 0 <= i < |w.nodes| - 1 ensures Linked(q, w.nodes[i + 1], w.edges[i], w.nodes[i]) {
        assert l.nodes[i + 2] == w.nodes[i + 1] && l.edges[i + 1] == w.edges[i] && l.nodes[i + 1] == w.nodes[i];
      }
    }
  }

  /** The walk back from a found node is a true one exactly when every node on it but a seed was entered by its
      own key. */
  lemma {:induction false} ChainExact(q: Query, nodes: map<Key, nat>, parents: map<Key, Parent>, k: Key, steps: nat)
    requires NodesOk(q, nodes) && ParentsOk(q, nodes, parents) && k in nodes
    ensures BackOk(q, nodes, k, Back(nodes, parents, k, steps), steps) <==> OwnChain(q, nodes, parents, k, steps)
    decreases steps
  {
    hide ParentsOk, BackOk, Linked, LinkedFrom, Query.InSteps, Query.Depth;
    if steps == 0 {
      NoSteps(q, nodes, parents, k);
    } else if nodes[k] == 0 {
      BackOfSeed(q, nodes, parents, k, steps);
    } else {
      BackHead(nodes, parents, k, steps);
      if k !in parents {
        ShortWalk(q, nodes, k, Walked([k], []), steps);
      } else {
        var p := parents[k];
        var rest := Back(nodes, parents, p.key, steps - 1);
        ParentLink(q, nodes, parents, k);
        ChainExact(q, nodes, parents, p.key, steps - 1);
        if OwnChain(q, nodes, parents, k, steps) {
          BackExtends(q, nodes, k, p.key, p.edge, rest, steps);
        }
        if BackOk(q, nodes, k, Walked([k] + rest.nodes, [p.edge] + rest.edges), steps) {
          if steps > 1 { BackHead(nodes, parents, p.key, steps - 1); }
          BackShrinks(q, nodes, k, p.key, p.edge, rest, steps);
          LinkNames(q, nodes, p.edge, k);
        }
      }
    }
  }

  lemma NoSteps(q: Query, nodes: map<Key, nat>, parents: map<Key, Parent>, k: Key)
    requires k in nodes
    ensures BackOk(q, nodes, k, Back(nodes, parents, k, 0), 0)
  {
  }

  lemma ShortWalk(q: Query, nodes: map<Key, nat>, k: Key, w: Walked, steps: nat)
    requires k in nodes && nodes[k] > 0 && steps > 0 && w.edges == []
    ensures !BackOk(q, nodes, k, w, steps)
  {
  }

  lemma LinkNames(q: Query, nodes: map<Key, nat>, e: Edge, k: Key)
    requires LinkedFrom(q, nodes, e, k)
    ensures q.normalize(k) == k
  {
  }

  /** So the path built for a found node is a true witness exactly when every node but a seed on its parent chain
      was entered by its own key. */
  lemma PathExact(q: Query, nodes: map<Key, nat>, parents: map<Key, Parent>, k: Key)
    requires NodesOk(q, nodes) && ParentsOk(q, nodes, parents) && k in nodes
    ensures WitnessOk(q, nodes, PathTo(nodes, parents, k)) <==> OwnChain(q, nodes, parents, k, MAX_PATH_STEPS)
  {
    hide ParentsOk, BackOk, OwnChain, Back, Query.InSteps, Query.Depth;
    var b := Back(nodes, parents, k, MAX_PATH_STEPS);
    ReversedTwice(b.nodes);
    ReversedTwice(b.edges);
    ChainExact(q, nodes, parents, k, MAX_PATH_STEPS);
    BackHead(nodes, parents, k, MAX_PATH_STEPS);
  }

  // ---- The paths of a run ----

  function KeptTargets(q: Query, targets: seq<Key>): seq<Key> {
    if q.maxPaths.Some? && |targets| > q.maxPaths.value then targets[..q.maxPaths.value] else targets
  }

  /** The cap on paths is recorded exactly when there are more found nodes beyond the seeds. */
  ghost predicate PathsCut(q: Query, nodes: map<Key, nat>) {
    q.includePaths && q.maxPaths.Some? && |NonSeeds(nodes)| > q.maxPaths.value
  }

  ghost predicate PathsFrom(
    q: Query, nodes: map<Key, nat>, parents: map<Key, Parent>, targets: seq<Key>, paths: seq<WitnessPath>)
  {
    && Traced(q, nodes, parents, targets)
    && paths == if q.includePaths then PathsTo(nodes, parents, KeptTargets(q, targets)) else []
  }

  ghost predicate HasPath(paths: seq<WitnessPath>, k: Key) {
    exists i :: 0 <= i < |paths| && paths[i].to == k
  }

  /** Every candidate that leads to `k` names it by the key it is stored under. */
  ghost predicate OwnNamed(q: Query, k: Key) {
    forall u, c :: q.Offers(u, c) && q.normalize(c.next) == k ==> c.next == k
  }

  /** All nodes up to distance `d` but the seeds are named by their own keys. */
  ghost predicate OwnNamedTo(q: Query, nodes: map<Key, nat>, d: nat) {
    forall k :: k in nodes && 0 < nodes[k] <= d ==> OwnNamed(q, k)
  }

  lemma OwnEntered(q: Query, nodes: map<Key, nat>, parents: map<Key, Parent>, k: Key)
    requires NodesOk(q, nodes) && ParentsOk(q, nodes, parents) && k in nodes && nodes[k] > 0 && OwnNamed(q, k)
    ensures k in parents && q.normalize(k) == k && parents[k].key in nodes && nodes[parents[k].key] + 1 == nodes[k]
  {
    hide Query.Offered, Query.Leads, Query.InSteps, Query.Offers;
    var r :| r in parents && q.normalize(r) == k;
    assert ParentOk(q, nodes, r, parents[r]);
    var u := parents[r].key;
    var c :| c in q.Offered(u) && q.Leads(c) && c.next == r && c.edge == parents[r].edge;
    OffersOf(q, nodes, u, c);
  }

  /** A target's path depends on the names of nearer nodes only: if those are their own keys, the chain is. */
  lemma {:induction false} OwnNamedChain(
      q: Query, nodes: map<Key, nat>, parents: map<Key, Parent>, k: Key, steps: nat)
    requires NodesOk(q, nodes) && ParentsOk(q, nodes, parents) && k in nodes && OwnNamedTo(q, nodes, nodes[k])
    ensures OwnChain(q, nodes, parents, k, steps)
    decreases steps
  {
    hide NodesOk, ParentsOk, OwnNamed;
    if steps > 0 && nodes[k] > 0 {
      OwnEntered(q, nodes, parents, k);
      OwnNamedChain(q, nodes, parents, parents[k].key, steps - 1);
    }
  }

  /** Paths go to the kept targets that are found nodes, in that order. */
  lemma {:induction false} PathsToTargets(
      nodes: map<Key, nat>, parents: map<Key, Parent>, targets: seq<Key>, p: WitnessPath)
    ensures p in PathsTo(nodes, parents, targets)
            <==> p.to in targets && p.to in nodes && p == PathTo(nodes, parents, p.to)
  {
    hide PathTo;
    if targets != [] {
      var n := |targets| - 1;
      PathsToTargets(nodes, parents, targets[..n], p);
      assert targets == targets[..n] + [targets[n]];
      PathToGoes(nodes, parents, targets[n]);
    }
  }

  lemma PathToGoes(nodes: map<Key, nat>, parents: map<Key, Parent>, k: Key)
    ensures PathTo(nodes, parents, k).to == k
  {
  }

  lemma HasPathOf(nodes: map<Key, nat>, parents: map<Key, Parent>, targets: seq<Key>, k: Key)
    ensures HasPath(PathsTo(nodes, parents, targets), k) <==> k in targets && k in nodes
  {
    hide PathTo;
    var paths := PathsTo(nodes, parents, targets);
    PathToGoes(nodes, parents, k);
    PathsToTargets(nodes, parents, targets, PathTo(nodes, parents, k));
    if HasPath(paths, k) {
      var i :| 0 <= i < |paths| && paths[i].to == k;
      PathsToTargets(nodes, parents, targets, paths[i]);
    }
  }

  /** Every path goes to a found node beyond the seeds, and is a true witness exactly when its chain was entered
      by its own keys. */
  lemma PathsExact(
      q: Query, nodes: map<Key, nat>, parents: map<Key, Parent>, targets: seq<Key>, paths: seq<WitnessPath>,
      p: WitnessPath)
    requires PathsFrom(q, nodes, parents, targets, paths) && p in paths
    ensures p.to in nodes && nodes[p.to] > 0 && p.to in parents
    ensures WitnessOk(q, nodes, p) <==> OwnChain(q, nodes, parents, p.to, MAX_PATH_STEPS)
  {
    hide NodesOk, ParentsOk, WitnessOk, OwnChain, PathTo;
    PathsToTargets(nodes, parents, KeptTargets(q, targets), p);
    assert p.to in targets;
    ParentLink(q, nodes, parents, p.to);
    PathExact(q, nodes, parents, p.to);
  }

  /** A found node named by its own key, and only after nodes so named, has a true path unless the cap on paths
      dropped it. */
  lemma OwnNamedHasPath(
      q: Query, nodes: map<Key, nat>, parents: map<Key, Parent>, targets: seq<Key>, paths: seq<WitnessPath>, k: Key)
    requires PathsFrom(q, nodes, parents, targets, paths) && q.includePaths
    requires k in nodes && nodes[k] > 0 && OwnNamedTo(q, nodes, nodes[k])
    ensures !PathsCut(q, nodes) ==> HasPath(paths, k)
    ensures forall p :: p in paths && p.to == k ==> WitnessOk(q, nodes, p)
  {
    hide NodesOk, ParentsOk, WitnessOk, OwnChain, OwnNamed, PathTo;
    OwnEntered(q, nodes, parents, k);
    OwnNamedChain(q, nodes, parents, k, MAX_PATH_STEPS);
    HasPathOf(nodes, parents, KeptTargets(q, targets), k);
    forall p | p in paths && p.to == k ensures WitnessOk(q, nodes, p) {
      PathsExact(q, nodes, parents, targets, paths, p);
    }
  }

  lemma NormalizedOwnNamed(q: Query, nodes: map<Key, nat>, d: nat)
    requires q.Normalized()
    ensures OwnNamedTo(q, nodes, d)
  {
    hide Query.Offers;
  }

  /** True paths, one for each found node but the seeds unless capped, and the cap keeps the nearest. */
  ghost predicate PathsOk(q: Query, nodes: map<Key, nat>, paths: seq<WitnessPath>) {
    && (forall p :: p in paths ==> WitnessOk(q, nodes, p) && nodes[p.to] > 0)
    && (forall i, j :: 0 <= i < j < |paths| ==> paths[i].to != paths[j].to)
    && (if PathsCut(q, nodes) then |paths| == q.maxPaths.value
        else forall k :: k in nodes && nodes[k] > 0 ==> HasPath(paths, k))
    && (forall p, k :: p in paths && k in nodes && nodes[k] > 0 && !HasPath(paths, k) ==> nodes[p.to] <= nodes[k])
  }

  lemma {:induction false} PathsToAll(nodes: map<Key, nat>, parents: map<Key, Parent>, targets: seq<Key>)
    requires forall r :: r in targets ==> r in nodes
    ensures |PathsTo(nodes, parents, targets)| == |targets|
    ensures forall i :: 0 <= i < |targets| ==> PathsTo(nodes, parents, targets)[i].to == targets[i]
  {
    hide PathTo;
    if targets != [] {
      var n := |targets| - 1;
      PathsToAll(nodes, parents, targets[..n]);
      PathToGoes(nodes, parents, targets[n]);
    }
  }

  /** With normalized candidates targets are exactly the found nodes beyond the seeds, nearest first. */
  lemma TargetsAreNonSeeds(q: Query, nodes: map<Key, nat>, parents: map<Key, Parent>, targets: seq<Key>)
    requires Traced(q, nodes, parents, targets) && q.Normalized() && q.includePaths
    ensures forall k :: k in targets <==> k in nodes && nodes[k] > 0
    ensures forall a, b :: 0 <= a < b < |targets| ==>
              targets[a] != targets[b] && nodes[targets[a]] <= nodes[targets[b]]
  {
    hide NodesOk, ParentsOk, Query.Normalized, OwnNamed;
    forall k ensures k in targets <==> k in nodes && nodes[k] > 0 {
      if k in nodes && nodes[k] > 0 {
        NormalizedOwnNamed(q, nodes, nodes[k]);
        OwnEntered(q, nodes, parents, k);
      }
      if k in targets { NormalizedParent(q, nodes, parents, k); }
    }
    forall k | k in targets ensures q.normalize(k) == k { NormalizedParent(q, nodes, parents, k); }
  }

  lemma NormalizedParent(q: Query, nodes: map<Key, nat>, parents: map<Key, Parent>, r: Key)
    requires NodesOk(q, nodes) && ParentsOk(q, nodes, parents) && q.Normalized() && r in parents
    ensures q.normalize(r) == r && r in nodes && nodes[r] > 0
  {
    hide Query.Offered, Query.Leads, Query.InSteps, Query.Offers;
    assert ParentOk(q, nodes, r, parents[r]);
    var u := parents[r].key;
    var c :| c in q.Offered(u) && q.Leads(c) && c.next == r && c.edge == parents[r].edge;
    OffersOf(q, nodes, u, c);
  }

  lemma AllPathsTrue(
      q: Query, nodes: map<Key, nat>, parents: map<Key, Parent>, targets: seq<Key>, paths: seq<WitnessPath>)
    requires PathsFrom(q, nodes, parents, targets, paths) && q.Normalized() && q.includePaths
    ensures forall p :: p in paths ==> p.to in nodes && nodes[p.to] > 0 && WitnessOk(q, nodes, p)
  {
    hide PathsFrom, WitnessOk, OwnChain, Query.Normalized;
    forall p | p in paths ensures p.to in nodes && nodes[p.to] > 0 && WitnessOk(q, nodes, p) {
      PathsExact(q, nodes, parents, targets, paths, p);
      NormalizedOwnNamed(q, nodes, nodes[p.to]);
      OwnNamedHasPath(q, nodes, parents, targets, paths, p.to);
    }
  }

  /** The cap on paths drops no target nearer than one it keeps. */
  lemma DroppedAreFarther(
      q: Query, nodes: map<Key, nat>, parents: map<Key, Parent>, targets: seq<Key>, paths: seq<WitnessPath>, k: Key)
    requires PathsFrom(q, nodes, parents, targets, paths) && q.Normalized() && q.includePaths
    requires k in nodes && nodes[k] > 0 && !HasPath(paths, k)
    ensures PathsCut(q, nodes) && forall p :: p in paths ==> p.to in nodes && nodes[p.to] <= nodes[k]
  {
    hide NodesOk, ParentsOk, PathTo, PathsTo, HasPath, KeptTargets, Query.Normalized;
    var kept := KeptTargets(q, targets);
    TargetsAreNonSeeds(q, nodes, parents, targets);
    HasPathOf(nodes, parents, kept, k);
    var b :| 0 <= b < |targets| && targets[b] == k;
    KeptBefore(q, targets, b);
    forall p | p in paths ensures p.to in nodes && nodes[p.to] <= nodes[k] {
      PathsToTargets(nodes, parents, kept, p);
      var i :| 0 <= i < |kept| && kept[i] == p.to;
      KeptPrefix(q, targets);
      assert targets[i] == p.to && p.to in targets;
    }
  }

  lemma KeptPrefix(q: Query, targets: seq<Key>)
    ensures KeptTargets(q, targets) <= targets
  {
  }

  /** With normalized candidates the paths of a run are as they should be. */
  lemma PathsOfTargets(
      q: Query, nodes: map<Key, nat>, parents: map<Key, Parent>, targets: seq<Key>, paths: seq<WitnessPath>)
    requires PathsFrom(q, nodes, parents, targets, paths) && q.Normalized() && q.includePaths
    ensures PathsOk(q, nodes, paths)
  {
    hide NodesOk, ParentsOk, WitnessOk, PathTo, PathsTo, HasPath, Query.Normalized;
    var kept := KeptTargets(q, targets);
    TargetsAreNonSeeds(q, nodes, parents, targets);
    PathsToAll(nodes, parents, kept);
    AllPathsTrue(q, nodes, parents, targets, paths);
    forall k | k in nodes && nodes[k] > 0 && !HasPath(paths, k)
      ensures PathsCut(q, nodes) && forall p :: p in paths ==> nodes[p.to] <= nodes[k]
    {
      DroppedAreFarther(q, nodes, parents, targets, paths, k);
    }
  }

  lemma KeptBefore(q: Query, targets: seq<Key>, b: nat)
    requires b < |targets|
    ensures b < |KeptTargets(q, targets)| ==> targets[b] in KeptTargets(q, targets)
    ensures b >= |KeptTargets(q, targets)| ==> q.maxPaths.Some? && |targets| > q.maxPaths.value
  {
    assert b < |KeptTargets(q, targets)| ==> KeptTargets(q, targets)[b] == targets[b];
  }
}
