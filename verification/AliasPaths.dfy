/** Witness paths of nodes named by other keys than their own: what src/graph/neighborhood.js:586-598 and 640-653 get
    wrong when a candidate's key is not normal, and exactly when. */
module AliasPaths {
  import opened Wrappers
  import opened Ordering
  import opened Reachability
  import opened SearchInvariants
  import opened SearchOutcome
  import opened WitnessPaths
  import opened WorkBudgets
  import opened Neighborhood
  import opened Refs
  import opened StoredKeys

  // ---- Missing paths ----

  /** An edge from chunk a to a reference written `x`. */
  function Mention(x: Key): Candidate {
    Candidate(Edge("symbolEdges", "chunk:a", "symbol", x, None, false), x)
  }

  /** Chunk a mentions `x`; files have the given imports. */
  function Mentioning(root: Root, x: Key, imports: Imports, depth: nat): Query {
    OneSeed("chunk:a", k => if k == "chunk:a" then [Mention(x)] else ImportCandidates(root, imports, k),
          Normalizer(root), depth)
  }

  lemma MentioningIs(root: Root, x: Key, imports: Imports, depth: nat)
    ensures var q := Mentioning(root, x, imports, depth);
            && q.Depth() == depth && q.includePaths && q.Uncapped() && q.minConfidence.None? && q.seeds == ["chunk:a"]
            && q.normalize == Normalizer(root) && q.Offered("chunk:a") == [Mention(x)]
            && (forall k :: k != "chunk:a" ==> q.Offered(k) == ImportCandidates(root, imports, k))
            && (ImportLists(root, imports) ==> Receivable(root, q))
            && q.normalize("chunk:a") == "chunk:a" && q.IsSeed("chunk:a") && forall k :: q.IsSeed(k) ==> k == "chunk:a"
  {
    hide ImportCandidates, ImportLists, NormalizeKey;
    var q := Mentioning(root, x, imports, depth);
    NormalizedKind(root, "chunk:a");
    ChunkKey("chunk:a");
    assert "chunk:a" in q.seeds;
  }

  lemma ChunkKey(k: Key)
    ensures "file:" <= k ==> k != "" && k != "chunk:a"
  {
    assert "file:"[0] == 'f';
  }

  /** Chunk a mentions the file or other node written `x`, and there are no imports. */
  function Alias(root: Root, x: Key): Query {
    Mentioning(root, x, _ => [], 1)
  }

  lemma AliasOffers(root: Root, x: Key)
    requires x !in {"", "chunk:a"}
    ensures var q, y := Alias(root, x), NormalizeKey(root, x);
            && q.Depth() == 1 && q.includePaths && q.Uncapped() && q.minConfidence.None? && q.seeds == ["chunk:a"]
            && q.normalize == Normalizer(root) && q.Offered("chunk:a") == [Mention(x)] && Receivable(root, q)
            && (forall u :: u != "chunk:a" ==> q.Offered(u) == [])
            && y !in {"", "chunk:a"} && q.normalize("chunk:a") == "chunk:a"
            && q.IsSeed("chunk:a") && (forall k :: q.IsSeed(k) ==> k == "chunk:a")
  {
    hide NormalizeKey, Mentioning, Query.Offered, Receivable;
    MentioningIs(root, x, _ => [], 1);
    NormalizedKind(root, x);
    ChunkKey(x);
    ChunkKey(NormalizeKey(root, x));
  }

  lemma AliasFollows(root: Root, x: Key)
    requires x !in {"", "chunk:a"}
    ensures var q, y := Alias(root, x), NormalizeKey(root, x);
            q.Follows("chunk:a", y) && q.InSteps("chunk:a", 0) && q.InSteps(y, 1)
  {
    hide Alias, NormalizeKey, Query.Offered, Query.InSteps, Query.Follows;
    var q, y := Alias(root, x), NormalizeKey(root, x);
    AliasOffers(root, x);
    FollowsBy(q, "chunk:a", [Mention(x)], Mention(x));
    SeedSteps(q, "chunk:a");
    StepExtends(q, "chunk:a", 0, y);
  }

  lemma AliasShape(root: Root, x: Key, u: Key, c: Candidate)
    requires x !in {"", "chunk:a"}
    ensures Alias(root, x).Offers(u, c) ==> u == "chunk:a" && c == Mention(x)
  {
    hide Alias, NormalizeKey, Query.Offered, Query.Expandable, Query.Leads;
    AliasOffers(root, x);
  }

  lemma AliasKeysApart(root: Root, x: Key)
    requires x !in {"", "chunk:a"}
    ensures Alias(root, x).KeysApart() && (NormalizeKey(root, x) == x ==> Alias(root, x).Normalized())
  {
    hide Alias, NormalizeKey, Query.Offers, Query.IsSeed;
    var q := Alias(root, x);
    AliasOffers(root, x);
    AliasFollows(root, x);
    forall u, c | q.Offers(u, c) ensures c == Mention(x) { AliasShape(root, x, u, c); }
  }

  lemma AliasFound(root: Root, x: Key, nodes: map<Key, nat>)
    requires x !in {"", "chunk:a"} && NodesPromised(Alias(root, x), nodes, {})
    ensures NormalizeKey(root, x) in nodes && nodes[NormalizeKey(root, x)] > 0
  {
    hide Alias, NormalizeKey, Query.Offered, Query.IsSeed, Query.Follows, Query.KeysApart, Query.Shortest, Entered;
    hide SeedsIn;
    var q, y := Alias(root, x), NormalizeKey(root, x);
    AliasOffers(root, x);
    AliasFollows(root, x);
    AliasKeysApart(root, x);
    WithinBy(q, y, 1, q.Depth());
    NoStepsIsSeed(q, y);
  }

  lemma PathIsParented(
      q: Query, nodes: map<Key, nat>, parents: map<Key, Parent>, targets: seq<Key>, paths: seq<WitnessPath>, k: Key)
    returns (u: Key, c: Candidate)
    requires PathsFrom(q, nodes, parents, targets, paths) && HasPath(paths, k)
    ensures u in nodes && c in q.Offered(u) && c.next == k
  {
    hide NodesOk, TargetsOk, WitnessOk, OwnChain, PathTo, PathsTo, Query.Offered, Query.Leads;
    var i :| 0 <= i < |paths| && paths[i].to == k;
    PathsExact(q, nodes, parents, targets, paths, paths[i]);
    assert ParentOk(q, nodes, k, parents[k]);
    u := parents[k].key;
    c :| c in q.Offered(u) && q.Leads(c) && c.next == k && c.edge == parents[k].edge;
  }

  /** The target is found, and has a witness path exactly when it is written with its normal key. */
  lemma AliasHasPathWhen(root: Root, x: Key, nodes: map<Key, nat>, paths: seq<WitnessPath>)
    requires x !in {"", "chunk:a"}
    requires NodesPromised(Alias(root, x), nodes, {}) && PathsPromised(Alias(root, x), nodes, paths, {})
    ensures NormalizeKey(root, x) in nodes && nodes[NormalizeKey(root, x)] > 0
    ensures HasPath(paths, NormalizeKey(root, x)) <==> NormalizeKey(root, x) == x
  {
    hide Alias, NormalizeKey, NodesPromised, PathsFrom, HasPath, WitnessOk, Query.Normalized, Query.Offered;
    var q, y := Alias(root, x), NormalizeKey(root, x);
    AliasOffers(root, x);
    AliasKeysApart(root, x);
    AliasFound(root, x, nodes);
    if y == x {
      NormalizedPaths(q, nodes, paths, {});
    }
    if HasPath(paths, y) {
      var parents: map<Key, Parent>, targets :| PathsFrom(q, nodes, parents, targets, paths);
      var u, c := PathIsParented(q, nodes, parents, targets, paths, y);
    }
  }

  /** The run itself: no cap is recorded. */
  method RunAlias(root: Root, x: Key) returns (r: GraphNeighborhood)
    requires x !in {"", "chunk:a"}
    ensures r.truncation == {} && Receivable(root, Alias(root, x))
    ensures NormalizeKey(root, x) in r.nodes && r.nodes[NormalizeKey(root, x)] > 0
    ensures HasPath(r.paths, NormalizeKey(root, x)) <==> NormalizeKey(root, x) == x
  {
    hide NodesPromised, Explored, EdgesPromised, PathsPromised, PathsOk, NormalizeKey, Alias, HasPath, Receivable;
    var budget := new WorkBudget(None, None, 256);
    ghost var order, visited;
    AliasOffers(root, x);
    r, order, visited := BuildGraphNeighborhood(Alias(root, x), 20000, budget, n => 0);
    AliasHasPathWhen(root, x, r.nodes, r.paths);
  }

  /** All targets of the query are written with their normal keys, but for `x`. */
  ghost predicate NormalBut(q: Query, x: Key) {
    forall u, c :: q.Offers(u, c) ==> c.next == x || q.normalize(c.next) == c.next
  }

  /** Every found node beyond the seeds has a true witness path. */
  ghost predicate AllWitnessed(q: Query, nodes: map<Key, nat>, paths: seq<WitnessPath>) {
    forall k :: k in nodes && nodes[k] > 0 ==> exists p :: p in paths && p.to == k && WitnessOk(q, nodes, p)
  }

  lemma NormalWitnessed(q: Query, nodes: map<Key, nat>, paths: seq<WitnessPath>)
    requires q.includePaths && q.Normalized() && PathsPromised(q, nodes, paths, {})
    ensures AllWitnessed(q, nodes, paths)
  {
    hide PathsFrom, WitnessOk, Query.Normalized, NonSeeds;
    NormalizedPaths(q, nodes, paths, {});
    forall k | k in nodes && nodes[k] > 0 ensures exists p :: p in paths && p.to == k && WitnessOk(q, nodes, p) {
      assert HasPath(paths, k);
      var i :| 0 <= i < |paths| && paths[i].to == k;
      assert paths[i] in paths;
    }
  }

  function AliasNodes(root: Root, x: Key): map<Key, nat> {
    map["chunk:a" := 0, NormalizeKey(root, x) := 1]
  }

  lemma AliasPathless(root: Root, x: Key)
    requires x !in {"", "chunk:a"} && NormalizeKey(root, x) != x
    ensures PathsPromised(Alias(root, x), AliasNodes(root, x), [], {})
  {
    hide Alias, NormalizeKey, Traced, Query.Offered, Receivable;
    var q, nodes, parents := Alias(root, x), AliasNodes(root, x), map[x := Parent("chunk:a", Mention(x).edge)];
    AliasOffers(root, x);
    AliasTraced(root, x);
    assert PathsTo(nodes, parents, [x]) == [] by {
      PathsToAppend(nodes, parents, [], x);
      assert [] + [x] == [x];
    }
    assert PathsFrom(q, nodes, parents, [x], []);
  }

  lemma AliasPromised(root: Root, x: Key)
    requires x !in {"", "chunk:a"} && NormalizeKey(root, x) != x
    ensures NodesPromised(Alias(root, x), AliasNodes(root, x), {})
    ensures PathsPromised(Alias(root, x), AliasNodes(root, x), [], {})
  {
    hide Alias, NormalizeKey, Query.Offered, Query.InSteps, Query.IsSeed, Query.Follows, Query.KeysApart;
    hide Query.Shortest, Entered, Receivable, PathsPromised;
    AliasOffers(root, x);
    AliasFollows(root, x);
    AliasEntered(root, x);
    AliasComplete(root, x);
    AliasPathless(root, x);
  }

  lemma AliasEntered(root: Root, x: Key)
    requires x !in {"", "chunk:a"} && NormalizeKey(root, x) != x
    ensures Entered(Alias(root, x), AliasNodes(root, x), NormalizeKey(root, x))
    ensures ParentOk(Alias(root, x), AliasNodes(root, x), x, Parent("chunk:a", Mention(x).edge))
  {
    hide Alias, NormalizeKey, Query.Offered;
    var q, y := Alias(root, x), NormalizeKey(root, x);
    AliasOffers(root, x);
    assert Mention(x) in q.Offered("chunk:a") && q.Leads(Mention(x));
  }

  lemma AliasTraced(root: Root, x: Key)
    requires x !in {"", "chunk:a"} && NormalizeKey(root, x) != x
    ensures Traced(Alias(root, x), AliasNodes(root, x), map[x := Parent("chunk:a", Mention(x).edge)], [x])
  {
    hide Alias, NormalizeKey, Query.Offered, Query.InSteps, ParentOk;
    var q, y := Alias(root, x), NormalizeKey(root, x);
    AliasOffers(root, x);
    AliasFollows(root, x);
    AliasEntered(root, x);
    var nodes, parents := AliasNodes(root, x), map[x := Parent("chunk:a", Mention(x).edge)];
    assert NonSeeds(nodes) == {y};
    forall k | k in nodes && nodes[k] > 0 ensures exists r :: r in parents && q.normalize(r) == k {
      assert x in parents && q.normalize(x) == k;
    }
  }

  lemma AliasComplete(root: Root, x: Key)
    requires x !in {"", "chunk:a"}
    ensures var q, nodes := Alias(root, x), AliasNodes(root, x);
            Complete(q, nodes) && DistancesShortest(q, nodes)
  {
    hide Alias, NormalizeKey, Query.Offered, Query.Follows, Query.IsSeed, Query.InSteps, Query.WithinSteps;
    hide Query.Shortest;
    var q, nodes, y := Alias(root, x), AliasNodes(root, x), NormalizeKey(root, x);
    AliasOffers(root, x);
    AliasFollows(root, x);
    SeedShortest(q, "chunk:a");
    WithinBy(q, y, 1, 1);
    SeedWithin(q, "chunk:a");
    NotSeedShortest(q, y);
    forall k | q.WithinSteps(k, 1) ensures k in nodes {
      WithinOne(q, k);
      if !q.IsSeed(k) {
        var s :| q.IsSeed(s) && q.Follows(s, k);
        var c := FollowedBy(q, s, k);
      }
    }
  }

  lemma SeedWithin(q: Query, k: Key)
    requires q.IsSeed(k)
    ensures q.WithinSteps(k, q.Depth())
  {
    assert q.WalkTo([k], k);
  }

  lemma NotSeedShortest(q: Query, k: Key)
    requires q.InSteps(k, 1) && !q.IsSeed(k)
    ensures q.Shortest(k, 1)
  {
  }

  lemma WithinOne(q: Query, k: Key)
    requires q.WithinSteps(k, 1)
    ensures q.IsSeed(k) || exists s :: q.IsSeed(s) && q.Follows(s, k)
  {
    hide Query.IsSeed, Query.Follows;
    var w :| q.WalkTo(w, k) && |w| - 1 <= 1;
    if |w| == 2 { assert q.Follows(w[0], w[1]); }
  }

  /** Every found node has a true witness path, for all queries whose other targets are written with their normal
      keys, exactly when `x` is a normal key. */
  lemma PathsCompleteWhen(root: Root, x: Key)
    ensures NormalizeKey(root, x) == x <==>
              forall q: Query, nodes, paths ::
                (q.normalize == Normalizer(root) && q.includePaths && Receivable(root, q) && NormalBut(q, x)
                 && NodesPromised(q, nodes, {}) && PathsPromised(q, nodes, paths, {}))
                ==> AllWitnessed(q, nodes, paths)
  {
    hide NormalizeKey, NodesPromised, PathsPromised, AllWitnessed, Query.Offers, Receivable;
    if NormalizeKey(root, x) == x {
      forall q: Query, nodes, paths
        | q.normalize == Normalizer(root) && q.includePaths && Receivable(root, q) && NormalBut(q, x)
          && NodesPromised(q, nodes, {}) && PathsPromised(q, nodes, paths, {})
        ensures AllWitnessed(q, nodes, paths)
      {
        NormalWitnessed(q, nodes, paths);
      }
    } else {
      AliasFails(root, x);
    }
  }

  lemma AliasFails(root: Root, x: Key)
    requires NormalizeKey(root, x) != x
    ensures var q, nodes := Alias(root, x), AliasNodes(root, x);
            && q.normalize == Normalizer(root) && q.includePaths && Receivable(root, q) && NormalBut(q, x)
            && NodesPromised(q, nodes, {}) && PathsPromised(q, nodes, [], {}) && !AllWitnessed(q, nodes, [])
  {
    hide Alias, NormalizeKey, NodesPromised, PathsPromised, WitnessOk, Query.Offers, Query.Offered, Receivable;
    var q, nodes := Alias(root, x), AliasNodes(root, x);
    NormalizedKind(root, x);
    ChunkKey(x);
    AliasOffers(root, x);
    AliasPromised(root, x);
    forall u, c | q.Offers(u, c) ensures c.next == x { AliasShape(root, x, u, c); }
    assert NormalizeKey(root, x) in nodes && nodes[NormalizeKey(root, x)] > 0;
  }

  // ---- Wrong paths ----

  /** Chunk a mentions the file written `x`, which imports the file `z`. */
  function Relay(root: Root, x: Key, z: Key): Query {
    var from := NormalizeKey(root, NormalizeKey(root, x));
    Mentioning(root, x, k => if k == from then [z] else [], 2)
  }

  /** `x` is no normal key, its file can have imports, and `z` is the normal key of another file. */
  ghost predicate Relays(root: Root, x: Key, z: Key) {
    && NormalizeKey(root, x) != x && SourceId(root, NormalizeKey(root, x)) != ""
    && NormalizeKey(root, z) == z && SourceId(root, z) != "" && z != NormalizeKey(root, x)
  }

  lemma RelayOffers(root: Root, x: Key, z: Key)
    requires Relays(root, x, z)
    ensures var q, y := Relay(root, x, z), NormalizeKey(root, x);
            && q.Depth() == 2 && q.includePaths && q.Uncapped() && q.minConfidence.None? && q.seeds == ["chunk:a"]
            && q.normalize == Normalizer(root) && q.Offered("chunk:a") == [Mention(x)] && Receivable(root, q)
            && To(NormalizeKey(root, y), z) in q.Offered(y)
            && (forall u, c :: u != "chunk:a" && c in q.Offered(u) ==>
                  c.next == z && NormalizeKey(root, u) == NormalizeKey(root, y))
            && q.IsSeed("chunk:a") && (forall k :: q.IsSeed(k) ==> k == "chunk:a")
            && x !in {"", "chunk:a", z} && y !in {"", "chunk:a", z} && z !in {"", "chunk:a"}
            && q.normalize("chunk:a") == "chunk:a"
  {
    hide NormalizeKey, Mentioning, Query.Offered, ImportCandidates, Receivable, NormalizeImportPath;
    var y := NormalizeKey(root, x);
    var imports := k => if k == NormalizeKey(root, y) then [z] else [];
    assert Relay(root, x, z) == Mentioning(root, x, imports, 2);
    assert NormalizedOnce(root, z);
    MentioningIs(root, x, imports, 2);
    ChunkKey(x);
    ChunkKey(y);
    ChunkKey(z);
    NormalizedKind(root, x);
  }

  lemma RelayFollows(root: Root, x: Key, z: Key)
    requires Relays(root, x, z)
    ensures var q, y := Relay(root, x, z), NormalizeKey(root, x);
            q.Follows("chunk:a", y) && q.Follows(y, z) && q.WithinSteps(z, 2) && q.KeysApart()
  {
    hide Relay, NormalizeKey, Query.Offered, Query.Follows, Query.IsSeed, Query.InSteps, Query.WithinSteps, Receivable;
    var q, y := Relay(root, x, z), NormalizeKey(root, x);
    RelayOffers(root, x, z);
    FollowsBy(q, "chunk:a", [Mention(x)], Mention(x));
    FollowsBy(q, y, q.Offered(y), To(NormalizeKey(root, y), z));
    SeedSteps(q, "chunk:a");
    StepExtends(q, "chunk:a", 0, y);
    StepExtends(q, y, 1, z);
    WithinBy(q, z, 2, 2);
    RelayKeysApart(root, x, z);
  }

  lemma RelayKeysApart(root: Root, x: Key, z: Key)
    requires Relays(root, x, z)
    ensures Relay(root, x, z).KeysApart()
  {
    hide Relay, NormalizeKey, Query.Offers, Query.Offered, Query.IsSeed, Receivable, Query.Uncapped;
    var q, y := Relay(root, x, z), NormalizeKey(root, x);
    RelayOffers(root, x, z);
    forall u, c | q.Offers(u, c) ensures c.next in {x, z} { RelayShape(root, x, z, u, c); }
    assert forall k :: q.Stores(k) ==> k in {"chunk:a", y, z};
  }

  lemma RelayShape(root: Root, x: Key, z: Key, u: Key, c: Candidate)
    requires Relays(root, x, z)
    ensures Relay(root, x, z).Offers(u, c) ==> c.next in {x, z}
  {
    hide Relay, NormalizeKey, Query.Offered, Query.Expandable, Query.Leads, Query.IsSeed, Receivable, Query.Uncapped;
    RelayOffers(root, x, z);
  }

  /** A parent link is that of `x` to the chunk, or that of `z` to a file with the imports of the file between. */
  lemma RelayParent(root: Root, x: Key, z: Key, nodes: map<Key, nat>, r: Key, p: Parent)
    requires Relays(root, x, z) && ParentOk(Relay(root, x, z), nodes, r, p)
    ensures if p.key == "chunk:a" then r == x
            else r == z && z in nodes && p.key in nodes && nodes[z] == nodes[p.key] + 1
  {
    hide Relay, NormalizeKey, Query.Offered, Query.Leads, Query.IsSeed, Receivable, Query.Uncapped;
    RelayOffers(root, x, z);
    var c :| c in Relay(root, x, z).Offered(p.key) && c.next == r;
    if p.key == "chunk:a" { assert c in [Mention(x)]; }
  }

  lemma RelayParents(root: Root, x: Key, z: Key, nodes: map<Key, nat>, parents: map<Key, Parent>)
    requires Relays(root, x, z)
    requires var q := Relay(root, x, z); ParentsOk(q, nodes, parents) && NodesOk(q, nodes) && z in nodes
    ensures var y := NormalizeKey(root, x);
            && nodes[z] > 0 && z in parents && parents[z].key == y && y in nodes && y !in parents
            && nodes[y] + 1 == nodes[z] && nodes[y] > 0
  {
    hide Relay, NormalizeKey, Query.Offered, Query.Leads, Query.IsSeed, NodesOk, ParentOk, Receivable, Query.Uncapped;
    var q, y := Relay(root, x, z), NormalizeKey(root, x);
    RelayOffers(root, x, z);
    FoundNotSeed(q, nodes, z);
    forall r | r in parents ensures r in {x, z} {
      RelayParent(root, x, z, nodes, r, parents[r]);
    }
    var r :| r in parents && q.normalize(r) == z;
    RelayParent(root, x, z, nodes, z, parents[z]);
    var k := parents[z].key;
    FoundNotSeed(q, nodes, k);
    var j :| j in parents && q.normalize(j) == k;
  }

  lemma FoundNotSeed(q: Query, nodes: map<Key, nat>, k: Key)
    requires NodesOk(q, nodes) && k in nodes && !q.IsSeed(k)
    ensures nodes[k] > 0
  {
    hide Query.InSteps, Query.IsSeed;
    NoStepsIsSeed(q, k);
  }

  lemma WalkStopsAt(nodes: map<Key, nat>, parents: map<Key, Parent>, y: Key, z: Key)
    requires z in nodes && z in parents && parents[z].key == y && y in nodes && y !in parents && y != "" && z != ""
    ensures PathTo(nodes, parents, z) == WitnessPath(z, 1, [y, z], [parents[z].edge])
  {
    assert Back(nodes, parents, y, MAX_PATH_STEPS - 1) == Walked([y], []);
    assert Back(nodes, parents, z, MAX_PATH_STEPS) == Walked([z] + [y], [parents[z].edge] + []);
    assert Reversed([z] + [y]) == [y, z] && Reversed([parents[z].edge] + []) == [parents[z].edge];
  }

  /** The path returned for `z` starts at the node between, no seed, and its length is one although the node's
      distance is two: one node entered by another key spoils the paths of all nodes beyond it. */
  lemma RelayPathWrong(root: Root, x: Key, z: Key, nodes: map<Key, nat>, paths: seq<WitnessPath>)
    requires Relays(root, x, z)
    requires var q := Relay(root, x, z); NodesPromised(q, nodes, {}) && PathsPromised(q, nodes, paths, {})
    ensures z in nodes && nodes[z] == 2 && HasPath(paths, z)
    ensures forall p :: p in paths && p.to == z ==>
              && p.distance == 1 && p.nodes == [NormalizeKey(root, x), z]
              && !Relay(root, x, z).IsSeed(p.nodes[0]) && !WitnessOk(Relay(root, x, z), nodes, p)
  {
    hide Relay, NormalizeKey, Query.Offered, Receivable, Query.KeysApart, Query.Shortest, Query.InSteps;
    hide Query.WithinSteps, Query.IsSeed, Query.Follows, Entered, SeedsIn, HasPath, PathTo, PathsTo, BackOk, NodesOk;
    hide ParentsOk, Relays;
    var q, y := Relay(root, x, z), NormalizeKey(root, x);
    RelayOffers(root, x, z);
    RelayFollows(root, x, z);
    var parents: map<Key, Parent>, targets :| PathsFrom(q, nodes, parents, targets, paths);
    RelayParents(root, x, z, nodes, parents);
    TargetOf(q, nodes, parents, targets, z);
    HasPathOf(nodes, parents, KeptTargets(q, targets), z);
    WalkStopsAt(nodes, parents, y, z);
    assert KeptTargets(q, targets) == targets;
    forall p | p in paths && p.to == z
      ensures p == WitnessPath(z, 1, [y, z], [parents[z].edge]) && !WitnessOk(q, nodes, p)
    {
      PathsToTargets(nodes, parents, targets, p);
      TooShort(q, nodes, p);
    }
  }

  lemma TargetOf(q: Query, nodes: map<Key, nat>, parents: map<Key, Parent>, targets: seq<Key>, k: Key)
    requires Traced(q, nodes, parents, targets) && q.includePaths && k in parents
    ensures k in targets
  {
    hide NodesOk, ParentsOk;
  }

  lemma TooShort(q: Query, nodes: map<Key, nat>, p: WitnessPath)
    requires p.to in nodes && nodes[p.to] == 2 && |p.nodes| == 2
    ensures !WitnessOk(q, nodes, p)
  {
    hide Linked, LinkedFrom;
    assert |Reversed(p.nodes)| == 2;
  }

  /** The run itself: no cap is recorded. */
  method RunRelay(root: Root, x: Key, z: Key) returns (r: GraphNeighborhood)
    requires Relays(root, x, z)
    ensures r.truncation == {} && Receivable(root, Relay(root, x, z))
    ensures z in r.nodes && r.nodes[z] == 2 && HasPath(r.paths, z)
    ensures forall p :: p in r.paths && p.to == z ==> p.distance == 1 && p.nodes == [NormalizeKey(root, x), z]
  {
    hide NodesPromised, Explored, EdgesPromised, PathsPromised, PathsOk, NormalizeKey, Relay, Relays, HasPath;
    hide WitnessOk, Receivable;
    var budget := new WorkBudget(None, None, 256);
    ghost var order, visited;
    RelayOffers(root, x, z);
    r, order, visited := BuildGraphNeighborhood(Relay(root, x, z), 20000, budget, n => 0);
    RelayPathWrong(root, x, z, r.nodes, r.paths);
  }
}
