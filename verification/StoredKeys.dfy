/** Keys as written and keys as stored: the nodes and distances that src/graph/neighborhood.js:578-585 gets wrong when
    a key changes again by normalising it again, and exactly when. */
module StoredKeys {
  import opened Wrappers
  import opened Ordering
  import opened Reachability
  import opened SearchInvariants
  import opened SearchOutcome
  import opened WorkBudgets
  import opened Neighborhood
  import opened Refs

  function OneSeed(seed: Key, candidates: Key -> seq<Candidate>, normalize: Key -> Key, depth: nat): Query {
    Query([seed], candidates, normalize, e => EdgeKey(e), depth, None, None, None, None, None, None, true)
  }

  // ---- What the import graph offers ----

  /** An edge of the import graph between files, which leads to its target as it stands in the neighbour list. */
  function To(from: Key, target: Key): Candidate {
    Candidate(Edge("importGraph", from, "import", target, None, false), target)
  }

  /** The neighbours of each file with a normal path, all as keys. */
  type Imports = Key -> seq<Key>

  /** A neighbour is a path that was normalised once, when the list was made. */
  ghost predicate NormalizedOnce(root: Root, k: Key) {
    exists raw :: SourceId(root, raw) != "" && NormalizeKey(root, raw) == k
  }

  /** The neighbour lists are strictly ascending. */
  ghost predicate ImportLists(root: Root, imports: Imports) {
    && (forall k, y :: y in imports(k) ==> NormalizedOnce(root, y))
    && (forall k, i, j :: 0 <= i < j < |imports(k)| ==> CompareStrings(imports(k)[i], imports(k)[j]) < 0)
  }

  /** The candidates of the node `k`, as far as it is a file: those of its normal path. */
  function ImportCandidates(root: Root, imports: Imports, k: Key): (cs: seq<Candidate>)
    ensures forall c :: c in cs ==> c.next in imports(NormalizeKey(root, k)) && c == To(NormalizeKey(root, k), c.next)
    ensures forall y :: y in imports(NormalizeKey(root, k)) && SourceId(root, k) != "" ==>
              To(NormalizeKey(root, k), y) in cs
  {
    if SourceId(root, k) == "" then [] else
      var from := NormalizeKey(root, k);
      var cs := seq(|imports(from)|, i requires 0 <= i < |imports(from)| => To(from, imports(from)[i]));
      assert forall i :: 0 <= i < |imports(from)| ==> cs[i] == To(from, imports(from)[i]);
      cs
  }

  /** A file node offers the edges of some import graph and no others (neighborhood.js:380-398 and 468-500). */
  ghost predicate Receivable(root: Root, q: Query) {
    exists imports: Imports :: ImportLists(root, imports)
      && forall k :: "file:" <= k ==> q.candidates(k) == ImportCandidates(root, imports, k)
  }

  /** A query over an import graph alone, from one seed and without caps. */
  function Importing(root: Root, seed: Key, imports: Imports, depth: nat): Query {
    OneSeed(seed, k => ImportCandidates(root, imports, k), Normalizer(root), depth)
  }

  lemma ImportingIs(root: Root, seed: Key, imports: Imports, depth: nat)
    ensures var q := Importing(root, seed, imports, depth);
            && q.seeds == [seed] && q.normalize == Normalizer(root) && q.Depth() == depth
            && q.Uncapped() && q.minConfidence.None? && q.includePaths
            && (forall k :: q.Offered(k) == ImportCandidates(root, imports, k))
            && (ImportLists(root, imports) ==> Receivable(root, q))
  {
    hide ImportCandidates, ImportLists;
  }

  lemma FileLeads(root: Root, q: Query, from: Key, y: Key)
    requires q.normalize == Normalizer(root) && q.minConfidence.None? && NormalizedOnce(root, y)
    ensures q.Leads(To(from, y))
  {
    hide NormalizeKey, SourceId;
    var raw :| SourceId(root, raw) != "" && NormalizeKey(root, raw) == y;
    KeyOfSource(root, raw);
    assert y[0] == 'f';
    NormalizedKind(root, y);
  }

  /** Steps follow the neighbour lists. */
  lemma ImportingFollows(root: Root, seed: Key, imports: Imports, depth: nat, u: Key, y: Key)
    requires SourceId(root, u) != "" && y in imports(NormalizeKey(root, u)) && NormalizedOnce(root, y)
    ensures var q, c := Importing(root, seed, imports, depth), To(NormalizeKey(root, u), y);
            c in q.Offered(u) && q.Leads(c) && q.Follows(u, NormalizeKey(root, y))
  {
    hide ImportCandidates, ImportLists, NormalizeKey, NormalizedOnce, SourceId, Query.Leads, Importing, Query.Offered;
    var q, c := Importing(root, seed, imports, depth), To(NormalizeKey(root, u), y);
    ImportingIs(root, seed, imports, depth);
    FileLeads(root, q, NormalizeKey(root, u), y);
    assert c in q.Offered(u);
    assert q.normalize(c.next) == NormalizeKey(root, y);
  }

  // ---- Promised results ----

  ghost predicate Complete(q: Query, nodes: map<Key, nat>) {
    forall k :: k in nodes <==> q.WithinSteps(k, q.Depth())
  }

  ghost predicate DistancesShortest(q: Query, nodes: map<Key, nat>) {
    forall k :: k in nodes ==> q.Shortest(k, nodes[k])
  }

  /** The seeds and targets of the query have final keys, but for those in `some`. */
  ghost predicate FinalBut(q: Query, some: set<Key>) {
    && (forall s :: s in q.seeds ==> s in some || q.Final(s))
    && (forall u, c :: q.Offers(u, c) ==> c.next in some || q.Final(c.next))
  }

  /** With the key `x` final too, promised results keep every promise. */
  lemma FinalKept(root: Root, x: Key, q: Query, nodes: map<Key, nat>, truncation: set<Cap>)
    requires NormalizeKey(root, NormalizeKey(root, x)) == NormalizeKey(root, x)
    requires q.normalize == Normalizer(root) && FinalBut(q, {x, NormalizeKey(root, x)})
    requires NodesPromised(q, nodes, truncation)
    ensures DistancesShortest(q, nodes) && (truncation == {} ==> Complete(q, nodes))
  {
    hide NormalizeKey, Query.Offers, Query.KeysApart, Query.Shortest, Query.WithinSteps, Query.InSteps, Entered;
    assert q.Final(x) && q.Final(NormalizeKey(root, x));
    FinalKeysApart(q);
  }

  lemma SeedSteps(q: Query, s: Key)
    requires q.IsSeed(s)
    ensures q.InSteps(s, 0)
  {
    assert q.WalkTo([s], s);
  }

  lemma NoStepsIsSeed(q: Query, k: Key)
    ensures q.InSteps(k, 0) ==> q.IsSeed(k)
  {
    if q.InSteps(k, 0) {
      var w :| q.WalkTo(w, k) && |w| - 1 == 0;
    }
  }

  lemma FollowsBy(q: Query, u: Key, cs: seq<Candidate>, c: Candidate)
    requires q.Offered(u) == cs && c in cs && q.Leads(c)
    ensures q.Follows(u, q.normalize(c.next))
  {
  }

  lemma FollowedBy(q: Query, u: Key, v: Key) returns (c: Candidate)
    requires q.Follows(u, v)
    ensures c in q.Offered(u) && q.normalize(c.next) == v
  {
    c :| c in q.Offered(u) && q.Leads(c) && q.normalize(c.next) == v;
  }

  /** A found node beyond the seeds was entered from a node that offers it, one step nearer. */
  lemma EnteredFrom(q: Query, nodes: map<Key, nat>, k: Key) returns (u: Key, c: Candidate)
    requires forall j :: j in nodes ==> q.InSteps(j, nodes[j])
    requires forall j :: j in nodes && nodes[j] > 0 ==> Entered(q, nodes, j)
    requires k in nodes && !q.IsSeed(k)
    ensures u in nodes && nodes[u] + 1 == nodes[k] && c in q.Offered(u) && q.normalize(c.next) == k
    ensures c.next in nodes ==> nodes[c.next] > nodes[u]
  {
    hide Query.Offered, Query.InSteps, Query.IsSeed;
    NoStepsIsSeed(q, k);
    u, c :| u in nodes && nodes[u] + 1 == nodes[k] && c in q.Offered(u) && q.Leads(c)
            && q.normalize(c.next) == k && (c.next in nodes ==> nodes[c.next] > nodes[u]);
  }

  /** Two keys of files in the order of a neighbour list. */
  function Ascending(a: Key, b: Key): seq<Key> {
    if CompareStrings(a, b) < 0 then [a, b] else [b, a]
  }

  lemma AscendingOrder(a: Key, b: Key)
    requires a != b
    ensures CompareStrings(Ascending(a, b)[0], Ascending(a, b)[1]) < 0 && |Ascending(a, b)| == 2
    ensures forall y :: y in Ascending(a, b) <==> y in {a, b}
  {
    hide CompareStrings;
    CompareStringsOrder(a, b, a);
    CompareStringsOrder(b, a, b);
  }

  // ---- Missed nodes ----

  /** Normalising the key `x` twice is not normalising it once. */
  ghost predicate Again(root: Root, x: Key) {
    NormalizeKey(root, NormalizeKey(root, x)) != NormalizeKey(root, x)
  }

  lemma AgainFiles(root: Root, x: Key)
    requires Again(root, x)
    ensures var s := NormalizeKey(root, x); var t := NormalizeKey(root, s);
            && "file:" <= x && "file:" <= s && "file:" <= t && s != "" && t != ""
            && SourceId(root, s) != "" && NormalizedOnce(root, s) && NormalizedOnce(root, t)
  {
    hide NormalizeKey;
    var s := NormalizeKey(root, x);
    KeyOfSource(root, x);
    KeyOfSource(root, s);
    assert SourceId(root, x) != "";
    assert "file:"[0] == 'f';
  }

  /** The file of the seed `x`, imported under its own path once normalised. */
  function SelfNaming(root: Root, x: Key): Query {
    var s := NormalizeKey(root, x);
    Importing(root, x, k => if k == NormalizeKey(root, s) then [s] else [], 1)
  }

  lemma SelfNamingOffers(root: Root, x: Key)
    requires Again(root, x)
    ensures var q, s := SelfNaming(root, x), NormalizeKey(root, x);
            && q.seeds == [x] && q.normalize == Normalizer(root) && q.Depth() == 1 && q.Uncapped()
            && Receivable(root, q) && q.IsSeed(s) && q.InSteps(s, 0) && q.Follows(s, NormalizeKey(root, s))
            && (forall k :: q.IsSeed(k) ==> k == s) && (forall u, c :: c in q.Offered(u) ==> c.next == s)
            && To(NormalizeKey(root, s), s) in q.Offered(s) && q.Leads(To(NormalizeKey(root, s), s))
  {
    hide NormalizeKey, Importing, ImportCandidates, Query.Offered, Query.Leads, Query.Follows, Query.InSteps;
    hide Query.Uncapped, Receivable;
    var q, s := SelfNaming(root, x), NormalizeKey(root, x);
    var imports := k => if k == NormalizeKey(root, s) then [s] else [];
    AgainFiles(root, x);
    assert q == Importing(root, x, imports, 1);
    ImportingIs(root, x, imports, 1);
    ImportingFollows(root, x, imports, 1, s, s);
    assert x in q.seeds;
    SeedSteps(q, s);
  }

  lemma SelfNamingTangled(root: Root, x: Key)
    requires Again(root, x)
    ensures !SelfNaming(root, x).KeysApart()
  {
    hide NormalizeKey, SelfNaming, Query.Offered, Query.Leads, Query.InSteps, Query.IsSeed;
    var q, s := SelfNaming(root, x), NormalizeKey(root, x);
    SelfNamingOffers(root, x);
    assert q.Offers(s, To(NormalizeKey(root, s), s)) && q.Stores(s);
  }

  /** When normalising `x` is not final, the node one step from the seed is missed: the stored key of the seed is
      taken for a found node. */
  lemma UnstableTargetMissed(root: Root, x: Key, nodes: map<Key, nat>, truncation: set<Cap>)
    requires Again(root, x) && NodesPromised(SelfNaming(root, x), nodes, truncation)
    ensures var q, t := SelfNaming(root, x), NormalizeKey(root, NormalizeKey(root, x));
            q.WithinSteps(t, q.Depth()) && t !in nodes
  {
    hide NormalizeKey, SelfNaming, Query.Offered, Query.Leads, Query.InSteps, Query.IsSeed, Query.Follows;
    hide Query.KeysApart, Query.Shortest, Entered;
    var q, s := SelfNaming(root, x), NormalizeKey(root, x);
    var t := NormalizeKey(root, s);
    SelfNamingOffers(root, x);
    StepExtends(q, s, 0, t);
    WithinBy(q, t, 1, q.Depth());
    if t in nodes {
      var u, c := EnteredFrom(q, nodes, t);
    }
  }

  lemma WithinBy(q: Query, k: Key, d: nat, depth: nat)
    requires q.InSteps(k, d) && d <= depth
    ensures q.WithinSteps(k, depth)
  {
  }

  lemma SeedAlone(root: Root, x: Key)
    requires Again(root, x)
    ensures NodesPromised(SelfNaming(root, x), map[NormalizeKey(root, x) := 0], {})
    ensures FinalBut(SelfNaming(root, x), {x, NormalizeKey(root, x)})
  {
    hide NormalizeKey, SelfNaming, Query.Offered, Query.Leads, Query.InSteps, Query.IsSeed, Query.Follows;
    hide Query.KeysApart, Query.Shortest, Entered;
    SelfNamingOffers(root, x);
    SelfNamingTangled(root, x);
  }

  /** Runs that record no cap find everything within the depth, for all queries whose other keys are final, exactly
      when normalising the key `x` twice is normalising it once. */
  lemma CompleteWhenFinal(root: Root, x: Key)
    ensures NormalizeKey(root, NormalizeKey(root, x)) == NormalizeKey(root, x) <==>
              forall q: Query, nodes ::
                (q.normalize == Normalizer(root) && Receivable(root, q) && FinalBut(q, {x, NormalizeKey(root, x)})
                 && NodesPromised(q, nodes, {}))
                ==> Complete(q, nodes)
  {
    hide NormalizeKey, NodesPromised, FinalBut, Receivable, SelfNaming, Query.WithinSteps;
    var s := NormalizeKey(root, x);
    if NormalizeKey(root, s) == s {
      forall q: Query, nodes
        | q.normalize == Normalizer(root) && Receivable(root, q) && FinalBut(q, {x, s}) && NodesPromised(q, nodes, {})
        ensures Complete(q, nodes)
      {
        FinalKept(root, x, q, nodes, {});
      }
    } else {
      SelfNamingOffers(root, x);
      SeedAlone(root, x);
      UnstableTargetMissed(root, x, map[s := 0], {});
    }
  }

  /** The run itself: no cap is recorded, and the node is missing. */
  method RunSelfNaming(root: Root, x: Key) returns (r: GraphNeighborhood)
    requires Again(root, x)
    ensures var t := NormalizeKey(root, NormalizeKey(root, x));
            && Receivable(root, SelfNaming(root, x)) && SelfNaming(root, x).WithinSteps(t, 1)
            && r.truncation == {} && t !in r.nodes
  {
    hide NodesPromised, Explored, EdgesPromised, PathsPromised, NormalizeKey, SelfNaming, Receivable;
    var budget := new WorkBudget(None, None, 256);
    ghost var order, visited;
    SelfNamingOffers(root, x);
    r, order, visited := BuildGraphNeighborhood(SelfNaming(root, x), 20000, budget, n => 0);
    UnstableTargetMissed(root, x, r.nodes, r.truncation);
  }

  // ---- Wrong distances ----

  /** A file whose name is n + 1 times the letter a. */
  function Spare(n: nat): Key { "file:" + seq(n + 1, _ => 'a') }

  lemma SpareNormal(root: Root, n: nat)
    requires OnlyAbsolute(root)
    ensures SourceId(root, Spare(n)) != "" && NormalizeKey(root, Spare(n)) == Spare(n) && |Spare(n)| == n + 6
    ensures NormalizedOnce(root, Spare(n))
  {
    var name: string := seq(n + 1, _ => 'a');
    FileKey(name);
    assert ToPosix(name) == name && name[0] == 'a';
    assert root(name).None?;
    assert !("./" <= name) by { assert "./"[0] == '.'; }
    assert SourceId(root, Spare(n)) == name;
    KeyOfSource(root, Spare(n));
  }

  /** What the detour is about: the stored key of the seed, its normal form, the normal form of that, the nodes of
      the longer way, and the node it ends at. */
  datatype Stops = Stops(s: Key, t: Key, u: Key, first: Key, second: Key, end: Key)

  function StopsOf(root: Root, x: Key): Stops {
    var s := NormalizeKey(root, x);
    var t := NormalizeKey(root, s);
    var u := NormalizeKey(root, t);
    var n := |s| + |t| + |u|;
    Stops(s, t, u, Spare(n), Spare(n + 1), if u == t then t else Spare(n + 2))
  }

  /** What the proofs need of these keys. */
  ghost predicate StopsOk(root: Root, p: Stops) {
    && p.t == NormalizeKey(root, p.s) && p.u == NormalizeKey(root, p.t) && p.s != p.t
    && (if p.u == p.t then p.end == p.t else p.end !in {p.t, p.u})
    && p.first !in {p.s, p.t, p.u, p.second, p.end} && p.second !in {p.s, p.t, p.u, p.end} && p.end != p.s
    && (forall k :: k in {p.first, p.second, p.end} ==> NormalizeKey(root, k) == k)
    && (forall k :: k in {p.s, p.first, p.second} ==> SourceId(root, k) != "")
    && (p.u != p.t ==> SourceId(root, p.t) != "")
    && (forall k :: k in {p.s, p.first, p.second, p.end} ==> NormalizedOnce(root, k))
  }

  lemma StopsAreOk(root: Root, x: Key)
    requires OnlyAbsolute(root) && Again(root, x)
    ensures StopsOk(root, StopsOf(root, x)) && StopsOf(root, x).s == NormalizeKey(root, x)
  {
    hide NormalizeKey, NormalizedOnce, SourceId, Spare;
    var p := StopsOf(root, x);
    var n := |p.s| + |p.t| + |p.u|;
    AgainFiles(root, x);
    KeyOfSource(root, p.t);
    SpareNormal(root, n);
    SpareNormal(root, n + 1);
    SpareNormal(root, n + 2);
  }

  /** From the seed's file the longer way leads over two files to the end.  The shorter way leads over the node `t`
      that is named by the seed's stored key, or ends there. */
  function DetourImports(p: Stops): Imports {
    k => if k == p.t then Ascending(p.s, p.first)
         else if k == p.first then [p.second]
         else if k == p.second || k == p.u then [p.end]
         else []
  }

  function Detour(root: Root, x: Key): Query {
    Importing(root, x, DetourImports(StopsOf(root, x)), 3)
  }

  lemma DetourLists(root: Root, p: Stops)
    requires StopsOk(root, p)
    ensures ImportLists(root, DetourImports(p))
  {
    hide NormalizeKey, NormalizedOnce, SourceId, Ascending, CompareStrings;
    AscendingOrder(p.s, p.first);
    var imports := DetourImports(p);
    forall k, i, j | 0 <= i < j < |imports(k)| ensures CompareStrings(imports(k)[i], imports(k)[j]) < 0 {
      assert k == p.t && i == 0 && j == 1;
    }
  }

  /** Where its edges lead, and from where. */
  lemma DetourOffers(root: Root, x: Key)
    requires OnlyAbsolute(root) && Again(root, x)
    ensures var q, p := Detour(root, x), StopsOf(root, x);
            && q.seeds == [x] && q.normalize == Normalizer(root) && q.Depth() == 3 && q.Uncapped()
            && Receivable(root, q) && q.minConfidence.None?
            && q.IsSeed(p.s) && (forall k :: q.IsSeed(k) ==> k == p.s)
            && forall k, c :: c in q.Offered(k) ==>
                 var from := NormalizeKey(root, k);
                 (c.next in {p.s, p.first} && from == p.t) || (c.next == p.second && from == p.first)
                 || (c.next == p.end && (from == p.second || (from == p.u && p.u != p.t)))
  {
    hide NormalizeKey, Importing, ImportCandidates, ImportLists, Query.Offered, Query.Uncapped, Receivable, Ascending;
    hide StopsOf, SourceId, NormalizedOnce;
    var q, p := Detour(root, x), StopsOf(root, x);
    StopsAreOk(root, x);
    AgainFiles(root, x);
    DetourLists(root, p);
    AscendingOrder(p.s, p.first);
    ImportingIs(root, x, DetourImports(p), 3);
    assert x in q.seeds;
  }

  lemma DetourFollows(root: Root, x: Key)
    requires OnlyAbsolute(root) && Again(root, x)
    ensures var q, p := Detour(root, x), StopsOf(root, x);
            && q.Follows(p.s, p.t) && q.Follows(p.s, p.first) && q.Follows(p.first, p.second)
            && q.Follows(p.second, p.end) && (p.u != p.t ==> q.Follows(p.t, p.end))
            && To(p.t, p.s) in q.Offered(p.s) && q.Leads(To(p.t, p.s))
            && To(p.t, p.first) in q.Offered(p.s) && q.Leads(To(p.t, p.first))
            && To(p.first, p.second) in q.Offered(p.first) && q.Leads(To(p.first, p.second))
            && To(p.second, p.end) in q.Offered(p.second) && q.Leads(To(p.second, p.end))
  {
    hide NormalizeKey, Importing, ImportCandidates, ImportLists, Query.Offered, Query.Leads, Query.Follows, Ascending;
    hide StopsOf, SourceId, NormalizedOnce;
    var q, p := Detour(root, x), StopsOf(root, x);
    var imports := DetourImports(p);
    StopsAreOk(root, x);
    AscendingOrder(p.s, p.first);
    ImportingFollows(root, x, imports, 3, p.s, p.s);
    ImportingFollows(root, x, imports, 3, p.s, p.first);
    ImportingFollows(root, x, imports, 3, p.first, p.second);
    ImportingFollows(root, x, imports, 3, p.second, p.end);
    if p.u != p.t { ImportingFollows(root, x, imports, 3, p.t, p.end); }
  }

  /** The end is at most two steps from the seed. */
  lemma DetourNear(root: Root, x: Key)
    requires OnlyAbsolute(root) && Again(root, x)
    ensures Detour(root, x).WithinSteps(StopsOf(root, x).end, 2) && !Detour(root, x).Shortest(StopsOf(root, x).end, 3)
  {
    hide NormalizeKey, Detour, StopsOf, Query.Offered, Query.Leads, Query.Follows, Query.IsSeed, Query.InSteps;
    hide Query.Uncapped, SourceId, NormalizedOnce, Receivable;
    var q, p := Detour(root, x), StopsOf(root, x);
    StopsAreOk(root, x);
    DetourOffers(root, x);
    DetourFollows(root, x);
    SeedSteps(q, p.s);
    StepExtends(q, p.s, 0, p.t);
    if p.u == p.t {
      TooFar(q, p.end, 1);
    } else {
      StepExtends(q, p.t, 1, p.end);
      TooFar(q, p.end, 2);
    }
  }

  lemma TooFar(q: Query, k: Key, d: nat)
    requires q.InSteps(k, d) && d <= 2
    ensures q.WithinSteps(k, 2) && !q.Shortest(k, 3)
  {
  }

  /** What a promised result can hold: the shorter way is never taken. */
  lemma DetourFound(root: Root, x: Key, nodes: map<Key, nat>, truncation: set<Cap>, k: Key)
    requires OnlyAbsolute(root) && Again(root, x) && NodesPromised(Detour(root, x), nodes, truncation) && k in nodes
    ensures var p := StopsOf(root, x);
            && p.s in nodes && nodes[p.s] == 0 && k in {p.s, p.first, p.second, p.end}
            && (k == p.first ==> nodes[k] == 1 || (p.end in nodes && nodes[k] == nodes[p.end] + 1))
            && (k == p.second ==> p.first in nodes && nodes[k] == nodes[p.first] + 1)
            && (k == p.end ==> p.second in nodes && nodes[k] == nodes[p.second] + 1)
    decreases nodes[k]
  {
    hide NormalizeKey, Detour, StopsOf, Query.Offered, Query.Leads, Query.Follows, Query.IsSeed, Query.InSteps;
    hide SourceId, NormalizedOnce, Receivable, Query.KeysApart, Query.Shortest, Query.WithinSteps, Entered;
    var q, p := Detour(root, x), StopsOf(root, x);
    StopsAreOk(root, x);
    DetourOffers(root, x);
    assert p.s in nodes && nodes[p.s] == 0;
    if k != p.s {
      var u, c := EnteredFrom(q, nodes, k);
      DetourFound(root, x, nodes, truncation, u);
    }
  }

  /** The end, when found, is given a distance of three although it is at most two steps away. */
  lemma DetourTooFar(root: Root, x: Key, nodes: map<Key, nat>, truncation: set<Cap>)
    requires OnlyAbsolute(root) && Again(root, x) && NodesPromised(Detour(root, x), nodes, truncation)
    ensures var q, end := Detour(root, x), StopsOf(root, x).end;
            && q.WithinSteps(end, 2) && (end in nodes ==> nodes[end] == 3 && !q.Shortest(end, 3))
  {
    hide NormalizeKey, Detour, StopsOf, NodesPromised, Query.Shortest, Query.WithinSteps;
    var p := StopsOf(root, x);
    DetourNear(root, x);
    if p.end in nodes {
      DetourFound(root, x, nodes, truncation, p.end);
      DetourFound(root, x, nodes, truncation, p.second);
      DetourFound(root, x, nodes, truncation, p.first);
    }
  }

  function DetourNodes(p: Stops): map<Key, nat> {
    map[p.s := 0, p.first := 1, p.second := 2, p.end := 3]
  }

  lemma EntersBy(q: Query, nodes: map<Key, nat>, u: Key, from: Key, k: Key)
    requires u in nodes && k in nodes && nodes[u] + 1 == nodes[k]
    requires To(from, k) in q.Offered(u) && q.Leads(To(from, k)) && q.normalize(k) == k
    ensures Entered(q, nodes, k)
  {
    hide Query.Leads, Query.Offered;
    assert To(from, k).next == k;
  }

  lemma DetourTangled(root: Root, x: Key)
    requires OnlyAbsolute(root) && Again(root, x)
    ensures !Detour(root, x).KeysApart()
  {
    hide NormalizeKey, Detour, StopsOf, Query.Offered, Query.Leads, Query.Follows, Query.IsSeed, Query.InSteps;
    hide Receivable;
    var q, p := Detour(root, x), StopsOf(root, x);
    StopsAreOk(root, x);
    DetourOffers(root, x);
    DetourFollows(root, x);
    SeedSteps(q, p.s);
    assert q.Offers(p.s, To(p.t, p.s)) && q.Stores(p.s);
  }

  lemma DetourWalks(root: Root, x: Key)
    requires OnlyAbsolute(root) && Again(root, x)
    ensures var q, nodes := Detour(root, x), DetourNodes(StopsOf(root, x));
            forall k :: k in nodes ==> q.InSteps(k, nodes[k])
  {
    hide NormalizeKey, Detour, StopsOf, Query.Offered, Query.Leads, Query.Follows, Query.IsSeed, Query.InSteps;
    hide Receivable, SourceId, NormalizedOnce, Query.Uncapped;
    var q, p := Detour(root, x), StopsOf(root, x);
    StopsAreOk(root, x);
    DetourOffers(root, x);
    DetourFollows(root, x);
    SeedSteps(q, p.s);
    StepExtends(q, p.s, 0, p.first);
    StepExtends(q, p.first, 1, p.second);
    StepExtends(q, p.second, 2, p.end);
  }

  lemma DetourEnters(root: Root, x: Key)
    requires OnlyAbsolute(root) && Again(root, x)
    ensures var q, nodes := Detour(root, x), DetourNodes(StopsOf(root, x));
            forall k :: k in nodes && nodes[k] > 0 ==> Entered(q, nodes, k)
  {
    hide NormalizeKey, Detour, StopsOf, Query.Offered, Query.Leads, Query.Follows, Query.IsSeed, Query.InSteps;
    hide Receivable, SourceId, NormalizedOnce, Query.Uncapped, Entered;
    var q, p := Detour(root, x), StopsOf(root, x);
    var nodes := DetourNodes(p);
    StopsAreOk(root, x);
    DetourOffers(root, x);
    DetourFollows(root, x);
    EntersBy(q, nodes, p.s, p.t, p.first);
    EntersBy(q, nodes, p.first, p.first, p.second);
    EntersBy(q, nodes, p.second, p.second, p.end);
  }

  /** A result as promised, with the wrong distance. */
  lemma DetourPromised(root: Root, x: Key)
    requires OnlyAbsolute(root) && Again(root, x)
    ensures NodesPromised(Detour(root, x), DetourNodes(StopsOf(root, x)), {})
    ensures FinalBut(Detour(root, x), {x, NormalizeKey(root, x)})
  {
    hide NormalizeKey, Detour, StopsOf, Query.Offered, Query.Leads, Query.Follows, Query.IsSeed, Query.InSteps;
    hide Receivable, Entered, Query.KeysApart, SourceId, NormalizedOnce;
    StopsAreOk(root, x);
    DetourOffers(root, x);
    DetourWalks(root, x);
    DetourEnters(root, x);
    DetourTangled(root, x);
  }

  /** Distances are shortest, for all queries whose other keys are final, exactly when normalising the key `x` twice
      is normalising it once. */
  lemma DistancesShortestWhen(root: Root, x: Key)
    requires OnlyAbsolute(root)
    ensures NormalizeKey(root, NormalizeKey(root, x)) == NormalizeKey(root, x) <==>
              forall q: Query, nodes, truncation ::
                (q.normalize == Normalizer(root) && Receivable(root, q) && FinalBut(q, {x, NormalizeKey(root, x)})
                 && NodesPromised(q, nodes, truncation))
                ==> DistancesShortest(q, nodes)
  {
    hide NormalizeKey, NodesPromised, FinalBut, Receivable, Detour, StopsOf, Query.WithinSteps, Query.Shortest;
    var s := NormalizeKey(root, x);
    if NormalizeKey(root, s) == s {
      forall q: Query, nodes, truncation
        | q.normalize == Normalizer(root) && Receivable(root, q) && FinalBut(q, {x, s})
          && NodesPromised(q, nodes, truncation)
        ensures DistancesShortest(q, nodes)
      {
        FinalKept(root, x, q, nodes, truncation);
      }
    } else {
      var nodes := DetourNodes(StopsOf(root, x));
      DetourOffers(root, x);
      DetourPromised(root, x);
      DetourTooFar(root, x, nodes, {});
      assert StopsOf(root, x).end in nodes && !DistancesShortest(Detour(root, x), nodes);
    }
  }

  /** The run itself: no cap is recorded, and the end is given a distance of three. */
  method RunDetour(root: Root, x: Key) returns (r: GraphNeighborhood)
    requires OnlyAbsolute(root) && Again(root, x)
    ensures var end := StopsOf(root, x).end;
            && Receivable(root, Detour(root, x)) && Detour(root, x).WithinSteps(end, 2)
            && r.truncation == {} && end in r.nodes && r.nodes[end] == 3
  {
    hide NodesPromised, Explored, EdgesPromised, PathsPromised, NormalizeKey, Detour, StopsOf, Receivable;
    hide Query.WithinSteps, Query.Shortest;
    var budget := new WorkBudget(None, None, 256);
    ghost var order, visited;
    DetourOffers(root, x);
    r, order, visited := BuildGraphNeighborhood(Detour(root, x), 20000, budget, n => 0);
    DetourFinds(root, x, r.nodes, order, visited, budget.reason);
    DetourTooFar(root, x, r.nodes, {});
  }

  lemma DetourFinds(root: Root, x: Key, nodes: map<Key, nat>, order: seq<QueueEntry>, visited: seq<Candidate>,
                    reason: StopReason)
    requires OnlyAbsolute(root) && Again(root, x)
    requires NodesPromised(Detour(root, x), nodes, {}) && Explored(Detour(root, x), nodes, order, visited, {}, reason)
    ensures StopsOf(root, x).end in nodes
  {
    hide NormalizeKey, Detour, StopsOf, Query.Offered, Query.Leads, Query.Follows, Query.IsSeed, Query.InSteps;
    hide Explored, Entered, Receivable, Query.KeysApart, Query.Shortest, SourceId, NormalizedOnce;
    var q, p := Detour(root, x), StopsOf(root, x);
    StopsAreOk(root, x);
    DetourOffers(root, x);
    DetourFollows(root, x);
    assert p.s in nodes && nodes[p.s] == 0;
    TargetsMet(q, nodes, order, visited, {}, reason, p.s, To(p.t, p.first));
    if p.end !in nodes {
      DetourFound(root, x, nodes, {}, p.first);
      TargetsMet(q, nodes, order, visited, {}, reason, p.first, To(p.first, p.second));
      DetourFound(root, x, nodes, {}, p.second);
      TargetsMet(q, nodes, order, visited, {}, reason, p.second, To(p.second, p.end));
    }
  }
}
