/** The keys at the ends of edges, from the references they are made of: src/graph/ordering.js:33-81. */
module EnvelopeKeys {
  import opened Wrappers
  import opened Sorting
  import opened Ordering
  import opened EdgeNames
  import opened Refs
  import Indexes = GraphIndexes

  // ---- Symbol references ----

  /** The fields a candidate is known by; "" when missing. */
  datatype Target = Target(symbolId: string, chunkUid: string, path: string, symbolKey: string, signatureKey: string)

  function KeyOfTarget(c: Target): string {
    if c.symbolId != "" then "symbol:" + c.symbolId
    else if c.chunkUid != "" then "chunk:" + c.chunkUid
    else if c.path != "" then "file:" + c.path
    else if c.symbolKey != "" then "symbolKey:" + c.symbolKey
    else if c.signatureKey != "" then "signatureKey:" + c.signatureKey
    else ""
  }

  /** A candidate is known by its first field, whatever the later ones hold. */
  lemma FirstFieldNames(c: Target)
    ensures c.symbolId != "" ==> Names("symbol:", KeyOfTarget(c))
    ensures c.symbolId == "" && c.chunkUid != "" ==> KeyOfTarget(c) == "chunk:" + c.chunkUid
    ensures c.symbolId == c.chunkUid == "" && c.path != "" ==> Names("file:", KeyOfTarget(c))
    ensures c.symbolId == c.chunkUid == c.path == "" && c.symbolKey != "" ==> Names("symbolKey:", KeyOfTarget(c))
  {
  }

  /** A reference from a symbol edge. */
  datatype Envelope = Envelope(resolved: Option<Target>, candidates: seq<Target>, targetName: string, status: string)

  ghost predicate KeyIn(candidates: seq<Target>, k: string) {
    k != "" && exists c :: c in candidates && KeyOfTarget(c) == k
  }

  /** The keys of the candidates that have one, each once. */
  function KeysOf(candidates: seq<Target>): (keys: seq<string>)
    ensures Indexes.Distinct(keys) && forall k :: k in keys <==> KeyIn(candidates, k)
  {
    if candidates == [] then []
    else
      var n := |candidates| - 1;
      var before, k := KeysOf(candidates[..n]), KeyOfTarget(candidates[n]);
      assert candidates == candidates[..n] + [candidates[n]];
      assert forall j :: KeyIn(candidates, j) <==> KeyIn(candidates[..n], j) || (j != "" && j == k);
      if k == "" || k in before then before else before + [k]
  }

  function EnvelopeKey(e: Envelope): string {
    if e.resolved.Some? && KeyOfTarget(e.resolved.value) != "" then KeyOfTarget(e.resolved.value)
    else
      var unique := StableSort(LeqStrings, KeysOf(e.candidates));
      if |unique| == 1 then unique[0]
      else if unique != [] then "candidates:" + Joined(unique)
      else if e.targetName != "" then "name:" + e.targetName
      else "status:" + e.status
  }

  /** Joining puts one bar between two parts. */
  lemma {:induction false} JoinedConcat(a: seq<string>, b: seq<string>)
    requires a != [] && b != []
    ensures Joined(a + b) == Joined(a) + "|" + Joined(b) && (|a| == 1 ==> Joined(a) == a[0])
  {
    if |a| > 1 {
      JoinedConcat(a[1..], b);
      assert (a + b)[1..] == a[1..] + b;
      Associative(a[0] + "|", Joined(a[1..]) + "|", Joined(b));
      Associative(a[0] + "|", Joined(a[1..]), "|");
    } else {
      assert (a + b)[1..] == b;
    }
  }

  lemma KeyIsCandidate(c: Target)
    ensures KeyOfTarget(c) == "" || CandidateKey(KeyOfTarget(c))
  {
  }

  lemma KeyedTarget(k: string) returns (c: Target)
    requires CandidateKey(k)
    ensures KeyOfTarget(c) == k
  {
    c := if Names("symbol:", k) then Target(k[|"symbol:"|..], "", "", "", "")
         else if Names("chunk:", k) then Target("", k[|"chunk:"|..], "", "", "")
         else if Names("file:", k) then Target("", "", k[|"file:"|..], "", "")
         else if Names("symbolKey:", k) then Target("", "", "", k[|"symbolKey:"|..], "")
         else Target("", "", "", "", k[|"signatureKey:"|..]);
  }

  lemma {:induction false} KeyedTargets(keys: seq<string>) returns (cs: seq<Target>)
    requires Indexes.Distinct(keys) && forall k :: k in keys ==> CandidateKey(k) && k != ""
    ensures KeysOf(cs) == keys
  {
    hide KeyOfTarget, CandidateKey;
    cs := [];
    if keys != [] {
      var n := |keys| - 1;
      var before := KeyedTargets(keys[..n]);
      var c := KeyedTarget(keys[n]);
      cs := before + [c];
      assert cs[..|cs| - 1] == before && keys == keys[..n] + [keys[n]];
      assert keys[n] !in keys[..n];
    }
  }

  lemma SortedStays(keys: seq<string>)
    requires Sorted(LeqStrings, keys)
    ensures StableSort(LeqStrings, keys) == keys
  {
    hide LeqStrings;
    Indexes.LeqStringsTotal();
    StableSortCorrect(LeqStrings, keys);
    StableSortUnique(LeqStrings, StableSort(LeqStrings, keys), keys);
  }

  lemma SortedKeys(cs: seq<Target>)
    ensures var unique := StableSort(LeqStrings, KeysOf(cs));
            (|unique| >= 2 ==> CandidateList(unique)) && (unique != [] ==> CandidateKey(unique[0]))
  {
    hide KeyOfTarget, CandidateKey, CompareStrings, StableSort;
    var unique := StableSort(LeqStrings, KeysOf(cs));
    Indexes.SortedStrings(KeysOf(cs));
    StringsOrdered();
    forall k | k in unique ensures CandidateKey(k) {
      var c :| c in cs && KeyOfTarget(c) == k;
      KeyIsCandidate(c);
    }
  }

  lemma EnvelopeFor(k: string) returns (e: Envelope)
    requires SymbolTarget(k)
    ensures e.status != "" && EnvelopeKey(e) == k
  {
    hide CandidateKey, CompareStrings;
    if CandidateKey(k) {
      var c := KeyedTarget(k);
      NotEmpty(k);
      e := Envelope(Some(c), [], "", "resolved");
    } else if Names("name:", k) {
      e := Envelope(None, [], k[|"name:"|..], "unresolved");
    } else if Names("status:", k) {
      e := Envelope(None, [], "", k[|"status:"|..]);
    } else {
      var keys :| CandidateList(keys) && k == "candidates:" + Joined(keys);
      forall j | j in keys ensures j != "" { NotEmpty(j); }
      StringsOrdered();
      var cs := KeyedTargets(keys);
      SortedStays(keys);
      e := Envelope(None, cs, "", "ambiguous");
    }
  }

  lemma NotEmpty(k: string)
    requires CandidateKey(k)
    ensures k != ""
  {
  }

  /** The keys of references with a status are exactly what symbol edges are taken to lead to. */
  lemma EnvelopeKeysAre(k: string)
    ensures (exists e: Envelope :: e.status != "" && EnvelopeKey(e) == k) <==> SymbolTarget(k)
  {
    hide KeyOfTarget, CandidateKey, StableSort, KeysOf, CandidateList;
    if e: Envelope :| e.status != "" && EnvelopeKey(e) == k {
      if e.resolved.Some? { KeyIsCandidate(e.resolved.value); }
      SortedKeys(e.candidates);
    }
    if SymbolTarget(k) { var e := EnvelopeFor(k); }
  }

  // ---- Nodes ----

  /** The ends and the types of the edges of the other graphs: nodes with an id, and one type for each graph. */
  lemma MadeEnds(e: Edge)
    requires MadeEdge(e) && e.graph != "symbolEdges"
    ensures e.graph == "callGraph" ==> e.edgeType == "call"
    ensures e.graph == "usageGraph" ==> e.edgeType == "usage"
    ensures e.graph == "importGraph" ==> e.edgeType == "import"
    ensures exists id :: id != "" && e.from in {NodeKey(Chunk(id)), NodeKey(File(id))}
                         && (e.from == NodeKey(Chunk(id)) || e.graph == "importGraph")
    ensures exists id :: id != "" && e.to == NodeKey(if e.graph == "importGraph" then File(id) else Chunk(id))
  {
    var kind := TargetKind(e.graph);
    var id := e.to[|kind|..];
    assert e.to == kind + id;
    assert e.to == NodeKey(if e.graph == "importGraph" then File(id) else Chunk(id));
    if Names("chunk:", e.from) {
      assert e.from == NodeKey(Chunk(e.from[|"chunk:"|..]));
    } else {
      assert e.from == NodeKey(File(e.from[|"file:"|..]));
    }
  }
}
