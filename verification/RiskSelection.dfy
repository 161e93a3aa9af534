/** The selection of full risk flows under three budgets: src/context-pack/assemble.js:1120-1289. */
module RiskSelection {
  import opened Wrappers

  const MAX_FLOWS: nat := 5
  const MAX_STEPS_PER_FLOW: nat := 8
  const MAX_CALL_SITES_PER_STEP: nat := 3
  const MAX_BYTES: nat := 24 * 1024
  const MAX_TOKENS: nat := 2048

  /** A ranked flow: its call-site ids step by step. */
  datatype Flow = Flow(rank: nat, steps: seq<seq<string>>)

  datatype CapHit = FlowsHit | BytesHit | TokensHit

  /** The serialized size of a candidate, in bytes and in tokens. */
  datatype Sizer = Sizer(bytes: Flow -> nat, tokens: Flow -> nat)

  function Take<T>(s: seq<T>, n: nat): seq<T> {
    if |s| > n then s[..n] else s
  }

  /** The candidate made of a flow: its first steps, each with its first call sites. */
  function Candidate(f: Flow): Flow {
    var limited := Take(f.steps, MAX_STEPS_PER_FLOW);
    Flow(f.rank, seq(|limited|, i requires 0 <= i < |limited| => Take(limited[i], MAX_CALL_SITES_PER_STEP)))
  }

  /** `c` has the rank of `f`, its first eight steps, and of each of them the first three call sites. */
  ghost predicate MadeFrom(f: Flow, c: Flow) {
    && c.rank == f.rank && |c.steps| == Min(8, |f.steps|)
    && forall i :: 0 <= i < |c.steps| ==>
         && |c.steps[i]| == Min(3, |f.steps[i]|)
         && forall j :: 0 <= j < |c.steps[i]| ==> c.steps[i][j] == f.steps[i][j]
  }

  lemma CandidateMeans(f: Flow)
    ensures MadeFrom(f, Candidate(f))
  {
  }

  /** The selected flows are made, one each and in order, from the flows at `picks`, the chosen ones. */
  ghost predicate SelectedFrom(ranked: seq<Flow>, mask: seq<bool>, picks: seq<nat>, selected: seq<Flow>)
    requires |mask| == |ranked|
  {
    && |picks| == |selected| && (forall a, b :: 0 <= a < b < |picks| ==> picks[a] < picks[b])
    && (forall a :: 0 <= a < |picks| ==>
          picks[a] < |ranked| && mask[picks[a]] && MadeFrom(ranked[picks[a]], selected[a]))
    && forall i :: 0 <= i < |ranked| && mask[i] ==> i in picks
  }

  lemma {:induction false} ChosenMeans(ranked: seq<Flow>, mask: seq<bool>) returns (picks: seq<nat>)
    requires |mask| == |ranked|
    ensures SelectedFrom(ranked, mask, picks, Chosen(ranked, mask))
  {
    hide Candidate, MadeFrom;
    picks := [];
    if ranked != [] {
      var n := |ranked| - 1;
      picks := ChosenMeans(ranked[..n], mask[..n]);
      if mask[n] {
        CandidateMeans(ranked[n]);
        var before := picks;
        picks := picks + [n];
        forall i | 0 <= i < |ranked| && mask[i] ensures i in picks {
          if i < n { assert mask[..n][i] && i in before; } else { assert picks[|before|] == n; }
        }
      } else {
        forall i | 0 <= i < |ranked| && mask[i] ensures i in picks { assert mask[..n][i]; }
      }
    }
  }

  ghost function Total(size: Flow -> nat, s: seq<Flow>): nat {
    if s == [] then 0 else Total(size, s[..|s| - 1]) + size(s[|s| - 1])
  }

  ghost predicate WithinCaps(z: Sizer, s: seq<Flow>) {
    |s| <= MAX_FLOWS && Total(z.bytes, s) <= MAX_BYTES && Total(z.tokens, s) <= MAX_TOKENS
  }

  lemma CapsMean(z: Sizer, s: seq<Flow>)
    ensures WithinCaps(z, s) <==> |s| <= 5 && Total(z.bytes, s) <= 24576 && Total(z.tokens, s) <= 2048
  {
  }

  /** The candidates of the chosen flows, in ranking order. */
  ghost function Chosen(ranked: seq<Flow>, mask: seq<bool>): seq<Flow>
    requires |mask| == |ranked|
  {
    if ranked == [] then []
    else
      var n := |ranked| - 1;
      Chosen(ranked[..n], mask[..n]) + if mask[n] then [Candidate(ranked[n])] else []
  }

  /** A flow is chosen exactly when it fits beside those chosen before it. */
  ghost predicate Greedy(z: Sizer, ranked: seq<Flow>, mask: seq<bool>) {
    && |mask| == |ranked|
    && forall i :: 0 <= i < |ranked| ==>
         (mask[i] <==> WithinCaps(z, Chosen(ranked[..i], mask[..i]) + [Candidate(ranked[i])]))
  }

  /** Some flow came up when the selection was already full. */
  ghost predicate SomeCameLate(ranked: seq<Flow>, mask: seq<bool>)
    requires |mask| == |ranked|
  {
    exists i :: 0 <= i < |ranked| && |Chosen(ranked[..i], mask[..i])| >= MAX_FLOWS
  }

  /** Some flow was omitted although the selection was not full. */
  ghost predicate SomeTooBig(ranked: seq<Flow>, mask: seq<bool>)
    requires |mask| == |ranked|
  {
    exists i :: 0 <= i < |ranked| && !mask[i] && |Chosen(ranked[..i], mask[..i])| < MAX_FLOWS
  }

  /** The first flow omitted although the selection was not full would have broken the limit on `size`. */
  ghost predicate FirstOverflows(size: Flow -> nat, limit: nat, ranked: seq<Flow>, mask: seq<bool>)
    requires |mask| == |ranked|
  {
    ranked != [] &&
    var n := |ranked| - 1;
    if SomeTooBig(ranked[..n], mask[..n]) then FirstOverflows(size, limit, ranked[..n], mask[..n])
    else
      var before := Chosen(ranked[..n], mask[..n]);
      !mask[n] && |before| < MAX_FLOWS && Total(size, before) + size(Candidate(ranked[n])) > limit
  }

  datatype Selection = Selection(
    selected: seq<Flow>, omittedFlows: nat, emittedBytes: nat, emittedTokens: nat, capHits: set<CapHit>)

  method SelectFlows(z: Sizer, ranked: seq<Flow>) returns (r: Selection, ghost mask: seq<bool>)
    ensures Greedy(z, ranked, mask)
    ensures r.selected == Chosen(ranked, mask) && WithinCaps(z, r.selected)
    ensures exists picks :: SelectedFrom(ranked, mask, picks, r.selected)
    ensures |r.selected| <= 5 && r.emittedBytes <= 24576 && r.emittedTokens <= 2048
    ensures |r.selected| + r.omittedFlows == |ranked|
    ensures r.emittedBytes == Total(z.bytes, r.selected) && r.emittedTokens == Total(z.tokens, r.selected)
    ensures FlowsHit in r.capHits <==> SomeCameLate(ranked, mask)
    ensures BytesHit in r.capHits || TokensHit in r.capHits <==> SomeTooBig(ranked, mask)
    ensures BytesHit in r.capHits <==> FirstOverflows(z.bytes, MAX_BYTES, ranked, mask)
    ensures TokensHit in r.capHits <==> FirstOverflows(z.tokens, MAX_TOKENS, ranked, mask)
  {
    hide Total, Chosen, Candidate, Greedy, SomeCameLate, SomeTooBig, FirstOverflows, SelectedFrom;
    var selected: seq<Flow> := [];
    var omittedFlows, emittedBytes, emittedTokens, capHits := 0, 0, 0, {};
    var budgetRecorded := false;
    mask := [];
    NothingChosen(z);
    for n := 0 to |ranked|
      invariant |mask| == n && Greedy(z, ranked[..n], mask)
      invariant selected == Chosen(ranked[..n], mask) && WithinCaps(z, selected)
      invariant |selected| + omittedFlows == n
      invariant emittedBytes == Total(z.bytes, selected) && emittedTokens == Total(z.tokens, selected)
      invariant FlowsHit in capHits <==> SomeCameLate(ranked[..n], mask)
      invariant budgetRecorded <==> BytesHit in capHits || TokensHit in capHits
      invariant budgetRecorded <==> SomeTooBig(ranked[..n], mask)
      invariant BytesHit in capHits <==> FirstOverflows(z.bytes, MAX_BYTES, ranked[..n], mask)
      invariant TokensHit in capHits <==> FirstOverflows(z.tokens, MAX_TOKENS, ranked[..n], mask)
    {
      var entry := ranked[n];
      var candidate := Candidate(entry);
      ghost var fits := WithinCaps(z, selected + [candidate]);
      Extend(z, ranked, n, mask, fits);
      TotalAppend(z.bytes, selected, candidate);
      TotalAppend(z.tokens, selected, candidate);
      OverflowsNext(z.bytes, MAX_BYTES, ranked, n, mask, fits);
      OverflowsNext(z.tokens, MAX_TOKENS, ranked, n, mask, fits);
      mask := mask + [fits];
      if |selected| >= MAX_FLOWS {
        omittedFlows := omittedFlows + 1;
        capHits := capHits + {FlowsHit};
      } else {
        var bytes, tokens := z.bytes(candidate), z.tokens(candidate);
        if emittedBytes + bytes > MAX_BYTES || emittedTokens + tokens > MAX_TOKENS {
          omittedFlows := omittedFlows + 1;
          if !budgetRecorded {
            if emittedBytes + bytes > MAX_BYTES { capHits := capHits + {BytesHit}; }
            if emittedTokens + tokens > MAX_TOKENS { capHits := capHits + {TokensHit}; }
            budgetRecorded := true;
          }
        } else {
          emittedBytes := emittedBytes + bytes;
          emittedTokens := emittedTokens + tokens;
          selected := selected + [candidate];
        }
      }
    }
    assert ranked[..|ranked|] == ranked;
    ghost var picks := ChosenMeans(ranked, mask);
    r := Selection(selected, omittedFlows, emittedBytes, emittedTokens, capHits);
  }

  lemma NothingChosen(z: Sizer)
    ensures WithinCaps(z, []) && Chosen([], []) == [] && Total(z.bytes, []) == 0 && Total(z.tokens, []) == 0
    ensures Greedy(z, [], []) && !SomeCameLate([], []) && !SomeTooBig([], [])
    ensures !FirstOverflows(z.bytes, MAX_BYTES, [], []) && !FirstOverflows(z.tokens, MAX_TOKENS, [], [])
  {
  }

  lemma OverflowsNext(size: Flow -> nat, limit: nat, ranked: seq<Flow>, n: nat, mask: seq<bool>, b: bool)
    requires n < |ranked| && |mask| == n
    ensures FirstOverflows(size, limit, ranked[..n + 1], mask + [b]) <==>
              if SomeTooBig(ranked[..n], mask) then FirstOverflows(size, limit, ranked[..n], mask)
              else !b && |Chosen(ranked[..n], mask)| < MAX_FLOWS
                   && Total(size, Chosen(ranked[..n], mask)) + size(Candidate(ranked[n])) > limit
  {
    hide SomeTooBig, Chosen, Total, Candidate;
    assert ranked[..n + 1][..n] == ranked[..n] && (mask + [b])[..n] == mask;
  }

  lemma TotalAppend(size: Flow -> nat, s: seq<Flow>, x: Flow)
    ensures Total(size, s + [x]) == Total(size, s) + size(x)
  {
    assert (s + [x])[..|s|] == s;
  }

  lemma ChosenAppend(ranked: seq<Flow>, n: nat, mask: seq<bool>, b: bool)
    requires n < |ranked| && |mask| == n
    ensures Chosen(ranked[..n + 1], mask + [b]) == Chosen(ranked[..n], mask) + if b then [Candidate(ranked[n])] else []
  {
    assert ranked[..n + 1][..n] == ranked[..n] && (mask + [b])[..n] == mask;
  }

  /** One more flow in the ranking. */
  lemma Extend(z: Sizer, ranked: seq<Flow>, n: nat, mask: seq<bool>, b: bool)
    requires n < |ranked| && |mask| == n && Greedy(z, ranked[..n], mask)
    requires b <==> WithinCaps(z, Chosen(ranked[..n], mask) + [Candidate(ranked[n])])
    ensures Greedy(z, ranked[..n + 1], mask + [b])
    ensures Chosen(ranked[..n + 1], mask + [b]) == Chosen(ranked[..n], mask) + if b then [Candidate(ranked[n])] else []
    ensures SomeCameLate(ranked[..n + 1], mask + [b]) <==>
              SomeCameLate(ranked[..n], mask) || |Chosen(ranked[..n], mask)| >= MAX_FLOWS
    ensures SomeTooBig(ranked[..n + 1], mask + [b]) <==>
              SomeTooBig(ranked[..n], mask) || (!b && |Chosen(ranked[..n], mask)| < MAX_FLOWS)
  {
    hide Chosen, Candidate, WithinCaps;
    ChosenAppend(ranked, n, mask, b);
    var longer, mask' := ranked[..n + 1], mask + [b];
    forall i | 0 <= i <= n ensures longer[..i] == ranked[..n][..i] && mask'[..i] == mask[..i] {}
    assert ranked[..n][..n] == ranked[..n] && mask[..n] == mask;
    assert forall i :: 0 <= i < n ==> longer[i] == ranked[..n][i];
    if SomeCameLate(ranked[..n], mask) {
      var i :| 0 <= i < n && |Chosen(ranked[..n][..i], mask[..i])| >= MAX_FLOWS;
      assert |Chosen(longer[..i], mask'[..i])| >= MAX_FLOWS;
    }
    if |Chosen(ranked[..n], mask)| >= MAX_FLOWS { assert |Chosen(longer[..n], mask'[..n])| >= MAX_FLOWS; }
    if SomeTooBig(ranked[..n], mask) {
      var i :| 0 <= i < n && !mask[i] && |Chosen(ranked[..n][..i], mask[..i])| < MAX_FLOWS;
      assert !mask'[i] && |Chosen(longer[..i], mask'[..i])| < MAX_FLOWS;
    }
    if !b && |Chosen(ranked[..n], mask)| < MAX_FLOWS {
      assert !mask'[n] && |Chosen(longer[..n], mask'[..n])| < MAX_FLOWS;
    }
  }

  // ---- The greedy choice is the best one ----

  lemma {:induction false} TotalOfPrefix(size: Flow -> nat, s: seq<Flow>, n: nat)
    requires n <= |s|
    ensures Total(size, s[..n]) <= Total(size, s)
  {
    if n < |s| {
      TotalOfPrefix(size, s[..|s| - 1], n);
      assert s[..|s| - 1][..n] == s[..n];
    } else {
      assert s[..n] == s;
    }
  }

  lemma {:induction false} ChosenPrefix(ranked: seq<Flow>, mask: seq<bool>, n: nat)
    requires |mask| == |ranked| && n <= |ranked|
    ensures Chosen(ranked[..n], mask[..n]) <= Chosen(ranked, mask)
  {
    if n < |ranked| {
      var m := |ranked| - 1;
      ChosenPrefix(ranked[..m], mask[..m], n);
      assert ranked[..m][..n] == ranked[..n] && mask[..m][..n] == mask[..n];
    } else {
      assert ranked[..n] == ranked && mask[..n] == mask;
    }
  }

  /** Any other choice within the caps passes over a flow the greedy choice takes, at the first place the
      two differ. */
  lemma GreedyIsBest(z: Sizer, ranked: seq<Flow>, greedy: seq<bool>, other: seq<bool>, i: nat)
    requires Greedy(z, ranked, greedy) && |other| == |ranked| && WithinCaps(z, Chosen(ranked, other))
    requires i < |ranked| && greedy[..i] == other[..i] && greedy[i] != other[i]
    ensures greedy[i] && !other[i]
  {
    hide Total, Chosen, Candidate, WithinCaps;
    if other[i] {
      var taken := Chosen(ranked[..i], other[..i]) + [Candidate(ranked[i])];
      ChosenAppend(ranked, i, other[..i], true);
      assert other[..i] + [true] == other[..i + 1];
      ChosenPrefix(ranked, other, i + 1);
      PrefixWithinCaps(z, taken, Chosen(ranked, other));
    }
  }

  lemma PrefixWithinCaps(z: Sizer, taken: seq<Flow>, all: seq<Flow>)
    requires taken <= all && WithinCaps(z, all)
    ensures WithinCaps(z, taken)
  {
    hide Total;
    assert taken == all[..|taken|];
    TotalOfPrefix(z.bytes, all, |taken|);
    TotalOfPrefix(z.tokens, all, |taken|);
  }

  /** So no omitted flow could be added to the final selection without breaking a cap. */
  lemma NothingFitsBeside(z: Sizer, ranked: seq<Flow>, mask: seq<bool>, i: nat)
    requires Greedy(z, ranked, mask) && i < |ranked| && !mask[i]
    ensures !WithinCaps(z, Chosen(ranked, mask[i := true]))
  {
    var more := mask[i := true];
    if WithinCaps(z, Chosen(ranked, more)) {
      assert more[..i] == mask[..i];
      GreedyIsBest(z, ranked, mask, more, i);
    }
  }
}
