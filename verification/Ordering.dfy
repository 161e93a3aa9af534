/** Edges and their order: src/graph/ordering.js and src/graph/neighborhood/edge-policy.js.

    Endpoints are represented by their endpoint keys (the strings edgeEndpointKey returns), and evidence
    by whether it is present and non-empty. */
module Ordering {
  import opened Wrappers
  import opened Sorting

  /** The UTF-16 code units of a character, and of a string. */
  function UnitsOf(c: char): (u: seq<nat>)
    ensures |u| == 1 ==> u[0] == c as int < 0x1_0000
    ensures |u| != 1 ==>
              && |u| == 2 && 0xD800 <= u[0] < 0xDC00 <= u[1] < 0xE000
              && 0x1_0000 + (u[0] - 0xD800) * 0x400 + (u[1] - 0xDC00) == c as int
  {
    if c as int < 0x1_0000 then [c as int]
    else var v := c as int - 0x1_0000; [0xD800 + v / 0x400, 0xDC00 + v % 0x400]
  }

  function Units(s: string): seq<nat> {
    if s == "" then [] else UnitsOf(s[0]) + Units(s[1..])
  }

  lemma {:induction false} UnitsConcat(a: string, b: string)
    ensures Units(a + b) == Units(a) + Units(b) && (|a| == 1 ==> Units(a) == UnitsOf(a[0]))
  {
    hide UnitsOf;
    if a == "" {
      assert a + b == b;
    } else {
      UnitsConcat(a[1..], b);
      assert (a + b)[1..] == a[1..] + b;
      Associative(UnitsOf(a[0]), Units(a[1..]), Units(b));
    }
  }

  lemma UnitsOfDiffer(c: char, d: char, a: seq<nat>, b: seq<nat>)
    requires UnitsOf(c) + a == UnitsOf(d) + b
    ensures c == d && a == b
  {
    var s, t := UnitsOf(c) + a, UnitsOf(d) + b;
    assert s[0] == UnitsOf(c)[0] && t[0] == UnitsOf(d)[0];
    if |UnitsOf(c)| == 2 && |UnitsOf(d)| == 2 {
      assert s[1] == UnitsOf(c)[1] && t[1] == UnitsOf(d)[1];
    }
    assert a == s[|UnitsOf(c)|..] && b == t[|UnitsOf(d)|..];
  }

  /** Different strings have different code units. */
  lemma {:induction false} UnitsInjective(a: string, b: string)
    requires Units(a) == Units(b)
    ensures a == b
  {
    hide UnitsOf;
    if a != "" && b != "" {
      UnitsOfDiffer(a[0], b[0], Units(a[1..]), Units(b[1..]));
      UnitsInjective(a[1..], b[1..]);
      assert a == [a[0]] + a[1..] && b == [b[0]] + b[1..];
    }
  }

  function CompareUnits(a: seq<nat>, b: seq<nat>): int {
    if a == b then 0
    else if a == [] then -1
    else if b == [] then 1
    else if a[0] != b[0] then (if a[0] < b[0] then -1 else 1)
    else CompareUnits(a[1..], b[1..])
  }

  /** The two agree below `n`, where `a` has ended or has the smaller unit. */
  ghost predicate LessAt(a: seq<nat>, b: seq<nat>, n: nat) {
    n <= |a| && n < |b| && (n == |a| || a[n] < b[n]) && forall i :: 0 <= i < n ==> a[i] == b[i]
  }

  /** `a` comes before `b` in a dictionary of code units. */
  ghost predicate Before(a: seq<nat>, b: seq<nat>) {
    exists n: nat :: LessAt(a, b, n)
  }

  lemma LessAtTail(a: seq<nat>, b: seq<nat>, n: nat)
    requires a != [] && b != [] && a[0] == b[0]
    ensures LessAt(a, b, n + 1) <==> LessAt(a[1..], b[1..], n)
    ensures !LessAt(a, b, 0)
  {
    if LessAt(a[1..], b[1..], n) {
      forall i | 0 <= i < n + 1 ensures a[i] == b[i] {
        if i > 0 { assert a[1..][i - 1] == b[1..][i - 1]; }
      }
    }
  }

  lemma {:induction false} CompareUnitsMeans(a: seq<nat>, b: seq<nat>)
    ensures CompareUnits(a, b) < 0 <==> Before(a, b)
  {
    if a != [] && b != [] && a[0] == b[0] {
      hide LessAt;
      CompareUnitsMeans(a[1..], b[1..]);
      if Before(a, b) {
        var n: nat :| LessAt(a, b, n);
        LessAtTail(a, b, n - if n == 0 then 0 else 1);
        assert LessAt(a[1..], b[1..], n - 1);
      }
      if Before(a[1..], b[1..]) {
        var n: nat :| LessAt(a[1..], b[1..], n);
        LessAtTail(a, b, n);
      }
      assert a == [a[0]] + a[1..] && b == [b[0]] + b[1..];
    } else {
      assert LessAt(a, b, 0) <==> CompareUnits(a, b) < 0;
    }
  }

  /** JavaScript compares strings by their code units. */
  function CompareStrings(a: string, b: string): int {
    CompareUnits(Units(a), Units(b))
  }

  predicate LeqStrings(a: string, b: string) { CompareStrings(a, b) <= 0 }

  lemma {:induction false} CompareUnitsOrder(a: seq<nat>, b: seq<nat>, c: seq<nat>)
    ensures CompareUnits(a, b) == 0 <==> a == b
    ensures CompareUnits(a, b) < 0 <==> CompareUnits(b, a) > 0
    ensures CompareUnits(a, b) <= 0 && CompareUnits(b, c) <= 0 ==> CompareUnits(a, c) <= 0
    decreases |a| + |b| + |c|
  {
    if a != [] && b != [] && a[0] == b[0] {
      assert a == [a[0]] + a[1..] && b == [b[0]] + b[1..];
      if c != [] {
        assert c == [c[0]] + c[1..];
        CompareUnitsOrder(a[1..], b[1..], c[1..]);
      } else {
        CompareUnitsOrder(a[1..], b[1..], []);
      }
    }
  }

  /** compareStrings is a total order on strings. */
  lemma CompareStringsOrder(a: string, b: string, c: string)
    ensures CompareStrings(a, b) == 0 <==> a == b
    ensures CompareStrings(a, b) < 0 <==> CompareStrings(b, a) > 0
    ensures CompareStrings(a, b) <= 0 && CompareStrings(b, c) <= 0 ==> CompareStrings(a, c) <= 0
  {
    hide Units, CompareUnits;
    CompareUnitsOrder(Units(a), Units(b), Units(c));
    if Units(a) == Units(b) { UnitsInjective(a, b); }
  }

  /** The direction: a string is less when its code units come before. */
  lemma CompareStringsMeans(a: string, b: string)
    ensures CompareStrings(a, b) < 0 <==> Before(Units(a), Units(b))
    ensures CompareStrings(a, b) > 0 <==> Before(Units(b), Units(a))
    ensures LeqStrings(a, b) <==> !Before(Units(b), Units(a))
  {
    hide Units, CompareUnits, Before;
    CompareUnitsMeans(Units(a), Units(b));
    CompareUnitsMeans(Units(b), Units(a));
    CompareUnitsOrder(Units(a), Units(b), Units(a));
    CompareUnitsOrder(Units(b), Units(a), Units(b));
  }

  datatype Edge = Edge(
    graph: string, from: string, edgeType: string, to: string, confidence: Option<real>, evidence: bool)

  function EdgeKey(e: Edge): string {
    e.graph + "|" + (e.from + "|" + (e.edgeType + "|" + e.to))
  }

  predicate SameEnds(a: Edge, b: Edge) {
    a.graph == b.graph && a.from == b.from && a.edgeType == b.edgeType && a.to == b.to
  }

  // Absent confidences first, then high to low.
  function CompareConfidenceDesc(a: Option<real>, b: Option<real>): int {
    match (a, b)
    case (None, None) => 0
    case (None, Some(_)) => -1
    case (Some(_), None) => 1
    case (Some(x), Some(y)) => if x > y then -1 else if x < y then 1 else 0
  }

  function CompareGraphEdges(a: Edge, b: Edge): int {
    var fromCompare := CompareStrings(a.from, b.from);
    if fromCompare != 0 then fromCompare else
    var typeCompare := CompareStrings(a.edgeType, b.edgeType);
    if typeCompare != 0 then typeCompare else
    var graphCompare := CompareStrings(a.graph, b.graph);
    if graphCompare != 0 then graphCompare else
    var toCompare := CompareStrings(a.to, b.to);
    if toCompare != 0 then toCompare else
    var confidenceCompare := CompareConfidenceDesc(a.confidence, b.confidence);
    if confidenceCompare != 0 then confidenceCompare else CompareStrings(EdgeKey(a), EdgeKey(b))
  }

  predicate LeqEdges(a: Edge, b: Edge) { CompareGraphEdges(a, b) <= 0 }

  lemma StringsOrdered()
    ensures forall a, b :: CompareStrings(a, b) == 0 <==> a == b
    ensures forall a, b :: CompareStrings(a, b) < 0 <==> CompareStrings(b, a) > 0
    ensures forall a, b, c :: CompareStrings(a, b) <= 0 && CompareStrings(b, c) <= 0 ==> CompareStrings(a, c) <= 0
  {
    hide CompareStrings;
    forall a, b, c
      ensures CompareStrings(a, b) == 0 <==> a == b
      ensures CompareStrings(a, b) < 0 <==> CompareStrings(b, a) > 0
      ensures CompareStrings(a, b) <= 0 && CompareStrings(b, c) <= 0 ==> CompareStrings(a, c) <= 0
    {
      CompareStringsOrder(a, b, c);
    }
  }

  /** compareGraphEdges is a total preorder, and edges with the same ends are neighbours in it. */
  lemma EdgeOrder(a: Edge, b: Edge, c: Edge)
    ensures LeqEdges(a, b) || LeqEdges(b, a)
    ensures LeqEdges(a, b) && LeqEdges(b, c) ==> LeqEdges(a, c)
    ensures SameEnds(a, c) && LeqEdges(a, b) && LeqEdges(b, c) ==> SameEnds(a, b)
  {
    hide CompareStrings;
    StringsOrdered();
  }

  lemma LeqEdgesTotal()
    ensures TotalPreorder(LeqEdges)
  {
    forall a, b, c
      ensures LeqEdges(a, b) || LeqEdges(b, a)
      ensures LeqEdges(a, b) && LeqEdges(b, c) ==> LeqEdges(a, c)
    {
      EdgeOrder(a, b, c);
    }
  }

  /** What comes first: the lesser source, then type, graph and target, then no confidence, then the higher one. */
  lemma EdgeOrderMeans(a: Edge, b: Edge)
    ensures Before(Units(a.from), Units(b.from)) ==> CompareGraphEdges(a, b) < 0
    ensures a.from == b.from && Before(Units(a.edgeType), Units(b.edgeType)) ==> CompareGraphEdges(a, b) < 0
    ensures a.from == b.from && a.edgeType == b.edgeType && Before(Units(a.graph), Units(b.graph)) ==>
              CompareGraphEdges(a, b) < 0
    ensures (a.from == b.from && a.edgeType == b.edgeType && a.graph == b.graph && Before(Units(a.to), Units(b.to)))
            ==> CompareGraphEdges(a, b) < 0
    ensures (SameEnds(a, b) && b.confidence.Some? && (a.confidence.None? || a.confidence.value > b.confidence.value))
            ==> CompareGraphEdges(a, b) < 0
    ensures SameEnds(a, b) && a.confidence == b.confidence ==> CompareGraphEdges(a, b) == 0
  {
    hide CompareStrings, Before, EdgeKey, Units;
    CompareStringsMeans(a.from, b.from);
    CompareStringsMeans(a.edgeType, b.edgeType);
    CompareStringsMeans(a.graph, b.graph);
    CompareStringsMeans(a.to, b.to);
    StringsOrdered();
    SameEndsSameKey(a, b);
  }

  lemma SameEndsSameKey(a: Edge, b: Edge)
    ensures SameEnds(a, b) ==> EdgeKey(a) == EdgeKey(b)
  {
  }
}
