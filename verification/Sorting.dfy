/** Stable sorting by a comparison, the contract of Array.prototype.sort.

    A stable sort is pinned down by two facts: the result is sorted, and within each class of
    equivalent elements the original order is kept (`Class`).  `StableSortUnique` shows that these
    two facts determine the result, so any algorithm that has them computes `StableSort`. */
module Sorting {
  import opened Wrappers

  ghost predicate TotalPreorder<T(!new)>(leq: (T, T) -> bool) {
    && (forall a, b :: leq(a, b) || leq(b, a))
    && (forall a, b, c :: leq(a, b) && leq(b, c) ==> leq(a, c))
  }

  ghost predicate Sorted<T>(leq: (T, T) -> bool, s: seq<T>) {
    forall i, j :: 0 <= i < j < |s| ==> leq(s[i], s[j])
  }

  predicate Equivalent<T>(leq: (T, T) -> bool, a: T, b: T) { leq(a, b) && leq(b, a) }

  /** The elements of `s` equivalent to `z`, in their order in `s`. */
  ghost function Class<T>(leq: (T, T) -> bool, z: T, s: seq<T>): seq<T> {
    if s == [] then []
    else (if Equivalent(leq, z, s[0]) then [s[0]] else []) + Class(leq, z, s[1..])
  }

  function Insert<T>(leq: (T, T) -> bool, x: T, s: seq<T>): seq<T> {
    if s == [] || leq(x, s[0]) then [x] + s else [s[0]] + Insert(leq, x, s[1..])
  }

  function StableSort<T>(leq: (T, T) -> bool, s: seq<T>): seq<T> {
    if s == [] then [] else Insert(leq, s[0], StableSort(leq, s[1..]))
  }

  lemma {:induction false} ClassConcat<T>(leq: (T, T) -> bool, z: T, a: seq<T>, b: seq<T>)
    ensures Class(leq, z, a + b) == Class(leq, z, a) + Class(leq, z, b)
  {
    if a == [] {
      assert a + b == b;
    } else {
      assert (a + b)[1..] == a[1..] + b;
      ClassConcat(leq, z, a[1..], b);
      Associative(if Equivalent(leq, z, a[0]) then [a[0]] else [], Class(leq, z, a[1..]), Class(leq, z, b));
    }
  }

  lemma {:induction false} ClassEmpty<T>(leq: (T, T) -> bool, z: T, s: seq<T>)
    requires forall x :: x in s ==> !Equivalent(leq, z, x)
    ensures Class(leq, z, s) == []
  {
    if s != [] { ClassEmpty(leq, z, s[1..]); }
  }

  lemma {:induction false} ClassMember<T>(leq: (T, T) -> bool, z: T, s: seq<T>, x: T)
    ensures x in Class(leq, z, s) <==> x in s && Equivalent(leq, z, x)
  {
    if s != [] {
      ClassMember(leq, z, s[1..], x);
      assert s == [s[0]] + s[1..];
    }
  }

  lemma {:induction false} InsertMembers<T>(leq: (T, T) -> bool, x: T, s: seq<T>)
    ensures multiset(Insert(leq, x, s)) == multiset{x} + multiset(s)
  {
    if s == [] || leq(x, s[0]) {
    } else {
      InsertMembers(leq, x, s[1..]);
      assert s == [s[0]] + s[1..];
    }
  }

  lemma {:induction false} InsertSorted<T(!new)>(leq: (T, T) -> bool, x: T, s: seq<T>)
    requires TotalPreorder(leq) && Sorted(leq, s)
    ensures Sorted(leq, Insert(leq, x, s))
  {
    if s == [] || leq(x, s[0]) {
    } else {
      InsertSorted(leq, x, s[1..]);
      var r := Insert(leq, x, s[1..]);
      forall y | y in r ensures leq(s[0], y) {
        InsertMembers(leq, x, s[1..]);
        assert y in multiset(r);
      }
    }
  }

  lemma {:induction false} InsertClass<T(!new)>(leq: (T, T) -> bool, z: T, x: T, s: seq<T>)
    requires TotalPreorder(leq) && Sorted(leq, s)
    ensures Class(leq, z, Insert(leq, x, s)) == Class(leq, z, [x] + s)
  {
    if s == [] || leq(x, s[0]) {
    } else {
      InsertClass(leq, z, x, s[1..]);
      assert ([x] + s)[1..] == s;
      assert ([x] + s[1..])[1..] == s[1..];
      assert !(Equivalent(leq, z, x) && Equivalent(leq, z, s[0]));
    }
  }

  /** StableSort permutes, sorts, and keeps the order inside every class. */
  lemma {:induction false} StableSortCorrect<T(!new)>(leq: (T, T) -> bool, s: seq<T>)
    requires TotalPreorder(leq)
    ensures multiset(StableSort(leq, s)) == multiset(s)
    ensures Sorted(leq, StableSort(leq, s))
    ensures forall z :: Class(leq, z, StableSort(leq, s)) == Class(leq, z, s)
  {
    if s != [] {
      StableSortCorrect(leq, s[1..]);
      var t := StableSort(leq, s[1..]);
      InsertMembers(leq, s[0], t);
      InsertSorted(leq, s[0], t);
      assert s == [s[0]] + s[1..];
      forall z ensures Class(leq, z, StableSort(leq, s)) == Class(leq, z, s) {
        InsertClass(leq, z, s[0], t);
        assert ([s[0]] + t)[1..] == t;
      }
    }
  }

  lemma SortedHeads<T(!new)>(leq: (T, T) -> bool, s: seq<T>, t: seq<T>)
    requires TotalPreorder(leq) && Sorted(leq, s) && s != [] && t != []
    requires forall z :: Class(leq, z, s) == Class(leq, z, t)
    ensures leq(s[0], t[0])
  {
    ClassMember(leq, t[0], t, t[0]);
    ClassMember(leq, t[0], s, t[0]);
    assert t[0] in s;
  }

  /** Sorted and class-preserving determine the sequence. */
  lemma {:induction false} StableSortUnique<T(!new)>(leq: (T, T) -> bool, s: seq<T>, t: seq<T>)
    requires TotalPreorder(leq) && Sorted(leq, s) && Sorted(leq, t)
    requires forall z :: Class(leq, z, s) == Class(leq, z, t)
    ensures s == t
  {
    if s == [] || t == [] {
      if s != [] { ClassMember(leq, s[0], s, s[0]); }
      if t != [] { ClassMember(leq, t[0], t, t[0]); }
    } else {
      SortedHeads(leq, s, t);
      SortedHeads(leq, t, s);
      assert Class(leq, s[0], s)[0] == s[0];
      assert Class(leq, s[0], t)[0] == t[0];
      forall z ensures Class(leq, z, s[1..]) == Class(leq, z, t[1..]) {
        assert Class(leq, z, s) == Class(leq, z, t);
        var h := if Equivalent(leq, z, s[0]) then [s[0]] else [];
        assert Class(leq, z, s) == h + Class(leq, z, s[1..]);
        assert Class(leq, z, t) == h + Class(leq, z, t[1..]);
        assert (h + Class(leq, z, s[1..]))[|h|..] == Class(leq, z, s[1..]);
        assert (h + Class(leq, z, t[1..]))[|h|..] == Class(leq, z, t[1..]);
      }
      StableSortUnique(leq, s[1..], t[1..]);
      assert s == [s[0]] + s[1..];
    }
  }
}
