/** The caches over Map insertion order: src/context-pack/assemble.js:1650-1667 and
    src/graph/neighborhood/cache.js. */
module LruCaches {
  import opened Wrappers

  /** A Map in insertion order, oldest first; keys occur once. */
  type Entries<V> = seq<(string, V)>

  ghost predicate Unique<V>(e: Entries<V>) {
    forall i, j :: 0 <= i < j < |e| ==> e[i].0 != e[j].0
  }

  predicate Has<V>(e: Entries<V>, key: string) {
    exists i :: 0 <= i < |e| && e[i].0 == key
  }

  function Without<V>(e: Entries<V>, key: string): Entries<V> {
    if e == [] then [] else (if e[0].0 == key then [] else [e[0]]) + Without(e[1..], key)
  }

  function Lookup<V>(e: Entries<V>, key: string): Option<V> {
    if e == [] then None else if e[0].0 == key then Some(e[0].1) else Lookup(e[1..], key)
  }

  function Newest<V>(e: Entries<V>, n: nat): Entries<V> {
    if |e| <= n then e else e[|e| - n..]
  }

  // ---- What the cache should hold ----

  datatype Op<V> = Get(key: string) | Set(key: string, value: V)

  /** The last touch of each key, in order. */
  ghost function LastTouches<V>(touches: Entries<V>): Entries<V> {
    if touches == [] then []
    else (if Has(touches[1..], touches[0].0) then [] else [touches[0]]) + LastTouches(touches[1..])
  }

  /** A touch is a set, or a get of one of the `size` most recently touched keys; the empty key never touches. */
  ghost function Touches<V>(ops: seq<Op<V>>, size: nat): Entries<V> {
    if ops == [] then []
    else
      var before, op := Touches(ops[..|ops| - 1], size), ops[|ops| - 1];
      if op.key == "" then before
      else
        match op
        case Set(k, v) => before + [(k, v)]
        case Get(k) =>
          var hit := Lookup(Newest(LastTouches(before), size), k);
          if hit.Some? then before + [(k, hit.value)] else before
  }

  /** The most recently touched distinct keys, up to `size`, in last-touch order. */
  ghost function Expected<V>(ops: seq<Op<V>>, size: nat): Entries<V> {
    Newest(LastTouches(Touches(ops, size)), size)
  }

  // ---- The cache ----

  /** What one operation does to the entries. */
  function Apply<V>(e: Entries<V>, op: Op<V>, size: nat): Entries<V> {
    if op.key == "" then e
    else
      match op
      case Set(k, v) => Newest(Without(e, k) + [(k, v)], size)
      case Get(k) =>
        var found := Lookup(e, k);
        if found.None? then e else Without(e, k) + [(k, found.value)]
  }

  class Cache<V> {
    var entries: Entries<V>

    constructor ()
      ensures entries == []
    {
      entries := [];
    }

    /** A hit moves the key to the newest end. */
    method GetCachedValue(key: string) returns (value: Option<V>)
      modifies this
      ensures value == if key == "" then None else Lookup(old(entries), key)
      ensures forall size: nat :: entries == Apply(old(entries), Get(key), size)
    {
      if key == "" { return None; }
      value := Lookup(entries, key);
      if value.None? { return; }
      entries := Without(entries, key);
      entries := entries + [(key, value.value)];
    }

    /** The key goes to the newest end, and the oldest entries beyond the size are dropped. */
    method SetCachedValue(key: string, value: V, maxSize: nat) returns (evictions: nat)
      modifies this
      ensures entries == Apply(old(entries), Set(key, value), maxSize)
      ensures evictions == if key == "" then 0 else |Without(old(entries), key)| + 1 - |entries|
    {
      hide Without;
      evictions := 0;
      if key == "" { return; }
      entries := Without(entries, key);
      entries := entries + [(key, value)];
      ghost var longer := entries;
      while |entries| > maxSize
        invariant evictions <= |longer| && entries == longer[evictions..]
        invariant evictions > 0 ==> |longer| - evictions >= maxSize
      {
        entries := entries[1..];
        evictions := evictions + 1;
      }
    }
  }

  lemma {:induction false} WithoutAbsent<V>(e: Entries<V>, key: string)
    requires !Has(e, key)
    ensures Without(e, key) == e
  {
    if e != [] {
      HasCons(e, key);
      WithoutAbsent(e[1..], key);
      assert e == [e[0]] + e[1..];
    }
  }

  lemma HasCons<V>(e: Entries<V>, key: string)
    requires e != []
    ensures Has(e, key) <==> e[0].0 == key || Has(e[1..], key)
  {
    if Has(e, key) && e[0].0 != key {
      var i :| 0 <= i < |e| && e[i].0 == key;
      assert e[1..][i - 1].0 == key;
    }
    if Has(e[1..], key) {
      var i :| 0 <= i < |e[1..]| && e[1..][i].0 == key;
      assert e[i + 1].0 == key;
    }
  }

  lemma {:induction false} WithoutConcat<V>(a: Entries<V>, b: Entries<V>, key: string)
    ensures Without(a + b, key) == Without(a, key) + Without(b, key)
  {
    if a == [] {
      assert a + b == b;
    } else {
      assert (a + b)[1..] == a[1..] + b;
      WithoutConcat(a[1..], b, key);
      Associative(if a[0].0 == key then [] else [a[0]], Without(a[1..], key), Without(b, key));
    }
  }

  lemma {:induction false} HasConcat<V>(a: Entries<V>, b: Entries<V>, key: string)
    ensures Has(a + b, key) <==> Has(a, key) || Has(b, key)
  {
    if Has(a, key) { var i :| 0 <= i < |a| && a[i].0 == key; assert (a + b)[i].0 == key; }
    if Has(b, key) { var i :| 0 <= i < |b| && b[i].0 == key; assert (a + b)[|a| + i].0 == key; }
    if Has(a + b, key) { var i :| 0 <= i < |a + b| && (a + b)[i].0 == key; assert i >= |a| ==> b[i - |a|].0 == key; }
  }

  /** Once keys are unique, removing one that is present removes one entry. */
  lemma {:induction false} WithoutPresent<V>(e: Entries<V>, key: string)
    requires Unique(e) && Has(e, key)
    ensures |Without(e, key)| == |e| - 1
  {
    HasCons(e, key);
    if e[0].0 == key {
      assert !Has(e[1..], key);
      WithoutAbsent(e[1..], key);
    } else {
      WithoutPresent(e[1..], key);
    }
  }

  lemma {:induction false} LookupHas<V>(e: Entries<V>, key: string)
    ensures Lookup(e, key).Some? <==> Has(e, key)
  {
    if e != [] {
      HasCons(e, key);
      LookupHas(e[1..], key);
    }
  }

  lemma NotInBoth<V>(a: Entries<V>, b: Entries<V>, key: string)
    requires Unique(a + b) && Has(b, key)
    ensures !Has(a, key)
  {
    var j :| 0 <= j < |b| && b[j].0 == key;
    assert (a + b)[|a| + j].0 == key;
    forall i | 0 <= i < |a| ensures a[i].0 != key { assert (a + b)[i] == a[i]; }
  }

  lemma WithoutNothing<V>(key: string)
    ensures Without<V>([], key) == []
  {
  }

  /** Touching a key among the newest entries and touching it among all of them leave the same newest. */
  lemma TouchNewest<V>(all: Entries<V>, size: nat, key: string, value: V)
    requires Unique(all)
    ensures Newest(Without(Newest(all, size), key) + [(key, value)], size)
              == Newest(Without(all, key) + [(key, value)], size)
    ensures Has(Newest(all, size), key) ==> |Without(Newest(all, size), key) + [(key, value)]| <= size
  {
    hide Without, Has;
    var kept := Newest(all, size);
    var older := all[..|all| - |kept|];
    assert all == older + kept;
    WithoutConcat(older, kept, key);
    if Has(kept, key) {
      WithoutPresent(kept, key);
      NotInBoth(older, kept, key);
      WithoutAbsent(older, key);
    } else {
      WithoutAbsent(kept, key);
    }
    var x := Without(kept, key) + [(key, value)];
    assert Without(all, key) + [(key, value)] == Without(older, key) + x;
    WithoutNothing<V>(key);
  }

  lemma {:induction false} LastTouchesAppend<V>(touches: Entries<V>, x: (string, V))
    ensures LastTouches(touches + [x]) == Without(LastTouches(touches), x.0) + [x]
  {
    if touches == [] {
      assert touches + [x] == [x];
    } else {
      LastTouchesAppend(touches[1..], x);
      assert (touches + [x])[1..] == touches[1..] + [x];
      HasConcat(touches[1..], [x], touches[0].0);
      assert Has([x], touches[0].0) <==> [x][0].0 == touches[0].0;
      var head := if Has(touches[1..], touches[0].0) then [] else [touches[0]];
      WithoutConcat(head, LastTouches(touches[1..]), x.0);
      Associative(Without(head, x.0), Without(LastTouches(touches[1..]), x.0), [x]);
    }
  }

  lemma {:induction false} LastTouchesUnique<V>(touches: Entries<V>)
    ensures Unique(LastTouches(touches))
    ensures forall key :: Has(LastTouches(touches), key) <==> Has(touches, key)
  {
    if touches != [] {
      LastTouchesUnique(touches[1..]);
      var head := if Has(touches[1..], touches[0].0) then [] else [touches[0]];
      var rest := LastTouches(touches[1..]);
      forall key ensures Has(head + rest, key) <==> Has(touches, key) {
        HasConcat(head, rest, key);
        HasCons(touches, key);
        assert head != [] ==> head[0] == touches[0] && |head| == 1;
      }
      if head != [] {
        forall j | 0 <= j < |rest| ensures rest[j].0 != touches[0].0 {
          assert Has(rest, rest[j].0);
        }
      }
    }
  }

  ghost function Replay<V>(ops: seq<Op<V>>, size: nat): Entries<V> {
    if ops == [] then [] else Apply(Replay(ops[..|ops| - 1], size), ops[|ops| - 1], size)
  }

  /** After any sequence of gets and sets the cache holds exactly the most recently touched distinct keys up
      to its size, in last-touch order, each with its last value. */
  lemma {:induction false} CacheHoldsExpected<V>(ops: seq<Op<V>>, size: nat)
    ensures Replay(ops, size) == Expected(ops, size)
  {
    if ops != [] {
      var front, op := ops[..|ops| - 1], ops[|ops| - 1];
      CacheHoldsExpected(front, size);
      var touches := Touches(front, size);
      var all := LastTouches(touches);
      LastTouchesUnique(touches);
      if op.key != "" {
        match op {
          case Set(k, v) =>
            LastTouchesAppend(touches, (k, v));
            TouchNewest(all, size, k, v);
          case Get(k) =>
            var hit := Lookup(Newest(all, size), k);
            LookupHas(Newest(all, size), k);
            if hit.Some? {
              LastTouchesAppend(touches, (k, hit.value));
              TouchNewest(all, size, k, hit.value);
            }
        }
      }
    }
  }

  /** The value the last set of `key` gave it. */
  ghost function LastSet<V>(ops: seq<Op<V>>, key: string): Option<V> {
    if ops == [] then None
    else
      var op := ops[|ops| - 1];
      if op.Set? && op.key == key then Some(op.value) else LastSet(ops[..|ops| - 1], key)
  }

  lemma {:induction false} LookupMember<V>(e: Entries<V>, key: string)
    ensures Lookup(e, key).Some? ==> (key, Lookup(e, key).value) in e
  {
    if e != [] { LookupMember(e[1..], key); }
  }

  lemma {:induction false} WithoutMember<V>(e: Entries<V>, key: string, x: (string, V))
    requires x in Without(e, key)
    ensures x in e && x.0 != key
  {
    if x !in (if e[0].0 == key then [] else [e[0]]) { WithoutMember(e[1..], key, x); }
  }

  /** Every value the cache holds is the one its key was last set to. */
  lemma {:induction false} ValuesAreLastSet<V>(ops: seq<Op<V>>, size: nat, x: (string, V))
    requires x in LastTouches(Touches(ops, size)) && x.0 != ""
    ensures LastSet(ops, x.0) == Some(x.1)
  {
    var front, op := ops[..|ops| - 1], ops[|ops| - 1];
    var touches := Touches(front, size);
    var all := LastTouches(touches);
    if op.key == "" {
      ValuesAreLastSet(front, size, x);
    } else if op.Set? {
      LastTouchesAppend(touches, (op.key, op.value));
      if x in Without(all, op.key) {
        WithoutMember(all, op.key, x);
        ValuesAreLastSet(front, size, x);
      }
    } else {
      var hit := Lookup(Newest(all, size), op.key);
      LookupMember(Newest(all, size), op.key);
      if hit.Some? {
        var touched := (op.key, hit.value);
        LastTouchesAppend(touches, touched);
        if x in Without(all, op.key) { WithoutMember(all, op.key, x); }
        ValuesAreLastSet(front, size, x);
      } else {
        ValuesAreLastSet(front, size, x);
      }
    }
  }
}
