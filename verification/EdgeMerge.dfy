/** The windowed spill and merge of src/graph/neighborhood.js: sorted windows are merged by repeatedly
    taking the least head, the earliest window winning ties. */
module EdgeMerge {
  import opened Wrappers
  import opened Sorting

  function Flatten<T>(windows: seq<seq<T>>): seq<T> {
    if windows == [] then [] else windows[0] + Flatten(windows[1..])
  }

  function SortEach<T>(leq: (T, T) -> bool, windows: seq<seq<T>>): (r: seq<seq<T>>)
    ensures |r| == |windows| && forall i :: 0 <= i < |r| ==> r[i] == StableSort(leq, windows[i])
  {
    seq(|windows|, i requires 0 <= i < |windows| => StableSort(leq, windows[i]))
  }

  lemma {:induction false} FlattenAppend<T>(windows: seq<seq<T>>, w: seq<T>)
    ensures Flatten(windows + [w]) == Flatten(windows) + w
  {
    if windows == [] {
      assert windows + [w] == [w];
    } else {
      FlattenAppend(windows[1..], w);
      Associative(windows[0], Flatten(windows[1..]), w);
      assert (windows + [w])[1..] == windows[1..] + [w];
    }
  }

  ghost predicate Cursors<T>(windows: seq<seq<T>>, indices: seq<nat>) {
    |indices| == |windows| && forall i :: 0 <= i < |windows| ==> indices[i] <= |windows[i]|
  }

  /** What the windows still hold, window by window. */
  ghost function Remaining<T>(windows: seq<seq<T>>, indices: seq<nat>): seq<T>
    requires Cursors(windows, indices)
  {
    if windows == [] then []
    else windows[0][indices[0]..] + Remaining(windows[1..], indices[1..])
  }

  /** `best` is a live window whose head is least, and strictly below the head of every earlier live window. */
  ghost predicate Picks<T>(leq: (T, T) -> bool, windows: seq<seq<T>>, indices: seq<nat>, upTo: nat, best: int)
    requires Cursors(windows, indices) && upTo <= |windows|
  {
    && (best == -1 ==> forall i :: 0 <= i < upTo ==> indices[i] == |windows[i]|)
    && (best != -1 ==>
          && 0 <= best < upTo && indices[best] < |windows[best]|
          && forall i :: 0 <= i < upTo && indices[i] < |windows[i]| ==>
               && leq(windows[best][indices[best]], windows[i][indices[i]])
               && (i < best ==> !leq(windows[i][indices[i]], windows[best][indices[best]])))
  }

  method PickWindow<T(!new)>(leq: (T, T) -> bool, windows: seq<seq<T>>, indices: seq<nat>) returns (best: int)
    requires TotalPreorder(leq) && Cursors(windows, indices)
    ensures -1 <= best < |windows| && Picks(leq, windows, indices, |windows|, best)
  {
    best := -1;
    for i := 0 to |windows|
      invariant -1 <= best < i && Picks(leq, windows, indices, i, best)
    {
      if indices[i] < |windows[i]| {
        if best == -1 || !leq(windows[best][indices[best]], windows[i][indices[i]]) {
          best := i;
        }
      }
    }
  }

  lemma {:induction false} RemainingMember<T>(windows: seq<seq<T>>, indices: seq<nat>, x: T)
    requires Cursors(windows, indices) && x in Remaining(windows, indices)
    ensures exists i :: 0 <= i < |windows| && x in windows[i][indices[i]..]
  {
    if x !in windows[0][indices[0]..] {
      RemainingMember(windows[1..], indices[1..], x);
      var i :| 0 <= i < |windows[1..]| && x in windows[1..][i][indices[1..][i]..];
      assert x in windows[i + 1][indices[i + 1]..];
    }
  }

  /** A head that is least is least among everything the windows still hold. */
  lemma HeadIsLeast<T(!new)>(leq: (T, T) -> bool, windows: seq<seq<T>>, indices: seq<nat>, best: int, x: T)
    requires TotalPreorder(leq) && Cursors(windows, indices)
    requires forall i :: 0 <= i < |windows| ==> Sorted(leq, windows[i])
    requires best != -1 && Picks(leq, windows, indices, |windows|, best) && x in Remaining(windows, indices)
    ensures leq(windows[best][indices[best]], x)
  {
    RemainingMember(windows, indices, x);
    var i :| 0 <= i < |windows| && x in windows[i][indices[i]..];
    var k :| 0 <= k < |windows[i][indices[i]..]| && windows[i][indices[i]..][k] == x;
    assert windows[i][indices[i] + k] == x;
    assert k > 0 ==> leq(windows[i][indices[i]], x);
  }

  lemma {:induction false} RemainingSplit<T>(windows: seq<seq<T>>, indices: seq<nat>, b: nat)
    requires Cursors(windows, indices) && b < |windows|
    ensures Remaining(windows, indices)
         == Remaining(windows[..b], indices[..b]) + windows[b][indices[b]..]
            + Remaining(windows[b + 1..], indices[b + 1..])
  {
    if b > 0 {
      RemainingSplit(windows[1..], indices[1..], b - 1);
      assert windows[1..][..b - 1] == windows[..b][1..] && indices[1..][..b - 1] == indices[..b][1..];
      assert windows[1..][b..] == windows[b + 1..] && indices[1..][b..] == indices[b + 1..];
    }
  }

  /** Advancing cursor `b` removes exactly the head of window `b` from what remains. */
  lemma AdvanceRemoves<T>(windows: seq<seq<T>>, indices: seq<nat>, b: nat) returns (front: seq<T>, back: seq<T>)
    requires Cursors(windows, indices) && b < |windows| && indices[b] < |windows[b]|
    ensures Cursors(windows, indices[b := indices[b] + 1])
    ensures front == Remaining(windows[..b], indices[..b])
    ensures Remaining(windows, indices) == front + [windows[b][indices[b]]] + back
    ensures Remaining(windows, indices[b := indices[b] + 1]) == front + back
  {
    hide Remaining;
    var after := indices[b := indices[b] + 1];
    RemainingSplit(windows, indices, b);
    RemainingSplit(windows, after, b);
    assert after[..b] == indices[..b] && after[b + 1..] == indices[b + 1..];
    front := Remaining(windows[..b], indices[..b]);
    var rest := Remaining(windows[b + 1..], indices[b + 1..]);
    back := windows[b][after[b]..] + rest;
    SplitHead(front, windows[b], indices[b], rest);
  }

  lemma SplitHead<T>(front: seq<T>, w: seq<T>, i: nat, rest: seq<T>)
    requires i < |w|
    ensures front + w[i..] + rest == front + [w[i]] + (w[i + 1..] + rest)
    ensures front + w[i + 1..] + rest == front + (w[i + 1..] + rest)
  {
    assert w[i..] == [w[i]] + w[i + 1..];
  }

  /** No earlier window holds an element at or below the picked head. */
  lemma NoneBefore<T(!new)>(leq: (T, T) -> bool, windows: seq<seq<T>>, indices: seq<nat>, best: int, x: T)
    requires TotalPreorder(leq) && Cursors(windows, indices)
    requires forall i :: 0 <= i < |windows| ==> Sorted(leq, windows[i])
    requires best != -1 && Picks(leq, windows, indices, |windows|, best)
    requires x in Remaining(windows[..best], indices[..best])
    ensures !leq(x, windows[best][indices[best]])
  {
    RemainingMember(windows[..best], indices[..best], x);
    var i :| 0 <= i < best && x in windows[..best][i][indices[..best][i]..];
    var k :| 0 <= k < |windows[i][indices[i]..]| && windows[i][indices[i]..][k] == x;
    assert windows[i][indices[i] + k] == x;
    assert k > 0 ==> leq(windows[i][indices[i]], x);
  }

  lemma DropEmpty<T>(a: seq<T>, b: seq<T>)
    ensures [] + a + b == a + b && a + [] + b == [] + (a + b) && [] + b == b
  {
  }

  lemma TakeHead<T(!new)>(leq: (T, T) -> bool, z: T, front: seq<T>, e: T, back: seq<T>)
    requires forall x :: x in front ==> !leq(x, e)
    requires TotalPreorder(leq)
    ensures Class(leq, z, front + [e] + back) == Class(leq, z, [e]) + Class(leq, z, front + back)
  {
    hide Class;
    ClassConcat(leq, z, front + [e], back);
    ClassConcat(leq, z, front, [e]);
    ClassConcat(leq, z, front, back);
    if Equivalent(leq, z, e) {
      forall x | x in front ensures !Equivalent(leq, z, x) {
        assert !leq(x, e);
      }
      ClassEmpty(leq, z, front);
      assert Class(leq, z, front) == [];
      DropEmpty(Class(leq, z, [e]), Class(leq, z, back));
    } else {
      ClassEmpty(leq, z, [e]);
      DropEmpty(Class(leq, z, front), Class(leq, z, back));
    }
  }

  lemma {:induction false} RemainingAtStart<T>(windows: seq<seq<T>>, indices: seq<nat>)
    requires Cursors(windows, indices) && forall i :: 0 <= i < |indices| ==> indices[i] == 0
    ensures Remaining(windows, indices) == Flatten(windows)
  {
    if windows != [] { RemainingAtStart(windows[1..], indices[1..]); }
  }

  lemma {:induction false} RemainingAtEnd<T>(windows: seq<seq<T>>, indices: seq<nat>)
    requires Cursors(windows, indices) && forall i :: 0 <= i < |windows| ==> indices[i] == |windows[i]|
    ensures Remaining(windows, indices) == []
  {
    if windows != [] { RemainingAtEnd(windows[1..], indices[1..]); }
  }

  /** What is merged is sorted, not above anything the windows still hold, and with it keeps every class in
      the order of the windows. */
  ghost predicate Merging<T(!new)>(leq: (T, T) -> bool, windows: seq<seq<T>>, indices: seq<nat>, merged: seq<T>)
    requires Cursors(windows, indices)
  {
    && Sorted(leq, merged)
    && (forall x, y :: x in merged && y in Remaining(windows, indices) ==> leq(x, y))
    && (forall z ::
          Class(leq, z, merged) + Class(leq, z, Remaining(windows, indices)) == Class(leq, z, Flatten(windows)))
  }

  /** Taking the picked head. */
  lemma MergeStep<T(!new)>(leq: (T, T) -> bool, windows: seq<seq<T>>, indices: seq<nat>, merged: seq<T>, best: nat)
    requires TotalPreorder(leq) && Cursors(windows, indices) && Merging(leq, windows, indices, merged)
    requires forall i :: 0 <= i < |windows| ==> Sorted(leq, windows[i])
    requires best < |windows| && Picks(leq, windows, indices, |windows|, best)
    ensures var after := indices[best := indices[best] + 1];
            && Cursors(windows, after) && Merging(leq, windows, after, merged + [windows[best][indices[best]]])
            && |Remaining(windows, after)| < |Remaining(windows, indices)|
  {
    hide Class, Remaining, Flatten;
    var e, after := windows[best][indices[best]], indices[best := indices[best] + 1];
    var front, back := AdvanceRemoves(windows, indices, best);
    forall x | x in front ensures !leq(x, e) {
      NoneBefore(leq, windows, indices, best, x);
    }
    assert e in Remaining(windows, indices);
    forall y | y in Remaining(windows, after) ensures leq(e, y) {
      HeadIsLeast(leq, windows, indices, best, y);
    }
    forall z
      ensures Class(leq, z, merged + [e]) + Class(leq, z, Remaining(windows, after)) == Class(leq, z, Flatten(windows))
    {
      TakeHead(leq, z, front, e, back);
      ClassConcat(leq, z, merged, [e]);
      assert Class(leq, z, merged) + Class(leq, z, Remaining(windows, indices)) == Class(leq, z, Flatten(windows));
      Associative(Class(leq, z, merged), Class(leq, z, [e]), Class(leq, z, front + back));
    }
  }

  /** The merge of sorted windows is one stable sort of everything in them. */
  method MergeWindows<T(!new)>(leq: (T, T) -> bool, windows: seq<seq<T>>) returns (merged: seq<T>)
    requires TotalPreorder(leq)
    requires forall i :: 0 <= i < |windows| ==> Sorted(leq, windows[i])
    ensures merged == StableSort(leq, Flatten(windows))
  {
    hide Merging, TotalPreorder, Sorted, Picks;
    var indices: seq<nat> := seq(|windows|, _ => 0);
    merged := [];
    MergeStart(leq, windows, indices);
    while true
      invariant Cursors(windows, indices) && Merging(leq, windows, indices, merged)
      decreases |Remaining(windows, indices)|
    {
      var best := PickWindow(leq, windows, indices);
      PickedInRange(leq, windows, indices, best);
      if best == -1 { break; }
      var bestEdge := windows[best][indices[best]];
      MergeStep(leq, windows, indices, merged, best);
      merged := merged + [bestEdge];
      indices := indices[best := indices[best] + 1];
    }
    MergeEnd(leq, windows, indices, merged);
  }

  lemma PickedInRange<T>(leq: (T, T) -> bool, windows: seq<seq<T>>, indices: seq<nat>, best: int)
    requires Cursors(windows, indices) && Picks(leq, windows, indices, |windows|, best)
    ensures best != -1 ==> 0 <= best < |windows| && indices[best] < |windows[best]|
    ensures best == -1 ==> forall i :: 0 <= i < |windows| ==> indices[i] == |windows[i]|
  {
  }

  lemma MergeStart<T(!new)>(leq: (T, T) -> bool, windows: seq<seq<T>>, indices: seq<nat>)
    requires |indices| == |windows| && forall i :: 0 <= i < |indices| ==> indices[i] == 0
    ensures Cursors(windows, indices) && Merging(leq, windows, indices, [])
  {
    RemainingAtStart(windows, indices);
  }

  lemma MergeEnd<T(!new)>(leq: (T, T) -> bool, windows: seq<seq<T>>, indices: seq<nat>, merged: seq<T>)
    requires TotalPreorder(leq) && Cursors(windows, indices) && Merging(leq, windows, indices, merged)
    requires forall i :: 0 <= i < |windows| ==> indices[i] == |windows[i]|
    ensures merged == StableSort(leq, Flatten(windows))
  {
    RemainingAtEnd(windows, indices);
    forall z ensures Class(leq, z, merged) == Class(leq, z, Flatten(windows)) {
      assert Class(leq, z, merged) + Class(leq, z, []) == Class(leq, z, Flatten(windows));
    }
    StableSortCorrect(leq, Flatten(windows));
    StableSortUnique(leq, merged, StableSort(leq, Flatten(windows)));
  }

  lemma {:induction false} ClassOfSortedWindows<T(!new)>(leq: (T, T) -> bool, z: T, chunks: seq<seq<T>>)
    requires TotalPreorder(leq)
    ensures Class(leq, z, Flatten(SortEach(leq, chunks))) == Class(leq, z, Flatten(chunks))
  {
    if chunks != [] {
      var sorted := SortEach(leq, chunks);
      assert sorted[1..] == SortEach(leq, chunks[1..]);
      ClassOfSortedWindows(leq, z, chunks[1..]);
      StableSortCorrect(leq, chunks[0]);
      ClassConcat(leq, z, sorted[0], Flatten(sorted[1..]));
      ClassConcat(leq, z, chunks[0], Flatten(chunks[1..]));
    }
  }

  /** Sorting each window before the merge does not change the merge: however the emitted list was cut,
      sorting the pieces and stably sorting their concatenation is one stable sort of the list. */
  lemma SpillIsOneSort<T(!new)>(leq: (T, T) -> bool, chunks: seq<seq<T>>)
    requires TotalPreorder(leq)
    ensures StableSort(leq, Flatten(SortEach(leq, chunks))) == StableSort(leq, Flatten(chunks))
  {
    var sorted := Flatten(SortEach(leq, chunks));
    StableSortCorrect(leq, sorted);
    StableSortCorrect(leq, Flatten(chunks));
    forall z ensures Class(leq, z, StableSort(leq, sorted)) == Class(leq, z, StableSort(leq, Flatten(chunks))) {
      ClassOfSortedWindows(leq, z, chunks);
    }
    StableSortUnique(leq, StableSort(leq, sorted), StableSort(leq, Flatten(chunks)));
  }
}
