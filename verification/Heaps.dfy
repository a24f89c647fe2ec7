/** The C++ heap algorithms, as their contracts state them: `rank` orders the heap with the least
    rank on top. Callers see the contract only; the bodies are one way to meet it. */
module Heaps {
  ghost predicate IsHeap<T>(h: seq<T>, rank: T -> int) {
    forall i :: 0 < i < |h| ==> ParentFirst(h, rank, i)
  }

  ghost predicate ParentFirst<T>(h: seq<T>, rank: T -> int, i: nat)
    requires 0 < i < |h|
  {
    rank(h[(i - 1) / 2]) <= rank(h[i])
  }

  ghost predicate Ascending<T>(h: seq<T>, rank: T -> int) {
    forall i, j :: 0 <= i < j < |h| ==> rank(h[i]) <= rank(h[j])
  }

  /** Nothing in a heap is below its top. */
  lemma {:induction false} TopIsLeast<T>(h: seq<T>, rank: T -> int, i: nat)
    requires IsHeap(h, rank) && i < |h|
    ensures rank(h[0]) <= rank(h[i])
    decreases i
  {
    if i == 0 {
    } else {
      assert ParentFirst(h, rank, i);
      TopIsLeast(h, rank, (i - 1) / 2);
    }
  }

  /** Exchanging two elements of one rank keeps the heap: `a` is the one taken out, `b` the one put in. */
  lemma SwapEqualKeepsHeap<T>(h: seq<T>, rank: T -> int, i: nat, b: T)
    requires IsHeap(h, rank) && i < |h| && rank(b) == rank(h[i])
    ensures IsHeap(h[i := b], rank)
  {
    var h' := h[i := b];
    forall j | 0 < j < |h'|
      ensures ParentFirst(h', rank, j)
    {
      assert ParentFirst(h, rank, j);
    }
  }

  /** Put x among elements already in order. */
  function Place<T>(h: seq<T>, rank: T -> int, x: T): (r: seq<T>)
    requires Ascending(h, rank)
    ensures Ascending(r, rank) && multiset(r) == multiset(h) + multiset{x}
  {
    if h == [] || rank(x) <= rank(h[0]) then [x] + h
    else
      assert h == [h[0]] + h[1..];
      var rest := Place(h[1..], rank, x);
      ConsAscending(h, rest, rank, x);
      [h[0]] + rest
  }

  lemma ConsAscending<T>(h: seq<T>, rest: seq<T>, rank: T -> int, x: T)
    requires Ascending(h, rank) && h != [] && rank(h[0]) <= rank(x)
    requires Ascending(rest, rank) && multiset(rest) == multiset(h[1..]) + multiset{x}
    ensures Ascending([h[0]] + rest, rank)
  {
    forall j | 0 <= j < |rest|
      ensures rank(h[0]) <= rank(rest[j])
    {
      assert rest[j] in multiset(rest);
      assert rest[j] == x || rest[j] in h[1..];
    }
  }

  method Arrange<T>(h: seq<T>, rank: T -> int) returns (r: seq<T>)
    ensures Ascending(r, rank) && multiset(r) == multiset(h) && |r| == |h|
  {
    r := [];
    for i := 0 to |h|
      invariant Ascending(r, rank) && multiset(r) == multiset(h[..i]) && |r| == i
    {
      assert h[..i + 1] == h[..i] + [h[i]];
      r := Place(r, rank, h[i]);
      assert |multiset(r)| == i + 1;
    }
    assert h[..|h|] == h;
  }

  /** std::make_heap. */
  method MakeHeap<T>(h: seq<T>, rank: T -> int) returns (r: seq<T>)
    ensures IsHeap(r, rank) && multiset(r) == multiset(h) && |r| == |h|
  {
    r := Arrange(h, rank);
  }

  /** std::push_heap: all but the last element are a heap already. */
  method PushHeap<T>(h: seq<T>, rank: T -> int) returns (r: seq<T>)
    requires |h| > 0 && IsHeap(h[..|h| - 1], rank)
    ensures IsHeap(r, rank) && multiset(r) == multiset(h) && |r| == |h|
  {
    r := Arrange(h, rank);
  }

  /** std::pop_heap: the top moves to the back, and the rest are a heap. */
  method PopHeap<T>(h: seq<T>, rank: T -> int) returns (r: seq<T>)
    requires |h| > 0 && IsHeap(h, rank)
    ensures |r| == |h| && multiset(r) == multiset(h)
    ensures r[|r| - 1] == h[0] && IsHeap(r[..|r| - 1], rank)
  {
    var rest := Arrange(h[1..], rank);
    r := rest + [h[0]];
    assert r[..|r| - 1] == rest;
    assert h == [h[0]] + h[1..];
  }

  /** std::sort_heap: from the last under the order to its top. */
  method SortHeap<T>(h: seq<T>, rank: T -> int) returns (r: seq<T>)
    requires IsHeap(h, rank)
    ensures multiset(r) == multiset(h) && |r| == |h|
    ensures forall i, j :: 0 <= i < j < |r| ==> rank(r[j]) <= rank(r[i])
  {
    r := Arrange(h, x => 0 - rank(x));
    AscendingDown(r, rank);
  }

  lemma AscendingDown<T>(r: seq<T>, rank: T -> int)
    requires Ascending(r, x => 0 - rank(x))
    ensures forall i, j :: 0 <= i < j < |r| ==> rank(r[j]) <= rank(r[i])
  {
    var down := (x: T) => 0 - rank(x);
    forall i, j | 0 <= i < j < |r|
      ensures rank(r[j]) <= rank(r[i])
    {
      assert down(r[i]) <= down(r[j]);
    }
  }
}
