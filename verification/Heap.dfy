/** The two candidate heaps of the layer search: a binary heap on a sequence, sifted as
    Go's container/heap does, with the root least (candidateHeap) or greatest
    (maxCandidateHeap) by distance. */
module Heap {

  datatype Candidate = Candidate(id: nat, distance: real)

  /** The order used by `Less`: distances for the min-heap, negated for the max-heap. */
  function Key(maxFirst: bool, c: Candidate): real {
    if maxFirst then -c.distance else c.distance
  }

  function Parent(i: nat): nat
    requires i > 0
  {
    (i - 1) / 2
  }

  predicate OrderedAt(h: seq<Candidate>, maxFirst: bool, i: nat)
    requires 0 < i < |h|
  {
    Key(maxFirst, h[Parent(i)]) <= Key(maxFirst, h[i])
  }

  /** Every element is at or after its parent in the heap order. */
  ghost predicate IsHeap(h: seq<Candidate>, maxFirst: bool) {
    forall i :: 0 < i < |h| ==> OrderedAt(h, maxFirst, i)
  }

  /** No element of `h` comes before `c`. */
  ghost predicate First(c: Candidate, h: seq<Candidate>, maxFirst: bool) {
    forall x :: x in h ==> Key(maxFirst, c) <= Key(maxFirst, x)
  }

  function Swap(h: seq<Candidate>, i: nat, j: nat): (r: seq<Candidate>)
    requires i < |h| && j < |h|
    ensures |r| == |h| && multiset(r) == multiset(h)
  {
    h[i := h[j]][j := h[i]]
  }

  lemma {:induction false} RootBefore(h: seq<Candidate>, maxFirst: bool, i: nat)
    requires IsHeap(h, maxFirst) && i < |h|
    ensures Key(maxFirst, h[0]) <= Key(maxFirst, h[i])
    decreases i
  {
    if i > 0 {
      RootBefore(h, maxFirst, Parent(i));
      assert OrderedAt(h, maxFirst, i);
    }
  }

  /** In a heap the root is first: what `(*results)[0]` and heap.Pop rely on. */
  lemma RootFirst(h: seq<Candidate>, maxFirst: bool)
    requires IsHeap(h, maxFirst) && h != []
    ensures First(h[0], h, maxFirst)
  {
    forall x | x in h ensures Key(maxFirst, h[0]) <= Key(maxFirst, x) {
      var i :| 0 <= i < |h| && h[i] == x;
      RootBefore(h, maxFirst, i);
    }
  }

  /** All but position `j` are in order, and `j`'s children are in order with `j`'s parent. */
  ghost predicate HeapButUp(h: seq<Candidate>, maxFirst: bool, j: nat) {
    && j < |h|
    && (forall i :: 0 < i < |h| && i != j ==> OrderedAt(h, maxFirst, i))
    && (j > 0 ==> forall i :: 0 < i < |h| && Parent(i) == j ==>
          Key(maxFirst, h[Parent(j)]) <= Key(maxFirst, h[i]))
  }

  lemma UpStep(h: seq<Candidate>, maxFirst: bool, j: nat)
    requires HeapButUp(h, maxFirst, j) && j > 0
    requires Key(maxFirst, h[j]) < Key(maxFirst, h[Parent(j)])
    ensures HeapButUp(Swap(h, Parent(j), j), maxFirst, Parent(j))
  {
    var p := Parent(j);
    var s := Swap(h, p, j);
    forall i | 0 < i < |s| && i != p ensures OrderedAt(s, maxFirst, i) {
      if i != j {
        assert OrderedAt(h, maxFirst, i);
      }
    }
    if p > 0 {
      assert OrderedAt(h, maxFirst, p);
      forall i | 0 < i < |s| && Parent(i) == p
        ensures Key(maxFirst, s[Parent(p)]) <= Key(maxFirst, s[i])
      {
        if i != j {
          assert OrderedAt(h, maxFirst, i);
        }
      }
    }
  }

  method Push(h: seq<Candidate>, c: Candidate, maxFirst: bool) returns (r: seq<Candidate>)
    requires IsHeap(h, maxFirst)
    ensures IsHeap(r, maxFirst)
    ensures multiset(r) == multiset(h) + multiset{c}
  {
    r := h + [c];
    var j: nat := |h|;
    forall i | 0 < i < |r| && i != j ensures OrderedAt(r, maxFirst, i) {
      assert OrderedAt(h, maxFirst, i);
    }
    while j > 0 && Key(maxFirst, r[j]) < Key(maxFirst, r[Parent(j)])
      invariant HeapButUp(r, maxFirst, j)
      invariant multiset(r) == multiset(h) + multiset{c}
    {
      UpStep(r, maxFirst, j);
      r := Swap(r, Parent(j), j);
      j := Parent(j);
    }
  }

  /** All are in order except that `j` may come after its own children, which are in order
      with `j`'s parent. */
  ghost predicate HeapButDown(h: seq<Candidate>, maxFirst: bool, j: nat) {
    && (forall i :: 0 < i < |h| && Parent(i) != j ==> OrderedAt(h, maxFirst, i))
    && (0 < j < |h| ==> forall i :: 0 < i < |h| && Parent(i) == j ==>
          Key(maxFirst, h[Parent(j)]) <= Key(maxFirst, h[i]))
  }

  lemma DownStep(h: seq<Candidate>, maxFirst: bool, j: nat, k: nat)
    requires HeapButDown(h, maxFirst, j)
    requires 0 < k < |h| && Parent(k) == j
    requires Key(maxFirst, h[k]) < Key(maxFirst, h[j])
    requires forall i :: 0 < i < |h| && Parent(i) == j ==> Key(maxFirst, h[k]) <= Key(maxFirst, h[i])
    ensures HeapButDown(Swap(h, j, k), maxFirst, k)
  {
    var s := Swap(h, j, k);
    forall i | 0 < i < |s| && Parent(i) != k ensures OrderedAt(s, maxFirst, i) {
      if Parent(i) != j {
        assert OrderedAt(h, maxFirst, i);
      }
    }
    forall i | 0 < i < |s| && Parent(i) == k
      ensures Key(maxFirst, s[Parent(k)]) <= Key(maxFirst, s[i])
    {
      assert OrderedAt(h, maxFirst, i);
    }
  }

  /** The child of `j` that comes first, as `down` picks it. */
  function FirstChild(h: seq<Candidate>, maxFirst: bool, j: nat): (k: nat)
    requires 2 * j + 1 < |h|
    ensures 0 < k < |h| && Parent(k) == j
    ensures forall i :: 0 < i < |h| && Parent(i) == j ==> Key(maxFirst, h[k]) <= Key(maxFirst, h[i])
  {
    var l := 2 * j + 1;
    assert forall i :: i > 0 && Parent(i) == j ==> i == l || i == l + 1;
    if l + 1 < |h| && Key(maxFirst, h[l + 1]) < Key(maxFirst, h[l]) then l + 1 else l
  }

  method SiftDown(h: seq<Candidate>, maxFirst: bool) returns (r: seq<Candidate>)
    requires HeapButDown(h, maxFirst, 0)
    ensures IsHeap(r, maxFirst)
    ensures multiset(r) == multiset(h)
  {
    r := h;
    var j: nat := 0;
    while 2 * j + 1 < |r| && Key(maxFirst, r[FirstChild(r, maxFirst, j)]) < Key(maxFirst, r[j])
      invariant HeapButDown(r, maxFirst, j)
      invariant multiset(r) == multiset(h)
      invariant |r| == |h|
      decreases |r| - j
    {
      var k := FirstChild(r, maxFirst, j);
      DownStep(r, maxFirst, j, k);
      r := Swap(r, j, k);
      j := k;
    }
    forall i | 0 < i < |r| ensures OrderedAt(r, maxFirst, i) {
      if Parent(i) == j {
        var k := FirstChild(r, maxFirst, j);
        assert Key(maxFirst, r[k]) <= Key(maxFirst, r[i]);
      }
    }
  }

  lemma LastDropped(h: seq<Candidate>)
    requires h != []
    ensures h == h[..|h| - 1] + [h[|h| - 1]]
    ensures multiset(h[..|h| - 1]) + multiset{h[|h| - 1]} == multiset(h)
  {
    assert h == h[..|h| - 1] + [h[|h| - 1]];
  }

  method Pop(h: seq<Candidate>, maxFirst: bool) returns (c: Candidate, r: seq<Candidate>)
    requires IsHeap(h, maxFirst) && h != []
    ensures IsHeap(r, maxFirst)
    ensures multiset(h) == multiset(r) + multiset{c}
    ensures First(c, h, maxFirst)
  {
    RootFirst(h, maxFirst);
    var n := |h| - 1;
    var s := Swap(h, 0, n);
    c := s[n];
    LastDropped(s);
    forall i | 0 < i < n && Parent(i) != 0 ensures OrderedAt(s[..n], maxFirst, i) {
      assert OrderedAt(h, maxFirst, i);
    }
    r := SiftDown(s[..n], maxFirst);
  }
}
