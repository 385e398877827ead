/**
 Binary heaps of candidates in a growing slice: the min-heap is the search
 frontier, the max-heap the bounded set of best results so far.
 */
module Heap {

  /** A node slot with its distance to the query. */
  datatype Cand = Cand(id: nat, dist: real)

  datatype Order = Closer | Farther

  predicate Before(o: Order, a: Cand, b: Cand) {
    match o
    case Closer => a.dist < b.dist
    case Farther => a.dist > b.dist
  }

  function Parent(i: nat): nat
    requires i > 0
  {
    (i - 1) / 2
  }

  ghost predicate InPlace(o: Order, h: seq<Cand>, j: nat)
    requires 0 < j < |h|
  {
    !Before(o, h[j], h[Parent(j)])
  }

  ghost predicate IsHeap(o: Order, h: seq<Cand>) {
    forall j :: 0 < j < |h| ==> InPlace(o, h, j)
  }

  /** No element of a heap comes before its root. */
  lemma {:induction false} RootFirst(o: Order, h: seq<Cand>, i: nat)
    requires IsHeap(o, h) && i < |h|
    ensures !Before(o, h[i], h[0])
  {
    if i > 0 {
      RootFirst(o, h, Parent(i));
      assert InPlace(o, h, i);
    }
  }

  function Swap(h: seq<Cand>, i: nat, j: nat): seq<Cand>
    requires i < |h| && j < |h|
  {
    h[i := h[j]][j := h[i]]
  }

  lemma SwapKeepsContents(h: seq<Cand>, i: nat, j: nat)
    requires i < |h| && j < |h|
    ensures multiset(Swap(h, i, j)) == multiset(h)
  {
  }

  /** Heap-ordered except possibly at i, whose children still respect its parent. */
  ghost predicate HeapButUp(o: Order, h: seq<Cand>, i: nat) {
    && i < |h|
    && (forall j :: 0 < j < |h| && j != i ==> InPlace(o, h, j))
    && (forall j :: 0 < j < |h| && i > 0 && Parent(j) == i ==> !Before(o, h[j], h[Parent(i)]))
  }

  lemma UpStep(o: Order, h: seq<Cand>, i: nat)
    requires HeapButUp(o, h, i) && i > 0 && Before(o, h[i], h[Parent(i)])
    ensures HeapButUp(o, Swap(h, i, Parent(i)), Parent(i))
  {
    var p := Parent(i);
    var g := Swap(h, i, p);
    forall j | 0 < j < |g| && j != p ensures InPlace(o, g, j) {
      if j != i { assert InPlace(o, h, j); }
    }
    forall j | 0 < j < |g| && p > 0 && Parent(j) == p ensures !Before(o, g[j], g[Parent(p)]) {
      assert InPlace(o, h, p);
      if j != i { assert InPlace(o, h, j); }
    }
  }

  /** Heap-ordered except possibly between i and its children. */
  ghost predicate HeapButDown(o: Order, h: seq<Cand>, i: nat) {
    && i <= |h|
    && (forall j :: 0 < j < |h| && Parent(j) != i ==> InPlace(o, h, j))
    && (forall j :: 0 < j < |h| && i > 0 && Parent(j) == i ==> !Before(o, h[j], h[Parent(i)]))
  }

  lemma DownStep(o: Order, h: seq<Cand>, i: nat, best: nat)
    requires HeapButDown(o, h, i) && i < best < |h| && Parent(best) == i && Before(o, h[best], h[i])
    requires forall j :: 0 < j < |h| && Parent(j) == i ==> !Before(o, h[j], h[best])
    ensures HeapButDown(o, Swap(h, i, best), best)
  {
    var g := Swap(h, i, best);
    forall j | 0 < j < |g| && Parent(j) != best ensures InPlace(o, g, j) {
      if Parent(j) != i && j != i { assert InPlace(o, h, j); }
    }
    forall j | 0 < j < |g| && Parent(j) == best ensures !Before(o, g[j], g[i]) {
      assert InPlace(o, h, j);
    }
  }

  /** The child of i to swap with, or i itself if i already comes first. */
  function Best(o: Order, h: seq<Cand>, i: nat): nat
    requires i < |h|
  {
    var l := 2 * i + 1;
    var best := if l < |h| && Before(o, h[l], h[i]) then l else i;
    if l + 1 < |h| && Before(o, h[l + 1], h[best]) then l + 1 else best
  }

  lemma BestIsFirst(o: Order, h: seq<Cand>, i: nat)
    requires i < |h|
    ensures var best := Best(o, h, i);
            && best < |h|
            && (best != i ==> i < best && Parent(best) == i && Before(o, h[best], h[i]))
            && forall j :: 0 < j < |h| && Parent(j) == i ==> !Before(o, h[j], h[best])
  {
    forall j | 0 < j < |h| && Parent(j) == i ensures !Before(o, h[j], h[Best(o, h, i)]) {
      assert j == 2 * i + 1 || j == 2 * i + 2;
    }
  }

  lemma DownDone(o: Order, h: seq<Cand>, i: nat)
    requires HeapButDown(o, h, i)
    requires i < |h| ==> Best(o, h, i) == i
    ensures IsHeap(o, h)
  {
    if i < |h| { BestIsFirst(o, h, i); }
    forall j | 0 < j < |h| ensures InPlace(o, h, j) { }
  }

  class Heap {
    const order: Order
    var h: seq<Cand>

    ghost predicate Valid()
      reads this
    {
      IsHeap(order, h)
    }

    constructor (order: Order)
      ensures Valid() && h == [] && this.order == order
    {
      this.order, h := order, [];
    }

    /** Appends and sifts up. */
    method Push(c: Cand)
      requires Valid()
      modifies this
      ensures Valid() && multiset(h) == old(multiset(h)) + multiset{c} && |h| == |old(h)| + 1
    {
      forall j | 0 < j < |h + [c]| && j != |h| ensures InPlace(order, h + [c], j) {
        assert InPlace(order, h, j);
      }
      h := h + [c];
      var i: nat := |h| - 1;
      while i > 0
        invariant |h| == |old(h)| + 1 && multiset(h) == old(multiset(h)) + multiset{c}
        invariant HeapButUp(order, h, i)
        decreases i
      {
        var p := Parent(i);
        if !Before(order, h[i], h[p]) {
          break;
        }
        UpStep(order, h, i);
        SwapKeepsContents(h, i, p);
        h := Swap(h, i, p);
        i := p;
      }
      forall j | 0 < j < |h| ensures InPlace(order, h, j) { }
    }

    /** Moves the last element to the root and sifts it down. */
    method Pop() returns (top: Cand)
      requires Valid() && h != []
      modifies this
      ensures Valid() && top == old(h)[0] && |h| == |old(h)| - 1
      ensures multiset(h) == old(multiset(h)) - multiset{top}
      ensures forall c :: c in old(h) ==> !Before(order, c, top)
    {
      hide HeapButDown, InPlace, Swap, Best;
      top := h[0];
      forall c | c in h ensures !Before(order, c, top) {
        var i :| 0 <= i < |h| && h[i] == c;
        RootFirst(order, h, i);
      }
      var n := |h| - 1;
      RemoveRoot(order, h);
      h := h[0 := h[n]][..n];
      var i: nat := 0;
      while i < n
        invariant |h| == n && i <= n
        invariant multiset(h) == old(multiset(h)) - multiset{top}
        invariant HeapButDown(order, h, i)
        decreases n - i
      {
        var best := Best(order, h, i);
        if best == i {
          break;
        }
        BestIsFirst(order, h, i);
        DownStep(order, h, i, best);
        SwapKeepsContents(h, i, best);
        h := Swap(h, i, best);
        i := best;
      }
      DownDone(order, h, i);
    }
  }

  ghost predicate Sorted(out: seq<Cand>) {
    forall i, j :: 0 <= i < j < |out| ==> out[i].dist <= out[j].dist
  }

  /** Every member of a is at most as far as every member of b. */
  ghost predicate Below(a: multiset<Cand>, b: multiset<Cand>) {
    forall x, y :: x in a && y in b ==> x.dist <= y.dist
  }

  lemma SortedCons(c: Cand, out: seq<Cand>)
    requires Sorted(out) && Below(multiset{c}, multiset(out))
    ensures Sorted([c] + out) && multiset([c] + out) == multiset{c} + multiset(out)
  {
    forall j | 0 <= j < |out| ensures c.dist <= out[j].dist {
      assert c in multiset{c} && out[j] in multiset(out);
    }
  }

  lemma BelowAfterPop(rest: multiset<Cand>, c: Cand, out: multiset<Cand>)
    requires Below(rest + multiset{c}, out)
    requires forall x :: x in rest ==> x.dist <= c.dist
    ensures Below(multiset{c}, out) && Below(rest, multiset{c} + out)
  {
    assert c in rest + multiset{c};
    forall x | x in rest ensures x in rest + multiset{c} { }
  }

  lemma PoppedFarthest(before: seq<Cand>, rest: seq<Cand>, c: Cand)
    requires c in before && multiset(rest) == multiset(before) - multiset{c}
    requires forall x :: x in before ==> !Before(Farther, x, c)
    ensures multiset(before) == multiset(rest) + multiset{c}
    ensures forall x :: x in multiset(rest) ==> x.dist <= c.dist
  {
    assert c in multiset(before);
    forall x | x in multiset(rest) ensures x.dist <= c.dist {
      assert x in multiset(before);
      assert x in before;
    }
  }

  /** Empties a max-heap into a slice from the back, which leaves it closest first. */
  method Drain(hp: Heap) returns (out: seq<Cand>)
    requires hp.Valid() && hp.order == Farther
    modifies hp
    ensures hp.Valid() && hp.h == []
    ensures multiset(out) == old(multiset(hp.h)) && |out| == |old(hp.h)| && Sorted(out)
  {
    hide IsHeap, Below, Sorted;
    out := [];
    assert Sorted(out) && Below(multiset(hp.h), multiset(out)) by { NothingBelow(multiset(hp.h)); }
    while hp.h != []
      invariant hp.Valid()
      invariant |hp.h| + |out| == |old(hp.h)| && multiset(hp.h) + multiset(out) == old(multiset(hp.h))
      invariant Sorted(out) && Below(multiset(hp.h), multiset(out))
      decreases |hp.h|
    {
      ghost var before := hp.h;
      var c := hp.Pop();
      PoppedFarthest(before, hp.h, c);
      BelowAfterPop(multiset(hp.h), c, multiset(out));
      SortedCons(c, out);
      out := [c] + out;
    }
  }

  lemma NothingBelow(a: multiset<Cand>)
    ensures Sorted([]) && Below(a, multiset([]))
  {
  }

  lemma RemovedContents(h: seq<Cand>)
    requires h != []
    ensures var n := |h| - 1; multiset(h[0 := h[n]][..n]) == multiset(h) - multiset{h[0]}
  {
    var n := |h| - 1;
    if n > 0 {
      assert h == [h[0]] + (h[1..n] + [h[n]]);
      assert h[0 := h[n]][..n] == [h[n]] + h[1..n];
    } else {
      assert h == [h[0]];
    }
  }

  lemma RemoveRoot(o: Order, h: seq<Cand>)
    requires IsHeap(o, h) && h != []
    ensures var n := |h| - 1; var g := h[0 := h[n]][..n];
            HeapButDown(o, g, 0) && multiset(g) == multiset(h) - multiset{h[0]}
  {
    var n := |h| - 1;
    var g := h[0 := h[n]][..n];
    RemovedContents(h);
    forall j | 0 < j < |g| && Parent(j) != 0 ensures InPlace(o, g, j) {
      assert InPlace(o, h, j);
    }
  }
}
