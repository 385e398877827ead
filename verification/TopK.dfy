/**
 What it means to return the k nearest of a collection, and the bounded scan
 that every exact search in the system uses.
 */
module TopK {
  import opened Common
  import opened Heap

  /** chosen are k of all (or all of them) and nothing left out is nearer. */
  ghost predicate IsBest(chosen: multiset<Cand>, all: multiset<Cand>, k: nat) {
    && chosen <= all && |chosen| == Min(k, |all|)
    && Below(chosen, all - chosen)
  }

  ghost predicate IsTopK(out: seq<Cand>, all: multiset<Cand>, k: nat) {
    Sorted(out) && IsBest(multiset(out), all, k)
  }

  function Dists(s: seq<Cand>): (d: seq<real>)
    ensures |d| == |s|
    ensures forall i :: 0 <= i < |s| ==> d[i] == s[i].dist
  {
    seq(|s|, i requires 0 <= i < |s| => s[i].dist)
  }

  lemma SubMultisetSize<T>(a: multiset<T>, b: multiset<T>)
    requires a <= b
    ensures |a| <= |b|
  {
    assert b == a + (b - a);
  }

  lemma CountParts(s: seq<Cand>, i: nat, c: Cand)
    requires i <= |s|
    ensures multiset(s)[c] == multiset(s[..i])[c] + multiset(s[i..])[c]
  {
    assert s == s[..i] + s[i..];
  }

  /** Were a nearer than b at position i, all of a[..i+1] would have to be in b[..i]. */
  lemma FrontFits(a: seq<Cand>, b: seq<Cand>, all: multiset<Cand>, k: nat, i: nat, c: Cand)
    requires IsTopK(a, all, k) && IsTopK(b, all, k) && i < |a| && i < |b| && a[i].dist < b[i].dist
    requires c in a[..i + 1]
    ensures multiset(a[..i + 1])[c] <= multiset(b[..i])[c]
  {
    hide Sorted, Below;
    CountParts(a, i + 1, c);
    CountParts(b, i, c);
    FrontIsNear(a, i, c);
    NotPast(b, i, c);
    if multiset(b)[c] < multiset(a[..i + 1])[c] {
      LeftOutIsFar(multiset(b), all, c, b[i]);
      assert false;
    }
  }

  lemma FrontIsNear(a: seq<Cand>, i: nat, c: Cand)
    requires Sorted(a) && i < |a| && c in a[..i + 1]
    ensures c.dist <= a[i].dist
  {
  }

  lemma NotPast(b: seq<Cand>, i: nat, c: Cand)
    requires Sorted(b) && i < |b| && c.dist < b[i].dist
    ensures multiset(b[i..])[c] == 0
  {
    assert c !in b[i..];
  }

  lemma LeftOutIsFar(chosen: multiset<Cand>, all: multiset<Cand>, c: Cand, x: Cand)
    requires Below(chosen, all - chosen) && chosen[c] < all[c] && x in chosen
    ensures x.dist <= c.dist
  {
    assert c in all - chosen;
  }

  lemma NotNearer(a: seq<Cand>, b: seq<Cand>, all: multiset<Cand>, k: nat, i: nat)
    requires IsTopK(a, all, k) && IsTopK(b, all, k) && i < |a| && i < |b|
    ensures a[i].dist >= b[i].dist
  {
    hide IsTopK;
    if a[i].dist < b[i].dist {
      forall c | c in multiset(a[..i + 1])
        ensures multiset(a[..i + 1])[c] <= multiset(b[..i])[c]
      {
        assert c in a[..i + 1];
        FrontFits(a, b, all, k, i, c);
      }
      assert multiset(a[..i + 1]) <= multiset(b[..i]);
      SubMultisetSize(multiset(a[..i + 1]), multiset(b[..i]));
      assert false;
    }
  }

  /** Any two top-k lists of the same collection have the same distances. */
  lemma TopKUnique(a: seq<Cand>, b: seq<Cand>, all: multiset<Cand>, k: nat)
    requires IsTopK(a, all, k) && IsTopK(b, all, k)
    ensures Dists(a) == Dists(b)
  {
    forall i | 0 <= i < |a| ensures Dists(a)[i] == Dists(b)[i] {
      NotNearer(a, b, all, k, i);
      NotNearer(b, a, all, k, i);
    }
  }

  // ---- The brute-force reference: sort everything, cut at k ----

  function Insert(c: Cand, s: seq<Cand>): seq<Cand> {
    if s == [] || c.dist <= s[0].dist then [c] + s else [s[0]] + Insert(c, s[1..])
  }

  function Sort(s: seq<Cand>): seq<Cand> {
    if s == [] then [] else Insert(s[0], Sort(s[1..]))
  }

  lemma {:induction false} InsertSorted(c: Cand, s: seq<Cand>)
    requires Sorted(s)
    ensures Sorted(Insert(c, s)) && multiset(Insert(c, s)) == multiset(s) + multiset{c}
  {
    hide Below;
    if s == [] || c.dist <= s[0].dist {
      HeadBelow(c, s);
      SortedCons(c, s);
    } else {
      assert Sorted(s[1..]);
      InsertSorted(c, s[1..]);
      assert s == [s[0]] + s[1..];
      HeadBelow(s[0], s[1..]);
      BelowMore(s[0], multiset(s[1..]), c);
      SortedCons(s[0], Insert(c, s[1..]));
    }
  }

  lemma HeadBelow(c: Cand, s: seq<Cand>)
    requires Sorted(s) && (s != [] ==> c.dist <= s[0].dist)
    ensures Below(multiset{c}, multiset(s))
  {
    forall y | y in multiset(s) ensures c.dist <= y.dist {
      var i :| 0 <= i < |s| && s[i] == y;
    }
  }

  lemma BelowMore(x: Cand, m: multiset<Cand>, c: Cand)
    requires Below(multiset{x}, m) && x.dist <= c.dist
    ensures Below(multiset{x}, m + multiset{c})
  {
  }

  lemma {:induction false} SortSorts(s: seq<Cand>)
    ensures Sorted(Sort(s)) && multiset(Sort(s)) == multiset(s)
  {
    if s != [] {
      SortSorts(s[1..]);
      InsertSorted(s[0], Sort(s[1..]));
      assert s == [s[0]] + s[1..];
    }
  }

  function BruteForce(s: seq<Cand>, k: nat): seq<Cand> {
    var t := Sort(s);
    t[..Min(k, |t|)]
  }

  lemma CutIsTopK(t: seq<Cand>, all: multiset<Cand>, k: nat)
    requires Sorted(t) && multiset(t) == all
    ensures IsTopK(t[..Min(k, |t|)], all, k)
  {
    var n := Min(k, |t|);
    assert t == t[..n] + t[n..];
    assert all - multiset(t[..n]) == multiset(t[n..]);
    SplitBelow(t, n);
  }

  lemma SplitBelow(t: seq<Cand>, n: nat)
    requires Sorted(t) && n <= |t|
    ensures Sorted(t[..n]) && Below(multiset(t[..n]), multiset(t[n..]))
  {
    forall x, y | x in multiset(t[..n]) && y in multiset(t[n..]) ensures x.dist <= y.dist {
      var i :| 0 <= i < n && t[..n][i] == x;
      var j :| 0 <= j < |t| - n && t[n..][j] == y;
      assert t[i] == x && t[n + j] == y;
    }
  }

  /** Sort-and-cut is a top-k, and every top-k of the same collection has its distances. */
  lemma TopKIsBruteForce(out: seq<Cand>, s: seq<Cand>, k: nat)
    ensures IsTopK(BruteForce(s, k), multiset(s), k)
    ensures IsTopK(out, multiset(s), k) ==> Dists(out) == Dists(BruteForce(s, k))
  {
    SortSorts(s);
    CutIsTopK(Sort(s), multiset(s), k);
    if IsTopK(out, multiset(s), k) {
      TopKUnique(out, BruteForce(s, k), multiset(s), k);
    }
  }

  // ---- The bounded scan ----

  /** Shows one more candidate to a max-heap that keeps the k nearest of everything seen. */
  method Offer(hp: Heap, k: nat, c: Cand, ghost seen: multiset<Cand>)
    requires hp.Valid() && hp.order == Farther && k > 0
    requires IsBest(multiset(hp.h), seen, k)
    modifies hp
    ensures hp.Valid() && IsBest(multiset(hp.h), seen + multiset{c}, k)
  {
    ghost var before := hp.h;
    if |hp.h| < k {
      hp.Push(c);
      assert multiset(before) == seen by { FullMultiset(multiset(before), seen); }
    } else if c.dist < hp.h[0].dist {
      WorstFirst(hp.h);
      var top := hp.Pop();
      hp.Push(c);
      Replaced(multiset(before), seen, k, c, top);
    } else {
      WorstFirst(hp.h);
      Skipped(multiset(before), seen, k, c, hp.h[0]);
    }
  }

  lemma FullMultiset(a: multiset<Cand>, b: multiset<Cand>)
    requires a <= b && |a| == |b|
    ensures a == b
  {
    assert b == a + (b - a);
    assert |b - a| == 0;
  }

  lemma WorstFirst(h: seq<Cand>)
    requires IsHeap(Farther, h) && h != []
    ensures forall x :: x in multiset(h) ==> x.dist <= h[0].dist
  {
    forall x | x in multiset(h) ensures x.dist <= h[0].dist {
      assert x in h;
      var i :| 0 <= i < |h| && h[i] == x;
      RootFirst(Farther, h, i);
    }
  }

  lemma Replaced(chosen: multiset<Cand>, seen: multiset<Cand>, k: nat, c: Cand, top: Cand)
    requires IsBest(chosen, seen, k) && |chosen| >= k && top in chosen && c.dist < top.dist
    requires forall x :: x in chosen ==> x.dist <= top.dist
    ensures IsBest(chosen - multiset{top} + multiset{c}, seen + multiset{c}, k)
  {
    var now := chosen - multiset{top} + multiset{c};
    var all := seen + multiset{c};
    assert all - now == seen - chosen + multiset{top};
    forall x, y | x in now && y in all - now ensures x.dist <= y.dist {
      if y != top { assert y in seen - chosen && top in chosen; }
    }
  }

  lemma Skipped(chosen: multiset<Cand>, seen: multiset<Cand>, k: nat, c: Cand, top: Cand)
    requires IsBest(chosen, seen, k) && |chosen| >= k && c.dist >= top.dist
    requires forall x :: x in chosen ==> x.dist <= top.dist
    ensures IsBest(chosen, seen + multiset{c}, k)
  {
    var all := seen + multiset{c};
    assert all - chosen == seen - chosen + multiset{c};
  }
}
