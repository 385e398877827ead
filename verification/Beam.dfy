/**
 Best-first beam search of one graph layer (Malkov and Yashunin, Algorithm 2),
 with its generation-stamped visited set and its two heaps.
 */
module Beam {
  import opened Bytes
  import opened Common
  import opened Heap
  import opened TopK

  // ---- The visited set ----

  /** A slot is visited when its mark equals gen, so a new search only bumps gen. */
  class VisitedSet {
    var marks: array<u32>
    var gen: u32

    ghost predicate Valid()
      reads this, marks
    {
      forall i :: 0 <= i < marks.Length ==> marks[i] <= gen
    }

    ghost function Seen(): set<nat>
      reads this, marks
    {
      set i: nat | i < marks.Length && marks[i] == gen
    }

    constructor ()
      ensures Valid() && fresh(marks) && marks.Length == 0 && gen == 0
    {
      marks, gen := new u32[0], 0;
    }

    /** Starts an empty set over n slots; the 32-bit generation may wrap around. */
    method Reset(n: nat)
      requires Valid()
      modifies this, marks
      ensures Valid() && Seen() == {} && marks.Length >= n
      ensures marks == old(marks) || fresh(marks)
    {
      if marks.Length < n {
        marks := new u32[n + n / 4](_ => 0);
        gen := 0;
      }
      gen := (gen + 1) % U32;
      if gen == 0 {
        forall i | 0 <= i < marks.Length { marks[i] := 0; }
        gen := 1;
      }
    }

    /** Marks slot and reports whether it was marked already. */
    method Visit(slot: nat) returns (was: bool)
      requires Valid() && slot < marks.Length
      modifies marks
      ensures Valid() && was == (slot in old(Seen())) && Seen() == old(Seen()) + {slot}
    {
      if marks[slot] == gen {
        return true;
      }
      marks[slot] := gen;
      return false;
    }
  }

  // ---- One layer as the search sees it ----

  datatype Layer = Layer(links: seq<seq<nat>>, dead: seq<bool>, dist: nat -> real)

  ghost predicate WellFormed(g: Layer) {
    && |g.links| == |g.dead|
    && forall s, k :: 0 <= s < |g.links| && 0 <= k < |g.links[s]| ==> g.links[s][k] < |g.links|
  }

  function CandOf(g: Layer, x: nat): Cand {
    Cand(x, g.dist(x))
  }

  ghost function Cands(g: Layer, s: set<nat>): set<Cand> {
    set x | x in s :: CandOf(g, x)
  }

  ghost function LiveIn(g: Layer, s: set<nat>): set<nat>
    requires forall x :: x in s ==> x < |g.dead|
  {
    set x | x in s && !g.dead[x]
  }

  ghost predicate IsPath(g: Layer, p: seq<nat>) {
    && p != []
    && forall i :: 0 <= i < |p| - 1 ==> p[i] < |g.links| && p[i + 1] in g.links[p[i]]
  }

  ghost predicate Reachable(g: Layer, a: nat, b: nat) {
    exists p :: IsPath(g, p) && p[0] == a && p[|p| - 1] == b
  }

  ghost predicate Closed(g: Layer, s: set<nat>) {
    forall x, y :: x in s && x < |g.links| && y in g.links[x] ==> y in s
  }

  lemma ReachStep(g: Layer, a: nat, b: nat, c: nat)
    requires Reachable(g, a, b) && b < |g.links| && c in g.links[b]
    ensures Reachable(g, a, c)
  {
    var p :| IsPath(g, p) && p[0] == a && p[|p| - 1] == b;
    var q := p + [c];
    assert IsPath(g, q) && q[0] == a && q[|q| - 1] == c;
  }

  lemma ReachSelf(g: Layer, a: nat)
    ensures Reachable(g, a, a)
  {
    assert IsPath(g, [a]) && [a][0] == a && [a][|[a]| - 1] == a;
  }

  lemma {:induction false} PathStaysInside(g: Layer, p: seq<nat>, s: set<nat>)
    requires IsPath(g, p) && p[0] in s && Closed(g, s)
    ensures p[|p| - 1] in s
    decreases |p|
  {
    if |p| > 1 {
      assert p[0 + 1] in g.links[p[0]];
      assert IsPath(g, p[1..]);
      PathStaysInside(g, p[1..], s);
    }
  }

  lemma ReachStaysInside(g: Layer, a: nat, b: nat, s: set<nat>)
    requires Reachable(g, a, b) && a in s && Closed(g, s)
    ensures b in s
  {
    var p :| IsPath(g, p) && p[0] == a && p[|p| - 1] == b;
    PathStaysInside(g, p, s);
  }

  // ---- Search state ----

  /** A heap holding exactly the candidates of the slots in s, once each. */
  ghost predicate Holds(g: Layer, h: seq<Cand>, s: set<nat>) {
    multiset(h) == multiset(Cands(g, s))
  }

  lemma HoldsAdd(g: Layer, m: multiset<Cand>, s: set<nat>, x: nat)
    requires m == multiset(Cands(g, s)) && x !in s
    ensures m + multiset{CandOf(g, x)} == multiset(Cands(g, s + {x}))
  {
    assert Cands(g, s + {x}) == Cands(g, s) + {CandOf(g, x)};
    assert CandOf(g, x) !in Cands(g, s);
  }

  lemma HoldsRemove(g: Layer, m: multiset<Cand>, s: set<nat>, c: Cand)
    requires m == multiset(Cands(g, s)) && c in m
    ensures c.id in s && c == CandOf(g, c.id)
    ensures m - multiset{c} == multiset(Cands(g, s - {c.id}))
  {
    assert c in Cands(g, s);
    assert Cands(g, s - {c.id}) == Cands(g, s) - {c};
  }

  /** Pushing a candidate and then dropping the farthest keeps the k best. */
  lemma PushThenDrop(chosen: multiset<Cand>, seen: multiset<Cand>, k: nat, c: Cand, top: Cand)
    requires IsBest(chosen, seen, k) && |chosen| == k && top in chosen + multiset{c}
    requires forall x :: x in chosen + multiset{c} ==> x.dist <= top.dist
    ensures IsBest(chosen + multiset{c} - multiset{top}, seen + multiset{c}, k)
  {
    var now := chosen + multiset{c} - multiset{top};
    var all := seen + multiset{c};
    assert all - now == seen - chosen + multiset{top};
    forall x, y | x in now && y in all - now ensures x.dist <= y.dist {
      assert x in chosen + multiset{c};
      if y != top && x !in chosen {
        assert x == c && top in chosen && y in seen - chosen;
      }
    }
  }

  /**
   frontier: slots waiting to be expanded. expanded: those whose links were
   followed. visited: all slots scored so far. A visited slot that is in
   neither was dropped because the results were full of nearer ones.
   */
  datatype Sets = Sets(frontier: set<nat>, expanded: set<nat>, visited: set<nat>)

  ghost predicate Shape(g: Layer, entry: nat, t: Sets) {
    && (forall x :: x in t.visited ==> x < |g.dead|)
    && entry in t.visited && t.expanded <= t.visited && t.frontier <= t.visited && t.expanded !! t.frontier
    && forall x :: x in t.visited ==> Reachable(g, entry, x)
  }

  ghost predicate Dropped(g: Layer, ef: nat, t: Sets, results: multiset<Cand>) {
    forall x :: x in t.visited - t.expanded - t.frontier ==>
      |results| == ef && forall r :: r in results ==> r.dist <= g.dist(x)
  }

  ghost predicate SearchInv(g: Layer, entry: nat, ef: nat, t: Sets, frontier: seq<Cand>, results: multiset<Cand>) {
    && Shape(g, entry, t)
    && Holds(g, frontier, t.frontier)
    && IsBest(results, multiset(Cands(g, LiveIn(g, t.visited))), ef)
    && Dropped(g, ef, t, results)
  }

  lemma LiveAdd(g: Layer, s: set<nat>, x: nat)
    requires x !in s && x < |g.dead| && forall y :: y in s ==> y < |g.dead|
    ensures multiset(Cands(g, LiveIn(g, s + {x}))) ==
            if g.dead[x] then multiset(Cands(g, LiveIn(g, s)))
            else multiset(Cands(g, LiveIn(g, s))) + multiset{CandOf(g, x)}
  {
    if g.dead[x] {
      assert LiveIn(g, s + {x}) == LiveIn(g, s);
    } else {
      assert LiveIn(g, s + {x}) == LiveIn(g, s) + {x};
      HoldsAdd(g, multiset(Cands(g, LiveIn(g, s))), LiveIn(g, s), x);
    }
  }

  /** x joins the frontier and the results change from r0 to r1, no farther than before. */
  lemma KeptInv(g: Layer, entry: nat, ef: nat, t: Sets, x: nat, f0: seq<Cand>, f1: seq<Cand>, r0: multiset<Cand>, r1: multiset<Cand>, top: Cand)
    requires SearchInv(g, entry, ef, t, f0, r0)
    requires x < |g.dead| && x !in t.visited && Reachable(g, entry, x)
    requires multiset(f1) == multiset(f0) + multiset{CandOf(g, x)}
    requires IsBest(r1, multiset(Cands(g, LiveIn(g, t.visited + {x}))), ef)
    requires |r0| == ef ==> top in r0 && |r1| == ef && forall r :: r in r1 ==> r.dist <= top.dist
    ensures SearchInv(g, entry, ef, t.(frontier := t.frontier + {x}, visited := t.visited + {x}), f1, r1)
  {
    hide Reachable, IsBest, Holds;
    var u := t.(frontier := t.frontier + {x}, visited := t.visited + {x});
    PushHolds(g, f0, f1, t.frontier, x);
    forall y | y in u.visited - u.expanded - u.frontier
      ensures |r1| == ef && forall r :: r in r1 ==> r.dist <= g.dist(y)
    {
      assert y in t.visited - t.expanded - t.frontier;
    }
  }

  /** x is turned away by full, nearer results. */
  lemma DroppedInv(g: Layer, entry: nat, ef: nat, t: Sets, x: nat, f0: seq<Cand>, r0: multiset<Cand>)
    requires SearchInv(g, entry, ef, t, f0, r0)
    requires x < |g.dead| && x !in t.visited && Reachable(g, entry, x)
    requires IsBest(r0, multiset(Cands(g, LiveIn(g, t.visited + {x}))), ef)
    requires |r0| == ef && forall r :: r in r0 ==> r.dist <= g.dist(x)
    ensures SearchInv(g, entry, ef, t.(visited := t.visited + {x}), f0, r0)
  {
    hide Reachable, IsBest, Holds;
    var u := t.(visited := t.visited + {x});
    forall y | y in u.visited - u.expanded - u.frontier
      ensures forall r :: r in r0 ==> r.dist <= g.dist(y)
    {
      if y != x { assert y in t.visited - t.expanded - t.frontier; }
    }
  }

  /** Adds c to the results and evicts the farthest if there are now too many. */
  method Admit(results: Heap, ef: nat, c: Cand, ghost seen: multiset<Cand>)
    requires ef > 0 && results.Valid() && results.order == Farther
    requires IsBest(multiset(results.h), seen, ef)
    requires |results.h| < ef || c.dist < results.h[0].dist
    modifies results
    ensures results.Valid() && IsBest(multiset(results.h), seen + multiset{c}, ef)
    ensures |old(results.h)| == ef ==>
              |results.h| == ef && forall r :: r in multiset(results.h) ==> r.dist <= old(results.h[0]).dist
  {
    hide IsBest, IsHeap;
    ghost var r0 := results.h;
    BestSize(multiset(r0), seen, ef);
    if r0 != [] { WorstFirst(r0); }
    results.Push(c);
    ghost var r1 := results.h;
    if |results.h| > ef {
      var top := results.Pop();
      forall x | x in multiset(r0) + multiset{c} ensures x.dist <= top.dist {
        assert x in r1 by { assert x in multiset(r1); }
      }
      assert top in multiset(r1);
      KeepBest(multiset(r0), seen, ef, c, top);
      forall r | r in multiset(results.h) ensures r.dist <= r0[0].dist {
        assert r in multiset(r1);
      }
    } else {
      AddBest(multiset(r0), seen, ef, c);
    }
  }

  /** Scores one newly visited slot. */
  method Score(g: Layer, x: nat, ef: nat, frontier: Heap, results: Heap, ghost entry: nat, ghost t: Sets)
    returns (ghost u: Sets)
    requires ef > 0 && x < |g.dead| && x !in t.visited && Reachable(g, entry, x)
    requires frontier != results && frontier.Valid() && results.Valid()
    requires frontier.order == Closer && results.order == Farther
    requires SearchInv(g, entry, ef, t, frontier.h, multiset(results.h))
    modifies frontier, results
    ensures frontier.Valid() && results.Valid()
    ensures u.expanded == t.expanded && u.visited == t.visited + {x}
    ensures SearchInv(g, entry, ef, u, frontier.h, multiset(results.h))
  {
    hide Reachable, IsBest, IsHeap, Holds, Dropped;
    var d := g.dist(x);
    ghost var f0, r0 := frontier.h, results.h;
    ghost var seen := multiset(Cands(g, LiveIn(g, t.visited)));
    LiveAdd(g, t.visited, x);
    BestSize(multiset(r0), seen, ef);
    ghost var worst := if r0 == [] then Cand(x, d) else r0[0];
    if r0 != [] { WorstFirst(r0); }
    if |results.h| < ef || d < results.h[0].dist {
      frontier.Push(Cand(x, d));
      if !g.dead[x] {
        Admit(results, ef, Cand(x, d), seen);
      }
      u := t.(frontier := t.frontier + {x}, visited := t.visited + {x});
      KeptInv(g, entry, ef, t, x, f0, frontier.h, multiset(r0), multiset(results.h), worst);
    } else {
      if !g.dead[x] {
        SkipBest(multiset(r0), seen, ef, CandOf(g, x), worst);
      }
      u := t.(visited := t.visited + {x});
      DroppedInv(g, entry, ef, t, x, f0, multiset(r0));
    }
  }

  lemma PushHolds(g: Layer, f0: seq<Cand>, f1: seq<Cand>, s: set<nat>, x: nat)
    requires Holds(g, f0, s) && x !in s && multiset(f1) == multiset(f0) + multiset{CandOf(g, x)}
    ensures Holds(g, f1, s + {x})
  {
    HoldsAdd(g, multiset(f0), s, x);
  }

  lemma BestSize(chosen: multiset<Cand>, seen: multiset<Cand>, ef: nat)
    requires IsBest(chosen, seen, ef)
    ensures |chosen| <= ef
  {
  }

  lemma AddBest(chosen: multiset<Cand>, seen: multiset<Cand>, ef: nat, c: Cand)
    requires IsBest(chosen, seen, ef) && |chosen| < ef
    ensures IsBest(chosen + multiset{c}, seen + multiset{c}, ef)
  {
    FullMultiset(chosen, seen);
  }

  lemma KeepBest(chosen: multiset<Cand>, seen: multiset<Cand>, ef: nat, c: Cand, top: Cand)
    requires IsBest(chosen, seen, ef) && |chosen| == ef && top in chosen + multiset{c}
    requires forall x :: x in chosen + multiset{c} ==> x.dist <= top.dist
    ensures IsBest(chosen + multiset{c} - multiset{top}, seen + multiset{c}, ef)
  {
    PushThenDrop(chosen, seen, ef, c, top);
  }

  lemma SkipBest(chosen: multiset<Cand>, seen: multiset<Cand>, ef: nat, c: Cand, top: Cand)
    requires IsBest(chosen, seen, ef) && |chosen| == ef && c.dist >= top.dist
    requires forall x :: x in chosen ==> x.dist <= top.dist
    ensures IsBest(chosen, seen + multiset{c}, ef)
  {
    Skipped(chosen, seen, ef, c, top);
  }

  ghost predicate Distinct(s: seq<nat>) {
    forall i, j :: 0 <= i < j < |s| ==> s[i] != s[j]
  }

  function ToSet(s: seq<nat>): set<nat> {
    set x | x in s
  }

  /** Collects the neighbours of c that were not visited yet, marking them. */
  method Gather(g: Layer, c: nat, visited: VisitedSet) returns (found: seq<nat>)
    requires WellFormed(g) && c < |g.links|
    requires visited.Valid() && visited.marks.Length >= |g.links|
    modifies visited.marks
    ensures visited.Valid() && visited.Seen() == old(visited.Seen()) + ToSet(found)
    ensures Distinct(found) && ToSet(found) !! old(visited.Seen())
    ensures forall x :: x in found ==> x in g.links[c]
    ensures forall y :: y in g.links[c] ==> y in visited.Seen()
  {
    found := [];
    for k := 0 to |g.links[c]|
      invariant visited.Valid() && visited.Seen() == old(visited.Seen()) + ToSet(found)
      invariant Distinct(found) && ToSet(found) !! old(visited.Seen())
      invariant forall x :: x in found ==> x in g.links[c]
      invariant forall j :: 0 <= j < k ==> g.links[c][j] in visited.Seen()
    {
      var x := g.links[c][k];
      var was := visited.Visit(x);
      if !was {
        assert x !in ToSet(found);
        assert ToSet(found + [x]) == ToSet(found) + {x};
        found := found + [x];
      }
    }
  }

  /** Everything expanded has had its neighbours visited. */
  ghost predicate Followed(g: Layer, t: Sets) {
    forall x, y :: x in t.expanded && x < |g.links| && y in g.links[x] ==> y in t.visited
  }

  /**
   What holds when the search stops: the output is the ef nearest live nodes of
   the visited set, and anything visited but not expanded is no nearer than
   they are.
   */
  ghost predicate SearchExit(g: Layer, entry: nat, ef: nat, out: seq<Cand>, t: Sets) {
    && Shape(g, entry, t) && Followed(g, t)
    && IsTopK(out, multiset(Cands(g, LiveIn(g, t.visited))), ef)
    && Dropped(g, ef, t.(frontier := {}), multiset(out))
  }

  lemma PopFrontier(g: Layer, entry: nat, ef: nat, t: Sets, f0: seq<Cand>, f1: seq<Cand>, c: Cand, results: multiset<Cand>)
    requires SearchInv(g, entry, ef, t, f0, results)
    requires c in multiset(f0) && multiset(f1) == multiset(f0) - multiset{c}
    ensures c.id in t.frontier && c == CandOf(g, c.id)
    ensures SearchInv(g, entry, ef, t.(frontier := t.frontier - {c.id}, expanded := t.expanded + {c.id}), f1, results)
  {
    hide IsBest, Reachable;
    HoldsRemove(g, multiset(f0), t.frontier, c);
    var u := t.(frontier := t.frontier - {c.id}, expanded := t.expanded + {c.id});
    assert u.visited - u.expanded - u.frontier == t.visited - t.expanded - t.frontier;
  }

  /** Stopping at a frontier node farther than every result. */
  lemma CutOff(g: Layer, entry: nat, ef: nat, t: Sets, f0: seq<Cand>, c: Cand, results: multiset<Cand>)
    requires SearchInv(g, entry, ef, t, f0, results) && |results| == ef
    requires forall x :: x in f0 ==> c.dist <= x.dist
    requires forall r :: r in results ==> r.dist <= c.dist
    ensures Dropped(g, ef, t.(frontier := {}), results)
  {
    hide IsBest, Reachable;
    forall x | x in t.visited - t.expanded
      ensures forall r :: r in results ==> r.dist <= g.dist(x)
    {
      if x in t.frontier {
        assert CandOf(g, x) in Cands(g, t.frontier);
        assert CandOf(g, x) in multiset(f0);
        assert CandOf(g, x) in f0;
      } else {
        assert x in t.visited - t.expanded - t.frontier;
      }
    }
  }

  lemma FrontierOnHeap(g: Layer, s: set<nat>)
    requires s != {}
    ensures multiset(Cands(g, s)) != multiset([])
  {
    var x :| x in s;
    assert CandOf(g, x) in multiset(Cands(g, s));
  }

  lemma RanDry(g: Layer, entry: nat, ef: nat, t: Sets, results: multiset<Cand>)
    requires SearchInv(g, entry, ef, t, [], results)
    ensures Dropped(g, ef, t.(frontier := {}), results)
  {
    if t.frontier != {} {
      FrontierOnHeap(g, t.frontier);
      assert false;
    }
  }

  ghost function Slots(n: nat): (s: set<nat>)
    ensures forall x: nat :: x in s <==> x < n
  {
    if n == 0 then {} else Slots(n - 1) + {n - 1}
  }

  lemma StartInv(g: Layer, entry: nat, ef: nat)
    requires ef > 0 && entry < |g.dead|
    ensures var t := Sets({entry}, {}, {entry});
            SearchInv(g, entry, ef, t, [CandOf(g, entry)], if g.dead[entry] then multiset{} else multiset{CandOf(g, entry)})
  {
    ReachSelf(g, entry);
    assert Cands(g, {entry}) == {CandOf(g, entry)};
    if g.dead[entry] {
      assert LiveIn(g, {entry}) == {};
      assert Cands(g, {}) == {};
    } else {
      assert LiveIn(g, {entry}) == {entry};
    }
  }

  /** Scores every slot in found, in order. */
  method ScoreAll(g: Layer, found: seq<nat>, ef: nat, frontier: Heap, results: Heap, ghost entry: nat, ghost t: Sets)
    returns (ghost u: Sets)
    requires ef > 0 && Distinct(found) && ToSet(found) !! t.visited
    requires forall x :: x in found ==> x < |g.dead| && Reachable(g, entry, x)
    requires frontier != results && frontier.Valid() && results.Valid()
    requires frontier.order == Closer && results.order == Farther
    requires SearchInv(g, entry, ef, t, frontier.h, multiset(results.h))
    modifies frontier, results
    ensures frontier.Valid() && results.Valid()
    ensures u.expanded == t.expanded && u.visited == t.visited + ToSet(found)
    ensures SearchInv(g, entry, ef, u, frontier.h, multiset(results.h))
  {
    hide Reachable, SearchInv;
    u := t;
    assert ToSet(found[..0]) == {};
    for i := 0 to |found|
      invariant frontier.Valid() && results.Valid()
      invariant u.expanded == t.expanded && u.visited == t.visited + ToSet(found[..i])
      invariant SearchInv(g, entry, ef, u, frontier.h, multiset(results.h))
    {
      assert found[..i + 1] == found[..i] + [found[i]];
      assert ToSet(found[..i + 1]) == ToSet(found[..i]) + {found[i]};
      assert found[i] in ToSet(found);
      u := Score(g, found[i], ef, frontier, results, entry, u);
    }
    assert found[..|found|] == found;
  }

  /** The loop invariant of the search. */
  ghost predicate Searching(g: Layer, entry: nat, ef: nat, t: Sets, frontier: Heap, results: Heap, visited: VisitedSet)
    reads frontier, results, visited, visited.marks
  {
    && frontier.Valid() && results.Valid() && visited.Valid() && frontier != results
    && frontier.order == Closer && results.order == Farther && visited.marks.Length >= |g.links|
    && SearchInv(g, entry, ef, t, frontier.h, multiset(results.h))
    && visited.Seen() == t.visited && Followed(g, t)
  }

  /** Expands c, which has just left the frontier. */
  method Expand(g: Layer, c: nat, ef: nat, frontier: Heap, results: Heap, visited: VisitedSet, ghost entry: nat, ghost t: Sets)
    returns (ghost u: Sets)
    requires WellFormed(g) && ef > 0 && c < |g.links| && Reachable(g, entry, c) && c in t.expanded
    requires frontier.Valid() && results.Valid() && visited.Valid() && frontier != results
    requires frontier.order == Closer && results.order == Farther && visited.marks.Length >= |g.links|
    requires SearchInv(g, entry, ef, t, frontier.h, multiset(results.h))
    requires visited.Seen() == t.visited && Followed(g, t.(expanded := t.expanded - {c}))
    modifies frontier, results, visited.marks
    ensures Searching(g, entry, ef, u, frontier, results, visited)
    ensures u.expanded == t.expanded
  {
    hide Reachable, SearchInv, IsHeap;
    var found := Gather(g, c, visited);
    forall x | x in found ensures x < |g.dead| && Reachable(g, entry, x) {
      ReachStep(g, entry, c, x);
    }
    u := ScoreAll(g, found, ef, frontier, results, entry, t);
    forall x, y | x in u.expanded && x < |g.links| && y in g.links[x] ensures y in u.visited {
      if x != c { assert x in t.expanded - {c}; }
    }
  }

  /** The search may stop: nothing visited and unexpanded is nearer than the results. */
  ghost predicate Finished(g: Layer, entry: nat, ef: nat, t: Sets, results: multiset<Cand>) {
    && Shape(g, entry, t) && Followed(g, t)
    && IsBest(results, multiset(Cands(g, LiveIn(g, t.visited))), ef)
    && Dropped(g, ef, t.(frontier := {}), results)
  }

  /** One round: take the closest frontier node, stop if it is too far, else expand it. */
  method Round(g: Layer, ef: nat, frontier: Heap, results: Heap, visited: VisitedSet, ghost entry: nat, ghost t: Sets)
    returns (stop: bool, ghost u: Sets)
    requires WellFormed(g) && ef > 0 && frontier.h != []
    requires Searching(g, entry, ef, t, frontier, results, visited)
    modifies frontier, results, visited.marks
    ensures stop ==> results.Valid() && visited.Valid() && Finished(g, entry, ef, u, multiset(results.h))
    ensures !stop ==> Searching(g, entry, ef, u, frontier, results, visited)
    ensures !stop ==> t.expanded < u.expanded && u.expanded <= Slots(|g.links|)
  {
    hide Reachable, SearchInv, IsBest, IsHeap, Dropped, Shape, Followed;
    ghost var f0 := frontier.h;
    var c := frontier.Pop();
    InvParts(g, entry, ef, t, f0, multiset(results.h));
    if |results.h| >= ef && c.dist > results.h[0].dist {
      WorstFirst(results.h);
      CutOff(g, entry, ef, t, f0, c, multiset(results.h));
      return true, t;
    }
    assert c in multiset(f0);
    PopFrontier(g, entry, ef, t, f0, frontier.h, c, multiset(results.h));
    InShape(g, entry, t, c.id);
    assert t.expanded + {c.id} - {c.id} == t.expanded;
    u := t.(frontier := t.frontier - {c.id}, expanded := t.expanded + {c.id});
    SameFollowed(g, t, u.(expanded := t.expanded));
    u := Expand(g, c.id, ef, frontier, results, visited, entry, u);
    ExpandedInSlots(g, entry, t, c.id);
    return false, u;
  }

  lemma SameFollowed(g: Layer, t: Sets, u: Sets)
    requires Followed(g, t) && t.expanded == u.expanded && t.visited == u.visited
    ensures Followed(g, u)
  {
  }

  lemma ExpandedInSlots(g: Layer, entry: nat, t: Sets, x: nat)
    requires WellFormed(g) && Shape(g, entry, t) && x < |g.links|
    ensures t.expanded + {x} <= Slots(|g.links|)
  {
  }

  /** The search loop. */
  method SearchLayer(g: Layer, entry: nat, ef: nat, visited: VisitedSet) returns (out: seq<Cand>, ghost t: Sets)
    requires WellFormed(g) && entry < |g.dead| && ef > 0 && visited.Valid()
    modifies visited, visited.marks
    ensures SearchExit(g, entry, ef, out, t)
    ensures visited.Valid() && (visited.marks == old(visited.marks) || fresh(visited.marks))
  {
    hide Reachable, SearchInv, IsBest, IsHeap, Dropped, Shape, Followed;
    var frontier, results;
    frontier, results, t := Begin(g, entry, ef, visited);
    var stop := false;
    while !stop && frontier.h != []
      invariant fresh(frontier) && fresh(results) && (visited.marks == old(visited.marks) || fresh(visited.marks))
      invariant !stop ==> Searching(g, entry, ef, t, frontier, results, visited)
      invariant stop ==> results.Valid() && visited.Valid() && Finished(g, entry, ef, t, multiset(results.h))
      invariant results.order == Farther
      decreases !stop, Slots(|g.links|) - t.expanded
    {
      stop, t := Round(g, ef, frontier, results, visited, entry, t);
    }
    if !stop {
      InvParts(g, entry, ef, t, [], multiset(results.h));
      RanDry(g, entry, ef, t, multiset(results.h));
    }
    out := Drain(results);
  }

  method Begin(g: Layer, entry: nat, ef: nat, visited: VisitedSet)
    returns (frontier: Heap, results: Heap, ghost t: Sets)
    requires WellFormed(g) && entry < |g.dead| && ef > 0 && visited.Valid()
    modifies visited, visited.marks
    ensures fresh(frontier) && fresh(results) && (visited.marks == old(visited.marks) || fresh(visited.marks))
    ensures Searching(g, entry, ef, t, frontier, results, visited)
  {
    hide SearchInv;
    visited.Reset(|g.links|);
    var _ := visited.Visit(entry);
    frontier := new Heap(Closer);
    results := new Heap(Farther);
    frontier.Push(CandOf(g, entry));
    if !g.dead[entry] {
      results.Push(CandOf(g, entry));
    }
    t := Sets({entry}, {}, {entry});
    StartInv(g, entry, ef);
    assert multiset(results.h) == if g.dead[entry] then multiset{} else multiset{CandOf(g, entry)};
    assert multiset(frontier.h) == multiset([CandOf(g, entry)]);
    SameHeap(g, entry, ef, t, [CandOf(g, entry)], frontier.h, multiset(results.h));
  }

  lemma InvParts(g: Layer, entry: nat, ef: nat, t: Sets, f: seq<Cand>, results: multiset<Cand>)
    requires SearchInv(g, entry, ef, t, f, results)
    ensures Shape(g, entry, t) && |results| <= ef
    ensures forall x :: x in t.visited ==> x < |g.dead|
    ensures IsBest(results, multiset(Cands(g, LiveIn(g, t.visited))), ef)
  {
  }

  lemma InShape(g: Layer, entry: nat, t: Sets, x: nat)
    requires Shape(g, entry, t) && x in t.frontier
    ensures x in t.visited && x < |g.dead| && x !in t.expanded && Reachable(g, entry, x)
  {
  }

  lemma SameHeap(g: Layer, entry: nat, ef: nat, t: Sets, f0: seq<Cand>, f1: seq<Cand>, results: multiset<Cand>)
    requires SearchInv(g, entry, ef, t, f0, results) && multiset(f0) == multiset(f1)
    ensures SearchInv(g, entry, ef, t, f1, results)
  {
  }

  // ---- The exit theorem ----

  function Ids(out: seq<Cand>): (ids: seq<nat>)
    ensures |ids| == |out| && forall i :: 0 <= i < |out| ==> ids[i] == out[i].id
  {
    seq(|out|, i requires 0 <= i < |out| => out[i].id)
  }

  lemma OutputIsLive(g: Layer, entry: nat, ef: nat, out: seq<Cand>, t: Sets, i: nat)
    requires SearchExit(g, entry, ef, out, t) && i < |out|
    ensures out[i].id in t.visited && out[i].id < |g.dead| && !g.dead[out[i].id] && out[i] == CandOf(g, out[i].id)
  {
    hide Reachable, Below, Dropped, Followed;
    assert out[i] in multiset(out);
    assert out[i] in Cands(g, LiveIn(g, t.visited));
  }

  lemma OutputIsDistinct(g: Layer, entry: nat, ef: nat, out: seq<Cand>, t: Sets)
    requires SearchExit(g, entry, ef, out, t)
    ensures Distinct(Ids(out))
  {
    hide Reachable, Below, Dropped, Followed;
    forall i, j | 0 <= i < j < |out| ensures Ids(out)[i] != Ids(out)[j] {
      OutputIsLive(g, entry, ef, out, t, i);
      OutputIsLive(g, entry, ef, out, t, j);
      if out[i] == out[j] {
        CountTwice(out, i, j);
        assert false;
      }
    }
  }

  /**
   The beam search theorem. The output is sorted, distinct and live. Every live
   visited node left out is at least as far as all of the output, which is then
   full. Every visited node strictly nearer than some output node was expanded.
   If the output is short of ef, it is exactly the live nodes reachable from
   the entry point.
   */
  lemma BeamSearchExit(g: Layer, entry: nat, ef: nat, out: seq<Cand>, t: Sets)
    requires WellFormed(g) && SearchExit(g, entry, ef, out, t)
    ensures Sorted(out) && Distinct(Ids(out)) && |out| <= ef
    ensures forall i :: 0 <= i < |out| ==> out[i].id < |g.dead| && !g.dead[out[i].id] && out[i].dist == g.dist(out[i].id)
    ensures forall x, i :: x in t.visited && !g.dead[x] && x !in Ids(out) && 0 <= i < |out| ==>
              |out| == ef && out[i].dist <= g.dist(x)
    ensures forall x, i :: x in t.visited && 0 <= i < |out| && g.dist(x) < out[i].dist ==> x in t.expanded
    ensures |out| < ef ==> forall x: nat :: x in Ids(out) <==> Reachable(g, entry, x) && x < |g.dead| && !g.dead[x]
  {
    hide Reachable;
    OutputIsDistinct(g, entry, ef, out, t);
    forall i | 0 <= i < |out| ensures out[i].id < |g.dead| && !g.dead[out[i].id] && out[i].dist == g.dist(out[i].id) {
      OutputIsLive(g, entry, ef, out, t, i);
    }
    forall x, i | x in t.visited && !g.dead[x] && x !in Ids(out) && 0 <= i < |out|
      ensures |out| == ef && out[i].dist <= g.dist(x)
    {
      LeftOut(g, entry, ef, out, t, x);
      assert out[i] in multiset(out);
    }
    forall x, i | x in t.visited && 0 <= i < |out| && g.dist(x) < out[i].dist ensures x in t.expanded {
      assert out[i] in multiset(out);
    }
    if |out| < ef {
      forall x: nat ensures x in Ids(out) <==> Reachable(g, entry, x) && x < |g.dead| && !g.dead[x] {
        ShortOutput(g, entry, ef, out, t, x);
      }
    }
  }

  lemma LeftOut(g: Layer, entry: nat, ef: nat, out: seq<Cand>, t: Sets, x: nat)
    requires SearchExit(g, entry, ef, out, t) && x in t.visited && !g.dead[x] && x !in Ids(out)
    ensures |out| == ef && forall c :: c in multiset(out) ==> c.dist <= g.dist(x)
  {
    hide Reachable, Dropped, Followed;
    var all := multiset(Cands(g, LiveIn(g, t.visited)));
    assert x in LiveIn(g, t.visited);
    assert CandOf(g, x) in all;
    assert CandOf(g, x) !in out by {
      forall i | 0 <= i < |out| ensures out[i] != CandOf(g, x) { assert Ids(out)[i] != x; }
    }
    assert CandOf(g, x) in all - multiset(out);
    if |out| < ef { FullMultiset(multiset(out), all); }
  }

  lemma NothingDropped(g: Layer, ef: nat, t: Sets, results: multiset<Cand>)
    requires Dropped(g, ef, t, results) && |results| != ef
    ensures forall x :: x in t.visited ==> x in t.expanded || x in t.frontier
  {
    assert forall x :: x in t.visited - t.expanded - t.frontier <==> x in t.visited && x !in t.expanded && x !in t.frontier;
  }

  lemma ShortOutput(g: Layer, entry: nat, ef: nat, out: seq<Cand>, t: Sets, x: nat)
    requires WellFormed(g) && SearchExit(g, entry, ef, out, t) && |out| < ef
    ensures x in Ids(out) <==> Reachable(g, entry, x) && x < |g.dead| && !g.dead[x]
  {
    hide Reachable;
    if x in Ids(out) {
      var i :| 0 <= i < |out| && Ids(out)[i] == x;
      OutputIsLive(g, entry, ef, out, t, i);
    }
    if Reachable(g, entry, x) && x < |g.dead| && !g.dead[x] {
      NothingDropped(g, ef, t.(frontier := {}), multiset(out));
      assert t.visited == t.expanded;
      ReachStaysInside(g, entry, x, t.visited);
      if x !in Ids(out) { LeftOut(g, entry, ef, out, t, x); }
    }
  }
}
