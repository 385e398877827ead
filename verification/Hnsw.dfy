/**
 The HNSW graph object: greedy descent, neighbour selection, insert, reinsert,
 delete and batch insert.
 */
module Hnsw {
  import opened Common
  import opened Heap
  import opened TopK
  import opened Beam
  import opened Log
  import opened HnswState

  ghost function Nearer(v: Layer, n: nat, bound: real): set<nat> {
    set x | x in Slots(n) && v.dist(x) < bound
  }

  lemma NearerShrinks(v: Layer, n: nat, best: nat, bound: real)
    requires best < n && v.dist(best) < bound
    ensures Nearer(v, n, v.dist(best)) < Nearer(v, n, bound)
  {
    assert best in Nearer(v, n, bound) && best !in Nearer(v, n, v.dist(best));
  }

  // ---- Greedy descent ----

  /** The nearest of start and ids; a later one wins only if it is strictly nearer. */
  function Nearest(v: Layer, start: nat, ids: seq<nat>): (r: nat)
    ensures r == start || (r in ids && v.dist(r) < v.dist(start))
    ensures forall x :: x in ids ==> v.dist(r) <= v.dist(x)
  {
    if ids == [] then start
    else
      var r := Nearest(v, start, ids[..|ids| - 1]);
      if v.dist(ids[|ids| - 1]) < v.dist(r) then ids[|ids| - 1] else r
  }

  /** Moving to the nearest neighbour until none is nearer. */
  ghost function Greedy(v: Layer, e: nat): nat
    decreases Nearer(v, |v.links|, v.dist(e))
  {
    if e >= |v.links| then e
    else
      var next := Nearest(v, e, v.links[e]);
      if next == e || next >= |v.links| then e
      else
        NearerShrinks(v, |v.links|, next, v.dist(e));
        Greedy(v, next)
  }

  /** Greedy steps from layer hi down to just above layer lo. */
  ghost function Descend(g: State, metric: (Vec, Vec) -> real, q: Vec, e: nat, hi: nat, lo: nat): nat
    decreases hi
  {
    if hi <= lo then e else Descend(g, metric, q, Greedy(View(g, metric, q, hi), e), hi - 1, lo)
  }

  /** One greedy step: to a neighbour, strictly nearer, and no neighbour is nearer than it. */
  ghost predicate StepsTo(v: Layer, a: nat, b: nat) {
    a < |v.links| && b in v.links[a] && v.dist(b) < v.dist(a) && forall x :: x in v.links[a] ==> v.dist(b) <= v.dist(x)
  }

  /** No neighbour is nearer. */
  ghost predicate Settled(v: Layer, a: nat) {
    a < |v.links| && forall x :: x in v.links[a] ==> v.dist(a) <= v.dist(x)
  }

  ghost predicate GreedyPath(v: Layer, p: seq<nat>) {
    p != [] && (forall i :: 0 <= i < |p| - 1 ==> StepsTo(v, p[i], p[i + 1])) && Settled(v, p[|p| - 1])
  }

  ghost predicate GreedyTo(v: Layer, a: nat, b: nat) {
    exists p :: GreedyPath(v, p) && p[0] == a && p[|p| - 1] == b
  }

  /** Greedy descent takes greedy steps until it is settled. */
  lemma {:induction false} GreedyWalks(v: Layer, e: nat) returns (p: seq<nat>)
    requires WellFormed(v) && e < |v.links|
    ensures GreedyPath(v, p) && p[0] == e && p[|p| - 1] == Greedy(v, e) && Greedy(v, e) < |v.links|
    ensures GreedyTo(v, e, Greedy(v, e))
    decreases Nearer(v, |v.links|, v.dist(e))
  {
    hide Nearest;
    var next := Nearest(v, e, v.links[e]);
    if next == e {
      p := [e];
    } else {
      assert next in v.links[e];
      assert next < |v.links| by { var k :| 0 <= k < |v.links[e]| && v.links[e][k] == next; }
      NearerShrinks(v, |v.links|, next, v.dist(e));
      var rest := GreedyWalks(v, next);
      p := [e] + rest;
      assert StepsTo(v, e, next);
      forall i | 0 <= i < |p| - 1 ensures StepsTo(v, p[i], p[i + 1]) {
        if i > 0 { assert StepsTo(v, rest[i - 1], rest[i]); }
      }
    }
  }

  /**
   Where a descent passes: es[0] is where it starts and es[i + 1] the greedy
   node of layer hi - i from es[i], for every layer from hi to just above lo.
   */
  ghost predicate Stations(g: State, metric: (Vec, Vec) -> real, q: Vec, hi: nat, lo: nat, es: seq<nat>) {
    && lo <= hi && |es| == hi - lo + 1
    && forall i :: 0 <= i < hi - lo ==> GreedyTo(View(g, metric, q, hi - i), es[i], es[i + 1])
  }

  lemma {:induction false} DescendPasses(g: State, m: nat, metric: (Vec, Vec) -> real, q: Vec, e: nat, hi: nat, lo: nat) returns (es: seq<nat>)
    requires Linked(g, m) && e < |g.nodes| && lo <= hi
    ensures Stations(g, metric, q, hi, lo, es) && es[0] == e && es[|es| - 1] == Descend(g, metric, q, e, hi, lo)
    ensures Descend(g, metric, q, e, hi, lo) < |g.nodes|
    decreases hi
  {
    hide LinksOk, GreedyPath, GreedyTo, Greedy, View;
    es := [e];
    if hi > lo {
      ViewWellFormed(g, m, metric, q, hi);
      var v := View(g, metric, q, hi);
      var p := GreedyWalks(v, e);
      var rest := DescendPasses(g, m, metric, q, Greedy(v, e), hi - 1, lo);
      es := [e] + rest;
      forall i | 0 <= i < hi - lo ensures GreedyTo(View(g, metric, q, hi - i), es[i], es[i + 1]) {
        if i > 0 { assert GreedyTo(View(g, metric, q, hi - 1 - (i - 1)), rest[i - 1], rest[i]); }
      }
    }
  }

  lemma NearestNone(v: Layer, start: nat)
    ensures Nearest(v, start, []) == start
  {
  }

  lemma NearestSnoc(v: Layer, start: nat, ids: seq<nat>, k: nat)
    requires k < |ids|
    ensures var r := Nearest(v, start, ids[..k]);
            Nearest(v, start, ids[..k + 1]) == if v.dist(ids[k]) < v.dist(r) then ids[k] else r
  {
    assert ids[..k + 1][..k] == ids[..k];
  }

  // ---- The neighbour heuristic (Malkov and Yashunin, Algorithm 4) ----

  /** c is closer to something already kept than to the base node. */
  predicate Crowded(metric: (Vec, Vec) -> real, data: seq<Vec>, kept: seq<Cand>, c: Cand)
    requires c.id < |data| && InData(data, kept)
  {
    exists i :: 0 <= i < |kept| && metric(data[c.id], data[kept[i].id]) < c.dist
  }

  predicate InData(data: seq<Vec>, cs: seq<Cand>) {
    forall i :: 0 <= i < |cs| ==> cs[i].id < |data|
  }

  /** Candidates are taken in order, skipping crowded ones, until cap are kept. */
  function Chosen(metric: (Vec, Vec) -> real, data: seq<Vec>, cs: seq<Cand>, cap: nat): (kept: seq<Cand>)
    requires InData(data, cs)
    ensures |kept| <= cap && InData(data, kept) && forall k :: k in kept ==> k in cs
  {
    if cs == [] then []
    else
      var n := |cs| - 1;
      var kept := Chosen(metric, data, cs[..n], cap);
      if |kept| >= cap || Crowded(metric, data, kept, cs[n]) then kept else kept + [cs[n]]
  }

  lemma {:induction false} ChosenDistinct(metric: (Vec, Vec) -> real, data: seq<Vec>, cs: seq<Cand>, cap: nat)
    requires InData(data, cs) && Distinct(Ids(cs))
    ensures Distinct(Ids(Chosen(metric, data, cs, cap)))
    decreases |cs|
  {
    hide Crowded;
    if cs != [] {
      var n := |cs| - 1;
      assert Distinct(Ids(cs[..n])) by {
        forall i, j | 0 <= i < j < n ensures Ids(cs[..n])[i] != Ids(cs[..n])[j] {
          assert Ids(cs)[i] != Ids(cs)[j];
        }
      }
      ChosenDistinct(metric, data, cs[..n], cap);
      var kept := Chosen(metric, data, cs[..n], cap);
      forall i | 0 <= i < |kept| ensures kept[i].id != cs[n].id {
        assert kept[i] in cs[..n];
        var j :| 0 <= j < n && cs[..n][j] == kept[i];
        assert Ids(cs)[j] != Ids(cs)[n];
      }
      DistinctSnoc(kept, cs[n]);
    }
  }

  lemma DistinctSnoc(kept: seq<Cand>, c: Cand)
    requires Distinct(Ids(kept)) && forall i :: 0 <= i < |kept| ==> kept[i].id != c.id
    ensures Distinct(Ids(kept + [c]))
  {
    forall i, j | 0 <= i < j < |kept + [c]| ensures Ids(kept + [c])[i] != Ids(kept + [c])[j] {
      if j < |kept| { assert Ids(kept)[i] != Ids(kept)[j]; }
    }
  }

  lemma NotCrowded(metric: (Vec, Vec) -> real, data: seq<Vec>, kept: seq<Cand>, c: Cand, i: nat)
    requires c.id < |data| && InData(data, kept) && !Crowded(metric, data, kept, c) && i < |kept|
    ensures metric(data[c.id], data[kept[i].id]) >= c.dist
  {
  }

  /** The j-th kept link is no closer to the i-th than to the base node. */
  predicate Apart(metric: (Vec, Vec) -> real, data: seq<Vec>, kept: seq<Cand>, i: nat, j: nat)
    requires InData(data, kept) && i < |kept| && j < |kept|
  {
    metric(data[kept[j].id], data[kept[i].id]) >= kept[j].dist
  }

  /** No kept link is closer to an earlier kept one than to the base node. */
  lemma {:induction false} ChosenIsSpread(metric: (Vec, Vec) -> real, data: seq<Vec>, cs: seq<Cand>, cap: nat, i: nat, j: nat)
    requires InData(data, cs) && i < j < |Chosen(metric, data, cs, cap)|
    ensures Apart(metric, data, Chosen(metric, data, cs, cap), i, j)
    decreases |cs|
  {
    var n := |cs| - 1;
    var before := Chosen(metric, data, cs[..n], cap);
    if j < |before| {
      ChosenIsSpread(metric, data, cs[..n], cap, i, j);
    } else {
      NotCrowded(metric, data, before, cs[n], i);
    }
  }

  /** Candidate n is no closer to any earlier one at pos than to the base node. */
  ghost predicate Uncrowded(metric: (Vec, Vec) -> real, data: seq<Vec>, cs: seq<Cand>, pos: seq<nat>, n: nat)
    requires InData(data, cs) && n < |cs|
  {
    forall i :: 0 <= i < |pos| && pos[i] < n ==> metric(data[cs[n].id], data[cs[pos[i]].id]) >= cs[n].dist
  }

  /** Fewer than cap of the places pos come before n. */
  ghost predicate Room(pos: seq<nat>, cap: nat, n: nat) {
    |pos| < cap || (cap > 0 && pos[cap - 1] >= n)
  }

  /**
   The heuristic, place by place: pos are places of candidates in order, at most
   cap, and a place is among them if and only if there was room and its candidate
   is no closer to an earlier one among them than to the base node.
   */
  ghost predicate Greedily(metric: (Vec, Vec) -> real, data: seq<Vec>, cs: seq<Cand>, cap: nat, pos: seq<nat>)
    requires InData(data, cs)
  {
    && |pos| <= cap && (forall i :: 0 <= i < |pos| ==> pos[i] < |cs|)
    && (forall i, j :: 0 <= i < j < |pos| ==> pos[i] < pos[j])
    && forall n: nat :: n < |cs| ==> (n in pos <==> Room(pos, cap, n) && Uncrowded(metric, data, cs, pos, n))
  }

  function Places(cs: seq<Cand>, pos: seq<nat>): (r: seq<Cand>)
    requires forall i :: 0 <= i < |pos| ==> pos[i] < |cs|
    ensures |r| == |pos| && forall i :: 0 <= i < |pos| ==> r[i] == cs[pos[i]]
  {
    seq(|pos|, i requires 0 <= i < |pos| => cs[pos[i]])
  }

  /** What is chosen, whole: exactly the candidates at the heuristic's places. */
  lemma {:induction false} ChosenIs(metric: (Vec, Vec) -> real, data: seq<Vec>, cs: seq<Cand>, cap: nat) returns (pos: seq<nat>)
    requires InData(data, cs)
    ensures Greedily(metric, data, cs, cap, pos) && Chosen(metric, data, cs, cap) == Places(cs, pos)
    decreases |cs|
  {
    hide Greedily, Crowded, Uncrowded, Room;
    pos := [];
    if cs == [] {
      GreedilyNothing(metric, data, cap);
    } else {
      var n := |cs| - 1;
      var was := ChosenIs(metric, data, cs[..n], cap);
      GreedyPlaces(metric, data, cs[..n], cap, was);
      CrowdedIs(metric, data, cs, was, n);
      PlacesSnoc(cs, was, n);
      if |was| >= cap || Crowded(metric, data, Places(cs, was), cs[n]) {
        pos := was;
        PlaceSkipped(metric, data, cs, cap, was, n);
      } else {
        pos := was + [n];
        PlaceTaken(metric, data, cs, cap, was, n);
      }
    }
  }

  lemma PlacesSnoc(cs: seq<Cand>, pos: seq<nat>, n: nat)
    requires n < |cs| && forall i :: 0 <= i < |pos| ==> pos[i] < n
    ensures Places(cs[..n], pos) == Places(cs, pos) && Places(cs, pos + [n]) == Places(cs, pos) + [cs[n]]
  {
  }

  lemma GreedilyNothing(metric: (Vec, Vec) -> real, data: seq<Vec>, cap: nat)
    ensures Greedily(metric, data, [], cap, [])
  {
  }

  lemma GreedyPlaces(metric: (Vec, Vec) -> real, data: seq<Vec>, cs: seq<Cand>, cap: nat, pos: seq<nat>)
    requires InData(data, cs) && Greedily(metric, data, cs, cap, pos)
    ensures |pos| <= cap && forall i :: 0 <= i < |pos| ==> pos[i] < |cs|
  {
  }

  lemma CrowdedIs(metric: (Vec, Vec) -> real, data: seq<Vec>, cs: seq<Cand>, was: seq<nat>, n: nat)
    requires InData(data, cs) && n < |cs| && forall i :: 0 <= i < |was| ==> was[i] < n
    ensures Crowded(metric, data, Places(cs, was), cs[n]) <==> !Uncrowded(metric, data, cs, was, n)
  {
    var kept := Places(cs, was);
    assert forall i :: 0 <= i < |was| ==> kept[i] == cs[was[i]];
  }

  /** A place's own condition looks only at what comes before it. */
  lemma EarlierPlace(metric: (Vec, Vec) -> real, data: seq<Vec>, cs: seq<Cand>, was: seq<nat>, pos: seq<nat>, n: nat, k: nat)
    requires InData(data, cs) && n < |cs| && k <= n && (pos == was || pos == was + [n]) && forall i :: 0 <= i < |was| ==> was[i] < n
    ensures Uncrowded(metric, data, cs, pos, k) <==> Uncrowded(metric, data, cs, was, k)
    ensures k < n ==> (Uncrowded(metric, data, cs, was, k) <==> Uncrowded(metric, data, cs[..n], was, k))
  {
    assert forall i :: 0 <= i < |was| ==> pos[i] == was[i];
  }

  lemma PlaceSkipped(metric: (Vec, Vec) -> real, data: seq<Vec>, cs: seq<Cand>, cap: nat, was: seq<nat>, n: nat)
    requires InData(data, cs) && |cs| == n + 1 && Greedily(metric, data, cs[..n], cap, was)
    requires |was| >= cap || !Uncrowded(metric, data, cs, was, n)
    ensures Greedily(metric, data, cs, cap, was)
  {
    hide Uncrowded;
    forall k: nat | k < |cs| ensures k in was <==> Room(was, cap, k) && Uncrowded(metric, data, cs, was, k) {
      EarlierPlace(metric, data, cs, was, was, n, k);
    }
  }

  lemma PlaceTaken(metric: (Vec, Vec) -> real, data: seq<Vec>, cs: seq<Cand>, cap: nat, was: seq<nat>, n: nat)
    requires InData(data, cs) && |cs| == n + 1 && Greedily(metric, data, cs[..n], cap, was)
    requires |was| < cap && Uncrowded(metric, data, cs, was, n)
    ensures Greedily(metric, data, cs, cap, was + [n])
  {
    hide Uncrowded;
    var pos := was + [n];
    forall k: nat | k < |cs| ensures k in pos <==> Room(pos, cap, k) && Uncrowded(metric, data, cs, pos, k) {
      EarlierPlace(metric, data, cs, was, pos, n, k);
      RoomGrows(was, cap, n, k);
    }
  }

  lemma RoomGrows(was: seq<nat>, cap: nat, n: nat, k: nat)
    requires |was| < cap && k <= n
    ensures Room(was, cap, k) && Room(was + [n], cap, k)
  {
  }

  /** Every candidate passed over while there was room is closer to some kept one than to the base node. */
  lemma ChosenIsMaximal(metric: (Vec, Vec) -> real, data: seq<Vec>, cs: seq<Cand>, cap: nat, c: Cand)
    requires InData(data, cs) && c in cs
    ensures var kept := Chosen(metric, data, cs, cap);
            c in kept || |kept| == cap || exists i :: 0 <= i < |kept| && metric(data[c.id], data[kept[i].id]) < c.dist
  {
    hide Chosen;
    var pos := ChosenIs(metric, data, cs, cap);
    var kept := Chosen(metric, data, cs, cap);
    var n: nat :| n < |cs| && cs[n] == c;
    if n in pos {
      var i :| 0 <= i < |pos| && pos[i] == n;
      assert kept[i] == c;
    } else if |kept| < cap {
      var i :| 0 <= i < |pos| && pos[i] < n && metric(data[cs[n].id], data[cs[pos[i]].id]) < cs[n].dist;
      assert kept[i] == cs[pos[i]];
    }
  }

  /** From candidates sorted closest first, one passed over for lack of room is no closer than any kept one. */
  lemma ChosenTakesNearest(metric: (Vec, Vec) -> real, data: seq<Vec>, cs: seq<Cand>, cap: nat, c: Cand)
    requires InData(data, cs) && Sorted(cs) && c in cs
    ensures var kept := Chosen(metric, data, cs, cap);
            && Sorted(kept)
            && (c in kept || (|kept| == cap && forall i :: 0 <= i < |kept| ==> kept[i].dist <= c.dist)
                || exists i :: 0 <= i < |kept| && metric(data[c.id], data[kept[i].id]) < c.dist)
  {
    hide Chosen;
    var pos := ChosenIs(metric, data, cs, cap);
    var kept := Chosen(metric, data, cs, cap);
    assert forall i :: 0 <= i < |kept| ==> kept[i] == cs[pos[i]];
    var n: nat :| n < |cs| && cs[n] == c;
    if n in pos {
      var i :| 0 <= i < |pos| && pos[i] == n;
      assert kept[i] == c;
    } else if Room(pos, cap, n) {
      var i :| 0 <= i < |pos| && pos[i] < n && metric(data[cs[n].id], data[cs[pos[i]].id]) < cs[n].dist;
      assert kept[i] == cs[pos[i]];
    }
  }

  class Graph {
    const m: nat
    const efConstruction: nat
    const metric: (Vec, Vec) -> real
    const accepts: Vec -> bool   // right length and finite

    var nodes: seq<Node>
    var links0: seq<seq<nat>>
    var data: seq<Vec>
    var dead: seq<bool>
    var slots: map<Id, nat>
    var entryPoint: nat
    var hasEntry: bool
    var maxLevel: nat
    var live: nat

    function S(): State
      reads this
    {
      State(nodes, links0, data, dead, slots, entryPoint, hasEntry, maxLevel, live)
    }

    ghost predicate Valid()
      reads this
    {
      efConstruction > 0 && HnswState.Valid(S(), m)
    }

    constructor (m: nat, efConstruction: nat, metric: (Vec, Vec) -> real, accepts: Vec -> bool)
      requires efConstruction > 0
      ensures Valid() && nodes == [] && entryPoint == 0 && Skel(S()) == Skeleton([], [], [], [], map[], 0, 0, false)
      ensures this.m == m && this.efConstruction == efConstruction && this.metric == metric && this.accepts == accepts
    {
      this.m, this.efConstruction, this.metric, this.accepts := m, efConstruction, metric, accepts;
      nodes, links0, data, dead, slots := [], [], [], [], map[];
      entryPoint, hasEntry, maxLevel, live := 0, false, 0, 0;
    }

    // ---- Searching ----

    /** Walks to a node no neighbour of which, at layer l, is closer to q. */
    method GreedyClosest(entry: nat, q: Vec, l: nat) returns (best: nat)
      requires Linked(S(), m) && entry < |nodes|
      ensures best < |nodes| && best == Greedy(View(S(), metric, q, l), entry)
      ensures var v := View(S(), metric, q, l);
              && v.dist(best) <= v.dist(entry) && Reachable(v, entry, best)
              && forall x :: x in v.links[best] ==> v.dist(best) <= v.dist(x)
    {
      hide LinksOk, Reachable, Nearest;
      ghost var v := View(S(), metric, q, l);
      ViewWellFormed(S(), m, metric, q, l);
      ReachSelf(v, entry);
      best := entry;
      var bestDist := metric(q, data[entry]);
      var improved := true;
      while improved
        invariant best < |nodes| && bestDist == v.dist(best) <= v.dist(entry) && Reachable(v, entry, best)
        invariant Greedy(v, best) == Greedy(v, entry)
        invariant !improved ==> best == Greedy(v, entry) && forall x :: x in v.links[best] ==> v.dist(best) <= v.dist(x)
        decreases Nearer(v, |nodes|, bestDist), improved
      {
        improved := false;
        var from := best;
        var around := Links(S(), best, l);
        assert around == v.links[from];
        ghost var start := bestDist;
        NearestNone(v, from);
        for k := 0 to |around|
          invariant best < |nodes| && bestDist == v.dist(best) <= v.dist(entry) && Reachable(v, entry, best)
          invariant best == Nearest(v, from, around[..k])
          invariant improved <==> best != from
          invariant bestDist <= start && (improved ==> bestDist < start)
        {
          assert v.links[from][k] < |v.links|;
          NearestSnoc(v, from, around, k);
          var d := metric(q, data[around[k]]);
          if d < bestDist {
            ReachStep(v, entry, from, around[k]);
            bestDist, best, improved := d, around[k], true;
          }
        }
        assert around[..|around|] == around;
        if improved { NearerShrinks(v, |nodes|, best, start); }
      }
    }

    method Search(q: Vec, entry: nat, ef: nat, l: nat) returns (out: seq<Cand>, ghost t: Sets)
      requires Linked(S(), m) && entry < |nodes| && ef > 0
      ensures SearchExit(View(S(), metric, q, l), entry, ef, out, t)
      ensures Distinct(Ids(out)) && forall c :: c in out ==> c.id < |nodes|
    {
      hide LinksOk, SearchExit;
      var v := View(S(), metric, q, l);
      ViewWellFormed(S(), m, metric, q, l);
      var visited := new VisitedSet();
      out, t := SearchLayer(v, entry, ef, visited);
      BeamSearchExit(v, entry, ef, out, t);
    }

    method Diverse(cs: seq<Cand>, cap: nat) returns (kept: seq<Cand>)
      requires InData(data, cs)
      ensures kept == Chosen(metric, data, cs, cap)
      ensures exists pos :: Greedily(metric, data, cs, cap, pos) && kept == Places(cs, pos)
    {
      hide Greedily;
      ghost var pos := ChosenIs(metric, data, cs, cap);
      kept := [];
      for n := 0 to |cs|
        invariant kept == Chosen(metric, data, cs[..n], cap)
      {
        assert cs[..n + 1][..n] == cs[..n];
        if |kept| < cap {
          var keep := true;
          for i := 0 to |kept|
            invariant keep <==> forall j :: 0 <= j < i ==> metric(data[cs[n].id], data[kept[j].id]) >= cs[n].dist
          {
            if metric(data[cs[n].id], data[kept[i].id]) < cs[n].dist {
              keep := false;
            }
          }
          if keep {
            kept := kept + [cs[n]];
          }
        }
      }
      assert cs[..|cs|] == cs;
    }

    /** Up to cap links for node s, picked from candidates sorted closest first. */
    method SelectNeighbors(cs: seq<Cand>, cap: nat, ghost s: nat, ghost n: nat) returns (ids: seq<nat>)
      requires InData(data, cs) && Distinct(Ids(cs)) && forall c :: c in cs ==> c.id < n && c.id != s
      ensures ids == Ids(Chosen(metric, data, cs, cap)) && ListOk(ids, s, n, cap)
      ensures exists pos :: Greedily(metric, data, cs, cap, pos) && ids == Ids(Places(cs, pos))
    {
      var kept := Diverse(cs, cap);
      ghost var pos := ChosenIs(metric, data, cs, cap);
      ChosenDistinct(metric, data, cs, cap);
      ids := Ids(kept);
      forall x | x in ids ensures x < n && x != s {
        var i :| 0 <= i < |kept| && kept[i].id == x;
        assert kept[i] in cs;
      }
    }

    // ---- Linking ----

    method StoreLinks(s: nat, l: nat, ids: seq<nat>)
      requires Linked(S(), m) && s < |nodes| && ListOk(ids, s, |nodes|, MaxLinks(m, l))
      modifies this
      ensures S() == SetLinks(old(S()), m, s, l, ids)
      ensures Linked(S(), m) && Skel(S()) == old(Skel(S())) && entryPoint == old(entryPoint)
    {
      SetLinksKeeps(S(), m, s, l, ids);
      if l == 0 {
        links0 := links0[s := Cut(ids, 2 * m)];
      } else {
        nodes := nodes[s := nodes[s].(neighbors := Grown(nodes[s].neighbors, l)[l := ids])];
      }
    }

    /** Prunes a joined list that is over budget, closest first. */
    method Prune(nbr: nat, joined: seq<nat>, cap: nat) returns (now: seq<nat>)
      requires |nodes| == |data| && nbr < |nodes| && Distinct(joined) && forall x :: x in joined ==> x < |nodes| && x != nbr
      ensures Relinked(metric, data, nbr, joined, cap, now) && ListOk(now, nbr, |nodes|, cap)
    {
      hide Distinct, Sort;
      if |joined| <= cap {
        return joined;
      }
      assert forall i :: 0 <= i < |joined| ==> joined[i] in joined;
      var cands := Scored(metric, data, nbr, joined);
      PrunedOk(cands, joined, nbr, |nodes|);
      SortSorts(cands);
      now := SelectNeighbors(Sort(cands), cap, nbr, |nodes|);
    }

    /** Adds edges nbr -> from[i] at layer l, re-pruning nbr's list if it is over budget. */
    method AddLinks(nbr: nat, from: seq<nat>, l: nat)
      requires Linked(S(), m) && nbr < |nodes| && forall x :: x in from ==> x < |nodes| && x != nbr
      modifies this
      ensures Linked(S(), m) && Skel(S()) == old(Skel(S())) && entryPoint == old(entryPoint)
      ensures Relinked(metric, data, nbr, Joined(old(Links(S(), nbr, l)), from), MaxLinks(m, l), Links(S(), nbr, l))
      ensures forall s, k :: s != nbr || k != l ==> Links(S(), s, k) == old(Links(S(), s, k))
      ensures l < |old(nodes[nbr].neighbors)| ==> SameHeights(old(S()), S())
      ensures GrownTo(old(S()), S(), l)
    {
      hide LinksOk, Distinct, SetLinks, SameHeights, GrownTo, Skel, Relinked, Links;
      var cur: seq<nat> := Links(S(), nbr, l);
      var n := |nodes|;
      LinkList(S(), m, nbr, l);
      for i := 0 to |from|
        invariant Distinct(cur) && forall x :: x in cur ==> x < n && x != nbr
        invariant cur == Joined(Links(S(), nbr, l), from[..i])
        invariant S() == old(S())
      {
        assert from[..i + 1][..i] == from[..i];
        assert from[i] in from;
        if from[i] !in cur {
          AppendDistinct(cur, from[i]);
          cur := cur + [from[i]];
        }
      }
      assert from[..|from|] == from;
      var now := Prune(nbr, cur, MaxLinks(m, l));
      ghost var before := S();
      SkelFields(before);
      SetLinksHeights(before, m, nbr, l, now);
      StoreLinks(nbr, l, now);
      SkelFields(S());
      ListSize(now, nbr, n, MaxLinks(m, l));
      forall s: nat, k: nat ensures Links(S(), s, k) == if s == nbr && k == l then now else Links(before, s, k) {
        SetLinksFrame(before, m, nbr, l, now, s, k);
      }
    }

    // ---- Insert ----

    /** Searches top down for the links of a node that will go to slot. */
    method Plan(vec: Vec, level: nat, slot: nat) returns (staged: seq<seq<nat>>, ghost legs: seq<Leg>)
      requires Valid() && hasEntry
      ensures |staged| == level + 1
      ensures forall l :: 0 <= l <= level ==> ListOk(staged[l], slot, |nodes|, MaxLinks(m, l))
      ensures Planned(S(), m, efConstruction, metric, vec, slot, level, legs, staged)
      ensures UpLinks(S()) ==> forall l :: 0 <= l <= level ==> AllReach(nodes, staged[l], l)
    {
      hide LinksOk, SearchExit, Reachable, Distinct, SkelOk, UpLinks, AllReach, ListOk, Trail, Listed, ListedFrom, Descend, Greedy, Ahead;
      assert Linked(S(), m) by { ValidIsLinked(S(), m); }
      var e: nat := entryPoint;
      var l := maxLevel;
      if UpLinks(S()) { EntryReaches(S()); }
      while l > level
        invariant l <= maxLevel && e < |nodes| && (UpLinks(S()) ==> nodes[e].level >= l)
        invariant l >= Min(level, maxLevel)
        invariant Descend(S(), metric, vec, e, l, level) == Descend(S(), metric, vec, entryPoint, maxLevel, level)
      {
        var e' := GreedyClosest(e, vec, l);
        DescendStep(S(), metric, vec, e, l, level);
        if UpLinks(S()) { ReachLevel(S(), m, metric, vec, l, e, e'); }
        e := e';
        l := l - 1;
      }
      staged := seq(level + 1, _ => []);
      forall k | 0 <= k <= level ensures ListOk(staged[k], slot, |nodes|, MaxLinks(m, k)) && AllReach(nodes, staged[k], k) {
        NoLinks(slot, |nodes|, MaxLinks(m, k));
        NothingReaches(nodes, k);
      }
      var left: nat := Min(level, maxLevel) + 1;
      legs := [];
      NoneListed(S(), m, metric, slot, left, staged);
      TrailStart(S(), efConstruction, metric, vec, slot, level, e, l);
      while left > 0
        invariant left <= Min(level, maxLevel) + 1 && e < |nodes| && |staged| == level + 1
        invariant UpLinks(S()) ==> nodes[e].level >= left - 1
        invariant forall l :: 0 <= l <= level ==> ListOk(staged[l], slot, |nodes|, MaxLinks(m, l))
        invariant Trail(S(), efConstruction, metric, vec, slot, level, left, legs)
        invariant left + |legs| == Min(level, maxLevel) + 1 && e == Ahead(S(), metric, vec, slot, level, legs)
        invariant Listed(S(), m, metric, slot, left, legs, staged)
        invariant UpLinks(S()) ==> forall l :: 0 <= l <= level ==> AllReach(nodes, staged[l], l)
      {
        var ids, next, leg := PlanLayer(vec, slot, e, left - 1);
        TrailStep(S(), efConstruction, metric, vec, slot, level, left, legs, leg);
        ListedStep(S(), m, metric, slot, left, legs, staged, leg, ids);
        left := left - 1;
        legs := [leg] + legs;
        staged := staged[left := ids];
        e := next;
      }
    }

    /** One layer of the plan, and the node to continue from below it. */
    method PlanLayer(vec: Vec, slot: nat, e: nat, l: nat) returns (ids: seq<nat>, next: nat, ghost leg: Leg)
      requires Linked(S(), m) && e < |nodes| && efConstruction > 0 && l <= maxLevel
      ensures next < |nodes| && ListOk(ids, slot, |nodes|, MaxLinks(m, l))
      ensures leg.entry == e && SearchExit(View(S(), metric, vec, l), e, efConstruction, leg.found, leg.sets)
      ensures ListedFrom(S(), m, metric, slot, l, leg, ids) && next == Onward(leg, slot)
      ensures UpLinks(S()) && nodes[e].level >= l ==> AllReach(nodes, ids, l) && nodes[next].level >= l
    {
      hide LinksOk, SearchExit, Reachable, Distinct, UpLinks;
      var found, t := Search(vec, e, efConstruction, l);
      leg := Leg(e, found, t);
      var cands := Without(found, slot);
      WithoutOk(found, slot, |nodes|);
      ids := SelectNeighbors(cands, MaxLinks(m, l), slot, |nodes|);
      next := e;
      if cands != [] {
        next := cands[0].id;
      }
      if UpLinks(S()) && nodes[e].level >= l {
        FoundReaches(S(), m, metric, vec, l, e, efConstruction, found, t, slot, MaxLinks(m, l));
      }
    }

    /** Adds the edges back to slot from every node it links to. */
    method LinkBack(slot: nat, level: nat)
      requires Linked(S(), m) && slot < |nodes|
      modifies this
      ensures Linked(S(), m) && Skel(S()) == old(Skel(S())) && entryPoint == old(entryPoint)
      ensures BackLinked(old(S()), S(), m, metric, slot, level)
    {
      hide LinksOk, Relinked, Links, Joined, Skel, SameHeights, GrownTo, ListOk;
      ghost var s0 := S();
      SkelFields(s0);
      HeightsSame(s0);
      GrownNone(s0, level);
      HalfNone(s0, m, metric, slot);
      for l := 0 to level + 1
        invariant Linked(S(), m) && Skel(S()) == Skel(s0) && entryPoint == s0.entryPoint
        invariant Half(s0, S(), m, metric, slot, l, 0) && GrownTo(s0, S(), level)
        invariant BackFits(s0, slot, level) ==> SameHeights(s0, S())
      {
        SkelFields(S());
        var around := Links(S(), slot, l);
        LinkList(S(), m, slot, l);
        OwnList(s0, S(), m, metric, slot, l, 0, l);
        for i := 0 to |around|
          invariant Linked(S(), m) && Skel(S()) == Skel(s0) && entryPoint == s0.entryPoint
          invariant Half(s0, S(), m, metric, slot, l, i) && GrownTo(s0, S(), level)
          invariant BackFits(s0, slot, level) ==> SameHeights(s0, S())
        {
          SkelFields(S());
          Member(around, i, slot, |nodes|, MaxLinks(m, l));
          ghost var s1 := S();
          NotBackYet(s0, s1, m, metric, slot, l, i);
          AddLinks(around[i], [slot], l);
          SkelFields(S());
          HalfStep(s0, s1, S(), m, metric, slot, l, i);
          GrownMore(s0, s1, S(), l, level);
          if BackFits(s0, slot, level) {
            FitsHere(s0, s1, slot, level, l, around[i]);
            HeightsTrans(s0, s1, S());
          }
        }
        HalfLayer(s0, S(), m, metric, slot, l);
      }
      HalfDone(s0, S(), m, metric, slot, level);
    }

    method Place(id: Id, level: nat, staged: seq<seq<nat>>, vec: Vec)
      requires |staged| == level + 1 && |links0| == |nodes| == |data| == |dead|
      requires id in slots ==> slots[id] < |nodes|
      modifies this
      ensures S() == Placed(old(S()), m, id, level, staged, vec)
    {
      var nd := Node(id, level, staged[0 := []]);
      if id in slots {
        var s := slots[id];
        nodes, data, dead := nodes[s := nd], data[s := vec], dead[s := false];
        links0 := links0[s := Cut(staged[0], 2 * m)];
      } else {
        slots := slots[id := |nodes|];
        nodes, data, dead := nodes + [nd], data + [vec], dead + [false];
        links0 := links0 + [Cut(staged[0], 2 * m)];
      }
    }

    /** Adds id, or replaces the vector under it; a vector that fails validation changes nothing. */
    method Insert(id: Id, vec: Vec, level: nat) returns (ok: bool, ghost legs: seq<Leg>, ghost staged: seq<seq<nat>>)
      requires Valid()
      modifies this
      ensures Valid() && ok == accepts(vec) && (!ok ==> S() == old(S()))
      ensures Skel(S()) == if ok then InsertSkel(old(Skel(S())), id, vec, level) else old(Skel(S()))
      ensures ok && old(hasEntry) ==> InsertLinks(old(S()), S(), m, efConstruction, metric, id, vec, level, legs, staged)
      ensures ok && old(hasEntry) ==> entryPoint == NextEntry(old(S()), S(), id, level)
      ensures ok && !old(hasEntry) ==> entryPoint == 0 && forall s: nat, l: nat :: Links(S(), s, l) == []
      ensures ok && old(ExactLevels(S())) && id !in old(slots) ==> (ExactLevels(S()) <==> FoundLink(old(S()), S(), level))
      ensures ok && id !in old(slots) && NoTombs(old(dead)) && m > 0 ==> FoundLink(old(S()), S(), level)
    {
      hide ExactLevels, FoundLink, InsertLinks, InsertSkel, NextEntry, NoTombs, HnswState.Valid;
      legs, staged := [], [];
      if !accepts(vec) {
        return false, legs, staged;
      }
      legs, staged := InsertLocked(id, vec, level);
      return true, legs, staged;
    }

    /** Insert after validation, at the drawn level. */
    method InsertLocked(id: Id, vec: Vec, level: nat) returns (ghost legs: seq<Leg>, ghost staged: seq<seq<nat>>)
      requires Valid()
      modifies this
      ensures Valid() && Skel(S()) == InsertSkel(old(Skel(S())), id, vec, level)
      ensures old(hasEntry) ==> InsertLinks(old(S()), S(), m, efConstruction, metric, id, vec, level, legs, staged)
      ensures old(hasEntry) ==> entryPoint == NextEntry(old(S()), S(), id, level)
      ensures !old(hasEntry) ==> entryPoint == 0 && forall s: nat, l: nat :: Links(S(), s, l) == []
      ensures old(ExactLevels(S())) && id !in old(slots) ==> (ExactLevels(S()) <==> FoundLink(old(S()), S(), level))
      ensures id !in old(slots) && NoTombs(old(dead)) && m > 0 ==> FoundLink(old(S()), S(), level)
    {
      hide LinksOk, SkelOk, Skel, InsertSkel, ListOk, Placed, ExactLevels, BackLinked, Planned, AllReach, Links, NoTombs, NextEntry, FoundLink, InsertLinks;
      var slot := if id in slots then slots[id] else |nodes|;
      ghost var before := S();
      InsertFacts(before, m, id, vec, level);
      legs := [];
      if !hasEntry {
        var none := seq(level + 1, _ => []);
        Place(id, level, none, vec);
        live, entryPoint, hasEntry, maxLevel := live + 1, slot, true, level;
        FirstInsert(before, m, id, vec, level, none);
        FirstLevels(before, m, id, vec, level, none);
        FirstFinds(before, S(), level);
        return legs, none;
      }
      var lists, trail := Plan(vec, level, slot);
      legs, staged := trail, lists;
      var wasLive := id in slots && !dead[slot];
      Place(id, level, lists, vec);
      live := if wasLive then live else live + 1;
      ghost var placed := S();
      PlacedFacts(before, m, id, vec, level, lists, placed);
      LinkBack(slot, level);
      ghost var linked := S();
      SkelFields(placed);
      SkelFields(linked);
      if level > maxLevel {
        maxLevel, entryPoint := level, slot;
      } else if Links(S(), slot, 0) == [] {
        entryPoint := slot;
      }
      Inserted(before, placed, linked, S(), m, metric, id, vec, level, lists);
      InsertedLinks(before, placed, linked, S(), m, efConstruction, metric, id, vec, level, legs, lists);
    }

    /** Marks id dead; an absent or already dead id changes nothing. */
    method Delete(id: Id) returns (found: bool)
      requires Valid()
      modifies this
      ensures Valid() && Skel(S()) == DeleteSkel(old(Skel(S())), id)
      ensures found == (id in old(LiveMap(Skel(S()))))
      ensures nodes == old(nodes) && links0 == old(links0) && entryPoint == old(entryPoint)
      ensures old(ExactLevels(S())) ==> ExactLevels(S())
    {
      DeleteSkelOk(Skel(S()), id);
      if id !in slots || dead[slots[id]] {
        return false;
      }
      LiveMeansCounted(dead, slots[id]);
      ghost var before := S();
      ValidIsLinked(before, m);
      dead := dead[slots[id] := true];
      live := live - 1;
      SameLinks(before, S(), m);
      if ExactLevels(before) { DeleteExact(before, S()); }
      return true;
    }
  }

  function Without(cs: seq<Cand>, slot: nat): seq<Cand> {
    if cs == [] then []
    else
      var rest := Without(cs[..|cs| - 1], slot);
      if cs[|cs| - 1].id == slot then rest else rest + [cs[|cs| - 1]]
  }

  lemma {:induction false} WithoutMembers(cs: seq<Cand>, slot: nat)
    ensures forall c :: c in Without(cs, slot) <==> c in cs && c.id != slot
    decreases |cs|
  {
    if cs != [] {
      WithoutMembers(cs[..|cs| - 1], slot);
      assert cs == cs[..|cs| - 1] + [cs[|cs| - 1]];
    }
  }

  lemma {:induction false} WithoutDistinct(cs: seq<Cand>, slot: nat)
    requires Distinct(Ids(cs))
    ensures Distinct(Ids(Without(cs, slot)))
    decreases |cs|
  {
    if cs != [] {
      var n := |cs| - 1;
      assert Distinct(Ids(cs[..n])) by {
        forall i, j | 0 <= i < j < n ensures Ids(cs[..n])[i] != Ids(cs[..n])[j] {
          assert Ids(cs)[i] != Ids(cs)[j];
        }
      }
      WithoutDistinct(cs[..n], slot);
      WithoutMembers(cs[..n], slot);
      var rest := Without(cs[..n], slot);
      forall i | 0 <= i < |rest| ensures rest[i].id != cs[n].id {
        assert rest[i] in cs[..n];
        var j :| 0 <= j < n && cs[..n][j] == rest[i];
        assert Ids(cs)[j] != Ids(cs)[n];
      }
      DistinctSnoc(rest, cs[n]);
    }
  }

  lemma WithoutOk(cs: seq<Cand>, slot: nat, n: nat)
    requires Distinct(Ids(cs)) && forall c :: c in cs ==> c.id < n
    ensures var out := Without(cs, slot);
            Distinct(Ids(out)) && (forall c :: c in out ==> c.id < n && c.id != slot)
            && forall i :: 0 <= i < |out| ==> out[i].id < n
  {
    WithoutDistinct(cs, slot);
    WithoutMembers(cs, slot);
    var out := Without(cs, slot);
    forall i | 0 <= i < |out| ensures out[i].id < n { assert out[i] in out; }
  }

  // ---- Facts about inserting, on values ----

  lemma InsertFacts(g: State, m: nat, id: Id, vec: Vec, level: nat)
    requires HnswState.Valid(g, m)
    ensures SkelOk(Skel(g)) && Linked(g, m) && (id in g.slots ==> g.slots[id] < |g.nodes|)
    ensures SlotFor(g, id) <= |g.nodes|
  {
    ValidIsLinked(g, m);
  }

  lemma FirstInsert(g: State, m: nat, id: Id, vec: Vec, level: nat, none: seq<seq<nat>>)
    requires HnswState.Valid(g, m) && !g.hasEntry && |none| == level + 1 && forall l :: 0 <= l <= level ==> none[l] == []
    ensures Linked(g, m) && id !in g.slots && SkelOk(Skel(g))
    ensures var t := Placed(g, m, id, level, none, vec).(live := g.live + 1, entryPoint := SlotFor(g, id), hasEntry := true, maxLevel := level);
            && HnswState.Valid(t, m) && Skel(t) == InsertSkel(Skel(g), id, vec, level)
            && t.entryPoint == 0 && forall s: nat, l: nat :: Links(t, s, l) == []
  {
    hide ListOk;
    InsertFacts(g, m, id, vec, level);
    assert |Skel(g).ids| == 0;
    forall l | 0 <= l <= level ensures ListOk(none[l], SlotFor(g, id), |g.nodes|, MaxLinks(m, l)) {
      NoLinks(SlotFor(g, id), |g.nodes|, MaxLinks(m, l));
    }
    PlacedKeepsLinks(g, m, id, level, none, vec);
    PlacedSkel(g, m, id, level, none, vec);
    InsertSkelOk(Skel(g), id, vec, level);
    var p := Placed(g, m, id, level, none, vec);
    var t := p.(live := g.live + 1, entryPoint := SlotFor(g, id), hasEntry := true, maxLevel := level);
    SameLinks(p, t, m);
  }

  lemma SameLinks(p: State, t: State, m: nat)
    requires Linked(p, m) && p.nodes == t.nodes && p.links0 == t.links0 && p.data == t.data && |p.dead| == |t.dead|
    ensures Linked(t, m)
  {
    hide ListOk;
    forall s: nat, l: nat | s < |t.nodes| ensures ListOk(Links(t, s, l), s, |t.nodes|, MaxLinks(m, l)) {
      assert Links(t, s, l) == Links(p, s, l);
    }
  }

  lemma SkelSame(g: State, t: State)
    requires g.nodes == t.nodes && g.data == t.data && g.dead == t.dead && g.slots == t.slots
    requires g.live == t.live && g.hasEntry == t.hasEntry
    ensures Skel(t) == Skel(g).(maxLevel := t.maxLevel)
  {
  }

  lemma InsertTop(k: Skeleton, id: Id, vec: Vec, level: nat)
    requires SkelOk(k) && k.hasEntry
    ensures InsertSkel(k, id, vec, level).maxLevel == if level > k.maxLevel then level else k.maxLevel
    ensures InsertSkel(k, id, vec, level).hasEntry
  {
  }

  lemma PlacedFacts(g: State, m: nat, id: Id, vec: Vec, level: nat, staged: seq<seq<nat>>, t: State)
    requires HnswState.Valid(g, m) && g.hasEntry && |staged| == level + 1
    requires forall l :: 0 <= l <= level ==> ListOk(staged[l], SlotFor(g, id), |g.nodes|, MaxLinks(m, l))
    requires Linked(g, m) && (id in g.slots ==> g.slots[id] < |g.nodes|)
    requires t == Placed(g, m, id, level, staged, vec).(live := g.live + if id in g.slots && !g.dead[g.slots[id]] then 0 else 1)
    ensures Linked(t, m) && SlotFor(g, id) < |t.nodes| && t.entryPoint < |t.nodes|
    ensures SkelOk(Skel(g)) && Skel(t) == InsertSkel(Skel(g), id, vec, level).(maxLevel := g.maxLevel)
    ensures SkelOk(InsertSkel(Skel(g), id, vec, level))
  {
    hide ListOk;
    PlacedKeepsLinks(g, m, id, level, staged, vec);
    PlacedSkel(g, m, id, level, staged, vec);
    InsertSkelOk(Skel(g), id, vec, level);
    SameLinks(Placed(g, m, id, level, staged, vec), t, m);
  }

  lemma SkelFields(g: State)
    ensures Skel(g).data == g.data && Skel(g).dead == g.dead && Skel(g).slots == g.slots && |Skel(g).ids| == |g.nodes|
    ensures Skel(g).levels == LevelsOf(g.nodes)
    ensures Skel(g).maxLevel == g.maxLevel && Skel(g).live == g.live && Skel(g).hasEntry == g.hasEntry
  {
  }

  /** cur with the members of from that it lacks added at the end. */
  function Joined(cur: seq<nat>, from: seq<nat>): seq<nat> {
    if from == [] then cur
    else
      var before := Joined(cur, from[..|from| - 1]);
      if from[|from| - 1] in before then before else before + [from[|from| - 1]]
  }

  /** A joined list is kept if it fits and otherwise re-picked by the heuristic, closest first. */
  ghost predicate Relinked(metric: (Vec, Vec) -> real, data: seq<Vec>, s: nat, joined: seq<nat>, cap: nat, now: seq<nat>) {
    if |joined| <= cap then now == joined
    else
      && s < |data| && (forall i :: 0 <= i < |joined| ==> joined[i] < |data|)
      && var sorted := Sort(Scored(metric, data, s, joined));
         InData(data, sorted) && now == Ids(Chosen(metric, data, sorted, cap))
  }

  /** The links of s with their distances to s. */
  function Scored(metric: (Vec, Vec) -> real, data: seq<Vec>, s: nat, ids: seq<nat>): (cs: seq<Cand>)
    requires s < |data| && forall i :: 0 <= i < |ids| ==> ids[i] < |data|
    ensures Ids(cs) == ids
  {
    seq(|ids|, i requires 0 <= i < |ids| => Cand(ids[i], metric(data[s], data[ids[i]])))
  }

  /** x in from at a place, among the new members of a joined list. */
  ghost predicate InOrder(from: seq<nat>, added: seq<nat>, pos: seq<nat>) {
    && |pos| == |added| && (forall i :: 0 <= i < |pos| ==> pos[i] < |from| && from[pos[i]] == added[i])
    && forall i, j :: 0 <= i < j < |pos| ==> pos[i] < pos[j]
  }

  /** A joined list is the old one, followed in order by exactly the new members it lacked, each once. */
  lemma {:induction false} JoinedIs(cur: seq<nat>, from: seq<nat>) returns (pos: seq<nat>)
    ensures cur <= Joined(cur, from) && InOrder(from, Joined(cur, from)[|cur|..], pos)
    ensures forall x :: x in Joined(cur, from) <==> x in cur || x in from
    ensures Distinct(cur) ==> Distinct(Joined(cur, from))
    decreases |from|
  {
    pos := [];
    if from == [] {
      assert cur[|cur|..] == [];
    } else {
      var n := |from| - 1;
      pos := JoinedIs(cur, from[..n]);
      var before := Joined(cur, from[..n]);
      assert from == from[..n] + [from[n]];
      if from[n] !in before {
        pos := pos + [n];
        assert (before + [from[n]])[|cur|..] == before[|cur|..] + [from[n]];
      }
    }
  }

  ghost function Gap(metric: (Vec, Vec) -> real, data: seq<Vec>, s: nat, x: nat): real
    requires s < |data| && x < |data|
  {
    metric(data[s], data[x])
  }

  /** x is closer to some member of ids than to s. */
  ghost predicate Shadowed(metric: (Vec, Vec) -> real, data: seq<Vec>, s: nat, ids: seq<nat>, x: nat)
    requires s < |data| && x < |data| && forall i :: 0 <= i < |ids| ==> ids[i] < |data|
  {
    exists i :: 0 <= i < |ids| && Gap(metric, data, x, ids[i]) < Gap(metric, data, s, x)
  }

  /** Why x is not in a pruned list: it is in a kept one's shadow, or the list is full of members no farther from s. */
  ghost predicate Ousted(metric: (Vec, Vec) -> real, data: seq<Vec>, s: nat, cap: nat, now: seq<nat>, x: nat)
    requires s < |data| && x < |data| && forall i :: 0 <= i < |now| ==> now[i] < |data|
  {
    Shadowed(metric, data, s, now, x)
    || (|now| == cap && forall i :: 0 <= i < |now| ==> Gap(metric, data, s, now[i]) <= Gap(metric, data, s, x))
  }

  /** now[i] comes before now[j]: nearer to s, and now[j] no closer to it than to s. */
  ghost predicate Ranked(metric: (Vec, Vec) -> real, data: seq<Vec>, s: nat, now: seq<nat>, i: nat, j: nat)
    requires s < |data| && i < |now| && j < |now| && forall i :: 0 <= i < |now| ==> now[i] < |data|
  {
    && Gap(metric, data, s, now[i]) <= Gap(metric, data, s, now[j])
    && Gap(metric, data, now[j], now[i]) >= Gap(metric, data, s, now[j])
  }

  /** A list over budget, in distances alone: at most cap of its members, in rank order, the rest dropped for a reason. */
  ghost predicate PrunedTo(metric: (Vec, Vec) -> real, data: seq<Vec>, s: nat, joined: seq<nat>, cap: nat, now: seq<nat>)
    requires s < |data| && forall i :: 0 <= i < |joined| ==> joined[i] < |data|
    requires forall i :: 0 <= i < |now| ==> now[i] < |data|
  {
    && |now| <= cap && (forall i :: 0 <= i < |now| ==> now[i] in joined)
    && (forall i, j :: 0 <= i < j < |now| ==> Ranked(metric, data, s, now, i, j))
    && forall k :: 0 <= k < |joined| ==> joined[k] in now || Ousted(metric, data, s, cap, now, joined[k])
  }

  /** Re-pruning keeps a list that fits and otherwise prunes it. */
  lemma RelinkedIs(metric: (Vec, Vec) -> real, data: seq<Vec>, s: nat, joined: seq<nat>, cap: nat, now: seq<nat>)
    requires Relinked(metric, data, s, joined, cap, now) && s < |data| && forall i :: 0 <= i < |joined| ==> joined[i] < |data|
    ensures |joined| <= cap ==> now == joined
    ensures (forall i :: 0 <= i < |now| ==> now[i] < |data|) && (|joined| > cap ==> PrunedTo(metric, data, s, joined, cap, now))
  {
    if |joined| > cap {
      var scored := Scored(metric, data, s, joined);
      SortSorts(scored);
      var cs := Sort(scored);
      hide Sort, Chosen, Ranked, Ousted, Sorted;
      forall c | c in cs ensures c.id in joined && c.id < |data| && c.dist == Gap(metric, data, s, c.id) {
        ScoredAre(metric, data, s, joined, cs, c);
      }
      var kept := Chosen(metric, data, cs, cap);
      forall i | 0 <= i < |now| ensures now[i] < |data| && now[i] in joined { assert kept[i] in cs; }
      forall i, j | 0 <= i < j < |now| ensures Ranked(metric, data, s, now, i, j) {
        KeptRanked(metric, data, s, cs, cap, i, j);
      }
      forall k | 0 <= k < |joined| ensures joined[k] in now || Ousted(metric, data, s, cap, now, joined[k]) {
        DroppedMember(metric, data, s, joined, cap, scored, cs, k);
      }
    }
  }

  lemma KeptRanked(metric: (Vec, Vec) -> real, data: seq<Vec>, s: nat, cs: seq<Cand>, cap: nat, i: nat, j: nat)
    requires s < |data| && InData(data, cs) && Sorted(cs) && forall c :: c in cs ==> c.id < |data| && c.dist == Gap(metric, data, s, c.id)
    requires i < j < |Chosen(metric, data, cs, cap)|
    ensures var now := Ids(Chosen(metric, data, cs, cap));
            (forall i :: 0 <= i < |now| ==> now[i] < |data|) && Ranked(metric, data, s, now, i, j)
  {
    hide Chosen;
    var kept := Chosen(metric, data, cs, cap);
    assert kept[i] in cs && kept[j] in cs;
    ChosenIsSpread(metric, data, cs, cap, i, j);
    ChosenTakesNearest(metric, data, cs, cap, kept[i]);
  }

  lemma ScoredAre(metric: (Vec, Vec) -> real, data: seq<Vec>, s: nat, joined: seq<nat>, cs: seq<Cand>, c: Cand)
    requires s < |data| && (forall i :: 0 <= i < |joined| ==> joined[i] < |data|) && c in cs
    requires multiset(cs) == multiset(Scored(metric, data, s, joined))
    ensures c.id in joined && c.id < |data| && c.dist == Gap(metric, data, s, c.id)
  {
    var scored := Scored(metric, data, s, joined);
    assert c in multiset(cs);
    assert c in scored;
    var j :| 0 <= j < |scored| && scored[j] == c;
    assert Ids(scored)[j] == joined[j];
  }

  lemma DroppedMember(metric: (Vec, Vec) -> real, data: seq<Vec>, s: nat, joined: seq<nat>, cap: nat, scored: seq<Cand>, cs: seq<Cand>, k: nat)
    requires s < |data| && (forall i :: 0 <= i < |joined| ==> joined[i] < |data|) && k < |joined|
    requires scored == Scored(metric, data, s, joined) && multiset(cs) == multiset(scored) && Sorted(cs) && InData(data, cs)
    requires forall c :: c in cs ==> c.dist == (if c.id < |data| then Gap(metric, data, s, c.id) else 0.0)
    ensures var kept := Chosen(metric, data, cs, cap); var now := Ids(kept); var x := joined[k];
            && (forall i :: 0 <= i < |now| ==> now[i] < |data|)
            && (x in now || Ousted(metric, data, s, cap, now, x))
  {
    hide Chosen;
    var kept := Chosen(metric, data, cs, cap);
    var now, c := Ids(kept), scored[k];
    assert Ids(scored)[k] == c.id == joined[k];
    assert c in multiset(scored);
    assert c in multiset(cs);
    ChosenTakesNearest(metric, data, cs, cap, c);
    if c in kept {
      var i :| 0 <= i < |kept| && kept[i] == c;
      assert now[i] == c.id;
    } else if exists i :: 0 <= i < |kept| && metric(data[c.id], data[kept[i].id]) < c.dist {
      var i :| 0 <= i < |kept| && metric(data[c.id], data[kept[i].id]) < c.dist;
      assert now[i] == kept[i].id;
    } else {
      forall i | 0 <= i < |now| ensures Gap(metric, data, s, now[i]) <= Gap(metric, data, s, c.id) { assert kept[i] in cs; }
    }
  }

  lemma LinkList(g: State, m: nat, s: nat, l: nat)
    requires LinksOk(g, m) && s < |g.nodes|
    ensures ListOk(Links(g, s, l), s, |g.nodes|, MaxLinks(m, l))
  {
  }

  lemma AppendDistinct(s: seq<nat>, x: nat)
    requires Distinct(s) && x !in s
    ensures Distinct(s + [x])
  {
  }

  /** Sorting a candidate list made from distinct slots keeps it a valid input for selection. */
  lemma PrunedOk(cands: seq<Cand>, cur: seq<nat>, s: nat, n: nat)
    requires Ids(cands) == cur && Distinct(cur) && forall x :: x in cur ==> x < n && x != s
    ensures Distinct(Ids(Sort(cands))) && forall c :: c in Sort(cands) ==> c.id < n && c.id != s
  {
    SortSorts(cands);
    var t := Sort(cands);
    forall c | c in t ensures c.id < n && c.id != s {
      assert c in multiset(t);
      assert c in cands;
      var i :| 0 <= i < |cands| && cands[i] == c;
      assert Ids(cands)[i] in cur;
    }
    forall i, j | 0 <= i < j < |t| ensures Ids(t)[i] != Ids(t)[j] {
      if t[i].id == t[j].id {
        SameIdTwice(cands, t, i, j);
        assert false;
      }
    }
  }

  lemma SameIdTwice(cands: seq<Cand>, t: seq<Cand>, i: nat, j: nat)
    requires multiset(t) == multiset(cands) && i < j < |t| && t[i].id == t[j].id
    ensures !Distinct(Ids(cands))
  {
    assert t[i] in multiset(t) && t[j] in multiset(t);
    var a :| 0 <= a < |cands| && cands[a] == t[i];
    if t[i] == t[j] {
      CountTwice(t, i, j);
      SecondPlace(cands, t[i]);
    } else {
      var b :| 0 <= b < |cands| && cands[b] == t[j];
      assert Ids(cands)[a] == Ids(cands)[b];
    }
  }

  lemma {:induction false} SecondPlace(s: seq<Cand>, c: Cand)
    requires multiset(s)[c] >= 2
    ensures !Distinct(Ids(s))
    decreases |s|
  {
    var n := |s| - 1;
    assert s == s[..n] + [s[n]];
    if multiset(s[..n])[c] >= 2 {
      SecondPlace(s[..n], c);
      var i, j :| 0 <= i < j < n && Ids(s[..n])[i] == Ids(s[..n])[j];
      assert Ids(s)[i] == Ids(s)[j];
    } else {
      assert c in multiset(s[..n]);
      var i :| 0 <= i < n && s[..n][i] == c;
      assert Ids(s)[i] == Ids(s)[n];
    }
  }

  // ---- What an insert does to the links ----

  /** The beam search of one layer: where it started, what it found and what it saw. */
  datatype Leg = Leg(entry: nat, found: seq<Cand>, sets: Sets)

  /** Where the search goes on below: the nearest node found, slot itself apart. */
  function Onward(leg: Leg, slot: nat): nat {
    var cs := Without(leg.found, slot);
    if cs == [] then leg.entry else cs[0].id
  }

  /** It is one of the nearest the search found, or where it started if it found nothing else. */
  lemma OnwardIsNearest(v: Layer, ef: nat, leg: Leg, slot: nat)
    requires WellFormed(v) && SearchExit(v, leg.entry, ef, leg.found, leg.sets)
    ensures (forall i :: 0 <= i < |leg.found| ==> leg.found[i].id == slot) ==> Onward(leg, slot) == leg.entry
    ensures forall i :: 0 <= i < |leg.found| && leg.found[i].id != slot ==>
              Onward(leg, slot) in Ids(leg.found) && Onward(leg, slot) != slot && v.dist(Onward(leg, slot)) <= leg.found[i].dist
  {
    hide SearchExit, Reachable, WellFormed;
    BeamSearchExit(v, leg.entry, ef, leg.found, leg.sets);
    WithoutMembers(leg.found, slot);
    WithoutSorted(leg.found, slot);
    var cs := Without(leg.found, slot);
    assert cs != [] ==> cs[0] in leg.found && cs[0].id != slot;
    forall i | 0 <= i < |leg.found| && leg.found[i].id != slot
      ensures Onward(leg, slot) in Ids(leg.found) && Onward(leg, slot) != slot && v.dist(Onward(leg, slot)) <= leg.found[i].dist
    {
      assert leg.found[i] in cs;
      var j :| 0 <= j < |cs| && cs[j] == leg.found[i];
      var k :| 0 <= k < |leg.found| && leg.found[k] == cs[0];
      assert Ids(leg.found)[k] == cs[0].id;
    }
  }

  lemma {:induction false} WithoutSorted(cs: seq<Cand>, slot: nat)
    requires Sorted(cs)
    ensures Sorted(Without(cs, slot))
    decreases |cs|
  {
    if cs != [] {
      var n := |cs| - 1;
      WithoutSorted(cs[..n], slot);
      WithoutMembers(cs[..n], slot);
      var front := Without(cs[..n], slot);
      forall i | 0 <= i < |front| ensures front[i].dist <= cs[n].dist {
        assert front[i] in cs[..n];
        var j :| 0 <= j < n && cs[..n][j] == front[i];
      }
    }
  }

  /**
   The searches of the layers from left up to the lower of level and the graph's
   top: the highest starts where greedy descent from the entry point ends, and
   each other one where the search above it says to go on.
   */
  ghost predicate Trail(g: State, ef: nat, metric: (Vec, Vec) -> real, q: Vec, slot: nat, level: nat, left: nat, legs: seq<Leg>) {
    && left + |legs| == Min(level, g.maxLevel) + 1
    && (legs != [] ==> legs[|legs| - 1].entry == Descend(g, metric, q, g.entryPoint, g.maxLevel, level))
    && (forall i :: 0 <= i < |legs| - 1 ==> legs[i].entry == Onward(legs[i + 1], slot))
    && (forall i :: 0 <= i < |legs| ==> SearchExit(View(g, metric, q, left + i), legs[i].entry, ef, legs[i].found, legs[i].sets))
  }

  /** Where the next search down starts. */
  ghost function Ahead(g: State, metric: (Vec, Vec) -> real, q: Vec, slot: nat, level: nat, legs: seq<Leg>): nat {
    if legs == [] then Descend(g, metric, q, g.entryPoint, g.maxLevel, level) else Onward(legs[0], slot)
  }

  lemma DescendStep(g: State, metric: (Vec, Vec) -> real, q: Vec, e: nat, hi: nat, lo: nat)
    requires hi > lo
    ensures Descend(g, metric, q, e, hi, lo) == Descend(g, metric, q, Greedy(View(g, metric, q, hi), e), hi - 1, lo)
  {
    hide Greedy;
  }

  lemma TrailStart(g: State, ef: nat, metric: (Vec, Vec) -> real, q: Vec, slot: nat, level: nat, e: nat, l: nat)
    requires l <= level && Descend(g, metric, q, e, l, level) == Descend(g, metric, q, g.entryPoint, g.maxLevel, level)
    ensures Trail(g, ef, metric, q, slot, level, Min(level, g.maxLevel) + 1, []) && e == Ahead(g, metric, q, slot, level, [])
  {
    hide Greedy;
  }

  lemma TrailStep(g: State, ef: nat, metric: (Vec, Vec) -> real, q: Vec, slot: nat, level: nat, left: nat, legs: seq<Leg>, leg: Leg)
    requires left > 0 && Trail(g, ef, metric, q, slot, level, left, legs) && leg.entry == Ahead(g, metric, q, slot, level, legs)
    requires SearchExit(View(g, metric, q, left - 1), leg.entry, ef, leg.found, leg.sets)
    ensures Trail(g, ef, metric, q, slot, level, left - 1, [leg] + legs)
    ensures Ahead(g, metric, q, slot, level, [leg] + legs) == Onward(leg, slot)
  {
    hide SearchExit, Descend, Onward;
    var longer := [leg] + legs;
    forall i | 0 <= i < |longer|
      ensures SearchExit(View(g, metric, q, left - 1 + i), longer[i].entry, ef, longer[i].found, longer[i].sets)
    {
      if i > 0 { assert longer[i] == legs[i - 1]; }
    }
    forall i | 0 <= i < |longer| - 1 ensures longer[i].entry == Onward(longer[i + 1], slot) {
      if i > 0 { assert longer[i] == legs[i - 1] && longer[i + 1] == legs[i]; }
    }
  }

  /** The heuristic's pick from what a layer's search found. */
  ghost predicate ListedFrom(g: State, m: nat, metric: (Vec, Vec) -> real, slot: nat, l: nat, leg: Leg, ids: seq<nat>) {
    InData(g.data, Without(leg.found, slot)) && ids == Ids(Chosen(metric, g.data, Without(leg.found, slot), MaxLinks(m, l)))
  }

  /** The lists from layer left on: those of the layers searched, and nothing above. */
  ghost predicate Listed(g: State, m: nat, metric: (Vec, Vec) -> real, slot: nat, left: nat, legs: seq<Leg>, staged: seq<seq<nat>>) {
    forall l :: left <= l < |staged| ==>
      if l < left + |legs| then ListedFrom(g, m, metric, slot, l, legs[l - left], staged[l]) else staged[l] == []
  }

  lemma NoneListed(g: State, m: nat, metric: (Vec, Vec) -> real, slot: nat, left: nat, staged: seq<seq<nat>>)
    requires forall l :: 0 <= l < |staged| ==> staged[l] == []
    ensures Listed(g, m, metric, slot, left, [], staged)
  {
  }

  lemma ListedStep(g: State, m: nat, metric: (Vec, Vec) -> real, slot: nat, left: nat, legs: seq<Leg>, staged: seq<seq<nat>>, leg: Leg, ids: seq<nat>)
    requires 0 < left <= |staged| && Listed(g, m, metric, slot, left, legs, staged) && ListedFrom(g, m, metric, slot, left - 1, leg, ids)
    ensures Listed(g, m, metric, slot, left - 1, [leg] + legs, staged[left - 1 := ids])
  {
    hide ListedFrom;
  }

  /** An insert's lists: from the trail of searches, and nothing above the old top. */
  ghost predicate Planned(g: State, m: nat, ef: nat, metric: (Vec, Vec) -> real, vec: Vec, slot: nat, level: nat, legs: seq<Leg>, staged: seq<seq<nat>>) {
    |staged| == level + 1 && Trail(g, ef, metric, vec, slot, level, 0, legs) && Listed(g, m, metric, slot, 0, legs, staged)
  }

  /** c is closer to some member of ids than to the node it is a candidate for. */
  ghost predicate Overshadowed(metric: (Vec, Vec) -> real, data: seq<Vec>, ids: seq<nat>, c: Cand)
    requires c.id < |data| && forall i :: 0 <= i < |ids| ==> ids[i] < |data|
  {
    exists i :: 0 <= i < |ids| && metric(data[c.id], data[ids[i]]) < c.dist
  }

  /** Every candidate but slot is listed, in the shadow of one that is, or out of budget. */
  ghost predicate Exhausts(metric: (Vec, Vec) -> real, data: seq<Vec>, cs: seq<Cand>, slot: nat, budget: nat, ids: seq<nat>)
    requires InData(data, cs)
  {
    && (forall i :: 0 <= i < |ids| ==> ids[i] < |data|)
    && |ids| <= budget && (forall i :: 0 <= i < |ids| ==> ids[i] in Ids(cs) && ids[i] != slot)
    && forall k :: 0 <= k < |cs| && cs[k].id != slot ==>
         cs[k].id in ids || |ids| == budget || Overshadowed(metric, data, ids, cs[k])
  }

  /** What is listed at a layer exhausts what its search found, within 2m at layer 0 and m above. */
  lemma ListedIs(g: State, m: nat, metric: (Vec, Vec) -> real, slot: nat, l: nat, leg: Leg, ids: seq<nat>)
    requires InData(g.data, leg.found) && ListedFrom(g, m, metric, slot, l, leg, ids)
    ensures Exhausts(metric, g.data, leg.found, slot, if l == 0 then m + m else m, ids)
  {
    hide Chosen;
    var cs := Without(leg.found, slot);
    var kept := Chosen(metric, g.data, cs, MaxLinks(m, l));
    WithoutMembers(leg.found, slot);
    forall i | 0 <= i < |ids| ensures ids[i] < |g.data| && ids[i] in Ids(leg.found) && ids[i] != slot {
      assert kept[i] in cs;
      var k :| 0 <= k < |leg.found| && leg.found[k] == kept[i];
      assert Ids(leg.found)[k] == ids[i];
    }
    forall k | 0 <= k < |leg.found| && leg.found[k].id != slot
      ensures leg.found[k].id in ids || |ids| == MaxLinks(m, l) || Overshadowed(metric, g.data, ids, leg.found[k])
    {
      var c := leg.found[k];
      assert c in cs;
      ChosenIsMaximal(metric, g.data, cs, MaxLinks(m, l), c);
      if c in kept {
        var i :| 0 <= i < |kept| && kept[i] == c;
        assert ids[i] == c.id;
      } else if |kept| < MaxLinks(m, l) {
        var i :| 0 <= i < |kept| && metric(g.data[c.id], g.data[kept[i].id]) < c.dist;
        assert ids[i] == kept[i].id;
      }
    }
  }

  /** The lists that get an edge back to slot. */
  ghost predicate Back(g: State, slot: nat, level: nat, s: nat, l: nat) {
    l <= level && s in Links(g, slot, l)
  }

  ghost predicate BackFits(g: State, slot: nat, level: nat) {
    forall s: nat, l: nat :: Back(g, slot, level, s, l) && s < |g.nodes| ==> l < |g.nodes[s].neighbors|
  }

  ghost predicate Gained(g: State, t: State, m: nat, metric: (Vec, Vec) -> real, slot: nat, s: nat, l: nat) {
    Relinked(metric, g.data, s, Joined(Links(g, s, l), [slot]), MaxLinks(m, l), Links(t, s, l))
  }

  /** A list that gains slot: it holds slot too while the budget of 2m at layer 0 and m above allows, and is pruned if not. */
  lemma GainedIs(g: State, t: State, m: nat, metric: (Vec, Vec) -> real, slot: nat, s: nat, l: nat)
    requires Linked(g, m) && s < |g.nodes| && slot < |g.nodes| && slot != s && Gained(g, t, m, metric, slot, s, l)
    ensures var was, now := Links(g, s, l), Links(t, s, l);
            var joined, budget := if slot in was then was else was + [slot], if l == 0 then m + m else m;
            && (forall x :: x in was ==> x < |g.nodes|) && (forall i :: 0 <= i < |now| ==> now[i] < |g.data|)
            && (|joined| <= budget ==> now == joined)
            && (|joined| > budget ==> (forall i :: 0 <= i < |joined| ==> joined[i] < |g.data|) && PrunedTo(metric, g.data, s, joined, budget, now))
  {
    hide Links, Relinked, PrunedTo;
    var was := Links(g, s, l);
    assert ListOk(was, s, |g.nodes|, MaxLinks(m, l));
    var joined := Joined(was, [slot]);
    assert [slot][..0] == [] && Joined(was, []) == was;
    assert forall i :: 0 <= i < |joined| ==> joined[i] == slot || joined[i] in was;
    RelinkedIs(metric, g.data, s, joined, MaxLinks(m, l), Links(t, s, l));
  }

  /** Exactly the lists slot links to gain an edge back, each pruned on its own if over budget. */
  ghost predicate BackLinked(g: State, t: State, m: nat, metric: (Vec, Vec) -> real, slot: nat, level: nat) {
    && (forall s: nat, l: nat :: Back(g, slot, level, s, l) ==> Gained(g, t, m, metric, slot, s, l))
    && (forall s: nat, l: nat :: !Back(g, slot, level, s, l) ==> Links(t, s, l) == Links(g, s, l))
    && (BackFits(g, slot, level) ==> SameHeights(g, t)) && GrownTo(g, t, level)
  }

  /** The back-links of layers below l are in, and the first i of layer l. */
  ghost predicate SoFar(g: State, slot: nat, l: nat, i: nat, s: nat, k: nat)
    requires i <= |Links(g, slot, l)|
  {
    s in Links(g, slot, k) && (k < l || (k == l && s in Links(g, slot, l)[..i]))
  }

  ghost predicate Half(g: State, t: State, m: nat, metric: (Vec, Vec) -> real, slot: nat, l: nat, i: nat) {
    && i <= |Links(g, slot, l)| && g.data == t.data
    && (forall s: nat, k: nat :: SoFar(g, slot, l, i, s, k) ==> Gained(g, t, m, metric, slot, s, k))
    && (forall s: nat, k: nat :: !SoFar(g, slot, l, i, s, k) ==> Links(t, s, k) == Links(g, s, k))
  }

  lemma HalfNone(g: State, m: nat, metric: (Vec, Vec) -> real, slot: nat)
    ensures Half(g, g, m, metric, slot, 0, 0)
  {
    hide Links, Gained;
  }

  /** A node's own lists are not among those that change. */
  lemma OwnList(g: State, t: State, m: nat, metric: (Vec, Vec) -> real, slot: nat, l: nat, i: nat, k: nat)
    requires Linked(g, m) && slot < |g.nodes| && Half(g, t, m, metric, slot, l, i)
    ensures Links(t, slot, k) == Links(g, slot, k)
  {
    hide Links, Gained;
    assert ListOk(Links(g, slot, k), slot, |g.nodes|, MaxLinks(m, k));
  }

  lemma Member(ids: seq<nat>, i: nat, s: nat, n: nat, cap: nat)
    requires ListOk(ids, s, n, cap) && i < |ids|
    ensures ids[i] < n && ids[i] != s && ids[i] !in ids[..i]
  {
    assert ids[i] in ids;
    forall j | 0 <= j < i ensures ids[..i][j] != ids[i] { assert ids[j] != ids[i]; }
  }

  lemma NotBackYet(g: State, t: State, m: nat, metric: (Vec, Vec) -> real, slot: nat, l: nat, i: nat)
    requires Half(g, t, m, metric, slot, l, i) && i < |Links(g, slot, l)| && Links(g, slot, l)[i] !in Links(g, slot, l)[..i]
    ensures var x := Links(g, slot, l)[i]; Links(t, x, l) == Links(g, x, l)
  {
    hide Links, Gained;
    assert !SoFar(g, slot, l, i, Links(g, slot, l)[i], l);
  }

  lemma HalfStep(g: State, t: State, u: State, m: nat, metric: (Vec, Vec) -> real, slot: nat, l: nat, i: nat)
    requires Half(g, t, m, metric, slot, l, i) && i < |Links(g, slot, l)| && Links(g, slot, l)[i] !in Links(g, slot, l)[..i]
    requires u.data == t.data
    requires var x := Links(g, slot, l)[i];
             && Relinked(metric, u.data, x, Joined(Links(t, x, l), [slot]), MaxLinks(m, l), Links(u, x, l))
             && forall s: nat, k: nat :: s != x || k != l ==> Links(u, s, k) == Links(t, s, k)
    ensures Half(g, u, m, metric, slot, l, i + 1)
  {
    hide Links, Relinked, Joined;
    var around := Links(g, slot, l);
    NotBackYet(g, t, m, metric, slot, l, i);
    assert around[..i + 1] == around[..i] + [around[i]];
    forall s: nat, k: nat
      ensures SoFar(g, slot, l, i + 1, s, k) <==> SoFar(g, slot, l, i, s, k) || (s == around[i] && k == l)
    {
    }
    forall s: nat, k: nat | SoFar(g, slot, l, i + 1, s, k) ensures Gained(g, u, m, metric, slot, s, k) {
      if s != around[i] || k != l { assert Gained(g, t, m, metric, slot, s, k); }
    }
  }

  lemma HalfLayer(g: State, t: State, m: nat, metric: (Vec, Vec) -> real, slot: nat, l: nat)
    requires Half(g, t, m, metric, slot, l, |Links(g, slot, l)|)
    ensures Half(g, t, m, metric, slot, l + 1, 0)
  {
    hide Links, Gained;
    var around := Links(g, slot, l);
    assert around[..|around|] == around;
    forall s: nat, k: nat ensures SoFar(g, slot, l + 1, 0, s, k) <==> SoFar(g, slot, l, |around|, s, k) {
    }
  }

  lemma HalfDone(g: State, t: State, m: nat, metric: (Vec, Vec) -> real, slot: nat, level: nat)
    requires Half(g, t, m, metric, slot, level + 1, 0) && (BackFits(g, slot, level) ==> SameHeights(g, t)) && GrownTo(g, t, level)
    ensures BackLinked(g, t, m, metric, slot, level)
  {
    hide Links, Gained, SameHeights, GrownTo, BackFits;
    forall s: nat, k: nat ensures SoFar(g, slot, level + 1, 0, s, k) <==> Back(g, slot, level, s, k) {
    }
  }

  lemma GrownNone(g: State, top: nat)
    ensures GrownTo(g, g, top)
  {
  }

  lemma GrownMore(g: State, t: State, u: State, l: nat, top: nat)
    requires GrownTo(g, t, top) && GrownTo(t, u, l) && l <= top
    ensures GrownTo(g, u, top)
  {
  }

  lemma HeightsSame(g: State)
    ensures SameHeights(g, g)
  {
  }

  lemma HeightsTrans(g: State, t: State, u: State)
    requires SameHeights(g, t) && SameHeights(t, u)
    ensures SameHeights(g, u)
  {
  }

  lemma FitsHere(g: State, t: State, slot: nat, level: nat, l: nat, x: nat)
    requires BackFits(g, slot, level) && SameHeights(g, t) && l <= level && x in Links(g, slot, l) && x < |g.nodes|
    ensures x < |t.nodes| && l < |t.nodes[x].neighbors|
  {
    hide Links;
    assert Back(g, slot, level, x, l);
  }

  /** The links after an insert: the new node's own lists as planned, and edges back to it. */
  ghost predicate InsertLinks(g: State, t: State, m: nat, ef: nat, metric: (Vec, Vec) -> real, id: Id, vec: Vec, level: nat, legs: seq<Leg>, staged: seq<seq<nat>>) {
    && |staged| == level + 1 && |g.links0| == |g.nodes| == |g.data| == |g.dead| && (id in g.slots ==> g.slots[id] < |g.nodes|)
    && Planned(g, m, ef, metric, vec, SlotFor(g, id), level, legs, staged)
    && BackLinked(Placed(g, m, id, level, staged, vec), t, m, metric, SlotFor(g, id), level)
  }

  lemma BackLinkedSame(g: State, t: State, g': State, t': State, m: nat, metric: (Vec, Vec) -> real, slot: nat, level: nat)
    requires BackLinked(g, t, m, metric, slot, level)
    requires g.nodes == g'.nodes && g.links0 == g'.links0 && g.data == g'.data && t.nodes == t'.nodes && t.links0 == t'.links0
    ensures BackLinked(g', t', m, metric, slot, level)
  {
    hide Relinked, Joined;
    forall s: nat, l: nat ensures Links(g, s, l) == Links(g', s, l) && Links(t, s, l) == Links(t', s, l) {
    }
    hide Links;
    forall s: nat, l: nat | Back(g', slot, level, s, l) ensures Gained(g', t', m, metric, slot, s, l) {
      assert Back(g, slot, level, s, l);
      assert Gained(g, t, m, metric, slot, s, l);
    }
    forall s: nat, l: nat | !Back(g', slot, level, s, l) ensures Links(t', s, l) == Links(g', s, l) {
      assert !Back(g, slot, level, s, l);
    }
    if BackFits(g', slot, level) {
      forall s: nat, l: nat | Back(g, slot, level, s, l) && s < |g.nodes| ensures l < |g.nodes[s].neighbors| {
        assert Back(g', slot, level, s, l);
      }
    }
  }

  // ---- Exact levels ----

  /** Each node has one list per layer, links stay within their layer, the entry point reaches the top. */
  ghost predicate ExactLevels(g: State) {
    UpLinks(g) && ExactLists(g)
  }

  /** Where the entry point is after an insert: a new top, or a node that found nothing to link to. */
  ghost function NextEntry(g: State, t: State, id: Id, level: nat): nat {
    if level > g.maxLevel || Links(t, SlotFor(g, id), 0) == [] then SlotFor(g, id) else g.entryPoint
  }

  ghost predicate NoTombs(dead: seq<bool>) {
    forall s :: 0 <= s < |dead| ==> !dead[s]
  }

  /** Some live node can be reached from e. */
  ghost predicate LiveAhead(v: Layer, e: nat) {
    exists x: nat :: x < |v.dead| && !v.dead[x] && Reachable(v, e, x)
  }

  /** A search finds something if and only if there is something live to reach. */
  lemma FindsIff(v: Layer, e: nat, ef: nat, found: seq<Cand>, t: Sets)
    requires WellFormed(v) && SearchExit(v, e, ef, found, t) && ef > 0
    ensures found != [] <==> LiveAhead(v, e)
  {
    hide SearchExit, Reachable, WellFormed;
    BeamSearchExit(v, e, ef, found, t);
    if found != [] {
      FoundIsReachable(v, e, ef, found, t, 0);
    }
  }

  /** A search that starts at a live node finds something. */
  lemma LiveStartFinds(v: Layer, e: nat, ef: nat, found: seq<Cand>, t: Sets)
    requires WellFormed(v) && SearchExit(v, e, ef, found, t) && ef > 0 && e < |v.dead| && !v.dead[e]
    ensures found != []
  {
    hide SearchExit, Reachable, WellFormed;
    ReachSelf(v, e);
    FindsIff(v, e, ef, found, t);
  }

  /** The heuristic always keeps the nearest candidate. */
  lemma {:induction false} ChosenKeepsFirst(metric: (Vec, Vec) -> real, data: seq<Vec>, cs: seq<Cand>, cap: nat)
    requires InData(data, cs) && cs != [] && cap > 0
    ensures Chosen(metric, data, cs, cap) != [] && Chosen(metric, data, cs, cap)[0] == cs[0]
    decreases |cs|
  {
    if |cs| > 1 { ChosenKeepsFirst(metric, data, cs[..|cs| - 1], cap); }
    else { assert cs[..0] == []; }
  }

  lemma {:induction false} WithoutAbsent(cs: seq<Cand>, slot: nat)
    requires forall i :: 0 <= i < |cs| ==> cs[i].id != slot
    ensures Without(cs, slot) == cs
    decreases |cs|
  {
    if cs != [] {
      WithoutAbsent(cs[..|cs| - 1], slot);
      assert cs == cs[..|cs| - 1] + [cs[|cs| - 1]];
    }
  }

  /**
   A new node ends up with a link at layer 0 if and only if something live can be
   reached there from where its search arrives.
   */
  lemma LinkFoundIff(g: State, t: State, m: nat, ef: nat, metric: (Vec, Vec) -> real, id: Id, vec: Vec, level: nat, legs: seq<Leg>, staged: seq<seq<nat>>)
    requires HnswState.Valid(g, m) && g.hasEntry && m > 0 && ef > 0 && id !in g.slots
    requires InsertLinks(g, t, m, ef, metric, id, vec, level, legs, staged)
    ensures |legs| > 0 && (Links(t, |g.nodes|, 0) != [] <==> LiveAhead(View(g, metric, vec, 0), legs[0].entry))
  {
    hide HnswState.Valid, SearchExit, Chosen, Relinked, Joined, Gained, Descend, SameHeights, BackFits, View, LiveAhead;
    ValidIsLinked(g, m);
    var slot := |g.nodes|;
    var leg := legs[0];
    assert SearchExit(View(g, metric, vec, 0 + 0), leg.entry, ef, leg.found, leg.sets);
    FoundSlots(g, m, ef, metric, vec, leg);
    WithoutAbsent(leg.found, slot);
    assert ListedFrom(g, m, metric, slot, 0, leg, staged[0]);
    var kept := Chosen(metric, g.data, leg.found, MaxLinks(m, 0));
    if leg.found != [] { ChosenKeepsFirst(metric, g.data, leg.found, MaxLinks(m, 0)); }
    assert |staged[0]| == |kept|;
    forall x | x in staged[0] ensures x != slot {
      var i :| 0 <= i < |kept| && kept[i].id == x;
      assert kept[i] in leg.found;
    }
    if leg.found == [] { NothingChosen(metric, g.data, MaxLinks(m, 0)); }
    var p := Placed(g, m, id, level, staged, vec);
    assert Links(p, slot, 0) == staged[0];
    assert !Back(p, slot, level, slot, 0);
  }

  /** With nothing deleted, a new node always finds a link at layer 0. */
  lemma InsertFindsLink(g: State, t: State, m: nat, ef: nat, metric: (Vec, Vec) -> real, id: Id, vec: Vec, level: nat, legs: seq<Leg>, staged: seq<seq<nat>>)
    requires HnswState.Valid(g, m) && g.hasEntry && NoTombs(g.dead) && m > 0 && ef > 0 && id !in g.slots
    requires InsertLinks(g, t, m, ef, metric, id, vec, level, legs, staged)
    ensures FoundLink(g, t, level)
  {
    hide HnswState.Valid, SearchExit, Descend, View, BackLinked, Placed, Listed;
    ValidIsLinked(g, m);
    LinkFoundIff(g, t, m, ef, metric, id, vec, level, legs, staged);
    assert SearchExit(View(g, metric, vec, 0 + 0), legs[0].entry, ef, legs[0].found, legs[0].sets);
    FoundNear(g, m, ef, metric, vec, legs[0]);
    FoundSlots(g, m, ef, metric, vec, legs[0]);
  }

  lemma FoundSlots(g: State, m: nat, ef: nat, metric: (Vec, Vec) -> real, vec: Vec, leg: Leg)
    requires Linked(g, m) && ef > 0
    requires SearchExit(View(g, metric, vec, 0), leg.entry, ef, leg.found, leg.sets)
    ensures leg.found != [] <==> LiveAhead(View(g, metric, vec, 0), leg.entry)
    ensures forall i :: 0 <= i < |leg.found| ==> leg.found[i].id < |g.nodes|
  {
    hide LinksOk, Reachable, SearchExit, LiveAhead;
    ViewWellFormed(g, m, metric, vec, 0);
    FindsIff(View(g, metric, vec, 0), leg.entry, ef, leg.found, leg.sets);
    BeamSearchExit(View(g, metric, vec, 0), leg.entry, ef, leg.found, leg.sets);
  }

  /** The layer-0 search of a graph without tombstones, from wherever it started. */
  lemma FoundNear(g: State, m: nat, ef: nat, metric: (Vec, Vec) -> real, vec: Vec, leg: Leg)
    requires Linked(g, m) && NoTombs(g.dead) && ef > 0
    requires SearchExit(View(g, metric, vec, 0), leg.entry, ef, leg.found, leg.sets)
    ensures leg.found != [] && forall i :: 0 <= i < |leg.found| ==> leg.found[i].id < |g.nodes|
  {
    hide LinksOk, Reachable, IsTopK, Dropped, Followed;
    var v := View(g, metric, vec, 0);
    ViewWellFormed(g, m, metric, vec, 0);
    assert leg.entry < |v.dead|;
    hide SearchExit;
    LiveStartFinds(v, leg.entry, ef, leg.found, leg.sets);
    BeamSearchExit(v, leg.entry, ef, leg.found, leg.sets);
  }

  /** The closing step of an insert: the top level and the entry point. */
  ghost predicate Topped(g: State, t: State, slot: nat, level: nat) {
    t == if level > g.maxLevel then g.(maxLevel := level, entryPoint := slot)
         else if Links(g, slot, 0) == [] then g.(entryPoint := slot) else g
  }

  lemma Inserted(g: State, placed: State, linked: State, t: State, m: nat, metric: (Vec, Vec) -> real, id: Id, vec: Vec, level: nat, staged: seq<seq<nat>>)
    requires HnswState.Valid(g, m) && g.hasEntry && SkelOk(Skel(g)) && SlotFor(g, id) < |placed.nodes|
    requires Skel(placed) == InsertSkel(Skel(g), id, vec, level).(maxLevel := g.maxLevel) && placed.entryPoint < |placed.nodes|
    requires SkelOk(InsertSkel(Skel(g), id, vec, level))
    requires Linked(linked, m) && Skel(linked) == Skel(placed) && linked.entryPoint == placed.entryPoint
    requires Topped(linked, t, SlotFor(g, id), level)
    ensures HnswState.Valid(t, m) && Skel(t) == InsertSkel(Skel(g), id, vec, level)
  {
    hide LinksOk, SkelOk, InsertSkel, Links;
    SkelSame(linked, t);
    SameLinks(linked, t, m);
    InsertTop(Skel(g), id, vec, level);
    assert |Skel(linked).ids| == |linked.nodes| && |Skel(placed).ids| == |placed.nodes|;
  }

  lemma InsertedLinks(g: State, placed: State, linked: State, t: State, m: nat, ef: nat, metric: (Vec, Vec) -> real, id: Id, vec: Vec, level: nat, legs: seq<Leg>, staged: seq<seq<nat>>)
    requires HnswState.Valid(g, m) && Linked(g, m) && g.hasEntry && ef > 0 && (id in g.slots ==> g.slots[id] < |g.nodes|)
    requires Planned(g, m, ef, metric, vec, SlotFor(g, id), level, legs, staged)
    requires forall l :: 0 <= l <= level ==> ListOk(staged[l], SlotFor(g, id), |g.nodes|, MaxLinks(m, l))
    requires UpLinks(g) ==> forall l :: 0 <= l <= level ==> AllReach(g.nodes, staged[l], l)
    requires placed == Placed(g, m, id, level, staged, vec).(live := placed.live)
    requires BackLinked(placed, linked, m, metric, SlotFor(g, id), level) && Skel(placed) == Skel(linked)
    requires linked.entryPoint == placed.entryPoint && Topped(linked, t, SlotFor(g, id), level)
    ensures InsertLinks(g, t, m, ef, metric, id, vec, level, legs, staged) && t.entryPoint == NextEntry(g, t, id, level)
    ensures ExactLevels(g) && id !in g.slots ==> (ExactLevels(t) <==> FoundLink(g, t, level))
    ensures id !in g.slots && NoTombs(g.dead) && m > 0 ==> FoundLink(g, t, level)
  {
    hide HnswState.Valid, LinksOk, Skel, Placed, UpLinks, ExactLists, BackLinked, AllReach, Links, NoTombs, ListOk, Trail, ListedFrom;
    var slot := SlotFor(g, id);
    SkelFields(placed);
    SkelFields(linked);
    LinksFinal(linked, t, slot);
    BackLinkedSame(placed, linked, Placed(g, m, id, level, staged, vec), t, m, metric, slot, level);
    if NoTombs(g.dead) && m > 0 && id !in g.slots { InsertFindsLink(g, t, m, ef, metric, id, vec, level, legs, staged); }
    if ExactLevels(g) && id !in g.slots {
      LevelsKept(placed, linked);
      InsertExact(g, placed, linked, t, m, metric, id, vec, level, staged);
    }
  }

  /** The insert reached the top layer, or linked to some live node at layer 0. */
  ghost predicate FoundLink(g: State, t: State, level: nat) {
    !g.hasEntry || level >= g.maxLevel || Links(t, |g.nodes|, 0) != []
  }

  lemma FirstFinds(g: State, t: State, level: nat)
    requires !g.hasEntry
    ensures FoundLink(g, t, level)
  {
  }

  ghost predicate AllReach(nodes: seq<Node>, ids: seq<nat>, l: nat) {
    forall x :: x in ids ==> x < |nodes| && nodes[x].level >= l
  }

  lemma NothingReaches(nodes: seq<Node>, l: nat)
    ensures AllReach(nodes, [], l)
  {
  }

  lemma EntryReaches(g: State)
    requires UpLinks(g) && g.hasEntry
    ensures g.entryPoint < |g.nodes| && g.nodes[g.entryPoint].level >= g.maxLevel
  {
  }

  lemma ReachLevel(g: State, m: nat, metric: (Vec, Vec) -> real, q: Vec, l: nat, e: nat, x: nat)
    requires UpLinks(g) && Linked(g, m) && e < |g.nodes| && g.nodes[e].level >= l
    requires Reachable(View(g, metric, q, l), e, x)
    ensures x < |g.nodes| && g.nodes[x].level >= l
  {
    hide Links, Reachable;
    var v := View(g, metric, q, l);
    ViewWellFormed(g, m, metric, q, l);
    var up := set s | 0 <= s < |g.nodes| && g.nodes[s].level >= l;
    forall a: nat, b: nat | a in up && a < |v.links| && b in v.links[a] ensures b in up {
      var i :| 0 <= i < |v.links[a]| && v.links[a][i] == b;
      assert b in Links(g, a, l);
    }
    ReachStaysInside(v, e, x, up);
  }

  lemma FoundReaches(g: State, m: nat, metric: (Vec, Vec) -> real, q: Vec, l: nat, e: nat, ef: nat, found: seq<Cand>, t: Sets, slot: nat, cap: nat)
    requires UpLinks(g) && Linked(g, m) && e < |g.nodes| && g.nodes[e].level >= l
    requires SearchExit(View(g, metric, q, l), e, ef, found, t)
    requires InData(g.data, Without(found, slot))
    ensures forall c :: c in Without(found, slot) ==> c.id < |g.nodes| && g.nodes[c.id].level >= l
    ensures AllReach(g.nodes, Ids(Chosen(metric, g.data, Without(found, slot), cap)), l)
  {
    hide SearchExit, UpLinks, LinksOk, Reachable;
    var v := View(g, metric, q, l);
    WithoutMembers(found, slot);
    forall c | c in found ensures c.id < |g.nodes| && g.nodes[c.id].level >= l {
      var i :| 0 <= i < |found| && found[i] == c;
      FoundIsReachable(v, e, ef, found, t, i);
      ReachLevel(g, m, metric, q, l, e, c.id);
    }
    var kept := Chosen(metric, g.data, Without(found, slot), cap);
    forall x | x in Ids(kept) ensures x < |g.nodes| && g.nodes[x].level >= l {
      var i :| 0 <= i < |kept| && kept[i].id == x;
      assert kept[i] in Without(found, slot);
    }
  }

  lemma FoundLevels(g: State, m: nat, metric: (Vec, Vec) -> real, q: Vec, l: nat, e: nat, ef: nat, found: seq<Cand>, t: Sets)
    requires UpLinks(g) && Linked(g, m) && e < |g.nodes| && g.nodes[e].level >= l
    requires SearchExit(View(g, metric, q, l), e, ef, found, t)
    ensures forall i :: 0 <= i < |found| ==> found[i].id < |g.nodes| && g.nodes[found[i].id].level >= l
  {
    hide SearchExit, UpLinks, LinksOk, Reachable;
    forall i | 0 <= i < |found| ensures found[i].id < |g.nodes| && g.nodes[found[i].id].level >= l {
      FoundIsReachable(View(g, metric, q, l), e, ef, found, t, i);
      ReachLevel(g, m, metric, q, l, e, found[i].id);
    }
  }

  lemma FoundIsReachable(v: Layer, e: nat, ef: nat, found: seq<Cand>, t: Sets, i: nat)
    requires SearchExit(v, e, ef, found, t) && i < |found|
    ensures Reachable(v, e, found[i].id)
  {
    hide Reachable, IsTopK, Dropped, Followed;
    OutputIsLive(v, e, ef, found, t, i);
  }

  lemma FirstLevels(g: State, m: nat, id: Id, vec: Vec, level: nat, none: seq<seq<nat>>)
    requires HnswState.Valid(g, m) && !g.hasEntry && |none| == level + 1 && forall l :: 0 <= l <= level ==> none[l] == []
    requires Linked(g, m) && id !in g.slots
    ensures ExactLevels(Placed(g, m, id, level, none, vec).(live := g.live + 1, entryPoint := SlotFor(g, id), hasEntry := true, maxLevel := level))
  {
    assert |Skel(g).ids| == 0;
  }

  /** A pruned list only drops members. */
  lemma RelinkedWithin(metric: (Vec, Vec) -> real, data: seq<Vec>, s: nat, joined: seq<nat>, cap: nat, now: seq<nat>)
    requires Relinked(metric, data, s, joined, cap, now)
    ensures forall x :: x in now ==> x in joined
  {
    hide Sort, Crowded;
    if |joined| > cap {
      var scored := Scored(metric, data, s, joined);
      var sorted := Sort(scored);
      SortSorts(scored);
      var kept := Chosen(metric, data, sorted, cap);
      forall x | x in now ensures x in joined {
        var i :| 0 <= i < |kept| && kept[i].id == x;
        assert kept[i] in sorted;
        assert kept[i] in multiset(sorted);
        assert kept[i] in scored;
        var j :| 0 <= j < |scored| && scored[j] == kept[i];
        assert Ids(scored)[j] == joined[j];
      }
    }
  }

  /** Links within their layer, for the lists alone. */
  ghost predicate UpLists(g: State) {
    forall s: nat, l: nat, x: nat :: s < |g.nodes| && x in Links(g, s, l) && x < |g.nodes| ==> g.nodes[x].level >= l
  }

  lemma PlacedExact(g: State, p: State, m: nat, id: Id, vec: Vec, level: nat, staged: seq<seq<nat>>)
    requires ExactLists(g) && UpLists(g) && Linked(g, m) && id !in g.slots && |staged| == level + 1
    requires forall l :: 0 <= l <= level ==> ListOk(staged[l], |g.nodes|, |g.nodes|, MaxLinks(m, l)) && AllReach(g.nodes, staged[l], l)
    requires var q := Placed(g, m, id, level, staged, vec); p.nodes == q.nodes && p.links0 == q.links0
    ensures ExactLists(p) && UpLists(p) && BackFits(p, |g.nodes|, level)
    ensures |p.nodes| == |g.nodes| + 1 && p.nodes[|g.nodes|].level == level
  {
    hide LinksOk;
    var slot := |g.nodes|;
    var q := Placed(g, m, id, level, staged, vec);
    assert ListOk(staged[0], slot, slot, MaxLinks(m, 0));
    forall s: nat, l: nat | s < |p.nodes|
      ensures Links(p, s, l) == if s == slot then (if l < |staged| then staged[l] else []) else Links(g, s, l)
    {
      PlacedLinks(g, m, id, level, staged, vec, s, l);
      assert Links(p, s, l) == Links(q, s, l);
    }
    forall s: nat, l: nat, x: nat | s < |p.nodes| && x in Links(p, s, l) && x < |p.nodes| ensures p.nodes[x].level >= l {
      if s < slot { LinkList(g, m, s, l); } else { assert AllReach(g.nodes, staged[l], l); }
    }
    forall s: nat, l: nat | Back(p, slot, level, s, l) && s < |p.nodes| ensures l < |p.nodes[s].neighbors| {
      assert s in staged[l];
      assert AllReach(g.nodes, staged[l], l);
    }
  }

  lemma LinkedExact(p: State, t: State, m: nat, metric: (Vec, Vec) -> real, slot: nat, level: nat)
    requires ExactLists(p) && UpLists(p) && BackFits(p, slot, level) && BackLinked(p, t, m, metric, slot, level)
    requires slot < |p.nodes| && p.nodes[slot].level == level && LevelsOf(p.nodes) == LevelsOf(t.nodes)
    ensures ExactLists(t) && UpLists(t)
  {
    hide Links, Relinked, Joined;
    assert |LevelsOf(p.nodes)| == |p.nodes|;
    forall s | 0 <= s < |t.nodes| ensures t.nodes[s].level == p.nodes[s].level {
      assert LevelsOf(t.nodes)[s] == LevelsOf(p.nodes)[s];
    }
    forall s: nat, l: nat, x: nat | s < |t.nodes| && x in Links(t, s, l) && x < |t.nodes| ensures t.nodes[x].level >= l {
      if Back(p, slot, level, s, l) {
        assert Gained(p, t, m, metric, slot, s, l);
        RelinkedWithin(metric, p.data, s, Joined(Links(p, s, l), [slot]), MaxLinks(m, l), Links(t, s, l));
        var _ := JoinedIs(Links(p, s, l), [slot]);
      } else {
        assert Links(t, s, l) == Links(p, s, l);
      }
    }
  }

  lemma ExactParts(g: State)
    requires g.hasEntry
    ensures ExactLevels(g) <==>
            ExactLists(g) && UpLists(g) && g.entryPoint < |g.nodes| && g.nodes[g.entryPoint].level >= g.maxLevel
  {
  }

  lemma DeleteExact(g: State, t: State)
    requires ExactLevels(g) && g.nodes == t.nodes && g.links0 == t.links0
    requires g.entryPoint == t.entryPoint && g.maxLevel == t.maxLevel && g.hasEntry == t.hasEntry
    ensures ExactLevels(t)
  {
    forall s: nat, l: nat ensures Links(g, s, l) == Links(t, s, l) {
    }
  }

  lemma SameListsExact(g: State, t: State)
    requires g.nodes == t.nodes && g.links0 == t.links0
    ensures UpLists(g) ==> UpLists(t)
    ensures ExactLists(g) ==> ExactLists(t)
  {
    forall s: nat, l: nat ensures Links(g, s, l) == Links(t, s, l) {
    }
  }

  /** A fresh insert keeps levels exact if and only if it reaches the top layer or finds a link. */
  lemma InsertExact(g: State, placed: State, linked: State, t: State, m: nat, metric: (Vec, Vec) -> real, id: Id, vec: Vec, level: nat, staged: seq<seq<nat>>)
    requires ExactLevels(g) && Linked(g, m) && id !in g.slots && |staged| == level + 1 && g.hasEntry
    requires forall l :: 0 <= l <= level ==> ListOk(staged[l], |g.nodes|, |g.nodes|, MaxLinks(m, l)) && AllReach(g.nodes, staged[l], l)
    requires var q := Placed(g, m, id, level, staged, vec); placed.nodes == q.nodes && placed.links0 == q.links0
    requires BackLinked(placed, linked, m, metric, |g.nodes|, level) && LevelsOf(placed.nodes) == LevelsOf(linked.nodes)
    requires linked.nodes == t.nodes && linked.links0 == t.links0 && t.hasEntry
    requires t.maxLevel == (if level > g.maxLevel then level else g.maxLevel) && t.entryPoint == NextEntry(g, t, id, level)
    ensures ExactLevels(t) <==> FoundLink(g, t, level)
  {
    hide LinksOk, ListOk, Placed, BackLinked, UpLinks, ExactLists, UpLists, AllReach, BackFits;
    ExactParts(g);
    PlacedExact(g, placed, m, id, vec, level, staged);
    LinkedExact(placed, linked, m, metric, |g.nodes|, level);
    SameListsExact(linked, t);
    EntryReaches(g);
    EntryAfter(g, placed, linked, m, id, vec, level, staged);
    ExactParts(t);
  }

  lemma EntryAfter(g: State, placed: State, linked: State, m: nat, id: Id, vec: Vec, level: nat, staged: seq<seq<nat>>)
    requires Linked(g, m) && id !in g.slots && |staged| == level + 1
    requires placed.nodes == Placed(g, m, id, level, staged, vec).nodes && LevelsOf(placed.nodes) == LevelsOf(linked.nodes)
    ensures |linked.nodes| == |g.nodes| + 1 && linked.nodes[|g.nodes|].level == level
    ensures forall s :: 0 <= s < |g.nodes| ==> linked.nodes[s].level == g.nodes[s].level
  {
    assert |LevelsOf(linked.nodes)| == |linked.nodes|;
    forall s | 0 <= s < |linked.nodes| ensures linked.nodes[s].level == placed.nodes[s].level {
      assert LevelsOf(linked.nodes)[s] == LevelsOf(placed.nodes)[s];
    }
  }

  lemma LinksFinal(g: State, t: State, s: nat)
    requires g.nodes == t.nodes && g.links0 == t.links0
    ensures Links(g, s, 0) == Links(t, s, 0)
  {
  }

  lemma LevelsKept(g: State, t: State)
    requires Skel(g) == Skel(t)
    ensures LevelsOf(g.nodes) == LevelsOf(t.nodes)
  {
  }

  lemma HeightsKeepExact(g: State, t: State)
    requires ExactLists(g) && SameHeights(g, t) && LevelsOf(g.nodes) == LevelsOf(t.nodes)
    ensures ExactLists(t)
  {
    forall s | 0 <= s < |t.nodes| ensures |t.nodes[s].neighbors| == t.nodes[s].level + 1 && t.nodes[s].neighbors[0] == [] {
      assert LevelsOf(t.nodes)[s] == LevelsOf(g.nodes)[s];
    }
  }

  // ---- Reinserting a node below the layer it is linked at ----

  /** A search of a graph with one node finds that node. */
  lemma OneNodeFound(g: State, m: nat, ef: nat, metric: (Vec, Vec) -> real, vec: Vec, l: nat, leg: Leg)
    requires Linked(g, m) && |g.nodes| == 1 && NoTombs(g.dead) && ef > 0
    requires SearchExit(View(g, metric, vec, l), leg.entry, ef, leg.found, leg.sets)
    ensures Ids(leg.found) == [0] && InData(g.data, leg.found)
  {
    hide LinksOk, Reachable, IsTopK, Dropped, Followed;
    var v := View(g, metric, vec, l);
    ViewWellFormed(g, m, metric, vec, l);
    assert leg.entry < |v.dead|;
    hide SearchExit;
    LiveStartFinds(v, leg.entry, ef, leg.found, leg.sets);
    BeamSearchExit(v, leg.entry, ef, leg.found, leg.sets);
    var ids := Ids(leg.found);
    if |ids| >= 2 {
      TwoDiffer(ids);
      assert false;
    }
  }

  lemma TwoDiffer(ids: seq<nat>)
    requires Distinct(ids) && |ids| >= 2
    ensures ids[0] != ids[1]
  {
  }

  /** Reinserting the only node at level 0 leaves it without links. */
  lemma LoneReinsert(g: State, t: State, m: nat, ef: nat, metric: (Vec, Vec) -> real, id: Id, vec: Vec, legs: seq<Leg>, staged: seq<seq<nat>>)
    requires Linked(g, m) && |g.nodes| == 1 && NoTombs(g.dead) && ef > 0 && id in g.slots && g.slots[id] == 0
    requires (forall s: nat, l: nat :: Links(g, s, l) == []) && InsertLinks(g, t, m, ef, metric, id, vec, 0, legs, staged)
    ensures (forall s: nat, l: nat :: Links(t, s, l) == []) && |t.nodes| == 1 && |t.nodes[0].neighbors| <= 1
  {
    hide LinksOk, SearchExit, Chosen, Gained, Descend, SameHeights, BackFits, View;
    assert SearchExit(View(g, metric, vec, 0 + 0), legs[0].entry, ef, legs[0].found, legs[0].sets);
    OneNodeFound(g, m, ef, metric, vec, 0, legs[0]);
    assert Ids(legs[0].found)[0] == 0 && |legs[0].found| == |Ids(legs[0].found)|;
    assert legs[0].found[..0] == [];
    assert Without(legs[0].found, 0) == [];
    assert ListedFrom(g, m, metric, 0, 0, legs[0], staged[0]);
    assert staged[0] == [] by { NothingChosen(metric, g.data, MaxLinks(m, 0)); }
    var p := Placed(g, m, id, 0, staged, vec);
    forall s: nat, l: nat ensures Links(p, s, l) == [] && !Back(p, 0, 0, s, l) {
      assert Links(p, s, l) == if s == 0 then (if l < |staged| then staged[l] else []) else Links(g, s, l);
      assert Links(p, 0, l) == if l < |staged| then staged[l] else [];
    }
  }

  lemma NothingChosen(metric: (Vec, Vec) -> real, data: seq<Vec>, cap: nat)
    ensures Ids(Chosen(metric, data, [], cap)) == []
  {
  }

  /** The next node, one layer up, picks the only node there is. */
  lemma OneNodePicked(g: State, m: nat, ef: nat, metric: (Vec, Vec) -> real, vec: Vec, legs: seq<Leg>, staged: seq<seq<nat>>)
    requires Linked(g, m) && |g.nodes| == 1 && NoTombs(g.dead) && ef > 0 && m > 0 && g.maxLevel == 1
    requires Planned(g, m, ef, metric, vec, 1, 1, legs, staged)
    ensures staged[1] != [] && staged[1][0] == 0
  {
    hide LinksOk, SearchExit, Descend, View, Chosen;
    assert SearchExit(View(g, metric, vec, 0 + 1), legs[1].entry, ef, legs[1].found, legs[1].sets);
    OneNodeFound(g, m, ef, metric, vec, 1, legs[1]);
    var found := legs[1].found;
    assert Ids(found)[0] == 0 && |found| == |Ids(found)|;
    WithoutAbsent(found, 1);
    assert ListedFrom(g, m, metric, 1, 1, legs[1], staged[1]);
    ChosenKeepsFirst(metric, g.data, found, MaxLinks(m, 1));
  }

  /** It is linked back there, above its level. */
  lemma LinkedAbove(g: State, t: State, m: nat, ef: nat, metric: (Vec, Vec) -> real, id: Id, vec: Vec, legs: seq<Leg>, staged: seq<seq<nat>>)
    requires Linked(g, m) && |g.nodes| == 1 && NoTombs(g.dead) && ef > 0 && m > 0 && id !in g.slots && g.maxLevel == 1
    requires |g.nodes[0].neighbors| <= 1
    requires (forall s: nat, l: nat :: Links(g, s, l) == []) && InsertLinks(g, t, m, ef, metric, id, vec, 1, legs, staged)
    ensures Links(t, 0, 1) == [1] && |t.nodes| == 2 && |t.nodes[0].neighbors| <= 2 && |t.nodes[1].neighbors| <= 2
  {
    hide LinksOk, Planned, SameHeights, BackFits, NoTombs;
    OneNodePicked(g, m, ef, metric, vec, legs, staged);
    var p := Placed(g, m, id, 1, staged, vec);
    assert Links(p, 1, 1) == staged[1] && Links(p, 0, 1) == Links(g, 0, 1);
    assert Back(p, 1, 1, 0, 1);
    assert Gained(p, t, m, metric, 1, 0, 1);
    assert Joined([], [1]) == [1] by { assert [1][..0] == []; }
  }
}
