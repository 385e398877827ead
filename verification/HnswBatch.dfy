/**
 Batch insert: a chunk of new vectors is searched for against the graph as it
 was, placed, linked to the graph and to earlier chunk-mates, and linked back.
 It must leave the same slots, vectors, levels and counters as inserting one
 by one.
 */
module HnswBatch {
  import opened Common
  import opened Heap
  import opened TopK
  import opened Beam
  import opened Log
  import opened HnswState
  import opened Hnsw

  const MAX_BATCH_CHUNK: nat := 128

  // ---- Merging sorted candidates ----

  function Merge(a: seq<Cand>, b: seq<Cand>): seq<Cand> {
    if a == [] then b
    else if b == [] then a
    else if a[0].dist <= b[0].dist then [a[0]] + Merge(a[1..], b)
    else [b[0]] + Merge(a, b[1..])
  }

  lemma TailSorted(a: seq<Cand>)
    requires Sorted(a) && a != []
    ensures Sorted(a[1..]) && a == [a[0]] + a[1..]
  {
  }

  lemma TailBelow(h: Cand, x: seq<Cand>)
    requires Sorted([h] + x)
    ensures Below(multiset{h}, multiset(x))
  {
    var s := [h] + x;
    forall c | c in multiset(x) ensures h.dist <= c.dist {
      var i :| 0 <= i < |x| && x[i] == c;
      assert s[i + 1] == c && s[0] == h;
    }
  }

  lemma BelowBoth(h: Cand, a: multiset<Cand>, b: multiset<Cand>)
    requires Below(multiset{h}, a) && Below(multiset{h}, b)
    ensures Below(multiset{h}, a + b)
  {
  }

  /** Putting the nearest head in front of the merge of the rest. */
  lemma TakeHead(h: Cand, x: seq<Cand>, y: seq<Cand>, merged: seq<Cand>)
    requires Sorted([h] + x) && Sorted(y) && (y != [] ==> h.dist <= y[0].dist)
    requires Sorted(merged) && multiset(merged) == multiset(x) + multiset(y)
    ensures Sorted([h] + merged) && multiset([h] + merged) == multiset([h] + x) + multiset(y)
  {
    hide Sorted, Below;
    TailBelow(h, x);
    HeadBelow(h, y);
    BelowBoth(h, multiset(x), multiset(y));
    SortedCons(h, merged);
  }

  lemma {:induction false} MergeSorts(a: seq<Cand>, b: seq<Cand>)
    requires Sorted(a) && Sorted(b)
    ensures Sorted(Merge(a, b)) && multiset(Merge(a, b)) == multiset(a) + multiset(b)
    decreases |a| + |b|
  {
    hide Sorted;
    if a != [] && b != [] {
      TailSorted(a);
      TailSorted(b);
      if a[0].dist <= b[0].dist {
        MergeSorts(a[1..], b);
        TakeHead(a[0], a[1..], b, Merge(a[1..], b));
      } else {
        MergeSorts(a, b[1..]);
        TakeHead(b[0], b[1..], a, Merge(a, b[1..]));
      }
    }
  }

  lemma MergeUnfold(a: seq<Cand>, b: seq<Cand>, i: nat, j: nat)
    requires i <= |a| && j <= |b| && (i < |a| || j < |b|)
    ensures var left := j == |b| || (i < |a| && a[i].dist <= b[j].dist);
            Merge(a[i..], b[j..]) == if left then [a[i]] + Merge(a[i + 1..], b[j..]) else [b[j]] + Merge(a[i..], b[j + 1..])
  {
    if i < |a| {
      assert a[i..][1..] == a[i + 1..];
      assert a[i..] == [a[i]] + a[i + 1..];
    }
    if j < |b| {
      assert b[j..][1..] == b[j + 1..];
      assert b[j..] == [b[j]] + b[j + 1..];
    }
  }

  lemma MergeNothing()
    ensures Merge([], []) == []
  {
  }

  /** The n closest of a sorted list and an unsorted one, closest first. */
  method MergeClosest(sorted: seq<Cand>, extra: seq<Cand>, n: nat) returns (out: seq<Cand>)
    requires Sorted(sorted)
    ensures IsTopK(out, multiset(sorted) + multiset(extra), n)
  {
    hide Merge, Sort, Sorted, IsTopK;
    var more := Sort(extra);
    SortSorts(extra);
    var i, j := 0, 0;
    out := [];
    ghost var all := Merge(sorted, more);
    assert sorted[0..] == sorted && more[0..] == more;
    while |out| < n && (i < |sorted| || j < |more|)
      invariant i <= |sorted| && j <= |more|
      invariant all == out + Merge(sorted[i..], more[j..])
      invariant |out| <= n
      decreases |sorted| - i + |more| - j
    {
      MergeUnfold(sorted, more, i, j);
      if j >= |more| || (i < |sorted| && sorted[i].dist <= more[j].dist) {
        Shift(out, sorted[i], Merge(sorted[i + 1..], more[j..]));
        out := out + [sorted[i]];
        i := i + 1;
      } else {
        Shift(out, more[j], Merge(sorted[i..], more[j + 1..]));
        out := out + [more[j]];
        j := j + 1;
      }
    }
    if i == |sorted| && j == |more| {
      MergeNothing();
      assert sorted[i..] == [] && more[j..] == [];
    }
    MergeSorts(sorted, more);
    CutIsTopK(all, multiset(sorted) + multiset(extra), n);
    CutAt(out, Merge(sorted[i..], more[j..]), n);
  }

  lemma Shift(out: seq<Cand>, x: Cand, rest: seq<Cand>)
    ensures out + ([x] + rest) == (out + [x]) + rest
  {
  }

  lemma CutAt(out: seq<Cand>, rest: seq<Cand>, n: nat)
    requires |out| == n || (|out| <= n && rest == [])
    ensures out == (out + rest)[..Min(n, |out + rest|)]
  {
  }

  // ---- Candidates of one chunk member ----

  ghost predicate GoodCands(cs: seq<Cand>, lo: nat, hi: nat) {
    Distinct(Ids(cs)) && forall i :: 0 <= i < |cs| ==> lo <= cs[i].id < hi
  }

  /** Distances to the earlier chunk-mates j < k that reach layer l. */
  function Mates(metric: (Vec, Vec) -> real, vecs: seq<Vec>, levels: seq<nat>, base: nat, k: nat, n: nat, l: nat): seq<Cand>
    requires |vecs| == |levels| && n <= k < |vecs|
  {
    if n == 0 then []
    else
      var before := Mates(metric, vecs, levels, base, k, n - 1, l);
      if levels[n - 1] >= l then before + [Cand(base + n - 1, metric(vecs[k], vecs[n - 1]))] else before
  }

  lemma {:induction false} MatesGood(metric: (Vec, Vec) -> real, vecs: seq<Vec>, levels: seq<nat>, base: nat, k: nat, n: nat, l: nat)
    requires |vecs| == |levels| && n <= k < |vecs|
    ensures GoodCands(Mates(metric, vecs, levels, base, k, n, l), base, base + n)
    decreases n
  {
    if n > 0 {
      MatesGood(metric, vecs, levels, base, k, n - 1, l);
      if levels[n - 1] >= l {
        DistinctSnoc(Mates(metric, vecs, levels, base, k, n - 1, l), Cand(base + n - 1, metric(vecs[k], vecs[n - 1])));
      }
    }
  }

  /** The mates are every earlier member that reaches the layer, at its distance, and nobody else. */
  lemma {:induction false} MatesAre(metric: (Vec, Vec) -> real, vecs: seq<Vec>, levels: seq<nat>, base: nat, k: nat, n: nat, l: nat, c: Cand)
    requires |vecs| == |levels| && n <= k < |vecs|
    ensures c in Mates(metric, vecs, levels, base, k, n, l) <==>
            IsMate(metric, vecs, levels, base, k, n, l, c)
    decreases n
  {
    if n > 0 { MatesAre(metric, vecs, levels, base, k, n - 1, l, c); }
  }

  /** c is one of the first n members, reaches layer l, and has its distance to member k. */
  ghost predicate IsMate(metric: (Vec, Vec) -> real, vecs: seq<Vec>, levels: seq<nat>, base: nat, k: nat, n: nat, l: nat, c: Cand)
    requires |vecs| == |levels| && n <= |vecs| && k < |vecs|
  {
    exists j :: 0 <= j < n && levels[j] >= l && c.id == base + j && c.dist == metric(vecs[k], vecs[j])
  }

  lemma Apart2(a: seq<Cand>, b: seq<Cand>, base: nat, hi: nat, all: seq<Cand>)
    requires GoodCands(a, 0, base) && GoodCands(b, base, hi) && base <= hi
    requires multiset(all) == multiset(a) + multiset(b)
    ensures GoodCands(all, 0, hi)
  {
    forall i | 0 <= i < |all| ensures all[i].id < hi {
      assert all[i] in multiset(all);
      assert all[i] in a || all[i] in b;
    }
    var both := a + b;
    assert multiset(both) == multiset(all);
    assert Distinct(Ids(both)) by {
      forall i, j | 0 <= i < j < |both| ensures Ids(both)[i] != Ids(both)[j] {
        if j < |a| { assert Ids(a)[i] != Ids(a)[j]; }
        else if i >= |a| { assert Ids(b)[i - |a|] != Ids(b)[j - |a|]; }
      }
    }
    forall i, j | 0 <= i < j < |all| ensures Ids(all)[i] != Ids(all)[j] {
      if all[i].id == all[j].id {
        SameIdTwice(both, all, i, j);
        assert false;
      }
    }
  }

  lemma {:induction false} ChosenSorted(metric: (Vec, Vec) -> real, data: seq<Vec>, cs: seq<Cand>, cap: nat)
    requires InData(data, cs) && Sorted(cs)
    ensures Sorted(Chosen(metric, data, cs, cap))
    ensures forall c :: c in Chosen(metric, data, cs, cap) ==> c.dist <= (if cs == [] then c.dist else cs[|cs| - 1].dist)
    decreases |cs|
  {
    hide Crowded;
    if cs != [] {
      var n := |cs| - 1;
      ChosenSorted(metric, data, cs[..n], cap);
      var kept := Chosen(metric, data, cs[..n], cap);
      forall i | 0 <= i < |kept| ensures kept[i].dist <= cs[n].dist {
        assert kept[i] in cs[..n];
        var j :| 0 <= j < n && cs[..n][j] == kept[i];
      }
    }
  }

  lemma ChosenGood(metric: (Vec, Vec) -> real, data: seq<Vec>, cs: seq<Cand>, cap: nat, hi: nat)
    requires InData(data, cs) && GoodCands(cs, 0, hi)
    ensures GoodCands(Chosen(metric, data, cs, cap), 0, hi)
  {
    ChosenDistinct(metric, data, cs, cap);
    var kept := Chosen(metric, data, cs, cap);
    forall i | 0 <= i < |kept| ensures kept[i].id < hi {
      assert kept[i] in cs;
    }
  }

  // ---- The stages of a chunk ----

  ghost predicate GoodLayers(perLayer: seq<seq<Cand>>, hi: nat) {
    forall l :: 0 <= l < |perLayer| ==> Sorted(perLayer[l]) && GoodCands(perLayer[l], 0, hi)
  }

  /** The search for one new vector against the graph before the chunk, thinned by the heuristic. */
  method FindCandidates(g: Graph, vec: Vec, level: nat) returns (perLayer: seq<seq<Cand>>, ghost legs: seq<Leg>)
    requires g.Valid() && g.hasEntry
    ensures |perLayer| == Min(level, g.maxLevel) + 1 && GoodLayers(perLayer, |g.nodes|)
    ensures Searched(g.S(), g.m, g.efConstruction, g.metric, vec, level, legs, perLayer)
    ensures UpLinks(g.S()) ==> ReachLayers(g.nodes, perLayer)
  {
    hide LinksOk, SearchExit, Reachable, Distinct, SkelOk, Sorted, Thinned, UpLinks, ReachAt, Trail, Descend, Greedy, Ahead, Onward;
    assert Linked(g.S(), g.m) by { ValidIsLinked(g.S(), g.m); }
    var e: nat := g.entryPoint;
    var l := g.maxLevel;
    if UpLinks(g.S()) { EntryReaches(g.S()); }
    while l > level
      invariant Min(level, g.maxLevel) <= l <= g.maxLevel && e < |g.nodes| && (UpLinks(g.S()) ==> g.nodes[e].level >= l)
      invariant Descend(g.S(), g.metric, vec, e, l, level) == Descend(g.S(), g.metric, vec, g.entryPoint, g.maxLevel, level)
    {
      var e' := g.GreedyClosest(e, vec, l);
      DescendStep(g.S(), g.metric, vec, e, l, level);
      if UpLinks(g.S()) { ReachLevel(g.S(), g.m, g.metric, vec, l, e, e'); }
      e := e';
      l := l - 1;
    }
    var left: nat := Min(level, g.maxLevel) + 1;
    perLayer, legs := [], [];
    TrailStart(g.S(), g.efConstruction, g.metric, vec, |g.nodes|, level, e, l);
    while left > 0
      invariant left + |perLayer| == Min(level, g.maxLevel) + 1 && e < |g.nodes| && |legs| == |perLayer|
      invariant GoodLayers(perLayer, |g.nodes|)
      invariant UpLinks(g.S()) ==> g.nodes[e].level >= left - 1
      invariant UpLinks(g.S()) ==> forall i :: 0 <= i < |perLayer| ==> ReachAt(g.nodes, perLayer[i], left + i)
      invariant Trail(g.S(), g.efConstruction, g.metric, vec, |g.nodes|, level, left, legs)
      invariant e == Ahead(g.S(), g.metric, vec, |g.nodes|, level, legs)
      invariant forall i :: 0 <= i < |perLayer| ==> Thinned(g.S(), g.m, g.metric, left + i, legs[i], perLayer[i])
    {
      var kept, next, leg := FindLayer(g, vec, e, left - 1);
      TrailStep(g.S(), g.efConstruction, g.metric, vec, |g.nodes|, level, left, legs, leg);
      left := left - 1;
      perLayer, legs := [kept] + perLayer, [leg] + legs;
      e := next;
    }
  }

  /** One layer of the search, and where to continue below it. */
  method FindLayer(g: Graph, vec: Vec, e: nat, l: nat) returns (kept: seq<Cand>, next: nat, ghost leg: Leg)
    requires Linked(g.S(), g.m) && e < |g.nodes| && g.efConstruction > 0
    ensures next < |g.nodes| && Sorted(kept) && GoodCands(kept, 0, |g.nodes|)
    ensures leg.entry == e && SearchExit(View(g.S(), g.metric, vec, l), e, g.efConstruction, leg.found, leg.sets)
    ensures Thinned(g.S(), g.m, g.metric, l, leg, kept) && next == Onward(leg, |g.nodes|)
    ensures UpLinks(g.S()) && g.nodes[e].level >= l ==> g.nodes[next].level >= l && ReachAt(g.nodes, kept, l)
  {
    hide LinksOk, SearchExit, Reachable, Distinct, Sorted, Chosen, UpLinks, ReachAt;
    var found, t := g.Search(vec, e, g.efConstruction, l);
    leg := Leg(e, found, t);
    assert forall i :: 0 <= i < |found| ==> found[i] in found;
    WithoutAbsent(found, |g.nodes|);
    assert Sorted(found) by { ExitSorted(View(g.S(), g.metric, vec, l), e, g.efConstruction, found, t); }
    next := e;
    if found != [] {
      next := found[0].id;
    }
    kept := g.Diverse(found, MaxLinks(g.m, l));
    if UpLinks(g.S()) && g.nodes[e].level >= l {
      FoundLevels(g.S(), g.m, g.metric, vec, l, e, g.efConstruction, found, t);
      ChosenReach(g.S(), g.metric, found, MaxLinks(g.m, l), l);
    }
    ChosenSorted(g.metric, g.data, found, MaxLinks(g.m, l));
    ChosenGood(g.metric, g.data, found, MaxLinks(g.m, l), |g.nodes|);
  }

  /** Every candidate is a node that reaches layer l. */
  ghost predicate ReachAt(nodes: seq<Node>, cs: seq<Cand>, l: nat) {
    forall c :: c in cs ==> c.id < |nodes| && nodes[c.id].level >= l
  }

  ghost predicate ReachLayers(nodes: seq<Node>, perLayer: seq<seq<Cand>>) {
    forall l :: 0 <= l < |perLayer| ==> ReachAt(nodes, perLayer[l], l)
  }

  lemma ChosenReach(g: State, metric: (Vec, Vec) -> real, cs: seq<Cand>, cap: nat, l: nat)
    requires InData(g.data, cs) && forall i :: 0 <= i < |cs| ==> cs[i].id < |g.nodes| && g.nodes[cs[i].id].level >= l
    ensures ReachAt(g.nodes, Chosen(metric, g.data, cs, cap), l)
  {
    forall c | c in Chosen(metric, g.data, cs, cap) ensures c.id < |g.nodes| && g.nodes[c.id].level >= l {
      assert c in cs;
    }
  }

  /** What a layer's search found, thinned by the heuristic. */
  ghost predicate Thinned(g: State, m: nat, metric: (Vec, Vec) -> real, l: nat, leg: Leg, cs: seq<Cand>) {
    InData(g.data, leg.found) && cs == Chosen(metric, g.data, leg.found, MaxLinks(m, l))
  }

  /** The candidates of a new vector: from its trail of searches, layer by layer. */
  ghost predicate Searched(g: State, m: nat, ef: nat, metric: (Vec, Vec) -> real, vec: Vec, level: nat, legs: seq<Leg>, perLayer: seq<seq<Cand>>) {
    && |perLayer| == |legs| && Trail(g, ef, metric, vec, |g.nodes|, level, 0, legs)
    && forall l :: 0 <= l < |perLayer| ==> Thinned(g, m, metric, l, legs[l], perLayer[l])
  }

  lemma ExitSorted(v: Layer, entry: nat, ef: nat, out: seq<Cand>, t: Sets)
    requires SearchExit(v, entry, ef, out, t)
    ensures Sorted(out)
  {
  }

  /** None of ids is among keys, and none comes twice. */
  ghost predicate AllNew(keys: set<Id>, ids: seq<Id>) {
    && (forall i :: 0 <= i < |ids| ==> ids[i] !in keys)
    && forall i, j :: 0 <= i < j < |ids| ==> ids[i] != ids[j]
  }

  /** No id is in the graph already or appears twice. */
  method FreshIds(g: Graph, ids: seq<Id>) returns (ok: bool)
    ensures ok <==> AllNew(g.slots.Keys, ids)
  {
    var seen: set<Id> := {};
    for i := 0 to |ids|
      invariant seen == set x | x in ids[..i]
      invariant AllNew(g.slots.Keys, ids[..i])
    {
      assert ids[..i + 1] == ids[..i] + [ids[i]];
      if ids[i] in g.slots {
        return false;
      }
      if ids[i] in seen {
        var j :| 0 <= j < i && ids[..i][j] == ids[i];
        assert ids[j] == ids[i];
        return false;
      }
      seen := seen + {ids[i]};
    }
    assert ids[..|ids|] == ids;
    return true;
  }

  lemma {:induction false} InsertAllKeys(k: Skeleton, ids: seq<Id>, vecs: seq<Vec>, levels: seq<nat>)
    requires |ids| == |vecs| == |levels| && SkelOk(k)
    ensures var t := InsertAllSkel(k, ids, vecs, levels);
            (forall x :: x in t.slots <==> x in k.slots || x in ids) && (k.hasEntry ==> t.hasEntry)
    decreases |ids|
  {
    hide SkelOk, InsertSkel;
    if ids != [] {
      var n := |ids| - 1;
      InsertAllKeys(k, ids[..n], vecs[..n], levels[..n]);
      InsertKeys(InsertAllSkel(k, ids[..n], vecs[..n], levels[..n]), ids[n], vecs[n], levels[n]);
      assert ids == ids[..n] + [ids[n]];
    }
  }

  lemma InsertKeys(k: Skeleton, id: Id, vec: Vec, level: nat)
    requires SkelOk(k)
    ensures InsertSkel(k, id, vec, level).slots.Keys == k.slots.Keys + {id} && InsertSkel(k, id, vec, level).hasEntry
  {
  }

  /** The first n of a batch. */
  ghost function Front(k: Skeleton, ids: seq<Id>, vecs: seq<Vec>, levels: seq<nat>, n: nat): (t: Skeleton)
    requires |ids| == |vecs| == |levels| && SkelOk(k) && n <= |ids|
    ensures SkelOk(t)
  {
    InsertAllSkel(k, ids[..n], vecs[..n], levels[..n])
  }

  lemma FrontStep(k: Skeleton, ids: seq<Id>, vecs: seq<Vec>, levels: seq<nat>, n: nat)
    requires |ids| == |vecs| == |levels| && SkelOk(k) && n < |ids|
    ensures Front(k, ids, vecs, levels, n + 1) == InsertSkel(Front(k, ids, vecs, levels, n), ids[n], vecs[n], levels[n])
  {
    hide InsertAllSkel, InsertSkel, SkelOk;
    HnswState.InsertAllSnoc(k, ids[..n], vecs[..n], levels[..n], ids[n], vecs[n], levels[n]);
    assert ids[..n + 1] == ids[..n] + [ids[n]];
    assert vecs[..n + 1] == vecs[..n] + [vecs[n]];
    assert levels[..n + 1] == levels[..n] + [levels[n]];
  }

  lemma FrontEnds(k: Skeleton, ids: seq<Id>, vecs: seq<Vec>, levels: seq<nat>)
    requires |ids| == |vecs| == |levels| && SkelOk(k)
    ensures Front(k, ids, vecs, levels, 0) == k
    ensures Front(k, ids, vecs, levels, |ids|) == InsertAllSkel(k, ids, vecs, levels)
  {
    assert ids[..|ids|] == ids && vecs[..|ids|] == vecs && levels[..|ids|] == levels;
  }

  /** A fresh id under a hasEntry graph: what one step adds. */
  lemma FrontFresh(k: Skeleton, ids: seq<Id>, vecs: seq<Vec>, levels: seq<nat>, n: nat)
    requires |ids| == |vecs| == |levels| && SkelOk(k) && n < |ids| && AllNew(k.slots.Keys, ids) && k.hasEntry
    ensures var a := Front(k, ids, vecs, levels, n);
            ids[n] !in a.slots && a.hasEntry
  {
    InsertAllKeys(k, ids[..n], vecs[..n], levels[..n]);
  }

  /** Placing a new node moves the skeleton on, the counters apart. */
  lemma PlaceFresh(g: State, m: nat, k: Skeleton, id: Id, vec: Vec, level: nat, none: seq<seq<nat>>)
    requires SkelOk(k) && k.hasEntry && id !in k.slots && Linked(g, m)
    requires Skel(g) == k.(live := g.live, maxLevel := g.maxLevel)
    requires |none| == level + 1 && forall l :: 0 <= l <= level ==> none[l] == []
    ensures id !in g.slots
    ensures var t := Placed(g, m, id, level, none, vec);
            Linked(t, m) && Skel(t) == InsertSkel(k, id, vec, level).(live := g.live, maxLevel := g.maxLevel)
  {
    hide ListOk;
    forall l | 0 <= l <= level ensures ListOk(none[l], SlotFor(g, id), |g.nodes|, MaxLinks(m, l)) {
      NoLinks(SlotFor(g, id), |g.nodes|, MaxLinks(m, l));
    }
    PlacedKeepsLinks(g, m, id, level, none, vec);
    var t := Placed(g, m, id, level, none, vec);
    var u := InsertSkel(k, id, vec, level);
    assert IdsOf(t.nodes) == IdsOf(g.nodes) + [id];
    assert LevelsOf(t.nodes) == LevelsOf(g.nodes) + [level];
  }

  method PlaceAll(g: Graph, ids: seq<Id>, vecs: seq<Vec>, levels: seq<nat>)
    requires |ids| == |vecs| == |levels| && g.Valid() && g.hasEntry && AllNew(g.slots.Keys, ids)
    modifies g
    ensures Linked(g.S(), g.m) && g.live == old(g.live) && g.maxLevel == old(g.maxLevel) && g.entryPoint == old(g.entryPoint)
    ensures Skel(g.S()) == InsertAllSkel(old(Skel(g.S())), ids, vecs, levels).(live := g.live, maxLevel := g.maxLevel)
    ensures old(ExactLists(g.S()) && UpLists(g.S())) ==> ExactLists(g.S()) && UpLists(g.S())
  {
    hide LinksOk, SkelOk, InsertSkel, Placed, Front, ExactLists, UpLists;
    ghost var exact := ExactLists(g.S()) && UpLists(g.S());
    ghost var k0 := Skel(g.S());
    assert SkelOk(k0) && Linked(g.S(), g.m) by { InsertFacts(g.S(), g.m, 0, [], 0); }
    assert Front(k0, ids, vecs, levels, 0) == k0 by { FrontEnds(k0, ids, vecs, levels); }
    for n := 0 to |ids|
      invariant Linked(g.S(), g.m) && g.live == old(g.live) && g.maxLevel == old(g.maxLevel) && g.entryPoint == old(g.entryPoint)
      invariant Skel(g.S()) == Front(k0, ids, vecs, levels, n).(live := g.live, maxLevel := g.maxLevel)
      invariant exact ==> ExactLists(g.S()) && UpLists(g.S())
    {
      FrontFresh(k0, ids, vecs, levels, n);
      FrontStep(k0, ids, vecs, levels, n);
      var none := seq(levels[n] + 1, _ => []);
      PlaceFresh(g.S(), g.m, Front(k0, ids, vecs, levels, n), ids[n], vecs[n], levels[n], none);
      if exact { PlaceExact(g.S(), g.m, ids[n], vecs[n], levels[n], none); }
      g.Place(ids[n], levels[n], none, vecs[n]);
    }
    FrontEnds(k0, ids, vecs, levels);
  }

  lemma PlaceExact(g: State, m: nat, id: Id, vec: Vec, level: nat, none: seq<seq<nat>>)
    requires ExactLists(g) && UpLists(g) && Linked(g, m) && id !in g.slots
    requires |none| == level + 1 && forall l :: 0 <= l <= level ==> none[l] == []
    ensures var t := Placed(g, m, id, level, none, vec); ExactLists(t) && UpLists(t)
  {
    hide ListOk, LinksOk, ExactLists, UpLists, AllReach, Placed;
    forall l | 0 <= l <= level ensures ListOk(none[l], |g.nodes|, |g.nodes|, MaxLinks(m, l)) && AllReach(g.nodes, none[l], l) {
      NoLinks(|g.nodes|, |g.nodes|, MaxLinks(m, l));
      NothingReaches(g.nodes, l);
    }
    PlacedExact(g, Placed(g, m, id, level, none, vec), m, id, vec, level, none);
  }

  /** New ids get the levels drawn for them, and old slots keep theirs. */
  lemma {:induction false} InsertAllLevels(k: Skeleton, ids: seq<Id>, vecs: seq<Vec>, levels: seq<nat>)
    requires |ids| == |vecs| == |levels| && SkelOk(k) && AllNew(k.slots.Keys, ids)
    ensures InsertAllSkel(k, ids, vecs, levels).levels == k.levels + levels
    decreases |ids|
  {
    hide SkelOk, InsertSkel, AllNew;
    if ids == [] {
      assert k.levels + levels == k.levels;
    } else {
      var n := |ids| - 1;
      AllNewFront(k.slots.Keys, ids);
      InsertAllLevels(k, ids[..n], vecs[..n], levels[..n]);
      InsertAllKeys(k, ids[..n], vecs[..n], levels[..n]);
      InsertLive(InsertAllSkel(k, ids[..n], vecs[..n], levels[..n]), ids[n], vecs[n], levels[n]);
      assert levels == levels[..n] + [levels[n]];
    }
  }

  /** A list picked by the heuristic from all of near and mates, closest first. */
  ghost predicate PickedFrom(metric: (Vec, Vec) -> real, data: seq<Vec>, near: seq<Cand>, mates: seq<Cand>, cap: nat, ids: seq<nat>) {
    exists merged ::
      && Sorted(merged) && multiset(merged) == multiset(near) + multiset(mates)
      && InData(data, merged) && ids == Ids(Chosen(metric, data, merged, cap))
  }

  /** What member k links to at layer l, whatever order the members are handled in. */
  ghost predicate Picks(g: State, m: nat, metric: (Vec, Vec) -> real, vecs: seq<Vec>, levels: seq<nat>, base: nat, found: seq<seq<seq<Cand>>>, k: nat, l: nat)
    requires |vecs| == |levels| == |found| && k < |vecs|
  {
    PickedFrom(metric, g.data, if l < |found[k]| then found[k][l] else [],
               Mates(metric, vecs, levels, base, k, k, l), MaxLinks(m, l), Links(g, base + k, l))
  }

  /** Candidates of member k at layer l: what its search found there, and its earlier mates. */
  ghost predicate Merged(metric: (Vec, Vec) -> real, vecs: seq<Vec>, levels: seq<nat>, base: nat, near: seq<Cand>, k: nat, l: nat, merged: seq<Cand>)
    requires |vecs| == |levels| && k < |vecs|
  {
    Sorted(merged) && forall c :: c in merged <==> c in near || IsMate(metric, vecs, levels, base, k, k, l, c)
  }

  lemma MergedFrom(metric: (Vec, Vec) -> real, vecs: seq<Vec>, levels: seq<nat>, base: nat, near: seq<Cand>, k: nat, l: nat, merged: seq<Cand>)
    requires |vecs| == |levels| && k < |vecs| && Sorted(merged)
    requires multiset(merged) == multiset(near) + multiset(Mates(metric, vecs, levels, base, k, k, l))
    ensures Merged(metric, vecs, levels, base, near, k, l, merged)
  {
    hide Mates, Sorted, IsMate;
    forall c ensures c in merged <==> c in near || IsMate(metric, vecs, levels, base, k, k, l, c) {
      MatesAre(metric, vecs, levels, base, k, k, l, c);
      assert c in merged <==> c in multiset(merged);
    }
  }

  /** What member k links to exhausts its candidates and earlier mates, within 2m at layer 0 and m above. */
  lemma PicksAre(g: State, m: nat, metric: (Vec, Vec) -> real, vecs: seq<Vec>, levels: seq<nat>, base: nat, found: seq<seq<seq<Cand>>>, k: nat, l: nat)
      returns (merged: seq<Cand>)
    requires |vecs| == |levels| == |found| && k < |vecs| && Picks(g, m, metric, vecs, levels, base, found, k, l)
    requires l < |found[k]| ==> forall i :: 0 <= i < |found[k][l]| ==> found[k][l][i].id < base
    ensures Merged(metric, vecs, levels, base, if l < |found[k]| then found[k][l] else [], k, l, merged)
    ensures InData(g.data, merged) && Exhausts(metric, g.data, merged, base + k, if l == 0 then m + m else m, Links(g, base + k, l))
  {
    hide Chosen, Mates, Sorted, Links, Exhausts, PickedFrom, Merged;
    var near := if l < |found[k]| then found[k][l] else [];
    merged := PickedWitness(metric, g.data, near, Mates(metric, vecs, levels, base, k, k, l), MaxLinks(m, l), Links(g, base + k, l));
    MergedFrom(metric, vecs, levels, base, near, k, l, merged);
    MergedApart(metric, vecs, levels, base, near, k, l, merged);
    WithoutAbsent(merged, base + k);
    assert ListedFrom(g, m, metric, base + k, l, Leg(0, merged, Sets({}, {}, {})), Links(g, base + k, l));
    ListedIs(g, m, metric, base + k, l, Leg(0, merged, Sets({}, {}, {})), Links(g, base + k, l));
  }

  lemma PickedWitness(metric: (Vec, Vec) -> real, data: seq<Vec>, near: seq<Cand>, mates: seq<Cand>, cap: nat, ids: seq<nat>)
      returns (merged: seq<Cand>)
    requires PickedFrom(metric, data, near, mates, cap, ids)
    ensures Sorted(merged) && multiset(merged) == multiset(near) + multiset(mates)
    ensures InData(data, merged) && ids == Ids(Chosen(metric, data, merged, cap))
  {
    hide Chosen, Sorted;
    merged :| Sorted(merged) && multiset(merged) == multiset(near) + multiset(mates)
              && InData(data, merged) && ids == Ids(Chosen(metric, data, merged, cap));
  }

  lemma MergedApart(metric: (Vec, Vec) -> real, vecs: seq<Vec>, levels: seq<nat>, base: nat, near: seq<Cand>, k: nat, l: nat, merged: seq<Cand>)
    requires |vecs| == |levels| && k < |vecs| && Merged(metric, vecs, levels, base, near, k, l, merged)
    requires forall i :: 0 <= i < |near| ==> near[i].id < base
    ensures forall i :: 0 <= i < |merged| ==> merged[i].id != base + k
  {
    hide Sorted;
    forall i | 0 <= i < |merged| ensures merged[i].id != base + k { assert merged[i] in merged; }
  }

  lemma PicksKept(g: State, t: State, m: nat, metric: (Vec, Vec) -> real, vecs: seq<Vec>, levels: seq<nat>, base: nat, found: seq<seq<seq<Cand>>>, k: nat, l: nat)
    requires |vecs| == |levels| == |found| && k < |vecs| && Picks(g, m, metric, vecs, levels, base, found, k, l)
    requires g.data == t.data && Links(g, base + k, l) == Links(t, base + k, l)
    ensures Picks(t, m, metric, vecs, levels, base, found, k, l)
  {
  }

  /** Every chunk member picks its links from its search results and its earlier chunk-mates. */
  method LinkForward(g: Graph, vecs: seq<Vec>, levels: seq<nat>, base: nat, found: seq<seq<seq<Cand>>>)
    requires |vecs| == |levels| == |found| && Linked(g.S(), g.m) && base + |vecs| <= |g.nodes|
    requires forall k :: 0 <= k < |found| ==> GoodLayers(found[k], base)
    modifies g
    ensures Linked(g.S(), g.m) && Skel(g.S()) == old(Skel(g.S())) && g.entryPoint == old(g.entryPoint)
    ensures forall k, l :: 0 <= k < |vecs| && 0 <= l <= levels[k] ==> Picks(g.S(), g.m, g.metric, vecs, levels, base, found, k, l)
    ensures forall s: nat, l: nat :: s < base ==> Links(g.S(), s, l) == old(Links(g.S(), s, l))
    ensures Tall(old(g.nodes), levels, base) ==> SameHeights(old(g.S()), g.S())
  {
    hide LinksOk, GoodLayers, GoodCands, Sorted, IsTopK, Mates, Skel, Picks, Links, SameHeights;
    SkelFields(g.S());
    ghost var s0 := g.S();
    HeightsSame(s0);
    for k := 0 to |vecs|
      invariant Tall(s0.nodes, levels, base) ==> SameHeights(s0, g.S())
      invariant forall s: nat, l: nat :: s < base ==> Links(g.S(), s, l) == old(Links(g.S(), s, l))
      invariant Linked(g.S(), g.m) && Skel(g.S()) == old(Skel(g.S())) && g.entryPoint == old(g.entryPoint)
      invariant forall k', l :: 0 <= k' < k && 0 <= l <= levels[k'] ==> Picks(g.S(), g.m, g.metric, vecs, levels, base, found, k', l)
    {
      for l := 0 to levels[k] + 1
        invariant Linked(g.S(), g.m) && Skel(g.S()) == old(Skel(g.S())) && g.entryPoint == old(g.entryPoint)
        invariant forall s: nat, j: nat :: s < base ==> Links(g.S(), s, j) == old(Links(g.S(), s, j))
        invariant Tall(s0.nodes, levels, base) ==> SameHeights(s0, g.S())
        invariant forall k', l' :: 0 <= k' <= k && 0 <= l' < (if k' < k then levels[k'] + 1 else l) ==>
          Picks(g.S(), g.m, g.metric, vecs, levels, base, found, k', l')
      {
        ghost var before := g.S();
        SkelFields(before);
        LinkOne(g, vecs, levels, base, found, k, l);
        SkelFields(g.S());
        PicksOthers(before, g.S(), g.m, g.metric, vecs, levels, base, found, k, l);
        if Tall(s0.nodes, levels, base) { TallHere(s0, before, g.S(), levels, base, k, l); }
      }
    }
  }

  /** Each chunk member has a list for every layer up to its level. */
  ghost predicate Tall(nodes: seq<Node>, levels: seq<nat>, base: nat) {
    base + |levels| <= |nodes| && forall k :: 0 <= k < |levels| ==> levels[k] < |nodes[base + k].neighbors|
  }

  lemma TallHere(s0: State, t: State, u: State, levels: seq<nat>, base: nat, k: nat, l: nat)
    requires Tall(s0.nodes, levels, base) && SameHeights(s0, t) && k < |levels| && l <= levels[k]
    requires l < |t.nodes[base + k].neighbors| ==> SameHeights(t, u)
    ensures SameHeights(s0, u)
  {
    HeightsTrans(s0, t, u);
  }

  /** One member at one layer; no other list changes. */
  method LinkOne(g: Graph, vecs: seq<Vec>, levels: seq<nat>, base: nat, found: seq<seq<seq<Cand>>>, k: nat, l: nat)
    requires |vecs| == |levels| == |found| && Linked(g.S(), g.m) && base + |vecs| <= |g.nodes| && k < |vecs|
    requires GoodLayers(found[k], base)
    modifies g
    ensures Linked(g.S(), g.m) && Skel(g.S()) == old(Skel(g.S())) && g.entryPoint == old(g.entryPoint)
    ensures Picks(g.S(), g.m, g.metric, vecs, levels, base, found, k, l)
    ensures forall s: nat, l': nat :: s != base + k || l' != l ==> Links(g.S(), s, l') == old(Links(g.S(), s, l'))
    ensures l < |old(g.nodes[base + k].neighbors)| ==> SameHeights(old(g.S()), g.S())
  {
    hide LinksOk, GoodLayers, PickedFrom, ListOk, Mates, Skel, Links, SetLinks, Picks, SameHeights;
    ghost var before := g.S();
    SkelFields(before);
    var ids := PickLinks(g, vecs, levels, base, found, k, l);
    SetLinksHeights(before, g.m, base + k, l, ids);
    g.StoreLinks(base + k, l, ids);
    SkelFields(g.S());
    ListSize(ids, base + k, |g.nodes|, MaxLinks(g.m, l));
    forall s: nat, l': nat ensures Links(g.S(), s, l') == if s == base + k && l' == l then ids else Links(before, s, l') {
      SetLinksFrame(before, g.m, base + k, l, ids, s, l');
    }
    PicksNow(g.S(), g.m, g.metric, vecs, levels, base, found, k, l);
  }

  /** Merges search results with chunk-mates and lets the heuristic choose. */
  method PickLinks(g: Graph, vecs: seq<Vec>, levels: seq<nat>, base: nat, found: seq<seq<seq<Cand>>>, k: nat, l: nat) returns (ids: seq<nat>)
    requires |vecs| == |levels| == |found| && |g.nodes| == |g.data| && base + |vecs| <= |g.nodes| && k < |vecs|
    requires GoodLayers(found[k], base)
    ensures ListOk(ids, base + k, |g.nodes|, MaxLinks(g.m, l))
    ensures PickedFrom(g.metric, g.data, if l < |found[k]| then found[k][l] else [],
                       Mates(g.metric, vecs, levels, base, k, k, l), MaxLinks(g.m, l), ids)
  {
    hide GoodLayers, GoodCands, Sorted, IsTopK, Mates, ListOk, Chosen, Distinct;
    var near := if l < |found[k]| then found[k][l] else [];
    var mates := Mates(g.metric, vecs, levels, base, k, k, l);
    NearOk(found[k], l, base);
    MatesGood(g.metric, vecs, levels, base, k, k, l);
    var merged := MergeClosest(near, mates, |near| + |mates|);
    MergedOk(near, mates, merged, base, base + k, |g.nodes|);
    ids := g.SelectNeighbors(merged, MaxLinks(g.m, l), base + k, |g.nodes|);
  }

  lemma PicksOthers(g: State, t: State, m: nat, metric: (Vec, Vec) -> real, vecs: seq<Vec>, levels: seq<nat>, base: nat, found: seq<seq<seq<Cand>>>, k: nat, l: nat)
    requires |vecs| == |levels| == |found| && g.data == t.data
    requires forall s: nat, l': nat :: s != base + k || l' != l ==> Links(t, s, l') == Links(g, s, l')
    ensures forall k', l' :: 0 <= k' < |vecs| && 0 <= l' && (k' != k || l' != l) && Picks(g, m, metric, vecs, levels, base, found, k', l') ==>
              Picks(t, m, metric, vecs, levels, base, found, k', l')
  {
    hide Picks, Links;
    forall k', l' | 0 <= k' < |vecs| && 0 <= l' && (k' != k || l' != l) && Picks(g, m, metric, vecs, levels, base, found, k', l')
      ensures Picks(t, m, metric, vecs, levels, base, found, k', l')
    {
      PicksKept(g, t, m, metric, vecs, levels, base, found, k', l');
    }
  }

  lemma PicksNow(g: State, m: nat, metric: (Vec, Vec) -> real, vecs: seq<Vec>, levels: seq<nat>, base: nat, found: seq<seq<seq<Cand>>>, k: nat, l: nat)
    requires |vecs| == |levels| == |found| && k < |vecs|
    requires PickedFrom(metric, g.data, if l < |found[k]| then found[k][l] else [],
                        Mates(metric, vecs, levels, base, k, k, l), MaxLinks(m, l), Links(g, base + k, l))
    ensures Picks(g, m, metric, vecs, levels, base, found, k, l)
  {
  }

  lemma NearOk(perLayer: seq<seq<Cand>>, l: nat, base: nat)
    requires GoodLayers(perLayer, base)
    ensures var near := if l < |perLayer| then perLayer[l] else [];
            Sorted(near) && GoodCands(near, 0, base)
  {
  }

  lemma MergedOk(near: seq<Cand>, mates: seq<Cand>, merged: seq<Cand>, base: nat, hi: nat, n: nat)
    requires GoodCands(near, 0, base) && GoodCands(mates, base, hi) && base <= hi <= n
    requires IsTopK(merged, multiset(near) + multiset(mates), |near| + |mates|)
    ensures Sorted(merged) && multiset(merged) == multiset(near) + multiset(mates)
    ensures Distinct(Ids(merged)) && (forall i :: 0 <= i < |merged| ==> merged[i].id < hi)
    ensures forall c :: c in merged ==> c.id < n && c.id != hi
  {
    FullMultiset(multiset(merged), multiset(near) + multiset(mates));
    Apart2(near, mates, base, hi, merged);
  }

  /** The edges to be added back, grouped by the node and layer they land on. */
  datatype BackLinks = BackLinks(to: nat, l: nat, from: seq<nat>)

  ghost predicate GoodGroups(groups: seq<BackLinks>, n: nat) {
    forall i :: 0 <= i < |groups| ==>
      groups[i].to < n && groups[i].from != [] && forall x :: x in groups[i].from ==> x < n && x != groups[i].to
  }

  ghost predicate GoodIndex(index: map<(nat, nat), nat>, groups: seq<BackLinks>) {
    && (forall key :: key in index ==> index[key] < |groups| && (groups[index[key]].to, groups[index[key]].l) == key)
    && forall i :: 0 <= i < |groups| ==> (groups[i].to, groups[i].l) in index && index[(groups[i].to, groups[i].l)] == i
  }

  /** The edges a list of groups stands for: (landing node, layer, new node). */
  ghost function Edges(groups: seq<BackLinks>): set<(nat, nat, nat)> {
    set i, x | 0 <= i < |groups| && x in groups[i].from :: (groups[i].to, groups[i].l, x)
  }

  /** One group per (node, layer): appends slot to it, opening the group if needed. */
  method AddToGroup(groups: seq<BackLinks>, index: map<(nat, nat), nat>, to: nat, l: nat, slot: nat, ghost n: nat)
    returns (groups': seq<BackLinks>, index': map<(nat, nat), nat>)
    requires GoodGroups(groups, n) && GoodIndex(index, groups) && to < n && slot < n && slot != to
    ensures GoodGroups(groups', n) && GoodIndex(index', groups')
    ensures Edges(groups') == Edges(groups) + {(to, l, slot)}
  {
    hide Edges;
    var key := (to, l);
    groups', index' := groups, index;
    if key !in index {
      index' := index[key := |groups|];
      groups' := groups + [BackLinks(to, l, [])];
      EmptyGroup(groups, to, l);
    }
    var i := index'[key];
    GrownGroup(groups', i, slot);
    groups' := groups'[i := groups'[i].(from := groups'[i].from + [slot])];
  }

  lemma EmptyGroup(groups: seq<BackLinks>, to: nat, l: nat)
    ensures Edges(groups + [BackLinks(to, l, [])]) == Edges(groups)
  {
    var more := groups + [BackLinks(to, l, [])];
    forall e | e in Edges(groups) ensures e in Edges(more) {
      var i, x :| 0 <= i < |groups| && x in groups[i].from && e == (groups[i].to, groups[i].l, x);
      assert more[i] == groups[i];
    }
  }

  lemma GrownGroup(groups: seq<BackLinks>, i: nat, slot: nat)
    requires i < |groups|
    ensures Edges(groups[i := groups[i].(from := groups[i].from + [slot])]) == Edges(groups) + {(groups[i].to, groups[i].l, slot)}
  {
    var more := groups[i := groups[i].(from := groups[i].from + [slot])];
    assert slot in more[i].from;
    forall e | e in Edges(groups) ensures e in Edges(more) {
      var j, x :| 0 <= j < |groups| && x in groups[j].from && e == (groups[j].to, groups[j].l, x);
      assert x in more[j].from;
    }
  }

  /** x is a chunk member that links to `to` at layer l of its own. */
  ghost predicate NewEdge(g: State, levels: seq<nat>, base: nat, e: (nat, nat, nat)) {
    && base <= e.2 < base + |levels| && e.1 <= levels[e.2 - base]
    && e.0 in Links(g, e.2, e.1)
  }

  ghost predicate OneGroupEach(groups: seq<BackLinks>) {
    forall i, j :: 0 <= i < j < |groups| ==> (groups[i].to, groups[i].l) != (groups[j].to, groups[j].l)
  }

  /** The groups hold every new edge and nothing else, one group per list they land on. */
  method CollectBackLinks(g: Graph, levels: seq<nat>, base: nat) returns (groups: seq<BackLinks>)
    requires Linked(g.S(), g.m) && base + |levels| <= |g.nodes|
    ensures GoodGroups(groups, |g.nodes|) && OneGroupEach(groups)
    ensures forall e: (nat, nat, nat) :: e in Edges(groups) <==> NewEdge(g.S(), levels, base, e)
  {
    hide LinksOk, GoodGroups, GoodIndex, Edges, Links;
    groups := [];
    var index: map<(nat, nat), nat> := map[];
    NoGroups(|g.nodes|);
    for k := 0 to |levels|
      invariant GoodGroups(groups, |g.nodes|) && GoodIndex(index, groups)
      invariant forall e: (nat, nat, nat) :: e in Edges(groups) <==> NewEdge(g.S(), levels, base, e) && e.2 < base + k
    {
      var slot := base + k;
      for l := 0 to levels[k] + 1
        invariant GoodGroups(groups, |g.nodes|) && GoodIndex(index, groups)
        invariant forall e: (nat, nat, nat) :: e in Edges(groups) <==>
          NewEdge(g.S(), levels, base, e) && (e.2 < slot || (e.2 == slot && e.1 < l))
      {
        var around := Links(g.S(), slot, l);
        LinkList(g.S(), g.m, slot, l);
        for i := 0 to |around|
          invariant GoodGroups(groups, |g.nodes|) && GoodIndex(index, groups)
          invariant forall e: (nat, nat, nat) :: e in Edges(groups) <==>
            NewEdge(g.S(), levels, base, e) && (e.2 < slot || (e.2 == slot && (e.1 < l || (e.1 == l && e.0 in around[..i]))))
        {
          assert around[i] in around;
          assert around[..i + 1] == around[..i] + [around[i]];
          groups, index := AddToGroup(groups, index, around[i], l, slot, |g.nodes|);
        }
        assert around[..|around|] == around;
      }
    }
    IndexIsExact(groups, index);
  }

  lemma NoGroups(n: nat)
    ensures GoodGroups([], n) && GoodIndex(map[], []) && Edges([]) == {}
  {
  }

  lemma IndexIsExact(groups: seq<BackLinks>, index: map<(nat, nat), nat>)
    requires GoodIndex(index, groups)
    ensures OneGroupEach(groups)
  {
  }

  /** What a group does to the list it lands on. It names only that list, so the groups commute. */
  ghost predicate Landed(before: State, after: State, m: nat, metric: (Vec, Vec) -> real, gr: BackLinks) {
    Relinked(metric, before.data, gr.to, Joined(Links(before, gr.to, gr.l), gr.from), MaxLinks(m, gr.l), Links(after, gr.to, gr.l))
  }

  ghost predicate OnList(groups: seq<BackLinks>, s: nat, l: nat) {
    exists i :: 0 <= i < |groups| && groups[i].to == s && groups[i].l == l
  }

  /** Each group changes its own list, from what that list was at the start; no other list changes. */
  method LinkBackAll(g: Graph, groups: seq<BackLinks>)
    requires Linked(g.S(), g.m) && GoodGroups(groups, |g.nodes|) && OneGroupEach(groups)
    modifies g
    ensures Linked(g.S(), g.m) && Skel(g.S()) == old(Skel(g.S())) && g.entryPoint == old(g.entryPoint)
    ensures forall i :: 0 <= i < |groups| ==> Landed(old(g.S()), g.S(), g.m, g.metric, groups[i])
    ensures forall s, l :: !OnList(groups, s, l) ==> Links(g.S(), s, l) == old(Links(g.S(), s, l))
    ensures GroupsFit(old(g.nodes), groups) ==> SameHeights(old(g.S()), g.S())
  {
    hide LinksOk, Relinked, Skel, Links, Joined, SameHeights;
    ghost var s0 := g.S();
    SkelFields(g.S());
    HeightsSame(s0);
    for i := 0 to |groups|
      invariant Linked(g.S(), g.m) && Skel(g.S()) == Skel(s0) && g.entryPoint == s0.entryPoint
      invariant forall j :: 0 <= j < i ==> Landed(s0, g.S(), g.m, g.metric, groups[j])
      invariant forall s, l :: !OnList(groups[..i], s, l) ==> Links(g.S(), s, l) == Links(s0, s, l)
      invariant GroupsFit(s0.nodes, groups) ==> SameHeights(s0, g.S())
    {
      SkelFields(g.S());
      NotYet(groups, i);
      ghost var s1 := g.S();
      g.AddLinks(groups[i].to, groups[i].from, groups[i].l);
      SkelFields(g.S());
      if GroupsFit(s0.nodes, groups) { FitsGroup(s0, s1, g.S(), groups, i); }
      forall s, l | !OnList(groups[..i + 1], s, l) ensures Links(g.S(), s, l) == Links(s0, s, l) {
        NotOnFront(groups, i, s, l);
      }
      forall j | 0 <= j < i ensures Landed(s0, g.S(), g.m, g.metric, groups[j]) {
        assert Landed(s0, s1, g.m, g.metric, groups[j]);
      }
    }
    assert groups[..|groups|] == groups;
  }

  /** Every group lands on a layer its node has. */
  ghost predicate GroupsFit(nodes: seq<Node>, groups: seq<BackLinks>) {
    forall i :: 0 <= i < |groups| ==> groups[i].to < |nodes| && groups[i].l < |nodes[groups[i].to].neighbors|
  }

  lemma FitsGroup(s0: State, t: State, u: State, groups: seq<BackLinks>, i: nat)
    requires GroupsFit(s0.nodes, groups) && SameHeights(s0, t) && i < |groups|
    requires groups[i].to < |t.nodes| && groups[i].l < |t.nodes[groups[i].to].neighbors| ==> SameHeights(t, u)
    ensures SameHeights(s0, u)
  {
    HeightsTrans(s0, t, u);
  }

  lemma NotYet(groups: seq<BackLinks>, i: nat)
    requires i < |groups| && OneGroupEach(groups)
    ensures !OnList(groups[..i], groups[i].to, groups[i].l)
  {
  }

  lemma NotOnFront(groups: seq<BackLinks>, i: nat, s: nat, l: nat)
    requires i < |groups| && !OnList(groups[..i + 1], s, l)
    ensures !OnList(groups[..i], s, l) && (groups[i].to != s || groups[i].l != l)
  {
    assert groups[..i + 1][i] == groups[i];
    forall j | 0 <= j < i ensures groups[..i][j].to != s || groups[..i][j].l != l {
      assert groups[..i + 1][j] == groups[..i][j];
    }
  }

  /** The closing loop: live count, top level and entry point. */
  method CountIn(g: Graph, ids: seq<Id>, vecs: seq<Vec>, levels: seq<nat>, base: nat, ghost k0: Skeleton)
    requires |ids| == |vecs| == |levels| && SkelOk(k0) && k0.hasEntry && AllNew(k0.slots.Keys, ids)
    requires Linked(g.S(), g.m) && base + |ids| <= |g.nodes| && g.entryPoint < |g.nodes|
    requires Skel(g.S()) == InsertAllSkel(k0, ids, vecs, levels).(live := k0.live, maxLevel := k0.maxLevel)
    modifies g
    ensures Linked(g.S(), g.m) && g.entryPoint < |g.nodes|
    ensures Skel(g.S()) == InsertAllSkel(k0, ids, vecs, levels)
    ensures g.nodes == old(g.nodes) && g.links0 == old(g.links0) && g.data == old(g.data)
    ensures old(Steady(g.S(), base, levels, k0.maxLevel)) ==> g.nodes[g.entryPoint].level >= g.maxLevel
  {
    hide LinksOk, SkelOk, InsertSkel, Skel, Front, Links;
    ghost var s0 := g.S();
    ghost var steady := Steady(s0, base, levels, k0.maxLevel);
    SkelFields(s0);
    FrontEnds(k0, ids, vecs, levels);
    for n := 0 to |ids|
      invariant g.nodes == s0.nodes && g.links0 == s0.links0 && g.data == s0.data && g.dead == s0.dead
      invariant g.slots == s0.slots && g.hasEntry == s0.hasEntry && g.entryPoint < |g.nodes|
      invariant g.live == Front(k0, ids, vecs, levels, n).live && g.maxLevel == Front(k0, ids, vecs, levels, n).maxLevel
      invariant steady ==> g.nodes[g.entryPoint].level >= g.maxLevel
    {
      FrontFresh(k0, ids, vecs, levels, n);
      FrontStep(k0, ids, vecs, levels, n);
      InsertTop(Front(k0, ids, vecs, levels, n), ids[n], vecs[n], levels[n]);
      InsertLive(Front(k0, ids, vecs, levels, n), ids[n], vecs[n], levels[n]);
      g.live := g.live + 1;
      LinksFinal(s0, g.S(), base + n);
      if levels[n] > g.maxLevel {
        g.maxLevel, g.entryPoint := levels[n], base + n;
      } else if Links(g.S(), base + n, 0) == [] {
        g.entryPoint := base + n;
      }
    }
    SameLinks(s0, g.S(), g.m);
    SkelSameBut(s0, g.S());
  }

  /** Every chunk member found something to link to at layer 0. */
  ghost predicate AllLinked(g: State, base: nat, n: nat) {
    forall s: nat :: base <= s < base + n ==> Links(g, s, 0) != []
  }

  /** The entry point reaches the top, and no chunk member will take its place without being higher. */
  ghost predicate Steady(g: State, base: nat, levels: seq<nat>, top: nat) {
    && g.entryPoint < |g.nodes| && g.nodes[g.entryPoint].level >= top && base + |levels| <= |g.nodes|
    && AllLinked(g, base, |levels|) && forall n :: 0 <= n < |levels| ==> g.nodes[base + n].level == levels[n]
  }

  lemma SteadyFrom(s0: State, g: State, t: State, base: nat, levels: seq<nat>)
    requires ExactLevels(s0) && s0.hasEntry && ChunkLevels(s0, g, levels, base) && g.entryPoint == s0.entryPoint
    requires g.nodes == t.nodes && g.links0 == t.links0 && AllLinked(t, base, |levels|)
    ensures Steady(g, base, levels, s0.maxLevel)
  {
    forall s: nat | base <= s < base + |levels| ensures Links(g, s, 0) != [] {
      LinksFinal(g, t, s);
    }
  }

  lemma InsertLive(k: Skeleton, id: Id, vec: Vec, level: nat)
    requires SkelOk(k) && id !in k.slots
    ensures InsertSkel(k, id, vec, level).live == k.live + 1 && |InsertSkel(k, id, vec, level).ids| == |k.ids| + 1
    ensures InsertSkel(k, id, vec, level).levels == k.levels + [level]
  {
  }

  lemma SkelSameBut(g: State, t: State)
    requires g.nodes == t.nodes && g.data == t.data && g.dead == t.dead && g.slots == t.slots && g.hasEntry == t.hasEntry
    ensures Skel(t) == Skel(g).(live := t.live, maxLevel := t.maxLevel)
  {
  }

  /** The stages of a chunk, as they show in the links. */
  datatype Stages = Stages(legs: seq<seq<Leg>>, found: seq<seq<seq<Cand>>>, forward: State, groups: seq<BackLinks>)

  /**
   Members search the graph as it was before the chunk, pick their own links,
   and every picked edge is added back once, list by list.
   */
  ghost predicate ChunkLinks(before: State, after: State, m: nat, ef: nat, metric: (Vec, Vec) -> real, vecs: seq<Vec>, levels: seq<nat>, base: nat, st: Stages) {
    && |vecs| == |levels| == |st.found| == |st.legs|
    && (forall k :: 0 <= k < |vecs| ==> Searched(before, m, ef, metric, vecs[k], levels[k], st.legs[k], st.found[k]))
    && (forall k, l :: 0 <= k < |vecs| && 0 <= l <= levels[k] ==> Picks(st.forward, m, metric, vecs, levels, base, st.found, k, l))
    && (forall e: (nat, nat, nat) :: e in Edges(st.groups) <==> NewEdge(st.forward, levels, base, e)) && OneGroupEach(st.groups)
    && (forall i :: 0 <= i < |st.groups| ==> Landed(st.forward, after, m, metric, st.groups[i]))
    && (forall s: nat, l: nat :: !OnList(st.groups, s, l) ==> Links(after, s, l) == Links(st.forward, s, l))
  }

  lemma {:induction false} MatesReach(metric: (Vec, Vec) -> real, vecs: seq<Vec>, levels: seq<nat>, base: nat, k: nat, n: nat, l: nat)
    requires |vecs| == |levels| && n <= k < |vecs|
    ensures forall c :: c in Mates(metric, vecs, levels, base, k, n, l) ==> base <= c.id < base + n && levels[c.id - base] >= l
    decreases n
  {
    if n > 0 { MatesReach(metric, vecs, levels, base, k, n - 1, l); }
  }

  /** Levels of a graph that a chunk has been placed in. */
  ghost predicate ChunkLevels(s0: State, t: State, levels: seq<nat>, base: nat) {
    && |s0.nodes| == base && |t.nodes| == base + |levels|
    && (forall s :: 0 <= s < base ==> t.nodes[s].level == s0.nodes[s].level)
    && forall k :: 0 <= k < |levels| ==> t.nodes[base + k].level == levels[k]
  }

  lemma ChunkLevelsFrom(s0: State, t: State, levels: seq<nat>)
    requires LevelsOf(t.nodes) == LevelsOf(s0.nodes) + levels
    ensures ChunkLevels(s0, t, levels, |s0.nodes|)
  {
    var was, now := LevelsOf(s0.nodes), LevelsOf(t.nodes);
    var base := |s0.nodes|;
    hide LevelsOf;
    assert |now| == |t.nodes| && |was| == base;
    forall s | 0 <= s < base ensures t.nodes[s].level == s0.nodes[s].level {
      assert now[s] == was[s];
    }
    forall k | 0 <= k < |levels| ensures t.nodes[base + k].level == levels[k] {
      assert now[base + k] == levels[k];
    }
  }

  /** Picked links reach their layer. */
  lemma PicksReach(s0: State, t: State, m: nat, metric: (Vec, Vec) -> real, vecs: seq<Vec>, levels: seq<nat>, base: nat, found: seq<seq<seq<Cand>>>, k: nat, l: nat, x: nat)
    requires |vecs| == |levels| == |found| && k < |vecs| && ChunkLevels(s0, t, levels, base)
    requires Picks(t, m, metric, vecs, levels, base, found, k, l) && ReachLayers(s0.nodes, found[k]) && x in Links(t, base + k, l)
    ensures x < |t.nodes| && t.nodes[x].level >= l
  {
    hide Links, Chosen, Mates, Sorted;
    var near := if l < |found[k]| then found[k][l] else [];
    var mates := Mates(metric, vecs, levels, base, k, k, l);
    var merged :| Sorted(merged) && multiset(merged) == multiset(near) + multiset(mates)
                  && InData(t.data, merged) && Links(t, base + k, l) == Ids(Chosen(metric, t.data, merged, MaxLinks(m, l)));
    var kept := Chosen(metric, t.data, merged, MaxLinks(m, l));
    var i :| 0 <= i < |kept| && kept[i].id == x;
    assert kept[i] in merged;
    assert kept[i] in multiset(merged);
    MatesReach(metric, vecs, levels, base, k, k, l);
    if kept[i] in near {
      assert ReachAt(s0.nodes, found[k][l], l);
    } else {
      assert kept[i] in mates;
    }
  }

  lemma ForwardExact(s0: State, placed: State, t: State, m: nat, metric: (Vec, Vec) -> real, vecs: seq<Vec>, levels: seq<nat>, base: nat, found: seq<seq<seq<Cand>>>)
    requires |vecs| == |levels| == |found| && ChunkLevels(s0, placed, levels, base) && ChunkLevels(s0, t, levels, base)
    requires ExactLists(placed) && UpLists(placed) && LevelsOf(placed.nodes) == LevelsOf(t.nodes)
    requires forall k :: 0 <= k < |found| ==> ReachLayers(s0.nodes, found[k])
    requires forall k, l :: 0 <= k < |vecs| && 0 <= l <= levels[k] ==> Picks(t, m, metric, vecs, levels, base, found, k, l)
    requires forall s: nat, l: nat :: s < base ==> Links(t, s, l) == Links(placed, s, l)
    requires Tall(placed.nodes, levels, base) ==> SameHeights(placed, t)
    ensures ExactLists(t) && UpLists(t)
  {
    hide Picks, ReachLayers, SameHeights;
    assert Tall(placed.nodes, levels, base);
    HeightsKeepExact(placed, t);
    forall s: nat, l: nat, x: nat | s < |t.nodes| && x in Links(t, s, l) && x < |t.nodes| ensures t.nodes[x].level >= l {
      if s < base {
        assert x in Links(placed, s, l);
      } else if l <= levels[s - base] {
        assert Picks(t, m, metric, vecs, levels, base, found, s - base, l);
        PicksReach(s0, t, m, metric, vecs, levels, base, found, s - base, l, x);
      }
    }
  }

  lemma GroupsReach(t: State, levels: seq<nat>, base: nat, groups: seq<BackLinks>, i: nat, x: nat)
    requires i < |groups| && x in groups[i].from
    requires forall e: (nat, nat, nat) :: e in Edges(groups) <==> NewEdge(t, levels, base, e)
    ensures NewEdge(t, levels, base, (groups[i].to, groups[i].l, x))
  {
    assert (groups[i].to, groups[i].l, x) in Edges(groups);
  }

  lemma GroupsFitExact(s0: State, t: State, levels: seq<nat>, base: nat, groups: seq<BackLinks>)
    requires ExactLists(t) && UpLists(t) && ChunkLevels(s0, t, levels, base) && GoodGroups(groups, |t.nodes|)
    requires forall e: (nat, nat, nat) :: e in Edges(groups) <==> NewEdge(t, levels, base, e)
    ensures GroupsFit(t.nodes, groups)
  {
    hide Edges, Links;
    forall i | 0 <= i < |groups| ensures groups[i].to < |t.nodes| && groups[i].l < |t.nodes[groups[i].to].neighbors| {
      GroupsReach(t, levels, base, groups, i, groups[i].from[0]);
    }
  }

  lemma BackExact(s0: State, t: State, u: State, m: nat, metric: (Vec, Vec) -> real, levels: seq<nat>, base: nat, groups: seq<BackLinks>)
    requires ExactLists(t) && UpLists(t) && ChunkLevels(s0, t, levels, base) && GoodGroups(groups, |t.nodes|) && LevelsOf(t.nodes) == LevelsOf(u.nodes)
    requires forall e: (nat, nat, nat) :: e in Edges(groups) <==> NewEdge(t, levels, base, e)
    requires forall i :: 0 <= i < |groups| ==> Landed(t, u, m, metric, groups[i])
    requires forall s: nat, l: nat :: !OnList(groups, s, l) ==> Links(u, s, l) == Links(t, s, l)
    requires GroupsFit(t.nodes, groups) ==> SameHeights(t, u)
    ensures ExactLists(u) && UpLists(u)
  {
    hide Edges, Links, SameHeights, Relinked, Joined;
    GroupsFitExact(s0, t, levels, base, groups);
    HeightsKeepExact(t, u);
    assert |LevelsOf(t.nodes)| == |t.nodes| && |LevelsOf(u.nodes)| == |u.nodes|;
    forall s | 0 <= s < |u.nodes| ensures u.nodes[s].level == t.nodes[s].level { assert LevelsOf(u.nodes)[s] == LevelsOf(t.nodes)[s]; }
    forall s: nat, l: nat, x: nat | s < |u.nodes| && x in Links(u, s, l) && x < |u.nodes| ensures u.nodes[x].level >= l {
      if OnList(groups, s, l) {
        var i :| 0 <= i < |groups| && groups[i].to == s && groups[i].l == l;
        assert Landed(t, u, m, metric, groups[i]);
        var joined := Joined(Links(t, s, l), groups[i].from);
        RelinkedWithin(metric, t.data, s, joined, MaxLinks(m, l), Links(u, s, l));
        var _ := JoinedIs(Links(t, s, l), groups[i].from);
        if x in groups[i].from { GroupsReach(t, levels, base, groups, i, x); }
      }
    }
  }

  /** The stages of a chunk keep one list per layer and links within their layer. */
  lemma ChunkExact(s0: State, placed: State, forward: State, linked: State, m: nat, metric: (Vec, Vec) -> real, vecs: seq<Vec>, levels: seq<nat>, base: nat, found: seq<seq<seq<Cand>>>, groups: seq<BackLinks>)
    requires |vecs| == |levels| == |found| && base == |s0.nodes| && LevelsOf(placed.nodes) == LevelsOf(s0.nodes) + levels
    requires ExactLists(placed) && UpLists(placed) && Skel(placed) == Skel(forward) == Skel(linked)
    requires forall k :: 0 <= k < |found| ==> ReachLayers(s0.nodes, found[k])
    requires forall k, l :: 0 <= k < |vecs| && 0 <= l <= levels[k] ==> Picks(forward, m, metric, vecs, levels, base, found, k, l)
    requires forall s: nat, l: nat :: s < base ==> Links(forward, s, l) == Links(placed, s, l)
    requires Tall(placed.nodes, levels, base) ==> SameHeights(placed, forward)
    requires GoodGroups(groups, |forward.nodes|)
    requires forall e: (nat, nat, nat) :: e in Edges(groups) <==> NewEdge(forward, levels, base, e)
    requires forall i :: 0 <= i < |groups| ==> Landed(forward, linked, m, metric, groups[i])
    requires forall s: nat, l: nat :: !OnList(groups, s, l) ==> Links(linked, s, l) == Links(forward, s, l)
    requires GroupsFit(forward.nodes, groups) ==> SameHeights(forward, linked)
    ensures ExactLists(linked) && UpLists(linked) && ChunkLevels(s0, linked, levels, base)
  {
    hide ExactLists, UpLists, ReachLayers, Picks, Links, Tall, SameHeights, GoodGroups, Edges, NewEdge, Landed, OnList, GroupsFit, ChunkLevels, Skel;
    LevelsKept(placed, forward);
    LevelsKept(forward, linked);
    ChunkLevelsFrom(s0, placed, levels);
    ChunkLevelsFrom(s0, forward, levels);
    ChunkLevelsFrom(s0, linked, levels);
    ForwardExact(s0, placed, forward, m, metric, vecs, levels, base, found);
    BackExact(s0, forward, linked, m, metric, levels, base, groups);
  }

  lemma LinksCarry(forward: State, t: State, u: State, m: nat, metric: (Vec, Vec) -> real, groups: seq<BackLinks>)
    requires t.nodes == u.nodes && t.links0 == u.links0
    requires forall i :: 0 <= i < |groups| ==> Landed(forward, t, m, metric, groups[i])
    requires forall s: nat, l: nat :: !OnList(groups, s, l) ==> Links(t, s, l) == Links(forward, s, l)
    ensures forall i :: 0 <= i < |groups| ==> Landed(forward, u, m, metric, groups[i])
    ensures forall s: nat, l: nat :: !OnList(groups, s, l) ==> Links(u, s, l) == Links(forward, s, l)
  {
    hide Relinked, Joined, OnList;
    forall s: nat, l: nat ensures Links(t, s, l) == Links(u, s, l) {
    }
    forall i | 0 <= i < |groups| ensures Landed(forward, u, m, metric, groups[i]) {
      assert Landed(forward, t, m, metric, groups[i]);
    }
  }

  /** Every member searches the graph as it was before the chunk. */
  method FindAll(g: Graph, vecs: seq<Vec>, levels: seq<nat>) returns (found: seq<seq<seq<Cand>>>, ghost legs: seq<seq<Leg>>)
    requires g.Valid() && g.hasEntry && |vecs| == |levels|
    ensures |found| == |vecs| == |legs| && forall k :: 0 <= k < |found| ==> GoodLayers(found[k], |g.nodes|)
    ensures forall k :: 0 <= k < |found| ==> |found[k]| == Min(levels[k], g.maxLevel) + 1
    ensures forall k :: 0 <= k < |found| ==> Searched(g.S(), g.m, g.efConstruction, g.metric, vecs[k], levels[k], legs[k], found[k])
    ensures UpLinks(g.S()) ==> forall k :: 0 <= k < |found| ==> ReachLayers(g.nodes, found[k])
  {
    hide LinksOk, SkelOk, GoodLayers, Searched, UpLinks, ReachLayers;
    found, legs := [], [];
    for k := 0 to |vecs|
      invariant |found| == k == |legs| && forall j :: 0 <= j < k ==> GoodLayers(found[j], |g.nodes|)
      invariant forall j :: 0 <= j < k ==> |found[j]| == Min(levels[j], g.maxLevel) + 1
      invariant forall j :: 0 <= j < k ==> Searched(g.S(), g.m, g.efConstruction, g.metric, vecs[j], levels[j], legs[j], found[j])
      invariant UpLinks(g.S()) ==> forall j :: 0 <= j < k ==> ReachLayers(g.nodes, found[j])
    {
      var perLayer, trail := FindCandidates(g, vecs[k], levels[k]);
      found, legs := found + [perLayer], legs + [trail];
    }
  }

  // ---- With nothing deleted, every member finds a link ----

  lemma MemberFinds(g: State, m: nat, ef: nat, metric: (Vec, Vec) -> real, vec: Vec, level: nat, legs: seq<Leg>, perLayer: seq<seq<Cand>>)
    requires Linked(g, m) && NoTombs(g.dead) && m > 0 && ef > 0 && Searched(g, m, ef, metric, vec, level, legs, perLayer)
    ensures |perLayer| > 0 && perLayer[0] != []
  {
    hide LinksOk, SearchExit, Chosen, Descend, Onward, View;
    assert SearchExit(View(g, metric, vec, 0 + 0), legs[0].entry, ef, legs[0].found, legs[0].sets);
    FoundNear(g, m, ef, metric, vec, legs[0]);
    assert Thinned(g, m, metric, 0, legs[0], perLayer[0]);
    ChosenKeepsFirst(metric, g.data, legs[0].found, MaxLinks(m, 0));
  }

  lemma PickedSome(metric: (Vec, Vec) -> real, data: seq<Vec>, near: seq<Cand>, mates: seq<Cand>, cap: nat, ids: seq<nat>)
    requires PickedFrom(metric, data, near, mates, cap, ids) && near != [] && cap > 0
    ensures ids != []
  {
    hide Chosen, Sorted;
    var merged :| Sorted(merged) && multiset(merged) == multiset(near) + multiset(mates)
                  && InData(data, merged) && ids == Ids(Chosen(metric, data, merged, cap));
    assert near[0] in multiset(near);
    assert merged != [] by { assert near[0] in multiset(merged); }
    ChosenKeepsFirst(metric, data, merged, cap);
    assert |ids| == |Chosen(metric, data, merged, cap)|;
  }

  lemma RelinkedSome(metric: (Vec, Vec) -> real, data: seq<Vec>, s: nat, joined: seq<nat>, cap: nat, now: seq<nat>)
    requires Relinked(metric, data, s, joined, cap, now) && joined != [] && cap > 0
    ensures now != []
  {
    hide Sort, Chosen;
    if |joined| > cap {
      var scored := Scored(metric, data, s, joined);
      SortSorts(scored);
      assert |scored| == |joined|;
      assert |multiset(Sort(scored))| == |multiset(scored)|;
      ChosenKeepsFirst(metric, data, Sort(scored), cap);
      assert |now| == |Chosen(metric, data, Sort(scored), cap)|;
    }
  }

  lemma MemberLinked(s0: State, t: State, m: nat, ef: nat, metric: (Vec, Vec) -> real, vecs: seq<Vec>, levels: seq<nat>, base: nat, st: Stages, k: nat)
    requires Linked(s0, m) && NoTombs(s0.dead) && m > 0 && ef > 0 && |vecs| == |levels| == |st.found| == |st.legs| && k < |vecs|
    requires Searched(s0, m, ef, metric, vecs[k], levels[k], st.legs[k], st.found[k])
    requires Picks(t, m, metric, vecs, levels, base, st.found, k, 0)
    ensures Links(t, base + k, 0) != []
  {
    hide LinksOk, Searched, Links, NoTombs, PickedFrom, Mates;
    MemberFinds(s0, m, ef, metric, vecs[k], levels[k], st.legs[k], st.found[k]);
    PickedSome(metric, t.data, st.found[k][0], Mates(metric, vecs, levels, base, k, k, 0), MaxLinks(m, 0), Links(t, base + k, 0));
  }

  /** With nothing deleted, every chunk member ends up with a link at layer 0. */
  lemma ChunkFinds(s0: State, t: State, m: nat, ef: nat, metric: (Vec, Vec) -> real, vecs: seq<Vec>, levels: seq<nat>, base: nat, st: Stages)
    requires Linked(s0, m) && NoTombs(s0.dead) && m > 0 && ef > 0 && ChunkLinks(s0, t, m, ef, metric, vecs, levels, base, st)
    ensures AllLinked(t, base, |levels|)
  {
    hide LinksOk, Searched, Edges, NewEdge, OneGroupEach, Links, NoTombs, Picks, Landed, OnList;
    forall s: nat | base <= s < base + |levels| ensures Links(t, s, 0) != [] {
      var k: nat := s - base;
      assert Searched(s0, m, ef, metric, vecs[k], levels[k], st.legs[k], st.found[k]);
      assert Picks(st.forward, m, metric, vecs, levels, base, st.found, k, 0);
      MemberLinked(s0, st.forward, m, ef, metric, vecs, levels, base, st, k);
      LandedSome(st.forward, t, m, metric, st.groups, s);
    }
  }

  lemma LandedSome(g: State, t: State, m: nat, metric: (Vec, Vec) -> real, groups: seq<BackLinks>, s: nat)
    requires forall i :: 0 <= i < |groups| ==> Landed(g, t, m, metric, groups[i])
    requires forall s: nat, l: nat :: !OnList(groups, s, l) ==> Links(t, s, l) == Links(g, s, l)
    requires Links(g, s, 0) != [] && m > 0
    ensures Links(t, s, 0) != []
  {
    hide Links, Relinked, Joined;
    if OnList(groups, s, 0) {
      var i :| 0 <= i < |groups| && groups[i].to == s && groups[i].l == 0;
      assert Landed(g, t, m, metric, groups[i]);
      var _ := JoinedIs(Links(g, s, 0), groups[i].from);
      RelinkedSome(metric, g.data, s, Joined(Links(g, s, 0), groups[i].from), MaxLinks(m, 0), Links(t, s, 0));
    }
  }

  lemma ChunkEnds(s0: State, k0: Skeleton, linked: State, t: State, ids: seq<Id>, vecs: seq<Vec>, levels: seq<nat>, base: nat)
    requires |ids| == |vecs| == |levels| && SkelOk(k0) && k0.hasEntry && Skel(t) == InsertAllSkel(k0, ids, vecs, levels)
    requires ExactLevels(s0) && s0.hasEntry && s0.maxLevel == k0.maxLevel && linked.entryPoint == s0.entryPoint
    requires ExactLists(linked) && UpLists(linked) && ChunkLevels(s0, linked, levels, base)
    requires linked.nodes == t.nodes && linked.links0 == t.links0 && t.entryPoint < |t.nodes| && AllLinked(t, base, |ids|)
    requires Steady(linked, base, levels, k0.maxLevel) ==> t.nodes[t.entryPoint].level >= t.maxLevel
    ensures ExactLevels(t)
  {
    hide SkelOk, InsertAllSkel, Skel, UpLinks, ExactLists, UpLists, ChunkLevels, Steady, AllLinked;
    InsertAllKeys(k0, ids, vecs, levels);
    SkelFields(t);
    SteadyFrom(s0, linked, t, base, levels);
    SameListsExact(linked, t);
    ExactParts(t);
  }

  /** A chunk of new ids leaves the skeleton that inserting them one by one would. */
  method InsertChunk(g: Graph, ids: seq<Id>, vecs: seq<Vec>, levels: seq<nat>) returns (ghost st: Stages)
    requires |ids| == |vecs| == |levels| && g.Valid() && g.hasEntry && AllNew(g.slots.Keys, ids)
    modifies g
    ensures g.Valid() && Skel(g.S()) == InsertAllSkel(old(Skel(g.S())), ids, vecs, levels)
    ensures ChunkLinks(old(g.S()), g.S(), g.m, g.efConstruction, g.metric, vecs, levels, old(|g.nodes|), st)
    ensures old(ExactLevels(g.S())) && (AllLinked(g.S(), old(|g.nodes|), |ids|) || (NoTombs(old(g.dead)) && g.m > 0)) ==> ExactLevels(g.S())
  {
    hide LinksOk, SkelOk, InsertAllSkel, GoodLayers, Skel, Searched, Picks, NewEdge, Landed, OnList, Links, Edges, OneGroupEach;
    hide UpLinks, UpLists, ExactLists, SameHeights, ReachLayers, AllLinked, NoTombs;
    ghost var s0 := g.S();
    ghost var k0 := Skel(g.S());
    var base := |g.nodes|;
    assert SkelOk(k0) by { InsertFacts(g.S(), g.m, 0, [], 0); }
    SkelFields(g.S());
    var found, legs := FindAll(g, vecs, levels);
    ExactParts(s0);
    PlaceAll(g, ids, vecs, levels);
    ghost var placed := g.S();
    SkelFields(g.S());
    InsertAllSize(k0, ids, vecs, levels);
    LinkForward(g, vecs, levels, base, found);
    SkelFields(g.S());
    ghost var forward := g.S();
    var groups := CollectBackLinks(g, levels, base);
    LinkBackAll(g, groups);
    SkelFields(g.S());
    ghost var linked := g.S();
    if ExactLevels(s0) {
      InsertAllLevels(k0, ids, vecs, levels);
      SkelFields(s0);
      ChunkExact(s0, placed, forward, linked, g.m, g.metric, vecs, levels, base, found, groups);
    }
    CountIn(g, ids, vecs, levels, base, k0);
    LinksCarry(forward, linked, g.S(), g.m, g.metric, groups);
    st := Stages(legs, found, forward, groups);
    if NoTombs(s0.dead) && g.m > 0 {
      ValidIsLinked(s0, g.m);
      ChunkFinds(s0, g.S(), g.m, g.efConstruction, g.metric, vecs, levels, base, st);
    }
    if ExactLevels(s0) && AllLinked(g.S(), base, |ids|) {
      ChunkEnds(s0, k0, linked, g.S(), ids, vecs, levels, base);
    }
    ChunkValid(g.S(), g.m, InsertAllSkel(k0, ids, vecs, levels));
  }

  lemma {:induction false} InsertAllSize(k: Skeleton, ids: seq<Id>, vecs: seq<Vec>, levels: seq<nat>)
    requires |ids| == |vecs| == |levels| && SkelOk(k) && AllNew(k.slots.Keys, ids)
    ensures |InsertAllSkel(k, ids, vecs, levels).ids| == |k.ids| + |ids|
    ensures InsertAllSkel(k, ids, vecs, levels).live == k.live + |ids|
    decreases |ids|
  {
    hide SkelOk, InsertSkel, AllNew;
    if ids != [] {
      var n := |ids| - 1;
      AllNewFront(k.slots.Keys, ids);
      InsertAllSize(k, ids[..n], vecs[..n], levels[..n]);
      InsertAllKeys(k, ids[..n], vecs[..n], levels[..n]);
      InsertLive(InsertAllSkel(k, ids[..n], vecs[..n], levels[..n]), ids[n], vecs[n], levels[n]);
    }
  }

  lemma AllNewFront(keys: set<Id>, ids: seq<Id>)
    requires AllNew(keys, ids) && ids != []
    ensures AllNew(keys, ids[..|ids| - 1])
    ensures ids[|ids| - 1] !in keys && ids[|ids| - 1] !in ids[..|ids| - 1]
  {
  }

  lemma ChunkValid(g: State, m: nat, k: Skeleton)
    requires Linked(g, m) && Skel(g) == k && SkelOk(k) && g.entryPoint < |g.nodes|
    ensures HnswState.Valid(g, m)
  {
  }

  // ---- The batch ----

  lemma {:induction false} InsertAllAppend(k: Skeleton, a: seq<Id>, va: seq<Vec>, la: seq<nat>, b: seq<Id>, vb: seq<Vec>, lb: seq<nat>)
    requires |a| == |va| == |la| && |b| == |vb| == |lb| && SkelOk(k)
    ensures InsertAllSkel(k, a + b, va + vb, la + lb) == InsertAllSkel(InsertAllSkel(k, a, va, la), b, vb, lb)
    decreases |b|
  {
    hide SkelOk, InsertSkel;
    if b == [] {
      assert a + b == a && va + vb == va && la + lb == la;
    } else {
      var n := |b| - 1;
      InsertAllAppend(k, a, va, la, b[..n], vb[..n], lb[..n]);
      assert (a + b)[..|a| + n] == a + b[..n];
      assert (va + vb)[..|a| + n] == va + vb[..n];
      assert (la + lb)[..|a| + n] == la + lb[..n];
    }
  }

  /**
   Inserts a batch on the given number of workers. The result has the slots,
   vectors, levels, counters and top level of inserting the pairs one by one
   in order, for every batch, repeated and already present ids included. If
   the lists differ in length or a vector fails validation nothing changes.
   */
  method InsertBatch(g: Graph, ids: seq<Id>, vecs: seq<Vec>, levels: seq<nat>, workers: nat) returns (ok: bool)
    requires g.Valid() && |levels| == |ids| && workers > 0
    modifies g
    ensures g.Valid()
    ensures ok <==> |ids| == |vecs| && forall i :: 0 <= i < |vecs| ==> g.accepts(vecs[i])
    ensures ok ==> Skel(g.S()) == InsertAllSkel(old(Skel(g.S())), ids, vecs, levels)
    ensures ok ==> LiveMap(Skel(g.S())) == InsertAll(old(LiveMap(Skel(g.S()))), ids, vecs)
    ensures !ok ==> g.S() == old(g.S())
    ensures old(Pristine(g.S(), g.m)) && AllNew(old(g.slots.Keys), ids) ==> Pristine(g.S(), g.m)
  {
    hide LinksOk, SkelOk, InsertSkel, InsertAllSkel, Skel, LiveMap, ExactLevels, NoTombs, AllNew, FoundLink, InsertLinks, ChunkLinks, AllLinked, NextEntry;
    ghost var pristine := Pristine(g.S(), g.m) && AllNew(g.slots.Keys, ids);
    SkelFields(g.S());
    ghost var k0 := Skel(g.S());
    assert SkelOk(k0) by { InsertFacts(g.S(), g.m, 0, [], 0); }
    if |ids| != |vecs| {
      return false;
    }
    for i := 0 to |vecs|
      invariant g.S() == old(g.S())
      invariant forall j :: 0 <= j < i ==> g.accepts(vecs[j])
    {
      if !g.accepts(vecs[i]) {
        return false;
      }
    }
    FrontEnds(k0, ids, vecs, levels);
    var i := 0;
    while i < |ids|
      invariant i <= |ids| && g.Valid() && Skel(g.S()) == Front(k0, ids, vecs, levels, i)
      invariant pristine ==> Pristine(g.S(), g.m)
    {
      SkelFields(g.S());
      var size := Min(Min(MAX_BATCH_CHUNK, |g.nodes| / 8), |ids| - i);
      var fresh' := false;
      if workers != 1 && size >= 2 * workers {
        fresh' := FreshIds(g, ids[i..i + size]);
      }
      if !fresh' {
        FrontStep(k0, ids, vecs, levels, i);
        if pristine { StillNew(k0, ids, vecs, levels, i); }
        InsertAlive(Skel(g.S()), ids[i], vecs[i], levels[i]);
        ghost var _, _ := g.InsertLocked(ids[i], vecs[i], levels[i]);
        SkelFields(g.S());
        i := i + 1;
      } else {
        HasEntry(g.S(), g.m);
        InsertAllAlive(Skel(g.S()), ids[i..i + size], vecs[i..i + size], levels[i..i + size]);
        ghost var _ := InsertChunk(g, ids[i..i + size], vecs[i..i + size], levels[i..i + size]);
        SkelFields(g.S());
        InsertAllAppend(k0, ids[..i], vecs[..i], levels[..i], ids[i..i + size], vecs[i..i + size], levels[i..i + size]);
        assert ids[..i + size] == ids[..i] + ids[i..i + size];
        assert vecs[..i + size] == vecs[..i] + vecs[i..i + size];
        assert levels[..i + size] == levels[..i] + levels[i..i + size];
        i := i + size;
      }
    }
    BatchUpserts(k0, ids, vecs, levels);
    return true;
  }

  /** Exact levels, nothing deleted, and room for links: what fresh inserts keep. */
  ghost predicate Pristine(g: State, m: nat) {
    ExactLevels(g) && NoTombs(g.dead) && m > 0
  }

  lemma EmptyIsPristine(g: State, m: nat)
    requires g.nodes == [] && !g.hasEntry && g.entryPoint == 0 && g.dead == [] && m > 0
    ensures Pristine(g, m)
  {
  }

  lemma InsertAlive(k: Skeleton, id: Id, vec: Vec, level: nat)
    requires SkelOk(k)
    ensures NoTombs(k.dead) ==> NoTombs(InsertSkel(k, id, vec, level).dead)
  {
  }

  lemma {:induction false} InsertAllAlive(k: Skeleton, ids: seq<Id>, vecs: seq<Vec>, levels: seq<nat>)
    requires |ids| == |vecs| == |levels| && SkelOk(k)
    ensures NoTombs(k.dead) ==> NoTombs(InsertAllSkel(k, ids, vecs, levels).dead)
    decreases |ids|
  {
    hide SkelOk, InsertSkel, NoTombs;
    if ids != [] {
      var n := |ids| - 1;
      InsertAllAlive(k, ids[..n], vecs[..n], levels[..n]);
      InsertAlive(InsertAllSkel(k, ids[..n], vecs[..n], levels[..n]), ids[n], vecs[n], levels[n]);
    }
  }

  lemma StillNew(k: Skeleton, ids: seq<Id>, vecs: seq<Vec>, levels: seq<nat>, n: nat)
    requires |ids| == |vecs| == |levels| && SkelOk(k) && n < |ids| && AllNew(k.slots.Keys, ids)
    ensures ids[n] !in Front(k, ids, vecs, levels, n).slots
  {
    InsertAllKeys(k, ids[..n], vecs[..n], levels[..n]);
  }

  lemma HasEntry(g: State, m: nat)
    requires HnswState.Valid(g, m) && |g.nodes| > 0
    ensures g.hasEntry
  {
  }

  // ---- Whole runs ----

  datatype GraphOp = Put(id: Id, vec: Vec, level: nat) | PutAll(ids: seq<Id>, vecs: seq<Vec>, levels: seq<nat>) | Drop(id: Id)

  ghost predicate Accepted(accepts: Vec -> bool, op: GraphOp) {
    match op
    case Put(_, vec, _) => accepts(vec)
    case PutAll(ids, vecs, _) => |ids| == |vecs| && forall i :: 0 <= i < |vecs| ==> accepts(vecs[i])
    case Drop(_) => true
  }

  /** What an operation means for the live vectors. */
  ghost function Meaning(live: map<Id, Vec>, accepts: Vec -> bool, op: GraphOp): map<Id, Vec> {
    if !Accepted(accepts, op) then live
    else match op
      case Put(id, vec, _) => live[id := vec]
      case PutAll(ids, vecs, _) => InsertAll(live, ids, vecs)
      case Drop(id) => live - {id}
  }

  ghost function RunMeaning(live: map<Id, Vec>, accepts: Vec -> bool, ops: seq<GraphOp>): map<Id, Vec> {
    if ops == [] then live else Meaning(RunMeaning(live, accepts, ops[..|ops| - 1]), accepts, ops[|ops| - 1])
  }

  function IdsPut(op: GraphOp): seq<Id> {
    match op
    case Put(id, _, _) => [id]
    case PutAll(ids, _, _) => ids
    case Drop(_) => []
  }

  ghost predicate OnlyDrops(ops: seq<GraphOp>) {
    forall i :: 0 <= i < |ops| ==> ops[i].Drop?
  }

  /** Inserts and batches of ids not seen before, then deletes. */
  ghost predicate FreshRun(keys: set<Id>, accepts: Vec -> bool, ops: seq<GraphOp>)
    decreases |ops|
  {
    if OnlyDrops(ops) then true
    else if Accepted(accepts, ops[0]) then
      !ops[0].Drop? && AllNew(keys, IdsPut(ops[0])) && FreshRun(keys + (set x | x in IdsPut(ops[0])), accepts, ops[1..])
    else FreshRun(keys, accepts, ops[1..])
  }

  /** What such a run keeps between its operations. */
  ghost predicate OnCourse(g: State, m: nat, accepts: Vec -> bool, ops: seq<GraphOp>) {
    ExactLevels(g) && (OnlyDrops(ops) || (Pristine(g, m) && FreshRun(g.slots.Keys, accepts, ops)))
  }

  /** One step of such a run. */
  lemma CourseStep(g: State, t: State, m: nat, accepts: Vec -> bool, ops: seq<GraphOp>)
    requires ops != [] && OnCourse(g, m, accepts, ops)
    requires !Accepted(accepts, ops[0]) ==> g == t
    requires ops[0].Drop? && ExactLevels(g) ==> ExactLevels(t)
    requires Accepted(accepts, ops[0]) && !ops[0].Drop? ==> t.slots.Keys == g.slots.Keys + (set x | x in IdsPut(ops[0]))
    requires Accepted(accepts, ops[0]) && !ops[0].Drop? && Pristine(g, m) && AllNew(g.slots.Keys, IdsPut(ops[0])) ==> Pristine(t, m)
    ensures OnCourse(t, m, accepts, ops[1..])
  {
    hide ExactLevels, NoTombs;
    if OnlyDrops(ops) {
      assert ops[0].Drop? && OnlyDrops(ops[1..]);
    }
  }

  /**
   Over every run the invariants hold and the live vectors are what the
   operations mean. Levels stay exact over inserts and batches of new ids and
   the deletes that follow them.
   */
  method Replay(g: Graph, ops: seq<GraphOp>, workers: nat)
    requires g.Valid() && workers > 0 && forall i :: 0 <= i < |ops| && ops[i].PutAll? ==> |ops[i].levels| == |ops[i].ids|
    modifies g
    ensures g.Valid() && LiveMap(Skel(g.S())) == RunMeaning(old(LiveMap(Skel(g.S()))), g.accepts, ops)
    ensures old(Pristine(g.S(), g.m) && FreshRun(g.slots.Keys, g.accepts, ops)) ==> ExactLevels(g.S())
  {
    hide LinksOk, SkelOk, InsertSkel, DeleteSkel, InsertAllSkel, Skel, LiveMap, InsertAll, ExactLevels, FreshRun, OnlyDrops, NoTombs, OnCourse, AllNew;
    hide InsertLinks, NextEntry, FoundLink;
    ghost var live0 := LiveMap(Skel(g.S()));
    ghost var fresh' := OnCourse(g.S(), g.m, g.accepts, ops);
    assert old(Pristine(g.S(), g.m) && FreshRun(g.slots.Keys, g.accepts, ops)) ==> fresh' by { FirstCourse(g.S(), g.m, g.accepts, ops); }
    assert ops[0..] == ops;
    for i := 0 to |ops|
      invariant g.Valid() && LiveMap(Skel(g.S())) == RunMeaning(live0, g.accepts, ops[..i])
      invariant fresh' ==> OnCourse(g.S(), g.m, g.accepts, ops[i..])
    {
      assert ops[..i + 1][..i] == ops[..i] && ops[i..][1..] == ops[i + 1..] && ops[i..][0] == ops[i];
      ghost var s := g.S();
      assert SkelOk(Skel(s)) by { InsertFacts(s, g.m, 0, [], 0); }
      Step(g, ops[i], workers);
      if fresh' { CourseStep(s, g.S(), g.m, g.accepts, ops[i..]); }
    }
    assert ops[..|ops|] == ops;
    if fresh' { CourseExact(g.S(), g.m, g.accepts, ops[|ops|..]); }
  }

  lemma FirstCourse(g: State, m: nat, accepts: Vec -> bool, ops: seq<GraphOp>)
    ensures Pristine(g, m) && FreshRun(g.slots.Keys, accepts, ops) ==> OnCourse(g, m, accepts, ops)
  {
    hide ExactLevels, FreshRun;
  }

  lemma CourseExact(g: State, m: nat, accepts: Vec -> bool, ops: seq<GraphOp>)
    requires OnCourse(g, m, accepts, ops)
    ensures ExactLevels(g)
  {
  }

  method PutOne(g: Graph, id: Id, vec: Vec, level: nat)
    requires g.Valid() && SkelOk(Skel(g.S()))
    modifies g
    ensures g.Valid() && SkelOk(Skel(g.S()))
    ensures LiveMap(Skel(g.S())) == if g.accepts(vec) then old(LiveMap(Skel(g.S())))[id := vec] else old(LiveMap(Skel(g.S())))
    ensures !g.accepts(vec) ==> g.S() == old(g.S())
    ensures g.accepts(vec) ==> g.slots.Keys == old(g.slots.Keys) + {id}
    ensures g.accepts(vec) && old(Pristine(g.S(), g.m)) && id !in old(g.slots) ==> Pristine(g.S(), g.m)
  {
    hide LinksOk, SkelOk, InsertSkel, Skel, LiveMap, ExactLevels, NoTombs, InsertLinks, NextEntry, FoundLink;
    ghost var k := Skel(g.S());
    SkelFields(g.S());
    InsertUpserts(k, id, vec, level);
    InsertKeys(k, id, vec, level);
    InsertAlive(k, id, vec, level);
    var _, _, _ := g.Insert(id, vec, level);
    SkelFields(g.S());
  }

  /** One operation of a run. */
  method Step(g: Graph, op: GraphOp, workers: nat)
    requires g.Valid() && workers > 0 && (op.PutAll? ==> |op.levels| == |op.ids|) && SkelOk(Skel(g.S()))
    modifies g
    ensures g.Valid() && SkelOk(Skel(g.S())) && LiveMap(Skel(g.S())) == Meaning(old(LiveMap(Skel(g.S()))), g.accepts, op)
    ensures !Accepted(g.accepts, op) ==> g.S() == old(g.S())
    ensures op.Drop? ==> old(ExactLevels(g.S())) ==> ExactLevels(g.S())
    ensures Accepted(g.accepts, op) && !op.Drop? ==> g.slots.Keys == old(g.slots.Keys) + (set x | x in IdsPut(op))
    ensures Accepted(g.accepts, op) && !op.Drop? && old(Pristine(g.S(), g.m)) && AllNew(old(g.slots.Keys), IdsPut(op)) ==> Pristine(g.S(), g.m)
  {
    hide LinksOk, SkelOk, InsertSkel, DeleteSkel, InsertAllSkel, Skel, LiveMap, InsertAll, ExactLevels, NoTombs, InsertLinks, NextEntry, FoundLink;
    ghost var k := Skel(g.S());
    SkelFields(g.S());
    match op {
      case Put(id, vec, level) =>
        assert (set x | x in [id]) == {id};
        assert [id][0] == id;
        PutOne(g, id, vec, level);
      case PutAll(ids, vecs, levels) =>
        if |ids| == |vecs| { InsertAllKeys(k, ids, vecs, levels); }
        var _ := InsertBatch(g, ids, vecs, levels, workers);
      case Drop(id) =>
        DeleteRemoves(k, id);
        var _ := g.Delete(id);
    }
    SkelFields(g.S());
    InsertFacts(g.S(), g.m, 0, [], 0);
  }
}
