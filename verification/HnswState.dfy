/**
 The state of an HNSW graph as a value: nodes in slots, layered links,
 tombstones and the entry point, with the invariants every operation keeps.
 */
module HnswState {
  import opened Beam
  import opened Log

  /** neighbors[l] are the links at layer l for l >= 1; layer 0 lives apart. */
  datatype Node = Node(id: Id, level: nat, neighbors: seq<seq<nat>>)

  datatype State = State(
    nodes: seq<Node>, links0: seq<seq<nat>>, data: seq<Vec>, dead: seq<bool>, slots: map<Id, nat>,
    entryPoint: nat, hasEntry: bool, maxLevel: nat, live: nat)

  function MaxLinks(m: nat, l: nat): nat {
    if l == 0 then 2 * m else m
  }

  // ---- Links ----

  function Links(g: State, s: nat, l: nat): seq<nat> {
    if l == 0 then (if s < |g.links0| then g.links0[s] else [])
    else if s < |g.nodes| && l < |g.nodes[s].neighbors| then g.nodes[s].neighbors[l]
    else []
  }

  function Cut(ids: seq<nat>, n: nat): seq<nat> {
    if |ids| <= n then ids else ids[..n]
  }

  /** A node that is linked above its own top layer gets empty layers in between. */
  function Grown(layers: seq<seq<nat>>, l: nat): (r: seq<seq<nat>>)
    ensures |r| == if |layers| <= l then l + 1 else |layers|
    ensures forall k :: 0 <= k < |r| ==> r[k] == if k < |layers| then layers[k] else []
  {
    if |layers| <= l then layers + seq(l + 1 - |layers|, _ => []) else layers
  }

  function SetLinks(g: State, m: nat, s: nat, l: nat, ids: seq<nat>): State
    requires s < |g.nodes| == |g.links0|
  {
    if l == 0 then g.(links0 := g.links0[s := Cut(ids, 2 * m)])
    else
      var nd := g.nodes[s];
      g.(nodes := g.nodes[s := nd.(neighbors := Grown(nd.neighbors, l)[l := ids])])
  }

  lemma SetLinksFrame(g: State, m: nat, s: nat, l: nat, ids: seq<nat>, s': nat, l': nat)
    requires s < |g.nodes| == |g.links0| && |ids| <= MaxLinks(m, l)
    ensures Links(SetLinks(g, m, s, l, ids), s', l') == if s' == s && l' == l then ids else Links(g, s', l')
  {
  }

  lemma SetLinksHeights(g: State, m: nat, s: nat, l: nat, ids: seq<nat>)
    requires s < |g.nodes| == |g.links0|
    ensures l < |g.nodes[s].neighbors| ==> SameHeights(g, SetLinks(g, m, s, l, ids))
    ensures GrownTo(g, SetLinks(g, m, s, l, ids), l)
  {
  }

  ghost predicate ListOk(ids: seq<nat>, s: nat, n: nat, cap: nat) {
    |ids| <= cap && Distinct(ids) && forall x :: x in ids ==> x < n && x != s
  }

  ghost predicate LinksOk(g: State, m: nat) {
    forall s: nat, l: nat :: s < |g.nodes| ==> ListOk(Links(g, s, l), s, |g.nodes|, MaxLinks(m, l))
  }

  // ---- Levels ----

  /** Links at layer l lead to nodes that reach layer l, and the entry point reaches the top. */
  ghost predicate UpLinks(g: State) {
    && (forall s: nat, l: nat, x: nat :: s < |g.nodes| && x in Links(g, s, l) && x < |g.nodes| ==> g.nodes[x].level >= l)
    && (g.hasEntry ==> g.entryPoint < |g.nodes| && g.nodes[g.entryPoint].level >= g.maxLevel)
    && (!g.hasEntry ==> g.entryPoint == 0)
  }

  /** Every node has exactly one list per layer up to its level, layer 0 kept apart. */
  ghost predicate ExactLists(g: State) {
    forall s :: 0 <= s < |g.nodes| ==> |g.nodes[s].neighbors| == g.nodes[s].level + 1 && g.nodes[s].neighbors[0] == []
  }

  /** No node gained or lost a layer. */
  ghost predicate SameHeights(g: State, t: State) {
    && |g.nodes| == |t.nodes|
    && forall s :: 0 <= s < |g.nodes| ==>
         && |g.nodes[s].neighbors| == |t.nodes[s].neighbors|
         && (g.nodes[s].neighbors != [] ==> g.nodes[s].neighbors[0] == t.nodes[s].neighbors[0])
  }

  /** No node gained a layer above top. */
  ghost predicate GrownTo(g: State, t: State, top: nat) {
    && |g.nodes| == |t.nodes|
    && forall s :: 0 <= s < |g.nodes| ==>
         |t.nodes[s].neighbors| <= |g.nodes[s].neighbors| || |t.nodes[s].neighbors| <= top + 1
  }

  // ---- Everything but the links ----

  /** What a run is determined to produce, whichever neighbours get picked. */
  datatype Skeleton = Skeleton(
    ids: seq<Id>, levels: seq<nat>, data: seq<Vec>, dead: seq<bool>, slots: map<Id, nat>,
    maxLevel: nat, live: nat, hasEntry: bool)

  function IdsOf(nodes: seq<Node>): (r: seq<Id>)
    ensures |r| == |nodes| && forall i :: 0 <= i < |nodes| ==> r[i] == nodes[i].id
  {
    seq(|nodes|, i requires 0 <= i < |nodes| => nodes[i].id)
  }

  function LevelsOf(nodes: seq<Node>): (r: seq<nat>)
    ensures |r| == |nodes| && forall i :: 0 <= i < |nodes| ==> r[i] == nodes[i].level
  {
    seq(|nodes|, i requires 0 <= i < |nodes| => nodes[i].level)
  }

  function Skel(g: State): Skeleton {
    Skeleton(IdsOf(g.nodes), LevelsOf(g.nodes), g.data, g.dead, g.slots, g.maxLevel, g.live, g.hasEntry)
  }

  function CountLive(dead: seq<bool>): nat {
    if dead == [] then 0 else CountLive(dead[..|dead| - 1]) + if dead[|dead| - 1] then 0 else 1
  }

  lemma CountLiveSnoc(dead: seq<bool>, d: bool)
    ensures CountLive(dead + [d]) == CountLive(dead) + if d then 0 else 1
  {
    assert (dead + [d])[..|dead|] == dead;
  }

  lemma {:induction false} CountLiveUpdate(dead: seq<bool>, s: nat, d: bool)
    requires s < |dead|
    ensures CountLive(dead[s := d]) == CountLive(dead) + (if dead[s] then 1 else 0) - (if d then 1 else 0)
    decreases |dead|
  {
    var n := |dead| - 1;
    if s < n {
      CountLiveUpdate(dead[..n], s, d);
      assert dead[s := d][..n] == dead[..n][s := d];
    } else {
      assert dead[s := d][..n] == dead[..n];
    }
  }

  /** Ids and slots are in bijection, and live counts the slots that are not dead. */
  ghost predicate SkelOk(k: Skeleton) {
    && |k.levels| == |k.data| == |k.dead| == |k.ids|
    && (forall s :: 0 <= s < |k.ids| ==> k.ids[s] in k.slots && k.slots[k.ids[s]] == s)
    && (forall id :: id in k.slots ==> k.slots[id] < |k.ids| && k.ids[k.slots[id]] == id)
    && k.live == CountLive(k.dead) && (k.hasEntry <==> k.ids != [])
  }

  ghost predicate Valid(g: State, m: nat) {
    && |g.links0| == |g.nodes| && SkelOk(Skel(g)) && LinksOk(g, m)
    && (g.hasEntry ==> g.entryPoint < |g.nodes|)
  }

  /** The link budget: 2m at layer 0 and m above, and no link to itself or to nowhere. */
  lemma LinkBudget(g: State, m: nat, s: nat, l: nat)
    requires Valid(g, m) && s < |g.nodes|
    ensures |Links(g, s, l)| <= (if l == 0 then m + m else m)
    ensures forall x :: x in Links(g, s, l) ==> x < |g.nodes| && x != s
    ensures forall i, j :: 0 <= i < j < |Links(g, s, l)| ==> Links(g, s, l)[i] != Links(g, s, l)[j]
  {
    hide SkelOk, Links;
    assert ListOk(Links(g, s, l), s, |g.nodes|, MaxLinks(m, l));
  }

  /** Inserting (or replacing) id with the given drawn level. */
  ghost function InsertSkel(k: Skeleton, id: Id, vec: Vec, level: nat): Skeleton
    requires SkelOk(k)
  {
    var top := if !k.hasEntry || level > k.maxLevel then level else k.maxLevel;
    if id in k.slots then
      var s := k.slots[id];
      k.(levels := k.levels[s := level], data := k.data[s := vec], dead := k.dead[s := false],
         live := k.live + (if k.dead[s] then 1 else 0), maxLevel := top, hasEntry := true)
    else
      Skeleton(k.ids + [id], k.levels + [level], k.data + [vec], k.dead + [false], k.slots[id := |k.ids|],
               top, k.live + 1, true)
  }

  ghost function DeleteSkel(k: Skeleton, id: Id): Skeleton
    requires SkelOk(k)
  {
    if id in k.slots && !k.dead[k.slots[id]] then
      LiveMeansCounted(k.dead, k.slots[id]);
      k.(dead := k.dead[k.slots[id] := true], live := k.live - 1)
    else k
  }

  lemma InsertSkelOk(k: Skeleton, id: Id, vec: Vec, level: nat)
    requires SkelOk(k)
    ensures SkelOk(InsertSkel(k, id, vec, level))
  {
    if id in k.slots {
      CountLiveUpdate(k.dead, k.slots[id], false);
    } else {
      CountLiveSnoc(k.dead, false);
    }
  }

  lemma {:induction false} LiveMeansCounted(dead: seq<bool>, s: nat)
    requires s < |dead| && !dead[s]
    ensures CountLive(dead) > 0
    decreases |dead|
  {
    if s < |dead| - 1 { LiveMeansCounted(dead[..|dead| - 1], s); }
  }

  lemma DeleteSkelOk(k: Skeleton, id: Id)
    requires SkelOk(k)
    ensures SkelOk(DeleteSkel(k, id))
  {
    if id in k.slots {
      CountLiveUpdate(k.dead, k.slots[id], true);
    }
  }

  // ---- The map from live id to vector, which is what the engine sees ----

  ghost function LiveMap(k: Skeleton): map<Id, Vec>
    requires SkelOk(k)
  {
    map id | id in k.slots && !k.dead[k.slots[id]] :: k.data[k.slots[id]]
  }

  lemma InsertUpserts(k: Skeleton, id: Id, vec: Vec, level: nat)
    requires SkelOk(k)
    ensures SkelOk(InsertSkel(k, id, vec, level))
    ensures LiveMap(InsertSkel(k, id, vec, level)) == LiveMap(k)[id := vec]
  {
    hide SkelOk, InsertSkel, LiveMap;
    InsertSkelOk(k, id, vec, level);
    var now, want := LiveMap(InsertSkel(k, id, vec, level)), LiveMap(k)[id := vec];
    forall x: Id ensures (x in now <==> x in want) && (x in now ==> now[x] == want[x]) {
      InsertedEntry(k, id, vec, level, x);
    }
    SameMap(now, want);
  }

  lemma SameMap(a: map<Id, Vec>, b: map<Id, Vec>)
    requires forall x: Id :: (x in a <==> x in b) && (x in a ==> a[x] == b[x])
    ensures a == b
  {
  }

  lemma InsertedEntry(k: Skeleton, id: Id, vec: Vec, level: nat, x: Id)
    requires SkelOk(k) && SkelOk(InsertSkel(k, id, vec, level))
    ensures var t := InsertSkel(k, id, vec, level);
            && (x in LiveMap(t) <==> x == id || x in LiveMap(k))
            && (x in LiveMap(t) ==> LiveMap(t)[x] == if x == id then vec else LiveMap(k)[x])
  {
    hide CountLive;
    if id in k.slots {
      ReplacedEntry(k, id, vec, level, x);
    }
  }

  lemma ReplacedEntry(k: Skeleton, id: Id, vec: Vec, level: nat, x: Id)
    requires SkelOk(k) && SkelOk(InsertSkel(k, id, vec, level)) && id in k.slots
    ensures var t := InsertSkel(k, id, vec, level);
            && (x in LiveMap(t) <==> x == id || x in LiveMap(k))
            && (x in LiveMap(t) ==> LiveMap(t)[x] == if x == id then vec else LiveMap(k)[x])
  {
    hide CountLive;
    assert k.ids[k.slots[id]] == id;
    assert x in k.slots ==> k.ids[k.slots[x]] == x;
  }

  lemma DeleteRemoves(k: Skeleton, id: Id)
    requires SkelOk(k)
    ensures SkelOk(DeleteSkel(k, id))
    ensures LiveMap(DeleteSkel(k, id)) == LiveMap(k) - {id}
  {
    DeleteSkelOk(k, id);
    hide CountLive;
    if id in k.slots && !k.dead[k.slots[id]] {
      LiveMeansCounted(k.dead, k.slots[id]);
      forall x | x in k.slots && x != id ensures k.slots[x] != k.slots[id] {
        assert k.ids[k.slots[x]] == x;
      }
    }
  }

  /** A whole batch, in order, each entry with its drawn level. */
  ghost function InsertAllSkel(k: Skeleton, ids: seq<Id>, vecs: seq<Vec>, levels: seq<nat>): (t: Skeleton)
    requires |ids| == |vecs| == |levels| && SkelOk(k)
    ensures SkelOk(t)
    decreases |ids|
  {
    if ids == [] then k
    else
      var n := |ids| - 1;
      var before := InsertAllSkel(k, ids[..n], vecs[..n], levels[..n]);
      InsertSkelOk(before, ids[n], vecs[n], levels[n]);
      InsertSkel(before, ids[n], vecs[n], levels[n])
  }

  lemma InsertAllSnoc(k: Skeleton, ids: seq<Id>, vecs: seq<Vec>, levels: seq<nat>, id: Id, v: Vec, level: nat)
    requires |ids| == |vecs| == |levels| && SkelOk(k)
    ensures InsertAllSkel(k, ids + [id], vecs + [v], levels + [level]) ==
            InsertSkel(InsertAllSkel(k, ids, vecs, levels), id, v, level)
  {
    assert (ids + [id])[..|ids|] == ids && (vecs + [v])[..|ids|] == vecs && (levels + [level])[..|ids|] == levels;
  }

  /** A batch insert does to the live vectors exactly what the engine's log fold says. */
  lemma {:induction false} BatchUpserts(k: Skeleton, ids: seq<Id>, vecs: seq<Vec>, levels: seq<nat>)
    requires |ids| == |vecs| == |levels| && SkelOk(k)
    ensures LiveMap(InsertAllSkel(k, ids, vecs, levels)) == InsertAll(LiveMap(k), ids, vecs)
    decreases |ids|
  {
    if ids != [] {
      var n := |ids| - 1;
      BatchUpserts(k, ids[..n], vecs[..n], levels[..n]);
      InsertUpserts(InsertAllSkel(k, ids[..n], vecs[..n], levels[..n]), ids[n], vecs[n], levels[n]);
    }
  }

  // ---- Link updates ----

  /** The part of the invariant that concerns links only. */
  ghost predicate Linked(g: State, m: nat) {
    |g.links0| == |g.nodes| == |g.data| == |g.dead| && LinksOk(g, m)
  }

  lemma ValidIsLinked(g: State, m: nat)
    requires Valid(g, m)
    ensures Linked(g, m)
  {
  }

  lemma SetLinksKeeps(g: State, m: nat, s: nat, l: nat, ids: seq<nat>)
    requires Linked(g, m) && s < |g.nodes| && ListOk(ids, s, |g.nodes|, MaxLinks(m, l))
    ensures var t := SetLinks(g, m, s, l, ids);
            Linked(t, m) && Skel(t) == Skel(g) && t.entryPoint == g.entryPoint
  {
    hide ListOk;
    var t := SetLinks(g, m, s, l, ids);
    assert |ids| <= MaxLinks(m, l) by { ListSize(ids, s, |g.nodes|, MaxLinks(m, l)); }
    forall s': nat, l': nat | s' < |t.nodes|
      ensures ListOk(Links(t, s', l'), s', |t.nodes|, MaxLinks(m, l'))
    {
      SetLinksFrame(g, m, s, l, ids, s', l');
      assert ListOk(Links(g, s', l'), s', |g.nodes|, MaxLinks(m, l'));
    }
    assert IdsOf(t.nodes) == IdsOf(g.nodes) && LevelsOf(t.nodes) == LevelsOf(g.nodes);
  }

  lemma ListSize(ids: seq<nat>, s: nat, n: nat, cap: nat)
    requires ListOk(ids, s, n, cap)
    ensures |ids| <= cap
  {
  }

  /** Storing a node with its staged links, new or over the old one under the same id. */
  function Placed(g: State, m: nat, id: Id, level: nat, staged: seq<seq<nat>>, vec: Vec): (t: State)
    requires |staged| == level + 1 && |g.links0| == |g.nodes| == |g.data| == |g.dead|
    requires id in g.slots ==> g.slots[id] < |g.nodes|
    ensures t.live == g.live && t.maxLevel == g.maxLevel && t.hasEntry == g.hasEntry && t.entryPoint == g.entryPoint
  {
    var nd := Node(id, level, staged[0 := []]);
    if id in g.slots then
      var s := g.slots[id];
      g.(nodes := g.nodes[s := nd], data := g.data[s := vec], dead := g.dead[s := false],
         links0 := g.links0[s := Cut(staged[0], 2 * m)])
    else
      g.(nodes := g.nodes + [nd], data := g.data + [vec], dead := g.dead + [false],
         links0 := g.links0 + [Cut(staged[0], 2 * m)], slots := g.slots[id := |g.nodes|])
  }

  function SlotFor(g: State, id: Id): nat {
    if id in g.slots then g.slots[id] else |g.nodes|
  }

  lemma ListOkMore(ids: seq<nat>, s: nat, n: nat, n': nat, cap: nat)
    requires ListOk(ids, s, n, cap) && n <= n'
    ensures ListOk(ids, s, n', cap)
  {
  }

  lemma PlacedLinks(g: State, m: nat, id: Id, level: nat, staged: seq<seq<nat>>, vec: Vec, s: nat, l: nat)
    requires |staged| == level + 1 && Linked(g, m) && (id in g.slots ==> g.slots[id] < |g.nodes|)
    requires |staged[0]| <= 2 * m && s < |Placed(g, m, id, level, staged, vec).nodes|
    ensures Links(Placed(g, m, id, level, staged, vec), s, l) ==
            if s == SlotFor(g, id) then (if l < |staged| then staged[l] else []) else Links(g, s, l)
  {
  }

  lemma PlacedKeepsLinks(g: State, m: nat, id: Id, level: nat, staged: seq<seq<nat>>, vec: Vec)
    requires |staged| == level + 1 && Linked(g, m) && (id in g.slots ==> g.slots[id] < |g.nodes|)
    requires forall l :: 0 <= l <= level ==> ListOk(staged[l], SlotFor(g, id), |g.nodes|, MaxLinks(m, l))
    ensures Linked(Placed(g, m, id, level, staged, vec), m)
  {
    hide ListOk;
    var t := Placed(g, m, id, level, staged, vec);
    var slot := SlotFor(g, id);
    ListSize(staged[0], slot, |g.nodes|, 2 * m);
    forall s: nat, l: nat | s < |t.nodes| ensures ListOk(Links(t, s, l), s, |t.nodes|, MaxLinks(m, l)) {
      PlacedLinks(g, m, id, level, staged, vec, s, l);
      if s != slot {
        ListOkMore(Links(g, s, l), s, |g.nodes|, |t.nodes|, MaxLinks(m, l));
      } else if l < |staged| {
        ListOkMore(staged[l], s, |g.nodes|, |t.nodes|, MaxLinks(m, l));
      } else {
        NoLinks(s, |t.nodes|, MaxLinks(m, l));
      }
    }
  }

  lemma NoLinks(s: nat, n: nat, cap: nat)
    ensures ListOk([], s, n, cap)
  {
  }

  /** Apart from the counters, placing is the skeleton insert. */
  lemma PlacedSkel(g: State, m: nat, id: Id, level: nat, staged: seq<seq<nat>>, vec: Vec)
    requires |staged| == level + 1 && Linked(g, m) && SkelOk(Skel(g))
    ensures var k := InsertSkel(Skel(g), id, vec, level);
            Skel(Placed(g, m, id, level, staged, vec)) == k.(live := g.live, maxLevel := g.maxLevel, hasEntry := g.hasEntry)
  {
    var t := Placed(g, m, id, level, staged, vec);
    var k := InsertSkel(Skel(g), id, vec, level);
    assert IdsOf(t.nodes) == k.ids;
    assert LevelsOf(t.nodes) == k.levels;
  }

  // ---- A layer as the search sees it ----

  function View(g: State, metric: (Vec, Vec) -> real, q: Vec, l: nat): (v: Layer)
    ensures |v.links| == |g.nodes| && v.dead == g.dead
  {
    Layer(seq(|g.nodes|, s requires 0 <= s < |g.nodes| => Links(g, s, l)), g.dead,
          (s: nat) => if s < |g.data| then metric(q, g.data[s]) else 0.0)
  }

  lemma ViewWellFormed(g: State, m: nat, metric: (Vec, Vec) -> real, q: Vec, l: nat)
    requires Linked(g, m)
    ensures WellFormed(View(g, metric, q, l))
  {
    var v := View(g, metric, q, l);
    forall s, k | 0 <= s < |v.links| && 0 <= k < |v.links[s]| ensures v.links[s][k] < |v.links| {
      assert ListOk(Links(g, s, l), s, |g.nodes|, MaxLinks(m, l));
      assert v.links[s][k] in Links(g, s, l);
    }
  }
}
