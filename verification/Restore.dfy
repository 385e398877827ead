/**
 Taking a graph apart into exported nodes and putting it together again, which
 is what a snapshot stores and what loading one does.
 */
module Restore {
  import opened Bytes
  import opened Hnsw
  import opened HnswState
  import opened Log

  /** A node with its links named by id instead of by slot. */
  datatype NodeState = NodeState(id: Id, vector: Vec, level: nat, neighbors: seq<seq<Id>>, deleted: bool)

  // ---- Export ----

  function IdList(nodes: seq<Node>, list: seq<nat>): (r: seq<Id>)
    requires forall i :: 0 <= i < |list| ==> list[i] < |nodes|
    ensures |r| == |list| && forall i :: 0 <= i < |list| ==> r[i] == nodes[list[i]].id
  {
    seq(|list|, i requires 0 <= i < |list| => nodes[list[i]].id)
  }

  ghost predicate InRange(g: State) {
    && |g.links0| == |g.data| == |g.dead| == |g.nodes|
    && forall s: nat, l: nat, i: nat :: s < |g.nodes| && i < |Links(g, s, l)| ==> Links(g, s, l)[i] < |g.nodes|
  }

  lemma LinkedInRange(g: State, m: nat)
    requires Linked(g, m)
    ensures InRange(g)
  {
    forall s: nat, l: nat, i: nat | s < |g.nodes| && i < |Links(g, s, l)| ensures Links(g, s, l)[i] < |g.nodes| {
      assert ListOk(Links(g, s, l), s, |g.nodes|, MaxLinks(m, l));
      assert Links(g, s, l)[i] in Links(g, s, l);
    }
  }

  ghost function Exported(g: State, s: nat): (ns: NodeState)
    requires InRange(g) && s < |g.nodes|
  {
    var nd := g.nodes[s];
    NodeState(nd.id, g.data[s], nd.level,
              seq(|nd.neighbors|, l requires 0 <= l < |nd.neighbors| => IdList(g.nodes, Links(g, s, l))), g.dead[s])
  }

  ghost function ExportAll(g: State): (r: seq<NodeState>)
    requires InRange(g)
    ensures |r| == |g.nodes| && forall s :: 0 <= s < |r| ==> r[s] == Exported(g, s)
  {
    seq(|g.nodes|, s requires 0 <= s < |g.nodes| => Exported(g, s))
  }

  /** Copies out every node, with slot numbers turned into ids. */
  method Snapshot(g: Graph) returns (nodes: seq<NodeState>, entry: Id)
    requires g.Valid()
    ensures InRange(g.S()) && nodes == ExportAll(g.S())
    ensures entry == if g.hasEntry then g.nodes[g.entryPoint].id else 0
  {
    hide LinksOk, SkelOk;
    ValidIsLinked(g.S(), g.m);
    LinkedInRange(g.S(), g.m);
    nodes := [];
    for slot := 0 to |g.nodes|
      invariant |nodes| == slot && forall s :: 0 <= s < slot ==> nodes[s] == Exported(g.S(), s)
    {
      var neighbors: seq<seq<Id>> := [];
      for l := 0 to |g.nodes[slot].neighbors|
        invariant |neighbors| == l
        invariant forall k :: 0 <= k < l ==> neighbors[k] == IdList(g.nodes, Links(g.S(), slot, k))
      {
        var list := Links(g.S(), slot, l);
        var ids: seq<Id> := [];
        for i := 0 to |list|
          invariant |ids| == i && forall j :: 0 <= j < i ==> ids[j] == g.nodes[list[j]].id
        {
          ids := ids + [g.nodes[list[i]].id];
        }
        assert ids == IdList(g.nodes, list);
        neighbors := neighbors + [ids];
      }
      assert neighbors == Exported(g.S(), slot).neighbors;
      nodes := nodes + [NodeState(g.nodes[slot].id, g.data[slot], g.nodes[slot].level, neighbors, g.dead[slot])];
    }
    entry := if g.hasEntry then g.nodes[g.entryPoint].id else 0;
  }

  // ---- Restore ----

  ghost predicate NoRepeats(ids: seq<Id>) {
    forall i, j :: 0 <= i < j < |ids| ==> ids[i] != ids[j]
  }

  /** The i-th id goes to slot i. */
  function SlotMap(ids: seq<Id>): map<Id, nat> {
    if ids == [] then map[] else SlotMap(ids[..|ids| - 1])[ids[|ids| - 1] := |ids| - 1]
  }

  lemma {:induction false} SlotMapInverts(ids: seq<Id>)
    requires NoRepeats(ids)
    ensures forall id :: id in SlotMap(ids) ==> SlotMap(ids)[id] < |ids| && ids[SlotMap(ids)[id]] == id
    ensures forall i :: 0 <= i < |ids| ==> ids[i] in SlotMap(ids) && SlotMap(ids)[ids[i]] == i
    ensures |SlotMap(ids)| == |ids|
  {
    if ids != [] {
      var front := ids[..|ids| - 1];
      SlotMapInverts(front);
      assert forall i :: 0 <= i < |front| ==> front[i] == ids[i];
      assert ids[|ids| - 1] !in SlotMap(front);
    }
  }

  /** A layer's ids are known, are not the node itself, and do not repeat. */
  ghost predicate LayerFits(slots: map<Id, nat>, slot: nat, ids: seq<Id>) {
    && (forall i :: 0 <= i < |ids| ==> ids[i] in slots && slots[ids[i]] != slot)
    && forall i, j :: 0 <= i < j < |ids| ==> slots[ids[i]] != slots[ids[j]]
  }

  function ToSlots(slots: map<Id, nat>, ids: seq<Id>): (r: seq<nat>)
    requires forall i :: 0 <= i < |ids| ==> ids[i] in slots
    ensures |r| == |ids| && forall i :: 0 <= i < |ids| ==> r[i] == slots[ids[i]]
  {
    seq(|ids|, i requires 0 <= i < |ids| => slots[ids[i]])
  }

  ghost predicate NodeFits(slots: map<Id, nat>, slot: nat, dim: nat, ns: NodeState) {
    && ns.id in slots && slots[ns.id] == slot
    && |ns.neighbors| == ns.level + 1 && |ns.vector| == dim
    && forall l :: 0 <= l < |ns.neighbors| ==> LayerFits(slots, slot, ns.neighbors[l])
  }

  ghost function Lists(slots: map<Id, nat>, slot: nat, ns: NodeState): (r: seq<seq<nat>>)
    requires forall l :: 0 <= l < |ns.neighbors| ==> LayerFits(slots, slot, ns.neighbors[l])
    ensures |r| == |ns.neighbors|
    ensures forall l :: 0 <= l < |r| ==> LayerFits(slots, slot, ns.neighbors[l]) && r[l] == ToSlots(slots, ns.neighbors[l])
  {
    seq(|ns.neighbors|, l requires 0 <= l < |ns.neighbors| =>
      assert LayerFits(slots, slot, ns.neighbors[l]); ToSlots(slots, ns.neighbors[l]))
  }

  ghost function Restored(g: State, m: nat, dim: nat, ns: NodeState): State
    requires NodeFits(g.slots, |g.nodes|, dim, ns)
  {
    var lists := Lists(g.slots, |g.nodes|, ns);
    g.(nodes := g.nodes + [Node(ns.id, ns.level, lists[0 := []])], links0 := g.links0 + [Cut(lists[0], 2 * m)],
       data := g.data + [ns.vector], dead := g.dead + [ns.deleted], live := g.live + if ns.deleted then 0 else 1)
  }

  ghost function RestoreAll(g: State, m: nat, dim: nat, nodes: seq<NodeState>): Option<State>
    decreases |nodes|
  {
    if nodes == [] then Some(g)
    else if NodeFits(g.slots, |g.nodes|, dim, nodes[0]) then RestoreAll(Restored(g, m, dim, nodes[0]), m, dim, nodes[1..])
    else None
  }

  function IdsIn(nodes: seq<NodeState>): (r: seq<Id>)
    ensures |r| == |nodes| && forall i :: 0 <= i < |r| ==> r[i] == nodes[i].id
  {
    seq(|nodes|, i requires 0 <= i < |nodes| => nodes[i].id)
  }

  ghost function Started(ids: seq<Id>): State {
    State([], [], [], [], SlotMap(ids), 0, false, 0, 0)
  }

  ghost function Ended(g: State, entry: Id, maxLevel: nat, hasEntry: bool): Option<State> {
    if |g.nodes| != |g.slots| || (hasEntry && entry !in g.slots) then None
    else Some(g.(entryPoint := if hasEntry then g.slots[entry] else g.entryPoint, maxLevel := maxLevel, hasEntry := hasEntry))
  }

  /** A whole restore: all ids first, then node by node, then the entry point. */
  ghost function Rebuilt(m: nat, dim: nat, nodes: seq<NodeState>, entry: Id, maxLevel: nat, hasEntry: bool): Option<State> {
    if !NoRepeats(IdsIn(nodes)) then None
    else match RestoreAll(Started(IdsIn(nodes)), m, dim, nodes)
      case None => None
      case Some(g) => Ended(g, entry, maxLevel, hasEntry)
  }

  // ---- Restoring an export gives the graph back ----

  /** What a restored graph looks like. */
  ghost predicate Shaped(g: State) {
    ExactLists(g) && (!g.hasEntry ==> g.entryPoint == 0)
  }

  ghost predicate Dimensioned(g: State, dim: nat) {
    forall s :: 0 <= s < |g.data| ==> |g.data[s]| == dim
  }

  ghost function Front(g: State, k: nat): State
    requires k <= |g.nodes| == |g.links0| == |g.data| == |g.dead|
  {
    State(g.nodes[..k], g.links0[..k], g.data[..k], g.dead[..k], g.slots, 0, false, 0, CountLive(g.dead[..k]))
  }

  lemma ListsBack(g: State, m: nat, s: nat, l: nat)
    requires HnswState.Valid(g, m) && InRange(g) && s < |g.nodes|
    ensures var ids := IdList(g.nodes, Links(g, s, l));
            LayerFits(g.slots, s, ids) && ToSlots(g.slots, ids) == Links(g, s, l)
  {
    var list := Links(g, s, l);
    assert ListOk(list, s, |g.nodes|, MaxLinks(m, l));
    forall i | 0 <= i < |list| ensures g.nodes[list[i]].id in g.slots && g.slots[g.nodes[list[i]].id] == list[i] {
      assert Skel(g).ids[list[i]] == g.nodes[list[i]].id;
    }
    forall i | 0 <= i < |list| ensures list[i] != s {
      assert list[i] in list;
    }
  }

  lemma ExportFits(g: State, m: nat, dim: nat, k: nat)
    requires HnswState.Valid(g, m) && InRange(g) && Shaped(g) && Dimensioned(g, dim) && k < |g.nodes|
    ensures NodeFits(g.slots, k, dim, Exported(g, k))
    ensures forall l :: 0 <= l <= g.nodes[k].level ==> Lists(g.slots, k, Exported(g, k))[l] == Links(g, k, l)
  {
    hide LayerFits, LinksOk, CountLive;
    var ns := Exported(g, k);
    forall l | 0 <= l < |ns.neighbors|
      ensures LayerFits(g.slots, k, ns.neighbors[l])
    {
      ListsBack(g, m, k, l);
    }
    assert Skel(g).ids[k] == g.nodes[k].id;
    forall l | 0 <= l <= g.nodes[k].level ensures Lists(g.slots, k, ns)[l] == Links(g, k, l) {
      ListsBack(g, m, k, l);
    }
  }

  lemma StepBack(g: State, m: nat, dim: nat, k: nat)
    requires HnswState.Valid(g, m) && InRange(g) && Shaped(g) && Dimensioned(g, dim) && k < |g.nodes|
    ensures NodeFits(g.slots, k, dim, Exported(g, k))
    ensures Restored(Front(g, k), m, dim, Exported(g, k)) == Front(g, k + 1)
  {
    hide LayerFits, HnswState.Valid, CountLive, InRange, Dimensioned, NodeFits;
    InRangeSizes(g);
    ExportFits(g, m, dim, k);
    FitsCap(g, m, k);
    var lists := Lists(g.slots, k, Exported(g, k));
    assert lists[0 := []] == g.nodes[k].neighbors;
    assert g.nodes[..k + 1] == g.nodes[..k] + [g.nodes[k]];
    assert g.links0[..k + 1] == g.links0[..k] + [g.links0[k]];
    assert g.data[..k + 1] == g.data[..k] + [g.data[k]];
    assert g.dead[..k + 1] == g.dead[..k] + [g.dead[k]];
    CountLiveSnoc(g.dead[..k], g.dead[k]);
  }

  lemma FitsCap(g: State, m: nat, s: nat)
    requires HnswState.Valid(g, m) && s < |g.nodes|
    ensures |Links(g, s, 0)| <= 2 * m
  {
    assert ListOk(Links(g, s, 0), s, |g.nodes|, MaxLinks(m, 0));
  }

  lemma {:induction false} RestoreFrom(g: State, m: nat, dim: nat, k: nat)
    requires HnswState.Valid(g, m) && InRange(g) && Shaped(g) && Dimensioned(g, dim) && k <= |g.nodes|
    ensures RestoreAll(Front(g, k), m, dim, ExportAll(g)[k..]) == Some(Front(g, |g.nodes|))
    decreases |g.nodes| - k
  {
    hide HnswState.Valid, InRange, Shaped, Dimensioned, NodeFits, Restored, Exported;
    assert |g.links0| == |g.nodes| == |g.data| == |g.dead| by { InRangeSizes(g); }
    if k < |g.nodes| {
      StepBack(g, m, dim, k);
      RestoreFrom(g, m, dim, k + 1);
      assert ExportAll(g)[k..][1..] == ExportAll(g)[k + 1..];
    }
  }

  lemma InRangeSizes(g: State)
    requires InRange(g)
    ensures |g.links0| == |g.nodes| == |g.data| == |g.dead|
  {
  }

  lemma SlotMapOf(k: Skeleton)
    requires SkelOk(k)
    ensures NoRepeats(k.ids) && SlotMap(k.ids) == k.slots && |k.slots| == |k.ids|
  {
    hide CountLive, SlotMap;
    assert NoRepeats(k.ids);
    SlotMapInverts(k.ids);
    assert forall id :: id in SlotMap(k.ids) <==> id in k.slots;
  }

  lemma SlotMapIs(g: State, m: nat)
    requires HnswState.Valid(g, m) && InRange(g)
    ensures NoRepeats(IdsIn(ExportAll(g))) && SlotMap(IdsIn(ExportAll(g))) == g.slots && |g.slots| == |g.nodes|
  {
    hide LinksOk, SkelOk, SlotMap, NoRepeats;
    assert IdsIn(ExportAll(g)) == Skel(g).ids;
    SlotMapOf(Skel(g));
  }

  lemma WholeFront(g: State, m: nat)
    requires HnswState.Valid(g, m) && InRange(g) && Shaped(g)
    ensures Front(g, |g.nodes|) == g.(entryPoint := 0, hasEntry := false, maxLevel := 0)
    ensures g.hasEntry ==> g.nodes[g.entryPoint].id in g.slots && g.slots[g.nodes[g.entryPoint].id] == g.entryPoint
    ensures !g.hasEntry ==> g.entryPoint == 0
  {
    hide LinksOk, CountLive;
    var n := |g.nodes|;
    assert g.nodes[..n] == g.nodes && g.links0[..n] == g.links0 && g.data[..n] == g.data && g.dead[..n] == g.dead;
    if g.hasEntry { assert Skel(g).ids[g.entryPoint] == g.nodes[g.entryPoint].id; }
  }

  /** Export then restore is the identity on every graph whose nodes have one list per layer. */
  lemma RestoreExport(g: State, m: nat, dim: nat)
    requires HnswState.Valid(g, m) && InRange(g) && Shaped(g) && Dimensioned(g, dim)
    ensures Rebuilt(m, dim, ExportAll(g), if g.hasEntry then g.nodes[g.entryPoint].id else 0, g.maxLevel, g.hasEntry) == Some(g)
  {
    hide HnswState.Valid, InRange, Shaped, Dimensioned, NodeFits, Restored, Exported, RestoreAll, NoRepeats, SlotMap;
    InRangeSizes(g);
    SlotMapIs(g, m);
    RestoreFrom(g, m, dim, 0);
    assert Front(g, 0) == Started(IdsIn(ExportAll(g)));
    assert ExportAll(g)[0..] == ExportAll(g);
    WholeFront(g, m);
  }

  // ---- Whatever a restore accepts is well formed ----

  /** Existing slots, no self-link, no repeat; layer 0 within its cap. */
  ghost predicate SoundLinks(g: State, m: nat, n: nat) {
    forall s: nat, l: nat :: s < |g.nodes| ==>
      var list := Links(g, s, l);
      ListOk(list, s, n, if l == 0 then 2 * m else |list|)
  }

  ghost predicate Partial(g: State, m: nat, ids: seq<Id>) {
    && |g.nodes| <= |ids| && |g.links0| == |g.nodes| == |g.data| == |g.dead|
    && g.slots == SlotMap(ids) && NoRepeats(ids) && g.live == CountLive(g.dead)
    && (forall s :: 0 <= s < |g.nodes| ==> g.nodes[s].id == ids[s] && |g.nodes[s].neighbors| == g.nodes[s].level + 1)
    && SoundLinks(g, m, |ids|)
  }

  lemma StepSound(g: State, m: nat, dim: nat, ids: seq<Id>, ns: NodeState)
    requires Partial(g, m, ids) && NodeFits(g.slots, |g.nodes|, dim, ns)
    ensures Partial(Restored(g, m, dim, ns), m, ids)
    ensures |Restored(g, m, dim, ns).nodes| == |g.nodes| + 1
  {
    hide CountLive, SlotMap, LayerFits, ListOk;
    SlotMapInverts(ids);
    CountLiveSnoc(g.dead, ns.deleted);
    var t := Restored(g, m, dim, ns);
    var slot := |g.nodes|;
    var lists := Lists(g.slots, slot, ns);
    forall s: nat, l: nat | s < |t.nodes|
      ensures var list := Links(t, s, l); ListOk(list, s, |ids|, if l == 0 then 2 * m else |list|)
    {
      if s < slot {
        assert Links(t, s, l) == Links(g, s, l);
      } else if l < |lists| {
        assert Links(t, s, l) == if l == 0 then Cut(lists[0], 2 * m) else lists[l];
        ListSound(g.slots, slot, ns.neighbors[l], ids, m);
      } else {
        NoLinks(s, |ids|, 2 * m);
        NoLinks(s, |ids|, 0);
      }
    }
  }

  lemma ListSound(slots: map<Id, nat>, slot: nat, layer: seq<Id>, ids: seq<Id>, m: nat)
    requires LayerFits(slots, slot, layer) && forall id :: id in slots ==> slots[id] < |ids|
    ensures AllKnown(slots, layer)
    ensures var list := ToSlots(slots, layer); ListOk(list, slot, |ids|, |list|) && ListOk(Cut(list, 2 * m), slot, |ids|, 2 * m)
  {
  }

  lemma {:induction false} RestoreAllSound(g: State, m: nat, dim: nat, ids: seq<Id>, nodes: seq<NodeState>)
    requires Partial(g, m, ids) && RestoreAll(g, m, dim, nodes).Some?
    ensures Partial(RestoreAll(g, m, dim, nodes).value, m, ids)
    ensures |RestoreAll(g, m, dim, nodes).value.nodes| == |g.nodes| + |nodes|
    decreases |nodes|
  {
    hide Partial, NodeFits, Restored;
    if nodes != [] {
      StepSound(g, m, dim, ids, nodes[0]);
      RestoreAllSound(Restored(g, m, dim, nodes[0]), m, dim, ids, nodes[1..]);
    }
  }

  /**
   Whatever nodes are offered, an accepted restore has ids and slots in
   bijection, an exact live count, one list per layer, and sound links. Nodes
   without an entry point are accepted too, and that is all that can be amiss.
   */
  lemma RebuiltIsSound(m: nat, dim: nat, nodes: seq<NodeState>, entry: Id, maxLevel: nat, hasEntry: bool)
    requires Rebuilt(m, dim, nodes, entry, maxLevel, hasEntry).Some?
    ensures var g := Rebuilt(m, dim, nodes, entry, maxLevel, hasEntry).value;
            && SkelOk(Skel(g).(hasEntry := nodes != [])) && g.hasEntry == hasEntry
            && (SkelOk(Skel(g)) <==> (nodes != [] ==> hasEntry)) && SoundLinks(g, m, |g.nodes|) && |g.links0| == |g.nodes| == |nodes|
            && (g.hasEntry ==> g.entryPoint < |g.nodes|)
            && forall s :: 0 <= s < |g.nodes| ==> |g.nodes[s].neighbors| == g.nodes[s].level + 1
  {
    hide SoundLinks, RestoreAll, SkelOk, Skel, SlotMap;
    var ids := IdsIn(nodes);
    NothingYet(m, ids);
    RestoreAllSound(Started(ids), m, dim, ids, nodes);
    var g := RestoreAll(Started(ids), m, dim, nodes).value;
    var t := Rebuilt(m, dim, nodes, entry, maxLevel, hasEntry).value;
    SameLists(g, t, m);
    PartialSkel(g, t, m, ids);
    SkelEntry(Skel(t));
    SkelFields(t);
    if hasEntry { SlotMapInverts(ids); }
  }

  /** A restore of all ids, entry point apart. */
  lemma PartialSkel(g: State, t: State, m: nat, ids: seq<Id>)
    requires Partial(g, m, ids) && |g.nodes| == |ids|
    requires t == g.(entryPoint := t.entryPoint, maxLevel := t.maxLevel, hasEntry := t.hasEntry)
    ensures SkelOk(Skel(t).(hasEntry := ids != [])) && |Skel(t).ids| == |ids|
  {
    hide SoundLinks, SlotMap, CountLive;
    SlotMapInverts(ids);
    assert Skel(t).ids == ids;
  }

  lemma SkelEntry(k: Skeleton)
    requires SkelOk(k.(hasEntry := k.ids != []))
    ensures SkelOk(k) <==> (k.hasEntry <==> k.ids != [])
  {
    hide CountLive;
  }

  /** Nodes keep their place and level. */
  lemma {:induction false} RestoreAllLevels(g: State, m: nat, dim: nat, nodes: seq<NodeState>)
    requires RestoreAll(g, m, dim, nodes).Some?
    ensures var t := RestoreAll(g, m, dim, nodes).value;
            && |t.nodes| == |g.nodes| + |nodes| && t.nodes[..|g.nodes|] == g.nodes
            && forall i :: 0 <= i < |nodes| ==> t.nodes[|g.nodes| + i].level == nodes[i].level
    decreases |nodes|
  {
    hide NodeFits;
    if nodes != [] {
      var g' := Restored(g, m, dim, nodes[0]);
      RestoreAllLevels(g', m, dim, nodes[1..]);
      var t := RestoreAll(g, m, dim, nodes).value;
      assert t.nodes[|g.nodes|] == t.nodes[..|g'.nodes|][|g.nodes|];
      assert t.nodes[..|g.nodes|] == t.nodes[..|g'.nodes|][..|g.nodes|];
      forall i | 0 <= i < |nodes| ensures t.nodes[|g.nodes| + i].level == nodes[i].level {
        if i > 0 { assert t.nodes[|g'.nodes| + (i - 1)].level == nodes[1..][i - 1].level; }
      }
    }
  }

  lemma NothingYet(m: nat, ids: seq<Id>)
    requires NoRepeats(ids)
    ensures Partial(Started(ids), m, ids)
  {
  }

  lemma SameLists(g: State, t: State, m: nat)
    requires g.nodes == t.nodes && g.links0 == t.links0 && SoundLinks(g, m, |g.nodes|)
    ensures SoundLinks(t, m, |t.nodes|)
  {
    forall s: nat, l: nat | s < |t.nodes|
      ensures var list := Links(t, s, l); ListOk(list, s, |t.nodes|, if l == 0 then 2 * m else |list|)
    {
      assert Links(g, s, l) == Links(t, s, l);
    }
  }

  // ---- The code that restores ----

  /** restoreMark and restoreStamp: a slot is in the current list when its mark is the current stamp. */
  class Marks {
    var mark: seq<nat>
    var stamp: nat

    constructor (n: nat)
      ensures Valid() && |mark| == n
    {
      mark, stamp := seq(n, _ => 0), 0;
    }

    ghost predicate Valid()
      reads this
    {
      forall s :: 0 <= s < |mark| ==> mark[s] <= stamp
    }
  }

  method BeginRestore(g: Graph, ids: seq<Id>) returns (ok: bool)
    requires g.S() == Started([])
    modifies g
    ensures ok <==> NoRepeats(ids)
    ensures ok ==> g.S() == Started(ids)
  {
    hide NoRepeats, SlotMap;
    NoRepeatsYet();
    for i := 0 to |ids|
      invariant NoRepeats(ids[..i]) && g.S() == Started(ids[..i])
    {
      OneMoreId(ids, i);
      if ids[i] in g.slots {
        return false;
      }
      g.slots := g.slots[ids[i] := i];
    }
    assert ids[..|ids|] == ids;
    return true;
  }

  lemma NoRepeatsYet()
    ensures NoRepeats([]) && SlotMap([]) == map[]
  {
  }

  lemma OneMoreId(ids: seq<Id>, i: nat)
    requires i < |ids| && NoRepeats(ids[..i])
    ensures ids[i] in SlotMap(ids[..i]) ==> !NoRepeats(ids)
    ensures ids[i] !in SlotMap(ids[..i]) ==> NoRepeats(ids[..i + 1])
    ensures SlotMap(ids[..i + 1]) == SlotMap(ids[..i])[ids[i] := i]
  {
    var front := ids[..i];
    SlotMapInverts(front);
    assert ids[..i + 1][..i] == front;
    if ids[i] in SlotMap(front) {
      assert ids[SlotMap(front)[ids[i]]] == ids[i];
    } else {
      forall j | 0 <= j < i ensures ids[j] != ids[i] { assert front[j] == ids[j]; }
      forall j, k | 0 <= j < k < i ensures ids[j] != ids[k] { assert front[j] != front[k]; }
    }
  }

  /** Maps one layer's ids to slots; refuses an unknown id, the node itself, and a repeat. */
  method ReadLayerIds(slots: map<Id, nat>, slot: nat, ids: seq<Id>, marks: Marks) returns (list: Option<seq<nat>>)
    requires marks.Valid() && forall id :: id in slots ==> slots[id] < |marks.mark|
    modifies marks
    ensures marks.Valid() && |marks.mark| == old(|marks.mark|)
    ensures list.Some? <==> LayerFits(slots, slot, ids)
    ensures list.Some? ==> list.value == ToSlots(slots, ids)
  {
    marks.stamp := marks.stamp + 1;
    var out: seq<nat> := [];
    for i := 0 to |ids|
      invariant marks.Valid() && |marks.mark| == old(|marks.mark|)
      invariant LayerFits(slots, slot, ids[..i]) && out == ToSlots(slots, ids[..i])
      invariant forall s: nat :: s < |marks.mark| ==> (marks.mark[s] == marks.stamp <==> s in out)
    {
      assert ids[..i + 1] == ids[..i] + [ids[i]];
      if ids[i] !in slots || slots[ids[i]] == slot || marks.mark[slots[ids[i]]] == marks.stamp {
        if ids[i] in slots && slots[ids[i]] != slot {
          var j :| 0 <= j < |out| && out[j] == slots[ids[i]];
          assert ids[..i][j] == ids[j];
        }
        return None;
      }
      var s := slots[ids[i]];
      NotThereYet(slots, ids, i, out);
      LayerGrows(slots, slot, ids[..i], ids[i]);
      marks.mark := marks.mark[s := marks.stamp];
      out := out + [s];
    }
    assert ids[..|ids|] == ids;
    return Some(out);
  }

  lemma NotThereYet(slots: map<Id, nat>, ids: seq<Id>, i: nat, out: seq<nat>)
    requires i < |ids| && ids[i] in slots && (forall j :: 0 <= j < i ==> ids[..i][j] in slots)
    requires out == ToSlots(slots, ids[..i]) && slots[ids[i]] !in out
    ensures forall j :: 0 <= j < i ==> slots[ids[..i][j]] != slots[ids[i]]
  {
    forall j | 0 <= j < i ensures slots[ids[..i][j]] != slots[ids[i]] { assert out[j] in out; }
  }

  lemma LayerGrows(slots: map<Id, nat>, slot: nat, ids: seq<Id>, id: Id)
    requires LayerFits(slots, slot, ids) && id in slots && slots[id] != slot
    requires forall j :: 0 <= j < |ids| ==> slots[ids[j]] != slots[id]
    ensures LayerFits(slots, slot, ids + [id]) && ToSlots(slots, ids + [id]) == ToSlots(slots, ids) + [slots[id]]
  {
  }

  /** Appends ns as the next node, or refuses it. */
  method RestoreNode(g: Graph, dim: nat, ns: NodeState, marks: Marks) returns (ok: bool)
    requires marks.Valid() && (forall id :: id in g.slots ==> g.slots[id] < |marks.mark|)
    modifies g, marks
    ensures marks.Valid() && |marks.mark| == old(|marks.mark|) && g.slots == old(g.slots)
    ensures ok <==> NodeFits(g.slots, old(|g.nodes|), dim, ns)
    ensures ok ==> g.S() == Restored(old(g.S()), g.m, dim, ns)
  {
    hide LayerFits;
    var slot := |g.nodes|;
    if ns.id !in g.slots || g.slots[ns.id] != slot || |ns.neighbors| != ns.level + 1 || |ns.vector| != dim {
      return false;
    }
    var lists: seq<seq<nat>> := [];
    for l := 0 to |ns.neighbors|
      invariant g.S() == old(g.S()) && marks.Valid() && |marks.mark| == old(|marks.mark|)
      invariant |lists| == l
      invariant forall k :: 0 <= k < l ==>
        LayerFits(g.slots, slot, ns.neighbors[k]) && AllKnown(g.slots, ns.neighbors[k]) && lists[k] == ToSlots(g.slots, ns.neighbors[k])
    {
      var list := ReadLayerIds(g.slots, slot, ns.neighbors[l], marks);
      if list == None {
        return false;
      }
      FitsKnown(g.slots, slot, ns.neighbors[l]);
      lists := lists + [list.value];
    }
    assert lists == Lists(g.slots, slot, ns);
    g.nodes, g.dead := g.nodes + [Node(ns.id, ns.level, lists[0 := []])], g.dead + [ns.deleted];
    g.data, g.links0 := g.data + [ns.vector], g.links0 + [Cut(lists[0], 2 * g.m)];
    if !ns.deleted {
      g.live := g.live + 1;
    }
    return true;
  }

  predicate AllKnown(slots: map<Id, nat>, ids: seq<Id>) {
    forall i :: 0 <= i < |ids| ==> ids[i] in slots
  }

  lemma FitsKnown(slots: map<Id, nat>, slot: nat, ids: seq<Id>)
    requires LayerFits(slots, slot, ids)
    ensures AllKnown(slots, ids)
  {
  }

  method EndRestore(g: Graph, entry: Id, maxLevel: nat, hasEntry: bool) returns (ok: bool)
    modifies g
    ensures ok <==> old(|g.nodes|) == |old(g.slots)| && (hasEntry ==> entry in old(g.slots))
    ensures ok ==> Some(g.S()) == Ended(old(g.S()), entry, maxLevel, hasEntry)
  {
    if |g.nodes| != |g.slots| {
      return false;
    }
    if hasEntry {
      if entry !in g.slots {
        return false;
      }
      g.entryPoint := g.slots[entry];
    }
    g.maxLevel, g.hasEntry := maxLevel, hasEntry;
    return true;
  }
}
