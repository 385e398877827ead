/**
 Exactly which exported nodes a restore accepts, and what graph it makes of
 them, said of the nodes alone.
 */
module Rebuild {
  import opened Bytes
  import opened Common
  import opened HnswState
  import opened Log
  import opened Restore

  ghost predicate Named(nodes: seq<NodeState>, id: Id) {
    exists k :: 0 <= k < |nodes| && nodes[k].id == id
  }

  /** A layer names other nodes of the export, none of them twice. */
  ghost predicate NamesOthers(nodes: seq<NodeState>, self: Id, ids: seq<Id>) {
    && (forall i :: 0 <= i < |ids| ==> ids[i] != self && Named(nodes, ids[i]))
    && forall i, j :: 0 <= i < j < |ids| ==> ids[i] != ids[j]
  }

  /** One list per layer, the right dimension, and layers that name other nodes. */
  ghost predicate Acceptable(nodes: seq<NodeState>, dim: nat, ns: NodeState) {
    && |ns.neighbors| == ns.level + 1 && |ns.vector| == dim
    && forall l :: 0 <= l < |ns.neighbors| ==> NamesOthers(nodes, ns.id, ns.neighbors[l])
  }

  lemma NamedIff(nodes: seq<NodeState>, id: Id)
    requires NoRepeats(IdsIn(nodes))
    ensures id in SlotMap(IdsIn(nodes)) <==> Named(nodes, id)
  {
    hide SlotMap;
    SlotMapInverts(IdsIn(nodes));
    if id in SlotMap(IdsIn(nodes)) { assert nodes[SlotMap(IdsIn(nodes))[id]].id == id; }
  }

  lemma LayerIff(nodes: seq<NodeState>, s: nat, ids: seq<Id>)
    requires NoRepeats(IdsIn(nodes)) && s < |nodes|
    ensures LayerFits(SlotMap(IdsIn(nodes)), s, ids) <==> NamesOthers(nodes, nodes[s].id, ids)
  {
    hide SlotMap, Named;
    var slots := SlotMap(IdsIn(nodes));
    SlotMapInverts(IdsIn(nodes));
    forall i | 0 <= i < |ids| ensures ids[i] in slots <==> Named(nodes, ids[i]) { NamedIff(nodes, ids[i]); }
    if LayerFits(slots, s, ids) {
      assert forall i :: 0 <= i < |ids| ==> slots[ids[i]] != s;
    }
    if NamesOthers(nodes, nodes[s].id, ids) {
      forall i | 0 <= i < |ids| ensures slots[ids[i]] != s { assert IdsIn(nodes)[slots[ids[i]]] == ids[i]; }
      forall i, j | 0 <= i < j < |ids| ensures slots[ids[i]] != slots[ids[j]] {
        assert IdsIn(nodes)[slots[ids[i]]] == ids[i] && IdsIn(nodes)[slots[ids[j]]] == ids[j];
      }
    }
  }

  lemma FitsIff(nodes: seq<NodeState>, dim: nat, s: nat)
    requires NoRepeats(IdsIn(nodes)) && s < |nodes|
    ensures NodeFits(SlotMap(IdsIn(nodes)), s, dim, nodes[s]) <==> Acceptable(nodes, dim, nodes[s])
  {
    hide SlotMap, LayerFits, NamesOthers;
    SlotMapInverts(IdsIn(nodes));
    forall l | 0 <= l < |nodes[s].neighbors|
      ensures LayerFits(SlotMap(IdsIn(nodes)), s, nodes[s].neighbors[l]) <==> NamesOthers(nodes, nodes[s].id, nodes[s].neighbors[l])
    {
      LayerIff(nodes, s, nodes[s].neighbors[l]);
    }
    assert nodes[s].id == IdsIn(nodes)[s];
  }

  // ---- Node by node ----

  ghost predicate Sized(g: State) {
    |g.links0| == |g.nodes| == |g.data| == |g.dead|
  }

  /** Slot s is what a restore makes of ns. */
  ghost predicate IsRestored(g: State, m: nat, dim: nat, s: nat, ns: NodeState) {
    && Sized(g) && s < |g.nodes| && NodeFits(g.slots, s, dim, ns)
    && var lists := Lists(g.slots, s, ns);
       && g.nodes[s] == Node(ns.id, ns.level, lists[0 := []]) && g.links0[s] == Cut(lists[0], 2 * m)
       && g.data[s] == ns.vector && g.dead[s] == ns.deleted
  }

  lemma OneRestored(g: State, m: nat, dim: nat, ns: NodeState)
    requires Sized(g) && NodeFits(g.slots, |g.nodes|, dim, ns)
    ensures var t := Restored(g, m, dim, ns);
            && Sized(t) && t.slots == g.slots && |t.nodes| == |g.nodes| + 1 && IsRestored(t, m, dim, |g.nodes|, ns)
            && g.nodes <= t.nodes && g.links0 <= t.links0 && g.data <= t.data && g.dead <= t.dead
  {
    hide NodeFits, Lists;
  }

  lemma StaysRestored(g: State, t: State, m: nat, dim: nat, s: nat, ns: NodeState)
    requires IsRestored(g, m, dim, s, ns) && Sized(t) && g.slots == t.slots
    requires g.nodes <= t.nodes && g.links0 <= t.links0 && g.data <= t.data && g.dead <= t.dead
    ensures IsRestored(t, m, dim, s, ns)
  {
    hide NodeFits, Lists;
  }

  lemma {:induction false} RestoreAllIff(g: State, m: nat, dim: nat, nodes: seq<NodeState>)
    requires Sized(g)
    ensures RestoreAll(g, m, dim, nodes).Some? <==> forall i :: 0 <= i < |nodes| ==> NodeFits(g.slots, |g.nodes| + i, dim, nodes[i])
    ensures RestoreAll(g, m, dim, nodes).Some? ==>
              var t := RestoreAll(g, m, dim, nodes).value;
              && Sized(t) && t.slots == g.slots && |t.nodes| == |g.nodes| + |nodes|
              && g.nodes <= t.nodes && g.links0 <= t.links0 && g.data <= t.data && g.dead <= t.dead
              && forall i :: 0 <= i < |nodes| ==> IsRestored(t, m, dim, |g.nodes| + i, nodes[i])
    decreases |nodes|
  {
    hide NodeFits, Restored, IsRestored;
    if nodes != [] && NodeFits(g.slots, |g.nodes| + 0, dim, nodes[0]) {
      OneRestored(g, m, dim, nodes[0]);
      var u := Restored(g, m, dim, nodes[0]);
      RestoreAllIff(u, m, dim, nodes[1..]);
      LaterFit(g.slots, |g.nodes|, dim, nodes);
      if RestoreAll(g, m, dim, nodes).Some? {
        var t := RestoreAll(g, m, dim, nodes).value;
        StaysRestored(u, t, m, dim, |g.nodes|, nodes[0]);
        forall i | 0 <= i < |nodes| ensures IsRestored(t, m, dim, |g.nodes| + i, nodes[i]) {
          if i > 0 { assert IsRestored(t, m, dim, |u.nodes| + (i - 1), nodes[1..][i - 1]); }
        }
      }
    }
  }

  lemma LaterFit(slots: map<Id, nat>, n: nat, dim: nat, nodes: seq<NodeState>)
    requires nodes != [] && NodeFits(slots, n, dim, nodes[0])
    ensures (forall i :: 0 <= i < |nodes| ==> NodeFits(slots, n + i, dim, nodes[i])) <==>
            (forall i :: 0 <= i < |nodes[1..]| ==> NodeFits(slots, n + 1 + i, dim, nodes[1..][i]))
  {
    hide NodeFits;
    if forall i :: 0 <= i < |nodes[1..]| ==> NodeFits(slots, n + 1 + i, dim, nodes[1..][i]) {
      forall i | 0 <= i < |nodes| ensures NodeFits(slots, n + i, dim, nodes[i]) {
        if i > 0 { assert NodeFits(slots, n + 1 + (i - 1), dim, nodes[1..][i - 1]); }
      }
    }
    if forall i :: 0 <= i < |nodes| ==> NodeFits(slots, n + i, dim, nodes[i]) {
      forall i | 0 <= i < |nodes[1..]| ensures NodeFits(slots, n + 1 + i, dim, nodes[1..][i]) {
        assert NodeFits(slots, n + (i + 1), dim, nodes[i + 1]);
      }
    }
  }

  // ---- The whole restore ----

  /** The list at layer l leads to the nodes named there, in order; layer 0 is cut at its cap. */
  ghost predicate ListMirrors(g: State, m: nat, nodes: seq<NodeState>, s: nat, l: nat)
    requires s < |nodes| && l < |nodes[s].neighbors|
  {
    var list, names := Links(g, s, l), nodes[s].neighbors[l];
    && |list| == (if l == 0 then Min(m + m, |names|) else |names|)
    && forall i :: 0 <= i < |list| ==> list[i] < |nodes| && nodes[list[i]].id == names[i]
  }

  ghost predicate NodeMirrors(g: State, m: nat, nodes: seq<NodeState>, s: nat)
    requires Sized(g) && s < |nodes| == |g.nodes|
  {
    var nd := g.nodes[s];
    && nd.id == nodes[s].id && nd.level == nodes[s].level && g.data[s] == nodes[s].vector && g.dead[s] == nodes[s].deleted
    && |nd.neighbors| == nd.level + 1 == |nodes[s].neighbors|
    && forall l :: 0 <= l < |nodes[s].neighbors| ==> ListMirrors(g, m, nodes, s, l)
  }

  ghost predicate Mirrors(g: State, m: nat, nodes: seq<NodeState>) {
    Sized(g) && |g.nodes| == |nodes| && forall s :: 0 <= s < |nodes| ==> NodeMirrors(g, m, nodes, s)
  }

  lemma RestoredMirrors(g: State, m: nat, dim: nat, nodes: seq<NodeState>, s: nat)
    requires NoRepeats(IdsIn(nodes)) && g.slots == SlotMap(IdsIn(nodes)) && s < |nodes| == |g.nodes|
    requires IsRestored(g, m, dim, s, nodes[s])
    ensures NodeMirrors(g, m, nodes, s)
  {
    hide SlotMap, LayerFits;
    SlotMapInverts(IdsIn(nodes));
    var lists := Lists(g.slots, s, nodes[s]);
    forall l | 0 <= l < |nodes[s].neighbors| ensures ListMirrors(g, m, nodes, s, l) {
      var names := nodes[s].neighbors[l];
      FitsKnown(g.slots, s, names);
      forall i | 0 <= i < |names| ensures g.slots[names[i]] < |nodes| && nodes[g.slots[names[i]]].id == names[i] {
        assert IdsIn(nodes)[g.slots[names[i]]] == names[i];
      }
      assert Links(g, s, l) == if l == 0 then Cut(lists[0], 2 * m) else lists[l];
    }
  }

  /**
   A restore accepts exactly the exports in which no id repeats, every node has
   one list per layer, the right dimension and layers that name other nodes, each
   once, and the entry point, if there is one, is among them. The graph then holds
   these nodes in this order, linked as named.
   */
  lemma RestoredExactly(m: nat, dim: nat, nodes: seq<NodeState>, entry: Id, maxLevel: nat, hasEntry: bool)
    ensures Rebuilt(m, dim, nodes, entry, maxLevel, hasEntry).Some? <==>
              && NoRepeats(IdsIn(nodes)) && (hasEntry ==> Named(nodes, entry))
              && forall s :: 0 <= s < |nodes| ==> Acceptable(nodes, dim, nodes[s])
    ensures Rebuilt(m, dim, nodes, entry, maxLevel, hasEntry).Some? ==>
              var g := Rebuilt(m, dim, nodes, entry, maxLevel, hasEntry).value;
              && Mirrors(g, m, nodes) && g.maxLevel == maxLevel && g.hasEntry == hasEntry
              && (hasEntry ==> g.entryPoint < |nodes| && nodes[g.entryPoint].id == entry)
  {
    hide SlotMap, NodeFits, RestoreAll, IsRestored, Acceptable, Named, NodeMirrors, Lists;
    if NoRepeats(IdsIn(nodes)) {
      var g := Started(IdsIn(nodes));
      RestoreAllIff(g, m, dim, nodes);
      forall s | 0 <= s < |nodes| ensures NodeFits(g.slots, s, dim, nodes[s]) <==> Acceptable(nodes, dim, nodes[s]) {
        FitsIff(nodes, dim, s);
      }
      assert (forall s :: 0 <= s < |nodes| ==> NodeFits(g.slots, |g.nodes| + s, dim, nodes[s])) <==>
             (forall s :: 0 <= s < |nodes| ==> Acceptable(nodes, dim, nodes[s])) by { SameFits(g.slots, dim, nodes); }
      NamedIff(nodes, entry);
      SlotMapInverts(IdsIn(nodes));
      if RestoreAll(g, m, dim, nodes).Some? {
        MirrorsAll(RestoreAll(g, m, dim, nodes).value, m, dim, nodes);
        if hasEntry && Named(nodes, entry) {
          var t := Rebuilt(m, dim, nodes, entry, maxLevel, hasEntry).value;
          assert IdsIn(nodes)[t.entryPoint] == entry;
        }
        EntryApart(RestoreAll(g, m, dim, nodes).value, m, nodes);
      }
    }
  }

  lemma SameFits(slots: map<Id, nat>, dim: nat, nodes: seq<NodeState>)
    requires forall s :: 0 <= s < |nodes| ==> (NodeFits(slots, s, dim, nodes[s]) <==> Acceptable(nodes, dim, nodes[s]))
    ensures (forall s :: 0 <= s < |nodes| ==> NodeFits(slots, 0 + s, dim, nodes[s])) <==>
            (forall s :: 0 <= s < |nodes| ==> Acceptable(nodes, dim, nodes[s]))
  {
    hide NodeFits, Acceptable;
    if forall s :: 0 <= s < |nodes| ==> NodeFits(slots, 0 + s, dim, nodes[s]) {
      forall s | 0 <= s < |nodes| ensures Acceptable(nodes, dim, nodes[s]) { assert NodeFits(slots, 0 + s, dim, nodes[s]); }
    }
  }

  lemma MirrorsAll(g: State, m: nat, dim: nat, nodes: seq<NodeState>)
    requires NoRepeats(IdsIn(nodes)) && g.slots == SlotMap(IdsIn(nodes)) && Sized(g) && |g.nodes| == |nodes|
    requires forall s :: 0 <= s < |nodes| ==> IsRestored(g, m, dim, 0 + s, nodes[s])
    ensures Mirrors(g, m, nodes)
  {
    hide SlotMap, IsRestored, NodeMirrors;
    forall s | 0 <= s < |nodes| ensures NodeMirrors(g, m, nodes, s) {
      assert IsRestored(g, m, dim, 0 + s, nodes[s]);
      RestoredMirrors(g, m, dim, nodes, s);
    }
  }

  /** Entry point and top level do not matter to it. */
  lemma EntryApart(g: State, m: nat, nodes: seq<NodeState>)
    requires Mirrors(g, m, nodes)
    ensures forall t: State :: t == g.(entryPoint := t.entryPoint, maxLevel := t.maxLevel, hasEntry := t.hasEntry) ==> Mirrors(t, m, nodes)
  {
    forall t: State | t == g.(entryPoint := t.entryPoint, maxLevel := t.maxLevel, hasEntry := t.hasEntry) ensures Mirrors(t, m, nodes) {
      forall s | 0 <= s < |nodes| ensures NodeMirrors(t, m, nodes, s) {
        assert NodeMirrors(g, m, nodes, s);
        forall l | 0 <= l < |nodes[s].neighbors| ensures ListMirrors(t, m, nodes, s, l) {
          assert ListMirrors(g, m, nodes, s, l) && Links(t, s, l) == Links(g, s, l);
        }
      }
    }
  }
}
