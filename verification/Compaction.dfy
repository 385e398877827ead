/**
 Compaction: rebuilding a graph from its live vectors.
 */
module Compaction {
  import opened Common
  import opened Hnsw
  import opened HnswBatch
  import opened HnswState
  import opened Log
  import opened Query

  const MIN_COMPACT: nat := 256

  function LiveVecs(data: seq<Vec>, dead: seq<bool>): (vecs: seq<Vec>)
    requires |data| == |dead|
  {
    if data == [] then []
    else
      var n := |data| - 1;
      if dead[n] then LiveVecs(data[..n], dead[..n]) else LiveVecs(data[..n], dead[..n]) + [data[n]]
  }

  lemma {:induction false} SameLength(nodes: seq<Node>, data: seq<Vec>, dead: seq<bool>)
    requires |nodes| == |data| == |dead|
    ensures |LiveIds(nodes, dead)| == |LiveVecs(data, dead)| == CountLive(dead)
    decreases |nodes|
  {
    if nodes != [] {
      var n := |nodes| - 1;
      SameLength(nodes[..n], data[..n], dead[..n]);
    }
  }

  /** The live entries among the first n slots. */
  ghost function LiveBelow(k: Skeleton, n: nat): map<Id, Vec>
    requires SkelOk(k)
  {
    map id | id in k.slots && k.slots[id] < n && !k.dead[k.slots[id]] :: k.data[k.slots[id]]
  }

  lemma LiveBelowStep(k: Skeleton, n: nat)
    requires SkelOk(k) && n < |k.ids|
    ensures LiveBelow(k, n + 1) == if k.dead[n] then LiveBelow(k, n) else LiveBelow(k, n)[k.ids[n] := k.data[n]]
  {
    forall id | id in k.slots && k.slots[id] < n + 1 ensures k.slots[id] == n <==> id == k.ids[n] {
    }
  }

  /** Inserting the live pairs into nothing gives the live map. */
  lemma {:induction false} LivePairs(g: State, n: nat)
    requires SkelOk(Skel(g)) && n <= |g.nodes|
    ensures |LiveIds(g.nodes[..n], g.dead[..n])| == |LiveVecs(g.data[..n], g.dead[..n])|
    ensures InsertAll(map[], LiveIds(g.nodes[..n], g.dead[..n]), LiveVecs(g.data[..n], g.dead[..n])) == LiveBelow(Skel(g), n)
  {
    hide SkelOk, LiveIds, LiveVecs, LiveBelow, InsertAll;
    assert |g.nodes| == |g.data| == |g.dead| by { SkelSizes(g); }
    SameLength(g.nodes[..n], g.data[..n], g.dead[..n]);
    if n > 0 {
      LivePairs(g, n - 1);
      SameLength(g.nodes[..n - 1], g.data[..n - 1], g.dead[..n - 1]);
      LivePairsStep(g, n - 1);
      LiveBelowStep(Skel(g), n - 1);
      Log.InsertAllSnoc(map[], LiveIds(g.nodes[..n - 1], g.dead[..n - 1]), LiveVecs(g.data[..n - 1], g.dead[..n - 1]), g.nodes[n - 1].id, g.data[n - 1]);
    } else {
      NoPairs(g);
    }
  }

  lemma NoPairs(g: State)
    requires SkelOk(Skel(g)) && |g.nodes| == |g.data| == |g.dead|
    ensures InsertAll(map[], LiveIds(g.nodes[..0], g.dead[..0]), LiveVecs(g.data[..0], g.dead[..0])) == map[] == LiveBelow(Skel(g), 0)
  {
  }

  /** One more slot adds its pair to both lists, if it is live. */
  lemma LivePairsStep(g: State, n: nat)
    requires n < |g.nodes| == |g.data| == |g.dead|
    ensures var ids, vecs := LiveIds(g.nodes[..n], g.dead[..n]), LiveVecs(g.data[..n], g.dead[..n]);
            && LiveIds(g.nodes[..n + 1], g.dead[..n + 1]) == (if g.dead[n] then ids else ids + [g.nodes[n].id])
            && LiveVecs(g.data[..n + 1], g.dead[..n + 1]) == (if g.dead[n] then vecs else vecs + [g.data[n]])
  {
    assert g.nodes[..n + 1][..n] == g.nodes[..n] && g.data[..n + 1][..n] == g.data[..n] && g.dead[..n + 1][..n] == g.dead[..n];
  }

  lemma SkelSizes(g: State)
    requires SkelOk(Skel(g))
    ensures |g.nodes| == |g.data| == |g.dead|
  {
  }

  lemma LiveIdsNew(g: State, m: nat)
    requires HnswState.Valid(g, m) && |g.nodes| == |g.dead|
    ensures AllNew({}, LiveIds(g.nodes, g.dead))
  {
    hide HnswState.Valid, LiveIds, IsLive;
    var ids := LiveIds(g.nodes, g.dead);
    forall i, j | 0 <= i < j < |ids| ensures ids[i] != ids[j] {
      LiveIdsAre(g, m, ids[i]);
      if ids[i] == ids[j] {
        CountTwice(ids, i, j);
        assert false;
      }
    }
  }

  method CollectVecs(g: Graph) returns (vecs: seq<Vec>)
    requires |g.data| == |g.dead|
    ensures vecs == LiveVecs(g.data, g.dead)
  {
    vecs := [];
    for i := 0 to |g.data|
      invariant vecs == LiveVecs(g.data[..i], g.dead[..i])
    {
      assert g.data[..i + 1][..i] == g.data[..i] && g.dead[..i + 1][..i] == g.dead[..i];
      if !g.dead[i] {
        vecs := vecs + [g.data[i]];
      }
    }
    assert g.data[..|g.data|] == g.data && g.dead[..|g.dead|] == g.dead;
  }

  /**
   A new graph with the same live vectors and no tombstones; the old one is
   left as it was. It fails only on a stored vector that validation refuses.
   */
  method Compact(g: Graph, levels: seq<nat>, workers: nat) returns (ng: Graph, ok: bool)
    requires g.Valid() && workers > 0 && |levels| == g.live
    ensures fresh(ng) && ng.Valid() && ng.m == g.m && ng.efConstruction == g.efConstruction
    ensures ng.metric == g.metric && ng.accepts == g.accepts
    ensures (forall s :: 0 <= s < |g.data| ==> g.accepts(g.data[s])) ==> ok
    ensures ok ==> LiveMap(Skel(ng.S())) == LiveMap(Skel(g.S())) && |ng.nodes| == ng.live == g.live
    ensures g.m > 0 ==> Pristine(ng.S(), ng.m)
  {
    hide LinksOk, SkelOk, Skel, LiveMap, InsertAllSkel, LiveIds, LiveVecs, LiveBelow, AllNew, Pristine;
    assert SkelOk(Skel(g.S())) by { InsertFacts(g.S(), g.m, 0, [], 0); }
    SkelSizes(g.S());
    var ids := CollectLive(g);
    var vecs := CollectVecs(g);
    ghost var s := g.S();
    SameLength(s.nodes, s.data, s.dead);
    LiveIsCounted(s);
    LivePairs(s, |s.nodes|);
    Whole(s);
    LiveIdsNew(s, g.m);
    AllAccepted(g.accepts, s.data, s.dead);
    ng := new Graph(g.m, g.efConstruction, g.metric, g.accepts);
    EmptyLive(ng);
    SkelFields(ng.S());
    if g.m > 0 { EmptyIsPristine(ng.S(), ng.m); }
    ghost var k0 := Skel(ng.S());
    assert SkelOk(k0) by { InsertFacts(ng.S(), ng.m, 0, [], 0); }
    assert k0.slots.Keys == {};
    ok := InsertBatch(ng, ids, vecs, levels, workers);
    InsertAllSize(k0, ids, vecs, levels);
    SkelFields(ng.S());
  }

  lemma LiveIsCounted(g: State)
    requires SkelOk(Skel(g))
    ensures g.live == CountLive(g.dead)
  {
  }

  lemma Whole(g: State)
    requires SkelOk(Skel(g))
    ensures |g.nodes| == |g.data| == |g.dead|
    ensures g.nodes[..|g.nodes|] == g.nodes && g.data[..|g.nodes|] == g.data && g.dead[..|g.nodes|] == g.dead
    ensures LiveBelow(Skel(g), |g.nodes|) == LiveMap(Skel(g))
  {
  }

  lemma EmptyLive(g: Graph)
    requires g.Valid() && Skel(g.S()) == Skeleton([], [], [], [], map[], 0, 0, false)
    ensures LiveMap(Skel(g.S())) == map[] && Skel(g.S()).slots == map[] && |Skel(g.S()).ids| == 0 && Skel(g.S()).live == 0
  {
  }

  lemma {:induction false} AllAccepted(accepts: Vec -> bool, data: seq<Vec>, dead: seq<bool>)
    requires |data| == |dead|
    ensures (forall s :: 0 <= s < |data| ==> accepts(data[s])) ==>
              forall i :: 0 <= i < |LiveVecs(data, dead)| ==> accepts(LiveVecs(data, dead)[i])
    decreases |data|
  {
    if data != [] {
      var n := |data| - 1;
      AllAccepted(accepts, data[..n], dead[..n]);
      assert (forall s :: 0 <= s < |data| ==> accepts(data[s])) ==> forall s :: 0 <= s < n ==> accepts(data[..n][s]);
    }
  }

  /** Compacts once tombstones outnumber live nodes and are at least MIN_COMPACT; on an error the graph stays. */
  method CompactIfDue(g: Graph, levels: seq<nat>, workers: nat) returns (now: Graph, ok: bool)
    requires g.Valid() && workers > 0 && |levels| == g.live
    ensures now.Valid() && LiveMap(Skel(now.S())) == LiveMap(Skel(g.S()))
    ensures now != g ==> ok && |now.nodes| == now.live == g.live && (g.m > 0 ==> Pristine(now.S(), now.m))
    ensures ok ==> (now != g <==> |g.nodes| - g.live >= 256 && |g.nodes| > 2 * g.live)
    ensures !ok ==> |g.nodes| - g.live >= 256 && |g.nodes| > 2 * g.live && exists s :: 0 <= s < |g.data| && !g.accepts(g.data[s])
  {
    hide LinksOk, SkelOk, Skel, LiveMap, Pristine;
    now, ok := g, true;
    var dead := |g.nodes| - g.live;
    if dead < MIN_COMPACT || dead <= g.live {
      return;
    }
    var ng;
    ng, ok := Compact(g, levels, workers);
    if ok { now := ng; }
  }
}
