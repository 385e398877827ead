/**
 Answering a query: the exact scan, the graph walk, and how a filtered search
 chooses between them.
 */
module Query {
  import opened Beam
  import opened Bytes
  import opened Common
  import opened Candidates
  import opened Filters
  import opened Heap
  import opened Hnsw
  import opened HnswState
  import opened Log
  import opened TopK

  datatype Hit = Hit(id: Id, dist: real)

  function Hits(nodes: seq<Node>, cs: seq<Cand>): (r: seq<Hit>)
    requires forall i :: 0 <= i < |cs| ==> cs[i].id < |nodes|
    ensures |r| == |cs| && forall i :: 0 <= i < |cs| ==> r[i] == Hit(nodes[cs[i].id].id, cs[i].dist)
  {
    seq(|cs|, i requires 0 <= i < |cs| => Hit(nodes[cs[i].id].id, cs[i].dist))
  }

  predicate IsLive(g: State, id: Id) {
    id in g.slots && g.slots[id] < |g.dead| == |g.data| && !g.dead[g.slots[id]]
  }

  /** The live ones of ids, scored. */
  function LiveCands(g: State, metric: (Vec, Vec) -> real, q: Vec, ids: seq<Id>): seq<Cand> {
    if ids == [] then []
    else
      var front := LiveCands(g, metric, q, ids[..|ids| - 1]);
      var id := ids[|ids| - 1];
      if IsLive(g, id) then front + [Cand(g.slots[id], metric(q, g.data[g.slots[id]]))] else front
  }

  /** A candidate is listed as often as its id is. */
  lemma {:induction false} CandCount(g: State, metric: (Vec, Vec) -> real, q: Vec, ids: seq<Id>, c: Cand)
    requires SkelOk(Skel(g))
    ensures multiset(LiveCands(g, metric, q, ids))[c] ==
            (if c.id < |g.nodes| && !g.dead[c.id] && c.dist == metric(q, g.data[c.id]) then multiset(ids)[g.nodes[c.id].id] else 0)
    decreases |ids|
  {
    hide CountLive;
    if ids != [] {
      var n := |ids| - 1;
      CandCount(g, metric, q, ids[..n], c);
      assert ids == ids[..n] + [ids[n]];
      var id := ids[n];
      assert IsLive(g, id) ==> Skel(g).ids[g.slots[id]] == id;
      assert c.id < |g.nodes| ==> Skel(g).ids[c.id] == g.nodes[c.id].id;
    }
  }

  /** Only which live ids are listed, and how often, matters. */
  lemma SameCands(g: State, metric: (Vec, Vec) -> real, q: Vec, a: seq<Id>, b: seq<Id>)
    requires SkelOk(Skel(g)) && forall id: Id :: IsLive(g, id) ==> multiset(a)[id] == multiset(b)[id]
    ensures multiset(LiveCands(g, metric, q, a)) == multiset(LiveCands(g, metric, q, b))
  {
    hide CountLive;
    forall c: Cand ensures multiset(LiveCands(g, metric, q, a))[c] == multiset(LiveCands(g, metric, q, b))[c] {
      CandCount(g, metric, q, a, c);
      CandCount(g, metric, q, b, c);
      if c.id < |g.nodes| && !g.dead[c.id] {
        assert Skel(g).ids[c.id] == g.nodes[c.id].id;
        assert IsLive(g, g.nodes[c.id].id);
      }
    }
  }

  lemma {:induction false} CandsInRange(g: State, metric: (Vec, Vec) -> real, q: Vec, ids: seq<Id>, c: Cand)
    requires SkelOk(Skel(g)) && c in LiveCands(g, metric, q, ids)
    ensures c.id < |g.nodes| && g.nodes[c.id].id in ids && IsLive(g, g.nodes[c.id].id) && c.dist == metric(q, g.data[c.id])
  {
    hide CountLive;
    CandCount(g, metric, q, ids, c);
    assert c in multiset(LiveCands(g, metric, q, ids));
    assert Skel(g).ids[c.id] == g.nodes[c.id].id;
    assert g.nodes[c.id].id in multiset(ids);
  }

  /** Scores every listed live id and keeps the topK closest. */
  method ExactSearch(g: Graph, q: Vec, ids: seq<Id>, topK: nat) returns (out: seq<Hit>, ghost cs: seq<Cand>)
    requires g.Valid()
    ensures IsTopK(cs, multiset(LiveCands(g.S(), g.metric, q, ids)), topK)
    ensures (forall i :: 0 <= i < |cs| ==> cs[i].id < |g.nodes|) && out == Hits(g.nodes, cs)
    ensures HitDists(out) == Dists(BruteForce(LiveCands(g.S(), g.metric, q, ids), topK))
    ensures forall h :: h in out ==> h.id in ids && IsLive(g.S(), h.id) && h.dist == g.metric(q, g.data[g.slots[h.id]])
  {
    hide IsBest, LinksOk, SkelOk, Below, BruteForce, Sorted;
    assert SkelOk(Skel(g.S())) by { InsertFacts(g.S(), g.m, 0, [], 0); }
    if topK == 0 {
      NoneIsBest(multiset(LiveCands(g.S(), g.metric, q, ids)), 0);
      SortedNone();
      HitsAre(g.S(), g.metric, q, ids, [], 0);
      return [], [];
    }
    var hp := new Heap(Farther);
    NoneIsBest(multiset{}, topK);
    for i := 0 to |ids|
      invariant hp.Valid() && hp.order == Farther && fresh(hp) && g.S() == old(g.S())
      invariant IsBest(multiset(hp.h), multiset(LiveCands(g.S(), g.metric, q, ids[..i])), topK)
    {
      assert ids[..i + 1][..i] == ids[..i];
      SlotBounds(g.S(), g.m, ids[i]);
      if ids[i] in g.slots && !g.dead[g.slots[ids[i]]] {
        var slot := g.slots[ids[i]];
        Offer(hp, topK, Cand(slot, g.metric(q, g.data[slot])), multiset(LiveCands(g.S(), g.metric, q, ids[..i])));
      }
    }
    assert ids[..|ids|] == ids;
    var found := Drain(hp);
    cs := found;
    BestInRange(g.S(), g.metric, q, ids, found, topK);
    HitsAre(g.S(), g.metric, q, ids, found, topK);
    out := Hits(g.nodes, found);
  }

  function HitDists(hits: seq<Hit>): (d: seq<real>)
    ensures |d| == |hits| && forall i :: 0 <= i < |hits| ==> d[i] == hits[i].dist
  {
    seq(|hits|, i requires 0 <= i < |hits| => hits[i].dist)
  }

  /** A top-k of scored ids, read as hits: brute force's distances, and only live listed ids. */
  lemma HitsAre(g: State, metric: (Vec, Vec) -> real, q: Vec, ids: seq<Id>, cs: seq<Cand>, k: nat)
    requires SkelOk(Skel(g)) && IsTopK(cs, multiset(LiveCands(g, metric, q, ids)), k)
    ensures forall i :: 0 <= i < |cs| ==> cs[i].id < |g.nodes|
    ensures HitDists(Hits(g.nodes, cs)) == Dists(BruteForce(LiveCands(g, metric, q, ids), k))
    ensures forall h :: h in Hits(g.nodes, cs) ==> h.id in ids && IsLive(g, h.id) && h.dist == metric(q, g.data[g.slots[h.id]])
  {
    hide IsBest, LiveCands, BruteForce, CountLive;
    var all := LiveCands(g, metric, q, ids);
    BestInRange(g, metric, q, ids, cs, k);
    TopKIsBruteForce(cs, all, k);
    assert HitDists(Hits(g.nodes, cs)) == Dists(cs);
    forall h | h in Hits(g.nodes, cs) ensures h.id in ids && IsLive(g, h.id) && h.dist == metric(q, g.data[g.slots[h.id]]) {
      var i :| 0 <= i < |cs| && Hits(g.nodes, cs)[i] == h;
      CandsInRange(g, metric, q, ids, cs[i]);
      assert Skel(g).ids[cs[i].id] == h.id;
    }
  }

  lemma NoneIsBest(all: multiset<Cand>, k: nat)
    requires k == 0 || all == multiset{}
    ensures IsBest(multiset{}, all, k)
  {
  }

  lemma SortedNone()
    ensures Sorted([])
  {
  }

  lemma SlotBounds(g: State, m: nat, id: Id)
    requires HnswState.Valid(g, m)
    ensures id in g.slots ==> g.slots[id] < |g.dead| == |g.data|
  {
  }

  lemma BestInRange(g: State, metric: (Vec, Vec) -> real, q: Vec, ids: seq<Id>, cs: seq<Cand>, k: nat)
    requires SkelOk(Skel(g)) && IsBest(multiset(cs), multiset(LiveCands(g, metric, q, ids)), k)
    ensures forall i :: 0 <= i < |cs| ==> cs[i].id < |g.nodes| && cs[i] in LiveCands(g, metric, q, ids)
  {
    hide SkelOk;
    forall i | 0 <= i < |cs| ensures cs[i].id < |g.nodes| && cs[i] in LiveCands(g, metric, q, ids) {
      assert cs[i] in multiset(cs);
      CandsInRange(g, metric, q, ids, cs[i]);
    }
  }

  // ---- Live ids ----

  function LiveIds(nodes: seq<Node>, dead: seq<bool>): (ids: seq<Id>)
    requires |nodes| == |dead|
  {
    if nodes == [] then []
    else
      var n := |nodes| - 1;
      if dead[n] then LiveIds(nodes[..n], dead[..n]) else LiveIds(nodes[..n], dead[..n]) + [nodes[n].id]
  }

  method CollectLive(g: Graph) returns (ids: seq<Id>)
    requires |g.nodes| == |g.dead|
    ensures ids == LiveIds(g.nodes, g.dead)
  {
    ids := [];
    for i := 0 to |g.nodes|
      invariant ids == LiveIds(g.nodes[..i], g.dead[..i])
    {
      assert g.nodes[..i + 1][..i] == g.nodes[..i] && g.dead[..i + 1][..i] == g.dead[..i];
      if !g.dead[i] {
        ids := ids + [g.nodes[i].id];
      }
    }
    assert g.nodes[..|g.nodes|] == g.nodes && g.dead[..|g.dead|] == g.dead;
  }

  lemma {:induction false} LiveIdsMiss(nodes: seq<Node>, dead: seq<bool>, id: Id)
    requires |nodes| == |dead| && forall s :: 0 <= s < |nodes| ==> nodes[s].id != id
    ensures multiset(LiveIds(nodes, dead))[id] == 0
    decreases |nodes|
  {
    if nodes != [] { LiveIdsMiss(nodes[..|nodes| - 1], dead[..|nodes| - 1], id); }
  }

  lemma {:induction false} LiveIdsAt(nodes: seq<Node>, dead: seq<bool>, s: nat)
    requires |nodes| == |dead| && s < |nodes| && forall i :: 0 <= i < |nodes| && i != s ==> nodes[i].id != nodes[s].id
    ensures multiset(LiveIds(nodes, dead))[nodes[s].id] == if dead[s] then 0 else 1
    decreases |nodes|
  {
    var n := |nodes| - 1;
    if s < n {
      LiveIdsAt(nodes[..n], dead[..n], s);
    } else {
      LiveIdsMiss(nodes[..n], dead[..n], nodes[s].id);
    }
  }

  /** LiveIds lists each live id once. */
  lemma LiveIdsAre(g: State, m: nat, id: Id)
    requires HnswState.Valid(g, m)
    ensures |g.nodes| == |g.dead| && multiset(LiveIds(g.nodes, g.dead))[id] == if IsLive(g, id) then 1 else 0
    ensures id in LiveIds(g.nodes, g.dead) <==> IsLive(g, id)
  {
    hide LinksOk, CountLive;
    var k := Skel(g);
    assert forall i :: 0 <= i < |g.nodes| ==> k.ids[i] == g.nodes[i].id;
    if id in g.slots {
      LiveIdsAt(g.nodes, g.dead, g.slots[id]);
    } else {
      LiveIdsMiss(g.nodes, g.dead, id);
    }
    assert id in LiveIds(g.nodes, g.dead) <==> id in multiset(LiveIds(g.nodes, g.dead));
  }

  // ---- Exactness of the filtered scan ----

  function Matching(ids: seq<Id>, metadata: map<Id, Meta>, number: Parser, fs: seq<Filter>): (r: seq<Id>)
    requires AllValid(fs, number)
  {
    if ids == [] then []
    else
      var front := Matching(ids[..|ids| - 1], metadata, number, fs);
      var id := ids[|ids| - 1];
      if MatchesAll(Stored(metadata, id), fs, number) then front + [id] else front
  }

  lemma {:induction false} MatchingCount(ids: seq<Id>, metadata: map<Id, Meta>, number: Parser, fs: seq<Filter>, id: Id)
    requires AllValid(fs, number)
    ensures multiset(Matching(ids, metadata, number, fs))[id] ==
            (if MatchesAll(Stored(metadata, id), fs, number) then multiset(ids)[id] else 0)
    decreases |ids|
  {
    hide MatchesAll, AllValid;
    if ids != [] {
      var n := |ids| - 1;
      MatchingCount(ids[..n], metadata, number, fs, id);
      assert ids == ids[..n] + [ids[n]];
    }
  }

  /** The reference: every live id that matches, scored. */
  ghost function AllMatches(g: State, metric: (Vec, Vec) -> real, q: Vec, metadata: map<Id, Meta>, number: Parser, fs: seq<Filter>): seq<Cand>
    requires |g.nodes| == |g.dead| && AllValid(fs, number)
  {
    LiveCands(g, metric, q, Matching(LiveIds(g.nodes, g.dead), metadata, number, fs))
  }

  ghost predicate Clear(metadata: map<Id, Meta>) {
    forall id: Id :: !Confusable(Stored(metadata, id))
  }

  lemma CandidatesAreMatches(g: State, m: nat, p: Postings, metadata: map<Id, Meta>, number: Parser, fs: seq<Filter>, limit: Limit, ids: seq<Id>, id: Id)
    requires HnswState.Valid(g, m) && Indexed(p, metadata) && AllValid(fs, number) && Clear(metadata) && IsLive(g, id)
    requires PoolOf(p, fs, LiveIds(g.nodes, g.dead), limit).Some?
    requires Sifted(ids, PoolOf(p, fs, LiveIds(g.nodes, g.dead), limit).value, metadata, number, fs)
    ensures multiset(ids)[id] == multiset(Matching(LiveIds(g.nodes, g.dead), metadata, number, fs))[id]
  {
    hide HnswState.Valid, Indexed, PoolOf, Sifted, Confusable, MatchesAll, AllValid, LiveIds, Matching;
    LiveIdsAre(g, m, id);
    var live: seq<Id> := LiveIds(g.nodes, g.dead);
    forall x: Id ensures multiset(live)[x] <= 1 { LiveIdsAre(g, m, x); }
    CandidatesExact(p, metadata, number, fs, live, limit, ids);
    MatchingCount(live, metadata, number, fs, id);
    assert id in ids <==> id in multiset(ids);
  }

  /** On the scan path the answer is a top-k of all live matches, so it has brute force's distances. */
  lemma ScanIsExact(g: State, m: nat, metric: (Vec, Vec) -> real, q: Vec, p: Postings, metadata: map<Id, Meta>, number: Parser,
                    fs: seq<Filter>, limit: Limit, ids: seq<Id>, cs: seq<Cand>, topK: nat)
    requires HnswState.Valid(g, m) && |g.nodes| == |g.dead| && Indexed(p, metadata) && AllValid(fs, number) && Clear(metadata)
    requires PoolOf(p, fs, LiveIds(g.nodes, g.dead), limit).Some?
    requires Sifted(ids, PoolOf(p, fs, LiveIds(g.nodes, g.dead), limit).value, metadata, number, fs)
    requires IsTopK(cs, multiset(LiveCands(g, metric, q, ids)), topK)
    ensures IsTopK(cs, multiset(AllMatches(g, metric, q, metadata, number, fs)), topK)
    ensures Dists(cs) == Dists(BruteForce(AllMatches(g, metric, q, metadata, number, fs), topK))
  {
    hide HnswState.Valid, Indexed, PoolOf, Sifted, Clear, MatchesAll, AllValid, LiveIds, Matching, LiveCands, IsTopK, IsLive, BruteForce;
    assert SkelOk(Skel(g)) by { InsertFacts(g, m, 0, [], 0); }
    var want: seq<Id> := Matching(LiveIds(g.nodes, g.dead), metadata, number, fs);
    forall id: Id | IsLive(g, id) ensures multiset(ids)[id] == multiset(want)[id] {
      CandidatesAreMatches(g, m, p, metadata, number, fs, limit, ids, id);
    }
    SameCands(g, metric, q, ids, want);
    TopKIsBruteForce(cs, LiveCands(g, metric, q, want), topK);
  }

  /** Of the live ids, ids lists the matching ones and no other, some perhaps more than once. */
  ghost predicate Covers(g: State, metadata: map<Id, Meta>, number: Parser, fs: seq<Filter>, ids: seq<Id>)
    requires AllValid(fs, number)
  {
    forall id: Id :: IsLive(g, id) ==> (id in ids <==> MatchesAll(Stored(metadata, id), fs, number))
  }

  lemma CandidatesCoverLive(g: State, m: nat, p: Postings, metadata: map<Id, Meta>, number: Parser, fs: seq<Filter>, limit: Limit, ids: seq<Id>)
    requires HnswState.Valid(g, m) && |g.nodes| == |g.dead| && Indexed(p, metadata) && AllValid(fs, number)
    requires PoolOf(p, fs, LiveIds(g.nodes, g.dead), limit).Some?
    requires Sifted(ids, PoolOf(p, fs, LiveIds(g.nodes, g.dead), limit).value, metadata, number, fs)
    ensures Covers(g, metadata, number, fs, ids)
  {
    hide HnswState.Valid, Indexed, PoolOf, Sifted, MatchesAll, AllValid, LiveIds, IsLive;
    CandidatesCover(p, metadata, number, fs, LiveIds(g.nodes, g.dead), limit, ids);
    forall id: Id | IsLive(g, id) ensures id in ids <==> MatchesAll(Stored(metadata, id), fs, number) {
      LiveIdsAre(g, m, id);
    }
  }

  /** A live match that is not among the hits. */
  ghost predicate Missed(g: State, metric: (Vec, Vec) -> real, q: Vec, metadata: map<Id, Meta>, number: Parser, fs: seq<Filter>, cs: seq<Cand>, id: Id)
    requires AllValid(fs, number) && forall i :: 0 <= i < |cs| ==> cs[i].id < |g.nodes|
  {
    && IsLive(g, id) && MatchesAll(Stored(metadata, id), fs, number)
    && Hit(id, metric(q, g.data[g.slots[id]])) !in Hits(g.nodes, cs)
  }

  /**
   Whatever the metadata, a scanned answer holds only live matches at their true
   distances, nearest first. A live match is missing only from a full answer
   none of whose entries is farther than it; all that confusable metadata can do
   is put an entry there more than once.
   */
  lemma ScanIsSound(g: State, m: nat, metric: (Vec, Vec) -> real, q: Vec, metadata: map<Id, Meta>, number: Parser,
                    fs: seq<Filter>, ids: seq<Id>, cs: seq<Cand>, topK: nat)
    requires HnswState.Valid(g, m) && AllValid(fs, number) && Covers(g, metadata, number, fs, ids)
    requires IsTopK(cs, multiset(LiveCands(g, metric, q, ids)), topK)
    ensures (forall i :: 0 <= i < |cs| ==> cs[i].id < |g.nodes|) && HitsSorted(Hits(g.nodes, cs))
    ensures forall h :: h in Hits(g.nodes, cs) ==>
              IsLive(g, h.id) && MatchesAll(Stored(metadata, h.id), fs, number) && h.dist == metric(q, g.data[g.slots[h.id]])
    ensures forall id: Id, h :: Missed(g, metric, q, metadata, number, fs, cs, id) && h in Hits(g.nodes, cs) ==>
              |cs| == topK && h.dist <= metric(q, g.data[g.slots[id]])
    ensures |cs| < topK ==> forall id: Id :: !Missed(g, metric, q, metadata, number, fs, cs, id)
  {
    hide HnswState.Valid, MatchesAll, AllValid, LiveCands, IsTopK, SkelOk;
    assert SkelOk(Skel(g)) by { InsertFacts(g, m, 0, [], 0); }
    HitsAre(g, metric, q, ids, cs, topK);
    assert HitsSorted(Hits(g.nodes, cs)) by { SortedHits(cs, multiset(LiveCands(g, metric, q, ids)), topK); }
    forall id: Id | Missed(g, metric, q, metadata, number, fs, cs, id)
      ensures |cs| == topK && forall h :: h in Hits(g.nodes, cs) ==> h.dist <= metric(q, g.data[g.slots[id]])
    {
      MissedMatch(g, metric, q, ids, cs, topK, id);
    }
  }

  lemma SortedHits(cs: seq<Cand>, all: multiset<Cand>, k: nat)
    requires IsTopK(cs, all, k)
    ensures Sorted(cs)
  {
  }

  /** A listed live id that is no hit is no nearer than any hit of a full answer. */
  lemma MissedMatch(g: State, metric: (Vec, Vec) -> real, q: Vec, ids: seq<Id>, cs: seq<Cand>, k: nat, id: Id)
    requires SkelOk(Skel(g)) && IsTopK(cs, multiset(LiveCands(g, metric, q, ids)), k) && IsLive(g, id) && id in ids
    requires forall i :: 0 <= i < |cs| ==> cs[i].id < |g.nodes|
    requires Hit(id, metric(q, g.data[g.slots[id]])) !in Hits(g.nodes, cs)
    ensures |cs| == k && forall h :: h in Hits(g.nodes, cs) ==> h.dist <= metric(q, g.data[g.slots[id]])
  {
    hide LiveCands, CountLive;
    var slot := g.slots[id];
    var c := Cand(slot, metric(q, g.data[slot]));
    var all := multiset(LiveCands(g, metric, q, ids));
    CandCount(g, metric, q, ids, c);
    assert Skel(g).ids[slot] == id == g.nodes[slot].id;
    assert id in multiset(ids);
    assert c !in cs by {
      forall i | 0 <= i < |cs| ensures cs[i] != c { assert Hits(g.nodes, cs)[i] == Hit(g.nodes[cs[i].id].id, cs[i].dist); }
    }
    LeftOver(cs, all, k, c);
    forall h | h in Hits(g.nodes, cs) ensures h.dist <= c.dist {
      var i :| 0 <= i < |cs| && Hits(g.nodes, cs)[i] == h;
      assert cs[i] in multiset(cs);
    }
  }

  lemma LeftOver(cs: seq<Cand>, all: multiset<Cand>, k: nat, c: Cand)
    requires IsTopK(cs, all, k) && c in all && c !in cs
    ensures |cs| == k && forall x :: x in multiset(cs) ==> x.dist <= c.dist
  {
    var rest := all - multiset(cs);
    assert c in rest;
    assert all == multiset(cs) + rest;
    assert |rest| > 0 by { assert rest == rest[c := 0] + multiset{c}[c := rest[c]]; }
  }

  // ---- The graph walk ----

  /** Greedy descent to layer 0, a beam of width max(ef, topK) there, and the first topK of it. */
  method GraphSearch(g: Graph, q: Vec, topK: int, ef: int) returns (out: seq<Hit>, ghost leg: Leg, ghost cs: seq<Cand>)
    requires g.Valid()
    ensures topK <= 0 ==> out == []
    ensures topK > 0 ==> Walked(g.S(), g.metric, q, topK, if ef < topK then topK else ef, leg, cs) && |out| <= topK
    ensures topK > 0 && g.hasEntry ==> Nearest(g.S(), g.metric, q, topK, leg, cs)
    ensures (forall i :: 0 <= i < |cs| ==> cs[i].id < |g.nodes|) && out == Hits(g.nodes, cs) && HitsSorted(out)
    ensures forall h :: h in out ==> IsLive(g.S(), h.id) && h.dist == g.metric(q, g.data[g.slots[h.id]])
  {
    hide LinksOk, SkelOk, Reachable, SearchExit, Nearest, IsLive, Greedy, Descend;
    leg, cs := Leg(0, [], Sets({}, {}, {})), [];
    if topK <= 0 {
      return [], leg, cs;
    }
    var beam: nat := if ef < topK then topK else ef;
    if !g.hasEntry {
      return [], leg, cs;
    }
    ValidIsLinked(g.S(), g.m);
    var e: nat := g.entryPoint;
    var l := g.maxLevel;
    while l > 0
      invariant e < |g.nodes|
      invariant Descend(g.S(), g.metric, q, e, l, 0) == Descend(g.S(), g.metric, q, g.entryPoint, g.maxLevel, 0)
    {
      DescendStep(g.S(), g.metric, q, e, l, 0);
      e := g.GreedyClosest(e, q, l);
      l := l - 1;
    }
    DescendDone(g.S(), g.metric, q, e);
    var found, t := g.Search(q, e, beam, 0);
    leg := Leg(e, found, t);
    var cands := if |found| > topK then found[..topK] else found;
    cs := cands;
    WalkedIs(g.S(), g.m, g.metric, q, topK, beam, leg, cs);
    WalkedHits(g.S(), g.m, g.metric, q, topK, beam, leg, cs);
    return Hits(g.nodes, cands), leg, cs;
  }

  /**
   The walk: where greedy descent from the entry point ends, a beam search of
   layer 0 of the given width starts, and cs are the first topK it found.
   */
  ghost predicate Walked(g: State, metric: (Vec, Vec) -> real, q: Vec, topK: nat, ef: nat, leg: Leg, cs: seq<Cand>) {
    if !g.hasEntry then cs == []
    else
      && leg.entry < |g.nodes| && leg.entry == Descend(g, metric, q, g.entryPoint, g.maxLevel, 0)
      && SearchExit(View(g, metric, q, 0), leg.entry, ef, leg.found, leg.sets)
      && cs == leg.found[..Min(topK, |leg.found|)]
  }

  /**
   What that is worth: live nodes at their true distances, nearest first, no slot
   twice. No live node the search saw is left out for a farther one, and fewer
   than asked for means everything live that layer 0 reaches from its entry.
   */
  ghost predicate Nearest(g: State, metric: (Vec, Vec) -> real, q: Vec, topK: nat, leg: Leg, cs: seq<Cand>) {
    && |cs| <= topK && Sorted(cs) && Distinct(Ids(cs)) && |g.nodes| == |g.dead| == |g.data|
    && (forall i :: 0 <= i < |cs| ==> cs[i].id < |g.nodes| && !g.dead[cs[i].id] && cs[i].dist == metric(q, g.data[cs[i].id]))
    && (forall x :: x in leg.sets.visited && x < |g.nodes| && !g.dead[x] && x !in Ids(cs) ==>
          AllWithin(topK, cs, metric(q, g.data[x])))
    && (|cs| < topK ==>
          forall s: nat :: s < |g.dead| && !g.dead[s] && Reachable(View(g, metric, q, 0), leg.entry, s) ==> s in Ids(cs))
  }

  lemma DescendDone(g: State, metric: (Vec, Vec) -> real, q: Vec, e: nat)
    ensures Descend(g, metric, q, e, 0, 0) == e
  {
  }

  /** No live node the search saw is left out of its first topK for a farther one. */
  ghost predicate NoneNearer(v: Layer, visited: set<nat>, topK: nat, cs: seq<Cand>) {
    forall x :: x in visited && x < |v.dead| && !v.dead[x] && x !in Ids(cs) ==> AllWithin(topK, cs, v.dist(x))
  }

  ghost predicate AllWithin(topK: nat, cs: seq<Cand>, dist: real) {
    forall i :: 0 <= i < |cs| ==> |cs| == topK && cs[i].dist <= dist
  }

  /** The first topK of what a beam search of one layer found. */
  lemma FirstOfBeam(v: Layer, entry: nat, ef: nat, found: seq<Cand>, t: Sets, topK: nat, cs: seq<Cand>)
    requires WellFormed(v) && SearchExit(v, entry, ef, found, t) && cs == found[..Min(topK, |found|)] && 0 < topK <= ef
    ensures |cs| <= topK && Sorted(cs) && Distinct(Ids(cs)) && NoneNearer(v, t.visited, topK, cs)
    ensures forall i :: 0 <= i < |cs| ==> cs[i].id < |v.dead| && !v.dead[cs[i].id] && cs[i].dist == v.dist(cs[i].id)
    ensures |cs| < topK ==> forall x: nat :: x < |v.dead| && !v.dead[x] && Reachable(v, entry, x) ==> x in Ids(cs)
  {
    hide Reachable, SearchExit, WellFormed;
    BeamSearchExit(v, entry, ef, found, t);
    CutOfBeam(found, cs, topK);
    assert NoneNearer(v, t.visited, topK, cs) by {
      forall x | x in t.visited && x < |v.dead| && !v.dead[x] && x !in Ids(cs) ensures AllWithin(topK, cs, v.dist(x)) {
        if x in Ids(found) {
          var j :| 0 <= j < |found| && Ids(found)[j] == x;
          assert found[j].id == x && found[j].dist == v.dist(x);
        } else {
          LeftOut(v, entry, ef, found, t, x);
          assert forall i :: 0 <= i < |cs| ==> found[i] in multiset(found);
        }
      }
    }
    if |cs| < topK { assert cs == found; }
  }

  lemma WalkedIs(g: State, m: nat, metric: (Vec, Vec) -> real, q: Vec, topK: nat, ef: nat, leg: Leg, cs: seq<Cand>)
    requires HnswState.Valid(g, m) && g.hasEntry && 0 < topK <= ef && Walked(g, metric, q, topK, ef, leg, cs)
    ensures Nearest(g, metric, q, topK, leg, cs)
  {
    hide LinksOk, SkelOk, Reachable, SearchExit, Descend, WellFormed, Distinct, Sorted, Min;
    assert Linked(g, m) by { ValidIsLinked(g, m); }
    ViewWellFormed(g, m, metric, q, 0);
    FirstOfBeam(View(g, metric, q, 0), leg.entry, ef, leg.found, leg.sets, topK, cs);
  }

  lemma CutOfBeam(found: seq<Cand>, cs: seq<Cand>, topK: nat)
    requires cs == found[..Min(topK, |found|)] && Sorted(found) && Distinct(Ids(found))
    ensures Sorted(cs) && Distinct(Ids(cs)) && (forall i :: 0 <= i < |cs| ==> cs[i] == found[i])
    ensures forall i, j :: 0 <= i < |cs| && 0 <= j < |found| && found[j].id !in Ids(cs) ==> |cs| == topK && cs[i].dist <= found[j].dist
  {
    assert forall i :: 0 <= i < |cs| ==> Ids(cs)[i] == Ids(found)[i];
    assert forall j :: 0 <= j < |cs| ==> found[j].id in Ids(cs);
  }

  lemma WalkedHits(g: State, m: nat, metric: (Vec, Vec) -> real, q: Vec, topK: nat, ef: nat, leg: Leg, cs: seq<Cand>)
    requires HnswState.Valid(g, m) && Nearest(g, metric, q, topK, leg, cs)
    ensures (forall i :: 0 <= i < |cs| ==> cs[i].id < |g.nodes|) && |cs| <= topK && HitsSorted(Hits(g.nodes, cs))
    ensures forall h :: h in Hits(g.nodes, cs) ==> IsLive(g, h.id) && h.dist == metric(q, g.data[g.slots[h.id]])
  {
    hide LinksOk, CountLive, Reachable, View, Distinct;
    forall h | h in Hits(g.nodes, cs) ensures IsLive(g, h.id) && h.dist == metric(q, g.data[g.slots[h.id]]) {
      var i :| 0 <= i < |cs| && Hits(g.nodes, cs)[i] == h;
      assert Skel(g).ids[cs[i].id] == h.id;
    }
  }

  // ---- Search ----

  datatype Result = Result(id: Id, dist: real, metadata: Meta)

  function WithMetadata(hits: seq<Hit>, metadata: map<Id, Meta>): (r: seq<Result>)
    ensures |r| == |hits|
    ensures forall i :: 0 <= i < |r| ==> r[i] == Result(hits[i].id, hits[i].dist, Stored(metadata, hits[i].id))
  {
    seq(|hits|, i requires 0 <= i < |hits| => Result(hits[i].id, hits[i].dist, Stored(metadata, hits[i].id)))
  }

  /** The first topK hits whose metadata matches; all of them if topK is 0, which the count never equals. */
  method FilterMatches(e: Index, hits: seq<Hit>, fs: seq<Filter>, topK: nat) returns (out: seq<Hit>)
    requires AllValid(fs, e.number)
    ensures Picked(hits, e.metadata, e.number, fs, topK, out)
  {
    hide MatchesAll, AllValid;
    out := [];
    for i := 0 to |hits|
      invariant (topK > 0 ==> |out| < topK) && out == MatchingHits(hits[..i], e.metadata, e.number, fs)
    {
      assert hits[..i + 1][..i] == hits[..i];
      if MatchesAll(Stored(e.metadata, hits[i].id), fs, e.number) {
        out := out + [hits[i]];
        if |out| == topK {
          MatchingPrefix(hits, i + 1, e.metadata, e.number, fs);
          return;
        }
      }
    }
    assert hits[..|hits|] == hits;
  }

  function MatchingHits(hits: seq<Hit>, metadata: map<Id, Meta>, number: Parser, fs: seq<Filter>): seq<Hit>
    requires AllValid(fs, number)
  {
    if hits == [] then []
    else
      var front := MatchingHits(hits[..|hits| - 1], metadata, number, fs);
      var h := hits[|hits| - 1];
      if MatchesAll(Stored(metadata, h.id), fs, number) then front + [h] else front
  }

  ghost predicate Picked(hits: seq<Hit>, metadata: map<Id, Meta>, number: Parser, fs: seq<Filter>, topK: nat, out: seq<Hit>)
    requires AllValid(fs, number)
  {
    var all := MatchingHits(hits, metadata, number, fs);
    out == if topK == 0 then all else all[..Min(topK, |all|)]
  }

  lemma {:induction false} MatchingPrefix(hits: seq<Hit>, i: nat, metadata: map<Id, Meta>, number: Parser, fs: seq<Filter>)
    requires AllValid(fs, number) && i <= |hits|
    ensures MatchingHits(hits[..i], metadata, number, fs) <= MatchingHits(hits, metadata, number, fs)
    decreases |hits|
  {
    hide MatchesAll, AllValid;
    if i < |hits| {
      MatchingPrefix(hits[..|hits| - 1], i, metadata, number, fs);
      assert hits[..|hits| - 1][..i] == hits[..i];
    } else {
      assert hits[..i] == hits;
    }
  }

  /** One walk and what it brought: its hits and those of them that match. */
  datatype Try = Try(leg: Leg, cs: seq<Cand>, matched: seq<Hit>)

  /** How an answer was found: after some walks that fell short, by an exact scan or by one more walk. */
  datatype How = Scanned(limit: Limit, ids: seq<Id>, cs: seq<Cand>, tries: seq<Try>) | Walk(tries: seq<Try>)

  const DEFAULT_EF: nat := 64
  const MAX_ATTEMPTS: nat := 3

  function Pow4(k: nat): nat {
    if k == 0 then 1 else 4 * Pow4(k - 1)
  }

  /** The width of the k-th walk: ef or 64, at least topK, four times as wide each time, and with filters four times more. */
  function Width(topK: nat, ef: int, filtered: bool, k: nat): nat {
    var first := if ef <= 0 then DEFAULT_EF else ef;
    (if first < topK then topK else first) * Pow4(if filtered then k + 1 else k)
  }

  /** The k-th walk was as wide as it should be, and matched is what of it matches. */
  ghost predicate Tried(g: State, metric: (Vec, Vec) -> real, q: Vec, e: Index, fs: seq<Filter>, topK: nat, ef: int, t: Try, k: nat)
    reads e
    requires AllValid(fs, e.number)
  {
    && (forall i :: 0 <= i < |t.cs| ==> t.cs[i].id < |g.nodes|)
    && Walked(g, metric, q, Width(topK, ef, fs != [], k), Width(topK, ef, fs != [], k), t.leg, t.cs)
    && Picked(Hits(g.nodes, t.cs), e.metadata, e.number, fs, topK, t.matched)
  }

  /** Enough matched, or the walk ran out of nodes. */
  predicate Enough(topK: nat, ef: int, filtered: bool, t: Try, k: nat) {
    |t.matched| >= topK || |t.cs| < Width(topK, ef, filtered, k)
  }

  /** The walks made, widest last, of which all before the last one were not enough. */
  ghost predicate AllTried(g: State, metric: (Vec, Vec) -> real, q: Vec, e: Index, fs: seq<Filter>, topK: nat, ef: int, tries: seq<Try>)
    reads e
    requires AllValid(fs, e.number)
  {
    && (forall k :: 0 <= k < |tries| ==> Tried(g, metric, q, e, fs, topK, ef, tries[k], k))
    && forall k :: 0 <= k < |tries| - 1 ==> !Enough(topK, ef, fs != [], tries[k], k)
  }

  /** What a scan promises: the topK nearest of ids, which hold every live match; with clear metadata, of all matches. */
  ghost predicate Searched(g: State, metric: (Vec, Vec) -> real, q: Vec, e: Index, fs: seq<Filter>, topK: nat, ids: seq<Id>, cs: seq<Cand>)
    reads e
    requires |g.nodes| == |g.dead| && AllValid(fs, e.number)
  {
    && Covers(g, e.metadata, e.number, fs, ids) && IsTopK(cs, multiset(LiveCands(g, metric, q, ids)), topK)
    && (Clear(e.metadata) ==> IsTopK(cs, multiset(AllMatches(g, metric, q, e.metadata, e.number, fs)), topK))
  }

  lemma ScanIsSearched(g: State, m: nat, metric: (Vec, Vec) -> real, q: Vec, e: Index, fs: seq<Filter>, topK: nat, limit: Limit, ids: seq<Id>, cs: seq<Cand>)
    requires HnswState.Valid(g, m) && |g.nodes| == |g.dead| && e.Valid() && AllValid(fs, e.number)
    requires PoolOf(e.postings, fs, LiveIds(g.nodes, g.dead), limit).Some?
    requires Sifted(ids, PoolOf(e.postings, fs, LiveIds(g.nodes, g.dead), limit).value, e.metadata, e.number, fs)
    requires IsTopK(cs, multiset(LiveCands(g, metric, q, ids)), topK)
    ensures Searched(g, metric, q, e, fs, topK, ids, cs)
  {
    hide HnswState.Valid, Indexed, AllValid, AllMatches, Clear, Sifted, PoolOf, IsTopK, MatchesAll, Covers, LiveCands, LiveIds;
    CandidatesCoverLive(g, m, e.postings, e.metadata, e.number, fs, limit, ids);
    if Clear(e.metadata) {
      ScanIsExact(g, m, metric, q, e.postings, e.metadata, e.number, fs, limit, ids, cs, topK);
    }
  }

  /**
   What each way of answering promises. A filter selective enough is scanned for
   at once; otherwise up to three walks are made, and if none is enough all
   matches are scanned.
   */
  ghost predicate Answered(g: State, metric: (Vec, Vec) -> real, q: Vec, e: Index, fs: seq<Filter>, topK: nat, ef: int, exactLimit: nat, out: seq<Hit>, how: How)
    reads e
    requires |g.nodes| == |g.dead| && AllValid(fs, e.number)
  {
    && AllTried(g, metric, q, e, fs, topK, ef, how.tries)
    && (how.tries == [] <==> fs != [] && PoolOf(e.postings, fs, LiveIds(g.nodes, g.dead), AtMost(exactLimit)).Some?)
    && match how
       case Scanned(limit, ids, cs, tries) =>
         && limit == (if tries == [] then AtMost(exactLimit) else Unlimited)
         && (tries != [] ==> |tries| == 3 && !Enough(topK, ef, fs != [], tries[|tries| - 1], |tries| - 1))
         && (forall i :: 0 <= i < |cs| ==> cs[i].id < |g.nodes|) && out == Hits(g.nodes, cs)
         && Searched(g, metric, q, e, fs, topK, ids, cs)
       case Walk(tries) =>
         && 0 < |tries| <= 3 && Enough(topK, ef, fs != [], tries[|tries| - 1], |tries| - 1)
         && out == tries[|tries| - 1].matched
  }

  lemma WidthGrows(topK: nat, ef: int, filtered: bool, k: nat)
    ensures Width(topK, ef, filtered, 0) == (if filtered then 4 else 1) * Max(if ef <= 0 then 64 else ef, topK)
    ensures Width(topK, ef, filtered, k + 1) == 4 * Width(topK, ef, filtered, k)
    ensures Width(topK, ef, filtered, k) > 0 && Width(topK, ef, filtered, k) >= topK
  {
    var w: nat := Max(if ef <= 0 then 64 else ef, topK);
    var p := Pow4(if filtered then k + 1 else k);
    PowPositive(if filtered then k + 1 else k);
    assert w * (4 * p) == 4 * (w * p);
    assert w * p >= w by { assert w * (p - 1) >= 0; }
  }

  lemma {:induction false} PowPositive(k: nat)
    ensures Pow4(k) >= 1
  {
    if k > 0 { PowPositive(k - 1); }
  }

  lemma NoTries(g: State, metric: (Vec, Vec) -> real, q: Vec, e: Index, fs: seq<Filter>, topK: nat, ef: int)
    ensures AllValid(fs, e.number) ==> AllTried(g, metric, q, e, fs, topK, ef, [])
  {
  }

  lemma OneMoreTry(g: State, metric: (Vec, Vec) -> real, q: Vec, e: Index, fs: seq<Filter>, topK: nat, ef: int, tries: seq<Try>, t: Try)
    requires AllValid(fs, e.number) && AllTried(g, metric, q, e, fs, topK, ef, tries)
    requires tries != [] ==> !Enough(topK, ef, fs != [], tries[|tries| - 1], |tries| - 1)
    requires forall i :: 0 <= i < |t.cs| ==> t.cs[i].id < |g.nodes|
    requires Walked(g, metric, q, Width(topK, ef, fs != [], |tries|), Width(topK, ef, fs != [], |tries|), t.leg, t.cs)
    requires Picked(Hits(g.nodes, t.cs), e.metadata, e.number, fs, topK, t.matched)
    ensures AllTried(g, metric, q, e, fs, topK, ef, tries + [t])
  {
    hide AllValid, Walked, Picked, Width, Enough;
    assert Tried(g, metric, q, e, fs, topK, ef, t, |tries|);
    assert forall k :: 0 <= k < |tries| ==> (tries + [t])[k] == tries[k];
  }

  /** Walks at most three times, each time four times as wide, until that is enough. */
  method WidenAndRetry(g: Graph, e: Index, q: Vec, topK: nat, ef: int, fs: seq<Filter>, first: nat)
    returns (out: Option<seq<Hit>>, ghost tries: seq<Try>)
    requires g.Valid() && e.Valid() && AllValid(fs, e.number) && first == Width(topK, ef, fs != [], 0)
    ensures AllTried(g.S(), g.metric, q, e, fs, topK, ef, tries) && 0 < |tries| <= MAX_ATTEMPTS
    ensures out.Some? <==> Enough(topK, ef, fs != [], tries[|tries| - 1], |tries| - 1)
    ensures if out.Some? then out.value == tries[|tries| - 1].matched else |tries| == MAX_ATTEMPTS
  {
    hide HnswState.Valid, Indexed, AllValid, Walked, Nearest, Picked, MatchesAll, Width, AllTried, HitsSorted, IsLive;
    tries := [];
    NoTries(g.S(), g.metric, q, e, fs, topK, ef);
    var width := first;
    for attempt := 0 to MAX_ATTEMPTS
      invariant width == Width(topK, ef, fs != [], attempt) && |tries| == attempt
      invariant AllTried(g.S(), g.metric, q, e, fs, topK, ef, tries)
      invariant attempt > 0 ==> !Enough(topK, ef, fs != [], tries[attempt - 1], attempt - 1)
    {
      WidthGrows(topK, ef, fs != [], attempt);
      ghost var leg, cs;
      var found;
      found, leg, cs := GraphSearch(g, q, width, width);
      var matched := FilterMatches(e, found, fs, topK);
      OneMoreTry(g.S(), g.metric, q, e, fs, topK, ef, tries, Try(leg, cs, matched));
      tries := tries + [Try(leg, cs, matched)];
      if |matched| >= topK || |found| < width {
        return Some(matched), tries;
      }
      width := 4 * width;
    }
    return None, tries;
  }

  /** Up to topK nearest matches; a query or filter that fails validation is refused. */
  method Search(g: Graph, e: Index, q: Vec, topK: nat, ef: int, fs: seq<Filter>, exactLimit: nat)
    returns (out: Option<seq<Result>>, ghost hits: seq<Hit>, ghost how: How)
    requires g.Valid() && e.Valid()
    ensures out.Some? <==> g.accepts(q) && AllValid(fs, e.number)
    ensures out.Some? ==> |g.nodes| == |g.dead| && out.value == WithMetadata(hits, e.metadata)
                          && Answered(g.S(), g.metric, q, e, fs, topK, ef, exactLimit, hits, how)
  {
    hide HnswState.Valid, Indexed, AllValid, Walked, Nearest, Picked, AllMatches, Clear, Sifted, PoolOf, IsTopK, MatchesAll, Searched, LiveCands, Width, LiveIds, AllTried, HitsSorted, IsLive;
    NoTries(g.S(), g.metric, q, e, fs, topK, ef);
    hits, how := [], Walk([]);
    if !g.accepts(q) || !AllValid(fs, e.number) {
      return None, hits, how;
    }
    NodesDead(g.S(), g.m);
    var live := CollectLive(g);
    var width := if ef <= 0 then DEFAULT_EF else ef;
    width := if width < topK then topK else width;
    WidthGrows(topK, ef, fs != [], 0);
    if |fs| > 0 {
      var ids := FilterCandidates(e, live, fs, AtMost(exactLimit));
      if ids.Some? {
        ghost var cs;
        var found;
        found, cs := ExactSearch(g, q, ids.value, topK);
        hits, how := found, Scanned(AtMost(exactLimit), ids.value, cs, []);
        ScanIsSearched(g.S(), g.m, g.metric, q, e, fs, topK, AtMost(exactLimit), ids.value, cs);
        return Some(WithMetadata(found, e.metadata)), hits, how;
      }
      width := 4 * width;
    }
    var matched, walks := WidenAndRetry(g, e, q, topK, ef, fs, width);
    if matched.Some? {
      hits, how := matched.value, Walk(walks);
      return Some(WithMetadata(matched.value, e.metadata)), hits, how;
    }
    var all := FilterCandidates(e, live, fs, Unlimited);
    AlwaysAPool(e.postings, fs, live);
    ghost var cs;
    var found;
    found, cs := ExactSearch(g, q, all.value, topK);
    hits, how := found, Scanned(Unlimited, all.value, cs, walks);
    ScanIsSearched(g.S(), g.m, g.metric, q, e, fs, topK, Unlimited, all.value, cs);
    return Some(WithMetadata(found, e.metadata)), hits, how;
  }

  lemma NodesDead(g: State, m: nat)
    requires HnswState.Valid(g, m)
    ensures |g.nodes| == |g.dead|
  {
  }

  lemma AlwaysAPool(p: Postings, fs: seq<Filter>, live: seq<Id>)
    ensures PoolOf(p, fs, live, Unlimited).Some?
  {
  }

  // ---- What an answer found by walking is worth ----

  ghost predicate HitsSorted(hits: seq<Hit>) {
    forall i, j :: 0 <= i < j < |hits| ==> hits[i].dist <= hits[j].dist
  }

  lemma {:induction false} MatchingHitsAre(hits: seq<Hit>, metadata: map<Id, Meta>, number: Parser, fs: seq<Filter>, h: Hit)
    requires AllValid(fs, number)
    ensures h in MatchingHits(hits, metadata, number, fs) <==> h in hits && MatchesAll(Stored(metadata, h.id), fs, number)
    decreases |hits|
  {
    hide MatchesAll, AllValid;
    if hits != [] {
      var n := |hits| - 1;
      MatchingHitsAre(hits[..n], metadata, number, fs, h);
      assert hits == hits[..n] + [hits[n]];
    }
  }

  lemma {:induction false} MatchingHitsSorted(hits: seq<Hit>, metadata: map<Id, Meta>, number: Parser, fs: seq<Filter>)
    requires AllValid(fs, number) && HitsSorted(hits)
    ensures HitsSorted(MatchingHits(hits, metadata, number, fs))
    decreases |hits|
  {
    hide MatchesAll, AllValid;
    if hits != [] {
      var n := |hits| - 1;
      MatchingHitsSorted(hits[..n], metadata, number, fs);
      var front := MatchingHits(hits[..n], metadata, number, fs);
      forall i | 0 <= i < |front| ensures front[i].dist <= hits[n].dist {
        MatchingHitsAre(hits[..n], metadata, number, fs, front[i]);
        var j :| 0 <= j < n && hits[..n][j] == front[i];
      }
    }
  }

  /** A live node whose metadata matches. */
  ghost predicate LiveMatch(g: State, metadata: map<Id, Meta>, number: Parser, fs: seq<Filter>, s: nat)
    requires AllValid(fs, number)
  {
    s < |g.nodes| && s < |g.dead| && !g.dead[s] && MatchesAll(Stored(metadata, g.nodes[s].id), fs, number)
  }

  function HitOf(g: State, metric: (Vec, Vec) -> real, q: Vec, s: nat): Hit
    requires s < |g.nodes| && s < |g.data|
  {
    Hit(g.nodes[s].id, metric(q, g.data[s]))
  }

  /**
   An answer found by walking holds only live matches, nearest first, and no
   more than topK of them unless topK is 0: then it holds every match the walk
   found. A live match the walk saw is missing only from an answer of topK hits
   none of which is farther, and if the answer is short it holds every live match
   that layer 0 reaches from where the walk entered it.
   */
  lemma WalkIsSound(g: State, m: nat, metric: (Vec, Vec) -> real, q: Vec, metadata: map<Id, Meta>, number: Parser, fs: seq<Filter>,
                    topK: nat, width: nat, leg: Leg, cs: seq<Cand>, out: seq<Hit>)
    requires HnswState.Valid(g, m) && AllValid(fs, number) && g.hasEntry && 0 < width
    requires Walked(g, metric, q, width, width, leg, cs) && (forall i :: 0 <= i < |cs| ==> cs[i].id < |g.nodes|)
    requires Picked(Hits(g.nodes, cs), metadata, number, fs, topK, out) && (|out| >= topK || |cs| < width)
    ensures |g.data| == |g.nodes| == |g.dead| && (topK > 0 ==> |out| <= topK) && HitsSorted(out)
    ensures topK == 0 ==> out == MatchingHits(Hits(g.nodes, cs), metadata, number, fs)
    ensures forall h :: h in out ==> MatchesAll(Stored(metadata, h.id), fs, number) && IsLive(g, h.id) && h.dist == metric(q, g.data[g.slots[h.id]])
    ensures forall s, h :: s in leg.sets.visited && LiveMatch(g, metadata, number, fs, s) && HitOf(g, metric, q, s) !in out && h in out ==>
              |out| >= topK && h.dist <= metric(q, g.data[s])
    ensures |out| < topK ==> forall s: nat :: LiveMatch(g, metadata, number, fs, s) && Reachable(View(g, metric, q, 0), leg.entry, s) ==>
              HitOf(g, metric, q, s) in out
  {
    hide LinksOk, SkelOk, MatchesAll, AllValid, Reachable, MatchingHits, View, Walked, Nearest;
    WalkedIs(g, m, metric, q, width, width, leg, cs);
    assert |g.data| == |g.nodes| == |g.dead| by { NearestSizes(g, metric, q, width, leg, cs); }
    var hits := Hits(g.nodes, cs);
    WalkedHits(g, m, metric, q, width, width, leg, cs);
    PickedAre(hits, metadata, number, fs, topK, out);
    forall s, h | s in leg.sets.visited && LiveMatch(g, metadata, number, fs, s) && HitOf(g, metric, q, s) !in out && h in out
      ensures |out| >= topK && h.dist <= metric(q, g.data[s])
    {
      MissedByWalk(g, metric, q, metadata, number, fs, topK, width, leg, cs, out, s, h);
    }
    if |out| < topK {
      forall s: nat | LiveMatch(g, metadata, number, fs, s) && Reachable(View(g, metric, q, 0), leg.entry, s) ensures HitOf(g, metric, q, s) in out {
        ShortWalk(g, metric, q, metadata, number, fs, width, leg, cs, s);
      }
    }
  }

  lemma NearestSizes(g: State, metric: (Vec, Vec) -> real, q: Vec, topK: nat, leg: Leg, cs: seq<Cand>)
    requires Nearest(g, metric, q, topK, leg, cs)
    ensures |g.data| == |g.nodes| == |g.dead|
  {
  }

  /** What is picked from sorted hits: matches, sorted, and anything matching left out is no nearer. */
  lemma PickedAre(hits: seq<Hit>, metadata: map<Id, Meta>, number: Parser, fs: seq<Filter>, topK: nat, out: seq<Hit>)
    requires AllValid(fs, number) && HitsSorted(hits) && Picked(hits, metadata, number, fs, topK, out)
    ensures HitsSorted(out) && (topK > 0 ==> |out| <= topK)
    ensures topK == 0 ==> out == MatchingHits(hits, metadata, number, fs)
    ensures forall h :: h in out ==> h in hits && MatchesAll(Stored(metadata, h.id), fs, number)
    ensures forall x, h :: x in hits && MatchesAll(Stored(metadata, x.id), fs, number) && x !in out && h in out ==>
              |out| == topK && h.dist <= x.dist
    ensures |out| < topK ==> forall x :: x in hits && MatchesAll(Stored(metadata, x.id), fs, number) ==> x in out
  {
    hide MatchesAll, AllValid, MatchingHits;
    var all := MatchingHits(hits, metadata, number, fs);
    MatchingHitsSorted(hits, metadata, number, fs);
    forall h ensures h in all <==> h in hits && MatchesAll(Stored(metadata, h.id), fs, number) {
      MatchingHitsAre(hits, metadata, number, fs, h);
    }
    forall x, h | x in all && x !in out && h in out ensures |out| == topK && h.dist <= x.dist {
      var i :| 0 <= i < |all| && all[i] == x;
      var j :| 0 <= j < |out| && out[j] == h;
      assert forall k :: 0 <= k < |out| ==> all[k] in out;
      assert all[j] == h;
    }
  }

  lemma MissedByWalk(g: State, metric: (Vec, Vec) -> real, q: Vec, metadata: map<Id, Meta>, number: Parser, fs: seq<Filter>,
                     topK: nat, width: nat, leg: Leg, cs: seq<Cand>, out: seq<Hit>, s: nat, h: Hit)
    requires AllValid(fs, number) && Nearest(g, metric, q, width, leg, cs) && (forall i :: 0 <= i < |cs| ==> cs[i].id < |g.nodes|)
    requires |g.data| == |g.nodes| && (|out| >= topK || |cs| < width) && h in out && h in Hits(g.nodes, cs)
    requires s in leg.sets.visited && LiveMatch(g, metadata, number, fs, s) && HitOf(g, metric, q, s) !in out
    requires forall x :: x in Hits(g.nodes, cs) && MatchesAll(Stored(metadata, x.id), fs, number) && x !in out ==> |out| == topK && h.dist <= x.dist
    ensures |out| >= topK && h.dist <= metric(q, g.data[s])
  {
    hide MatchesAll, AllValid, Reachable, View;
    var hits := Hits(g.nodes, cs);
    if s in Ids(cs) {
      var i :| 0 <= i < |cs| && cs[i].id == s;
      assert hits[i] == HitOf(g, metric, q, s);
    } else {
      var i :| 0 <= i < |hits| && hits[i] == h;
      assert cs[i].dist <= metric(q, g.data[s]);
    }
  }

  lemma ShortWalk(g: State, metric: (Vec, Vec) -> real, q: Vec, metadata: map<Id, Meta>, number: Parser, fs: seq<Filter>,
                  width: nat, leg: Leg, cs: seq<Cand>, s: nat)
    requires AllValid(fs, number) && Nearest(g, metric, q, width, leg, cs) && |cs| < width
    requires LiveMatch(g, metadata, number, fs, s) && Reachable(View(g, metric, q, 0), leg.entry, s)
    ensures s < |g.data| && (forall i :: 0 <= i < |cs| ==> cs[i].id < |g.nodes|) && HitOf(g, metric, q, s) in Hits(g.nodes, cs)
  {
    hide MatchesAll, AllValid, Reachable, View;
    var i :| 0 <= i < |cs| && cs[i].id == s;
    assert Hits(g.nodes, cs)[i] == HitOf(g, metric, q, s);
  }
}
