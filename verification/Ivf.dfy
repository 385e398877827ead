/**
 The inverted-file index: codes filed under the coarse centroid nearest to
 their vector, searched a few lists at a time.
 */
module Ivf {
  import opened Bytes
  import opened Common
  import opened Heap
  import opened Kmeans
  import opened Log
  import opened Quantizer
  import opened TopK

  /** Every list with the distance from v to its centroid. */
  function Ranked(cents: seq<Pt>, v: Pt): (r: seq<Cand>)
    requires forall c :: 0 <= c < |cents| ==> |cents[c]| == |v|
    ensures |r| == |cents| && forall c :: 0 <= c < |r| ==> r[c] == Cand(c, SqDist(v, cents[c]))
  {
    seq(|cents|, c requires 0 <= c < |cents| => Cand(c, SqDist(v, cents[c])))
  }

  /** The n lists whose centroids are nearest to v, nearest first. */
  function Probes(cents: seq<Pt>, v: Pt, n: nat): seq<Cand>
    requires forall c :: 0 <= c < |cents| ==> |cents[c]| == |v|
  {
    BruteForce(Ranked(cents, v), n)
  }

  ghost predicate Listed(probe: seq<Cand>, l: nat) {
    exists i :: 0 <= i < |probe| && probe[i].id == l
  }

  /** Probes are distinct lists, min(n, lists) of them, and no list left out is nearer. */
  lemma ProbesAre(cents: seq<Pt>, v: Pt, n: nat)
    requires forall c :: 0 <= c < |cents| ==> |cents[c]| == |v|
    ensures IsTopK(Probes(cents, v, n), multiset(Ranked(cents, v)), n)
    ensures |Probes(cents, v, n)| == Min(n, |cents|)
    ensures forall i :: 0 <= i < |Probes(cents, v, n)| ==> Probes(cents, v, n)[i].id < |cents|
    ensures forall i, j :: 0 <= i < j < |Probes(cents, v, n)| ==> Probes(cents, v, n)[i].id != Probes(cents, v, n)[j].id
    ensures n >= |cents| ==> forall l: nat :: l < |cents| ==> Listed(Probes(cents, v, n), l)
  {
    hide SqDist, Sort, IsTopK;
    var all := Ranked(cents, v);
    var t := Sort(all);
    SortSorts(all);
    CutIsTopK(t, multiset(all), n);
    assert |t| == |multiset(t)| && |all| == |multiset(all)|;
    forall i | 0 <= i < |t| ensures t[i].id < |cents| && t[i] == all[t[i].id] {
      Member(all, t, i);
    }
    forall i, j | 0 <= i < j < |t| ensures t[i].id != t[j].id {
      NoTwice(all, t, i, j);
    }
    if n >= |cents| {
      assert t[..Min(n, |t|)] == t;
      forall l: nat | l < |cents| ensures Listed(t, l) {
        Member(t, all, l);
      }
    }
  }

  lemma Member(all: seq<Cand>, t: seq<Cand>, i: nat)
    requires multiset(t) == multiset(all) && i < |t|
    ensures exists j :: 0 <= j < |all| && all[j] == t[i]
  {
    assert t[i] in multiset(all);
    assert t[i] in all;
  }

  lemma NoTwice(all: seq<Cand>, t: seq<Cand>, i: nat, j: nat)
    requires multiset(t) == multiset(all) && i < j < |t|
    requires forall a, b :: 0 <= a < b < |all| ==> all[a] != all[b]
    ensures t[i] != t[j]
  {
    if t[i] == t[j] {
      CountTwice(t, i, j);
      AtMostOnce(all, t[j]);
    }
  }

  lemma {:induction false} AtMostOnce(all: seq<Cand>, c: Cand)
    requires forall a, b :: 0 <= a < b < |all| ==> all[a] != all[b]
    ensures multiset(all)[c] <= 1
  {
    if all != [] {
      var n := |all| - 1;
      AtMostOnce(all[..n], c);
      assert all == all[..n] + [all[n]];
      if all[n] == c {
        assert c !in all[..n];
        assert c !in multiset(all[..n]);
      }
    }
  }

  /** Each id is in exactly one list, the one listOf names. */
  ghost predicate Filed(lists: seq<map<Id, Code>>, listOf: map<Id, nat>) {
    && (forall id :: id in listOf ==> listOf[id] < |lists| && id in lists[listOf[id]])
    && forall l, id :: 0 <= l < |lists| && id in lists[l] ==> id in listOf && listOf[id] == l
  }

  /** The index as one map, which is what a flat index would hold. */
  ghost function Contents(lists: seq<map<Id, Code>>, listOf: map<Id, nat>): map<Id, Code>
    requires Filed(lists, listOf)
  {
    map id | id in listOf :: lists[listOf[id]][id]
  }

  function Put(lists: seq<map<Id, Code>>, l: nat, id: Id, code: Code): seq<map<Id, Code>>
    requires l < |lists|
  {
    var filed: map<Id, Code> := lists[l][id := code];
    lists[l := filed]
  }

  lemma FileNew(lists: seq<map<Id, Code>>, listOf: map<Id, nat>, id: Id, code: Code, l: nat)
    requires Filed(lists, listOf) && l < |lists| && id !in listOf
    ensures var now := Put(lists, l, id, code);
            Filed(now, listOf[id := l]) && Contents(now, listOf[id := l]) == Contents(lists, listOf)[id := code]
  {
    FiledNew(lists, listOf, id, code, l);
    var now := Put(lists, l, id, code);
    var of := listOf[id := l];
    assert Contents(now, of).Keys == of.Keys;
    forall x | x in of ensures Contents(now, of)[x] == Contents(lists, listOf)[id := code][x] {
      if x != id { assert now[listOf[x]][x] == lists[listOf[x]][x]; }
    }
  }

  lemma FiledNew(lists: seq<map<Id, Code>>, listOf: map<Id, nat>, id: Id, code: Code, l: nat)
    requires Filed(lists, listOf) && l < |lists| && id !in listOf
    ensures Filed(Put(lists, l, id, code), listOf[id := l])
  {
    var now := Put(lists, l, id, code);
    var of := listOf[id := l];
    forall k, x | 0 <= k < |now| && x in now[k] ensures x in of && of[x] == k {
      if x != id { assert x in lists[k]; }
    }
    forall x | x in of ensures of[x] < |now| && x in now[of[x]] {
      if x != id { assert x in lists[listOf[x]]; }
    }
  }

  lemma UnfileOne(lists: seq<map<Id, Code>>, listOf: map<Id, nat>, id: Id)
    requires Filed(lists, listOf) && id in listOf
    ensures var now := lists[listOf[id] := lists[listOf[id]] - {id}];
            Filed(now, listOf - {id}) && Contents(now, listOf - {id}) == Contents(lists, listOf) - {id}
  {
    var now := lists[listOf[id] := lists[listOf[id]] - {id}];
    forall k, x | 0 <= k < |now| && x in now[k] ensures x in listOf - {id} && (listOf - {id})[x] == k {
      assert x in lists[k];
    }
  }

  lemma FileOne(lists: seq<map<Id, Code>>, listOf: map<Id, nat>, id: Id, code: Code, l: nat)
    requires Filed(lists, listOf) && l < |lists| && (id in listOf ==> listOf[id] < |lists|)
    ensures var cleared := if id in listOf then lists[listOf[id] := lists[listOf[id]] - {id}] else lists;
            var now := Put(cleared, l, id, code);
            Filed(now, listOf[id := l]) && Contents(now, listOf[id := l]) == Contents(lists, listOf)[id := code]
  {
    hide Filed, Contents;
    if id in listOf {
      UnfileOne(lists, listOf, id);
      var cleared := lists[listOf[id] := lists[listOf[id]] - {id}];
      FileNew(cleared, listOf - {id}, id, code, l);
      assert (listOf - {id})[id := l] == listOf[id := l];
      assert (Contents(lists, listOf) - {id})[id := code] == Contents(lists, listOf)[id := code];
    } else {
      FileNew(lists, listOf, id, code, l);
    }
  }

  class IvfIndex {
    const cb: Codebook
    const cents: seq<Pt>
    var lists: seq<map<Id, Code>>
    var listOf: map<Id, nat>

    ghost predicate Valid()
      reads this
    {
      && Trained(cb) && cents != [] && Uniform(cents, Dim(cb))
      && |lists| == |cents| && Filed(lists, listOf) && forall l :: 0 <= l < |lists| ==> CodesOk(cb, lists[l])
    }

    constructor (cb: Codebook, cents: seq<Pt>)
      requires Trained(cb) && cents != [] && Uniform(cents, Dim(cb))
      ensures Valid() && this.cb == cb && this.cents == cents && Contents(lists, listOf) == map[]
    {
      this.cb, this.cents := cb, cents;
      lists, listOf := seq(|cents|, _ => map[]), map[];
    }

    /** Files the code under the nearest list, replacing any entry id had. */
    method Insert(id: Id, v: Pt) returns (ok: bool)
      requires Valid()
      modifies this
      ensures Valid() && (ok <==> |v| == Dim(cb))
      ensures !ok ==> lists == old(lists) && listOf == old(listOf)
      ensures ok ==>
        && id in Contents(lists, listOf) && NearestCode(cb, v, Contents(lists, listOf)[id])
        && Contents(lists, listOf) == old(Contents(lists, listOf))[id := Contents(lists, listOf)[id]]
        && forall c :: 0 <= c < |cents| ==> SqDist(v, cents[listOf[id]]) <= SqDist(v, cents[c])
    {
      hide SqDist, Filed, Contents, Probes;
      var code := Encode(cb, v);
      if code == None {
        return false;
      }
      var l := Probes(cents, v, 1);
      ProbesAre(cents, v, 1);
      FirstProbe(cents, v, l);
      var list := l[0].id;
      FiledBounds(lists, listOf);
      FileOne(lists, listOf, id, code.value, list);
      if id in listOf {
        lists := lists[listOf[id] := lists[listOf[id]] - {id}];
      }
      lists := Put(lists, list, id, code.value);
      listOf := listOf[id := list];
      return true;
    }

    method Delete(id: Id)
      requires Valid()
      modifies this
      ensures Valid() && Contents(lists, listOf) == old(Contents(lists, listOf)) - {id}
    {
      hide Filed, Contents;
      if id in listOf {
        FiledBounds(lists, listOf);
        UnfileOne(lists, listOf, id);
        lists := lists[listOf[id] := lists[listOf[id]] - {id}];
        listOf := listOf - {id};
      } else {
        NotFiled(lists, listOf, id);
      }
    }

    /** The topK codes closest to q among the nprobe nearest lists. */
    method Search(q: Pt, topK: nat, nprobe: nat) returns (out: Option<seq<Cand>>)
      requires Valid()
      ensures out.Some? <==> topK == 0 || nprobe == 0 || |q| == Dim(cb)
      ensures out.Some? && topK > 0 && nprobe > 0 ==>
        ContentsOk() && IsTopK(out.value, multiset(Scores(cb, q, Contents(lists, listOf), Probed(q, nprobe))), topK)
    {
      hide SqDist, IsBest, IsTable, Scores, Filed, Contents, Probes, Decoded;
      if topK == 0 || nprobe == 0 {
        return Some([]);
      }
      var table := NewDistanceTable(cb, q);
      if table == None {
        return None;
      }
      var probe := Probes(cents, q, nprobe);
      ProbesAre(cents, q, nprobe);
      ContentsAreOk(cb, lists, listOf);
      ghost var all := Contents(lists, listOf);
      var hp := new Heap(Farther);
      NothingBest(topK);
      ghost var done: set<Id> := {};
      NoScores(cb, q, all);
      assert multiset(Scores(cb, q, all, done)) == multiset{};
      for i := 0 to |probe|
        invariant hp.Valid() && hp.order == Farther && fresh(hp)
        invariant done == InLists(listOf, probe[..i])
        invariant IsBest(multiset(hp.h), multiset(Scores(cb, q, all, done)), topK)
      {
        var l := probe[i].id;
        ListScores(cb, q, lists, listOf, done, l);
        NotYetProbed(listOf, probe, i);
        ScanCodes(cb, q, table.value, lists[l], hp, topK, multiset(Scores(cb, q, all, done)));
        AddList(cb, q, lists, listOf, done, l);
        InOneMore(listOf, probe, i);
        FiledKeys(lists, listOf, l);
        done := done + lists[l].Keys;
      }
      assert probe[..|probe|] == probe;
      var found := Drain(hp);
      return Some(found);
    }

    ghost predicate ContentsOk()
      reads this
      requires Valid()
    {
      CodesOk(cb, Contents(lists, listOf))
    }

    /** The ids filed under the probed lists. */
    ghost function Probed(q: Pt, nprobe: nat): set<Id>
      reads this
      requires Valid() && |q| == Dim(cb)
    {
      InLists(listOf, Probes(cents, q, nprobe))
    }
  }

  /** The ids filed under one of the given lists. */
  ghost function InLists(listOf: map<Id, nat>, probe: seq<Cand>): set<Id> {
    set id | id in listOf && Listed(probe, listOf[id])
  }

  lemma FirstProbe(cents: seq<Pt>, v: Pt, probe: seq<Cand>)
    requires cents != [] && forall c :: 0 <= c < |cents| ==> |cents[c]| == |v|
    requires IsTopK(probe, multiset(Ranked(cents, v)), 1) && |probe| == 1 && probe[0].id < |cents|
    ensures forall c :: 0 <= c < |cents| ==> SqDist(v, cents[probe[0].id]) <= SqDist(v, cents[c])
  {
    hide SqDist, IsTopK;
    var all := Ranked(cents, v);
    forall c | 0 <= c < |cents| ensures SqDist(v, cents[probe[0].id]) <= SqDist(v, cents[c]) {
      BestIsFirst(probe, all, c);
    }
  }

  lemma BestIsFirst(probe: seq<Cand>, all: seq<Cand>, c: nat)
    requires IsTopK(probe, multiset(all), 1) && |probe| == 1 && c < |all|
    ensures probe[0] in all && probe[0].dist <= all[c].dist
  {
    hide Sorted;
    assert probe[0] in multiset(probe);
    assert probe[0] in multiset(all);
    assert all[c] in multiset(all);
    if all[c] != probe[0] {
      assert probe == [probe[0]];
      assert multiset(probe)[all[c]] == 0;
      assert all[c] in multiset(all) - multiset(probe);
    }
  }

  lemma FiledBounds(lists: seq<map<Id, Code>>, listOf: map<Id, nat>)
    requires Filed(lists, listOf)
    ensures forall id :: id in listOf ==> listOf[id] < |lists|
  {
  }

  lemma NotFiled(lists: seq<map<Id, Code>>, listOf: map<Id, nat>, id: Id)
    requires Filed(lists, listOf) && id !in listOf
    ensures Contents(lists, listOf) - {id} == Contents(lists, listOf)
  {
  }

  lemma ContentsAreOk(cb: Codebook, lists: seq<map<Id, Code>>, listOf: map<Id, nat>)
    requires Filed(lists, listOf) && forall l :: 0 <= l < |lists| ==> CodesOk(cb, lists[l])
    ensures CodesOk(cb, Contents(lists, listOf))
  {
  }

  lemma FiledKeys(lists: seq<map<Id, Code>>, listOf: map<Id, nat>, l: nat)
    requires Filed(lists, listOf) && l < |lists|
    ensures lists[l].Keys == set id | id in listOf && listOf[id] == l
  {
  }

  lemma InOneMore(listOf: map<Id, nat>, probe: seq<Cand>, i: nat)
    requires i < |probe|
    ensures InLists(listOf, probe[..i + 1]) == InLists(listOf, probe[..i]) + set id | id in listOf && listOf[id] == probe[i].id
  {
    var more, some := probe[..i + 1], probe[..i];
    forall id | id in listOf ensures id in InLists(listOf, more) <==> id in InLists(listOf, some) || listOf[id] == probe[i].id {
      if j :| 0 <= j < |some| && some[j].id == listOf[id] { assert more[j].id == listOf[id]; }
      if j :| 0 <= j < |more| && more[j].id == listOf[id] { if j < i { assert some[j].id == listOf[id]; } }
      assert more[i] == probe[i];
    }
  }

  lemma NotYetProbed(listOf: map<Id, nat>, probe: seq<Cand>, i: nat)
    requires i < |probe| && forall a, b :: 0 <= a < b < |probe| ==> probe[a].id != probe[b].id
    ensures forall id :: id in listOf && listOf[id] == probe[i].id ==> id !in InLists(listOf, probe[..i])
  {
  }

  /** A list's scores do not depend on whether it is read alone or as part of the whole. */
  lemma ListScores(cb: Codebook, q: Pt, lists: seq<map<Id, Code>>, listOf: map<Id, nat>, done: set<Id>, l: nat)
    requires Trained(cb) && |q| == Dim(cb) && Filed(lists, listOf) && l < |lists|
    requires CodesOk(cb, lists[l]) && CodesOk(cb, Contents(lists, listOf))
    ensures Scores(cb, q, lists[l], lists[l].Keys) == Scores(cb, q, Contents(lists, listOf), lists[l].Keys)
  {
    hide SqDist, Decoded;
    var all := Contents(lists, listOf);
    forall id | id in lists[l] ensures id in all && ScoreOf(cb, q, lists[l], id) == ScoreOf(cb, q, all, id) {
    }
  }

  lemma AddList(cb: Codebook, q: Pt, lists: seq<map<Id, Code>>, listOf: map<Id, nat>, done: set<Id>, l: nat)
    requires Trained(cb) && |q| == Dim(cb) && Filed(lists, listOf) && l < |lists|
    requires CodesOk(cb, lists[l]) && CodesOk(cb, Contents(lists, listOf))
    requires forall id :: id in listOf && listOf[id] == l ==> id !in done
    ensures multiset(Scores(cb, q, Contents(lists, listOf), done + lists[l].Keys)) ==
            multiset(Scores(cb, q, Contents(lists, listOf), done)) + multiset(Scores(cb, q, lists[l], lists[l].Keys))
  {
    hide SqDist, Decoded;
    ListScores(cb, q, lists, listOf, done, l);
    FiledKeys(lists, listOf, l);
    DisjointScores(cb, q, Contents(lists, listOf), done, lists[l].Keys);
  }

  lemma DisjointScores(cb: Codebook, q: Pt, codes: map<Id, Code>, a: set<Id>, b: set<Id>)
    requires Trained(cb) && |q| == Dim(cb) && CodesOk(cb, codes) && a !! b
    ensures multiset(Scores(cb, q, codes, a + b)) == multiset(Scores(cb, q, codes, a)) + multiset(Scores(cb, q, codes, b))
  {
    hide SqDist, Decoded;
    var x, y := Scores(cb, q, codes, a), Scores(cb, q, codes, b);
    assert x !! y;
    assert Scores(cb, q, codes, a + b) == x + y;
  }

  /** Probing every list is a flat scan: same scores, so the same sorted distances. */
  lemma ProbingAllIsFlat(cb: Codebook, q: Pt, lists: seq<map<Id, Code>>, listOf: map<Id, nat>, cents: seq<Pt>, nprobe: nat, topK: nat, a: seq<Cand>, b: seq<Cand>)
    requires Trained(cb) && |q| == Dim(cb) && Filed(lists, listOf) && |lists| == |cents| && Uniform(cents, Dim(cb))
    requires CodesOk(cb, Contents(lists, listOf)) && nprobe >= |cents|
    requires IsTopK(a, multiset(Scores(cb, q, Contents(lists, listOf), InLists(listOf, Probes(cents, q, nprobe)))), topK)
    requires IsTopK(b, multiset(Scores(cb, q, Contents(lists, listOf), Contents(lists, listOf).Keys)), topK)
    ensures Dists(a) == Dists(b)
  {
    hide SqDist, Decoded, IsTopK, Probes, Scores;
    ProbesAre(cents, q, nprobe);
    FiledBounds(lists, listOf);
    assert InLists(listOf, Probes(cents, q, nprobe)) == Contents(lists, listOf).Keys;
    TopKUnique(a, b, multiset(Scores(cb, q, Contents(lists, listOf), Contents(lists, listOf).Keys)), topK);
  }
}
