/**
 Turning filters into the exact list of matching ids, through the most
 selective posting lists.
 */
module Candidates {
  import opened Bytes
  import opened Filters
  import opened Log

  predicate Selective(f: Filter) {
    f.op == OpEq || f.op == OpIn
  }

  function Dedup(vs: seq<string>): seq<string> {
    if vs == [] then []
    else
      var n := |vs| - 1;
      if vs[n] in vs[..n] then Dedup(vs[..n]) else Dedup(vs[..n]) + [vs[n]]
  }

  lemma {:induction false} DedupIs(vs: seq<string>)
    ensures forall v :: v in Dedup(vs) <==> v in vs
    ensures forall i, j :: 0 <= i < j < |Dedup(vs)| ==> Dedup(vs)[i] != Dedup(vs)[j]
    decreases |vs|
  {
    if vs != [] {
      var n := |vs| - 1;
      DedupIs(vs[..n]);
      assert vs == vs[..n] + [vs[n]];
    }
  }

  /** One posting set per distinct value of a filter. */
  function SetsOf(p: Postings, f: Filter): (sets: seq<set<Id>>)
    ensures |sets| == |Dedup(f.values)|
    ensures forall i :: 0 <= i < |sets| ==> sets[i] == At(p, PostingKey(f.key, Dedup(f.values)[i]))
  {
    var vs := Dedup(f.values);
    seq(|vs|, i requires 0 <= i < |vs| => At(p, PostingKey(f.key, vs[i])))
  }

  function Total(sets: seq<set<Id>>): nat {
    if sets == [] then 0 else Total(sets[..|sets| - 1]) + |sets[|sets| - 1]|
  }

  /** All members of all sets, each as often as sets hold it. */
  function Bag(sets: seq<set<Id>>): multiset<Id> {
    if sets == [] then multiset{} else Bag(sets[..|sets| - 1]) + multiset(sets[|sets| - 1])
  }

  datatype Pick = Pick(sets: seq<set<Id>>, size: nat)

  /** The first of the cheapest Eq and In filters. */
  function Best(p: Postings, fs: seq<Filter>): Option<Pick> {
    if fs == [] then None
    else
      var f := fs[|fs| - 1];
      var best := Best(p, fs[..|fs| - 1]);
      if !Selective(f) then best
      else
        var sets := SetsOf(p, f);
        if best == None || Total(sets) < best.value.size then Some(Pick(sets, Total(sets))) else best
  }

  lemma {:induction false} BestIsSome(p: Postings, fs: seq<Filter>) returns (j: nat)
    requires Best(p, fs).Some?
    ensures j < |fs| && Selective(fs[j]) && Best(p, fs).value.sets == SetsOf(p, fs[j])
    decreases |fs|
  {
    var n := |fs| - 1;
    var before := Best(p, fs[..n]);
    if Selective(fs[n]) && Best(p, fs).value.sets == SetsOf(p, fs[n]) {
      j := n;
    } else {
      j := BestIsSome(p, fs[..n]);
    }
  }

  /** No filter allows fewer ids than the one picked. */
  lemma {:induction false} BestIsLeast(p: Postings, fs: seq<Filter>, j: nat)
    requires j < |fs| && Selective(fs[j])
    ensures Best(p, fs).Some? && Best(p, fs).value.size <= Total(SetsOf(p, fs[j]))
    ensures Best(p, fs).value.size == Total(Best(p, fs).value.sets)
    decreases |fs|
  {
    hide SetsOf, Total;
    var n := |fs| - 1;
    if j < n {
      BestIsLeast(p, fs[..n], j);
    } else if Best(p, fs[..n]).Some? {
      var i := BestIsSome(p, fs[..n]);
      BestIsLeast(p, fs[..n], i);
    }
  }

  // ---- Counting how often a match is listed ----

  lemma {:induction false} BagCounts(sets: seq<set<Id>>, id: Id, i: nat)
    requires i < |sets| && id in sets[i]
    ensures Bag(sets)[id] >= 1
    ensures (forall j :: 0 <= j < |sets| && j != i ==> id !in sets[j]) ==> Bag(sets)[id] == 1
    decreases |sets|
  {
    var n := |sets| - 1;
    if i < n {
      BagCounts(sets[..n], id, i);
    } else if forall j :: 0 <= j < |sets| && j != i ==> id !in sets[j] {
      BagMisses(sets[..n], id);
    }
  }

  lemma {:induction false} BagMisses(sets: seq<set<Id>>, id: Id)
    requires forall j :: 0 <= j < |sets| ==> id !in sets[j]
    ensures Bag(sets)[id] == 0
    decreases |sets|
  {
    if sets != [] { BagMisses(sets[..|sets| - 1], id); }
  }

  lemma {:induction false} BagTwice(sets: seq<set<Id>>, id: Id, i: nat, j: nat)
    requires i < j < |sets| && id in sets[i] && id in sets[j]
    ensures Bag(sets)[id] >= 2
    decreases |sets|
  {
    var n := |sets| - 1;
    if j < n { BagTwice(sets[..n], id, i, j); } else { BagCounts(sets[..n], id, i); }
  }

  /**
   A stored pair k', v' whose posting key reads as key k with a value other than
   the one stored under k.
   */
  ghost predicate Confusable(md: Meta) {
    exists k, k', rest :: Confuses(md, k, k', rest)
  }

  ghost predicate Confuses(md: Meta, k: string, k': string, rest: string) {
    k in md && k' in md && k != k' && rest != md[k] && PostingKey(k', md[k']) == PostingKey(k, rest)
  }

  lemma SameKeySameValue(k: string, v: string, w: string)
    requires PostingKey(k, v) == PostingKey(k, w)
    ensures v == w
  {
    assert PostingKey(k, v)[|k| + 1..] == v && PostingKey(k, w)[|k| + 1..] == w;
  }

  /** A selective filter's posting lists hold every match. */
  lemma MatchIsListed(p: Postings, metadata: map<Id, Meta>, f: Filter, id: Id, number: Parser) returns (i: nat)
    requires Indexed(p, metadata) && ValidFilter(f, number) && Selective(f) && Match(f, Stored(metadata, id), number)
    ensures i < |SetsOf(p, f)| && id in SetsOf(p, f)[i]
    ensures f.key in Stored(metadata, id) && Dedup(f.values)[i] == Stored(metadata, id)[f.key]
  {
    hide PostingKey;
    var md := Stored(metadata, id);
    DedupIs(f.values);
    var v := md[f.key];
    assert v in f.values;
    i :| 0 <= i < |Dedup(f.values)| && Dedup(f.values)[i] == v;
    assert Holds(md, PostingKey(f.key, v));
    assert id in At(p, PostingKey(f.key, v));
  }

  /** Listed twice, a match has a pair that reads as another key. */
  lemma ListedOnce(p: Postings, metadata: map<Id, Meta>, f: Filter, id: Id, number: Parser)
    requires Indexed(p, metadata) && ValidFilter(f, number) && Selective(f) && Match(f, Stored(metadata, id), number)
    requires !Confusable(Stored(metadata, id))
    ensures Bag(SetsOf(p, f))[id] == 1
  {
    hide PostingKey, Confuses, Match;
    var md := Stored(metadata, id);
    var i := MatchIsListed(p, metadata, f, id, number);
    DedupIs(f.values);
    forall j | 0 <= j < |SetsOf(p, f)| && j != i ensures id !in SetsOf(p, f)[j] {
      if id in SetsOf(p, f)[j] {
        OtherListing(p, metadata, f.key, Dedup(f.values)[j], id);
        assert false;
      }
    }
    BagCounts(SetsOf(p, f), id, i);
  }

  lemma OtherListing(p: Postings, metadata: map<Id, Meta>, k: string, v: string, id: Id)
    requires Indexed(p, metadata) && id in At(p, PostingKey(k, v))
    requires k in Stored(metadata, id) && v != Stored(metadata, id)[k]
    ensures Confusable(Stored(metadata, id))
  {
    hide PostingKey;
    var md := Stored(metadata, id);
    assert Holds(md, PostingKey(k, v));
    var k' :| k' in md && PostingKey(k', md[k']) == PostingKey(k, v);
    if k' == k { SameKeySameValue(k, md[k], v); }
    assert Confuses(md, k, k', v);
  }

  /** A confusable pair makes some In filter list its id twice. */
  lemma ConfusionListsTwice(p: Postings, metadata: map<Id, Meta>, id: Id, number: Parser) returns (f: Filter)
    requires Indexed(p, metadata) && Confusable(Stored(metadata, id))
    ensures ValidFilter(f, number) && Selective(f) && Match(f, Stored(metadata, id), number) && Bag(SetsOf(p, f))[id] >= 2
  {
    hide PostingKey;
    var md := Stored(metadata, id);
    var k, k', rest :| Confuses(md, k, k', rest);
    f := Filter(k, OpIn, [md[k], rest]);
    var vs := f.values;
    assert vs[..1] == [md[k]] && [md[k]][..0] == [];
    assert Dedup([md[k]]) == [md[k]];
    assert Dedup(vs) == [md[k], rest];
    assert Holds(md, PostingKey(k, md[k])) && Holds(md, PostingKey(k, rest));
    assert id in At(p, PostingKey(k, md[k])) && id in At(p, PostingKey(k, rest));
    BagTwice(SetsOf(p, f), id, 0, 1);
  }

  /**
   Every selective filter lists each of its matches exactly once if and only
   if no stored metadata is confusable.
   */
  lemma OnceIffClear(p: Postings, metadata: map<Id, Meta>, number: Parser)
    requires Indexed(p, metadata)
    ensures (forall id: Id :: !Confusable(Stored(metadata, id))) <==>
            (forall f, id: Id :: ValidFilter(f, number) && Selective(f) && Match(f, Stored(metadata, id), number) ==> Bag(SetsOf(p, f))[id] == 1)
  {
    hide Confusable, Indexed, Match, Bag, SetsOf;
    if forall id: Id :: !Confusable(Stored(metadata, id)) {
      forall f, id: Id | ValidFilter(f, number) && Selective(f) && Match(f, Stored(metadata, id), number)
        ensures Bag(SetsOf(p, f))[id] == 1
      {
        ListedOnce(p, metadata, f, id, number);
      }
    } else {
      var id: Id :| Confusable(Stored(metadata, id));
      var f := ConfusionListsTwice(p, metadata, id, number);
      assert Bag(SetsOf(p, f))[id] != 1;
    }
  }

  lemma FirstNulEndsTheKey(k: string, v: string, k': string, v': string)
    requires '\0' !in k && '\0' !in k' && PostingKey(k, v) == PostingKey(k', v')
    ensures k == k'
  {
    var a := PostingKey(k, v);
    assert a[|k|] == '\0' && a[|k'|] == '\0';
    assert forall i :: 0 <= i < |k| ==> a[i] == k[i];
    assert forall i :: 0 <= i < |k'| ==> a[i] == k'[i];
    assert a[..|k|] == k && a[..|k'|] == k';
  }

  /** Keys without a NUL character are never confusable. */
  lemma NoNulIsClear(md: Meta)
    requires forall k :: k in md ==> '\0' !in k
    ensures !Confusable(md)
  {
    hide PostingKey;
    if Confusable(md) {
      var k, k', rest :| Confuses(md, k, k', rest);
      FirstNulEndsTheKey(k, rest, k', md[k']);
      assert false;
    }
  }

  /** Metadata that is confusable: the pair under "a NUL b" reads as one under "a". */
  lemma ConfusableExists()
    ensures Confusable(map["a" := "x", "a\0b" := "c"])
  {
    var md: Meta := map["a" := "x", "a\0b" := "c"];
    assert PostingKey("a\0b", "c") == "a\0b\0c" == PostingKey("a", "b\0c");
    assert Confuses(md, "a", "a\0b", "b\0c");
  }

  // ---- The code ----

  datatype Limit = AtMost(n: nat) | Unlimited

  lemma SetsStep(p: Postings, f: Filter, i: nat)
    requires i < |f.values|
    ensures var before := SetsOf(p, f.(values := f.values[..i])); var ids := At(p, PostingKey(f.key, f.values[i]));
            && SetsOf(p, f.(values := f.values[..i + 1])) == (if f.values[i] in f.values[..i] then before else before + [ids])
            && Total(before + [ids]) == Total(before) + |ids|
  {
    hide PostingKey;
    assert f.values[..i + 1][..i] == f.values[..i];
    var before := SetsOf(p, f.(values := f.values[..i]));
    assert (before + [At(p, PostingKey(f.key, f.values[i]))])[..|before|] == before;
  }

  lemma NoSets(p: Postings, f: Filter)
    ensures SetsOf(p, f.(values := [])) == [] && Total([]) == 0
  {
  }

  method FilterSets(p: Postings, f: Filter) returns (sets: seq<set<Id>>, size: nat)
    ensures sets == SetsOf(p, f) && size == Total(sets)
  {
    hide SetsOf, Total, PostingKey, At;
    sets, size := [], 0;
    var seen: set<string> := {};
    NoSets(p, f);
    assert f.values[..0] == [];
    for i := 0 to |f.values|
      invariant forall v :: v in seen <==> v in f.values[..i]
      invariant sets == SetsOf(p, f.(values := f.values[..i])) && size == Total(sets)
    {
      var v := f.values[i];
      SetsStep(p, f, i);
      assert f.values[..i + 1] == f.values[..i] + [v];
      if v !in seen {
        var ids := At(p, PostingKey(f.key, v));
        sets, size := sets + [ids], size + |ids|;
        seen := seen + {v};
      }
    }
    assert f.values[..|f.values|] == f.values;
  }

  method BestSets(p: Postings, fs: seq<Filter>) returns (best: Option<Pick>)
    ensures best == Best(p, fs)
  {
    hide SetsOf, Total;
    best := None;
    for i := 0 to |fs|
      invariant best == Best(p, fs[..i])
    {
      assert fs[..i + 1][..i] == fs[..i];
      if Selective(fs[i]) {
        var sets, size := FilterSets(p, fs[i]);
        if best == None || size < best.value.size {
          best := Some(Pick(sets, size));
        }
      }
    }
    assert fs[..|fs|] == fs;
  }

  /** The members of the sets, in any order. */
  method Pool(sets: seq<set<Id>>) returns (pool: seq<Id>)
    ensures multiset(pool) == Bag(sets)
  {
    pool := [];
    for i := 0 to |sets|
      invariant multiset(pool) == Bag(sets[..i])
    {
      var left := sets[i];
      ghost var before := multiset(pool);
      while left != {}
        invariant left <= sets[i] && multiset(pool) == before + multiset(sets[i] - left)
        decreases left
      {
        var id :| id in left;
        assert sets[i] - (left - {id}) == sets[i] - left + {id};
        pool := pool + [id];
        left := left - {id};
      }
      assert sets[i] - {} == sets[i];
      assert sets[..i + 1][..i] == sets[..i];
    }
    assert sets[..|sets|] == sets;
  }

  /** ids are the members of pool that match every filter, as often as pool has them. */
  ghost predicate Sifted(ids: seq<Id>, pool: multiset<Id>, metadata: map<Id, Meta>, number: Parser, fs: seq<Filter>)
    requires AllValid(fs, number)
  {
    forall id: Id :: multiset(ids)[id] == (if MatchesAll(Stored(metadata, id), fs, number) then pool[id] else 0)
  }

  /** Keeps the pool members whose metadata matches every filter. */
  method Keep(metadata: map<Id, Meta>, number: Parser, fs: seq<Filter>, pool: seq<Id>) returns (ids: seq<Id>)
    requires AllValid(fs, number)
    ensures Sifted(ids, multiset(pool), metadata, number, fs)
  {
    hide MatchesAll, AllValid;
    ids := [];
    for i := 0 to |pool|
      invariant Sifted(ids, multiset(pool[..i]), metadata, number, fs)
    {
      assert pool[..i + 1] == pool[..i] + [pool[i]];
      if MatchesAll(Stored(metadata, pool[i]), fs, number) {
        ids := ids + [pool[i]];
      }
    }
    assert pool[..|pool|] == pool;
  }

  /** The ids to be checked: the best posting lists if short enough, or all live ids. */
  ghost function PoolOf(p: Postings, fs: seq<Filter>, live: seq<Id>, limit: Limit): Option<multiset<Id>> {
    match Best(p, fs)
    case Some(best) => if limit == Unlimited || best.size <= limit.n then Some(Bag(best.sets)) else None
    case None => if limit == Unlimited then Some(multiset(live)) else None
  }

  lemma {:induction false} TotalIsSize(sets: seq<set<Id>>)
    ensures Total(sets) == |Bag(sets)|
    decreases |sets|
  {
    if sets != [] { TotalIsSize(sets[..|sets| - 1]); }
  }

  /** The filter lists at most n ids, those under several of its values counted as often. */
  ghost predicate ListsAtMost(p: Postings, f: Filter, n: nat) {
    (f.op == OpEq || f.op == OpIn) && |Bag(SetsOf(p, f))| <= n
  }

  /**
   A limited pool is offered exactly when some Eq or In filter lists no more ids
   than the limit, and it is the pool of one that lists fewest. Without a limit
   there always is a pool: such a one, or all live ids if no filter is Eq or In.
   */
  lemma PoolIs(p: Postings, fs: seq<Filter>, live: seq<Id>, n: nat)
    ensures PoolOf(p, fs, live, AtMost(n)).Some? <==> exists j :: 0 <= j < |fs| && ListsAtMost(p, fs[j], n)
    ensures PoolOf(p, fs, live, AtMost(n)).Some? ==> PoolOf(p, fs, live, AtMost(n)) == PoolOf(p, fs, live, Unlimited)
    ensures PoolOf(p, fs, live, Unlimited).Some?
    ensures (forall j :: 0 <= j < |fs| ==> fs[j].op != OpEq && fs[j].op != OpIn) ==> PoolOf(p, fs, live, Unlimited).value == multiset(live)
    ensures forall j :: 0 <= j < |fs| && (fs[j].op == OpEq || fs[j].op == OpIn) ==>
              |PoolOf(p, fs, live, Unlimited).value| <= |Bag(SetsOf(p, fs[j]))|
              && exists i :: 0 <= i < |fs| && Selective(fs[i]) && PoolOf(p, fs, live, Unlimited).value == Bag(SetsOf(p, fs[i]))
  {
    hide Best, Bag, SetsOf, Total;
    forall j | 0 <= j < |fs| && Selective(fs[j])
      ensures Best(p, fs).Some? && Best(p, fs).value.size == |Bag(Best(p, fs).value.sets)| <= |Bag(SetsOf(p, fs[j]))|
    {
      BestIsLeast(p, fs, j);
      TotalIsSize(SetsOf(p, fs[j]));
      TotalIsSize(Best(p, fs).value.sets);
    }
    if Best(p, fs).Some? {
      var i := BestIsSome(p, fs);
      assert Selective(fs[i]) && Best(p, fs).value.sets == SetsOf(p, fs[i]);
    }
  }

  method FilterCandidates(e: Index, live: seq<Id>, fs: seq<Filter>, limit: Limit) returns (ids: Option<seq<Id>>)
    requires e.Valid() && AllValid(fs, e.number)
    ensures ids.Some? <==> PoolOf(e.postings, fs, live, limit).Some?
    ensures ids.Some? ==> Sifted(ids.value, PoolOf(e.postings, fs, live, limit).value, e.metadata, e.number, fs)
  {
    hide Best, Bag, MatchesAll, AllValid, Indexed;
    var best := BestSets(e.postings, fs);
    var pool: seq<Id>;
    if best.Some? && (limit == Unlimited || best.value.size <= limit.n) {
      pool := Pool(best.value.sets);
    } else if best == None && limit == Unlimited {
      pool := live;
    } else {
      return None;
    }
    var kept := Keep(e.metadata, e.number, fs, pool);
    return Some(kept);
  }

  /** Whatever the metadata, the candidates are matches only, and every match is among them. */
  lemma CandidatesCover(p: Postings, metadata: map<Id, Meta>, number: Parser, fs: seq<Filter>, live: seq<Id>, limit: Limit, ids: seq<Id>)
    requires Indexed(p, metadata) && AllValid(fs, number) && PoolOf(p, fs, live, limit).Some?
    requires Sifted(ids, PoolOf(p, fs, live, limit).value, metadata, number, fs)
    ensures forall id: Id :: id in ids ==> MatchesAll(Stored(metadata, id), fs, number)
    ensures forall id: Id :: id in live && MatchesAll(Stored(metadata, id), fs, number) ==> id in ids
  {
    hide Best, Bag, Indexed, SetsOf, Match;
    forall id: Id | id in live && MatchesAll(Stored(metadata, id), fs, number) ensures id in ids {
      if Best(p, fs).Some? {
        var j := BestIsSome(p, fs);
        var i := MatchIsListed(p, metadata, fs[j], id, number);
        BagCounts(SetsOf(p, fs[j]), id, i);
      }
      assert id in ids <==> id in multiset(ids);
    }
    forall id: Id | id in ids ensures MatchesAll(Stored(metadata, id), fs, number) {
      assert id in multiset(ids);
    }
  }

  /** With clear metadata, the candidates are the matching ids, each once. */
  lemma CandidatesExact(p: Postings, metadata: map<Id, Meta>, number: Parser, fs: seq<Filter>, live: seq<Id>, limit: Limit, ids: seq<Id>)
    requires Indexed(p, metadata) && AllValid(fs, number) && PoolOf(p, fs, live, limit).Some?
    requires Sifted(ids, PoolOf(p, fs, live, limit).value, metadata, number, fs)
    requires forall id: Id :: !Confusable(Stored(metadata, id))
    requires forall id: Id :: multiset(live)[id] <= 1
    ensures forall id: Id :: multiset(ids)[id] <= 1
    ensures forall id: Id :: id in ids ==> MatchesAll(Stored(metadata, id), fs, number)
    ensures forall id: Id :: id in live && MatchesAll(Stored(metadata, id), fs, number) ==> id in ids
  {
    hide Best, Bag, Indexed, Confusable, SetsOf, Match;
    forall id: Id ensures multiset(ids)[id] <= 1
      && (id in live && MatchesAll(Stored(metadata, id), fs, number) ==> id in ids)
    {
      if MatchesAll(Stored(metadata, id), fs, number) && Best(p, fs).Some? {
        var j := BestIsSome(p, fs);
        ListedOnce(p, metadata, fs[j], id, number);
      }
      assert id in ids <==> id in multiset(ids);
    }
    forall id: Id | id in ids ensures MatchesAll(Stored(metadata, id), fs, number) {
      assert id in multiset(ids);
    }
  }
}
