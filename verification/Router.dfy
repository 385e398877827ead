/**
 Scatter-gather search: every shard answers for its own ids, and the router
 merges the answers.
 */
module Router {
  import opened Bytes
  import opened Common
  import opened Heap
  import opened TopK

  const MAX_INT32: int := 0x7FFF_FFFF

  /** The shard an id belongs to; the hash is fixed for the life of the cluster. */
  function ShardFor(hash: nat -> nat, id: nat, shards: int): (s: nat)
    ensures s < if shards <= 0 then 1 else shards
  {
    if shards <= 0 then 0 else hash(id) % shards
  }

  /** Ids share a shard exactly when their hashes differ by a multiple of the number of shards. */
  lemma SameShardIff(hash: nat -> nat, a: nat, b: nat, shards: int)
    requires shards > 0
    ensures ShardFor(hash, a, shards) == ShardFor(hash, b, shards) <==> exists k: int :: hash(a) - hash(b) == Times(k, shards)
    ensures hash(a) < shards ==> ShardFor(hash, a, shards) == hash(a)
  {
    var x, y := hash(a), hash(b);
    assert x == Times(x / shards, shards) + x % shards && y == Times(y / shards, shards) + y % shards;
    if x % shards == y % shards {
      assert x - y == Times(x / shards - y / shards, shards);
    }
    if k: int :| x - y == Times(k, shards) {
      SameRemainder(shards, x / shards - y / shards - k, x % shards - y % shards);
    }
    if x < shards { SameRemainder(shards, x / shards, x % shards - x); }
  }

  function Times(k: int, n: int): int {
    k * n
  }

  lemma SameRemainder(n: int, k: int, r: int)
    requires n > 0 && Times(k, n) + r == 0 && -n < r < n
    ensures k == 0 && r == 0
  {
    TimesGrows(k, n);
  }

  lemma TimesGrows(k: int, n: int)
    requires n > 0
    ensures (k >= 1 ==> Times(k, n) >= n) && (k <= -1 ==> Times(k, n) <= -n)
  {
    if k >= 1 {
      assert Times(k, n) == n + (k - 1) * n;
    } else if k <= -1 {
      assert Times(k, n) == -n + (k + 1) * n;
    }
  }

  // ---- A part may be replaced by its own top k ----

  lemma SomethingLeftOut(a: multiset<Cand>, b: multiset<Cand>, x: Cand) returns (c: Cand)
    requires |a| == |b| && x in a && x !in b
    ensures c in b - a
  {
    if b <= a {
      FullMultiset(b, a);
      assert false;
    }
    c :| b[c] > a[c];
  }

  lemma StillNear(t: multiset<Cand>, c: multiset<Cand>, p: multiset<Cand>, rest: multiset<Cand>, k: nat, x: Cand, y: Cand)
    requires IsBest(c, p, k) && IsBest(t, c + rest, k) && |p| > k && x in t && y in p + rest - t
    ensures x.dist <= y.dist
  {
    if y in c + rest - t {
      assert Below(t, c + rest - t);
    } else {
      assert y in p - c;
      if x.dist > y.dist {
        assert x !in c;
        assert |c + rest| >= k;
        var z := SomethingLeftOut(t, c, x);
        assert false;
      }
    }
  }

  /** The best k of a collection are the best k of it with one part cut to that part's best k. */
  lemma ReplacePart(t: multiset<Cand>, c: multiset<Cand>, p: multiset<Cand>, rest: multiset<Cand>, k: nat)
    requires IsBest(c, p, k) && IsBest(t, c + rest, k)
    ensures IsBest(t, p + rest, k)
  {
    hide Below;
    SubMultisetSize(c, p);
    if |p| <= k {
      FullMultiset(c, p);
    } else {
      assert t <= p + rest;
      assert Below(t, p + rest - t) by { AllNear(t, c, p, rest, k); }
    }
  }

  lemma AllNear(t: multiset<Cand>, c: multiset<Cand>, p: multiset<Cand>, rest: multiset<Cand>, k: nat)
    requires IsBest(c, p, k) && IsBest(t, c + rest, k) && |p| > k
    ensures Below(t, p + rest - t)
  {
    hide IsBest;
    forall x, y | x in t && y in p + rest - t ensures x.dist <= y.dist {
      StillNear(t, c, p, rest, k, x, y);
    }
  }

  // ---- All shards ----

  function Gathered(answers: seq<Option<seq<Cand>>>): seq<Cand> {
    if answers == [] then []
    else
      match answers[|answers| - 1]
      case None => Gathered(answers[..|answers| - 1])
      case Some(a) => Gathered(answers[..|answers| - 1]) + a
  }

  /** What the shards that answered hold, in all. */
  ghost function Answering(answers: seq<Option<seq<Cand>>>, parts: seq<multiset<Cand>>): multiset<Cand>
    requires |answers| == |parts|
    decreases |parts|
  {
    if parts == [] then multiset{}
    else
      var n := |parts| - 1;
      Answering(answers[..n], parts[..n]) + if answers[n] == None then multiset{} else parts[n]
  }

  /** Every shard that answered sent an exact top k of its part. */
  ghost predicate EachExact(answers: seq<Option<seq<Cand>>>, parts: seq<multiset<Cand>>, k: nat) {
    |answers| == |parts| && forall s :: 0 <= s < |answers| && answers[s].Some? ==> IsTopK(answers[s].value, parts[s], k)
  }

  lemma {:induction false} BestOfBest(answers: seq<Option<seq<Cand>>>, parts: seq<multiset<Cand>>, k: nat, t: multiset<Cand>, rest: multiset<Cand>)
    requires EachExact(answers, parts, k) && IsBest(t, multiset(Gathered(answers)) + rest, k)
    ensures IsBest(t, Answering(answers, parts) + rest, k)
    decreases |answers|
  {
    hide IsBest, Sorted;
    if answers != [] {
      var n := |answers| - 1;
      var front := multiset(Gathered(answers[..n]));
      if answers[n] == None {
        BestOfBest(answers[..n], parts[..n], k, t, rest);
        assert Answering(answers, parts) == Answering(answers[..n], parts[..n]);
      } else {
        var mine := multiset(answers[n].value);
        assert multiset(Gathered(answers)) + rest == front + (mine + rest);
        BestOfBest(answers[..n], parts[..n], k, t, mine + rest);
        var others := Answering(answers[..n], parts[..n]);
        assert others + (mine + rest) == mine + (others + rest);
        ReplacePart(t, mine, parts[n], others + rest, k);
        assert parts[n] + (others + rest) == Answering(answers, parts) + rest;
      }
    }
  }

  /**
   Sorting and cutting what the shards sent, in whatever order equal distances
   come, is a top k of everything those shards hold.
   */
  lemma MergeIsTopK(answers: seq<Option<seq<Cand>>>, parts: seq<multiset<Cand>>, k: nat, out: seq<Cand>)
    requires EachExact(answers, parts, k) && IsTopK(out, multiset(Gathered(answers)), k)
    ensures IsTopK(out, Answering(answers, parts), k)
  {
    hide IsBest, Sorted;
    assert multiset(Gathered(answers)) + multiset{} == multiset(Gathered(answers));
    BestOfBest(answers, parts, k, multiset(out), multiset{});
    assert Answering(answers, parts) + multiset{} == Answering(answers, parts);
  }

  // ---- The collection as shards hold it ----

  ghost predicate UniqueIds(all: set<Cand>) {
    forall a, b :: a in all && b in all && a.id == b.id ==> a == b
  }

  ghost function Part(all: set<Cand>, hash: nat -> nat, shards: nat, s: nat): set<Cand> {
    set c | c in all && ShardFor(hash, c.id, shards) == s
  }

  ghost function Parts(all: set<Cand>, hash: nat -> nat, shards: nat): (ps: seq<multiset<Cand>>)
    ensures |ps| == shards && forall s :: 0 <= s < shards ==> ps[s] == multiset(Part(all, hash, shards, s))
  {
    seq(shards, s requires 0 <= s < shards => multiset(Part(all, hash, shards, s)))
  }

  /** The members of the first n shards. */
  ghost function First(all: set<Cand>, hash: nat -> nat, shards: nat, n: nat): set<Cand> {
    set c | c in all && ShardFor(hash, c.id, shards) < n
  }

  lemma NoneFirst(all: set<Cand>, hash: nat -> nat, shards: nat)
    ensures First(all, hash, shards, 0) == {}
  {
  }

  lemma FirstGrows(all: set<Cand>, hash: nat -> nat, shards: nat, n: nat)
    ensures multiset(First(all, hash, shards, n + 1)) == multiset(First(all, hash, shards, n)) + multiset(Part(all, hash, shards, n))
  {
    hide ShardFor;
    var x, y := First(all, hash, shards, n), Part(all, hash, shards, n);
    assert First(all, hash, shards, n + 1) == x + y && x !! y;
  }

  lemma {:induction false} PartsCover(all: set<Cand>, hash: nat -> nat, shards: nat, answers: seq<Option<seq<Cand>>>, n: nat)
    requires |answers| == shards && n <= shards && forall s :: 0 <= s < shards ==> answers[s].Some?
    ensures Answering(answers[..n], Parts(all, hash, shards)[..n]) == multiset(First(all, hash, shards, n))
  {
    hide ShardFor, First, Part;
    if n > 0 {
      var a, p := answers[..n], Parts(all, hash, shards)[..n];
      PartsCover(all, hash, shards, answers, n - 1);
      assert a[..n - 1] == answers[..n - 1] && p[..n - 1] == Parts(all, hash, shards)[..n - 1];
      FirstGrows(all, hash, shards, n - 1);
    } else {
      NoneFirst(all, hash, shards);
    }
  }

  /**
   If every shard sends an exact top k of the ids that hash to it, the merged
   list is a top k of the whole collection, and no id is in it twice.
   */
  lemma ScatterGatherIsExact(all: set<Cand>, hash: nat -> nat, shards: nat, answers: seq<Option<seq<Cand>>>, k: nat, out: seq<Cand>)
    requires shards > 0 && |answers| == shards && UniqueIds(all) && forall s :: 0 <= s < shards ==> answers[s].Some?
    requires EachExact(answers, Parts(all, hash, shards), k) && IsTopK(out, multiset(Gathered(answers)), k)
    ensures IsTopK(out, multiset(all), k) && forall i, j :: 0 <= i < j < |out| ==> out[i].id != out[j].id
  {
    hide ShardFor, IsBest, Sorted;
    var parts := Parts(all, hash, shards);
    PartsCover(all, hash, shards, answers, shards);
    assert answers[..shards] == answers && parts[..shards] == parts;
    assert First(all, hash, shards, shards) == all by { EveryShard(all, hash, shards); }
    MergeIsTopK(answers, parts, k, out);
    NoIdTwice(out, all, k);
  }

  lemma EveryShard(all: set<Cand>, hash: nat -> nat, shards: nat)
    requires shards > 0
    ensures First(all, hash, shards, shards) == all
  {
  }

  lemma NoIdTwice(out: seq<Cand>, all: set<Cand>, k: nat)
    requires UniqueIds(all) && IsTopK(out, multiset(all), k)
    ensures forall i, j :: 0 <= i < j < |out| ==> out[i].id != out[j].id
  {
    hide Sorted, Below;
    forall i, j | 0 <= i < j < |out| ensures out[i].id != out[j].id {
      assert out[i] in multiset(out) && out[j] in multiset(out);
      if out[i] == out[j] {
        CountTwice(out, i, j);
      }
    }
  }

  // ---- The code ----

  datatype Reply = Invalid | NoShardAnswered(failed: set<nat>) | Partial(matches: seq<Cand>, failed: set<nat>) | Complete(matches: seq<Cand>)

  predicate AllFailed(answers: seq<Option<seq<Cand>>>) {
    forall s :: 0 <= s < |answers| ==> answers[s] == None
  }

  predicate NoneFailed(answers: seq<Option<seq<Cand>>>) {
    forall s :: 0 <= s < |answers| ==> answers[s].Some?
  }

  lemma CutSorted(all: seq<Cand>, k: nat)
    ensures BruteForce(all, k) == if |Sort(all)| > k then Sort(all)[..k] else Sort(all)
    ensures IsTopK(BruteForce(all, k), multiset(all), k)
  {
    hide Sort, IsTopK;
    TopKIsBruteForce([], all, k);
  }

  /** Merges what the shards sent; shards that sent nothing are reported. */
  method Merge(answers: seq<Option<seq<Cand>>>, topK: int, efSearch: int) returns (r: Reply)
    ensures r.Invalid? <==> !(answers != [] && 1 <= topK <= 0x7FFF_FFFF && 0 <= efSearch <= 0x7FFF_FFFF)
    ensures r.NoShardAnswered? <==> !r.Invalid? && AllFailed(answers)
    ensures r.Complete? <==> !r.Invalid? && NoneFailed(answers)
    ensures r.Partial? <==> !r.Invalid? && !AllFailed(answers) && !NoneFailed(answers)
    ensures r.Partial? || r.Complete? ==> r.matches == BruteForce(Gathered(answers), topK) && IsTopK(r.matches, multiset(Gathered(answers)), topK)
    ensures r.Partial? || r.NoShardAnswered? ==> forall s: nat :: s in r.failed <==> s < |answers| && answers[s] == None
  {
    hide IsTopK, BruteForce, Sort;
    if |answers| == 0 || topK <= 0 || topK > MAX_INT32 || efSearch < 0 || efSearch > MAX_INT32 {
      return Invalid;
    }
    var merged: seq<Cand> := [];
    var failed: set<nat> := {};
    for s := 0 to |answers|
      invariant merged == Gathered(answers[..s])
      invariant forall x: nat :: x in failed <==> x < s && answers[x] == None
      invariant |failed| <= s && (|failed| == s <==> AllFailed(answers[..s])) && (failed == {} <==> NoneFailed(answers[..s]))
    {
      assert answers[..s + 1] == answers[..s] + [answers[s]];
      assert answers[..s + 1][..s] == answers[..s];
      if answers[s] == None {
        failed := failed + {s};
        continue;
      }
      merged := merged + answers[s].value;
    }
    assert answers[..|answers|] == answers;
    var sorted := Sort(merged);
    CutSorted(merged, topK);
    if |sorted| > topK {
      sorted := sorted[..topK];
    }
    if |failed| == |answers| {
      return NoShardAnswered(failed);
    }
    if |failed| > 0 {
      return Partial(sorted, failed);
    }
    return Complete(sorted);
  }
}
