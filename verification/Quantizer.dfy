/**
 Product quantization: codes, asymmetric distances, and the flat index.
 */
module Quantizer {
  import opened Bytes
  import opened Heap
  import opened Kmeans
  import opened Log
  import opened TopK

  /** One list of centroids per subspace. */
  datatype Codebook = Codebook(subDim: nat, k: nat, cents: seq<seq<Pt>>)

  type Code = seq<nat>

  ghost predicate Trained(cb: Codebook) {
    && 0 < cb.k <= 256
    && forall s :: 0 <= s < |cb.cents| ==> |cb.cents[s]| == cb.k && Uniform(cb.cents[s], cb.subDim)
  }

  /** The length of m subvectors. */
  function Size(m: nat, subDim: nat): nat {
    if m == 0 then 0 else Size(m - 1, subDim) + subDim
  }

  lemma {:induction false} SizeIsProduct(m: nat, subDim: nat)
    ensures Size(m, subDim) == m * subDim
  {
    if m > 0 {
      SizeIsProduct(m - 1, subDim);
      assert m * subDim == (m - 1) * subDim + subDim;
    }
  }

  lemma {:induction false} SizeGrows(m: nat, n: nat, subDim: nat)
    requires m <= n
    ensures Size(m, subDim) <= Size(n, subDim)
    decreases n
  {
    if m < n { SizeGrows(m, n - 1, subDim); }
  }

  function Dim(cb: Codebook): nat {
    Size(|cb.cents|, cb.subDim)
  }

  function Sub(v: Pt, s: nat, subDim: nat): (r: Pt)
    requires Size(s + 1, subDim) <= |v|
    ensures |r| == subDim
  {
    v[Size(s, subDim)..Size(s + 1, subDim)]
  }

  predicate CodeOk(cb: Codebook, code: Code) {
    |code| == |cb.cents| && forall s :: 0 <= s < |code| ==> code[s] < cb.k
  }

  // ---- Decoding and its distance ----

  ghost predicate CodeFits(cb: Codebook, code: Code) {
    |code| <= |cb.cents| && forall s :: 0 <= s < |code| ==> code[s] < cb.k
  }

  /** The assigned centroids one after another. */
  ghost function Decoded(cb: Codebook, code: Code): (v: Pt)
    requires Trained(cb) && CodeFits(cb, code)
    ensures |v| == Size(|code|, cb.subDim)
    decreases |code|
  {
    if code == [] then []
    else
      var n := |code| - 1;
      Decoded(cb, code[..n]) + cb.cents[n][code[n]]
  }

  /** The sum of a code's subspace distances. */
  ghost function Adc(cb: Codebook, q: Pt, code: Code): real
    requires Trained(cb) && CodeFits(cb, code) && Size(|code|, cb.subDim) <= |q|
    decreases |code|
  {
    if code == [] then 0.0
    else
      var n := |code| - 1;
      SizeGrows(n, n + 1, cb.subDim);
      Adc(cb, q, code[..n]) + SqDist(Sub(q, n, cb.subDim), cb.cents[n][code[n]])
  }

  lemma {:induction false} SqDistAppend(a: Pt, b: Pt, c: Pt, d: Pt)
    requires |a| == |c| && |b| == |d|
    ensures SqDist(a + b, c + d) == SqDist(a, c) + SqDist(b, d)
    decreases |b|
  {
    hide Sq;
    if b == [] {
      assert a + b == a && c + d == c;
    } else {
      var n := |b| - 1;
      SqDistAppend(a, b[..n], c, d[..n]);
      assert (a + b)[..|a + b| - 1] == a + b[..n];
      assert (c + d)[..|c + d| - 1] == c + d[..n];
    }
  }

  /** The table lookup computes the true squared distance to the decoded vector. */
  lemma {:induction false} AdcIsExact(cb: Codebook, q: Pt, code: Code)
    requires Trained(cb) && CodeFits(cb, code) && Size(|code|, cb.subDim) <= |q|
    ensures Adc(cb, q, code) == SqDist(q[..Size(|code|, cb.subDim)], Decoded(cb, code))
    decreases |code|
  {
    hide SqDist;
    if code == [] {
      NoDistance();
      assert q[..0] == [];
    } else {
      var n := |code| - 1;
      var lo, hi := Size(n, cb.subDim), Size(n + 1, cb.subDim);
      AdcIsExact(cb, q, code[..n]);
      SqDistAppend(q[..lo], Sub(q, n, cb.subDim), Decoded(cb, code[..n]), cb.cents[n][code[n]]);
      assert q[..hi] == q[..lo] + Sub(q, n, cb.subDim);
    }
  }

  lemma NoDistance()
    ensures SqDist([], []) == 0.0
  {
  }

  ghost predicate NearestCode(cb: Codebook, v: Pt, code: Code)
    requires Trained(cb) && Size(|cb.cents|, cb.subDim) <= |v| && |code| <= |cb.cents|
  {
    forall s :: 0 <= s < |code| ==> NearestAt(cb, v, s, code[s])
  }

  ghost predicate NearestAt(cb: Codebook, v: Pt, s: nat, c: nat)
    requires Trained(cb) && Size(|cb.cents|, cb.subDim) <= |v| && s < |cb.cents|
  {
    SizeGrows(s + 1, |cb.cents|, cb.subDim);
    IsNearest(Sub(v, s, cb.subDim), cb.cents[s], c)
  }

  lemma {:induction false} NearestCodeIsCheapest(cb: Codebook, v: Pt, code: Code, other: Code)
    requires Trained(cb) && Size(|cb.cents|, cb.subDim) <= |v| && CodeFits(cb, code) && CodeFits(cb, other) && |code| == |other|
    requires Size(|code|, cb.subDim) <= |v|
    requires NearestCode(cb, v, code)
    ensures Adc(cb, v, code) <= Adc(cb, v, other)
    decreases |code|
  {
    hide SqDist;
    if code != [] {
      var n := |code| - 1;
      SizeGrows(n, n + 1, cb.subDim);
      assert NearestAt(cb, v, n, code[n]);
      forall s | 0 <= s < n ensures NearestAt(cb, v, s, code[..n][s]) { assert NearestAt(cb, v, s, code[s]); }
      NearestCodeIsCheapest(cb, v, code[..n], other[..n]);
    }
  }

  /** Of all K^M codes, the encoder's is one whose decoding is closest to the vector. */
  lemma EncodeIsOptimal(cb: Codebook, v: Pt, code: Code, other: Code)
    requires Trained(cb) && |v| == Dim(cb) && CodeOk(cb, code) && CodeOk(cb, other) && NearestCode(cb, v, code)
    ensures SqDist(v, Decoded(cb, code)) <= SqDist(v, Decoded(cb, other))
  {
    hide SqDist, Adc, Decoded, NearestCode;
    NearestCodeIsCheapest(cb, v, code, other);
    AdcIsExact(cb, v, code);
    AdcIsExact(cb, v, other);
    assert v[..Dim(cb)] == v;
  }

  // ---- The code ----

  /** Nearest centroid per subspace; a vector of the wrong length is refused. */
  method Encode(cb: Codebook, v: Pt) returns (code: Option<Code>)
    requires Trained(cb)
    ensures code.Some? <==> |v| == |cb.cents| * cb.subDim
    ensures |cb.cents| * cb.subDim == Dim(cb)
    ensures code.Some? ==> CodeOk(cb, code.value) && NearestCode(cb, v, code.value)
  {
    SizeIsProduct(|cb.cents|, cb.subDim);
    if |v| != |cb.cents| * cb.subDim {
      return None;
    }
    var out: Code := [];
    for s := 0 to |cb.cents|
      invariant |out| == s && (forall i :: 0 <= i < s ==> out[i] < cb.k)
      invariant forall i :: 0 <= i < s ==> NearestAt(cb, v, i, out[i])
    {
      SizeGrows(s + 1, |cb.cents|, cb.subDim);
      var best := Nearest(Sub(v, s, cb.subDim), cb.cents[s]);
      out := out + [best];
    }
    return Some(out);
  }

  method Decode(cb: Codebook, code: Code) returns (v: Option<Pt>)
    requires Trained(cb)
    ensures v.Some? <==> CodeOk(cb, code)
    ensures v.Some? ==> v.value == Decoded(cb, code)
  {
    if |code| != |cb.cents| {
      return None;
    }
    var out: Pt := [];
    for s := 0 to |code|
      invariant CodeFits(cb, code[..s]) && out == Decoded(cb, code[..s])
    {
      if code[s] >= cb.k {
        return None;
      }
      assert code[..s + 1][..s] == code[..s];
      out := out + cb.cents[s][code[s]];
    }
    assert code[..|code|] == code;
    return Some(out);
  }

  /** Distances from q to every centroid of every subspace. */
  ghost predicate IsTable(cb: Codebook, q: Pt, table: seq<seq<real>>)
    requires Trained(cb) && |q| == Dim(cb)
  {
    |table| == |cb.cents| && forall s :: 0 <= s < |table| ==> TableRow(cb, q, s, table[s])
  }

  ghost predicate TableRow(cb: Codebook, q: Pt, s: nat, row: seq<real>)
    requires Trained(cb) && |q| == Dim(cb) && s < |cb.cents|
  {
    SizeGrows(s + 1, |cb.cents|, cb.subDim);
    |row| == cb.k && forall c :: 0 <= c < cb.k ==> row[c] == SqDist(Sub(q, s, cb.subDim), cb.cents[s][c])
  }

  method NewDistanceTable(cb: Codebook, q: Pt) returns (table: Option<seq<seq<real>>>)
    requires Trained(cb)
    ensures table.Some? <==> |q| == Dim(cb)
    ensures table.Some? ==> IsTable(cb, q, table.value)
  {
    hide SqDist;
    if |q| != Dim(cb) {
      return None;
    }
    var out: seq<seq<real>> := [];
    for s := 0 to |cb.cents|
      invariant |out| == s && forall i :: 0 <= i < s ==> TableRow(cb, q, i, out[i])
    {
      SizeGrows(s + 1, |cb.cents|, cb.subDim);
      var row: seq<real> := [];
      for c := 0 to cb.k
        invariant |row| == c && forall j :: 0 <= j < c ==> row[j] == SqDist(Sub(q, s, cb.subDim), cb.cents[s][j])
      {
        row := row + [SqDist(Sub(q, s, cb.subDim), cb.cents[s][c])];
      }
      out := out + [row];
    }
    return Some(out);
  }

  lemma AdcStep(cb: Codebook, q: Pt, table: seq<seq<real>>, code: Code, s: nat)
    requires Trained(cb) && |q| == Dim(cb) && IsTable(cb, q, table) && s < |code| == |cb.cents|
    requires CodeFits(cb, code[..s]) && code[s] < cb.k && Size(s, cb.subDim) <= |q| && Size(s + 1, cb.subDim) <= |q|
    ensures CodeFits(cb, code[..s + 1]) && code[s] < |table[s]|
    ensures Adc(cb, q, code[..s + 1]) == Adc(cb, q, code[..s]) + table[s][code[s]]
  {
    hide SqDist, Sub;
    assert code[..s + 1][..s] == code[..s];
    assert TableRow(cb, q, s, table[s]);
  }

  lemma NoAdc(cb: Codebook, q: Pt, code: Code)
    requires Trained(cb)
    ensures CodeFits(cb, code[..0]) && Size(0, cb.subDim) == 0 && Adc(cb, q, code[..0]) == 0.0
  {
  }

  /** One lookup per subspace; None stands for the infinite distance of a malformed code. */
  method Distance(cb: Codebook, ghost q: Pt, table: seq<seq<real>>, code: Code) returns (d: Option<real>)
    requires Trained(cb) && |q| == Dim(cb) && IsTable(cb, q, table)
    ensures d.Some? <==> CodeOk(cb, code)
    ensures d.Some? ==> d.value == SqDist(q, Decoded(cb, code))
  {
    hide SqDist, Adc, Decoded, TableRow;
    NoAdc(cb, q, code);
    if |code| != |cb.cents| {
      return None;
    }
    var sum := 0.0;
    for s := 0 to |code|
      invariant CodeFits(cb, code[..s]) && Size(s, cb.subDim) <= |q| && sum == Adc(cb, q, code[..s])
    {
      if code[s] >= cb.k {
        return None;
      }
      SizeGrows(s + 1, |cb.cents|, cb.subDim);
      AdcStep(cb, q, table, code, s);
      sum := sum + table[s][code[s]];
    }
    assert code[..|code|] == code;
    AdcIsExact(cb, q, code);
    assert q[..Dim(cb)] == q;
    return Some(sum);
  }

  // ---- Scanning codes ----

  ghost predicate CodesOk(cb: Codebook, codes: map<Id, Code>) {
    forall id :: id in codes ==> CodeOk(cb, codes[id])
  }

  ghost function ScoreOf(cb: Codebook, q: Pt, codes: map<Id, Code>, id: Id): Cand
    requires Trained(cb) && |q| == Dim(cb) && CodesOk(cb, codes) && id in codes
  {
    Cand(id, SqDist(q, Decoded(cb, codes[id])))
  }

  /** Every listed id with its squared distance to q. */
  ghost function Scores(cb: Codebook, q: Pt, codes: map<Id, Code>, ids: set<Id>): set<Cand>
    requires Trained(cb) && |q| == Dim(cb) && CodesOk(cb, codes)
  {
    set id | id in ids && id in codes :: ScoreOf(cb, q, codes, id)
  }

  lemma ScoresOneMore(cb: Codebook, q: Pt, codes: map<Id, Code>, ids: set<Id>, id: Id)
    requires Trained(cb) && |q| == Dim(cb) && CodesOk(cb, codes) && id in codes && id !in ids
    ensures multiset(Scores(cb, q, codes, ids + {id})) == multiset(Scores(cb, q, codes, ids)) + multiset{ScoreOf(cb, q, codes, id)}
  {
    hide SqDist, Decoded;
    var c := ScoreOf(cb, q, codes, id);
    var before := Scores(cb, q, codes, ids);
    assert c !in before;
    assert Scores(cb, q, codes, ids + {id}) == before + {c};
  }

  /** Offers every code of a map, in any order, to a heap that keeps the topK nearest. */
  method ScanCodes(cb: Codebook, ghost q: Pt, table: seq<seq<real>>, codes: map<Id, Code>, hp: Heap, topK: nat, ghost seen: multiset<Cand>)
    requires Trained(cb) && |q| == Dim(cb) && IsTable(cb, q, table) && CodesOk(cb, codes) && topK > 0
    requires hp.Valid() && hp.order == Farther && IsBest(multiset(hp.h), seen, topK)
    modifies hp
    ensures hp.Valid() && IsBest(multiset(hp.h), seen + multiset(Scores(cb, q, codes, codes.Keys)), topK)
  {
    hide SqDist, Decoded, IsBest, IsTable, Scores;
    var left := codes.Keys;
    ghost var done: set<Id> := {};
    NoScores(cb, q, codes);
    assert seen + multiset(Scores(cb, q, codes, done)) == seen;
    while left != {}
      invariant left <= codes.Keys && done == codes.Keys - left
      invariant hp.Valid() && IsBest(multiset(hp.h), seen + multiset(Scores(cb, q, codes, done)), topK)
      decreases left
    {
      var id :| id in left;
      var d := Distance(cb, q, table, codes[id]);
      ScoresOneMore(cb, q, codes, done, id);
      assert seen + multiset(Scores(cb, q, codes, done)) + multiset{ScoreOf(cb, q, codes, id)} == seen + multiset(Scores(cb, q, codes, done + {id}));
      Offer(hp, topK, Cand(id, d.value), seen + multiset(Scores(cb, q, codes, done)));
      left, done := left - {id}, done + {id};
    }
    assert done == codes.Keys;
  }

  lemma NoScores(cb: Codebook, q: Pt, codes: map<Id, Code>)
    requires Trained(cb) && |q| == Dim(cb) && CodesOk(cb, codes)
    ensures Scores(cb, q, codes, {}) == {}
  {
  }

  lemma NothingBest(k: nat)
    ensures IsBest(multiset{}, multiset{}, k)
  {
  }

  class FlatIndex {
    const cb: Codebook
    var codes: map<Id, Code>

    ghost predicate Valid()
      reads this
    {
      Trained(cb) && CodesOk(cb, codes)
    }

    constructor (cb: Codebook)
      requires Trained(cb)
      ensures Valid() && this.cb == cb && codes == map[]
    {
      this.cb, codes := cb, map[];
    }

    method Insert(id: Id, v: Pt) returns (ok: bool)
      requires Valid()
      modifies this
      ensures Valid() && (ok <==> |v| == Dim(cb))
      ensures !ok ==> codes == old(codes)
      ensures ok ==> id in codes && NearestCode(cb, v, codes[id]) && codes == old(codes)[id := codes[id]]
    {
      var code := Encode(cb, v);
      if code == None {
        return false;
      }
      codes := codes[id := code.value];
      return true;
    }

    method Delete(id: Id)
      requires Valid()
      modifies this
      ensures Valid() && codes == old(codes) - {id}
    {
      codes := codes - {id};
    }

    /** The topK stored codes closest to q. */
    method Search(q: Pt, topK: nat) returns (out: Option<seq<Cand>>)
      requires Valid()
      ensures out.Some? <==> topK == 0 || |q| == Dim(cb)
      ensures out.Some? ==> if topK == 0 then out.value == [] else IsTopK(out.value, multiset(Scores(cb, q, codes, codes.Keys)), topK)
    {
      hide SqDist, Decoded, IsBest, IsTable, Scores;
      if topK == 0 {
        return Some([]);
      }
      var table := NewDistanceTable(cb, q);
      if table == None {
        return None;
      }
      var hp := new Heap(Farther);
      NothingBest(topK);
      ScanCodes(cb, q, table.value, codes, hp, topK, multiset{});
      assert multiset{} + multiset(Scores(cb, q, codes, codes.Keys)) == multiset(Scores(cb, q, codes, codes.Keys));
      var found := Drain(hp);
      return Some(found);
    }
  }
}
