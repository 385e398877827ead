/**
 Metadata filters and the postings index that answers selective ones.
 */
module Filters {
  import opened Bytes
  import opened Log

  type Meta = map<string, string>

  datatype FilterOp = OpEq | OpNe | OpIn | OpNotIn | OpGt | OpGte | OpLt | OpLte | OpExists

  datatype Filter = Filter(key: string, op: FilterOp, values: seq<string>)

  /** Reads a string as a number, or fails. */
  type Parser = string -> Option<real>

  predicate ValidFilter(f: Filter, number: Parser) {
    match f.op
    case OpEq | OpNe => |f.values| == 1
    case OpIn | OpNotIn => |f.values| > 0
    case OpGt | OpGte | OpLt | OpLte => |f.values| == 1 && number(f.values[0]).Some?
    case OpExists => true
  }

  predicate Match(f: Filter, md: Meta, number: Parser)
    requires ValidFilter(f, number)
  {
    var here := f.key in md;
    match f.op
    case OpEq => here && md[f.key] == f.values[0]
    case OpNe => !here || md[f.key] != f.values[0]
    case OpIn => here && md[f.key] in f.values
    case OpNotIn => !here || md[f.key] !in f.values
    case OpExists => here
    case _ =>
      if !here || number(md[f.key]) == None then false
      else
        var x, want := number(md[f.key]).value, number(f.values[0]).value;
        match f.op
        case OpGt => x > want
        case OpGte => x >= want
        case OpLt => x < want
        case _ => x <= want
  }

  predicate AllValid(fs: seq<Filter>, number: Parser) {
    forall i :: 0 <= i < |fs| ==> ValidFilter(fs[i], number)
  }

  predicate MatchesAll(md: Meta, fs: seq<Filter>, number: Parser)
    requires AllValid(fs, number)
  {
    forall i :: 0 <= i < |fs| ==> Match(fs[i], md, number)
  }

  // ---- What the operators mean ----

  function Same(key: string, value: string): Filter {
    Filter(key, OpEq, [value])
  }

  /** Equality holds exactly of metadata that setting the key to the value leaves as it is. */
  lemma EqIsFixed(md: Meta, number: Parser, key: string, value: string)
    ensures Match(Same(key, value), md, number) <==> md[key := value] == md
  {
  }

  /** Every other operator on values, in terms of equality alone. */
  lemma ValueOperators(md: Meta, number: Parser, key: string, value: string, values: seq<string>)
    requires values != []
    ensures Match(Filter(key, OpNe, [value]), md, number) <==> !Match(Same(key, value), md, number)
    ensures Match(Filter(key, OpIn, values), md, number) <==>
              exists i :: 0 <= i < |values| && Match(Same(key, values[i]), md, number)
    ensures Match(Filter(key, OpNotIn, values), md, number) <==>
              forall i :: 0 <= i < |values| ==> !Match(Same(key, values[i]), md, number)
    ensures Match(Filter(key, OpExists, values), md, number) <==> exists v :: Match(Same(key, v), md, number)
  {
    assert key in md ==> Match(Same(key, md[key]), md, number);
  }

  /** key holds a number, and it is x. */
  predicate Reads(md: Meta, number: Parser, key: string, x: real) {
    key in md && number(md[key]) == Some(x)
  }

  /**
   The comparisons. A value that is no number, or is not there, matches none of
   them. A number above the bound matches Gt and Gte, one below it Lt and Lte, and
   one equal to it Gte and Lte: so each of Gt and Lte, Lt and Gte decides.
   */
  lemma NumberOperators(md: Meta, number: Parser, key: string, bound: string)
    requires number(bound).Some?
    ensures var want := number(bound).value;
            var gt, gte := Match(Filter(key, OpGt, [bound]), md, number), Match(Filter(key, OpGte, [bound]), md, number);
            var lt, lte := Match(Filter(key, OpLt, [bound]), md, number), Match(Filter(key, OpLte, [bound]), md, number);
            && ((forall x :: !Reads(md, number, key, x)) ==> !gt && !gte && !lt && !lte)
            && forall x :: Reads(md, number, key, x) ==>
                 && (x > want ==> gt && gte && !lt && !lte)
                 && (x < want ==> !gt && !gte && lt && lte)
                 && (x == want ==> !gt && gte && !lt && lte)
                 && gt != lte && lt != gte
  {
    if key in md && number(md[key]).Some? {
      assert Reads(md, number, key, number(md[key]).value);
    }
  }

  /** Which filters are refused: the wrong number of values, or a bound that is no number. */
  lemma ValidFilters(f: Filter, number: Parser)
    ensures f.op in {OpEq, OpNe} ==> (ValidFilter(f, number) <==> exists v :: f.values == [v])
    ensures f.op in {OpIn, OpNotIn} ==> (ValidFilter(f, number) <==> f.values != [])
    ensures f.op in {OpGt, OpGte, OpLt, OpLte} ==> (ValidFilter(f, number) <==> exists v :: f.values == [v] && number(v).Some?)
    ensures f.op == OpExists ==> ValidFilter(f, number)
  {
    assert |f.values| == 1 ==> f.values == [f.values[0]];
  }

  /** All filters have to match. */
  lemma MatchesAllIs(md: Meta, fs: seq<Filter>, f: Filter, number: Parser)
    requires AllValid(fs, number) && ValidFilter(f, number)
    ensures MatchesAll(md, [], number) && AllValid(fs + [f], number)
    ensures MatchesAll(md, fs + [f], number) <==> MatchesAll(md, fs, number) && Match(f, md, number)
  {
    hide Match, ValidFilter;
    var all := fs + [f];
    assert all[|fs|] == f && forall i :: 0 <= i < |fs| ==> all[i] == fs[i];
  }

  function Stored(metadata: map<Id, Meta>, id: Id): Meta {
    if id in metadata then metadata[id] else map[]
  }

  // ---- The postings index ----

  function PostingKey(k: string, v: string): string {
    k + "\0" + v
  }

  type Postings = map<string, set<Id>>

  function At(p: Postings, key: string): set<Id> {
    if key in p then p[key] else {}
  }

  /** Some pair among the given keys of md has this posting key. */
  ghost predicate HoldsIn(md: Meta, ks: set<string>, key: string) {
    exists k :: k in ks && k in md && PostingKey(k, md[k]) == key
  }

  ghost predicate Holds(md: Meta, key: string) {
    HoldsIn(md, md.Keys, key)
  }

  /** p lists under each key exactly the ids holding it, and has no empty entry. */
  ghost predicate Indexed(p: Postings, metadata: map<Id, Meta>) {
    && (forall key, id: Id :: id in At(p, key) <==> id in metadata && Holds(metadata[id], key))
    && forall key :: key in p ==> p[key] != {}
  }

  /** The index is a function of the metadata: however it was reached, it is the same map. */
  lemma IndexedUnique(p: Postings, q: Postings, metadata: map<Id, Meta>)
    requires Indexed(p, metadata) && Indexed(q, metadata)
    ensures p == q
  {
    hide Holds;
    forall key ensures At(p, key) == At(q, key) {
      forall id: Id ensures id in At(p, key) <==> id in At(q, key) {
        assert id in At(p, key) <==> id in metadata && Holds(metadata[id], key);
        assert id in At(q, key) <==> id in metadata && Holds(metadata[id], key);
      }
    }
    forall key ensures key in p <==> key in q {
      assert At(p, key) == At(q, key);
    }
    forall key | key in p ensures p[key] == q[key] {
      assert At(p, key) == At(q, key);
    }
  }

  function AddPosting(p: Postings, key: string, id: Id): Postings {
    p[key := At(p, key) + {id}]
  }

  function DropPosting(p: Postings, key: string, id: Id): Postings {
    if At(p, key) - {id} == {} then p - {key} else p[key := p[key] - {id}]
  }

  ghost predicate NoEmpty(p: Postings) {
    forall key :: key in p ==> p[key] != {}
  }

  lemma AddPostingIs(p: Postings, key: string, id: Id)
    requires NoEmpty(p)
    ensures NoEmpty(AddPosting(p, key, id))
    ensures forall k, x: Id :: x in At(AddPosting(p, key, id), k) <==> x in At(p, k) || (k == key && x == id)
  {
  }

  lemma DropPostingIs(p: Postings, key: string, id: Id)
    requires NoEmpty(p)
    ensures NoEmpty(DropPosting(p, key, id))
    ensures forall k, x: Id :: x in At(DropPosting(p, key, id), k) <==> x in At(p, k) && !(k == key && x == id)
  {
  }

  class Index {
    const number: Parser
    var metadata: map<Id, Meta>
    var postings: Postings

    ghost predicate Valid()
      reads this
    {
      Indexed(postings, metadata)
    }

    /** Builds the postings of a loaded metadata map. */
    constructor (metadata: map<Id, Meta>, number: Parser)
      ensures Valid() && this.metadata == metadata && this.number == number
    {
      this.metadata, this.number := metadata, number;
      new;
      postings := BuildPostings(metadata);
    }

    /** Replaces id's metadata; an empty map clears it. */
    method SetMeta(id: Id, md: Meta)
      requires Valid()
      modifies this
      ensures Valid()
      ensures metadata == if md == map[] then old(metadata) - {id} else old(metadata)[id := md]
    {
      hide Indexed, Holds;
      ghost var p0, m0 := postings, metadata;
      IndexedNoEmpty(p0, m0);
      var was := Stored(metadata, id);
      postings := DropAll(postings, id, was);
      if |md| == 0 {
        metadata := metadata - {id};
        HoldsNothing();
        IndexedAfter(p0, m0, postings, id, map[], metadata);
        return;
      }
      metadata := metadata[id := md];
      postings := AddAll(postings, id, md);
      IndexedAfter(p0, m0, postings, id, md, metadata);
    }
  }

  lemma IndexedNoEmpty(p: Postings, metadata: map<Id, Meta>)
    requires Indexed(p, metadata)
    ensures NoEmpty(p)
  {
  }

  lemma OneMoreKey(md: Meta, ks: set<string>, k: string)
    requires k in md
    ensures forall key :: HoldsIn(md, ks + {k}, key) <==> HoldsIn(md, ks, key) || PostingKey(k, md[k]) == key
  {
    hide PostingKey;
    forall key ensures HoldsIn(md, ks + {k}, key) <==> HoldsIn(md, ks, key) || PostingKey(k, md[k]) == key {
      if HoldsIn(md, ks, key) {
        var j :| j in ks && j in md && PostingKey(j, md[j]) == key;
        assert j in ks + {k};
      }
      if PostingKey(k, md[k]) == key { assert k in ks + {k}; }
    }
  }

  /** Old pairs out, new pairs in. */
  lemma IndexedAfter(p: Postings, metadata: map<Id, Meta>, q: Postings, id: Id, md: Meta, after: map<Id, Meta>)
    requires Indexed(p, metadata) && NoEmpty(q)
    requires forall key, x: Id :: x in At(q, key) <==>
               (x in At(p, key) && !(x == id && Holds(Stored(metadata, id), key))) || (x == id && Holds(md, key))
    requires after == if md == map[] then metadata - {id} else metadata[id := md]
    ensures Indexed(q, after)
  {
    hide HoldsIn;
    forall key, x: Id ensures x in At(q, key) <==> x in after && Holds(after[x], key) {
      if x == id {
        HoldsNothing();
        assert x in At(p, key) ==> Holds(Stored(metadata, id), key);
      }
    }
  }

  lemma HoldsNothing()
    ensures forall key :: !Holds(map[], key)
  {
  }

  /** The postings of a whole metadata map, one pair at a time. */
  method BuildPostings(metadata: map<Id, Meta>) returns (p: Postings)
    ensures Indexed(p, metadata)
  {
    hide AddPosting, Holds, HoldsIn;
    p := map[];
    var ids := metadata.Keys;
    assert forall key, x: Id :: x !in At(p, key);
    while ids != {}
      invariant ids <= metadata.Keys && NoEmpty(p)
      invariant forall key, x: Id :: x in At(p, key) <==> x in metadata && x !in ids && Holds(metadata[x], key)
      decreases ids
    {
      var id :| id in ids;
      p := AddAll(p, id, metadata[id]);
      ids := ids - {id};
    }
  }

  method AddAll(p: Postings, id: Id, md: Meta) returns (q: Postings)
    requires NoEmpty(p)
    ensures NoEmpty(q)
    ensures forall key, x: Id :: x in At(q, key) <==> x in At(p, key) || (x == id && Holds(md, key))
  {
    hide AddPosting, HoldsIn;
    q := p;
    var left := md.Keys;
    NoKeys(md);
    while left != {}
      invariant left <= md.Keys && NoEmpty(q)
      invariant forall key, x: Id :: x in At(q, key) <==> x in At(p, key) || (x == id && HoldsIn(md, md.Keys - left, key))
      decreases left
    {
      var k :| k in left;
      AddPostingIs(q, PostingKey(k, md[k]), id);
      OneMoreKey(md, md.Keys - left, k);
      assert md.Keys - (left - {k}) == md.Keys - left + {k};
      q := AddPosting(q, PostingKey(k, md[k]), id);
      left := left - {k};
    }
    assert md.Keys - {} == md.Keys;
  }

  method DropAll(p: Postings, id: Id, md: Meta) returns (q: Postings)
    requires NoEmpty(p)
    ensures NoEmpty(q)
    ensures forall key, x: Id :: x in At(q, key) <==> x in At(p, key) && !(x == id && Holds(md, key))
  {
    hide DropPosting, HoldsIn;
    q := p;
    var left := md.Keys;
    NoKeys(md);
    while left != {}
      invariant left <= md.Keys && NoEmpty(q)
      invariant forall key, x: Id :: x in At(q, key) <==> x in At(p, key) && !(x == id && HoldsIn(md, md.Keys - left, key))
      decreases left
    {
      var k :| k in left;
      DropPostingIs(q, PostingKey(k, md[k]), id);
      OneMoreKey(md, md.Keys - left, k);
      assert md.Keys - (left - {k}) == md.Keys - left + {k};
      q := DropPosting(q, PostingKey(k, md[k]), id);
      left := left - {k};
    }
    assert md.Keys - {} == md.Keys;
  }

  lemma NoKeys(md: Meta)
    ensures forall key :: !HoldsIn(md, md.Keys - md.Keys, key)
  {
  }
}
