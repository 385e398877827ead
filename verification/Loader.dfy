/**
 The snapshot writer and loader as they run: a buffer that is appended to, and
 a cursor that moves through the bytes.
 */
module Loader {
  import opened Bytes
  import opened Hnsw
  import opened HnswState
  import opened Log
  import opened Restore
  import opened Segment
  import Wal

  // ---- Writing ----

  method WriteNodeTo(buf: seq<byte>, nd: NodeState) returns (out: seq<byte>)
    ensures out == buf + WriteNode(nd)
  {
    hide LE, Put32, Words, WriteLayers, WriteLayer;
    out := buf + LE(nd.id, 8) + Put32(nd.level) + [if nd.deleted then 1 else 0] + Put32(|nd.vector|);
    ghost var head := LE(nd.id, 8) + Put32(nd.level) + [if nd.deleted then 1 else 0] + Put32(|nd.vector|);
    assert out == buf + head;
    Wal.WordsNone();
    for i := 0 to |nd.vector|
      invariant out == buf + (head + Words(nd.vector[..i]))
    {
      WordsAppend(nd.vector[..i], nd.vector[i]);
      assert nd.vector[..i + 1] == nd.vector[..i] + [nd.vector[i]];
      out := out + Put32(nd.vector[i]);
    }
    assert nd.vector[..|nd.vector|] == nd.vector;
    out := out + Put32(|nd.neighbors|);
    ghost var front := head + Words(nd.vector) + Put32(|nd.neighbors|);
    NoLayers();
    for l := 0 to |nd.neighbors|
      invariant out == buf + (front + WriteLayers(nd.neighbors[..l]))
    {
      var layer := nd.neighbors[l];
      var before := out;
      out := out + Put32(|layer|);
      NoQuads();
      for i := 0 to |layer|
        invariant out == before + (Put32(|layer|) + Quads(layer[..i]))
      {
        QuadsAppend(layer[..i], layer[i]);
        assert layer[..i + 1] == layer[..i] + [layer[i]];
        out := out + LE(layer[i], 8);
      }
      assert layer[..|layer|] == layer;
      LayerIs(layer);
      LayersAppend(nd.neighbors[..l], layer);
      assert nd.neighbors[..l + 1] == nd.neighbors[..l] + [layer];
    }
    assert nd.neighbors[..|nd.neighbors|] == nd.neighbors;
    assert WriteNode(nd) == front + WriteLayers(nd.neighbors);
  }

  lemma NoQuads()
    ensures Quads([]) == []
  {
  }

  lemma LayerIs(layer: seq<Id>)
    ensures WriteLayer(layer) == Put32(|layer|) + Quads(layer)
  {
  }

  lemma {:induction false} QuadsAppend(v: seq<u64>, x: u64)
    ensures Quads(v + [x]) == Quads(v) + LE(x, 8)
  {
    hide LE;
    if v == [] {
      assert v + [x] == [x];
      assert Quads([x]) == LE(x, 8) + Quads([]);
    } else {
      QuadsAppend(v[1..], x);
      assert (v + [x])[1..] == v[1..] + [x];
    }
  }

  lemma {:induction false} LayersAppend(layers: seq<seq<Id>>, layer: seq<Id>)
    ensures WriteLayers(layers + [layer]) == WriteLayers(layers) + WriteLayer(layer)
  {
    hide WriteLayer;
    if layers == [] {
      assert layers + [layer] == [layer];
      assert WriteLayers([layer]) == WriteLayer(layer) + WriteLayers([]);
    } else {
      LayersAppend(layers[1..], layer);
      assert (layers + [layer])[1..] == layers[1..] + [layer];
    }
  }

  lemma {:induction false} NodesAppend(nodes: seq<NodeState>, nd: NodeState)
    ensures WriteNodes(nodes + [nd]) == WriteNodes(nodes) + WriteNode(nd)
  {
    hide WriteNode;
    if nodes == [] {
      assert nodes + [nd] == [nd];
      assert WriteNodes([nd]) == WriteNode(nd) + WriteNodes([]);
    } else {
      NodesAppend(nodes[1..], nd);
      assert (nodes + [nd])[1..] == nodes[1..] + [nd];
    }
  }

  /** Header, nodes, then the checksum of both. */
  method WriteSnapshot(snap: Snap, dim: nat, name: seq<byte>) returns (file: seq<byte>)
    ensures file == FileOf(snap, dim, name)
  {
    hide Header, WriteNode, Crc32, Put32;
    var w := Header(snap, dim, name);
    for i := 0 to |snap.nodes|
      invariant w == Header(snap, dim, name) + WriteNodes(snap.nodes[..i])
    {
      NodesAppend(snap.nodes[..i], snap.nodes[i]);
      assert snap.nodes[..i + 1] == snap.nodes[..i] + [snap.nodes[i]];
      Wal.Assoc(Header(snap, dim, name), WriteNodes(snap.nodes[..i]), WriteNode(snap.nodes[i]));
      w := WriteNodeTo(w, snap.nodes[i]);
    }
    assert snap.nodes[..|snap.nodes|] == snap.nodes;
    file := w + Put32(Crc32(w));
  }

  // ---- Reading ----

  class Cursor {
    var data: seq<byte>
    var pos: nat

    constructor (data: seq<byte>)
      ensures Valid() && this.data == data && pos == 0
    {
      this.data, pos := data, 0;
    }

    predicate Valid()
      reads this
    {
      pos <= |data|
    }

    function Rest(): seq<byte>
      reads this
      requires Valid()
    {
      data[pos..]
    }

    predicate Need(n: nat)
      reads this
      requires Valid()
      ensures Need(n) <==> n <= |Rest()|
    {
      n <= |data| - pos
    }

    method Skip(n: nat) returns (ok: bool)
      requires Valid()
      modifies this`pos
      ensures Valid() && pos >= old(pos) && ok == (n <= old(|Rest()|))
      ensures pos == if ok then old(pos) + n else old(pos)
    {
      ok := Need(n);
      if ok {
        pos := pos + n;
      }
    }

    method Byte() returns (b: Option<byte>)
      requires Valid()
      modifies this`pos
      ensures Valid() && pos >= old(pos) && (b.Some? <==> old(|Rest()|) >= 1)
      ensures b.Some? ==> b.value == old(Rest())[0] && pos == old(pos) + 1
    {
      if !Need(1) { return None; }
      b := Some(data[pos]);
      pos := pos + 1;
    }

    method Uint32() returns (v: Option<nat>)
      requires Valid()
      modifies this`pos
      ensures Valid() && pos >= old(pos) && (v.Some? <==> old(|Rest()|) >= 4)
      ensures v.Some? ==> v.value == FromLE(old(Rest())[..4]) && pos == old(pos) + 4
    {
      hide FromLE;
      if !Need(4) { return None; }
      assert Rest()[..4] == data[pos..pos + 4];
      v := Some(FromLE(data[pos..pos + 4]));
      pos := pos + 4;
    }

    method Uint64() returns (v: Option<u64>)
      requires Valid()
      modifies this`pos
      ensures Valid() && pos >= old(pos) && (v.Some? <==> old(|Rest()|) >= 8)
      ensures v.Some? ==> v.value == FromLE(old(Rest())[..8]) && pos == old(pos) + 8
    {
      hide FromLE;
      if !Need(8) { return None; }
      assert Rest()[..8] == data[pos..pos + 8];
      Get64RoundTrip(data[pos..pos + 8]);
      v := Some(FromLE(data[pos..pos + 8]));
      pos := pos + 8;
    }

    /** Replaces the contents of out with n words; what out held before does not matter. */
    method Float32Slice(out: Vec, n: nat) returns (v: Option<Vec>)
      requires Valid()
      modifies this`pos
      ensures Valid() && pos >= old(pos) && (v.Some? <==> old(|Rest()|) >= 4 * n)
      ensures v.Some? ==> v.value == FromWords(old(Rest())[..4 * n]) && pos == old(pos) + 4 * n
    {
      hide FromLE, FromWords;
      if !Need(4 * n) { return None; }
      ghost var start := pos;
      var r: Vec := out[..0];
      NoFromWords();
      for i := 0 to n
        invariant Valid() && pos == start + 4 * i && r == FromWords(data[start..pos])
        invariant start + 4 * n <= |data|
      {
        FromWordsAppend(data[start..pos], data[pos..pos + 4]);
        assert data[start..pos + 4] == data[start..pos] + data[pos..pos + 4];
        r := r + [FromLE(data[pos..pos + 4])];
        pos := pos + 4;
      }
      assert data[start..][..4 * n] == data[start..start + 4 * n];
      return Some(r);
    }

    method Uint64Slice(out: seq<Id>, n: nat) returns (v: Option<seq<Id>>)
      requires Valid()
      modifies this`pos
      ensures Valid() && pos >= old(pos) && (v.Some? <==> old(|Rest()|) >= 8 * n)
      ensures v.Some? ==> v.value == FromQuads(old(Rest())[..8 * n]) && pos == old(pos) + 8 * n
    {
      hide FromLE, FromQuads;
      if !Need(8 * n) { return None; }
      ghost var start := pos;
      var r: seq<Id> := out[..0];
      NoFromQuads();
      for i := 0 to n
        invariant Valid() && pos == start + 8 * i && r == FromQuads(data[start..pos])
        invariant start + 8 * n <= |data|
      {
        FromQuadsAppend(data[start..pos], data[pos..pos + 8]);
        assert data[start..pos + 8] == data[start..pos] + data[pos..pos + 8];
        r := r + [FromLE(data[pos..pos + 8])];
        pos := pos + 8;
      }
      assert data[start..][..8 * n] == data[start..start + 8 * n];
      return Some(r);
    }

    /** One neighbour list: its count, then that many ids. */
    method Layer(out: seq<Id>) returns (v: Option<seq<Id>>)
      requires Valid()
      modifies this`pos
      ensures Valid() && pos >= old(pos) && (v.Some? <==> ReadLayer(old(Rest())).Read?)
      ensures v.Some? ==> ReadLayer(old(Rest())) == Read(v.value, pos - old(pos))
    {
      hide FromLE, FromQuads;
      ghost var s := Rest();
      ghost var start := pos;
      var cnt := Uint32();
      if cnt == None { return None; }
      assert Rest() == s[4..];
      v := Uint64Slice(out, cnt.value);
      assert |s| >= 4 + 8 * cnt.value ==> s[4..][..8 * cnt.value] == s[4..4 + 8 * cnt.value];
    }

    method SkipLayer() returns (ok: bool)
      requires Valid()
      modifies this`pos
      ensures Valid() && pos >= old(pos)
      ensures ok <==> ReadLayer(old(Rest())).Read?
      ensures ok ==> pos - old(pos) == ReadLayer(old(Rest())).size
    {
      hide FromLE, FromQuads;
      var cnt := Uint32();
      if cnt == None { return false; }
      ok := Skip(8 * cnt.value);
    }

    /** Steps over the next node. */
    method SkipOne() returns (r: Option<(Id, nat)>)
      requires Valid()
      modifies this`pos
      ensures Valid() && pos >= old(pos) && (r.Some? <==> SkipNode(old(Rest())).Read?)
      ensures r.Some? ==> SkipNode(old(Rest())) == Read(r.value, pos - old(pos))
    {
      hide FromLE, SkipLayers, ReadLayer;
      ghost var s := Rest();
      ghost var start := pos;
      var id := Uint64();
      if id == None { return None; }
      var ok := Skip(5);
      if !ok { return None; }
      assert Rest() == s[13..];
      var dim := Uint32();
      if dim == None { return None; }
      assert s[13..][..4] == s[13..17];
      ok := Skip(4 * dim.value);
      if !ok { return None; }
      ghost var off := 17 + 4 * dim.value;
      assert Rest() == s[off..];
      var levels := Uint32();
      if levels == None { return None; }
      assert s[off..][..4] == s[off..off + 4] && s[0..8] == s[..8];
      if levels.value > MAX_LEVEL + 1 { return None; }
      assert Rest() == s[off + 4..];
      ok := SkipAll(levels.value);
      if !ok { return None; }
      return Some((id.value, dim.value));
    }

    method SkipAll(n: nat) returns (ok: bool)
      requires Valid()
      modifies this`pos
      ensures Valid() && pos >= old(pos) && (ok <==> SkipLayers(old(Rest()), n).Some?)
      ensures ok ==> SkipLayers(old(Rest()), n) == Some(pos - old(pos))
    {
      hide SkipLayers, ReadLayer;
      ghost var t, from := Rest(), pos;
      SkipNone(t, n);
      for l := 0 to n
        invariant Valid() && from <= pos
        invariant SkipLayers(t, n) == More(pos - from, SkipLayers(Rest(), n - l))
      {
        ghost var here, at := Rest(), pos;
        SkipStep(here, n - l);
        ok := SkipLayer();
        if !ok { return; }
        DropDrop(data, at, pos - at);
        MoreMore(at - from, pos - at, SkipLayers(Rest(), n - l - 1));
      }
      SkipZero(Rest());
      return true;
    }

    /** The part of a node before its layers: id, level, tombstone and vector. */
    method Fixed(prev: Vec) returns (r: Option<(Id, nat, bool, Vec)>)
      requires Valid()
      modifies this`pos
      ensures Valid() && pos >= old(pos)
      ensures r.Some? <==> var s := old(Rest()); |s| >= 17 && s[12] <= 1 && |s| >= 17 + 4 * FromLE(s[13..17])
      ensures r.Some? ==>
        var s := old(Rest()); var off := 17 + 4 * FromLE(s[13..17]);
        && r.value.0 == FromLE(s[0..8]) && r.value.1 == FromLE(s[8..12]) && r.value.2 == (s[12] == 1)
        && r.value.3 == FromWords(s[17..off]) && pos == old(pos) + off
    {
      hide FromLE, FromWords;
      ghost var start := pos;
      var id := Uint64();
      if id == None { return None; }
      Window(data, start, 8, 4);
      var level := Uint32();
      if level == None { return None; }
      Window(data, start, 12, 1);
      var deleted := Byte();
      if deleted == None { return None; }
      if deleted.value > 1 { return None; }
      Window(data, start, 13, 4);
      var dim := Uint32();
      if dim == None { return None; }
      Window(data, start, 17, 4 * dim.value);
      var vector := Float32Slice(prev, dim.value);
      if vector == None { return None; }
      return Some((id.value, level.value, deleted.value == 1, vector.value));
    }

    /** Decodes the next node, reusing the slices of the node decoded before it. */
    method ReadOne(prev: NodeState) returns (r: Option<NodeState>)
      requires Valid()
      modifies this`pos
      ensures Valid() && pos >= old(pos) && (r.Some? <==> ReadNode(old(Rest())).Read?)
      ensures r.Some? ==> ReadNode(old(Rest())) == Read(r.value, pos - old(pos))
    {
      hide FromLE, ReadLayers, FromWords;
      ghost var s, start := Rest(), pos;
      var fixed := Fixed(prev.vector);
      if fixed == None { return None; }
      ghost var off := pos - start;
      Window(data, start, off, 4);
      var levels := Uint32();
      if levels == None { return None; }
      if fixed.value.1 > MAX_LEVEL || levels.value != fixed.value.1 + 1 { return None; }
      Window(data, start, off + 4, 0);
      var layers := Layers(prev.neighbors, levels.value);
      if layers == None { return None; }
      return Some(NodeState(fixed.value.0, fixed.value.3, fixed.value.1, layers.value, fixed.value.2));
    }

    method Layers(prev: seq<seq<Id>>, n: nat) returns (r: Option<seq<seq<Id>>>)
      requires Valid()
      modifies this`pos
      ensures Valid() && pos >= old(pos) && (r.Some? <==> ReadLayers(old(Rest()), n).Read?)
      ensures r.Some? ==> ReadLayers(old(Rest()), n) == Read(r.value, pos - old(pos))
    {
      hide ReadLayer, ReadLayers;
      var neighbors := prev;
      while |neighbors| < n {
        neighbors := neighbors + [[]];
      }
      neighbors := neighbors[..n];
      ghost var t := Rest();
      ghost var from := pos;
      AddNothing(ReadLayers(t, n));
      for l := 0 to n
        invariant Valid() && from <= pos && |neighbors| == n
        invariant ReadLayers(t, n) == AddFront(neighbors[..l], pos - from, ReadLayers(Rest(), n - l))
      {
        ghost var here, at, done := Rest(), pos, neighbors[..l];
        LayersStep(here, n - l);
        var list := Layer(neighbors[l]);
        if list == None { return None; }
        DropDrop(data, at, pos - at);
        neighbors := neighbors[l := list.value];
        assert neighbors[..l + 1] == done + [list.value];
        AddMore(done, at - from, list.value, pos - at, ReadLayers(Rest(), n - l - 1));
      }
      LayersZero(Rest());
      assert neighbors[..n] + [] == neighbors;
      return Some(neighbors);
    }
  }

  lemma DropDrop<T>(s: seq<T>, a: nat, b: nat)
    requires a + b <= |s|
    ensures s[a..][b..] == s[a + b..]
  {
  }

  /** What lies k bytes into the rest at position a. */
  lemma Window<T>(s: seq<T>, a: nat, k: nat, n: nat)
    requires a + k <= |s|
    ensures s[a..][k..] == s[a + k..]
    ensures a + k + n <= |s| ==> s[a + k..][..n] == s[a..][k..k + n]
    ensures |s[a..]| == |s| - a && (a + k < |s| ==> s[a..][k] == s[a + k])
  {
  }

  lemma NoFromWords()
    ensures FromWords([]) == []
  {
  }

  lemma NoFromQuads()
    ensures FromQuads([]) == []
  {
  }

  function More(k: nat, r: Option<nat>): Option<nat> {
    if r == None then None else Some(k + r.value)
  }

  lemma MoreMore(a: nat, b: nat, r: Option<nat>)
    ensures More(a, More(b, r)) == More(a + b, r)
  {
  }

  lemma SkipNone(t: seq<byte>, n: nat)
    ensures t[0..] == t && SkipLayers(t, n) == More(0, SkipLayers(t, n))
  {
    assert t[0..] == t;
  }

  lemma SkipZero(t: seq<byte>)
    ensures SkipLayers(t, 0) == Some(0)
  {
  }

  lemma SkipStep(s: seq<byte>, n: nat)
    requires n > 0
    ensures SkipLayers(s, n) ==
            if ReadLayer(s).Bad? then None else More(ReadLayer(s).size, SkipLayers(s[ReadLayer(s).size..], n - 1))
  {
    hide FromLE, FromQuads;
  }

  lemma LayersStep(s: seq<byte>, n: nat)
    requires n > 0
    ensures ReadLayers(s, n) ==
            if ReadLayer(s).Bad? then Bad
            else AddFront([ReadLayer(s).value], ReadLayer(s).size, ReadLayers(s[ReadLayer(s).size..], n - 1))
  {
  }

  lemma LayersZero(s: seq<byte>)
    ensures ReadLayers(s, 0) == Read([], 0)
  {
  }

  // ---- Load ----

  /** The fixed part of the header, then the format part of version 2. */
  method LoadHead(c: Cursor, v2: bool, dim: nat, name: seq<byte>) returns (h: Option<Head>)
    requires c.Valid() && c.pos == 8
    modifies c`pos
    ensures c.Valid() && h == ReadHead(c.data, v2, dim, name)
    ensures h.Some? ==> c.pos == h.value.at
  {
    hide FromLE;
    var d := c.data;
    var walSeq := c.Uint64();
    if walSeq == None { return None; }
    var he := c.Byte();
    if he == None { return None; }
    var entry := c.Uint64();
    if entry == None { return None; }
    var maxLevel := c.Uint32();
    if maxLevel == None { return None; }
    var count := c.Uint64();
    if count == None { return None; }
    HeadSlices(d);
    if he.value > 1 || count.value > |d| / 21 { return None; }
    if v2 {
      var dim' := c.Uint32();
      if dim' == None { return None; }
      var nameLen := c.Byte();
      if nameLen == None { return None; }
      var n: nat := nameLen.value;
      if !c.Need(n) { return None; }
      var name' := d[c.pos..c.pos + n];
      c.pos := c.pos + n;
      assert d[37..][..4] == d[37..41];
      if dim'.value != dim || name' != name { return None; }
    }
    if maxLevel.value > MAX_LEVEL || (he.value == 1) != (count.value > 0) { return None; }
    return Some(Head(walSeq.value, he.value == 1, entry.value, maxLevel.value, count.value, c.pos));
  }

  lemma HeadSlices(d: seq<byte>)
    requires |d| >= 37
    ensures d[8..][..8] == d[8..16] && d[16..][0] == d[16] && d[17..][..8] == d[17..25]
    ensures d[25..][..4] == d[25..29] && d[29..][..8] == d[29..37]
  {
  }

  /** First pass: the ids, if every node has the right dimension and the bytes end with the last one. */
  method FirstPass(c: Cursor, count: nat, dim: nat) returns (ids: Option<seq<Id>>)
    requires c.Valid()
    modifies c`pos
    ensures c.Valid()
    ensures var r := SkipNodes(old(c.Rest()), count);
            && (ids.Some? <==> r.Read? && AllDim(r.value, dim) && r.size == |old(c.Rest())|)
            && (ids.Some? ==> ids.value == Firsts(r.value))
  {
    hide SkipNode, SkipNodes, AllDim, Firsts;
    ghost var t, from := c.Rest(), c.pos;
    var out: seq<Id> := [];
    ghost var seen: seq<(Id, nat)> := [];
    AddNothing(SkipNodes(t, count));
    NoneSeen(dim);
    for i := 0 to count
      invariant c.Valid() && from <= c.pos && AllDim(seen, dim) && out == Firsts(seen)
      invariant SkipNodes(t, count) == AddFront(seen, c.pos - from, SkipNodes(c.Rest(), count - i))
    {
      ghost var here, at := c.Rest(), c.pos;
      SkipNodesStep(here, count - i);
      var x := c.SkipOne();
      if x == None { return None; }
      DropDrop(c.data, at, c.pos - at);
      AddMore(seen, at - from, x.value, c.pos - at, SkipNodes(c.Rest(), count - i - 1));
      if x.value.1 != dim {
        WrongDim(seen, x.value, c.pos - from, SkipNodes(c.Rest(), count - i - 1), dim);
        return None;
      }
      OneSeen(seen, x.value, dim);
      out := out + [x.value.0];
      seen := seen + [x.value];
    }
    SkipNodesZero(c.Rest());
    assert seen + [] == seen;
    if c.pos != |c.data| { return None; }
    return Some(out);
  }

  lemma NoneSeen(dim: nat)
    ensures AllDim([], dim) && Firsts([]) == []
  {
  }

  lemma OneSeen(seen: seq<(Id, nat)>, x: (Id, nat), dim: nat)
    requires AllDim(seen, dim) && x.1 == dim
    ensures AllDim(seen + [x], dim) && Firsts(seen + [x]) == Firsts(seen) + [x.0]
  {
  }

  function Firsts(xs: seq<(Id, nat)>): (r: seq<Id>)
    ensures |r| == |xs| && forall i :: 0 <= i < |r| ==> r[i] == xs[i].0
  {
    seq(|xs|, i requires 0 <= i < |xs| => xs[i].0)
  }

  function AddFront<T>(done: seq<T>, k: nat, r: Read<seq<T>>): Read<seq<T>> {
    if r.Bad? then Bad else Read(done + r.value, k + r.size)
  }

  lemma AddNothing<T>(r: Read<seq<T>>)
    ensures AddFront([], 0, r) == r
  {
    if r.Read? { assert [] + r.value == r.value; }
  }

  lemma AddMore<T>(done: seq<T>, a: nat, x: T, b: nat, r: Read<seq<T>>)
    ensures AddFront(done, a, AddFront([x], b, r)) == AddFront(done + [x], a + b, r)
  {
    if r.Read? { assert done + ([x] + r.value) == done + [x] + r.value; }
  }

  lemma WrongDim(seen: seq<(Id, nat)>, x: (Id, nat), k: nat, r: Read<seq<(Id, nat)>>, dim: nat)
    requires x.1 != dim
    ensures var all := AddFront(seen + [x], k, r); all.Read? ==> !AllDim(all.value, dim)
  {
    var all := AddFront(seen + [x], k, r);
    if all.Read? { assert all.value[|seen|] == x; }
  }

  lemma SkipNodesStep(s: seq<byte>, n: nat)
    requires n > 0
    ensures SkipNodes(s, n) ==
            if SkipNode(s).Bad? then Bad
            else AddFront([SkipNode(s).value], SkipNode(s).size, SkipNodes(s[SkipNode(s).size..], n - 1))
  {
    hide SkipNode;
  }

  lemma SkipNodesZero(s: seq<byte>)
    ensures SkipNodes(s, 0) == Read([], 0)
  {
  }

  /** Second pass: reads a node and hands it to the graph at once, so no list of nodes is kept. */
  method SecondPass(c: Cursor, g: Graph, marks: Marks, count: nat, dim: nat) returns (ok: bool)
    requires c.Valid() && marks.Valid() && (forall id :: id in g.slots ==> g.slots[id] < |marks.mark|)
    modifies c`pos, g, marks
    ensures var r := ReadNodes(old(c.Rest()), count);
            && (ok <==> r.Read? && RestoreAll(old(g.S()), g.m, dim, r.value).Some?)
            && (ok ==> Some(g.S()) == RestoreAll(old(g.S()), g.m, dim, r.value))
  {
    hide ReadNode, ReadNodes, NodeFits, Restored, RestoreAll;
    ghost var t, from, g0 := c.Rest(), c.pos, g.S();
    var nd := NodeState(0, [], 0, [], false);
    ghost var seen: seq<NodeState> := [];
    AddNothing(ReadNodes(t, count));
    RestoreZero(g0, g.m, dim);
    for i := 0 to count
      invariant c.Valid() && from <= c.pos && marks.Valid() && (forall id :: id in g.slots ==> g.slots[id] < |marks.mark|)
      invariant ReadNodes(t, count) == AddFront(seen, c.pos - from, ReadNodes(c.Rest(), count - i))
      invariant RestoreAll(g0, g.m, dim, seen) == Some(g.S())
    {
      ghost var here, at := c.Rest(), c.pos;
      ReadNodesStep(here, count - i);
      var x := c.ReadOne(nd);
      if x == None { return false; }
      DropDrop(c.data, at, c.pos - at);
      nd := x.value;
      ghost var rest := ReadNodes(c.Rest(), count - i - 1);
      AddMore(seen, at - from, nd, c.pos - at, rest);
      RestoreSnoc(g0, g.m, dim, seen, nd);
      ok := RestoreNode(g, dim, nd, marks);
      if !ok {
        if rest.Read? { RestoreStops(g0, g.m, dim, seen + [nd], rest.value); }
        return;
      }
      seen := seen + [nd];
    }
    ReadNodesZero(c.Rest());
    assert seen + [] == seen;
    return true;
  }

  lemma ReadNodesStep(s: seq<byte>, n: nat)
    requires n > 0
    ensures ReadNodes(s, n) ==
            if ReadNode(s).Bad? then Bad
            else AddFront([ReadNode(s).value], ReadNode(s).size, ReadNodes(s[ReadNode(s).size..], n - 1))
  {
    hide ReadNode;
  }

  lemma ReadNodesZero(s: seq<byte>)
    ensures ReadNodes(s, 0) == Read([], 0)
  {
  }

  lemma RestoreZero(g: State, m: nat, dim: nat)
    ensures RestoreAll(g, m, dim, []) == Some(g)
  {
  }

  lemma {:induction false} RestoreSnoc(g: State, m: nat, dim: nat, nodes: seq<NodeState>, nd: NodeState)
    requires RestoreAll(g, m, dim, nodes).Some?
    ensures var t := RestoreAll(g, m, dim, nodes).value;
            RestoreAll(g, m, dim, nodes + [nd]) == if NodeFits(t.slots, |t.nodes|, dim, nd) then Some(Restored(t, m, dim, nd)) else None
    decreases |nodes|
  {
    hide NodeFits, Restored;
    if nodes == [] {
      assert nodes + [nd] == [nd];
    } else {
      RestoreSnoc(Restored(g, m, dim, nodes[0]), m, dim, nodes[1..], nd);
      assert (nodes + [nd])[1..] == nodes[1..] + [nd];
    }
  }

  lemma {:induction false} RestoreStops(g: State, m: nat, dim: nat, nodes: seq<NodeState>, more: seq<NodeState>)
    requires RestoreAll(g, m, dim, nodes) == None
    ensures RestoreAll(g, m, dim, nodes + more) == None
    decreases |nodes|
  {
    hide NodeFits, Restored;
    if nodes != [] && NodeFits(g.slots, |g.nodes|, dim, nodes[0]) {
      RestoreStops(Restored(g, m, dim, nodes[0]), m, dim, nodes[1..], more);
      assert (nodes + more)[1..] == nodes[1..] + more;
    }
  }

  /** Loads a snapshot file into a new graph, or refuses it. */
  method Load(file: seq<byte>, m: nat, efConstruction: nat, metric: (Vec, Vec) -> real, accepts: Vec -> bool, dim: nat, name: seq<byte>)
    returns (g: Graph, walSeq: u64, ok: bool)
    requires efConstruction > 0
    ensures fresh(g) && g.m == m
    ensures match LoadFile(file, m, dim, name)
            case Fresh => ok && walSeq == 0 && g.S() == Started([])
            case Refused => !ok
            case Loaded(s, n) => ok && g.S() == s && walSeq == n
  {
    hide Crc32, FromLE, ReadHead, LoadNodes;
    g := new Graph(m, efConstruction, metric, accepts);
    NewGraph(g);
    walSeq, ok := 0, true;
    if file == [] { return; }
    ok := false;
    if |file| < 8 { return; }
    var v2 := file[..8] == MAGIC;
    if !v2 && file[..8] != MAGIC_V1 { return; }
    var c := new Cursor(file);
    if v2 {
      if |file| < 12 { return; }
      if Crc32(file[..|file| - 4]) != FromLE(file[|file| - 4..]) { return; }
      c.data := file[..|file| - 4];
    }
    c.pos := 8;
    var h := LoadHead(c, v2, dim, name);
    if h == None { return; }
    ok := LoadInto(c, g, h.value, dim);
    walSeq := h.value.walSeq;
  }

  lemma NewGraph(g: Graph)
    requires g.Valid() && g.nodes == [] && Skel(g.S()) == Skeleton([], [], [], [], map[], 0, 0, false) && g.entryPoint == 0
    ensures g.S() == Started([])
  {
  }

  method LoadInto(c: Cursor, g: Graph, h: Head, dim: nat) returns (ok: bool)
    requires c.Valid() && c.pos == h.at && g.S() == Started([])
    modifies c`pos, g
    ensures match LoadNodes(c.data, h, g.m, dim)
            case Fresh => false
            case Refused => !ok
            case Loaded(s, n) => ok && g.S() == s && n == h.walSeq
  {
    hide SkipNodes, ReadNodes, AllDim, RestoreAll, NoRepeats, SlotMap, Firsts, IdsIn;
    ghost var t := c.Rest();
    var ids := FirstPass(c, h.count, dim);
    if ids == None { return false; }
    if ReadNodes(t, h.count).Read? { PassesAgree(t, h.count); }
    ok := BeginRestore(g, ids.value);
    if !ok { return; }
    var marks := new Marks(|ids.value|);
    SlotsInRange(ids.value);
    c.pos := h.at;
    ok := SecondPass(c, g, marks, h.count, dim);
    if !ok { return; }
    ok := EndRestore(g, h.entry, h.maxLevel, h.hasEntry);
  }

  lemma PassesAgree(s: seq<byte>, n: nat)
    requires ReadNodes(s, n).Read?
    ensures SkipNodes(s, n).Read? && Firsts(SkipNodes(s, n).value) == IdsIn(ReadNodes(s, n).value)
  {
    hide SkipNodes, ReadNodes;
    SkipNodesAgrees(s, n);
  }

  lemma SlotsInRange(ids: seq<Id>)
    requires NoRepeats(ids)
    ensures forall id :: id in SlotMap(ids) ==> SlotMap(ids)[id] < |ids|
  {
    SlotMapInverts(ids);
  }
}
