/**
 The snapshot file: its byte format, the two-pass loader, and the proof that
 loading a written graph gives the graph back.
 */
module Segment {
  import opened Bytes
  import opened Hnsw
  import opened HnswState
  import opened Log
  import opened Restore
  import Wal

  const MAGIC: seq<byte> := [0x4E, 0x55, 0x43, 0x4C, 0x41, 0x44, 0x42, 0x32]      // "NUCLADB2"
  const MAGIC_V1: seq<byte> := [0x4E, 0x55, 0x43, 0x4C, 0x41, 0x44, 0x42, 0x31]   // "NUCLADB1"
  const MAX_LEVEL: nat := 64

  // ---- Lists of 64-bit ids ----

  function Quads(v: seq<u64>): (b: seq<byte>)
    ensures |b| == 8 * |v|
  {
    if v == [] then [] else LE(v[0], 8) + Quads(v[1..])
  }

  function FromQuads(b: seq<byte>): (v: seq<u64>)
    requires |b| % 8 == 0
    ensures 8 * |v| == |b|
  {
    if b == [] then [] else Get64RoundTrip(b[..8]); [FromLE(b[..8])] + FromQuads(b[8..])
  }

  lemma {:induction false} QuadsRoundTrip(v: seq<u64>)
    ensures FromQuads(Quads(v)) == v
  {
    hide LE, FromLE;
    if v != [] {
      QuadsRoundTrip(v[1..]);
      Put64RoundTrip(v[0]);
      assert Quads(v)[..8] == LE(v[0], 8);
      assert Quads(v)[8..] == Quads(v[1..]);
    }
  }

  lemma {:induction false} FromQuadsAppend(b: seq<byte>, w: seq<byte>)
    requires |b| % 8 == 0 && |w| == 8
    ensures FromLE(w) < U64
    ensures FromQuads(b + w) == FromQuads(b) + [FromLE(w)]
  {
    hide LE, FromLE;
    Get64RoundTrip(w);
    if b == [] {
      assert b + w == w;
      assert w[..8] == w && w[8..] == [];
      assert FromQuads(w) == [FromLE(w)];
    } else {
      FromQuadsAppend(b[8..], w);
      assert (b + w)[..8] == b[..8];
      assert (b + w)[8..] == b[8..] + w;
    }
  }

  // ---- Layers ----

  datatype Read<T> = Bad | Read(value: T, size: nat)

  function WriteLayer(ids: seq<Id>): seq<byte> {
    Put32(|ids|) + Quads(ids)
  }

  function WriteLayers(layers: seq<seq<Id>>): seq<byte> {
    if layers == [] then [] else WriteLayer(layers[0]) + WriteLayers(layers[1..])
  }

  lemma Eights(s: seq<byte>, n: nat)
    requires 4 + 8 * n <= |s|
    ensures |s[4..4 + 8 * n]| == 8 * n && (8 * n) % 8 == 0
  {
  }

  function ReadLayer(s: seq<byte>): (r: Read<seq<Id>>)
    ensures r.Read? ==> r.size <= |s| && |r.value| < U32
  {
    if |s| < 4 then Bad
    else
      Widths();
      var n := FromLE(s[..4]);
      if |s| < 4 + 8 * n then Bad else Eights(s, n); Read(FromQuads(s[4..4 + 8 * n]), 4 + 8 * n)
  }

  function ReadLayers(s: seq<byte>, n: nat): (r: Read<seq<seq<Id>>>)
    ensures r.Read? ==> r.size <= |s| && |r.value| == n
    decreases n
  {
    if n == 0 then Read([], 0)
    else match ReadLayer(s)
      case Bad => Bad
      case Read(ids, k) => match ReadLayers(s[k..], n - 1)
        case Bad => Bad
        case Read(rest, k') => Read([ids] + rest, k + k')
  }

  /** Steps over the layers by their counts alone. */
  function SkipLayers(s: seq<byte>, n: nat): (r: Option<nat>)
    ensures r.Some? ==> r.value <= |s|
    decreases n
  {
    if n == 0 then Some(0)
    else if |s| < 4 then None
    else
      var k := 4 + 8 * FromLE(s[..4]);
      if |s| < k then None
      else match SkipLayers(s[k..], n - 1)
        case None => None
        case Some(k') => Some(k + k')
  }

  lemma {:induction false} SkipLayersAgrees(s: seq<byte>, n: nat)
    ensures ReadLayers(s, n).Read? <==> SkipLayers(s, n).Some?
    ensures ReadLayers(s, n).Read? ==> ReadLayers(s, n).size == SkipLayers(s, n).value
    decreases n
  {
    hide FromLE, FromQuads;
    if n > 0 && ReadLayer(s).Read? {
      SkipLayersAgrees(s[ReadLayer(s).size..], n - 1);
    }
  }

  ghost predicate SmallLayers(layers: seq<seq<Id>>) {
    forall l :: 0 <= l < |layers| ==> |layers[l]| < U32
  }

  lemma LayerRoundTrip(ids: seq<Id>, rest: seq<byte>)
    requires |ids| < U32
    ensures ReadLayer(WriteLayer(ids) + rest) == Read(ids, |WriteLayer(ids)|)
  {
    hide FromLE, Put32, Quads, FromQuads;
    Put32RoundTrip(|ids|);
    QuadsRoundTrip(ids);
    var s := WriteLayer(ids) + rest;
    assert s[..4] == Put32(|ids|);
    assert s[4..4 + 8 * |ids|] == Quads(ids);
  }

  lemma LayersCons(s: seq<byte>, k: nat, ids: seq<Id>, n: nat, more: seq<seq<Id>>, k': nat)
    requires k <= |s| && ReadLayer(s) == Read(ids, k) && ReadLayers(s[k..], n) == Read(more, k')
    ensures ReadLayers(s, n + 1) == Read([ids] + more, k + k')
  {
    hide ReadLayer;
  }

  lemma NoLayers()
    ensures WriteLayers([]) == [] && forall s: seq<byte> :: ReadLayers(s, 0) == Read([], 0)
  {
  }

  lemma {:induction false} LayersRoundTrip(layers: seq<seq<Id>>, rest: seq<byte>)
    requires SmallLayers(layers)
    ensures ReadLayers(WriteLayers(layers) + rest, |layers|) == Read(layers, |WriteLayers(layers)|)
  {
    hide WriteLayer, ReadLayer, ReadLayers;
    NoLayers();
    if layers != [] {
      var first, more := WriteLayer(layers[0]), WriteLayers(layers[1..]);
      var s := first + (more + rest);
      LayerRoundTrip(layers[0], more + rest);
      LayersRoundTrip(layers[1..], rest);
      assert WriteLayers(layers) + rest == s by { Wal.Assoc(first, more, rest); }
      assert s[|first|..] == more + rest;
      LayersCons(s, |first|, layers[0], |layers| - 1, layers[1..], |more|);
      assert layers == [layers[0]] + layers[1..];
    }
  }

  lemma {:induction false} ReadLayersSmall(s: seq<byte>, n: nat)
    requires ReadLayers(s, n).Read?
    ensures SmallLayers(ReadLayers(s, n).value)
    decreases n
  {
    hide ReadLayer;
    if n > 0 { ReadLayersSmall(s[ReadLayer(s).size..], n - 1); }
  }

  // ---- Nodes ----

  function WriteNode(nd: NodeState): (b: seq<byte>)
    ensures |b| >= 21
  {
    LE(nd.id, 8) + Put32(nd.level) + [if nd.deleted then 1 else 0] + Put32(|nd.vector|) + Words(nd.vector)
    + Put32(|nd.neighbors|) + WriteLayers(nd.neighbors)
  }

  lemma Fours(s: seq<byte>, at: nat, n: nat)
    requires at + 4 * n <= |s|
    ensures |s[at..at + 4 * n]| == 4 * n && (4 * n) % 4 == 0
  {
  }

  function ReadNode(s: seq<byte>): (r: Read<NodeState>)
    ensures r.Read? ==> r.size <= |s|
  {
    if |s| < 17 || s[12] > 1 then Bad
    else
      Widths();
      var dim := FromLE(s[13..17]);
      var off := 17 + 4 * dim;
      if |s| < off + 4 then Bad
      else
        Fours(s, 17, dim);
        var level, n := FromLE(s[8..12]), FromLE(s[off..off + 4]);
        if level > MAX_LEVEL || n != level + 1 then Bad
        else match ReadLayers(s[off + 4..], n)
          case Bad => Bad
          case Read(layers, k) =>
            Read(NodeState(FromLE(s[0..8]), FromWords(s[17..off]), level, layers, s[12] == 1), off + 4 + k)
  }

  /** Steps over a node, giving its id and vector length. */
  function SkipNode(s: seq<byte>): (r: Read<(Id, nat)>)
    ensures r.Read? ==> r.size <= |s|
  {
    if |s| < 17 then Bad
    else
      Widths();
      var dim := FromLE(s[13..17]);
      var off := 17 + 4 * dim;
      if |s| < off + 4 then Bad
      else
        var n := FromLE(s[off..off + 4]);
        if n > MAX_LEVEL + 1 then Bad
        else match SkipLayers(s[off + 4..], n)
          case None => Bad
          case Some(k) => Read((FromLE(s[0..8]), dim), off + 4 + k)
  }

  /** What the second pass checks and the first does not. */
  predicate Marked(s: seq<byte>) {
    |s| >= 17 && s[12] <= 1 && FromLE(s[8..12]) <= MAX_LEVEL &&
    var off := 17 + 4 * FromLE(s[13..17]);
    |s| >= off + 4 && FromLE(s[off..off + 4]) == FromLE(s[8..12]) + 1
  }

  /** The skipping pass and the reading pass advance alike over every byte string. */
  lemma SkipAgrees(s: seq<byte>)
    ensures ReadNode(s).Read? <==> SkipNode(s).Read? && Marked(s)
    ensures ReadNode(s).Read? ==>
      SkipNode(s) == Read((ReadNode(s).value.id, |ReadNode(s).value.vector|), ReadNode(s).size)
  {
    hide FromLE, FromWords, ReadLayers, SkipLayers;
    if |s| >= 17 {
      var off := 17 + 4 * FromLE(s[13..17]);
      if |s| >= off + 4 {
        SkipLayersAgrees(s[off + 4..], FromLE(s[off..off + 4]));
      }
    }
  }

  /** One list per layer up to a level the format admits, and sizes that fit their fields. */
  ghost predicate Storable(nd: NodeState) {
    nd.level <= MAX_LEVEL && |nd.neighbors| == nd.level + 1 && |nd.vector| < U32 && SmallLayers(nd.neighbors)
  }

  lemma NodeFields(nd: NodeState, rest: seq<byte>)
    ensures var s := WriteNode(nd) + rest; var off := 17 + 4 * |nd.vector|;
            && |s| >= off + 4 && s[0..8] == LE(nd.id, 8) && s[8..12] == Put32(nd.level) && s[12] == (if nd.deleted then 1 else 0)
            && s[13..17] == Put32(|nd.vector|) && s[17..off] == Words(nd.vector)
            && s[off..off + 4] == Put32(|nd.neighbors|) && s[off + 4..] == WriteLayers(nd.neighbors) + rest
  {
    hide LE, Put32, Words, WriteLayers;
    var head := LE(nd.id, 8) + Put32(nd.level) + [if nd.deleted then 1 else 0] + Put32(|nd.vector|) + Words(nd.vector) + Put32(|nd.neighbors|);
    Wal.Assoc(head, WriteLayers(nd.neighbors), rest);
    Wal.Concat7(LE(nd.id, 8), Put32(nd.level), [if nd.deleted then 1 else 0], Put32(|nd.vector|), Words(nd.vector),
                Put32(|nd.neighbors|), WriteLayers(nd.neighbors) + rest);
  }

  /** A written node reads back exactly when it is storable. */
  lemma NodeRoundTrip(nd: NodeState, rest: seq<byte>)
    ensures ReadNode(WriteNode(nd) + rest) == Read(nd, |WriteNode(nd)|) <==> Storable(nd)
  {
    hide LE, FromLE, Put32, Words, FromWords, WriteLayers, ReadLayers, WriteNode, SmallLayers;
    var s := WriteNode(nd) + rest;
    NodeFields(nd, rest);
    if Storable(nd) {
      Put64RoundTrip(nd.id);
      Put32RoundTrip(nd.level);
      Put32RoundTrip(|nd.vector|);
      Put32RoundTrip(|nd.neighbors|);
      WordsRoundTrip(nd.vector);
      LayersRoundTrip(nd.neighbors, rest);
      NodeSize(nd);
    }
    if ReadNode(s).Read? { ReadNodeStorable(s); }
  }

  lemma NodeSize(nd: NodeState)
    ensures |WriteNode(nd)| == 21 + 4 * |nd.vector| + |WriteLayers(nd.neighbors)|
  {
    hide LE, Put32, Words, WriteLayers;
  }

  lemma ReadNodeStorable(s: seq<byte>)
    requires ReadNode(s).Read?
    ensures Storable(ReadNode(s).value)
  {
    hide FromLE, FromWords, ReadLayers, SmallLayers;
    Get32RoundTrip(s[13..17]);
    var off := 17 + 4 * FromLE(s[13..17]);
    ReadLayersSmall(s[off + 4..], FromLE(s[off..off + 4]));
  }

  // ---- All nodes ----

  function WriteNodes(nodes: seq<NodeState>): (b: seq<byte>)
    ensures |b| >= 21 * |nodes|
  {
    if nodes == [] then [] else WriteNode(nodes[0]) + WriteNodes(nodes[1..])
  }

  function ReadNodes(s: seq<byte>, n: nat): (r: Read<seq<NodeState>>)
    ensures r.Read? ==> r.size <= |s| && |r.value| == n
    decreases n
  {
    if n == 0 then Read([], 0)
    else match ReadNode(s)
      case Bad => Bad
      case Read(nd, k) => match ReadNodes(s[k..], n - 1)
        case Bad => Bad
        case Read(rest, k') => Read([nd] + rest, k + k')
  }

  function SkipNodes(s: seq<byte>, n: nat): (r: Read<seq<(Id, nat)>>)
    ensures r.Read? ==> r.size <= |s| && |r.value| == n
    decreases n
  {
    if n == 0 then Read([], 0)
    else match SkipNode(s)
      case Bad => Bad
      case Read(x, k) => match SkipNodes(s[k..], n - 1)
        case Bad => Bad
        case Read(rest, k') => Read([x] + rest, k + k')
  }

  /** Ids and vector lengths, as the first pass reports them. */
  function Outline(nodes: seq<NodeState>): (r: seq<(Id, nat)>)
    ensures |r| == |nodes| && forall i :: 0 <= i < |r| ==> r[i] == (nodes[i].id, |nodes[i].vector|)
  {
    seq(|nodes|, i requires 0 <= i < |nodes| => (nodes[i].id, |nodes[i].vector|))
  }

  lemma {:induction false} SkipNodesAgrees(s: seq<byte>, n: nat)
    requires ReadNodes(s, n).Read?
    ensures SkipNodes(s, n) == Read(Outline(ReadNodes(s, n).value), ReadNodes(s, n).size)
    decreases n
  {
    hide ReadNode, SkipNode, SkipNodes;
    if n > 0 {
      SkipAgrees(s);
      var k := ReadNode(s).size;
      SkipNodesAgrees(s[k..], n - 1);
      var rest := ReadNodes(s[k..], n - 1);
      SkipNodesCons(s, k, SkipNode(s).value, n - 1, Outline(rest.value), rest.size);
      assert Outline([ReadNode(s).value] + rest.value) == [SkipNode(s).value] + Outline(rest.value);
    } else {
      SkipNoNodes(s);
    }
  }

  lemma SkipNodesCons(s: seq<byte>, k: nat, x: (Id, nat), n: nat, more: seq<(Id, nat)>, k': nat)
    requires k <= |s| && SkipNode(s) == Read(x, k) && SkipNodes(s[k..], n) == Read(more, k')
    ensures SkipNodes(s, n + 1) == Read([x] + more, k + k')
  {
    hide SkipNode;
  }

  lemma SkipNoNodes(s: seq<byte>)
    ensures SkipNodes(s, 0) == Read([], 0)
  {
  }

  lemma {:induction false} NodesRoundTrip(nodes: seq<NodeState>, rest: seq<byte>)
    requires forall i :: 0 <= i < |nodes| ==> Storable(nodes[i])
    ensures ReadNodes(WriteNodes(nodes) + rest, |nodes|) == Read(nodes, |WriteNodes(nodes)|)
  {
    hide WriteNode, ReadNode, Storable;
    if nodes != [] {
      var first, more := WriteNode(nodes[0]), WriteNodes(nodes[1..]);
      NodeRoundTrip(nodes[0], more + rest);
      NodesRoundTrip(nodes[1..], rest);
      assert WriteNodes(nodes) + rest == first + (more + rest) by { Wal.Assoc(first, more, rest); }
      assert (first + (more + rest))[|first|..] == more + rest;
      assert nodes == [nodes[0]] + nodes[1..];
    }
  }

  lemma {:induction false} ReadNodesStorable(s: seq<byte>, n: nat)
    requires ReadNodes(s, n).Read?
    ensures forall i :: 0 <= i < n ==> Storable(ReadNodes(s, n).value[i])
    decreases n
  {
    hide ReadNode, Storable;
    if n > 0 {
      ReadNodeStorable(s);
      ReadNodesStorable(s[ReadNode(s).size..], n - 1);
    }
  }

  // ---- The file ----

  datatype Snap = Snap(walSeq: u64, hasEntry: bool, entry: Id, maxLevel: nat, nodes: seq<NodeState>)

  function Format(dim: nat, name: seq<byte>): seq<byte> {
    Put32(dim) + [|name| % 256] + name
  }

  function Header(snap: Snap, dim: nat, name: seq<byte>): (b: seq<byte>)
    ensures |b| == 42 + |name|
  {
    MAGIC + LE(snap.walSeq, 8) + [if snap.hasEntry then 1 else 0] + LE(snap.entry, 8) + Put32(snap.maxLevel)
    + LE(|snap.nodes| % U64, 8) + Format(dim, name)
  }

  function Body(snap: Snap, dim: nat, name: seq<byte>): seq<byte> {
    Header(snap, dim, name) + WriteNodes(snap.nodes)
  }

  function FileOf(snap: Snap, dim: nat, name: seq<byte>): seq<byte> {
    var body := Body(snap, dim, name);
    body + Put32(Crc32(body))
  }

  /** at is where the nodes start. */
  datatype Head = Head(walSeq: u64, hasEntry: bool, entry: Id, maxLevel: nat, count: nat, at: nat)

  /** Version 2 names its dimension and metric; version 1 does not. */
  function ReadFormat(d: seq<byte>, v2: bool, dim: nat, name: seq<byte>): (at: Option<nat>)
    requires |d| >= 37
    ensures at.Some? ==> at.value <= |d|
  {
    if !v2 then Some(37)
    else if |d| < 42 then None
    else
      var n: nat := d[41];
      if |d| < 42 + n || FromLE(d[37..41]) != dim || d[42..42 + n] != name then None
      else Some(42 + n)
  }

  function ReadHead(d: seq<byte>, v2: bool, dim: nat, name: seq<byte>): (h: Option<Head>)
    ensures h.Some? ==> h.value.at <= |d| && h.value.maxLevel <= MAX_LEVEL && (h.value.hasEntry <==> h.value.count > 0)
  {
    if |d| < 37 then None
    else
      Widths();
      var maxLevel, count := FromLE(d[25..29]), FromLE(d[29..37]);
      if d[16] > 1 || count > |d| / 21 then None
      else match ReadFormat(d, v2, dim, name)
        case None => None
        case Some(at) =>
          if maxLevel > MAX_LEVEL || (d[16] == 1) != (count > 0) then None
          else Some(Head(FromLE(d[8..16]), d[16] == 1, FromLE(d[17..25]), maxLevel, count, at))
  }

  datatype Outcome = Fresh | Refused | Loaded(g: State, walSeq: u64)

  ghost predicate AllDim(outline: seq<(Id, nat)>, dim: nat) {
    forall i :: 0 <= i < |outline| ==> outline[i].1 == dim
  }

  /** Both passes over the nodes that start at h.at, then the restore. */
  ghost function LoadNodes(d: seq<byte>, h: Head, m: nat, dim: nat): Outcome
    requires h.at <= |d|
  {
    match SkipNodes(d[h.at..], h.count)
    case Bad => Refused
    case Read(outline, size) =>
      if !AllDim(outline, dim) || h.at + size != |d| then Refused
      else match ReadNodes(d[h.at..], h.count)
        case Bad => Refused
        case Read(nodes, _) => match Rebuilt(m, dim, nodes, h.entry, h.maxLevel, h.hasEntry)
          case None => Refused
          case Some(g) => Loaded(g, h.walSeq)
  }

  ghost function LoadBody(d: seq<byte>, v2: bool, m: nat, dim: nat, name: seq<byte>): Outcome {
    match ReadHead(d, v2, dim, name)
    case None => Refused
    case Some(h) => LoadNodes(d, h, m, dim)
  }

  ghost function LoadFile(file: seq<byte>, m: nat, dim: nat, name: seq<byte>): Outcome {
    if file == [] then Fresh
    else if |file| < 8 then Refused
    else if file[..8] == MAGIC then
      if |file| < 12 || Crc32(file[..|file| - 4]) != FromLE(file[|file| - 4..]) then Refused
      else LoadBody(file[..|file| - 4], true, m, dim, name)
    else if file[..8] == MAGIC_V1 then LoadBody(file, false, m, dim, name)
    else Refused
  }

  // ---- Loading what was written ----

  lemma HeaderFields(snap: Snap, dim: nat, name: seq<byte>, rest: seq<byte>)
    ensures var d := Header(snap, dim, name) + rest;
            && |d| >= 42 + |name| && d[..8] == MAGIC && d[8..16] == LE(snap.walSeq, 8) && d[16] == (if snap.hasEntry then 1 else 0)
            && d[17..25] == LE(snap.entry, 8) && d[25..29] == Put32(snap.maxLevel) && d[29..37] == LE(|snap.nodes| % U64, 8)
            && d[37..] == Format(dim, name) + rest
  {
    hide LE, Put32, Format;
    FormatSize(dim, name);
    var head := MAGIC + LE(snap.walSeq, 8) + [if snap.hasEntry then 1 else 0] + LE(snap.entry, 8) + Put32(snap.maxLevel) + LE(|snap.nodes| % U64, 8);
    Wal.Assoc(head, Format(dim, name), rest);
    Wal.Concat7(MAGIC, LE(snap.walSeq, 8), [if snap.hasEntry then 1 else 0], LE(snap.entry, 8), Put32(snap.maxLevel),
                LE(|snap.nodes| % U64, 8), Format(dim, name) + rest);
  }

  lemma FormatSize(dim: nat, name: seq<byte>)
    ensures |Format(dim, name)| == 5 + |name|
  {
    hide Put32;
  }

  lemma FormatRoundTrip(d: seq<byte>, dim: nat, name: seq<byte>, rest: seq<byte>)
    requires |d| >= 42 && dim < U32 && |name| < 256 && d[37..] == Format(dim, name) + rest
    ensures ReadFormat(d, true, dim, name) == Some(42 + |name|) && d[42 + |name|..] == rest
  {
    hide FromLE, Put32;
    Put32RoundTrip(dim);
    var t := d[37..];
    assert |t| == 5 + |name| + |rest|;
    assert t[..4] == Put32(dim) && t[4] == |name| && t[5..5 + |name|] == name && t[5 + |name|..] == rest;
    assert d[37..41] == t[..4] && d[41] == t[4] && d[42..42 + |name|] == t[5..5 + |name|];
    assert d[42 + |name|..] == t[5 + |name|..];
  }

  lemma HeadRoundTrip(snap: Snap, dim: nat, name: seq<byte>)
    requires dim < U32 && |name| < 256 && |snap.nodes| < U64 && snap.maxLevel <= MAX_LEVEL && (snap.hasEntry <==> snap.nodes != [])
    ensures var d := Body(snap, dim, name);
            && ReadHead(d, true, dim, name) ==
               Some(Head(snap.walSeq, snap.hasEntry, snap.entry, snap.maxLevel, |snap.nodes|, 42 + |name|))
            && |d| >= 42 + |name| && d[42 + |name|..] == WriteNodes(snap.nodes)
  {
    hide LE, FromLE, Put32, Header, Format, WriteNodes, ReadFormat;
    var d := Body(snap, dim, name);
    HeaderFields(snap, dim, name, WriteNodes(snap.nodes));
    FormatRoundTrip(d, dim, name, WriteNodes(snap.nodes));
    Put64RoundTrip(snap.walSeq);
    Put64RoundTrip(snap.entry);
    Put64RoundTrip(|snap.nodes|);
    Put32RoundTrip(snap.maxLevel);
    assert |d| / 21 >= |snap.nodes|;
  }

  lemma FileFields(snap: Snap, dim: nat, name: seq<byte>)
    ensures var file := FileOf(snap, dim, name); var body := Body(snap, dim, name);
            |file| >= 12 && file[..8] == MAGIC && file[..|file| - 4] == body && Crc32(body) == FromLE(file[|file| - 4..])
  {
    hide LE, FromLE, Put32, Crc32, Header, WriteNodes;
    HeaderFields(snap, dim, name, WriteNodes(snap.nodes));
    var body := Body(snap, dim, name);
    Put32RoundTrip(Crc32(body));
    assert FileOf(snap, dim, name)[..8] == body[..8];
  }

  ghost function SnapOf(g: State, walSeq: u64): Snap
    requires InRange(g) && (g.hasEntry ==> g.entryPoint < |g.nodes|)
  {
    Snap(walSeq, g.hasEntry, if g.hasEntry then g.nodes[g.entryPoint].id else 0, g.maxLevel, ExportAll(g))
  }

  /** The graphs the format can hold: one list per layer, no level over the format's top. */
  ghost predicate Savable(g: State) {
    && g.maxLevel <= MAX_LEVEL
    && forall s :: 0 <= s < |g.nodes| ==> g.nodes[s].level <= MAX_LEVEL && |g.nodes[s].neighbors| == g.nodes[s].level + 1
  }

  /** Sizes that a configuration keeps in its integer types, and the unused layer-0 entry empty. */
  ghost predicate Plain(g: State, m: nat, dim: nat) {
    && Dimensioned(g, dim) && dim < U32 && 2 * m < U32 && |g.nodes| < U64 && (!g.hasEntry ==> g.entryPoint == 0)
    && forall s :: 0 <= s < |g.nodes| && g.nodes[s].neighbors != [] ==> g.nodes[s].neighbors[0] == []
  }

  lemma ExportStorable(g: State, m: nat, dim: nat, s: nat)
    requires HnswState.Valid(g, m) && InRange(g) && Plain(g, m, dim) && Savable(g) && s < |g.nodes|
    ensures Storable(Exported(g, s))
  {
    hide SkelOk, LinksOk;
    var ns := Exported(g, s);
    forall l | 0 <= l < |ns.neighbors| ensures |ns.neighbors[l]| < U32 {
      ValidIsLinked(g, m);
      LinkList(g, m, s, l);
    }
  }

  lemma RoundTripIf(g: State, m: nat, dim: nat, name: seq<byte>, walSeq: u64)
    requires HnswState.Valid(g, m) && InRange(g) && Plain(g, m, dim) && |name| < 256 && Savable(g)
    ensures LoadFile(FileOf(SnapOf(g, walSeq), dim, name), m, dim, name) == Loaded(g, walSeq)
  {
    hide HnswState.Valid, InRange, Plain, Savable, Crc32, FromLE, Body, FileOf, ReadHead, LoadNodes, ExportAll;
    EntryIffNodes(g, m);
    var snap := SnapOf(g, walSeq);
    FileFields(snap, dim, name);
    PlainSizes(g, m, dim);
    HeadRoundTrip(snap, dim, name);
    var d := Body(snap, dim, name);
    NodesLoad(g, m, dim, name, walSeq, d, ReadHead(d, true, dim, name).value);
  }

  lemma PlainSizes(g: State, m: nat, dim: nat)
    requires InRange(g) && Plain(g, m, dim) && Savable(g)
    ensures dim < U32 && |ExportAll(g)| < U64 && g.maxLevel <= MAX_LEVEL && Dimensioned(g, dim) && Shaped(g)
  {
  }

  lemma NodesLoad(g: State, m: nat, dim: nat, name: seq<byte>, walSeq: u64, d: seq<byte>, h: Head)
    requires HnswState.Valid(g, m) && InRange(g) && Plain(g, m, dim) && Savable(g) && (g.hasEntry ==> g.entryPoint < |g.nodes|)
    requires h.at <= |d| && d[h.at..] == WriteNodes(ExportAll(g))
    requires h == Head(walSeq, g.hasEntry, if g.hasEntry then g.nodes[g.entryPoint].id else 0, g.maxLevel, |g.nodes|, h.at)
    ensures LoadNodes(d, h, m, dim) == Loaded(g, walSeq)
  {
    hide HnswState.Valid, InRange, Plain, Savable, ReadNodes, SkipNodes, Rebuilt, Storable, Exported, AllDim, Outline, WriteNodes;
    var nodes := ExportAll(g);
    forall s | 0 <= s < |nodes| ensures Storable(nodes[s]) { ExportStorable(g, m, dim, s); }
    var bytes := WriteNodes(nodes);
    NodesRoundTrip(nodes, []);
    assert bytes + [] == bytes;
    SkipNodesAgrees(bytes, |nodes|);
    PlainSizes(g, m, dim);
    OutlineDim(g, dim);
    RestoreExport(g, m, dim);
  }

  lemma EntryIffNodes(g: State, m: nat)
    requires HnswState.Valid(g, m)
    ensures (g.hasEntry <==> g.nodes != []) && (g.hasEntry ==> g.entryPoint < |g.nodes|)
  {
  }

  lemma OutlineDim(g: State, dim: nat)
    requires InRange(g) && Dimensioned(g, dim)
    ensures AllDim(Outline(ExportAll(g)), dim)
  {
    forall s | 0 <= s < |g.nodes| ensures |Exported(g, s).vector| == dim { assert |g.data[s]| == dim; }
  }

  /** Every file that loads, whoever wrote it, gives a sound graph of savable shape. */
  lemma LoadedIsSound(file: seq<byte>, m: nat, dim: nat, name: seq<byte>)
    requires LoadFile(file, m, dim, name).Loaded?
    ensures var g := LoadFile(file, m, dim, name).g;
            Savable(g) && SkelOk(Skel(g)) && SoundLinks(g, m, |g.nodes|) && (g.hasEntry ==> g.entryPoint < |g.nodes|)
  {
    hide Crc32, FromLE, ReadHead, ReadNodes, SkipNodes, Rebuilt, Storable, SkelOk, SoundLinks;
    var v2 := file[..8] == MAGIC;
    var d := if v2 then file[..|file| - 4] else file;
    var h := ReadHead(d, v2, dim, name).value;
    var nodes := ReadNodes(d[h.at..], h.count).value;
    ReadNodesStorable(d[h.at..], h.count);
    RebuiltIsSound(m, dim, nodes, h.entry, h.maxLevel, h.hasEntry);
    RebuiltLevels(m, dim, nodes, h.entry, h.maxLevel, h.hasEntry);
    forall s | 0 <= s < |nodes| ensures nodes[s].level <= MAX_LEVEL { StorableLevel(nodes[s]); }
  }

  lemma StorableLevel(nd: NodeState)
    requires Storable(nd)
    ensures nd.level <= MAX_LEVEL
  {
  }

  lemma RebuiltLevels(m: nat, dim: nat, nodes: seq<NodeState>, entry: Id, maxLevel: nat, hasEntry: bool)
    requires Rebuilt(m, dim, nodes, entry, maxLevel, hasEntry).Some?
    ensures var g := Rebuilt(m, dim, nodes, entry, maxLevel, hasEntry).value;
            g.maxLevel == maxLevel && |g.nodes| == |nodes| && forall s :: 0 <= s < |nodes| ==> g.nodes[s].level == nodes[s].level
  {
    hide RestoreAll;
    RestoreAllLevels(Started(IdsIn(nodes)), m, dim, nodes);
    var t := RestoreAll(Started(IdsIn(nodes)), m, dim, nodes).value;
    forall s | 0 <= s < |nodes| ensures t.nodes[s].level == nodes[s].level {
      assert t.nodes[0 + s].level == nodes[s].level;
    }
  }

  /**
   A written graph loads back unchanged, links, tombstones, entry point and
   log position included, exactly when every node has one list per layer and no
   level is over the format's top.
   */
  lemma SnapshotRoundTrip(g: State, m: nat, dim: nat, name: seq<byte>, walSeq: u64)
    requires HnswState.Valid(g, m) && InRange(g) && Plain(g, m, dim) && |name| < 256
    ensures LoadFile(FileOf(SnapOf(g, walSeq), dim, name), m, dim, name) == Loaded(g, walSeq) <==> Savable(g)
  {
    hide LoadFile, FileOf, Savable, Plain, InRange;
    if Savable(g) {
      RoundTripIf(g, m, dim, name, walSeq);
    }
    EntryIffNodes(g, m);
    var file := FileOf(SnapOf(g, walSeq), dim, name);
    if LoadFile(file, m, dim, name) == Loaded(g, walSeq) {
      LoadedIsSound(file, m, dim, name);
    }
  }

  /** Exact levels, which fresh inserts and deletes keep, are what the format needs. */
  lemma ExactLoads(g: State, m: nat, dim: nat, name: seq<byte>, walSeq: u64)
    requires HnswState.Valid(g, m) && InRange(g) && Dimensioned(g, dim) && ExactLevels(g)
    requires dim < U32 && 2 * m < U32 && |g.nodes| < U64 && |name| < 256
    requires g.maxLevel <= MAX_LEVEL && forall s :: 0 <= s < |g.nodes| ==> g.nodes[s].level <= MAX_LEVEL
    ensures LoadFile(FileOf(SnapOf(g, walSeq), dim, name), m, dim, name) == Loaded(g, walSeq)
  {
    hide LoadFile, FileOf, LinksOk, SkelOk, InRange;
    SnapshotRoundTrip(g, m, dim, name, walSeq);
  }

  // ---- Graphs that are written but not loaded ----

  /** A node that does not have one list per layer up to a level the format admits. */
  predicate Misfit(nd: NodeState) {
    nd.level > MAX_LEVEL || |nd.neighbors| != nd.level + 1
  }

  predicate FieldsFit(nd: NodeState) {
    nd.level < U32 && |nd.vector| < U32 && |nd.neighbors| < U32
  }

  lemma NodeRefused(nd: NodeState, rest: seq<byte>)
    requires FieldsFit(nd) && Misfit(nd)
    ensures ReadNode(WriteNode(nd) + rest) == Bad
  {
    hide LE, FromLE, Put32, Words, FromWords, WriteLayers, ReadLayers, WriteNode;
    NodeFields(nd, rest);
    Put32RoundTrip(nd.level);
    Put32RoundTrip(|nd.vector|);
    Put32RoundTrip(|nd.neighbors|);
  }

  lemma BadFirst(s: seq<byte>, n: nat)
    requires ReadNode(s) == Bad
    ensures ReadNodes(s, n + 1) == Bad
  {
    hide ReadNode;
  }

  lemma BadLater(s: seq<byte>, nd: NodeState, k: nat, n: nat)
    requires k <= |s| && ReadNode(s) == Read(nd, k) && ReadNodes(s[k..], n) == Bad
    ensures ReadNodes(s, n + 1) == Bad
  {
    hide ReadNode;
  }

  /** One misfit among the nodes, and the reading pass refuses them all. */
  lemma {:induction false} NodesRefused(nodes: seq<NodeState>, i: nat)
    requires i < |nodes| && (forall j :: 0 <= j < i ==> Storable(nodes[j])) && FieldsFit(nodes[i]) && Misfit(nodes[i])
    ensures ReadNodes(WriteNodes(nodes), |nodes|) == Bad
    decreases i
  {
    hide WriteNode, ReadNode, ReadNodes, Storable, FieldsFit, Misfit;
    var first, more := WriteNode(nodes[0]), WriteNodes(nodes[1..]);
    assert WriteNodes(nodes) == first + more;
    if i == 0 {
      NodeRefused(nodes[0], more);
      BadFirst(first + more, |nodes| - 1);
    } else {
      NodeRoundTrip(nodes[0], more);
      NodesRefused(nodes[1..], i - 1);
      assert (first + more)[|first|..] == more;
      BadLater(first + more, nodes[0], |first|, |nodes| - 1);
    }
  }

  lemma HeadRefused(snap: Snap, dim: nat, name: seq<byte>)
    requires MAX_LEVEL < snap.maxLevel < U32
    ensures ReadHead(Body(snap, dim, name), true, dim, name) == None
  {
    hide LE, FromLE, Put32, Header, Format, WriteNodes, ReadFormat;
    HeaderFields(snap, dim, name, WriteNodes(snap.nodes));
    Put32RoundTrip(snap.maxLevel);
  }

  /** Sizes that fit the fields of the format. */
  ghost predicate Writable(g: State, m: nat, dim: nat) {
    && Dimensioned(g, dim) && dim < U32 && 2 * m < U32 && |g.nodes| < U64 && g.maxLevel < U32
    && forall s :: 0 <= s < |g.nodes| ==> g.nodes[s].level < U32 && |g.nodes[s].neighbors| < U32
  }

  lemma ExportFitsOrNot(g: State, m: nat, dim: nat, s: nat)
    requires HnswState.Valid(g, m) && InRange(g) && Writable(g, m, dim) && s < |g.nodes|
    ensures FieldsFit(Exported(g, s)) && (Storable(Exported(g, s)) <==> !Misfit(Exported(g, s)))
    ensures Misfit(Exported(g, s)) <==> g.nodes[s].level > MAX_LEVEL || |g.nodes[s].neighbors| != g.nodes[s].level + 1
  {
    hide SkelOk, LinksOk;
    var ns := Exported(g, s);
    forall l | 0 <= l < |ns.neighbors| ensures |ns.neighbors[l]| < U32 {
      ValidIsLinked(g, m);
      LinkList(g, m, s, l);
    }
  }

  /** The first node that does not fit. */
  lemma FirstMisfit(g: State, m: nat, dim: nat) returns (i: nat)
    requires HnswState.Valid(g, m) && InRange(g) && Writable(g, m, dim) && !Savable(g) && g.maxLevel <= MAX_LEVEL
    ensures i < |ExportAll(g)| && FieldsFit(ExportAll(g)[i]) && Misfit(ExportAll(g)[i])
    ensures forall j :: 0 <= j < i ==> Storable(ExportAll(g)[j])
  {
    hide HnswState.Valid, InRange, Writable, FieldsFit, Misfit, Storable, Exported;
    i := 0;
    while i < |g.nodes| && !Misfit(Exported(g, i))
      invariant i <= |g.nodes| && forall j :: 0 <= j < i ==> Storable(Exported(g, j)) && !Misfit(Exported(g, j))
    {
      ExportFitsOrNot(g, m, dim, i);
      i := i + 1;
    }
    forall s | 0 <= s < |g.nodes|
      ensures Misfit(Exported(g, s)) <==> g.nodes[s].level > MAX_LEVEL || |g.nodes[s].neighbors| != g.nodes[s].level + 1
    {
      ExportFitsOrNot(g, m, dim, s);
    }
    ExportFitsOrNot(g, m, dim, i);
  }

  lemma NodesNotLoaded(d: seq<byte>, h: Head, m: nat, dim: nat)
    requires h.at <= |d| && ReadNodes(d[h.at..], h.count) == Bad
    ensures LoadNodes(d, h, m, dim) == Refused
  {
    hide ReadNodes, SkipNodes, AllDim;
  }

  /** The file written for a graph that is not savable is refused. */
  lemma UnsavableIsRefused(g: State, m: nat, dim: nat, name: seq<byte>, walSeq: u64)
    requires HnswState.Valid(g, m) && InRange(g) && Writable(g, m, dim) && |name| < 256 && !Savable(g)
    requires g.hasEntry ==> g.entryPoint < |g.nodes|
    ensures LoadFile(FileOf(SnapOf(g, walSeq), dim, name), m, dim, name) == Refused
  {
    hide HnswState.Valid, InRange, Savable, Crc32, FromLE, Body, FileOf, ReadHead, LoadNodes, ReadNodes, WriteNodes, Exported, Dimensioned;
    EntryIffNodes(g, m);
    var snap := SnapOf(g, walSeq);
    FileFields(snap, dim, name);
    var d := Body(snap, dim, name);
    if g.maxLevel > MAX_LEVEL {
      HeadRefused(snap, dim, name);
    } else {
      var i := FirstMisfit(g, m, dim);
      NodesRefused(snap.nodes, i);
      HeadRoundTrip(snap, dim, name);
      NodesNotLoaded(d, ReadHead(d, true, dim, name).value, m, dim);
    }
  }

  /** What does not have one list per layer is what no file loads as. */
  lemma NoFileLoadsAs(g: State, file: seq<byte>, m: nat, dim: nat, name: seq<byte>, walSeq: u64)
    requires !Savable(g)
    ensures LoadFile(file, m, dim, name) != Loaded(g, walSeq)
  {
    hide LoadFile, Savable;
    if LoadFile(file, m, dim, name).Loaded? { LoadedIsSound(file, m, dim, name); }
  }

  /**
   Three inserts into an empty graph, the second one the first id again at a
   lower level, leave a node with a list above its level. Whatever the metric,
   the limits and the vectors, no snapshot file loads as that graph.
   */
  method ReinsertLowerBreaksSaving(m: nat, ef: nat, metric: (Vec, Vec) -> real, accepts: Vec -> bool, a: Id, b: Id, v: Vec, w: Vec, x: Vec)
    returns (g: Graph)
    requires m > 0 && ef > 0 && a != b && accepts(v) && accepts(w) && accepts(x)
    ensures fresh(g) && g.Valid() && !Savable(g.S())
    ensures LiveMap(Skel(g.S())) == map[a := w, b := x]
    ensures forall file: seq<byte>, dim: nat, name: seq<byte>, walSeq: u64 :: LoadFile(file, m, dim, name) != Loaded(g.S(), walSeq)
    ensures InRange(g.S()) && (g.hasEntry ==> g.entryPoint < |g.nodes|)
    ensures 2 * m < U32 && |w| == |x| < U32 ==> forall name: seq<byte>, walSeq: u64 :: |name| < 256 ==>
              LoadFile(FileOf(SnapOf(g.S(), walSeq), |w|, name), m, |w|, name) == Refused
  {
    hide LoadFile, LinksOk, Links, InsertLinks, ExactLevels, FoundLink, NextEntry, SkelOk, InsertSkel, LiveMap, Skel, Savable;
    ThreeSkels(a, b, v, w, x);
    g := new Graph(m, ef, metric, accepts);
    var _, _, _ := g.Insert(a, v, 1);
    ghost var g1 := g.S();
    ValidIsLinked(g1, m);
    SkelFields(g1);
    var _, legs, staged := g.Insert(a, w, 0);
    ghost var g2 := g.S();
    ValidIsLinked(g2, m);
    SkelFields(g2);
    LoneReinsert(g1, g2, m, ef, metric, a, w, legs, staged);
    var _, legs', staged' := g.Insert(b, x, 1);
    LinkedAbove(g2, g.S(), m, ef, metric, b, x, legs', staged');
    SkelFields(g.S());
    assert LevelsOf(g.nodes)[0] == 0;
    NotOneEach(g.S());
    ValidIsLinked(g.S(), m);
    LinkedInRange(g.S(), m);
    if 2 * m < U32 && |w| == |x| < U32 {
      forall name: seq<byte>, walSeq: u64 | |name| < 256
        ensures LoadFile(FileOf(SnapOf(g.S(), walSeq), |w|, name), m, |w|, name) == Refused
      {
        UnsavableIsRefused(g.S(), m, |w|, name, walSeq);
      }
    }
    forall file: seq<byte>, dim: nat, name: seq<byte>, walSeq: u64 ensures LoadFile(file, m, dim, name) != Loaded(g.S(), walSeq) {
      NoFileLoadsAs(g.S(), file, m, dim, name, walSeq);
    }
  }

  lemma FirstSkel(a: Id, v: Vec)
    ensures var k := Skeleton([], [], [], [], map[], 0, 0, false);
            SkelOk(k) && InsertSkel(k, a, v, 1) == Skeleton([a], [1], [v], [false], map[a := 0], 1, 1, true)
  {
    assert [a] == [] + [a] && [1] == [] + [1] && [v] == [] + [v] && [false] == [] + [false];
  }

  lemma ThirdSkel(a: Id, b: Id, w: Vec, x: Vec)
    requires a != b && SkelOk(Skeleton([a], [0], [w], [false], map[a := 0], 1, 1, true))
    ensures var k := Skeleton([a, b], [0, 1], [w, x], [false, false], map[a := 0, b := 1], 1, 2, true);
            InsertSkel(Skeleton([a], [0], [w], [false], map[a := 0], 1, 1, true), b, x, 1) == k
            && (SkelOk(k) ==> LiveMap(k) == map[a := w, b := x])
  {
    hide SkelOk;
    assert [a, b] == [a] + [b] && [0, 1] == [0] + [1] && [w, x] == [w] + [x] && [false, false] == [false] + [false];
  }

  /** The skeletons of that run. */
  lemma ThreeSkels(a: Id, b: Id, v: Vec, w: Vec, x: Vec)
    requires a != b
    ensures var k0 := Skeleton([], [], [], [], map[], 0, 0, false);
            var k1 := Skeleton([a], [1], [v], [false], map[a := 0], 1, 1, true);
            var k2 := Skeleton([a], [0], [w], [false], map[a := 0], 1, 1, true);
            var k3 := Skeleton([a, b], [0, 1], [w, x], [false, false], map[a := 0, b := 1], 1, 2, true);
            && SkelOk(k0) && SkelOk(k1) && SkelOk(k2) && SkelOk(k3)
            && InsertSkel(k0, a, v, 1) == k1 && InsertSkel(k1, a, w, 0) == k2 && InsertSkel(k2, b, x, 1) == k3
            && LiveMap(k3) == map[a := w, b := x]
  {
    hide SkelOk, LiveMap;
    var k0 := Skeleton([], [], [], [], map[], 0, 0, false);
    FirstSkel(a, v);
    InsertSkelOk(k0, a, v, 1);
    var k1 := InsertSkel(k0, a, v, 1);
    InsertSkelOk(k1, a, w, 0);
    assert [1][0 := 0] == [0] && [v][0 := w] == [w] && [false][0 := false] == [false];
    ThirdSkel(a, b, w, x);
    InsertSkelOk(InsertSkel(k1, a, w, 0), b, x, 1);
  }

  lemma NotOneEach(g: State)
    requires |g.nodes| > 0 && g.nodes[0].level == 0 && Links(g, 0, 1) != []
    ensures !Savable(g)
  {
  }
}
