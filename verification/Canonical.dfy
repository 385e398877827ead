/**
 Exactly which snapshot files load: those that the format writes for a
 snapshot with storable nodes, and no other bytes.
 */
module Canonical {
  import opened Bytes
  import opened HnswState
  import opened Log
  import opened Restore
  import opened Segment
  import Wal

  // ---- What is read was written ----

  lemma {:induction false} FromQuadsRoundTrip(b: seq<byte>)
    requires |b| % 8 == 0
    ensures Quads(FromQuads(b)) == b
  {
    hide LE, FromLE;
    if b != [] {
      FromQuadsRoundTrip(b[8..]);
      Get64RoundTrip(b[..8]);
      assert FromQuads(b)[1..] == FromQuads(b[8..]);
      assert b == b[..8] + b[8..];
    }
  }

  lemma LayerCanonical(s: seq<byte>)
    requires ReadLayer(s).Read?
    ensures WriteLayer(ReadLayer(s).value) == s[..ReadLayer(s).size]
  {
    hide FromLE, Put32, Quads, FromQuads;
    var n := FromLE(s[..4]);
    Get32RoundTrip(s[..4]);
    Eights(s, n);
    FromQuadsRoundTrip(s[4..4 + 8 * n]);
    assert s[..4 + 8 * n] == s[..4] + s[4..4 + 8 * n];
  }

  lemma {:induction false} LayersCanonical(s: seq<byte>, n: nat)
    requires ReadLayers(s, n).Read?
    ensures WriteLayers(ReadLayers(s, n).value) == s[..ReadLayers(s, n).size]
    decreases n
  {
    hide ReadLayer, WriteLayer;
    if n > 0 {
      var k := ReadLayer(s).size;
      var more := ReadLayers(s[k..], n - 1);
      LayerCanonical(s);
      LayersCanonical(s[k..], n - 1);
      assert ReadLayers(s, n).value[1..] == more.value;
      assert s[..k + more.size] == s[..k] + s[k..][..more.size];
    }
  }

  lemma NodeCanonical(s: seq<byte>)
    requires ReadNode(s).Read?
    ensures WriteNode(ReadNode(s).value) == s[..ReadNode(s).size]
  {
    hide LE, FromLE, Put32, Words, FromWords, ReadLayers, WriteLayers;
    var off := 17 + 4 * FromLE(s[13..17]);
    var layers := ReadLayers(s[off + 4..], FromLE(s[off..off + 4]));
    Get64RoundTrip(s[0..8]);
    Get32RoundTrip(s[8..12]);
    Get32RoundTrip(s[13..17]);
    Get32RoundTrip(s[off..off + 4]);
    FromWordsRoundTrip(s[17..off]);
    LayersCanonical(s[off + 4..], FromLE(s[off..off + 4]));
    var t := s[..off + 4 + layers.size];
    assert t[off + 4..] == s[off + 4..][..layers.size];
    Wal.Join7(t, 8, 12, 13, 17, off, off + 4);
    NodePieces(s, t, off);
  }

  lemma NodePieces(s: seq<byte>, t: seq<byte>, off: nat)
    requires 17 <= off && off + 4 <= |t| && t <= s && s[12] <= 1
    ensures t[0..8] == s[0..8] && t[8..12] == s[8..12] && t[12..13] == [if s[12] == 1 then 1 else 0]
    ensures t[13..17] == s[13..17] && t[17..off] == s[17..off] && t[off..off + 4] == s[off..off + 4]
  {
  }

  lemma {:induction false} NodesCanonical(s: seq<byte>, n: nat)
    requires ReadNodes(s, n).Read?
    ensures WriteNodes(ReadNodes(s, n).value) == s[..ReadNodes(s, n).size]
    decreases n
  {
    hide ReadNode, WriteNode;
    if n > 0 {
      var k := ReadNode(s).size;
      var more := ReadNodes(s[k..], n - 1);
      NodeCanonical(s);
      NodesCanonical(s[k..], n - 1);
      assert ReadNodes(s, n).value[1..] == more.value;
      assert s[..k + more.size] == s[..k] + s[k..][..more.size];
    }
  }

  // ---- Both versions of the header ----

  /** The fields both versions have in common. */
  function Fields(snap: Snap): (b: seq<byte>)
    ensures |b| == 29
  {
    LE(snap.walSeq, 8) + [if snap.hasEntry then 1 else 0] + LE(snap.entry, 8) + Put32(snap.maxLevel) + LE(|snap.nodes| % U64, 8)
  }

  /** Version 1: neither dimension nor metric, and no checksum. */
  function OldFileOf(snap: Snap): seq<byte> {
    MAGIC_V1 + Fields(snap) + WriteNodes(snap.nodes)
  }

  lemma HeaderIs(snap: Snap, dim: nat, name: seq<byte>)
    ensures Header(snap, dim, name) == MAGIC + Fields(snap) + Format(dim, name)
  {
    hide LE, Put32, Format;
  }

  lemma FieldsCanonical(d: seq<byte>, snap: Snap)
    requires |d| >= 37 && d[16] <= 1 && snap.walSeq == FromLE(d[8..16]) && snap.hasEntry == (d[16] == 1)
    requires snap.entry == FromLE(d[17..25]) && snap.maxLevel == FromLE(d[25..29]) && |snap.nodes| == FromLE(d[29..37])
    ensures d[8..37] == Fields(snap)
  {
    hide LE, FromLE, Put32;
    Get64RoundTrip(d[8..16]);
    Get64RoundTrip(d[17..25]);
    Get32RoundTrip(d[25..29]);
    Get64RoundTrip(d[29..37]);
    Join5(d, 8, 16, 17, 25, 29, 37);
    assert d[16..17] == [d[16]];
  }

  lemma Join5<T>(s: seq<T>, a: nat, b: nat, c: nat, d: nat, e: nat, f: nat)
    requires a <= b <= c <= d <= e <= f <= |s|
    ensures s[a..f] == s[a..b] + s[b..c] + s[c..d] + s[d..e] + s[e..f]
  {
    Join2(s, a, b, c);
    Join2(s, a, c, d);
    Join2(s, a, d, e);
    Join2(s, a, e, f);
  }

  lemma Join2<T>(s: seq<T>, a: nat, b: nat, c: nat)
    requires a <= b <= c <= |s|
    ensures s[a..c] == s[a..b] + s[b..c]
  {
  }

  lemma FormatCanonical(d: seq<byte>, dim: nat, name: seq<byte>)
    requires |d| >= 37 && ReadFormat(d, true, dim, name).Some?
    ensures dim < U32 && |name| < 256 && ReadFormat(d, true, dim, name) == Some(42 + |name|)
    ensures d[37..42 + |name|] == Format(dim, name)
  {
    hide FromLE, Put32;
    Get32RoundTrip(d[37..41]);
    assert d[37..42 + |name|] == d[37..41] + [d[41]] + d[42..42 + |name|];
  }

  /** What a loader may be given. */
  ghost predicate Written(file: seq<byte>, v2: bool, snap: Snap, dim: nat, name: seq<byte>) {
    if v2 then dim < U32 && |name| < 256 && file == FileOf(snap, dim, name) else file == OldFileOf(snap)
  }

  /** Storable nodes of the right dimension, a level the format admits, and an entry point exactly if there are nodes. */
  ghost predicate Loadable(snap: Snap, dim: nat) {
    && |snap.nodes| < U64 && snap.maxLevel <= MAX_LEVEL && (snap.hasEntry <==> snap.nodes != [])
    && forall i :: 0 <= i < |snap.nodes| ==> Storable(snap.nodes[i]) && |snap.nodes[i].vector| == dim
  }

  ghost function RebuiltFrom(snap: Snap, m: nat, dim: nat): Option<State> {
    Rebuilt(m, dim, snap.nodes, snap.entry, snap.maxLevel, snap.hasEntry)
  }

  // ---- Every file that loads was written ----

  lemma NodesOf(d: seq<byte>, h: Head, m: nat, dim: nat) returns (nodes: seq<NodeState>)
    requires h.at <= |d| && LoadNodes(d, h, m, dim).Loaded?
    ensures |nodes| == h.count && d[h.at..] == WriteNodes(nodes)
    ensures forall i :: 0 <= i < |nodes| ==> Storable(nodes[i]) && |nodes[i].vector| == dim
    ensures LoadNodes(d, h, m, dim).walSeq == h.walSeq
    ensures Rebuilt(m, dim, nodes, h.entry, h.maxLevel, h.hasEntry) == Some(LoadNodes(d, h, m, dim).g)
  {
    hide ReadNodes, SkipNodes, Rebuilt, Storable, WriteNodes;
    var s := d[h.at..];
    var read := ReadNodes(s, h.count);
    nodes := read.value;
    SkipNodesAgrees(s, h.count);
    NodesCanonical(s, h.count);
    ReadNodesStorable(s, h.count);
    assert s[..read.size] == s;
    forall i | 0 <= i < |nodes| ensures |nodes[i].vector| == dim { assert Outline(nodes)[i].1 == dim; }
  }

  lemma BodyOf(d: seq<byte>, v2: bool, m: nat, dim: nat, name: seq<byte>) returns (snap: Snap)
    requires LoadBody(d, v2, m, dim, name).Loaded? && |d| >= 8
    ensures Loadable(snap, dim) && RebuiltFrom(snap, m, dim) == Some(LoadBody(d, v2, m, dim, name).g)
    ensures snap.walSeq == LoadBody(d, v2, m, dim, name).walSeq
    ensures v2 ==> dim < U32 && |name| < 256
    ensures d == d[..8] + Fields(snap) + (if v2 then Format(dim, name) else []) + WriteNodes(snap.nodes)
  {
    hide FromLE, LoadNodes, Storable, Rebuilt, WriteNodes, Fields, Format, Put32, ReadFormat;
    var h := ReadHead(d, v2, dim, name).value;
    var nodes := NodesOf(d, h, m, dim);
    snap := Snap(h.walSeq, h.hasEntry, h.entry, h.maxLevel, nodes);
    Widths();
    FieldsCanonical(d, snap);
    if v2 {
      FormatCanonical(d, dim, name);
      assert d == d[..8] + d[8..37] + d[37..h.at] + d[h.at..];
    } else {
      OldFormat(d, dim, name);
      assert d == d[..8] + d[8..37] + [] + d[h.at..];
    }
  }

  lemma OldFormat(d: seq<byte>, dim: nat, name: seq<byte>)
    requires |d| >= 37
    ensures ReadFormat(d, false, dim, name) == Some(37)
  {
  }

  lemma FileIs(file: seq<byte>, v2: bool, m: nat, dim: nat, name: seq<byte>) returns (snap: Snap)
    requires |file| >= 8 && file[..8] == (if v2 then MAGIC else MAGIC_V1) && LoadFile(file, m, dim, name).Loaded?
    ensures Written(file, v2, snap, dim, name) && Loadable(snap, dim)
    ensures snap.walSeq == LoadFile(file, m, dim, name).walSeq && RebuiltFrom(snap, m, dim) == Some(LoadFile(file, m, dim, name).g)
  {
    hide FromLE, LoadBody, Loadable, RebuiltFrom, WriteNodes, Fields, Format, Put32, Crc32, Header;
    if v2 {
      var d := file[..|file| - 4];
      snap := BodyOf(d, true, m, dim, name);
      HeaderIs(snap, dim, name);
      assert d[..8] == MAGIC;
      Get32RoundTrip(file[|file| - 4..]);
      assert file == d + file[|file| - 4..];
    } else {
      snap := BodyOf(file, false, m, dim, name);
      assert MAGIC_V1 + Fields(snap) + [] == MAGIC_V1 + Fields(snap);
    }
  }

  // ---- Every such file loads ----

  lemma NodesLoaded(d: seq<byte>, h: Head, m: nat, dim: nat, snap: Snap)
    requires h.at <= |d| && d[h.at..] == WriteNodes(snap.nodes) && Loadable(snap, dim)
    requires h == Head(snap.walSeq, snap.hasEntry, snap.entry, snap.maxLevel, |snap.nodes|, h.at)
    requires RebuiltFrom(snap, m, dim).Some?
    ensures LoadNodes(d, h, m, dim) == Loaded(RebuiltFrom(snap, m, dim).value, snap.walSeq)
  {
    hide ReadNodes, SkipNodes, Rebuilt, Storable, WriteNodes;
    var bytes := WriteNodes(snap.nodes);
    NodesRoundTrip(snap.nodes, []);
    assert bytes + [] == bytes;
    SkipNodesAgrees(bytes, |snap.nodes|);
    forall i | 0 <= i < |snap.nodes| ensures Outline(snap.nodes)[i].1 == dim {
      assert |snap.nodes[i].vector| == dim;
    }
  }

  lemma OldFields(snap: Snap)
    ensures var d := OldFileOf(snap);
            && |d| >= 37 && d[..8] == MAGIC_V1 && d[8..16] == LE(snap.walSeq, 8) && d[16] == (if snap.hasEntry then 1 else 0)
            && d[17..25] == LE(snap.entry, 8) && d[25..29] == Put32(snap.maxLevel) && d[29..37] == LE(|snap.nodes| % U64, 8)
            && d[37..] == WriteNodes(snap.nodes)
  {
    hide LE, Put32, WriteNodes;
    var flag: seq<byte> := [if snap.hasEntry then 1 else 0];
    var d := OldFileOf(snap);
    assert d == MAGIC_V1 + LE(snap.walSeq, 8) + flag + LE(snap.entry, 8) + Put32(snap.maxLevel) + LE(|snap.nodes| % U64, 8) + WriteNodes(snap.nodes);
    Wal.Concat7(MAGIC_V1, LE(snap.walSeq, 8), flag, LE(snap.entry, 8), Put32(snap.maxLevel), LE(|snap.nodes| % U64, 8), WriteNodes(snap.nodes));
    assert d[16..17][0] == d[16];
  }

  lemma OldHead(snap: Snap, dim: nat, name: seq<byte>)
    requires Loadable(snap, dim)
    ensures var d := OldFileOf(snap);
            && ReadHead(d, false, dim, name) == Some(Head(snap.walSeq, snap.hasEntry, snap.entry, snap.maxLevel, |snap.nodes|, 37))
            && |d| >= 37 && d[37..] == WriteNodes(snap.nodes)
  {
    hide LE, FromLE, Put32, WriteNodes, Storable, OldFileOf;
    var d := OldFileOf(snap);
    OldFields(snap);
    Put64RoundTrip(snap.walSeq);
    Put64RoundTrip(snap.entry);
    Put64RoundTrip(|snap.nodes|);
    Put32RoundTrip(snap.maxLevel);
    assert |d| / 21 >= |snap.nodes|;
  }

  lemma WrittenLoads(file: seq<byte>, v2: bool, m: nat, dim: nat, name: seq<byte>, snap: Snap)
    requires Written(file, v2, snap, dim, name) && Loadable(snap, dim) && RebuiltFrom(snap, m, dim).Some?
    ensures LoadFile(file, m, dim, name) == Loaded(RebuiltFrom(snap, m, dim).value, snap.walSeq)
  {
    hide FromLE, RebuiltFrom, WriteNodes, Fields, Crc32, Header, FileOf, ReadHead, LoadNodes, Storable, Body;
    if v2 {
      FileFields(snap, dim, name);
      HeadRoundTrip(snap, dim, name);
      NodesLoaded(Body(snap, dim, name), ReadHead(Body(snap, dim, name), true, dim, name).value, m, dim, snap);
    } else {
      OldHead(snap, dim, name);
      OldFields(snap);
      assert MAGIC_V1 != MAGIC by { assert MAGIC_V1[7] != MAGIC[7]; }
      NodesLoaded(file, ReadHead(file, false, dim, name).value, m, dim, snap);
    }
  }

  /**
   A file of either version loads as a graph at a log position exactly if it is,
   byte for byte, what that version writes for some snapshot with storable nodes
   of the configured dimension, that position, and nodes which restore to that
   graph. In version 2 the dimension and metric written must be the configured
   ones too.
   */
  lemma LoadsExactly(file: seq<byte>, v2: bool, m: nat, dim: nat, name: seq<byte>, g: State, walSeq: u64)
    requires |file| >= 8 && file[..8] == (if v2 then MAGIC else MAGIC_V1)
    ensures LoadFile(file, m, dim, name) == Loaded(g, walSeq) <==>
            exists snap :: Written(file, v2, snap, dim, name) && Loadable(snap, dim)
                           && snap.walSeq == walSeq && RebuiltFrom(snap, m, dim) == Some(g)
  {
    hide LoadFile, Written, Loadable, RebuiltFrom;
    if LoadFile(file, m, dim, name) == Loaded(g, walSeq) {
      var snap := FileIs(file, v2, m, dim, name);
      assert Written(file, v2, snap, dim, name);
    }
    forall snap | Written(file, v2, snap, dim, name) && Loadable(snap, dim) && RebuiltFrom(snap, m, dim).Some?
      ensures LoadFile(file, m, dim, name) == Loaded(RebuiltFrom(snap, m, dim).value, snap.walSeq)
    {
      WrittenLoads(file, v2, m, dim, name, snap);
    }
  }

  /** No other beginning loads, and an empty file is a fresh database. */
  lemma OtherFiles(file: seq<byte>, m: nat, dim: nat, name: seq<byte>)
    ensures LoadFile(file, m, dim, name) == Fresh <==> file == []
    ensures LoadFile(file, m, dim, name).Loaded? ==> |file| >= 8 && (file[..8] == MAGIC || file[..8] == MAGIC_V1)
  {
    hide LoadBody, FromLE, Crc32;
    NeverFresh(file[..if |file| < 4 then 0 else |file| - 4], true, m, dim, name);
    NeverFresh(file, false, m, dim, name);
  }

  lemma NeverFresh(d: seq<byte>, v2: bool, m: nat, dim: nat, name: seq<byte>)
    ensures LoadBody(d, v2, m, dim, name) != Fresh
  {
    hide ReadHead, SkipNodes, ReadNodes, Rebuilt;
  }

  /** One wrong byte anywhere after the beginning of a version 2 file, and it is refused. */
  lemma WrongByteIsRefused(snap: Snap, m: nat, dim: nat, name: seq<byte>, i: nat, x: byte)
    requires 8 <= i < |FileOf(snap, dim, name)| && FileOf(snap, dim, name)[i] != x
    ensures LoadFile(FileOf(snap, dim, name)[i := x], m, dim, name) == Refused
  {
    hide LoadBody, FromLE, Crc32, Body, Put32;
    var f, body := FileOf(snap, dim, name), Body(snap, dim, name);
    var t := f[i := x];
    FileFields(snap, dim, name);
    var n := |f| - 4;
    assert t[..8] == f[..8];
    if i < n {
      assert t[..n] == body[i := x] && t[n..] == f[n..];
      OneByteChangesTheSum(body, i, x);
    } else {
      assert t[..n] == f[..n];
      assert t[n..][i - n] != f[n..][i - n];
      Get32RoundTrip(t[n..]);
      Get32RoundTrip(f[n..]);
    }
  }
}
