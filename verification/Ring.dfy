/**
 Consistent hashing: which nodes own a shard, and how little that changes
 when a node joins or leaves.
 */
module Ring {
  import opened Bytes
  import opened Common

  datatype Point = Point(hash: nat, node: string)

  ghost predicate SortedPts(ps: seq<Point>) {
    forall i, j :: 0 <= i < j < |ps| ==> ps[i].hash <= ps[j].hash
  }

  /** Points with equal hashes are the same point, so sorting has one outcome. */
  ghost predicate NoTies(ps: seq<Point>) {
    forall i, j :: 0 <= i < |ps| && 0 <= j < |ps| && ps[i].hash == ps[j].hash ==> ps[i] == ps[j]
  }

  // ---- Sorting ----

  function InsertPt(p: Point, ps: seq<Point>): seq<Point> {
    if ps == [] || p.hash <= ps[0].hash then [p] + ps else [ps[0]] + InsertPt(p, ps[1..])
  }

  function SortPts(ps: seq<Point>): seq<Point> {
    if ps == [] then [] else InsertPt(ps[0], SortPts(ps[1..]))
  }

  lemma {:induction false} InsertPtCounts(p: Point, ps: seq<Point>)
    ensures multiset(InsertPt(p, ps)) == multiset(ps) + multiset{p}
  {
    if ps != [] && p.hash > ps[0].hash {
      InsertPtCounts(p, ps[1..]);
      assert ps == [ps[0]] + ps[1..];
    }
  }

  lemma {:induction false} InsertPtSorts(p: Point, ps: seq<Point>)
    requires SortedPts(ps)
    ensures SortedPts(InsertPt(p, ps))
  {
    if ps != [] && p.hash > ps[0].hash {
      InsertPtSorts(p, ps[1..]);
      InsertPtCounts(p, ps[1..]);
      var t := InsertPt(p, ps[1..]);
      forall i | 0 <= i < |t| ensures ps[0].hash <= t[i].hash {
        OneOf(p, ps[1..], t, i);
      }
    }
  }

  lemma OneOf(p: Point, ps: seq<Point>, t: seq<Point>, i: nat)
    requires multiset(t) == multiset(ps) + multiset{p} && i < |t|
    ensures t[i] == p || exists j :: 0 <= j < |ps| && ps[j] == t[i]
  {
    assert t[i] in multiset(t);
    if t[i] != p {
      assert t[i] in multiset(ps);
      assert t[i] in ps;
    }
  }

  lemma {:induction false} SortPtsSorts(ps: seq<Point>)
    ensures SortedPts(SortPts(ps)) && multiset(SortPts(ps)) == multiset(ps)
  {
    hide InsertPt, SortedPts;
    if ps == [] {
      NothingSorted();
    } else {
      SortPtsSorts(ps[1..]);
      InsertPtSorts(ps[0], SortPts(ps[1..]));
      InsertPtCounts(ps[0], SortPts(ps[1..]));
      assert ps == [ps[0]] + ps[1..];
    }
  }

  lemma NothingSorted()
    ensures SortedPts([])
  {
  }

  /** Without ties, a multiset of points has one sorted order. */
  lemma {:induction false} SortedUnique(a: seq<Point>, b: seq<Point>)
    requires SortedPts(a) && SortedPts(b) && multiset(a) == multiset(b) && NoTies(a)
    ensures a == b
  {
    assert |a| == |multiset(a)| && |b| == |multiset(b)|;
    if a != [] {
      SameHead(a, b);
      SameTail(a, b);
      SortedUnique(a[1..], b[1..]);
      assert a == [a[0]] + a[1..] && b == [b[0]] + b[1..];
    }
  }

  lemma SameTail(a: seq<Point>, b: seq<Point>)
    requires a != [] && b != [] && a[0] == b[0] && multiset(a) == multiset(b)
    ensures multiset(a[1..]) == multiset(b[1..])
  {
    assert a == [a[0]] + a[1..] && b == [b[0]] + b[1..];
    assert multiset(a[1..]) == multiset(a) - multiset{a[0]};
    assert multiset(b[1..]) == multiset(b) - multiset{b[0]};
  }

  lemma SameHead(a: seq<Point>, b: seq<Point>)
    requires SortedPts(a) && SortedPts(b) && multiset(a) == multiset(b) && NoTies(a) && a != [] && b != []
    ensures a[0] == b[0]
  {
    assert a[0] in multiset(b) && b[0] in multiset(a);
    var i :| 0 <= i < |b| && b[i] == a[0];
    var j :| 0 <= j < |a| && a[j] == b[0];
  }

  // ---- The walk of a shard ----

  function Ge(ps: seq<Point>, h: nat): seq<Point> {
    if ps == [] then []
    else if ps[|ps| - 1].hash >= h then Ge(ps[..|ps| - 1], h) + [ps[|ps| - 1]]
    else Ge(ps[..|ps| - 1], h)
  }

  function Lt(ps: seq<Point>, h: nat): seq<Point> {
    if ps == [] then []
    else if ps[|ps| - 1].hash < h then Lt(ps[..|ps| - 1], h) + [ps[|ps| - 1]]
    else Lt(ps[..|ps| - 1], h)
  }

  /** Clockwise from h: the points at or past it, then those before it. */
  function Walk(ps: seq<Point>, h: nat): seq<Point> {
    Ge(ps, h) + Lt(ps, h)
  }

  function Without(ps: seq<Point>, node: string): seq<Point> {
    if ps == [] then []
    else if ps[|ps| - 1].node == node then Without(ps[..|ps| - 1], node)
    else Without(ps[..|ps| - 1], node) + [ps[|ps| - 1]]
  }

  /** Each node at its first point. */
  function Order(ps: seq<Point>): seq<string> {
    if ps == [] then []
    else
      var front := Order(ps[..|ps| - 1]);
      var node := ps[|ps| - 1].node;
      if node in front then front else front + [node]
  }

  function Drop(nodes: seq<string>, node: string): seq<string> {
    if nodes == [] then []
    else if nodes[|nodes| - 1] == node then Drop(nodes[..|nodes| - 1], node)
    else Drop(nodes[..|nodes| - 1], node) + [nodes[|nodes| - 1]]
  }

  ghost predicate Unique(nodes: seq<string>) {
    forall i, j :: 0 <= i < j < |nodes| ==> nodes[i] != nodes[j]
  }

  lemma WithoutSnoc(ps: seq<Point>, p: Point, node: string)
    ensures Without(ps + [p], node) == if p.node == node then Without(ps, node) else Without(ps, node) + [p]
  {
    assert (ps + [p])[..|ps|] == ps;
  }

  lemma SplitSnoc(ps: seq<Point>, p: Point, h: nat)
    ensures Ge(ps + [p], h) == if p.hash >= h then Ge(ps, h) + [p] else Ge(ps, h)
    ensures Lt(ps + [p], h) == if p.hash < h then Lt(ps, h) + [p] else Lt(ps, h)
  {
    assert (ps + [p])[..|ps|] == ps;
  }

  lemma {:induction false} WithoutAppend(a: seq<Point>, b: seq<Point>, node: string)
    ensures Without(a + b, node) == Without(a, node) + Without(b, node)
    decreases |b|
  {
    hide Without;
    if b == [] {
      assert a + b == a;
      assert Without([], node) == [] by { WithoutNothing(node); }
    } else {
      var front, p := b[..|b| - 1], b[|b| - 1];
      WithoutAppend(a, front, node);
      WithoutSnoc(front, p, node);
      WithoutSnoc(a + front, p, node);
      assert b == front + [p] && a + b == (a + front) + [p];
    }
  }

  lemma WithoutNothing(node: string)
    ensures Without([], node) == []
  {
  }

  lemma {:induction false} WithoutGe(ps: seq<Point>, h: nat, node: string)
    ensures Without(Ge(ps, h), node) == Ge(Without(ps, node), h)
    ensures Without(Lt(ps, h), node) == Lt(Without(ps, node), h)
    decreases |ps|
  {
    hide Without, Ge, Lt;
    if ps == [] {
      WithoutNothing(node);
      SplitNothing(h);
    } else {
      WithoutGe(ps[..|ps| - 1], h, node);
      WithoutGeStep(ps[..|ps| - 1], ps[|ps| - 1], h, node);
      assert ps == ps[..|ps| - 1] + [ps[|ps| - 1]];
    }
  }

  lemma WithoutGeStep(front: seq<Point>, p: Point, h: nat, node: string)
    requires Without(Ge(front, h), node) == Ge(Without(front, node), h)
    requires Without(Lt(front, h), node) == Lt(Without(front, node), h)
    ensures Without(Ge(front + [p], h), node) == Ge(Without(front + [p], node), h)
    ensures Without(Lt(front + [p], h), node) == Lt(Without(front + [p], node), h)
  {
    hide Without, Ge, Lt;
    SplitSnoc(front, p, h);
    WithoutSnoc(front, p, node);
    WithoutSnoc(Ge(front, h), p, node);
    WithoutSnoc(Lt(front, h), p, node);
    SplitSnoc(Without(front, node), p, h);
  }

  /** Dropping a node's points from the ring drops them from every walk. */
  lemma WithoutWalk(ps: seq<Point>, h: nat, node: string)
    ensures Without(Walk(ps, h), node) == Walk(Without(ps, node), h)
  {
    WithoutAppend(Ge(ps, h), Lt(ps, h), node);
    WithoutGe(ps, h, node);
  }

  lemma {:induction false} DropMembers(nodes: seq<string>, node: string)
    ensures forall x :: x in Drop(nodes, node) <==> x in nodes && x != node
    decreases |nodes|
  {
    if nodes != [] {
      DropMembers(nodes[..|nodes| - 1], node);
      assert nodes == nodes[..|nodes| - 1] + [nodes[|nodes| - 1]];
    }
  }

  lemma DropStep(nodes: seq<string>, x: string, node: string)
    ensures Drop(nodes + [x], node) == if x == node then Drop(nodes, node) else Drop(nodes, node) + [x]
  {
    assert (nodes + [x])[..|nodes|] == nodes;
  }

  lemma DropNothing(node: string)
    ensures Drop([], node) == []
  {
  }

  lemma {:induction false} OrderWithout(ps: seq<Point>, node: string)
    ensures Order(Without(ps, node)) == Drop(Order(ps), node)
    decreases |ps|
  {
    hide Order, Drop, Without;
    if ps == [] {
      OrderNothing();
      WithoutNothing(node);
      DropNothing(node);
    } else {
      var front, p := ps[..|ps| - 1], ps[|ps| - 1];
      assert ps == front + [p];
      OrderWithout(front, node);
      var order, left := Order(front), Without(front, node);
      assert p.node in Drop(order, node) <==> p.node in order && p.node != node by { DropMembers(order, node); }
      OrderSnoc(front, p);
      OrderSnoc(left, p);
      DropStep(order, p.node, node);
      WithoutSnoc(front, p, node);
    }
  }

  function NodesIn(ps: seq<Point>): (r: seq<string>)
    ensures |r| == |ps| && forall i :: 0 <= i < |ps| ==> r[i] == ps[i].node
  {
    seq(|ps|, i requires 0 <= i < |ps| => ps[i].node)
  }

  lemma {:induction false} OrderIs(ps: seq<Point>)
    ensures Unique(Order(ps))
    ensures forall x :: x in Order(ps) <==> x in NodesIn(ps)
    decreases |ps|
  {
    if ps != [] {
      var n := |ps| - 1;
      OrderIs(ps[..n]);
      assert NodesIn(ps) == NodesIn(ps[..n]) + [ps[n].node];
    }
  }

  /** A list without repeats is its shortening with one entry put back. */
  lemma {:induction false} Reinserted(nodes: seq<string>, node: string) returns (at: nat)
    requires Unique(nodes) && node in nodes
    ensures at <= |Drop(nodes, node)| && nodes == Drop(nodes, node)[..at] + [node] + Drop(nodes, node)[at..]
    decreases |nodes|
  {
    var n := |nodes| - 1;
    assert nodes == nodes[..n] + [nodes[n]];
    if nodes[n] == node {
      DropAbsent(nodes[..n], node);
      at := n;
    } else {
      at := Reinserted(nodes[..n], node);
      PutBackLater(Drop(nodes[..n], node), at, node, nodes[n]);
    }
  }

  lemma PutBackLater(d: seq<string>, at: nat, node: string, last: string)
    requires at <= |d|
    ensures (d[..at] + [node] + d[at..]) + [last] == (d + [last])[..at] + [node] + (d + [last])[at..]
  {
  }

  lemma {:induction false} DropAbsent(nodes: seq<string>, node: string)
    requires node !in nodes
    ensures Drop(nodes, node) == nodes
    decreases |nodes|
  {
    if nodes != [] {
      DropAbsent(nodes[..|nodes| - 1], node);
      assert nodes == nodes[..|nodes| - 1] + [nodes[|nodes| - 1]];
    }
  }

  // ---- Rings ----

  /** The hash of a node's i-th virtual point. */
  type PointHash = (string, nat) -> nat

  function VPoints(hash: PointHash, node: string, v: nat): (ps: seq<Point>)
    ensures |ps| == v && forall i :: 0 <= i < v ==> ps[i] == Point(hash(node, i), node)
  {
    seq(v, i requires 0 <= i < v => Point(hash(node, i), node))
  }

  /** Sorted, with exactly the virtual points of the given nodes. */
  ghost predicate IsRing(ps: seq<Point>, nodes: set<string>, hash: PointHash, v: nat) {
    && v > 0 && SortedPts(ps)
    && forall p :: multiset(ps)[p] == if p.node in nodes then multiset(VPoints(hash, p.node, v))[p] else 0
  }

  /** No two nodes share a hash. */
  ghost predicate Separate(nodes: set<string>, hash: PointHash, v: nat) {
    forall a, b, i, j :: a in nodes && b in nodes && 0 <= i < v && 0 <= j < v && a != b ==> hash(a, i) != hash(b, j)
  }

  lemma PointsOf(ps: seq<Point>, nodes: set<string>, hash: PointHash, v: nat, p: Point)
    requires IsRing(ps, nodes, hash, v)
    ensures p in ps <==> p.node in nodes && exists i :: 0 <= i < v && p.hash == hash(p.node, i)
  {
    assert p in ps <==> p in multiset(ps);
    var all := VPoints(hash, p.node, v);
    assert p in all <==> p in multiset(all);
    if p in all { var i :| 0 <= i < v && all[i] == p; assert p.hash == hash(p.node, i); }
    if i :| 0 <= i < v && p.hash == hash(p.node, i) { assert all[i] == p; }
  }

  lemma RingHasNoTies(ps: seq<Point>, nodes: set<string>, hash: PointHash, v: nat)
    requires IsRing(ps, nodes, hash, v) && Separate(nodes, hash, v)
    ensures NoTies(ps)
  {
    hide IsRing;
    forall i, j | 0 <= i < |ps| && 0 <= j < |ps| && ps[i].hash == ps[j].hash ensures ps[i] == ps[j] {
      PointsOf(ps, nodes, hash, v, ps[i]);
      PointsOf(ps, nodes, hash, v, ps[j]);
    }
  }

  /** The node set determines the ring: neither insertion order nor history matters. */
  lemma RingIsUnique(a: seq<Point>, b: seq<Point>, nodes: set<string>, hash: PointHash, v: nat)
    requires IsRing(a, nodes, hash, v) && IsRing(b, nodes, hash, v) && Separate(nodes, hash, v)
    ensures a == b
  {
    RingHasNoTies(a, nodes, hash, v);
    forall p ensures multiset(a)[p] == multiset(b)[p] {
    }
    SortedUnique(a, b);
  }

  lemma {:induction false} WithoutCounts(ps: seq<Point>, node: string, p: Point)
    ensures multiset(Without(ps, node))[p] == if p.node == node then 0 else multiset(ps)[p]
    decreases |ps|
  {
    if ps != [] {
      WithoutCounts(ps[..|ps| - 1], node, p);
      assert ps == ps[..|ps| - 1] + [ps[|ps| - 1]];
    }
  }

  lemma {:induction false} WithoutKeeps(ps: seq<Point>, node: string)
    requires SortedPts(ps)
    ensures SortedPts(Without(ps, node))
    decreases |ps|
  {
    if ps != [] {
      var n := |ps| - 1;
      WithoutKeeps(ps[..n], node);
      var w := Without(ps[..n], node);
      forall i | 0 <= i < |w| ensures w[i].hash <= ps[n].hash {
        WithoutCounts(ps[..n], node, w[i]);
        assert w[i] in multiset(w);
        assert w[i] in ps[..n];
        var j :| 0 <= j < n && ps[..n][j] == w[i];
      }
    }
  }

  lemma RemoveIsRing(ps: seq<Point>, nodes: set<string>, node: string, hash: PointHash, v: nat)
    requires IsRing(ps, nodes, hash, v)
    ensures IsRing(Without(ps, node), nodes - {node}, hash, v)
  {
    hide SortedPts, Without;
    WithoutKeeps(ps, node);
    forall p: Point ensures multiset(Without(ps, node))[p] == if p.node in nodes - {node} then multiset(VPoints(hash, p.node, v))[p] else 0 {
      WithoutCounts(ps, node, p);
    }
  }

  lemma AddIsRing(ps: seq<Point>, nodes: set<string>, node: string, hash: PointHash, v: nat)
    requires IsRing(ps, nodes, hash, v) && node !in nodes
    ensures IsRing(SortPts(ps + VPoints(hash, node, v)), nodes + {node}, hash, v)
  {
    hide SortedPts, SortPts;
    var more := VPoints(hash, node, v);
    SortPtsSorts(ps + more);
    forall p: Point ensures multiset(ps + more)[p] == if p.node in nodes + {node} then multiset(VPoints(hash, p.node, v))[p] else 0 {
      assert multiset(ps + more)[p] == multiset(ps)[p] + multiset(more)[p];
      OtherNode(hash, node, v, p);
    }
  }

  lemma OtherNode(hash: PointHash, node: string, v: nat, p: Point)
    ensures p.node != node ==> multiset(VPoints(hash, node, v))[p] == 0
  {
    if p.node != node {
      assert p !in VPoints(hash, node, v);
      assert p !in multiset(VPoints(hash, node, v));
    }
  }

  lemma RingNodes(ps: seq<Point>, nodes: set<string>, hash: PointHash, v: nat, h: nat)
    requires IsRing(ps, nodes, hash, v)
    ensures Unique(Order(Walk(ps, h))) && forall x :: x in Order(Walk(ps, h)) <==> x in nodes
  {
    hide IsRing;
    assert v > 0 by { RingHasPoints(ps, nodes, hash, v); }
    OrderIs(Walk(ps, h));
    forall x ensures x in Order(Walk(ps, h)) <==> x in nodes {
      if x in nodes {
        var p := Point(hash(x, 0), x);
        PointsOf(ps, nodes, hash, v, p);
        WalkMembers(ps, h, p);
        var i :| 0 <= i < |Walk(ps, h)| && Walk(ps, h)[i] == p;
        assert NodesIn(Walk(ps, h))[i] == x;
      } else if x in NodesIn(Walk(ps, h)) {
        var i :| 0 <= i < |Walk(ps, h)| && NodesIn(Walk(ps, h))[i] == x;
        WalkMembers(ps, h, Walk(ps, h)[i]);
        PointsOf(ps, nodes, hash, v, Walk(ps, h)[i]);
      }
    }
  }

  lemma RingHasPoints(ps: seq<Point>, nodes: set<string>, hash: PointHash, v: nat)
    requires IsRing(ps, nodes, hash, v)
    ensures v > 0
  {
  }

  lemma {:induction false} SplitMembers(ps: seq<Point>, h: nat, p: Point)
    ensures p in Ge(ps, h) <==> p in ps && p.hash >= h
    ensures p in Lt(ps, h) <==> p in ps && p.hash < h
    decreases |ps|
  {
    if ps != [] {
      SplitMembers(ps[..|ps| - 1], h, p);
      assert ps == ps[..|ps| - 1] + [ps[|ps| - 1]];
    }
  }

  lemma WalkMembers(ps: seq<Point>, h: nat, p: Point)
    ensures p in Walk(ps, h) <==> p in ps
  {
    SplitMembers(ps, h, p);
  }

  lemma {:induction false} UniqueSize(nodes: seq<string>, s: set<string>)
    requires Unique(nodes) && forall x :: x in nodes <==> x in s
    ensures |nodes| == |s|
    decreases |nodes|
  {
    if nodes == [] {
      assert s == {};
    } else {
      var n := |nodes| - 1;
      assert nodes == nodes[..n] + [nodes[n]];
      UniqueSize(nodes[..n], s - {nodes[n]});
    }
  }

  // ---- Owners ----

  function Owners(ps: seq<Point>, h: nat, n: nat): seq<string> {
    var all := Order(Walk(ps, h));
    all[..Min(n, |all|)]
  }

  /** Going clockwise from h, p does not come after q: points at or past h come first, each part by rising hash. */
  predicate NoLater(h: nat, p: Point, q: Point) {
    if p.hash >= h then q.hash < h || p.hash <= q.hash else q.hash < h && p.hash <= q.hash
  }

  /** Some point of node a comes no later than any point of node b. */
  ghost predicate Precedes(ps: seq<Point>, h: nat, a: string, b: string) {
    exists p :: p in ps && p.node == a && forall q :: q in ps && q.node == b ==> NoLater(h, p, q)
  }

  /** Every owner precedes everything that is not an owner before it. */
  ghost predicate ClosestFirst(ps: seq<Point>, h: nat, owners: seq<string>) {
    forall i, x :: 0 <= i < |owners| && x !in owners[..i] ==> Precedes(ps, h, owners[i], x)
  }

  /** A ring point at at: the next one at or past h, or the least one if there is none past h. */
  ghost predicate Facing(ps: seq<Point>, h: nat, at: nat) {
    if at >= h then forall q :: q in ps ==> !(h <= q.hash < at)
    else forall q :: q in ps ==> q.hash < h && at <= q.hash
  }

  lemma WalkIsClockwise(ps: seq<Point>, h: nat, i: nat, j: nat)
    requires SortedPts(ps) && i <= j < |Walk(ps, h)|
    ensures NoLater(h, Walk(ps, h)[i], Walk(ps, h)[j])
  {
    var k := SplitPlace(ps, h);
    assert Walk(ps, h) == ps[k..] + ps[..k];
  }

  /** Where the points at or past h begin. */
  lemma SplitPlace(ps: seq<Point>, h: nat) returns (k: nat)
    requires SortedPts(ps)
    ensures k <= |ps| && Ge(ps, h) == ps[k..] && Lt(ps, h) == ps[..k]
    ensures forall i :: 0 <= i < |ps| ==> (ps[i].hash < h <==> i < k)
  {
    hide Ge, Lt;
    k := 0;
    while k < |ps| && ps[k].hash < h
      invariant k <= |ps| && forall i :: 0 <= i < k ==> ps[i].hash < h
    {
      k := k + 1;
    }
    SplitAt(ps, h, k);
  }

  /** A node stands in the order where its first point is. */
  lemma {:induction false} OrderByFirst(ps: seq<Point>, i: nat) returns (a: nat)
    requires i < |Order(ps)|
    ensures a < |ps| && ps[a].node == Order(ps)[i]
    ensures forall b :: 0 <= b < |ps| && ps[b].node !in Order(ps)[..i] ==> a <= b
    decreases |ps|
  {
    var n := |ps| - 1;
    var front := Order(ps[..n]);
    OrderIs(ps[..n]);
    if i < |front| {
      a := OrderByFirst(ps[..n], i);
      assert Order(ps)[..i] == front[..i];
    } else {
      a := n;
      assert Order(ps)[..i] == front;
      forall b | 0 <= b < n ensures ps[b].node in front { assert NodesIn(ps[..n])[b] == ps[b].node; }
    }
  }

  /** Owners are met in clockwise order from the shard's hash. */
  lemma OwnersClockwise(ps: seq<Point>, h: nat, n: nat)
    requires SortedPts(ps)
    ensures ClosestFirst(ps, h, Owners(ps, h, n))
  {
    hide Walk, Order, SortedPts;
    var walk, owners := Walk(ps, h), Owners(ps, h, n);
    forall i, x | 0 <= i < |owners| && x !in owners[..i] ensures Precedes(ps, h, owners[i], x) {
      assert owners[..i] == Order(walk)[..i];
      var a := OrderByFirst(walk, i);
      WalkMembers(ps, h, walk[a]);
      forall q | q in ps && q.node == x ensures NoLater(h, walk[a], q) {
        WalkMembers(ps, h, q);
        var b :| 0 <= b < |walk| && walk[b] == q;
        WalkIsClockwise(ps, h, a, b);
      }
    }
  }

  /** Owners are distinct, min(n, nodes) of them, and shorter lists are prefixes of longer ones. */
  lemma OwnersAre(ps: seq<Point>, nodes: set<string>, hash: PointHash, v: nat, h: nat, n: nat)
    requires IsRing(ps, nodes, hash, v)
    ensures Unique(Owners(ps, h, n)) && |Owners(ps, h, n)| == Min(n, |nodes|)
    ensures forall x :: x in Owners(ps, h, n) ==> x in nodes
    ensures forall m: nat :: m <= n ==> Owners(ps, h, m) <= Owners(ps, h, n)
  {
    hide IsRing;
    RingNodes(ps, nodes, hash, v, h);
    var all := Order(Walk(ps, h));
    UniqueSize(all, nodes);
    forall x | x in Owners(ps, h, n) ensures x in nodes { assert x in all; }
  }

  /**
   Adding a node puts it into each shard's full order at one place and moves
   nothing else; owner lists are cuts of that order.
   */
  lemma AddMovesOne(ps: seq<Point>, qs: seq<Point>, nodes: set<string>, node: string, hash: PointHash, v: nat, h: nat) returns (at: nat)
    requires IsRing(ps, nodes, hash, v) && node !in nodes && IsRing(qs, nodes + {node}, hash, v)
    requires Separate(nodes, hash, v)
    ensures var before, after := Order(Walk(ps, h)), Order(Walk(qs, h));
            at <= |before| && after == before[..at] + [node] + before[at..]
    ensures forall n: nat :: Owners(qs, h, n) == var before := Order(Walk(ps, h)); var after := before[..at] + [node] + before[at..]; after[..Min(n, |after|)]
  {
    hide IsRing, Separate;
    RemoveIsRing(qs, nodes + {node}, node, hash, v);
    assert nodes + {node} - {node} == nodes;
    RingIsUnique(Without(qs, node), ps, nodes, hash, v);
    WithoutWalk(qs, h, node);
    OrderWithout(Walk(qs, h), node);
    RingNodes(qs, nodes + {node}, hash, v, h);
    at := Reinserted(Order(Walk(qs, h)), node);
  }

  /** Adding a node changes an owner list only by putting that node into it at one place and cutting off the overflow. */
  lemma AddIsMinimal(ps: seq<Point>, qs: seq<Point>, nodes: set<string>, node: string, hash: PointHash, v: nat, h: nat, n: nat) returns (at: nat)
    requires IsRing(ps, nodes, hash, v) && node !in nodes && IsRing(qs, nodes + {node}, hash, v)
    requires Separate(nodes, hash, v)
    ensures var was := Owners(ps, h, n);
            && (at < n ==> at <= |was| && Owners(qs, h, n) == was[..at] + [node] + was[at..Min(n - 1, |was|)])
            && (at >= n ==> Owners(qs, h, n) == was)
    ensures node !in Owners(qs, h, n) ==> Owners(qs, h, n) == Owners(ps, h, n)
    ensures forall x :: x in Owners(qs, h, n) ==> x == node || x in Owners(ps, h, n)
  {
    hide IsRing, Separate, Walk, Order;
    at := AddMovesOne(ps, qs, nodes, node, hash, v, h);
    var before := Order(Walk(ps, h));
    CutOfInsert(before, at, node, n);
    var was, now := Owners(ps, h, n), Owners(qs, h, n);
    if at < n { assert now[at] == node; }
    forall x | x in now ensures x == node || x in was {
      var i :| 0 <= i < |now| && now[i] == x;
      assert at < n && i > at ==> x == was[i - 1];
    }
  }

  lemma CutOfInsert(before: seq<string>, at: nat, node: string, n: nat)
    requires at <= |before|
    ensures var after := before[..at] + [node] + before[at..];
            var was, now := before[..Min(n, |before|)], after[..Min(n, |after|)];
            && (at < n ==> at <= |was| && now == was[..at] + [node] + was[at..Min(n - 1, |was|)])
            && (at >= n ==> now == was)
  {
    var after := before[..at] + [node] + before[at..];
    var was, now := before[..Min(n, |before|)], after[..Min(n, |after|)];
    if at < n {
      assert Min(n - 1, |was|) == Min(n - 1, |before|);
      forall i | 0 <= i < |now| ensures now[i] == (was[..at] + [node] + was[at..Min(n - 1, |before|)])[i] {
        assert now[i] == if i < at then before[i] else if i == at then node else before[i - 1];
      }
    }
  }

  /** Removing a node just added gives the old ring back, point for point. */
  lemma RemoveUndoesAdd(ps: seq<Point>, qs: seq<Point>, nodes: set<string>, node: string, hash: PointHash, v: nat)
    requires IsRing(ps, nodes, hash, v) && node !in nodes && IsRing(qs, nodes + {node}, hash, v) && Separate(nodes, hash, v)
    ensures Without(qs, node) == ps
  {
    hide IsRing, Separate;
    RemoveIsRing(qs, nodes + {node}, node, hash, v);
    assert nodes + {node} - {node} == nodes;
    RingIsUnique(Without(qs, node), ps, nodes, hash, v);
  }

  /** Adding a node back after removing it gives the old ring back. */
  lemma AddUndoesRemove(ps: seq<Point>, nodes: set<string>, node: string, hash: PointHash, v: nat)
    requires IsRing(ps, nodes, hash, v) && node in nodes && Separate(nodes, hash, v)
    ensures SortPts(Without(ps, node) + VPoints(hash, node, v)) == ps
  {
    hide IsRing, Separate, SortPts, Without;
    RemoveIsRing(ps, nodes, node, hash, v);
    AddIsRing(Without(ps, node), nodes - {node}, node, hash, v);
    assert nodes - {node} + {node} == nodes;
    RingIsUnique(SortPts(Without(ps, node) + VPoints(hash, node, v)), ps, nodes, hash, v);
  }

  /** Two nodes may join in either order. */
  lemma JoinOrderIsIrrelevant(ps: seq<Point>, nodes: set<string>, a: string, b: string, hash: PointHash, v: nat)
    requires IsRing(ps, nodes, hash, v) && a !in nodes && b !in nodes && a != b && Separate(nodes + {a, b}, hash, v)
    ensures SortPts(SortPts(ps + VPoints(hash, a, v)) + VPoints(hash, b, v)) == SortPts(SortPts(ps + VPoints(hash, b, v)) + VPoints(hash, a, v))
  {
    hide IsRing, Separate, SortPts;
    AddIsRing(ps, nodes, a, hash, v);
    AddIsRing(ps, nodes, b, hash, v);
    AddIsRing(SortPts(ps + VPoints(hash, a, v)), nodes + {a}, b, hash, v);
    AddIsRing(SortPts(ps + VPoints(hash, b, v)), nodes + {b}, a, hash, v);
    assert nodes + {a} + {b} == nodes + {a, b} == nodes + {b} + {a};
    RingIsUnique(SortPts(SortPts(ps + VPoints(hash, a, v)) + VPoints(hash, b, v)),
                 SortPts(SortPts(ps + VPoints(hash, b, v)) + VPoints(hash, a, v)), nodes + {a, b}, hash, v);
  }

  // ---- The code ----

  lemma {:induction false} SplitAt(ps: seq<Point>, h: nat, i: nat)
    requires i <= |ps| && (forall j :: 0 <= j < i ==> ps[j].hash < h) && (forall j :: i <= j < |ps| ==> ps[j].hash >= h)
    ensures Ge(ps, h) == ps[i..] && Lt(ps, h) == ps[..i]
    decreases |ps|
  {
    hide Ge, Lt;
    if ps == [] {
      SplitNothing(h);
    } else {
      var front, p := ps[..|ps| - 1], ps[|ps| - 1];
      assert ps == front + [p];
      SplitSnoc(front, p, h);
      if i < |ps| {
        SplitAt(front, h, i);
        assert ps[i..] == front[i..] + [p] && ps[..i] == front[..i];
      } else {
        SplitAt(front, h, |front|);
        assert ps[i..] == [] == front[|front|..] && ps[..i] == front[..|front|] + [p];
      }
    }
  }

  lemma SplitNothing(h: nat)
    ensures Ge([], h) == [] && Lt([], h) == []
  {
  }

  /** Binary search for the first point at or past h. */
  method FirstAtLeast(ps: seq<Point>, h: nat) returns (i: nat)
    requires SortedPts(ps)
    ensures i <= |ps| && Ge(ps, h) == ps[i..] && Lt(ps, h) == ps[..i]
  {
    hide Ge, Lt;
    var lo, hi := 0, |ps|;
    while lo < hi
      invariant 0 <= lo <= hi <= |ps|
      invariant forall j :: 0 <= j < lo ==> ps[j].hash < h
      invariant forall j :: hi <= j < |ps| ==> ps[j].hash >= h
    {
      var mid := (lo + hi) / 2;
      if ps[mid].hash >= h {
        hi := mid;
      } else {
        lo := mid + 1;
      }
    }
    SplitAt(ps, h, lo);
    return lo;
  }

  lemma {:induction false} OrderPrefix(ps: seq<Point>, i: nat)
    requires i <= |ps|
    ensures Order(ps[..i]) <= Order(ps)
    decreases |ps|
  {
    if i < |ps| {
      OrderPrefix(ps[..|ps| - 1], i);
      assert ps[..|ps| - 1][..i] == ps[..i];
    } else {
      assert ps[..i] == ps;
    }
  }

  class HashRing {
    const hash: PointHash
    const shardHash: nat -> nat
    const virtualNodes: nat
    var points: seq<Point>
    var nodeSet: set<string>

    ghost predicate Valid()
      reads this
    {
      IsRing(points, nodeSet, hash, virtualNodes)
    }

    constructor (virtualNodes: nat, hash: PointHash, shardHash: nat -> nat)
      ensures Valid() && nodeSet == {} && points == []
      ensures this.hash == hash && this.shardHash == shardHash && this.virtualNodes == if virtualNodes < 1 then 1 else virtualNodes
    {
      this.hash, this.shardHash := hash, shardHash;
      this.virtualNodes := if virtualNodes < 1 then 1 else virtualNodes;
      points, nodeSet := [], {};
    }

    method AddNode(node: string)
      requires Valid()
      modifies this
      ensures Valid() && nodeSet == old(nodeSet) + {node}
      ensures points == if node in old(nodeSet) then old(points) else SortPts(old(points) + VPoints(hash, node, virtualNodes))
    {
      hide IsRing;
      if node in nodeSet {
        assert nodeSet + {node} == nodeSet;
        return;
      }
      nodeSet := nodeSet + {node};
      var more: seq<Point> := [];
      for i := 0 to virtualNodes
        invariant more == VPoints(hash, node, i) && points == old(points) && nodeSet == old(nodeSet) + {node}
      {
        more := more + [Point(hash(node, i), node)];
      }
      AddIsRing(points, old(nodeSet), node, hash, virtualNodes);
      points := SortPts(points + more);
    }

    method RemoveNode(node: string)
      requires Valid()
      modifies this
      ensures Valid() && nodeSet == old(nodeSet) - {node}
      ensures points == if node in old(nodeSet) then Without(old(points), node) else old(points)
    {
      hide IsRing;
      if node !in nodeSet {
        assert nodeSet - {node} == nodeSet;
        return;
      }
      nodeSet := nodeSet - {node};
      var filtered: seq<Point> := [];
      for i := 0 to |points|
        invariant points == old(points) && nodeSet == old(nodeSet) - {node}
        invariant filtered == Without(points[..i], node)
      {
        assert points[..i + 1] == points[..i] + [points[i]];
        WithoutSnoc(points[..i], points[i], node);
        if points[i].node != node {
          filtered := filtered + [points[i]];
        }
      }
      assert points[..|points|] == points;
      RemoveIsRing(points, old(nodeSet), node, hash, virtualNodes);
      points := filtered;
    }

    /** The first owner, or None on an empty ring. */
    method OwnerOf(shard: nat) returns (owner: Option<string>)
      requires Valid()
      ensures owner.Some? <==> points != []
      ensures owner.Some? ==> Owners(points, shardHash(shard), 1) == [owner.value]
      ensures owner.Some? ==> exists i :: 0 <= i < |points| && points[i].node == owner.value && Facing(points, shardHash(shard), points[i].hash)
    {
      hide IsRing, Order, Ge, Lt;
      if points == [] {
        return None;
      }
      assert SortedPts(points) by { RingSorted(points, nodeSet, hash, virtualNodes); }
      var h := shardHash(shard);
      var i := FirstAtLeast(points, h);
      if i == |points| {
        i := 0;
        assert Walk(points, h) == points;
      }
      assert Walk(points, h)[0] == points[i];
      FirstOwner(Walk(points, h));
      forall q | q in points ensures NoLater(h, points[i], q) {
        WalkMembers(points, h, q);
        var b :| 0 <= b < |Walk(points, h)| && Walk(points, h)[b] == q;
        WalkIsClockwise(points, h, 0, b);
      }
      return Some(points[i].node);
    }

    /** Up to n owners in walk order; refused on an empty ring. */
    method OwnersOf(shard: nat, n: int) returns (owners: Option<seq<string>>)
      requires Valid()
      ensures owners.Some? <==> points != []
      ensures owners.Some? ==> owners.value == Owners(points, shardHash(shard), if n < 0 then 0 else n)
      ensures owners.Some? ==> ClosestFirst(points, shardHash(shard), owners.value)
    {
      hide IsRing, Order, Ge, Lt, ClosestFirst;
      if points == [] {
        return None;
      }
      var h := shardHash(shard);
      assert SortedPts(points) by { RingSorted(points, nodeSet, hash, virtualNodes); }
      OwnersClockwise(points, h, if n < 0 then 0 else n);
      if n <= 0 {
        return Some([]);
      }
      var most := if n > |nodeSet| then |nodeSet| else n;
      RingNodes(points, nodeSet, hash, virtualNodes, h);
      UniqueSize(Order(Walk(points, h)), nodeSet);
      var start := FirstAtLeast(points, h);
      ghost var walk := Walk(points, h);
      if start == |points| {
        start := 0;
        assert points[|points|..] + points[..|points|] == points[0..] + points[..0];
      }
      assert walk == points[start..] + points[..start];
      var found := FirstNodes(points, start, most);
      return Some(found);
    }
  }

  /** Walks the circle from start, taking each node once, until there are most of them. */
  method FirstNodes(ps: seq<Point>, start: nat, most: nat) returns (found: seq<string>)
    requires start <= |ps|
    ensures var all := Order(ps[start..] + ps[..start]); found == all[..Min(most, |all|)]
  {
    hide Order;
    ghost var walk := ps[start..] + ps[..start];
    found := [];
    var i := 0;
    OrderNothing();
    while |found| < most && i < |ps|
      invariant i <= |ps| && found == Order(walk[..i]) && |found| <= most
    {
      var p := ps[(start + i) % |ps|];
      assert p == walk[i] by { Rotated(ps, start, i); }
      OrderSnoc(walk[..i], p);
      assert walk[..i + 1] == walk[..i] + [p];
      if p.node !in found {
        found := found + [p.node];
      }
      i := i + 1;
    }
    OrderPrefix(walk, i);
    if i == |ps| { assert walk[..i] == walk; }
  }

  lemma RingSorted(ps: seq<Point>, nodes: set<string>, hash: PointHash, v: nat)
    requires IsRing(ps, nodes, hash, v)
    ensures SortedPts(ps)
  {
  }

  lemma Rotated(ps: seq<Point>, start: nat, i: nat)
    requires start <= |ps| && i < |ps|
    ensures (ps[start..] + ps[..start])[i] == ps[(start + i) % |ps|]
  {
    Wrap(start + i, |ps|);
    var k := (start + i) % |ps|;
    assert i < |ps| - start ==> k == start + i;
    assert i >= |ps| - start ==> k == i - (|ps| - start);
  }

  lemma Wrap(a: nat, n: nat)
    requires 0 < n && a < 2 * n
    ensures a % n == if a < n then a else a - n
  {
    if a >= n {
      assert a == n * 1 + (a - n);
    }
  }

  lemma OrderNothing()
    ensures Order([]) == []
  {
  }

  lemma OrderSnoc(ps: seq<Point>, p: Point)
    ensures Order(ps + [p]) == if p.node in Order(ps) then Order(ps) else Order(ps) + [p.node]
  {
    assert (ps + [p])[..|ps|] == ps;
  }

  lemma FirstOwner(walk: seq<Point>)
    requires walk != []
    ensures |Order(walk)| >= 1 && Order(walk)[0] == walk[0].node
  {
    OrderPrefix(walk, 1);
    assert walk[..1] == [] + [walk[0]];
    OrderSnoc([], walk[0]);
  }
}
