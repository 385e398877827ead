/**
 Cluster topology: the replicated state machine, and rebalancing shards onto
 the owners the hash ring asks for.
 */
module Topology {
  import opened Bytes
  import opened Ring

  datatype Command =
    | AddNode(id: string, addr: string)
    | RemoveNode(id: string)
    | SetShardLeader(shard: nat, id: string)
    | AddShardReplica(shard: nat, id: string)
    | RemoveShardReplica(shard: nat, id: string)

  datatype State = State(nodes: map<string, string>, leader: map<nat, string>, replicas: map<nat, seq<string>>)

  /** A shard without a leader reads as the empty id. */
  function LeaderOf(s: State, shard: nat): string {
    if shard in s.leader then s.leader[shard] else ""
  }

  function ReplicasOf(s: State, shard: nat): seq<string> {
    if shard in s.replicas then s.replicas[shard] else []
  }

  /** One committed command. */
  function Applied(s: State, c: Command): State {
    match c
    case AddNode(id, addr) => s.(nodes := s.nodes[id := addr])
    case RemoveNode(id) => s.(nodes := s.nodes - {id})
    case SetShardLeader(shard, id) => s.(leader := s.leader[shard := id])
    case AddShardReplica(shard, id) =>
      if id in ReplicasOf(s, shard) then s else s.(replicas := s.replicas[shard := ReplicasOf(s, shard) + [id]])
    case RemoveShardReplica(shard, id) => s.(replicas := s.replicas[shard := Drop(ReplicasOf(s, shard), id)])
  }

  class Node {
    var state: State
    var log: seq<Command>            // committed, in order
    var attempts: nat
    const commits: nat -> bool       // whether the n-th proposal commits

    constructor (state: State, commits: nat -> bool)
      ensures this.state == state && log == [] && attempts == 0 && this.commits == commits
    {
      this.state, log, attempts, this.commits := state, [], 0, commits;
    }

    /** Applies a committed command, editing the replica list in place. */
    method Apply(c: Command)
      modifies this`state
      ensures state == Applied(old(state), c)
    {
      match c {
        case AddNode(id, addr) =>
          state := state.(nodes := state.nodes[id := addr]);
        case RemoveNode(id) =>
          state := state.(nodes := state.nodes - {id});
        case SetShardLeader(shard, id) =>
          state := state.(leader := state.leader[shard := id]);
        case AddShardReplica(shard, id) =>
          var replicas := ReplicasOf(state, shard);
          for i := 0 to |replicas|
            invariant state == old(state) && id !in replicas[..i]
          {
            if replicas[i] == id {
              return;
            }
          }
          assert replicas[..|replicas|] == replicas;
          state := state.(replicas := state.replicas[shard := replicas + [id]]);
        case RemoveShardReplica(shard, id) =>
          var replicas := ReplicasOf(state, shard);
          var filtered: seq<string> := [];
          for i := 0 to |replicas|
            invariant state == old(state) && filtered == Drop(replicas[..i], id)
          {
            assert replicas[..i + 1][..i] == replicas[..i];
            if replicas[i] != id {
              filtered := filtered + [replicas[i]];
            }
          }
          assert replicas[..|replicas|] == replicas;
          state := state.(replicas := state.replicas[shard := filtered]);
      }
    }

    method Propose(c: Command) returns (ok: bool)
      modifies this
      ensures ok ==> state == Applied(old(state), c) && log == old(log) + [c]
      ensures !ok ==> state == old(state) && log == old(log)
    {
      ok := commits(attempts);
      attempts := attempts + 1;
      if ok {
        Apply(c);
        log := log + [c];
      }
    }
  }

  // ---- Balance ----

  /** The shard is led by the first desired owner and replicated on exactly the others. */
  ghost predicate BalancedShard(s: State, shard: nat, desired: seq<string>) {
    desired != [] ==>
      && LeaderOf(s, shard) == desired[0]
      && forall x :: x in ReplicasOf(s, shard) <==> x in desired[1..]
  }

  ghost predicate SameShard(s: State, t: State, shard: nat) {
    LeaderOf(s, shard) == LeaderOf(t, shard) && ReplicasOf(s, shard) == ReplicasOf(t, shard)
  }

  /** Only the named shard differs, if any. */
  ghost predicate OnlyShard(s: State, t: State, shard: nat) {
    s.nodes == t.nodes && forall k: nat :: k != shard ==> SameShard(s, t, k)
  }

  lemma OnlyTrans(s: State, t: State, u: State, shard: nat)
    requires OnlyShard(s, t, shard) && OnlyShard(t, u, shard)
    ensures OnlyShard(s, u, shard)
  {
    forall k: nat | k != shard ensures SameShard(s, u, k) {
      assert SameShard(s, t, k) && SameShard(t, u, k);
    }
  }

  lemma OnlyNothing(s: State, shard: nat)
    ensures OnlyShard(s, s, shard)
  {
  }

  lemma AppliedOnly(s: State, c: Command, shard: nat)
    requires match c case SetShardLeader(k, _) => k == shard case AddShardReplica(k, _) => k == shard
                         case RemoveShardReplica(k, _) => k == shard case _ => false
    ensures OnlyShard(s, Applied(s, c), shard)
    ensures !c.SetShardLeader? ==> LeaderOf(Applied(s, c), shard) == LeaderOf(s, shard)
    ensures c.SetShardLeader? ==> LeaderOf(Applied(s, c), shard) == c.id && ReplicasOf(Applied(s, c), shard) == ReplicasOf(s, shard)
    ensures c.RemoveShardReplica? ==> forall x :: x in ReplicasOf(Applied(s, c), shard) <==> x in ReplicasOf(s, shard) && x != c.id
    ensures c.AddShardReplica? ==> forall x :: x in ReplicasOf(Applied(s, c), shard) <==> x in ReplicasOf(s, shard) || x == c.id
  {
    DropMembers(ReplicasOf(s, shard), c.id);
  }

  ghost predicate NoReplicaTwice(s: State) {
    forall shard: nat :: Unique(ReplicasOf(s, shard))
  }

  lemma {:induction false} DropUnique(nodes: seq<string>, node: string)
    requires Unique(nodes)
    ensures Unique(Drop(nodes, node))
    decreases |nodes|
  {
    if nodes != [] {
      var front := nodes[..|nodes| - 1];
      assert Unique(front);
      DropUnique(front, node);
      DropMembers(front, node);
      assert nodes[|nodes| - 1] !in front;
    }
  }

  /** No command lists a replica twice. */
  lemma CommandsKeepReplicasApart(s: State, c: Command)
    requires NoReplicaTwice(s)
    ensures NoReplicaTwice(Applied(s, c))
  {
    hide Unique;
    forall shard: nat ensures Unique(ReplicasOf(Applied(s, c), shard)) {
      assert Unique(ReplicasOf(s, shard));
      match c {
        case AddShardReplica(k, id) => if k == shard { OneMoreReplica(ReplicasOf(s, shard), id); }
        case RemoveShardReplica(k, id) => if k == shard { DropUnique(ReplicasOf(s, shard), id); }
        case _ =>
      }
    }
  }

  lemma OneMoreReplica(replicas: seq<string>, id: string)
    requires Unique(replicas)
    ensures id !in replicas ==> Unique(replicas + [id])
  {
  }

  /** Proposes the leader if it differs. */
  method FixLeader(node: Node, shard: nat, current: string, desired: string) returns (ok: bool)
    requires current == LeaderOf(node.state, shard)
    modifies node
    ensures OnlyShard(old(node.state), node.state, shard)
    ensures ReplicasOf(node.state, shard) == old(ReplicasOf(node.state, shard))
    ensures ok ==> LeaderOf(node.state, shard) == desired
    ensures current == desired ==> ok && node.state == old(node.state) && node.log == old(node.log)
  {
    hide OnlyShard, Applied;
    OnlyNothing(node.state, shard);
    ok := true;
    if current != desired {
      AppliedOnly(node.state, SetShardLeader(shard, desired), shard);
      ok := node.Propose(SetShardLeader(shard, desired));
    }
  }

  /** Proposes removing every current replica that is not desired. */
  method DropExtra(node: Node, shard: nat, current: seq<string>, desired: seq<string>) returns (ok: bool)
    requires current == ReplicasOf(node.state, shard)
    modifies node
    ensures OnlyShard(old(node.state), node.state, shard)
    ensures LeaderOf(node.state, shard) == old(LeaderOf(node.state, shard))
    ensures ok ==> forall x :: x in ReplicasOf(node.state, shard) <==> x in current && x in desired
    ensures (forall x :: x in current ==> x in desired) ==> ok && node.state == old(node.state) && node.log == old(node.log)
  {
    hide OnlyShard, Applied, ReplicasOf, LeaderOf;
    OnlyNothing(node.state, shard);
    for i := 0 to |current|
      invariant OnlyShard(old(node.state), node.state, shard)
      invariant LeaderOf(node.state, shard) == old(LeaderOf(node.state, shard))
      invariant forall x :: x in ReplicasOf(node.state, shard) <==> x in current && (x in desired || x !in current[..i])
      invariant (forall x :: x in current ==> x in desired) ==> node.state == old(node.state) && node.log == old(node.log)
    {
      assert current[..i + 1] == current[..i] + [current[i]];
      if current[i] !in desired {
        ghost var before := node.state;
        AppliedOnly(before, RemoveShardReplica(shard, current[i]), shard);
        ok := node.Propose(RemoveShardReplica(shard, current[i]));
        if !ok { return; }
        OnlyTrans(old(node.state), before, node.state, shard);
      }
    }
    assert current[..|current|] == current;
    return true;
  }

  /** Proposes adding every desired replica that was not there. */
  method AddMissing(node: Node, shard: nat, current: seq<string>, desired: seq<string>) returns (ok: bool)
    requires forall x :: x in ReplicasOf(node.state, shard) <==> x in current && x in desired
    modifies node
    ensures OnlyShard(old(node.state), node.state, shard)
    ensures LeaderOf(node.state, shard) == old(LeaderOf(node.state, shard))
    ensures ok ==> forall x :: x in ReplicasOf(node.state, shard) <==> x in desired
    ensures (forall x :: x in desired ==> x in current) ==> ok && node.state == old(node.state) && node.log == old(node.log)
  {
    hide OnlyShard, Applied, ReplicasOf, LeaderOf;
    OnlyNothing(node.state, shard);
    for i := 0 to |desired|
      invariant OnlyShard(old(node.state), node.state, shard)
      invariant LeaderOf(node.state, shard) == old(LeaderOf(node.state, shard))
      invariant forall x :: x in ReplicasOf(node.state, shard) <==> x in desired && (x in current || x in desired[..i])
      invariant (forall x :: x in desired ==> x in current) ==> node.state == old(node.state) && node.log == old(node.log)
    {
      assert desired[..i + 1] == desired[..i] + [desired[i]];
      if desired[i] !in current {
        ghost var before := node.state;
        AppliedOnly(before, AddShardReplica(shard, desired[i]), shard);
        ok := node.Propose(AddShardReplica(shard, desired[i]));
        if !ok { return; }
        OnlyTrans(old(node.state), before, node.state, shard);
      }
    }
    assert desired[..|desired|] == desired;
    return true;
  }

  /** One shard's differences against the captured state. */
  method FixShard(node: Node, current: State, shard: nat, desired: seq<string>) returns (ok: bool)
    requires desired != [] && SameShard(current, node.state, shard)
    modifies node
    ensures OnlyShard(old(node.state), node.state, shard)
    ensures ok ==> BalancedShard(node.state, shard, desired)
    ensures BalancedShard(current, shard, desired) ==> ok && node.state == old(node.state) && node.log == old(node.log)
  {
    hide OnlyShard, ReplicasOf, LeaderOf;
    ok := FixLeader(node, shard, LeaderOf(current, shard), desired[0]);
    if !ok { return; }
    ghost var led := node.state;
    ok := DropExtra(node, shard, ReplicasOf(current, shard), desired[1..]);
    OnlyTrans(old(node.state), led, node.state, shard);
    if !ok { return; }
    ghost var dropped := node.state;
    ok := AddMissing(node, shard, ReplicasOf(current, shard), desired[1..]);
    OnlyTrans(old(node.state), dropped, node.state, shard);
  }

  class Cluster {
    const node: Node
    const numShards: nat
    const virtualNodes: nat
    const replicationFactor: nat
    const hash: PointHash
    const shardHash: nat -> nat
    var ring: HashRing

    ghost predicate Valid()
      reads this, ring
    {
      && ring.Valid() && replicationFactor > 0 && virtualNodes > 0
      && ring.hash == hash && ring.shardHash == shardHash && ring.virtualNodes == virtualNodes
    }

    constructor (node: Node, numShards: nat, virtualNodes: nat, replicationFactor: nat, hash: PointHash, shardHash: nat -> nat)
      ensures Valid() && fresh(ring) && this.node == node && ring.nodeSet == node.state.nodes.Keys
    {
      this.node := node;
      this.numShards := if numShards < 1 then 1 else numShards;
      var v := if virtualNodes < 1 then 1 else virtualNodes;
      this.virtualNodes := v;
      this.replicationFactor := if replicationFactor < 1 then 1 else replicationFactor;
      this.hash, this.shardHash := hash, shardHash;
      ring := new HashRing(v, hash, shardHash);
      new;
      Refresh();
    }

    /** A new ring over the nodes the replicated state knows, added in any order. */
    method Refresh()
      requires Valid()
      modifies this
      ensures Valid() && fresh(ring) && ring.nodeSet == node.state.nodes.Keys
    {
      hide IsRing;
      var r := new HashRing(virtualNodes, hash, shardHash);
      var left := node.state.nodes.Keys;
      while left != {}
        invariant r.Valid() && fresh(r) && left <= node.state.nodes.Keys && r.nodeSet == node.state.nodes.Keys - left
        invariant r.hash == hash && r.shardHash == shardHash && r.virtualNodes == virtualNodes
        invariant node.state == old(node.state)
        modifies r
        decreases left
      {
        var id :| id in left;
        r.AddNode(id);
        left := left - {id};
      }
      ring := r;
    }

    /** What the ring asks for. */
    function Desired(shard: nat): seq<string>
      reads this, ring
    {
      Owners(ring.points, shardHash(shard), replicationFactor)
    }

    ghost predicate Balanced(s: State)
      reads this, ring
    {
      forall shard :: 0 <= shard < numShards ==> BalancedShard(s, shard, Desired(shard))
    }

    /**
     Completed, every shard is balanced, from whatever state; on a state that
     is already balanced nothing is proposed.
     */
    method Rebalance() returns (ok: bool)
      requires Valid()
      modifies node
      ensures ok ==> Balanced(node.state)
      ensures node.state.nodes == old(node.state.nodes)
      ensures forall shard: nat :: shard >= numShards ==> SameShard(old(node.state), node.state, shard)
      ensures Balanced(old(node.state)) ==> ok && node.state == old(node.state) && node.log == old(node.log)
    {
      hide BalancedShard, Owners, IsRing, SameShard, OnlyShard;
      var current := node.state;
      forall k: nat ensures SameShard(current, current, k) { SameItself(current, k); }
      for shard := 0 to numShards
        invariant node.state.nodes == current.nodes
        invariant forall k :: 0 <= k < shard ==> BalancedShard(node.state, k, Desired(k))
        invariant forall k: nat :: k >= shard ==> SameShard(current, node.state, k)
        invariant Balanced(current) ==> node.state == current && node.log == old(node.log)
      {
        var desired := ring.OwnersOf(shard, replicationFactor);
        if desired == None {
          NoOwners(shardHash(shard), replicationFactor);
          NothingDesired(node.state, shard);
          continue;
        }
        if |desired.value| == 0 {
          NothingDesired(node.state, shard);
          continue;
        }
        ghost var before := node.state;
        assert desired.value == Desired(shard);
        assert Balanced(current) ==> BalancedShard(current, shard, desired.value);
        ok := FixShard(node, current, shard, desired.value);
        OtherShards(current, before, node.state, shard);
        forall k | 0 <= k < shard ensures BalancedShard(node.state, k, Desired(k)) {
          SameBalance(before, node.state, shard, k, Desired(k));
        }
        if !ok { return; }
      }
      return true;
    }

    /** Removes a node; if its servers cannot be removed the node is put back and nothing is rebalanced. */
    method Leave(id: string, serverRemoved: bool) returns (ok: bool)
      requires Valid()
      modifies this, node
      ensures Valid()
      ensures ok ==> Balanced(node.state) && node.state.nodes == old(node.state.nodes) - {id} && ring.nodeSet == node.state.nodes.Keys
      ensures ok && node.state.nodes != map[] ==>
        forall shard :: 0 <= shard < numShards ==> LeaderOf(node.state, shard) != id && id !in ReplicasOf(node.state, shard)
    {
      hide BalancedShard, Owners, IsRing;
      var existed := id in node.state.nodes;
      var oldAddr := if existed then node.state.nodes[id] else "";
      ok := node.Propose(RemoveNode(id));
      if !ok { return; }
      if !serverRemoved {
        if existed {
          var _ := node.Propose(AddNode(id, oldAddr));
        }
        return false;
      }
      Refresh();
      ok := Rebalance();
      if ok && node.state.nodes != map[] {
        forall shard | 0 <= shard < numShards
          ensures LeaderOf(node.state, shard) != id && id !in ReplicasOf(node.state, shard)
        {
          OwnersAre(ring.points, ring.nodeSet, hash, virtualNodes, shardHash(shard), replicationFactor);
          NonEmptySize(ring.nodeSet, node.state.nodes);
          OwnedByDesired(node.state, shard, Desired(shard), id);
        }
      }
    }

    /** Adds a node and rebalances; the ring then covers exactly the known nodes. */
    method Join(id: string, addr: string, voterAdded: bool) returns (ok: bool)
      requires Valid()
      modifies this, node
      ensures Valid()
      ensures ok ==> Balanced(node.state) && node.state.nodes == old(node.state.nodes)[id := addr] && ring.nodeSet == node.state.nodes.Keys
    {
      hide BalancedShard, Owners, IsRing;
      if !voterAdded { return false; }
      ok := node.Propose(AddNode(id, addr));
      if !ok { return; }
      Refresh();
      ok := Rebalance();
    }

    /**
     Promotes a replica in place of a dead leader: the one that has applied
     most among those that answer, or the first listed if none does.
     */
    method Failover(shard: nat, dead: string, progress: Option<string -> Option<nat>>) returns (ok: bool)
      modifies node
      ensures OnlyShard(old(node.state), node.state, shard) && ReplicasOf(node.state, shard) == old(ReplicasOf(node.state, shard))
      ensures old(LeaderOf(node.state, shard)) != dead ==> ok && node.state == old(node.state) && node.log == old(node.log)
      ensures old(LeaderOf(node.state, shard)) == dead && ok && "" !in ReplicasOf(node.state, shard) ==>
        Successor(ReplicasOf(node.state, shard), dead, progress, LeaderOf(node.state, shard))
      ensures !ok ==> node.state == old(node.state)
    {
      var state := node.state;
      if LeaderOf(state, shard) != dead {
        return true;
      }
      var best := PickSuccessor(ReplicasOf(state, shard), dead, progress);
      if best == "" {
        return false;
      }
      ok := node.Propose(SetShardLeader(shard, best));
    }
  }

  /** A join moves a shard only onto the node that joined. */
  lemma JoinMovesLittle(s: State, t: State, shard: nat, ps: seq<Point>, qs: seq<Point>, nodes: set<string>, node: string, hash: PointHash, v: nat, h: nat, n: nat)
    requires IsRing(ps, nodes, hash, v) && IsRing(qs, nodes + {node}, hash, v) && Separate(nodes, hash, v)
    requires node !in nodes && nodes != {} && n > 0
    requires BalancedShard(s, shard, Owners(ps, h, n)) && BalancedShard(t, shard, Owners(qs, h, n))
    ensures LeaderOf(t, shard) == LeaderOf(s, shard) || LeaderOf(t, shard) == node
    ensures forall x :: x in ReplicasOf(t, shard) ==> x == node || x == LeaderOf(s, shard) || x in ReplicasOf(s, shard)
  {
    hide IsRing, Separate, Walk, LeaderOf, ReplicasOf;
    OwnersAre(ps, nodes, hash, v, h, n);
    OwnersAre(qs, nodes + {node}, hash, v, h, n);
    var at := AddMovesOne(ps, qs, nodes, node, hash, v, h);
    var _ := AddIsMinimal(ps, qs, nodes, node, hash, v, h, n);
    var before, after := Owners(ps, h, n), Owners(qs, h, n);
    assert after[0] == if at == 0 then node else before[0];
    forall x | x in ReplicasOf(t, shard) ensures x == node || x == LeaderOf(s, shard) || x in ReplicasOf(s, shard) {
      assert x in after[1..];
      assert x in after;
      assert x in before ==> x == before[0] || x in before[1..];
    }
  }

  lemma NoOwners(h: nat, n: nat)
    ensures Owners([], h, n) == []
  {
  }

  lemma NothingDesired(s: State, shard: nat)
    ensures BalancedShard(s, shard, [])
  {
  }

  lemma SameItself(s: State, shard: nat)
    ensures SameShard(s, s, shard)
  {
  }

  lemma OtherShards(s: State, t: State, u: State, shard: nat)
    requires OnlyShard(t, u, shard)
    ensures t.nodes == u.nodes
    ensures forall k: nat :: k > shard && SameShard(s, t, k) ==> SameShard(s, u, k)
  {
    forall k: nat | k > shard && SameShard(s, t, k) ensures SameShard(s, u, k) {
      assert SameShard(t, u, k);
    }
  }

  lemma SameBalance(s: State, t: State, fixed: nat, shard: nat, desired: seq<string>)
    requires OnlyShard(s, t, fixed) && shard != fixed && BalancedShard(s, shard, desired)
    ensures BalancedShard(t, shard, desired)
  {
    assert SameShard(s, t, shard);
  }

  lemma NonEmptySize(s: set<string>, nodes: map<string, string>)
    requires s == nodes.Keys && nodes != map[]
    ensures |s| > 0
  {
    assert s == {} ==> nodes == map[];
  }

  lemma OwnedByDesired(s: State, shard: nat, desired: seq<string>, id: string)
    requires BalancedShard(s, shard, desired) && desired != [] && id !in desired
    ensures LeaderOf(s, shard) != id && id !in ReplicasOf(s, shard)
  {
    assert forall x :: x in desired[1..] ==> x in desired;
  }

  /** A replica other than the dead one, and no answering replica has applied more. */
  ghost predicate Successor(replicas: seq<string>, dead: string, progress: Option<string -> Option<nat>>, best: string) {
    && best in replicas && best != dead
    && (progress.Some? ==>
         forall x :: x in replicas && x != dead && progress.value(x).Some? ==>
           progress.value(best).Some? && progress.value(x).value <= progress.value(best).value)
  }

  /** The empty id stands for no replica, so it is not one. */
  method PickSuccessor(replicas: seq<string>, dead: string, progress: Option<string -> Option<nat>>) returns (best: string)
    ensures "" !in replicas && best != "" ==> Successor(replicas, dead, progress, best)
    ensures "" !in replicas && best == "" ==> forall x :: x in replicas ==> x == dead
  {
    var bestSeq, bestKnown := 0, false;
    best := "";
    for i := 0 to |replicas|
      invariant "" !in replicas ==>
        && (bestKnown ==> progress.Some? && best != "" && progress.value(best) == Some(bestSeq))
        && (best != "" ==> best in replicas && best != dead)
        && (best == "" ==> forall x :: x in replicas[..i] ==> x == dead)
        && (progress.Some? ==> forall x :: x in replicas[..i] && x != dead && progress.value(x).Some? ==>
              bestKnown && progress.value(x).value <= bestSeq)
    {
      assert replicas[..i + 1] == replicas[..i] + [replicas[i]];
      if replicas[i] == dead { continue; }
      if best == "" {
        best := replicas[i];
      }
      if progress == None { return; }
      var n := progress.value(replicas[i]);
      if n.Some? && (!bestKnown || n.value > bestSeq) {
        best, bestSeq, bestKnown := replicas[i], n.value, true;
      }
    }
    assert replicas[..|replicas|] == replicas;
  }
}
