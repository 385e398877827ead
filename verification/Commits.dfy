/**
 Group commit on top of the durable log: the callers of one running engine, and
 the disk under it. A group's commit is the log's commit of its records, in
 queue order.
 */
module Commits {
  import opened Bytes
  import opened Wal
  import opened Log
  import G = GroupCommit
  import D = Durability

  /** at[i] is the number of records the log held before group i was committed. */
  datatype State = State(g: G.State, d: D.State, at: seq<nat>)

  /** A group is logged, fails to be, or finds a writer that has failed before. */
  datatype Step =
    | Caller(call: G.Step)
    | Logged(p: G.Op)
    | NotLogged(p: G.Op, landed: nat)
    | Rejected(p: G.Op)
    | Disk(event: D.Event)

  function Batch(recOf: G.Op -> Record, ops: seq<G.Op>): seq<Record> {
    seq(|ops|, i requires 0 <= i < |ops| => recOf(ops[i]))
  }

  ghost function CommitOf(s: State, p: G.Op, recOf: G.Op -> Record): seq<Record> {
    if G.PcOf(s.g, p).HasGroup? then Batch(recOf, G.PcOf(s.g, p).group) else []
  }

  /** The log's part of a step; crashes end the engine and so the run. */
  ghost function Event(recOf: G.Op -> Record, s: State, e: Step): Option<D.Event> {
    match e
    case Logged(p) => Some(D.CommitOk(CommitOf(s, p, recOf)))
    case NotLogged(p, landed) => Some(D.CommitFail(CommitOf(s, p, recOf), landed))
    case Disk(event) => Some(event)
    case _ => None
  }

  ghost predicate Enabled(recOf: G.Op -> Record, s: State, e: Step) {
    && (Event(recOf, s, e).Some? ==>
          D.Enabled(s.d, Event(recOf, s, e).value) && D.Careful(s.d, Event(recOf, s, e).value))
    && match e
       case Caller(call) => !call.Commit? && G.Enabled(s.g, call)
       case Logged(p) => G.Enabled(s.g, G.Commit(p, true))
       case NotLogged(p, _) => G.Enabled(s.g, G.Commit(p, false))
       case Rejected(p) => G.Enabled(s.g, G.Commit(p, false)) && s.d.failed
       case Disk(event) => !event.Crash?
  }

  ghost function Do(recOf: G.Op -> Record, s: State, e: Step): State
    requires Enabled(recOf, s, e)
  {
    var ev := Event(recOf, s, e);
    var d := if ev.Some? then D.Do(s.d, ev.value) else s.d;
    match e
    case Caller(call) => State(G.Do(s.g, call), d, s.at)
    case Logged(p) => State(G.Do(s.g, G.Commit(p, true)), d, s.at + [|s.d.acked|])
    case NotLogged(p, _) => State(G.Do(s.g, G.Commit(p, false)), d, s.at + [|s.d.acked|])
    case Rejected(p) => State(G.Do(s.g, G.Commit(p, false)), d, s.at + [|s.d.acked|])
    case Disk(_) => State(s.g, d, s.at)
  }

  /** The records of ops stand in the history from position n on, numbered by their place. */
  ghost predicate Stands(recOf: G.Op -> Record, acked: seq<Record>, ops: seq<G.Op>, n: nat) {
    && n + |ops| <= |acked| && n + |ops| < U64
    && forall j :: 0 <= j < |ops| ==> acked[n + j] == recOf(ops[j]).(seqno := n + j + 1)
  }

  ghost predicate GroupsStand(recOf: G.Op -> Record, s: State) {
    && |s.at| == |s.g.groups|
    && forall i :: 0 <= i < |s.at| && s.g.groups[i].ok ==> Stands(recOf, s.d.acked, s.g.groups[i].ops, s.at[i])
  }

  ghost predicate Inv(recOf: G.Op -> Record, s: State) {
    G.Inv(s.g) && D.Inv(s.d) && GroupsStand(recOf, s)
  }

  lemma LaterStands(recOf: G.Op -> Record, acked: seq<Record>, longer: seq<Record>, ops: seq<G.Op>, n: nat)
    requires Stands(recOf, acked, ops, n) && acked <= longer
    ensures Stands(recOf, longer, ops, n)
  {
    forall j | 0 <= j < |ops| ensures longer[n + j] == recOf(ops[j]).(seqno := n + j + 1) {
      assert longer[n + j] == acked[n + j];
    }
  }

  lemma EarlierGroups(recOf: G.Op -> Record, s: State, t: State)
    requires GroupsStand(recOf, s) && s.d.acked <= t.d.acked && |t.at| == |t.g.groups|
    requires s.at <= t.at && s.g.groups <= t.g.groups
    ensures forall i :: 0 <= i < |s.at| && t.g.groups[i].ok ==> Stands(recOf, t.d.acked, t.g.groups[i].ops, t.at[i])
  {
    hide Stands;
    forall i | 0 <= i < |s.at| && t.g.groups[i].ok ensures Stands(recOf, t.d.acked, t.g.groups[i].ops, t.at[i]) {
      LaterStands(recOf, s.d.acked, t.d.acked, s.g.groups[i].ops, s.at[i]);
    }
  }

  lemma CallerGroups(g: G.State, call: G.Step)
    requires G.Enabled(g, call) && !call.Commit?
    ensures G.Do(g, call).groups == g.groups
  {
  }

  lemma CommitGroup(g: G.State, p: G.Op, ok: bool)
    requires G.Enabled(g, G.Commit(p, ok))
    ensures G.PcOf(g, p).HasGroup?
    ensures G.Do(g, G.Commit(p, ok)).groups == g.groups + [G.Group(G.PcOf(g, p).group, ok)]
  {
  }

  /** A logged group stands where the log ended. */
  lemma LoggedStands(recOf: G.Op -> Record, d: D.State, ops: seq<G.Op>)
    requires D.Inv(d) && D.Enabled(d, D.CommitOk(Batch(recOf, ops)))
    ensures Stands(recOf, D.Do(d, D.CommitOk(Batch(recOf, ops))).acked, ops, |d.acked|)
  {
    hide EncodeAll, Commit, Scan, Fold;
  }

  lemma DiskStep(recOf: G.Op -> Record, s: State, e: Step)
    requires Inv(recOf, s) && Enabled(recOf, s, e)
    ensures D.Inv(Do(recOf, s, e).d) && s.d.acked <= Do(recOf, s, e).d.acked
  {
    hide D.Inv, D.Do, D.Enabled, D.Careful, G.Inv, G.Do, G.Enabled;
    if Event(recOf, s, e).Some? { D.StepKeepsInv(s.d, Event(recOf, s, e).value); }
  }

  lemma StepKeepsInv(recOf: G.Op -> Record, s: State, e: Step)
    requires Inv(recOf, s) && Enabled(recOf, s, e)
    ensures Inv(recOf, Do(recOf, s, e)) && s.d.acked <= Do(recOf, s, e).d.acked
  {
    hide D.Inv, D.Do, D.Enabled, D.Careful, G.Inv, G.Do, G.Enabled, Stands, Batch;
    var t := Do(recOf, s, e);
    DiskStep(recOf, s, e);
    match e {
      case Caller(call) =>
        G.StepKeepsInv(s.g, call);
        CallerGroups(s.g, call);
      case Logged(p) =>
        G.StepKeepsInv(s.g, G.Commit(p, true));
        CommitGroup(s.g, p, true);
        LoggedStands(recOf, s.d, G.PcOf(s.g, p).group);
      case NotLogged(p, _) =>
        G.StepKeepsInv(s.g, G.Commit(p, false));
        CommitGroup(s.g, p, false);
      case Rejected(p) =>
        G.StepKeepsInv(s.g, G.Commit(p, false));
        CommitGroup(s.g, p, false);
      case Disk(_) =>
    }
    EarlierGroups(recOf, s, t);
  }

  ghost predicate Run(recOf: G.Op -> Record, s: State, es: seq<Step>)
    decreases |es|
  {
    es == [] || (Enabled(recOf, s, es[0]) && Run(recOf, Do(recOf, s, es[0]), es[1..]))
  }

  ghost function StateAfter(recOf: G.Op -> Record, s: State, es: seq<Step>): State
    requires Run(recOf, s, es)
    decreases |es|
  {
    if es == [] then s else StateAfter(recOf, Do(recOf, s, es[0]), es[1..])
  }

  lemma {:induction false} RunKeepsInv(recOf: G.Op -> Record, s: State, es: seq<Step>)
    requires Inv(recOf, s) && Run(recOf, s, es)
    ensures Inv(recOf, StateAfter(recOf, s, es))
    decreases |es|
  {
    hide Inv, Enabled, Do;
    if es != [] {
      StepKeepsInv(recOf, s, es[0]);
      RunKeepsInv(recOf, Do(recOf, s, es[0]), es[1..]);
    }
  }

  /** An engine just started, on a disk in any state an earlier life may have left. */
  ghost predicate Start(s: State) {
    s.g == G.Initial() && s.at == [] && D.Inv(s.d)
  }

  ghost predicate InHistory(r: Record, acked: seq<Record>) {
    exists i :: 0 <= i < |acked| && i + 1 < U64 && acked[i] == r.(seqno := i + 1)
  }

  /**
   A caller whose call returned success has its record in the durable history,
   numbered by its place there; memory is the fold of that history, so the record
   is applied; and a crash at that moment recovers a database folded from a
   history that still has it, unless the torn bytes of a failed write hide a frame.
   */
  lemma SuccessIsDurable(recOf: G.Op -> Record, s: State, es: seq<Step>, p: G.Op, survive: nat)
    requires Start(s) && Run(recOf, s, es)
    requires G.PcOf(StateAfter(recOf, s, es).g, p) == G.Returned(true)
    requires survive <= |StateAfter(recOf, s, es).d.loose|
    ensures var d := StateAfter(recOf, s, es).d; var h := D.Adopted(d, survive);
            var file := d.disk.wal + d.loose[..survive];
            && InHistory(recOf(p), d.acked) && d.acked <= h && d.base <= |d.acked|
            && Abs(d.mem) == Fold(map[], d.acked)
            && (D.HidesAFrame(d, survive) || D.OpenedAt(D.OpenDb(d.disk, file), h, d.base, file))
  {
    hide Abs, Fold, D.HidesAFrame, D.OpenedAt, D.OpenDb, D.Inv, G.OpOk, G.Shape, G.GroupsOk, D.WholeFrames;
    G.InitialInv();
    RunKeepsInv(recOf, s, es);
    var t := StateAfter(recOf, s, es);
    D.InvFacts(t.d);
    D.RecoveryRefinesTheLog(t.d, survive);
    G.ReturnedInGroup(t.g, p);
    var i := t.g.groupOf[p];
    var j :| 0 <= j < |t.g.groups[i].ops| && t.g.groups[i].ops[j] == p;
    assert Stands(recOf, t.d.acked, t.g.groups[i].ops, t.at[i]);
    assert t.d.acked[t.at[i] + j] == recOf(p).(seqno := t.at[i] + j + 1);
  }
}
