/**
 Installing a received snapshot replaces three files (index snapshot, metadata,
 log) at once. A marker file says which of them existed before; removing it is
 the commit point. The disk operations below are the ones the code issues, in
 its order; a crash may come between any two, also during recovery itself.
 */
module Install {
  import opened Bytes
  import opened Common

  type Content = seq<byte>

  /** One of the three files: the live path, its backup and the incoming copy. */
  datatype Slot = Slot(live: Option<Content>, backup: Option<Content>, incoming: Option<Content>)

  /** marker[i] says whether file i existed when the install began. */
  datatype Disk = Disk(files: seq<Slot>, marker: Option<seq<bool>>)

  ghost predicate Three(d: Disk) {
    |d.files| == 3 && (d.marker.Some? ==> |d.marker.value| == 3)
  }

  datatype DiskOp =
    | RemoveLive(i: nat) | RemoveBackup(i: nat) | RemoveIncoming(i: nat)
    | LiveToBackup(i: nat) | IncomingToLive(i: nat) | BackupToLive(i: nat)
    | WriteMarker(original: seq<bool>) | RemoveMarker

  function Touch(d: Disk, i: nat, f: Slot): Disk {
    if i < |d.files| then d.(files := d.files[i := f]) else d
  }

  function File(d: Disk, i: nat): Slot {
    if i < |d.files| then d.files[i] else Slot(None, None, None)
  }

  function Exec(d: Disk, op: DiskOp): Disk {
    match op
    case RemoveLive(i) => Touch(d, i, File(d, i).(live := None))
    case RemoveBackup(i) => Touch(d, i, File(d, i).(backup := None))
    case RemoveIncoming(i) => Touch(d, i, File(d, i).(incoming := None))
    case LiveToBackup(i) => Touch(d, i, File(d, i).(live := None, backup := File(d, i).live))
    case IncomingToLive(i) => Touch(d, i, File(d, i).(incoming := None, live := File(d, i).incoming))
    case BackupToLive(i) => Touch(d, i, File(d, i).(backup := None, live := File(d, i).backup))
    case WriteMarker(m) => d.(marker := Some(m))
    case RemoveMarker => d.(marker := None)
  }

  function ExecAll(d: Disk, ops: seq<DiskOp>): Disk
    decreases |ops|
  {
    if ops == [] then d else ExecAll(Exec(d, ops[0]), ops[1..])
  }

  // ---- The programs ----

  function Existing(d: Disk): (m: seq<bool>)
    ensures |m| == |d.files|
  {
    seq(|d.files|, i requires 0 <= i < |d.files| => d.files[i].live.Some?)
  }

  /** beginSnapshotInstall. */
  function Begin(d: Disk): seq<DiskOp> {
    [RemoveBackup(0), RemoveBackup(1), RemoveBackup(2), WriteMarker(Existing(d))]
  }

  /** Moving file i aside and the incoming one into place. */
  function Swap(original: bool, i: nat): seq<DiskOp> {
    if original then [LiveToBackup(i), IncomingToLive(i)] else [IncomingToLive(i)]
  }

  function BeforeCommit(d: Disk): seq<DiskOp>
    requires |d.files| == 3
  {
    Begin(d) + Swap(d.files[0].live.Some?, 0) + Swap(d.files[1].live.Some?, 1) + Swap(d.files[2].live.Some?, 2)
  }

  function Cleanup(): seq<DiskOp> {
    [RemoveBackup(0), RemoveBackup(1), RemoveBackup(2)]
  }

  function InstallProgram(d: Disk): seq<DiskOp>
    requires |d.files| == 3
  {
    BeforeCommit(d) + [RemoveMarker] + Cleanup()
  }

  function Restore(f: Slot, original: bool, i: nat): seq<DiskOp> {
    (if original then (if f.backup.Some? then [RemoveLive(i), BackupToLive(i)] else [])
     else [RemoveLive(i), RemoveBackup(i)])
    + [RemoveIncoming(i)]
  }

  function Tidy(i: nat): seq<DiskOp> {
    [RemoveBackup(i), RemoveIncoming(i)]
  }

  /** recoverSnapshotInstall: roll back under a marker, tidy up without one. */
  function RecoverProgram(d: Disk): seq<DiskOp>
    requires Three(d)
  {
    match d.marker
    case None => Tidy(0) + Tidy(1) + Tidy(2)
    case Some(m) =>
      Restore(d.files[0], m[0], 0) + Restore(d.files[1], m[1], 1) + Restore(d.files[2], m[2], 2) + [RemoveMarker]
  }

  // ---- What a disk will roll back to ----

  function Lives(d: Disk): seq<Option<Content>> {
    seq(|d.files|, i requires 0 <= i < |d.files| => d.files[i].live)
  }

  function Incomings(d: Disk): seq<Option<Content>> {
    seq(|d.files|, i requires 0 <= i < |d.files| => d.files[i].incoming)
  }

  function RolledBack(f: Slot, original: bool): Option<Content> {
    if !original then None else if f.backup.Some? then f.backup else f.live
  }

  ghost predicate RollsBackTo(d: Disk, prior: seq<Option<Content>>) {
    && Three(d) && |prior| == 3
    && match d.marker
       case None => forall i :: 0 <= i < 3 ==> d.files[i].live == prior[i]
       case Some(m) => forall i :: 0 <= i < 3 ==> RolledBack(d.files[i], m[i]) == prior[i]
  }

  /** An operation that cannot change what the disk rolls back to. */
  ghost predicate Harmless(d: Disk, op: DiskOp)
    requires Three(d)
  {
    match d.marker
    case None =>
      (match op
       case RemoveBackup(_) => true
       case RemoveIncoming(_) => true
       case WriteMarker(m) => m == Existing(d) && forall i :: 0 <= i < 3 ==> d.files[i].backup == None
       case _ => false)
    case Some(m) =>
      (match op
       case RemoveIncoming(_) => true
       case RemoveLive(i) => i < 3 && (m[i] ==> d.files[i].backup.Some?)
       case RemoveBackup(i) => i < 3 && !m[i]
       case LiveToBackup(i) => i < 3 && m[i] && d.files[i].live.Some? && d.files[i].backup == None
       case BackupToLive(i) => i < 3 && m[i] && d.files[i].backup.Some?
       case IncomingToLive(i) => i < 3 && (m[i] ==> d.files[i].backup.Some?)
       case RemoveMarker => forall i :: 0 <= i < 3 ==> RolledBack(d.files[i], m[i]) == d.files[i].live
       case WriteMarker(_) => false)
  }

  lemma HarmlessKeepsRollback(d: Disk, op: DiskOp, prior: seq<Option<Content>>)
    requires RollsBackTo(d, prior) && Harmless(d, op)
    ensures RollsBackTo(Exec(d, op), prior)
  {
  }

  ghost predicate AllHarmless(d: Disk, ops: seq<DiskOp>)
    decreases |ops|
  {
    ops == [] || (Three(d) && Harmless(d, ops[0]) && AllHarmless(Exec(d, ops[0]), ops[1..]))
  }

  lemma {:induction false} ExecAppend(d: Disk, a: seq<DiskOp>, b: seq<DiskOp>)
    ensures ExecAll(d, a + b) == ExecAll(ExecAll(d, a), b)
    ensures AllHarmless(d, a + b) <==> AllHarmless(d, a) && AllHarmless(ExecAll(d, a), b)
    decreases |a|
  {
    hide Exec, Harmless;
    if a == [] {
      assert a + b == b;
    } else {
      ExecAppend(Exec(d, a[0]), a[1..], b);
      assert (a + b)[1..] == a[1..] + b;
    }
  }

  /** However far a harmless program got, the disk still rolls back to the same files. */
  lemma {:induction false} PrefixRollsBack(d: Disk, ops: seq<DiskOp>, n: nat, prior: seq<Option<Content>>)
    requires RollsBackTo(d, prior) && AllHarmless(d, ops) && n <= |ops|
    ensures RollsBackTo(ExecAll(d, ops[..n]), prior)
    decreases n
  {
    hide Exec, Harmless, RollsBackTo;
    if n > 0 {
      HarmlessKeepsRollback(d, ops[0], prior);
      PrefixRollsBack(Exec(d, ops[0]), ops[1..], n - 1, prior);
      assert ops[..n][1..] == ops[1..][..n - 1];
    }
  }

  // ---- The install up to its commit point is harmless, and ends with the new files ----

  lemma BeginIsHarmless(d: Disk)
    requires Three(d) && d.marker == None
    ensures AllHarmless(d, Begin(d))
    ensures var e := ExecAll(d, Begin(d));
            && Three(e) && e.marker == Some(Existing(d))
            && forall i :: 0 <= i < 3 ==> e.files[i] == d.files[i].(backup := None)
  {
    var d1 := Exec(d, RemoveBackup(0));
    var d2 := Exec(d1, RemoveBackup(1));
    var d3 := Exec(d2, RemoveBackup(2));
    assert Existing(d3) == Existing(d);
    var d4 := Exec(d3, WriteMarker(Existing(d)));
    var ops := Begin(d);
    assert ops[1..][1..][1..] == [WriteMarker(Existing(d))];
    assert AllHarmless(d4, ops[1..][1..][1..][1..]);
    assert AllHarmless(d3, ops[1..][1..][1..]) && ExecAll(d3, ops[1..][1..][1..]) == d4;
    assert AllHarmless(d2, ops[1..][1..]) && ExecAll(d2, ops[1..][1..]) == d4;
    assert AllHarmless(d1, ops[1..]) && ExecAll(d1, ops[1..]) == d4;
  }

  lemma SwapIsHarmless(d: Disk, i: nat)
    requires Three(d) && i < 3 && d.marker.Some?
    requires d.files[i].backup == None && d.marker.value[i] == d.files[i].live.Some?
    ensures AllHarmless(d, Swap(d.marker.value[i], i))
    ensures var e := ExecAll(d, Swap(d.marker.value[i], i));
            && Three(e) && e.marker == d.marker && e.files[i].live == d.files[i].incoming && e.files[i].incoming == None
            && e.files == d.files[i := e.files[i]]
  {
    hide ExecAll, AllHarmless;
    if d.marker.value[i] {
      OneStep(d, LiveToBackup(i));
      OneStep(Exec(d, LiveToBackup(i)), IncomingToLive(i));
      ExecAppend(d, [LiveToBackup(i)], [IncomingToLive(i)]);
      assert Swap(true, i) == [LiveToBackup(i)] + [IncomingToLive(i)];
    } else {
      OneStep(d, IncomingToLive(i));
    }
  }

  lemma BeforeCommitIsHarmless(d: Disk)
    requires Three(d) && d.marker == None
    ensures AllHarmless(d, BeforeCommit(d))
    ensures var e := ExecAll(d, BeforeCommit(d));
            Three(e) && Lives(e) == Incomings(d) && forall i :: 0 <= i < 3 ==> e.files[i].incoming == None
  {
    hide ExecAll, AllHarmless, Begin, Swap;
    BeginIsHarmless(d);
    var m := Existing(d);
    var e0 := ExecAll(d, Begin(d));
    SwapIsHarmless(e0, 0);
    var e1 := ExecAll(e0, Swap(m[0], 0));
    SwapIsHarmless(e1, 1);
    var e2 := ExecAll(e1, Swap(m[1], 1));
    SwapIsHarmless(e2, 2);
    ExecAppend(d, Begin(d), Swap(m[0], 0));
    ExecAppend(d, Begin(d) + Swap(m[0], 0), Swap(m[1], 1));
    ExecAppend(d, Begin(d) + Swap(m[0], 0) + Swap(m[1], 1), Swap(m[2], 2));
  }

  // ---- Recovery is harmless too, and finishes clean ----

  ghost predicate Clean(d: Disk) {
    Three(d) && d.marker == None && forall i :: 0 <= i < 3 ==> d.files[i].backup == None && d.files[i].incoming == None
  }

  lemma RestoreIsHarmless(d: Disk, i: nat)
    requires Three(d) && i < 3 && d.marker.Some?
    ensures var m := d.marker.value; var ops := Restore(d.files[i], m[i], i); var e := ExecAll(d, ops);
            && AllHarmless(d, ops) && Three(e) && e.marker == d.marker
            && e.files == d.files[i := Slot(RolledBack(d.files[i], m[i]), None, None)]
  {
    var ops := Restore(d.files[i], d.marker.value[i], i);
    if d.marker.value[i] && d.files[i].backup == None {
      assert ops == [RemoveIncoming(i)] && ops[1..] == [];
      assert AllHarmless(Exec(d, ops[0]), ops[1..]);
    } else {
      var d1 := Exec(d, ops[0]);
      var d2 := Exec(d1, ops[1]);
      var d3 := Exec(d2, ops[2]);
      assert ops[1..][1..] == [RemoveIncoming(i)] && ops[1..][1..][1..] == [];
      assert AllHarmless(d3, ops[1..][1..][1..]);
      assert AllHarmless(d2, ops[1..][1..]) && ExecAll(d2, ops[1..][1..]) == d3;
      assert AllHarmless(d1, ops[1..]) && ExecAll(d1, ops[1..]) == d3;
    }
  }

  lemma TidyIsHarmless(d: Disk, ops: seq<DiskOp>)
    requires Three(d) && d.marker == None
    requires forall k :: 0 <= k < |ops| ==> ops[k].RemoveBackup? || ops[k].RemoveIncoming?
    ensures AllHarmless(d, ops)
    decreases |ops|
  {
    if ops != [] { TidyIsHarmless(Exec(d, ops[0]), ops[1..]); }
  }

  lemma RecoverIsHarmless(d: Disk)
    requires Three(d)
    ensures AllHarmless(d, RecoverProgram(d)) && Clean(ExecAll(d, RecoverProgram(d)))
  {
    match d.marker {
      case None =>
        TidyIsHarmless(d, RecoverProgram(d));
        TidyCleans(d);
      case Some(m) => RollbackIsHarmless(d);
    }
  }

  lemma TidyCleans(d: Disk)
    requires Three(d) && d.marker == None
    ensures Clean(ExecAll(d, RecoverProgram(d)))
  {
    hide ExecAll, Tidy;
    ExecAppend(d, Tidy(0), Tidy(1));
    ExecAppend(d, Tidy(0) + Tidy(1), Tidy(2));
    TidyOne(d, 0);
    TidyOne(ExecAll(d, Tidy(0)), 1);
    TidyOne(ExecAll(d, Tidy(0) + Tidy(1)), 2);
  }

  lemma TidyOne(d: Disk, i: nat)
    requires Three(d) && i < 3
    ensures ExecAll(d, Tidy(i)) ==
            d.(files := d.files[i := Slot(d.files[i].live, None, None)])
  {
    var ops := Tidy(i);
    assert ops[1..] == [RemoveIncoming(i)] && ops[1..][1..] == [];
    var d1 := Exec(d, ops[0]);
    assert ExecAll(d1, ops[1..]) == Exec(d1, ops[1]);
  }

  lemma RollbackIsHarmless(d: Disk)
    requires Three(d) && d.marker.Some?
    ensures AllHarmless(d, RecoverProgram(d)) && Clean(ExecAll(d, RecoverProgram(d)))
  {
    hide ExecAll, AllHarmless, Restore;
    var m := d.marker.value;
    var p0, p1, p2 := Restore(d.files[0], m[0], 0), Restore(d.files[1], m[1], 1), Restore(d.files[2], m[2], 2);
    RestoreIsHarmless(d, 0);
    var e0 := ExecAll(d, p0);
    RestoreIsHarmless(e0, 1);
    var e1 := ExecAll(e0, p1);
    RestoreIsHarmless(e1, 2);
    var e2 := ExecAll(e1, p2);
    ExecAppend(d, p0, p1);
    ExecAppend(d, p0 + p1, p2);
    ExecAppend(d, p0 + p1 + p2, [RemoveMarker]);
    OneStep(e2, RemoveMarker);
  }

  lemma OneStep(d: Disk, op: DiskOp)
    requires Three(d)
    ensures ExecAll(d, [op]) == Exec(d, op)
    ensures AllHarmless(d, [op]) <==> Harmless(d, op)
  {
    assert [op][1..] == [];
    assert AllHarmless(Exec(d, op), []);
    assert ExecAll(Exec(d, op), []) == Exec(d, op);
  }

  // ---- All or nothing ----

  ghost function Target(d: Disk): seq<Option<Content>>
    requires Three(d)
    ensures RollsBackTo(d, Target(d))
  {
    match d.marker
    case None => [d.files[0].live, d.files[1].live, d.files[2].live]
    case Some(m) => [RolledBack(d.files[0], m[0]), RolledBack(d.files[1], m[1]), RolledBack(d.files[2], m[2])]
  }

  lemma RecoveryPrefix(d: Disk, n: nat)
    requires Three(d) && n <= |RecoverProgram(d)|
    ensures RollsBackTo(ExecAll(d, RecoverProgram(d)[..n]), Target(d))
  {
    hide ExecAll, AllHarmless, RecoverProgram;
    RecoverIsHarmless(d);
    PrefixRollsBack(d, RecoverProgram(d), n, Target(d));
  }

  /** Recovery attempts that each crash after js[k] operations. */
  ghost function Interrupted(d: Disk, js: seq<nat>): Disk
    requires Three(d)
    decreases |js|
  {
    if js == [] then d
    else
      var n := Min(js[0], |RecoverProgram(d)|);
      RecoveryPrefix(d, n);
      Interrupted(ExecAll(d, RecoverProgram(d)[..n]), js[1..])
  }

  lemma {:induction false} InterruptedRollsBack(d: Disk, js: seq<nat>, prior: seq<Option<Content>>)
    requires RollsBackTo(d, prior)
    ensures RollsBackTo(Interrupted(d, js), prior)
    decreases |js|
  {
    hide ExecAll, AllHarmless, RecoverProgram;
    if js != [] {
      var ops := RecoverProgram(d);
      var n := Min(js[0], |ops|);
      RecoverIsHarmless(d);
      PrefixRollsBack(d, ops, n, prior);
      InterruptedRollsBack(ExecAll(d, ops[..n]), js[1..], prior);
    }
  }

  /** The disk after a crash at operation n of the install rolls back to the old files, or after the commit point keeps the new ones. */
  lemma CrashedInstall(d: Disk, n: nat)
    requires Three(d) && d.marker == None && n <= |InstallProgram(d)|
    ensures RollsBackTo(ExecAll(d, InstallProgram(d)[..n]),
                        if n <= |BeforeCommit(d)| then Lives(d) else Incomings(d))
  {
    hide ExecAll, AllHarmless, BeforeCommit;
    var p := BeforeCommit(d);
    BeforeCommitIsHarmless(d);
    if n <= |p| {
      assert InstallProgram(d)[..n] == p[..n];
      PrefixRollsBack(d, p, n, Lives(d));
    } else {
      var rest := n - |p| - 1;
      assert InstallProgram(d)[..n] == p + [RemoveMarker] + Cleanup()[..rest];
      ExecAppend(d, p, [RemoveMarker]);
      ExecAppend(d, p + [RemoveMarker], Cleanup()[..rest]);
      OneStep(ExecAll(d, p), RemoveMarker);
      var e := ExecAll(d, p + [RemoveMarker]);
      assert RollsBackTo(e, Incomings(d));
      TidyIsHarmless(e, Cleanup());
      PrefixRollsBack(e, Cleanup(), rest, Incomings(d));
    }
  }

  /** Left alone, the install puts the incoming files in place and leaves nothing over. */
  lemma InstallFinishes(d: Disk)
    requires Three(d) && d.marker == None
    ensures var e := ExecAll(d, InstallProgram(d)); Clean(e) && Lives(e) == Incomings(d)
  {
    hide AllHarmless, BeforeCommit, ExecAll;
    var p := BeforeCommit(d);
    BeforeCommitIsHarmless(d);
    ExecAppend(d, p, [RemoveMarker]);
    ExecAppend(d, p + [RemoveMarker], Cleanup());
    OneStep(ExecAll(d, p), RemoveMarker);
    BackupsGo(ExecAll(d, p + [RemoveMarker]));
  }

  lemma BackupsGo(d: Disk)
    requires Three(d) && d.marker == None && forall i :: 0 <= i < 3 ==> d.files[i].incoming == None
    ensures var e := ExecAll(d, Cleanup()); Clean(e) && Lives(e) == Lives(d)
  {
    var d1 := Exec(d, RemoveBackup(0));
    var d2 := Exec(d1, RemoveBackup(1));
    var ops := Cleanup();
    assert ops[1..][1..][1..] == [];
    assert ExecAll(d2, ops[1..][1..]) == Exec(d2, RemoveBackup(2));
    assert ExecAll(d1, ops[1..]) == ExecAll(d2, ops[1..][1..]);
  }

  /**
   Crash the install after any number of operations, crash any number of
   recoveries at any points, then let one recovery finish: the three files are
   all the old ones or all the new ones, decided only by whether the marker had
   been removed, and nothing is left over.
   */
  lemma InstallIsAllOrNothing(d: Disk, n: nat, js: seq<nat>)
    requires Three(d) && d.marker == None && n <= |InstallProgram(d)|
    ensures Three(ExecAll(d, InstallProgram(d)[..n]))
    ensures var crashed := Interrupted(ExecAll(d, InstallProgram(d)[..n]), js);
            && Three(crashed)
            && var final := ExecAll(crashed, RecoverProgram(crashed));
               && Clean(final)
               && Lives(final) == if n <= |BeforeCommit(d)| then Lives(d) else Incomings(d)
  {
    hide ExecAll, AllHarmless, BeforeCommit, RecoverProgram, Interrupted, InstallProgram;
    var target := if n <= |BeforeCommit(d)| then Lives(d) else Incomings(d);
    CrashedInstall(d, n);
    var c0 := ExecAll(d, InstallProgram(d)[..n]);
    InterruptedRollsBack(c0, js, target);
    var crashed := Interrupted(c0, js);
    var ops := RecoverProgram(crashed);
    RecoverIsHarmless(crashed);
    PrefixRollsBack(crashed, ops, |ops|, target);
    assert ops[..|ops|] == ops;
  }
}
