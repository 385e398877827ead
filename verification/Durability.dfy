/**
 Crash safety of the engine: group commits, a snapshot that writes its files
 while commits go on, log rotation by byte offset, failed writes, and crashes
 between any two of these steps, followed by startup recovery.

 The disk holds the index snapshot with its sequence number, the metadata file
 and the log. Bytes a failed write left behind are kept apart (loose): they
 were never fsynced, so after a crash any prefix of them may be there. A rename
 is atomic and the renames of one snapshot happen in order.
 */
module Durability {
  import opened Bytes
  import opened Wal
  import opened Log

  datatype Disk = Disk(snapSeq: nat, snapLive: map<Id, Vec>, meta: map<Id, Blob>, wal: seq<byte>)

  /** What a snapshot captured under the lock: state, sequence number and log offset. */
  datatype Capture = Capture(seqno: nat, live: map<Id, Vec>, meta: map<Id, Blob>, offset: nat)

  datatype Phase = Idle | Captured(c: Capture) | MetaWritten(c: Capture) | GraphWritten(c: Capture)

  /**
   acked is the history: every record acknowledged so far (and those a recovery
   adopted). inflight is the batch of a failed write. base and metaAt say which
   point of the history the log starts at and the metadata file reflects.
   */
  datatype State = State(
    disk: Disk, loose: seq<byte>,
    mem: Mem, seqno: nat, nextSeq: nat, failed: bool, phase: Phase,
    acked: seq<Record>, inflight: seq<Record>, base: nat, metaAt: nat)

  datatype Event =
    | CommitOk(items: seq<Record>)
    | CommitFail(items: seq<Record>, landed: nat)
    | TakeCapture
    | WriteMeta
    | WriteGraph
    | Rotate
    | AbortSnapshot
    | Crash(survive: nat)

  // ---- Startup ----

  datatype Opened = Refused | Opened(mem: Mem, seqno: nat, validBytes: nat)

  /** The replay callback: records the snapshot covers are skipped, the rest must follow on. */
  function Newer(snapSeq: nat, lastSeq: nat, rs: seq<Record>): Option<seq<Record>>
    decreases |rs|
  {
    if rs == [] then Some([])
    else if rs[0].seqno <= snapSeq then Newer(snapSeq, lastSeq, rs[1..])
    else if rs[0].seqno != lastSeq + 1 then None
    else match Newer(snapSeq, rs[0].seqno, rs[1..])
      case None => None
      case Some(more) => Some([rs[0]] + more)
  }

  ghost function OpenDb(disk: Disk, file: seq<byte>): Opened {
    match Scan(file, 0)
    case Recovered(rs, n) =>
      (match Newer(disk.snapSeq, disk.snapSeq, rs)
       case None => Refused
       case Some(newer) => Opened(Replay(disk.snapLive, disk.meta, newer), LastSeq(disk.snapSeq, newer), n))
    case _ => Refused
  }

  /** Startup as code: recover the log, walk it past the snapshot, replay the rest. */
  method Open(disk: Disk, file: seq<byte>) returns (r: Opened)
    ensures r == OpenDb(disk, file)
  {
    hide Scan, Replay;
    var log := Recover(file);
    if !log.Recovered? { return Refused; }
    var lastSeq: nat, newer: seq<Record>, rs := disk.snapSeq, [], log.records;
    assert rs[0..] == rs;
    assert forall more: seq<Record> :: [] + more == more;
    for i := 0 to |rs|
      invariant Newer(disk.snapSeq, disk.snapSeq, rs) == After(newer, Newer(disk.snapSeq, lastSeq, rs[i..]))
      invariant lastSeq == LastSeq(disk.snapSeq, newer)
    {
      assert rs[i..][1..] == rs[i + 1..];
      if rs[i].seqno <= disk.snapSeq { continue; }
      if rs[i].seqno != lastSeq + 1 { return Refused; }
      assert forall more: seq<Record> :: newer + ([rs[i]] + more) == newer + [rs[i]] + more;
      newer, lastSeq := newer + [rs[i]], rs[i].seqno;
    }
    assert newer + [] == newer;
    var e := new Engine(disk.snapLive, disk.meta, disk.snapSeq);
    e.ReplayAll(newer);
    return Opened(Mem(e.live, e.metadata), lastSeq, log.validBytes);
  }

  function After(front: seq<Record>, rest: Option<seq<Record>>): Option<seq<Record>> {
    match rest
    case None => None
    case Some(more) => Some(front + more)
  }

  /** The first record past the snapshot does not follow on from it. */
  ghost predicate GapAt(snapSeq: nat, rs: seq<Record>, i: nat) {
    i < |rs| && rs[i].seqno > snapSeq + 1 && forall j :: 0 <= j < i ==> rs[j].seqno <= snapSeq
  }

  /** The first k records are covered by the snapshot, the others follow on from it one by one. */
  ghost predicate SplitAt(snapSeq: nat, rs: seq<Record>, k: nat) {
    && k <= |rs| && (forall j :: 0 <= j < k ==> rs[j].seqno <= snapSeq)
    && forall j :: k <= j < |rs| ==> rs[j].seqno == snapSeq + 1 + j - k
  }

  lemma {:induction false} NewerOfRest(snapSeq: nat, last: nat, rs: seq<Record>)
    requires Chain(last, rs) && last > snapSeq
    ensures Newer(snapSeq, last, rs) == Some(rs) && forall j :: 0 <= j < |rs| ==> rs[j].seqno == last + 1 + j
    decreases |rs|
  {
    if rs != [] {
      NewerOfRest(snapSeq, rs[0].seqno, rs[1..]);
      assert [rs[0]] + rs[1..] == rs;
    }
  }

  lemma {:induction false} NewerOfChain(snapSeq: nat, last: nat, rs: seq<Record>) returns (k: nat)
    requires Chain(last, rs)
    ensures Newer(snapSeq, snapSeq, rs) == None ==> GapAt(snapSeq, rs, k)
    ensures Newer(snapSeq, snapSeq, rs).Some? ==> SplitAt(snapSeq, rs, k) && Newer(snapSeq, snapSeq, rs).value == rs[k..]
    decreases |rs|
  {
    if rs == [] {
      k := 0;
    } else if rs[0].seqno <= snapSeq {
      var i := NewerOfChain(snapSeq, rs[0].seqno, rs[1..]);
      k := i + 1;
      assert forall j :: 1 <= j < |rs| ==> rs[j] == rs[1..][j - 1];
    } else {
      k := 0;
      NewerOfRest(snapSeq, rs[0].seqno, rs[1..]);
      assert [rs[0]] + rs[1..] == rs && rs[0..] == rs;
      assert forall j :: 1 <= j < |rs| ==> rs[j] == rs[1..][j - 1];
    }
  }

  /**
   Startup refuses exactly when the log cannot be recovered, or when the first
   record past the snapshot is not the one right after it. Otherwise it replays
   that record and all after it over the snapshot, and no other.
   */
  lemma OpenOutcome(disk: Disk, file: seq<byte>) returns (k: nat)
    ensures OpenDb(disk, file).Refused? <==>
              !Scan(file, 0).Recovered? || exists i: nat :: GapAt(disk.snapSeq, Scan(file, 0).records, i)
    ensures OpenDb(disk, file).Opened? ==>
              var Recovered(rs, n) := Scan(file, 0);
              && SplitAt(disk.snapSeq, rs, k)
              && OpenDb(disk, file) == Opened(Replay(disk.snapLive, disk.meta, rs[k..]), disk.snapSeq + |rs| - k, n)
  {
    hide Scan, Replay, EncodeAll, AllFit, Newer;
    k := 0;
    if Scan(file, 0).Recovered? {
      RecoverNeverDropsAFrame(file, 0);
      k := NewerOfChain(disk.snapSeq, 0, Scan(file, 0).records);
      SplitHasNoGap(disk.snapSeq, Scan(file, 0).records, k);
    }
  }

  lemma SplitHasNoGap(snapSeq: nat, rs: seq<Record>, k: nat)
    requires k <= |rs|
    ensures SplitAt(snapSeq, rs, k) ==> forall i: nat :: !GapAt(snapSeq, rs, i)
  {
    if SplitAt(snapSeq, rs, k) {
      forall i: nat ensures !GapAt(snapSeq, rs, i) {
        if k < i && k < |rs| { assert rs[k].seqno == snapSeq + 1; }
      }
    }
  }

  // ---- Whole frames inside a partly written batch ----

  function WholeFrames(rs: seq<Record>, bytes: nat): (k: nat)
    ensures k <= |rs|
  {
    if rs == [] || bytes < |EncodeRecord(rs[0])| then 0
    else 1 + WholeFrames(rs[1..], bytes - |EncodeRecord(rs[0])|)
  }

  // ---- Steps ----

  ghost predicate Enabled(s: State, e: Event) {
    match e
    case CommitOk(items) => !s.failed && items != [] && s.nextSeq + |items| <= U64
    case CommitFail(items, _) => !s.failed && items != [] && s.nextSeq + |items| <= U64
    case TakeCapture => s.phase.Idle? && !s.failed
    case WriteMeta => s.phase.Captured?
    case WriteGraph => s.phase.MetaWritten?
    case Rotate => s.phase.GraphWritten? && s.phase.c.offset <= |s.disk.wal|
                   && Scan((s.disk.wal + s.loose)[s.phase.c.offset..], 0).Recovered?
    case AbortSnapshot => !s.phase.Idle?
    case Crash(survive) => survive <= |s.loose| && OpenDb(s.disk, s.disk.wal + s.loose[..survive]).Opened?
  }

  ghost function Do(s: State, e: Event): State
    requires Enabled(s, e)
  {
    match e
    case CommitOk(items) =>
      var rs := Stamp(items, s.nextSeq);
      s.(disk := s.disk.(wal := s.disk.wal + EncodeAll(rs)), mem := Commit(s.mem, rs),
         seqno := rs[|rs| - 1].seqno, nextSeq := s.nextSeq + |rs|, acked := s.acked + rs)
    case CommitFail(items, landed) =>
      var rs := Stamp(items, s.nextSeq);
      s.(loose := Landed(IoError(landed), EncodeAll(rs)), failed := true, inflight := rs)
    case TakeCapture =>
      s.(phase := Captured(Capture(s.seqno, s.mem.live, s.mem.meta, |s.disk.wal|)))
    case WriteMeta =>
      s.(phase := MetaWritten(s.phase.c), disk := s.disk.(meta := s.phase.c.meta), metaAt := s.phase.c.seqno)
    case WriteGraph =>
      s.(phase := GraphWritten(s.phase.c),
         disk := s.disk.(snapSeq := s.phase.c.seqno, snapLive := s.phase.c.live))
    case Rotate =>
      var tail := (s.disk.wal + s.loose)[s.phase.c.offset..];
      RecoverNeverDropsAFrame(tail, 0);
      s.(phase := Idle, disk := s.disk.(wal := tail[..Scan(tail, 0).validBytes]), loose := [],
         nextSeq := s.seqno + 1, failed := false, inflight := [], base := s.phase.c.seqno)
    case AbortSnapshot =>
      s.(phase := Idle)
    case Crash(survive) =>
      var file := s.disk.wal + s.loose[..survive];
      RecoverNeverDropsAFrame(file, 0);
      var Opened(mem, seqno, n) := OpenDb(s.disk, file);
      s.(disk := s.disk.(wal := file[..n]), loose := [], mem := mem, seqno := seqno, nextSeq := seqno + 1,
         failed := false, phase := Idle,
         acked := s.acked + s.inflight[..WholeFrames(s.inflight, survive)], inflight := [])
  }

  /**
   What the code does not check: that records are within the size bound its
   reader enforces, and that a rotation keeps no whole frame of a failed write.
   CommittedReadsBackIff and RotationAfterFailedWrite show what each costs.
   */
  ghost predicate Careful(s: State, e: Event) {
    match e
    case CommitOk(items) => AllFit(items)
    case CommitFail(items, _) => AllFit(items)
    case Rotate => WholeFrames(s.inflight, |s.loose|) == 0
    case _ => true
  }

  // ---- The invariant ----

  ghost predicate Numbered(rs: seq<Record>, first: nat) {
    AllFit(rs) && forall i :: 0 <= i < |rs| ==> rs[i].seqno == first + i
  }

  ghost function At(h: seq<Record>, n: nat): Db
    requires n <= |h|
  {
    Fold(map[], h[..n])
  }

  ghost predicate CaptureOk(s: State, c: Capture)
    requires s.base <= |s.acked|
  {
    && s.base <= s.disk.snapSeq <= s.metaAt <= c.seqno <= |s.acked|
    && c.live == LiveOf(At(s.acked, c.seqno)) && c.meta == MetaOf(At(s.acked, c.seqno))
    && c.offset == |EncodeAll(s.acked[s.base..c.seqno])|
  }

  ghost predicate Inv(s: State) {
    && Numbered(s.acked, 1) && s.seqno == |s.acked|
    && Tidy(s.mem) && Abs(s.mem) == At(s.acked, |s.acked|)
    && s.base <= s.disk.snapSeq <= s.metaAt <= |s.acked|
    && s.disk.wal == EncodeAll(s.acked[s.base..])
    && s.disk.snapLive == LiveOf(At(s.acked, s.disk.snapSeq))
    && s.disk.meta == MetaOf(At(s.acked, s.metaAt))
    && Numbered(s.inflight, |s.acked| + 1)
    && |s.loose| <= |EncodeAll(s.inflight)| && s.loose == EncodeAll(s.inflight)[..|s.loose|]
    && (!s.failed ==> s.nextSeq == |s.acked| + 1 && s.loose == [] && s.inflight == [])
    && (match s.phase
        case Idle => true
        case Captured(c) => CaptureOk(s, c)
        case MetaWritten(c) => CaptureOk(s, c) && s.metaAt == c.seqno
        case GraphWritten(c) => CaptureOk(s, c) && s.disk.snapSeq == c.seqno)
  }

  ghost function Empty(): State {
    State(Disk(0, map[], map[], []), [], Mem(map[], map[]), 0, 1, false, Idle, [], [], 0, 0)
  }

  lemma InitialInv()
    ensures Inv(Empty())
  {
  }

  // ---- Recovery of a crashed log file ----

  lemma {:induction false} NumberedChain(rs: seq<Record>, first: nat, lastSeq: nat)
    requires Numbered(rs, first) && (lastSeq == 0 || lastSeq + 1 == first)
    ensures Chain(lastSeq, rs)
    decreases |rs|
  {
    if rs != [] {
      NumberedChain(rs[1..], first + 1, rs[0].seqno);
    }
  }

  lemma {:induction false} WholeFramesBound(rs: seq<Record>, n: nat)
    ensures var k := WholeFrames(rs, n);
            && |EncodeAll(rs[..k])| <= n
            && (k < |rs| ==> n < |EncodeAll(rs[..k])| + |EncodeRecord(rs[k])|)
    decreases |rs|
  {
    hide EncodeRecord;
    var k := WholeFrames(rs, n);
    if k == 0 {
      assert rs[..0] == [];
    } else {
      WholeFramesBound(rs[1..], n - |EncodeRecord(rs[0])|);
      assert rs[..k][1..] == rs[1..][..k - 1];
    }
  }

  /** The bytes past the last whole frame of a batch of which n bytes landed. */
  function Torn(rs: seq<Record>, n: nat): seq<byte> {
    var k := WholeFrames(rs, n);
    if k < |rs| then
      WholeFramesBound(rs, n);
      EncodeRecord(rs[k])[..n - |EncodeAll(rs[..k])|]
    else []
  }

  lemma PrefixOfBatch(rs: seq<Record>, n: nat)
    requires n <= |EncodeAll(rs)|
    ensures EncodeAll(rs)[..n] == EncodeAll(rs[..WholeFrames(rs, n)]) + Torn(rs, n)
  {
    hide EncodeRecord, EncodeAll, WholeFrames;
    var k := WholeFrames(rs, n);
    WholeFramesBound(rs, n);
    if k == |rs| {
      assert rs[..k] == rs;
    } else {
      EncodeAllAppend(rs[..k], rs[k..]);
      assert rs[..k] + rs[k..] == rs;
      EncodeAllHead(rs[k..]);
    }
  }

  lemma ScanCrashed(rs: seq<Record>, first: nat, inflight: seq<Record>, n: nat)
    requires 1 <= first && Numbered(rs, first) && Numbered(inflight, first + |rs|)
    requires n <= |EncodeAll(inflight)|
    ensures var all := rs + inflight[..WholeFrames(inflight, n)]; var torn := Torn(inflight, n);
            Scan(EncodeAll(rs) + EncodeAll(inflight)[..n], 0) ==
            if torn != [] && ValidFrameAfter(torn, LastSeq(0, all)) then CorruptMidLog
            else Recovered(all, |EncodeAll(all)|)
  {
    hide EncodeRecord, ReadFrame, ValidFrameAfter, Scan, EncodeAll, Chain, WholeFrames;
    var k := WholeFrames(inflight, n);
    var all := rs + inflight[..k];
    PrefixOfBatch(inflight, n);
    EncodeAllAppend(rs, inflight[..k]);
    NumberedChain(all, first, 0);
    Assoc(EncodeAll(rs), EncodeAll(inflight[..k]), Torn(inflight, n));
    if k < |inflight| {
      WholeFramesBound(inflight, n);
      RecoverTornLog(all, 0, inflight[k], n - |EncodeAll(inflight[..k])|);
    } else {
      ScanAll(all);
      assert EncodeAll(all) + [] == EncodeAll(all);
    }
  }

  lemma ScanAll(rs: seq<Record>)
    requires AllFit(rs) && Chain(0, rs)
    ensures Scan(EncodeAll(rs), 0) == Recovered(rs, |EncodeAll(rs)|)
  {
    hide EncodeRecord, ReadFrame, ValidFrameAfter, EncodeAll;
    ScanWholeFrames(rs, 0, []);
    ReadEmpty();
    assert EncodeAll(rs) + [] == EncodeAll(rs) && rs + [] == rs;
  }

  lemma {:induction false} NewerIsSuffix(rs: seq<Record>, first: nat, snapSeq: nat)
    requires Numbered(rs, first) && first <= snapSeq + 1 <= first + |rs|
    ensures Newer(snapSeq, snapSeq, rs) == Some(rs[snapSeq + 1 - first..])
    decreases |rs|
  {
    if rs != [] {
      if rs[0].seqno <= snapSeq {
        NewerIsSuffix(rs[1..], first + 1, snapSeq);
      } else {
        NewerIsAll(rs, first, snapSeq);
        assert rs[0..] == rs;
      }
    }
  }

  lemma {:induction false} NewerIsAll(rs: seq<Record>, first: nat, snapSeq: nat)
    requires Numbered(rs, first) && snapSeq < first
    ensures Newer(snapSeq, first - 1, rs) == Some(rs)
    decreases |rs|
  {
    if rs != [] {
      NewerIsAll(rs[1..], first + 1, snapSeq);
      assert [rs[0]] + rs[1..] == rs;
    }
  }

  /** What startup replays, given the history h that the surviving log completes. */
  lemma ReplayFromSnapshot(h: seq<Record>, snapSeq: nat, metaAt: nat)
    requires snapSeq <= metaAt <= |h|
    ensures var m := Replay(LiveOf(At(h, snapSeq)), MetaOf(At(h, metaAt)), h[snapSeq..]);
            Tidy(m) && Abs(m) == Fold(map[], h)
  {
    hide Replay, Tidy, Abs, LiveOf, MetaOf, Fold;
    var db := At(h, snapSeq);
    var rs := h[snapSeq..];
    ReplayIsFold(db, rs, metaAt - snapSeq);
    FoldAppend(map[], h[..snapSeq], rs);
    assert h[..snapSeq] + rs == h;
    FoldAppend(map[], h[..snapSeq], rs[..metaAt - snapSeq]);
    assert h[..snapSeq] + rs[..metaAt - snapSeq] == h[..metaAt];
  }

  /** The history a startup adopts when survive bytes of a failed write are still there. */
  ghost function Adopted(s: State, survive: nat): seq<Record> {
    s.acked + s.inflight[..WholeFrames(s.inflight, survive)]
  }

  /** The torn bytes, read as log content, hold a valid frame newer than the history, or are too many to be searched. */
  ghost predicate HidesAFrame(s: State, survive: nat)
    requires s.base <= |s.acked|
  {
    var torn := Torn(s.inflight, survive);
    torn != [] && ValidFrameAfter(torn, LastSeq(0, Adopted(s, survive)[s.base..]))
  }

  /** Startup gave exactly the database of history h and kept the log from base on. */
  ghost predicate OpenedAt(r: Opened, h: seq<Record>, base: nat, file: seq<byte>) {
    && r.Opened? && Tidy(r.mem) && Abs(r.mem) == Fold(map[], h) && r.seqno == |h|
    && base <= |h| && r.validBytes <= |file| && file[..r.validBytes] == EncodeAll(h[base..])
  }

  lemma OpenFromScan(disk: Disk, file: seq<byte>, h: seq<Record>, base: nat, metaAt: nat)
    requires Numbered(h, 1) && base <= disk.snapSeq <= metaAt <= |h|
    requires disk.snapLive == LiveOf(At(h, disk.snapSeq)) && disk.meta == MetaOf(At(h, metaAt))
    requires Scan(file, 0).Recovered? && Scan(file, 0).records == h[base..]
    ensures OpenDb(disk, file).Opened? && OpenedAt(OpenDb(disk, file), h, base, file)
  {
    hide EncodeRecord, ValidFrameAfter, Scan, EncodeAll, Fold, Tidy, Abs, Replay, LiveOf, MetaOf, Newer;
    NewerIsSuffix(h[base..], base + 1, disk.snapSeq);
    assert h[base..][disk.snapSeq - base..] == h[disk.snapSeq..];
    ReplayFromSnapshot(h, disk.snapSeq, metaAt);
    RecoverNeverDropsAFrame(file, 0);
  }

  /**
   Crash recovery refines the log. Whatever the engine was doing, startup
   yields the fold of every acknowledged record followed by a prefix of the
   write in flight. It refuses exactly when the torn bytes themselves contain a
   newer valid frame or are too many to be searched for one, and then it leaves
   the files alone.
   */
  lemma RecoveryRefinesTheLog(s: State, survive: nat)
    requires Inv(s) && survive <= |s.loose|
    ensures var file := s.disk.wal + s.loose[..survive];
            var r := OpenDb(s.disk, file);
            && (r.Refused? <==> HidesAFrame(s, survive))
            && (!r.Refused? ==> OpenedAt(r, Adopted(s, survive), s.base, file))
  {
    hide EncodeRecord, ValidFrameAfter, Scan, EncodeAll, Fold, Tidy, Abs, Replay, LiveOf, MetaOf, Torn, WholeFrames, Newer, OpenedAt;
    var h := Adopted(s, survive);
    var rs := s.acked[s.base..];
    assert s.loose[..survive] == EncodeAll(s.inflight)[..survive];
    ScanCrashed(rs, s.base + 1, s.inflight, survive);
    assert h[s.base..] == rs + s.inflight[..WholeFrames(s.inflight, survive)];
    if !HidesAFrame(s, survive) {
      assert h[..s.disk.snapSeq] == s.acked[..s.disk.snapSeq] && h[..s.metaAt] == s.acked[..s.metaAt];
      OpenFromScan(s.disk, s.disk.wal + s.loose[..survive], h, s.base, s.metaAt);
    }
  }

  // ---- Every step keeps the invariant ----

  lemma NumberedStamp(items: seq<Record>, first: nat)
    requires AllFit(items) && first + |items| <= U64
    ensures Numbered(Stamp(items, first), first)
  {
  }

  lemma CommitStep(s: State, items: seq<Record>)
    requires Inv(s) && Enabled(s, CommitOk(items)) && AllFit(items)
    ensures Inv(Do(s, CommitOk(items)))
  {
    hide EncodeRecord, EncodeAll, Fold, Tidy, Abs, Commit, LiveOf, MetaOf, Scan, Stamp;
    var rs := Stamp(items, s.nextSeq);
    var h := s.acked + rs;
    NumberedStamp(items, s.nextSeq);
    CommitIsFold(s.mem, rs);
    FoldAppend(map[], s.acked, rs);
    assert s.acked[..|s.acked|] == s.acked && h[..|h|] == h;
    EncodeAllAppend(s.acked[s.base..], rs);
    assert h[s.base..] == s.acked[s.base..] + rs;
    KeepsPrefixes(s, h);
  }

  /** Facts about earlier points of the history survive its growth. */
  lemma KeepsPrefixes(s: State, h: seq<Record>)
    requires s.acked <= h
    ensures forall n: nat :: n <= |s.acked| ==> h[..n] == s.acked[..n]
    ensures forall a: nat, b: nat :: a <= b <= |s.acked| ==> h[a..b] == s.acked[a..b]
  {
  }

  lemma CommitFailStep(s: State, items: seq<Record>, landed: nat)
    requires Inv(s) && Enabled(s, CommitFail(items, landed)) && AllFit(items)
    ensures Inv(Do(s, CommitFail(items, landed)))
  {
    hide EncodeRecord, EncodeAll, Fold, Tidy, Abs, LiveOf, MetaOf, Scan, Stamp;
    NumberedStamp(items, s.nextSeq);
  }

  lemma SnapshotStep(s: State, e: Event)
    requires Inv(s) && Enabled(s, e)
    requires e.TakeCapture? || e.WriteMeta? || e.WriteGraph? || e.AbortSnapshot?
    ensures Inv(Do(s, e))
  {
    hide EncodeRecord, EncodeAll, Fold, Tidy, Abs, LiveOf, MetaOf, Scan;
    AbsInjective(s.mem);
    assert s.acked[s.base..|s.acked|] == s.acked[s.base..];
  }

  lemma RotateStep(s: State)
    requires Inv(s) && Enabled(s, Rotate) && Careful(s, Rotate)
    ensures Inv(Do(s, Rotate))
  {
    hide EncodeRecord, EncodeAll, Fold, Tidy, Abs, LiveOf, MetaOf, Scan, ValidFrameAfter, Torn, WholeFrames;
    var c := s.phase.c;
    RotatedTail(s);
    ScanCrashed(s.acked[c.seqno..], c.seqno + 1, s.inflight, |s.loose|);
    assert s.acked[c.seqno..] + s.inflight[..0] == s.acked[c.seqno..];
    RecoverNeverDropsAFrame((s.disk.wal + s.loose)[c.offset..], 0);
    assert s.inflight[..0] == [];
    EncodeNone(s.inflight);
  }

  /** Cutting the log at the captured offset leaves the records after the snapshot and the loose bytes. */
  lemma RotatedTail(s: State)
    requires Inv(s) && s.phase.GraphWritten?
    ensures s.phase.c.offset <= |s.disk.wal|
    ensures (s.disk.wal + s.loose)[s.phase.c.offset..] ==
            EncodeAll(s.acked[s.phase.c.seqno..]) + EncodeAll(s.inflight)[..|s.loose|]
  {
    hide EncodeRecord, EncodeAll, Fold, Tidy, Abs, LiveOf, MetaOf, Scan;
    var c := s.phase.c;
    EncodeAllAppend(s.acked[s.base..c.seqno], s.acked[c.seqno..]);
    assert s.acked[s.base..c.seqno] + s.acked[c.seqno..] == s.acked[s.base..];
  }

  lemma CrashStep(s: State, survive: nat)
    requires Inv(s) && Enabled(s, Crash(survive))
    ensures Inv(Do(s, Crash(survive)))
  {
    hide EncodeRecord, EncodeAll, Fold, Tidy, Abs, LiveOf, MetaOf, Scan, WholeFrames, HidesAFrame;
    RecoveryRefinesTheLog(s, survive);
    var h := Adopted(s, survive);
    KeepsPrefixes(s, h);
    assert h[..|h|] == h;
    EncodeNone(s.inflight);
    assert s.inflight[..0] == [];
  }

  lemma InvFacts(s: State)
    requires Inv(s)
    ensures Abs(s.mem) == Fold(map[], s.acked) && s.base <= |s.acked|
  {
    assert s.acked[..|s.acked|] == s.acked;
  }

  lemma StepKeepsInv(s: State, e: Event)
    requires Inv(s) && Enabled(s, e) && Careful(s, e)
    ensures Inv(Do(s, e))
    ensures s.acked <= Do(s, e).acked
  {
    hide Inv, EncodeRecord, EncodeAll, Commit, Scan, OpenDb, Stamp, WholeFrames;
    match e {
      case CommitOk(items) => CommitStep(s, items);
      case CommitFail(items, landed) => CommitFailStep(s, items, landed);
      case Rotate => RotateStep(s);
      case Crash(survive) => CrashStep(s, survive);
      case _ => SnapshotStep(s, e);
    }
  }

  // ---- Whole runs ----

  ghost predicate CarefulRun(s: State, es: seq<Event>)
    decreases |es|
  {
    es == [] || (Enabled(s, es[0]) && Careful(s, es[0]) && CarefulRun(Do(s, es[0]), es[1..]))
  }

  ghost function StateAfter(s: State, es: seq<Event>): State
    requires CarefulRun(s, es)
    decreases |es|
  {
    if es == [] then s else StateAfter(Do(s, es[0]), es[1..])
  }

  lemma {:induction false} RunKeepsInv(s: State, es: seq<Event>)
    requires Inv(s) && CarefulRun(s, es)
    ensures Inv(StateAfter(s, es)) && s.acked <= StateAfter(s, es).acked
    decreases |es|
  {
    hide Inv, Enabled, Do;
    if es != [] {
      StepKeepsInv(s, es[0]);
      RunKeepsInv(Do(s, es[0]), es[1..]);
    }
  }

  /**
   The durability theorem. After any run of commits, failed writes, snapshots,
   rotations, crashes and recoveries, a record acknowledged at any earlier point
   of the run is in the history, memory is the fold of that history, and one
   more crash recovers the fold of the history plus a prefix of the write in
   flight, unless the torn bytes hide a frame.
   */
  lemma AcknowledgedRecordsSurvive(before: seq<Event>, items: seq<Record>, later: seq<Event>, survive: nat)
    requires CarefulRun(Empty(), before)
    requires Enabled(StateAfter(Empty(), before), CommitOk(items)) && AllFit(items)
    requires CarefulRun(Do(StateAfter(Empty(), before), CommitOk(items)), later)
    requires survive <= |StateAfter(Do(StateAfter(Empty(), before), CommitOk(items)), later).loose|
    ensures var s0 := StateAfter(Empty(), before);
            var s := StateAfter(Do(s0, CommitOk(items)), later);
            var file := s.disk.wal + s.loose[..survive];
            && s0.acked + Stamp(items, s0.nextSeq) <= s.acked
            && Abs(s.mem) == Fold(map[], s.acked)
            && s.base <= |s.acked|
            && (HidesAFrame(s, survive) || OpenedAt(OpenDb(s.disk, file), Adopted(s, survive), s.base, file))
  {
    hide HidesAFrame, OpenedAt, Fold, Abs, OpenDb, Inv, StateAfter, CarefulRun, Adopted, EncodeAll, Commit, Enabled;
    var s0 := StateAfter(Empty(), before);
    InitialInv();
    RunKeepsInv(Empty(), before);
    StepKeepsInv(s0, CommitOk(items));
    RunKeepsInv(Do(s0, CommitOk(items)), later);
    var s := StateAfter(Do(s0, CommitOk(items)), later);
    InvFacts(s);
    RecoveryRefinesTheLog(s, survive);
  }

  // ---- Where the code falls short: records past the reader's bound ----

  /** Recovery of the log as it stands delivers exactly the history's records from base on. */
  ghost predicate ReadsBack(s: State)
    requires s.base <= |s.acked|
  {
    Scan(s.disk.wal, 0).Recovered? && Scan(s.disk.wal, 0).records == s.acked[s.base..]
  }

  /**
   The log accepts a record of any size. An acknowledged batch reads back at the
   next startup if and only if every record of it is within the reader's bound,
   and then startup gives the database with the batch in it. Otherwise startup
   refuses the log, as long as the lengths fit their field at all.
   */
  lemma CommittedReadsBackIff(s: State, items: seq<Record>)
    requires Inv(s) && Enabled(s, CommitOk(items))
    ensures var t := Do(s, CommitOk(items));
            && t.base <= |t.acked| && (ReadsBack(t) <==> AllFit(items))
            && (ReadsBack(t) ==> OpenedAt(OpenDb(t.disk, t.disk.wal), t.acked, t.base, t.disk.wal))
            && (!AllFit(items) && AllCountable(items) ==> OpenDb(t.disk, t.disk.wal) == Refused)
  {
    hide EncodeRecord, EncodeAll, Fold, Tidy, Abs, Commit, LiveOf, MetaOf, Scan, Stamp, OpenedAt, ValidFrameAfter;
    var t := Do(s, CommitOk(items));
    var rs := Stamp(items, s.nextSeq);
    if AllFit(items) {
      CommitStep(s, items);
      NumberedChain(t.acked[t.base..], t.base + 1, 0);
      ScanAll(t.acked[t.base..]);
      OpenFromScan(t.disk, t.disk.wal, t.acked, t.base, t.metaAt);
    }
    if !AllFit(items) && AllCountable(items) {
      OversizedBatch(s.acked[s.base..], s.base + 1, items, s.nextSeq);
      EncodeAllAppend(s.acked[s.base..], rs);
    }
    if ReadsBack(t) {
      RecoverNeverDropsAFrame(t.disk.wal, 0);
      assert t.acked[t.base..] == s.acked[s.base..] + rs;
      StampFits(items, s.nextSeq, s.acked[s.base..]);
    }
  }

  ghost predicate AllCountable(rs: seq<Record>) {
    forall i :: 0 <= i < |rs| ==> Countable(rs[i])
  }

  lemma OversizedBatch(rs: seq<Record>, first: nat, items: seq<Record>, next: nat)
    requires 1 <= first && Numbered(rs, first) && next == first + |rs| && next + |items| <= U64
    requires !AllFit(items) && AllCountable(items)
    ensures Scan(EncodeAll(rs + Stamp(items, next)), 0) == CorruptMidLog
  {
    hide EncodeAll, Scan, Chain;
    var i := FirstOversized(items);
    var all := rs + Stamp(items, next);
    var n := |rs| + i;
    assert Numbered(all[..n], first) by {
      forall j | 0 <= j < n ensures Fits(all[..n][j]) && all[..n][j].seqno == first + j {
        if j >= |rs| { assert Fits(items[j - |rs|]); }
      }
    }
    NumberedChain(all[..n], first, 0);
    OversizedLogIsCorrupt(all, n);
  }

  lemma FirstOversized(items: seq<Record>) returns (i: nat)
    requires !AllFit(items)
    ensures i < |items| && !Fits(items[i]) && forall j :: 0 <= j < i ==> Fits(items[j])
  {
    i := 0;
    while Fits(items[i])
      invariant i < |items| && (forall j :: 0 <= j < i ==> Fits(items[j])) && exists j :: i <= j < |items| && !Fits(items[j])
      decreases |items| - i
    {
      i := i + 1;
    }
  }

  lemma StampFits(items: seq<Record>, first: nat, before: seq<Record>)
    requires first + |items| <= U64 && AllFit(before + Stamp(items, first))
    ensures AllFit(items)
  {
    var all := before + Stamp(items, first);
    forall i | 0 <= i < |items| ensures Fits(items[i]) {
      assert Fits(all[|before| + i]);
    }
  }

  // ---- Where the code falls short: rotating over a failed write ----

  lemma RotatedLog(s: State)
    requires Inv(s) && Enabled(s, Rotate)
    ensures Do(s, Rotate).disk.wal ==
            EncodeAll(s.acked[s.phase.c.seqno..] + s.inflight[..WholeFrames(s.inflight, |s.loose|)])
  {
    hide EncodeRecord, EncodeAll, Fold, Tidy, Abs, LiveOf, MetaOf, Scan, ValidFrameAfter, Torn, WholeFrames;
    var c := s.phase.c;
    RotatedTail(s);
    ScanCrashed(s.acked[c.seqno..], c.seqno + 1, s.inflight, |s.loose|);
    RecoverNeverDropsAFrame((s.disk.wal + s.loose)[c.offset..], 0);
  }

  /** A log whose numbering restarts below its last record is refused. */
  lemma ScanRestart(all: seq<Record>, first: nat, more: seq<Record>)
    requires 1 <= first && Numbered(all, first) && all != [] && AllFit(more) && more != []
    requires more[0].seqno != first + |all|
    ensures Scan(EncodeAll(all) + EncodeAll(more), 0) == InvalidSequence
  {
    hide EncodeRecord, ReadFrame, ValidFrameAfter, Chain;
    NumberedChain(all, first, 0);
    ScanWholeFrames(all, 0, EncodeAll(more));
    FrameRoundTrip(more[0], EncodeAll(more[1..]));
  }

  /**
   A snapshot may be under way when a write fails. Its rotation copies the log
   tail, whole unacknowledged frames included, and starts a new writer numbered
   after the last acknowledged record. The next acknowledged commit can be read
   back at startup if and only if the failed write left no whole frame.
   */
  lemma RotationAfterFailedWrite(s: State, items: seq<Record>)
    requires Inv(s) && Enabled(s, Rotate) && Enabled(Do(s, Rotate), CommitOk(items)) && AllFit(items)
    ensures var s2 := Do(Do(s, Rotate), CommitOk(items));
            OpenDb(s2.disk, s2.disk.wal).Opened? <==> WholeFrames(s.inflight, |s.loose|) == 0
  {
    hide EncodeRecord, EncodeAll, Fold, Tidy, Abs, LiveOf, MetaOf, Scan, ValidFrameAfter, Torn, Commit, Stamp;
    var s1 := Do(s, Rotate);
    var s2 := Do(s1, CommitOk(items));
    var k := WholeFrames(s.inflight, |s.loose|);
    if k == 0 {
      StepKeepsInv(s, Rotate);
      StepKeepsInv(s1, CommitOk(items));
      RecoveryRefinesTheLog(s2, 0);
      assert s2.disk.wal + s2.loose[..0] == s2.disk.wal;
      assert Torn([], 0) == [] by { TornOfNothing(); }
    } else {
      RotatedLog(s);
      NumberedStamp(items, s1.nextSeq);
      ScanRestart(s.acked[s.phase.c.seqno..] + s.inflight[..k], s.phase.c.seqno + 1, Stamp(items, s1.nextSeq));
    }
  }

  lemma TornOfNothing()
    ensures Torn([], 0) == []
  {
  }

  ghost function PoisonRun(r: Record): seq<Event> {
    [TakeCapture, WriteMeta, WriteGraph, CommitFail([r], |EncodeRecord(r)|)]
  }

  lemma PoisonRunState(r: Record)
    requires Fits(r)
    ensures CarefulRun(Empty(), PoisonRun(r))
    ensures var s := StateAfter(Empty(), PoisonRun(r)); var r1 := r.(seqno := 1);
            && s.inflight == [r1] && s.loose == EncodeRecord(r1) && s.disk.wal == []
            && s.phase == GraphWritten(Capture(0, map[], map[], 0))
  {
    hide EncodeRecord, Scan, Fold;
    var es := PoisonRun(r);
    var s1 := Do(Empty(), TakeCapture);
    var s2 := Do(s1, WriteMeta);
    var s3 := Do(s2, WriteGraph);
    var s4 := Do(s3, es[3]);
    var r1 := r.(seqno := 1);
    assert Stamp([r], 1) == [r1];
    assert EncodeAll([r1]) == EncodeRecord(r1) + EncodeAll([]);
    assert es[3..] == [es[3]] && es[3..][1..] == [];
    assert CarefulRun(s3, es[3..]) && StateAfter(s3, es[3..]) == s4;
    assert es[2..][1..] == es[3..];
    assert CarefulRun(s2, es[2..]) && StateAfter(s2, es[2..]) == s4;
    assert es[1..][1..] == es[2..];
    assert CarefulRun(s1, es[1..]) && StateAfter(s1, es[1..]) == s4;
  }

  /** The situation is reachable: an empty database, a snapshot, and a one-record write whose fsync fails. */
  lemma FailedWriteCanLeaveAFrame(r: Record)
    requires Fits(r)
    ensures CarefulRun(Empty(), PoisonRun(r))
    ensures var s := StateAfter(Empty(), PoisonRun(r));
            Inv(s) && Enabled(s, Rotate) && WholeFrames(s.inflight, |s.loose|) == 1
  {
    hide EncodeRecord, Scan, Fold, CarefulRun, StateAfter, PoisonRun, Inv;
    PoisonRunState(r);
    InitialInv();
    RunKeepsInv(Empty(), PoisonRun(r));
    var s := StateAfter(Empty(), PoisonRun(r));
    var r1 := r.(seqno := 1);
    NumberedChain([r1], 1, 0);
    ScanAll([r1]);
    assert EncodeAll([r1]) == EncodeRecord(r1) + EncodeAll([]);
    assert (s.disk.wal + s.loose)[0..] == EncodeAll([r1]);
    assert WholeFrames([r1][1..], 0) == 0;
  }
}
