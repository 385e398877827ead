/**
 Log-stream replication from one leader that stays up to one follower. The
 leader writes frames, has them fsynced or fails to, and rotates its log while
 a connection reads the files. A rotated file stays readable through an open
 descriptor but gets no more records. The connection reads record by record,
 acknowledged or not, looks at the path only after a short read, and may be
 dropped at any moment. A follower that cannot be served from the log gets a
 snapshot first.
 */
module Replication {
  import opened Bytes
  import opened Wal
  import opened Log

  /** A log file begun after record number base: its whole frames, and the bytes of a torn one behind them. */
  datatype File = File(base: nat, recs: seq<Record>, torn: nat)

  /** The number a snapshot under way captured, and how many frames the log file held then. */
  datatype Capture = Capture(at: nat, cut: nat)

  /** The position of a running stream; drained means the last read came up short. */
  datatype Stream = Stream(fd: nat, offset: nat, fromSeq: nat, drained: bool)

  datatype Conn =
    | Down
    | Hello(fromSeq: nat, sum: Option<u32>)
    | Wanting
    | SnapshotSent(seqno: nat)
    | Streaming(st: Stream)

  /** A snapshot stands for the records it covers. */
  datatype Msg = Rec(r: Record) | Snap(recs: seq<Record>, mem: Mem)

  /**
   log is what the leader has written, of which the first acked records are
   acknowledged; files are its log files, the last one current. strays are
   frames of failed writes that a rotation has left behind in the log. hist is
   what the follower has applied and wal what its own log still holds of it.
   gap turns true when the running stream has stepped over a record.
   */
  datatype State = State(
    log: seq<Record>, acked: nat, failed: bool, pending: Option<Capture>,
    files: seq<File>, snapSeq: nat, strays: set<Record>,
    conn: Conn, wire: seq<Msg>,
    hist: seq<Record>, fmem: Mem, wal: seq<Record>, gap: bool)

  ghost predicate Numbered(rs: seq<Record>) {
    forall i :: 0 <= i < |rs| ==> rs[i].seqno == i + 1
  }

  ghost function At(log: seq<Record>, n: nat): Db
    requires n <= |log|
  {
    Fold(map[], log[..n])
  }

  function Current(s: State): nat
    requires s.files != []
  {
    |s.files| - 1
  }

  function End(f: File): nat {
    f.base + |f.recs|
  }

  // ---- Steps ----

  datatype Step =
    | Write(r: Record)
    | Ack
    | Fail(torn: nat)
    | TakeCapture
    | Rotate
    | Abort
    | Dial
    | Serve
    | Refuse
    | ServeSnapshot
    | OpenAfterSnapshot
    | ReadRecord
    | ShortRead
    | Reopen
    | Wait
    | Deliver
    | Drop
    | FollowerRotate(k: nat)

  /** The checksum the follower offers: that of its newest record, if its log still has it. */
  function OwnSum(s: State): Option<u32> {
    if s.wal != [] then Some(Crc32(Payload(s.wal[|s.wal| - 1]))) else None
  }

  /** SumAtFile: the checksum of the first record numbered n, if no later number or unreadable frame comes before it. */
  function SumAt(rs: seq<Record>, n: nat): Option<u32> {
    if rs == [] || !Fits(rs[0]) then None
    else if rs[0].seqno == n then Some(Crc32(Payload(rs[0])))
    else if rs[0].seqno > n then None
    else SumAt(rs[1..], n)
  }

  /** OpenWALForReplication: may the follower be served from the current log file? */
  predicate CanStream(s: State, fromSeq: nat, sum: Option<u32>)
    requires s.files != []
  {
    && s.snapSeq <= fromSeq <= s.acked
    && (fromSeq == 0 || (sum.Some? && SumAt(s.files[Current(s)].recs, fromSeq) == sum))
  }

  /** The new writer accepts a log tail only with readable frames and consecutive numbers. */
  predicate Contiguous(rs: seq<Record>) {
    forall i :: 0 <= i < |rs| - 1 ==> rs[i + 1].seqno == rs[i].seqno + 1
  }

  /** The writer's lock keeps a rotation out of a write in progress, but not out of a failed one. */
  predicate CanRotate(s: State)
    requires s.files != []
  {
    && s.pending.Some? && (s.failed || s.acked == |s.log|) && s.acked <= |s.log|
    && s.pending.value.cut <= |s.files[Current(s)].recs|
    && var tail := s.files[Current(s)].recs[s.pending.value.cut..]; Contiguous(tail) && AllFit(tail)
  }

  predicate Enabled(s: State, e: Step) {
    s.files != [] &&
    match e
    case Write(r) => !s.failed && r.seqno == |s.log| + 1
    case Ack => !s.failed && s.acked < |s.log|
    case Fail(_) => !s.failed
    case TakeCapture => !s.failed && s.acked == |s.log| && s.pending == None
    case Rotate => CanRotate(s)
    case Abort => s.pending.Some?
    case Dial => s.conn == Down
    case Serve => s.conn.Hello? && CanStream(s, s.conn.fromSeq, s.conn.sum)
    case Refuse => s.conn.Hello? && !CanStream(s, s.conn.fromSeq, s.conn.sum)
    case ServeSnapshot => s.conn.Wanting? && CanRotate(s) && s.pending.value.at <= s.acked
    case OpenAfterSnapshot => s.conn.SnapshotSent?
    case ReadRecord =>
      && s.conn.Streaming? && s.conn.st.fd < |s.files| && s.conn.st.offset < |s.files[s.conn.st.fd].recs|
      && Fits(s.files[s.conn.st.fd].recs[s.conn.st.offset])
    case ShortRead =>
      s.conn.Streaming? && s.conn.st.fd < |s.files|
      && s.conn.st.offset >= |s.files[s.conn.st.fd].recs| && s.files[s.conn.st.fd].torn < 8
    case Reopen => s.conn.Streaming? && s.conn.st.drained && s.conn.st.fd != Current(s)
    case Wait => s.conn.Streaming? && s.conn.st.drained && s.conn.st.fd == Current(s)
    case Deliver => s.wire != []
    case Drop => true
    case FollowerRotate(k) => k <= |s.wal|
  }

  function WithCurrent(s: State, f: File): State
    requires s.files != []
  {
    s.(files := s.files[Current(s) := f])
  }

  /**
   The tail of the current file becomes the new one, frames of a failed write
   included, and the new writer numbers on from the last acknowledged record.
   */
  function Rotated(s: State): State
    requires s.files != [] && CanRotate(s)
  {
    var c := s.pending.value;
    s.(files := s.files + [File(c.at, s.files[Current(s)].recs[c.cut..], 0)], snapSeq := c.at,
       pending := None, failed := false,
       log := s.log[..s.acked], strays := s.strays + (set r | r in s.log[s.acked..]))
  }

  /** A stream opening the current file at its start. */
  function OpenAt(s: State, fromSeq: nat): State
    requires s.files != []
  {
    s.(conn := Streaming(Stream(Current(s), 0, fromSeq, false)),
       gap := s.gap || s.files[Current(s)].base > fromSeq)
  }

  ghost function Do(s: State, e: Step): State
    requires Enabled(s, e)
  {
    match e
    case Write(r) =>
      var f := s.files[Current(s)];
      WithCurrent(s, f.(recs := f.recs + [r])).(log := s.log + [r])
    case Ack => s.(acked := |s.log|)
    case Fail(torn) => WithCurrent(s, s.files[Current(s)].(torn := torn)).(failed := true)
    case TakeCapture => s.(pending := Some(Capture(s.acked, |s.files[Current(s)].recs|)))
    case Rotate => Rotated(s)
    case Abort => s.(pending := None)
    case Dial => s.(conn := Hello(|s.hist|, OwnSum(s)), wire := [], gap := false)
    case Serve => OpenAt(s, s.conn.fromSeq)
    case Refuse => s.(conn := Wanting)
    case ServeSnapshot =>
      var at := s.pending.value.at;
      var m := Mem(LiveOf(At(s.log, at)), MetaOf(At(s.log, at)));
      Rotated(s).(conn := SnapshotSent(at), wire := [Snap(s.log[..at], m)])
    case OpenAfterSnapshot => OpenAt(s, s.conn.seqno)
    case ReadRecord =>
      var st := s.conn.st;
      var r := s.files[st.fd].recs[st.offset];
      var moved := st.(offset := st.offset + 1, drained := false);
      if r.seqno > st.fromSeq
      then s.(conn := Streaming(moved.(fromSeq := r.seqno)), wire := s.wire + [Rec(r)])
      else s.(conn := Streaming(moved))
    case ShortRead => s.(conn := Streaming(s.conn.st.(drained := true)))
    case Reopen => OpenAt(s, s.conn.st.fromSeq)
    case Wait => s.(conn := Streaming(s.conn.st.(drained := false)))
    case Deliver => Delivered(s.(wire := s.wire[1..]), s.wire[0])
    case Drop => s.(conn := Down, wire := [], gap := false)
    case FollowerRotate(k) => s.(wal := s.wal[k..])
  }

  /** The follower's side: install a snapshot, or apply the next record and refuse any other. */
  function Delivered(s: State, m: Msg): State {
    match m
    case Snap(recs, mem) => s.(hist := recs, fmem := mem, wal := [])
    case Rec(r) =>
      if r.seqno == |s.hist| + 1 then s.(hist := s.hist + [r], fmem := ApplyOne(s.fmem, r), wal := s.wal + [r])
      else s.(conn := Down, wire := [], gap := false)
  }

  ghost predicate Run(s: State, es: seq<Step>)
    decreases |es|
  {
    es == [] || (Enabled(s, es[0]) && Run(Do(s, es[0]), es[1..]))
  }

  ghost function StateAfter(s: State, es: seq<Step>): State
    requires Run(s, es)
    decreases |es|
  {
    if es == [] then s else StateAfter(Do(s, es[0]), es[1..])
  }

  // ---- The follower on its own ----

  /** The follower's memory is the fold of what it applied, and its log holds the newest of that. */
  ghost predicate FollowerOk(s: State) {
    && Numbered(s.hist) && Tidy(s.fmem) && Abs(s.fmem) == Fold(map[], s.hist)
    && |s.wal| <= |s.hist| && s.wal == s.hist[|s.hist| - |s.wal|..]
  }

  ghost predicate SnapOk(m: Msg) {
    m.Snap? ==> Numbered(m.recs) && m.mem == Mem(LiveOf(Fold(map[], m.recs)), MetaOf(Fold(map[], m.recs)))
  }

  lemma SnapshotInstalled(s: State, m: Msg)
    requires m.Snap? && SnapOk(m)
    ensures FollowerOk(Delivered(s, m))
  {
    hide Fold, Tidy, Abs, LiveOf, MetaOf;
    AbsOfParts(Fold(map[], m.recs));
  }

  lemma RecordApplied(s: State, r: Record)
    requires FollowerOk(s) && r.seqno == |s.hist| + 1
    ensures FollowerOk(Delivered(s, Rec(r)))
  {
    hide Fold, Tidy, Abs, LiveOf, MetaOf, ApplyOne;
    ApplyOneIsApply(s.fmem, r);
    FoldSnoc(map[], s.hist, r);
    WalGrows(s.hist, |s.wal|, r);
  }

  lemma WalGrows(hist: seq<Record>, n: nat, r: Record)
    requires n <= |hist|
    ensures hist[|hist| - n..] + [r] == (hist + [r])[|hist| - n..]
  {
  }

  lemma DeliverFollower(s: State, m: Msg)
    requires FollowerOk(s) && SnapOk(m)
    ensures FollowerOk(Delivered(s, m))
  {
    hide SnapOk, FollowerOk, ApplyOne;
    match m {
      case Snap(_, _) => SnapshotInstalled(s, m);
      case Rec(r) =>
        if r.seqno == |s.hist| + 1 { RecordApplied(s, r); } else { SameFollower(s, Delivered(s, m)); }
    }
  }

  lemma SameFollower(s: State, t: State)
    requires s.hist == t.hist && s.fmem == t.fmem && s.wal == t.wal && FollowerOk(s)
    ensures FollowerOk(t)
  {
  }

  lemma WalShrinks(s: State, k: nat)
    requires FollowerOk(s) && k <= |s.wal|
    ensures FollowerOk(s.(wal := s.wal[k..]))
  {
    assert s.wal[k..] == s.hist[|s.hist| - |s.wal| + k..];
  }

  // ---- What holds as long as no rotation keeps whole frames of a failed write ----

  /** No whole frame of a failed write is carried into a new log file. */
  ghost predicate Careful(s: State, e: Step) {
    e.Rotate? || e.ServeSnapshot? ==> s.acked == |s.log|
  }

  ghost predicate HoldsSlice(f: File, log: seq<Record>) {
    End(f) <= |log| && f.recs == log[f.base..End(f)]
  }

  /** Each file is a stretch of the log; a file begins inside the one before it, and the last one is current. */
  ghost predicate FilesOk(s: State) {
    && s.files != [] && s.acked <= |s.log| && s.strays == {}
    && (!s.failed ==> s.files[|s.files| - 1].torn == 0)
    && s.files[|s.files| - 1].base == s.snapSeq <= s.acked && End(s.files[|s.files| - 1]) == |s.log|
    && (forall i :: 0 <= i < |s.files| ==> HoldsSlice(s.files[i], s.log))
    && (forall i :: 0 <= i < |s.files| - 1 ==> s.files[i].base <= s.files[i + 1].base <= End(s.files[i]))
    && (s.pending.Some? ==>
          s.snapSeq <= s.pending.value.at <= s.acked && s.pending.value.cut == s.pending.value.at - s.snapSeq)
  }

  ghost predicate Genuine(log: seq<Record>, m: Msg) {
    match m
    case Rec(r) => 1 <= r.seqno <= |log| && log[r.seqno - 1] == r
    case Snap(recs, _) => recs <= log && SnapOk(m)
  }

  ghost predicate StreamOk(s: State) {
    match s.conn
    case Streaming(st) =>
      && st.fd < |s.files| && st.fromSeq <= |s.log| && st.offset <= |s.files[st.fd].recs|
      && (st.offset > 0 ==> s.files[st.fd].base + st.offset <= st.fromSeq)
    case SnapshotSent(n) => n <= |s.log| && !s.gap
    case Hello(n, sum) =>
      && n == |s.hist| && s.wire == [] && !s.gap
      && (sum.Some? ==> s.hist != [] && sum.value == Crc32(Payload(s.hist[|s.hist| - 1])))
    case _ => s.wire == [] && !s.gap
  }

  /** The number the follower will have reached once the messages on the wire are applied. */
  function Reached(fseq: nat, wire: seq<Msg>): nat {
    if wire == [] then fseq
    else match wire[|wire| - 1]
      case Rec(r) => r.seqno
      case Snap(recs, _) => |recs|
  }

  ghost predicate InOrder(fseq: nat, wire: seq<Msg>) {
    forall k :: 0 <= k < |wire| && wire[k].Rec? ==> wire[k].r.seqno == Reached(fseq, wire[..k]) + 1
  }

  /** Without a gap the wire continues the follower exactly, and the stream continues the wire. */
  ghost predicate Continuous(s: State) {
    && InOrder(|s.hist|, s.wire)
    && match s.conn
       case Streaming(st) =>
         && st.fromSeq == Reached(|s.hist|, s.wire)
         && st.fd < |s.files| && s.files[st.fd].base <= st.fromSeq
       case SnapshotSent(n) => n == Reached(|s.hist|, s.wire)
       case _ => true
  }

  ghost predicate WireOk(s: State) {
    forall k :: 0 <= k < |s.wire| ==> Genuine(s.log, s.wire[k])
  }

  /** What holds whatever the follower started with. */
  ghost predicate Coherent(s: State) {
    && Numbered(s.log) && FilesOk(s) && FollowerOk(s) && StreamOk(s) && WireOk(s)
    && (!s.gap ==> Continuous(s))
  }

  /** And for a follower that follows this leader's log. */
  ghost predicate Inv(s: State) {
    Coherent(s) && s.hist <= s.log
  }

  lemma GenuineLater(log: seq<Record>, longer: seq<Record>, m: Msg)
    requires Genuine(log, m) && log <= longer
    ensures Genuine(longer, m)
  {
    hide SnapOk;
  }

  /** What a step that leaves the log files and the wire alone need not say again. */
  lemma SameParts(s: State, t: State)
    requires s.log == t.log && s.acked == t.acked && s.failed == t.failed && s.pending == t.pending && s.files == t.files
    requires s.snapSeq == t.snapSeq && s.strays == t.strays
    ensures FilesOk(s) ==> FilesOk(t)
    ensures s.wire == t.wire || t.wire == [] ==> WireOk(s) ==> WireOk(t)
  {
    hide HoldsSlice, Genuine;
  }

  lemma SliceLater(f: File, log: seq<Record>, longer: seq<Record>)
    requires HoldsSlice(f, log) && log <= longer
    ensures HoldsSlice(f, longer)
  {
  }

  lemma WrittenFiles(s: State, r: Record)
    requires FilesOk(s) && Enabled(s, Write(r))
    ensures FilesOk(Do(s, Write(r)))
  {
    hide Numbered;
    var t := Do(s, Write(r));
    forall i | 0 <= i < |t.files| ensures HoldsSlice(t.files[i], t.log) {
      assert HoldsSlice(s.files[i], s.log);
      SliceLater(s.files[i], s.log, t.log);
    }
  }

  lemma WriteStep(s: State, r: Record)
    requires Coherent(s) && Enabled(s, Write(r))
    ensures Coherent(Do(s, Write(r)))
  {
    hide FollowerOk, InOrder, HoldsSlice, FilesOk, Crc32, Payload;
    var t := Do(s, Write(r));
    SameFollower(s, t);
    WrittenFiles(s, r);
    assert WireOk(t) by {
      forall k | 0 <= k < |s.wire| ensures Genuine(t.log, t.wire[k]) { GenuineLater(s.log, t.log, s.wire[k]); }
    }
  }

  lemma FailedFiles(s: State, torn: nat)
    requires FilesOk(s) && Enabled(s, Fail(torn))
    ensures FilesOk(Do(s, Fail(torn)))
  {
    var t := Do(s, Fail(torn));
    forall i | 0 <= i < |t.files| ensures HoldsSlice(t.files[i], t.log) {
      assert HoldsSlice(s.files[i], s.log);
    }
  }

  lemma LeaderFiles(s: State, e: Step)
    requires FilesOk(s) && Enabled(s, e) && (e.Ack? || e.Fail? || e.TakeCapture? || e.Abort?)
    ensures FilesOk(Do(s, e))
  {
    hide HoldsSlice;
    if e.Fail? { FailedFiles(s, e.torn); }
  }

  /** Acknowledging, failing, and starting or giving up a snapshot. */
  lemma LeaderStep(s: State, e: Step)
    requires Coherent(s) && Enabled(s, e) && (e.Ack? || e.Fail? || e.TakeCapture? || e.Abort?)
    ensures Coherent(Do(s, e))
  {
    hide FollowerOk, InOrder, Genuine, HoldsSlice, FilesOk, Crc32, Payload;
    var t := Do(s, e);
    LeaderFiles(s, e);
    SameFollower(s, t);
  }

  lemma TailSlice(f: File, log: seq<Record>, cut: nat)
    requires HoldsSlice(f, log) && cut <= |f.recs|
    ensures var tail := File(f.base + cut, f.recs[cut..], 0); HoldsSlice(tail, log) && End(tail) == End(f)
  {
  }

  lemma RotatedFiles(s: State)
    requires FilesOk(s) && CanRotate(s) && s.acked == |s.log|
    ensures FilesOk(Rotated(s)) && Rotated(s).log == s.log
  {
    hide Contiguous, HoldsSlice, AllFit;
    var t := Rotated(s);
    TailSlice(s.files[Current(s)], s.log, s.pending.value.cut);
    assert s.log[..s.acked] == s.log && s.log[s.acked..] == [];
    forall i | 0 <= i < |t.files| ensures HoldsSlice(t.files[i], t.log) {
      if i < |s.files| { assert HoldsSlice(s.files[i], s.log); }
    }
  }

  lemma RotateStep(s: State)
    requires Coherent(s) && Enabled(s, Rotate) && Careful(s, Rotate)
    ensures Coherent(Do(s, Rotate))
  {
    hide FollowerOk, InOrder, Genuine, FilesOk, CanRotate, Crc32, Payload;
    var t := Do(s, Rotate);
    RotatedFiles(s);
    SameFollower(s, t);
  }

  lemma ServeSnapshotStep(s: State)
    requires Coherent(s) && Enabled(s, ServeSnapshot) && Careful(s, ServeSnapshot)
    ensures Coherent(Do(s, ServeSnapshot))
  {
    hide FollowerOk, CanRotate, LiveOf, MetaOf, Fold, Crc32, Payload;
    var t := Do(s, ServeSnapshot);
    RotatedFiles(s);
    assert FilesOk(t) by { SameParts(Rotated(s), t); }
    SameFollower(s, t);
  }

  lemma DialStep(s: State, e: Step)
    requires Coherent(s) && Enabled(s, e) && (e.Dial? || e.Drop? || e.Refuse?)
    ensures Coherent(Do(s, e)) && !Do(s, e).gap
  {
    hide FilesOk, Genuine, InOrder, Fold, Abs, Tidy, Numbered, Crc32, Payload;
    var t := Do(s, e);
    EmptyInOrder(|t.hist|);
    SameParts(s, t);
    SameFollower(s, t);
  }

  /** A stream is served only from snapSeq on, which is where the current file starts. */
  lemma ServeStep(s: State)
    requires Coherent(s) && Enabled(s, Serve)
    ensures Coherent(Do(s, Serve)) && !Do(s, Serve).gap
  {
    hide FollowerOk, Genuine, HoldsSlice, InOrder, SumAt, Crc32, Payload;
    var t := Do(s, Serve);
    EmptyInOrder(|t.hist|);
    SameParts(s, t);
    SameFollower(s, t);
  }

  lemma OpenStep(s: State, e: Step)
    requires Coherent(s) && Enabled(s, e) && (e.OpenAfterSnapshot? || e.Reopen?)
    ensures Coherent(Do(s, e))
  {
    hide FollowerOk, Genuine, HoldsSlice, InOrder, Crc32, Payload;
    var t := Do(s, e);
    SameParts(s, t);
    SameFollower(s, t);
  }

  lemma OrderSnoc(fseq: nat, wire: seq<Msg>, r: Record)
    requires InOrder(fseq, wire) && r.seqno == Reached(fseq, wire) + 1
    ensures InOrder(fseq, wire + [Rec(r)])
  {
    var longer := wire + [Rec(r)];
    forall k | 0 <= k < |longer| && longer[k].Rec?
      ensures longer[k].r.seqno == Reached(fseq, longer[..k]) + 1
    {
      assert longer[..k] == if k < |wire| then wire[..k] else wire;
    }
  }

  /** What a stream reads at its position is the log's record at that position. */
  lemma ReadIsGenuine(s: State)
    requires Numbered(s.log) && FilesOk(s) && Enabled(s, ReadRecord)
    ensures var f := s.files[s.conn.st.fd]; var r := f.recs[s.conn.st.offset];
            f.base + s.conn.st.offset < |s.log| && r.seqno == f.base + s.conn.st.offset + 1 && Genuine(s.log, Rec(r))
  {
    var f := s.files[s.conn.st.fd];
    assert HoldsSlice(f, s.log);
    assert f.recs[s.conn.st.offset] == s.log[f.base + s.conn.st.offset];
  }

  lemma ReadStep(s: State)
    requires Coherent(s) && Enabled(s, ReadRecord)
    ensures Coherent(Do(s, ReadRecord))
  {
    hide FollowerOk, InOrder, Genuine, FilesOk, Numbered, Crc32, Payload;
    var t := Do(s, ReadRecord);
    ReadIsGenuine(s);
    SameParts(s, t);
    SameFollower(s, t);
    var r := s.files[s.conn.st.fd].recs[s.conn.st.offset];
    assert Genuine(s.log, Rec(r)) ==> r.seqno <= |s.log| by { GenuineBound(s.log, Rec(r)); }
    if !s.gap && r.seqno > s.conn.st.fromSeq {
      OrderSnoc(|s.hist|, s.wire, r);
    }
  }

  lemma GenuineBound(log: seq<Record>, m: Msg)
    ensures Genuine(log, m) && m.Rec? ==> m.r.seqno <= |log|
  {
  }

  lemma IdleStep(s: State, e: Step)
    requires Coherent(s) && Enabled(s, e) && (e.ShortRead? || e.Wait?)
    ensures Coherent(Do(s, e))
  {
    hide FollowerOk, FilesOk, Genuine, InOrder, Crc32, Payload;
    var t := Do(s, e);
    SameParts(s, t);
    SameFollower(s, t);
  }

  lemma FollowerRotateStep(s: State, k: nat)
    requires Coherent(s) && Enabled(s, FollowerRotate(k))
    ensures Coherent(Do(s, FollowerRotate(k)))
  {
    hide FollowerOk, FilesOk, Genuine, InOrder, Crc32, Payload;
    SameParts(s, Do(s, FollowerRotate(k)));
    WalShrinks(s, k);
  }

  /** Taking the first message off an ordered wire leaves it ordered for the new follower position. */
  lemma ShiftOrder(fseq: nat, wire: seq<Msg>, next: nat)
    requires wire != [] && InOrder(fseq, wire) && next == Reached(fseq, wire[..1])
    ensures InOrder(next, wire[1..]) && Reached(next, wire[1..]) == Reached(fseq, wire)
  {
    forall k | 0 <= k < |wire[1..]| && wire[1..][k].Rec?
      ensures wire[1..][k].r.seqno == Reached(next, wire[1..][..k]) + 1
    {
      assert wire[k + 1].r.seqno == Reached(fseq, wire[..k + 1]) + 1;
      assert wire[..k + 1][1..] == wire[1..][..k];
      if k > 0 { assert wire[1..][..k][k - 1] == wire[..k + 1][k]; }
    }
  }

  lemma EmptyInOrder(n: nat)
    ensures InOrder(n, [])
  {
  }

  lemma AcceptedInOrder(fseq: nat, wire: seq<Msg>)
    requires wire != [] && InOrder(fseq, wire) && wire[0].Rec?
    ensures wire[0].r.seqno == fseq + 1
  {
    assert wire[..0] == [];
  }

  lemma DeliverStep(s: State)
    requires Coherent(s) && Enabled(s, Deliver)
    ensures Coherent(Do(s, Deliver))
  {
    hide FollowerOk, InOrder, FilesOk, SnapOk, ApplyOne, Crc32, Payload;
    var t := Do(s, Deliver);
    var u := s.(wire := s.wire[1..]);
    assert Genuine(s.log, s.wire[0]);
    assert SnapOk(s.wire[0]) by { GenuineSnap(s.log, s.wire[0]); }
    SameFollower(s, u);
    DeliverFollower(u, s.wire[0]);
    assert FilesOk(t) by { SameParts(s, t); }
    assert WireOk(t) by {
      forall k | 0 <= k < |t.wire| ensures Genuine(t.log, t.wire[k]) { assert Genuine(s.log, s.wire[k + 1]); }
    }
    if !s.gap {
      if s.wire[0].Rec? { AcceptedInOrder(|s.hist|, s.wire); }
      assert s.wire[..1] == [s.wire[0]];
      ShiftOrder(|s.hist|, s.wire, |t.hist|);
    }
    EmptyInOrder(|t.hist|);
  }

  lemma GenuineSnap(log: seq<Record>, m: Msg)
    requires Genuine(log, m)
    ensures SnapOk(m)
  {
  }

  lemma StepKeepsCoherent(s: State, e: Step)
    requires Coherent(s) && Enabled(s, e) && Careful(s, e)
    ensures Coherent(Do(s, e))
  {
    hide FollowerOk, FilesOk, WireOk, InOrder, Continuous, StreamOk, Do, Careful;
    match e {
      case Write(r) => WriteStep(s, r);
      case Rotate => RotateStep(s);
      case ServeSnapshot => ServeSnapshotStep(s);
      case ReadRecord => ReadStep(s);
      case Deliver => DeliverStep(s);
      case FollowerRotate(k) => FollowerRotateStep(s, k);
      case OpenAfterSnapshot => OpenStep(s, e);
      case Reopen => OpenStep(s, e);
      case ShortRead => IdleStep(s, e);
      case Wait => IdleStep(s, e);
      case Serve => ServeStep(s);
      case Dial => DialStep(s, e);
      case Drop => DialStep(s, e);
      case Refuse => DialStep(s, e);
      case _ => LeaderStep(s, e);
    }
  }

  // ---- Who is served from the log ----

  /** The k-th record is the first numbered n, and what comes before it is readable and has lower numbers. */
  ghost predicate FirstAt(rs: seq<Record>, n: nat, k: nat) {
    && k < |rs| && rs[k].seqno == n && AllFit(rs[..k + 1])
    && forall j :: 0 <= j < k ==> rs[j].seqno < n
  }

  lemma {:induction false} SumAtFirst(rs: seq<Record>, n: nat, k: nat)
    requires FirstAt(rs, n, k)
    ensures SumAt(rs, n) == Some(Crc32(Payload(rs[k])))
    decreases k
  {
    assert Fits(rs[..k + 1][0]);
    if k > 0 {
      assert rs[..k + 1][1..] == rs[1..][..k];
      assert rs[..k + 1] == [rs[0]] + rs[1..][..k];
      FitCons(rs[0], rs[1..][..k]);
      SumAtFirst(rs[1..], n, k - 1);
    }
  }

  lemma {:induction false} SumAtFound(rs: seq<Record>, n: nat) returns (k: nat)
    requires SumAt(rs, n).Some?
    ensures FirstAt(rs, n, k)
    decreases |rs|
  {
    if rs[0].seqno == n {
      k := 0;
      assert rs[..1] == [rs[0]];
    } else {
      var i := SumAtFound(rs[1..], n);
      k := i + 1;
      assert rs[..k + 1] == [rs[0]] + rs[1..][..i + 1];
      FitCons(rs[0], rs[1..][..i + 1]);
      assert forall j :: 1 <= j < k ==> rs[j] == rs[1..][j - 1];
    }
  }

  ghost predicate HoldsSum(rs: seq<Record>, n: nat, sum: Option<u32>) {
    exists k: nat :: FirstAt(rs, n, k) && sum == Some(Crc32(Payload(rs[k])))
  }

  /**
   In any state whatever, a follower that asks is served from the log exactly if
   it has nothing, or if the current file holds a readable record of the number
   it asks from and the follower offered that record's checksum; and the number
   must be neither before the last snapshot nor past the acknowledged log.
   Otherwise it is refused, and waits for a snapshot.
   */
  lemma ServedIff(s: State)
    requires s.files != [] && s.conn.Hello?
    ensures var n := s.conn.fromSeq;
            Enabled(s, Serve) <==>
              s.snapSeq <= n <= s.acked && (n == 0 || HoldsSum(s.files[|s.files| - 1].recs, n, s.conn.sum))
    ensures Enabled(s, Refuse) <==> !Enabled(s, Serve)
    ensures Enabled(s, Refuse) ==> Do(s, Refuse) == s.(conn := Wanting)
  {
    hide Crc32, Payload, AllFit, SumAt;
    var rs, n := s.files[|s.files| - 1].recs, s.conn.fromSeq;
    if SumAt(rs, n).Some? {
      var k := SumAtFound(rs, n);
      SumAtFirst(rs, n, k);
    }
    forall k: nat | FirstAt(rs, n, k) ensures SumAt(rs, n) == Some(Crc32(Payload(rs[k]))) {
      SumAtFirst(rs, n, k);
    }
  }

  lemma FirstOfSlice(f: File, log: seq<Record>, n: nat, k: nat)
    requires Numbered(log) && HoldsSlice(f, log)
    ensures FirstAt(f.recs, n, k) <==> f.base < n <= End(f) && k == n - 1 - f.base && AllFit(log[f.base..n])
    ensures FirstAt(f.recs, n, k) ==> f.recs[k] == log[n - 1]
  {
    hide Fits, AllFit;
    assert forall i :: 0 <= i < |f.recs| ==> f.recs[i] == log[f.base + i];
    if k < |f.recs| { assert f.recs[..k + 1] == log[f.base..f.base + k + 1]; }
  }

  /** In terms of the log: the current file holds what was written since the last snapshot. */
  lemma SumOfLog(s: State, n: nat, sum: Option<u32>)
    requires Numbered(s.log) && FilesOk(s)
    ensures HoldsSum(s.files[|s.files| - 1].recs, n, sum) <==>
              s.snapSeq < n <= |s.log| && AllFit(s.log[s.snapSeq..n]) && sum == Some(Crc32(Payload(s.log[n - 1])))
  {
    hide Crc32, Payload, AllFit, FirstAt, Numbered;
    var f := s.files[|s.files| - 1];
    assert HoldsSlice(f, s.log);
    forall k: nat
      ensures FirstAt(f.recs, n, k) <==> s.snapSeq < n <= |s.log| && k == n - 1 - s.snapSeq && AllFit(s.log[s.snapSeq..n])
      ensures k < |f.recs| && FirstAt(f.recs, n, k) ==> f.recs[k] == s.log[n - 1]
    {
      FirstOfSlice(f, s.log, n, k);
    }
    if s.snapSeq < n <= |s.log| && AllFit(s.log[s.snapSeq..n]) {
      assert FirstAt(f.recs, n, n - 1 - s.snapSeq);
    }
  }

  // ---- A follower of whatever past ----

  /** A foreign history with this leader's records on top, whose last foreign record has the checksum of the leader's. */
  ghost predicate Grafted(own: seq<Record>, hist: seq<Record>, log: seq<Record>) {
    && 0 < |own| <= |hist| <= |log| && hist == own + log[|own|..|hist|]
    && Crc32(Payload(own[|own| - 1])) == Crc32(Payload(log[|own| - 1]))
  }

  /** Nothing but a snapshot can reach the follower before it dials again. */
  ghost predicate Waiting(s: State) {
    if s.wire == [] then s.conn.Down? || s.conn.Hello? || s.conn.Wanting? else s.wire[0].Snap?
  }

  /** Having started as s0, the follower follows the log, has not moved, or is grafted. */
  ghost predicate Rooted(s0: State, s: State) {
    || s.hist <= s.log
    || (s0.wal != [] && Grafted(s0.hist, s.hist, s.log))
    || (s.hist == s0.hist && Waiting(s) && (s.wal != [] || (s.conn.Hello? && s.conn.sum.Some?) ==> s0.wal != []))
  }

  lemma LogGrows(s: State, e: Step)
    requires Coherent(s) && Enabled(s, e) && Careful(s, e)
    ensures s.log <= Do(s, e).log
  {
    hide FollowerOk, StreamOk, WireOk, Continuous, Numbered, HoldsSlice, ApplyOne;
  }

  lemma RootedLater(s0: State, s: State, t: State)
    requires Rooted(s0, s) && s.log <= t.log && s.hist == t.hist && (|t.wal| <= |s.wal|)
    requires (s.conn == t.conn && s.wire == t.wire) || ((Waiting(s) ==> Waiting(t)) && !t.conn.Hello?)
    ensures Rooted(s0, t)
  {
    hide Crc32, Payload;
    if Grafted(s0.hist, s.hist, s.log) {
      assert s.log[|s0.hist|..|s.hist|] == t.log[|s0.hist|..|s.hist|];
    }
  }

  /** A foreign follower is served only if the checksum of its last record is the leader's. */
  lemma ServeRooted(s0: State, s: State)
    requires Coherent(s) && Enabled(s, Serve) && Rooted(s0, s)
    ensures Rooted(s0, Do(s, Serve))
  {
    hide Crc32, Payload, FollowerOk, WireOk, Continuous, HoldsSlice, SumAt, HoldsSum, AllFit;
    var t := Do(s, Serve);
    ServedIff(s);
    SumOfLog(s, s.conn.fromSeq, s.conn.sum);
    if !(s.hist <= s.log) && s.hist == s0.hist {
      assert s.hist == s.hist + s.log[|s.hist|..|s.hist|];
      assert Grafted(s0.hist, t.hist, t.log);
    }
  }

  lemma GraftGrows(own: seq<Record>, hist: seq<Record>, log: seq<Record>)
    requires Grafted(own, hist, log) && |hist| < |log|
    ensures Grafted(own, hist + [log[|hist|]], log)
  {
    hide Crc32, Payload;
  }

  lemma DeliverRooted(s0: State, s: State)
    requires Coherent(s) && Enabled(s, Deliver) && Rooted(s0, s)
    ensures Rooted(s0, Do(s, Deliver))
  {
    hide Crc32, Payload, FollowerOk, Continuous, StreamOk, FilesOk, ApplyOne, SnapOk, Grafted, Numbered;
    var t := Do(s, Deliver);
    assert Genuine(s.log, s.wire[0]);
    if s.wire[0].Rec? && s.wire[0].r.seqno == |s.hist| + 1 && Grafted(s0.hist, s.hist, s.log) {
      GraftGrows(s0.hist, s.hist, s.log);
    }
  }

  lemma ConnRooted(s0: State, s: State, e: Step)
    requires Coherent(s) && Enabled(s, e) && Careful(s, e) && Rooted(s0, s) && !e.Serve? && !e.Deliver?
    ensures Rooted(s0, Do(s, e))
  {
    hide Crc32, Payload, FollowerOk, WireOk, Continuous, StreamOk, FilesOk, ApplyOne, Grafted;
    var t := Do(s, e);
    LogGrows(s, e);
    match e {
      case Dial => DialRooted(s0, s);
      case OpenAfterSnapshot => RootedStreams(s0, s, t);
      case ReadRecord => RootedStreams(s0, s, t);
      case ShortRead => RootedStreams(s0, s, t);
      case Reopen => RootedStreams(s0, s, t);
      case Wait => RootedStreams(s0, s, t);
      case _ => RootedLater(s0, s, t);
    }
  }

  lemma DialRooted(s0: State, s: State)
    requires Enabled(s, Dial) && Rooted(s0, s)
    ensures Rooted(s0, Do(s, Dial))
  {
    hide Crc32, Payload, Grafted;
  }

  lemma RootedStreams(s0: State, s: State, t: State)
    requires Rooted(s0, s) && (s.conn.Streaming? || s.conn.SnapshotSent?) && t.conn.Streaming?
    requires s.hist == t.hist && s.log == t.log && s.wal == t.wal && s.wire <= t.wire
    ensures Rooted(s0, t)
  {
    hide Grafted;
  }

  lemma StepKeepsRooted(s0: State, s: State, e: Step)
    requires Coherent(s) && Enabled(s, e) && Careful(s, e) && Rooted(s0, s)
    ensures Rooted(s0, Do(s, e))
  {
    hide Coherent, Rooted, Do;
    match e {
      case Serve => ServeRooted(s0, s);
      case Deliver => DeliverRooted(s0, s);
      case _ => ConnRooted(s0, s, e);
    }
  }

  lemma StepKeepsInv(s: State, e: Step)
    requires Inv(s) && Enabled(s, e) && Careful(s, e)
    ensures Inv(Do(s, e))
  {
    hide Coherent, Do, Enabled, Careful, Waiting;
    StepKeepsCoherent(s, e);
    StepKeepsRooted(s, s, e);
    LogGrows(s, e);
    RootedPrefix(s, Do(s, e));
  }

  lemma RootedPrefix(s0: State, s: State)
    requires Rooted(s0, s) && s0.hist <= s0.log <= s.log
    ensures s.hist <= s.log
  {
    if Grafted(s0.hist, s.hist, s.log) { assert s.log[..|s.hist|] == s0.hist + s.log[|s0.hist|..|s.hist|]; }
  }

  // ---- Whole runs ----

  /** One leader, up all along, and a follower of whatever past. */
  ghost predicate Start(s: State) {
    && Numbered(s.log) && FilesOk(s) && FollowerOk(s)
    && s.conn == Down && s.wire == [] && !s.gap
  }

  ghost predicate CarefulRun(s: State, es: seq<Step>)
    decreases |es|
  {
    es == [] || (Enabled(s, es[0]) && Careful(s, es[0]) && CarefulRun(Do(s, es[0]), es[1..]))
  }

  lemma StartCoherent(s: State)
    requires Start(s)
    ensures Coherent(s) && Rooted(s, s)
  {
    hide FollowerOk, FilesOk, Grafted;
  }

  lemma {:induction false} RunKeepsRooted(s0: State, s: State, es: seq<Step>)
    requires Coherent(s) && Rooted(s0, s) && CarefulRun(s, es)
    ensures Run(s, es) && Coherent(StateAfter(s, es)) && Rooted(s0, StateAfter(s, es)) && s.log <= StateAfter(s, es).log
    decreases |es|
  {
    hide Coherent, Rooted, Enabled, Careful, Do;
    if es != [] {
      StepKeepsCoherent(s, es[0]);
      StepKeepsRooted(s0, s, es[0]);
      LogGrows(s, es[0]);
      RunKeepsRooted(s0, Do(s, es[0]), es[1..]);
    }
  }

  /**
   From any follower whatever and for every such schedule: the follower holds a
   prefix of the leader's log, or still exactly what it started with, or that
   with the leader's records put on top. The last can only be if its log still
   had its newest record and that has the checksum of the leader's record of the
   same number. So a follower whose newest record differs in checksum, is not in
   its log any more, or has a number the leader never reached is never sent a
   record it takes: it stays as it is until a snapshot makes it a prefix.
   */
  lemma AnyFollower(s: State, es: seq<Step>)
    requires Start(s) && CarefulRun(s, es)
    ensures Run(s, es)
    ensures var t := StateAfter(s, es); var n := |s.hist|;
            || t.hist <= t.log
            || t.hist == s.hist
            || (s.wal != [] && 0 < n <= |t.hist| <= |t.log| && t.hist == s.hist + t.log[n..|t.hist|]
                && Crc32(Payload(s.hist[n - 1])) == Crc32(Payload(t.log[n - 1])))
  {
    hide Coherent, Crc32, Payload, Waiting;
    StartCoherent(s);
    RunKeepsRooted(s, s, es);
  }

  /**
   For every schedule of writes, acknowledgements, failed writes, rotations,
   dropped connections, reconnects and snapshot transfers in which no rotation
   keeps whole frames of a failed write: the follower's database is exactly the
   fold of the first records the leader wrote, acknowledged or not, its log holds
   exactly the newest of them, and it is a prefix of the acknowledged log if and
   only if it has not gone past it.
   */
  lemma FollowerIsAPrefix(s: State, es: seq<Step>)
    requires Start(s) && s.hist <= s.log && CarefulRun(s, es)
    ensures Run(s, es)
    ensures var t := StateAfter(s, es);
            && t.hist <= t.log && Tidy(t.fmem) && Abs(t.fmem) == Fold(map[], t.log[..|t.hist|])
            && |t.wal| <= |t.hist| && t.wal == t.log[|t.hist| - |t.wal|..|t.hist|]
            && t.acked <= |t.log| && (t.hist <= t.log[..t.acked] <==> |t.hist| <= t.acked)
  {
    hide Fold, Tidy, Abs, Numbered, FilesOk, WireOk, StreamOk, Continuous, Rooted;
    StartCoherent(s);
    RunKeepsRooted(s, s, es);
    var t := StateAfter(s, es);
    RootedPrefix(s, t);
    assert t.hist == t.log[..|t.hist|];
    assert t.acked <= |t.log| by { AckedBound(t); }
  }

  lemma AckedBound(s: State)
    requires FilesOk(s)
    ensures s.acked <= |s.log|
  {
  }

  /**
   On a stream without a gap, the follower will be a prefix of the acknowledged
   log once the wire is drained, if and only if the stream has not read past it.
   */
  lemma AheadOnlyByReadingAhead(s: State)
    requires Inv(s) && !s.gap && s.conn.Streaming?
    ensures Reached(|s.hist|, s.wire) <= |s.log|
    ensures s.log[..Reached(|s.hist|, s.wire)] <= s.log[..s.acked] <==> s.conn.st.fromSeq <= s.acked
  {
    hide FollowerOk, InOrder, WireOk, Numbered;
  }

  /** A record is refused only on a stream that stepped over one. */
  lemma RefusedOnlyAfterAGap(s: State)
    requires Inv(s) && s.wire != [] && s.wire[0].Rec? && s.wire[0].r.seqno != |s.hist| + 1
    ensures s.gap
  {
    hide FollowerOk, InOrder, WireOk, Numbered, FilesOk;
    if !s.gap { AcceptedInOrder(|s.hist|, s.wire); }
  }

  /**
   Every connection served from the log starts without a gap, and right behind a
   record of the follower's that has the checksum of the leader's record of the
   same number.
   */
  lemma ReconnectHealsGaps(s: State)
    requires Coherent(s) && Enabled(s, Serve)
    ensures !Do(s, Serve).gap && Do(s, Serve).conn.st.fromSeq == |s.hist| <= s.acked <= |s.log|
    ensures s.hist != [] ==> Crc32(Payload(s.hist[|s.hist| - 1])) == Crc32(Payload(s.log[|s.hist| - 1]))
  {
    hide FollowerOk, InOrder, WireOk, HoldsSum, SumAt, AllFit, Crc32, Payload;
    ServeStep(s);
    ServedIff(s);
    SumOfLog(s, s.conn.fromSeq, s.conn.sum);
  }

  /** What the follower offered is not the leader's checksum: none, another one, or a number the leader has not reached. */
  ghost predicate Mismatch(s: State) {
    && s.conn.Hello? && s.conn.fromSeq > 0
    && (s.conn.fromSeq > |s.log| || s.conn.sum != Some(Crc32(Payload(s.log[s.conn.fromSeq - 1]))))
  }

  /** Such a follower is refused the log: no step opens a stream, and what it holds stays. */
  lemma MismatchIsRefused(s: State, e: Step)
    requires Coherent(s) && Mismatch(s) && Enabled(s, e)
    ensures !e.Serve? && Enabled(s, Refuse) && Do(s, Refuse).conn == Wanting
    ensures Do(s, e).hist == s.hist && (Do(s, e).conn == s.conn || e.Refuse? || e.Drop?)
  {
    hide FollowerOk, InOrder, WireOk, HoldsSum, SumAt, AllFit, Crc32, Payload, ApplyOne;
    ServedIff(s);
    SumOfLog(s, s.conn.fromSeq, s.conn.sum);
  }

  /**
   Moving on to the current file loses nothing if and only if that file starts
   no later than what was already sent: the first record past fromSeq it holds
   is then fromSeq + 1, otherwise a later one.
   */
  lemma ReopenIsLosslessIff(s: State, k: nat)
    requires Inv(s) && Enabled(s, Reopen) && !s.gap
    requires k < |s.files[Current(s)].recs| && s.files[Current(s)].recs[k].seqno > s.conn.st.fromSeq
    requires forall j :: 0 <= j < k ==> s.files[Current(s)].recs[j].seqno <= s.conn.st.fromSeq
    ensures s.files[Current(s)].recs[k].seqno == s.conn.st.fromSeq + 1 <==> !Do(s, Reopen).gap
  {
    hide FollowerOk, InOrder, WireOk;
    var f := s.files[Current(s)];
    assert HoldsSlice(f, s.log);
    assert f.recs[k] == s.log[f.base + k];
    if k > 0 { assert f.recs[k - 1] == s.log[f.base + k - 1]; }
  }

  /** A gap-free stream with nothing left to read or deliver means the follower has everything written. */
  lemma QuietMeansCaughtUp(s: State)
    requires Inv(s) && !s.gap && s.conn.Streaming? && s.conn.st.fd == Current(s) && s.wire == []
    requires s.conn.st.offset == |s.files[Current(s)].recs|
    ensures s.hist == s.log && Abs(s.fmem) == Fold(map[], s.log)
  {
    hide Fold, Tidy, Abs, InOrder, Numbered;
    assert s.log[..|s.log|] == s.log;
  }

  // ---- The stream alone can skip a record ----

  lemma RunStep(s: State, e: Step, es: seq<Step>)
    requires Enabled(s, e)
    ensures Run(Do(s, e), es) ==> Run(s, [e] + es) && StateAfter(s, [e] + es) == StateAfter(Do(s, e), es)
  {
    hide Enabled, Do;
    assert ([e] + es)[1..] == es;
  }

  lemma RunNothing(s: State)
    ensures Run(s, []) && StateAfter(s, []) == s
  {
  }

  /** A stream that has read and sent everything its leader has. */
  ghost predicate UpToDate(s: State) {
    && s.files != [] && s.conn.Streaming? && s.conn.st.fd == Current(s) && s.conn.st.fromSeq == |s.log|
    && s.conn.st.offset == |s.files[Current(s)].recs|
  }

  ghost predicate AtRest(s: State) {
    s.files != [] && !s.failed && s.acked == |s.log| && s.pending == None
  }

  /** A snapshot that nothing comes in between leaves an empty log file. */
  lemma SnapshotAtRest(s: State)
    requires AtRest(s)
    ensures Enabled(s, TakeCapture) && Enabled(Do(s, TakeCapture), Rotate)
    ensures Do(Do(s, TakeCapture), Rotate)
         == s.(files := s.files + [File(|s.log|, [], 0)], snapSeq := |s.log|)
  {
    assert s.files[Current(s)].recs[|s.files[Current(s)].recs|..] == [];
    assert s.log[..s.acked] == s.log && s.log[s.acked..] == [];
  }

  ghost function RotateTwice(r: Record): seq<Step> {
    [TakeCapture] + ([Rotate] + ([Write(r)] + ([Ack] + ([TakeCapture] + ([Rotate] + ([ShortRead] + ([Reopen] + [])))))))
  }

  /**
   Whenever a stream is up to date, two rotations around one append make it
   lose that record, although the stream reads every byte of the file it holds
   before moving on. The follower's own check is what keeps it a prefix.
   */
  lemma TwoRotationsSkipARecord(s: State, r: Record)
    requires Inv(s) && !s.gap && AtRest(s) && UpToDate(s) && r.seqno == |s.log| + 1
    ensures Run(s, RotateTwice(r))
    ensures var t := StateAfter(s, RotateTwice(r));
            && t.gap && t.log == s.log + [r] && t.hist == s.hist && t.conn.Streaming? && t.conn.st.fromSeq == |s.log|
            && t.files != [] && t.files[Current(t)].base == |s.log| + 1
  {
    hide Run, StateAfter, Do, Enabled, Inv;
    SnapshotAtRest(s);
    var s1 := Do(s, TakeCapture);
    var s2 := Do(s1, Rotate);
    var tail := [TakeCapture] + ([Rotate] + ([ShortRead] + ([Reopen] + [])));
    WriteAndAck(s2, r);
    var s4 := Do(Do(s2, Write(r)), Ack);
    assert s.files[Current(s)].torn == 0 by { SoundFile(s); }
    MoveOn(s4);
    RunStep(Do(s2, Write(r)), Ack, tail);
    RunStep(s2, Write(r), [Ack] + tail);
    RunStep(s1, Rotate, [Write(r)] + ([Ack] + tail));
    RunStep(s, TakeCapture, [Rotate] + ([Write(r)] + ([Ack] + tail)));
  }

  lemma SoundFile(s: State)
    requires Inv(s) && !s.failed
    ensures s.files[Current(s)].torn == 0
  {
  }

  lemma WriteAndAck(s: State, r: Record)
    requires AtRest(s) && r.seqno == |s.log| + 1
    ensures Enabled(s, Write(r)) && Enabled(Do(s, Write(r)), Ack)
    ensures var f := s.files[Current(s)];
            Do(Do(s, Write(r)), Ack) == s.(log := s.log + [r], acked := |s.log| + 1,
                                           files := s.files[Current(s) := f.(recs := f.recs + [r])])
  {
  }

  /** A stream at the end of an older file moves to the current one. */
  lemma MoveToCurrent(s: State)
    requires s.files != [] && s.conn.Streaming? && s.conn.st.fd < Current(s)
    requires s.conn.st.offset == |s.files[s.conn.st.fd].recs| && s.files[s.conn.st.fd].torn == 0
    ensures Enabled(s, ShortRead) && Enabled(Do(s, ShortRead), Reopen)
    ensures Do(Do(s, ShortRead), Reopen) == OpenAt(s, s.conn.st.fromSeq)
  {
  }

  lemma MoveOn(s: State)
    requires AtRest(s) && s.conn.Streaming? && s.conn.st.fd < Current(s)
    requires s.conn.st.offset == |s.files[s.conn.st.fd].recs| && s.files[s.conn.st.fd].torn == 0
    ensures var es := [TakeCapture] + ([Rotate] + ([ShortRead] + ([Reopen] + [])));
            && Run(s, es)
            && StateAfter(s, es) == OpenAt(s.(files := s.files + [File(|s.log|, [], 0)], snapSeq := |s.log|), s.conn.st.fromSeq)
  {
    hide Run, StateAfter, Do, Enabled;
    SnapshotAtRest(s);
    var s1 := Do(s, TakeCapture);
    var s2 := Do(s1, Rotate);
    MoveToCurrent(s2);
    var s3 := Do(s2, ShortRead);
    RunNothing(Do(s3, Reopen));
    RunStep(s3, Reopen, []);
    RunStep(s2, ShortRead, [Reopen] + []);
    RunStep(s1, Rotate, [ShortRead] + ([Reopen] + []));
    RunStep(s, TakeCapture, [Rotate] + ([ShortRead] + ([Reopen] + [])));
  }

  // ---- Every schedule, rotations over failed writes included ----

  /** Acknowledged or in flight, or a frame of a failed write that a rotation left in the log. */
  ghost predicate Known(s: State, r: Record) {
    1 <= r.seqno && ((r.seqno <= |s.log| && s.log[r.seqno - 1] == r) || r in s.strays)
  }

  ghost predicate AllKnown(s: State, rs: seq<Record>) {
    forall i :: 0 <= i < |rs| ==> Known(s, rs[i])
  }

  ghost predicate KnownMsg(s: State, m: Msg) {
    match m
    case Rec(r) => Known(s, r)
    case Snap(recs, _) => |recs| <= s.acked <= |s.log| && recs == s.log[..|recs|] && SnapOk(m)
  }

  ghost predicate LeaderKnown(s: State) {
    && s.files != [] && s.acked <= |s.log| && Numbered(s.log)
    && (s.pending.Some? ==> s.pending.value.at <= s.acked && s.pending.value.cut <= |s.files[|s.files| - 1].recs|)
    && (forall i :: 0 <= i < |s.files| ==> AllKnown(s, s.files[i].recs))
  }

  ghost predicate WireKnown(s: State) {
    forall k :: 0 <= k < |s.wire| ==> KnownMsg(s, s.wire[k])
  }

  /** Known to the leader, or in the follower's own past at the same place. */
  ghost predicate AllTraced(s: State, own: seq<Record>, rs: seq<Record>) {
    forall i :: 0 <= i < |rs| ==> Known(s, rs[i]) || (i < |own| && rs[i] == own[i])
  }

  ghost predicate Traced(own: seq<Record>, s: State) {
    LeaderKnown(s) && WireKnown(s) && FollowerOk(s) && AllTraced(s, own, s.hist)
  }

  /** A step that forgets no known record and keeps what is acknowledged. */
  ghost predicate Remembers(s: State, t: State) {
    && s.acked <= t.acked <= |t.log| && s.acked <= |s.log| && s.log[..s.acked] == t.log[..s.acked]
    && forall r :: Known(s, r) ==> Known(t, r)
  }

  lemma StillKnown(s: State, t: State, rs: seq<Record>)
    requires Remembers(s, t) && AllKnown(s, rs)
    ensures AllKnown(t, rs)
  {
    hide Known;
  }

  lemma StillTraced(s: State, t: State, own: seq<Record>, rs: seq<Record>)
    requires Remembers(s, t) && AllTraced(s, own, rs)
    ensures AllTraced(t, own, rs)
  {
    hide Known;
  }

  lemma StillKnownMsg(s: State, t: State, m: Msg)
    requires Remembers(s, t) && KnownMsg(s, m)
    ensures KnownMsg(t, m)
  {
    hide Known, SnapOk;
    if m.Snap? {
      assert m.recs == s.log[..s.acked][..|m.recs|] == t.log[..s.acked][..|m.recs|];
    }
  }

  /** The follower and the wire through a step of the leader's alone. */
  lemma RestKnown(own: seq<Record>, s: State, t: State)
    requires Traced(own, s) && Remembers(s, t) && LeaderKnown(t)
    requires s.hist == t.hist && s.fmem == t.fmem && s.wal == t.wal && (s.wire == t.wire || t.wire == [])
    ensures Traced(own, t)
  {
    hide Known, KnownMsg, Remembers, FollowerOk, LeaderKnown;
    SameFollower(s, t);
    StillTraced(s, t, own, s.hist);
    forall k | 0 <= k < |t.wire| ensures KnownMsg(t, t.wire[k]) { StillKnownMsg(s, t, s.wire[k]); }
  }

  lemma WriteRemembers(s: State, r: Record)
    requires LeaderKnown(s) && Enabled(s, Write(r))
    ensures Remembers(s, Do(s, Write(r)))
  {
  }

  lemma WriteKnown(own: seq<Record>, s: State, r: Record)
    requires Traced(own, s) && Enabled(s, Write(r))
    ensures Traced(own, Do(s, Write(r)))
  {
    hide Known, Remembers, FollowerOk, WireKnown, AllKnown;
    var t := Do(s, Write(r));
    WriteRemembers(s, r);
    forall i | 0 <= i < |t.files| ensures AllKnown(t, t.files[i].recs) {
      StillKnown(s, t, s.files[i].recs);
      if i == Current(s) { KnownSnoc(t, s.files[i].recs, r); }
    }
    RestKnown(own, s, t);
  }

  lemma KnownSnoc(s: State, rs: seq<Record>, r: Record)
    requires AllKnown(s, rs) && s.log != [] && r == s.log[|s.log| - 1] && r.seqno == |s.log|
    ensures AllKnown(s, rs + [r])
  {
  }

  lemma RotateRemembers(s: State, t: State)
    requires LeaderKnown(s) && CanRotate(s)
    requires t.log == Rotated(s).log && t.acked == s.acked && t.strays == Rotated(s).strays
    ensures Remembers(s, t)
  {
    forall r | Known(s, r) ensures Known(t, r) {
      if r.seqno > s.acked && r !in s.strays { assert s.log[s.acked..][r.seqno - 1 - s.acked] == r; }
    }
  }

  lemma RotateKnown(own: seq<Record>, s: State, t: State)
    requires Traced(own, s) && CanRotate(s)
    requires t.log == Rotated(s).log && t.acked == s.acked && t.strays == Rotated(s).strays
    requires t.files == Rotated(s).files && t.pending == None
    ensures LeaderKnown(t) && Remembers(s, t)
  {
    hide Known, Remembers, FollowerOk, WireKnown;
    RotateRemembers(s, t);
    forall i | 0 <= i < |t.files| ensures AllKnown(t, t.files[i].recs) {
      if i < |s.files| { StillKnown(s, t, s.files[i].recs); }
      else { StillKnown(s, t, s.files[Current(s)].recs); }
    }
  }

  lemma ServeSnapshotKnown(own: seq<Record>, s: State)
    requires Traced(own, s) && Enabled(s, ServeSnapshot)
    ensures Traced(own, Do(s, ServeSnapshot))
  {
    hide Known, AllKnown, Remembers, FollowerOk, LeaderKnown, LiveOf, MetaOf, Fold;
    var t := Do(s, ServeSnapshot);
    RotateKnown(own, s, t);
    SameFollower(s, t);
    StillTraced(s, t, own, s.hist);
    assert s.acked <= |s.log| && Numbered(s.log) by { LeaderBounds(s); }
    assert t.log[..s.pending.value.at] == s.log[..s.pending.value.at];
  }

  /** Connections come and go without touching what is known. */
  lemma SameKnown(s: State, t: State)
    requires s.log == t.log && s.acked == t.acked && s.strays == t.strays
    ensures Remembers(s, t) <== s.acked <= |s.log|
    ensures forall own :: AllTraced(s, own, s.hist) ==> AllTraced(t, own, s.hist)
    ensures s.files == t.files && s.pending == t.pending && LeaderKnown(s) ==> LeaderKnown(t)
  {
  }

  lemma FailKnown(own: seq<Record>, s: State, torn: nat)
    requires Traced(own, s) && Enabled(s, Fail(torn))
    ensures Traced(own, Do(s, Fail(torn)))
  {
    hide Known, Remembers, FollowerOk, WireKnown, AllKnown;
    var t := Do(s, Fail(torn));
    SameKnown(s, t);
    forall i | 0 <= i < |t.files| ensures AllKnown(t, t.files[i].recs) { StillKnown(s, t, s.files[i].recs); }
    RestKnown(own, s, t);
  }

  lemma AckKnown(own: seq<Record>, s: State, e: Step)
    requires Traced(own, s) && Enabled(s, e) && (e.Ack? || e.TakeCapture? || e.Abort?)
    ensures Traced(own, Do(s, e))
  {
    hide FollowerOk, WireKnown;
    RestKnown(own, s, Do(s, e));
  }

  lemma ReadKnown(own: seq<Record>, s: State)
    requires Traced(own, s) && Enabled(s, ReadRecord)
    ensures Traced(own, Do(s, ReadRecord))
  {
    hide Known, FollowerOk, Remembers, LeaderKnown;
    var t := Do(s, ReadRecord);
    assert AllKnown(s, s.files[s.conn.st.fd].recs) by { LeaderFile(s, s.conn.st.fd); }
    var u := t.(wire := s.wire);
    SameKnown(s, u);
    RestKnown(own, s, u);
    SameKnown(u, t);
    SameFollower(u, t);
  }

  lemma LeaderFile(s: State, i: nat)
    requires LeaderKnown(s) && i < |s.files|
    ensures AllKnown(s, s.files[i].recs)
  {
  }

  lemma DeliverKnown(own: seq<Record>, s: State)
    requires Traced(own, s) && Enabled(s, Deliver)
    ensures Traced(own, Do(s, Deliver))
  {
    hide FollowerOk, LeaderKnown, SnapOk, ApplyOne, Remembers;
    var t := Do(s, Deliver);
    var u := s.(wire := s.wire[1..]);
    var m := s.wire[0];
    assert KnownMsg(s, m);
    assert SnapOk(m) by { if m.Rec? { RecIsNoSnap(m); } }
    SameFollower(s, u);
    DeliverFollower(u, m);
    SameKnown(s, t);
    assert LeaderKnown(t);
    forall k | 0 <= k < |t.wire| ensures KnownMsg(t, t.wire[k]) { assert KnownMsg(s, s.wire[k + 1]); }
    assert AllTraced(t, own, t.hist) by {
      if m.Snap? { AckedKnown(s, |m.recs|); }
    }
  }

  lemma RecIsNoSnap(m: Msg)
    requires m.Rec?
    ensures SnapOk(m)
  {
  }

  lemma AckedKnown(s: State, n: nat)
    requires LeaderKnown(s) && n <= s.acked
    ensures n <= |s.log| && AllKnown(s, s.log[..n])
  {
  }

  lemma ConnKnown(own: seq<Record>, s: State, e: Step)
    requires Traced(own, s) && Enabled(s, e)
    requires e.Dial? || e.Serve? || e.Refuse? || e.OpenAfterSnapshot? || e.ShortRead? || e.Reopen? || e.Wait? || e.Drop?
    ensures Traced(own, Do(s, e))
  {
    hide Known, FollowerOk, Remembers, AllKnown, WireKnown, LeaderKnown;
    var t := Do(s, e);
    assert s.acked <= |s.log| by { LeaderBounds(s); }
    SameKnown(s, t);
    RestKnown(own, s, t);
  }

  lemma LeaderBounds(s: State)
    requires LeaderKnown(s)
    ensures s.acked <= |s.log| && Numbered(s.log)
  {
  }

  lemma FollowerRotateKnown(own: seq<Record>, s: State, k: nat)
    requires Traced(own, s) && Enabled(s, FollowerRotate(k))
    ensures Traced(own, Do(s, FollowerRotate(k)))
  {
    hide FollowerOk, Known, KnownMsg;
    var t := Do(s, FollowerRotate(k));
    SameKnown(s, t);
    WalShrinks(s, k);
    forall i | 0 <= i < |t.wire| ensures KnownMsg(t, t.wire[i]) { StillKnownMsg(s, t, s.wire[i]); }
  }

  lemma StepKeepsTraced(own: seq<Record>, s: State, e: Step)
    requires Traced(own, s) && Enabled(s, e)
    ensures Traced(own, Do(s, e))
  {
    hide Traced, Do;
    match e {
      case Write(r) => WriteKnown(own, s, r);
      case Fail(torn) => FailKnown(own, s, torn);
      case Rotate => RotateAllKnown(own, s);
      case ServeSnapshot => ServeSnapshotKnown(own, s);
      case ReadRecord => ReadKnown(own, s);
      case Deliver => DeliverKnown(own, s);
      case FollowerRotate(k) => FollowerRotateKnown(own, s, k);
      case Ack => AckKnown(own, s, e);
      case TakeCapture => AckKnown(own, s, e);
      case Abort => AckKnown(own, s, e);
      case _ => ConnKnown(own, s, e);
    }
  }

  lemma RotateAllKnown(own: seq<Record>, s: State)
    requires Traced(own, s) && Enabled(s, Rotate)
    ensures Traced(own, Do(s, Rotate))
  {
    hide LeaderKnown, WireKnown, FollowerOk, AllKnown, Remembers, CanRotate;
    RotateKnown(own, s, Do(s, Rotate));
    RestKnown(own, s, Do(s, Rotate));
  }

  lemma {:induction false} RunKeepsTraced(own: seq<Record>, s: State, es: seq<Step>)
    requires Traced(own, s) && Run(s, es)
    ensures Traced(own, StateAfter(s, es))
    decreases |es|
  {
    hide Traced, Enabled, Do;
    if es != [] {
      StepKeepsTraced(own, s, es[0]);
      RunKeepsTraced(own, Do(s, es[0]), es[1..]);
    }
  }

  lemma StartTraced(s: State)
    requires Start(s)
    ensures Traced(s.hist, s)
  {
    hide FollowerOk;
    forall i, j | 0 <= i < |s.files| && 0 <= j < |s.files[i].recs| ensures Known(s, s.files[i].recs[j]) {
      assert HoldsSlice(s.files[i], s.log);
    }
  }

  /**
   From any follower whatever and for every schedule whatever, each record the
   follower has applied is the leader's record of that number, a frame of a
   failed write that a rotation left in the log, or one it started with. So it
   is a prefix of the acknowledged log if and only if it has not gone past it
   and every stray and every record it started with is what the leader has.
   */
  lemma FollowerHoldsOnlyLeaderFrames(s: State, es: seq<Step>)
    requires Start(s) && Run(s, es)
    ensures var t := StateAfter(s, es);
            && Numbered(t.hist) && Abs(t.fmem) == Fold(map[], t.hist) && AllTraced(t, s.hist, t.hist) && t.acked <= |t.log|
            && (t.hist <= t.log[..t.acked] <==>
                  && |t.hist| <= t.acked
                  && forall i :: 0 <= i < |t.hist| && (t.hist[i] in t.strays || (i < |s.hist| && t.hist[i] == s.hist[i])) ==>
                       t.hist[i] == t.log[i])
  {
    hide Fold, Tidy, Abs, WireKnown, Start, AllTraced;
    StartTraced(s);
    RunKeepsTraced(s.hist, s, es);
    TracedPrefix(s.hist, StateAfter(s, es));
  }

  lemma TracedPrefix(own: seq<Record>, s: State)
    requires Numbered(s.hist) && AllTraced(s, own, s.hist) && s.acked <= |s.log|
    ensures s.hist <= s.log[..s.acked] <==>
              && |s.hist| <= s.acked
              && forall i :: 0 <= i < |s.hist| && (s.hist[i] in s.strays || (i < |own| && s.hist[i] == own[i])) ==>
                   s.hist[i] == s.log[i]
  {
  }

  /** The follower holds the first records acknowledged and nothing else, and its own log is empty. */
  ghost predicate Resynced(s: State) {
    && s.acked <= |s.log| && s.hist <= s.log[..s.acked] && s.wal == []
    && Abs(s.fmem) == Fold(map[], s.log[..|s.hist|])
  }

  /** And whenever it is handed a snapshot it is a prefix of the acknowledged log, whatever it held before. */
  lemma SnapshotHeals(s: State, es: seq<Step>)
    requires Start(s) && Run(s, es)
    ensures var t := StateAfter(s, es);
            t.wire != [] && t.wire[0].Snap? ==> Enabled(t, Deliver) && Resynced(Do(t, Deliver))
  {
    hide Fold, Tidy, Abs, AllTraced, ApplyOne, LiveOf, MetaOf, Start, AllKnown, Numbered;
    StartTraced(s);
    RunKeepsTraced(s.hist, s, es);
    var t := StateAfter(s, es);
    if t.wire != [] && t.wire[0].Snap? {
      assert KnownMsg(t, t.wire[0]);
      SnapshotInstalled(t.(wire := t.wire[1..]), t.wire[0]);
    }
  }

  // ---- A failed write that forks the follower ----

  /** The first record numbered past n in a log file, if the frames up to it are readable: what a stream at n sends next. */
  function NextAfter(rs: seq<Record>, n: nat): Option<Record> {
    if rs == [] || !Fits(rs[0]) then None else if rs[0].seqno > n then Some(rs[0]) else NextAfter(rs[1..], n)
  }

  lemma {:induction false} NextSkips(rs: seq<Record>, n: nat, k: nat)
    requires k <= |rs| && forall i :: 0 <= i < k ==> rs[i].seqno <= n
    ensures NextAfter(rs, n) == if AllFit(rs[..k]) then NextAfter(rs[k..], n) else None
    decreases k
  {
    if k > 0 {
      assert rs[..k] == [rs[0]] + rs[1..][..k - 1];
      assert AllFit(rs[..k]) <==> Fits(rs[0]) && AllFit(rs[1..][..k - 1]) by { FitCons(rs[0], rs[1..][..k - 1]); }
      assert rs[1..][k - 1..] == rs[k..];
      NextSkips(rs[1..], n, k - 1);
    }
  }

  lemma FitCons(r: Record, rs: seq<Record>)
    ensures AllFit([r] + rs) <==> Fits(r) && AllFit(rs)
  {
    var all := [r] + rs;
    assert AllFit(all) ==> Fits(all[0]);
    assert forall i :: 0 <= i < |rs| ==> all[i + 1] == rs[i];
  }

  /** What a stream past acked finds in a kept log tail followed by a. */
  lemma NextInTail(log: seq<Record>, at: nat, acked: nat, a: Record)
    requires Numbered(log) && at <= acked <= |log| && a.seqno == acked + 1 && AllFit(log[at..])
    ensures NextAfter(log[at..] + [a], acked) == Some(a) <==> Fits(a) && (acked == |log| || log[acked] == a)
  {
    var recs := log[at..] + [a];
    var k := acked - at;
    NextSkips(recs, acked, k);
    assert forall i :: 0 <= i < k ==> recs[..k][i] == log[at..][i];
    assert recs[k..][0] == recs[k] == if acked < |log| then log[acked] else a;
    assert acked < |log| ==> log[at..][k] == log[acked];
  }

  lemma RotateWriteAck(s: State, a: Record)
    requires FilesOk(s) && Enabled(s, Rotate) && a.seqno == s.acked + 1
    ensures Enabled(Do(s, Rotate), Write(a)) && Enabled(Do(Do(s, Rotate), Write(a)), Ack)
    ensures var t := Do(Do(Do(s, Rotate), Write(a)), Ack);
            && t.acked == s.acked + 1 && t.log == s.log[..s.acked] + [a] && t.files != []
            && t.files[Current(t)].recs == s.files[Current(s)].recs[s.pending.value.cut..] + [a]
  {
    hide HoldsSlice, Contiguous, AllFit;
  }

  /**
   After a rotation and the next acknowledged record, a stream of the new file
   hands out that record as number acked + 1 if and only if it is readable, and
   the rotation kept no whole frame of a failed write or the one it kept is the
   same record.
   */
  lemma RotationOverFailedWrite(s: State, a: Record)
    requires Inv(s) && Enabled(s, Rotate) && a.seqno == s.acked + 1
    ensures Enabled(Do(s, Rotate), Write(a)) && Enabled(Do(Do(s, Rotate), Write(a)), Ack)
    ensures var t := Do(Do(Do(s, Rotate), Write(a)), Ack);
            && t.acked == s.acked + 1 && t.log == s.log[..s.acked] + [a] && t.files != []
            && (NextAfter(t.files[Current(t)].recs, s.acked) == Some(a) <==>
                  Fits(a) && (s.acked == |s.log| || s.log[s.acked] == a))
  {
    hide FollowerOk, WireOk, StreamOk, Continuous, Do, NextAfter, Numbered;
    RotateWriteAck(s, a);
    var f := s.files[Current(s)];
    assert HoldsSlice(f, s.log);
    var at := s.pending.value.at;
    assert f.recs[s.pending.value.cut..] == s.log[at..];
    NextInTail(s.log, at, s.acked, a);
  }

  /** Reading on, a stream sends the next record past its number that its file holds. */
  lemma {:induction false} StreamSendsNext(s: State, r: Record) returns (es: seq<Step>)
    requires s.files != [] && s.conn.Streaming? && s.conn.st.fd < |s.files|
    requires s.conn.st.offset <= |s.files[s.conn.st.fd].recs|
    requires NextAfter(s.files[s.conn.st.fd].recs[s.conn.st.offset..], s.conn.st.fromSeq) == Some(r)
    ensures Run(s, es) && (forall i :: 0 <= i < |es| ==> es[i] == ReadRecord)
    ensures StateAfter(s, es).wire == s.wire + [Rec(r)]
    decreases |s.files[s.conn.st.fd].recs| - s.conn.st.offset
  {
    var st := s.conn.st;
    var recs := s.files[st.fd].recs;
    assert recs[st.offset..][1..] == recs[st.offset + 1..];
    var t := Do(s, ReadRecord);
    if recs[st.offset].seqno > st.fromSeq {
      RunNothing(t);
      RunStep(s, ReadRecord, []);
      es := [ReadRecord] + [];
    } else {
      var more := StreamSendsNext(t, r);
      RunStep(s, ReadRecord, more);
      es := [ReadRecord] + more;
    }
  }

  lemma {:induction false} RunAppend(s: State, es: seq<Step>, more: seq<Step>)
    requires Run(s, es) && Run(StateAfter(s, es), more)
    ensures Run(s, es + more) && StateAfter(s, es + more) == StateAfter(StateAfter(s, es), more)
    decreases |es|
  {
    hide Enabled, Do;
    if es == [] {
      assert es + more == more;
    } else {
      RunAppend(Do(s, es[0]), es[1..], more);
      assert (es + more)[1..] == es[1..] + more;
    }
  }

  /** A write whose frame lands but whose fsync fails; the stream hands it to the follower all the same. */
  ghost function Ahead(f: Record): seq<Step> {
    [TakeCapture] + ([Write(f)] + ([Fail(0)] + ([ReadRecord] + ([Deliver] + []))))
  }

  /** The snapshot under way rotates the log, and the next write gets the failed one's number. */
  ghost function Renumber(a: Record): seq<Step> {
    [Rotate] + ([Write(a)] + ([Ack] + []))
  }

  /** The stream moves to the new file, passes over two records and sends the third. */
  ghost function CarryOn(b: Record): seq<Step> {
    [ShortRead] + ([Reopen] + ([ReadRecord] + ([ReadRecord] + ([Write(b)] + ([Ack] + ([ReadRecord] + ([Deliver] + [])))))))
  }

  ghost predicate Quiet(s: State) {
    AtRest(s) && UpToDate(s) && s.wire == [] && s.hist == s.log && s.files[Current(s)].torn == 0
  }

  /** Reading and applying the next record. */
  lemma ReadAndDeliver(s: State, r: Record)
    requires s.files != [] && s.conn.Streaming? && s.conn.st.fd < |s.files| && s.wire == []
    requires s.conn.st.offset < |s.files[s.conn.st.fd].recs| && r == s.files[s.conn.st.fd].recs[s.conn.st.offset]
    requires s.conn.st.fromSeq == |s.hist| && r.seqno == |s.hist| + 1 && Fits(r)
    ensures Enabled(s, ReadRecord) && Enabled(Do(s, ReadRecord), Deliver)
    ensures Do(Do(s, ReadRecord), Deliver) ==
            s.(conn := Streaming(Stream(s.conn.st.fd, s.conn.st.offset + 1, r.seqno, false)),
               hist := s.hist + [r], fmem := ApplyOne(s.fmem, r), wal := s.wal + [r])
  {
    hide ApplyOne;
  }

  lemma FailedAttempt(s: State, f: Record)
    requires AtRest(s) && s.files[Current(s)].torn == 0 && f.seqno == |s.log| + 1
    ensures Enabled(s, TakeCapture) && Enabled(Do(s, TakeCapture), Write(f))
    ensures Enabled(Do(Do(s, TakeCapture), Write(f)), Fail(0))
    ensures Do(Do(Do(s, TakeCapture), Write(f)), Fail(0)) == AfterAttempt(s, f)
  {
  }

  ghost function AfterAttempt(s: State, f: Record): State
    requires s.files != []
  {
    var cur := s.files[Current(s)];
    s.(log := s.log + [f], failed := true, pending := Some(Capture(s.acked, |cur.recs|)),
       files := s.files[Current(s) := cur.(recs := cur.recs + [f])])
  }

  ghost function AfterAhead(s: State, f: Record): State
    requires Quiet(s)
  {
    AfterAttempt(s, f).(
      conn := Streaming(Stream(Current(s), s.conn.st.offset + 1, |s.log| + 1, false)),
      hist := s.hist + [f], fmem := ApplyOne(s.fmem, f), wal := s.wal + [f])
  }

  lemma FollowerGetsAhead(s: State, f: Record)
    requires Quiet(s) && f.seqno == |s.log| + 1 && Fits(f)
    ensures Run(s, Ahead(f)) && StateAfter(s, Ahead(f)) == AfterAhead(s, f)
  {
    hide Run, StateAfter, ApplyOne, Do, Enabled;
    FailedAttempt(s, f);
    var s1 := Do(s, TakeCapture);
    var s2 := Do(s1, Write(f));
    var s3 := Do(s2, Fail(0));
    ReadAndDeliver(s3, f);
    var s4 := Do(s3, ReadRecord);
    RunNothing(Do(s4, Deliver));
    RunStep(s4, Deliver, []);
    RunStep(s3, ReadRecord, [Deliver] + []);
    RunStep(s2, Fail(0), [ReadRecord] + ([Deliver] + []));
    RunStep(s1, Write(f), [Fail(0)] + ([ReadRecord] + ([Deliver] + [])));
    RunStep(s, TakeCapture, [Write(f)] + ([Fail(0)] + ([ReadRecord] + ([Deliver] + []))));
  }

  ghost function AfterRenumber(s: State, log: seq<Record>, f: Record, a: Record): State {
    s.(log := log + [a], acked := |log| + 1, failed := false, pending := None,
       snapSeq := |log|, strays := s.strays + {f}, files := s.files + [File(|log|, [f, a], 0)])
  }

  lemma RotateKeepsFrame(s: State, log: seq<Record>, recs: seq<Record>, f: Record)
    requires s.files != [] && s.failed && s.log == log + [f] && s.acked == |log|
    requires s.pending == Some(Capture(|log|, |recs|)) && s.files[Current(s)].recs == recs + [f] && Fits(f)
    ensures Enabled(s, Rotate)
    ensures Do(s, Rotate) == s.(log := log, failed := false, pending := None,
                                snapSeq := |log|, strays := s.strays + {f}, files := s.files + [File(|log|, [f], 0)])
  {
    assert s.log[..s.acked] == log && s.log[s.acked..] == [f];
    assert (set r | r in [f]) == {f};
  }

  lemma LeaderRenumbers(s: State, log: seq<Record>, recs: seq<Record>, f: Record, a: Record)
    requires s.files != [] && s.failed && s.log == log + [f] && s.acked == |log|
    requires s.pending == Some(Capture(|log|, |recs|)) && s.files[Current(s)].recs == recs + [f]
    requires a.seqno == |log| + 1 && Fits(f)
    ensures Run(s, Renumber(a)) && StateAfter(s, Renumber(a)) == AfterRenumber(s, log, f, a)
  {
    hide Run, StateAfter, Do, Enabled;
    RotateKeepsFrame(s, log, recs, f);
    var s1 := Do(s, Rotate);
    WriteAndAck(s1, a);
    var s2 := Do(s1, Write(a));
    assert [f] + [a] == [f, a];
    assert s1.files[Current(s1) := File(|log|, [f, a], 0)] == s.files + [File(|log|, [f, a], 0)];
    RunNothing(Do(s2, Ack));
    RunStep(s2, Ack, []);
    RunStep(s1, Write(a), [Ack] + []);
    RunStep(s, Rotate, [Write(a)] + ([Ack] + []));
  }

  lemma SkipTwo(s: State, f: Record, a: Record)
    requires s.files != [] && s.conn.Streaming? && s.conn.st.fd == Current(s) && s.conn.st.offset == 0
    requires s.files[Current(s)].recs == [f, a] && f.seqno <= s.conn.st.fromSeq && a.seqno <= s.conn.st.fromSeq
    requires Fits(f) && Fits(a)
    ensures Enabled(s, ReadRecord) && Enabled(Do(s, ReadRecord), ReadRecord)
    ensures Do(Do(s, ReadRecord), ReadRecord) == s.(conn := Streaming(Stream(Current(s), 2, s.conn.st.fromSeq, false)))
  {
  }

  /** The stream goes on past the number both records share, and the follower takes the record after it. */
  lemma FollowerCarriesOn(s: State, f: Record, a: Record, b: Record)
    requires AtRest(s) && s.wire == [] && s.conn.Streaming? && s.conn.st.fd < Current(s)
    requires s.conn.st.offset == |s.files[s.conn.st.fd].recs| && s.files[s.conn.st.fd].torn == 0
    requires s.files[Current(s)].recs == [f, a] && s.files[Current(s)].base + 1 == f.seqno == a.seqno == |s.log|
    requires s.conn.st.fromSeq == |s.hist| == |s.log| && b.seqno == |s.log| + 1 && Fits(f) && Fits(a) && Fits(b)
    ensures Run(s, CarryOn(b))
    ensures var t := StateAfter(s, CarryOn(b));
            t.hist == s.hist + [b] && t.log == s.log + [b] && t.acked == |t.log| && t.gap == s.gap
  {
    hide Run, StateAfter, Do, Enabled, ApplyOne;
    MoveToCurrent(s);
    var s1 := Do(s, ShortRead);
    var s2 := Do(s1, Reopen);
    SkipTwo(s2, f, a);
    var s3 := Do(s2, ReadRecord);
    var s4 := Do(s3, ReadRecord);
    WriteAndAck(s4, b);
    var s5 := Do(s4, Write(b));
    var s6 := Do(s5, Ack);
    ReadAndDeliver(s6, b);
    var s7 := Do(s6, ReadRecord);
    RunNothing(Do(s7, Deliver));
    RunStep(s7, Deliver, []);
    RunStep(s6, ReadRecord, [Deliver] + []);
    RunStep(s5, Ack, [ReadRecord] + ([Deliver] + []));
    RunStep(s4, Write(b), [Ack] + ([ReadRecord] + ([Deliver] + [])));
    RunStep(s3, ReadRecord, [Write(b)] + ([Ack] + ([ReadRecord] + ([Deliver] + []))));
    RunStep(s2, ReadRecord, [ReadRecord] + ([Write(b)] + ([Ack] + ([ReadRecord] + ([Deliver] + [])))));
    RunStep(s1, Reopen, [ReadRecord] + ([ReadRecord] + ([Write(b)] + ([Ack] + ([ReadRecord] + ([Deliver] + []))))));
    RunStep(s, ShortRead,
            [Reopen] + ([ReadRecord] + ([ReadRecord] + ([Write(b)] + ([Ack] + ([ReadRecord] + ([Deliver] + [])))))));
  }

  /**
   From any state at rest: one failed write and a rotation fork the follower.
   It holds the failed record where the leader has acknowledged another, takes
   everything after it, and nothing on the stream shows a gap.
   */
  lemma FailedWriteForks(s: State, f: Record, a: Record, b: Record)
    requires Quiet(s) && !s.gap && f.seqno == a.seqno == |s.log| + 1 && b.seqno == |s.log| + 2
    requires Fits(f) && Fits(a) && Fits(b)
    ensures Run(s, Ahead(f) + Renumber(a) + CarryOn(b))
    ensures var t := StateAfter(s, Ahead(f) + Renumber(a) + CarryOn(b));
            && t.hist == s.log + [f, b] && t.log == s.log + [a, b] && t.acked == |t.log| && !t.gap
            && (t.hist <= t.log <==> f == a)
  {
    hide Run, StateAfter, Ahead, Renumber, CarryOn, ApplyOne;
    FollowerGetsAhead(s, f);
    var s1 := AfterAhead(s, f);
    var recs := s.files[Current(s)].recs;
    LeaderRenumbers(s1, s.log, recs, f, a);
    RunAppend(s, Ahead(f), Renumber(a));
    var s2 := AfterRenumber(s1, s.log, f, a);
    FollowerCarriesOn(s2, f, a, b);
    RunAppend(s, Ahead(f) + Renumber(a), CarryOn(b));
    assert s.log + [f] + [b] == s.log + [f, b] && s.log + [a] + [b] == s.log + [a, b];
    assert (s.log + [f, b])[|s.log|] == f && (s.log + [a, b])[|s.log|] == a;
  }

  /** A refused follower waits, a snapshot is taken for it, and it installs that. */
  ghost function Resync(): seq<Step> {
    [Refuse] + ([TakeCapture] + ([ServeSnapshot] + ([Deliver] + [])))
  }

  /** Whatever it held, a refused follower of a leader at rest then holds the acknowledged log. */
  lemma RefusedIsResynced(s: State)
    requires AtRest(s) && s.conn.Hello? && s.wire == [] && Enabled(s, Refuse)
    ensures Run(s, Resync())
    ensures var t := StateAfter(s, Resync());
            t.hist == t.log == s.log && t.acked == |t.log| && t.wal == [] && t.conn == SnapshotSent(|s.log|)
  {
    hide Run, StateAfter, LiveOf, MetaOf, Fold, CanStream;
    var s1 := Do(s, Refuse);
    var s2 := Do(s1, TakeCapture);
    assert s2.files[Current(s2)].recs[|s2.files[Current(s2)].recs|..] == [];
    var s3 := Do(s2, ServeSnapshot);
    assert s.log[..s.acked] == s.log;
    RunNothing(Do(s3, Deliver));
    RunStep(s3, Deliver, []);
    RunStep(s2, ServeSnapshot, [Deliver] + []);
    RunStep(s1, TakeCapture, [ServeSnapshot] + ([Deliver] + []));
    RunStep(s, Refuse, [TakeCapture] + ([ServeSnapshot] + ([Deliver] + [])));
  }

  ghost function Redial(): seq<Step> {
    [Drop] + ([Dial] + [])
  }

  lemma Redials(s: State)
    requires s.files != []
    ensures Run(s, Redial())
    ensures StateAfter(s, Redial()) == s.(conn := Hello(|s.hist|, OwnSum(s)), wire := [], gap := false)
  {
    hide Run, StateAfter, Crc32, Payload;
    var s1 := Do(s, Drop);
    RunNothing(Do(s1, Dial));
    RunStep(s1, Dial, []);
    RunStep(s, Drop, [Dial] + []);
  }

  lemma OwnSumOfLast(s: State, wal: seq<Record>, f: Record)
    requires s.wal == wal + [f]
    ensures OwnSum(s) == Some(Crc32(Payload(f)))
  {
  }

  /**
   A follower forked by a failed write goes unnoticed when it reconnects, as long
   as the file still has the failed frame: its checksum is found there first.
   */
  lemma ForkGoesUnnoticed(s: State, f: Record, a: Record)
    requires Quiet(s) && f.seqno == a.seqno == |s.log| + 1 && Fits(f)
    ensures Run(s, Ahead(f) + Renumber(a) + Redial())
    ensures var t := StateAfter(s, Ahead(f) + Renumber(a) + Redial());
            t.hist == s.log + [f] && t.log == s.log + [a] && Enabled(t, Serve) && !Enabled(t, Refuse)
  {
    hide Run, StateAfter, Ahead, Renumber, Redial, ApplyOne, Crc32, Payload;
    FollowerGetsAhead(s, f);
    var s1 := AfterAhead(s, f);
    LeaderRenumbers(s1, s.log, s.files[Current(s)].recs, f, a);
    RunAppend(s, Ahead(f), Renumber(a));
    var s2 := AfterRenumber(s1, s.log, f, a);
    Redials(s2);
    RunAppend(s, Ahead(f) + Renumber(a), Redial());
    OwnSumOfLast(s2, s.wal, f);
  }

  ghost function SnapshotNow(): seq<Step> {
    [TakeCapture] + ([Rotate] + [])
  }

  /**
   After the next rotation the failed frame is gone from the file, so the forked
   follower is refused when it reconnects, and resynced: it then holds the record
   the leader acknowledged.
   */
  lemma ForkIsHealed(s: State, f: Record, a: Record)
    requires Quiet(s) && f.seqno == a.seqno == |s.log| + 1 && Fits(f)
    ensures var es := Ahead(f) + Renumber(a) + SnapshotNow() + Redial();
            && Run(s, es) && StateAfter(s, es).hist == s.log + [f]
            && Enabled(StateAfter(s, es), Refuse) && !Enabled(StateAfter(s, es), Serve)
            && Run(StateAfter(s, es), Resync())
            && var t := StateAfter(StateAfter(s, es), Resync()); t.hist == t.log == s.log + [a] && t.acked == |t.log|
  {
    hide Run, StateAfter, Ahead, Renumber, Redial, Resync, ApplyOne, OwnSum;
    FollowerGetsAhead(s, f);
    var s1 := AfterAhead(s, f);
    LeaderRenumbers(s1, s.log, s.files[Current(s)].recs, f, a);
    RunAppend(s, Ahead(f), Renumber(a));
    var s2 := AfterRenumber(s1, s.log, f, a);
    SnapshotAtRest(s2);
    var s3 := Do(Do(s2, TakeCapture), Rotate);
    RunNothing(s3);
    RunStep(Do(s2, TakeCapture), Rotate, []);
    RunStep(s2, TakeCapture, [Rotate] + []);
    RunAppend(s, Ahead(f) + Renumber(a), SnapshotNow());
    Redials(s3);
    RunAppend(s, Ahead(f) + Renumber(a) + SnapshotNow(), Redial());
    var s4 := s3.(conn := Hello(|s3.hist|, OwnSum(s3)), wire := [], gap := false);
    NothingHeld(s4);
    RefusedIsResynced(s4);
  }

  lemma NothingHeld(s: State)
    requires s.files != [] && s.conn.Hello? && s.conn.fromSeq > 0 && s.files[Current(s)].recs == []
    ensures !Enabled(s, Serve) && Enabled(s, Refuse)
  {
  }

  ghost function Fresh(): State {
    State([], 0, false, None, [File(0, [], 0)], 0, {}, Down, [], [], Mem(map[], map[]), [], false)
  }

  ghost function Connected(): State {
    Fresh().(conn := Streaming(Stream(0, 0, 0, false)))
  }

  lemma FreshConnects()
    ensures Enabled(Fresh(), Dial) && Enabled(Do(Fresh(), Dial), Serve)
    ensures Do(Do(Fresh(), Dial), Serve) == Connected()
  {
    hide SumAt;
  }

  lemma ConnectedIsQuiet()
    ensures Quiet(Connected()) && !Connected().gap && Connected().log == []
  {
  }

  /** A new leader and a new follower get to such a state by connecting. */
  lemma ForkIsReachable(f: Record, a: Record, b: Record) returns (es: seq<Step>)
    requires f.seqno == a.seqno == 1 && b.seqno == 2 && Fits(f) && Fits(a) && Fits(b)
    ensures Start(Fresh()) && Run(Fresh(), es)
    ensures var t := StateAfter(Fresh(), es); t.hist == [f, b] && t.log == [a, b] && t.acked == 2
  {
    hide Run, StateAfter, Do, Enabled, Start, Quiet, Fresh, Connected, Ahead, Renumber, CarryOn;
    FreshStarts();
    FreshConnects();
    ConnectedIsQuiet();
    var fork := Ahead(f) + Renumber(a) + CarryOn(b);
    FailedWriteForks(Connected(), f, a, b);
    RunStep(Do(Fresh(), Dial), Serve, fork);
    RunStep(Fresh(), Dial, [Serve] + fork);
    es := [Dial] + ([Serve] + fork);
    assert [] + [f, b] == [f, b] && [] + [a, b] == [a, b];
  }

  lemma FreshStarts()
    ensures Start(Fresh())
  {
    assert HoldsSlice(File(0, [], 0), []);
  }

  // ---- Frames that stall the stream ----

  /** The whole frame the stream is at exceeds the reader's bound. */
  ghost predicate AtOversized(s: State)
    requires s.conn.Streaming? && s.conn.st.fd < |s.files|
  {
    var recs := s.files[s.conn.st.fd].recs;
    s.conn.st.offset < |recs| && !Fits(recs[s.conn.st.offset])
  }

  /** The stream is at the end of a file whose torn frame has a whole header. */
  ghost predicate AtTorn(s: State)
    requires s.files != [] && s.conn.Streaming? && s.conn.st.fd < |s.files|
  {
    var f := s.files[s.conn.st.fd];
    s.conn.st.offset == |f.recs| && f.torn >= 8 && (s.conn.st.fd == Current(s) ==> s.failed)
  }

  /** The stream has a header it takes for a frame not written yet, and waits for the rest. */
  ghost predicate Stalled(s: State) {
    && s.files != [] && s.conn.Streaming? && !s.conn.st.drained && s.conn.st.fd < |s.files|
    && (AtOversized(s) || AtTorn(s))
  }

  /** Acknowledging one record past the reader's bound stalls every stream that is up to date. */
  lemma OversizedRecordStalls(s: State, r: Record)
    requires AtRest(s) && UpToDate(s) && !s.conn.st.drained && r.seqno == |s.log| + 1
    ensures Enabled(s, Write(r)) && Enabled(Do(s, Write(r)), Ack)
    ensures var t := Do(Do(s, Write(r)), Ack); t.acked == |s.log| + 1 && (Stalled(t) <==> !Fits(r))
  {
    hide Do, Enabled;
    WriteAndAck(s, r);
  }

  /**
   Whatever the leader does, a stalled stream stays where it is: it neither
   sends nor moves on to a later file until the connection ends.
   */
  lemma StalledStaysStalled(s: State, e: Step)
    requires Stalled(s) && Enabled(s, e)
    ensures var t := Do(s, e); t.conn == Down || (Stalled(t) && t.conn == s.conn && (t.wire == s.wire || e.Deliver?))
  {
    hide Do;
    StalledConn(s, e);
    if Do(s, e).conn != Down { StalledFile(s, e); }
  }

  lemma StalledConn(s: State, e: Step)
    requires Stalled(s) && Enabled(s, e)
    ensures var t := Do(s, e); t.conn == Down || (t.conn == s.conn && (t.wire == s.wire || e.Deliver?))
  {
    hide SumAt, CanRotate, ApplyOne;
  }

  /** What the stream has read and is at stays, and so does a torn end. */
  lemma StalledFile(s: State, e: Step)
    requires Stalled(s) && Enabled(s, e)
    ensures var t := Do(s, e); var fd := s.conn.st.fd;
            && |s.files| <= |t.files| && s.files[fd].recs <= t.files[fd].recs
            && (AtTorn(s) ==> t.files[fd] == s.files[fd] && (fd == |t.files| - 1 ==> t.failed))
  {
    hide SumAt, ApplyOne;
  }
}
