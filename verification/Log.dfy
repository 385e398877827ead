/**
 What the log means. The reference is a plain fold of records over a map from
 id to vector and metadata. The engine applies records in three other ways: a
 batched commit, the replay done on startup, and one record at a time on a
 replica. Each is proved equal to the fold.

 A metadata value is represented by its encoded form (the record's sidecar
 bytes), the empty string standing for "no metadata".
 */
module Log {
  import opened Bytes
  import opened Wal

  type Id = u64
  type Vec = seq<u32>
  type Blob = seq<byte>

  // ---- Reference ----

  datatype Entry = Entry(vector: Vec, meta: Blob)
  type Db = map<Id, Entry>

  function Apply(db: Db, r: Record): Db {
    match r.op
    case OpInsert => db[r.id := Entry(r.vector, r.extra)]
    case OpDelete => db - {r.id}
    case OpMeta => if r.id in db then db[r.id := db[r.id].(meta := r.extra)] else db
  }

  function Fold(db: Db, rs: seq<Record>): Db {
    if rs == [] then db else Apply(Fold(db, rs[..|rs| - 1]), rs[|rs| - 1])
  }

  lemma {:induction false} FoldAppend(db: Db, a: seq<Record>, b: seq<Record>)
    ensures Fold(db, a + b) == Fold(Fold(db, a), b)
    decreases |b|
  {
    if b == [] {
      assert a + b == a;
    } else {
      var n := |b| - 1;
      FoldAppend(db, a, b[..n]);
      assert (a + b)[..|a| + n] == a + b[..n];
    }
  }

  lemma FoldSnoc(db: Db, rs: seq<Record>, r: Record)
    ensures Fold(db, rs + [r]) == Apply(Fold(db, rs), r)
  {
    assert (rs + [r])[..|rs|] == rs;
  }

  // ---- The engine's memory: a vector index and a separate metadata map ----

  datatype Mem = Mem(live: map<Id, Vec>, meta: map<Id, Blob>)

  function Get(meta: map<Id, Blob>, id: Id): Blob {
    if id in meta then meta[id] else []
  }

  function Abs(m: Mem): Db {
    map id | id in m.live :: Entry(m.live[id], Get(m.meta, id))
  }

  ghost predicate Tidy(m: Mem) {
    m.meta.Keys <= m.live.Keys && forall id :: id in m.meta ==> m.meta[id] != []
  }

  function LiveOf(db: Db): map<Id, Vec> {
    map id | id in db :: db[id].vector
  }

  function MetaOf(db: Db): map<Id, Blob> {
    map id | id in db && db[id].meta != [] :: db[id].meta
  }

  /** Memory is determined by the database it stands for. */
  lemma AbsInjective(m: Mem)
    requires Tidy(m)
    ensures m.live == LiveOf(Abs(m)) && m.meta == MetaOf(Abs(m))
  {
  }

  lemma AbsOfParts(db: Db)
    ensures Tidy(Mem(LiveOf(db), MetaOf(db))) && Abs(Mem(LiveOf(db), MetaOf(db))) == db
  {
  }

  function SetMeta(meta: map<Id, Blob>, id: Id, md: Blob): map<Id, Blob> {
    if md == [] then meta - {id} else meta[id := md]
  }

  /** The metadata that travels with a record; a delete carries none. */
  function RecordMeta(r: Record): Blob {
    if r.op == OpDelete then [] else r.extra
  }

  // ---- The vector index ----

  function ApplyLive(live: map<Id, Vec>, r: Record): map<Id, Vec> {
    match r.op
    case OpInsert => live[r.id := r.vector]
    case OpDelete => live - {r.id}
    case OpMeta => live
  }

  function LiveAfter(live: map<Id, Vec>, rs: seq<Record>): map<Id, Vec> {
    if rs == [] then live else ApplyLive(LiveAfter(live, rs[..|rs| - 1]), rs[|rs| - 1])
  }

  lemma {:induction false} LiveIsFold(db: Db, rs: seq<Record>)
    ensures LiveAfter(LiveOf(db), rs) == LiveOf(Fold(db, rs))
    decreases |rs|
  {
    if rs != [] {
      LiveIsFold(db, rs[..|rs| - 1]);
    }
  }

  /** What one batch insert does to the index. */
  function InsertAll(live: map<Id, Vec>, ids: seq<Id>, vecs: seq<Vec>): map<Id, Vec>
    requires |ids| == |vecs|
  {
    if ids == [] then live
    else InsertAll(live, ids[..|ids| - 1], vecs[..|ids| - 1])[ids[|ids| - 1] := vecs[|ids| - 1]]
  }

  lemma InsertAllSnoc(live: map<Id, Vec>, ids: seq<Id>, vecs: seq<Vec>, id: Id, v: Vec)
    requires |ids| == |vecs|
    ensures InsertAll(live, ids + [id], vecs + [v]) == InsertAll(live, ids, vecs)[id := v]
  {
    assert (ids + [id])[..|ids|] == ids && (vecs + [v])[..|ids|] == vecs;
  }

  // ---- Way 1: batched commit ----

  /** The closing metadata pass, which tests the index as it is after the whole batch. */
  function MetaPass(live: map<Id, Vec>, meta: map<Id, Blob>, rs: seq<Record>): map<Id, Blob> {
    if rs == [] then meta
    else
      var before := MetaPass(live, meta, rs[..|rs| - 1]);
      var r := rs[|rs| - 1];
      if r.id in live || r.op == OpDelete then SetMeta(before, r.id, RecordMeta(r)) else before
  }

  function Commit(m: Mem, rs: seq<Record>): Mem {
    var live := LiveAfter(m.live, rs);
    Mem(live, MetaPass(live, m.meta, rs))
  }

  // ---- Way 2: replay on startup ----

  function ReplayMeta(meta: map<Id, Blob>, rs: seq<Record>): map<Id, Blob> {
    if rs == [] then meta
    else SetMeta(ReplayMeta(meta, rs[..|rs| - 1]), rs[|rs| - 1].id, RecordMeta(rs[|rs| - 1]))
  }

  function Keep(meta: map<Id, Blob>, live: map<Id, Vec>): map<Id, Blob> {
    map id | id in meta && id in live :: meta[id]
  }

  function Replay(live: map<Id, Vec>, meta: map<Id, Blob>, rs: seq<Record>): Mem {
    var after := LiveAfter(live, rs);
    Mem(after, Keep(ReplayMeta(meta, rs), after))
  }

  // ---- Way 3: one replicated record ----

  function ApplyOne(m: Mem, r: Record): Mem {
    match r.op
    case OpInsert => Mem(m.live[r.id := r.vector], SetMeta(m.meta, r.id, r.extra))
    case OpDelete => Mem(m.live - {r.id}, SetMeta(m.meta, r.id, []))
    case OpMeta => if r.id in m.live then Mem(m.live, SetMeta(m.meta, r.id, r.extra)) else m
  }

  lemma ApplyOneIsApply(m: Mem, r: Record)
    requires Tidy(m)
    ensures Tidy(ApplyOne(m, r)) && Abs(ApplyOne(m, r)) == Apply(Abs(m), r)
  {
  }

  // ---- Replay is the fold, even when the metadata file is newer than the index ----

  ghost predicate Touched(rs: seq<Record>, id: Id) {
    exists i :: 0 <= i < |rs| && rs[i].id == id
  }

  /** The last record to name an id settles its metadata; earlier state does not matter. */
  lemma {:induction false} LastTouchWins(db: Db, meta: map<Id, Blob>, rs: seq<Record>, id: Id)
    requires id in Fold(db, rs)
    ensures Touched(rs, id) ==> Get(ReplayMeta(meta, rs), id) == Fold(db, rs)[id].meta
    ensures !Touched(rs, id) ==> Get(ReplayMeta(meta, rs), id) == Get(meta, id) && id in db && Fold(db, rs)[id] == db[id]
    decreases |rs|
  {
    if rs != [] {
      var n := |rs| - 1;
      if rs[n].id != id {
        LastTouchWins(db, meta, rs[..n], id);
        if Touched(rs, id) {
          var i :| 0 <= i < |rs| && rs[i].id == id;
          assert rs[..n][i].id == id;
        }
        if Touched(rs[..n], id) {
          var i :| 0 <= i < n && rs[..n][i].id == id;
          assert rs[i].id == id;
        }
      }
    }
  }

  lemma {:induction false} ReplayMetaNonEmpty(meta: map<Id, Blob>, rs: seq<Record>)
    requires forall id :: id in meta ==> meta[id] != []
    ensures forall id :: id in ReplayMeta(meta, rs) ==> ReplayMeta(meta, rs)[id] != []
    decreases |rs|
  {
    if rs != [] {
      ReplayMetaNonEmpty(meta, rs[..|rs| - 1]);
    }
  }

  /**
   Startup from an index at some point of the log and a metadata file written
   up to j records later gives the fold, for every log and every j.
   */
  lemma ReplayIsFold(db: Db, rs: seq<Record>, j: nat)
    requires j <= |rs|
    ensures var m := Replay(LiveOf(db), MetaOf(Fold(db, rs[..j])), rs);
            Tidy(m) && Abs(m) == Fold(db, rs)
  {
    var newer := Fold(db, rs[..j]);
    var m := Replay(LiveOf(db), MetaOf(newer), rs);
    LiveIsFold(db, rs);
    ReplayMetaNonEmpty(MetaOf(newer), rs);
    forall id | id in Fold(db, rs)
      ensures Get(m.meta, id) == Fold(db, rs)[id].meta
    {
      LastTouchWins(db, MetaOf(newer), rs, id);
      if !Touched(rs, id) {
        UntouchedStays(db, rs, j, id);
      }
    }
    assert Abs(m) == Fold(db, rs);
  }

  lemma {:induction false} UntouchedStays(db: Db, rs: seq<Record>, j: nat, id: Id)
    requires j <= |rs| && id in db && !Touched(rs, id)
    ensures id in Fold(db, rs[..j]) && Fold(db, rs[..j])[id] == db[id]
    decreases j
  {
    if j > 0 {
      UntouchedStays(db, rs, j - 1, id);
      assert rs[..j][..j - 1] == rs[..j - 1];
    }
  }

  // ---- The batched commit is the fold ----

  lemma {:induction false} MetaPassOnLive(live: map<Id, Vec>, meta: map<Id, Blob>, rs: seq<Record>, id: Id)
    requires id in live
    ensures Get(MetaPass(live, meta, rs), id) == Get(ReplayMeta(meta, rs), id)
    decreases |rs|
  {
    if rs != [] {
      MetaPassOnLive(live, meta, rs[..|rs| - 1], id);
    }
  }

  ghost predicate Deleted(rs: seq<Record>, id: Id) {
    exists i :: 0 <= i < |rs| && rs[i].id == id && rs[i].op == OpDelete
  }

  lemma {:induction false} MetaPassOnDead(live: map<Id, Vec>, meta: map<Id, Blob>, rs: seq<Record>, id: Id)
    requires id !in live
    requires id !in meta || Deleted(rs, id)
    ensures id !in MetaPass(live, meta, rs)
    decreases |rs|
  {
    if rs != [] {
      var n := |rs| - 1;
      if !(rs[n].id == id && rs[n].op == OpDelete) {
        if Deleted(rs, id) {
          var i :| 0 <= i < |rs| && rs[i].id == id && rs[i].op == OpDelete;
          assert rs[..n][i].id == id;
        }
        MetaPassOnDead(live, meta, rs[..n], id);
      }
    }
  }

  lemma {:induction false} DyingNeedsDelete(live: map<Id, Vec>, rs: seq<Record>, id: Id)
    requires id in live && id !in LiveAfter(live, rs)
    ensures Deleted(rs, id)
    decreases |rs|
  {
    var n := |rs| - 1;
    if id in LiveAfter(live, rs[..n]) {
      assert rs[n].id == id;
    } else {
      DyingNeedsDelete(live, rs[..n], id);
      var i :| 0 <= i < n && rs[..n][i].id == id && rs[..n][i].op == OpDelete;
      assert rs[i].id == id;
    }
  }

  lemma {:induction false} MetaPassNonEmpty(live: map<Id, Vec>, meta: map<Id, Blob>, rs: seq<Record>)
    requires forall id :: id in meta ==> meta[id] != []
    ensures forall id :: id in MetaPass(live, meta, rs) ==> MetaPass(live, meta, rs)[id] != []
    decreases |rs|
  {
    if rs != [] {
      MetaPassNonEmpty(live, meta, rs[..|rs| - 1]);
    }
  }

  /** A group commit leaves exactly what applying its records one by one would. */
  lemma CommitIsFold(m: Mem, rs: seq<Record>)
    requires Tidy(m)
    ensures Tidy(Commit(m, rs)) && Abs(Commit(m, rs)) == Fold(Abs(m), rs)
  {
    AbsInjective(m);
    LiveIsFold(Abs(m), rs);
    var live := LiveAfter(m.live, rs);
    MetaPassNonEmpty(live, m.meta, rs);
    forall id | id !in live
      ensures id !in MetaPass(live, m.meta, rs)
    {
      if id in m.live { DyingNeedsDelete(m.live, rs, id); }
      MetaPassOnDead(live, m.meta, rs, id);
    }
    forall id | id in Fold(Abs(m), rs)
      ensures Get(MetaPass(live, m.meta, rs), id) == Fold(Abs(m), rs)[id].meta
    {
      MetaPassOnLive(live, m.meta, rs, id);
      LastTouchWins(Abs(m), m.meta, rs, id);
    }
  }

  /** All three ways of applying a log agree. */
  lemma ThreeWaysAgree(m: Mem, rs: seq<Record>)
    requires Tidy(m)
    ensures Commit(m, rs) == Replay(m.live, m.meta, rs)
    ensures rs != [] ==> Commit(m, rs) == ApplyOne(Commit(m, rs[..|rs| - 1]), rs[|rs| - 1])
  {
    AbsInjective(m);
    CommitIsFold(m, rs);
    ReplayIsFold(Abs(m), rs, 0);
    assert rs[..0] == [];
    AbsInjective(Commit(m, rs));
    AbsInjective(Replay(m.live, m.meta, rs));
    if rs != [] {
      var front := rs[..|rs| - 1];
      CommitIsFold(m, front);
      ApplyOneIsApply(Commit(m, front), rs[|rs| - 1]);
      AbsInjective(ApplyOne(Commit(m, front), rs[|rs| - 1]));
    }
  }

  // ---- The code ----

  class Engine {
    var live: map<Id, Vec>
    var metadata: map<Id, Blob>
    var seqno: nat

    function Memory(): Mem
      reads this
    {
      Mem(live, metadata)
    }

    constructor (live: map<Id, Vec>, metadata: map<Id, Blob>, seqno: nat)
      ensures Memory() == Mem(live, metadata) && this.seqno == seqno
    {
      this.live, this.metadata, this.seqno := live, metadata, seqno;
    }

    /** The index's batch insert, in order. */
    method InsertBatch(ids: seq<Id>, vecs: seq<Vec>)
      requires |ids| == |vecs|
      modifies this`live
      ensures live == InsertAll(old(live), ids, vecs)
    {
      for i := 0 to |ids|
        invariant live == InsertAll(old(live), ids[..i], vecs[..i])
      {
        InsertAllSnoc(old(live), ids[..i], vecs[..i], ids[i], vecs[i]);
        assert ids[..i + 1] == ids[..i] + [ids[i]] && vecs[..i + 1] == vecs[..i] + [vecs[i]];
        live := live[ids[i] := vecs[i]];
      }
      assert ids[..|ids|] == ids && vecs[..|ids|] == vecs;
    }

    /**
     Applies records to the index, queueing runs of inserts and flushing them
     before every delete and at the end.
     */
    method ApplyToIndex(rs: seq<Record>)
      modifies this`live
      ensures live == LiveAfter(old(live), rs)
    {
      var ids: seq<Id>, vecs: seq<Vec> := [], [];
      for i := 0 to |rs|
        invariant |ids| == |vecs|
        invariant InsertAll(live, ids, vecs) == LiveAfter(old(live), rs[..i])
      {
        var r := rs[i];
        assert rs[..i + 1][..i] == rs[..i];
        match r.op {
          case OpInsert =>
            InsertAllSnoc(live, ids, vecs, r.id, r.vector);
            ids, vecs := ids + [r.id], vecs + [r.vector];
          case OpDelete =>
            InsertBatch(ids, vecs);
            ids, vecs := [], [];
            live := live - {r.id};
          case OpMeta =>
        }
      }
      assert rs[..|rs|] == rs;
      InsertBatch(ids, vecs);
    }

    /** The in-memory half of a group commit, after its records are durable. */
    method CommitLocked(rs: seq<Record>)
      requires rs != [] && Tidy(Memory())
      modifies this
      ensures Memory() == Commit(old(Memory()), rs)
      ensures Tidy(Memory()) && Abs(Memory()) == Fold(old(Abs(Memory())), rs)
      ensures seqno == rs[|rs| - 1].seqno
    {
      CommitIsFold(Memory(), rs);
      ghost var before := metadata;
      ApplyToIndex(rs);
      for i := 0 to |rs|
        invariant live == LiveAfter(old(live), rs)
        invariant metadata == MetaPass(live, before, rs[..i])
      {
        assert rs[..i + 1][..i] == rs[..i];
        if rs[i].id in live || rs[i].op == OpDelete {
          metadata := SetMeta(metadata, rs[i].id, RecordMeta(rs[i]));
        }
      }
      assert rs[..|rs|] == rs;
      seqno := rs[|rs| - 1].seqno;
    }

    /** The replay loop of startup and its closing drop of non-live ids. */
    method ReplayAll(rs: seq<Record>)
      modifies this
      ensures Memory() == Replay(old(live), old(metadata), rs)
      ensures seqno == if rs == [] then old(seqno) else rs[|rs| - 1].seqno
    {
      ghost var before := metadata;
      var ids: seq<Id>, vecs: seq<Vec> := [], [];
      for i := 0 to |rs|
        invariant |ids| == |vecs|
        invariant InsertAll(live, ids, vecs) == LiveAfter(old(live), rs[..i])
        invariant metadata == ReplayMeta(before, rs[..i])
        invariant seqno == if i == 0 then old(seqno) else rs[i - 1].seqno
      {
        var r := rs[i];
        assert rs[..i + 1][..i] == rs[..i];
        match r.op {
          case OpInsert =>
            InsertAllSnoc(live, ids, vecs, r.id, r.vector);
            ids, vecs := ids + [r.id], vecs + [r.vector];
            metadata := SetMeta(metadata, r.id, r.extra);
          case OpDelete =>
            InsertBatch(ids, vecs);
            ids, vecs := [], [];
            live := live - {r.id};
            metadata := metadata - {r.id};
          case OpMeta =>
            metadata := SetMeta(metadata, r.id, r.extra);
        }
        seqno := r.seqno;
      }
      assert rs[..|rs|] == rs;
      InsertBatch(ids, vecs);
      metadata := Keep(metadata, live);
    }

    /** A replica applying one streamed record. */
    method ApplyReplicated(r: Record)
      requires Tidy(Memory())
      modifies this
      ensures Memory() == ApplyOne(old(Memory()), r)
      ensures Tidy(Memory()) && Abs(Memory()) == Apply(old(Abs(Memory())), r)
      ensures seqno == r.seqno
    {
      ApplyOneIsApply(Memory(), r);
      match r.op {
        case OpInsert =>
          live := live[r.id := r.vector];
          metadata := SetMeta(metadata, r.id, r.extra);
        case OpDelete =>
          live := live - {r.id};
          metadata := SetMeta(metadata, r.id, []);
        case OpMeta =>
          if r.id in live { metadata := SetMeta(metadata, r.id, r.extra); }
      }
      seqno := r.seqno;
    }
  }
}
