/**
 The write-ahead log: record codec, frames, crash recovery and the writer.
 */
module Wal {
  import opened Bytes

  const MAX_RECORD_LEN: nat := 0x1000_0000        // 256 MiB
  const MAX_CORRUPTION_SCAN: nat := 0x400_0000    // 64 MiB

  datatype Op = OpInsert | OpDelete | OpMeta

  function OpCode(op: Op): byte {
    match op
    case OpInsert => 1
    case OpDelete => 2
    case OpMeta => 3
  }

  function OpOf(b: byte): Option<Op> {
    if b == 1 then Some(OpInsert)
    else if b == 2 then Some(OpDelete)
    else if b == 3 then Some(OpMeta)
    else None
  }

  /** vector holds float bit patterns; extra is the opaque sidecar payload. */
  datatype Record = Record(seqno: u64, op: Op, id: u64, vector: seq<u32>, extra: seq<byte>)

  // ---- Payload and frame formats ----

  function Payload(r: Record): (b: seq<byte>)
    ensures |b| == 25 + 4 * |r.vector| + |r.extra|
  {
    LE(r.seqno, 8) + [OpCode(r.op)] + LE(r.id, 8) + Put32(|r.vector|) + Words(r.vector)
    + Put32(|r.extra|) + r.extra
  }

  function EncodeRecord(r: Record): (b: seq<byte>)
    ensures |b| == 33 + 4 * |r.vector| + |r.extra|
  {
    Put32(4 + |Payload(r)|) + Put32(Crc32(Payload(r))) + Payload(r)
  }

  function DecodePayload(p: seq<byte>): Option<Record> {
    if |p| < 21 || OpOf(p[8]) == None then None
    else
      Widths();
      var dim := FromLE(p[17..21]);
      var off := 21 + 4 * dim;
      if |p| < off + 4 then None
      else
        var extraLen := FromLE(p[off..off + 4]);
        if |p| != off + 4 + extraLen then None
        else Some(Record(FromLE(p[0..8]), OpOf(p[8]).value, FromLE(p[9..17]), FromWords(p[21..off]), p[off + 4..]))
  }

  /** The size bound the reader enforces and the encoder does not. */
  predicate Fits(r: Record) {
    29 + 4 * |r.vector| + |r.extra| <= MAX_RECORD_LEN
  }

  datatype FrameRead = Eof | Bad | Frame(rec: Record, size: nat)

  /** Bad covers both a short read and a frame that fails its checks. */
  function ReadFrame(s: seq<byte>): (f: FrameRead)
    ensures f.Frame? ==> 8 <= f.size <= |s|
  {
    if s == [] then Eof
    else if |s| < 8 then Bad
    else
      var length := FromLE(s[0..4]);
      if length < 4 || length > MAX_RECORD_LEN || |s| < 4 + length then Bad
      else
        var payload := s[8..4 + length];
        if Crc32(payload) != FromLE(s[4..8]) then Bad
        else match DecodePayload(payload)
          case None => Bad
          case Some(rec) => Frame(rec, 4 + length)
  }

  // ---- Codec theorems ----

  lemma PayloadFields(r: Record)
    ensures var p := Payload(r); var off := 21 + 4 * |r.vector|;
            && p[0..8] == LE(r.seqno, 8) && p[8] == OpCode(r.op) && p[9..17] == LE(r.id, 8)
            && p[17..21] == Put32(|r.vector|) && p[21..off] == Words(r.vector)
            && p[off..off + 4] == Put32(|r.extra|) && p[off + 4..] == r.extra
  {
    hide LE, Put32, Words, OpCode;
    Concat7(LE(r.seqno, 8), [OpCode(r.op)], LE(r.id, 8), Put32(|r.vector|), Words(r.vector), Put32(|r.extra|), r.extra);
  }

  /** The i-th byte of a number, counted from the low end. */
  function Digit(n: nat, i: nat): byte {
    n / Pow256(i) % 256
  }

  /** The format byte by byte: little-endian number, operation, id and dimension, then the words, then the sidecar. */
  lemma PayloadLayout(r: Record, i: nat)
    ensures var p := Payload(r); p[8] == match r.op { case OpInsert => 1 case OpDelete => 2 case OpMeta => 3 }
    ensures i < 8 ==> var p := Payload(r); p[i] == Digit(r.seqno, i) && p[9 + i] == Digit(r.id, i)
    ensures i < 4 ==> Payload(r)[17 + i] == Digit(|r.vector| % U32, i)
    ensures forall j :: 0 <= j < |r.vector| && i < 4 ==> Payload(r)[21 + 4 * j + i] == Digit(r.vector[j], i)
    ensures i < 4 ==> Payload(r)[21 + 4 * |r.vector| + i] == Digit(|r.extra| % U32, i)
    ensures i < |r.extra| ==> Payload(r)[25 + 4 * |r.vector| + i] == r.extra[i]
  {
    hide LE, Words, Pow256, Payload, Digit, FromLE, EncodeRecord;
    var p, off := Payload(r), 21 + 4 * |r.vector|;
    PayloadFields(r);
    if i < 8 {
      DigitAt(p, 0, r.seqno, 8, i);
      DigitAt(p, 9, r.id, 8, i);
    }
    if i < 4 {
      DigitAt(p, 17, |r.vector| % U32, 4, i);
      DigitAt(p, off, |r.extra| % U32, 4, i);
      forall j | 0 <= j < |r.vector| ensures p[21 + 4 * j + i] == Digit(r.vector[j], i) { WordDigit(p, r.vector, j, i); }
    }
    if i < |r.extra| { assert p[off + 4 + i] == p[off + 4..][i]; }
  }

  lemma WordDigit(p: seq<byte>, v: seq<u32>, j: nat, i: nat)
    requires j < |v| && i < 4 && 21 + 4 * |v| <= |p| && p[21..21 + 4 * |v|] == Words(v)
    ensures p[21 + 4 * j + i] == Digit(v[j], i)
  {
    hide LE, Words, Digit, Put32, Pow256;
    var w := Words(v);
    WordsAt(v, j);
    Put32Whole(v[j]);
    DigitAt(w, 4 * j, v[j], 4, i);
    SliceAt(p, 21, |w|, 4 * j + i);
  }

  lemma SliceAt(p: seq<byte>, at: nat, n: nat, k: nat)
    requires at + n <= |p| && k < n
    ensures p[at..at + n][k] == p[at + k]
  {
  }

  lemma DigitAt(p: seq<byte>, off: nat, n: nat, k: nat, i: nat)
    requires i < k && off + k <= |p| && p[off..off + k] == LE(n, k)
    ensures p[off + i] == Digit(n, i)
  {
    hide LE, Pow256;
    LEAt(n, k, i);
    assert p[off + i] == p[off..off + k][i];
  }

  lemma Concat7<T>(a: seq<T>, b: seq<T>, c: seq<T>, d: seq<T>, e: seq<T>, f: seq<T>, g: seq<T>)
    ensures var s := a + b + c + d + e + f + g;
            var i := |a|; var j := i + |b|; var k := j + |c|; var l := k + |d|; var m := l + |e|; var n := m + |f|;
            && s[..i] == a && s[i..j] == b && s[j..k] == c && s[k..l] == d && s[l..m] == e && s[m..n] == f && s[n..] == g
  {
  }

  lemma Join7<T>(s: seq<T>, i: nat, j: nat, k: nat, l: nat, m: nat, n: nat)
    requires i <= j <= k <= l <= m <= n <= |s|
    ensures s == s[0..i] + s[i..j] + s[j..k] + s[k..l] + s[l..m] + s[m..n] + s[n..]
  {
    var a, b := s[..l], s[l..];
    Join4(a, i, j, k);
    Join4(b, 0, m - l, n - l);
    assert a[0..i] == s[0..i] && a[i..j] == s[i..j] && a[j..k] == s[j..k] && a[k..] == s[k..l];
    assert b[0..m - l] == s[l..m] && b[m - l..n - l] == s[m..n] && b[n - l..] == s[n..];
    assert s == a + b;
  }

  lemma Join4<T>(s: seq<T>, i: nat, j: nat, k: nat)
    requires i <= j <= k <= |s|
    ensures s == s[0..i] + s[i..j] + s[j..k] + s[k..]
  {
  }

  /** A payload within the size bound decodes back to its record. */
  lemma DecodeEncode(r: Record)
    requires Fits(r)
    ensures DecodePayload(Payload(r)) == Some(r)
  {
    hide FromLE, LE, Words, FromWords, Put32, Payload;
    PayloadFields(r);
    Put64RoundTrip(r.seqno);
    Put64RoundTrip(r.id);
    Put32RoundTrip(|r.vector|);
    Put32RoundTrip(|r.extra|);
    WordsRoundTrip(r.vector);
  }

  /** Whatever decodes was laid out by the encoder: the format is canonical. */
  lemma EncodeDecode(p: seq<byte>)
    requires DecodePayload(p).Some?
    requires |p| <= MAX_RECORD_LEN
    ensures Payload(DecodePayload(p).value) == p
  {
    hide FromLE, LE, Words, FromWords, Put32;
    var dim := FromLE(p[17..21]);
    var off := 21 + 4 * dim;
    Get64RoundTrip(p[0..8]);
    Get64RoundTrip(p[9..17]);
    Get32RoundTrip(p[17..21]);
    Get32RoundTrip(p[off..off + 4]);
    FromWordsRoundTrip(p[21..off]);
    var r := DecodePayload(p).value;
    assert [OpCode(r.op)] == p[8..9];
    Join7(p, 8, 9, 17, 21, off, off + 4);
  }

  lemma FrameFields(r: Record, rest: seq<byte>)
    ensures var s := EncodeRecord(r) + rest; var n := |Payload(r)|;
            && s[0..4] == Put32(4 + n) && s[4..8] == Put32(Crc32(Payload(r))) && s[8..8 + n] == Payload(r)
  {
    hide Put32, Payload, Crc32;
  }

  /** One wrong byte past the length field, in the checksum or in the payload, and the frame is not read. */
  lemma WrongByteIsCaught(r: Record, rest: seq<byte>, i: nat, x: byte)
    requires Fits(r) && 4 <= i < |EncodeRecord(r)| && EncodeRecord(r)[i] != x
    ensures ReadFrame(EncodeRecord(r)[i := x] + rest) == Bad
  {
    hide FromLE, Put32, Payload, EncodeRecord, Crc32, DecodePayload;
    var f, s := EncodeRecord(r) + rest, EncodeRecord(r)[i := x] + rest;
    var n := |Payload(r)|;
    FrameFields(r, rest);
    Put32RoundTrip(4 + n);
    Put32RoundTrip(Crc32(Payload(r)));
    assert s[0..4] == f[0..4];
    if i < 8 {
      assert s[8..8 + n] == f[8..8 + n];
      assert s[4..8][i - 4] == x && f[4..8][i - 4] != x;
      Get32RoundTrip(s[4..8]);
    } else {
      assert s[4..8] == f[4..8];
      assert f[8..8 + n][i - 8] == EncodeRecord(r)[i];
      assert s[8..8 + n] == Payload(r)[i - 8 := x];
      OneByteChangesTheSum(Payload(r), i - 8, x);
    }
  }

  /** A frame reads back as its record exactly when it is within the size bound. */
  lemma FrameRoundTrip(r: Record, rest: seq<byte>)
    ensures ReadFrame(EncodeRecord(r) + rest) == Frame(r, |EncodeRecord(r)|) <==> Fits(r)
  {
    hide FromLE, Put32, Payload, EncodeRecord, Crc32, DecodePayload;
    FrameFields(r, rest);
    Put32RoundTrip(4 + |Payload(r)|);
    Put32RoundTrip(Crc32(Payload(r)));
    if Fits(r) {
      DecodeEncode(r);
    }
  }

  /** Every byte string that reads as a frame starts with that record's encoding. */
  lemma FrameCanonical(s: seq<byte>)
    requires ReadFrame(s).Frame?
    ensures var f := ReadFrame(s); Fits(f.rec) && f.size == |EncodeRecord(f.rec)| && s[..f.size] == EncodeRecord(f.rec)
  {
    hide FromLE, Put32, Payload, Crc32, DecodePayload;
    var length := FromLE(s[0..4]);
    var payload := s[8..4 + length];
    EncodeDecode(payload);
    Get32RoundTrip(s[0..4]);
    Get32RoundTrip(s[4..8]);
    assert s[..4 + length] == s[0..4] + s[4..8] + payload;
  }

  lemma ReadEmpty()
    ensures ReadFrame([]) == Eof
  {
  }

  /** A torn write is never mistaken for a whole frame. */
  lemma StrictPrefixIsBad(r: Record, k: nat)
    requires Fits(r)
    requires 0 < k < |EncodeRecord(r)|
    ensures ReadFrame(EncodeRecord(r)[..k]) == Bad
  {
    hide FromLE, Put32, Payload, EncodeRecord, Crc32, DecodePayload;
    if 8 <= k {
      FrameFields(r, []);
      assert EncodeRecord(r) + [] == EncodeRecord(r);
      assert EncodeRecord(r)[..k][0..4] == EncodeRecord(r)[0..4];
      Put32RoundTrip(4 + |Payload(r)|);
    }
  }

  // ---- The log as a sequence of frames ----

  function EncodeAll(rs: seq<Record>): (b: seq<byte>) {
    if rs == [] then [] else EncodeRecord(rs[0]) + EncodeAll(rs[1..])
  }

  lemma {:induction false} EncodeAllAppend(a: seq<Record>, b: seq<Record>)
    ensures EncodeAll(a + b) == EncodeAll(a) + EncodeAll(b)
  {
    hide EncodeRecord, EncodeAll;
    if a == [] {
      assert a + b == b;
      EncodeNone(a);
      assert a[..0] == a && [] + EncodeAll(b) == EncodeAll(b);
    } else {
      EncodeAllHead(a);
      EncodeAllHead(a + b);
      EncodeAllAppend(a[1..], b);
      assert (a + b)[1..] == a[1..] + b;
      Assoc(EncodeRecord(a[0]), EncodeAll(a[1..]), EncodeAll(b));
    }
  }

  lemma EncodeAllHead(rs: seq<Record>)
    requires rs != []
    ensures EncodeAll(rs) == EncodeRecord(rs[0]) + EncodeAll(rs[1..])
  {
  }

  lemma Assoc<T>(a: seq<T>, b: seq<T>, c: seq<T>)
    ensures a + b + c == a + (b + c)
  {
  }

  lemma EncodeNone(rs: seq<Record>)
    ensures EncodeAll(rs[..0]) == []
  {
  }

  lemma EncodeAllSnoc(a: seq<Record>, r: Record)
    ensures EncodeAll(a + [r]) == EncodeAll(a) + EncodeRecord(r)
  {
    hide EncodeRecord;
    EncodeAllAppend(a, [r]);
    assert EncodeAll([r]) == EncodeRecord(r) + EncodeAll([]);
  }

  predicate AllFit(rs: seq<Record>) {
    forall i :: 0 <= i < |rs| ==> Fits(rs[i])
  }

  /** The sequence check of recovery: nothing is compared while lastSeq is 0. */
  predicate Chain(lastSeq: nat, rs: seq<Record>)
    decreases |rs|
  {
    rs == [] || ((lastSeq == 0 || rs[0].seqno == lastSeq + 1) && Chain(rs[0].seqno, rs[1..]))
  }

  function LastSeq(lastSeq: nat, rs: seq<Record>): nat {
    if rs == [] then lastSeq else rs[|rs| - 1].seqno
  }

  // ---- Recovery ----

  datatype Recovery =
    | Recovered(records: seq<Record>, validBytes: nat)
    | CorruptMidLog
    | InvalidSequence

  ghost predicate FrameAt(s: seq<byte>, i: int, lastSeq: nat) {
    0 <= i < |s| && ReadFrame(s[i..]).Frame? && ReadFrame(s[i..]).rec.seqno > lastSeq
  }

  /** s starts at a bad frame; is there a good, newer frame at a later offset? */
  ghost predicate ValidFrameAfter(s: seq<byte>, lastSeq: nat) {
    |s| > 1 + MAX_CORRUPTION_SCAN || exists i :: 1 <= i < |s| && FrameAt(s, i, lastSeq)
  }

  function Prepend(rs: seq<Record>, n: nat, r: Recovery): Recovery {
    match r
    case Recovered(more, bytes) => Recovered(rs + more, n + bytes)
    case _ => r
  }

  /** What recovery makes of the log bytes s when the last record before s had number lastSeq. */
  ghost function Scan(s: seq<byte>, lastSeq: nat): Recovery
    decreases |s|
  {
    match ReadFrame(s)
    case Eof => Recovered([], 0)
    case Bad => if ValidFrameAfter(s, lastSeq) then CorruptMidLog else Recovered([], 0)
    case Frame(rec, size) =>
      if lastSeq != 0 && rec.seqno != lastSeq + 1 then InvalidSequence
      else Prepend([rec], size, Scan(s[size..], rec.seqno))
  }

  lemma {:induction false} ScanWholeFrames(rs: seq<Record>, lastSeq: nat, tail: seq<byte>)
    requires AllFit(rs) && Chain(lastSeq, rs)
    ensures Scan(EncodeAll(rs) + tail, lastSeq) == Prepend(rs, |EncodeAll(rs)|, Scan(tail, LastSeq(lastSeq, rs)))
  {
    hide EncodeRecord, ReadFrame, ValidFrameAfter, Prepend;
    if rs == [] {
      assert EncodeAll(rs) + tail == tail;
      PrependNothing(Scan(tail, lastSeq));
    } else {
      var rest := EncodeAll(rs[1..]) + tail;
      var size := |EncodeRecord(rs[0])|;
      Assoc(EncodeRecord(rs[0]), EncodeAll(rs[1..]), tail);
      assert (EncodeRecord(rs[0]) + rest)[size..] == rest;
      FrameRoundTrip(rs[0], rest);
      ScanWholeFrames(rs[1..], rs[0].seqno, tail);
      PrependTwice([rs[0]], size, rs[1..], |EncodeAll(rs[1..])|, Scan(tail, LastSeq(lastSeq, rs)));
      assert [rs[0]] + rs[1..] == rs;
    }
  }

  lemma PrependNothing(r: Recovery)
    ensures Prepend([], 0, r) == r
  {
    match r {
      case Recovered(more, n) => assert [] + more == more;
      case _ =>
    }
  }

  lemma PrependTwice(a: seq<Record>, m: nat, b: seq<Record>, n: nat, r: Recovery)
    ensures Prepend(a, m, Prepend(b, n, r)) == Prepend(a + b, m + n, r)
  {
    match r {
      case Recovered(more, k) => Assoc(a, b, more);
      case _ =>
    }
  }

  /**
   Recovery of a crashed log. The file holds whole frames and then a strict
   prefix of one more. Recovery delivers exactly the whole frames, ending where
   they end, unless the torn bytes themselves contain a newer valid frame or are
   longer than the scan window; in those cases, and only then, it refuses.
   */
  lemma RecoverTornLog(rs: seq<Record>, lastSeq: nat, next: Record, k: nat)
    requires AllFit(rs) && Chain(lastSeq, rs) && Fits(next)
    requires k < |EncodeRecord(next)|
    ensures var torn := EncodeRecord(next)[..k];
            Scan(EncodeAll(rs) + torn, lastSeq) ==
            if torn != [] && ValidFrameAfter(torn, LastSeq(lastSeq, rs)) then CorruptMidLog
            else Recovered(rs, |EncodeAll(rs)|)
  {
    hide EncodeRecord, ReadFrame, ValidFrameAfter;
    var torn := EncodeRecord(next)[..k];
    ScanWholeFrames(rs, lastSeq, torn);
    if torn == [] {
      ReadEmpty();
    } else {
      StrictPrefixIsBad(next, k);
    }
    assert rs + [] == rs;
  }

  /** A readable frame starting past offset n whose number is over last. */
  ghost predicate NewerFrameBeyond(s: seq<byte>, n: nat, last: nat) {
    exists i :: n < i < |s| && ReadFrame(s[i..]).Frame? && ReadFrame(s[i..]).rec.seqno > last
  }

  lemma BeyondShifts(s: seq<byte>, size: nat, n: nat, last: nat)
    requires size <= |s|
    ensures NewerFrameBeyond(s[size..], n, last) <==> NewerFrameBeyond(s, size + n, last)
  {
    hide ReadFrame;
    if NewerFrameBeyond(s[size..], n, last) {
      var i :| n < i < |s[size..]| && ReadFrame(s[size..][i..]).Frame? && ReadFrame(s[size..][i..]).rec.seqno > last;
      assert s[size..][i..] == s[size + i..];
    }
    if NewerFrameBeyond(s, size + n, last) {
      var i :| size + n < i < |s| && ReadFrame(s[i..]).Frame? && ReadFrame(s[i..]).rec.seqno > last;
      assert s[size..][i - size..] == s[i..];
    }
  }

  lemma AtStart(s: seq<byte>, last: nat)
    ensures ValidFrameAfter(s, last) <==> |s| > 1 + 0x400_0000 || NewerFrameBeyond(s, 0, last)
  {
    hide ReadFrame;
    if exists i :: 1 <= i < |s| && FrameAt(s, i, last) {
      var i :| 1 <= i < |s| && FrameAt(s, i, last);
      assert ReadFrame(s[i..]).Frame?;
    }
    if NewerFrameBeyond(s, 0, last) {
      var i :| 0 < i < |s| && ReadFrame(s[i..]).Frame? && ReadFrame(s[i..]).rec.seqno > last;
      assert FrameAt(s, i, last);
    }
  }

  /** How a log read up to offset n, with last the number before it, comes out. */
  ghost predicate StopsAt(s: seq<byte>, n: nat, last: nat, r: Recovery) {
    && n <= |s|
    && match r
       case Recovered(_, _) =>
         n == |s| || (ReadFrame(s[n..]).Bad? && |s| - n <= 1 + 0x400_0000 && !NewerFrameBeyond(s, n, last))
       case CorruptMidLog => ReadFrame(s[n..]).Bad? && (|s| - n > 1 + 0x400_0000 || NewerFrameBeyond(s, n, last))
       case InvalidSequence => ReadFrame(s[n..]).Frame? && last != 0 && ReadFrame(s[n..]).rec.seqno != last + 1
  }

  /**
   For every byte string: recovery reads whole frames with consecutive numbers
   from the start and stops at the end of the bytes, or at bytes that are no
   frame, or at a frame out of sequence. It refuses in the last case. At bytes
   that are no frame it refuses if more than 64 MiB follow or a newer frame can be
   read further on, and otherwise accepts what it has read.
   */
  lemma {:induction false} ScanStops(s: seq<byte>, lastSeq: nat) returns (rs: seq<Record>, n: nat)
    ensures n <= |s| && s[..n] == EncodeAll(rs) && AllFit(rs) && Chain(lastSeq, rs)
    ensures StopsAt(s, n, LastSeq(lastSeq, rs), Scan(s, lastSeq))
    ensures Scan(s, lastSeq).Recovered? ==> Scan(s, lastSeq) == Recovered(rs, n)
    decreases |s|
  {
    hide EncodeRecord, ReadFrame, ValidFrameAfter, StopsAt;
    rs, n := [], 0;
    match ReadFrame(s) {
      case Eof =>
        EofIsEmpty(s);
        StopsHere(s, lastSeq);
      case Bad => StopsHere(s, lastSeq);
      case Frame(rec, size) =>
        if lastSeq != 0 && rec.seqno != lastSeq + 1 {
          StopsHere(s, lastSeq);
        } else {
          var more, k := ScanStops(s[size..], rec.seqno);
          rs, n := [rec] + more, size + k;
          FrameThenLog(s, rec, size, more, k);
          StopsLater(s, size, k, LastSeq(rec.seqno, more), Scan(s[size..], rec.seqno), Scan(s, lastSeq));
        }
    }
  }

  lemma StopsHere(s: seq<byte>, lastSeq: nat)
    requires s == [] || ReadFrame(s).Bad? || (ReadFrame(s).Frame? && lastSeq != 0 && ReadFrame(s).rec.seqno != lastSeq + 1)
    ensures StopsAt(s, 0, lastSeq, Scan(s, lastSeq))
  {
    hide ReadFrame, ValidFrameAfter, NewerFrameBeyond;
    assert s[0..] == s;
    AtStart(s, lastSeq);
    if s == [] { ReadEmpty(); }
  }

  lemma StopsLater(s: seq<byte>, size: nat, k: nat, last: nat, r: Recovery, all: Recovery)
    requires size <= |s| && StopsAt(s[size..], k, last, r)
    requires r.Recovered? <==> all.Recovered?
    requires r.CorruptMidLog? <==> all.CorruptMidLog?
    ensures StopsAt(s, size + k, last, all)
  {
    hide ReadFrame, NewerFrameBeyond;
    assert s[size..][k..] == s[size + k..];
    BeyondShifts(s, size, k, last);
  }

  /**
   For every byte string: recovery accepts exactly a chain of whole frames and
   never cuts a newer frame away. No readable frame with a newer number starts
   at or after validBytes.
   */
  lemma RecoverNeverDropsAFrame(s: seq<byte>, lastSeq: nat)
    requires Scan(s, lastSeq).Recovered?
    ensures var Recovered(rs, n) := Scan(s, lastSeq);
            && n <= |s| && s[..n] == EncodeAll(rs) && AllFit(rs) && Chain(lastSeq, rs)
            && (forall i :: n <= i < |s| ==> !FrameAt(s, i, LastSeq(lastSeq, rs)))
  {
    hide EncodeRecord, ReadFrame, Scan;
    var rs, n := ScanStops(s, lastSeq);
  }

  lemma FrameThenLog(s: seq<byte>, rec: Record, size: nat, more: seq<Record>, n: nat)
    requires ReadFrame(s) == Frame(rec, size) && AllFit(more)
    requires n <= |s[size..]| && s[size..][..n] == EncodeAll(more)
    ensures size + n <= |s| && s[..size + n] == EncodeAll([rec] + more) && AllFit([rec] + more) && ([rec] + more)[1..] == more
  {
    hide EncodeRecord, ReadFrame, Fits;
    FrameCanonical(s);
    assert ([rec] + more)[1..] == more;
    assert s[..size + n] == s[..size] + s[size..][..n];
  }

  lemma EofIsEmpty(s: seq<byte>)
    requires ReadFrame(s) == Eof
    ensures s == []
  {
  }

  /** Cutting the file at validBytes and recovering again changes nothing. */
  lemma RecoverAfterTruncate(s: seq<byte>, lastSeq: nat)
    requires Scan(s, lastSeq).Recovered?
    ensures var n := Scan(s, lastSeq).validBytes; n <= |s| && Scan(s[..n], lastSeq) == Scan(s, lastSeq)
  {
    hide EncodeRecord, ReadFrame, ValidFrameAfter;
    RecoverNeverDropsAFrame(s, lastSeq);
    var Recovered(rs, n) := Scan(s, lastSeq);
    ScanWholeFrames(rs, lastSeq, []);
    ReadEmpty();
    assert s[..n] == EncodeAll(rs) + [];
    assert rs + [] == rs;
  }

  /** The length field holds the frame's length. */
  predicate Countable(r: Record) {
    29 + 4 * |r.vector| + |r.extra| < U32
  }

  lemma OversizedIsBad(r: Record, rest: seq<byte>)
    requires !Fits(r) && Countable(r)
    ensures ReadFrame(EncodeRecord(r) + rest) == Bad
  {
    hide FromLE, Put32, Payload, EncodeRecord, Crc32, DecodePayload;
    FrameFields(r, rest);
    Put32RoundTrip(4 + |Payload(r)|);
  }

  /** A log with an oversized record in it is not cut short there: it is refused. */
  lemma OversizedLogIsCorrupt(rs: seq<Record>, i: nat)
    requires i < |rs| && AllFit(rs[..i]) && Chain(0, rs[..i]) && !Fits(rs[i]) && Countable(rs[i])
    ensures Scan(EncodeAll(rs), 0) == CorruptMidLog
  {
    hide EncodeRecord, ReadFrame, EncodeAll;
    var tail := EncodeAll(rs[i..]);
    EncodeAllAppend(rs[..i], rs[i..]);
    assert rs[..i] + rs[i..] == rs;
    EncodeAllHead(rs[i..]);
    OversizedIsBad(rs[i], EncodeAll(rs[i..][1..]));
    ScanWholeFrames(rs[..i], 0, tail);
    assert |tail| > 1 + MAX_CORRUPTION_SCAN;
  }

  /** One more record appended to a good log is recovered if and only if it is within the size bound. */
  lemma AppendedIsRecovered(rs: seq<Record>, lastSeq: nat, r: Record)
    requires AllFit(rs) && Chain(lastSeq, rs + [r])
    ensures Scan(EncodeAll(rs + [r]), lastSeq) == Recovered(rs + [r], |EncodeAll(rs + [r])|) <==> Fits(r)
  {
    hide EncodeRecord, ReadFrame, ValidFrameAfter, EncodeAll;
    var all := rs + [r];
    if Fits(r) {
      ScanWholeFrames(all, lastSeq, []);
      ReadEmpty();
      assert EncodeAll(all) + [] == EncodeAll(all) && all + [] == all;
    }
    if Scan(EncodeAll(all), lastSeq) == Recovered(all, |EncodeAll(all)|) {
      RecoverNeverDropsAFrame(EncodeAll(all), lastSeq);
      assert Fits(all[|rs|]);
    }
  }

  // ---- The code that does it ----

  /** Writes src at off, extending the part of buf that is already filled. */
  method CopyInto(buf: array<byte>, off: nat, src: seq<byte>)
    requires off + |src| <= buf.Length
    modifies buf
    ensures buf[..off + |src|] == old(buf[..off]) + src
  {
    forall i | 0 <= i < |src| { buf[off + i] := src[i]; }
  }

  method CopyWords(buf: array<byte>, start: nat, vec: seq<u32>)
    requires start + 4 * |vec| <= buf.Length
    modifies buf
    ensures buf[..start + 4 * |vec|] == old(buf[..start]) + Words(vec)
  {
    hide Put32, Words;
    ghost var head := buf[..start];
    var off := start;
    WordsNone();
    assert head + [] == head && vec[..0] == [];
    for i := 0 to |vec|
      invariant off == start + 4 * i
      invariant buf[..off] == head + Words(vec[..i])
    {
      CopyInto(buf, off, Put32(vec[i]));
      WordsAppend(vec[..i], vec[i]);
      assert vec[..i + 1] == vec[..i] + [vec[i]];
      Assoc(head, Words(vec[..i]), Put32(vec[i]));
      off := off + 4;
    }
    assert vec[..|vec|] == vec;
  }

  lemma WordsNone()
    ensures Words([]) == []
  {
  }

  /** Fills the payload buffer field by field at a moving offset. */
  method EncodePayload(r: Record) returns (b: seq<byte>)
    ensures b == Payload(r)
  {
    hide LE, Put32, OpCode, Words;
    var buf := new byte[25 + 4 * |r.vector| + |r.extra|](_ => 0);
    CopyInto(buf, 0, LE(r.seqno, 8));
    CopyInto(buf, 8, [OpCode(r.op)]);
    CopyInto(buf, 9, LE(r.id, 8));
    CopyInto(buf, 17, Put32(|r.vector|));
    assert buf[..0] == [] && buf[..21] == LE(r.seqno, 8) + [OpCode(r.op)] + LE(r.id, 8) + Put32(|r.vector|);
    CopyWords(buf, 21, r.vector);
    var off := 21 + 4 * |r.vector|;
    CopyInto(buf, off, Put32(|r.extra|));
    CopyInto(buf, off + 4, r.extra);
    b := buf[..off + 4 + |r.extra|];
  }

  /** Decodes with the vector read word by word at a moving offset. */
  method DecodePayloadLoop(p: seq<byte>) returns (r: Option<Record>)
    ensures r == DecodePayload(p)
  {
    hide FromLE;
    if |p| < 21 { return None; }
    var op := OpOf(p[8]);
    if op == None { return None; }
    Widths();
    var seqno, id := FromLE(p[0..8]), FromLE(p[9..17]);
    var dim := FromLE(p[17..21]);
    var off := 21;
    var vec: seq<u32> := [];
    if dim > 0 {
      if |p| < off + 4 * dim { return None; }
      while |vec| < dim
        invariant |vec| <= dim && off == 21 + 4 * |vec|
        invariant vec == FromWords(p[21..off])
        decreases dim - |vec|
      {
        FromWordsAppend(p[21..off], p[off..off + 4]);
        assert p[21..off + 4] == p[21..off] + p[off..off + 4];
        vec := vec + [FromLE(p[off..off + 4])];
        off := off + 4;
      }
    }
    if |p| < off + 4 { return None; }
    var extraLen := FromLE(p[off..off + 4]);
    off := off + 4;
    if |p| != off + extraLen { return None; }
    assert p[off..off + extraLen] == p[off..];
    return Some(Record(seqno, op.value, id, vec, p[off..off + extraLen]));
  }

  /** Tries every byte offset after the bad frame at the front of s. */
  method FindValidFrame(s: seq<byte>, lastSeq: nat) returns (found: bool)
    requires s != []
    ensures found <==> ValidFrameAfter(s, lastSeq)
  {
    hide ReadFrame;
    var rest := s[1..];
    if |rest| > MAX_CORRUPTION_SCAN { return true; }
    for i := 0 to |rest|
      invariant forall j :: 1 <= j < i + 1 ==> !FrameAt(s, j, lastSeq)
    {
      assert rest[i..] == s[i + 1..];
      var f := ReadFrame(rest[i..]);
      if f.Frame? && f.rec.seqno > lastSeq {
        assert FrameAt(s, i + 1, lastSeq);
        return true;
      }
    }
    return false;
  }

  /** The recovery loop, advancing validBytes and lastSeq frame by frame. */
  method Recover(file: seq<byte>) returns (r: Recovery)
    ensures r == Scan(file, 0)
  {
    hide ReadFrame, ValidFrameAfter;
    var records: seq<Record>, validBytes: nat, lastSeq: nat := [], 0, 0;
    assert file[0..] == file;
    while true
      invariant 0 <= validBytes <= |file|
      invariant Scan(file, 0) == Prepend(records, validBytes, Scan(file[validBytes..], lastSeq))
      decreases |file| - validBytes
    {
      var s := file[validBytes..];
      match ReadFrame(s) {
        case Eof =>
          assert records + [] == records;
          return Recovered(records, validBytes);
        case Bad =>
          if s == [] { ReadEmpty(); }
          var found := FindValidFrame(s, lastSeq);
          if found { return CorruptMidLog; }
          assert records + [] == records;
          return Recovered(records, validBytes);
        case Frame(rec, size) =>
          if lastSeq != 0 && rec.seqno != lastSeq + 1 { return InvalidSequence; }
          assert s[size..] == file[validBytes + size..];
          assert forall more: seq<Record> :: records + ([rec] + more) == (records + [rec]) + more;
          records, validBytes, lastSeq := records + [rec], validBytes + size, rec.seqno;
      }
    }
  }

  // ---- The writer ----

  /** How one write-and-fsync ends: durable, or failed with some bytes on disk. */
  datatype Io = Durable | IoError(landed: nat)

  function Landed(io: Io, b: seq<byte>): seq<byte> {
    match io
    case Durable => b
    case IoError(n) => if n < |b| then b[..n] else b
  }

  function Stamp(items: seq<Record>, first: nat): (rs: seq<Record>)
    requires first + |items| <= U64
    ensures |rs| == |items|
    ensures forall i :: 0 <= i < |rs| ==> rs[i] == items[i].(seqno := first + i)
  {
    if items == [] then [] else [items[0].(seqno := first)] + Stamp(items[1..], first + 1)
  }

  predicate Consecutive(ns: seq<nat>, first: nat, count: nat) {
    |ns| == count && forall i :: 0 <= i < count ==> ns[i] == first + i
  }

  /** Numbers the records from first on and frames them into one buffer. */
  method EncodeBatch(items: seq<Record>, first: nat) returns (numbers: seq<nat>, buf: seq<byte>)
    requires first + |items| <= U64
    ensures Consecutive(numbers, first, |items|)
    ensures buf == EncodeAll(Stamp(items, first))
  {
    hide EncodeRecord, EncodeAll, Stamp;
    numbers, buf := [], [];
    ghost var rs := Stamp(items, first);
    EncodeNone(rs);
    for i := 0 to |items|
      invariant Consecutive(numbers, first, i)
      invariant buf == EncodeAll(rs[..i])
    {
      var rec := items[i].(seqno := first + i);
      EncodeAllSnoc(rs[..i], rec);
      assert rs[..i + 1] == rs[..i] + [rec];
      buf := buf + EncodeRecord(rec);
      numbers := numbers + [first + i];
    }
    assert rs[..|items|] == rs;
  }

  class Writer {
    var file: seq<byte>
    var nextSeq: nat
    var failed: bool
    var closed: bool

    constructor Open(contents: seq<byte>, startSeq: nat)
      ensures file == contents && nextSeq == startSeq + 1 && !failed && !closed
    {
      file, nextSeq, failed, closed := contents, startSeq + 1, false, false;
    }

    predicate Ready()
      reads this
    {
      !failed && !closed
    }

    /** All-or-nothing group append; any I/O failure poisons the writer for good. */
    method AppendBatch(items: seq<Record>, io: Io) returns (seqs: Option<seq<nat>>)
      requires nextSeq + |items| <= U64
      modifies this
      ensures old(!Ready()) && items != [] ==> seqs == None && unchanged(this)
      ensures items == [] ==> seqs == Some([]) && unchanged(this)
      ensures old(Ready()) && items != [] ==>
                file == old(file) + Landed(io, EncodeAll(Stamp(items, old(nextSeq))))
      ensures old(Ready()) && items != [] && io.Durable? ==>
                Ready() && nextSeq == old(nextSeq) + |items| && seqs.Some? && Consecutive(seqs.value, old(nextSeq), |items|)
      ensures old(Ready()) && items != [] && !io.Durable? ==>
                seqs == None && failed && nextSeq == old(nextSeq)
    {
      if |items| == 0 { return Some([]); }
      if failed || closed { return None; }
      var numbers, buf := EncodeBatch(items, nextSeq);
      file := file + Landed(io, buf);
      if io.IoError? {
        failed, closed := true, true;
        return None;
      }
      nextSeq := nextSeq + |items|;
      return Some(numbers);
    }

    /** Appends a record under its own number; refuses any number but the next. */
    method AppendRecord(rec: Record, io: Io) returns (ok: bool)
      modifies this
      ensures ok <==> old(Ready()) && rec.seqno == old(nextSeq) && io.Durable?
      ensures old(!Ready()) || rec.seqno != old(nextSeq) ==> unchanged(this)
      ensures old(Ready()) && rec.seqno == old(nextSeq) ==> file == old(file) + Landed(io, EncodeRecord(rec))
      ensures ok ==> Ready() && nextSeq == old(nextSeq) + 1
      ensures old(Ready()) && !ok ==> nextSeq == old(nextSeq) && (failed <==> rec.seqno == nextSeq)
    {
      if failed || closed || rec.seqno != nextSeq { return false; }
      file := file + Landed(io, EncodeRecord(rec));
      if io.IoError? {
        failed, closed := true, true;
        return false;
      }
      nextSeq := nextSeq + 1;
      return true;
    }
  }
}
