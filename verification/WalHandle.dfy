/** The handle through which the engine opens, appends to, flushes and resets the log file. */
module WalHandle {
  import opened Bytes
  import opened Crc32c
  import opened WalRecord
  import opened WalLog
  import opened Wal

  datatype Error = Poisoned | IoFailed | UnflushedRecords | BadLog(error: HeaderError)

  datatype Outcome = Ok | Err(error: Error)

  /** How the operating system answers a flush: what a failed write leaves is bytes of the environment's choosing. */
  datatype FlushIo = FlushDone | WriteFailed(left: seq<Byte>) | SyncFailed

  datatype ResetIo = ResetDone | ResetFailed(left: seq<Byte>)

  /** How cutting off a discarded tail goes: truncating or the fsync after it may fail. */
  datatype CutIo = CutDone | TruncateFailed | CutSyncFailed

  class Handle {
    var file: seq<Byte>       // contents as this process sees them
    var durableLen: nat
    var pending: seq<Byte>
    var nextSeq: nat
    var poisoned: bool

    ghost var log: Log        // what the file may hold after a crash
    ghost var queued: seq<Record>

    /** The sequence number behind the last record in the file. */
    ghost function Behind(): nat
      reads this
    {
      var o := Open(file);
      if o.Opened? then o.first + |o.records| else 0
    }

    /**
     * While the log is usable its file is a header and consecutively numbered records of total length
     * `durableLen`, and `pending` is the queued records numbered from there on. Just after opening,
     * `log` may know some of the records in the file not to be durable.
     */
    ghost predicate Usable()
      reads this
      requires ValidLog(log)
    {
      && ReadsAs(file, log) && Open(file).Opened? && Open(file).discarded == 0 && durableLen == |file|
      && nextSeq == Behind() + |queued| < SEQ_LIMIT
      && pending == EncodeAll(queued, Behind())
    }

    ghost predicate Valid()
      reads this
    {
      ValidLog(log) && Survives(file, log) && (!poisoned ==> Usable())
    }

    constructor Create()
      ensures Valid() && !poisoned && log == Log(0, [], [], Quiet) && queued == []
    {
      hide ValidLog, Survives, EncodeHeader, Open, ReadsAs, EncodeAll;
      file := EncodeHeader(0);
      durableLen := WAL_HEADER_SIZE;
      pending := [];
      nextSeq := 0;
      poisoned := false;
      log := Log(0, [], [], Quiet);
      queued := [];
      QuietIsValid(0, []);
      new;
      QuietReads(0, []);
      assert LogBytes(0, [], []) == EncodeHeader(0);
    }

    /** The state after a successful scan that kept `kept`, of which `log` says what is durable. */
    constructor At(kept: seq<Byte>, next: nat, ghost log: Log)
      requires ValidLog(log) && ReadsAs(kept, log) && Survives(kept, log)
      requires Open(kept).Opened? && Open(kept).discarded == 0
      requires next == Open(kept).first + |Open(kept).records| < SEQ_LIMIT
      ensures Valid() && !poisoned && this.log == log && queued == []
      ensures file == kept && durableLen == |kept| && nextSeq == next
    {
      hide ValidLog, Survives, EncodeHeader, Encoded, Open, Scan, ReadsAs, EncodeAll;
      file := kept;
      durableLen := |kept|;
      pending := [];
      nextSeq := next;
      poisoned := false;
      this.log := log;
      queued := [];
      new;
      NoRecords(next);
    }

    method Append(t: array2<bv32>, record: Record) returns (r: Outcome)
      requires Valid() && IsTables(t) && nextSeq + 1 < SEQ_LIMIT
      modifies this
      ensures Valid() && poisoned == old(poisoned) && log == old(log) && file == old(file)
      ensures r == if poisoned then Err(Poisoned) else Ok
      ensures queued == if poisoned then old(queued) else old(queued) + [record]
    {
      hide Encoded, Survives, ValidLog, Open, ReadsAs, EncodeAll, IsTables;
      if poisoned {
        return Err(Poisoned);
      }
      pending := EncodeOnto(t, record, nextSeq, pending);
      EncodeAllConcat(queued, [record], Behind());
      OneRecord(record, nextSeq);
      queued := queued + [record];
      nextSeq := nextSeq + 1;
      return Ok;
    }

    method Flush(io: FlushIo) returns (r: Outcome)
      requires Valid()
      requires io.WriteFailed? && !poisoned ==> Damage(io.left, queued, Behind())
      requires !poisoned && queued != [] ==> !log.phase.Resetting?
      modifies this
      ensures Valid()
      ensures old(poisoned) ==> r == Err(Poisoned) && poisoned && log == old(log) && queued == old(queued)
      ensures !old(poisoned) && old(queued) == [] ==> r == Ok && !poisoned && queued == [] && log == old(log)
      ensures !old(poisoned) && old(queued) != [] && io.FlushDone? ==>
        && r == Ok && !poisoned && queued == []
        && log == if old(log.phase).Unsynced? then Written(old(log), old(pending))
                  else Log(old(log.first), old(log.recs) + old(queued), [], Quiet)
      ensures !old(poisoned) && old(queued) != [] && !io.FlushDone? ==>
        && r == Err(IoFailed) && poisoned
        && log == Written(old(log), if io.WriteFailed? then io.left else old(pending))
        && TailRecords(old(log)) <= TailRecords(log) && TailRecords(log) <= TailRecords(old(log)) + old(queued)
      ensures !old(poisoned) && old(queued) != [] && log.phase.Unsynced? && !io.WriteFailed? ==>
        TailRecords(log) == TailRecords(old(log)) + old(queued)
      ensures file == old(file) + (if old(poisoned) || old(queued) == [] then [] else
                                   if io.WriteFailed? then io.left else old(pending))
      ensures nextSeq == old(nextSeq) && durableLen == (if r.Ok? then |file| else old(durableLen))
    {
      hide Encoded, EncodeHeader, Decode, Damage, Scan, ValidLog, Survives, Open, ReadsAs;
      if poisoned {
        return Err(Poisoned);
      }
      PendingEmpty(queued, Behind());
      if pending == [] {
        return Ok;
      }
      ghost var o := Open(file);
      FileIsRecords(this);
      var left := if io.WriteFailed? then io.left else pending;
      DamageOfWhole(queued, Behind());
      assert file[..durableLen] == file;
      file := file[..durableLen] + left;
      if !io.FlushDone? {
        FlushLeaves(log, o.records, left, queued);
        log := Written(log, left);
        poisoned := true;
        return Err(IoFailed);
      }
      durableLen := durableLen + |pending|;
      WholeFlush(log, o.records, queued);
      log := if log.phase.Unsynced? then Written(log, pending) else Log(log.first, log.recs + queued, [], Quiet);
      pending, queued := [], [];
      return Ok;
    }

    method Reset(io: ResetIo) returns (r: Outcome)
      requires Valid()
      requires io.ResetFailed? && !poisoned ==> ResetLeaves(io.left, log, nextSeq)
      modifies this
      ensures Valid() && queued == old(queued)
      ensures old(poisoned) ==> r == Err(Poisoned) && poisoned && log == old(log) && file == old(file)
      ensures !old(poisoned) && old(queued) != [] ==>
        r == Err(UnflushedRecords) && !poisoned && log == old(log) && queued == old(queued)
      ensures !old(poisoned) && old(queued) == [] && io.ResetDone? ==>
        r == Ok && !poisoned && log == Log(old(nextSeq), [], [], Quiet) && nextSeq == old(nextSeq)
      ensures !old(poisoned) && old(queued) == [] && io.ResetFailed? ==>
        r == Err(IoFailed) && poisoned && log == InReset(old(log), old(nextSeq)) && file == io.left
    {
      hide Encoded, EncodeHeader, Decode, Damage, Scan, Open, EncodeAll, ValidLog, Survives, ReadsAs;
      if poisoned {
        return Err(Poisoned);
      }
      if pending != [] {
        NotPending(this);
        return Err(UnflushedRecords);
      }
      NotPending(this);
      if io.ResetFailed? {
        file := io.left;
        log := InReset(log, nextSeq);
        poisoned := true;
        return Err(IoFailed);
      }
      HeaderFits(this);
      file := file[..WAL_HEADER_SIZE];
      file := EncodeHeader(nextSeq) + file[WAL_HEADER_SIZE..];
      durableLen := WAL_HEADER_SIZE;
      QuietIsValid(nextSeq, []);
      log := Log(nextSeq, [], [], Quiet);
      QuietReads(nextSeq, []);
      assert file == LogBytes(nextSeq, [], []) by { NoRecords(nextSeq); }
      return Ok;
    }
  }

  /** What a failed reset may leave of the file. */
  ghost predicate ResetLeaves(left: seq<Byte>, l: Log, next: nat) {
    var r := InReset(l, next);
    ValidLog(r) && Survives(left, r)
  }

  lemma NoRecords(s: nat)
    requires s <= SEQ_LIMIT
    ensures EncodeAll([], s) == []
  {
  }

  lemma OneRecord(r: Record, s: U64)
    ensures EncodeAll([r], s) == Encoded(r, s)
  {
    hide Encoded;
    assert [r][1..] == [];
  }

  lemma NotPending(h: Handle)
    requires h.Valid() && !h.poisoned
    ensures h.pending == [] <==> h.queued == []
    ensures h.nextSeq < SEQ_LIMIT
  {
    hide Encoded, Open, ValidLog, Survives, ReadsAs, EncodeAll;
    PendingEmpty(h.queued, h.Behind());
  }

  lemma HeaderFits(h: Handle)
    requires h.Valid() && !h.poisoned
    ensures |h.file| >= WAL_HEADER_SIZE
  {
    hide Encoded, EncodeAll, Survives, ReadsAs, Scan, EncodeHeader;
  }

  /** A quiet log reads as exactly its records. */
  lemma QuietReads(first: nat, recs: seq<Record>)
    requires first + |recs| < SEQ_LIMIT
    ensures var l, w := Log(first, recs, [], Quiet), LogBytes(first, recs, []); var o := Open(w);
      ValidLog(l) && ReadsAs(w, l) && o.Opened? && o.first == first && o.records == recs && o.discarded == 0
    ensures EncodeAll([], first + |recs|) == []
  {
    hide Encoded, Scan, EncodeHeader, DecodeHeader, Open;
    QuietIsValid(first, recs);
    OpenOfLog(first, recs, []);
    ScanNothing(first + |recs|);
    assert recs + [] == recs;
  }

  lemma QuietScan(h: Handle)
    requires h.Valid() && !h.poisoned && h.log.phase.Quiet?
    ensures Open(h.file).Opened? && Open(h.file).first == h.log.first && Open(h.file).records == h.log.recs
    ensures h.Behind() == NextSeq(h.log) && h.log.tail == [] && TailRecords(h.log) == []
  {
    hide Encoded, Scan, EncodeHeader, DecodeHeader, Open, EncodeAll, Survives;
    QuietReads(h.log.first, h.log.recs);
    ScanNothing(NextSeq(h.log));
  }

  /** The file of a usable log is the records it opens to. */
  lemma FileIsRecords(h: Handle)
    requires h.Valid() && !h.poisoned
    ensures var o := Open(h.file); o.Opened? && h.file == LogBytes(o.first, o.records, [])
    ensures !h.log.phase.Resetting? ==> var o, rs := Open(h.file), TailRecords(h.log);
      && o.first == h.log.first && o.records == h.log.recs + rs
      && h.log.tail == EncodeAll(rs, NextSeq(h.log))
  {
    hide Encoded, Scan, EncodeHeader, DecodeHeader, Open, EncodeAll, Survives, Damage, Ready;
    var o := Open(h.file);
    OpenFactors(h.file);
    assert h.file[o.len..] == [];
    if !h.log.phase.Resetting? {
      KernelOpens(h.file, h.log);
      var rs := TailRecords(h.log);
      EncodeAllConcat(h.log.recs, rs, h.log.first);
      var front := EncodeHeader(o.first) + EncodeAll(h.log.recs, o.first);
      assert h.file == front + h.log.tail && h.file == front + EncodeAll(rs, NextSeq(h.log));
      assert h.log.tail == h.file[|front|..] == EncodeAll(rs, NextSeq(h.log));
    }
  }

  /** Part of a batch behind whole records. */
  lemma {:induction false} DamageBehind(a: seq<Record>, s: nat, left: seq<Byte>, batch: seq<Record>)
    requires s + |a| <= SEQ_LIMIT && Damage(left, batch, s + |a|)
    ensures Damage(EncodeAll(a, s) + left, a + batch, s)
    decreases |a|
  {
    hide Encoded, Decode, Ready;
    if a == [] {
      assert EncodeAll(a, s) + left == left && a + batch == batch;
    } else {
      var rest := EncodeAll(a[1..], s + 1) + left;
      DamageBehind(a[1..], s + 1, left, batch);
      assert EncodeAll(a, s) + left == Encoded(a[0], s) + rest;
      assert (Encoded(a[0], s) + rest)[Len(a[0])..] == rest && (a + batch)[1..] == a[1..] + batch;
    }
  }

  /** Bytes written behind what the file holds, and not fsynced. */
  function Written(l: Log, left: seq<Byte>): Log { l.(tail := l.tail + left, phase := Unsynced) }

  /** What a failed flush leaves behind the records of the file is, with them, a prefix of what was written. */
  lemma FlushLeaves(l: Log, records: seq<Record>, left: seq<Byte>, queued: seq<Record>)
    requires ValidLog(l) && records == l.recs + TailRecords(l) && l.tail == EncodeAll(TailRecords(l), NextSeq(l))
    requires l.first + |records| + |queued| < SEQ_LIMIT && Damage(left, queued, l.first + |records|)
    ensures ValidLog(Written(l, left)) && Survives(LogBytes(l.first, records, []) + left, Written(l, left))
    ensures TailRecords(l) <= TailRecords(Written(l, left)) && TailRecords(Written(l, left)) <= TailRecords(l) + queued
    ensures left == EncodeAll(queued, l.first + |records|) ==>
      TailRecords(Written(l, left)) == TailRecords(l) + queued
  {
    hide Encoded, Scan, EncodeHeader, EncodeAll, Survives, Damage, Ready, ValidLog, TailRecords, LogBytes, Written;
    TailWritten(l, left);
    TailFits(l);
    assert NextSeq(l) + |TailRecords(l)| == l.first + |records|;
    DamageBehind(TailRecords(l), NextSeq(l), left, queued);
    LeftIsPrefix(left, queued, l.first + |records|);
    LeftIsValid(l, TailRecords(l), left, queued);
  }

  /** A flush that succeeds on a log whose records are durable, or else on one of which that is not known. */
  lemma WholeFlush(l: Log, records: seq<Record>, queued: seq<Record>)
    requires ValidLog(l) && !l.phase.Resetting? && records == l.recs + TailRecords(l)
    requires l.tail == EncodeAll(TailRecords(l), NextSeq(l)) && l.first + |records| + |queued| < SEQ_LIMIT
    ensures var pending := EncodeAll(queued, l.first + |records|);
      var w := LogBytes(l.first, records, []) + pending;
      var now := if l.phase.Unsynced? then Written(l, pending) else Log(l.first, l.recs + queued, [], Quiet);
      && ValidLog(now) && Survives(w, now) && ReadsAs(w, now)
      && Open(w).Opened? && Open(w).discarded == 0
      && Open(w).first + |Open(w).records| == l.first + |records| + |queued|
      && (l.phase.Unsynced? ==> TailRecords(now) == TailRecords(l) + queued)
    ensures EncodeAll([], l.first + |records| + |queued|) == []
  {
    hide Encoded, Scan, EncodeHeader, EncodeAll, Survives, Damage, Ready, ValidLog, TailRecords, LogBytes, Written,
      Open, ReadsAs;
    var s := l.first + |records|;
    var pending := EncodeAll(queued, s);
    EncodeAllConcat(records, queued, l.first);
    AllBytes(l.first, records, queued);
    QuietReads(l.first, records + queued);
    if l.phase.Unsynced? {
      DamageOfWhole(queued, s);
      FlushLeaves(l, records, pending, queued);
      TailFits(l);
      BytesBehind(l.first, l.recs, TailRecords(l), pending);
      WrittenReads(l, pending);
    } else {
      NoTail(l);
      QuietIsValid(l.first, l.recs + queued);
    }
  }

  lemma AllBytes(first: nat, records: seq<Record>, queued: seq<Record>)
    requires first < SEQ_LIMIT && first + |records| + |queued| <= SEQ_LIMIT
    ensures LogBytes(first, records, []) + EncodeAll(queued, first + |records|) == LogBytes(first, records + queued, [])
  {
    hide Encoded, EncodeHeader, EncodeAll;
    EncodeAllConcat(records, queued, first);
  }

  lemma WrittenReads(l: Log, left: seq<Byte>)
    requires ValidLog(Written(l, left))
    ensures ReadsAs(LogBytes(l.first, l.recs, l.tail + left), Written(l, left))
  {
    hide Encoded, Scan, EncodeHeader, EncodeAll, Damage, Ready;
  }

  /** A log that is durable throughout has nothing behind its records that would scan. */
  lemma NoTail(l: Log)
    requires ValidLog(l) && (l.phase.Quiet? || l.phase.Leftover?)
    ensures TailRecords(l) == [] && l.recs + TailRecords(l) == l.recs
  {
    hide Encoded, Ready, Damage, Decode;
    if l.phase.Quiet? {
      ScanNothing(NextSeq(l));
    } else {
      ScanStop(l.tail, NextSeq(l));
    }
  }

  lemma LeftIsPrefix(left: seq<Byte>, queued: seq<Record>, s: nat)
    requires s + |queued| <= SEQ_LIMIT && Damage(left, queued, s)
    ensures Scan(left, s).records <= queued
    ensures left == EncodeAll(queued, s) ==> Scan(left, s).records == queued
  {
    hide Encoded, Scan, EncodeAll, Damage, Ready;
    ScanOfDamage(left, queued, s);
    DamageOfWhole(queued, s);
  }

  lemma LeftIsValid(l: Log, rs: seq<Record>, left: seq<Byte>, queued: seq<Record>)
    requires l.first < SEQ_LIMIT && NextSeq(l) + |rs| + |queued| < SEQ_LIMIT && l.tail == EncodeAll(rs, NextSeq(l))
    requires Damage(l.tail + left, rs + queued, NextSeq(l))
    ensures ValidLog(Written(l, left))
    ensures Survives(LogBytes(l.first, l.recs + rs, []) + left, Written(l, left))
  {
    hide Encoded, Scan, EncodeHeader, EncodeAll, Survives, Damage, Ready, ValidLog, LogBytes;
    UnsyncedIsValid(l.first, l.recs, l.tail + left, rs + queued);
    BytesBehind(l.first, l.recs, rs, left);
  }

  lemma BytesBehind(first: nat, recs: seq<Record>, rs: seq<Record>, left: seq<Byte>)
    requires first < SEQ_LIMIT && first + |recs| + |rs| <= SEQ_LIMIT
    ensures LogBytes(first, recs + rs, []) + left == LogBytes(first, recs, EncodeAll(rs, first + |recs|) + left)
  {
    hide Encoded, EncodeHeader, EncodeAll;
    EncodeAllConcat(recs, rs, first);
  }

  lemma TailWritten(l: Log, left: seq<Byte>)
    requires ValidLog(l) && l.tail == EncodeAll(TailRecords(l), NextSeq(l))
    ensures TailRecords(Written(l, left))
         == TailRecords(l) + Scan(left, NextSeq(l) + |TailRecords(l)|).records
  {
    hide Encoded, Scan, EncodeAll, Damage, Ready;
    ScanEncoded(TailRecords(l), NextSeq(l), left);
  }

  lemma PendingEmpty(queued: seq<Record>, s: nat)
    requires s + |queued| <= SEQ_LIMIT
    ensures EncodeAll(queued, s) == [] <==> queued == []
  {
    if queued != [] {
      assert |Encoded(queued[0], s)| > 0;
    }
  }

  /** What `Wal::open` leaves of the file: all of it, or what the scan kept. */
  function CutContents(contents: seq<Byte>, io: CutIo): seq<Byte> {
    var o := Open(contents);
    if o.Refused? || o.discarded == 0 || io.TruncateFailed? || o.len > |contents| then contents else contents[..o.len]
  }

  /**
   * `Wal::open`: reads records until one is missing, damaged or out of sequence, cuts the file there,
   * and returns a handle positioned behind the last record. `l` says what of the file is durable; of a
   * file with no known past all of it is (`AfterCrash`).
   */
  method OpenFile(contents: seq<Byte>, io: CutIo, ghost l: Log)
    returns (r: Outcome, handle: Handle?, records: seq<Record>, discarded: nat)
    requires var o := Open(contents);
      o.Opened? ==> o.first + |o.records| < SEQ_LIMIT && ValidLog(l) && ReadsAs(contents, l)
    ensures r == match Open(contents)
                 case Refused(e) => Err(BadLog(e))
                 case Opened(_, _, _, cut) => if cut > 0 && !io.CutDone? then Err(IoFailed) else Ok
    ensures r.Err? <==> handle == null
    ensures r.Ok? ==> var o := Open(contents);
      && records == o.records && discarded == o.discarded
      && fresh(handle) && handle.Valid() && !handle.poisoned && handle.queued == []
      && handle.file == CutContents(contents, io) == contents[..o.len] && handle.nextSeq == o.first + |records|
      && handle.log == if discarded > 0 then Cut(l) else l
  {
    hide Encoded, EncodeHeader, Decode, DecodeHeader, EncodeAll, Damage, Survives, ValidLog, Scan, ReadsAs, Cut;
    records := [];
    discarded := 0;
    handle := null;
    var header := DecodeHeader(contents);
    if header.BadHeader? {
      return Err(BadLog(header.error)), null, [], 0;
    }
    HeaderLength(contents);
    var first := header.seqNo;
    var offset := WAL_HEADER_SIZE;
    var nextSeq: nat := first;
    var stopped := false;
    while offset < |contents| && !stopped
      invariant WAL_HEADER_SIZE <= offset <= |contents|
      invariant nextSeq == first + |records|
      invariant var rest := Scan(contents[offset..], nextSeq);
        Scan(contents[WAL_HEADER_SIZE..], first)
          == Scanned(records + rest.records, offset - WAL_HEADER_SIZE + rest.used, rest.clean)
      invariant stopped ==> !Ready(contents[offset..], nextSeq)
      decreases |contents| - offset, !stopped
    {
      var d := Decode(contents[offset..]);
      if d.Decoded? && d.seqNo == nextSeq {
        ScanStep(contents[offset..], nextSeq);
        assert contents[offset..][d.len..] == contents[offset + d.len..];
        offset := offset + d.len;
        nextSeq := nextSeq + 1;
        records := records + [d.record];
      } else {
        stopped := true;
      }
    }
    ScanEnds(contents[offset..], nextSeq);
    assert records + [] == records;
    if stopped {
      discarded := |contents| - offset;
    }
    OpenFactors(contents);
    if discarded > 0 && !io.CutDone? {
      return Err(IoFailed), null, records, discarded;
    }
    KeptLog(contents, l);
    handle := new Handle.At(contents[..offset], nextSeq, if discarded > 0 then Cut(l) else l);
    r := Ok;
  }

  /** Cutting the discarded tail off: the log then reads as what was kept, and opens the same way. */
  lemma KeptLog(contents: seq<Byte>, l: Log)
    requires Open(contents).Opened? && ValidLog(l) && ReadsAs(contents, l)
    ensures var o := Open(contents);
      var k := if o.discarded > 0 then Cut(l) else l;
      && o.len <= |contents| && (o.discarded == 0 ==> contents[..o.len] == contents)
      && ValidLog(k) && ReadsAs(contents[..o.len], k) && Survives(contents[..o.len], k)
      && Open(contents[..o.len]) == o.(discarded := 0)
  {
    hide Encoded, EncodeHeader, Decode, DecodeHeader, Damage, Survives, ValidLog, Scan, ReadsAs, Cut, Open;
    var o := Open(contents);
    OpenFactors(contents);
    ReopenChangesNothing(contents);
    if o.discarded == 0 {
      assert contents[..o.len] == contents;
      ReadSurvives(contents, l);
    } else {
      CutIsValid(l);
      KernelOpens(contents, l);
      CutReads(contents[..o.len], l, o.first, o.records);
      ReadSurvives(contents[..o.len], Cut(l));
    }
  }

  lemma ReadSurvives(w: seq<Byte>, l: Log)
    requires ValidLog(l) && ReadsAs(w, l)
    ensures Survives(w, l)
  {
    hide Encoded, EncodeHeader, Decode, Scan, EncodeAll;
    match l.phase
    case Unsynced => assert Damage(l.tail, TailRecords(l), NextSeq(l));
    case Resetting(_) =>
      var h: U64 :| Headed(l, h) && (w == EncodeHeader(h) || (w == Reheaded(l, h, l.tail) && Stale(l, h, l.tail)));
      assert Damage(l.tail, TailRecords(l), NextSeq(l));
    case _ =>
  }

  lemma CutReads(kept: seq<Byte>, l: Log, first: U64, records: seq<Record>)
    requires ValidLog(l) && ValidLog(Cut(l)) && first + |records| <= SEQ_LIMIT && kept == LogBytes(first, records, [])
    requires (l.phase.Resetting? && records == [] && (first == l.first || first in l.phase.nexts))
          || (records == l.recs + TailRecords(l) && first == l.first)
    ensures ReadsAs(kept, Cut(l))
  {
    hide Encoded, EncodeHeader, Damage, Scan, ValidLog;
    if l.phase.Resetting? && records == [] {
      assert kept == EncodeHeader(first);
      assert Headed(Cut(l), first);
    } else {
      TailFits(l);
      EncodeAllConcat(l.recs, TailRecords(l), l.first);
      assert kept == LogBytes(l.first, l.recs, EncodeAll(TailRecords(l), NextSeq(l)));
      assert Headed(Cut(l), l.first) && kept == Reheaded(Cut(l), l.first, Cut(l).tail);
    }
  }

  lemma TailFits(l: Log)
    requires ValidLog(l)
    ensures l.first < SEQ_LIMIT && NextSeq(l) + |TailRecords(l)| < SEQ_LIMIT
  {
    hide Scan, Damage;
  }

  lemma HeaderLength(contents: seq<Byte>)
    requires DecodeHeader(contents).First?
    ensures |contents| >= WAL_HEADER_SIZE
  {
  }

  lemma ScanStep(buf: seq<Byte>, s: nat)
    requires buf != [] && Ready(buf, s)
    ensures var d := Decode(buf);
      var r := Scan(buf[d.len..], s + 1);
      Scan(buf, s) == Scanned([d.record] + r.records, d.len + r.used, r.clean)
  {
  }

  lemma ScanEnds(buf: seq<Byte>, s: nat)
    ensures buf == [] || !Ready(buf, s) ==> Scan(buf, s).records == [] && Scan(buf, s).used == 0
  {
  }
}
