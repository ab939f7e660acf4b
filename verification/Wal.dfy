/** The write-ahead log over its whole life: what may be on disk, and what a process finds there, at each moment. */
module Wal {
  import opened Bytes
  import opened WalRecord
  import opened WalLog

  // ----- what a crash may leave of the file

  datatype Phase =
    | Quiet                  // exactly the records, durable
    | Unsynced               // records written behind the durable ones, not yet fsynced
    | Leftover               // durable, but with bytes behind the last record
    | Resetting(nexts: set<nat>)   // truncation and a new header issued, not yet fsynced

  /** A log file: header sequence number, durable records, and the bytes behind them. */
  datatype Log = Log(first: nat, recs: seq<Record>, tail: seq<Byte>, phase: Phase)

  function NextSeq(l: Log): nat { l.first + |l.recs| }

  /** Records standing intact in the tail. */
  function TailRecords(l: Log): seq<Record> { Scan(l.tail, NextSeq(l)).records }

  ghost predicate ValidLog(l: Log) {
    && l.first < SEQ_LIMIT && NextSeq(l) + |TailRecords(l)| < SEQ_LIMIT
    && (l.phase.Quiet? ==> l.tail == [])
    && (l.phase.Leftover? ==> !Ready(l.tail, NextSeq(l)))
    && (l.phase.Unsynced? || l.phase.Resetting? ==> Damage(l.tail, TailRecords(l), NextSeq(l)))
    && (l.phase.Resetting? ==> forall next :: next in l.phase.nexts ==> next < SEQ_LIMIT)
  }

  /**
   * What can be left of `batch` written at sequence number `s` but not fsynced: some of its records
   * intact in order, then bytes that are not the next record. That a damaged record does not pass for
   * another one under the number expected there is a hypothesis about the environment; `CutIsDamage`
   * discharges it for every prefix of the batch, `BurstIsDamage` for every change inside four bytes.
   */
  ghost predicate Damage(t: seq<Byte>, batch: seq<Record>, s: nat)
    decreases |batch|
  {
    || !Ready(t, s)
    || (batch != [] && s < SEQ_LIMIT && Encoded(batch[0], s) <= t
        && Damage(t[Len(batch[0])..], batch[1..], s + 1))
  }

  /** A batch cut at any byte satisfies the hypothesis, with nothing assumed about checksums. */
  lemma {:induction false} CutIsDamage(batch: seq<Record>, s: nat, n: nat)
    requires s + |batch| <= SEQ_LIMIT && n <= |EncodeAll(batch, s)|
    ensures Damage(EncodeAll(batch, s)[..n], batch, s)
    decreases |batch|
  {
    hide Encoded, Decode, Ready;
    var t := EncodeAll(batch, s)[..n];
    if batch == [] {
      assert t == [];
      EmptyNotReady(s);
    } else if n < Len(batch[0]) {
      assert t == Encoded(batch[0], s)[..n];
      CutNotReady(batch[0], s, n);
    } else {
      var rest := EncodeAll(batch[1..], s + 1);
      var m := n - Len(batch[0]);
      assert t == Encoded(batch[0], s) + rest[..m];
      assert t[Len(batch[0])..] == rest[..m];
      CutIsDamage(batch[1..], s + 1, m);
    }
  }

  /** So does a batch in which the first record hit is changed inside any four bytes, whatever follows it. */
  lemma {:induction false} BurstIsDamage(
    batch: seq<Record>, s: nat, k: nat, g: seq<Byte>, at: nat, rest: seq<Byte>)
    requires s + |batch| <= SEQ_LIMIT && k < |batch|
    requires Damaged(Encoded(batch[k], s + k), g, at)
    ensures Damage(EncodeAll(batch[..k], s) + g + rest, batch, s)
    decreases k
  {
    hide Encoded, Decode, Damaged;
    var t := EncodeAll(batch[..k], s) + g + rest;
    if k == 0 {
      assert EncodeAll(batch[..0], s) == [];
      assert t == g + rest;
      DamageExact(batch[0], s, g, at, rest);
    } else {
      assert batch[..k][1..] == batch[1..][..k - 1];
      var t' := EncodeAll(batch[1..][..k - 1], s + 1) + g + rest;
      assert t == Encoded(batch[0], s) + t';
      assert t[Len(batch[0])..] == t';
      BurstIsDamage(batch[1..], s + 1, k - 1, g, at, rest);
    }
  }

  /** Whatever is left of a batch scans to a prefix of it, and the next record does not stand behind that prefix. */
  lemma {:induction false} ScanOfDamage(t: seq<Byte>, batch: seq<Record>, s: nat)
    requires Damage(t, batch, s)
    ensures var r := Scan(t, s); r.records <= batch && !Ready(t[r.used..], s + |r.records|)
    decreases |batch|
  {
    hide Encoded, Decode, Ready;
    if !Ready(t, s) {
      ScanStop(t, s);
      assert t[0..] == t;
    } else {
      var r := batch[0];
      var rest := t[Len(r)..];
      assert t == Encoded(r, s) + rest;
      ScanOne(r, s, rest);
      ScanOfDamage(rest, batch[1..], s + 1);
      var used := Scan(rest, s + 1).used;
      assert t[Len(r) + used..] == rest[used..];
    }
  }

  /** The whole batch stands written. */
  lemma DamageOfWhole(batch: seq<Record>, s: nat)
    requires s + |batch| <= SEQ_LIMIT
    ensures Damage(EncodeAll(batch, s), batch, s)
    ensures Scan(EncodeAll(batch, s), s).records == batch
  {
    hide Encoded, Decode, Damage, Scan;
    var all := EncodeAll(batch, s);
    CutIsDamage(batch, s, |all|);
    assert all[..|all|] == all && all + [] == all;
    ScanEncoded(batch, s, []);
    ScanNothing(s + |batch|);
  }

  /** Damage is damage of exactly the records still standing. */
  lemma {:induction false} DamageOfStanding(t: seq<Byte>, batch: seq<Record>, s: nat)
    requires Damage(t, batch, s)
    ensures Damage(t, Scan(t, s).records, s)
    decreases |batch|
  {
    hide Encoded, Decode, Ready;
    if Ready(t, s) {
      var r := batch[0];
      var rest := t[Len(r)..];
      assert t == Encoded(r, s) + rest;
      ScanOne(r, s, rest);
      DamageOfStanding(rest, batch[1..], s + 1);
      assert ([r] + Scan(rest, s + 1).records)[1..] == Scan(rest, s + 1).records;
    }
  }

  /** Bytes a crash may leave where the log file was. */
  ghost predicate Survives(w: seq<Byte>, l: Log)
    requires ValidLog(l)
  {
    match l.phase
    case Quiet => w == LogBytes(l.first, l.recs, [])
    case Leftover => w == LogBytes(l.first, l.recs, l.tail) || w == LogBytes(l.first, l.recs, [])
    case Unsynced => exists t :: Damage(t, TailRecords(l), NextSeq(l)) && w == LogBytes(l.first, l.recs, t)
    case Resetting(nexts) =>
      || (exists h: U64 :: Headed(l, h) && w == EncodeHeader(h))
      || (exists h: U64, t ::
            Headed(l, h) && Damage(t, TailRecords(l), NextSeq(l)) && w == Reheaded(l, h, t) && Stale(l, h, t))
  }

  /** The header a reset found in flight may have left. */
  predicate Headed(l: Log, h: U64) {
    h == l.first || (l.phase.Resetting? && h in l.phase.nexts)
  }

  /**
   * Under a new header no old record passes for the first one. Behind a durable record this is a matter
   * of sequence numbers alone (`RecordsAreStale`); with none it concerns a damaged unsynced record only.
   */
  predicate Stale(l: Log, h: nat, t: seq<Byte>)
    requires NextSeq(l) <= SEQ_LIMIT
  {
    h == l.first || !Ready(EncodeAll(l.recs, l.first) + t, h)
  }

  lemma RecordsAreStale(l: Log, h: nat, t: seq<Byte>)
    requires NextSeq(l) <= SEQ_LIMIT && (l.recs != [] || t == [])
    ensures Stale(l, h, t)
  {
    hide Encoded, Decode;
    if l.recs == [] {
      assert EncodeAll(l.recs, l.first) + t == [];
      EmptyNotReady(h);
    } else if h != l.first {
      var rest := EncodeAll(l.recs[1..], l.first + 1) + t;
      assert EncodeAll(l.recs, l.first) + t == Encoded(l.recs[0], l.first) + rest;
      DecodeOfEncoded(l.recs[0], l.first, rest);
    }
  }

  /** The durable records and `t` behind a header naming `h` as the first sequence number. */
  function Reheaded(l: Log, h: U64, t: seq<Byte>): seq<Byte>
    requires NextSeq(l) <= SEQ_LIMIT
  {
    EncodeHeader(h) + EncodeAll(l.recs, l.first) + t
  }

  lemma QuietIsValid(first: nat, recs: seq<Record>)
    requires first + |recs| < SEQ_LIMIT
    ensures var l := Log(first, recs, [], Quiet); ValidLog(l) && Survives(LogBytes(first, recs, []), l)
  {
    ScanNothing(first + |recs|);
  }

  /** A batch behind durable records, in whatever state an unfinished write left it. */
  lemma UnsyncedIsValid(first: nat, recs: seq<Record>, t: seq<Byte>, batch: seq<Record>)
    requires first + |recs| + |batch| < SEQ_LIMIT && Damage(t, batch, first + |recs|)
    ensures var l := Log(first, recs, t, Unsynced);
      ValidLog(l) && Survives(LogBytes(first, recs, t), l) && TailRecords(l) <= batch
  {
    hide Encoded, Decode, Damage, EncodeHeader, Scan;
    ScanOfDamage(t, batch, first + |recs|);
    DamageOfStanding(t, batch, first + |recs|);
  }

  /** Issuing a reset keeps the log valid, whatever stands behind its records. */
  lemma ResettingIsValid(l: Log, nexts: set<nat>)
    requires ValidLog(l) && forall next :: next in nexts ==> next < SEQ_LIMIT
    requires l.phase.Leftover? ==> l.tail == []
    ensures ValidLog(l.(phase := Resetting(nexts)))
  {
    hide Encoded, Scan, Decode, Ready;
    EmptyNotReady(NextSeq(l));
  }

  /** The records a reader may find. */
  ghost predicate MayRead(rs: seq<Record>, l: Log)
  {
    || (l.recs <= rs && rs <= l.recs + TailRecords(l))
    || (l.phase.Resetting? && rs == [])
  }

  lemma OpenOfDamage(l: Log, t: seq<Byte>)
    requires ValidLog(l) && Damage(t, TailRecords(l), NextSeq(l))
    ensures var o := Open(LogBytes(l.first, l.recs, t));
      o.Opened? && o.first == l.first && l.recs <= o.records && o.records <= l.recs + TailRecords(l)
  {
    hide Encoded, Decode, EncodeHeader, DecodeHeader, Scan, Damage, Open;
    OpenOfLog(l.first, l.recs, t);
    ScanOfDamage(t, TailRecords(l), NextSeq(l));
    ScanInPrefix(l.recs, Scan(t, NextSeq(l)).records, TailRecords(l));
  }

  lemma ScanInPrefix<T>(a: seq<T>, b: seq<T>, c: seq<T>)
    requires b <= c
    ensures a <= a + b && a + b <= a + c
  {
  }

  lemma OpenOfHeader(next: U64, rest: seq<Byte>)
    requires !Ready(rest, next)
    ensures var o := Open(EncodeHeader(next) + rest); o.Opened? && o.first == next && o.records == []
  {
    hide Encoded, Decode, EncodeHeader, DecodeHeader, Ready, Scan;
    HeaderRoundTrip(next, rest);
    assert (EncodeHeader(next) + rest)[WAL_HEADER_SIZE..] == rest;
    ScanStop(rest, next);
  }

  /** Every crash leaves a log that opens, to the durable records and at most a prefix of the unsynced ones. */
  lemma SurvivorOpens(w: seq<Byte>, l: Log)
    requires ValidLog(l) && Survives(w, l)
    ensures Open(w).Opened? && MayRead(Open(w).records, l)
    ensures Open(w).first == l.first || (l.phase.Resetting? && Open(w).first in l.phase.nexts && Open(w).records == [])
  {
    hide Encoded, Decode, EncodeHeader, DecodeHeader, Scan, Damage, Open, Ready;
    match l.phase
    case Quiet =>
      OpenOfLog(l.first, l.recs, []);
      ScanNothing(NextSeq(l));
      assert l.recs + [] == l.recs;
    case Leftover =>
      OpenOfLog(l.first, l.recs, []);
      OpenOfLog(l.first, l.recs, l.tail);
      ScanNothing(NextSeq(l));
      ScanStop(l.tail, NextSeq(l));
      assert l.recs + [] == l.recs;
    case Unsynced =>
      var t :| Damage(t, TailRecords(l), NextSeq(l)) && w == LogBytes(l.first, l.recs, t);
      OpenOfDamage(l, t);
    case Resetting(nexts) =>
      ResettingOpens(w, l);
  }

  /** A crash anywhere in a reset leaves a log that opens to the old records or to none. */
  lemma ResettingOpens(w: seq<Byte>, l: Log)
    requires ValidLog(l) && l.phase.Resetting? && Survives(w, l)
    ensures var o := Open(w);
      && o.Opened?
      && (o.first == l.first || (o.first in l.phase.nexts && o.records == []))
      && ((l.recs <= o.records && o.records <= l.recs + TailRecords(l)) || o.records == [])
  {
    hide Encoded, Decode, EncodeHeader, DecodeHeader, Scan, Damage, Open, Ready;
    if h: U64 :| Headed(l, h) && w == EncodeHeader(h) {
      EmptyNotReady(h);
      OpenOfHeader(h, []);
      assert w + [] == w;
    } else {
      var h: U64, t :|
        Headed(l, h) && Damage(t, TailRecords(l), NextSeq(l)) && w == Reheaded(l, h, t) && Stale(l, h, t);
      if h == l.first {
        assert w == LogBytes(l.first, l.recs, t);
        OpenOfDamage(l, t);
      } else {
        assert w == EncodeHeader(h) + (EncodeAll(l.recs, l.first) + t);
        OpenOfHeader(h, EncodeAll(l.recs, l.first) + t);
      }
    }
  }

  /** With nothing unsynced behind the records, "the old records" is all of them. */
  lemma ResetIsAllOrNothing(w: seq<Byte>, l: Log)
    requires ValidLog(l) && l.phase.Resetting? && l.tail == [] && Survives(w, l)
    ensures Open(w).Opened? && (Open(w).records == l.recs || Open(w).records == [])
  {
    hide Encoded, Decode, EncodeHeader, DecodeHeader, Damage, Open, Ready;
    ResettingOpens(w, l);
    ScanNothing(NextSeq(l));
    assert l.recs + [] == l.recs;
  }

  // ----- what a surviving kernel shows

  /**
   * What a process that opens the file finds without a crash of the machine in between: exactly what was
   * written. A reset killed partway has the old or the new header, and is cut or not.
   */
  ghost predicate ReadsAs(w: seq<Byte>, l: Log)
    requires ValidLog(l)
  {
    match l.phase
    case Resetting(nexts) =>
      exists h: U64 :: Headed(l, h) && (w == EncodeHeader(h) || (w == Reheaded(l, h, l.tail) && Stale(l, h, l.tail)))
    case _ => w == LogBytes(l.first, l.recs, l.tail)
  }

  /** A reset has been issued, and not yet fsynced; an earlier one may still be in flight. */
  function InReset(l: Log, next: nat): Log {
    l.(phase := Resetting((if l.phase.Resetting? then l.phase.nexts else {}) + {next}))
  }

  /** The file cut behind its last whole record; until the next fsync a crash may bring the old tail back. */
  function Cut(l: Log): Log
    requires ValidLog(l)
  {
    var rs := TailRecords(l);
    assert NextSeq(l) + |rs| < SEQ_LIMIT;
    Log(l.first, l.recs, EncodeAll(rs, NextSeq(l)), if l.phase.Resetting? then l.phase else Unsynced)
  }

  lemma CutIsValid(l: Log)
    requires ValidLog(l)
    ensures ValidLog(Cut(l)) && TailRecords(Cut(l)) == TailRecords(l)
  {
    hide Encoded, Decode, Scan, Damage, Ready, EncodeAll;
    DamageOfWhole(TailRecords(l), NextSeq(l));
  }

  /** Before the machine crashes, the unsynced records are found whole, and nothing else is. */
  lemma KernelOpens(w: seq<Byte>, l: Log)
    requires ValidLog(l) && ReadsAs(w, l)
    ensures var o := Open(w);
      && o.Opened?
      && if l.phase.Resetting? then
           || (o.records == [] && (o.first == l.first || o.first in l.phase.nexts))
           || (o.records == l.recs + TailRecords(l) && o.first == l.first)
         else
           && o.first == l.first && o.records == l.recs + TailRecords(l)
           && (o.discarded == 0 && l.phase.Leftover? ==> l.tail == [])
  {
    hide Encoded, Decode, EncodeHeader, DecodeHeader, Scan, Damage, Open, Ready;
    if l.phase.Resetting? {
      var h: U64 :| Headed(l, h) && (w == EncodeHeader(h) || (w == Reheaded(l, h, l.tail) && Stale(l, h, l.tail)));
      if w == EncodeHeader(h) {
        EmptyNotReady(h);
        OpenOfHeader(h, []);
        assert w + [] == w;
      } else if h == l.first {
        assert w == LogBytes(l.first, l.recs, l.tail);
        OpenOfLog(l.first, l.recs, l.tail);
      } else {
        assert w == EncodeHeader(h) + (EncodeAll(l.recs, l.first) + l.tail);
        OpenOfHeader(h, EncodeAll(l.recs, l.first) + l.tail);
      }
    } else {
      OpenOfLog(l.first, l.recs, l.tail);
      if l.phase.Leftover? {
        ScanStop(l.tail, NextSeq(l));
      }
    }
  }

  /** The log as the next process finds it: everything that survived is durable. */
  function AfterCrash(w: seq<Byte>): Log
    requires Open(w).Opened?
  {
    var o := Open(w);
    OpenFactors(w);
    Log(o.first, o.records, w[o.len..], Leftover)
  }

  lemma AfterCrashValid(w: seq<Byte>)
    requires Open(w).Opened? && Open(w).first + |Open(w).records| < SEQ_LIMIT
    ensures ValidLog(AfterCrash(w)) && w == LogBytes(AfterCrash(w).first, AfterCrash(w).recs, AfterCrash(w).tail)
  {
    hide Encoded, Decode, EncodeHeader, DecodeHeader, Open;
    OpenFactors(w);
  }
}
