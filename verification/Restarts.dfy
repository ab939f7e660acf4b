/**
 * Reopening while the log file shows a commit that was never fsynced.
 *
 * `Wal::open` fsyncs the log only when it cut a tail off, so replay may write images whose log records
 * a later power loss still takes away. This module says exactly when that can break a transaction.
 */
module Restarts {
  import opened Bytes
  import opened Pages
  import opened WalRecord
  import opened WalLog
  import opened Wal
  import opened DataFile
  import opened Recovery
  import opened Fsync
  import opened Store
  import opened Engine
  import opened DiskInvariant
  import opened EngineInvariant
  import opened OpenSteps
  import opened CrashSafety
  import opened Runs
  import FileHeader

  /** Restarting, as often as it takes: opening, every failure in it, and the process dying again. */
  ghost predicate IsRestart(es: seq<Event>) {
    forall i :: 0 <= i < |es| ==> es[i].Reopen? || es[i] == World(Kill)
  }

  /** The commit is still in doubt and stands whole in the log file, or the restart has settled it: it is in. */
  ghost predicate Pending(s: State, t: State)
    requires s.doubt.Doubt?
  {
    || (t.doubt == s.doubt && t.base == s.base && t.log.recs == s.log.recs && WholeTail(t.log, t.doubt))
    || (t.doubt.NoDoubt? && t.base == Apply(s.base, s.doubt.txn))
  }

  lemma ReopenKeepsPending(s: State, t: State, e: OpenEvent)
    requires s.doubt.Doubt? && Inv(t) && Pending(s, t) && OpenEnabled(t, e)
    ensures Pending(s, DoOpen(t, e))
    ensures DoOpen(t, e).proc.Up? ==> DoOpen(t, e).doubt.NoDoubt?
  {
    hide DiskInv, ValidLog, HistoryInv, UpInv, TailRecords, BatchOf, WalLog.Open, DataFile.Open, ReadsAs, ImagesValid,
      Redo, AfterFsync, Cut, Apply, WritePage, PartlyWritten, Absorbed, Restores, RestoreInv;
    match e
    case CutTail => CutKeepsDisk(t);
    case CutFailed => CutKeepsDisk(t);
    case ReopenReset => SameTail(t.log, DoOpen(t, e).log);
    case ReopenSync =>
      if t.doubt.Doubt? {
        TookAtLast(t);
      }
    case _ =>
  }

  /** Once the file is replayed and the log reset, a commit that stood whole in the log is in. */
  lemma TookAtLast(t: State)
    requires Inv(t) && t.proc.Opening? && t.proc.stage.Reopening? && t.doubt.Doubt? && WholeTail(t.log, t.doubt)
    ensures Took(t.log.recs, t.doubt, t.replay, t.proc.found)
  {
    hide ValidDb, ValidLog, FaultInv, Versions, RedoInv, TailInv, Covered, HistoryInv, TailRecords, Redo, BatchOf,
      Repairable, Absorbed;
  }

  lemma {:induction false} RestartKeeps(s: State, t: State, es: seq<Event>, u: State)
    requires s.doubt.Doubt? && Inv(t) && Pending(s, t) && IsRestart(es) && Leads(t, es, u)
    ensures Inv(u) && Pending(s, u)
    ensures (t.proc.Up? ==> t.doubt.NoDoubt?) ==> u.proc.Up? ==> u.doubt.NoDoubt?
    decreases |es|
  {
    hide Inv, OpenEnabled, DoOpen, ValidLog, Pending, Safe;
    if es != [] {
      var v := Do(t, es[0]);
      assert es[0].Reopen? || es[0] == World(Kill);
      assert Pending(s, v) && (v.proc.Up? ==> v.doubt.NoDoubt?) by {
        if es[0].Reopen? {
          ReopenKeepsPending(s, t, es[0].open);
        } else {
          KillKeepsPending(s, t);
        }
      }
      assert Safe(t, es[0]) by { RestartIsSafe(t, es[0]); }
      StepKeeps(t, es[0], v);
      forall i | 0 <= i < |es[1..]|
        ensures es[1..][i].Reopen? || es[1..][i] == World(Kill)
      {
        assert es[1..][i] == es[i + 1];
      }
      RestartKeeps(s, v, es[1..], u);
    }
  }

  lemma KillKeepsPending(s: State, t: State)
    requires s.doubt.Doubt? && Pending(s, t)
    ensures Pending(s, t.(proc := Down))
  {
    hide TailRecords, BatchOf, Apply;
  }

  lemma RestartIsSafe(t: State, e: Event)
    requires e.Reopen? || e == World(Kill)
    ensures Safe(t, e)
  {
  }

  /**
   * The answer reopening gives about a commit whose fsync failed, or whose process died before it: if
   * all its records stand in the log file, every restart that gets through without a power loss,
   * however often it failed or was killed on the way, has applied it.
   */
  lemma RestartApplies(s: State, es: seq<Event>, t: State)
    requires Inv(s) && UnsyncedCommitVisible(s) && !s.proc.Up? && IsRestart(es) && Leads(s, es, t) && t.proc.Up?
    ensures Inv(t) && t.doubt.NoDoubt? && t.base == Apply(s.base, s.doubt.txn)
  {
    hide Inv, Leads, IsRestart, TailRecords, BatchOf, Apply;
    RestartKeeps(s, s, es, t);
  }

  // ----- losing power on the way

  ghost predicate OldOrNew(s: State, c: File, w: seq<Byte>)
    requires s.doubt.Doubt?
  {
    Yields(OpenDatabase(c, w), s.base) || Yields(OpenDatabase(c, w), Apply(s.base, s.doubt.txn))
  }

  /**
   * If the commit only changes pages already logged since the last checkpoint, pages past the old end,
   * or nothing, a power loss anywhere in the restart, up to and past the reset of the log, is harmless.
   */
  lemma RepairableIsSafe(s: State, es: seq<Event>, t: State, c: File, w: seq<Byte>)
    requires Inv(s) && UnsyncedCommitVisible(s) && Repairable(s.log.recs, s.base, s.doubt.txn)
    requires IsRestart(es) && Leads(s, es, t) && Crashes(t, c, w)
    ensures OldOrNew(s, c, w)
  {
    hide Inv, Leads, IsRestart, TailRecords, BatchOf, Apply, Torn, Survives, ValidLog, OpenDatabase, Yields, Repairable,
      Took, WalLog.Open;
    RestartKeeps(s, s, es, t);
    assert t.doubt.NoDoubt? ==> t.replay.Untouched? by { InvUntouched(t); }
    CrashYields(t, c, w);
  }

  lemma InvUntouched(t: State)
    requires Inv(t)
    ensures t.doubt.NoDoubt? ==> t.replay.Untouched?
  {
    hide DiskInv, HistoryInv, UpInv, OpenInv, ValidLog;
    NoDoubtUntouched(t);
  }

  // ----- and otherwise it is not

  /** One byte of the new image in an otherwise old page. */
  lemma OneByteTorn(vs: seq<File>, k: PageId, old': Page, new': Page, i: nat) returns (c: File)
    requires Versions(vs) && AllHold(vs, k, old') && i < 4096
    ensures Torn(c, vs + [WritePage(Last(vs), k, new')])
    ensures |c| == |Last(vs)| && Holds(c, k, old'[i := new'[i]])
  {
    AllHoldLast(vs, k, old');
    var at := 4096 * k + i;
    var f := Last(vs);
    var ws := vs + [WritePage(f, k, new')];
    c := f[at := new'[i]];
    forall x | 0 <= x < |c|
      ensures exists j :: 0 <= j < |ws| && c[x] == ByteAt(ws[j], x)
    {
      if x == at {
        assert c[x] == ByteAt(ws[|ws| - 1], x);
      } else {
        assert c[x] == ByteAt(ws[|ws| - 2], x);
      }
    }
  }

  lemma OneByteBurst(p: Page, q: Page, i: nat, b: Byte)
    requires i < 4096 && b != p[i] && q == p[i := b]
    ensures Burst(p, q, if i < 4 then 0 else i)
  {
  }

  /** The durable records alone, with the batch lost: a possible survivor. */
  lemma BatchLost(l: Log) returns (w: seq<Byte>)
    requires ValidLog(l) && l.phase.Unsynced?
    ensures Survives(w, l) && WalLog.Open(w).Opened? && WalLog.Open(w).records == l.recs
  {
    hide WalLog.Open, Encoded, Decode, EncodeHeader, Scan, DecodeHeader, Ready;
    w := LogBytes(l.first, l.recs, []);
    EmptyNotReady(NextSeq(l));
    assert Damage([], TailRecords(l), NextSeq(l));
    OpenOfLog(l.first, l.recs, []);
    ScanNothing(NextSeq(l));
    assert l.recs + [] == l.recs;
  }

  lemma BrokenHeader(f: File, n: U64, i: nat, b: Byte)
    requires n >= 1 && i < 4096 && b != FileHeader.Encode(n)[i] && Holds(f, 0, FileHeader.Encode(n)[i := b])
    ensures DataFile.Open(f).Refused?
  {
    hide FileHeader.Encode, FileHeader.Decode;
    var p := FileHeader.Encode(n);
    var q := p[i := b];
    OneByteBurst(p, q, i, b);
    FileHeader.RoundTrip(n);
    FileHeader.BurstRejected(p, q, if i < 4 then 0 else i);
    HoldsUnique(f, 0, q);
    assert f[..4096] == PageAt(f, 0);
  }

  lemma BrokenData(f: File, count: nat, k: PageId, p: Page, i: nat, b: Byte)
    requires 0 < k < count && Verified(p, k) && i < 4096 && b != p[i] && Holds(f, k, p[i := b])
    ensures ReadPage(f, count, k).Failed?
  {
    hide ActualChecksum, StoredChecksum;
    var q := p[i := b];
    OneByteBurst(p, q, i, b);
    Pages.BurstRejected(p, k, q, if i < 4 then 0 else i, k);
    HoldsUnique(f, k, q);
  }

  /** A page `k` with one byte changed reopens as neither the old database nor any that kept page `k` readable. */
  lemma BrokenPage(f: File, d: Db, k: PageId, i: nat, b: Byte, e: Db)
    requires ValidDb(d) && k in d.pages && i < 4096 && b != d.pages[k][i]
    requires Holds(f, k, d.pages[k][i := b])
    requires ValidDb(e) && e.count >= d.count
    ensures var o := DataFile.Open(f);
      o.Opened? ==> !Yields(Usable(f, o.pageCount), d) && !Yields(Usable(f, o.pageCount), e)
  {
    hide Verified, FileHeader.Encode, DataFile.Open, ReadPage, Holds;
    if k == 0 {
      BrokenHeader(f, d.count, i, b);
    } else {
      BrokenData(f, d.count, k, d.pages[k], i, b);
      BrokenData(f, e.count, k, d.pages[k], i, b);
    }
  }

  lemma BrokenReopens(c: File, w: seq<Byte>, found: seq<Record>, d: Db, e: Db)
    requires WalLog.Open(w).Opened? && WalLog.Open(w).records == found
    requires var f := Overlay(c, Redo(found)); var o := DataFile.Open(f);
      o.Opened? ==> !Yields(Usable(f, o.pageCount), d) && !Yields(Usable(f, o.pageCount), e)
    ensures !Yields(OpenDatabase(c, w), d) && !Yields(OpenDatabase(c, w), e)
  {
    hide WalLog.Open, DataFile.Open, ReadPage, Redo, Overlay, ImagesValid;
  }

  /** The process dies, the next one opens the log and finds the whole batch. */
  lemma ReplayReady(s: State) returns (es: seq<Event>, t: State)
    requires Inv(s) && UnsyncedCommitVisible(s) && s.replay.Untouched?
    ensures IsRestart(es) && Leads(s, es, t) && t.log.phase.Unsynced? && ValidLog(t.log)
    ensures t == s.(log := t.log, proc := t.proc) && t.log.recs == s.log.recs
    ensures t.proc.Opening? && t.proc.found == s.log.recs + BatchOf(s.doubt.txn, s.doubt.id)
    ensures t.proc.stage == Restore(Redo(t.proc.found)) && ImagesValid(t.proc.found, Committed(t.proc.found))
  {
    hide Inv, Leads, TailRecords, BatchOf, ValidLog, WalLog.Open, Redo, ImagesValid, ReadsAs, Step, Cut;
    var s1 := s.(proc := Down);
    KillKeeps(s);
    assert |s.files| > 0 && ValidLog(s.log) && s.log.phase.Unsynced? by { VisibleIsUnsynced(s); }
    assert Step(s, World(Kill), s1) by { KillIsStep(s); }
    LeadsStep(s, World(Kill), s1);
    var w := LogNow(s.log);
    KernelOpens(w, s.log);
    var o := WalLog.Open(w);
    assert o.records == s.log.recs + BatchOf(s.doubt.txn, s.doubt.id);
    var s2 := s1.(proc := Opening(o.first, o.records, if o.discarded > 0 then Truncate else Restore(Redo(o.records))));
    assert Step(s1, Reopen(OpenLog(w)), s2) by { OpenLogIsStep(s1, w, s2); }
    LeadsStep(s1, Reopen(OpenLog(w)), s2);
    LeadsOn(s, [World(Kill)], s1, [Reopen(OpenLog(w))], s2);
    assert Inv(s2) by { StepKeeps(s1, Reopen(OpenLog(w)), s2); }
    assert ImagesValid(o.records, Committed(o.records)) by { OpeningValid(s2); }
    if o.discarded > 0 {
      CutIsValid(s.log);
      t := s2.(log := Cut(s.log), proc := s2.proc.(stage := Restore(Redo(o.records))));
      assert Cut(s.log).recs == s.log.recs && Cut(s.log).phase.Unsynced? by { CutOf(s.log); }
      assert Step(s2, Reopen(CutTail), t) by { CutIsStep(s2, t); }
      LeadsStep(s2, Reopen(CutTail), t);
      LeadsOn(s, [World(Kill)] + [Reopen(OpenLog(w))], s2, [Reopen(CutTail)], t);
      es := [World(Kill)] + [Reopen(OpenLog(w))] + [Reopen(CutTail)];
    } else {
      t := s2;
      es := [World(Kill)] + [Reopen(OpenLog(w))];
    }
  }

  lemma VisibleIsUnsynced(s: State)
    requires Inv(s) && UnsyncedCommitVisible(s) && s.replay.Untouched?
    ensures |s.files| > 0 && ValidLog(s.log) && s.log.phase.Unsynced?
  {
    hide ValidDb, FaultInv, Versions, RedoInv, Covered, HistoryInv, UpInv, OpenInv, TailRecords, Redo, BatchOf,
      ValidTxn;
  }

  lemma CutOf(l: Log)
    requires ValidLog(l) && !l.phase.Resetting?
    ensures Cut(l).recs == l.recs && Cut(l).phase.Unsynced?
  {
    hide ValidLog;
  }

  lemma KillIsStep(s: State)
    requires |s.files| > 0 && ValidLog(s.log)
    ensures Step(s, World(Kill), s.(proc := Down))
  {
    hide ValidLog;
  }

  lemma OpenLogIsStep(s: State, w: seq<Byte>, t: State)
    requires |s.files| > 0 && ValidLog(s.log) && s.proc.Down? && ReadsAs(w, s.log) && WalLog.Open(w).Opened?
    requires var o := WalLog.Open(w);
      t == s.(proc := Opening(o.first, o.records, if o.discarded > 0 then Truncate else Restore(Redo(o.records))))
    ensures Step(s, Reopen(OpenLog(w)), t) && Safe(s, Reopen(OpenLog(w)))
  {
    hide ValidLog, ReadsAs, WalLog.Open, Redo;
  }

  lemma CutIsStep(s: State, t: State)
    requires |s.files| > 0 && ValidLog(s.log) && s.proc.Opening? && s.proc.stage.Truncate?
    requires t == s.(log := Cut(s.log), proc := s.proc.(stage := Restore(Redo(s.proc.found))))
    ensures Step(s, Reopen(CutTail), t)
  {
    hide ValidLog, Cut, Redo;
  }

  lemma OpeningValid(s: State)
    requires Inv(s) && s.proc.Opening?
    ensures ImagesValid(s.proc.found, Committed(s.proc.found))
  {
    hide DiskInv, HistoryInv, ValidLog, Covered, Took, RestoreInv, TailRecords, ImagesValid, Redo, Target;
  }

  /**
   * Otherwise it is not: if the commit changes a page for the first time since the last checkpoint, one
   * write of the replay and a power loss that takes the unsynced batch away leave a database that is
   * neither the one before the commit nor the one after.
   */
  lemma UnrepairableIsUnsafe(s: State) returns (es: seq<Event>, t: State, c: File, w: seq<Byte>)
    requires Inv(s) && UnsyncedCommitVisible(s) && s.replay.Untouched?
    requires !Repairable(s.log.recs, s.base, s.doubt.txn)
    ensures IsRestart(es) && Leads(s, es, t) && Crashes(t, c, w) && !OldOrNew(s, c, w)
  {
    hide Inv, Leads, WalLog.Open, Torn, Survives, BatchOf, TailRecords, Redo, WritePage, ValidDb, AddImages, Overlay,
      Yields, OpenDatabase, ImagesValid, ValidLog, Apply, Step, DataFile.Open;
    var recs, d, txn := s.log.recs, s.base, s.doubt.txn;
    var k: PageId :| k in Effect(txn) && k in d.pages && k !in Redo(recs) && Effect(txn)[k] != d.pages[k];
    var p, q := d.pages[k], Effect(txn)[k];
    var i :| 0 <= i < 4096 && q[i] != p[i];
    var es1, u := ReplayReady(s);
    assert k in Redo(u.proc.found) && Redo(u.proc.found)[k] == q by { FoundRedo(s); }
    var e := Reopen(RestorePage(k));
    assert |u.files| > 0 && Versions(s.files) && AllHold(s.files, k, p) by { FilePage(s, k); }
    t := Begun(Write(u, k, q)).(proc := u.proc.(stage := Restore(Redo(u.proc.found) - {k})));
    assert Step(u, e, t) by { RestoreIsStep(u, k, t); }
    LeadsStep(u, e, t);
    LeadsOn(s, es1, u, [e], t);
    es := es1 + [e];
    c := OneByteTorn(s.files, k, p, q, i);
    w := BatchLost(t.log);
    assert t.files == s.files + [WritePage(Last(s.files), k, q)];
    BrokenByReplay(s, t, k, i, c, w);
  }

  lemma FoundRedo(s: State)
    requires Inv(s) && s.doubt.Doubt?
    ensures Redo(s.log.recs + BatchOf(s.doubt.txn, s.doubt.id)) == Redo(s.log.recs) + Effect(s.doubt.txn)
  {
    hide DiskInv, HistoryInv, UpInv, OpenInv, ValidLog;
    DoubtRedo(s);
  }

  lemma FilePage(s: State, k: PageId)
    requires Inv(s) && UnsyncedCommitVisible(s) && s.replay.Untouched? && k in s.base.pages && k !in Redo(s.log.recs)
    ensures |s.files| > 0 && Versions(s.files) && AllHold(s.files, k, s.base.pages[k])
  {
    hide ValidDb, ValidLog, FaultInv, Versions, RedoInv, HistoryInv, UpInv, OpenInv, TailRecords, Redo, BatchOf,
      AllHold;
  }

  lemma RestoreIsStep(u: State, k: PageId, t: State)
    requires |u.files| > 0 && ValidLog(u.log) && u.proc.Opening? && u.proc.stage == Restore(Redo(u.proc.found))
    requires ImagesValid(u.proc.found, Committed(u.proc.found)) && k in Redo(u.proc.found)
    requires t == Begun(Write(u, k, Redo(u.proc.found)[k]))
                    .(proc := u.proc.(stage := Restore(Redo(u.proc.found) - {k})))
    ensures Step(u, Reopen(RestorePage(k)), t)
  {
    hide ValidLog, ImagesValid, Redo, WritePage, Begun;
  }

  lemma BrokenByReplay(s: State, t: State, k: PageId, i: nat, c: File, w: seq<Byte>)
    requires Inv(s) && s.doubt.Doubt? && k in Effect(s.doubt.txn) && k in s.base.pages && k !in Redo(s.log.recs)
    requires i < 4096 && Effect(s.doubt.txn)[k][i] != s.base.pages[k][i]
    requires Holds(c, k, s.base.pages[k][i := Effect(s.doubt.txn)[k][i]])
    requires WalLog.Open(w).Opened? && WalLog.Open(w).records == s.log.recs
    ensures !OldOrNew(s, c, w)
  {
    hide WalLog.Open, Versions, FaultInv, DataFile.Open, ReadPage, BatchOf, TailRecords, Redo, Holds, HistoryInv, UpInv,
      OpenInv, ValidDb, ValidTxn, AddImages, Overlay, Yields, ImagesValid, ValidLog, OpenDatabase, ReplayInv, Covered;
    var d, txn := s.base, s.doubt.txn;
    var b := Effect(txn)[k][i];
    var f := Overlay(c, Redo(s.log.recs));
    OverlayKeeps(c, Redo(s.log.recs), k, d.pages[k][i := b]);
    ApplyIsValid(d, txn);
    ApplyGrows(d, txn);
    BrokenPage(f, d, k, i, b, Apply(d, txn));
    BrokenReopens(c, w, s.log.recs, d, Apply(d, txn));
  }

  /**
   * The exact condition: every power loss at every point of every restart, from the first look at the
   * log until its reset is fsynced and beyond, leaves the old or the new database if and only if each
   * page the commit changes already has an image in the durable log, lies past the old end, or keeps
   * its contents.
   */
  lemma RestartExact(s: State)
    requires Inv(s) && UnsyncedCommitVisible(s) && s.replay.Untouched?
    ensures (forall es, t, c, w :: IsRestart(es) && Leads(s, es, t) && Crashes(t, c, w) ==> OldOrNew(s, c, w))
            <==> Repairable(s.log.recs, s.base, s.doubt.txn)
  {
    hide Inv, Leads, IsRestart, TailRecords, BatchOf, Repairable, Crashes, OldOrNew;
    if Repairable(s.log.recs, s.base, s.doubt.txn) {
      forall es, t, c, w | IsRestart(es) && Leads(s, es, t) && Crashes(t, c, w)
        ensures OldOrNew(s, c, w)
      {
        RepairableIsSafe(s, es, t, c, w);
      }
    } else {
      var es, t, c, w := UnrepairableIsUnsafe(s);
    }
  }
}
