/** Crashes, restarts and opening keep the engine's invariant. */
module OpenSteps {
  import opened Bytes
  import opened Pages
  import opened WalRecord
  import opened WalLog
  import opened Wal
  import opened DataFile
  import opened Recovery
  import opened Fsync
  import opened Store
  import opened Engine
  import opened DiskInvariant
  import opened EngineInvariant

  // ----- history

  lemma {:induction false} ResolveExtend(attempts: seq<Attempt>, more: seq<Attempt>, applied: seq<bool>)
    requires |applied| <= |attempts| <= |more|
    requires forall i :: 0 <= i < |applied| ==> attempts[i].txn == more[i].txn
    ensures Resolve(attempts, applied) == Resolve(more, applied)
    decreases |applied|
  {
    if applied != [] {
      ResolveExtend(attempts, more, applied[..|applied| - 1]);
    }
  }

  lemma SettleKeepsHistory(s: State, took: bool)
    requires HistoryInv(s)
    ensures HistoryInv(Settle(s, took)) && Settle(s, took).doubt.NoDoubt?
    ensures Settle(s, took).base == Settled(s.base, s.doubt, took)
  {
    hide Apply, Store.Fresh;
    if s.doubt.Doubt? {
      var applied := s.applied + [took];
      assert applied[..|s.applied|] == s.applied;
    }
  }

  // ----- crashes

  lemma CrashedLog(w: seq<Byte>, found: seq<Record>, first: nat, d: Db)
    requires WalLog.Open(w).Opened? && WalLog.Open(w).records == found && WalLog.Open(w).first == first
    requires first + |found| < SEQ_LIMIT && ImagesValid(found, Committed(found))
    ensures var l := AfterCrash(w); ValidLog(l) && l.recs == found && l.phase == Leftover && TailInv(l, d, NoDoubt)
  {
    hide WalLog.Open, Encoded, Decode, Scan, ImagesValid, Redo, EncodeHeader, Damage;
    AfterCrashValid(w);
    var l := AfterCrash(w);
    ScanStop(l.tail, NextSeq(l));
    assert l.recs + TailRecords(l)[..0] == l.recs;
  }

  /** Power loss: what survives is again covered, with the commit in doubt settled by what is found. */
  lemma PowerLossKeepsDisk(s: State, c: File, w: seq<Byte>)
    requires DiskInv(s.files, s.fault, s.log, s.base, s.doubt, s.replay)
    requires |s.files| > 0 && Torn(c, s.files) && Survives(w, s.log) && WalLog.Open(w).Opened?
    requires Decided(s.log.recs, s.base, s.doubt, s.replay, WalLog.Open(w).records)
    ensures var t := DoPowerLoss(s, c, w);
      DiskInv(t.files, t.fault, t.log, t.base, t.doubt, t.replay) && ValidLog(t.log)
  {
    hide WalLog.Open, Encoded, Decode, Scan, ImagesValid, Redo, EncodeHeader, Damage, AfterCrash, Survives, Torn,
      AllHold, ValidDb, ValidTxn, BatchOf, Apply, TailInv, ValidLog, Covered, Took, Decided;
    SurvivorOpens(w, s.log);
    var found := WalLog.Open(w).records;
    FoundRestores(s.files, s.fault, s.log, s.base, s.doubt, s.replay, found);
    FoundBound(s.log, found, WalLog.Open(w).first);
    var d := Settled(s.base, s.doubt, Took(s.log.recs, s.doubt, s.replay, found));
    CrashedLog(w, found, WalLog.Open(w).first, d);
    CoveredSurvivor(c, s.files, d, Redo(found));
    DiskInvOf([c], AfterCrash(w), d);
    assert s.doubt.NoDoubt? ==> s.replay.Untouched?;
  }

  lemma DiskInvOf(files: seq<File>, l: Log, d: Db)
    requires ValidDb(d) && Versions(files) && ValidLog(l)
    requires RedoInv(l.recs, d) && Covered(files, d, Relied(l)) && TailInv(l, d, NoDoubt)
    ensures DiskInv(files, NoFault, l, d, NoDoubt, Untouched)
  {
    hide ValidDb, Versions, ValidLog, RedoInv, Covered, TailInv;
  }

  lemma FoundBound(l: Log, found: seq<Record>, first: nat)
    requires ValidLog(l) && MayRead(found, l)
    requires first == l.first || (l.phase.Resetting? && first in l.phase.nexts && found == [])
    ensures first + |found| < SEQ_LIMIT
  {
    hide Scan, Damage, Decode;
  }

  lemma CoveredSurvivor(c: File, files: seq<File>, d: Db, m: Images)
    requires |files| > 0 && Torn(c, files) && Covered(files, d, m)
    ensures Covered([c], d, m)
  {
    hide Torn, Holds;
    forall k: PageId | k in d.pages && k !in m
      ensures AllHold([c], k, d.pages[k])
    {
      TornKeeps(c, files, k, d.pages[k]);
    }
  }

  /** The process dies: files and log stay as the kernel has them, and so does any doubt about the last commit. */
  lemma KillKeeps(s: State)
    requires Inv(s)
    ensures Inv(s.(proc := Down))
  {
    hide DiskInv, ValidLog, HistoryInv, UpInv, OpenInv;
    SameHistory(s, s.(proc := Down));
  }

  lemma SameHistory(s: State, t: State)
    requires HistoryInv(s)
    requires t.attempts == s.attempts && t.applied == s.applied && t.base == s.base && t.doubt == s.doubt
    ensures HistoryInv(t)
  {
    hide Resolve;
  }

  lemma PowerLossKeeps(s: State, c: File, w: seq<Byte>)
    requires Inv(s) && Enabled(s, World(PowerLoss(c, w))) && Safe(s, World(PowerLoss(c, w)))
    ensures Inv(Do(s, World(PowerLoss(c, w))))
  {
    hide DiskInv, HistoryInv, UpInv, OpenInv, Torn, Survives, WalLog.Open, AfterCrash, BatchOf, Took, Decided;
    var took := Took(s.log.recs, s.doubt, s.replay, WalLog.Open(w).records);
    var t := DoPowerLoss(s, c, w);
    PowerLossKeepsDisk(s, c, w);
    SettleKeepsHistory(s, took);
    SameHistory(Settle(s, took), t);
  }

  // ----- opening

  /** Without a crash of the machine, what a restart finds never leaves a commit half applied. */
  lemma KernelDecides(s: State, found: seq<Record>)
    requires Inv(s) && (found == s.log.recs + TailRecords(s.log) || (s.log.phase.Resetting? && found == []))
    ensures MayRead(found, s.log)
    ensures s.replay.Untouched? || Took(s.log.recs, s.doubt, s.replay, found)
  {
    hide ValidDb, ValidLog, FaultInv, Versions, RedoInv, TailInv, Covered, HistoryInv, UpInv, OpenInv, TailRecords,
      Redo, BatchOf, Repairable, Absorbed;
  }

  lemma OpenLogKeeps(s: State, w: seq<Byte>)
    requires Inv(s) && OpenEnabled(s, OpenLog(w))
    ensures Inv(DoOpen(s, OpenLog(w)))
  {
    hide WalLog.Open, DiskInv, ValidLog, Restores, HistoryInv, ReadsAs, Redo, MayRead, TailRecords, Took;
    KernelOpens(w, s.log);
    var o := WalLog.Open(w);
    KernelDecides(s, o.records);
    FoundRestores(s.files, s.fault, s.log, s.base, s.doubt, s.replay, o.records);
    FoundBound(s.log, o.records, o.first);
    SameHistory(s, DoOpen(s, OpenLog(w)));
  }

  lemma CutKeepsDisk(s: State)
    requires DiskInv(s.files, s.fault, s.log, s.base, s.doubt, s.replay)
    ensures DiskInv(s.files, s.fault, Cut(s.log), s.base, s.doubt, s.replay)
    ensures TailRecords(Cut(s.log)) == TailRecords(s.log) && Cut(s.log).recs == s.log.recs
  {
    hide ValidDb, ValidLog, FaultInv, Versions, RedoInv, Covered, TailRecords, Redo, BatchOf, Repairable, EncodeAll,
      ValidTxn, Harmless;
    CutIsValid(s.log);
  }

  lemma CutTailKeeps(s: State)
    requires Inv(s) && OpenEnabled(s, CutTail)
    ensures Inv(DoOpen(s, CutTail)) && Inv(DoOpen(s, CutFailed))
  {
    hide DiskInv, ValidLog, Restores, HistoryInv, Redo, TailRecords, Took, EncodeAll;
    CutKeepsDisk(s);
    CutIsValid(s.log);
    SameHistory(s, DoOpen(s, CutTail));
    SameHistory(s, DoOpen(s, CutFailed));
    assert !Cut(s.log).phase.Leftover?;
  }

  /** Replaying a commit that was never fsynced: from the first write on, its pages may be in any state. */
  lemma DoubtWriteKeepsDisk(s: State, k: PageId, p: Page, files: seq<File>, fault: Fault)
    requires DiskInv(s.files, s.fault, s.log, s.base, s.doubt, s.replay) && WholeTail(s.log, s.doubt)
    requires var m := Redo(s.log.recs) + Effect(s.doubt.txn); k in m && m[k] == p
    requires |s.files| > 0 && Wrote(s.files, s.fault, k, p, files, fault)
    ensures DiskInv(files, fault, s.log, s.base, s.doubt, if s.replay.Untouched? then Started else s.replay)
  {
    hide ValidDb, ValidLog, RedoInv, Covered, TailRecords, Redo, BatchOf, WritePage, PartlyWritten, Wrote, FaultInv,
      ValidTxn, Apply, AddImages, Effect, Repairable;
    var recs, d, txn := s.log.recs, s.base, s.doubt.txn;
    WroteIs(s.files, s.fault, k, p, files, fault);
    var v := Last(files);
    if s.replay.Landed? {
      AppliedPage(recs, d, txn, k, p);
      CoveredWrite(s.files, Apply(d, txn), map[], k, p, v);
    } else {
      var m := Redo(recs) + Effect(txn);
      if s.replay.Untouched? {
        CoveredByMore(s.files, d, Redo(recs), m);
      }
      CoveredWrite(s.files, d, m, k, p, v);
      if Repairable(recs, d, txn) {
        RepairablePage(recs, d, txn, k, p);
        CoveredWrite(s.files, d, Redo(recs), k, p, v);
      }
    }
  }

  lemma AppliedPage(recs: seq<Record>, d: Db, t: Txn, k: PageId, p: Page)
    requires RedoInv(recs, d) && var m := Redo(recs) + Effect(t); k in m && m[k] == p
    ensures k in Apply(d, t).pages && Apply(d, t).pages[k] == p
  {
    hide Redo, ImagesValid, AddImages;
    AddImagesIsUnion(d.pages, t.images);
  }

  lemma RepairablePage(recs: seq<Record>, d: Db, t: Txn, k: PageId, p: Page)
    requires Repairable(recs, d, t) && var m := Redo(recs) + Effect(t); k in m && m[k] == p
    ensures k in Redo(recs) || k !in d.pages || p == d.pages[k]
  {
    hide Redo, AddImages;
  }

  lemma RestoreWrite(s: State, k: PageId, files: seq<File>, fault: Fault)
    requires Inv(s) && s.proc.Opening? && s.proc.stage.Restore? && k in s.proc.stage.todo
    requires Wrote(s.files, s.fault, k, s.proc.stage.todo[k], files, fault)
    ensures var t := Begun(s.(files := files, fault := fault));
      && DiskInv(t.files, t.fault, t.log, t.base, t.doubt, t.replay)
      && Target(t) == Target(s) && Restores(t.files, Target(t), t.proc.found)
      && (t.replay.Untouched? || Took(t.log.recs, t.doubt, t.replay, t.proc.found))
  {
    hide DiskInv, HistoryInv, Redo, ImagesValid, Wrote, RedoInv, Covered, BatchOf, TailRecords, Firm, Absorbed;
    var p := s.proc.stage.todo[k];
    assert k in Redo(s.proc.found) && p == Redo(s.proc.found)[k];
    RestoreKeepsTarget(s, k, p, files, fault);
    assert Versions(s.files) && FaultInv(s.files, s.fault) by { DiskBasics(s); }
    WroteIs(s.files, s.fault, k, p, files, fault);
    CoveredWrite(s.files, Target(s), Redo(s.proc.found), k, p, Last(files));
    if ReplaysDoubt(s) {
      assert WholeTail(s.log, s.doubt) by { ReplayIsWhole(s); }
      assert Redo(s.proc.found) == Redo(s.log.recs) + Effect(s.doubt.txn) by { DoubtRedo(s); }
      DoubtWriteKeepsDisk(s, k, p, files, fault);
    } else {
      assert s.replay.Untouched? by { NothingToReplay(s, k); }
      WriteKeepsDisk(s.files, s.fault, s.log, s.base, s.doubt, k, p, files, fault);
    }
  }

  lemma DiskBasics(s: State)
    requires DiskInv(s.files, s.fault, s.log, s.base, s.doubt, s.replay)
    ensures Versions(s.files) && FaultInv(s.files, s.fault) && ValidDb(s.base) && RedoInv(s.log.recs, s.base)
  {
    hide ValidDb, Versions, FaultInv, ValidLog, TailInv, ReplayInv, RedoInv;
  }

  lemma RestoreKeepsTarget(s: State, k: PageId, p: Page, files: seq<File>, fault: Fault)
    requires s.proc.Opening? && RedoInv(s.proc.found, Target(s))
    requires k in Redo(s.proc.found) && p == Redo(s.proc.found)[k]
    requires s.replay.Untouched? || Took(s.log.recs, s.doubt, s.replay, s.proc.found)
    ensures k in Target(s).pages && p == Target(s).pages[k]
    ensures var t := Begun(s.(files := files, fault := fault));
      && Target(t) == Target(s) && (t.replay.Untouched? || Took(t.log.recs, t.doubt, t.replay, t.proc.found))
  {
    hide Redo, ImagesValid, BatchOf, Absorbed;
  }

  lemma ReplayIsWhole(s: State)
    requires s.proc.Opening? && ReplaysDoubt(s)
    requires s.proc.found == s.log.recs + TailRecords(s.log) || (s.log.phase.Resetting? && s.proc.found == [])
    ensures WholeTail(s.log, s.doubt)
  {
    hide BatchOf, TailRecords;
    var batch := BatchOf(s.doubt.txn, s.doubt.id);
    BatchNotEmpty(s.doubt.txn, s.doubt.id);
    assert (s.log.recs + batch)[|s.log.recs|..] == batch;
    assert (s.log.recs + TailRecords(s.log))[|s.log.recs|..] == TailRecords(s.log);
  }

  lemma DoubtRedo(s: State)
    requires DiskInv(s.files, s.fault, s.log, s.base, s.doubt, s.replay) && s.doubt.Doubt?
    ensures Redo(s.log.recs + BatchOf(s.doubt.txn, s.doubt.id)) == Redo(s.log.recs) + Effect(s.doubt.txn)
  {
    hide ValidDb, ValidLog, Versions, FaultInv, ReplayInv, Redo, ImagesValid, BatchOf, AddImages, ValidTxn, TailRecords;
    ImagesValidOfBatch(s.log.recs, s.base, s.doubt.txn, s.doubt.id);
    AddImagesIsUnion(Redo(s.log.recs), s.doubt.txn.images);
  }

  /** Only a commit in doubt can be on its way into the file while there is still something to write. */
  lemma NothingToReplay(s: State, k: PageId)
    requires Inv(s) && s.proc.Opening? && !ReplaysDoubt(s) && k in Redo(s.proc.found)
    ensures s.replay.Untouched? && Target(s) == s.base
  {
    hide ValidDb, ValidLog, Versions, FaultInv, RedoInv, Covered, TailInv, HistoryInv, Redo, ImagesValid, BatchOf,
      TailRecords, Repairable, Absorbed, Firm, RestoreInv;
    RedoOfNothing();
  }

  lemma RestorePageKeeps(s: State, k: PageId)
    requires Inv(s) && OpenEnabled(s, RestorePage(k))
    ensures Inv(DoOpen(s, RestorePage(k)))
  {
    hide DiskInv, Restores, HistoryInv, Redo, ImagesValid, WritePage, Firm, ValidLog, Took, Target, TailRecords,
      ReplaysDoubt;
    var t := DoOpen(s, RestorePage(k));
    var p := s.proc.stage.todo[k];
    var u := Write(s, k, p);
    RestoreWrite(s, k, u.files, u.fault);
    assert Target(t) == Target(Begun(u)) by { SameTarget(Begun(u), t); }
    SameHistory(s, t);
    RestoreStep(s.files, s.fault, Redo(s.proc.found), s.proc.stage.todo, k);
  }

  lemma SameTarget(s: State, t: State)
    requires s.proc.Opening? && t.proc.Opening? && t.proc.found == s.proc.found
    requires t.log.recs == s.log.recs && t.doubt == s.doubt && t.replay == s.replay && t.base == s.base
    ensures Target(t) == Target(s) && ReplaysDoubt(t) == ReplaysDoubt(s)
  {
  }

  lemma RestoreStep(files: seq<File>, fault: Fault, redo: Images, todo: Images, k: PageId)
    requires |files| > 0 && RestoreInv(files, fault, redo, todo) && k in todo
    ensures RestoreInv(files + [WritePage(Last(files), k, todo[k])], Rewritten(fault, k, todo[k]), redo, todo - {k})
  {
    hide Firm, WritePage;
    forall j | j in redo && j !in todo - {k}
      ensures Firm(files + [WritePage(Last(files), k, todo[k])], Rewritten(fault, k, todo[k]), j, redo[j])
    {
      FirmAfterWrite(files, fault, k, todo[k], j, redo[j]);
    }
  }

  lemma RestoreFailedKeeps(s: State, k: PageId, v: File)
    requires Inv(s) && OpenEnabled(s, RestoreFailed(k, v))
    ensures Inv(DoOpen(s, RestoreFailed(k, v)))
  {
    hide DiskInv, Restores, HistoryInv, Redo, ImagesValid, WritePage, Firm, ValidLog, PartlyWritten, Took, Target,
      TailRecords, ReplaysDoubt;
    var u := WriteInPart(s, k, v);
    assert u.files[..|s.files|] == s.files;
    RestoreWrite(s, k, u.files, u.fault);
    SameHistory(s, DoOpen(s, RestoreFailed(k, v)));
  }

  /** After replay and its fsync, whatever survives of the file holds the whole database. */
  lemma RestoredCovers(files: seq<File>, fault: Fault, d: Db, redo: Images)
    requires |files| > 0 && FaultInv(files, fault) && Covered(files, d, redo) && Contained(redo, d)
    requires RestoreInv(files, fault, redo, map[])
    ensures Covered(AfterFsync(files, fault), d, map[])
  {
    hide AllHold, Firm, FaultInv, AfterFsync;
    forall k: PageId | k in d.pages
      ensures AllHold(AfterFsync(files, fault), k, d.pages[k])
    {
      if k in redo {
        SyncedFirm(files, fault, k, d.pages[k]);
      } else {
        SyncedKeeps(files, fault, k, d.pages[k]);
      }
    }
  }

  lemma RestoreSyncKeeps(s: State)
    requires Inv(s) && OpenEnabled(s, RestoreSync)
    ensures Inv(DoOpen(s, RestoreSync))
  {
    hide DiskInv, HistoryInv, Redo, ImagesValid, ValidLog, TailRecords, Covered, AfterFsync, RedoInv, ReplaysDoubt,
      Took, BatchOf;
    var redo := Redo(s.proc.found);
    var u := if redo == map[] then s else SyncFile(s);
    var t := DoOpen(s, RestoreSync);
    SameHistory(s, t);
    assert Versions(s.files) && FaultInv(s.files, s.fault) by { DiskBasics(s); }
    assert Contained(redo, Target(s)) by { RedoContained(s.proc.found, Target(s)); }
    if redo != map[] {
      RestoredCovers(s.files, s.fault, Target(s), redo);
      SyncKeepsDisk(s.files, s.fault, s.log, s.base, s.doubt, s.replay);
    }
    assert Covered(u.files, Target(s), map[]);
    ArrivedKeeps(s, u);
    CoveredByMore(t.files, Target(s), map[], redo);
    SameTarget(Arrived(u), t);
  }

  lemma RedoContained(recs: seq<Record>, d: Db)
    requires RedoInv(recs, d)
    ensures Contained(Redo(recs), d)
  {
  }

  lemma ArrivedKeeps(s: State, u: State)
    requires Inv(s) && s.proc.Opening? && u == s.(files := u.files) && Covered(u.files, Target(s), map[])
    requires DiskInv(u.files, u.fault, u.log, u.base, u.doubt, u.replay)
    ensures var t := Arrived(u);
      && DiskInv(t.files, t.fault, t.log, t.base, t.doubt, t.replay) && Target(t) == Target(s)
      && (ReplaysDoubt(t) ==> t.replay.Landed?)
      && (t.replay.Untouched? || Took(t.log.recs, t.doubt, t.replay, t.proc.found))
  {
    hide ValidDb, ValidLog, Versions, FaultInv, RedoInv, Covered, TailInv, HistoryInv, Redo, BatchOf, TailRecords,
      Repairable, Absorbed, RestoreInv;
    if ReplaysDoubt(s) {
      ReplayIsWhole(s);
    }
  }

  lemma RestoreSyncFailedKeeps(s: State)
    requires Inv(s) && OpenEnabled(s, RestoreSyncFailed)
    ensures Inv(DoOpen(s, RestoreSyncFailed))
  {
    hide ValidDb, ValidLog, Versions, RedoInv, Covered, TailInv, HistoryInv, Redo, BatchOf, TailRecords, Repairable,
      ImagesValid, OpenInv;
    SameHistory(s, DoOpen(s, RestoreSyncFailed));
  }

  lemma ReopenResetKeeps(s: State)
    requires Inv(s) && OpenEnabled(s, ReopenReset)
    ensures Inv(DoOpen(s, ReopenReset))
  {
    hide DiskInv, ValidDb, ValidLog, HistoryInv, Redo, DataFile.Open, Covered, TailRecords, Took, Target, Restores,
      BatchOf;
    var t := DoOpen(s, ReopenReset);
    SameHistory(s, t);
    SameTarget(s, t);
    assert ValidDb(Target(s)) by { TargetIsValid(s); }
    assert FileHolds(Last(s.files), Target(s)) by { CoveredHolds(s.files, Target(s)); }
    FileHoldsOpens(Last(s.files), Target(s));
    var nexts := t.log.phase.nexts;
    assert forall next :: next in nexts ==> next < SEQ_LIMIT by { NextsBound(s.log); }
    ResettingIsValid(s.log, nexts);
    SameTail(s.log, t.log);
    ResetKeepsDisk(s, t.log);
  }

  lemma TargetIsValid(s: State)
    requires Inv(s) && s.proc.Opening?
    ensures ValidDb(Target(s))
  {
    hide ValidDb, ValidLog, Versions, FaultInv, RedoInv, Covered, HistoryInv, Redo, BatchOf, TailRecords, ReplayInv,
      Took, ValidTxn, RestoreInv;
    if s.doubt.Doubt? {
      ApplyIsValid(s.base, s.doubt.txn);
    }
  }

  /** Emptying the log is safe once the file has everything. */
  lemma ResetKeepsDisk(s: State, l: Log)
    requires Inv(s) && s.proc.Opening? && Finished(s)
    requires l == s.log.(phase := l.phase) && l.phase.Resetting? && ValidLog(l) && TailRecords(l) == TailRecords(s.log)
    ensures DiskInv(s.files, s.fault, l, s.base, s.doubt, s.replay)
  {
    hide ValidDb, ValidLog, Versions, FaultInv, RedoInv, Covered, HistoryInv, Redo, BatchOf, TailRecords, Repairable,
      Absorbed, Harmless, ValidTxn, RestoreInv, Apply;
  }

  lemma NextsBound(l: Log)
    requires ValidLog(l)
    ensures l.phase.Resetting? ==> forall next :: next in l.phase.nexts ==> next < SEQ_LIMIT
  {
  }

  lemma SameTail(l: Log, k: Log)
    requires k.first == l.first && k.recs == l.recs && k.tail == l.tail
    ensures TailRecords(k) == TailRecords(l)
  {
  }

  lemma CoveredHolds(files: seq<File>, d: Db)
    requires |files| > 0 && Covered(files, d, map[])
    ensures FileHolds(Last(files), d)
  {
  }

  /** The log is empty and the file has everything: whatever was in doubt is settled, and the database is open. */
  lemma ReopenSyncKeeps(s: State)
    requires Inv(s) && OpenEnabled(s, ReopenSync)
    ensures Inv(DoOpen(s, ReopenSync))
  {
    hide DiskInv, ValidDb, ValidLog, HistoryInv, Redo, Covered, TailInv, UpInv, ImagesValid, Took, Restores, Apply;
    var t := DoOpen(s, ReopenSync);
    var took := Took(s.log.recs, s.doubt, s.replay, s.proc.found);
    SettleKeepsHistory(s, took);
    SameHistory(Settle(s, took), t);
    assert ValidDb(Target(s)) by { TargetIsValid(s); }
    assert Versions(s.files) && FaultInv(s.files, s.fault) by { DiskBasics(s); }
    assert t.replay.Untouched? by { NoDoubtUntouched(s); }
    QuietIsValid(s.proc.first + |s.proc.found|, []);
    RedoOfNothing();
    NothingIsValid();
    QuietTail(t.log, t.base);
    EmptyLogDisk(t);
    FreshIsUp(t, t.proc.mem);
  }

  /** A restart that gets through has a definite answer: the commit in doubt is in, or it is not. */
  lemma ReopenSettles(s: State)
    requires s.proc.Opening? && s.proc.stage.Reopening?
    ensures var t := DoReopenSync(s);
      t.doubt.NoDoubt? && t.base == Target(s) && t.shown == t.base && t.proc == Up(Engine.Fresh(s.proc.stage.count))
  {
    hide Took, Apply;
  }

  lemma NoDoubtUntouched(s: State)
    requires DiskInv(s.files, s.fault, s.log, s.base, s.doubt, s.replay)
    ensures s.doubt.NoDoubt? ==> s.replay.Untouched?
  {
    hide ValidDb, ValidLog, Versions, FaultInv, RedoInv, Covered, TailInv, Redo, BatchOf, TailRecords, Repairable;
  }

  lemma EmptyLogDisk(t: State)
    requires ValidDb(t.base) && Versions(t.files) && FaultInv(t.files, t.fault) && ValidLog(t.log)
    requires t.log.recs == [] && t.log.phase.Quiet? && Covered(t.files, t.base, map[])
    requires TailInv(t.log, t.base, NoDoubt)
    requires t.doubt.NoDoubt? && t.replay.Untouched?
    ensures DiskInv(t.files, t.fault, t.log, t.base, t.doubt, t.replay)
  {
    hide ValidDb, ValidLog, Versions, FaultInv, Covered, TailInv, Redo, ImagesValid;
    RedoOfNothing();
    NothingIsValid();
  }

  /** Every step of opening, and every failure in it, keeps the invariant. */
  lemma OpenKeeps(s: State, e: OpenEvent)
    requires Inv(s) && OpenEnabled(s, e)
    ensures Inv(DoOpen(s, e))
  {
    hide Inv, OpenEnabled, DoOpen;
    match e
    case OpenLog(w) => OpenLogKeeps(s, w);
    case CutTail => CutTailKeeps(s);
    case CutFailed => CutFailedKeeps(s);
    case RestorePage(k) => RestorePageKeeps(s, k);
    case RestoreFailed(k, v) => RestoreFailedKeeps(s, k, v);
    case RestoreSync => RestoreSyncKeeps(s);
    case RestoreSyncFailed => RestoreSyncFailedKeeps(s);
    case ReopenReset => ReopenResetKeeps(s);
    case ReopenSync => ReopenSyncKeeps(s);
    case OpenFailed => OpenFailedKeeps(s);
  }

  lemma CutFailedKeeps(s: State)
    requires Inv(s) && OpenEnabled(s, CutFailed)
    ensures Inv(DoOpen(s, CutFailed))
  {
    hide Inv, DoOpen;
    CutTailKeeps(s);
  }

  lemma OpenFailedKeeps(s: State)
    requires Inv(s) && OpenEnabled(s, OpenFailed)
    ensures Inv(DoOpen(s, OpenFailed))
  {
    hide DiskInv, HistoryInv, ValidLog;
    SameHistory(s, DoOpen(s, OpenFailed));
  }
}
