/** Checkpoints keep the engine's invariant: the log is emptied only once the synced file holds everything. */
module CheckpointSteps {
  import opened Pages
  import opened WalLog
  import opened Wal
  import opened DataFile
  import opened Recovery
  import opened Fsync
  import opened Store
  import opened Engine
  import opened DiskInvariant
  import opened EngineInvariant
  import opened OpenSteps
  import opened CacheSteps
  import FileHeader

  /** Steps that only move the lock holder on, or make it give up. */
  lemma RetaskKeeps(s: State, m: Memory, n: Memory)
    requires Inv(s) && s.proc == Up(m)
    requires n == m.(task := n.task, poisoned := n.poisoned, logPoisoned := n.logPoisoned)
    requires !m.task.Publishing? && !n.task.Publishing?
    requires (m.poisoned ==> n.poisoned) && (n.logPoisoned ==> n.poisoned)
    requires PhaseInv(s, n) && TaskInv(s, n)
    ensures Inv(s.(proc := Up(n)))
  {
    hide DiskInv, HistoryInv, ValidLog, ValidDb, DirtyInv, IdInv, ReaderInv, TaskInv, Shows, PartInv, HalfInv;
    var t := s.(proc := Up(n));
    SameHistory(s, t);
    SameDirty(s, t, m, n);
    SameIds(s, t, m, n);
    SameShows(s, t, m, n);
    SameHalf(s, t, m, n);
    assert ReaderInv(t, n) by { RetaskReaders(s, t, m, n); }
    assert TaskInv(t, n) by { SameTask(s, t, n, n); }
  }

  lemma RetaskReaders(s: State, t: State, m: Memory, n: Memory)
    requires ReaderInv(s, m) && t.shown == s.shown && n.readers == m.readers && !n.task.Publishing?
    ensures ReaderInv(t, n)
  {
  }

  ghost predicate Flushes(task: Task) {
    task.Flushing? || task.Flushed? || task.HeaderWritten? || task.Synced?
  }

  /** Giving up poisons the database and changes nothing else. */
  lemma PoisonKeeps(s: State, m: Memory)
    requires Inv(s) && s.proc == Up(m) && Flushes(m.task)
    ensures Inv(Poison(s))
  {
    hide DiskInv, HistoryInv, ValidLog, ValidDb, DirtyInv, IdInv, ReaderInv, Kept, Firm, Covered, Shows, HalfInv;
    RetaskKeeps(s, m, m.(task := Idle, poisoned := true));
  }

  // ----- fsync

  lemma VisibleAfterSync(s: State, m: Memory, k: PageId, p: Page)
    requires |s.files| > 0 && FaultInv(s.files, s.fault) && Visible(s, m, k, p)
    ensures Visible(SyncFile(s), m, k, p)
  {
    hide Holds, Firm, FaultInv, AfterFsync;
    SyncedLast(s.files, s.fault);
    if k !in m.dirty && Firm(s.files, s.fault, k, p) {
      FirmAfterSync(s.files, s.fault, k, p);
    }
  }

  lemma ShowsAfterSync(s: State, m: Memory, d: Db)
    requires |s.files| > 0 && FaultInv(s.files, s.fault) && Shows(s, m, d)
    ensures Shows(SyncFile(s), m, d)
  {
    hide Visible, FaultInv, AfterFsync;
    forall k: PageId | 0 < k < d.count && k in d.pages
      ensures Visible(SyncFile(s), m, k, d.pages[k])
    {
      VisibleAfterSync(s, m, k, d.pages[k]);
    }
  }

  lemma PartAfterSync(s: State, m: Memory, txn: Txn, todo: seq<Image>)
    requires |s.files| > 0 && FaultInv(s.files, s.fault) && PartInv(s, m, txn, todo)
    ensures PartInv(SyncFile(s), m, txn, todo)
  {
    hide Visible, FaultInv, AfterFsync, Installed, DataImages, ValidTxn, Apply;
    var t := SyncFile(s);
    var installed := Installed(txn, todo);
    forall j | j in installed
      ensures Visible(t, m, j, installed[j])
    {
      VisibleAfterSync(s, m, j, installed[j]);
    }
    forall j: PageId | 0 < j < s.shown.count && j in s.shown.pages && j !in installed
      ensures Visible(t, m, j, s.shown.pages[j])
    {
      VisibleAfterSync(s, m, j, s.shown.pages[j]);
    }
  }

  lemma KeptAfterSync(s: State, m: Memory)
    requires |s.files| > 0 && Versions(s.files) && FaultInv(s.files, s.fault) && Kept(s, m)
    ensures Kept(SyncFile(s), m)
  {
    hide FaultInv, AfterFsync, Sure, Versions, Reach, End;
    if FlushKeeps(s, m) {
      var t := SyncFile(s);
      SyncedReach(s.files, s.fault);
      forall j: PageId | 0 < j < s.base.count && j in s.base.pages
        ensures KeptPage(t, m, j, s.base.pages[j])
      {
        assert KeptPage(s, m, j, s.base.pages[j]);
        if j !in m.dirty {
          SyncedSure(s.files, s.fault, j, s.base.pages[j]);
        }
      }
    }
  }

  /** A successful fsync: what the process reads is unchanged, and the rewritten pages are durable. */
  lemma SyncKeeps(s: State, m: Memory)
    requires Inv(s) && s.proc == Up(m) && (m.task.Flushing? || m.task.HeaderWritten?)
    ensures Inv(SyncFile(s))
  {
    hide DiskInv, ValidDb, ValidLog, HistoryInv, TaskInv, HalfInv, Shows, DirtyInv, IdInv, ReaderInv, AfterFsync,
      Versions, FaultInv;
    var t := SyncFile(s);
    SameHistory(s, t);
    DiskBasics(s);
    SyncKeepsDisk(s.files, s.fault, s.log, s.base, s.doubt, s.replay);
    assert DirtyInv(t, m) by { SameDirty(s, t, m, m); }
    assert IdInv(t, m) by { SameIds(s, t, m, m); }
    assert ReaderInv(t, m) by { SameReaders(s, t, m); }
    assert HalfInv(t, m) by { HalfAfterSync(s, m); }
    if s.half.Whole? {
      ShowsAfterSync(s, m, s.shown);
    }
    TaskAfterSync(s, m);
  }

  lemma HalfAfterSync(s: State, m: Memory)
    requires |s.files| > 0 && FaultInv(s.files, s.fault) && HalfInv(s, m)
    ensures HalfInv(SyncFile(s), m)
  {
    hide PartInv, FaultInv, AfterFsync;
    if s.half.Half? {
      PartAfterSync(s, m, s.half.txn, s.half.todo);
    }
  }

  lemma TaskAfterSync(s: State, m: Memory)
    requires |s.files| > 0 && Versions(s.files) && FaultInv(s.files, s.fault) && ValidLog(s.log) && TaskInv(s, m)
    requires m.task.Flushing? || m.task.HeaderWritten?
    ensures TaskInv(SyncFile(s), m)
  {
    hide ValidLog, Kept, Firm, Versions, FaultInv, AfterFsync, FileHeader.Encode;
    KeptAfterSync(s, m);
    if m.task.HeaderWritten? {
      FirmAfterSync(s.files, s.fault, 0, FileHeader.Encode(m.pageCount));
    }
  }

  /** The fsync fails: nothing is lost yet, but the database is poisoned and the file is suspect. */
  lemma SyncFailedKeeps(s: State, m: Memory)
    requires Inv(s) && s.proc == Up(m) && (m.task.Flushing? || m.task.HeaderWritten?)
    ensures Inv(Poison(FailSync(s)))
  {
    hide ValidDb, ValidLog, HistoryInv, Shows, DirtyInv, IdInv, ReaderInv, PartInv, Versions, RedoInv, TailInv,
      ReplayInv, Kept, Firm;
    var t := Poison(FailSync(s));
    var n := t.proc.mem;
    SameHistory(s, t);
    assert DirtyInv(t, n) by { SameDirty(s, t, m, n); }
    assert IdInv(t, n) by { SameIds(s, t, m, n); }
    assert ReaderInv(t, n) by { RetaskReaders(s, t, m, n); }
    if s.half.Whole? {
      ShowsPoisoned(s, t, m, n, s.shown);
    } else {
      PartPoisoned(s, t, m, n, s.half.txn, s.half.todo);
    }
  }

  lemma ShowsPoisoned(s: State, t: State, m: Memory, n: Memory, d: Db)
    requires |s.files| > 0 && t.files == s.files && n.dirty == m.dirty && n.poisoned && Shows(s, m, d)
    ensures Shows(t, n, d)
  {
    hide Holds, Firm;
  }

  lemma PartPoisoned(s: State, t: State, m: Memory, n: Memory, txn: Txn, todo: seq<Image>)
    requires |s.files| > 0 && t.files == s.files && n.dirty == m.dirty && n.poisoned
    requires PartInv(s, m, txn, todo) && t.base == s.base && t.shown == s.shown
    ensures PartInv(t, n, txn, todo)
  {
    hide Holds, Firm, Installed, DataImages, ValidTxn, Apply;
  }

  // ----- flushing

  lemma FlushPageKeeps(s: State, m: Memory, k: PageId)
    requires Inv(s) && s.proc == Up(m) && CheckpointEnabled(s, m, FlushPage(k))
    ensures Inv(DoCheckpoint(s, m, FlushPage(k)))
  {
    hide DiskInv, HistoryInv, ValidLog, ValidDb, DirtyInv, IdInv, ReaderInv, Shows, WritePage, PartlyWritten, Sealed,
      CountInv, HalfInv, Kept;
    var task := Flushing(m.task.rest - {k});
    if k in m.dirty {
      DirtyPage(s, m, k);
      var n := m.(dirty := m.dirty - {k});
      var t := Write(s, k, m.dirty[k]).(proc := Up(n));
      WriteBackKeeps(s, m, k, t, n);
      SameKept(t, t, n, n.(task := task));
      RetaskKeeps(t, n, n.(task := task));
    } else {
      SameKept(s, s, m, m.(task := task));
      RetaskKeeps(s, m, m.(task := task));
    }
  }

  lemma FlushFailedKeeps(s: State, m: Memory, k: PageId, v: File)
    requires Inv(s) && s.proc == Up(m) && CheckpointEnabled(s, m, FlushFailed(k, v))
    ensures Inv(DoCheckpoint(s, m, FlushFailed(k, v)))
  {
    hide DiskInv, HistoryInv, ValidLog, ValidDb, DirtyInv, IdInv, ReaderInv, Shows, WritePage, PartlyWritten, Sealed,
      CountInv, PhaseInv, TaskInv, HalfInv;
    DirtyPage(s, m, k);
    assert (s.files + [v])[..|s.files|] == s.files;
    WriteBackKeeps(s, m, k, WriteInPart(s, k, v), m);
    PoisonKeeps(WriteInPart(s, k, v), m);
  }

  lemma FlushSyncKeeps(s: State, m: Memory)
    requires Inv(s) && s.proc == Up(m) && CheckpointEnabled(s, m, FlushSync)
    ensures Inv(DoCheckpoint(s, m, FlushSync))
  {
    hide DiskInv, HistoryInv, ValidLog, ValidDb, DirtyInv, IdInv, ReaderInv, Shows, CountInv, HalfInv, Kept, AfterFsync;
    SyncKeeps(s, m);
    assert m.dirty == map[];
    SameKept(SyncFile(s), SyncFile(s), m, m.(task := Flushed));
    RetaskKeeps(SyncFile(s), m, m.(task := Flushed));
  }

  // ----- the header

  lemma HeaderOfBase(s: State, m: Memory)
    requires Inv(s) && s.proc == Up(m) && !m.task.Publishing? && Agreed(s)
    ensures m.pageCount == s.base.count && 0 in s.base.pages && s.base.pages[0] == FileHeader.Encode(m.pageCount)
  {
    hide ValidLog, Versions, FaultInv, RedoInv, TailInv, ReplayInv, HistoryInv, DirtyInv, IdInv, ReaderInv, Shows,
      TaskInv, PhaseInv, FileHeader.Encode, Verified, HalfInv;
  }

  lemma VisibleElsewhere(s: State, m: Memory, k: PageId, p: Page, t: State, j: PageId, q: Page)
    requires |s.files| > 0 && Wrote(s.files, s.fault, k, p, t.files, t.fault) && j != k && Visible(s, m, j, q)
    ensures |t.files| > 0 && Visible(t, m, j, q)
  {
    hide Holds, WritePage, PartlyWritten, Firm;
    if t.files == s.files + [WritePage(Last(s.files), k, p)] && t.fault == Rewritten(s.fault, k, p) {
      if j !in m.dirty {
        WriteKeeps(Last(s.files), k, p, j, q);
        if Firm(s.files, s.fault, j, q) {
          FirmAfterWrite(s.files, s.fault, k, p, j, q);
        }
      }
    } else {
      var v := Last(t.files);
      assert t.files == s.files + [v];
      if j !in m.dirty {
        PartlyWrittenKeeps(v, Last(s.files), k, p, j, q);
        if Firm(s.files, s.fault, j, q) {
          FirmAfterPart(s.files, s.fault, k, p, v, j, q);
        }
      }
    }
  }

  lemma WroteSome(files: seq<File>, fault: Fault, k: PageId, p: Page, files': seq<File>, fault': Fault)
    requires |files| > 0 && Wrote(files, fault, k, p, files', fault')
    ensures |files'| > 0
  {
    hide WritePage, PartlyWritten;
  }

  lemma ShowsAfterHeader(s: State, m: Memory, p: Page, t: State, d: Db)
    requires |s.files| > 0 && Wrote(s.files, s.fault, 0, p, t.files, t.fault) && Shows(s, m, d)
    ensures |t.files| > 0 && Shows(t, m, d)
  {
    hide Visible, Wrote;
    WroteSome(s.files, s.fault, 0, p, t.files, t.fault);
    forall k: PageId | 0 < k < d.count && k in d.pages
      ensures Visible(t, m, k, d.pages[k])
    {
      VisibleElsewhere(s, m, 0, p, t, k, d.pages[k]);
    }
  }

  lemma PartAfterHeader(s: State, m: Memory, p: Page, t: State, txn: Txn, todo: seq<Image>)
    requires |s.files| > 0 && Wrote(s.files, s.fault, 0, p, t.files, t.fault) && PartInv(s, m, txn, todo)
    requires t.base == s.base && t.shown == s.shown
    ensures |t.files| > 0 && PartInv(t, m, txn, todo)
  {
    hide Visible, Wrote, Installed, DataImages, ValidTxn, Apply;
    WroteSome(s.files, s.fault, 0, p, t.files, t.fault);
    var installed := Installed(txn, todo);
    forall j | j in installed
      ensures Visible(t, m, j, installed[j])
    {
      assert j != 0 by { InstalledIsData(txn, todo, j); }
      VisibleElsewhere(s, m, 0, p, t, j, installed[j]);
    }
    forall j: PageId | 0 < j < s.shown.count && j in s.shown.pages && j !in installed
      ensures Visible(t, m, j, s.shown.pages[j])
    {
      VisibleElsewhere(s, m, 0, p, t, j, s.shown.pages[j]);
    }
  }

  lemma {:induction false} DataImagesIn(images: seq<Image>, i: nat)
    requires i < |DataImages(images)|
    ensures DataImages(images)[i].id != 0 && DataImages(images)[i] in images
    decreases |images|
  {
    var n := |images| - 1;
    var rest := DataImages(images[..n]);
    if i < |rest| {
      DataImagesIn(images[..n], i);
    }
  }

  lemma InstalledIsData(txn: Txn, todo: seq<Image>, k: PageId)
    requires k in Installed(txn, todo)
    ensures k != 0
  {
    hide AddImages, DataImages;
    var all := DataImages(txn.images);
    assert AddImages(map[], []) == map[] by { NoImages(); }
    var done := all[..|all| - |todo|];
    EffectIsImage(done);
    var i :| 0 <= i < |done| && done[i].id == k && done[i].page == AddImages(map[], done)[k];
    DataImagesIn(txn.images, i);
  }

  lemma NoImages()
    ensures AddImages(map[], []) == map[]
  {
  }

  lemma KeptAfterHeader(s: State, m: Memory, p: Page, t: State)
    requires |s.files| > 0 && t.base == s.base && m.dirty == map[] && Kept(s, m)
    requires Wrote(s.files, s.fault, 0, p, t.files, t.fault)
    ensures Kept(t, m)
  {
    hide WritePage, PartlyWritten, Sure, Reach, End;
    if FlushKeeps(s, m) {
      var whole := t.files == s.files + [WritePage(Last(s.files), 0, p)] && t.fault == Rewritten(s.fault, 0, p);
      var v := t.files[|t.files| - 1];
      assert t.files == s.files + [v];
      if whole {
        ReachAfterWrite(s.files, s.fault, 0, p);
      } else {
        ReachAfterPart(s.files, s.fault, 0, p, v);
      }
      forall j: PageId | 0 < j < t.base.count && j in t.base.pages
        ensures KeptPage(t, m, j, t.base.pages[j])
      {
        assert KeptPage(s, m, j, t.base.pages[j]);
        if whole {
          SureAfterWrite(s.files, s.fault, 0, p, j, t.base.pages[j]);
        } else {
          SureAfterPart(s.files, s.fault, 0, p, v, j, t.base.pages[j]);
        }
      }
    }
  }

  /** Writing the header, in whole or in part: it is the committed header, so nothing committed is disturbed. */
  lemma HeaderWriteKeeps(s: State, m: Memory, t: State)
    requires Inv(s) && s.proc == Up(m) && m.task.Flushed?
    requires Wrote(s.files, s.fault, 0, FileHeader.Encode(m.pageCount), t.files, t.fault)
    requires t == s.(files := t.files, fault := t.fault)
    ensures Inv(t)
  {
    hide DiskInv, ValidDb, ValidLog, HistoryInv, Wrote, FileHeader.Encode, DirtyInv, IdInv, ReaderInv, Shows, PartInv,
      Kept, Relied;
    var p := FileHeader.Encode(m.pageCount);
    HeaderOfBase(s, m);
    WriteKeepsDisk(s.files, s.fault, s.log, s.base, s.doubt, 0, p, t.files, t.fault);
    SameHistory(s, t);
    SameDirty(s, t, m, m);
    SameIds(s, t, m, m);
    SameReaders(s, t, m);
    KeptAfterHeader(s, m, p, t);
    WroteSome(s.files, s.fault, 0, p, t.files, t.fault);
    if s.half.Whole? {
      ShowsAfterHeader(s, m, p, t, s.shown);
    } else {
      PartAfterHeader(s, m, p, t, s.half.txn, s.half.todo);
    }
  }

  lemma WriteHeaderKeeps(s: State, m: Memory)
    requires Inv(s) && s.proc == Up(m) && CheckpointEnabled(s, m, WriteHeader)
    ensures Inv(DoCheckpoint(s, m, WriteHeader))
  {
    hide DiskInv, HistoryInv, ValidLog, ValidDb, DirtyInv, IdInv, ReaderInv, Shows, CountInv, WritePage,
      FileHeader.Encode, HalfInv, Kept, Firm;
    var p := FileHeader.Encode(m.pageCount);
    var t := Write(s, 0, p);
    var n := m.(task := HeaderWritten);
    HeaderWriteKeeps(s, m, t);
    FirmAfterWrite(s.files, s.fault, 0, p, 0, p);
    SameKept(t, t, m, n);
    RetaskKeeps(t, m, n);
  }

  lemma WriteHeaderFailedKeeps(s: State, m: Memory, v: File)
    requires Inv(s) && s.proc == Up(m) && CheckpointEnabled(s, m, WriteHeaderFailed(v))
    ensures Inv(DoCheckpoint(s, m, WriteHeaderFailed(v)))
  {
    hide DiskInv, HistoryInv, ValidLog, ValidDb, UpInv, PartlyWritten, FileHeader.Encode;
    assert (s.files + [v])[..|s.files|] == s.files;
    HeaderWriteKeeps(s, m, WriteInPart(s, 0, v));
    PoisonKeeps(WriteInPart(s, 0, v), m);
  }

  // ----- emptying the log

  /** With no dirty page and the header written, the fsync leaves nothing but the whole database. */
  lemma CheckpointCovers(s: State, m: Memory)
    requires Inv(s) && s.proc == Up(m) && m.task.HeaderWritten? && FlushKeeps(s, m)
    ensures Covered(AfterFsync(s.files, s.fault), s.base, map[])
  {
    hide DiskInv, ValidLog, HistoryInv, DirtyInv, IdInv, ReaderInv, PhaseInv, HalfInv, Shows, FileHeader.Encode,
      ValidDb, Firm, Sure, AfterFsync, AllHold, AllAre, Versions, FaultInv, Reach, End, CountInv;
    var vs := AfterFsync(s.files, s.fault);
    assert Versions(s.files) && FaultInv(s.files, s.fault) by { DiskBasics(s); }
    HeaderOfBase(s, m);
    SyncedReach(s.files, s.fault);
    assert Reach(s.files, s.fault) >= 4096 by {
      FirmIsSure(s.files, s.fault, 0, FileHeader.Encode(m.pageCount));
    }
    assert End(m.dirty) == 0 by { EndOfNothing(); }
    forall k: PageId | k in s.base.pages
      ensures AllHold(vs, k, s.base.pages[k])
    {
      if k == 0 {
        SyncedFirm(s.files, s.fault, 0, FileHeader.Encode(m.pageCount));
      } else {
        assert k < s.base.count by { PageBound(s, k); }
        assert KeptPage(s, m, k, s.base.pages[k]);
        SyncedSure(s.files, s.fault, k, s.base.pages[k]);
        SureHolds(vs, k, s.base.pages[k], Reach(s.files, s.fault));
      }
    }
  }

  lemma EndOfNothing()
    ensures End(map[]) == 0
  {
  }

  lemma PageBound(s: State, k: PageId)
    requires DiskInv(s.files, s.fault, s.log, s.base, s.doubt, s.replay) && k in s.base.pages
    ensures k < s.base.count
  {
    hide ValidLog, Versions, FaultInv, RedoInv, TailInv, ReplayInv, FileHeader.Encode, Verified;
  }

  lemma CheckpointSyncKeeps(s: State, m: Memory)
    requires Inv(s) && s.proc == Up(m) && CheckpointEnabled(s, m, CheckpointSync)
    ensures Inv(DoCheckpoint(s, m, CheckpointSync))
  {
    hide DiskInv, HistoryInv, ValidLog, ValidDb, DirtyInv, IdInv, ReaderInv, Shows, CountInv, HalfInv, FlushKeeps,
      AfterFsync, Covered, Firm;
    if FlushKeeps(s, m) {
      CheckpointCovers(s, m);
    }
    SyncKeeps(s, m);
    RetaskKeeps(SyncFile(s), m, m.(task := Task.Synced));
  }

  /** The reset may go either way from here on: the file holds everything, so both ways are covered. */
  lemma ResetStartKeeps(s: State, m: Memory)
    requires Inv(s) && s.proc == Up(m) && CheckpointEnabled(s, m, ResetStart)
    ensures Inv(DoCheckpoint(s, m, ResetStart))
  {
    hide ValidDb, ValidLog, Versions, FaultInv, Covered, RedoInv, HistoryInv, Redo, DirtyInv, IdInv, ReaderInv, Shows,
      CountInv, TailRecords, Harmless, HalfInv;
    var t := DoCheckpoint(s, m, ResetStart);
    var n := t.proc.mem;
    SameHistory(s, t);
    assert NextSeq(s.log) < SEQ_LIMIT by { NextBound(s.log); }
    ResettingIsValid(s.log, {NextSeq(s.log)});
    SameTail(s.log, t.log);
    SameDirty(s, t, m, n);
    SameIds(s, t, m, n);
    SameShows(s, t, m, n);
    SameHalf(s, t, m, n);
    RetaskReaders(s, t, m, n);
    assert CountInv(t, n) by { SameCount(s, t, m, n); }
  }

  lemma SameCount(s: State, t: State, m: Memory, n: Memory)
    requires CountInv(s, m) && !m.task.Publishing? && !n.task.Publishing? && n.pageCount == m.pageCount
    requires t.base == s.base && t.shown == s.shown && t.half == s.half
    ensures CountInv(t, n)
  {
  }

  lemma NextBound(l: Log)
    requires ValidLog(l)
    ensures NextSeq(l) < SEQ_LIMIT
  {
  }

  lemma ResetSyncKeeps(s: State, m: Memory)
    requires Inv(s) && s.proc == Up(m) && CheckpointEnabled(s, m, ResetSync)
    ensures Inv(DoCheckpoint(s, m, ResetSync))
  {
    hide DiskInv, ValidDb, ValidLog, Versions, FaultInv, Covered, HistoryInv, Redo, ReaderInv, Shows, CountInv, TailInv,
      HalfInv, ImagesValid, Kept, Firm, TailRecords, BatchOf, ValidTxn, LastApplied, TodoInv, WriterInv,
      FileHeader.Encode, DataImages, PartInv, Apply, Verified, RedoInv;
    var t := DoCheckpoint(s, m, ResetSync);
    var n := t.proc.mem;
    SameHistory(s, t);
    DiskBasics(s);
    NextBound(s.log);
    QuietIsValid(NextSeq(s.log), []);
    RedoOfNothing();
    NothingIsValid();
    QuietTail(t.log, s.base);
    EmptyLogDisk(t);
    SameShows(s, t, m, n);
    SameHalf(s, t, m, n);
    RetaskReaders(s, t, m, n);
    assert CountInv(t, n) by { SameCount(s, t, m, n); }
  }

  lemma ResetFailedKeeps(s: State, m: Memory)
    requires Inv(s) && s.proc == Up(m) && CheckpointEnabled(s, m, ResetFailed)
    ensures Inv(DoCheckpoint(s, m, ResetFailed))
  {
    hide DiskInv, HistoryInv, ValidLog, ValidDb, DirtyInv, IdInv, ReaderInv, Shows, CountInv, HalfInv, Covered, Kept,
      Firm, TailRecords, BatchOf, ValidTxn, LastApplied, TodoInv, WriterInv, FileHeader.Encode, DataImages, PartInv,
      Apply;
    RetaskKeeps(s, m, m.(task := Idle, poisoned := true, logPoisoned := true));
  }

  lemma CheckpointKeeps(s: State, m: Memory, e: CheckpointEvent)
    requires Inv(s) && s.proc == Up(m) && CheckpointEnabled(s, m, e)
    ensures Inv(DoCheckpoint(s, m, e))
  {
    hide Inv;
    match e
    case FlushPage(k) => FlushPageKeeps(s, m, k);
    case FlushFailed(k, v) => FlushFailedKeeps(s, m, k, v);
    case FlushSync => FlushSyncKeeps(s, m);
    case WriteHeader => WriteHeaderKeeps(s, m);
    case WriteHeaderFailed(v) => WriteHeaderFailedKeeps(s, m, v);
    case CheckpointSync => CheckpointSyncKeeps(s, m);
    case CheckpointSyncFailed => SyncFailedKeeps(s, m);
    case ResetRefused => PoisonKeeps(s, m);
    case ResetStart => ResetStartKeeps(s, m);
    case ResetSync => ResetSyncKeeps(s, m);
    case ResetFailed => ResetFailedKeeps(s, m);
  }

  /** A checkpoint may start on a poisoned database, as long as flushing keeps every committed page. */
  lemma CheckpointLockKeeps(s: State, m: Memory, t: Tid)
    requires Inv(s) && s.proc == Up(m) && m.task.Idle? && Kept(s, m)
    ensures Inv(s.(proc := Up(m.(checkpointsChecked := m.checkpointsChecked - {t}, task := Flushing(m.dirty.Keys)))))
  {
    hide DiskInv, HistoryInv, ValidLog, ValidDb, DirtyInv, IdInv, Shows, CountInv, HalfInv, Kept;
    var n := m.(checkpointsChecked := m.checkpointsChecked - {t});
    var u := n.(task := Flushing(m.dirty.Keys));
    BookkeepingKeeps(s, m, n);
    SameKept(s, s.(proc := Up(n)), m, u);
    RetaskKeeps(s.(proc := Up(n)), n, u);
  }

  /** On a healthy database it always may. */
  lemma HealthyFlushKeeps(s: State, m: Memory)
    requires Inv(s) && s.proc == Up(m) && !m.poisoned && !m.task.Publishing? && s.base == s.shown
    ensures FlushKeeps(s, m)
  {
    hide DiskInv, HistoryInv, ValidLog, DirtyInv, IdInv, ReaderInv, PhaseInv, TaskInv, CountInv, Verified,
      FileHeader.Encode, Holds, Firm, Sure, Versions, FaultInv, Reach, End;
    assert Versions(s.files) && FaultInv(s.files, s.fault) by { DiskBasics(s); }
    forall k: PageId | 0 < k < s.base.count
      ensures KeptPage(s, m, k, s.base.pages[k])
      ensures PageEnd(k) <= Max(Reach(s.files, s.fault), End(m.dirty))
    {
      assert Visible(s, m, k, s.shown.pages[k]);
      if k in m.dirty {
        EndCovers(m.dirty, k);
      } else {
        FirmIsSure(s.files, s.fault, k, s.base.pages[k]);
      }
    }
    if s.base.count > 1 {
      var last: PageId := s.base.count - 1;
      assert PageEnd(last) == 4096 * s.base.count;
    }
  }

  lemma EndCovers(m: Images, k: PageId)
    requires k in m
    ensures PageEnd(k) <= End(m)
  {
    EndIsLastPage(m);
  }
}
