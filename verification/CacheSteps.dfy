/** Readers, evictions and checkpoints keep the engine's invariant. */
module CacheSteps {
  import opened Pages
  import opened Wal
  import opened DataFile
  import opened Recovery
  import opened Fsync
  import opened Store
  import opened Engine
  import opened DiskInvariant
  import opened EngineInvariant
  import opened OpenSteps

  // ----- readers

  /** Steps that touch neither files, log, cache nor task. */
  lemma BookkeepingKeeps(s: State, m: Memory, n: Memory)
    requires Inv(s) && s.proc == Up(m)
    requires n == m.(readersChecked := n.readersChecked, checkpointsChecked := n.checkpointsChecked,
                     readers := n.readers)
    requires ReaderInv(s, n)
    ensures Inv(s.(proc := Up(n)))
  {
    hide DiskInv, HistoryInv, ValidLog, ValidDb, DirtyInv, IdInv, Redo, ReaderInv, Shows, PartInv, TaskInv, OpenInv;
    var t := s.(proc := Up(n));
    SameHistory(s, t);
    assert DirtyInv(t, n) by { SameDirty(s, t, m, n); }
    assert IdInv(t, n) by { SameIds(s, t, m, n); }
    assert ReaderInv(t, n) by { SameReaders(s, t, n); }
    SameShows(s, t, m, n);
    SameHalf(s, t, m, n);
    SameTask(s, t, m, n);
  }

  lemma SameDirty(s: State, t: State, m: Memory, n: Memory)
    requires DirtyInv(s, m) && n.dirty == m.dirty && n.pageCount == m.pageCount && t.log.recs == s.log.recs
    ensures DirtyInv(t, n)
  {
    hide Redo, Verified;
  }

  lemma SameIds(s: State, t: State, m: Memory, n: Memory)
    requires IdInv(s, m) && n.nextTxn >= m.nextTxn && t.log.recs == s.log.recs
    ensures IdInv(t, n)
  {
  }

  lemma SameReaders(s: State, t: State, n: Memory)
    requires ReaderInv(s, n) && t.shown == s.shown
    ensures ReaderInv(t, n)
  {
  }

  /** What is visible depends on file and cache only, and stays so when the database is poisoned. */
  ghost predicate SameView(s: State, t: State, m: Memory, n: Memory) {
    t.files == s.files && t.fault == s.fault && n.dirty == m.dirty && (m.poisoned ==> n.poisoned)
  }

  lemma SameShows(s: State, t: State, m: Memory, n: Memory)
    requires |s.files| > 0 && SameView(s, t, m, n)
    ensures forall d: Db :: Shows(s, m, d) ==> Shows(t, n, d)
    ensures forall d: Db, installed :: ShowsPart(s, m, d, installed) ==> ShowsPart(t, n, d, installed)
  {
    hide Holds, Firm;
  }

  lemma SamePart(s: State, t: State, m: Memory, n: Memory, txn: Txn, todo: seq<Image>)
    requires |s.files| > 0 && SameView(s, t, m, n) && t.base == s.base && t.shown == s.shown && PartInv(s, m, txn, todo)
    ensures PartInv(t, n, txn, todo)
  {
    hide ShowsPart, Shows, ValidTxn, Apply, DataImages, Installed;
    SameShows(s, t, m, n);
  }

  lemma SameHalf(s: State, t: State, m: Memory, n: Memory)
    requires |s.files| > 0 && SameView(s, t, m, n) && t.base == s.base && t.shown == s.shown && t.half == s.half
    requires HalfInv(s, m) && (!n.task.Publishing? || n.task == m.task)
    ensures HalfInv(t, n)
  {
    hide PartInv;
    if s.half.Half? {
      SamePart(s, t, m, n, s.half.txn, s.half.todo);
    }
  }

  lemma SameKept(s: State, t: State, m: Memory, n: Memory)
    requires Kept(s, m) && t.files == s.files && t.fault == s.fault && t.base == s.base
    requires n.dirty == m.dirty && (m.logPoisoned ==> n.logPoisoned)
    ensures Kept(t, n)
  {
    hide Sure;
  }

  lemma SameTask(s: State, t: State, m: Memory, n: Memory)
    requires |s.files| > 0 && ValidLog(s.log) && TaskInv(s, m) && t == s.(proc := t.proc)
    requires n.task == m.task && n.dirty == m.dirty && n.pageCount == m.pageCount && n.nextTxn == m.nextTxn
    requires n.poisoned == m.poisoned && n.logPoisoned == m.logPoisoned
    ensures TaskInv(t, n)
  {
    hide ValidLog, Redo, Firm, Covered, ValidTxn, ValidDb, TailRecords, BatchOf, DataImages, PartInv, Kept, LastApplied;
    match m.task
    case Publishing(txn, todo) =>
      SamePart(s, t, m, n, txn, todo);
      SameApplied(s, t);
    case Flushing(_) => SameKept(s, t, m, n);
    case Flushed => SameKept(s, t, m, n);
    case HeaderWritten => SameKept(s, t, m, n);
    case Logged(_) => SameApplied(s, t);
    case _ =>
  }

  lemma SameApplied(s: State, t: State)
    requires LastApplied(s) && t.attempts == s.attempts && t.applied == s.applied
    ensures LastApplied(t)
  {
  }

  // ----- write-back

  /** A dirty page is sealed already, and its image is in a log no reset is emptying. */
  lemma DirtyPage(s: State, m: Memory, k: PageId)
    requires Inv(s) && s.proc == Up(m) && k in m.dirty
    ensures Sealed(m.dirty[k]) == m.dirty[k] && 0 < k < m.pageCount && k in Relied(s.log) && k in Redo(s.log.recs)
  {
    hide DiskInv, HistoryInv, ValidLog, ValidDb, IdInv, Redo, TaskInv, Shows, Verified, Sealed, HalfInv;
    VerifiedIsSealed(m.dirty[k], k);
  }

  /** Page `k` went back to the file, and out of the cache; or the write failed partway, and it did not. */
  ghost predicate WroteBack(s: State, m: Memory, k: PageId, t: State, n: Memory)
    requires |s.files| > 0
  {
    && k in m.dirty && n.poisoned == m.poisoned
    && (|| (t.files == s.files + [WritePage(Last(s.files), k, m.dirty[k])]
            && t.fault == Rewritten(s.fault, k, m.dirty[k]) && n.dirty == m.dirty - {k})
        || (Wrote(s.files, s.fault, k, m.dirty[k], t.files, t.fault) && n.dirty == m.dirty))
  }

  lemma WroteBackWrote(s: State, m: Memory, k: PageId, t: State, n: Memory)
    requires |s.files| > 0 && WroteBack(s, m, k, t, n)
    ensures Wrote(s.files, s.fault, k, m.dirty[k], t.files, t.fault)
  {
    hide WritePage, PartlyWritten;
  }

  lemma WriteBackDisk(s: State, m: Memory, k: PageId, t: State, n: Memory)
    requires Inv(s) && s.proc == Up(m) && WroteBack(s, m, k, t, n)
    ensures DiskInv(t.files, t.fault, s.log, s.base, s.doubt, s.replay)
  {
    hide DiskInv, ValidLog, HistoryInv, WroteBack, Wrote, Relied, ValidDb, CountInv, DirtyInv, ReaderInv, IdInv,
      PhaseInv, TaskInv, HalfInv, Shows;
    assert k in m.dirty by { WroteBackDirty(s, m, k, t, n); }
    DirtyPage(s, m, k);
    WroteBackWrote(s, m, k, t, n);
    WriteKeepsDisk(s.files, s.fault, s.log, s.base, s.doubt, k, m.dirty[k], t.files, t.fault);
  }

  lemma WroteBackDirty(s: State, m: Memory, k: PageId, t: State, n: Memory)
    requires |s.files| > 0 && WroteBack(s, m, k, t, n)
    ensures k in m.dirty && n.dirty.Keys <= m.dirty.Keys && |t.files| > 0
    ensures forall j :: j in n.dirty ==> n.dirty[j] == m.dirty[j]
  {
    hide WritePage, PartlyWritten;
  }

  /** Writing `k` back hides no page: others are untouched, and `k` is still cached or now in the file. */
  lemma VisibleAfterWrite(s: State, m: Memory, k: PageId, t: State, n: Memory, j: PageId, q: Page)
    requires |s.files| > 0 && WroteBack(s, m, k, t, n) && Visible(s, m, j, q)
    ensures |t.files| > 0 && Visible(t, n, j, q)
  {
    hide Holds, WritePage, PartlyWritten, Firm;
    var p := m.dirty[k];
    if t.files == s.files + [WritePage(Last(s.files), k, p)] && t.fault == Rewritten(s.fault, k, p) {
      WriteHolds(Last(s.files), k, p);
      if j == k || (j !in m.dirty && Firm(s.files, s.fault, j, q)) {
        FirmAfterWrite(s.files, s.fault, k, p, j, if j == k then p else q);
      }
      if j != k && j !in m.dirty {
        WriteKeeps(Last(s.files), k, p, j, q);
      }
    } else if j != k && j !in m.dirty {
      var v := Last(t.files);
      assert t.files == s.files + [v];
      PartlyWrittenKeeps(v, Last(s.files), k, p, j, q);
      if Firm(s.files, s.fault, j, q) {
        FirmAfterPart(s.files, s.fault, k, p, v, j, q);
      }
    }
  }

  lemma ShowsAfterWrite(s: State, m: Memory, k: PageId, t: State, n: Memory, d: Db)
    requires |s.files| > 0 && WroteBack(s, m, k, t, n) && Shows(s, m, d)
    ensures |t.files| > 0 && Shows(t, n, d)
  {
    hide Visible, WroteBack;
    WroteBackDirty(s, m, k, t, n);
    forall j: PageId | 0 < j < d.count && j in d.pages
      ensures Visible(t, n, j, d.pages[j])
    {
      VisibleAfterWrite(s, m, k, t, n, j, d.pages[j]);
    }
  }

  lemma PartAfterWrite(s: State, m: Memory, k: PageId, t: State, n: Memory, txn: Txn, todo: seq<Image>)
    requires |s.files| > 0 && WroteBack(s, m, k, t, n) && PartInv(s, m, txn, todo)
    requires t.base == s.base && t.shown == s.shown
    ensures |t.files| > 0 && PartInv(t, n, txn, todo)
  {
    hide Visible, WroteBack, Installed, DataImages, ValidTxn, Apply;
    WroteBackDirty(s, m, k, t, n);
    var installed := Installed(txn, todo);
    forall j | j in installed
      ensures Visible(t, n, j, installed[j])
    {
      VisibleAfterWrite(s, m, k, t, n, j, installed[j]);
    }
    forall j: PageId | 0 < j < s.shown.count && j in s.shown.pages && j !in installed
      ensures Visible(t, n, j, s.shown.pages[j])
    {
      VisibleAfterWrite(s, m, k, t, n, j, s.shown.pages[j]);
    }
  }

  /** Nor does it take anything from what a checkpoint needs. */
  lemma KeptPageAfterWrite(s: State, m: Memory, k: PageId, t: State, n: Memory, j: PageId, q: Page)
    requires |s.files| > 0 && WroteBack(s, m, k, t, n) && KeptPage(s, m, j, q)
    ensures |t.files| > 0 && KeptPage(t, n, j, q)
  {
    hide WritePage, PartlyWritten, Sure;
    var p := m.dirty[k];
    if t.files == s.files + [WritePage(Last(s.files), k, p)] && t.fault == Rewritten(s.fault, k, p) {
      if j == k || j !in m.dirty {
        SureAfterWrite(s.files, s.fault, k, p, j, q);
      }
    } else if j !in m.dirty {
      assert t.files == s.files + [Last(t.files)];
      SureAfterPart(s.files, s.fault, k, p, Last(t.files), j, q);
    }
  }

  lemma ReachAfterWriteBack(s: State, m: Memory, k: PageId, t: State, n: Memory)
    requires |s.files| > 0 && WroteBack(s, m, k, t, n)
    ensures |t.files| > 0
    ensures Max(Reach(t.files, t.fault), End(n.dirty)) >= Max(Reach(s.files, s.fault), End(m.dirty))
  {
    hide WritePage, PartlyWritten, Reach, End;
    var p := m.dirty[k];
    EndOfRemoval(m.dirty, k);
    if t.files == s.files + [WritePage(Last(s.files), k, p)] && t.fault == Rewritten(s.fault, k, p) {
      ReachAfterWrite(s.files, s.fault, k, p);
    } else {
      assert t.files == s.files + [Last(t.files)];
      ReachAfterPart(s.files, s.fault, k, p, Last(t.files));
    }
  }

  lemma KeptAfterWrite(s: State, m: Memory, k: PageId, t: State, n: Memory)
    requires |s.files| > 0 && WroteBack(s, m, k, t, n) && Kept(s, m)
    requires t.base == s.base && n.logPoisoned == m.logPoisoned
    ensures Kept(t, n)
  {
    hide WroteBack, KeptPage, Reach, End;
    if FlushKeeps(s, m) {
      ReachAfterWriteBack(s, m, k, t, n);
      forall j: PageId | 0 < j < t.base.count && j in t.base.pages
        ensures KeptPage(t, n, j, t.base.pages[j])
      {
        KeptPageAfterWrite(s, m, k, t, n, j, t.base.pages[j]);
      }
    }
  }

  lemma TaskAfterWrite(s: State, m: Memory, k: PageId, t: State, n: Memory)
    requires |s.files| > 0 && ValidLog(s.log) && TaskInv(s, m) && WroteBack(s, m, k, t, n)
    requires t == s.(files := t.files, fault := t.fault, proc := t.proc) && n == m.(dirty := n.dirty)
    ensures |t.files| > 0 && TaskInv(t, n)
  {
    hide ValidLog, ValidDb, Redo, Firm, Covered, TailRecords, BatchOf, ValidTxn, WroteBack, Verified, PartInv,
      DataImages, Kept, LastApplied;
    WroteBackDirty(s, m, k, t, n);
    match m.task
    case Publishing(txn, todo) =>
      PartAfterWrite(s, m, k, t, n, txn, todo);
      SameApplied(s, t);
    case Flushing(_) => KeptAfterWrite(s, m, k, t, n);
    case Logged(_) => SameApplied(s, t);
    case _ =>
  }

  /** Write-back at any moment, by any thread, whatever the lock holder is doing. */
  lemma WriteBackKeeps(s: State, m: Memory, k: PageId, t: State, n: Memory)
    requires Inv(s) && s.proc == Up(m) && n == m.(dirty := n.dirty)
    requires WroteBack(s, m, k, t, n) && t == s.(files := t.files, fault := t.fault, proc := Up(n))
    ensures Inv(t)
  {
    hide DiskInv, HistoryInv, ValidLog, ValidDb, Redo, WroteBack, TaskInv, Verified, Shows, PartInv;
    SameHistory(s, t);
    WriteBackDisk(s, m, k, t, n);
    WroteBackDirty(s, m, k, t, n);
    if !m.task.Publishing? && s.half.Whole? {
      ShowsAfterWrite(s, m, k, t, n, s.shown);
    }
    if s.half.Half? {
      PartAfterWrite(s, m, k, t, n, s.half.txn, s.half.todo);
    }
    TaskAfterWrite(s, m, k, t, n);
    assert DirtyInv(t, n);
    assert PhaseInv(t, n);
  }

  lemma CacheKeeps(s: State, m: Memory, e: CacheEvent)
    requires Inv(s) && s.proc == Up(m) && CacheEnabled(s, m, e)
    ensures Inv(DoCache(s, m, e))
  {
    hide DiskInv, HistoryInv, ValidLog, DirtyInv, IdInv, PhaseInv, TaskInv, CountInv, Shows, Sealed, WritePage,
      PartlyWritten, HalfInv;
    match e
    case ReaderCheck(t) =>
      BookkeepingKeeps(s, m, m.(readersChecked := m.readersChecked + {t}));
    case ReaderLock(t) =>
      BookkeepingKeeps(s, m, m.(readersChecked := m.readersChecked - {t}, readers := m.readers[t := s.shown]));
    case ReaderDrop(t) =>
      BookkeepingKeeps(s, m, m.(readers := m.readers - {t}));
    case Evict(k) =>
      DirtyPage(s, m, k);
      WriteBackKeeps(s, m, k, DoCache(s, m, e), m.(dirty := m.dirty - {k}));
    case EvictFailed(k, v) =>
      DirtyPage(s, m, k);
      assert (s.files + [v])[..|s.files|] == s.files;
      WriteBackKeeps(s, m, k, DoCache(s, m, e), m);
  }
}
