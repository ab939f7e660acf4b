/** What transactions see: fixed snapshots for readers, a private overlay for the writer, a serial history for all. */
module Isolation {
  import opened Pages
  import WalLog
  import opened Wal
  import opened DataFile
  import opened Recovery
  import opened Fsync
  import opened Store
  import opened Engine
  import opened DiskInvariant
  import opened EngineInvariant
  import opened CheckpointSteps
  import opened CommitSteps
  import opened CrashSafety
  import FileHeader

  // ----- what a fetch returns

  /** What readers see below the old end: the published contents, overlaid by what a failed commit installed. */
  ghost function Seen(s: State): Images {
    if s.half.Whole? then s.shown.pages else s.shown.pages + Installed(s.half.txn, s.half.todo)
  }

  lemma InstalledVerifies(d: Db, txn: Txn, todo: seq<Image>, k: PageId)
    requires ValidTxn(d, txn) && k in Installed(txn, todo)
    ensures 0 < k < txn.count && Verified(Installed(txn, todo)[k], k)
  {
    hide AddImages, DataImages, Verified, FileHeader.Encode, FileHeader.Decode;
    var all := DataImages(txn.images);
    NoImages();
    var done := all[..|all| - |todo|];
    EffectIsImage(done);
    var i :| 0 <= i < |done| && done[i].id == k && done[i].page == AddImages(map[], done)[k];
    DataImagesIn(txn.images, i);
    var j :| 0 <= j < |txn.images| && txn.images[j] == all[i];
  }

  lemma FetchVisible(s: State, m: Memory, k: PageId, p: Page)
    requires |s.files| > 0 && s.proc == Up(m) && Visible(s, m, k, p) && 0 < k < m.pageCount && Verified(p, k)
    ensures Fetch(s, k) == Read(p)
  {
    hide Verified, ReadPage, Holds, Firm;
    if k !in m.dirty {
      ReadBack(Last(s.files), m.pageCount, k, p);
    }
  }

  /** Through the cache, in any state of memory and file, even after a commit failed partway. */
  lemma FetchSeen(s: State, m: Memory, k: PageId)
    requires Inv(s) && s.proc == Up(m) && !m.task.Publishing? && 0 < k < s.shown.count
    ensures k in Seen(s) && Fetch(s, k) == Read(Seen(s)[k])
    ensures m.pageCount == if s.half.Whole? then s.shown.count else s.half.txn.count
  {
    hide DiskInv, HistoryInv, ValidLog, DirtyInv, IdInv, ReaderInv, PhaseInv, TaskInv, Verified, FileHeader.Encode,
      Fetch, Visible, Installed, DataImages;
    if s.half.Whole? {
      assert Visible(s, m, k, s.shown.pages[k]);
    } else {
      assert s.base.count >= s.shown.count by { ApplyGrows(s.shown, s.half.txn); }
      if k in Installed(s.half.txn, s.half.todo) {
        InstalledVerifies(s.shown, s.half.txn, s.half.todo, k);
      }
    }
    FetchVisible(s, m, k, Seen(s)[k]);
  }

  /** Unless a commit failed partway, the published contents come back. */
  lemma FetchShown(s: State, m: Memory, k: PageId)
    requires Inv(s) && s.proc == Up(m) && !m.task.Publishing? && s.half.Whole? && 0 < k < s.shown.count
    ensures k in s.shown.pages && Fetch(s, k) == Read(s.shown.pages[k]) && m.pageCount == s.shown.count
  {
    hide Inv, Fetch;
    FetchSeen(s, m, k);
  }

  /** An open read transaction gets its own snapshot: its page count, and every page of it. */
  lemma ReaderSeesSnapshot(s: State, m: Memory, t: Tid, k: PageId)
    requires Inv(s) && s.proc == Up(m) && t in m.readers && s.half.Whole? && 0 < k < m.readers[t].count
    ensures m.pageCount == m.readers[t].count
    ensures k in m.readers[t].pages && Fetch(s, k) == Read(m.readers[t].pages[k])
  {
    hide DiskInv, HistoryInv, ValidLog, DirtyInv, IdInv, PhaseInv, TaskInv, Fetch, ValidDb, Shows, CountInv, HalfInv;
    FetchShown(s, m, k);
  }

  // ----- a commit that failed partway through publishing

  /** Both the page count and every page are those of the published state. */
  ghost predicate SeesShown(s: State, m: Memory)
    requires s.proc == Up(m) && |s.files| > 0
  {
    m.pageCount == s.shown.count
    && forall k: PageId :: 0 < k < s.shown.count && k in s.shown.pages ==> Fetch(s, k) == Read(s.shown.pages[k])
  }

  /**
   * A reader that gets in after such a failure is given its snapshot, count and pages, if and only if
   * the commit did not grow the file and every image installed so far is what the page showed before.
   */
  lemma ReaderExact(s: State, m: Memory)
    requires Inv(s) && s.proc == Up(m) && s.half.Half?
    ensures var installed := Installed(s.half.txn, s.half.todo);
      SeesShown(s, m) <==>
        && s.half.txn.count == s.shown.count
        && forall k :: k in installed && k in s.shown.pages ==> installed[k] == s.shown.pages[k]
  {
    hide DiskInv, HistoryInv, ValidLog, DirtyInv, IdInv, ReaderInv, PhaseInv, TaskInv, Verified, FileHeader.Encode,
      Fetch, ShowsPart, Installed, DataImages;
    var installed := Installed(s.half.txn, s.half.todo);
    forall k: PageId | 0 < k < s.shown.count
      ensures Fetch(s, k) == Read(Seen(s)[k]) && k in s.shown.pages
    {
      FetchSeen(s, m, k);
    }
    forall k | k in installed
      ensures k > 0
    {
      InstalledVerifies(s.shown, s.half.txn, s.half.todo, k);
    }
    if SeesShown(s, m) {
      forall k | k in installed && k in s.shown.pages
        ensures installed[k] == s.shown.pages[k]
      {
        assert Fetch(s, k) == Read(s.shown.pages[k]);
      }
    }
  }

  /** Every page is that of the state with the commit, which is durable. */
  ghost predicate SeesCommitted(s: State, m: Memory)
    requires s.proc == Up(m) && |s.files| > 0
  {
    forall k: PageId :: 0 < k < s.base.count && k in s.base.pages ==> Fetch(s, k) == Read(s.base.pages[k])
  }

  /** The committed page is cached, or the file happens to hold it. */
  ghost predicate Stands(s: State, m: Memory, k: PageId, p: Page)
    requires |s.files| > 0
  {
    if k in m.dirty then m.dirty[k] == p else Holds(Last(s.files), k, p)
  }

  /** The committed database, page by page: images to come, then those installed, then the old contents. */
  lemma CommittedPage(s: State, m: Memory, txn: Txn, todo: seq<Image>, k: PageId)
    requires |s.files| > 0 && PartInv(s, m, txn, todo) && k > 0
    ensures k in s.base.pages <==> k in s.shown.pages || k in Installed(txn, todo) || k in AddImages(map[], todo)
    ensures k in s.base.pages ==>
      (s.base.pages[k]
       == if k in AddImages(map[], todo) then AddImages(map[], todo)[k]
          else if k in Installed(txn, todo) then Installed(txn, todo)[k] else s.shown.pages[k])
  {
    hide AddImages, DataImages, ShowsPart, ValidTxn;
    var all := DataImages(txn.images);
    var n := |all| - |todo|;
    assert all == all[..n] + todo;
    AddImagesConcat(map[], all[..n], todo);
    AddImagesIsUnion(AddImages(map[], all[..n]), todo);
    DataImagesEffect(txn.images);
    AddImagesIsUnion(s.shown.pages, txn.images);
  }

  /**
   * It is given the state with the commit if and only if every image not yet installed is what its page
   * shows anyway, or, past the old end, already stands in the cache or the file.
   */
  lemma ReaderSeesCommit(s: State, m: Memory)
    requires Inv(s) && s.proc == Up(m) && s.half.Half?
    ensures var later := AddImages(map[], s.half.todo);
      SeesCommitted(s, m) <==>
        forall k :: k in later ==> if k in Seen(s) then Seen(s)[k] == later[k] else Stands(s, m, k, later[k])
    ensures m.pageCount == s.base.count
  {
    hide DiskInv, HistoryInv, ValidLog, DirtyInv, IdInv, ReaderInv, PhaseInv, TaskInv, FileHeader.Encode, Fetch,
      Installed, DataImages, AddImages, Stands, PartInv, ValidDb, Verified, ReaderInv;
    var later := AddImages(map[], s.half.todo);
    forall k: PageId
      ensures k in later ==> 0 < k < s.base.count && k in s.base.pages && s.base.pages[k] == later[k]
      ensures 0 < k < s.base.count && k in s.base.pages ==>
        (Fetch(s, k) == Read(s.base.pages[k])
         <==> (k in later ==> if k in Seen(s) then Seen(s)[k] == later[k] else Stands(s, m, k, later[k])))
    {
      CommittedFetch(s, m, k);
    }
    if SeesCommitted(s, m) {
      forall k | k in later
        ensures if k in Seen(s) then Seen(s)[k] == later[k] else Stands(s, m, k, later[k])
      {
        assert Fetch(s, k) == Read(s.base.pages[k]);
      }
    }
  }

  lemma CommittedFetch(s: State, m: Memory, k: PageId)
    requires Inv(s) && s.proc == Up(m) && s.half.Half?
    ensures var later := AddImages(map[], s.half.todo);
      && (k in later ==> 0 < k < s.base.count && k in s.base.pages && s.base.pages[k] == later[k])
      && (0 < k < s.base.count && k in s.base.pages ==>
           (Fetch(s, k) == Read(s.base.pages[k])
            <==> (k in later ==> if k in Seen(s) then Seen(s)[k] == later[k] else Stands(s, m, k, later[k]))))
  {
    hide HistoryInv, ValidLog, DirtyInv, IdInv, ReaderInv, PhaseInv, TaskInv, FileHeader.Encode, Fetch, Installed,
      DataImages, AddImages, Versions, FaultInv, RedoInv, TailInv, ReplayInv, Verified, Holds, ValidTxn;
    var txn, todo := s.half.txn, s.half.todo;
    var later := AddImages(map[], todo);
    if k in later {
      LaterIsData(s.shown, txn, todo, k);
    }
    if k > 0 {
      CommittedPage(s, m, txn, todo, k);
    }
    if 0 < k < s.base.count {
      if k in Seen(s) {
        SeenFetch(s, m, k);
      } else {
        PastEnd(s, m, k, s.base.pages[k]);
      }
    }
  }

  lemma LaterIsData(d: Db, txn: Txn, todo: seq<Image>, k: PageId)
    requires ValidTxn(d, txn) && k in AddImages(map[], todo)
    requires var all := DataImages(txn.images); |todo| <= |all| && all[|all| - |todo|..] == todo
    ensures 0 < k < txn.count
  {
    hide AddImages, DataImages, FileHeader.Encode, ValidImage;
    EffectIsImage(todo);
    var i :| 0 <= i < |todo| && todo[i].id == k && todo[i].page == AddImages(map[], todo)[k];
    var all := DataImages(txn.images);
    assert all[|all| - |todo| + i] == todo[i];
    DataImagesIn(txn.images, |all| - |todo| + i);
    var j :| 0 <= j < |txn.images| && txn.images[j] == todo[i];
  }

  /** A page the cache or the file has under its new contents: the old end does not matter. */
  lemma SeenFetch(s: State, m: Memory, k: PageId)
    requires Inv(s) && s.proc == Up(m) && s.half.Half? && 0 < k && k in Seen(s)
    ensures Fetch(s, k) == Read(Seen(s)[k])
  {
    hide DiskInv, HistoryInv, ValidLog, DirtyInv, IdInv, ReaderInv, PhaseInv, TaskInv, Verified, FileHeader.Encode,
      Fetch, Visible, Installed, DataImages;
    if k in Installed(s.half.txn, s.half.todo) {
      InstalledVerifies(s.shown, s.half.txn, s.half.todo, k);
      FetchVisible(s, m, k, Seen(s)[k]);
    } else {
      FetchSeen(s, m, k);
    }
  }

  lemma PastEnd(s: State, m: Memory, k: PageId, p: Page)
    requires |s.files| > 0 && s.proc == Up(m) && 0 < k < m.pageCount && Verified(p, k)
    ensures Fetch(s, k) == Read(p) <==> Stands(s, m, k, p)
  {
    hide Verify, Holds;
    var f := Last(s.files);
    if k !in m.dirty {
      if Holds(f, k, p) {
        ReadBack(f, m.pageCount, k, p);
      }
      if Fetch(s, k) == Read(p) {
        assert Holds(f, k, PageAt(f, k));
      }
    }
  }

  // ----- snapshots over runs

  lemma CommitKeepsReaders(s: State, m: Memory, e: CommitEvent)
    requires s.proc == Up(m) && CommitEnabled(s, m, e)
    ensures var u := DoCommit(s, m, e);
      && u.proc.Up? && u.proc.mem.readers == m.readers
      && (!m.task.Publishing? ==> u.shown == s.shown && u.half == s.half)
  {
    hide Damage, BatchOf, EncodeBatch, Apply, DataImages;
  }

  lemma CheckpointKeepsReaders(s: State, m: Memory, e: CheckpointEvent)
    requires |s.files| > 0 && s.proc == Up(m) && CheckpointEnabled(s, m, e)
    ensures var u := DoCheckpoint(s, m, e);
      u.proc.Up? && u.proc.mem.readers == m.readers && u.shown == s.shown && u.half == s.half
  {
    hide Sealed, WritePage, PartlyWritten, FileHeader.Encode, AfterFsync;
  }

  lemma WriteKeepsReaders(s: State, m: Memory, e: WriteEvent)
    requires |s.files| > 0 && s.proc == Up(m) && m.task.Writing? && WriteEnabled(s, m, e)
    ensures var u := DoWrite(s, m, e);
      u.proc.Up? && u.proc.mem.readers == m.readers && u.shown == s.shown && u.half == s.half
  {
    hide Sealed, Fetch, NewPage, CommitOf, Verified;
  }

  lemma CacheKeepsSnapshot(s: State, m: Memory, e: CacheEvent, t: Tid)
    requires |s.files| > 0 && s.proc == Up(m) && CacheEnabled(s, m, e) && t in m.readers
    ensures var u := DoCache(s, m, e);
      && u.proc.Up? && (t in u.proc.mem.readers ==> u.proc.mem.readers[t] == m.readers[t])
      && u.shown == s.shown && u.half == s.half
  {
    hide Sealed, WritePage, PartlyWritten;
  }

  /** No event but its own end changes a snapshot; and while it is open, nothing is published. */
  lemma SnapshotFixed(s: State, e: Event, u: State, t: Tid)
    requires Step(s, e, u) && s.proc.Up? && u.proc.Up? && t in s.proc.mem.readers && t in u.proc.mem.readers
    ensures u.proc.mem.readers[t] == s.proc.mem.readers[t]
    ensures !s.proc.mem.task.Publishing? ==> u.shown == s.shown && u.half == s.half
  {
    hide ValidLog, OpenEnabled, DoOpen, CacheEnabled, DoCache, WriteEnabled, DoWrite, CommitEnabled, DoCommit,
      CheckpointEnabled, DoCheckpoint, Torn, Survives, WalLog.Open, AfterCrash, BatchOf;
    match e
    case Cache(c) => CacheKeepsSnapshot(s, s.proc.mem, c, t);
    case Writer(w) => WriteKeepsReaders(s, s.proc.mem, w);
    case Committing(c) => CommitKeepsReaders(s, s.proc.mem, c);
    case Checkpointing(c) => CheckpointKeepsReaders(s, s.proc.mem, c);
    case Reopen(o) => NotUp(s, o);
    case _ =>
  }

  lemma NotUp(s: State, e: OpenEvent)
    requires |s.files| > 0 && ValidLog(s.log) && OpenEnabled(s, e)
    ensures !s.proc.Up?
  {
    hide ValidLog, ReadsAs, WalLog.Open, DataFile.Open, ImagesValid, PartlyWritten;
  }

  ghost predicate Reading(ss: seq<State>, t: Tid, i: nat, j: nat) {
    i <= j < |ss| && forall x :: i <= x <= j ==> ss[x].proc.Up? && t in ss[x].proc.mem.readers
  }

  lemma {:induction false} SnapshotFixedThroughout(ss: seq<State>, es: seq<Event>, t: Tid, i: nat, j: nat)
    requires IsRun(ss, es) && Reading(ss, t, i, j)
    ensures ss[j].proc.mem.readers[t] == ss[i].proc.mem.readers[t]
    decreases j
  {
    hide Step, Initial;
    if i < j {
      SnapshotFixedThroughout(ss, es, t, i, j - 1);
      assert Step(ss[j - 1], es[j - 1], ss[j - 1 + 1]);
      SnapshotFixed(ss[j - 1], es[j - 1], ss[j], t);
    }
  }

  /** While a read transaction is open, what it is given does not change. */
  lemma {:induction false} ViewFixedThroughout(ss: seq<State>, es: seq<Event>, t: Tid, i: nat, j: nat)
    requires IsSafeRun(ss, es) && Reading(ss, t, i, j)
    ensures ss[j].shown == ss[i].shown && ss[j].half == ss[i].half
    decreases j
  {
    hide Step, Initial, Inv, Safe;
    if i < j {
      ViewFixedThroughout(ss, es, t, i, j - 1);
      RunKeeps(ss, es, j - 1);
      assert Step(ss[j - 1], es[j - 1], ss[j - 1 + 1]);
      assert !ss[j - 1].proc.mem.task.Publishing? by { ReadersExclude(ss[j - 1], ss[j - 1].proc.mem, t); }
      SnapshotFixed(ss[j - 1], es[j - 1], ss[j], t);
    }
  }

  lemma ReadersExclude(s: State, m: Memory, t: Tid)
    requires Inv(s) && s.proc == Up(m) && t in m.readers
    ensures !m.task.Publishing? && m.readers[t] == s.shown
  {
    hide DiskInv, HistoryInv, ValidLog, DirtyInv, IdInv, PhaseInv, TaskInv, ValidDb, Shows, CountInv, HalfInv;
  }

  /**
   * Snapshot isolation over whole runs: between any two states of a safe run throughout which a read
   * transaction is open, it reads every page, and the page count, alike, whatever commits, evictions,
   * checkpoints and failures fall in between.
   */
  lemma StableReads(ss: seq<State>, es: seq<Event>, t: Tid, i: nat, j: nat, k: PageId)
    requires IsSafeRun(ss, es) && Reading(ss, t, i, j)
    requires |ss[i].files| > 0 && |ss[j].files| > 0
    requires 0 < k < ss[i].proc.mem.readers[t].count
    ensures ss[i].proc.mem.pageCount == ss[j].proc.mem.pageCount
    ensures Fetch(ss[i], k).Read? && Fetch(ss[i], k) == Fetch(ss[j], k)
    ensures ss[i].half.Whole? ==>
      var d := ss[i].proc.mem.readers[t];
      ss[i].proc.mem.pageCount == d.count && k in d.pages && Fetch(ss[i], k) == Read(d.pages[k])
  {
    hide Inv, Step, Initial, Fetch, Safe, Installed;
    RunKeeps(ss, es, i);
    RunKeeps(ss, es, j);
    ViewFixedThroughout(ss, es, t, i, j);
    ReadersExclude(ss[i], ss[i].proc.mem, t);
    ReadersExclude(ss[j], ss[j].proc.mem, t);
    FetchSeen(ss[i], ss[i].proc.mem, k);
    FetchSeen(ss[j], ss[j].proc.mem, k);
  }

  // ----- a serial history

  /** What is shown is the outcome of a prefix of the commits: all of them, or all but the one about to be published. */
  lemma ShownIsCommitted(s: State, m: Memory)
    requires Inv(s) && s.proc == Up(m) && s.half.Whole? && !m.task.Publishing?
    ensures |s.applied| <= |s.attempts|
    ensures s.shown == Resolve(s.attempts, s.applied)
         || (m.task.Logged? && s.applied != [] && s.base == Apply(s.shown, m.task.txn)
             && s.base == Resolve(s.attempts, s.applied))
  {
    hide DiskInv, ValidLog, DirtyInv, IdInv, ReaderInv, PhaseInv, ValidDb, Shows, Resolve, ValidTxn, TodoInv, Firm,
      Covered, Kept, WriterInv, PartInv;
  }

  // ----- the writer

  /** A write transaction sees its own pages, and for every other page the last committed contents. */
  lemma WriterSeesOverlay(s: State, m: Memory, k: PageId)
    requires Inv(s) && s.proc == Up(m) && m.task.Writing? && 0 < k < m.task.count
    ensures s.shown == s.base && m.pageCount == s.base.count
    ensures k !in m.task.pages ==> k in s.base.pages && Fetch(s, k) == Read(s.base.pages[k])
  {
    hide DiskInv, HistoryInv, ValidLog, ValidDb, Fetch, Shows, DirtyInv, IdInv, ReaderInv, PhaseInv, HalfInv;
    if k !in m.task.pages {
      FetchShown(s, m, k);
    }
  }

  /** Committed state, history and log are what they were. */
  ghost predicate NoTrace(s: State, t: State) {
    && s.proc.Up? && t.proc.Up? && t.proc.mem.pageCount == s.proc.mem.pageCount
    && t.base == s.base && t.shown == s.shown && t.half == s.half && t.log == s.log
    && t.attempts == s.attempts && t.applied == s.applied && t.doubt == s.doubt
  }

  /** A write transaction is open from state `i` to state `j`. */
  ghost predicate Writes(ss: seq<State>, i: nat, j: nat) {
    i <= j < |ss| && forall x :: i <= x <= j ==> ss[x].proc.Up? && ss[x].proc.mem.task.Writing?
  }

  lemma CacheLeavesNoTrace(s: State, m: Memory, e: CacheEvent)
    requires |s.files| > 0 && s.proc == Up(m) && CacheEnabled(s, m, e)
    ensures NoTrace(s, DoCache(s, m, e)) && DoCache(s, m, e).proc.mem.task == m.task
  {
    hide Sealed, WritePage, PartlyWritten;
  }

  lemma WriteLeavesNoTrace(s: State, m: Memory, e: WriteEvent)
    requires |s.files| > 0 && s.proc == Up(m) && m.task.Writing? && WriteEnabled(s, m, e)
    ensures var t := DoWrite(s, m, e);
      && t.proc.Up? && (t.proc.mem.task.Writing? || e.Rollback? ==> NoTrace(s, t))
      && (t.proc.mem.task.Writing? ==> t.proc.mem.task.count == m.task.count + if e.Allocate? then 1 else 0)
  {
    hide Sealed, Fetch, NewPage, CommitOf, Verified;
  }

  /** One event while a write transaction is open, by it or by another thread. */
  lemma WritingStep(s: State, e: Event, t: State)
    requires Step(s, e, t) && s.proc.Up? && s.proc.mem.task.Writing? && t.proc.Up? && t.proc.mem.task.Writing?
    ensures NoTrace(s, t)
    ensures !e.Writer? ==> t.proc.mem.task == s.proc.mem.task
    ensures t.proc.mem.task.count == s.proc.mem.task.count + if Allocates(e) then 1 else 0
  {
    hide ValidLog, OpenEnabled, DoOpen, CacheEnabled, DoCache, WriteEnabled, DoWrite, Torn, Survives, WalLog.Open,
      AfterCrash, BatchOf, Took, Kept;
    match e
    case Cache(c) => CacheLeavesNoTrace(s, s.proc.mem, c);
    case Writer(w) => WriteLeavesNoTrace(s, s.proc.mem, w);
    case Reopen(o) => NotUp(s, o);
    case _ =>
  }

  predicate Allocates(e: Event) { e.Writer? && e.write.Allocate? }

  function Allocations(es: seq<Event>): nat
    decreases |es|
  {
    if es == [] then 0
    else Allocations(es[..|es| - 1]) + if Allocates(es[|es| - 1]) then 1 else 0
  }

  lemma {:induction false} NoTraceThroughout(ss: seq<State>, es: seq<Event>, i: nat, j: nat)
    requires IsRun(ss, es) && Writes(ss, i, j)
    ensures NoTrace(ss[i], ss[j])
    ensures ss[j].proc.mem.task.count == ss[i].proc.mem.task.count + Allocations(es[i..j])
    decreases j
  {
    hide Step, Initial, NoTrace;
    if i < j {
      NoTraceThroughout(ss, es, i, j - 1);
      assert Step(ss[j - 1], es[j - 1], ss[j - 1 + 1]);
      WritingStep(ss[j - 1], es[j - 1], ss[j]);
      assert es[i..j][..j - 1 - i] == es[i..j - 1];
      assert NoTrace(ss[i], ss[j]) by { NoTraceChains(ss[i], ss[j - 1], ss[j]); }
    } else {
      assert NoTrace(ss[i], ss[j]) by { NoTraceSelf(ss[i]); }
    }
  }

  lemma NoTraceSelf(s: State)
    requires s.proc.Up?
    ensures NoTrace(s, s)
  {
  }

  lemma NoTraceChains(s: State, t: State, u: State)
    requires NoTrace(s, t) && NoTrace(t, u)
    ensures NoTrace(s, u)
  {
  }

  /**
   * While a write transaction is open, whatever readers, evictions and other threads do, every page it
   * has not itself touched reads as the state it began on.
   */
  lemma WriterUndisturbed(ss: seq<State>, es: seq<Event>, i: nat, j: nat, k: PageId)
    requires IsSafeRun(ss, es) && Writes(ss, i, j) && |ss[j].files| > 0
    requires 0 < k < ss[j].proc.mem.task.count && k !in ss[j].proc.mem.task.pages
    ensures NoTrace(ss[i], ss[j])
    ensures k in ss[i].base.pages && Fetch(ss[j], k) == Read(ss[i].base.pages[k])
  {
    hide Inv, Step, Initial, Fetch, Safe;
    NoTraceThroughout(ss, es, i, j);
    RunKeeps(ss, es, j);
    WriterSeesOverlay(ss[j], ss[j].proc.mem, k);
  }

  /** Its own pages change by its own hand only. */
  lemma {:induction false} WriterPagesPrivate(ss: seq<State>, es: seq<Event>, i: nat, j: nat)
    requires IsRun(ss, es) && Writes(ss, i, j) && forall x :: i <= x < j ==> !es[x].Writer?
    ensures ss[j].proc.mem.task == ss[i].proc.mem.task
    decreases j
  {
    hide Step, Initial, NoTrace;
    if i < j {
      WriterPagesPrivate(ss, es, i, j - 1);
      assert Step(ss[j - 1], es[j - 1], ss[j - 1 + 1]);
      WritingStep(ss[j - 1], es[j - 1], ss[j]);
    }
  }

  /** The transaction that begins at `i` is still open at `j`. */
  ghost predicate OpenSince(ss: seq<State>, es: seq<Event>, i: nat, j: nat) {
    IsSafeRun(ss, es) && i < j < |ss| && es[i] == Begin && Writes(ss, i + 1, j)
  }

  lemma BeginsClean(s: State, t: State)
    requires Inv(s) && Step(s, Begin, t)
    ensures NoTrace(s, t) && t.proc.mem.task == Writing(map[], s.base.count) && s.base == s.shown
  {
    hide DiskInv, HistoryInv, ValidLog, DirtyInv, IdInv, ReaderInv, PhaseInv, ValidDb, Shows, PartInv;
  }

  /** Pages are allocated one after another from the committed end on, whatever else happens meanwhile. */
  lemma AllocatesInOrder(ss: seq<State>, es: seq<Event>, i: nat, j: nat)
    requires OpenSince(ss, es, i, j)
    ensures NoTrace(ss[i], ss[j])
    ensures ss[j].proc.mem.task.count == ss[i].base.count + Allocations(es[i + 1..j])
    ensures j < |es| && Allocates(es[j]) ==>
      && ss[j + 1].proc.Up? && ss[j + 1].proc.mem.task.Writing?
      && ss[j].proc.mem.task.count in ss[j + 1].proc.mem.task.pages
  {
    hide Inv, Step, Initial, Safe, NoTrace, NewPage;
    RunKeeps(ss, es, i);
    assert Step(ss[i], es[i], ss[i + 1]);
    BeginsClean(ss[i], ss[i + 1]);
    NoTraceThroughout(ss, es, i + 1, j);
    NoTraceChains(ss[i], ss[i + 1], ss[j]);
    if j < |es| && Allocates(es[j]) {
      assert Step(ss[j], es[j], ss[j + 1]);
      AllocateStep(ss[j], es[j].write, ss[j + 1]);
    }
  }

  lemma AllocateStep(s: State, e: WriteEvent, t: State)
    requires Step(s, Writer(e), t) && e.Allocate?
    ensures s.proc.Up? && s.proc.mem.task.Writing? && t.proc.Up? && t.proc.mem.task.Writing?
    ensures s.proc.mem.task.count in t.proc.mem.task.pages
  {
    hide ValidLog, NewPage;
  }

  /**
   * Rolling back leaves no trace: over the whole life of the transaction, with anything other threads
   * do in between, committed state, history, log and page count end as they began, and so does every
   * page a fetch returns.
   */
  lemma RollbackLeavesNoTrace(ss: seq<State>, es: seq<Event>, i: nat, j: nat, k: PageId)
    requires OpenSince(ss, es, i, j) && j < |es| && es[j] == Writer(Rollback)
    requires |ss[i].files| > 0 && |ss[j + 1].files| > 0 && 0 < k < ss[i].base.count
    ensures NoTrace(ss[i], ss[j + 1]) && ss[j + 1].proc.mem.task.Idle?
    ensures Fetch(ss[i], k).Read? && Fetch(ss[j + 1], k) == Fetch(ss[i], k)
  {
    hide Inv, Step, Initial, Safe, Fetch;
    AllocatesInOrder(ss, es, i, j);
    assert Step(ss[j], es[j], ss[j + 1]);
    RollbackStep(ss[j], ss[j + 1]);
    RunKeeps(ss, es, i);
    RunKeeps(ss, es, j + 1);
    assert Step(ss[i], es[i], ss[i + 1]);
    BeginIsIdle(ss[i], ss[i + 1]);
    BeginsClean(ss[i], ss[i + 1]);
    FetchShown(ss[i], ss[i].proc.mem, k);
    FetchShown(ss[j + 1], ss[j + 1].proc.mem, k);
  }

  lemma RollbackStep(s: State, t: State)
    requires Step(s, Writer(Rollback), t)
    ensures NoTrace(s, t) && t.proc.mem.task.Idle?
  {
    hide ValidLog;
  }

  lemma BeginIsIdle(s: State, t: State)
    requires Inv(s) && Step(s, Begin, t)
    ensures s.proc.Up? && s.proc.mem.task.Idle? && s.half.Whole?
  {
    hide DiskInv, HistoryInv, ValidLog, DirtyInv, IdInv, ReaderInv, PhaseInv, ValidDb, Shows, TaskInv;
  }

  // ----- the next transaction

  /** Between transactions: the lock is free, or a checkpoint holds it. */
  predicate BetweenTxns(task: Task) {
    task.Idle? || task.Flushing? || task.Flushed? || task.HeaderWritten? || task.Synced? || task.ResetIssued?
  }

  /** Committed state and page count are what they were. */
  ghost predicate SameCommitted(s: State, t: State) {
    && s.proc.Up? && t.proc.Up? && t.proc.mem.pageCount == s.proc.mem.pageCount
    && t.base == s.base && t.shown == s.shown
  }

  lemma CheckpointLeavesState(s: State, m: Memory, e: CheckpointEvent)
    requires |s.files| > 0 && s.proc == Up(m) && CheckpointEnabled(s, m, e)
    ensures SameCommitted(s, DoCheckpoint(s, m, e)) && BetweenTxns(DoCheckpoint(s, m, e).proc.mem.task)
  {
    hide Sealed, WritePage, PartlyWritten, FileHeader.Encode, AfterFsync;
  }

  lemma BetweenStep(s: State, e: Event, t: State)
    requires Step(s, e, t) && s.proc.Up? && BetweenTxns(s.proc.mem.task) && t.proc.Up? && e != Begin
    ensures SameCommitted(s, t) && BetweenTxns(t.proc.mem.task)
  {
    hide ValidLog, OpenEnabled, DoOpen, CacheEnabled, DoCache, WriteEnabled, DoWrite, CheckpointEnabled, DoCheckpoint,
      Torn, Survives, WalLog.Open, AfterCrash, BatchOf, Took, Kept, Damage;
    match e
    case Cache(c) => CacheLeavesNoTrace(s, s.proc.mem, c);
    case Checkpointing(c) => CheckpointLeavesState(s, s.proc.mem, c);
    case Reopen(o) => NotUp(s, o);
    case _ =>
  }

  lemma {:induction false} BetweenThroughout(ss: seq<State>, es: seq<Event>, i: nat, j: nat)
    requires IsRun(ss, es) && i <= j < |ss| && ss[i].proc.Up? && BetweenTxns(ss[i].proc.mem.task)
    requires (forall x :: i <= x <= j ==> ss[x].proc.Up?) && (forall x :: i <= x < j ==> es[x] != Begin)
    ensures SameCommitted(ss[i], ss[j]) && BetweenTxns(ss[j].proc.mem.task)
    decreases j
  {
    hide Step, Initial, BetweenTxns;
    if i < j {
      BetweenThroughout(ss, es, i, j - 1);
      assert Step(ss[j - 1], es[j - 1], ss[j - 1 + 1]);
      BetweenStep(ss[j - 1], es[j - 1], ss[j]);
    }
  }

  /**
   * The transaction after a rollback begins where the one rolled back began: on the same committed
   * state, with nothing of its own, and about to be given the same page ids.
   */
  lemma NextTransactionReuses(ss: seq<State>, es: seq<Event>, i: nat, j: nat, n: nat)
    requires OpenSince(ss, es, i, j) && j < n < |es| && es[j] == Writer(Rollback) && es[n] == Begin
    requires (forall x :: j < x <= n ==> ss[x].proc.Up?) && (forall x :: j < x < n ==> es[x] != Begin)
    ensures SameCommitted(ss[i], ss[n + 1])
    ensures ss[n + 1].proc.mem.task == ss[i + 1].proc.mem.task == Writing(map[], ss[i].base.count)
  {
    hide Inv, Step, Initial, Safe;
    AllocatesInOrder(ss, es, i, j);
    assert Step(ss[j], es[j], ss[j + 1]);
    RollbackStep(ss[j], ss[j + 1]);
    BetweenThroughout(ss, es, j + 1, n);
    RunKeeps(ss, es, i);
    RunKeeps(ss, es, n);
    assert Step(ss[i], es[i], ss[i + 1]);
    BeginsClean(ss[i], ss[i + 1]);
    assert Step(ss[n], es[n], ss[n + 1]);
    BeginsClean(ss[n], ss[n + 1]);
  }
}
