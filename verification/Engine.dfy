/**
 * The engine as a step machine: files with unsynced writes, the log, the process and its threads.
 *
 * One event is one effect another thread, a failing system call or a crash could fall in front of.
 */
module Engine {
  import opened Bytes
  import opened Pages
  import opened WalRecord
  import opened WalLog
  import opened Wal
  import opened DataFile
  import opened Recovery
  import opened Fsync
  import opened Store
  import FileHeader

  type Tid = nat

  /** What the holder of the log lock is doing. */
  datatype Task =
    | Idle                                             // the lock is free
    | Writing(pages: Images, count: U64)               // a write transaction and its private pages
    | Logging(txn: Txn, id: U64)                       // records appended in memory
    | Written(txn: Txn, id: U64)                       // records written, fsync to come
    | Logged(txn: Txn)                                 // durable, waiting for readers to finish
    | Publishing(txn: Txn, todo: seq<Image>)           // exclusive: page count set, images going in
    | Published                                        // acknowledged; auto-checkpoint to be decided
    | Flushing(rest: set<PageId>)                      // checkpoint: cached pages still to be visited
    | Flushed                                          // checkpoint: pages written and fsynced
    | HeaderWritten
    | Synced
    | ResetIssued

  datatype Memory = Memory(
    pageCount: U64,
    dirty: Images,                       // cached pages that differ from the file
    poisoned: bool,
    logPoisoned: bool,
    nextTxn: nat,
    readersChecked: set<Tid>,            // passed the poison check, not yet holding the lock
    checkpointsChecked: set<Tid>,
    readers: map<Tid, Db>,               // open read transactions and the state each was promised
    task: Task)

  datatype Stage =
    | Truncate                           // a discarded tail is being cut off
    | Restore(todo: Images)              // images still to be written
    | Restored
    | Reopening(count: U64)              // log reset issued

  datatype Process =
    | Down
    | Opening(first: U64, found: seq<Record>, stage: Stage)
    | Up(mem: Memory)

  /** A commit whose records may or may not be in the log file. */
  datatype Doubt = NoDoubt | Doubt(txn: Txn, id: U64)

  /** A commit that reached the log file, and whether its caller was told it succeeded. */
  datatype Attempt = Attempt(txn: Txn, acked: bool)

  /** Has a commit failed partway through publishing, and with which images not yet installed? */
  datatype Half = Whole | Half(txn: Txn, todo: seq<Image>)

  /** How far replay has got with a commit whose records were never fsynced. */
  datatype Replay = Untouched | Started | Landed

  datatype State = State(
    files: seq<File>,                    // data file contents a crash may still bring up
    fault: Fault,                        // whether an fsync of the data file failed
    log: Log,
    proc: Process,
    base: Db,                            // every commit known to be durable, applied in order
    shown: Db,                           // the state readers of this process are given
    half: Half,
    doubt: Doubt,
    replay: Replay,
    attempts: seq<Attempt>,
    applied: seq<bool>)                  // which attempts took effect, as far as that is settled

  /** The machine crashes, or the process dies while the kernel and its caches live on. */
  datatype WorldEvent = PowerLoss(file: File, wal: seq<Byte>) | Kill

  /** Opening an existing database. */
  datatype OpenEvent =
    | OpenLog(wal: seq<Byte>)
    | CutTail
    | CutFailed
    | RestorePage(k: PageId)
    | RestoreFailed(k: PageId, left: File)
    | RestoreSync
    | RestoreSyncFailed
    | ReopenReset
    | ReopenSync
    | OpenFailed

  /** Readers, and the write-back of dirty pages that any fetch or install can cause. */
  datatype CacheEvent =
    | ReaderCheck(t: Tid)
    | ReaderLock(t: Tid)
    | ReaderDrop(t: Tid)
    | Evict(k: PageId)
    | EvictFailed(k: PageId, left: File)

  /** A write transaction up to its commit. */
  datatype WriteEvent =
    | Touch(k: PageId)
    | Edit(k: PageId, page: Page)
    | Allocate(pageType: PageType)
    | Rollback
    | CommitNothing
    | CommitRejected(k: PageId)
    | CommitLog(order: seq<PageId>)

  datatype CommitEvent =
    | LogWrite
    | LogWriteFailed(left: seq<Byte>)
    | LogSync
    | LogSyncFailed
    | PublishStart
    | Install
    | InstallFailed
    | PublishEnd
    | CommitDone
    | AutoCheckpoint

  datatype CheckpointEvent =
    | FlushPage(k: PageId)
    | FlushFailed(k: PageId, left: File)
    | FlushSync
    | WriteHeader
    | WriteHeaderFailed(left: File)
    | CheckpointSync
    | CheckpointSyncFailed
    | ResetRefused
    | ResetStart
    | ResetSync
    | ResetFailed

  datatype Event =
    | World(world: WorldEvent)
    | Reopen(open: OpenEvent)
    | Cache(cache: CacheEvent)
    | Begin
    | Writer(write: WriteEvent)
    | Committing(commit: CommitEvent)
    | CheckpointCheck(t: Tid)
    | CheckpointLock(t: Tid)
    | Checkpointing(checkpoint: CheckpointEvent)

  // ----- building a commit

  /** The dirty map in page order. */
  ghost predicate Ascending(order: seq<PageId>, pages: Images) {
    && (forall i, j :: 0 <= i < j < |order| ==> order[i] < order[j])
    && (forall k: PageId :: k in pages <==> k in order)
  }

  function SealedImages(pages: Images, order: seq<PageId>): (s: seq<Image>)
    requires forall k :: k in order ==> k in pages
    ensures |s| == |order|
  {
    seq(|order|, i requires 0 <= i < |order| => Image(order[i], Sealed(pages[order[i]])))
  }

  /** A commit that grows the file logs the new header first. */
  function CommitOf(pages: Images, order: seq<PageId>, count: U64, oldCount: U64): Txn
    requires forall k :: k in order ==> k in pages
  {
    Txn(count, (if count > oldCount then [Image(0, FileHeader.Encode(count))] else []) + SealedImages(pages, order))
  }

  function BatchOf(t: Txn, id: U64): seq<Record> { Records(Batch(id, t.images, true)) }

  /** The images that go into the page cache: all but the header. */
  function DataImages(images: seq<Image>): seq<Image>
    decreases |images|
  {
    if images == [] then []
    else
      var rest := DataImages(images[..|images| - 1]);
      if images[|images| - 1].id == 0 then rest else rest + [images[|images| - 1]]
  }

  // ----- helpers over states

  function Current(s: State): File
    requires |s.files| > 0
  {
    Last(s.files)
  }

  /** A page as a fetch through the cache returns it. */
  function Fetch(s: State, k: PageId): Reading
    requires s.proc.Up? && |s.files| > 0
  {
    var m := s.proc.mem;
    if k in m.dirty then Read(m.dirty[k]) else ReadPage(Current(s), m.pageCount, k)
  }

  function WithTask(s: State, task: Task): State
    requires s.proc.Up?
  {
    s.(proc := Up(s.proc.mem.(task := task)))
  }

  function Poison(s: State): State
    requires s.proc.Up?
  {
    s.(proc := Up(s.proc.mem.(task := Idle, poisoned := true)))
  }

  function PoisonLog(s: State): State
    requires s.proc.Up?
  {
    s.(proc := Up(s.proc.mem.(task := Idle, poisoned := true, logPoisoned := true)))
  }

  function Write(s: State, k: PageId, p: Page): State
    requires |s.files| > 0
  {
    s.(files := s.files + [WritePage(Current(s), k, p)], fault := Rewritten(s.fault, k, p))
  }

  /** A write of page `k` that failed partway and left the file as `v`. */
  function WriteInPart(s: State, k: PageId, v: File): State {
    s.(files := s.files + [v], fault := Disturbed(s.fault, k))
  }

  ghost function SyncFile(s: State): State
    requires |s.files| > 0
  {
    s.(files := AfterFsync(s.files, s.fault))
  }

  /** The fsync failed: nothing written so far is sure to reach the disk any more. */
  function FailSync(s: State): State {
    s.(fault := Fault(map[]))
  }

  function Fresh(count: U64): Memory {
    Memory(count, map[], false, false, 1, {}, {}, map[], Idle)
  }

  function Initial(): State {
    State([FileHeader.Encode(1)], NoFault, Log(0, [], [], Quiet), Up(Fresh(1)), Store.Fresh(), Store.Fresh(), Whole,
          NoDoubt, Untouched, [], [])
  }

  /** Does the log file, as a surviving kernel would show it, end in a commit that was never fsynced? */
  ghost predicate UnsyncedCommitVisible(s: State) {
    s.doubt.Doubt? && TailRecords(s.log) == BatchOf(s.doubt.txn, s.doubt.id)
  }

  /** Images the durable log would put back over the commit in doubt are its own. */
  ghost predicate Absorbed(recs: seq<Record>, txn: Txn) {
    forall k :: k in Effect(txn) && k in Redo(recs) ==> Redo(recs)[k] == Effect(txn)[k]
  }

  /** The commit changes no page whose only good copy is in the data file. */
  ghost predicate Repairable(recs: seq<Record>, d: Db, txn: Txn) {
    forall k :: k in Effect(txn) && k in d.pages && k !in Redo(recs) ==> Effect(txn)[k] == d.pages[k]
  }

  /**
   * Does opening a log that holds `found` give the database with the commit in doubt? Its records are
   * there, or replay has already brought it into the data file and nothing undoes it.
   */
  ghost predicate Took(recs: seq<Record>, doubt: Doubt, replay: Replay, found: seq<Record>) {
    && doubt.Doubt?
    && (|| found == recs + BatchOf(doubt.txn, doubt.id)
        || (replay.Landed? && (found == [] || Absorbed(recs, doubt.txn))))
  }

  /** The doubt settled one way or the other. */
  function Settle(s: State, took: bool): State {
    if s.doubt.NoDoubt? then s
    else s.(doubt := NoDoubt, replay := Untouched, applied := s.applied + [took],
            base := if took then Apply(s.base, s.doubt.txn) else s.base)
  }

  // ----- which events can happen, and what they do

  ghost predicate Enabled(s: State, e: Event)
    requires |s.files| > 0 && ValidLog(s.log)
  {
    match e
    case World(PowerLoss(c, w)) => Torn(c, s.files) && Survives(w, s.log) && WalLog.Open(w).Opened?
    case World(Kill) => true
    case Reopen(o) => OpenEnabled(s, o)
    case Cache(c) => s.proc.Up? && CacheEnabled(s, s.proc.mem, c)
    case Begin => s.proc.Up? && s.proc.mem.task.Idle? && !s.proc.mem.poisoned
    case Writer(w) => s.proc.Up? && s.proc.mem.task.Writing? && WriteEnabled(s, s.proc.mem, w)
    case Committing(c) => s.proc.Up? && CommitEnabled(s, s.proc.mem, c)
    case CheckpointCheck(_) => s.proc.Up? && !s.proc.mem.poisoned
    case CheckpointLock(t) => s.proc.Up? && s.proc.mem.task.Idle? && t in s.proc.mem.checkpointsChecked
    case Checkpointing(c) => s.proc.Up? && CheckpointEnabled(s, s.proc.mem, c)
  }

  ghost function Do(s: State, e: Event): State
    requires |s.files| > 0 && ValidLog(s.log) && Enabled(s, e)
  {
    match e
    case World(PowerLoss(c, w)) => DoPowerLoss(s, c, w)
    case World(Kill) => s.(proc := Down)
    case Reopen(o) => DoOpen(s, o)
    case Cache(c) => DoCache(s, s.proc.mem, c)
    case Begin => WithTask(s, Writing(map[], s.proc.mem.pageCount))
    case Writer(w) => DoWrite(s, s.proc.mem, w)
    case Committing(c) => DoCommit(s, s.proc.mem, c)
    case CheckpointCheck(t) =>
      s.(proc := Up(s.proc.mem.(checkpointsChecked := s.proc.mem.checkpointsChecked + {t})))
    case CheckpointLock(t) =>
      s.(proc := Up(s.proc.mem.(checkpointsChecked := s.proc.mem.checkpointsChecked - {t},
                                task := Flushing(s.proc.mem.dirty.Keys))))
    case Checkpointing(c) => DoCheckpoint(s, s.proc.mem, c)
  }

  ghost function DoPowerLoss(s: State, c: File, w: seq<Byte>): State
    requires WalLog.Open(w).Opened?
  {
    var found := WalLog.Open(w).records;
    Settle(s, Took(s.log.recs, s.doubt, s.replay, found))
      .(files := [c], fault := NoFault, log := AfterCrash(w), proc := Down)
  }

  // opening

  /** Replay writes nothing, and opening fails, if any committed image is invalid. */
  ghost predicate Replaying(s: State) {
    s.proc.Opening? && s.proc.stage.Restore? && ImagesValid(s.proc.found, Committed(s.proc.found))
  }

  ghost predicate OpenEnabled(s: State, e: OpenEvent)
    requires |s.files| > 0 && ValidLog(s.log)
  {
    match e
    case OpenLog(w) => s.proc.Down? && ReadsAs(w, s.log) && WalLog.Open(w).Opened?
    case CutTail => s.proc.Opening? && s.proc.stage.Truncate?
    case CutFailed => s.proc.Opening? && s.proc.stage.Truncate?
    case RestorePage(k) => Replaying(s) && k in s.proc.stage.todo
    case RestoreFailed(k, v) =>
      Replaying(s) && k in s.proc.stage.todo && PartlyWritten(v, Current(s), k, s.proc.stage.todo[k])
    case RestoreSync => Replaying(s) && s.proc.stage.todo == map[]
    case RestoreSyncFailed => Replaying(s) && s.proc.stage.todo == map[] && Redo(s.proc.found) != map[]
    case ReopenReset =>
      && s.proc.Opening? && s.proc.stage.Restored? && DataFile.Open(Current(s)).Opened?
      && s.proc.first + |s.proc.found| < SEQ_LIMIT
    case ReopenSync => s.proc.Opening? && s.proc.stage.Reopening? && s.proc.first + |s.proc.found| < SEQ_LIMIT
    case OpenFailed => s.proc.Opening?
  }

  ghost function DoOpen(s: State, e: OpenEvent): State
    requires |s.files| > 0 && ValidLog(s.log) && OpenEnabled(s, e)
  {
    match e
    case OpenLog(w) =>
      var o := WalLog.Open(w);
      s.(proc := Opening(o.first, o.records, if o.discarded > 0 then Truncate else Restore(Redo(o.records))))
    case CutTail => s.(log := Cut(s.log), proc := s.proc.(stage := Restore(Redo(s.proc.found))))
    case CutFailed => s.(log := Cut(s.log), proc := Down)
    case RestorePage(k) =>
      Begun(Write(s, k, s.proc.stage.todo[k])).(proc := s.proc.(stage := Restore(s.proc.stage.todo - {k})))
    case RestoreFailed(k, v) => Begun(WriteInPart(s, k, v)).(proc := Down)
    case RestoreSync =>
      Arrived(if Redo(s.proc.found) == map[] then s else SyncFile(s)).(proc := s.proc.(stage := Restored))
    case RestoreSyncFailed => FailSync(s).(proc := Down)
    case ReopenReset => DoReopenReset(s)
    case ReopenSync => DoReopenSync(s)
    case OpenFailed => s.(proc := Down)
  }

  /** Is this opening replaying a commit that was never fsynced? */
  ghost predicate ReplaysDoubt(s: State) {
    s.proc.Opening? && s.doubt.Doubt? && s.proc.found == s.log.recs + BatchOf(s.doubt.txn, s.doubt.id)
  }

  ghost function Begun(s: State): State {
    if ReplaysDoubt(s) && s.replay.Untouched? then s.(replay := Started) else s
  }

  ghost function Arrived(s: State): State {
    if ReplaysDoubt(s) then s.(replay := Landed) else s
  }

  ghost function DoReopenReset(s: State): State
    requires |s.files| > 0 && s.proc.Opening? && DataFile.Open(Current(s)).Opened?
  {
    s.(log := InReset(s.log, s.proc.first + |s.proc.found|),
       proc := s.proc.(stage := Reopening(DataFile.Open(Current(s)).pageCount)))
  }

  /** The log is empty for good, so whatever the file holds now is settled. */
  ghost function DoReopenSync(s: State): State
    requires s.proc.Opening? && s.proc.stage.Reopening?
  {
    var t := Settle(s, Took(s.log.recs, s.doubt, s.replay, s.proc.found));
    t.(log := Log(s.proc.first + |s.proc.found|, [], [], Quiet), proc := Up(Fresh(s.proc.stage.count)),
       shown := t.base, half := Whole)
  }

  // readers and eviction

  ghost predicate CacheEnabled(s: State, m: Memory, e: CacheEvent)
    requires |s.files| > 0
  {
    match e
    case ReaderCheck(t) => !m.poisoned
    case ReaderLock(t) => t in m.readersChecked && t !in m.readers && !m.task.Publishing?
    case ReaderDrop(t) => t in m.readers
    case Evict(k) => k in m.dirty && k < m.pageCount
    case EvictFailed(k, v) => k in m.dirty && k < m.pageCount && PartlyWritten(v, Current(s), k, Sealed(m.dirty[k]))
  }

  ghost function DoCache(s: State, m: Memory, e: CacheEvent): State
    requires |s.files| > 0 && CacheEnabled(s, m, e)
  {
    match e
    case ReaderCheck(t) => s.(proc := Up(m.(readersChecked := m.readersChecked + {t})))
    case ReaderLock(t) =>
      s.(proc := Up(m.(readersChecked := m.readersChecked - {t}, readers := m.readers[t := s.shown])))
    case ReaderDrop(t) => s.(proc := Up(m.(readers := m.readers - {t})))
    case Evict(k) => Write(s, k, Sealed(m.dirty[k])).(proc := Up(m.(dirty := m.dirty - {k})))
    case EvictFailed(k, v) => WriteInPart(s, k, v)
  }

  // write transactions

  ghost predicate WriteEnabled(s: State, m: Memory, e: WriteEvent)
    requires |s.files| > 0 && s.proc == Up(m) && m.task.Writing?
  {
    var w := m.task;
    match e
    case Touch(k) => 0 < k < w.count && k !in w.pages && Fetch(s, k).Read?
    case Edit(k, p) => k in w.pages
    case Allocate(_) => w.count + 1 < 0x1_0000_0000_0000_0000
    case Rollback => true
    case CommitNothing => w.pages == map[]
    case CommitRejected(k) => k in w.pages && !Verified(Sealed(w.pages[k]), k)
    case CommitLog(order) =>
      && w.pages != map[] && Ascending(order, w.pages)
      && (forall k :: k in w.pages ==> Verified(Sealed(w.pages[k]), k))
      && m.nextTxn < 0x1_0000_0000_0000_0000
      && NextSeq(s.log) + |order| + 2 < SEQ_LIMIT
  }

  ghost function DoWrite(s: State, m: Memory, e: WriteEvent): State
    requires |s.files| > 0 && s.proc == Up(m) && m.task.Writing? && WriteEnabled(s, m, e)
  {
    var w := m.task;
    match e
    case Touch(k) => WithTask(s, w.(pages := w.pages[k := Fetch(s, k).page]))
    case Edit(k, p) => WithTask(s, w.(pages := w.pages[k := p]))
    case Allocate(t) => WithTask(s, Writing(w.pages[w.count := NewPage(w.count, t)], w.count + 1))
    case Rollback => WithTask(s, Idle)
    case CommitNothing => WithTask(s, Idle)
    case CommitRejected(_) => WithTask(s, Idle)
    case CommitLog(order) =>
      s.(proc := Up(m.(nextTxn := m.nextTxn + 1,
                       task := Logging(CommitOf(w.pages, order, w.count, m.pageCount), m.nextTxn))))
  }

  // commits

  ghost predicate CommitEnabled(s: State, m: Memory, e: CommitEvent)
    requires s.proc == Up(m)
  {
    match e
    case LogWrite => m.task.Logging?
    case LogWriteFailed(left) =>
      m.task.Logging? && Damage(left, BatchOf(m.task.txn, m.task.id), NextSeq(s.log))
    case LogSync => m.task.Written?
    case LogSyncFailed => m.task.Written?
    case PublishStart => m.task.Logged? && m.readers == map[]
    case Install => m.task.Publishing? && m.task.todo != []
    case InstallFailed => m.task.Publishing? && m.task.todo != []
    case PublishEnd => m.task.Publishing? && m.task.todo == []
    case CommitDone => m.task.Published?
    case AutoCheckpoint => m.task.Published?
  }

  ghost function DoCommit(s: State, m: Memory, e: CommitEvent): State
    requires s.proc == Up(m) && CommitEnabled(s, m, e)
  {
    match e
    case LogWrite =>
      WithTask(DoLogWrite(s, m.task.txn, m.task.id, EncodeBatch(s, m)), Written(m.task.txn, m.task.id))
    case LogWriteFailed(left) => PoisonLog(DoLogWrite(s, m.task.txn, m.task.id, left))
    case LogSync => DoLogSync(s, m)
    case LogSyncFailed => PoisonLog(s)
    case PublishStart =>
      s.(proc := Up(m.(pageCount := m.task.txn.count,
                       task := Publishing(m.task.txn, DataImages(m.task.txn.images)))))
    case Install =>
      var image := m.task.todo[0];
      s.(proc := Up(m.(dirty := m.dirty[image.id := image.page], task := m.task.(todo := m.task.todo[1..]))))
    case InstallFailed => Poison(s).(half := Half(m.task.txn, m.task.todo))
    case PublishEnd => DoPublishEnd(s)
    case CommitDone => WithTask(s, Idle)
    case AutoCheckpoint => WithTask(s, Flushing(m.dirty.Keys))
  }

  ghost function EncodeBatch(s: State, m: Memory): seq<Byte>
    requires m.task.Logging?
  {
    var batch := BatchOf(m.task.txn, m.task.id);
    if NextSeq(s.log) + |batch| <= SEQ_LIMIT then EncodeAll(batch, NextSeq(s.log)) else []
  }

  function DoLogWrite(s: State, txn: Txn, id: U64, left: seq<Byte>): State {
    s.(log := Log(s.log.first, s.log.recs, left, Unsynced), doubt := Doubt(txn, id),
       attempts := s.attempts + [Attempt(txn, false)])
  }

  function DoLogSync(s: State, m: Memory): State
    requires s.proc == Up(m) && m.task.Written?
  {
    WithTask(Settle(s, true).(log := Log(s.log.first, s.log.recs + BatchOf(m.task.txn, m.task.id), [], Quiet)),
             Logged(m.task.txn))
  }

  function DoPublishEnd(s: State): State
    requires s.proc.Up?
  {
    var n := |s.attempts|;
    WithTask(s, Published).(shown := s.base,
      attempts := if n == 0 then [] else s.attempts[n - 1 := s.attempts[n - 1].(acked := true)])
  }

  // checkpoints

  ghost predicate CheckpointEnabled(s: State, m: Memory, e: CheckpointEvent)
    requires |s.files| > 0
  {
    match e
    case FlushPage(k) => m.task.Flushing? && k in m.task.rest
    case FlushFailed(k, v) =>
      m.task.Flushing? && k in m.task.rest && k in m.dirty && PartlyWritten(v, Current(s), k, Sealed(m.dirty[k]))
    case FlushSync => m.task == Flushing({})
    case WriteHeader => m.task.Flushed?
    case WriteHeaderFailed(v) => m.task.Flushed? && PartlyWritten(v, Current(s), 0, FileHeader.Encode(m.pageCount))
    case CheckpointSync => m.task.HeaderWritten?
    case CheckpointSyncFailed => m.task == Flushing({}) || m.task.HeaderWritten?
    case ResetRefused => m.task.Synced? && m.logPoisoned
    case ResetStart => m.task.Synced? && !m.logPoisoned
    case ResetSync => m.task.ResetIssued?
    case ResetFailed => m.task.ResetIssued?
  }

  ghost function DoCheckpoint(s: State, m: Memory, e: CheckpointEvent): State
    requires |s.files| > 0 && s.proc == Up(m) && CheckpointEnabled(s, m, e)
  {
    match e
    case FlushPage(k) => DoFlushPage(s, m, k)
    case FlushFailed(k, v) => Poison(WriteInPart(s, k, v))
    case FlushSync => WithTask(SyncFile(s), Flushed)
    case WriteHeader => WithTask(Write(s, 0, FileHeader.Encode(m.pageCount)), HeaderWritten)
    case WriteHeaderFailed(v) => Poison(WriteInPart(s, 0, v))
    case CheckpointSync => WithTask(SyncFile(s), Synced)
    case CheckpointSyncFailed => Poison(FailSync(s))
    case ResetRefused => Poison(s)
    case ResetStart => WithTask(s.(log := s.log.(phase := Resetting({NextSeq(s.log)}))), ResetIssued)
    case ResetSync => WithTask(s.(log := Log(NextSeq(s.log), [], [], Quiet)), Idle)
    case ResetFailed => PoisonLog(s)
  }

  function DoFlushPage(s: State, m: Memory, k: PageId): State
    requires |s.files| > 0 && s.proc == Up(m) && m.task.Flushing?
  {
    var rest := Flushing(m.task.rest - {k});
    if k in m.dirty then Write(s, k, Sealed(m.dirty[k])).(proc := Up(m.(dirty := m.dirty - {k}, task := rest)))
    else WithTask(s, rest)
  }
}
