/** The invariant of the whole engine: files, log, memory of the running process, and the history of commits. */
module EngineInvariant {
  import opened Bytes
  import opened Pages
  import opened WalLog
  import opened Wal
  import opened DataFile
  import opened Recovery
  import opened Fsync
  import opened Store
  import opened Engine
  import opened DiskInvariant
  import FileHeader

  // ----- memory of a running process

  /**
   * A fetch of page `k` would return `p`; and unless the database is poisoned, `p` is cached for a later
   * write or on its way to the disk.
   */
  ghost predicate Visible(s: State, m: Memory, k: PageId, p: Page)
    requires |s.files| > 0
  {
    if k in m.dirty then m.dirty[k] == p
    else Holds(Last(s.files), k, p) && (m.poisoned || Firm(s.files, s.fault, k, p))
  }

  ghost predicate Shows(s: State, m: Memory, d: Db)
    requires |s.files| > 0
  {
    forall k: PageId :: 0 < k < d.count && k in d.pages ==> Visible(s, m, k, d.pages[k])
  }

  /** The images of a commit installed so far, when those in `todo` are still to come. */
  function Installed(txn: Txn, todo: seq<Image>): Images {
    var all := DataImages(txn.images);
    if |todo| <= |all| then AddImages(map[], all[..|all| - |todo|]) else map[]
  }

  /** Installed pages show their new contents, all others the old ones. */
  ghost predicate ShowsPart(s: State, m: Memory, d: Db, installed: Images)
    requires |s.files| > 0
  {
    && (forall k :: k in installed ==> Visible(s, m, k, installed[k]))
    && (forall k: PageId :: 0 < k < d.count && k in d.pages && k !in installed ==> Visible(s, m, k, d.pages[k]))
  }

  /** A commit that is durable and partly installed, with `todo` still to be installed. */
  ghost predicate PartInv(s: State, m: Memory, txn: Txn, todo: seq<Image>)
    requires |s.files| > 0
  {
    var all := DataImages(txn.images);
    && ValidTxn(s.shown, txn) && s.base == Apply(s.shown, txn)
    && |todo| <= |all| && all[|all| - |todo|..] == todo
    && ShowsPart(s, m, s.shown, Installed(txn, todo))
  }

  /**
   * What a checkpoint needs: every committed page is cached, or its bytes are in the file and no failed
   * fsync has put them in question, and flushing makes the file long enough.
   */
  ghost predicate FlushKeeps(s: State, m: Memory) {
    && |s.files| > 0
    && 4096 * s.base.count <= Max(4096, Max(Reach(s.files, s.fault), End(m.dirty)))
    && forall k: PageId :: 0 < k < s.base.count && k in s.base.pages ==> KeptPage(s, m, k, s.base.pages[k])
  }

  ghost predicate KeptPage(s: State, m: Memory, k: PageId, p: Page)
    requires |s.files| > 0
  {
    if k in m.dirty then m.dirty[k] == p else Sure(s.files, s.fault, k, p)
  }

  /** A poisoned log refuses to be reset, so nothing depends on the flush. */
  ghost predicate Kept(s: State, m: Memory) { m.logPoisoned || FlushKeeps(s, m) }

  /** Every dirty page has its image in the durable log, so it may reach the file at any time. */
  ghost predicate DirtyInv(s: State, m: Memory) {
    forall k :: k in m.dirty ==> 0 < k < m.pageCount && k in Redo(s.log.recs) && Verified(m.dirty[k], k)
  }

  ghost predicate CountInv(s: State, m: Memory) {
    m.pageCount == if m.task.Publishing? || s.half.Half? then s.base.count else s.shown.count
  }

  ghost predicate ReaderInv(s: State, m: Memory) {
    (m.task.Publishing? ==> m.readers == map[]) && forall t :: t in m.readers ==> m.readers[t] == s.shown
  }

  ghost predicate IdInv(s: State, m: Memory) {
    forall t :: t in Txns(s.log.recs) ==> t < m.nextTxn
  }

  ghost predicate PhaseInv(s: State, m: Memory) {
    match s.log.phase
    case Quiet => s.doubt.NoDoubt?
    case Unsynced => s.doubt.Doubt? && (m.logPoisoned || m.task == Written(s.doubt.txn, s.doubt.id))
    case Leftover => false
    case Resetting(_) => s.doubt.NoDoubt? && m.dirty == map[] && (m.logPoisoned || m.task.ResetIssued?)
  }

  ghost predicate WriterInv(s: State, pages: Images, count: U64) {
    && count >= s.shown.count
    && (forall k :: k in pages ==> 0 < k < count)
    && (forall k: PageId :: s.shown.count <= k < count ==> k in pages)
  }

  ghost predicate TodoInv(s: State, todo: seq<Image>) {
    forall i :: 0 <= i < |todo| ==>
      0 < todo[i].id < s.base.count && todo[i].id in Redo(s.log.recs) && Verified(todo[i].page, todo[i].id)
  }

  ghost predicate Clean(s: State, m: Memory) { !m.poisoned && s.half.Whole? }

  /** Nothing is committed that is not shown, unless a commit failed partway. */
  ghost predicate Agreed(s: State) { s.half.Whole? ==> s.base == s.shown }

  ghost predicate LastApplied(s: State) {
    s.attempts != [] && |s.applied| == |s.attempts| && s.applied[|s.applied| - 1]
  }

  ghost predicate TaskInv(s: State, m: Memory)
    requires |s.files| > 0 && ValidLog(s.log)
  {
    match m.task
    case Idle => Agreed(s)
    case Writing(pages, count) => Clean(s, m) && s.base == s.shown && WriterInv(s, pages, count)
    case Logging(txn, id) =>
      && Clean(s, m) && s.base == s.shown && s.log.phase.Quiet?
      && ValidTxn(s.base, txn) && id !in Txns(s.log.recs) && id < m.nextTxn
      && NextSeq(s.log) + |BatchOf(txn, id)| < SEQ_LIMIT
    case Written(txn, id) =>
      && Clean(s, m) && s.base == s.shown && s.doubt == Doubt(txn, id) && s.log.phase.Unsynced?
      && TailRecords(s.log) == BatchOf(txn, id) && id < m.nextTxn
    case Logged(txn) =>
      && Clean(s, m) && s.log.phase.Quiet? && ValidTxn(s.shown, txn) && s.base == Apply(s.shown, txn)
      && TodoInv(s, DataImages(txn.images)) && LastApplied(s)
    case Publishing(txn, todo) =>
      && Clean(s, m) && s.log.phase.Quiet? && ValidDb(s.base) && TodoInv(s, todo) && PartInv(s, m, txn, todo)
      && LastApplied(s)
    case Published => Clean(s, m) && s.base == s.shown
    case Flushing(rest) => Agreed(s) && m.dirty.Keys <= rest && Kept(s, m)
    case Flushed => Agreed(s) && m.dirty == map[] && Kept(s, m)
    case HeaderWritten =>
      && Agreed(s) && m.dirty == map[] && Kept(s, m)
      && Firm(s.files, s.fault, 0, FileHeader.Encode(m.pageCount))
    case Synced => Agreed(s) && m.dirty == map[] && (m.logPoisoned || Covered(s.files, s.base, map[]))
    case ResetIssued =>
      Agreed(s) && m.dirty == map[] && Covered(s.files, s.base, map[]) && s.log.phase.Resetting?
  }

  ghost predicate HalfInv(s: State, m: Memory)
    requires |s.files| > 0
  {
    s.half.Half? ==> m.poisoned && !m.task.Publishing? && PartInv(s, m, s.half.txn, s.half.todo)
  }

  ghost predicate UpInv(s: State, m: Memory)
    requires |s.files| > 0 && ValidLog(s.log)
  {
    && ValidDb(s.shown) && m.nextTxn >= 1 && s.replay.Untouched? && (m.logPoisoned ==> m.poisoned)
    && CountInv(s, m) && DirtyInv(s, m) && ReaderInv(s, m) && IdInv(s, m) && PhaseInv(s, m) && TaskInv(s, m)
    && HalfInv(s, m)
    && (!m.task.Publishing? && s.half.Whole? ==> Shows(s, m, s.shown))
  }

  // ----- a process opening the database

  /** The database this opening is about to bring up. */
  ghost function Target(s: State): Db
    requires s.proc.Opening?
  {
    Settled(s.base, s.doubt, Took(s.log.recs, s.doubt, s.replay, s.proc.found))
  }

  /** Images written so far are on their way to the disk. */
  ghost predicate RestoreInv(files: seq<File>, fault: Fault, redo: Images, todo: Images)
    requires |files| > 0
  {
    && (forall k :: k in todo ==> k in redo && todo[k] == redo[k])
    && (forall k :: k in redo && k !in todo ==> Firm(files, fault, k, redo[k]))
  }

  ghost predicate OpenInv(s: State)
    requires |s.files| > 0 && s.proc.Opening?
  {
    var found := s.proc.found;
    && s.proc.first + |found| < SEQ_LIMIT && Restores(s.files, Target(s), found)
    && (found == s.log.recs + TailRecords(s.log) || (s.log.phase.Resetting? && found == []))
    && (s.replay.Untouched? || Took(s.log.recs, s.doubt, s.replay, found))
    && match s.proc.stage
       case Truncate => true
       case Restore(todo) =>
         RestoreInv(s.files, s.fault, Redo(found), todo) && (s.log.phase.Leftover? ==> s.log.tail == [])
       case Restored => Finished(s) && (s.log.phase.Leftover? ==> s.log.tail == [])
       case Reopening(count) => Finished(s) && count == Target(s).count && s.log.phase.Resetting?
  }

  /** Replay is done and fsynced. */
  ghost predicate Finished(s: State)
    requires s.proc.Opening?
  {
    Covered(s.files, Target(s), map[]) && (ReplaysDoubt(s) ==> s.replay.Landed?)
  }

  // ----- history

  /** The attempts that took effect, applied in order to a fresh database. */
  function Resolve(attempts: seq<Attempt>, applied: seq<bool>): Db
    requires |applied| <= |attempts|
    decreases |applied|
  {
    if applied == [] then Store.Fresh()
    else
      var n := |applied| - 1;
      var d := Resolve(attempts, applied[..n]);
      if applied[n] then Apply(d, attempts[n].txn) else d
  }

  /** Acknowledged commits all took effect; at most the last attempt is undecided. */
  ghost predicate HistoryInv(s: State) {
    && |s.attempts| == |s.applied| + (if s.doubt.Doubt? then 1 else 0)
    && (s.doubt.Doubt? ==> s.attempts[|s.attempts| - 1] == Attempt(s.doubt.txn, false))
    && (forall i :: 0 <= i < |s.applied| && s.attempts[i].acked ==> s.applied[i])
    && s.base == Resolve(s.attempts, s.applied)
  }

  ghost predicate Inv(s: State) {
    && |s.files| > 0 && ValidLog(s.log)
    && DiskInv(s.files, s.fault, s.log, s.base, s.doubt, s.replay)
    && HistoryInv(s)
    && match s.proc
       case Down => true
       case Opening(_, _, _) => OpenInv(s)
       case Up(m) => UpInv(s, m)
  }

  /**
   * The schedules under which the engine keeps its promise. Two are shut out: a checkpoint that starts
   * although a committed page is neither cached nor sure to reach the disk; and a power loss that takes
   * away the unsynced records of a commit a restart is replaying, over pages the log cannot put back.
   */
  ghost predicate Safe(s: State, e: Event) {
    && (e.CheckpointLock? && s.proc.Up? ==> Kept(s, s.proc.mem))
    && (e.World? && e.world.PowerLoss? && WalLog.Open(e.world.wal).Opened? ==>
          Decided(s.log.recs, s.base, s.doubt, s.replay, WalLog.Open(e.world.wal).records))
  }

  lemma QuietTail(l: Log, d: Db)
    requires l.tail == [] && ImagesValid(l.recs, Committed(l.recs))
    ensures TailInv(l, d, NoDoubt)
  {
    hide ImagesValid;
    ScanNothing(NextSeq(l));
    assert l.recs + TailRecords(l)[..0] == l.recs;
  }

  lemma FreshDisk(d: Db, p: Page)
    requires ValidDb(d) && d.count == 1 && d.pages[0] == p
    ensures DiskInv([p], NoFault, Log(0, [], [], Quiet), d, NoDoubt, Untouched) && Holds(p, 0, p)
  {
    hide ValidDb, Verified, Scan, Damage, TailInv, ValidLog, Redo, ImagesValid, Holds, AllHold, Versions;
    var l := Log(0, [], [], Quiet);
    HoldsItself(p);
    OnlyHeader(d);
    QuietIsValid(0, []);
    RedoOfNothing();
    NothingIsValid();
    QuietTail(l, d);
  }

  lemma HoldsItself(p: Page)
    ensures Holds(p, 0, p) && AllHold([p], 0, p) && Versions([p])
  {
  }

  lemma OnlyHeader(d: Db)
    requires ValidDb(d) && d.count == 1
    ensures forall k: PageId :: k in d.pages <==> k == 0
  {
    hide Verified, FileHeader.Encode;
  }

  lemma InitialDisk()
    ensures var s := Initial();
      DiskInv(s.files, s.fault, s.log, s.base, s.doubt, s.replay) && Holds(s.files[0], 0, FileHeader.Encode(1))
  {
    hide FileHeader.Encode, DiskInv, Holds, ValidDb;
    FreshIsValid();
    FreshDisk(Store.Fresh(), FileHeader.Encode(1));
  }

  /** A process that has just opened the database. */
  lemma FreshIsUp(s: State, m: Memory)
    requires |s.files| > 0 && ValidLog(s.log) && ValidDb(s.base) && Covered(s.files, s.base, map[])
    requires s.log.phase.Quiet? && s.log.recs == [] && s.shown == s.base && s.half.Whole? && s.doubt.NoDoubt?
    requires s.replay.Untouched? && m == Engine.Fresh(s.base.count)
    ensures UpInv(s, m)
  {
    hide ValidDb, ValidLog, AllHold, Holds, Redo, Firm;
    assert Shows(s, m, s.base) by { CoveredShows(s, m, s.base); }
  }

  /** A page in all versions is visible, and stays so. */
  lemma CoveredShows(s: State, m: Memory, d: Db)
    requires |s.files| > 0 && Covered(s.files, d, map[]) && m.dirty == map[]
    ensures Shows(s, m, d)
  {
    hide AllHold, Holds, Firm;
    forall k: PageId | 0 < k < d.count && k in d.pages
      ensures Visible(s, m, k, d.pages[k])
    {
      AllHoldLast(s.files, k, d.pages[k]);
      AllHoldIsFirm(s.files, s.fault, k, d.pages[k]);
    }
  }

  lemma InitialInv()
    ensures Inv(Initial())
  {
    hide FileHeader.Encode, DiskInv, UpInv, Resolve;
    var s := Initial();
    InitialDisk();
    assert Resolve([], []) == Store.Fresh() by { NothingResolved(); }
    assert UpInv(s, s.proc.mem) by { InitialUp(s); }
  }

  lemma NothingResolved()
    ensures Resolve([], []) == Store.Fresh()
  {
  }

  lemma InitialUp(s: State)
    requires s == Initial() && DiskInv(s.files, s.fault, s.log, s.base, s.doubt, s.replay)
    ensures UpInv(s, s.proc.mem)
  {
    hide FileHeader.Encode, ValidLog, ValidDb, UpInv;
    RedoOfNothing();
    FreshIsUp(s, s.proc.mem);
  }
}
