/**
 * The database handle and its transactions as the callers use them. Every effect of every method is a
 * step of the engine's machine, recorded in a ghost run: what holds of all safe runs holds here, and a
 * crash in the middle of a method is a crash in the middle of that run.
 */
module Database {
  import opened Bytes
  import opened Crc32c
  import opened Pages
  import opened WalLog
  import opened Wal
  import opened DataFile
  import opened Recovery
  import opened Fsync
  import opened Store
  import opened Engine
  import opened EngineInvariant
  import opened CrashSafety
  import opened Disk
  import opened WalHandle
  import opened DiskInvariant
  import CheckpointSteps
  import FileHeader

  datatype Failure =
    | IsPoisoned
    | OutOfRange
    | Malformed(id: PageId)
    | DiskFailed(disk: Disk.Error)
    | LogFailed(log: WalHandle.Error)
    | OutOfFrames

  /** How a read of a page that is not cached goes: no frame may be had for it, all of them being pinned. */
  datatype ReadIo = ReadDone | ReadFailed | NoFrame

  datatype Result = Success | Failure(failure: Failure)

  /** How the operating system answers during a checkpoint. */
  datatype CheckpointIo = CheckpointIo(
    pages: map<PageId, WriteIo>, sync: SyncIo, header: WriteIo, syncHeader: SyncIo, reset: ResetIo)

  datatype AutoCheckpoint = Never | AtBytes(limit: nat)

  class Database {
    const auto: AutoCheckpoint
    const disk: DiskManager
    const wal: Handle
    const tables: array2<bv32>
    var cached: Images          // the page cache's dirty pages
    var nextTxn: nat
    var poisoned: bool

    ghost var s: State
    ghost var states: seq<State>
    ghost var events: seq<Event>

    /** The fields are the machine's state; `poison` is the flag, or what a failing caller is about to set it to. */
    ghost predicate Tied(poison: bool)
      reads this, disk, wal
    {
      && s.files == disk.files && s.fault == disk.fault && s.log == wal.log && s.proc.Up?
      && s.proc.mem.pageCount == disk.pageCount && s.proc.mem.dirty == cached && s.proc.mem.poisoned == poison
      && s.proc.mem.logPoisoned == wal.poisoned && s.proc.mem.nextTxn == nextTxn
    }

    ghost predicate Recorded()
      reads this
    {
      |states| == |events| + 1 && states[|events|] == s && SafePath(states, events) && Inv(s)
    }

    ghost predicate ValidAs(poison: bool)
      reads this, disk, wal, tables
    {
      && disk.Valid() && wal.Valid() && IsTables(tables) && (!wal.poisoned ==> wal.queued == [])
      && Tied(poison) && Recorded()
    }

    ghost predicate Valid()
      reads this, disk, wal, tables
    {
      ValidAs(poisoned)
    }

    ghost function Task(): Task
      requires s.proc.Up?
      reads this
    {
      s.proc.mem.task
    }

    constructor Create(auto: AutoCheckpoint)
      ensures this.auto == auto && Valid() && states == [Initial()] && fresh(disk) && fresh(wal)
    {
      hide Inv, FileHeader.Encode, EncodeHeader, ValidLog, Survives, Versions, IsTables, Handle.Valid,
        DiskManager.Valid, SafePath;
      disk := new DiskManager.Create();
      wal := new Handle.Create();
      this.auto := auto;
      var t := BuildTables();
      tables := t;
      cached := map[];
      nextTxn := 1;
      poisoned := false;
      s := Initial();
      states := [Initial()];
      events := [];
      new;
      InitialInv();
      PathStarts(Initial());
    }

    /** A handle on files that have just been recovered. */
    constructor Assemble(
      auto: AutoCheckpoint, disk: DiskManager, wal: Handle, ghost ss: seq<State>, ghost es: seq<Event>)
      requires disk.Valid() && wal.Valid() && !wal.poisoned && wal.queued == []
      requires SafePath(ss, es) && Inv(ss[|es|]) && ss[|es|].log == wal.log
      requires ss[|es|].files == disk.files && ss[|es|].fault == disk.fault
      requires ss[|es|].proc == Up(Engine.Fresh(disk.pageCount))
      ensures this.auto == auto && this.disk == disk && this.wal == wal && Valid()
      ensures states == ss && events == es && cached == map[] && !poisoned
    {
      hide Inv, SafePath, Step, Safe, ValidLog, Survives, Versions, IsTables, Handle.Valid, DiskManager.Valid;
      PathSize(ss, es);
      this.auto, this.disk, this.wal := auto, disk, wal;
      var t := BuildTables();
      tables := t;
      cached, nextTxn, poisoned := map[], 1, false;
      s, states, events := ss[|es|], ss, es;
    }

    /** One step of the machine. */
    ghost method Advance(e: Event, t: State)
      requires Recorded() && Step(s, e, t) && Safe(s, e)
      modifies this`s, this`states, this`events
      ensures Recorded() && s == t && states == old(states) + [t] && events == old(events) + [e]
    {
      hide Inv, Step, Safe;
      StepKeeps(s, e, t);
      PathGrows(states, events, e, t);
      s, states, events := t, states + [t], events + [e];
    }

    /** Making room in the page cache: a dirty page goes to the file, or stays dirty if that fails. */
    method EvictPage(k: PageId, io: WriteIo) returns (r: Result)
      requires Valid() && k in cached
      modifies this, disk
      ensures Valid() && old(states) <= states && OnlyCache(old(s), s)
      ensures if io.WriteDone? then r.Success? else r == Failure(DiskFailed(Io))
      ensures cached == if r.Success? then old(cached) - {k} else old(cached)
    {
      hide Inv, SafePath, Safe, Step, ValidLog, Survives, Versions, IsTables, Holds, Verified, Sealed,
        DataFile.WritePage, PartlyWritten, Handle.Valid, PageIdOf, DiskBytes;
      DirtyIsVerified(s, s.proc.mem, k);
      var w, page := disk.WritePage(k, cached[k], io);
      if w.Err? {
        CacheStep(s, s.proc.mem, EvictFailed(k, disk.Current()));
        Advance(Cache(EvictFailed(k, disk.Current())), WriteInPart(s, k, disk.Current()));
        return Failure(DiskFailed(w.error));
      }
      CacheStep(s, s.proc.mem, Evict(k));
      cached := cached - {k};
      Advance(Cache(Evict(k)), s.(files := disk.files, fault := disk.fault, proc := Up(s.proc.mem.(dirty := cached))));
      return Success;
    }

    /** A page through the cache; reading it may push out a dirty victim. */
    method FetchPage(id: PageId, victim: PageId, io: WriteIo, read: ReadIo) returns (r: Result, page: Page)
      requires Valid()
      modifies this, disk
      ensures Valid() && old(states) <= states && OnlyCache(old(s), s)
      ensures r.Success? ==> Fetch(s, id) == Read(page)
      ensures var evicts := id !in old(cached) && victim in old(cached) && !read.NoFrame?;
        && cached == (if evicts && io.WriteDone? then old(cached) - {victim} else old(cached))
        && r == if id in old(cached) then Success
                else if read.NoFrame? then Failure(OutOfFrames)
                else if (evicts && io.WriteFailed?) || read.ReadFailed? then Failure(DiskFailed(Io))
                else match Fetch(s, id)
                     case Read(_) => Success
                     case Failed(e) => Failure(DiskFailed(Unreadable(e)))
    {
      hide Inv, SafePath, Versions, IsTables, Holds, Verified, Handle.Valid, DataFile.ReadPage;
      page := Zeros(4096);
      if id in cached {
        return Success, cached[id];
      }
      if read.NoFrame? {
        return Failure(OutOfFrames), page;
      }
      if victim in cached {
        r := EvictPage(victim, io);
        if r.Failure? {
          return;
        }
      }
      var got, p := disk.ReadPage(id, read.ReadFailed?);
      if got.Err? {
        return Failure(DiskFailed(got.error)), page;
      }
      return Success, p;
    }

    /** Publishing one page. If no room can be made for it the commit ends half published. */
    method InstallPage(image: Image, victim: PageId, io: WriteIo) returns (r: Result)
      requires ValidAs(poisoned) && Task().Publishing? && Task().todo != [] && Task().todo[0] == image
      modifies this, disk
      ensures old(states) <= states && poisoned == old(poisoned) && SameCommits(old(s), s)
      ensures r.Success? ==> ValidAs(poisoned) && Task() == old(Task()).(todo := old(Task()).todo[1..])
      ensures r.Failure? ==> ValidAs(true) && Task().Idle?
      ensures r.Failure? ==> s.half == Half(old(Task()).txn, old(Task()).todo)
      ensures var evicts := image.id !in old(cached) && victim in old(cached);
        && r == (if evicts && io.WriteFailed? then Failure(DiskFailed(Io)) else Success)
        && cached == if r.Failure? then old(cached)
                     else (if evicts then old(cached) - {victim} else old(cached))[image.id := image.page]
    {
      hide Inv, SafePath, Safe, Step, Versions, IsTables, Handle.Valid;
      if image.id !in cached && victim in cached {
        r := EvictPage(victim, io);
        if r.Failure? {
          CommitStep(s, s.proc.mem, InstallFailed);
          Advance(Committing(InstallFailed), DoCommit(s, s.proc.mem, InstallFailed));
          return;
        }
      }
      CommitStep(s, s.proc.mem, Install);
      cached := cached[image.id := image.page];
      Advance(Committing(Install), DoCommit(s, s.proc.mem, Install));
      return Success;
    }

    // ----- checkpoints

    /** Writes every dirty page of the cache and syncs. */
    method FlushAll(ios: map<PageId, WriteIo>, sync: SyncIo) returns (r: Result)
      requires ValidAs(poisoned) && Task() == Flushing(cached.Keys)
      modifies this, disk
      ensures old(states) <= states && poisoned == old(poisoned)
      ensures r.Success? ==> ValidAs(poisoned) && Task() == Engine.Flushed && OnlyTask(old(s), s)
      ensures r.Failure? ==> ValidAs(true) && Task().Idle? && OnlyTask(old(s), s)
      ensures r == if AllDone(old(cached).Keys, ios) && sync.SyncDone? then Success else Failure(DiskFailed(Io))
      ensures r.Success? ==> cached == map[] && wal.poisoned == old(wal.poisoned)
    {
      hide Inv, SafePath, Safe, Step, Versions, IsTables, Holds, Verified, Sealed, DataFile.WritePage, PartlyWritten,
        Handle.Valid, PageIdOf, DiskBytes;
      var todo := cached.Keys;
      while todo != {}
        invariant ValidAs(poisoned) && Task() == Flushing(todo) && cached.Keys == todo && OnlyTask(old(s), s)
        invariant old(states) <= states && poisoned == old(poisoned) && todo <= old(cached).Keys
        invariant forall k :: k in old(cached) && k !in todo ==> IoFor(ios, k).WriteDone?
        decreases |todo|
      {
        var k :| k in todo;
        r := FlushPage(k, IoFor(ios, k));
        if r.Failure? {
          return;
        }
        todo := todo - {k};
      }
      r := SyncData(sync);
    }

    /** Pages, then header, then fsync, then the log: each durable before the next loses its copy. */
    method WriteCheckpoint(io: CheckpointIo) returns (r: Result)
      requires ValidAs(poisoned) && Task() == Flushing(cached.Keys) && ResetCan(io.reset)
      modifies this, disk, wal
      ensures old(states) <= states && poisoned == old(poisoned) && OnlyTask(old(s), s)
      ensures Task().Idle? && ValidAs(poisoned || r.Failure?)
      ensures r.Success? ==> CheckpointLeft(old(s), s)
      ensures r == Answer(old(cached).Keys, old(wal.poisoned), io)
    {
      hide Inv, SafePath, Versions, IsTables, ValidLog, Survives, Handle.Valid, FileHolds, FaultInv, AllDone,
        DiskManager.Valid, ResetLeaves;
      r := FlushAll(io.pages, io.sync);
      if r.Failure? {
        return;
      }
      r := WriteHeader(io.header);
      if r.Failure? {
        return;
      }
      r := SyncData(io.syncHeader);
      if r.Failure? {
        return;
      }
      SyncedCovers(s, s.proc.mem);
      r := ResetLog(io.reset);
    }

    ghost predicate ResetCan(io: ResetIo)
      reads this, wal
    {
      io.ResetFailed? && !wal.poisoned ==> ResetLeaves(io.left, wal.log, wal.nextSeq)
    }

    /** Any failure poisons the database. */
    method CheckpointLocked(io: CheckpointIo) returns (r: Result)
      requires Valid() && Task() == Flushing(cached.Keys) && ResetCan(io.reset)
      modifies this, disk, wal
      ensures Valid() && old(states) <= states && OnlyTask(old(s), s) && Task().Idle?
      ensures if r.Success? then poisoned == old(poisoned) && CheckpointLeft(old(s), s) else poisoned
      ensures r == Answer(old(cached).Keys, old(wal.poisoned), io)
    {
      hide Inv, SafePath, Versions, IsTables, ValidLog, Survives, Handle.Valid, CheckpointLeft, Answer;
      r := WriteCheckpoint(io);
      if r.Failure? {
        poisoned := true;
      }
    }

    /** Refuses a poisoned database; otherwise waits for the log lock and checkpoints. */
    method Checkpoint(io: CheckpointIo) returns (r: Result)
      requires Valid() && Task().Idle? && ResetCan(io.reset)
      modifies this, disk, wal
      ensures Valid() && old(states) <= states && Task().Idle?
      ensures s.base == old(s.base) && s.shown == old(s.shown)
      ensures s.attempts == old(s.attempts) && s.applied == old(s.applied)
      ensures old(poisoned) ==> r == Failure(IsPoisoned) && s == old(s)
      ensures !old(poisoned) ==> if r.Success? then !poisoned && CheckpointLeft(old(s), s) else poisoned
      ensures !old(poisoned) ==> (r.Success? <==> EveryCallDone(old(cached).Keys, io))
      ensures !old(poisoned) ==> r == Answer(old(cached).Keys, false, io)
    {
      hide Inv, SafePath, Safe, Step, Versions, IsTables, ValidLog, Survives, Handle.Valid, FileHolds;
      if poisoned {
        return Failure(IsPoisoned);
      }
      ghost var m := s.proc.mem;
      HealthyLog(s, m);
      LockSteps(s, m);
      Advance(CheckpointCheck(0), Checked(s, m));
      Advance(CheckpointLock(0), LockedForCheckpoint(s, s.proc.mem));
      r := CheckpointLocked(io);
    }

    /**
     * After a commit, with the log lock still held: checkpoints if the log has outgrown its limit. It
     * then ends with the log empty and every file a crash could leave holding the database, or with the
     * database poisoned; below the limit nothing happens.
     */
    method MaybeAutoCheckpoint(io: CheckpointIo) returns (r: Result)
      requires Valid() && Task().Published? && ResetCan(io.reset)
      modifies this, disk, wal
      ensures Valid() && old(states) <= states && OnlyTask(old(s), s) && Task().Idle?
      ensures auto.Never? || old(wal.durableLen) < auto.limit ==> r.Success? && s == WithTask(old(s), Idle)
      ensures auto.AtBytes? && old(wal.durableLen) >= auto.limit ==>
        && r == Answer(old(cached).Keys, old(wal.poisoned), io)
        && if r.Success? then poisoned == old(poisoned) && CheckpointLeft(old(s), s) else poisoned
    {
      hide Inv, SafePath, Safe, Step, Versions, IsTables, ValidLog, Survives, Handle.Valid, CheckpointLeft;
      PublishedSteps(s, s.proc.mem);
      ghost var was := s;
      if auto.AtBytes? && wal.durableLen >= auto.limit {
        Advance(Committing(Engine.AutoCheckpoint), WithTask(s, Flushing(cached.Keys)));
        ghost var locked := s;
        r := CheckpointLocked(io);
        if r.Success? {
          LeftSince(was, locked, s);
        }
      } else {
        Advance(Committing(CommitDone), WithTask(s, Idle));
        r := Success;
      }
    }

    /** The fsync after the pages, and again after the header. */
    method SyncData(sync: SyncIo) returns (r: Result)
      requires ValidAs(poisoned) && (Task() == Flushing({}) || Task().HeaderWritten?)
      modifies this, disk
      ensures old(states) <= states && poisoned == old(poisoned) && OnlyTask(old(s), s) && cached == old(cached)
      ensures r.Success? ==> ValidAs(poisoned)
      ensures r.Success? ==> Task() == if old(Task()).HeaderWritten? then Synced else Engine.Flushed
      ensures r.Failure? ==> ValidAs(true) && Task().Idle?
      ensures r == if sync.SyncDone? then Success else Failure(DiskFailed(Io))
    {
      hide Inv, SafePath, Safe, Step, Versions, IsTables, Holds, Verified, Sealed, DataFile.WritePage, PartlyWritten,
        Handle.Valid, PageIdOf, DiskBytes;
      var w := disk.Sync(sync);
      if w.Err? {
        CheckpointStep(s, s.proc.mem, CheckpointSyncFailed);
        Advance(Checkpointing(CheckpointSyncFailed), Poison(FailSync(s)));
        return Failure(DiskFailed(w.error));
      }
      ghost var e := if Task().HeaderWritten? then CheckpointSync else FlushSync;
      CheckpointStep(s, s.proc.mem, e);
      Advance(Checkpointing(e), DoCheckpoint(s, s.proc.mem, e));
      return Success;
    }

    method WriteHeader(io: WriteIo) returns (r: Result)
      requires ValidAs(poisoned) && Task() == Engine.Flushed
      modifies this, disk
      ensures old(states) <= states && poisoned == old(poisoned) && OnlyTask(old(s), s) && cached == old(cached)
      ensures r.Success? ==> ValidAs(poisoned) && Task().HeaderWritten?
      ensures r.Failure? ==> ValidAs(true) && Task().Idle?
      ensures r == if io.WriteDone? then Success else Failure(DiskFailed(Io))
    {
      hide Inv, SafePath, Safe, Step, Versions, IsTables, Holds, Verified, Sealed, DataFile.WritePage, PartlyWritten,
        Handle.Valid, PageIdOf, DiskBytes, FileHeader.Encode;
      var w := disk.WriteFileHeader(io);
      ghost var e := if w.Err? then WriteHeaderFailed(disk.Current()) else CheckpointEvent.WriteHeader;
      CheckpointStep(s, s.proc.mem, e);
      Advance(Checkpointing(e), DoCheckpoint(s, s.proc.mem, e));
      r := if w.Err? then Failure(DiskFailed(w.error)) else Success;
    }

    /** Empties the log, which nothing needs any more. */
    method ResetLog(io: ResetIo) returns (r: Result)
      requires ValidAs(poisoned) && Task().Synced? && ResetCan(io)
      modifies this, wal
      ensures old(states) <= states && poisoned == old(poisoned) && OnlyTask(old(s), s) && cached == old(cached)
      ensures Task().Idle? && ValidAs(poisoned || r.Failure?)
      ensures r.Success? ==> !old(wal.poisoned) && wal.log == Log(NextSeq(old(wal.log)), [], [], Quiet)
      ensures s.files == old(s.files)
      ensures r == if old(wal.poisoned) then Failure(LogFailed(Poisoned))
                   else if io.ResetFailed? then Failure(LogFailed(IoFailed)) else Success
    {
      hide Inv, SafePath, Safe, Step, Versions, IsTables, ValidLog, Survives, EncodeHeader, EncodeAll, Handle.Valid;
      ghost var m, was := s.proc.mem, wal.log;
      SyncedQuiet(s, m);
      HandleFacts(wal);
      var w := wal.Reset(io);
      if m.logPoisoned {
        CheckpointStep(s, m, ResetRefused);
        Advance(Checkpointing(ResetRefused), Poison(s));
      } else {
        CheckpointStep(s, m, ResetStart);
        Advance(Checkpointing(ResetStart), DoCheckpoint(s, m, ResetStart));
        ghost var e := if w.Err? then CheckpointEvent.ResetFailed else ResetSync;
        CheckpointStep(s, s.proc.mem, e);
        Advance(Checkpointing(e), DoCheckpoint(s, s.proc.mem, e));
      }
      r := if w.Err? then Failure(LogFailed(w.error)) else Success;
    }

    method FlushPage(k: PageId, io: WriteIo) returns (r: Result)
      requires ValidAs(poisoned) && Task().Flushing? && k in Task().rest && k in cached
      modifies this, disk
      ensures old(states) <= states && poisoned == old(poisoned)
      ensures r.Success? ==> ValidAs(poisoned) && Task() == Flushing(old(Task()).rest - {k})
      ensures r.Success? ==> cached == old(cached) - {k} && OnlyTask(old(s), s)
      ensures r.Failure? ==> ValidAs(true) && Task().Idle? && OnlyTask(old(s), s)
      ensures r == if io.WriteDone? then Success else Failure(DiskFailed(Io))
    {
      hide Inv, SafePath, Safe, Step, Versions, IsTables, Holds, Verified, Sealed, DataFile.WritePage, PartlyWritten,
        Handle.Valid, PageIdOf, DiskBytes;
      DirtyIsVerified(s, s.proc.mem, k);
      var w, page := disk.WritePage(k, cached[k], io);
      if w.Err? {
        CheckpointStep(s, s.proc.mem, FlushFailed(k, disk.Current()));
        Advance(Checkpointing(FlushFailed(k, disk.Current())), Poison(WriteInPart(s, k, disk.Current())));
        return Failure(DiskFailed(w.error));
      }
      CheckpointStep(s, s.proc.mem, CheckpointEvent.FlushPage(k));
      cached := cached - {k};
      Advance(Checkpointing(CheckpointEvent.FlushPage(k)), DoFlushPage(s, s.proc.mem, k));
      return Success;
    }
  }

  /** The write of each of these pages succeeds. */
  ghost predicate AllDone(pages: set<PageId>, ios: map<PageId, WriteIo>) {
    forall k :: k in pages ==> IoFor(ios, k).WriteDone?
  }

  /** Every call of a checkpoint of these cached pages succeeds. */
  ghost predicate EveryCallDone(pages: set<PageId>, io: CheckpointIo) {
    && AllDone(pages, io.pages) && io.sync.SyncDone? && io.header.WriteDone? && io.syncHeader.SyncDone?
    && io.reset.ResetDone?
  }

  /** What a checkpoint reports: the data file comes first, and a poisoned log refuses to be reset. */
  ghost function Answer(pages: set<PageId>, logPoisoned: bool, io: CheckpointIo): Result {
    if !AllDone(pages, io.pages) || io.sync.SyncFailed? || io.header.WriteFailed? || io.syncHeader.SyncFailed? then
      Failure(DiskFailed(Io))
    else if logPoisoned then Failure(LogFailed(Poisoned))
    else if io.reset.ResetFailed? then Failure(LogFailed(IoFailed))
    else Success
  }

  /** The log and the history of commits are the same. */
  ghost predicate SameCommits(s: State, t: State) {
    && t.log == s.log && t.base == s.base && t.shown == s.shown
    && t.attempts == s.attempts && t.applied == s.applied && t.doubt == s.doubt
  }

  /** After a checkpoint every file a crash could bring up holds the database, and the log is empty. */
  ghost predicate CheckpointLeft(s: State, t: State) {
    && t.proc.Up? && t.proc.mem.dirty == map[] && Covered(t.files, t.base, map[])
    && t.base == s.base && t.log == Log(NextSeq(s.log), [], [], Quiet)
  }

  lemma LeftSince(s: State, t: State, u: State)
    requires CheckpointLeft(t, u) && t.base == s.base && t.log == s.log
    ensures CheckpointLeft(s, u)
  {
    hide Covered;
  }

  function Checked(s: State, m: Memory): State {
    s.(proc := Up(m.(checkpointsChecked := m.checkpointsChecked + {0})))
  }

  function LockedForCheckpoint(s: State, m: Memory): State {
    s.(proc := Up(m.(checkpointsChecked := m.checkpointsChecked - {0}, task := Flushing(m.dirty.Keys))))
  }

  lemma LockSteps(s: State, m: Memory)
    requires Inv(s) && s.proc == Up(m) && m.task.Idle? && !m.poisoned
    ensures var t := Checked(s, m);
      && Safe(s, CheckpointCheck(0)) && Step(s, CheckpointCheck(0), t)
      && Safe(t, CheckpointLock(0)) && Step(t, CheckpointLock(0), LockedForCheckpoint(t, t.proc.mem))
  {
    hide DiskInv, HistoryInv, ValidLog, ValidDb, DirtyInv, CountInv, ReaderInv, IdInv, PhaseInv, Shows, FlushKeeps,
      PartInv;
    CheckpointSteps.HealthyFlushKeeps(s, m);
    var t := Checked(s, m);
    assert FlushKeeps(t, t.proc.mem) by { SameFlush(s, m, t, t.proc.mem); }
  }

  lemma SameFlush(s: State, m: Memory, t: State, n: Memory)
    requires FlushKeeps(s, m) && t.files == s.files && t.fault == s.fault && t.base == s.base && n.dirty == m.dirty
    ensures FlushKeeps(t, n)
  {
    hide Sure;
  }

  lemma PublishedSteps(s: State, m: Memory)
    requires Inv(s) && s.proc == Up(m) && m.task.Published?
    ensures Safe(s, Committing(CommitDone)) && Step(s, Committing(CommitDone), WithTask(s, Idle))
    ensures Safe(s, Committing(Engine.AutoCheckpoint))
    ensures Step(s, Committing(Engine.AutoCheckpoint), WithTask(s, Flushing(m.dirty.Keys)))
  {
    hide Inv, Safe, Step;
    CommitStep(s, m, CommitDone);
    CommitStep(s, m, Engine.AutoCheckpoint);
  }

  lemma SyncedCovers(s: State, m: Memory)
    requires Inv(s) && s.proc == Up(m) && m.task.Synced?
    ensures m.dirty == map[] && (m.logPoisoned || Covered(s.files, s.base, map[]))
  {
    hide DiskInv, HistoryInv, ValidLog, ValidDb, DirtyInv, CountInv, ReaderInv, IdInv, PhaseInv, Shows, HalfInv,
      Covered;
  }

  lemma SyncedQuiet(s: State, m: Memory)
    requires Inv(s) && s.proc == Up(m) && m.task.Synced?
    ensures m.logPoisoned || s.log.phase.Quiet?
  {
    hide DiskInv, HistoryInv, ValidLog, ValidDb, DirtyInv, CountInv, ReaderInv, IdInv, Shows, HalfInv, Covered;
  }

  /** Nothing is different but what the cache has written back, the log and the holder of the log lock. */
  ghost predicate OnlyTask(s: State, t: State) {
    && s.proc.Up? && t.proc.Up? && t == s.(files := t.files, fault := t.fault, log := t.log, proc := t.proc)
    && t.proc.mem == s.proc.mem.(dirty := t.proc.mem.dirty, task := t.proc.mem.task,
                                 poisoned := t.proc.mem.poisoned, logPoisoned := t.proc.mem.logPoisoned)
  }

  /** The two states differ at most in which dirty pages have reached the file. */
  ghost predicate OnlyCache(s: State, t: State) {
    && s.proc.Up? && t.proc.Up?
    && t == s.(files := t.files, fault := t.fault, proc := Up(s.proc.mem.(dirty := t.proc.mem.dirty)))
  }

  lemma DirtyIsVerified(s: State, m: Memory, k: PageId)
    requires Inv(s) && s.proc == Up(m) && k in m.dirty
    ensures 0 < k < m.pageCount && Verified(m.dirty[k], k) && PageIdOf(m.dirty[k]) == k
    ensures Sealed(m.dirty[k]) == m.dirty[k]
  {
    hide DiskInv, HistoryInv, ValidLog, ValidDb, Shows, IdInv, ReaderInv, PhaseInv, TaskInv, CountInv, Sealed, Redo,
      HalfInv;
    assert Verified(m.dirty[k], k);
    VerifiedIsSealed(m.dirty[k], k);
  }

  lemma HealthyLog(s: State, m: Memory)
    requires Inv(s) && s.proc == Up(m) && !m.poisoned
    ensures !m.logPoisoned
  {
    hide DiskInv, HistoryInv, ValidLog, ValidDb, Shows, DirtyInv, IdInv, ReaderInv, PhaseInv, TaskInv, CountInv,
      HalfInv;
  }

  lemma HandleFacts(h: Handle)
    requires h.Valid()
    ensures !h.poisoned && h.queued == [] && h.log.phase.Quiet? ==>
      && h.nextSeq == NextSeq(h.log) && h.log.tail == []
      && InReset(h.log, h.nextSeq) == h.log.(phase := Resetting({h.nextSeq}))
  {
    hide ValidLog, Survives, EncodeAll, LogBytes, ReadsAs, WalLog.Open;
    if !h.poisoned && h.log.phase.Quiet? {
      QuietScan(h);
    }
    assert {} + {h.nextSeq} == {h.nextSeq};
  }

  // ----- the machine's steps

  lemma CacheStep(s: State, m: Memory, e: CacheEvent)
    requires Inv(s) && s.proc == Up(m) && |s.files| > 0 && CacheEnabled(s, m, e)
    ensures Safe(s, Cache(e)) && Step(s, Cache(e), DoCache(s, m, e))
  {
    hide DiskInv, HistoryInv, UpInv, ValidLog, CacheEnabled, DoCache;
  }

  lemma BeginStep(s: State, m: Memory)
    requires Inv(s) && s.proc == Up(m) && m.task.Idle? && !m.poisoned
    ensures Safe(s, Begin) && Step(s, Begin, WithTask(s, Writing(map[], m.pageCount)))
  {
    hide DiskInv, HistoryInv, UpInv, ValidLog;
  }

  lemma WriterStep(s: State, m: Memory, e: WriteEvent)
    requires Inv(s) && s.proc == Up(m) && m.task.Writing? && |s.files| > 0 && WriteEnabled(s, m, e)
    ensures Safe(s, Writer(e)) && Step(s, Writer(e), DoWrite(s, m, e))
  {
    hide DiskInv, HistoryInv, UpInv, ValidLog, WriteEnabled, DoWrite;
  }

  lemma CommitStep(s: State, m: Memory, e: CommitEvent)
    requires Inv(s) && s.proc == Up(m) && CommitEnabled(s, m, e)
    ensures Safe(s, Committing(e)) && Step(s, Committing(e), DoCommit(s, m, e))
  {
    hide DiskInv, HistoryInv, UpInv, ValidLog, CommitEnabled, DoCommit;
  }

  lemma CheckpointStep(s: State, m: Memory, e: CheckpointEvent)
    requires Inv(s) && s.proc == Up(m) && |s.files| > 0 && CheckpointEnabled(s, m, e)
    ensures Safe(s, Checkpointing(e)) && Step(s, Checkpointing(e), DoCheckpoint(s, m, e))
  {
    hide DiskInv, HistoryInv, UpInv, ValidLog, CheckpointEnabled, DoCheckpoint;
  }

  /** A stretch of a run in which every event is safe. */
  ghost predicate SafePath(ss: seq<State>, es: seq<Event>) {
    |ss| == |es| + 1 && forall i :: 0 <= i < |es| ==> Step(ss[i], es[i], ss[i + 1]) && Safe(ss[i], es[i])
  }

  lemma PathSize(ss: seq<State>, es: seq<Event>)
    requires SafePath(ss, es)
    ensures |ss| == |es| + 1
  {
  }

  lemma PathStarts(s: State)
    ensures SafePath([s], [])
  {
  }

  lemma PathGrows(ss: seq<State>, es: seq<Event>, e: Event, t: State)
    requires SafePath(ss, es) && Step(ss[|es|], e, t) && Safe(ss[|es|], e)
    ensures SafePath(ss + [t], es + [e])
  {
    hide Step, Safe;
    var ss', es' := ss + [t], es + [e];
    forall i | 0 <= i < |es'|
      ensures Step(ss'[i], es'[i], ss'[i + 1]) && Safe(ss'[i], es'[i])
    {
      if i < |es| {
        assert ss'[i] == ss[i] && es'[i] == es[i] && ss'[i + 1] == ss[i + 1];
      }
    }
  }

  /** From a fresh database on, such a stretch is a safe run. */
  lemma PathIsRun(ss: seq<State>, es: seq<Event>)
    requires SafePath(ss, es) && ss[0] == Initial()
    ensures IsSafeRun(ss, es)
  {
    hide Step, Safe, Initial;
  }
}
