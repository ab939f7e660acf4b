/** Concrete runs in which the engine, outside its safe schedules, does not keep its promise. */
module Traces {
  import opened Bytes
  import opened Pages
  import opened WalLog
  import opened Wal
  import opened DataFile
  import opened Recovery
  import opened Fsync
  import opened Store
  import opened Engine
  import opened DiskInvariant
  import opened EngineInvariant
  import opened CacheSteps
  import opened CheckpointSteps
  import opened CommitSteps
  import opened CrashSafety
  import opened Runs
  import opened Restarts
  import opened Races
  import FileHeader

  // ----- one commit, of one new page

  ghost function NewHeap(): Page { NewPage(1, Heap) }

  ghost function OnePage(): Txn { Txn(2, [Image(0, FileHeader.Encode(2)), Image(1, Sealed(NewHeap()))]) }

  lemma TwoImages(a: Image, b: Image)
    requires a.id == 0 && b.id != 0
    ensures DataImages([a, b]) == [b]
    ensures AddImages(map[], [a, b]) == map[a.id := a.page, b.id := b.page]
  {
    assert [a, b][..1] == [a] && [a][..0] == [];
    assert DataImages([a]) == DataImages([]) == [];
    assert AddImages(map[], [a]) == map[a.id := a.page];
  }

  lemma CommitOfOne(p: Page)
    ensures forall k: PageId :: k in [1] ==> k in map[1 := p]
    ensures CommitOf(map[1 := p], [1], 2, 1) == Txn(2, [Image(0, FileHeader.Encode(2)), Image(1, Sealed(p))])
  {
    hide FileHeader.Encode, Sealed;
    var pages: Images := map[1 := p];
    assert SealedImages(pages, [1]) == [Image(1, Sealed(p))];
  }

  lemma OnePageImages()
    ensures DataImages(OnePage().images) != []
    ensures Effect(OnePage()) == map[0 := FileHeader.Encode(2), 1 := Sealed(NewHeap())]
  {
    hide FileHeader.Encode, Sealed, NewHeap, DataImages, AddImages;
    TwoImages(Image(0, FileHeader.Encode(2)), Image(1, Sealed(NewHeap())));
  }

  lemma SafeStep(s: State, e: Event, t: State)
    requires Inv(s) && Step(s, e, t) && Safe(s, e)
    ensures Inv(t) && Leads(s, [e], t)
  {
    hide Inv, Step, Safe, Leads;
    StepKeeps(s, e, t);
    LeadsStep(s, e, t);
  }

  /** A process with nothing cached, no open reader, and a reader and two checkpoints past the poison check. */
  ghost predicate Poised(s: State, m: Memory) {
    && s.proc == Up(m) && s.files == [FileHeader.Encode(1)] && s.fault.NoFault? && s.half.Whole?
    && s.shown == Store.Fresh() && m.dirty == map[] && m.readers == map[] && !m.logPoisoned
    && 0 in m.checkpointsChecked && 1 in m.checkpointsChecked && 0 in m.readersChecked
  }

  /** Memory once three threads have passed the poison check and a fourth is at `task`. */
  ghost function Waiting(nextTxn: nat, task: Task): Memory {
    Engine.Fresh(1).(checkpointsChecked := {0, 1}, readersChecked := {0}, nextTxn := nextTxn, task := task)
  }

  /** Three threads pass the poison check, a fourth begins to write. */
  lemma Prepared() returns (es: seq<Event>, s: State, m: Memory)
    ensures m == Waiting(1, Writing(map[], 1)) && s == Initial().(proc := Up(m))
    ensures Leads(Initial(), es, s) && Inv(s)
  {
    hide Inv, Leads, ValidLog, FileHeader.Encode, Store.Fresh;
    var s0 := Initial();
    InitialInv();
    assert ValidLog(s0.log) by { QuietIsValid(0, []); }
    var m0 := Engine.Fresh(1);
    var m1 := m0.(checkpointsChecked := {0});
    var m2 := m1.(checkpointsChecked := {0, 1});
    var m3 := m2.(readersChecked := {0});
    m := m3.(task := Writing(map[], 1));
    var s1, s2, s3 := s0.(proc := Up(m1)), s0.(proc := Up(m2)), s0.(proc := Up(m3));
    s := s0.(proc := Up(m));
    assert {} + {0} == {0} && {0} + {1} == {0, 1};
    SafeStep(s0, CheckpointCheck(0), s1);
    SafeStep(s1, CheckpointCheck(1), s2);
    SafeStep(s2, Cache(ReaderCheck(0)), s3);
    SafeStep(s3, Begin, s);
    LeadsOn(s0, [CheckpointCheck(0)], s1, [CheckpointCheck(1)], s2);
    LeadsOn(s0, [CheckpointCheck(0)] + [CheckpointCheck(1)], s2, [Cache(ReaderCheck(0))], s3);
    es := [CheckpointCheck(0)] + [CheckpointCheck(1)] + [Cache(ReaderCheck(0))];
    LeadsOn(s0, es, s3, [Begin], s);
    es := es + [Begin];
  }

  lemma OneAscending(p: Page)
    ensures Ascending([1], map[1 := p])
  {
    var order: seq<PageId> := [1];
    assert order[0] == 1;
  }

  lemma HeapVerifies()
    ensures Verified(Sealed(NewHeap()), 1)
  {
    hide Sealed, Verify, NewPage;
    NewPageVerifies(1, Heap);
  }

  ghost function WithOnePage(): Task { Writing(map[1 := NewHeap()], 2) }

  /** The write transaction has its page. */
  lemma PageAllocated() returns (es: seq<Event>, s: State, m: Memory)
    ensures m == Waiting(1, WithOnePage()) && s == Initial().(proc := Up(m))
    ensures Leads(Initial(), es, s) && Inv(s)
  {
    hide Inv, Leads, ValidLog, FileHeader.Encode, NewPage, Store.Fresh, Safe, Step;
    var es1, s1, m1 := Prepared();
    m := m1.(task := WithOnePage());
    s := s1.(proc := Up(m));
    assert ValidLog(s1.log) by { QuietIsValid(0, []); }
    assert s == DoWrite(s1, m1, Allocate(Heap));
    WriteEventStep(s1, m1, Allocate(Heap), s);
    WriteIsSafe(s1, Allocate(Heap));
    SafeStep(s1, Writer(Allocate(Heap)), s);
    LeadsOn(Initial(), es1, s1, [Writer(Allocate(Heap))], s);
    es := es1 + [Writer(Allocate(Heap))];
  }

  /** It builds its commit. */
  lemma CommitBuilt() returns (es: seq<Event>, s: State, m: Memory)
    ensures m == Waiting(2, Logging(OnePage(), 1)) && s == Initial().(proc := Up(m))
    ensures Leads(Initial(), es, s) && Inv(s)
  {
    hide Inv, Leads, ValidLog, FileHeader.Encode, NewPage, Sealed, Verified, Store.Fresh, Safe, Step, WriteEnabled,
      DoWrite;
    var es1, s1, m1 := PageAllocated();
    assert ValidLog(s1.log) by { QuietIsValid(0, []); }
    HeapVerifies();
    CommitEnabledForOne(s1, m1, NewHeap());
    m := m1.(nextTxn := 2, task := Logging(OnePage(), 1));
    s := s1.(proc := Up(m));
    WriteEventStep(s1, m1, CommitLog([1]), s);
    WriteIsSafe(s1, CommitLog([1]));
    SafeStep(s1, Writer(CommitLog([1])), s);
    LeadsOn(Initial(), es1, s1, [Writer(CommitLog([1]))], s);
    es := es1 + [Writer(CommitLog([1]))];
  }

  lemma WriteIsSafe(s: State, e: WriteEvent)
    ensures Safe(s, Writer(e))
  {
  }

  lemma WriteEventStep(s: State, m: Memory, e: WriteEvent, t: State)
    requires |s.files| > 0 && ValidLog(s.log) && s.proc == Up(m) && m.task.Writing? && WriteEnabled(s, m, e)
    requires t == DoWrite(s, m, e)
    ensures Step(s, Writer(e), t)
  {
    hide ValidLog, WriteEnabled, DoWrite;
  }

  lemma CommitEnabledForOne(s: State, m: Memory, p: Page)
    requires |s.files| > 0 && s.proc == Up(m) && m.task == Writing(map[1 := p], 2)
    requires m.pageCount == 1 && m.nextTxn == 1
    requires s.log == Log(0, [], [], Quiet) && Verified(Sealed(p), 1)
    ensures WriteEnabled(s, m, CommitLog([1]))
    ensures DoWrite(s, m, CommitLog([1]))
         == s.(proc := Up(m.(nextTxn := 2,
                             task := Logging(Txn(2, [Image(0, FileHeader.Encode(2)), Image(1, Sealed(p))]), 1))))
  {
    hide Verified, Sealed, FileHeader.Encode, CommitOf, Ascending;
    OneAscending(p);
    CommitOfOne(p);
    var pages: Images := map[1 := p];
    assert 1 in pages;
  }

  /** The commit's records are written to the log, and not yet fsynced. */
  lemma LogIsWritten() returns (es: seq<Event>, s: State, m: Memory)
    ensures Poised(s, m) && m.task == Written(OnePage(), 1)
    ensures s.doubt == Doubt(OnePage(), 1) && s.base == Store.Fresh() && s.replay.Untouched?
    ensures |BatchOf(OnePage(), 1)| == 3
    ensures s.log == Log(0, [], EncodeAll(BatchOf(OnePage(), 1), 0), Unsynced)
    ensures TailRecords(s.log) == BatchOf(OnePage(), 1)
    ensures Leads(Initial(), es, s) && Inv(s)
  {
    hide Inv, Leads, ValidLog, FileHeader.Encode, OnePage, Scan, BatchOf, EncodeAll, Store.Fresh;
    var es1, s1, m1 := CommitBuilt();
    assert ValidLog(s1.log) by { QuietIsValid(0, []); }
    var batch := BatchOf(OnePage(), 1);
    BatchSize();
    m := m1.(task := Written(OnePage(), 1));
    s := s1.(log := Log(0, [], EncodeAll(batch, 0), Unsynced), doubt := Doubt(OnePage(), 1),
             attempts := [Attempt(OnePage(), false)], proc := Up(m));
    SafeStep(s1, Committing(LogWrite), s);
    LeadsOn(Initial(), es1, s1, [Committing(LogWrite)], s);
    es := es1 + [Committing(LogWrite)];
    DamageOfWhole(batch, 0);
  }

  lemma BatchSize()
    ensures |BatchOf(OnePage(), 1)| == 3
  {
    hide FileHeader.Encode, NewHeap, Sealed;
  }

  // ----- a commit that fails partway through publishing

  lemma LogIsSynced() returns (es: seq<Event>, s: State, m: Memory)
    ensures Leads(Initial(), es, s) && Inv(s) && Poised(s, m) && m.task == Logged(OnePage())
    ensures s.base == Apply(Store.Fresh(), OnePage())
  {
    hide Initial, Inv, Leads, ValidLog, FileHeader.Encode, Scan, BatchOf, EncodeAll, Store.Fresh, Apply, TailRecords,
      Step, OnePage;
    var es1, s1, m1 := LogIsWritten();
    assert |s1.files| > 0 && ValidLog(s1.log) by { InvValidLog(s1); }
    s := DoLogSync(s1, m1);
    m := s.proc.mem;
    CommitEventStep(s1, m1, LogSync, s);
    SafeStep(s1, Committing(LogSync), s);
    LeadsOn(Initial(), es1, s1, [Committing(LogSync)], s);
    es := es1 + [Committing(LogSync)];
  }

  /** The records are durable, and the exclusive lock taken. */
  lemma PublishStarted() returns (es: seq<Event>, s: State, m: Memory)
    ensures Leads(Initial(), es, s) && Inv(s) && Poised(s, m) && m.pageCount == OnePage().count
    ensures s.base == Apply(Store.Fresh(), OnePage()) && m.task == Publishing(OnePage(), DataImages(OnePage().images))
  {
    hide Initial, Inv, Leads, ValidLog, FileHeader.Encode, Store.Fresh, DataImages, Apply, Step, OnePage;
    var es1, s1, m1 := LogIsSynced();
    assert |s1.files| > 0 && ValidLog(s1.log) by { InvValidLog(s1); }
    m := m1.(pageCount := OnePage().count, task := Publishing(OnePage(), DataImages(OnePage().images)));
    s := s1.(proc := Up(m));
    CommitEventStep(s1, m1, PublishStart, s);
    SafeStep(s1, Committing(PublishStart), s);
    LeadsOn(Initial(), es1, s1, [Committing(PublishStart)], s);
    es := es1 + [Committing(PublishStart)];
  }

  lemma CommitEventStep(s: State, m: Memory, e: CommitEvent, t: State)
    requires |s.files| > 0 && ValidLog(s.log) && s.proc == Up(m) && CommitEnabled(s, m, e) && t == DoCommit(s, m, e)
    ensures Step(s, Committing(e), t)
  {
    hide ValidLog, CommitEnabled, DoCommit;
  }

  lemma OnePageCounts()
    ensures OnePage().count == 2 && Store.Fresh().count == 1 && Apply(Store.Fresh(), OnePage()).count == 2
    ensures DataImages(OnePage().images) != []
  {
    hide FileHeader.Encode, Sealed, NewHeap, DataImages, AddImages;
    OnePageImages();
  }

  lemma HalfPublished() returns (es: seq<Event>, s: State, m: Memory)
    ensures s.proc == Up(m) && s.files == [FileHeader.Encode(1)] && s.fault.NoFault?
    ensures s.half == Half(OnePage(), DataImages(OnePage().images)) && m.task.Idle?
    ensures 0 in m.checkpointsChecked && 0 in m.readersChecked && !m.logPoisoned
    ensures m.dirty == map[] && m.readers == map[] && m.pageCount == 2 && s.base.count == 2 && s.shown.count == 1
    ensures Leads(Initial(), es, s) && Inv(s)
  {
    hide Initial, Inv, Leads, ValidLog, FileHeader.Encode, DataImages, Step, OnePage, Store.Fresh, Apply;
    var es1, s1, m1 := PublishStarted();
    OnePageCounts();
    assert |s1.files| > 0 && ValidLog(s1.log) by { InvValidLog(s1); }
    m := m1.(task := Idle, poisoned := true);
    s := s1.(proc := Up(m), half := Half(OnePage(), DataImages(OnePage().images)));
    CommitEventStep(s1, m1, InstallFailed, s);
    SafeStep(s1, Committing(InstallFailed), s);
    LeadsOn(Initial(), es1, s1, [Committing(InstallFailed)], s);
    es := es1 + [Committing(InstallFailed)];
  }

  lemma InvValidLog(s: State)
    requires Inv(s)
    ensures |s.files| > 0 && ValidLog(s.log)
  {
  }

  /** A version of one page under a header naming two. */
  lemma ShortIsUnusable(c: File, next: U64)
    requires |c| < 4096 * 2 && Holds(c, 0, FileHeader.Encode(2))
    ensures OpenDatabase(c, EncodeHeader(next)).Unusable?
  {
    hide FileHeader.Encode, FileHeader.Decode, OpenDatabase, EncodeHeader;
    HoldsUnique(c, 0, FileHeader.Encode(2));
    assert c[..4096] == PageAt(c, 0);
    FileHeader.RoundTrip(2);
    EmptyLogReopens(c, next);
  }

  lemma LockStep(s: State, m: Memory, tid: Tid)
    requires |s.files| > 0 && ValidLog(s.log) && s.proc == Up(m) && m.task.Idle? && tid in m.checkpointsChecked
    ensures Leads(s, [CheckpointLock(tid)], Locked(s, m, tid))
  {
    hide ValidLog, Leads;
    LeadsStep(s, CheckpointLock(tid), Locked(s, m, tid));
  }

  /**
   * A checkpoint that passed the poison check before that failure and runs after it destroys the
   * database: the header names a page whose only copy went with the log.
   */
  lemma CheckpointRace() returns (ss: seq<State>, es: seq<Event>, c: File, w: seq<Byte>)
    ensures IsRun(ss, es) && Crashes(ss[|es|], c, w)
    ensures OpenDatabase(c, w).Unusable?
  {
    hide Initial, Inv, Leads, SafeLeads, ValidLog, FileHeader.Encode, Torn, Survives, OpenDatabase, EncodeHeader,
      Survivor, OnePage, DataImages, Crashes;
    var es1, s1, m := HalfPublished();
    assert |s1.files| > 0 && ValidLog(s1.log) by { InvValidLog(s1); }
    LockStep(s1, m, 0);
    LeadsOn(Initial(), es1, s1, [CheckpointLock(0)], Locked(s1, m, 0));
    EndOfNothing();
    c := ShortVersion(s1, m);
    var es2, s;
    es2, s, w := CheckpointRuns(s1, m, 0, c);
    LeadsOn(Initial(), es1 + [CheckpointLock(0)], Locked(s1, m, 0), es2, s);
    es := es1 + [CheckpointLock(0)] + es2;
    ss := LeadsIsRun(es, s);
    ShortIsUnusable(c, NextSeq(s1.log));
  }

  /** One page of file under a header naming more. */
  lemma HeaderOnly(n: U64, c: File)
    requires n > 1 && c == WritePage(FileHeader.Encode(1), 0, FileHeader.Encode(n))
    ensures DataFile.Open(c).Refused?
  {
    hide FileHeader.Encode, FileHeader.Decode;
    WriteHolds(FileHeader.Encode(1), 0, FileHeader.Encode(n));
    HoldsUnique(c, 0, FileHeader.Encode(n));
    assert c[..4096] == PageAt(c, 0);
    FileHeader.RoundTrip(n);
  }

  /** A reader that passed the poison check before that failure is given a page count its snapshot does not have. */
  lemma ReaderRace() returns (ss: seq<State>, es: seq<Event>, m: Memory)
    ensures IsRun(ss, es) && Inv(ss[|es|]) && ss[|es|].proc == Up(m) && 0 in m.readers
    ensures m.pageCount != m.readers[0].count
  {
    hide Initial, Inv, Leads, ValidLog, FileHeader.Encode, OnePage, DataImages, Step;
    var es1, s1, m1 := HalfPublished();
    assert |s1.files| > 0 && ValidLog(s1.log) by { InvValidLog(s1); }
    m := m1.(readersChecked := m1.readersChecked - {0}, readers := m1.readers[0 := s1.shown]);
    var s := s1.(proc := Up(m));
    CacheEventStep(s1, m1, ReaderLock(0), s);
    SafeStep(s1, Cache(ReaderLock(0)), s);
    LeadsOn(Initial(), es1, s1, [Cache(ReaderLock(0))], s);
    es := es1 + [Cache(ReaderLock(0))];
    ss := LeadsIsRun(es, s);
  }

  lemma CacheEventStep(s: State, m: Memory, e: CacheEvent, t: State)
    requires |s.files| > 0 && ValidLog(s.log) && s.proc == Up(m) && CacheEnabled(s, m, e) && t == DoCache(s, m, e)
    ensures Step(s, Cache(e), t)
  {
    hide ValidLog, CacheEnabled, DoCache;
  }

  // ----- a restart that replays a commit the log may still lose

  /** The process dies after writing the log and before fsyncing it; reopening starts to replay; power is lost. */
  lemma RestartRace() returns (ss: seq<State>, es: seq<Event>, c: File, w: seq<Byte>)
    ensures IsRun(ss, es) && Crashes(ss[|es|], c, w)
    ensures OpenDatabase(c, w).Unusable?
  {
    hide Initial, Inv, Leads, ValidLog, FileHeader.Encode, Torn, Survives, OpenDatabase, EncodeHeader, WritePage,
      Overlay, Scan, BatchOf, EncodeAll, OnePage, Redo, ImagesValid, WalLog.Open, TailRecords, Begun, IsRestart,
      Store.Fresh, Step;
    var es1, s1, m1 := LogIsWritten();
    var es2, u := ReplayReady(s1);
    LeadsOn(Initial(), es1, s1, es2, u);
    var batch := BatchOf(OnePage(), 1);
    assert [] + batch == batch;
    assert 0 in Redo(batch) && Redo(batch)[0] == FileHeader.Encode(2) by { BatchRedo(); }
    var v := WritePage(FileHeader.Encode(1), 0, FileHeader.Encode(2));
    assert |u.files| > 0;
    var s := Begun(Write(u, 0, FileHeader.Encode(2))).(proc := u.proc.(stage := Restore(Redo(batch) - {0})));
    RestoreIsStep(u, 0, s);
    LeadsStep(u, Reopen(RestorePage(0)), s);
    LeadsOn(Initial(), es1 + es2, u, [Reopen(RestorePage(0))], s);
    es := es1 + es2 + [Reopen(RestorePage(0))];
    ss := LeadsIsRun(es, s);
    c := v;
    assert s.files == [FileHeader.Encode(1)] + [v] && s.log == u.log by { BegunFiles(u, s); }
    assert Torn(c, s.files) by { SecondIsTorn(FileHeader.Encode(1), v); }
    w := BatchLost(s.log);
    HeaderOnly(2, c);
    assert OpenDatabase(c, w).Unusable? by { NothingReplayed(c, w); }
  }

  lemma BegunFiles(u: State, s: State)
    requires |u.files| > 0
    requires exists p: Process :: s == Begun(Write(u, 0, FileHeader.Encode(2))).(proc := p)
    ensures s.files == u.files + [WritePage(Last(u.files), 0, FileHeader.Encode(2))] && s.log == u.log
  {
    hide WritePage, FileHeader.Encode, ReplaysDoubt;
  }

  lemma SecondIsTorn(f: File, v: File)
    requires |f| <= |v|
    ensures Torn(v, [f] + [v])
  {
    var vs := [f] + [v];
    forall i | 0 <= i < |v|
      ensures exists j :: 0 <= j < |vs| && v[i] == ByteAt(vs[j], i)
    {
      assert v[i] == ByteAt(vs[1], i);
    }
  }

  lemma NothingReplayed(c: File, w: seq<Byte>)
    requires WalLog.Open(w).Opened? && WalLog.Open(w).records == [] && DataFile.Open(c).Refused?
    ensures OpenDatabase(c, w).Unusable?
  {
    hide WalLog.Open, DataFile.Open, Overlay, ImagesValid, Redo;
    RedoOfNothing();
    OverlayNothing(c);
  }

  lemma BatchRedo()
    ensures var batch := BatchOf(OnePage(), 1);
      0 in Redo(batch) && Redo(batch)[0] == FileHeader.Encode(2) && ImagesValid(batch, Committed(batch))
  {
    hide FileHeader.Encode, NewPage, Sealed, Verified, ImagesValid, Redo, BatchOf, OnePage, AddImages, CommitOf,
      ValidTxn;
    OnePageImages();
    var d := Store.Fresh();
    assert ValidTxn(d, OnePage()) by { OnePageValid(); }
    RedoOfNothing();
    NothingIsValid();
    NoTxns();
    ImagesValidOfBatch([], d, OnePage(), 1);
    assert [] + BatchOf(OnePage(), 1) == BatchOf(OnePage(), 1);
  }

  lemma NoTxns()
    ensures Txns([]) == {}
  {
  }

  lemma OnePageValid()
    ensures ValidTxn(Store.Fresh(), OnePage())
  {
    hide FileHeader.Encode, NewHeap, Sealed, Verified, ValidTxn;
    HeapVerifies();
    OneValid(Store.Fresh(), NewHeap());
  }

  lemma OneValid(d: Db, p: Page)
    requires d.count == 1 && Verified(Sealed(p), 1)
    ensures ValidTxn(d, Txn(2, [Image(0, FileHeader.Encode(2)), Image(1, Sealed(p))]))
  {
    hide FileHeader.Encode, Sealed, Verified, ValidTxn, CommitOf, Ascending;
    OneAscending(p);
    CommitOfOne(p);
    var pages: Images := map[1 := p];
    forall k | k in pages
      ensures 0 < k < 2 && Verified(Sealed(pages[k]), k)
    {
      assert k == 1;
    }
    CommitOfIsValid(d, pages, [1], 2);
  }

  // ----- an fsync that fails, and one after it that does not

  lemma OneImage()
    ensures DataImages(OnePage().images) == [Image(1, Sealed(NewHeap()))]
  {
    hide FileHeader.Encode, Sealed, NewHeap, DataImages, AddImages;
    TwoImages(Image(0, FileHeader.Encode(2)), Image(1, Sealed(NewHeap())));
  }

  /** The one page of the commit is cached and not in the file; two checkpoints are past the poison check. */
  ghost predicate Cached(s: State, m: Memory) {
    && s.proc == Up(m) && s.files == [FileHeader.Encode(1)] && s.fault.NoFault? && s.half.Whole? && s.base.count == 2
    && m.pageCount == 2 && m.dirty.Keys == {1} && !m.poisoned && !m.logPoisoned
    && 1 in m.checkpointsChecked && s.attempts != []
  }

  ghost predicate Acknowledged(s: State) { s.attempts != [] && s.attempts[|s.attempts| - 1].acked }

  lemma ImageInstalled() returns (es: seq<Event>, s: State, m: Memory)
    ensures Leads(Initial(), es, s) && Inv(s) && Cached(s, m) && m.task == Publishing(OnePage(), [])
    ensures 0 in m.checkpointsChecked
  {
    hide Initial, Inv, Leads, ValidLog, FileHeader.Encode, DataImages, Step, OnePage, Store.Fresh, Apply, NewHeap,
      Sealed, Safe;
    var es1, s1, m1 := PublishStarted();
    assert |s1.files| > 0 && ValidLog(s1.log) && s1.attempts != [] && !m1.poisoned by { PublishingAttempts(s1, m1); }
    OnePageCounts();
    OneImage();
    var image := Image(1, Sealed(NewHeap()));
    m := m1.(dirty := m1.dirty[1 := image.page], task := Publishing(OnePage(), []));
    s := s1.(proc := Up(m));
    assert m.dirty.Keys == {1};
    InstallStep(s1, m1, OnePage(), image, s);
    CommitIsSafe(s1, Install);
    SafeStep(s1, Committing(Install), s);
    LeadsOn(Initial(), es1, s1, [Committing(Install)], s);
    es := es1 + [Committing(Install)];
  }

  /** The commit is published and acknowledged, its page cached and not yet in the file. */
  lemma CommitAcknowledged() returns (es: seq<Event>, s: State, m: Memory)
    ensures Leads(Initial(), es, s) && Inv(s) && Cached(s, m) && m.task.Idle? && Acknowledged(s)
    ensures 0 in m.checkpointsChecked
  {
    hide Initial, Inv, Leads, ValidLog, FileHeader.Encode, Step, OnePage, NewHeap, Sealed, Safe;
    var es1, s1, m1 := ImageInstalled();
    assert |s1.files| > 0 && ValidLog(s1.log) by { InvValidLog(s1); }
    var s2 := DoPublishEnd(s1);
    CommitEventStep(s1, m1, PublishEnd, s2);
    CommitIsSafe(s1, PublishEnd);
    SafeStep(s1, Committing(PublishEnd), s2);
    LeadsOn(Initial(), es1, s1, [Committing(PublishEnd)], s2);
    m := m1.(task := Idle);
    s := s2.(proc := Up(m));
    CommitEventStep(s2, s2.proc.mem, CommitDone, s);
    CommitIsSafe(s2, CommitDone);
    SafeStep(s2, Committing(CommitDone), s);
    LeadsOn(Initial(), es1 + [Committing(PublishEnd)], s2, [Committing(CommitDone)], s);
    es := es1 + [Committing(PublishEnd)] + [Committing(CommitDone)];
  }

  lemma InstallStep(s: State, m: Memory, txn: Txn, image: Image, t: State)
    requires |s.files| > 0 && ValidLog(s.log) && s.proc == Up(m) && m.task == Publishing(txn, [image])
    requires t == s.(proc := Up(m.(dirty := m.dirty[image.id := image.page], task := Publishing(txn, []))))
    ensures Step(s, Committing(Install), t)
  {
    hide ValidLog, Step;
    assert [image][1..] == [];
    CommitEventStep(s, m, Install, t);
  }

  lemma CommitIsSafe(s: State, e: CommitEvent)
    ensures Safe(s, Committing(e))
  {
  }

  lemma FlushIsSafe(s: State, e: CheckpointEvent)
    ensures Safe(s, Checkpointing(e))
  {
  }

  lemma PublishingAttempts(s: State, m: Memory)
    requires Inv(s) && s.proc == Up(m) && m.task.Publishing?
    ensures |s.files| > 0 && ValidLog(s.log) && s.attempts != [] && !m.poisoned
  {
    hide DiskInv, HistoryInv, ValidLog, ValidDb, Shows, DirtyInv, IdInv, ReaderInv, PhaseInv, HalfInv, CountInv,
      PartInv;
  }

  /** The page has been written back, and the old file is still among those a crash may bring up. */
  ghost predicate WrittenBack(s: State, m: Memory) {
    && s.proc == Up(m) && !m.logPoisoned && |s.files| > 0 && s.files[0] == FileHeader.Encode(1) && m.dirty == map[]
    && s.base.count == 2 && m.pageCount == 2 && 1 in m.checkpointsChecked && Acknowledged(s)
  }

  /** A checkpoint takes the lock. */
  lemma CheckpointLocked() returns (es: seq<Event>, s: State, m: Memory)
    ensures Leads(Initial(), es, s) && Inv(s) && Cached(s, m) && m.task == Flushing(m.dirty.Keys) && Acknowledged(s)
  {
    hide Initial, Inv, Leads, ValidLog, FileHeader.Encode, Step, NewHeap, Sealed, Kept;
    var es1, s1, m1 := CommitAcknowledged();
    assert |s1.files| > 0 && ValidLog(s1.log) by { InvValidLog(s1); }
    s := Locked(s1, m1, 0);
    m := s.proc.mem;
    LockStep(s1, m1, 0);
    LeadsOn(Initial(), es1, s1, [CheckpointLock(0)], s);
    assert Inv(s) by { HealthyLock(s1, m1); }
    es := es1 + [CheckpointLock(0)];
  }

  /** It writes the page back. */
  lemma PageWritten() returns (es: seq<Event>, s: State, m: Memory)
    ensures Leads(Initial(), es, s) && Inv(s) && WrittenBack(s, m) && m.task == Flushing({})
  {
    hide Initial, Inv, Leads, ValidLog, FileHeader.Encode, Step, NewHeap, Sealed, WritePage, Safe;
    var es1, s1, m1 := CheckpointLocked();
    assert |s1.files| > 0 && ValidLog(s1.log) by { InvValidLog(s1); }
    var p := m1.dirty[1];
    assert Sealed(p) == p by { DirtyPage(s1, m1, 1); }
    m := m1.(dirty := map[], task := Flushing({}));
    s := Write(s1, 1, p).(proc := Up(m));
    assert m1.dirty.Keys == {1} && {1} - {1} == {} && m1.dirty - {1} == map[];
    FlushEventStep(s1, m1, FlushPage(1), s);
    FlushIsSafe(s1, FlushPage(1));
    SafeStep(s1, Checkpointing(FlushPage(1)), s);
    LeadsOn(Initial(), es1, s1, [Checkpointing(FlushPage(1))], s);
    es := es1 + [Checkpointing(FlushPage(1))];
  }

  /** Its fsync fails, and the database is poisoned. */
  lemma FsyncFailed() returns (es: seq<Event>, s: State, m: Memory)
    ensures Leads(Initial(), es, s) && Inv(s) && WrittenBack(s, m)
    ensures m.task.Idle? && m.poisoned && s.fault == Fault(map[])
  {
    hide Initial, Inv, Leads, ValidLog, FileHeader.Encode, Step, Safe;
    var es1, s1, m1 := PageWritten();
    assert ValidLog(s1.log) by { InvValidLog(s1); }
    m := m1.(task := Idle, poisoned := true);
    s := s1.(proc := Up(m), fault := Fault(map[]));
    FlushEventStep(s1, m1, CheckpointSyncFailed, s);
    FlushIsSafe(s1, CheckpointSyncFailed);
    SafeStep(s1, Checkpointing(CheckpointSyncFailed), s);
    LeadsOn(Initial(), es1, s1, [Checkpointing(CheckpointSyncFailed)], s);
    es := es1 + [Checkpointing(CheckpointSyncFailed)];
  }

  /** No commit has failed yet, so a checkpoint may start. */
  lemma HealthyLock(s: State, m: Memory)
    requires Inv(s) && s.proc == Up(m) && m.task.Idle? && s.half.Whole? && !m.poisoned
    ensures Inv(Locked(s, m, 0))
  {
    hide DiskInv, HistoryInv, ValidLog, ValidDb, Shows, DirtyInv, IdInv, ReaderInv, PhaseInv, HalfInv, CountInv,
      FlushKeeps;
    HealthyFlushKeeps(s, m);
    CheckpointLockKeeps(s, m, 0);
  }

  /**
   * A second checkpoint, past the poison check before that failure, finds nothing to write, has its own
   * fsyncs succeed, and empties the log. A crash may still bring the old file back: an acknowledged
   * commit is lost, and with it the database.
   */
  lemma FsyncRace() returns (ss: seq<State>, es: seq<Event>, c: File, w: seq<Byte>)
    ensures IsRun(ss, es) && Crashes(ss[|es|], c, w)
    ensures Acknowledged(ss[|es|]) && OpenDatabase(c, w).Unusable?
  {
    hide Initial, Inv, Leads, SafeLeads, ValidLog, FileHeader.Encode, Torn, Survives, OpenDatabase, EncodeHeader,
      Survivor, Crashes;
    var es1, s1, m := FsyncFailed();
    assert |s1.files| > 0 && ValidLog(s1.log) by { InvValidLog(s1); }
    LockStep(s1, m, 1);
    LeadsOn(Initial(), es1, s1, [CheckpointLock(1)], Locked(s1, m, 1));
    EndOfNothing();
    c := ShortVersion(s1, m);
    var es2, s;
    es2, s, w := CheckpointRuns(s1, m, 1, c);
    LeadsOn(Initial(), es1 + [CheckpointLock(1)], Locked(s1, m, 1), es2, s);
    es := es1 + [CheckpointLock(1)] + es2;
    ss := LeadsIsRun(es, s);
    ShortIsUnusable(c, NextSeq(s1.log));
  }
}
