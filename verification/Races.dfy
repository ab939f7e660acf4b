/**
 * Checkpoints on a poisoned database: exactly when they lose data.
 *
 * A checkpoint checks for poison before it takes the log lock, not after. So it may run on a database
 * poisoned in between, by a commit that failed partway through publishing or by a failed fsync.
 */
module Races {
  import opened Bytes
  import opened Pages
  import opened WalLog
  import opened Wal
  import opened DataFile
  import opened Recovery
  import opened Fsync
  import opened Store
  import opened Engine
  import opened DiskInvariant
  import opened EngineInvariant
  import opened OpenSteps
  import opened CacheSteps
  import opened CheckpointSteps
  import opened CrashSafety
  import opened Isolation
  import opened Runs
  import FileHeader

  // ----- a checkpoint from start to finish

  /** The images of `m` over a version of the file, then the header. */
  ghost function CheckpointedFile(f: File, m: Images, count: U64): File {
    WritePage(Overlay(f, m), 0, FileHeader.Encode(count))
  }

  /** What is on its way to the disk once all of `dirty` is written. */
  function Dirtied(fault: Fault, dirty: Images): Fault {
    if fault.NoFault? then fault else Fault(fault.pages + dirty)
  }

  lemma {:induction false} FlushAll(s: State, m: Memory, f: File, done: Images) returns (es: seq<Event>, t: State)
    requires |s.files| > 0 && ValidLog(s.log) && s.proc == Up(m) && m.task == Flushing(m.dirty.Keys)
    requires forall k :: k in m.dirty ==> Sealed(m.dirty[k]) == m.dirty[k]
    requires Versions(s.files) && Last(s.files) == Overlay(f, done)
    ensures Leads(s, es, t) && AllHarmless(es)
    ensures s.files <= t.files && Versions(t.files) && Last(t.files) == Overlay(f, done + m.dirty)
    ensures t.fault == Dirtied(s.fault, m.dirty)
    ensures t == s.(files := t.files, fault := t.fault, proc := Up(m.(dirty := map[], task := Flushing({}))))
    decreases |m.dirty|
  {
    hide ValidLog, Sealed, Overlay, Leads, Versions, Write, Dirtied, AllHarmless;
    if m.dirty == map[] {
      es, t := [], s;
      assert AllHarmless([]) by { HarmlessFlush(0); }
      LeadsNowhere(s);
      FlushNone(s.fault, m.dirty, done);
    } else {
      var k :| k in m.dirty;
      var n := m.(dirty := m.dirty - {k}, task := Flushing(m.dirty.Keys - {k}));
      var u := Write(s, k, m.dirty[k]).(proc := Up(n));
      FlushOne(s, m, f, done, k, u);
      assert n.dirty.Keys == m.dirty.Keys - {k};
      var rest;
      rest, t := FlushAll(u, n, f, done[k := m.dirty[k]]);
      es := [Checkpointing(FlushPage(k))] + rest;
      LeadsOn(s, [Checkpointing(FlushPage(k))], u, rest, t);
      HarmlessFlush(k);
      HarmlessConcat([Checkpointing(FlushPage(k))], rest);
    }
  }

  lemma HarmlessFlush(k: PageId)
    ensures AllHarmless([]) && AllHarmless([Checkpointing(FlushPage(k))])
  {
  }

  lemma FlushNone(fault: Fault, dirty: Images, done: Images)
    requires dirty == map[]
    ensures done + dirty == done && Dirtied(fault, dirty) == fault
  {
    assert fault.Fault? ==> fault.pages + dirty == fault.pages;
  }

  lemma FlushOne(s: State, m: Memory, f: File, done: Images, k: PageId, u: State)
    requires |s.files| > 0 && ValidLog(s.log) && s.proc == Up(m) && m.task == Flushing(m.dirty.Keys) && k in m.dirty
    requires Sealed(m.dirty[k]) == m.dirty[k] && Versions(s.files) && Last(s.files) == Overlay(f, done)
    requires u == Write(s, k, m.dirty[k])
                    .(proc := Up(m.(dirty := m.dirty - {k}, task := Flushing(m.dirty.Keys - {k}))))
    ensures Leads(s, [Checkpointing(FlushPage(k))], u) && Versions(u.files) && s.files <= u.files
    ensures Last(u.files) == Overlay(f, done[k := m.dirty[k]])
    ensures Dirtied(u.fault, m.dirty - {k}) == Dirtied(s.fault, m.dirty)
    ensures done[k := m.dirty[k]] + (m.dirty - {k}) == done + m.dirty
    ensures u == s.(files := u.files, fault := u.fault, proc := u.proc)
  {
    hide ValidLog, Sealed, WritePage, Overlay, Step, Leads, Versions;
    FlushStep(s, m, k, u);
    LeadsStep(s, Checkpointing(FlushPage(k)), u);
    OverlayStep(f, done, k, m.dirty[k]);
    VersionsWrite(s.files, k, m.dirty[k], WritePage(Last(s.files), k, m.dirty[k]));
    OneMoved(done, m.dirty, k);
    if s.fault.Fault? {
      OneMoved(s.fault.pages, m.dirty, k);
    }
  }

  lemma FlushStep(s: State, m: Memory, k: PageId, u: State)
    requires |s.files| > 0 && ValidLog(s.log) && s.proc == Up(m) && m.task == Flushing(m.dirty.Keys) && k in m.dirty
    requires Sealed(m.dirty[k]) == m.dirty[k]
    requires u == Write(s, k, m.dirty[k])
                    .(proc := Up(m.(dirty := m.dirty - {k}, task := Flushing(m.dirty.Keys - {k}))))
    ensures Step(s, Checkpointing(FlushPage(k)), u)
  {
    hide ValidLog, Sealed, WritePage;
  }

  /** The checkpoint has the log lock. */
  ghost function Locked(s: State, m: Memory, tid: Tid): State {
    s.(proc := Up(m.(checkpointsChecked := m.checkpointsChecked - {tid}, task := Flushing(m.dirty.Keys))))
  }

  /** A version that may survive the finished checkpoint. */
  ghost predicate Survivor(s: State, m: Memory, c: File)
    requires |s.files| > 0
  {
    if s.fault.NoFault? then c == CheckpointedFile(Last(s.files), m.dirty, m.pageCount)
    else exists j :: 0 <= j < |s.files| && c == CheckpointedFile(s.files[j], s.fault.pages + m.dirty, m.pageCount)
  }

  /** Nothing in the way, a checkpoint runs to its end and empties the log. */
  lemma CheckpointRuns(s: State, m: Memory, tid: Tid, c: File) returns (es: seq<Event>, t: State, w: seq<Byte>)
    requires Inv(s) && s.proc == Up(m) && m.task.Idle? && !m.logPoisoned && Survivor(s, m, c)
    ensures SafeLeads(Locked(s, m, tid), es, t) && Leads(Locked(s, m, tid), es, t)
    ensures Crashes(t, c, w)
    ensures NextSeq(s.log) < SEQ_LIMIT && w == EncodeHeader(NextSeq(s.log))
    ensures t == s.(files := t.files, fault := t.fault, log := t.log, proc := t.proc)
  {
    hide DiskInv, HistoryInv, UpInv, ValidLog, Sealed, WritePage, Overlay, FileHeader.Encode, Leads, EncodeHeader,
      SafeLeads, Torn, Survivor, AfterFsync, AllHarmless;
    var u := Locked(s, m, tid);
    var n := u.proc.mem;
    forall k | k in m.dirty
      ensures Sealed(m.dirty[k]) == m.dirty[k]
    {
      DirtyPage(s, m, k);
    }
    assert Versions(s.files) && FaultInv(s.files, s.fault) by { InvDisk(s); }
    OverlayNothing(Last(s.files));
    var es1, v := FlushAll(u, n, Last(s.files), map[]);
    assert map[] + m.dirty == m.dirty;
    assert s.log.phase.Quiet? by { IdleIsQuiet(s, m); }
    var es2, x := CheckpointEnds(v, n.(dirty := map[], task := Flushing({})));
    LeadsOn(u, es1, v, es2, x);
    es, t := es1 + es2, x;
    HarmlessConcat(es1, es2);
    HarmlessLeads(u, es, t);
    NextBound(s.log);
    w := EncodeHeader(NextSeq(s.log));
    QuietIsValid(NextSeq(s.log), []);
    assert LogBytes(NextSeq(s.log), [], []) == w;
    assert Torn(c, t.files) by { SurvivorTorn(s, m, c, v, t); }
  }

  lemma InvDisk(s: State)
    requires Inv(s)
    ensures Versions(s.files) && FaultInv(s.files, s.fault) && ValidDb(s.base)
  {
    hide DiskInv, HistoryInv, UpInv, OpenInv, ValidLog, Versions, FaultInv, ValidDb, RedoInv;
    DiskBasics(s);
  }

  lemma IdleIsQuiet(s: State, m: Memory)
    requires Inv(s) && s.proc == Up(m) && m.task.Idle? && !m.logPoisoned
    ensures s.log.phase.Quiet? && s.doubt.NoDoubt?
  {
    hide DiskInv, HistoryInv, ValidLog, ValidDb, Shows, DirtyInv, IdInv, ReaderInv, HalfInv;
  }

  /** The versions left by the two fsyncs of a checkpoint whose pages are all written. */
  ghost function TwiceSynced(files: seq<File>, fault: Fault, count: U64): seq<File>
    requires |files| > 0
  {
    var vs := AfterFsync(files, fault);
    AfterFsync(vs + [WritePage(Last(vs), 0, FileHeader.Encode(count))], Rewritten(fault, 0, FileHeader.Encode(count)))
  }

  lemma CheckpointEnds(s: State, m: Memory) returns (es: seq<Event>, t: State)
    requires |s.files| > 0 && ValidLog(s.log) && s.proc == Up(m) && m.task == Flushing({}) && m.dirty == map[]
    requires s.log.phase.Quiet? && !m.logPoisoned
    ensures Leads(s, es, t) && AllHarmless(es)
    ensures t.files == TwiceSynced(s.files, s.fault, m.pageCount) && t.log == Log(NextSeq(s.log), [], [], Quiet)
    ensures t == s.(files := t.files, fault := t.fault, log := t.log, proc := t.proc)
  {
    hide ValidLog, WritePage, FileHeader.Encode, Leads, AfterFsync, Step;
    var p := FileHeader.Encode(m.pageCount);
    var s1 := SyncFile(s).(proc := Up(m.(task := Flushed)));
    var s2 := Write(s1, 0, p).(proc := Up(m.(task := HeaderWritten)));
    var s3 := SyncFile(s2).(proc := Up(m.(task := Task.Synced)));
    FlushEventStep(s, m, FlushSync, s1);
    FlushEventStep(s1, s1.proc.mem, WriteHeader, s2);
    FlushEventStep(s2, s2.proc.mem, CheckpointSync, s3);
    LeadsStep(s, Checkpointing(FlushSync), s1);
    LeadsStep(s1, Checkpointing(WriteHeader), s2);
    LeadsStep(s2, Checkpointing(CheckpointSync), s3);
    LeadsOn(s, [Checkpointing(FlushSync)], s1, [Checkpointing(WriteHeader)], s2);
    LeadsOn(s, [Checkpointing(FlushSync)] + [Checkpointing(WriteHeader)], s2, [Checkpointing(CheckpointSync)], s3);
    var es1 := [Checkpointing(FlushSync)] + [Checkpointing(WriteHeader)] + [Checkpointing(CheckpointSync)];
    var es2;
    es2, t := LogEmptied(s3, m.(task := Task.Synced));
    es := es1 + es2;
    LeadsOn(s, es1, s3, es2, t);
  }

  lemma FlushEventStep(s: State, m: Memory, e: CheckpointEvent, t: State)
    requires |s.files| > 0 && ValidLog(s.log) && s.proc == Up(m) && CheckpointEnabled(s, m, e)
    requires t == DoCheckpoint(s, m, e)
    ensures Step(s, Checkpointing(e), t)
  {
    hide ValidLog, CheckpointEnabled, DoCheckpoint;
  }

  lemma LogEmptied(s: State, m: Memory) returns (es: seq<Event>, t: State)
    requires |s.files| > 0 && ValidLog(s.log) && s.proc == Up(m) && m.task == Task.Synced && !m.logPoisoned
    requires s.log.phase.Quiet?
    ensures Leads(s, es, t) && t.log == Log(NextSeq(s.log), [], [], Quiet)
    ensures AllHarmless(es)
    ensures t == s.(log := t.log, proc := t.proc)
  {
    hide ValidLog, Leads, Step;
    var l := s.log.(phase := Resetting({NextSeq(s.log)}));
    var u := s.(log := l, proc := Up(m.(task := ResetIssued)));
    FlushEventStep(s, m, ResetStart, u);
    assert ValidLog(l) by {
      NextBound(s.log);
      ResettingIsValid(s.log, {NextSeq(s.log)});
    }
    t := u.(log := Log(NextSeq(s.log), [], [], Quiet), proc := Up(m.(task := Idle)));
    FlushEventStep(u, u.proc.mem, ResetSync, t);
    LeadsStep(s, Checkpointing(ResetStart), u);
    LeadsStep(u, Checkpointing(ResetSync), t);
    es := [Checkpointing(ResetStart)] + [Checkpointing(ResetSync)];
    LeadsOn(s, [Checkpointing(ResetStart)], u, [Checkpointing(ResetSync)], t);
  }

  // ----- what may survive it

  lemma OverlaidAgain(f: File, m: Images, p: Page)
    ensures Overlay(Overlay(f, m), m[0 := p]) == WritePage(Overlay(f, m), 0, p)
  {
    hide WritePage, Overlay;
    OverlayStep(f, m, 0, p);
    OverlayTwice(f, m, m[0 := p]);
    assert m + m[0 := p] == m[0 := p];
  }

  lemma VersionIsTorn(vs: seq<File>, j: nat)
    requires Versions(vs) && j < |vs|
    ensures Torn(vs[j], vs)
  {
    var f := vs[j];
    forall i | 0 <= i < |f|
      ensures exists k :: 0 <= k < |vs| && f[i] == ByteAt(vs[k], i)
    {
      assert f[i] == ByteAt(vs[j], i);
    }
  }

  /** Each such version is one of those the two fsyncs leave possible. */
  lemma SurvivorTorn(s: State, m: Memory, c: File, v: State, t: State)
    requires |s.files| > 0 && Survivor(s, m, c) && s.files <= v.files && Versions(v.files)
    requires Last(v.files) == Overlay(Last(s.files), m.dirty) && v.fault == Dirtied(s.fault, m.dirty)
    requires t.files == TwiceSynced(v.files, v.fault, m.pageCount)
    ensures |t.files| > 0 && Torn(c, t.files)
  {
    hide WritePage, Overlay, Torn, FileHeader.Encode;
    var p := FileHeader.Encode(m.pageCount);
    var vs := AfterFsync(v.files, v.fault);
    SyncedVersions(v.files, v.fault);
    VersionsWrite(vs, 0, p, WritePage(Last(vs), 0, p));
    SyncedVersions(vs + [WritePage(Last(vs), 0, p)], Rewritten(v.fault, 0, p));
    if s.fault.NoFault? {
      assert t.files == [c];
      VersionIsTorn(t.files, 0);
    } else {
      var images := s.fault.pages + m.dirty;
      var j :| 0 <= j < |s.files| && c == CheckpointedFile(s.files[j], images, m.pageCount);
      assert v.files[j] == s.files[j];
      OverlaidAgain(s.files[j], images, p);
      assert t.files[j] == c;
      VersionIsTorn(t.files, j);
    }
  }

  lemma SurvivorBytes(f: File, images: Images, count: U64, k: PageId, p: Page)
    requires k > 0
    ensures BytesAre(CheckpointedFile(f, images, count), k, p)
            <==> if k in images then images[k] == p else BytesAre(f, k, p)
  {
    hide BytesAre, WritePage, Overlay, FileHeader.Encode;
    BytesAfterWrite(Overlay(f, images), 0, FileHeader.Encode(count), k, p);
    BytesAfterOverlay(f, images, k, p);
  }

  lemma SurvivorLength(f: File, images: Images, count: U64)
    ensures |CheckpointedFile(f, images, count)| == Max(4096, Max(|f|, End(images)))
  {
    hide End;
  }

  /** Some page of `d` is not in `c`, or `c` ends too early. */
  ghost predicate Lacks(c: File, d: Db) {
    || |c| < 4096 * d.count
    || exists k: PageId :: 0 < k < d.count && k in d.pages && !BytesAre(c, k, d.pages[k])
  }

  /** If flushing does not keep everything, some survivor of the finished checkpoint lacks something. */
  lemma LosesSome(s: State, m: Memory) returns (c: File)
    requires |s.files| > 0 && FaultInv(s.files, s.fault) && m.pageCount == s.base.count && !FlushKeeps(s, m)
    ensures Survivor(s, m, c) && Lacks(c, s.base)
  {
    hide BytesAre, CheckpointedFile, End, Holds;
    if 4096 * s.base.count > Max(4096, Max(Reach(s.files, s.fault), End(m.dirty))) {
      c := ShortVersion(s, m);
    } else {
      var k: PageId :| 0 < k < s.base.count && k in s.base.pages && !KeptPage(s, m, k, s.base.pages[k]);
      c := LosesPage(s, m, k);
    }
  }

  /** Where the file is not sure to reach the committed end, the header names pages it does not have. */
  lemma ShortVersion(s: State, m: Memory) returns (c: File)
    requires |s.files| > 0 && m.pageCount == s.base.count
    requires 4096 * s.base.count > Max(4096, Max(Reach(s.files, s.fault), End(m.dirty)))
    ensures Survivor(s, m, c) && |c| < 4096 * s.base.count && Holds(c, 0, FileHeader.Encode(s.base.count))
  {
    hide End, Holds, WritePage, Overlay, FileHeader.Encode;
    var f := if s.fault.NoFault? then Last(s.files) else s.files[0];
    var images := FlushedImages(s.fault, m.dirty);
    c := CheckpointedFile(f, images, m.pageCount);
    SurvivorLength(f, images, m.pageCount);
    WriteHolds(Overlay(f, images), 0, FileHeader.Encode(m.pageCount));
    if s.fault.Fault? {
      EndOfUnion(s.fault.pages, m.dirty);
    }
    assert Survivor(s, m, c);
  }

  /** The images a finished checkpoint is sure to leave in the file. */
  function FlushedImages(fault: Fault, dirty: Images): Images {
    if fault.NoFault? then dirty else fault.pages + dirty
  }

  lemma LosesPage(s: State, m: Memory, k: PageId) returns (c: File)
    requires |s.files| > 0 && FaultInv(s.files, s.fault)
    requires 0 < k < s.base.count && k in s.base.pages && !KeptPage(s, m, k, s.base.pages[k])
    ensures Survivor(s, m, c) && !BytesAre(c, k, s.base.pages[k])
  {
    hide BytesAre, CheckpointedFile, Holds;
    var p := s.base.pages[k];
    var images := FlushedImages(s.fault, m.dirty);
    var j := |s.files| - 1;
    if s.fault.Fault? && k !in images && BytesAre(Last(s.files), k, p) {
      j :| 0 <= j < |s.files| && !BytesAre(s.files[j], k, p);
    }
    c := CheckpointedFile(s.files[j], images, m.pageCount);
    SurvivorBytes(s.files[j], images, m.pageCount, k, p);
    if s.fault.Fault? && k in s.fault.pages {
      HoldsBytes(Last(s.files), k, s.fault.pages[k]);
    }
    assert Survivor(s, m, c);
  }

  // ----- reopening with an empty log

  lemma EmptyLogReopens(f: File, next: U64)
    ensures var o := OpenDatabase(f, EncodeHeader(next));
      o == match DataFile.Open(f) case Refused(_) => Unusable case Opened(n) => Usable(f, n)
  {
    hide EncodeHeader, DataFile.Open, Ready, Overlay, WalLog.Open, ImagesValid, Redo;
    EmptyNotReady(next);
    Wal.OpenOfHeader(next, []);
    assert EncodeHeader(next) + [] == EncodeHeader(next);
    RedoOfNothing();
    NothingIsValid();
    OverlayNothing(f);
  }

  lemma YieldsHolds(f: File, d: Db, k: PageId)
    requires Yields(Usable(f, d.count), d) && 0 < k < d.count && k in d.pages
    ensures Holds(f, k, d.pages[k])
  {
    hide Verify, Holds;
    assert ReadPage(f, d.count, k) == Read(d.pages[k]);
    assert Holds(f, k, PageAt(f, k));
  }

  lemma OpenedIsLong(f: File, n: U64)
    requires DataFile.Open(f) == DataFile.Opened(n)
    ensures |f| >= 4096 * n
  {
    hide FileHeader.Decode;
  }

  lemma LackingIsLost(c: File, d: Db, next: U64)
    requires Lacks(c, d)
    ensures !Yields(OpenDatabase(c, EncodeHeader(next)), d)
  {
    hide DataFile.Open, ReadPage, EncodeHeader, OpenDatabase, BytesAre, Holds;
    EmptyLogReopens(c, next);
    if Yields(OpenDatabase(c, EncodeHeader(next)), d) {
      OpenedIsLong(c, d.count);
      var k: PageId :| 0 < k < d.count && k in d.pages && !BytesAre(c, k, d.pages[k]);
      YieldsHolds(c, d, k);
      HoldsBytes(c, k, d.pages[k]);
    }
  }

  // ----- exactly when a checkpoint keeps everything

  /** Otherwise, run to its end, it empties the log although something committed is not sure to be in the file. */
  lemma CheckpointLoses(s: State, m: Memory, tid: Tid) returns (es: seq<Event>, t: State, c: File, w: seq<Byte>)
    requires Inv(s) && s.proc == Up(m) && m.task.Idle? && !Kept(s, m)
    ensures SafeLeads(Locked(s, m, tid), es, t) && Leads(Locked(s, m, tid), es, t)
    ensures Crashes(t, c, w)
    ensures t == s.(files := t.files, fault := t.fault, log := t.log, proc := t.proc)
    ensures !Yields(OpenDatabase(c, w), s.base)
  {
    hide Inv, FlushKeeps, SafeLeads, Leads, Torn, Survives, ValidLog, OpenDatabase, Yields, Survivor, Lacks,
      EncodeHeader, FaultInv, Versions, ValidDb;
    InvDisk(s);
    assert |s.files| > 0 by { InvBasics(s); }
    assert m.pageCount == s.base.count by { IdleCount(s, m); }
    c := LosesSome(s, m);
    es, t, w := CheckpointRuns(s, m, tid, c);
    LackingIsLost(c, s.base, NextSeq(s.log));
  }

  lemma IdleCount(s: State, m: Memory)
    requires Inv(s) && s.proc == Up(m) && m.task.Idle?
    ensures m.pageCount == s.base.count
  {
    hide DiskInv, HistoryInv, ValidLog, ValidDb, Shows, DirtyInv, IdInv, ReaderInv, PhaseInv, HalfInv;
  }

  /** Every crash at every point of every safe continuation reopens as it should. */
  ghost predicate NeverLoses(s: State) {
    forall es, t, c, w ::
      SafeLeads(s, es, t) && Crashes(t, c, w) && Safe(t, World(PowerLoss(c, w))) ==> Recovers(t, c, w)
  }

  /**
   * The exact condition for a checkpoint that has passed the poison check, on a database in any state,
   * poisoned or not: whatever happens from the moment it takes the lock, at whatever point power is
   * lost, nothing committed is lost, if and only if the log refuses to be reset or every committed page
   * was cached, or in the file with no failed fsync putting it in question, when the lock was taken.
   */
  lemma CheckpointExact(s: State, m: Memory, tid: Tid)
    requires Inv(s) && s.proc == Up(m) && m.task.Idle?
    ensures NeverLoses(Locked(s, m, tid)) <==> Kept(s, m)
  {
    hide Inv, Kept, SafeLeads, Leads, Torn, Survives, ValidLog, Safe, Recovers;
    var u := Locked(s, m, tid);
    if Kept(s, m) {
      CheckpointLockKeeps(s, m, tid);
      forall es, t, c, w | SafeLeads(u, es, t) && Crashes(t, c, w) && Safe(t, World(PowerLoss(c, w)))
        ensures Recovers(t, c, w)
      {
        SafeLeadsKeeps(u, es, t);
        StateRecovers(t, c, w);
      }
    } else {
      var es, t, c, w := CheckpointLoses(s, m, tid);
      assert !m.logPoisoned by { NotKept(s, m); }
      assert s.doubt.NoDoubt? && s.replay.Untouched? by {
        IdleIsQuiet(s, m);
        UpUntouched(s, m);
      }
      assert Safe(t, World(PowerLoss(c, w))) by { SettledIsSafe(t, c, w); }
      assert !Recovers(t, c, w) by { NotRecovered(s, t, c, w); }
    }
  }

  lemma NotKept(s: State, m: Memory)
    requires !Kept(s, m)
    ensures !m.logPoisoned
  {
  }

  lemma UpUntouched(s: State, m: Memory)
    requires Inv(s) && s.proc == Up(m)
    ensures s.replay.Untouched?
  {
    hide DiskInv, HistoryInv, ValidLog, ValidDb, Shows, DirtyInv, IdInv, ReaderInv, PhaseInv, HalfInv, TaskInv,
      CountInv;
  }

  lemma SettledIsSafe(t: State, c: File, w: seq<Byte>)
    requires t.replay.Untouched?
    ensures Safe(t, World(PowerLoss(c, w)))
  {
    hide WalLog.Open;
  }

  lemma NotRecovered(s: State, t: State, c: File, w: seq<Byte>)
    requires Inv(s) && s.doubt.NoDoubt? && !Yields(OpenDatabase(c, w), s.base)
    requires t.attempts == s.attempts && t.applied == s.applied && t.doubt == s.doubt
    ensures !Recovers(t, c, w)
  {
    hide DiskInv, UpInv, OpenInv, ValidLog, Yields, OpenDatabase, WalLog.Open, Resolve;
  }

  // ----- in terms of what went wrong

  /**
   * After a commit failed partway, with no fsync failed, this means: every image not yet installed is
   * what its page shows anyway or, past the old end, is in the cache or the file already, and the
   * flushed file reaches the new end.
   */
  lemma HalfKept(s: State, m: Memory)
    requires Inv(s) && s.proc == Up(m) && s.half.Half? && s.fault.NoFault?
    ensures var later := AddImages(map[], s.half.todo);
      FlushKeeps(s, m) <==>
        && 4096 * s.base.count <= Max(4096, Max(|Last(s.files)|, End(m.dirty)))
        && forall k :: k in later ==> if k in Seen(s) then Seen(s)[k] == later[k] else KeptPage(s, m, k, later[k])
  {
    hide DiskInv, HistoryInv, ValidLog, DirtyInv, IdInv, ReaderInv, PhaseInv, TaskInv, FileHeader.Encode, Installed,
      DataImages, AddImages, PartInv, ValidDb, KeptPage, End;
    var later := AddImages(map[], s.half.todo);
    forall k: PageId
      ensures k in later ==> 0 < k < s.base.count && k in s.base.pages && s.base.pages[k] == later[k]
      ensures 0 < k < s.base.count && k in s.base.pages ==>
        (KeptPage(s, m, k, s.base.pages[k])
         <==> (k in later ==> if k in Seen(s) then Seen(s)[k] == later[k] else KeptPage(s, m, k, later[k])))
    {
      CommittedKept(s, m, k);
    }
    if FlushKeeps(s, m) {
      forall k | k in later
        ensures if k in Seen(s) then Seen(s)[k] == later[k] else KeptPage(s, m, k, later[k])
      {
        assert KeptPage(s, m, k, s.base.pages[k]);
      }
    }
  }

  lemma CommittedKept(s: State, m: Memory, k: PageId)
    requires Inv(s) && s.proc == Up(m) && s.half.Half? && s.fault.NoFault?
    ensures var later := AddImages(map[], s.half.todo);
      && (k in later ==> 0 < k < s.base.count && k in s.base.pages && s.base.pages[k] == later[k])
      && (0 < k < s.base.count && k in s.base.pages ==>
           (KeptPage(s, m, k, s.base.pages[k])
            <==> (k in later ==> if k in Seen(s) then Seen(s)[k] == later[k] else KeptPage(s, m, k, later[k]))))
  {
    hide DiskInv, HistoryInv, ValidLog, DirtyInv, IdInv, ReaderInv, PhaseInv, TaskInv, FileHeader.Encode, Installed,
      DataImages, AddImages, Holds, BytesAre, ValidTxn, Firm, Verified;
    var txn, todo := s.half.txn, s.half.todo;
    if k in AddImages(map[], todo) {
      LaterIsData(s.shown, txn, todo, k);
    }
    if k > 0 {
      CommittedPage(s, m, txn, todo, k);
      if k in Seen(s) {
        assert Visible(s, m, k, Seen(s)[k]);
        SeenKept(s, m, k, Seen(s)[k]);
      }
    }
  }

  /**
   * After a failed fsync, with nothing cached, it means: all contents of the file a crash may still bring
   * up agree on every committed page and are long enough.
   */
  lemma SuspectKept(s: State, m: Memory)
    requires |s.files| > 0 && s.fault == Fault(map[]) && m.dirty == map[]
    ensures FlushKeeps(s, m) <==>
      && 4096 * s.base.count <= Max(4096, |s.files[0]|)
      && forall k: PageId :: 0 < k < s.base.count && k in s.base.pages ==> AllAre(s.files, k, s.base.pages[k])
  {
    hide BytesAre;
    EndOfNothing();
    if FlushKeeps(s, m) {
      forall k: PageId | 0 < k < s.base.count && k in s.base.pages
        ensures AllAre(s.files, k, s.base.pages[k])
      {
        assert KeptPage(s, m, k, s.base.pages[k]);
      }
    }
  }

  /** A page has one contents. */
  lemma SeenKept(s: State, m: Memory, k: PageId, p: Page)
    requires |s.files| > 0 && s.fault.NoFault? && Visible(s, m, k, p)
    ensures forall q: Page :: KeptPage(s, m, k, q) <==> p == q
  {
    hide Holds, BytesAre, Firm;
    var f := Last(s.files);
    forall q: Page
      ensures KeptPage(s, m, k, q) <==> p == q
    {
      if k !in m.dirty {
        HoldsBytes(f, k, p);
        HoldsBytes(f, k, q);
        if BytesAre(f, k, q) {
          HoldsUnique(f, k, p);
          HoldsUnique(f, k, q);
        }
      }
    }
  }
}
