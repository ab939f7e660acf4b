/** Opening an existing database: scan the log, replay it, validate the data file, empty the log. */
module Opening {
  import opened Bytes
  import opened Pages
  import opened WalRecord
  import opened WalLog
  import opened Wal
  import opened DataFile
  import opened Recovery
  import opened Fsync
  import opened Store
  import opened Engine
  import opened DiskInvariant
  import opened EngineInvariant
  import opened CrashSafety
  import opened Disk
  import opened WalHandle
  import opened Database
  import OpenSteps

  /** How the operating system answers while a database is opened. */
  datatype OpenIo = OpenIo(cut: CutIo, pages: map<PageId, WriteIo>, sync: SyncIo, reset: ResetIo)

  datatype OpenFailure =
    | LogRefused(error: WalLog.HeaderError)
    | CutRefused
    | BadImage
    | WriteRefused
    | SyncRefused
    | DataRefused(reason: DataFile.OpenError)
    | ResetRefused

  datatype Recovered = Ready | Stopped(failure: OpenFailure)

  // ----- replay

  /** The log to reset, once it has been read: what was behind its last record is cut off. */
  ghost function KeptOf(contents: seq<Byte>, l: Log): Log
    requires ValidLog(l)
  {
    var o := WalLog.Open(contents);
    if o.Opened? && o.discarded > 0 then Cut(l) else l
  }

  /** Why recovery stops before it touches the data file, if it does. */
  ghost function Refusal(contents: seq<Byte>, cut: CutIo): Recovered {
    match WalLog.Open(contents)
    case Refused(e) => Stopped(LogRefused(e))
    case Opened(_, records, _, discarded) =>
      if discarded > 0 && !cut.CutDone? then Stopped(CutRefused)
      else if !ImagesValid(records, Committed(records)) then Stopped(BadImage)
      else Ready
  }

  /** What recovery reports and what it leaves in the data file. */
  ghost predicate RecoverGives(
    file: File, contents: seq<Byte>, io: OpenIo, r: Recovered, now: File, done: Images, at: PageId)
  {
    var refusal := Refusal(contents, io.cut);
    if refusal.Stopped? then r == refusal && now == file
    else
      var m := Redo(WalLog.Open(contents).records);
      if exists k :: k in m && IoFor(io.pages, k).WriteFailed? then
        r == Stopped(WriteRefused) && FirstFailing(m, io.pages, done, at) && StoppedAt(file, m, done, at, now)
      else
        && now == Overlay(file, m)
        && r == if m != map[] && io.sync.SyncFailed? then Stopped(SyncRefused) else Ready
  }

  /**
   * Scans the log, cuts it, and replays what it finds into the data file: for any two files, whatever is
   * in them, and whatever fails on the way. Nothing is written to the data file unless every committed
   * image is valid; then the file ends as replay computes it, or part of the way there.
   */
  method Recover(file: File, contents: seq<Byte>, io: OpenIo, ghost l: Log)
    returns (r: Recovered, handle: Handle?, now: File, ghost done: Images, ghost at: PageId)
    requires var o := WalLog.Open(contents);
      o.Opened? ==> o.first + |o.records| < SEQ_LIMIT && ValidLog(l) && ReadsAs(contents, l)
    ensures RecoverGives(file, contents, io, r, now, done, at)
    ensures r == Ready ==> var o := WalLog.Open(contents);
      && handle != null && fresh(handle) && handle.Valid() && !handle.poisoned && handle.queued == []
      && handle.log == KeptOf(contents, l) && handle.nextSeq == o.first + |o.records|
  {
    hide WalLog.Open, Redo, ImagesValid, Overlay, Handle.Valid, ValidLog, ReadsAs, Cut, StoppedAt;
    now, done, at := file, map[], 0;
    var w, h, records, discarded := OpenFile(contents, io.cut, l);
    handle := h;
    if w.Err? {
      r := if w.error.BadLog? then Stopped(LogRefused(w.error.error)) else Stopped(CutRefused);
      return;
    }
    var out;
    out, done, at := Recovery.Replay(file, records, io.pages, io.sync);
    match out
    case InvalidImage => r := Stopped(BadImage);
    case NotWritten(left) => r, now := Stopped(WriteRefused), left;
    case NotSynced(left) => r, now := Stopped(SyncRefused), left;
    case Replayed(f, _) => r, now := Ready, f;
  }

  /** The log of which nothing is known but the file: whatever can be read is durable. */
  ghost function FoundLog(contents: seq<Byte>): Log {
    if WalLog.Open(contents).Opened? then AfterCrash(contents) else Log(0, [], [], Quiet)
  }

  /** Every call that opening these files makes succeeds. */
  ghost predicate AllGoesWell(contents: seq<Byte>, io: OpenIo) {
    var o := WalLog.Open(contents);
    && o.Opened? && (o.discarded > 0 ==> io.cut.CutDone?) && io.reset.ResetDone?
    && (forall k :: k in Redo(o.records) ==> IoFor(io.pages, k).WriteDone?)
    && (Redo(o.records) != map[] ==> io.sync.SyncDone?)
  }

  /** What opening reports, given how recovery went and the data file it left. */
  function Verdict(restored: Recovered, now: File, reset: ResetIo): Recovered {
    if restored.Stopped? then restored
    else
      match DataFile.Open(now)
      case Refused(e) => Stopped(DataRefused(e))
      case Opened(_) => if reset.ResetFailed? then Stopped(OpenFailure.ResetRefused) else Ready
  }

  /**
   * `Database::open_existing` on any two files: it succeeds if and only if recovery in one go makes a
   * usable database of them and no call fails, and then data file, page count and log are what that says.
   */
  method OpenFiles(file: File, contents: seq<Byte>, io: OpenIo)
    returns (r: Recovered, disk: DiskManager?, wal: Handle?, now: File, ghost restored: Recovered, ghost done: Images,
             ghost at: PageId)
    requires var o := WalLog.Open(contents); o.Opened? ==> o.first + |o.records| < SEQ_LIMIT
    requires ValidLog(FoundLog(contents)) ==> ResetMay(io.reset, contents, FoundLog(contents))
    ensures RecoverGives(file, contents, io, restored, now, done, at) && r == Verdict(restored, now, io.reset)
    ensures r == Ready <==> OpenDatabase(file, contents).Usable? && AllGoesWell(contents, io)
    ensures r == Ready <==> disk != null && wal != null
    ensures r == Ready ==> var d, o := OpenDatabase(file, contents), WalLog.Open(contents);
      && fresh(disk) && disk.Valid() && disk.file == d.file && disk.pageCount == d.count
      && fresh(wal) && wal.Valid() && !wal.poisoned && wal.log == Log(o.first + |o.records|, [], [], Quiet)
  {
    hide WalLog.Open, Redo, ImagesValid, Overlay, DataFile.Open, Handle.Valid, DiskManager.Valid, ValidLog, ReadsAs,
      Cut, StoppedAt, ResetMay, OpenDatabase, AllGoesWell, RecoverGives, FoundLog;
    disk, wal := null, null;
    ghost var l := FoundLog(contents);
    FoundReads(contents);
    var handle;
    r, handle, now, done, at := Recover(file, contents, io, l);
    restored := r;
    RecoveredIs(file, contents, io, r, now, done, at);
    if r.Stopped? {
      return;
    }
    var data := DataFile.Open(now);
    if data.Refused? {
      r := Stopped(DataRefused(data.error));
      return;
    }
    ResetReady(handle, io.reset, contents, l);
    var w := handle.Reset(io.reset);
    if w.Err? {
      r := Stopped(OpenFailure.ResetRefused);
      return;
    }
    OneVersion(now);
    disk := new DiskManager.Attach(now, data.pageCount, [now], NoFault);
    wal := handle;
  }

  lemma FoundReads(contents: seq<Byte>)
    requires var o := WalLog.Open(contents); o.Opened? ==> o.first + |o.records| < SEQ_LIMIT
    ensures ValidLog(FoundLog(contents))
    ensures WalLog.Open(contents).Opened? ==> ReadsAs(contents, FoundLog(contents))
  {
    hide WalLog.Open, EncodeAll, EncodeHeader, Scan;
    if WalLog.Open(contents).Opened? {
      AfterCrashValid(contents);
    } else {
      QuietIsValid(0, []);
    }
  }

  lemma OneVersion(f: File)
    ensures Versions([f]) && FaultInv([f], NoFault)
  {
  }

  /** What recovery comes to, in terms of recovery in one go. */
  lemma RecoveredIs(file: File, contents: seq<Byte>, io: OpenIo, r: Recovered, now: File, done: Images, at: PageId)
    requires RecoverGives(file, contents, io, r, now, done, at)
    ensures r == Ready ==> WalLog.Open(contents).Opened?
    ensures r == Ready ==> var o := DataFile.Open(now);
      OpenDatabase(file, contents) == if o.Opened? then Usable(now, o.pageCount) else Unusable
    ensures r == Ready ==> (AllGoesWell(contents, io) <==> io.reset.ResetDone?)
    ensures AllGoesWell(contents, io) ==> r == Ready || r == Stopped(BadImage)
    ensures r == Stopped(BadImage) ==> OpenDatabase(file, contents).Unusable?
  {
    hide WalLog.Open, Redo, ImagesValid, Overlay, DataFile.Open, StoppedAt;
  }

  // ----- the run behind it

  /** One more step of a run that keeps the invariant. */
  lemma Onward(ss: seq<State>, es: seq<Event>, e: OpenEvent, t: State) returns (ss': seq<State>, es': seq<Event>)
    requires SafePath(ss, es) && Inv(ss[|es|]) && Step(ss[|es|], Reopen(e), t)
    ensures SafePath(ss', es') && ss <= ss' && ss'[|es'|] == t && Inv(t)
  {
    hide Inv, Step, Safe, SafePath;
    PathSize(ss, es);
    assert Safe(ss[|es|], Reopen(e)) by { OpenIsSafe(ss[|es|], e); }
    StepKeeps(ss[|es|], Reopen(e), t);
    PathGrows(ss, es, Reopen(e), t);
    ss', es' := ss + [t], es + [Reopen(e)];
  }

  lemma OpenIsSafe(s: State, e: OpenEvent)
    ensures Safe(s, Reopen(e))
  {
  }

  /** What opening leaves alone until the log is reset. */
  ghost predicate SameHistory(s: State, t: State) {
    && t.base == s.base && t.doubt == s.doubt && t.attempts == s.attempts && t.applied == s.applied
    && TailRecords(t.log) == TailRecords(s.log) && t.log.recs == s.log.recs
  }

  /** Has the log been read, and what was behind its last record cut off? */
  predicate ScanOk(w: seq<Byte>, cut: CutIo) {
    var o := WalLog.Open(w);
    o.Opened? && (o.discarded == 0 || cut.CutDone?)
  }

  lemma ScanRuns(ss: seq<State>, es: seq<Event>, w: seq<Byte>, cut: CutIo) returns (ss': seq<State>, es': seq<Event>)
    requires SafePath(ss, es)
    requires var s := ss[|es|]; Inv(s) && ValidLog(s.log) && s.proc.Down? && ReadsAs(w, s.log)
    ensures SafePath(ss', es') && ss <= ss' && Inv(ss'[|es'|]) && WalLog.Open(w).Opened?
    ensures var s, t, o := ss[|es|], ss'[|es'|], WalLog.Open(w);
      && SameHistory(s, t) && t.files == s.files
      && if ScanOk(w, cut) then
           t == s.(log := KeptOf(w, s.log), proc := Opening(o.first, o.records, Restore(Redo(o.records))))
         else t.proc.Down?
  {
    hide Inv, Step, SafePath, WalLog.Open, ReadsAs, ValidLog, Redo, Cut, TailRecords;
    PathSize(ss, es);
    var s := ss[|es|];
    assert |s.files| > 0 by { InvBasics(s); }
    KernelOpens(w, s.log);
    var o := WalLog.Open(w);
    OpenIsStep(s, OpenLog(w));
    var t := DoOpen(s, OpenLog(w));
    ss', es' := Onward(ss, es, OpenLog(w), t);
    if o.discarded > 0 {
      CutIsValid(s.log);
      assert Cut(s.log).recs == s.log.recs by { CutKeepsRecords(s.log); }
      var e := match cut case CutDone => CutTail case TruncateFailed => OpenFailed case CutSyncFailed => CutFailed;
      OpenIsStep(t, e);
      ss', es' := Onward(ss', es', e, DoOpen(t, e));
    }
  }

  lemma CutKeepsRecords(l: Log)
    requires ValidLog(l)
    ensures Cut(l).recs == l.recs
  {
    hide ValidLog, EncodeAll;
  }

  /** The state after the images of `some` are written, with `rest` still to come. */
  ghost predicate Writing(s: State, t: State, rest: Images) {
    && s.proc.Opening? && t.proc == s.proc.(stage := Restore(rest)) && t.log == s.log && t.base == s.base
    && t.doubt == s.doubt && t.attempts == s.attempts && t.applied == s.applied
  }

  lemma RestoreStep(s: State, k: PageId, todo: Images) returns (t: State)
    requires Inv(s) && |s.files| > 0 && s.proc.Opening? && s.proc.stage == Restore(todo) && k in todo
    requires ImagesValid(s.proc.found, Committed(s.proc.found))
    ensures Step(s, Reopen(RestorePage(k)), t) && Writing(s, t, todo - {k})
    ensures t.files == s.files + [WritePage(Last(s.files), k, todo[k])]
  {
    hide Inv, Step, ImagesValid, ValidLog, WritePage, ReplaysDoubt;
    InvBasics(s);
    OpenIsStep(s, RestorePage(k));
    t := DoOpen(s, RestorePage(k));
  }

  /** Writing some of the images one after the other leaves the file that replay computes from them. */
  lemma {:induction false} RestoreSome(
    ss: seq<State>, es: seq<Event>, f: File, done: Images, some: Images, todo: Images)
    returns (ss': seq<State>, es': seq<Event>)
    requires SafePath(ss, es)
    requires var s := ss[|es|];
      && Inv(s) && |s.files| > 0 && s.proc.Opening? && s.proc.stage == Restore(todo)
      && Last(s.files) == Overlay(f, done) && ImagesValid(s.proc.found, Committed(s.proc.found))
    requires forall k :: k in some ==> k in todo && some[k] == todo[k]
    ensures SafePath(ss', es') && ss <= ss' && Inv(ss'[|es'|])
    ensures var s, t := ss[|es|], ss'[|es'|];
      Writing(s, t, todo - some.Keys) && |t.files| > 0 && Last(t.files) == Overlay(f, done + some)
    decreases |some|
  {
    hide Inv, SafePath, Overlay, ImagesValid, Writing;
    PathSize(ss, es);
    var s := ss[|es|];
    if some == map[] {
      ss', es' := ss, es;
      NoneMoved(done, some, todo);
      NothingWritten(s, todo);
    } else {
      var k :| k in some;
      var ss1, es1 := RestoreOne(ss, es, f, done, k, todo);
      PathSize(ss1, es1);
      SomeMoved(done, some, todo, k);
      var t := ss1[|es1|];
      assert t.proc.Opening? && t.proc.stage == Restore(todo - {k}) && t.proc.found == s.proc.found by {
        WritingStage(s, t, todo - {k});
      }
      ss', es' := RestoreSome(ss1, es1, f, done[k := todo[k]], some - {k}, todo - {k});
      PathSize(ss', es');
      assert Writing(s, ss'[|es'|], todo - some.Keys) by { WritingOn(s, t, ss'[|es'|], todo - {k}, todo - some.Keys); }
    }
  }

  lemma NoneMoved(done: Images, some: Images, todo: Images)
    requires some == map[]
    ensures done + some == done && todo - some.Keys == todo
  {
  }

  lemma SomeMoved(done: Images, some: Images, todo: Images, k: PageId)
    requires k in some && k in todo && some[k] == todo[k]
    ensures done[k := todo[k]] + (some - {k}) == done + some
    ensures (todo - {k}) - (some - {k}).Keys == todo - some.Keys
  {
    OneMoved(done, some, k);
  }

  lemma NothingWritten(s: State, todo: Images)
    requires s.proc.Opening? && s.proc.stage == Restore(todo)
    ensures Writing(s, s, todo)
  {
  }

  lemma WritingStage(s: State, t: State, rest: Images)
    requires Writing(s, t, rest)
    ensures t.proc.Opening? && t.proc.stage == Restore(rest) && t.proc.found == s.proc.found
  {
  }

  lemma WritingOn(s: State, t: State, u: State, rest: Images, rest': Images)
    requires Writing(s, t, rest) && Writing(t, u, rest')
    ensures Writing(s, u, rest')
  {
  }

  lemma RestoreOne(ss: seq<State>, es: seq<Event>, f: File, done: Images, k: PageId, todo: Images)
    returns (ss': seq<State>, es': seq<Event>)
    requires SafePath(ss, es) && k in todo
    requires var s := ss[|es|];
      && Inv(s) && |s.files| > 0 && s.proc.Opening? && s.proc.stage == Restore(todo)
      && Last(s.files) == Overlay(f, done) && ImagesValid(s.proc.found, Committed(s.proc.found))
    ensures SafePath(ss', es') && ss <= ss' && Inv(ss'[|es'|])
    ensures var s, t := ss[|es|], ss'[|es'|];
      Writing(s, t, todo - {k}) && |t.files| > 0 && Last(t.files) == Overlay(f, done[k := todo[k]])
  {
    hide Inv, Step, SafePath, Overlay, ImagesValid, WritePage, Writing;
    PathSize(ss, es);
    var t := RestoreStep(ss[|es|], k, todo);
    ss', es' := Onward(ss, es, RestorePage(k), t);
    OverlayStep(f, done, k, todo[k]);
  }

  /** The data file is restored and the log is about to be emptied; or opening has failed. */
  ghost predicate Arrives(s: State, t: State, w: seq<Byte>, r: Recovered, now: File)
    requires ValidLog(s.log)
  {
    var o := WalLog.Open(w);
    && o.Opened? && SameHistory(s, t) && |t.files| > 0 && Last(t.files) == now
    && if r == Ready then t.proc == Opening(o.first, o.records, Restored) && t.log == KeptOf(w, s.log)
       else t.proc.Down?
  }

  lemma OpeningFacts(s: State)
    requires Inv(s) && s.proc.Opening?
    ensures s.proc.first + |s.proc.found| < SEQ_LIMIT && ImagesValid(s.proc.found, Committed(s.proc.found))
  {
    hide DiskInv, HistoryInv, ValidLog, Redo, ImagesValid, Covered, Took, RestoreInv, TailRecords, Target;
  }

  /** What recovery does to the two files is a run of the machine, whatever fails in it. */
  lemma RecoverRuns(
    ss: seq<State>, es: seq<Event>, w: seq<Byte>, io: OpenIo, r: Recovered, now: File, done: Images, at: PageId)
    returns (ss': seq<State>, es': seq<Event>)
    requires SafePath(ss, es)
    requires var s := ss[|es|]; Inv(s) && |s.files| > 0 && ValidLog(s.log) && s.proc.Down? && ReadsAs(w, s.log)
    requires RecoverGives(Last(ss[|es|].files), w, io, r, now, done, at)
    ensures SafePath(ss', es') && ss <= ss' && Inv(ss'[|es'|]) && Arrives(ss[|es|], ss'[|es'|], w, r, now)
  {
    hide Inv, Step, SafePath, WalLog.Open, ReadsAs, ValidLog, Redo, Cut, TailRecords, ImagesValid, Overlay, StoppedAt;
    PathSize(ss, es);
    var s, f := ss[|es|], Last(ss[|es|].files);
    ss', es' := ScanRuns(ss, es, w, io.cut);
    PathSize(ss', es');
    var t := ss'[|es'|];
    if ScanOk(w, io.cut) {
      OpeningFacts(t);
      var m := Redo(WalLog.Open(w).records);
      var some := if r == Stopped(WriteRefused) then done else m;
      assert forall k :: k in some ==> k in m && some[k] == m[k] by {
        if r == Stopped(WriteRefused) {
          StoppedWithin(f, m, done, at, now);
        }
      }
      OverlayNothing(f);
      assert map[] + some == some;
      ss', es' := RestoreSome(ss', es', f, map[], some, m);
      PathSize(ss', es');
      var u := ss'[|es'|];
      var e := if r == Ready then RestoreSync else if r == Stopped(SyncRefused) then RestoreSyncFailed
               else RestoreFailed(at, now);
      var v := LastStep(u, f, m, some, e, at, now, done);
      ss', es' := Onward(ss', es', e, v);
    }
  }

  lemma StoppedWithin(f: File, m: Images, done: Images, at: PageId, now: File)
    requires StoppedAt(f, m, done, at, now)
    ensures forall k :: k in done ==> k in m && done[k] == m[k]
    ensures at in m && at in m - done.Keys && (m - done.Keys)[at] == m[at]
    ensures PartlyWritten(now, Overlay(f, done), at, m[at])
  {
    hide Overlay, PartlyWritten;
  }

  /** The fsync after the images, its failure, or the write that failed. */
  lemma LastStep(u: State, f: File, m: Images, some: Images, e: OpenEvent, at: PageId, now: File, done: Images)
    returns (v: State)
    requires Inv(u) && |u.files| > 0 && u.proc.Opening? && u.proc.stage == Restore(m - some.Keys)
    requires m == Redo(u.proc.found) && ImagesValid(u.proc.found, Committed(u.proc.found))
    requires Last(u.files) == Overlay(f, some)
    requires if e.RestoreFailed? then e == RestoreFailed(at, now) && some == done && StoppedAt(f, m, done, at, now)
             else some == m && now == Overlay(f, m) && (e.RestoreSync? || (e.RestoreSyncFailed? && m != map[]))
    ensures Step(u, Reopen(e), v) && SameHistory(u, v) && v.log == u.log && |v.files| > 0 && Last(v.files) == now
    ensures if e.RestoreSync? then v.proc == u.proc.(stage := Restored) else v.proc.Down?
  {
    hide Inv, Step, ImagesValid, ValidLog, Overlay, StoppedAt, Redo, PartlyWritten, AfterFsync, ReplaysDoubt,
      TailRecords;
    InvBasics(u);
    if e.RestoreFailed? {
      StoppedWithin(f, m, done, at, now);
    } else {
      assert m - m.Keys == map[];
    }
    OpenIsStep(u, e);
    v := DoOpen(u, e);
    if e.RestoreSync? {
      assert FaultInv(u.files, u.fault) by { InvFault(u); }
      SyncedLast(u.files, u.fault);
    }
  }

  lemma InvFault(s: State)
    requires Inv(s)
    ensures FaultInv(s.files, s.fault) && Versions(s.files)
  {
    hide DiskInv, HistoryInv, UpInv, OpenInv, ValidLog, Versions, FaultInv, ValidDb, RedoInv;
    OpenSteps.DiskBasics(s);
  }

  /** Which database an opening that gets through brings up. */
  ghost function Answer(s: State): Db {
    Settled(s.base, s.doubt, UnsyncedCommitVisible(s))
  }

  lemma RestoredOpens(s: State)
    requires Inv(s) && s.proc.Opening? && s.proc.stage.Restored?
    ensures |s.files| > 0 && Target(s) == Answer(s) && DataFile.Open(Last(s.files)) == DataFile.Opened(Target(s).count)
  {
    hide DiskInv, HistoryInv, ValidLog, Redo, ImagesValid, ValidDb, DataFile.Open, FileHolds, Took, TailRecords,
      Covered, Restores, BatchOf, Apply;
    OpenSteps.TargetIsValid(s);
    OpenSteps.CoveredHolds(s.files, Target(s));
    FileHoldsOpens(Last(s.files), Target(s));
    if s.doubt.Doubt? {
      TookIfVisible(s, s.proc.found);
    }
  }

  lemma SameAnswer(s: State, t: State)
    requires SameHistory(s, t)
    ensures Answer(t) == Answer(s)
  {
    hide TailRecords, BatchOf, Apply;
  }

  /** The log is emptied and the database is open, or that failed too. */
  ghost predicate Opens(s: State, t: State, u: State) {
    && s.proc.Opening? && t.files == s.files && t.fault == s.fault && t.attempts == s.attempts
    && t.base == Answer(u) && t.shown == t.base && t.half.Whole? && t.doubt.NoDoubt?
    && t.log == Wal.Log(s.proc.first + |s.proc.found|, [], [], Quiet) && t.proc == Up(Engine.Fresh(t.base.count))
    && t.applied == u.applied + if u.doubt.Doubt? then [UnsyncedCommitVisible(u)] else []
  }

  lemma ResetRuns(ss: seq<State>, es: seq<Event>, u: State, ok: bool) returns (ss': seq<State>, es': seq<Event>)
    requires SafePath(ss, es)
    requires var s := ss[|es|]; Inv(s) && s.proc.Opening? && s.proc.stage.Restored? && SameHistory(u, s)
    ensures SafePath(ss', es') && ss <= ss' && Inv(ss'[|es'|])
    ensures if ok then Opens(ss[|es|], ss'[|es'|], u) else ss'[|es'|].proc.Down?
  {
    hide Inv, Step, SafePath, ValidLog, DataFile.Open, SameHistory, Answer, Opens;
    PathSize(ss, es);
    var s := ss[|es|];
    InvBasics(s);
    OpeningFacts(s);
    RestoredOpens(s);
    OpenIsStep(s, ReopenReset);
    var v := DoOpen(s, ReopenReset);
    ss', es' := Onward(ss, es, ReopenReset, v);
    InvBasics(v);
    var e := if ok then ReopenSync else OpenFailed;
    OpenIsStep(v, e);
    var x := DoOpen(v, e);
    ss', es' := Onward(ss', es', e, x);
    if ok {
      assert Opens(s, x, u) by { OpensAfter(s, v, u); }
    }
  }

  lemma OpensAfter(s: State, v: State, u: State)
    requires Inv(s) && s.proc.Opening? && s.proc.stage.Restored? && SameHistory(u, s) && |s.files| > 0
    requires DataFile.Open(Last(s.files)).Opened? && v == DoReopenReset(s)
    requires DataFile.Open(Last(s.files)).pageCount == Target(s).count && Target(s) == Answer(s)
    ensures v.proc.Opening? && v.proc.stage.Reopening? && Opens(s, DoReopenSync(v), u)
  {
    hide DiskInv, HistoryInv, ValidLog, DataFile.Open, TailRecords, BatchOf, Apply, Took, OpenInv;
    OpenSteps.SameTarget(s, v);
    OpenSteps.ReopenSettles(v);
    SameAnswer(u, s);
    assert Took(v.log.recs, v.doubt, v.replay, v.proc.found) == Took(s.log.recs, s.doubt, s.replay, s.proc.found);
    if s.doubt.Doubt? {
      assert Took(s.log.recs, s.doubt, s.replay, s.proc.found) == UnsyncedCommitVisible(s) by { Visibly(s); }
    }
  }

  lemma Visibly(s: State)
    requires Inv(s) && s.proc.Opening? && s.doubt.Doubt?
    ensures Took(s.log.recs, s.doubt, s.replay, s.proc.found) == UnsyncedCommitVisible(s)
  {
    hide DiskInv, HistoryInv, ValidLog, Redo, Covered, Took, TailRecords, BatchOf, Target, RestoreInv, Restores,
      UnsyncedCommitVisible;
    TookIfVisible(s, s.proc.found);
  }

  /** What a failed reset of the scanned log may leave. */
  ghost predicate ResetMay(io: ResetIo, w: seq<Byte>, l: Log)
    requires ValidLog(l)
  {
    var o := WalLog.Open(w);
    io.ResetFailed? && o.Opened? ==> ResetLeaves(io.left, KeptOf(w, l), o.first + |o.records|)
  }

  /**
   * Opens the files that a run of the engine left behind: after a crash, after a failed or interrupted
   * opening, or after the process ended. Every earlier run, recovery included, is part of the new
   * handle's run. The database that comes up is the committed state of that run, with the commit in
   * doubt if and only if all its records stand in the log file. A log without a valid header is refused
   * and nothing is touched; any other failure leaves files that the next opening can take up.
   */
  method OpenExisting(
    file: File, contents: seq<Byte>, auto: AutoCheckpoint, io: OpenIo, ghost ss: seq<State>, ghost es: seq<Event>)
    returns (r: Recovered, db: Database?, ghost ss': seq<State>, ghost es': seq<Event>)
    requires SafePath(ss, es)
    requires var s := ss[|es|];
      && Inv(s) && |s.files| > 0 && ValidLog(s.log) && s.proc.Down? && file == Last(s.files)
      && (ReadsAs(contents, s.log) || WalLog.Open(contents).Refused?) && ResetMay(io.reset, contents, s.log)
    ensures SafePath(ss', es') && ss <= ss' && Inv(ss'[|es'|])
    ensures WalLog.Open(contents).Refused? ==> r == Refusal(contents, io.cut) && ss' == ss && es' == es
    ensures db == null <==> r != Ready
    ensures db == null ==> ss'[|es'|].proc.Down?
    ensures db != null ==> fresh(db) && db.Valid() && db.states == ss' && db.events == es' && !db.poisoned
    ensures r == Ready <==> AllGoesWell(contents, io)
    ensures db != null ==> db.auto == auto && db.nextTxn == 1
    ensures db != null ==> db.cached == map[] && db.Task().Idle?
    ensures db != null ==> var o := WalLog.Open(contents); db.wal.log == Log(o.first + |o.records|, [], [], Quiet)
    ensures db != null ==> var s := ss[|es|];
      && db.s.base == Answer(s) && db.s.shown == db.s.base && db.disk.pageCount == db.s.base.count
      && db.s.attempts == s.attempts
      && db.s.applied == s.applied + if s.doubt.Doubt? then [UnsyncedCommitVisible(s)] else []
  {
    hide Inv, Step, SafePath, WalLog.Open, ReadsAs, ValidLog, Redo, ImagesValid, Overlay, DataFile.Open, Versions,
      Survives, Handle.Valid, DiskManager.Valid, ResetMay, Cut, StoppedAt, Refusal, Answer, FaultInv, TailRecords;
    PathSize(ss, es);
    ghost var s := ss[|es|];
    ss', es', db := ss, es, null;
    ContentsFit(s, contents);
    var handle, now;
    ghost var done, at;
    r, handle, now, done, at := Recover(file, contents, io, s.log);
    RefusedFirst(file, contents, io, r, now, done, at);
    RecoveredIs(file, contents, io, r, now, done, at);
    if r.Stopped? && r.failure.LogRefused? {
      return;
    }
    KernelYields(s, contents);
    ss', es' := RecoverRuns(ss, es, contents, io, r, now, done, at);
    if r.Stopped? {
      return;
    }
    PathSize(ss', es');
    ghost var t := ss'[|es'|];
    RestoredOpens(t);
    InvFault(t);
    SameAnswer(s, t);
    var disk := new DiskManager.Attach(now, DataFile.Open(now).pageCount, t.files, t.fault);
    ResetReady(handle, io.reset, contents, s.log);
    var w := handle.Reset(io.reset);
    ss', es' := ResetRuns(ss', es', s, io.reset.ResetDone?);
    if w.Err? {
      r := Stopped(OpenFailure.ResetRefused);
      return;
    }
    PathSize(ss', es');
    db := new Database.Assemble(auto, disk, handle, ss', es');
  }

  lemma ContentsFit(s: State, w: seq<Byte>)
    requires Inv(s) && ValidLog(s.log) && (ReadsAs(w, s.log) || WalLog.Open(w).Refused?)
    ensures var o := WalLog.Open(w); o.Opened? ==> o.first + |o.records| < SEQ_LIMIT && ReadsAs(w, s.log)
  {
    hide Inv, WalLog.Open, ReadsAs, ValidLog;
    if WalLog.Open(w).Opened? {
      KernelOpens(w, s.log);
      var o := WalLog.Open(w);
      FoundFits(s.log, o.first, o.records);
    }
  }

  lemma FoundFits(l: Log, first: U64, records: seq<Record>)
    requires ValidLog(l)
    requires (l.phase.Resetting? && records == [] && (first == l.first || first in l.phase.nexts))
          || (records == l.recs + TailRecords(l) && first == l.first)
    ensures first + |records| < SEQ_LIMIT
  {
    hide Scan, Damage;
  }

  lemma RefusedFirst(file: File, contents: seq<Byte>, io: OpenIo, r: Recovered, now: File, done: Images, at: PageId)
    requires RecoverGives(file, contents, io, r, now, done, at)
    ensures WalLog.Open(contents).Refused? <==> r.Stopped? && r.failure.LogRefused?
    ensures WalLog.Open(contents).Refused? ==> r == Refusal(contents, io.cut)
  {
    hide WalLog.Open, ImagesValid, Redo, Overlay, StoppedAt;
  }

  lemma ResetReady(h: Handle, io: ResetIo, w: seq<Byte>, l: Log)
    requires ValidLog(l) && ResetMay(io, w, l) && WalLog.Open(w).Opened?
    requires h.log == KeptOf(w, l) && h.nextSeq == WalLog.Open(w).first + |WalLog.Open(w).records|
    ensures io.ResetFailed? ==> ResetLeaves(io.left, h.log, h.nextSeq)
  {
    hide WalLog.Open, ResetLeaves, ValidLog, Cut;
  }
}
