/** The engine's promises over whole runs: atomic, durable commits, and a database that always reopens. */
module CrashSafety {
  import opened Bytes
  import opened Pages
  import opened WalRecord
  import opened WalLog
  import opened Wal
  import opened DataFile
  import opened Recovery
  import opened Fsync
  import opened Store
  import opened Engine
  import opened DiskInvariant
  import opened EngineInvariant
  import opened OpenSteps
  import opened CacheSteps
  import opened CheckpointSteps
  import opened CommitSteps

  // ----- runs

  ghost predicate Step(s: State, e: Event, t: State) {
    |s.files| > 0 && ValidLog(s.log) && Enabled(s, e) && t == Do(s, e)
  }

  /** A run of the engine from a fresh database, with every crash, failure and interleaving the events allow. */
  ghost predicate IsRun(ss: seq<State>, es: seq<Event>) {
    && |ss| == |es| + 1 && ss[0] == Initial()
    && forall i :: 0 <= i < |es| ==> Step(ss[i], es[i], ss[i + 1])
  }

  /** A run free of the schedules under which the promise fails. */
  ghost predicate IsSafeRun(ss: seq<State>, es: seq<Event>) {
    IsRun(ss, es) && forall i :: 0 <= i < |es| ==> Safe(ss[i], es[i])
  }

  /** Every safe event keeps the invariant. */
  lemma StepKeeps(s: State, e: Event, t: State)
    requires Inv(s) && Step(s, e, t) && Safe(s, e)
    ensures Inv(t)
  {
    hide Inv, OpenEnabled, DoOpen, CacheEnabled, DoCache, WriteEnabled, DoWrite, CommitEnabled, DoCommit,
      CheckpointEnabled, DoCheckpoint, DoPowerLoss, Decided, Kept, Torn, Survives, ValidLog, WalLog.Open;
    match e
    case World(PowerLoss(c, w)) => PowerLossKeeps(s, c, w);
    case World(Kill) => KillKeeps(s);
    case Reopen(o) => OpenKeeps(s, o);
    case Cache(c) => CacheKeeps(s, s.proc.mem, c);
    case Begin => BeginKeeps(s, s.proc.mem);
    case Writer(w) => WriteKeepsInv(s, s.proc.mem, w);
    case Committing(c) => CommitKeeps(s, s.proc.mem, c);
    case CheckpointCheck(_) => CheckKeeps(s, s.proc.mem, e.t);
    case CheckpointLock(i) => CheckpointLockKeeps(s, s.proc.mem, i);
    case Checkpointing(c) => CheckpointKeeps(s, s.proc.mem, c);
  }

  lemma CheckKeeps(s: State, m: Memory, t: Tid)
    requires Inv(s) && s.proc == Up(m)
    ensures Inv(s.(proc := Up(m.(checkpointsChecked := m.checkpointsChecked + {t}))))
  {
    hide DiskInv, HistoryInv, ValidLog, DirtyInv, IdInv, PhaseInv, TaskInv, CountInv, Shows, HalfInv;
    BookkeepingKeeps(s, m, m.(checkpointsChecked := m.checkpointsChecked + {t}));
  }

  /** The redo invariant, and all else, holds in every state of every safe run. */
  lemma {:induction false} RunKeeps(ss: seq<State>, es: seq<Event>, i: nat)
    requires IsSafeRun(ss, es) && i < |ss|
    ensures Inv(ss[i])
    decreases i
  {
    hide Inv, Step, Safe, Initial;
    if i == 0 {
      InitialInv();
    } else {
      RunKeeps(ss, es, i - 1);
      assert Step(ss[i - 1], es[i - 1], ss[i - 1 + 1]);
      StepKeeps(ss[i - 1], es[i - 1], ss[i]);
    }
  }

  /**
   * The redo invariant in the terms of one page: in every state of every safe run, its committed
   * contents stand in every file a crash could leave, or its last image in the durable log is those
   * contents. A page changed in memory is always of the second kind, and while the log is being
   * reset every page is of the first, so a reset never discards the only copy of anything. While a
   * restart replays a commit that was never fsynced, this holds of all pages the commit leaves alone,
   * and once that replay is fsynced, every page with the commit applied is of the first kind.
   */
  lemma RedoInvariant(ss: seq<State>, es: seq<Event>, i: nat, k: PageId, c: File)
    requires IsSafeRun(ss, es) && i < |ss| && |ss[i].files| > 0 && Torn(c, ss[i].files)
    ensures PageRecoverable(ss[i], k, c)
  {
    hide Inv, Torn, PageRecoverable, Step, Safe, Initial;
    RunKeeps(ss, es, i);
    RedoOfState(ss[i], k, c);
  }

  ghost predicate PageRecoverable(s: State, k: PageId, c: File) {
    var redo := Redo(s.log.recs);
    var logged := k in s.base.pages && k in redo && redo[k] == s.base.pages[k];
    && (k in s.base.pages && !Replayed(s, k) ==> Holds(c, k, s.base.pages[k]) || logged)
    && (s.proc.Up? && k in s.proc.mem.dirty ==> logged)
    && (s.replay.Untouched? && s.log.phase.Resetting? && k in s.base.pages ==> Holds(c, k, s.base.pages[k]))
    && (s.replay.Landed? && s.doubt.Doubt? && k in Apply(s.base, s.doubt.txn).pages ==>
          Holds(c, k, Apply(s.base, s.doubt.txn).pages[k]))
  }

  /** Page `k` may have been overwritten by the replay of a commit that was never fsynced. */
  ghost predicate Replayed(s: State, k: PageId) {
    s.replay.Landed? || (s.replay.Started? && s.doubt.Doubt? && k in Effect(s.doubt.txn))
  }

  lemma RedoOfState(s: State, k: PageId, c: File)
    requires Inv(s) && |s.files| > 0 && Torn(c, s.files)
    ensures PageRecoverable(s, k, c)
  {
    hide ValidDb, ValidLog, HistoryInv, TailInv, Torn, Holds, Redo, ImagesValid, AllHold, Versions, FaultInv, CountInv,
      ReaderInv, IdInv, PhaseInv, TaskInv, Shows, HalfInv, Verified, OpenInv, Apply, Effect, TailRecords, BatchOf,
      Repairable;
    if k in s.base.pages && AllHold(s.files, k, s.base.pages[k]) {
      TornKeeps(c, s.files, k, s.base.pages[k]);
    }
    if s.replay.Landed? && k in Apply(s.base, s.doubt.txn).pages {
      TornKeeps(c, s.files, k, Apply(s.base, s.doubt.txn).pages[k]);
    }
  }

  // ----- reopening after a crash

  datatype Reopened = Usable(file: File, count: U64) | Unusable

  /** Opening the two files in one go: scan the log, replay it into the data file, validate the header and length. */
  ghost function OpenDatabase(c: File, w: seq<Byte>): Reopened {
    match WalLog.Open(w)
    case Refused(_) => Unusable
    case Opened(_, found, _, _) =>
      if !ImagesValid(found, Committed(found)) then Unusable
      else
        var f := Overlay(c, Redo(found));
        match DataFile.Open(f)
        case Refused(_) => Unusable
        case Opened(n) => Usable(f, n)
  }

  /** The file opens, with the database's page count, and every data page reads back and verifies. */
  ghost predicate Yields(o: Reopened, d: Db) {
    && o.Usable? && o.count == d.count
    && forall k: PageId :: 0 < k < d.count && k in d.pages ==> ReadPage(o.file, o.count, k) == Read(d.pages[k])
  }

  /** How the attempts turned out, given what a crash left of the log. */
  ghost function Verdict(s: State, w: seq<Byte>): seq<bool>
    requires WalLog.Open(w).Opened?
  {
    if s.doubt.NoDoubt? then s.applied
    else s.applied + [Took(s.log.recs, s.doubt, s.replay, WalLog.Open(w).records)]
  }

  /** What a crash leaves, if it can be told apart from a torn commit, reopens with or without the commit in doubt. */
  lemma CrashYields(s: State, c: File, w: seq<Byte>)
    requires Inv(s) && Torn(c, s.files) && Survives(w, s.log)
    requires WalLog.Open(w).Opened? ==> Decided(s.log.recs, s.base, s.doubt, s.replay, WalLog.Open(w).records)
    ensures WalLog.Open(w).Opened?
    ensures Yields(OpenDatabase(c, w),
                   Settled(s.base, s.doubt, Took(s.log.recs, s.doubt, s.replay, WalLog.Open(w).records)))
  {
    hide WalLog.Open, ImagesValid, Redo, Torn, Survives, ValidDb, Covered, DiskInv, ValidLog, DataFile.Open, ReadPage,
      MayRead, UpInv, OpenInv, Overlay, Took, Decided, Yields, HistoryInv, Apply;
    SurvivorOpens(w, s.log);
    var found := WalLog.Open(w).records;
    var d := Settled(s.base, s.doubt, Took(s.log.recs, s.doubt, s.replay, found));
    FoundRestores(s.files, s.fault, s.log, s.base, s.doubt, s.replay, found);
    RestoredFile(c, s.files, d, found);
    FileHoldsOpens(Overlay(c, Redo(found)), d);
    OpensAs(c, w, d);
  }

  lemma ReopenYields(s: State, c: File, w: seq<Byte>)
    requires Inv(s) && Torn(c, s.files) && Survives(w, s.log) && Safe(s, World(PowerLoss(c, w)))
    ensures WalLog.Open(w).Opened?
    ensures |Verdict(s, w)| == |s.attempts|
    ensures Yields(OpenDatabase(c, w), Resolve(s.attempts, Verdict(s, w)))
  {
    hide WalLog.Open, Torn, Survives, DiskInv, ValidLog, UpInv, OpenInv, Resolve, Took, Decided, Yields, OpenDatabase,
      Apply;
    CrashYields(s, c, w);
    var took := Took(s.log.recs, s.doubt, s.replay, WalLog.Open(w).records);
    SettleKeepsHistory(s, took);
    SettledResolves(s, took, w);
  }

  lemma SettledResolves(s: State, took: bool, w: seq<Byte>)
    requires HistoryInv(s) && HistoryInv(Settle(s, took)) && WalLog.Open(w).Opened?
    requires took == Took(s.log.recs, s.doubt, s.replay, WalLog.Open(w).records)
    ensures Settle(s, took).applied == Verdict(s, w) && |Verdict(s, w)| == |s.attempts|
    ensures Settle(s, took).base == Resolve(s.attempts, Verdict(s, w))
  {
    hide Resolve, WalLog.Open, Took, Apply;
  }

  /** Power lost in `s`, with `c` and `w` left of the files: reopening gives exactly the commits that took effect. */
  ghost predicate Recovers(s: State, c: File, w: seq<Byte>) {
    && WalLog.Open(w).Opened?
    && var v := Verdict(s, w);
    && |v| == |s.attempts| && s.applied <= v
    && (forall i :: 0 <= i < |v| && s.attempts[i].acked ==> v[i])
    && Yields(OpenDatabase(c, w), Resolve(s.attempts, v))
  }

  lemma StateRecovers(s: State, c: File, w: seq<Byte>)
    requires Inv(s) && Torn(c, s.files) && Survives(w, s.log) && Safe(s, World(PowerLoss(c, w)))
    ensures Recovers(s, c, w)
  {
    hide WalLog.Open, Torn, Survives, ValidLog, DiskInv, UpInv, OpenInv, Yields, Resolve, OpenDatabase, Safe, Took;
    ReopenYields(s, c, w);
  }

  /**
   * Crash atomicity and durability. Take any safe run, of any length, with any transactions,
   * evictions, checkpoints, I/O failures, restarts and earlier crashes; lose power in its last state,
   * however the unsynced writes tear. Reopening succeeds, and yields exactly the attempts that took
   * effect, applied in order: every acknowledged commit is among them, what was settled before stays
   * settled, and the one commit that may be in doubt took effect whole or not at all.
   */
  lemma CrashAtomicity(ss: seq<State>, es: seq<Event>, c: File, w: seq<Byte>)
    requires IsSafeRun(ss, es)
    requires var s := ss[|ss| - 1]; |s.files| > 0 && ValidLog(s.log) && Torn(c, s.files) && Survives(w, s.log)
    requires Safe(ss[|ss| - 1], World(PowerLoss(c, w)))
    ensures Recovers(ss[|ss| - 1], c, w)
  {
    hide Inv, WalLog.Open, Torn, Survives, ValidLog, Recovers, Safe, Step, Initial;
    RunKeeps(ss, es, |ss| - 1);
    StateRecovers(ss[|ss| - 1], c, w);
  }

  lemma LastIsTorn(vs: seq<File>)
    requires Versions(vs)
    ensures Torn(Last(vs), vs)
  {
    var f := Last(vs);
    forall i | 0 <= i < |f|
      ensures exists j :: 0 <= j < |vs| && f[i] == ByteAt(vs[j], i)
    {
      assert f[i] == ByteAt(vs[|vs| - 1], i);
    }
  }

  /**
   * The process dies in any state of any safe run and the machine does not: reopening gives a definite
   * answer about the last commit, in particular about one whose log write or fsync failed. It is in
   * exactly if all its records stand in the log file.
   */
  lemma RestartAnswers(ss: seq<State>, es: seq<Event>, i: nat, w: seq<Byte>)
    requires IsSafeRun(ss, es) && i < |ss| && |ss[i].files| > 0 && ValidLog(ss[i].log) && ReadsAs(w, ss[i].log)
    ensures var s := ss[i];
      Yields(OpenDatabase(Last(s.files), w),
             Settled(s.base, s.doubt, UnsyncedCommitVisible(s)))
  {
    hide Inv, ReadsAs, ValidLog, Yields, OpenDatabase, Step, Safe, Initial, UnsyncedCommitVisible;
    RunKeeps(ss, es, i);
    KernelYields(ss[i], w);
  }

  lemma KernelYields(s: State, w: seq<Byte>)
    requires Inv(s) && ReadsAs(w, s.log)
    ensures Yields(OpenDatabase(Last(s.files), w),
                   Settled(s.base, s.doubt, UnsyncedCommitVisible(s)))
  {
    hide WalLog.Open, ImagesValid, Redo, Torn, ReadsAs, ValidDb, Covered, DiskInv, ValidLog, DataFile.Open, ReadPage,
      BatchOf, Apply, MayRead, UpInv, OpenInv, Overlay, HistoryInv, TailRecords, UnsyncedCommitVisible, Decided, Took,
      Yields;
    KernelOpens(w, s.log);
    var found := WalLog.Open(w).records;
    KernelDecides(s, found);
    assert Decided(s.log.recs, s.base, s.doubt, s.replay, found) by { DecidedEither(s, found); }
    var d := Settled(s.base, s.doubt, Took(s.log.recs, s.doubt, s.replay, found));
    FoundRestores(s.files, s.fault, s.log, s.base, s.doubt, s.replay, found);
    InvBasics(s);
    LastIsTorn(s.files);
    RestoredFile(Last(s.files), s.files, d, found);
    FileHoldsOpens(Overlay(Last(s.files), Redo(found)), d);
    assert Yields(OpenDatabase(Last(s.files), w), d) by { OpensAs(Last(s.files), w, d); }
    if s.doubt.Doubt? {
      TookIfVisible(s, found);
    }
  }

  lemma OpensAs(c: File, w: seq<Byte>, d: Db)
    requires WalLog.Open(w).Opened? && RedoInv(WalLog.Open(w).records, d)
    requires var f := Overlay(c, Redo(WalLog.Open(w).records));
      DataFile.Open(f) == DataFile.Opened(d.count)
      && forall k: PageId :: 0 < k < d.count && k in d.pages ==> ReadPage(f, d.count, k) == Read(d.pages[k])
    ensures Yields(OpenDatabase(c, w), d)
  {
    hide WalLog.Open, ImagesValid, Redo, DataFile.Open, ReadPage, Overlay;
  }

  lemma DecidedEither(s: State, found: seq<Record>)
    requires s.replay.Untouched? || Took(s.log.recs, s.doubt, s.replay, found)
    ensures Decided(s.log.recs, s.base, s.doubt, s.replay, found)
  {
  }

  lemma TookIfVisible(s: State, found: seq<Record>)
    requires Inv(s) && s.doubt.Doubt?
    requires found == s.log.recs + TailRecords(s.log) || (s.log.phase.Resetting? && found == [])
    ensures Took(s.log.recs, s.doubt, s.replay, found) <==> UnsyncedCommitVisible(s)
  {
    hide ValidDb, ValidLog, FaultInv, Versions, RedoInv, TailInv, Covered, HistoryInv, UpInv, OpenInv, TailRecords,
      Redo, BatchOf, Repairable, Absorbed;
    var recs, batch := s.log.recs, BatchOf(s.doubt.txn, s.doubt.id);
    BatchNotEmpty(s.doubt.txn, s.doubt.id);
    assert (recs + batch)[|recs|..] == batch && (recs + TailRecords(s.log))[|recs|..] == TailRecords(s.log);
  }

  // ----- recovery in steps, interrupted at will

  /** The steps of opening that get somewhere. */
  predicate Succeeds(e: OpenEvent) {
    !e.CutFailed? && !e.RestoreFailed? && !e.RestoreSyncFailed? && !e.OpenFailed?
  }

  /** In every state in which the database is not open, opening it has a step that succeeds. */
  lemma OpeningNeverStuck(s: State) returns (e: OpenEvent)
    requires Inv(s) && !s.proc.Up?
    ensures Succeeds(e) && OpenEnabled(s, e)
  {
    hide WalLog.Open, Redo, ValidDb, Covered, DiskInv, ValidLog, HistoryInv, DataFile.Open, ReadsAs, ImagesValid, Took,
      Firm, RestoreInv;
    if s.proc.Down? {
      var w := LogNow(s.log);
      e := OpenLog(w);
    } else {
      match s.proc.stage
      case Truncate => e := CutTail;
      case Restore(todo) =>
        if todo == map[] {
          e := RestoreSync;
        } else {
          var k :| k in todo;
          e := RestorePage(k);
        }
      case Restored =>
        TargetIsValid(s);
        CoveredHolds(s.files, Target(s));
        FileHoldsOpens(Last(s.files), Target(s));
        e := ReopenReset;
      case Reopening(_) => e := ReopenSync;
    }
  }

  lemma LogNow(l: Log) returns (w: seq<Byte>)
    requires ValidLog(l)
    ensures ReadsAs(w, l) && WalLog.Open(w).Opened?
  {
    hide WalLog.Open, Encoded, Decode, Scan, EncodeHeader, Damage;
    if l.phase.Resetting? {
      w := EncodeHeader(l.first);
      assert Headed(l, l.first);
    } else {
      w := LogBytes(l.first, l.recs, l.tail);
    }
    KernelOpens(w, l);
  }

  /** How much of opening is still to come: the stage, and the images still to be written. */
  function StagesLeft(p: Process): nat {
    match p
    case Down => 5
    case Opening(_, _, Truncate) => 4
    case Opening(_, _, Restore(_)) => 3
    case Opening(_, _, Restored) => 2
    case Opening(_, _, Reopening(_)) => 1
    case Up(_) => 0
  }

  function ImagesLeft(p: Process): nat {
    if p.Opening? && p.stage.Restore? then |p.stage.todo| else 0
  }

  /** Every step that succeeds brings the database nearer to being open. */
  lemma OpeningProgresses(s: State, e: OpenEvent)
    requires |s.files| > 0 && ValidLog(s.log) && OpenEnabled(s, e) && Succeeds(e)
    ensures var p, q := s.proc, DoOpen(s, e).proc;
      StagesLeft(q) < StagesLeft(p) || (StagesLeft(q) == StagesLeft(p) && ImagesLeft(q) < ImagesLeft(p))
  {
    hide WalLog.Open, Redo, ValidLog, DataFile.Open, ReadsAs, ImagesValid, Took, AfterFsync, Cut;
  }

  /** The events `es`, all of them steps of opening that succeed, lead through the states `ss`. */
  ghost predicate Advances(ss: seq<State>, es: seq<OpenEvent>) {
    |ss| == |es| + 1 && forall i :: 0 <= i < |es| ==> Succeeds(es[i]) && Step(ss[i], Reopen(es[i]), ss[i + 1])
  }

  lemma AdvanceFirst(s: State, e: OpenEvent, ss: seq<State>, es: seq<OpenEvent>)
    requires Advances(ss, es) && Succeeds(e) && Step(s, Reopen(e), ss[0])
    ensures Advances([s] + ss, [e] + es) && ([s] + ss)[|es| + 1] == ss[|es|]
  {
    hide Step, Succeeds;
    forall i | 0 <= i < |[e] + es|
      ensures Succeeds(([e] + es)[i]) && Step(([s] + ss)[i], Reopen(([e] + es)[i]), ([s] + ss)[i + 1])
    {
      if i > 0 {
        assert Succeeds(es[i - 1]) && Step(ss[i - 1], Reopen(es[i - 1]), ss[i - 1 + 1]);
      }
    }
  }

  /** So, left alone, opening always finishes, from every state a crash or kill can leave it in. */
  lemma OpeningFinishes(s: State) returns (es: seq<OpenEvent>, ss: seq<State>)
    requires Inv(s)
    ensures Advances(ss, es) && ss[0] == s && ss[|es|].proc.Up?
    decreases StagesLeft(s.proc), ImagesLeft(s.proc)
  {
    hide Inv, OpenEnabled, DoOpen, Succeeds, StagesLeft, ImagesLeft, Step;
    if s.proc.Up? {
      es, ss := [], [s];
    } else {
      var e := OpeningNeverStuck(s);
      assert |s.files| > 0 && ValidLog(s.log) by { InvBasics(s); }
      OpenKeeps(s, e);
      OpeningProgresses(s, e);
      OpenIsStep(s, e);
      var es', ss' := OpeningFinishes(DoOpen(s, e));
      AdvanceFirst(s, e, ss', es');
      es, ss := [e] + es', [s] + ss';
    }
  }

  lemma OpenIsStep(s: State, e: OpenEvent)
    requires |s.files| > 0 && ValidLog(s.log) && OpenEnabled(s, e)
    ensures Step(s, Reopen(e), DoOpen(s, e))
  {
    hide ValidLog, OpenEnabled, DoOpen;
  }

  lemma InvBasics(s: State)
    requires Inv(s)
    ensures |s.files| > 0 && ValidLog(s.log) && Versions(s.files)
  {
    hide HistoryInv, UpInv, OpenInv, ValidLog, Versions, ValidDb, FaultInv, RedoInv, TailInv, ReplayInv;
  }
}
