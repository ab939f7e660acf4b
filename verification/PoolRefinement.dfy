/**
 * The engine's machine knows the page cache by its dirty pages alone. That is enough: what the cache shows
 * is its dirty pages over the file, and whatever a sequence of calls does to file and dirty pages is a run
 * of the machine.
 */
module PoolRefinement {
  import opened Pages
  import opened DataFile
  import opened Recovery
  import opened Engine
  import opened EngineInvariant
  import opened CrashSafety
  import opened Runs
  import opened BufferPool
  import Disk
  import Pool
  import Database

  /** Clean frames do not matter: every page shows its dirty copy, or else the file. */
  lemma DirtyOverFile(c: Picture, k: PageId)
    requires CleanMatches(c)
    ensures Shown(c, k) == if k in DirtyPages(c) then DirtyPages(c)[k] else Disk.DiskBytes(c.file, k)
  {
    hide Holds, Disk.DiskBytes;
    if k in c.table && c.table[k] < |c.frames| && !c.frames[c.table[k]].dirty {
      Disk.DiskBytesOfHolds(c.file, k, c.frames[c.table[k]].page);
    }
  }

  /** So it is for the whole cache. */
  lemma CacheShows(cache: Pool.Cache, k: PageId)
    requires cache.Valid()
    ensures cache.Contents(k)
         == (if k in cache.Dirty() then cache.Dirty()[k] else Disk.DiskBytes(cache.disk.file, k))[4..]
  {
    hide Inverse, FreeListed, PinsCounted, Routed, CleanMatches, Shown, DirtyPages;
    DirtyOverFile(cache.shards[cache.Home(k)].Now(), k);
  }

  /** The machine has the cache's dirty pages and its file. */
  ghost predicate Matches(s: State, v: View) {
    s.proc.Up? && |s.files| > 0 && s.proc.mem.dirty == v.dirty && Last(s.files) == v.file
  }

  /** Nothing has changed but files, dirty pages and the task at hand. */
  ghost predicate OnlyPages(s: State, t: State) {
    && s.proc.Up? && t.proc.Up?
    && t == s.(files := t.files, fault := t.fault,
               proc := Up(s.proc.mem.(dirty := t.proc.mem.dirty, task := t.proc.mem.task)))
  }

  lemma CacheEventLeads(s: State, m: Memory, e: CacheEvent)
    requires Inv(s) && s.proc == Up(m) && |s.files| > 0 && CacheEnabled(s, m, e)
    ensures SafeLeads(s, [Cache(e)], DoCache(s, m, e)) && Inv(DoCache(s, m, e))
  {
    hide Inv, CacheEnabled, DoCache, SafeLeads, Safe, Step;
    Database.CacheStep(s, m, e);
    OneStep(s, Cache(e), DoCache(s, m, e));
  }

  lemma OneStep(s: State, e: Event, t: State)
    requires Inv(s) && Step(s, e, t) && Safe(s, e)
    ensures SafeLeads(s, [e], t) && Inv(t)
  {
    hide Inv, Safe, Enabled, Do;
    StepKeeps(s, e, t);
    assert [e][1..] == [];
    assert SafeLeads(t, [], t);
  }

  /** A write-back, successful or failed, is one event of the machine. */
  lemma WriteBackIsEvent(s: State, m: Memory, v: View, v': View, k: PageId) returns (e: CacheEvent)
    requires Inv(s) && s.proc == Up(m) && Matches(s, v) && (SavesPage(v, v', k) || FailsPage(v, v', k))
    ensures CacheEnabled(s, m, e)
    ensures Matches(DoCache(s, m, e), v') && OnlyPages(s, DoCache(s, m, e)) && DoCache(s, m, e).proc.mem.task == m.task
  {
    hide Inv, Sealed, WritePage, PartlyWritten;
    Database.DirtyIsVerified(s, m, k);
    if SavesPage(v, v', k) {
      e := Evict(k);
    } else {
      e := EvictFailed(k, v'.file);
      assert v.dirty[k := v.dirty[k]] == v.dirty;
    }
  }

  /** What a fetch or a refused install does to file and dirty pages is no event or one event of the machine. */
  lemma CacheRefines(s: State, v: View, v': View) returns (es: seq<Event>, t: State)
    requires Inv(s) && Matches(s, v) && OneWriteBack(v, v')
    ensures |es| <= 1 && SafeLeads(s, es, t) && Inv(t)
    ensures Matches(t, v') && OnlyPages(s, t) && t.proc.mem.task == s.proc.mem.task
  {
    hide Inv, SavesPage, FailsPage, CacheEnabled, DoCache;
    if v' == v {
      es, t := [], s;
    } else {
      var k :| SavesPage(v, v', k) || FailsPage(v, v', k);
      var e := WriteBackIsEvent(s, s.proc.mem, v, v', k);
      es, t := [Cache(e)], DoCache(s, s.proc.mem, e);
      CacheEventLeads(s, s.proc.mem, e);
    }
  }

  /** An install while a commit publishes is at most one such event and then the machine's install. */
  lemma InstallRefines(s: State, image: Image, v: View, v': View) returns (es: seq<Event>, t: State)
    requires Inv(s) && Matches(s, v) && Installs(image.id, image.page, v, v')
    requires s.proc.mem.task.Publishing? && s.proc.mem.task.todo != [] && s.proc.mem.task.todo[0] == image
    ensures SafeLeads(s, es, t) && Inv(t)
    ensures Matches(t, v') && OnlyPages(s, t)
    ensures t.proc.mem.task == s.proc.mem.task.(todo := s.proc.mem.task.todo[1..])
  {
    hide Inv, OneWriteBack, Safe, Step, SafeLeads;
    var mid: View :| OneWriteBack(v, mid) && v' == View(mid.dirty[image.id := image.page], mid.file);
    var u;
    es, u := CacheRefines(s, v, mid);
    t := DoCommit(u, u.proc.mem, Install);
    Database.CommitStep(u, u.proc.mem, Install);
    OneStep(u, Committing(Install), t);
    SafeLeadsOn(s, es, u, [Committing(Install)], t);
    es := es + [Committing(Install)];
  }

  // ----- flushing the whole cache

  /** Writing one dirty page of a checkpoint. */
  lemma FlushOneRefines(s: State, v: View, k: PageId) returns (t: State)
    requires Inv(s) && Matches(s, v) && s.proc.mem.task == Flushing(v.dirty.Keys) && k in v.dirty
    ensures SafeLeads(s, [Checkpointing(FlushPage(k))], t) && Inv(t) && OnlyPages(s, t)
    ensures Matches(t, View(v.dirty - {k}, WritePage(v.file, k, Sealed(v.dirty[k]))))
    ensures t.proc.mem.task == Flushing((v.dirty - {k}).Keys)
  {
    hide Inv, Sealed, WritePage, Safe, Step, SafeLeads;
    var m := s.proc.mem;
    Database.CheckpointStep(s, m, FlushPage(k));
    t := DoFlushPage(s, m, k);
    OneStep(s, Checkpointing(FlushPage(k)), t);
    assert v.dirty.Keys - {k} == (v.dirty - {k}).Keys;
  }

  /** Writing back the pages of `done`, one after another. */
  lemma {:induction false} SavedRefines(s: State, v: View, done: Images, v': View) returns (es: seq<Event>, t: State)
    requires Inv(s) && Matches(s, v) && s.proc.mem.task == Flushing(v.dirty.Keys) && SavedAll(v, done, v')
    ensures SafeLeads(s, es, t) && Inv(t) && OnlyPages(s, t)
    ensures Matches(t, v') && t.proc.mem.task == Flushing(v'.dirty.Keys)
    decreases |done|
  {
    hide Inv, Sealed, WritePage, SafeLeads, Overlay, SavedAll;
    if done == map[] {
      es, t := [], s;
      SafeNowhere(s);
      NothingSaved(v, v');
    } else {
      var k :| k in done;
      SavedPage(v, done, v', k);
      var u := FlushOneRefines(s, v, k);
      var mid := View(v.dirty - {k}, WritePage(v.file, k, done[k]));
      SavedRest(v, done, k, v');
      var rest;
      rest, t := SavedRefines(u, mid, done - {k}, v');
      SafeLeadsOn(s, [Checkpointing(FlushPage(k))], u, rest, t);
      es := [Checkpointing(FlushPage(k))] + rest;
    }
  }

  lemma NothingSaved(v: View, v': View)
    requires SavedAll(v, map[], v')
    ensures v' == v
  {
    hide Overlay;
    OverlayNothing(v.file);
    assert v.dirty - {} == v.dirty;
  }

  lemma SavedPage(v: View, done: Images, v': View, k: PageId)
    requires SavedAll(v, done, v') && k in done
    ensures k in v.dirty && done[k] == Sealed(v.dirty[k])
  {
    hide Sealed, Overlay;
  }

  lemma SafeNowhere(s: State)
    ensures SafeLeads(s, [], s)
  {
  }

  /** The pages of `done` can be written in any order. */
  lemma SavedRest(v: View, done: Images, k: PageId, v': View)
    requires SavedAll(v, done, v') && k in done
    ensures SavedAll(View(v.dirty - {k}, WritePage(v.file, k, done[k])), done - {k}, v')
  {
    hide Sealed, WritePage, Overlay;
    OverlayFirst(v.file, done, k);
    LessRest(v.dirty, done, k);
  }

  lemma OverlayFirst(f: File, done: Images, k: PageId)
    requires k in done
    ensures Overlay(WritePage(f, k, done[k]), done - {k}) == Overlay(f, done)
  {
    hide WritePage, Overlay;
    OverlayNothing(f);
    OverlayStep(f, map[], k, done[k]);
    OverlayTwice(f, map[k := done[k]], done - {k});
    assert map[k := done[k]] + (done - {k}) == done;
  }

  lemma LessRest(dirty: Images, done: Images, k: PageId)
    requires k in done
    ensures (dirty - {k}) - (done - {k}).Keys == dirty - done.Keys
  {
  }

  /**
   * Flushing the whole cache, the shards in whatever order and with whatever failure, is the flush of a
   * checkpoint: it ends with nothing left to write, or poisons the database.
   */
  lemma FlushRefines(s: State, v: View, done: Images, ok: bool, v': View) returns (es: seq<Event>, t: State)
    requires Inv(s) && Matches(s, v) && s.proc.mem.task == Flushing(v.dirty.Keys) && Flushes(v, done, ok, v')
    ensures SafeLeads(s, es, t) && Inv(t) && Matches(t, v')
    ensures if ok then OnlyPages(s, t) && t.proc.mem.task == Flushing(v'.dirty.Keys)
            else t.proc.mem.poisoned && t.proc.mem.task.Idle? && Database.OnlyTask(s, t)
  {
    hide Inv, SafeLeads, SavedAll, Stops;
    if ok {
      es, t := SavedRefines(s, v, done, v');
    } else {
      var mid: View :| SavedAll(v, done, mid) && Stops(mid, v');
      var u;
      es, u := SavedRefines(s, v, done, mid);
      var e;
      e, t := StopRefines(u, mid, v');
      SafeLeadsOn(s, es, u, [e], t);
      es := es + [e];
    }
  }

  /** A write that was refused or failed ends the checkpoint. */
  lemma StopRefines(s: State, v: View, v': View) returns (e: Event, t: State)
    requires Inv(s) && Matches(s, v) && s.proc.mem.task == Flushing(v.dirty.Keys) && Stops(v, v')
    ensures SafeLeads(s, [e], t) && Inv(t) && Matches(t, v')
    ensures t.proc.mem.poisoned && t.proc.mem.task.Idle? && Database.OnlyTask(s, t)
  {
    hide Inv, Sealed, WritePage, PartlyWritten, Safe, Step, SafeLeads;
    var k :| k in v.dirty && (v' == v || FailsPage(v, v', k));
    var m := s.proc.mem;
    Database.DirtyIsVerified(s, m, k);
    StopsInPart(v, v', k);
    e := Checkpointing(FlushFailed(k, v'.file));
    t := Poison(WriteInPart(s, k, v'.file));
    FailedFlush(s, m, k, v'.file, t);
    OneStep(s, e, t);
  }

  lemma StopsInPart(v: View, v': View, k: PageId)
    requires k in v.dirty && (v' == v || FailsPage(v, v', k)) && Sealed(v.dirty[k]) == v.dirty[k]
    ensures v'.dirty == v.dirty && PartlyWritten(v'.file, v.file, k, Sealed(v.dirty[k]))
  {
    hide Sealed, WritePage, PartlyWritten;
    NothingOfIt(v.file, k, Sealed(v.dirty[k]));
    assert v.dirty[k := v.dirty[k]] == v.dirty;
  }

  lemma FailedFlush(s: State, m: Memory, k: PageId, left: File, t: State)
    requires Inv(s) && s.proc == Up(m) && |s.files| > 0 && m.task == Flushing(m.dirty.Keys) && k in m.dirty
    requires PartlyWritten(left, Last(s.files), k, Sealed(m.dirty[k])) && t == Poison(WriteInPart(s, k, left))
    ensures Safe(s, Checkpointing(FlushFailed(k, left))) && Step(s, Checkpointing(FlushFailed(k, left)), t)
  {
    hide Inv, Sealed, WritePage, PartlyWritten, Safe, Step;
    Database.CheckpointStep(s, m, FlushFailed(k, left));
  }

  /** A write none of whose bytes arrived. */
  lemma NothingOfIt(f: File, k: nat, p: Page)
    ensures PartlyWritten(f, f, k, p)
  {
  }

  // ----- sequences of calls

  /** A fetch, or an install that fails; an install that succeeds. */
  datatype Call = Fetches | Publishes(image: Image)

  ghost predicate Calls(v: View, c: Call, v': View) {
    match c
    case Fetches => OneWriteBack(v, v')
    case Publishes(image) => Installs(image.id, image.page, v, v')
  }

  /** The cache as each call leaves it. */
  ghost predicate CallPath(vs: seq<View>, calls: seq<Call>) {
    |vs| == |calls| + 1 && forall i :: 0 <= i < |calls| ==> Calls(vs[i], calls[i], vs[i + 1])
  }

  function Published(calls: seq<Call>): seq<Image>
    decreases |calls|
  {
    if calls == [] then []
    else (if calls[0].Publishes? then [calls[0].image] else []) + Published(calls[1..])
  }

  /** The machine may go on with these calls: it is about to install the very images they install. */
  ghost predicate Expects(task: Task, calls: seq<Call>) {
    Published(calls) == [] || (task.Publishing? && Published(calls) <= task.todo)
  }

  function TaskAfter(task: Task, calls: seq<Call>): Task {
    if task.Publishing? && |Published(calls)| <= |task.todo| then
      task.(todo := task.todo[|Published(calls)|..])
    else task
  }

  /**
   * Any sequence of calls to the cache, by whatever threads, is a run of the machine: for every path of the
   * cache there is one of the machine through the same dirty pages and files, on which nothing else changes
   * but the images still to be published.
   */
  lemma {:induction false} CallsRefine(s: State, vs: seq<View>, calls: seq<Call>) returns (es: seq<Event>, t: State)
    requires CallPath(vs, calls) && Inv(s) && Matches(s, vs[0]) && Expects(s.proc.mem.task, calls)
    ensures SafeLeads(s, es, t) && Inv(t) && Matches(t, vs[|calls|]) && OnlyPages(s, t)
    ensures t.proc.mem.task == TaskAfter(s.proc.mem.task, calls)
    decreases |calls|
  {
    hide Inv, SafeLeads, OneWriteBack, Installs, Matches, Expects, TaskAfter;
    assert s.proc.Up? by { MatchesUp(s, vs[0]); }
    if calls == [] {
      es, t := [], s;
      SafeNowhere(s);
      NoCalls(s.proc.mem.task);
    } else {
      ExpectsFirst(s.proc.mem.task, calls);
      var u;
      es, u := CallRefines(s, vs[0], calls[0], vs[1]);
      var rest;
      rest, t := CallsRefine(u, vs[1..], calls[1..]);
      SafeLeadsOn(s, es, u, rest, t);
      es := es + rest;
    }
  }

  lemma MatchesUp(s: State, v: View)
    requires Matches(s, v)
    ensures s.proc.Up?
  {
  }

  lemma NoCalls(task: Task)
    ensures TaskAfter(task, []) == task
  {
    assert task.Publishing? ==> task.todo[0..] == task.todo;
  }

  function TaskStep(task: Task, c: Call): Task {
    if c.Publishes? && task.Publishing? && task.todo != [] then task.(todo := task.todo[1..]) else task
  }

  ghost predicate Ready(task: Task, c: Call) {
    c.Publishes? ==> task.Publishing? && task.todo != [] && task.todo[0] == c.image
  }

  lemma ExpectsFirst(task: Task, calls: seq<Call>)
    requires Expects(task, calls) && calls != []
    ensures Ready(task, calls[0]) && Expects(TaskStep(task, calls[0]), calls[1..])
    ensures TaskAfter(TaskStep(task, calls[0]), calls[1..]) == TaskAfter(task, calls)
  {
    var rest := Published(calls[1..]);
    if calls[0].Publishes? {
      assert Published(calls) == [calls[0].image] + rest;
      assert task.todo[0] == Published(calls)[0];
      assert task.todo[1..][..|rest|] == rest;
    } else {
      assert Published(calls) == rest;
    }
  }

  lemma CallRefines(s: State, v: View, c: Call, v': View) returns (es: seq<Event>, t: State)
    requires Inv(s) && Matches(s, v) && Calls(v, c, v') && Ready(s.proc.mem.task, c)
    ensures SafeLeads(s, es, t) && Inv(t) && Matches(t, v') && OnlyPages(s, t)
    ensures t.proc.mem.task == TaskStep(s.proc.mem.task, c)
  {
    hide Inv, SafeLeads, OneWriteBack, Installs;
    if c.Fetches? {
      es, t := CacheRefines(s, v, v');
    } else {
      es, t := InstallRefines(s, c.image, v, v');
    }
  }
}
