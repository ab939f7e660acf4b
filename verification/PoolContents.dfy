/**
 * The contents of pages while any number of threads use one shard of the page cache: the thread machine
 * with the bytes of every frame and of the data file. A page's contents change by installing it or through
 * a write guard on it, and in no other way, whatever is evicted, reloaded, flushed or fails meanwhile.
 */
module PoolContents {
  import opened Bytes
  import opened Pages
  import opened DataFile
  import opened Disk
  import opened Sharding
  import opened BufferPool
  import opened PoolThreads
  import opened PoolSafety

  /** One shard of `count`, the bytes in its frames, and the file it shares with the others. */
  datatype World = World(pool: State, pages: seq<Page>, file: File, index: nat, count: nat)

  datatype Act =
    | Move(e: Event, page: Page)   // a step of the pool; `page` is what an install brings or a fetch has read
    | Write(h: nat, page: Page)    // the holder of a write guard writes
    | Elsewhere                    // other shards, and the header, are written to the same file

  ghost function Frames(w: World): (fs: seq<Frame>)
    ensures |fs| == |w.pages|
  {
    seq(|w.pages|, f requires 0 <= f < |w.pages| => Frame(w.pages[f], f < |w.pool.dirty| && w.pool.dirty[f]))
  }

  ghost function Now(w: World): Picture { Picture(w.pool.table, Frames(w), w.file) }

  /** What a fetch of page `k` would show now, up to the checksum field. */
  ghost function Contents(w: World, k: PageId): seq<Byte> { Body(Now(w), k) }

  // ----- steps

  ghost predicate SameContents(w: World, w': World) { w'.pages == w.pages && w'.file == w.file }

  /** The frame's page is replaced. */
  ghost predicate PutsPage(w: World, w': World, f: nat, page: Page) {
    f < |w.pages| && w'.pages == w.pages[f := page] && w'.file == w.file
  }

  /** The frame's page, if dirty, is sealed and written; a write that fails is refused or leaves a mixture. */
  ghost predicate SavesFrame(w: World, w': World, f: nat, ok: bool) {
    && f < |w.pages| && f < |w.pool.dirty| && f < |w.pool.slots| && w.pool.slots[f].Holding?
    && if !w.pool.dirty[f] then SameContents(w, w')
       else
         var id, p := w.pool.slots[f].id, Sealed(w.pages[f]);
         if ok then id > 0 && w'.file == WritePage(w.file, id, p) && w'.pages == w.pages[f := p]
         else
           || SameContents(w, w')
           || (PartlyWritten(w'.file, w.file, id, p) && w'.pages == w.pages[f := p])
  }

  /** What a step of the pool does to the bytes. */
  ghost predicate Effect(w: World, e: Event, page: Page, w': World)
    requires Enabled(w.pool, e)
  {
    match e
    case Start(_, op, _) => SameContents(w, w') && w.count > 0 && ShardFor(op.page, w.count) == w.index
    case Save(t, ok) => SavesFrame(w, w', w.pool.pcs[t].frame, ok)
    case Place(t, _) =>
      var pc := w.pool.pcs[t];
      PutsPage(w, w', pc.frame, page) && (pc.op.Fetch? ==> pc.op.page > 0 && Holds(w.file, pc.op.page, page))
    case Update(t, ok) =>
      var pc := w.pool.pcs[t];
      && pc.h in w.pool.handles
      && var f := w.pool.handles[pc.h].frame;
      if pc.op.Install? then PutsPage(w, w', f, page) else SavesFrame(w, w', f, ok)
    case _ => SameContents(w, w')
  }

  ghost predicate Acts(w: World, a: Act, w': World) {
    && w'.index == w.index && w'.count == w.count
    && match a
       case Move(e, page) => Enabled(w.pool, e) && w'.pool == Do(w.pool, e) && Effect(w, e, page, w')
       case Write(h, page) =>
         && h in w.pool.user && h in w.pool.handles && FrameLock(w.pool, h) == Exclusive(ByHandle(h))
         && w'.pool == w.pool && PutsPage(w, w', w.pool.handles[h].frame, page)
       case Elsewhere => w'.pool == w.pool && w'.pages == w.pages && SameHere(w, w')
  }

  /** The data pages of this shard are as they were in the file. */
  ghost predicate SameHere(w: World, w': World) {
    w.count > 0 && forall k: PageId :: k > 0 && ShardFor(k, w.count) == w.index ==> SamePage(w.file, w'.file, k)
  }

  // ----- what every step keeps

  predicate HasOp(pc: Pc) {
    pc.Entering? || pc.Deciding? || pc.Evicting? || pc.Saving? || pc.Filling? || pc.Placing?
  }

  /** Every operation under way is about a page of this shard. */
  ghost predicate OpsHere(w: World) {
    w.count > 0 && forall t :: 0 <= t < |w.pool.pcs| && HasOp(w.pool.pcs[t]) ==>
      ShardFor(w.pool.pcs[t].op.page, w.count) == w.index
  }

  /** Whoever holds a write guard has marked the frame dirty. */
  ghost predicate GuardsDirty(s: State) {
    forall f :: 0 <= f < |s.locks| && f < |s.dirty| && UserLocked(s, f) ==> s.dirty[f]
  }

  ghost predicate UserLocked(s: State, f: nat)
    requires f < |s.locks|
  {
    s.locks[f].Exclusive? && s.locks[f].holder.ByHandle? && s.locks[f].holder.h in s.user
  }

  /** The header page is never clean in the cache. */
  ghost predicate CleanIsData(s: State) {
    forall id :: id in s.table && s.table[id] < |s.dirty| && !s.dirty[s.table[id]] ==> id > 0
  }

  ghost predicate ContentsInv(w: World) {
    && Inv(w.pool) && |w.pages| == |w.pool.dirty| && Routed(w.pool.table, w.index, w.count) && OpsHere(w)
    && GuardsDirty(w.pool) && CleanIsData(w.pool) && CleanMatches(Now(w))
  }

  /** Does this step give page `k` new contents? */
  ghost predicate Publishes(w: World, a: Act, k: PageId) {
    match a
    case Move(Place(t, _), _) => t < |w.pool.pcs| && w.pool.pcs[t].Placing? && w.pool.pcs[t].op == Install(k)
    case Move(Update(t, _), _) => t < |w.pool.pcs| && w.pool.pcs[t].Within? && w.pool.pcs[t].op == Install(k)
    case Write(h, _) => h in w.pool.handles && w.pool.handles[h].id == k
    case _ => false
  }

  /** Contents before and after one step. */
  ghost predicate Moves(w: World, a: Act, w': World) {
    forall k: PageId :: k > 0 && w.count > 0 && ShardFor(k, w.count) == w.index ==>
      Contents(w', k) == if Publishes(w, a, k) then a.page[4..] else Contents(w, k)
  }

  // ----- what the steps do to the pool

  /** The thread that moves goes on with its operation, finishes it, or starts one. */
  ghost predicate GoesOn(s: State, e: Event, s': State) {
    && e.t < |s.pcs| == |s'.pcs| && (forall u :: 0 <= u < |s.pcs| && u != e.t ==> s'.pcs[u] == s.pcs[u])
    && (HasOp(s'.pcs[e.t]) ==>
          if e.Start? then s'.pcs[e.t].op == e.op else HasOp(s.pcs[e.t]) && s'.pcs[e.t].op == s.pcs[e.t].op)
  }

  lemma OpsMove(s: State, e: Event)
    requires Enabled(s, e)
    ensures GoesOn(s, e, Do(s, e))
  {
    hide Enabled, Do, GoesOn;
    if e.Save? || e.Place? || e.Update? || e.Hit? || e.TakeState? {
      LongMove(s, e);
    } else {
      ShortMove(s, e);
    }
  }

  lemma LongMove(s: State, e: Event)
    requires Enabled(s, e) && (e.Save? || e.Place? || e.Update? || e.Hit? || e.TakeState?)
    ensures GoesOn(s, e, Do(s, e))
  {
    hide SetLock, SetDirty, AddHandle, DropHandle, Map, Unmap, FrameLock, NoGuard, DoEndRead;
  }

  lemma ShortMove(s: State, e: Event)
    requires Enabled(s, e) && !(e.Save? || e.Place? || e.Update? || e.Hit? || e.TakeState?)
    ensures GoesOn(s, e, Do(s, e))
  {
    hide SetLock, SetDirty, AddHandle, DropHandle, Map, Unmap, FrameLock, NoGuard, DoSave, DoPlace, DoUpdate, DoHit,
      DoTake;
  }

  predicate Quiet(e: Event) { !e.Save? && !e.Place? && !e.Update? && !e.BeginWrite? }

  /** Most steps leave table, frames and dirty flags alone, and lock at most one frame, by no write guard. */
  lemma QuietIs(s: State, e: Event)
    requires Inv(s) && Enabled(s, e) && Quiet(e)
    ensures var s' := Do(s, e); s'.table == s.table && s'.slots == s.slots && s'.dirty == s.dirty
    ensures GuardsDirty(s) ==> GuardsDirty(Do(s, e))
  {
    hide Counted, HandlesHold, Inverse, FreeListed, Distinct, OwnerInv;
    var s' := Do(s, e);
    assert PcOk(s, e.t);
    if GuardsDirty(s) {
      forall f | 0 <= f < |s'.locks| && f < |s'.dirty| && UserLocked(s', f)
        ensures s'.dirty[f]
      {
        assert LockOk(s, f);
      }
    }
  }

  lemma OpsKept(w: World, a: Act, w': World)
    requires OpsHere(w) && Acts(w, a, w')
    ensures OpsHere(w')
  {
    hide ShardFor, Do, Enabled;
    if a.Move? {
      OpsMove(w.pool, a.e);
    }
  }

  /** Saving the victim, under the lock of the operation: it is clean and unmapped, or stays as it was. */
  lemma SaveIs(s: State, t: nat, ok: bool)
    requires Inv(s) && Enabled(s, Save(t, ok))
    ensures var f, s' := s.pcs[t].frame, Do(s, Save(t, ok));
      && f < |s.slots| == |s.dirty| == |s.locks| && s.slots[f].Holding? && s.locks[f] == Exclusive(ByOp(t))
      && s'.table == (if ok then s.table - {s.slots[f].id} else s.table)
      && s'.dirty == (if ok then s.dirty[f := false] else s.dirty) && !s.locks[f].Shared?
    ensures GuardsDirty(s) ==> GuardsDirty(Do(s, Save(t, ok)))
  {
    hide Counted, HandlesHold, Inverse, FreeListed, Distinct, OwnerInv, LocksOk;
    assert PcOk(s, t);
  }

  lemma PlaceIs(s: State, t: nat, h: nat)
    requires Inv(s) && Enabled(s, Place(t, h))
    ensures var pc, s' := s.pcs[t], Do(s, Place(t, h));
      && pc.frame < |s.slots| == |s.dirty| == |s.locks| && s.slots[pc.frame].Empty? && pc.op.page !in s.table
      && s.locks[pc.frame] == Exclusive(ByOp(t)) && !pc.op.Flush?
      && s'.table == s.table[pc.op.page := pc.frame] && s'.dirty == s.dirty[pc.frame := pc.op.Install?]
    ensures GuardsDirty(s) ==> GuardsDirty(Do(s, Place(t, h)))
  {
    hide Counted, HandlesHold, Inverse, FreeListed, Distinct, OwnerInv;
    assert PcOk(s, t);
    hide PcsOk;
    var s' := Do(s, Place(t, h));
    if GuardsDirty(s) {
      forall f | 0 <= f < |s'.locks| && f < |s'.dirty| && UserLocked(s', f)
        ensures s'.dirty[f]
      {
        assert LockOk(s, f);
      }
    }
  }

  /** Replacing or flushing a cached page, under the lock of the operation's own handle. */
  lemma UpdateIs(s: State, t: nat, ok: bool)
    requires Inv(s) && Enabled(s, Update(t, ok))
    ensures var pc, s' := s.pcs[t], Do(s, Update(t, ok));
      && pc.h in s.handles && var f := s.handles[pc.h].frame;
      && f < |s.slots| == |s.dirty| == |s.locks| && s.slots[f] == Holding(pc.op.page) && !pc.op.Fetch?
      && s.locks[f] == Exclusive(ByHandle(pc.h)) && s'.table == s.table
      && s'.dirty == if pc.op.Install? then s.dirty[f := true] else if ok then s.dirty[f := false] else s.dirty
    ensures GuardsDirty(s) ==> GuardsDirty(Do(s, Update(t, ok)))
  {
    hide Counted, Inverse, FreeListed, Distinct, OwnerInv, LocksOk;
    assert PcOk(s, t);
  }

  lemma BeginWriteIs(s: State, t: nat, h: nat)
    requires Inv(s) && Enabled(s, BeginWrite(t, h))
    ensures var f, s' := s.handles[h].frame, Do(s, BeginWrite(t, h));
      && f < |s.slots| == |s.dirty| && s.slots[f] == Holding(s.handles[h].id)
      && s'.table == s.table && s'.dirty == s.dirty[f := true]
    ensures GuardsDirty(s) ==> GuardsDirty(Do(s, BeginWrite(t, h)))
  {
    hide Counted, Inverse, FreeListed, Distinct, OwnerInv, LocksOk, PcsOk;
  }

  // ----- what the steps do to the contents

  /** What each kind of step has to get right. */
  ghost predicate Keeps(w: World, a: Act, w': World) {
    && Routed(w'.pool.table, w'.index, w'.count) && CleanIsData(w'.pool) && CleanMatches(Now(w'))
    && Moves(w, a, w')
  }

  lemma FramesPut(w: World, w': World, f: nat, page: Page, dirty: bool)
    requires |w.pages| == |w.pool.dirty| && f < |w.pages|
    requires w'.pages == w.pages[f := page] && w'.pool.dirty == w.pool.dirty[f := dirty]
    ensures Frames(w') == Frames(w)[f := Frame(page, dirty)]
  {
  }

  lemma SameFrames(w: World, w': World)
    requires w'.pages == w.pages && w'.pool.dirty == w.pool.dirty
    ensures Frames(w') == Frames(w)
  {
  }

  /** Nothing that decides the contents has changed. */
  lemma StillKeeps(w: World, a: Act, w': World)
    requires ContentsInv(w) && w'.index == w.index && w'.count == w.count && SameContents(w, w')
    requires w'.pool.table == w.pool.table && w'.pool.dirty == w.pool.dirty
    requires forall k: PageId :: !Publishes(w, a, k)
    ensures Keeps(w, a, w')
  {
    hide Inv, OpsHere, GuardsDirty, Routed, CleanMatches, Body, ShardFor, Publishes;
    SameFrames(w, w');
  }

  /** A cached page is given new contents, or just marked dirty. */
  lemma OverwriteKeeps(w: World, a: Act, w': World, f: nat, id: PageId, page: Page)
    requires ContentsInv(w) && w'.index == w.index && w'.count == w.count
    requires f < |w.pool.slots| && w.pool.slots[f] == Holding(id) && f < |w.pages|
    requires w'.pages == w.pages[f := page] && w'.file == w.file
    requires w'.pool.table == w.pool.table && w'.pool.dirty == w.pool.dirty[f := true]
    requires forall k: PageId :: Publishes(w, a, k) ==> k == id && a.page == page
    requires Publishes(w, a, id) || page[4..] == w.pages[f][4..]
    ensures Keeps(w, a, w')
  {
    hide OpsHere, GuardsDirty, ShardFor, Publishes, Holds, DiskBytes, Counted, HandlesHold, PcsOk, LocksOk, Distinct,
      OwnerInv, FreeListed, Routed, CleanMatches;
    FramesPut(w, w', f, page, true);
    Overwritten(Now(w), w.pool.slots, f, id, page);
    assert Contents(w, id) == w.pages[f][4..];
    hide Inverse, Shown;
    assert OnlyPage(id, Now(w), Now(w'));
  }

  lemma SealedBody(p: Page)
    ensures Sealed(p)[4..] == p[4..]
  {
  }

  /** A frame is written back, or fails to be. */
  lemma SaveKeeps(w: World, a: Act, w': World, f: nat, ok: bool)
    requires ContentsInv(w) && w'.index == w.index && w'.count == w.count && SavesFrame(w, w', f, ok)
    requires w'.pool.table == w.pool.table && w'.pool.dirty == if ok then w.pool.dirty[f := false] else w.pool.dirty
    requires forall k: PageId :: !Publishes(w, a, k)
    ensures Keeps(w, a, w')
  {
    hide OpsHere, GuardsDirty, ShardFor, Publishes, Holds, DiskBytes, Counted, HandlesHold, PcsOk, LocksOk, Distinct,
      OwnerInv, FreeListed, Routed, CleanMatches, Sealed, WritePage, PartlyWritten, Body;
    var id := w.pool.slots[f].id;
    if !w.pool.dirty[f] || (!ok && SameContents(w, w')) {
      assert w'.pool.dirty == w.pool.dirty;
      StillKeeps(w, a, w');
    } else {
      var p := Sealed(w.pages[f]);
      FramesPut(w, w', f, p, !ok);
      OthersAfterWrite(w.file, w'.file, id, p, ok);
      SealedBody(w.pages[f]);
      if ok {
        WriteHolds(w.file, id, p);
      }
      WrittenBack(Now(w), w.pool.slots, f, id, p, ok, Now(w'), w.index, w.count);
    }
  }

  /** The victim, once saved, is unmapped: the file has what the frame had. */
  lemma EvictKeeps(w: World, a: Act, w': World, f: nat)
    requires ContentsInv(w) && w'.index == w.index && w'.count == w.count && SavesFrame(w, w', f, true)
    requires w'.pool.table == w.pool.table - {w.pool.slots[f].id} && w'.pool.dirty == w.pool.dirty[f := false]
    requires forall k: PageId :: !Publishes(w, a, k)
    ensures Keeps(w, a, w')
  {
    hide OpsHere, GuardsDirty, ShardFor, Publishes, Holds, DiskBytes, Counted, HandlesHold, PcsOk, LocksOk, Distinct,
      OwnerInv, FreeListed, Routed, CleanMatches, Sealed, WritePage, PartlyWritten, Body;
    var id := w.pool.slots[f].id;
    var mid := w'.(pool := w'.pool.(table := w.pool.table));
    SaveKeeps(w, a, mid, f, true);
    SameFrames(w', mid);
    Evicted(Now(mid), w.pool.slots, f, id, w.index, w.count);
  }

  /** A page is put into an empty frame: as it stands in the file, or new. */
  lemma PlaceKeeps(w: World, a: Act, w': World, f: nat, id: PageId, page: Page, install: bool)
    requires w.count > 0 && ShardFor(id, w.count) == w.index && ContentsInv(w)
    requires w'.index == w.index && w'.count == w.count
    requires f < |w.pool.slots| && w.pool.slots[f].Empty? && id !in w.pool.table && f < |w.pages|
    requires w'.pages == w.pages[f := page] && w'.file == w.file
    requires w'.pool.table == w.pool.table[id := f] && w'.pool.dirty == w.pool.dirty[f := install]
    requires forall k: PageId :: Publishes(w, a, k) <==> install && k == id
    requires if install then a.Move? && a.page == page else id > 0 && Holds(w.file, id, page)
    ensures Keeps(w, a, w')
  {
    hide OpsHere, GuardsDirty, ShardFor, Publishes, Holds, DiskBytes, Counted, HandlesHold, PcsOk, LocksOk, Distinct,
      OwnerInv, FreeListed, Routed, CleanMatches, Shown;
    FramesPut(w, w', f, page, install);
    Filled(Now(w), w.pool.slots, f, id, Frame(page, install));
    RoutedMore(w.pool.table, w.index, w.count, f, id);
    if !install {
      Loaded(Now(w), Now(w'), id, page, w.index, w.count);
    }
    TableKept(w.pool, f);
  }

  lemma TableKept(s: State, f: nat)
    requires Inverse(s.table, s.slots) && f < |s.slots| && s.slots[f].Empty?
    ensures forall id :: id in s.table ==> s.table[id] != f
  {
  }

  /** Writes of other shards, and of the header, do not reach the pages of this one. */
  lemma ElsewhereKeeps(w: World, a: Act, w': World)
    requires ContentsInv(w) && w'.index == w.index && w'.count == w.count
    requires w'.pool == w.pool && w'.pages == w.pages && SameHere(w, w') && a.Elsewhere?
    ensures Keeps(w, a, w')
  {
    hide Inv, OpsHere, GuardsDirty, ShardFor, Holds, DiskBytes;
    SameFrames(w, w');
  }

  lemma GuardWriteKeeps(w: World, h: nat, page: Page, w': World)
    requires ContentsInv(w) && Acts(w, Write(h, page), w')
    ensures Keeps(w, Write(h, page), w')
  {
    hide OpsHere, ShardFor, Counted, PcsOk, LocksOk, Distinct, OwnerInv, FreeListed, Routed, CleanMatches, Keeps,
      CleanIsData, Inverse;
    var s, f := w.pool, w.pool.handles[h].frame;
    assert UserLocked(s, f) && s.dirty[f := true] == s.dirty;
    hide GuardsDirty;
    OverwriteKeeps(w, Write(h, page), w', f, s.handles[h].id, page);
  }

  /** A step of the pool with its effect on the bytes. */
  ghost predicate MovesBy(w: World, e: Event, page: Page, w': World) {
    && w'.index == w.index && w'.count == w.count
    && Enabled(w.pool, e) && w'.pool == Do(w.pool, e) && Effect(w, e, page, w')
  }

  ghost predicate MoveKept(w: World, e: Event, page: Page, w': World) {
    Keeps(w, Move(e, page), w') && GuardsDirty(w'.pool) && |w'.pages| == |w'.pool.dirty|
  }

  lemma SaveMoves(w: World, t: nat, ok: bool, page: Page, w': World)
    requires ContentsInv(w) && MovesBy(w, Save(t, ok), page, w')
    ensures MoveKept(w, Save(t, ok), page, w')
  {
    hide Inv, Do, OpsHere, GuardsDirty, Keeps, Routed, CleanIsData, CleanMatches, SavesFrame;
    SaveIs(w.pool, t, ok);
    var f := w.pool.pcs[t].frame;
    SavedSize(w, w', f, ok);
    if ok {
      EvictKeeps(w, Move(Save(t, ok), page), w', f);
    } else {
      SaveKeeps(w, Move(Save(t, ok), page), w', f, ok);
    }
  }

  lemma SavedSize(w: World, w': World, f: nat, ok: bool)
    requires SavesFrame(w, w', f, ok)
    ensures |w'.pages| == |w.pages|
  {
    hide Sealed, WritePage, PartlyWritten;
  }

  lemma PlaceMoves(w: World, t: nat, h: nat, page: Page, w': World)
    requires ContentsInv(w) && MovesBy(w, Place(t, h), page, w')
    ensures MoveKept(w, Place(t, h), page, w')
  {
    hide Inv, Do, GuardsDirty, Keeps, Routed, CleanIsData, CleanMatches, ShardFor, Holds;
    PlaceIs(w.pool, t, h);
    var pc := w.pool.pcs[t];
    assert HasOp(pc);
    PlaceKeeps(w, Move(Place(t, h), page), w', pc.frame, pc.op.page, page, pc.op.Install?);
  }

  lemma UpdateMoves(w: World, t: nat, ok: bool, page: Page, w': World)
    requires ContentsInv(w) && MovesBy(w, Update(t, ok), page, w')
    ensures MoveKept(w, Update(t, ok), page, w')
  {
    hide Inv, Do, OpsHere, GuardsDirty, Keeps, Routed, CleanIsData, CleanMatches, SavesFrame;
    UpdateIs(w.pool, t, ok);
    var pc := w.pool.pcs[t];
    var f := w.pool.handles[pc.h].frame;
    if pc.op.Install? {
      OverwriteKeeps(w, Move(Update(t, ok), page), w', f, pc.op.page, page);
    } else {
      SavedSize(w, w', f, ok);
      SaveKeeps(w, Move(Update(t, ok), page), w', f, ok);
    }
  }

  lemma BeginWriteMoves(w: World, t: nat, h: nat, page: Page, w': World)
    requires ContentsInv(w) && MovesBy(w, BeginWrite(t, h), page, w')
    ensures MoveKept(w, BeginWrite(t, h), page, w')
  {
    hide Inv, Do, OpsHere, GuardsDirty, Keeps, Routed, CleanIsData, CleanMatches;
    BeginWriteIs(w.pool, t, h);
    var f := w.pool.handles[h].frame;
    OverwriteKeeps(w, Move(BeginWrite(t, h), page), w', f, w.pool.handles[h].id, w.pages[f]);
  }

  lemma QuietMoves(w: World, e: Event, page: Page, w': World)
    requires ContentsInv(w) && MovesBy(w, e, page, w') && Quiet(e)
    ensures MoveKept(w, e, page, w')
  {
    hide Inv, Enabled, Do, OpsHere, GuardsDirty, Keeps, Routed, CleanIsData, CleanMatches, ShardFor;
    QuietIs(w.pool, e);
    StillKeeps(w, Move(e, page), w');
  }

  /** Every step of every thread keeps the invariant, and moves the contents of pages as it should. */
  lemma ActKeeps(w: World, a: Act, w': World)
    requires ContentsInv(w) && Acts(w, a, w')
    ensures ContentsInv(w') && Moves(w, a, w')
  {
    hide Inv, Enabled, Do, OpsHere, GuardsDirty, Moves, Effect, Routed, CleanIsData, CleanMatches, SameHere;
    OpsKept(w, a, w');
    match a
    case Elsewhere => ElsewhereKeeps(w, a, w');
    case Write(h, page) => GuardWriteKeeps(w, h, page, w');
    case Move(e, page) =>
      EventKeeps(w.pool, e);
      match e
      case Save(t, ok) => SaveMoves(w, t, ok, page, w');
      case Place(t, h) => PlaceMoves(w, t, h, page, w');
      case Update(t, ok) => UpdateMoves(w, t, ok, page, w');
      case BeginWrite(t, h) => BeginWriteMoves(w, t, h, page, w');
      case _ => QuietMoves(w, e, page, w');
  }

  // ----- whole runs

  /** A shard as it is made, over any file. */
  ghost predicate InitialWorld(w: World) {
    Initial(w.pool) && |w.pages| == |w.pool.dirty| && w.count > 0
  }

  ghost predicate IsRun(ws: seq<World>, acts: seq<Act>) {
    && |ws| == |acts| + 1 && InitialWorld(ws[0])
    && forall i :: 0 <= i < |acts| ==> Acts(ws[i], acts[i], ws[i + 1])
  }

  lemma InitialContents(w: World)
    requires InitialWorld(w)
    ensures ContentsInv(w)
  {
    hide FreeListed, Inv;
    InitialInv(w.pool);
  }

  lemma {:induction false} RunKeepsContents(ws: seq<World>, acts: seq<Act>, i: nat)
    requires IsRun(ws, acts) && i < |ws|
    ensures ContentsInv(ws[i])
  {
    hide ContentsInv, Acts, InitialWorld;
    if i == 0 {
      InitialContents(ws[0]);
    } else {
      RunKeepsContents(ws, acts, i - 1);
      ActKeeps(ws[i - 1], acts[i - 1], ws[i]);
    }
  }

  /**
   * Over any stretch of any interleaving in which nobody installs page `k` or writes it through a guard,
   * its contents stay as they are, whatever is evicted, reloaded, flushed, refused or fails meanwhile.
   */
  lemma {:induction false} ContentsStay(ws: seq<World>, acts: seq<Act>, i: nat, j: nat, k: PageId)
    requires IsRun(ws, acts) && i <= j < |ws| && k > 0 && Here(ws[i], k)
    requires forall x :: i <= x < j ==> !Publishes(ws[x], acts[x], k)
    ensures Contents(ws[j], k) == Contents(ws[i], k) && Here(ws[j], k)
    decreases j
  {
    hide ContentsInv, Acts, InitialWorld, Publishes, Contents, ShardFor;
    if i < j {
      ContentsStay(ws, acts, i, j - 1, k);
      RunKeepsContents(ws, acts, j - 1);
      SameShard(ws[j - 1], acts[j - 1], ws[j]);
      ActKeeps(ws[j - 1], acts[j - 1], ws[j]);
    }
  }

  /** Page `k` belongs to this shard. */
  ghost predicate Here(w: World, k: PageId) { w.count > 0 && ShardFor(k, w.count) == w.index }

  lemma SameShard(w: World, a: Act, w': World)
    requires Acts(w, a, w')
    ensures w'.index == w.index && w'.count == w.count
  {
    hide Effect, Enabled, Do;
  }

  /** And a page once installed or written shows exactly that until the next time. */
  lemma LastWriteShows(ws: seq<World>, acts: seq<Act>, i: nat, j: nat, k: PageId)
    requires IsRun(ws, acts) && i < j < |ws| && k > 0 && Here(ws[i], k)
    requires Publishes(ws[i], acts[i], k) && forall x :: i < x < j ==> !Publishes(ws[x], acts[x], k)
    ensures !acts[i].Elsewhere? && Contents(ws[j], k) == acts[i].page[4..]
  {
    hide ContentsInv, Acts, InitialWorld, Contents, ShardFor;
    RunKeepsContents(ws, acts, i);
    SameShard(ws[i], acts[i], ws[i + 1]);
    ActKeeps(ws[i], acts[i], ws[i + 1]);
    ContentsStay(ws, acts, i + 1, j, k);
  }

  /** In every interleaving a clean frame is its page in the file, byte for byte. */
  lemma CleanIsFile(ws: seq<World>, acts: seq<Act>, i: nat, f: nat)
    requires IsRun(ws, acts) && i < |ws| && f < |ws[i].pool.slots| && ws[i].pool.slots[f].Holding?
    ensures |ws[i].pool.dirty| == |ws[i].pages| == |ws[i].pool.slots|
    ensures !ws[i].pool.dirty[f] ==> Holds(ws[i].file, ws[i].pool.slots[f].id, ws[i].pages[f])
  {
    hide IsRun, Holds, Counted, HandlesHold, PcsOk, LocksOk, Distinct, OwnerInv, FreeListed, OpsHere, GuardsDirty,
      Routed, CleanIsData;
    RunKeepsContents(ws, acts, i);
    var w := ws[i];
    var id := w.pool.slots[f].id;
    assert w.pool.table[id] == f;
  }

  /** In every interleaving a handle's frame has the contents of the page it was taken for. */
  lemma HandleShows(ws: seq<World>, acts: seq<Act>, i: nat, h: nat)
    requires IsRun(ws, acts) && i < |ws| && h in ws[i].pool.handles
    ensures var w, g := ws[i], ws[i].pool.handles[h];
      g.frame < |w.pages| && w.pages[g.frame][4..] == Contents(w, g.id)
  {
    hide IsRun, Counted, PcsOk, LocksOk, Distinct, OwnerInv, FreeListed, OpsHere, GuardsDirty, Routed, CleanIsData,
      CleanMatches, DiskBytes;
    RunKeepsContents(ws, acts, i);
    var w, g := ws[i], ws[i].pool.handles[h];
    assert w.pool.table[g.id] == g.frame;
  }

  // ----- guards

  /** A frame locked for reading is not written by anyone. */
  lemma SharedStays(w: World, a: Act, w': World, f: nat)
    requires ContentsInv(w) && Acts(w, a, w') && f < |w.pages| && f < |w.pool.locks| && w.pool.locks[f].Shared?
    ensures |w'.pages| == |w.pages| && w'.pages[f] == w.pages[f]
  {
    hide Inv, Do, OpsHere, GuardsDirty, CleanIsData, CleanMatches, Routed, Holds, Sealed, WritePage, PartlyWritten,
      ShardFor;
    match a
    case Elsewhere =>
    case Write(h, page) =>
    case Move(e, page) =>
      match e
      case Save(t, ok) => SaveIs(w.pool, t, ok);
      case Place(t, h) => PlaceIs(w.pool, t, h);
      case Update(t, ok) => UpdateIs(w.pool, t, ok);
      case _ =>
  }

  lemma HandleStays(s: State, e: Event, h: nat)
    requires Enabled(s, e) && h in s.handles && h in Do(s, e).handles
    ensures Do(s, e).handles[h] == s.handles[h]
  {
    hide SetLock, SetDirty, Map, Unmap, FrameLock, NoGuard;
  }

  /** Handle `h` holds a read guard from state `i` to state `j`. */
  ghost predicate ReadLocked(ws: seq<World>, h: nat, i: nat, j: nat) {
    i <= j < |ws| && forall x :: i <= x <= j ==> Reads(ws[x].pool, h)
  }

  ghost predicate Reads(s: State, h: nat) {
    h in s.handles && s.handles[h].frame < |s.locks| && FrameLock(s, h).Shared? && h in FrameLock(s, h).handles
  }

  /**
   * While a read guard is held, over any stretch of any interleaving, the page under it does not change in
   * a single byte, and its contents are those of the page the handle was taken for.
   */
  lemma {:induction false} ReadsStable(ws: seq<World>, acts: seq<Act>, h: nat, i: nat, j: nat)
    requires IsRun(ws, acts) && ReadLocked(ws, h, i, j)
    ensures ws[j].pool.handles[h] == ws[i].pool.handles[h]
    ensures var g := ws[i].pool.handles[h];
      && g.frame < |ws[i].pages| && g.frame < |ws[j].pages| && ws[j].pages[g.frame] == ws[i].pages[g.frame]
      && ws[j].pages[g.frame][4..] == Contents(ws[j], g.id)
    decreases j
  {
    hide ContentsInv, Acts, InitialWorld, Contents;
    HandleShows(ws, acts, i, h);
    HandleShows(ws, acts, j, h);
    if i < j {
      ReadsStable(ws, acts, h, i, j - 1);
      RunKeepsContents(ws, acts, j - 1);
      var w, a, w' := ws[j - 1], acts[j - 1], ws[j];
      HandleActs(w, a, w', h);
      SharedStays(w, a, w', w.pool.handles[h].frame);
    }
  }

  lemma HandleActs(w: World, a: Act, w': World, h: nat)
    requires Acts(w, a, w') && h in w.pool.handles && h in w'.pool.handles
    ensures w'.pool.handles[h] == w.pool.handles[h]
  {
    hide Effect, Enabled, Do;
    if a.Move? {
      HandleStays(w.pool, a.e, h);
    }
  }
}
