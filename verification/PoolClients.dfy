/**
 * The pool as the database uses it: read transactions hold the publish lock shared, a commit publishes
 * under the log lock and the publish lock exclusively, and a checkpoint flushes under the log lock
 * while readers go on fetching and evicting.
 */
module PoolClients {
  import opened Pages
  import opened BufferPool
  import opened PoolThreads
  import opened PoolSafety
  import Clock

  /** Who has the log lock, and for what. */
  datatype Phase =
    | Nobody
    | Transacting                                          // a write transaction is open
    | Publishing(t: nat)                                    // also holds the publish lock exclusively
    | Locked                                                // between publishing and releasing, or before a checkpoint
    | Flushing(t: nat, left: set<PageId>, failed: bool)
    | Flushed

  datatype World = World(pool: State, readers: set<nat>, phase: Phase)

  datatype Act =
    | BeginReader(r: nat)
    | EndReader(r: nat)
    | BeginTxn
    | EndTxn
    | BeginPublish(t: nat)
    | EndPublish
    | LockLog
    | Snapshot(t: nat)
    | FlushDone
    | FlushFails
    | Unlock
    | Pool(e: Event)

  /** The right a thread's operation runs under. */
  ghost function CoverAt(s: State, t: nat): Option<Cover>
    requires t < |s.pcs|
  {
    var pc := s.pcs[t];
    if HandleOf(pc).Some? then (if pc.h in s.handles then Some(s.handles[pc.h].cover) else None)
    else if pc.Idle? then None
    else Some(pc.cover)
  }

  /** A transaction cannot end while a call on it is still going on. */
  ghost predicate InUse(s: State, c: Cover) {
    || (exists t :: 0 <= t < |s.pcs| && CoverAt(s, t) == Some(c))
    || (exists h :: h in s.user && h in s.handles && s.handles[h].cover == c)
  }

  predicate MayStart(w: World, t: nat, op: Op, cover: Cover) {
    match cover
    case ByReader(r) => op.Fetch? && r in w.readers
    case ByTxn => op.Fetch? && w.phase.Transacting?
    case ByPublish => op.Install? && w.phase == Publishing(t)
    case ByFlush => op.Flush? && w.phase.Flushing? && w.phase.t == t && !w.phase.failed && op.page in w.phase.left
  }

  predicate IdleAt(s: State, t: nat) { t < |s.pcs| && s.pcs[t].Idle? }

  ghost predicate Can(w: World, a: Act) {
    match a
    case BeginReader(r) => r !in w.readers && !w.phase.Publishing?
    case EndReader(r) => r in w.readers && !InUse(w.pool, ByReader(r))
    case BeginTxn => w.phase.Nobody?
    case EndTxn => w.phase.Transacting? && !InUse(w.pool, ByTxn)
    case BeginPublish(t) => w.phase.Transacting? && !InUse(w.pool, ByTxn) && w.readers == {} && t < |w.pool.pcs|
    case EndPublish => w.phase.Publishing? && IdleAt(w.pool, w.phase.t)
    case LockLog => w.phase.Nobody?
    case Snapshot(t) => w.phase.Locked? && w.pool.owner.None? && IdleAt(w.pool, t)
    case FlushDone => w.phase.Flushing? && !w.phase.failed && w.phase.left == {} && IdleAt(w.pool, w.phase.t)
    case FlushFails => w.phase.Flushing? && w.phase.failed && IdleAt(w.pool, w.phase.t)
    case Unlock => w.phase.Locked? || w.phase.Flushed?
    case Pool(e) => Enabled(w.pool, e) && !e.BeginWrite? && (e.Start? ==> MayStart(w, e.t, e.op, e.cover))
  }

  ghost function After(w: World, a: Act): World
    requires Can(w, a)
  {
    match a
    case BeginReader(r) => w.(readers := w.readers + {r})
    case EndReader(r) => w.(readers := w.readers - {r})
    case BeginTxn => w.(phase := Transacting)
    case EndTxn => w.(phase := Nobody)
    case BeginPublish(t) => w.(phase := Publishing(t))
    case EndPublish => w.(phase := Locked)
    case LockLog => w.(phase := Locked)
    case Snapshot(t) => w.(phase := Flushing(t, w.pool.table.Keys, false))
    case FlushDone => w.(phase := Flushed)
    case FlushFails => w.(phase := Locked)
    case Unlock => w.(phase := Nobody)
    case Pool(e) => w.(pool := Do(w.pool, e), phase := PhaseAfter(w, e))
  }

  /** Starting to flush a page takes it off the list; a failed write-back ends the checkpoint. */
  ghost function PhaseAfter(w: World, e: Event): Phase {
    if !w.phase.Flushing? then w.phase
    else if e.Start? && e.op.Flush? then w.phase.(left := w.phase.left - {e.op.page})
    else if e.Update? && e.t == w.phase.t && !e.ok then w.phase.(failed := true)
    else w.phase
  }

  // ----- what the locks guarantee

  predicate Fits(op: Op, cover: Cover) {
    match cover
    case ByReader(_) => op.Fetch?
    case ByTxn => op.Fetch?
    case ByPublish => op.Install?
    case ByFlush => op.Flush?
  }

  ghost predicate Live(w: World, t: nat, cover: Cover) {
    match cover
    case ByReader(r) => r in w.readers
    case ByTxn => w.phase.Transacting?
    case ByPublish => w.phase == Publishing(t)
    case ByFlush => w.phase.Flushing? && w.phase.t == t
  }

  ghost predicate CoveredAt(w: World, t: nat)
    requires t < |w.pool.pcs|
  {
    var pc, c := w.pool.pcs[t], CoverAt(w.pool, t);
    && (!pc.Idle? ==> c.Some? && Live(w, t, c.value))
    && (c.Some? && !pc.Idle? && !pc.Leaving? && !pc.Unpinning? ==> Fits(pc.op, c.value))
  }

  ghost predicate UserCovered(w: World, h: nat) {
    h in w.pool.handles && match w.pool.handles[h].cover
      case ByReader(r) => r in w.readers
      case ByTxn => w.phase.Transacting?
      case ByPublish => false
      case ByFlush => false
  }

  ghost predicate NoLeaks(s: State) {
    forall h :: h in s.handles ==> h in s.user || exists t :: 0 <= t < |s.pcs| && HandleOf(s.pcs[t]) == Some(h)
  }

  /** Page `id` is cached and differs from the file. */
  ghost predicate DirtyPage(s: State, id: PageId) {
    id in s.table && s.table[id] < |s.dirty| && s.dirty[s.table[id]]
  }

  /** The flushing thread is on its way to write page `id`. */
  ghost predicate Attending(s: State, t: nat, id: PageId) {
    && t < |s.pcs| && (s.pcs[t].Entering? || s.pcs[t].Deciding? || s.pcs[t].Updating? || s.pcs[t].Within?)
    && s.pcs[t].op == Flush(id)
  }

  ghost predicate DirtyInv(w: World) {
    match w.phase
    case Flushing(t, left, failed) =>
      failed || forall id :: DirtyPage(w.pool, id) ==> id in left || Attending(w.pool, t, id)
    case Flushed => forall id :: !DirtyPage(w.pool, id)
    case _ => true
  }

  ghost predicate ClientInv(w: World) {
    && Inv(w.pool) && (w.phase.Publishing? ==> w.readers == {})
    && (forall t :: 0 <= t < |w.pool.pcs| ==> CoveredAt(w, t))
    && (forall h :: h in w.pool.user ==> UserCovered(w, h))
    && NoLeaks(w.pool) && DirtyInv(w)
  }

  // ----- what follows

  /** While a commit publishes, every handle is its thread's own. */
  lemma PublishHandle(w: World, h: nat)
    requires ClientInv(w) && w.phase.Publishing? && h in w.pool.handles
    ensures w.phase.t < |w.pool.pcs| && HandleOf(w.pool.pcs[w.phase.t]) == Some(h)
  {
    hide Inv, DirtyInv;
    assert h in w.pool.user ==> UserCovered(w, h);
    var t :| 0 <= t < |w.pool.pcs| && HandleOf(w.pool.pcs[t]) == Some(h);
    assert CoveredAt(w, t);
  }

  /** While a commit publishes, only its own thread is in the pool, and between pages nothing is pinned. */
  lemma PublishAlone(w: World, u: nat)
    requires ClientInv(w) && w.phase.Publishing? && u < |w.pool.pcs|
    ensures u != w.phase.t ==> w.pool.pcs[u].Idle?
    ensures HandleOf(w.pool.pcs[u]).None? && u == w.phase.t ==> w.pool.handles == map[]
  {
    hide Inv, DirtyInv, NoLeaks;
    assert CoveredAt(w, u);
    if h :| h in w.pool.handles {
      PublishHandle(w, h);
    }
  }

  lemma NoPins(s: State)
    requires Inv(s) && s.handles == map[]
    ensures !Clock.AllPinned(s.pins)
  {
    hide Inverse, FreeListed, PcsOk, LocksOk, Distinct, OwnerInv;
    assert HandlesOn(s.handles, 0) == {};
    assert s.pins[0] == 0;
  }

  /** A publishing commit always finds a frame. */
  lemma InstallFindsFrame(w: World, u: nat)
    requires ClientInv(w) && w.phase.Publishing?
    ensures !Enabled(w.pool, Exhaust(u))
  {
    hide DirtyInv, Inv, NoLeaks;
    if Enabled(w.pool, Exhaust(u)) {
      PublishAlone(w, u);
      NoPins(w.pool);
    }
  }

  // ----- every act keeps the invariant

  /** What a pool step of thread `t` may do to handles and to the points of the threads. */
  ghost predicate Framed(s: State, s': State, t: nat) {
    && t < |s.pcs| == |s'.pcs| && (forall u :: 0 <= u < |s.pcs| && u != t ==> s'.pcs[u] == s.pcs[u])
    && (forall h :: h in s.handles && HandleOf(s.pcs[t]) != Some(h) ==>
          h in s'.handles && s'.handles[h] == s.handles[h])
    && (forall h :: h in s.handles && h in s'.handles ==> s'.handles[h] == s.handles[h])
    && (forall h :: h in s.handles && h in s'.handles && HandleOf(s.pcs[t]) == Some(h) ==>
          HandleOf(s'.pcs[t]) == Some(h))
    && (forall h :: h in s'.handles && h !in s.handles ==> NewPin(s, s', t, h))
    && (forall h :: h in s.user ==> h in s'.user || HandleOf(s'.pcs[t]) == Some(h))
    && (forall h :: h in s'.user ==> h in s.user || (h !in s.handles && h in s'.handles && s'.pcs[t].Idle?))
  }

  ghost predicate NewPin(s: State, s': State, t: nat, h: nat) {
    && t < |s.pcs| == |s'.pcs| && h in s'.handles && (s.pcs[t].Deciding? || s.pcs[t].Placing?)
    && s'.handles[h].cover == s.pcs[t].cover
    && (if s.pcs[t].op.Fetch? then h in s'.user && s'.pcs[t].Idle? else HandleOf(s'.pcs[t]) == Some(h))
  }

  /** The thread goes on with the same operation, or has just begun or ended one. */
  ghost predicate SameCall(s: State, s': State, t: nat, e: Event) {
    && t < |s.pcs| == |s'.pcs|
    && (!s'.pcs[t].Idle? ==>
      if e.Start? then s'.pcs[t] == Entering(e.op, e.cover)
      else if e.Drop? then s'.pcs[t] == Leaving(e.h) && e.h in s.user
      else if s.pcs[t].Idle? then false
      else
        && CoverAt(s', t) == CoverAt(s, t)
        && (|| s'.pcs[t].Leaving? || s'.pcs[t].Unpinning?
            || (!s.pcs[t].Leaving? && !s.pcs[t].Unpinning? && s'.pcs[t].op == s.pcs[t].op)))
  }

  predicate MovesHandles(e: Event) { e.Hit? || e.Place? || e.Unpin? || e.Drop? }

  ghost predicate Kept(s: State, s': State, t: nat) {
    && t < |s.pcs| == |s'.pcs| && s'.handles == s.handles && s'.user == s.user && s'.pcs == s.pcs[t := s'.pcs[t]]
    && (HandleOf(s.pcs[t]).Some? ==> HandleOf(s'.pcs[t]) == HandleOf(s.pcs[t]))
  }

  lemma QuietKept(s: State, e: Event)
    requires Inv(s) && Enabled(s, e) && !MovesHandles(e)
    ensures Kept(s, Do(s, e), e.t)
  {
    hide SetLock, SetDirty, Map, Unmap, AddHandle, DropHandle, Inverse, FreeListed, Counted, HandlesHold, LocksOk,
      OwnerInv, Distinct;
    assert e.t < |s.pcs| && PcOk(s, e.t);
    hide PcsOk, PcOk;
  }

  lemma KeptFramed(s: State, s': State, t: nat)
    requires Kept(s, s', t)
    ensures Framed(s, s', t)
  {
  }

  lemma QuietSameCall(s: State, e: Event)
    requires Inv(s) && Enabled(s, e) && !MovesHandles(e) && Kept(s, Do(s, e), e.t)
    ensures SameCall(s, Do(s, e), e.t, e)
  {
    hide SetLock, SetDirty, Map, Unmap, AddHandle, DropHandle, Inverse, FreeListed, Counted, HandlesHold, LocksOk,
      OwnerInv, Distinct;
    assert PcOk(s, e.t);
    hide PcsOk;
  }

  lemma HitFramed(s: State, t: nat, h: nat)
    requires Inv(s) && Enabled(s, Hit(t, h))
    ensures Framed(s, Do(s, Hit(t, h)), t) && SameCall(s, Do(s, Hit(t, h)), t, Hit(t, h))
  {
    hide AddHandle, Inverse, FreeListed, Counted, HandlesHold, LocksOk, OwnerInv, PcsOk;
    TableMeans(s.table, s.slots, s.pcs[t].op.page);
  }

  lemma PlaceFramed(s: State, t: nat, h: nat)
    requires Inv(s) && Enabled(s, Place(t, h))
    ensures Framed(s, Do(s, Place(t, h)), t) && SameCall(s, Do(s, Place(t, h)), t, Place(t, h))
  {
    hide Inv, Framed, Kept, PinnedFor;
    var s' := Do(s, Place(t, h));
    PlaceEffect(s, t, h);
    if s.pcs[t].op.Fetch? {
      PinnedFramed(s, s', t, h);
    } else {
      KeptFramed(s, s', t);
    }
  }

  lemma PlaceEffect(s: State, t: nat, h: nat)
    requires Inv(s) && Enabled(s, Place(t, h))
    ensures var s' := Do(s, Place(t, h));
      && |s'.pcs| == |s.pcs| && s'.pcs == s.pcs[t := Idle]
      && if s.pcs[t].op.Fetch? then PinnedFor(s, s', t, h) else Kept(s, s', t)
  {
    hide SetLock, SetDirty, Map, AddHandle, Inverse, FreeListed, Counted, HandlesHold, LocksOk, OwnerInv;
    assert PcOk(s, t);
    hide PcsOk, PcOk;
  }

  ghost predicate PinnedFor(s: State, s': State, t: nat, h: nat) {
    && t < |s.pcs| && (s.pcs[t].Deciding? || s.pcs[t].Placing?) && s.pcs[t].op.Fetch?
    && s'.pcs == s.pcs[t := Idle] && h !in s.handles && s'.user == s.user + {h}
    && s'.handles.Keys == s.handles.Keys + {h} && s'.handles[h].cover == s.pcs[t].cover
    && forall k :: k in s.handles ==> s'.handles[k] == s.handles[k]
  }

  lemma PinnedFramed(s: State, s': State, t: nat, h: nat)
    requires PinnedFor(s, s', t, h)
    ensures Framed(s, s', t)
  {
  }

  lemma UnpinFramed(s: State, t: nat)
    requires Inv(s) && Enabled(s, Unpin(t))
    ensures Framed(s, Do(s, Unpin(t)), t) && SameCall(s, Do(s, Unpin(t)), t, Unpin(t))
  {
    hide Inverse, FreeListed, Counted, HandlesHold, LocksOk, OwnerInv;
    assert PcOk(s, t);
    hide PcsOk;
    CountDrop(s.pins, s.slots, s.handles, s.pcs[t].h);
  }

  lemma DropFramed(s: State, t: nat, h: nat)
    requires Inv(s) && Enabled(s, Drop(t, h))
    ensures Framed(s, Do(s, Drop(t, h)), t) && SameCall(s, Do(s, Drop(t, h)), t, Drop(t, h))
  {
    hide Inverse, FreeListed, Counted, HandlesHold, LocksOk, OwnerInv, PcsOk;
  }

  lemma DoFramed(s: State, e: Event)
    requires Inv(s) && Enabled(s, e)
    ensures Framed(s, Do(s, e), e.t) && SameCall(s, Do(s, e), e.t, e)
  {
    hide Inv, Enabled, Do, Framed, SameCall;
    match e
    case Hit(t, h) => HitFramed(s, t, h);
    case Place(t, h) => PlaceFramed(s, t, h);
    case Unpin(t) => UnpinFramed(s, t);
    case Drop(t, h) => DropFramed(s, t, h);
    case _ =>
      QuietKept(s, e);
      KeptFramed(s, Do(s, e), e.t);
      QuietSameCall(s, e);
  }

  /** The rights of the threads that did not move are as good as before. */
  lemma OthersCovered(w: World, w': World, t: nat, u: nat)
    requires ClientInv(w) && t < |w.pool.pcs| && u < |w.pool.pcs| && u != t && Framed(w.pool, w'.pool, t)
    requires w'.readers == w.readers && SamePhase(w.phase, w'.phase)
    ensures CoveredAt(w', u)
  {
    hide Inverse, FreeListed, Counted, HandlesHold, LocksOk, OwnerInv, DirtyInv, NoLeaks, NewPin;
    assert CoveredAt(w, u) && PcOk(w.pool, u);
    hide PcsOk;
    assert HandleOf(w.pool.pcs[u]).Some? ==> HandleOf(w.pool.pcs[u]) != HandleOf(w.pool.pcs[t]);
    assert w'.pool.pcs[u] == w.pool.pcs[u];
    hide Distinct, UserCovered;
  }

  predicate SamePhase(p: Phase, p': Phase) {
    p' == p || (p.Flushing? && p'.Flushing? && p'.t == p.t)
  }

  lemma SelfCovered(w: World, e: Event, w': World)
    requires ClientInv(w) && Can(w, Pool(e)) && w'.readers == w.readers && SamePhase(w.phase, w'.phase)
    requires SameCall(w.pool, w'.pool, e.t, e) && Framed(w.pool, w'.pool, e.t)
    ensures CoveredAt(w', e.t)
  {
    hide Do, Inverse, FreeListed, Counted, HandlesHold, LocksOk, OwnerInv, DirtyInv, NoLeaks;
    assert CoveredAt(w, e.t) && PcOk(w.pool, e.t);
    assert e.Drop? ==> UserCovered(w, e.h);
    hide PcsOk, Enabled;
  }

  lemma PoolUsers(w: World, e: Event, w': World)
    requires ClientInv(w) && Can(w, Pool(e)) && w' == After(w, Pool(e))
    requires Framed(w.pool, w'.pool, e.t)
    ensures forall h :: h in w'.pool.user ==> UserCovered(w', h)
  {
    hide Do, Inverse, FreeListed, Counted, HandlesHold, LocksOk, OwnerInv, DirtyInv, NoLeaks;
    var s, s', t := w.pool, w'.pool, e.t;
    assert CoveredAt(w, t) && PcOk(s, t);
    hide Enabled, PcsOk;
    forall h | h in s'.user
      ensures UserCovered(w', h)
    {
      if h in s.user {
        assert UserCovered(w, h);
      } else {
        assert NewPin(s, s', t, h);
      }
    }
  }

  lemma PoolLeaksNothing(s: State, s': State, t: nat)
    requires NoLeaks(s) && Framed(s, s', t)
    ensures NoLeaks(s')
  {
    forall h | h in s'.handles
      ensures h in s'.user || exists u :: 0 <= u < |s'.pcs| && HandleOf(s'.pcs[u]) == Some(h)
    {
      if h !in s.handles {
        assert NewPin(s, s', t, h);
      } else if h !in s.user {
        var u :| 0 <= u < |s.pcs| && HandleOf(s.pcs[u]) == Some(h);
        assert HandleOf(s'.pcs[u]) == Some(h);
      }
    }
  }

  predicate Installs(pc: Pc) { (pc.Placing? || pc.Within?) && pc.op.Install? }

  /** Only publishing makes pages dirty. */
  lemma DirtyBefore(s: State, e: Event, id: PageId)
    requires Inv(s) && Enabled(s, e) && !e.BeginWrite? && !Installs(s.pcs[e.t])
    requires DirtyPage(Do(s, e), id)
    ensures DirtyPage(s, id)
  {
    if e.Save? || e.Place? || e.Update? {
      CleanedBefore(s, e, id);
    } else {
      hide SetLock, AddHandle, DropHandle, Inv;
    }
  }

  lemma CleanedBefore(s: State, e: Event, id: PageId)
    requires Inv(s) && Enabled(s, e) && (e.Save? || e.Place? || e.Update?) && !Installs(s.pcs[e.t])
    requires DirtyPage(Do(s, e), id)
    ensures DirtyPage(s, id)
  {
    hide FreeListed, Counted, HandlesHold, LocksOk, OwnerInv, Distinct, AddHandle, SetLock;
    assert PcOk(s, e.t);
    hide PcsOk;
  }

  /** The flushing thread keeps at its page until it is clean, gone from the cache, or the write failed. */
  lemma StillAttending(s: State, e: Event, id: PageId)
    requires Inv(s) && Enabled(s, e) && Attending(s, e.t, id) && DirtyPage(Do(s, e), id) && (e.Update? ==> e.ok)
    ensures Attending(Do(s, e), e.t, id)
  {
    hide FreeListed, Counted, LocksOk, OwnerInv, Distinct;
    assert PcOk(s, e.t);
    hide PcsOk;
  }

  lemma NobodyInstalls(w: World, t: nat)
    requires ClientInv(w) && !w.phase.Publishing? && t < |w.pool.pcs|
    ensures !Installs(w.pool.pcs[t])
  {
    hide Inv, DirtyInv, NoLeaks;
    assert CoveredAt(w, t);
  }

  lemma PoolDirty(w: World, e: Event, w': World)
    requires ClientInv(w) && Can(w, Pool(e)) && w' == After(w, Pool(e))
    requires Framed(w.pool, w'.pool, e.t)
    ensures DirtyInv(w')
  {
    hide Inv, NoLeaks, DirtyPage, Enabled, Do, ClientInv;
    assert DirtyInv(w) by { DirtyOf(w); }
    if w.phase.Flushing? || w.phase.Flushed? {
      NobodyInstalls(w, e.t);
      forall id | DirtyPage(w'.pool, id)
        ensures DirtyPage(w.pool, id)
      {
        InvOf(w);
        DirtyBefore(w.pool, e, id);
      }
    }
    if w.phase.Flushing? && w'.phase.Flushing? && !w'.phase.failed {
      forall id | DirtyPage(w'.pool, id)
        ensures id in w'.phase.left || Attending(w'.pool, w.phase.t, id)
      {
        InvOf(w);
        if e.t == w.phase.t && Attending(w.pool, e.t, id) {
          StillAttending(w.pool, e, id);
        } else if e.Start? {
          StartAttends(w, e);
        }
      }
    }
  }

  lemma StartAttends(w: World, e: Event)
    requires Can(w, Pool(e)) && e.Start?
    ensures e.op.Flush? ==> w.phase.Flushing? && w.phase.t == e.t && Attending(Do(w.pool, e), e.t, e.op.page)
  {
  }

  lemma DirtyOf(w: World)
    requires ClientInv(w)
    ensures DirtyInv(w)
  {
  }

  lemma InvOf(w: World)
    requires ClientInv(w)
    ensures Inv(w.pool)
  {
  }

  lemma FramedSize(s: State, s': State, t: nat)
    requires Framed(s, s', t)
    ensures t < |s.pcs| == |s'.pcs|
  {
  }

  lemma PoolKeeps(w: World, e: Event)
    requires ClientInv(w) && Can(w, Pool(e))
    ensures ClientInv(After(w, Pool(e)))
  {
    var w' := After(w, Pool(e));
    hide Inv, DirtyInv, NoLeaks, UserCovered, CoveredAt, Enabled, Do, Framed, SameCall;
    EventKeeps(w.pool, e);
    DoFramed(w.pool, e);
    FramedSize(w.pool, w'.pool, e.t);
    forall u | 0 <= u < |w'.pool.pcs|
      ensures CoveredAt(w', u)
    {
      if u == e.t {
        SelfCovered(w, e, w');
      } else {
        OthersCovered(w, w', e.t, u);
      }
    }
    PoolUsers(w, e, w');
    PoolLeaksNothing(w.pool, w'.pool, e.t);
    PoolDirty(w, e, w');
  }

  lemma LockKeeps(w: World, a: Act)
    requires ClientInv(w) && Can(w, a) && !a.Pool?
    ensures ClientInv(After(w, a))
  {
    hide Inv, NoLeaks, Enabled, Do;
    var w' := After(w, a);
    forall t | 0 <= t < |w.pool.pcs|
      ensures CoveredAt(w', t)
    {
      assert CoveredAt(w, t);
    }
    forall h | h in w.pool.user
      ensures UserCovered(w', h)
    {
      assert UserCovered(w, h);
    }
  }

  // ----- whole runs

  ghost predicate InitialWorld(w: World) { Initial(w.pool) && w.readers == {} && w.phase.Nobody? }

  ghost predicate Acts(w: World, w': World) {
    exists a :: Can(w, a) && w' == After(w, a)
  }

  ghost predicate IsUse(run: seq<World>) {
    |run| > 0 && InitialWorld(run[0]) && forall i {:trigger run[i]} :: 0 < i < |run| ==> Acts(run[i - 1], run[i])
  }

  lemma {:induction false} UseKeeps(run: seq<World>, i: nat)
    requires IsUse(run) && i < |run|
    ensures ClientInv(run[i])
  {
    hide Can, After, ClientInv;
    if i == 0 {
      InitialClient(run[0]);
    } else {
      UseKeeps(run, i - 1);
      var w, w' := run[i - 1], run[i];
      assert Acts(w, w');
      var a :| Can(w, a) && w' == After(w, a);
      if a.Pool? {
        PoolKeeps(w, a.e);
      } else {
        LockKeeps(w, a);
      }
    }
  }

  lemma InitialClient(w: World)
    requires InitialWorld(w)
    ensures ClientInv(w)
  {
    hide Inv, FreeListed;
    InitialInv(w.pool);
  }

  /**
   * In every interleaving of readers, writers and checkpoints: while a commit publishes, no frame is
   * pinned by another thread and no install is refused for lack of frames.
   */
  lemma PublishFindsFrames(run: seq<World>, i: nat, u: nat)
    requires IsUse(run) && i < |run| && run[i].phase.Publishing?
    ensures u < |run[i].pool.pcs| && u != run[i].phase.t ==> run[i].pool.pcs[u].Idle?
    ensures forall h :: h in run[i].pool.handles ==>
      run[i].phase.t < |run[i].pool.pcs| && HandleOf(run[i].pool.pcs[run[i].phase.t]) == Some(h)
    ensures !Enabled(run[i].pool, Exhaust(u))
  {
    hide IsUse, ClientInv, Enabled;
    UseKeeps(run, i);
    InstallFindsFrame(run[i], u);
    if u < |run[i].pool.pcs| {
      PublishAlone(run[i], u);
    }
    forall h | h in run[i].pool.handles
      ensures run[i].phase.t < |run[i].pool.pcs| && HandleOf(run[i].pool.pcs[run[i].phase.t]) == Some(h)
    {
      PublishHandle(run[i], h);
    }
  }

  /**
   * In every interleaving: once a checkpoint has flushed the shard, and until the log lock is released,
   * no cached page differs from the file, however many pages readers fetched and evicted meanwhile.
   */
  lemma FlushLeavesNothingDirty(run: seq<World>, i: nat, id: PageId)
    requires IsUse(run) && i < |run| && run[i].phase.Flushed?
    ensures !DirtyPage(run[i].pool, id)
  {
    hide IsUse, ClientInv;
    UseKeeps(run, i);
    DirtyOf(run[i]);
  }
}
