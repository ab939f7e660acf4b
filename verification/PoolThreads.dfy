/**
 * One shard of the page cache used by any number of threads at once. Every lock acquisition is its own
 * step, so all interleavings of fetch, install, flush, guards and drops are runs of this machine.
 */
module PoolThreads {
  import opened Pages
  import opened BufferPool
  import Clock

  datatype Option<T> = None | Some(value: T)

  datatype Op = Fetch(page: PageId) | Install(page: PageId) | Flush(page: PageId)

  /** Under which right the caller uses the pool; of no meaning to the pool itself. */
  datatype Cover = ByReader(reader: nat) | ByTxn | ByPublish | ByFlush

  /** A pin on a frame, and the page it was taken for. */
  datatype Handle = Handle(frame: nat, id: PageId, cover: Cover)

  datatype Holder = ByHandle(h: nat) | ByOp(t: nat)

  datatype Lock = Unlocked | Shared(handles: set<nat>) | Exclusive(holder: Holder)

  /** Where a thread stands in a pool operation. */
  datatype Pc =
    | Idle
    | Entering(op: Op, cover: Cover)               // about to lock the state
    | Deciding(op: Op, cover: Cover)               // has the state
    | Evicting(op: Op, cover: Cover, frame: nat)   // has the state, about to lock the victim
    | Saving(op: Op, cover: Cover, frame: nat)     // has the state and the victim's lock
    | Filling(op: Op, cover: Cover, frame: nat)    // has the state and an empty frame, about to lock it
    | Placing(op: Op, cover: Cover, frame: nat)    // has the state and that frame's lock
    | Updating(op: Op, h: nat)                     // has a handle, about to lock its frame
    | Within(op: Op, h: nat)                       // has a handle and its frame's lock
    | Leaving(h: nat)                              // about to lock the state to unpin
    | Unpinning(h: nat)                            // has the state

  datatype State = State(
    owner: Option<nat>,
    pcs: seq<Pc>,
    table: map<PageId, nat>,
    slots: seq<Slot>,
    pins: seq<nat>,
    free: seq<nat>,
    dirty: seq<bool>,
    locks: seq<Lock>,
    handles: map<nat, Handle>,
    user: set<nat>)         // the handles in the hands of callers

  datatype Event =
    | Start(t: nat, op: Op, cover: Cover)
    | TakeState(t: nat)
    | Hit(t: nat, h: nat)
    | Skip(t: nat)
    | Pop(t: nat)
    | Choose(t: nat, victim: nat)
    | Exhaust(t: nat)
    | LockVictim(t: nat)
    | Save(t: nat, ok: bool)
    | ReadFails(t: nat)
    | LockEmpty(t: nat)
    | Place(t: nat, h: nat)
    | LockHandle(t: nat)
    | Update(t: nat, ok: bool)
    | Unpin(t: nat)
    | Drop(t: nat, h: nat)
    | BeginRead(t: nat, h: nat)
    | EndRead(t: nat, h: nat)
    | BeginWrite(t: nat, h: nat)
    | EndWrite(t: nat, h: nat)

  predicate Has(pc: Pc) {
    pc.Deciding? || pc.Evicting? || pc.Saving? || pc.Filling? || pc.Placing? || pc.Unpinning?
  }

  /** The frame whose lock a state holder is waiting for. */
  predicate Wants(pc: Pc, f: nat) {
    (pc.Evicting? || pc.Filling?) && pc.frame == f
  }

  predicate LocksFrame(pc: Pc) { pc.Saving? || pc.Placing? }

  predicate NoGuard(l: Lock, h: nat) {
    match l
    case Unlocked => true
    case Shared(hs) => h !in hs
    case Exclusive(holder) => holder != ByHandle(h)
  }

  predicate At(s: State, t: nat) { t < |s.pcs| }

  ghost predicate Enabled(s: State, e: Event) {
    match e
    case Start(t, op, cover) => At(s, t) && s.pcs[t].Idle?
    case TakeState(t) => At(s, t) && (s.pcs[t].Entering? || s.pcs[t].Leaving?) && s.owner.None?
    case Hit(t, h) => At(s, t) && s.pcs[t].Deciding? && s.pcs[t].op.page in s.table && h !in s.handles
    case Skip(t) => At(s, t) && s.pcs[t].Deciding? && s.pcs[t].op.Flush? && s.pcs[t].op.page !in s.table
    case Pop(t) => Missing(s, t) && s.free != []
    case Choose(t, victim) => Missing(s, t) && s.free == [] && victim < |s.pins| && s.pins[victim] == 0
    case Exhaust(t) => Missing(s, t) && s.free == [] && Clock.AllPinned(s.pins)
    case LockVictim(t) =>
      At(s, t) && s.pcs[t].Evicting? && s.pcs[t].frame < |s.locks| && s.locks[s.pcs[t].frame].Unlocked?
    case Save(t, ok) => At(s, t) && s.pcs[t].Saving? && s.pcs[t].frame < |s.dirty| && (ok || s.dirty[s.pcs[t].frame])
    case ReadFails(t) => At(s, t) && s.pcs[t].Filling? && s.pcs[t].op.Fetch?
    case LockEmpty(t) =>
      At(s, t) && s.pcs[t].Filling? && s.pcs[t].frame < |s.locks| && s.locks[s.pcs[t].frame].Unlocked?
    case Place(t, h) => At(s, t) && s.pcs[t].Placing? && h !in s.handles
    case LockHandle(t) =>
      At(s, t) && s.pcs[t].Updating? && s.pcs[t].h in s.handles && FrameLock(s, s.pcs[t].h).Unlocked?
    case Update(t, ok) => At(s, t) && s.pcs[t].Within?
    case Unpin(t) => At(s, t) && s.pcs[t].Unpinning?
    case Drop(t, h) => At(s, t) && s.pcs[t].Idle? && h in s.user && NoGuard(FrameLock(s, h), h)
    case BeginRead(t, h) => At(s, t) && s.pcs[t].Idle? && h in s.user && h in s.handles && !FrameLock(s, h).Exclusive?
    case EndRead(t, h) =>
      At(s, t) && s.pcs[t].Idle? && h in s.user && FrameLock(s, h).Shared? && h in FrameLock(s, h).handles
    case BeginWrite(t, h) => At(s, t) && s.pcs[t].Idle? && h in s.user && h in s.handles && FrameLock(s, h).Unlocked?
    case EndWrite(t, h) => At(s, t) && s.pcs[t].Idle? && h in s.user && FrameLock(s, h) == Exclusive(ByHandle(h))
  }

  predicate Missing(s: State, t: nat) {
    At(s, t) && s.pcs[t].Deciding? && !s.pcs[t].op.Flush? && s.pcs[t].op.page !in s.table
  }

  function FrameLock(s: State, h: nat): Lock {
    if h in s.handles && s.handles[h].frame < |s.locks| then s.locks[s.handles[h].frame] else Unlocked
  }

  function Goto(s: State, t: nat, pc: Pc): State
    requires At(s, t)
  {
    s.(pcs := s.pcs[t := pc])
  }

  /** The thread's next point, with the state mutex released. */
  function Release(s: State, t: nat, pc: Pc): State
    requires At(s, t)
  {
    s.(pcs := s.pcs[t := pc], owner := None)
  }

  function SetLock(s: State, f: nat, l: Lock): (r: State)
    ensures r.pcs == s.pcs && r.owner == s.owner
    ensures r == s.(locks := r.locks) && |r.locks| == |s.locks|
  {
    if f < |s.locks| then s.(locks := s.locks[f := l]) else s
  }

  function SetDirty(s: State, f: nat, d: bool): (r: State)
    ensures r.pcs == s.pcs && r.owner == s.owner
    ensures r == s.(dirty := r.dirty) && |r.dirty| == |s.dirty|
  {
    if f < |s.dirty| then s.(dirty := s.dirty[f := d]) else s
  }

  function AddHandle(s: State, h: nat, k: Handle): (r: State)
    ensures r.pcs == s.pcs && r.owner == s.owner
    ensures r == s.(handles := r.handles, pins := r.pins) && (k.frame < |s.pins| ==> r.handles == s.handles[h := k])
  {
    if k.frame < |s.pins| then s.(handles := s.handles[h := k], pins := s.pins[k.frame := s.pins[k.frame] + 1]) else s
  }

  function DropHandle(s: State, h: nat): (r: State)
    ensures r.pcs == s.pcs && r.owner == s.owner
    ensures r == s.(handles := r.handles, pins := r.pins) && (r.handles == s.handles || r.handles == s.handles - {h})
  {
    if h in s.handles && s.handles[h].frame < |s.pins| && s.pins[s.handles[h].frame] > 0 then
      s.(handles := s.handles - {h}, pins := s.pins[s.handles[h].frame := s.pins[s.handles[h].frame] - 1])
    else s
  }

  function Map(s: State, f: nat, id: PageId): (r: State)
    ensures r.pcs == s.pcs && r.owner == s.owner
    ensures r == s.(table := r.table, slots := r.slots)
  {
    if f < |s.slots| then s.(table := s.table[id := f], slots := s.slots[f := Holding(id)]) else s
  }

  function Unmap(s: State, f: nat): (r: State)
    ensures r.pcs == s.pcs && r.owner == s.owner
    ensures r == s.(table := r.table, slots := r.slots)
  {
    if f < |s.slots| && s.slots[f].Holding? then
      s.(table := s.table - {s.slots[f].id}, slots := s.slots[f := Empty])
    else s
  }

  ghost function Do(s: State, e: Event): State
    requires Enabled(s, e)
  {
    match e
    case Start(t, op, cover) => Goto(s, t, Entering(op, cover))
    case TakeState(t) => DoTake(s, t)
    case Hit(t, h) => DoHit(s, t, h)
    case Skip(t) => Release(s, t, Idle)
    case Pop(t) =>
      Goto(s.(free := s.free[..|s.free| - 1]), t, Filling(s.pcs[t].op, s.pcs[t].cover, s.free[|s.free| - 1]))
    case Choose(t, victim) => Goto(s, t, Evicting(s.pcs[t].op, s.pcs[t].cover, victim))
    case Exhaust(t) => Release(s, t, Idle)
    case LockVictim(t) =>
      SetLock(Goto(s, t, Saving(s.pcs[t].op, s.pcs[t].cover, s.pcs[t].frame)), s.pcs[t].frame, Exclusive(ByOp(t)))
    case Save(t, ok) => DoSave(s, t, ok)
    case ReadFails(t) => Release(s.(free := s.free + [s.pcs[t].frame]), t, Idle)
    case LockEmpty(t) =>
      SetLock(Goto(s, t, Placing(s.pcs[t].op, s.pcs[t].cover, s.pcs[t].frame)), s.pcs[t].frame, Exclusive(ByOp(t)))
    case Place(t, h) => DoPlace(s, t, h)
    case LockHandle(t) =>
      var h := s.pcs[t].h;
      SetLock(Goto(s, t, Within(s.pcs[t].op, h)), s.handles[h].frame, Exclusive(ByHandle(h)))
    case Update(t, ok) => DoUpdate(s, t, ok)
    case Unpin(t) => Release(DropHandle(s, s.pcs[t].h), t, Idle)
    case Drop(t, h) => Goto(s, t, Leaving(h)).(user := s.user - {h})
    case BeginRead(t, h) =>
      var others := if FrameLock(s, h).Shared? then FrameLock(s, h).handles else {};
      SetLock(s, s.handles[h].frame, Shared(others + {h}))
    case EndRead(t, h) => DoEndRead(s, t, h)
    case BeginWrite(t, h) => SetDirty(SetLock(s, s.handles[h].frame, Exclusive(ByHandle(h))), s.handles[h].frame, true)
    case EndWrite(t, h) => SetLock(s, s.handles[h].frame, Unlocked)
  }

  ghost function DoTake(s: State, t: nat): State
    requires Enabled(s, TakeState(t))
  {
    var pc := s.pcs[t];
    Goto(s, t, if pc.Entering? then Deciding(pc.op, pc.cover) else Unpinning(pc.h)).(owner := Some(t))
  }

  /** Pin the cached frame and let go of the state; installs and flushes then wait for its lock. */
  ghost function DoHit(s: State, t: nat, h: nat): State
    requires Enabled(s, Hit(t, h))
  {
    var pc := s.pcs[t];
    var s' := AddHandle(s, h, Handle(s.table[pc.op.page], pc.op.page, pc.cover));
    if pc.op.Fetch? then Release(s', t, Idle).(user := s.user + {h})
    else Release(s', t, Updating(pc.op, h))
  }

  ghost function DoSave(s: State, t: nat, ok: bool): State
    requires Enabled(s, Save(t, ok))
  {
    var pc := s.pcs[t];
    var s' := SetLock(s, pc.frame, Unlocked);
    if ok then Goto(Unmap(SetDirty(s', pc.frame, false), pc.frame), t, Filling(pc.op, pc.cover, pc.frame))
    else Release(s', t, Idle)
  }

  ghost function DoPlace(s: State, t: nat, h: nat): State
    requires Enabled(s, Place(t, h))
  {
    var pc := s.pcs[t];
    var s' := Map(SetDirty(SetLock(s, pc.frame, Unlocked), pc.frame, pc.op.Install?), pc.frame, pc.op.page);
    if pc.op.Fetch? then
      Release(AddHandle(s', h, Handle(pc.frame, pc.op.page, pc.cover)), t, Idle).(user := s.user + {h})
    else Release(s', t, Idle)
  }

  ghost function DoUpdate(s: State, t: nat, ok: bool): State
    requires Enabled(s, Update(t, ok))
  {
    var pc := s.pcs[t];
    if pc.h !in s.handles then s
    else
      var f := s.handles[pc.h].frame;
      var s' := Goto(SetLock(s, f, Unlocked), t, Leaving(pc.h));
      if pc.op.Install? then SetDirty(s', f, true) else if ok then SetDirty(s', f, false) else s'
  }

  ghost function DoEndRead(s: State, t: nat, h: nat): State
    requires Enabled(s, EndRead(t, h))
  {
    var rest := FrameLock(s, h).handles - {h};
    SetLock(s, s.handles[h].frame, if rest == {} then Unlocked else Shared(rest))
  }
}
