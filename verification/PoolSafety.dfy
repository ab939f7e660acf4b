/** What every interleaving of pool operations keeps, and why the holder of the state never waits for a frame. */
module PoolSafety {
  import opened BufferPool
  import opened PoolThreads
  import Clock

  ghost function HandlesOn(handles: map<nat, Handle>, f: nat): set<nat> {
    set h | h in handles && handles[h].frame == f
  }

  /** Each pin count is the number of live handles. */
  ghost predicate Counted(pins: seq<nat>, slots: seq<Slot>, handles: map<nat, Handle>) {
    |pins| == |slots| && forall f :: 0 <= f < |pins| ==> pins[f] == |HandlesOn(handles, f)|
  }

  /** A handle's frame holds the page it was taken for. */
  ghost predicate HandlesHold(slots: seq<Slot>, handles: map<nat, Handle>) {
    forall h :: h in handles ==> handles[h].frame < |slots| && slots[handles[h].frame] == Holding(handles[h].id)
  }

  ghost function Taken(s: State): set<nat> {
    if s.owner.Some? && s.owner.value < |s.pcs| && (s.pcs[s.owner.value].Filling? || s.pcs[s.owner.value].Placing?) then
      {s.pcs[s.owner.value].frame}
    else {}
  }

  ghost predicate Shape(s: State) {
    |s.slots| == |s.pins| == |s.dirty| == |s.locks| && |s.slots| > 0
  }

  ghost predicate OwnerInv(s: State) {
    && (s.owner.Some? ==> s.owner.value < |s.pcs|)
    && forall t :: 0 <= t < |s.pcs| ==> (Has(s.pcs[t]) <==> s.owner == Some(t))
  }

  ghost predicate OpHandle(s: State, h: nat) { h in s.handles && h !in s.user }

  ghost predicate Waits(s: State, pc: Pc)
    requires pc.Evicting? || pc.Saving? || pc.Filling? || pc.Placing?
  {
    pc.frame < |s.slots| && |s.locks| == |s.slots| == |s.pins| && !pc.op.Flush? && pc.op.page !in s.table
  }

  ghost predicate PcOk(s: State, t: nat)
    requires t < |s.pcs|
  {
    var pc := s.pcs[t];
    match pc
    case Idle => true
    case Entering(_, _) => true
    case Deciding(_, _) => true
    case Evicting(_, _, f) => Waits(s, pc) && s.slots[f].Holding? && s.pins[f] == 0
    case Saving(_, _, f) => Waits(s, pc) && s.slots[f].Holding? && s.pins[f] == 0 && s.locks[f] == Exclusive(ByOp(t))
    case Filling(_, _, f) => Waits(s, pc) && s.slots[f].Empty?
    case Placing(_, _, f) => Waits(s, pc) && s.slots[f].Empty? && s.locks[f] == Exclusive(ByOp(t))
    case Updating(op, h) => OpHandle(s, h) && !op.Fetch? && s.handles[h].id == op.page && NoGuard(FrameLock(s, h), h)
    case Within(op, h) =>
      OpHandle(s, h) && !op.Fetch? && s.handles[h].id == op.page && FrameLock(s, h) == Exclusive(ByHandle(h))
    case Leaving(h) => OpHandle(s, h) && NoGuard(FrameLock(s, h), h)
    case Unpinning(h) => OpHandle(s, h) && NoGuard(FrameLock(s, h), h)
  }

  ghost predicate PcsOk(s: State) {
    forall t :: 0 <= t < |s.pcs| ==> PcOk(s, t)
  }

  /** A lock is held through a handle on that very frame, or by the state holder working on it. */
  ghost predicate LockOk(s: State, f: nat)
    requires f < |s.locks|
  {
    match s.locks[f]
    case Unlocked => true
    case Shared(hs) => hs != {} && forall h :: h in hs ==> h in s.handles && s.handles[h].frame == f
    case Exclusive(ByHandle(h)) => h in s.handles && s.handles[h].frame == f
    case Exclusive(ByOp(t)) => t < |s.pcs| && LocksFrame(s.pcs[t]) && s.pcs[t].frame == f
  }

  ghost predicate LocksOk(s: State) {
    forall f :: 0 <= f < |s.locks| ==> LockOk(s, f)
  }

  function HandleOf(pc: Pc): Option<nat> {
    if pc.Updating? || pc.Within? || pc.Leaving? || pc.Unpinning? then Some(pc.h) else None
  }

  /** No two operations share a handle. */
  ghost predicate Distinct(s: State) {
    && s.user <= s.handles.Keys
    && forall t, u :: 0 <= t < u < |s.pcs| && HandleOf(s.pcs[t]).Some? ==> HandleOf(s.pcs[t]) != HandleOf(s.pcs[u])
  }

  ghost predicate Inv(s: State) {
    && Shape(s) && OwnerInv(s)
    && Inverse(s.table, s.slots) && FreeListed(s.free, s.slots, Taken(s))
    && Counted(s.pins, s.slots, s.handles) && HandlesHold(s.slots, s.handles)
    && PcsOk(s) && LocksOk(s) && Distinct(s)
  }

  // ----- counting handles

  lemma NoneOn(pins: seq<nat>, slots: seq<Slot>, handles: map<nat, Handle>, f: nat)
    requires Counted(pins, slots, handles) && f < |pins|
    ensures pins[f] == 0 <==> forall h :: h in handles ==> handles[h].frame != f
  {
    if pins[f] == 0 {
      forall h | h in handles
        ensures handles[h].frame != f
      {
        assert h !in HandlesOn(handles, f);
      }
    } else {
      var h :| h in HandlesOn(handles, f);
      assert handles[h].frame == f;
    }
  }

  lemma OneMore(handles: map<nat, Handle>, h: nat, k: Handle, f: nat)
    requires h !in handles
    ensures |HandlesOn(handles[h := k], f)| == |HandlesOn(handles, f)| + if k.frame == f then 1 else 0
  {
    assert HandlesOn(handles[h := k], f) == HandlesOn(handles, f) + if k.frame == f then {h} else {};
  }

  lemma OneLess(handles: map<nat, Handle>, h: nat, f: nat)
    requires h in handles
    ensures |HandlesOn(handles, f)| == |HandlesOn(handles - {h}, f)| + if handles[h].frame == f then 1 else 0
  {
    assert HandlesOn(handles, f) == HandlesOn(handles - {h}, f) + if handles[h].frame == f then {h} else {};
  }

  lemma CountAdd(pins: seq<nat>, slots: seq<Slot>, handles: map<nat, Handle>, h: nat, k: Handle)
    requires Counted(pins, slots, handles) && HandlesHold(slots, handles)
    requires h !in handles && k.frame < |slots| && slots[k.frame] == Holding(k.id)
    ensures Counted(pins[k.frame := pins[k.frame] + 1], slots, handles[h := k]) && HandlesHold(slots, handles[h := k])
  {
    hide HandlesOn;
    forall f: nat | f < |pins|
      ensures |HandlesOn(handles[h := k], f)| == |HandlesOn(handles, f)| + if k.frame == f then 1 else 0
    {
      OneMore(handles, h, k, f);
    }
  }

  lemma CountDrop(pins: seq<nat>, slots: seq<Slot>, handles: map<nat, Handle>, h: nat)
    requires Counted(pins, slots, handles) && HandlesHold(slots, handles) && h in handles
    ensures handles[h].frame < |pins| && pins[handles[h].frame] > 0
    ensures Counted(pins[handles[h].frame := pins[handles[h].frame] - 1], slots, handles - {h})
    ensures HandlesHold(slots, handles - {h})
  {
    hide HandlesOn;
    forall f: nat | f < |pins|
      ensures |HandlesOn(handles, f)| == |HandlesOn(handles - {h}, f)| + if handles[h].frame == f then 1 else 0
    {
      OneLess(handles, h, f);
    }
  }

  /** Putting a page into an unpinned frame, or taking it out, concerns no handle. */
  lemma CountElsewhere(pins: seq<nat>, slots: seq<Slot>, handles: map<nat, Handle>, f: nat, slot: Slot)
    requires Counted(pins, slots, handles) && HandlesHold(slots, handles) && f < |slots| && pins[f] == 0
    ensures Counted(pins, slots[f := slot], handles) && HandlesHold(slots[f := slot], handles)
  {
    NoneOn(pins, slots, handles, f);
  }

  lemma EmptyHasNone(pins: seq<nat>, slots: seq<Slot>, handles: map<nat, Handle>, f: nat)
    requires Counted(pins, slots, handles) && HandlesHold(slots, handles) && f < |slots| && slots[f].Empty?
    ensures pins[f] == 0
  {
    NoneOn(pins, slots, handles, f);
  }

  // ----- lock-order safety

  /** The holder of the state that wants a frame finds its lock free. */
  lemma NeverBlocked(s: State, t: nat, f: nat)
    requires Inv(s) && t < |s.pcs| && s.owner == Some(t) && Wants(s.pcs[t], f)
    ensures f < |s.locks| && s.locks[f].Unlocked?
  {
    hide Counted, HandlesHold, HandlesOn, Inverse, FreeListed, Distinct;
    assert PcOk(s, t);
    if s.slots[f].Empty? {
      EmptyHasNone(s.pins, s.slots, s.handles, f);
    }
    NoneOn(s.pins, s.slots, s.handles, f);
    assert LockOk(s, f);
  }

  // ----- what a step of one thread leaves to the others

  /** Nothing about an operation's handle `h` has changed that the operation could notice. */
  ghost predicate SameFor(s: State, s': State, h: nat) {
    && (h in s.handles ==> h in s'.handles && s'.handles[h] == s.handles[h])
    && h !in s'.user
    && (NoGuard(FrameLock(s, h), h) ==> NoGuard(FrameLock(s', h), h))
    && (FrameLock(s, h) == Exclusive(ByHandle(h)) ==> FrameLock(s', h) == Exclusive(ByHandle(h)))
  }

  /** Thread `t` moved; everything it did not touch stays as it was. */
  ghost predicate Moved(s: State, s': State, t: nat) {
    && |s'.pcs| == |s.pcs| && t < |s.pcs| && (forall u :: 0 <= u < |s.pcs| && u != t ==> s'.pcs[u] == s.pcs[u])
    && (s.owner == Some(t) || Aside(s, s'))
    && (forall h: nat :: OpHandle(s, h) && Some(h) != HandleOf(s.pcs[t]) ==> SameFor(s, s', h))
  }

  /** What a thread without the state may change. */
  ghost predicate Aside(s: State, s': State) {
    && s'.slots == s.slots && s'.table == s.table && s'.pins == s.pins
    && |s'.locks| == |s.locks| == |s.pins| == |s.slots|
    && forall f :: 0 <= f < |s.locks| && s.pins[f] == 0 ==> s'.locks[f] == s.locks[f]
  }

  lemma OtherOk(s: State, s': State, t: nat, u: nat)
    requires Moved(s, s', t) && u < |s.pcs| && u != t && PcOk(s, u) && Distinct(s) && OwnerInv(s)
    requires Counted(s.pins, s.slots, s.handles) && HandlesHold(s.slots, s.handles)
    ensures PcOk(s', u)
  {
    hide Counted, HandlesHold, FrameLock, NoGuard;
    var pc := s.pcs[u];
    if pc.Filling? || pc.Placing? {
      EmptyHasNone(s.pins, s.slots, s.handles, pc.frame);
    }
    if HandleOf(pc).Some? {
      assert SameFor(s, s', pc.h);
    }
  }

  lemma OthersOk(s: State, s': State, t: nat)
    requires Inv(s) && Moved(s, s', t) && PcOk(s', t)
    ensures PcsOk(s')
  {
    hide Moved, PcOk, OwnerInv, Distinct, Inverse, FreeListed, Counted, HandlesHold, LocksOk;
    assert |s'.pcs| == |s.pcs| by { MovedSize(s, s', t); }
    forall u | 0 <= u < |s.pcs| && u != t
      ensures PcOk(s', u)
    {
      OtherOk(s, s', t, u);
    }
  }

  lemma MovedSize(s: State, s': State, t: nat)
    requires Moved(s, s', t)
    ensures |s'.pcs| == |s.pcs|
  {
  }

  lemma DistinctMoves(s: State, s': State, t: nat)
    requires Inv(s) && Moved(s, s', t) && s'.user <= s'.handles.Keys && NewHandle(s, s', t)
    ensures Distinct(s')
  {
    hide Inverse, FreeListed, Counted, HandlesHold, LocksOk, OwnerInv, SameFor, Aside;
    forall u, v | 0 <= u < v < |s'.pcs| && HandleOf(s'.pcs[u]).Some?
      ensures HandleOf(s'.pcs[u]) != HandleOf(s'.pcs[v])
    {
      assert PcOk(s, u) && PcOk(s, v);
    }
  }

  /** A handle a thread starts working on is new or comes from a caller's hands. */
  ghost predicate NewHandle(s: State, s': State, t: nat) {
    && t < |s.pcs| && t < |s'.pcs|
    && var o := HandleOf(s'.pcs[t]);
      o.None? || o == HandleOf(s.pcs[t]) || o.value !in s.handles || o.value in s.user
  }

  ghost predicate OwnerMoves(s: State, s': State, t: nat) {
    && t < |s.pcs| && t < |s'.pcs|
    && if Has(s'.pcs[t]) then s'.owner == Some(t) && (s.owner == Some(t) || s.owner.None?)
       else if Has(s.pcs[t]) then s'.owner.None?
       else s'.owner == s.owner
  }

  lemma OwnerKept(s: State, s': State, t: nat)
    requires OwnerInv(s) && Moved(s, s', t) && OwnerMoves(s, s', t)
    ensures OwnerInv(s')
  {
    hide SameFor, Aside;
  }

  /** Only the lock of frame `f` changes, if any; a handle that goes away holds no lock. */
  ghost predicate LockMoves(s: State, s': State, t: nat, f: int) {
    && |s'.locks| == |s.locks| && (forall g :: 0 <= g < |s.locks| && g != f ==> s'.locks[g] == s.locks[g])
    && (0 <= f < |s.locks| ==> LockOk(s', f))
    && t < |s.pcs| && (LocksFrame(s.pcs[t]) ==> s.pcs[t].frame == f)
    && forall h :: h in s.handles ==>
         || (h in s'.handles && s'.handles[h] == s.handles[h])
         || (HandleOf(s.pcs[t]) == Some(h) && NoGuard(FrameLock(s, h), h))
  }

  lemma LocksKept(s: State, s': State, t: nat, f: int)
    requires LocksOk(s) && Moved(s, s', t) && LockMoves(s, s', t, f)
    ensures LocksOk(s')
  {
    hide SameFor, Aside;
    forall g | 0 <= g < |s'.locks|
      ensures LockOk(s', g)
    {
      assert LockOk(s, g);
    }
  }

  /** What a step has to get right. */
  lemma StepKeeps(s: State, s': State, t: nat, f: int)
    requires Inv(s) && Shape(s') && Moved(s, s', t) && PcOk(s', t) && OwnerMoves(s, s', t) && LockMoves(s, s', t, f)
    requires NewHandle(s, s', t) && s'.user <= s'.handles.Keys
    requires Inverse(s'.table, s'.slots) && FreeListed(s'.free, s'.slots, Taken(s'))
    requires Counted(s'.pins, s'.slots, s'.handles) && HandlesHold(s'.slots, s'.handles)
    ensures Inv(s')
  {
    hide Inverse, FreeListed, Counted, HandlesHold, OwnerInv, LocksOk, Distinct, PcsOk, Moved, OwnerMoves, LockMoves,
      NewHandle, Shape;
    OthersOk(s, s', t);
    DistinctMoves(s, s', t);
    OwnerKept(s, s', t);
    LocksKept(s, s', t, f);
  }

  // ----- every step keeps the invariant

  lemma StartKeeps(s: State, t: nat, op: Op, cover: Cover)
    requires Inv(s) && Enabled(s, Start(t, op, cover))
    ensures Inv(Do(s, Start(t, op, cover)))
  {
    hide Counted, HandlesHold, Inverse, FreeListed;
    StepKeeps(s, Do(s, Start(t, op, cover)), t, -1);
  }

  lemma TakeStateKeeps(s: State, t: nat)
    requires Inv(s) && Enabled(s, TakeState(t))
    ensures Inv(Do(s, TakeState(t)))
  {
    hide Counted, HandlesHold, Inverse, FreeListed;
    assert PcOk(s, t);
    hide PcsOk, LocksOk, HandlesOn;
    StepKeeps(s, Do(s, TakeState(t)), t, -1);
  }

  lemma HitKeeps(s: State, t: nat, h: nat)
    requires Inv(s) && Enabled(s, Hit(t, h))
    ensures Inv(Do(s, Hit(t, h)))
  {
    hide Counted, HandlesHold, Inverse, FreeListed;
    var page := s.pcs[t].op.page;
    TableMeans(s.table, s.slots, page);
    CountAdd(s.pins, s.slots, s.handles, h, Handle(s.table[page], page, s.pcs[t].cover));
    assert LockOk(s, s.table[page]);
    StepKeeps(s, Do(s, Hit(t, h)), t, -1);
  }

  lemma SkipKeeps(s: State, t: nat)
    requires Inv(s) && Enabled(s, Skip(t))
    ensures Inv(Do(s, Skip(t)))
  {
    hide Counted, HandlesHold, Inverse, FreeListed;
    StepKeeps(s, Do(s, Skip(t)), t, -1);
  }

  lemma PopKeeps(s: State, t: nat)
    requires Inv(s) && Enabled(s, Pop(t))
    ensures Inv(Do(s, Pop(t)))
  {
    hide Counted, HandlesHold, Inverse, FreeListed;
    PopFree(s.free, s.slots);
    StepKeeps(s, Do(s, Pop(t)), t, -1);
  }

  lemma ChooseKeeps(s: State, t: nat, victim: nat)
    requires Inv(s) && Enabled(s, Choose(t, victim))
    ensures Inv(Do(s, Choose(t, victim)))
  {
    hide Counted, HandlesHold, Inverse, FreeListed;
    NothingFree(s.free, s.slots);
    StepKeeps(s, Do(s, Choose(t, victim)), t, -1);
  }

  lemma NothingFree(free: seq<nat>, slots: seq<Slot>)
    requires FreeListed(free, slots, {}) && free == []
    ensures forall f :: 0 <= f < |slots| ==> slots[f].Holding?
  {
  }

  lemma ExhaustKeeps(s: State, t: nat)
    requires Inv(s) && Enabled(s, Exhaust(t))
    ensures Inv(Do(s, Exhaust(t)))
  {
    hide Counted, HandlesHold, Inverse, FreeListed;
    StepKeeps(s, Do(s, Exhaust(t)), t, -1);
  }

  lemma LockVictimKeeps(s: State, t: nat)
    requires Inv(s) && Enabled(s, LockVictim(t))
    ensures Inv(Do(s, LockVictim(t)))
  {
    hide Counted, HandlesHold, Inverse, FreeListed;
    assert PcOk(s, t);
    hide PcsOk, LocksOk, HandlesOn;
    NoneOn(s.pins, s.slots, s.handles, s.pcs[t].frame);
    StepKeeps(s, Do(s, LockVictim(t)), t, s.pcs[t].frame);
  }

  lemma SavedKeeps(s: State, t: nat)
    requires Inv(s) && Enabled(s, Save(t, true))
    ensures Inv(Do(s, Save(t, true)))
  {
    hide Counted, HandlesHold, Inverse, FreeListed;
    assert PcOk(s, t);
    hide PcsOk, LocksOk;
    var f := s.pcs[t].frame;
    NoneOn(s.pins, s.slots, s.handles, f);
    Unmapped(s.table, s.slots, s.free, f, s.slots[f].id);
    CountElsewhere(s.pins, s.slots, s.handles, f, Empty);
    StepKeeps(s, Do(s, Save(t, true)), t, f);
  }

  lemma SaveFailsKeeps(s: State, t: nat)
    requires Inv(s) && Enabled(s, Save(t, false))
    ensures Inv(Do(s, Save(t, false)))
  {
    hide Counted, HandlesHold, Inverse, FreeListed;
    assert PcOk(s, t);
    hide PcsOk, LocksOk;
    NoneOn(s.pins, s.slots, s.handles, s.pcs[t].frame);
    StepKeeps(s, Do(s, Save(t, false)), t, s.pcs[t].frame);
  }

  lemma ReadFailsKeeps(s: State, t: nat)
    requires Inv(s) && Enabled(s, ReadFails(t))
    ensures Inv(Do(s, ReadFails(t)))
  {
    hide Counted, HandlesHold, Inverse, FreeListed;
    PushFree(s.free, s.slots, s.pcs[t].frame);
    StepKeeps(s, Do(s, ReadFails(t)), t, -1);
  }

  lemma LockEmptyKeeps(s: State, t: nat)
    requires Inv(s) && Enabled(s, LockEmpty(t))
    ensures Inv(Do(s, LockEmpty(t)))
  {
    hide Counted, HandlesHold, Inverse, FreeListed;
    assert PcOk(s, t);
    hide PcsOk, LocksOk, HandlesOn;
    EmptyHasNone(s.pins, s.slots, s.handles, s.pcs[t].frame);
    NoneOn(s.pins, s.slots, s.handles, s.pcs[t].frame);
    StepKeeps(s, Do(s, LockEmpty(t)), t, s.pcs[t].frame);
  }

  lemma PlaceFetchedIs(s: State, t: nat, h: nat)
    requires Inv(s) && Enabled(s, Place(t, h)) && s.pcs[t].op.Fetch?
    ensures var pc := s.pcs[t];
      && PcOk(s, t) && pc.frame < |s.locks|
      && Do(s, Place(t, h)) == State(None, s.pcs[t := Idle], s.table[pc.op.page := pc.frame],
                                     s.slots[pc.frame := Holding(pc.op.page)],
           s.pins[pc.frame := s.pins[pc.frame] + 1], s.free, s.dirty[pc.frame := false], s.locks[pc.frame := Unlocked],
           s.handles[h := Handle(pc.frame, pc.op.page, pc.cover)], s.user + {h})
  {
    hide Counted, HandlesHold, Inverse, FreeListed, LocksOk, Distinct, OwnerInv;
    assert PcOk(s, t);
    hide PcsOk;
  }

  lemma PlaceFetchedKeeps(s: State, t: nat, h: nat)
    requires Inv(s) && Enabled(s, Place(t, h)) && s.pcs[t].op.Fetch?
    ensures Inv(Do(s, Place(t, h)))
  {
    hide Counted, HandlesHold, Inverse, FreeListed, PcsOk, LocksOk, Do;
    PlaceFetchedIs(s, t, h);
    var f, page, s' := s.pcs[t].frame, s.pcs[t].op.page, Do(s, Place(t, h));
    EmptyHasNone(s.pins, s.slots, s.handles, f);
    NoneOn(s.pins, s.slots, s.handles, f);
    Mapped(s.table, s.slots, s.free, f, page);
    CountElsewhere(s.pins, s.slots, s.handles, f, Holding(page));
    CountAdd(s.pins, s.slots[f := Holding(page)], s.handles, h, Handle(f, page, s.pcs[t].cover));
    StepKeeps(s, s', t, f);
  }

  lemma PlaceInstalledKeeps(s: State, t: nat, h: nat)
    requires Inv(s) && Enabled(s, Place(t, h)) && !s.pcs[t].op.Fetch?
    ensures Inv(Do(s, Place(t, h)))
  {
    hide Counted, HandlesHold, Inverse, FreeListed;
    assert PcOk(s, t);
    hide PcsOk, LocksOk;
    var f, page := s.pcs[t].frame, s.pcs[t].op.page;
    EmptyHasNone(s.pins, s.slots, s.handles, f);
    NoneOn(s.pins, s.slots, s.handles, f);
    Mapped(s.table, s.slots, s.free, f, page);
    CountElsewhere(s.pins, s.slots, s.handles, f, Holding(page));
    StepKeeps(s, Do(s, Place(t, h)), t, f);
  }

  lemma PlaceKeeps(s: State, t: nat, h: nat)
    requires Inv(s) && Enabled(s, Place(t, h))
    ensures Inv(Do(s, Place(t, h)))
  {
    hide Inv, Do;
    if s.pcs[t].op.Fetch? {
      PlaceFetchedKeeps(s, t, h);
    } else {
      PlaceInstalledKeeps(s, t, h);
    }
  }

  lemma LockHandleKeeps(s: State, t: nat)
    requires Inv(s) && Enabled(s, LockHandle(t))
    ensures Inv(Do(s, LockHandle(t)))
  {
    hide Counted, Inverse, FreeListed;
    assert PcOk(s, t);
    hide PcsOk, LocksOk, HandlesOn;
    var f := s.handles[s.pcs[t].h].frame;
    NoneOn(s.pins, s.slots, s.handles, f);
    StepKeeps(s, Do(s, LockHandle(t)), t, f);
  }

  lemma UpdateKeeps(s: State, t: nat, ok: bool)
    requires Inv(s) && Enabled(s, Update(t, ok))
    ensures Inv(Do(s, Update(t, ok)))
  {
    hide Counted, Inverse, FreeListed, SetDirty;
    assert PcOk(s, t);
    hide PcsOk, LocksOk, HandlesOn;
    var f := s.handles[s.pcs[t].h].frame;
    NoneOn(s.pins, s.slots, s.handles, f);
    StepKeeps(s, Do(s, Update(t, ok)), t, f);
  }

  lemma UnpinKeeps(s: State, t: nat)
    requires Inv(s) && Enabled(s, Unpin(t))
    ensures Inv(Do(s, Unpin(t)))
  {
    hide Counted, HandlesHold, Inverse, FreeListed;
    assert PcOk(s, t);
    hide PcsOk, LocksOk, HandlesOn;
    CountDrop(s.pins, s.slots, s.handles, s.pcs[t].h);
    StepKeeps(s, Do(s, Unpin(t)), t, -1);
  }

  lemma DropKeeps(s: State, t: nat, h: nat)
    requires Inv(s) && Enabled(s, Drop(t, h))
    ensures Inv(Do(s, Drop(t, h)))
  {
    hide Counted, HandlesHold, Inverse, FreeListed;
    StepKeeps(s, Do(s, Drop(t, h)), t, -1);
  }

  lemma BeginReadKeeps(s: State, t: nat, h: nat)
    requires Inv(s) && Enabled(s, BeginRead(t, h))
    ensures Inv(Do(s, BeginRead(t, h)))
  {
    hide Counted, Inverse, FreeListed;
    var f := s.handles[h].frame;
    assert LockOk(s, f);
    hide PcsOk, LocksOk, HandlesOn;
    NoneOn(s.pins, s.slots, s.handles, f);
    StepKeeps(s, Do(s, BeginRead(t, h)), t, f);
  }

  lemma EndReadKeeps(s: State, t: nat, h: nat)
    requires Inv(s) && Enabled(s, EndRead(t, h))
    ensures Inv(Do(s, EndRead(t, h)))
  {
    hide Counted, Inverse, FreeListed;
    var f := s.handles[h].frame;
    assert LockOk(s, f);
    hide PcsOk, LocksOk, HandlesOn;
    NoneOn(s.pins, s.slots, s.handles, f);
    StepKeeps(s, Do(s, EndRead(t, h)), t, f);
  }

  lemma BeginWriteKeeps(s: State, t: nat, h: nat)
    requires Inv(s) && Enabled(s, BeginWrite(t, h))
    ensures Inv(Do(s, BeginWrite(t, h)))
  {
    hide Counted, Inverse, FreeListed;
    var f := s.handles[h].frame;
    NoneOn(s.pins, s.slots, s.handles, f);
    StepKeeps(s, Do(s, BeginWrite(t, h)), t, f);
  }

  lemma EndWriteKeeps(s: State, t: nat, h: nat)
    requires Inv(s) && Enabled(s, EndWrite(t, h))
    ensures Inv(Do(s, EndWrite(t, h)))
  {
    hide Counted, Inverse, FreeListed;
    var f := s.handles[h].frame;
    NoneOn(s.pins, s.slots, s.handles, f);
    StepKeeps(s, Do(s, EndWrite(t, h)), t, f);
  }

  lemma EventKeeps(s: State, e: Event)
    requires Inv(s) && Enabled(s, e)
    ensures Inv(Do(s, e))
  {
    hide Inv, Enabled, Do;
    match e
    case Start(t, op, cover) => StartKeeps(s, t, op, cover);
    case TakeState(t) => TakeStateKeeps(s, t);
    case Hit(t, h) => HitKeeps(s, t, h);
    case Skip(t) => SkipKeeps(s, t);
    case Pop(t) => PopKeeps(s, t);
    case Choose(t, victim) => ChooseKeeps(s, t, victim);
    case Exhaust(t) => ExhaustKeeps(s, t);
    case LockVictim(t) => LockVictimKeeps(s, t);
    case Save(t, ok) => if ok { SavedKeeps(s, t); } else { SaveFailsKeeps(s, t); }
    case ReadFails(t) => ReadFailsKeeps(s, t);
    case LockEmpty(t) => LockEmptyKeeps(s, t);
    case Place(t, h) => PlaceKeeps(s, t, h);
    case LockHandle(t) => LockHandleKeeps(s, t);
    case Update(t, ok) => UpdateKeeps(s, t, ok);
    case Unpin(t) => UnpinKeeps(s, t);
    case Drop(t, h) => DropKeeps(s, t, h);
    case BeginRead(t, h) => BeginReadKeeps(s, t, h);
    case EndRead(t, h) => EndReadKeeps(s, t, h);
    case BeginWrite(t, h) => BeginWriteKeeps(s, t, h);
    case EndWrite(t, h) => EndWriteKeeps(s, t, h);
  }

  // ----- whole runs

  ghost predicate Initial(s: State) {
    && Shape(s) && s.owner.None? && s.table == map[] && s.handles == map[] && s.user == {}
    && (forall t :: 0 <= t < |s.pcs| ==> s.pcs[t].Idle?)
    && (forall f :: 0 <= f < |s.slots| ==> s.slots[f].Empty? && s.pins[f] == 0 && s.locks[f].Unlocked?)
    && FreeListed(s.free, s.slots, {})
  }

  ghost predicate Step(s: State, s': State) {
    exists e :: Enabled(s, e) && s' == Do(s, e)
  }

  ghost predicate IsRun(run: seq<State>) {
    |run| > 0 && Initial(run[0]) && forall i {:trigger run[i]} :: 0 < i < |run| ==> Step(run[i - 1], run[i])
  }

  lemma InitialInv(s: State)
    requires Initial(s)
    ensures Inv(s)
  {
    hide FreeListed;
    assert forall f :: 0 <= f < |s.slots| ==> HandlesOn(s.handles, f) == {};
  }

  lemma {:induction false} RunKeeps(run: seq<State>, i: nat)
    requires IsRun(run) && i < |run|
    ensures Inv(run[i])
  {
    hide Inv, Initial, Enabled, Do;
    if i == 0 {
      InitialInv(run[0]);
    } else {
      RunKeeps(run, i - 1);
      var s, s' := run[i - 1], run[i];
      assert Step(s, s');
      var e :| Enabled(s, e) && s' == Do(s, e);
      EventKeeps(s, e);
    }
  }

  /**
   * In every interleaving: whoever holds the state and wants a frame finds that frame's lock free.
   * So the holder of the state never waits for another thread.
   */
  lemma LockOrder(run: seq<State>, i: nat, t: nat, f: nat)
    requires IsRun(run) && i < |run| && t < |run[i].pcs| && run[i].owner == Some(t) && Wants(run[i].pcs[t], f)
    ensures f < |run[i].locks| && run[i].locks[f].Unlocked?
  {
    hide IsRun, Inv;
    RunKeeps(run, i);
    NeverBlocked(run[i], t, f);
  }

  /**
   * In every interleaving: table and frames are inverse, the free list is the unmapped frames, pins count
   * the live handles, and a frame someone has locked through a handle is pinned and still holds its page.
   */
  lemma Bookkeeping(run: seq<State>, i: nat)
    requires IsRun(run) && i < |run|
    ensures Inverse(run[i].table, run[i].slots)
    ensures run[i].owner.None? ==> FreeListed(run[i].free, run[i].slots, {})
    ensures Counted(run[i].pins, run[i].slots, run[i].handles) && HandlesHold(run[i].slots, run[i].handles)
    ensures forall f :: 0 <= f < |run[i].slots| && run[i].slots[f].Empty? ==> f < |run[i].pins| && run[i].pins[f] == 0
  {
    hide IsRun, Counted, HandlesHold, Inverse, FreeListed, OwnerInv, PcsOk, LocksOk, Distinct;
    RunKeeps(run, i);
    var s := run[i];
    forall f | 0 <= f < |s.slots| && s.slots[f].Empty?
      ensures f < |s.pins| && s.pins[f] == 0
    {
      EmptyHasNone(s.pins, s.slots, s.handles, f);
    }
  }

  /** How many steps of its own the holder of the state has at most before letting go of it. */
  function Left(pc: Pc): nat {
    match pc
    case Deciding(_, _) => 6
    case Evicting(_, _, _) => 5
    case Saving(_, _, _) => 4
    case Filling(_, _, _) => 3
    case Placing(_, _, _) => 2
    case Unpinning(_) => 1
    case _ => 0
  }

  lemma FreshHandle(handles: set<nat>) returns (h: nat)
    ensures h !in handles && forall k :: k in handles ==> k < h
  {
    h := 0;
    var rest := handles;
    while rest != {}
      invariant rest <= handles && forall k :: k in handles && k !in rest ==> k < h
      decreases |rest|
    {
      var k :| k in rest;
      h := if k < h then h else k + 1;
      rest := rest - {k};
    }
  }

  /** The holder of the state always has a step, and every step it takes brings it closer to letting go. */
  lemma HolderAdvances(run: seq<State>, i: nat, t: nat)
    requires IsRun(run) && i < |run| && run[i].owner == Some(t)
    ensures t < |run[i].pcs| && exists e: Event :: e.t == t && Enabled(run[i], e)
    ensures forall e: Event :: e.t == t && Enabled(run[i], e) ==> Closer(run[i], Do(run[i], e), t)
  {
    RunKeeps(run, i);
    hide IsRun;
    var s := run[i];
    OwnerHas(s, t);
    HolderHasStep(s, t);
    forall e: Event | e.t == t && Enabled(s, e)
      ensures Closer(s, Do(s, e), t)
    {
      StepCloser(s, e);
    }
  }

  ghost predicate Closer(s: State, s': State, t: nat) {
    t < |s.pcs| && t < |s'.pcs| && Left(s'.pcs[t]) < Left(s.pcs[t]) && (s'.owner.None? <==> Left(s'.pcs[t]) == 0)
  }

  lemma OwnerHas(s: State, t: nat)
    requires Inv(s) && s.owner == Some(t)
    ensures t < |s.pcs| && Has(s.pcs[t]) && PcOk(s, t)
  {
  }

  lemma StepCloser(s: State, e: Event)
    requires e.t < |s.pcs| && Has(s.pcs[e.t]) && Enabled(s, e) && s.owner == Some(e.t)
    ensures Closer(s, Do(s, e), e.t)
  {
    hide SetLock, SetDirty, AddHandle, DropHandle, Map, Unmap;
  }

  lemma HolderHasStep(s: State, t: nat)
    requires Inv(s) && s.owner == Some(t) && t < |s.pcs| && Has(s.pcs[t])
    ensures exists e: Event :: e.t == t && Enabled(s, e)
  {
    hide Counted, HandlesHold, Inverse, FreeListed, Distinct, LocksOk;
    var pc := s.pcs[t];
    assert PcOk(s, t);
    var h := FreshHandle(s.handles.Keys);
    match pc
    case Evicting(_, _, f) =>
      NeverBlocked(s, t, f);
      assert Enabled(s, LockVictim(t));
    case Saving(_, _, _) => assert Enabled(s, Save(t, true));
    case Filling(_, _, f) =>
      NeverBlocked(s, t, f);
      assert Enabled(s, LockEmpty(t));
    case Placing(_, _, _) => assert Enabled(s, Place(t, h));
    case Unpinning(_) => assert Enabled(s, Unpin(t));
    case Deciding(op, _) =>
      if op.page in s.table {
        assert Enabled(s, Hit(t, h));
      } else if op.Flush? {
        assert Enabled(s, Skip(t));
      } else if s.free != [] {
        assert Enabled(s, Pop(t));
      } else if Clock.AllPinned(s.pins) {
        assert Enabled(s, Exhaust(t));
      } else {
        var victim :| 0 <= victim < |s.pins| && s.pins[victim] == 0;
        assert Enabled(s, Choose(t, victim));
      }
    case _ =>
  }
}
