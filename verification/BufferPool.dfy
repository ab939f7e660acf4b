/** One shard of the page cache: a fixed set of frames in front of the data file. */
module BufferPool {
  import opened Bytes
  import opened Pages
  import opened DataFile
  import opened Disk
  import opened Sharding
  import Clock
  import Recovery

  datatype Frame = Frame(page: Page, dirty: bool)

  datatype Slot = Empty | Holding(id: PageId)

  datatype PoolError = Exhausted | DiskError(error: Disk.Error) | WrongId | NoCapacity

  datatype Acquired = Got(frame: nat) | NoFrame(error: PoolError)

  datatype Fetched = Pinned(frame: nat) | Missed(error: PoolError)

  datatype Result = Done | Fail(error: PoolError)

  // ----- bookkeeping

  ghost predicate NoDuplicates(s: seq<nat>) {
    forall i, j :: 0 <= i < j < |s| ==> s[i] != s[j]
  }

  /** The page table and the frames' page ids are inverse to each other. */
  ghost predicate Inverse(table: map<PageId, nat>, slots: seq<Slot>) {
    && (forall id :: id in table ==> table[id] < |slots| && slots[table[id]] == Holding(id))
    && (forall f :: 0 <= f < |slots| && slots[f].Holding? ==> slots[f].id in table && table[slots[f].id] == f)
  }

  /** The free list is exactly the unmapped frames, once each, except those checked out in `taken`. */
  ghost predicate FreeListed(free: seq<nat>, slots: seq<Slot>, taken: set<nat>) {
    && NoDuplicates(free)
    && (forall f :: f in free ==> f < |slots| && slots[f].Empty? && f !in taken)
    && (forall f :: 0 <= f < |slots| && slots[f].Empty? && f !in taken ==> f in free)
    && (forall f :: f in taken ==> f < |slots| && slots[f].Empty?)
  }

  /** Every pin is a live handle, and only mapped frames are pinned. */
  ghost predicate PinsCounted(pins: seq<nat>, slots: seq<Slot>, handles: multiset<nat>) {
    && |pins| == |slots|
    && (forall f :: f in handles ==> f < |pins|)
    && (forall f :: 0 <= f < |pins| ==> pins[f] == handles[f])
    && (forall f :: 0 <= f < |slots| && slots[f].Empty? ==> pins[f] == 0)
  }

  /** Every cached page belongs to this shard. */
  ghost predicate Routed(table: map<PageId, nat>, index: nat, count: nat) {
    count > 0 && forall id :: id in table ==> ShardFor(id, count) == index
  }

  // ----- contents

  /** What decides the contents of a page: the page table, the frames and the current data file. */
  datatype Picture = Picture(table: map<PageId, nat>, frames: seq<Frame>, file: File)

  /** What a fetch of page `k` shows: the cached copy, or else the bytes in the file. */
  ghost function Shown(c: Picture, k: PageId): Page {
    if k in c.table && c.table[k] < |c.frames| then c.frames[c.table[k]].page else DiskBytes(c.file, k)
  }

  /** The page contents as its owner sees them: everything but the checksum field, which sealing rewrites. */
  ghost function Body(c: Picture, k: PageId): seq<Byte> { Shown(c, k)[4..] }

  /** A clean frame equals its page in the file. */
  ghost predicate CleanMatches(c: Picture) {
    forall id :: id in c.table && c.table[id] < |c.frames| && !c.frames[c.table[id]].dirty ==>
      Holds(c.file, id, c.frames[c.table[id]].page)
  }

  ghost predicate SameBodies(c: Picture, c': Picture) {
    forall k: PageId :: Body(c', k) == Body(c, k)
  }

  /** Nothing changes but the contents of page `id`. */
  ghost predicate OnlyPage(id: PageId, c: Picture, c': Picture) {
    forall k: PageId :: k != id ==> Body(c', k) == Body(c, k)
  }

  /** The pages of all other shards stay as they are in the file. */
  ghost predicate Untouched(index: nat, count: nat, c: Picture, c': Picture) {
    count > 0 && forall k: PageId :: ShardFor(k, count) != index ==> SamePage(c.file, c'.file, k)
  }

  ghost predicate SamePage(f: File, g: File, k: nat) {
    DiskBytes(g, k) == DiskBytes(f, k) && forall p: Page :: Holds(f, k, p) ==> Holds(g, k, p)
  }

  /** The cached pages that differ from the file. */
  ghost function DirtyPages(c: Picture): map<PageId, Page> {
    map k | k in c.table && c.table[k] < |c.frames| && c.frames[c.table[k]].dirty :: c.frames[c.table[k]].page
  }

  // ----- what the rest of the engine sees of the cache

  /** The pages that differ from the file, and the file. */
  datatype View = View(dirty: Recovery.Images, file: File)

  ghost function ViewOf(c: Picture): View { View(DirtyPages(c), c.file) }

  /** Dirty page `k` goes to the file and becomes clean. */
  ghost predicate SavesPage(v: View, v': View, k: PageId) {
    k in v.dirty && v' == View(v.dirty - {k}, WritePage(v.file, k, Sealed(v.dirty[k])))
  }

  /** Writing dirty page `k` fails partway, and it stays dirty. */
  ghost predicate FailsPage(v: View, v': View, k: PageId) {
    && k in v.dirty
    && var sealed := Sealed(v.dirty[k]);
      v'.dirty == v.dirty[k := sealed] && PartlyWritten(v'.file, v.file, k, sealed)
  }

  /** At most one page is written back, and that succeeds. */
  ghost predicate Saves(v: View, v': View) { v' == v || exists k :: SavesPage(v, v', k) }

  /** Writing a dirty page back fails: refused, or partway. */
  ghost predicate Stops(v: View, v': View) { exists k :: k in v.dirty && (v' == v || FailsPage(v, v', k)) }

  /** File and dirty pages change by at most one write-back. */
  ghost predicate OneWriteBack(v: View, v': View) { Saves(v, v') || Stops(v, v') }

  /** At most one write-back to make room, and then page `id` is dirty with its new contents. */
  ghost predicate Installs(id: PageId, page: Page, v: View, v': View) {
    exists mid: View :: OneWriteBack(v, mid) && v' == View(mid.dirty[id := page], mid.file)
  }

  /** The pages of `done` have been written back, and nothing else has happened. */
  ghost predicate SavedAll(v: View, done: Recovery.Images, v': View) {
    && (forall k :: k in done ==> k in v.dirty && done[k] == Sealed(v.dirty[k]))
    && v' == View(v.dirty - done.Keys, Recovery.Overlay(v.file, done))
  }

  /** The pages of `done` have been written back; and if not all is well, one more write-back failed. */
  ghost predicate Flushes(v: View, done: Recovery.Images, ok: bool, v': View) {
    if ok then SavedAll(v, done, v') else exists mid: View :: SavedAll(v, done, mid) && Stops(mid, v')
  }

  // ----- when operations succeed

  /** How writing a frame back turns out: a clean one need not be written. */
  function SaveOutcome(f: Frame, slot: Slot, count: nat, io: WriteIo): Outcome {
    if f.dirty && slot.Holding? then WriteOutcome(slot.id, f.page, count, io) else Ok
  }

  /** The frame thereafter: sealed if the write was attempted, and clean if it succeeded. */
  function FrameAfter(f: Frame, slot: Slot, count: nat, io: WriteIo): Frame {
    match SaveOutcome(f, slot, count, io)
    case Ok => if f.dirty && slot.Holding? then Frame(Sealed(f.page), false) else f
    case Err(e) => if e.Io? then Frame(Sealed(f.page), true) else f
  }

  /** Every one of these pages can be written, and is. */
  ghost predicate AllGo(dirty: Recovery.Images, count: nat, ios: map<PageId, WriteIo>) {
    forall k :: k in dirty ==> WriteOutcome(k, dirty[k], count, Recovery.IoFor(ios, k)).Ok?
  }

  /** The write of one of these pages fails, with error `e`. */
  ghost predicate OneFails(dirty: Recovery.Images, count: nat, ios: map<PageId, WriteIo>, e: Disk.Error) {
    exists k :: k in dirty && WriteOutcome(k, dirty[k], count, Recovery.IoFor(ios, k)) == Err(e)
  }

  class Shard {
    const disk: DiskManager
    const index: nat
    const count: nat
    var frames: seq<Frame>
    var table: map<PageId, nat>
    var slots: seq<Slot>
    var pins: seq<nat>
    var refBits: seq<bool>
    var clockHand: nat
    var free: seq<nat>
    ghost var handles: multiset<nat>

    ghost predicate Bookkept(taken: set<nat>)
      reads this
    {
      && |frames| == |slots| == |pins| == |refBits| && clockHand < |frames| && count > 0
      && Inverse(table, slots) && FreeListed(free, slots, taken) && PinsCounted(pins, slots, handles)
      && Routed(table, index, count)
    }

    ghost predicate Valid(taken: set<nat>)
      reads this, disk
    {
      disk.Valid() && Bookkept(taken) && CleanMatches(Now())
    }

    ghost function Now(): Picture
      requires disk.Valid()
      reads this, disk
    {
      Picture(table, frames, disk.Current())
    }

    ghost function Viewed(): View
      requires disk.Valid()
      reads this, disk
    {
      ViewOf(Now())
    }

    /** The frame a miss is given, or why there is none. */
    ghost function Room(io: WriteIo): Acquired
      reads this, disk
    {
      var v := Clock.Victim(pins, refBits, clockHand);
      if free != [] then Got(free[|free| - 1])
      else if Clock.AllPinned(pins) || v >= |frames| || v >= |slots| then NoFrame(Exhausted)
      else
        match SaveOutcome(frames[v], slots[v], disk.pageCount, io)
        case Ok => Got(v)
        case Err(e) => NoFrame(DiskError(e))
    }

    /** Does a miss have the clock look for a victim? */
    ghost predicate Turns()
      reads this
    {
      free == [] && !Clock.AllPinned(pins) && clockHand < |pins| == |refBits|
      && Clock.Victim(pins, refBits, clockHand) < |pins|
    }

    /** The clock hand after a miss. */
    ghost function HandAfter(): nat
      reads this
    {
      if Turns() then (Clock.Victim(pins, refBits, clockHand) + 1) % |pins| else clockHand
    }

    /** The reference bits once a miss has its frame. */
    ghost function BitsAfter(): (bits: seq<bool>)
      reads this
      ensures |bits| == |refBits|
    {
      if Turns() then Clock.BitsAfter(pins, refBits, clockHand, Clock.Victim(pins, refBits, clockHand)) else refBits
    }

    constructor (disk: DiskManager, capacity: nat, index: nat, count: nat)
      requires disk.Valid() && capacity > 0 && count > 0
      ensures Valid({}) && this.disk == disk && this.index == index && this.count == count
      ensures |frames| == capacity && table == map[] && handles == multiset{} && clockHand == 0
      ensures |free| == capacity && forall i :: 0 <= i < capacity ==> free[i] == capacity - 1 - i && !refBits[i]
    {
      this.disk, this.index, this.count := disk, index, count;
      frames := seq(capacity, _ => Frame(Zeros(4096), false));
      table := map[];
      slots := seq(capacity, _ => Empty);
      pins := seq(capacity, _ => 0);
      refBits := seq(capacity, _ => false);
      clockHand := 0;
      free := seq(capacity, i requires 0 <= i < capacity => capacity - 1 - i);
      handles := multiset{};
      new;
      forall f | 0 <= f < capacity
        ensures f in free
      {
        assert free[capacity - 1 - f] == f;
      }
    }

    /** Writes the frame's page back if it is dirty. On failure the page stays cached and dirty. */
    method WriteBack(frame: nat, id: PageId, io: WriteIo, ghost taken: set<nat>) returns (r: Result)
      requires Valid(taken) && frame < |frames| && slots[frame] == Holding(id)
      modifies this`frames, disk
      ensures Valid(taken) && |frames| == old(|frames|)
      ensures var o := SaveOutcome(old(frames[frame]), slots[frame], disk.pageCount, io);
        r == if o.Ok? then Done else Fail(DiskError(o.error))
      ensures frames == old(frames)[frame := FrameAfter(old(frames[frame]), slots[frame], disk.pageCount, io)]
      ensures if r.Done? then !frames[frame].dirty else frames[frame].dirty
      ensures !old(frames[frame].dirty) ==> frames == old(frames) && disk.file == old(disk.file)
      ensures SameBodies(old(Now()), Now()) && Untouched(index, count, old(Now()), Now())
      ensures if r.Done? then Saves(old(Viewed()), Viewed()) else Stops(old(Viewed()), Viewed())
      ensures disk.pageCount == old(disk.pageCount)
    {
      hide CleanMatches, FreeListed, PinsCounted, Routed, SameBodies, Untouched, Inverse, Saves, Stops, Sealed,
        DataFile.WritePage, PartlyWritten, DirtyPages, WriteOutcome, DiskBytes, Holds, ShardFor,
        DiskManager.Valid;
      Same(index, count, Now());
      if frames[frame].dirty {
        ghost var c := Now();
        var w, page := disk.WritePage(id, frames[frame].page, io);
        frames := frames[frame := Frame(page, w.Err?)];
        WrittenBack(c, slots, frame, id, page, w.Ok?, Now(), index, count);
        WrittenBackOnce(c, slots, frame, id, w, page, Now());
        if w.Err? {
          return Fail(DiskError(w.error));
        }
      }
      return Done;
    }

    /**
     * An empty, unpinned frame, evicting a page if need be. Fails for lack of frames exactly when all
     * are pinned, and then changes nothing; if the victim cannot be written back it stays cached.
     */
    method AcquireFrame(io: WriteIo) returns (r: Acquired)
      requires Valid({})
      modifies this`frames, this`table, this`slots, this`refBits, this`clockHand, this`free, disk
      ensures Valid(if r.Got? then {r.frame} else {})
      ensures |frames| == old(|frames|) && disk.pageCount == old(disk.pageCount)
      ensures SameBodies(old(Now()), Now()) && Untouched(index, count, old(Now()), Now())
      ensures OneWriteBack(old(Viewed()), Viewed())
      ensures r == old(Room(io)) && clockHand == old(HandAfter()) && refBits == old(BitsAfter())
      ensures free == if old(free) != [] then old(free)[..|old(free)| - 1] else []
      ensures r.Got? && old(free) != [] ==> table == old(table)
      ensures r.Got? && old(free) == [] ==> Clock.IsVictim(old(pins), old(refBits), old(clockHand), r.frame)
      ensures r.Got? ==> r.frame < |frames| && slots[r.frame].Empty? && pins[r.frame] == 0
      ensures forall id :: id in table ==> id in old(table) && table[id] == old(table[id])
      ensures r.NoFrame? ==> table == old(table) && slots == old(slots) && (r.error.Exhausted? || r.error.DiskError?)
      ensures r == NoFrame(Exhausted) <==> old(free) == [] && Clock.AllPinned(old(pins))
      ensures r == NoFrame(Exhausted) ==>
        frames == old(frames) && refBits == old(refBits) && clockHand == old(clockHand)
    {
      hide CleanMatches, SameBodies, Routed, Untouched, Inverse, FreeListed, PinsCounted, OneWriteBack;
      hide Clock.AllPinned, Clock.IsVictim, Clock.Victim, Clock.BitsAfter;
      Same(index, count, Now());
      FreeMeans(free, slots, pins, handles);
      if free != [] {
        var frame := free[|free| - 1];
        PopFree(free, slots);
        free := free[..|free| - 1];
        return Got(frame);
      }
      var found, victim, hand, bits := Clock.FindVictim(pins, refBits, clockHand);
      if !found {
        return NoFrame(Exhausted);
      }
      VictimIs(pins, refBits, clockHand, victim);
      clockHand, refBits := hand, bits;
      var w := Evict(victim, io);
      return if w.Fail? then NoFrame(w.error) else Got(victim);
    }

    /** Writes the victim back and unmaps it. On failure the page stays cached and dirty. */
    method Evict(victim: nat, io: WriteIo) returns (r: Result)
      requires Valid({}) && victim < |frames| && slots[victim].Holding? && pins[victim] == 0
      modifies this`frames, this`table, this`slots, disk
      ensures Valid(if r.Done? then {victim} else {})
      ensures |frames| == old(|frames|) && disk.pageCount == old(disk.pageCount)
      ensures SameBodies(old(Now()), Now()) && Untouched(index, count, old(Now()), Now())
      ensures OneWriteBack(old(Viewed()), Viewed())
      ensures var o := SaveOutcome(old(frames[victim]), old(slots[victim]), disk.pageCount, io);
        r == if o.Ok? then Done else Fail(DiskError(o.error))
      ensures frames == old(frames)[victim := FrameAfter(old(frames[victim]), old(slots[victim]), disk.pageCount, io)]
      ensures r.Done? ==> slots[victim].Empty? && table == old(table) - {old(slots[victim].id)}
      ensures r.Fail? ==> table == old(table) && slots == old(slots)
    {
      hide CleanMatches, SameBodies, Routed, Untouched, Inverse, FreeListed, PinsCounted, Shown, Body,
        OneWriteBack, DirtyPages;
      var oldId := slots[victim].id;
      r := WriteBack(victim, oldId, io, {});
      IsOneWriteBack(old(Viewed()), Viewed(), r.Done?);
      if r.Fail? {
        return;
      }
      ghost var c := Now();
      Evicted(c, slots, victim, oldId, index, count);
      Unmapped(table, slots, free, victim, oldId);
      PinsElsewhere(pins, slots, handles, victim, Empty);
      table := table - {oldId};
      slots := slots[victim := Empty];
      SameThen(index, count, old(Now()), c, Now());
    }

    /** Takes out a handle on a mapped frame. */
    method Pin(frame: nat, touch: bool)
      requires Valid({}) && frame < |frames| && slots[frame].Holding?
      modifies this`pins, this`refBits, this`handles
      ensures Valid({}) && handles == old(handles) + multiset{frame} && pins == old(pins)[frame := old(pins[frame]) + 1]
      ensures refBits == if touch then old(refBits)[frame := true] else old(refBits)
    {
      hide CleanMatches, Routed, Inverse, FreeListed, PinsCounted;
      PinnedOnce(pins, slots, handles, frame);
      pins := pins[frame := pins[frame] + 1];
      handles := handles + multiset{frame};
      if touch {
        refBits := refBits[frame := true];
      }
    }

    /** Dropping a handle. */
    method Unpin(frame: nat)
      requires Valid({}) && frame in handles
      modifies this`pins, this`handles
      ensures Valid({}) && handles == old(handles) - multiset{frame}
      ensures frame < |pins| && pins == old(pins)[frame := old(pins[frame]) - 1]
    {
      hide CleanMatches, Routed, Inverse, FreeListed, PinsCounted;
      PinDropped(pins, slots, handles, frame);
      pins := pins[frame := pins[frame] - 1];
      handles := handles - multiset{frame};
    }

    /** Puts a page into a frame that was just acquired. A clean page must be the one in the file. */
    method Occupy(frame: nat, id: PageId, page: Page, dirty: bool)
      requires Valid({frame}) && id !in table && frame < |slots| && slots[frame].Empty? && ShardFor(id, count) == index
      requires dirty || Holds(disk.Current(), id, page)
      modifies this`frames, this`table, this`slots, this`refBits
      ensures Valid({}) && |frames| == old(|frames|) && slots[frame] == Holding(id) && table == old(table)[id := frame]
      ensures Shown(Now(), id) == page && OnlyPage(id, old(Now()), Now()) && refBits == old(refBits)[frame := true]
      ensures DirtyPages(Now()) == if dirty then DirtyPages(old(Now()))[id := page] else DirtyPages(old(Now()))
    {
      hide CleanMatches, Routed, OnlyPage, Inverse, FreeListed, PinsCounted, Shown, Holds, DirtyPages;
      Mapped(table, slots, free, frame, id);
      EmptyUnpinned(pins, slots, handles, frame);
      PinsElsewhere(pins, slots, handles, frame, Holding(id));
      RoutedMore(table, index, count, frame, id);
      Filled(Now(), slots, frame, id, Frame(page, dirty));
      frames := frames[frame := Frame(page, dirty)];
      table := table[id := frame];
      slots := slots[frame := Holding(id)];
      refBits := refBits[frame := true];
    }

    /** A pinned handle on page `id`. Whatever is evicted, read or refused on the way, no page's contents change. */
    method FetchPage(id: PageId, readFails: bool, io: WriteIo) returns (r: Fetched)
      requires Valid({}) && ShardFor(id, count) == index
      modifies this, disk
      ensures Valid({}) && |frames| == old(|frames|) && disk.pageCount == old(disk.pageCount)
      ensures SameBodies(old(Now()), Now()) && Untouched(index, count, old(Now()), Now())
      ensures OneWriteBack(old(Viewed()), Viewed())
      ensures r == if id in old(table) then Pinned(old(table[id])) else Loads(id, old(Room(io)), readFails, disk)
      ensures clockHand == if id in old(table) then old(clockHand) else old(HandAfter())
      ensures r.Pinned? ==> var bits := if id in old(table) then old(refBits) else old(BitsAfter());
        r.frame < |bits| && refBits == bits[r.frame := true]
      ensures r.Missed? ==> refBits == old(BitsAfter())
      ensures r.Pinned? ==>
        r.frame < |frames| && slots[r.frame] == Holding(id) && handles == old(handles) + multiset{r.frame}
      ensures r.Missed? ==> handles == old(handles) && id !in old(table)
      ensures r == Missed(Exhausted) <==> id !in old(table) && old(free) == [] && Clock.AllPinned(old(pins))
    {
      hide CleanMatches, SameBodies, OnlyPage, Routed, Untouched, Inverse, FreeListed, PinsCounted, OneWriteBack,
        DirtyPages, Loads, Clock.AllPinned, Shown, Holds, ShardFor, Room, HandAfter, BitsAfter;
      Same(index, count, Now());
      if id in table {
        var frame := table[id];
        TableMeans(table, slots, id);
        Pin(frame, true);
        return Pinned(frame);
      }
      r := LoadPage(id, readFails, io);
    }

    /** The page is not cached: make room, read it, and pin it. */
    method LoadPage(id: PageId, readFails: bool, io: WriteIo) returns (r: Fetched)
      requires Valid({}) && ShardFor(id, count) == index && id !in table
      modifies this, disk
      ensures Valid({}) && |frames| == old(|frames|) && disk.pageCount == old(disk.pageCount)
      ensures SameBodies(old(Now()), Now()) && Untouched(index, count, old(Now()), Now())
      ensures OneWriteBack(old(Viewed()), Viewed())
      ensures r == Loads(id, old(Room(io)), readFails, disk) && clockHand == old(HandAfter())
      ensures r.Pinned? ==> r.frame < |old(BitsAfter())| && refBits == old(BitsAfter())[r.frame := true]
      ensures r.Missed? ==> refBits == old(BitsAfter()) && handles == old(handles)
      ensures r.Pinned? ==>
        r.frame < |frames| && slots[r.frame] == Holding(id) && handles == old(handles) + multiset{r.frame}
      ensures r == Missed(Exhausted) <==> old(free) == [] && Clock.AllPinned(old(pins))
    {
      hide CleanMatches, SameBodies, OnlyPage, Routed, Untouched, Inverse, FreeListed, PinsCounted, OneWriteBack,
        DirtyPages, Clock.AllPinned, Shown, Holds, Verified, DataFile.ReadPage, ShardFor, Room, HandAfter, BitsAfter;
      var a := AcquireFrame(io);
      if a.NoFrame? {
        return Missed(a.error);
      }
      var frame := a.frame;
      var read, page := disk.ReadPage(id, readFails);
      if read.Err? {
        PushFree(free, slots, frame);
        free := free + [frame];
        return Missed(DiskError(read.error));
      }
      ghost var c := Now();
      Occupy(frame, id, page, false);
      Loaded(c, Now(), id, page, index, count);
      SameThen(index, count, old(Now()), c, Now());
      Pin(frame, true);
      return Pinned(frame);
    }

    /** Installing over a cached copy, which may be pinned: pin it, replace it under its lock, unpin it. */
    method Overwrite(id: PageId, page: Page)
      requires Valid({}) && id in table
      modifies this`frames, this`pins, this`refBits, this`handles
      ensures Valid({}) && |frames| == old(|frames|) && handles == old(handles)
      ensures OnlyPage(id, old(Now()), Now()) && Untouched(index, count, old(Now()), Now()) && Shown(Now(), id) == page
      ensures disk.Current() == old(disk.Current()) && DirtyPages(Now()) == DirtyPages(old(Now()))[id := page]
      ensures table[id] < |old(refBits)| && refBits == old(refBits)[table[id] := true] && pins == old(pins)
    {
      hide CleanMatches, OnlyPage, Routed, Untouched, Inverse, FreeListed, PinsCounted, Body, Shown, DirtyPages;
      var frame := table[id];
      TableMeans(table, slots, id);
      Pin(frame, true);
      GuardWrite(frame, page);
      SameFile(index, count, old(Now()), Now());
      Unpin(frame);
      assert handles == old(handles) && pins == old(pins);
    }

    /** Publishes `page` as the contents of `id`: it is shown from then on, and no other page changes. */
    method InstallPage(id: PageId, page: Page, io: WriteIo) returns (r: Result)
      requires Valid({}) && ShardFor(id, count) == index
      modifies this, disk
      ensures Valid({}) && |frames| == old(|frames|) && disk.pageCount == old(disk.pageCount) && handles == old(handles)
      ensures OnlyPage(id, old(Now()), Now()) && Untouched(index, count, old(Now()), Now())
      ensures if r.Done? then Installs(id, page, old(Viewed()), Viewed()) else OneWriteBack(old(Viewed()), Viewed())
      ensures if r.Done? then Shown(Now(), id) == page else Body(Now(), id) == Body(old(Now()), id)
      ensures r == Fail(Exhausted) <==> id !in old(table) && old(free) == [] && Clock.AllPinned(old(pins))
      ensures r == if id in old(table) || old(Room(io)).Got? then Done else Fail(old(Room(io)).error)
      ensures clockHand == if id in old(table) then old(clockHand) else old(HandAfter())
      ensures r.Done? ==> var bits := if id in old(table) then old(refBits) else old(BitsAfter());
        id in table && table[id] < |bits| && refBits == bits[table[id] := true]
      ensures r.Fail? ==> refBits == old(BitsAfter())
    {
      hide CleanMatches, SameBodies, OnlyPage, Routed, Untouched, Inverse, FreeListed, PinsCounted, OneWriteBack,
        DirtyPages, Installs;
      hide Clock.AllPinned, Body, Shown, Holds, ShardFor;
      Same(index, count, Now());
      if id in table {
        Overwrite(id, page);
        InstalledOver(id, page, old(Viewed()), old(Viewed()), Viewed());
        return Done;
      }
      var a := AcquireFrame(io);
      ghost var c := Now();
      OnlyPageAfter(id, old(Now()), c, c);
      if a.NoFrame? {
        return Fail(a.error);
      }
      Occupy(a.frame, id, page, true);
      OnlyPageAfter(id, old(Now()), c, Now());
      SameFile(index, count, c, Now());
      UntouchedThen(index, count, old(Now()), c, Now());
      InstalledOver(id, page, old(Viewed()), ViewOf(c), Viewed());
      return Done;
    }

    /** A write guard: the holder of a handle replaces the page's contents. */
    method GuardWrite(frame: nat, page: Page)
      requires Valid({}) && frame in handles
      modifies this`frames
      ensures Valid({}) && |frames| == old(|frames|) && frame < |slots| && slots[frame].Holding? && frames[frame].dirty
      ensures Shown(Now(), slots[frame].id) == page && OnlyPage(slots[frame].id, old(Now()), Now())
      ensures DirtyPages(Now()) == DirtyPages(old(Now()))[slots[frame].id := page]
    {
      hide CleanMatches, OnlyPage, Inverse, FreeListed, PinsCounted, Routed, Shown, DirtyPages;
      HandleInRange(pins, slots, handles, frame);
      Overwritten(Now(), slots, frame, slots[frame].id, page);
      frames := frames[frame := Frame(page, true)];
    }

    /** Writes page `id` back if it is cached and dirty; pinned meanwhile, so it cannot be evicted. */
    method FlushPage(id: PageId, io: WriteIo) returns (r: Result)
      requires Valid({})
      modifies this, disk
      ensures Valid({}) && table == old(table) && |frames| == old(|frames|) && handles == old(handles)
      ensures SameBodies(old(Now()), Now()) && Untouched(index, count, old(Now()), Now())
      ensures if r.Done? then Saves(old(Viewed()), Viewed()) else Stops(old(Viewed()), Viewed())
      ensures refBits == old(refBits) && clockHand == old(clockHand) && free == old(free) && pins == old(pins)
      ensures forall f :: 0 <= f < |frames| && frames[f].dirty ==> old(frames[f].dirty)
      ensures id !in table ==> r.Done? && frames == old(frames) && disk.file == old(disk.file)
      ensures id in table ==> var f := table[id]; f < |frames| && (r.Done? ==> !frames[f].dirty)
      ensures id in table ==> var f := table[id];
        && frames == old(frames)[f := FrameAfter(old(frames)[f], Holding(id), disk.pageCount, io)]
        && var o := SaveOutcome(old(frames)[f], Holding(id), disk.pageCount, io);
          r == if o.Ok? then Done else Fail(DiskError(o.error))
      ensures disk.pageCount == old(disk.pageCount)
    {
      hide CleanMatches, SameBodies, Routed, Untouched, Inverse, FreeListed, PinsCounted, Saves, Stops, WriteOutcome,
        Sealed, DirtyPages;
      Same(index, count, Now());
      if id !in table {
        return Done;
      }
      var frame := table[id];
      TableMeans(table, slots, id);
      Pin(frame, false);
      r := WriteBack(frame, id, io, {});
      assert frame in handles;
      Unpin(frame);
      assert handles == old(handles) && pins == old(pins);
    }

    /** Visits every cached page; when it succeeds no frame of the shard is left dirty. */
    method FlushCached(ios: map<PageId, WriteIo>) returns (r: Result, ghost done: Recovery.Images)
      requires Valid({})
      modifies this, disk
      ensures Valid({}) && table == old(table) && |frames| == old(|frames|) && handles == old(handles)
      ensures disk.pageCount == old(disk.pageCount)
      ensures SameBodies(old(Now()), Now()) && Untouched(index, count, old(Now()), Now())
      ensures Flushes(old(Viewed()), done, r.Done?, Viewed()) && (r.Done? ==> AllClean(Now()))
      ensures r.Done? <==> AllGo(old(Viewed()).dirty, disk.pageCount, ios)
      ensures r.Fail? ==> r.error.DiskError? && OneFails(old(Viewed()).dirty, disk.pageCount, ios, r.error.error)
    {
      hide CleanMatches, SameBodies, Routed, Untouched, Inverse, FreeListed, PinsCounted, Saves, Stops, SavedAll,
        DirtyPages, Flushes, Visited, SaveOutcome, FrameAfter, PageGoes, AllGo, AllClean, OneFails;
      Same(index, count, Now());
      NoneVisited(Now(), slots, disk.pageCount, ios);
      SavedNone(Viewed());
      done := map[];
      var cached := table.Keys;
      while cached != {}
        invariant Valid({}) && table == old(table) && handles == old(handles) && |frames| == old(|frames|)
        invariant cached <= table.Keys && disk.pageCount == old(disk.pageCount)
        invariant SameBodies(old(Now()), Now()) && Untouched(index, count, old(Now()), Now())
        invariant SavedAll(old(Viewed()), done, Viewed())
        invariant Visited(old(Now()), Now(), cached, disk.pageCount, ios)
        decreases |cached|
      {
        var id :| id in cached;
        ghost var c := Now();
        r := FlushPage(id, Recovery.IoFor(ios, id));
        SameThen(index, count, old(Now()), c, Now());
        if r.Fail? {
          StopsLast(old(Viewed()), done, ViewOf(c), Viewed());
          VisitStays(old(Now()), c, cached, id, disk.pageCount, ios, r.error.error);
          return;
        }
        done := SavedMore(old(Viewed()), done, ViewOf(c), Viewed());
        VisitGoes(old(Now()), c, slots, Now(), cached, id, disk.pageCount, ios);
        cached := cached - {id};
      }
      AllSaved(old(Viewed()), done, Viewed());
      AllVisited(old(Now()), Now(), disk.pageCount, ios);
      r := Done;
    }
  }

  /** What a miss that found a frame, or did not, ends with; the file is the one after making room. */
  ghost function Loads(id: PageId, room: Acquired, readFails: bool, disk: DiskManager): Fetched
    reads disk
  {
    match room
    case NoFrame(e) => Missed(e)
    case Got(frame) =>
      if readFails then Missed(DiskError(Io))
      else
        match DataFile.ReadPage(disk.file, disk.pageCount, id)
        case Read(_) => Pinned(frame)
        case Failed(e) => Missed(DiskError(Unreadable(e)))
  }

  lemma VictimIs(pins: seq<nat>, bits: seq<bool>, hand: nat, victim: nat)
    requires Clock.IsVictim(pins, bits, hand, victim)
    ensures Clock.Victim(pins, bits, hand) == victim && hand < |pins| == |bits| && victim < |pins|
  {
    Clock.VictimUnique(pins, bits, hand, Clock.Victim(pins, bits, hand), victim);
  }

  /** Cached page `id` is clean, or is written back. */
  ghost predicate PageGoes(c: Picture, id: PageId, count: nat, ios: map<PageId, WriteIo>) {
    && id in c.table && c.table[id] < |c.frames|
    && SaveOutcome(c.frames[c.table[id]], Holding(id), count, Recovery.IoFor(ios, id)).Ok?
  }

  /** Of the cached pages all but those of `rest` have been visited, and written if need be. */
  ghost predicate Visited(was: Picture, c: Picture, rest: set<PageId>, count: nat, ios: map<PageId, WriteIo>) {
    && c.table == was.table && |c.frames| == |was.frames|
    && forall id :: id in c.table ==>
         && c.table[id] < |c.frames|
         && if id in rest then c.frames[c.table[id]] == was.frames[c.table[id]]
            else !c.frames[c.table[id]].dirty && PageGoes(was, id, count, ios)
  }

  lemma NoneVisited(c: Picture, slots: seq<Slot>, count: nat, ios: map<PageId, WriteIo>)
    requires Inverse(c.table, slots) && |c.frames| == |slots|
    ensures Visited(c, c, c.table.Keys, count, ios)
  {
    hide PageGoes;
  }

  lemma VisitGoes(
    was: Picture, c: Picture, slots: seq<Slot>, c': Picture, rest: set<PageId>, id: PageId, count: nat,
    ios: map<PageId, WriteIo>)
    requires Visited(was, c, rest, count, ios) && id in rest && id in c.table && Inverse(c.table, slots)
    requires c'.table == c.table && c.table[id] < |c.frames|
    requires var at := c.table[id];
             c'.frames == c.frames[at := FrameAfter(c.frames[at], Holding(id), count, Recovery.IoFor(ios, id))]
    requires SaveOutcome(c.frames[c.table[id]], Holding(id), count, Recovery.IoFor(ios, id)).Ok?
    ensures Visited(was, c', rest - {id}, count, ios)
  {
    hide WriteOutcome, Sealed;
  }

  lemma VisitStays(
    was: Picture, c: Picture, rest: set<PageId>, id: PageId, count: nat, ios: map<PageId, WriteIo>, e: Disk.Error)
    requires Visited(was, c, rest, count, ios) && id in rest && id in c.table && c.table[id] < |c.frames|
    requires SaveOutcome(c.frames[c.table[id]], Holding(id), count, Recovery.IoFor(ios, id)) == Err(e)
    ensures !AllGo(ViewOf(was).dirty, count, ios) && OneFails(ViewOf(was).dirty, count, ios, e)
  {
    hide WriteOutcome, Sealed;
    assert id in DirtyPages(was) && WriteOutcome(id, DirtyPages(was)[id], count, Recovery.IoFor(ios, id)) == Err(e);
  }

  lemma AllVisited(was: Picture, c: Picture, count: nat, ios: map<PageId, WriteIo>)
    requires Visited(was, c, {}, count, ios)
    ensures AllGo(ViewOf(was).dirty, count, ios) && AllClean(c)
  {
    hide WriteOutcome;
  }

  /** No cached page differs from the file. */
  ghost predicate AllClean(c: Picture) {
    forall id :: id in c.table ==> c.table[id] < |c.frames| && !c.frames[c.table[id]].dirty
  }

  // ----- how the contents move

  lemma Same(index: nat, count: nat, c: Picture)
    requires count > 0
    ensures SameBodies(c, c) && Untouched(index, count, c, c) && Saves(ViewOf(c), ViewOf(c))
    ensures OneWriteBack(ViewOf(c), ViewOf(c))
    ensures forall id: PageId :: OnlyPage(id, c, c)
  {
  }

  lemma SameFile(index: nat, count: nat, c: Picture, c': Picture)
    requires count > 0 && c.file == c'.file
    ensures Untouched(index, count, c, c')
  {
    hide ShardFor;
  }

  lemma UntouchedThen(index: nat, count: nat, c1: Picture, c2: Picture, c3: Picture)
    requires Untouched(index, count, c1, c2) && Untouched(index, count, c2, c3)
    ensures Untouched(index, count, c1, c3)
  {
    hide Holds, DiskBytes, ShardFor;
  }

  lemma SameThen(index: nat, count: nat, c1: Picture, c2: Picture, c3: Picture)
    requires SameBodies(c1, c2) && SameBodies(c2, c3)
    requires Untouched(index, count, c1, c2) && Untouched(index, count, c2, c3)
    ensures SameBodies(c1, c3) && Untouched(index, count, c1, c3)
  {
    UntouchedThen(index, count, c1, c2, c3);
    hide Shown, Untouched;
  }

  lemma OnlyPageAfter(id: PageId, c1: Picture, c2: Picture, c3: Picture)
    requires SameBodies(c1, c2)
    ensures OnlyPage(id, c1, c2) && Body(c2, id) == Body(c1, id)
    ensures OnlyPage(id, c2, c3) ==> OnlyPage(id, c1, c3)
  {
    hide Body;
  }

  /** Caching a page as it stands in the file changes no view. */
  lemma Loaded(c: Picture, c': Picture, id: PageId, page: Page, index: nat, count: nat)
    requires id !in c.table && Holds(c.file, id, page) && Shown(c', id) == page && OnlyPage(id, c, c')
    requires c'.file == c.file && count > 0
    ensures SameBodies(c, c') && Untouched(index, count, c, c')
  {
    hide Holds, DiskBytes;
    DiskBytesOfHolds(c.file, id, page);
    assert Body(c, id) == Body(c', id);
    SameFile(index, count, c, c');
    hide Body, Untouched;
  }

  lemma Overwritten(c: Picture, slots: seq<Slot>, frame: nat, id: PageId, page: Page)
    requires Inverse(c.table, slots) && |c.frames| == |slots| && frame < |slots| && slots[frame] == Holding(id)
    requires CleanMatches(c)
    ensures var c' := c.(frames := c.frames[frame := Frame(page, true)]);
      CleanMatches(c') && Shown(c', id) == page && OnlyPage(id, c, c') && DirtyPages(c') == DirtyPages(c)[id := page]
  {
    hide Holds, DiskBytes;
  }

  lemma Filled(c: Picture, slots: seq<Slot>, frame: nat, id: PageId, filled: Frame)
    requires Inverse(c.table, slots) && |c.frames| == |slots| && frame < |slots|
    requires slots[frame].Empty? && id !in c.table
    requires CleanMatches(c) && (filled.dirty || Holds(c.file, id, filled.page))
    ensures var c' := c.(table := c.table[id := frame], frames := c.frames[frame := filled]);
      && CleanMatches(c') && Shown(c', id) == filled.page && OnlyPage(id, c, c')
      && DirtyPages(c') == if filled.dirty then DirtyPages(c)[id := filled.page] else DirtyPages(c)
  {
    hide Holds, DiskBytes;
  }

  /** Dropping a clean frame changes no view: the file has the same bytes. */
  lemma Evicted(c: Picture, slots: seq<Slot>, frame: nat, id: PageId, index: nat, count: nat)
    requires Inverse(c.table, slots) && |c.frames| == |slots| && frame < |slots| && slots[frame] == Holding(id)
    requires CleanMatches(c) && !c.frames[frame].dirty && Routed(c.table, index, count)
    ensures var c' := c.(table := c.table - {id});
      && CleanMatches(c') && SameBodies(c, c') && Routed(c'.table, index, count)
      && Untouched(index, count, c, c') && DirtyPages(c') == DirtyPages(c)
  {
    hide Holds, DiskBytes, ShardFor;
    DiskBytesOfHolds(c.file, id, c.frames[frame].page);
  }

  /** What writing one frame back does to the contents of all pages, and to the clean frames. */
  lemma WrittenBack(
    c: Picture, slots: seq<Slot>, frame: nat, id: PageId, page: Page, ok: bool, c': Picture, index: nat, count: nat)
    requires Inverse(c.table, slots) && |c.frames| == |slots| && frame < |slots| && slots[frame] == Holding(id)
    requires CleanMatches(c) && page[4..] == c.frames[frame].page[4..] && Routed(c.table, index, count)
    requires c'.table == c.table && c'.frames == c.frames[frame := Frame(page, !ok)]
    requires ok ==> Holds(c'.file, id, page)
    requires forall k: nat :: k != id ==> DiskBytes(c'.file, k) == DiskBytes(c.file, k)
    requires forall k: nat, p: Page :: k != id && Holds(c.file, k, p) ==> Holds(c'.file, k, p)
    ensures CleanMatches(c') && SameBodies(c, c') && Untouched(index, count, c, c')
  {
    hide Holds, DiskBytes, ShardFor;
    assert id in c.table;
  }

  lemma WrittenBackOnce(c: Picture, slots: seq<Slot>, frame: nat, id: PageId, w: Outcome, page: Page, c': Picture)
    requires Inverse(c.table, slots) && |c.frames| == |slots| && frame < |slots|
    requires slots[frame] == Holding(id) && c.frames[frame].dirty
    requires c'.table == c.table && c'.frames == c.frames[frame := Frame(page, w.Err?)]
    requires w.Ok? ==> page == Sealed(c.frames[frame].page) && c'.file == WritePage(c.file, id, page)
    requires w == Err(Io) ==> page == Sealed(c.frames[frame].page) && PartlyWritten(c'.file, c.file, id, page)
    requires w.Err? && w.error != Io ==> page == c.frames[frame].page && c'.file == c.file
    ensures if w.Ok? then Saves(ViewOf(c), ViewOf(c')) else Stops(ViewOf(c), ViewOf(c'))
  {
    hide Sealed, WritePage, PartlyWritten, DirtyPages, Inverse;
    DirtyAfter(c, slots, frame, id, Frame(page, w.Err?), c');
    if w.Ok? {
      assert SavesPage(ViewOf(c), ViewOf(c'), id);
    } else {
      assert w == Err(Io) ==> FailsPage(ViewOf(c), ViewOf(c'), id);
    }
  }

  lemma DirtyAfter(c: Picture, slots: seq<Slot>, frame: nat, id: PageId, now: Frame, c': Picture)
    requires Inverse(c.table, slots) && |c.frames| == |slots| && frame < |slots|
    requires slots[frame] == Holding(id) && c.frames[frame].dirty
    requires c'.table == c.table && c'.frames == c.frames[frame := now]
    ensures id in DirtyPages(c) && DirtyPages(c)[id] == c.frames[frame].page
    ensures DirtyPages(c') == if now.dirty then DirtyPages(c)[id := now.page] else DirtyPages(c) - {id}
  {
  }

  lemma IsOneWriteBack(v: View, v': View, ok: bool)
    requires if ok then Saves(v, v') else Stops(v, v')
    ensures OneWriteBack(v, v')
  {
    hide Saves, Stops;
  }

  lemma InstalledOver(id: PageId, page: Page, v: View, mid: View, v': View)
    requires OneWriteBack(v, mid) && v' == View(mid.dirty[id := page], mid.file)
    ensures Installs(id, page, v, v')
  {
    hide OneWriteBack;
  }

  /** One more page written back. */
  lemma SavedMore(v: View, done: Recovery.Images, mid: View, v': View) returns (done': Recovery.Images)
    requires SavedAll(v, done, mid) && Saves(mid, v')
    ensures SavedAll(v, done', v')
  {
    hide Sealed, WritePage, Recovery.Overlay;
    if v' == mid {
      done' := done;
    } else {
      var k :| SavesPage(mid, v', k);
      done' := done[k := Sealed(v.dirty[k])];
      Recovery.OverlayStep(v.file, done, k, Sealed(v.dirty[k]));
      assert v.dirty - done.Keys - {k} == v.dirty - done'.Keys;
    }
  }

  lemma SavedNone(v: View)
    ensures SavedAll(v, map[], v)
  {
    Recovery.OverlayNothing(v.file);
    assert v.dirty - {} == v.dirty;
  }

  /** With nothing left dirty, what has been saved is everything. */
  lemma SavedEvery(v: View, done: Recovery.Images, v': View)
    requires SavedAll(v, done, v') && v'.dirty == map[]
    ensures done == SealedPages(v.dirty)
  {
    hide Sealed, Recovery.Overlay;
    forall k | k in v.dirty
      ensures k in done
    {
      assert k in v.dirty - done.Keys || k in done;
    }
  }

  ghost function SealedPages(m: Recovery.Images): Recovery.Images { map k | k in m :: Sealed(m[k]) }

  lemma AllSaved(v: View, done: Recovery.Images, v': View)
    requires SavedAll(v, done, v')
    ensures Flushes(v, done, true, v')
  {
    hide SavedAll;
  }

  lemma StopsLast(v: View, done: Recovery.Images, mid: View, v': View)
    requires SavedAll(v, done, mid) && Stops(mid, v')
    ensures Flushes(v, done, false, v')
  {
    hide SavedAll, Stops;
  }

  // ----- how the bookkeeping moves

  lemma HandleInRange(pins: seq<nat>, slots: seq<Slot>, handles: multiset<nat>, frame: nat)
    requires PinsCounted(pins, slots, handles) && frame in handles
    ensures frame < |pins| && pins[frame] > 0 && slots[frame].Holding?
  {
  }

  lemma TableMeans(table: map<PageId, nat>, slots: seq<Slot>, id: PageId)
    requires Inverse(table, slots) && id in table
    ensures table[id] < |slots| && slots[table[id]] == Holding(id)
  {
  }

  lemma PinnedOnce(pins: seq<nat>, slots: seq<Slot>, handles: multiset<nat>, frame: nat)
    requires PinsCounted(pins, slots, handles) && frame < |slots| && slots[frame].Holding?
    ensures PinsCounted(pins[frame := pins[frame] + 1], slots, handles + multiset{frame})
  {
  }

  lemma PinDropped(pins: seq<nat>, slots: seq<Slot>, handles: multiset<nat>, frame: nat)
    requires PinsCounted(pins, slots, handles) && frame in handles
    ensures frame < |pins| && pins[frame] > 0
    ensures PinsCounted(pins[frame := pins[frame] - 1], slots, handles - multiset{frame})
  {
  }

  /** With nothing free every frame holds a page; whatever is free is unpinned. */
  lemma FreeMeans(free: seq<nat>, slots: seq<Slot>, pins: seq<nat>, handles: multiset<nat>)
    requires FreeListed(free, slots, {}) && PinsCounted(pins, slots, handles)
    ensures |pins| == |slots|
    ensures free == [] ==> forall f :: 0 <= f < |slots| ==> slots[f].Holding?
    ensures free != [] ==> free[|free| - 1] < |slots| && pins[free[|free| - 1]] == 0
  {
    if free != [] {
      assert free[|free| - 1] in free;
    }
  }

  lemma PopFree(free: seq<nat>, slots: seq<Slot>)
    requires FreeListed(free, slots, {}) && free != []
    ensures FreeListed(free[..|free| - 1], slots, {free[|free| - 1]})
    ensures free[|free| - 1] < |slots| && slots[free[|free| - 1]].Empty?
  {
    var n := |free| - 1;
    assert free[n] in free;
    forall f | f in free[..n]
      ensures f in free && f != free[n]
    {
      var i :| 0 <= i < n && free[..n][i] == f;
      assert free[i] == f;
    }
    forall f | f in free && f != free[n]
      ensures f in free[..n]
    {
      var i :| 0 <= i < |free| && free[i] == f;
      assert free[..n][i] == f;
    }
  }

  lemma PushFree(free: seq<nat>, slots: seq<Slot>, frame: nat)
    requires FreeListed(free, slots, {frame})
    ensures FreeListed(free + [frame], slots, {})
  {
    assert frame !in free;
  }

  lemma Unmapped(table: map<PageId, nat>, slots: seq<Slot>, free: seq<nat>, frame: nat, id: PageId)
    requires Inverse(table, slots) && FreeListed(free, slots, {}) && frame < |slots| && slots[frame] == Holding(id)
    ensures var slots' := slots[frame := Empty];
      Inverse(table - {id}, slots') && FreeListed(free, slots', {frame})
  {
  }

  lemma Mapped(table: map<PageId, nat>, slots: seq<Slot>, free: seq<nat>, frame: nat, id: PageId)
    requires Inverse(table, slots) && FreeListed(free, slots, {frame}) && id !in table
    ensures var slots' := slots[frame := Holding(id)];
      Inverse(table[id := frame], slots') && FreeListed(free, slots', {})
  {
  }

  /** Whether an unpinned frame holds a page makes no difference to the pins. */
  lemma PinsElsewhere(pins: seq<nat>, slots: seq<Slot>, handles: multiset<nat>, frame: nat, slot: Slot)
    requires PinsCounted(pins, slots, handles) && frame < |slots| && pins[frame] == 0
    ensures PinsCounted(pins, slots[frame := slot], handles)
  {
  }

  lemma EmptyUnpinned(pins: seq<nat>, slots: seq<Slot>, handles: multiset<nat>, frame: nat)
    requires PinsCounted(pins, slots, handles) && frame < |slots| && slots[frame].Empty?
    ensures |pins| == |slots| && pins[frame] == 0
  {
  }

  lemma RoutedMore(table: map<PageId, nat>, index: nat, count: nat, frame: nat, id: PageId)
    requires Routed(table, index, count) && ShardFor(id, count) == index
    ensures Routed(table[id := frame], index, count)
  {
    hide ShardFor;
  }
}
