/** The whole page cache: independent shards in front of one data file. */
module Pool {
  import opened Bytes
  import opened Pages
  import opened DataFile
  import opened Disk
  import opened Sharding
  import opened BufferPool
  import Clock
  import Recovery

  class Cache {
    const capacity: nat
    const disk: DiskManager
    const shards: seq<Shard>

    ghost predicate Valid()
      reads this, shards, disk
    {
      && |shards| == ShardCount(capacity) && |shards| > 0 && disk.Valid()
      && (forall i, j :: 0 <= i < j < |shards| ==> shards[i] != shards[j])
      && (forall i :: 0 <= i < |shards| ==>
            shards[i].disk == disk && shards[i].index == i && shards[i].count == |shards|)
      && (forall i :: 0 <= i < |shards| ==> shards[i].Valid({}))
    }

    ghost function Home(k: PageId): (h: nat)
      requires Valid()
      reads this, shards, disk
      ensures h < |shards| && h == ShardFor(k, |shards|)
    {
      ShardForInRange(k, capacity);
      ShardFor(k, |shards|)
    }

    /** What a reader finds in page `k`, up to the checksum field. */
    ghost function Contents(k: PageId): seq<Byte>
      requires Valid()
      reads this, shards, disk
    {
      Body(shards[Home(k)].Now(), k)
    }

    /** All dirty pages, of whatever shard. */
    ghost function Dirty(): (dirty: Recovery.Images)
      requires Valid()
      reads this, shards, disk
      ensures forall k: PageId :: k in dirty <==> k in shards[Home(k)].Viewed().dirty
      ensures forall k: PageId :: k in dirty ==> dirty[k] == shards[Home(k)].Viewed().dirty[k]
    {
      var keys := set i, k | 0 <= i < |shards| && k in shards[i].Viewed().dirty :: k;
      map k | k in keys && k in shards[Home(k)].Viewed().dirty :: shards[Home(k)].Viewed().dirty[k]
    }

    /** The dirty pages shard by shard. */
    ghost function DirtyParts(): (parts: seq<Recovery.Images>)
      requires Valid()
      reads this, shards, disk
      ensures |parts| == |shards| && forall i :: 0 <= i < |shards| ==> parts[i] == shards[i].Viewed().dirty
    {
      seq(|shards|, i requires 0 <= i < |shards| && disk.Valid() && shards[i].disk == disk reads this, shards, disk =>
        shards[i].Viewed().dirty)
    }

    /** What the rest of the engine sees of the cache. */
    ghost function Viewed(): View
      requires Valid()
      reads this, shards, disk
    {
      View(Dirty(), disk.Current())
    }

    /** Page `id` is not cached, and there is no frame to be had for it. */
    ghost predicate Full(id: PageId)
      requires Valid()
      reads this, shards, disk
    {
      id !in shards[Home(id)].table && shards[Home(id)].free == [] && Clock.AllPinned(shards[Home(id)].pins)
    }

    constructor (disk: DiskManager, capacity: nat)
      requires disk.Valid() && capacity > 0
      ensures Valid() && this.disk == disk && this.capacity == capacity
      ensures forall i :: 0 <= i < |shards| ==>
        fresh(shards[i]) && |shards[i].frames| == FramesIn(capacity, |shards|, i)
      ensures forall i :: 0 <= i < |shards| ==> shards[i].table == map[] && shards[i].handles == multiset{}
    {
      SharesAddUp(capacity);
      ShardCountIs(capacity);
      hide ShardCount, FramesIn;
      var made := MakeShards(disk, capacity, ShardCount(capacity));
      this.capacity, this.disk, this.shards := capacity, disk, made;
    }

    /** Whatever one shard does, every other shard stays valid with the same contents. */
    twostate lemma Elsewhere(h: nat)
      requires old(Valid()) && h < |shards| && disk.Valid() && shards[h].Valid({})
      requires forall i :: 0 <= i < |shards| && i != h ==> unchanged(shards[i])
      requires Untouched(h, |shards|, old(shards[h].Now()), shards[h].Now())
      ensures Valid()
      ensures forall k: PageId :: Home(k) != h ==> Contents(k) == old(Contents(k))
    {
      hide ShardCount, ShardFor, Inverse, FreeListed, PinsCounted, Routed, CleanMatches, Untouched, Body;
      forall i | 0 <= i < |shards| && i != h
        ensures shards[i].Valid({})
      {
        OthersKeep(old(shards[i].Now()), shards[i].Now(), i, old(shards[h].Now()), shards[h].Now(), h, |shards|);
      }
      forall k: PageId | Home(k) != h
        ensures Contents(k) == old(Contents(k))
      {
        var i := Home(k);
        OthersKeep(old(shards[i].Now()), shards[i].Now(), i, old(shards[h].Now()), shards[h].Now(), h, |shards|);
      }
    }

    /** What one shard does to its part is what the cache does to the whole. */
    twostate lemma Parts(h: nat)
      requires old(Valid()) && Valid() && h < |shards|
      requires forall i :: 0 <= i < |shards| && i != h ==> unchanged(shards[i])
      ensures Within(old(shards[h].Viewed()), shards[h].Viewed(), old(Viewed()), Viewed(), h, |shards|)
    {
      hide ShardCount, ShardFor, Inverse, FreeListed, PinsCounted, CleanMatches, DirtyPages, Routed, PartOf,
        SameElsewhere;
      HasPart(h);
      HadPart(h);
      SameOthers(h);
    }

    lemma HasPart(h: nat)
      requires Valid() && h < |shards|
      ensures PartOf(shards[h].Viewed(), Viewed(), h, |shards|)
    {
      hide ShardCount, ShardFor, Inverse, FreeListed, PinsCounted, CleanMatches, DirtyPages;
      PartIs(shards[h].Now(), Viewed(), h, |shards|);
    }

    twostate lemma HadPart(h: nat)
      requires old(Valid()) && h < |shards|
      ensures PartOf(old(shards[h].Viewed()), old(Viewed()), h, |shards|)
    {
      hide ShardCount, ShardFor, Inverse, FreeListed, PinsCounted, CleanMatches, DirtyPages;
      PartIs(old(shards[h].Now()), old(Viewed()), h, |shards|);
    }

    twostate lemma SameOthers(h: nat)
      requires old(Valid()) && Valid() && h < |shards|
      requires forall i :: 0 <= i < |shards| && i != h ==> unchanged(shards[i])
      ensures SameElsewhere(old(Viewed()).dirty, Viewed().dirty, h, |shards|)
    {
      hide ShardCount, ShardFor, DirtyPages, Shard.Valid, Dirty;
      forall k: PageId | Home(k) != h
        ensures k in old(Dirty()) <==> k in Dirty()
        ensures k in old(Dirty()) ==> Dirty()[k] == old(Dirty())[k]
      {
        SameDirty(old(shards[Home(k)].Now()), shards[Home(k)].Now());
      }
    }

    /** A handle on page `id`, refused for lack of frames exactly if it is not cached and its shard is all pinned. */
    method FetchPage(id: PageId, readFails: bool, io: WriteIo) returns (r: Fetched)
      requires Valid()
      modifies shards, disk
      ensures Valid() && disk.pageCount == old(disk.pageCount)
      ensures forall k: PageId :: Contents(k) == old(Contents(k))
      ensures OneWriteBack(old(Viewed()), Viewed())
      ensures r.Pinned? ==> r.frame < |shards[Home(id)].slots| && shards[Home(id)].slots[r.frame] == Holding(id)
      ensures forall i :: 0 <= i < |shards| ==>
        if r.Pinned? && i == Home(id) then shards[i].handles == old(shards[i].handles) + multiset{r.frame}
        else shards[i].handles == old(shards[i].handles)
      ensures r == Missed(Exhausted) <==> old(Full(id))
      ensures var h := Home(id);
        r == if id in old(shards[h].table) then Pinned(old(shards[h].table[id]))
             else Loads(id, old(shards[h].Room(io)), readFails, disk)
    {
      hide ShardCount, ShardFor, Inverse, FreeListed, PinsCounted, Routed, CleanMatches, Untouched, Body,
        Clock.AllPinned;
      ShardForInRange(id, capacity);
      var h := ShardFor(id, |shards|);
      r := shards[h].FetchPage(id, readFails, io);
      Elsewhere(h);
      Parts(h);
      LiftWriteBack(old(shards[h].Viewed()), shards[h].Viewed(), old(Viewed()), Viewed(), h, |shards|);
    }

    /** Refuses a page that names another id; otherwise page `id` and no other takes the new contents. */
    method InstallPage(id: PageId, page: Page, io: WriteIo) returns (r: Result)
      requires Valid()
      modifies shards, disk
      ensures Valid() && disk.pageCount == old(disk.pageCount)
      ensures forall k: PageId :: Contents(k) == if r.Done? && k == id then page[4..] else old(Contents(k))
      ensures if r.Done? then Installs(id, page, old(Viewed()), Viewed()) else OneWriteBack(old(Viewed()), Viewed())
      ensures r == Fail(Exhausted) <==> PageIdOf(page) == id && old(Full(id))
      ensures var h := Home(id);
        r == if PageIdOf(page) != id then Fail(WrongId)
             else if id in old(shards[h].table) || old(shards[h].Room(io)).Got? then Done
             else Fail(old(shards[h].Room(io)).error)
      ensures forall i :: 0 <= i < |shards| ==> shards[i].handles == old(shards[i].handles)
    {
      hide ShardCount, ShardFor, Inverse, FreeListed, PinsCounted, Routed, CleanMatches, Untouched, Shown,
        Clock.AllPinned, DirtyPages, Installs, OneWriteBack, Within, SaveOutcome, Shard.HandAfter, Shard.BitsAfter;
      if PageIdOf(page) != id {
        NoWriteBack(Viewed());
        return Fail(WrongId);
      }
      ShardForInRange(id, capacity);
      var h := ShardFor(id, |shards|);
      r := shards[h].InstallPage(id, page, io);
      Elsewhere(h);
      Parts(h);
      if r.Done? {
        LiftInstalls(id, page, old(shards[h].Viewed()), shards[h].Viewed(), old(Viewed()), Viewed(), h, |shards|);
      } else {
        LiftWriteBack(old(shards[h].Viewed()), shards[h].Viewed(), old(Viewed()), Viewed(), h, |shards|);
      }
    }

    /**
     * Writes every dirty page and syncs. When it succeeds the file alone holds the contents of every page,
     * no frame is dirty, and no page's contents have changed; and unless an earlier fsync failed, that
     * file is the only one a crash can bring up.
     */
    method FlushAll(ios: map<PageId, WriteIo>, sync: SyncIo) returns (r: Result, ghost done: Recovery.Images)
      requires Valid()
      modifies shards, disk
      ensures Valid() && disk.pageCount == old(disk.pageCount)
      ensures forall k: PageId :: Contents(k) == old(Contents(k))
      ensures forall i :: 0 <= i < |shards| ==>
        shards[i].table == old(shards[i].table) && shards[i].handles == old(shards[i].handles)
      ensures r.Done? ==> Viewed() == View(map[], Recovery.Overlay(old(disk.file), SealedPages(old(Dirty()))))
      ensures r.Fail? ==> Viewed().dirty == map[] || Flushes(old(Viewed()), done, false, Viewed())
      ensures Viewed().dirty == map[] ==> disk.file == Recovery.Overlay(old(disk.file), SealedPages(old(Dirty())))
      ensures r.Done? ==> forall k: PageId :: DiskBytes(disk.file, k)[4..] == old(Contents(k))
      ensures r.Done? && disk.fault.NoFault? ==> disk.files == [disk.file]
      ensures r.Done? <==> AllGo(old(Dirty()), disk.pageCount, ios) && sync.SyncDone?
      ensures r.Fail? ==>
        if AllGo(old(Dirty()), disk.pageCount, ios) then r == Fail(DiskError(Io))
        else r.error.DiskError? && OneFails(old(Dirty()), disk.pageCount, ios, r.error.error)
      ensures r.Done? ==> forall i :: 0 <= i < |shards| ==> AllClean(shards[i].Now())
    {
      hide ShardCount, ShardFor, Inverse, FreeListed, PinsCounted, Routed, CleanMatches, Body, AllClean, Flushes, Stops,
        SealedPages, DiskBytes, Recovery.Overlay, DirtyPages, AllGo, OneFails;
      r, done := FlushShards(ios);
      if r.Fail? {
        StillDirty(old(Viewed()), done, Viewed());
        return;
      }
      NothingDirty(old(Viewed()), done, this);
      CleanShowsFiles(this);
      r := SyncFile(sync);
    }

    /** The fsync, which changes nothing any page or view shows. */
    method SyncFile(sync: SyncIo) returns (r: Result)
      requires Valid()
      modifies disk
      ensures Valid() && disk.pageCount == old(disk.pageCount) && disk.file == old(disk.file)
      ensures Viewed() == old(Viewed()) && forall k: PageId :: Contents(k) == old(Contents(k))
      ensures forall i :: 0 <= i < |shards| ==> shards[i].Now() == old(shards[i].Now())
      ensures r.Done? && disk.fault.NoFault? ==> disk.files == [disk.file]
      ensures r == if sync.SyncDone? then Done else Fail(DiskError(Io))
    {
      hide ShardCount, ShardFor, Inverse, FreeListed, PinsCounted, Routed, CleanMatches, Body, DirtyPages;
      var s := disk.Sync(sync);
      assert forall i :: 0 <= i < |shards| ==> shards[i].Now() == old(shards[i].Now());
      assert Dirty() == old(Dirty());
      r := if s.Err? then Fail(DiskError(s.error)) else Done;
    }

    method FlushShards(ios: map<PageId, WriteIo>) returns (r: Result, ghost done: Recovery.Images)
      requires Valid()
      modifies shards, disk
      ensures Valid() && disk.pageCount == old(disk.pageCount)
      ensures forall k: PageId :: Contents(k) == old(Contents(k))
      ensures forall i :: 0 <= i < |shards| ==>
        shards[i].table == old(shards[i].table) && shards[i].handles == old(shards[i].handles)
      ensures r.Done? ==> forall i :: 0 <= i < |shards| ==> AllClean(shards[i].Now())
      ensures Flushes(old(Viewed()), done, r.Done?, Viewed())
      ensures r.Done? <==> AllGo(old(Dirty()), disk.pageCount, ios)
      ensures r.Fail? ==> r.error.DiskError? && OneFails(old(Dirty()), disk.pageCount, ios, r.error.error)
    {
      hide ShardCount, ShardFor, Inverse, FreeListed, PinsCounted, Routed, CleanMatches, Untouched, Body, AllClean,
        SavedAll, Stops, AllGo, DirtyPages, Flushes, OneFails, PartOf;
      var i := 0;
      SavedNone(Viewed());
      done := map[];
      ghost var parts := DirtyParts();
      GoByParts(this, disk.pageCount, ios, parts);
      while i < |shards|
        invariant i <= |shards| && Valid() && disk.pageCount == old(disk.pageCount)
        invariant forall k: PageId :: Contents(k) == old(Contents(k))
        invariant forall j :: 0 <= j < |shards| ==>
          shards[j].table == old(shards[j].table) && shards[j].handles == old(shards[j].handles)
        invariant forall j :: 0 <= j < i ==> AllClean(shards[j].Now())
        invariant SavedAll(old(Viewed()), done, Viewed())
        invariant forall j :: i <= j < |shards| ==> shards[j].Viewed().dirty == parts[j]
        invariant forall j :: 0 <= j < i ==> AllGo(parts[j], disk.pageCount, ios)
      {
        ghost var v := Viewed();
        ghost var more;
        r, more := FlushShard(i, ios);
        FlushesThen(old(Viewed()), done, v, more, r.Done?, Viewed());
        done := done + more;
        if r.Fail? {
          HadPart(i);
          PartFails(old(shards[i].Viewed()), old(Viewed()), i, |shards|, disk.pageCount, ios, r.error.error);
          return;
        }
        FlushIsSaved(old(Viewed()), done, Viewed());
        i := i + 1;
      }
      AllSaved(old(Viewed()), done, Viewed());
      r := Done;
    }

    method FlushShard(i: nat, ios: map<PageId, WriteIo>) returns (r: Result, ghost done: Recovery.Images)
      requires Valid() && i < |shards|
      modifies shards[i], disk
      ensures Valid() && disk.pageCount == old(disk.pageCount)
      ensures forall k: PageId :: Contents(k) == old(Contents(k))
      ensures shards[i].table == old(shards[i].table) && shards[i].handles == old(shards[i].handles)
      ensures r.Done? ==> AllClean(shards[i].Now())
      ensures forall j :: 0 <= j < |shards| && j != i && AllClean(old(shards[j].Now())) ==> AllClean(shards[j].Now())
      ensures forall j :: 0 <= j < |shards| && j != i ==> shards[j].Viewed().dirty == old(shards[j].Viewed()).dirty
      ensures Flushes(old(Viewed()), done, r.Done?, Viewed())
      ensures r.Done? <==> AllGo(old(shards[i].Viewed()).dirty, disk.pageCount, ios)
      ensures r.Fail? ==>
        r.error.DiskError? && OneFails(old(shards[i].Viewed()).dirty, disk.pageCount, ios, r.error.error)
    {
      hide ShardCount, ShardFor, Inverse, FreeListed, PinsCounted, Routed, CleanMatches, Untouched, Body, AllClean,
        Flushes, OneFails;
      r, done := shards[i].FlushCached(ios);
      Elsewhere(i);
      Parts(i);
      LiftFlushes(old(shards[i].Viewed()), done, r.Done?, shards[i].Viewed(), old(Viewed()), Viewed(), i, |shards|);
      forall j | 0 <= j < |shards| && j != i
        ensures AllClean(old(shards[j].Now())) ==> AllClean(shards[j].Now())
        ensures shards[j].Viewed().dirty == old(shards[j].Viewed()).dirty
      {
        if AllClean(old(shards[j].Now())) {
          AllCleanSame(old(shards[j].Now()), shards[j].Now());
        }
        SameDirty(old(shards[j].Now()), shards[j].Now());
      }
    }
  }

  ghost predicate Initial(s: Shard, disk: DiskManager, i: nat, count: nat, frames: nat)
    reads s, s.disk
  {
    && s.disk == disk && s.index == i && s.count == count && s.Valid({})
    && |s.frames| == frames && s.table == map[] && s.handles == multiset{}
  }

  method MakeShards(disk: DiskManager, capacity: nat, count: nat) returns (made: seq<Shard>)
    requires disk.Valid() && count > 0 && forall i: nat :: i < count ==> FramesIn(capacity, count, i) > 0
    ensures |made| == count
    ensures forall i :: 0 <= i < count ==>
      fresh(made[i]) && Initial(made[i], disk, i, count, FramesIn(capacity, count, i))
    ensures forall i, j :: 0 <= i < j < |made| ==> made[i] != made[j]
  {
    hide FramesIn, Inverse, FreeListed, PinsCounted, Routed, CleanMatches;
    made := [];
    while |made| < count
      invariant |made| <= count
      invariant forall i :: 0 <= i < |made| ==>
        fresh(made[i]) && Initial(made[i], disk, i, count, FramesIn(capacity, count, i))
      invariant forall i, j :: 0 <= i < j < |made| ==> made[i] != made[j]
    {
      var shard := new Shard(disk, FramesIn(capacity, count, |made|), |made|, count);
      made := made + [shard];
    }
  }

  datatype Created = Ready(cache: Cache) | NoCache(error: PoolError)

  method Create(disk: DiskManager, capacity: nat) returns (r: Created)
    requires disk.Valid()
    ensures if capacity == 0 then r == NoCache(NoCapacity) else r.Ready?
    ensures r.Ready? ==> r.cache.Valid() && fresh(r.cache) && r.cache.disk == disk && r.cache.capacity == capacity
    ensures r.Ready? ==> forall i :: 0 <= i < |r.cache.shards| ==>
      r.cache.shards[i].table == map[] && r.cache.shards[i].handles == multiset{}
  {
    if capacity == 0 {
      return NoCache(NoCapacity);
    }
    var cache := new Cache(disk, capacity);
    return Ready(cache);
  }

  lemma AllCleanSame(c: Picture, c': Picture)
    requires AllClean(c) && c'.table == c.table && c'.frames == c.frames
    ensures AllClean(c')
  {
  }

  /** A cache without a dirty frame, after a flush that succeeded: all that was dirty is now in the file. */
  lemma NothingDirty(v: View, done: Recovery.Images, cache: Cache)
    requires cache.Valid() && Flushes(v, done, true, cache.Viewed())
    requires forall i :: 0 <= i < |cache.shards| ==> AllClean(cache.shards[i].Now())
    ensures cache.Dirty() == map[] && cache.disk.file == Recovery.Overlay(v.file, SealedPages(v.dirty))
  {
    hide ShardCount, ShardFor, Inverse, FreeListed, PinsCounted, Routed, CleanMatches, Recovery.Overlay, SealedPages;
    forall k: PageId
      ensures k !in cache.Dirty()
    {
      assert AllClean(cache.shards[cache.Home(k)].Now());
    }
    assert cache.Dirty() == map[];
    SavedEvery(v, done, cache.Viewed());
  }

  /** A clean cache shows exactly what is in the file. */
  lemma CleanShowsFile(c: Picture, k: PageId)
    requires AllClean(c) && CleanMatches(c)
    ensures Body(c, k) == DiskBytes(c.file, k)[4..]
  {
    hide Holds, DiskBytes;
    if k in c.table {
      DiskBytesOfHolds(c.file, k, c.frames[c.table[k]].page);
    }
  }

  lemma FlushIsSaved(v: View, done: Recovery.Images, v': View)
    requires Flushes(v, done, true, v')
    ensures SavedAll(v, done, v')
  {
    hide SavedAll;
  }

  /** Every dirty page of the cache goes if and only if every one of each shard does. */
  lemma GoByParts(cache: Cache, count: nat, ios: map<PageId, WriteIo>, parts: seq<Recovery.Images>)
    requires cache.Valid() && |parts| == |cache.shards|
    requires forall i :: 0 <= i < |parts| ==> parts[i] == cache.shards[i].Viewed().dirty
    ensures AllGo(cache.Dirty(), count, ios) <==> forall i :: 0 <= i < |parts| ==> AllGo(parts[i], count, ios)
  {
    hide ShardCount, ShardFor, Inverse, FreeListed, PinsCounted, CleanMatches, WriteOutcome, AllGo, DirtyPages;
    var v := cache.Viewed();
    forall i | 0 <= i < |parts|
      ensures PartOf(cache.shards[i].Viewed(), v, i, |parts|)
    {
      cache.HasPart(i);
    }
    forall k: PageId
      ensures ShardFor(k, |parts|) < |parts|
    {
      assert cache.Home(k) < |parts|;
    }
    hide Cache.Valid, Shard.Viewed;
    GoAlike(v, count, ios, parts);
  }

  lemma GoAlike(v: View, count: nat, ios: map<PageId, WriteIo>, parts: seq<Recovery.Images>)
    requires |parts| > 0 && forall k: PageId :: ShardFor(k, |parts|) < |parts|
    requires forall i :: 0 <= i < |parts| ==> PartOf(View(parts[i], v.file), v, i, |parts|)
    ensures AllGo(v.dirty, count, ios) <==> forall i :: 0 <= i < |parts| ==> AllGo(parts[i], count, ios)
  {
    hide ShardFor, WriteOutcome;
    if forall i :: 0 <= i < |parts| ==> AllGo(parts[i], count, ios) {
      forall k | k in v.dirty
        ensures WriteOutcome(k, v.dirty[k], count, Recovery.IoFor(ios, k)).Ok?
      {
        var i := ShardFor(k, |parts|);
        assert k in parts[i];
      }
    }
  }

  lemma PartFails(
    u: View, v: View, index: nat, shards: nat, count: nat, ios: map<PageId, WriteIo>, e: Disk.Error)
    requires PartOf(u, v, index, shards) && OneFails(u.dirty, count, ios, e)
    ensures OneFails(v.dirty, count, ios, e)
  {
    hide ShardFor, WriteOutcome;
    var k :| k in u.dirty && WriteOutcome(k, u.dirty[k], count, Recovery.IoFor(ios, k)) == Err(e);
    assert k in v.dirty;
  }

  lemma CleanShowsFiles(cache: Cache)
    requires cache.Valid() && forall i :: 0 <= i < |cache.shards| ==> AllClean(cache.shards[i].Now())
    ensures forall k: PageId :: DiskBytes(cache.disk.file, k)[4..] == cache.Contents(k)
  {
    hide ShardCount, ShardFor, Inverse, FreeListed, PinsCounted, Routed, CleanMatches, Body, AllClean, DiskBytes;
    forall k: PageId
      ensures DiskBytes(cache.disk.file, k)[4..] == cache.Contents(k)
    {
      CleanShowsFile(cache.shards[cache.Home(k)].Now(), k);
    }
  }

  /** A flush that fails leaves a page dirty. */
  lemma StillDirty(v: View, done: Recovery.Images, v': View)
    requires Flushes(v, done, false, v')
    ensures v'.dirty != map[]
  {
    hide SavedAll, PartlyWritten, Sealed;
    var mid: View :| SavedAll(v, done, mid) && Stops(mid, v');
    var k :| k in mid.dirty && (v' == mid || FailsPage(mid, v', k));
    assert k in v'.dirty;
  }

  /** What happens in one shard leaves the clean frames and the contents of every other shard as they were. */
  lemma OthersKeep(c: Picture, c': Picture, i: nat, d: Picture, d': Picture, h: nat, count: nat)
    requires c.file == d.file && c'.file == d'.file && c'.table == c.table && c'.frames == c.frames
    requires i != h && Routed(c.table, i, count) && CleanMatches(c) && Untouched(h, count, d, d')
    ensures CleanMatches(c')
    ensures forall k: PageId :: ShardFor(k, count) == i ==> Body(c', k) == Body(c, k)
  {
    hide ShardFor, DiskBytes, Holds;
  }

  // ----- from one shard to the whole cache

  /** `u` is what shard `index` holds of `v`. */
  ghost predicate PartOf(u: View, v: View, index: nat, count: nat) {
    && count > 0 && u.file == v.file
    && (forall k: PageId :: k in u.dirty <==> k in v.dirty && ShardFor(k, count) == index)
    && (forall k: PageId :: k in u.dirty ==> u.dirty[k] == v.dirty[k])
  }

  /** `dirty'` differs from `dirty` on pages of shard `index` alone. */
  ghost predicate SameElsewhere(dirty: Recovery.Images, dirty': Recovery.Images, index: nat, count: nat) {
    && count > 0
    && (forall k: PageId :: ShardFor(k, count) != index ==> (k in dirty <==> k in dirty'))
    && (forall k: PageId :: ShardFor(k, count) != index && k in dirty ==> dirty'[k] == dirty[k])
  }

  lemma SameDirty(c: Picture, c': Picture)
    requires c'.table == c.table && c'.frames == c.frames
    ensures DirtyPages(c') == DirtyPages(c)
  {
  }

  /** A cache's view made up of its shards' views. */
  lemma PartIs(c: Picture, v: View, index: nat, count: nat)
    requires Routed(c.table, index, count) && v.file == c.file
    requires forall k: PageId :: ShardFor(k, count) == index ==> (k in v.dirty <==> k in DirtyPages(c))
    requires forall k: PageId :: ShardFor(k, count) == index && k in v.dirty ==> v.dirty[k] == DirtyPages(c)[k]
    ensures PartOf(ViewOf(c), v, index, count)
  {
    hide ShardFor;
  }

  /** The part changes from `u` to `u'`, and so the whole from `v` to `v'`. */
  ghost predicate Within(u: View, u': View, v: View, v': View, index: nat, count: nat) {
    PartOf(u, v, index, count) && PartOf(u', v', index, count) && SameElsewhere(v.dirty, v'.dirty, index, count)
  }

  /** What that is for the whole.  */
  lemma WholeLess(u: View, u': View, v: View, v': View, index: nat, count: nat, gone: set<PageId>)
    requires Within(u, u', v, v', index, count) && gone <= u.dirty.Keys && u'.dirty == u.dirty - gone
    ensures v'.dirty == v.dirty - gone && gone <= v.dirty.Keys
  {
    hide ShardFor;
  }

  lemma WholeMore(u: View, u': View, v: View, v': View, index: nat, count: nat, k: PageId, p: Page)
    requires Within(u, u', v, v', index, count) && ShardFor(k, count) == index && u'.dirty == u.dirty[k := p]
    ensures v'.dirty == v.dirty[k := p]
  {
    hide ShardFor;
  }

  lemma WholeSame(u: View, u': View, v: View, v': View, index: nat, count: nat)
    requires Within(u, u', v, v', index, count) && u' == u
    ensures v' == v
  {
    hide ShardFor;
    assert v'.dirty == v.dirty;
  }

  lemma NoWriteBack(v: View)
    ensures OneWriteBack(v, v)
  {
  }

  lemma LiftSaves(u: View, u': View, v: View, v': View, index: nat, count: nat)
    requires Within(u, u', v, v', index, count) && Saves(u, u')
    ensures Saves(v, v')
  {
    hide ShardFor, Sealed, WritePage;
    if u' == u {
      WholeSame(u, u', v, v', index, count);
    } else {
      var k :| SavesPage(u, u', k);
      WholeLess(u, u', v, v', index, count, {k});
      assert SavesPage(v, v', k);
    }
  }

  lemma LiftStops(u: View, u': View, v: View, v': View, index: nat, count: nat)
    requires Within(u, u', v, v', index, count) && Stops(u, u')
    ensures Stops(v, v')
  {
    hide ShardFor, Sealed, WritePage, PartlyWritten;
    var k :| k in u.dirty && (u' == u || FailsPage(u, u', k));
    if u' == u {
      WholeSame(u, u', v, v', index, count);
    } else {
      WholeMore(u, u', v, v', index, count, k, Sealed(u.dirty[k]));
      assert FailsPage(v, v', k);
    }
  }

  lemma LiftWriteBack(u: View, u': View, v: View, v': View, index: nat, count: nat)
    requires Within(u, u', v, v', index, count) && OneWriteBack(u, u')
    ensures OneWriteBack(v, v')
  {
    hide Within, Saves, Stops;
    if Saves(u, u') {
      LiftSaves(u, u', v, v', index, count);
    } else {
      LiftStops(u, u', v, v', index, count);
    }
  }

  /** The whole once its part is `u'`. */
  ghost function With(u: View, u': View, v: View): View { View(v.dirty - u.dirty.Keys + u'.dirty, u'.file) }

  lemma WithIs(u: View, u': View, v: View, index: nat, count: nat)
    requires PartOf(u, v, index, count) && forall k :: k in u'.dirty ==> ShardFor(k, count) == index
    ensures Within(u, u', v, With(u, u', v), index, count)
  {
    hide ShardFor;
  }

  lemma WithinThen(u: View, m: View, u': View, v: View, v': View, index: nat, count: nat)
    requires Within(u, u', v, v', index, count) && forall k :: k in m.dirty ==> ShardFor(k, count) == index
    ensures Within(u, m, v, With(u, m, v), index, count) && Within(m, u', With(u, m, v), v', index, count)
  {
    hide ShardFor;
    WithIs(u, m, v, index, count);
  }

  lemma LiftInstalls(id: PageId, page: Page, u: View, u': View, v: View, v': View, index: nat, count: nat)
    requires Within(u, u', v, v', index, count) && Installs(id, page, u, u') && ShardFor(id, count) == index
    ensures Installs(id, page, v, v')
  {
    hide ShardFor, OneWriteBack, Within;
    var m: View :| OneWriteBack(u, m) && u' == View(m.dirty[id := page], m.file);
    var w := With(u, m, v);
    assert forall k :: k in m.dirty ==> ShardFor(k, count) == index by { PartRouted(u, u', v, v', index, count); }
    WithinThen(u, m, u', v, v', index, count);
    LiftWriteBack(u, m, v, w, index, count);
    WholeMore(m, u', w, v', index, count, id, page);
    assert v'.file == w.file by { SameFileOf(m, u', w, v', index, count); }
    InstalledOver(id, page, v, w, v');
  }

  lemma PartRouted(u: View, u': View, v: View, v': View, index: nat, count: nat)
    requires Within(u, u', v, v', index, count)
    ensures count > 0 && forall k :: k in u'.dirty ==> ShardFor(k, count) == index
    ensures forall k :: k in u.dirty ==> ShardFor(k, count) == index
  {
    hide ShardFor;
  }

  lemma SameFileOf(u: View, u': View, v: View, v': View, index: nat, count: nat)
    requires Within(u, u', v, v', index, count)
    ensures u.file == v.file && u'.file == v'.file
  {
    hide ShardFor;
  }

  lemma LiftSavedAll(u: View, done: Recovery.Images, u': View, v: View, v': View, index: nat, count: nat)
    requires Within(u, u', v, v', index, count) && SavedAll(u, done, u')
    ensures SavedAll(v, done, v')
  {
    hide ShardFor, Sealed, Recovery.Overlay;
    WholeLess(u, u', v, v', index, count, done.Keys);
  }

  lemma LiftFlushes(u: View, done: Recovery.Images, ok: bool, u': View, v: View, v': View, index: nat, count: nat)
    requires Within(u, u', v, v', index, count) && Flushes(u, done, ok, u')
    ensures Flushes(v, done, ok, v')
  {
    hide ShardFor, SavedAll, Stops, Within;
    if ok {
      LiftSavedAll(u, done, u', v, v', index, count);
    } else {
      var m: View :| SavedAll(u, done, m) && Stops(m, u');
      PartRouted(u, u', v, v', index, count);
      assert forall k :: k in m.dirty ==> k in u.dirty by { SavedFewer(u, done, m); }
      WithinThen(u, m, u', v, v', index, count);
      LiftSavedAll(u, done, m, v, With(u, m, v), index, count);
      LiftStops(m, u', With(u, m, v), v', index, count);
    }
  }

  lemma SavedFewer(v: View, done: Recovery.Images, v': View)
    requires SavedAll(v, done, v')
    ensures forall k :: k in v'.dirty ==> k in v.dirty
  {
    hide Recovery.Overlay, Sealed;
  }

  /** One shard after another. */
  lemma FlushesThen(v: View, done: Recovery.Images, mid: View, more: Recovery.Images, ok: bool, v': View)
    requires SavedAll(v, done, mid) && Flushes(mid, more, ok, v')
    ensures Flushes(v, done + more, ok, v')
  {
    hide SavedAll, Stops;
    if ok {
      SavedThen(v, done, mid, more, v');
    } else {
      var m: View :| SavedAll(mid, more, m) && Stops(m, v');
      SavedThen(v, done, mid, more, m);
    }
  }

  lemma SavedThen(v: View, done: Recovery.Images, mid: View, more: Recovery.Images, v': View)
    requires SavedAll(v, done, mid) && SavedAll(mid, more, v')
    ensures SavedAll(v, done + more, v')
  {
    hide Sealed, Recovery.Overlay;
    Recovery.OverlayTwice(v.file, done, more);
    assert v.dirty - done.Keys - more.Keys == v.dirty - (done + more).Keys;
  }
}
