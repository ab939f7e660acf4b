/** Write transactions: private pages until commit, which logs them and then publishes them. */
module Transactions {
  import opened Bytes
  import opened Crc32c
  import opened Pages
  import opened WalRecord
  import opened WalLog
  import opened Wal
  import opened DataFile
  import opened Recovery
  import opened Fsync
  import opened Store
  import opened Engine
  import opened EngineInvariant
  import opened CrashSafety
  import opened Isolation
  import opened Disk
  import opened WalHandle
  import opened Database
  import opened DiskInvariant
  import CommitSteps
  import FileHeader

  datatype Begun = Started(txn: WriteTxn) | Declined(failure: Failure)

  /** Waits for the log lock; refuses a poisoned database. */
  method BeginWrite(db: Database) returns (r: Begun)
    requires db.Valid() && db.Task().Idle?
    modifies db
    ensures old(db.states) <= db.states
    ensures r.Declined? <==> old(db.poisoned)
    ensures r.Declined? ==> r.failure == IsPoisoned && db.Valid() && db.s == old(db.s)
    ensures r.Started? ==> fresh(r.txn) && r.txn.db == db && r.txn.Valid()
    ensures r.Started? ==> r.txn.dirty == map[] && r.txn.pageCount == db.disk.pageCount
    ensures r.Started? ==> db.s == WithTask(old(db.s), Writing(map[], db.disk.pageCount))
  {
    hide Inv, SafePath, Safe, Step, Versions, IsTables, Handle.Valid;
    if db.poisoned {
      return Declined(IsPoisoned);
    }
    BeginStep(db.s, db.s.proc.mem);
    db.Advance(Begin, WithTask(db.s, Writing(map[], db.disk.pageCount)));
    var txn := new WriteTxn(db);
    return Begun.Started(txn);
  }

  class WriteTxn {
    const db: Database
    var dirty: Images
    var pageCount: U64

    ghost predicate Valid()
      reads this, db, db.disk, db.wal, db.tables
    {
      db.Valid() && db.Task() == Writing(dirty, pageCount)
    }

    constructor (db: Database)
      requires db.Valid() && db.Task() == Writing(map[], db.disk.pageCount)
      ensures Valid() && this.db == db && dirty == map[] && pageCount == db.disk.pageCount
    {
      hide Inv, SafePath, Versions, IsTables, Handle.Valid, DiskManager.Valid;
      this.db := db;
      dirty := map[];
      pageCount := db.disk.pageCount;
    }

    /** The transaction's own copy of a page, and for every other page the last committed contents. */
    method ReadPage(id: PageId, victim: PageId, io: WriteIo, read: ReadIo) returns (r: Result, page: Page)
      requires Valid()
      modifies db, db.disk
      ensures Valid() && old(db.states) <= db.states && OnlyCache(old(db.s), db.s)
      ensures r == Failure(OutOfRange) <==> id == 0 || id >= pageCount
      ensures r.Success? ==>
        if id in dirty then page == dirty[id] else id in db.s.base.pages && page == db.s.base.pages[id]
      ensures 0 < id < pageCount ==>
        r == if id in dirty || Fetches(id, old(db.cached), victim, io, read) then Success
             else Failure(NotFetched(read))
    {
      hide Inv, SafePath, Versions, IsTables, Handle.Valid, Fetch;
      page := Zeros(4096);
      if id == 0 || id >= pageCount {
        return Failure(OutOfRange), page;
      }
      if id in dirty {
        return Success, dirty[id];
      }
      r, page := db.FetchPage(id, victim, io, read);
      WriterSeesOverlay(db.s, db.s.proc.mem, id);
    }

    /** Makes a private copy of page `id`; `Edit` is what the caller then does to it. */
    method PageMut(id: PageId, victim: PageId, io: WriteIo, read: ReadIo) returns (r: Result)
      requires Valid()
      modifies this, db, db.disk
      ensures Valid() && old(db.states) <= db.states && pageCount == old(pageCount) && db.s.base == old(db.s.base)
      ensures r == Failure(OutOfRange) <==> id == 0 || id >= pageCount
      ensures r.Failure? ==> dirty == old(dirty)
      ensures 0 < id < pageCount ==>
        r == if id in old(dirty) || Fetches(id, old(db.cached), victim, io, read) then Success
             else Failure(NotFetched(read))
      ensures r.Success? ==>
        if id in old(dirty) then dirty == old(dirty)
        else id in db.s.base.pages && dirty == old(dirty)[id := db.s.base.pages[id]]
    {
      hide Inv, SafePath, Safe, Step, Versions, IsTables, Handle.Valid, Fetch;
      if id == 0 || id >= pageCount {
        return Failure(OutOfRange);
      }
      if id in dirty {
        return Success;
      }
      var page;
      r, page := db.FetchPage(id, victim, io, read);
      WriterSeesOverlay(db.s, db.s.proc.mem, id);
      if r.Success? {
        WriterStep(db.s, db.s.proc.mem, Touch(id));
        dirty := dirty[id := page];
        db.Advance(Writer(Touch(id)), WithTask(db.s, Writing(dirty, pageCount)));
      }
    }

    method Edit(id: PageId, page: Page)
      requires Valid() && id in dirty
      modifies this, db
      ensures Valid() && old(db.states) <= db.states && dirty == old(dirty)[id := page] && pageCount == old(pageCount)
      ensures db.s == WithTask(old(db.s), Writing(dirty, pageCount))
    {
      hide Inv, SafePath, Safe, Step, Versions, IsTables, Handle.Valid;
      WriterStep(db.s, db.s.proc.mem, WriteEvent.Edit(id, page));
      dirty := dirty[id := page];
      db.Advance(Writer(WriteEvent.Edit(id, page)), WithTask(db.s, Writing(dirty, pageCount)));
    }

    /** A new page past all others, this transaction's and everyone's. */
    method AllocatePage(t: PageType) returns (id: PageId)
      requires Valid() && pageCount + 1 < 0x1_0000_0000_0000_0000
      modifies this, db
      ensures Valid() && old(db.states) <= db.states && id == old(pageCount) && pageCount == id + 1
      ensures id !in old(dirty) && id >= db.disk.pageCount && dirty == old(dirty)[id := NewPage(id, t)]
      ensures db.s == WithTask(old(db.s), Writing(dirty, pageCount))
    {
      hide Inv, SafePath, Safe, Step, Versions, IsTables, Handle.Valid, NewPage;
      WriterPages(db.s, db.s.proc.mem);
      WriterStep(db.s, db.s.proc.mem, Allocate(t));
      id := pageCount;
      pageCount := pageCount + 1;
      dirty := dirty[id := NewPage(id, t)];
      db.Advance(Writer(Allocate(t)), WithTask(db.s, Writing(dirty, pageCount)));
    }

    /** Dropping the transaction: the committed state, and the next page id, are as before it began. */
    method Rollback()
      requires Valid()
      modifies db
      ensures db.Valid() && old(db.states) <= db.states && db.s == WithTask(old(db.s), Idle)
    {
      hide Inv, SafePath, Safe, Step, Versions, IsTables, Handle.Valid;
      WriterStep(db.s, db.s.proc.mem, WriteEvent.Rollback);
      db.Advance(Writer(WriteEvent.Rollback), WithTask(db.s, Idle));
    }

    // ----- commit

    /** Queues the images and the commit record. */
    method AppendAll(id: U64, images: seq<Image>)
      requires db.wal.Valid() && IsTables(db.tables) && !db.wal.poisoned && db.wal.log.phase.Quiet?
      requires db.wal.queued == [] && db.wal.nextSeq + |images| + 1 < SEQ_LIMIT
      modifies db.wal
      ensures db.wal.Valid() && !db.wal.poisoned && db.wal.log == old(db.wal.log)
      ensures db.wal.queued == Records(Batch(id, images, true))
      ensures NextSeq(db.wal.log) + |db.wal.queued| < SEQ_LIMIT
      ensures db.wal.pending == EncodeAll(db.wal.queued, NextSeq(db.wal.log))
    {
      hide ValidLog, Survives, EncodeAll, LogBytes, IsTables, WalLog.Open, ReadsAs;
      var i := 0;
      while i < |images|
        invariant i <= |images| && db.wal.Valid() && !db.wal.poisoned && db.wal.log == old(db.wal.log)
        invariant db.wal.queued == ImageRecords(id, images[..i]) && db.wal.nextSeq == old(db.wal.nextSeq) + i
      {
        var r := db.wal.Append(db.tables, PageImage(id, images[i].id, images[i].page));
        assert images[..i + 1] == images[..i] + [images[i]];
        i := i + 1;
      }
      assert images[..i] == images;
      var r := db.wal.Append(db.tables, WalRecord.Commit(id));
      QuietScan(db.wal);
    }

    /** Makes the batch durable, or leaves its fate open and the log unusable. */
    method Log(ghost txn: Txn, id: U64, images: seq<Image>, flush: FlushIo) returns (r: Result)
      requires db.Valid() && db.Task() == Logging(txn, id) && images == txn.images
      requires flush.WriteFailed? ==> Damage(flush.left, BatchOf(txn, id), NextSeq(db.wal.log))
      modifies db, db.wal
      ensures old(db.states) <= db.states && db.poisoned == old(db.poisoned) && db.disk.files == old(db.disk.files)
      ensures db.s.attempts == old(db.s.attempts) + [Attempt(txn, false)]
      ensures r == if flush.FlushDone? then Success else Failure(LogFailed(IoFailed))
      ensures db.s == LogOutcome(old(db.s), txn, id, flush) && db.cached == old(db.cached)
      ensures r.Success? ==> db.Valid() && db.Task() == Logged(txn)
      ensures r.Success? ==> db.s.base == Apply(old(db.s.base), txn) && db.s.shown == old(db.s.shown)
      ensures r.Success? ==> db.s.log == LogWith(old(db.s.log), txn, id)
      ensures r.Success? ==> db.s.proc.mem == old(db.s.proc.mem).(task := Logged(txn))
      ensures r.Failure? ==> db.ValidAs(true) && db.Task().Idle? && db.s.base == old(db.s.base)
    {
      hide Inv, SafePath, Versions, IsTables, ValidLog, Survives, EncodeAll, Damage, Handle.Valid, BatchOf, Apply,
        WalLog.Open, Scan;
      LoggingFacts(db.s, db.s.proc.mem);
      HandleFacts(db.wal);
      AppendAll(id, images);
      BatchIs(txn, id);
      QuietScan(db.wal);
      ghost var left := if flush.WriteFailed? then flush.left else db.wal.pending;
      assert db.wal.log.tail + left == left;
      var w := db.wal.Flush(flush);
      LogAdvances(txn, id, flush);
      r := if w.Err? then Failure(LogFailed(w.error)) else Success;
    }

    ghost method LogAdvances(txn: Txn, id: U64, flush: FlushIo)
      requires db.Recorded() && db.s.proc.Up? && db.Task() == Logging(txn, id)
      requires flush.WriteFailed? ==> Damage(flush.left, BatchOf(txn, id), NextSeq(db.s.log))
      modifies db`s, db`states, db`events
      ensures db.Recorded() && old(db.states) <= db.states && db.s == LogOutcome(old(db.s), txn, id, flush)
    {
      hide Inv, SafePath, Safe, Step, EncodeAll, Damage, BatchOf, Apply, Settle, EncodeBatch;
      var s, m := db.s, db.s.proc.mem;
      LoggingFacts(s, m);
      if flush.WriteFailed? {
        CommitStep(s, m, LogWriteFailed(flush.left));
        db.Advance(Committing(LogWriteFailed(flush.left)), DoCommit(s, m, LogWriteFailed(flush.left)));
      } else {
        CommitStep(s, m, LogWrite);
        db.Advance(Committing(LogWrite), DoCommit(s, m, LogWrite));
        if flush.SyncFailed? {
          CommitStep(db.s, db.s.proc.mem, LogSyncFailed);
          db.Advance(Committing(LogSyncFailed), PoisonLog(db.s));
        } else {
          CommitStep(db.s, db.s.proc.mem, LogSync);
          SyncIs(db.s, db.s.proc.mem);
          db.Advance(Committing(LogSync), DoLogSync(db.s, db.s.proc.mem));
        }
      }
    }

    /** The exclusive lock is granted once every read transaction open now has been dropped by its owner. */
    ghost method AwaitReaders(txn: Txn)
      requires db.Valid() && db.Task() == Logged(txn)
      modifies db`s, db`states, db`events
      ensures db.Valid() && old(db.states) <= db.states && db.Task() == Logged(txn) && SameCommits(old(db.s), db.s)
      ensures db.s.proc.mem.readers == map[]
    {
      hide Inv, SafePath, Safe, Step, Versions, IsTables, Handle.Valid, FaultInv;
      while db.s.proc.mem.readers != map[]
        invariant db.Valid() && old(db.states) <= db.states && db.Task() == Logged(txn) && SameCommits(old(db.s), db.s)
        decreases |db.s.proc.mem.readers|
      {
        var t :| t in db.s.proc.mem.readers;
        CacheStep(db.s, db.s.proc.mem, ReaderDrop(t));
        db.Advance(Cache(ReaderDrop(t)), DoCache(db.s, db.s.proc.mem, ReaderDrop(t)));
      }
    }

    /** Waits for readers, then makes the logged pages visible, all under the exclusive lock. */
    method Publish(ghost txn: Txn, images: seq<Image>, room: map<PageId, Room>) returns (r: Result)
      requires db.Valid() && db.Task() == Logged(txn) && images == txn.images && pageCount == txn.count
      modifies db, db.disk
      ensures old(db.states) <= db.states && db.poisoned == old(db.poisoned)
      ensures db.s.base == old(db.s.base) && db.s.log == old(db.s.log)
      ensures r.Success? ==> db.Valid() && db.Task().Published? && db.s.shown == db.s.base
      ensures r.Success? ==> db.s.attempts == Acked(old(db.s.attempts))
      ensures r.Failure? ==> db.ValidAs(true) && db.Task().Idle? && db.s.attempts == old(db.s.attempts)
      ensures r == if MakesRoom(old(db.cached).Keys, Ids(DataImages(images)), room) then Success
                   else Failure(DiskFailed(Io))
      ensures r.Failure? ==> exists k :: k in room && room[k].io.WriteFailed?
      ensures r.Failure? ==> db.s.half.Half? && db.s.half.txn == txn
      ensures r.Success? ==> db.cached.Keys == RoomAfter(old(db.cached).Keys, Ids(DataImages(images)), room)
    {
      hide Inv, SafePath, Safe, Step, Versions, IsTables, Handle.Valid, DataImages, DiskManager.Valid, MakesRoom,
        RoomAfter, Ids;
      AwaitReaders(txn);
      TakeExclusive(txn);
      r := InstallAll(txn, images, room);
      if r.Failure? {
        OneWriteFails(old(db.cached).Keys, Ids(DataImages(images)), room);
        return;
      }
      PublishEnds(db.s, db.s.proc.mem);
      db.Advance(Committing(PublishEnd), DoPublishEnd(db.s));
    }

    /** Takes the publish lock and grows the page count. */
    method TakeExclusive(ghost txn: Txn)
      requires db.Valid() && db.Task() == Logged(txn) && pageCount == txn.count && db.s.proc.mem.readers == map[]
      modifies db, db.disk
      ensures old(db.states) <= db.states && db.poisoned == old(db.poisoned) && SameCommits(old(db.s), db.s)
      ensures db.Valid() && db.Task() == Publishing(txn, DataImages(txn.images)) && db.disk.pageCount == pageCount
      ensures db.cached == old(db.cached)
    {
      hide Inv, SafePath, Safe, Step, Versions, IsTables, Handle.Valid, DataImages;
      PublishStarts(db.s, db.s.proc.mem);
      var c := db.disk.SetPageCount(pageCount);
      db.Advance(Committing(PublishStart), Exclusively(db.s, db.s.proc.mem));
    }

    /** The header image stays in the log; every other image goes into the page cache. */
    method InstallAll(ghost txn: Txn, images: seq<Image>, room: map<PageId, Room>) returns (r: Result)
      requires db.Valid() && db.Task() == Publishing(txn, DataImages(images))
      modifies db, db.disk
      ensures old(db.states) <= db.states && db.poisoned == old(db.poisoned) && SameCommits(old(db.s), db.s)
      ensures r.Success? ==> db.Valid() && db.Task() == Publishing(txn, [])
      ensures r.Failure? ==> db.ValidAs(true) && db.Task().Idle? && db.s.half.Half? && db.s.half.txn == txn
      ensures r == if MakesRoom(old(db.cached).Keys, Ids(DataImages(images)), room) then Success
                   else Failure(DiskFailed(Io))
      ensures r.Success? ==> db.cached.Keys == RoomAfter(old(db.cached).Keys, Ids(DataImages(images)), room)
    {
      hide Inv, SafePath, Versions, IsTables, Handle.Valid, DataImages, DiskManager.Valid, MakesRoom, RoomAfter, Ids;
      assert images[0..] == images;
      var i := 0;
      while i < |images|
        invariant i <= |images| && db.Valid() && db.Task() == Publishing(txn, DataImages(images[i..]))
        invariant old(db.states) <= db.states && db.poisoned == old(db.poisoned) && SameCommits(old(db.s), db.s)
        invariant MakesRoom(old(db.cached).Keys, Ids(DataImages(images)), room)
             <==> MakesRoom(db.cached.Keys, Ids(DataImages(images[i..])), room)
        invariant RoomAfter(old(db.cached).Keys, Ids(DataImages(images)), room)
               == RoomAfter(db.cached.Keys, Ids(DataImages(images[i..])), room)
      {
        DataImagesFront(images[i..]);
        assert images[i..][1..] == images[i + 1..];
        ghost var cached := db.cached;
        RoomNext(cached.Keys, images[i], DataImages(images[i + 1..]), room);
        if images[i].id != 0 {
          var makeRoom := RoomFor(room, images[i].id);
          KeysAfter(cached, makeRoom.victim, images[i]);
          r := db.InstallPage(images[i], makeRoom.victim, makeRoom.io);
          if r.Failure? {
            return;
          }
        }
        i := i + 1;
      }
      NoImages(images[i..]);
      RoomForNone(db.cached.Keys, DataImages(images[i..]), room);
      return Success;
    }

    /** Seals every page in place, in page order, and checks it; a malformed page rejects the whole commit. */
    method SealAll() returns (r: Result, order: seq<PageId>)
      requires Valid()
      modifies this, db
      ensures Valid() && old(db.states) <= db.states && pageCount == old(pageCount) && dirty.Keys == old(dirty).Keys
      ensures db.s == WithTask(old(db.s), Writing(dirty, pageCount))
      ensures r.Success? ==> Ascending(order, dirty)
      ensures r.Success? ==> forall k :: k in dirty ==> dirty[k] == Sealed(old(dirty)[k]) && Verified(dirty[k], k)
      ensures r.Failure? ==> r.failure.Malformed? && FirstMalformed(old(dirty), r.failure.id) && r.failure.id in dirty
      ensures r.Failure? ==> dirty[r.failure.id] == Sealed(old(dirty)[r.failure.id])
    {
      hide Inv, SafePath, Versions, IsTables, Handle.Valid, DiskManager.Valid, Sealed, Verified, SealedBut, Ascending;
      order := [];
      var todo := dirty.Keys;
      NoneSealed(dirty);
      while todo != {}
        invariant Valid() && old(db.states) <= db.states && pageCount == old(pageCount) && dirty.Keys == old(dirty).Keys
        invariant db.s == WithTask(old(db.s), Writing(dirty, pageCount)) && SealedBut(old(dirty), dirty, todo, order)
        decreases |todo|
      {
        var k := Least(todo);
        SealedBelow(old(dirty), dirty, todo, order, k);
        SealedOneMore(old(dirty), dirty, todo, order, k);
        Edit(k, Sealed(dirty[k]));
        if !Verified(dirty[k], k) {
          return Failure(Malformed(k)), order;
        }
        order := order + [k];
        todo := todo - {k};
      }
      SealedEvery(old(dirty), dirty, order);
      r := Success;
    }

    /** The images to log: the new header if the file grew, then the pages in order. */
    method BuildImages(order: seq<PageId>) returns (images: seq<Image>, ghost txn: Txn)
      requires AllSealed(dirty, order)
      ensures IsCommit(txn, dirty, order, pageCount, db.disk.pageCount)
      ensures images == txn.images && txn.count == pageCount
    {
      hide AllSealed, IsCommit, Sealed, FileHeader.Encode;
      SealedOrder(dirty, order);
      images := if pageCount > db.disk.pageCount then [Image(0, FileHeader.Encode(pageCount))] else [];
      var i, head := 0, images;
      while i < |order|
        invariant i <= |order| && |images| == |head| + i && head <= images
        invariant forall j :: 0 <= j < i ==> images[|head| + j] == Image(order[j], dirty[order[j]])
      {
        images := images + [Image(order[i], dirty[order[i]])];
        i := i + 1;
      }
      txn := ImagesAre(dirty, order, pageCount, db.disk.pageCount, head, images);
    }

    /** Takes the next transaction id and turns the private pages into a transaction to log. */
    method Prepare(order: seq<PageId>) returns (id: U64, images: seq<Image>, ghost txn: Txn)
      requires Valid() && AllSealed(dirty, order) && Room64(db.nextTxn, db.wal.log, order)
      modifies db
      ensures db.Valid() && old(db.states) <= db.states && IsCommit(txn, dirty, order, pageCount, db.disk.pageCount)
      ensures id == old(db.nextTxn) && images == txn.images && txn.count == pageCount
      ensures db.s == old(db.s).(proc := Up(old(db.s.proc.mem).(nextTxn := id + 1, task := Logging(txn, id))))
    {
      hide Inv, SafePath, Safe, Step, Versions, IsTables, Handle.Valid, DiskManager.Valid, AllSealed, IsCommit;
      images, txn := BuildImages(order);
      id := db.nextTxn;
      db.nextTxn := db.nextTxn + 1;
      CommitLogStep(db.s, db.s.proc.mem, order, txn);
      db.Advance(Writer(CommitLog(order)), Prepared(db.s, db.s.proc.mem, txn));
    }

    /** Logs the sealed pages and publishes them; a failure of either poisons the database. */
    method CommitSealed(order: seq<PageId>, flush: FlushIo, room: map<PageId, Room>) returns (r: Result, ghost txn: Txn)
      requires Valid() && AllSealed(dirty, order) && Room64(db.nextTxn, db.wal.log, order)
      requires FlushCan(flush, dirty, order, pageCount, db.disk.pageCount, db.nextTxn, db.wal.log)
      modifies db, db.disk, db.wal
      ensures db.Valid() && old(db.states) <= db.states
      ensures IsCommit(txn, dirty, order, pageCount, old(db.disk.pageCount))
      ensures r == CommitAnswer(flush, old(db.cached).Keys, order, room)
      ensures r.Success? ==> db.cached.Keys == RoomAfter(old(db.cached).Keys, order, room)
      ensures r.Success? ==>
        && db.Task().Published? && !db.poisoned && db.s.base == Apply(old(db.s.base), txn) && db.s.shown == db.s.base
        && db.s.attempts == old(db.s.attempts) + [Attempt(txn, true)]
        && LogHas(old(db.s.log), txn, old(db.nextTxn), db.s.log)
      ensures r.Failure? ==>
        && db.poisoned && db.Task().Idle?
        && db.s.attempts == old(db.s.attempts) + [Attempt(txn, false)]
    {
      hide Inv, SafePath, Versions, IsTables, Handle.Valid, DiskManager.Valid, AllSealed, IsCommit, FlushCan, BatchOf,
        Damage, Apply, MakesRoom, RoomAfter, LogOutcome, DataImages, Ids, LogWith;
      WriterPages(db.s, db.s.proc.mem);
      var id, images;
      id, images, txn := Prepare(order);
      DataOfCommit(dirty, order, pageCount, old(db.disk.pageCount), txn);
      FlushMay(flush, txn, dirty, order, pageCount, old(db.disk.pageCount), id, db.wal.log);
      r := Log(txn, id, images, flush);
      if r.Failure? {
        db.poisoned := true;
        return;
      }
      r := Publish(txn, images, room);
      if r.Failure? {
        db.poisoned := true;
      }
    }

    ghost method Reject(k: PageId)
      requires Valid() && k in dirty && !Verified(Sealed(dirty[k]), k)
      modifies db`s, db`states, db`events
      ensures db.Valid() && old(db.states) <= db.states && db.s == WithTask(old(db.s), Idle)
    {
      hide Inv, SafePath, Safe, Step, Versions, IsTables, Handle.Valid, DiskManager.Valid, Sealed, Verified;
      WriterPages(db.s, db.s.proc.mem);
      WriterStep(db.s, db.s.proc.mem, CommitRejected(k));
      db.Advance(Writer(CommitRejected(k)), WithTask(db.s, Idle));
    }

    /** Seals, logs and publishes; the log lock is still held when it succeeds. */
    method CommitPages(flush: FlushIo, room: map<PageId, Room>) returns (r: Result, ghost txn: Txn)
      requires Valid()
      requires Room64(db.nextTxn, db.wal.log, InOrder(dirty))
      requires FlushCan(flush, dirty, InOrder(dirty), pageCount, db.disk.pageCount, db.nextTxn, db.wal.log)
      modifies this, db, db.disk, db.wal
      ensures db.Valid() && old(db.states) <= db.states
      ensures old(dirty) == map[] ==> r.Success? && db.s == WithTask(old(db.s), Idle)
      ensures IsMalformed(r) <==> !AllWellFormed(old(dirty))
      ensures IsMalformed(r) ==> FirstMalformed(old(dirty), r.failure.id)
      ensures old(dirty) != map[] && AllWellFormed(old(dirty)) ==>
        r == CommitAnswer(flush, old(db.cached).Keys, InOrder(old(dirty)), room)
      ensures AllWellFormed(old(dirty)) && flush.FlushDone? && NoneFails(old(dirty).Keys, room) ==> r.Success?
      ensures IsMalformed(r) ==> SameCommits(old(db.s), db.s) && db.Task().Idle? && !db.poisoned
      ensures old(dirty) != map[] && !IsMalformed(r) ==>
        IsCommitOf(txn, old(dirty), old(pageCount), old(db.disk.pageCount))
      ensures old(dirty) != map[] && r.Success? ==>
        && db.Task().Published? && !db.poisoned && db.s.base == Apply(old(db.s.base), txn) && db.s.shown == db.s.base
        && db.s.base == CommitSteps.Changed(old(db.s.base), old(dirty), old(pageCount))
        && db.s.attempts == old(db.s.attempts) + [Attempt(txn, true)]
        && LogHas(old(db.s.log), txn, old(db.nextTxn), db.s.log)
      ensures old(dirty) != map[] && r.Success? ==>
        db.cached.Keys == RoomAfter(old(db.cached).Keys, InOrder(old(dirty)), room)
      ensures r.Failure? && !IsMalformed(r) ==>
        db.poisoned && db.Task().Idle? && db.s.attempts == old(db.s.attempts) + [Attempt(txn, false)]
    {
      hide Inv, SafePath, Safe, Step, Versions, IsTables, Handle.Valid, DiskManager.Valid, Sealed, Verified, Apply,
        Ascending, Room64, FlushCan, AllSealed, IsCommit, IsCommitOf, MakesRoom, RoomAfter, CommitAnswer, NoneFails,
        CommitSteps.Changed, LogHas, FirstMalformed, AllWellFormed, ValidLog, Survives, BatchOf,
        SealedImages, DataImages, LogOutcome, ResetLeaves, InOrder;
      txn := Txn(pageCount, []);
      WriterPages(db.s, db.s.proc.mem);
      if dirty == map[] {
        NoPages();
        WriterStep(db.s, db.s.proc.mem, CommitNothing);
        db.Advance(Writer(CommitNothing), WithTask(db.s, Idle));
        return Success, txn;
      }
      ghost var was := dirty;
      var order;
      r, order := SealAll();
      if r.Failure? {
        MalformedPage(was, r.failure.id);
        Reject(r.failure.id);
        return;
      }
      WellFormedPages(was, dirty);
      SealedAlike(was, dirty, order);
      OneOrder(order, InOrder(was), was);
      AnswerIs(was, flush, db.cached.Keys, room);
      ghost var d := db.s.base;
      FlushAlike(flush, was, dirty, order, pageCount, db.disk.pageCount, db.nextTxn, db.wal.log);
      ghost var oldCount := db.disk.pageCount;
      r, txn := CommitSealed(order, flush, room);
      CommitAlike(txn, was, dirty, order, pageCount, oldCount);
      EffectIs(d, txn, was, order, pageCount);
    }

    /**
     * Makes every change durable and visible, or none of them. When it succeeds the transaction took
     * effect on the committed state, which is what readers now see; a malformed page rejects it with
     * nothing logged; any other failure leaves its fate open and the database poisoned. Read
     * transactions may be open: the commit is logged first and waits for them only then. A checkpoint
     * follows if the log has reached its limit; if that fails the commit still stands, and the database
     * is poisoned.
     */
    method Commit(flush: FlushIo, room: map<PageId, Room>, io: CheckpointIo) returns (r: Result, ghost txn: Txn)
      requires Valid()
      requires Room64(db.nextTxn, db.wal.log, InOrder(dirty))
      requires FlushCan(flush, dirty, InOrder(dirty), pageCount, db.disk.pageCount, db.nextTxn, db.wal.log)
      requires ResetMay(io.reset, dirty, pageCount, db.disk.pageCount, db.nextTxn, db.wal.log)
      modifies this, db, db.disk, db.wal
      ensures db.Valid() && old(db.states) <= db.states && db.Task().Idle?
      ensures old(dirty) == map[] ==> r.Success? && db.s == WithTask(old(db.s), Idle)
      ensures IsMalformed(r) <==> !AllWellFormed(old(dirty))
      ensures IsMalformed(r) ==> FirstMalformed(old(dirty), r.failure.id)
      ensures old(dirty) != map[] && AllWellFormed(old(dirty)) ==>
        r == CommitAnswer(flush, old(db.cached).Keys, InOrder(old(dirty)), room)
      ensures AllWellFormed(old(dirty)) && flush.FlushDone? && NoneFails(old(dirty).Keys, room) ==> r.Success?
      ensures IsMalformed(r) ==> SameCommits(old(db.s), db.s) && !db.poisoned
      ensures old(dirty) != map[] && !IsMalformed(r) ==>
        IsCommitOf(txn, old(dirty), old(pageCount), old(db.disk.pageCount))
      ensures old(dirty) != map[] && r.Success? ==>
        && db.s.base == Apply(old(db.s.base), txn) && db.s.shown == db.s.base
        && db.s.base == CommitSteps.Changed(old(db.s.base), old(dirty), old(pageCount))
        && db.s.attempts == old(db.s.attempts) + [Attempt(txn, true)]
        && AfterCommit(old(db.s.log), txn, old(db.nextTxn), db.auto,
                       EveryCallDone(RoomAfter(old(db.cached).Keys, InOrder(old(dirty)), room), io), db.s, db.poisoned)
      ensures r.Failure? && !IsMalformed(r) ==>
        db.poisoned && db.s.attempts == old(db.s.attempts) + [Attempt(txn, false)]
    {
      hide Inv, SafePath, Safe, Step, Versions, IsTables, Handle.Valid, DiskManager.Valid, Sealed, Verified, Apply,
        Ascending, Room64, FlushCan, IsCommitOf, LogHas, ResetMay, AfterCommit, CheckpointLeft, LogBytes, ValidLog,
        ResetLeaves, SameCommits, Survives, RoomAfter, MakesRoom, CommitAnswer, NoneFails, CommitSteps.Changed,
        EveryCallDone, Answer, AllWellFormed, FirstMalformed, InOrder;
      ghost var was, count, oldCount, id, log := dirty, pageCount, db.disk.pageCount, db.nextTxn, db.wal.log;
      var empty := dirty == map[];
      r, txn := CommitPages(flush, room);
      if r.Failure? || empty {
        return;
      }
      ghost var s := db.s;
      HealthyLog(s, s.proc.mem);
      CommittedLog(db.wal, log, txn, id, was, count, oldCount, io.reset);
      ghost var cached := db.cached.Keys;
      var checkpointed := db.MaybeAutoCheckpoint(io);
      AutoAfter(log, txn, id, db.auto, cached, io, s, db.s, db.poisoned, checkpointed);
    }
  }

  /** The log with a transaction's records appended durably. */
  function LogWith(l: Wal.Log, txn: Txn, id: U64): Wal.Log {
    Wal.Log(l.first, l.recs + BatchOf(txn, id), [], Quiet)
  }

  ghost predicate LogHas(l: Wal.Log, txn: Txn, id: nat, now: Wal.Log) {
    id < 0x1_0000_0000_0000_0000 && now == LogWith(l, txn, id)
  }

  /**
   * How a commit leaves log and poison flag: with its records durable in the log; or, once that is as long
   * as the limit, checkpointed; or, if that failed, poisoned.
   */
  ghost predicate AfterCommit(
    l: Wal.Log, txn: Txn, id: nat, auto: AutoCheckpoint, done: bool, s: State, poisoned: bool)
  {
    && id < 0x1_0000_0000_0000_0000 && ValidLog(LogWith(l, txn, id))
    && var now := LogWith(l, txn, id);
    if auto.Never? || |LogBytes(now.first, now.recs, [])| < auto.limit then !poisoned && s.log == now
    else if done then !poisoned && Covered(s.files, s.base, map[]) && s.log == Wal.Log(NextSeq(now), [], [], Quiet)
    else poisoned
  }

  /** What a failed reset after the commit may leave. */
  ghost predicate ResetMay(io: ResetIo, pages: Images, count: U64, oldCount: U64, id: nat, log: Wal.Log) {
    io.ResetFailed? && id < 0x1_0000_0000_0000_0000 ==>
      forall txn :: IsCommitOf(txn, pages, count, oldCount) ==>
        ResetLeaves(io.left, LogWith(log, txn, id), NextSeq(LogWith(log, txn, id)))
  }

  lemma CommittedLog(
    h: Handle, log: Wal.Log, txn: Txn, id: nat, pages: Images, count: U64, oldCount: U64, io: ResetIo)
    requires h.Valid() && LogHas(log, txn, id, h.log) && (!h.poisoned ==> h.queued == [])
    requires ResetMay(io, pages, count, oldCount, id, log) && IsCommitOf(txn, pages, count, oldCount)
    ensures io.ResetFailed? && !h.poisoned ==> ResetLeaves(io.left, h.log, h.nextSeq)
    ensures ValidLog(h.log) && (!h.poisoned ==> h.durableLen == |LogBytes(h.log.first, h.log.recs, [])|)
  {
    hide BatchOf, ResetLeaves, IsCommitOf, Survives, ValidLog, EncodeAll;
    HandleFacts(h);
    QuietLength(h);
  }

  lemma QuietLength(h: Handle)
    requires h.Valid() && h.log.phase.Quiet?
    ensures ValidLog(h.log) && (!h.poisoned ==> h.durableLen == |LogBytes(h.log.first, h.log.recs, [])|)
  {
    hide Survives, EncodeAll, WalLog.Open, Scan;
  }

  lemma AutoAfter(
    l: Wal.Log, txn: Txn, id: nat, auto: AutoCheckpoint, cached: set<PageId>, io: CheckpointIo, s: State, t: State,
    poisoned: bool, r: Result)
    requires LogHas(l, txn, id, s.log) && ValidLog(s.log) && s.proc.Up?
    requires var now := s.log;
      if auto.Never? || |LogBytes(now.first, now.recs, [])| < auto.limit then !poisoned && t == WithTask(s, Idle)
      else r == Answer(cached, false, io) && if r.Success? then !poisoned && CheckpointLeft(s, t) else poisoned
    ensures AfterCommit(l, txn, id, auto, EveryCallDone(cached, io), t, poisoned)
  {
    hide BatchOf, ValidLog, LogBytes, Covered;
  }

  /** A page not private yet is dirty in the cache; or what has to go for it is written, and it is read. */
  ghost predicate Fetches(id: PageId, cached: Images, victim: PageId, io: WriteIo, read: ReadIo) {
    id in cached || ((victim in cached ==> io.WriteDone?) && read.ReadDone?)
  }

  function NotFetched(read: ReadIo): Failure { if read.NoFrame? then OutOfFrames else DiskFailed(Io) }

  /** The lowest page that does not verify once sealed. */
  ghost predicate FirstMalformed(pages: Images, k: PageId) {
    && k in pages && !Verified(Sealed(pages[k]), k)
    && forall j :: j in pages && j < k ==> Verified(Sealed(pages[j]), j)
  }

  ghost predicate AllWellFormed(pages: Images) {
    forall k :: k in pages ==> Verified(Sealed(pages[k]), k)
  }

  lemma MalformedPage(pages: Images, k: PageId)
    requires FirstMalformed(pages, k)
    ensures k in pages && !Verified(Sealed(Sealed(pages[k])), k) && !AllWellFormed(pages)
  {
    hide Verified, Sealed;
    SealIdempotent(pages[k]);
  }

  lemma WellFormedPages(was: Images, now: Images)
    requires now.Keys == was.Keys && forall k :: k in now ==> now[k] == Sealed(was[k]) && Verified(now[k], k)
    ensures AllWellFormed(was)
  {
    hide Verified, Sealed;
  }

  lemma EffectIs(d: Db, txn: Txn, pages: Images, order: seq<PageId>, count: U64)
    requires Ascending(order, pages) && IsCommit(txn, pages, order, count, d.count)
    ensures Apply(d, txn) == CommitSteps.Changed(d, pages, count)
  {
    hide CommitSteps.Changed, Apply, CommitOf;
    CommitSteps.CommitOfEffect(d, pages, order, count);
  }

  lemma NoPages()
    ensures AllWellFormed(map[])
  {
  }

  /** How a commit of well-formed pages turns out: the log first, then room for each page in order. */
  ghost function CommitAnswer(
    flush: FlushIo, cached: set<PageId>, order: seq<PageId>, room: map<PageId, Room>): Result
  {
    if !flush.FlushDone? then Failure(LogFailed(IoFailed))
    else if !MakesRoom(cached, order, room) then Failure(DiskFailed(Io))
    else Success
  }

  ghost predicate NoneFails(pages: set<PageId>, room: map<PageId, Room>) {
    forall k :: k in pages && k in room ==> room[k].io.WriteDone?
  }

  /** It is success if nothing fails. */
  lemma AnswerIs(pages: Images, flush: FlushIo, cached: set<PageId>, room: map<PageId, Room>)
    ensures var r := CommitAnswer(flush, cached, InOrder(pages), room);
      !IsMalformed(r) && (flush.FlushDone? && NoneFails(pages.Keys, room) ==> r.Success?)
  {
    hide InOrder;
    if NoneFails(pages.Keys, room) {
      RoomIfNoneFails(cached, InOrder(pages), room);
    }
  }

  /** The pages in ascending order of their ids. */
  ghost function InOrder(pages: Images): (order: seq<PageId>)
    ensures Ascending(order, pages)
  {
    OrderExists(pages);
    var order :| Ascending(order, pages);
    order
  }

  lemma {:induction false} OrderExists(pages: Images)
    ensures exists order :: Ascending(order, pages)
    decreases |pages|
  {
    if pages == map[] {
      assert Ascending([], pages);
    } else {
      hide Ascending;
      var last := Greatest(pages.Keys);
      OrderExists(pages - {last});
      var order :| Ascending(order, pages - {last});
      LastAscends(order, pages, last);
    }
  }

  lemma LastAscends(order: seq<PageId>, pages: Images, last: PageId)
    requires Ascending(order, pages - {last}) && last in pages && forall k :: k in pages ==> k <= last
    ensures Ascending(order + [last], pages)
  {
    forall i | 0 <= i < |order|
      ensures order[i] < last
    {
      assert order[i] in order;
      assert order[i] in pages - {last};
    }
    forall k: PageId
      ensures k in pages <==> k in order + [last]
    {
      assert k in pages <==> k in pages - {last} || k == last;
    }
  }

  lemma {:induction false} Greatest(s: set<PageId>) returns (k: PageId)
    requires s != {}
    ensures k in s && forall j :: j in s ==> j <= k
    decreases |s|
  {
    var first :| first in s;
    k := first;
    if s != {first} {
      var rest := s - {first};
      assert s == rest + {first};
      var other := Greatest(rest);
      k := if other > first then other else first;
    }
  }

  /** A page order determines itself. */
  lemma {:induction false} OneOrder(a: seq<PageId>, b: seq<PageId>, pages: Images)
    requires Ascending(a, pages) && Ascending(b, pages)
    ensures a == b
    decreases |a|
  {
    hide Ascending;
    NoOrder(a, pages);
    NoOrder(b, pages);
    if pages != map[] {
      LeastFirst(a, b, pages);
      LeastFirst(b, a, pages);
      RestAscends(a, pages);
      RestAscends(b, pages);
      OneOrder(a[1..], b[1..], pages - {a[0]});
      assert a == [a[0]] + a[1..] && b == [b[0]] + b[1..];
    }
  }

  lemma NoOrder(a: seq<PageId>, pages: Images)
    requires Ascending(a, pages)
    ensures a == [] <==> pages == map[]
  {
    if a == [] {
      assert forall k: PageId :: k in pages ==> k in a;
    } else {
      assert a[0] in a;
    }
  }

  lemma LeastFirst(a: seq<PageId>, b: seq<PageId>, pages: Images)
    requires Ascending(a, pages) && Ascending(b, pages) && a != [] && b != []
    ensures a[0] <= b[0]
  {
    assert b[0] in b;
    assert b[0] in a;
  }

  lemma RestAscends(a: seq<PageId>, pages: Images)
    requires Ascending(a, pages) && a != []
    ensures Ascending(a[1..], pages - {a[0]})
  {
    forall k: PageId
      ensures k in pages - {a[0]} <==> k in a[1..]
    {
      if k in a && k != a[0] {
        var i :| 0 <= i < |a| && a[i] == k;
        assert a[1..][i - 1] == k;
      }
      if k in a[1..] {
        var i :| 0 <= i < |a[1..]| && a[1..][i] == k;
        assert a[i + 1] == k && k in a;
      }
    }
  }

  /** The images that go into the cache are those of the pages, in order. */
  lemma DataOfCommit(pages: Images, order: seq<PageId>, count: U64, oldCount: U64, txn: Txn)
    requires AllSealed(pages, order) && IsCommit(txn, pages, order, count, oldCount) && 0 !in pages
    ensures Ids(DataImages(txn.images)) == order
  {
    hide DataImages, Sealed, Verified, FileHeader.Encode;
    var images := SealedImages(pages, order);
    forall i | 0 <= i < |images|
      ensures images[i].id != 0
    {
      assert order[i] in order;
    }
    AllData(images);
    if count > oldCount {
      var header := Image(0, FileHeader.Encode(count));
      DataImagesFront([header] + images);
      assert ([header] + images)[1..] == images && One(header) + images == images;
    } else {
      assert txn.images == images;
    }
  }

  lemma {:induction false} AllData(images: seq<Image>)
    requires forall i :: 0 <= i < |images| ==> images[i].id != 0
    ensures DataImages(images) == images
    decreases |images|
  {
    if images != [] {
      AllData(images[..|images| - 1]);
    }
  }

  predicate IsMalformed(r: Result) { r.Failure? && r.failure.Malformed? }

  /** Sealed, verified pages and their ids in order. */
  ghost predicate AllSealed(pages: Images, order: seq<PageId>) {
    && pages != map[] && Ascending(order, pages)
    && forall k :: k in pages ==> Sealed(pages[k]) == pages[k] && Verified(pages[k], k)
  }

  ghost predicate IsCommit(txn: Txn, pages: Images, order: seq<PageId>, count: U64, oldCount: U64) {
    (forall k :: k in order ==> k in pages) && txn == CommitOf(pages, order, count, oldCount)
  }

  ghost predicate IsCommitOf(txn: Txn, pages: Images, count: U64, oldCount: U64) {
    IsCommit(txn, pages, InOrder(pages), count, oldCount)
  }

  /** Transaction ids and sequence numbers have not run out. */
  ghost predicate Room64(nextTxn: nat, log: Wal.Log, order: seq<PageId>) {
    nextTxn < 0x1_0000_0000_0000_0000 && NextSeq(log) + |order| + 2 < SEQ_LIMIT
  }

  /** What a failed write leaves of the batch: whole records from its front, then bytes that are not the next one. */
  ghost predicate FlushCan(
    flush: FlushIo, pages: Images, order: seq<PageId>, count: U64, oldCount: U64, id: nat, log: Wal.Log)
  {
    flush.WriteFailed? && id < 0x1_0000_0000_0000_0000 ==>
      forall txn :: IsCommit(txn, pages, order, count, oldCount) ==> Damage(flush.left, BatchOf(txn, id), NextSeq(log))
  }

  lemma FlushMay(
    flush: FlushIo, txn: Txn, pages: Images, order: seq<PageId>, count: U64, oldCount: U64, id: U64, log: Wal.Log)
    requires FlushCan(flush, pages, order, count, oldCount, id, log) && IsCommit(txn, pages, order, count, oldCount)
    ensures flush.WriteFailed? ==> Damage(flush.left, BatchOf(txn, id), NextSeq(log))
  {
    hide Damage, BatchOf, IsCommit;
  }

  /** Sealing first makes no difference to what is logged. */
  lemma SealedAlike(was: Images, now: Images, order: seq<PageId>)
    requires now.Keys == was.Keys && now != map[] && Ascending(order, now)
    requires forall k :: k in now ==> now[k] == Sealed(was[k]) && Verified(now[k], k)
    ensures AllSealed(now, order) && Ascending(order, was) && SealedImages(now, order) == SealedImages(was, order)
  {
    hide Sealed, Verified;
    forall k | k in now
      ensures Sealed(now[k]) == now[k]
    {
      SealIdempotent(was[k]);
    }
  }

  lemma CommitAlike(txn: Txn, was: Images, now: Images, order: seq<PageId>, count: U64, oldCount: U64)
    requires now.Keys == was.Keys && Ascending(order, was) && SealedImages(now, order) == SealedImages(was, order)
    ensures IsCommit(txn, now, order, count, oldCount) <==> IsCommit(txn, was, order, count, oldCount)
    ensures IsCommit(txn, now, order, count, oldCount) ==> IsCommitOf(txn, was, count, oldCount)
  {
    hide Sealed, FileHeader.Encode, SealedImages, InOrder;
    OneOrder(order, InOrder(was), was);
  }

  lemma FlushAlike(
    flush: FlushIo, was: Images, now: Images, order: seq<PageId>, count: U64, oldCount: U64, id: nat, log: Wal.Log)
    requires FlushCan(flush, was, order, count, oldCount, id, log)
    requires now.Keys == was.Keys && Ascending(order, was) && SealedImages(now, order) == SealedImages(was, order)
    ensures FlushCan(flush, now, order, count, oldCount, id, log)
  {
    hide Damage, BatchOf, IsCommit, SealedImages;
    forall txn
      ensures IsCommit(txn, now, order, count, oldCount) ==> IsCommit(txn, was, order, count, oldCount)
    {
      CommitAlike(txn, was, now, order, count, oldCount);
    }
  }

  function Prepared(s: State, m: Memory, txn: Txn): State
  {
    var id := if m.nextTxn < 0x1_0000_0000_0000_0000 then m.nextTxn else 0;
    s.(proc := Up(m.(nextTxn := m.nextTxn + 1, task := Logging(txn, id))))
  }

  lemma SealedOrder(pages: Images, order: seq<PageId>)
    requires AllSealed(pages, order)
    ensures forall i :: 0 <= i < |order| ==> order[i] in pages
    ensures forall i :: 0 <= i < |order| ==> pages[order[i]] == Sealed(pages[order[i]])
  {
    hide Sealed, Verified;
  }

  lemma ImagesAre(
    pages: Images, order: seq<PageId>, count: U64, oldCount: U64, head: seq<Image>, images: seq<Image>)
    returns (txn: Txn)
    requires forall i :: 0 <= i < |order| ==> order[i] in pages
    requires forall i :: 0 <= i < |order| ==> pages[order[i]] == Sealed(pages[order[i]])
    requires head == (if count > oldCount then [Image(0, FileHeader.Encode(count))] else [])
    requires |images| == |head| + |order|
    requires head <= images && forall j :: 0 <= j < |order| ==> images[|head| + j] == Image(order[j], pages[order[j]])
    ensures txn.images == images && txn.count == count && IsCommit(txn, pages, order, count, oldCount)
  {
    hide Sealed, FileHeader.Encode;
    txn := CommitOf(pages, order, count, oldCount);
    assert images[|head|..] == SealedImages(pages, order);
    assert images == head + images[|head|..];
  }

  lemma CommitLogStep(s: State, m: Memory, order: seq<PageId>, txn: Txn)
    requires Inv(s) && s.proc == Up(m) && m.task.Writing? && AllSealed(m.task.pages, order)
    requires Room64(m.nextTxn, s.log, order)
    requires IsCommit(txn, m.task.pages, order, m.task.count, m.pageCount)
    ensures Safe(s, Writer(CommitLog(order))) && Step(s, Writer(CommitLog(order)), Prepared(s, m, txn))
  {
    hide DiskInv, HistoryInv, UpInv, ValidLog, Sealed, Verified, CommitOf, Safe, Step, Fetch, NewPage;
    assert WriteEnabled(s, m, CommitLog(order));
    WriterStep(s, m, CommitLog(order));
  }

  /** All pages but those of `todo` are sealed, verified and listed in page order. */
  ghost predicate SealedBut(was: Images, now: Images, todo: set<PageId>, order: seq<PageId>) {
    && now.Keys == was.Keys && todo <= now.Keys
    && (forall k :: k in todo ==> now[k] == was[k])
    && (forall k :: k in now && k !in todo ==> now[k] == Sealed(was[k]) && Verified(now[k], k))
    && (forall k :: k in now && k !in todo <==> k in order)
    && (forall i, j :: 0 <= i < j < |order| ==> order[i] < order[j])
    && (forall i, k :: 0 <= i < |order| && k in todo ==> order[i] < k)
  }

  lemma NoneSealed(pages: Images)
    ensures SealedBut(pages, pages, pages.Keys, [])
  {
  }

  lemma SealedOneMore(was: Images, now: Images, todo: set<PageId>, order: seq<PageId>, k: PageId)
    requires SealedBut(was, now, todo, order) && k in todo && forall j :: j in todo ==> k <= j
    ensures k in now && now[k] == was[k] && k in was
    ensures Verified(Sealed(now[k]), k) ==> SealedBut(was, now[k := Sealed(now[k])], todo - {k}, order + [k])
  {
    hide Sealed, Verified;
  }

  lemma SealedBelow(was: Images, now: Images, todo: set<PageId>, order: seq<PageId>, k: PageId)
    requires SealedBut(was, now, todo, order) && k in todo && forall j :: j in todo ==> k <= j
    ensures k in was && !Verified(Sealed(was[k]), k) ==> FirstMalformed(was, k)
  {
    hide Sealed, Verified;
    forall j | j in was && j < k
      ensures Verified(Sealed(was[j]), j)
    {
      assert j in now && j !in todo;
    }
  }

  lemma SealedEvery(was: Images, now: Images, order: seq<PageId>)
    requires SealedBut(was, now, {}, order)
    ensures Ascending(order, now)
    ensures forall k :: k in now ==> k in was && now[k] == Sealed(was[k]) && Verified(now[k], k)
  {
    hide Sealed, Verified;
  }

  /** The page a publish pushes out to make room, and how writing it back goes. */
  datatype Room = Room(victim: PageId, io: WriteIo)

  function RoomFor(room: map<PageId, Room>, k: PageId): Room { if k in room then room[k] else Room(0, WriteDone) }

  function Ids(images: seq<Image>): seq<PageId> {
    seq(|images|, i requires 0 <= i < |images| => images[i].id)
  }

  /**
   * Starting from these dirty pages, there is room for each of `ids` in turn: it is dirty already, or nothing
   * dirty has to go for it, or what has to go is written back.
   */
  ghost predicate MakesRoom(cached: set<PageId>, ids: seq<PageId>, room: map<PageId, Room>)
    decreases |ids|
  {
    if ids == [] then true
    else
      var k := ids[0];
      var need := RoomFor(room, k);
      if k in cached || need.victim !in cached then MakesRoom(cached + {k}, ids[1..], room)
      else need.io.WriteDone? && MakesRoom(cached - {need.victim} + {k}, ids[1..], room)
  }

  /** The pages then dirty. */
  ghost function RoomAfter(cached: set<PageId>, ids: seq<PageId>, room: map<PageId, Room>): set<PageId>
    decreases |ids|
  {
    if ids == [] then cached
    else
      var k := ids[0];
      var need := RoomFor(room, k);
      if k in cached || need.victim !in cached then RoomAfter(cached + {k}, ids[1..], room)
      else RoomAfter(cached - {need.victim} + {k}, ids[1..], room)
  }

  /** There always is if no write-back fails. */
  lemma {:induction false} RoomIfNoneFails(cached: set<PageId>, ids: seq<PageId>, room: map<PageId, Room>)
    requires forall k :: k in ids && k in room ==> room[k].io.WriteDone?
    ensures MakesRoom(cached, ids, room)
    decreases |ids|
  {
    if ids != [] {
      var k := ids[0];
      assert k in ids;
      RoomIfNoneFails(cached + {k}, ids[1..], room);
      RoomIfNoneFails(cached - {RoomFor(room, k).victim} + {k}, ids[1..], room);
    }
  }

  lemma OneWriteFails(cached: set<PageId>, ids: seq<PageId>, room: map<PageId, Room>)
    requires !MakesRoom(cached, ids, room)
    ensures exists k :: k in room && room[k].io.WriteFailed?
  {
    hide MakesRoom;
    if forall k :: k in room ==> room[k].io.WriteDone? {
      RoomIfNoneFails(cached, ids, room);
    }
  }

  lemma RoomNext(cached: set<PageId>, image: Image, rest: seq<Image>, room: map<PageId, Room>)
    ensures var k, need := image.id, RoomFor(room, image.id);
      MakesRoom(cached, Ids(One(image) + rest), room) <==>
        if k == 0 then MakesRoom(cached, Ids(rest), room)
        else if k in cached || need.victim !in cached then MakesRoom(cached + {k}, Ids(rest), room)
        else need.io.WriteDone? && MakesRoom(cached - {need.victim} + {k}, Ids(rest), room)
    ensures var k, need := image.id, RoomFor(room, image.id);
      RoomAfter(cached, Ids(One(image) + rest), room)
        == if k == 0 then RoomAfter(cached, Ids(rest), room)
           else if k in cached || need.victim !in cached then RoomAfter(cached + {k}, Ids(rest), room)
           else RoomAfter(cached - {need.victim} + {k}, Ids(rest), room)
  {
    var ids := Ids(One(image) + rest);
    if image.id == 0 {
      assert One(image) + rest == rest;
    } else {
      assert ids[0] == image.id && ids[1..] == Ids(rest);
    }
  }

  lemma KeysAfter(cached: Images, victim: PageId, image: Image)
    ensures cached[image.id := image.page].Keys == cached.Keys + {image.id}
    ensures (cached - {victim})[image.id := image.page].Keys == cached.Keys - {victim} + {image.id}
  {
  }

  lemma RoomForNone(cached: set<PageId>, images: seq<Image>, room: map<PageId, Room>)
    requires images == []
    ensures MakesRoom(cached, Ids(images), room) && RoomAfter(cached, Ids(images), room) == cached
  {
  }

  function Acked(attempts: seq<Attempt>): seq<Attempt> {
    if attempts == [] then [] else attempts[|attempts| - 1 := attempts[|attempts| - 1].(acked := true)]
  }

  function Exclusively(s: State, m: Memory): State
    requires m.task.Logged?
  {
    s.(proc := Up(m.(pageCount := m.task.txn.count, task := Publishing(m.task.txn, DataImages(m.task.txn.images)))))
  }

  lemma PublishStarts(s: State, m: Memory)
    requires Inv(s) && s.proc == Up(m) && m.task.Logged? && m.readers == map[]
    ensures m.pageCount <= m.task.txn.count
    ensures Safe(s, Committing(PublishStart)) && Step(s, Committing(PublishStart), Exclusively(s, m))
  {
    hide DiskInv, HistoryInv, ValidLog, ValidDb, DirtyInv, ReaderInv, IdInv, Shows, PhaseInv, TodoInv, Apply,
      DataImages, Step, Safe;
    CommitStep(s, m, PublishStart);
  }

  lemma PublishEnds(s: State, m: Memory)
    requires Inv(s) && s.proc == Up(m) && m.task.Publishing? && m.task.todo == []
    ensures Safe(s, Committing(PublishEnd)) && Step(s, Committing(PublishEnd), DoPublishEnd(s))
  {
    hide Inv, Step, Safe;
    CommitStep(s, m, PublishEnd);
  }

  lemma NoImages(images: seq<Image>)
    requires images == []
    ensures DataImages(images) == []
  {
  }

  /** An image as far as it goes into the page cache. */
  function One(image: Image): seq<Image> { if image.id == 0 then [] else [image] }

  lemma DataImagesBack(images: seq<Image>)
    requires images != []
    ensures DataImages(images) == DataImages(images[..|images| - 1]) + One(images[|images| - 1])
  {
  }

  lemma {:induction false} DataImagesFront(images: seq<Image>)
    requires images != []
    ensures DataImages(images) == One(images[0]) + DataImages(images[1..])
    decreases |images|
  {
    var n := |images| - 1;
    DataImagesBack(images);
    if n == 0 {
      assert images[..n] == [] && images[1..] == [];
      assert DataImages([]) == [];
    } else {
      hide DataImages, One;
      var middle := images[1..n];
      DataImagesFront(images[..n]);
      assert images[..n][1..] == middle;
      DataImagesBack(images[1..]);
      assert images[1..][..n - 1] == middle;
      Regrouped(One(images[0]), DataImages(middle), One(images[n]));
    }
  }

  lemma Regrouped(a: seq<Image>, b: seq<Image>, c: seq<Image>)
    ensures (a + b) + c == a + (b + c)
  {
  }

  /** What logging a transaction leaves behind: it is durable, or its fate is open and the log unusable. */
  ghost function LogOutcome(s: State, txn: Txn, id: U64, flush: FlushIo): State
    requires s.proc.Up?
  {
    match flush
    case WriteFailed(left) => PoisonLog(DoLogWrite(s, txn, id, left))
    case SyncFailed => PoisonLog(DoLogWrite(s, txn, id, Batched(s, txn, id)))
    case FlushDone =>
      s.(log := Wal.Log(s.log.first, s.log.recs + BatchOf(txn, id), [], Quiet), base := Apply(s.base, txn),
         doubt := NoDoubt, replay := Untouched, attempts := s.attempts + [Attempt(txn, false)],
         applied := s.applied + [true], proc := Up(s.proc.mem.(task := Logged(txn))))
  }

  ghost function Batched(s: State, txn: Txn, id: U64): seq<Byte> {
    if NextSeq(s.log) + |BatchOf(txn, id)| <= SEQ_LIMIT then EncodeAll(BatchOf(txn, id), NextSeq(s.log)) else []
  }

  lemma SyncIs(s: State, m: Memory)
    requires s.proc == Up(m) && m.task.Written? && s.doubt == Doubt(m.task.txn, m.task.id)
    ensures DoLogSync(s, m) == s.(log := Wal.Log(s.log.first, s.log.recs + BatchOf(m.task.txn, m.task.id), [], Quiet),
      base := Apply(s.base, m.task.txn), doubt := NoDoubt, replay := Untouched, applied := s.applied + [true],
      proc := Up(m.(task := Logged(m.task.txn))))
  {
    hide BatchOf, Apply;
  }

  lemma LoggingFacts(s: State, m: Memory)
    requires Inv(s) && s.proc == Up(m) && m.task.Logging?
    ensures !m.poisoned && !m.logPoisoned && s.log.phase.Quiet? && s.base == s.shown && s.doubt.NoDoubt?
    ensures NextSeq(s.log) + |m.task.txn.images| + 1 < SEQ_LIMIT
    ensures NextSeq(s.log) + |BatchOf(m.task.txn, m.task.id)| < SEQ_LIMIT
    ensures EncodeBatch(s, m) == Batched(s, m.task.txn, m.task.id)
    ensures Batched(s, m.task.txn, m.task.id) == EncodeAll(BatchOf(m.task.txn, m.task.id), NextSeq(s.log))
  {
    hide DiskInv, HistoryInv, ValidLog, ValidDb, DirtyInv, ReaderInv, IdInv, Shows, CountInv, ValidTxn, EncodeAll, Txns;
    CommitSteps.BatchLength(m.task.txn, m.task.id);
  }

  lemma BatchIs(txn: Txn, id: U64)
    ensures BatchOf(txn, id) == Records(Batch(id, txn.images, true)) && BatchOf(txn, id) != []
  {
  }

  lemma WriterPages(s: State, m: Memory)
    requires Inv(s) && s.proc == Up(m) && m.task.Writing?
    ensures m.pageCount <= m.task.count && (forall k :: k in m.task.pages ==> 0 < k < m.task.count)
    ensures !m.logPoisoned && !m.poisoned && s.base == s.shown
    ensures s.half.Whole? && s.log.phase.Quiet? && m.pageCount == s.base.count && |s.files| > 0
  {
    hide DiskInv, HistoryInv, ValidLog, ValidDb, DirtyInv, ReaderInv, IdInv, Shows;
  }

  // ----- read transactions

  datatype BegunRead = Reading(txn: ReadTxn) | NoReading(failure: Failure)

  /** Checks the flag, then takes the publish lock shared. */
  method BeginRead(db: Database, t: Tid) returns (r: BegunRead)
    requires db.Valid() && t !in db.s.proc.mem.readers && !db.Task().Publishing?
    modifies db
    ensures db.Valid() && old(db.states) <= db.states && SameCommits(old(db.s), db.s)
    ensures r.NoReading? <==> old(db.poisoned)
    ensures r.Reading? ==> fresh(r.txn) && r.txn.db == db && r.txn.tid == t && r.txn.Valid()
    ensures r.Reading? ==> r.txn.Snapshot() == db.s.shown
    ensures r.NoReading? ==> r.failure == IsPoisoned && db.s == old(db.s)
    ensures r.Reading? ==> var m := old(db.s.proc.mem);
      db.s == old(db.s).(
        proc := Up(m.(readersChecked := m.readersChecked - {t}, readers := m.readers[t := db.s.shown])))
  {
    hide Inv, SafePath, Safe, Step, Versions, IsTables, Handle.Valid;
    if db.poisoned {
      return NoReading(IsPoisoned);
    }
    CacheStep(db.s, db.s.proc.mem, ReaderCheck(t));
    db.Advance(Cache(ReaderCheck(t)), DoCache(db.s, db.s.proc.mem, ReaderCheck(t)));
    CacheStep(db.s, db.s.proc.mem, ReaderLock(t));
    db.Advance(Cache(ReaderLock(t)), DoCache(db.s, db.s.proc.mem, ReaderLock(t)));
    var txn := new ReadTxn(db, t);
    return Reading(txn);
  }

  class ReadTxn {
    const db: Database
    const tid: Tid

    ghost predicate Valid()
      reads db, db.disk, db.wal, db.tables
    {
      db.Valid() && tid in db.s.proc.mem.readers
    }

    /** The committed state as of the start of this transaction. */
    ghost function Snapshot(): Db
      requires Valid()
      reads db, db.disk, db.wal, db.tables
    {
      db.s.proc.mem.readers[tid]
    }

    constructor (db: Database, tid: Tid)
      requires db.Valid() && tid in db.s.proc.mem.readers
      ensures Valid() && this.db == db && this.tid == tid
    {
      hide Inv, SafePath, Versions, IsTables, Handle.Valid, DiskManager.Valid;
      this.db, this.tid := db, tid;
    }

    /**
     * The page count and the page of the snapshot, unless a commit failed partway through publishing; then
     * what that commit installed shows through, and past the snapshot's end whatever stands in cache or file.
     */
    method ReadPage(id: PageId, victim: PageId, io: WriteIo, read: ReadIo) returns (r: Result, page: Page)
      requires Valid()
      modifies db, db.disk
      ensures Valid() && old(db.states) <= db.states && OnlyCache(old(db.s), db.s) && Snapshot() == old(Snapshot())
      ensures r == Failure(OutOfRange) <==> id == 0 || id >= db.disk.pageCount
      ensures id < Snapshot().count && r.Success? ==> id in Seen(db.s)
      ensures r.Success? ==> Fetch(db.s, id) == Read(page) && (id in Seen(db.s) ==> page == Seen(db.s)[id])
      ensures r.Success? && id !in Seen(db.s) ==> Verified(page, id) && Stands(db.s, db.s.proc.mem, id, page)
      ensures 0 < id < db.disk.pageCount ==>
        r == if !Fetches(id, old(db.cached), victim, io, read) then Failure(NotFetched(read))
             else match Fetch(db.s, id)
                  case Read(_) => Success
                  case Failed(e) => Failure(DiskFailed(Unreadable(e)))
      ensures 0 < id < Snapshot().count ==> Fetch(db.s, id).Read?
      ensures db.s.half.Whole? ==> db.disk.pageCount == Snapshot().count && Seen(db.s) == Snapshot().pages
    {
      hide Inv, SafePath, Versions, IsTables, Handle.Valid, Fetch, Installed;
      page := Zeros(4096);
      ReaderView(db.s, db.s.proc.mem, tid);
      if id == 0 || id >= db.disk.pageCount {
        return Failure(OutOfRange), page;
      }
      r, page := db.FetchPage(id, victim, io, read);
      ReaderView(db.s, db.s.proc.mem, tid);
      ReadIs(db.s, db.s.proc.mem, id);
    }

    method Drop()
      requires Valid()
      modifies db
      ensures db.Valid() && old(db.states) <= db.states && SameCommits(old(db.s), db.s) && tid !in db.s.proc.mem.readers
      ensures var m := old(db.s.proc.mem); db.s == old(db.s).(proc := Up(m.(readers := m.readers - {tid})))
    {
      hide Inv, SafePath, Safe, Step, Versions, IsTables, Handle.Valid;
      CacheStep(db.s, db.s.proc.mem, ReaderDrop(tid));
      db.Advance(Cache(ReaderDrop(tid)), DoCache(db.s, db.s.proc.mem, ReaderDrop(tid)));
    }
  }

  lemma ReaderView(s: State, m: Memory, t: Tid)
    requires Inv(s) && s.proc == Up(m) && t in m.readers
    ensures !m.task.Publishing? && m.readers[t] == s.shown && m.pageCount >= s.shown.count
    ensures s.half.Whole? ==> m.pageCount == m.readers[t].count && Seen(s) == m.readers[t].pages
  {
    hide DiskInv, HistoryInv, ValidLog, ValidDb, DirtyInv, IdInv, Shows, PhaseInv, TaskInv, Installed, ShowsPart,
      DataImages;
    if s.half.Half? {
      ApplyGrows(s.shown, s.half.txn);
    }
  }

  /** What a fetch under the publish lock returns, before and past the end of what is shown. */
  lemma ReadIs(s: State, m: Memory, id: PageId)
    requires Inv(s) && s.proc == Up(m) && |s.files| > 0 && !m.task.Publishing? && 0 < id < m.pageCount
    ensures id < s.shown.count ==> id in Seen(s)
    ensures id in Seen(s) ==> Fetch(s, id) == Read(Seen(s)[id])
    ensures forall p :: Fetch(s, id) == Read(p) ==> Verified(p, id) && Stands(s, m, id, p)
  {
    hide Inv, Installed, Verified;
    if id < s.shown.count {
      FetchSeen(s, m, id);
    } else {
      PastShown(s, m);
      if id in Seen(s) {
        SeenFetch(s, m, id);
      }
    }
    forall p | Fetch(s, id) == Read(p)
      ensures Verified(p, id) && Stands(s, m, id, p)
    {
      FetchStands(s, m, id, p);
    }
  }

  lemma PastShown(s: State, m: Memory)
    requires Inv(s) && s.proc == Up(m) && !m.task.Publishing? && m.pageCount > s.shown.count
    ensures s.half.Half?
  {
    hide DiskInv, HistoryInv, ValidLog, ValidDb, DirtyInv, IdInv, Shows, PhaseInv, TaskInv, HalfInv, ReaderInv;
  }

  lemma FetchStands(s: State, m: Memory, id: PageId, p: Page)
    requires Inv(s) && s.proc == Up(m) && |s.files| > 0 && Fetch(s, id) == Read(p)
    ensures Verified(p, id) && Stands(s, m, id, p)
  {
    hide Inv, Verify, Holds;
    var f := Last(s.files);
    if id in m.dirty {
      DirtyIsVerified(s, m, id);
    } else {
      HoldsUnique(f, id, PageAt(f, id));
    }
  }

  // ----- crashes while the database is in use

  /**
   * Whatever sequence of calls made this run, cut the power after any single effect of any of them:
   * reopening succeeds and yields the acknowledged commits and, whole or not at all, the one in doubt.
   */
  lemma CrashDuringUse(ss: seq<State>, es: seq<Event>, i: nat, c: File, w: seq<Byte>)
    requires SafePath(ss, es) && ss[0] == Initial() && i < |ss|
    requires |ss[i].files| > 0 && ValidLog(ss[i].log) && Torn(c, ss[i].files) && Survives(w, ss[i].log)
    requires Safe(ss[i], World(PowerLoss(c, w)))
    ensures Recovers(ss[i], c, w)
  {
    hide Initial, Step, Safe, WalLog.Open, Torn, Survives, ValidLog, Recovers;
    var ss', es' := ss[..i + 1], es[..i];
    assert SafePath(ss', es') by {
      forall j | 0 <= j < |es'|
        ensures Step(ss'[j], es'[j], ss'[j + 1]) && Safe(ss'[j], es'[j])
      {
        assert ss'[j] == ss[j] && es'[j] == es[j] && ss'[j + 1] == ss[j + 1];
      }
    }
    PathIsRun(ss', es');
    CrashAtomicity(ss', es', c, w);
  }
}
