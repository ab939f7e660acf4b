/** Write transactions and commits keep the engine's invariant. */
module CommitSteps {
  import opened Bytes
  import opened Pages
  import opened WalRecord
  import opened WalLog
  import opened Wal
  import opened DataFile
  import opened Recovery
  import opened Fsync
  import opened Store
  import opened Engine
  import opened DiskInvariant
  import opened EngineInvariant
  import opened OpenSteps
  import opened CacheSteps
  import opened CheckpointSteps
  import FileHeader

  // ----- private pages

  lemma BeginKeeps(s: State, m: Memory)
    requires Inv(s) && s.proc == Up(m) && m.task.Idle? && !m.poisoned
    ensures Inv(WithTask(s, Writing(map[], m.pageCount)))
  {
    hide DiskInv, HistoryInv, ValidLog, ValidDb, DirtyInv, IdInv, ReaderInv, Redo, Shows;
    RetaskKeeps(s, m, m.(task := Writing(map[], m.pageCount)));
  }

  lemma PrivateKeeps(s: State, m: Memory, task: Task)
    requires Inv(s) && s.proc == Up(m) && m.task.Writing?
    requires task.Idle? || (task.Writing? && WriterInv(s, task.pages, task.count))
    ensures Inv(WithTask(s, task))
  {
    hide DiskInv, HistoryInv, ValidLog, ValidDb, DirtyInv, IdInv, ReaderInv, Redo, Shows, CountInv, WriterInv;
    RetaskKeeps(s, m, m.(task := task));
  }

  // ----- building the commit

  lemma CommitImages(pages: Images, order: seq<PageId>, count: U64, oldCount: U64, i: nat)
    requires forall k :: k in order ==> k in pages
    requires i < |CommitOf(pages, order, count, oldCount).images|
    ensures var image := CommitOf(pages, order, count, oldCount).images[i];
      || image == Image(0, FileHeader.Encode(count))
      || exists j :: 0 <= j < |order| && image == Image(order[j], Sealed(pages[order[j]]))
  {
    hide FileHeader.Encode, Sealed;
    var head := if count > oldCount then [Image(0, FileHeader.Encode(count))] else [];
    if i >= |head| {
      assert CommitOf(pages, order, count, oldCount).images[i] == SealedImages(pages, order)[i - |head|];
    }
  }

  /** The database with these pages written over it, sealed, and a header naming the new count if it grew. */
  ghost function Changed(d: Db, pages: Images, count: U64): Db {
    Db(count, d.pages + NewHeader(count, d.count) + SealedOver(pages, pages.Keys))
  }

  ghost function NewHeader(count: U64, oldCount: U64): Images {
    if count > oldCount then map[0 := FileHeader.Encode(count)] else map[]
  }

  function Elements(order: seq<PageId>): set<PageId> { set k | k in order }

  ghost function SealedOver(pages: Images, keys: set<PageId>): Images {
    map k | k in pages && k in keys :: Sealed(pages[k])
  }

  /** Committing has exactly that effect. */
  lemma CommitOfEffect(d: Db, pages: Images, order: seq<PageId>, count: U64)
    requires Ascending(order, pages)
    ensures Apply(d, CommitOf(pages, order, count, d.count)) == Changed(d, pages, count)
  {
    hide FileHeader.Encode, Sealed, AddImages, SealedOver, SealedImages;
    var head := if count > d.count then [Image(0, FileHeader.Encode(count))] else [];
    var header := NewHeader(count, d.count);
    AddImagesConcat(d.pages, head, SealedImages(pages, order));
    AddHead(d.pages, head, header);
    AddSealed(d.pages + header, pages, order);
    assert Elements(order) == pages.Keys;
  }

  lemma AddHead(m: Images, head: seq<Image>, header: Images)
    requires (head == [] && header == map[]) || exists p: Page :: head == [Image(0, p)] && header == map[0 := p]
    ensures AddImages(m, head) == m + header
  {
    if head != [] {
      assert head[..0] == [] && AddImages(m, []) == m;
    }
  }

  lemma {:induction false} AddSealed(m: Images, pages: Images, order: seq<PageId>)
    requires forall k :: k in order ==> k in pages
    ensures AddImages(m, SealedImages(pages, order)) == m + SealedOver(pages, Elements(order))
    decreases |order|
  {
    hide Sealed, SealedOver, SealedImages, Elements;
    if order == [] {
      NoneSealed(pages, order);
      SealedNone(pages, m);
    } else {
      var n := |order| - 1;
      SealedLast(pages, order, n);
      AddSealed(m, pages, order[..n]);
      SealedOne(pages, m, Elements(order[..n]), order[n]);
    }
  }

  lemma NoneSealed(pages: Images, order: seq<PageId>)
    requires order == []
    ensures SealedImages(pages, order) == [] && Elements(order) == {}
  {
  }

  lemma SealedLast(pages: Images, order: seq<PageId>, n: nat)
    requires (forall k :: k in order ==> k in pages) && |order| == n + 1
    ensures (forall k :: k in order[..n] ==> k in pages) && Elements(order) == Elements(order[..n]) + {order[n]}
    ensures SealedImages(pages, order)[..n] == SealedImages(pages, order[..n])
    ensures SealedImages(pages, order)[n] == Image(order[n], Sealed(pages[order[n]]))
  {
    hide Sealed;
  }

  lemma SealedNone(pages: Images, m: Images)
    ensures m + SealedOver(pages, {}) == m
  {
  }

  lemma SealedOne(pages: Images, m: Images, keys: set<PageId>, k: PageId)
    requires k in pages
    ensures m + SealedOver(pages, keys + {k}) == (m + SealedOver(pages, keys))[k := Sealed(pages[k])]
  {
    hide Sealed;
  }

  /** What a write transaction hands to the log is valid: every page verifies, and growth comes with a header. */
  lemma CommitOfIsValid(d: Db, pages: Images, order: seq<PageId>, count: U64)
    requires count >= d.count && d.count >= 1 && Ascending(order, pages)
    requires forall k :: k in pages ==> 0 < k < count && Verified(Sealed(pages[k]), k)
    requires forall k: PageId :: d.count <= k < count ==> k in pages
    ensures ValidTxn(d, CommitOf(pages, order, count, d.count))
    ensures |CommitOf(pages, order, count, d.count).images| <= |order| + 1
  {
    hide FileHeader.Encode, FileHeader.Decode, Sealed, Verified, AddImages;
    var t := CommitOf(pages, order, count, d.count);
    forall i | 0 <= i < |t.images|
      ensures t.images[i].id < t.count && ValidImage(t.images[i].id, t.images[i].page)
      ensures t.images[i].id == 0 ==> t.images[i].page == FileHeader.Encode(t.count)
    {
      CommitImages(pages, order, count, d.count, i);
      FileHeader.RoundTrip(count);
    }
    hide CommitOf;
    CommitCovers(pages, order, count, d.count);
  }

  /** A commit touches every page of the transaction, and the header if the file grew. */
  lemma CommitCovers(pages: Images, order: seq<PageId>, count: U64, oldCount: U64)
    requires forall k: PageId :: k in pages <==> k in order
    ensures forall k: PageId :: k in pages ==> k in Effect(CommitOf(pages, order, count, oldCount))
    ensures count > oldCount ==> 0 in Effect(CommitOf(pages, order, count, oldCount))
    ensures |CommitOf(pages, order, count, oldCount).images| <= |order| + 1
  {
    hide FileHeader.Encode, SealedImages, AddImages, CommitOf, Effect;
    var t := CommitOf(pages, order, count, oldCount);
    var grew := if count > oldCount then 1 else 0;
    CommitLayout(pages, order, count, oldCount);
    if count > oldCount {
      ImageInEffect(t, 0);
    }
    forall k: PageId | k in pages
      ensures k in Effect(t)
    {
      var j :| 0 <= j < |order| && order[j] == k;
      ImageInEffect(t, grew + j);
    }
  }

  lemma CommitLayout(pages: Images, order: seq<PageId>, count: U64, oldCount: U64)
    requires forall k: PageId :: k in order ==> k in pages
    ensures var images, grew := CommitOf(pages, order, count, oldCount).images, if count > oldCount then 1 else 0;
      && |images| == grew + |order| && (count > oldCount ==> images[0].id == 0)
      && forall j :: 0 <= j < |order| ==> images[grew + j].id == order[j]
  {
    hide FileHeader.Encode, SealedImages;
    forall j | 0 <= j < |order|
      ensures SealedImages(pages, order)[j].id == order[j]
    {
      SealedId(pages, order, j);
    }
  }

  lemma ImageInEffect(t: Txn, i: nat)
    requires i < |t.images|
    ensures t.images[i].id in Effect(t)
  {
    hide AddImages;
    EffectIsImage(t.images);
  }

  lemma SealedId(pages: Images, order: seq<PageId>, j: nat)
    requires j < |order| && forall k :: k in order ==> k in pages
    ensures SealedImages(pages, order)[j].id == order[j]
  {
    hide Sealed;
  }

  lemma CommitLogKeeps(s: State, m: Memory, order: seq<PageId>)
    requires Inv(s) && s.proc == Up(m) && m.task.Writing? && WriteEnabled(s, m, CommitLog(order))
    ensures Inv(DoWrite(s, m, CommitLog(order)))
  {
    hide DiskInv, HistoryInv, ValidLog, DirtyInv, IdInv, ReaderInv, Redo, Shows, Sealed, Verified, FileHeader.Encode,
      AddImages, CommitOf, ValidTxn, PartInv, Kept, Firm, Covered, TodoInv, LastApplied, DataImages, Fetch, NewPage,
      TailRecords, BatchOf, Apply, Txns, Ascending, SealedImages, NewHeader;
    var w := m.task;
    var t := DoWrite(s, m, CommitLog(order));
    var n := t.proc.mem;
    assert m.pageCount == s.base.count;
    CommitOfIsValid(s.base, w.pages, order, w.count);
    SameHistory(s, t);
    SameDirty(s, t, m, n);
    SameIds(s, t, m, n);
    SameShows(s, t, m, n);
    RetaskReaders(s, t, m, n);
    assert m.nextTxn !in Txns(s.log.recs) by { FreshId(s, m); }
    BatchLength(n.task.txn, n.task.id);
  }

  lemma FreshId(s: State, m: Memory)
    requires IdInv(s, m)
    ensures m.nextTxn !in Txns(s.log.recs)
  {
  }

  lemma BatchLength(t: Txn, id: U64)
    ensures |BatchOf(t, id)| == |t.images| + 1
  {
  }

  lemma DbNotEmpty(d: Db)
    requires ValidDb(d)
    ensures d.count >= 1
  {
  }

  lemma WriteKeepsInv(s: State, m: Memory, e: WriteEvent)
    requires Inv(s) && s.proc == Up(m) && m.task.Writing? && WriteEnabled(s, m, e)
    ensures Inv(DoWrite(s, m, e))
  {
    hide DiskInv, HistoryInv, ValidLog, ValidDb, DirtyInv, IdInv, ReaderInv, Redo, Shows, CountInv, Sealed, Verified,
      Fetch, NewPage;
    assert s.shown.count >= 1 by { DbNotEmpty(s.shown); }
    match e
    case CommitLog(order) => CommitLogKeeps(s, m, order);
    case Touch(k) => PrivateKeeps(s, m, DoWrite(s, m, e).proc.mem.task);
    case Edit(k, p) => PrivateKeeps(s, m, DoWrite(s, m, e).proc.mem.task);
    case Allocate(t) => PrivateKeeps(s, m, DoWrite(s, m, e).proc.mem.task);
    case _ => PrivateKeeps(s, m, Idle);
  }

  // ----- logging

  lemma LogWrittenDisk(s: State, txn: Txn, id: U64, left: seq<Byte>)
    requires DiskInv(s.files, s.fault, s.log, s.base, NoDoubt, Untouched) && s.log.phase.Quiet?
    requires ValidTxn(s.base, txn) && id !in Txns(s.log.recs) && NextSeq(s.log) + |BatchOf(txn, id)| < SEQ_LIMIT
    requires Damage(left, BatchOf(txn, id), NextSeq(s.log))
    ensures var l := DoLogWrite(s, txn, id, left).log;
      DiskInv(s.files, s.fault, l, s.base, Doubt(txn, id), Untouched) && ValidLog(l)
  {
    hide ValidDb, Versions, FaultInv, Covered, RedoInv, Redo, ValidTxn, Damage, Scan, BatchOf;
    UnsyncedIsValid(s.log.first, s.log.recs, left, BatchOf(txn, id));
  }

  lemma LogWrittenHistory(s: State, txn: Txn, id: U64, left: seq<Byte>)
    requires HistoryInv(s) && s.doubt.NoDoubt?
    ensures HistoryInv(DoLogWrite(s, txn, id, left))
  {
    hide Resolve;
    ResolveExtend(s.attempts, s.attempts + [Attempt(txn, false)], s.applied);
  }

  lemma LogWriteKeeps(s: State, m: Memory, left: seq<Byte>, n: Memory)
    requires Inv(s) && s.proc == Up(m) && m.task.Logging?
    requires Damage(left, BatchOf(m.task.txn, m.task.id), NextSeq(s.log))
    requires n == m.(task := Idle, poisoned := true, logPoisoned := true)
          || (n == m.(task := Written(m.task.txn, m.task.id))
              && Scan(left, NextSeq(s.log)).records == BatchOf(m.task.txn, m.task.id))
    ensures Inv(DoLogWrite(s, m.task.txn, m.task.id, left).(proc := Up(n)))
  {
    hide DiskInv, HistoryInv, ValidLog, ValidDb, DirtyInv, IdInv, ReaderInv, Redo, Shows, Damage, Scan, BatchOf,
      ValidTxn, CountInv, PartInv, Kept, Firm, Covered, TodoInv, LastApplied, DataImages;
    var t := DoLogWrite(s, m.task.txn, m.task.id, left).(proc := Up(n));
    LogWrittenDisk(s, m.task.txn, m.task.id, left);
    LogWrittenHistory(s, m.task.txn, m.task.id, left);
    SameHistory(DoLogWrite(s, m.task.txn, m.task.id, left), t);
    SameDirty(s, t, m, n);
    SameIds(s, t, m, n);
    SameShows(s, t, m, n);
    RetaskReaders(s, t, m, n);
    SameCount(s, t, m, n);
  }

  lemma TodoOfCommit(s: State, t: Txn, d: Db)
    requires ValidTxn(d, t) && s.base.count == t.count
    requires forall k :: k in Effect(t) ==> k in Redo(s.log.recs)
    ensures TodoInv(s, DataImages(t.images))
  {
    hide Redo, Verified, FileHeader.Encode, FileHeader.Decode, AddImages;
    var todo := DataImages(t.images);
    EffectIsImage(t.images);
    forall i | 0 <= i < |todo|
      ensures 0 < todo[i].id < s.base.count && todo[i].id in Redo(s.log.recs) && Verified(todo[i].page, todo[i].id)
    {
      DataImagesIn(t.images, i);
      var j :| 0 <= j < |t.images| && t.images[j] == todo[i];
    }
  }

  lemma TxnsOfBatch(recs: seq<Record>, t: Txn, id: U64)
    ensures forall x :: x in Txns(recs + BatchOf(t, id)) ==> x in Txns(recs) || x == id
  {
    var all := recs + BatchOf(t, id);
    forall x | x in Txns(all)
      ensures x in Txns(recs) || x == id
    {
      var i :| 0 <= i < |all| && all[i].txn == x;
      if i < |recs| {
        assert recs[i].txn == x;
      } else {
        assert BatchOf(t, id)[i - |recs|].txn == id;
      }
    }
  }

  /** The fsync that makes a commit durable: the log now holds the newest image of everything it changes. */
  lemma LogSyncDisk(s: State, txn: Txn, id: U64)
    requires DiskInv(s.files, s.fault, s.log, s.base, Doubt(txn, id), Untouched) && s.log.phase.Unsynced?
    requires NextSeq(s.log) + |BatchOf(txn, id)| < SEQ_LIMIT
    ensures var l := Log(s.log.first, s.log.recs + BatchOf(txn, id), [], Quiet);
      && DiskInv(s.files, s.fault, l, Apply(s.base, txn), NoDoubt, Untouched) && ValidLog(l)
      && Redo(l.recs) == AddImages(Redo(s.log.recs), txn.images)
  {
    hide ValidDb, ValidLog, Covered, Redo, ImagesValid, Versions, FaultInv, ValidTxn, BatchOf, Apply, TailRecords,
      AddImages;
    var l := Log(s.log.first, s.log.recs + BatchOf(txn, id), [], Quiet);
    QuietIsValid(l.first, l.recs);
    ImagesValidOfBatch(s.log.recs, s.base, txn, id);
    ApplyIsValid(s.base, txn);
    AddImagesIsUnion(Redo(s.log.recs), txn.images);
    CoveredByMore(s.files, s.base, Redo(s.log.recs), Redo(l.recs));
    AppliedIsRestored(s.files, s.base, txn, Redo(s.log.recs), Redo(l.recs));
    QuietTail(l, Apply(s.base, txn));
  }

  lemma DirtyAfterLogSync(s: State, t: State, m: Memory, n: Memory, images: seq<Image>)
    requires DirtyInv(s, m) && n.dirty == m.dirty && n.pageCount == m.pageCount
    requires Redo(t.log.recs) == AddImages(Redo(s.log.recs), images)
    ensures DirtyInv(t, n)
  {
    hide Redo, Verified, AddImages;
    AddImagesIsUnion(Redo(s.log.recs), images);
  }

  lemma LogSyncKeeps(s: State, m: Memory)
    requires Inv(s) && s.proc == Up(m) && m.task.Written?
    ensures Inv(DoLogSync(s, m))
  {
    hide DiskInv, HistoryInv, ValidLog, ValidDb, DirtyInv, IdInv, ReaderInv, Redo, Shows, BatchOf, ValidTxn, AddImages,
      CountInv, TodoInv, DataImages, PartInv, Kept, Firm, Covered, LastApplied;
    var txn, id := m.task.txn, m.task.id;
    var t := DoLogSync(s, m);
    var n := t.proc.mem;
    assert NextSeq(s.log) + |BatchOf(txn, id)| < SEQ_LIMIT by { TailBound(s.log); }
    LogSyncDisk(s, txn, id);
    SettleKeepsHistory(s, true);
    SameHistory(Settle(s, true), t);
    DirtyAfterLogSync(s, t, m, n, txn.images);
    assert IdInv(t, n) by { IdsAfterLogSync(s, t, m, n, txn, id); }
    SameShows(s, t, m, n);
    RetaskReaders(s, t, m, n);
    assert ValidTxn(s.base, txn) by { DoubtIsValid(s); }
    TodoAfterLogSync(s, t, txn);
    assert LastApplied(t) by { SettledLast(s, t); }
    assert CountInv(t, n) by { SameCountShown(s, t, m, n); }
  }

  lemma TailBound(l: Log)
    requires ValidLog(l)
    ensures NextSeq(l) + |TailRecords(l)| < SEQ_LIMIT
  {
  }

  lemma DoubtIsValid(s: State)
    requires DiskInv(s.files, s.fault, s.log, s.base, s.doubt, s.replay) && s.doubt.Doubt?
    ensures ValidTxn(s.base, s.doubt.txn)
  {
    hide ValidDb, ValidLog, Covered, RedoInv, Versions, FaultInv, ReplayInv, ValidTxn, TailRecords, BatchOf;
  }

  lemma IdsAfterLogSync(s: State, t: State, m: Memory, n: Memory, txn: Txn, id: U64)
    requires IdInv(s, m) && n.nextTxn == m.nextTxn && id < m.nextTxn && t.log.recs == s.log.recs + BatchOf(txn, id)
    ensures IdInv(t, n)
  {
    TxnsOfBatch(s.log.recs, txn, id);
  }

  lemma TodoAfterLogSync(s: State, t: State, txn: Txn)
    requires ValidTxn(s.base, txn) && t.base == Apply(s.base, txn)
    requires Redo(t.log.recs) == AddImages(Redo(s.log.recs), txn.images)
    ensures TodoInv(t, DataImages(txn.images))
  {
    hide Redo, AddImages, ValidTxn, DataImages, TodoInv;
    AddImagesIsUnion(Redo(s.log.recs), txn.images);
    TodoOfCommit(t, txn, s.base);
  }

  lemma SettledLast(s: State, t: State)
    requires HistoryInv(s) && s.doubt.Doubt? && t.applied == s.applied + [true] && t.attempts == s.attempts
    ensures LastApplied(t)
  {
    hide Resolve;
  }

  lemma SameCountShown(s: State, t: State, m: Memory, n: Memory)
    requires CountInv(s, m) && !m.task.Publishing? && !n.task.Publishing? && n.pageCount == m.pageCount
    requires t.shown == s.shown && t.half.Whole? && s.half.Whole?
    ensures CountInv(t, n)
  {
  }

  // ----- publishing

  lemma {:induction false} DataImagesEffect(images: seq<Image>)
    ensures forall k :: k != 0 ==> (k in AddImages(map[], DataImages(images)) <==> k in AddImages(map[], images))
    ensures forall k :: k != 0 && k in AddImages(map[], images) ==>
      AddImages(map[], DataImages(images))[k] == AddImages(map[], images)[k]
    decreases |images|
  {
    if images != [] {
      var n := |images| - 1;
      var rest := DataImages(images[..n]);
      DataImagesEffect(images[..n]);
      if images[n].id != 0 {
        assert (rest + [images[n]])[..|rest|] == rest;
      }
    }
  }

  /** Before anything is installed, every page shows its old contents. */
  lemma PublishStartShows(s: State, m: Memory, t: State, n: Memory, txn: Txn)
    requires |s.files| > 0 && SameView(s, t, m, n) && Shows(s, m, s.shown) && t.shown == s.shown
    requires ValidTxn(s.shown, txn) && t.base == Apply(s.shown, txn)
    ensures PartInv(t, n, txn, DataImages(txn.images))
  {
    hide Visible, AddImages, ValidTxn, Apply, DataImages, Shows;
    var all := DataImages(txn.images);
    NoImages();
    assert all[..0] == [] && all[0..] == all;
    assert Installed(txn, all) == map[];
    SameShows(s, t, m, n);
    assert Shows(t, n, s.shown);
    assert ShowsPart(t, n, t.shown, map[]) by { ShowsNothingNew(t, n); }
  }

  lemma ShowsNothingNew(t: State, n: Memory)
    requires |t.files| > 0 && Shows(t, n, t.shown)
    ensures ShowsPart(t, n, t.shown, map[])
  {
    hide Visible;
  }

  lemma PublishStartKeeps(s: State, m: Memory)
    requires Inv(s) && s.proc == Up(m) && CommitEnabled(s, m, PublishStart)
    ensures Inv(DoCommit(s, m, PublishStart))
  {
    hide DiskInv, HistoryInv, ValidLog, ValidDb, IdInv, Redo, Shows, ValidTxn, AddImages, DataImages, Verified, PartInv,
      Kept, Firm, Covered, LastApplied, TailRecords, BatchOf;
    var t := DoCommit(s, m, PublishStart);
    var n := t.proc.mem;
    SameHistory(s, t);
    SameIds(s, t, m, n);
    PublishStartShows(s, m, t, n, m.task.txn);
    assert ValidDb(s.base) by { DiskBasics(s); }
    assert s.base.count >= s.shown.count by { ApplyGrows(s.shown, m.task.txn); }
    assert TodoInv(t, n.task.todo);
    SameApplied(s, t);
  }

  /** Installing the next image moves it from those to come to those shown. */
  lemma InstalledNext(txn: Txn, todo: seq<Image>)
    requires var all := DataImages(txn.images); 0 < |todo| <= |all| && all[|all| - |todo|..] == todo
    ensures Installed(txn, todo[1..]) == Installed(txn, todo)[todo[0].id := todo[0].page]
  {
    hide DataImages;
    var all := DataImages(txn.images);
    var n := |all| - |todo|;
    assert all[..n + 1][..n] == all[..n];
    assert all[n] == all[n..][0] == todo[0];
  }

  lemma InstallShows(s: State, m: Memory, t: State, n: Memory, txn: Txn, todo: seq<Image>)
    requires |s.files| > 0 && todo != [] && PartInv(s, m, txn, todo)
    requires t.files == s.files && t.fault == s.fault && t.base == s.base && t.shown == s.shown
    requires n.dirty == m.dirty[todo[0].id := todo[0].page] && n.poisoned == m.poisoned
    ensures PartInv(t, n, txn, todo[1..])
  {
    hide Holds, Firm, Installed, DataImages, ValidTxn, Apply;
    var all := DataImages(txn.images);
    InstalledNext(txn, todo);
    assert all[|all| - |todo| + 1..] == todo[1..];
  }

  lemma InstallKeeps(s: State, m: Memory)
    requires Inv(s) && s.proc == Up(m) && CommitEnabled(s, m, Install)
    ensures Inv(DoCommit(s, m, Install))
  {
    hide DiskInv, HistoryInv, ValidLog, ValidDb, IdInv, Redo, Shows, ValidTxn, AddImages, DataImages, Verified, PartInv,
      Kept, Firm, Covered, LastApplied, TailRecords, BatchOf;
    var t := DoCommit(s, m, Install);
    var n := t.proc.mem;
    var todo := m.task.todo;
    SameHistory(s, t);
    SameIds(s, t, m, n);
    InstallShows(s, m, t, n, m.task.txn, todo);
    assert TodoInv(t, todo[1..]);
    SameApplied(s, t);
  }

  /** Failing partway: the log has the commit, memory has only part of it, and the database is poisoned. */
  lemma InstallFailedKeeps(s: State, m: Memory)
    requires Inv(s) && s.proc == Up(m) && CommitEnabled(s, m, InstallFailed)
    ensures Inv(DoCommit(s, m, InstallFailed))
  {
    hide HistoryInv, ValidLog, ValidDb, DiskInv, IdInv, Redo, PartInv, DirtyInv, Shows, TodoInv, LastApplied;
    var t := DoCommit(s, m, InstallFailed);
    var n := t.proc.mem;
    SameHistory(s, t);
    SameIds(s, t, m, n);
    SameDirty(s, t, m, n);
    SamePart(s, t, m, n, m.task.txn, m.task.todo);
  }

  lemma AckedHistory(s: State, t: State)
    requires HistoryInv(s) && s.attempts != [] && |s.applied| == |s.attempts| && s.applied[|s.applied| - 1]
    requires t.applied == s.applied && t.base == s.base && t.doubt == s.doubt
    requires t.attempts == s.attempts[|s.attempts| - 1 := s.attempts[|s.attempts| - 1].(acked := true)]
    ensures HistoryInv(t)
  {
    hide Resolve;
    ResolveExtend(s.attempts, t.attempts, s.applied);
  }

  /** The last image installed, memory shows exactly the durable state, and the caller is told so. */
  lemma PublishEndKeeps(s: State, m: Memory)
    requires Inv(s) && s.proc == Up(m) && CommitEnabled(s, m, PublishEnd)
    ensures Inv(DoCommit(s, m, PublishEnd))
  {
    hide HistoryInv, ValidLog, ValidDb, DiskInv, IdInv, Redo, DirtyInv, Shows, PartInv, TodoInv, ValidTxn;
    var t := DoCommit(s, m, PublishEnd);
    var n := t.proc.mem;
    AckedHistory(s, t);
    SameIds(s, t, m, n);
    SameDirty(s, t, m, n);
    AllInstalled(s, m, m.task.txn);
    SameShows(s, t, m, n);
  }

  /** With nothing left to install, what is shown is what is committed. */
  lemma AllInstalled(s: State, m: Memory, txn: Txn)
    requires |s.files| > 0 && PartInv(s, m, txn, []) && ValidDb(s.shown)
    ensures Shows(s, m, s.base)
  {
    hide Visible, AddImages, DataImages, ValidTxn, FileHeader.Encode, Verified;
    var all := DataImages(txn.images);
    assert all[..|all|] == all;
    DataImagesEffect(txn.images);
    AddImagesIsUnion(s.shown.pages, txn.images);
    forall k: PageId | 0 < k < s.base.count && k in s.base.pages
      ensures Visible(s, m, k, s.base.pages[k])
    {
      assert k in Installed(txn, []) <==> k in Effect(txn);
    }
  }

  lemma LogWriteOkKeeps(s: State, m: Memory)
    requires Inv(s) && s.proc == Up(m) && m.task.Logging?
    ensures Inv(DoCommit(s, m, LogWrite))
  {
    hide DiskInv, HistoryInv, ValidLog, ValidDb, Damage, Scan, BatchOf, EncodeAll, DirtyInv, Shows, ReaderInv;
    DamageOfWhole(BatchOf(m.task.txn, m.task.id), NextSeq(s.log));
    LogWriteKeeps(s, m, EncodeBatch(s, m), m.(task := Written(m.task.txn, m.task.id)));
  }

  lemma GiveUpLogKeeps(s: State, m: Memory)
    requires Inv(s) && s.proc == Up(m) && m.task.Written?
    ensures Inv(PoisonLog(s))
  {
    hide DiskInv, HistoryInv, ValidLog, ValidDb, DirtyInv, IdInv, ReaderInv, Redo, Shows, CountInv, BatchOf,
      TailRecords;
    RetaskKeeps(s, m, m.(task := Idle, poisoned := true, logPoisoned := true));
  }

  lemma FinishKeeps(s: State, m: Memory, task: Task)
    requires Inv(s) && s.proc == Up(m) && m.task.Published? && (task.Idle? || task == Flushing(m.dirty.Keys))
    ensures Inv(WithTask(s, task))
  {
    hide DiskInv, HistoryInv, ValidLog, ValidDb, DirtyInv, IdInv, ReaderInv, Shows, CountInv, HalfInv, FlushKeeps;
    HealthyFlushKeeps(s, m);
    var n := m.(task := task);
    SameKept(s, s, m, n);
    RetaskKeeps(s, m, n);
  }

  lemma CommitKeeps(s: State, m: Memory, e: CommitEvent)
    requires Inv(s) && s.proc == Up(m) && CommitEnabled(s, m, e)
    ensures Inv(DoCommit(s, m, e))
  {
    hide Inv;
    match e
    case LogWrite => LogWriteOkKeeps(s, m);
    case LogWriteFailed(left) => LogWriteKeeps(s, m, left, m.(task := Idle, poisoned := true, logPoisoned := true));
    case LogSync => LogSyncKeeps(s, m);
    case LogSyncFailed => GiveUpLogKeeps(s, m);
    case PublishStart => PublishStartKeeps(s, m);
    case Install => InstallKeeps(s, m);
    case InstallFailed => InstallFailedKeeps(s, m);
    case PublishEnd => PublishEndKeeps(s, m);
    case CommitDone => FinishKeeps(s, m, Idle);
    case AutoCheckpoint => FinishKeeps(s, m, Flushing(m.dirty.Keys));
  }
}
