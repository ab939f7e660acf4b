/** The redo invariant: between them, the synced part of the data file and the durable log hold every commit. */
module DiskInvariant {
  import opened Bytes
  import opened Pages
  import opened WalRecord
  import opened Wal
  import opened DataFile
  import opened Recovery
  import opened Fsync
  import opened Store
  import opened Engine
  import FileHeader

  ghost predicate Contained(m: Images, d: Db) {
    forall k :: k in m ==> k in d.pages && m[k] == d.pages[k]
  }

  /** Every page the images in `m` would not rewrite stands in all versions of the file. */
  ghost predicate Covered(files: seq<File>, d: Db, m: Images) {
    forall k: PageId :: k in d.pages && k !in m ==> AllHold(files, k, d.pages[k])
  }

  /** Committed images are valid and are the current contents of their pages. */
  ghost predicate RedoInv(recs: seq<Record>, d: Db) {
    ImagesValid(recs, Committed(recs)) && Contained(Redo(recs), d)
  }

  /** The images a reopen is sure to find; none while a reset is in flight. */
  ghost function Relied(l: Log): Images { if l.phase.Resetting? then map[] else Redo(l.recs) }

  /** Records behind the durable ones that commit nothing. */
  ghost predicate Harmless(recs: seq<Record>, extra: seq<Record>) {
    Redo(recs + extra) == Redo(recs) && ImagesValid(recs + extra, Committed(recs + extra))
  }

  /** Unsynced records are those of the one commit in doubt, or commit nothing. */
  ghost predicate TailInv(l: Log, d: Db, doubt: Doubt) {
    match doubt
    case NoDoubt => forall k :: 0 <= k <= |TailRecords(l)| ==> Harmless(l.recs, TailRecords(l)[..k])
    case Doubt(txn, id) =>
      && (l.phase.Unsynced? || l.phase.Resetting?) && TailRecords(l) <= BatchOf(txn, id)
      && id !in Txns(l.recs) && ValidTxn(d, txn)
  }

  /** The commit in doubt stands whole in the log file, synced or not. */
  ghost predicate WholeTail(l: Log, doubt: Doubt) {
    doubt.Doubt? && TailRecords(l) == BatchOf(doubt.txn, doubt.id)
  }

  /**
   * What the data file is sure to hold. While a restart replays a commit that was never fsynced, pages
   * it changes may be in any state; once that replay is fsynced, the file has the commit.
   */
  ghost predicate ReplayInv(files: seq<File>, l: Log, d: Db, doubt: Doubt, replay: Replay) {
    match replay
    case Untouched => Covered(files, d, Relied(l)) && (l.phase.Resetting? ==> !WholeTail(l, doubt))
    case Started =>
      && WholeTail(l, doubt) && l.phase.Unsynced?
      && Covered(files, d, Redo(l.recs) + Effect(doubt.txn))
      && (Repairable(l.recs, d, doubt.txn) ==> Covered(files, d, Redo(l.recs)))
    case Landed => WholeTail(l, doubt) && Covered(files, Apply(d, doubt.txn), map[])
  }

  ghost predicate DiskInv(files: seq<File>, fault: Fault, l: Log, d: Db, doubt: Doubt, replay: Replay) {
    && ValidDb(d) && Versions(files) && FaultInv(files, fault) && ValidLog(l)
    && RedoInv(l.recs, d) && TailInv(l, d, doubt) && ReplayInv(files, l, d, doubt, replay)
  }

  // ----- reading the log back

  lemma ImagesValidOfPrefix(recs: seq<Record>, t: U64, images: seq<Image>)
    requires t !in Txns(recs) && ImagesValid(recs, Committed(recs))
    ensures Harmless(recs, ImageRecords(t, images))
  {
    hide ValidImage, Latest;
    var b := Batch(t, images, false);
    var all := recs + ImageRecords(t, images);
    assert Records(b) == ImageRecords(t, images);
    RedoOfBatch(recs, b);
    CommittedOfBatch(recs, b);
    assert Committed(all) == Committed(recs);
    CommittedAreTxns(recs);
    forall i | 0 <= i < |all| && all[i].PageImage? && all[i].txn in Committed(all)
      ensures ValidImage(all[i].pageId, all[i].page)
    {
      assert forall j :: |recs| <= j < |all| ==> all[j].txn == t;
      assert all[i] == recs[i];
    }
  }

  lemma ImagesValidOfBatch(recs: seq<Record>, d: Db, t: Txn, id: U64)
    requires id !in Txns(recs) && ImagesValid(recs, Committed(recs)) && ValidTxn(d, t)
    ensures ImagesValid(recs + BatchOf(t, id), Committed(recs + BatchOf(t, id)))
    ensures Redo(recs + BatchOf(t, id)) == AddImages(Redo(recs), t.images)
  {
    hide ValidImage, Latest;
    var b := Batch(id, t.images, true);
    var all := recs + Records(b);
    RedoOfBatch(recs, b);
    CommittedOfBatch(recs, b);
    forall i | 0 <= i < |all| && all[i].PageImage? && all[i].txn in Committed(all)
      ensures ValidImage(all[i].pageId, all[i].page)
    {
      if i < |recs| {
        assert all[i] == recs[i];
        assert recs[i].txn in Txns(recs);
      } else {
        assert all[i] == Records(b)[i - |recs|];
        assert all[i] == ImageRecords(id, t.images)[i - |recs|];
      }
    }
  }

  lemma PrefixOfBatch(t: Txn, id: U64, k: nat)
    requires k < |BatchOf(t, id)|
    ensures k <= |t.images| && BatchOf(t, id)[..k] == ImageRecords(id, t.images[..k])
  {
  }

  ghost function Settled(d: Db, doubt: Doubt, took: bool): Db {
    if doubt.Doubt? && took then Apply(d, doubt.txn) else d
  }

  /** Whatever is found, its images are valid and, with the pages all versions agree on, make up the outcome. */
  ghost predicate Restores(files: seq<File>, d: Db, found: seq<Record>) {
    RedoInv(found, d) && Covered(files, d, Redo(found))
  }

  /**
   * Can finding these records be told apart from a torn commit? Always, unless a restart has begun to
   * write a commit whose records are then lost, over pages the log cannot put back.
   */
  ghost predicate Decided(recs: seq<Record>, d: Db, doubt: Doubt, replay: Replay, found: seq<Record>) {
    replay.Untouched? || Took(recs, doubt, replay, found) || (doubt.Doubt? && Repairable(recs, d, doubt.txn))
  }

  /** Whatever of the log survives, what is found makes up the database before or after the commit in doubt. */
  lemma FoundRestores(
    files: seq<File>, fault: Fault, l: Log, d: Db, doubt: Doubt, replay: Replay, found: seq<Record>)
    requires DiskInv(files, fault, l, d, doubt, replay) && MayRead(found, l) && Decided(l.recs, d, doubt, replay, found)
    ensures var e := Settled(d, doubt, Took(l.recs, doubt, replay, found)); ValidDb(e) && Restores(files, e, found)
  {
    hide ValidDb, ValidTxn, ValidLog, ImagesValid, Redo, TailRecords, AllHold, BatchOf, Absorbed, Repairable, Apply;
    if l.phase.Resetting? && found == [] {
      if replay.Landed? {
        ApplyIsValid(d, doubt.txn);
        RestoresNothing(files, Apply(d, doubt.txn));
      } else {
        if doubt.Doubt? {
          BatchNotEmpty(doubt.txn, doubt.id);
        }
        RestoresNothing(files, d);
      }
    } else {
      var k := |found| - |l.recs|;
      var extra := TailRecords(l)[..k];
      assert found == l.recs + extra;
      if doubt.NoDoubt? {
        assert Harmless(l.recs, extra);
        CoveredByMore(files, d, Relied(l), Redo(found));
      } else if k == |BatchOf(doubt.txn, doubt.id)| {
        assert extra == BatchOf(doubt.txn, doubt.id);
        WholeRestores(files, fault, l, d, doubt, replay);
      } else {
        PartRestores(files, fault, l, d, doubt, replay, found, k);
      }
    }
  }

  lemma BatchNotEmpty(t: Txn, id: U64)
    ensures |BatchOf(t, id)| > 0
  {
  }

  lemma RestoresNothing(files: seq<File>, d: Db)
    requires Covered(files, d, map[])
    ensures Restores(files, d, [])
  {
    RedoOfNothing();
    NothingIsValid();
  }

  lemma NothingIsValid()
    ensures ImagesValid([], Committed([]))
  {
  }

  lemma CoveredByMore(files: seq<File>, d: Db, m: Images, n: Images)
    requires Covered(files, d, m) && m.Keys <= n.Keys
    ensures Covered(files, d, n)
  {
  }

  /** All records of the commit are found: its images, over what the file is sure to hold, are the new database. */
  lemma WholeRestores(files: seq<File>, fault: Fault, l: Log, d: Db, doubt: Doubt, replay: Replay)
    requires DiskInv(files, fault, l, d, doubt, replay) && doubt.Doubt?
    ensures var found := l.recs + BatchOf(doubt.txn, doubt.id);
      ValidDb(Apply(d, doubt.txn)) && Restores(files, Apply(d, doubt.txn), found)
  {
    hide ValidDb, ValidTxn, ValidLog, ImagesValid, Redo, TailRecords, AllHold, BatchOf, Repairable, AddImages, Versions;
    var found := l.recs + BatchOf(doubt.txn, doubt.id);
    ImagesValidOfBatch(l.recs, d, doubt.txn, doubt.id);
    ApplyIsValid(d, doubt.txn);
    AddImagesIsUnion(Redo(l.recs), doubt.txn.images);
    if replay.Landed? {
      CoveredByMore(files, Apply(d, doubt.txn), map[], Redo(found));
      AppliedIsContained(d, doubt.txn, Redo(l.recs));
    } else {
      if replay.Untouched? {
        CoveredByMore(files, d, Relied(l), Redo(found));
      }
      AppliedIsRestored(files, d, doubt.txn, Redo(l.recs), Redo(found));
    }
  }

  lemma AppliedIsContained(d: Db, t: Txn, m: Images)
    requires Contained(m, d)
    ensures Contained(AddImages(m, t.images), Apply(d, t))
  {
    hide AddImages;
    AddImagesIsUnion(m, t.images);
    AddImagesIsUnion(d.pages, t.images);
  }

  lemma AppliedIsRestored(files: seq<File>, d: Db, t: Txn, m: Images, n: Images)
    requires ValidDb(d) && ValidTxn(d, t) && Contained(m, d)
    requires n == AddImages(m, t.images) && Covered(files, d, n)
    ensures Contained(n, Apply(d, t)) && Covered(files, Apply(d, t), n)
  {
    hide Verified, FileHeader.Encode, AddImages, ValidImage, AllHold;
    AddImagesIsUnion(m, t.images);
    AddImagesIsUnion(d.pages, t.images);
  }

  /** Only some of the commit's records are found, so they commit nothing. */
  lemma PartRestores(
    files: seq<File>, fault: Fault, l: Log, d: Db, doubt: Doubt, replay: Replay, found: seq<Record>, k: nat)
    requires DiskInv(files, fault, l, d, doubt, replay) && doubt.Doubt? && Decided(l.recs, d, doubt, replay, found)
    requires k <= |TailRecords(l)| && k < |BatchOf(doubt.txn, doubt.id)| && found == l.recs + TailRecords(l)[..k]
    ensures var e := Settled(d, doubt, Took(l.recs, doubt, replay, found)); ValidDb(e) && Restores(files, e, found)
  {
    hide ValidDb, ValidTxn, ValidLog, ImagesValid, Redo, TailRecords, AllHold, BatchOf, Versions, Absorbed, Repairable,
      Apply;
    var batch := BatchOf(doubt.txn, doubt.id);
    assert TailRecords(l)[..k] == batch[..k];
    PrefixOfBatch(doubt.txn, doubt.id, k);
    ImagesValidOfPrefix(l.recs, doubt.id, doubt.txn.images[..k]);
    assert found != l.recs + batch;
    if replay.Landed? {
      ApplyIsValid(d, doubt.txn);
      assert found == [] ==> l.recs == [];
      LandedRestores(files, d, doubt.txn, l.recs, found, Took(l.recs, doubt, replay, found));
    } else if replay.Untouched? {
      CoveredByMore(files, d, Relied(l), Redo(found));
    }
  }

  /** The file already has the commit: the durable images leave it there, or put all of the old database back. */
  lemma LandedRestores(files: seq<File>, d: Db, t: Txn, recs: seq<Record>, found: seq<Record>, took: bool)
    requires Covered(files, Apply(d, t), map[]) && RedoInv(recs, d)
    requires Redo(found) == Redo(recs) && ImagesValid(found, Committed(found))
    requires if took then recs == [] || Absorbed(recs, t) else Repairable(recs, d, t)
    ensures Restores(files, if took then Apply(d, t) else d, found)
  {
    hide AddImages, AllHold, Redo, ImagesValid;
    AddImagesIsUnion(d.pages, t.images);
    if recs == [] {
      RedoOfNothing();
    }
  }

  /** The recovered file holds the outcome, whatever the crash did to the pages the images rewrite. */
  lemma RestoredFile(c: File, files: seq<File>, d: Db, found: seq<Record>)
    requires |files| > 0 && Torn(c, files) && Restores(files, d, found)
    ensures FileHolds(Overlay(c, Redo(found)), d)
  {
    hide Torn, AllHold, Redo, Holds, ImagesValid, Overlay;
    var m := Redo(found);
    forall k: PageId | k in d.pages
      ensures Holds(Overlay(c, m), k, d.pages[k])
    {
      if k in m {
        OverlayHolds(c, m, k);
      } else {
        TornKeeps(c, files, k, d.pages[k]);
        OverlayKeeps(c, m, k, d.pages[k]);
      }
    }
  }

  // ----- changes to the data file

  /** Adding a version that differs from the last only where the log, or nothing, is needed. */
  lemma CoveredWrite(files: seq<File>, d: Db, m: Images, k: PageId, p: Page, v: File)
    requires |files| > 0 && Covered(files, d, m)
    requires v == WritePage(Last(files), k, p) || PartlyWritten(v, Last(files), k, p)
    requires k in m || k !in d.pages || p == d.pages[k]
    ensures Covered(files + [v], d, m)
  {
    hide AllHold, Holds, PartlyWritten, WritePage;
    forall j: PageId | j in d.pages && j !in m
      ensures AllHold(files + [v], j, d.pages[j])
    {
      AllHoldLast(files, j, d.pages[j]);
      if v == WritePage(Last(files), k, p) {
        if j == k {
          WriteHolds(Last(files), k, p);
        } else {
          WriteKeeps(Last(files), k, p, j, d.pages[j]);
        }
      } else {
        PartlyWrittenKeeps(v, Last(files), k, p, j, d.pages[j]);
      }
      AppendVersion(files, v, j, d.pages[j]);
    }
  }

  lemma AllHoldLast(files: seq<File>, k: PageId, p: Page)
    requires |files| > 0 && AllHold(files, k, p)
    ensures Holds(Last(files), k, p) && AllHold([Last(files)], k, p)
  {
  }

  lemma CoveredSync(files: seq<File>, fault: Fault, d: Db, m: Images)
    requires |files| > 0 && FaultInv(files, fault) && Covered(files, d, m)
    ensures Covered(AfterFsync(files, fault), d, m)
  {
    hide AllHold, FaultInv, AfterFsync;
    forall k: PageId | k in d.pages && k !in m
      ensures AllHold(AfterFsync(files, fault), k, d.pages[k])
    {
      SyncedKeeps(files, fault, k, d.pages[k]);
    }
  }

  /** An fsync changes nothing about what the file is sure to hold. */
  lemma SyncKeepsDisk(files: seq<File>, fault: Fault, l: Log, d: Db, doubt: Doubt, replay: Replay)
    requires DiskInv(files, fault, l, d, doubt, replay)
    ensures DiskInv(AfterFsync(files, fault), fault, l, d, doubt, replay)
  {
    hide ValidDb, Covered, ValidLog, RedoInv, TailInv, TailRecords, BatchOf, Redo, Apply, Repairable, AfterFsync,
      FaultInv;
    SyncedVersions(files, fault);
    SyncedLast(files, fault);
    match replay
    case Untouched => CoveredSync(files, fault, d, Relied(l));
    case Landed => CoveredSync(files, fault, Apply(d, doubt.txn), map[]);
    case Started =>
      CoveredSync(files, fault, d, Redo(l.recs) + Effect(doubt.txn));
      if Repairable(l.recs, d, doubt.txn) {
        CoveredSync(files, fault, d, Redo(l.recs));
      }
  }

  /** One write to the data file, whole or in part. */
  ghost predicate Wrote(files: seq<File>, fault: Fault, k: PageId, p: Page, files': seq<File>, fault': Fault)
    requires |files| > 0
  {
    || (files' == files + [WritePage(Last(files), k, p)] && fault' == Rewritten(fault, k, p))
    || (|files'| == |files| + 1 && files'[..|files|] == files && PartlyWritten(Last(files'), Last(files), k, p)
        && fault' == Disturbed(fault, k))
  }

  lemma WroteIs(files: seq<File>, fault: Fault, k: PageId, p: Page, files': seq<File>, fault': Fault)
    requires Versions(files) && FaultInv(files, fault) && Wrote(files, fault, k, p, files', fault')
    ensures |files'| > 0 && files' == files + [Last(files')] && Versions(files') && FaultInv(files', fault')
    ensures Last(files') == WritePage(Last(files), k, p) || PartlyWritten(Last(files'), Last(files), k, p)
  {
    hide WritePage, PartlyWritten, FaultInv;
    var v := Last(files');
    assert files' == files + [v];
    VersionsWrite(files, k, p, v);
    if files' == files + [WritePage(Last(files), k, p)] && fault' == Rewritten(fault, k, p) {
      FaultAfterWrite(files, fault, k, p);
    } else {
      FaultAfterPart(files, fault, k, p, v);
    }
  }

  /** Writing committed contents, or a page the log will rewrite, keeps the disk in order. */
  lemma WriteKeepsDisk(
    files: seq<File>, fault: Fault, l: Log, d: Db, doubt: Doubt, k: PageId, p: Page, files': seq<File>, fault': Fault)
    requires DiskInv(files, fault, l, d, doubt, Untouched) && Wrote(files, fault, k, p, files', fault')
    requires k in Relied(l) || k !in d.pages || p == d.pages[k]
    ensures DiskInv(files', fault', l, d, doubt, Untouched)
  {
    hide ValidDb, Covered, ValidLog, RedoInv, TailInv, WholeTail, FaultInv, Wrote, WritePage, PartlyWritten, Relied;
    WroteIs(files, fault, k, p, files', fault');
    CoveredWrite(files, d, Relied(l), k, p, Last(files'));
  }

  lemma VersionsWrite(files: seq<File>, k: PageId, p: Page, v: File)
    requires Versions(files)
    requires v == WritePage(Last(files), k, p) || PartlyWritten(v, Last(files), k, p)
    ensures Versions(files + [v]) && |files + [v]| > 0
  {
    AppendVersions(files, v);
  }
}
