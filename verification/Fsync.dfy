/**
 * What fsync makes durable, and what it no longer does once it has failed.
 *
 * A failed fsync may leave the kernel showing pages it has given up writing. A later fsync that succeeds
 * says nothing about those: only pages written again in between are sure to be on disk.
 */
module Fsync {
  import opened Pages
  import opened DataFile
  import opened Recovery

  /** Has an fsync failed, and if so, which pages have been wholly rewritten since? */
  datatype Fault = NoFault | Fault(pages: Images)

  function Rewritten(fault: Fault, k: PageId, p: Page): Fault {
    if fault.NoFault? then fault else Fault(fault.pages[k := p])
  }

  /** A write that failed partway leaves nothing to rely on. */
  function Disturbed(fault: Fault, k: PageId): Fault {
    if fault.NoFault? then fault else Fault(fault.pages - {k})
  }

  ghost predicate FaultInv(files: seq<File>, fault: Fault)
    requires |files| > 0
  {
    fault.Fault? ==> forall k :: k in fault.pages ==> Holds(Last(files), k, fault.pages[k])
  }

  /**
   * The versions still possible after an fsync that succeeded: the current one, or, after an earlier
   * failure, every version there was with the rewritten pages in place.
   */
  ghost function AfterFsync(files: seq<File>, fault: Fault): (vs: seq<File>)
    requires |files| > 0
    ensures |vs| > 0
  {
    if fault.NoFault? then [Last(files)]
    else seq(|files|, i requires 0 <= i < |files| => Overlay(files[i], fault.pages))
  }

  /** The next successful fsync makes page `k` durable as `p`. */
  ghost predicate Firm(files: seq<File>, fault: Fault, k: PageId, p: Page)
    requires |files| > 0
  {
    Holds(Last(files), k, p) && (fault.NoFault? || k in fault.pages || AllHold(files, k, p))
  }

  // ----- what the process reads

  lemma OverlayHeld(f: File, m: Images)
    requires forall k :: k in m ==> Holds(f, k, m[k])
    ensures Overlay(f, m) == f
  {
    EndIsLastPage(m);
    assert |Overlay(f, m)| == |f|;
    forall i | 0 <= i < |f|
      ensures Overlay(f, m)[i] == f[i]
    {
      var k := i / 4096;
      assert i == 4096 * k + i % 4096;
      if k in m {
        assert Holds(f, k, m[k]);
        assert f[4096 * k + i % 4096] == m[k][i % 4096];
      }
    }
  }

  lemma SyncedLast(files: seq<File>, fault: Fault)
    requires |files| > 0 && FaultInv(files, fault)
    ensures Last(AfterFsync(files, fault)) == Last(files)
    ensures FaultInv(AfterFsync(files, fault), fault)
  {
    hide Overlay, Holds;
    if fault.Fault? {
      OverlayHeld(Last(files), fault.pages);
    }
  }

  lemma SyncedVersions(files: seq<File>, fault: Fault)
    requires Versions(files)
    ensures Versions(AfterFsync(files, fault))
  {
    var vs := AfterFsync(files, fault);
    forall i, j | 0 <= i <= j < |vs|
      ensures |vs[i]| <= |vs[j]|
    {
    }
  }

  // ----- pages

  lemma SyncedKeeps(files: seq<File>, fault: Fault, k: PageId, p: Page)
    requires |files| > 0 && FaultInv(files, fault) && AllHold(files, k, p)
    ensures AllHold(AfterFsync(files, fault), k, p)
  {
    hide Holds, Overlay;
    var vs := AfterFsync(files, fault);
    assert Holds(Last(files), k, p);
    if fault.Fault? {
      forall j | 0 <= j < |vs|
        ensures Holds(vs[j], k, p)
      {
        if k in fault.pages {
          OverlayHolds(files[j], fault.pages, k);
          HoldsUnique(Last(files), k, p);
          HoldsUnique(Last(files), k, fault.pages[k]);
        } else {
          OverlayKeeps(files[j], fault.pages, k, p);
        }
      }
    }
  }

  lemma SyncedFirm(files: seq<File>, fault: Fault, k: PageId, p: Page)
    requires |files| > 0 && FaultInv(files, fault) && Firm(files, fault, k, p)
    ensures AllHold(AfterFsync(files, fault), k, p)
  {
    hide Holds, Overlay;
    if fault.Fault? {
      if k in fault.pages {
        HoldsUnique(Last(files), k, p);
        HoldsUnique(Last(files), k, fault.pages[k]);
        forall j | 0 <= j < |files|
          ensures Holds(AfterFsync(files, fault)[j], k, p)
        {
          OverlayHolds(files[j], fault.pages, k);
        }
      } else {
        SyncedKeeps(files, fault, k, p);
      }
    }
  }

  lemma AllHoldIsFirm(files: seq<File>, fault: Fault, k: PageId, p: Page)
    requires |files| > 0 && AllHold(files, k, p)
    ensures Firm(files, fault, k, p)
  {
  }

  lemma FirmAfterSync(files: seq<File>, fault: Fault, k: PageId, p: Page)
    requires |files| > 0 && FaultInv(files, fault) && Firm(files, fault, k, p)
    ensures Firm(AfterFsync(files, fault), fault, k, p)
  {
    hide Firm, AllHold, Holds;
    SyncedFirm(files, fault, k, p);
    AllHoldIsFirm(AfterFsync(files, fault), fault, k, p);
  }

  lemma FaultAfterWrite(files: seq<File>, fault: Fault, k: PageId, p: Page)
    requires |files| > 0 && FaultInv(files, fault)
    ensures FaultInv(files + [WritePage(Last(files), k, p)], Rewritten(fault, k, p))
  {
    hide Holds, WritePage;
    var v := WritePage(Last(files), k, p);
    if fault.Fault? {
      var pages := fault.pages[k := p];
      forall j | j in pages
        ensures Holds(v, j, pages[j])
      {
        if j == k {
          WriteHolds(Last(files), k, p);
        } else {
          WriteKeeps(Last(files), k, p, j, fault.pages[j]);
        }
      }
    }
  }

  lemma FaultAfterPart(files: seq<File>, fault: Fault, k: PageId, p: Page, v: File)
    requires |files| > 0 && FaultInv(files, fault) && PartlyWritten(v, Last(files), k, p)
    ensures FaultInv(files + [v], Disturbed(fault, k))
  {
    hide Holds, PartlyWritten;
    if fault.Fault? {
      forall j | j in fault.pages - {k}
        ensures Holds(v, j, fault.pages[j])
      {
        PartlyWrittenKeeps(v, Last(files), k, p, j, fault.pages[j]);
      }
    }
  }

  lemma FirmAfterWrite(files: seq<File>, fault: Fault, k: PageId, p: Page, j: PageId, q: Page)
    requires |files| > 0 && (if j == k then q == p else Firm(files, fault, j, q))
    ensures Firm(files + [WritePage(Last(files), k, p)], Rewritten(fault, k, p), j, q)
  {
    hide Holds, WritePage;
    var v := WritePage(Last(files), k, p);
    if j == k {
      WriteHolds(Last(files), k, p);
    } else {
      WriteKeeps(Last(files), k, p, j, q);
      if AllHold(files, j, q) {
        AppendVersion(files, v, j, q);
      }
    }
  }

  lemma FirmAfterPart(files: seq<File>, fault: Fault, k: PageId, p: Page, v: File, j: PageId, q: Page)
    requires |files| > 0 && PartlyWritten(v, Last(files), k, p) && j != k && Firm(files, fault, j, q)
    ensures Firm(files + [v], Disturbed(fault, k), j, q)
  {
    hide Holds, PartlyWritten;
    PartlyWrittenKeeps(v, Last(files), k, p, j, q);
    if AllHold(files, j, q) {
      AppendVersion(files, v, j, q);
    }
  }

  // ----- pages the file may yet have to grow over

  /** The bytes of page `k`, with a hole of zeros where the file ends, are `p`. */
  predicate BytesAre(f: File, k: nat, p: Page) {
    forall i :: 0 <= i < 4096 ==> ByteAt(f, 4096 * k + i) == p[i]
  }

  ghost predicate AllAre(files: seq<File>, k: nat, p: Page) {
    forall j :: 0 <= j < |files| ==> BytesAre(files[j], k, p)
  }

  /** As `Firm`, for a page the file need not cover yet. */
  ghost predicate Sure(files: seq<File>, fault: Fault, k: PageId, p: Page)
    requires |files| > 0
  {
    BytesAre(Last(files), k, p) && (fault.NoFault? || k in fault.pages || AllAre(files, k, p))
  }

  /** How far the file is sure to reach after the next successful fsync. */
  ghost function Reach(files: seq<File>, fault: Fault): nat
    requires |files| > 0
  {
    if fault.NoFault? then |Last(files)| else Max(|files[0]|, End(fault.pages))
  }

  lemma HoldsBytes(f: File, k: nat, p: Page)
    ensures Holds(f, k, p) <==> 4096 * k + 4096 <= |f| && BytesAre(f, k, p)
  {
    if 4096 * k + 4096 <= |f| && BytesAre(f, k, p) {
      forall i | 0 <= i < 4096
        ensures f[4096 * k + i] == p[i]
      {
        assert ByteAt(f, 4096 * k + i) == p[i];
      }
    }
  }

  lemma FirmIsSure(files: seq<File>, fault: Fault, k: PageId, p: Page)
    requires |files| > 0 && Firm(files, fault, k, p)
    ensures Sure(files, fault, k, p)
    ensures Versions(files) && FaultInv(files, fault) ==> Reach(files, fault) >= PageEnd(k)
  {
    hide Holds, BytesAre;
    HoldsBytes(Last(files), k, p);
    if AllHold(files, k, p) {
      forall j | 0 <= j < |files|
        ensures BytesAre(files[j], k, p)
      {
        assert Holds(files[j], k, p);
        HoldsBytes(files[j], k, p);
      }
      assert Holds(files[0], k, p);
      HoldsBytes(files[0], k, p);
    }
    if fault.Fault? && k in fault.pages {
      EndIsLastPage(fault.pages);
    }
  }

  lemma WrittenByte(f: File, k: nat, p: Page, j: nat, i: nat)
    requires i < 4096
    ensures ByteAt(WritePage(f, k, p), 4096 * j + i) == if j == k then p[i] else ByteAt(f, 4096 * j + i)
  {
    assert (4096 * k <= 4096 * j + i < 4096 * k + 4096) <==> j == k;
  }

  lemma BytesAfterWrite(f: File, k: nat, p: Page, j: nat, q: Page)
    ensures BytesAre(WritePage(f, k, p), j, q) <==> if j == k then q == p else BytesAre(f, j, q)
  {
    hide WritePage, ByteAt;
    var g := WritePage(f, k, p);
    if BytesAre(g, j, q) {
      forall i | 0 <= i < 4096
        ensures if j == k then p[i] == q[i] else ByteAt(f, 4096 * j + i) == q[i]
      {
        WrittenByte(f, k, p, j, i);
        assert ByteAt(g, 4096 * j + i) == q[i];
      }
    }
    if (if j == k then q == p else BytesAre(f, j, q)) {
      forall i | 0 <= i < 4096
        ensures ByteAt(g, 4096 * j + i) == q[i]
      {
        WrittenByte(f, k, p, j, i);
        assert j != k ==> ByteAt(f, 4096 * j + i) == q[i];
      }
    }
  }

  lemma BytesAfterPart(v: File, f: File, k: nat, p: Page, j: nat, q: Page)
    requires PartlyWritten(v, f, k, p) && j != k && BytesAre(f, j, q)
    ensures BytesAre(v, j, q)
  {
    var g := WritePage(f, k, p);
    BytesAfterWrite(f, k, p, j, q);
    forall i | 0 <= i < 4096
      ensures ByteAt(v, 4096 * j + i) == q[i]
    {
      assert ByteAt(f, 4096 * j + i) == q[i] && ByteAt(g, 4096 * j + i) == q[i];
    }
  }

  lemma OverlayByteAt(f: File, m: Images, k: PageId, i: nat)
    requires i < 4096
    ensures ByteAt(Overlay(f, m), 4096 * k + i) == if k in m then m[k][i] else ByteAt(f, 4096 * k + i)
  {
    assert (4096 * k + i) / 4096 == k && (4096 * k + i) % 4096 == i;
    EndIsLastPage(m);
  }

  lemma BytesAfterOverlay(f: File, m: Images, k: PageId, p: Page)
    ensures BytesAre(Overlay(f, m), k, p) <==> if k in m then m[k] == p else BytesAre(f, k, p)
  {
    hide Overlay, ByteAt;
    var g := Overlay(f, m);
    if BytesAre(g, k, p) {
      forall i | 0 <= i < 4096
        ensures if k in m then m[k][i] == p[i] else ByteAt(f, 4096 * k + i) == p[i]
      {
        OverlayByteAt(f, m, k, i);
        assert ByteAt(g, 4096 * k + i) == p[i];
      }
    }
    if (if k in m then m[k] == p else BytesAre(f, k, p)) {
      forall i | 0 <= i < 4096
        ensures ByteAt(g, 4096 * k + i) == p[i]
      {
        OverlayByteAt(f, m, k, i);
        assert k !in m ==> ByteAt(f, 4096 * k + i) == p[i];
      }
    }
  }

  lemma SureAfterWrite(files: seq<File>, fault: Fault, k: PageId, p: Page, j: PageId, q: Page)
    requires |files| > 0 && (if j == k then q == p else Sure(files, fault, j, q))
    ensures Sure(files + [WritePage(Last(files), k, p)], Rewritten(fault, k, p), j, q)
  {
    hide BytesAre, WritePage;
    BytesAfterWrite(Last(files), k, p, j, q);
  }

  lemma SureAfterPart(files: seq<File>, fault: Fault, k: PageId, p: Page, v: File, j: PageId, q: Page)
    requires |files| > 0 && PartlyWritten(v, Last(files), k, p) && j != k && Sure(files, fault, j, q)
    ensures Sure(files + [v], Disturbed(fault, k), j, q)
  {
    hide BytesAre, PartlyWritten;
    BytesAfterPart(v, Last(files), k, p, j, q);
  }

  lemma EndOfRemoval(m: Images, k: PageId)
    ensures if k in m then End(m) == Max(End(m - {k}), PageEnd(k)) else End(m) == End(m - {k})
  {
    if k in m {
      EndOfUpdate(m - {k}, k, m[k]);
      assert (m - {k})[k := m[k]] == m;
    } else {
      assert m - {k} == m;
    }
  }

  lemma ReachAfterWrite(files: seq<File>, fault: Fault, k: PageId, p: Page)
    requires |files| > 0
    ensures Reach(files + [WritePage(Last(files), k, p)], Rewritten(fault, k, p))
         == Max(Reach(files, fault), PageEnd(k))
  {
    if fault.Fault? {
      EndOfUpdate(fault.pages, k, p);
    }
  }

  lemma ReachAfterPart(files: seq<File>, fault: Fault, k: PageId, p: Page, v: File)
    requires |files| > 0 && PartlyWritten(v, Last(files), k, p)
    ensures Max(Reach(files + [v], Disturbed(fault, k)), PageEnd(k)) >= Reach(files, fault)
  {
    hide End;
    if fault.Fault? {
      EndOfRemoval(fault.pages, k);
    }
  }

  /** After the fsync, every version reaches that far and agrees on every sure page. */
  lemma SyncedSure(files: seq<File>, fault: Fault, k: PageId, p: Page)
    requires |files| > 0 && FaultInv(files, fault) && Sure(files, fault, k, p)
    ensures AllAre(AfterFsync(files, fault), k, p) && Sure(AfterFsync(files, fault), fault, k, p)
  {
    hide BytesAre, Overlay, Holds;
    SyncedLast(files, fault);
    if fault.Fault? {
      forall j | 0 <= j < |files|
        ensures BytesAre(Overlay(files[j], fault.pages), k, p)
      {
        BytesAfterOverlay(files[j], fault.pages, k, p);
        if k in fault.pages {
          BytesAfterOverlay(Last(files), fault.pages, k, p);
          OverlayHeld(Last(files), fault.pages);
        }
      }
    }
  }

  lemma SyncedReach(files: seq<File>, fault: Fault)
    requires Versions(files) && FaultInv(files, fault)
    ensures Reach(AfterFsync(files, fault), fault) == Reach(files, fault)
    ensures forall j :: 0 <= j < |AfterFsync(files, fault)| ==> |AfterFsync(files, fault)[j]| >= Reach(files, fault)
  {
    hide Overlay, Holds;
  }

  /** A sure page the file reaches over stands in every version. */
  lemma SureHolds(vs: seq<File>, k: PageId, p: Page, reach: nat)
    requires AllAre(vs, k, p) && PageEnd(k) <= reach && forall j :: 0 <= j < |vs| ==> |vs[j]| >= reach
    ensures AllHold(vs, k, p)
  {
    hide Holds, BytesAre;
    forall j | 0 <= j < |vs|
      ensures Holds(vs[j], k, p)
    {
      HoldsBytes(vs[j], k, p);
    }
  }
}
