/** Replaying committed page images into the data file. */
module Recovery {
  import opened Bytes
  import opened Pages
  import opened WalRecord
  import opened DataFile
  import FileHeader

  type Images = map<PageId, Page>

  // ----- which images count

  function Committed(rs: seq<Record>): set<U64> {
    set i | 0 <= i < |rs| && rs[i].Commit? :: rs[i].txn
  }

  function Txns(rs: seq<Record>): set<U64> {
    set i | 0 <= i < |rs| :: rs[i].txn
  }

  function Add(m: Images, r: Record, committed: set<U64>): Images {
    if r.PageImage? && r.txn in committed then m[r.pageId := r.page] else m
  }

  /** The last committed image of every page. */
  function Latest(rs: seq<Record>, committed: set<U64>): Images
    decreases |rs|
  {
    if rs == [] then map[] else Add(Latest(rs[..|rs| - 1], committed), rs[|rs| - 1], committed)
  }

  function Redo(rs: seq<Record>): Images { Latest(rs, Committed(rs)) }

  /** A header image must decode as a header, any other image must verify as its page. */
  predicate ValidImage(id: PageId, page: Page) {
    if id == 0 then FileHeader.Decode(page).Header? else Verified(page, id)
  }

  /** An image of page 0 is valid exactly if it is a file header; any other, exactly if it verifies. */
  lemma ValidImageIs(id: PageId, page: Page)
    ensures ValidImage(id, page) <==>
      if id == 0 then exists n: U64 :: FileHeader.IsHeader(page, n) else Sealed(page) == page && WellFormed(page, id)
  {
    hide FileHeader.Decode, FileHeader.IsHeader, Verify, Sealed, WellFormed;
    if id == 0 {
      forall n: U64
        ensures FileHeader.Decode(page) == FileHeader.Header(n) <==> FileHeader.IsHeader(page, n)
      {
        FileHeader.DecodeExact(page, n);
      }
    } else {
      HeaderOfVerified(page, id);
    }
  }

  lemma HeaderOfVerified(page: Page, id: PageId)
    ensures Verified(page, id) <==> Sealed(page) == page && WellFormed(page, id)
  {
    hide Verify, Sealed, WellFormed;
    VerifyExact(page, id, PageHeader(if page[4] == 1 then Free else Heap, id, FromLe64(page[16..24])));
    if Verified(page, id) {
      VerifyExact(page, id, Verify(page, id).header);
    }
  }

  ghost predicate ImagesValid(rs: seq<Record>, committed: set<U64>) {
    forall i :: 0 <= i < |rs| && rs[i].PageImage? && rs[i].txn in committed ==> ValidImage(rs[i].pageId, rs[i].page)
  }

  // ----- writing the images

  /** Where the last page of `m` ends. */
  ghost function End(m: Images): nat
    decreases |m|
  {
    if m == map[] then 0
    else
      var k :| k in m;
      Max(PageEnd(k), End(m - {k}))
  }

  lemma {:induction false} EndIsLastPage(m: Images)
    ensures forall k :: k in m ==> PageEnd(k) <= End(m)
    ensures m != map[] ==> exists k :: k in m && End(m) == PageEnd(k)
    decreases |m|
  {
    if m != map[] {
      var k :| k in m && End(m) == Max(PageEnd(k), End(m - {k}));
      var rest := m - {k};
      assert End(m) == Max(PageEnd(k), End(rest));
      assert End(m) >= End(rest);
      EndIsLastPage(rest);
      forall j | j in m
        ensures PageEnd(j) <= End(m)
      {
        if j != k {
          assert j in rest;
        }
      }
      if End(m) == PageEnd(k) {
        assert k in m && End(m) == PageEnd(k);
      } else {
        var j :| j in rest && End(rest) == PageEnd(j);
        assert j in m && End(m) == PageEnd(j);
      }
    }
  }

  /** `f` with every page of `m` written over it. */
  ghost function Overlay(f: File, m: Images): (g: File)
    ensures |g| == Max(|f|, End(m))
  {
    seq(Max(|f|, End(m)), i requires 0 <= i => OverlaidByte(f, m, i))
  }

  function OverlaidByte(f: File, m: Images, i: nat): Byte {
    if i / 4096 in m then m[i / 4096][i % 4096] else ByteAt(f, i)
  }

  lemma OverlayHolds(f: File, m: Images, k: PageId)
    requires k in m
    ensures Holds(Overlay(f, m), k, m[k])
  {
    EndIsLastPage(m);
    var g := Overlay(f, m);
    forall i | 0 <= i < 4096
      ensures g[4096 * k + i] == m[k][i]
    {
      assert (4096 * k + i) / 4096 == k && (4096 * k + i) % 4096 == i;
    }
  }

  lemma OverlayKeeps(f: File, m: Images, k: PageId, p: Page)
    requires k !in m && Holds(f, k, p)
    ensures Holds(Overlay(f, m), k, p)
  {
    var g := Overlay(f, m);
    forall i | 0 <= i < 4096
      ensures g[4096 * k + i] == p[i]
    {
      assert (4096 * k + i) / 4096 == k;
    }
  }

  lemma OverlayNothing(f: File)
    ensures Overlay(f, map[]) == f
  {
  }

  lemma EndOfUpdate(m: Images, k: PageId, p: Page)
    ensures End(m[k := p]) == Max(End(m), PageEnd(k))
  {
    var n := m[k := p];
    EndIsLastPage(m);
    EndIsLastPage(n);
    assert k in n;
    assert forall j :: j in m ==> j in n;
    var j :| j in n && End(n) == PageEnd(j);
    assert j == k || j in m;
    if m != map[] {
      var i :| i in m && End(m) == PageEnd(i);
      assert i in n;
    }
  }

  /** Moving one image from those to come to those done leaves their union alone. */
  lemma OneMoved(done: Images, todo: Images, k: PageId)
    requires k in todo
    ensures done[k := todo[k]] + (todo - {k}) == done + todo
  {
  }

  /** Writing one more page over an overlay is overlaying one more page. */
  lemma OverlayStep(f: File, m: Images, k: PageId, p: Page)
    ensures WritePage(Overlay(f, m), k, p) == Overlay(f, m[k := p])
  {
    EndOfUpdate(m, k, p);
    var g, h := WritePage(Overlay(f, m), k, p), Overlay(f, m[k := p]);
    assert |g| == |h|;
    forall i | 0 <= i < |g|
      ensures g[i] == h[i]
    {
      OverlayStepByte(f, m, k, p, i);
    }
  }

  /** Overlaying twice is overlaying the union, the later images winning. */
  lemma OverlayTwice(f: File, a: Images, b: Images)
    ensures Overlay(Overlay(f, a), b) == Overlay(f, a + b)
  {
    EndOfUnion(a, b);
    var g, h := Overlay(Overlay(f, a), b), Overlay(f, a + b);
    forall i | 0 <= i < |g|
      ensures g[i] == h[i]
    {
      OverlaidTwice(f, a, b, i);
    }
  }

  lemma OverlaidTwice(f: File, a: Images, b: Images, i: nat)
    ensures OverlaidByte(Overlay(f, a), b, i) == OverlaidByte(f, a + b, i)
  {
    EndIsLastPage(a);
    assert i / 4096 in a ==> i < PageEnd(i / 4096) <= End(a);
  }

  lemma EndOfUnion(a: Images, b: Images)
    ensures End(a + b) == Max(End(a), End(b))
  {
    EndIsLastPage(a);
    EndIsLastPage(b);
    EndIsLastPage(a + b);
    forall j | j in a || j in b
      ensures PageEnd(j) <= End(a + b)
    {
      assert j in a + b;
    }
    if a + b != map[] {
      var k :| k in a + b && End(a + b) == PageEnd(k);
      assert k in a || k in b;
    } else {
      assert forall j :: j in a || j in b ==> j in a + b;
    }
  }

  lemma OverlayStepByte(f: File, m: Images, k: PageId, p: Page, i: nat)
    requires i < Max(Max(|f|, End(m)), 4096 * k + 4096)
    ensures WritePage(Overlay(f, m), k, p)[i] == OverlaidByte(f, m[k := p], i)
  {
    if 4096 * k <= i < 4096 * k + 4096 {
      assert i / 4096 == k && i % 4096 == i - 4096 * k;
    } else {
      assert i / 4096 != k;
      if i >= Max(|f|, End(m)) {
        EndIsLastPage(m);
        assert i / 4096 !in m;
      }
    }
  }

  // ----- replay

  datatype Stats = Stats(committedTxns: nat, incompleteTxns: nat, pagesRestored: nat)

  datatype Outcome =
    | Replayed(file: File, stats: Stats)
    | InvalidImage
    | NotWritten(file: File)
    | NotSynced(file: File)

  function IoFor(ios: map<PageId, WriteIo>, k: PageId): WriteIo { if k in ios then ios[k] else WriteDone }

  /** Some images of `m` have been written, and the write of another failed partway. */
  ghost predicate StoppedAt(f: File, m: Images, done: Images, at: PageId, now: File) {
    && (forall k :: k in done ==> k in m && done[k] == m[k])
    && at in m && at !in done && PartlyWritten(now, Overlay(f, done), at, m[at])
  }

  /** The lowest page whose write fails, and the images of all pages below it. */
  ghost predicate FirstFailing(m: Images, ios: map<PageId, WriteIo>, done: Images, at: PageId) {
    && at in m && IoFor(ios, at).WriteFailed? && (forall k :: k in m && k < at ==> IoFor(ios, k).WriteDone?)
    && forall k :: k in done <==> k in m && k < at
  }

  /**
   * What replay leaves: all committed images written and fsynced; or, if any of them is invalid, nothing
   * written at all; or, if the disk fails, some of them written.
   */
  ghost predicate IsReplay(
    f: File, rs: seq<Record>, ios: map<PageId, WriteIo>, sync: SyncIo, out: Outcome, done: Images, at: PageId)
  {
    var m := Redo(rs);
    if !ImagesValid(rs, Committed(rs)) then out == InvalidImage
    else if exists k :: k in m && IoFor(ios, k).WriteFailed? then
      out.NotWritten? && FirstFailing(m, ios, done, at) && StoppedAt(f, m, done, at, out.file)
    else if m != map[] && sync.SyncFailed? then out == NotSynced(Overlay(f, m))
    else out == Replayed(Overlay(f, m), Stats(|Committed(rs)|, |Txns(rs) - Committed(rs)|, |m|))
  }

  lemma CommittedAreTxns(rs: seq<Record>)
    ensures Committed(rs) <= Txns(rs)
    ensures |Txns(rs) - Committed(rs)| == |Txns(rs)| - |Committed(rs)|
  {
    var c, t := Committed(rs), Txns(rs);
    assert t == c + (t - c);
    assert |t| == |c| + |t - c|;
  }

  method Replay(f: File, rs: seq<Record>, ios: map<PageId, WriteIo>, sync: SyncIo)
    returns (out: Outcome, ghost done: Images, ghost at: PageId)
    ensures IsReplay(f, rs, ios, sync, out, done, at)
  {
    hide ImagesValid, Overlay, StoppedAt, Latest, FirstFailing;
    done, at := map[], 0;
    var committed := Committed(rs);
    var allTxns := Txns(rs);
    var valid, latest := LatestImages(rs, committed);
    if !valid {
      return InvalidImage, done, at;
    }
    var ok, file;
    ok, file, done, at := WriteImages(f, latest, ios);
    if !ok {
      return NotWritten(file), done, at;
    }
    if latest != map[] && sync.SyncFailed? {
      return NotSynced(file), done, at;
    }
    CommittedAreTxns(rs);
    out := Replayed(file, Stats(|committed|, |allTxns| - |committed|, |latest|));
  }

  /** The loop over the records: validates every committed image and keeps the last one of each page. */
  method LatestImages(rs: seq<Record>, committed: set<U64>) returns (valid: bool, latest: Images)
    ensures valid <==> ImagesValid(rs, committed)
    ensures valid ==> latest == Latest(rs, committed)
  {
    hide ValidImage;
    latest := map[];
    for n := 0 to |rs|
      invariant ImagesValid(rs[..n], committed)
      invariant latest == Latest(rs[..n], committed)
    {
      assert rs[..n + 1][..n] == rs[..n];
      if rs[n].PageImage? && rs[n].txn in committed {
        if !ValidImage(rs[n].pageId, rs[n].page) {
          return false, latest;
        }
        latest := latest[rs[n].pageId := rs[n].page];
      }
    }
    assert rs[..|rs|] == rs;
    valid := true;
  }

  /** The write loop over the ordered map: lowest page first; the first failing write ends it. */
  method WriteImages(f: File, m: Images, ios: map<PageId, WriteIo>)
    returns (ok: bool, file: File, ghost done: Images, ghost at: PageId)
    ensures ok <==> forall k :: k in m ==> IoFor(ios, k).WriteDone?
    ensures ok ==> file == Overlay(f, m)
    ensures !ok ==> StoppedAt(f, m, done, at, file) && FirstFailing(m, ios, done, at)
    ensures !ok ==> file == AfterWrite(Overlay(f, done), at, m[at], IoFor(ios, at))
  {
    hide Overlay, WritePage, PartlyWritten;
    file, done, at := f, map[], 0;
    var todo := m.Keys;
    OverlayNothing(f);
    while todo != {}
      invariant todo <= m.Keys && done == m - todo && file == Overlay(f, done)
      invariant forall k :: k in done ==> IoFor(ios, k).WriteDone?
      invariant forall k, j :: k in done && j in todo ==> k < j
      decreases |todo|
    {
      var k := Least(todo);
      OverlayStep(f, done, k, m[k]);
      var io := IoFor(ios, k);
      file := AfterWrite(file, k, m[k], io);
      if io.WriteFailed? {
        at := k;
        return false, file, done, at;
      }
      done := done[k := m[k]];
      todo := todo - {k};
      assert done == m - todo;
    }
    assert m - {} == m;
    ok := true;
  }

  method Least(s: set<PageId>) returns (k: PageId)
    requires s != {}
    ensures k in s && forall j :: j in s ==> k <= j
  {
    k :| k in s;
    var rest := s - {k};
    while rest != {}
      invariant k in s && rest <= s
      invariant forall j :: j in s && j !in rest ==> k <= j
      decreases |rest|
    {
      var j :| j in rest;
      if j < k {
        k := j;
      }
      rest := rest - {j};
    }
  }

  // ----- logs made of transactions

  datatype Image = Image(id: PageId, page: Page)

  /** One transaction's records: its images, and a commit record if it got that far. */
  datatype Batch = Batch(txn: U64, images: seq<Image>, done: bool)

  function ImageRecords(txn: U64, images: seq<Image>): (rs: seq<Record>)
    ensures |rs| == |images|
  {
    seq(|images|, i requires 0 <= i < |images| => PageImage(txn, images[i].id, images[i].page))
  }

  function Records(b: Batch): seq<Record> {
    ImageRecords(b.txn, b.images) + if b.done then [Commit(b.txn)] else []
  }

  function AddImages(m: Images, images: seq<Image>): Images
    decreases |images|
  {
    if images == [] then m
    else AddImages(m, images[..|images| - 1])[images[|images| - 1].id := images[|images| - 1].page]
  }

  lemma {:induction false} AddImagesConcat(m: Images, a: seq<Image>, b: seq<Image>)
    ensures AddImages(m, a + b) == AddImages(AddImages(m, a), b)
    decreases |b|
  {
    if b == [] {
      assert a + b == a;
    } else {
      var n := |b| - 1;
      assert (a + b)[..|a| + n] == a + b[..n];
      AddImagesConcat(m, a, b[..n]);
    }
  }

  /** A transaction's images written to the file one by one. */
  function WriteSeq(f: File, images: seq<Image>): File
    decreases |images|
  {
    if images == [] then f
    else WritePage(WriteSeq(f, images[..|images| - 1]), images[|images| - 1].id, images[|images| - 1].page)
  }

  lemma {:induction false} WriteSeqIsOverlay(f: File, m: Images, images: seq<Image>)
    ensures WriteSeq(Overlay(f, m), images) == Overlay(f, AddImages(m, images))
    decreases |images|
  {
    hide Overlay;
    if images != [] {
      var n := |images| - 1;
      WriteSeqIsOverlay(f, m, images[..n]);
      OverlayStep(f, AddImages(m, images[..n]), images[n].id, images[n].page);
    }
  }

  /** A transaction id that does not occur in the log can be added to the committed set without effect. */
  lemma {:induction false} LatestIgnores(rs: seq<Record>, committed: set<U64>, t: U64)
    requires t !in Txns(rs)
    ensures Latest(rs, committed + {t}) == Latest(rs, committed)
    decreases |rs|
  {
    if rs != [] {
      var n := |rs| - 1;
      assert rs[n].txn in Txns(rs);
      TxnsOfPrefix(rs, n);
      LatestIgnores(rs[..n], committed, t);
    }
  }

  lemma TxnsOfPrefix(rs: seq<Record>, n: nat)
    requires n <= |rs|
    ensures Txns(rs[..n]) <= Txns(rs)
  {
    forall t | t in Txns(rs[..n])
      ensures t in Txns(rs)
    {
      var i :| 0 <= i < n && rs[..n][i].txn == t;
      assert rs[i].txn == t;
    }
  }

  lemma {:induction false} LatestOfImages(rs: seq<Record>, committed: set<U64>, t: U64, images: seq<Image>)
    ensures Latest(rs + ImageRecords(t, images), committed)
         == if t in committed then AddImages(Latest(rs, committed), images) else Latest(rs, committed)
    decreases |images|
  {
    var all := rs + ImageRecords(t, images);
    if images == [] {
      assert all == rs;
    } else {
      var n := |images| - 1;
      LatestOfImages(rs, committed, t, images[..n]);
      assert all[..|all| - 1] == rs + ImageRecords(t, images[..n]);
      assert all[|all| - 1] == PageImage(t, images[n].id, images[n].page);
    }
  }

  lemma LatestOfCommit(rs: seq<Record>, committed: set<U64>, t: U64)
    ensures Latest(rs + [Commit(t)], committed) == Latest(rs, committed)
  {
    assert (rs + [Commit(t)])[..|rs|] == rs;
  }

  lemma CommittedOfBatch(rs: seq<Record>, b: Batch)
    ensures Committed(rs + Records(b)) == Committed(rs) + if b.done then {b.txn} else {}
  {
    var all := rs + Records(b);
    var c := Committed(rs) + if b.done then {b.txn} else {};
    forall t | t in c
      ensures t in Committed(all)
    {
      if t in Committed(rs) {
        var i :| 0 <= i < |rs| && rs[i].Commit? && rs[i].txn == t;
        assert all[i] == rs[i];
      } else {
        assert all[|all| - 1] == Commit(b.txn);
      }
    }
    forall t | t in Committed(all)
      ensures t in c
    {
      var i :| 0 <= i < |all| && all[i].Commit? && all[i].txn == t;
      if i < |rs| {
        assert rs[i] == all[i];
      } else {
        assert all[i] == Records(b)[i - |rs|];
      }
    }
  }

  /** Appending one transaction: its images win if it committed, and leave no trace if it did not. */
  lemma RedoOfBatch(rs: seq<Record>, b: Batch)
    requires b.txn !in Txns(rs)
    ensures Redo(rs + Records(b)) == if b.done then AddImages(Redo(rs), b.images) else Redo(rs)
  {
    hide Committed, Latest, Records;
    var images := ImageRecords(b.txn, b.images);
    var c := Committed(rs);
    CommittedOfBatch(rs, b);
    CommittedAreTxns(rs);
    RecordsAre(b);
    if b.done {
      assert rs + Records(b) == (rs + images) + [Commit(b.txn)];
      LatestOfCommit(rs + images, c + {b.txn}, b.txn);
      LatestOfImages(rs, c + {b.txn}, b.txn, b.images);
      LatestIgnores(rs, c, b.txn);
    } else {
      assert rs + Records(b) == rs + images;
      assert c + {} == c;
      LatestOfImages(rs, c, b.txn, b.images);
    }
  }

  lemma RecordsAre(b: Batch)
    ensures Records(b) == ImageRecords(b.txn, b.images) + if b.done then [Commit(b.txn)] else []
  {
    assert ImageRecords(b.txn, b.images) + [] == ImageRecords(b.txn, b.images);
  }

  function LogOf(bs: seq<Batch>): seq<Record>
    decreases |bs|
  {
    if bs == [] then [] else LogOf(bs[..|bs| - 1]) + Records(bs[|bs| - 1])
  }

  /** Contiguous transactions with distinct ids; only the last may be unfinished. */
  ghost predicate WellFormedLog(bs: seq<Batch>) {
    && (forall i, j :: 0 <= i < j < |bs| ==> bs[i].txn != bs[j].txn)
    && (forall i :: 0 <= i < |bs| - 1 ==> bs[i].done)
  }

  /** Each finished transaction, in order, writes its images in order. */
  function Sequential(f: File, bs: seq<Batch>): File
    decreases |bs|
  {
    if bs == [] then f
    else
      var g := Sequential(f, bs[..|bs| - 1]);
      if bs[|bs| - 1].done then WriteSeq(g, bs[|bs| - 1].images) else g
  }

  lemma {:induction false} TxnsOfLog(bs: seq<Batch>)
    ensures forall t :: t in Txns(LogOf(bs)) ==> exists i :: 0 <= i < |bs| && bs[i].txn == t
    decreases |bs|
  {
    if bs != [] {
      var n := |bs| - 1;
      var rs := LogOf(bs[..n]);
      TxnsOfLog(bs[..n]);
      forall t | t in Txns(LogOf(bs))
        ensures exists i :: 0 <= i < |bs| && bs[i].txn == t
      {
        var i :| 0 <= i < |LogOf(bs)| && LogOf(bs)[i].txn == t;
        if i < |rs| {
          assert rs[i].txn in Txns(rs);
          var j :| 0 <= j < n && bs[..n][j].txn == t;
          assert bs[j].txn == t;
        } else {
          assert Records(bs[n])[i - |rs|].txn == t;
          assert bs[n].txn == t;
        }
      }
    }
  }

  /** Last-image-wins replay of the whole log is applying the committed transactions one after another. */
  lemma {:induction false} ReplayIsSequential(f: File, bs: seq<Batch>)
    requires WellFormedLog(bs)
    ensures Overlay(f, Redo(LogOf(bs))) == Sequential(f, bs)
    decreases |bs|
  {
    hide Overlay, Redo, Records;
    if bs == [] {
      RedoOfNothing();
      OverlayNothing(f);
    } else {
      var n := |bs| - 1;
      var rs := LogOf(bs[..n]);
      ReplayIsSequential(f, bs[..n]);
      TxnsOfLog(bs[..n]);
      assert forall i :: 0 <= i < n ==> bs[..n][i].txn != bs[n].txn;
      RedoOfBatch(rs, bs[n]);
      if bs[n].done {
        WriteSeqIsOverlay(f, Redo(rs), bs[n].images);
      }
    }
  }

  lemma RedoOfNothing()
    ensures Redo([]) == map[]
  {
  }

  /** Replaying the same records again changes nothing. */
  lemma ReplayIdempotent(f: File, m: Images)
    ensures Overlay(Overlay(f, m), m) == Overlay(f, m)
  {
    var g := Overlay(f, m);
    var h := Overlay(g, m);
    assert |h| == |g|;
    forall i | 0 <= i < |g|
      ensures h[i] == g[i]
    {
    }
  }

  /** Two files that agree outside the logged pages replay to the same file. */
  lemma ReplayForgetsLoggedPages(f: File, g: File, m: Images)
    requires forall i: nat :: i / 4096 !in m ==> ByteAt(f, i) == ByteAt(g, i)
    requires Max(|f|, End(m)) == Max(|g|, End(m))
    ensures Overlay(f, m) == Overlay(g, m)
  {
    forall i | 0 <= i < |Overlay(f, m)|
      ensures Overlay(f, m)[i] == Overlay(g, m)[i]
    {
      assert OverlaidByte(f, m, i) == OverlaidByte(g, m, i);
    }
  }
}
