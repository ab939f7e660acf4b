/** The data file as bytes: page-sized writes, what a crash may leave of unsynced ones, and opening it. */
module DataFile {
  import opened Bytes
  import opened Pages
  import FileHeader

  type File = seq<Byte>

  /** Bytes past the end read as zero once the file grows over them. */
  function ByteAt(f: File, i: nat): Byte { if i < |f| then f[i] else 0 }

  function Max(a: nat, b: nat): nat { if a < b then b else a }

  /** The byte just past page `k`. */
  function PageEnd(k: nat): nat { 4096 * k + 4096 }

  /** `write_all_at` at the page's offset; writing past the end leaves a hole of zeros. */
  function WritePage(f: File, k: nat, p: Page): (g: File)
    ensures |g| == Max(|f|, 4096 * k + 4096)
  {
    seq(Max(|f|, 4096 * k + 4096), i requires 0 <= i =>
      if 4096 * k <= i < 4096 * k + 4096 then p[i - 4096 * k] else ByteAt(f, i))
  }

  /** Page `k` lies wholly inside the file and its bytes are `p`. */
  ghost predicate Holds(f: File, k: nat, p: Page) {
    4096 * k + 4096 <= |f| && forall i :: 0 <= i < 4096 ==> f[4096 * k + i] == p[i]
  }

  function PageAt(f: File, k: nat): (p: Page)
    requires 4096 * k + 4096 <= |f|
    ensures Holds(f, k, p)
  {
    f[4096 * k..4096 * k + 4096]
  }

  lemma HoldsUnique(f: File, k: nat, p: Page)
    requires Holds(f, k, p)
    ensures PageAt(f, k) == p
  {
  }

  lemma WriteHolds(f: File, k: nat, p: Page)
    ensures Holds(WritePage(f, k, p), k, p)
  {
  }

  lemma WriteKeeps(f: File, k: nat, p: Page, j: nat, q: Page)
    requires Holds(f, j, q) && j != k
    ensures Holds(WritePage(f, k, p), j, q)
  {
    var g := WritePage(f, k, p);
    forall i | 0 <= i < 4096
      ensures g[4096 * j + i] == q[i]
    {
      assert !(4096 * k <= 4096 * j + i < 4096 * k + 4096);
    }
  }

  /** A write that failed partway: every byte is the old one or the new one. */
  predicate PartlyWritten(v: File, f: File, k: nat, p: Page) {
    var g := WritePage(f, k, p);
    && |f| <= |v| <= |g|
    && forall i :: 0 <= i < |v| ==> v[i] == ByteAt(f, i) || v[i] == g[i]
  }

  /** Pages the failed write did not aim at are untouched, and so is its target if it already held those bytes. */
  lemma PartlyWrittenKeeps(v: File, f: File, k: nat, p: Page, j: nat, q: Page)
    requires PartlyWritten(v, f, k, p) && Holds(f, j, q) && (j != k || p == q)
    ensures Holds(v, j, q)
  {
    var g := WritePage(f, k, p);
    if j != k {
      WriteKeeps(f, k, p, j, q);
    } else {
      WriteHolds(f, k, p);
    }
    forall i | 0 <= i < 4096
      ensures v[4096 * j + i] == q[i]
    {
      assert v[4096 * j + i] == f[4096 * j + i] || v[4096 * j + i] == g[4096 * j + i];
    }
  }

  // ----- how the operating system answers

  /**
   * How the operating system answers. A failed write leaves any mixture of old and new bytes: `left`
   * is the environment's choice, taken when it is such a mixture.
   */
  datatype WriteIo = WriteDone | WriteFailed(left: File)

  function AfterWrite(f: File, k: nat, p: Page, io: WriteIo): (g: File)
    ensures |f| <= |g|
    ensures io.WriteDone? ==> g == WritePage(f, k, p)
    ensures io.WriteFailed? ==> PartlyWritten(g, f, k, p)
  {
    match io
    case WriteDone => WritePage(f, k, p)
    case WriteFailed(left) => if PartlyWritten(left, f, k, p) then left else f
  }

  datatype SyncIo = SyncDone | SyncFailed

  // ----- unsynced writes

  /**
   * The file's contents after each write since the last successful fsync, oldest first: the first is
   * durable, the last is what this process reads.
   */
  ghost predicate Versions(vs: seq<File>) {
    |vs| > 0 && forall i, j :: 0 <= i <= j < |vs| ==> |vs[i]| <= |vs[j]|
  }

  function Last(vs: seq<File>): File
    requires |vs| > 0
  {
    vs[|vs| - 1]
  }

  /** Each byte of a crash survivor comes from some version; a byte past a version's end counts as zero. */
  ghost predicate Torn(c: File, vs: seq<File>)
    requires |vs| > 0
  {
    && |vs[0]| <= |c| <= |Last(vs)|
    && forall i :: 0 <= i < |c| ==> exists j :: 0 <= j < |vs| && c[i] == ByteAt(vs[j], i)
  }

  ghost predicate AllHold(vs: seq<File>, k: nat, p: Page) {
    forall j :: 0 <= j < |vs| ==> Holds(vs[j], k, p)
  }

  /** A page on which all versions agree survives any tearing. */
  lemma TornKeeps(c: File, vs: seq<File>, k: nat, p: Page)
    requires |vs| > 0 && Torn(c, vs) && AllHold(vs, k, p)
    ensures Holds(c, k, p)
  {
    assert Holds(vs[0], k, p);
    forall i | 0 <= i < 4096
      ensures c[4096 * k + i] == p[i]
    {
      var at := 4096 * k + i;
      var j :| 0 <= j < |vs| && c[at] == ByteAt(vs[j], at);
      assert Holds(vs[j], k, p);
      assert vs[j][4096 * k + i] == p[i];
    }
  }

  lemma AppendVersion(vs: seq<File>, v: File, k: nat, p: Page)
    requires AllHold(vs, k, p) && Holds(v, k, p)
    ensures AllHold(vs + [v], k, p)
  {
  }

  lemma AppendVersions(vs: seq<File>, v: File)
    requires Versions(vs) && |Last(vs)| <= |v|
    ensures Versions(vs + [v])
  {
  }

  // ----- opening

  datatype OpenError = TooSmall | BadHeader(error: FileHeader.HeaderError) | TooShort

  datatype Opening = Opened(pageCount: U64) | Refused(error: OpenError)

  /** `DiskManager::open`: a longer file than the header claims is expected, a shorter one means lost pages. */
  function Open(f: File): Opening {
    if |f| < 4096 then Refused(TooSmall)
    else
      match FileHeader.Decode(f[..4096])
      case Rejected(e) => Refused(BadHeader(e))
      case Header(n) => if |f| < 4096 * n then Refused(TooShort) else Opened(n)
  }

  lemma OpenOfHeader(f: File, n: U64)
    requires n > 0 && Holds(f, 0, FileHeader.Encode(n)) && 4096 * n <= |f|
    ensures Open(f) == Opened(n)
  {
    FileHeader.RoundTrip(n);
    HoldsUnique(f, 0, FileHeader.Encode(n));
    assert f[..4096] == PageAt(f, 0);
  }

  /** Exactly the files that begin with a header and are long enough for its count are opened. */
  lemma OpenExact(f: File, n: U64)
    ensures Open(f) == Opened(n) <==> 4096 * n <= |f| && 4096 <= |f| && FileHeader.IsHeader(f[..4096], n)
  {
    hide FileHeader.IsHeader, FileHeader.Decode;
    if 4096 <= |f| {
      FileHeader.DecodeExact(f[..4096], n);
    }
  }

  /** What a file is refused for. */
  lemma OpenRefuses(f: File)
    ensures Open(f) == Refused(TooSmall) <==> |f| < 4096
    ensures Open(f) == Refused(TooShort) <==>
      4096 <= |f| && exists n: U64 :: FileHeader.IsHeader(f[..4096], n) && |f| < 4096 * n
  {
    hide FileHeader.IsHeader, FileHeader.Decode;
    if 4096 <= |f| {
      forall n: U64
        ensures FileHeader.Decode(f[..4096]) == FileHeader.Header(n) <==> FileHeader.IsHeader(f[..4096], n)
      {
        FileHeader.DecodeExact(f[..4096], n);
      }
    }
  }

  datatype ReadError = NotADataPage | EndOfFile | Corrupt(error: PageError)

  datatype Reading = Read(page: Page) | Failed(error: ReadError)

  /** `DiskManager::read_page`: bounds, bytes, then verification. */
  function ReadPage(f: File, pageCount: nat, id: PageId): Reading {
    if id == 0 || id >= pageCount then Failed(NotADataPage)
    else if |f| < 4096 * id + 4096 then Failed(EndOfFile)
    else
      match Verify(PageAt(f, id), id)
      case Bad(e) => Failed(Corrupt(e))
      case Good(_) => Read(PageAt(f, id))
  }

  /** Exactly the verified pages standing in the file inside the count are read. */
  lemma ReadExact(f: File, pageCount: nat, id: PageId, p: Page)
    ensures ReadPage(f, pageCount, id) == Read(p) <==> 0 < id < pageCount && Holds(f, id, p) && Verified(p, id)
  {
    hide Verify;
    if Holds(f, id, p) {
      HoldsUnique(f, id, p);
    }
  }

  /** What a page is refused for. */
  lemma ReadRefuses(f: File, pageCount: nat, id: PageId)
    ensures ReadPage(f, pageCount, id) == Failed(NotADataPage) <==> id == 0 || id >= pageCount
    ensures ReadPage(f, pageCount, id) == Failed(EndOfFile) <==>
      0 < id < pageCount && forall p: Page :: !Holds(f, id, p)
    ensures forall e :: ReadPage(f, pageCount, id) == Failed(Corrupt(e)) <==>
      0 < id < pageCount && exists p: Page :: Holds(f, id, p) && Verify(p, id) == Bad(e)
  {
    hide Verify;
    if 4096 * id + 4096 <= |f| {
      assert Holds(f, id, PageAt(f, id));
      forall p: Page | Holds(f, id, p)
        ensures p == PageAt(f, id)
      {
        HoldsUnique(f, id, p);
      }
    }
  }

  lemma ReadBack(f: File, pageCount: nat, id: PageId, p: Page)
    requires 0 < id < pageCount && Holds(f, id, p) && Verified(p, id)
    ensures ReadPage(f, pageCount, id) == Read(p)
  {
    HoldsUnique(f, id, p);
  }
}
