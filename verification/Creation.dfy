/** Making a new database: two files, one after the other, each durable before the next is begun. */
module Creation {
  import opened Bytes
  import opened Crc32c
  import opened Pages
  import opened WalRecord
  import opened WalLog
  import opened DataFile
  import opened Recovery
  import opened Engine
  import opened EngineInvariant
  import opened Disk
  import opened WalHandle
  import opened CrashSafety
  import opened Database
  import FileHeader
  import DiskInvariant
  import Store

  /** A file that is not there yet; one that may be there, with part of its contents; and one that is durable. */
  datatype Stage = NotMade | Making | Made

  datatype Left = Nothing | Bytes(contents: seq<Byte>)

  /** Some of the bytes of `whole`, zeros where none have arrived, cut anywhere. */
  ghost predicate Fragment(c: seq<Byte>, whole: seq<Byte>) {
    |c| <= |whole| && forall i :: 0 <= i < |c| ==> c[i] == 0 || c[i] == whole[i]
  }

  /** What there is of a file when its making was interrupted, by a failing call or a crash. */
  ghost predicate MayLeave(stage: Stage, whole: seq<Byte>, left: Left) {
    match stage
    case NotMade => left.Nothing?
    case Making => left.Nothing? || Fragment(left.contents, whole)
    case Made => left == Bytes(whole)
  }

  /** The log is begun only when the data file is durable. */
  predicate Ordered(data: Stage, log: Stage) { log.NotMade? || data.Made? }

  /** How the calls that make one file go: create it, write it, fsync it and its directory. */
  datatype MakeIo = MakeDone | NotOpened | NotWritten

  function StageAfter(io: MakeIo): Stage {
    match io
    case MakeDone => Made
    case NotOpened => NotMade
    case NotWritten => Making
  }

  /** `Database::create`, with every call that may fail; the stages say what of the two files there then is. */
  method CreateDatabase(auto: AutoCheckpoint, dataIo: MakeIo, logIo: MakeIo)
    returns (db: Database?, ghost data: Stage, ghost log: Stage)
    ensures db != null <==> dataIo.MakeDone? && logIo.MakeDone?
    ensures db != null ==> fresh(db) && db.Valid() && db.states == [Initial()] && db.auto == auto
    ensures data == StageAfter(dataIo) && log == if data.Made? then StageAfter(logIo) else NotMade
    ensures Ordered(data, log)
  {
    hide Inv, SafePath, Handle.Valid, DiskManager.Valid, IsTables, FileHeader.Encode;
    if !dataIo.MakeDone? {
      return null, StageAfter(dataIo), NotMade;
    }
    if !logIo.MakeDone? {
      return null, Made, StageAfter(logIo);
    }
    db := new Database.Create(auto);
    return db, Made, Made;
  }

  // ----- what the next attempt to open finds

  datatype Next = Creates | Opens(db: Reopened) | Refuses

  /** `Database::open`: creates what is not there; a missing log has nothing to recover; a log alone is refused. */
  ghost function NextOpen(data: Left, log: Left): Next {
    if data.Nothing? then if log.Nothing? then Creates else Refuses
    else if log.Nothing? then
      match DataFile.Open(data.contents)
      case Opened(n) => Opens(Usable(data.contents, n))
      case Refused(_) => Refuses
    else
      match OpenDatabase(data.contents, log.contents)
      case Usable(f, n) => Opens(Usable(f, n))
      case Unusable => Refuses
  }

  /** A new, empty database comes up. */
  ghost predicate ComesUp(next: Next) { next.Creates? || (next.Opens? && Yields(next.db, Store.Fresh())) }

  /** A page count of one with bytes missing is one, or none. */
  lemma CountBytes(b: seq<Byte>)
    requires |b| == 8 && (forall i :: 0 <= i < 8 ==> b[i] == 0 || b[i] == Le64(1)[i]) && FromLe64(b) != 0
    ensures b == Le64(1)
  {
    hide FromLe64;
    SmallNumber(1);
    SmallNumber(0);
    assert b != [ByteOf(0)] + Zeros(7);
    assert b == [ByteOf(1)] + Zeros(7);
  }

  /** Of a new header page with bytes missing, nothing but the whole passes, whatever the checksum. */
  lemma HeaderWhole(c: File)
    requires Fragment(c, FileHeader.Encode(1)) && DataFile.Open(c).Opened?
    ensures c == FileHeader.Encode(1)
  {
    hide Checksum, Sealed, FromLe64, FromLe32, Le32, Le64;
    var p: Page := FileHeader.Encode(1);
    var q: Page := c[..4096];
    assert c == q;
    assert q[4..] == p[4..] by { BodyWhole(q); }
    if q != p {
      StoredDiffers(p, q);
    }
  }

  lemma BodyWhole(q: Page)
    requires Fragment(q, FileHeader.Encode(1)) && FileHeader.Decode(q).Header?
    ensures q[4..] == FileHeader.Encode(1)[4..]
  {
    hide Checksum, Sealed, FromLe64, FromLe32, Le32, Le64;
    var f, p: Page := FileHeader.Fields(1), FileHeader.Encode(1);
    FileHeader.FieldsAt(1);
    assert p[4..] == f[4..];
    SlicesWhole(q, f, p);
    forall i | 4 <= i < 4096
      ensures q[i] == f[i]
    {
      assert p[i] == p[4..][i - 4] && f[i] == f[4..][i - 4];
      if i < 12 {
        assert q[i] == q[4..12][i - 4] && f[i] == f[4..12][i - 4];
      } else if i < 16 {
        assert q[i] == q[12..16][i - 12] && f[i] == f[12..16][i - 12];
      } else if i < 20 {
        assert q[i] == q[16..20][i - 16] && f[i] == f[16..20][i - 16];
      } else if i < 28 {
        assert q[i] == q[20..28][i - 20] && f[i] == f[20..28][i - 20];
      }
    }
    assert q[4..] == f[4..];
  }

  lemma SlicesWhole(q: Page, f: Page, p: Page)
    requires Fragment(q, p) && FileHeader.Decode(q).Header? && p[4..] == f[4..]
    requires f[4..12] == FileHeader.MAGIC && f[12..16] == Le32(FileHeader.FORMAT_VERSION)
    requires f[16..20] == Le32(4096) && f[20..28] == Le64(1)
    ensures q[4..12] == f[4..12] && q[12..16] == f[12..16] && q[16..20] == f[16..20] && q[20..28] == f[20..28]
  {
    hide Checksum, FromLe64, FromLe32, Le32, Le64;
    FromLe32Bytes(q[12..16]);
    FromLe32Bytes(q[16..20]);
    FileHeader.SliceOfBody(p, f, 20, 28);
    forall i | 0 <= i < 8
      ensures q[20..28][i] == 0 || q[20..28][i] == Le64(1)[i]
    {
      assert q[20..28][i] == q[20 + i] && p[20..28][i] == p[20 + i];
    }
    CountBytes(q[20..28]);
  }

  /** Likewise of a new log header. */
  lemma LogWhole(w: seq<Byte>)
    requires Fragment(w, EncodeHeader(0)) && WalLog.Open(w).Opened?
    ensures w == EncodeHeader(0)
  {
    hide Checksum, FromLe64, FromLe32, Le32, Scan;
    HeaderOfDecode(w);
    assert w[..24] == w;
    SmallNumber(0);
    var h := EncodeHeader(0);
    forall i | 0 <= i < 8
      ensures w[16..24][i] == Le64(0)[i]
    {
      assert h[16 + i] == Le64(0)[i];
    }
    assert w[16..24] == Le64(0);
  }

  /** An empty log over the header page of an empty database. */
  lemma FreshOpens()
    ensures DataFile.Open(FileHeader.Encode(1)) == DataFile.Opened(1)
    ensures Yields(Usable(FileHeader.Encode(1), 1), Store.Fresh())
    ensures OpenDatabase(FileHeader.Encode(1), EncodeHeader(0)) == Usable(FileHeader.Encode(1), 1)
  {
    hide FileHeader.Encode, EncodeHeader, Scan, Redo, Overlay, ImagesValid;
    var f := FileHeader.Encode(1);
    assert f[..4096] == f;
    FileHeader.RoundTrip(1);
    EmptyLog();
    RedoOfNothing();
    DiskInvariant.NothingIsValid();
    OverlayNothing(f);
  }

  lemma EmptyLog()
    ensures WalLog.Open(EncodeHeader(0)).Opened? && WalLog.Open(EncodeHeader(0)).records == []
  {
    hide EncodeHeader;
    HeaderRoundTrip(0, []);
    assert EncodeHeader(0) + [] == EncodeHeader(0) && EncodeHeader(0)[WAL_HEADER_SIZE..] == [];
    ScanNothing(0);
  }

  /**
   * When creating a database is interrupted, wherever and by whatever, the next attempt to open it brings up
   * the empty database if and only if neither file is there, or the data file is there in full and the log is
   * missing or there in full. Otherwise it is refused, and so is every later one: nothing removes the
   * remains.
   */
  lemma CreationExact(data: Stage, log: Stage, d: Left, l: Left)
    requires Ordered(data, log)
    requires MayLeave(data, FileHeader.Encode(1), d) && MayLeave(log, EncodeHeader(0), l)
    ensures ComesUp(NextOpen(d, l)) <==>
      (d.Nothing? && l.Nothing?) || (d == Bytes(FileHeader.Encode(1)) && (l.Nothing? || l == Bytes(EncodeHeader(0))))
    ensures !ComesUp(NextOpen(d, l)) ==> NextOpen(d, l).Refuses?
  {
    hide FileHeader.Encode, EncodeHeader, OpenDatabase, Yields, DataFile.Open, WalLog.Open;
    FreshOpens();
    if d.Bytes? && DataFile.Open(d.contents).Opened? {
      if data.Making? {
        HeaderWhole(d.contents);
      }
    }
    if d.Bytes? && l.Bytes? {
      LogDecides(d.contents, l.contents);
      if log.Making? && WalLog.Open(l.contents).Opened? {
        LogWhole(l.contents);
      }
    }
  }

  lemma LogDecides(f: File, w: seq<Byte>)
    ensures WalLog.Open(w).Refused? ==> OpenDatabase(f, w).Unusable?
  {
    hide WalLog.Open, DataFile.Open, Overlay, Redo, ImagesValid;
  }

  /** Once it has returned without an error, no crash can undo it. */
  lemma CreatedStays(d: Left, l: Left)
    requires MayLeave(Made, FileHeader.Encode(1), d) && MayLeave(Made, EncodeHeader(0), l)
    ensures ComesUp(NextOpen(d, l))
  {
    hide FileHeader.Encode, EncodeHeader, ComesUp, NextOpen;
    CreationExact(Made, Made, d, l);
  }

  /** The remains of an interrupted creation: a data file without its contents is never opened again. */
  lemma EmptyFileBlocks()
    ensures MayLeave(Making, FileHeader.Encode(1), Bytes([])) && NextOpen(Bytes([]), Nothing).Refuses?
  {
    hide FileHeader.Encode;
  }
}
