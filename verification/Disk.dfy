/** The handle through which pages reach the data file. */
module Disk {
  import opened Bytes
  import opened Pages
  import opened DataFile
  import opened Fsync
  import FileHeader

  datatype Error = OutOfBounds | HeaderPage | Misdirected | Io | Unreadable(error: ReadError) | Shrink

  datatype Outcome = Ok | Err(error: Error)

  /** The bytes where page `k` is or would be. */
  function DiskBytes(f: File, k: nat): (p: Page)
    ensures forall i :: 0 <= i < 4096 ==> p[i] == ByteAt(f, 4096 * k + i)
  {
    seq(4096, i requires 0 <= i < 4096 => ByteAt(f, 4096 * k + i))
  }

  lemma DiskBytesOfHolds(f: File, k: nat, p: Page)
    requires Holds(f, k, p)
    ensures DiskBytes(f, k) == p
  {
    assert forall i :: 0 <= i < 4096 ==> DiskBytes(f, k)[i] == p[i];
  }

  lemma DiskBytesOfWrite(f: File, k: nat, p: Page, j: nat)
    ensures DiskBytes(WritePage(f, k, p), j) == if j == k then p else DiskBytes(f, j)
  {
    var g := WritePage(f, k, p);
    var q := if j == k then p else DiskBytes(f, j);
    forall i | 0 <= i < 4096
      ensures DiskBytes(g, j)[i] == q[i]
    {
      var at := 4096 * j + i;
      assert (4096 * k <= at < 4096 * k + 4096) <==> j == k;
    }
  }

  lemma DiskBytesOfPartialWrite(v: File, f: File, k: nat, p: Page, j: nat)
    requires PartlyWritten(v, f, k, p) && j != k
    ensures DiskBytes(v, j) == DiskBytes(f, j)
  {
    var g := WritePage(f, k, p);
    DiskBytesOfWrite(f, k, p, j);
    forall i | 0 <= i < 4096
      ensures DiskBytes(v, j)[i] == DiskBytes(f, j)[i]
    {
      var at := 4096 * j + i;
      assert DiskBytes(g, j)[i] == DiskBytes(f, j)[i];
      assert at < |v| ==> ByteAt(v, at) == v[at];
    }
  }

  /** How writing `page` as page `id` turns out: refusals first, then the answer of the system. */
  function WriteOutcome(id: PageId, page: Page, count: nat, io: WriteIo): Outcome {
    if id == 0 then Err(HeaderPage)
    else if id >= count then Err(OutOfBounds)
    else if PageIdOf(page) != id then Err(Misdirected)
    else if io.WriteDone? then Ok else Err(Io)
  }

  /** A page naming its own id inside the page count, other than the header, is written if the system does it. */
  lemma WriteGoes(id: PageId, page: Page, count: nat, io: WriteIo)
    ensures WriteOutcome(id, page, count, io).Ok? <==> 0 < id < count && PageIdOf(page) == id && io.WriteDone?
    ensures Verified(page, id) && 0 < id < count ==>
      WriteOutcome(id, page, count, io) == if io.WriteDone? then Ok else Err(Io)
  {
  }

  class DiskManager {
    var file: File            // contents as this process reads them
    var pageCount: U64

    ghost var files: seq<File>   // contents a crash may bring up, the current ones last
    ghost var fault: Fault       // whether an fsync failed, and what has been rewritten since

    ghost predicate Valid()
      reads this
    {
      |files| > 0 && Versions(files) && Last(files) == file && FaultInv(files, fault) && pageCount >= 1
    }

    constructor Create()
      ensures Valid() && pageCount == 1 && files == [FileHeader.Encode(1)] && fault == NoFault
    {
      hide FileHeader.Encode;
      file := FileHeader.Encode(1);
      pageCount := 1;
      files := [FileHeader.Encode(1)];
      fault := NoFault;
    }

    /** Opens a file that passes the checks; `files` and `fault` are what its past has left open. */
    constructor Attach(file: File, count: U64, ghost files: seq<File>, ghost fault: Fault)
      requires Versions(files) && Last(files) == file && FaultInv(files, fault)
      requires DataFile.Open(file) == Opened(count)
      ensures Valid() && pageCount == count && this.file == file && this.files == files && this.fault == fault
    {
      this.file := file;
      this.files := files;
      this.fault := fault;
      pageCount := count;
      new;
      OpenedCount(file, count);
    }

    function Current(): File
      reads this
    {
      file
    }

    method SetPageCount(count: U64) returns (r: Outcome)
      requires Valid()
      modifies this
      ensures Valid() && files == old(files) && fault == old(fault) && file == old(file)
      ensures r == if count < old(pageCount) then Err(Shrink) else Ok
      ensures pageCount == if r.Ok? then count else old(pageCount)
    {
      if count < pageCount {
        return Err(Shrink);
      }
      pageCount := count;
      return Ok;
    }

    /** One write: every version so far is still possible after a crash, the new one joins them. */
    method WriteAt(k: PageId, p: Page, io: WriteIo) returns (r: Outcome)
      requires Valid()
      modifies this
      ensures Valid() && pageCount == old(pageCount) && files == old(files) + [file]
      ensures r == if io.WriteDone? then Ok else Err(Io)
      ensures if r.Ok? then file == DataFile.WritePage(old(file), k, p) && fault == Rewritten(old(fault), k, p)
              else PartlyWritten(file, old(file), k, p) && fault == Disturbed(old(fault), k)
      ensures r.Ok? ==> Holds(file, k, p) && DiskBytes(file, k) == p
      ensures forall j: nat :: j != k ==> DiskBytes(file, j) == DiskBytes(old(file), j)
      ensures forall j: nat, q: Page :: j != k && Holds(old(file), j, q) ==> Holds(file, j, q)
    {
      hide DataFile.WritePage, PartlyWritten, Holds, FaultInv;
      ghost var before := file;
      file := AfterWrite(file, k, p, io);
      AppendVersions(files, file);
      if io.WriteDone? {
        FaultAfterWrite(files, fault, k, p);
        fault := Rewritten(fault, k, p);
      } else {
        FaultAfterPart(files, fault, k, p, file);
        fault := Disturbed(fault, k);
      }
      files := files + [file];
      WriteHolds(before, k, p);
      DiskBytesOfWrite(before, k, p, k);
      OthersAfterWrite(before, file, k, p, io.WriteDone?);
      r := if io.WriteDone? then Ok else Err(Io);
    }

    method WriteFileHeader(io: WriteIo) returns (r: Outcome)
      requires Valid()
      modifies this
      ensures Valid() && pageCount == old(pageCount) && files == old(files) + [file]
      ensures r == if io.WriteDone? then Ok else Err(Io)
      ensures var p := FileHeader.Encode(pageCount);
        if r.Ok? then file == DataFile.WritePage(old(file), 0, p) && fault == Rewritten(old(fault), 0, p)
        else PartlyWritten(file, old(file), 0, p) && fault == Disturbed(old(fault), 0)
      ensures r.Ok? ==> Holds(file, 0, FileHeader.Encode(pageCount))
      ensures forall k: nat :: k > 0 ==> DiskBytes(file, k) == DiskBytes(old(file), k)
    {
      hide FileHeader.Encode, DataFile.WritePage, PartlyWritten, Holds;
      r := WriteAt(0, FileHeader.Encode(pageCount), io);
    }

    method ReadPage(id: PageId, ioFailed: bool) returns (r: Outcome, page: Page)
      requires Valid()
      ensures r == if ioFailed then Err(Io)
                   else match DataFile.ReadPage(file, pageCount, id)
                        case Read(_) => Ok
                        case Failed(e) => Err(Unreadable(e))
      ensures r.Ok? ==> !ioFailed && DataFile.ReadPage(file, pageCount, id) == Read(page)
      ensures r.Ok? ==> 0 < id < pageCount && Holds(file, id, page) && Verified(page, id)
    {
      page := Zeros(4096);
      var reading := DataFile.ReadPage(file, pageCount, id);
      if ioFailed {
        return Err(Io), page;
      }
      match reading
      case Failed(e) => r := Err(Unreadable(e));
      case Read(p) =>
        page := p;
        r := Ok;
    }

    /** Seals its argument in place and writes it; refuses pages that are not where they say they are. */
    method WritePage(id: PageId, page: Page, io: WriteIo) returns (r: Outcome, written: Page)
      requires Valid()
      modifies this
      ensures Valid() && pageCount == old(pageCount)
      ensures written[4..] == page[4..] && written == if r.Ok? || r.error.Io? then Sealed(page) else page
      ensures r == WriteOutcome(id, page, pageCount, io)
      ensures r.Ok? ==> written == Sealed(page) && DiskBytes(file, id) == written && Holds(file, id, written)
      ensures forall k: nat :: k != id ==> DiskBytes(file, k) == DiskBytes(old(file), k)
      ensures forall k: nat, p: Page :: k != id && Holds(old(file), k, p) ==> Holds(file, k, p)
      ensures r.Ok? ==> file == DataFile.WritePage(old(file), id, Sealed(page)) && files == old(files) + [file]
      ensures r.Ok? ==> fault == Rewritten(old(fault), id, Sealed(page))
      ensures r == Err(Io) ==> PartlyWritten(file, old(file), id, Sealed(page)) && files == old(files) + [file]
      ensures r == Err(Io) ==> fault == Disturbed(old(fault), id)
      ensures r.Err? && r.error != Io ==> file == old(file) && files == old(files) && fault == old(fault)
    {
      hide Holds, Sealed, DataFile.WritePage, PartlyWritten;
      written := page;
      if id == 0 {
        return Err(HeaderPage), written;
      }
      if id >= pageCount {
        return Err(OutOfBounds), written;
      }
      if PageIdOf(page) != id {
        return Err(Misdirected), written;
      }
      written := Sealed(page);
      r := WriteAt(id, written, io);
    }

    /**
     * Success makes everything written so far durable, unless an earlier fsync failed: then only what
     * was written again since. A failure leaves every version possible, and nothing sure.
     */
    method Sync(io: SyncIo) returns (r: Outcome)
      requires Valid()
      modifies this
      ensures Valid() && pageCount == old(pageCount) && file == old(file)
      ensures r == if io.SyncDone? then Ok else Err(Io)
      ensures io.SyncDone? ==> files == AfterFsync(old(files), old(fault)) && fault == old(fault)
      ensures io.SyncFailed? ==> files == old(files) && fault == Fault(map[])
    {
      hide FaultInv, AfterFsync;
      if io.SyncFailed? {
        assert FaultInv(files, Fault(map[])) by { NothingRewritten(files); }
        fault := Fault(map[]);
        return Err(Io);
      }
      SyncedVersions(files, fault);
      SyncedLast(files, fault);
      files := AfterFsync(files, fault);
      return Ok;
    }
  }

  lemma NothingRewritten(files: seq<File>)
    requires |files| > 0
    ensures FaultInv(files, Fault(map[]))
  {
  }

  /** A write, whole or in part, leaves all other pages alone. */
  lemma OthersAfterWrite(f: File, g: File, k: nat, p: Page, whole: bool)
    requires if whole then g == WritePage(f, k, p) else PartlyWritten(g, f, k, p)
    ensures forall j: nat :: j != k ==> DiskBytes(g, j) == DiskBytes(f, j)
    ensures forall j: nat, q: Page :: j != k && Holds(f, j, q) ==> Holds(g, j, q)
  {
    hide WritePage, PartlyWritten, Holds, DiskBytes;
    forall j: nat | j != k
      ensures DiskBytes(g, j) == DiskBytes(f, j)
    {
      if whole {
        DiskBytesOfWrite(f, k, p, j);
      } else {
        DiskBytesOfPartialWrite(g, f, k, p, j);
      }
    }
    forall j: nat, q: Page | j != k && Holds(f, j, q)
      ensures Holds(g, j, q)
    {
      if whole {
        WriteKeeps(f, k, p, j, q);
      } else {
        PartlyWrittenKeeps(g, f, k, p, j, q);
      }
    }
  }

  lemma OpenedCount(f: File, count: U64)
    requires DataFile.Open(f) == Opened(count)
    ensures count >= 1
  {
  }
}
