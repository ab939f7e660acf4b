/** The file header stored in page 0. */
module FileHeader {
  import opened Bytes
  import opened Crc32c
  import opened Pages

  const MAGIC: seq<Byte> := [0x6F, 0x78, 0x65, 0x6E, 0x44, 0x42, 0, 0]   // "oxenDB\0\0"
  const FORMAT_VERSION: bv32 := 1

  datatype HeaderError = NotADatabase | HeaderChecksum | FutureVersion | OtherPageSize | ZeroPages

  datatype Decoded = Header(pageCount: U64) | Rejected(error: HeaderError)

  /** The layout of the header fields, before the checksum is filled in. */
  function Fields(pageCount: U64): (p: Page) {
    Zeros(4) + MAGIC + Le32(FORMAT_VERSION) + Le32(4096) + Le64(pageCount) + Zeros(4068)
  }

  function Encode(pageCount: U64): Page {
    Sealed(Fields(pageCount))
  }

  /** The chain of checks, in the order that reports a foreign file as such. */
  function Decode(p: Page): Decoded {
    if p[4..12] != MAGIC then Rejected(NotADatabase)
    else if StoredChecksum(p) != ActualChecksum(p) then Rejected(HeaderChecksum)
    else if FromLe32(p[12..16]) != FORMAT_VERSION then Rejected(FutureVersion)
    else if FromLe32(p[16..20]) != 4096 then Rejected(OtherPageSize)
    else if FromLe64(p[20..28]) == 0 then Rejected(ZeroPages)
    else Header(FromLe64(p[20..28]))
  }

  lemma FieldsAt(pageCount: U64)
    ensures var p := Fields(pageCount);
      p[4..12] == MAGIC && p[12..16] == Le32(FORMAT_VERSION) && p[16..20] == Le32(4096) && p[20..28] == Le64(pageCount)
  {
  }

  lemma SliceOfBody(p: Page, q: Page, lo: nat, hi: nat)
    requires p[4..] == q[4..] && 4 <= lo <= hi <= 4096
    ensures p[lo..hi] == q[lo..hi]
  {
    forall i | lo <= i < hi
      ensures p[i] == q[i]
    {
      assert p[i] == p[4..][i - 4] && q[i] == q[4..][i - 4];
    }
  }

  /** A written header reads back; a header claiming zero pages is refused. */
  lemma RoundTrip(pageCount: U64)
    ensures Decode(Encode(pageCount)) == if pageCount == 0 then Rejected(ZeroPages) else Header(pageCount)
  {
    var p, q := Fields(pageCount), Encode(pageCount);
    FieldsAt(pageCount);
    SliceOfBody(p, q, 4, 12);
    SliceOfBody(p, q, 12, 16);
    SliceOfBody(p, q, 16, 20);
    SliceOfBody(p, q, 20, 28);
  }

  /** Magic "oxenDB" with two zero bytes, version 1, page size 4096, as they stand on disk. */
  function FixedBytes(): (b: seq<Byte>)
    ensures |b| == 16
  {
    [0x6F, 0x78, 0x65, 0x6E, 0x44, 0x42, 0, 0] + [1, 0, 0, 0] + [0, 0x10, 0, 0]
  }

  /** A header of `n` pages: fixed bytes, count and a right checksum. Nothing is asked of the rest of the page. */
  predicate IsHeader(p: Page, n: U64) {
    n > 0 && StoredChecksum(p) == ActualChecksum(p) && p[4..20] == FixedBytes() && p[20..28] == Le64(n)
  }

  lemma FixedAre()
    ensures FixedBytes() == MAGIC + Le32(FORMAT_VERSION) + Le32(4096)
  {
  }

  /** Exactly the headers are accepted, and with the count they name. */
  lemma DecodeExact(p: Page, n: U64)
    ensures Decode(p) == Header(n) <==> IsHeader(p, n)
    ensures IsHeader(p, n) <==> n > 0 && StoredChecksum(p) == ActualChecksum(p) && p[4..28] == Encode(n)[4..28]
  {
    hide Checksum, FromLe32, FromLe64, Le32, Le64, Sealed, FixedBytes;
    FromLe32Bytes(p[12..16]);
    FromLe32Bytes(p[16..20]);
    Le64OfFromLe64(p[20..28]);
    SlicesAre(p);
    EncodedAt(n);
    assert p[4..28][..16] == p[4..20] && p[4..28][16..] == p[20..28];
    assert (FixedBytes() + Le64(n))[..16] == FixedBytes() && (FixedBytes() + Le64(n))[16..] == Le64(n);
    assert p[4..28] == p[4..20] + p[20..28];
  }

  lemma SlicesAre(p: Page)
    ensures p[4..20] == FixedBytes() <==>
      p[4..12] == MAGIC && p[12..16] == Le32(FORMAT_VERSION) && p[16..20] == Le32(4096)
  {
    hide Le32, FixedBytes;
    FixedAre();
    var m := MAGIC;
    var b := m + Le32(FORMAT_VERSION) + Le32(4096);
    assert p[4..20] == p[4..12] + p[12..16] + p[16..20];
    assert p[4..20][..8] == p[4..12] && p[4..20][8..12] == p[12..16] && p[4..20][12..] == p[16..20];
    assert b[..8] == m && b[8..12] == Le32(FORMAT_VERSION) && b[12..] == Le32(4096);
  }

  /** What any other page is refused for: a foreign file as such, then damage, then what the header says. */
  lemma DecodeRefuses(p: Page)
    ensures Decode(p) == Rejected(NotADatabase) <==> p[4..12] != FixedBytes()[..8]
    ensures Decode(p) == Rejected(HeaderChecksum) <==> p[4..12] == FixedBytes()[..8] && Sealed(p) != p
    ensures Decode(p) == Rejected(FutureVersion) <==>
      p[4..12] == FixedBytes()[..8] && Sealed(p) == p && p[12..16] != FixedBytes()[8..12]
    ensures Decode(p) == Rejected(OtherPageSize) <==>
      p[4..12] == FixedBytes()[..8] && Sealed(p) == p && p[12..16] == FixedBytes()[8..12]
      && p[16..20] != FixedBytes()[12..]
    ensures Decode(p) == Rejected(ZeroPages) <==> Sealed(p) == p && p[4..20] == FixedBytes() && p[20..28] == Le64(0)
  {
    hide Checksum, FromLe32, FromLe64, Le32, Le64, FixedBytes;
    FromLe32Bytes(p[12..16]);
    FromLe32Bytes(p[16..20]);
    Le64OfFromLe64(p[20..28]);
    SlicesAre(p);
    FixedAre();
    var b := MAGIC + Le32(FORMAT_VERSION) + Le32(4096);
    assert b[..8] == MAGIC && b[8..12] == Le32(FORMAT_VERSION) && b[12..] == Le32(4096);
    SealedIff(p);
  }

  lemma EncodedAt(n: U64)
    ensures Encode(n)[4..28] == FixedBytes() + Le64(n)
    ensures forall i :: 28 <= i < 4096 ==> Encode(n)[i] == 0
  {
    hide Checksum, Le32, Le64, FixedBytes;
    var f, e := Fields(n), Encode(n);
    FixedAre();
    FieldsAt(n);
    SliceOfBody(f, e, 4, 28);
    assert f[4..28] == f[4..12] + f[12..16] + f[16..20] + f[20..28];
    forall i | 28 <= i < 4096
      ensures e[i] == 0
    {
      assert e[i] == e[4..][i - 4] && f[i] == f[4..][i - 4];
    }
  }

  /** A header page with any version, page size and count, and the checksum that goes with them. */
  function HeaderOf(version: bv32, pageSize: bv32, pageCount: U64): Page {
    Sealed(Zeros(4) + MAGIC + Le32(version) + Le32(pageSize) + Le64(pageCount) + Zeros(4068))
  }

  /** Future versions, other page sizes and empty databases are refused as such, in this order. */
  lemma OtherFormatsRejected(version: bv32, pageSize: bv32, pageCount: U64)
    ensures Decode(HeaderOf(version, pageSize, pageCount))
         == if version != 1 then Rejected(FutureVersion)
            else if pageSize != 4096 then Rejected(OtherPageSize)
            else if pageCount == 0 then Rejected(ZeroPages)
            else Header(pageCount)
  {
    hide Checksum, FromLe32, FromLe64, Le32, Le64;
    var p: Page := Zeros(4) + MAGIC + Le32(version) + Le32(pageSize) + Le64(pageCount) + Zeros(4068);
    var q := Sealed(p);
    assert p[4..12] == MAGIC && p[12..16] == Le32(version);
    assert p[16..20] == Le32(pageSize) && p[20..28] == Le64(pageCount);
    SliceOfBody(p, q, 4, 12);
    SliceOfBody(p, q, 12, 16);
    SliceOfBody(p, q, 16, 20);
    SliceOfBody(p, q, 20, 28);
  }

  /** Different counts give different header pages, so equal header bytes mean equal counts. */
  lemma EncodeInjective(m: U64, n: U64)
    requires m > 0 && Encode(m) == Encode(n)
    ensures m == n
  {
    RoundTrip(m);
    RoundTrip(n);
  }

  /**
   * Changes confined to any four consecutive bytes of a valid header never decode. Where they straddle the
   * end of the checksum field they touch the magic.
   */
  lemma BurstRejected(p: Page, q: Page, at: nat)
    requires Decode(p).Header? && Burst(p, q, at)
    ensures Decode(q).Rejected?
  {
    hide Checksum, Verify;
    if at == 0 || at >= 4 {
      BurstKeepsNoChecksum(p, q, at);
    } else if q[4..12] == MAGIC {
      assert p[4..] == q[4..] by {
        forall i | 4 <= i < 4096
          ensures p[i] == q[i]
        {
          if i < 12 {
            assert p[i] == p[4..12][i - 4] && q[i] == q[4..12][i - 4];
          }
        }
      }
      StoredDiffers(p, q);
    }
  }

  lemma BurstKeepsNoChecksum(p: Page, q: Page, at: nat)
    requires StoredChecksum(p) == ActualChecksum(p) && Burst(p, q, at) && (at == 0 || at >= 4)
    ensures StoredChecksum(q) != ActualChecksum(q)
  {
    BurstMismatch(p, q, at, 0);
  }

  /** `FileHeader::encode`: fills a zeroed page field by field, then stores the checksum. */
  method EncodeInto(t: array2<bv32>, pageCount: U64) returns (data: array<Byte>)
    requires IsTables(t)
    ensures data.Length == 4096 && fresh(data)
    ensures data[..] == Encode(pageCount)
  {
    data := new Byte[4096](_ => 0);
    assert data[..] == Zeros(4096);
    CopyInto(data, 4, MAGIC);
    assert data[..] == Zeros(4) + MAGIC + Zeros(4084);
    CopyInto(data, 12, Le32(FORMAT_VERSION));
    assert data[..] == Zeros(4) + MAGIC + Le32(FORMAT_VERSION) + Zeros(4080);
    CopyInto(data, 16, Le32(4096));
    assert data[..] == Zeros(4) + MAGIC + Le32(FORMAT_VERSION) + Le32(4096) + Zeros(4076);
    CopyInto(data, 20, Le64(pageCount));
    assert data[..] == Fields(pageCount);
    Seal(t, data);
  }
}
