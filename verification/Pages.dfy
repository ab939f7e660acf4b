/** Fixed-size pages: layout, sealing and verification. */
module Pages {
  import opened Bytes
  import opened Crc32c
  import opened CrcPowers

  type Page = p: seq<Byte> | |p| == 4096 witness Zeros(4096)

  /** Page ids and page counts; page 0 holds the file header. */
  type PageId = U64

  datatype PageType = Free | Heap

  function TypeCode(t: PageType): Byte { if t.Free? then 1 else 2 }

  datatype PageHeader = PageHeader(pageType: PageType, pageId: PageId, lsn: U64)

  datatype PageError = ChecksumMismatch | UnknownType | ReservedSet | WrongPage

  datatype Verdict = Good(header: PageHeader) | Bad(error: PageError)

  function StoredChecksum(p: Page): bv32 { FromLe32(p[..4]) }

  function ActualChecksum(p: Page): bv32 { Checksum(p[4..]) }

  function PageIdOf(p: Page): PageId { FromLe64(p[8..16]) }

  function LsnOf(p: Page): U64 { FromLe64(p[16..24]) }

  /** The body the checksum covers is kept; only the checksum field is rewritten. */
  function Sealed(p: Page): (q: Page)
    ensures q[4..] == p[4..]
    ensures StoredChecksum(q) == ActualChecksum(q)
  {
    var q := Le32(ActualChecksum(p)) + p[4..];
    assert q[4..] == p[4..] && q[..4] == Le32(ActualChecksum(p));
    q
  }

  function DecodePageHeader(p: Page): Verdict {
    if p[4] != 1 && p[4] != 2 then Bad(UnknownType)
    else if p[5] != 0 || p[6] != 0 || p[7] != 0 then Bad(ReservedSet)
    else Good(PageHeader(if p[4] == 1 then Free else Heap, PageIdOf(p), LsnOf(p)))
  }

  function Verify(p: Page, expected: PageId): Verdict {
    if StoredChecksum(p) != ActualChecksum(p) then Bad(ChecksumMismatch)
    else
      match DecodePageHeader(p)
      case Bad(e) => Bad(e)
      case Good(h) => if h.pageId != expected then Bad(WrongPage) else Good(h)
  }

  predicate Verified(p: Page, id: PageId) { Verify(p, id).Good? }

  /** What the owner of a page must leave intact for a sealed copy to verify. */
  predicate WellFormed(p: Page, id: PageId) {
    && (p[4] == 1 || p[4] == 2)
    && p[5] == 0 && p[6] == 0 && p[7] == 0
    && PageIdOf(p) == id
  }

  /** A page is sealed exactly if its checksum is right. */
  lemma SealedIff(p: Page)
    ensures Sealed(p) == p <==> StoredChecksum(p) == ActualChecksum(p)
  {
    FromLe32Bytes(p[..4]);
    assert p == p[..4] + p[4..];
    if Sealed(p) == p {
      assert StoredChecksum(Sealed(p)) == ActualChecksum(Sealed(p));
    }
  }

  /** Exactly the sealed, well-formed pages verify, and with the type, id and LSN in their bytes. */
  lemma VerifyExact(p: Page, id: PageId, h: PageHeader)
    ensures Verify(p, id) == Good(h) <==>
      && Sealed(p) == p && WellFormed(p, id)
      && h == PageHeader(if p[4] == 1 then Free else Heap, id, FromLe64(p[16..24]))
  {
    hide Sealed, Checksum;
    SealedIff(p);
  }

  /** What a page that does not verify is refused for; damage is reported before anything the page says. */
  lemma VerifyRefuses(p: Page, id: PageId)
    ensures Verify(p, id) == Bad(ChecksumMismatch) <==> Sealed(p) != p
    ensures Verify(p, id) == Bad(UnknownType) <==> Sealed(p) == p && p[4] != 1 && p[4] != 2
    ensures Verify(p, id) == Bad(ReservedSet) <==>
      Sealed(p) == p && (p[4] == 1 || p[4] == 2) && !WellFormed(p, PageIdOf(p))
    ensures Verify(p, id) == Bad(WrongPage) <==> Sealed(p) == p && WellFormed(p, PageIdOf(p)) && PageIdOf(p) != id
  {
    hide Sealed, Checksum;
    SealedIff(p);
  }

  /** Sealing makes a page verify exactly when its header is well formed for that id. */
  lemma SealedVerifies(p: Page, id: PageId)
    ensures Verified(Sealed(p), id) <==> WellFormed(p, id)
    ensures WellFormed(Sealed(p), id) <==> WellFormed(p, id)
    ensures LsnOf(Sealed(p)) == LsnOf(p)
  {
    SameBody(p, Sealed(p));
  }

  lemma SameBody(p: Page, q: Page)
    requires p[4..] == q[4..]
    ensures forall i :: 4 <= i < 4096 ==> p[i] == q[i]
    ensures p[8..16] == q[8..16] && p[16..24] == q[16..24]
    ensures ActualChecksum(p) == ActualChecksum(q)
  {
    forall i | 4 <= i < 4096
      ensures p[i] == q[i]
    {
      assert p[i] == p[4..][i - 4] && q[i] == q[4..][i - 4];
    }
  }

  /** A page that verifies is already sealed, so sealing it again changes no byte. */
  lemma VerifiedIsSealed(p: Page, id: PageId)
    requires Verified(p, id)
    ensures Sealed(p) == p && WellFormed(p, id)
  {
    SealedIff(p);
  }

  lemma SealIdempotent(p: Page)
    ensures Sealed(Sealed(p)) == Sealed(p)
  {
    assert Sealed(p) == Le32(ActualChecksum(p)) + p[4..];
  }

  // ----- new pages

  /** The layout of a zeroed page with an initialised header and LSN 0. */
  function NewPage(id: PageId, t: PageType): (p: Page)
    ensures p[..4] == Zeros(4)
    ensures WellFormed(p, id) && LsnOf(p) == 0
    ensures p[24..] == Zeros(4072)
  {
    var p := Zeros(4) + [TypeCode(t)] + Zeros(3) + Le64(id) + Zeros(4080);
    assert p[8..16] == Le64(id);
    assert p[16..24] == Zeros(8);
    ZeroDigits(8);
    p
  }

  lemma {:induction false} ZeroDigits(w: nat)
    ensures Value(Zeros(w)) == 0
  {
    if w > 0 {
      assert Zeros(w)[1..] == Zeros(w - 1);
      ZeroDigits(w - 1);
    }
  }

  lemma NewPageVerifies(id: PageId, t: PageType)
    ensures Verify(Sealed(NewPage(id, t)), id) == Good(PageHeader(t, id, 0))
  {
    var p := NewPage(id, t);
    SealedVerifies(p, id);
    SameBody(p, Sealed(p));
    assert p[4] == TypeCode(t);
  }

  /** A hole in a sparse file is never mistaken for data. */
  lemma ZeroedIsRejected(id: PageId)
    ensures !Verified(Zeros(4096), id)
  {
  }

  // ----- corruption

  /** `q` differs from `p`, and only inside the four bytes from `at`. */
  ghost predicate Burst(p: Page, q: Page, at: nat) {
    p != q && at <= 4096 && forall i :: 0 <= i < 4096 && p[i] != q[i] ==> at <= i < at + 4
  }

  /** Unless it straddles the end of the checksum field, a burst never keeps the checksum right. */
  lemma BurstMismatch(p: Page, q: Page, at: nat, id: PageId)
    requires StoredChecksum(p) == ActualChecksum(p)
    requires Burst(p, q, at) && (at == 0 || at >= 4)
    ensures Verify(q, id) == Bad(ChecksumMismatch)
  {
    if at == 0 {
      assert p[4..] == q[4..];
      StoredDiffers(p, q);
    } else {
      assert p[..4] == q[..4];
      var x, y := p[4..], q[4..];
      forall i | 0 <= i < |x| && x[i] != y[i]
        ensures at - 4 <= i < at - 4 + 4
      {
        assert p[i + 4] != q[i + 4];
      }
      assert x != y by {
        var i :| 0 <= i < 4096 && p[i] != q[i];
        assert x[i - 4] == p[i] && y[i - 4] == q[i];
      }
      DetectsBurst(x, y, at - 4);
    }
  }

  lemma StoredDiffers(p: Page, q: Page)
    requires p[4..] == q[4..] && p != q
    ensures StoredChecksum(p) != StoredChecksum(q)
  {
    assert p == p[..4] + p[4..] && q == q[..4] + q[4..];
    if StoredChecksum(p) == StoredChecksum(q) {
      FromLe32Injective(p[..4], q[..4]);
    }
  }

  /** What changing the type byte alone does to the checksum of the page. */
  lemma TypeByteWeighs(p: Page, q: Page)
    requires forall i :: 5 <= i < 4096 ==> p[i] == q[i]
    ensures Xor(ActualChecksum(p), ActualChecksum(q)) == Shifts((p[4] ^ q[4]) as bv32, 32736)
  {
    hide Shifts, Update;
    var x, y := p[4..], q[4..];
    ChecksumLinear(x, y);
    assert XorBytes(x, y) == [p[4] ^ q[4]] + Zeros(4091) by {
      forall i | 1 <= i < 4092
        ensures XorBytes(x, y)[i] == 0
      {
        SelfXor(x[i]);
        assert x[i] == p[i + 4] && y[i] == q[i + 4];
      }
    }
    EntryIsByteThenZeros(4091, p[4] ^ q[4]);
  }

  lemma SelfXor(b: Byte)
    ensures b ^ b == 0
  {
  }

  lemma LowByteKept(a: seq<Byte>, b: seq<Byte>)
    requires |a| == |b| == 4 && a[0] == b[0]
    ensures Xor(FromLe32(a), FromLe32(b)) & 0xFF == 0
  {
  }

  /**
   * Changes inside any four consecutive bytes make a verified page unreadable under every id. In the
   * three windows that straddle the end of the checksum field this rests on the type codes: exchanging
   * them moves the lowest checksum byte, which such a window does not reach.
   */
  lemma BurstRejected(p: Page, id: PageId, q: Page, at: nat, expected: PageId)
    requires Verified(p, id) && Burst(p, q, at)
    ensures !Verified(q, expected)
    ensures at == 0 || at >= 4 ==> Verify(q, expected) == Bad(ChecksumMismatch)
  {
    hide Shifts, Update, Checksum, Xor;
    if at == 0 || at >= 4 {
      BurstMismatch(p, q, at, expected);
    } else if Verified(q, expected) {
      assert p[4] == q[4] || p[4] ^ q[4] == 3;
      if p[4] == q[4] {
        assert p[4..] == q[4..];
        StoredDiffers(p, q);
      } else {
        TypeByteWeighs(p, q);
        TypeSwapOverPage();
        LowByteKept(p[..4], q[..4]);
      }
    }
  }

  /**
   * A straddling change that the checksum itself does not notice: type byte and three checksum bytes
   * changed together. It exists for every verified page; only the check of the type refuses it.
   */
  lemma StraddlePassesChecksum(p: Page, id: PageId, expected: PageId) returns (q: Page)
    requires Verified(p, id)
    ensures Burst(p, q, 1)
    ensures StoredChecksum(q) == ActualChecksum(q)
    ensures Verify(q, expected) == Bad(UnknownType)
  {
    hide Shifts, Update, Checksum;
    var stored := Xor(StoredChecksum(p), 0x587a_da00);
    q := Le32(stored) + [p[4] ^ 203] + p[5..];
    assert q[..4] == Le32(stored);
    TypeByteWeighs(p, q);
    TypeChangeOverPage();
    assert p[4] ^ q[4] == 203;
    XorBack(ActualChecksum(p), ActualChecksum(q), 0x587a_da00);
    FirstByteKept(p[..4], q[..4]);
  }

  lemma XorBack(a: bv32, b: bv32, d: bv32)
    requires Xor(a, b) == d
    ensures Xor(a, d) == b
  {
  }

  lemma FirstByteKept(a: seq<Byte>, b: seq<Byte>)
    requires |a| == |b| == 4 && FromLe32(b) == Xor(FromLe32(a), 0x587a_da00)
    ensures a[0] == b[0]
  {
  }

  function Flip(p: Page, at: nat, mask: Byte): Page
    requires at < 4096
  {
    p[at := Flipped(p[at], mask)]
  }

  /** Every bit flip (indeed every change of one byte) in a verified page makes it unreadable under every id. */
  lemma FlipRejected(p: Page, id: PageId, at: nat, mask: Byte, expected: PageId)
    requires Verified(p, id) && at < 4096 && mask != 0
    ensures Verify(Flip(p, at, mask), expected) == Bad(ChecksumMismatch)
  {
    FlippedDiffers(p[at], mask);
    BurstMismatch(p, Flip(p, at, mask), if at < 4 then 0 else at, expected);
  }

  // ----- in-place updates of a page buffer

  function Spliced(s: seq<Byte>, at: nat, src: seq<Byte>): (r: seq<Byte>)
    requires at + |src| <= |s|
    ensures |r| == |s|
  {
    s[..at] + src + s[at + |src|..]
  }

  /** `copy_from_slice` into a sub-range. */
  method CopyInto(data: array<Byte>, at: nat, src: seq<Byte>)
    requires at + |src| <= data.Length
    modifies data
    ensures data[..] == Spliced(old(data[..]), at, src)
  {
    for i := 0 to |src|
      invariant forall k :: 0 <= k < data.Length ==>
                  data[k] == if at <= k < at + i then src[k - at] else old(data[k])
    {
      data[at + i] := src[i];
    }
  }

  method Seal(t: array2<bv32>, data: array<Byte>)
    requires IsTables(t) && data.Length == 4096
    modifies data
    ensures data[..] == Sealed(old(data[..]))
  {
    hide Checksum;
    var crc := Crc32cOf(t, data[4..]);
    CopyInto(data, 0, Le32(crc));
  }

  method CreatePage(id: PageId, t: PageType) returns (data: array<Byte>)
    ensures data.Length == 4096 && fresh(data)
    ensures data[..] == NewPage(id, t)
  {
    data := new Byte[4096](_ => 0);
    assert data[..] == Zeros(4096);
    data[4] := TypeCode(t);
    CopyInto(data, 8, Le64(id));
    assert data[..] == NewPage(id, t);
  }
}
