/** Encoding and decoding of individual log records. */
module WalRecord {
  import opened Bytes
  import opened Crc32c
  import opened CrcPowers
  import opened Pages

  const PAGE_IMAGE_LEN: nat := 4129
  const COMMIT_LEN: nat := 25

  datatype Record =
    | PageImage(txn: U64, pageId: PageId, page: Page)
    | Commit(txn: U64)

  function Len(r: Record): nat { if r.PageImage? then PAGE_IMAGE_LEN else COMMIT_LEN }

  function LenCode(r: Record): bv32 { if r.PageImage? then 4129 else 25 }

  function TypeOf(r: Record): Byte { if r.PageImage? then 1 else 2 }

  function Body(r: Record): seq<Byte> {
    match r
    case PageImage(_, id, page) => Le64(id) + page
    case Commit(_) => []
  }

  /** Everything the record checksum covers: bytes `8..length`. */
  function Payload(r: Record, seqNo: U64): (p: seq<Byte>)
    ensures |p| == Len(r) - 8
  {
    Le64(seqNo) + [TypeOf(r)] + Le64(r.txn) + Body(r)
  }

  /** The record as it stands in the file under sequence number `seqNo`. */
  function Encoded(r: Record, seqNo: U64): (bytes: seq<Byte>)
    ensures |bytes| == Len(r)
  {
    Le32(LenCode(r)) + Le32(Checksum(Payload(r, seqNo))) + Payload(r, seqNo)
  }

  datatype Decoding =
    | Decoded(seqNo: U64, record: Record, len: nat)
    | Incomplete
    | Invalid

  function Decode(buf: seq<Byte>): (d: Decoding)
    ensures d.Decoded? ==> 0 < d.len <= |buf|
  {
    if |buf| < 4 then Incomplete
    else
      var code := FromLe32(buf[..4]);
      if code != 4129 && code != 25 then Invalid
      else
        var len := if code == 4129 then PAGE_IMAGE_LEN else COMMIT_LEN;
        if |buf| < len then Incomplete
        else DecodeWhole(buf[..len], code)
  }

  function DecodeWhole(bytes: seq<Byte>, code: bv32): (d: Decoding)
    requires (code == 4129 && |bytes| == PAGE_IMAGE_LEN) || (code == 25 && |bytes| == COMMIT_LEN)
    ensures d.Decoded? ==> d.len == |bytes|
  {
    if FromLe32(bytes[4..8]) != Checksum(bytes[8..]) then Invalid
    else
      var seqNo, txn := FromLe64(bytes[8..16]), FromLe64(bytes[17..25]);
      if bytes[16] == 1 && code == 4129 then
        Decoded(seqNo, PageImage(txn, FromLe64(bytes[25..33]), bytes[33..]), |bytes|)
      else if bytes[16] == 2 && code == 25 then
        Decoded(seqNo, Commit(txn), |bytes|)
      else Invalid
  }

  // ----- where the fields are

  lemma EncodedAt(r: Record, seqNo: U64)
    ensures var e := Encoded(r, seqNo);
      && e[..4] == Le32(LenCode(r)) && e[4..8] == Le32(Checksum(Payload(r, seqNo)))
      && e[8..] == Payload(r, seqNo)
  {
    hide Checksum;
  }

  lemma PayloadAt(r: Record, seqNo: U64)
    ensures var p := Payload(r, seqNo);
      && p[..8] == Le64(seqNo) && p[8] == TypeOf(r) && p[9..17] == Le64(r.txn) && p[17..] == Body(r)
  {
  }

  /** Any record decodes back to itself, whatever follows it in the buffer. */
  lemma DecodeOfEncoded(r: Record, seqNo: U64, rest: seq<Byte>)
    ensures Decode(Encoded(r, seqNo) + rest) == Decoded(seqNo, r, Len(r))
  {
    hide Checksum, Payload;
    var e := Encoded(r, seqNo);
    var buf := e + rest;
    EncodedAt(r, seqNo);
    assert buf[..4] == e[..4] && buf[..Len(r)] == e;
    DecodeWholeOfEncoded(r, seqNo);
  }

  lemma DecodeWholeOfEncoded(r: Record, seqNo: U64)
    ensures DecodeWhole(Encoded(r, seqNo), LenCode(r)) == Decoded(seqNo, r, Len(r))
  {
    hide Checksum;
    var e, p := Encoded(r, seqNo), Payload(r, seqNo);
    EncodedAt(r, seqNo);
    PayloadAt(r, seqNo);
    assert e[8..16] == p[..8] && e[16] == p[8] && e[17..25] == p[9..17] && e[25..] == p[17..];
    if r.PageImage? {
      assert e[25..33] == p[17..][..8] && e[33..] == p[17..][8..];
      assert Body(r)[..8] == Le64(r.pageId) && Body(r)[8..] == r.page;
    }
  }

  /** Bytes that decode are exactly the encoding of what they decode to. */
  lemma EncodedOfDecode(buf: seq<Byte>)
    requires Decode(buf).Decoded?
    ensures var d := Decode(buf); d.len == Len(d.record) && buf[..d.len] == Encoded(d.record, d.seqNo)
  {
    hide DecodeWhole, FromLe32, Encoded;
    var d := Decode(buf);
    var code := FromLe32(buf[..4]);
    var b := buf[..d.len];
    assert b[..4] == buf[..4];
    EncodedOfWhole(b, code);
  }

  lemma EncodedOfWhole(b: seq<Byte>, code: bv32)
    requires (code == 4129 && |b| == PAGE_IMAGE_LEN) || (code == 25 && |b| == COMMIT_LEN)
    requires FromLe32(b[..4]) == code && DecodeWhole(b, code).Decoded?
    ensures var d := DecodeWhole(b, code); |b| == Len(d.record) && b == Encoded(d.record, d.seqNo)
  {
    hide Checksum, FromLe32, FromLe64, Le32, Le64, Payload;
    var d := DecodeWhole(b, code);
    FromLe32Bytes(b[..4]);
    FromLe32Bytes(b[4..8]);
    Le64OfFromLe64(b[8..16]);
    Le64OfFromLe64(b[17..25]);
    PayloadOfBytes(b, d.record, d.seqNo);
    assert b == b[..4] + b[4..8] + b[8..];
  }

  lemma PayloadOfBytes(b: seq<Byte>, r: Record, seqNo: U64)
    requires |b| == Len(r)
    requires b[8..16] == Le64(seqNo) && b[16] == TypeOf(r) && b[17..25] == Le64(r.txn)
    requires r.PageImage? ==> r.pageId == FromLe64(b[25..33]) && r.page == b[33..]
    ensures b[8..] == Payload(r, seqNo)
  {
    assert b[8..] == b[8..16] + [b[16]] + b[17..25] + b[25..];
    if r.PageImage? {
      Le64OfFromLe64(b[25..33]);
      assert b[25..] == b[25..33] + b[33..];
    } else {
      assert b[25..] == [];
    }
  }

  /** A record cut anywhere short of its end is incomplete, never invalid and never another record. */
  lemma CutIsIncomplete(r: Record, seqNo: U64, cut: nat)
    requires cut < Len(r)
    ensures Decode(Encoded(r, seqNo)[..cut]) == Incomplete
  {
    hide Checksum, Payload;
    var e := Encoded(r, seqNo);
    EncodedAt(r, seqNo);
    if cut >= 4 {
      assert e[..cut][..4] == e[..4];
    }
  }

  /** Exactly the beginnings of records too short to hold the length their first bytes announce are incomplete. */
  lemma IncompleteExact(buf: seq<Byte>)
    ensures Decode(buf) == Incomplete <==>
      |buf| < 4 || exists r: Record, s: U64 :: buf[..4] == Encoded(r, s)[..4] && |buf| < Len(r)
  {
    hide Checksum, Payload, Le32, FromLe32, Encoded;
    if |buf| >= 4 {
      var code := FromLe32(buf[..4]);
      FromLe32Bytes(buf[..4]);
      if Decode(buf) == Incomplete {
        var r := if code == 25 then Commit(0) else PageImage(0, 0, Zeros(4096));
        EncodedAt(r, 0);
        assert buf[..4] == Encoded(r, 0)[..4] && |buf| < Len(r);
      } else if r: Record, s: U64 :| buf[..4] == Encoded(r, s)[..4] && |buf| < Len(r) {
        EncodedAt(r, s);
        EncodedSize(r, s);
        assert false;
      }
    }
  }

  // ----- corruption

  /** `g` differs from `e`, and only inside the four bytes from `at`. */
  ghost predicate Damaged(e: seq<Byte>, g: seq<Byte>, at: nat) {
    |e| == |g| && e != g && at <= |e| && forall i :: 0 <= i < |e| && e[i] != g[i] ==> at <= i < at + 4
  }

  /** Damage in the length field's last bytes, in the checksum field or in the covered bytes is always caught. */
  lemma DamageRejected(r: Record, seqNo: U64, g: seq<Byte>, at: nat, rest: seq<Byte>)
    requires Damaged(Encoded(r, seqNo), g, at) && (1 <= at <= 4 || at >= 8)
    ensures Decode(g + rest) == Invalid
  {
    hide Checksum, Payload;
    var e := Encoded(r, seqNo);
    EncodedAt(r, seqNo);
    assert (g + rest)[..4] == g[..4] && (g + rest)[..|g|] == g;
    if at <= 4 {
      assert g[8..] == e[8..];
      assert e == e[..4] + e[4..8] + e[8..] && g == g[..4] + g[4..8] + g[8..];
      if g[..4] != e[..4] {
        LengthKept(e[..4], g[..4]);
      } else if FromLe32(g[4..8]) == FromLe32(e[4..8]) {
        FromLe32Injective(g[4..8], e[4..8]);
      }
    } else {
      assert g[..4] == e[..4];
      assert g[4..8] == e[4..8];
      BodyDamage(e[8..], g[8..], e, g, at);
    }
  }

  /** The two legal lengths differ in their first byte. */
  lemma LengthKept(s: seq<Byte>, t: seq<Byte>)
    requires |s| == |t| == 4 && s != t && s[0] == t[0]
    requires FromLe32(s) == 4129 || FromLe32(s) == 25
    ensures FromLe32(t) != 4129 && FromLe32(t) != 25
  {
    FromLe32Bytes(s);
    FromLe32Bytes(t);
  }

  lemma BodyDamage(x: seq<Byte>, y: seq<Byte>, e: seq<Byte>, g: seq<Byte>, at: nat)
    requires Damaged(e, g, at) && at >= 8 && |e| >= 8
    requires x == e[8..] && y == g[8..]
    ensures Checksum(x) != Checksum(y)
  {
    hide Checksum;
    forall i | 0 <= i < |x| && x[i] != y[i]
      ensures at - 8 <= i < at - 8 + 4
    {
      assert e[i + 8] != g[i + 8];
    }
    assert x != y by {
      var i :| 0 <= i < |e| && e[i] != g[i];
      assert x[i - 8] == e[i] && y[i - 8] == g[i];
    }
    DetectsBurst(x, y, at - 8);
  }

  /** A damaged length never turns one kind of record into the other: the type byte still names the first kind. */
  lemma LengthDamageRejected(r: Record, seqNo: U64, g: seq<Byte>, rest: seq<Byte>)
    requires Damaged(Encoded(r, seqNo), g, 0)
    ensures !Decode(g + rest).Decoded?
  {
    hide Checksum, FromLe32, FromLe64;
    var e := Encoded(r, seqNo);
    EncodedAt(r, seqNo);
    PayloadAt(r, seqNo);
    assert e[16] == Payload(r, seqNo)[8];
    assert (g + rest)[16] == TypeOf(r);
    assert (g + rest)[..4] == g[..4];
    assert e[4..] == g[4..];
    assert e == e[..4] + e[4..] && g == g[..4] + g[4..];
    if FromLe32(g[..4]) == FromLe32(e[..4]) {
      FromLe32Injective(g[..4], e[..4]);
    }
  }

  /** What a record changed behind its checksum field still decodes to: itself, under another number. */
  lemma StraddleDecodes(r: Record, seqNo: U64, g: seq<Byte>, at: nat, rest: seq<Byte>)
    requires Damaged(Encoded(r, seqNo), g, at) && 5 <= at <= 7
    ensures Decode(g + rest) != Incomplete
    ensures Decode(g + rest).Decoded? ==>
      var d := Decode(g + rest); d.record == r && d.seqNo != seqNo && g == Encoded(r, d.seqNo)
  {
    hide Checksum, FromLe64, FromLe32, Le64, Le32, Payload, Encoded;
    var e := Encoded(r, seqNo);
    EncodedAt(r, seqNo);
    EncodedSize(r, seqNo);
    assert g[..4] == e[..4] by {
      assert forall i :: 0 <= i < 4 ==> g[i] == e[i];
    }
    assert (g + rest)[..4] == g[..4] && (g + rest)[..|g|] == g;
    if Decode(g + rest).Decoded? {
      EncodedOfDecode(g + rest);
      SameFields(e, g);
      DecodeWholeOfEncoded(r, seqNo);
    }
  }

  lemma EncodedSize(r: Record, seqNo: U64)
    ensures |Encoded(r, seqNo)| == Len(r) && FromLe32(Le32(LenCode(r))) == LenCode(r)
  {
  }

  lemma SameFields(e: seq<Byte>, g: seq<Byte>)
    requires |e| == |g| >= 25 && forall i :: 11 <= i < |e| ==> e[i] == g[i]
    ensures e[16] == g[16] && e[17..25] == g[17..25]
    ensures |e| >= 33 ==> e[25..33] == g[25..33] && e[33..] == g[33..]
  {
  }

  /**
   * Changes inside any four bytes of an encoded record, whatever follows it: the result decodes exactly
   * when the change straddles the end of the checksum field and is the very encoding of the same record
   * under another sequence number. So a reader that expects `seqNo` never accepts a changed record.
   */
  lemma DamageExact(r: Record, seqNo: U64, g: seq<Byte>, at: nat, rest: seq<Byte>)
    requires Damaged(Encoded(r, seqNo), g, at)
    ensures Decode(g + rest).Decoded? <==>
      5 <= at <= 7 && exists other: U64 :: other != seqNo && g == Encoded(r, other)
    ensures Decode(g + rest).Decoded? ==> Decode(g + rest).seqNo != seqNo && Decode(g + rest).record == r
    ensures at > 0 ==> Decode(g + rest) != Incomplete
  {
    hide Encoded, Decode, Damaged;
    if at == 0 {
      LengthDamageRejected(r, seqNo, g, rest);
    } else if 5 <= at <= 7 {
      StraddleDecodes(r, seqNo, g, at, rest);
      if other: U64 :| other != seqNo && g == Encoded(r, other) {
        DecodeOfEncoded(r, other, rest);
      }
    } else {
      DamageRejected(r, seqNo, g, at, rest);
    }
  }

  /** Such a pair exists: the commit records of any transaction under numbers 5 and 55 are four bytes apart. */
  lemma StraddleExists(txn: U64, rest: seq<Byte>)
    ensures Damaged(Encoded(Commit(txn), 5), Encoded(Commit(txn), 55), 5)
    ensures Decode(Encoded(Commit(txn), 55) + rest) == Decoded(55, Commit(txn), 25)
  {
    hide Decode, Checksum, Payload, FromLe32;
    var r, s, t: U64 := Commit(txn), 5, 55;
    DecodeOfEncoded(r, t, rest);
    var x, y := Payload(r, s), Payload(r, t);
    ApartInOneByte(txn, s, t);
    TypeAndTxnKept(x, y, Encoded(r, s), Encoded(r, t));
  }

  lemma TypeAndTxnKept(x: seq<Byte>, y: seq<Byte>, e: seq<Byte>, g: seq<Byte>)
    requires |x| == |y| == 17 && x[0] != y[0] && x[1..] == y[1..]
    requires Xor(Checksum(x), Checksum(y)) == 0x8e15_7700
    requires e == Le32(25) + Le32(Checksum(x)) + x && g == Le32(25) + Le32(Checksum(y)) + y
    ensures Damaged(e, g, 5)
  {
    hide Checksum;
    LowByteOf(Checksum(x), Checksum(y));
    forall i | 9 <= i < 25
      ensures e[i] == g[i]
    {
      assert e[i] == x[1..][i - 9] && g[i] == y[1..][i - 9];
    }
    assert e[8] != g[8];
  }

  lemma LowByteOf(a: bv32, b: bv32)
    requires Xor(a, b) == 0x8e15_7700
    ensures Le32(a)[0] == Le32(b)[0]
  {
  }

  lemma ApartInOneByte(txn: U64, s: U64, t: U64)
    requires s == 5 && t == 55
    ensures var x, y := Payload(Commit(txn), s), Payload(Commit(txn), t);
      x[0] != y[0] && x[1..] == y[1..] && Xor(Checksum(x), Checksum(y)) == 0x8e15_7700
  {
    hide Checksum, Xor, Le64;
    SmallNumber(s);
    SmallNumber(t);
    var rest := Zeros(7) + [2] + Le64(txn);
    var x, y := Payload(Commit(txn), s), Payload(Commit(txn), t);
    assert x == [ByteOf(s)] + rest && y == [ByteOf(t)] + rest;
    FirstByteWeighs(ByteOf(s), ByteOf(t), rest);
  }

  lemma FirstByteWeighs(b: Byte, c: Byte, rest: seq<Byte>)
    requires |rest| == 16 && b as nat == 5 && c as nat == 55
    ensures b != c && Xor(Checksum([b] + rest), Checksum([c] + rest)) == 0x8e15_7700
  {
    hide Shifts, Update, Checksum, Xor;
    var x, y := [b] + rest, [c] + rest;
    ChecksumLinear(x, y);
    ByteOfValue(b);
    ByteOfValue(c);
    assert b ^ c == 50;
    assert XorBytes(x, y) == [50] + Zeros(16) by {
      forall i | 1 <= i < 17
        ensures XorBytes(x, y)[i] == 0
      {
        SelfXor(x[i]);
      }
    }
    EntryIsByteThenZeros(16, 50);
    NumberOverRecord();
  }

  lemma SmallNumber(n: U64)
    requires n < 256
    ensures Le64(n) == [ByteOf(n)] + Zeros(7)
  {
    ZeroIsZeros(7);
    assert n % 256 == n && n / 256 == 0;
  }

  lemma {:induction false} ZeroIsZeros(w: nat)
    ensures Digits(0, w) == Zeros(w)
  {
    if w > 0 {
      ZeroIsZeros(w - 1);
    }
  }

  /** No single bit separates the two legal length codes. */
  lemma LengthFlip(b0: Byte, b1: Byte, b2: Byte, b3: Byte, at: nat, mask: Byte, s: seq<Byte>, t: seq<Byte>)
    requires at < 4 && OneBit(mask) && s == [b0, b1, b2, b3] && t == s[at := Flipped(s[at], mask)]
    requires FromLe32(s) == 4129 || FromLe32(s) == 25
    ensures FromLe32(t) != 4129 && FromLe32(t) != 25
  {
  }

  lemma FlippedLengthRejected(e: seq<Byte>, g: seq<Byte>, at: nat, mask: Byte)
    requires |e| >= 4 && at < 4 && OneBit(mask) && |g| >= 4 && g[..4] == e[..4][at := Flipped(e[at], mask)]
    requires FromLe32(e[..4]) == 4129 || FromLe32(e[..4]) == 25
    ensures Decode(g) == Invalid
  {
    hide DecodeWhole, FromLe32;
    LengthFlip(e[0], e[1], e[2], e[3], at, mask, e[..4], g[..4]);
  }

  /** A change to one byte past the length field is rejected. */
  lemma ByteChangeRejected(r: Record, seqNo: U64, at: nat, b: Byte, rest: seq<Byte>)
    requires 4 <= at < Len(r) && b != Encoded(r, seqNo)[at]
    ensures Decode(Encoded(r, seqNo)[at := b] + rest) == Invalid
  {
    hide Encoded, Decode;
    DamageRejected(r, seqNo, Encoded(r, seqNo)[at := b], if at < 8 then 4 else at, rest);
  }

  /** Every single-bit flip of any encoded record is rejected, whatever follows the record. */
  lemma FlipRejected(r: Record, seqNo: U64, at: nat, mask: Byte, rest: seq<Byte>)
    requires at < Len(r) && OneBit(mask)
    ensures Decode(Encoded(r, seqNo)[at := Flipped(Encoded(r, seqNo)[at], mask)] + rest) == Invalid
  {
    hide Encoded, Decode, Flipped;
    var e := Encoded(r, seqNo);
    var b := Flipped(e[at], mask);
    var g := e[at := b];
    if at < 4 {
      EncodedAt(r, seqNo);
      assert (g + rest)[..4] == e[..4][at := b];
      FlippedLengthRejected(e, g + rest, at, mask);
    } else {
      FlippedDiffers(e[at], mask);
      ByteChangeRejected(r, seqNo, at, b, rest);
    }
  }

  /** `WalRecord::encode`: appends to `out`, then patches the checksum in place. */
  method EncodeOnto(t: array2<bv32>, r: Record, seqNo: U64, buf: seq<Byte>) returns (out: seq<Byte>)
    requires IsTables(t)
    ensures out == buf + Encoded(r, seqNo)
  {
    hide Checksum;
    var start := |buf|;
    out := buf + Le32(LenCode(r));
    out := out + [0, 0, 0, 0];
    out := out + Le64(seqNo);
    out := out + [TypeOf(r)];
    out := out + Le64(r.txn);
    if r.PageImage? {
      out := out + Le64(r.pageId);
      out := out + r.page;
    }
    assert out[start + 8..] == Le64(seqNo) + [TypeOf(r)] + Le64(r.txn) + Body(r);
    var checksum := Crc32cOf(t, out[start + 8..]);
    out := out[..start + 4] + Le32(checksum) + out[start + 8..];
  }
}
