/** The log file: a header followed by consecutively numbered records, and the scan that reads it. */
module WalLog {
  import opened Bytes
  import opened Crc32c
  import opened WalRecord

  const WAL_MAGIC: seq<Byte> := [0x6F, 0x78, 0x65, 0x6E, 0x57, 0x41, 0x4C, 0]   // "oxenWAL\0"
  const WAL_FORMAT_VERSION: bv32 := 1
  const WAL_HEADER_SIZE: nat := 24

  /** Sequence numbers stay below this; the source's `u64` would overflow past it. */
  const SEQ_LIMIT: nat := 0x1_0000_0000_0000_0000

  // ----- header

  function HeaderFields(first: U64): (h: seq<Byte>)
    ensures |h| == 20
  {
    WAL_MAGIC + Le32(WAL_FORMAT_VERSION) + Le64(first)
  }

  function EncodeHeader(first: U64): (h: seq<Byte>)
    ensures |h| == WAL_HEADER_SIZE
  {
    Le32(Checksum(HeaderFields(first))) + HeaderFields(first)
  }

  datatype HeaderError = NotALog | LogHeaderChecksum | LogVersion

  datatype Header = First(seqNo: U64) | BadHeader(error: HeaderError)

  function DecodeHeader(contents: seq<Byte>): Header {
    if |contents| < WAL_HEADER_SIZE || contents[4..12] != WAL_MAGIC then BadHeader(NotALog)
    else if FromLe32(contents[..4]) != Checksum(contents[4..24]) then BadHeader(LogHeaderChecksum)
    else if FromLe32(contents[12..16]) != WAL_FORMAT_VERSION then BadHeader(LogVersion)
    else First(FromLe64(contents[16..24]))
  }

  lemma HeaderRoundTrip(first: U64, rest: seq<Byte>)
    ensures DecodeHeader(EncodeHeader(first) + rest) == First(first)
  {
    hide Checksum;
    var h := EncodeHeader(first) + rest;
    assert h[..4] == Le32(Checksum(HeaderFields(first)));
    assert h[4..24] == HeaderFields(first);
    assert h[4..12] == WAL_MAGIC && h[12..16] == Le32(WAL_FORMAT_VERSION) && h[16..24] == Le64(first);
  }

  /** "oxenWAL" with a zero byte, version 1 and the first sequence number, behind their checksum. */
  lemma HeaderBytes(first: U64)
    ensures EncodeHeader(first)[4..16] == [0x6F, 0x78, 0x65, 0x6E, 0x57, 0x41, 0x4C, 0, 1, 0, 0, 0]
    ensures EncodeHeader(first)[16..] == Le64(first) && |EncodeHeader(first)| == 24
    ensures FromLe32(EncodeHeader(first)[..4]) == Checksum(EncodeHeader(first)[4..])
  {
    hide Checksum, Le64;
    var h := EncodeHeader(first);
    assert h[4..] == HeaderFields(first) && h[..4] == Le32(Checksum(HeaderFields(first)));
    assert Le32(WAL_FORMAT_VERSION) == [1, 0, 0, 0];
    assert h[4..16] == WAL_MAGIC + Le32(WAL_FORMAT_VERSION);
  }

  /** A header that decodes is the one header the encoder writes for that sequence number. */
  lemma HeaderOfDecode(contents: seq<Byte>)
    requires DecodeHeader(contents).First?
    ensures contents[..24] == EncodeHeader(DecodeHeader(contents).seqNo)
  {
    hide Checksum;
    FromLe32Bytes(contents[..4]);
    FromLe32Bytes(contents[12..16]);
    Le64OfFromLe64(contents[16..24]);
    assert contents[4..24] == contents[4..12] + contents[12..16] + contents[16..24];
    assert contents[..24] == contents[..4] + contents[4..24];
  }

  lemma HeaderParts(first: U64)
    ensures EncodeHeader(first)[4..12] == WAL_MAGIC && EncodeHeader(first)[12..16] == Le32(WAL_FORMAT_VERSION)
  {
    hide Checksum, Le32, Le64;
    assert EncodeHeader(first)[4..] == HeaderFields(first);
    assert EncodeHeader(first)[4..12] == HeaderFields(first)[..8];
    assert EncodeHeader(first)[12..16] == HeaderFields(first)[8..12];
  }

  /** What any other start of a file is refused for, in this order. */
  lemma HeaderRefuses(contents: seq<Byte>)
    ensures DecodeHeader(contents) == BadHeader(NotALog) <==>
      |contents| < 24 || contents[4..12] != EncodeHeader(0)[4..12]
    ensures DecodeHeader(contents) == BadHeader(LogHeaderChecksum) <==>
      |contents| >= 24 && contents[4..12] == EncodeHeader(0)[4..12] && contents[..4] != Le32(Checksum(contents[4..24]))
    ensures DecodeHeader(contents) == BadHeader(LogVersion) <==>
      && |contents| >= 24 && contents[..4] == Le32(Checksum(contents[4..24]))
      && contents[4..12] == EncodeHeader(0)[4..12] && contents[12..16] != EncodeHeader(0)[12..16]
  {
    hide Checksum, Le32, FromLe32, FromLe64, EncodeHeader;
    HeaderParts(0);
    if |contents| >= 24 {
      FromLe32Bytes(contents[..4]);
      FromLe32Bytes(contents[12..16]);
    }
  }

  // ----- records

  /** Records numbered consecutively from `s`, back to back. */
  function EncodeAll(rs: seq<Record>, s: nat): seq<Byte>
    requires s + |rs| <= SEQ_LIMIT
    decreases |rs|
  {
    if rs == [] then [] else Encoded(rs[0], s) + EncodeAll(rs[1..], s + 1)
  }

  lemma {:induction false} EncodeAllConcat(a: seq<Record>, b: seq<Record>, s: nat)
    requires s + |a| + |b| <= SEQ_LIMIT
    ensures EncodeAll(a + b, s) == EncodeAll(a, s) + EncodeAll(b, s + |a|)
    decreases |a|
  {
    hide Encoded;
    if a == [] {
      assert a + b == b;
    } else {
      assert (a + b)[1..] == a[1..] + b;
      EncodeAllConcat(a[1..], b, s + 1);
    }
  }

  /** Records read, bytes they occupied, and whether they were all the bytes there were. */
  datatype Scanned = Scanned(records: seq<Record>, used: nat, clean: bool)

  /** Does a record with the expected sequence number stand at the start of `buf`? */
  predicate Ready(buf: seq<Byte>, s: nat) {
    var d := Decode(buf);
    d.Decoded? && d.seqNo == s
  }

  function Scan(buf: seq<Byte>, s: nat): (r: Scanned)
    ensures r.used <= |buf|
    decreases |buf|
  {
    if buf == [] then Scanned([], 0, true)
    else if Ready(buf, s) then
      var d := Decode(buf);
      var r := Scan(buf[d.len..], s + 1);
      Scanned([d.record] + r.records, d.len + r.used, r.clean)
    else Scanned([], 0, false)
  }

  lemma ScanStop(buf: seq<Byte>, s: nat)
    requires !Ready(buf, s)
    ensures Scan(buf, s) == Scanned([], 0, buf == [])
  {
  }

  lemma ScanOne(r: Record, s: U64, rest: seq<Byte>)
    ensures Ready(Encoded(r, s) + rest, s)
    ensures Scan(Encoded(r, s) + rest, s)
         == var t := Scan(rest, s + 1); Scanned([r] + t.records, Len(r) + t.used, t.clean)
  {
    hide Encoded, Decode;
    var buf := Encoded(r, s) + rest;
    DecodeOfEncoded(r, s, rest);
    assert buf[Len(r)..] == rest;
  }

  /** Written records are read back, and the scan continues behind them. */
  lemma {:induction false} ScanEncoded(rs: seq<Record>, s: nat, tail: seq<Byte>)
    requires s + |rs| <= SEQ_LIMIT
    ensures var t := Scan(tail, s + |rs|);
      Scan(EncodeAll(rs, s) + tail, s) == Scanned(rs + t.records, |EncodeAll(rs, s)| + t.used, t.clean)
    decreases |rs|
  {
    hide Encoded, Decode, Ready, Scan;
    var t := Scan(tail, s + |rs|);
    if rs == [] {
      assert EncodeAll(rs, s) + tail == tail;
      assert rs + t.records == t.records;
    } else {
      assert rs + t.records == [rs[0]] + (rs[1..] + t.records);
      var rest := EncodeAll(rs[1..], s + 1) + tail;
      assert EncodeAll(rs, s) + tail == Encoded(rs[0], s) + rest;
      ScanOne(rs[0], s, rest);
      ScanEncoded(rs[1..], s + 1, tail);
    }
  }

  /** What the scan accepts is exactly an encoding; what it leaves starts with no expected record. */
  lemma {:induction false} ScanFactors(buf: seq<Byte>, s: nat)
    ensures var r := Scan(buf, s);
      && s + |r.records| <= (if s <= SEQ_LIMIT then SEQ_LIMIT else s)
      && (s <= SEQ_LIMIT ==> buf[..r.used] == EncodeAll(r.records, s))
      && !Ready(buf[r.used..], s + |r.records|)
      && (r.clean <==> r.used == |buf|)
    decreases |buf|
  {
    hide Encoded, Decode;
    if buf != [] && Ready(buf, s) {
      var d := Decode(buf);
      var rest := buf[d.len..];
      var t := Scan(rest, s + 1);
      ScanFactors(rest, s + 1);
      EncodedOfDecode(buf);
      assert buf[d.len + t.used..] == rest[t.used..];
      assert buf[..d.len + t.used] == buf[..d.len] + rest[..t.used];
      assert ([d.record] + t.records)[1..] == t.records;
    } else {
      EmptyNotReady(s);
      assert buf[0..] == buf;
    }
  }

  lemma EmptyNotReady(s: nat)
    ensures !Ready([], s)
  {
  }

  // ----- any cut of a well-formed log

  /** The number of whole records of `rs` inside the first `n` bytes. */
  function WholeRecords(rs: seq<Record>, n: nat): (k: nat)
    ensures k <= |rs|
    decreases |rs|
  {
    if rs == [] || n < Len(rs[0]) then 0 else 1 + WholeRecords(rs[1..], n - Len(rs[0]))
  }

  /** `WholeRecords` is the longest prefix that fits: it fits, and one record more does not. */
  lemma {:induction false} WholeRecordsLongest(rs: seq<Record>, s: nat, n: nat)
    requires s + |rs| <= SEQ_LIMIT
    ensures var k := WholeRecords(rs, n);
      && |EncodeAll(rs[..k], s)| <= n
      && (k < |rs| ==> n < |EncodeAll(rs[..k + 1], s)|)
    decreases |rs|
  {
    hide Encoded;
    if rs == [] {
    } else if n < Len(rs[0]) {
      assert rs[..0] == [] && rs[..1][1..] == [];
      assert |EncodeAll(rs[..1], s)| == Len(rs[0]) + |EncodeAll([], s + 1)|;
    } else {
      var m := n - Len(rs[0]);
      var k := WholeRecords(rs[1..], m);
      WholeRecordsLongest(rs[1..], s + 1, m);
      assert rs[..k + 1][1..] == rs[1..][..k];
      if k + 1 < |rs| {
        assert rs[..k + 2][1..] == rs[1..][..k + 1];
      }
    }
  }

  /**
   * Cut at any byte, a run of records scans to its longest prefix of whole records, stopping there,
   * and reports a leftover exactly when the cut is inside a record.
   */
  lemma {:induction false} ScanOfCutRecords(rs: seq<Record>, s: nat, n: nat)
    requires s + |rs| <= SEQ_LIMIT && n <= |EncodeAll(rs, s)|
    ensures var k := WholeRecords(rs, n);
      Scan(EncodeAll(rs, s)[..n], s)
        == Scanned(rs[..k], |EncodeAll(rs[..k], s)|, n == |EncodeAll(rs[..k], s)|)
    decreases |rs|
  {
    hide Encoded, Decode, Ready, Scan;
    var all := EncodeAll(rs, s);
    if rs == [] {
      assert all[..n] == [];
      ScanNothing(s);
    } else if n < Len(rs[0]) {
      CutNotReady(rs[0], s, n);
      assert all[..n] == Encoded(rs[0], s)[..n];
      ScanStop(all[..n], s);
      assert rs[..0] == [] && EncodeAll(rs[..0], s) == [];
    } else {
      var m := n - Len(rs[0]);
      var rest := EncodeAll(rs[1..], s + 1);
      var k := WholeRecords(rs[1..], m);
      assert all[..n] == Encoded(rs[0], s) + rest[..m];
      ScanOne(rs[0], s, rest[..m]);
      ScanOfCutRecords(rs[1..], s + 1, m);
      assert rs[..k + 1] == [rs[0]] + rs[1..][..k];
      assert rs[..k + 1][1..] == rs[1..][..k];
    }
  }

  lemma CutNotReady(r: Record, s: U64, n: nat)
    requires n < Len(r)
    ensures !Ready(Encoded(r, s)[..n], s)
  {
    CutIsIncomplete(r, s, n);
  }

  // ----- opening

  datatype Opening =
    | Opened(first: U64, records: seq<Record>, len: nat, discarded: nat)
    | Refused(error: HeaderError)

  /** What `Wal::open` reports: the records, the length it keeps, and how many bytes it cuts off. */
  function Open(contents: seq<Byte>): Opening {
    match DecodeHeader(contents)
    case BadHeader(e) => Refused(e)
    case First(first) =>
      assert |contents| >= WAL_HEADER_SIZE;
      var r := Scan(contents[WAL_HEADER_SIZE..], first);
      Opened(first, r.records, WAL_HEADER_SIZE + r.used, |contents| - WAL_HEADER_SIZE - r.used)
  }

  function LogBytes(first: nat, recs: seq<Record>, tail: seq<Byte>): seq<Byte>
    requires first + |recs| <= SEQ_LIMIT && first < SEQ_LIMIT
  {
    EncodeHeader(first) + EncodeAll(recs, first) + tail
  }

  lemma OpenOfLog(first: nat, recs: seq<Record>, tail: seq<Byte>)
    requires first + |recs| <= SEQ_LIMIT && first < SEQ_LIMIT
    ensures var w := LogBytes(first, recs, tail);
      var t := Scan(tail, first + |recs|);
      Open(w) == Opened(first, recs + t.records, WAL_HEADER_SIZE + |EncodeAll(recs, first)| + t.used, |tail| - t.used)
  {
    hide EncodeHeader, EncodeAll, Scan, Open;
    assert LogBytes(first, recs, tail) == EncodeHeader(first) + (EncodeAll(recs, first) + tail);
    OpenOfHeader(first, EncodeAll(recs, first) + tail);
    ScanEncoded(recs, first, tail);
  }

  lemma OpenOfHeader(first: U64, body: seq<Byte>)
    ensures var r := Scan(body, first);
      Open(EncodeHeader(first) + body) == Opened(first, r.records, WAL_HEADER_SIZE + r.used, |body| - r.used)
  {
    hide EncodeHeader, DecodeHeader, Scan;
    HeaderRoundTrip(first, body);
    assert (EncodeHeader(first) + body)[WAL_HEADER_SIZE..] == body;
  }

  /**
   * A header and consecutively numbered records, cut at any byte at or after the header, opens to
   * exactly the longest prefix of whole records, keeps exactly those bytes, and discards a tail
   * exactly when the cut is inside a record.
   */
  lemma OpenOfCut(first: nat, recs: seq<Record>, n: nat)
    requires first + |recs| <= SEQ_LIMIT && first < SEQ_LIMIT
    requires n <= |EncodeAll(recs, first)|
    ensures var k := WholeRecords(recs, n);
      var kept := WAL_HEADER_SIZE + |EncodeAll(recs[..k], first)|;
      var o := Open(LogBytes(first, recs, [])[..WAL_HEADER_SIZE + n]);
      && o.Opened? && o.first == first && o.records == recs[..k]
      && o.len == kept && o.len + o.discarded == WAL_HEADER_SIZE + n
  {
    hide Encoded, Decode, Ready, EncodeHeader, DecodeHeader, Scan;
    var cut := EncodeAll(recs, first)[..n];
    var w := LogBytes(first, recs, [])[..WAL_HEADER_SIZE + n];
    assert w == EncodeHeader(first) + cut;
    HeaderRoundTrip(first, cut);
    assert w[WAL_HEADER_SIZE..] == cut;
    ScanOfCutRecords(recs, first, n);
    WholeRecordsLongest(recs, first, n);
  }

  /** Every log that opens is a header, the records read, and a tail holding no next record. */
  lemma OpenFactors(w: seq<Byte>)
    requires Open(w).Opened?
    ensures var o := Open(w);
      && o.first + |o.records| <= SEQ_LIMIT
      && o.len + o.discarded == |w|
      && w == LogBytes(o.first, o.records, w[o.len..])
      && !Ready(w[o.len..], o.first + |o.records|)
      && Scan(w[o.len..], o.first + |o.records|) == Scanned([], 0, o.discarded == 0)
  {
    hide Encoded, Decode, Ready, EncodeHeader;
    var o := Open(w);
    var body := w[WAL_HEADER_SIZE..];
    ScanFactors(body, o.first);
    HeaderOfDecode(w);
    var used := o.len - WAL_HEADER_SIZE;
    assert body[used..] == w[o.len..];
    assert w == w[..WAL_HEADER_SIZE] + body[..used] + w[o.len..];
    ScanStop(w[o.len..], o.first + |o.records|);
  }

  /** Opening truncates to the boundary it reports, so opening again finds the same and cuts nothing. */
  lemma ReopenChangesNothing(w: seq<Byte>)
    requires Open(w).Opened?
    ensures var o := Open(w); Open(w[..o.len]) == o.(discarded := 0)
  {
    hide Encoded, Decode, Ready, EncodeHeader, DecodeHeader, Scan;
    var o := Open(w);
    OpenFactors(w);
    assert w[..o.len] == LogBytes(o.first, o.records, []);
    OpenOfLog(o.first, o.records, []);
    ScanNothing(o.first + |o.records|);
  }

  lemma ScanNothing(s: nat)
    ensures Scan([], s) == Scanned([], 0, true)
  {
  }

  /** A new header in front of old records rejects all of them by sequence number. */
  lemma StaleRecordsRejected(first: nat, recs: seq<Record>, tail: seq<Byte>, next: nat)
    requires first + |recs| <= SEQ_LIMIT && first != next && recs != []
    ensures Scan(EncodeAll(recs, first) + tail, next).records == []
  {
    hide Encoded, Decode;
    var buf := EncodeAll(recs, first) + tail;
    var rest := EncodeAll(recs[1..], first + 1) + tail;
    assert buf == Encoded(recs[0], first) + rest;
    DecodeOfEncoded(recs[0], first, rest);
  }
}
