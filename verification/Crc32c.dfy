/** CRC32C: the bit-serial definition, the table-driven loops, and what the checksum detects. */
module Crc32c {
  import opened Bytes

  /** Reflected CRC32C polynomial. */
  const POLY: bv32 := 0x82F6_3B78

  // ----- exclusive or, as an operation the proofs can treat algebraically

  function Xor(a: bv32, b: bv32): bv32 { a ^ b }

  lemma XorAssoc(a: bv32, b: bv32, c: bv32)
    ensures Xor(Xor(a, b), c) == Xor(a, Xor(b, c))
  {
    XorAssocOf(a, b, c, Xor(a, b), Xor(b, c));
  }

  lemma XorAssocOf(a: bv32, b: bv32, c: bv32, ab: bv32, bc: bv32)
    requires ab == a ^ b && bc == b ^ c
    ensures Xor(ab, c) == Xor(a, bc)
  {
  }

  lemma XorComm(a: bv32, b: bv32)
    ensures Xor(a, b) == Xor(b, a)
  {
  }

  lemma XorUnit(a: bv32)
    ensures Xor(a, 0) == a && Xor(0, a) == a && Xor(a, a) == 0
  {
  }

  lemma XorSwap(a: bv32, b: bv32, c: bv32, d: bv32)
    ensures Xor(Xor(a, b), Xor(c, d)) == Xor(Xor(a, c), Xor(b, d))
  {
    XorAssoc(a, b, Xor(c, d));
    XorAssoc(b, c, d);
    XorComm(b, c);
    XorAssoc(c, b, d);
    XorAssoc(a, c, Xor(b, d));
  }

  lemma XorCancel(a: bv32, b: bv32, c: bv32)
    requires Xor(a, c) == Xor(b, c)
    ensures a == b
  {
    XorAssoc(a, c, c);
    XorAssoc(b, c, c);
    XorUnit(a);
    XorUnit(b);
    XorUnit(c);
  }

  // ----- one bit of polynomial division

  predicate Odd(c: bv32) { c & 1 != 0 }

  function Half(c: bv32): bv32 { c >> 1 }

  function Reduction(c: bv32): bv32 { if Odd(c) then POLY else 0 }

  /** Multiplies the register by x modulo the polynomial (reflected: one right shift). */
  function Shift(c: bv32): bv32 { Xor(Half(c), Reduction(c)) }

  lemma ShiftLinear(a: bv32, b: bv32)
    ensures Shift(Xor(a, b)) == Xor(Shift(a), Shift(b))
  {
    HalfLinear(a, b);
    ReductionLinear(a, b);
    XorSwap(Half(a), Half(b), Reduction(a), Reduction(b));
  }

  lemma HalfLinear(a: bv32, b: bv32)
    ensures Half(Xor(a, b)) == Xor(Half(a), Half(b))
  {
  }

  lemma ReductionLinear(a: bv32, b: bv32)
    ensures Reduction(Xor(a, b)) == Xor(Reduction(a), Reduction(b))
  {
    assert Odd(Xor(a, b)) == (Odd(a) != Odd(b));
  }

  /** The polynomial's top bit is set, so no information leaves the register. */
  function Unshift(d: bv32): bv32 {
    if d & 0x8000_0000 != 0 then ((d ^ POLY) << 1) | 1 else d << 1
  }

  lemma UnshiftOfShift(c: bv32)
    ensures Unshift(Shift(c)) == c
  {
  }

  function Shifts(c: bv32, n: nat): bv32
    decreases n, c
  {
    if n == 0 then c else Shifts(Shift(c), n - 1)
  }

  lemma {:induction false} ShiftsAdd(c: bv32, m: nat, n: nat)
    ensures Shifts(c, m + n) == Shifts(Shifts(c, m), n)
    decreases m
  {
    if m > 0 {
      ShiftsAdd(Shift(c), m - 1, n);
    }
  }

  lemma {:induction false} ShiftsLinear(a: bv32, b: bv32, n: nat)
    ensures Shifts(Xor(a, b), n) == Xor(Shifts(a, n), Shifts(b, n))
    decreases n
  {
    if n > 0 {
      ShiftLinear(a, b);
      ShiftsLinear(Shift(a), Shift(b), n - 1);
    }
  }

  lemma {:induction false} ShiftsInjective(a: bv32, b: bv32, n: nat)
    requires Shifts(a, n) == Shifts(b, n)
    ensures a == b
    decreases n
  {
    if n > 0 {
      ShiftsInjective(Shift(a), Shift(b), n - 1);
      UnshiftOfShift(a);
      UnshiftOfShift(b);
    }
  }

  // ----- the checksum

  function UpdateByte(crc: bv32, b: Byte): bv32 {
    Shifts(Xor(crc, b as bv32), 8)
  }

  /** Feeds bytes into the register one bit at a time: the reference all faster forms refine. */
  function Update(crc: bv32, bytes: seq<Byte>): bv32
    decreases |bytes|
  {
    if bytes == [] then crc else Update(UpdateByte(crc, bytes[0]), bytes[1..])
  }

  const SEED: bv32 := 0xFFFF_FFFF

  function Checksum(bytes: seq<Byte>): bv32 {
    Xor(Update(SEED, bytes), 0xFFFF_FFFF)
  }

  /** Feeding data in pieces, at any split, is feeding it at once. */
  lemma {:induction false} UpdateConcat(crc: bv32, a: seq<Byte>, b: seq<Byte>)
    ensures Update(crc, a + b) == Update(Update(crc, a), b)
    decreases |a|
  {
    if a == [] {
      assert a + b == b;
    } else {
      assert (a + b)[1..] == a[1..] + b;
      UpdateConcat(UpdateByte(crc, a[0]), a[1..], b);
    }
  }

  lemma UpdateSnoc(crc: bv32, a: seq<Byte>, b: Byte)
    ensures Update(crc, a + [b]) == UpdateByte(Update(crc, a), b)
  {
    UpdateConcat(crc, a, [b]);
    assert [b][1..] == [];
    assert Update(UpdateByte(Update(crc, a), b), []) == UpdateByte(Update(crc, a), b);
  }

  function XorBytes(x: seq<Byte>, y: seq<Byte>): (z: seq<Byte>)
    requires |x| == |y|
    ensures |z| == |x|
  {
    seq(|x|, i requires 0 <= i < |x| => x[i] ^ y[i])
  }

  lemma WidenXor(a: Byte, b: Byte)
    ensures (a ^ b) as bv32 == Xor(a as bv32, b as bv32)
  {
  }

  lemma UpdateByteLinear(a: bv32, b: bv32, x: Byte, y: Byte)
    ensures UpdateByte(Xor(a, b), x ^ y) == Xor(UpdateByte(a, x), UpdateByte(b, y))
  {
    WidenXor(x, y);
    XorSwap(a, b, x as bv32, y as bv32);
    ShiftsLinear(Xor(a, x as bv32), Xor(b, y as bv32), 8);
  }

  /** The register is linear over exclusive or in state and data together. */
  lemma {:induction false} UpdateLinear(a: bv32, b: bv32, x: seq<Byte>, y: seq<Byte>)
    requires |x| == |y|
    ensures Update(Xor(a, b), XorBytes(x, y)) == Xor(Update(a, x), Update(b, y))
    decreases |x|
  {
    if x != [] {
      assert XorBytes(x, y)[1..] == XorBytes(x[1..], y[1..]);
      UpdateByteLinear(a, b, x[0], y[0]);
      UpdateLinear(UpdateByte(a, x[0]), UpdateByte(b, y[0]), x[1..], y[1..]);
    }
  }

  /** The checksums of equally long inputs differ by what the difference of the inputs feeds into a zero register. */
  lemma ChecksumLinear(x: seq<Byte>, y: seq<Byte>)
    requires |x| == |y|
    ensures Xor(Checksum(x), Checksum(y)) == Update(0, XorBytes(x, y))
  {
    hide Update, Xor;
    XorUnit(SEED);
    UpdateLinear(SEED, SEED, x, y);
    XorSwap(Update(SEED, x), 0xFFFF_FFFF, Update(SEED, y), 0xFFFF_FFFF);
    XorUnit(0xFFFF_FFFF);
    XorUnit(Xor(Update(SEED, x), Update(SEED, y)));
  }

  lemma {:induction false} UpdateInjective(a: bv32, b: bv32, bytes: seq<Byte>)
    requires Update(a, bytes) == Update(b, bytes)
    ensures a == b
    decreases |bytes|
  {
    if bytes != [] {
      var w := bytes[0] as bv32;
      UpdateInjective(UpdateByte(a, bytes[0]), UpdateByte(b, bytes[0]), bytes[1..]);
      ShiftsInjective(Xor(a, w), Xor(b, w), 8);
      XorCancel(a, b, w);
    }
  }

  // ----- four bytes at a time

  lemma ShiftEven(y: bv32)
    requires y & 1 == 0
    ensures Shift(y) == y >> 1
  {
  }

  lemma ShiftsClear2(y: bv32)
    requires y & 3 == 0
    ensures Shifts(y, 2) == y >> 2
  {
    ShiftEven(y);
    ShiftEven(y >> 1);
    assert Shifts(y, 2) == Shifts(y >> 1, 1) == Shifts(Shift(y >> 1), 0);
  }

  lemma ShiftsClear4(y: bv32)
    requires y & 0xF == 0
    ensures Shifts(y, 4) == y >> 4
  {
    ShiftsAdd(y, 2, 2);
    ShiftsClear2(y);
    ShiftsClear2(y >> 2);
  }

  /** A word whose low byte is clear moves down whole. */
  lemma ShiftsClear(y: bv32)
    requires y & 0xFF == 0
    ensures Shifts(y, 8) == y >> 8
  {
    ShiftsAdd(y, 4, 4);
    ShiftsClear4(y);
    ShiftsClear4(y >> 4);
  }

  lemma SplitLow(x: bv32)
    ensures x == Xor(x & 0xFF, x & 0xFFFF_FF00)
  {
  }

  lemma HighPart(x: bv32)
    ensures (x & 0xFFFF_FF00) & 0xFF == 0
    ensures (x & 0xFFFF_FF00) >> 8 == x >> 8
  {
  }

  lemma ShiftsSplit(x: bv32, lo: bv32, hi: bv32, n: nat)
    requires x == Xor(lo, hi)
    ensures Shifts(x, n) == Xor(Shifts(lo, n), Shifts(hi, n))
  {
    ShiftsLinear(lo, hi, n);
  }

  /** The table step: only the low byte needs the polynomial. */
  lemma ShiftsByLowByte(x: bv32, n: nat)
    requires n == 8
    ensures Shifts(x, n) == Xor(Shifts(x & 0xFF, n), x >> 8)
  {
    var lo, hi := x & 0xFF, x & 0xFFFF_FF00;
    assert x == Xor(lo, hi) by { SplitLow(x); }
    assert Shifts(hi, n) == x >> 8 by {
      HighPart(x);
      ShiftsClear(hi);
    }
    ShiftsSplit(x, lo, hi, n);
  }

  /** Peels the low byte of a word that has `8 + m` more shifts to go. */
  lemma PeelLowByte(x: bv32, low: bv32, rest: bv32, m: nat)
    requires low == x & 0xFF && rest == x >> 8
    ensures Shifts(x, 8 + m) == Xor(Shifts(low, 8 + m), Shifts(rest, m))
  {
    var n := 8;
    ShiftsByLowByte(x, n);
    ShiftsAdd(x, n, m);
    ShiftsAdd(low, n, m);
    ShiftsSplit(Shifts(x, n), Shifts(low, n), rest, m);
  }

  // ----- lookup tables

  /** `TABLES[k][b]`: a byte carried through `k + 1` byte times of shifting. */
  function Entry(k: nat, b: bv32): bv32 { Shifts(b, 8 * (k + 1)) }

  /** The first `n` entries of row `k` are filled in. */
  ghost predicate Filled(t: array2<bv32>, k: nat, n: nat)
    requires k < t.Length0 && n <= t.Length1
    reads t
  {
    forall x: bv32 :: x as int < n ==> t[k, x as int] == Entry(k, x)
  }

  ghost predicate RowsFilled(t: array2<bv32>, k: nat)
    reads t
  {
    t.Length0 == 8 && t.Length1 == 256 && k <= 8 && forall m: nat :: m < k ==> Filled(t, m, 256)
  }

  ghost predicate IsTables(t: array2<bv32>)
    reads t
  {
    RowsFilled(t, 8)
  }

  /** Table `k` holds the contribution of a byte followed by `k` zero bytes. */
  lemma {:induction false} EntryIsByteThenZeros(k: nat, b: Byte)
    ensures Entry(k, b as bv32) == Update(0, [b] + Zeros(k))
  {
    XorUnit(b as bv32);
    var first := UpdateByte(0, b);
    assert ([b] + Zeros(k))[1..] == Zeros(k);
    UpdateZeros(first, k);
    ShiftsAdd(b as bv32, 8, 8 * k);
  }

  lemma {:induction false} UpdateZeros(crc: bv32, k: nat)
    ensures Update(crc, Zeros(k)) == Shifts(crc, 8 * k)
    decreases k
  {
    if k > 0 {
      var n := 8;
      XorUnit(crc);
      assert Zeros(k)[1..] == Zeros(k - 1);
      UpdateZeros(UpdateByte(crc, 0), k - 1);
      ShiftsAdd(crc, n, 8 * (k - 1));
    }
  }

  lemma ShiftsSnoc(c: bv32, n: nat)
    ensures Shifts(c, n + 1) == Shift(Shifts(c, n))
  {
    var one := 1;
    ShiftsAdd(c, n, one);
    assert Shifts(Shifts(c, n), one) == Shifts(Shift(Shifts(c, n)), one - 1);
  }

  lemma TableStep(prev: bv32, b: bv32, k: nat)
    requires prev == Entry(k, b)
    ensures Xor(prev >> 8, Entry(0, prev & 0xFF)) == Entry(k + 1, b)
  {
    var n := 8;
    ShiftsByLowByte(prev, n);
    XorComm(prev >> 8, Entry(0, prev & 0xFF));
    ShiftsAdd(b, 8 * (k + 1), n);
  }

  /** The bit loop for one byte value. */
  method FirstEntry(b: bv32) returns (crc: bv32)
    ensures crc == Entry(0, b)
  {
    crc := b;
    var bit := 0;
    while bit < 8
      invariant 0 <= bit <= 8
      invariant crc == Shifts(b, bit)
    {
      ShiftsSnoc(b, bit);
      crc := if crc & 1 != 0 then (crc >> 1) ^ POLY else crc >> 1;
      bit := bit + 1;
    }
  }

  /** One entry of row `k`, from row `k - 1` and the byte-at-a-time row. */
  method NextEntry(t: array2<bv32>, k: nat, x: bv32) returns (entry: bv32)
    requires 1 <= k < 8 && RowsFilled(t, k) && x as int < 256
    ensures entry == Entry(k, x)
  {
    var prev := t[k - 1, x as int];
    assert Filled(t, 0, 256) && Filled(t, k - 1, 256);
    TableStep(prev, x, k - 1);
    entry := (prev >> 8) ^ t[0, (prev & 0xFF) as int];
  }

  lemma IndexOf(i: nat, x: bv32)
    requires i < 256 && x as int == i
    ensures i as bv32 == x
  {
  }

  method SetEntry(t: array2<bv32>, k: nat, i: nat, entry: bv32)
    requires k < 8 && RowsFilled(t, k) && i < 256 && Filled(t, k, i)
    requires entry == Entry(k, i as bv32)
    modifies t
    ensures RowsFilled(t, k) && Filled(t, k, i + 1)
  {
    t[k, i] := entry;
    forall m: nat | m < k
      ensures Filled(t, m, 256)
    {
      assert old(Filled(t, m, 256));
    }
    forall x: bv32 | x as int < i + 1
      ensures t[k, x as int] == Entry(k, x)
    {
      if x as int == i {
        IndexOf(i, x);
      }
    }
  }

  method FillFirstRow(t: array2<bv32>)
    requires t.Length0 == 8 && t.Length1 == 256
    modifies t
    ensures RowsFilled(t, 1)
  {
    var i := 0;
    while i < 256
      invariant 0 <= i <= 256
      invariant Filled(t, 0, i)
    {
      var entry := FirstEntry(i as bv32);
      SetEntry(t, 0, i, entry);
      i := i + 1;
    }
  }

  method FillRow(t: array2<bv32>, k: nat)
    requires 1 <= k < 8 && RowsFilled(t, k)
    modifies t
    ensures RowsFilled(t, k + 1)
  {
    var i := 0;
    while i < 256
      invariant 0 <= i <= 256
      invariant RowsFilled(t, k)
      invariant Filled(t, k, i)
    {
      var entry := NextEntry(t, k, i as bv32);
      SetEntry(t, k, i, entry);
      i := i + 1;
    }
  }

  method BuildTables() returns (t: array2<bv32>)
    ensures IsTables(t)
  {
    t := new bv32[8, 256];
    FillFirstRow(t);
    var k := 1;
    while k < 8
      invariant 1 <= k <= 8
      invariant RowsFilled(t, k)
    {
      FillRow(t, k);
      k := k + 1;
    }
  }

  // ----- byte at a time

  lemma LowByteOnly(crc: bv32, b: Byte)
    ensures Xor(crc, b as bv32) >> 8 == crc >> 8
  {
  }

  lemma UpdateByteByTable(crc: bv32, b: Byte, low: bv32, rest: bv32)
    requires low == (crc ^ b as bv32) & 0xFF && rest == crc >> 8
    ensures UpdateByte(crc, b) == Xor(Entry(0, low), rest)
  {
    var n := 8;
    LowByteOnly(crc, b);
    ShiftsByLowByte(Xor(crc, b as bv32), n);
  }

  lemma LookupByte(t: array2<bv32>, crc: bv32, b: Byte)
    requires IsTables(t)
    ensures t[0, ((crc ^ b as bv32) & 0xFF) as int] ^ (crc >> 8) == UpdateByte(crc, b)
  {
    hide UpdateByte, Entry;
    var low, rest := (crc ^ b as bv32) & 0xFF, crc >> 8;
    UpdateByteByTable(crc, b, low, rest);
    assert Filled(t, 0, 256);
    Combine(UpdateByte(crc, b), t[0, low as int], rest);
  }

  lemma Combine(u: bv32, e: bv32, y: bv32)
    requires u == Xor(e, y)
    ensures e ^ y == u
  {
  }

  method UpdateBytewise(t: array2<bv32>, seed: bv32, bytes: seq<Byte>) returns (crc: bv32)
    requires IsTables(t)
    ensures crc == Update(seed, bytes)
  {
    hide UpdateByte, Update;
    crc := seed;
    UpdateEmpty(seed);
    for i := 0 to |bytes|
      invariant crc == Update(seed, bytes[..i])
    {
      var byte := bytes[i];
      LookupByte(t, crc, byte);
      UpdateSnoc(seed, bytes[..i], byte);
      assert bytes[..i] + [byte] == bytes[..i + 1];
      crc := t[0, ((crc ^ byte as bv32) & 0xFF) as int] ^ (crc >> 8);
    }
    assert bytes[..|bytes|] == bytes;
  }

  // ----- eight bytes at a time

  lemma LowByteOfWord(w: bv32)
    ensures ((w & 0xFF) as bv8) as bv32 == w & 0xFF
  {
  }

  /** Shifting a word in eight bits is feeding its low byte. */
  lemma AbsorbLowByte(crc: bv32, w: bv32, n: nat)
    requires n == 8
    ensures Shifts(Xor(crc, w), n) == Xor(UpdateByte(crc, (w & 0xFF) as bv8), w >> 8)
  {
    var lo, hi := w & 0xFF, w & 0xFFFF_FF00;
    LowByteOfWord(w);
    assert w == Xor(lo, hi) by { SplitLow(w); }
    assert Shifts(hi, n) == w >> 8 by {
      HighPart(w);
      ShiftsClear(hi);
    }
    XorAssoc(crc, lo, hi);
    ShiftsSplit(Xor(crc, w), Xor(crc, lo), hi, n);
  }

  lemma AbsorbOne(crc: bv32, w: bv32, rest: bv32, b: Byte, m: nat)
    requires b == (w & 0xFF) as bv8 && rest == w >> 8
    ensures Shifts(Xor(crc, w), 8 + m) == Shifts(Xor(UpdateByte(crc, b), rest), m)
  {
    var n := 8;
    AbsorbLowByte(crc, w, n);
    ShiftsAdd(Xor(crc, w), n, m);
  }

  lemma WordBytes(s: seq<Byte>, w: bv32)
    requires |s| == 4 && w == FromLe32(s)
    ensures s[0] == (w & 0xFF) as bv8
    ensures s[1] == ((w >> 8) & 0xFF) as bv8
    ensures s[2] == (((w >> 8) >> 8) & 0xFF) as bv8
    ensures s[3] == ((((w >> 8) >> 8) >> 8) & 0xFF) as bv8
    ensures (((w >> 8) >> 8) >> 8) >> 8 == 0
  {
  }

  lemma UpdateCons(crc: bv32, b: Byte, rest: seq<Byte>)
    ensures Update(crc, [b] + rest) == Update(UpdateByte(crc, b), rest)
  {
    assert ([b] + rest)[1..] == rest;
  }

  lemma UpdateFour(crc: bv32, s: seq<Byte>)
    requires |s| == 4
    ensures Update(crc, s) == UpdateByte(UpdateByte(UpdateByte(UpdateByte(crc, s[0]), s[1]), s[2]), s[3])
  {
    hide UpdateByte, Update;
    UpdateCons(crc, s[0], s[1..]);
    UpdateCons(UpdateByte(crc, s[0]), s[1], s[2..]);
    UpdateSnoc(UpdateByte(UpdateByte(crc, s[0]), s[1]), [s[2]], s[3]);
    UpdateSnoc(UpdateByte(UpdateByte(crc, s[0]), s[1]), [], s[2]);
    UpdateEmpty(UpdateByte(UpdateByte(crc, s[0]), s[1]));
    assert s == [s[0]] + s[1..] && s[1..] == [s[1]] + s[2..] && s[2..] == [s[2]] + [s[3]] && [s[2]] == [] + [s[2]];
  }

  lemma UpdateEmpty(crc: bv32)
    ensures Update(crc, []) == crc
  {
  }

  /** Feeding four bytes adds them to the register as one little-endian word. */
  lemma UpdateWord(crc: bv32, s: seq<Byte>)
    requires |s| == 4
    ensures Update(crc, s) == Shifts(Xor(crc, FromLe32(s)), 32)
  {
    hide UpdateByte, Shifts, Xor, Update, FromLe32;
    var w := FromLe32(s);
    var w1 := w >> 8;
    var w2 := w1 >> 8;
    var w3 := w2 >> 8;
    var c1 := UpdateByte(crc, s[0]);
    var c2 := UpdateByte(c1, s[1]);
    var c3 := UpdateByte(c2, s[2]);
    var c4 := UpdateByte(c3, s[3]);
    WordBytes(s, w);
    AbsorbOne(crc, w, w1, s[0], 24);
    AbsorbOne(c1, w1, w2, s[1], 16);
    AbsorbOne(c2, w2, w3, s[2], 8);
    AbsorbOne(c3, w3, 0, s[3], 0);
    XorUnit(c4);
    ShiftsNone(c4);
    UpdateFour(crc, s);
  }

  lemma ShiftsNone(c: bv32)
    ensures Shifts(c, 0) == c
  {
  }

  /** Two words in a row: by linearity each contributes on its own. */
  lemma UpdateTwoWords(crc: bv32, s: seq<Byte>, lo: bv32, hi: bv32)
    requires |s| == 8
    requires lo == Xor(crc, FromLe32(s[..4])) && hi == FromLe32(s[4..])
    ensures Update(crc, s) == Xor(Shifts(lo, 64), Shifts(hi, 32))
  {
    hide Shifts, Xor, Update, FromLe32;
    assert s == s[..4] + s[4..];
    UpdateConcat(crc, s[..4], s[4..]);
    UpdateWord(crc, s[..4]);
    UpdateWord(Shifts(lo, 32), s[4..]);
    ShiftsLinear(Shifts(lo, 32), hi, 32);
    ShiftsAdd(lo, 32, 32);
  }

  /** A word with `8 * (k + 1)` shifts to go is the sum of four table entries, one per byte. */
  lemma WordByTables(x: bv32, k: nat, b0: bv32, b1: bv32, b2: bv32, b3: bv32)
    requires k >= 3
    requires b0 == x & 0xFF && b1 == (x >> 8) & 0xFF && b2 == (x >> 16) & 0xFF && b3 == x >> 24
    ensures Shifts(x, 8 * (k + 1))
         == Xor(Entry(k, b0), Xor(Entry(k - 1, b1), Xor(Entry(k - 2, b2), Entry(k - 3, b3))))
  {
    hide Shifts, Xor;
    var x1 := x >> 8;
    var x2 := x1 >> 8;
    WordTail(x, x1, x2, b1, b2, b3);
    PeelLowByte(x, b0, x1, 8 * k);
    PeelLowByte(x1, b1, x2, 8 * (k - 1));
    PeelLowByte(x2, b2, b3, 8 * (k - 2));
    assert 8 + 8 * k == 8 * (k + 1) && 8 + 8 * (k - 1) == 8 * k && 8 + 8 * (k - 2) == 8 * (k - 1);
  }

  lemma WordTail(x: bv32, x1: bv32, x2: bv32, b1: bv32, b2: bv32, b3: bv32)
    requires x1 == x >> 8 && x2 == x1 >> 8
    requires b1 == (x >> 8) & 0xFF && b2 == (x >> 16) & 0xFF && b3 == x >> 24
    ensures b1 == x1 & 0xFF && b2 == x2 & 0xFF && b3 == x2 >> 8
  {
  }

  lemma XorChain(a: bv32, b: bv32, c: bv32, d: bv32, e: bv32, f: bv32, g: bv32, h: bv32)
    ensures Xor(Xor(a, Xor(b, Xor(c, d))), Xor(e, Xor(f, Xor(g, h))))
         == Xor(Xor(Xor(Xor(Xor(Xor(Xor(a, b), c), d), e), f), g), h)
  {
    hide Xor;
    var abcd := Xor(Xor(Xor(a, b), c), d);
    XorAssoc(a, b, Xor(c, d));
    XorAssoc(Xor(a, b), c, d);
    XorAssoc(abcd, e, Xor(f, Xor(g, h)));
    XorAssoc(Xor(abcd, e), f, Xor(g, h));
    XorAssoc(Xor(Xor(abcd, e), f), g, h);
  }

  /** One slicing-by-8 step. */
  method SliceStep(t: array2<bv32>, crc: bv32, chunk: seq<Byte>) returns (r: bv32)
    requires IsTables(t) && |chunk| == 8
    ensures r == Update(crc, chunk)
  {
    hide Shifts, Update, Entry, FromLe32;
    var lo := FromLe32(chunk[..4]) ^ crc;
    var hi := FromLe32(chunk[4..]);
    var b0, b1, b2, b3 := lo & 0xFF, (lo >> 8) & 0xFF, (lo >> 16) & 0xFF, lo >> 24;
    var c0, c1, c2, c3 := hi & 0xFF, (hi >> 8) & 0xFF, (hi >> 16) & 0xFF, hi >> 24;
    r := Lookup8(t, b0, b1, b2, b3, c0, c1, c2, c3);
    XorComm(crc, FromLe32(chunk[..4]));
    UpdateTwoWords(crc, chunk, lo, hi);
    WordByTables(lo, 7, b0, b1, b2, b3);
    WordByTables(hi, 3, c0, c1, c2, c3);
    XorChain(Entry(7, b0), Entry(6, b1), Entry(5, b2), Entry(4, b3),
             Entry(3, c0), Entry(2, c1), Entry(1, c2), Entry(0, c3));
  }

  method Lookup8(t: array2<bv32>, b0: bv32, b1: bv32, b2: bv32, b3: bv32, c0: bv32, c1: bv32, c2: bv32, c3: bv32)
    returns (r: bv32)
    requires IsTables(t)
    requires b0 <= 0xFF && b1 <= 0xFF && b2 <= 0xFF && b3 <= 0xFF
    requires c0 <= 0xFF && c1 <= 0xFF && c2 <= 0xFF && c3 <= 0xFF
    ensures r == Xor(Xor(Xor(Xor(Xor(Xor(Xor(Entry(7, b0), Entry(6, b1)), Entry(5, b2)), Entry(4, b3)),
                                 Entry(3, c0)), Entry(2, c1)), Entry(1, c2)), Entry(0, c3))
  {
    hide Entry, Xor;
    r := Xor(Lookup(t, 7, b0), Lookup(t, 6, b1));
    r := Xor(Xor(r, Lookup(t, 5, b2)), Lookup(t, 4, b3));
    r := Xor(Xor(r, Lookup(t, 3, c0)), Lookup(t, 2, c1));
    r := Xor(Xor(r, Lookup(t, 1, c2)), Lookup(t, 0, c3));
  }

  function Lookup(t: array2<bv32>, k: nat, x: bv32): (e: bv32)
    requires IsTables(t) && k < 8 && x <= 0xFF
    reads t
    ensures e == Entry(k, x)
  {
    assert Filled(t, k, 256);
    t[k, x as int]
  }

  /** Slicing-by-8 equals the byte-at-a-time update for every seed and every input. */
  method UpdateSlice8(t: array2<bv32>, seed: bv32, bytes: seq<Byte>) returns (crc: bv32)
    requires IsTables(t)
    ensures crc == Update(seed, bytes)
  {
    hide Update;
    crc := seed;
    var at := 0;
    UpdateEmpty(seed);
    while at + 8 <= |bytes|
      invariant 0 <= at <= |bytes|
      invariant crc == Update(seed, bytes[..at])
    {
      UpdateConcat(seed, bytes[..at], bytes[at..at + 8]);
      assert bytes[..at] + bytes[at..at + 8] == bytes[..at + 8];
      crc := SliceStep(t, crc, bytes[at..at + 8]);
      at := at + 8;
    }
    UpdateConcat(seed, bytes[..at], bytes[at..]);
    assert bytes[..at] + bytes[at..] == bytes;
    crc := UpdateBytewise(t, crc, bytes[at..]);
  }

  /** Incremental hasher for data that arrives in pieces. */
  class Hasher {
    var state: bv32
    ghost var fed: seq<Byte>

    ghost predicate Valid()
      reads this
    {
      state == Update(SEED, fed)
    }

    constructor ()
      ensures Valid() && fed == []
    {
      state := 0xFFFF_FFFF;
      fed := [];
    }

    method Feed(t: array2<bv32>, bytes: seq<Byte>)
      requires Valid() && IsTables(t)
      modifies this
      ensures Valid() && fed == old(fed) + bytes
    {
      hide Update;
      UpdateConcat(SEED, fed, bytes);
      var next := UpdateSlice8(t, state, bytes);
      state := next;
      fed := fed + bytes;
    }

    method Finalize() returns (crc: bv32)
      requires Valid()
      ensures crc == Checksum(fed)
    {
      crc := state ^ 0xFFFF_FFFF;
    }
  }

  /** `crc32c` in one call, through the same hasher. */
  method Crc32cOf(t: array2<bv32>, bytes: seq<Byte>) returns (crc: bv32)
    requires IsTables(t)
    ensures crc == Checksum(bytes)
  {
    hide Update, Checksum;
    var hasher := new Hasher();
    hasher.Feed(t, bytes);
    assert hasher.fed == bytes;
    crc := hasher.Finalize();
  }

  // ----- what the checksum detects

  lemma WindowDetected(crc: bv32, a: seq<Byte>, b: seq<Byte>)
    requires |a| == |b| == 4 && a != b
    ensures Update(crc, a) != Update(crc, b)
  {
    hide Update, Shifts, FromLe32;
    UpdateWord(crc, a);
    UpdateWord(crc, b);
    if Update(crc, a) == Update(crc, b) {
      var x, y := FromLe32(a), FromLe32(b);
      ShiftsInjective(Xor(crc, x), Xor(crc, y), 32);
      XorComm(crc, x);
      XorComm(crc, y);
      XorCancel(x, y, crc);
      FromLe32Injective(a, b);
    }
  }

  /**
   * Equal-length inputs that differ only inside four consecutive bytes never share a checksum, at
   * any length and any position.
   */
  lemma DetectsBurst(x: seq<Byte>, y: seq<Byte>, at: nat)
    requires |x| == |y| && x != y && at <= |x|
    requires forall i :: 0 <= i < |x| && x[i] != y[i] ==> at <= i < at + 4
    ensures Checksum(x) != Checksum(y)
  {
    hide Update;
    var z := Zeros(4);
    var x', y' := x + z, y + z;
    UpdateConcat(SEED, x, z);
    UpdateConcat(SEED, y, z);
    var pre, a, b, post := x'[..at], x'[at..at + 4], y'[at..at + 4], x'[at + 4..];
    assert pre == y'[..at] && post == y'[at + 4..];
    assert x' == pre + a + post && y' == pre + b + post;
    SplitUpdate(pre, a, post);
    SplitUpdate(pre, b, post);
    assert a != b by {
      var i :| 0 <= i < |x| && x[i] != y[i];
      assert a[i - at] == x[i] && b[i - at] == y[i];
    }
    var crc := Update(SEED, pre);
    WindowDetected(crc, a, b);
    if Update(SEED, x) == Update(SEED, y) {
      UpdateInjective(Update(crc, a), Update(crc, b), post);
    }
    if Checksum(x) == Checksum(y) {
      XorCancel(Update(SEED, x), Update(SEED, y), 0xFFFF_FFFF);
    }
  }

  lemma SplitUpdate(pre: seq<Byte>, mid: seq<Byte>, post: seq<Byte>)
    ensures Update(SEED, pre + mid + post) == Update(Update(Update(SEED, pre), mid), post)
  {
    hide Update;
    UpdateConcat(SEED, pre + mid, post);
    UpdateConcat(SEED, pre, mid);
  }

  // ----- the published check value

  lemma ShiftsEight(c: bv32, mid: bv32)
    requires mid == Shift(Shift(Shift(Shift(c))))
    ensures Shifts(c, 8) == Shift(Shift(Shift(Shift(mid))))
  {
    hide Shift;
    ShiftsSnoc(c, 0);
    ShiftsSnoc(c, 1);
    ShiftsSnoc(c, 2);
    ShiftsSnoc(c, 3);
    ShiftsSnoc(c, 4);
    ShiftsSnoc(c, 5);
    ShiftsSnoc(c, 6);
    ShiftsSnoc(c, 7);
  }

  lemma Fed(crc: bv32, b: Byte, mid: bv32, next: bv32)
    requires mid == Shift(Shift(Shift(Shift(crc ^ b as bv32))))
    requires next == Shift(Shift(Shift(Shift(mid))))
    ensures UpdateByte(crc, b) == next
  {
    hide Shift;
    ShiftsEight(crc ^ b as bv32, mid);
  }

  /** The register after each digit of "123456789", and the check value every CRC32C must give. */
  lemma StandardCheckValue()
    ensures Checksum([0x31, 0x32, 0x33, 0x34, 0x35, 0x36, 0x37, 0x38, 0x39]) == 0xE306_9283
  {
    hide UpdateByte;
    Fed(0xFFFFFFFF, 0x31, 0xECCF57E6, 0x6F0A661C);
    Fed(0x6F0A661C, 0x32, 0xE5C00E78, 0x8CAA3B9F);
    Fed(0x8CAA3B9F, 0x33, 0xCB47857E, 0xEF84D04D);
    Fed(0xEF84D04D, 0x34, 0x9C50B110, 0x09C50B11);
    Fed(0x09C50B11, 0x35, 0x41E74D0E, 0xE72EDCCA);
    Fed(0xE72EDCCA, 0x36, 0xCDFFCB0B, 0xBECA8E79);
    Fed(0xBECA8E79, 0x37, 0xE8DC00FE, 0xEDBD6815);
    Fed(0xEDBD6815, 0x38, 0xDD083729, 0x9F787F65);
    Fed(0x9F787F65, 0x39, 0xCA7AA131, 0x1CF96D7C);
    assert Checksum([0x31, 0x32, 0x33, 0x34, 0x35, 0x36, 0x37, 0x38, 0x39]) == 0x1CF9_6D7C ^ 0xFFFF_FFFF;
  }
}
