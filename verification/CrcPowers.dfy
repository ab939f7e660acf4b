/**
 * Carrying the CRC register over a long stretch of zero bits by repeated squaring: what a change in one
 * place of a page does to its checksum, computed instead of stepped through.
 */
module CrcPowers {
  import opened Crc32c

  /** The register that stands for the polynomial 1 (bits are reflected). */
  const ONE: bv32 := 0x8000_0000

  function Top(c: bv32, v: bv32): bv32 { if c & 0x8000_0000 != 0 then v else 0 }

  function Up(c: bv32): bv32 { c << 1 }

  function Shift8(v: bv32): bv32 { Shift(Shift(Shift(Shift(Shift(Shift(Shift(Shift(v)))))))) }

  /** The eight highest bits of `c`, each weighing one shift of `v` more than the bit above it. */
  function TopByte(c: bv32, v: bv32): bv32 {
    var c1, v1 := Up(c), Shift(v);
    var c2, v2 := Up(c1), Shift(v1);
    var c3, v3 := Up(c2), Shift(v2);
    var c4, v4 := Up(c3), Shift(v3);
    var c5, v5 := Up(c4), Shift(v4);
    var c6, v6 := Up(c5), Shift(v5);
    var c7, v7 := Up(c6), Shift(v6);
    Xor(Top(c, v), Xor(Top(c1, v1), Xor(Top(c2, v2), Xor(Top(c3, v3),
    Xor(Top(c4, v4), Xor(Top(c5, v5), Xor(Top(c6, v6), Top(c7, v7))))))))
  }

  /** The product of two registers as polynomials, modulo the CRC polynomial. */
  function Product(c: bv32, v: bv32): bv32 {
    var w1 := Shift8(v);
    var w2 := Shift8(w1);
    var w3 := Shift8(w2);
    Xor(TopByte(c, v), Xor(TopByte(c << 8, w1), Xor(TopByte(c << 16, w2), TopByte(c << 24, w3))))
  }

  lemma TopIs(c: bv32, top: bv32)
    requires top == c & 0x8000_0000
    ensures top == Top(c, ONE)
  {
  }

  lemma TopSplit(c: bv32, top: bv32, low: bv32)
    requires top == c & 0x8000_0000 && low == c & 0x7FFF_FFFF
    ensures c == Xor(top, low)
  {
  }

  lemma Doubled(c: bv32)
    ensures Shift(Up(c)) == c & 0x7FFF_FFFF
  {
  }

  lemma Up8(c: bv32)
    ensures Up(Up(Up(Up(Up(Up(Up(Up(c)))))))) == c << 8
  {
  }

  lemma {:induction false} ShiftsOfZero(k: nat)
    ensures Shifts(0, k) == 0
  {
    if k > 0 {
      ShiftsOfZero(k - 1);
    }
  }

  /** The top bit weighs what `ONE` weighs; the others weigh what they weigh one place up, one shift later. */
  lemma TopBit(c: bv32, k: nat)
    ensures Shifts(c, k) == Xor(Top(c, Shifts(ONE, k)), Shifts(Up(c), k + 1))
  {
    hide Xor, Shift, Up;
    var top, low := c & 0x8000_0000, c & 0x7FFF_FFFF;
    TopIs(c, top);
    TopSplit(c, top, low);
    ShiftsSplit(c, top, low, k);
    Doubled(c);
    ShiftsOfZero(k);
  }

  lemma TopBits(c: bv32, k: nat, v: bv32)
    requires v == Shifts(ONE, k)
    ensures Shifts(c, k) == Xor(TopByte(c, v), Shifts(c << 8, k + 8))
    ensures Shifts(ONE, k + 8) == Shift8(v)
  {
    hide Xor, Shift, Up, Top, Shifts;
    var c1, v1 := Up(c), Shift(v);
    var c2, v2 := Up(c1), Shift(v1);
    var c3, v3 := Up(c2), Shift(v2);
    var c4, v4 := Up(c3), Shift(v3);
    var c5, v5 := Up(c4), Shift(v4);
    var c6, v6 := Up(c5), Shift(v5);
    var c7, v7 := Up(c6), Shift(v6);
    ShiftsSnoc(ONE, k + 0);
    ShiftsSnoc(ONE, k + 1);
    ShiftsSnoc(ONE, k + 2);
    ShiftsSnoc(ONE, k + 3);
    ShiftsSnoc(ONE, k + 4);
    ShiftsSnoc(ONE, k + 5);
    ShiftsSnoc(ONE, k + 6);
    ShiftsSnoc(ONE, k + 7);
    TopBit(c, k + 0);
    TopBit(c1, k + 1);
    TopBit(c2, k + 2);
    TopBit(c3, k + 3);
    TopBit(c4, k + 4);
    TopBit(c5, k + 5);
    TopBit(c6, k + 6);
    TopBit(c7, k + 7);
    Up8(c);
    var rest := Shifts(c << 8, k + 8);
    var t7 := Top(c7, v7);
    var t6 := Xor(Top(c6, v6), t7);
    var t5 := Xor(Top(c5, v5), t6);
    var t4 := Xor(Top(c4, v4), t5);
    var t3 := Xor(Top(c3, v3), t4);
    var t2 := Xor(Top(c2, v2), t3);
    var t1 := Xor(Top(c1, v1), t2);
    XorAssoc(Top(c6, v6), t7, rest);
    XorAssoc(Top(c5, v5), t6, rest);
    XorAssoc(Top(c4, v4), t5, rest);
    XorAssoc(Top(c3, v3), t4, rest);
    XorAssoc(Top(c2, v2), t3, rest);
    XorAssoc(Top(c1, v1), t2, rest);
    XorAssoc(Top(c, v), t1, rest);
  }

  lemma Up32(c: bv32)
    ensures (c << 8) << 8 == c << 16 && (c << 16) << 8 == c << 24 && (c << 24) << 8 == 0
  {
  }

  /** Shifting `k` places is multiplying by `ONE` shifted `k` places. */
  lemma ShiftsIsProduct(c: bv32, k: nat, v: bv32)
    requires v == Shifts(ONE, k)
    ensures Shifts(c, k) == Product(c, v)
  {
    hide Xor, Shifts, Shift8, TopByte;
    var c1, c2, c3 := c << 8, c << 16, c << 24;
    var w1 := Shift8(v);
    var w2 := Shift8(w1);
    var w3 := Shift8(w2);
    Up32(c);
    TopBits(c, k, v);
    TopBits(c1, k + 8, w1);
    TopBits(c2, k + 16, w2);
    TopBits(c3, k + 24, w3);
    ShiftsOfZero(k + 32);
    XorUnit(TopByte(c3, w3));
  }

  lemma Squared(k: nat, v: bv32, w: bv32)
    requires Shifts(ONE, k) == v && Product(v, v) == w
    ensures Shifts(ONE, 2 * k) == w
  {
    hide Product, Shifts;
    ShiftsAdd(ONE, k, k);
    ShiftsIsProduct(v, k, v);
  }

  lemma X16()
    ensures Shifts(ONE, 16) == 0x8000
  {
    hide Shifts;
    ShiftsAdd(ONE, 8, 8);
    ShiftsClear(ONE);
    ShiftsClear(0x80_0000);
  }

  lemma X64()
    ensures Shifts(ONE, 64) == 0x6ea2_d55c
  {
    hide Shifts;
    X16();
    Squared(16, 0x0000_8000, 0x82f6_3b78);
    Squared(32, 0x82f6_3b78, 0x6ea2_d55c);
  }

  lemma X128()
    ensures Shifts(ONE, 128) == 0x18b8_ea18
  {
    hide Shifts;
    X64();
    Squared(64, 0x6ea2_d55c, 0x18b8_ea18);
  }

  lemma X512()
    ensures Shifts(ONE, 512) == 0xb82b_e955
  {
    hide Shifts;
    X128();
    Squared(128, 0x18b8_ea18, 0x510a_c59a);
    Squared(256, 0x510a_c59a, 0xb82b_e955);
  }

  lemma X2048()
    ensures Shifts(ONE, 2048) == 0x88e5_6f72
  {
    hide Shifts;
    X512();
    Squared(512, 0xb82b_e955, 0xb8fd_b1e7);
    Squared(1024, 0xb8fd_b1e7, 0x88e5_6f72);
  }

  lemma X8192()
    ensures Shifts(ONE, 8192) == 0xe417_2b16
  {
    hide Shifts;
    X2048();
    Squared(2048, 0x88e5_6f72, 0x74c3_60a4);
    Squared(4096, 0x74c3_60a4, 0xe417_2b16);
  }

  lemma X32768()
    ensures Shifts(ONE, 32768) == 0x35d7_3a62
  {
    hide Shifts;
    X8192();
    Squared(8192, 0xe417_2b16, 0x0d65_762a);
    Squared(16384, 0x0d65_762a, 0x35d7_3a62);
  }

  /** Checking a claimed result four bytes further on, where the count of shifts is a power of two. */
  lemma OverPage(c: bv32, r: bv32)
    requires Product(c, 0x35d7_3a62) == Shift8(Shift8(Shift8(Shift8(r))))
    ensures Shifts(c, 32736) == r
  {
    hide Product, Shifts, Shift;
    X32768();
    ShiftsIsProduct(c, 32768, 0x35d7_3a62);
    ShiftsAdd(c, 32736, 32);
    ShiftsAdd(r, 8, 24);
    Shifts8(r);
    var r1 := Shift8(r);
    ShiftsAdd(r1, 8, 16);
    Shifts8(r1);
    var r2 := Shift8(r1);
    ShiftsAdd(r2, 8, 8);
    Shifts8(r2);
    Shifts8(Shift8(r2));
    ShiftsInjective(Shifts(c, 32736), r, 32);
  }

  lemma Shifts8(c: bv32)
    ensures Shifts(c, 8) == Shift8(c)
  {
    hide Shift;
    ShiftsEight(c, Shift(Shift(Shift(Shift(c)))));
  }

  /** Swapping the two page types changes the lowest byte of the checksum of the page. */
  lemma TypeSwapOverPage()
    ensures Shifts(3, 32736) == 0xbcf2_9d4c
  {
    hide Shifts;
    OverPage(3, 0xbcf2_9d4c);
  }

  /** Some changes of the page type leave the lowest byte of the checksum alone. */
  lemma TypeChangeOverPage()
    ensures Shifts(203, 32736) == 0x587a_da00
  {
    hide Shifts;
    OverPage(203, 0x587a_da00);
  }

  /** A change of the lowest sequence number byte that leaves the lowest byte of a commit record's checksum alone. */
  lemma NumberOverRecord()
    ensures Shifts(50, 136) == 0x8e15_7700
  {
    hide Shifts, Product, Shift8;
    X128();
    ShiftsIsProduct(50, 128, 0x18b8_ea18);
    ShiftsAdd(50, 128, 8);
    Shifts8(0xdb9e_14cc);
    NumberBits();
  }

  lemma NumberBits()
    ensures Product(50, 0x18b8_ea18) == 0xdb9e_14cc && Shift8(0xdb9e_14cc) == 0x8e15_7700
  {
  }
}
