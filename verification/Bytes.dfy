/** Bytes, fixed-width integers and their little-endian encodings. */
module Bytes {

  type Byte = bv8

  /** The source's `u64`, with its width explicit. */
  type U64 = n: nat | n < 0x1_0000_0000_0000_0000

  function ByteOf(d: nat): (b: Byte)
    requires d < 256
    ensures b as nat == d
  {
    NatAsByte(d);
    d as bv8
  }

  lemma {:induction false} NatAsByte(d: nat)
    requires d < 256
    ensures (d as bv8) as nat == d
    decreases d
  {
    if d >= 2 {
      NatAsByte(d / 2);
      Doubled((d / 2) as bv8, d % 2 == 1);
    }
  }

  lemma Doubled(h: Byte, one: bool)
    requires h as nat < 128
    ensures (h + h + if one then 1 else 0) as nat == 2 * (h as nat) + if one then 1 else 0
  {
  }

  lemma ByteOfValue(b: Byte)
    ensures b as nat < 256 && ByteOf(b as nat) == b
  {
  }

  /** A byte with the bits of `mask` inverted. */
  function Flipped(b: Byte, mask: Byte): Byte { b ^ mask }

  predicate OneBit(mask: Byte) {
    mask == 1 || mask == 2 || mask == 4 || mask == 8 || mask == 16 || mask == 32 || mask == 64 || mask == 128
  }

  lemma FlippedDiffers(b: Byte, mask: Byte)
    requires mask != 0
    ensures Flipped(b, mask) != b
  {
  }

  function Zeros(n: nat): (z: seq<Byte>)
    ensures |z| == n
    ensures forall i :: 0 <= i < n ==> z[i] == 0
  {
    seq(n, _ => 0)
  }

  // ----- u64, little-endian

  function Pow256(w: nat): nat {
    if w == 0 then 1 else 256 * Pow256(w - 1)
  }

  function Digits(n: nat, w: nat): (s: seq<Byte>)
    ensures |s| == w
  {
    if w == 0 then [] else [ByteOf(n % 256)] + Digits(n / 256, w - 1)
  }

  function Value(s: seq<Byte>): nat {
    if s == [] then 0 else s[0] as nat + 256 * Value(s[1..])
  }

  lemma {:induction false} ValueOfDigits(n: nat, w: nat)
    requires n < Pow256(w)
    ensures Value(Digits(n, w)) == n
  {
    if w > 0 {
      ValueOfDigits(n / 256, w - 1);
      assert Digits(n, w)[1..] == Digits(n / 256, w - 1);
    }
  }

  lemma {:induction false} DigitsOfValue(s: seq<Byte>)
    ensures Value(s) < Pow256(|s|)
    ensures Digits(Value(s), |s|) == s
  {
    if s != [] {
      hide ByteOf;
      var d, v := s[0] as nat, Value(s[1..]);
      DigitsOfValue(s[1..]);
      ByteOfValue(s[0]);
      LowestDigit(d, v);
      assert Digits(d + 256 * v, |s|) == [ByteOf(d)] + Digits(v, |s| - 1);
    }
  }

  lemma LowestDigit(d: nat, v: nat)
    requires d < 256
    ensures (d + 256 * v) % 256 == d && (d + 256 * v) / 256 == v
  {
  }

  lemma Pow256Of8()
    ensures Pow256(8) == 0x1_0000_0000_0000_0000
  {
    assert Pow256(4) == 0x1_0000_0000;
    assert Pow256(5) == 256 * Pow256(4);
    assert Pow256(6) == 256 * Pow256(5);
    assert Pow256(7) == 256 * Pow256(6);
  }

  /** `u64::to_le_bytes` and `u64::from_le_bytes` are inverse in both directions. */
  function Le64(n: U64): (s: seq<Byte>)
    ensures |s| == 8
    ensures FromLe64(s) == n
  {
    Pow256Of8();
    ValueOfDigits(n, 8);
    Digits(n, 8)
  }

  function FromLe64(s: seq<Byte>): (n: U64)
    requires |s| == 8
  {
    Pow256Of8();
    DigitsOfValue(s);
    Value(s)
  }

  lemma Le64OfFromLe64(s: seq<Byte>)
    requires |s| == 8
    ensures Le64(FromLe64(s)) == s
  {
    DigitsOfValue(s);
  }

  // ----- u32, little-endian

  function Le32(c: bv32): (s: seq<Byte>)
    ensures |s| == 4
    ensures FromLe32(s) == c
  {
    [(c & 0xFF) as bv8, ((c >> 8) & 0xFF) as bv8, ((c >> 16) & 0xFF) as bv8, (c >> 24) as bv8]
  }

  function FromLe32(s: seq<Byte>): (c: bv32)
    requires |s| == 4
  {
    (s[0] as bv32) | ((s[1] as bv32) << 8) | ((s[2] as bv32) << 16) | ((s[3] as bv32) << 24)
  }

  lemma FromLe32Bytes(s: seq<Byte>)
    requires |s| == 4
    ensures Le32(FromLe32(s)) == s
  {
  }

  lemma FromLe32Injective(s: seq<Byte>, t: seq<Byte>)
    requires |s| == |t| == 4
    requires FromLe32(s) == FromLe32(t)
    ensures s == t
  {
    FromLe32Bytes(s);
    FromLe32Bytes(t);
  }
}
