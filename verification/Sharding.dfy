/** How the pool is split into shards, and which shard a page lives in. */
module Sharding {
  import opened Bytes

  const MULTIPLIER: nat := 0x9E37_79B9_7F4A_7C15
  const INVERSE: nat := 0xF1DE_83E1_9937_733D
  const TARGET_SHARD_FRAMES: nat := 64
  const MAX_SHARDS: nat := 64

  function Pow2(k: nat): (n: nat)
    ensures n > 0
  {
    if k == 0 then 1 else 2 * Pow2(k - 1)
  }

  /** Rounded-down binary logarithm. */
  function Ilog2(w: nat): nat
    requires w > 0
  {
    if w == 1 then 0 else 1 + Ilog2(w / 2)
  }

  lemma {:induction false} Ilog2Brackets(w: nat)
    requires w > 0
    ensures Pow2(Ilog2(w)) <= w < Pow2(Ilog2(w) + 1)
  {
    if w > 1 {
      Ilog2Brackets(w / 2);
    }
  }

  lemma {:induction false} Pow2Monotone(a: nat, b: nat)
    ensures a < b <==> Pow2(a) < Pow2(b)
  {
    if a > 0 && b > 0 {
      Pow2Monotone(a - 1, b - 1);
    } else if a == 0 && b > 0 {
      assert Pow2(b) == 2 * Pow2(b - 1);
    } else if a > 0 {
      assert Pow2(a) == 2 * Pow2(a - 1);
    }
  }

  function Wanted(capacity: nat): nat {
    var w := capacity / TARGET_SHARD_FRAMES;
    if w < 1 then 1 else if w > MAX_SHARDS then MAX_SHARDS else w
  }

  function ShardCount(capacity: nat): nat {
    Pow2(Ilog2(Wanted(capacity)))
  }

  /**
   * The count is a power of two; with two shards or more each has at least 64 frames, and with less than 64
   * shards twice as many would leave some with fewer.
   */
  lemma ShardCountIs(capacity: nat)
    ensures exists k: nat :: k <= 6 && ShardCount(capacity) == Pow2(k)
    ensures 1 <= ShardCount(capacity) <= 64
    ensures ShardCount(capacity) > 1 ==> 64 * ShardCount(capacity) <= capacity
    ensures ShardCount(capacity) < 64 ==> capacity < 64 * (2 * ShardCount(capacity))
    ensures capacity > 0 ==> ShardCount(capacity) <= capacity
  {
    var w := Wanted(capacity);
    var e := Ilog2(w);
    Ilog2Brackets(w);
    assert Pow2(7) == 128;
    Pow2Monotone(e, 7);
    assert e <= 6;
    assert Pow2(6) == 64 && Pow2(e + 1) == 2 * Pow2(e);
    Pow2Monotone(e, 6);
  }

  function FramesIn(capacity: nat, count: nat, i: nat): nat
    requires count > 0
  {
    capacity / count + if i < capacity % count then 1 else 0
  }

  function TotalFrames(capacity: nat, count: nat, n: nat): nat
    requires count > 0
  {
    if n == 0 then 0 else TotalFrames(capacity, count, n - 1) + FramesIn(capacity, count, n - 1)
  }

  lemma {:induction false} TotalOfFirst(capacity: nat, count: nat, n: nat)
    requires count > 0 && n <= count
    ensures TotalFrames(capacity, count, n)
         == n * (capacity / count) + if n < capacity % count then n else capacity % count
  {
    if n > 0 {
      TotalOfFirst(capacity, count, n - 1);
      assert n * (capacity / count) == (n - 1) * (capacity / count) + capacity / count;
    }
  }

  /** The shards share out the capacity exactly, the first ones one frame more, and none is empty. */
  lemma SharesAddUp(capacity: nat)
    requires capacity > 0
    ensures TotalFrames(capacity, ShardCount(capacity), ShardCount(capacity)) == capacity
    ensures forall i: nat :: i < ShardCount(capacity) ==> FramesIn(capacity, ShardCount(capacity), i) > 0
    ensures forall i: nat, j: nat :: i < j < ShardCount(capacity) ==>
      var count := ShardCount(capacity);
      FramesIn(capacity, count, i) - 1 <= FramesIn(capacity, count, j) <= FramesIn(capacity, count, i)
  {
    hide ShardCount, Wanted, Pow2;
    ShardCountIs(capacity);
    SharesOf(capacity, ShardCount(capacity));
  }

  lemma SharesOf(capacity: nat, count: nat)
    requires 0 < count <= capacity
    ensures TotalFrames(capacity, count, count) == capacity
    ensures forall i: nat :: i < count ==> FramesIn(capacity, count, i) > 0
  {
    TotalOfFirst(capacity, count, count);
    QuotientPositive(capacity, count);
    hide TotalFrames;
  }

  lemma QuotientPositive(a: nat, b: nat)
    requires 0 < b <= a
    ensures a / b > 0
  {
    assert a == b * (a / b) + a % b;
  }

  // ----- hashing

  /** Bitwise and. */
  function And(a: nat, b: nat): nat {
    if a == 0 || b == 0 then 0
    else 2 * And(a / 2, b / 2) + if a % 2 == 1 && b % 2 == 1 then 1 else 0
  }

  lemma {:induction false} AndMask(a: nat, k: nat, n: nat)
    requires n == Pow2(k)
    ensures And(a, n - 1) == a % n
    decreases k
  {
    hide And;
    if k == 0 || a == 0 {
      AndZero(a, n - 1);
      SmallMod(a, n);
    } else {
      var half := Pow2(k - 1);
      hide Pow2;
      AndMask(a / 2, k - 1, half);
      AndOdd(a, half, n);
    }
  }

  lemma SmallMod(a: nat, n: nat)
    requires n == 1 || (n > 0 && a == 0)
    ensures a % n == 0
  {
  }

  lemma AndZero(a: nat, b: nat)
    requires a == 0 || b == 0
    ensures And(a, b) == 0
  {
  }

  lemma AndOdd(a: nat, half: nat, n: nat)
    requires a > 0 && half > 0 && n == 2 * half && And(a / 2, half - 1) == a / 2 % half
    ensures And(a, n - 1) == a % n
  {
    HalfMod(a, half);
    assert (n - 1) / 2 == half - 1 && (n - 1) % 2 == 1;
    assert And(a, n - 1) == 2 * And(a / 2, half - 1) + a % 2;
  }

  lemma HalfMod(a: nat, n: nat)
    requires n > 0
    ensures a % (2 * n) == 2 * (a / 2 % n) + a % 2
  {
    var h := a / 2;
    var q, r := h / n, h % n;
    assert h == n * q + r;
    assert a == (2 * n) * q + (2 * r + a % 2);
    RemainderIs(a, 2 * n, q, 2 * r + a % 2);
  }

  lemma RemainderIs(a: int, n: nat, q: int, r: nat)
    requires n > 0 && r < n && a == n * q + r
    ensures a % n == r && a / n == q
  {
    var d := a / n - q;
    assert a == n * (a / n) + a % n;
    assert n * d == r - a % n by {
      assert n * d == n * (a / n) - n * q;
    }
    assert d >= 1 ==> n * d >= n;
    assert d <= -1 ==> n * d <= n * -1;
  }

  function Hash(id: U64): U64 {
    (id * MULTIPLIER) % 0x1_0000_0000_0000_0000
  }

  function ShardFor(id: U64, count: nat): nat
    requires count > 0
  {
    And(Hash(id) / 0x1_0000_0000, count - 1)
  }

  lemma ShardForInRange(id: U64, capacity: nat)
    ensures ShardFor(id, ShardCount(capacity)) < ShardCount(capacity)
    ensures ShardFor(id, ShardCount(capacity))
         == (id * 0x9E37_79B9_7F4A_7C15) % 0x1_0000_0000_0000_0000 / 0x1_0000_0000 % ShardCount(capacity)
  {
    ShardCountIs(capacity);
    var k: nat :| k <= 6 && ShardCount(capacity) == Pow2(k);
    AndMask(Hash(id) / 0x1_0000_0000, k, Pow2(k));
  }

  /** Numbers with the same remainder differ by a multiple. */
  lemma Apart(a: int, b: int, n: nat) returns (s: int)
    requires n > 0 && a % n == b % n
    ensures a == b + n * s
  {
    s := a / n - b / n;
    assert a == n * (a / n) + a % n && b == n * (b / n) + b % n;
  }

  lemma SameRemainder(a: int, b: int, n: nat, s: int)
    requires n > 0 && a == b + n * s
    ensures a % n == b % n
  {
    assert b == n * (b / n) + b % n;
    assert a == n * (b / n + s) + b % n;
    RemainderIs(a, n, b / n + s, b % n);
  }

  lemma {:induction false} Pow2Adds(a: nat, b: nat)
    ensures Pow2(a + b) == Pow2(a) * Pow2(b)
  {
    if a > 0 {
      Pow2Adds(a - 1, b);
      assert Pow2(a) * Pow2(b) == 2 * (Pow2(a - 1) * Pow2(b));
    }
  }

  /** Wrapping at 64 bits does not disturb the low `k` bits. */
  lemma HashLow(id: U64, k: nat)
    requires k <= 64
    ensures Hash(id) % Pow2(k) == id * MULTIPLIER % Pow2(k)
  {
    hide Pow2;
    Word64();
    Pow2Adds(k, 64 - k);
    Wraps(id * MULTIPLIER, Pow2(k), Pow2(64 - k), 0x1_0000_0000_0000_0000);
  }

  lemma Wraps(z: nat, n: nat, c: nat, all: nat)
    requires n > 0 && all > 0 && all == n * c
    ensures z % all % n == z % n
  {
    var q := z / all;
    assert z == all * q + z % all;
    assert all * q == n * (c * q);
    SameRemainder(z, z % all, n, c * q);
  }

  lemma Word64()
    ensures Pow2(64) == 0x1_0000_0000_0000_0000
  {
    hide Pow2;
    Word8();
    Pow2Adds(8, 8);
    Pow2Adds(16, 16);
    Pow2Adds(32, 32);
  }

  lemma Word8()
    ensures Pow2(8) == 256
  {
  }

  /**
   * Multiplying by the odd constant loses nothing in the low bits: two ids collide in the low `k`
   * bits of the hash exactly when they agree in their own low `k` bits. At 64, no two ids collide.
   */
  lemma HashInjective(x: U64, y: U64, k: nat)
    requires k <= 64
    ensures Hash(x) % Pow2(k) == Hash(y) % Pow2(k) <==> x % Pow2(k) == y % Pow2(k)
  {
    hide Pow2, Hash;
    var n := Pow2(k);
    HashLow(x, k);
    HashLow(y, k);
    if x * MULTIPLIER % n == y * MULTIPLIER % n {
      var t := Apart(x * MULTIPLIER, y * MULTIPLIER, n);
      Undo(x, y, k, n, t);
    }
    if x % n == y % n {
      var s := Apart(x, y, n);
      assert x * MULTIPLIER == y * MULTIPLIER + n * (s * MULTIPLIER);
      SameRemainder(x * MULTIPLIER, y * MULTIPLIER, n, s * MULTIPLIER);
    }
  }

  lemma Undo(x: int, y: int, k: nat, n: nat, t: int)
    requires k <= 64 && n == Pow2(k) && x * MULTIPLIER == y * MULTIPLIER + n * t
    ensures x % n == y % n
  {
    hide Pow2;
    var c, d := Pow2(64 - k), x - y;
    var q := 10771413168148108919;
    Word64();
    Pow2Adds(k, 64 - k);
    assert n * (c * q) == 0x1_0000_0000_0000_0000 * q;
    Cancel(d, n, c * q, t);
    SameRemainder(x, y, n, t * INVERSE - d * (c * q));
  }

  lemma Cancel(d: int, n: int, e: int, t: int)
    requires d * MULTIPLIER == n * t && MULTIPLIER * INVERSE == 1 + n * e
    ensures d == n * (t * INVERSE - d * e)
  {
    calc {
      d + n * (d * e);
      d * (1 + n * e);
      d * MULTIPLIER * INVERSE;
      n * t * INVERSE;
      n * (t * INVERSE);
    }
  }
}
