/** CLOCK victim selection. */
module Clock {

  /** The frame `j` places after the hand. */
  function Ahead(hand: nat, j: nat, n: nat): (f: nat)
    requires hand < n && j < n
    ensures f < n
  {
    if hand + j < n then hand + j else hand + j - n
  }

  /** How far ahead of the hand a frame is. */
  function Distance(hand: nat, f: nat, n: nat): (j: nat)
    requires hand < n && f < n
    ensures j < n && Ahead(hand, j, n) == f
  {
    if hand <= f then f - hand else f + n - hand
  }

  lemma AheadInjective(hand: nat, i: nat, j: nat, n: nat)
    requires hand < n && i < n && j < n && Ahead(hand, i, n) == Ahead(hand, j, n)
    ensures i == j
  {
  }

  ghost predicate Idle(pins: seq<nat>, bits: seq<bool>, f: nat)
    requires f < |pins| == |bits|
  {
    pins[f] == 0 && !bits[f]
  }

  /** The first unpinned frame with a clear bit, in clock order, if there is one. */
  ghost predicate FirstIdle(pins: seq<nat>, bits: seq<bool>, hand: nat, v: nat)
    requires hand < |pins| == |bits| && v < |pins|
  {
    && Idle(pins, bits, v)
    && forall f :: 0 <= f < |pins| && Idle(pins, bits, f) ==> Distance(hand, v, |pins|) <= Distance(hand, f, |pins|)
  }

  /** The first unpinned frame in clock order. */
  ghost predicate FirstUnpinned(pins: seq<nat>, hand: nat, v: nat)
    requires hand < |pins| && v < |pins|
  {
    && pins[v] == 0
    && forall f :: 0 <= f < |pins| && pins[f] == 0 ==> Distance(hand, v, |pins|) <= Distance(hand, f, |pins|)
  }

  ghost predicate AnyIdle(pins: seq<nat>, bits: seq<bool>)
    requires |pins| == |bits|
  {
    exists f :: 0 <= f < |pins| && Idle(pins, bits, f)
  }

  /** The frame CLOCK gives up: the first idle one, or if there is none the first unpinned one. */
  ghost predicate IsVictim(pins: seq<nat>, bits: seq<bool>, hand: nat, v: nat) {
    && hand < |pins| == |bits| && v < |pins|
    && if AnyIdle(pins, bits) then FirstIdle(pins, bits, hand, v) else FirstUnpinned(pins, hand, v)
  }

  /** There is but one such frame. */
  lemma VictimUnique(pins: seq<nat>, bits: seq<bool>, hand: nat, v: nat, w: nat)
    requires IsVictim(pins, bits, hand, v) && IsVictim(pins, bits, hand, w)
    ensures v == w
  {
    AheadInjective(hand, Distance(hand, v, |pins|), Distance(hand, w, |pins|), |pins|);
  }

  ghost function Victim(pins: seq<nat>, bits: seq<bool>, hand: nat): nat {
    if v: nat :| IsVictim(pins, bits, hand, v) then v else 0
  }

  ghost predicate AllPinned(pins: seq<nat>) {
    forall f :: 0 <= f < |pins| ==> pins[f] > 0
  }

  /** Bits after the hand has passed `swept` frames: cleared on the unpinned ones. */
  function Swept(pins: seq<nat>, bits: seq<bool>, hand: nat, swept: nat): (r: seq<bool>)
    requires hand < |pins| == |bits| && swept <= |pins|
    ensures |r| == |bits|
  {
    seq(|bits|, f requires 0 <= f < |bits| =>
      if pins[f] == 0 && Distance(hand, f, |pins|) < swept then false else bits[f])
  }

  /** The bits once the clock has stopped at `victim`: in its first round, or else in its second. */
  ghost function BitsAfter(pins: seq<nat>, bits: seq<bool>, hand: nat, victim: nat): (r: seq<bool>)
    requires hand < |pins| == |bits| && victim < |pins|
    ensures |r| == |bits|
  {
    Swept(pins, bits, hand, if AnyIdle(pins, bits) then Distance(hand, victim, |pins|) else |pins|)
  }

  /**
   * Two sweeps of the clock: the victim is the first unpinned frame with a clear reference bit if any
   * frame is such, otherwise the first unpinned frame; there is no victim exactly when every frame is
   * pinned, and then hand and bits are as they were. The hand ends just past the victim, and exactly
   * the unpinned frames it passed have lost their bit.
   */
  method FindVictim(pins: seq<nat>, bits: seq<bool>, hand: nat)
    returns (found: bool, victim: nat, newHand: nat, newBits: seq<bool>)
    requires hand < |pins| == |bits|
    ensures newHand < |pins| && |newBits| == |bits|
    ensures found <==> !AllPinned(pins)
    ensures !found ==> newHand == hand && newBits == bits
    ensures found ==> IsVictim(pins, bits, hand, victim) && pins[victim] == 0
    ensures found ==> newHand == (victim + 1) % |pins| && newBits == BitsAfter(pins, bits, hand, victim)
  {
    hide ClockInv, Swept, Distance, FirstIdle, FirstUnpinned, AnyIdle, AllPinned;
    var n := |pins|;
    newHand, newBits, victim := hand, bits, 0;
    ClockStarts(pins, bits, hand);
    for step := 0 to 2 * n
      invariant newHand < n && |newBits| == n
      invariant ClockInv(pins, bits, hand, step, newHand, newBits)
    {
      var frame := newHand;
      newHand := (newHand + 1) % n;
      if pins[frame] > 0 {
        ClockPasses(pins, bits, hand, step, frame, newBits, newHand, newBits);
      } else if newBits[frame] {
        ClockPasses(pins, bits, hand, step, frame, newBits, newHand, newBits[frame := false]);
        newBits := newBits[frame := false];
      } else {
        ClockStops(pins, bits, hand, step, frame, newBits);
        return true, frame, newHand, newBits;
      }
    }
    ClockEnds(pins, bits, hand, newHand, newBits);
    return false, 0, newHand, newBits;
  }

  /** After `step` steps without a victim. */
  ghost predicate ClockInv(pins: seq<nat>, bits: seq<bool>, hand: nat, step: nat, newHand: nat, newBits: seq<bool>)
    requires hand < |pins| == |bits|
  {
    var n := |pins|;
    && step <= 2 * n
    && newHand == Ahead(hand, if step < n then step else if step < 2 * n then step - n else 0, n)
    && newBits == Swept(pins, bits, hand, if step < n then step else n)
    && (forall j :: 0 <= j < n && j < step ==> !Idle(pins, bits, Ahead(hand, j, n)))
    && (forall j :: 0 <= j < n && n + j < step ==> pins[Ahead(hand, j, n)] > 0)
  }

  lemma ClockStarts(pins: seq<nat>, bits: seq<bool>, hand: nat)
    requires hand < |pins| == |bits|
    ensures ClockInv(pins, bits, hand, 0, hand, bits)
  {
  }

  lemma ClockPasses(
    pins: seq<nat>, bits: seq<bool>, hand: nat, step: nat, frame: nat, now: seq<bool>, newHand: nat, newBits: seq<bool>)
    requires hand < |pins| == |bits| && step < 2 * |pins| && ClockInv(pins, bits, hand, step, frame, now)
    requires newHand == (frame + 1) % |pins|
    requires if pins[frame] > 0 then newBits == now else now[frame] && newBits == now[frame := false]
    ensures ClockInv(pins, bits, hand, step + 1, newHand, newBits)
  {
    hide Swept, Distance, Ahead;
    var n := |pins|;
    var j := if step < n then step else step - n;
    HandMoves(hand, j, n);
    if step < n {
      if pins[frame] > 0 {
        SweptPinned(pins, bits, hand, step);
      } else {
        SweptNext(pins, bits, hand, step, frame);
      }
    }
    BitMeans(pins, bits, hand, step, frame, j, now);
  }

  /** In the first sweep a set bit was set all along; in the second no unpinned frame has one. */
  lemma BitMeans(pins: seq<nat>, bits: seq<bool>, hand: nat, step: nat, frame: nat, j: nat, now: seq<bool>)
    requires hand < |pins| == |bits| && j < |pins| && frame == Ahead(hand, j, |pins|)
    requires step == j || step == |pins| + j
    requires now == Swept(pins, bits, hand, if step < |pins| then step else |pins|)
    ensures step < |pins| ==> now[frame] == bits[frame]
    ensures step >= |pins| && now[frame] ==> pins[frame] > 0
  {
    AheadInjective(hand, j, Distance(hand, frame, |pins|), |pins|);
  }

  lemma ClockStops(pins: seq<nat>, bits: seq<bool>, hand: nat, step: nat, frame: nat, now: seq<bool>)
    requires hand < |pins| == |bits| && step < 2 * |pins| && ClockInv(pins, bits, hand, step, frame, now)
    requires pins[frame] == 0 && !now[frame]
    ensures !AllPinned(pins)
    ensures AnyIdle(pins, bits) ==>
      FirstIdle(pins, bits, hand, frame) && now == Swept(pins, bits, hand, Distance(hand, frame, |pins|))
    ensures !AnyIdle(pins, bits) ==> FirstUnpinned(pins, hand, frame) && now == Swept(pins, bits, hand, |pins|)
  {
    hide Swept, Ahead, FirstIdle, FirstUnpinned;
    var n := |pins|;
    var j := if step < n then step else step - n;
    BitMeans(pins, bits, hand, step, frame, j, now);
    AheadInjective(hand, j, Distance(hand, frame, n), n);
    if step < n {
      FirstIdleFound(pins, bits, hand, frame, j);
    } else {
      NoneIdle(pins, bits, hand);
      FirstUnpinnedFound(pins, hand, frame, j);
    }
  }

  lemma ClockEnds(pins: seq<nat>, bits: seq<bool>, hand: nat, newHand: nat, newBits: seq<bool>)
    requires hand < |pins| == |bits| && ClockInv(pins, bits, hand, 2 * |pins|, newHand, newBits)
    ensures AllPinned(pins) && newHand == hand && newBits == bits
  {
    NonePinned(pins, hand);
    SweptAllPinned(pins, bits, hand);
  }

  lemma HandMoves(hand: nat, j: nat, n: nat)
    requires hand < n && j < n
    ensures (Ahead(hand, j, n) + 1) % n == Ahead(hand, if j + 1 < n then j + 1 else 0, n)
  {
    var f := Ahead(hand, j, n);
    if f + 1 < n {
      assert (f + 1) % n == f + 1;
    } else {
      assert (f + 1) % n == 0;
    }
  }

  lemma SweptPinned(pins: seq<nat>, bits: seq<bool>, hand: nat, step: nat)
    requires hand < |pins| == |bits|
    requires step < |pins| ==> pins[Ahead(hand, step, |pins|)] > 0
    ensures step < |pins| ==> Swept(pins, bits, hand, step) == Swept(pins, bits, hand, step + 1)
  {
    if step < |pins| {
      forall f | 0 <= f < |pins|
        ensures Swept(pins, bits, hand, step)[f] == Swept(pins, bits, hand, step + 1)[f]
      {
        assert Distance(hand, f, |pins|) == step ==> f == Ahead(hand, step, |pins|);
      }
    }
  }

  lemma SweptNext(pins: seq<nat>, bits: seq<bool>, hand: nat, step: nat, frame: nat)
    requires hand < |pins| == |bits|
    requires step < |pins| ==> frame == Ahead(hand, step, |pins|) && pins[frame] == 0
    ensures step < |pins| ==> Swept(pins, bits, hand, step)[frame := false] == Swept(pins, bits, hand, step + 1)
  {
    if step < |pins| {
      var r := Swept(pins, bits, hand, step)[frame := false];
      forall f | 0 <= f < |pins|
        ensures r[f] == Swept(pins, bits, hand, step + 1)[f]
      {
        assert Distance(hand, f, |pins|) == step ==> f == frame;
        assert Distance(hand, frame, |pins|) == step;
      }
    }
  }

  lemma FirstIdleFound(pins: seq<nat>, bits: seq<bool>, hand: nat, v: nat, j: nat)
    requires hand < |pins| == |bits| && j < |pins| && v == Ahead(hand, j, |pins|) && Idle(pins, bits, v)
    requires forall i :: 0 <= i < j ==> !Idle(pins, bits, Ahead(hand, i, |pins|))
    ensures FirstIdle(pins, bits, hand, v)
  {
    AheadInjective(hand, j, Distance(hand, v, |pins|), |pins|);
    forall f | 0 <= f < |pins| && Idle(pins, bits, f)
      ensures j <= Distance(hand, f, |pins|)
    {
      assert f == Ahead(hand, Distance(hand, f, |pins|), |pins|);
    }
  }

  lemma NoneIdle(pins: seq<nat>, bits: seq<bool>, hand: nat)
    requires hand < |pins| == |bits|
    requires forall i :: 0 <= i < |pins| ==> !Idle(pins, bits, Ahead(hand, i, |pins|))
    ensures !AnyIdle(pins, bits)
  {
    forall f | 0 <= f < |pins|
      ensures !Idle(pins, bits, f)
    {
      assert f == Ahead(hand, Distance(hand, f, |pins|), |pins|);
    }
  }

  lemma FirstUnpinnedFound(pins: seq<nat>, hand: nat, v: nat, j: nat)
    requires hand < |pins| && j < |pins| && v == Ahead(hand, j, |pins|) && pins[v] == 0
    requires forall i :: 0 <= i < j ==> pins[Ahead(hand, i, |pins|)] > 0
    ensures FirstUnpinned(pins, hand, v)
  {
    AheadInjective(hand, j, Distance(hand, v, |pins|), |pins|);
    forall f | 0 <= f < |pins| && pins[f] == 0
      ensures j <= Distance(hand, f, |pins|)
    {
      assert f == Ahead(hand, Distance(hand, f, |pins|), |pins|);
    }
  }

  lemma NonePinned(pins: seq<nat>, hand: nat)
    requires hand < |pins|
    requires forall i :: 0 <= i < |pins| ==> pins[Ahead(hand, i, |pins|)] > 0
    ensures AllPinned(pins)
  {
    forall f | 0 <= f < |pins|
      ensures pins[f] > 0
    {
      assert f == Ahead(hand, Distance(hand, f, |pins|), |pins|);
    }
  }

  lemma SweptAllPinned(pins: seq<nat>, bits: seq<bool>, hand: nat)
    requires hand < |pins| == |bits| && AllPinned(pins)
    ensures Swept(pins, bits, hand, |pins|) == bits
  {
  }
}
