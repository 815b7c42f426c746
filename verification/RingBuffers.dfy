/** The per-sensor array of datamgr.c, used as a ring of `length` slots. */
module RingBuffers {
  import opened Sequences

  /** Slot k mod length holds reading k, for the last `length` readings. */
  ghost predicate RingHolds(slots: seq<real>, w: seq<real>, length: nat) {
    && 1 <= length == |slots|
    && forall k {:trigger w[k]} :: 0 <= k < |w| && |w| - length <= k ==> slots[k % length] == w[k]
  }

  lemma MultipleSteps(d: int, length: nat)
    requires length >= 1
    ensures d > 0 ==> d * length >= length
    ensures d < 0 ==> d * length <= -1 * length
  {
  }

  // Readings less than a window apart use different slots.
  lemma SlotsDiffer(j: nat, k: nat, length: nat)
    requires j < k < j + length
    ensures j % length != k % length
  {
    var d := k / length - j / length;
    assert k - j == d * length + (k % length - j % length);
    MultipleSteps(d, length);
  }

  lemma SlotOf(q: nat, r: nat, length: nat)
    requires r < length
    ensures (q * length + r) % length == r
  {
    var n := q * length + r;
    var d := n / length - q;
    assert n == n / length * length + n % length;
    assert d * length == r - n % length;
    MultipleSteps(d, length);
  }

  /** Overwriting slot |w| mod length keeps the ring: only the oldest reading goes. */
  lemma RingStores(slots: seq<real>, w: seq<real>, x: real, length: nat)
    requires RingHolds(slots, w, length)
    ensures RingHolds(slots[|w| % length := x], w + [x], length)
  {
    forall k | 0 <= k < |w| && |w| + 1 - length <= k
      ensures slots[|w| % length := x][k % length] == w[k]
    {
      SlotsDiffer(k, |w|, length);
    }
  }

  /** The array is a rotation of the window: its halves swapped at slot |w| mod length. */
  lemma RingIsRotation(slots: seq<real>, w: seq<real>, length: nat)
    requires RingHolds(slots, w, length) && length <= |w|
    ensures var r, window := |w| % length, w[|w| - length..];
      slots == window[length - r..] + window[..length - r]
  {
    var n, q, r := |w|, |w| / length, |w| % length;
    var window := w[n - length..];
    var rotated := window[length - r..] + window[..length - r];
    assert n == q * length + r;
    assert q >= 1;
    forall j | 0 <= j < length ensures slots[j] == rotated[j] {
      if j < r {
        var k := n - r + j;
        SlotOf(q, j, length);
        assert slots[k % length] == w[k];
      } else {
        var k := n - r - length + j;
        assert k == (q - 1) * length + j;
        SlotOf(q - 1, j, length);
        assert slots[k % length] == w[k];
      }
    }
  }

  /** So summing the slots in array order is summing the window in arrival order. */
  lemma RingSum(slots: seq<real>, w: seq<real>, length: nat)
    requires RingHolds(slots, w, length) && length <= |w|
    ensures Sum(slots) == Sum(w[|w| - length..])
  {
    var r, window := |w| % length, w[|w| - length..];
    var older, newer := window[..length - r], window[length - r..];
    assert slots == newer + older by {
      RingIsRotation(slots, w, length);
    }
    assert window == older + newer;
    SumConcat(newer, older);
    SumConcat(older, newer);
  }

  /** The repeated-subtraction loop that picks the slot for the next reading. */
  method ArrayPosition(nrOfMeass: nat, length: nat) returns (arrayPosition: nat)
    requires length >= 1
    ensures arrayPosition == nrOfMeass % length
  {
    var left := nrOfMeass;
    arrayPosition := 0;
    if left < length {
      arrayPosition := left;
      SlotOf(0, left, length);
    } else {
      ghost var q := 0;
      while left >= length
        invariant nrOfMeass == q * length + left
        invariant left < length ==> arrayPosition == left
        decreases left
      {
        left := left - length;
        q := q + 1;
        if left < length {
          arrayPosition := left;
        }
      }
      SlotOf(q, left, length);
    }
  }
}
