/**
  Slot selection over free-running 64-bit cursors: cursor `k` of the unbounded
  count is stored as `Wrap(k)` and lands in slot `Wrap(k) % slot_count`.
 */
module Cursors {
  import opened Words

  function SlotOf(cursor: u64, slots: nat): (r: nat)
    requires 0 < slots
    ensures r < slots
  {
    cursor % slots
  }

  /** Every window of `slots` consecutive counts uses pairwise distinct slots. */
  ghost predicate WindowsDistinct(slots: nat)
    requires 0 < slots
  {
    forall i: nat, j: nat | i < j < i + slots :: SlotOf(Wrap(i), slots) != SlotOf(Wrap(j), slots)
  }

  /** Cursors up to `k` are told apart by their slots: either the wrap is invisible or it has not happened. */
  predicate Coherent(slots: nat, k: nat)
    requires 0 < slots
  {
    WORD % slots == 0 || k < WORD
  }

  lemma ModOfMultiple(x: nat, d: nat, m: nat)
    requires 0 < d && 0 < m && m % d == 0
    ensures (x % m) % d == x % d
  {
    var q := m / d;
    var t := x / m;
    assert m == d * q && x == m * t + x % m;
    var r := x % m;
    assert x == d * (q * t + r / d) + r % d by {
      assert m * t == d * (q * t);
      assert r == d * (r / d) + r % d;
    }
    UniqueRemainder(x, d, q * t + r / d, r % d);
  }

  lemma EqualRemainders(i: nat, j: nat, d: nat)
    requires 0 < d && i < j && i % d == j % d
    ensures i + d <= j
  {
    var e := j / d - i / d;
    assert j - i == d * e;
    PositiveMultiple(d, e);
  }

  /** The exclusion fact the ring rests on, on both sides of the wrap. */
  lemma SlotsApart(slots: nat, i: nat, j: nat)
    requires 0 < slots && i < j < i + slots && Coherent(slots, j)
    ensures SlotOf(Wrap(i), slots) != SlotOf(Wrap(j), slots)
  {
    if i % slots == j % slots {
      EqualRemainders(i, j, slots);
    }
    if WORD % slots == 0 {
      ModOfMultiple(i, slots, WORD);
      ModOfMultiple(j, slots, WORD);
    }
  }

  /** A slot count is safe across the 2^64 wrap exactly when it divides 2^64. */
  lemma WindowsDistinctIff(slots: nat)
    requires 2 <= slots < WORD
    ensures WindowsDistinct(slots) <==> WORD % slots == 0
  {
    var r := WORD % slots;
    if r == 0 {
      forall i: nat, j: nat | i < j < i + slots
        ensures SlotOf(Wrap(i), slots) != SlotOf(Wrap(j), slots)
      {
        SlotsApart(slots, i, j);
      }
    } else {
      CollisionAtWrap(slots);
      assert SlotOf(Wrap(WORD - r), slots) == SlotOf(Wrap(WORD), slots);
    }
  }

  /** Otherwise the count 2^64 lands on a slot used fewer than `slots` counts earlier. */
  lemma CollisionAtWrap(slots: nat)
    requires 2 <= slots < WORD && WORD % slots != 0
    ensures var early := WORD - WORD % slots;
            early < WORD < early + slots
            && SlotOf(Wrap(early), slots) == 0 && SlotOf(Wrap(WORD), slots) == 0
  {
    var r := WORD % slots;
    assert WORD - r == slots * (WORD / slots) + 0;
    UniqueRemainder(WORD - r, slots, WORD / slots, 0);
  }

  /** `create` accepts three slots; they collide at the wrap. */
  lemma ThreeSlotsCollide()
    ensures SlotOf(Wrap(WORD - 1), 3) == SlotOf(Wrap(WORD), 3) == 0
    ensures !WindowsDistinct(3)
  {
    CollisionAtWrap(3);
    WindowsDistinctIff(3);
  }

  function Pow2(k: nat): (r: nat)
    ensures 0 < r
  {
    if k == 0 then 1 else 2 * Pow2(k - 1)
  }

  lemma {:induction false} Pow2Adds(a: nat, b: nat)
    ensures Pow2(a + b) == Pow2(a) * Pow2(b)
  {
    if a > 0 {
      Pow2Adds(a - 1, b);
    }
  }

  lemma OddTimesOdd(a: nat, b: nat)
    requires a % 2 == 1 && b % 2 == 1
    ensures (a * b) % 2 == 1
  {
    var c, e := a / 2, b / 2;
    assert a * b == 2 * (2 * (c * e) + c + e) + 1 by {
      assert a * b == (2 * c + 1) * (2 * e + 1);
    }
  }

  /** Divisors of a power of two are powers of two. */
  lemma {:induction false} DivisorOfPow2(d: nat, q: nat, m: nat) returns (k: nat)
    requires d * q == Pow2(m)
    ensures k <= m && d == Pow2(k)
    decreases m
  {
    if m == 0 {
      assert d <= d * q by {
        assert 0 < d && 0 < q;
      }
      k := 0;
    } else if d % 2 == 0 {
      assert 2 * ((d / 2) * q) == d * q;
      var k' := DivisorOfPow2(d / 2, q, m - 1);
      k := k' + 1;
    } else {
      if q % 2 == 1 {
        OddTimesOdd(d, q);
      }
      assert 2 * (d * (q / 2)) == d * q;
      k := DivisorOfPow2(d, q / 2, m - 1);
    }
  }

  lemma Pow2Of64()
    ensures Pow2(64) == WORD
  {
    assert Pow2(8) == 0x100;
    Pow2Adds(8, 8);
    assert Pow2(16) == 0x1_0000;
    Pow2Adds(16, 16);
    assert Pow2(32) == 0x1_0000_0000;
    Pow2Adds(32, 32);
  }

  lemma Pow2DividesWord(k: nat)
    requires k <= 64
    ensures WORD % Pow2(k) == 0
  {
    Pow2Of64();
    Pow2Adds(k, 64 - k);
    UniqueRemainder(WORD, Pow2(k), Pow2(64 - k), 0);
  }

  lemma DivisorOfWord(slots: nat) returns (k: nat)
    requires 0 < slots && WORD % slots == 0
    ensures k <= 64 && slots == Pow2(k)
  {
    Pow2Of64();
    assert slots * (WORD / slots) == WORD;
    k := DivisorOfPow2(slots, WORD / slots, 64);
  }

  /** The condition a caller of `create` can check: the slot count is a power of two. */
  lemma SafeCountsArePowersOfTwo(slots: nat)
    requires 2 <= slots < WORD
    ensures WORD % slots == 0 <==> exists k: nat :: k <= 64 && slots == Pow2(k)
  {
    if WORD % slots == 0 {
      var k := DivisorOfWord(slots);
    }
    forall k: nat | k <= 64 && slots == Pow2(k)
      ensures WORD % slots == 0
    {
      Pow2DividesWord(k);
    }
  }
}
