/** The ring's index arithmetic: a mask instead of a remainder, legal only for powers of two. */
module MaskedIncrement {
  import opened Words

  /** Bitwise AND of two naturals, bit by bit from the least significant one. */
  function BitAnd(a: nat, b: nat): (r: nat)
    ensures r <= b
  {
    if a == 0 || b == 0 then 0
    else (a % 2) * (b % 2) + 2 * BitAnd(a / 2, b / 2)
  }

  function Pow2(k: nat): (r: nat)
    ensures r >= 1
  {
    if k == 0 then 1 else 2 * Pow2(k - 1)
  }

  /** The compile-time check on the buffer length. */
  predicate ValidLength(n: u32) {
    n != 0 && BitAnd(n, n - 1) == 0
  }

  function Increment(n: u32, current: u32): (r: u32)
    requires n != 0
    ensures r < n
  {
    BitAnd((current + 1) % U32_LIMIT, n - 1)
  }

  lemma {:induction false} AndWithItself(a: nat)
    ensures BitAnd(a, a) == a
  {
    if a != 0 {
      AndWithItself(a / 2);
      assert (a % 2) * (a % 2) == a % 2;
    }
  }

  lemma ModSplit(x: nat, m: nat)
    requires m >= 1
    ensures x % (2 * m) == x % 2 + 2 * ((x / 2) % m)
  {
    var h := x / 2;
    var q := h / m;
    assert h == m * q + h % m;
    var r := x % 2 + 2 * (h % m);
    assert x == (2 * m) * q + r by {
      assert (2 * m) * q == 2 * (m * q);
    }
    assert 0 <= r < 2 * m;
    QuotientUnique(x, 2 * m, q, r);
  }

  lemma MulDistributes(d: int, a: int, b: int)
    ensures d * (a - b) == d * a - d * b
  {}

  lemma MulAtLeast(d: int, k: int)
    requires d > 0 && k >= 1
    ensures d * k >= d
  {
    MulDistributes(d, k, 1);
  }

  /** Quotient and remainder are determined by the division equation. */
  lemma QuotientUnique(x: int, d: int, q: int, r: int)
    requires d > 0 && x == d * q + r && 0 <= r < d
    ensures x % d == r && x / d == q
  {
    var q', r' := x / d, x % d;
    MulDistributes(d, q, q');
    if q > q' {
      MulAtLeast(d, q - q');
      assert false;
    } else if q < q' {
      MulDistributes(d, q', q);
      MulAtLeast(d, q' - q);
      assert false;
    }
  }

  lemma {:induction false} MaskIsRemainder(x: nat, k: nat)
    ensures BitAnd(x, Pow2(k) - 1) == x % Pow2(k)
  {
    if k == 0 {
    } else if x == 0 {
      assert 0 < Pow2(k);
    } else {
      MaskIsRemainder(x / 2, k - 1);
      ModSplit(x, Pow2(k - 1));
      assert (Pow2(k) - 1) % 2 == 1 && (Pow2(k) - 1) / 2 == Pow2(k - 1) - 1;
    }
  }

  /** The static assertion accepts exactly the powers of two. */
  lemma {:induction false} ValidLengthIsPowerOfTwo(n: nat)
    ensures (n != 0 && BitAnd(n, n - 1) == 0) <==> exists k: nat :: n == Pow2(k)
    decreases n
  {
    if n == 0 {
    } else if n == 1 {
      assert n == Pow2(0);
    } else if n % 2 == 1 {
      assert (n - 1) / 2 == n / 2;
      AndWithItself(n / 2);
      if k: nat :| n == Pow2(k) {
        assert false;
      }
    } else {
      assert (n - 1) % 2 == 1 && (n - 1) / 2 == n / 2 - 1;
      ValidLengthIsPowerOfTwo(n / 2);
      if k: nat :| n / 2 == Pow2(k) {
        assert n == Pow2(k + 1);
      }
      if k: nat :| n == Pow2(k) {
        assert k != 0;
        assert n == 2 * Pow2(k - 1);
        assert n / 2 == Pow2(k - 1);
      }
    }
  }

  /** The slot that the `w`-th write of a run uses. */
  function SlotOf(n: u32, w: nat): (r: u32)
    requires n != 0
    ensures r < n
  {
    w % n
  }

  /** Writes closer together than the length of the ring use different slots. */
  lemma SlotsDiffer(n: u32, a: nat, b: nat)
    requires n != 0 && a < b < a + n
    ensures SlotOf(n, a) != SlotOf(n, b)
  {
    if a % n == b % n {
      MulDistributes(n, b / n, a / n);
      if b / n > a / n {
        MulAtLeast(n, b / n - a / n);
      } else if a / n > b / n {
        MulDistributes(n, a / n, b / n);
        MulAtLeast(n, a / n - b / n);
      }
      assert false;
    }
  }

  lemma SlotRepeats(n: u32, a: nat)
    requires n != 0
    ensures SlotOf(n, a + n) == SlotOf(n, a)
  {
    MulDistributes(n, a / n + 1, a / n);
    QuotientUnique(a + n, n, a / n + 1, a % n);
  }

  /** Slots agree within one lap exactly when the writes are the same or one lap apart. */
  lemma SlotsAgree(n: u32, a: nat, b: nat)
    requires n != 0 && a <= b <= a + n
    ensures SlotOf(n, a) == SlotOf(n, b) <==> a == b || b == a + n
  {
    if b == a + n {
      SlotRepeats(n, a);
    } else if a < b {
      SlotsDiffer(n, a, b);
    }
  }

  lemma RemainderOfSuccessor(n: nat, w: nat)
    requires n >= 1
    ensures (w + 1) % n == if w % n + 1 == n then 0 else w % n + 1
  {
    var q, r := w / n, w % n;
    assert w == n * q + r;
    if r + 1 == n {
      MulDistributes(n, q + 1, q);
      QuotientUnique(w + 1, n, q + 1, 0);
    } else {
      QuotientUnique(w + 1, n, q, r + 1);
    }
  }

  lemma NextSlot(n: u32, w: nat)
    requires ValidLength(n)
    ensures Increment(n, SlotOf(n, w)) == SlotOf(n, w + 1)
  {
    var slot := SlotOf(n, w);
    IncrementIsModular(n, slot);
    RemainderOfSuccessor(n, w);
    RemainderOfSuccessor(n, slot);
    assert slot % n == slot by { QuotientUnique(slot, n, 0, slot); }
  }

  /** For every length the class accepts, the masked increment is addition modulo the length. */
  lemma IncrementIsModular(n: u32, current: u32)
    requires ValidLength(n) && current < n
    ensures Increment(n, current) == (current + 1) % n
  {
    ValidLengthIsPowerOfTwo(n);
    var k: nat :| n == Pow2(k);
    NoWrap(current + 1);
    MaskIsRemainder(current + 1, k);
  }

  lemma NoWrap(x: u32)
    ensures x % U32_LIMIT == x
  {}
}
