/**
  Arithmetic shared by the two virtqueue layouts: unbounded ring positions, the slot and
  the lap parity they map to, 16-bit truncation and the power-of-two mask.
 */
module RingMath {

  const U16 := 0x1_0000

  /** The slot that unbounded position `p` occupies in a ring of `n` slots. */
  function Slot(p: nat, n: nat): (s: nat)
    requires n > 0
    ensures s < n
  {
    if p < n then p else Slot(p - n, n)
  }

  /** The wrap counter of the lap that position `p` belongs to; the first lap has it set. */
  predicate Phase(p: nat, n: nat)
    requires n > 0
  {
    if p < n then true else !Phase(p - n, n)
  }

  /** `Slot` and `Phase` are the remainder and the parity of the quotient. */
  lemma {:induction false} SlotIsMod(p: nat, n: nat)
    requires n > 0
    ensures Slot(p, n) == p % n
    ensures Phase(p, n) <==> (p / n) % 2 == 0
  {
    if p >= n {
      SlotIsMod(p - n, n);
      DivModStep(p, n);
    } else {
      DivModSmall(p, n);
    }
  }

  lemma DivModSmall(p: nat, n: nat)
    requires p < n
    ensures p % n == p && p / n == 0
  {
  }

  lemma DivModStep(p: nat, n: nat)
    requires n > 0 && p >= n
    ensures p % n == (p - n) % n && p / n == (p - n) / n + 1
  {
    var q, r := (p - n) / n, (p - n) % n;
    assert p == n * (q + 1) + r;
    DivModUnique(p, n, q + 1, r);
  }

  lemma DivModUnique(p: int, n: int, q: int, r: int)
    requires n > 0 && 0 <= r < n && p == n * q + r
    ensures p / n == q && p % n == r
  {
    var q', r' := p / n, p % n;
    assert p == n * q' + r';
    MultipleBetween(q' - q, r - r', n);
  }

  lemma MultipleBetween(d: int, e: int, n: int)
    requires n > 0 && -n < e < n && n * d == e
    ensures d == 0 && e == 0
  {
    MulGrows(n, d);
  }

  lemma MulGrows(n: int, d: int)
    requires n > 0
    ensures d >= 1 ==> n * d >= n
    ensures d <= -1 ==> n * d <= -n
  {
    if d >= 1 {
      assert n * (d - 1) >= 0;
    } else if d <= -1 {
      assert n * (d + 1) <= 0;
    }
  }

  /** Moving forward by at most one lap: the index computation both drivers use. */
  lemma {:induction false} SlotAdd(p: nat, k: nat, n: nat)
    requires n > 0 && k <= n
    ensures Slot(p + k, n) == if Slot(p, n) + k >= n then Slot(p, n) + k - n else Slot(p, n) + k
    ensures Phase(p + k, n) <==> (Phase(p, n) <==> Slot(p, n) + k < n)
  {
    if p >= n {
      SlotAdd(p - n, k, n);
      assert Slot(p + k, n) == Slot(p - n + k, n);
    }
  }

  /** Two positions less than a lap apart never share a slot. */
  lemma SlotsDiffer(p: nat, q: nat, n: nat)
    requires n > 0 && p < q < p + n
    ensures Slot(p, n) != Slot(q, n)
  {
    SlotAdd(p, q - p, n);
  }

  lemma WindowInjective(base: nat, n: nat)
    requires n > 0
    ensures forall p: nat, q: nat {:trigger Slot(p, n), Slot(q, n)} ::
              base <= p < base + n && base <= q < base + n && Slot(p, n) == Slot(q, n) ==> p == q
  {
    forall p: nat, q: nat | base <= p < base + n && base <= q < base + n && p != q
      ensures Slot(p, n) != Slot(q, n)
    {
      if p < q { SlotsDiffer(p, q, n); } else { SlotsDiffer(q, p, n); }
    }
  }

  /** Truncation to 16 bits, C's `(u16)x`, for either sign. */
  function Trunc16(x: int): (r: nat)
    ensures r < U16
  {
    x % U16
  }

  /** `vring_need_event`, on 16-bit operands. */
  predicate NeedEvent(event: nat, newer: nat, older: nat) {
    Trunc16(newer - event - 1) < Trunc16(newer - older)
  }

  /** It holds exactly when the event index lies in the half-open range from `older` to `newer`, modulo `2^16`. */
  lemma NeedEventIsRange(event: nat, newer: nat, older: nat)
    requires event < U16 && newer < U16 && older < U16
    ensures NeedEvent(event, newer, older) <==>
            exists i: nat :: i < Trunc16(newer - older) && Ahead(older, i) == event
  {
    if NeedEvent(event, newer, older) {
      var i := Trunc16(event - older);
      assert i < Trunc16(newer - older) && Ahead(older, i) == event;
    }
  }

  /** The 16-bit index `i` steps after `x`. */
  function Ahead(x: nat, i: nat): nat {
    Trunc16(x + i)
  }

  /** Bitwise and on unbounded naturals. */
  function BitAnd(x: nat, y: nat): nat
  {
    if x == 0 || y == 0 then 0 else (x % 2) * (y % 2) + 2 * BitAnd(x / 2, y / 2)
  }

  function Pow2(k: nat): (r: nat)
    ensures r > 0
  {
    if k == 0 then 1 else 2 * Pow2(k - 1)
  }

  ghost predicate IsPow2(n: nat) {
    exists k: nat :: n == Pow2(k)
  }

  lemma {:induction false} HalfMod(x: nat, m: nat)
    requires m > 0
    ensures x % (2 * m) == x % 2 + 2 * ((x / 2) % m)
  {
    var q, r := (x / 2) / m, (x / 2) % m;
    assert x == 2 * (x / 2) + x % 2;
    assert x / 2 == m * q + r;
    assert x == (2 * m) * q + (2 * r + x % 2);
    DivModUnique(x, 2 * m, q, 2 * r + x % 2);
  }

  /** Masking with `2^k - 1` is the remainder modulo `2^k`. */
  lemma {:induction false} MaskIsMod(x: nat, k: nat)
    ensures BitAnd(x, Pow2(k) - 1) == x % Pow2(k)
    decreases k
  {
    if k > 0 {
      var m := Pow2(k - 1);
      MaskIsMod(x / 2, k - 1);
      HalfMod(x, m);
      assert (Pow2(k) - 1) % 2 == 1 && (Pow2(k) - 1) / 2 == m - 1;
      if m == 1 {
        assert BitAnd(x / 2, 0) == 0;
      }
    }
  }

  /** The test `(n & (n - 1)) == 0` accepts exactly the powers of two. */
  lemma {:induction false} PowerOfTwoTest(n: nat)
    requires n > 0
    ensures BitAnd(n, n - 1) == 0 <==> IsPow2(n)
  {
    if n == 1 {
      assert n == Pow2(0);
    } else if n % 2 == 0 {
      PowerOfTwoTest(n / 2);
      assert (n - 1) / 2 == n / 2 - 1 && n % 2 == 0;
      assert BitAnd(n, n - 1) == 2 * BitAnd(n / 2, n / 2 - 1);
      if IsPow2(n / 2) {
        var k: nat :| n / 2 == Pow2(k);
        assert n == Pow2(k + 1);
      }
      if IsPow2(n) {
        var k: nat :| n == Pow2(k);
        assert n / 2 == Pow2(k - 1);
      }
    } else {
      assert (n - 1) / 2 == n / 2;
      SelfAnd(n / 2);
      assert BitAnd(n, n - 1) == 2 * BitAnd(n / 2, n / 2) > 0;
      forall k: nat
        ensures n != Pow2(k)
      {
        Pow2Even(k);
      }
    }
  }

  lemma Pow2Even(k: nat)
    ensures k > 0 ==> Pow2(k) % 2 == 0
    ensures Pow2(0) == 1
  {
    if k > 0 {
      assert Pow2(k) == 2 * Pow2(k - 1);
    }
  }

  lemma {:induction false} SelfAnd(x: nat)
    ensures BitAnd(x, x) == x
  {
    if x > 0 {
      SelfAnd(x / 2);
      if x % 2 == 0 {
        assert BitAnd(x, x) == 2 * (x / 2);
      } else {
        assert BitAnd(x, x) == 1 + 2 * (x / 2);
      }
    }
  }

  /** A power of two of at most `2^16` divides `2^16`. */
  lemma {:induction false} Pow2Divides(k: nat, e: nat)
    requires k <= e
    ensures exists q: nat :: Pow2(e) == q * Pow2(k)
  {
    if k == e {
      assert Pow2(e) == 1 * Pow2(k);
    } else {
      Pow2Divides(k, e - 1);
      var q: nat :| Pow2(e - 1) == q * Pow2(k);
      assert Pow2(e) == (2 * q) * Pow2(k);
    }
  }

  lemma {:induction false} Pow2Monotone(k: nat, e: nat)
    requires k < e
    ensures Pow2(k) < Pow2(e)
  {
    if k < e - 1 { Pow2Monotone(k, e - 1); }
  }

  lemma Pow2Of16()
    ensures Pow2(15) == 0x8000 && Pow2(16) == U16
  {
    assert Pow2(4) == 16;
    assert Pow2(8) == 16 * Pow2(4);
    assert Pow2(12) == 16 * Pow2(8);
  }

  lemma ModOfMod(x: nat, q: nat, n: nat)
    requires n > 0 && q > 0
    ensures q * n > 0 && (x % (q * n)) % n == x % n
  {
    var m := q * n;
    assert m > 0;
    var a, r := x / m, x % m;
    var b, s := r / n, r % n;
    assert x == m * a + r;
    assert r == n * b + s;
    assert x == n * (q * a + b) + s by {
      assert m * a == n * (q * a);
    }
    DivModUnique(x, n, q * a + b, s);
  }

  /**
    The split ring's slot of a free-running 16-bit index: masking the truncated counter of
    unbounded position `p` gives `p`'s slot, because the ring size divides `2^16`.
   */
  lemma MaskedIndexIsSlot(p: nat, n: nat)
    requires IsPow2(n) && n <= 0x8000
    ensures n > 0 && BitAnd(Trunc16(p), n - 1) == Slot(p, n)
  {
    var k: nat :| n == Pow2(k);
    Pow2Of16();
    if k > 15 { Pow2Monotone(15, k); }
    Pow2Divides(k, 16);
    var q: nat :| Pow2(16) == q * Pow2(k);
    MaskIsMod(Trunc16(p), k);
    ModOfMod(p, q, n);
    SlotIsMod(p, n);
  }
}
