/** Powers of two and the few facts about division that aligned address blocks rest on. */
module Powers {

  function Pow2(k: nat): (p: nat)
    ensures p >= 1
  {
    if k == 0 then 1 else 2 * Pow2(k - 1)
  }

  lemma {:induction false} Pow2Add(i: nat, j: nat)
    ensures Pow2(i + j) == Pow2(i) * Pow2(j)
  {
    if i > 0 {
      Pow2Add(i - 1, j);
      assert Pow2(i + j) == 2 * (Pow2(i - 1) * Pow2(j)) == (2 * Pow2(i - 1)) * Pow2(j);
    }
  }

  lemma {:induction false} Pow2Monotone(i: nat, j: nat)
    requires i <= j
    ensures Pow2(i) <= Pow2(j)
  {
    if i < j {
      Pow2Monotone(i, j - 1);
    }
  }

  lemma DivModUnique(x: int, d: int, q: int, r: int)
    requires 0 <= r < d && x == q * d + r
    ensures x / d == q && x % d == r
  {
    var q', r' := x / d, x % d;
    assert x == q' * d + r' && 0 <= r' < d;
    QuotientUnique(q, q', d, r, r');
  }

  lemma QuotientUnique(q: int, q': int, d: int, r: int, r': int)
    requires 0 <= r < d && 0 <= r' < d && q * d + r == q' * d + r'
    ensures q == q'
  {
    if q < q' {
      MulOrder(q + 1, q', d);
      assert false;
    } else if q' < q {
      MulOrder(q' + 1, q, d);
      assert false;
    }
  }

  lemma ModDouble(w: nat, p: nat)
    requires p > 0
    ensures (2 * w) % (2 * p) == 2 * (w % p)
  {
    var q := w / p;
    assert w == q * p + w % p;
    assert 2 * w == q * (2 * p) + 2 * (w % p);
    DivModUnique(2 * w, 2 * p, q, 2 * (w % p));
  }

  lemma MultipleOf(x: nat, d: nat) returns (q: nat)
    requires d > 0 && x % d == 0
    ensures x == q * d
  {
    q := x / d;
  }

  lemma EvenMultiple(q: nat, p: nat)
    ensures (q * (2 * p)) % 2 == 0
  {
    assert q * (2 * p) == 2 * (q * p);
  }

  lemma MulOrder(i: int, j: int, d: nat)
    requires i <= j
    ensures i * d <= j * d
  {
    assert 0 <= (j - i) * d;
  }

  lemma MulCancel(i: int, j: int, d: nat)
    requires i * d < j * d
    ensures i < j
  {
    if j <= i {
      MulOrder(j, i, d);
    }
  }

  /** The number of trailing zero bits of a 32-bit word, 32 for the zero word. */
  function TrailingZeros32(v: nat): nat
    decreases v
  {
    if v == 0 then 32
    else if v % 2 == 1 then 0
    else 1 + TrailingZeros32(v / 2)
  }

  /** A power of two divides a positive word exactly when its exponent is at most the trailing zero count. */
  lemma {:induction false} TrailingZerosExact(v: nat, k: nat)
    requires v > 0
    ensures v % Pow2(k) == 0 <==> k <= TrailingZeros32(v)
    decreases v
  {
    if k == 0 {
    } else if v % 2 == 1 {
      if v % Pow2(k) == 0 {
        var q := MultipleOf(v, Pow2(k));
        EvenMultiple(q, Pow2(k - 1));
        assert false;
      }
    } else {
      ModDouble(v / 2, Pow2(k - 1));
      TrailingZerosExact(v / 2, k - 1);
    }
  }

  /** The index of the highest set bit of a positive number. */
  function FloorLog2(n: nat): nat
    requires n > 0
  {
    if n == 1 then 0 else 1 + FloorLog2(n / 2)
  }

  lemma {:induction false} FloorLog2Exact(n: nat, k: nat)
    requires n > 0
    ensures Pow2(k) <= n <==> k <= FloorLog2(n)
    decreases n
  {
    if n > 1 && k > 0 {
      FloorLog2Exact(n / 2, k - 1);
    } else if n == 1 && k > 0 {
      Pow2Monotone(1, k);
    }
  }

  lemma Pow2At32()
    ensures Pow2(32) == 0x1_0000_0000
  {
    Pow2Add(16, 16);
    Pow2Add(8, 8);
    assert Pow2(8) == 256;
  }
}
