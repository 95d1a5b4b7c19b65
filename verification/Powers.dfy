/** Powers of two and the arithmetic of single bits. */
module Powers {
  function Pow2(k: nat): (r: nat)
    ensures r >= 1
  {
    if k == 0 then 1 else 2 * Pow2(k - 1)
  }

  lemma {:induction false} Pow2Exceeds(k: nat)
    ensures Pow2(k) > k
  {
    if k > 0 {
      Pow2Exceeds(k - 1);
    }
  }

  lemma {:induction false} Pow2Add(a: nat, b: nat)
    ensures Pow2(a + b) == Pow2(a) * Pow2(b)
  {
    if a > 0 {
      Pow2Add(a - 1, b);
      assert Pow2(a) * Pow2(b) == 2 * (Pow2(a - 1) * Pow2(b));
    }
  }

  lemma {:induction false} Pow2Mono(a: nat, b: nat)
    requires a <= b
    ensures Pow2(a) <= Pow2(b)
  {
    if a < b {
      Pow2Mono(a, b - 1);
    }
  }

  lemma Pow2Values()
    ensures Pow2(7) == 0x80 && Pow2(8) == 0x100 && Pow2(15) == 0x8000 && Pow2(16) == 0x1_0000
    ensures Pow2(23) == 0x80_0000 && Pow2(24) == 0x100_0000 && Pow2(31) == 0x8000_0000 && Pow2(32) == 0x1_0000_0000
  {
    assert Pow2(4) == 16;
    Pow2Add(4, 4);
    assert Pow2(8) == 2 * Pow2(7);
    Pow2Add(8, 8);
    assert Pow2(16) == 2 * Pow2(15);
    Pow2Add(16, 8);
    assert Pow2(24) == 2 * Pow2(23);
    Pow2Add(16, 16);
    assert Pow2(32) == 2 * Pow2(31);
  }

  // ---------------------------------------------------------------- bitwise operations

  function BitAnd(a: nat, b: nat): (r: nat)
    ensures r <= b
  {
    if a == 0 || b == 0 then 0 else 2 * BitAnd(a / 2, b / 2) + (if a % 2 == 1 && b % 2 == 1 then 1 else 0)
  }

  function BitOr(a: nat, b: nat): (r: nat) {
    if a == 0 then b else if b == 0 then a
    else 2 * BitOr(a / 2, b / 2) + (if a % 2 == 1 || b % 2 == 1 then 1 else 0)
  }

  lemma OrStep(x: nat, z: nat)
    requires x > 0 && z > 0
    ensures BitOr(x, 2 * z) == 2 * BitOr(x / 2, z) + x % 2
  {
    assert (2 * z) / 2 == z && (2 * z) % 2 == 0;
  }

  /** y shifted left by k bits. */
  function Shifted(y: nat, k: nat): nat { y * Pow2(k) }

  lemma ShiftedStep(y: nat, k: nat)
    requires k > 0
    ensures Shifted(y, k) == 2 * Shifted(y, k - 1) && (y > 0 ==> Shifted(y, k - 1) > 0)
  {
  }

  /** Where the bits do not overlap, or is addition. */
  lemma {:induction false} OrIsSum(x: nat, y: nat, k: nat)
    requires x < Pow2(k)
    ensures BitOr(x, Shifted(y, k)) == x + Shifted(y, k)
  {
    if k > 0 && x > 0 && y > 0 {
      ShiftedStep(y, k);
      hide Shifted;
      OrIsSum(x / 2, y, k - 1);
      OrStep(x, Shifted(y, k - 1));
    }
  }

  lemma {:induction false} OrCommutes(x: nat, y: nat)
    ensures BitOr(x, y) == BitOr(y, x)
  {
    if x > 0 && y > 0 {
      OrCommutes(x / 2, y / 2);
    }
  }

  /** Bit k of a number. */
  predicate BitSet(x: nat, k: nat) {
    (x / Pow2(k)) % 2 == 1
  }

  /** Testing a bit with a mask. */
  lemma {:induction false} AndTestsBit(x: nat, k: nat)
    ensures BitAnd(x, Pow2(k)) == if BitSet(x, k) then Pow2(k) else 0
  {
    if x > 0 && k > 0 {
      AndTestsBit(x / 2, k - 1);
      HalfDiv(x, Pow2(k - 1));
      assert Pow2(k) / 2 == Pow2(k - 1) && Pow2(k) % 2 == 0;
    } else if k == 0 {
      assert BitAnd(x / 2, 0) == 0;
    } else {
      assert 0 / Pow2(k) == 0;
    }
  }

  lemma HalfDiv(x: nat, d: nat)
    requires d > 0
    ensures x / 2 / d == x / (2 * d)
  {
    var q, r := x / 2 / d, x / 2 % d;
    assert x / 2 == q * d + r;
    var m := x % 2;
    assert x == 2 * (q * d + r) + m == q * (2 * d) + (2 * r + m);
    assert 0 <= 2 * r + m < 2 * d;
    DivUnique(x, 2 * d, q, 2 * r + m);
  }

  lemma MulAtLeast(k: int, d: nat)
    requires k >= 1
    ensures k * d >= d
  {
  }

  lemma QuotientUnique(d: nat, q: int, r: int, q': int, r': int)
    requires q * d + r == q' * d + r' && 0 <= r < d && 0 <= r' < d
    ensures q == q' && r == r'
  {
    if q > q' {
      MulAtLeast(q - q', d);
    } else if q < q' {
      MulAtLeast(q' - q, d);
    }
  }

  lemma DivUnique(x: nat, d: nat, q: int, r: int)
    requires d > 0 && x == q * d + r && 0 <= r < d
    ensures x / d == q && x % d == r
  {
    QuotientUnique(d, q, r, x / d, x % d);
  }

  lemma ModIs(x: int, m: nat, q: int, r: int)
    requires x == q * m + r && 0 <= r < m
    ensures x % m == r && x / m == q
  {
    QuotientUnique(m, x / m, x % m, q, r);
  }

  lemma MulUpTo(x: nat, y: nat, a: nat, b: nat)
    requires x <= a && y <= b
    ensures x * y <= a * b
  {
    assert x * y <= a * y;
    assert a * y <= a * b;
  }

  lemma DivLess(n: nat, d: nat, k: nat)
    requires d > 0 && n < k * d
    ensures n / d < k
  {
    if n / d >= k {
      MulUpTo(k, d, n / d, d);
      assert false;
    }
  }

  lemma DivAtMost(n: nat, d: nat)
    requires d > 0
    ensures 0 <= n / d <= n
  {
    MulUpTo(n / d, 1, n / d, d);
  }
}
