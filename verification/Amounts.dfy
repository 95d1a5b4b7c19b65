/** Compact numbers: the compressed amounts of src/compressor.cpp. */
module Amounts {
  import opened Powers
  import opened Digits

  /** Decimal zeros at the end of a number, but no more than the limit. */
  function Tens(n: nat, limit: nat): (e: nat)
    ensures e <= limit
  {
    if limit == 0 || n % 10 != 0 then 0 else 1 + Tens(n / 10, limit - 1)
  }

  /** The number without those zeros. */
  function Rest(n: nat, limit: nat): nat {
    if limit == 0 || n % 10 != 0 then n else Rest(n / 10, limit - 1)
  }

  function Scaled(m: nat, k: nat): nat { m * Pow(10, k) }

  lemma ScaledStep(m: nat, k: nat)
    ensures Scaled(m, k + 1) == 10 * Scaled(m, k) && Scaled(m, 0) == m
  {
    assert m * (10 * Pow(10, k)) == 10 * (m * Pow(10, k));
  }

  lemma {:induction false} TensSplit(n: nat, limit: nat)
    ensures n == Scaled(Rest(n, limit), Tens(n, limit))
    ensures n > 0 ==> Rest(n, limit) > 0 && (Tens(n, limit) < limit ==> Rest(n, limit) % 10 != 0)
  {
    hide Scaled;
    ScaledStep(n, 0);
    if limit > 0 && n % 10 == 0 {
      TensSplit(n / 10, limit - 1);
      ScaledStep(Rest(n / 10, limit - 1), Tens(n / 10, limit - 1));
    }
  }

  lemma {:induction false} TensOf(m: nat, e: nat, limit: nat)
    requires e <= limit && m > 0 && (e < limit ==> m % 10 != 0)
    ensures Tens(Scaled(m, e), limit) == e && Rest(Scaled(m, e), limit) == m && Scaled(m, e) > 0
  {
    hide Scaled;
    ScaledStep(m, if e > 0 then e - 1 else 0);
    if e > 0 {
      TensOf(m, e - 1, limit - 1);
    }
  }

  /** The final step: mantissa and exponent in one number. */
  function Joined(m: nat, e: nat): nat
    requires m > 0 && e <= 9 && (e < 9 ==> m % 10 != 0)
  {
    if e < 9 then 1 + (m / 10 * 9 + m % 10 - 1) * 10 + e else 1 + (m - 1) * 10 + 9
  }

  function Mantissa(x: nat): (m: nat)
    requires x > 0
    ensures m > 0 && (Exponent(x) < 9 ==> m % 10 != 0)
  {
    var z := (x - 1) / 10;
    if (x - 1) % 10 < 9 then z / 9 * 10 + z % 9 + 1 else z + 1
  }

  function Exponent(x: nat): (e: nat)
    requires x > 0
    ensures e <= 9
  {
    (x - 1) % 10
  }

  lemma JoinedParts(m: nat, e: nat)
    requires m > 0 && e <= 9 && (e < 9 ==> m % 10 != 0)
    ensures Joined(m, e) > 0 && Mantissa(Joined(m, e)) == m && Exponent(Joined(m, e)) == e
  {
  }

  lemma PartsJoined(x: nat)
    requires x > 0
    ensures Joined(Mantissa(x), Exponent(x)) == x
  {
  }

  function Compressed(n: nat): nat {
    if n == 0 then 0
    else
      TensSplit(n, 9);
      Joined(Rest(n, 9), Tens(n, 9))
  }

  function Decompressed(x: nat): nat {
    if x == 0 then 0 else Scaled(Mantissa(x), Exponent(x))
  }

  /** The two are inverse to each other, on all natural numbers. */
  lemma DecompressCompressed(n: nat)
    ensures Decompressed(Compressed(n)) == n
  {
    if n > 0 {
      TensSplit(n, 9);
      JoinedParts(Rest(n, 9), Tens(n, 9));
    }
  }

  lemma CompressDecompressed(x: nat)
    ensures Compressed(Decompressed(x)) == x
  {
    hide Joined, Mantissa, Exponent, Scaled, Tens, Rest;
    if x > 0 {
      TensOf(Mantissa(x), Exponent(x), 9);
      PartsJoined(x);
    }
  }

  lemma CompressedSize(n: nat)
    ensures Compressed(n) <= 9 * n
  {
    if n > 0 {
      TensSplit(n, 9);
      ScaledAtLeast(Rest(n, 9), Tens(n, 9));
    }
  }

  lemma {:induction false} ScaledAtLeast(m: nat, k: nat)
    ensures Scaled(m, k) >= m && (k > 0 ==> Scaled(m, k) >= 10 * m)
  {
    hide Scaled;
    ScaledStep(m, if k > 0 then k - 1 else 0);
    if k > 0 {
      ScaledAtLeast(m, k - 1);
    }
  }

  const TWO_64: nat := 0x1_0000_0000_0000_0000

  /** 64-bit arithmetic keeps the remainder. */
  function Wrap(x: nat): (r: nat)
    ensures r < TWO_64 && (x < TWO_64 ==> r == x)
  {
    x % TWO_64
  }

  /** Nothing wraps on an amount up to 2^64 / 9, which is far above all money. */
  method CompressAmount(n: nat) returns (x: nat)
    requires n < TWO_64
    ensures x == Wrap(Compressed(n))
    ensures 9 * n < TWO_64 ==> x == Compressed(n) && Decompressed(x) == n
  {
    hide Decompressed, Wrap;
    CompressedSize(n);
    DecompressCompressed(n);
    if n == 0 {
      return 0;
    }
    var m, e := n, 0;
    while m % 10 == 0 && e < 9
      invariant e <= 9 && m > 0 && Tens(n, 9) == e + Tens(m, 9 - e) && Rest(n, 9) == Rest(m, 9 - e)
    {
      m, e := m / 10, e + 1;
    }
    assert Rest(n, 9) == m && Tens(n, 9) == e;
    if e < 9 {
      var d := m % 10;
      assert 1 <= d <= 9;
      m := m / 10;
      x := Wrap(1 + (m * 9 + d - 1) * 10 + e);
    } else {
      x := Wrap(1 + (m - 1) * 10 + 9);
    }
  }

  method DecompressAmount(x: nat) returns (n: nat)
    requires x < TWO_64
    ensures n == Wrap(Decompressed(x))
  {
    if x == 0 {
      return 0;
    }
    var y := x - 1;
    var e := y % 10;
    y := y / 10;
    if e < 9 {
      var d := y % 9 + 1;
      y := y / 9;
      n := y * 10 + d;
    } else {
      n := y + 1;
    }
    assert n == Mantissa(x);
    n := TimesTens(Wrap(n), e, Mantissa(x));
  }

  lemma WrapTen(a: nat)
    ensures Wrap(Wrap(a) * 10) == Wrap(10 * a)
  {
    var q, r := a / TWO_64, a % TWO_64;
    ModIs(10 * a, TWO_64, 10 * q + r * 10 / TWO_64, r * 10 % TWO_64);
  }

  /** The last loop: ten times, e times over. */
  method TimesTens(m: nat, e: nat, ghost whole: nat) returns (n: nat)
    requires m == Wrap(whole)
    ensures n == Wrap(Scaled(whole, e))
  {
    hide Pow, Scaled, Wrap;
    n := m;
    var k := e;
    ScaledStep(whole, 0);
    while k > 0
      invariant 0 <= k <= e && n == Wrap(Scaled(whole, e - k))
    {
      ScaledStep(whole, e - k);
      WrapTen(Scaled(whole, e - k));
      n := Wrap(n * 10);
      k := k - 1;
    }
  }
}
