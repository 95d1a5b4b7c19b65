/** Big-endian digit vectors in any base, and how long they must be. */
module Digits {
  import opened Powers

  function Pow(b: nat, e: nat): nat {
    if e == 0 then 1 else b * Pow(b, e - 1)
  }

  lemma {:induction false} PowPositive(b: nat, e: nat)
    requires b > 0
    ensures Pow(b, e) > 0
  {
    if e > 0 {
      PowPositive(b, e - 1);
      MulAtLeast(b, Pow(b, e - 1));
    }
  }

  lemma {:induction false} PowAdd(b: nat, d: nat, e: nat)
    ensures Pow(b, d + e) == Pow(b, d) * Pow(b, e)
  {
    if d > 0 {
      PowAdd(b, d - 1, e);
      assert b * (Pow(b, d - 1) * Pow(b, e)) == Pow(b, d) * Pow(b, e);
    }
  }

  lemma {:induction false} PowMono(b: nat, d: nat, e: nat)
    requires b > 0 && d <= e
    ensures Pow(b, d) <= Pow(b, e)
  {
    if d < e {
      PowMono(b, d, e - 1);
      MulAtLeast(b, Pow(b, e - 1));
    }
  }

  /** The number a vector stands for, most significant digit first. */
  function Value(d: seq<nat>, base: nat): nat {
    if d == [] then 0 else Value(d[..|d| - 1], base) * base + d[|d| - 1]
  }

  ghost predicate Proper(d: seq<nat>, base: nat) {
    forall i | 0 <= i < |d| :: d[i] < base
  }

  function Quo(n: nat, base: nat): (q: nat)
    requires base > 0
    ensures base >= 2 && n > 0 ==> q < n
  {
    if base >= 2 && n > 0 then
      QuotientShrinks(n, base);
      n / base
    else n / base
  }

  function Rem(n: nat, base: nat): (r: nat)
    requires base > 0
    ensures r < base
  {
    n % base
  }

  lemma QuoRem(n: nat, base: nat)
    requires base > 0
    ensures Quo(n, base) * base + Rem(n, base) == n
  {
  }

  lemma QuoRemOf(q: nat, r: nat, base: nat)
    requires r < base
    ensures Quo(q * base + r, base) == q && Rem(q * base + r, base) == r
  {
    ModIs(q * base + r, base, q, r);
  }

  /** The digits of a number without leading zeros. */
  function DigitsOf(n: nat, base: nat): seq<nat>
    requires base >= 2
  {
    if n == 0 then [] else DigitsOf(Quo(n, base), base) + [Rem(n, base)]
  }

  lemma QuotientShrinks(n: nat, base: nat)
    requires n > 0 && base >= 2
    ensures 0 <= n / base < n
  {
    MulUpTo(1, base, n, base);
    assert n < n * base;
    DivLess(n, base, n);
  }

  lemma {:induction false} ValueOfDigits(n: nat, base: nat)
    requires base >= 2
    ensures Value(DigitsOf(n, base), base) == n && Proper(DigitsOf(n, base), base)
    ensures n > 0 ==> DigitsOf(n, base) != [] && DigitsOf(n, base)[0] != 0
    decreases n
  {
    hide Quo, Rem;
    if n > 0 {
      var q, r := Quo(n, base), Rem(n, base);
      ValueOfDigits(q, base);
      QuoRem(n, base);
      var front, d := DigitsOf(q, base), DigitsOf(n, base);
      assert d[..|front|] == front && d[|front|] == r;
      assert Value(d, base) == Value(front, base) * base + r;
    }
  }

  /** Leading zeros dropped, a vector is the digits of its value. */
  function Strip(d: seq<nat>): (r: seq<nat>)
    ensures |r| <= |d|
  {
    if d != [] && d[0] == 0 then Strip(d[1..]) else d
  }

  lemma {:induction false} ValueSkipsZero(d: seq<nat>, base: nat)
    requires d != [] && d[0] == 0
    ensures Value(d[1..], base) == Value(d, base)
  {
    var k := |d| - 1;
    if k > 0 {
      ValueSkipsZero(d[..k], base);
      assert d[1..][..k - 1] == d[..k][1..];
    }
  }

  lemma {:induction false} DigitsUnique(d: seq<nat>, base: nat)
    requires base >= 2 && Proper(d, base) && (d != [] ==> d[0] != 0)
    ensures DigitsOf(Value(d, base), base) == d && (d != [] ==> Value(d, base) > 0)
  {
    if d != [] {
      var k := |d| - 1;
      var v := Value(d[..k], base);
      DigitsUnique(d[..k], base);
      QuoRemOf(v, d[k], base);
      if k > 0 {
        MulAtLeast(v, base);
      }
    }
  }

  lemma {:induction false} StripIsDigits(d: seq<nat>, base: nat)
    requires base >= 2 && Proper(d, base)
    ensures Strip(d) == DigitsOf(Value(d, base), base)
  {
    if d != [] && d[0] == 0 {
      StripIsDigits(d[1..], base);
      ValueSkipsZero(d, base);
    } else {
      DigitsUnique(d, base);
    }
  }

  lemma {:induction false} ValueBound(d: seq<nat>, base: nat)
    requires Proper(d, base) && base > 0
    ensures Value(d, base) < Pow(base, |d|)
  {
    if d != [] {
      var k := |d| - 1;
      ValueBound(d[..k], base);
      MulUpTo(Value(d[..k], base) + 1, base, Pow(base, k), base);
    }
  }

  // ---------------------------------------------------------------- the carry loop

  /** A vector split at a position. */
  lemma {:induction false} ValueSplit(d: seq<nat>, i: nat, base: nat)
    requires i <= |d|
    ensures Value(d, base) == Value(d[..i], base) * Pow(base, |d| - i) + Value(d[i..], base)
  {
    if i < |d| {
      var k := |d| - 1;
      ValueSplit(d[..k], i, base);
      assert d[..k][..i] == d[..i] && d[..k][i..] == d[i..][..k - i] && d[i..][k - i] == d[k];
      assert Value(d, base) == Value(d[..k], base) * base + d[k];
      assert Value(d[i..], base) == Value(d[i..][..k - i], base) * base + d[k];
      SplitStep(Value(d[..i], base), Pow(base, k - i), Value(d[i..][..k - i], base), base);
    } else {
      assert d[..i] == d && d[i..] == [];
    }
  }

  lemma SplitStep(p: nat, q: nat, r: nat, base: nat)
    ensures (p * q + r) * base == p * (base * q) + r * base
  {
    assert p * q * base == p * (base * q);
  }

  lemma ValueSuffix(d: seq<nat>, i: nat, base: nat)
    requires i < |d|
    ensures Value(d[i..], base) == d[i] * Pow(base, |d| - i - 1) + Value(d[i + 1..], base)
  {
    ValueSplit(d[i..], 1, base);
    assert d[i..][..1] == [d[i]] && d[i..][1..] == d[i + 1..] && [d[i]][..0] == [];
    assert Value([d[i]], base) == d[i];
  }

  /** One step of the carry loop, in numbers. */
  lemma CarryStep(p: nat, base: nat, mult: nat, digit: nat, x: nat, carry: nat, v: nat, w: nat)
    requires base > 0 && v + carry * p == mult * w + digit
    ensures var n := carry + mult * x;
            Rem(n, base) * p + v + Quo(n, base) * (base * p) == mult * (x * p + w) + digit
  {
    hide Quo, Rem;
    var n := carry + mult * x;
    var q, r := Quo(n, base), Rem(n, base);
    QuoRem(n, base);
    assert q * (base * p) + r * p == (q * base + r) * p;
    assert n * p == carry * p + mult * x * p;
    assert mult * (x * p + w) == mult * x * p + mult * w;
  }

  /** The carry loop is done from position i on: what is there, with the carry, is the multiple. */
  ghost predicate CarriedTo(d: seq<nat>, was: seq<nat>, i: nat, base: nat, mult: nat, digit: nat, carry: nat)
    requires i <= |d| == |was|
  {
    Value(d[i..], base) + carry * Pow(base, |d| - i) == mult * Value(was[i..], base) + digit
  }

  lemma CarriedNext(d: seq<nat>, e: seq<nat>, was: seq<nat>, i: nat, base: nat, mult: nat, digit: nat, carry: nat)
    requires base > 0 && i < |d| == |was| && CarriedTo(d, was, i + 1, base, mult, digit, carry)
    requires e == d[i := Rem(carry + mult * was[i], base)]
    ensures CarriedTo(e, was, i, base, mult, digit, Quo(carry + mult * was[i], base))
  {
    hide Value, Quo, Rem;
    assert e[i + 1..] == d[i + 1..];
    ValueSuffix(e, i, base);
    ValueSuffix(was, i, base);
    var p := Pow(base, |d| - i - 1);
    assert Pow(base, |d| - i) == base * p;
    hide Pow;
    CarryStep(p, base, mult, digit, was[i], carry, Value(d[i + 1..], base), Value(was[i + 1..], base));
  }

  lemma CarriedNone(was: seq<nat>, base: nat, mult: nat, digit: nat)
    ensures CarriedTo(was, was, |was|, base, mult, digit, digit)
  {
    assert Value(was[|was|..], base) == 0 && Pow(base, 0) == 1;
  }

  lemma CarriedAll(d: seq<nat>, was: seq<nat>, base: nat, mult: nat, digit: nat, carry: nat)
    requires |d| == |was| && CarriedTo(d, was, 0, base, mult, digit, carry)
    ensures Value(d, base) + carry * Pow(base, |d|) == mult * Value(was, base) + digit
  {
    assert d[0..] == d && was[0..] == was;
  }

  /** Multiplies a vector by a number and adds a digit, in place, from the last digit to the first. What
      does not fit comes out as a carry. */
  method MulAdd(d: array<nat>, base: nat, mult: nat, digit: nat) returns (carry: nat)
    requires base > 0 && Proper(d[..], base)
    modifies d
    ensures Proper(d[..], base)
    ensures Value(d[..], base) + carry * Pow(base, d.Length) == mult * Value(old(d[..]), base) + digit
  {
    hide Pow, Value, Quo, Rem, CarriedTo;
    ghost var was := d[..];
    carry := digit;
    CarriedNone(was, base, mult, digit);
    for i := d.Length downto 0
      invariant d[..i] == was[..i] && Proper(d[..], base)
      invariant CarriedTo(d[..], was, i, base, mult, digit, carry)
    {
      ghost var before, c := d[..], carry;
      assert d[i] == d[..i + 1][i] == was[i];
      carry := carry + mult * d[i];
      d[i] := Rem(carry, base);
      carry := Quo(carry, base);
      CarriedNext(before, d[..], was, i, base, mult, digit, c);
      assert d[..i] == was[..i + 1][..i];
    }
    CarriedAll(d[..], was, base, mult, digit, carry);
  }
}
