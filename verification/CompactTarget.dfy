/** The compact target format: a 23-bit mantissa and a base-256 exponent. */
module CompactTarget {
  import opened Powers
  import opened Limbs
  import opened LimbShifts
  import opened ArithUint256

  const MANTISSA: nat := 0x80_0000

  function Pow256(e: nat): (r: nat)
    ensures r >= 1
  {
    Pow2(8 * e)
  }

  lemma Pow256Step(e: nat)
    ensures Pow256(0) == 1 && Pow256(e + 1) == 256 * Pow256(e)
  {
    Pow2Add(8, 8 * e);
    Pow2Values();
  }

  lemma Pow256Add(a: nat, b: nat)
    ensures Pow256(a + b) == Times(Pow256(a), Pow256(b))
  {
    Pow2Add(8 * a, 8 * b);
  }

  // ---------------------------------------------------------------- rounding

  /** The smallest exponent, from a given one on, that makes the quotient fit the mantissa. */
  ghost function ExponentFrom(x: nat, e: nat): (r: nat)
    ensures r >= e && Quo(x, Pow256(r)) < MANTISSA
    ensures r > e ==> Quo(x, Pow256(r - 1)) >= MANTISSA
    decreases Quo(x, Pow256(e))
  {
    if Quo(x, Pow256(e)) < MANTISSA then e
    else
      QuoStep(x, e);
      ExponentFrom(x, e + 1)
  }

  lemma QuoStep(x: nat, e: nat)
    ensures Quo(x, Pow256(e + 1)) == Quo(x, Pow256(e)) / 256
  {
    Pow256Step(e);
    var d := Pow256(e);
    Parts(x, d);
    var q, r := Quo(x, d), Rem(x, d);
    QuoQuo(x, d, q, r);
  }

  lemma QuoQuo(x: nat, d: nat, q: nat, r: nat)
    requires d > 0 && x == Times(d, q) + r && r < d
    ensures x / (256 * d) == q / 256
  {
    var q2, r2 := q / 256, q % 256;
    TimesAdd(d, 256 * q2, r2);
    TimesIs(d, 256 * q2);
    MulUpTo(d, r2, d, 255);
    TimesIs(d, r2);
    assert d * (256 * q2) == q2 * (256 * d);
    ModIs(x, 256 * d, q2, Times(d, r2) + r);
  }

  ghost function Exponent(x: nat): (e: nat)
    ensures Quo(x, Pow256(e)) < MANTISSA && (e > 0 ==> Quo(x, Pow256(e - 1)) >= MANTISSA)
  {
    ExponentFrom(x, 0)
  }

  /** A number rounded down to what the format can hold. */
  ghost function Rounded(x: nat): nat { Times(Pow256(Exponent(x)), Quo(x, Pow256(Exponent(x)))) }

  /** From the second byte on, the exponent is used only for numbers of at least 2^15 units. */
  lemma ExponentBound(x: nat)
    ensures x < Times(Pow256(Exponent(x)), MANTISSA)
    ensures Exponent(x) > 0 ==> Times(Pow256(Exponent(x)), 0x8000) <= x
    ensures Exponent(x) > 0 ==> Times(Pow256(Exponent(x) - 1), MANTISSA) <= x
  {
    var e := Exponent(x);
    Parts(x, Pow256(e));
    hide Quo, Rem, Pow256, Times;
    TimesLess(Pow256(e), Quo(x, Pow256(e)), MANTISSA);
    if e > 0 {
      Below(x, e);
    }
  }

  lemma Below(x: nat, e: nat)
    requires e > 0 && Quo(x, Pow256(e - 1)) >= MANTISSA
    ensures Times(Pow256(e), 0x8000) <= x && Times(Pow256(e - 1), MANTISSA) <= x
  {
    var d := Pow256(e - 1);
    Pow256Step(e - 1);
    Parts(x, d);
    hide Pow256, Quo, Rem;
    MulUpTo(d, MANTISSA, d, Quo(x, d));
    TimesIs(d, MANTISSA);
    TimesIs(d, Quo(x, d));
    TimesIs(256 * d, 0x8000);
  }

  /** The rounding error is at most one part in 2^15. */
  lemma RoundedClose(x: nat)
    ensures Rounded(x) <= x && (x - Rounded(x)) * 0x8000 <= x
  {
    var e := Exponent(x);
    Parts(x, Pow256(e));
    ExponentBound(x);
    if e == 0 {
      Pow256Step(0);
      hide Pow256, Times, Exponent;
    } else {
      hide Pow256, Quo, Rem, Exponent;
      var r := x - Rounded(x);
      MulUpTo(r, 0x8000, Pow256(e), 0x8000);
      TimesIs(Pow256(e), 0x8000);
    }
  }

  lemma {:induction false} Pow256Mono(a: nat, b: nat)
    requires a <= b
    ensures Pow256(a) <= Pow256(b)
  {
    Pow2Mono(8 * a, 8 * b);
  }

  lemma QuoMono(x: nat, y: nat, d: nat)
    requires x <= y && d > 0
    ensures Quo(x, d) <= Quo(y, d)
  {
    Parts(x, d);
    Parts(y, d);
    hide Quo, Rem;
    if Quo(x, d) > Quo(y, d) {
      TimesLess(d, Quo(y, d), Quo(x, d));
    }
  }

  /** A larger number is never rounded to a smaller one. */
  lemma RoundedMonotone(x: nat, y: nat)
    requires x <= y
    ensures Rounded(x) <= Rounded(y)
  {
    var ex, ey := Exponent(x), Exponent(y);
    RoundedClose(x);
    ExponentBound(x);
    ExponentBound(y);
    hide Exponent, Quo, Pow256, Times;
    if ex == ey {
      QuoMono(x, y, Pow256(ex));
      TimesMono(Pow256(ex), Quo(x, Pow256(ex)), Quo(y, Pow256(ex)));
    } else if ex < ey {
      Pow256Mono(ex, ey - 1);
      TimesMono(MANTISSA, Pow256(ex), Pow256(ey - 1));
      TimesAdd(MANTISSA, Pow256(ex), 0);
      TimesAdd(MANTISSA, Pow256(ey - 1), 0);
      LargeRounds(y, ey);
    } else {
      Pow256Mono(ey, ex - 1);
      TimesMono(MANTISSA, Pow256(ey), Pow256(ex - 1));
      TimesAdd(MANTISSA, Pow256(ey), 0);
      TimesAdd(MANTISSA, Pow256(ex - 1), 0);
      assert false;
    }
  }

  lemma TimesMono(d: nat, a: nat, b: nat)
    requires a <= b
    ensures Times(d, a) <= Times(d, b)
  {
    MulUpTo(d, a, d, b);
  }

  /** A number that needs an exponent is rounded to at least the smallest number that does. */
  lemma LargeRounds(y: nat, e: nat)
    requires e > 0 && e == Exponent(y)
    ensures Times(Pow256(e - 1), MANTISSA) <= Rounded(y)
  {
    ExponentBound(y);
    var d := Pow256(e);
    Pow256Step(e - 1);
    hide Exponent, Pow256;
    DivAtLeast(y, d, 0x8000);
    TimesMono(d, 0x8000, Quo(y, d));
    TimesIs(d, 0x8000);
    TimesIs(Pow256(e - 1), MANTISSA);
  }

  lemma DivAtLeast(n: nat, d: nat, k: nat)
    requires d > 0 && Times(d, k) <= n
    ensures Quo(n, d) >= k
  {
    Parts(n, d);
    hide Quo, Rem;
    if Quo(n, d) < k {
      TimesLess(d, Quo(n, d), k);
    }
  }

  lemma {:induction false} ExponentIs(x: nat, e: nat)
    requires Quo(x, Pow256(e)) < MANTISSA && (e > 0 ==> Quo(x, Pow256(e - 1)) >= MANTISSA)
    ensures e == Exponent(x)
  {
    var r := Exponent(x);
    hide Exponent;
    if e < r {
      QuoFalls(x, e, r - 1);
    } else if r < e {
      QuoFalls(x, r, e - 1);
    }
  }

  lemma QuoFalls(x: nat, a: nat, b: nat)
    requires a <= b
    ensures Quo(x, Pow256(b)) <= Quo(x, Pow256(a))
  {
    if a < b {
      QuoFalls(x, a, b - 1);
      QuoStep(x, b - 1);
      hide Pow256, Quo;
    }
  }

  /** Rounding twice is rounding once. */
  lemma RoundedIdempotent(x: nat)
    ensures Rounded(Rounded(x)) == Rounded(x)
  {
    var y, e := Rounded(x), Exponent(x);
    var f := Exponent(y);
    RoundedClose(x);
    assert f <= e by {
      FewerUnits(x, y);
    }
    hide Exponent, Pow256;
    var q := Quo(x, Pow256(e));
    Pow256Add(f, e - f);
    TimesAssoc(Pow256(f), Pow256(e - f), q);
    ExactRound(y, Pow256(f), Times(Pow256(e - f), q));
  }

  lemma FewerUnits(x: nat, y: nat)
    requires y <= x
    ensures Exponent(y) <= Exponent(x)
  {
    ExponentBound(x);
    ExponentBound(y);
    var ex, ey := Exponent(x), Exponent(y);
    hide Exponent, Pow256, Times;
    if ex < ey {
      Pow256Mono(ex, ey - 1);
      TimesMono(MANTISSA, Pow256(ex), Pow256(ey - 1));
      TimesAdd(MANTISSA, Pow256(ex), 0);
      TimesAdd(MANTISSA, Pow256(ey - 1), 0);
    }
  }

  lemma ExactRound(y: nat, d: nat, m: nat)
    requires d > 0 && y == Times(d, m)
    ensures Times(d, Quo(y, d)) == y
  {
    TimesIs(d, m);
    ModIs(y, d, m, 0);
  }

  // ---------------------------------------------------------------- encoding

  /** The mantissa and size that GetCompact computes for a number of n bits. */
  function CompactParts(x: nat, n: nat): (nat, nat) {
    var size := (n + 7) / 8;
    var mantissa := if size <= 3 then Times(Pow256(3 - size), x) else Quo(x, Pow256(size - 3));
    if mantissa >= MANTISSA then (mantissa / 256, size + 1) else (mantissa, size)
  }

  /** What a mantissa and a size stand for. */
  function PartsValue(mantissa: nat, size: nat): nat {
    if size <= 3 then Quo(mantissa, Pow256(3 - size)) else Times(Pow256(size - 3), mantissa)
  }

  lemma SizeBytes(x: nat, n: nat)
    requires BitLength(x, n)
    ensures var size := (n + 7) / 8; x < Pow256(size) && (size > 0 ==> Pow256(size - 1) <= x)
  {
    var size := (n + 7) / 8;
    Pow2Mono(n, 8 * size);
    if size > 0 {
      Pow2Mono(8 * (size - 1), n - 1);
    }
    hide Pow2;
  }

  lemma Pow256Small()
    ensures Pow256(0) == 1 && Pow256(1) == 256 && Pow256(2) == 0x1_0000 && Pow256(3) == 0x100_0000
  {
    Pow256Step(0);
    Pow256Step(1);
    Pow256Step(2);
  }

  lemma SmallRounded(x: nat)
    requires x < 0x100_0000
    ensures Rounded(x) == if x < MANTISSA then x else x / 256 * 256
  {
    Pow256Small();
    hide Pow256, Exponent;
    assert Quo(x, Pow256(0)) == x;
    if x < MANTISSA {
      ExponentIs(x, 0);
    } else {
      assert Quo(x, Pow256(1)) == x / 256;
      ExponentIs(x, 1);
    }
  }

  lemma SmallStored(x: nat, size: nat, m: nat)
    requires size <= 3 && x < Pow256(size) && (size > 0 ==> Pow256(size - 1) <= x) && m == Times(Pow256(3 - size), x)
    ensures x > 0 ==> m >= 0x1_0000
    ensures m < 0x100_0000 && x < 0x100_0000 && (m == 0 <==> x == 0) && (m < MANTISSA ==> x < MANTISSA)
    ensures m < MANTISSA ==> PartsValue(m, size) == x
    ensures m >= MANTISSA ==> PartsValue(m / 256, size + 1) == if x < MANTISSA then x else x / 256 * 256
  {
    Pow256Small();
    hide Pow256;
    if size == 3 {
      assert m == x;
    } else if size == 2 {
      assert m == 256 * x;
    } else if size == 1 {
      assert m == 0x1_0000 * x;
    }
  }

  /** Up to three bytes are stored exactly, unless the top bit is taken for the sign. */
  lemma SmallParts(x: nat, n: nat)
    requires BitLength(x, n) && (n + 7) / 8 <= 3
    ensures var (m, size) := CompactParts(x, n);
            m < MANTISSA && size <= 4 && PartsValue(m, size) == Rounded(x) && (m == 0 <==> x == 0) && (x > 0 ==> m >= 0x8000)
  {
    hide Pow256, BitLength, Rounded, PartsValue, Times;
    SizeBytes(x, n);
    var size := (n + 7) / 8;
    SmallStored(x, size, Times(Pow256(3 - size), x));
    SmallRounded(x);
  }

  /** Longer numbers keep their top three bytes, or two if the top bit would be taken for the sign. */
  lemma LargeParts(x: nat, n: nat)
    requires BitLength(x, n) && (n + 7) / 8 > 3
    ensures var (m, size) := CompactParts(x, n);
            && m < MANTISSA && (n + 7) / 8 <= size <= (n + 7) / 8 + 1
            && PartsValue(m, size) == Rounded(x) && m >= 0x8000
  {
    SizeBytes(x, n);
    var size := (n + 7) / 8;
    var e := size - 3;
    var m := Quo(x, Pow256(e));
    assert 0x1_0000 <= m < 0x100_0000 by {
      TopBytes(x, e);
    }
    QuoStep(x, e);
    if m >= MANTISSA {
      ExponentIs(x, e + 1);
    } else {
      assert Quo(x, Pow256(e - 1)) >= MANTISSA by {
        QuoStep(x, e - 1);
      }
      ExponentIs(x, e);
    }
    hide Pow256, Quo, Times;
  }

  lemma TopBytes(x: nat, e: nat)
    requires x < Pow256(e + 3) && Pow256(e + 2) <= x
    ensures 0x1_0000 <= Quo(x, Pow256(e)) < 0x100_0000
  {
    Pow256Small();
    Pow256Add(e, 3);
    Pow256Add(e, 2);
    hide Pow256;
    DivAtLeast(x, Pow256(e), 0x1_0000);
    Parts(x, Pow256(e));
    hide Quo, Rem;
    if Quo(x, Pow256(e)) >= 0x100_0000 {
      TimesMono(Pow256(e), 0x100_0000, Quo(x, Pow256(e)));
    }
  }

  /** GetCompact followed by SetCompact rounds; the mantissa fits and is zero only for zero. */
  lemma PartsRound(x: nat, n: nat)
    requires BitLength(x, n) && n <= 256
    ensures var (m, size) := CompactParts(x, n);
            && m < MANTISSA && size <= 33 && PartsValue(m, size) == Rounded(x)
            && (m == 0 <==> x == 0) && (x > 0 ==> m >= 0x8000) && (x == 0 ==> size == 0)
  {
    if (n + 7) / 8 <= 3 {
      SmallParts(x, n);
      if x == 0 {
        NoBytes(n);
      }
    } else {
      LargeParts(x, n);
      hide Pow256, Quo, Times, BitLength;
    }
  }

  // ---------------------------------------------------------------- the 32-bit word

  type Word = x: int | 0 <= x < BASE

  lemma NoBytes(n: nat)
    requires BitLength(0, n)
    ensures n == 0 && CompactParts(0, n) == (0, 0)
  {
    Pow256Small();
  }

  function SizeOf(c: Word): nat { c / 0x100_0000 }
  function MantissaOf(c: Word): nat { c % 0x80_0000 }
  predicate SignOf(c: Word) { (c / 0x80_0000) % 2 == 1 }

  /** The unsigned number a compact word stands for, before it is cut to 256 bits. */
  function CompactValue(c: Word): nat { PartsValue(MantissaOf(c), SizeOf(c)) }

  lemma Pow256Limit()
    ensures Pow256(32) == Modulus()
  {
    hide Pow2, PowB;
    PowBIsPow2(WIDTH);
  }

  /** The overflow test. */
  predicate Overflows(word: nat, size: nat) {
    word != 0 && (size > 34 || (word > 0xff && size > 33) || (word > 0xffff && size > 32))
  }

  /** The overflow test is exact: it fires just when the number does not fit 256 bits. */
  lemma OverflowExact(word: nat, size: nat)
    requires size > 3 && word < MANTISSA
    ensures Overflows(word, size) <==> Times(Pow256(size - 3), word) >= Modulus()
  {
    Pow256Small();
    Pow256Limit();
    hide Pow256, Modulus;
    if size >= 35 {
      Pow256Mono(32, size - 3);
      if word > 0 {
        TimesMono(Pow256(size - 3), 1, word);
      }
    } else if size == 34 {
      Pow256Add(31, 1);
      AtLeastUnits(Pow256(31), word, 256);
    } else if size == 33 {
      Pow256Add(30, 2);
      AtLeastUnits(Pow256(30), word, 0x1_0000);
    } else {
      Pow256Add(29, 3);
      Pow256Mono(size - 3, 29);
      TimesLess(Pow256(29), word, 0x100_0000);
      TimesAdd(word, Pow256(size - 3), Pow256(29) - Pow256(size - 3));
      TimesAdd(Pow256(29), word, 0);
      TimesAdd(Pow256(size - 3), word, 0);
    }
  }

  lemma AtLeastUnits(d: nat, w: nat, k: nat)
    requires d > 0
    ensures w >= k <==> Times(d, w) >= Times(d, k)
  {
    if w >= k {
      TimesMono(d, k, w);
    } else {
      TimesLess(d, w, k);
    }
  }

  // ---------------------------------------------------------------- the words that mean one number only

  /** Zero, or a word with a full mantissa, no overflow, and nothing in the mantissa bytes that a small size drops. */
  predicate Canonical(c: Word) {
    c == 0 ||
    (&& MantissaOf(c) >= 0x8000 && SizeOf(c) >= 1 && !Overflows(MantissaOf(c), SizeOf(c))
     && (SizeOf(c) < 3 ==> MantissaOf(c) % Pow256(3 - SizeOf(c)) == 0))
  }

  lemma LowBytes(x: nat, size: nat, m: nat)
    requires size <= 3 && m == Times(Pow256(3 - size), x)
    ensures size < 3 ==> m % Pow256(3 - size) == 0
    ensures size < 2 ==> (m / 256) % Pow256(2 - size) == 0
  {
    Pow256Small();
    hide Pow256;
  }

  lemma SizeForSome(x: nat, n: nat)
    requires BitLength(x, n) && x > 0
    ensures (n + 7) / 8 >= 1
  {
    SizeBytes(x, n);
    Pow256Small();
    hide Pow256;
  }

  lemma PartsCanonical(x: nat, n: nat, c: Word)
    requires BitLength(x, n) && n <= 256 && x < Modulus() && (MantissaOf(c), SizeOf(c)) == CompactParts(x, n) && (SignOf(c) ==> x != 0)
    ensures Canonical(c) && (c == 0 <==> x == 0)
  {
    hide Pow256, Times, Rounded, BitLength, Modulus, Quo, PowB;
    PartsRound(x, n);
    RoundedClose(x);
    var size := (n + 7) / 8;
    if x == 0 {
      assert SizeOf(c) == 0 && MantissaOf(c) == 0 && !SignOf(c);
      assert c == 0;
    } else {
      SizeForSome(x, n);
      if size <= 3 {
        LowBytes(x, size, Times(Pow256(3 - size), x));
      }
      if SizeOf(c) > 3 {
        OverflowExact(MantissaOf(c), SizeOf(c));
      }
    }
  }

  /** A canonical word is its mantissa at a place given by its size. */
  lemma Scaled(c: Word)
    requires Canonical(c) && c != 0
    ensures Times(Pow256(3), CompactValue(c)) == Times(Pow256(SizeOf(c)), MantissaOf(c)) && CompactValue(c) > 0
  {
    var s, m, v := SizeOf(c), MantissaOf(c), CompactValue(c);
    if s <= 3 {
      Pow256Small();
      hide Pow256;
    } else {
      Pow256Add(3, s - 3);
      hide Pow256;
      TimesAssoc(Pow256(3), Pow256(s - 3), m);
      TimesMono(Pow256(s - 3), 1, m);
    }
  }

  /** Two canonical words for one number and sign are the same word. */
  lemma CanonicalUnique(c: Word, d: Word)
    requires Canonical(c) && Canonical(d) && CompactValue(c) == CompactValue(d) && (SignOf(c) <==> SignOf(d))
    ensures c == d
  {
    hide Pow256, Quo, Times, Overflows;
    assert CompactValue(0) == 0 by {
      ZeroWord();
    }
    if c != 0 && d != 0 {
      Scaled(c);
      Scaled(d);
      if SizeOf(c) < SizeOf(d) {
        OnePlace(SizeOf(c), MantissaOf(c), SizeOf(d), MantissaOf(d));
      } else if SizeOf(d) < SizeOf(c) {
        OnePlace(SizeOf(d), MantissaOf(d), SizeOf(c), MantissaOf(c));
      } else {
        SameMantissa(Pow256(SizeOf(c)), MantissaOf(c), MantissaOf(d));
      }
      FromFields(c);
      FromFields(d);
    } else if c != 0 {
      Scaled(c);
    } else if d != 0 {
      Scaled(d);
    }
  }

  lemma ZeroWord()
    ensures CompactValue(0) == 0
  {
    Pow256Small();
  }

  lemma FromFields(c: Word)
    ensures c == MantissaOf(c) + SizeOf(c) * 0x100_0000 + if SignOf(c) then MANTISSA else 0
  {
  }

  lemma SameMantissa(d: nat, m: nat, k: nat)
    requires d > 0 && Times(d, m) == Times(d, k)
    ensures m == k
  {
    if m < k {
      TimesLess(d, m, k);
    } else if k < m {
      TimesLess(d, k, m);
    }
  }

  /** A mantissa in range has one place only. */
  lemma OnePlace(s: nat, m: nat, r: nat, k: nat)
    requires s < r && m < MANTISSA && k >= 0x8000
    ensures Times(Pow256(s), m) < Times(Pow256(r), k)
  {
    Pow256Step(s);
    Pow256Mono(s + 1, r);
    hide Pow256;
    TimesLess(Pow256(s), m, MANTISSA);
    MulUpTo(Pow256(s + 1), 0x8000, Pow256(r), k);
    TimesIs(Pow256(s), MANTISSA);
    TimesIs(Pow256(r), k);
  }

  /** The number of a canonical word needs no rounding. */
  lemma CanonicalExact(c: Word)
    requires Canonical(c)
    ensures Rounded(CompactValue(c)) == CompactValue(c)
  {
    var v, s, m := CompactValue(c), SizeOf(c), MantissaOf(c);
    if s <= 3 {
      QuoBound(m, Pow256(3 - s));
      SmallRounded(v);
    } else {
      ExponentBound(v);
      var e := Exponent(v);
      hide Exponent, Pow256, Overflows;
      if e > s - 3 {
        OnePlace(s - 3, m, e, 0x8000);
      } else {
        Pow256Add(e, s - 3 - e);
        TimesAssoc(Pow256(e), Pow256(s - 3 - e), m);
        ExactRound(v, Pow256(e), Times(Pow256(s - 3 - e), m));
      }
    }
  }

  /** A canonical word does not overflow. */
  lemma CanonicalFits(c: Word)
    requires Canonical(c)
    ensures CompactValue(c) < Modulus()
  {
    var s, m := SizeOf(c), MantissaOf(c);
    hide Pow256, Modulus, Overflows;
    if s <= 3 {
      QuoBound(m, Pow256(3 - s));
      SmallFits(CompactValue(c));
    } else {
      OverflowExact(m, s);
    }
  }

  /** SetCompact: the value modulo 2^256, the sign of a non-zero number, and an exact overflow flag. */
  method SetCompact(t: Uint256, c: Word) returns (negative: bool, overflow: bool)
    requires t.Valid()
    modifies t.pn
    ensures t.Value() == CompactValue(c) % Modulus()
    ensures overflow <==> CompactValue(c) >= Modulus()
    ensures negative <==> SignOf(c) && (if SizeOf(c) <= 3 then CompactValue(c) else MantissaOf(c)) != 0
  {
    hide Val, Pow2, Modulus, Pow256, Quo, Times;
    var nSize, nWord := SizeOf(c), MantissaOf(c);
    Pow256Limit();
    if nSize <= 3 {
      QuoBound(nWord, Pow256(3 - nSize));
      nWord := Quo(nWord, Pow256(3 - nSize));
      t.Set(nWord);
      SmallFits(nWord);
    } else {
      t.Set(nWord);
      t.ShiftLeft(8 * (nSize - 3));
      ScaledProduct(nWord, nSize - 3);
      OverflowExact(nWord, nSize);
    }
    negative := nWord != 0 && SignOf(c);
    overflow := Overflows(nWord, nSize);
  }

  lemma QuoBound(x: nat, d: nat)
    requires d > 0
    ensures Quo(x, d) <= x
  {
  }

  lemma SmallFits(x: nat)
    requires x < MANTISSA
    ensures x < Modulus() && x % Modulus() == x
  {
    Pow256Limit();
    Pow256Mono(3, 32);
    Pow256Small();
    hide Pow256, Modulus;
    ModIs(x, Modulus(), 0, x);
  }

  lemma ScaledProduct(w: nat, e: nat)
    ensures w * Pow2(8 * e) == Times(Pow256(e), w)
  {
  }

  /** GetCompact: both assertions hold, and the word stands for the number rounded down. */
  method GetCompact(t: Uint256, negative: bool) returns (c: Word)
    requires t.Valid()
    ensures CompactValue(c) == Rounded(t.Value()) && (SignOf(c) <==> negative && t.Value() != 0)
    ensures Canonical(c) && (c == 0 <==> t.Value() == 0)
  {
    hide Val, Pow2, Pow256, Quo, Times, BitLength, Rounded, Canonical, PowB, PartsValue;
    var bits := t.Bits();
    PartsRound(t.Value(), bits);
    var nSize := (bits + 7) / 8;
    var nCompact;
    if nSize <= 3 {
      SmallLow(t.Value(), bits);
      var low := t.GetLow64();
      nCompact := low * Pow256(3 - nSize);
      TimesIs(Pow256(3 - nSize), low);
    } else {
      var bn := new Uint256.Copy(t);
      bn.ShiftRight(8 * (nSize - 3));
      ShiftedLow(t.Value(), bits);
      nCompact := bn.GetLow64();
    }
    if nCompact >= MANTISSA {
      nCompact := nCompact / 256;
      nSize := nSize + 1;
    }
    assert nCompact < MANTISSA;
    assert nSize < 256;
    c := nCompact + nSize * 0x100_0000 + if negative && nCompact != 0 then MANTISSA else 0;
    Fields(c, nCompact, nSize, negative && nCompact != 0);
    ValBound(t.pn[..]);
    PartsCanonical(t.Value(), bits, c);
  }

  lemma Fields(c: Word, m: nat, size: nat, sign: bool)
    requires m < MANTISSA && size < 256 && c == m + size * 0x100_0000 + if sign then MANTISSA else 0
    ensures SizeOf(c) == size && MantissaOf(c) == m && (SignOf(c) <==> sign)
  {
  }

  lemma SmallLow(x: nat, n: nat)
    requires BitLength(x, n) && (n + 7) / 8 <= 3
    ensures x <= MAX64
  {
    SizeBytes(x, n);
    Pow256Mono((n + 7) / 8, 3);
    Pow256Small();
  }

  lemma ShiftedLow(x: nat, n: nat)
    requires BitLength(x, n) && (n + 7) / 8 > 3
    ensures x / Pow2(8 * ((n + 7) / 8 - 3)) == Quo(x, Pow256((n + 7) / 8 - 3)) <= MAX64
  {
    SizeBytes(x, n);
    TopBytes(x, (n + 7) / 8 - 3);
  }

  /** Unpacking and packing a word gives it back exactly if it is canonical. */
  method Unpack(t: Uint256, c: Word) returns (c': Word)
    requires t.Valid()
    modifies t.pn
    ensures c' == c <==> Canonical(c)
  {
    hide Val, Pow2, Pow256, Rounded, CompactValue, Canonical;
    var negative, overflow := SetCompact(t, c);
    c' := GetCompact(t, negative);
    if Canonical(c) {
      CanonicalFits(c);
      CanonicalExact(c);
      CanonicalSign(c);
      ModulusBound(CompactValue(c));
      CanonicalUnique(c, c');
    }
  }

  lemma CanonicalSign(c: Word)
    requires Canonical(c)
    ensures CompactValue(c) != 0 <==> c != 0
    ensures SignOf(c) ==> CompactValue(c) != 0 && MantissaOf(c) != 0
  {
    if c != 0 {
      Scaled(c);
    } else {
      ZeroWord();
    }
  }

  /** Packing and unpacking a target: it is rounded down by less than one part in 2^15, without overflow. */
  method Repack(t: Uint256) returns (overflow: bool)
    requires t.Valid()
    modifies t.pn
    ensures !overflow && t.Value() == Rounded(old(t.Value()))
    ensures t.Value() <= old(t.Value()) && (old(t.Value()) - t.Value()) * 0x8000 <= old(t.Value())
  {
    hide Val, Pow2, Pow256, Rounded, CompactValue;
    ghost var x := t.Value();
    ValBound(t.pn[..]);
    RoundedClose(x);
    var c := GetCompact(t, false);
    var negative;
    negative, overflow := SetCompact(t, c);
    ModulusBound(Rounded(x));
  }
}
