/** What shifting does to one limb and to the value of all of them. */
module LimbShifts {
  import opened Powers
  import opened Limbs

  // ---------------------------------------------------------------- one limb

  function Quo(x: nat, d: nat): (q: nat)
    requires d > 0
    ensures q <= x
  {
    DivAtMost(x, d);
    x / d
  }

  function Rem(x: nat, d: nat): nat
    requires d > 0
  {
    x % d
  }

  lemma Pow2Halves(s: nat)
    requires s <= 32
    ensures Times(Pow2(s), Pow2(32 - s)) == BASE
  {
    Pow2Add(s, 32 - s);
    Pow2Values();
  }

  lemma Parts(x: nat, d: nat)
    requires d > 0
    ensures x == Times(d, Quo(x, d)) + Rem(x, d) && Rem(x, d) < d
  {
  }

  lemma TimesAssoc(x: nat, y: nat, z: nat)
    ensures Times(x, Times(y, z)) == Times(Times(x, y), z)
  {
    assert x * (y * z) == x * y * z;
  }

  lemma TimesLess(d: nat, x: nat, y: nat)
    requires x < y && d > 0
    ensures Times(d, x) + d <= Times(d, y)
  {
    MulUpTo(d, x + 1, d, y);
    assert d * (x + 1) == d * x + d;
  }

  /** Shifted left by s, a limb is what stays in the limb and what moves to the next. */
  lemma LeftParts(x: Limb, s: nat)
    requires s < 32
    ensures Times(Pow2(s), x) == Times(Pow2(s), Rem(x, Pow2(32 - s))) + Quo(x, Pow2(32 - s)) * BASE
    ensures Times(Pow2(s), Rem(x, Pow2(32 - s))) < BASE
    ensures (x as int * Pow2(s)) % BASE == Times(Pow2(s), Rem(x, Pow2(32 - s)))
    ensures Quo(x, Pow2(32 - s)) < Pow2(s)
  {
    var d, p, n: nat := Pow2(32 - s), Pow2(s), x;
    Parts(n, d);
    Pow2Halves(s);
    hide Pow2, Quo, Rem;
    var q, r := Quo(n, d), Rem(n, d);
    TimesAdd(p, Times(d, q), r);
    TimesAssoc(p, d, q);
    TimesIs(BASE, q);
    TimesLess(p, r, d);
    TimesIs(p, n);
    ModIs(p * n, BASE, q, Times(p, r));
    QuotientSmall(n, d, p, q, r);
  }

  lemma QuotientSmall(n: nat, d: nat, p: nat, q: nat, r: nat)
    requires n < BASE && n == Times(d, q) + r && Times(p, d) == BASE
    ensures q < p
  {
    TimesAdd(p, d, 0);
    if q >= p {
      TimesAdd(d, p, q - p);
    }
  }

  /** Shifted right by s, a limb is what stays and the low bits, which move to the top of the next one down. */
  lemma RightParts(x: Limb, s: nat)
    requires 0 < s < 32
    ensures x == Times(Pow2(s), Quo(x, Pow2(s))) + Rem(x, Pow2(s))
    ensures (x as int * Pow2(32 - s)) % BASE == Times(Pow2(32 - s), Rem(x, Pow2(s)))
    ensures Times(Pow2(s), Times(Pow2(32 - s), Rem(x, Pow2(s)))) == Rem(x, Pow2(s)) * BASE
    ensures Quo(x, Pow2(s)) < Pow2(32 - s) && Times(Pow2(32 - s), Rem(x, Pow2(s))) < BASE
  {
    Parts(x, Pow2(s));
    LeftParts(x, 32 - s);
    Pow2Halves(s);
    hide Pow2, Quo, Rem;
    TimesAssoc(Pow2(s), Pow2(32 - s), Rem(x, Pow2(s)));
    TimesIs(BASE, Rem(x, Pow2(s)));
  }

  // ---------------------------------------------------------------- left

  /** Adding the two parts of a shifted limb at their places. */
  lemma LeftStep(x: Limb, s: nat, i: nat)
    requires s < 32
    ensures Term(Times(Pow2(s), Rem(x, Pow2(32 - s))), i) + Term(Quo(x, Pow2(32 - s)), i + 1) == Term(Times(Pow2(s), x), i)
  {
    LeftParts(x, s);
    hide Times, Term, Quo, Rem, Pow2;
    TermUp(Quo(x, Pow2(32 - s)), i);
    TermAdd(Times(Pow2(s), Rem(x, Pow2(32 - s))), Quo(x, Pow2(32 - s)) * BASE, i);
  }

  /** One more limb under the scaling and the shift by whole limbs. */
  lemma ScaledPush(a: seq<Limb>, p: nat, i: nat, k: nat)
    requires i < |a|
    ensures Term(Times(p, Val(a[..i + 1])), k) == Term(Times(p, Val(a[..i])), k) + Term(Times(p, a[i]), i + k)
  {
    hide Term, Times;
    ValPush(a, i);
    TimesAdd(p, Val(a[..i]), Term(a[i], i));
    TimesTerm(p, a[i], i);
    TermAdd(Times(p, Val(a[..i])), Term(Times(p, a[i]), i), k);
    TermTerm(Times(p, a[i]), i, k);
  }

  /** What left the top is a multiple of 2^256. */
  lemma LeftEnds(s: seq<Limb>, a: seq<Limb>, p: nat, k: nat, dropped: nat)
    requires |s| == |a| == WIDTH && k <= WIDTH
    requires Val(s) + Term(dropped, WIDTH) == Term(Times(p, Val(a[..WIDTH - k])), k)
    ensures Val(s) == Times(Times(p, PowB(k)), Val(a)) % Modulus()
  {
    var m := WIDTH - k;
    hide Term, Times, Val, Modulus;
    ValSplit(a, m);
    var hi := Times(p, Val(a[m..]));
    TimesAdd(p, Val(a[..m]), Term(Val(a[m..]), m));
    TimesTerm(p, Val(a[m..]), m);
    TermAdd(Times(p, Val(a[..m])), Term(hi, m), k);
    TermTerm(hi, m, k);
    TermAdd(dropped, hi, WIDTH);
    Wraps(Term(Times(p, Val(a)), k), s, dropped + hi);
    ScaledWhole(p, Val(a), k);
  }

  lemma ScaledWhole(p: nat, v: nat, k: nat)
    ensures Term(Times(p, v), k) == Times(Times(p, PowB(k)), v)
  {
    assert p * v * PowB(k) == p * PowB(k) * v;
  }

  // ---------------------------------------------------------------- right

  /** The contributions of one limb, scaled back up. */
  lemma RightStep(x: Limb, s: nat, i: nat)
    requires 0 < s < 32
    ensures Times(Pow2(s), Term(Quo(x, Pow2(s)), i + 1) + Term(Times(Pow2(32 - s), Rem(x, Pow2(s))), i)) == Term(x, i + 1)
  {
    RightParts(x, s);
    hide Times, Term, Pow2, Quo, Rem;
    var d := Pow2(s);
    var q, r := Quo(x, d), Rem(x, d);
    var low := Times(Pow2(32 - s), r);
    TimesAdd(d, Term(q, i + 1), Term(low, i));
    TimesTerm(d, q, i + 1);
    TimesTerm(d, low, i);
    TermUp(r, i);
    TermAdd(Times(d, q), r, i + 1);
  }

  /** The quotient of the whole number by the combined shift. */
  lemma RightEnds(v: nat, a: seq<Limb>, k: nat, d: nat, r: nat)
    requires k <= |a| && d > 0 && r < d && Times(d, v) + r == Val(a[k..])
    ensures v == Val(a) / Times(d, PowB(k))
  {
    hide Val, PowB, Term;
    ValSplit(a, k);
    ValBound(a[..k]);
    var lo := Val(a[..k]);
    QuotientBig(Val(a), v, d, r, PowB(k), lo) by {
      TermIs(Val(a[k..]), k);
    }
  }

  lemma TermIs(x: nat, k: nat)
    ensures Term(x, k) == Times(PowB(k), x)
  {
  }

  lemma QuotientBig(n: nat, v: nat, d: nat, r: nat, b: nat, lo: nat)
    requires b > 0 && d > 0 && r < d && lo < b && n == lo + Times(b, Times(d, v) + r)
    ensures v == n / Times(d, b) && Times(d, b) > 0
  {
    hide Times;
    TimesAdd(b, Times(d, v), r);
    TimesAssoc(b, d, v);
    TimesAdd(b, d, 0);
    TimesLess(b, r, d);
    TimesAdd(d, b, 0);
    TimesIs(Times(d, b), v);
    TimesPositive(d, b);
    ModIs(n, Times(d, b), v, Times(b, r) + lo);
  }

  lemma TimesPositive(x: nat, y: nat)
    requires x > 0 && y > 0
    ensures Times(x, y) > 0
  {
  }

  // ---------------------------------------------------------------- bit length

  /** n is the number of bits of v. */
  ghost predicate BitLength(v: nat, n: nat) {
    v < Pow2(n) && (n > 0 ==> Pow2(n - 1) <= v)
  }

  /** The bit length of a number is that of its top limb, 32 bits up per limb. */
  lemma TopLimb(s: seq<Limb>, pos: nat, n: nat)
    requires pos < |s| && n > 0 && BitLength(s[pos], n) && forall j | pos < j < |s| :: s[j] == 0
    ensures BitLength(Val(s), 32 * pos + n)
  {
    hide Term, PowB, Pow2;
    var x: nat := s[pos];
    ValSplit(s, pos + 1);
    AllZero(s[pos + 1..]);
    TermOne(pos + 1);
    ValPush(s, pos);
    ValBound(s[..pos]);
    TermAdd(x, 1, pos);
    TermOne(pos);
    TermMono(Pow2(n - 1), x, pos);
    TermMono(x + 1, Pow2(n), pos);
    TermOfPow2(n - 1, pos);
    TermOfPow2(n, pos);
  }

  lemma {:induction false} AllZero(s: seq<Limb>)
    requires forall i | 0 <= i < |s| :: s[i] == 0
    ensures Val(s) == 0
  {
    if s != [] {
      AllZero(s[..|s| - 1]);
      TermOne(|s| - 1);
    }
  }

  lemma TermOfPow2(n: nat, pos: nat)
    ensures Term(Pow2(n), pos) == Pow2(32 * pos + n)
  {
    PowBIsPow2(pos);
    Pow2Add(n, 32 * pos);
  }

  /** A number below 2^(k+1) either has bit k set, and then is at least 2^k, or is below 2^k. */
  lemma TopBit(x: nat, k: nat)
    requires x < Pow2(k + 1)
    ensures BitSet(x, k) <==> Pow2(k) <= x
  {
    var d := Pow2(k);
    if x >= d {
      ModIs(x, d, 1, x - d);
    } else {
      ModIs(x, d, 0, x);
    }
  }
}
