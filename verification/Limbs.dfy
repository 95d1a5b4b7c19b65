/** Numbers as little-endian sequences of 32-bit limbs. */
module Limbs {
  import opened Powers

  const BASE: int := 0x1_0000_0000
  const WIDTH: nat := 8

  type Limb = x: int | 0 <= x < BASE

  function PowB(i: nat): (r: nat)
    ensures r >= 1
  {
    if i == 0 then 1 else BASE * PowB(i - 1)
  }

  /** What a digit contributes at a position. */
  function Term(x: nat, i: nat): nat { x * PowB(i) }

  function Val(s: seq<Limb>): nat {
    if s == [] then 0 else Val(s[..|s| - 1]) + Term(s[|s| - 1], |s| - 1)
  }

  /** 2^256. */
  function Modulus(): nat { PowB(WIDTH) }

  // ---------------------------------------------------------------- terms

  lemma TermAdd(x: nat, y: nat, i: nat)
    ensures Term(x + y, i) == Term(x, i) + Term(y, i)
  {
  }

  lemma TermUp(x: nat, i: nat)
    ensures Term(x, i + 1) == Term(x * BASE, i)
  {
  }

  /** A sum that overflows a limb is the limb and a carry one place up. */
  lemma TermSplit(n: nat, i: nat)
    ensures Term(n, i) == Term(n % BASE, i) + Term(n / BASE, i + 1)
  {
    TermUp(n / BASE, i);
    TermAdd(n % BASE, n / BASE * BASE, i);
  }

  lemma TermMono(x: nat, y: nat, i: nat)
    requires x <= y
    ensures Term(x, i) <= Term(y, i)
  {
  }

  lemma TermOne(i: nat)
    ensures PowB(0) == 1 && Term(1, i) == PowB(i) && Term(0, i) == 0 && Term(BASE, i) == PowB(i + 1)
  {
  }

  lemma {:induction false} PowBAdd(i: nat, j: nat)
    ensures PowB(i + j) == PowB(i) * PowB(j)
  {
    if i > 0 {
      PowBAdd(i - 1, j);
      assert PowB(i) * PowB(j) == BASE * (PowB(i - 1) * PowB(j));
    }
  }

  lemma {:induction false} PowBIsPow2(i: nat)
    ensures PowB(i) == Pow2(32 * i)
  {
    if i > 0 {
      PowBIsPow2(i - 1);
      Pow2Add(32, 32 * (i - 1));
      Pow2Values();
    }
  }

  // ---------------------------------------------------------------- values

  lemma {:induction false} ValBound(s: seq<Limb>)
    ensures Val(s) < PowB(|s|)
  {
    if s != [] {
      var k := |s| - 1;
      ValBound(s[..k]);
      var x: nat := s[k];
      TermMono(x + 1, BASE, k);
      TermAdd(x, 1, k);
      TermOne(k);
    }
  }

  lemma ValPush(s: seq<Limb>, i: nat)
    requires i < |s|
    ensures Val(s[..i + 1]) == Val(s[..i]) + Term(s[i], i)
  {
    assert s[..i + 1][..i] == s[..i];
  }

  lemma ValAppend(s: seq<Limb>, x: Limb)
    ensures Val(s + [x]) == Val(s) + Term(x, |s|)
  {
    assert (s + [x])[..|s|] == s;
  }

  lemma ValWhole(s: seq<Limb>)
    ensures s[..|s|] == s && s[..0] == []
  {
  }

  /** A value with a carry beyond the last limb is the value of the whole modulo 2^256. */
  lemma Wraps(total: nat, s: seq<Limb>, carry: nat)
    requires |s| == WIDTH && Val(s) + Term(carry, WIDTH) == total
    ensures Val(s) == total % Modulus()
  {
    ValBound(s);
    DivUnique(total, Modulus(), carry, Val(s));
  }

  /** Changing one limb changes the value by the difference at its place. */
  lemma {:induction false} ValUpdate(s: seq<Limb>, i: nat, v: Limb)
    requires i < |s|
    ensures Val(s[i := v]) == Val(s) - Term(s[i], i) + Term(v, i)
  {
    hide Term;
    var k := |s| - 1;
    if i == k {
      assert s[i := v][..k] == s[..k];
    } else {
      ValUpdate(s[..k], i, v);
      assert s[i := v][..k] == s[..k][i := v];
    }
  }

  /** A value is its low limbs and, further up, its high limbs. */
  lemma {:induction false} ValSplit(s: seq<Limb>, k: nat)
    requires k <= |s|
    ensures Val(s) == Val(s[..k]) + Term(Val(s[k..]), k)
  {
    if k == |s| {
      assert s[..k] == s && s[k..] == [];
    } else {
      var m := |s| - 1;
      ValSplit(s[..m], k);
      assert s[..m][..k] == s[..k];
      assert s[..m][k..] == s[k..][..m - k];
      assert Val(s[k..]) == Val(s[k..][..m - k]) + Term(s[m], m - k);
      TermAdd(Val(s[k..][..m - k]), Term(s[m], m - k), k);
      TermTerm(s[m], m - k, k);
    }
  }

  lemma TermTerm(x: nat, i: nat, k: nat)
    ensures Term(Term(x, i), k) == Term(x, i + k)
  {
    PowBAdd(i, k);
    assert x * PowB(i) * PowB(k) == x * (PowB(i) * PowB(k));
  }

  /** Multiplication, named so that proofs can treat products as they treat other terms. */
  function Times(x: nat, y: nat): nat { x * y }

  lemma TimesIs(x: nat, y: nat)
    ensures Times(x, y) == x * y == y * x
  {
  }

  lemma TimesAdd(x: nat, u: nat, v: nat)
    ensures Times(x, u + v) == Times(x, u) + Times(x, v) && Times(x, u) == Times(u, x)
  {
  }

  lemma TimesTerm(x: nat, y: nat, i: nat)
    ensures Times(x, Term(y, i)) == Term(Times(x, y), i)
  {
    assert x * y * PowB(i) == x * (y * PowB(i));
  }

  /** The first differing limb from the top decides. */
  lemma CompareLimb(s: seq<Limb>, t: seq<Limb>, i: nat)
    requires |s| == |t| && i < |s| && s[i] < t[i] && s[i + 1..] == t[i + 1..]
    ensures Val(s) < Val(t)
  {
    hide Term;
    ValSplit(s, i + 1);
    ValSplit(t, i + 1);
    ValPush(s, i);
    ValPush(t, i);
    ValBound(s[..i]);
    var x: nat := s[i];
    TermAdd(x, 1, i);
    TermOne(i);
    TermMono(x + 1, t[i], i);
  }

  /** All limbs complemented. */
  lemma {:induction false} ValComplement(s: seq<Limb>, t: seq<Limb>)
    requires |t| == |s| && forall i | 0 <= i < |s| :: t[i] == BASE - 1 - s[i]
    ensures Val(t) == PowB(|s|) - 1 - Val(s)
  {
    if s != [] {
      hide Term;
      var k := |s| - 1;
      ValComplement(s[..k], t[..k]);
      TermAdd(s[k], t[k], k);
      TermAdd(BASE - 1, 1, k);
      TermOne(k);
    }
  }
}
