/** 256-bit unsigned arithmetic on eight 32-bit limbs, in place, proved against the integers modulo 2^256. */
module ArithUint256 {
  import opened Powers
  import opened Limbs
  import opened LimbShifts

  const MAX64: int := 0xffff_ffff_ffff_ffff

  class Uint256 {
    const pn: array<Limb>

    ghost predicate Valid() {
      pn.Length == WIDTH
    }

    ghost function Value(): nat
      requires Valid()
      reads pn
    {
      Val(pn[..])
    }

    constructor (b: nat)
      requires b <= MAX64
      ensures Valid() && fresh(pn) && Value() == b
    {
      pn := new Limb[WIDTH](_ => 0);
      new;
      pn[0] := b % BASE;
      pn[1] := b / BASE;
      TwoLimbs(pn[..], b);
    }

    constructor Copy(that: Uint256)
      requires that.Valid()
      ensures Valid() && fresh(pn) && pn[..] == that.pn[..] && Value() == that.Value()
    {
      pn := new Limb[WIDTH](i requires 0 <= i < that.pn.Length reads that.pn => that.pn[i]);
      new;
      assert pn[..] == that.pn[..];
    }

    /** operator+=: exact modulo 2^256, without 64-bit overflow; the operands may be the same object. */
    method Add(b: Uint256)
      requires Valid() && b.Valid()
      modifies pn
      ensures Value() == (old(Value()) + old(b.Value())) % Modulus()
    {
      hide Val, Term, PowB;
      ghost var x, y := pn[..], b.pn[..];
      var carry := 0;
      SumStart(pn[..], x, y);
      for i := 0 to WIDTH
        invariant 0 <= carry <= 1
        invariant Val(pn[..i]) + Term(carry, i) == Val(x[..i]) + Val(y[..i])
        invariant forall j | i <= j < WIDTH :: pn[j] == x[j] && b.pn[j] == y[j]
      {
        var n: int := carry + pn[i] + b.pn[i];
        assert n <= MAX64;
        SumStep(pn[..i], x, y, i, carry, n);
        pn[i] := n % BASE;
        carry := n / BASE;
        assert pn[..i + 1] == pn[..i] + [n % BASE];
      }
      ValWhole(pn[..]);
      ValWhole(x);
      ValWhole(y);
      Wraps(Val(x) + Val(y), pn[..], carry);
    }

    /** operator++. */
    method Increment()
      requires Valid()
      modifies pn
      ensures Value() == (old(Value()) + 1) % Modulus()
    {
      hide Val, Term, PowB;
      ghost var x := pn[..];
      TermOne(0);
      var i := 0;
      while true
        invariant 0 <= i < WIDTH && Val(pn[..]) + PowB(i) == Val(x) + 1
        decreases WIDTH - i
      {
        ghost var s := pn[..];
        var next := (pn[i] as int + 1) % BASE;
        ValUpdate(s, i, next);
        TermOne(i);
        ghost var v: nat := s[i];
        TermAdd(v, 1, i);
        pn[i] := next;
        assert pn[..] == s[i := next];
        if pn[i] != 0 || i == WIDTH - 1 {
          IncrementEnds(pn[..], Val(x), i, pn[i] == 0);
          return;
        }
        i := i + 1;
      }
    }

    /** Unary minus. */
    method Negated() returns (r: Uint256)
      requires Valid()
      ensures r.Valid() && fresh(r.pn) && fresh(r) && r.Value() == (Modulus() - Value()) % Modulus()
    {
      hide Val, Term, PowB;
      r := new Uint256(0);
      for i := 0 to WIDTH
        invariant forall j | 0 <= j < i :: r.pn[j] == BASE - 1 - pn[j]
      {
        r.pn[i] := BASE - 1 - pn[i];
      }
      ValComplement(pn[..], r.pn[..]);
      r.Increment();
    }

    /** operator-=: exact modulo 2^256. */
    method Subtract(b: Uint256)
      requires Valid() && b.Valid()
      modifies pn
      ensures Value() == (old(Value()) - old(b.Value())) % Modulus()
    {
      hide Val, PowB;
      ghost var x, y := Value(), b.Value();
      ValBound(pn[..]);
      ValBound(b.pn[..]);
      var minus := b.Negated();
      Add(minus);
      SubtractMod(x, y, Modulus());
    }

    /** operator*=(uint32_t). */
    method MultiplySmall(b: Limb)
      requires Valid()
      modifies pn
      ensures Value() == (old(Value()) * b as int) % Modulus()
    {
      hide Val, Term, PowB, Times;
      ghost var x := pn[..];
      var carry := 0;
      SmallStart(pn[..], x, b);
      for i := 0 to WIDTH
        invariant 0 <= carry < BASE
        invariant Val(pn[..i]) + Term(carry, i) == Times(b, Val(x[..i]))
        invariant forall j | i <= j < WIDTH :: pn[j] == x[j]
      {
        SmallBound(carry, b, pn[i]);
        TimesIs(b, pn[i]);
        var n: int := carry + b as int * pn[i] as int;
        assert n <= MAX64;
        SmallStep(pn[..i], x, b, i, carry, n);
        pn[i] := n % BASE;
        carry := n / BASE;
        assert pn[..i + 1] == pn[..i] + [n % BASE];
      }
      ValWhole(pn[..]);
      ValWhole(x);
      TimesIs(b, Val(x));
      Wraps(Times(b, Val(x)), pn[..], carry);
    }

    /** CompareTo. */
    method CompareTo(b: Uint256) returns (r: int)
      requires Valid() && b.Valid()
      ensures r == if Value() < b.Value() then -1 else if Value() > b.Value() then 1 else 0
    {
      hide Val;
      for i := WIDTH downto 0
        invariant pn[i..] == b.pn[i..]
      {
        if pn[i] < b.pn[i] {
          CompareLimb(pn[..], b.pn[..], i);
          return -1;
        }
        if pn[i] > b.pn[i] {
          CompareLimb(b.pn[..], pn[..], i);
          return 1;
        }
        assert pn[i..] == [pn[i]] + pn[i + 1..];
        assert b.pn[i..] == [b.pn[i]] + b.pn[i + 1..];
      }
      assert pn[..] == pn[0..] && b.pn[..] == b.pn[0..];
      return 0;
    }

    ghost predicate AllLimbsZero()
      requires Valid()
      reads pn
    {
      forall k | 0 <= k < WIDTH :: pn[k] == 0
    }

    /** One row of the schoolbook product: adds a digit times b, shifted, into the limbs from j on. If b is this number
        itself, it has been cleared and stays so. */
    method MultiplyRow(a: seq<Limb>, b: Uint256, j: nat)
      requires Valid() && b.Valid() && |a| == WIDTH && j < WIDTH && (b.pn == pn ==> AllLimbsZero())
      modifies pn
      ensures b.pn == pn ==> AllLimbsZero()
      ensures b.pn != pn ==> exists w: nat :: Value() + Term(w, WIDTH) == old(Value()) + Term(Times(a[j], b.Value()), j)
    {
      hide Val, Term, PowB, Times;
      ghost var p, y := pn[..], b.pn[..];
      var carry := 0;
      RowStart(a[j], y, j);
      var i := 0;
      while i + j < WIDTH
        invariant 0 <= i <= WIDTH - j && 0 <= carry < BASE
        invariant b.pn == pn ==> AllLimbsZero() && carry == 0
        invariant b.pn != pn ==> Val(pn[..]) + Term(carry, i + j) == Val(p) + Term(Times(a[j], Val(y[..i])), j)
      {
        RowBound(carry, pn[i + j], a[j], b.pn[i]);
        TimesIs(a[j], b.pn[i]);
        var n: int := carry + pn[i + j] as int + a[j] as int * b.pn[i] as int;
        assert n <= MAX64;
        ghost var s := pn[..];
        if b.pn != pn {
          assert n == carry + s[i + j] as int + Times(a[j], y[i]);
          RowStep(s, a[j], y, i, j, carry, n);
        }
        var low: Limb := n % BASE;
        pn[i + j] := low;
        assert pn[..] == s[i + j := low];
        carry := n / BASE;
        i := i + 1;
      }
      if b.pn != pn {
        ghost var w := RowEnds(a[j], y, j, carry);
        ValWhole(y);
        assert Value() + Term(w, WIDTH) == old(Value()) + Term(Times(a[j], b.Value()), j);
      }
    }

    /** operator*=: exact modulo 2^256 for a factor that is another object. A number multiplied by itself is cleared
        before it is read, and becomes zero. */
    method Multiply(b: Uint256)
      requires Valid() && b.Valid()
      modifies pn
      ensures Value() == if b.pn == pn then 0 else (old(Value()) * b.Value()) % Modulus()
    {
      hide Val, Term, PowB, Times, Modulus;
      var a := pn[..];
      for i := 0 to WIDTH
        invariant forall j | 0 <= j < i :: pn[j] == 0
        invariant b.pn != pn ==> b.pn[..] == old(b.pn[..])
      {
        pn[i] := 0;
      }
      AllZero(pn[..]);
      ProductStart(a, b.Value());
      ghost var wraps: nat := 0;
      for j := 0 to WIDTH
        invariant b.pn == pn ==> AllLimbsZero()
        invariant b.pn != pn ==> Value() + Term(wraps, WIDTH) == Times(b.Value(), Val(a[..j])) && b.pn[..] == old(b.pn[..])
      {
        ghost var before := Value();
        MultiplyRow(a, b, j);
        if b.pn != pn {
          ghost var w: nat :| Value() + Term(w, WIDTH) == before + Term(Times(a[j], b.Value()), j);
          ProductStep(a, b.Value(), j, before, Value(), wraps, w);
          wraps := wraps + w;
        }
      }
      if b.pn != pn {
        ValWhole(a);
        TimesIs(b.Value(), Val(a));
        Wraps(Times(b.Value(), Val(a)), pn[..], wraps);
      } else {
        AllZero(pn[..]);
      }
    }

    /** bits(): the bit length. */
    method Bits() returns (n: nat)
      requires Valid()
      ensures BitLength(Value(), n) && n <= 256
    {
      hide Val, BitAnd, BitSet, Pow2;
      for pos := WIDTH downto 0
        invariant forall j | pos <= j < WIDTH :: pn[j] == 0
      {
        if pn[pos] != 0 {
          Pow2Values();
          Pow2Small();
          for bits := 31 downto 0
            invariant 0 <= bits <= 31 && pn[pos] as int < Pow2(bits + 1)
          {
            AndTestsBit(pn[pos], bits + 1);
            TopBit(pn[pos], bits + 1);
            if BitAnd(pn[pos], Pow2(bits + 1)) != 0 {
              TopLimb(pn[..], pos, bits + 2);
              return 32 * pos + (bits + 1) + 1;
            }
          }
          TopLimb(pn[..], pos, 1);
          return 32 * pos + 1;
        }
      }
      AllZero(pn[..]);
      Pow2Small();
      return 0;
    }

    method Clear()
      requires Valid()
      modifies pn
      ensures (forall j | 0 <= j < WIDTH :: pn[j] == 0) && Value() == 0
    {
      for i := 0 to WIDTH
        invariant forall j | 0 <= j < i :: pn[j] == 0
      {
        pn[i] := 0;
      }
      AllZero(pn[..]);
    }

    /** operator=(uint64_t). */
    method Set(b: nat)
      requires Valid() && b <= MAX64
      modifies pn
      ensures Value() == b
    {
      Clear();
      pn[0] := b % BASE;
      pn[1] := b / BASE;
      TwoLimbs(pn[..], b);
    }

    /** GetLow64: the value modulo 2^64. */
    method GetLow64() returns (r: nat)
      requires Valid()
      ensures r == Value() % (MAX64 + 1) && (Value() <= MAX64 ==> r == Value())
    {
      r := pn[0] as int + pn[1] as int * BASE;
      LowLimbs(pn[..]);
    }

    /** One limb of operator<<=: its high part joins the empty limb above, its low part the limb that
        already holds the high part of the limb below. */
    method PlaceLeft(x: Limb, at: nat, s: nat) returns (dropped: nat)
      requires Valid() && at < WIDTH && s < 32 && pn[at] as int < Pow2(s) && forall j | at < j < WIDTH :: pn[j] == 0
      modifies pn
      ensures Value() + Term(dropped, WIDTH) == old(Value()) + Term(Times(Pow2(s), x), at)
      ensures at + 1 < WIDTH ==> dropped == 0 && pn[at + 1] as int < Pow2(s) && forall j | at + 1 < j < WIDTH :: pn[j] == 0
    {
      hide Val, Term, PowB, Times, BitOr, Quo, Rem, Pow2;
      ghost var before := pn[..];
      LeftParts(x, s);
      LeftStep(x, s, at);
      var hi: Limb := Quo(x, Pow2(32 - s));
      var lo := (x as int * Pow2(s)) % BASE;
      dropped := hi;
      if at + 1 < WIDTH && s != 0 {
        OrZero(hi);
        ValUpdate(pn[..], at + 1, hi);
        TermOne(at + 1);
        ghost var was := pn[..];
        pn[at + 1] := BitOr(pn[at + 1], hi);
        assert pn[..] == was[at + 1 := hi];
        dropped := 0;
      } else if s == 0 {
        NoShift(x);
      }
      ghost var mid := pn[..];
      OrParts(pn[at], x, s);
      ghost var p: nat := mid[at];
      var both: Limb := BitOr(pn[at], lo);
      ValUpdate(mid, at, both);
      TermAdd(p, lo, at);
      pn[at] := both;
      assert pn[..] == mid[at := both];
      TermOne(at + 1);
      TermOne(WIDTH);
    }

    /** operator<<=: multiplication by a power of two modulo 2^256, for any shift. */
    method ShiftLeft(shift: nat)
      requires Valid()
      modifies pn
      ensures Value() == (old(Value()) * Pow2(shift)) % Modulus()
    {
      hide Val, Term, PowB, Times, Modulus, Pow2;
      var a := pn[..];
      Clear();
      var k, s := shift / 32, shift % 32;
      ghost var p := Pow2(s);
      ScaledStart(a, p, k);
      var dropped := 0;
      for i := 0 to WIDTH
        invariant i + k < WIDTH ==> dropped == 0 && pn[i + k] as int < p && forall j | i + k < j < WIDTH :: pn[j] == 0
        invariant i + k <= WIDTH ==> Val(pn[..]) + Term(dropped, WIDTH) == Term(Times(p, Val(a[..i])), k)
        invariant i + k >= WIDTH && k <= WIDTH ==> Val(pn[..]) + Term(dropped, WIDTH) == Term(Times(p, Val(a[..WIDTH - k])), k)
        invariant k > WIDTH ==> Val(pn[..]) == 0
      {
        if i + k < WIDTH {
          ScaledPush(a, p, i, k);
          dropped := PlaceLeft(a[i], i + k, s);
          TermOne(WIDTH);
        }
      }
      LeftShifted(pn[..], a, shift, dropped);
    }

    /** One limb of operator>>=. */
    method PlaceRight(x: Limb, at: nat, s: nat)
      requires Valid() && at + 1 < WIDTH && 0 < s < 32 && pn[at] as int < Pow2(32 - s) && forall j | at < j < WIDTH :: pn[j] == 0
      modifies pn
      ensures Value() == old(Value()) + Term(Quo(x, Pow2(s)), at + 1) + Term(Times(Pow2(32 - s), Rem(x, Pow2(s))), at)
      ensures pn[at + 1] as int < Pow2(32 - s) && forall j | at + 1 < j < WIDTH :: pn[j] == 0
    {
      hide Val, Term, PowB, Times, BitOr, Quo, Rem, Pow2;
      RightParts(x, s);
      var lo := (x as int * Pow2(32 - s)) % BASE;
      ghost var was := pn[..];
      OrParts(pn[at], x, 32 - s);
      ghost var p: nat := was[at];
      var both: Limb := BitOr(pn[at], lo);
      ValUpdate(was, at, both);
      TermAdd(p, lo, at);
      pn[at] := both;
      assert pn[..] == was[at := both];
      ghost var mid := pn[..];
      var hi: Limb := Quo(x, Pow2(s));
      OrZero(hi);
      ValUpdate(mid, at + 1, hi);
      TermOne(at + 1);
      pn[at + 1] := BitOr(pn[at + 1], hi);
      assert pn[..] == mid[at + 1 := hi];
    }

    /** operator>>=: the floor of division by a power of two, for any shift. */
    method ShiftRight(shift: nat)
      requires Valid()
      modifies pn
      ensures Value() == old(Value()) / Pow2(shift)
    {
      hide Val, Term, PowB, Times, Pow2, Quo, Rem;
      var a := pn[..];
      Clear();
      var k, s := shift / 32, shift % 32;
      if k >= WIDTH {
        ShiftedOut(a, shift);
        return;
      }
      RightFirst(a, k, s);
      pn[0] := Quo(a[k], Pow2(s));
      FirstLimb(pn[..]);
      for i := k + 1 to WIDTH
        invariant pn[i - k - 1] as int < Pow2(32 - s) && forall j | i - k <= j < WIDTH :: pn[j] == 0
        invariant Times(Pow2(s), Val(pn[..])) + Rem(a[k], Pow2(s)) == Val(a[k..i])
      {
        ghost var before := Val(pn[..]);
        RightPush(a, k, i, s);
        if s != 0 {
          PlaceRight(a[i], i - k - 1, s);
          RightAdds(a[i], s, i - k - 1, before, Val(pn[..]));
        } else {
          ghost var was := pn[..];
          ValUpdate(was, i - k, a[i]);
          TermOne(i - k);
          pn[i - k] := a[i];
          assert pn[..] == was[i - k := a[i]];
          WholeLimb(a[i], before, i - k);
        }
      }
      assert a[k..WIDTH] == a[k..];
      RightShifted(Val(pn[..]), a, shift);
    }

    /** Sets a bit of the quotient; all lower bits are still clear. */
    method SetBit(n: nat)
      requires Valid() && n < 256 && LowClear(pn[..], n + 1)
      modifies pn
      ensures Value() == old(Value()) + Pow2(n) && LowClear(pn[..], n)
    {
      hide Val, Term, PowB, BitOr, Pow2;
      var m, r := n / 32, n % 32;
      ghost var s := pn[..];
      BitFits(s, n);
      var both: Limb := BitOr(pn[m], Pow2(r));
      ValUpdate(s, m, both);
      ghost var p: nat := s[m];
      TermAdd(p, Pow2(r), m);
      TermOfPow2(r, m);
      pn[m] := both;
      assert pn[..] == s[m := both];
    }

    /** The division so far: the bits of the quotient from `shift` on are set, the rest remains in num. */
    ghost predicate Dividing(num: Uint256, div: Uint256, shift: nat, n: nat, d: nat)
      reads pn, num.pn, div.pn
    {
      && Valid() && num.Valid() && div.Valid() && num.pn != div.pn && num.pn != pn && div.pn != pn
      && num.Value() + Times(d, Value()) == n && num.Value() < Times(d, Pow2(shift))
      && LowClear(pn[..], shift)
    }

    /** One round of the shift-and-subtract loop. */
    method DivideStep(num: Uint256, div: Uint256, shift: nat, ghost n: nat, ghost d: nat)
      requires Dividing(num, div, shift + 1, n, d) && shift < 256 && div.Value() == Times(d, Pow2(shift))
      modifies pn, num.pn, div.pn
      ensures Dividing(num, div, shift, n, d)
      ensures shift >= 1 ==> div.Value() == Times(d, Pow2(shift - 1))
    {
      hide Val, Times, Pow2, PowB, LowClear;
      ghost var r, q := num.Value(), Value();
      ValBound(num.pn[..]);
      var c := num.CompareTo(div);
      QuotientStep(n, d, shift, r, q, c >= 0);
      if c >= 0 {
        num.Subtract(div);
        SetBit(shift);
        ModulusBound(r - Times(d, Pow2(shift)));
      } else {
        ClearLess(pn[..], shift);
      }
      div.ShiftRight(1);
    }

    /** operator/=: the floor quotient for every divisor but zero, which is refused. */
    method Divide(b: Uint256) returns (ok: bool)
      requires Valid() && b.Valid()
      modifies pn
      ensures ok <==> old(b.Value()) != 0
      ensures ok ==> Value() == old(Value()) / old(b.Value())
    {
      hide Val, Times, Pow2, PowB, LowClear, BitLength;
      ghost var n, d := Value(), b.Value();
      var div := new Uint256.Copy(b);
      var num := new Uint256.Copy(this);
      Clear();
      var numBits := num.Bits();
      var divBits := div.Bits();
      DivisorZero(d, divBits);
      if divBits == 0 {
        return false;
      }
      if divBits > numBits {
        QuotientZero(n, d, numBits, divBits);
        return true;
      }
      var shift: int := numBits - divBits;
      ShiftFits(n, d, numBits, divBits);
      div.ShiftLeft(shift);
      AllClear(pn[..], shift + 1);
      QuotientStart(n, d, shift, numBits);
      ok := true;
      while shift >= 0
        invariant -1 <= shift < 256 && Dividing(num, div, shift + 1, n, d)
        invariant shift >= 0 ==> div.Value() == Times(d, Pow2(shift))
        invariant fresh(num.pn) && fresh(div.pn)
        decreases shift
      {
        DivideStep(num, div, shift, n, d);
        shift := shift - 1;
      }
      QuotientEnds(n, d, Value(), num.Value());
    }
  }

  /** No bit below n is set. */
  ghost predicate LowClear(s: seq<Limb>, n: nat)
    requires |s| == WIDTH
  {
    && (forall m | 0 <= m < WIDTH && 32 * (m + 1) <= n :: s[m] == 0)
    && (n < 256 ==> s[n / 32] as int % Pow2(n % 32) == 0)
  }

  lemma AllClear(s: seq<Limb>, n: nat)
    requires |s| == WIDTH && forall j | 0 <= j < WIDTH :: s[j] == 0
    ensures LowClear(s, n)
  {
    hide Pow2;
    ModIs(0, Pow2(n % 32), 0, 0);
  }

  lemma ClearLess(s: seq<Limb>, n: nat)
    requires |s| == WIDTH && n < 256 && LowClear(s, n + 1)
    ensures LowClear(s, n)
  {
    var m, r := n / 32, n % 32;
    if r == 31 {
      assert 32 * (m + 1) <= n + 1;
      ModIs(0, Pow2(r), 0, 0);
    } else {
      assert (n + 1) / 32 == m && (n + 1) % 32 == r + 1;
      HalfMultiple(s[m], Pow2(r));
    }
    hide Pow2;
  }

  lemma HalfMultiple(x: nat, p: nat)
    requires p > 0 && x % (2 * p) == 0
    ensures x % p == 0
  {
    Parts(x, 2 * p);
    var y := Quo(x, 2 * p);
    assert Times(2 * p, y) == (2 * y) * p;
    ModIs(x, p, 2 * y, 0);
  }

  /** Below a clear bit the limb has room for it. */
  lemma RoomForBit(x: Limb, r: nat)
    requires r < 31 && x as int % Pow2(r + 1) == 0
    ensures BitOr(x, Pow2(r)) == x as int + Pow2(r) < BASE && (x as int + Pow2(r)) % Pow2(r) == 0
  {
    var p, n: nat := Pow2(r), x;
    assert Pow2(r + 1) == 2 * p;
    Parts(n, 2 * p);
    var y := Quo(n, 2 * p);
    ShiftedIs(y, r + 1);
    OrIsSum(p, y, r + 1);
    OrCommutes(n, p);
    Pow2Halves(r + 1);
    hide Pow2, BitOr, Quo, Rem;
    QuotientSmall(n, 2 * p, Pow2(31 - r), y, 0) by {
      TimesAdd(Pow2(31 - r), 2 * p, 0);
    }
    TimesLess(2 * p, y, Pow2(31 - r));
    TimesAdd(2 * p, Pow2(31 - r), 0);
    TimesIs(2 * p, y);
    ModIs(n + p, p, 2 * y + 1, 0) by {
      OddMultiple(p, y);
    }
  }

  lemma OddMultiple(p: nat, y: nat)
    ensures 2 * p * y + p == (2 * y + 1) * p
  {
  }

  lemma BitRoom(s: seq<Limb>, n: nat)
    requires |s| == WIDTH && n < 256 && LowClear(s, n + 1)
    ensures var m, r := n / 32, n % 32;
            BitOr(s[m], Pow2(r)) == s[m] as int + Pow2(r) < BASE && (s[m] as int + Pow2(r)) % Pow2(r) == 0
  {
    var m, r := n / 32, n % 32;
    if r == 31 {
      assert 32 * (m + 1) <= n + 1;
      OrZero(Pow2(r));
      Pow2Values();
      ModIs(Pow2(r), Pow2(r), 1, 0);
    } else {
      assert (n + 1) / 32 == m && (n + 1) % 32 == r + 1;
      RoomForBit(s[m], r);
    }
  }

  lemma BitFits(s: seq<Limb>, n: nat)
    requires |s| == WIDTH && n < 256 && LowClear(s, n + 1)
    ensures var m, r := n / 32, n % 32;
            && BitOr(s[m], Pow2(r)) == s[m] as int + Pow2(r) < BASE
            && LowClear(s[m := (s[m] as int + Pow2(r)) as Limb], n)
  {
    hide Pow2, BitOr;
    BitRoom(s, n);
  }

  lemma DivisorZero(d: nat, bits: nat)
    requires BitLength(d, bits)
    ensures bits == 0 <==> d == 0
  {
  }

  lemma QuotientZero(n: nat, d: nat, nb: nat, db: nat)
    requires BitLength(n, nb) && BitLength(d, db) && db > nb
    ensures d > 0 && n / d == 0
  {
    Pow2Mono(nb, db - 1);
    hide Pow2;
    ModIs(n, d, 0, n);
  }

  lemma ShiftFits(n: nat, d: nat, nb: nat, db: nat)
    requires BitLength(n, nb) && BitLength(d, db) && 0 < db <= nb <= 256
    ensures (d * Pow2(nb - db)) % Modulus() == Times(d, Pow2(nb - db))
  {
    hide Pow2, PowB, Times;
    var p := Pow2(nb - db);
    Pow2Add(db, nb - db);
    Pow2Mono(nb, 32 * WIDTH);
    PowBIsPow2(WIDTH);
    TimesIs(d, p);
    TimesAdd(p, d, 0);
    TimesLess(p, d, Pow2(db));
    TimesIs(p, Pow2(db));
    ModulusBound(Times(d, p));
  }

  lemma QuotientStart(n: nat, d: nat, shift: nat, nb: nat)
    requires BitLength(n, nb) && shift < nb && BitLength(d, nb - shift)
    ensures Times(d, 0) == 0 && n < Times(d, Pow2(shift + 1))
  {
    Pow2Add(nb - shift - 1, shift + 1);
    hide Pow2;
    MulUpTo(Pow2(nb - shift - 1), Pow2(shift + 1), d, Pow2(shift + 1));
  }

  lemma ModulusBound(x: nat)
    requires x < PowB(WIDTH)
    ensures x % Modulus() == x
  {
    hide PowB;
    ModIs(x, PowB(WIDTH), 0, x);
  }

  lemma QuotientStep(n: nat, d: nat, shift: nat, r: nat, q: nat, ge: bool)
    requires r + Times(d, q) == n && r < Times(d, Pow2(shift + 1)) && (ge <==> r >= Times(d, Pow2(shift)))
    ensures ge ==> r - Times(d, Pow2(shift)) + Times(d, q + Pow2(shift)) == n && r - Times(d, Pow2(shift)) < Times(d, Pow2(shift))
    ensures shift >= 1 ==> Times(d, Pow2(shift)) / Pow2(1) == Times(d, Pow2(shift - 1))
  {
    Pow2Small();
    assert Pow2(shift + 1) == Pow2(shift) + Pow2(shift);
    assert shift >= 1 ==> Pow2(shift) == Pow2(shift - 1) + Pow2(shift - 1);
    hide Pow2, Times;
    TimesAdd(d, q, Pow2(shift));
    TimesAdd(d, Pow2(shift), Pow2(shift));
    if shift >= 1 {
      TimesAdd(d, Pow2(shift - 1), Pow2(shift - 1));
    }
  }

  lemma QuotientEnds(n: nat, d: nat, q: nat, r: nat)
    requires r + Times(d, q) == n && r < Times(d, Pow2(0)) && d > 0
    ensures q == n / d
  {
    Pow2Small();
    TimesIs(d, q);
    ModIs(n, d, q, r);
  }

  lemma ScaledStart(a: seq<Limb>, p: nat, k: nat)
    ensures Term(Times(p, Val(a[..0])), k) == 0 && Term(0, WIDTH) == 0
  {
  }

  lemma ShiftParts(shift: nat)
    ensures Pow2(shift) == Times(Pow2(shift % 32), PowB(shift / 32))
  {
    PowBIsPow2(shift / 32);
    Pow2Add(shift % 32, 32 * (shift / 32));
  }

  lemma LeftShifted(s: seq<Limb>, a: seq<Limb>, shift: nat, dropped: nat)
    requires |s| == |a| == WIDTH
    requires var k, p := shift / 32, Pow2(shift % 32);
             if k <= WIDTH then Val(s) + Term(dropped, WIDTH) == Term(Times(p, Val(a[..WIDTH - k])), k) else Val(s) == 0
    ensures Val(s) == (Val(a) * Pow2(shift)) % Modulus()
  {
    hide Val, Term, PowB, Times, Modulus, Pow2;
    var k, p := shift / 32, Pow2(shift % 32);
    ShiftParts(shift);
    TimesIs(Val(a), Pow2(shift));
    if k <= WIDTH {
      LeftEnds(s, a, p, k, dropped);
      TimesIs(Times(p, PowB(k)), Val(a));
    } else {
      AllOut(Val(a), p, k);
    }
  }

  lemma AllOut(v: nat, p: nat, k: nat)
    requires k > WIDTH
    ensures (v * Times(p, PowB(k))) % Modulus() == 0
  {
    hide PowB, Times;
    var b, m := PowB(k - WIDTH), PowB(WIDTH);
    PowBAdd(k - WIDTH, WIDTH);
    TimesIs(b, m);
    TimesAssoc(p, b, m);
    TimesAssoc(v, Times(p, b), m);
    TimesIs(v, Times(p, PowB(k)));
    var w := Times(v, Times(p, b));
    TimesIs(w, m);
    ModIs(w * m, m, w, 0);
  }

  lemma ShiftedOut(a: seq<Limb>, shift: nat)
    requires |a| == WIDTH && shift / 32 >= WIDTH
    ensures Val(a) / Pow2(shift) == 0
  {
    hide Val, Pow2, PowB;
    ValBound(a);
    PowBIsPow2(WIDTH);
    Pow2Mono(32 * WIDTH, shift);
    ModIs(Val(a), Pow2(shift), 0, Val(a));
  }

  lemma FirstLimb(s: seq<Limb>)
    requires |s| == WIDTH && forall j | 1 <= j < WIDTH :: s[j] == 0
    ensures Val(s) == s[0]
  {
    ValSplit(s, 1);
    AllZero(s[1..]);
    assert s[..1] == [s[0]];
    TermOne(1);
    assert Val(s[..1]) == Val([]) + Term(s[0], 0) by {
      assert s[..1][..0] == [];
    }
  }

  lemma RightFirst(a: seq<Limb>, k: nat, s: nat)
    requires k < |a| && s < 32
    ensures Times(Pow2(s), Quo(a[k], Pow2(s))) + Rem(a[k], Pow2(s)) == Val(a[k..k + 1])
    ensures Quo(a[k], Pow2(s)) < Pow2(32 - s)
  {
    Parts(a[k], Pow2(s));
    assert a[k..k + 1] == [a[k]] && [a[k]][..0] == [];
    assert Val([a[k]]) == Term(a[k], 0) == a[k] as int;
    if s > 0 {
      RightParts(a[k], s);
    } else {
      Pow2Values();
      Pow2Small();
    }
  }

  lemma RightPush(a: seq<Limb>, k: nat, i: nat, s: nat)
    requires k < i < |a|
    ensures Val(a[k..i + 1]) == Val(a[k..i]) + Term(a[i], i - k)
  {
    ValPush(a[k..], i - k);
    assert a[k..][..i - k] == a[k..i] && a[k..][..i + 1 - k] == a[k..i + 1];
  }

  lemma RightAdds(x: Limb, s: nat, at: nat, before: nat, after: nat)
    requires 0 < s < 32 && after == before + Term(Quo(x, Pow2(s)), at + 1) + Term(Times(Pow2(32 - s), Rem(x, Pow2(s))), at)
    ensures Times(Pow2(s), after) == Times(Pow2(s), before) + Term(x, at + 1)
  {
    hide Times, Term, Pow2, Quo, Rem;
    RightStep(x, s, at);
    TimesAdd(Pow2(s), before, Term(Quo(x, Pow2(s)), at + 1) + Term(Times(Pow2(32 - s), Rem(x, Pow2(s))), at));
  }

  lemma WholeLimb(x: Limb, before: nat, at: nat)
    ensures Times(Pow2(0), before + Term(x, at)) == Times(Pow2(0), before) + Term(x, at) && (x as int) < Pow2(32)
  {
    Pow2Values();
    Pow2Small();
  }

  lemma RightShifted(v: nat, a: seq<Limb>, shift: nat)
    requires |a| == WIDTH && shift / 32 < WIDTH
    requires var k, d := shift / 32, Pow2(shift % 32); Times(d, v) + Rem(a[k], d) == Val(a[k..])
    ensures v == Val(a) / Pow2(shift)
  {
    var k, d := shift / 32, Pow2(shift % 32);
    Parts(a[k], d);
    ShiftParts(shift);
    hide Val, PowB, Times, Pow2, Quo, Rem;
    RightEnds(v, a, k, d, Rem(a[k], d));
  }

  lemma LowLimbs(s: seq<Limb>)
    requires |s| == WIDTH
    ensures Val(s) % (MAX64 + 1) == s[0] as int + s[1] as int * BASE
  {
    ValSplit(s, 2);
    ValPush(s, 0);
    ValPush(s, 1);
    assert PowB(0) == 1 && PowB(1) == BASE && PowB(2) == MAX64 + 1;
    ModIs(Val(s), MAX64 + 1, Val(s[2..]), s[0] as int + s[1] as int * BASE);
  }

  lemma OrZero(x: nat)
    ensures BitOr(0, x) == x
  {
  }

  lemma NoShift(x: Limb)
    ensures Quo(x, Pow2(32)) == 0
  {
    Pow2Values();
  }

  /** The two parts of a limb do not overlap. */
  lemma OrParts(p: nat, x: Limb, s: nat)
    requires s < 32 && p < Pow2(s)
    ensures BitOr(p, (x as int * Pow2(s)) % BASE) == p + (x as int * Pow2(s)) % BASE < BASE
  {
    LeftParts(x, s);
    var r := Rem(x, Pow2(32 - s));
    ShiftedIs(r, s);
    OrIsSum(p, r, s);
    Pow2Halves(s);
    hide Pow2, Times;
    TimesLess(Pow2(s), r, Pow2(32 - s));
  }

  lemma ShiftedIs(r: nat, s: nat)
    ensures Shifted(r, s) == Times(Pow2(s), r)
  {
  }

  lemma Pow2Small()
    ensures Pow2(0) == 1 && Pow2(1) == 2
  {
  }

  lemma RowStart(d: Limb, y: seq<Limb>, j: nat)
    ensures Term(0, j) == 0 && Term(Times(d, Val(y[..0])), j) == 0
  {
  }

  lemma RowBound(carry: nat, p: nat, d: nat, x: nat)
    requires carry < BASE && p < BASE && d < BASE && x < BASE
    ensures carry + p + d * x <= MAX64 && (carry + p + d * x) / BASE < BASE
  {
    MulUpTo(d, x, BASE - 1, BASE - 1);
    DivLess(carry + p + d * x, BASE, BASE);
  }

  lemma RowGrows(d: Limb, y: seq<Limb>, i: nat, j: nat)
    requires i < |y|
    ensures Term(Times(d, Val(y[..i + 1])), j) == Term(Times(d, Val(y[..i])), j) + Term(Times(d, y[i]), i + j)
  {
    hide Term, Times;
    ValPush(y, i);
    TimesAdd(d, Val(y[..i]), Term(y[i], i));
    TimesTerm(d, y[i], i);
    TermAdd(Times(d, Val(y[..i])), Term(Times(d, y[i]), i), j);
    TermTerm(Times(d, y[i]), i, j);
  }

  lemma RowStep(s: seq<Limb>, d: Limb, y: seq<Limb>, i: nat, j: nat, carry: nat, n: nat)
    requires i < |y| && i + j < |s| && n == carry + s[i + j] as int + Times(d, y[i])
    ensures var low: Limb := n % BASE;
            Val(s[i + j := low]) + Term(n / BASE, i + 1 + j) - (Val(s) + Term(carry, i + j)) ==
            Term(Times(d, Val(y[..i + 1])), j) - Term(Times(d, Val(y[..i])), j)
  {
    hide Term, Times, Val;
    var m := i + j;
    ValUpdate(s, m, n % BASE);
    TermAdd(carry, s[m], m);
    TermAdd(carry + s[m] as int, Times(d, y[i]), m);
    TermSplit(n, m);
    RowGrows(d, y, i, j);
  }

  lemma RowEnds(d: Limb, y: seq<Limb>, j: nat, carry: nat) returns (w: nat)
    requires |y| == WIDTH && j < WIDTH
    ensures Term(w, WIDTH) + Term(Times(d, Val(y[..WIDTH - j])), j) == Term(carry, WIDTH) + Term(Times(d, Val(y)), j)
  {
    hide Term, Times, Val;
    var k := WIDTH - j;
    var hi := Times(d, Val(y[k..]));
    w := carry + hi;
    ValSplit(y, k);
    TimesAdd(d, Val(y[..k]), Term(Val(y[k..]), k));
    TimesTerm(d, Val(y[k..]), k);
    TermAdd(Times(d, Val(y[..k])), Term(hi, k), j);
    TermTerm(hi, k, j);
    TermAdd(carry, hi, WIDTH);
  }

  lemma ProductStart(a: seq<Limb>, y: nat)
    ensures Times(y, Val(a[..0])) == 0 && Term(0, WIDTH) == 0
  {
  }

  lemma ProductStep(a: seq<Limb>, y: nat, j: nat, before: nat, after: nat, wraps: nat, w: nat)
    requires j < |a| && before + Term(wraps, WIDTH) == Times(y, Val(a[..j]))
    requires after + Term(w, WIDTH) == before + Term(Times(a[j], y), j)
    ensures after + Term(wraps + w, WIDTH) == Times(y, Val(a[..j + 1]))
  {
    hide Term, Times;
    ValPush(a, j);
    TermAdd(wraps, w, WIDTH);
    TimesTerm(y, a[j], j);
    TimesAdd(y, a[j], 0);
    TimesAdd(y, Val(a[..j]), Term(a[j], j));
  }

  lemma IncrementEnds(s: seq<Limb>, x: nat, i: nat, overflow: bool)
    requires |s| == WIDTH && i < WIDTH && (overflow ==> i == WIDTH - 1)
    requires if overflow then Val(s) + PowB(i + 1) == x + 1 else Val(s) == x + 1
    ensures Val(s) == (x + 1) % Modulus()
  {
    hide Val, PowB;
    TermOne(WIDTH);
    Wraps(x + 1, s, if overflow then 1 else 0);
  }

  lemma SubtractMod(x: nat, y: nat, m: nat)
    requires x < m && y < m
    ensures (x + (m - y) % m) % m == (x - y) % m
  {
    var r := if x >= y then x - y else x - y + m;
    ModIs(x - y, m, if x >= y then 0 else -1, r);
    if y == 0 {
      ModIs(m, m, 1, 0);
      ModIs(x, m, 0, x);
    } else {
      ModIs(m - y, m, 0, m - y);
      ModIs(x + (m - y), m, if x >= y then 1 else 0, r);
    }
  }

  lemma SmallBound(carry: nat, b: nat, x: nat)
    requires carry < BASE && b < BASE && x < BASE
    ensures carry + b * x <= MAX64 && (carry + b * x) / BASE < BASE
  {
    MulUpTo(b, x, BASE - 1, BASE - 1);
    DivLess(carry + b * x, BASE, BASE);
  }

  lemma SmallStart(s: seq<Limb>, x: seq<Limb>, b: Limb)
    ensures Val(s[..0]) + Term(0, 0) == Times(b, Val(x[..0]))
  {
  }

  lemma SmallStep(done: seq<Limb>, x: seq<Limb>, b: Limb, i: nat, carry: nat, n: nat)
    requires i < |x| && |done| == i && n == carry + Times(b, x[i])
    requires Val(done) + Term(carry, i) == Times(b, Val(x[..i]))
    ensures Val(done + [n % BASE]) + Term(n / BASE, i + 1) == Times(b, Val(x[..i + 1]))
  {
    hide Term, Times, Val;
    ValPush(x, i);
    ValAppend(done, n % BASE);
    TermAdd(carry, Times(b, x[i]), i);
    TermSplit(n, i);
    TimesTerm(b, x[i], i);
    TimesAdd(b, Val(x[..i]), Term(x[i], i));
  }

  lemma TwoLimbs(s: seq<Limb>, b: nat)
    requires |s| == WIDTH && s[0] == b % BASE && s[1] == b / BASE && forall i | 2 <= i < WIDTH :: s[i] == 0
    ensures Val(s) == b
  {
    ValPush(s, 0);
    ValPush(s, 1);
    TermSplit(b, 0);
    assert Term(b, 0) == b;
    for i := 2 to WIDTH
      invariant Val(s[..i]) == b
    {
      ValPush(s, i);
      TermOne(i);
    }
    ValWhole(s);
  }

  lemma SumStart(s: seq<Limb>, x: seq<Limb>, y: seq<Limb>)
    ensures Val(s[..0]) + Term(0, 0) == Val(x[..0]) + Val(y[..0])
  {
  }

  lemma SumStep(done: seq<Limb>, x: seq<Limb>, y: seq<Limb>, i: nat, carry: nat, n: nat)
    requires i < |x| && i < |y| && |done| == i && n == carry + x[i] as int + y[i] as int
    requires Val(done) + Term(carry, i) == Val(x[..i]) + Val(y[..i])
    ensures Val(done + [n % BASE]) + Term(n / BASE, i + 1) == Val(x[..i + 1]) + Val(y[..i + 1])
  {
    hide Term, Val;
    ValPush(x, i);
    ValPush(y, i);
    ValAppend(done, n % BASE);
    var u, v: nat := x[i], y[i];
    TermAdd(carry, u, i);
    TermAdd(carry + u, v, i);
    TermSplit(n, i);
  }

  // ---------------------------------------------------------------- a number multiplied by itself

  /** A square is a multiple of 4^k exactly if its root is a multiple of 2^k. */
  lemma {:induction false} SquareVanishes(v: nat, k: nat)
    ensures (v * v) % Pow2(2 * k) == 0 <==> v % Pow2(k) == 0
    decreases k
  {
    if k > 0 {
      if v % 2 == 1 {
        OddSquare(v);
        OddLeaves(v * v, 2 * k);
        OddLeaves(v, k);
      } else {
        var u := v / 2;
        SquareVanishes(u, k - 1);
        assert v * v == 4 * (u * u) && Pow2(2 * k) == 4 * Pow2(2 * (k - 1));
        ScaledMultiple(u * u, Pow2(2 * (k - 1)), 4);
        ScaledMultiple(u, Pow2(k - 1), 2);
      }
    }
  }

  lemma OddSquare(v: nat)
    requires v % 2 == 1
    ensures (v * v) % 2 == 1
  {
    var u := v / 2;
    assert v * v == 2 * (2 * u * u + 2 * u) + 1;
  }

  lemma OddLeaves(x: nat, k: nat)
    requires x % 2 == 1 && k > 0
    ensures x % Pow2(k) != 0
  {
    var q, r := x / Pow2(k), x % Pow2(k);
    assert x == q * (2 * Pow2(k - 1)) + r;
    assert q * (2 * Pow2(k - 1)) == 2 * (q * Pow2(k - 1));
  }

  lemma ScaledMultiple(x: nat, m: nat, c: nat)
    requires m > 0 && c > 0
    ensures (c * x) % (c * m) == 0 <==> x % m == 0
  {
    var q, r := x / m, x % m;
    assert c * x == q * (c * m) + c * r;
    MulUpTo(c, r + 1, c, m);
    ModIs(c * x, c * m, q, c * r);
  }

  lemma ModulusIs()
    ensures Modulus() == Pow2(256)
  {
    PowBIsPow2(8);
  }

  /** What `x *= x` leaves is the square modulo 2^256 if and only if the number is a multiple of 2^128. */
  lemma SelfMultiplyExact(v: nat)
    ensures 0 == (v * v) % Modulus() <==> v % Pow2(128) == 0
  {
    hide Pow2, Modulus;
    ModulusIs();
    SquareVanishes(v, 128);
  }

  lemma OneIsOne()
    ensures Modulus() > 1 && (1 * 1) % Modulus() == 1
  {
    hide Modulus;
    ModulusIs();
    assert Pow2(256) == 2 * Pow2(255);
    ModIs(1, Modulus(), 0, 1);
  }

  /** One, squared in place, is zero, although one times one is one. */
  method SquareOfOne() returns (ghost before: nat, x: Uint256)
    ensures x.Valid() && before == 1 && x.Value() == 0 && x.Value() != (before * before) % Modulus()
  {
    hide Modulus;
    x := new Uint256(1);
    before := x.Value();
    x.Multiply(x);
    OneIsOne();
  }
}
