/** The fixed buffers of the base-58 conversions are long enough, for every length. */
module BufferRoom {
  import opened Powers
  import opened Digits

  lemma PowTimes(a: nat, b: nat, k: nat, m: nat, n: nat, p: nat)
    requires Pow(a, k) <= Pow(b, m) && Pow(a, n) <= Pow(b, p)
    ensures Pow(a, k + n) <= Pow(b, m + p)
  {
    PowAdd(a, k, n);
    PowAdd(b, m, p);
    MulUpTo(Pow(a, k), Pow(a, n), Pow(b, m), Pow(b, p));
  }

  lemma FewBytes(n: nat)
    requires n < 8
    ensures Pow(256, n) <= Pow(58, n * 138 / 100 + 1)
  {
    assert Pow(256, 1) <= Pow(58, 2) && Pow(256, 2) <= Pow(58, 3) && Pow(256, 3) <= Pow(58, 5) && Pow(256, 4) <= Pow(58, 6);
    assert Pow(256, 5) <= Pow(58, 7) && Pow(256, 6) <= Pow(58, 9) && Pow(256, 7) <= Pow(58, 10);
  }

  lemma Squared(b: nat, e: nat, p: nat)
    requires Pow(b, e) == p
    ensures Pow(b, 2 * e) == p * p
  {
    PowAdd(b, e, e);
  }

  lemma Powers58()
    ensures Pow(58, 7) == 2207984167552 && Pow(58, 8) == 128063081718016
    ensures Pow(58, 15) == 282761256881297307761016832
    ensures Pow(58, 71) == 159730386663078066345306447337161584696769904898410078913243029577507397293846405390982563136983769384625594118558891106107392
  {
    assert Pow(58, 4) == 11316496 && Pow(58, 7) == 2207984167552;
    hide Pow;
    Squared(58, 4, 11316496);
    Squared(58, 8, 128063081718016);
    Squared(58, 16, 16400152899115243850138976256);
    Squared(58, 32, 268965015114358137726910587140455987105619365599731777536);
    PowAdd(58, 7, 8);
    PowAdd(58, 7, 64);
  }

  lemma Powers256()
    ensures Pow(256, 11) == 309485009821345068724781056
    ensures Pow(256, 52) == 169230328010303641331690318856389386196071598838855992136870091590247882556495704531248437872567112920983350278405979725889536
  {
    assert Pow(256, 3) == 16777216 && Pow(256, 4) == 4294967296;
    hide Pow;
    Squared(256, 4, 4294967296);
    Squared(256, 8, 18446744073709551616);
    Squared(256, 16, 340282366920938463463374607431768211456);
    PowAdd(256, 3, 8);
    PowAdd(256, 4, 16);
    PowAdd(256, 20, 32);
  }

  lemma {:induction false} CharsByFour(n: nat)
    ensures Pow(58, n) <= Pow(256, n - n / 4)
  {
    if n < 4 {
      assert Pow(58, 1) <= Pow(256, 1) && Pow(58, 2) <= Pow(256, 2) && Pow(58, 3) <= Pow(256, 3);
    } else {
      assert Pow(58, 4) <= Pow(256, 3);
      hide Pow;
      CharsByFour(n - 4);
      PowTimes(58, 256, 4, 3, n - 4, (n - 4) - (n - 4) / 4);
      assert 3 + ((n - 4) - (n - 4) / 4) == n - n / 4;
    }
  }

  function ByFifteen(n: nat): nat {
    if n < 15 then n - n / 4 else 11 + ByFifteen(n - 15)
  }

  lemma {:induction false} CharsByFifteen(n: nat)
    ensures Pow(58, n) <= Pow(256, ByFifteen(n))
  {
    hide Pow;
    if n < 15 {
      CharsByFour(n);
    } else {
      Powers58();
      Powers256();
      CharsByFifteen(n - 15);
      PowTimes(58, 256, 15, 11, n - 15, ByFifteen(n - 15));
    }
  }

  lemma ByFifteenFits(n: nat)
    requires n < 71
    ensures ByFifteen(n) <= n * 733 / 1000 + 1
  {
    var a, b := n / 15, n % 15;
    assert n == 15 * a + b;
    ByFifteenIs(a, b);
    assert 11 * a + b - b / 4 <= (10995 * a + 733 * b) / 1000 + 1;
  }

  lemma {:induction false} ByFifteenIs(a: nat, b: nat)
    requires b < 15
    ensures ByFifteen(15 * a + b) == 11 * a + b - b / 4
  {
    if a > 0 {
      ByFifteenIs(a - 1, b);
      assert 15 * a + b - 15 == 15 * (a - 1) + b;
    }
  }

  /** Enough bytes for n base-58 digits. */
  lemma {:induction false} RoomToDecode(n: nat)
    ensures Pow(58, n) <= Pow(256, n * 733 / 1000 + 1)
  {
    hide Pow, ByFifteen;
    if n < 71 {
      CharsByFifteen(n);
      ByFifteenFits(n);
      PowMono(256, ByFifteen(n), n * 733 / 1000 + 1);
    } else {
      Powers58();
      Powers256();
      RoomToDecode(n - 71);
      PowTimes(58, 256, 71, 52, n - 71, (n - 71) * 733 / 1000 + 1);
      PowMono(256, 52 + ((n - 71) * 733 / 1000 + 1), n * 733 / 1000 + 1);
    }
  }

  lemma EightBytes()
    ensures Pow(256, 8) <= Pow(58, 11)
  {
  }

  /** Enough base-58 digits for n bytes. */
  lemma {:induction false} RoomToEncode(n: nat)
    ensures Pow(256, n) <= Pow(58, n * 138 / 100 + 1)
  {
    hide Pow;
    if n < 8 {
      FewBytes(n);
    } else {
      EightBytes();
      RoomToEncode(n - 8);
      PowTimes(256, 58, 8, 11, n - 8, (n - 8) * 138 / 100 + 1);
      PowMono(58, 11 + ((n - 8) * 138 / 100 + 1), n * 138 / 100 + 1);
    }
  }
}
