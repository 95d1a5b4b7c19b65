/** Writing and reading a transaction's unspent outputs, loop by loop (src/coins.h, src/coins.cpp). */
module CoinsStore {
  import opened Powers
  import opened Primitives
  import opened VarInts
  import opened Amounts
  import opened CoinsCodec

  // ---------------------------------------------------------------- the mask

  /** Positions past the end of the vector add no bits. */
  lemma {:induction false} FlagsPast(vout: seq<TxOut>, from: nat, k: nat, n: nat)
    requires k <= n && from + k >= |vout|
    ensures FromBits(Flags(vout, from, n)) == FromBits(Flags(vout, from, k))
    decreases n
  {
    if k < n {
      FlagsPast(vout, from, k, n - 1);
      BitsAppend(Flags(vout, from, n - 1), false);
    }
  }

  /** One byte of the mask, bit by bit. */
  method MakeMaskByte(vout: seq<TxOut>, b: nat) returns (chAvail: nat)
    ensures chAvail == MaskByte(vout, b)
  {
    hide FromBits, BitOr, Pow2;
    chAvail := 0;
    var i := 0;
    assert FromBits(Flags(vout, 2 + 8 * b, 0)) == 0 by {
      BitsZero(Flags(vout, 2 + 8 * b, 0));
    }
    while i < 8 && 2 + b * 8 + i < |vout|
      invariant 0 <= i <= 8 && chAvail == FromBits(Flags(vout, 2 + 8 * b, i))
    {
      var f := Flags(vout, 2 + 8 * b, i);
      BitsAppend(f, Live(vout, 2 + 8 * b + i));
      if !vout[2 + b * 8 + i].IsNull() {
        OrIsSum(chAvail, 1, i);
        assert Shifted(1, i) == Pow2(i);
        chAvail := BitOr(chAvail, Pow2(i));
      }
      i := i + 1;
    }
    if i < 8 {
      FlagsPast(vout, 2 + 8 * b, i, 8);
    }
  }

  /** Looks through the outputs of one mask byte. */
  method ByteIsZero(vout: seq<TxOut>, b: nat) returns (fZero: bool)
    ensures fZero == (MaskByte(vout, b) == 0)
  {
    hide MaskByte;
    fZero := true;
    var i := 0;
    while i < 8 && 2 + b * 8 + i < |vout|
      invariant 0 <= i <= 8 && (fZero <==> forall j | 2 + 8 * b <= j < 2 + 8 * b + i :: !Live(vout, j))
    {
      if !vout[2 + b * 8 + i].IsNull() {
        fZero := false;
        assert Live(vout, 2 + 8 * b + i);
      }
      i := i + 1;
    }
    MaskByteLive(vout, b);
  }

  method CalcMaskSize(vout: seq<TxOut>) returns (nBytes: nat, nNonzeroBytes: nat)
    ensures nBytes == MaskSize(vout) && nNonzeroBytes == NonZero(vout)
  {
    hide MaskByte;
    nBytes, nNonzeroBytes := 0, 0;
    var b := 0;
    while 2 + b * 8 < |vout|
      invariant 0 <= b <= Span(vout) && nBytes == LastUsed(vout, b) && nNonzeroBytes == Count(vout, 0, b)
    {
      var fZero := ByteIsZero(vout, b);
      CountAppend(vout, 0, b);
      if !fZero {
        nBytes := b + 1;
        nNonzeroBytes := nNonzeroBytes + 1;
      }
      b := b + 1;
    }
  }

  // ---------------------------------------------------------------- writing

  ghost predicate WidthsOk(c: Coin)
    requires !c.IsPruned()
  {
    c.nVersion < 0x8000_0000 && c.nHeight < 0x8000_0000 && Code(c) < 0x1_0000_0000
  }

  lemma Widths()
    ensures Pow2(32) == 0x1_0000_0000 && Pow2(64) == TWO_64
  {
    Pow2Values();
    Pow2Add(32, 32);
  }

  method WriteMask(s: seq<Item>, vout: seq<TxOut>, nMaskSize: nat) returns (r: seq<Item>)
    ensures r == s + Mask(vout, 0, nMaskSize)
  {
    hide MaskByte;
    r := s;
    for b := 0 to nMaskSize
      invariant r == s + Mask(vout, 0, b)
    {
      var chAvail := MakeMaskByte(vout, b);
      MaskAppend(vout, 0, b);
      r := r + [Octet(chAvail)];
    }
  }

  lemma {:induction false} OutsAppend(c: Coin, from: nat, end: nat)
    requires Storable(c) && from <= end
    ensures Outs(c, from, end + 1) == Outs(c, from, end) + if Live(c.vout, end) then OutForm(c.vout[end]) else []
    decreases end - from
  {
    hide OutForm;
    if from < end {
      OutsAppend(c, from + 1, end);
    } else {
      assert Outs(c, end + 1, end + 1) == [];
    }
  }

  method WriteOuts(s: seq<Item>, c: Coin) returns (r: seq<Item>)
    requires Storable(c)
    ensures r == s + Outs(c, 0, |c.vout|)
  {
    hide VarInt, Compressed, Pow2;
    r := s;
    Widths();
    for i := 0 to |c.vout|
      invariant r == s + Outs(c, 0, i)
    {
      OutsAppend(c, 0, i);
      if !c.vout[i].IsNull() {
        assert Live(c.vout, i);
        var x := CompressAmount(c.vout[i].nValue);
        r := WriteVarInt(r, x, 64);
        r := r + [Field(c.vout[i].scriptPubKey)];
      }
    }
  }

  method Serialize(c: Coin) returns (s: seq<Item>)
    requires Storable(c) && WidthsOk(c)
    ensures s == Serialized(c)
  {
    hide VarInt, Mask, Outs, MaskByte, Count, LastUsed, Pow2;
    var nMaskSize, nMaskCode := CalcMaskSize(c.vout);
    var fFirst := |c.vout| > 0 && !c.vout[0].IsNull();
    var fSecond := |c.vout| > 1 && !c.vout[1].IsNull();
    SomethingLive(c);
    assert fFirst || fSecond || nMaskCode > 0;
    var nCode := 8 * (nMaskCode - (if fFirst || fSecond then 0 else 1)) + (if c.fCoinBase then 1 else 0) +
                 (if fFirst then 2 else 0) + (if fSecond then 4 else 0);
    Widths();
    s := WriteVarInt([], c.nVersion, 32);
    s := WriteVarInt(s, nCode, 32);
    s := WriteMask(s, c.vout, nMaskSize);
    s := WriteOuts(s, c);
    s := WriteVarInt(s, c.nHeight, 32);
  }

  // ---------------------------------------------------------------- reading

  /** The eight flags of a mask byte. */
  method FlagsOfByte(ch: Byte) returns (f: seq<bool>)
    ensures f == BitsOf(ch, 8)
  {
    hide BitSet, BitAnd, Pow2;
    f := [];
    for p := 0 to 8
      invariant f == BitsOf(ch, p)
    {
      AndTestsBit(ch, p);
      f := f + [BitAnd(ch, Pow2(p)) != 0];
    }
  }

  /** What a loop has gathered, in front of what is still to be read. */
  ghost function Prefixed<T>(f: seq<T>, r: Option<(seq<T>, seq<Item>)>): Option<(seq<T>, seq<Item>)> {
    match r
    case None => None
    case Some((g, rest)) => Some((f + g, rest))
  }

  lemma PrefixedEnds<T>(f: seq<T>, r: Option<(seq<T>, seq<Item>)>, rest: seq<Item>)
    ensures Prefixed([], r) == r && Prefixed(f, Some(([], rest))) == Some((f, rest))
  {
    assert f + [] == f;
    if r.Some? {
      assert [] + r.value.0 == r.value.0;
    }
  }

  lemma PrefixedTwice<T>(f: seq<T>, g: seq<T>, r: Option<(seq<T>, seq<Item>)>)
    ensures Prefixed(f, Prefixed(g, r)) == Prefixed(f + g, r)
  {
    if r.Some? {
      assert f + (g + r.value.0) == f + g + r.value.0;
    }
  }

  /** Reads mask bytes until so many that are not zero have been seen. */
  method ReadMaskBytes(s: seq<Item>, nMaskCode: nat) returns (r: Option<(seq<bool>, seq<Item>)>)
    ensures r == ReadMask(s, nMaskCode)
  {
    hide BitsOf;
    var avail: seq<bool>, code, i := [], nMaskCode, 0;
    assert s[0..] == s;
    PrefixedEnds(avail, ReadMask(s, nMaskCode), s);
    while code > 0
      invariant 0 <= i <= |s| && Prefixed(avail, ReadMask(s[i..], code)) == ReadMask(s, nMaskCode)
      decreases |s| - i, code
    {
      if i == |s| || s[i].Field? {
        return None;
      }
      var f := FlagsOfByte(s[i].b);
      assert s[i..][1..] == s[i + 1..];
      PrefixedTwice(avail, f, ReadMask(s[i + 1..], if s[i].b != 0 then code - 1 else code));
      avail := avail + f;
      if s[i].b != 0 {
        code := code - 1;
      }
      i := i + 1;
    }
    PrefixedEnds(avail, None, s[i..]);
    r := Some((avail, s[i..]));
  }

  method ReadOneOut(s: seq<Item>) returns (r: Option<(TxOut, seq<Item>)>)
    ensures r == ReadOut(s)
  {
    hide ReadVar, Decompressed, Wrap;
    var amount := ReadVarInt(s);
    if amount.None? {
      return None;
    }
    var (x, rest) := amount.value;
    if rest == [] || rest[0].Octet? {
      return None;
    }
    var n := DecompressAmount(Wrap(x));
    r := Some((TxOut(Signed(n), KeptScript(rest[0].s)), rest[1..]));
  }

  method ReadAllOuts(s: seq<Item>, vAvail: seq<bool>) returns (r: Option<(seq<TxOut>, seq<Item>)>)
    ensures r == ReadOuts(s, vAvail)
  {
    hide ReadOut;
    var vout := seq(|vAvail|, _ => NULL_OUT);
    var rest := s;
    assert vAvail[0..] == vAvail && vout[..0] == [];
    PrefixedEnds(vout[..0], ReadOuts(s, vAvail), s);
    for i := 0 to |vAvail|
      invariant |vout| == |vAvail| && (forall j | i <= j < |vout| :: vout[j] == NULL_OUT)
      invariant Prefixed(vout[..i], ReadOuts(rest, vAvail[i..])) == ReadOuts(s, vAvail)
    {
      assert vAvail[i..][1..] == vAvail[i + 1..];
      ghost var before := vout[..i];
      if vAvail[i] {
        var one := ReadOneOut(rest);
        if one.None? {
          return None;
        }
        vout := vout[i := one.value.0];
        rest := one.value.1;
      }
      assert vout[..i + 1] == before + [vout[i]];
      PrefixedTwice(before, [vout[i]], ReadOuts(rest, vAvail[i + 1..]));
    }
    PrefixedEnds(vout, None, rest);
    assert vout[..|vout|] == vout && vAvail[|vAvail|..] == [];
    r := Some((vout, rest));
  }

  method Unserialize(s: seq<Item>) returns (r: Option<(Coin, seq<Item>)>)
    ensures r == Unserialized(s)
  {
    hide ReadVar, BitAnd, ReadMask, ReadOuts, Cleanup;
    var head := ReadVarInt(s);
    if head.None? {
      return None;
    }
    var code := ReadVarInt(head.value.1);
    if code.None? {
      return None;
    }
    var nCode := code.value.0;
    var fCoinBase := BitAnd(nCode, 1) != 0;
    var vAvail := [BitAnd(nCode, 2) != 0, BitAnd(nCode, 4) != 0];
    var nMaskCode := nCode / 8 + if BitAnd(nCode, 6) != 0 then 0 else 1;
    var mask := ReadMaskBytes(code.value.1, nMaskCode);
    if mask.None? {
      return None;
    }
    vAvail := vAvail + mask.value.0;
    var outs := ReadAllOuts(mask.value.1, vAvail);
    if outs.None? {
      return None;
    }
    var height := ReadVarInt(outs.value.1);
    if height.None? {
      return None;
    }
    var vout := CleanupVout(outs.value.0);
    r := Some((Coin(fCoinBase, vout, height.value.0, head.value.0), height.value.1));
  }
}
