/** The stored form of a transaction's unspent outputs (src/coins.h, src/coins.cpp). */
module CoinsCodec {
  import opened Powers
  import opened Primitives
  import opened VarInts
  import opened Amounts

  // ---------------------------------------------------------------- bits of a byte

  function FromBits(f: seq<bool>): nat {
    if f == [] then 0 else (if f[0] then 1 else 0) + 2 * FromBits(f[1..])
  }

  lemma {:induction false} BitsBack(f: seq<bool>, p: nat)
    ensures BitSet(FromBits(f), p) <==> p < |f| && f[p]
  {
    if f == [] {
      assert 0 / Pow2(p) == 0;
    } else if p > 0 {
      BitsBack(f[1..], p - 1);
      HalfDiv(FromBits(f), Pow2(p - 1));
    }
  }

  lemma {:induction false} BitsAppend(f: seq<bool>, b: bool)
    ensures FromBits(f + [b]) == FromBits(f) + (if b then Pow2(|f|) else 0) && FromBits(f) < Pow2(|f|)
  {
    if f != [] {
      BitsAppend(f[1..], b);
      assert (f + [b])[1..] == f[1..] + [b];
    } else {
      assert f + [b] == [b];
    }
  }

  lemma {:induction false} BitsZero(f: seq<bool>)
    ensures FromBits(f) == 0 <==> forall i | 0 <= i < |f| :: !f[i]
  {
    if f != [] {
      BitsZero(f[1..]);
      assert f == [f[0]] + f[1..];
    }
  }

  // ---------------------------------------------------------------- the mask

  predicate Live(vout: seq<TxOut>, i: nat) {
    i < |vout| && !vout[i].IsNull()
  }

  /** Which outputs are live, from a position on. */
  function Flags(vout: seq<TxOut>, from: nat, n: nat): (f: seq<bool>)
    ensures |f| == n && forall i | 0 <= i < n :: f[i] == Live(vout, from + i)
  {
    if n == 0 then [] else Flags(vout, from, n - 1) + [Live(vout, from + n - 1)]
  }

  function MaskByte(vout: seq<TxOut>, b: nat): (x: Byte)
  {
    BitsAppend(Flags(vout, 2 + 8 * b, 8), false);
    Pow2Values();
    FromBits(Flags(vout, 2 + 8 * b, 8))
  }

  /** The bytes of the mask from one to before another. */
  function Mask(vout: seq<TxOut>, from: nat, end: nat): seq<Item>
    decreases end - from
  {
    if from >= end then [] else [Octet(MaskByte(vout, from))] + Mask(vout, from + 1, end)
  }

  function Count(vout: seq<TxOut>, from: nat, end: nat): nat
    decreases end - from
  {
    if from >= end then 0 else (if MaskByte(vout, from) != 0 then 1 else 0) + Count(vout, from + 1, end)
  }

  /** The length of the mask: up to the last byte in use. */
  function LastUsed(vout: seq<TxOut>, n: nat): (r: nat)
    ensures r <= n && (r > 0 ==> MaskByte(vout, r - 1) != 0)
    ensures forall b | r <= b < n :: MaskByte(vout, b) == 0
  {
    if n == 0 then 0 else if MaskByte(vout, n - 1) != 0 then n else LastUsed(vout, n - 1)
  }

  /** How many mask bytes the output vector spans. */
  function Span(vout: seq<TxOut>): nat {
    if |vout| <= 2 then 0 else (|vout| + 5) / 8
  }

  function MaskSize(vout: seq<TxOut>): nat { LastUsed(vout, Span(vout)) }

  lemma MaskByteLive(vout: seq<TxOut>, b: nat)
    ensures MaskByte(vout, b) == 0 <==> forall i | 2 + 8 * b <= i < 10 + 8 * b :: !Live(vout, i)
  {
    var f := Flags(vout, 2 + 8 * b, 8);
    BitsZero(f);
    assert forall i | 2 + 8 * b <= i < 10 + 8 * b :: Live(vout, i) == f[i - 2 - 8 * b];
    assert forall i | 0 <= i < 8 :: f[i] == Live(vout, 2 + 8 * b + i);
  }

  lemma {:induction false} CountAppend(vout: seq<TxOut>, from: nat, end: nat)
    requires from <= end
    ensures Count(vout, from, end + 1) == Count(vout, from, end) + if MaskByte(vout, end) != 0 then 1 else 0
    decreases end - from
  {
    hide MaskByte;
    if from < end {
      CountAppend(vout, from + 1, end);
    } else {
      assert Count(vout, end + 1, end + 1) == 0;
    }
  }

  lemma {:induction false} MaskAppend(vout: seq<TxOut>, from: nat, end: nat)
    requires from <= end
    ensures Mask(vout, from, end + 1) == Mask(vout, from, end) + [Octet(MaskByte(vout, end))]
    decreases end - from
  {
    hide MaskByte;
    if from < end {
      MaskAppend(vout, from + 1, end);
    } else {
      assert Mask(vout, end + 1, end + 1) == [];
    }
  }

  /** Bytes past the last one in use do not count. */
  lemma {:induction false} CountTrim(vout: seq<TxOut>, n: nat)
    ensures Count(vout, 0, n) == Count(vout, 0, LastUsed(vout, n))
  {
    hide MaskByte;
    if n > 0 {
      CountAppend(vout, 0, n - 1);
      CountTrim(vout, n - 1);
    }
  }

  lemma {:induction false} CountPositive(vout: seq<TxOut>, from: nat, end: nat)
    requires from < end && MaskByte(vout, end - 1) != 0
    ensures Count(vout, from, end) > 0
    decreases end - from
  {
    hide MaskByte;
    if from < end - 1 {
      CountPositive(vout, from + 1, end);
    }
  }

  /** No live output lies beyond the mask. */
  lemma BeyondMask(vout: seq<TxOut>, i: nat)
    requires i >= 2 + 8 * MaskSize(vout)
    ensures !Live(vout, i)
  {
    if Live(vout, i) {
      var b := (i - 2) / 8;
      MaskByteLive(vout, b);
    }
  }

  function NonZero(vout: seq<TxOut>): nat { Count(vout, 0, Span(vout)) }

  /** The serializer's assertion: there is something to store unless the record is pruned. */
  lemma SomethingLive(c: Coin)
    ensures Live(c.vout, 0) || Live(c.vout, 1) || NonZero(c.vout) > 0 <==> !c.IsPruned()
  {
    var vout := c.vout;
    assert forall i | 0 <= i < |vout| :: Live(vout, i) == !vout[i].IsNull();
    hide MaskByte, Span, LastUsed;
    CountTrim(vout, Span(vout));
    var n := MaskSize(vout);
    if n > 0 {
      CountPositive(vout, 0, n);
      MaskByteLive(vout, n - 1);
      var i :| 2 + 8 * (n - 1) <= i < 10 + 8 * (n - 1) && Live(vout, i);
    } else {
      forall i | 2 <= i < |vout| ensures !Live(vout, i) {
        BeyondMask(vout, i);
      }
      assert forall i | 0 <= i < |vout| :: Live(vout, i) ==> i == 0 || i == 1;
    }
  }

  // ---------------------------------------------------------------- the stored form

  ghost predicate Storable(c: Coin) {
    !c.IsPruned() && forall i | 0 <= i < |c.vout| && Live(c.vout, i) :: AmountOk(c.vout[i])
  }

  ghost predicate AmountOk(o: TxOut) {
    0 <= o.nValue && 9 * o.nValue < TWO_64
  }

  function Code(c: Coin): nat
    requires !c.IsPruned()
  {
    SomethingLive(c);
    var f, g := Live(c.vout, 0), Live(c.vout, 1);
    8 * (NonZero(c.vout) - (if f || g then 0 else 1)) + (if c.fCoinBase then 1 else 0) + (if f then 2 else 0) + (if g then 4 else 0)
  }

  function OutForm(o: TxOut): seq<Item>
    requires AmountOk(o)
  {
    VarInt(Compressed(o.nValue)) + [Field(o.scriptPubKey)]
  }

  /** The live outputs from one position to before another. */
  function Outs(c: Coin, from: nat, end: nat): seq<Item>
    requires Storable(c)
    decreases end - from
  {
    if from >= end then []
    else (if Live(c.vout, from) then OutForm(c.vout[from]) else []) + Outs(c, from + 1, end)
  }

  function Serialized(c: Coin): seq<Item>
    requires Storable(c)
  {
    VarInt(c.nVersion) + VarInt(Code(c)) + Mask(c.vout, 0, MaskSize(c.vout)) + Outs(c, 0, |c.vout|) + VarInt(c.nHeight)
  }

  // ---------------------------------------------------------------- reading it

  function BitsOf(ch: Byte, n: nat): (f: seq<bool>)
    ensures |f| == n && forall p | 0 <= p < n :: f[p] == BitSet(ch, p)
  {
    if n == 0 then [] else BitsOf(ch, n - 1) + [BitSet(ch, n - 1)]
  }

  function ReadMask(s: seq<Item>, code: nat): Option<(seq<bool>, seq<Item>)> {
    if code == 0 then Some(([], s))
    else if s == [] || s[0].Field? then None
    else
      var ch := s[0].b;
      match ReadMask(s[1..], if ch != 0 then code - 1 else code)
      case None => None
      case Some((f, rest)) => Some((BitsOf(ch, 8) + f, rest))
  }

  /** A 64-bit pattern as a signed amount. */
  function Signed(w: nat): int {
    if w < TWO_64 / 2 then w else w - TWO_64
  }

  function KeptScript(s: Script): Script {
    if |s| > MAX_SCRIPT_SIZE then [OP_RETURN] else s
  }

  function ReadOut(s: seq<Item>): Option<(TxOut, seq<Item>)> {
    match ReadVar(s, 0)
    case None => None
    case Some((x, rest)) =>
      if rest == [] || rest[0].Octet? then None
      else Some((TxOut(Signed(Wrap(Decompressed(Wrap(x)))), KeptScript(rest[0].s)), rest[1..]))
  }

  function ReadOuts(s: seq<Item>, avail: seq<bool>): Option<(seq<TxOut>, seq<Item>)>
    decreases |avail|
  {
    if avail == [] then Some(([], s))
    else if !avail[0] then
      match ReadOuts(s, avail[1..])
      case None => None
      case Some((outs, rest)) => Some(([NULL_OUT] + outs, rest))
    else
      match ReadOut(s)
      case None => None
      case Some((o, after)) =>
        match ReadOuts(after, avail[1..])
        case None => None
        case Some((outs, rest)) => Some(([o] + outs, rest))
  }

  function ReadHead(s: seq<Item>): Option<(nat, nat, seq<Item>)> {
    match ReadVar(s, 0)
    case None => None
    case Some((version, rest)) =>
      match ReadVar(rest, 0)
      case None => None
      case Some((code, rest')) => Some((version, code, rest'))
  }

  function MaskCode(code: nat): nat {
    code / 8 + if BitAnd(code, 6) != 0 then 0 else 1
  }

  function ReadBody(code: nat, s: seq<Item>): Option<(seq<TxOut>, seq<Item>)> {
    match ReadMask(s, MaskCode(code))
    case None => None
    case Some((f, rest)) => ReadOuts(rest, [BitAnd(code, 2) != 0, BitAnd(code, 4) != 0] + f)
  }

  function Unserialized(s: seq<Item>): Option<(Coin, seq<Item>)> {
    match ReadHead(s)
    case None => None
    case Some((version, code, rest)) =>
      match ReadBody(code, rest)
      case None => None
      case Some((vout, rest')) =>
        match ReadVar(rest', 0)
        case None => None
        case Some((height, rest'')) => Some((Coin(BitAnd(code, 1) != 0, Cleanup(vout), height, version), rest''))
  }

  // ---------------------------------------------------------------- reading back what was written

  lemma {:induction false} ReadMaskBack(vout: seq<TxOut>, b: nat, end: nat, rest: seq<Item>)
    requires b <= end && (b < end ==> MaskByte(vout, end - 1) != 0)
    ensures ReadMask(Mask(vout, b, end) + rest, Count(vout, b, end)) == Some((Flags(vout, 2 + 8 * b, 8 * (end - b)), rest))
    decreases end - b
  {
    hide Flags, BitsOf, MaskByte, ReadMask, Mask, Count;
    if b < end {
      CountPositive(vout, b, end);
      ReadMaskBack(vout, b + 1, end, rest);
      MaskByteBits(vout, b);
      FlagsJoin(vout, 2 + 8 * b, 8, 8 * (end - b - 1));
      MaskUnfold(vout, b, end, rest);
      ReadMaskStep(MaskByte(vout, b), Mask(vout, b + 1, end) + rest, Count(vout, b, end));
    } else {
      NoMask(vout, b, rest);
    }
  }

  lemma MaskUnfold(vout: seq<TxOut>, b: nat, end: nat, rest: seq<Item>)
    requires b < end
    ensures Mask(vout, b, end) + rest == [Octet(MaskByte(vout, b))] + (Mask(vout, b + 1, end) + rest)
    ensures Count(vout, b, end) == (if MaskByte(vout, b) != 0 then 1 else 0) + Count(vout, b + 1, end)
  {
    hide MaskByte;
  }

  lemma NoMask(vout: seq<TxOut>, b: nat, rest: seq<Item>)
    ensures ReadMask(Mask(vout, b, b) + rest, Count(vout, b, b)) == Some((Flags(vout, 2 + 8 * b, 0), rest))
  {
    assert Mask(vout, b, b) + rest == rest;
  }

  lemma ReadMaskStep(ch: Byte, tail: seq<Item>, code: nat)
    requires code > 0
    ensures var r := ReadMask(tail, if ch != 0 then code - 1 else code);
            ReadMask([Octet(ch)] + tail, code) ==
              if r.None? then None else Some((BitsOf(ch, 8) + r.value.0, r.value.1))
  {
    assert ([Octet(ch)] + tail)[1..] == tail;
  }

  lemma FlagsJoin(vout: seq<TxOut>, from: nat, m: nat, n: nat)
    ensures Flags(vout, from, m) + Flags(vout, from + m, n) == Flags(vout, from, m + n)
  {
  }

  lemma MaskByteBits(vout: seq<TxOut>, b: nat)
    ensures BitsOf(MaskByte(vout, b), 8) == Flags(vout, 2 + 8 * b, 8)
  {
    var f := Flags(vout, 2 + 8 * b, 8);
    forall p | 0 <= p < 8 ensures BitSet(MaskByte(vout, b), p) == f[p] {
      BitsBack(f, p);
    }
  }

  /** What an output is after it is stored and read. */
  function StoredOut(vout: seq<TxOut>, i: nat): TxOut {
    if Live(vout, i) then TxOut(vout[i].nValue, KeptScript(vout[i].scriptPubKey)) else NULL_OUT
  }

  function Stored(vout: seq<TxOut>, from: nat, end: nat): (r: seq<TxOut>)
    ensures |r| == if from < end then end - from else 0
    ensures forall i | 0 <= i < |r| :: r[i] == StoredOut(vout, from + i)
    decreases end - from
  {
    if from >= end then [] else [StoredOut(vout, from)] + Stored(vout, from + 1, end)
  }

  lemma ReadOutBack(o: TxOut, rest: seq<Item>)
    requires AmountOk(o)
    ensures ReadOut(OutForm(o) + rest) == Some((TxOut(o.nValue, KeptScript(o.scriptPubKey)), rest))
  {
    var x := Compressed(o.nValue);
    DecompressCompressed(o.nValue);
    CompressedSize(o.nValue);
    hide Compressed, Decompressed, Wrap;
    ReadBack(x, [Field(o.scriptPubKey)] + rest);
    hide VarInt, ReadVar;
    assert OutForm(o) + rest == VarInt(x) + ([Field(o.scriptPubKey)] + rest);
    assert ([Field(o.scriptPubKey)] + rest)[1..] == rest;
  }

  lemma {:induction false} ReadOutsBack(c: Coin, from: nat, end: nat, rest: seq<Item>)
    requires Storable(c) && from <= end
    ensures ReadOuts(Outs(c, from, end) + rest, Flags(c.vout, from, end - from)) == Some((Stored(c.vout, from, end), rest))
    decreases end - from
  {
    hide OutForm, ReadOut;
    if from < end {
      ReadOutsBack(c, from + 1, end, rest);
      var f := Flags(c.vout, from, end - from);
      assert f[1..] == Flags(c.vout, from + 1, end - from - 1);
      var after := Outs(c, from + 1, end) + rest;
      if Live(c.vout, from) {
        ReadOutBack(c.vout[from], after);
        assert Outs(c, from, end) + rest == OutForm(c.vout[from]) + after;
      } else {
        assert Outs(c, from, end) + rest == after;
      }
    } else {
      assert Outs(c, from, end) + rest == rest;
    }
  }

  /** Writing stops at the end of the vector, reading at the end of the mask: the outputs are the same. */
  lemma {:induction false} OutsTrim(c: Coin, from: nat, m: nat, n: nat)
    requires Storable(c) && from <= m <= n && forall i | m <= i < n :: !Live(c.vout, i)
    ensures Outs(c, from, n) == Outs(c, from, m)
    decreases n - from
  {
    if from < m {
      OutsTrim(c, from + 1, m, n);
    } else if from < n {
      OutsTrim(c, from + 1, from + 1, n);
    }
  }

  lemma OutsToMask(c: Coin)
    requires Storable(c)
    ensures Outs(c, 0, |c.vout|) == Outs(c, 0, 2 + 8 * MaskSize(c.vout))
  {
    hide MaskSize;
    var n := 2 + 8 * MaskSize(c.vout);
    if n <= |c.vout| {
      forall i | n <= i < |c.vout| ensures !Live(c.vout, i) {
        BeyondMask(c.vout, i);
      }
      OutsTrim(c, 0, n, |c.vout|);
    } else {
      OutsTrim(c, 0, |c.vout|, n);
    }
  }

  lemma AndLow(x: nat)
    ensures BitAnd(x, 1) == x % 2 && BitAnd(x, 2) == 2 * BitAnd(x / 2, 1) && BitAnd(x, 4) == 2 * BitAnd(x / 2, 2)
    ensures BitAnd(x, 3) == 2 * BitAnd(x / 2, 1) + x % 2 && BitAnd(x, 6) == 2 * BitAnd(x / 2, 3)
  {
    assert BitAnd(x / 2, 0) == 0;
  }

  lemma CodeDigits(k: nat, a: nat, b: nat, c: nat)
    requires a < 2 && b < 2 && c < 2
    ensures var code := 8 * k + a + 2 * b + 4 * c;
            code / 8 == k && code % 2 == a && code / 2 % 2 == b && code / 2 / 2 % 2 == c
  {
    var code := 8 * k + a + 2 * b + 4 * c;
    var half := 4 * k + b + 2 * c;
    var quarter := 2 * k + c;
    assert code == 2 * half + a && half == 2 * quarter + b;
    assert code / 2 == half && half / 2 == quarter;
  }

  lemma CodeBits(k: nat, cb: bool, f: bool, g: bool)
    ensures var code := 8 * k + (if cb then 1 else 0) + (if f then 2 else 0) + (if g then 4 else 0);
            code / 8 == k && (BitAnd(code, 1) != 0 <==> cb) && (BitAnd(code, 2) != 0 <==> f) &&
            (BitAnd(code, 4) != 0 <==> g) && (BitAnd(code, 6) != 0 <==> f || g)
  {
    hide BitAnd;
    var code := 8 * k + (if cb then 1 else 0) + (if f then 2 else 0) + (if g then 4 else 0);
    CodeDigits(k, if cb then 1 else 0, if f then 1 else 0, if g then 1 else 0);
    AndLow(code);
    AndLow(code / 2);
    AndLow(code / 2 / 2);
  }

  // ---------------------------------------------------------------- the round trip

  /** What comes back: cleaned up, and with what a variable-length integer or a stored script cannot keep. */
  function Restored(c: Coin): Coin {
    Coin(c.fCoinBase, Stored(c.vout, 0, |Cleanup(c.vout)|), NonNegative(c.nHeight), NonNegative(c.nVersion))
  }

  function NonNegative(n: int): nat {
    if n >= 0 then n else n % 128
  }

  lemma MaskCodeBack(c: Coin)
    requires !c.IsPruned()
    ensures MaskCode(Code(c)) == Count(c.vout, 0, MaskSize(c.vout))
    ensures BitAnd(Code(c), 1) != 0 <==> c.fCoinBase
    ensures BitAnd(Code(c), 2) != 0 <==> Live(c.vout, 0)
    ensures BitAnd(Code(c), 4) != 0 <==> Live(c.vout, 1)
  {
    hide BitAnd, Count, LastUsed, Span;
    var f, g := Live(c.vout, 0), Live(c.vout, 1);
    SomethingLive(c);
    CodeBits(NonZero(c.vout) - (if f || g then 0 else 1), c.fCoinBase, f, g);
    CountTrim(c.vout, Span(c.vout));
  }

  lemma BodyBack(c: Coin, rest: seq<Item>)
    requires Storable(c)
    ensures ReadBody(Code(c), Mask(c.vout, 0, MaskSize(c.vout)) + (Outs(c, 0, |c.vout|) + rest)) ==
            Some((Stored(c.vout, 0, 2 + 8 * MaskSize(c.vout)), rest))
  {
    hide Mask, Outs, Count, ReadMask, ReadOuts, Flags, Stored, MaskCode, Code, BitAnd, LastUsed, Span;
    var n := MaskSize(c.vout);
    MaskCodeBack(c);
    ReadMaskBack(c.vout, 0, n, Outs(c, 0, |c.vout|) + rest);
    OutsToMask(c);
    ReadOutsBack(c, 0, 2 + 8 * n, rest);
    FlagsJoin(c.vout, 0, 2, 8 * n);
    assert Flags(c.vout, 0, 2) == [Live(c.vout, 0), Live(c.vout, 1)];
  }

  lemma CleanedUp(c: Coin)
    requires Storable(c)
    ensures Cleanup(Stored(c.vout, 0, 2 + 8 * MaskSize(c.vout))) == Stored(c.vout, 0, |Cleanup(c.vout)|)
  {
    hide MaskSize, Cleanup;
    var k, n := |Cleanup(c.vout)|, 2 + 8 * MaskSize(c.vout);
    var all := Stored(c.vout, 0, n);
    assert forall i | 0 <= i < n :: all[i].IsNull() == !Live(c.vout, i);
    if k > 0 {
      assert Cleanup(c.vout)[k - 1] == c.vout[k - 1];
      if k > n {
        BeyondMask(c.vout, k - 1);
        assert false;
      }
    }
    CleanupUnique(all, k);
    assert all[..k] == Stored(c.vout, 0, k);
  }

  /** Every stored record is read back, and what follows it in the stream is left. */
  lemma RoundTrip(c: Coin, rest: seq<Item>)
    requires Storable(c)
    ensures Unserialized(Serialized(c) + rest) == Some((Restored(c), rest))
  {
    hide VarInt, ReadVar, Mask, Outs, Stored, MaskSize, Cleanup, Code, BitAnd, ReadBody;
    var mask, outs, height := Mask(c.vout, 0, MaskSize(c.vout)), Outs(c, 0, |c.vout|), VarInt(c.nHeight);
    var body := mask + (outs + (height + rest));
    assert Serialized(c) + rest == VarInt(c.nVersion) + (VarInt(Code(c)) + body);
    ReadBack(c.nVersion, VarInt(Code(c)) + body);
    ReadBack(Code(c), body);
    MaskCodeBack(c);
    BodyBack(c, height + rest);
    ReadBack(c.nHeight, rest);
    CleanedUp(c);
  }

  ghost predicate ScriptsFit(vout: seq<TxOut>) {
    forall i | 0 <= i < |vout| && Live(vout, i) :: |vout[i].scriptPubKey| <= MAX_SCRIPT_SIZE
  }

  lemma CleanIsKept(c: Coin)
    requires c.Clean() && ScriptsFit(c.vout)
    ensures Stored(c.vout, 0, |Cleanup(c.vout)|) == c.vout
  {
    hide Cleanup;
    CleanupUnique(c.vout, |c.vout|);
    var back := Stored(c.vout, 0, |c.vout|);
    forall i | 0 <= i < |c.vout| ensures back[i] == c.vout[i] {
      assert Live(c.vout, i) || c.vout[i].IsNull();
    }
  }

  lemma KeptIsClean(c: Coin)
    requires Stored(c.vout, 0, |Cleanup(c.vout)|) == c.vout
    ensures c.Clean() && ScriptsFit(c.vout)
  {
    var back := Stored(c.vout, 0, |Cleanup(c.vout)|);
    assert Cleanup(c.vout) == c.vout;
    hide Cleanup, Stored;
    forall i | 0 <= i < |c.vout|
      ensures c.vout[i].IsNull() ==> c.vout[i] == NULL_OUT
      ensures Live(c.vout, i) ==> |c.vout[i].scriptPubKey| <= MAX_SCRIPT_SIZE
    {
      assert back[i] == StoredOut(c.vout, i);
    }
  }

  /** A record comes back as it was exactly when it is cleaned up, its height and version are not negative, and no
      live output has a script longer than the limit. */
  lemma RestoredExactly(c: Coin)
    requires Storable(c)
    ensures Restored(c) == c <==> c.Clean() && c.nHeight >= 0 && c.nVersion >= 0 && ScriptsFit(c.vout)
  {
    hide Cleanup, Stored, ScriptsFit;
    if c.Clean() && ScriptsFit(c.vout) {
      CleanIsKept(c);
    }
    if Restored(c) == c {
      KeptIsClean(c);
    }
  }

  /** A fact about the codec alone, since CheckTransaction refuses such transactions: a record with a negative version
      is stored, and comes back with another version. */
  lemma NegativeVersionChanges() returns (c: Coin)
    ensures c.nVersion < 0 && c.Clean() && Storable(c) && Restored(c) != c
    ensures Unserialized(Serialized(c)).Some? && Unserialized(Serialized(c)).value.0.nVersion != c.nVersion
  {
    c := Coin(false, [TxOut(1, [])], 1, -1);
    assert Cleanup(c.vout) == c.vout;
    assert Live(c.vout, 0);
    hide Restored, Serialized, Unserialized;
    RestoredExactly(c);
    RoundTrip(c, []);
    assert Serialized(c) + [] == Serialized(c);
    assert Restored(c).nVersion == NonNegative(-1) by {
      VersionBack(c);
    }
  }

  lemma VersionBack(c: Coin)
    ensures Restored(c).nVersion == NonNegative(c.nVersion)
  {
  }

  /** The outputs of a transaction with amounts in range are such a record from the start. */
  lemma FreshRecord(tx: Tx, height: nat)
    requires tx.nVersion >= 0 && (forall i | 0 <= i < |tx.vout| :: MoneyRange(tx.vout[i].nValue))
    requires !FromTx(tx, height).IsPruned()
    ensures Storable(FromTx(tx, height)) && Restored(FromTx(tx, height)) == FromTx(tx, height)
  {
    hide Restored, Cleanup, NullUnspendable;
    var c := FromTx(tx, height);
    forall i | 0 <= i < |c.vout| ensures c.vout[i] == NULL_OUT || (AmountOk(c.vout[i]) && |c.vout[i].scriptPubKey| <= MAX_SCRIPT_SIZE) {
      assert c.vout[i] == NullUnspendable(tx.vout)[i];
    }
    RestoredExactly(c);
  }
}
