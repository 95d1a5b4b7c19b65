/** The conversions of src/base58.cpp, in place on digit buffers whose size is fixed before the first digit. */
module Base58Codec {
  import opened Powers
  import opened Digits
  import opened BufferRoom
  import opened Base58

  // ---------------------------------------------------------------- small facts

  /** What fits below the buffer's limit leaves no carry. */
  lemma NoCarry(value: nat, carry: nat, limit: nat, total: nat)
    requires value + carry * limit == total < limit
    ensures carry == 0
  {
    if carry > 0 {
      MulUpTo(1, limit, carry, limit);
    }
  }

  lemma {:induction false} ZeroValue(d: seq<nat>, base: nat)
    requires forall i | 0 <= i < |d| :: d[i] == 0
    ensures Value(d, base) == 0
  {
    if d != [] {
      ZeroValue(d[..|d| - 1], base);
    }
  }

  lemma {:induction false} StripValue(d: seq<nat>, base: nat)
    ensures Value(Strip(d), base) == Value(d, base)
  {
    if d != [] && d[0] == 0 {
      StripValue(d[1..], base);
      ValueSkipsZero(d, base);
    }
  }

  lemma {:induction false} CharsAppend(d: seq<nat>, k: nat)
    requires Proper(d, 58) && k < 58
    ensures Chars(d + [k]) == Chars(d) + [CharOf(k)]
  {
    hide CharOf;
    if d == [] {
      assert d + [k] == [k];
    } else {
      CharsAppend(d[1..], k);
      assert (d + [k])[1..] == d[1..] + [k];
    }
  }

  lemma {:induction false} IndicesAppend(s: string, c: char)
    ensures Indices(s + [c]) == Indices(s) + [IndexOf(c)]
  {
    hide IndexOf;
    if s == [] {
      assert s + [c] == [c];
    } else {
      IndicesAppend(s[1..], c);
      assert (s + [c])[1..] == s[1..] + [c];
    }
  }

  lemma OneIsZero(c: char)
    ensures IndexOf(c) == 0 <==> c == '1'
  {
    AlphabetRises();
    var a := Alphabet();
    hide Alphabet;
  }

  lemma {:induction false} OnesAreZeros(s: string, i: nat, q: nat, j: nat)
    requires i <= q <= j <= |s| && (forall k | i <= k < q :: s[k] == '1') && (q < j ==> s[q] != '1')
    ensures Strip(Indices(s[i..j])) == Indices(s[q..j])
    decreases q - i
  {
    hide IndexOf;
    if i < j {
      assert s[i..j][1..] == s[i + 1..j];
      OneIsZero(s[i]);
      if i < q {
        OnesAreZeros(s, i + 1, q, j);
      }
    }
  }

  // ---------------------------------------------------------------- loops both directions share

  /** Skips the leading zeros of a buffer. */
  method SkipZeros(b: array<nat>) returns (it: nat)
    ensures it <= b.Length && b[it..] == Strip(b[..])
  {
    it := 0;
    while it < b.Length && b[it] == 0
      invariant it <= b.Length && Strip(b[it..]) == Strip(b[..])
    {
      assert b[it..][1..] == b[it + 1..];
      it := it + 1;
    }
  }

  method ZeroBuffer(n: nat, ghost base: nat) returns (b: array<nat>)
    requires base > 0
    ensures fresh(b) && b.Length == n && Proper(b[..], base) && Value(b[..], base) == 0
  {
    b := new nat[n](_ => 0);
    ZeroValue(b[..], base);
  }

  /** One digit more: the carry that the buffer cannot hold is zero whenever the number fits. */
  method Apply(b: array<nat>, base: nat, mult: nat, digit: nat, ghost next: nat)
    requires base > 0 && Proper(b[..], base)
    requires next == mult * Value(b[..], base) + digit < Pow(base, b.Length)
    modifies b
    ensures Proper(b[..], base) && Value(b[..], base) == next
  {
    hide Pow, Value;
    var carry := MulAdd(b, base, mult, digit);
    NoCarry(Value(b[..], base), carry, Pow(base, b.Length), next);
    assert carry == 0;
  }

  // ---------------------------------------------------------------- encoding

  /** Converts bytes to base-58 digits in a buffer of length * 138 / 100 + 1: no carry is ever left over. */
  method DigitsOfBytes(v: seq<nat>) returns (b: array<nat>)
    requires Proper(v, 256)
    ensures fresh(b) && Proper(b[..], 58) && Value(b[..], 58) == Value(v, 256)
  {
    hide Pow, Value;
    b := ZeroBuffer(|v| * 138 / 100 + 1, 58);
    EmptyValue(256);
    assert v[..0] == [];
    for k := 0 to |v|
      invariant Proper(b[..], 58) && Value(b[..], 58) == Value(v[..k], 256)
    {
      NextByte(v, k);
      Apply(b, 58, 256, v[k], Value(v[..k + 1], 256));
    }
    assert v[..|v|] == v;
  }

  lemma NextByte(v: seq<nat>, k: nat)
    requires k < |v| && Proper(v, 256)
    ensures var next := Value(v[..k + 1], 256);
            next == 256 * Value(v[..k], 256) + v[k] && next < Pow(58, |v| * 138 / 100 + 1)
  {
    hide Pow;
    assert v[..k + 1][..k] == v[..k];
    ValueBound(v[..k + 1], 256);
    PowMono(256, k + 1, |v|);
    RoomToEncode(|v|);
  }

  lemma EmptyValue(base: nat)
    ensures Value([], base) == 0
  {
  }

  /** A run of the character that stands for zero. */
  function Ones(n: nat): (s: string)
    ensures Proper(Zeros(n), 58) && s == Chars(Zeros(n))
  {
    if n == 0 then [] else OneIsZero('1'); ['1'] + Ones(n - 1)
  }

  lemma {:induction false} ZerosLength(n: nat)
    ensures |Zeros(n)| == n
  {
    if n > 0 {
      ZerosLength(n - 1);
    }
  }

  /** Writes a character for each leading zero and each digit from a position on. */
  method Translate(zeroes: nat, b: array<nat>, from: nat) returns (str: string)
    requires from <= b.Length && Proper(b[..], 58)
    ensures Proper(Zeros(zeroes) + b[from..], 58) && str == Chars(Zeros(zeroes) + b[from..])
  {
    hide CharOf;
    str := Ones(zeroes);
    assert Zeros(zeroes) + b[from..from] == Zeros(zeroes);
    hide Ones, Zeros, Chars;
    for it := from to b.Length
      invariant Proper(Zeros(zeroes) + b[from..it], 58) && str == Chars(Zeros(zeroes) + b[from..it])
    {
      ghost var done := Zeros(zeroes) + b[from..it];
      var k := b[it];
      assert k == b[..][it];
      CharsAppend(done, k);
      str := str + [CharOf(k)];
      assert Zeros(zeroes) + b[from..it + 1] == done + [k];
    }
    assert b[from..b.Length] == b[from..];
  }

  method EncodeBase58(v: seq<nat>) returns (str: string)
    requires Proper(v, 256)
    ensures str == Encoded(v)
  {
    hide Value, DigitsOf, Pow, CharOf, Zeros, Chars;
    var zeroes := 0;
    while zeroes < |v| && v[zeroes] == 0
      invariant zeroes <= |v| && Strip(v[zeroes..]) == Strip(v)
    {
      assert v[zeroes..][1..] == v[zeroes + 1..];
      zeroes := zeroes + 1;
    }
    assert Strip(v) == v[zeroes..];
    hide Strip;
    StripValue(v, 256);
    var b := DigitsOfBytes(v[zeroes..]);
    var it := SkipZeros(b);
    StripIsDigits(b[..], 58);
    str := Translate(zeroes, b, it);
  }

  // ---------------------------------------------------------------- decoding

  /** Converts the characters up to the next white space in a buffer of length * 733 / 1000 + 1, and stops at
      one that is not in the alphabet. No carry is ever left over. */
  method BytesOfToken(s: string, q: nat) returns (b: array<nat>, j: nat, ok: bool)
    requires q <= |s|
    ensures fresh(b) && q <= j <= |s| && NoSpaces(s[q..j]) && InAlphabet(s[q..j])
    ensures ok ==> (j < |s| ==> IsSpace(s[j])) && Proper(b[..], 256) && Value(b[..], 256) == Value(Indices(s[q..j]), 58)
    ensures !ok ==> j < |s| && !IsSpace(s[j]) && IndexOf(s[j]) == 58
  {
    hide Pow, Value, IndexOf, IsSpace, Indices;
    b := ZeroBuffer((|s| - q) * 733 / 1000 + 1, 256);
    NoChars(s, q);
    j := q;
    while j < |s| && !IsSpace(s[j])
      invariant q <= j <= |s| && NoSpaces(s[q..j]) && InAlphabet(s[q..j])
      invariant Proper(b[..], 256) && Value(b[..], 256) == Value(Indices(s[q..j]), 58)
    {
      var ch := IndexOf(s[j]);
      if ch == 58 {
        return b, j, false;
      }
      assert s[q..j + 1] == s[q..j] + [s[j]];
      IndexBound(s[j]);
      NextChar(s, q, j);
      Apply(b, 256, 58, ch, Value(Indices(s[q..j + 1]), 58));
      j := j + 1;
    }
    ok := true;
  }

  lemma NoChars(s: string, q: nat)
    requires q <= |s|
    ensures s[q..q] == [] && Value(Indices(s[q..q]), 58) == 0
  {
    assert s[q..q] == [];
  }

  lemma IndexBound(c: char)
    ensures IndexOf(c) <= 58
  {
    AlphabetRises();
  }

  lemma NextChar(s: string, q: nat, j: nat)
    requires q <= j < |s| && InAlphabet(s[q..j + 1])
    ensures var next := Value(Indices(s[q..j + 1]), 58);
            next == 58 * Value(Indices(s[q..j]), 58) + IndexOf(s[j]) && next < Pow(256, (|s| - q) * 733 / 1000 + 1)
  {
    hide IndexOf, Pow;
    var d := Indices(s[q..j + 1]);
    assert s[q..j + 1] == s[q..j] + [s[j]];
    IndicesAppend(s[q..j], s[j]);
    IndicesProper(s[q..j + 1]);
    ValueBound(d, 58);
    PowMono(58, j + 1 - q, |s| - q);
    RoomToDecode(|s| - q);
    assert d[..|d| - 1] == Indices(s[q..j]);
  }

  method DecodeBase58(psz: string) returns (r: Option<seq<nat>>)
    ensures r == Decoded(psz)
  {
    hide Value, DigitsOf, Pow, IndexOf, IsSpace, Strip, Indices, SkipSpaces, TokenEnd, Zeros;
    var i := 0;
    while i < |psz| && IsSpace(psz[i])
      invariant i <= |psz| && AllSpaces(psz[0..i])
    {
      assert psz[0..i + 1] == psz[0..i] + [psz[i]];
      i := i + 1;
    }
    SpacesEnd(psz, 0, i);
    var q := i;
    while q < |psz| && psz[q] == '1'
      invariant i <= q <= |psz| && forall k | i <= k < q :: psz[k] == '1'
    {
      q := q + 1;
    }
    var b, j, ok := BytesOfToken(psz, q);
    TokenFound(psz, i, q, j);
    if !ok {
      BadChar(psz, i, j);
      return None;
    }
    var e := j;
    while e < |psz| && IsSpace(psz[e])
      invariant j <= e <= |psz| && AllSpaces(psz[j..e])
    {
      assert psz[j..e + 1] == psz[j..e] + [psz[e]];
      e := e + 1;
    }
    SpacesEnd(psz, j, e);
    TokenEnds(psz, i, j);
    if e != |psz| {
      return None;
    }
    var it := SkipZeros(b);
    StripIsDigits(b[..], 256);
    OnesAreZeros(psz, i, q, j);
    StripValue(Indices(psz[i..j]), 58);
    IndicesProper(psz[i..j]);
    IndicesProper(psz[q..j]);
    r := Some(Zeros(q - i) + b[it..]);
  }

  lemma TokenFound(s: string, i: nat, q: nat, j: nat)
    requires i <= q <= j <= |s| && (forall k | i <= k < q :: s[k] == '1') && NoSpaces(s[q..j]) && InAlphabet(s[q..j])
    ensures NoSpaces(s[i..j]) && InAlphabet(s[i..j])
  {
    OneIsZero('1');
    hide IndexOf;
    assert s[i..j] == s[i..q] + s[q..j];
  }

  lemma BadChar(s: string, i: nat, j: nat)
    requires i <= j < |s| && NoSpaces(s[i..j]) && !IsSpace(s[j]) && IndexOf(s[j]) == 58
    ensures !InAlphabet(s[i..TokenEnd(s, i)])
  {
    hide IndexOf, IsSpace;
    var e := TokenEnd(s, i);
    TokenReaches(s, i, j);
    assert s[i..e][j - i] == s[j];
  }

  lemma {:induction false} TokenReaches(s: string, i: nat, j: nat)
    requires i <= j < |s| && NoSpaces(s[i..j]) && !IsSpace(s[j])
    ensures j < TokenEnd(s, i)
    decreases j - i
  {
    hide IsSpace;
    if i < j {
      assert s[i] == s[i..j][0] && s[i + 1..j] == s[i..j][1..];
      TokenReaches(s, i + 1, j);
    }
  }
}
