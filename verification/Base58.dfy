/**
 * Base-58 text of byte vectors (src/base58.cpp): the in-place conversions with their fixed buffers, and the
 * two round trips.
 */
module Base58 {
  import opened Digits

  datatype Option<T> = None | Some(value: T)

  /** Letters and digits in ascending order, without "0", "I", "O" and "l". */
  function Alphabet(): string {
    "123456789" + "ABCDEFGH" + "JKLMN" + "PQRSTUVWXYZ" + "abcdefghijk" + "mnopqrstuvwxyz"
  }

  // ---------------------------------------------------------------- what the conversions compute

  function Zeros(n: nat): seq<nat> {
    if n == 0 then [] else [0] + Zeros(n - 1)
  }

  /** A digit vector in another base: the number is kept, and so is the count of leading zeros. */
  function Convert(d: seq<nat>, from: nat, to: nat): seq<nat>
    requires to >= 2
  {
    Zeros(|d| - |Strip(d)|) + DigitsOf(Value(d, from), to)
  }

  lemma {:induction false} StripShorter(d: seq<nat>)
    ensures |Strip(d)| <= |d| && d == Zeros(|d| - |Strip(d)|) + Strip(d)
  {
    if d != [] && d[0] == 0 {
      StripShorter(d[1..]);
      assert d == [0] + d[1..];
    }
  }

  lemma {:induction false} ZerosProper(n: nat, e: seq<nat>, base: nat)
    requires base > 0 && Proper(e, base) && (e != [] ==> e[0] != 0)
    ensures var d := Zeros(n) + e; Proper(d, base) && Strip(d) == e && |Zeros(n)| == n && Value(d, base) == Value(e, base)
  {
    var d := Zeros(n) + e;
    if n == 0 {
      assert d == e;
    } else {
      ZerosProper(n - 1, e, base);
      assert d[1..] == Zeros(n - 1) + e;
      ValueSkipsZero(d, base);
    }
  }

  /** Converting there and back returns the vector, whatever the two bases. */
  lemma ConvertBack(d: seq<nat>, from: nat, to: nat)
    requires from >= 2 && to >= 2 && Proper(d, from)
    ensures Convert(Convert(d, from, to), to, from) == d && Proper(Convert(d, from, to), to)
  {
    hide Value, DigitsOf, Strip;
    var n := Value(d, from);
    ValueOfDigits(n, to);
    EmptyDigits(to);
    StripShorter(d);
    ZerosProper(|d| - |Strip(d)|, DigitsOf(n, to), to);
    StripIsDigits(d, from);
  }

  lemma EmptyDigits(base: nat)
    requires base >= 2
    ensures DigitsOf(0, base) == []
  {
  }

  // ---------------------------------------------------------------- the alphabet

  function Find(a: string, c: char): (k: nat)
    ensures k <= |a| && (k < |a| ==> a[k] == c)
  {
    if a == [] then 0 else if a[0] == c then 0 else 1 + Find(a[1..], c)
  }

  ghost predicate Rising(a: string) {
    forall i | 0 < i < |a| :: a[i - 1] < a[i]
  }

  lemma {:induction false} RisingFrom(a: string, k: nat)
    requires 0 < k < |a| && Rising(a)
    ensures a[0] < a[k]
  {
    if k > 1 {
      RisingFrom(a, k - 1);
    }
  }

  lemma {:induction false} FindRising(a: string, k: nat)
    requires k < |a| && Rising(a)
    ensures Find(a, a[k]) == k
  {
    if k > 0 {
      RisingFrom(a, k);
      FindRising(a[1..], k - 1);
    }
  }

  /** A run of consecutive characters. */
  ghost predicate RunFrom(s: string, first: char) {
    forall i | 0 <= i < |s| :: s[i] as int == first as int + i
  }

  lemma Runs()
    ensures RunFrom("123456789", '1') && RunFrom("ABCDEFGH", 'A') && RunFrom("JKLMN", 'J')
    ensures RunFrom("PQRSTUVWXYZ", 'P') && RunFrom("abcdefghijk", 'a') && RunFrom("mnopqrstuvwxyz", 'm')
  {
  }

  lemma RunRises(s: string, first: char, last: char)
    requires RunFrom(s, first) && |s| > 0 && last as int == first as int + |s| - 1
    ensures Rising(s) && s[0] == first && s[|s| - 1] == last
  {
  }

  lemma JoinRises(s: string, t: string)
    requires Rising(s) && Rising(t) && |s| > 0 && |t| > 0 && s[|s| - 1] < t[0]
    ensures Rising(s + t) && (s + t)[0] == s[0] && (s + t)[|s + t| - 1] == t[|t| - 1]
  {
  }

  lemma AlphabetRises()
    ensures |Alphabet()| == 58 && Rising(Alphabet()) && Alphabet()[0] == '1'
  {
    Runs();
    AllRise("123456789", "ABCDEFGH", "JKLMN", "PQRSTUVWXYZ", "abcdefghijk", "mnopqrstuvwxyz");
  }

  lemma AllRise(a: string, b: string, c: string, d: string, e: string, f: string)
    requires RunFrom(a, '1') && RunFrom(b, 'A') && RunFrom(c, 'J') && RunFrom(d, 'P') && RunFrom(e, 'a') && RunFrom(f, 'm')
    requires |a| == 9 && |b| == 8 && |c| == 5 && |d| == 11 && |e| == 11 && |f| == 14
    ensures Rising(a + b + c + d + e + f) && (a + b + c + d + e + f)[0] == '1'
  {
    RunRises(a, '1', '9');
    RunRises(b, 'A', 'H');
    RunRises(c, 'J', 'N');
    RunRises(d, 'P', 'Z');
    RunRises(e, 'a', 'k');
    RunRises(f, 'm', 'z');
    hide Rising, RunFrom;
    JoinRises(a, b);
    JoinRises(a + b, c);
    JoinRises(a + b + c, d);
    JoinRises(a + b + c + d, e);
    JoinRises(a + b + c + d + e, f);
  }

  predicate IsSpace(c: char) {
    c == ' ' || '\t' <= c <= '\r'
  }

  function IndexOf(c: char): nat {
    Find(Alphabet(), c)
  }

  function CharOf(k: nat): (c: char)
    requires k < 58
    ensures IndexOf(c) == k && !IsSpace(c)
  {
    AlphabetRises();
    DigitOfChar(k);
    Alphabet()[k]
  }

  /** Every digit has its own character, and none of them is white space. */
  lemma DigitOfChar(k: nat)
    requires k < |Alphabet()|
    ensures IndexOf(Alphabet()[k]) == k && !IsSpace(Alphabet()[k])
  {
    AlphabetRises();
    var a := Alphabet();
    hide Alphabet;
    FindRising(a, k);
    if k > 0 {
      RisingFrom(a, k);
    }
  }

  lemma CharOfIndex(c: char)
    requires IndexOf(c) < 58
    ensures CharOf(IndexOf(c)) == c && !IsSpace(c)
  {
    AlphabetRises();
  }

  function Chars(d: seq<nat>): string
    requires Proper(d, 58)
  {
    if d == [] then [] else [CharOf(d[0])] + Chars(d[1..])
  }

  function Indices(s: string): seq<nat> {
    if s == [] then [] else [IndexOf(s[0])] + Indices(s[1..])
  }

  lemma {:induction false} IndicesOfChars(d: seq<nat>)
    requires Proper(d, 58)
    ensures Indices(Chars(d)) == d && NoSpaces(Chars(d))
  {
    hide IndexOf, IsSpace, CharOf;
    if d != [] {
      IndicesOfChars(d[1..]);
      assert Chars(d)[1..] == Chars(d[1..]);
    }
  }

  lemma {:induction false} CharsOfIndices(s: string)
    requires Proper(Indices(s), 58)
    ensures Chars(Indices(s)) == s && |Indices(s)| == |s|
  {
    hide IndexOf, CharOf;
    if s != [] {
      var d := Indices(s);
      assert d[0] == IndexOf(s[0]) && d[1..] == Indices(s[1..]);
      CharOfIndex(s[0]);
      CharsOfIndices(s[1..]);
    }
  }

  // ---------------------------------------------------------------- white space

  /** The first position from i on that is not white space. */
  function SkipSpaces(s: string, i: nat): (r: nat)
    requires i <= |s|
    ensures i <= r <= |s| && AllSpaces(s[i..r]) && (r < |s| ==> !IsSpace(s[r]))
    decreases |s| - i
  {
    if i < |s| && IsSpace(s[i]) then
      var r := SkipSpaces(s, i + 1);
      assert s[i..r] == [s[i]] + s[i + 1..r];
      r
    else i
  }

  /** The first position from i on that is white space. */
  function TokenEnd(s: string, i: nat): (r: nat)
    requires i <= |s|
    ensures i <= r <= |s| && NoSpaces(s[i..r]) && (r < |s| ==> IsSpace(s[r]))
    decreases |s| - i
  {
    if i < |s| && !IsSpace(s[i]) then
      var r := TokenEnd(s, i + 1);
      assert s[i..r] == [s[i]] + s[i + 1..r];
      r
    else i
  }

  ghost predicate AllSpaces(s: string) {
    forall i | 0 <= i < |s| :: IsSpace(s[i])
  }

  ghost predicate NoSpaces(s: string) {
    forall i | 0 <= i < |s| :: !IsSpace(s[i])
  }

  lemma {:induction false} SpacesEnd(s: string, i: nat, r: nat)
    requires i <= r <= |s| && AllSpaces(s[i..r]) && (r < |s| ==> !IsSpace(s[r]))
    ensures SkipSpaces(s, i) == r
    decreases r - i
  {
    hide IsSpace;
    if i < r {
      assert s[i] == s[i..r][0] && s[i + 1..r] == s[i..r][1..];
      SpacesEnd(s, i + 1, r);
    }
  }

  lemma {:induction false} TokenEnds(s: string, i: nat, r: nat)
    requires i <= r <= |s| && NoSpaces(s[i..r]) && (r < |s| ==> IsSpace(s[r]))
    ensures TokenEnd(s, i) == r
    decreases r - i
  {
    hide IsSpace;
    if i < r {
      assert s[i] == s[i..r][0] && s[i + 1..r] == s[i..r][1..];
      TokenEnds(s, i + 1, r);
    }
  }

  // ---------------------------------------------------------------- the two round trips

  function Encoded(v: seq<nat>): string
    requires Proper(v, 256)
  {
    ConvertBack(v, 256, 58);
    Chars(Convert(v, 256, 58))
  }

  function Decoded(s: string): Option<seq<nat>> {
    var i := SkipSpaces(s, 0);
    var j := TokenEnd(s, i);
    if InAlphabet(s[i..j]) && SkipSpaces(s, j) == |s| then Some(Convert(Indices(s[i..j]), 58, 256)) else None
  }

  predicate InAlphabet(s: string) {
    forall i | 0 <= i < |s| :: IndexOf(s[i]) < 58
  }

  lemma {:induction false} IndicesProper(s: string)
    ensures InAlphabet(s) <==> Proper(Indices(s), 58)
    ensures |Indices(s)| == |s|
  {
    hide IndexOf;
    if s != [] {
      IndicesProper(s[1..]);
      var d := Indices(s);
      assert d[0] == IndexOf(s[0]) && d[1..] == Indices(s[1..]);
      assert s == [s[0]] + s[1..] && d == [d[0]] + d[1..];
      assert forall i | 0 <= i < |s[1..]| :: s[1..][i] == s[i + 1];
      assert forall i | 0 <= i < |d[1..]| :: d[1..][i] == d[i + 1];
    }
  }

  /** Text that decodes is its bytes' own text between white space. */
  lemma Reencode(s: string) returns (lead: string, tail: string)
    requires Decoded(s).Some?
    ensures var v := Decoded(s).value;
            Proper(v, 256) && AllSpaces(lead) && AllSpaces(tail) && s == lead + Encoded(v) + tail
  {
    hide Convert, IndexOf, IsSpace, AllSpaces, NoSpaces;
    var i := SkipSpaces(s, 0);
    var j := TokenEnd(s, i);
    hide SkipSpaces, TokenEnd;
    var token := s[i..j];
    lead, tail := s[0..i], s[j..|s|];
    IndicesProper(token);
    CharsOfIndices(token);
    ConvertBack(Indices(token), 58, 256);
    assert s == lead + token + tail;
  }

  /** Decoding undoes encoding, with any white space around the text. */
  lemma RoundTrip(v: seq<nat>, lead: string, tail: string)
    requires Proper(v, 256) && AllSpaces(lead) && AllSpaces(tail)
    ensures Decoded(lead + Encoded(v) + tail) == Some(v)
  {
    hide Convert, IndexOf, IsSpace, SkipSpaces, TokenEnd;
    ConvertBack(v, 256, 58);
    var d := Convert(v, 256, 58);
    var text := Chars(d);
    IndicesOfChars(d);
    IndicesProper(text);
    var s := lead + text + tail;
    Placed(lead, text, tail);
    assert s[|lead|..|lead + text|] == text;
  }

  lemma Placed(lead: string, text: string, tail: string)
    requires AllSpaces(lead) && NoSpaces(text) && AllSpaces(tail)
    ensures var s := lead + text + tail;
            (text != [] ==> SkipSpaces(s, 0) == |lead| && TokenEnd(s, |lead|) == |lead + text|) &&
            (text == [] ==> SkipSpaces(s, 0) == |s| && TokenEnd(s, |s|) == |s|) &&
            SkipSpaces(s, |lead + text|) == |s|
  {
    hide IsSpace, SkipSpaces, TokenEnd;
    var s := lead + text + tail;
    var i, j := |lead|, |lead + text|;
    assert s[0..i] == lead && s[i..j] == text && s[j..|s|] == tail;
    SpacesEnd(s, j, |s|);
    if text != [] {
      assert s[i] == text[0];
      SpacesEnd(s, 0, i);
      assert j < |s| ==> s[j] == tail[0];
      TokenEnds(s, i, j);
    } else {
      assert s[0..|s|] == lead + tail;
      SpacesEnd(s, 0, |s|);
      TokenEnds(s, |s|, |s|);
    }
  }
}
