/** Variable-length integers (src/serialize.h) on a stream of bytes. A script is one item of the stream. */
module VarInts {
  import opened Powers
  import opened Primitives

  datatype Item = Octet(b: Byte) | Field(s: Script)

  /** The bytes before the last, each with the continuation flag. */
  function Lead(m: nat): seq<Item> {
    if m < 128 then [Octet(m + 128)] else Lead(m / 128 - 1) + [Octet(m % 128 + 128)]
  }

  /** The bytes of a number. Of a negative one only the low seven bits are kept. */
  function VarInt(n: int): seq<Item> {
    if n < 128 then [Octet(n % 128)] else Lead(n / 128 - 1) + [Octet(n % 128)]
  }

  /** Reads on, with what the bytes so far amount to. */
  function ReadVar(s: seq<Item>, n: nat): Option<(nat, seq<Item>)> {
    if s == [] || s[0].Field? then None
    else
      var next := n * 128 + s[0].b % 128;
      if s[0].b >= 128 then ReadVar(s[1..], next + 1) else Some((next, s[1..]))
  }

  lemma {:induction false} ReadLead(m: nat, rest: seq<Item>)
    ensures ReadVar(Lead(m) + rest, 0) == ReadVar(rest, m + 1)
  {
    if m >= 128 {
      var last := [Octet(m % 128 + 128)];
      ReadLead(m / 128 - 1, last + rest);
      assert Lead(m) + rest == Lead(m / 128 - 1) + (last + rest);
      assert (last + rest)[1..] == rest;
    } else {
      assert (Lead(m) + rest)[1..] == rest;
    }
  }

  /** Reading undoes writing, and leaves what follows; but a negative number does not come back. */
  lemma ReadBack(n: int, rest: seq<Item>)
    ensures ReadVar(VarInt(n) + rest, 0) == Some((if n >= 0 then n else n % 128, rest))
  {
    var last := [Octet(n % 128)];
    assert (last + rest)[1..] == rest;
    if n >= 128 {
      ReadLead(n / 128 - 1, last + rest);
      assert VarInt(n) + rest == Lead(n / 128 - 1) + (last + rest);
    }
  }

  function Before(n: nat): seq<Item> {
    if n == 0 then [] else Lead(n - 1)
  }

  lemma OneMore(n: nat, x: nat)
    requires x < 128
    ensures Lead(n * 128 + x) == Before(n) + [Octet(x + 128)] && VarInt(n * 128 + x) == Before(n) + [Octet(x)]
  {
    assert (n * 128 + x) / 128 == n && (n * 128 + x) % 128 == x;
  }

  /** Every number has one form only: what is read is what would be written. */
  lemma {:induction false} WrittenAs(s: seq<Item>, n: nat)
    requires ReadVar(s, n).Some?
    ensures var (m, rest) := ReadVar(s, n).value; Before(n) + s == VarInt(m) + rest
    decreases s
  {
    hide Lead, VarInt;
    var x := s[0].b % 128;
    OneMore(n, x);
    assert Before(n) + s == Before(n) + [s[0]] + s[1..];
    if s[0].b >= 128 {
      WrittenAs(s[1..], n * 128 + x + 1);
    }
  }

  function Reversed(t: seq<Item>): seq<Item> {
    if t == [] then [] else [t[|t| - 1]] + Reversed(t[..|t| - 1])
  }

  lemma ReversedLast(t: seq<Item>, x: Item)
    ensures Reversed(t + [x]) == [x] + Reversed(t)
  {
    assert (t + [x])[..|t|] == t;
  }

  /** One group of seven bits, flagged unless it is the last of the number. */
  function Group(m: int, flagged: bool): Item {
    Octet(m % 128 + (if flagged then 128 else 0))
  }

  function Form(m: int, flagged: bool): seq<Item>
    requires flagged ==> m >= 0
  {
    if flagged then Lead(m) else VarInt(m)
  }

  lemma FormSplit(m: int, flagged: bool)
    requires flagged ==> m >= 0
    ensures Form(m, flagged) == if m < 128 then [Group(m, flagged)] else Form(m / 128 - 1, true) + [Group(m, flagged)]
  {
  }

  lemma GroupFits(m: nat, width: nat)
    requires 128 <= m < Pow2(width)
    ensures width > 7 && m / 128 - 1 < Pow2(width - 7)
  {
    Pow2Values();
    if width <= 7 {
      Pow2Mono(width, 7);
      assert false;
    }
    Pow2Add(7, width - 7);
    DivLess(m, 128, Pow2(width - 7));
  }

  /** Writes a number of a type of the given width. The low groups go into a scratch array whose size is fixed
      by the width, and are written out in reverse. */
  method WriteVarInt(s: seq<Item>, n: int, bits: nat) returns (r: seq<Item>)
    requires bits > 0 && n < Pow2(bits)
    ensures r == s + VarInt(n)
  {
    hide Pow2, Form, Group, VarInt, Lead, Reversed;
    FormStart(n);
    var tmp := new Item[(bits + 6) / 7](_ => Octet(0));
    var len, m := 0, n;
    assert tmp[..0] == [];
    FormSplit(n, false);
    tmp[0] := Group(m, false);
    while m >= 128
      invariant 0 <= 7 * len < bits && m < Pow2(bits - 7 * len) && (len > 0 ==> m >= 0)
      invariant tmp[len] == Group(m, len > 0)
      invariant VarInt(n) == Form(m, len > 0) + Reversed(tmp[..len])
      decreases m
    {
      GroupFits(m, bits - 7 * len);
      FormSplit(m, len > 0);
      ReversedLast(tmp[..len], tmp[len]);
      assert tmp[..len] + [tmp[len]] == tmp[..len + 1];
      NextGroup(VarInt(n), Form(m, len > 0), Form(m / 128 - 1, true), tmp[len], Reversed(tmp[..len]));
      m := m / 128 - 1;
      len := len + 1;
      ghost var done := tmp[..len];
      tmp[len] := Group(m, true);
      assert tmp[..len] == done;
    }
    FormSplit(m, len > 0);
    ReversedLast(tmp[..len], tmp[len]);
    assert tmp[..len] + [tmp[len]] == tmp[..len + 1];
    r := WriteReversed(s, tmp, len);
  }

  lemma FormStart(n: int)
    ensures Form(n, false) == VarInt(n) && Reversed([]) == [] && VarInt(n) + [] == VarInt(n)
  {
  }

  lemma NextGroup(all: seq<Item>, form: seq<Item>, shorter: seq<Item>, x: Item, back: seq<Item>)
    requires all == form + back && form == shorter + [x]
    ensures all == shorter + ([x] + back)
  {
  }

  method WriteReversed(s: seq<Item>, tmp: array<Item>, len: nat) returns (r: seq<Item>)
    requires len < tmp.Length
    ensures r == s + Reversed(tmp[..len + 1])
  {
    r := s;
    for k := len + 1 downto 0
      invariant r + Reversed(tmp[..k]) == s + Reversed(tmp[..len + 1])
    {
      assert tmp[..k + 1] == tmp[..k] + [tmp[k]];
      ReversedLast(tmp[..k], tmp[k]);
      r := r + [tmp[k]];
    }
  }

  /** What a type of the given width keeps of a number. */
  function Kept(r: Option<(nat, seq<Item>)>, bits: nat): Option<(nat, seq<Item>)> {
    match r
    case None => None
    case Some((n, rest)) => Some((n % Pow2(bits), rest))
  }

  lemma WrapStep(n: nat, m: nat, p: nat, x: nat)
    requires p > 0 && m == n % p
    ensures (m * 128 + x) % p == (n * 128 + x) % p
  {
    var q := n / p;
    assert n == q * p + m;
    assert n * 128 + x == (q * 128) * p + (m * 128 + x);
    var k, r := (m * 128 + x) / p, (m * 128 + x) % p;
    assert (q * 128 + k) * p == (q * 128) * p + k * p;
    ModIs(n * 128 + x, p, q * 128 + k, r);
  }

  /** Reads a number into an unsigned type of the given width: each step wraps around, and so the result is the
      number read without limit, wrapped around once. */
  method ReadVarIntInto(s: seq<Item>, bits: nat) returns (r: Option<(nat, seq<Item>)>)
    ensures r == Kept(ReadVar(s, 0), bits)
    ensures ReadVar(s, 0).Some? && ReadVar(s, 0).value.0 < Pow2(bits) ==> r == ReadVar(s, 0)
  {
    hide Pow2;
    ghost var full: nat := 0;
    var n: nat, i := 0 % Pow2(bits), 0;
    while i < |s| && s[i].Octet?
      invariant 0 <= i <= |s| && ReadVar(s[i..], full) == ReadVar(s, 0) && n == full % Pow2(bits)
    {
      var ch: nat := s[i].b;
      WrapStep(full, n, Pow2(bits), ch % 128);
      WrapStep(full, n, Pow2(bits), ch % 128 + 1);
      WrapOne(n * 128 + ch % 128, Pow2(bits));
      n := (n * 128 + ch % 128) % Pow2(bits);
      full := full * 128 + ch % 128;
      assert s[i..][1..] == s[i + 1..];
      i := i + 1;
      if ch >= 128 {
        n := (n + 1) % Pow2(bits);
        full := full + 1;
      } else {
        r := Some((n, s[i..]));
        if full < Pow2(bits) {
          ModIs(full, Pow2(bits), 0, full);
        }
        return;
      }
    }
    r := None;
  }

  lemma WrapOne(n: nat, p: nat)
    requires p > 0
    ensures (n % p + 1) % p == (n + 1) % p
  {
    var q, m := n / p, n % p;
    var k, r := (m + 1) / p, (m + 1) % p;
    assert n + 1 == q * p + (m + 1);
    assert (q + k) * p == q * p + k * p;
    ModIs(n + 1, p, q + k, r);
  }

  method ReadVarInt(s: seq<Item>) returns (r: Option<(nat, seq<Item>)>)
    ensures r == ReadVar(s, 0)
  {
    var n: nat := 0;
    var i := 0;
    while i < |s| && s[i].Octet?
      invariant 0 <= i <= |s| && ReadVar(s[i..], n) == ReadVar(s, 0)
    {
      var ch: nat := s[i].b;
      n := n * 128 + ch % 128;
      assert s[i..][1..] == s[i + 1..];
      i := i + 1;
      if ch >= 128 {
        n := n + 1;
      } else {
        return Some((n, s[i..]));
      }
    }
    r := None;
  }
}
