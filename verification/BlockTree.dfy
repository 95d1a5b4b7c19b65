/** The tree of block headers as a value: links, heights, skip pointers and ancestors. An entry is named
    by its block hash, which stands for the pointer to it. */
module BlockTree {
  import opened Powers

  type Id = nat

  datatype Link = Null | To(id: Id)

  datatype Node = Node(
    pprev: Link, pskip: Link, nHeight: nat, nChainWork: nat,
    nTx: nat, nChainTx: nat, failed: bool, haveData: bool, nSequenceId: nat)

  type Nodes = map<Id, Node>

  // ---------------------------------------------------------------- skip heights

  function InvertLowestOne(n: nat): (r: nat)
    ensures r <= n && (n > 0 ==> r < n)
  {
    if n == 0 then 0 else BitAnd(n, n - 1)
  }

  /** The place of the lowest one bit. */
  function LowestOne(n: nat): (k: nat)
    requires n > 0
    ensures n % Pow2(k) == 0 && (n / Pow2(k)) % 2 == 1
  {
    if n % 2 == 1 then 0
    else
      var k := LowestOne(n / 2);
      HalfDigit(n, k);
      k + 1
  }

  lemma HalfDigit(n: nat, k: nat)
    requires n % 2 == 0 && (n / 2) % Pow2(k) == 0
    ensures Pow2(k + 1) == 2 * Pow2(k) && n % Pow2(k + 1) == 0 && n / Pow2(k + 1) == n / 2 / Pow2(k)
  {
    var p, q := Pow2(k), n / 2 / Pow2(k);
    assert n / 2 == q * p;
    assert n == q * (2 * p);
    ModIs(n, 2 * p, q, 0);
  }

  /** InvertLowestOne takes exactly the lowest one bit away. */
  lemma {:induction false} LowestOneCleared(n: nat)
    requires n > 0
    ensures InvertLowestOne(n) == n - Pow2(LowestOne(n))
  {
    if n % 2 == 1 {
      AndBelowOdd(n / 2);
    } else {
      LowestOneCleared(n / 2);
      assert (n - 1) / 2 == n / 2 - 1;
    }
  }

  lemma {:induction false} AndBelowOdd(m: nat)
    ensures BitAnd(2 * m + 1, 2 * m) == 2 * m
  {
    if m > 0 {
      AndSelf(m);
    }
  }

  lemma {:induction false} AndSelf(m: nat)
    ensures BitAnd(m, m) == m
  {
    if m > 0 {
      AndSelf(m / 2);
    }
  }

  /** The height a skip pointer leads to: always strictly lower. */
  function SkipHeight(height: nat): (r: nat)
    ensures height > 0 ==> r < height
  {
    if height < 2 then 0
    else if BitAnd(height, 1) != 0 then InvertLowestOne(InvertLowestOne(height - 1)) + 1
    else InvertLowestOne(height)
  }

  // ---------------------------------------------------------------- ancestors

  ghost predicate NodeLinked(t: Nodes, x: Id)
    requires x in t
  {
    match t[x].pprev
    case Null => t[x].nHeight == 0
    case To(p) => p in t && t[x].nHeight == t[p].nHeight + 1
  }

  /** Parents exist one level below. */
  ghost predicate Linked(t: Nodes) {
    forall x {:trigger NodeLinked(t, x)} | x in t :: NodeLinked(t, x)
  }

  /** The ancestor at a height, found by following parents. */
  ghost function Ancestor(t: Nodes, x: Id, height: nat): (r: Id)
    requires Linked(t) && x in t && height <= t[x].nHeight
    ensures r in t && t[r].nHeight == height
    decreases t[x].nHeight
  {
    assert NodeLinked(t, x);
    if t[x].nHeight == height then x else Ancestor(t, t[x].pprev.id, height)
  }

  lemma {:induction false} AncestorOf(t: Nodes, x: Id, mid: nat, height: nat)
    requires Linked(t) && x in t && height <= mid <= t[x].nHeight
    ensures Ancestor(t, Ancestor(t, x, mid), height) == Ancestor(t, x, height)
    decreases t[x].nHeight
  {
    assert NodeLinked(t, x);
    if t[x].nHeight != mid {
      AncestorOf(t, t[x].pprev.id, mid, height);
    }
  }

  /** An entry with a parent skips to the ancestor at its skip height. */
  ghost predicate SkipsOk(t: Nodes)
    requires Linked(t)
  {
    forall x | x in t :: SkipOk(t, x)
  }

  ghost predicate SkipOk(t: Nodes, x: Id)
    requires Linked(t) && x in t
  {
    assert NodeLinked(t, x);
    match t[x].pprev
    case Null => t[x].pskip == Null
    case To(p) => t[x].pskip == To(Ancestor(t, p, SkipHeight(t[x].nHeight)))
  }

  ghost predicate TreeOk(t: Nodes) {
    Linked(t) && SkipsOk(t)
  }

  lemma ParentHeight(t: Nodes, x: Id)
    requires Linked(t) && x in t && t[x].nHeight > 0
    ensures t[x].pprev.To? && t[x].pprev.id in t && t[t[x].pprev.id].nHeight == t[x].nHeight - 1
  {
    assert NodeLinked(t, x);
  }

  lemma SkipIsAncestor(t: Nodes, x: Id)
    requires TreeOk(t) && x in t && t[x].pskip.To?
    ensures t[x].nHeight > 0 && SkipHeight(t[x].nHeight) < t[x].nHeight
    ensures t[x].pskip.id == Ancestor(t, x, SkipHeight(t[x].nHeight))
  {
    assert NodeLinked(t, x) && SkipOk(t, x);
  }

  /** GetAncestor: jumping along skip pointers finds what the walk along parents finds. */
  method GetAncestor(t: Nodes, x: Id, height: int) returns (r: Link)
    requires TreeOk(t) && x in t
    ensures r == if 0 <= height <= t[x].nHeight then To(Ancestor(t, x, height)) else Null
  {
    hide SkipHeight, SkipsOk, Linked;
    if height > t[x].nHeight || height < 0 {
      return Null;
    }
    var walk, heightWalk := x, t[x].nHeight;
    while heightWalk > height
      invariant walk in t && t[walk].nHeight == heightWalk && height <= heightWalk <= t[x].nHeight
      invariant Ancestor(t, walk, height) == Ancestor(t, x, height)
    {
      var heightSkip := SkipHeight(heightWalk);
      var heightSkipPrev := SkipHeight(heightWalk - 1);
      ParentHeight(t, walk);
      if t[walk].pskip.To? &&
         (heightSkip == height || (heightSkip > height && !(heightSkipPrev < heightSkip - 2 && heightSkipPrev >= height))) {
        SkipIsAncestor(t, walk);
        AncestorOf(t, walk, heightSkip, height);
        walk, heightWalk := t[walk].pskip.id, heightSkip;
      } else {
        walk, heightWalk := t[walk].pprev.id, heightWalk - 1;
      }
    }
    return To(walk);
  }

  // ---------------------------------------------------------------- growing the tree

  /** An entry added under an existing parent, or as a root. */
  ghost predicate Grown(t: Nodes, t': Nodes, x: Id) {
    && x !in t && x in t' && (forall y :: y in t' <==> y in t || y == x)
    && (forall y | y in t :: t'[y] == t[y])
    && match t'[x].pprev
       case Null => t'[x].nHeight == 0
       case To(p) => p in t && t'[x].nHeight == t[p].nHeight + 1
  }

  /** Entries that keep their links and heights. */
  ghost predicate SameShape(t: Nodes, t': Nodes) {
    && (forall y | y in t :: y in t' && t'[y].pprev == t[y].pprev && t'[y].nHeight == t[y].nHeight && t'[y].pskip == t[y].pskip)
  }

  lemma {:induction false} AncestorStays(t: Nodes, t': Nodes, x: Id, height: nat)
    requires Linked(t) && Linked(t') && SameShape(t, t') && x in t && height <= t[x].nHeight
    ensures Ancestor(t', x, height) == Ancestor(t, x, height)
    decreases t[x].nHeight
  {
    assert NodeLinked(t, x);
    if t[x].nHeight != height {
      AncestorStays(t, t', t[x].pprev.id, height);
    }
  }

  lemma GrownOk(t: Nodes, t': Nodes, x: Id)
    requires TreeOk(t) && Grown(t, t', x)
    requires t'[x].pprev.Null? ==> t'[x].pskip == Null
    requires t'[x].pprev.To? ==> t'[x].pskip == To(Ancestor(t, t'[x].pprev.id, SkipHeight(t'[x].nHeight)))
    ensures TreeOk(t')
  {
    hide SkipHeight;
    forall y | y in t' ensures NodeLinked(t', y) {
      assert y != x ==> NodeLinked(t, y);
    }
    forall y | y in t' ensures SkipOk(t', y) {
      assert NodeLinked(t', y) && (y != x ==> NodeLinked(t, y) && SkipOk(t, y));
      if t'[y].pprev.To? {
        AncestorStays(t, t', t'[y].pprev.id, SkipHeight(t'[y].nHeight));
      }
    }
  }

  lemma ReshapedLinked(t: Nodes, t': Nodes)
    requires Linked(t) && SameShape(t, t') && forall y | y in t' :: y in t
    ensures Linked(t')
  {
    forall y | y in t' ensures NodeLinked(t', y) {
      assert NodeLinked(t, y);
    }
  }

  lemma ReshapedOk(t: Nodes, t': Nodes)
    requires TreeOk(t) && SameShape(t, t') && forall y | y in t' :: y in t
    ensures TreeOk(t')
  {
    hide SkipHeight;
    ReshapedLinked(t, t');
    forall y | y in t' ensures SkipOk(t', y) {
      assert NodeLinked(t, y) && SkipOk(t, y);
      if t'[y].pprev.To? {
        AncestorStays(t, t', t'[y].pprev.id, SkipHeight(t'[y].nHeight));
      }
    }
  }
}
