/** The in-memory vector of a chain's blocks: moving its tip, finding forks, building locators. */
module ActiveChain {
  import opened Powers
  import opened BlockTree

  /** A vector whose slot i holds the block at height i, each the parent of the next. */
  ghost predicate ChainOk(t: Nodes, v: seq<Link>)
    requires Linked(t)
  {
    && (forall i | 0 <= i < |v| :: v[i].To? && v[i].id in t && t[v[i].id].nHeight == i)
    && (forall i | 0 < i < |v| :: t[v[i].id].pprev == v[i - 1])
  }

  /** In a chain the slot below a block holds its ancestor. */
  lemma {:induction false} SlotIsAncestor(t: Nodes, v: seq<Link>, i: nat, k: nat)
    requires Linked(t) && ChainOk(t, v) && k <= i < |v|
    ensures Ancestor(t, v[i].id, k) == v[k].id
  {
    if k < i {
      SlotIsAncestor(t, v, i - 1, k);
    }
  }

  predicate Contains(t: Nodes, v: seq<Link>, x: Id)
    requires x in t
  {
    t[x].nHeight < |v| && v[t[x].nHeight] == To(x)
  }

  /** x is the block itself or one of its ancestors. */
  ghost predicate IsAncestor(t: Nodes, a: Id, x: Id)
    requires Linked(t) && x in t
  {
    a in t && t[a].nHeight <= t[x].nHeight && Ancestor(t, x, t[a].nHeight) == a
  }

  class Chain {
    var vChain: seq<Link>

    constructor ()
      ensures vChain == []
    {
      vChain := [];
    }

    /** SetTip: the vector becomes the path to the new tip, although the loop stops at the first slot
        that is right already. */
    method SetTip(t: Nodes, tip: Link)
      requires Linked(t) && ChainOk(t, vChain) && (tip.To? ==> tip.id in t)
      modifies this
      ensures ChainOk(t, vChain)
      ensures tip.Null? ==> vChain == []
      ensures tip.To? ==> |vChain| == t[tip.id].nHeight + 1 && forall i | 0 <= i < |vChain| :: vChain[i] == To(Ancestor(t, tip.id, i))
    {
      if tip.Null? {
        vChain := [];
        return;
      }
      var n := t[tip.id].nHeight + 1;
      vChain := if n <= |vChain| then vChain[..n] else vChain + seq(n - |vChain|, _ => Null);
      ghost var was := vChain;
      var walk := tip;
      while walk.To? && vChain[t[walk.id].nHeight] != walk
        invariant |vChain| == n
        invariant walk.To? ==> walk.id in t && t[walk.id].nHeight < n && walk.id == Ancestor(t, tip.id, t[walk.id].nHeight)
        invariant forall i | 0 <= i < n :: (if walk.Null? then 0 else t[walk.id].nHeight + 1) <= i ==> vChain[i] == To(Ancestor(t, tip.id, i))
        invariant walk.To? ==> forall i | 0 <= i <= t[walk.id].nHeight :: vChain[i] == was[i]
        decreases if walk.Null? then 0 else t[walk.id].nHeight + 1
      {
        var h := t[walk.id].nHeight;
        assert NodeLinked(t, walk.id);
        vChain := vChain[h := walk];
        if h > 0 {
          ParentHeight(t, walk.id);
          AncestorOf(t, tip.id, h, h - 1);
        }
        walk := t[walk.id].pprev;
      }
      if walk.To? {
        ghost var h := t[walk.id].nHeight;
        forall i | 0 <= i <= h ensures vChain[i] == To(Ancestor(t, tip.id, i)) {
          OldSlots(t, old(vChain), was, h, i);
          AncestorOf(t, tip.id, h, i);
        }
      }
      PathOk(t, vChain, tip.id);
    }

    /** FindFork: the highest block of the chain that is the given block or an ancestor of it. */
    method FindFork(t: Nodes, x: Id) returns (fork: Link)
      requires TreeOk(t) && ChainOk(t, vChain) && x in t
      ensures fork.To? ==> fork.id in t && Contains(t, vChain, fork.id) && IsAncestor(t, fork.id, x)
      ensures forall a | Common(t, vChain, a, x) :: fork.To? && t[a].nHeight <= t[fork.id].nHeight
    {
      hide Linked, SkipsOk, ChainOk, IsAncestor, Bounds;
      fork := To(x);
      SelfBounds(t, vChain, x);
      if t[x].nHeight > |vChain| - 1 {
        fork := GetAncestor(t, x, |vChain| - 1);
        AncestorBounds(t, vChain, x);
      }
      while fork.To? && !Contains(t, vChain, fork.id)
        invariant fork.To? ==> fork.id in t && IsAncestor(t, fork.id, x)
        invariant Bounds(t, vChain, x, fork)
        decreases if fork.Null? then 0 else t[fork.id].nHeight + 1
      {
        StepDown(t, vChain, x, fork.id);
        fork := t[fork.id].pprev;
      }
      FinalBounds(t, vChain, x, fork);
    }

    /** GetLocator: the ancestors at the heights of `Rung`, one by one at first and then in doubling steps,
        down to the root. */
    method GetLocator(t: Nodes, start: Link) returns (have: seq<Id>)
      requires TreeOk(t) && ChainOk(t, vChain) && (start.To? ==> start.id in t)
      ensures start.Null? && vChain == [] ==> have == []
      ensures start.To? ==> LocatorOk(t, start.id, have)
      ensures start.Null? && vChain != [] ==> LocatorOk(t, vChain[|vChain| - 1].id, have)
    {
      hide Linked, SkipsOk, ChainOk, IsAncestor, Ancestor, Rung, Pow2;
      have := [];
      if start.Null? && vChain == [] {
        return;
      }
      var from := if start.To? then start.id else TipOf(t, vChain);
      var nStep: nat, p := 1, from;
      ghost var h0 := t[from].nHeight;
      FirstRung(t, from);
      while true
        invariant p in t && IsAncestor(t, p, from) && t[p].nHeight == Rung(h0, |have|) && nStep == Stride(|have|)
        invariant forall i | 0 <= i < |have| :: Rung(h0, i) > 0 && OnRung(t, from, have[i], i)
        decreases t[p].nHeight
      {
        AncestorOnRung(t, from, p, |have|);
        have := have + [p];
        if t[p].nHeight == 0 {
          break;
        }
        var nHeight := if t[p].nHeight - nStep > 0 then t[p].nHeight - nStep else 0;
        NextRung(h0, |have| - 1);
        var next;
        if Contains(t, vChain, p) {
          ChainSlot(t, vChain, p, nHeight);
          next := vChain[nHeight];
        } else {
          next := GetAncestor(t, p, nHeight);
        }
        AncestorStep(t, p, from, nHeight);
        p := next.id;
        if |have| > 10 {
          nStep := nStep * 2;
        }
      }
    }
  }

  /** How far entry i of a locator lies below its start. */
  function Below(i: nat): nat { if i <= 10 then i else 9 + Pow2(i - 10) }

  /** The height of entry i of a locator that starts at height h0. */
  function Rung(h0: nat, i: nat): nat { if Below(i) <= h0 then h0 - Below(i) else 0 }

  /** The step from entry i to the next. */
  function Stride(i: nat): nat { if i <= 10 then 1 else Pow2(i - 10) }

  ghost predicate OnRung(t: Nodes, from: Id, x: Id, i: nat)
    requires Linked(t) && from in t
  {
    x == Ancestor(t, from, Rung(t[from].nHeight, i))
  }

  /** A locator: entry i is the ancestor at its height, and the only entry at height zero is the last. */
  ghost predicate LocatorOk(t: Nodes, from: Id, have: seq<Id>)
    requires Linked(t) && from in t
  {
    && have != []
    && (forall i | 0 <= i < |have| :: OnRung(t, from, have[i], i) && (Rung(t[from].nHeight, i) == 0 <==> i == |have| - 1))
  }

  lemma FirstRung(t: Nodes, from: Id)
    requires Linked(t) && from in t
    ensures Rung(t[from].nHeight, 0) == t[from].nHeight && Stride(0) == 1 && IsAncestor(t, from, from)
  {
  }

  lemma NextRung(h0: nat, i: nat)
    requires Rung(h0, i) > 0
    ensures Rung(h0, i + 1) == if Rung(h0, i) - Stride(i) > 0 then Rung(h0, i) - Stride(i) else 0
    ensures Stride(i) >= 1 && Stride(i + 1) == if i + 1 > 10 then Stride(i) * 2 else Stride(i)
  {
  }

  lemma AncestorOnRung(t: Nodes, from: Id, p: Id, i: nat)
    requires Linked(t) && from in t && p in t && IsAncestor(t, p, from) && t[p].nHeight == Rung(t[from].nHeight, i)
    ensures OnRung(t, from, p, i)
  {
  }

  // ---------------------------------------------------------------- what locators are for

  /** The first entry at least so far down is at most twice as far. */
  lemma {:induction false} RungFor(d: nat, k: nat) returns (i: nat)
    requires k > 0 ==> Below(k - 1) < d
    ensures Below(i) >= d && Below(i) <= 2 * d && i >= k && (i > 0 ==> Below(i - 1) < d)
    decreases d - k
  {
    BelowAtLeast(k);
    if Below(k) >= d {
      i := k;
    } else {
      i := RungFor(d, k + 1);
    }
  }

  lemma {:induction false} BelowAtLeast(k: nat)
    ensures Below(k) >= k
  {
    if k > 0 {
      BelowAtLeast(k - 1);
    }
  }

  /** For every ancestor of the start, some entry of the locator is that block or an ancestor of it, and lies at
      most twice as far below the start. */
  lemma LocatorFinds(t: Nodes, from: Id, have: seq<Id>, a: Id) returns (i: nat)
    requires Linked(t) && from in t && LocatorOk(t, from, have) && IsAncestor(t, a, from)
    ensures i < |have| && have[i] in t && IsAncestor(t, have[i], a)
    ensures t[from].nHeight - t[have[i]].nHeight <= 2 * (t[from].nHeight - t[a].nHeight)
  {
    hide Linked, Ancestor, Below;
    var h0 := t[from].nHeight;
    var d := h0 - t[a].nHeight;
    i := RungFor(d, 0);
    var last := |have| - 1;
    if i > last {
      BelowGrows(last, i - 1);
      assert Rung(h0, last) == 0;
      i := last;
    }
    assert OnRung(t, from, have[i], i);
    AncestorOf(t, from, t[a].nHeight, Rung(h0, i));
  }

  lemma {:induction false} BelowGrows(i: nat, j: nat)
    requires i <= j
    ensures Below(i) <= Below(j)
  {
    if i < j {
      BelowGrows(i, j - 1);
    }
  }

  /** A locator has one entry for each of the first heights and then one for each doubling. */
  lemma LocatorLength(t: Nodes, from: Id, have: seq<Id>)
    requires Linked(t) && from in t && LocatorOk(t, from, have)
    ensures t[from].nHeight <= 10 ==> |have| == t[from].nHeight + 1
    ensures t[from].nHeight > 10 ==> |have| >= 12 && t[from].nHeight <= 9 + Pow2(|have| - 11)
    ensures t[from].nHeight > 11 ==> |have| >= 13 && 9 + Pow2(|have| - 12) < t[from].nHeight
  {
    hide Linked;
    var h0, last := t[from].nHeight, |have| - 1;
    assert Rung(h0, last) == 0;
    if last > 0 {
      assert Rung(h0, last - 1) > 0;
    }
  }

  function TipOf(t: Nodes, v: seq<Link>): (r: Id)
    requires Linked(t) && ChainOk(t, v) && v != []
    ensures r in t && v[|v| - 1] == To(r)
  {
    v[|v| - 1].id
  }

  lemma AncestorStep(t: Nodes, p: Id, from: Id, h: nat)
    requires Linked(t) && from in t && p in t && IsAncestor(t, p, from) && h <= t[p].nHeight
    ensures Ancestor(t, p, h) in t && t[Ancestor(t, p, h)].nHeight == h && IsAncestor(t, Ancestor(t, p, h), from)
  {
    hide Linked;
    AncestorOf(t, from, t[p].nHeight, h);
  }

  lemma ChainSlot(t: Nodes, v: seq<Link>, p: Id, h: nat)
    requires Linked(t) && ChainOk(t, v) && p in t && Contains(t, v, p) && h <= t[p].nHeight
    ensures h < |v| && v[h] == To(Ancestor(t, p, h))
  {
    SlotIsAncestor(t, v, t[p].nHeight, h);
  }

  /** A block of the chain that is x or an ancestor of it. */
  ghost predicate Common(t: Nodes, v: seq<Link>, a: Id, x: Id)
    requires Linked(t) && x in t
  {
    a in t && Contains(t, v, a) && IsAncestor(t, a, x)
  }

  /** No common block is higher than the given one. */
  ghost predicate Bounds(t: Nodes, v: seq<Link>, x: Id, fork: Link)
    requires Linked(t) && x in t
  {
    forall a | Common(t, v, a, x) :: fork.To? && fork.id in t && t[a].nHeight <= t[fork.id].nHeight
  }

  lemma SelfBounds(t: Nodes, v: seq<Link>, x: Id)
    requires Linked(t) && x in t
    ensures Bounds(t, v, x, To(x)) && IsAncestor(t, x, x)
  {
  }

  lemma AncestorBounds(t: Nodes, v: seq<Link>, x: Id)
    requires Linked(t) && x in t && t[x].nHeight > |v| - 1
    ensures |v| == 0 ==> Bounds(t, v, x, Null)
    ensures |v| > 0 ==> Bounds(t, v, x, To(Ancestor(t, x, |v| - 1))) && IsAncestor(t, Ancestor(t, x, |v| - 1), x)
  {
    hide Linked;
  }

  lemma StepDown(t: Nodes, v: seq<Link>, x: Id, f: Id)
    requires Linked(t) && x in t && f in t && IsAncestor(t, f, x) && !Contains(t, v, f) && Bounds(t, v, x, To(f))
    ensures Bounds(t, v, x, t[f].pprev)
    ensures t[f].pprev.To? ==> t[f].pprev.id in t && t[t[f].pprev.id].nHeight < t[f].nHeight && IsAncestor(t, t[f].pprev.id, x)
  {
    var h := t[f].nHeight;
    if h > 0 {
      ParentHeight(t, f);
      AncestorOf(t, x, h, h - 1);
    }
    assert NodeLinked(t, f);
    hide Linked;
    forall a | Common(t, v, a, x) ensures h > 0 && t[a].nHeight <= h - 1 {
      assert t[a].nHeight != h;
    }
  }

  lemma FinalBounds(t: Nodes, v: seq<Link>, x: Id, fork: Link)
    requires Linked(t) && x in t && Bounds(t, v, x, fork)
    ensures forall a | Common(t, v, a, x) :: fork.To? && fork.id in t && t[a].nHeight <= t[fork.id].nHeight
  {
  }

  /** Slots of the resized vector that were filled before hold the old chain. */
  lemma OldSlots(t: Nodes, v: seq<Link>, was: seq<Link>, h: nat, i: nat)
    requires Linked(t) && ChainOk(t, v) && i <= h < |was| && was[h].To?
    requires |was| <= |v| ==> was == v[..|was|]
    requires |was| > |v| ==> was == v + seq(|was| - |v|, _ => Null)
    ensures h < |v| && was[i] == v[i] && was[i] == To(Ancestor(t, was[h].id, i))
  {
    SlotIsAncestor(t, v, h, i);
  }

  lemma PathStep(t: Nodes, tip: Id, i: nat)
    requires Linked(t) && tip in t && 0 < i <= t[tip].nHeight
    ensures t[Ancestor(t, tip, i)].pprev == To(Ancestor(t, tip, i - 1))
  {
    hide Linked;
    var a := Ancestor(t, tip, i);
    ParentHeight(t, a);
    AncestorOf(t, tip, i, i - 1);
    assert Ancestor(t, a, i - 1) == Ancestor(t, t[a].pprev.id, i - 1) == t[a].pprev.id;
  }

  lemma PathOk(t: Nodes, v: seq<Link>, tip: Id)
    requires Linked(t) && tip in t && |v| == t[tip].nHeight + 1
    requires forall i | 0 <= i < |v| :: v[i] == To(Ancestor(t, tip, i))
    ensures ChainOk(t, v)
  {
    hide Linked, Ancestor;
    forall i | 0 < i < |v| ensures t[v[i].id].pprev == v[i - 1] {
      PathStep(t, tip, i);
    }
  }
}
