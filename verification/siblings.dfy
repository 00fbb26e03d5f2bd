/**
 The sibling-append the list-building grammar actions perform, at the
 level of pointers: walk from the head of the left chain to its last node
 and link the right chain there. The lemma below shows that this pointer
 surgery yields exactly the concatenation of the two chains, which is why
 the rest of the model represents chains as sequences and appends them
 with `+`.
 */
module Siblings {

  /** Node addresses; 0 is NULL. */
  type Ptr = nat

  const Null: Ptr := 0

  /** The heap, seen through the `sibling` field only. */
  type Heap = map<Ptr, Ptr>

  /** `xs` lists, in order, the nodes reached from `p` by following
      sibling links until NULL. */
  ghost predicate IsChain(h: Heap, p: Ptr, xs: seq<Ptr>)
    decreases |xs|
  {
    if xs == [] then p == Null
    else p == xs[0] && p != Null && p in h && IsChain(h, h[p], xs[1..])
  }

  ghost predicate Distinct(xs: seq<Ptr>)
  {
    forall i, j :: 0 <= i < j < |xs| ==> xs[i] != xs[j]
  }

  ghost predicate Apart(xs: seq<Ptr>, ys: seq<Ptr>)
  {
    forall p :: p in xs ==> p !in ys
  }

  /** Re-linking a node outside a chain leaves the chain intact. */
  lemma {:induction false} ChainFrame(h: Heap, p: Ptr, ys: seq<Ptr>, q: Ptr, v: Ptr)
    requires IsChain(h, p, ys) && q !in ys
    ensures IsChain(h[q := v], p, ys)
    decreases |ys|
  {
    if ys != [] {
      ChainFrame(h, h[p], ys[1..], q, v);
    }
  }

  /** Linking the right chain after the last node of a non-empty left chain
      gives a chain through both, left nodes first. */
  lemma {:induction false} LinkedChain(h: Heap, a: Ptr, xs: seq<Ptr>, b: Ptr, ys: seq<Ptr>)
    requires xs != [] && IsChain(h, a, xs) && IsChain(h, b, ys)
    requires Distinct(xs) && Apart(xs, ys)
    ensures IsChain(h[xs[|xs| - 1] := b], a, xs + ys)
    decreases |xs|
  {
    var last := xs[|xs| - 1];
    var h' := h[last := b];
    ChainFrame(h, b, ys, last, b);
    if |xs| == 1 {
      assert (xs + ys)[1..] == ys;
    } else {
      assert a != last by { assert xs[0] != xs[|xs| - 1]; }
      LinkedChain(h, h[a], xs[1..], b, ys);
      assert xs[1..][|xs[1..]| - 1] == last;
      assert (xs + ys)[1..] == xs[1..] + ys;
    }
  }

  /** A chain that ends at `t` with `t`'s sibling NULL ends with `t`. */
  lemma {:induction false} ChainEnd(h: Heap, t: Ptr, zs: seq<Ptr>)
    requires IsChain(h, t, zs) && t != Null && h[t] == Null
    ensures zs == [t]
  {
    assert zs != [] && IsChain(h, Null, zs[1..]);
  }

  /** The sibling-append of the grammar actions: if the left chain is NULL
      the result is the right chain; otherwise the last node of the left
      chain is linked to the right chain and the left head is returned.
      The chain reached from the result is the concatenation. */
  method LinkSiblings(h: Heap, a: Ptr, b: Ptr, ghost xs: seq<Ptr>, ghost ys: seq<Ptr>)
    returns (h': Heap, r: Ptr)
    requires IsChain(h, a, xs) && IsChain(h, b, ys)
    requires Distinct(xs) && Apart(xs, ys)
    ensures IsChain(h', r, xs + ys)
    ensures a == Null ==> r == b && h' == h
    ensures a != Null ==> r == a
    ensures h'.Keys == h.Keys
    ensures forall p :: p in h && (xs == [] || p != xs[|xs| - 1]) ==> h'[p] == h[p]
  {
    if a == Null {
      assert xs == [] && xs + ys == ys;
      return h, b;
    }
    var t := a;
    ghost var k := 0;
    while h[t] != Null
      invariant 0 <= k < |xs| && t == xs[k]
      invariant IsChain(h, t, xs[k..])
      decreases |xs| - k
    {
      assert xs[k..][1..] == xs[k + 1..];
      t := h[t];
      k := k + 1;
    }
    ChainEnd(h, t, xs[k..]);
    assert k == |xs| - 1;
    LinkedChain(h, a, xs, b, ys);
    h' := h[t := b];
    r := a;
  }
}
