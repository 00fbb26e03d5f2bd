/**
 The generic tree walk both analysis passes are built on: at each node of
 a chain, the pre-order hook runs, then the three child chains are walked
 in order, then the post-order hook runs, then the walk moves on to the
 next sibling. The hooks are pure: they take the node and the pass state
 and return the (possibly updated) node and the new state.
 */
module Traverse {
  import opened Ast

  /** `traverse` on a chain: the chain that comes back has one node per
      node of the input. */
  function Walk<S(!new)>(t: Tree, pre: (Node, S) -> (Node, S), post: (Node, S) -> (Node, S), s: S)
    : (r: (Tree, S))
    ensures |r.0| == |t|
    decreases TreeSize(t), 1
  {
    if t == [] then ([], s)
    else
      var (n, s1) := WalkNode(t[0], pre, post, s);
      var (rest, s2) := Walk(t[1..], pre, post, s1);
      ([n] + rest, s2)
  }

  /** The node the walk descends into after the pre-order hook: the hook's
      node, provided the hook did not grow it (the hooks of both passes
      only update flags and types). */
  function AfterPre(n: Node, hooked: Node): Node
  {
    if NodeSize(hooked) <= NodeSize(n) then hooked else n
  }

  /** `traverse` on one node, siblings excluded. */
  function WalkNode<S(!new)>(n: Node, pre: (Node, S) -> (Node, S), post: (Node, S) -> (Node, S), s: S)
    : (Node, S)
    decreases NodeSize(n), 0
  {
    var (p, s1) := pre(n, s);
    var n1 := AfterPre(n, p);
    var (k0, s2) := Walk(n1.c0, pre, post, s1);
    var (k1, s3) := Walk(n1.c1, pre, post, s2);
    var (k2, s4) := Walk(n1.c2, pre, post, s3);
    post(n1.(c0 := k0, c1 := k1, c2 := k2), s4)
  }

  /** `nullProc`: the hook that does nothing. */
  function Skip<S>(n: Node, s: S): (Node, S)
  {
    (n, s)
  }

  // ---------------------------------------------------------------------
  // Visit order: a walk with recording hooks produces exactly the events
  // of an independent, first-order definition.
  // ---------------------------------------------------------------------

  datatype Visit = Pre(node: Node) | Post(node: Node)

  /** Every node contributes its pre event, the events of its children in
      order, its post event, and then the siblings follow. */
  function Events(t: Tree): seq<Visit>
  {
    if t == [] then [] else NodeEvents(t[0]) + Events(t[1..])
  }

  function NodeEvents(n: Node): seq<Visit>
  {
    [Pre(n)] + Events(n.c0) + Events(n.c1) + Events(n.c2) + [Post(n)]
  }

  function RecordPre(n: Node, log: seq<Visit>): (Node, seq<Visit>)
  {
    (n, log + [Pre(n)])
  }

  function RecordPost(n: Node, log: seq<Visit>): (Node, seq<Visit>)
  {
    (n, log + [Post(n)])
  }

  /** The walk calls the pre hook on a node, walks child 0, 1, 2, calls the
      post hook on that node and only then moves to the sibling; it gives
      back the chain unchanged. */
  lemma {:induction false} WalkFollowsEvents(t: Tree, log: seq<Visit>)
    ensures Walk(t, RecordPre, RecordPost, log) == (t, log + Events(t))
    decreases TreeSize(t), 1
  {
    if t == [] {
      assert log + [] == log;
    } else {
      var n := t[0];
      WalkNodeFollowsEvents(n, log);
      var log1 := log + NodeEvents(n);
      WalkFollowsEvents(t[1..], log1);
      assert log1 + Events(t[1..]) == log + Events(t);
      assert [n] + t[1..] == t;
    }
  }

  lemma {:induction false} WalkNodeFollowsEvents(n: Node, log: seq<Visit>)
    ensures WalkNode(n, RecordPre, RecordPost, log) == (n, log + NodeEvents(n))
    decreases NodeSize(n), 0
  {
    var log1 := log + [Pre(n)];
    WalkFollowsEvents(n.c0, log1);
    var log2 := log1 + Events(n.c0);
    WalkFollowsEvents(n.c1, log2);
    var log3 := log2 + Events(n.c1);
    WalkFollowsEvents(n.c2, log3);
    var log4 := log3 + Events(n.c2);
    assert RecordPre(n, log) == (n, log1);
    assert AfterPre(n, n) == n;
    assert n.(c0 := n.c0, c1 := n.c1, c2 := n.c2) == n;
    assert WalkNode(n, RecordPre, RecordPost, log) == RecordPost(n, log4);
    ConcatRegroup(log, [Pre(n)], Events(n.c0), Events(n.c1), Events(n.c2), [Post(n)]);
  }

  /** Local helper: re-associates the six parts of one node's events. */
  lemma ConcatRegroup<T>(a: seq<T>, b: seq<T>, c: seq<T>, d: seq<T>, e: seq<T>, f: seq<T>)
    ensures a + b + c + d + e + f == a + (b + c + d + e + f)
  {
  }

  function CountPre(e: seq<Visit>): nat
  {
    if e == [] then 0 else (if e[0].Pre? then 1 else 0) + CountPre(e[1..])
  }

  function CountPost(e: seq<Visit>): nat
  {
    if e == [] then 0 else (if e[0].Post? then 1 else 0) + CountPost(e[1..])
  }

  lemma {:induction false} CountsAppend(a: seq<Visit>, b: seq<Visit>)
    ensures CountPre(a + b) == CountPre(a) + CountPre(b)
    ensures CountPost(a + b) == CountPost(a) + CountPost(b)
  {
    if a != [] {
      assert (a + b)[0] == a[0];
      assert (a + b)[1..] == a[1..] + b;
      CountsAppend(a[1..], b);
      assert CountPre(a + b) == (if a[0].Pre? then 1 else 0) + CountPre(a[1..] + b);
      assert CountPost(a + b) == (if a[0].Post? then 1 else 0) + CountPost(a[1..] + b);
    } else {
      assert a + b == b;
    }
  }

  /** Each node of the tree gets exactly one pre-order and one post-order
      visit. */
  lemma {:induction false} EachNodeVisitedOnce(t: Tree)
    ensures CountPre(Events(t)) == TreeSize(t)
    ensures CountPost(Events(t)) == TreeSize(t)
  {
    if t != [] {
      var n := t[0];
      EachNodeVisitedOnce(n.c0);
      EachNodeVisitedOnce(n.c1);
      EachNodeVisitedOnce(n.c2);
      EachNodeVisitedOnce(t[1..]);
      var a := [Pre(n)] + Events(n.c0);
      var b := a + Events(n.c1);
      var c := b + Events(n.c2);
      var d := c + [Post(n)];
      CountsAppend([Pre(n)], Events(n.c0));
      CountsAppend(a, Events(n.c1));
      CountsAppend(b, Events(n.c2));
      CountsAppend(c, [Post(n)]);
      CountsAppend(d, Events(t[1..]));
      assert CountPre([Pre(n)]) == 1 && CountPost([Pre(n)]) == 0;
      assert CountPre([Post(n)]) == 0 && CountPost([Post(n)]) == 1;
    }
  }

  // ---------------------------------------------------------------------
  // Invariants: a relation every hook call respects is respected by the
  // whole walk.
  // ---------------------------------------------------------------------

  ghost predicate PreorderRel<S(!new)>(R: (S, S) -> bool)
  {
    && (forall x :: R(x, x))
    && (forall x, y, z :: R(x, y) && R(y, z) ==> R(x, z))
  }

  ghost predicate HookRespects<S(!new)>(f: (Node, S) -> (Node, S), R: (S, S) -> bool)
  {
    forall n: Node, x: S :: R(x, f(n, x).1)
  }

  lemma {:induction false} WalkRespects<S(!new)>(t: Tree, pre: (Node, S) -> (Node, S),
                                                 post: (Node, S) -> (Node, S), s: S, R: (S, S) -> bool)
    requires PreorderRel(R)
    requires HookRespects(pre, R) && HookRespects(post, R)
    ensures R(s, Walk(t, pre, post, s).1)
    decreases TreeSize(t), 1
  {
    if t != [] {
      var (n, s1) := WalkNode(t[0], pre, post, s);
      WalkNodeRespects(t[0], pre, post, s, R);
      WalkRespects(t[1..], pre, post, s1, R);
    }
  }

  lemma {:induction false} WalkNodeRespects<S(!new)>(n: Node, pre: (Node, S) -> (Node, S),
                                                     post: (Node, S) -> (Node, S), s: S, R: (S, S) -> bool)
    requires PreorderRel(R)
    requires HookRespects(pre, R) && HookRespects(post, R)
    ensures R(s, WalkNode(n, pre, post, s).1)
    decreases NodeSize(n), 0
  {
    var (p, s1) := pre(n, s);
    var n1 := AfterPre(n, p);
    var (k0, s2) := Walk(n1.c0, pre, post, s1);
    var (k1, s3) := Walk(n1.c1, pre, post, s2);
    var (k2, s4) := Walk(n1.c2, pre, post, s3);
    WalkRespects(n1.c0, pre, post, s1, R);
    WalkRespects(n1.c1, pre, post, s2, R);
    WalkRespects(n1.c2, pre, post, s3, R);
  }
}
