/**
 The type checker `typeCheck`: a post-order walk whose hook `checkNode`
 gives expression and call nodes their types and reports ill-typed
 operators, tests and assignments. The return type of a called function
 (`checkFunctionType` of the unseen symbol table) is the parameter
 `returnsInt`.

 A child the grammar always builds is read, when absent, as having no
 type (`HeadType` of the NULL chain), and a diagnostic that would blame
 an absent child blames the node itself.
 */
module Checker {
  import opened Ast
  import opened Traverse

  const OpNotInteger: string := "Op applied to non-integer"
  const IfNotBoolean: string := "if test is not Boolean"
  const AssignMismatch: string := "assignment error: different types"
  const WhileNotBoolean: string := "while test is not Boolean"

  /** `typeError`: one diagnostic at the line of the blamed node. */
  function TypeError(blamed: Node, msg: string): Diag
  {
    Diag(TypeDiag, blamed.lineno, msg)
  }

  /** The node at the head of child chain `t` of `n`, or `n` itself when
      the chain is NULL. */
  function HeadOr(t: Tree, n: Node): Node
  {
    if t == [] then n else t[0]
  }

  /** `checkNode` with the `while` diagnostic blamed on the test, like
      the `if` diagnostic. */
  function CheckNode(returnsInt: string -> bool, n: Node, ds: seq<Diag>): (r: (Node, seq<Diag>))
    ensures r.0 == n.(ty := r.0.ty)
    ensures r.1 == ds + Complaint(n)
    ensures n.kind == OpK ==>
              && (r.0.ty == Boolean <==> n.attr.OpTag? && IsRelational(n.attr.op))
              && (r.0.ty == Integer <==> !(n.attr.OpTag? && IsRelational(n.attr.op)))
    ensures n.kind in {ConstK, IdK, VectorK} ==> r.0.ty == Integer
    ensures n.kind == CallK ==> r.0.ty == (if returnsInt(NameOf(n)) then Integer else Void)
    ensures n.kind !in {OpK, ConstK, IdK, VectorK, CallK} ==> r.0 == n
  {
    match n.kind
    case OpK =>
      var ds1 := if HeadType(n.c0) != Integer || HeadType(n.c1) != Integer
                 then ds + [TypeError(n, OpNotInteger)] else ds;
      var relational := n.attr.OpTag? &&
        (n.attr.op == Equal || n.attr.op == Lt || n.attr.op == Gt ||
         n.attr.op == Diff || n.attr.op == LtEq || n.attr.op == GtEq);
      (n.(ty := if relational then Boolean else Integer), ds1)
    case ConstK => (n.(ty := Integer), ds)
    case IdK => (n.(ty := Integer), ds)
    case VectorK => (n.(ty := Integer), ds)
    case IfK =>
      if HeadType(n.c0) == Integer then (n, ds + [TypeError(n.c0[0], IfNotBoolean)]) else (n, ds)
    case AssignK =>
      if HeadType(n.c0) != HeadType(n.c1) then (n, ds + [TypeError(HeadOr(n.c0, n), AssignMismatch)])
      else (n, ds)
    case WhileK =>
      if HeadType(n.c0) == Integer then (n, ds + [TypeError(n.c0[0], WhileNotBoolean)]) else (n, ds)
    case CallK => (n.(ty := if returnsInt(NameOf(n)) then Integer else Void), ds)
    case _ => (n, ds)
  }

  /** The typing rules the checker enforces, one per statement or
      operator form, stated on the node's children: operands of an
      operator are integers, the test of `if` and `while` is not a plain
      integer, both sides of an assignment have the same type. */
  function Complaint(n: Node): seq<Diag>
  {
    if n.kind == OpK && !(HeadType(n.c0) == Integer && HeadType(n.c1) == Integer) then
      [Diag(TypeDiag, n.lineno, OpNotInteger)]
    else if n.kind == IfK && n.c0 != [] && n.c0[0].ty == Integer then
      [Diag(TypeDiag, n.c0[0].lineno, IfNotBoolean)]
    else if n.kind == WhileK && n.c0 != [] && n.c0[0].ty == Integer then
      [Diag(TypeDiag, n.c0[0].lineno, WhileNotBoolean)]
    else if n.kind == AssignK && HeadType(n.c0) != HeadType(n.c1) then
      [Diag(TypeDiag, (if n.c0 == [] then n else n.c0[0]).lineno, AssignMismatch)]
    else []
  }

  /** The post-order hook for a given function-type oracle. */
  function Check(returnsInt: string -> bool): (Node, seq<Diag>) -> (Node, seq<Diag>)
  {
    (n, ds) => CheckNode(returnsInt, n, ds)
  }

  /** `typeCheck`: the annotated tree and the diagnostics, in the order the
      walk writes them. */
  function TypeCheck(t: Tree, returnsInt: string -> bool): (r: (Tree, seq<Diag>))
    ensures |r.0| == |t|
  {
    Walk(t, Skip, Check(returnsInt), [])
  }

  // ---------------------------------------------------------------------
  // What a checked tree looks like.
  // ---------------------------------------------------------------------

  /** The types the checker promises on one node. */
  predicate NodeTyped(returnsInt: string -> bool, n: Node)
  {
    && (n.kind == OpK ==>
          n.ty == (if n.attr.OpTag? && IsRelational(n.attr.op) then Boolean else Integer))
    && (n.kind in {ConstK, IdK, VectorK} ==> n.ty == Integer)
    && (n.kind == CallK ==> n.ty == (if returnsInt(NameOf(n)) then Integer else Void))
  }

  /** Every node of the chain, at any depth, carries those types. */
  predicate Typed(returnsInt: string -> bool, t: Tree)
  {
    t == [] || (TypedNode(returnsInt, t[0]) && Typed(returnsInt, t[1..]))
  }

  predicate TypedNode(returnsInt: string -> bool, n: Node)
  {
    NodeTyped(returnsInt, n) && Typed(returnsInt, n.c0) && Typed(returnsInt, n.c1) && Typed(returnsInt, n.c2)
  }

  /** The diagnostics a checked tree deserves: each node's complaint after
      those of its children, siblings in order (post-order). */
  function Blame(t: Tree): seq<Diag>
  {
    if t == [] then [] else NodeBlame(t[0]) + Blame(t[1..])
  }

  function NodeBlame(n: Node): seq<Diag>
  {
    Blame(n.c0) + Blame(n.c1) + Blame(n.c2) + Complaint(n)
  }

  /** A chain with every type erased. */
  function Untyped(t: Tree): Tree
  {
    if t == [] then [] else [UntypedNode(t[0])] + Untyped(t[1..])
  }

  function UntypedNode(n: Node): Node
  {
    n.(ty := Unset, c0 := Untyped(n.c0), c1 := Untyped(n.c1), c2 := Untyped(n.c2))
  }

  // ---------------------------------------------------------------------
  // The walk: annotation, diagnostics, shape, idempotence.
  // ---------------------------------------------------------------------

  /** Unfolds one node of the checking walk: the pre hook does nothing and
      the node that comes back is `checkNode` of the node over its checked
      children. */
  lemma {:induction false} CheckStep(f: string -> bool, n: Node, ds: seq<Diag>)
    ensures var (k0, s2) := Walk(n.c0, Skip, Check(f), ds);
            var (k1, s3) := Walk(n.c1, Skip, Check(f), s2);
            var (k2, s4) := Walk(n.c2, Skip, Check(f), s3);
            WalkNode(n, Skip, Check(f), ds) == CheckNode(f, n.(c0 := k0, c1 := k1, c2 := k2), s4)
  {
    assert AfterPre(n, n) == n;
  }

  /** Every node of the result carries the type the checker promises. */
  lemma {:induction false} CheckTypes(f: string -> bool, t: Tree, ds: seq<Diag>)
    ensures Typed(f, Walk(t, Skip, Check(f), ds).0)
    decreases TreeSize(t), 1
  {
    if t != [] {
      var (n, s1) := WalkNode(t[0], Skip, Check(f), ds);
      CheckNodeTypes(f, t[0], ds);
      CheckTypes(f, t[1..], s1);
      var w := Walk(t, Skip, Check(f), ds).0;
      assert w[0] == n && w[1..] == Walk(t[1..], Skip, Check(f), s1).0;
    }
  }

  lemma {:induction false} CheckNodeTypes(f: string -> bool, n: Node, ds: seq<Diag>)
    ensures TypedNode(f, WalkNode(n, Skip, Check(f), ds).0)
    decreases NodeSize(n), 0
  {
    var (k0, s2) := Walk(n.c0, Skip, Check(f), ds);
    var (k1, s3) := Walk(n.c1, Skip, Check(f), s2);
    var (k2, s4) := Walk(n.c2, Skip, Check(f), s3);
    CheckStep(f, n, ds);
    CheckTypes(f, n.c0, ds);
    CheckTypes(f, n.c1, s2);
    CheckTypes(f, n.c2, s3);
  }

  /** The diagnostics are exactly those the checked tree deserves, in
      post-order, after the ones written before the walk. */
  lemma {:induction false} CheckBlames(f: string -> bool, t: Tree, ds: seq<Diag>)
    ensures Walk(t, Skip, Check(f), ds).1 == ds + Blame(Walk(t, Skip, Check(f), ds).0)
    decreases TreeSize(t), 1
  {
    if t == [] {
      assert ds + [] == ds;
    } else {
      var (n, s1) := WalkNode(t[0], Skip, Check(f), ds);
      CheckNodeBlames(f, t[0], ds);
      CheckBlames(f, t[1..], s1);
      var w := Walk(t, Skip, Check(f), ds).0;
      assert w[0] == n && w[1..] == Walk(t[1..], Skip, Check(f), s1).0;
      assert Blame(w) == NodeBlame(n) + Blame(w[1..]);
    }
  }

  lemma {:induction false} CheckNodeBlames(f: string -> bool, n: Node, ds: seq<Diag>)
    ensures WalkNode(n, Skip, Check(f), ds).1 == ds + NodeBlame(WalkNode(n, Skip, Check(f), ds).0)
    decreases NodeSize(n), 0
  {
    var (k0, s2) := Walk(n.c0, Skip, Check(f), ds);
    var (k1, s3) := Walk(n.c1, Skip, Check(f), s2);
    var (k2, s4) := Walk(n.c2, Skip, Check(f), s3);
    CheckStep(f, n, ds);
    CheckBlames(f, n.c0, ds);
    CheckBlames(f, n.c1, s2);
    CheckBlames(f, n.c2, s3);
    var m := n.(c0 := k0, c1 := k1, c2 := k2);
    var r := CheckNode(f, m, s4);
    assert r.0.c0 == k0 && r.0.c1 == k1 && r.0.c2 == k2;
    ComplaintIgnoresOwnType(m, r.0.ty);
    assert NodeBlame(r.0) == Blame(k0) + Blame(k1) + Blame(k2) + Complaint(m);
    assert r.1 == ds + Blame(k0) + Blame(k1) + Blame(k2) + Complaint(m);
    Regroup(ds, Blame(k0), Blame(k1), Blame(k2), Complaint(m));
  }

  /** A node's complaint depends on its children, not on its own type. */
  lemma ComplaintIgnoresOwnType(n: Node, t: ExpType)
    ensures Complaint(n.(ty := t)) == Complaint(n)
  {
    var m := n.(ty := t);
    assert m.kind == n.kind && m.c0 == n.c0 && m.c1 == n.c1 && m.lineno == n.lineno;
  }

  /** Local helper: re-associates a five-part concatenation for the
      diagnostics proof, one step the solver does not take by itself. */
  lemma Regroup<T>(a: seq<T>, b: seq<T>, c: seq<T>, d: seq<T>, e: seq<T>)
    ensures a + b + c + d + e == a + (b + c + d + e)
  {
  }

  /** Checking changes nothing but types. */
  lemma {:induction false} CheckKeepsTree(f: string -> bool, t: Tree, ds: seq<Diag>)
    ensures Untyped(Walk(t, Skip, Check(f), ds).0) == Untyped(t)
    decreases TreeSize(t), 1
  {
    if t != [] {
      var (n, s1) := WalkNode(t[0], Skip, Check(f), ds);
      CheckNodeKeepsTree(f, t[0], ds);
      CheckKeepsTree(f, t[1..], s1);
    }
  }

  lemma {:induction false} CheckNodeKeepsTree(f: string -> bool, n: Node, ds: seq<Diag>)
    ensures UntypedNode(WalkNode(n, Skip, Check(f), ds).0) == UntypedNode(n)
    decreases NodeSize(n), 0
  {
    var (k0, s2) := Walk(n.c0, Skip, Check(f), ds);
    var (k1, s3) := Walk(n.c1, Skip, Check(f), s2);
    var (k2, s4) := Walk(n.c2, Skip, Check(f), s3);
    CheckStep(f, n, ds);
    CheckKeepsTree(f, n.c0, ds);
    CheckKeepsTree(f, n.c1, s2);
    CheckKeepsTree(f, n.c2, s3);
    var m := n.(c0 := k0, c1 := k1, c2 := k2);
    assert UntypedNode(CheckNode(f, m, s4).0) == UntypedNode(m);
  }

  /** Checking a checked tree again gives the same tree and the same
      diagnostics. */
  lemma {:induction false} CheckIdempotent(f: string -> bool, t: Tree, ds: seq<Diag>)
    ensures Walk(Walk(t, Skip, Check(f), ds).0, Skip, Check(f), ds) == Walk(t, Skip, Check(f), ds)
    decreases TreeSize(t), 1
  {
    if t != [] {
      var (n, s1) := WalkNode(t[0], Skip, Check(f), ds);
      var (rest, s2) := Walk(t[1..], Skip, Check(f), s1);
      CheckNodeIdempotent(f, t[0], ds);
      CheckIdempotent(f, t[1..], s1);
      var w := [n] + rest;
      assert Walk(t, Skip, Check(f), ds) == (w, s2);
      assert w[0] == n && w[1..] == rest;
    }
  }

  lemma {:induction false} CheckNodeIdempotent(f: string -> bool, n: Node, ds: seq<Diag>)
    ensures var (m, s) := WalkNode(n, Skip, Check(f), ds);
            WalkNode(m, Skip, Check(f), ds) == (m, s)
    decreases NodeSize(n), 0
  {
    var (k0, s2) := Walk(n.c0, Skip, Check(f), ds);
    var (k1, s3) := Walk(n.c1, Skip, Check(f), s2);
    var (k2, s4) := Walk(n.c2, Skip, Check(f), s3);
    CheckStep(f, n, ds);
    CheckIdempotent(f, n.c0, ds);
    CheckIdempotent(f, n.c1, s2);
    CheckIdempotent(f, n.c2, s3);
    var x := n.(c0 := k0, c1 := k1, c2 := k2);
    var (m, s) := CheckNode(f, x, s4);
    assert m.c0 == k0 && m.c1 == k1 && m.c2 == k2;
    CheckStep(f, m, ds);
    assert m.(c0 := k0, c1 := k1, c2 := k2) == m;
    CheckNodeTwice(f, x, s4);
  }

  /** `checkNode` on a node it has already typed changes nothing and
      writes the same complaint again. */
  lemma CheckNodeTwice(f: string -> bool, x: Node, ds: seq<Diag>)
    ensures var (m, s) := CheckNode(f, x, ds);
            CheckNode(f, m, ds) == (m, s)
  {
    var (m, s) := CheckNode(f, x, ds);
    ComplaintIgnoresOwnType(x, m.ty);
  }

  /** The properties of one checking pass from an empty listing. */
  lemma TypeCheckSound(t: Tree, f: string -> bool)
    ensures Typed(f, TypeCheck(t, f).0)
    ensures TypeCheck(t, f).1 == Blame(TypeCheck(t, f).0)
    ensures Untyped(TypeCheck(t, f).0) == Untyped(t)
    ensures TypeCheck(TypeCheck(t, f).0, f) == TypeCheck(t, f)
  {
    CheckTypes(f, t, []);
    CheckBlames(f, t, []);
    CheckKeepsTree(f, t, []);
    CheckIdempotent(f, t, []);
  }
}
