/**
 `checkNode` as written blames the `while` diagnostic on child 1, the
 loop body. The grammar builds a NULL body for a loop whose body is the
 empty statement (`while (x) ;`, rules 32 and 29), so for such a loop with
 an integer test the diagnostic dereferences NULL. The checker used by the
 rest of the model (`Checker.CheckNode`) blames the test instead, as the
 `if` case does.
 */
module CheckerAsWritten {
  import opened Ast
  import Tables
  import Actions
  import opened Traverse
  import opened Checker

  /** `checkNode` exactly as written; a listing of None means the checker
      has dereferenced NULL, and nothing runs after that. */
  function CheckNodeAsWritten(returnsInt: string -> bool, n: Node, ds: Option<seq<Diag>>)
    : (r: (Node, Option<seq<Diag>>))
    ensures ds.None? ==> r == (n, None)
    ensures ds.Some? && r.1.None? <==> ds.Some? && n.kind == WhileK && HeadType(n.c0) == Integer && n.c1 == []
    ensures ds.Some? && n.kind == WhileK && n.c1 != [] ==>
              r == (n, Some(ds.value + (if HeadType(n.c0) == Integer
                                        then [Diag(TypeDiag, n.c1[0].lineno, WhileNotBoolean)] else [])))
    ensures ds.Some? && n.kind == WhileK && HeadType(n.c0) != Integer ==> r == (n, ds)
    ensures ds.Some? && n.kind != WhileK ==>
              r == (CheckNode(returnsInt, n, ds.value).0, Some(CheckNode(returnsInt, n, ds.value).1))
  {
    match ds
    case None => (n, None)
    case Some(d) =>
      if n.kind == WhileK && HeadType(n.c0) == Integer then
        if n.c1 == [] then (n, None)
        else (n, Some(d + [TypeError(n.c1[0], WhileNotBoolean)]))
      else
        var (m, d1) := CheckNode(returnsInt, n, d);
        (m, Some(d1))
  }

  /** Where both versions report a `while` loop, they write the same
      message; the one as written gives the body's line, the corrected one
      the test's line. */
  lemma BlamesBodyNotTest(f: string -> bool, n: Node, ds: seq<Diag>)
    requires n.kind == WhileK && HeadType(n.c0) == Integer && n.c1 != []
    ensures CheckNodeAsWritten(f, n, Some(ds)).1 == Some(ds + [Diag(TypeDiag, n.c1[0].lineno, WhileNotBoolean)])
    ensures CheckNode(f, n, ds).1 == ds + [Diag(TypeDiag, n.c0[0].lineno, WhileNotBoolean)]
  {
  }

  function CheckAsWritten(returnsInt: string -> bool): (Node, Option<seq<Diag>>) -> (Node, Option<seq<Diag>>)
  {
    (n, ds) => CheckNodeAsWritten(returnsInt, n, ds)
  }

  /** `typeCheck` with the as-written hook. Compared with the corrected
      pass on the same tree: it dereferences NULL exactly when the checked
      tree holds a loop with an integer test and a NULL body; otherwise it
      returns the same tree and the same diagnostics apart from their
      lines, and exactly the same diagnostics when no loop has an integer
      test. */
  function TypeCheckAsWritten(t: Tree, returnsInt: string -> bool): (r: (Tree, Option<seq<Diag>>))
    ensures |r.0| == |t|
    ensures r.1.None? <==> Anywhere(Trap, TypeCheck(t, returnsInt).0)
    ensures r.1.Some? ==> r.0 == TypeCheck(t, returnsInt).0
    ensures r.1.Some? ==> Unlined(r.1.value) == Unlined(TypeCheck(t, returnsInt).1)
    ensures !Anywhere(IntegerLoop, TypeCheck(t, returnsInt).0) ==>
              r == (TypeCheck(t, returnsInt).0, Some(TypeCheck(t, returnsInt).1))
  {
    AsWrittenTracks(returnsInt, t, [], []);
    assert Tracks(Walk(t, Skip, CheckAsWritten(returnsInt), Some([])), TypeCheck(t, returnsInt).0, []);
    CheckBlames(returnsInt, t, []);
    BlameLinesOnly(TypeCheck(t, returnsInt).0);
    assert [] + Blame(TypeCheck(t, returnsInt).0) == Blame(TypeCheck(t, returnsInt).0);
    assert [] + BlameAsWritten(TypeCheck(t, returnsInt).0) == BlameAsWritten(TypeCheck(t, returnsInt).0);
    Walk(t, Skip, CheckAsWritten(returnsInt), Some([]))
  }

  // ---------------------------------------------------------------------
  // The as-written pass against the corrected one.
  // ---------------------------------------------------------------------

  /** A loop whose test is an integer: the one case the two versions of
      `checkNode` treat differently. */
  predicate IntegerLoop(n: Node)
  {
    n.kind == WhileK && HeadType(n.c0) == Integer
  }

  /** Such a loop with a NULL body: as written, checking it dereferences
      NULL. */
  predicate Trap(n: Node)
  {
    IntegerLoop(n) && n.c1 == []
  }

  /** Some node of the chain, at any depth, satisfies `P`. */
  predicate Anywhere(P: Node -> bool, t: Tree)
    decreases TreeSize(t), 1
  {
    t != [] && (AnywhereIn(P, t[0]) || Anywhere(P, t[1..]))
  }

  predicate AnywhereIn(P: Node -> bool, n: Node)
    decreases NodeSize(n), 0
  {
    P(n) || Anywhere(P, n.c0) || Anywhere(P, n.c1) || Anywhere(P, n.c2)
  }

  /** The diagnostic the as-written `checkNode` writes for a node; a trap
      writes none, because the pass stops there. */
  function ComplaintAsWritten(n: Node): seq<Diag>
  {
    if IntegerLoop(n) then
      (if n.c1 == [] then [] else [Diag(TypeDiag, n.c1[0].lineno, WhileNotBoolean)])
    else Complaint(n)
  }

  /** `Blame` with the as-written complaint: post-order, siblings in order. */
  function BlameAsWritten(t: Tree): seq<Diag>
  {
    if t == [] then [] else NodeBlameAsWritten(t[0]) + BlameAsWritten(t[1..])
  }

  function NodeBlameAsWritten(n: Node): seq<Diag>
  {
    BlameAsWritten(n.c0) + BlameAsWritten(n.c1) + BlameAsWritten(n.c2) + ComplaintAsWritten(n)
  }

  /** Diagnostics with their lines erased. */
  function Unlined(ds: seq<Diag>): seq<Diag>
  {
    if ds == [] then [] else [ds[0].(line := 0)] + Unlined(ds[1..])
  }

  lemma {:induction false} UnlinedAppend(a: seq<Diag>, b: seq<Diag>)
    ensures Unlined(a + b) == Unlined(a) + Unlined(b)
  {
    if a == [] {
      assert a + b == b;
    } else {
      assert (a + b)[0] == a[0] && (a + b)[1..] == a[1..] + b;
      UnlinedAppend(a[1..], b);
    }
  }

  /** Once the pass has dereferenced NULL, nothing more is written. */
  lemma CrashPersists(f: string -> bool, t: Tree)
    ensures Walk(t, Skip, CheckAsWritten(f), None).1.None?
  {
    var R := (x: Option<seq<Diag>>, y: Option<seq<Diag>>) => x.None? ==> y.None?;
    assert HookRespects(CheckAsWritten(f), R) by {
      forall n: Node, x: Option<seq<Diag>> ensures R(x, CheckAsWritten(f)(n, x).1) {
        var _ := CheckNodeAsWritten(f, n, x);
      }
    }
    assert HookRespects(Skip, R);
    WalkRespects(t, Skip, CheckAsWritten(f), None, R);
  }

  /** Unfolds one node of the as-written walk, like `Checker.CheckStep`. */
  lemma AsWrittenStep(f: string -> bool, n: Node, s: Option<seq<Diag>>)
    ensures var (k0, s2) := Walk(n.c0, Skip, CheckAsWritten(f), s);
            var (k1, s3) := Walk(n.c1, Skip, CheckAsWritten(f), s2);
            var (k2, s4) := Walk(n.c2, Skip, CheckAsWritten(f), s3);
            WalkNode(n, Skip, CheckAsWritten(f), s) == CheckNodeAsWritten(f, n.(c0 := k0, c1 := k1, c2 := k2), s4)
  {
    assert AfterPre(n, n) == n;
  }

  /** `a`, a result of the as-written walk from listing `ds`, against `c`,
      the corrected result on the same chain: the walk stopped exactly
      when `c` holds a trap, and otherwise it returned the same chain and
      appended the as-written blame of that chain. */
  predicate Tracks(a: (Tree, Option<seq<Diag>>), c: Tree, ds: seq<Diag>)
  {
    && (a.1.None? <==> Anywhere(Trap, c))
    && (a.1.Some? ==> a.0 == c && a.1.value == ds + BlameAsWritten(c))
  }

  /** The same for one node. */
  predicate NodeTracks(a: (Node, Option<seq<Diag>>), c: Node, ds: seq<Diag>)
  {
    && (a.1.None? <==> AnywhereIn(Trap, c))
    && (a.1.Some? ==> a.0 == c && a.1.value == ds + NodeBlameAsWritten(c))
  }

  /** The as-written walk from listing `ds` tracks the corrected walk from
      any listing `e`. */
  lemma {:induction false} AsWrittenTracks(f: string -> bool, t: Tree, ds: seq<Diag>, e: seq<Diag>)
    ensures Tracks(Walk(t, Skip, CheckAsWritten(f), Some(ds)), Walk(t, Skip, Check(f), e).0, ds)
    decreases TreeSize(t), 1
  {
    if t == [] {
      assert ds + [] == ds;
    } else {
      var c1 := WalkNode(t[0], Skip, Check(f), e);
      var a1 := WalkNode(t[0], Skip, CheckAsWritten(f), Some(ds));
      NodeAsWrittenTracks(f, t[0], ds, e);
      var c := Walk(t, Skip, Check(f), e).0;
      var rest := Walk(t[1..], Skip, Check(f), c1.1).0;
      assert c == [c1.0] + rest;
      assert c[0] == c1.0 && c[1..] == rest;
      if a1.1.None? {
        CrashPersists(f, t[1..]);
      } else {
        AsWrittenTracks(f, t[1..], a1.1.value, c1.1);
        assert ds + NodeBlameAsWritten(c1.0) + BlameAsWritten(rest) == ds + (NodeBlameAsWritten(c1.0) + BlameAsWritten(rest));
      }
    }
  }

  lemma {:induction false} NodeAsWrittenTracks(f: string -> bool, n: Node, ds: seq<Diag>, e: seq<Diag>)
    ensures NodeTracks(WalkNode(n, Skip, CheckAsWritten(f), Some(ds)), WalkNode(n, Skip, Check(f), e).0, ds)
    decreases NodeSize(n), 0
  {
    var c0 := Walk(n.c0, Skip, Check(f), e);
    var c1 := Walk(n.c1, Skip, Check(f), c0.1);
    var c2 := Walk(n.c2, Skip, Check(f), c1.1);
    CheckStep(f, n, e);
    AsWrittenStep(f, n, Some(ds));
    var m := n.(c0 := c0.0, c1 := c1.0, c2 := c2.0);
    var mc := CheckNode(f, m, c2.1).0;
    assert mc.kind == m.kind && mc.c0 == c0.0 && mc.c1 == c1.0 && mc.c2 == c2.0;
    var a0 := Walk(n.c0, Skip, CheckAsWritten(f), Some(ds));
    AsWrittenTracks(f, n.c0, ds, e);
    if a0.1.None? {
      CrashPersists(f, n.c1);
      CrashPersists(f, n.c2);
    } else {
      var a1 := Walk(n.c1, Skip, CheckAsWritten(f), a0.1);
      AsWrittenTracks(f, n.c1, a0.1.value, c0.1);
      if a1.1.None? {
        CrashPersists(f, n.c2);
      } else {
        var a2 := Walk(n.c2, Skip, CheckAsWritten(f), a1.1);
        AsWrittenTracks(f, n.c2, a1.1.value, c1.1);
        if a2.1.Some? {
          assert n.(c0 := a0.0, c1 := a1.0, c2 := a2.0) == m;
          HookTracks(f, m, c2.1, ds, a2.1.value);
        }
      }
    }
  }

  /** The last step of a node: both hooks on the node over its checked
      children. */
  lemma HookTracks(f: string -> bool, m: Node, e: seq<Diag>, ds: seq<Diag>, d: seq<Diag>)
    requires !Anywhere(Trap, m.c0) && !Anywhere(Trap, m.c1) && !Anywhere(Trap, m.c2)
    requires d == ds + BlameAsWritten(m.c0) + BlameAsWritten(m.c1) + BlameAsWritten(m.c2)
    ensures NodeTracks(CheckNodeAsWritten(f, m, Some(d)), CheckNode(f, m, e).0, ds)
  {
    var mc := CheckNode(f, m, e).0;
    assert mc.kind == m.kind && mc.c0 == m.c0 && mc.c1 == m.c1 && mc.c2 == m.c2;
    ComplaintIgnoresOwnType(m, mc.ty);
    assert ComplaintAsWritten(mc) == ComplaintAsWritten(m);
    Regroup(ds, BlameAsWritten(m.c0), BlameAsWritten(m.c1), BlameAsWritten(m.c2), ComplaintAsWritten(m));
    if !IntegerLoop(m) {
      assert CheckNode(f, m, d).0 == mc;
    }
  }

  /** Without a trap the two blames differ only in lines; without an
      integer-tested loop they are equal. */
  lemma {:induction false} BlameLinesOnly(t: Tree)
    ensures !Anywhere(Trap, t) ==> Unlined(BlameAsWritten(t)) == Unlined(Blame(t))
    ensures !Anywhere(IntegerLoop, t) ==> !Anywhere(Trap, t) && BlameAsWritten(t) == Blame(t)
    decreases TreeSize(t), 1
  {
    if t != [] {
      NodeBlameLinesOnly(t[0]);
      BlameLinesOnly(t[1..]);
      UnlinedAppend(NodeBlameAsWritten(t[0]), BlameAsWritten(t[1..]));
      UnlinedAppend(NodeBlame(t[0]), Blame(t[1..]));
    }
  }

  lemma {:induction false} NodeBlameLinesOnly(n: Node)
    ensures !AnywhereIn(Trap, n) ==> Unlined(NodeBlameAsWritten(n)) == Unlined(NodeBlame(n))
    ensures !AnywhereIn(IntegerLoop, n) ==> !AnywhereIn(Trap, n) && NodeBlameAsWritten(n) == NodeBlame(n)
    decreases NodeSize(n), 0
  {
    BlameLinesOnly(n.c0);
    BlameLinesOnly(n.c1);
    BlameLinesOnly(n.c2);
    if !AnywhereIn(Trap, n) {
      assert Unlined(ComplaintAsWritten(n)) == Unlined(Complaint(n));
      var a := BlameAsWritten(n.c0) + BlameAsWritten(n.c1) + BlameAsWritten(n.c2);
      var b := Blame(n.c0) + Blame(n.c1) + Blame(n.c2);
      UnlinedAppend(BlameAsWritten(n.c0), BlameAsWritten(n.c1));
      UnlinedAppend(BlameAsWritten(n.c0) + BlameAsWritten(n.c1), BlameAsWritten(n.c2));
      UnlinedAppend(a, ComplaintAsWritten(n));
      UnlinedAppend(Blame(n.c0), Blame(n.c1));
      UnlinedAppend(Blame(n.c0) + Blame(n.c1), Blame(n.c2));
      UnlinedAppend(b, Complaint(n));
    }
    if !AnywhereIn(IntegerLoop, n) {
      assert ComplaintAsWritten(n) == Complaint(n);
    }
  }

  /** The tree the parser's actions build for `while (x) ;` on line 3:
      rule 62 makes the identifier, rule 29 the NULL empty statement and
      rule 32 the loop. */
  function EmptyLoop(): (t: Tree)
    ensures |t| == 1 && t[0].kind == WhileK && t[0].c1 == [] && t[0].c2 == []
    ensures |t[0].c0| == 1 && t[0].c0[0].kind == IdK && t[0].c0[0].lineno == 3
    ensures t[0].c0[0].c0 == [] && t[0].c0[0].c1 == [] && t[0].c0[0].c2 == []
  {
    var tok := Actions.Token(Tables.MaxTok, "x", 0, 3);
    var id := Actions.Action(62, [[]], tok).value;
    var body := Actions.Action(29, [[]], tok).value;
    var loop := Actions.Action(32, [[], [], id, [], body], tok);
    assert loop.Some?;
    loop.value
  }

  /** A walk over a one-node chain is a walk over that node. */
  lemma SingleWalk<S(!new)>(x: Node, post: (Node, S) -> (Node, S), s: S)
    ensures Walk([x], Skip, post, s) == ([WalkNode(x, Skip, post, s).0], WalkNode(x, Skip, post, s).1)
  {
    var (n, s1) := WalkNode(x, Skip, post, s);
    assert [x][1..] == [] && [x][0] == x;
    assert Walk([], Skip, post, s1) == ([], s1);
    assert [n] + [] == [n];
  }

  /** A post-order walk over a childless node is the hook on that node. */
  lemma LeafVisit<S(!new)>(x: Node, post: (Node, S) -> (Node, S), s: S)
    requires x.c0 == [] && x.c1 == [] && x.c2 == []
    ensures WalkNode(x, Skip, post, s) == post(x, s)
  {
    assert AfterPre(x, x) == x;
    assert x.(c0 := [], c1 := [], c2 := []) == x;
  }

  /** A post-order walk over a loop whose only child is a childless test. */
  lemma LoopVisit<S(!new)>(w: Node, post: (Node, S) -> (Node, S), s: S)
    requires |w.c0| == 1 && w.c1 == [] && w.c2 == []
    requires w.c0[0].c0 == [] && w.c0[0].c1 == [] && w.c0[0].c2 == []
    ensures var (x, s1) := post(w.c0[0], s);
            WalkNode(w, Skip, post, s) == post(w.(c0 := [x]), s1)
  {
    assert AfterPre(w, w) == w;
    LeafVisit(w.c0[0], post, s);
    SingleWalk(w.c0[0], post, s);
  }

  /** As written, checking that loop dereferences NULL; the corrected
      checker reports the test at its line. */
  lemma EmptyLoopCrashes(f: string -> bool)
    ensures TypeCheckAsWritten(EmptyLoop(), f).1.None?
    ensures TypeCheck(EmptyLoop(), f).1 == [Diag(TypeDiag, 3, WhileNotBoolean)]
  {
    var t := EmptyLoop();
    var w := t[0];
    assert t == [w];
    SingleWalk(w, CheckAsWritten(f), Some([]));
    LoopVisit(w, CheckAsWritten(f), Some([]));
    SingleWalk(w, Check(f), []);
    LoopVisit(w, Check(f), []);
  }
}
