/**
 The declaration resolver `buildSymtab`: a pre-order walk that registers
 functions and variables in the symbol table and reports undeclared and
 duplicate names. The file-level statics of the C code (`location`,
 `scope`, `main_already_seem`) and the diagnostics it writes travel in an
 explicit context.
 */
module Resolver {
  import opened Ast
  import opened SymTab
  import opened Traverse

  /** The resolver's state: symbol table, next memory location, current
      scope, whether a function named "main" was met, and the diagnostics
      written so far (`Error` is set exactly when there is one). */
  datatype Ctx = Ctx(tab: Table, location: int, scope: string, mainSeen: bool, diags: seq<Diag>)

  /** The statics as the program starts: location 0, global scope. */
  const Start: Ctx := Ctx(map[], 0, GlobalScope, false, [])

  const CallUndeclared: string := "function called was not declared"
  const FuncDuplicate: string := "name already used by another function"
  const VarUndeclared: string := "variable not declared in this scope"
  const VarDuplicate: string :=
    "name already used by another variable previosly declared in this scope or by another function"
  const VoidVariable: string := "variable must not be declared as void"
  const MainMissing: string := "main must be declared"

  /** `declarationError`: one diagnostic at the node's line. */
  function DeclarationError(c: Ctx, n: Node, msg: string): (r: Ctx)
    ensures r.tab == c.tab && r.location == c.location && r.scope == c.scope && r.mainSeen == c.mainSeen
    ensures c.diags <= r.diags && |r.diags| == |c.diags| + 1
    ensures r.diags[|c.diags|].kind == DeclarationDiag && r.diags[|c.diags|].line == n.lineno
    ensures r.diags[|c.diags|].msg == msg
  {
    c.(diags := c.diags + [Diag(DeclarationDiag, n.lineno, msg)])
  }

  /** The declaration node with the `already_seem` flag of its declared
      identifier (the head of child 0) set. */
  function MarkDeclared(n: Node): (r: Node)
    requires n.c0 != []
    ensures r == n.(c0 := r.c0) && |r.c0| == |n.c0| && r.c0[1..] == n.c0[1..]
    ensures r.c0[0] == n.c0[0].(seen := true)
  {
    n.(c0 := [n.c0[0].(seen := true)] + n.c0[1..])
  }

  /** `insertNode`, the pre-order hook. It returns the node (with the
      declared identifier marked after a successful variable declaration)
      and the updated context. */
  function InsertNode(n: Node, c: Ctx): (r: (Node, Ctx))
    ensures r.0 == n || (n.c0 != [] && r.0 == MarkDeclared(n))
    ensures r.1.location == c.location || r.1.location == c.location + 1
    ensures r.1.diags == c.diags || |r.1.diags| == |c.diags| + 1
    ensures n.kind != FuncK ==> r.1.scope == c.scope && r.1.mainSeen == c.mainSeen
    // A call or a use of an undeclared name is reported and changes nothing else.
    ensures n.kind == CallK ==>
              r == (n, if Declared(c.tab, NameOf(n), c.scope) then c else DeclarationError(c, n, CallUndeclared))
    ensures n.kind == IdK && !Declared(c.tab, NameOf(n), c.scope) ==>
              r == (n, DeclarationError(c, n, VarUndeclared))
    // A use of a declared name records one more reference line, once.
    ensures n.kind == IdK && Declared(c.tab, NameOf(n), c.scope) ==>
              && r.0 == n && r.1.diags == c.diags && r.1.location == c.location
              && (n.seen ==> r.1.tab == c.tab)
              && (!n.seen ==> r.1.tab == Insert(c.tab, NameOf(n), n.lineno, 0, c.scope, " ", " "))
    // A function declaration opens its scope and is registered once, globally.
    ensures n.kind == FuncK ==>
              && r.0 == n && r.1.scope == NameOf(n)
              && (r.1.mainSeen <==> c.mainSeen || NameOf(n) == "main")
              && ((NameOf(n), GlobalScope) in c.tab <==> r.1.diags != c.diags)
              && ((NameOf(n), GlobalScope) in c.tab ==> r.1.tab == c.tab && r.1.location == c.location)
              && ((NameOf(n), GlobalScope) in c.tab ==>
                    r.1 == DeclarationError(c.(scope := NameOf(n), mainSeen := c.mainSeen || NameOf(n) == "main"),
                                            n, FuncDuplicate))
              && ((NameOf(n), GlobalScope) !in c.tab ==>
                    && r.1.location == c.location + 1
                    && r.1.tab == c.tab[(NameOf(n), GlobalScope) :=
                         Entry([n.lineno], c.location, "function", if n.ty == Integer then "int" else "void")])
    // An integer variable declaration registers the declared identifier in
    // the current scope unless the name is visible there already.
    ensures n.kind == TypeK && n.ty == Integer && n.c0 != [] ==>
              var id := NameOf(n.c0[0]);
              && Declared(r.1.tab, id, c.scope)
              && (Declared(c.tab, id, c.scope) <==> r.1.diags != c.diags)
              && (Declared(c.tab, id, c.scope) ==> r == (n, DeclarationError(c, n, VarDuplicate)))
              && (!Declared(c.tab, id, c.scope) ==>
                    && r.0 == MarkDeclared(n) && r.1.location == c.location + 1
                    && r.1.tab == c.tab[(id, c.scope) := Entry([n.c0[0].lineno], c.location, "var", "int")])
    ensures n.kind == TypeK && n.ty == Void ==> r == (n, DeclarationError(c, n, VoidVariable))
    ensures n.kind == TypeK && n.ty !in {Integer, Void} ==> r == (n, c)
    ensures n.kind !in {CallK, FuncK, IdK, TypeK} ==> r == (n, c)
  {
    match n.kind
    case CallK =>
      if Declared(c.tab, NameOf(n), c.scope) then (n, c)
      else (n, DeclarationError(c, n, CallUndeclared))
    case FuncK =>
      var name := NameOf(n);
      var c1 := c.(scope := name, mainSeen := c.mainSeen || name == "main");
      if !Declared(c.tab, name, GlobalScope) then
        var typ := if n.ty == Integer then "int" else "void";
        (n, c1.(tab := Insert(c.tab, name, n.lineno, c.location, GlobalScope, "function", typ),
                location := c.location + 1))
      else (n, DeclarationError(c1, n, FuncDuplicate))
    case IdK =>
      if !Declared(c.tab, NameOf(n), c.scope) then (n, DeclarationError(c, n, VarUndeclared))
      else if n.seen then (n, c)
      else (n, c.(tab := Insert(c.tab, NameOf(n), n.lineno, 0, c.scope, " ", " ")))
    case TypeK =>
      if n.ty == Integer then
        if n.c0 == [] then (n, c)
        else
          var id := n.c0[0];
          if !Declared(c.tab, NameOf(id), c.scope) then
            (MarkDeclared(n),
             c.(tab := Insert(c.tab, NameOf(id), id.lineno, c.location, c.scope, "var", "int"),
                location := c.location + 1))
          else (n, DeclarationError(c, n, VarDuplicate))
      else if n.ty == Void then (n, DeclarationError(c, n, VoidVariable))
      else (n, c)
    case _ => (n, c)
  }

  /** `mainError`: reports a program without `main`. */
  function MainError(c: Ctx): (r: Ctx)
    ensures r.tab == c.tab && r.location == c.location && r.scope == c.scope && r.mainSeen == c.mainSeen
    ensures c.diags <= r.diags
    ensures |r.diags| == |c.diags| + (if c.mainSeen then 0 else 1)
    ensures !c.mainSeen ==> r.diags[|c.diags|].kind == PlainDiag && r.diags[|c.diags|].msg == MainMissing
  {
    if c.mainSeen then c else c.(diags := c.diags + [Diag(PlainDiag, 0, MainMissing)])
  }

  /** `buildSymtab`: the pre-order walk with `insertNode`; the missing-main
      check runs only when `TraceAnalyze` is set. */
  function BuildSymtab(t: Tree, c: Ctx, traceAnalyze: bool): (r: (Tree, Ctx))
    ensures Unmarked(r.0) == Unmarked(t)
    ensures r.1.mainSeen == (c.mainSeen || DeclaresMain(t))
    ensures c.diags <= r.1.diags
    ensures traceAnalyze && !r.1.mainSeen ==>
              |r.1.diags| > |c.diags| && r.1.diags[|r.1.diags| - 1] == Diag(PlainDiag, 0, MainMissing)
    ensures !traceAnalyze || r.1.mainSeen ==>
              forall i :: |c.diags| <= i < |r.1.diags| ==> r.1.diags[i].kind == DeclarationDiag
  {
    ResolveKeepsTree(t, c);
    WalkFindsMain(t, c);
    WalkDiagnosesDeclarations(t, c);
    var w := Walk(t, InsertNode, Skip, c);
    if traceAnalyze then (w.0, MainError(w.1)) else w
  }

  // ---------------------------------------------------------------------
  // The walk only ever marks identifiers.
  // ---------------------------------------------------------------------

  /** A chain with every `already_seem` flag cleared. */
  function Unmarked(t: Tree): Tree
  {
    if t == [] then [] else [UnmarkedNode(t[0])] + Unmarked(t[1..])
  }

  function UnmarkedNode(n: Node): Node
  {
    n.(seen := false, c0 := Unmarked(n.c0), c1 := Unmarked(n.c1), c2 := Unmarked(n.c2))
  }

  /** Marking the declared identifier changes neither the node's size nor
      anything but that flag. */
  lemma {:induction false} MarkDeclaredShape(n: Node)
    requires n.c0 != []
    ensures NodeSize(MarkDeclared(n)) == NodeSize(n)
    ensures UnmarkedNode(MarkDeclared(n)) == UnmarkedNode(n)
    ensures DeclaresMain(MarkDeclared(n).c0) == DeclaresMain(n.c0)
  {
    var m := MarkDeclared(n);
    var x := n.c0[0];
    var x' := x.(seen := true);
    assert m.c0[0] == x' && m.c0[1..] == n.c0[1..];
    assert NodeSize(x') == NodeSize(x);
    assert TreeSize(m.c0) == TreeSize(n.c0);
    assert UnmarkedNode(x') == UnmarkedNode(x);
    assert Unmarked(m.c0) == Unmarked(n.c0);
    assert NodeDeclaresMain(x') == NodeDeclaresMain(x);
  }

  /** The pre hook's node is the one the walk descends into. */
  lemma {:induction false} InsertNodeShape(n: Node, c: Ctx)
    ensures AfterPre(n, InsertNode(n, c).0) == InsertNode(n, c).0
    ensures UnmarkedNode(InsertNode(n, c).0) == UnmarkedNode(n)
    ensures DeclaresMain(InsertNode(n, c).0.c0) == DeclaresMain(n.c0)
    ensures NodeSize(InsertNode(n, c).0) == NodeSize(n)
  {
    if InsertNode(n, c).0 != n {
      MarkDeclaredShape(n);
    }
  }

  /** Resolution returns the tree it was given, up to `already_seem` flags. */
  lemma {:induction false} ResolveKeepsTree(t: Tree, c: Ctx)
    ensures Unmarked(Walk(t, InsertNode, Skip, c).0) == Unmarked(t)
    decreases TreeSize(t), 1
  {
    if t != [] {
      var (n, c1) := WalkNode(t[0], InsertNode, Skip, c);
      ResolveNodeKeepsTree(t[0], c);
      ResolveKeepsTree(t[1..], c1);
    }
  }

  lemma {:induction false} ResolveNodeKeepsTree(n: Node, c: Ctx)
    ensures UnmarkedNode(WalkNode(n, InsertNode, Skip, c).0) == UnmarkedNode(n)
    decreases NodeSize(n), 0
  {
    var (p, c1) := InsertNode(n, c);
    InsertNodeShape(n, c);
    var (k0, c2) := Walk(p.c0, InsertNode, Skip, c1);
    var (k1, c3) := Walk(p.c1, InsertNode, Skip, c2);
    var (k2, c4) := Walk(p.c2, InsertNode, Skip, c3);
    ResolveKeepsTree(p.c0, c1);
    ResolveKeepsTree(p.c1, c2);
    ResolveKeepsTree(p.c2, c3);
    assert WalkNode(n, InsertNode, Skip, c).0 == p.(c0 := k0, c1 := k1, c2 := k2);
    assert UnmarkedNode(p.(c0 := k0, c1 := k1, c2 := k2)) == UnmarkedNode(p);
  }

  // ---------------------------------------------------------------------
  // `main_already_seem` is set exactly when the tree declares main.
  // ---------------------------------------------------------------------

  /** Some function node named "main" occurs in the chain. */
  predicate DeclaresMain(t: Tree)
  {
    t != [] && (NodeDeclaresMain(t[0]) || DeclaresMain(t[1..]))
  }

  predicate NodeDeclaresMain(n: Node)
  {
    (n.kind == FuncK && NameOf(n) == "main")
    || DeclaresMain(n.c0) || DeclaresMain(n.c1) || DeclaresMain(n.c2)
  }

  lemma {:induction false} WalkFindsMain(t: Tree, c: Ctx)
    ensures Walk(t, InsertNode, Skip, c).1.mainSeen == (c.mainSeen || DeclaresMain(t))
    decreases TreeSize(t), 1
  {
    if t != [] {
      var (n, c1) := WalkNode(t[0], InsertNode, Skip, c);
      WalkNodeFindsMain(t[0], c);
      WalkFindsMain(t[1..], c1);
    }
  }

  lemma {:induction false} WalkNodeFindsMain(n: Node, c: Ctx)
    ensures WalkNode(n, InsertNode, Skip, c).1.mainSeen == (c.mainSeen || NodeDeclaresMain(n))
    decreases NodeSize(n), 0
  {
    var (p, c1) := InsertNode(n, c);
    InsertNodeShape(n, c);
    var (k0, c2) := Walk(p.c0, InsertNode, Skip, c1);
    var (k1, c3) := Walk(p.c1, InsertNode, Skip, c2);
    var (k2, c4) := Walk(p.c2, InsertNode, Skip, c3);
    WalkFindsMain(p.c0, c1);
    WalkFindsMain(p.c1, c2);
    WalkFindsMain(p.c2, c3);
    assert p.c1 == n.c1 && p.c2 == n.c2;
    assert c1.mainSeen == (c.mainSeen || (n.kind == FuncK && NameOf(n) == "main"));
    assert WalkNode(n, InsertNode, Skip, c).1 == c4;
  }

  /** With the trace flag set, "main must be declared" is reported exactly
      when no function named main occurs in the program. */
  lemma MainReportedIffMissing(t: Tree)
    ensures var r := BuildSymtab(t, Start, true).1;
            (exists i :: 0 <= i < |r.diags| && r.diags[i].kind == PlainDiag) <==> !DeclaresMain(t)
  {
  }

  // ---------------------------------------------------------------------
  // Context invariants: the table and the diagnostics only grow, and
  // declared locations are distinct and below the counter.
  // ---------------------------------------------------------------------

  /** `u` extends table `t`: no key disappears and an entry only gains
      reference lines. */
  ghost predicate TableGrows(t: Table, u: Table)
  {
    && t.Keys <= u.Keys
    && (forall k :: k in t ==>
          u[k].loc == t[k].loc && u[k].kind == t[k].kind &&
          u[k].typ == t[k].typ && t[k].lines <= u[k].lines)
  }

  /** `y` extends `x`: the table grows, the counter does not go back,
      diagnostics are only appended and all of them are declaration
      errors, and main stays seen. */
  ghost predicate Grows(x: Ctx, y: Ctx)
  {
    && TableGrows(x.tab, y.tab)
    && x.location <= y.location
    && x.diags <= y.diags
    && (forall i :: |x.diags| <= i < |y.diags| ==> y.diags[i].kind == DeclarationDiag)
    && (x.mainSeen ==> y.mainSeen)
  }

  /** A declaration entry: a function or a variable, not a use-site record. */
  predicate IsDeclaration(e: Entry)
  {
    e.kind != " "
  }

  /** Every declaration has its own location, below the counter. */
  ghost predicate Locations(c: Ctx)
  {
    && 0 <= c.location
    && (forall k :: k in c.tab && IsDeclaration(c.tab[k]) ==> 0 <= c.tab[k].loc < c.location)
    && (forall k1, k2 ::
          (k1 in c.tab && k2 in c.tab && k1 != k2 && IsDeclaration(c.tab[k1]) && IsDeclaration(c.tab[k2]))
          ==> c.tab[k1].loc != c.tab[k2].loc)
  }

  ghost predicate Evolves(x: Ctx, y: Ctx)
  {
    Grows(x, y) && (Locations(x) ==> Locations(y))
  }

  lemma InsertGrows(t: Table, name: string, line: int, loc: int, scope: string, kind: string, typ: string)
    ensures TableGrows(t, Insert(t, name, line, loc, scope, kind, typ))
  {
  }

  /** A use-site record never disturbs the declared locations. */
  lemma {:induction false} UseKeepsLocations(c: Ctx, name: string, line: int)
    requires Locations(c)
    ensures Locations(c.(tab := Insert(c.tab, name, line, 0, c.scope, " ", " ")))
  {
    var u := Insert(c.tab, name, line, 0, c.scope, " ", " ");
    forall k | k in u && IsDeclaration(u[k])
      ensures k in c.tab && u[k] == c.tab[k].(lines := u[k].lines)
    {
      InsertedKey(c.tab, name, line, 0, c.scope, " ", " ", k);
    }
  }

  /** A declaration at the counter, followed by an increment, keeps the
      declared locations distinct and below the counter. */
  lemma {:induction false} DeclarationKeepsLocations(c: Ctx, name: string, line: int, scope: string,
                                                     kind: string, typ: string)
    requires Locations(c) && kind != " "
    ensures Locations(c.(tab := Insert(c.tab, name, line, c.location, scope, kind, typ),
                         location := c.location + 1))
  {
    var u := Insert(c.tab, name, line, c.location, scope, kind, typ);
    forall k | k in u && IsDeclaration(u[k])
      ensures 0 <= u[k].loc < c.location + 1
    {
      InsertedKey(c.tab, name, line, c.location, scope, kind, typ, k);
      if k in c.tab {
        assert IsDeclaration(c.tab[k]);
      }
    }
    forall k1, k2 | k1 in u && k2 in u && k1 != k2 && IsDeclaration(u[k1]) && IsDeclaration(u[k2])
      ensures u[k1].loc != u[k2].loc
    {
      InsertedKey(c.tab, name, line, c.location, scope, kind, typ, k1);
      InsertedKey(c.tab, name, line, c.location, scope, kind, typ, k2);
      if k1 in c.tab {
        assert IsDeclaration(c.tab[k1]);
      }
      if k2 in c.tab {
        assert IsDeclaration(c.tab[k2]);
      }
    }
  }

  /** An old key keeps its location and kind; the only new key is the
      inserted one, with a fresh entry. */
  lemma InsertedKey(t: Table, name: string, line: int, loc: int, scope: string, kind: string, typ: string,
                    k: (string, string))
    requires k in Insert(t, name, line, loc, scope, kind, typ)
    ensures var u := Insert(t, name, line, loc, scope, kind, typ);
            && (k in t ==> u[k].loc == t[k].loc && u[k].kind == t[k].kind)
            && (k !in t ==> k == (name, scope) && u[k] == Entry([line], loc, kind, typ))
  {
  }

  /** Appending one declaration error is an evolution. */
  lemma ReportEvolves(c: Ctx, d: Ctx)
    requires d.tab == c.tab && d.location == c.location && (c.mainSeen ==> d.mainSeen)
    requires |d.diags| == |c.diags| + 1 && d.diags[..|c.diags|] == c.diags
    requires d.diags[|c.diags|].kind == DeclarationDiag
    ensures Evolves(c, d)
  {
    assert c.diags <= d.diags;
  }

  /** Registering a function or variable at the counter is an evolution. */
  lemma DeclareEvolves(c: Ctx, d: Ctx, name: string, line: int, scope: string, kind: string, typ: string)
    requires kind != " "
    requires d.tab == Insert(c.tab, name, line, c.location, scope, kind, typ)
    requires d.location == c.location + 1 && d.diags == c.diags && (c.mainSeen ==> d.mainSeen)
    ensures Evolves(c, d)
  {
    InsertGrows(c.tab, name, line, c.location, scope, kind, typ);
    if Locations(c) {
      DeclarationKeepsLocations(c, name, line, scope, kind, typ);
      assert Locations(c.(tab := d.tab, location := d.location));
    }
  }

  lemma {:induction false} InsertNodeEvolves(n: Node, c: Ctx)
    ensures Evolves(c, InsertNode(n, c).1)
  {
    var d := InsertNode(n, c).1;
    if d == c {
    } else if n.kind == FuncK {
      var name := NameOf(n);
      if (name, GlobalScope) !in c.tab {
        var typ := if n.ty == Integer then "int" else "void";
        DeclareEvolves(c, d, name, n.lineno, GlobalScope, "function", typ);
      } else {
        ReportEvolves(c, d);
      }
    } else if n.kind == IdK && Declared(c.tab, NameOf(n), c.scope) {
      InsertGrows(c.tab, NameOf(n), n.lineno, 0, c.scope, " ", " ");
      if Locations(c) {
        UseKeepsLocations(c, NameOf(n), n.lineno);
        assert d == c.(tab := Insert(c.tab, NameOf(n), n.lineno, 0, c.scope, " ", " "));
      }
    } else if n.kind == TypeK && n.ty == Integer && n.c0 != [] && !Declared(c.tab, NameOf(n.c0[0]), c.scope) {
      var id := n.c0[0];
      DeclareEvolves(c, d, NameOf(id), id.lineno, c.scope, "var", "int");
    } else {
      ReportEvolves(c, d);
    }
  }

  lemma {:induction false} EvolvesIsPreorder()
    ensures PreorderRel(Evolves)
  {
    forall x, y, z | Evolves(x, y) && Evolves(y, z)
      ensures Evolves(x, z)
    {
      assert x.diags <= y.diags <= z.diags;
      forall k | k in x.tab
        ensures x.tab[k].lines <= z.tab[k].lines
      {
        assert x.tab[k].lines <= y.tab[k].lines <= z.tab[k].lines;
      }
      forall i | |x.diags| <= i < |z.diags|
        ensures z.diags[i].kind == DeclarationDiag
      {
        if i < |y.diags| {
          assert z.diags[i] == y.diags[i];
        }
      }
    }
  }

  /** Over a whole walk, the context only grows and keeps declared
      locations distinct. */
  lemma WalkEvolves(t: Tree, c: Ctx)
    ensures Evolves(c, Walk(t, InsertNode, Skip, c).1)
  {
    EvolvesIsPreorder();
    forall n, x
      ensures Evolves(x, InsertNode(n, x).1)
    {
      InsertNodeEvolves(n, x);
    }
    assert HookRespects(Skip, Evolves);
    WalkRespects(t, InsertNode, Skip, c, Evolves);
  }

  /** Every diagnostic of the walk is a declaration error. */
  lemma WalkDiagnosesDeclarations(t: Tree, c: Ctx)
    ensures c.diags <= Walk(t, InsertNode, Skip, c).1.diags
    ensures var d := Walk(t, InsertNode, Skip, c).1.diags;
            forall i :: |c.diags| <= i < |d| ==> d[i].kind == DeclarationDiag
  {
    WalkEvolves(t, c);
  }

  /** From the start state, every function and variable of the resolved
      program has its own memory location, below the final counter. */
  lemma DistinctLocations(t: Tree, traceAnalyze: bool)
    ensures Locations(BuildSymtab(t, Start, traceAnalyze).1)
  {
    WalkEvolves(t, Start);
  }
}
