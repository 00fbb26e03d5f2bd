/**
 The syntax tree shared by the parser and the two analysis passes.

 A C `TreeNode *` is either NULL or the head of a chain of nodes linked
 through their `sibling` field; here such a chain is a `Tree`, a sequence
 of nodes, and the empty sequence is NULL. Every node has three child
 chains (MAXCHILDREN is 3).
 */
module Ast {

  datatype Option<T> = None | Some(value: T)

  /** Statement kinds (StmtK) followed by expression kinds (ExpK). */
  datatype NodeKind =
    | IfK | WhileK | AssignK | ReturnK | ParamsK | CallK | FuncK
    | OpK | ConstK | IdK | TypeK | VectorK

  /** The operator tags an `OpK` node can carry. */
  datatype Op = Plus | Minus | Times | Over | LtEq | Lt | Gt | GtEq | Equal | Diff

  /** The relational operators: an `OpK` node with one of these has type Boolean. */
  predicate IsRelational(op: Op)
  {
    op == Equal || op == Lt || op == Gt || op == Diff || op == LtEq || op == GtEq
  }

  /** A node's semantic type. `Unset` is the value a node carries before
      any action or pass assigns one. */
  datatype ExpType = Unset | Void | Integer | Boolean

  /** The C union `attr`: a name, an operator tag or a constant value. */
  datatype Attr = NoAttr | Name(name: string) | OpTag(op: Op) | Val(val: int)

  /** One tree node. `seen` is the `already_seem` flag the declaration
      resolver sets on a declared identifier. */
  datatype Node = Node(
    kind: NodeKind,
    attr: Attr,
    lineno: int,
    ty: ExpType,
    seen: bool,
    c0: seq<Node>,
    c1: seq<Node>,
    c2: seq<Node>)

  /** A sibling chain; `[]` is the NULL pointer. */
  type Tree = seq<Node>

  /** A node as `newStmtNode`/`newExpNode` hand it out: no attribute,
      no type, no children, flag clear, line taken from the scanner. */
  function NewNode(kind: NodeKind, lineno: int): (n: Node)
    ensures n.kind == kind && n.lineno == lineno
    ensures n.c0 == [] && n.c1 == [] && n.c2 == []
    ensures n.ty == Unset && !n.seen
  {
    Node(kind, NoAttr, lineno, Unset, false, [], [], [])
  }

  /** The `attr.name` of a node ("" when the attribute is not a name). */
  function NameOf(n: Node): string
  {
    if n.attr.Name? then n.attr.name else ""
  }

  /** The type of the head of a chain; `Unset` for the NULL chain. */
  function HeadType(t: Tree): ExpType
  {
    if t == [] then Unset else t[0].ty
  }

  /** Number of nodes in a chain, counting every descendant. */
  function TreeSize(t: Tree): nat
  {
    if t == [] then 0 else NodeSize(t[0]) + TreeSize(t[1..])
  }

  function NodeSize(n: Node): nat
  {
    1 + TreeSize(n.c0) + TreeSize(n.c1) + TreeSize(n.c2)
  }

  /** Diagnostics: the three line-numbered kinds and the unnumbered
      "main must be declared" report. */
  datatype DiagKind = SyntaxDiag | DeclarationDiag | TypeDiag | PlainDiag

  datatype Diag = Diag(kind: DiagKind, line: int, msg: string)
}
