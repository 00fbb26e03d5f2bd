/**
 The synthesis actions the parser runs when it reduces by a grammar rule.
 Each takes the semantic values of the rule's right-hand side (`$1`,
 `$2`, ... as `rhs[0]`, `rhs[1]`, ...), each a sibling chain, and builds
 the value of the left-hand side. An action that would dereference a NULL
 operand returns `None`; the C-minus grammar never hands such operands to
 these rules, but the model does not rely on that.

 Rule numbers are those of the generated parser:
   1 $accept -> PROGRAM $end          2 PROGRAM -> stmt_seq
   3 stmt_seq -> stmt                 4 stmt_seq -> stmt_seq stmt
   5 stmt -> var_stmt                 6 stmt -> func_stmt
   7 var_stmt -> type_id id ;         8 var_stmt -> type_id id [ num ] ;
   9 type_id -> INT                  10 type_id -> VOID
  11 func_stmt -> type_id id ( params ) comp_stmt
  12 params -> param_list            13 params -> VOID
  14 param_list -> param_list , param 15 param_list -> param
  16 param -> type_id id             17 param -> type_id id [ ]
  18 comp_stmt -> { local_stmt stmtem_seq }
  19 local_stmt -> local_stmt var_stmt 20 local_stmt -> empty
  21 stmtem_seq -> stmtem_seq stmtem 22 stmtem_seq -> empty
  23-27 stmtem -> exp_stmt | comp_stmt | if_stmt | while_stmt | return_stmt
  28 exp_stmt -> exp ;               29 exp_stmt -> ;
  30 if_stmt -> IF ( exp ) stmtem    31 if_stmt -> IF ( exp ) stmtem ELSE stmtem
  32 while_stmt -> WHILE ( exp ) stmtem
  33 return_stmt -> RETURN ;         34 return_stmt -> RETURN exp ;
  35 exp -> var = exp                36 exp -> simples_exp
  37 var -> id                       38 var -> id [ exp ]
  39 simples_exp -> soma_exp relacional soma_exp   40 simples_exp -> soma_exp
  41-46 relacional -> <= | < | > | >= | == | !=
  47 soma_exp -> soma_exp + term     48 soma_exp -> soma_exp - term
  49 soma_exp -> term                50 term -> term * factor
  51 term -> term / factor           52 term -> factor
  53 factor -> ( exp )               54-56 factor -> var | call | num
  57 call -> id ( args )             58 args -> arg_list      59 args -> empty
  60 arg_list -> arg_list , exp      61 arg_list -> exp
  62 id -> ID                        63 num -> NUM             64 empty ->
 */
module Actions {
  import opened Ast
  import Tables

  /** The scanner's view of the token that was read last: its text
      (`tokenString`), its numeric value and its line (`lineno`). */
  datatype Token = Token(code: int, text: string, value: int, line: int)

  /** `$$ = $1; $$->child[0] = $2` (rules 7, 16 and 17). */
  function HangUnder(t: Tree, c: Tree): (r: Option<Tree>)
    ensures r.Some? <==> t != []
    ensures r.Some? ==> |r.value| == |t| && r.value[1..] == t[1..]
    ensures r.Some? ==> r.value[0] == t[0].(c0 := c)
  {
    if t == [] then None else Some([t[0].(c0 := c)] + t[1..])
  }

  /** Rule 7: a scalar declaration is the type node with the identifier
      as its first child. */
  function ScalarDecl(typ: Tree, id: Tree): (r: Option<Tree>)
    ensures r.Some? <==> typ != []
    ensures r.Some? ==> r.value != [] && r.value[0].kind == typ[0].kind
    ensures r.Some? ==> r.value[0].c0 == id
    ensures r.Some? ==> r.value[0].c1 == typ[0].c1 && r.value[0].c2 == typ[0].c2
    ensures r.Some? ==> r.value[0].ty == typ[0].ty && r.value[0].attr == typ[0].attr
  {
    HangUnder(typ, id)
  }

  /** Rule 8: an array declaration is built like a scalar one, and the
      size constant hangs under the identifier; no Vector node appears. */
  function ArrayDecl(typ: Tree, id: Tree, num: Tree): (r: Option<Tree>)
    ensures r.Some? <==> typ != [] && id != []
    ensures r.Some? ==> r.value != [] && r.value[0].kind == typ[0].kind
    ensures r.Some? ==> |r.value[0].c0| == |id| && r.value[0].c0[0].kind == id[0].kind
    ensures r.Some? ==> r.value[0].c0[0].attr == id[0].attr && r.value[0].c0[0].c0 == num
    ensures r.Some? ==> r.value[0].ty == typ[0].ty && r.value[0].attr == typ[0].attr
    ensures r.Some? ==> r.value[0].c1 == typ[0].c1 && r.value[0].c2 == typ[0].c2
    ensures r.Some? ==> |r.value| == |typ| && r.value[1..] == typ[1..]
    ensures r.Some? ==> r.value[0].c0 == [id[0].(c0 := num)] + id[1..]
  {
    if id == [] then None
    else HangUnder(typ, [id[0].(c0 := num)] + id[1..])
  }

  /** Rules 9 and 10: the type keyword becomes a `TypeK` node typed
      Integer or Void and named by the keyword's text. */
  function TypeSpec(isInt: bool, text: string, line: int): (r: Tree)
    ensures |r| == 1 && r[0].kind == TypeK && NameOf(r[0]) == text
    ensures r[0].ty == (if isInt then Integer else Void)
    ensures r[0].c0 == [] && r[0].c1 == [] && r[0].c2 == []
  {
    [NewNode(TypeK, line).(ty := if isInt then Integer else Void, attr := Name(text))]
  }

  /** Rule 11: a function declaration takes its name from the identifier,
      has the parameters as child 1 and the body as child 2, and is typed
      Integer exactly when the type keyword's text is "int". */
  function FuncDecl(typ: Tree, id: Tree, params: Tree, body: Tree, line: int): (r: Option<Tree>)
    ensures r.Some? <==> typ != [] && id != []
    ensures r.Some? ==> |r.value| == 1 && r.value[0].kind == FuncK
    ensures r.Some? ==> r.value[0].attr == id[0].attr
    ensures r.Some? ==> r.value[0].c0 == [] && r.value[0].c1 == params && r.value[0].c2 == body
    ensures r.Some? ==> (r.value[0].ty == Integer <==> NameOf(typ[0]) == "int")
    ensures r.Some? ==> (r.value[0].ty == Void <==> NameOf(typ[0]) != "int")
  {
    if typ == [] || id == [] then None
    else
      var f := NewNode(FuncK, line).(attr := id[0].attr, c1 := params, c2 := body);
      Some([f.(ty := if NameOf(typ[0]) == "int" then Integer else Void)])
  }

  /** Rule 12: a `ParamsK` node over the parameter chain. */
  function ParamsNode(list: Tree, line: int): (r: Tree)
    ensures |r| == 1 && r[0].kind == ParamsK && r[0].c0 == list
    ensures r[0].c1 == [] && r[0].c2 == []
  {
    [NewNode(ParamsK, line).(c0 := list)]
  }

  /** Rule 30: `If` without else sets only child 0 (test) and child 1. */
  function IfNode(cond: Tree, thenPart: Tree, line: int): (r: Tree)
    ensures |r| == 1 && r[0].kind == IfK && r[0].lineno == line
    ensures r[0].c0 == cond && r[0].c1 == thenPart && r[0].c2 == []
  {
    [NewNode(IfK, line).(c0 := cond, c1 := thenPart)]
  }

  /** Rule 31: `If` with else also sets child 2. */
  function IfElseNode(cond: Tree, thenPart: Tree, elsePart: Tree, line: int): (r: Tree)
    ensures |r| == 1 && r[0].kind == IfK && r[0].lineno == line
    ensures r[0].c0 == cond && r[0].c1 == thenPart && r[0].c2 == elsePart
  {
    [NewNode(IfK, line).(c0 := cond, c1 := thenPart, c2 := elsePart)]
  }

  /** Rule 32: `While` has the test as child 0 and the body as child 1. */
  function WhileNode(cond: Tree, body: Tree, line: int): (r: Tree)
    ensures |r| == 1 && r[0].kind == WhileK && r[0].lineno == line
    ensures r[0].c0 == cond && r[0].c1 == body && r[0].c2 == []
  {
    [NewNode(WhileK, line).(c0 := cond, c1 := body)]
  }

  /** Rules 33 and 34: `Return`, with the value as child 0 when present. */
  function ReturnNode(value: Tree, line: int): (r: Tree)
    ensures |r| == 1 && r[0].kind == ReturnK
    ensures r[0].c0 == value && r[0].c1 == [] && r[0].c2 == []
  {
    [NewNode(ReturnK, line).(c0 := value)]
  }

  /** Rule 35: `Assign` has the target as child 0 and the value as child 1. */
  function AssignNode(target: Tree, value: Tree, line: int): (r: Tree)
    ensures |r| == 1 && r[0].kind == AssignK && r[0].lineno == line
    ensures r[0].c0 == target && r[0].c1 == value && r[0].c2 == []
  {
    [NewNode(AssignK, line).(c0 := target, c1 := value)]
  }

  /** Rule 38: an indexed variable is a `VectorK` node named by the
      identifier, with the index as child 0. */
  function VectorNode(id: Tree, index: Tree, line: int): (r: Option<Tree>)
    ensures r.Some? <==> id != []
    ensures r.Some? ==> |r.value| == 1 && r.value[0].kind == VectorK
    ensures r.Some? ==> r.value[0].attr == id[0].attr && r.value[0].c0 == index
  {
    if id == [] then None
    else Some([NewNode(VectorK, line).(attr := id[0].attr, c0 := index)])
  }

  /** Rules 41-46: the relational token becomes a childless `OpK` node
      carrying the operator. */
  function RelOpNode(op: Op, line: int): (r: Tree)
    requires IsRelational(op)
    ensures |r| == 1 && r[0].kind == OpK && r[0].attr == OpTag(op)
    ensures r[0].c0 == [] && r[0].c1 == []
  {
    [NewNode(OpK, line).(attr := OpTag(op))]
  }

  /** Rule 39: a comparison is a fresh `OpK` node that copies the operator
      from the relational node, with the operands as children 0 and 1. */
  function CompareNode(lhs: Tree, rel: Tree, rhs: Tree, line: int): (r: Option<Tree>)
    ensures r.Some? <==> rel != []
    ensures r.Some? ==> |r.value| == 1 && r.value[0].kind == OpK
    ensures r.Some? ==> r.value[0].attr == rel[0].attr
    ensures r.Some? ==> r.value[0].c0 == lhs && r.value[0].c1 == rhs && r.value[0].c2 == []
  {
    if rel == [] then None
    else Some([NewNode(OpK, line).(attr := rel[0].attr, c0 := lhs, c1 := rhs)])
  }

  /** Rules 47, 48, 50 and 51: an arithmetic `OpK` node tagged with the
      rule's operator, left operand as child 0, right operand as child 1. */
  function ArithNode(op: Op, lhs: Tree, rhs: Tree, line: int): (r: Tree)
    requires op == Plus || op == Minus || op == Times || op == Over
    ensures |r| == 1 && r[0].kind == OpK && r[0].attr == OpTag(op)
    ensures !IsRelational(r[0].attr.op)
    ensures r[0].c0 == lhs && r[0].c1 == rhs && r[0].c2 == []
  {
    [NewNode(OpK, line).(attr := OpTag(op), c0 := lhs, c1 := rhs)]
  }

  /** Rule 57: a call is named by the identifier, arguments as child 0. */
  function CallNode(id: Tree, args: Tree, line: int): (r: Option<Tree>)
    ensures r.Some? <==> id != []
    ensures r.Some? ==> |r.value| == 1 && r.value[0].kind == CallK
    ensures r.Some? ==> r.value[0].attr == id[0].attr && r.value[0].c0 == args
  {
    if id == [] then None
    else Some([NewNode(CallK, line).(attr := id[0].attr, c0 := args)])
  }

  /** Rule 62: an identifier node named by the token text. */
  function IdNode(text: string, line: int): (r: Tree)
    ensures |r| == 1 && r[0].kind == IdK && NameOf(r[0]) == text && !r[0].seen
  {
    [NewNode(IdK, line).(attr := Name(text))]
  }

  /** Rule 63: a constant node carrying the token's value. */
  function ConstNode(value: int, line: int): (r: Tree)
    ensures |r| == 1 && r[0].kind == ConstK && r[0].attr == Val(value)
  {
    [NewNode(ConstK, line).(attr := Val(value))]
  }

  /** `t` is one node, fresh from `newStmtNode`/`newExpNode` on line
      `line`, of kind `k` and with child chains `a`, `b` and `c`. */
  predicate Built(t: Tree, k: NodeKind, line: int, a: Tree, b: Tree, c: Tree)
  {
    |t| == 1 && t[0].kind == k && t[0].lineno == line && t[0].c0 == a && t[0].c1 == b && t[0].c2 == c
  }

  /** Which of the functions below carries the action of a rule. */
  datatype RuleGroup = DeclarationGroup | StatementGroup | ExpressionGroup | ChainGroup

  function GroupOf(rule: int): RuleGroup
  {
    match rule
    case 7 | 8 | 9 | 10 | 11 | 12 | 16 | 17 => DeclarationGroup
    case 30 | 31 | 32 | 33 | 34 | 35 => StatementGroup
    case 38 | 39 | 41 | 42 | 43 | 44 | 45 | 46 | 47 | 48 | 50 | 51 | 57 | 62 | 63 => ExpressionGroup
    case _ => ChainGroup
  }

  /** The rules whose action passes `$1` up unchanged. */
  const PassRules: set<int> := {1, 2, 3, 5, 6, 15, 23, 24, 25, 26, 27, 28, 36, 37, 40, 49, 52, 54, 55, 56, 58, 59, 61}

  /** The rules whose action yields NULL. */
  const NullRules: set<int> := {13, 20, 22, 29, 64}

  /** Rules 7-17: which operand becomes which part of the declaration. */
  function DeclarationAction(rule: int, rhs: seq<Tree>, tok: Token): (r: Option<Tree>)
    requires GroupOf(rule) == DeclarationGroup && |rhs| == Tables.RhsLength(rule)
    ensures r.None? ==> [] in rhs
    ensures rule in {7, 16, 17} ==>
              && (r.Some? <==> rhs[0] != [])
              && (r.Some? ==> r.value == [rhs[0][0].(c0 := rhs[1])] + rhs[0][1..])
    ensures rule == 8 ==>
              && (r.Some? <==> rhs[0] != [] && rhs[1] != [])
              && (r.Some? ==> r.value == [rhs[0][0].(c0 := [rhs[1][0].(c0 := rhs[3])] + rhs[1][1..])] + rhs[0][1..])
    ensures rule in {9, 10} ==>
              && r.Some? && Built(r.value, TypeK, tok.line, [], [], [])
              && r.value[0].attr == Name(tok.text)
              && r.value[0].ty == (if rule == 9 then Integer else Void)
    ensures rule == 11 ==>
              && (r.Some? <==> rhs[0] != [] && rhs[1] != [])
              && (r.Some? ==> Built(r.value, FuncK, tok.line, [], rhs[3], rhs[5]) && r.value[0].attr == rhs[1][0].attr)
              && (r.Some? ==> (r.value[0].ty == Integer <==> NameOf(rhs[0][0]) == "int"))
    ensures rule == 12 ==> r.Some? && Built(r.value, ParamsK, tok.line, rhs[0], [], [])
  {
    var line := tok.line;
    match rule
    case 7 => ScalarDecl(rhs[0], rhs[1])
    case 8 => ArrayDecl(rhs[0], rhs[1], rhs[3])
    case 9 => Some(TypeSpec(true, tok.text, line))
    case 10 => Some(TypeSpec(false, tok.text, line))
    case 11 => FuncDecl(rhs[0], rhs[1], rhs[3], rhs[5], line)
    case 12 => Some(ParamsNode(rhs[0], line))
    case 16 => ScalarDecl(rhs[0], rhs[1])
    case 17 => ScalarDecl(rhs[0], rhs[1])
  }

  /** Rules 30-35: which operand becomes which child of the statement. */
  function StatementAction(rule: int, rhs: seq<Tree>, tok: Token): (r: Tree)
    requires GroupOf(rule) == StatementGroup && |rhs| == Tables.RhsLength(rule)
    ensures rule == 30 ==> Built(r, IfK, tok.line, rhs[2], rhs[4], [])
    ensures rule == 31 ==> Built(r, IfK, tok.line, rhs[2], rhs[4], rhs[6])
    ensures rule == 32 ==> Built(r, WhileK, tok.line, rhs[2], rhs[4], [])
    ensures rule == 33 ==> Built(r, ReturnK, tok.line, [], [], [])
    ensures rule == 34 ==> Built(r, ReturnK, tok.line, rhs[1], [], [])
    ensures rule == 35 ==> Built(r, AssignK, tok.line, rhs[0], rhs[2], [])
  {
    var line := tok.line;
    match rule
    case 30 => IfNode(rhs[2], rhs[4], line)
    case 31 => IfElseNode(rhs[2], rhs[4], rhs[6], line)
    case 32 => WhileNode(rhs[2], rhs[4], line)
    case 33 => ReturnNode([], line)
    case 34 => ReturnNode(rhs[1], line)
    case 35 => AssignNode(rhs[0], rhs[2], line)
  }

  /** Rules 38-63: which operand becomes which child of the expression,
      and which operator or name the node carries. */
  function ExpressionAction(rule: int, rhs: seq<Tree>, tok: Token): (r: Option<Tree>)
    requires GroupOf(rule) == ExpressionGroup && |rhs| == Tables.RhsLength(rule)
    ensures r.None? ==> [] in rhs
    ensures rule == 38 ==>
              && (r.Some? <==> rhs[0] != [])
              && (r.Some? ==> Built(r.value, VectorK, tok.line, rhs[2], [], []) && r.value[0].attr == rhs[0][0].attr)
    ensures rule == 39 ==>
              && (r.Some? <==> rhs[1] != [])
              && (r.Some? ==> Built(r.value, OpK, tok.line, rhs[0], rhs[2], []) && r.value[0].attr == rhs[1][0].attr)
    ensures 41 <= rule <= 46 ==>
              && r.Some? && Built(r.value, OpK, tok.line, [], [], [])
              && r.value[0].attr == OpTag([LtEq, Lt, Gt, GtEq, Equal, Diff][rule - 41])
    ensures rule in {47, 48, 50, 51} ==>
              && r.Some? && Built(r.value, OpK, tok.line, rhs[0], rhs[2], [])
              && r.value[0].attr == OpTag(map[47 := Plus, 48 := Minus, 50 := Times, 51 := Over][rule])
    ensures rule == 57 ==>
              && (r.Some? <==> rhs[0] != [])
              && (r.Some? ==> Built(r.value, CallK, tok.line, rhs[2], [], []) && r.value[0].attr == rhs[0][0].attr)
    ensures rule == 62 ==> r.Some? && Built(r.value, IdK, tok.line, [], [], []) && r.value[0].attr == Name(tok.text)
    ensures rule == 63 ==> r.Some? && Built(r.value, ConstK, tok.line, [], [], []) && r.value[0].attr == Val(tok.value)
  {
    var line := tok.line;
    match rule
    case 38 => VectorNode(rhs[0], rhs[2], line)
    case 39 => CompareNode(rhs[0], rhs[1], rhs[2], line)
    case 41 => Some(RelOpNode(LtEq, line))
    case 42 => Some(RelOpNode(Lt, line))
    case 43 => Some(RelOpNode(Gt, line))
    case 44 => Some(RelOpNode(GtEq, line))
    case 45 => Some(RelOpNode(Equal, line))
    case 46 => Some(RelOpNode(Diff, line))
    case 47 => Some(ArithNode(Plus, rhs[0], rhs[2], line))
    case 48 => Some(ArithNode(Minus, rhs[0], rhs[2], line))
    case 50 => Some(ArithNode(Times, rhs[0], rhs[2], line))
    case 51 => Some(ArithNode(Over, rhs[0], rhs[2], line))
    case 57 => CallNode(rhs[0], rhs[2], line)
    case 62 => Some(IdNode(tok.text, line))
    case 63 => Some(ConstNode(tok.value, line))
  }

  /** The rules that build no node: the list rules append their new
      element (or list) after the last sibling of the list built so far,
      the others pass an operand up or yield NULL. */
  function ChainAction(rule: int, rhs: seq<Tree>): (r: Tree)
    requires 1 <= rule <= Tables.NRules && |rhs| == Tables.RhsLength(rule)
    requires GroupOf(rule) == ChainGroup
    ensures rule in {4, 19, 21} ==> r == rhs[0] + rhs[1]
    ensures rule in {14, 60} ==> r == rhs[0] + rhs[2]
    ensures rule == 18 ==> r == rhs[1] + rhs[2]
    ensures rule in PassRules ==> r == rhs[0]
    ensures rule == 53 ==> r == rhs[1]
    ensures rule in NullRules ==> r == []
  {
    match rule
    case 4 | 19 | 21 => rhs[0] + rhs[1]
    case 14 | 60 => rhs[0] + rhs[2]
    case 18 => rhs[1] + rhs[2]
    case 53 => rhs[1]
    case 13 | 20 | 22 | 29 | 64 => []
    case _ => rhs[0]
  }

  /** The action of rule `rule` on the right-hand side values `rhs`, with
      `tok` the token the scanner read last. */
  function Action(rule: int, rhs: seq<Tree>, tok: Token): (r: Option<Tree>)
    requires 1 <= rule <= Tables.NRules && |rhs| == Tables.RhsLength(rule)
    ensures r.None? ==> [] in rhs
    ensures GroupOf(rule) == DeclarationGroup ==> r == DeclarationAction(rule, rhs, tok)
    ensures GroupOf(rule) == StatementGroup ==> r == Some(StatementAction(rule, rhs, tok))
    ensures GroupOf(rule) == ExpressionGroup ==> r == ExpressionAction(rule, rhs, tok)
    ensures GroupOf(rule) == ChainGroup ==> r == Some(ChainAction(rule, rhs))
  {
    match GroupOf(rule)
    case DeclarationGroup => DeclarationAction(rule, rhs, tok)
    case StatementGroup => Some(StatementAction(rule, rhs, tok))
    case ExpressionGroup => ExpressionAction(rule, rhs, tok)
    case ChainGroup => Some(ChainAction(rule, rhs))
  }
}
