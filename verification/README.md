# C-minus front end, modelled in Dafny

This project models the front end of a compiler for C-minus, a small C-like language. The front end has three parts:

- **The parser.** This is the Bison-generated LALR(1) driver `yyparse`. It has shift, reduce, goto and accept steps, `error`-token recovery, and stack growth up to YYMAXDEPTH. Its semantic actions build the syntax tree out of sibling chains.
- **The declaration resolver** (`buildSymtab`). It walks the tree in pre-order. It registers functions and variables in a symbol table keyed by (name, scope), and it reports undeclared or duplicated names.
- **The type checker** (`typeCheck`). It walks the tree in post-order. It types the expression and call nodes, and it reports ill-typed operators, tests and assignments.

Files:

- `ast.dfy` (module `Ast`): the syntax tree. A node has three child chains. A sibling chain is a sequence, and the empty sequence is NULL.
- `siblings.dfy` (module `Siblings`): the pointer-level sibling append used by the list rules. It is proved equal to sequence concatenation.
- `tables.dfy` (module `Tables`): the generated parse tables and constants. `Tables.Automaton` bundles the tables `yyparse` consults. The driver is stated for any tables of the generated sizes, and `parse` runs it on `Tables.Generated`.
- `actions.dfy` (module `Actions`): the semantic action of every grammar rule, grouped by the kind of node it builds.
- `driver.dfy` (module `Driver`): `yyparse` as a step function over a configuration, and `parse`.
- `symtab.dfy` (module `SymTab`): the abstract symbol table.
- `traverse.dfy` (module `Traverse`): the generic `traverse` with pure hooks.
- `resolver.dfy` (module `Resolver`): `insertNode`, `mainError` and `buildSymtab`.
- `checker.dfy` (module `Checker`): `checkNode` and `typeCheck`.
- `checker_as_written.dfy` (module `CheckerAsWritten`): `checkNode` and `typeCheck` exactly as written, how they relate to the corrected pass, and the input on which they dereference NULL.

The C code keeps its state in globals: `location`, `scope`, `main_already_seem`, `Error`, `savedTree`, and the parser's locals. The model threads that state through explicit records instead: `Resolver.Ctx` and `Driver.Config`. Every diagnostic is kept in a list, and `Error` is set exactly when that list is non-empty.

## Model

| member | source | states |
|---|---|---|
| Traverse.WalkFollowsEvents | C-/analyze.c:25-37 | Run with recording hooks, the walk produces exactly a first-order event list. For each node: pre visit, then children 0, 1, 2 in order, then post visit, then the next sibling. The tree comes back unchanged. |
| Traverse.EachNodeVisitedOnce | C-/analyze.c:25-37 | Every node at any depth gets exactly one pre-order call and one post-order call. |
| Traverse.WalkRespects | C-/analyze.c:25-37 | Take a reflexive, transitive relation that every hook call respects. Then the relation holds between the state before a whole walk and the state after it. |
| Siblings.LinkSiblings | C-/tiny.tab.c:1805-1818 | The append walks to the last sibling of the left chain and links the right chain there. The chain read from the result is the concatenation. A NULL left chain gives the right chain. Only the last left node's link changes. |
| Actions.ScalarDecl | C-/tiny.tab.c:1354-1361 | A declaration is the type node with the identifier hung as child 0. Type, name and the other children are kept. The result is NULL-dereferencing exactly when the type is NULL. |
| Actions.ArrayDecl | C-/tiny.tab.c:1363-1371 | It fails exactly when the type or the identifier is NULL. Otherwise it returns the type chain with only its head changed. The head keeps its kind, name, type and children 1 and 2. Its child 0 becomes the identifier chain, with the size constant hung as child 0 of the identifier and every other part of that chain unchanged. |
| Actions.TypeSpec | C-/tiny.tab.c:1373-1391 | `int` gives a childless TypeK node typed Integer and `void` one typed Void. Either is named by the keyword's text. |
| Actions.FuncDecl | C-/tiny.tab.c:1393-1406 | A function node takes the identifier's name, with params as child 1 and body as child 2. It is typed Integer if and only if the type text is "int", and Void otherwise. |
| Actions.ParamsNode | C-/tiny.tab.c:1408-1415 | A ParamsK node whose child 0 is the parameter list. |
| Actions.IfNode | C-/tiny.tab.c:1561-1570 | An If node with the test as child 0, the branch as child 1, and no child 2. |
| Actions.IfElseNode | C-/tiny.tab.c:1571-1581 | An If node with the test, then-branch and else-branch as children 0, 1 and 2. |
| Actions.WhileNode | C-/tiny.tab.c:1582-1591 | A While node with the test as child 0 and the body as child 1. The body may be NULL. |
| Actions.ReturnNode | C-/tiny.tab.c:1592-1606 | A Return node with the returned expression (or NULL) as child 0. |
| Actions.AssignNode | C-/tiny.tab.c:1607-1615 | An Assign node with the target as child 0 and the value as child 1. |
| Actions.VectorNode | C-/tiny.tab.c:1628-1637 | A VectorK node named by the identifier, with the index as child 0. It fails exactly on a NULL identifier. |
| Actions.CompareNode | C-/tiny.tab.c:1638-1648 | A fresh OpK node that copies the relational node's operator, with the operands as children 0 and 1. |
| Actions.RelOpNode | C-/tiny.tab.c:1655-1708 | Each relational token gives a childless OpK node carrying that operator. |
| Actions.ArithNode | C-/tiny.tab.c:1709-1758 | `+ - * /` give an OpK node with that (non-relational) operator, left operand as child 0 and right operand as child 1. |
| Actions.CallNode | C-/tiny.tab.c:1789-1798 | A CallK node named by the identifier, with the arguments as child 0. |
| Actions.IdNode | C-/tiny.tab.c:1826-1834 | An unmarked IdK node named by the token text. |
| Actions.ConstNode | C-/tiny.tab.c:1835-1843 | A ConstK node carrying the token's value. |
| Actions.DeclarationAction | C-/tiny.tab.c:1354-1460 | Rules 7, 16 and 17 hang `$2` under `$1`. Rule 8 does the same and also hangs `$4` under `$2`. Rules 9 and 10 give a childless TypeK named by the token text, typed Integer and Void respectively. Rule 11 gives a FuncK named by `$2`, with `$4` as child 1 and `$6` as child 2, typed Integer exactly when `$1` is named "int". Rule 12 gives a ParamsK over `$1`. Each fails exactly when an operand it dereferences is NULL. |
| Actions.StatementAction | C-/tiny.tab.c:1561-1614 | Rule 30 gives an IfK over `$3` and `$5`, and rule 31 an IfK over `$3`, `$5` and `$7`. Rule 32 gives a WhileK over `$3` and `$5`. Rule 33 gives a childless ReturnK, and rule 34 a ReturnK over `$2`. Rule 35 gives an AssignK over `$1` and `$3`. Every node is fresh, on the scanner's line, and has no other children. |
| Actions.ExpressionAction | C-/tiny.tab.c:1628-1842 | Rule 38 gives a VectorK named by `$1` over `$3`. Rule 39 gives an OpK over `$1` and `$3` carrying the operator of `$2`. Rules 41-46 give a childless OpK with <=, <, >, >=, == and != in that order. Rules 47, 48, 50 and 51 give an OpK over `$1` and `$3` with +, -, * and / respectively. Rule 57 gives a CallK named by `$1` over `$3`. Rule 62 gives an IdK named by the token text, and rule 63 a ConstK with its value. Each fails exactly when an operand it dereferences is NULL. |
| Actions.ChainAction | C-/tiny.tab.c:1315-1848 | Rules 4, 19 and 21 append `$2` to `$1`. Rules 14 and 60 append `$3` to `$1`, and rule 18 appends `$3` to `$2`. Rule 53 yields `$2`. Rules 13, 20, 22, 29 and 64 yield NULL. The remaining rules, those without an action of their own and the pass-through ones, yield `$1`. |
| Actions.Action | C-/tiny.tab.c:1315-1848 | Each rule's action is the one the four groups above give for it, so every rule is covered. An action fails only when some operand is NULL. |
| Tables.Translate | C-/tiny.tab.c:424-425 | Every external token code maps to a symbol number below YYNTOKENS. Code 0, and only code 0, maps to end of input. Codes 258..285 map to symbols 3..30. |
| Driver.Initial | C-/tiny.tab.c:1127-1137 | The start configuration is state 0, with empty stacks, no lookahead, error status 0 and capacity YYINITDEPTH. It satisfies the driver invariant. |
| Driver.Grow | C-/tiny.tab.c:1180-1184 | No growth at or beyond YYMAXDEPTH. Otherwise the new capacity is exactly the smaller of double the old one and YYMAXDEPTH, so it is strictly larger. |
| Driver.SetState | C-/tiny.tab.c:1142-1216 | Pushes the state. The stacks grow exactly when full, and then to the capacity `Grow` gives. Memory exhaustion happens if and only if the stack is full at YYMAXDEPTH. Accept happens if and only if the state is YYFINAL. The invariant is kept. |
| Driver.ReadToken | C-/tiny.tab.c:1234-1244 | Reading consumes exactly the first remaining token. Past the end of input, or for a non-positive code, the lookahead is EOF. |
| Driver.Lookahead | C-/tiny.tab.c:1221-1281 | A state whose `yypact` entry is the default marker takes its default action without reading. Otherwise the lookahead symbol picks an entry at `yypact[state] + symbol`, read when none is pending. If `yycheck` rejects that entry, the default action follows. A non-positive entry reduces by its negation. A positive entry shifts to that state: one NULL value is pushed, the lookahead is cleared and the error status counts down towards 0. At most one token is consumed. |
| Driver.DefaultAction | C-/tiny.tab.c:1287-1291 | A `yydefact` entry of 0 goes to error handling. A positive entry reduces by that rule. Nothing else changes. |
| Driver.Goto | C-/tiny.tab.c:1877-1883 | After a reduction the next state is the `yytable` entry when `yycheck` confirms it. Otherwise it is the nonterminal's default goto. |
| Driver.ReduceBy | C-/tiny.tab.c:1297-1885 | Pops RhsLength(rule) states and values and pushes the action's value on the rest. Everything below is untouched. The next state is the goto of the rule's left-hand side from the state the pop exposes. `savedTree` changes only under rule 2, where it becomes `$1`. |
| Driver.Pushed | C-/tiny.tab.c:1867-1885 | The end of a reduction pops exactly `k` states and values, pushes the action's value on what is left, and goes to the goto of the rule's left-hand side from the newly exposed state. Only a missing goto entry faults. Input, lookahead, diagnostics, error status and capacity are untouched. |
| Driver.ReportError | C-/tiny.tab.c:1891-1959 | A syntax error is reported if and only if the parser is not already recovering. After a failed recovery it aborts at EOF, and otherwise discards the lookahead. |
| Driver.ErrorShift | C-/tiny.tab.c:1988-1998 | A state shifts `error` if and only if its `yypact` entry is not the default marker, `yycheck` confirms the entry for the `error` symbol, and the `yytable` entry there is positive. The target is that entry. |
| Driver.Recover | C-/tiny.tab.c:1985-2023 | One round of recovery sets the status to 3. It shifts `error` if and only if the top state can, aborts if and only if it cannot and only one state is left, and otherwise pops exactly one state and one value. |
| Driver.Unwind | C-/tiny.tab.c:1985-2023 | The recovery loop ends either in a state that shifts `error` or in abort. The stack left is a prefix of the original. |
| Driver.UnwindBySteps | C-/tiny.tab.c:1985-2023 | The recovery loop takes between 1 and (stack height) driver steps. |
| Driver.Step | C-/tiny.tab.c:1142-2023 | Every step keeps the invariant: both stacks have equal height, the height stays within a capacity of YYINITDEPTH to YYMAXDEPTH, the error status is in 0..3, and one diagnostic is kept per counted error. A step consumes at most one token and only appends diagnostics. |
| Driver.Run | C-/tiny.tab.c:1081-2078 | A returned run ends in accept, abort, exhaustion or fault, with the stack never above YYMAXDEPTH. Accept happens only in YYFINAL. |
| Driver.RunMonotone | C-/tiny.tab.c:1081-2078 | A run that has returned returns the same way with any larger step budget. |
| Driver.RunConsumesSuffix | C-/tiny.tab.c:1234-1238 | What is left of the token stream at the end is a suffix of what the parser started with. |
| Driver.ParseWith | C-/tiny.tab.c:2096-2099 | A parse that returns hands back the `savedTree` and diagnostics the run ends with. The code is 0 exactly on accept, 1 exactly on abort and 2 exactly when "memory exhausted" was reported. None means the run did not return within the step budget or hit a fault. |
| Driver.Parse | C-/tiny.tab.c:2096-2099 | `parse` runs the driver on the generated tables. The result code is 0, 1 or 2, and it is 2 exactly when "memory exhausted" is among the diagnostics. |
| SymTab.Insert | C-/analyze.c:95-99 | A new key gets a fresh entry. An existing key only gains a reference line. No other entry changes. |
| Resolver.InsertNode | C-/analyze.c:52-126 | Each node kind has its own behaviour. A call to a name not visible in the current scope is reported. A function opens its scope and sets main-seen if it is named main. It is registered globally at the next location if and only if its name is new. Otherwise "name already used by another function" is reported at the node's line, with the new scope and main-seen flag kept and the table untouched. An unknown variable use is reported, and a known one records a reference line once. An int declaration makes the name visible and is reported if and only if the name was visible already. A void variable is reported. A type node of any other type changes nothing. |
| Resolver.MarkDeclared | C-/analyze.c:108 | Only the `already_seem` flag of the declared identifier changes. |
| Resolver.BuildSymtab | C-/analyze.c:136-144 | The tree comes back unchanged apart from `already_seem` flags. Main-seen ends true if and only if it was true already or the program declares main. Diagnostics are only appended. With TraceAnalyze and no main, the last one is "main must be declared". Otherwise every new diagnostic is a declaration error. |
| Resolver.MainReportedIffMissing | C-/analyze.c:128-141 | With TraceAnalyze on, from the initial state, the pass reports the unnumbered "main must be declared" if and only if the program declares no function main. |
| Resolver.ResolveKeepsTree | C-/analyze.c:52-126 | Resolution returns the tree it was given, except for `already_seem` flags. |
| Resolver.WalkNodeFindsMain | C-/analyze.c:67-70 | After walking a node and its subtrees, main-seen holds if and only if it held before or that part of the tree contains a function named main at some depth. |
| Resolver.WalkEvolves | C-/analyze.c:14-17 | Over a walk, entries keep their location, kind and type and only gain lines. The counter never decreases. Diagnostics are only appended, and all are declaration errors. Declared locations stay distinct and below the counter. |
| Resolver.WalkDiagnosesDeclarations | C-/analyze.c:151-154 | Every diagnostic the resolver writes is a declaration error, appended after the earlier ones. |
| Resolver.DistinctLocations | C-/analyze.c:75-77 | From the start state, every registered function and variable has its own memory location below the final counter. |
| Checker.CheckNode | C-/analyze.c:159-228 | Only the node's type changes. An operator is typed Boolean if and only if it is relational, and Integer otherwise. Constants, identifiers and vectors are typed Integer. A call is typed Integer if and only if the function returns int. The diagnostic written is exactly the node's complaint. |
| Checker.TypeCheck | C-/analyze.c:233-234 | The post-order walk with `checkNode` returns a chain of the same length. |
| Checker.CheckTypes | C-/analyze.c:159-228 | Every node of the checked tree, at any depth, carries the type the checker promises. |
| Checker.CheckBlames | C-/analyze.c:146-234 | The diagnostics are exactly the complaints of the checked tree's nodes, in post-order. |
| Checker.CheckKeepsTree | C-/analyze.c:159-228 | Checking changes nothing but types. |
| Checker.CheckIdempotent | C-/analyze.c:233-234 | Checking a checked tree again yields the same tree and the same diagnostics. |
| Checker.TypeCheckSound | C-/analyze.c:233-234 | From an empty listing: the result is fully typed, its diagnostics are its post-order complaints, it has the same shape as the input, and re-checking it changes nothing. |
| CheckerAsWritten.CheckNodeAsWritten | C-/analyze.c:205-208 | As written, a While node with an Integer test blames the loop body, writing the body's line. With a NULL body this dereferences NULL, and that happens exactly for such nodes. A While node whose test is not Integer writes nothing. Other kinds behave as in the corrected checker. |
| CheckerAsWritten.EmptyLoopCrashes | C-/analyze.c:205-208 | On the tree the actions build for `while (x) ;`, the as-written checker dereferences NULL. The corrected checker reports the test at its line. |
| CheckerAsWritten.TypeCheckAsWritten | C-/analyze.c:233-234 | `typeCheck` as written, compared with the corrected pass on the same tree. It dereferences NULL exactly when the checked tree holds a `while` with an Integer test and a NULL body. Otherwise it returns the same tree and the same diagnostics except for their lines. When no `while` has an Integer test, it returns exactly the corrected result. |
| CheckerAsWritten.AsWrittenTracks | C-/analyze.c:205-208 | At any depth and from any listing, the as-written walk stops exactly at a trap in the corrected result. Otherwise it returns the corrected tree and appends its as-written blame, which is `Blame` with the `while` diagnostic at the body's line. |
| CheckerAsWritten.BlameLinesOnly | C-/analyze.c:205-208 | Without a trap, the as-written blame and the corrected blame differ only in lines. Without an Integer-tested `while`, they are equal. |

## Left out

- Debug tracing (`YYDPRINTF`, `YY_SYMBOL_PRINT`, `YY_STACK_PRINT`) and `yydestruct` are not modelled. They only print, or do nothing.
- Verbose syntax-error messages are not modelled, because `YYERROR_VERBOSE` is 0.
- `yyoverflow` is not modelled, because it is not defined.
- The stack relocation that `YYSTACK_ALLOC` performs is left out, and allocation is assumed to succeed. A failed allocation would also lead to memory exhaustion.
- The scanner is not part of this model: `getToken`, `tokenString`, `lineno` and the `atoi` of a number. The parser reads a finite sequence of tokens, each with a code, text, value and line. Once the sequence is used up, `yylex` returns 0.
- `yylval` is never assigned by the scanner, so shifted tokens carry the NULL value. Leaf actions read the token that was read last.
- `yyerror` is reduced to one diagnostic holding the scanner's line and the message. The `printToken` output and the text layout of the listing are left out.
- symtab.c is not part of this model. `SymTab.Insert` assumes that inserting an existing key records one more line. `SymTab.Declared` assumes that a lookup in a function scope also sees global names. The duplicate-variable message, "…in this scope or by another function", relies on that fallback.
- `printSymTab` is not modelled.
- `checkFunctionType` is the parameter `returnsInt` of the checker.
- The call check follows analyze.c:63: it looks the called name up under the current scope cursor, with the fallback above, and not under the global scope alone.
- util.c is not part of this model. Fresh nodes are assumed to have no type (`Unset`), a clear flag and no children.
- Driver.Run: this runs for a bounded number of steps (fuel) and returns None when they run out. No bound on the number of steps `yyparse` takes is proved.
- Driver.Step: a state, rule or nonterminal outside the tables, a reduction deeper than the stack, or an action that would dereference a NULL operand ends in the `Fault` phase instead of undefined behaviour. It is assumed, and not proved, that the generated tables and the grammar's actions never lead there. Driver.ParseWith returns None in that case.
- Driver.Parse: it also returns `yyparse`'s result code and the diagnostics, which the C `parse` drops.
- Resolver.InsertNode: an int declaration without an identifier child reads NULL in the C code, and the model does nothing in that case. Rules 7, 8, 16 and 17 hang the identifier under the type node. It is assumed, and not proved, that no other path puts a childless type node into the tree.
- Checker.CheckNode: a NULL child of an operator, `if` or assignment reads as having no type, and an assignment with no target blames the node itself. The C code would dereference NULL in these cases. It is assumed, and not proved, that the grammar's actions never build such nodes.
- `Error` is not a separate flag: it is set exactly when the diagnostic list is non-empty.

## Findings

| source | as written | input that shows it | evidently intended | confidence | as-written member | corrected member |
|---|---|---|---|---|---|---|
| C-/analyze.c:205-208 | the `while` type error is blamed on `t->child[1]`, the loop body | `while (x) ;`: rule 29 makes the empty statement NULL, the test `x` is typed Integer, and the error reads the NULL body's line | blame the test, `t->child[0]`, as the `if` case does at C-/analyze.c:195-198 | high, not executed | CheckerAsWritten.CheckNodeAsWritten | Checker.CheckNode |
