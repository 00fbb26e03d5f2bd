/**
 The table-driven LALR(1) driver `yyparse` and its caller `parse`.

 The driver's goto-labels become the `Phase` of a configuration, and one
 `Step` performs the code between two labels. The scanner is a finite
 token sequence: `yylex` hands out its tokens in order and 0 (end of
 input) once they are used up. Semantic values are sibling chains; a
 shifted token carries the NULL chain because the scanner never sets
 `yylval`.

 Where the C code would index a table or a stack out of range (a state, a
 rule or a symbol the generated tables never produce, or an action that
 dereferences a NULL operand) the model stops in the `Fault` phase instead
 of assuming it cannot happen.
 */
module Driver {
  import opened Ast
  import Tables
  import Actions

  /** YYEMPTY and YYEOF: the two special values of the lookahead `yychar`. */
  const Empty: int := -2
  const Eof: int := 0

  /** The labels of `yyparse`, plus the three ways it returns and `Fault`. */
  datatype Phase =
    | NewState        // yynewstate / yysetstate: push `state`
    | Backup          // yybackup: consult the lookahead
    | Default         // yydefault: default reduction of the state
    | Reduce(rule: int) // yyreduce
    | ErrLab          // yyerrlab: report and maybe discard the lookahead
    | ErrLab1         // yyerrlab1: pop until a state shifts `error`
    | Accepted        // yyacceptlab: result 0
    | Aborted         // yyabortlab: result 1
    | Exhausted       // yyexhaustedlab: result 2
    | Fault

  predicate Terminal(p: Phase)
  {
    p.Accepted? || p.Aborted? || p.Exhausted? || p.Fault?
  }

  /** The local and global variables of `yyparse`. In the `NewState` phase
      `state` has not been pushed yet; in every other phase it is the top
      of `states`. */
  datatype Config = Config(
    phase: Phase,
    state: int,                    // yystate
    states: seq<int>,              // yyss[0] .. *yyssp
    values: seq<Tree>,             // yyvs[0] .. *yyvsp
    capacity: int,                 // yystacksize
    lookahead: int,                // yychar
    errStatus: int,                // yyerrstatus
    nerrs: nat,                    // yynerrs
    input: seq<Actions.Token>,     // the tokens the scanner has not handed out
    cur: Actions.Token,            // the token read last (tokenString, lineno)
    saved: Tree,                   // savedTree
    diags: seq<Diag>)              // what yyerror wrote to the listing

  /** The token the scanner reports before it has read anything. */
  const NoToken: Actions.Token := Actions.Token(Eof, "", 0, 0)

  /** `yyparse` on entry: empty stacks apart from the unused bottom value,
      state 0, no lookahead, not recovering. */
  function Initial(tokens: seq<Actions.Token>): (c: Config)
    ensures Inv(c) && c.phase == NewState && c.input == tokens
    ensures c.state == 0 && c.states == [] && c.values == [[]]
    ensures c.lookahead == Empty && c.errStatus == 0 && c.nerrs == 0 && c.diags == []
    ensures c.capacity == Tables.InitDepth && c.saved == []
  {
    Config(NewState, 0, [], [[]], Tables.InitDepth, Empty, 0, 0, tokens, NoToken, [], [])
  }

  /** What holds between any two steps of the driver. */
  ghost predicate Inv(c: Config)
  {
    && Tables.InitDepth <= c.capacity <= Tables.MaxDepth
    && 0 <= c.errStatus <= 3
    && (c.lookahead == Empty || c.lookahead >= 0)
    && |c.diags| == c.nerrs + (if c.phase.Exhausted? then 1 else 0)
    && (forall i :: 0 <= i < c.nerrs ==> c.diags[i].msg == "syntax error")
    && (c.phase.Exhausted? ==> c.diags[c.nerrs].msg == "memory exhausted")
    && (c.phase.NewState? ==> |c.values| == |c.states| + 1 && |c.states| < c.capacity)
    && (!c.phase.NewState? ==> |c.values| == |c.states|)
    && (!c.phase.NewState? && !Terminal(c.phase) ==>
          1 <= |c.states| < c.capacity && c.states[|c.states| - 1] == c.state)
    && (c.phase.Accepted? ==> c.state == Tables.Final && c.states != [] && c.states[|c.states| - 1] == Tables.Final)
    && |c.states| <= c.capacity
  }

  /** The stack growth policy: none beyond YYMAXDEPTH, otherwise double
      the capacity and clip it to YYMAXDEPTH. */
  function Grow(capacity: int): (r: Option<int>)
    requires capacity > 0
    ensures r.None? <==> capacity >= Tables.MaxDepth
    ensures r.Some? ==> capacity < r.value <= Tables.MaxDepth
    ensures r.Some? ==> r.value == 2 * capacity || r.value == Tables.MaxDepth
    ensures r.Some? && r.value < Tables.MaxDepth ==> r.value == 2 * capacity
    ensures r.Some? ==> r.value == (if 2 * capacity < Tables.MaxDepth then 2 * capacity else Tables.MaxDepth)
  {
    if Tables.MaxDepth <= capacity then None
    else if Tables.MaxDepth < 2 * capacity then Some(Tables.MaxDepth)
    else Some(2 * capacity)
  }

  /** yynewstate/yysetstate: push the state; grow the stacks when they are
      full, giving up past YYMAXDEPTH; accept in YYFINAL. */
  function SetState(c: Config): (r: Config)
    requires Inv(c) && c.phase.NewState?
    ensures Inv(r)
    ensures r.states == c.states + [c.state] && r.values == c.values
    ensures r.input == c.input && r.lookahead == c.lookahead && r.saved == c.saved
    ensures r.capacity >= c.capacity
    ensures r.phase.Exhausted? <==> |r.states| == c.capacity == Tables.MaxDepth
    ensures r.capacity != c.capacity <==> |r.states| == c.capacity < Tables.MaxDepth
    ensures r.capacity != c.capacity ==> Grow(c.capacity) == Some(r.capacity)
    ensures !r.phase.Exhausted? ==> |r.states| < r.capacity
    ensures !r.phase.Exhausted? ==> (r.phase.Accepted? <==> c.state == Tables.Final)
    ensures !r.phase.Exhausted? && c.state != Tables.Final ==> r.phase == Backup
  {
    var pushed := c.(states := c.states + [c.state]);
    var size := |pushed.states|;
    if c.capacity <= size then
      match Grow(c.capacity)
      case None =>
        pushed.(phase := Exhausted, diags := c.diags + [Diag(SyntaxDiag, c.cur.line, "memory exhausted")])
      case Some(cap) =>
        var grown := pushed.(capacity := cap);
        if cap <= size then grown.(phase := Aborted)
        else if c.state == Tables.Final then grown.(phase := Accepted)
        else grown.(phase := Backup)
    else if c.state == Tables.Final then pushed.(phase := Accepted)
    else pushed.(phase := Backup)
  }

  /** `yylex` followed by the end-of-input normalisation of yybackup: the
      lookahead becomes the next token's code, or EOF when the input is
      used up or the code is not positive. */
  function ReadToken(c: Config): (r: Config)
    ensures r.lookahead >= 0
    ensures c.input == [] ==> r.input == [] && r.lookahead == Eof && r.cur == c.cur
    ensures c.input != [] ==> r.input == c.input[1..] && r.cur == c.input[0]
    ensures c.input != [] ==> r.lookahead == (if c.input[0].code <= Eof then Eof else c.input[0].code)
    ensures r == c.(lookahead := r.lookahead, input := r.input, cur := r.cur)
  {
    if c.input == [] then c.(lookahead := Eof)
    else
      var t := c.input[0];
      c.(lookahead := if t.code <= Eof then Eof else t.code, input := c.input[1..], cur := t)
  }

  /** The `yytable` entry for `index` when `yycheck` confirms it belongs to
      `key`; None when the index is out of the table or the check fails. */
  function TableEntry(a: Tables.Automaton, index: int, key: int): (r: Option<int>)
    requires Tables.Valid(a)
    ensures r.Some? <==> 0 <= index <= Tables.Last && a.check[index] == key
    ensures r.Some? ==> r.value == a.table[index]
  {
    if 0 <= index <= Tables.Last && a.check[index] == key then Some(a.table[index])
    else None
  }

  /** The lookahead yybackup decides on: the pending one, or the code of
      the next token when there is none. */
  function Peek(c: Config): int
  {
    if c.lookahead == Empty then ReadToken(c).lookahead else c.lookahead
  }

  /** yytoken: end of input is symbol 0, other codes are translated. */
  function Symbol(la: int): int
  {
    if la <= Eof then 0 else Tables.Translate(la)
  }

  /** yybackup: a state whose `yypact` entry is the default marker reduces
      without looking ahead; otherwise the lookahead (read if needed) picks
      a shift, a reduction, or the default action. A shift counts down the
      error status and discards the lookahead. */
  function Lookahead(a: Tables.Automaton, c: Config): (r: Config)
    requires Tables.Valid(a)
    requires Inv(c) && c.phase.Backup?
    ensures Inv(r)
    ensures r.saved == c.saved && r.diags == c.diags && r.capacity == c.capacity
    ensures r.input == c.input || (c.input != [] && r.input == c.input[1..])
    ensures r.phase.NewState? || r.phase.Reduce? || r.phase.Default? || r.phase.Fault?
    ensures r.phase.NewState? ==>
              && r.states == c.states && r.values == c.values + [[]]
              && r.lookahead == Empty
              && r.errStatus == (if c.errStatus > 0 then c.errStatus - 1 else 0)
    ensures !r.phase.NewState? ==> r.states == c.states && r.values == c.values && r.errStatus == c.errStatus
    ensures c.lookahead != Empty ==> r.input == c.input
    ensures !(0 <= c.state < Tables.NStates) ==> r.phase.Fault?
    ensures 0 <= c.state < Tables.NStates && a.pact[c.state] == Tables.PactNinf ==> r == c.(phase := Default)
    ensures 0 <= c.state < Tables.NStates && a.pact[c.state] != Tables.PactNinf ==>
              var sym := Symbol(Peek(c));
              var e := TableEntry(a, a.pact[c.state] + sym, sym);
              && (e.None? ==> r.phase == Default)
              && (e.Some? && e.value <= 0 ==> r.phase == Reduce(-e.value))
              && (e.Some? && e.value > 0 ==> r.phase == NewState && r.state == e.value)
  {
    if !(0 <= c.state < Tables.NStates) then c.(phase := Fault)
    else
      var base := a.pact[c.state];
      if base == Tables.PactNinf then c.(phase := Default)
      else
        var d := if c.lookahead == Empty then ReadToken(c) else c;
        var sym := Symbol(d.lookahead);
        var d1 := d.(lookahead := if d.lookahead <= Eof then Eof else d.lookahead);
        match TableEntry(a, base + sym, sym)
        case None => d1.(phase := Default)
        case Some(act) =>
          if act <= 0 then d1.(phase := Reduce(-act))
          else d1.(phase := NewState, state := act, lookahead := Empty,
                   errStatus := if c.errStatus > 0 then c.errStatus - 1 else 0,
                   values := c.values + [[]])
  }

  /** yydefault: reduce by the state's default rule; rule 0 is an error. */
  function DefaultAction(a: Tables.Automaton, c: Config): (r: Config)
    requires Tables.Valid(a)
    requires Inv(c) && c.phase.Default?
    ensures Inv(r)
    ensures r == c.(phase := r.phase)
    ensures r.phase.ErrLab? || r.phase.Reduce? || r.phase.Fault?
    ensures r.phase.Reduce? ==> 1 <= r.phase.rule
    ensures !(0 <= c.state < Tables.NStates) ==> r.phase.Fault?
    ensures 0 <= c.state < Tables.NStates && a.defAct[c.state] == 0 ==> r.phase.ErrLab?
    ensures 0 <= c.state < Tables.NStates && a.defAct[c.state] > 0 ==> r.phase == Reduce(a.defAct[c.state])
  {
    if !(0 <= c.state < Tables.NStates) then c.(phase := Fault)
    else
      var rule := a.defAct[c.state];
      if rule == 0 then c.(phase := ErrLab)
      else if rule < 0 then c.(phase := Fault)
      else c.(phase := Reduce(rule))
  }

  /** The state reached after reducing to nonterminal `lhs` from `top`:
      the `yytable` entry when `yycheck` confirms it, else the default
      goto of the nonterminal. */
  function Goto(a: Tables.Automaton, lhs: int, top: int): (r: Option<int>)
    requires Tables.Valid(a)
    ensures r.None? <==> !(Tables.NTokens <= lhs < Tables.NTokens + |a.pGoto|)
    ensures r.Some? && TableEntry(a, a.pGoto[lhs - Tables.NTokens] + top, top).Some? ==>
              r.value == TableEntry(a, a.pGoto[lhs - Tables.NTokens] + top, top).value
    ensures r.Some? && TableEntry(a, a.pGoto[lhs - Tables.NTokens] + top, top).None? ==>
              r.value == a.defGoto[lhs - Tables.NTokens]
  {
    if !(Tables.NTokens <= lhs < Tables.NTokens + |a.pGoto|) then None
    else
      var i := lhs - Tables.NTokens;
      match TableEntry(a, a.pGoto[i] + top, top)
      case Some(s) => Some(s)
      case None => Some(a.defGoto[i])
  }

  /** yyreduce: run the rule's action on the top RhsLength(rule) values,
      pop that many states and values, push the action's value and go to
      the state the goto tables give. Rule 2 also records the whole
      program in `savedTree`. */
  function ReduceBy(a: Tables.Automaton, c: Config, rule: int): (r: Config)
    requires Tables.Valid(a)
    requires Inv(c) && c.phase == Reduce(rule)
    ensures Inv(r)
    ensures r.input == c.input && r.lookahead == c.lookahead && r.diags == c.diags
    ensures r.errStatus == c.errStatus && r.capacity == c.capacity
    ensures r.phase.NewState? || r.phase.Fault?
    ensures r.phase.NewState? ==>
              && 1 <= rule <= Tables.NRules
              && var k := Tables.RhsLength(rule);
              && k < |c.states|
              && r.states == c.states[..|c.states| - k]
              && r.values[..|r.values| - 1] == c.values[..|c.values| - k]
              && Actions.Action(rule, c.values[|c.values| - k..], c.cur) == Some(r.values[|r.values| - 1])
    ensures r.phase.NewState? ==>
              Goto(a, a.r1[rule], c.states[|c.states| - Tables.RhsLength(rule) - 1]) == Some(r.state)
    ensures r.phase.NewState? ==> (r.saved != c.saved ==> rule == 2)
    ensures r.phase.NewState? && rule == 2 ==> r.saved == c.values[|c.values| - 1]
  {
    if !(1 <= rule <= Tables.NRules) then c.(phase := Fault)
    else
      var k := Tables.RhsLength(rule);
      if |c.states| <= k then c.(phase := Fault)
      else
        match Actions.Action(rule, c.values[|c.values| - k..], c.cur)
        case None => c.(phase := Fault)
        case Some(v) => Pushed(a, c, rule, k, v, if rule == 2 then c.values[|c.values| - 1] else c.saved)
  }

  /** The end of yyreduce once the action has given `v`: pop `k` states
      and values, push `v`, take the goto of the rule's left-hand side
      from the state the pop exposes, and keep `saved` as `savedTree`. */
  function Pushed(a: Tables.Automaton, c: Config, rule: int, k: nat, v: Tree, saved: Tree): (r: Config)
    requires Tables.Valid(a)
    requires Inv(c) && c.phase == Reduce(rule)
    requires 1 <= rule <= Tables.NRules && k < |c.states|
    ensures Inv(r)
    ensures r.input == c.input && r.lookahead == c.lookahead && r.diags == c.diags
    ensures r.errStatus == c.errStatus && r.capacity == c.capacity
    ensures r.phase.NewState? || r.phase.Fault?
    ensures r.phase.Fault? <==> Goto(a, a.r1[rule], c.states[|c.states| - k - 1]).None?
    ensures r.phase.NewState? ==>
              && r.states == c.states[..|c.states| - k]
              && r.values == c.values[..|c.values| - k] + [v]
              && Goto(a, a.r1[rule], c.states[|c.states| - k - 1]) == Some(r.state)
              && r.saved == saved
  {
    var states := c.states[..|c.states| - k];
    match Goto(a, a.r1[rule], states[|states| - 1])
    case None => c.(phase := Fault)
    case Some(next) =>
      c.(phase := NewState, state := next, states := states,
         values := c.values[..|c.values| - k] + [v],
         saved := saved)
  }

  /** yyerrlab: report a syntax error unless already recovering; after a
      failed recovery (status 3) give up at end of input or discard the
      lookahead. */
  function ReportError(c: Config): (r: Config)
    requires Inv(c) && c.phase.ErrLab?
    ensures Inv(r)
    ensures r.states == c.states && r.values == c.values && r.input == c.input
    ensures r.errStatus == c.errStatus && r.saved == c.saved
    ensures |r.diags| == |c.diags| + 1 <==> c.errStatus == 0
    ensures r.diags == c.diags <==> c.errStatus != 0
    ensures c.errStatus == 0 ==> r.diags == c.diags + [Diag(SyntaxDiag, c.cur.line, "syntax error")]
    ensures r.phase.Aborted? <==> c.errStatus == 3 && c.lookahead == Eof
    ensures !r.phase.Aborted? ==> r.phase.ErrLab1?
    ensures r.phase.ErrLab1? && c.errStatus == 3 ==> r.lookahead == Empty
    ensures c.errStatus != 3 ==> r.lookahead == c.lookahead
  {
    var d := if c.errStatus == 0
             then c.(nerrs := c.nerrs + 1, diags := c.diags + [Diag(SyntaxDiag, c.cur.line, "syntax error")])
             else c;
    if c.errStatus == 3 then
      if c.lookahead == Eof then d.(phase := Aborted)
      else d.(phase := ErrLab1, lookahead := Empty)
    else d.(phase := ErrLab1)
  }

  /** The state the top state shifts to on the `error` token, if any. */
  function ErrorShift(a: Tables.Automaton, state: int): (r: Option<int>)
    requires Tables.Valid(a)
    ensures r.Some? ==> r.value > 0
    ensures r.Some? <==>
              && 0 <= state < Tables.NStates && a.pact[state] != Tables.PactNinf
              && 0 <= a.pact[state] + Tables.ErrorSymbol <= Tables.Last
              && a.check[a.pact[state] + Tables.ErrorSymbol] == Tables.ErrorSymbol
              && a.table[a.pact[state] + Tables.ErrorSymbol] > 0
    ensures r.Some? ==> r.value == a.table[a.pact[state] + Tables.ErrorSymbol]
  {
    if !(0 <= state < Tables.NStates) then None
    else
      var base := a.pact[state];
      if base == Tables.PactNinf then None
      else
        match TableEntry(a, base + Tables.ErrorSymbol, Tables.ErrorSymbol)
        case Some(s) => if 0 < s then Some(s) else None
        case None => None
  }

  /** One round of the yyerrlab1 loop: with the status set to 3, shift
      `error` if the top state can, otherwise pop that state, aborting when
      only the bottom state is left. */
  function Recover(a: Tables.Automaton, c: Config): (r: Config)
    requires Tables.Valid(a)
    requires Inv(c) && c.phase.ErrLab1?
    ensures Inv(r)
    ensures r.errStatus == 3
    ensures r.input == c.input && r.lookahead == c.lookahead && r.diags == c.diags
    ensures r.phase.NewState? || r.phase.ErrLab1? || r.phase.Aborted?
    ensures r.phase.NewState? <==> ErrorShift(a, c.state).Some?
    ensures r.phase.NewState? ==> ErrorShift(a, c.state) == Some(r.state) && r.states == c.states && r.values == c.values + [[]]
    ensures r.phase.NewState? ==> r.states != [] && ErrorShift(a, r.states[|r.states| - 1]) == Some(r.state)
    ensures r.phase.ErrLab1? ==> r.states == c.states[..|c.states| - 1] && r.values == c.values[..|c.values| - 1]
    ensures r.phase.Aborted? <==> ErrorShift(a, c.state).None? && |c.states| == 1
  {
    var d := c.(errStatus := 3);
    match ErrorShift(a, c.state)
    case Some(s) => d.(phase := NewState, state := s, values := c.values + [[]])
    case None =>
      if |c.states| == 1 then d.(phase := Aborted)
      else
        var states := c.states[..|c.states| - 1];
        d.(states := states, values := c.values[..|c.values| - 1], state := states[|states| - 1])
  }

  /** The code between two labels of yyparse. */
  function Step(a: Tables.Automaton, c: Config): (r: Config)
    requires Tables.Valid(a)
    requires Inv(c)
    ensures Inv(r)
    ensures Terminal(c.phase) ==> r == c
    ensures r.input == c.input || (c.input != [] && r.input == c.input[1..])
    ensures c.diags <= r.diags
  {
    match c.phase
    case NewState => SetState(c)
    case Backup => Lookahead(a, c)
    case Default => DefaultAction(a, c)
    case Reduce(rule) => ReduceBy(a, c, rule)
    case ErrLab => ReportError(c)
    case ErrLab1 => Recover(a, c)
    case _ => c
  }

  /** Runs the driver for at most `fuel` steps; None when it has not
      returned by then. */
  function Run(a: Tables.Automaton, c: Config, fuel: nat): (r: Option<Config>)
    requires Tables.Valid(a)
    requires Inv(c)
    ensures r.Some? ==> Inv(r.value) && Terminal(r.value.phase)
    ensures r.Some? ==> c.diags <= r.value.diags
    ensures r.Some? ==> |r.value.states| <= Tables.MaxDepth
    ensures r.Some? && r.value.phase.Accepted? ==> r.value.state == Tables.Final
    decreases fuel
  {
    if Terminal(c.phase) then Some(c)
    else if fuel == 0 then None
    else Run(a, Step(a, c), fuel - 1)
  }

  /** `fuel` more steps, stopping early once the driver has returned. */
  function Steps(a: Tables.Automaton, c: Config, n: nat): (r: Config)
    requires Tables.Valid(a)
    requires Inv(c)
    ensures Inv(r)
    decreases n
  {
    if n == 0 then c else Steps(a, Step(a, c), n - 1)
  }

  /** The whole yyerrlab1 loop: pop states until the top one shifts
      `error` (continuing in NewState) or only the bottom state is left
      (aborting). */
  function Unwind(a: Tables.Automaton, c: Config): (r: Config)
    requires Tables.Valid(a)
    requires Inv(c) && c.phase.ErrLab1?
    ensures Inv(r) && (r.phase.NewState? || r.phase.Aborted?)
    ensures r.errStatus == 3 && r.input == c.input && r.diags == c.diags
    ensures r.states <= c.states
    ensures r.phase.NewState? ==> r.states != [] && ErrorShift(a, r.states[|r.states| - 1]) == Some(r.state)
    decreases |c.states|
  {
    var d := Recover(a, c);
    if d.phase.ErrLab1? then
      var r := Unwind(a, d);
      assert r.states <= d.states <= c.states;
      r
    else d
  }

  /** The loop takes at most as many rounds as there are states. */
  lemma {:induction false} UnwindBySteps(a: Tables.Automaton, c: Config)
    requires Tables.Valid(a)
    requires Inv(c) && c.phase.ErrLab1?
    ensures exists n :: 1 <= n <= |c.states| && Steps(a, c, n) == Unwind(a, c)
    decreases |c.states|
  {
    var d := Recover(a, c);
    assert Steps(a, c, 1) == Steps(a, d, 0) == d;
    if d.phase.ErrLab1? {
      UnwindBySteps(a, d);
      var n :| 1 <= n <= |d.states| && Steps(a, d, n) == Unwind(a, d);
      StepsSplit(a, c, n);
      assert Steps(a, c, n + 1) == Unwind(a, c);
    }
  }

  lemma {:induction false} StepsSplit(a: Tables.Automaton, c: Config, n: nat)
    requires Tables.Valid(a)
    requires Inv(c)
    ensures Steps(a, c, n + 1) == Steps(a, Step(a, c), n)
  {
  }

  /** More fuel never changes a run that has already returned. */
  lemma {:induction false} RunMonotone(a: Tables.Automaton, c: Config, fuel: nat, more: nat)
    requires Tables.Valid(a)
    requires Inv(c) && Run(a, c, fuel).Some? && fuel <= more
    ensures Run(a, c, more) == Run(a, c, fuel)
    decreases fuel
  {
    if Terminal(c.phase) {
      Stopped(a, c);
    } else {
      var d := Advance(a, c);
      RunMonotone(a, d, fuel - 1, more - 1);
      calc {
        Run(a, c, more);
        Run(a, d, more - 1);
        Run(a, d, fuel - 1);
        Run(a, c, fuel);
      }
    }
  }

  /** A driver that has returned stays where it is, whatever the fuel. */
  lemma Stopped(a: Tables.Automaton, c: Config)
    requires Tables.Valid(a)
    requires Inv(c) && Terminal(c.phase)
    ensures forall fuel: nat :: Run(a, c, fuel) == Some(c)
  {
  }

  /** The configuration one step on, for every fuel budget: a run that
      has not returned continues from it. */
  lemma Advance(a: Tables.Automaton, c: Config) returns (d: Config)
    requires Tables.Valid(a)
    requires Inv(c) && !Terminal(c.phase)
    ensures Inv(d)
    ensures d.input == c.input || (c.input != [] && d.input == c.input[1..])
    ensures forall fuel: nat :: Run(a, c, fuel).Some? ==> 0 < fuel
    ensures forall fuel: nat :: 0 < fuel ==> Run(a, c, fuel) == Run(a, d, fuel - 1)
  {
    d := Step(a, c);
  }

  /** The driver reads the token stream from the front only: what is left
      when it returns is a suffix of what it started with. */
  lemma {:induction false} RunConsumesSuffix(a: Tables.Automaton, c: Config, fuel: nat)
    requires Tables.Valid(a)
    requires Inv(c) && Run(a, c, fuel).Some?
    ensures exists k :: 0 <= k <= |c.input| && Run(a, c, fuel).value.input == c.input[k..]
    decreases fuel
  {
    if Terminal(c.phase) {
      Stopped(a, c);
      assert c.input[0..] == c.input;
    } else {
      var d := Advance(a, c);
      RunConsumesSuffix(a, d, fuel - 1);
      SuffixOfStep(c.input, d.input, Run(a, d, fuel - 1).value.input);
    }
  }

  /** A suffix of what one step left is a suffix of what it started with. */
  lemma SuffixOfStep<T>(before: seq<T>, after: seq<T>, rest: seq<T>)
    requires after == before || (before != [] && after == before[1..])
    requires exists k :: 0 <= k <= |after| && rest == after[k..]
    ensures exists k :: 0 <= k <= |before| && rest == before[k..]
  {
    var k :| 0 <= k <= |after| && rest == after[k..];
    if after != before {
      assert rest == before[k + 1..];
    }
  }

  /** What `parse` hands back: `yyparse`'s result code (0 accept, 1 abort,
      2 memory exhausted), `savedTree`, and the syntax diagnostics. */
  datatype Outcome = Outcome(code: int, tree: Tree, diags: seq<Diag>)

  /** `yyparse` from the start on the token stream with tables `a`, as
      `parse` sees it. None when the driver has not returned within `fuel`
      steps or hit a `Fault`. */
  function ParseWith(a: Tables.Automaton, tokens: seq<Actions.Token>, fuel: nat): (r: Option<Outcome>)
    requires Tables.Valid(a)
    ensures r.Some? ==> r.value.code in {0, 1, 2}
    ensures r.Some? ==> (r.value.code == 2 <==> exists i :: 0 <= i < |r.value.diags| && r.value.diags[i].msg == "memory exhausted")
    ensures r.None? <==> (Run(a, Initial(tokens), fuel).None? || Run(a, Initial(tokens), fuel).value.phase.Fault?)
    ensures r.Some? ==>
              var f := Run(a, Initial(tokens), fuel).value;
              && (r.value.code == 0 <==> f.phase.Accepted?)
              && (r.value.code == 1 <==> f.phase.Aborted?)
              && r.value.tree == f.saved && r.value.diags == f.diags
  {
    match Run(a, Initial(tokens), fuel)
    case None => None
    case Some(f) =>
      if f.phase.Fault? then None
      else Some(Outcome(if f.phase.Accepted? then 0 else if f.phase.Aborted? then 1 else 2, f.saved, f.diags))
  }

  /** `parse`: `yyparse` with the generated tables, returning `savedTree`. */
  function Parse(tokens: seq<Actions.Token>, fuel: nat): (r: Option<Outcome>)
    ensures r.Some? ==> r.value.code in {0, 1, 2}
    ensures r.Some? ==> (r.value.code == 2 <==> exists i :: 0 <= i < |r.value.diags| && r.value.diags[i].msg == "memory exhausted")
  {
    ParseWith(Tables.Generated, tokens, fuel)
  }
}
