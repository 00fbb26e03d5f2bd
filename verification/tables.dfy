/**
 The LALR(1) tables Bison generated for the C-minus grammar, as constant
 sequences, together with the parser's sizing constants. The tables are
 data: nothing here is proved about the grammar they encode.
 */
module Tables {

  /** YYFINAL: the accepting state. */
  const Final: int := 9
  /** YYLAST: the last index of `yytable` and `yycheck`. */
  const Last: int := 103
  /** YYNTOKENS: terminal symbols are numbered below this. */
  const NTokens: int := 31
  /** YYNSTATES and YYNRULES. */
  const NStates: int := 107
  const NRules: int := 64
  /** YYPACT_NINF: the `yypact` marker of a default-only state. */
  const PactNinf: int := -45
  /** YYTERROR: the symbol number of the `error` token. */
  const ErrorSymbol: int := 1
  /** YYMAXUTOK: the largest token code the scanner produces. */
  const MaxTok: int := 285
  /** YYUNDEFTOK: the symbol number of an unknown token code. */
  const UndefSymbol: int := 2
  /** YYINITDEPTH and YYMAXDEPTH: initial and maximal stack capacity. */
  const InitDepth: int := 200
  const MaxDepth: int := 10000

  /** YYTRANSLATE: external token code to internal symbol number. The
      generated table maps code 0 to 0, 256 to 1, 258..285 to 3..30 and
      every other code up to 285 to 2; codes above 285 are unknown too. */
  function Translate(code: int): (sym: int)
    requires code >= 0
    ensures 0 <= sym < NTokens
    ensures code <= MaxTok && 258 <= code ==> sym == code - 255
    ensures sym == 0 <==> code == 0
  {
    if code == 0 then 0
    else if code == 256 then 1
    else if 258 <= code <= MaxTok then code - 255
    else UndefSymbol
  }

  /** YYPACT: Per state: index into `yytable` of the state's token actions, or `PactNinf` when the state only has a default reduction. */
  const Pact: seq<int> := [
       9,  -45,  -45,   12,    9,  -45,  -45,    7,  -45,  -45,
     -45,  -45,   22,  -45,   10,   41,   28,    7,   33,   20,
     -45,  -45,   44,   37,   54,    9,   79,   62,  -45,  -45,
     -45,  -45,  -45,    9,  -45,  -45,    7,    4,  -45,   31,
     -45,   66,   30,   67,   48,  -45,  -45,  -45,  -45,  -45,
     -45,  -45,   83,   76,  -45,   47,  -23,  -45,  -45,   35,
     -45,   48,  -45,   85,   48,   70,  -45,   48,  -45,  -45,
     -45,  -45,  -45,  -45,   48,   48,   48,   48,   48,   48,
      48,   71,  -45,   72,  -45,  -45,  -45,  -23,  -23,   45,
     -45,  -45,  -45,   73,   89,  -45,   74,   36,   36,  -45,
      48,  -45,   87,  -45,  -45,   36,  -45
  ]

  /** YYDEFACT: Per state: the default reduction rule; 0 means a syntax error. */
  const DefAct: seq<int> := [
       0,    9,   10,    0,    2,    3,    5,    0,    6,    1,
       4,   62,    0,    7,    0,    0,   10,    0,    0,   12,
      15,   63,    0,   16,    0,    0,    0,    0,   64,   11,
      14,    8,   17,   64,   20,   19,    0,    0,   22,    0,
      29,    0,    0,    0,    0,   18,   24,   21,   23,   25,
      26,   27,    0,   54,   36,   40,   49,   52,   55,   37,
      56,    0,   33,    0,    0,    0,   28,    0,   45,   42,
      41,   43,   44,   46,    0,    0,    0,    0,    0,   64,
       0,    0,   34,    0,   53,   35,   54,   47,   48,   39,
      50,   51,   61,    0,   58,   59,    0,    0,    0,   57,
       0,   38,   30,   32,   60,    0,   31
  ]

  /** YYPGOTO: Per nonterminal: base index into `yytable` for the goto after a reduction. */
  const PGoto: seq<int> := [
     -45,  -45,  -45,   94,   68,  -10,  -45,  -45,  -45,   75,
      78,  -45,  -45,  -28,  -45,  -45,  -45,  -45,  -42,    5,
     -45,  -45,   23,  -44,   -2,  -45,  -45,  -45,   -4,   88,
     -32
  ]

  /** YYDEFGOTO: Per nonterminal: the default goto state. */
  const DefGoto: seq<int> := [
      -1,    3,    4,    5,    6,    7,    8,   18,   19,   20,
      46,   33,   37,   47,   48,   49,   50,   51,   52,   53,
      54,   76,   55,   56,   57,   58,   93,   94,   59,   60,
      34
  ]

  /** YYTABLE: Actions and gotos: a positive entry is a state to shift to, a non-positive one the negated rule to reduce by. */
  const Table: seq<int> := [
      63,   38,   65,   12,   17,   77,   78,   11,   21,   40,
      11,   41,    9,   23,   42,   17,   43,    1,    1,   81,
       2,   16,   83,   36,   44,   85,   25,   13,   28,   45,
      87,   88,   39,   11,   21,   62,   13,   92,   96,   11,
      21,   40,   14,   41,   15,   21,   42,   95,   43,  -13,
      44,   11,   21,   15,   24,   79,   44,   80,  104,   27,
      28,   68,   69,   70,   71,   72,   73,   26,   44,  102,
     103,   74,   75,   74,   75,   90,   91,  106,   28,   86,
      86,   86,   86,   86,   31,   32,   61,   64,   66,   67,
      82,   84,   97,   98,   99,  100,  105,  101,   10,   89,
      30,   35,   29,   22
  ]

  /** YYCHECK: Guards `yytable`: an entry is valid only when the check entry equals the symbol (or state) looked up. */
  const Check: seq<int> := [
      42,   33,   44,    7,   14,   28,   29,    3,    4,    5,
       3,    7,    0,   17,   10,   25,   12,    8,    8,   61,
      11,   11,   64,   33,   20,   67,    6,    5,   24,   25,
      74,   75,   36,    3,    4,    5,    5,   79,   80,    3,
       4,    5,   20,    7,   22,    4,   10,   79,   12,   21,
      20,    3,    4,   22,   21,   20,   20,   22,  100,   22,
      24,   14,   15,   16,   17,   18,   19,   23,   20,   97,
      98,   26,   27,   26,   27,   77,   78,  105,   24,   74,
      75,   76,   77,   78,    5,   23,   20,   20,    5,   13,
       5,   21,   21,   21,   21,    6,    9,   23,    4,   76,
      25,   33,   24,   15
  ]

  /** YYR1: Per rule: the nonterminal symbol number on its left-hand side. */
  const R1: seq<int> := [
       0,   31,   32,   33,   33,   34,   34,   35,   35,   36,
      36,   37,   38,   38,   39,   39,   40,   40,   41,   42,
      42,   43,   43,   44,   44,   44,   44,   44,   45,   45,
      46,   46,   47,   48,   48,   49,   49,   50,   50,   51,
      51,   52,   52,   52,   52,   52,   52,   53,   53,   53,
      54,   54,   54,   55,   55,   55,   55,   56,   57,   57,
      58,   58,   59,   60,   61
  ]

  /** The tables `yyparse` consults, as one value: the driver is stated
      for any tables of the generated shape, and `Generated` holds the ones
      Bison produced for the C-minus grammar. */
  datatype Automaton = Automaton(
    pact: seq<int>,      // yypact, per state
    defAct: seq<int>,    // yydefact, per state
    pGoto: seq<int>,     // yypgoto, per nonterminal
    defGoto: seq<int>,   // yydefgoto, per nonterminal
    table: seq<int>,     // yytable
    check: seq<int>,     // yycheck
    r1: seq<int>)        // yyr1, per rule

  /** The sizes the generated tables have. */
  predicate Valid(a: Automaton)
  {
    && |a.pact| == NStates && |a.defAct| == NStates
    && |a.pGoto| == |a.defGoto|
    && |a.table| == Last + 1 && |a.check| == Last + 1
    && |a.r1| == NRules + 1
  }

  const Generated: Automaton := Automaton(Pact, DefAct, PGoto, DefGoto, Table, Check, R1)

  /** YYR2: the number of symbols on the right-hand side of each rule,
      written out by length. */
  function RhsLength(rule: int): nat
    requires 1 <= rule <= NRules
  {
    match rule
    case 64 => 0
    case 31 => 7
    case 8 | 11 => 6
    case 30 | 32 => 5
    case 17 | 18 | 38 | 57 => 4
    case 7 | 14 | 34 | 35 | 39 | 47 | 48 | 50 | 51 | 53 | 60 => 3
    case 1 | 4 | 16 | 19 | 21 | 28 | 33 => 2
    case _ => 1
  }

}
