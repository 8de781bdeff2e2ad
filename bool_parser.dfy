/**
 * bool/bool.go: a recursive-descent parser for boolean expressions over a
 * configurable set of five token strings, with the grammar
 *
 *   parens -> ( and ) | and        (as written: "(" expr ")" | rest)
 *   and    -> or AND and | or
 *   or     -> not OR or | not
 *   not    -> NOT parens | parens
 *
 * Everything that is not one of the five tokens is left, a run at a time,
 * in `Ast.Unparsed` leaves.
 *
 * The grammar is given twice: once as functions over the remaining token
 * sequence (`ExprOf` and its relatives), once as the methods of `Parser`
 * that move a shared cursor, as the Go code does. Each method is proved to
 * agree with its function; the properties are proved about the functions.
 */
module BoolParser {
  import opened Text
  import Ast

  /** `Token` is a Go `uint8`; the five named tokens are 1 to 5. */
  newtype Token = x: int | 0 <= x < 256

  const And: Token := 1
  const Or: Token := 2
  const Not: Token := 3
  const OpenParen: Token := 4
  const CloseParen: Token := 5

  datatype Op = OpAnd | OpOr | OpNot

  /** The nodes a parse yields: an unparsed run, a binary node, or a negation. */
  datatype Expr =
    | Leaf(unparsed: Ast.Unparsed)
    | BinExpr(lhs: Expr, rhs: Expr, op: Op)
    | UnaryExpr(op: Op, expr: Expr)

  /** The token-to-string mapping; a token missing from it reads as "", as a Go map does. */
  type Config = map<Token, string>

  function Get(config: Config, t: Token): string {
    if t in config then config[t] else ""
  }

  /** The ANSI-SQL flavoured default. */
  const DefaultConfig: Config :=
    map[And := "AND", Or := "OR", Not := "NOT", OpenParen := "(", CloseParen := ")"]

  /** The functional options of `NewParser`, as data. */
  datatype ParserOpt = WithTokens(tokens: Config) | WithCaseSensitive(caseSensitive: bool)

  /** The two settings the options write. */
  datatype Options = Options(config: Config, caseInsensitive: bool)

  const Defaults: Options := Options(DefaultConfig, false)

  function ApplyOpt(o: Options, opt: ParserOpt): Options {
    match opt
    case WithTokens(config) => o.(config := config)
    case WithCaseSensitive(caseSensitive) => o.(caseInsensitive := !caseSensitive)
  }

  /** The options applied left to right, each on the result of the ones before. */
  function ApplyOpts(o: Options, opts: seq<ParserOpt>): Options
    decreases |opts|
  {
    if opts == [] then o else ApplyOpts(ApplyOpt(o, opts[0]), opts[1..])
  }

  /** A configured parser: the (possibly lower-cased) mapping and the set of its strings. */
  datatype Syntax = Syntax(config: Config, keywords: set<string>, caseInsensitive: bool)

  function Lowered(config: Config): Config {
    map t | t in config :: ToLower(config[t])
  }

  /**
   * `init`: both brackets must be one byte long and differ; then, when
   * case-insensitive, every string is lower-cased; then the mapping's strings
   * must number exactly five.
   */
  function Configure(o: Options): (r: Ast.Result<Syntax>)
    ensures r.Err? ==> r.error == Ast.ConfigError
    ensures r.Ok? ==> r.value.caseInsensitive == o.caseInsensitive && |r.value.keywords| == 5
    ensures r.Ok? ==> r.value.keywords == r.value.config.Values
    ensures r.Ok? ==> forall t :: t in r.value.config ==> r.value.config[t] in r.value.keywords
  {
    var open, close := Get(o.config, OpenParen), Get(o.config, CloseParen);
    if Utf8Length(open) != 1 || Utf8Length(close) != 1 then Ast.Err(Ast.ConfigError)
    else if open == close then Ast.Err(Ast.ConfigError)
    else
      var config := if o.caseInsensitive then Lowered(o.config) else o.config;
      var keywords := config.Values;
      if |keywords| != 5 then Ast.Err(Ast.ConfigError)
      else Ast.Ok(Syntax(config, keywords, o.caseInsensitive))
  }

  /** `NewParser`'s outcome: the defaults, then the options, then `init`. */
  function NewParserOf(opts: seq<ParserOpt>): Ast.Result<Syntax> {
    Configure(ApplyOpts(Defaults, opts))
  }

  // ---------------------------------------------------------------- tokenize

  predicate IsParen(syn: Syntax, c: char) {
    [c] == Get(syn.config, OpenParen) || [c] == Get(syn.config, CloseParen)
  }

  /** The loop state of `tokenize`: the pending run and the tokens emitted so far. */
  datatype TokState = TokState(substr: string, result: seq<string>)

  const Blank: TokState := TokState([], [])

  /**
   * One iteration of `tokenize`'s loop on the rune `c`: a bracket flushes the
   * run and stands alone, whitespace flushes the run, any other rune extends
   * the run, which is emitted at once if it now spells a keyword.
   */
  function TokStep(syn: Syntax, s: TokState, c: char): TokState {
    if IsParen(syn, c) then
      TokState([], s.result + Ast.Flush(s.substr) + [[c]])
    else if IsSpace(c) then
      TokState([], s.result + Ast.Flush(s.substr))
    else if s.substr + [c] in syn.keywords then
      TokState([], s.result + [s.substr + [c]])
    else
      TokState(s.substr + [c], s.result)
  }

  /** The loop from index `i` to the end. */
  function TokRun(syn: Syntax, runes: string, i: nat, s: TokState): TokState
    decreases |runes| - i
  {
    if i >= |runes| then s else TokRun(syn, runes, i + 1, TokStep(syn, s, runes[i]))
  }

  /** The text `tokenize` scans: lower-cased first when case-insensitive. */
  function Input(syn: Syntax, str: string): string {
    if syn.caseInsensitive then ToLower(str) else str
  }

  /** `tokenize`: the loop, then the pending run flushed. */
  function TokensOf(syn: Syntax, str: string): seq<string> {
    var s := TokRun(syn, Input(syn, str), 0, Blank);
    s.result + Ast.Flush(s.substr)
  }

  // ------------------------------------------------- tokens one at a time

  /** A rune that ends a run: whitespace or a bracket. */
  predicate Breaks(syn: Syntax, c: char) {
    IsSpace(c) || IsParen(syn, c)
  }

  /**
   * The length of the run that starts `str`, looked at from length `k` on:
   * the first length at which the run spells a keyword or the next rune is
   * whitespace, a bracket or past the end.
   */
  function LexemeLength(syn: Syntax, str: string, k: nat): (n: nat)
    requires 0 < k <= |str|
    ensures k <= n <= |str|
    ensures forall j :: k <= j < n ==> !Breaks(syn, str[j])
    ensures forall m :: k <= m < n ==> str[..m] !in syn.keywords
    ensures n == |str| || Breaks(syn, str[n]) || str[..n] in syn.keywords
    decreases |str| - k
  {
    if str[..k] in syn.keywords || k == |str| || Breaks(syn, str[k]) then k
    else LexemeLength(syn, str, k + 1)
  }

  /**
   * The tokens of `str` taken one at a time: a bracket is a token of its
   * own, whitespace separates tokens and is dropped, and any other rune
   * starts a run that ends before the next whitespace or bracket, at the end
   * of the text, or as soon as it spells a keyword, whichever comes first.
   */
  function Lexemes(syn: Syntax, str: string): seq<string>
    decreases |str|
  {
    if str == [] then []
    else if IsParen(syn, str[0]) then [[str[0]]] + Lexemes(syn, str[1..])
    else if IsSpace(str[0]) then Lexemes(syn, str[1..])
    else
      var n := LexemeLength(syn, str, 1);
      [str[..n]] + Lexemes(syn, str[n..])
  }

  /**
   * `str[..k]` is a run the loop is still extending: it starts with a rune
   * that does not break, spells no keyword, and the run that starts `str`
   * reaches at least this far.
   */
  predicate Pending(syn: Syntax, str: string, k: nat) {
    && 0 < k <= |str|
    && !Breaks(syn, str[0])
    && str[..k] !in syn.keywords
    && LexemeLength(syn, str, 1) == LexemeLength(syn, str, k)
  }

  /** A pending run followed by whitespace, a bracket or the end is one lexeme. */
  lemma LexemeAtBreak(syn: Syntax, runes: string, a: nat, i: nat)
    requires a <= i <= |runes|
    requires a < i ==> Pending(syn, runes[a..], i - a)
    requires i < |runes| ==> Breaks(syn, runes[i])
    ensures Lexemes(syn, runes[a..]) == Ast.Flush(runes[a..i]) + Lexemes(syn, runes[i..])
  {
    if a < i {
      var str := runes[a..];
      assert i - a < |str| ==> str[i - a] == runes[i];
      assert LexemeLength(syn, str, i - a) == i - a;
      assert str[..i - a] == runes[a..i];
      assert str[i - a..] == runes[i..];
    } else {
      assert runes[a..i] == [];
    }
  }

  /** A run that spells a keyword with the rune at `i` is one lexeme. */
  lemma LexemeAtKeyword(syn: Syntax, runes: string, a: nat, i: nat)
    requires a <= i < |runes|
    requires a < i ==> Pending(syn, runes[a..], i - a)
    requires !Breaks(syn, runes[i]) && runes[a..i + 1] in syn.keywords
    ensures Lexemes(syn, runes[a..]) == [runes[a..i + 1]] + Lexemes(syn, runes[i + 1..])
  {
    var str := runes[a..];
    assert str[i - a] == runes[i];
    assert str[..i - a + 1] == runes[a..i + 1];
    assert LexemeLength(syn, str, i - a + 1) == i - a + 1;
    if a < i {
      assert LexemeLength(syn, str, i - a) == i - a + 1;
    }
    assert str[i - a + 1..] == runes[i + 1..];
  }

  /** A rune that neither breaks nor completes a keyword extends the pending run. */
  lemma PendingExtend(syn: Syntax, runes: string, a: nat, i: nat)
    requires a <= i < |runes|
    requires a < i ==> Pending(syn, runes[a..], i - a)
    requires !Breaks(syn, runes[i]) && runes[a..i + 1] !in syn.keywords
    ensures Pending(syn, runes[a..], i + 1 - a)
  {
    var str := runes[a..];
    assert str[i - a] == runes[i];
    assert str[..i - a + 1] == runes[a..i + 1];
    if a < i {
      assert LexemeLength(syn, str, i - a) == LexemeLength(syn, str, i - a + 1);
    }
  }

  /**
   * From index `i`, with `runes[a..i]` pending, the loop emits the pending
   * run's lexeme and then every further lexeme, in order.
   */
  lemma {:induction false} TokRunLexemes(syn: Syntax, runes: string, i: nat, s: TokState, a: nat)
    requires a <= i <= |runes|
    requires s.substr == runes[a..i]
    requires a < i ==> Pending(syn, runes[a..], i - a)
    ensures var s' := TokRun(syn, runes, i, s);
      s'.result + Ast.Flush(s'.substr) == s.result + Lexemes(syn, runes[a..])
    decreases |runes| - i, 1
  {
    if i < |runes| && !Breaks(syn, runes[i]) {
      if runes[a..i + 1] in syn.keywords {
        SliceSnoc(runes, a, i);
        TokRunLexemesAtKeyword(syn, runes, i, s);
        LexemeAtKeyword(syn, runes, a, i);
        AppendAssoc(s.result, [runes[a..i + 1]], Lexemes(syn, runes[i + 1..]));
      } else {
        TokRunLexemesExtend(syn, runes, i, s, a);
      }
    } else {
      LexemeAtBreak(syn, runes, a, i);
      if i < |runes| {
        TokRunLexemesAtBreak(syn, runes, i, s);
      } else {
        assert runes[i..] == [];
      }
    }
  }

  /** Whitespace or a bracket flushes the pending run, which is one lexeme. */
  lemma {:induction false} TokRunLexemesAtBreak(syn: Syntax, runes: string, i: nat, s: TokState)
    requires i < |runes| && Breaks(syn, runes[i])
    ensures var s' := TokRun(syn, runes, i, s);
      s'.result + Ast.Flush(s'.substr) == s.result + Ast.Flush(s.substr) + Lexemes(syn, runes[i..])
    decreases |runes| - i, 0
  {
    var own := BreakLexeme(syn, runes[i..]);
    assert runes[i..][1..] == runes[i + 1..];
    var s1 := BreakStep(syn, s, runes[i]);
    assert runes[i..][0] == runes[i];
    TokRunLexemes(syn, runes, i + 1, s1, i + 1);
    assert s1.result + Lexemes(syn, runes[i + 1..])
      == s.result + Ast.Flush(s.substr) + (own + Lexemes(syn, runes[i + 1..]));
  }

  /** At whitespace or a bracket the loop flushes the run, and keeps a bracket as a token. */
  lemma BreakStep(syn: Syntax, s: TokState, c: char) returns (s': TokState)
    requires Breaks(syn, c)
    ensures s' == TokStep(syn, s, c)
    ensures s' == TokState([], s.result + Ast.Flush(s.substr) + (if IsParen(syn, c) then [[c]] else []))
  {
    s' := TokStep(syn, s, c);
    if !IsParen(syn, c) {
      assert s.result + Ast.Flush(s.substr) + [] == s.result + Ast.Flush(s.substr);
    }
  }

  /** At whitespace the lexemes skip it; at a bracket the bracket is a lexeme of its own. */
  lemma BreakLexeme(syn: Syntax, str: string) returns (own: seq<string>)
    requires str != [] && Breaks(syn, str[0])
    ensures own == if IsParen(syn, str[0]) then [[str[0]]] else []
    ensures Lexemes(syn, str) == own + Lexemes(syn, str[1..])
  {
    own := if IsParen(syn, str[0]) then [[str[0]]] else [];
  }

  /** A run completed into a keyword by the rune at `i` is emitted at once. */
  lemma {:induction false} TokRunLexemesAtKeyword(syn: Syntax, runes: string, i: nat, s: TokState)
    requires i < |runes| && !Breaks(syn, runes[i])
    requires s.substr + [runes[i]] in syn.keywords
    ensures var s' := TokRun(syn, runes, i, s);
      s'.result + Ast.Flush(s'.substr) == s.result + [s.substr + [runes[i]]] + Lexemes(syn, runes[i + 1..])
    decreases |runes| - i, 0
  {
    var s1 := RunStep(syn, s, runes[i]);
    TokRunLexemes(syn, runes, i + 1, s1, i + 1);
  }

  /** A rune that neither breaks nor completes a keyword extends the pending run. */
  lemma {:induction false} TokRunLexemesExtend(syn: Syntax, runes: string, i: nat, s: TokState, a: nat)
    requires a <= i < |runes| && !Breaks(syn, runes[i])
    requires s.substr == runes[a..i]
    requires a < i ==> Pending(syn, runes[a..], i - a)
    requires runes[a..i + 1] !in syn.keywords
    ensures var s' := TokRun(syn, runes, i, s);
      s'.result + Ast.Flush(s'.substr) == s.result + Lexemes(syn, runes[a..])
    decreases |runes| - i, 0
  {
    SliceSnoc(runes, a, i);
    var s1 := RunStep(syn, s, runes[i]);
    PendingExtend(syn, runes, a, i);
    TokRunLexemes(syn, runes, i + 1, s1, a);
  }

  lemma SliceSnoc(runes: string, a: nat, i: nat)
    requires a <= i < |runes|
    ensures runes[a..i] + [runes[i]] == runes[a..i + 1]
  {
  }

  /** Any other rune extends the run, which is emitted at once if it spells a keyword. */
  lemma RunStep(syn: Syntax, s: TokState, c: char) returns (s': TokState)
    requires !Breaks(syn, c)
    ensures s' == TokStep(syn, s, c)
    ensures s' == if s.substr + [c] in syn.keywords then TokState([], s.result + [s.substr + [c]])
      else TokState(s.substr + [c], s.result)
  {
    s' := TokStep(syn, s, c);
  }

  /** `tokenize` yields exactly the lexemes of the text it scans, for every syntax. */
  lemma TokensAreLexemes(syn: Syntax, str: string)
    ensures TokensOf(syn, str) == Lexemes(syn, Input(syn, str))
  {
    var runes := Input(syn, str);
    TokRunLexemes(syn, runes, 0, Blank, 0);
    assert runes[0..] == runes;
  }

  // ----------------------------------------------------------------- grammar

  /** A successful parse: the tree and how many tokens it consumed. */
  datatype Parsed = Parsed(expr: Expr, used: nat)

  /** `match`: the next token is the string configured for `t`. */
  predicate Starts(syn: Syntax, ts: seq<string>, t: Token) {
    |ts| > 0 && ts[0] == Get(syn.config, t)
  }

  /** The number of leading tokens that are not keywords. */
  function RestLength(keywords: set<string>, ts: seq<string>): (n: nat)
    ensures n <= |ts|
    ensures forall i :: 0 <= i < n ==> ts[i] !in keywords
    ensures n < |ts| ==> ts[n] in keywords
  {
    if ts == [] || ts[0] in keywords then 0 else 1 + RestLength(keywords, ts[1..])
  }

  /** `parseRest`: the longest run of non-keywords, which must not be empty. */
  function RestOf(syn: Syntax, ts: seq<string>): (r: Ast.Result<Parsed>)
    ensures r.Ok? ==> 0 < r.value.used <= |ts|
    ensures r.Err? ==> r.error == Ast.ParseError
  {
    var n := RestLength(syn.keywords, ts);
    if n == 0 then Ast.Err(Ast.ParseError)
    else Ast.Ok(Parsed(Leaf(Ast.Unparsed(ts[..n])), n))
  }

  /** `parseExpr`. */
  function ExprOf(syn: Syntax, ts: seq<string>): (r: Ast.Result<Parsed>)
    ensures r.Ok? ==> 0 < r.value.used <= |ts|
    ensures r.Err? ==> r.error == Ast.ParseError
    decreases |ts|, 5
  {
    AndOf(syn, ts)
  }

  /** `parseAnd`: an `or`, then, if AND follows, an `and` as its right operand. */
  function AndOf(syn: Syntax, ts: seq<string>): (r: Ast.Result<Parsed>)
    ensures r.Ok? ==> 0 < r.value.used <= |ts|
    ensures r.Err? ==> r.error == Ast.ParseError
    decreases |ts|, 4
  {
    match OrOf(syn, ts)
    case Err(e) => Ast.Err(e)
    case Ok(Parsed(lhs, u)) =>
      if Starts(syn, ts[u..], And) then
        match AndOf(syn, ts[u + 1..])
        case Err(e) => Ast.Err(e)
        case Ok(Parsed(rhs, v)) => Ast.Ok(Parsed(BinExpr(lhs, rhs, OpAnd), u + 1 + v))
      else
        Ast.Ok(Parsed(lhs, u))
  }

  /** `parseOr`: a `not`, then, if OR follows, an `or` as its right operand. */
  function OrOf(syn: Syntax, ts: seq<string>): (r: Ast.Result<Parsed>)
    ensures r.Ok? ==> 0 < r.value.used <= |ts|
    ensures r.Err? ==> r.error == Ast.ParseError
    decreases |ts|, 3
  {
    match NotOf(syn, ts)
    case Err(e) => Ast.Err(e)
    case Ok(Parsed(lhs, u)) =>
      if Starts(syn, ts[u..], Or) then
        match OrOf(syn, ts[u + 1..])
        case Err(e) => Ast.Err(e)
        case Ok(Parsed(rhs, v)) => Ast.Ok(Parsed(BinExpr(lhs, rhs, OpOr), u + 1 + v))
      else
        Ast.Ok(Parsed(lhs, u))
  }

  /** `parseNot`: NOT followed by a `parens`, or a `parens` alone. */
  function NotOf(syn: Syntax, ts: seq<string>): (r: Ast.Result<Parsed>)
    ensures r.Ok? ==> 0 < r.value.used <= |ts|
    ensures r.Err? ==> r.error == Ast.ParseError
    decreases |ts|, 2
  {
    if Starts(syn, ts, Not) then
      match ParensOf(syn, ts[1..])
      case Err(e) => Ast.Err(e)
      case Ok(Parsed(e, u)) => Ast.Ok(Parsed(UnaryExpr(OpNot, e), u + 1))
    else
      ParensOf(syn, ts)
  }

  /** `parseParens`: a bracketed `expr`, whose closing bracket is required, or a `rest`. */
  function ParensOf(syn: Syntax, ts: seq<string>): (r: Ast.Result<Parsed>)
    ensures r.Ok? ==> 0 < r.value.used <= |ts|
    ensures r.Err? ==> r.error == Ast.ParseError
    decreases |ts|, 1
  {
    if Starts(syn, ts, OpenParen) then
      match ExprOf(syn, ts[1..])
      case Err(e) => Ast.Err(e)
      case Ok(Parsed(e, u)) =>
        if Starts(syn, ts[1 + u..], CloseParen) then Ast.Ok(Parsed(e, u + 2))
        else Ast.Err(Ast.ParseError)
    else
      RestOf(syn, ts)
  }

  /** `Parse`: the whole token sequence must be consumed. */
  function ParseTokens(syn: Syntax, ts: seq<string>): Ast.Result<Expr> {
    match ExprOf(syn, ts)
    case Err(e) => Ast.Err(e)
    case Ok(Parsed(e, u)) => if u != |ts| then Ast.Err(Ast.ParseError) else Ast.Ok(e)
  }

  function ParseOf(syn: Syntax, str: string): Ast.Result<Expr> {
    ParseTokens(syn, TokensOf(syn, str))
  }

  /** The tree of a successful result, or its error. */
  function Tree(r: Ast.Result<Parsed>): Ast.Result<Expr> {
    match r
    case Err(e) => Ast.Err(e)
    case Ok(p) => Ast.Ok(p.expr)
  }

  // ------------------------------------------------------------------ Parser

  class Parser {
    var config: Config
    var keywords: set<string>
    var caseInsensitive: bool
    var tokens: seq<string>
    var curr: nat

    function Rules(): Syntax
      reads this
    {
      Syntax(config, keywords, caseInsensitive)
    }

    function Settings(): Options
      reads this
    {
      Options(config, caseInsensitive)
    }

    /** The parser `NewParser` starts from, before its options run. */
    constructor ()
      ensures Settings() == Defaults && keywords == {} && tokens == [] && curr == 0
    {
      config := DefaultConfig;
      keywords := {};
      caseInsensitive := false;
      tokens := [];
      curr := 0;
    }

    /** Running one option closure on the parser. */
    method Apply(opt: ParserOpt)
      modifies this`config, this`caseInsensitive
      ensures Settings() == ApplyOpt(old(Settings()), opt)
    {
      match opt
      case WithTokens(c) => config := c;
      case WithCaseSensitive(caseSensitive) => caseInsensitive := !caseSensitive;
    }

    /** `NewParser`: a parser on success, the configuration error otherwise. */
    static method NewParser(opts: seq<ParserOpt>) returns (p: Parser?, err: Ast.Option<Ast.Error>)
      ensures var r := NewParserOf(opts);
        && (r.Err? ==> p == null && err == Ast.Some(r.error))
        && (r.Ok? ==> p != null && fresh(p) && err == Ast.None
                      && p.Rules() == r.value && p.tokens == [] && p.curr == 0)
    {
      var parser := new Parser();
      for i := 0 to |opts|
        invariant ApplyOpts(parser.Settings(), opts[i..]) == ApplyOpts(Defaults, opts)
        invariant parser.tokens == [] && parser.curr == 0
      {
        assert opts[i..][1..] == opts[i + 1..];
        parser.Apply(opts[i]);
      }
      assert opts[|opts|..] == [];
      err := parser.Init();
      if err.Some? {
        return null, err;
      }
      return parser, Ast.None;
    }

    /** `init`: validates the settings and builds the keyword set. */
    method Init() returns (err: Ast.Option<Ast.Error>)
      modifies this`config, this`keywords
      ensures var r := Configure(old(Settings()));
        && (r.Err? ==> err == Ast.Some(Ast.ConfigError))
        && (r.Ok? ==> err == Ast.None && Rules() == r.value)
    {
      var open, close := Get(config, OpenParen), Get(config, CloseParen);
      if Utf8Length(open) != 1 || Utf8Length(close) != 1 {
        return Ast.Some(Ast.ConfigError);
      }
      if open == close {
        return Ast.Some(Ast.ConfigError);
      }
      if caseInsensitive {
        config := LowerAll(config);
      }
      keywords := ValuesOf(config);
      if |keywords| != 5 {
        return Ast.Some(Ast.ConfigError);
      }
      return Ast.None;
    }

    /** `Parse`: tokenize, parse an expression, and insist that nothing is left over. */
    method Parse(str: string) returns (r: Ast.Result<Expr>)
      modifies this`tokens, this`curr
      ensures r == ParseOf(Rules(), str)
      ensures tokens == TokensOf(Rules(), str)
      ensures r.Ok? ==> curr == |tokens|
    {
      tokens := Tokenize(str);
      curr := 0;
      assert tokens[0..] == tokens;
      var ast := ParseExpr();
      if ast.Err? {
        return ast;
      }
      if curr != |tokens| {
        return Ast.Err(Ast.ParseError);
      }
      return ast;
    }

    /** `tokenize`. */
    method Tokenize(str: string) returns (result: seq<string>)
      ensures result == TokensOf(Rules(), str)
      ensures result == Lexemes(Rules(), Input(Rules(), str))
    {
      var runes := str;
      if caseInsensitive {
        runes := ToLower(str);
      }
      var substr: string := [];
      result := [];
      for i := 0 to |runes|
        invariant TokRun(Rules(), runes, i, TokState(substr, result)) == TokRun(Rules(), runes, 0, Blank)
      {
        ghost var before := TokState(substr, result);
        if [runes[i]] == Get(config, OpenParen) || [runes[i]] == Get(config, CloseParen) {
          if |substr| != 0 {
            result := result + [substr];
            substr := [];
          }
          result := result + [[runes[i]]];
        } else if IsSpace(runes[i]) {
          if |substr| > 0 {
            result := result + [substr];
            substr := [];
          }
        } else {
          substr := substr + [runes[i]];
          if IsKeyword(substr) {
            result := result + [substr];
            substr := [];
          }
        }
        assert TokState(substr, result) == TokStep(Rules(), before, runes[i]);
      }
      if |substr| > 0 {
        result := result + [substr];
      }
      TokensAreLexemes(Rules(), str);
    }

    /** `match`: consume the next token if it is the string configured for `t`. */
    method Match(t: Token) returns (b: bool)
      requires curr <= |tokens|
      modifies this`curr
      ensures b == Starts(Rules(), tokens[old(curr)..], t)
      ensures curr == if b then old(curr) + 1 else old(curr)
    {
      if curr == |tokens| {
        return false;
      }
      if tokens[curr] == Get(config, t) {
        curr := curr + 1;
        return true;
      }
      return false;
    }

    function Peek(): string
      reads this
      requires curr < |tokens|
    {
      tokens[curr]
    }

    function IsKeyword(str: string): bool
      reads this
    {
      str in keywords
    }

    method ParseExpr() returns (r: Ast.Result<Expr>)
      requires curr <= |tokens|
      modifies this`curr
      ensures old(curr) <= curr <= |tokens|
      ensures var spec := ExprOf(Rules(), tokens[old(curr)..]);
        r == Tree(spec) && (spec.Ok? ==> curr == old(curr) + spec.value.used)
      decreases |tokens| - curr, 5
    {
      r := ParseAnd();
    }

    method ParseAnd() returns (r: Ast.Result<Expr>)
      requires curr <= |tokens|
      modifies this`curr
      ensures old(curr) <= curr <= |tokens|
      ensures var spec := AndOf(Rules(), tokens[old(curr)..]);
        r == Tree(spec) && (spec.Ok? ==> curr == old(curr) + spec.value.used)
      decreases |tokens| - curr, 4
    {
      ghost var start := curr;
      var lhs := ParseOr();
      if lhs.Err? {
        return lhs;
      }
      ghost var mid := curr;
      assert tokens[start..][mid - start..] == tokens[mid..];
      var found := Match(And);
      if found {
        assert tokens[start..][mid - start + 1..] == tokens[curr..];
        ghost var right := curr;
        var rhs := ParseAnd();
        if rhs.Err? {
          return rhs;
        }
        assert OrOf(Rules(), tokens[start..]).value.used == mid - start;
        assert AndOf(Rules(), tokens[right..]).value.used == curr - right;
        return Ast.Ok(BinExpr(lhs.value, rhs.value, OpAnd));
      }
      return lhs;
    }

    method ParseOr() returns (r: Ast.Result<Expr>)
      requires curr <= |tokens|
      modifies this`curr
      ensures old(curr) <= curr <= |tokens|
      ensures var spec := OrOf(Rules(), tokens[old(curr)..]);
        r == Tree(spec) && (spec.Ok? ==> curr == old(curr) + spec.value.used)
      decreases |tokens| - curr, 3
    {
      ghost var start := curr;
      var lhs := ParseNot();
      if lhs.Err? {
        return lhs;
      }
      ghost var mid := curr;
      assert tokens[start..][mid - start..] == tokens[mid..];
      var found := Match(Or);
      if found {
        assert tokens[start..][mid - start + 1..] == tokens[curr..];
        ghost var right := curr;
        var rhs := ParseOr();
        if rhs.Err? {
          return rhs;
        }
        assert NotOf(Rules(), tokens[start..]).value.used == mid - start;
        assert OrOf(Rules(), tokens[right..]).value.used == curr - right;
        return Ast.Ok(BinExpr(lhs.value, rhs.value, OpOr));
      }
      return lhs;
    }

    method ParseNot() returns (r: Ast.Result<Expr>)
      requires curr <= |tokens|
      modifies this`curr
      ensures old(curr) <= curr <= |tokens|
      ensures var spec := NotOf(Rules(), tokens[old(curr)..]);
        r == Tree(spec) && (spec.Ok? ==> curr == old(curr) + spec.value.used)
      decreases |tokens| - curr, 2
    {
      ghost var start := curr;
      var found := Match(Not);
      if found {
        assert tokens[start..][1..] == tokens[curr..];
        var rest := ParseParens();
        if rest.Err? {
          return rest;
        }
        return Ast.Ok(UnaryExpr(OpNot, rest.value));
      }
      r := ParseParens();
    }

    method ParseParens() returns (r: Ast.Result<Expr>)
      requires curr <= |tokens|
      modifies this`curr
      ensures old(curr) <= curr <= |tokens|
      ensures var spec := ParensOf(Rules(), tokens[old(curr)..]);
        r == Tree(spec) && (spec.Ok? ==> curr == old(curr) + spec.value.used)
      decreases |tokens| - curr, 1
    {
      ghost var start := curr;
      var found := Match(OpenParen);
      if found {
        assert tokens[start..][1..] == tokens[curr..];
        var ast := ParseExpr();
        if ast.Err? {
          return ast;
        }
        ghost var mid := curr;
        assert tokens[start..][mid - start..] == tokens[mid..];
        var closed := Match(CloseParen);
        if !closed {
          return Ast.Err(Ast.ParseError);
        }
        return ast;
      }
      r := ParseRest();
    }

    method ParseRest() returns (r: Ast.Result<Expr>)
      requires curr <= |tokens|
      modifies this`curr
      ensures old(curr) <= curr <= |tokens|
      ensures var spec := RestOf(Rules(), tokens[old(curr)..]);
        r == Tree(spec) && (spec.Ok? ==> curr == old(curr) + spec.value.used)
    {
      ghost var start := curr;
      var result: seq<string> := [];
      while curr < |tokens| && !IsKeyword(Peek())
        invariant start <= curr <= |tokens|
        invariant result == tokens[start..curr]
        invariant forall i :: start <= i < curr ==> tokens[i] !in keywords
        decreases |tokens| - curr
      {
        result := result + [Peek()];
        curr := curr + 1;
      }
      RestLengthIsFirstKeyword(keywords, tokens[start..], curr - start);
      assert tokens[start..][..curr - start] == result;
      if |result| == 0 {
        return Ast.Err(Ast.ParseError);
      }
      return Ast.Ok(Leaf(Ast.Unparsed(result)));
    }
  }

  /** The loop of `init` that lower-cases every string of the mapping. */
  method LowerAll(config: Config) returns (newTokens: Config)
    ensures newTokens == Lowered(config)
  {
    newTokens := map[];
    var todo := config.Keys;
    while todo != {}
      invariant todo <= config.Keys
      invariant newTokens.Keys == config.Keys - todo
      invariant forall t :: t in newTokens ==> newTokens[t] == ToLower(config[t])
      decreases |todo|
    {
      var t :| t in todo;
      newTokens := newTokens[t := ToLower(config[t])];
      todo := todo - {t};
    }
  }

  /** The loop of `init` that collects the mapping's strings into the keyword set. */
  method ValuesOf(config: Config) returns (keywords: set<string>)
    ensures keywords == config.Values
  {
    keywords := {};
    var todo := config.Keys;
    while todo != {}
      invariant todo <= config.Keys
      invariant forall t :: t in config.Keys - todo ==> config[t] in keywords
      invariant forall k :: k in keywords ==> exists t :: t in config.Keys - todo && config[t] == k
      decreases |todo|
    {
      var t :| t in todo;
      keywords := keywords + {config[t]};
      todo := todo - {t};
    }
  }

  /** `RestLength` is the position of the first keyword, or the length when there is none. */
  lemma RestLengthIsFirstKeyword(keywords: set<string>, ts: seq<string>, n: nat)
    requires n <= |ts|
    requires forall i :: 0 <= i < n ==> ts[i] !in keywords
    requires n < |ts| ==> ts[n] in keywords
    ensures RestLength(keywords, ts) == n
  {
  }
}
