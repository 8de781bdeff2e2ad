/**
 * What the recursive descent of bool/bool.go promises about the trees it
 * builds: every non-keyword token it consumes ends up, in order, in the
 * leaves; the brackets it consumes balance; a parse starts with an operand
 * and ends with one; a fully bracketed rendering of a tree parses back to
 * that tree; and the shapes and errors of the package's own examples.
 */
module BoolGrammar {
  import opened Text
  import Ast
  import opened BoolParser
  import opened BoolTokens

  /** The five configured strings are pairwise distinct keywords. */
  predicate Distinct(syn: Syntax) {
    var a, o, n := Get(syn.config, And), Get(syn.config, Or), Get(syn.config, Not);
    var op, cl := Get(syn.config, OpenParen), Get(syn.config, CloseParen);
    && a in syn.keywords && o in syn.keywords && n in syn.keywords
    && op in syn.keywords && cl in syn.keywords
    && a != o && a != n && a != op && a != cl
    && o != n && o != op && o != cl
    && n != op && n != cl
    && op != cl
  }

  /** The unparsed runs of a tree, left to right. */
  function Leaves(e: Expr): seq<string> {
    match e
    case Leaf(u) => u.contents
    case BinExpr(l, r, _) => Leaves(l) + Leaves(r)
    case UnaryExpr(_, x) => Leaves(x)
  }

  /** The tokens that are not keywords, in order. */
  function NonKeywords(keywords: set<string>, ts: seq<string>): seq<string> {
    if ts == [] then []
    else (if ts[0] in keywords then [] else [ts[0]]) + NonKeywords(keywords, ts[1..])
  }

  function Occurrences(x: string, ts: seq<string>): nat {
    if ts == [] then 0 else (if ts[0] == x then 1 else 0) + Occurrences(x, ts[1..])
  }

  lemma {:induction false} NonKeywordsAppend(keywords: set<string>, a: seq<string>, b: seq<string>)
    ensures NonKeywords(keywords, a + b) == NonKeywords(keywords, a) + NonKeywords(keywords, b)
  {
    if a != [] {
      assert (a + b)[1..] == a[1..] + b;
      NonKeywordsAppend(keywords, a[1..], b);
    } else {
      assert a + b == b;
    }
  }

  lemma {:induction false} OccurrencesAppend(x: string, a: seq<string>, b: seq<string>)
    ensures Occurrences(x, a + b) == Occurrences(x, a) + Occurrences(x, b)
  {
    if a != [] {
      assert (a + b)[1..] == a[1..] + b;
      OccurrencesAppend(x, a[1..], b);
    } else {
      assert a + b == b;
    }
  }

  /** Whether the consumed tokens `ts[..used]` hold the open and the close bracket equally often. */
  predicate Balanced(syn: Syntax, ts: seq<string>) {
    Occurrences(Get(syn.config, OpenParen), ts) == Occurrences(Get(syn.config, CloseParen), ts)
  }

  /** An operand can begin with an open bracket, NOT, or a non-keyword. */
  predicate OperandStart(syn: Syntax, tok: string) {
    tok == Get(syn.config, OpenParen) || tok == Get(syn.config, Not) || tok !in syn.keywords
  }

  /** An operand can end with a close bracket or a non-keyword. */
  predicate OperandEnd(syn: Syntax, tok: string) {
    tok == Get(syn.config, CloseParen) || tok !in syn.keywords
  }

  /**
   * What a successful parse of a prefix `ts[..used]` guarantees: its
   * non-keywords are the leaves of the tree, its brackets balance, and it
   * starts and ends with an operand.
   */
  predicate Yields(syn: Syntax, ts: seq<string>, r: Ast.Result<Parsed>) {
    r.Ok? ==>
      var u := r.value.used;
      && 0 < u <= |ts|
      && NonKeywords(syn.keywords, ts[..u]) == Leaves(r.value.expr)
      && Balanced(syn, ts[..u])
      && OperandStart(syn, ts[0])
      && OperandEnd(syn, ts[u - 1])
  }

  /** Gluing `lhs`, one operator keyword, and `rhs` together keeps what both guarantee. */
  lemma OperatorJoin(syn: Syntax, ts: seq<string>, u: nat, v: nat)
    requires Distinct(syn)
    requires 0 < u && u + 1 + v <= |ts| && 0 < v
    requires ts[u] == Get(syn.config, And) || ts[u] == Get(syn.config, Or)
    ensures var rest := ts[u + 1..];
      && NonKeywords(syn.keywords, ts[..u + 1 + v])
         == NonKeywords(syn.keywords, ts[..u]) + NonKeywords(syn.keywords, rest[..v])
      && (Balanced(syn, ts[..u]) && Balanced(syn, rest[..v]) ==> Balanced(syn, ts[..u + 1 + v]))
      && ts[..u + 1 + v][0] == ts[..u][0]
      && ts[..u + 1 + v][u + v] == rest[..v][v - 1]
  {
    var rest := ts[u + 1..];
    assert ts[..u + 1 + v] == ts[..u] + [ts[u]] + rest[..v];
    NonKeywordsAppend(syn.keywords, ts[..u] + [ts[u]], rest[..v]);
    NonKeywordsAppend(syn.keywords, ts[..u], [ts[u]]);
    assert NonKeywords(syn.keywords, [ts[u]]) == [];
    var op, cl := Get(syn.config, OpenParen), Get(syn.config, CloseParen);
    OccurrencesAppend(op, ts[..u] + [ts[u]], rest[..v]);
    OccurrencesAppend(op, ts[..u], [ts[u]]);
    OccurrencesAppend(cl, ts[..u] + [ts[u]], rest[..v]);
    OccurrencesAppend(cl, ts[..u], [ts[u]]);
    assert Occurrences(op, [ts[u]]) == 0 && Occurrences(cl, [ts[u]]) == 0;
  }

  /** NOT followed by `rest[..u]` keeps what `rest[..u]` guarantees. */
  lemma NegationPrefix(syn: Syntax, ts: seq<string>, u: nat)
    requires Distinct(syn)
    requires 0 < u && u + 1 <= |ts| && ts[0] == Get(syn.config, Not)
    ensures var rest := ts[1..];
      && NonKeywords(syn.keywords, ts[..u + 1]) == NonKeywords(syn.keywords, rest[..u])
      && (Balanced(syn, rest[..u]) ==> Balanced(syn, ts[..u + 1]))
      && ts[..u + 1][u] == rest[..u][u - 1]
  {
    var rest := ts[1..];
    assert ts[..u + 1] == [ts[0]] + rest[..u];
    NonKeywordsAppend(syn.keywords, [ts[0]], rest[..u]);
    assert NonKeywords(syn.keywords, [ts[0]]) == [];
    var op, cl := Get(syn.config, OpenParen), Get(syn.config, CloseParen);
    OccurrencesAppend(op, [ts[0]], rest[..u]);
    OccurrencesAppend(cl, [ts[0]], rest[..u]);
    assert Occurrences(op, [ts[0]]) == 0 && Occurrences(cl, [ts[0]]) == 0;
  }

  /** A bracketed `rest[..u]` keeps what `rest[..u]` guarantees. */
  lemma BracketPair(syn: Syntax, ts: seq<string>, u: nat)
    requires Distinct(syn)
    requires u + 2 <= |ts| && ts[0] == Get(syn.config, OpenParen) && ts[u + 1] == Get(syn.config, CloseParen)
    ensures var rest := ts[1..];
      && NonKeywords(syn.keywords, ts[..u + 2]) == NonKeywords(syn.keywords, rest[..u])
      && (Balanced(syn, rest[..u]) ==> Balanced(syn, ts[..u + 2]))
  {
    var rest := ts[1..];
    var op, cl := ts[0], ts[u + 1];
    assert ts[..u + 2] == [op] + rest[..u] + [cl];
    NonKeywordsAppend(syn.keywords, [op] + rest[..u], [cl]);
    NonKeywordsAppend(syn.keywords, [op], rest[..u]);
    assert NonKeywords(syn.keywords, [op]) == [] && NonKeywords(syn.keywords, [cl]) == [];
    OccurrencesAppend(op, [op] + rest[..u], [cl]);
    OccurrencesAppend(op, [op], rest[..u]);
    OccurrencesAppend(cl, [op] + rest[..u], [cl]);
    OccurrencesAppend(cl, [op], rest[..u]);
    assert Occurrences(op, [op]) == 1 && Occurrences(cl, [op]) == 0;
    assert Occurrences(op, [cl]) == 0 && Occurrences(cl, [cl]) == 1;
  }

  lemma RestYields(syn: Syntax, ts: seq<string>)
    requires Distinct(syn)
    ensures Yields(syn, ts, RestOf(syn, ts))
  {
    var n := RestLength(syn.keywords, ts);
    if n > 0 {
      var run := ts[..n];
      assert forall i :: 0 <= i < |run| ==> run[i] !in syn.keywords;
      NonKeywordsOfRun(syn.keywords, run);
      OccurrencesOfRun(Get(syn.config, OpenParen), syn.keywords, run);
      OccurrencesOfRun(Get(syn.config, CloseParen), syn.keywords, run);
    }
  }

  lemma {:induction false} NonKeywordsOfRun(keywords: set<string>, run: seq<string>)
    requires forall i :: 0 <= i < |run| ==> run[i] !in keywords
    ensures NonKeywords(keywords, run) == run
  {
    if run != [] {
      NonKeywordsOfRun(keywords, run[1..]);
    }
  }

  lemma {:induction false} OccurrencesOfRun(x: string, keywords: set<string>, run: seq<string>)
    requires x in keywords
    requires forall i :: 0 <= i < |run| ==> run[i] !in keywords
    ensures Occurrences(x, run) == 0
  {
    if run != [] {
      OccurrencesOfRun(x, keywords, run[1..]);
    }
  }

  lemma ExprYields(syn: Syntax, ts: seq<string>)
    requires Distinct(syn)
    ensures Yields(syn, ts, ExprOf(syn, ts))
    decreases |ts|, 5
  {
    AndYields(syn, ts);
  }

  lemma AndYields(syn: Syntax, ts: seq<string>)
    requires Distinct(syn)
    ensures Yields(syn, ts, AndOf(syn, ts))
    decreases |ts|, 4
  {
    OrYields(syn, ts);
    var lhs := OrOf(syn, ts);
    if lhs.Ok? {
      var u := lhs.value.used;
      if Starts(syn, ts[u..], And) {
        var rest := ts[u + 1..];
        AndYields(syn, rest);
        var rhs := AndOf(syn, rest);
        if rhs.Ok? {
          OperatorJoin(syn, ts, u, rhs.value.used);
        }
      }
    }
  }

  lemma OrYields(syn: Syntax, ts: seq<string>)
    requires Distinct(syn)
    ensures Yields(syn, ts, OrOf(syn, ts))
    decreases |ts|, 3
  {
    NotYields(syn, ts);
    var lhs := NotOf(syn, ts);
    if lhs.Ok? {
      var u := lhs.value.used;
      if Starts(syn, ts[u..], Or) {
        var rest := ts[u + 1..];
        OrYields(syn, rest);
        var rhs := OrOf(syn, rest);
        if rhs.Ok? {
          OperatorJoin(syn, ts, u, rhs.value.used);
        }
      }
    }
  }

  lemma NotYields(syn: Syntax, ts: seq<string>)
    requires Distinct(syn)
    ensures Yields(syn, ts, NotOf(syn, ts))
    decreases |ts|, 2
  {
    if Starts(syn, ts, Not) {
      var rest := ts[1..];
      ParensYields(syn, rest);
      var r := ParensOf(syn, rest);
      if r.Ok? {
        NegationPrefix(syn, ts, r.value.used);
      }
    } else {
      ParensYields(syn, ts);
    }
  }

  lemma ParensYields(syn: Syntax, ts: seq<string>)
    requires Distinct(syn)
    ensures Yields(syn, ts, ParensOf(syn, ts))
    decreases |ts|, 1
  {
    if Starts(syn, ts, OpenParen) {
      var rest := ts[1..];
      ExprYields(syn, rest);
      var r := ExprOf(syn, rest);
      if r.Ok? && Starts(syn, ts[1 + r.value.used..], CloseParen) {
        BracketPair(syn, ts, r.value.used);
      }
    } else {
      RestYields(syn, ts);
    }
  }

  /** A parse of all of `ts` exists only if `ts` is non-empty, starts and ends with an operand, and balances its brackets. */
  lemma ParseNeedsOperandsAndBalance(syn: Syntax, ts: seq<string>)
    requires Distinct(syn)
    ensures ParseTokens(syn, ts).Ok? ==>
      && ts != []
      && OperandStart(syn, ts[0])
      && OperandEnd(syn, ts[|ts| - 1])
      && Balanced(syn, ts)
    ensures ParseTokens(syn, ts).Ok? ==> NonKeywords(syn.keywords, ts) == Leaves(ParseTokens(syn, ts).value)
  {
    ExprYields(syn, ts);
    assert ts[..|ts|] == ts;
  }

  // ------------------------------------------------------------- round trip

  /** Trees the parser can produce from text: non-empty keyword-free leaves, binary AND/OR, unary NOT. */
  predicate WellFormed(syn: Syntax, e: Expr) {
    match e
    case Leaf(u) => |u.contents| > 0 && forall i :: 0 <= i < |u.contents| ==> u.contents[i] !in syn.keywords
    case BinExpr(l, r, op) => op != OpNot && WellFormed(syn, l) && WellFormed(syn, r)
    case UnaryExpr(op, x) => op == OpNot && WellFormed(syn, x)
  }

  function OpToken(syn: Syntax, op: Op): string {
    match op
    case OpAnd => Get(syn.config, And)
    case OpOr => Get(syn.config, Or)
    case OpNot => Get(syn.config, Not)
  }

  /** The tokens of a tree with every operand bracketed. */
  function Render(syn: Syntax, e: Expr): seq<string>
    decreases e, 0
  {
    match e
    case Leaf(u) => u.contents
    case BinExpr(l, r, o) => Wrap(syn, l) + [OpToken(syn, o)] + Wrap(syn, r)
    case UnaryExpr(o, x) => [OpToken(syn, o)] + Wrap(syn, x)
  }

  function Wrap(syn: Syntax, e: Expr): seq<string>
    decreases e, 1
  {
    [Get(syn.config, OpenParen)] + Render(syn, e) + [Get(syn.config, CloseParen)]
  }

  /** What may follow a complete operand in a rendering: nothing, or a close bracket. */
  predicate Follows(syn: Syntax, rest: seq<string>) {
    rest == [] || rest[0] == Get(syn.config, CloseParen)
  }

  // One level of the descent at a time: each grammar function in terms of the one below it.

  lemma NotOfPlain(syn: Syntax, ts: seq<string>)
    requires !Starts(syn, ts, Not)
    ensures NotOf(syn, ts) == ParensOf(syn, ts)
  {
  }

  lemma OrOfPlain(syn: Syntax, ts: seq<string>)
    requires NotOf(syn, ts).Ok? && !Starts(syn, ts[NotOf(syn, ts).value.used..], Or)
    ensures OrOf(syn, ts) == NotOf(syn, ts)
  {
  }

  lemma AndOfPlain(syn: Syntax, ts: seq<string>)
    requires OrOf(syn, ts).Ok? && !Starts(syn, ts[OrOf(syn, ts).value.used..], And)
    ensures AndOf(syn, ts) == OrOf(syn, ts)
  {
  }

  lemma ParensOfJoin(syn: Syntax, ts: seq<string>, x: Expr, u: nat)
    requires Starts(syn, ts, OpenParen) && ExprOf(syn, ts[1..]) == Ast.Ok(Parsed(x, u))
    requires Starts(syn, ts[1 + u..], CloseParen)
    ensures ParensOf(syn, ts) == Ast.Ok(Parsed(x, u + 2))
  {
  }

  lemma OrOfJoin(syn: Syntax, ts: seq<string>, l: Expr, u: nat, r: Expr, v: nat)
    requires NotOf(syn, ts) == Ast.Ok(Parsed(l, u)) && Starts(syn, ts[u..], Or)
    requires OrOf(syn, ts[u + 1..]) == Ast.Ok(Parsed(r, v))
    ensures OrOf(syn, ts) == Ast.Ok(Parsed(BinExpr(l, r, OpOr), u + 1 + v))
  {
  }

  lemma AndOfJoin(syn: Syntax, ts: seq<string>, l: Expr, u: nat, r: Expr, v: nat)
    requires OrOf(syn, ts) == Ast.Ok(Parsed(l, u)) && Starts(syn, ts[u..], And)
    requires AndOf(syn, ts[u + 1..]) == Ast.Ok(Parsed(r, v))
    ensures AndOf(syn, ts) == Ast.Ok(Parsed(BinExpr(l, r, OpAnd), u + 1 + v))
  {
  }

  /** A bracketed rendering parses back as a `parens`. */
  lemma WrapParses(syn: Syntax, e: Expr, rest: seq<string>)
    requires Distinct(syn) && WellFormed(syn, e)
    ensures ParensOf(syn, Wrap(syn, e) + rest) == Ast.Ok(Parsed(e, |Wrap(syn, e)|))
    decreases e, 3
  {
    var w := Wrap(syn, e);
    var ts := w + rest;
    var inner := Render(syn, e);
    var cl := Get(syn.config, CloseParen);
    RenderParses(syn, e, [cl] + rest);
    assert ts[1..] == inner + ([cl] + rest);
    assert ts[1 + |inner|..] == [cl] + rest;
    assert ts[0] == Get(syn.config, OpenParen);
    ParensOfJoin(syn, ts, e, |inner|);
  }

  /** Parsing a rendering, followed by nothing or a close bracket, yields the tree back. */
  lemma RenderParses(syn: Syntax, e: Expr, rest: seq<string>)
    requires Distinct(syn) && WellFormed(syn, e) && Follows(syn, rest)
    ensures ExprOf(syn, Render(syn, e) + rest) == Ast.Ok(Parsed(e, |Render(syn, e)|))
    decreases e, 2
  {
    match e
    case Leaf(_) => LeafParses(syn, e, rest);
    case BinExpr(_, _, op) =>
      if op == OpAnd {
        ConjunctionParses(syn, e, rest);
      } else {
        DisjunctionParses(syn, e, rest);
      }
    case UnaryExpr(_, _) => NegationParses(syn, e, rest);
  }

  lemma LeafParses(syn: Syntax, e: Expr, rest: seq<string>)
    requires Distinct(syn) && WellFormed(syn, e) && Follows(syn, rest) && e.Leaf?
    ensures ExprOf(syn, Render(syn, e) + rest) == Ast.Ok(Parsed(e, |Render(syn, e)|))
  {
    var c := e.unparsed.contents;
    var ts := c + rest;
    assert forall i :: 0 <= i < |c| ==> ts[i] == c[i];
    RestLengthIsFirstKeyword(syn.keywords, ts, |c|);
    assert ts[..|c|] == c;
    assert ts[|c|..] == rest;
    assert ts[0] !in syn.keywords;
    assert ParensOf(syn, ts) == Ast.Ok(Parsed(e, |c|));
    NotOfPlain(syn, ts);
    OrOfPlain(syn, ts);
    AndOfPlain(syn, ts);
  }

  /** A bracketed rendering parses back as an `or`, when no OR follows it. */
  lemma WrapParsesAsOr(syn: Syntax, e: Expr, rest: seq<string>)
    requires Distinct(syn) && WellFormed(syn, e) && !Starts(syn, rest, Or)
    ensures OrOf(syn, Wrap(syn, e) + rest) == Ast.Ok(Parsed(e, |Wrap(syn, e)|))
    decreases e, 4
  {
    var w := Wrap(syn, e);
    var ts := w + rest;
    WrapParses(syn, e, rest);
    assert ts[|w|..] == rest;
    NotOfPlain(syn, ts);
    OrOfPlain(syn, ts);
  }

  /** A bracketed rendering parses back as an `and`, when neither OR nor AND follows it. */
  lemma WrapParsesAsAnd(syn: Syntax, e: Expr, rest: seq<string>)
    requires Distinct(syn) && WellFormed(syn, e) && !Starts(syn, rest, Or) && !Starts(syn, rest, And)
    ensures AndOf(syn, Wrap(syn, e) + rest) == Ast.Ok(Parsed(e, |Wrap(syn, e)|))
    decreases e, 5
  {
    var w := Wrap(syn, e);
    WrapParsesAsOr(syn, e, rest);
    assert (w + rest)[|w|..] == rest;
    AndOfPlain(syn, w + rest);
  }

  /** How the rendering of a binary node followed by `rest` splits around its operator. */
  lemma SplitBinary(syn: Syntax, e: Expr, rest: seq<string>)
    requires e.BinExpr?
    ensures var wl, wr := Wrap(syn, e.lhs), Wrap(syn, e.rhs);
      var tail := [OpToken(syn, e.op)] + wr + rest;
      var ts := Render(syn, e) + rest;
      && |Render(syn, e)| == |wl| + 1 + |wr|
      && ts == wl + tail
      && ts[|wl|..] == tail
      && ts[|wl| + 1..] == wr + rest
  {
    var wl, wr := Wrap(syn, e.lhs), Wrap(syn, e.rhs);
    var tail := [OpToken(syn, e.op)] + wr + rest;
    assert Render(syn, e) + rest == wl + tail;
    assert (wl + tail)[|wl| + 1..] == wr + rest;
  }

  /** What may follow a complete operand starts with neither operator. */
  lemma FollowsNoOperator(syn: Syntax, rest: seq<string>)
    requires Distinct(syn) && Follows(syn, rest)
    ensures !Starts(syn, rest, Or) && !Starts(syn, rest, And)
  {
  }

  lemma ConjunctionParses(syn: Syntax, e: Expr, rest: seq<string>)
    requires Distinct(syn) && WellFormed(syn, e) && Follows(syn, rest) && e.BinExpr? && e.op == OpAnd
    ensures ExprOf(syn, Render(syn, e) + rest) == Ast.Ok(Parsed(e, |Render(syn, e)|))
    decreases e, 1
  {
    var ts := Render(syn, e) + rest;
    var u, v := |Wrap(syn, e.lhs)|, |Wrap(syn, e.rhs)|;
    ConjunctionOperands(syn, e, rest);
    AndOfJoin(syn, ts, e.lhs, u, e.rhs, v);
    assert BinExpr(e.lhs, e.rhs, OpAnd) == e;
  }

  /** The operands of a rendered conjunction parse one after the other, the operator between them. */
  lemma ConjunctionOperands(syn: Syntax, e: Expr, rest: seq<string>)
    requires Distinct(syn) && WellFormed(syn, e) && Follows(syn, rest) && e.BinExpr? && e.op == OpAnd
    ensures var ts, u := Render(syn, e) + rest, |Wrap(syn, e.lhs)|;
      && |Render(syn, e)| == u + 1 + |Wrap(syn, e.rhs)|
      && OrOf(syn, ts) == Ast.Ok(Parsed(e.lhs, u))
      && Starts(syn, ts[u..], And)
      && AndOf(syn, ts[u + 1..]) == Ast.Ok(Parsed(e.rhs, |Wrap(syn, e.rhs)|))
    decreases e, 0
  {
    var wl, wr := Wrap(syn, e.lhs), Wrap(syn, e.rhs);
    var tail := [Get(syn.config, And)] + wr + rest;
    var ts := Render(syn, e) + rest;
    SplitBinary(syn, e, rest);
    assert OrOf(syn, ts) == Ast.Ok(Parsed(e.lhs, |wl|)) by {
      WrapParsesAsOr(syn, e.lhs, tail);
    }
    assert AndOf(syn, ts[|wl| + 1..]) == Ast.Ok(Parsed(e.rhs, |wr|)) by {
      FollowsNoOperator(syn, rest);
      WrapParsesAsAnd(syn, e.rhs, rest);
    }
    assert ts[|wl|..][0] == Get(syn.config, And);
  }


  lemma DisjunctionParses(syn: Syntax, e: Expr, rest: seq<string>)
    requires Distinct(syn) && WellFormed(syn, e) && Follows(syn, rest) && e.BinExpr? && e.op == OpOr
    ensures ExprOf(syn, Render(syn, e) + rest) == Ast.Ok(Parsed(e, |Render(syn, e)|))
    decreases e, 1
  {
    var ts := Render(syn, e) + rest;
    var n := |Render(syn, e)|;
    var u, v := |Wrap(syn, e.lhs)|, |Wrap(syn, e.rhs)|;
    DisjunctionOperands(syn, e, rest);
    OrOfJoin(syn, ts, e.lhs, u, e.rhs, v);
    assert BinExpr(e.lhs, e.rhs, OpOr) == e;
    assert ts[n..] == rest;
    FollowsNoOperator(syn, rest);
    AndOfPlain(syn, ts);
  }

  /** The operands of a rendered disjunction parse one after the other, the operator between them. */
  lemma DisjunctionOperands(syn: Syntax, e: Expr, rest: seq<string>)
    requires Distinct(syn) && WellFormed(syn, e) && Follows(syn, rest) && e.BinExpr? && e.op == OpOr
    ensures var ts, u := Render(syn, e) + rest, |Wrap(syn, e.lhs)|;
      && |Render(syn, e)| == u + 1 + |Wrap(syn, e.rhs)|
      && NotOf(syn, ts) == Ast.Ok(Parsed(e.lhs, u))
      && Starts(syn, ts[u..], Or)
      && OrOf(syn, ts[u + 1..]) == Ast.Ok(Parsed(e.rhs, |Wrap(syn, e.rhs)|))
    decreases e, 0
  {
    var wl, wr := Wrap(syn, e.lhs), Wrap(syn, e.rhs);
    var tail := [Get(syn.config, Or)] + wr + rest;
    var ts := Render(syn, e) + rest;
    SplitBinary(syn, e, rest);
    assert NotOf(syn, ts) == Ast.Ok(Parsed(e.lhs, |wl|)) by {
      WrapParses(syn, e.lhs, tail);
      NotOfPlain(syn, ts);
    }
    assert OrOf(syn, ts[|wl| + 1..]) == Ast.Ok(Parsed(e.rhs, |wr|)) by {
      FollowsNoOperator(syn, rest);
      WrapParsesAsOr(syn, e.rhs, rest);
    }
    assert ts[|wl|..][0] == Get(syn.config, Or);
  }


  lemma NegationParses(syn: Syntax, e: Expr, rest: seq<string>)
    requires Distinct(syn) && WellFormed(syn, e) && Follows(syn, rest) && e.UnaryExpr?
    ensures ExprOf(syn, Render(syn, e) + rest) == Ast.Ok(Parsed(e, |Render(syn, e)|))
    decreases e, 1
  {
    var wx := Wrap(syn, e.expr);
    var ts := Render(syn, e) + rest;
    var n := |Render(syn, e)|;
    assert ts[1..] == wx + rest;
    assert ts[n..] == rest;
    WrapParses(syn, e.expr, rest);
    assert NotOf(syn, ts) == Ast.Ok(Parsed(e, n));
    OrOfPlain(syn, ts);
    AndOfPlain(syn, ts);
  }

  /** Round trip: a well-formed tree, rendered with brackets, parses back to itself. */
  lemma ParseRender(syn: Syntax, e: Expr)
    requires Distinct(syn) && WellFormed(syn, e)
    ensures ParseTokens(syn, Render(syn, e)) == Ast.Ok(e)
  {
    RenderParses(syn, e, []);
    assert Render(syn, e) + [] == Render(syn, e);
  }

  // ---------------------------------------------------------------- examples

  function Word(w: string): Expr {
    Leaf(Ast.Unparsed([w]))
  }

  lemma DefaultIsDistinct()
    ensures Distinct(DefaultSyntax)
  {
  }

  /** A single non-keyword followed by a keyword or by nothing is a one-token operand. */
  lemma SingleWord(syn: Syntax, ts: seq<string>)
    requires Distinct(syn) && |ts| >= 1 && ts[0] !in syn.keywords
    requires |ts| == 1 || ts[1] in syn.keywords
    ensures NotOf(syn, ts) == Ast.Ok(Parsed(Word(ts[0]), 1))
  {
    RestLengthIsFirstKeyword(syn.keywords, ts, 1);
    assert ts[..1] == [ts[0]];
  }

  /** AND is the outer split and the OR groups are its operands: x OR y AND z OR w. */
  lemma OrBindsTighterThanAnd(syn: Syntax, x: string, y: string, z: string, w: string)
    requires Distinct(syn)
    requires x !in syn.keywords && y !in syn.keywords && z !in syn.keywords && w !in syn.keywords
    ensures var and, or := Get(syn.config, And), Get(syn.config, Or);
      ParseTokens(syn, [x, or, y, and, z, or, w])
        == Ast.Ok(BinExpr(BinExpr(Word(x), Word(y), OpOr), BinExpr(Word(z), Word(w), OpOr), OpAnd))
  {
    var and, or := Get(syn.config, And), Get(syn.config, Or);
    var ts: seq<string> := [x, or, y, and, z, or, w];
    var right: seq<string> := [z, or, w];
    var last: seq<string> := [w];
    assert ts[4..] == right && right[2..] == last && last[1..] == [] && right[3..] == [];
    SingleWord(syn, last);
    OrOfPlain(syn, last);
    SingleWord(syn, right);
    OrOfJoin(syn, right, Word(z), 1, Word(w), 1);
    AndOfPlain(syn, right);
    var middle: seq<string> := [y, and, z, or, w];
    assert ts[2..] == middle && middle[1..] == [and, z, or, w];
    SingleWord(syn, middle);
    OrOfPlain(syn, middle);
    SingleWord(syn, ts);
    OrOfJoin(syn, ts, Word(x), 1, Word(y), 1);
    assert ts[3..][0] == and;
    AndOfJoin(syn, ts, BinExpr(Word(x), Word(y), OpOr), 3, BinExpr(Word(z), Word(w), OpOr), 3);
  }

  /** Both chains nest to the right: x AND y OR z AND w is x AND ((y OR z) AND w). */
  lemma AndChainsNestRight(syn: Syntax, x: string, y: string, z: string, w: string)
    requires Distinct(syn)
    requires x !in syn.keywords && y !in syn.keywords && z !in syn.keywords && w !in syn.keywords
    ensures var and, or := Get(syn.config, And), Get(syn.config, Or);
      ParseTokens(syn, [x, and, y, or, z, and, w])
        == Ast.Ok(BinExpr(Word(x), BinExpr(BinExpr(Word(y), Word(z), OpOr), Word(w), OpAnd), OpAnd))
  {
    var and, or := Get(syn.config, And), Get(syn.config, Or);
    var ts: seq<string> := [x, and, y, or, z, and, w];
    var last: seq<string> := [w];
    assert last[1..] == [];
    SingleWord(syn, last);
    OrOfPlain(syn, last);
    AndOfPlain(syn, last);
    var zs: seq<string> := [z, and, w];
    assert zs[1..] == [and, w] && zs[2..] == last;
    SingleWord(syn, zs);
    OrOfPlain(syn, zs);
    var middle: seq<string> := [y, or, z, and, w];
    assert middle[2..] == zs && middle[3..] == [and, w] && middle[4..] == last;
    SingleWord(syn, middle);
    OrOfJoin(syn, middle, Word(y), 1, Word(z), 1);
    AndOfJoin(syn, middle, BinExpr(Word(y), Word(z), OpOr), 3, Word(w), 1);
    assert ts[1..] == [and] + middle && ts[2..] == middle;
    SingleWord(syn, ts);
    OrOfPlain(syn, ts);
    AndOfJoin(syn, ts, Word(x), 1, BinExpr(BinExpr(Word(y), Word(z), OpOr), Word(w), OpAnd), 5);
  }

  /** "abc AND": nothing follows the operator. */
  lemma TrailingAndRejected()
    ensures ParseTokens(DefaultSyntax, ["abc", "AND"]).Err?
    ensures ParseOf(DefaultSyntax, "abc AND").Err?
  {
    DefaultSpelled();
    TrailingAndTokens(DefaultSyntax);
    DefaultIsDistinct();
    ParseNeedsOperandsAndBalance(DefaultSyntax, ["abc", "AND"]);
  }

  /** "abc OR" followed by whitespace only: nothing follows the operator. */
  lemma TrailingOrRejected()
    ensures ParseTokens(DefaultSyntax, ["abc", "OR"]).Err?
    ensures ParseOf(DefaultSyntax, "abc OR    \t\n").Err?
  {
    DefaultSpelled();
    TrailingOrTokens(DefaultSyntax);
    DefaultIsDistinct();
    ParseNeedsOperandsAndBalance(DefaultSyntax, ["abc", "OR"]);
  }

  /** "NOT" alone has no operand. */
  lemma LoneNotRejected()
    ensures ParseTokens(DefaultSyntax, ["NOT"]).Err?
    ensures ParseOf(DefaultSyntax, "NOT").Err?
  {
    DefaultSpelled();
    LoneNotTokens(DefaultSyntax);
    DefaultIsDistinct();
    ParseNeedsOperandsAndBalance(DefaultSyntax, ["NOT"]);
  }

  /** "AND 7": an expression cannot start with an operator. */
  lemma LeadingAndRejected()
    ensures ParseTokens(DefaultSyntax, ["AND", "7"]).Err?
    ensures ParseOf(DefaultSyntax, "AND 7").Err?
  {
    DefaultSpelled();
    LeadingAndTokens(DefaultSyntax);
    DefaultIsDistinct();
    ParseNeedsOperandsAndBalance(DefaultSyntax, ["AND", "7"]);
  }

  /** "NOT (a AND b AND c": the bracket is never closed. */
  lemma UnclosedBracketRejected()
    ensures ParseTokens(DefaultSyntax, ["NOT", "(", "a", "AND", "b", "AND", "c"]).Err?
    ensures ParseOf(DefaultSyntax, "NOT (a AND b AND c").Err?
  {
    var ts: seq<string> := ["NOT", "(", "a", "AND", "b", "AND", "c"];
    assert ParseTokens(DefaultSyntax, ts).Err? by {
      DefaultIsDistinct();
      ParseNeedsOperandsAndBalance(DefaultSyntax, ts);
      assert Occurrences("(", ts) == 1 && Occurrences(")", ts) == 0;
    }
    assert TokensOf(DefaultSyntax, "NOT (a AND b AND c") == ts by {
      DefaultSpelled();
      UnclosedBracketTokens(DefaultSyntax);
    }
    RejectedTokensRejectText(DefaultSyntax, "NOT (a AND b AND c", ts);
  }

  /** "((((((x > 5))))": six brackets opened, four closed. */
  lemma UnbalancedNestingRejected(syn: Syntax, x: string, gt: string, five: string)
    requires Distinct(syn)
    requires x !in syn.keywords && gt !in syn.keywords && five !in syn.keywords
    ensures var op, cl := Get(syn.config, OpenParen), Get(syn.config, CloseParen);
      ParseTokens(syn, [op, op, op, op, op, op, x, gt, five, cl, cl, cl, cl]).Err?
  {
    var op, cl := Get(syn.config, OpenParen), Get(syn.config, CloseParen);
    var opens: seq<string> := [op, op, op, op, op, op];
    var middle: seq<string> := [x, gt, five];
    var closes: seq<string> := [cl, cl, cl, cl];
    var ts := opens + middle + closes;
    assert ts == [op, op, op, op, op, op, x, gt, five, cl, cl, cl, cl];
    OccurrencesAppend(op, opens + middle, closes);
    OccurrencesAppend(op, opens, middle);
    OccurrencesAppend(cl, opens + middle, closes);
    OccurrencesAppend(cl, opens, middle);
    OccurrencesOfCopies(op, opens);
    OccurrencesOfCopies(cl, closes);
    OccurrencesOfOthers(cl, opens);
    OccurrencesOfOthers(op, closes);
    OccurrencesOfOthers(op, middle);
    OccurrencesOfOthers(cl, middle);
    assert !Balanced(syn, ts);
    ParseNeedsOperandsAndBalance(syn, ts);
  }

  /** The same, from the text of the failing-parse test, for any syntax spelled the default way. */
  lemma UnbalancedNestingTextRejected(syn: Syntax)
    requires DefaultSpelling(syn) && Distinct(syn)
    ensures ParseOf(syn, "((((((x > 5))))").Err?
  {
    var op, cl := Get(syn.config, OpenParen), Get(syn.config, CloseParen);
    var ts: seq<string> := [op, op, op, op, op, op, "x", ">", "5", cl, cl, cl, cl];
    UnbalancedNestingRejected(syn, "x", ">", "5");
    assert TokensOf(syn, "((((((x > 5))))") == ts by {
      UnbalancedNestingTokens(syn);
    }
    RejectedTokensRejectText(syn, "((((((x > 5))))", ts);
  }

  /** A text is rejected when its tokens are. */
  lemma RejectedTokensRejectText(syn: Syntax, str: string, ts: seq<string>)
    requires TokensOf(syn, str) == ts && ParseTokens(syn, ts).Err?
    ensures ParseOf(syn, str).Err?
  {
  }

  lemma {:induction false} OccurrencesOfCopies(x: string, ts: seq<string>)
    requires forall i :: 0 <= i < |ts| ==> ts[i] == x
    ensures Occurrences(x, ts) == |ts|
  {
    if ts != [] {
      OccurrencesOfCopies(x, ts[1..]);
    }
  }

  lemma {:induction false} OccurrencesOfOthers(x: string, ts: seq<string>)
    requires forall i :: 0 <= i < |ts| ==> ts[i] != x
    ensures Occurrences(x, ts) == 0
  {
    if ts != [] {
      OccurrencesOfOthers(x, ts[1..]);
    }
  }

  /** Empty brackets hold no operand: "()" is a parse error. */
  lemma EmptyBracketsRejected()
    ensures ParseOf(DefaultSyntax, "()").Err?
  {
    var syn := DefaultSyntax;
    var s := "()";
    assert Get(syn.config, OpenParen) == "(" && Get(syn.config, CloseParen) == ")";
    assert TokStep(syn, Blank, '(') == TokState([], ["("]);
    assert TokStep(syn, TokState([], ["("]), ')') == TokState([], ["(", ")"]);
    assert TokRun(syn, s, 0, Blank) == TokRun(syn, s, 1, TokState([], ["("]));
    assert TokRun(syn, s, 1, TokState([], ["("])) == TokState([], ["(", ")"]);
    assert TokensOf(syn, s) == ["(", ")"];
    var ts: seq<string> := ["(", ")"];
    var close: seq<string> := [")"];
    assert ts[1..] == close;
    assert RestOf(syn, close).Err?;
    assert ParensOf(syn, close).Err?;
    assert NotOf(syn, close).Err?;
    assert OrOf(syn, close).Err?;
    assert ExprOf(syn, close).Err?;
    assert ParensOf(syn, ts).Err?;
    assert NotOf(syn, ts).Err?;
    assert OrOf(syn, ts).Err?;
  }

  /** From text to tree: "NOT(a)" is the negation of the run "a". */
  lemma NegationOfBracketedWord()
    ensures ParseOf(DefaultSyntax, "NOT(a)") == Ast.Ok(UnaryExpr(OpNot, Word("a")))
  {
    var syn := DefaultSyntax;
    DefaultIsDistinct();
    BracketsStandAlone();
    var ts: seq<string> := ["NOT", "(", "a", ")"];
    assert ts[1..] == ["(", "a", ")"];
    assert ["(", "a", ")"] == Wrap(syn, Word("a")) + [];
    WrapParses(syn, Word("a"), []);
    assert ts[4..] == [];
    OrOfPlain(syn, ts);
    AndOfPlain(syn, ts);
  }
}
