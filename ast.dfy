/**
 * ast.go: the error kinds shared by every parser of the library, the
 * `Unparsed` node that parsers leave behind for later grammars, the
 * interpreter combinator `WithFallback`, and the general-purpose expression
 * tokenizer `Tokenize` driven by a keyword trie.
 */
module Ast {
  import opened Text
  import opened KeywordTries

  /** The sentinel errors; a wrapped error is identified by its kind, as `errors.Is` does. */
  datatype Error = ConfigError | ParseError | EvalError | UnknownAst

  datatype Option<T> = None | Some(value: T)

  /** A Go `(value, error)` pair where exactly one side is meaningful. */
  datatype Result<T> = Ok(value: T) | Err(error: Error)

  /** A run of tokens that the grammar in use could not parse. */
  datatype Unparsed = Unparsed(contents: seq<string>)
  {
    /** Parsing never reaches an `Unparsed` node in a correct parser, so asking for it is a parse error. */
    function Parse<P>(p: P): (err: Option<Error>)
      ensures err.Some? && err.value == ParseError
    {
      Some(ParseError)
    }
  }

  /** An interpreter maps a node to a value and an optional error. */
  type Interpreter<!A, T> = A -> (T, Option<Error>)

  /** `i.WithFallback(b)`: ask `i`; only when it reports an unknown node, ask `b` instead. */
  function WithFallback<A(!new), T>(i: Interpreter<A, T>, b: Interpreter<A, T>): (r: Interpreter<A, T>)
    ensures forall ast :: i(ast).1 == Some(UnknownAst) ==> r(ast) == b(ast)
    ensures forall ast :: i(ast).1 != Some(UnknownAst) ==> r(ast) == i(ast)
  {
    ast =>
      var (a, err) := i(ast);
      if err == Some(UnknownAst) then b(ast) else (a, err)
  }

  /** The combination reports an unknown node exactly when both interpreters do. */
  lemma WithFallbackUnknown<A(!new), T>(i: Interpreter<A, T>, b: Interpreter<A, T>, ast: A)
    ensures WithFallback(i, b)(ast).1 == Some(UnknownAst)
        <==> i(ast).1 == Some(UnknownAst) && b(ast).1 == Some(UnknownAst)
  {
  }

  /** Chaining fallbacks does not depend on how the chain is grouped. */
  lemma WithFallbackAssociative<A(!new), T>(i: Interpreter<A, T>, b: Interpreter<A, T>, c: Interpreter<A, T>, ast: A)
    ensures WithFallback(WithFallback(i, b), c)(ast) == WithFallback(i, WithFallback(b, c))(ast)
  {
  }

  /** Falling back on oneself changes nothing. */
  lemma WithFallbackIdempotent<A(!new), T>(i: Interpreter<A, T>, ast: A)
    ensures WithFallback(i, i)(ast) == i(ast)
  {
  }

  /** An interpreter that knows no node at all is a neutral primary. */
  lemma UnknownIsNeutral<A(!new), T>(u: Interpreter<A, T>, b: Interpreter<A, T>, ast: A)
    requires u(ast).1 == Some(UnknownAst)
    ensures WithFallback(u, b)(ast) == b(ast)
  {
  }

  /** When the primary interpreter knows the node, the fallback is irrelevant. */
  lemma FallbackUnused<A(!new), T>(i: Interpreter<A, T>, b: Interpreter<A, T>, c: Interpreter<A, T>, ast: A)
    requires i(ast).1 != Some(UnknownAst)
    ensures WithFallback(i, b)(ast) == WithFallback(i, c)(ast) == i(ast)
  {
  }

  /** `push`: the pending run becomes a token, if it is not empty. */
  function Flush(substr: string): seq<string>
  {
    if |substr| > 0 then [substr] else []
  }

  lemma FlushConcat(substr: string)
    ensures Concat(Flush(substr)) == substr
  {
    if |substr| > 0 {
      assert Concat([substr]) == substr + Concat([]);
    }
  }

  /** A run of ordinary runes: no whitespace and no bracket. */
  predicate IsLiteral(s: string, open: char, close: char) {
    NoSpace(s) && open !in s && close !in s
  }

  /**
   * How far the index moves past a matched keyword: by its number of runes
   * (what the loop needs, since it indexes runes), or by `len` of the Go
   * string, its number of UTF-8 bytes (what ast.go does).
   */
  datatype Skip = RuneCount | ByteCount

  function SkipLength(skip: Skip, matched: string): (n: nat)
    ensures n >= |matched|
    ensures skip == RuneCount ==> n == |matched|
  {
    match skip
    case RuneCount => |matched|
    case ByteCount => Utf8Length(matched)
  }

  /** The variables of the loop in `Tokenize`: the index, the pending run and the tokens so far. */
  datatype ScanState = ScanState(i: nat, substr: string, result: seq<string>)

  /**
   * One iteration of the loop: a bracket ends the pending run and is a token
   * of its own; whitespace ends the pending run; otherwise the longest
   * keyword starting here ends the pending run and is a token, and when no
   * keyword starts here the rune joins the pending run.
   */
  function Step(runes: seq<char>, open: char, close: char, t: KeywordTrie, skip: Skip, s: ScanState): (s': ScanState)
    requires Parallel(t) && s.i < |runes|
    ensures s'.i > s.i
  {
    var c := runes[s.i];
    if c == open || c == close then
      ScanState(s.i + 1, [], s.result + Flush(s.substr) + [[c]])
    else if IsSpace(c) then
      ScanState(s.i + 1, [], s.result + Flush(s.substr))
    else
      var matched := Match(t, runes[s.i..]);
      if |matched| > 0 then
        ScanState(s.i + SkipLength(skip, matched), [], s.result + Flush(s.substr) + [matched])
      else
        ScanState(s.i + 1, s.substr + [c], s.result)
  }

  /** The loop run to completion: it stops as soon as the index reaches or passes the end. */
  function Run(runes: seq<char>, open: char, close: char, t: KeywordTrie, skip: Skip, s: ScanState): (s': ScanState)
    requires Parallel(t)
    decreases |runes| - s.i
  {
    if s.i >= |runes| then s else Run(runes, open, close, t, skip, Step(runes, open, close, t, skip, s))
  }

  /** After the loop, a pending run becomes the last token. */
  function Finish(s: ScanState): seq<string> {
    s.result + Flush(s.substr)
  }

  const Start: ScanState := ScanState(0, [], [])

  /** The tokens of `str`, skipping matched keywords by their rune count. */
  function Tokens(str: seq<char>, open: char, close: char, t: KeywordTrie): seq<string>
    requires Parallel(t)
  {
    Finish(Run(str, open, close, t, RuneCount, Start))
  }

  /** The tokens that ast.go computes, skipping matched keywords by their byte count. */
  function TokensAsWritten(str: seq<char>, open: char, close: char, t: KeywordTrie): seq<string>
    requires Parallel(t)
  {
    Finish(Run(str, open, close, t, ByteCount, Start))
  }

  /**
   * `Tokenize`, with the keyword skip counted in runes. Go requires only that
   * each node's `runes` and `children` line up, which `Add` guarantees.
   */
  method Tokenize(str: seq<char>, open: char, close: char, keywordMatcher: KeywordTrie)
    returns (result: seq<string>)
    requires Parallel(keywordMatcher)
    ensures result == Tokens(str, open, close, keywordMatcher)
    ensures Valid(keywordMatcher, "") ==> result == Lexemes(str, open, close, keywordMatcher)
  {
    var runes := str;
    var substr: string := [];
    result := [];
    var i := 0;
    while i < |runes|
      invariant Run(runes, open, close, keywordMatcher, RuneCount, ScanState(i, substr, result))
             == Run(runes, open, close, keywordMatcher, RuneCount, Start)
    {
      ghost var before := ScanState(i, substr, result);
      if runes[i] == open || runes[i] == close {
        if |substr| > 0 {
          result := result + [substr];
          substr := [];
        }
        result := result + [[runes[i]]];
      } else if IsSpace(runes[i]) {
        if |substr| > 0 {
          result := result + [substr];
          substr := [];
        }
      } else {
        var matched := Match(keywordMatcher, runes[i..]);
        if |matched| > 0 {
          if |substr| > 0 {
            result := result + [substr];
            substr := [];
          }
          result := result + [matched];
          i := i + |matched| - 1;
        } else {
          substr := substr + [runes[i]];
        }
      }
      i := i + 1;
      assert ScanState(i, substr, result) == Step(runes, open, close, keywordMatcher, RuneCount, before);
    }
    if |substr| > 0 {
      result := result + [substr];
    }
    if Valid(keywordMatcher, "") {
      TokensAreLexemes(str, open, close, keywordMatcher);
    }
  }

  /** Tokens are never empty. */
  lemma {:induction false} RunNonEmpty(runes: seq<char>, open: char, close: char, t: KeywordTrie, skip: Skip, s: ScanState)
    requires Parallel(t)
    requires forall tok :: tok in s.result ==> tok != ""
    ensures forall tok :: tok in Finish(Run(runes, open, close, t, skip, s)) ==> tok != ""
    decreases |runes| - s.i
  {
    if s.i < |runes| {
      RunNonEmpty(runes, open, close, t, skip, Step(runes, open, close, t, skip, s));
    }
  }

  /**
   * Each token is a bracket on its own, a registered keyword, or a literal
   * run without whitespace or brackets.
   */
  ghost predicate TokenKind(tok: string, open: char, close: char, t: KeywordTrie) {
    tok == [open] || tok == [close] || tok in Keys(t) || IsLiteral(tok, open, close)
  }

  lemma {:induction false} RunTokenKinds(runes: seq<char>, open: char, close: char, t: KeywordTrie, skip: Skip, s: ScanState)
    requires Valid(t, "") && Parallel(t)
    requires IsLiteral(s.substr, open, close)
    requires forall tok :: tok in s.result ==> TokenKind(tok, open, close, t)
    ensures forall tok :: tok in Finish(Run(runes, open, close, t, skip, s)) ==> TokenKind(tok, open, close, t)
    decreases |runes| - s.i
  {
    if s.i < |runes| {
      var c := runes[s.i];
      if c != open && c != close && !IsSpace(c) {
        MatchIsKey(t, runes[s.i..]);
        NoSpaceAppend(s.substr, [c]);
      }
      RunTokenKinds(runes, open, close, t, skip, Step(runes, open, close, t, skip, s));
    }
  }

  /** One step keeps "what is spelled so far, plus the unread input without its whitespace". */
  lemma StepSpells(runes: seq<char>, open: char, close: char, t: KeywordTrie, s: ScanState)
    requires Valid(t, "") && Parallel(t) && s.i < |runes|
    requires forall k :: k in Keys(t) ==> NoSpace(k)
    requires !IsSpace(open) && !IsSpace(close)
    ensures var s' := Step(runes, open, close, t, RuneCount, s);
      && s'.i <= |runes|
      && Concat(s'.result) + s'.substr + RemoveSpace(runes[s'.i..])
         == Concat(s.result) + s.substr + RemoveSpace(runes[s.i..])
  {
    var c, rest := runes[s.i], runes[s.i + 1..];
    var s' := Step(runes, open, close, t, RuneCount, s);
    assert runes[s.i..] == [c] + rest;
    if c == open || c == close {
      assert s' == ScanState(s.i + 1, [], s.result + Flush(s.substr) + [[c]]);
      SpellBracket(s.result, s.substr, c, rest);
    } else if IsSpace(c) {
      assert s' == ScanState(s.i + 1, [], s.result + Flush(s.substr));
      SpellSpace(s.result, s.substr, c, rest);
    } else {
      var matched := Match(t, runes[s.i..]);
      if matched == "" {
        assert s' == ScanState(s.i + 1, s.substr + [c], s.result);
        SpellLiteral(s.result, s.substr, c, rest);
      } else {
        MatchIsPrefix(t, runes[s.i..]);
        MatchIsKey(t, runes[s.i..]);
        var j := s.i + |matched|;
        assert s' == ScanState(j, [], s.result + Flush(s.substr) + [matched]);
        assert runes[s.i..] == matched + runes[j..];
        SpellKeyword(s.result, s.substr, matched, runes[j..]);
      }
    }
  }

  /** The spelling after flushing the pending literal and emitting one more token. */
  lemma ConcatFlushed(result: seq<string>, substr: string, tok: string)
    ensures Concat(result + Flush(substr) + [tok]) == Concat(result) + substr + tok
  {
    var flushed := result + Flush(substr);
    FlushConcat(substr);
    ConcatAppend(result, Flush(substr));
    ConcatAppend(flushed, [tok]);
    assert Concat([tok]) == tok + Concat([]);
  }

  lemma SpellBracket(result: seq<string>, substr: string, c: char, rest: string)
    requires !IsSpace(c)
    ensures Concat(result + Flush(substr) + [[c]]) + [] + RemoveSpace(rest)
         == Concat(result) + substr + RemoveSpace([c] + rest)
  {
    ConcatFlushed(result, substr, [c]);
    RemoveSpaceCons(c, rest);
    assert RemoveSpace([c] + rest) == [c] + RemoveSpace(rest);
  }

  lemma SpellSpace(result: seq<string>, substr: string, c: char, rest: string)
    requires IsSpace(c)
    ensures Concat(result + Flush(substr)) + [] + RemoveSpace(rest)
         == Concat(result) + substr + RemoveSpace([c] + rest)
  {
    var spelled := Concat(result + Flush(substr));
    FlushConcat(substr);
    ConcatAppend(result, Flush(substr));
    assert spelled == Concat(result) + substr;
    RemoveSpaceCons(c, rest);
    assert RemoveSpace([c] + rest) == RemoveSpace(rest);
    assert spelled + [] == spelled;
  }

  lemma SpellLiteral(result: seq<string>, substr: string, c: char, rest: string)
    requires !IsSpace(c)
    ensures Concat(result) + (substr + [c]) + RemoveSpace(rest)
         == Concat(result) + substr + RemoveSpace([c] + rest)
  {
    RemoveSpaceCons(c, rest);
  }

  lemma SpellKeyword(result: seq<string>, substr: string, matched: string, rest: string)
    requires NoSpace(matched)
    ensures Concat(result + Flush(substr) + [matched]) + [] + RemoveSpace(rest)
         == Concat(result) + substr + RemoveSpace(matched + rest)
  {
    ConcatFlushed(result, substr, matched);
    RemoveSpaceAppend(matched, rest);
    RemoveSpaceOfNoSpace(matched);
    assert RemoveSpace(matched + rest) == matched + RemoveSpace(rest);
  }

  lemma {:induction false} RunSpells(runes: seq<char>, open: char, close: char, t: KeywordTrie, s: ScanState)
    requires Valid(t, "") && Parallel(t) && s.i <= |runes|
    requires forall k :: k in Keys(t) ==> NoSpace(k)
    requires !IsSpace(open) && !IsSpace(close)
    ensures Concat(Finish(Run(runes, open, close, t, RuneCount, s)))
         == Concat(s.result) + s.substr + RemoveSpace(runes[s.i..])
    decreases |runes| - s.i
  {
    if s.i < |runes| {
      StepSpells(runes, open, close, t, s);
      RunSpells(runes, open, close, t, Step(runes, open, close, t, RuneCount, s));
    } else {
      ConcatAppend(s.result, Flush(s.substr));
      FlushConcat(s.substr);
      assert runes[s.i..] == [];
    }
  }

  /**
   * Nothing but whitespace is lost or reordered: when no keyword contains
   * whitespace and the brackets are not whitespace, the tokens are non-empty
   * and glued back together they give the input without its whitespace.
   */
  lemma TokensSpellInput(str: seq<char>, open: char, close: char, t: KeywordTrie)
    requires Valid(t, "") && Parallel(t)
    requires forall k :: k in Keys(t) ==> NoSpace(k)
    requires !IsSpace(open) && !IsSpace(close)
    ensures forall tok :: tok in Tokens(str, open, close, t) ==> tok != ""
    ensures forall tok :: tok in Tokens(str, open, close, t) ==> TokenKind(tok, open, close, t)
    ensures Concat(Tokens(str, open, close, t)) == RemoveSpace(str)
  {
    RunNonEmpty(str, open, close, t, RuneCount, Start);
    RunTokenKinds(str, open, close, t, RuneCount, Start);
    RunSpells(str, open, close, t, Start);
    assert str[0..] == str;
  }

  /**
   * The head of `str` extends a literal run: it is neither a bracket nor
   * whitespace, and no keyword starts there.
   */
  predicate LiteralAt(str: seq<char>, open: char, close: char, t: KeywordTrie)
    requires Parallel(t) && |str| > 0
  {
    str[0] != open && str[0] != close && !IsSpace(str[0]) && Match(t, str) == ""
  }

  /** The length of the literal run at the head of `str`: the longest prefix of literal positions. */
  function LiteralLength(str: seq<char>, open: char, close: char, t: KeywordTrie): (n: nat)
    requires Parallel(t)
    ensures n <= |str|
    ensures forall p :: 0 <= p < n ==> LiteralAt(str[p..], open, close, t)
    ensures n < |str| ==> !LiteralAt(str[n..], open, close, t)
    decreases |str|
  {
    if str == [] || !LiteralAt(str, open, close, t) then 0
    else
      var n := 1 + LiteralLength(str[1..], open, close, t);
      assert forall p :: 1 <= p <= |str| ==> str[1..][p - 1..] == str[p..];
      n
  }

  /**
   * The tokens of `str` a whole token at a time, the way the design describes
   * the scan: a bracket is a token; whitespace separates; where a keyword
   * starts, the longest one is a token; otherwise the maximal literal run is.
   */
  function Lexemes(str: seq<char>, open: char, close: char, t: KeywordTrie): seq<string>
    requires Valid(t, "")
    decreases |str|
  {
    if str == [] then []
    else if str[0] == open || str[0] == close then [[str[0]]] + Lexemes(str[1..], open, close, t)
    else if IsSpace(str[0]) then Lexemes(str[1..], open, close, t)
    else
      MatchIsPrefix(t, str);
      var matched := Match(t, str);
      if matched != "" then [matched] + Lexemes(str[|matched|..], open, close, t)
      else
        var n := LiteralLength(str, open, close, t);
        [str[..n]] + Lexemes(str[n..], open, close, t)
  }

  /**
   * The loop computes the lexemes: a state whose pending run is
   * `runes[a..s.i]`, all literal positions, finishes with the lexemes of
   * `runes[a..]` after the tokens already emitted.
   */
  lemma {:induction false} RunLexemes(runes: seq<char>, open: char, close: char, t: KeywordTrie, s: ScanState, a: nat)
    requires Valid(t, "") && Parallel(t)
    requires a <= s.i <= |runes| && s.substr == runes[a..s.i]
    requires forall p {:trigger LiteralAt(runes[p..], open, close, t)} :: a <= p < s.i ==> LiteralAt(runes[p..], open, close, t)
    ensures Finish(Run(runes, open, close, t, RuneCount, s)) == s.result + Lexemes(runes[a..], open, close, t)
    decreases |runes| - s.i, 1
  {
    if s.i == |runes| {
      LexemesAfterRun(runes, open, close, t, s.i, a);
      assert runes[s.i..] == [];
    } else if LiteralAt(runes[s.i..], open, close, t) {
      RunLexemesExtend(runes, open, close, t, s, a);
    } else {
      RunLexemesAtBreak(runes, open, close, t, s, a);
    }
  }

  /** The loop at a literal position: the rune joins the pending run. */
  lemma {:induction false} RunLexemesExtend(runes: seq<char>, open: char, close: char, t: KeywordTrie, s: ScanState, a: nat)
    requires Valid(t, "") && Parallel(t)
    requires a <= s.i < |runes| && s.substr == runes[a..s.i]
    requires forall p {:trigger LiteralAt(runes[p..], open, close, t)} :: a <= p <= s.i ==> LiteralAt(runes[p..], open, close, t)
    ensures Finish(Run(runes, open, close, t, RuneCount, s)) == s.result + Lexemes(runes[a..], open, close, t)
    decreases |runes| - s.i, 0
  {
    var s' := Step(runes, open, close, t, RuneCount, s);
    assert LiteralAt(runes[s.i..], open, close, t);
    assert s' == ScanState(s.i + 1, s.substr + [runes[s.i]], s.result);
    assert runes[a..s.i + 1] == s.substr + [runes[s.i]];
    RunLexemes(runes, open, close, t, s', a);
  }

  /**
   * The loop at a position that does not extend a literal run: the pending
   * run is flushed as one lexeme, then the next lexeme is emitted.
   */
  lemma {:induction false} RunLexemesAtBreak(runes: seq<char>, open: char, close: char, t: KeywordTrie, s: ScanState, a: nat)
    requires Valid(t, "") && Parallel(t)
    requires a <= s.i < |runes| && s.substr == runes[a..s.i]
    requires forall p {:trigger LiteralAt(runes[p..], open, close, t)} :: a <= p < s.i ==> LiteralAt(runes[p..], open, close, t)
    requires !LiteralAt(runes[s.i..], open, close, t)
    ensures Finish(Run(runes, open, close, t, RuneCount, s)) == s.result + Lexemes(runes[a..], open, close, t)
    decreases |runes| - s.i, 0
  {
    var s', emitted := LexemeAt(runes, open, close, t, s);
    var later := Lexemes(runes[s'.i..], open, close, t);
    assert Run(runes, open, close, t, RuneCount, s) == Run(runes, open, close, t, RuneCount, s');
    assert Finish(Run(runes, open, close, t, RuneCount, s')) == s'.result + later by {
      assert runes[s'.i..s'.i] == [];
      RunLexemes(runes, open, close, t, s', s'.i);
    }
    assert Lexemes(runes[a..], open, close, t) == Flush(s.substr) + (emitted + later) by {
      LexemesAfterRun(runes, open, close, t, s.i, a);
    }
    AppendAssoc(s.result + Flush(s.substr), emitted, later);
    AppendAssoc(s.result, Flush(s.substr), emitted + later);
  }

  /** Where the literal run `runes[a..i]` ends, the lexemes of `runes[a..]` are that run and then those of `runes[i..]`. */
  lemma LexemesAfterRun(runes: seq<char>, open: char, close: char, t: KeywordTrie, i: nat, a: nat)
    requires Valid(t, "") && Parallel(t) && a <= i <= |runes|
    requires forall p {:trigger LiteralAt(runes[p..], open, close, t)} :: a <= p < i ==> LiteralAt(runes[p..], open, close, t)
    requires i < |runes| ==> !LiteralAt(runes[i..], open, close, t)
    ensures Lexemes(runes[a..], open, close, t) == Flush(runes[a..i]) + Lexemes(runes[i..], open, close, t)
  {
    if a < i {
      var str := runes[a..];
      assert LiteralAt(str, open, close, t);
      var n := LiteralLength(str, open, close, t);
      assert str[n..] == runes[a + n..];
      assert str[i - a..] == runes[i..];
      assert n == i - a;
      assert str[..n] == runes[a..i];
    }
  }

  /**
   * At a position that does not extend a literal run, one step of the loop
   * and one lexeme agree: both emit the same tokens and resume at the same place.
   */
  lemma LexemeAt(runes: seq<char>, open: char, close: char, t: KeywordTrie, s: ScanState) returns (s': ScanState, emitted: seq<string>)
    requires Valid(t, "") && Parallel(t) && s.i < |runes|
    requires !LiteralAt(runes[s.i..], open, close, t)
    ensures s' == Step(runes, open, close, t, RuneCount, s)
    ensures s'.i <= |runes| && s'.substr == [] && s'.result == s.result + Flush(s.substr) + emitted
    ensures Lexemes(runes[s.i..], open, close, t) == emitted + Lexemes(runes[s'.i..], open, close, t)
  {
    var c, str := runes[s.i], runes[s.i..];
    assert str[1..] == runes[s.i + 1..];
    s' := Step(runes, open, close, t, RuneCount, s);
    if c == open || c == close {
      emitted := [[c]];
    } else if IsSpace(c) {
      emitted := [];
    } else {
      MatchIsPrefix(t, str);
      var matched := Match(t, str);
      emitted := [matched];
      assert str[|matched|..] == runes[s.i + |matched|..];
    }
  }

  /**
   * `Tokenize` splits keywords out as `Match` finds them: for a valid trie,
   * its tokens are the lexemes, so each keyword token is the longest keyword
   * at its position and no keyword starts inside a literal token.
   */
  lemma TokensAreLexemes(str: seq<char>, open: char, close: char, t: KeywordTrie)
    requires Valid(t, "")
    ensures Parallel(t)
    ensures Tokens(str, open, close, t) == Lexemes(str, open, close, t)
  {
    ValidIsParallel(t, "");
    RunLexemes(str, open, close, t, Start, 0);
    assert str[0..] == str;
  }

  /** With ASCII keywords only, bytes and runes coincide and the code as written is right. */
  lemma {:induction false} AsWrittenAgreesOnAscii(runes: seq<char>, open: char, close: char, t: KeywordTrie, s: ScanState)
    requires Valid(t, "") && Parallel(t)
    requires forall k :: k in Keys(t) ==> IsAscii(k)
    ensures Run(runes, open, close, t, ByteCount, s) == Run(runes, open, close, t, RuneCount, s)
    decreases |runes| - s.i
  {
    if s.i < |runes| {
      var matched := Match(t, runes[s.i..]);
      MatchIsKey(t, runes[s.i..]);
      if matched != "" {
        Utf8LengthIsRuneCount(matched);
      }
      assert Step(runes, open, close, t, ByteCount, s) == Step(runes, open, close, t, RuneCount, s);
      AsWrittenAgreesOnAscii(runes, open, close, t, Step(runes, open, close, t, RuneCount, s));
    }
  }

  /** An empty input has no tokens, whatever the brackets and keywords. */
  lemma EmptyInputHasNoTokens(open: char, close: char, t: KeywordTrie)
    requires Parallel(t)
    ensures Tokens([], open, close, t) == []
  {
  }

  /** What a trie holding exactly ">" and ">=" matches at the three places of "x >= y" where a token starts. */
  lemma GreaterEqualMatches(t: KeywordTrie)
    requires Valid(t, "") && Keys(t) == {">", ">="}
    ensures Parallel(t)
    ensures Match(t, "x >= y") == "" && Match(t, ">= y") == ">=" && Match(t, "y") == ""
  {
    MatchFromRoot(t, "x >= y");
    MatchFromRoot(t, ">= y");
    MatchFromRoot(t, "y");
    assert ">" <= ">= y" && ">=" <= ">= y";
    assert !(">" <= "x >= y") && !(">=" <= "x >= y");
    assert !(">" <= "y") && !(">=" <= "y");
  }

  /**
   * "x >= y" splits into "x", ">=" and "y" (the comparison tokenizer's test
   * case): the longer keyword wins over ">", and whitespace separates.
   */
  lemma GreaterEqualSplits(t: KeywordTrie)
    requires Valid(t, "") && Keys(t) == {">", ">="}
    ensures Parallel(t)
    ensures Tokens("x >= y", '(', ')', t) == ["x", ">=", "y"]
  {
    var s: seq<char> := "x >= y";
    TokensAreLexemes(s, '(', ')', t);
    GreaterEqualMatches(t);
    assert s[1..] == " >= y" && s[2..] == ">= y";
    assert Lexemes(s, '(', ')', t) == ["x"] + Lexemes(s[1..], '(', ')', t) by {
      assert s[0..] == s && s[0..1] == "x";
      LexemesAfterRun(s, '(', ')', t, 1, 0);
    }
    assert Lexemes(s[1..], '(', ')', t) == Lexemes(s[2..], '(', ')', t) by {
      assert s[1..][1..] == s[2..];
    }
    GreaterEqualTail(t);
  }

  /** The part of "x >= y" after the first blank: the keyword ">=", then the word "y". */
  lemma GreaterEqualTail(t: KeywordTrie)
    requires Valid(t, "") && Keys(t) == {">", ">="}
    ensures Parallel(t)
    ensures Lexemes(">= y", '(', ')', t) == [">=", "y"]
  {
    var s: seq<char> := ">= y";
    GreaterEqualMatches(t);
    assert Lexemes(s, '(', ')', t) == [">="] + Lexemes(s[2..], '(', ')', t);
    assert s[2..] == " y" && s[2..][1..] == "y";
    assert Lexemes("y", '(', ')', t) == ["y"] by {
      var y: seq<char> := "y";
      assert y[0..] == y && y[0..1] == y && y[1..] == [];
      LexemesAfterRun(y, '(', ')', t, 1, 0);
    }
  }

  /** The trie holding the single keyword "≤" (three bytes in UTF-8). */
  const LessEqualTrie: KeywordTrie := KeywordTrie([KeywordTrie([], [], "\U{2264}")], ['\U{2264}'], "")

  /**
   * The trie is valid and "≤" is its only key; by `MatchFromRoot` and
   * `LongestMatchUnique`, every valid trie with that one key matches as it does.
   */
  lemma LessEqualTrieHoldsOneKeyword()
    ensures Valid(LessEqualTrie, "") && Parallel(LessEqualTrie) && Keys(LessEqualTrie) == {"\U{2264}"}
  {
    var leaf := LessEqualTrie.children[0];
    assert Keys(leaf) == {"\U{2264}"};
    assert ChildKeys(LessEqualTrie, 1) == {"\U{2264}"};
    assert Valid(leaf, "" + ['\U{2264}']);
  }

  /** What the trie for "≤" matches at each position of "a≤b". */
  lemma LessEqualMatches()
    ensures Parallel(LessEqualTrie)
    ensures Match(LessEqualTrie, "a\U{2264}b") == ""
    ensures Match(LessEqualTrie, "\U{2264}b") == "\U{2264}"
    ensures Match(LessEqualTrie, "b") == ""
  {
    var t := LessEqualTrie;
    assert Parallel(t.children[0]);
    assert IndexOf(t.runes, 'a') == 1;
    assert IndexOf(t.runes, 'b') == 1;
    assert IndexOf(t.runes, '\U{2264}') == 0;
    assert "\U{2264}b"[1..] == "b";
    assert Match(t.children[0], "b") == "\U{2264}";
  }

  /** As written, the scan of "a≤b" stops after the keyword: index 1 plus three bytes passes the end. */
  lemma AsWrittenScanOfLessEqual()
    ensures Parallel(LessEqualTrie)
    ensures TokensAsWritten("a\U{2264}b", '(', ')', LessEqualTrie) == ["a", "\U{2264}"]
  {
    var t := LessEqualTrie;
    var s: seq<char> := "a\U{2264}b";
    LessEqualMatches();
    assert s[0..] == s && s[1..] == "\U{2264}b";
    assert Utf8Length("\U{2264}") == 3;
    var s1 := ScanState(1, "a", []);
    var s2 := ScanState(4, [], ["a", "\U{2264}"]);
    assert Step(s, '(', ')', t, ByteCount, Start) == s1;
    assert Step(s, '(', ')', t, ByteCount, s1) == s2;
    assert Run(s, '(', ')', t, ByteCount, s2) == s2;
    assert Finish(s2) == ["a", "\U{2264}"];
  }

  /** Skipping by rune count, the scan of "a≤b" reaches the final "b". */
  lemma ScanOfLessEqual()
    ensures Parallel(LessEqualTrie)
    ensures Tokens("a\U{2264}b", '(', ')', LessEqualTrie) == ["a", "\U{2264}", "b"]
  {
    var t := LessEqualTrie;
    var s: seq<char> := "a\U{2264}b";
    LessEqualMatches();
    assert s[0..] == s && s[1..] == "\U{2264}b" && s[2..] == "b";
    var s1 := ScanState(1, "a", []);
    var s2 := ScanState(2, [], ["a", "\U{2264}"]);
    var s3 := ScanState(3, "b", ["a", "\U{2264}"]);
    assert Step(s, '(', ')', t, RuneCount, Start) == s1;
    assert Step(s, '(', ')', t, RuneCount, s1) == s2;
    assert Step(s, '(', ')', t, RuneCount, s2) == s3;
    assert Run(s, '(', ')', t, RuneCount, s3) == s3;
    assert Finish(s3) == ["a", "\U{2264}", "b"];
  }
}
