/**
 * What `tokenize` in bool/bool.go promises: nothing but whitespace is lost
 * or reordered, every token is a bracket or a whitespace-free run in which
 * no proper prefix is a keyword (a run is cut the moment it spells one),
 * and case-insensitive parsers see only lower-case text.
 */
module BoolTokens {
  import opened Text
  import Ast
  import opened BoolParser

  /** Neither bracket string is a whitespace rune. */
  predicate ParensNotSpace(syn: Syntax) {
    forall c :: IsParen(syn, c) ==> !IsSpace(c)
  }

  /** What the loop has spelled so far: the emitted tokens, then the pending run. */
  function Spelled(s: TokState): string {
    Concat(s.result) + s.substr
  }

  lemma TokStepSpells(syn: Syntax, s: TokState, c: char)
    requires ParensNotSpace(syn)
    ensures Spelled(TokStep(syn, s, c)) == Spelled(s) + RemoveSpace([c])
  {
    RemoveSpaceCons(c, []);
    assert RemoveSpace([c] + []) == RemoveSpace([c]) by {
      assert [c] + [] == [c];
    }
    if IsParen(syn, c) {
      Ast.ConcatFlushed(s.result, s.substr, [c]);
    } else if IsSpace(c) {
      Ast.FlushConcat(s.substr);
      ConcatAppend(s.result, Ast.Flush(s.substr));
    } else if s.substr + [c] in syn.keywords {
      ConcatAppend(s.result, [s.substr + [c]]);
      assert Concat([s.substr + [c]]) == s.substr + [c] + Concat([]);
    }
  }

  lemma {:induction false} TokRunSpells(syn: Syntax, runes: string, i: nat, s: TokState)
    requires ParensNotSpace(syn) && i <= |runes|
    ensures Spelled(TokRun(syn, runes, i, s)) == Spelled(s) + RemoveSpace(runes[i..])
    decreases |runes| - i
  {
    if i < |runes| {
      var s1 := TokStep(syn, s, runes[i]);
      TokStepSpells(syn, s, runes[i]);
      TokRunSpells(syn, runes, i + 1, s1);
      assert runes[i..] == [runes[i]] + runes[i + 1..];
      RemoveSpaceAppend([runes[i]], runes[i + 1..]);
      AppendAssoc(Spelled(s), RemoveSpace([runes[i]]), RemoveSpace(runes[i + 1..]));
    } else {
      assert runes[i..] == [];
    }
  }

  /**
   * Nothing is lost or reordered but whitespace: glued back together, the
   * tokens are the scanned text with its whitespace removed.
   */
  lemma TokensSpellInput(syn: Syntax, str: string)
    requires ParensNotSpace(syn)
    ensures Concat(TokensOf(syn, str)) == RemoveSpace(Input(syn, str))
  {
    var runes := Input(syn, str);
    var s := TokRun(syn, runes, 0, Blank);
    TokRunSpells(syn, runes, 0, Blank);
    assert runes[0..] == runes;
    ConcatAppend(s.result, Ast.Flush(s.substr));
    Ast.FlushConcat(s.substr);
  }

  predicate NoParen(syn: Syntax, s: string) {
    forall i :: 0 <= i < |s| ==> !IsParen(syn, s[i])
  }

  /** No non-empty prefix of `s` shorter than `len` is a keyword. */
  predicate NoKeywordBefore(syn: Syntax, s: string, len: nat)
    requires len <= |s| + 1
  {
    forall n :: 1 <= n < len ==> s[..n] !in syn.keywords
  }

  /**
   * A token is a bracket on its own, or a non-empty run without whitespace or
   * brackets none of whose proper prefixes is a keyword.
   */
  predicate TokenShape(syn: Syntax, tok: string) {
    || (|tok| == 1 && IsParen(syn, tok[0]))
    || (tok != [] && NoSpace(tok) && NoParen(syn, tok) && NoKeywordBefore(syn, tok, |tok|))
  }

  /** The loop invariant: emitted tokens are well shaped, and the pending run spells no keyword at any length. */
  predicate Shaped(syn: Syntax, s: TokState) {
    && (forall k :: 0 <= k < |s.result| ==> TokenShape(syn, s.result[k]))
    && NoSpace(s.substr) && NoParen(syn, s.substr)
    && NoKeywordBefore(syn, s.substr, |s.substr| + 1)
  }

  /** A pending run that is flushed is a well-shaped token. */
  lemma FlushShaped(syn: Syntax, result: seq<string>, substr: string)
    requires forall k :: 0 <= k < |result| ==> TokenShape(syn, result[k])
    requires NoSpace(substr) && NoParen(syn, substr) && NoKeywordBefore(syn, substr, |substr| + 1)
    ensures var r := result + Ast.Flush(substr);
      forall k :: 0 <= k < |r| ==> TokenShape(syn, r[k])
  {
    var r := result + Ast.Flush(substr);
    forall k | 0 <= k < |r|
      ensures TokenShape(syn, r[k])
    {
      if k == |result| {
        assert r[k] == substr;
      } else {
        assert r[k] == result[k];
      }
    }
  }

  /** Extending the pending run by a rune that is neither whitespace nor a bracket. */
  lemma ExtendRun(syn: Syntax, substr: string, c: char)
    requires NoSpace(substr) && NoParen(syn, substr) && NoKeywordBefore(syn, substr, |substr| + 1)
    requires !IsSpace(c) && !IsParen(syn, c)
    ensures var run := substr + [c];
      NoSpace(run) && NoParen(syn, run) && NoKeywordBefore(syn, run, |run|)
  {
    var run := substr + [c];
    assert forall n :: 1 <= n < |run| ==> run[..n] == substr[..n];
    assert forall i :: 0 <= i < |substr| ==> run[i] == substr[i];
    assert run[|substr|] == c;
  }

  lemma TokStepShaped(syn: Syntax, s: TokState, c: char)
    requires Shaped(syn, s)
    ensures Shaped(syn, TokStep(syn, s, c))
  {
    var s' := TokStep(syn, s, c);
    if IsParen(syn, c) {
      FlushShaped(syn, s.result, s.substr);
      var r := s.result + Ast.Flush(s.substr);
      assert s'.result == r + [[c]];
      assert forall k :: 0 <= k < |r| ==> s'.result[k] == r[k];
    } else if IsSpace(c) {
      FlushShaped(syn, s.result, s.substr);
    } else {
      ExtendRun(syn, s.substr, c);
      var run := s.substr + [c];
      if run in syn.keywords {
        assert s'.result == s.result + [run];
        assert forall k :: 0 <= k < |s.result| ==> s'.result[k] == s.result[k];
        assert TokenShape(syn, run);
      } else {
        assert run[..|run|] == run;
      }
    }
  }

  lemma {:induction false} TokRunShaped(syn: Syntax, runes: string, i: nat, s: TokState)
    requires Shaped(syn, s)
    ensures Shaped(syn, TokRun(syn, runes, i, s))
    decreases |runes| - i
  {
    if i < |runes| {
      TokStepShaped(syn, s, runes[i]);
      TokRunShaped(syn, runes, i + 1, TokStep(syn, s, runes[i]));
    }
  }

  /**
   * Every token is a lone bracket, or a non-empty run free of whitespace and
   * brackets that was cut no later than the first keyword it spelled.
   */
  lemma TokensAreShaped(syn: Syntax, str: string)
    ensures forall tok :: tok in TokensOf(syn, str) ==> tok != [] && TokenShape(syn, tok)
  {
    var s := TokRun(syn, Input(syn, str), 0, Blank);
    TokRunShaped(syn, Input(syn, str), 0, Blank);
    FlushShaped(syn, s.result, s.substr);
  }

  // ------------------------------------------------- lexemes piece by piece

  /**
   * A word free of whitespace and brackets none of whose proper prefixes is
   * a keyword is one lexeme when whitespace, a bracket or the end follows it,
   * or when it is itself a keyword.
   */
  lemma WordLexeme(syn: Syntax, w: string, rest: string)
    requires w != [] && forall j :: 0 <= j < |w| ==> !Breaks(syn, w[j])
    requires NoKeywordBefore(syn, w, |w|)
    requires rest == [] || Breaks(syn, rest[0]) || w in syn.keywords
    ensures Lexemes(syn, w + rest) == [w] + Lexemes(syn, rest)
  {
    var str := w + rest;
    var n := LexemeLength(syn, str, 1);
    assert forall j :: 0 <= j < |w| ==> str[j] == w[j];
    assert forall m :: 1 <= m <= |w| ==> str[..m] == w[..m];
    assert w[..|w|] == w;
    assert |w| < |str| ==> str[|w|] == rest[0];
    assert n == |w|;
    assert str[..n] == w && str[n..] == rest;
  }

  /** Whitespace that is not a bracket is dropped. */
  lemma SpaceLexeme(syn: Syntax, c: char, rest: string)
    requires IsSpace(c) && !IsParen(syn, c)
    ensures Lexemes(syn, [c] + rest) == Lexemes(syn, rest)
  {
    assert ([c] + rest)[1..] == rest;
  }

  /** A bracket is a lexeme of its own. */
  lemma BracketLexeme(syn: Syntax, c: char, rest: string)
    requires IsParen(syn, c)
    ensures Lexemes(syn, [c] + rest) == [[c]] + Lexemes(syn, rest)
  {
    assert ([c] + rest)[1..] == rest;
  }

  /** Lexing distributes over a text that is cut just before whitespace or a bracket. */
  lemma {:induction false} LexemesAppend(syn: Syntax, x: string, y: string)
    requires y == [] || Breaks(syn, y[0])
    ensures Lexemes(syn, x + y) == Lexemes(syn, x) + Lexemes(syn, y)
    decreases |x|
  {
    var str := x + y;
    if x == [] {
      assert str == y;
    } else if Breaks(syn, x[0]) {
      assert str[0] == x[0] && str[1..] == x[1..] + y;
      LexemesAppend(syn, x[1..], y);
      AppendAssoc(if IsParen(syn, x[0]) then [[x[0]]] else [], Lexemes(syn, x[1..]), Lexemes(syn, y));
    } else {
      var m := LexemeLength(syn, x, 1);
      var n := LexemeLength(syn, str, 1);
      assert forall j :: 0 <= j < |x| ==> str[j] == x[j];
      assert forall k :: 0 <= k <= |x| ==> str[..k] == x[..k];
      assert m == |x| ==> m == |str| || str[m] == y[0];
      assert n == m;
      assert str[n..] == x[m..] + y;
      LexemesAppend(syn, x[m..], y);
      AppendAssoc([x[..m]], Lexemes(syn, x[m..]), Lexemes(syn, y));
    }
  }

  /** A word lexed whole: not empty, no whitespace or bracket, and no proper prefix a keyword. */
  predicate PlainWord(syn: Syntax, w: string) {
    && w != []
    && (forall j :: 0 <= j < |w| ==> !Breaks(syn, w[j]))
    && NoKeywordBefore(syn, w, |w|)
  }

  predicate PlainWords(syn: Syntax, ws: seq<string>) {
    forall i :: 0 <= i < |ws| ==> PlainWord(syn, ws[i])
  }

  /** The words joined by single spaces. */
  function Spaced(ws: seq<string>): string
    decreases |ws|
  {
    if ws == [] then [] else if |ws| == 1 then ws[0] else ws[0] + " " + Spaced(ws[1..])
  }

  /** Words joined by single spaces lex back to the words themselves. */
  lemma {:induction false} SpacedLexemes(syn: Syntax, ws: seq<string>)
    requires PlainWords(syn, ws) && !IsParen(syn, ' ')
    ensures Lexemes(syn, Spaced(ws)) == ws
    decreases |ws|
  {
    if ws == [] {
    } else if |ws| == 1 {
      WordLexeme(syn, ws[0], []);
      assert ws[0] + [] == ws[0];
    } else {
      var tail := Spaced(ws[1..]);
      assert Spaced(ws) == ws[0] + ([' '] + tail);
      WordLexeme(syn, ws[0], [' '] + tail);
      SpaceLexeme(syn, ' ', tail);
      assert PlainWords(syn, ws[1..]) by {
        assert forall i :: 0 <= i < |ws| - 1 ==> ws[1..][i] == ws[i + 1];
      }
      SpacedLexemes(syn, ws[1..]);
      assert [ws[0]] + ws[1..] == ws;
    }
  }

  /** Text made only of whitespace, none of it a bracket, lexes to nothing. */
  lemma {:induction false} BlankLexemes(syn: Syntax, s: string)
    requires forall j :: 0 <= j < |s| ==> IsSpace(s[j]) && !IsParen(syn, s[j])
    ensures Lexemes(syn, s) == []
    decreases |s|
  {
    if s != [] {
      BlankLexemes(syn, s[1..]);
    }
  }

  /** No prefix of a word is a keyword when no keyword starts with the word's first rune. */
  lemma FreshStart(syn: Syntax, w: string)
    requires w != [] && forall k :: k in syn.keywords ==> k == [] || k[0] != w[0]
    ensures NoKeywordBefore(syn, w, |w| + 1)
  {
    forall n | 1 <= n < |w| + 1
      ensures w[..n] !in syn.keywords
    {
      assert w[..n][0] == w[0];
    }
  }

  /** A case-insensitive parser treats a string and its lower-cased form alike. */
  lemma CaseInsensitiveIgnoresCase(syn: Syntax, str: string)
    requires syn.caseInsensitive
    ensures TokensOf(syn, ToLower(str)) == TokensOf(syn, str)
    ensures ParseOf(syn, ToLower(str)) == ParseOf(syn, str)
  {
    ToLowerIdempotent(str);
  }

  // ---------------------------------------------------------------- examples

  const DefaultSyntax: Syntax := Syntax(DefaultConfig, {"AND", "OR", "NOT", "(", ")"}, false)

  /** Nothing to scan, nothing emitted. */
  lemma EmptyInputHasNoTokens(syn: Syntax)
    ensures TokensOf(syn, "") == []
  {
    if syn.caseInsensitive {
      assert ToLower("") == "";
    }
  }

  /** A keyword at the end of a longer run is not split off: "xyzNOT" stays whole. */
  lemma KeywordSuffixStaysInRun()
    ensures TokensOf(DefaultSyntax, "xyzNOT") == ["xyzNOT"]
  {
    DefaultSpelled();
    FreshStart(DefaultSyntax, "xyzNOT");
    SpacedTokens(DefaultSyntax, ["xyzNOT"]);
    assert Spaced(["xyzNOT"]) == "xyzNOT";
  }


  /** A run is cut as soon as it spells a keyword: "ORDER" gives "OR" then "DER". */
  lemma KeywordPrefixIsCut()
    ensures TokensOf(DefaultSyntax, "ORDER") == ["OR", "DER"]
  {
    var syn := DefaultSyntax;
    var s := "ORDER";
    assert Get(syn.config, OpenParen) == "(" && Get(syn.config, CloseParen) == ")";
    assert TokStep(syn, Blank, 'O') == TokState("O", []);
    assert TokRun(syn, s, 0, Blank) == TokRun(syn, s, 1, TokState("O", []));
    assert "O" + ['R'] == "OR";
    assert TokStep(syn, TokState("O", []), 'R') == TokState("", ["OR"]);
    assert TokRun(syn, s, 1, TokState("O", [])) == TokRun(syn, s, 2, TokState("", ["OR"]));
    assert TokStep(syn, TokState("", ["OR"]), 'D') == TokState("D", ["OR"]);
    assert TokRun(syn, s, 2, TokState("", ["OR"])) == TokRun(syn, s, 3, TokState("D", ["OR"]));
    assert "D" + ['E'] == "DE";
    assert TokStep(syn, TokState("D", ["OR"]), 'E') == TokState("DE", ["OR"]);
    assert TokRun(syn, s, 3, TokState("D", ["OR"])) == TokRun(syn, s, 4, TokState("DE", ["OR"]));
    assert "DE" + ['R'] == "DER";
    assert TokStep(syn, TokState("DE", ["OR"]), 'R') == TokState("DER", ["OR"]);
    assert TokRun(syn, s, 4, TokState("DE", ["OR"])) == TokRun(syn, s, 5, TokState("DER", ["OR"]));
  }

  /** Brackets stand alone even without surrounding spaces. */
  lemma BracketsStandAlone()
    ensures TokensOf(DefaultSyntax, "NOT(a)") == ["NOT", "(", "a", ")"]
  {
    var syn := DefaultSyntax;
    var s := "NOT(a)";
    assert Get(syn.config, OpenParen) == "(" && Get(syn.config, CloseParen) == ")";
    assert TokStep(syn, Blank, 'N') == TokState("N", []);
    assert TokRun(syn, s, 0, Blank) == TokRun(syn, s, 1, TokState("N", []));
    assert "N" + ['O'] == "NO";
    assert TokStep(syn, TokState("N", []), 'O') == TokState("NO", []);
    assert TokRun(syn, s, 1, TokState("N", [])) == TokRun(syn, s, 2, TokState("NO", []));
    assert "NO" + ['T'] == "NOT";
    assert TokStep(syn, TokState("NO", []), 'T') == TokState("", ["NOT"]);
    assert TokRun(syn, s, 2, TokState("NO", [])) == TokRun(syn, s, 3, TokState("", ["NOT"]));
    assert TokStep(syn, TokState("", ["NOT"]), '(') == TokState("", ["NOT", "("]);
    assert TokRun(syn, s, 3, TokState("", ["NOT"])) == TokRun(syn, s, 4, TokState("", ["NOT", "("]));
    assert TokStep(syn, TokState("", ["NOT", "("]), 'a') == TokState("a", ["NOT", "("]);
    assert TokRun(syn, s, 4, TokState("", ["NOT", "("])) == TokRun(syn, s, 5, TokState("a", ["NOT", "("]));
    assert TokStep(syn, TokState("a", ["NOT", "("]), ')') == TokState("", ["NOT", "(", "a", ")"]);
    assert TokRun(syn, s, 5, TokState("a", ["NOT", "("])) == TokRun(syn, s, 6, TokState("", ["NOT", "(", "a", ")"]));
  }

  /** The default brackets are "(" and ")". */
  lemma DefaultParens()
    ensures forall c :: IsParen(DefaultSyntax, c) <==> c == '(' || c == ')'
  {
    assert Get(DefaultSyntax.config, OpenParen) == "(" && Get(DefaultSyntax.config, CloseParen) == ")";
  }

  /** The brackets are "(" and ")" and the keywords the five default spellings, case kept. */
  predicate DefaultSpelling(syn: Syntax) {
    && Get(syn.config, OpenParen) == "(" && Get(syn.config, CloseParen) == ")"
    && syn.keywords == {"AND", "OR", "NOT", "(", ")"}
    && !syn.caseInsensitive
  }

  /** No proper prefix of a default operator is a keyword. */
  lemma DefaultOperatorsWhole(syn: Syntax)
    requires DefaultSpelling(syn)
    ensures NoKeywordBefore(syn, "AND", 3)
    ensures NoKeywordBefore(syn, "OR", 2)
    ensures NoKeywordBefore(syn, "NOT", 3)
  {
    forall n | 1 <= n < 3
      ensures "AND"[..n] !in syn.keywords
    {
      assert |"AND"[..n]| == n && "AND"[..n][0] == 'A';
      assert n == 2 ==> "AND"[..n][1] == 'N';
    }
    forall n | 1 <= n < 2
      ensures "OR"[..n] !in syn.keywords
    {
      assert |"OR"[..n]| == n && "OR"[..n][0] == 'O';
    }
    forall n | 1 <= n < 3
      ensures "NOT"[..n] !in syn.keywords
    {
      assert |"NOT"[..n]| == n && "NOT"[..n][0] == 'N';
      assert n == 2 ==> "NOT"[..n][1] == 'O';
    }
  }

  /** Words joined by single spaces are tokenized back into those words. */
  lemma SpacedTokens(syn: Syntax, ws: seq<string>)
    requires PlainWords(syn, ws) && !IsParen(syn, ' ') && !syn.caseInsensitive
    ensures TokensOf(syn, Spaced(ws)) == ws
  {
    TokensAreLexemes(syn, Spaced(ws));
    SpacedLexemes(syn, ws);
  }

  /** Whitespace separates tokens: "abc AND def" is abc, AND, def. */
  lemma WordsAroundAnd(syn: Syntax)
    requires DefaultSpelling(syn)
    ensures TokensOf(syn, "abc AND def") == ["abc", "AND", "def"]
  {
    assert PlainWords(syn, ["abc", "AND", "def"]) by {
      FreshStart(syn, "abc");
      FreshStart(syn, "def");
      DefaultOperatorsWhole(syn);
    }
    SpacedTokens(syn, ["abc", "AND", "def"]);
    WordsAroundAndText();
  }

  lemma WordsAroundAndText()
    ensures Spaced(["abc", "AND", "def"]) == "abc AND def"
  {
  }

  /** Comparison symbols and numbers are words like any other. */
  lemma ComparisonWords(syn: Syntax)
    requires DefaultSpelling(syn)
    ensures TokensOf(syn, "isToken = 123 AND x > 13") == ["isToken", "=", "123", "AND", "x", ">", "13"]
  {
    var ws := ["isToken", "=", "123", "AND", "x", ">", "13"];
    ComparisonPlain(syn);
    SpacedTokens(syn, ws);
    ComparisonText();
  }

  lemma ComparisonPlain(syn: Syntax)
    requires DefaultSpelling(syn)
    ensures PlainWords(syn, ["isToken", "=", "123", "AND", "x", ">", "13"])
  {
    var ws := ["isToken", "=", "123", "AND", "x", ">", "13"];
    DefaultOperatorsWhole(syn);
    FreshStart(syn, "isToken");
    FreshStart(syn, "=");
    FreshStart(syn, "123");
    FreshStart(syn, "x");
    FreshStart(syn, ">");
    FreshStart(syn, "13");
    forall i | 0 <= i < |ws|
      ensures PlainWord(syn, ws[i])
    {
      assert ws[i] in {"isToken", "=", "123", "AND", "x", ">", "13"};
    }
  }

  lemma ComparisonText()
    ensures Spaced(["isToken", "=", "123", "AND", "x", ">", "13"]) == "isToken = 123 AND x > 13"
  {
  }

  /** "abc AND": the operator is the last token. */
  lemma TrailingAndTokens(syn: Syntax)
    requires DefaultSpelling(syn)
    ensures TokensOf(syn, "abc AND") == ["abc", "AND"]
  {
    FreshStart(syn, "abc");
    DefaultOperatorsWhole(syn);
    SpacedTokens(syn, ["abc", "AND"]);
    assert Spaced(["abc", "AND"]) == "abc AND";
  }

  /** The default syntax is spelled the default way. */
  lemma DefaultSpelled()
    ensures DefaultSpelling(DefaultSyntax)
  {
    assert Get(DefaultSyntax.config, OpenParen) == "(" && Get(DefaultSyntax.config, CloseParen) == ")";
  }

  /** "NOT" alone is one token. */
  lemma LoneNotTokens(syn: Syntax)
    requires DefaultSpelling(syn)
    ensures TokensOf(syn, "NOT") == ["NOT"]
  {
    DefaultOperatorsWhole(syn);
    SpacedTokens(syn, ["NOT"]);
    assert Spaced(["NOT"]) == "NOT";
  }

  /** "AND 7": the operator comes first. */
  lemma LeadingAndTokens(syn: Syntax)
    requires DefaultSpelling(syn)
    ensures TokensOf(syn, "AND 7") == ["AND", "7"]
  {
    DefaultOperatorsWhole(syn);
    FreshStart(syn, "7");
    SpacedTokens(syn, ["AND", "7"]);
    assert Spaced(["AND", "7"]) == "AND 7";
  }

  /** Whitespace after spaced words produces no token. */
  lemma SpacedBlankTokens(syn: Syntax, ws: seq<string>, blank: string)
    requires PlainWords(syn, ws) && !IsParen(syn, ' ') && !syn.caseInsensitive
    requires forall j :: 0 <= j < |blank| ==> IsSpace(blank[j]) && !IsParen(syn, blank[j])
    ensures TokensOf(syn, Spaced(ws) + blank) == ws
  {
    SpacedLexemes(syn, ws);
    BlankLexemes(syn, blank);
    LexemesAppend(syn, Spaced(ws), blank);
    TokensAreLexemes(syn, Spaced(ws) + blank);
  }

  /** Trailing blanks, tabs and newlines produce no token. */
  lemma TrailingOrTokens(syn: Syntax)
    requires DefaultSpelling(syn)
    ensures TokensOf(syn, "abc OR    \t\n") == ["abc", "OR"]
  {
    assert PlainWords(syn, ["abc", "OR"]) by {
      FreshStart(syn, "abc");
      DefaultOperatorsWhole(syn);
    }
    SpacedBlankTokens(syn, ["abc", "OR"], "    \t\n");
    assert Spaced(["abc", "OR"]) + "    \t\n" == "abc OR    \t\n";
  }

  /** `x` repeated `k` times. */
  function Repeated<T>(x: T, k: nat): (r: seq<T>)
    ensures |r| == k && forall j :: 0 <= j < k ==> r[j] == x
    decreases k
  {
    if k == 0 then [] else [x] + Repeated(x, k - 1)
  }

  /** A row of the same bracket is that many one-bracket lexemes. */
  lemma {:induction false} BracketsLexemes(syn: Syntax, c: char, k: nat, rest: string)
    requires IsParen(syn, c)
    ensures Lexemes(syn, Repeated(c, k) + rest) == Repeated([c], k) + Lexemes(syn, rest)
    decreases k
  {
    if k == 0 {
      assert Repeated(c, 0) + rest == rest;
    } else {
      var inner := Repeated(c, k - 1) + rest;
      assert Repeated(c, k) + rest == [c] + inner;
      BracketLexeme(syn, c, inner);
      BracketsLexemes(syn, c, k - 1, rest);
      AppendAssoc([[c]], Repeated([c], k - 1), Lexemes(syn, rest));
    }
  }

  /** Spaced words inside rows of opening and closing brackets. */
  lemma NestedTokens(syn: Syntax, ws: seq<string>, k: nat, m: nat)
    requires PlainWords(syn, ws) && IsParen(syn, '(') && IsParen(syn, ')')
    requires !IsParen(syn, ' ') && !syn.caseInsensitive
    ensures TokensOf(syn, Repeated('(', k) + Spaced(ws) + Repeated(')', m))
      == Repeated("(", k) + ws + Repeated(")", m)
  {
    var closes := Repeated(')', m);
    BracketsLexemes(syn, ')', m, []);
    assert closes + [] == closes;
    SpacedLexemes(syn, ws);
    LexemesAppend(syn, Spaced(ws), closes);
    BracketsLexemes(syn, '(', k, Spaced(ws) + closes);
    AppendAssoc(Repeated('(', k), Spaced(ws), closes);
    TokensAreLexemes(syn, Repeated('(', k) + Spaced(ws) + closes);
    AppendAssoc(Repeated("(", k), ws, Repeated(")", m));
  }

  /** "((((((x > 5))))" is six opening brackets, three words and four closing brackets. */
  lemma UnbalancedNestingTokens(syn: Syntax)
    requires DefaultSpelling(syn)
    ensures TokensOf(syn, "((((((x > 5))))")
      == ["(", "(", "(", "(", "(", "(", "x", ">", "5", ")", ")", ")", ")"]
  {
    var ws := ["x", ">", "5"];
    FreshStart(syn, "x");
    FreshStart(syn, ">");
    FreshStart(syn, "5");
    assert PlainWords(syn, ws);
    NestedTokens(syn, ws, 6, 4);
    NestingText();
  }

  /** "((((((x > 5))))" as rows of brackets around spaced words. */
  lemma NestingText()
    ensures Repeated('(', 6) + Spaced(["x", ">", "5"]) + Repeated(')', 4) == "((((((x > 5))))"
    ensures Repeated("(", 6) + ["x", ">", "5"] + Repeated(")", 4)
      == ["(", "(", "(", "(", "(", "(", "x", ">", "5", ")", ")", ")", ")"]
  {
    assert Spaced(["x", ">", "5"]) == "x > 5";
  }

  /** A space then an opening bracket: the space is dropped and the bracket kept. */
  lemma SpaceBracketLexemes(syn: Syntax, tail: string)
    requires IsParen(syn, '(') && !IsParen(syn, ' ')
    ensures Lexemes(syn, [' '] + (['('] + tail)) == ["("] + Lexemes(syn, tail)
  {
    SpaceLexeme(syn, ' ', ['('] + tail);
    BracketLexeme(syn, '(', tail);
  }

  /** A word, a space, an opening bracket, then spaced words. */
  lemma WordBracketWords(syn: Syntax, w: string, ws: seq<string>)
    requires PlainWord(syn, w) && PlainWords(syn, ws) && IsParen(syn, '(') && !IsParen(syn, ' ')
    ensures Lexemes(syn, w + ([' '] + (['('] + Spaced(ws)))) == [w, "("] + ws
  {
    var spaced := [' '] + (['('] + Spaced(ws));
    assert Lexemes(syn, spaced) == ["("] + ws by {
      SpaceBracketLexemes(syn, Spaced(ws));
      SpacedLexemes(syn, ws);
    }
    WordLexeme(syn, w, spaced);
    assert [w] + (["("] + ws) == [w, "("] + ws;
  }

  /** "NOT (" followed by spaced words is tokenized into "NOT", "(" and those words. */
  lemma NotBracketTokens(syn: Syntax, ws: seq<string>)
    requires DefaultSpelling(syn) && PlainWords(syn, ws)
    ensures TokensOf(syn, "NOT" + ([' '] + (['('] + Spaced(ws)))) == ["NOT", "("] + ws
  {
    DefaultOperatorsWhole(syn);
    DefaultParens();
    WordBracketWords(syn, "NOT", ws);
    TokensAreLexemes(syn, "NOT" + ([' '] + (['('] + Spaced(ws))));
  }

  /** The unclosed bracket of the failing-parse test is still tokenized word by word. */
  lemma UnclosedBracketTokens(syn: Syntax)
    requires DefaultSpelling(syn)
    ensures TokensOf(syn, "NOT (a AND b AND c") == ["NOT", "(", "a", "AND", "b", "AND", "c"]
  {
    var ws := ["a", "AND", "b", "AND", "c"];
    UnclosedWords(syn);
    NotBracketTokens(syn, ws);
    UnclosedText();
  }

  /** The words of "NOT (a AND b AND c" are each lexed whole. */
  lemma UnclosedWords(syn: Syntax)
    requires DefaultSpelling(syn)
    ensures PlainWord(syn, "NOT") && PlainWords(syn, ["a", "AND", "b", "AND", "c"])
  {
    var ws := ["a", "AND", "b", "AND", "c"];
    DefaultOperatorsWhole(syn);
    FreshStart(syn, "a");
    FreshStart(syn, "b");
    FreshStart(syn, "c");
    forall i | 0 <= i < |ws|
      ensures PlainWord(syn, ws[i])
    {
      assert ws[i] in {"a", "AND", "b", "c"};
    }
  }

  /** "NOT (a AND b AND c" as a word, a space, a bracket and spaced words. */
  lemma UnclosedText()
    ensures "NOT" + ([' '] + (['('] + Spaced(["a", "AND", "b", "AND", "c"]))) == "NOT (a AND b AND c"
  {
    var tail := Spaced(["a", "AND", "b", "AND", "c"]);
    UnclosedTail();
    assert ['('] + tail == "(a AND b AND c";
    assert [' '] + (['('] + tail) == " (a AND b AND c";
  }

  lemma UnclosedTail()
    ensures Spaced(["a", "AND", "b", "AND", "c"]) == "a AND b AND c"
  {
  }
}
