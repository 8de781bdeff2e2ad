/**
 * What `NewParser` and `init` in bool/bool.go accept: the options applied in
 * order, the checks on the brackets, the lower-casing, and the collision
 * check that counts the distinct configured strings.
 */
module BoolConfig {
  import opened Text
  import Ast
  import opened BoolParser
  import opened BoolTokens
  import opened BoolGrammar

  // ---------------------------------------------------------------- options

  lemma {:induction false} ApplyOptsAppend(o: Options, a: seq<ParserOpt>, b: seq<ParserOpt>)
    ensures ApplyOpts(o, a + b) == ApplyOpts(ApplyOpts(o, a), b)
    decreases |a|
  {
    if a != [] {
      assert (a + b)[0] == a[0] && (a + b)[1..] == a[1..] + b;
      ApplyOptsAppend(ApplyOpt(o, a[0]), a[1..], b);
    } else {
      assert a + b == b;
    }
  }

  predicate SetsTokens(opt: ParserOpt) {
    opt.WithTokens?
  }

  /** Options that do not set the tokens leave them alone. */
  lemma {:induction false} CaseOptsKeepTokens(o: Options, opts: seq<ParserOpt>)
    requires forall i :: 0 <= i < |opts| ==> !SetsTokens(opts[i])
    ensures ApplyOpts(o, opts).config == o.config
    decreases |opts|
  {
    if opts != [] {
      CaseOptsKeepTokens(ApplyOpt(o, opts[0]), opts[1..]);
    }
  }

  /** Options that do not set the case sensitivity leave it alone. */
  lemma {:induction false} TokenOptsKeepCase(o: Options, opts: seq<ParserOpt>)
    requires forall i :: 0 <= i < |opts| ==> SetsTokens(opts[i])
    ensures ApplyOpts(o, opts).caseInsensitive == o.caseInsensitive
    decreases |opts|
  {
    if opts != [] {
      TokenOptsKeepCase(ApplyOpt(o, opts[0]), opts[1..]);
    }
  }

  /** The last `WithTokens` wins: the options are applied in order, each overwriting the mapping. */
  lemma LastTokensWin(o: Options, before: seq<ParserOpt>, config: Config, after: seq<ParserOpt>)
    requires forall i :: 0 <= i < |after| ==> !SetsTokens(after[i])
    ensures ApplyOpts(o, before + [WithTokens(config)] + after).config == config
  {
    ApplyOptsAppend(o, before + [WithTokens(config)], after);
    ApplyOptsAppend(o, before, [WithTokens(config)]);
    CaseOptsKeepTokens(ApplyOpts(o, before + [WithTokens(config)]), after);
  }

  /** The last `WithCaseSensitive` wins. */
  lemma LastCaseWins(o: Options, before: seq<ParserOpt>, caseSensitive: bool, after: seq<ParserOpt>)
    requires forall i :: 0 <= i < |after| ==> SetsTokens(after[i])
    ensures ApplyOpts(o, before + [WithCaseSensitive(caseSensitive)] + after).caseInsensitive == !caseSensitive
  {
    ApplyOptsAppend(o, before + [WithCaseSensitive(caseSensitive)], after);
    ApplyOptsAppend(o, before, [WithCaseSensitive(caseSensitive)]);
    TokenOptsKeepCase(ApplyOpts(o, before + [WithCaseSensitive(caseSensitive)]), after);
  }

  // ------------------------------------------------------ the collision check

  /** The five configured strings, in token order. */
  function Spellings(config: Config): seq<string> {
    [Get(config, And), Get(config, Or), Get(config, Not), Get(config, OpenParen), Get(config, CloseParen)]
  }

  /** A mapping that names exactly the five tokens of the grammar. */
  predicate FiveKeys(config: Config) {
    config.Keys == {And, Or, Not, OpenParen, CloseParen}
  }

  predicate AllDistinct(xs: seq<string>) {
    forall i, j :: 0 <= i < j < |xs| ==> xs[i] != xs[j]
  }

  function Elements(xs: seq<string>): (r: set<string>)
    ensures forall x :: x in r <==> x in xs
  {
    if xs == [] then {} else {xs[0]} + Elements(xs[1..])
  }

  lemma DistinctCons(xs: seq<string>)
    requires xs != []
    ensures AllDistinct(xs) <==> xs[0] !in xs[1..] && AllDistinct(xs[1..])
  {
    var tail := xs[1..];
    if xs[0] in tail {
      var k :| 0 <= k < |tail| && tail[k] == xs[0];
      assert xs[k + 1] == xs[0];
    }
    if !AllDistinct(tail) {
      var i, j :| 0 <= i < j < |tail| && tail[i] == tail[j];
      assert xs[i + 1] == xs[j + 1];
    }
    if xs[0] !in tail && AllDistinct(tail) {
      forall i, j | 0 <= i < j < |xs|
        ensures xs[i] != xs[j]
      {
        assert xs[j] == tail[j - 1];
        if i > 0 {
          assert xs[i] == tail[i - 1];
        }
      }
    }
  }

  /** A sequence has as many distinct elements as entries exactly when no entry repeats. */
  lemma {:induction false} ElementsCount(xs: seq<string>)
    ensures |Elements(xs)| <= |xs|
    ensures |Elements(xs)| == |xs| <==> AllDistinct(xs)
  {
    if xs != [] {
      var tail := xs[1..];
      ElementsCount(tail);
      DistinctCons(xs);
      if xs[0] in tail {
        assert Elements(xs) == Elements(tail);
      }
    }
  }

  /** The strings of a five-token mapping are its five spellings. */
  lemma ValuesOfFiveKeys(config: Config)
    requires FiveKeys(config)
    ensures config.Values == Elements(Spellings(config))
  {
    var s := Spellings(config);
    forall v | v in config.Values
      ensures v in s
    {
      var t :| t in config && config[t] == v;
      assert t == And || t == Or || t == Not || t == OpenParen || t == CloseParen;
    }
    forall v | v in s
      ensures v in config.Values
    {
      var k :| 0 <= k < 5 && s[k] == v;
      var t := [And, Or, Not, OpenParen, CloseParen][k];
      assert t in config && config[t] == v;
    }
  }

  lemma LoweredKeys(config: Config)
    ensures Lowered(config).Keys == config.Keys
    ensures forall t :: t in config ==> Get(Lowered(config), t) == ToLower(Get(config, t))
  {
  }

  /** The mapping `init` keeps: lower-cased when case-insensitive. */
  function Kept(o: Options): Config {
    if o.caseInsensitive then Lowered(o.config) else o.config
  }

  /** The keywords of a five-token mapping are its five (kept) spellings. */
  lemma KeptValues(o: Options)
    requires FiveKeys(o.config)
    ensures FiveKeys(Kept(o))
    ensures Kept(o).Values == Elements(Spellings(Kept(o)))
  {
    LoweredKeys(o.config);
    ValuesOfFiveKeys(Kept(o));
  }

  /**
   * `init` on a mapping of exactly the five tokens: accepted precisely when
   * both brackets are one byte long and the five strings, lower-cased first
   * when case-insensitive, are pairwise distinct.
   */
  lemma FiveTokenConfig(o: Options)
    requires FiveKeys(o.config)
    ensures Configure(o).Ok? <==>
      && Utf8Length(Get(o.config, OpenParen)) == 1
      && Utf8Length(Get(o.config, CloseParen)) == 1
      && AllDistinct(Spellings(Kept(o)))
  {
    KeptValues(o);
    var s := Spellings(Kept(o));
    ElementsCount(s);
    LoweredKeys(o.config);
    assert s[3] == Get(Kept(o), OpenParen) && s[4] == Get(Kept(o), CloseParen);
    assert Get(Kept(o), OpenParen) != Get(Kept(o), CloseParen) ==>
      Get(o.config, OpenParen) != Get(o.config, CloseParen);
  }

  /** What `init` accepts: the kept mapping, with its five spellings as the keywords. */
  lemma FiveTokenSyntax(o: Options)
    requires FiveKeys(o.config)
    ensures Configure(o).Ok? ==> Configure(o).value == Syntax(Kept(o), Elements(Spellings(Kept(o))), o.caseInsensitive)
  {
    KeptValues(o);
  }

  /** Every five-token mapping `init` accepts has five distinct keywords. */
  lemma ConfigureGivesDistinct(o: Options)
    requires FiveKeys(o.config) && Configure(o).Ok?
    ensures Distinct(Configure(o).value)
  {
    FiveTokenConfig(o);
    FiveTokenSyntax(o);
    var s := Spellings(Kept(o));
    assert s[0] != s[1] && s[0] != s[2] && s[0] != s[3] && s[0] != s[4];
    assert s[1] != s[2] && s[1] != s[3] && s[1] != s[4];
    assert s[2] != s[3] && s[2] != s[4] && s[3] != s[4];
  }

  // ------------------------------------------------------------- the examples

  /** A five-token mapping that passes every check of `init`. */
  lemma FiveAccepted(o: Options)
    requires FiveKeys(o.config)
    requires Utf8Length(Get(o.config, OpenParen)) == 1 && Utf8Length(Get(o.config, CloseParen)) == 1
    requires AllDistinct(Spellings(Kept(o)))
    ensures Configure(o) == Ast.Ok(Syntax(Kept(o), Elements(Spellings(Kept(o))), o.caseInsensitive))
  {
    FiveTokenConfig(o);
    FiveTokenSyntax(o);
  }

  lemma FiveDistinct(a: string, b: string, c: string, d: string, e: string)
    requires a != b && a != c && a != d && a != e
    requires b != c && b != d && b != e
    requires c != d && c != e && d != e
    ensures AllDistinct([a, b, c, d, e])
    ensures Elements([a, b, c, d, e]) == {a, b, c, d, e}
  {
  }

  lemma DefaultHasFiveKeys()
    ensures FiveKeys(DefaultConfig)
    ensures Spellings(DefaultConfig) == ["AND", "OR", "NOT", "(", ")"]
  {
  }

  lemma OneByteBrackets()
    ensures Utf8Length("(") == 1 && Utf8Length(")") == 1
  {
  }

  /** `NewParser()` with no options is the ANSI-SQL flavoured default. */
  lemma DefaultAccepted()
    ensures NewParserOf([]) == Ast.Ok(DefaultSyntax)
  {
    DefaultHasFiveKeys();
    OneByteBrackets();
    assert Kept(Defaults) == DefaultConfig;
    FiveDistinct("AND", "OR", "NOT", "(", ")");
    FiveAccepted(Defaults);
  }

  lemma LoweredDefaultSpellings()
    ensures FiveKeys(Lowered(DefaultConfig))
    ensures Spellings(Lowered(DefaultConfig)) == ["and", "or", "not", "(", ")"]
  {
    DefaultHasFiveKeys();
    LoweredKeys(DefaultConfig);
    assert ToLower("AND") == "and" && ToLower("OR") == "or" && ToLower("NOT") == "not";
    assert ToLower("(") == "(" && ToLower(")") == ")";
  }

  /** `WithCaseSensitive(false)`: the default strings, lower-cased, as keywords. */
  lemma CaseInsensitiveDefault()
    ensures NewParserOf([WithCaseSensitive(false)]).Ok?
    ensures NewParserOf([WithCaseSensitive(false)]).value.keywords == {"and", "or", "not", "(", ")"}
  {
    var o := Options(DefaultConfig, true);
    assert ApplyOpts(Defaults, [WithCaseSensitive(false)]) == o;
    DefaultHasFiveKeys();
    LoweredDefaultSpellings();
    OneByteBrackets();
    assert Kept(o) == Lowered(DefaultConfig);
    FiveDistinct("and", "or", "not", "(", ")");
    FiveAccepted(o);
  }

  /** The C-flavoured mapping of the package's tests is accepted. */
  lemma SymbolConfigAccepted()
    ensures NewParserOf([WithTokens(map[And := "&&", Or := "||", Not := "~", OpenParen := "(", CloseParen := ")"])]).Ok?
  {
    var config := map[And := "&&", Or := "||", Not := "~", OpenParen := "(", CloseParen := ")"];
    assert ApplyOpts(Defaults, [WithTokens(config)]) == Options(config, false);
    assert FiveKeys(config);
    var s := Spellings(config);
    assert s == ["&&", "||", "~", "(", ")"];
    assert AllDistinct(s) by {
      assert s[0] != s[1] && s[0] != s[2] && s[0] != s[3] && s[0] != s[4];
      assert s[1] != s[2] && s[1] != s[3] && s[1] != s[4];
      assert s[2] != s[3] && s[2] != s[4] && s[3] != s[4];
    }
    assert Utf8Length("(") == 1 && Utf8Length(")") == 1;
    FiveTokenConfig(Options(config, false));
  }

  /** AND and OR spelled alike: the collision check rejects the mapping. */
  lemma CollidingOperatorsRejected()
    ensures NewParserOf([WithTokens(map[And := "&&", Or := "&&", Not := "!", OpenParen := "[", CloseParen := "]"])]).Err?
  {
    var config := map[And := "&&", Or := "&&", Not := "!", OpenParen := "[", CloseParen := "]"];
    assert ApplyOpts(Defaults, [WithTokens(config)]) == Options(config, false);
    assert FiveKeys(config);
    var s := Spellings(config);
    assert s[0] == s[1];
    FiveTokenConfig(Options(config, false));
  }

  /** A two-byte bracket is rejected. */
  lemma LongBracketsRejected()
    ensures NewParserOf([WithTokens(map[And := "&&", Or := "||", Not := "!", OpenParen := "::", CloseParen := "::"])]).Err?
  {
    var config := map[And := "&&", Or := "||", Not := "!", OpenParen := "::", CloseParen := "::"];
    assert ApplyOpts(Defaults, [WithTokens(config)]) == Options(config, false);
    assert Utf8Length("::") == 2;
  }

  /** Both brackets spelled alike are rejected. */
  lemma EqualBracketsRejected()
    ensures NewParserOf([WithTokens(map[And := "&&", Or := "||", Not := "!", OpenParen := "_", CloseParen := "_"])]).Err?
  {
    var config := map[And := "&&", Or := "||", Not := "!", OpenParen := "_", CloseParen := "_"];
    assert ApplyOpts(Defaults, [WithTokens(config)]) == Options(config, false);
  }

  /** Spellings that differ only in case collide once lower-cased, and only then. */
  lemma CaseCollision()
    ensures NewParserOf([WithTokens(map[And := "AND", Or := "and", Not := "NOT", OpenParen := "(", CloseParen := ")"])]).Ok?
    ensures NewParserOf([WithTokens(map[And := "AND", Or := "and", Not := "NOT", OpenParen := "(", CloseParen := ")"]),
                         WithCaseSensitive(false)]).Err?
  {
    var config := map[And := "AND", Or := "and", Not := "NOT", OpenParen := "(", CloseParen := ")"];
    CaseSensitiveMixedAccepted(config);
    CaseInsensitiveMixedRejected(config);
  }

  lemma CaseSensitiveMixedAccepted(config: Config)
    requires config == map[And := "AND", Or := "and", Not := "NOT", OpenParen := "(", CloseParen := ")"]
    ensures NewParserOf([WithTokens(config)]).Ok?
  {
    var o := Options(config, false);
    assert ApplyOpts(Defaults, [WithTokens(config)]) == o;
    assert FiveKeys(config);
    OneByteBrackets();
    assert Spellings(Kept(o)) == ["AND", "and", "NOT", "(", ")"];
    FiveDistinct("AND", "and", "NOT", "(", ")");
    FiveAccepted(o);
  }

  lemma LowerAnd()
    ensures ToLower("AND") == "and" && ToLower("and") == "and"
  {
  }

  lemma CaseInsensitiveMixedRejected(config: Config)
    requires config == map[And := "AND", Or := "and", Not := "NOT", OpenParen := "(", CloseParen := ")"]
    ensures NewParserOf([WithTokens(config), WithCaseSensitive(false)]).Err?
  {
    var o := Options(config, true);
    var opts := [WithTokens(config), WithCaseSensitive(false)];
    assert ApplyOpts(Defaults, opts) == ApplyOpts(Options(config, false), [WithCaseSensitive(false)]);
    assert ApplyOpts(Defaults, opts) == o;
    assert FiveKeys(config);
    assert !AllDistinct(Spellings(Kept(o))) by {
      LoweredKeys(config);
      LowerAnd();
      assert Kept(o) == Lowered(config);
      assert Get(Kept(o), And) == ToLower("AND") && Get(Kept(o), Or) == ToLower("and");
      var l := Spellings(Kept(o));
      assert l[0] == l[1];
    }
    FiveTokenConfig(o);
  }

  /**
   * The collision check counts distinct strings over the whole mapping, so an
   * entry for a sixth token makes up for two operators spelled alike: the
   * mapping is accepted although AND and OR cannot be told apart.
   */
  lemma ExtraEntryHidesCollision()
    ensures var config := map[And := "&&", Or := "&&", Not := "!", OpenParen := "(", CloseParen := ")", 6 := "^"];
      && NewParserOf([WithTokens(config)]).Ok?
      && !Distinct(NewParserOf([WithTokens(config)]).value)
  {
    var config := map[And := "&&", Or := "&&", Not := "!", OpenParen := "(", CloseParen := ")", 6 := "^"];
    assert ApplyOpts(Defaults, [WithTokens(config)]) == Options(config, false);
    ExtraEntryAccepted(config);
    assert Get(config, And) == Get(config, Or);
  }

  lemma ExtraEntryAccepted(config: Config)
    requires config == map[And := "&&", Or := "&&", Not := "!", OpenParen := "(", CloseParen := ")", 6 := "^"]
    ensures Configure(Options(config, false)) == Ast.Ok(Syntax(config, config.Values, false))
  {
    OneByteBrackets();
    assert Get(config, OpenParen) == "(" && Get(config, CloseParen) == ")";
    ExtraEntryValues(config);
    FiveDistinct("&&", "!", "(", ")", "^");
    ElementsCount(["&&", "!", "(", ")", "^"]);
  }

  lemma ExtraEntryValues(config: Config)
    requires config == map[And := "&&", Or := "&&", Not := "!", OpenParen := "(", CloseParen := ")", 6 := "^"]
    ensures config.Values == {"&&", "!", "(", ")", "^"}
  {
    var values: set<string> := {"&&", "!", "(", ")", "^"};
    forall v | v in config.Values
      ensures v in values
    {
      var t :| t in config && config[t] == v;
    }
    forall v | v in values
      ensures v in config.Values
    {
      if v == "&&" { assert config[And] == v; }
      else if v == "!" { assert config[Not] == v; }
      else if v == "(" { assert config[OpenParen] == v; }
      else if v == ")" { assert config[CloseParen] == v; }
      else { assert config[6] == v; }
    }
    assert config.Values == values;
  }
}
