# go-parse core, modelled in Dafny

This project models the parsing core of the Go module `github.com/orkes-io/go-parse` and proves properties of the model. It covers three pieces.

- **The keyword trie** (`keyword_trie.go`): `Add`, `Match`, `Contains` and `Count`.
- **The generic machinery of `ast.go`**:
  - the error kinds;
  - `Unparsed.Parse`;
  - the `Interpreter.WithFallback` combinator;
  - the general-purpose `Tokenize` scanner.
- **The configurable boolean parser** (`bool/bool.go`):
  - option handling and the validation in `NewParser`/`init`;
  - its own tokenizer `tokenize`;
  - the cursor-based recursive descent (`Parse`, `match`, `parseExpr`, `parseAnd`, `parseOr`, `parseNot`, `parseParens`, `parseRest`) building `BinExpr`/`UnaryExpr`/`Unparsed` trees.

## Layout

| file | module | contents |
|---|---|---|
| `text.dfy` | `Text` | What the source borrows from Go's libraries: `unicode.IsSpace` (its exact code-point set), `strings.ToLower` on ASCII letters, `len` of a string as its UTF-8 byte count, whitespace removal, token concatenation. |
| `keyword_trie.dfy` | `KeywordTries` | The trie as a value datatype. Structural invariant `Valid`: `runes` and `children` are parallel, the runes are distinct, and `leaf` is `""` or the path. The keys of a trie and the longest-match specification. `Match`, `Contains`, `Count` (a method with the loop over the children), `AddRunes`/`Add` (methods keeping the rune-search loop). |
| `ast.dfy` | `Ast` | Error kinds (the sentinels `ErrConfig`, `ErrParse`, `ErrEval`, `ErrUnknownAST` of ast.go:14-23, as the datatype `Error`), results, `Unparsed.Parse`, `WithFallback`. The scanner as one non-recursive `Step` iterated by `Run`. The method `Tokenize` with its loop proved equal to that specification. Token kinds, no empty tokens, nothing lost. A token-at-a-time reference, `Lexemes`, proved equal to the scan: keywords are split out as `Match` finds them. The byte-skip finding below. |
| `bool_parser.dfy` | `BoolParser` | Tokens, tree datatype, options as data, `Configure` (what `init` decides). The tokenizer specification (`TokStep`/`TokRun`/`TokensOf`) and a token-at-a-time reference, `Lexemes`, proved equal to it. The grammar as functions `ExprOf`/`AndOf`/`OrOf`/`NotOf`/`ParensOf`/`RestOf` over the remaining tokens. The class `Parser` whose methods mutate `config`, `keywords`, `tokens` and `curr` and are proved equal to those functions. |
| `bool_tokens.dfy` | `BoolTokens` | Properties of `tokenize`: the tokens spell the input without whitespace; the shape of every token; case-insensitivity; how spaced words, blanks and brackets lex; the package's tokenizer examples and the token lists of the failing-parse examples. |
| `bool_grammar.dfy` | `BoolGrammar` | Properties of the descent: leaves, bracket balance, operand boundaries; fully bracketed renderings parse back to their tree; precedence and nesting; the package's rejected inputs. |
| `bool_config.dfy` | `BoolConfig` | Options applied in order; exactly which five-token mappings `init` accepts; the default and the tests' mappings; a mapping with an extra entry. |

Each imperative function of the source is a method whose loop carries its invariants and whose `ensures` ties the result or the new state to a specification function:

- `Tokenize` and `tokenize`;
- `Count`;
- `add`;
- the `init` loops (`LowerAll`, `ValuesOf`);
- `parseRest`.

The recursive-descent methods move the shared cursor `curr` and `modifies` only that field. Each ensures that its result is the tree of the matching grammar function and that, on success, `curr` advanced by exactly the tokens that function consumed. It also ensures that `curr` never decreases and never exceeds `|tokens|`. Their `decreases` clauses (`|tokens| - curr` and the grammar level) are the termination argument.

`peek` and `isKeyword` are the functions `Parser.Peek` and `Parser.IsKeyword`. `MatchStr` is the same function as `Match` on the runes of its argument, so `KeywordTries.Match` stands for both.

### Where the model follows the code rather than the documentation

- The grammar in the doc comment of `bool/bool.go` (lines 3-7) has `and -> or AND parens` and `or -> not OR parens`. The code instead recurses into `parseAnd` and `parseOr` for the right operand (lines 237 and 252). The package's tests agree with the code, and the model follows the code.
- The doc comment of `Tokenize` (ast.go:65) says the brackets must be single runes. `init` in `bool/bool.go` checks that each bracket string is one *byte* long (line 133), which agrees with its error message "must each have length 1" (line 134) in Go's sense of `len`. So a non-ASCII one-rune bracket is rejected. `Configure` uses the byte length, and `Text.Utf8LengthOne` states which strings pass.
- The error messages of `init` say the brackets "must each be distinct" (bool/bool.go:137) and report a "token collision" when two configured strings are identical (line 151). Beyond the bracket comparison, `init` only checks that the mapping's values number exactly five (lines 146-152).
  - When the mapping names exactly the five tokens, this is the same thing (`BoolConfig.FiveTokenConfig`).
  - A mapping with an entry for some other `Token` value can make up for two operators spelled alike, and is accepted (`BoolConfig.ExtraEntryHidesCollision`).
  - The model keeps the code's check.

## Model

| member | source | states |
|---|---|---|
| Text.IsSpace | ast.go:83 | the code points `unicode.IsSpace` accepts; no contract of its own, used by `Text.RemoveSpaceCons` and the scanners' spelling lemmas |
| Text.LowerChar | bool/bool.go:170-172 | ASCII capitals map to their lower-case letters; every other rune is unchanged; no capital remains |
| Text.ToLower | bool/bool.go:170-172 | lower-casing keeps the length and lower-cases rune by rune |
| Text.ToLowerIdempotent | bool/bool.go:139-145 | lower-casing an already lower-cased string changes nothing |
| Text.Utf8Width | bool/bool.go:133 | a rune takes 1 to 4 bytes, exactly 1 when it is ASCII |
| Text.Utf8Length | bool/bool.go:133 | the byte length of a string is at least its rune count |
| Text.Utf8LengthIsRuneCount | ast.go:95 | the byte length equals the rune count exactly when every rune is ASCII |
| Text.Utf8LengthOne | bool/bool.go:133 | `len(s) == 1` holds exactly of the one-rune ASCII strings |
| Text.NoSpaceAppend | ast.go:83-88 | whitespace-free strings stay whitespace-free when joined |
| Text.RemoveSpaceAppend | ast.go:83-88 | removing whitespace distributes over concatenation |
| Text.RemoveSpaceCons | ast.go:83-88 | removing whitespace from one rune and a rest |
| Text.RemoveSpaceOfNoSpace | ast.go:96-98 | a whitespace-free string is its own whitespace removal |
| Text.ConcatAppend | ast.go:70-73 | concatenating token lists distributes over appending them |
| KeywordTries.IndexOf | keyword_trie.go:42-43 | the rune search finds the first position holding the rune, or reports none |
| KeywordTries.ValidIsParallel | keyword_trie.go:3-7 | the trie invariant implies `runes` and `children` are parallel throughout |
| KeywordTries.Match | keyword_trie.go:38-52 | the lookup itself; no contract of its own: `KeywordTries.MatchIsLongest` and `KeywordTries.MatchFromRoot` state that it returns the longest added keyword starting the stream, or `""` |
| KeywordTries.KeysBelow | keyword_trie.go:3-7 | every key under a node is non-empty, extends the node's path, and is the leaf or lies under the child for its next rune |
| KeywordTries.LongestMatchUnique | keyword_trie.go:36-38 | the longest matching key of a stream is unique |
| KeywordTries.MatchIsLongest | keyword_trie.go:38-52 | at a node reached by `path`, `Match` returns the longest key that is a prefix of `path + stream`, or `""` if there is none |
| KeywordTries.MatchFromRoot | keyword_trie.go:36-52 | from the root, `Match` returns the longest added keyword that prefixes the stream, or `""` |
| KeywordTries.MatchIsPrefix | keyword_trie.go:38-52 | the match is a prefix of the stream |
| KeywordTries.MatchIsKey | keyword_trie.go:38-52 | the match is `""` or an added keyword |
| KeywordTries.Contains | keyword_trie.go:24-27 | true exactly for `""` and for added keywords |
| KeywordTries.Count | keyword_trie.go:9-22 | the loop sums the non-empty leaves of the trie |
| KeywordTries.LeafCountIsKeys | keyword_trie.go:9-22 | the number of non-empty leaves equals the number of distinct keywords |
| KeywordTries.CountIsKeywordCount | keyword_trie.go:9-22 | `Count` is the number of distinct keywords, and 0 for the empty trie |
| KeywordTries.SetLeaf | keyword_trie.go:60-62 | setting the leaf at the end of the keyword adds exactly that keyword and changes nothing if it was present |
| KeywordTries.ReplaceChild | keyword_trie.go:65-69 | descending into the existing child for the next rune adds the keyword there and keeps the invariant |
| KeywordTries.AppendChild | keyword_trie.go:71-74 | appending a fresh child for a new rune keeps the invariant and adds exactly the keyword |
| KeywordTries.FreshRuneNotKey | keyword_trie.go:64-71 | a keyword whose next rune has no child was not yet added |
| KeywordTries.AddRunes | keyword_trie.go:59-75 | `add` keeps the invariant, adds exactly `orig` (nothing for `""`), and leaves the trie unchanged when `orig` is present |
| KeywordTries.Add | keyword_trie.go:54-57 | `Add` keeps the invariant, the keys become the old keys plus the keyword, and re-adding is a no-op |
| Ast.Unparsed.Parse | ast.go:37-41 | always returns a parse error |
| Ast.WithFallback | ast.go:52-62 | the fallback's result when the primary reports an unknown node, otherwise the primary's (value, error) unchanged |
| Ast.WithFallbackUnknown | ast.go:54-62 | the combination reports an unknown node exactly when both interpreters do |
| Ast.WithFallbackAssociative | ast.go:54-62 | chaining fallbacks is associative |
| Ast.WithFallbackIdempotent | ast.go:54-62 | an interpreter as its own fallback changes nothing |
| Ast.UnknownIsNeutral | ast.go:54-62 | a primary that does not know the node hands it to the fallback unchanged |
| Ast.FallbackUnused | ast.go:54-62 | when the primary knows the node, the fallback does not matter |
| Ast.Flush | ast.go:70-73 | the `push` closure; no contract of its own: `Ast.FlushConcat` states what it emits |
| Ast.FlushConcat | ast.go:70-73 | `push` emits the pending run exactly, and only when it is non-empty |
| Ast.SkipLength | ast.go:95 | the skip is at least the match's rune count, and equal to it when counting runes |
| Ast.Step | ast.go:75-99 | each iteration moves the index forward |
| Ast.Run | ast.go:75-99 | the loop iterated until the index reaches or passes the end; no contract of its own: `Ast.RunSpells`, `Ast.RunTokenKinds`, `Ast.RunLexemes` state what it computes |
| Ast.Tokens | ast.go:64-104 | `Tokenize` with the corrected rune skip; no contract of its own: `Ast.TokensSpellInput` and `Ast.TokensAreLexemes` state what it returns |
| Ast.TokensAsWritten | ast.go:64-104 | `Tokenize` as written, with the byte skip of line 95; no contract of its own: `Ast.AsWrittenAgreesOnAscii` and `Ast.AsWrittenScanOfLessEqual` state where it agrees with and differs from `Ast.Tokens` |
| Ast.Tokenize | ast.go:64-104 | the scanning loop returns the tokens of the specification and, for a valid trie, the lexemes: keywords are split out as `Match` finds them |
| Ast.RunNonEmpty | ast.go:75-103 | no emitted token is empty |
| Ast.RunTokenKinds | ast.go:75-103 | every token is the open rune, the close rune, a keyword of the trie, or a run without whitespace or brackets |
| Ast.ConcatFlushed | ast.go:76-81 | flushing the run and then emitting a token spells the run followed by the token |
| Ast.SpellBracket | ast.go:76-81 | a bracket flushes the run and is emitted alone, losing nothing |
| Ast.SpellSpace | ast.go:83-88 | whitespace only flushes the run |
| Ast.SpellLiteral | ast.go:96-98 | any other rune extends the run |
| Ast.SpellKeyword | ast.go:89-95 | a matched keyword flushes the run and is emitted whole |
| Ast.StepSpells | ast.go:75-99 | one iteration preserves "tokens + run + unread input without whitespace" |
| Ast.RunSpells | ast.go:75-103 | the loop preserves that spelling to the end |
| Ast.TokensSpellInput | ast.go:64-104 | the tokens are non-empty, of the four kinds, and concatenate to the input with whitespace removed |
| Ast.LiteralLength | ast.go:83-98 | the literal run at the head of the input is the longest prefix of positions that are neither a bracket nor whitespace and where `Match` finds no keyword |
| Ast.Lexemes | ast.go:64-104 | the tokens a whole token at a time (bracket; whitespace separates; the longest keyword where one starts; otherwise the maximal literal run); no contract of its own: the reference that `Ast.TokensAreLexemes` ties the loop to |
| Ast.LexemesAfterRun | ast.go:96-98 | where a literal run ends, it is one lexeme followed by the lexemes of the rest |
| Ast.LexemeAt | ast.go:76-95 | at a position that extends no literal run, one iteration emits the pending run and then exactly the next lexeme, and resumes where that lexeme ends |
| Ast.RunLexemes | ast.go:75-103 | a loop state whose pending run is a stretch of literal positions finishes with the lexemes of the input from that stretch on |
| Ast.RunLexemesExtend | ast.go:96-98 | at a literal position the rune joins the pending run, and the outcome is unchanged |
| Ast.RunLexemesAtBreak | ast.go:76-95 | at any other position the pending run is flushed as one lexeme and the next lexeme follows |
| Ast.TokensAreLexemes | ast.go:64-104 | for every valid trie and input, the tokens are the lexemes: each keyword token is the longest keyword at its position, and no keyword starts inside a literal token |
| Ast.EmptyInputHasNoTokens | ast.go:66-104 | the empty input has no tokens |
| Ast.GreaterEqualMatches | keyword_trie.go:38-52 | with the keys ">" and ">=", `Match` finds nothing at `x`, ">=" (not ">") at `>`, and nothing at `y` |
| Ast.GreaterEqualTail | ast.go:89-98 | ">= y" lexes to ">=" and "y" |
| Ast.GreaterEqualSplits | comp/comp_test.go:20 | for every valid trie holding exactly ">" and ">=", "x >= y" tokenizes to `["x", ">=", "y"]` |
| Ast.AsWrittenAgreesOnAscii | ast.go:95 | with ASCII keywords, skipping by bytes and by runes scan alike |
| Ast.LessEqualTrieHoldsOneKeyword | keyword_trie.go:3-7 | the constant trie is valid and "≤" is its only key, so by `KeywordTries.MatchFromRoot` every valid trie with that one key matches as it does |
| Ast.LessEqualMatches | keyword_trie.go:38-52 | on "a≤b" the match is `""` at `a`, "≤" at `≤`, and `""` at `b` |
| Ast.AsWrittenScanOfLessEqual | ast.go:89-95 | skipping by bytes, "a≤b" scans to `["a", "≤"]`: the `b` is lost |
| Ast.ScanOfLessEqual | ast.go:89-95 | skipping by runes, "a≤b" scans to `["a", "≤", "b"]` |
| BoolParser.Get | bool/bool.go:133 | a map lookup that reads a missing token as `""`, as a Go map does; no contract of its own |
| BoolParser.ApplyOpt | bool/bool.go:97-109 | one option overwrites the mapping or the case setting; no contract of its own: `BoolConfig.CaseOptsKeepTokens` and `BoolConfig.TokenOptsKeepCase` state what it leaves alone |
| BoolParser.ApplyOpts | bool/bool.go:123-125 | the options applied in order; no contract of its own: `BoolConfig.ApplyOptsAppend`, `BoolConfig.LastTokensWin`, `BoolConfig.LastCaseWins` |
| BoolParser.Lowered | bool/bool.go:139-145 | every spelling lower-cased; no contract of its own: `BoolConfig.LoweredKeys` |
| BoolParser.Configure | bool/bool.go:132-154 | `init` fails only with a configuration error; on success it keeps the case setting and the keywords are exactly the mapping's five values |
| BoolParser.NewParserOf | bool/bool.go:113-130 | the defaults, then the options, then `init`; no contract of its own: `BoolConfig.FiveTokenConfig` says which option lists it accepts |
| BoolParser.IsParen | bool/bool.go:178-179 | the rune spells one of the two configured brackets; no contract of its own |
| BoolParser.TokStep | bool/bool.go:178-199 | one iteration of `tokenize`; no contract of its own: `BoolTokens.TokStepSpells` and `BoolTokens.TokStepShaped` |
| BoolParser.TokRun | bool/bool.go:177-200 | the `tokenize` loop; no contract of its own: `BoolTokens.TokRunSpells` and `BoolTokens.TokRunShaped` |
| BoolParser.TokensOf | bool/bool.go:169-205 | `tokenize`; no contract of its own: `BoolParser.TokensAreLexemes`, `BoolTokens.TokensSpellInput` and `BoolTokens.TokensAreShaped` |
| BoolParser.LexemeLength | bool/bool.go:186-199 | where the run that starts the text ends: no whitespace or bracket inside it, no shorter prefix a keyword, and it stops before whitespace or a bracket, at the end, or where it spells a keyword |
| BoolParser.Lexemes | bool/bool.go:169-205 | the tokens a whole token at a time (a bracket alone; whitespace dropped; otherwise a run up to the next whitespace or bracket, cut as soon as it spells a keyword); no contract of its own: the reference that `BoolParser.TokensAreLexemes` ties `tokenize` to |
| BoolParser.LexemeAtBreak | bool/bool.go:178-191 | a pending run followed by whitespace, a bracket or the end is one lexeme, followed by the lexemes from there |
| BoolParser.LexemeAtKeyword | bool/bool.go:193-198 | a pending run completed into a keyword by the next rune is one lexeme |
| BoolParser.PendingExtend | bool/bool.go:193-194 | a rune that neither breaks nor completes a keyword leaves the run pending |
| BoolParser.TokRunLexemes | bool/bool.go:177-204 | from any index, with a pending run that is a prefix of one lexeme, the loop and the final flush emit what was emitted so far and then the lexemes from the run's start |
| BoolParser.TokRunLexemesAtBreak | bool/bool.go:178-191 | at whitespace or a bracket the pending run is flushed and the lexemes from that rune follow |
| BoolParser.TokRunLexemesAtKeyword | bool/bool.go:193-198 | a run completed into a keyword is emitted at once, and the lexemes after it follow |
| BoolParser.TokRunLexemesExtend | bool/bool.go:193-194 | a rune that extends the pending run leaves the outcome unchanged |
| BoolParser.BreakStep | bool/bool.go:178-191 | one iteration at whitespace or a bracket flushes the run and adds the bracket as a token |
| BoolParser.BreakLexeme | bool/bool.go:178-191 | whitespace contributes no lexeme and a bracket exactly itself |
| BoolParser.RunStep | bool/bool.go:193-199 | one iteration at any other rune extends the run and emits it when it spells a keyword |
| BoolParser.TokensAreLexemes | bool/bool.go:169-205 | for every syntax and input, `tokenize` returns exactly the lexemes of the (lower-cased) input: the token boundaries are fixed, not only the spelling and shape |
| BoolParser.Starts | bool/bool.go:207-216 | the next token spells the configured string; no contract of its own: `BoolParser.Parser.Match` is proved against it |
| BoolParser.RestLength | bool/bool.go:289-292 | the loop stops at the first keyword or at the end |
| BoolParser.RestOf | bool/bool.go:287-297 | `parseRest` consumes at least one token or fails with a parse error |
| BoolParser.ExprOf | bool/bool.go:227-229 | a parse consumes between 1 and all remaining tokens, or fails with a parse error |
| BoolParser.AndOf | bool/bool.go:231-244 | likewise for `parseAnd` |
| BoolParser.OrOf | bool/bool.go:246-259 | likewise for `parseOr` |
| BoolParser.NotOf | bool/bool.go:261-270 | likewise for `parseNot` |
| BoolParser.ParensOf | bool/bool.go:272-285 | likewise for `parseParens` |
| BoolParser.ParseTokens | bool/bool.go:159-166 | a parse of the whole token list; no contract of its own: `BoolGrammar.ParseNeedsOperandsAndBalance` and `BoolGrammar.ParseRender` |
| BoolParser.ParseOf | bool/bool.go:156-167 | tokenize, then parse the whole token list; no contract of its own: `BoolParser.Parser.Parse` is proved against it |
| BoolParser.Parser.constructor | bool/bool.go:113-121 | a new parser holds the ANSI-SQL defaults, case-sensitive, with no tokens |
| BoolParser.Parser.Apply | bool/bool.go:97-109 | an option overwrites the mapping or the case setting |
| BoolParser.Parser.NewParser | bool/bool.go:111-130 | applies the options in order, then `init`; nil and the error, or a parser configured as `NewParserOf` decides |
| BoolParser.Parser.Init | bool/bool.go:132-154 | the configuration error, or the lower-cased mapping and its values as keywords |
| BoolParser.LowerAll | bool/bool.go:139-145 | the loop builds the lower-cased mapping |
| BoolParser.ValuesOf | bool/bool.go:146-149 | the loop collects exactly the mapping's values |
| BoolParser.Parser.Parse | bool/bool.go:156-167 | stores the tokens of the input and returns the parse of all of them, with a parse error for leftover tokens; on success the cursor is at the end of the tokens |
| BoolParser.Parser.Tokenize | bool/bool.go:169-205 | the loop returns the tokens of the specification, and these are the lexemes of the (lower-cased) input |
| BoolParser.Parser.Match | bool/bool.go:207-216 | true and advances exactly when the current token spells the given token; false at the end |
| BoolParser.Parser.Peek | bool/bool.go:218-220 | the current token; no contract of its own: `BoolParser.Parser.ParseRest` is proved through it |
| BoolParser.Parser.IsKeyword | bool/bool.go:222-225 | membership in the keyword set; no contract of its own: `BoolParser.Parser.Tokenize` and `BoolParser.Parser.ParseRest` are proved through it |
| BoolParser.Parser.ParseExpr | bool/bool.go:227-229 | the tree of `ExprOf`, cursor advanced by what it consumed, never backwards, never past the end |
| BoolParser.Parser.ParseAnd | bool/bool.go:231-244 | the tree of `AndOf`; same cursor guarantees |
| BoolParser.Parser.ParseOr | bool/bool.go:246-259 | the tree of `OrOf`; same cursor guarantees |
| BoolParser.Parser.ParseNot | bool/bool.go:261-270 | the tree of `NotOf`; same cursor guarantees |
| BoolParser.Parser.ParseParens | bool/bool.go:272-285 | the tree of `ParensOf`; same cursor guarantees |
| BoolParser.Parser.ParseRest | bool/bool.go:287-297 | the loop collects the non-keywords up to the next keyword; the tree of `RestOf` |
| BoolParser.RestLengthIsFirstKeyword | bool/bool.go:289-292 | the run length is the position of the first keyword |
| BoolTokens.TokStepSpells | bool/bool.go:177-199 | one iteration adds the rune to the spelling unless it is whitespace |
| BoolTokens.TokRunSpells | bool/bool.go:177-200 | the loop preserves that spelling |
| BoolTokens.TokensSpellInput | bool/bool.go:169-205 | the tokens concatenate to the (lower-cased) input with whitespace removed |
| BoolTokens.FlushShaped | bool/bool.go:180-191 | flushing a pending run keeps every token well shaped |
| BoolTokens.ExtendRun | bool/bool.go:194-195 | extending a run that held no keyword keeps it free of whitespace and brackets |
| BoolTokens.TokStepShaped | bool/bool.go:177-199 | one iteration keeps the tokens well shaped |
| BoolTokens.TokRunShaped | bool/bool.go:177-200 | the loop keeps the tokens well shaped |
| BoolTokens.TokensAreShaped | bool/bool.go:169-205 | every token is non-empty and is either one bracket rune or a run without whitespace or brackets, no proper prefix of which is a keyword |
| BoolTokens.CaseInsensitiveIgnoresCase | bool/bool.go:170-172 | when case-insensitive, an input and its lower-cased form tokenize and parse alike |
| BoolTokens.EmptyInputHasNoTokens | bool/bool_test.go:16-18 | the empty input has no tokens |
| BoolTokens.KeywordSuffixStaysInRun | bool/bool_test.go:69-71 | "xyzNOT" is one token |
| BoolTokens.KeywordPrefixIsCut | bool/bool.go:194-199 | "ORDER" splits into "OR" and "DER", since the run is emitted as soon as it spells a keyword |
| BoolTokens.BracketsStandAlone | bool/bool_test.go:25 | "NOT(a)" tokenizes to NOT, (, a, ) |
| BoolTokens.WordLexeme | bool/bool.go:193-199 | a whitespace- and bracket-free word with no keyword as a proper prefix is one lexeme when whitespace, a bracket or the end follows it |
| BoolTokens.SpaceLexeme | bool/bool.go:186-192 | whitespace that is not a bracket adds no lexeme |
| BoolTokens.BracketLexeme | bool/bool.go:178-185 | a bracket is a lexeme of its own |
| BoolTokens.LexemesAppend | bool/bool.go:177-204 | lexing distributes over a text cut just before whitespace or a bracket |
| BoolTokens.SpacedLexemes | bool/bool.go:186-199 | words joined by single spaces lex back to the words |
| BoolTokens.BlankLexemes | bool/bool.go:186-192 | whitespace alone has no lexemes |
| BoolTokens.FreshStart | bool/bool.go:193-198 | no prefix of a word is a keyword when no keyword starts with its first rune |
| BoolTokens.DefaultParens | bool/bool.go:114-120 | the default brackets are `(` and `)` |
| BoolTokens.DefaultSpelled | bool/bool.go:114-120 | the default syntax has the default brackets and keywords, case kept |
| BoolTokens.DefaultOperatorsWhole | bool/bool.go:114-120 | no proper prefix of AND, OR or NOT is a default keyword |
| BoolTokens.SpacedTokens | bool/bool.go:169-205 | words joined by single spaces tokenize back into the words |
| BoolTokens.SpacedBlankTokens | bool/bool.go:169-205 | trailing whitespace after such words adds no token |
| BoolTokens.WordsAroundAnd | bool/bool_test.go:19 | with the default spelling, "abc AND def" is the tokens abc, AND, def |
| BoolTokens.WordsAroundAndText | bool/bool_test.go:19 | abc, AND and def joined by spaces is "abc AND def" |
| BoolTokens.ComparisonWords | bool/bool_test.go:22 | "isToken = 123 AND x > 13" is the tokens isToken, =, 123, AND, x, >, 13 |
| BoolTokens.ComparisonPlain | bool/bool_test.go:22 | each of those words is lexed whole with the default spelling |
| BoolTokens.ComparisonText | bool/bool_test.go:22 | those words joined by spaces are the test's input |
| BoolTokens.TrailingAndTokens | bool/bool_test.go:102 | "abc AND" is the tokens abc, AND |
| BoolTokens.TrailingOrTokens | bool/bool_test.go:103 | "abc OR" followed by blanks, a tab and a newline is the tokens abc, OR |
| BoolTokens.LoneNotTokens | bool/bool_test.go:104 | "NOT" is the one token NOT |
| BoolTokens.LeadingAndTokens | bool/bool_test.go:108 | "AND 7" is the tokens AND, 7 |
| BoolTokens.SpaceBracketLexemes | bool/bool.go:178-192 | a space then an opening bracket: the space is dropped and the bracket kept |
| BoolTokens.WordBracketWords | bool/bool.go:177-204 | a word, a space, an opening bracket and spaced words lex to the word, the bracket and the words |
| BoolTokens.NotBracketTokens | bool/bool.go:169-205 | "NOT (" followed by spaced words tokenizes to NOT, ( and the words |
| BoolTokens.UnclosedWords | bool/bool_test.go:105 | NOT, a, AND, b and c are each lexed whole with the default spelling |
| BoolTokens.UnclosedTail | bool/bool_test.go:105 | a, AND, b, AND, c joined by spaces is "a AND b AND c" |
| BoolTokens.UnclosedText | bool/bool_test.go:105 | the text of the test is that word, a space, a bracket and the spaced words |
| BoolTokens.UnclosedBracketTokens | bool/bool_test.go:105 | "NOT (a AND b AND c" is the tokens NOT, (, a, AND, b, AND, c |
| BoolTokens.Repeated | bool/bool_test.go:106 | a value repeated `k` times: `k` entries, each that value |
| BoolTokens.BracketsLexemes | bool/bool.go:178-185 | a row of the same bracket is that many one-bracket lexemes |
| BoolTokens.NestedTokens | bool/bool.go:169-205 | spaced words inside rows of opening and closing brackets tokenize to the brackets and the words |
| BoolTokens.NestingText | bool/bool_test.go:106 | "((((((x > 5))))" is six opening brackets, the spaced words x, >, 5, and four closing brackets |
| BoolTokens.UnbalancedNestingTokens | bool/bool_test.go:106 | "((((((x > 5))))" is six ( tokens, x, >, 5 and four ) tokens |
| BoolGrammar.OperatorJoin | bool/bool.go:236-241 | joining two operands by AND or OR concatenates their leaves and keeps the balance |
| BoolGrammar.NegationPrefix | bool/bool.go:262-267 | NOT in front keeps the leaves and the balance |
| BoolGrammar.BracketPair | bool/bool.go:274-282 | a bracket pair keeps the leaves and the balance |
| BoolGrammar.RestYields | bool/bool.go:287-297 | `parseRest` yields a non-empty run of non-keywords as its one leaf |
| BoolGrammar.ExprYields | bool/bool.go:227-229 | a successful parse consumes a prefix whose non-keywords are the leaves in order, whose brackets balance, and which begins and ends with an operand |
| BoolGrammar.AndYields | bool/bool.go:231-244 | likewise for `parseAnd` |
| BoolGrammar.OrYields | bool/bool.go:246-259 | likewise for `parseOr` |
| BoolGrammar.NotYields | bool/bool.go:261-270 | likewise for `parseNot` |
| BoolGrammar.ParensYields | bool/bool.go:272-285 | likewise for `parseParens` |
| BoolGrammar.ParseNeedsOperandsAndBalance | bool/bool.go:156-167 | an accepted token list is non-empty, starts and ends with an operand, has balanced brackets, and its leaves are its non-keywords |
| BoolGrammar.NotOfPlain | bool/bool.go:261-270 | without NOT, `parseNot` is `parseParens` |
| BoolGrammar.OrOfPlain | bool/bool.go:246-259 | without a following OR, `parseOr` is `parseNot` |
| BoolGrammar.AndOfPlain | bool/bool.go:231-244 | without a following AND, `parseAnd` is `parseOr` |
| BoolGrammar.OrOfJoin | bool/bool.go:246-259 | an operand, OR, then an `or` parse to their disjunction |
| BoolGrammar.AndOfJoin | bool/bool.go:231-244 | an operand, AND, then an `and` parse to their conjunction |
| BoolGrammar.ParensOfJoin | bool/bool.go:272-285 | an open bracket, an expression and a close bracket parse as a `parens` to that expression |
| BoolGrammar.WrapParses | bool/bool.go:272-285 | a bracketed rendering parses as a `parens` to its tree |
| BoolGrammar.WrapParsesAsOr | bool/bool.go:246-259 | and as an `or` when OR does not follow |
| BoolGrammar.WrapParsesAsAnd | bool/bool.go:231-244 | and as an `and` when neither OR nor AND follows |
| BoolGrammar.LeafParses | bool/bool.go:287-297 | a run of non-keywords parses to its leaf |
| BoolGrammar.ConjunctionParses | bool/bool.go:231-244 | a rendered conjunction parses back to itself |
| BoolGrammar.ConjunctionOperands | bool/bool.go:231-244 | in a rendered conjunction the left operand parses as an `or`, AND follows it, and the right operand parses as an `and` |
| BoolGrammar.DisjunctionParses | bool/bool.go:246-259 | a rendered disjunction parses back to itself |
| BoolGrammar.DisjunctionOperands | bool/bool.go:246-259 | in a rendered disjunction the left operand parses as a `not`, OR follows it, and the right operand parses as an `or` |
| BoolGrammar.NegationParses | bool/bool.go:261-270 | a rendered negation parses back to itself |
| BoolGrammar.RenderParses | bool/bool.go:227-297 | any well-formed tree, rendered with bracketed operands and followed by nothing or a close bracket, parses back to itself |
| BoolGrammar.ParseRender | bool/bool.go:156-167 | `Parse` of the rendering of a well-formed tree returns that tree |
| BoolGrammar.SingleWord | bool/bool.go:287-297 | a non-keyword followed by a keyword or by nothing is a one-token operand |
| BoolGrammar.OrBindsTighterThanAnd | bool/bool_test.go:72-75 | `x OR y AND z OR w` is `AND(OR(x, y), OR(z, w))`, for any distinct spellings and non-keyword operands |
| BoolGrammar.AndChainsNestRight | bool/bool_test.go:80-83 | `x AND y OR z AND w` is `AND(x, AND(OR(y, z), w))` |
| BoolGrammar.TrailingAndRejected | bool/bool_test.go:102 | "abc AND" is a parse error with the default parser, and so are its tokens |
| BoolGrammar.TrailingOrRejected | bool/bool_test.go:103 | "abc OR" followed by blanks, a tab and a newline is a parse error, and so are its tokens |
| BoolGrammar.LoneNotRejected | bool/bool_test.go:104 | "NOT" is a parse error, and so is its token |
| BoolGrammar.UnclosedBracketRejected | bool/bool_test.go:105 | "NOT (a AND b AND c" is a parse error, and so are its tokens |
| BoolGrammar.UnbalancedNestingRejected | bool/bool_test.go:106 | six open brackets around `x > 5` with four closing are a parse error, for any spellings |
| BoolGrammar.UnbalancedNestingTextRejected | bool/bool_test.go:106 | the text "((((((x > 5))))" is a parse error for every syntax with the default brackets and keywords |
| BoolGrammar.RejectedTokensRejectText | bool/bool.go:156-167 | a text whose tokens do not parse does not parse |
| BoolGrammar.OccurrencesOfCopies | bool/bool_test.go:106 | a list of copies of a token holds it once per entry |
| BoolGrammar.OccurrencesOfOthers | bool/bool_test.go:106 | a list without a token holds it zero times |
| BoolGrammar.EmptyBracketsRejected | bool/bool_test.go:107 | "()" is a parse error |
| BoolGrammar.LeadingAndRejected | bool/bool_test.go:108 | "AND 7" is a parse error, and so are its tokens |
| BoolGrammar.NegationOfBracketedWord | bool/bool.go:261-285 | "NOT(a)" parses to `NOT(a)` |
| BoolConfig.ApplyOptsAppend | bool/bool.go:122-124 | applying two lists of options is applying their concatenation |
| BoolConfig.CaseOptsKeepTokens | bool/bool.go:104-109 | case options leave the mapping alone |
| BoolConfig.TokenOptsKeepCase | bool/bool.go:97-102 | token options leave the case setting alone |
| BoolConfig.LastTokensWin | bool/bool.go:97-102 | the last `WithTokens` decides the mapping |
| BoolConfig.LastCaseWins | bool/bool.go:104-109 | the last `WithCaseSensitive` decides the case setting |
| BoolConfig.DistinctCons | bool/bool.go:146-152 | a list has no repeats exactly when its head is not in its tail and its tail has none |
| BoolConfig.ElementsCount | bool/bool.go:146-152 | a list of strings has as many distinct values as entries exactly when none repeats |
| BoolConfig.ValuesOfFiveKeys | bool/bool.go:146-149 | the values of a five-token mapping are its five spellings |
| BoolConfig.LoweredKeys | bool/bool.go:139-145 | lower-casing keeps the tokens and lower-cases each spelling |
| BoolConfig.KeptValues | bool/bool.go:139-149 | the mapping `init` keeps names the same five tokens, and its values are its spellings |
| BoolConfig.FiveTokenConfig | bool/bool.go:132-154 | a five-token mapping is accepted exactly when both brackets are one byte and the five (lower-cased when case-insensitive) strings are pairwise distinct |
| BoolConfig.FiveTokenSyntax | bool/bool.go:132-154 | the accepted syntax keeps the (lower-cased) mapping, with its five spellings as keywords |
| BoolConfig.ConfigureGivesDistinct | bool/bool.go:146-152 | every accepted five-token mapping has five distinct keywords |
| BoolConfig.FiveAccepted | bool/bool.go:132-154 | a five-token mapping that passes every check yields its kept syntax |
| BoolConfig.FiveDistinct | bool/bool.go:146-152 | five pairwise different strings form a five-element set |
| BoolConfig.DefaultHasFiveKeys | bool/bool.go:113-121 | the default maps the five tokens to AND, OR, NOT, (, ) |
| BoolConfig.OneByteBrackets | bool/bool.go:133 | the default brackets are one byte each |
| BoolConfig.DefaultAccepted | bool/bool.go:111-130 | `NewParser()` succeeds with the default syntax |
| BoolConfig.LoweredDefaultSpellings | bool/bool.go:139-145 | the lower-cased default spells and, or, not, (, ) |
| BoolConfig.CaseInsensitiveDefault | bool/bool_test.go:164-166 | `WithCaseSensitive(false)` succeeds with the lower-cased keywords |
| BoolConfig.SymbolConfigAccepted | bool/bool_test.go:120-128 | the `&&`/`\|\|`/`~` mapping of the tests is accepted |
| BoolConfig.CollidingOperatorsRejected | bool/bool_test.go:152 | AND and OR both `&&` is a configuration error |
| BoolConfig.LongBracketsRejected | bool/bool_test.go:153 | `::` brackets are a configuration error |
| BoolConfig.EqualBracketsRejected | bool/bool_test.go:154 | equal `_` brackets are a configuration error |
| BoolConfig.CaseCollision | bool/bool.go:139-152 | AND and `and` are accepted case-sensitively and rejected case-insensitively |
| BoolConfig.CaseSensitiveMixedAccepted | bool/bool.go:146-152 | the mixed-case mapping is accepted when case-sensitive |
| BoolConfig.LowerAnd | bool/bool.go:139-145 | AND and `and` lower-case alike |
| BoolConfig.CaseInsensitiveMixedRejected | bool/bool.go:139-152 | the mixed-case mapping collides once lower-cased |
| BoolConfig.ExtraEntryHidesCollision | bool/bool.go:146-152 | a sixth entry makes AND = OR = `&&` pass the collision check, leaving the keywords not distinct |
| BoolConfig.ExtraEntryAccepted | bool/bool.go:132-154 | that mapping passes every check of `init` |
| BoolConfig.ExtraEntryValues | bool/bool.go:146-149 | its values are five distinct strings |

## Left out

- In-place mutation and aliasing of trie nodes. The trie is a value, and `Add`/`add` return the updated trie. Sharing a sub-trie between two parents, and mutation seen through another pointer, are not modelled.
- Aliasing of the mapping passed to `WithTokens`. The option stores the caller's map itself (bool/bool.go:100), and a case-sensitive `init` keeps it, so a later change to that map by the caller would be seen by the parser. The model copies the mapping as a value.
- The nil receiver of `Count` (keyword_trie.go:11-13). A Dafny value is never nil; the empty trie counts 0 (`KeywordTries.CountIsKeywordCount`).
- The preconditions `Valid`/`Parallel` on the trie operations. Every trie built by `Add` from the empty trie satisfies them. A trie assembled by hand with mismatched `runes`/`children` is outside the model.
- The `fmt.Println` debug print in `tokenize` (bool/bool.go:173): console output with no effect on the result.
- Error message text and `fmt.Errorf` wrapping. Errors are the kinds `ConfigError`, `ParseError`, `EvalError` and `UnknownAst`; `errors.Is` is a comparison of kinds.
- `strings.ToLower` is modelled on ASCII letters only. Other letters are left unchanged, which is where Unicode case mapping differs.
- The functional options `WithTokens`/`WithCaseSensitive` are closures in the source and data (`ParserOpt`) in the model, applied by `ApplyOpt`.
- `Op.String` (bool/bool.go:60-71): formatting only.
- The node types' `Parse(Parser) error` resolution, `Eval`, the interpreters, and the `bools` and `comp` packages. They are not part of this model.
- Map iteration order in `init`. The values are collected as a set and lower-casing is per entry, so the order does not affect the outcome.
- Go's `int` overflow of the cursor and of `Count`: integers are unbounded here.
- BoolGrammar.OrBindsTighterThanAnd: stated on the token list, for any syntax with distinct keywords and any non-keyword operands, rather than on the input string.
- BoolGrammar.AndChainsNestRight: stated on the token list, for any syntax with distinct keywords and any non-keyword operands, rather than on the input string.
- BoolGrammar.UnbalancedNestingRejected: stated on the token list, for any syntax with distinct keywords and any non-keyword operands; `BoolGrammar.UnbalancedNestingTextRejected` states it on the text for the default spelling.

## Findings

| source | as written | input that shows it | evidently intended | confidence | as-written member | corrected member |
|---|---|---|---|---|---|---|
| bool/bool.go:146-152 | `init` accepts when the mapping's values number five, counting an entry for any further `Token` value | `WithTokens` with AND = OR = `&&`, NOT = `!`, brackets `(` and `)`, and `Token(6)` = `^`: five distinct values, so accepted, though AND and OR collide | reject whenever two of the configured tokens are identical, as the message on line 151 says | medium, not executed | BoolConfig.ExtraEntryHidesCollision | BoolConfig.ConfigureGivesDistinct |
| ast.go:95 | after a keyword match, the rune index `i` advances by `len(matched) - 1`, the keyword's length in bytes | keyword "≤" (3 bytes, 1 rune), input "a≤b": the index jumps past `b`, giving `["a", "≤"]` | advance by the keyword's rune count, giving `["a", "≤", "b"]` | not executed | Ast.AsWrittenScanOfLessEqual | Ast.ScanOfLessEqual |

The model's `Ast.Tokenize` and `Ast.Tokens` advance by the rune count. `Ast.TokensAsWritten` keeps the byte skip. `Ast.AsWrittenAgreesOnAscii` shows the two agree whenever every keyword is ASCII.

`BoolParser.Configure` keeps the check as written. For mappings that name exactly the five tokens, `BoolConfig.FiveTokenConfig` proves the check is the intended one (both brackets one byte and the five spellings pairwise distinct), and `BoolConfig.ConfigureGivesDistinct` that every such accepted mapping yields five distinct keywords.
