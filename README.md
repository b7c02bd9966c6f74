# flogic: a verified model of the formula parser

This project models the core of `flogic`, a small Python library for classical
propositional logic. The model has two parts.

- **The formula data model.** There are six immutable node kinds: `Atomic`, `Not`, `And`, `Or`,
  `Implies` and `Iff`. The model includes:
  - the composition helpers `~`, `&`, `|`, `implies` and `iff`;
  - interpretation against a partial assignment, evaluating the left operand first with
    short-circuiting, and failing with the name of a missing variable;
  - canonical rendering;
  - the `atomics` helper.

  The implementing file is not part of this model. Its behaviour comes from
  `tests/test_core.py`.
- **The lexer and the LL(1) recursive-descent parser** in `classical_logic/parsing.py`.
  It covers `_lex`, `_lex_accept`, the `_Parser` class, `prop` and `props`.

The lexer is lazy: a token is produced only when the parser asks for one. It is modelled as a cursor.
`Lexer.Lex(text, pos)` is one resumption of the generator, with three outcomes:
- it skips whitespace and then produces one token and the position after it;
- it reports that only whitespace remained;
- it fails with `UnexpectedChar(c)` or `UnexpectedEnd`.

The grammar is written as pure functions over a `Grammar.Cursor` (current token, resume position).
The imperative `Parsing.Parser` class holds that state in fields. Its rule methods update the fields
and use the same loops as the Python code. Each method is proved to return exactly what its grammar
function computes, formula or error. On success the object is also proved to stand at the cursor that
function reaches. After an error the fields are left unspecified, as the Python object is discarded
once the exception propagates.

The general theorems are proved on the grammar functions:
- the canonical rendering round-trips through `prop`;
- precedence and associativity agree with a reference grouping table;
- tokens after the first formula are never checked, and a lexical error there shows up only if the
  parser reads that token;
- the errors of an unclosed parenthesis;
- `props` recovers a comma-joined list.

Module layout:
- `results.dfy` holds the `Option` and `Result` types.
- `strings.dfy` holds `str.split(",")` and `str.split()`, each with its inverse join.
- `core.dfy` and `laws.dfy` hold the formula model and its laws.
- `lexer.dfy`, `grammar.dfy` and `parsing.dfy` hold the lexer, the grammar and the parser class.
- `roundtrip.dfy` and `parselaws.dfy` hold the parsing theorems.
- `scenarios.dfy` holds concrete inputs as instances of the contracts and theorems.

Where the module docstring and the code disagree, the code is followed:
- The docstring grammar puts `~` inside `unit` (`classical_logic/parsing.py:51-53`). The code has
  its own `neg` rule (`classical_logic/parsing.py:226-231`).
- The docstring writes `bic` and `cond` as loops (`classical_logic/parsing.py:47-48`). The code
  recurses, and the model recurses too, so `->` and `<->` group to the right.

## Model

| member | source | states |
|---|---|---|
| Lexer.Accept | classical_logic/parsing.py:159-168 | reading the expected character succeeds exactly when it is there; the end of the text gives UnexpectedEnd and any other character gives UnexpectedChar naming it |
| Lexer.IdentEnd | classical_logic/parsing.py:145-149 | the identifier loop stops at the first character that is not a letter, digit or `_`, at or after the start, or at the end of the text |
| Lexer.Lex | classical_logic/parsing.py:113-156 | one resumption of the lexer. A produced token is well-formed, ends after the start, and only whitespace precedes it; an identifier is the longest run available; the lexer finishes exactly when only whitespace remains; it fails only with a character or end-of-text error. `Lexer.LexOutcome` says exactly which inputs fail and with which error |
| Lexer.FirstNonSpace | classical_logic/parsing.py:141-142 | the first position at or after the start that is not whitespace, or the end of the text, with only whitespace before it |
| Lexer.LexSkipsWhitespace | classical_logic/parsing.py:141-142 | the lexer gives the same outcome whether it starts at `pos` or at the first non-whitespace position after it |
| Lexer.LexOutcome | classical_logic/parsing.py:113-156 | which inputs fail, and with which error. Let `s` be the first non-whitespace character. Any of `~ & \| ( )` yields a one-character token ending just after `s`, and a letter or `_` yields an identifier. `-` fails exactly when `Accept` of `>` fails, with that error. `<` fails exactly when `Accept` of `-` and then of `>` fails, with the first such error. Any other character fails with UnexpectedChar naming it. A failure always has such a character |
| Lexer.LexReadsLexeme | classical_logic/parsing.py:117-150 | a produced token's lexeme is exactly the text just before the position the lexer stops at |
| Lexer.Tokens | classical_logic/parsing.py:102-156 | the tokens the generator yields when read to the end are well-formed, and without an error their lexemes are the text with whitespace removed |
| Grammar.Advance | classical_logic/parsing.py:188-192 | pulling the next token never moves backwards, gives no current token only at the end of the text, and fails only with a lexical error, UnexpectedChar or UnexpectedEnd, never with a grammar error |
| Grammar.Bic | classical_logic/parsing.py:194-200 | `bic` consumes tokens forward and fails only with a syntax error (this and the next seven rows: the rule function terminates on any text) |
| Grammar.Cond | classical_logic/parsing.py:202-208 | `cond` consumes tokens forward and fails only with a syntax error |
| Grammar.Disj | classical_logic/parsing.py:210-216 | `disj` consumes tokens forward and fails only with a syntax error |
| Grammar.DisjTail | classical_logic/parsing.py:213-215 | the `|` loop consumes tokens forward and fails only with a syntax error |
| Grammar.Conj | classical_logic/parsing.py:218-224 | `conj` consumes tokens forward and fails only with a syntax error |
| Grammar.ConjTail | classical_logic/parsing.py:221-223 | the `&` loop consumes tokens forward and fails only with a syntax error |
| Grammar.Neg | classical_logic/parsing.py:226-231 | `neg` consumes tokens forward and fails only with a syntax error |
| Grammar.Unit | classical_logic/parsing.py:233-252 | `unit` consumes tokens forward and fails only with a syntax error. Its error cases are stated for all inputs by `ParseLaws.MissingOperandAt`, `ParseLaws.OperandExpected` and `ParseLaws.MissingRightScanned` (operand slot) and `ParseLaws.UnclosedScanned` (closer slot) |
| Grammar.Prop | classical_logic/parsing.py:260-261 | `prop` fails with EmptyTokenStream exactly when the text is empty or all whitespace |
| Grammar.PropAll | classical_logic/parsing.py:265 | on success there is one formula per piece, each the result of `prop` on that piece; on failure the error is that of the first failing piece, and every earlier piece parsed |
| Grammar.Props | classical_logic/parsing.py:264-265 | on success there is one formula per comma-separated piece, and each is `prop` of its piece; on failure the error is that of some piece, and every earlier piece parses |
| Strings.Split | classical_logic/parsing.py:265 | `text.split(",")` gives at least one piece, no piece contains the separator, and joining the pieces with it gives the text back |
| Strings.SplitJoin | classical_logic/parsing.py:265 | splitting the join of separator-free pieces gives the pieces back |
| Parsing.Parser.constructor | classical_logic/parsing.py:177-182 | a fresh parser over the text, at position 0 with no current token |
| Parsing.Parser.Open | classical_logic/parsing.py:184-186 | creating a parser pulls the first token with no default: a text without tokens fails with EmptyTokenStream, and a lexical error in the first token fails with that error; otherwise the parser stands at the grammar's first cursor |
| Parsing.Parser.NextToken | classical_logic/parsing.py:113-156 | the whitespace-skipping loop and the dispatch return exactly `Lex` from the old position, and leave the position just after the token |
| Parsing.Parser.ScanIdentifier | classical_logic/parsing.py:144-151 | the character-appending loop returns exactly the token `Lex` produces there, stopping at the character that ends the identifier without consuming it |
| Parsing.Parser.ScanSymbol | classical_logic/parsing.py:117-154 | the operator and parenthesis branches, and the errors of `-`, `<` and unexpected characters, are exactly `Lex` |
| Parsing.Parser.Advance | classical_logic/parsing.py:188-192 | the fields become the cursor `Grammar.Advance` gives, or the lexical error is returned |
| Parsing.Parser.Bic | classical_logic/parsing.py:194-200 | the method's result and final fields agree with `Grammar.Bic` from the old fields |
| Parsing.Parser.Cond | classical_logic/parsing.py:202-208 | the method's result and final fields agree with `Grammar.Cond` |
| Parsing.Parser.Disj | classical_logic/parsing.py:210-216 | the fold loop's result and final fields agree with `Grammar.Disj` |
| Parsing.Parser.Conj | classical_logic/parsing.py:218-224 | the fold loop's result and final fields agree with `Grammar.Conj` |
| Parsing.Parser.Neg | classical_logic/parsing.py:226-231 | the method's result and final fields agree with `Grammar.Neg` |
| Parsing.Parser.Unit | classical_logic/parsing.py:233-252 | the method's result, including the fall-through error after an unclosed parenthesis, agrees with `Grammar.Unit` |
| Parsing.Prop | classical_logic/parsing.py:260-261 | `prop` as run, creating the parser and parsing one `bic`, equals `Grammar.Prop` |
| Parsing.Props | classical_logic/parsing.py:264-265 | the loop over the comma-separated pieces equals `Grammar.Props`, stopping at the first failure |
| RoundTrip.ScanRendered | classical_logic/parsing.py:113-156 | the lexer reads the canonical rendering of a formula with identifier atoms as exactly that formula's tokens and stops at its end |
| RoundTrip.NegScanned | classical_logic/parsing.py:226-252 | whatever the text, once the lexer hands out a formula's tokens, `neg` reads that formula |
| RoundTrip.ParseOfRender | classical_logic/parsing.py:194-261 | round trip: `prop` of the canonical rendering of a formula with identifier atoms is that formula |
| RoundTrip.ParsesScanned | classical_logic/parsing.py:260-261 | a text the lexer reads as exactly a formula's tokens parses as that formula |
| RoundTrip.RenderInjective | classical_logic/parsing.py:194-261 | distinct formulas with identifier atoms render to distinct texts |
| RoundTrip.RenderSpell | tests/test_core.py:331-390 | the canonical rendering is the spelling of the formula's tokens, with single spaces around each binary operator |
| ParseLaws.ParsesInfix | classical_logic/parsing.py:194-231 | `l k r` without parentheses parses as the node of `k` for any rendered operands, so `~` binds tighter than every binary operator |
| ParseLaws.Precedence | classical_logic/parsing.py:194-224 | `a k1 b k2 c` without parentheses parses as the reference grouping: the tighter of `&`, `\|`, `->`, `<->` groups first, `&` and `\|` fold to the left, and `->` and `<->` nest to the right |
| ParseLaws.Trailing | classical_logic/parsing.py:260-261 | after a rendered formula the parser pulls exactly one more token: if it is not a binary operator the formula is the result whatever follows, and if lexing it fails that error is the result |
| ParseLaws.TrailingScanned | classical_logic/parsing.py:188-200 | the same for any text whose first tokens are a formula's |
| ParseLaws.Unclosed | classical_logic/parsing.py:240-249 | `(` and a rendered formula with nothing after it fails with UnexpectedEnd |
| ParseLaws.UnclosedThenIdentifier | classical_logic/parsing.py:240-252 | `(`, a rendered formula, then an identifier where `)` belongs fails with UnexpectedToken naming that identifier |
| ParseLaws.MissingOperandAt | classical_logic/parsing.py:226-252 | at a cursor holding no identifier, `(` or `~`, `unit` fails with UnexpectedToken naming the token, or UnexpectedEnd when none is left, and `neg`, `conj`, `disj`, `cond` and `bic` all pass that exact error up |
| ParseLaws.OperandExpected | classical_logic/parsing.py:233-261 | a text whose first token is a binary operator or `)` fails with UnexpectedToken naming it |
| ParseLaws.MissingRightScanned | classical_logic/parsing.py:194-252 | for any text, after a formula's tokens and any binary operator, a cursor at which no operand can begin is the error of `prop`: UnexpectedToken naming its token, or UnexpectedEnd |
| ParseLaws.MissingRightOperand | classical_logic/parsing.py:194-249 | a rendered formula, a space and any binary operator, with nothing after it, fails with UnexpectedEnd |
| ParseLaws.UnclosedScanned | classical_logic/parsing.py:240-252 | after `(` and a formula's tokens, any token other than `)` or a binary operator is reported as the error, or UnexpectedEnd if none is left |
| ParseLaws.PropsRoundTrip | classical_logic/parsing.py:264-265 | `props` of the renderings joined by commas gives the formulas back, in order |
| ParseLaws.PropAllRenders | classical_logic/parsing.py:265 | parsing each rendering in order gives the formulas back |
| Core.Invert | tests/test_core.py:26-29 | `~u` is a new Not node over `u`, different from `u`, with the same atoms |
| Core.AndWith | tests/test_core.py:40-44 | `u & v` is a new And node with `u` on the left and `v` on the right |
| Core.OrWith | tests/test_core.py:51-55 | `u \| v` is a new Or node with `u` on the left and `v` on the right |
| Core.ImpliesWith | tests/test_core.py:62-65 | `u.implies(v)` is a new Implies node with antecedent `u` and consequent `v` |
| Core.IffWith | tests/test_core.py:67-70 | `u.iff(v)` is a new Iff node with `u` on the left and `v` on the right |
| Core.Interpret | tests/test_core.py:120-130 | a failure names a variable of the formula that the assignment lacks; with every variable assigned the result is the classical truth value |
| Core.AtomicsOfText | tests/test_core.py:396-405 | one atom per piece of `Strings.Words`, in order, named by that piece. The pieces are the maximal whitespace-free runs: see `Strings.WordsSkipSpace`, `Strings.WordsThenSpace` and `Strings.WordsEmpty`. The result is empty exactly when the text is empty or all whitespace |
| Core.AtomicsOfNames | tests/test_core.py:406-418 | one atom per name, the names used verbatim |
| Strings.Words | tests/test_core.py:396-405 | `str.split()` gives non-empty words free of whitespace that together hold exactly the text's non-whitespace characters. `WordsSkipSpace` and `WordsThenSpace` show that the words are maximal |
| Strings.WordsSkipSpace | tests/test_core.py:396-405 | leading whitespace of any length is dropped and starts no word |
| Strings.WordsThenSpace | tests/test_core.py:396-405 | a word followed by a non-empty run of whitespace, or ending the text, is taken whole as the first piece, and splitting resumes after the run. Together with `WordsSkipSpace` and `WordsEmpty` this determines the result on every text |
| Strings.WordsEmpty | tests/test_core.py:396-398 | the result is empty exactly when the text is empty or all whitespace |
| Strings.WordsJoin | tests/test_core.py:399-405 | splitting words joined by single spaces gives the words back |
| CoreLaws.InterpretMonotone | tests/test_core.py:263-302 | a result reached with a partial assignment stays the same when more variables are assigned |
| CoreLaws.InterpretSound | tests/test_core.py:263-302 | short-circuiting never changes the answer: a value computed from a partial assignment is the classical truth value under every completion |
| CoreLaws.EvaluatesAllNeedsEveryVariable | tests/test_core.py:265-272 | a formula of Not and Iff alone evaluates exactly when every one of its variables is assigned |
| CoreLaws.AtomicLookup | tests/test_core.py:120-130 | an atom, whatever its name, yields its mapped value when present and fails naming itself when absent |
| CoreLaws.LeftFirst | tests/test_core.py:273-302 | the left operand is evaluated first: its failure is the result; And stops at false, Or at true and Implies at a false antecedent; otherwise the right operand decides |
| CoreLaws.IffNeedsBoth | tests/test_core.py:303-312 | Iff evaluates exactly when both operands do, and Not exactly when its operand does |
| CoreLaws.TruthTables | tests/test_core.py:132-168 | Not, And, Or, Implies and Iff follow the classical truth tables for every pair of values |
| CoreLaws.QuadrupleNegation | tests/test_core.py:173-179 | four negations give the formula's own result, failures included |
| CoreLaws.ExcludedMiddle | tests/test_core.py:180-193 | `f \| ~f` is true and `f & ~f` false whenever `f` can be evaluated |
| CoreLaws.ModusPonens | tests/test_core.py:194-205 | `((f -> g) & f) -> g` is true whenever `f` and `g` can be evaluated |
| CoreLaws.IffEquivalences | tests/test_core.py:206-235 | both characterisations of `<->` are true whenever the operands can be evaluated |
| Core.Render | tests/test_core.py:331-390 | a negation's rendering starts with `~`, and a binary node's rendering is enclosed in one pair of parentheses. Its partners: `RoundTrip.ParseOfRender` shows that `prop` reads the rendering back, `RoundTrip.RenderInjective` that distinct formulas render differently, and `CoreLaws.RenderParenthesizesBinaryNodes` that the parentheses are one pair per binary node |
| CoreLaws.RenderParenthesizesBinaryNodes | tests/test_core.py:331-351 | with parenthesis-free names, the rendering has exactly one `(` and one `)` per binary node, so atoms and negations get none |
| CoreLaws.RenderAtomVerbatim | tests/test_core.py:331-351 | for any names `a` and `b`: an atom renders as its name verbatim and a negated atom as `~a`; And, Or, Implies and Iff of two atoms render as `(a & b)`, `(a \| b)`, `(a -> b)` and `(a <-> b)` |
| CoreLaws.RenderQuadrupleNegation | tests/test_core.py:356-359 | `~~~~p` |
| CoreLaws.RenderModusPonens | tests/test_core.py:360-366 | `(((p -> q) & p) -> q)` |
| CoreLaws.RenderIffByImplications | tests/test_core.py:367-376 | `((p <-> q) <-> ((p -> q) & (q -> p)))` |
| CoreLaws.RenderIffByCases | tests/test_core.py:377-386 | `((p <-> q) <-> ((p & q) \| (~p & ~q)))` |
| CoreLaws.AtomicsOfBlankText | tests/test_core.py:397-418 | the empty and whitespace-only texts give no atoms, and names are used verbatim even when they are whitespace |
| CoreLaws.AtomicsOfWords | tests/test_core.py:399-400 | `"P Q R"` gives the atoms P, Q, R |
| CoreLaws.AtomicsOfSymbols | tests/test_core.py:401 | `"1234 %()$&"` gives the atoms `1234` and `%()$&`, which are not identifiers |
| Scenarios.WhitespaceYieldsNothing | classical_logic/parsing.py:141-142 | space, tab, form feed, carriage return and newline yield no token |
| Scenarios.SingleCharacterTokens | classical_logic/parsing.py:117-139 | each of `~ & \| ( )` yields one token whose lexeme is that character |
| Scenarios.ArrowErrors | classical_logic/parsing.py:126-133 | `-` needs `>`, and `<` needs `-` then `>`: the end of the text gives UnexpectedEnd and another character gives UnexpectedChar naming it |
| Scenarios.LeadingDigit | classical_logic/parsing.py:153-154 | a digit cannot start an identifier |
| Scenarios.IdentifierEndReread | classical_logic/parsing.py:144-151 | `p&q` lexes as IDENT, AND, IDENT: the character ending the identifier is read again |
| Scenarios.NoTokens | classical_logic/parsing.py:184-186 | an empty or all-whitespace text fails with EmptyTokenStream |
| Scenarios.LeftFold | classical_logic/parsing.py:218-224 | `p & q & r` is `And(And(p, q), r)` |
| Scenarios.RightNesting | classical_logic/parsing.py:202-208 | `p -> q -> r` is `Implies(p, Implies(q, r))` |
| Scenarios.AndBeforeOr | classical_logic/parsing.py:210-224 | `p \| q & r` is `Or(p, And(q, r))` |
| Scenarios.NotBeforeAnd | classical_logic/parsing.py:226-231 | `~p & q` is `And(Not(p), q)` |
| Scenarios.TrailingTokensIgnored | classical_logic/parsing.py:260-261 | `p q $` gives `p`; the `$` is never lexed |
| Scenarios.NextTokenLexed | classical_logic/parsing.py:188-192 | `p $` fails with UnexpectedChar `$`, because the parser pulls the token after `p` |
| Scenarios.MissingCloserAtEnd | classical_logic/parsing.py:240-249 | `(p` fails with UnexpectedEnd |
| Scenarios.MissingCloserBeforeToken | classical_logic/parsing.py:240-252 | `(p q` fails with UnexpectedToken `q` |
| Scenarios.StrayCloser | classical_logic/parsing.py:248-252 | `)` fails with UnexpectedToken `)` |
| Scenarios.MissingOperand | classical_logic/parsing.py:221-249 | `p &` fails with UnexpectedEnd |
| Scenarios.NestedRoundTrip | classical_logic/parsing.py:260-261 | `((p <-> q) <-> ((p & q) \| (~p & ~q)))` parses back to its formula |
| Scenarios.CommaList | classical_logic/parsing.py:264-265 | `p,q` gives the two atoms in order |

## Left out

- The Python generator and iterator machinery is replaced by a resume position. Laziness is kept:
  a token is lexed only when the parser advances onto it.
- `str.isalpha` and `str.isalnum` (`classical_logic/parsing.py:144`, `147`) accept every Unicode
  letter and digit. The model accepts the ASCII ones only, which is what the docstring's regex
  (`classical_logic/parsing.py:24`) says.
- Exceptions and message formatting (`classical_logic/parsing.py:69-83`) become the `ParseError`
  datatype. Its cases are UnexpectedChar(c), UnexpectedEnd, UnexpectedToken(lexeme) and
  EmptyTokenStream. Interpretation failures become MissingVariable(name).
- An empty or all-whitespace text makes the parser's first `next()` raise, because it has no
  default. Python reports this as `StopIteration` from `prop`. Inside the generator expression of
  `props` (for an empty piece, as in `"p,"`), Python 3.7 and later turn it into `RuntimeError`.
  The model reports EmptyTokenStream in both cases.
- `__and__` and `__or__` return `NotImplemented` for non-formula operands, and `bool(u)` raises
  `TypeError` (`tests/test_core.py:46-60`, `74-78`). Static types make both moot.
- The keyword-argument call form `u(**interp)` and the `__call__`/`_interpret` duplication
  (`tests/test_core.py:95-118`). One `Interpret` over a map stands for all three.
- Python's recursion limit. The recursive descent takes one interpreter frame per `~` and six per
  parenthesis level (`unit`, `bic`, `cond`, `disj`, `conj`, `neg`), and the default limit is 1000
  frames. So a text such as 1000 `~` before `p`, or about 170
  nested parentheses, raises `RecursionError` in Python. The model has no stack-depth limit, and
  `Grammar.Prop` parses such texts.
- Hashing and object identity: formulas are values with structural equality.
- The implementing file of the formula model (`classical_logic/core.py`) is not part of this
  model. The formula datatype, its interpretation and its rendering are reconstructed from the
  tests and from the constructors the parser calls.
- Lexer.Lex: its contract does not say that the lexeme is the text before `next`. That fact is a
  separate lemma, `Lexer.LexReadsLexeme`.
- The round-trip and precedence theorems cover formulas whose atom names are identifiers. Other
  names cannot be lexed back as one token, for example `""` or names containing spaces or operators.
