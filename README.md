# Scanner and if/then syntax checker

This project models the scanner and syntax analyzer in `scanner@parser.cpp` and proves properties of the model. The pipeline reads one line, splits it into classified tokens and checks the shape `if ( condition ) then statement`. The model has three parts:

- **Classifier** (`classifier.dfy`, module `Classifier`): `GetTokenType` gives a non-empty lexeme one of the 13 token categories. The tests run in a fixed priority order:
  1. the reserved-word table;
  2. the data-type table;
  3. the logical operators `&& || !`;
  4. a first character that is a digit;
  5. a first character that is a letter;
  6. a case split on the first character.
- **Scanner** (`scanner.dfy`, module `Scanner`): the method `Scan` makes one left-to-right sweep and keeps a pending-lexeme buffer.
  - Whitespace and `( ) { } ;` flush the buffer.
  - Each of those characters except a plain space then becomes a token of its own.
  - `Scan` is proved equal to the recursive function `Tokenize`, and the scanner's properties are proved about `Tokenize`.
- **Syntax analyzer** (`analyzer.dfy`, module `Analyzer`): the method `Analyze` makes one pass over the tokens.
  - It updates the four flags `ifFound`, `conditionFound`, `thenFound` and `statementFound`.
  - It returns early on two errors, then runs three checks after the pass.
  - It is proved equal to the function `Verdict`. `Verdict` folds the per-token `Step` over the sequence (`RunTo`), then applies the final checks (`Finish`).
- `tokens.dfy` holds the shared `TokenType` and `Token` datatypes.
- `scenarios.dfy` states the analyzer's verdict on the token sequences that a few characteristic lines scan to.

Where the code and the behaviour one would expect from its comments differ, the model follows the code:

- **`==` is Unknown.** It dispatches on `=`, so the `lexeme == "=="` test at `scanner@parser.cpp:93` is unreachable (`Classifier.TwoCharacterOperators`).
- **`!=` is Unknown.**
- **`!` alone is a logical operator.** The test at line 76 runs before the `'!'` case.
- **Only plain spaces disappear.** A tab, line feed, vertical tab, form feed or carriage return becomes a one-character Unknown token. So the round trip gives back the line with only its plain spaces removed (`Scanner.LexemesRoundTrip`), not with whitespace normalised.
- **Operators are not boundaries.** They stay glued to their neighbours: `a+b` is one Identifier lexeme.
- **The `then` check is inverted relative to its comment.** The analyzer fails at once when `then` is the last token or the next token is NOT a reserved word. So `if (x < 5) then x` fails, and `if (x) then print x` passes (`Scenarios.ThenIdentifier`, `Scenarios.ThenReservedWordThenIdentifier`).
- **A reserved word right after `then` is not a statement.** It only passes the immediate check. `if (x < 5) then print` then fails the final statement check (`Scenarios.ThenReservedWordOnly`).
- **`ifFound` is never reset, and `then` with no `if` before it is ignored.**
- **The scanner has no capacity check.** The caller's array holds `MAX_TOKENS = 100` tokens, and the writes into it are unchecked. The model returns an unbounded sequence, and `Scanner.FitsTokenArray` states the caller-side bound.

## Model

| member | source | states |
|---|---|---|
| `Classifier.IsReservedWord` | scanner@parser.cpp:35-49 | membership in the eight-word reserved table; every reserved word starts with a letter and is not a data type, which is why this test precedes the identifier rule |
| `Classifier.IsDataType` | scanner@parser.cpp:52-61 | membership in the four-word data-type table; every data type starts with a letter |
| `Classifier.IsLogicalOperator` | scanner@parser.cpp:64-66 | the logical operators start with neither a digit nor a letter, and the only one that starts like an operator of the fallback is `!` |
| `Classifier.ClassificationTable` | scanner@parser.cpp:69-119 | the contract of `GetTokenType`, the model of `getTokenType`: for each of the twelve named categories, exactly which non-empty lexemes it puts in that category after the priority order (both directions of each if-and-only-if) |
| `Classifier.UnknownIsTheRest` | scanner@parser.cpp:85-117 | a lexeme that starts with no letter, digit or handled symbol, and is not one of the two-character logical operators, is Unknown |
| `Classifier.KeywordsWin` | scanner@parser.cpp:70-84 | every reserved word and data type starts with a letter yet classifies as ReservedWord or DataType, not Identifier |
| `Classifier.TwoCharacterOperators` | scanner@parser.cpp:87-103 | `>=` and `<=` are comparisons; `==`, `!=` and `=x` are Unknown (the `==` test is unreachable) |
| `Classifier.OneCharacterOperators` | scanner@parser.cpp:76-101 | `!` and the two two-character logical operators are logical operators (`!` before the `'!'` case); `>` and `<` are operators; `=` is the assignment operator |
| `Classifier.FirstCharacterRules` | scanner@parser.cpp:79-116 | `1a` is a Number, `++` Incremental, `-5` Decremental, a tab Unknown |
| `Scanner.Scan` | scanner@parser.cpp:122-151 | the imperative sweep with its pending buffer returns exactly `Tokenize(input)`, the recursive definition of the scanner that the lemmas below are about |
| `Scanner.WordThenBoundary` | scanner@parser.cpp:128-141 | a run of non-boundary characters followed by a boundary character is one token, then the boundary's own token unless it is a space, and the sweep restarts |
| `Scanner.SingleWord` | scanner@parser.cpp:139-148 | a line of non-boundary characters only is flushed as one token at the end |
| `Scanner.LexemesRoundTrip` | scanner@parser.cpp:126-150 | the lexemes, concatenated in order, equal the input with every plain space removed |
| `Scanner.TokenShape` | scanner@parser.cpp:128-148 | every token is non-empty, carries `GetTokenType` of its lexeme, and is either one boundary character other than a space or holds no boundary character |
| `Scanner.SeparatorTokens` | scanner@parser.cpp:128-138 | the one-character separator tokens are, in order, exactly the occurrences of `( ) { } ;` and of non-space whitespace in the input |
| `Scanner.SeparatorKinds` | scanner@parser.cpp:136-137 | a separator token is a Delimiter for `( ) { }`, a Semicolon for `;`, and Unknown for whitespace other than a space |
| `Scanner.TokenCount` | scanner@parser.cpp:123-150 | there are never more tokens than input characters |
| `Scanner.FitsTokenArray` | scanner@parser.cpp:203-206 | a line of at most `MAX_TOKENS` characters fits the caller's token array |
| `Scanner.NoTokens` | scanner@parser.cpp:126-148 | the scanner yields no token if and only if the line is empty or made only of spaces |
| `Analyzer.Step` | scanner@parser.cpp:161-185 | one token of the pass keeps the flags ordered, never clears a flag, and stops exactly when `then` follows `if` and either no condition was seen, `then` is last, or the next token is not a reserved word |
| `Analyzer.Analyze` | scanner@parser.cpp:154-195 | the imperative pass with early returns returns exactly `Verdict(tokens)`, the fold of `Step` followed by the final checks that the lemmas below are about; so the result depends only on the token sequence |
| `Analyzer.StopPersists` | scanner@parser.cpp:168-175 | once the pass has stopped with a message, the analysis ends with that message |
| `Analyzer.VerdictMessages` | scanner@parser.cpp:154-195 | the analyzer returns one of its four exact messages |
| `Analyzer.FlagsOrdered` | scanner@parser.cpp:156-185 | during the pass `conditionFound ⇒ ifFound`, `thenFound ⇒ conditionFound`, `statementFound ⇒ thenFound` |
| `Analyzer.FlagsNeverReset` | scanner@parser.cpp:161-185 | a flag set after some prefix of the tokens stays set for every longer prefix (`ifFound` is never reset) |
| `Analyzer.NothingBeforeIf` | scanner@parser.cpp:164-184 | before the first reserved word `if`, every flag stays false (a `then` without `if` is ignored) |
| `Analyzer.NoIfPasses` | scanner@parser.cpp:164-194 | a token sequence without the reserved word `if` passes |
| `Analyzer.FlagsBeforeThen` | scanner@parser.cpp:164-180 | between the first `if` and the first `then` after it, the flags record `if` and whether a `(` delimiter followed it, nothing else |
| `Analyzer.ThenWithoutCondition` | scanner@parser.cpp:168-170 | a first `then` after the first `if` with no `(` delimiter between them fails with "Error: Condition missing after 'if'" |
| `Analyzer.ThenNotBeforeReservedWord` | scanner@parser.cpp:168-174 | any `then` the pass reaches with `if` and a condition recorded (not only the first), that is last or is followed by a non-reserved token, fails with "Error: Statement missing after 'then'" |
| `Analyzer.ThenWithoutReservedWord` | scanner@parser.cpp:171-174 | the first `then` after the first `if`, with a `(` delimiter between them, that is last or is followed by a non-reserved token, fails with "Error: Statement missing after 'then'" |
| `Analyzer.StatementAfterThen` | scanner@parser.cpp:181-184 | after an accepted `then` and until the next `then`, the statement flag is set exactly when a token that is not a reserved word has followed |
| `Analyzer.StatementVerdict` | scanner@parser.cpp:181-194 | after an accepted `then` with no later `then`, the line passes exactly when a non-reserved token follows, and otherwise fails with the missing-statement message |
| `Analyzer.FinishOrder` | scanner@parser.cpp:187-194 | with ordered flags the final checks report a missing condition, then a missing `then`, then a missing statement, and pass exactly when there is no `if` or a statement was found |
| `Scenarios.ThenReservedWordOnly` | scanner@parser.cpp:173-192 | `if (x < 5) then print` passes the `then` check but fails the final statement check |
| `Scenarios.ThenIdentifier` | scanner@parser.cpp:173-174 | `if (x < 5) then x` fails at once with the statement error |
| `Scenarios.ThenReservedWordThenIdentifier` | scanner@parser.cpp:181-194 | `if (x) then print x` passes |
| `Scenarios.ThenBeforeCondition` | scanner@parser.cpp:168-170 | `if then x` fails with the condition error |
| `Scenarios.ConditionWithoutThen` | scanner@parser.cpp:189-190 | `if (x > 1)` fails with "Error: 'then' statement missing after condition" |
| `Scenarios.ThenWithoutIf` | scanner@parser.cpp:168-168 | `then x = 5;` passes, because `then` without `if` is ignored |
| `Scenarios.LaterThenIdentifier` | scanner@parser.cpp:171-174 | `if ( then print x then y` passes the first `then` and fails at the second with the statement error |

## Left out

- `main` (`scanner@parser.cpp:197-267`) is left out. It does the terminal I/O (`getline`, `cout`), copies the token array into a vector, and renders type names. None of that decides a result.
- Scanner.Scan: returns the tokens as a sequence instead of writing them into the caller's array and returning a count. The array writes at lines 131, 137 and 147 have no bound check, and writing past 100 tokens is undefined behaviour in C++. The model does not capture that overflow; `Scanner.FitsTokenArray` gives a sufficient caller-side condition instead.
- `isspace`, `isdigit` and `isalpha` are modelled as their C-locale ASCII predicates. Locale-dependent and non-ASCII behaviour, and negative `char` values, are left out.
- Classifier.GetTokenType: requires a non-empty lexeme. On the empty string the C++ code reads the terminating `'\0'`, and the scanner never passes an empty lexeme (`Scanner.TokenShape`).
- The two `unordered_map` tables are modelled as fixed finite sets of strings. Hashing is not part of the model.
- Scenarios.ThenReservedWordOnly: this and the other scenario lemmas state the analyzer's verdict on the token sequence each line scans to. The scanning of those concrete lines is not itself proved: unfolding the scanner on string literals is too expensive for the verifier. The scanner's behaviour is covered by its general lemmas.
