# Calc, modelled in Dafny

Calc is a small embeddable calculation language written in JavaScript. A Calc program is an
arithmetic expression over decimal numbers and `$references`. It may be followed by `in` and
a list of quantities, such as `$area x 1.05 in 2 m, 1 m`. The implementation does three
things:

- it tokenizes the source and parses it by recursive descent into a tree;
- it compiles a tree into the text of a JavaScript function;
- it renders a program against an environment, by evaluating the expression and then
  allocating the result over the quantities with a greedy `split`.

This project models that core:

- `Tokens` holds the token types and the literal-token table, in its declaration order.
- `Scanners` holds the three token patterns (NUMBER, REFERENCE, UNIT), written as scanners.
- `Lexer` models `readToken` and `tokenize`.
- `Ast` and `Grammar` define the tree and the grammar as pure functions.
  - `Parser` is a class over a token queue, whose methods consume it with `shift`.
  - Each method is proved to agree with its grammar function.
- `Numerals` gives the exact decimal value of a NUMBER lexeme, and the `String` form of a
  whole number.
- `Evaluator` models `evalExpression` and `evalApp` over exact reals.
- `Compiler` models `compileCalc` and `compileExpression`, plus a reader for the code they
  emit.
- `Allocation` specifies the greedy allocation.
- `SplitJs` models `split.js`, and `Render` models the `split` and `render` of `calc.js`.

The error conditions are results of the `Error` type in `Base`:

- a thrown `Error` or a failed `assert` in the source;
- a `TypeError` the source would raise on an exhausted token queue;
- a division by zero or an undefined reference, which JavaScript would carry as `Infinity` or
  `undefined`.

## Model

| member | source | states |
|---|---|---|
| Lexer.ReadToken | calc.js:75-110 | One step at offset i does one of three things: skips exactly one whitespace character; emits a token whose text is exactly the characters consumed; or fails with the offset and character, exactly when no rule matches |
| Lexer.TokenizeFrom | calc.js:69-73 | The token list is no longer than the input. A failure names a position inside the input, the character there, and the fact that no rule matches the text from there |
| Lexer.Tokenize | calc.js:69-73 | The index-advancing loop returns exactly the token list (or error) that the recursive definition gives |
| Lexer.TableTexts | calc.js:52-61 | The literal table has eight entries, in declaration order: `/`, `x`, `,`, `+`, `-`, `(`, `)`, `in` |
| Lexer.FirstLiteral | calc.js:86-96 | Returns the first table entry that prefixes the text, with no earlier entry prefixing it, or none when no entry prefixes it |
| Lexer.ReadHead | calc.js:78-107 | Whitespace is skipped exactly when the first character is a space, tab or newline; an emitted token's text is the prefix consumed |
| Lexer.LiteralWins | calc.js:86-96 | The first literal in table order that prefixes the text is the token read, ahead of every pattern |
| Lexer.MinusIsSubtract | calc.js:52-64 | A leading `-` is always SUBTRACT_OP, even before digits (the NUMBER pattern's optional sign is never used) |
| Lexer.TimesPreemptsUnit | calc.js:52-107 | `x` is always MULTIPLY_OP, even where a UNIT would match |
| Lexer.InPreemptsUnit | calc.js:52-107 | Where a token starts with `in`, the units keyword is read, ahead of the UNIT pattern. This holds only at the start of a token: `tin` is one UNIT |
| Lexer.InchExample | calc.js:52-107 | `inch` tokenizes as the units keyword followed by the unit `ch` |
| Lexer.MinusExample | calc.js:52-107 | `-5` tokenizes as SUBTRACT_OP then NUMBER `5` |
| Lexer.PercentExample | calc.js:75-109 | `5 % 2` fails to tokenize at offset 2 on `%`: the `%` in the header comment is not an operator |
| Lexer.NoMatchIff | calc.js:78-109 | Tokenizing fails on exactly the characters no rule accepts: not whitespace, a literal character, a digit or a lower-case letter, and not `$` before a word character |
| Lexer.ReadHeadWellFormed | calc.js:86-107 | Every token a step emits is well formed: a literal, or a pattern token whose lexeme matches its pattern in full |
| Lexer.ReadHeadOfText | calc.js:86-107 | A well-formed token written out, followed by a boundary character, is read back as that same token and length |
| Lexer.TokenizeWellFormed | calc.js:69-110 | Every token in a successful tokenization is well formed |
| Lexer.TokenizeSuffix | calc.js:69-110 | Tokenizing depends only on the remaining text, not on what precedes the position |
| Lexer.RetokenizeText | calc.js:69-110 | Writing out well-formed tokens separated by spaces and tokenizing the result gives back exactly those tokens |
| Lexer.RetokenizeRoundTrip | calc.js:69-110 | Re-tokenizing the written-out tokens of any tokenizable source gives the same token list |
| Lexer.TokenizeTexts | calc.js:69-110 | On every input that tokenizes, the tokens' texts joined together are exactly the input with its spaces, tabs and newlines removed: nothing is dropped, nothing is added, and the order is kept |
| Lexer.ForeignCharFails | calc.js:75-109 | An input that contains, anywhere, a character that is neither whitespace nor part of some token (`%`, say) fails to tokenize |
| Scanners.NumberMatch | calc.js:64 | A match starts with `-` or a digit and ends with a digit |
| Scanners.NumberMatchIsLongest | calc.js:64 | The match is a NUMBER-shaped prefix, defined independently of the scanner, and no longer NUMBER-shaped prefix exists. The shape is an optional `-`; then `0`, or a nonzero digit followed by digits; then optionally `.` and one or more digits; then optionally `e` or `E`, a mandatory sign and one or more digits |
| Scanners.NumberStable | calc.js:64 | The match is unchanged when the text after it is replaced by any text that starts with a boundary character (neither a word character nor `.`) |
| Scanners.ReferenceMatch | calc.js:65 | A match is `$` followed by at least one word character, and the character after it, if any, is not a word character |
| Scanners.ReferenceMatchIsLongest | calc.js:65 | The match is the longest prefix made of `$` and one or more word characters |
| Scanners.UnitMatch | calc.js:66 | A match starts with a lower-case letter. Every character before its last is a lower-case letter, and the last is a lower-case letter or a digit |
| Scanners.UnitMatchIsLongest | calc.js:66 | The match is the longest prefix made of lower-case letters, optionally followed by one digit |
| Grammar.ParseExpression | calc.js:166-181 | On success, what is left is a proper suffix of the input; a failure is one of the grammar's own errors |
| Grammar.ParseTerm | calc.js:183-198 | On success, what is left is a proper suffix of the input; a failure is one of the grammar's own errors |
| Grammar.ParseFactor | calc.js:200-217 | On success, what is left is a proper suffix of the input; a failure is one of the grammar's own errors |
| Grammar.ParseQuantity | calc.js:145-164 | On success, what is left is a proper suffix of the input; a failure is one of the grammar's own errors |
| Grammar.ParseMoreQuantities | calc.js:134-137 | The comma loop runs until the queue is empty |
| Grammar.ParseCalc | calc.js:123-143 | A success leaves no tokens and, when it has quantities, at least one; a failure is one of the grammar's own errors |
| Grammar.ParseTokens | calc.js:117-121 | Succeeds exactly when parseCalc does, and never fails with "Should have consumed all the tokens" |
| Grammar.Parse | calc.js:112-115 | A failure is a tokenizer error exactly when the source does not tokenize; otherwise it is one of the grammar's own errors |
| Grammar.ParseCalcDrains | calc.js:117-143 | A successful parseCalc leaves no tokens, so parseTokens returns its tree; a failure of parseCalc is the failure of parseTokens |
| Grammar.QuantitiesShape | calc.js:123-143 | A program parses with quantities exactly when tokens follow the expression; the quantity list is then non-empty |
| Grammar.GroupQuantitiesIndexed | calc.js:129-137 | The quantity list of groups `g1 ... gn` has one entry per group, and entry k is the quantity of group k |
| Grammar.MoreQuantitiesInOrder | calc.js:134-137 | After `, g1 , ... , gn`, where each group is a lone UNIT or a NUMBER and the token after it, the comma loop returns exactly the groups' quantities in the order written and drains the queue |
| Grammar.QuantitiesInOrder | calc.js:123-143 | When the expression is followed by `in g1 , g2 , ... , gn`, the program is that expression with exactly the groups' quantities, first group first, in source order |
| Grammar.QuantityOutcomes | calc.js:145-164 | NUMBER then any token gives (value, that token's value); a UNIT gives a unit without a value; any other first token throws 'Quantity Expected' |
| Grammar.TermIsGreedy | calc.js:183-198 | After a term, the next token (if any) is not `x` or `/` |
| Grammar.TermIsRightNested | calc.js:183-198 | A chain of atoms joined by `x` and `/` parses as a right-nested tree |
| Grammar.MixedTermGroupsRight | calc.js:183-198 | `a x b / c` parses as `a x (b / c)` |
| Grammar.SecondSumFails | calc.js:123-181 | A second `+`/`-` at expression level is not consumed, and parseCalc then demands the `in` keyword |
| Grammar.ThreeTermSumFails | calc.js:123-181 | `a + b - c` is rejected with the missing-`in` error |
| Grammar.ParseWellFormed | calc.js:112-217 | Every parsed tree holds only well-formed number lexemes and references |
| Parser.Parser.constructor | calc.js:117 | The queue holds the given tokens |
| Parser.Parser.Shift | calc.js:129 | Removes and returns the head of the queue; on an empty queue returns nothing and leaves it empty |
| Parser.Parser.ParseExpression | calc.js:166-181 | Returns the tree the grammar gives, and leaves in the queue the grammar's remaining tokens |
| Parser.Parser.ParseTerm | calc.js:183-198 | Same agreement for terms |
| Parser.Parser.ParseFactor | calc.js:200-217 | Same agreement for factors, including the closing-paren and 'Couldn't parse' errors |
| Parser.Parser.ParseQuantity | calc.js:145-164 | Same agreement for one quantity |
| Parser.Parser.ParseMoreQuantities | calc.js:134-137 | The comma loop appends exactly the grammar's quantities to those already read |
| Parser.Parser.ParseCalc | calc.js:123-143 | Same agreement for the whole program |
| Parser.Parser.ParseTokens | calc.js:117-121 | Returns the grammar's result and, on success, leaves the queue empty |
| Parser.Parse | calc.js:112-115 | Tokenizing and then parsing in place gives the grammar's result for the source |
| Numerals.LiteralValue | calc.js:206 | A string has a value exactly when it is a NUMBER lexeme; otherwise the error names the string |
| Numerals.NatToString | calc.js:307 | `String(n)` of a whole number is canonical: digits only, and no leading zero |
| Numerals.NatToStringValue | calc.js:307 | The digits of `String(n)` spell n |
| Numerals.CanonicalIsNatToString | calc.js:307 | Every canonical digit string is `String` of its value |
| Numerals.NatToStringRoundTrip | calc.js:307 | `Number(String(n))` is n |
| Numerals.UnsignedLiteralIsNonNegative | calc.js:206 | A NUMBER lexeme without its sign has a non-negative value |
| Numerals.FractionExample | calc.js:206 | `0.05` is exactly 5/100 |
| Numerals.ExponentExample | calc.js:64 | `25E-2` is 0.25; `25E2` is not a lexeme, because the exponent sign is mandatory |
| Evaluator.Eval | calc.js:350-378 | A failure is an undefined reference, a division by zero or a malformed number leaf, nothing else |
| Evaluator.EvalDependsOnlyOnRefKeys | calc.js:357-365 | The result depends only on the environment entries the tree references |
| Evaluator.UndefinedReferenceIsMentioned | calc.js:363-364 | An undefined-reference failure names a key that the tree references and the environment lacks |
| Evaluator.MissingKeyFails | calc.js:363-364 | Conversely, a tree that references a key the environment lacks fails. When it is well formed and has no division, the failure is an undefined reference |
| Evaluator.DivisionFreeFailsByReference | calc.js:350-378 | A well-formed tree without division can fail only by an undefined reference |
| Evaluator.BoundTreeFailsOnlyByDivision | calc.js:350-378 | When every referenced key is bound, the only possible failure is a division by zero |
| Evaluator.DivisionFreeTreeEvaluates | calc.js:350-378 | A bound tree without division always evaluates |
| Evaluator.PrecedenceExample | calc.js:166-198 | `5 + 7 x 10` is 75 |
| Evaluator.ParenthesesExample | calc.js:200-212 | `(5 + 7) x 10` is 120 |
| Evaluator.RightGroupingExample | calc.js:183-198 | `20 / 5 x 2` is 2, because terms group to the right |
| Evaluator.ReferenceExample | calc.js:363-364 | `$area x 2` with area 3.5 is 7; `$width` is undefined |
| Compiler.OpSymbol | calc.js:277-287 | Each operator's symbol cannot continue a number or a reference |
| Compiler.CompileExpression | calc.js:254-289 | The code of a well-formed tree is not empty, and starts with `(` exactly when the tree is an operation |
| Compiler.ReadCompiled | calc.js:254-289 | Reading back the code emitted for a well-formed tree, followed by a closing character, recovers the tree. References must not have a digit after the `$` |
| Compiler.DecompileCompiled | calc.js:254-289 | Reading the compiled code of a well-formed tree gives that tree back, when no reference has a digit after the `$` |
| Compiler.CompileIsInjective | calc.js:254-289 | Distinct well-formed trees compile to distinct code, when no reference has a digit after the `$` |
| Compiler.CompiledAgreesWithEvaluator | calc.js:254-289 | A corollary of DecompileCompiled: the tree in the emitted code evaluates, in any environment, exactly as the source tree does, when no reference has a digit after the `$` |
| Compiler.DigitReferenceExample | calc.js:274-275 | `$1` tokenizes as a REFERENCE and reads key `1` of the environment, but compiles to `env.1`, which the reader rejects |
| Compiler.CompileExample | calc.js:264-287 | `$a x (2 / 0.5)` compiles to `(env.a*(2/0.5))` |
| Compiler.CompileProgram | calc.js:229-252 | As written, compiling fails exactly on an empty quantity list, and then with the exhausted-queue error |
| Compiler.CompileProgramChecked | calc.js:229-252 | Corrected: a failure is the exhausted-queue or the mixed-units error, and every failure of the as-written compiler is also its failure |
| Compiler.CompileCalc | calc.js:229-252 | The reverse loop that collects the values yields the program's code as specified. The code has one of three forms: value only, value with units, or a `split` call on the values |
| Compiler.Compile | calc.js:224-227 | Parsing and compiling give the specified code for the source |
| Compiler.CompileIgnoresUnits | calc.js:237-243 | As written, compiled code with values depends only on the expression and the value list, never on the units; compiling such a program never fails |
| Compiler.MixedUnitsCompile | calc.js:237-248 | As written, `1 in 2 m, 3 kg` compiles to a `split` call on `2, 3` with unit `null` |
| Compiler.CheckedCompileRejectsMixedUnits | calc.js:237-248 | Corrected: the mixed-units error is raised exactly when the units differ; otherwise the code passes the units of the first quantity |
| Allocation.DivisionLaws | calc.js:310-313 | Math.floor, Math.ceil and the truncating `%` on a positive divisor satisfy their bounds and remainder laws |
| Allocation.LabelReadsBack | calc.js:307 | The label begins with `String(n)`, which reads back as n; the rest is a space and the unit for a truthy unit, and empty otherwise |
| Allocation.LabelInjective | calc.js:307 | With the same unit, different denominations get different labels |
| Allocation.SortDesc | calc.js:302-303 | The sorted copy is a permutation of the denominations |
| Allocation.SortDescSorted | calc.js:303 | The sorted copy is in descending order |
| Allocation.SortDescOrderIndependent | calc.js:302-303 | The sort result does not depend on the input order |
| Allocation.NonZeroSpec | calc.js:316-318 | An entry is kept exactly when it is in the full list and its count is nonzero |
| Allocation.NonZeroIsFilter | calc.js:316-318 | The kept entries are the entries with a nonzero count, in their original order: the i-th kept entry is the entry at the i-th such position |
| Allocation.NonZeroMultiplicity | calc.js:316-318 | An entry with a nonzero count is kept as many times as it occurs; one with a zero count is never kept |
| Allocation.Counts | calc.js:305-319 | The greedy loop gives one count per denomination |
| Allocation.CountsCover | calc.js:305-319 | For a non-negative target, the greedy counts cover the target, overshooting by less than the last (smallest) denomination |
| Allocation.SplitAll | split.js:1-25 | There is one entry per denomination |
| Allocation.SplitNonZero | calc.js:296-322 | There are at most as many entries as denominations, and none has a zero count |
| Allocation.LastIsSmallest | split.js:7-8 | After the descending sort, the last denomination is at most every given one |
| Allocation.SplitAllShape | split.js:1-25 | There is one entry per denomination, in descending order, labelled with that denomination |
| Allocation.SplitAllCovers | split.js:1-25 | The coverage law for the sorted denominations; the last is the smallest; no count is negative |
| Allocation.SingleDenomination | split.js:11-20 | A single denomination takes the ceiling of target over denomination |
| Allocation.SplitAllOrderIndependent | split.js:1-25 | The order of the denominations passed in does not matter |
| Allocation.ZeroTarget | split.js:1-25 | A zero target gives zero counts; the filtering split returns nothing |
| Allocation.SevenExample | split.js:27-30 | 7 cats over {4, 2, 1} in any order is one each of 4, 2 and 1 |
| Allocation.CeilingExample | calc.js:309-314 | The last denomination rounds up: 5 over {3, 4} gives one 4 and one 3; 3 over {3, 4} keeps only the 3 |
| SplitJs.Split | split.js:1-25 | The loop over the sorted copy yields exactly the specified allocation, zero entries included |
| SplitJs.SplitProperties | split.js:1-25 | The allocation has one entry per denomination, in descending order, covers a non-negative target, and does not depend on input order |
| Render.Denominations | calc.js:302-307 | The values convert exactly when each is a positive whole number in `String` form; each converted denomination prints as its lexeme |
| Render.SplitNonZeroCounts | calc.js:296-322 | The loop that pushes only nonzero counts yields exactly the filtered allocation |
| Render.NonZeroAppend | calc.js:316-318 | Filtering zero counts distributes over concatenation |
| Render.CheckUnits | calc.js:337-344 | The `while (i--)` loop returns the values when all the units agree, and the mixing error otherwise |
| Render.RenderTree | calc.js:332-347 | Once the value is known, the only failures are an empty quantity list, mixed units or a value the model does not split |
| Render.RenderSource | calc.js:324-348 | A successful render has a source that parses and an expression that evaluates; an undefined-reference failure has a source that parses |
| Render.RenderValue | calc.js:332-347 | Rendering the evaluated value follows the specified dispatch on the quantities |
| Render.RenderCalc | calc.js:324-348 | tokenize, parseTokens, evaluate and render give the specified result for any source and environment |
| Render.MixedUnitsRejected | calc.js:337-344 | With a truthy first value, render fails with the mixing error exactly when the units differ |
| Render.RenderSingleValue | calc.js:332-335 | Without quantities the result is the single value; with a value-less first quantity it is the value with those units |
| Render.RenderSplit | calc.js:336-346 | A successful split render has uniform units and a whole target; every entry has units and a nonzero value; the entries are the filtered allocation |
| Render.CompileAndRenderDisagree | calc.js:237-344 | On mixed units the render fails, the as-written compiler succeeds, and the corrected compiler fails |

## Left out

- Numbers are exact rationals, not IEEE doubles. Rounding, overflow to `Infinity` and `NaN` are not modelled. Division by zero and an undefined reference become errors instead of propagating `Infinity`, `NaN` or `undefined`. Because the original evaluation never throws, `1/0 in 2 m, 3 kg` or an unbound `$x` there still reaches the mixing assertion at calc.js line 342. In the model `Render.RenderSource` returns the evaluation error before `RenderTree` runs, so that error pre-empts the mixing error and every later rendering outcome.
- Compiler.CompileExpression: emits the NUMBER lexeme itself where the source emits `Number(lexeme).toString(10)`; number formatting is not modelled.
- The regular-expression engine is replaced by hand-written scanners for the three patterns on line 64-66 of calc.js.
- `assert`, `type` and `toString` (calc.js:380-392) are not modelled as operations: failed assertions become `Error` results, and `type` is replaced by matching on the tree.
- TypeErrors that the source raises on an exhausted token queue become `UnexpectedEnd`. Examples are `tokens[0].type` or `shift().type` on an empty queue, and `second.value` after a NUMBER that ends a quantity list. The same holds for `tree.quantities[0]` on an empty list.
- Render.RenderTree: `split` receives number lexemes, which JavaScript coerces inside the arithmetic. The model accepts only positive whole lexemes in `String` form and a whole evaluated target, and returns `NotWhole` for anything else. Fractional, negative and zero denominations, and fractional targets, are not modelled.
- SplitJs.Split: the target and the denominations are integers, and the denominations must be positive. The model covers only that range; fractional targets and denominations, and zero or negative denominations, are not modelled.
- Allocation.SortDesc: `Array.prototype.sort` is modelled as an insertion sort on values that is unique by result. The in-place sort of the copied array is not modelled step by step.
- Running the compiled JavaScript code is not modelled. Instead, Compiler.Decompile reads the emitted expression back, and the read-back tree is evaluated.
- Compiler.Compile: follows the source as written (the `.unit` property), so it never reports mixed units; the corrected form is Compiler.CompileProgramChecked.
- The demonstration call at the end of split.js (lines 27-30) is only modelled through Allocation.SevenExample. The `module.exports` wiring at the end of calc.js (lines 396-399) is left out.
- Compiler.CompiledAgreesWithEvaluator: proved only for trees in which no reference has a digit right after the `$` (Compiler.DotAccessible). Compiler.ReadCompiled, Compiler.DecompileCompiled and Compiler.CompileIsInjective carry the same restriction. A reference such as `$1` tokenizes and evaluates, reading key `1`. It compiles to `env.1`, though, which is not a valid JavaScript property access, and the reader rejects it (Compiler.DigitReferenceExample).
- Lexer.TokenizeFrom: JavaScript indexes strings by UTF-16 code units, while a Dafny `char` is a Unicode scalar value. The offsets agree: no rule consumes a character outside ASCII, so everything before a failure is ASCII. The reported character differs for a character outside the Basic Multilingual Plane. On `1 😀` both fail at offset 2, but `str.charAt(i)` at calc.js line 78 reports the lone high surrogate `\uD83D`, while the model reports the whole character `😀`.
- Lexer.ReadToken: `str.charAt(i)` is always a character because the loop stays inside the string; the exception message is modelled as the offset and the character, not the full text.

## Findings

| source | as written | input that shows it | evidently intended | confidence | as-written member | corrected member |
|---|---|---|---|---|---|---|
| calc.js:238-242 | `compileCalc` reads `quantities[i].unit`, which the parser never sets (it sets `units`). So the mixed-units assertion always passes, and the emitted unit is always `null` | `1 in 2 m, 3 kg` compiles to a `split` over `2, 3` with unit `null` | reject mixed units and pass the common unit, as `render` does at calc.js:338-342 | not executed | Compiler.MixedUnitsCompile | Compiler.CheckedCompileRejectsMixedUnits |
