# A verified model of the bevy_graph_sim formula engine

bevy_graph_sim moves spheres along user-typed formulas of time and position, such as
`sin(time) * 2 + x`. Its formula engine lives in `src/parsing_function.rs` and has three
stages:

- **Parsing.** A backtracking recursive-descent parser runs over a shared cursor.
  - A dispatcher (`try_parsers_with_list`) tries eight rules in a fixed order. It skips
    spaces before each attempt and restores a save point after each failure.
  - The terminals are `time`, `x`, `y`, `z`, the operator symbols `+ * - / ^`, and
    integer literals.
  - The recursive rules are function calls `sin/cos/tan/abs(...)` and parenthesised
    groups. Both collect interior tokens until one fails to parse and a `)` follows.
- **Substitution.** `simplify_to_f32` replaces `time`, `x`, `y` and `z` with the current
  time and the point's coordinates.
- **Reduction.** `compile_cleaned_nodes` evaluates a token list with a value stack and an
  operator stack.
  - When an operator arrives, at most one reduction happens first, and only if the
    stacked top operator has strictly higher precedence.
  - At the end, a drain applies the stacked operators in the order they were pushed.

`FormulaParser::parse` runs the dispatcher until the text is finished and returns the
formula as a closure. The model returns a value instead: `Evaluates(tokens)`, or
`AlwaysFails(error)`.

## Modules

| file | module | contents |
|---|---|---|
| `tokens.dfy` | `Tokens` | Tokens, operators with their precedence, function kinds, the point. |
| `results.dfy` | `Results` | `Option`, `Result`, and the parse and reduction errors. |
| `cursor.dfy` | `Cursor` | The cursor primitives, as pure functions and as the mutable class `ParseInput`. |
| `grammar.dfy` | `Grammar` | Every rule as a function of the text and a start offset (see below). |
| `rules.dfy` | `Rules` | The rules as methods on the mutable cursor, with the source's loops. The interior loop that the source writes out in both recursive rules is one method here. |
| `grammar_facts.dfy` | `GrammarFacts` | Dispatch order and backtracking; rules read only the text ahead of them; function names ignore case. |
| `substitution.dfy` | `Substitution` | `simplify_to_f32` and its relation to the variable-free token trees. |
| `reduction.dfy` | `Reduction` | The reduction as a fold over the tokens plus a drain, and the imperative `compile_cleaned_nodes` proved equal to it. |
| `reduction_facts.dfy` | `ReductionFacts` | Drain order, well-formed lists, the bottom value, errors, worked examples. |
| `rendering.dfy` | `Rendering` | A reference printer for token lists, the proof that parsing reads printed lists back, and the proof that everything the parser produces can be printed. |
| `spacing.dfy` | `Spacing` | What appending a space or newline to the text changes: nothing inside the text, and one more failing dispatch at its end. |
| `formula.dfy` | `Formula` | The facade `parse`, the evaluation of a compiled formula, and end-to-end examples. |

In `Grammar`, each rule returns `Parsed(token, next offset)` or `Failed(error)`. Every rule
that succeeds consumes at least one character (`Advances`). That guarantee is what makes
the mutual recursion between the dispatcher and the two recursive rules terminate. Each
method in `Rules` is proved to return what its `Grammar` function returns and to leave
the cursor where that function says.

Numbers are symbolic. `Reduction.Value` is the free term algebra over integer and float
leaves, with `Applied(op, l, r)` standing for `Operator::run` and `Called(f, v)` for
`FunctionType::perform_f32_func`. Every floating-point reading of the source's arithmetic
factors through these terms, so the proofs cover the stack discipline exactly.

### Two consequences of the code as written

The model follows the code in both cases below.

- **Drain order.** A last-in first-out drain of the operator stack would give
  `1 + 2 * 3` the value 7. But the drain is `for operation in operators`
  (src/parsing_function.rs:286), which visits the bottom operator first. So `+` is
  applied first, to the top two values 2 and 3, and then `*` gives `1 * (2 + 3)`.
  - `ReductionFacts.AddThenMultiply` proves this on tokens.
  - `Formula.AddThenMultiplyText` proves it from the text `1 + 2 * 3`.
- **Trailing whitespace.** Spaces are skipped before each token but never after the last
  one. `parse` checks `finished()` (src/parsing_function.rs:354) before the dispatcher
  skips any spaces. After a trailing space, the dispatcher therefore runs at the end of
  the text, finds no token, and the whole formula fails. `Formula.TrailingSpace` proves
  this for every text: one that parses fails, once a space or newline is appended,
  with the integer rule's end-of-input error, and one that failed keeps its error. The
  module `Spacing` carries the proof: with the blank appended, a dispatch inside the
  text gives the same reply, and a dispatch at its end still finds no token. This rests on the
  assumed meaning of `finished()`, that the offset is at the end of the text, because
  `src/parsing.rs` is not part of this model.

## Model

| member | source | states |
|---|---|---|
| Tokens.Precedence | src/parsing_function.rs:36-44 | Every operator has precedence 5, 10 or 15. The value of each operator is in the definition. Which pairs of operators trigger a look-back is stated by `Reduction.LooksBack`. |
| Cursor.SkipSpaces | src/parsing_function.rs:166 | Assumed cursor behaviour: the offset after the run of spaces and newlines at `i`. Everything skipped is a space, and the character after the run is not one. |
| Cursor.DigitRunEnd | src/parsing_function.rs:133-137 | Assumed cursor behaviour: the end of the run of ASCII digits that starts at `i`. Every character in the run is a digit, and the next one is not. |
| Cursor.ParseInput.SkipChar | src/parsing_function.rs:102 | Assumed cursor behaviour: consumes `c` exactly when it is the next character. Otherwise it fails with `UnexpectedChar(c, next char)` and consumes nothing. |
| Cursor.ParseInput.SkipWord | src/parsing_function.rs:97 | Assumed cursor behaviour: consumes `w` exactly when the text continues with it. Otherwise it fails and consumes nothing. |
| Cursor.ParseInput.PopNextCharNumerical | src/parsing_function.rs:133-135 | Assumed cursor behaviour: consumes and returns one digit when the next character is one. Otherwise it fails with `NotNumerical(next char)` and consumes nothing. |
| Cursor.ParseInput.SkipSpacesAndNewlines | src/parsing_function.rs:166 | Assumed cursor behaviour: a loop that leaves the offset at `SkipSpaces` of the old offset. |
| Cursor.ParseInput.SkipXChars | src/parsing_function.rs:162 | Assumed cursor behaviour: advances `n` characters, stopping at the end of the text. |
| Cursor.ParseInput.LoadSavePoint | src/parsing_function.rs:241 | Assumed cursor behaviour: restoring a save point sets the offset back to it. |
| Cursor.ParseInput.constructor | src/parsing_function.rs:349 | Assumed cursor behaviour: a new cursor holds the text at offset 0. |
| Cursor.ParseInput.Finished | src/parsing_function.rs:354 | Assumed cursor behaviour: the cursor is finished exactly when there is no next character. |
| Cursor.ParseInput.CreateSavePoint | src/parsing_function.rs:231 | Assumed cursor behaviour: the save point is the current offset, which is always within the text and so always accepted by `LoadSavePoint`. |
| Cursor.ParseInput.GetNextChar | src/parsing_function.rs:128 | Assumed cursor behaviour: the character at the offset, and nothing exactly at the end of the text. |
| Cursor.ParseInput.MatchWordCi | src/parsing_function.rs:151 | Assumed cursor behaviour: a look-ahead that holds exactly when the next `|w|` characters, lower-cased, spell `w`. |
| Grammar.ParseI64 | src/parsing_function.rs:138 | An all-digit string, leading zeros included, succeeds exactly when its base-10 value is at most `I64_MAX`. It then yields that value, and otherwise the overflow error. Up to 18 digits always fit. 20 or more digits without a leading `0` always overflow. |
| Grammar.DigitCountBounds | src/parsing_function.rs:138 | Up to 18 digits read at most `I64_MAX`. 20 or more digits without a leading `0` read more than it. |
| Grammar.Insert | src/parsing_function.rs:338-341 | `Vec::insert`: the new element lands at index `k`, the elements before `k` stay, and those from `k` on move up one place. |
| Grammar.FunctionName | src/parsing_function.rs:150-161 | A name that is found is spelled at the offset, ignoring ASCII case. No name is found exactly when none of the four names is spelled there. |
| Grammar.ParseTime | src/parsing_function.rs:96-99 | Progress: a success consumes at least one character and stays within the text. `Rules.ParseTime` is proved to run this rule on the cursor, and `Rendering.LeafParses` reads `time` back. |
| Grammar.ParseLetter | src/parsing_function.rs:101-114 | The shape shared by `x`, `y` and `z`. Progress: a success consumes at least one character and stays within the text. |
| Grammar.ParsePointX | src/parsing_function.rs:101-104 | Progress for `x`: a success consumes at least one character and stays within the text. |
| Grammar.ParsePointY | src/parsing_function.rs:106-109 | Progress for `y`: a success consumes at least one character and stays within the text. |
| Grammar.ParsePointZ | src/parsing_function.rs:111-114 | Progress for `z`: a success consumes at least one character and stays within the text. |
| Grammar.ParseBinaryOperationSymbol | src/parsing_function.rs:116-130 | Progress: a success consumes at least one character and stays within the text. What it reads is `GrammarFacts.OperatorSpelling`. |
| Grammar.ParseInteger | src/parsing_function.rs:132-139 | Progress: a success consumes at least one character and stays within the text. What it reads is `Rendering.IntegerParses` and `Formula.IntegerLimit`. |
| Grammar.ApplyRule | src/parsing_function.rs:321-341 | Runs one registry entry; a success advances. |
| Grammar.TryRules | src/parsing_function.rs:231-250 | Progress: a success consumes at least one character and stays within the text. Which reply the dispatcher gives is stated by `GrammarFacts.TryRulesFirstSuccess`, `TryRulesAllFail` and `TryRulesSomeSuccess`. |
| Grammar.ParseOne | src/parsing_function.rs:231-250 | One dispatch over the whole registry, in the order builtin function, group, operator, time, x, y, z, integer. A success advances. |
| Grammar.ParseInterior | src/parsing_function.rs:164-177 | The interior loop. A success ends just after a `)` and extends the tokens collected so far. |
| Grammar.ParseBuiltinFunc | src/parsing_function.rs:148-180 | A success consumes at least one character and is a call whose kind is the function name matched at the start. What the rule reads is stated by `Rendering.CallParses` and `GrammarFacts.BuiltinFuncIgnoresCase`. |
| Grammar.ParseParentheses | src/parsing_function.rs:182-203 | A success is a group that starts with `(` and ends with `)`. |
| Grammar.ParseFrom | src/parsing_function.rs:353-369 | The loop of `parse`: a success keeps the tokens collected so far as a prefix. It adds at most one token per remaining character, and at least one when any text remains. |
| Grammar.Compile | src/parsing_function.rs:348-370 | `parse`: a formula that parses has at most one token per character of the text, and has no token exactly when the text is empty. |
| Rules.ParseTime | src/parsing_function.rs:96-99 | `parse_time` on the mutable cursor returns what `Grammar.ParseTime` describes and leaves the cursor where it says. |
| Rules.ParsePointX | src/parsing_function.rs:101-104 | `parse_point_x` on the cursor agrees with `Grammar.ParsePointX`, in result and final offset. |
| Rules.ParsePointY | src/parsing_function.rs:106-109 | `parse_point_y` on the cursor agrees with `Grammar.ParsePointY`, in result and final offset. |
| Rules.ParsePointZ | src/parsing_function.rs:111-114 | `parse_point_z` on the cursor agrees with `Grammar.ParsePointZ`, in result and final offset. |
| Rules.ParseBinaryOperationSymbol | src/parsing_function.rs:116-130 | The chain of five `skip_char` attempts agrees with `Grammar.ParseBinaryOperationSymbol`. |
| Rules.ParseInteger | src/parsing_function.rs:132-139 | The first digit, then the `while let` digit loop, agrees with `Grammar.ParseInteger`. The loop keeps `output` equal to the text consumed. |
| Rules.ApplyRule | src/parsing_function.rs:321-341 | Running one registry entry on the cursor agrees with `Grammar.ApplyRule`. |
| Rules.TryParsersWithList | src/parsing_function.rs:229-251 | The dispatcher loop agrees with `Grammar.ParseOne`. When every rule fails, the cursor is back at the save point. |
| Rules.ParseInteriorTokens | src/parsing_function.rs:164-177 | The interior `loop` (written twice in the source, at 164-177 and 186-200, and modelled once) agrees with `Grammar.ParseInterior` from an empty list, in result and final offset. |
| Rules.ParseBuiltinFunc | src/parsing_function.rs:148-180 | The name match, `skip_x_chars(3)`, `(` and the interior loop agree with `Grammar.ParseBuiltinFunc`, in result and final offset. |
| Rules.ParseParentheses | src/parsing_function.rs:182-203 | `(` and the interior loop agree with `Grammar.ParseParentheses`, in result and final offset. |
| GrammarFacts.RegistryAssembly | src/parsing_function.rs:321-341 | The registry is the six terminal rules with the call rule inserted at index 0 and then the group rule at index 1. Every rule is in it exactly once (`Position` inverts indexing), and the integer rule is last. |
| GrammarFacts.TryRulesFirstSuccess | src/parsing_function.rs:235-243 | If the rules from `k` before rule `m` all fail and rule `m` succeeds, the dispatch returns rule `m`'s reply. |
| GrammarFacts.TryRulesAllFail | src/parsing_function.rs:235-250 | The dispatch from `k` fails exactly when every rule from `k` on fails, and then with the integer rule's reply. |
| GrammarFacts.TryRulesSomeSuccess | src/parsing_function.rs:235-243 | A successful dispatch is the reply of some rule that succeeds after only failures before it. |
| GrammarFacts.DispatchOrder | src/parsing_function.rs:231-250 | A dispatch fails exactly when all eight rules fail, and then with the last rule's (the integer rule's) error. A success is the first rule in registry order that succeeds. |
| GrammarFacts.DispatchFirstSuccess | src/parsing_function.rs:321-341 | The converse: the first rule in registry order that succeeds decides the dispatch. |
| GrammarFacts.OperatorSpelling | src/parsing_function.rs:116-130 | The operator rule succeeds exactly when the next character is the written symbol (`Tokens.Symbol`) of some operator. It then yields that operator and consumes one character. Otherwise it fails with `ExpectedOperator` of the next character. |
| GrammarFacts.AgreeSkipSpaces | src/parsing_function.rs:166 | Skipping spaces reads only the text from the offset on. |
| GrammarFacts.AgreeDigitRunEnd | src/parsing_function.rs:133-137 | The digit run reads only the text from the offset on. |
| GrammarFacts.AgreePeek | src/parsing_function.rs:128 | The next character depends only on the text from the offset on. |
| GrammarFacts.AgreeTerminals | src/parsing_function.rs:96-130 | The time, letter and operator rules and the function-name match read only the text from the offset on. |
| GrammarFacts.AgreeMatchesCi | src/parsing_function.rs:151-157 | The case-insensitive match reads only the text from the offset on. |
| GrammarFacts.AgreeFunctionName | src/parsing_function.rs:150-161 | The function-name match reads only the text from the offset on. |
| GrammarFacts.AgreeInteger | src/parsing_function.rs:132-139 | The integer rule reads only the text from the offset on. |
| GrammarFacts.AgreeParseOne | src/parsing_function.rs:231-250 | A dispatch reads only the text from its offset on: two texts that agree there give the same reply. |
| GrammarFacts.AgreeTryRules | src/parsing_function.rs:235-243 | The same for the dispatcher from rule `k` on. |
| GrammarFacts.AgreeApplyRule | src/parsing_function.rs:321-341 | The same for one registry entry. |
| GrammarFacts.AgreeInterior | src/parsing_function.rs:164-177 | The same for the interior loop. |
| GrammarFacts.AgreeBuiltinFunc | src/parsing_function.rs:148-180 | The same for the function-call rule. |
| GrammarFacts.AgreeParentheses | src/parsing_function.rs:182-203 | The same for the group rule. |
| GrammarFacts.FunctionNameSpelling | src/parsing_function.rs:150-161 | The name matched is `f` exactly when the next three characters spell `f`'s name, ignoring ASCII case. |
| GrammarFacts.MatchesCiUpToCase | src/parsing_function.rs:151-157 | The case-insensitive match gives the same answer on texts that differ only in letter case. |
| GrammarFacts.FunctionNameUpToCase | src/parsing_function.rs:150-161 | Texts that differ only in the case of the name match the same function. |
| GrammarFacts.BuiltinFuncIgnoresCase | src/parsing_function.rs:148-180 | Changing the case of a function name changes neither the kind matched nor the parsed call. |
| Substitution.Fill | src/parsing_function.rs:72-84 | The independent reference for substitution, within the token type: variable references become the environment's floats, and calls and groups are filled child by child. |
| Substitution.Simplify | src/parsing_function.rs:72-84 | `time`, `x`, `y` and `z` become `Float(time)`, `Float(p.x)`, `Float(p.y)` and `Float(p.z)`. Exactly these and the float literals become float literals. Read back as a token tree, the result is `Fill` of the input, so calls and groups keep their function and children, substituted. On a tree without variable references, only the type changes. |
| Substitution.SimplifyAll | src/parsing_function.rs:80-81 | Substitution keeps the length of a list, and each position holds the substitution of the token there. |
| Substitution.Embed | src/parsing_function.rs:88-94 | A resolved tree read back as a token tree has no variable reference. |
| Substitution.SimplifyEmbed | src/parsing_function.rs:72-84 | Substitution leaves a tree without variables unchanged, whatever the time and point. |
| Substitution.SimplifyEmbedAll | src/parsing_function.rs:80-81 | The same for lists. |
| Substitution.SimplifyIndependentOfEnvironment | src/parsing_function.rs:72-84 | Only variable references read the time and the point. |
| Substitution.SimplifyAllIndependentOfEnvironment | src/parsing_function.rs:255 | A list without variable references resolves the same at every time and point. |
| Substitution.EmbedInjective | src/parsing_function.rs:88-94 | Two resolved trees with the same token reading are equal. |
| Reduction.LooksBack | src/parsing_function.rs:265-266 | The look-back happens exactly when the stacked top is `^` and the incoming operator is not, or the stacked top is `*` or `/` and the incoming one is `+` or `-`. Operators of equal precedence never look back. |
| Reduction.Shift | src/parsing_function.rs:264-277 | An incoming operator can fail only with the arity error. |
| Reduction.Fold | src/parsing_function.rs:262-283 | The token loop fails only with the empty-input or the arity error. |
| Reduction.Step | src/parsing_function.rs:263-282 | One token fails only with the empty-input or the arity error. |
| Reduction.Drain | src/parsing_function.rs:286-293 | The drain fails (with the arity error) exactly when operators remain and there are no more values than operators. Otherwise it leaves as many fewer values as there were operators. |
| Reduction.Reduce | src/parsing_function.rs:259-296 | Errors are only empty input and arity. An empty list is empty input. |
| Reduction.TranslateNodes | src/parsing_function.rs:254-257 | `translate_nodes` fails only with the empty-input or the arity error, and an empty list is empty input. A list without variable references evaluates the same at every time and point. |
| Reduction.CompileCleanedNodes | src/parsing_function.rs:259-296 | The imperative two-stack loop, recursive calls and drain compute exactly `Reduce`. |
| Reduction.PushOperator | src/parsing_function.rs:264-277 | The operator arm with its three pops computes exactly `Shift`. |
| Reduction.DrainOperators | src/parsing_function.rs:286-293 | The drain loop, bottom operator first, computes exactly `Drain`. |
| ReductionFacts.NestStep | src/parsing_function.rs:286-293 | Combining the top two values with `o`, then draining the rest, is the nesting of `[o] + rest`. |
| ReductionFacts.DrainNest | src/parsing_function.rs:286-293 | The drain of a balanced stack leaves one value. The last-pushed operator combines the bottom value with the drain of the rest, so the first-pushed operator is innermost. |
| ReductionFacts.FoldAppend | src/parsing_function.rs:262-283 | Folding a concatenation folds the first part, then the second from where it stopped. |
| ReductionFacts.FoldBalanced | src/parsing_function.rs:262-283 | On a well-formed list (values and operators alternating, at every depth), the token loop never fails. It ends with one more value than operators. |
| ReductionFacts.WellFormedReduces | src/parsing_function.rs:259-296 | A well-formed list always reduces to a value. |
| ReductionFacts.FoldLeaves | src/parsing_function.rs:278-279 | Literals only push: the operator stack is unchanged, each literal adds one value, and the bottom value stays. |
| ReductionFacts.ReduceYieldsBottom | src/parsing_function.rs:295 | A list of literals reduces to its first literal (the bottom of the stack), so `x y` yields `x`. |
| ReductionFacts.NestedErrorPropagates | src/parsing_function.rs:280-281 | When the tokens before it fold without error, a nested call or group that fails makes the whole list fail with its error. |
| ReductionFacts.MissingOperand | src/parsing_function.rs:270-271 | A lone operator, or an operator with one operand on either side, is the arity error. |
| ReductionFacts.EmptyGroupFails | src/parsing_function.rs:281 | An empty group at the start makes the list fail with the empty-input error. |
| ReductionFacts.LookBackRule | src/parsing_function.rs:264-277 | An incoming operator reduces at most once, and only when `LooksBack` holds. It fails exactly when it looks back with fewer than two values. The new operator stack is the old one, less its top if it looked back, with the incoming operator pushed. Nothing below changes. Without a look-back the values are unchanged. With one, the top two values are replaced by the stacked top applied to them, left operand first. |
| ReductionFacts.NestOfTwo | src/parsing_function.rs:286-293 | The drain of two values and one operator. |
| ReductionFacts.NestOfThree | src/parsing_function.rs:286-293 | The drain of three values applies the first-pushed operator to the top two. |
| ReductionFacts.AddThenMultiply | src/parsing_function.rs:259-296 | `[1, +, 2, *, 3]` reduces to `1 * (2 + 3)`. |
| ReductionFacts.MultiplyThenAdd | src/parsing_function.rs:264-276 | `[1, *, 2, +, 3]` looks back once and reduces to `(1 * 2) + 3`. |
| ReductionFacts.SingleLookBack | src/parsing_function.rs:264-293 | In `2 * 3 ^ 4 - 5`, the `-` reduces `3 ^ 4` only, and the result is `2 - ((3 ^ 4) * 5)`. |
| ReductionFacts.SingleLookBackStacks | src/parsing_function.rs:262-283 | The stacks just before the drain of `2 * 3 ^ 4 - 5`. |
| ReductionFacts.SingleLookBackSuffix | src/parsing_function.rs:264-276 | With `*` and `^` stacked, the `-` reduces `3 ^ 4` once and is pushed over `*`. |
| Rendering.Decimal | src/parsing_function.rs:132-139 | The decimal spelling of a natural number is a non-empty digit run. |
| Rendering.ReadsDecimal | src/parsing_function.rs:132-139 | The integer rule reads a decimal spelling that ends a token whole. It yields the number when it fits in an `i64` and the overflow error otherwise. |
| Rendering.DecimalValue | src/parsing_function.rs:138 | Reading the decimal spelling of `k` gives back `k`. |
| Rendering.Render | src/parsing_function.rs:58-69 | Every printable token has a non-empty spelling that starts with neither a space nor `)`. |
| Rendering.NoFunctionName | src/parsing_function.rs:150-161 | No name matches when the first letter cannot begin sin, cos, tan or abs. |
| Rendering.RuleOffRankFails | src/parsing_function.rs:96-139 | Each rule after the function-call rule fails unless the next character is one it can start with. |
| Rendering.FirstRulesFail | src/parsing_function.rs:321-341 | Ranking the next character rules out every registry entry before it. |
| Rendering.OnlyIntegerLeft | src/parsing_function.rs:235-249 | When every rule fails, the dispatch reports the integer rule's error. |
| Rendering.NothingParses | src/parsing_function.rs:170 | No rule parses at the end of the text or at a `)`; the `)` is left for the interior loop. |
| Rendering.LeafParses | src/parsing_function.rs:96-114 | `time`, `x`, `y` and `z` parse back from their spelling. |
| Rendering.OperatorParses | src/parsing_function.rs:116-130 | Every operator symbol parses back to its operator. |
| Rendering.IntegerParses | src/parsing_function.rs:132-139 | The decimal spelling of a non-negative `i64` parses back to it. |
| Rendering.CallParses | src/parsing_function.rs:148-180 | The spelling of a function call parses back to the call. |
| Rendering.GroupParses | src/parsing_function.rs:182-203 | The spelling of a group parses back to the group. |
| Rendering.RenderedParses | src/parsing_function.rs:231-250 | A dispatch reads back any printable token from its spelling, after any spaces, up to a space, a `)` or the end. |
| Rendering.JoinParses | src/parsing_function.rs:164-177 | The interior loop reads back a printed list and its `)`. |
| Rendering.JoinRestParses | src/parsing_function.rs:164-177 | The same from any later token of the list. |
| Rendering.ParseFromRest | src/parsing_function.rs:353-369 | The loop of `parse` reads back the remaining printed tokens. |
| Rendering.CompileJoin | src/parsing_function.rs:348-370 | Round trip: compiling the printed form of a list of printable tokens gives back that list. |
| Rendering.ParseOnePrintable | src/parsing_function.rs:231-250 | Every token a dispatch yields is printable: no float literal and no negative integer, at any depth. |
| Rendering.TryRulesPrintable | src/parsing_function.rs:235-243 | The same for the dispatcher from rule `k` on. |
| Rendering.ApplyRulePrintable | src/parsing_function.rs:321-341 | The same for one registry entry. |
| Rendering.BuiltinFuncPrintable | src/parsing_function.rs:148-180 | The same for the function-call rule. |
| Rendering.ParenthesesPrintable | src/parsing_function.rs:182-203 | The same for the group rule. |
| Rendering.InteriorPrintable | src/parsing_function.rs:164-177 | The interior loop extends printable tokens with printable tokens only. |
| Rendering.ParseFromPrintable | src/parsing_function.rs:353-369 | The loop of `parse` collects printable tokens only. |
| Rendering.CompilePrintable | src/parsing_function.rs:348-370 | Every token of a formula that parses is printable. |
| Rendering.CompileNormalForm | src/parsing_function.rs:348-370 | Printing a formula that parses and compiling the print gives the same formula. |
| Formula.Evaluate | src/parsing_function.rs:355-366 | The closure `parse` returns. A failed parse reports its own error. A formula that parsed fails only with the empty-input or the arity error, and with no tokens it reports empty input. |
| Formula.Parse | src/parsing_function.rs:348-370 | `parse` with its loop over the mutable cursor. It returns the error of the first failed dispatch, or the tokens of all dispatches in order once the text is finished, exactly as `Compile` says. |
| Formula.FailedParseIsConstant | src/parsing_function.rs:363-366 | A formula whose parse failed returns that same error at every time and point. |
| Formula.EmptyText | src/parsing_function.rs:354-358 | The empty text parses to no tokens, and its formula always reports empty input. |
| Formula.SingleVariable | src/parsing_function.rs:348-370 | `x` evaluates to the point's x coordinate. |
| Formula.AddThenMultiplyTokens | src/parsing_function.rs:348-370 | `1 + 2 * 3` is read as five tokens. |
| Formula.AddThenMultiplySubstituted | src/parsing_function.rs:254-256 | Substitution leaves those five tokens' literals and operators as they are. |
| Formula.AddThenMultiplyText | src/parsing_function.rs:286-293 | The text `1 + 2 * 3` evaluates to `1 * (2 + 3)`. |
| Formula.UnknownLetter | src/parsing_function.rs:231-250 | `q` fails with the integer rule's complaint about `q`, the last rule's error. |
| Formula.UnclosedGroup | src/parsing_function.rs:192-197 | `(x` fails. The group rule's own error is discarded, and the integer rule's complaint about `(` is reported. |
| Formula.IntegerLimit | src/parsing_function.rs:138 | A decimal literal compiles exactly when it fits in an `i64`. A larger one makes the formula fail with the overflow error. |
| Formula.LowerCaseCall | src/parsing_function.rs:148-180 | `sin(1)` is a call of `sin` on one argument. |
| Formula.UpperCaseCall | src/parsing_function.rs:150-161 | The function-call rule reads `SIN(1)` as the call of `sin` on 1. |
| Formula.FunctionNameCase | src/parsing_function.rs:151-157 | `SIN(1)` and `sin(1)` compile to the same formula. |
| Formula.TrailingSpace | src/parsing_function.rs:353-366 | For every text: when it parses, appending a space or newline makes the whole formula fail with the end-of-input error `NotNumerical(None)`; when it fails, appending one keeps the same error. |
| Spacing.SkipSpacesAppended | src/parsing_function.rs:236 | With a blank appended, skipping spaces stops at the same offset, except that a run reaching the end of the text now ends one place later, at the new end. |
| Spacing.DigitRunEndAppended | src/parsing_function.rs:133-137 | The digit run of the integer rule ends at the same offset with a blank appended. |
| Spacing.MatchesCiAppended | src/parsing_function.rs:151-157 | A word that does not end in a blank matches at an offset within the text exactly when it matches there with a blank appended. |
| Spacing.FunctionNameAppended | src/parsing_function.rs:150-161 | The function name found at an offset within the text is the same with a blank appended. |
| Spacing.TerminalsAppended | src/parsing_function.rs:96-139 | The time, letter, operator and integer rules started inside the text give the same reply, errors included, with a blank appended. |
| Spacing.DispatchAtEnd | src/parsing_function.rs:229-251 | A dispatch whose spaces run to the end of the text fails with the integer rule's `NotNumerical(None)`. |
| Spacing.ParseOneAppended | src/parsing_function.rs:229-251 | A dispatch at any offset up to the end of the text gives the same reply, error included, with a blank appended. |
| Spacing.TryRulesAppended | src/parsing_function.rs:235-250 | The dispatch from any rule on, with a first token inside the text, gives the same reply whatever errors were kept before, because the last rule's error replaces them. |
| Spacing.ApplyRuleAppended | src/parsing_function.rs:235-243 | One registry entry started inside the text succeeds with the same token and offset or fails with a blank appended; only the function-call rule's error may change. |
| Spacing.BuiltinFuncAppended | src/parsing_function.rs:148-180 | The function-call rule succeeds with the same call and offset, or fails, with a blank appended. Its `(` error may name the blank instead of the end of the text. |
| Spacing.ParenthesesAppended | src/parsing_function.rs:182-200 | The group rule gives the same reply, error included, with a blank appended. |
| Spacing.InteriorAppended | src/parsing_function.rs:164-177 | The interior loop gives the same reply, error included, with a blank appended. |
| Spacing.ParseFromAppended | src/parsing_function.rs:353-369 | From any offset, the parse loop with a blank appended fails with `NotNumerical(None)` where it used to succeed, and fails with the same error where it used to fail. |

## Left out

- `src/parsing.rs` (the cursor `ParseInput`) is not part of this model. The module
  `Cursor` states the behaviour the engine relies on as an assumption:
  - whitespace is a space or a newline;
  - a failed `skip_char`, `skip_word` or `pop_next_char_numerical` consumes nothing;
  - `finished()` means the offset is at the end of the text;
  - `match_word_ci` compares ASCII lower case;
  - `pop_next_char_numerical` accepts the ASCII digits `0` to `9` only.
- f32 arithmetic (`Operator::run`, `perform_f32_func`, `powf`, the `i64 as f32` cast,
  IEEE infinities and NaN) is uninterpreted. Results are terms of `Reduction.Value`, and
  the float payloads (`real`) are never inspected.
- The sharing of the registry behind `Arc<RwLock<Vec<...>>>` and the lock-poisoning
  branch of the dispatcher are not modelled. The registry is the fixed list
  `Grammar.Registry`, whose assembly by `Vec::insert` is `GrammarFacts.RegistryAssembly`.
  The knot the shared list ties between the dispatcher and the recursive rules is direct
  mutual recursion. The poisoning branch cannot be reached in a single-threaded run.
- Error messages are tags of `Results.Error`, not the formatted strings. The `{:?}` text of
  the next character, and the wording at lines 128 and 160 (which omit `^` and `abs`), are
  not modelled.
- The closure that `parse` returns is the value `Grammar.CompiledFormula`, applied by
  `Formula.Evaluate`. Sharing it across threads (`Arc`, `Send`, `Sync`) is not modelled.
- Commented-out code (negation, binary operation, `translate_node`, `parse_sim_func`) is
  dead and left out.
- `src/move_spheres.rs`, `src/spawn_spheres.rs` and `src/main.rs` are Bevy systems, UI and
  application set-up. They are not part of this model.
- Rendering.Render: only trees without float literals and negative integers have a spelling.
  `Rendering.CompilePrintable` proves that the parser never produces those, so the round
  trip covers every formula that parses.
