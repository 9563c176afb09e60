# ShinyProxy: a verified model of its hardest parts

ShinyProxy (the Rust rewrite) has four pieces of logic in which small mistakes go unnoticed for long.
This project models them in Dafny and proves what they are for. `dafny verify dfyconfig.toml` checks all of it.

**The expression language** (`crates/spel`). A tokenizer, a precedence climbing parser that rewinds and
counts its nesting, a template splitter that scans strings and braces on its own, and a depth-limited
evaluator with wrapping 64-bit arithmetic.
The parser is an object (`SpelParser.Parser`) whose methods move `position` and `depth`; they are proved to
agree with a grammar written as functions (`SpelGrammar`), to restore the counter on success and on
error, and to terminate although `parse_inline_collection` rewinds. The grammar is then measured against
something that knows nothing of parsing: a printer with minimal parentheses (`SpelPrinter`).
Main results: `SpelFrontEnd.RoundTrip` (printing and reading a tree gives it back exactly when it fits the
nesting limit), `SpelFrontEnd.NormalForm`, `SpelFrontEnd.ScannersAgree`, `SpelTokenNesting.AcceptedExactly` (which
tokens the nesting limit refuses), `SpelParser.ParseSource` with `SpelRuns.RunBounds` and
`SpelRuns.RunsBoundedTogether` (how deep the parser calls itself, on any text), `SpelTemplate.SplitInvertsGlue`,
`SpelTemplate.EvaluateConcat`, `SpelMeaning.GuardedRefinesMeaning`, `SpelArithmetic.IdentityEvaluates`,
`JavaHash.HashIsPolynomial`. What operators, indexes, properties, names and calls mean is stated apart from the
functions that compute it, in plain arithmetic and characters: `SpelOperators.OperatorsGroup` (which of two operators
binds tighter), and the modules `SpelSpellings`, `SpelOperations`, `SpelIndexing` and `SpelHosts`.

**The script injector** (`dataplane/inject.rs`). A state machine over chunks of a response that withholds
a short tail in case a marker is split.
The class `ScriptInjection.ScriptInjector` keeps `pending` and `injected`; its invariant fixes `pending` as a
function of the document so far, whatever the chunks were. Main results: `ScriptChunks.InjectAll` (nothing is
lost; the script goes in exactly once, or not at all if a chunk that is not text came first) and
`ChunkIndependence.ChunksDoNotMatter`: over chunks that are text themselves, they make no difference to where the
script goes *if and only if* the document is `Safe`; over chunks that may end within a character, if and only if it
is `Safe` and all ASCII (`BytesDoNotMatter`). `InjectedOutput.OutputDoesNotChange` and `OutputOfBytes` say the same
of the output, for documents that do not hold the script already. Where the script lands is spelled out in
characters in `InjectedMarkers`, and what counts as text in `Utf8Encoding.TextIsEncoded`. Not every document is safe:
an opening tag `<head ...>` with more than one byte of attributes is forgotten when it is cut before its bracket
(`ChunkIndependence.LongTagIsUnsafe`).

**The port allocator** (`backend/ports.rs`). Sequentially, as the classes of `PortAllocation`, with the turns
of other callers as a parameter; and as a protocol of many callers whose reads and claims interleave
(`PortProtocol`). Main results: `PortAllocation.AllocateUndisturbed`, `PortProtocol.PortsAreSafe`,
`PortProtocol.GrantsAreSound`, `PortProtocol.LossesAreCharged`, `PortProtocol.FailuresAreExcused`, and
`PortProtocol.OwnersAreKnown` (who has a port, told by the steps of a run alone).

**The configuration tree** (`config/tree.rs`, `schema.rs`, `loader.rs`). Paths, relaxed lookup, `set`, `merge`,
`flatten`, key normalisation and placeholders. A map is the sequence of its entries, because the maps of
the original keep the order of insertion and `remove` fills the gap with the last entry. Main results:
`ConfigTree.GetAfterSet`, `SetElsewhere`, `SetTwice` and `SetSame` (for all trees), `ConfigLayers.Precedence`,
`ConfigFlatten.Rebuild`, `ConfigNormalForm.LookupsAreKept`, `FreeFormIsKept` and `NormalizedTwice`,
`PlaceholderChains.FailsExactlyWhenTooDeep`, `ConfigPlaceholders.TreeIsPatched` and `KeysDecide`, and
`ConfigLoading.LoadAnswers`, which takes a property through all stages of `load`. Which spelling a key gets, and which
value a placeholder, is stated apart from the functions that find it in `ConfigSpellings.KnownKeysAreSpelled` and
`PlaceholderSources.ValueOrDefault`; the order that normalising leaves in `ConfigOrder.OrderIsExact`.

## Where the code and its documentation disagree

- `crates/spel/src/parser.rs:49-51` says that the limits of the parser and of the evaluator coincide, so that
  nothing the evaluator accepts is refused. The parser counts the brackets and prefix operators of the text that
  are open at once, the evaluator the height of the tree. What the parser refuses for its limit are exactly the
  tokens whose `Nesting` is above 64 (`SpelTokenNesting.AcceptedExactly`). Two inputs: a number in 64 pairs of
  parentheses, whose tree is the number alone (`SpelNesting.ParenthesesCount`), and 64 minus signs before a
  number, a tree of height 64 that no text denotes (`SpelLimits.NegationsAreRefused`). What does hold: a tree of
  height below 64 is accepted as it is printed (`SpelLimits.ShallowIsAccepted`). The other way round, `1 + 1 + ... + 1`
  with more than 64 operators is accepted, and too deep to be evaluated (`SpelSums.LongSumsAreTooDeep`).
- `crates/spel/src/parser.rs:186` says that every recursion of the parser passes through `parse_unary`. Fallbacks
  of `?:`, branches of `? :` and right operands are parsed after `parse_unary` has returned, so the counter bounds
  the active calls of `parse_unary` (that is `Parser.Valid`), not those of `parse_expression`. The input is
  `1 ?: 1 ?: ... ?: 1`: it needs one frame of `parse_unary` at a time and is accepted at every length, with one
  more call for every fallback (`SpelRuns.ChainRuns`). The condition, on any texts, accepted or not: the calls are
  bounded by a multiple of the frames if and only if the fallbacks and branches that are open at once are
  (`SpelRuns.RunsBoundedTogether`). Each frame and each branch accounts for at most seven calls, six of them for
  right operands (`SpelRuns.RunBounds`).
- `crates/containerproxy/src/config/loader.rs:491` says that placeholders are replaced in every string of the
  tree. A string is replaced exactly when the path that is written for some string leads back to it
  (`ConfigPlaceholders.ChosenExactly`), which a key with a dot above it prevents, whatever else is in the tree
  (`KeysDecide`): below `a.b` nothing is replaced (`DottedKeyIsLeft`).
- `crates/containerproxy/src/dataplane/inject.rs:26-27` says that a tag may be split across chunks. Between chunks
  that are text, `<head>` and `</body>` may; for `<head ...>` see above.
- `crates/containerproxy/src/dataplane/inject.rs:33-34` says that the script is always present. It is present
  whatever the chunks are exactly for documents that are all ASCII (`ChunkIndependence.AlwaysThere`): a chunk that
  is cut within a character is not text and ends the search. The input is `<head>` with an accented letter behind
  it, cut within that letter, which loses the script although the marker is all in the first chunk
  (`CutCharacterLosesScript`).

## Conventions

Text of the expression language is ASCII outside string literals. In the injector a byte is written as the
character of the same code. Tokens carry no positions and errors no messages; error kinds are kept.
`Option` and `Outcome` stand for the original's `Option` and `Result`. Functions named like a method of the
original without its loop (`Expression` for `parse_expression`) are the specification, methods
(`ParseExpression`) are the algorithm. Where a loop of the original has a long body, one round of it is a
method of its own (`ParseRound`, `ParsePostfixRound`, `ReadToken`). The ghost fields `active` and `most` of the
parser count calls and are not part of the original.

## Model

| member | source | states |
|---|---|---|
| SpelLexer.ReadIdentifier | crates/spel/src/lexer.rs:148-160 | the scan stops after the longest run of name characters |
| SpelLexer.ReadNumber | crates/spel/src/lexer.rs:162-199 | the loop reads the number that `NumberToken` describes: digits, one point followed by a digit, a long suffix, an error from 2^63 on |
| SpelLexer.ReadString | crates/spel/src/lexer.rs:201-233 | the loop reads the body up to the first quote that is not doubled, doubled quotes halved; an unterminated one is an error |
| SpelLexer.ReadToken | crates/spel/src/lexer.rs:66-143 | one round of the main loop reads the first token and its length |
| SpelLexer.Tokenize | crates/spel/src/lexer.rs:61-146 | the loop yields `Lex` of the text: every token valid, or an error |
| SpelText.LexRender | crates/spel/src/lexer.rs:55-146 | any valid tokens, written with spaces between them and quotes doubled, are read back as the same tokens |
| SpelText.FirstSymbolFrom | crates/spel/src/lexer.rs:54-58 | the order of the symbol table is right: no symbol is mistaken for a shorter one listed earlier |
| Decimals.DecimalRoundTrip | crates/spel/src/lexer.rs:194-197 | a written number is read as that number |
| SpelSpellings.MarksAreRead | crates/spel/src/lexer.rs:54-58 | each of the 28 marks, listed with its characters, is read as its symbol |
| SpelSpellings.NamesAreRead | crates/spel/src/lexer.rs:94-117 | a run of ASCII letters, digits, `_` and `$` is read whole as a name if it starts with none of the digits, as a variable behind `#` and as a bean behind `@`, whatever follows |
| SpelSpellings.NumbersAreRead | crates/spel/src/lexer.rs:162-199 | a decimal number below 2^63, with `L` or `l` behind it or without, is read as that number; a greater one is an error |
| SpelSpellings.FractionsAreRead | crates/spel/src/lexer.rs:162-199 | digits, a point and digits are one floating point literal |
| SpelSpellings.SpaceIsSkipped | crates/spel/src/lexer.rs:69-72 | white space of every ASCII kind makes no difference |
| SpelOperators.OperatorsGroup | crates/spel/src/ast.rs:136-148 | for any two of the 22 operators as they are written, in symbols and in words, between any three names: the text is read with the second operator first exactly if that is in a later one of six listed groups, else with the first one first |
| SpelParser.Parser.constructor | crates/spel/src/parser.rs:29-36 | a parser starts at the first token with no nesting |
| SpelParser.Parser.EatSymbol | crates/spel/src/parser.rs:99-107 | consumes one token exactly when it is the symbol |
| SpelParser.Parser.ExpectSymbol | crates/spel/src/parser.rs:85-97 | consumes the symbol or fails with a syntax error without moving |
| SpelParser.Parser.Next | crates/spel/src/parser.rs:74-83 | consumes one token if there is one |
| SpelParser.Parser.PeekBinaryOperator | crates/spel/src/parser.rs:155-184 | the operator that the next token stands for, worded operators included |
| SpelParser.Parser.ParseExpression | crates/spel/src/parser.rs:110-153 | the loop that rebuilds `left` yields the tree, or the error, of the grammar; moves on success; restores the counter; terminates; the most calls that were active at once are those that `OfExpression` computes from the tokens, also when it fails |
| SpelParser.Parser.ParseRound | crates/spel/src/parser.rs:114-149 | one round of that loop extends the expression exactly when the next token binds tightly enough |
| SpelParser.Parser.ParseFallback | crates/spel/src/parser.rs:116-123 | the fallback of an elvis operator is an expression at the loosest level, read by a call of its own |
| SpelParser.Parser.ParseOperation | crates/spel/src/parser.rs:137-149 | the right operand is read one level tighter, by a call of its own |
| SpelParser.Parser.ParseChoice | crates/spel/src/parser.rs:124-133 | both branches of a ternary, and the colon between them |
| SpelParser.Parser.ParseUnary | crates/spel/src/parser.rs:187-199 | fails at 64 active calls; the counter is the same afterwards, on success and on error |
| SpelParser.Parser.ParseUnaryOperand | crates/spel/src/parser.rs:201-227 | prefix operators `!`, `-`, `not`, or a postfix expression |
| SpelParser.Parser.ParsePostfix | crates/spel/src/parser.rs:229-300 | the loop that rebuilds `node` yields what the grammar says |
| SpelParser.Parser.ParsePostfixRound | crates/spel/src/parser.rs:232-297 | one round: projection, selection, index, property or call |
| SpelParser.Parser.ParseMember | crates/spel/src/parser.rs:267-296 | a property or a method call behind a dot |
| SpelParser.Parser.ParseBracketed | crates/spel/src/parser.rs:233-262 | an expression and its closing bracket |
| SpelParser.Parser.ParseArguments | crates/spel/src/parser.rs:302-315 | no argument, or arguments separated by commas, and the closing parenthesis |
| SpelParser.Parser.ParseItems | crates/spel/src/parser.rs:307-314 | the loop that pushes items yields the items of the grammar |
| SpelParser.Parser.ParsePrimary | crates/spel/src/parser.rs:317-366 | literals, names, parentheses and collections |
| SpelParser.Parser.ParseNamed | crates/spel/src/parser.rs:331-359 | keywords, `T(...)`, helper calls and root names |
| SpelParser.Parser.ParseTypeName | crates/spel/src/parser.rs:369-391 | the loop joins the parts of a dotted name |
| SpelParser.Parser.ParseMapKey | crates/spel/src/parser.rs:441-453 | a name or a string, or nothing and no movement |
| SpelParser.Parser.ParseInlineCollection | crates/spel/src/parser.rs:394-439 | a map if a key and a colon come first, else, after rewinding, a list |
| SpelParser.Parser.ParseKeyValue | crates/spel/src/parser.rs:407-416 | one further entry of a map |
| SpelParser.Parser.ParseEntries | crates/spel/src/parser.rs:402-420 | the loop that pushes entries yields the entries of the grammar |
| SpelParser.ParseSource | crates/spel/src/parser.rs:29-47 | tokenizing and parsing with nothing left over, which is `ParseText`; what the counters of the run come to, for accepted and refused texts, is the cost of the tokens |
| SpelRoundTrip.ParsesExpression | crates/spel/src/parser.rs:110-153 | a printed tree is parsed to that tree at every precedence, whatever follows that does not extend it, if its frames fit |
| SpelRoundTrip.ParsesLeft | crates/spel/src/parser.rs:137-149 | operators of the same level associate to the left |
| SpelRoundTrip.ParsesTernary | crates/spel/src/parser.rs:124-133 | a ternary nests in its branches without parentheses |
| SpelRoundTrip.ParsesElvis | crates/spel/src/parser.rs:116-123 | an elvis chain nests to the right without parentheses |
| SpelRoundTrip.ParsesUnary | crates/spel/src/parser.rs:187-227 | prefix operators and what they apply to |
| SpelRoundTrip.ParsesPostfix | crates/spel/src/parser.rs:229-300 | properties, calls, indexes, projections and selections on any target |
| SpelRoundTrip.ParsesPrimary | crates/spel/src/parser.rs:317-366 | every primary, parenthesised ones included |
| SpelRoundTrip.ParsesEntries | crates/spel/src/parser.rs:402-420 | printed map entries are parsed to those entries |
| SpelRoundTrip.KeyIsNoItem | crates/spel/src/parser.rs:399-422 | the look-ahead never takes a printed list for a map |
| SpelNormalForm.SoundExpression | crates/spel/src/parser.rs:110-153 | whatever is parsed is a tree of the grammar, needs no more nesting printed than it was parsed with, and was read off a prefix with balanced braces |
| SpelNormalForm.SoundTail | crates/spel/src/parser.rs:113-150 | every round of the loop keeps that, although the tree on the left grows |
| SpelNormalForm.SoundPostfixTail | crates/spel/src/parser.rs:232-297 | so does every round of the postfix loop |
| SpelNormalForm.SoundPrimary | crates/spel/src/parser.rs:317-366 | so do primaries, with parentheses dropped |
| SpelNormalForm.SoundTypeName | crates/spel/src/parser.rs:369-391 | the name in `T(...)` is dotted names of letters |
| SpelFrontEnd.RoundTrip | crates/spel/src/parser.rs:29-47 | for every tree of the grammar: its text parses to exactly that tree if and only if it needs at most 64 frames |
| SpelFrontEnd.NormalForm | crates/spel/src/parser.rs:29-47 | for every accepted text: its tree printed with minimal parentheses is accepted and is the same tree |
| SpelFrontEnd.ParsedIsSound | crates/spel/src/parser.rs:49-52 | an accepted tree is in the grammar and fits the limit, and its braces balance |
| SpelFrontEnd.BracesAgree | crates/spel/src/template.rs:74-95 | the splitter's brace depth follows the braces among the tokens, strings with braces and doubled quotes included |
| SpelFrontEnd.ScannersAgree | crates/spel/src/template.rs:47-95 | every accepted expression between `#{` and `}` is split into exactly that one expression |
| SpelNesting.ParenthesesCount | crates/spel/src/parser.rs:187-199 | an instance of `AcceptedExactly`: a number in parentheses is accepted exactly with fewer than 64 pairs |
| SpelNesting.PrintedNesting | crates/spel/src/parser.rs:29-47 | a printed tree nests as deep as it has frames, and no tokens that denote the tree nest less |
| SpelTokenNesting.LimitedExactly | crates/spel/src/parser.rs:187-199 | for any tokens and any depth to start from: what a parser without a limit makes of them if their nesting fits into the levels left, else a syntax error |
| SpelTokenNesting.AcceptedExactly | crates/spel/src/parser.rs:49-52 | any tokens are accepted if and only if a parser without a limit accepts them and their open brackets and pending prefix operators are never more than 64, and then as the same tree |
| SpelTokenNesting.NestExpression | crates/spel/src/parser.rs:110-153 | each expression needs one number of levels at every depth, and that is what the scan of its tokens counts |
| SpelTokenNesting.NestUnary | crates/spel/src/parser.rs:187-199 | so does each operand with its prefix operators |
| SpelTokenNesting.NestPrimary | crates/spel/src/parser.rs:317-366 | so does each primary, with what is inside its brackets |
| SpelLimits.FramesFit | crates/spel/src/parser.rs:49-52 | a printed tree needs at most one frame more than it is high |
| SpelLimits.ShallowIsAccepted | crates/spel/src/parser.rs:49-52 | every tree of height below 64 is accepted as it is printed |
| SpelLimits.SomeTextExactly | crates/spel/src/parser.rs:49-52 | some text denotes a tree if and only if it needs at most 64 frames |
| SpelLimits.NegationsAreRefused | crates/spel/src/parser.rs:49-52 | 64 negations of a number are within the evaluator's limit, and no text denotes them |
| SpelLimits.NegationsAreEvaluated | crates/spel/src/eval.rs:120-126 | so many negations of a number have a value exactly up to 64, else they are too deep |
| SpelSums.LongSumsAreTooDeep | crates/spel/src/eval.rs:120-126 | the text `1 + 1 + ... + 1` is accepted whatever its length, and has a value exactly up to 64 operators, which is the sum |
| SpelTokenNesting.FramesAreNesting | crates/spel/src/parser.rs:187-199 | on accepted tokens the calls of `parse_unary` that are active at once are as many as the tokens nest |
| SpelRuns.ExpressionRuns | crates/spel/src/parser.rs:110-153 | on any tokens, from any depth and level, the calls of `parse_expression` lie between the open branches and a multiple of frames and open branches; if accepted, the branches are those of the tree |
| SpelRuns.RunBounds | crates/spel/src/parser.rs:186-199 | on any tokens, accepted or not: the calls of `parse_expression` active at once are more than the branches open at once, and at most seven times the frames and open branches; on accepted ones the frames are the nesting of the tokens and the branches those of the tree |
| SpelRuns.RunsBoundedTogether | crates/spel/src/parser.rs:186-199 | on any set of texts, the calls are bounded by a multiple of the frames if and only if the open branches are |
| SpelRuns.PrintedRun | crates/spel/src/parser.rs:110-199 | on a printed tree the counters are the measures `Calls`, `Frames` and `Branches` of the tree |
| SpelRuns.ChainRuns | crates/spel/src/parser.rs:116-123 | a chain of any number of elvis operators is accepted, with one frame and one call more than it has operators |
| SpelPrintedCost.CostOfExpression | crates/spel/src/parser.rs:110-153 | reading a printed tree, at any level and whatever follows, takes exactly the calls counted on the tree |
| SpelCalls.CallsOfTree | crates/spel/src/parser.rs:110-199 | for every tree, also one too deep to be accepted: its calls are more than its branches inside each other, and at most seven times its frames and branches together |
| SpelCalls.BoundedTogether | crates/spel/src/parser.rs:186-199 | on any set of trees, the calls counted on them are bounded by a multiple of the frames if and only if the branches are |
| SpelCalls.ChainIsAccepted | crates/spel/src/parser.rs:116-123 | the measures of a chain of elvis operators: one frame, as many branches as operators, one call more |
| SpelTemplate.FindClosingBrace | crates/spel/src/template.rs:74-95 | the loop over `depth` and `quote` finds the brace that `ClosingBrace` defines |
| SpelTemplate.SplitTemplate | crates/spel/src/template.rs:47-71 | the loop that shrinks `rest` yields `Split`, or fails for an unterminated expression |
| SpelTemplate.SplitIsLossless | crates/spel/src/template.rs:47-71 | the parts of a successful split glue back to the template, and are parts a split can yield |
| SpelTemplate.SplitInvertsGlue | crates/spel/src/template.rs:47-71 | gluing well-formed parts and splitting gives the same parts |
| SpelTemplate.SplitConcat | crates/spel/src/template.rs:47-71 | the split of a concatenation whose seam opens no expression joins the two splits |
| SpelTemplate.EvaluateLoop | crates/spel/src/lib.rs:98-114 | the loop that appends to `result` evaluates the parts in order |
| SpelTemplate.EvaluateConcat | crates/spel/src/lib.rs:98-114 | the value of a concatenation is the concatenation of the values, if both exist and the seam opens no expression |
| SpelInterpolation.OneExpression | crates/spel/src/lib.rs:120-129 | a template that is one accepted expression has the value of the expression, not its text |
| SpelInterpolation.PlainText | crates/spel/src/lib.rs:120-123 | a text without `#{` has itself as its value |
| SpelInterpolation.ExpressionInText | crates/spel/src/lib.rs:98-129 | an accepted expression between texts is replaced by its display, and unless both texts are empty the value of the template is that text |
| SpelMeaning.GuardedRefinesMeaning | crates/spel/src/eval.rs:120-286 | at any depth the guarded evaluator says too deep or yields the unguarded outcome; what fits is never refused; what is obtained at some depth is obtained at every smaller one |
| SpelMeaning.DepthIsIrrelevant | crates/spel/src/eval.rs:120-126 | without the guard the depth makes no difference |
| SpelMeaning.SelectionKeepsTruthy | crates/spel/src/eval.rs:219-229 | a selection keeps exactly the items whose verdict is truthy, in order |
| SpelMeaning.SelectedAgain | crates/spel/src/eval.rs:219-229 | selecting from what was selected changes nothing |
| SpelMeaning.SelectionIsIdempotent | crates/spel/src/eval.rs:219-229 | selecting twice with one body means what selecting once means, errors included |
| SpelMeaning.DeMorgan | crates/spel/src/eval.rs:304-325 | negation swaps `and` and `or`, short circuits and errors included |
| SpelLaws.NegatedConditionSwaps | crates/spel/src/eval.rs:249-262 | negating the condition of a ternary swaps its branches, errors included |
| SpelLaws.LogicIsConditional | crates/spel/src/eval.rs:304-325 | `and` and `or` are ternaries with a constant branch, as far as truth goes, short circuits and errors included |
| SpelLaws.ElvisNull | crates/spel/src/eval.rs:263-270 | falling back to null is no fallback |
| SpelLaws.TextsAreOrdered | crates/spel/src/eval.rs:805-807 | the order of texts is total: equal only for the same text, opposite for swapped sides, transitive |
| SpelLaws.TextComparisons | crates/spel/src/eval.rs:395-407 | of two different texts exactly one is `<` the other, and `<` is transitive |
| SpelLaws.SafeNavigation | crates/spel/src/eval.rs:159-173 | `?.` differs from `.` only for null |
| SpelEquality.EqualsIsSymmetric | crates/spel/src/eval.rs:796-803 | equality has no sides, texts compared with numbers included |
| SpelEquality.EqualsItself | crates/spel/src/value.rs:76-93 | a value without floating point numbers equals itself |
| SpelEquality.ListMethodsAgree | crates/spel/src/eval.rs:643-685 | `contains` holds exactly when `indexOf` finds, and `get` of that place is an equal item |
| SpelEvaluator.IndexOf | crates/spel/src/eval.rs:643-685 | the first place of an equal item, or -1 |
| SpelEvaluatorLoops.EvaluateArguments | crates/spel/src/eval.rs:185-188 | the loop evaluates the arguments from the left and stops at the first error |
| SpelEvaluatorLoops.Project | crates/spel/src/eval.rs:210-218 | the loop of a projection, with `#this` bound to each item |
| SpelEvaluatorLoops.Select | crates/spel/src/eval.rs:219-229 | the loop of a selection |
| SpelOperations.ArithmeticIsModular | crates/spel/src/eval.rs:356-391 | sums, differences and products of integers are never errors and differ from the exact ones by a multiple of 2^64 |
| SpelOperations.SubtractionUndoesAddition | crates/spel/src/eval.rs:356-391 | x + y - y and x - y + y are x, overflows included |
| SpelOperations.QuotientAndRemainder | crates/spel/src/eval.rs:378-391 | dividing by zero is an error; else q * y + r is x, r is smaller than y and has the sign of x, and only the least number by -1 overflows, to itself |
| SpelOperations.NegationIsSubtraction | crates/spel/src/eval.rs:230-241 | -x is 0 - x |
| SpelOperations.BooleansCount | crates/spel/src/value.rs:173-200 | in arithmetic with integers true is 1 and false 0, on either side |
| SpelOperations.TextsAreJoined | crates/spel/src/eval.rs:347-351 | adding to a text, or a text, joins the displays of both in their order |
| SpelOperations.ComparisonsAreOpposite | crates/spel/src/eval.rs:330-407 | `>=` is not `<`, `>` is not `<=`, `!=` is not `==`, errors included |
| SpelOperations.OrderIsOfHost | crates/spel/src/eval.rs:395-407 | the four comparisons of what is not two texts follow the one order of the host |
| SpelOperations.FirstDifferenceDecides | crates/spel/src/eval.rs:805-807 | a text is less than a longer one that begins with it, and the first different character decides |
| SpelOperations.EqualityDecides | crates/spel/src/eval.rs:796-803 | values without floating point numbers are equal exactly if they are identical, but that a text equals the integer it is read as |
| SpelOperations.ConditionsChoose | crates/spel/src/value.rs:153-170 | true and `true` in any case of letters choose the first branch; false, null and `false` the second; all else is an error |
| SpelOperations.ProjectedToItself | crates/spel/src/value.rs:202-208 | projecting each item to `#this` or `#root` gives the items of a list, none of null, and else the value alone |
| SpelOperations.KeptItems | crates/spel/src/value.rs:211-222 | selecting by `#this` drops null, false, zero, and empty texts, lists and maps, and keeps all else in its order |
| SpelOperations.SizesOfList | crates/spel/src/eval.rs:425-434 | `size` and `length`, as property and as method, count the items; `empty` and `isEmpty` tell if there is none; `stream` is the list |
| SpelOperations.SizesOfText | crates/spel/src/eval.rs:425-431 | the properties `length` and `empty` of a text |
| SpelOperations.PropertyIsEntry | crates/spel/src/eval.rs:412-414 | a property of a map is what indexing by its name gives |
| SpelOperations.ContainsEach | crates/spel/src/eval.rs:655-660 | `containsAll` holds exactly if `contains` does for each |
| SpelIndexing.ElementOfList | crates/spel/src/eval.rs:451-460 | a list literal indexed by i means what its node i means, and null from its length on |
| SpelIndexing.NegativeIndex | crates/spel/src/eval.rs:451-460 | indexing a list by a negative number is an error |
| SpelIndexing.ElementAtIndexOf | crates/spel/src/eval.rs:445-460 | at the place that `indexOf` gives there is an equal item; if it gives none, no item is equal |
| SpelIndexing.CharacterOfText | crates/spel/src/eval.rs:461-468 | a text indexed by i is its character i, or null |
| SpelIndexing.ValueOfKey | crates/spel/src/eval.rs:278-284 | a map literal indexed by a key is the value that was written last for it, or null |
| SpelHosts.NamesAreLookedUp | crates/spel/src/eval.rs:133-158 | root names, variables and beans are looked up each in its own map and unknown if they are not there; `#this` and `#root` are the item at hand; `T(x)` is its own text |
| SpelHosts.CallsAreAnswered | crates/spel/src/eval.rs:179-208 | a call passes on the values of all arguments: a bare one to the helpers, one on `T(...)` to the static methods, one on null only if it is safe, any other to the methods of the value |
| SpelHosts.MethodsAreOperators | crates/spel/src/eval.rs:536-546 | `equals` of a number or boolean is `==`, `toString` is adding it to the empty text |
| SpelHosts.MatchesAsks | crates/spel/src/eval.rs:332-345 | the right side of `matches` is the pattern |
| SpelHosts.IndexOfScalar | crates/spel/src/eval.rs:472-478 | null has null at every index, a number or boolean none |
| SpelHosts.IndexOfTextAndObject | crates/spel/src/eval.rs:461-471 | a negative index of a text is its first; an object is asked itself |
| SpelHosts.IndexByFloat | crates/spel/src/value.rs:173-200 | indexing by a floating point number is indexing by the integer it is cut to |
| SpelHosts.GetOfList | crates/spel/src/eval.rs:661-667 | `get` is the index, but that a negative number counts as zero |
| SpelHosts.PropertyOfOther | crates/spel/src/eval.rs:412-441 | an object is asked for its properties itself; other properties of other values are unknown |
| SpelHosts.OtherMethodsAreUnknown | crates/spel/src/eval.rs:649-683 | a list has the nine methods listed with their number of arguments, a number or boolean only `toString` and `equals`, null none; all others are unknown |
| SpelHosts.TextsCount | crates/spel/src/value.rs:173-200 | in arithmetic a text counts as the integer it is read as, and is an error if it is none |
| SpelHosts.FloatsAreLeftToHost | crates/spel/src/eval.rs:352-376 | arithmetic, sign, equality and literals of floating point numbers are those of the host, operands in their order |
| SpelHosts.FirstErrorCounts | crates/spel/src/eval.rs:185-188 | the first error among items or arguments is the error of the whole, and comes before that of a receiver |
| SpelHosts.FirstErrorOfMap | crates/spel/src/eval.rs:278-284 | the first error among the entries of a map is the error of the whole |
| SpelArithmetic.DivisionTruncates | crates/spel/src/eval.rs:386-391 | quotient times divisor plus remainder is the dividend, the remainder is smaller than the divisor and has the dividend's sign |
| SpelArithmetic.QuotientFits | crates/spel/src/eval.rs:385-391 | only the least number divided by -1 overflows |
| SpelArithmetic.DivisionIdentity | crates/spel/src/eval.rs:378-391 | the identity holds in wrapping 64-bit arithmetic as well (sections 15.17.2 and 15.17.3 of the Java Language Specification) |
| SpelArithmetic.IdentityParses | crates/spel/src/parser.rs:137-149 | `x / y * y + x % y` is parsed as the sum of a product and a remainder |
| SpelArithmetic.IdentityEvaluates | crates/spel/src/eval.rs:347-393 | that text evaluates to x for all 64-bit x and all y but zero |
| Wraparound.WrappedUnique | crates/spel/src/eval.rs:356-360 | the wrapped value is the only one in range that differs by a multiple of the modulus |
| JavaHash.JavaStringHash | crates/spel/src/eval.rs:884-890 | the loop computes `Hash` |
| JavaHash.HashIsPolynomial | crates/spel/src/eval.rs:883-890 | the hash is Java's documented polynomial as a signed 32-bit value |
| JavaHash.HashConcat | crates/spel/src/eval.rs:884-890 | the hash of s + t is the hash of s times 31 to the length of t, plus the hash of t, wrapped |
| JavaHash.HashFits | crates/spel/src/eval.rs:884-890 | the hash lies between -2^31 and 2^31 and differs from the polynomial by a multiple of 2^32 |
| Utf8.CutIsUtf8 | crates/containerproxy/src/dataplane/inject.rs:84-87 | text cut at a character boundary is text on both sides |
| Utf8.BoundaryIsNear | crates/containerproxy/src/dataplane/inject.rs:139-145 | a boundary is at most three bytes back |
| Utf8Encoding.TextIsEncoded | crates/containerproxy/src/dataplane/inject.rs:70-76 | bytes are text exactly if they are the encodings of some Unicode scalar values as section 3 of RFC 3629 writes them, which are then the only ones |
| TextSearch.FindIn | crates/containerproxy/src/dataplane/inject.rs:106-130 | the first occurrence in a stretch, or none in it |
| ScriptPlacement.PlaceInStretch | crates/containerproxy/src/dataplane/inject.rs:105-137 | searching a buffer is searching the stretch of the document that it holds |
| ScriptPlacement.PlaceNeedsTheFront | crates/containerproxy/src/dataplane/inject.rs:83-87 | withholding a part of a buffer without a place uncovers none |
| ScriptInjection.FloorCharBoundary | crates/containerproxy/src/dataplane/inject.rs:139-145 | the loop finds the last boundary at or before the index |
| ScriptInjection.Floor | crates/containerproxy/src/dataplane/inject.rs:139-145 | it is a boundary and there is none between it and the index |
| ScriptInjection.KeepInBuffer | crates/containerproxy/src/dataplane/inject.rs:83-87 | the cut in the buffer is the cut in the whole document, whatever the chunks were |
| ScriptInjection.WithheldIsShort | crates/containerproxy/src/dataplane/inject.rs:46-47 | seven to ten bytes are withheld, exactly seven of ASCII text, and all of what is shorter |
| ScriptInjection.ScriptInjector.constructor | crates/containerproxy/src/dataplane/inject.rs:49-57 | a new injector has seen, sent and withheld nothing |
| ScriptInjection.ScriptInjector.Push | crates/containerproxy/src/dataplane/inject.rs:65-88 | everything but the tail is sent; the script is put in as soon as, and where, the buffer has a place; a chunk that is not text ends the search; afterwards chunks pass unchanged; the tail never holds a place |
| ScriptInjection.ScriptInjector.Finish | crates/containerproxy/src/dataplane/inject.rs:90-102 | the tail is sent, with the script at the very end if it has not been put in |
| ScriptInjection.ScriptInjector.TryInject | crates/containerproxy/src/dataplane/inject.rs:105-137 | the script goes to the place of the buffer: what place that is, is spelled out by the four rows of `InjectedMarkers`; no slice is off a character boundary |
| ScriptInjection.ScriptInjector.FindAfter | crates/containerproxy/src/dataplane/inject.rs:116-118 | the bracket that closes the tag, searched from the tag |
| ScriptChunks.InjectAll | crates/containerproxy/src/dataplane/inject.rs:65-102 | over a whole run the output is the input with the script exactly once, or the input alone if a chunk that is not text came before a place |
| InjectedMarkers.BehindHead | crates/containerproxy/src/dataplane/inject.rs:105-115 | for any text with `<head>` in any case of letters: the output is the document with `<script src="url"></script>` behind the first one |
| InjectedMarkers.BehindHeadTag | crates/containerproxy/src/dataplane/inject.rs:116-127 | without it: behind the bracket of the first `<head ...>` |
| InjectedMarkers.InFrontOfBodyEnd | crates/containerproxy/src/dataplane/inject.rs:128-135 | without a closed one: in front of the first `</body>` |
| InjectedMarkers.AtTheEnd | crates/containerproxy/src/dataplane/inject.rs:92-102 | without any: at the end |
| ChunkIndependence.RunOverSafe | crates/containerproxy/src/dataplane/inject.rs:65-102 | from any point of a safe document, further chunks that are text lead to the same place, and any others to that place or to none |
| ChunkIndependence.UnsafeCut | crates/containerproxy/src/dataplane/inject.rs:65-102 | every other document has a cut in two texts that leads elsewhere |
| ChunkIndependence.ChunksDoNotMatter | crates/containerproxy/src/dataplane/inject.rs:62-137 | chunks that are text make no difference to the place of the script if and only if the document is safe |
| ChunkIndependence.AlwaysThere | crates/containerproxy/src/dataplane/inject.rs:33-34 | the script is put in whatever the chunks are if and only if the document is all ASCII |
| ChunkIndependence.BytesDoNotMatter | crates/containerproxy/src/dataplane/inject.rs:62-137 | chunks that may end within a character make no difference to the place of the script if and only if the document is safe and all ASCII |
| ChunkIndependence.CutCharacterLosesScript | crates/containerproxy/src/dataplane/inject.rs:67-73 | a safe document whose marker is all in the first chunk, and whose script is lost when the letter behind it is cut |
| ChunkIndependence.PlainHeadIsSafe | crates/containerproxy/src/dataplane/inject.rs:62-137 | a document with no `<head ` and no `</body>` before its first `<head>` is safe |
| ChunkIndependence.LongTagIsUnsafe | crates/containerproxy/src/dataplane/inject.rs:114-127 | two bytes of attributes make a tag unsafe |
| InjectedOutput.ElsewhereIsDifferent | crates/containerproxy/src/dataplane/inject.rs:132-137 | at two places of a document that does not hold it, the script makes two outputs |
| InjectedOutput.OutputDoesNotChange | crates/containerproxy/src/dataplane/inject.rs:62-137 | chunks that are text make no difference to the output if and only if the document is safe, when it does not hold the script and the address has no `<` |
| InjectedOutput.OutputOfBytes | crates/containerproxy/src/dataplane/inject.rs:62-137 | chunks that may end within a character make none if and only if it is safe and all ASCII, under the same condition |
| PortAllocation.FirstFree | crates/containerproxy/src/backend/ports.rs:129-132 | the first free port from a candidate on, and every one before it taken |
| PortAllocation.CandidateIsLeast | crates/containerproxy/src/backend/ports.rs:129-137 | there is no candidate exactly when the range is full; else it is the least free port of the range |
| PortAllocation.MemoryPortRegistry.constructor | crates/containerproxy/src/backend/ports.rs:61-65 | a new registry is empty |
| PortAllocation.MemoryPortRegistry.Add | crates/containerproxy/src/backend/ports.rs:72-79 | a port is added to an owner exactly when nobody has it |
| PortAllocation.MemoryPortRegistry.Release | crates/containerproxy/src/backend/ports.rs:81-83 | the owner and its ports are gone, and nothing else |
| PortAllocation.MemoryPortRegistry.Flatten | crates/containerproxy/src/backend/ports.rs:121-127 | the ports of all owners as one set |
| PortAllocation.PortAllocator.constructor | crates/containerproxy/src/backend/ports.rs:103-113 | an allocator for a registry and a range |
| PortAllocation.PortAllocator.Allocate | crates/containerproxy/src/backend/ports.rs:119-144 | the retry loop and its candidate loop do what `Attempt` says, whatever other callers do in between |
| PortAllocation.AllocateUndisturbed | crates/containerproxy/src/backend/ports.rs:115-144 | undisturbed, it fails exactly when every port of the range is taken, and else hands out and records the least free one |
| PortAllocation.AllocateKeepsOneOwner | crates/containerproxy/src/backend/ports.rs:119-144 | disturbed or not, it keeps one owner per port, and what it hands out is in the range and the caller's |
| PortAllocation.PortAllocator.AddExistingPort | crates/containerproxy/src/backend/ports.rs:147-149 | the port is recorded unless it has an owner |
| PortAllocation.PortAllocator.Release | crates/containerproxy/src/backend/ports.rs:152-154 | exactly the ports of the owner are free again |
| PortAllocation.PortAllocator.OwnedPorts | crates/containerproxy/src/backend/ports.rs:157-159 | the ports of the owner, none if there is no such owner |
| PortAllocation.PortAllocator.AllocatedCount | crates/containerproxy/src/backend/ports.rs:162-164 | the sum over the owners is the number of distinct ports, as long as no port has two owners |
| PortProtocol.StepKeepsInv | crates/containerproxy/src/backend/ports.rs:65-143 | every step of every caller keeps the invariant of the protocol |
| PortProtocol.LossKeepsInv | crates/containerproxy/src/backend/ports.rs:138-141 | a claim fails only because somebody else claimed the port after it was seen free |
| PortProtocol.PortsAreSafe | crates/containerproxy/src/backend/ports.rs:51-55 | in every state of every run a port has one owner, and between two claims of it there is a release of it |
| PortProtocol.GrantsAreSound | crates/containerproxy/src/backend/ports.rs:119-144 | a granted port is in the range, was the least free one when the registry was read, and was claimed for the owner during the call |
| PortProtocol.LossesAreCharged | crates/containerproxy/src/backend/ports.rs:117-143 | the lost attempts of a call are the fault of as many different claims by others, made during the call |
| PortProtocol.FailuresAreExcused | crates/containerproxy/src/backend/ports.rs:119-144 | a call fails only if the range was full when it looked, or at least a hundred claims of others were made during it |
| PortProtocol.UninterruptedCall | crates/containerproxy/src/backend/ports.rs:119-144 | the steps of a call without others in between do what the sequential allocator does |
| PortProtocol.OwnersAreKnown | crates/containerproxy/src/backend/ports.rs:64-83 | in every state of every run an owner has exactly the ports that steps of the run claimed for it since it was released the last time |
| ConfigPaths.ParsePath | crates/containerproxy/src/config/tree.rs:48-74 | the loops yield `Segments` of the path |
| ConfigPaths.SegmentsExtend | crates/containerproxy/src/config/tree.rs:194-211 | a path with one more plain segment is read as one more segment |
| ConfigPaths.PathRoundTrip | crates/containerproxy/src/config/tree.rs:43-74 | plain segments, nested indexes included, are read back from the path that is written for them |
| ConfigPaths.IndexIsRead | crates/containerproxy/src/config/tree.rs:61-64 | digits behind a bracket, with a plus or without, and with any number of closing brackets, are an index below 2^64 and else a key |
| ConfigPaths.OddKeyIsRead | crates/containerproxy/src/config/tree.rs:65-66 | what is no number there is a key, with its brackets |
| ConfigTree.RelaxedIndex | crates/containerproxy/src/config/tree.rs:85-92 | an entry of the same name, or none has it |
| ConfigTree.SpellingComesFirst | crates/containerproxy/src/config/tree.rs:85-92 | a key spelled the same is preferred; without one, the first of the same name |
| ConfigSpellings.MarksAreIgnored | crates/containerproxy/src/config/tree.rs:77-82 | a `-` or `_` put in anywhere leaves the name the same |
| ConfigSpellings.LettersDecide | crates/containerproxy/src/config/tree.rs:77-82 | names without them are the same exactly if they have the same ASCII letters, in capitals or not, and the same other characters |
| ConfigTree.Get | crates/containerproxy/src/config/tree.rs:95-108 | the loop over the segments yields `GetAt` |
| ConfigTree.GetAfterSet | crates/containerproxy/src/config/tree.rs:127-167 | what is set at a path is found there, whatever the tree was |
| ConfigTree.SetTwice | crates/containerproxy/src/config/tree.rs:127-167 | a second value replaces the first without a trace |
| ConfigTree.SetSame | crates/containerproxy/src/config/tree.rs:127-167 | setting what is there changes nothing |
| ConfigTree.SetElsewhere | crates/containerproxy/src/config/tree.rs:127-167 | nothing changes at a path that parts at a key of another name |
| ConfigTree.SetApart | crates/containerproxy/src/config/tree.rs:127-167 | what is found at a path that parts at a key of another name or at another index stays; where nothing was, null may come by padding, at a smaller last index |
| ConfigLayers.MergeTrees | crates/containerproxy/src/config/tree.rs:170-185 | the loop over the overlay's entries yields `Merge` |
| ConfigLayers.MergeAnswers | crates/containerproxy/src/config/tree.rs:169-185 | a merged tree answers every path from the overlay where that decides it, and from the base where it is silent |
| ConfigLayers.MergeKeepsDistinct | crates/containerproxy/src/config/tree.rs:170-185 | along any path, merging makes no second key of the same name |
| ConfigLayers.LoadLayers | crates/containerproxy/src/config/loader.rs:214-263 | the files are merged in order, then the environment and the arguments are set |
| ConfigLayers.LayersAnswer | crates/containerproxy/src/config/loader.rs:237-255 | any number of files answer together as their verdicts say |
| ConfigLayers.LastDecides | crates/containerproxy/src/config/loader.rs:237-255 | the last file that decides a path decides it |
| ConfigLayers.AllSilent | crates/containerproxy/src/config/loader.rs:237-255 | where all profiles are silent the main file answers |
| ConfigLayers.Precedence | crates/containerproxy/src/config/loader.rs:214-263 | arguments come before the environment, that before the profiles, those before the main file; settings of other keys and of other array elements make no difference, but that a missing element may become null |
| ConfigFlatten.FlattenInto | crates/containerproxy/src/config/tree.rs:194-213 | the loops append the scalars below a value with their paths |
| ConfigFlatten.Flatten | crates/containerproxy/src/config/tree.rs:188-192 | the scalars of a tree with their paths |
| ConfigFlatten.SetBelow | crates/containerproxy/src/config/tree.rs:127-167 | setting along a longer path is setting inside what is at the shorter one |
| ConfigFlatten.Rebuild | crates/containerproxy/src/config/tree.rs:127-213 | setting the flattened scalars one after the other, from nothing, gives the tree again, with its order |
| ConfigSchema.CoversExactly | crates/containerproxy/src/config/schema.rs:434-437 | comparing joined paths as strings is comparing lists of names |
| ConfigSchema.DefinitionNames | crates/containerproxy/src/config/schema.rs:438-442 | a well-formed definition spells each of its names |
| ConfigSchema.SpellingIsSameName | crates/containerproxy/src/config/schema.rs:428-449 | the proposed spelling is one of the last name of the path |
| ConfigSchema.NamesOfChild | crates/containerproxy/src/config/schema.rs:486-502 | a key adds its canonical name to a path |
| ConfigSchema.NamesOfMarked | crates/containerproxy/src/config/schema.rs:486-502 | `[]` adds none |
| ConfigSpellings.IndexesAreNoNames | crates/containerproxy/src/config/schema.rs:486-502 | nor does an index |
| ConfigSpellings.KnownKeysAreSpelled | crates/containerproxy/src/config/schema.rs:428-449 | in any well-formed schema: if a definition begins with the names of a key, the key is afterwards found exactly as the first such definition writes that part, without `[]`, with its value normalised below it, or as it was below a free-form map |
| ConfigSpellings.UnknownKeysAreKept | crates/containerproxy/src/config/schema.rs:428-449 | if none does, the key is spelled as before |
| ConfigSpellings.FreeFormExactly | crates/containerproxy/src/config/loader.rs:444-446 | a key is that of a free-form map exactly if the first definition with its names says so |
| ConfigNormalize.NormalizeTree | crates/containerproxy/src/config/loader.rs:433-469 | the loop over the keys and the one over the items yield `Normalize` |
| ConfigNormalForm.EntriesAreRenamed | crates/containerproxy/src/config/loader.rs:435-460 | removing and inserting key by key renames every entry of a map once, whatever is below its keys; only their order differs besides |
| ConfigNormalForm.LookupsAreKept | crates/containerproxy/src/config/loader.rs:429-469 | every relaxed lookup finds the same scalar, a container of the same kind and size, or nothing, as before; the keys of the maps on the way need to be good only outside free-form maps |
| ConfigNormalForm.FreeFormIsKept | crates/containerproxy/src/config/loader.rs:444-457 | what is below a free-form map is exactly as before, whatever its keys are |
| ConfigNormalForm.NormalizedIsTidy | crates/containerproxy/src/config/loader.rs:433-469 | outside free-form maps keys stay plain and of different names |
| ConfigNormalForm.KeysAreSpelled | crates/containerproxy/src/config/loader.rs:443-449 | afterwards every key of the tree that the schema knows is spelled its way, outside free-form maps |
| ConfigNormalForm.NormalizedTwice | crates/containerproxy/src/config/loader.rs:433-469 | normalising again changes at most the order of entries |
| ConfigOrder.OrderIsExact | crates/containerproxy/src/config/loader.rs:436-459 | the order of entries afterwards: the entry before the last one has moved to the front, all others are in their order |
| ConfigOrder.NormalizedIsTree | crates/containerproxy/src/config/loader.rs:448-458 | for any tree: no key comes twice in a map afterwards, even if several keys of it get one spelling |
| ConfigOrder.OneKeySurvives | crates/containerproxy/src/config/loader.rs:448-458 | of two keys with one spelling the second survives, unless it was spelled so before: then the first does |
| Placeholders.ResolvePlaceholdersIn | crates/containerproxy/src/config/loader.rs:515-575 | the loop that appends to `result` yields `Resolve`, and terminates |
| PlaceholderSources.ValueOrDefault | crates/containerproxy/src/config/loader.rs:537-556 | behind any text without `${`: `${name:default}`, with white space around the name or without, stands for the environment variable of that spelling if there is one, else the variable in capitals with `_` for `.` and `-`, else the property, else the default with its later colons; that is resolved one level deeper, and the text behind is resolved too |
| PlaceholderSources.ValueOrUnchanged | crates/containerproxy/src/config/loader.rs:537-561 | `${name}` the same, but that it stays as it is written if no source has the name |
| PlaceholderSources.PlainValues | crates/containerproxy/src/config/loader.rs:515-575 | the same with values without placeholders, at every depth below eight, as a formula |
| PlaceholderSources.PropertyIsText | crates/containerproxy/src/config/tree.rs:113-121 | in a tree: a text stands for itself, a boolean is written out, null and a missing property leave the placeholder |
| PlaceholderSources.TooDeepAtTen | crates/containerproxy/src/config/loader.rs:522-526 | resolving from the start fails exactly if ten texts lead from one to the next |
| PlaceholderChains.PiecesAreLossless | crates/containerproxy/src/config/loader.rs:529-573 | the pieces that the scan finds write out to the text |
| PlaceholderChains.UnboundIsUnchanged | crates/containerproxy/src/config/loader.rs:532-561 | text none of whose placeholders has a value or a default stays as it is, unbalanced ones included |
| PlaceholderChains.ShallowerIsSame | crates/containerproxy/src/config/loader.rs:515-526 | what resolves at a depth resolves to the same at every smaller one |
| PlaceholderChains.FailsExactlyWhenTooDeep | crates/containerproxy/src/config/loader.rs:522-526 | resolving fails if and only if values lead to values more often than there are levels left |
| PlaceholderChains.CycleFails | crates/containerproxy/src/config/loader.rs:522-526 | text that leads into a circle of values is an error at every depth |
| ConfigPlaceholders.ResolvePlaceholders | crates/containerproxy/src/config/loader.rs:492-513 | the loop over the flattened texts sets what they resolve to, and stops at the first error |
| ConfigPlaceholders.TreeIsPatched | crates/containerproxy/src/config/loader.rs:492-513 | for any tree: the chosen texts are replaced in their places and nothing else changes; it fails exactly when one of them fails |
| ConfigPlaceholders.ChosenExactly | crates/containerproxy/src/config/loader.rs:496-508 | a text with placeholders is chosen exactly when the path written for some text leads to it |
| ConfigPlaceholders.KeysDecide | crates/containerproxy/src/config/loader.rs:496-508 | below keys that are read as they are written every text with placeholders is chosen; below a key with a dot none is |
| ConfigPlaceholders.TextsChange | crates/containerproxy/src/config/loader.rs:491-513 | what becomes of the value at any place: resolved below readable keys, left below a key with a dot, containers and other scalars kept |
| ConfigPlaceholders.DottedKeyIsLeft | crates/containerproxy/src/config/loader.rs:501-508 | the text below `a.b` keeps its placeholder whatever that is bound to |
| ConfigPlaceholders.KeysAboveAreNotEnough | crates/containerproxy/src/config/loader.rs:501-508 | below a key such as `-[x]` the keys above do not settle it: the same place is chosen in one tree and not in another |
| ConfigPlaces.GetIsAt | crates/containerproxy/src/config/tree.rs:95-108 | looking up a path is going to its place |
| ConfigPlaces.SetIsReplace | crates/containerproxy/src/config/tree.rs:127-167 | setting a path that leads to a place replaces what is there and nothing else |
| ConfigPlaces.ScalarIsListed | crates/containerproxy/src/config/tree.rs:188-213 | every scalar of a tree is listed with the path of its place |
| ConfigPlaces.WrittenPathIsRead | crates/containerproxy/src/config/tree.rs:194-213 | the path written for a place below readable keys is read as the steps to it |
| ConfigPlaces.NoPathThroughDot | crates/containerproxy/src/config/tree.rs:95-108 | what is read from a path never leads below a key with a dot |
| ConfigLoading.MergeIsTidy | crates/containerproxy/src/config/tree.rs:169-185 | merging keeps trees tidy, outside free-form maps, although the base decides how a name is spelled |
| ConfigLoading.SetIsTidy | crates/containerproxy/src/config/tree.rs:127-167 | so does setting a property whose keys are good outside free-form maps |
| ConfigLoading.LoadIsTidy | crates/containerproxy/src/config/loader.rs:214-263 | tidy files and properties load to a tidy tree |
| ConfigLoading.LoadIsTree | crates/containerproxy/src/config/loader.rs:214-263 | no key comes twice in a map of the merged tree |
| ConfigLoading.FinishAnswers | crates/containerproxy/src/config/loader.rs:265-269 | every path finds in the final tree what it found in the merged one, with its placeholders resolved; in a free-form map they may be left |
| ConfigLoading.LoadAnswers | crates/containerproxy/src/config/loader.rs:181-269 | all stages together: a path untouched by settings, those of other array elements aside, finds what the last file that decides it says (or null for a missing element), a property of the environment or the command line what was set last, in both cases with placeholders resolved |

## Left out

- Floating point: literals keep their digits, values are opaque bit patterns, and arithmetic, comparison and display of them are functions of `SpelValue.Host`. So are `matches`, the methods of strings, maps and objects, the helper functions and `T(...)` calls.
- Ordering: texts are compared as texts; all else that `<` and its kin compare goes through floating point in the original (crates/spel/src/eval.rs:805-816) and is a function of `SpelValue.Host`, so no ordering of 64-bit integers is claimed.
- `Math.abs` of the least integer, whose result depends on how the original is built.
- Characters beyond ASCII outside string literals, which the lexer reads byte by byte; `canonical_name` and `env_name` change the case of ASCII letters only.
- Token positions, messages, and the expression attached to an error. `TooDeep` is told apart from other evaluation errors, which the original does not do. In templates all errors are one (`None`).
- SpelEvaluator.Evaluate: the loops of the original over arguments, projections and selections are the methods of `SpelEvaluatorLoops`; those over list and map literals are modelled as functions only.
- ConfigTree.SetAt: `set` moves a mutable cursor down the tree; the model builds the new tree from values, so aliasing and update in place are not captured. The same holds for `merge`, `normalize_keys` and `resolve_placeholders`, whose loops are modelled on values.
- ConfigTree.RelaxedIndex: with two keys of one name in a map the model follows the code (the same spelling first, else the first of the name), but what layers answer is stated for paths with no such map above their end, normalisation for trees without one outside free-form maps, and rebuilding for trees without one.
- ConfigLayers.LoadLayers: the files, the environment and the command line are lists of trees and properties; how `apply_env` and `parse_args` find the properties is not modelled.
- ConfigLayers.Precedence: a path that an argument sets in part (a longer or shorter path) is covered by `GetAfterSet` and `SetBelow`, not by the precedence result.
- InjectedOutput.OutputDoesNotChange: in a document that already holds the script different places can give the same output; for those only the place is decided (`ChunkIndependence.ChunksDoNotMatter`).
- PortProtocol.PortsAreSafe: the registry's lock makes each read, claim and release one step; a poisoned lock is not modelled. The registry on Redis is not part of this model.
- Reading files, YAML, environment variables and command lines: `load` is modelled from parsed trees and lists of properties. The static table of properties is any list of definitions with well-formed paths.
- `unknown_properties` and `is_known`, which only report, and `array_groups`, which only `apply_env` needs.
- All network, container and process code, JavaScript, pages, logging and benchmarks.
