# AL parser session engine, syntax-tree node and three productions

This project models the core of the parser in AL-Language-Tools, a toolkit for
the AL language of Business Central. It covers three parts.

- **The parse-session engine `AlParser`.** It holds:
  - the sticky error flag `State`;
  - the `HasErrors` flag;
  - the registry of start tokens already reported;
  - the error-listener and trace-listener lists.

  Its four `ValidateToken` overloads drive a small state machine. A mismatch
  reports an error only from the clean state (0) and then enters the error
  state (1). A match returns to the clean state. `GenerateParserError`
  reports each start token at most once. The engine also has:
  - the rule-name table;
  - the "expected one of" message builder `FormatSetError`;
  - the recovery scan `ScanTillSymbolReached`.
- **The generic syntax-tree node `ParserRule`.** It is an ordered child list
  with a back-link from each child to its parent. `Start` and `End` come from
  the first and last child, and `GetText` joins the children's texts.
- **Three productions that run on the engine:**
  - `Dictionary of [K, V]` (`DictionaryDeclarationRule`), with its own spacing rule for text;
  - the set expression `[ expr ]` (`SetExpressionRule`);
  - the date literal (`DateLiteralRule`).

How the parts are modelled:

- **Values:** tokens, sessions, verdicts and node records are datatypes.
- **Updates in place:** the parser, the token stream and the tree are classes.
  Their methods are proved against pure functions.
  - Each `AlParser` validation method ends in the session that
    `ErrorEngine.Validate` computes from the old session. It appends exactly
    `Deliveries(errorListeners, raised)` to the error log.
  - The cascade properties are proved on `ErrorEngine.Trace`, a run of
    validations:
    - at most one diagnostic per cascade;
    - at most one per anchor token;
    - the registry only grows;
    - HasErrors is sticky.
- **Listeners** are append-only logs of deliveries. Each delivery records a
  listener and a message.
- **Tree nodes** live in one `SyntaxTree`. They refer to each other by index,
  and each child has a larger index than its parent.
- **Sub-rules** are uninterpreted boolean verdicts. Their code is not part of
  this model: `IdentifierRule`, `SymbolRule`, `VariableTypeDeclarationRule`,
  `ExpressionBuilder`, `ProcessRuleAndAdvance` and the literal `Validator`.

Where the documentation comments and the code disagree, the model follows the code:

- The allowed-values overload of `ValidateToken` fails when the token's value
  IS one of the allowed values.
- `FormatSetError` repeats the second item in every interior position.
- `ParseSource` clears only the result and HasErrors.
- `Reset` does not clear the registry.

The allowed-values test and `FormatSetError` are listed under Findings. The
`ParseSource` and `Reset` behaviour is recorded here only, because it is
incomplete rather than wrong.

## Model

| member | source | states |
|---|---|---|
| Tokens.LiteralTokenKind | Org.Edgerunner.BC.AL/Language/Tokens/LiteralToken.cs:52-58 | a literal token always reports the kind Literal and keeps the literal type it was built with |
| ErrorEngine.ReportError | Org.Edgerunner.BC.AL/Language/Parsers/AlParser.cs:289-298 | HasErrors is set and State is untouched; the registry gains the start token; one error is raised exactly when the start token was not registered before |
| ErrorEngine.Validate | Org.Edgerunner.BC.AL/Language/Parsers/AlParser.cs:186-200 | a null token fails and changes nothing; a matching token succeeds, sets State 0 and raises nothing; a mismatch fails, sets State 1 and HasErrors, and raises an error iff State was 0 and the token is not registered; at most one error, for that token and message; the registry only grows; HasErrors never drops |
| ErrorEngine.RegistryGrows | Org.Edgerunner.BC.AL/Language/Parsers/AlParser.cs:289-298 | along any run of validations the registry only grows |
| ErrorEngine.StaysSticky | Org.Edgerunner.BC.AL/Language/Parsers/AlParser.cs:94-105 | once in the error state, or after a mismatch, State stays non-zero until a validation succeeds |
| ErrorEngine.OnePerCascade | Org.Edgerunner.BC.AL/Language/Parsers/AlParser.cs:191-195 | between any two validations that announce an error, some validation succeeded |
| ErrorEngine.OnePerAnchor | Org.Edgerunner.BC.AL/Language/Parsers/AlParser.cs:292-296 | two announcements in one run have different start tokens, and neither start token had been reported before the run |
| ErrorEngine.HasErrorsAfter | Org.Edgerunner.BC.AL/Language/Parsers/AlParser.cs:98-104 | after a run HasErrors holds iff it held before or some validation failed on a real token |
| ErrorEngine.FailFailSucceedFail | Org.Edgerunner.BC.AL/Language/Parsers/AlParser.cs:186-200 | from a clean session, fail, fail, succeed, fail on fresh distinct anchors announce exactly two errors: the first and the last |
| Listeners.BroadcastAt | Org.Edgerunner.BC.AL/Language/Parsers/AlParser.cs:297 | the i-th delivery of an announcement goes to the i-th listener: every listener, in list order |
| Listeners.RemoveFirst | Org.Edgerunner.BC.AL/Language/Parsers/AlParser.cs:123-126 | removing a listener drops its first registration and keeps the others in order; an unregistered listener leaves the list unchanged |
| AlParsers.GetRuleName | Org.Edgerunner.BC.AL/Language/Parsers/AlParser.cs:170-173 | the name is the table's non-empty entry for the node type |
| AlParsers.RuleNames | Org.Edgerunner.BC.AL/Language/Parsers/AlParser.cs:46-78 | every node type has a table entry, and the modelled productions' types map to "Dictionary Declaration", "Set Expression" and "Date" |
| AlParsers.AllowedValuesTestInverted | Org.Edgerunner.BC.AL/Language/Parsers/AlParser.cs:213-227 | as written, a token of the right kind fails when its value is one of the allowed values and passes when it is not |
| AlParsers.LiteralOverloadVerdict | Org.Edgerunner.BC.AL/Language/Parsers/AlParser.cs:264-286 | a token that is not a literal token fails; a literal token passes iff its literal type is the expected one |
| AlParsers.SetPhraseShape | Org.Edgerunner.BC.AL/Language/Parsers/AlParser.cs:321-331 | one item gives "a"; two give "a" or "b"; three or more give the first item, the second item once per interior position, then or and the last item |
| AlParsers.PhraseIgnoresInterior | Org.Edgerunner.BC.AL/Language/Parsers/AlParser.cs:329 | as written, for three or more items the phrase depends only on the count and the first, second and last items |
| AlParsers.PhraseListsAllWhenInteriorUniform | Org.Edgerunner.BC.AL/Language/Parsers/AlParser.cs:329 | when every interior item equals the second, the phrase is the plain listing of all the items |
| AlParsers.FourItemPhrase | Org.Edgerunner.BC.AL/Language/Parsers/AlParser.cs:329-330 | as written, the items a, b, c, d give "a", "b", "b" or "d" |
| AlParsers.FourItemListing | Org.Edgerunner.BC.AL/Language/Parsers/AlParser.cs:329-330 | the intended listing of a, b, c, d is "a", "b", "c" or "d" |
| AlParsers.AlParser.constructor | Org.Edgerunner.BC.AL/Language/Parsers/AlParser.cs:40-44 | a new parser is clean: State 0, no errors, an empty registry, no listeners and no result |
| AlParsers.AlParser.SetState | Org.Edgerunner.BC.AL/Language/Parsers/AlParser.cs:94-105 | State takes the value; storing 1 forces HasErrors; any other value leaves HasErrors alone |
| AlParsers.AlParser.Reset | Org.Edgerunner.BC.AL/Language/Parsers/AlParser.cs:159-163 | State becomes 0 and HasErrors false; the registry and listeners are untouched |
| AlParsers.AlParser.ParseSource | Org.Edgerunner.BC.AL/Language/Parsers/AlParser.cs:151-156 | the result becomes null, HasErrors false, and the parse reports failure; State and the registry are untouched |
| AlParsers.AlParser.AddErrorListener | Org.Edgerunner.BC.AL/Language/Parsers/AlParser.cs:111-114 | the listener is appended to the error listeners |
| AlParsers.AlParser.ClearErrorListeners | Org.Edgerunner.BC.AL/Language/Parsers/AlParser.cs:117-120 | the error listeners become empty |
| AlParsers.AlParser.RemoveErrorListener | Org.Edgerunner.BC.AL/Language/Parsers/AlParser.cs:123-126 | the first registration of the listener is removed |
| AlParsers.AlParser.AddTraceListener | Org.Edgerunner.BC.AL/Language/Parsers/AlParser.cs:129-132 | the listener is appended to the trace listeners |
| AlParsers.AlParser.ClearTraceListeners | Org.Edgerunner.BC.AL/Language/Parsers/AlParser.cs:135-138 | the trace listeners become empty |
| AlParsers.AlParser.RemoveTraceListener | Org.Edgerunner.BC.AL/Language/Parsers/AlParser.cs:141-144 | the first registration of the listener is removed |
| AlParsers.AlParser.GenerateParserError | Org.Edgerunner.BC.AL/Language/Parsers/AlParser.cs:289-298 | HasErrors is set and the registry gains the start token; a registered start token delivers nothing; otherwise every error listener receives the error once, in list order |
| AlParsers.AlParser.GenerateTraceEvent | Org.Edgerunner.BC.AL/Language/Parsers/AlParser.cs:301-304 | every trace listener receives the message once, in list order; nothing else changes |
| AlParsers.AlParser.TraceToken | Org.Edgerunner.BC.AL/Language/Parsers/AlParser.cs:337-349 | Enter, Exit and Consume announce the event on the token under the table name of the node type |
| AlParsers.AlParser.ValidateTokenValue | Org.Edgerunner.BC.AL/Language/Parsers/AlParser.cs:186-200 | the new session, verdict and error deliveries are Validate's, for the test "kind and value as expected" |
| AlParsers.AlParser.ValidateTokenOneOf | Org.Edgerunner.BC.AL/Language/Parsers/AlParser.cs:213-227 | the same as Validate, for the code's test: the kind is as expected and the value is not among the allowed values |
| AlParsers.AlParser.ValidateTokenOneOfCorrected | Org.Edgerunner.BC.AL/Language/Parsers/AlParser.cs:213-227 | the documented test: the result is true iff the token is present, of the expected kind, and its value is one of the allowed values; otherwise as Validate |
| AlParsers.AlParser.ValidateTokenKind | Org.Edgerunner.BC.AL/Language/Parsers/AlParser.cs:238-252 | the same as Validate, for the test "kind as expected" |
| AlParsers.AlParser.ValidateTokenLiteral | Org.Edgerunner.BC.AL/Language/Parsers/AlParser.cs:264-286 | the same as Validate, for the test "a literal token of the expected literal type"; both failure branches behave alike |
| AlParsers.AlParser.FormatSetError | Org.Edgerunner.BC.AL/Language/Parsers/AlParser.cs:315-335 | no items return the message unchanged; otherwise the message is formatted with the listing of the quoted items the code names (interior items replaced by the second) and the encountered text |
| AlParsers.AlParser.FormatSetErrorCorrected | Org.Edgerunner.BC.AL/Language/Parsers/AlParser.cs:315-335 | the message is formatted with the listing of every quoted item, in order |
| AlParsers.AlParser.ScanTillSymbolReached | Org.Edgerunner.BC.AL/Language/Parsers/AlParser.cs:351-361 | the stream only moves forward; every skipped token is neither a Symbol nor a terminator; it stops on a Symbol or terminator, or on the last token |
| AlParsers.CascadeScenario | Org.Edgerunner.BC.AL/Language/Parsers/AlParser.cs:186-200 | on a fresh parser with one listener, kind checks that fail, fail, succeed and fail deliver exactly two errors, for the first and the last token |
| ParserRules.Attach | Org.Edgerunner.Language.Parsers/ParserRule.cs:60-64 | the child's parent becomes the receiver and the child is appended to its children; no other parent, child list, type or kind changes |
| ParserRules.AdoptShape | Org.Edgerunner.Language.Parsers/ParserRule.cs:60-64 | creating and attaching a fresh node appends it to the parent's children, changes no other node, and keeps the tree well formed and linked |
| ParserRules.TextAfterAttach | Org.Edgerunner.Language.Parsers/ParserRule.cs:93-108 | attaching a child appends the child's text to the parent's text |
| ParserRules.StartEndAfterAttach | Org.Edgerunner.Language.Parsers/ParserRule.cs:67-88 | after attaching, End is the new child's End; Start changes only when the parent had no children |
| ParserRules.AttachKeepsLinks | Org.Edgerunner.Language.Parsers/ParserRule.cs:60-64 | attaching a node that has no parent keeps every child's parent link right |
| ParserRules.SyntaxTree.NewRule | Org.Edgerunner.Language.Parsers/ParserRule.cs:48-51 | a new node has the given type, no parent and no children; no other node changes |
| ParserRules.SyntaxTree.AddChildNode | Org.Edgerunner.Language.Parsers/ParserRule.cs:60-64 | the tree becomes Attach of the old one; earlier children are unchanged and the count grows by one; links stay right for an orphan node |
| ParserRules.SyntaxTree.AddNewChild | Org.Edgerunner.BC.AL/Language/Parsers/Rules/Code/Source/Expressions/SetExpressionRule.cs:49 | AddChildNode of a new node: the node takes the next index and is attached; links stay right |
| ParserRules.SyntaxTree.GetText | Org.Edgerunner.Language.Parsers/ParserRule.cs:93-108 | the result is Text: empty for no children, the only child's text for one, the in-order concatenation otherwise |
| ParserRules.SyntaxTree.ToString | Org.Edgerunner.Language.Parsers/ParserRule.cs:111-114 | ToString equals GetText |
| DictionaryDeclarations.RunSteps | Org.Edgerunner.BC.AL/Language/Parsers/Rules/Code/Variables/DictionaryDeclarationRule.cs:57-83 | steps run in the order of, [, key type, comma, value type, ]; the first failing step before ] ends with false; a failing ] only clears the result; true iff all steps pass |
| DictionaryDeclarations.Parse | Org.Edgerunner.BC.AL/Language/Parsers/Rules/Code/Variables/DictionaryDeclarationRule.cs:44-89 | the node is attached to its parent on every path; Enter, Match, Exit are announced in that order on every path; the stream moves as TryMoveNext; no move means false; the keyword verdict is ignored; true iff moved and all steps pass |
| DictionaryDeclarations.SpacedTextSnoc | Org.Edgerunner.BC.AL/Language/Parsers/Rules/Code/Variables/DictionaryDeclarationRule.cs:97-105 | each later child adds one space, when the rule asks for it, and then its text |
| DictionaryDeclarations.SpacedTextIsWeave | Org.Edgerunner.BC.AL/Language/Parsers/Rules/Code/Variables/DictionaryDeclarationRule.cs:101-103 | the text has exactly one space before each later text that is not ;, , or ] and does not follow [, and none elsewhere |
| DictionaryDeclarations.WeaveStartsWithFirst | Org.Edgerunner.BC.AL/Language/Parsers/Rules/Code/Variables/DictionaryDeclarationRule.cs:94-95 | the text starts with the first child's text |
| DictionaryDeclarations.WeaveWithoutSpaces | Org.Edgerunner.BC.AL/Language/Parsers/Rules/Code/Variables/DictionaryDeclarationRule.cs:93-107 | with the inserted spaces deleted the text is the plain in-order concatenation |
| DictionaryDeclarations.SpacedTextShape | Org.Edgerunner.BC.AL/Language/Parsers/Rules/Code/Variables/DictionaryDeclarationRule.cs:93-107 | the dictionary text is the children's texts woven with the spacing rule's gaps; it starts with the first child's text, and without its spaces it is the plain concatenation |
| DictionaryDeclarations.DeclarationText | Org.Edgerunner.BC.AL/Language/Parsers/Rules/Code/Variables/DictionaryDeclarationRule.cs:91-108 | the children Dictionary, of, [, Integer, comma, Text, ] read "Dictionary of [Integer, Text]" |
| DictionaryDeclarations.GetText | Org.Edgerunner.BC.AL/Language/Parsers/Rules/Code/Variables/DictionaryDeclarationRule.cs:91-108 | the loop over the children yields the spaced text of the children's texts |
| SetExpressions.BuiltShape | Org.Edgerunner.BC.AL/Language/Parsers/Rules/Code/Source/Expressions/SetExpressionRule.cs:49-55 | [ is attached even when its step fails; a failing [ adds no expression; otherwise the new children are [, expression, ] in order; no other node changes |
| SetExpressions.BuiltKeepsLinks | Org.Edgerunner.BC.AL/Language/Parsers/Rules/Code/Source/Expressions/SetExpressionRule.cs:49-55 | the resulting tree is well formed and keeps its parent links right |
| SetExpressions.Parse | Org.Edgerunner.BC.AL/Language/Parsers/Rules/Code/Source/Expressions/SetExpressionRule.cs:40-64 | the tree becomes Built for the [ verdict; true iff both bracket steps pass; Enter then Exit on every path; the stream is not moved |
| DateLiterals.Parse | Org.Edgerunner.BC.AL/Language/Parsers/Rules/Terminals/DateLiteralRule.cs:48-69 | the result is the validator's verdict on the current token for Date; on success the node is attached and Consume then Match is announced between Enter and Exit; on failure the tree is unchanged and only Enter, Exit are announced; the stream is untouched |

## Left out

- Listener callbacks (`AnnounceError`, `AnnounceTraceMessage`) are external observers. They are modelled as append-only logs of (listener, message) deliveries.
- The sub-rules are uninterpreted verdicts in `SubRules.Oracles`: `IdentifierRule`, `SymbolRule`, `VariableTypeDeclarationRule`, `ExpressionBuilder`, `ProcessRuleAndAdvance` and `Validator`. Their own effects on the token stream, the tree, the trace logs and the error session are not modelled.
- DictionaryDeclarations.Parse: `ProcessRuleAndAdvance` updates `token` and `parsed` by reference. Here the stream only moves by the one `TryMoveNext`, every step sees the token after that move, and `parsed` changes only at the closing bracket.
- SetExpressions.Parse: `ProcessRuleAndAdvance` updates `token` and `parsed` by reference; that update is not modelled. The result is true exactly when both bracket steps pass, and the stream is not moved. The expression that `ExpressionBuilder.BuildRule` returns is modelled as a fresh childless Expression node. Both bracket nodes hold the token current at entry.
- DateLiterals.Parse: the error message built with `string.Format` is not passed to the validator oracle. A null current token reaches the validator as None; the dereference of its value at DateLiteralRule.cs:54 is not modelled.
- `AlParserRule` (not part of this model): its `Enter`, `Match` and `Exit` on the parser context are modelled as trace events about the rule node, named as the rule is constructed. The same holds for the two-argument `GenerateTraceEvent` overloads the productions use.
- `AlTerminalNode` (not part of this model): a terminal's Start and End are its token, and its text is the token's value, or empty without a token.
- ParserRules.Text is the generic `GetText`. It does not dispatch to the Dictionary override, which is modelled separately on the children's texts.
- ParserRules.SyntaxTree.AddChildNode requires the child to have been created after the parent. The source does not check this. The requirement rules out cycles, which would make `GetText` loop forever. It also rules out acyclic attachments of a node to a parent created after it, which the source allows.
- DictionaryDeclarations.GetText requires at least one child: the source reads `Children[0]` and would throw without one.
- AlParsers.AlParser.ScanTillSymbolReached requires a current token: the source reads `tokens.Current` before any check.
- The token stream (not part of this model): EndOfStream holds when no token follows the current one, and MoveNext does nothing past the end.
- Token identity: the registry compares tokens by kind, value and span. The source's `HashSet<AlToken>` uses the token objects' equality.
- `string.Format` and the resource texts are left out. `ErrorText.Formatted` keeps the format, the phrase and the encountered text apart.
- The `TraceAttribute` aspect is compile-time weaving through a foreign framework. `EnableTracing` is kept as a field but gates nothing, as in the parser class.
- `AppendErrorNode` (AlParser.cs:306-313) is not one of the modelled operations, and no modelled production calls it.
- AlParsers.GetRuleName requires the node type to be in the table; the source's dictionary indexer throws otherwise. The node-type enumeration is not part of this model. `NodeType` is taken to be exactly the table's 30 keys, and under that assumption AlParsers.RuleNames proves that the indexer at AlParser.cs:172 never throws.
- AlParsers.AlParser.TraceToken models the three protected helpers `Enter`, `Exit` and `Consume` as one method that takes the event.

## Findings

| source | as written | input that shows it | evidently intended | confidence | as-written member | corrected member |
|---|---|---|---|---|---|---|
| Org.Edgerunner.BC.AL/Language/Parsers/AlParser.cs:218 | the allowed-values overload fails when the value is among the allowed values | a token of the expected kind whose value is one of `allowedValues` is rejected | pass exactly when the value is one of the allowed values, as its summary says | not executed; high | AlParsers.AllowedValuesTestInverted | AlParsers.AlParser.ValidateTokenOneOfCorrected |
| Org.Edgerunner.BC.AL/Language/Parsers/AlParser.cs:329 | every interior position of the phrase prints `enumerable[1]` | the items a, b, c, d give `"a", "b", "b" or "d"` | `enumerable[i]`, naming each item once and in order | not executed; high | AlParsers.FourItemPhrase | AlParsers.AlParser.FormatSetErrorCorrected |
