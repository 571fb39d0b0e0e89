# alg-compiler front end, in Dafny

This project models the core of `alg-compiler`, a compiler from the teaching language Mgol ("alg") to C. The model covers:

- the source reader (`src/lexer/file.ts`);
- the lexical automaton and its table builder (`src/lexer/automata.ts`);
- the maximal-munch scanner with its symbol table (`src/lexer/lexer.ts`);
- the table-driven shift/reduce parser (`src/parser/parser.ts`);
- its error recovery: panic mode and the phrase-level handler factory (`src/parser/errorHandler.ts`);
- the semantic actions that type-check the program and emit C text (`src/semantic/semanticRules.ts`).

Everything is a pure function over immutable values. A JavaScript `throw` becomes an explicit outcome carrying the source's message. Mutation becomes a returned value: the reader's cursor, the scanner's context and symbol table, the parse stack, and the semantic context.

The modules follow the source files:

| module | source file |
|---|---|
| `Common` | shared token and position types, JavaScript string helpers |
| `Reader` | file.ts |
| `Automata` | automata.ts |
| `Lexer` | lexer.ts |
| `ParseTables`, `Parser` | parser.ts |
| `Recovery` | errorHandler.ts |
| `SemanticStack` | the stack helpers of semanticRules.ts |
| `Semantic` | the rules map and `analyze` |

`SemanticLaws`, `DeclLaws`, `RuleLaws` and `TempLaws` hold the per-rule lemmas. Each of them compares a rule with the C text it is meant to emit.

The parsing tables (`parsingTable.ts`) are not part of this model. The parser and the error handler take them as a parameter (`ParseTables.Tables`).

## Model

| member | source | states |
|---|---|---|
| `Reader.Open` | src/lexer/file.ts:7-12 | A path is refused exactly when its Node-style extension is not `.alg`; the message names the extension found. Otherwise the cursor stands before the first character. |
| `Reader.Extname` | src/lexer/file.ts:8 | A non-empty extension starts with `.` and lies within the last path segment. |
| `Reader.ExtnameOfAlgFile` | src/lexer/file.ts:8 | Any file name with a non-empty stem and the `.alg` suffix is accepted, whatever directory it is in. |
| `Reader.NextChar` | src/lexer/file.ts:18-35 | Each call hands out the next character with its ordinal and the line/column of an independent position function. At the end it answers `EOF` with the last position and leaves the cursor unchanged. |
| `Reader.FirstRead` | src/lexer/file.ts:14-16 | The first read is the first character, at line 1, column 1, ordinal 0. |
| `Reader.SameLineAdvance` | src/lexer/file.ts:22-23 | Within a line, each read moves the ordinal and the column on by one. |
| `Reader.AfterLineBreak` | src/lexer/file.ts:24-27 | The character after a line break is on the next line at column 0. |
| `Reader.EofForever` | src/lexer/file.ts:19-20 | Once the file is exhausted, any number of further calls keeps answering `EOF` at the same position. |
| `Reader.ReadN` | src/lexer/file.ts:18-35 | Any number of reads keeps the cursor well formed. |
| `Automata.AddTransition` | src/lexer/automata.ts:95-137 | A call is refused exactly when its label is a single character or `EOF` already in the row, with the source's message. Otherwise every key of the label goes to the target, a new row gets the given out-of-alphabet target (default -3), and nothing else changes. |
| `Automata.AddAcceptableState` | src/lexer/automata.ts:139-148 | Refuses a state that is already accepting; otherwise adds exactly that state. |
| `Automata.AddStateInfo` | src/lexer/automata.ts:150-156 | Refuses a second registration for a state; otherwise adds exactly that entry. |
| `Automata.RunSummary` | src/lexer/automata.ts:50-93 | A builder script fails exactly when one of its calls is refused. Otherwise its tables are those the history of calls describes: the newest entry per key, the first row target, and the added states and info. |
| `Automata.RunFirstRefusal` | src/lexer/automata.ts:50-93 | A failing script reports the message of its first refused call. |
| `Automata.CreateTransitionTableIsRun` | src/lexer/automata.ts:50-93 | Running the branch functions in order is running all their calls as one script. |
| `Automata.RunAppend` | src/lexer/automata.ts:50-93 | A script split in two runs as its first part, then its second. |
| `Automata.LookupAfterAddTransition` | src/lexer/automata.ts:95-137 | After an accepted `addTransition`, `nextState` sends every label character (or `EOF`) to the target. Characters outside the alphabet take the row's out-of-alphabet target, and every other row answers as before. |
| `Automata.LongLabelOverwrites` | src/lexer/automata.ts:118-132 | A label longer than one character is never found in the row, so it silently redirects characters written before. |
| `Automata.AlphabetWithoutQuotesIsReplace` | src/lexer/automata.ts:275 | The literal row's label is the alphabet without its double quote. |
| `Automata.AlphabetWithoutBracesIsReplace` | src/lexer/automata.ts:328 | The comment row's label is the alphabet without both braces. |
| `Automata.NextState` | src/lexer/automata.ts:565-580 | `EOF` leads to state 12 from state 0 only. A character outside the alphabet takes the row's target: 10 in the comment state, -3 elsewhere. A state without a row answers -1. |
| `Automata.AcceptState` | src/lexer/automata.ts:581-586 | Exactly the states -3 and 0..23 have info. A state with info is accepting exactly when its class is not `ERROR`. Only the literal and comment error states may read white space. |
| `Automata.StartStateIffWhiteSpace` | src/lexer/automata.ts:158-174 | State 0 is kept exactly while the input is white space. |
| `Automata.InvalidCharacterAbsorbs` | src/lexer/automata.ts:176-199 | The invalid-character state absorbs characters outside the alphabet; any alphabet character ends it. |
| `Automata.DollarIsInvalid` | src/lexer/automata.ts:575 | `$` is outside the alphabet, so from the start state and from inside a literal it leads to the invalid-character state. That state keeps `$` and its class is `ERROR`, so an `ERROR` lexeme can hold `$`. |
| `Automata.LeadingUnderscore` | src/lexer/automata.ts:158-199 | An underscore has no move from state 0. |
| `Automata.IntegerIff` | src/lexer/automata.ts:201-222 | A lexeme reaches state 1 exactly when it is a non-empty run of digits. |
| `Automata.DigitsLoop` | src/lexer/automata.ts:209-218 | Digits keep the number states 1, 3 and 6. |
| `Automata.RealNumber` | src/lexer/automata.ts:210-212 | Digits, a dot and digits reach state 3. A dot without fractional digits stops in error state 2. |
| `Automata.Exponential` | src/lexer/automata.ts:213-218 | A mantissa, `e`/`E`, an optional sign and digits reach state 6. Stopping after the letter leaves error state 4; stopping after the sign leaves error state 5. |
| `Automata.LiteralIff` | src/lexer/automata.ts:268-297 | A quoted run of non-quote alphabet characters reaches state 8, and exactly such strings do. An unclosed one stays in state 7. |
| `Automata.IdentifierIff` | src/lexer/automata.ts:299-318 | A lexeme reaches state 9 exactly when it is a letter followed by letters, digits and underscores. |
| `Automata.CommentIff` | src/lexer/automata.ts:320-349 | A brace-opened run of non-brace characters reaches state 11 once closed, and exactly such strings do. An unclosed one stays in state 10. |
| `Automata.Relations` | src/lexer/automata.ts:351-427 | `>`, `>=`, `<`, `<=`, `<>` and `<-` reach their operator states from state 0. |
| `Automata.Operators` | src/lexer/automata.ts:429-553 | The arithmetic operators reach state 19, and `EOF` reaches state 12 (the `EOF` branch closes the script at lines 534-553). |
| `Automata.Punctuation` | src/lexer/automata.ts:450-532 | `(`, `)`, `;` and `,` reach states 20 to 23. |
| `Lexer.SeedContents` | src/lexer/lexer.ts:34-42 | Seeding adds exactly the given words, each with class, type and lexeme equal to the word at position (-1, -1), and keeps the other entries. |
| `Lexer.InitialSymbolsOk` | src/lexer/lexer.ts:9-22 | The seeded table is well formed: every reserved word has its entry, and every entry is keyed by its lexeme. |
| `Lexer.NewLexer` | src/lexer/lexer.ts:8-32 | A new scanner is well formed, starts in state 0 with an empty lexeme, and its table holds exactly the reserved words. |
| `Lexer.GenerateToken` | src/lexer/lexer.ts:101-143 | There is no token exactly when the state has no info (the source throws). Entries are never changed, and at most the lexeme's entry is added. |
| `Lexer.PostProcess` | src/lexer/lexer.ts:145-154 | Comments are dropped and only comments. Error descriptions get the start position appended. Other tokens pass unchanged. |
| `Lexer.ErrorSuffixDetermines` | src/lexer/lexer.ts:148 | The suffix appended to an error description determines the line and the column of the token's start: two positions with the same suffix are equal. |
| `Lexer.Step` | src/lexer/lexer.ts:59-98 | One loop iteration fails exactly in the dead state. Otherwise it keeps the scanner well formed and reads one character. An emitted token meets `Emission` (its lexeme ends just before a character the automaton cannot take) and is never a comment. A token other than `EOF` carries the pending lexeme with its start and end, and the scanner stops just after it. |
| `Lexer.Scan` | src/lexer/lexer.ts:47-99 | A call that returns gives a token meeting `Emission`, never a comment, and leaves a well-formed scanner that has not moved back. The dead state always makes the call throw. A scanner that cannot crash returns a token. `Begins`: only white space and closed comments lie between the start of the pending lexeme and the token's first character. |
| `Lexer.StepGap` | src/lexer/lexer.ts:76-97 | An iteration that continues skips only white space and closed comments. A dropped comment and the white space after it join the skipped text. A token begun from state 0 follows the pending white space. Extending a lexeme keeps its start. |
| `Lexer.TokenDetermined` | src/lexer/lexer.ts:59-98 | Two tokens that both meet the contract of `Scan` from the same scanner, and whose lexemes leave state 0, are equal and leave the same symbol table. So `Emission` and `Begins` together say maximal munch from the token's first character. |
| `Lexer.GapStart` | src/lexer/lexer.ts:76-77 | If two ways of skipping white space and closed comments end at different characters, the earlier one is white space or opens a closed comment. |
| `Lexer.CommentEnd` | src/lexer/automata.ts:329-333 | A closed comment that starts at a given `{` has exactly one end. |
| `Lexer.EofFixedPoint` | src/lexer/lexer.ts:59-85 | Once `EOF` has been read, every call returns the same `EOF` token and leaves the scanner as it was. |
| `Lexer.EofAfterEnd` | src/lexer/lexer.ts:59-85 | A call made with the whole file read leaves the scanner in the `EOF` context. |
| `Lexer.Next` | src/lexer/lexer.ts:47-99 | The scanner as its callers see it: a returned token is never a comment, and after `EOF` the same token repeats. |
| `Lexer.ScanN` | src/lexer/lexer.ts:47-99 | `n` successive calls that all return yield exactly `n` tokens and a well-formed scanner on the same file. |
| `Lexer.ScanNEof` | src/lexer/lexer.ts:59-85 | After `EOF`, `n` calls give `n` copies of the `EOF` token and leave the scanner unchanged. |
| `Lexer.SymbolsOnlyGrow` | src/lexer/lexer.ts:119-126 | A call never changes or removes an entry of the symbol table. |
| `Lexer.ReservedWordToken` | src/lexer/lexer.ts:119-123 | A reserved word comes back with its own class and type, and the table does not change. |
| `Lexer.IdentifierToken` | src/lexer/lexer.ts:119-128 | Any other identifier comes back as `ID` of type `NULO`. Its first occurrence is stored, and later ones find that entry. |
| `Lexer.StrayCharacterCrashes` | src/lexer/lexer.ts:64-78 | A token stopped by a character with no move from state 0 (such as `_`) leaves the dead state, so the next call throws. |
| `ParseTables.Scanner` | src/parser/parser.ts:25 | A call of the scanner throws exactly when the source has nothing to give. Otherwise it returns the next token and moves on by one. |
| `Parser.Split` | src/parser/parser.ts:9 | `split(' ')` gives one more piece than there are separators, and no piece holds one. |
| `Parser.JoinSplit` | src/parser/parser.ts:9 | Joining the pieces of a split gives the text back. |
| `Parser.SplitJoin` | src/parser/parser.ts:9 | Splitting a join of separator-free pieces gives the pieces back. |
| `Parser.PopCount` | src/parser/parser.ts:6-11 | A reduction pops at least one state. |
| `Parser.RuleShape` | src/parser/parser.ts:6-20 | For a rule `LHS->X Y Z`, the left-hand side is the rule's nonterminal. The pop count is one per space-separated symbol of the right-hand side. Removing the left-hand side leaves exactly the right-hand side. |
| `Parser.LetterOf` | src/parser/parser.ts:15-20 | The nonterminal of `LHS->rhs` is `LHS` when the right-hand side is one line. |
| `Parser.StripOf` | src/parser/parser.ts:9 | The left-hand-side pattern removes exactly `LHS->`. |
| `Parser.Step` | src/parser/parser.ts:28-64 | A missing ACTION row throws `Erro na tabela de ações`; a missing cell throws `Erro ação não encontrada`. SHIFT pushes the target and reads the next token. ACCEPT ends with the trace. REDUCE and ERROR behave as `ReduceStep` and `ErrorStep` say. |
| `Parser.ReduceMeaning` | src/parser/parser.ts:39-50 | A reduction pops exactly the rule's pop count, pushes the GOTO entry for the rule's nonterminal, keeps the lookahead and appends the rule's text. It fails exactly when the rule, the stack depth or the GOTO cell is missing. |
| `Parser.Run` | src/parser/parser.ts:28-64 | An accepted parse extends the trace it started from, with rule texts only. |
| `Parser.Parse` | src/parser/parser.ts:23-67 | The parse starts from stack `[0]` and the scanner's first token, and its trace consists of rule texts only. |
| `Parser.RunFuelMonotone` | src/parser/parser.ts:28-64 | More iterations do not change a parse that has ended. |
| `Recovery.SyncOf` | src/parser/errorHandler.ts:12-22 | Gives the first synchronising nonterminal, in list order, that the GOTO row holds; there is none exactly when the row holds none. |
| `Recovery.PopToSync` | src/parser/errorHandler.ts:28-40 | The popping loop stops at a state it can synchronise on, or at a 0 state or below the bottom. Every state above the stop is one it pops past. |
| `Recovery.PopToSyncFails` | src/parser/errorHandler.ts:29-31 | Popping fails exactly when no state above the topmost 0 can be synchronised on (popping 0 counts as an empty stack). |
| `Recovery.SkipUntil` | src/parser/errorHandler.ts:41-47 | The inner loop returns the first token in the FOLLOW set, and the tokens before it are outside it. It gets stuck only on an exhausted source whose last token is outside the set. |
| `Recovery.StuckForever` | src/parser/errorHandler.ts:41-47 | A stuck search never ends: every later call returns a token outside the set. |
| `Recovery.NeverFoundIsStuck` | src/parser/errorHandler.ts:41-47 | A source that never returns a token of the set makes the search stuck. |
| `Recovery.Panic` | src/parser/errorHandler.ts:24-50 | Panic mode returns a strict prefix of the stack: the synchronising state is popped and not pushed back. The lookahead is in the FOLLOW set of its first synchronising nonterminal. It throws `Erro pilha vazia no panic handler` exactly when no state above the topmost 0 can be synchronised on. |
| `Recovery.PanicLookahead` | src/parser/errorHandler.ts:41-46 | The resumed lookahead is the first token in the FOLLOW set. Every token read before it is dropped, and the scanner has moved past it. |
| `Recovery.PanicDiverges` | src/parser/errorHandler.ts:41-47 | Panic mode loops forever exactly when the scanner never returns a token of the FOLLOW set. |
| `Recovery.Act` | src/parser/errorHandler.ts:74-85 | `addToStack` pushes one state and keeps the rest. `readNewToken` replaces the lookahead with the next token, and throws exactly when the scanner does. |
| `Recovery.PhraseHandler` | src/parser/errorHandler.ts:57-72 | The corrected handler runs its actions in order. It pushes exactly the states of the `addToStack` actions and makes one scanner call per `readNewToken`; the lookahead is the last token read. It fails exactly when a call throws. |
| `Recovery.PhraseHandlerAsWritten` | src/parser/errorHandler.ts:57-72 | The handler as written either resumes or ends in a `TypeError`. |
| `Recovery.AsWrittenAgrees` | src/parser/errorHandler.ts:57-72 | As written and corrected agree when only the first action may read a token. |
| `Recovery.AsWrittenLosesScanner` | src/parser/errorHandler.ts:57-72 | `[addToStack(s), readNewToken]` throws as written, while the corrected handler pushes `s` and reads the token. |
| `Recovery.Handle` | src/parser/errorHandler.ts:87-102 | With the source's empty `ERROR_TABLE`, every error is handled in panic mode. |
| `SemanticStack.AtFromTop` | src/semantic/semanticRules.ts:15 | `at(-k)` finds a node exactly when the stack holds `k`, and it is the k-th from the top. |
| `SemanticStack.FoldNodes` | src/semantic/semanticRules.ts:102-115 | The fold concatenates the lexemes of the top nodes in stack order. It takes type and end from the top node, and class and start from the first. |
| `SemanticStack.JoinLexemas` | src/semantic/semanticRules.ts:97-118 | The join succeeds exactly when 1 <= amount <= the stack depth, and otherwise throws. The joined node spans the top `amount` nodes. |
| `SemanticStack.DoReduction` | src/semantic/semanticRules.ts:64-82 | The top `n` nodes become one node of the rule's class spanning them. Nodes below and the rest of the context are untouched. It throws exactly when `n` is out of range. |
| `SemanticStack.Print` | src/semantic/semanticRules.ts:10-24 | The object text only grows, by a space and the filled format, and nothing else changes. |
| `SemanticStack.FillSingle` | src/semantic/semanticRules.ts:14-18 | One index replaces the first occurrence of its placeholder with the node's field. |
| `SemanticStack.PrintOne` | src/semantic/semanticRules.ts:10-24 | A one-placeholder format with no `{` before it prints with the field in place. |
| `SemanticStack.PrintPlain` | src/semantic/semanticRules.ts:10-24 | A format without indexes is appended as it is. |
| `SemanticStack.ReportError` | src/semantic/semanticRules.ts:183-197 | A semantic error logs the message with the node's position and clears the object-file flag. Nothing else changes and nothing is thrown. |
| `SemanticStack.LookupId` | src/semantic/semanticRules.ts:139-157 | Chooses the branch of `verifyIdAlreadyDefined`: a stack too short, no entry, a `NULO` entry, or a typed entry whose type the node then carries. |
| `SemanticStack.ReduceRightMatch` | src/semantic/semanticRules.ts:35-44 | The `reduceRight` ends with the bottom-most node whose upper-cased class matches. |
| `SemanticStack.BottomMost` | src/semantic/semanticRules.ts:35-44 | Gives the bottom-most matching node; there is none exactly when no node matches. |
| `SemanticStack.TempCountFirst` | src/semantic/semanticRules.ts:166-170 | Every count of `t`s the loop passes names a taken key. |
| `SemanticStack.NewTemp` | src/semantic/semanticRules.ts:159-181 | The temporary is not a key of the table. Its C type follows the operand's type: `inteiro` gives `int`, `real` gives `double`, anything else `literal`. |
| `SemanticStack.NewTempShortest` | src/semantic/semanticRules.ts:166-172 | The name is the shortest run of `t`s followed by `lastX` that the table does not hold. |
| `Semantic.PrintFollows` | src/semantic/semanticRules.ts:10-24 | Printing moves the context forward. |
| `Semantic.ReportFollows` | src/semantic/semanticRules.ts:183-189 | Reporting an error moves the context forward and clears the flag. |
| `Semantic.ApplyFollows` | src/semantic/semanticRules.ts:199-459 | Every operation of every rule that does not throw moves the context forward. |
| `Semantic.SequenceFollows` | src/semantic/semanticRules.ts:91-94 | A run of operations that does not throw moves the context forward. |
| `Semantic.Actions` | src/semantic/semanticRules.ts:199-459 | A rule outside the map has no operations. |
| `Semantic.Analyze` | src/semantic/semanticRules.ts:461-471 | Whatever the rule, a returned context moves forward: text and log only grow, the flag is never set back, and it is cleared exactly when an error is logged. |
| `SemanticLaws.DefaultReduction` | src/semantic/semanticRules.ts:461-471 | A rule without actions of its own performs the plain reduction. |
| `SemanticLaws.Rule4` | src/semantic/semanticRules.ts:200 | Rule 4 appends three line breaks, then reduces. |
| `SemanticLaws.Rule24` | src/semantic/semanticRules.ts:383 | Rule 24 appends a closing brace and a line break, then reduces. |
| `SemanticLaws.Rule25` | src/semantic/semanticRules.ts:384-390 | Rule 25 opens `if (cond) {` on the third node from the top, then reduces. |
| `SemanticLaws.Rule8And9` | src/semantic/semanticRules.ts:230-231 | Rules 8 and 9 reduce, then print `int` or `double`. |
| `SemanticLaws.Rule10` | src/semantic/semanticRules.ts:232 | Rule 10 prints the type of the reduced node, which is the type of the node that was on top. |
| `SemanticLaws.ReportFrame` | src/semantic/semanticRules.ts:183-189 | A report leaves the stack, the table, the text and the reduction alone. |
| `SemanticLaws.FirstThrows` | src/semantic/semanticRules.ts:91-94 | A first operation that throws ends the rule. |
| `DeclLaws.TypeIdMeaning` | src/semantic/semanticRules.ts:29-59 | The typing branch refuses a node that is not an `ID` and a stack without the nonterminal. Otherwise it declares the id with the type of the bottom-most such node, on the stack and in the table. |
| `DeclLaws.AssignTypeMeaning` | src/semantic/semanticRules.ts:26-62 | An untyped `ID` is declared, a typed one is reported as declared twice, and the rest is refused. |
| `DeclLaws.Rule7Declare` | src/semantic/semanticRules.ts:222-229 | Rule 7 declares the id on top with the type of the bottom-most `TIPO` node, prints `name;` and reduces. |
| `DeclLaws.Rule7Redeclared` | src/semantic/semanticRules.ts:222-229 | An id declared before is reported, and rule 7 still prints its name and reduces. |
| `DeclLaws.Rule7Refused` | src/semantic/semanticRules.ts:222-229 | Rule 7 throws when the id is not in the table, is not an `ID`, or there is no `TIPO` node. |
| `DeclLaws.PrintDeclarationText` | src/semantic/semanticRules.ts:208-217 | The declaration branch prints exactly the reference C declaration for `literal`, `inteiro` and `real`, and throws for any other type. |
| `DeclLaws.DeclareStep` | src/semantic/semanticRules.ts:205-218 | The second step of rule 6 reports a `NULO` type, prints the declaration of a type that has one, and throws otherwise. |
| `DeclLaws.Rule6Declare` | src/semantic/semanticRules.ts:201-221 | Rule 6 declares the id before the comma with the type of the bottom-most `L` node, then prints its C declaration and reduces. |
| `DeclLaws.Rule6Unset` | src/semantic/semanticRules.ts:201-221 | A bottom-most `L` node still typed `NULO` makes rule 6 report the id it has just entered. |
| `DeclLaws.Rule6NoDeclaration` | src/semantic/semanticRules.ts:201-221 | A type without a C declaration is an internal error. |
| `DeclLaws.Rule6Redeclared` | src/semantic/semanticRules.ts:201-221 | An id declared before is reported, and its declaration is printed again with the type it already has. |
| `DeclLaws.Rule6RedeclaredNoText` | src/semantic/semanticRules.ts:201-221 | A redeclared id whose type has no C declaration ends rule 6 with an internal error. |
| `DeclLaws.Rule6Refused` | src/semantic/semanticRules.ts:201-221 | Rule 6 throws when the id is not in the table, is not an `ID`, or there is no `L` node. |
| `RuleLaws.Rule12Read` | src/semantic/semanticRules.ts:233-253 | Reading a declared variable appends the `scanf` for the type in its entry and reduces; a type without one is an internal error. |
| `RuleLaws.Rule12Undeclared` | src/semantic/semanticRules.ts:233-253 | Reading an undeclared variable logs the error and only reduces; an id missing from the table is an internal error. |
| `RuleLaws.Rule13Constant` | src/semantic/semanticRules.ts:254-287 | Writing a constant or an untyped id prints it as a constant, bare if `literal` and quoted otherwise. |
| `RuleLaws.Rule13Variable` | src/semantic/semanticRules.ts:254-287 | Writing a declared variable prints the `printf` for the type in its entry; a type without one prints nothing. |
| `RuleLaws.Rule16And21` | src/semantic/semanticRules.ts:288-297 | Using an undeclared id reports it; either way the rule reduces. |
| `RuleLaws.AssignText` | src/semantic/semanticRules.ts:316-319 | The assignment format filled with a `{`-free target reads `target = value;`. |
| `RuleLaws.AssignCheck` | src/semantic/semanticRules.ts:304-314 | A value whose type differs from the variable's, ignoring case, is reported at the target; a matching one leaves the context alone. |
| `RuleLaws.Rule18Assign` | src/semantic/semanticRules.ts:298-324 | Assigning to a declared variable prints `target = value;` after the type check, whether or not the types agree, then reduces. |
| `RuleLaws.Rule18Undeclared` | src/semantic/semanticRules.ts:298-324 | Assigning to an undeclared variable reports it and prints nothing. |
| `TempLaws.RenameMeaning` | src/semantic/semanticRules.ts:357-370 | The last operation of rules 19 and 26 renames only the top node and moves `lastX` on by one. |
| `TempLaws.ShortStack` | src/semantic/semanticRules.ts:325-458 | With fewer than three nodes, rules 19 and 26 throw. |
| `TempLaws.ArithFill` | src/semantic/semanticRules.ts:350-354 | The format of rule 19, filled, reads `temp = a op b;`. |
| `TempLaws.Rule19Mismatch` | src/semantic/semanticRules.ts:325-372 | Operands of different types, or `literal` ones, are reported. The rule still reduces, names the node after `lastX` and moves `lastX` on. |
| `TempLaws.Rule19Defines` | src/semantic/semanticRules.ts:325-372 | Operands of the same numeric type define a fresh temporary and print `temp = a op b;`. The reduced node takes the temporary's name, and `lastX` moves on. |
| `TempLaws.RelFill` | src/semantic/semanticRules.ts:432-440 | The format of rule 26, filled, reads `temp = a op b;`, with `<>` written `==`. |
| `TempLaws.RelFillNeedsPlain` | src/semantic/semanticRules.ts:432-440 | A first operand spelled `{1}` is overwritten by the second operand, so the statement differs from `temp = a op b;`. |
| `TempLaws.Rule26Mismatch` | src/semantic/semanticRules.ts:391-458 | A `literal` compared with a number is reported. The rule still reduces, renames the node and moves `lastX` on. |
| `TempLaws.Rule26Defines` | src/semantic/semanticRules.ts:391-458 | Any other pair defines a fresh temporary holding the comparison, and the reduced node takes its name. |
| `Common.NatToStringRoundTrip` | src/lexer/lexer.ts:149 | Reading back the decimal text of a number gives the number. |
| `Common.NatToStringInjective` | src/lexer/lexer.ts:149 | Distinct numbers render as distinct texts. |
| `Common.IntToStringInjective` | src/lexer/lexer.ts:148 | Distinct integers, negative ones included, render as distinct template-literal texts. |
| `Common.ReplaceFirstSplit` | src/semantic/semanticRules.ts:18 | `replace` with a string pattern rewrites exactly the first occurrence. |
| `Common.ReplaceFirstAbsent` | src/semantic/semanticRules.ts:18 | A pattern that does not occur leaves the text alone. |

## Left out

- `Automata.NextState`: it is a hand-written table by character classes. No lemma proves it equal to the table that `CreateTransitionTable(EMPTY_TABLES, BRANCHES)` builds from the branch scripts (automata.ts:50-553). The builder is modelled and proved call by call (`AddTransition`, `RunSummary`, `LookupAfterAddTransition`). Evaluating the whole 60-call script symbolically is beyond what the verifier does at an acceptable cost, so the two are linked only by reading.
- `Automata.CreateTransitionTable`: for the same reason, no lemma proves that the source's own script runs without a refused call.
- `Source` (`ParseTables.Source`): the parser and the error handler read tokens from an abstract source, a token list whose last token repeats forever. That matches what `Lexer.ScanNEof` proves about the scanner after `EOF`. No lemma derives a `Source` from `Lexer.ScanN`: every such proof unfolds the scanner loop for several calls and exceeds the verifier's resource budget.
- `Recovery.Dispatch`: it calls the corrected `Recovery.PhraseHandler`, not `Recovery.PhraseHandlerAsWritten` (see Findings). With the source's empty `ERROR_TABLE` the difference is never reached: `Recovery.Handle` is exactly `Recovery.Panic`.
- `TempLaws.RelFill`, `TempLaws.Rule26Defines`, `TempLaws.ArithFill` and `TempLaws.Rule19Defines` require the operands filled before the last one to hold no `{`. Rules 19 and 26 take them from `OPRD` nodes, which the grammar builds from identifiers and numbers. `TempLaws.RelFillNeedsPlain` shows what the source prints otherwise.
- `RuleLaws.AssignText` requires the target to hold no `{`. The target is an identifier, and an identifier never holds one.
- `Common.ToLower` and `Common.ToUpper` map ASCII letters only. JavaScript's full Unicode case mapping is not modelled. Types and nonterminal names are ASCII.
- `Common.ReplaceFirst` does not interpret the `$` patterns of a JavaScript replacement string: it inserts the replacement verbatim. JavaScript gives `$&`, `` $` ``, `$'` and `$$` a meaning there: the matched text, the text before the match, the text after it, and a single `$`. A lexeme can hold `$`. `$` is outside the automaton's alphabet, so it takes state 0 and the literal state 7 to the invalid-character state -3, which absorbs further such characters and whose class is `ERROR` (`Automata.DollarIsInvalid`). The input `$` or `"a$` is then an `ERROR` token whose lexeme holds `$`. A comment can hold `$` too, but `PostProcess` drops comments. The parsing tables are a parameter of this model, so nothing here rules out such an `ERROR` lexeme reaching a rule text. Where one would, the model's text and the source's can differ.
- `Parser.Run` takes an iteration bound (`fuel`). A parse that loops forever ends with `OutOfFuel` instead.
- The `console.log` calls (the rule texts in parser.ts:49, the pop count in parser.ts:13, the messages of `ERROR_DATA` in errorHandler.ts:93-95) are left out. Semantic error messages are kept as a log in the context.
- `readFileSync` (file.ts:5) is left out: the file's contents are a parameter of `Reader.Open`.
- `Reader.NextChar` reads one Dafny `char` per call. In the source, `split('')` (file.ts:5) splits the file into UTF-16 code units. A character outside the Basic Multilingual Plane then takes two reads, and each read advances the column and the ordinal. The model reads such a character once, so every later column on its line is one smaller than the source's. No character outside the BMP has a move in the automaton.
- `Lexer.TokenDetermined` does not cover a token whose lexeme stays in state 0. That token is the `ERROR` token built from pending white space when a character with no move from state 0 stops it, and the scanner crashes on the next call (`Lexer.StrayCharacterCrashes`). Its lexeme is only stated to be white space ending at the stop index.
- The parsing tables of `parsingTable.ts` are not part of this model. They are a parameter of the parser and of panic mode.

## Findings

| source | as written | input that shows it | evidently intended | confidence | as-written member | corrected member |
|---|---|---|---|---|---|---|
| src/parser/errorHandler.ts:57-72 | Each action's result, which holds only `stack` and `a`, is spread into the accumulator, so the accumulator loses `lexer` after the first action | a phrase handler built from `[addToStack(s), readNewToken]`: the second action calls `scanner` on `undefined` and throws a `TypeError` | keep the scanner in the accumulated context, so that every `readNewToken` reads the next token | not executed | `Recovery.PhraseHandlerAsWritten` (with `Recovery.AsWrittenLosesScanner`) | `Recovery.PhraseHandler` |
