# CardCode in Dafny

A model of CardCode, a small S-expression language for robots, and proofs about it. A source text
goes through a lexer, a parser and a compiler to a syntax tree with node identifiers, and an
interpreter runs that tree against a robot host with limits on steps, repeats and call depth, and
with cooperative cancellation. Around this stand a browser editor with a parser of its own, a JSON
codec, a WebSocket frame codec, and the bridge that accepts run and cancel messages.

## How it is built

`Semantics.dfy` is the reference: a big-step semantics in which every node goes through control
states (`Ctl`), each of which plans one move (`Plan`). `Engine.dfy` is the interpreter as the
program has it, a class `ExecState` whose methods update fields and frames in place, and each method
is proved to compute the reference. The theorems about whole runs and about pairs of runs
(`Growth`, `Truncation`, `TraceGrammar`, `TraceTheorems`, `Blame`, `StepLimits`, `Bounds`,
`Evaluations`, `Safety`, `LiteralFaults`, `Cancellation`, `Isolation`) are then lemmas about the reference. The same division holds elsewhere: a
specification function, the imperative form proved against it, and theorems about the function.

- `Ast`, `Tree`, `Source`, `Options`, `Decimals`: values, nodes, spans, diagnostics, numerals.
- `Lexer`, `LexerTheorems`, `Parser`, `ParserTheorems`: the front end of the engine.
- `BrowserParser`, `Encodings`, `ParsersAgree`: the editor parser, and its agreement with the front
  end on the bytes and the units of one text.
- `Names`, `Compiler`, `Lossless`, `NodeIds`, `CompiledPrograms`, `Layout`: the compiler.
- `Pipeline`, `LiteralPrograms`, `Scripts`: from text to a finished run.
- `Json`, `JsonRoundTrip`, `Frames`, `FrameTheorems`: the codecs (sections 2, 4, 5 and 7 of RFC 8259;
  sections 5.2 and 5.3 of RFC 6455).
- `Bridge`: control thread and worker threads as interleaved atomic steps.
- `Editor`, `EditorText`, `EditorReads`, `EditorTheorems`, `EditorWriter`, `EditorSpans`,
  `EditorPlaces`: the loop of parse, project and generate.

So that the specification functions do not rest on themselves, there is a second account of each language with its
words, numbers, tables and bytes written out, and the two are proved to be the same:

- `Laws`: the meaning of each kind of node in terms of its parts, which `Scripts` takes to whole texts.
- `Legality`, `CompiledParts`: which sources compile, what is reported of the others, and what tree comes of them.
- `Alphabet`, `ParserReports`, `BrowserScan`: bytes, words, places, and the problems of parentheses.
- `JsonTexts`, `JsonGrammar`, `Wire`: the texts and frames that the codecs accept.
- `BridgeReplies`: what a client is told.
- `Manifest`: which card a statement becomes.

The robot host is an arbitrary function from the trace so far to sensor readings, and the cancel
flag an arbitrary function of the number of polls and the trace. The trace interleaves events and
host calls; an entry about a node carries the node, of which the message sent is the identifier,
span and operator. The engine and the JSON codec read strings of bytes, each byte the character of
that number; the editor parser reads strings of UTF-16 units (`Encodings`).

## Where the code departs from what one would expect

- `NodeSkipped` and `NodeError` can come from nodes that are not highlightable and keep identifier 0
  (`Pipeline.QuietEventsCarryZero`), although docs/integration/protocol.md:113-115 says otherwise:
  `TraceTheorems.UnstartedNodesAreReported` is a run that does it. Errors do so exactly for four
  faults (`Blame.BlamedByFault`), and a program that meets the condition of
  `Blame.LoudProgramsReportHighlightable` never does. That condition on trees is sufficient and not
  necessary: `Blame.QuietNodesMayStaySilent` breaks it by operands that are good, and
  `Blame.TakenBranchesMayStaySilent` by a branch that is taken. What holds in the other direction, of an
  if that is reached, is that it reports a node that is not highlightable exactly when the branch not
  taken is none (`Blame.IfReportsTheOther`), and so always if neither branch is
  (`Blame.QuietBranchesAreReported`); of a when that is reached and does not hold, that it reports all its
  statements (`Blame.WhenReportsItsStatements`).
  NodeStart and NodeDone are restricted in every run (`Blame.AnnouncedAreHighlightable`).
- A NodeError for the step limit names a node about to start, or a while that has started and is
  about to go round, and which of the two is decided by `StepLimits.StartedExactlyWhenGoingRound`;
  `StepLimits.StartedLoopIsBlamed` and `StepLimits.UnstartedLoopIsBlamed` show both. Without a while
  in the program it is always the first (`StepLimits.NoLoopNoRound`).
- A cancel after the last poll does not prevent ProgramDone (`Cancellation.CancelledTooLate`). A run
  is cancelled exactly by what it reads (`Cancellation.CancelledExactlyByAPoll`).
- The compiler checks a literal repeat count against 100, the interpreter against max_repeat_count, so a
  compiled literal fails exactly when it is over that limit (`LiteralFaults.LiteralRepeatFailsExactly`,
  `LiteralPrograms.RepeatPrograms`). The compiler checks no types, so literals of a wrong type compile
  and fail too, and exactly those do: no colour for a light (`LiteralFaults.LiteralLightFailsExactly`,
  `LiteralPrograms.LightPrograms`), no integer for a repeat, drive, backward, turn or wait
  (`LiteralFaults.LiteralIntegerFailsExactly`, `LiteralPrograms.MistypedPrograms`), no integer or a zero
  divisor in a comparison or computation (`LiteralFaults.LiteralOperationFailsExactly`,
  `LiteralFaults.OperationEvaluates`).
- The offsets of the two parsers differ after a comment that is not ASCII, by exactly what
  `ParsersAgree.SpansEqualExactly` says; lines and columns never do, and on ASCII nothing does
  (`ParsersAgree.AsciiParsersAgree`).
- The literal -9223372036854775808 is rejected: its magnitude exceeds 2^63 - 1
  (`LiteralPrograms.LeastIntegerIsRejected`, `LiteralPrograms.NumbersInRange`).
- The editor loop is neither idempotent nor lossless on every source. The exact conditions are
  `EditorTheorems.RoundIsIdempotent` and `EditorTheorems.RoundKeepsTheTree`, with the failing inputs
  in `EditorTheorems.AssignmentIsGarbled` and `EditorTheorems.NestedHeadIsLost`.
- The spans that the generator records begin before the indentation of the card, so they are the spans
  of the parser exactly for cards that are not indented (`EditorPlaces.RecordedSpansAreIndented`).

## Model

| member | source | states |
|---|---|---|
| `Truncation.LimitsAndCancelOnlyTruncate` | src/engine.cpp:78-382 | For any two worlds with the same program and sensors where the second has no smaller limit and a cancel flag raised no earlier: either both runs are equal, or the first was ended by a limit or by cancellation and its trace, without the node error, stop and program error that close it, is a prefix of the second trace. |
| `Truncation.UncutRunsAgree` | src/engine.cpp:78-382 | A run that no limit and no cancellation ended is the identical run (result and trace) under all larger limits. |
| `Truncation.EvalTruncates` | src/engine.cpp:326-349 | The same for the evaluation of one node from any state: equal outcome, or cut with a trace that is a prefix. |
| `Truncation.RunTruncates` | src/engine.cpp:119-324 | The same from the middle of any node, for every kind of node and every stage of it. |
| `Growth.EvalGrows` | src/engine.cpp:326-349 | Evaluating a node never takes back a trace entry, leaves the call depth as it found it on every exit (errors and cancellation included), and a failure leaves its own NodeError as the last entry. |
| `Growth.RunGrows` | src/engine.cpp:78-324 | The same from the middle of any node, inside a callee included. |
| `TraceGrammar.RunsAreWords` | src/engine.cpp:43-54 | Every run that is not undefined behaviour is a complete word of the event automaton, which follows the syntax tree: a node starts only within reach of the innermost open one, and a fault is blamed only on a node of a kind that has it. The word ends in success exactly when the run reports success. |
| `TraceGrammar.EvalScans` | src/engine.cpp:326-349 | Evaluating a node with given nodes open leaves the trace with the same nodes open, or failed or cancelled inside it, and with no host call left unclosed. |
| `TraceTheorems.RunsAreWellShaped` | src/engine.cpp:360-382 | Success is ProgramStart, a balanced word of matching NodeStart/NodeDone, ProgramDone. Failure is ProgramStart, the beginning of a balanced word, one NodeError with the reported fault and span, the stop, ProgramError. Cancellation is the same without a NodeError. |
| `TraceTheorems.LiveIsNested` | src/engine.cpp:334-348 | A trace that the automaton accepts so far is ProgramStart and a word whose unmatched starts are exactly the open nodes; stated with balance defined on its own by recursion. |
| `TraceTheorems.NestedCompletes` | src/engine.cpp:334-348 | Closing the open nodes innermost first turns such a word into a balanced one. |
| `TraceTheorems.CommandsAreOwned` | src/engine.cpp:215-259 | Every host command of a run, except the safety stop of a run that does not succeed, is immediately followed by the NodeDone of a node whose kind issues that command, with its arguments in range. |
| `TraceTheorems.LiveIsOwned` | src/engine.cpp:215-264 | The same, both ways and for sensors as well, at every position of a live trace: a command or sensor node is done only right after its host call. |
| `TraceTheorems.UnstartedNodesAreReported` | src/engine.cpp:206-210 | A concrete program, one undefined name, whose only node event is a NodeError from a node that is not highlightable, contrary to docs/integration/protocol.md:113-115. |
| `Bounds.RunsAreBounded` | src/engine.cpp:334-341 | steps = NodeStarts + while iterations begun, and at most max_total_steps; drive and wait time at most 10000 ms and turning at most 3600 degrees for each allowed step. |
| `Bounds.EvalCounts` | src/engine.cpp:326-349 | Evaluating any node keeps steps equal to the NodeStarts and while iterations so far, within the limit. |
| `Bounds.LiveTotals` | src/engine.cpp:215-247 | In a live trace starts are the nodes done plus the nodes open, and commanded time and angle are bounded by the nodes done. |
| `Evaluations.EvaluationsAreBounded` | src/engine.cpp:130-143 | For every program and host the interpreter evaluates at most (1 + max_total_steps) * max(1, max_repeat_count) * (AST size) nodes. |
| `Evaluations.EvalWork` | src/engine.cpp:326-349 | The amortised form: steps times the budget, less the evaluations made, drops in one evaluation by no more than what the node owes before its next step. |
| `Evaluations.CallBudget` | src/engine.cpp:78-113 | The operands of a call and the body of its callee together are no larger than the whole program, although the callee is not below the call. |
| `Safety.WellFormedRunsAreSafe` | src/engine.cpp:78-259 | A well-formed program never indexes a missing argument and never calls an undefined function; all its events are about its own nodes; no range fault blames a literal, a repeat limit only a literal over that limit, a type fault only if some operand is not an integer literal (for a light, is no colour literal), a division only a divisor that is computed or zero. |
| `Safety.EvalSafe` | src/engine.cpp:326-349 | That safety as an invariant of evaluating any node of the program. |
| `Isolation.CallIgnoresCaller` | src/engine.cpp:78-113 | Once the arguments are evaluated, a call has the same value and the same effect from every caller frame, and leaves the caller frame unchanged. |
| `Isolation.EvalNames` | src/engine.cpp:190-204 | No evaluation removes a variable; every new one is bound by a define of the program; code in a call frame adds no global. |
| `Isolation.GlobalsAreDefined` | src/engine.cpp:197-204 | set! never adds a name: after any run each global variable is bound by a define in the program. |
| `Programs.ProgramIsClosed` | src/engine.cpp:351-356 | Whatever evaluation can reach (operands, statements, bodies of called functions) is a node of the program tree. |
| `Programs.FunctionsFrom` | src/engine.cpp:351-356 | A name in the function table is the root or a direct child of it, is a definition, and has that name. |
| `Engine.Frame.Find` | src/engine.cpp:15-28 | Finds a name in the frame, else in its parent, exactly where the scope of the reference semantics has it. |
| `Engine.ExecState.Eval` | src/engine.cpp:326-349 | Updating the fields in place computes the reference evaluation: same value, frames, steps, depth, error flags and trace; never both errored and cancelled, depth and steps within their limits. |
| `Engine.ExecState.EvalInner` | src/engine.cpp:119-324 | The switch by kind continues the announced node exactly as the reference semantics does. |
| `Engine.ExecState.EvalOperand` | src/engine.cpp:66-70 | One operand evaluated and handed to its node, or the stop of the whole node. |
| `Engine.ExecState.EvalInt` | src/engine.cpp:66-76 | An operand that must be an integer: the value, or the failure of the node that asked. |
| `Engine.ExecState.EvalChildren` | src/engine.cpp:59-64 | One round of a loop body, stopping at the first error or cancellation. |
| `Engine.ExecState.EvalDo` | src/engine.cpp:121-128 | The statements in order, with the value of the last. |
| `Engine.ExecState.EvalStatements` | src/engine.cpp:121-128 | The loop of do and of a when whose condition holds, from its first statement to its value. |
| `Engine.ExecState.EvalRepeat` | src/engine.cpp:130-143 | A negative count and a count over the limit fail; otherwise exactly that many rounds. |
| `Engine.ExecState.EvalWhen` | src/engine.cpp:145-160 | The body, or every statement of it reported as skipped. |
| `Engine.ExecState.EvalIf` | src/engine.cpp:162-169 | The branch not taken is reported as skipped and the other evaluated. |
| `Engine.ExecState.EvalWhile` | src/engine.cpp:171-185 | Each iteration spends a step before its condition, and fails at the step limit. |
| `Engine.ExecState.EvalDefine` | src/engine.cpp:190-195 | Binds the value in the frame it is evaluated in. |
| `Engine.ExecState.EvalSet` | src/engine.cpp:197-204 | Assigns where the name is found, or fails and changes nothing. |
| `Engine.ExecState.EvalRef` | src/engine.cpp:206-210 | The value of the innermost binding, or the failure. |
| `Engine.ExecState.CallFunction` | src/engine.cpp:78-113 | Looks the function up before the arguments, checks the depth after them, binds parameters, and restores the depth on every exit. |
| `Engine.ExecState.CallFrame` | src/engine.cpp:99-103 | A new frame over the global one that binds the parameters left to right. |
| `Engine.ExecState.RunBody` | src/engine.cpp:105-112 | The statements of the callee in that frame, and the depth restored however they end. |
| `Engine.ExecState.EvalDrive` | src/engine.cpp:215-225 | Both operands are evaluated before the ranges are checked, speed first; then one host command. |
| `Engine.ExecState.EvalTurn` | src/engine.cpp:227-235 | The range check and the one host command of a turn. |
| `Engine.ExecState.EvalWait` | src/engine.cpp:241-247 | The range check and the one host command of a wait. |
| `Engine.ExecState.EvalLight` | src/engine.cpp:249-255 | Only a color reaches the light. |
| `Engine.ExecState.EvalPlainCommand` | src/engine.cpp:237-259 | stop and beep. |
| `Engine.ExecState.EvalSensor` | src/engine.cpp:261-264 | One reading, recorded in the trace. |
| `Engine.ExecState.EvalCompare` | src/engine.cpp:266-283 | Both operands must be integers; the comparison by operator. |
| `Engine.ExecState.EvalBoolean` | src/engine.cpp:285-299 | not, and the short circuit of and/or. |
| `Engine.ExecState.EvalArithmetic` | src/engine.cpp:301-317 | The left fold over integer operands, failing at the first that is none or at a zero divisor after the first; division truncates toward zero. |
| `Engine.ExecState.Fail` | src/engine.cpp:49-52 | Sets the error once and reports the NodeError last. |
| `Engine.CollectFunctions` | src/engine.cpp:351-356 | The loop builds the function table: a later definition of a name replaces an earlier one. |
| `Engine.Execute` | src/engine.cpp:360-382 | The whole imperative run computes the reference run, for every host, limit and cancel flag. |
| `Lexer.IsInteger` | src/lexer.cpp:23-33 | True exactly on an optional minus sign and one or more digits. |
| `Lexer.ParseInt` | src/lexer.cpp:35-48 | The accumulator stays within 0..2^63-1; success exactly when the decimal magnitude is at most 2^63-1, leading zeros included, and then the exact signed value. |
| `Lexer.LexSource` | src/lexer.cpp:52-130 | The scanning loop with its offset, line and column yields the tokens and diagnostics of the specification. |
| `Lexer.Cursor.Advance` | src/lexer.cpp:59-67 | Keeps line and column equal to the fold over the source before the offset. |
| `Lexer.ScanLexeme` | src/lexer.cpp:69-126 | One turn of the loop: blank, comment, parenthesis, word or unexpected byte. |
| `Lexer.SkipComment` | src/lexer.cpp:76-79 | Stops at the line end, or at the end of the source. |
| `Lexer.ScanWord` | src/lexer.cpp:91-119 | The longest run of symbol bytes, classified and reported as integer, symbol or problem. |
| `LexerTheorems.LexerTiles` | src/lexer.cpp:52-130 | Tokens are in order, disjoint and equal to their source slices with the right lines and columns; the only End is last; a byte is in a token exactly if it is a parenthesis or symbol byte outside comments, and reported as unexpected exactly if it is neither that, nor blank, nor in a comment. |
| `LexerTheorems.LexTiles` | src/lexer.cpp:52-130 | The same from every offset at which lexing can resume. |
| `Parser.ParseSource` | src/parser.cpp:85-101 | The parser with its position and shared diagnostics returns the specified program. |
| `Parser.ParserState.ReadList` | src/parser.cpp:29-56 | The loop over a list, to its closing parenthesis or the end. |
| `Parser.ParserState.ReadExpr` | src/parser.cpp:58-83 | One expression or one diagnostic; always in bounds and always advancing except at End. |
| `ParserTheorems.ProgramReads` | src/parser.cpp:85-101 | Flattening what was read gives the tokens without stray closing parentheses and without the outermost unclosed list; diagnostics number the strays plus one if a list is unclosed. |
| `ParserTheorems.CleanExactlyWhenMatched` | src/parser.cpp:27-101 | On every source the parser adds no diagnostic exactly when parentheses balance. |
| `ParserTheorems.SourceSpans` | src/parser.cpp:21-56 | On every source, list spans enclose their children, which are in order and disjoint. |
| `ParserTheorems.ExprReads` | src/parser.cpp:58-83 | One expression flattens to exactly the tokens it consumed, or is an unclosed list that consumed all. |
| `BrowserParser.ParseCardCode` | app/src/parser.js:1-14 | The editor parser object computes the specified tree, or throws at the specified place. |
| `BrowserParser.Parser.SkipIgnored` | app/src/parser.js:26-32 | Blanks by the regular expression \s, and comments, in any alternation. |
| `BrowserParser.Parser.ParseExpr` | app/src/parser.js:34-39 | A list, an atom, or the error at a closing parenthesis. |
| `BrowserParser.Parser.ParseList` | app/src/parser.js:41-53 | The children up to the closing parenthesis, or the error at the end of the source. |
| `BrowserParser.Parser.ParseAtom` | app/src/parser.js:55-61 | The longest run up to a blank, parenthesis or semicolon, integer or symbol by its text. |
| `BrowserParser.Parser.Error` | app/src/parser.js:63-68 | The span of a thrown error: one character, or none at the end. |
| `BrowserParser.LineColumnAt` | app/src/parser.js:84-96 | The counting loop equals the line and column of the shared definition. |
| `BrowserParser.SpanFromOffsets` | app/src/parser.js:71-82 | The six fields of a span from its offsets. |
| `ParsersAgree.TwoParsersAgree` | src/parser.cpp:27-101 | For every Unicode text whose UTF-8 bytes the engine lexer and parser accept without diagnostics, the editor parser reads from its UTF-16 units the same tree: shapes, symbols, integer values, lines, columns, and offsets that mark the same places of the text. |
| `ParsersAgree.ExprAgrees` | app/src/parser.js:34-61 | The same for one expression from any place where the two scanners are in step. |
| `ParsersAgree.SpansEqualExactly` | app/src/parser.js:71-96 | Two such spans have equal lines and columns always, and are equal in their offsets too exactly when the text up to their end is ASCII. |
| `ParsersAgree.CommentMovesOffsets` | src/lexer.cpp:76-79 | In a text with a comment that holds one letter outside ASCII, the list that follows begins at byte 5 and at unit 4. |
| `ParsersAgree.AsciiParsersAgree` | src/parser.cpp:27-101 | On every ASCII source that the engine accepts, both parsers return the same tree with equal spans, offsets included. |
| `Encodings.OffsetsEqualExactly` | app/src/parser.js:71-82 | A position has the same byte and unit offset exactly when all before it is ASCII; the byte offset is never smaller. |
| `Encodings.LinesAgree` | src/lexer.cpp:59-67 | A position has the same line in every encoding, and the same column if its line so far is ASCII. |
| `Compiler.Context.Compile` | src/compiler.cpp:321-354 | Appends to the shared diagnostics exactly those of the specified translation, and returns its node or none. |
| `Compiler.Context.CompileForm` | src/compiler.cpp:237-319 | The dispatch on the head of a list: empty list, non-symbol head, control, define, command, sensor, operator, call. |
| `Compiler.Context.CompileControl` | src/compiler.cpp:242-302 | do, repeat, when, if, while and set!: argument counts and the literal repeat check. |
| `Compiler.Context.CompileDefine` | src/compiler.cpp:109-158 | Variable and function definitions, where they are allowed and what they may be named. |
| `Compiler.Context.CompileParams` | src/compiler.cpp:129-138 | Each parameter must be an unreserved symbol; the others are reported and dropped. |
| `Compiler.Context.CompileCommand` | src/compiler.cpp:160-204 | Argument counts and literal ranges of the commands. |
| `Compiler.Context.CompileOperator` | src/compiler.cpp:206-235 | Operand counts of the operators. |
| `Compiler.Context.CompileSensor` | src/compiler.cpp:305-312 | Sensors take no argument. |
| `Compiler.Context.CompileCall` | src/compiler.cpp:91-107 | A call of an unknown function or with a wrong count is reported. |
| `Compiler.Context.CompileElements` | src/compiler.cpp:256-260 | Compiles a range of elements, keeping those that compile and the diagnostics of all. |
| `Compiler.Context.Build` | src/compiler.cpp:256-261 | Puts a node together, or drops it when an argument did not compile. |
| `Compiler.CollectArity` | src/compiler.cpp:366-382 | The arity table of the top-level definitions and the duplicates reported. |
| `Compiler.Counter.Assign` | src/compiler.cpp:360-364 | Numbers a tree through one counter as specified, in pre-order. |
| `Compiler.Counter.AssignAll` | src/compiler.cpp:362-363 | The same over a list of subtrees, one after the other. |
| `Compiler.CompileSource` | src/compiler.cpp:391-448 | From text to a numbered root and all diagnostics, as specified. |
| `Compiler.CompileTopLevel` | src/compiler.cpp:428-431 | The top-level expressions compiled in order, keeping those that compile. |
| `Lossless.ExprReads` | src/compiler.cpp:321-354 | A null result has appended an error; a clean result reads back as exactly the raw expression, spans apart. |
| `Lossless.FormReads` | src/compiler.cpp:237-319 | An accepted form whose parts read back as its elements reads back as the whole form. |
| `CompiledPrograms.CompiledReadsBack` | src/compiler.cpp:391-448 | When compile is ok, the root reads back as the single source expression, or as a do of all of them. |
| `CompiledPrograms.CompiledIsWellFormed` | src/compiler.cpp:91-319 | When compile is ok, every node has the operands of its kind, every call names a function in the run-time table with exactly that many parameters, and literal arguments are in range. |
| `CompiledPrograms.FunctionsResolve` | src/compiler.cpp:366-382 | Every name in the arity table is a function at run time with that number of parameters, whichever shape the root has. |
| `CompiledPrograms.ArityIsExact` | src/compiler.cpp:366-382 | Without duplicates the table holds exactly the names and parameter counts of the signatures. |
| `CompiledPrograms.ExprFormed` | src/compiler.cpp:321-354 | A clean expression has the shape of its kind throughout, and is an integer literal exactly where the source has an integer, with its value. |
| `NodeIds.NumberIsPreOrder` | src/compiler.cpp:360-364 | The highlightable nodes get consecutive identifiers in pre-order, arguments before children; nothing else of any node changes, the identifiers of the other nodes included. |
| `NodeIds.CompiledIdsOfOthers` | src/compiler.cpp:391-448 | In every compiled tree the nodes that are not highlightable have identifier 0. |
| `NodeIds.CompiledQuiet` | src/compiler.cpp:33-39 | Compiling an expression gives no node that is not highlightable an identifier other than 0. |
| `NodeIds.IdsAreUnique` | src/compiler.cpp:386-389 | Two highlightable nodes of a numbered tree have the same identifier exactly when they are the same node, and it is the index in pre-order. |
| `Layout.LayoutDoesNotMatter` | src/compiler.cpp:391-448 | Sources with equal tokens apart from spans compile to trees equal apart from spans, identifiers included. |
| `Layout.BareCompile` | src/compiler.cpp:321-354 | Forgetting spans before compiling an expression is the same as forgetting them after, diagnostics included. |
| `Pipeline.CompileAndRun` | src/engine.cpp:384-399 | The imperative compiler and engine chained, with no demand on the text: whatever compiles can be run. |
| `Pipeline.EverySourceRunsSafely` | src/engine.cpp:384-399 | For every text, host, cancel flag and limits: a program that is run is never undefined, its trace has the shape of a complete run over its own nodes, what it blames on literals is what the row of Safety.WellFormedRunsAreSafe says, and steps, time and angle keep to the step limit. |
| `Pipeline.SameIdSameNode` | src/engine.cpp:334-347 | In any run two NodeStart events share an identifier exactly when they come from the same node. |
| `Pipeline.QuietEventsCarryZero` | src/engine.cpp:115-117 | In every run of a compiled text, an event about a node that is not highlightable is a skip or an error, and carries identifier 0. |
| `Json.JsonEscape` | harness/json.hpp:23-47 | The escaping loop equals the escape of each byte in turn. |
| `Json.JArr` | harness/json.hpp:73-81 | The array loop writes the items with commas between them. |
| `Json.JObj` | harness/json.hpp:55-67 | The object loop writes the fields with commas between them. |
| `Json.JsonParser.SkipBlanks` | harness/json.hpp:126-128 | Advances over blanks. |
| `Json.JsonParser.ReadValue` | harness/json.hpp:130-141 | Any value, leaving the index after it, or failure. |
| `Json.JsonParser.ReadObject` | harness/json.hpp:143-165 | The members up to the closing brace; the first of a repeated key is kept. |
| `Json.JsonParser.ReadMember` | harness/json.hpp:149-158 | A key, a colon and a value. |
| `Json.JsonParser.ReadArray` | harness/json.hpp:167-182 | The elements up to the closing bracket. |
| `Json.JsonParser.ReadString` | harness/json.hpp:189-238 | The characters and escapes up to the closing quote. |
| `Json.JsonParser.ReadNumber` | harness/json.hpp:251-262 | The longest run of number bytes, read exactly when it is a decimal integer of magnitude at most 2^53. |
| `Json.JsonParse` | harness/json.hpp:267-273 | One value; what follows it is tolerated. |
| `JsonRoundTrip.JsonRoundTrips` | harness/json.hpp:49-81 | Parsing what the writer built from any document with integers of magnitude at most 2^53 gives its value. |
| `Json.Serialise` | harness/json.hpp:49-81 | Building a document from the inside out by json_escape, jarr and jobj_v gives exactly the text of that theorem. |
| `JsonRoundTrip.WriteReads` | harness/json.hpp:130-263 | The same in the middle of any text, whatever follows that cannot continue a number. |
| `JsonRoundTrip.QuoteReads` | harness/json.hpp:189-238 | Every byte string survives escaping and reading. |
| `JsonRoundTrip.DistinctFields` | harness/json.hpp:143-165 | With distinct keys an object reads back as exactly its fields. |
| `JsonRoundTrip.WritePrintable` | harness/json.hpp:23-81 | No byte below a blank is ever written, so a message is one line. |
| `Frames.WriteServerFrame` | tools/dev-server.js:16-33 | The header bytes written into a buffer, in the shortest of the three length forms. |
| `Frames.WriteBigEndian` | tools/dev-server.js:22-30 | Writes the big-endian bytes of a number and changes no other byte. |
| `Frames.UnmaskInPlace` | tools/dev-server.js:68-71 | The in-place loop is exclusive or with the repeated mask. |
| `Frames.ReadFrame` | tools/dev-server.js:39-73 | One turn of the decoding loop: a frame, not enough bytes, or a refusal. |
| `Frames.DecodeClientFrames` | tools/dev-server.js:35-77 | All complete frames in order and the rest, or the refusal. |
| `Frames.BigEndianReads` | tools/dev-server.js:22-58 | Reading a big-endian number undoes writing it. |
| `Frames.MaskedTwice` | tools/dev-server.js:68-71 | Unmasking undoes masking. |
| `FrameTheorems.StreamingIsDecoding` | tools/dev-server.js:35-77 | Decoding a stream in any chunks, carrying the rest forward, yields the frames and final rest of decoding it whole, and is refused exactly when the whole is. |
| `FrameTheorems.ServerFrameDecodes` | tools/dev-server.js:16-77 | Decoding undoes encodeServerFrame across all three length forms, whatever follows. |
| `FrameTheorems.ClientFrameDecodes` | tools/dev-server.js:35-77 | Decoding undoes client framing and masking, whatever follows. |
| `FrameTheorems.ClientStreamArrives` | tools/dev-server.js:35-77 | Any sequence of masked client frames arrives as sent however the transport cuts the bytes. |
| `Bridge.OneRunAtATime` | harness/protocol_bridge.hpp:67-91 | Under every interleaving at most one worker thread is at work, and it is the run accepted last. |
| `Bridge.JoinNeverWaitsForWork` | harness/protocol_bridge.hpp:70-72 | A joinable thread is never overwritten, and a join waits at most for a thread that has nothing left but to return. |
| `Bridge.BlocksNeverOverlap` | harness/protocol_bridge.hpp:78-87 | The messages of successive runs never overlap; each block is diagnostics and then, if it compiled, programStart, events and one terminal message. |
| `Bridge.CancelIsSinceAcceptance` | harness/protocol_bridge.hpp:53-75 | What a run at work reads from the cancel flag is whether a cancel has been handled since that very run was accepted. |
| `Bridge.CancelStays` | harness/protocol_bridge.hpp:53-75 | A cancel after acceptance stays set, through every step, until that run is over. |
| `Bridge.CancelledRunsWereCancelled` | harness/protocol_bridge.hpp:67-91 | A run that ends as cancelled had a cancel handled after it was accepted and before it ended. |
| `Bridge.AlwaysInv` | harness/protocol_bridge.hpp:42-91 | The invariant behind these, in every state reached by any sequence of steps of the control and worker threads. |
| `Bridge.ProtocolBridge.HandleRun` | harness/protocol_bridge.hpp:67-70 | The exchange on the running flag and the reply to a second run: that step of the protocol system, keeping its invariant. |
| `Bridge.ProtocolBridge.HandleCancel` | harness/protocol_bridge.hpp:53-53 | Sets the flag, whatever is running. |
| `Bridge.ProtocolBridge.HandleOther` | harness/protocol_bridge.hpp:60-65 | At most a reply, and nothing else changes. |
| `Bridge.ProtocolBridge.TryJoin` | harness/protocol_bridge.hpp:71-71 | Reaps the previous worker, or waits for it to return. |
| `Bridge.ProtocolBridge.ClearCancel` | harness/protocol_bridge.hpp:73-74 | Clears the flag before the worker starts. |
| `Bridge.ProtocolBridge.SpawnWorker` | harness/protocol_bridge.hpp:77-89 | Starts the worker thread, and never over a joinable one. |
| `Bridge.ProtocolBridge.EmitDiagnostics` | harness/protocol_bridge.hpp:78-82 | Diagnostics first, and the program only if it compiled. |
| `Bridge.ProtocolBridge.StartProgram` | harness/protocol_bridge.hpp:82-82 | programStart. |
| `Bridge.ProtocolBridge.PollCancel` | harness/protocol_bridge.hpp:82-82 | Reads the flag, which is up exactly if a cancel was handled since this run was accepted. |
| `Bridge.ProtocolBridge.EmitEvent` | harness/protocol_bridge.hpp:82-82 | One event of the run. |
| `Bridge.ProtocolBridge.EmitStop` | harness/protocol_bridge.hpp:82-82 | The safety stop of a cancelled run. |
| `Bridge.ProtocolBridge.EndProgram` | harness/protocol_bridge.hpp:82-82 | The terminal message. |
| `Bridge.ProtocolBridge.ReleaseBridge` | harness/protocol_bridge.hpp:84-84 | Clears the running flag as the last act of the job. |
| `Bridge.ProtocolBridge.ReturnFromThread` | harness/protocol_bridge.hpp:85-85 | The thread function returns. |
| `Bridge.ProtocolBridge.Perform` | harness/protocol_bridge.hpp:42-89 | The next step of any thread, if that thread is where it can make it; nothing otherwise. |
| `Bridge.RunSchedule` | harness/protocol_bridge.hpp:42-89 | Any schedule of control and worker steps, carried out on the object, ends in the state of the step system, with the invariant. |
| `EditorTheorems.RoundIsIdempotent` | app/src/generator.js:1-105 | For every source that the editor can parse, what one round (parse, project, generate) writes can be parsed, and a second round writes the same text exactly when no list of two or more elements in a value position has a list as its head. |
| `EditorTheorems.RoundKeepsTheTree` | app/src/projection.js:4-149 | For every such source, the round keeps the syntax tree, integers by value, exactly when each statement is a list headed by a symbol, none is a set! of two arguments whose target is printed as an object, and no list in a value position has a list as its head. |
| `EditorTheorems.AssignmentIsGarbled` | app/src/generator.js:34-36 | The source "(set! x 5)" is written as "(set! [object Object] 5)". |
| `EditorTheorems.NestedHeadIsLost` | app/src/projection.js:121-128 | The source "(wait ((f) x))" is parsed and written as "(wait ( x))", and that is parsed and written as "(wait (x))". |
| `EditorTheorems.StatementAgain` | app/src/projection.js:8-87 | The tree that a statement is read back as is written as the same text at every indentation, if no list heads a list in it. |
| `EditorTheorems.ProgramGap` | app/src/generator.js:97-105 | The text of a program has a blank right after an opening parenthesis exactly when a list headed a list. |
| `EditorReads.FormsRead` | app/src/parser.js:1-61 | The generated text always parses, as exactly the tree predicted from the syntax tree it came from. |
| `EditorReads.StatementReads` | app/src/generator.js:10-95 | The same for one statement at any indentation in the middle of any text. |
| `EditorReads.ProgramIsParsed` | app/src/parser.js:55-61 | Every atom the editor parser makes is a word of the kind it says. |
| `EditorReads.Settles` | app/src/projection.js:132-135 | Printing a projected integer keeps its value, and printing it again changes nothing. |
| `EditorText.ProgramWritten` | app/src/generator.js:1-105 | The detour through cards, every branch of projection and generation included, writes what the direct account of the syntax tree says. |
| `EditorText.StatementWritten` | app/src/projection.js:8-95 | The same for one statement at any indentation. |
| `EditorText.ValueWritten` | app/src/projection.js:110-135 | The same for a value. |
| `EditorWriter.GenerateProgram` | app/src/generator.js:1-8 | The writer object yields the text of the cards and the span of each. |
| `EditorWriter.Writer.WriteCard` | app/src/generator.js:10-45 | Appends the text of the card and records its span, after those of the cards inside it. |
| `EditorWriter.Writer.WriteLine` | app/src/generator.js:28-42 | The cards that are one line. |
| `EditorWriter.Writer.WriteSequence` | app/src/generator.js:47-54 | The head on a line, each child on its own. |
| `EditorWriter.Writer.WriteLines` | app/src/generator.js:49-52 | Each child after a line break. |
| `EditorWriter.Writer.WriteIf` | app/src/generator.js:56-63 | The condition and the two branches. |
| `EditorWriter.Writer.WriteBranch` | app/src/generator.js:65-80 | No card, one card, or a do over several. |
| `EditorWriter.Writer.WriteFunction` | app/src/generator.js:82-90 | The signature and the body. |
| `EditorSpans.SpansAreCardTexts` | app/src/generator.js:44-44 | Every card of a projected program has a recorded span, no other card overwrites it, and the text there is exactly that of the card, from its indentation on. |
| `EditorSpans.LinesNames` | app/src/projection.js:4-6 | No two positions among the cards of a projected program carry the same name. |
| `EditorPlaces.RecordedSpansAreIndented` | app/src/generator.js:11-11 | When the generated text is parsed again, the tree has, for each card at indentation d, a list that begins 2 * d characters after the recorded start and ends with the card; its span is the recorded one exactly when d is 0. |
| `EditorPlaces.ProgramOpens` | app/src/parser.js:41-53 | In a text without comments every opening parenthesis opens a list of the parsed tree, the one that the parser reads from there. |
| `EditorSpans.ProgramRight` | app/src/generator.js:44-44 | Every recorded span belongs to a card of that name whose text stands there. |
| `Engine.ExecState.Report` | src/engine.cpp:43-48 | Appends one entry to the trace. |
| `Compiler.Context.Err` | src/compiler.cpp:29-31 | Appends one diagnostic. |
| `Compiler.Context.CompileValue` | src/compiler.cpp:356-358 | An expression in a place where no function can be defined. |
| `Compiler.Context.LiteralCheck` | src/compiler.cpp:164-169 | Reports a literal argument outside its range, at its own span. |
| `Parser.ParserState.Next` | src/parser.cpp:14-18 | Returns the current token and advances, except at End. |
| `Semantics.Eval` | src/engine.cpp:326-349 | The reference evaluation of a node: it terminates for every host and cancel flag, by remaining steps and node size; steps never go down, and a call frame stays a call frame. |
| `Semantics.Run` | src/engine.cpp:119-324 | The same for a node from the middle of its work. |
| `TraceGrammar.RunScans` | src/engine.cpp:119-324 | The automaton invariant from the middle of any node. |
| `Bounds.RunCounts` | src/engine.cpp:119-324 | The step count invariant from the middle of any node. |
| `Evaluations.RunWork` | src/engine.cpp:119-324 | The amortised bound from the middle of any node, by the work it still owes. |
| `Safety.RunSafe` | src/engine.cpp:119-324 | The safety invariant from the middle of any node. |
| `Isolation.RunNames` | src/engine.cpp:119-324 | The same from the middle of any node. |
| `BrowserParser.Skip` | app/src/parser.js:26-32 | Ends at the end of the source or before a character that is neither blank nor semicolon. |
| `BrowserParser.AtomEnd` | app/src/parser.js:55-57 | Ends at the end of the source or before a character that ends an atom, and takes at least one character otherwise. |
| `Frames.XorTwice` | tools/dev-server.js:68-71 | Exclusive or with the same byte twice changes nothing. |
| `EditorWriter.Writer.Append` | app/src/generator.js:10-45 | Appends text to the source. |
| `Blame.BlamedByFault` | src/engine.cpp:119-349 | In every run a NodeError is about a node of a kind that has this fault; the node is not highlightable exactly when the fault is an undefined variable, operands of a comparison or computation, or a division by zero. |
| `Blame.AnnouncedAreHighlightable` | src/engine.cpp:334-347 | In every run NodeStart and NodeDone are about highlightable nodes only. |
| `Blame.LoudProgramsReportHighlightable` | src/engine.cpp:115-169 | If no when has a statement and no if a branch that is not highlightable, and no variable is read and nothing compared or computed, every node event of every run is about a highlightable node. |
| `Blame.QuietReports` | src/engine.cpp:115-317 | For one single move of one node: exactly when it reports a node that is not highlightable. |
| `Blame.IfReportsTheOther` | src/engine.cpp:162-169 | Every if whose condition is evaluated reports the branch it does not take as the next entry, which is so about a node that is not highlightable exactly when that branch is none. |
| `Blame.QuietBranchesAreReported` | src/engine.cpp:162-169 | An if with no highlightable branch reports one whenever its condition is evaluated. |
| `Blame.TakenBranchesMayStaySilent` | src/engine.cpp:162-169 | For (if true 5 (stop)) the condition on trees fails and the branch that breaks it is taken, and no run reports a node that is not highlightable. |
| `Blame.WhenReportsItsStatements` | src/engine.cpp:155-157 | Every when that does not hold reports all its statements in order and nothing else. |
| `Blame.QuietNodesMayStaySilent` | src/engine.cpp:266-283 | The condition on trees is not necessary: a comparison of two integer literals breaks it, and no run of it has any node event. |
| `StepLimits.StepLimitBlames` | src/engine.cpp:171-177 | A step-limit error is about a highlightable node, which is either the innermost open node, a while, or next to start, and never both; every other fault of a highlightable node is that of the innermost open one. |
| `StepLimits.StartedExactlyWhenGoingRound` | src/engine.cpp:334-341 | Allowed one more step, a run that the step limit failed goes on from the same point, and with the start of the blamed node exactly when that was not an innermost open while. |
| `StepLimits.StartedLoopIsBlamed` | src/engine.cpp:173-174 | With one step, a while at the root is started and then blamed. |
| `StepLimits.NoLoopNoRound` | src/engine.cpp:334-341 | In a well-formed program without a while the node blamed for the step limit was next to start: with one more step the run goes on with its start. |
| `StepLimits.UnstartedLoopIsBlamed` | src/engine.cpp:336-339 | With no step, it is blamed without being started. |
| `LiteralFaults.LiteralRepeatFailsExactly` | src/engine.cpp:134-137 | In every run that starts a repeat with a literal count and is not cancelled, the node fails with the repeat limit exactly when the count is over max_repeat_count. |
| `LiteralFaults.LiteralLightFailsExactly` | src/engine.cpp:249-255 | In every such run a light given a literal fails exactly when that is no colour. |
| `LiteralFaults.LiteralDivision` | src/engine.cpp:301-317 | A division of two literals fails exactly when the second is zero, and truncates otherwise. |
| `LiteralFaults.DoomedNodesFail` | src/engine.cpp:326-349 | If a node, once started, can only go on with a certain failure of itself or of its first operand, each start of it in any run is followed at once by that error, or by the safety stop of a cancelled run. |
| `LiteralFaults.LiteralIntegerFailsExactly` | src/engine.cpp:66-76 | In every run that starts a repeat, drive, backward, turn or wait given literals only and is not cancelled, the node fails with an expected integer exactly when they are not all integers. |
| `LiteralFaults.LiteralOperationFailsExactly` | src/engine.cpp:266-317 | In every such run of a node whose first operand is a comparison or computation of literals, that fails with its operands exactly when they are not all integers, and with a division by zero exactly when it divides an integer by the integer zero. |
| `LiteralFaults.OperationEvaluates` | src/engine.cpp:266-317 | Evaluated anywhere, unless cancelled there, a comparison or computation of literals fails with that fault and otherwise has a value. |
| `LiteralFaults.ConstantsRead` | src/engine.cpp:66-76 | Literal operands are read one after the other, one poll each, until one makes the node fail or the run is cancelled. |
| `LiteralPrograms.RepeatPrograms` | src/compiler.cpp:249-262 | The text "(repeat N)" compiles for every N up to 100; undisturbed, its run fails with the repeat limit exactly when N is over max_repeat_count, and its whole trace is as stated. |
| `LiteralPrograms.LightPrograms` | src/compiler.cpp:160-204 | The text "(light N)" compiles for every integer N, and undisturbed its run always fails with an expected colour. |
| `LiteralPrograms.MistypedPrograms` | src/compiler.cpp:160-204 | The text of a repeat, wait or turn given true, false or a colour compiles, and undisturbed its run always fails with an expected integer. |
| `LiteralPrograms.WaitTrueFails` | src/compiler.cpp:160-204 | The instance "(wait true)". |
| `LiteralPrograms.NumbersInRange` | src/lexer.cpp:35-48 | The decimal text of a number is accepted exactly when the number lies between -(2^63 - 1) and 2^63 - 1. |
| `LiteralPrograms.LeastIntegerIsRejected` | src/lexer.cpp:35-48 | The word -9223372036854775808 denotes -2^63 and is reported as out of range. |
| `Cancellation.CancelledExactlyByAPoll` | src/engine.cpp:329-332 | For a flag that depends on the poll number, a run is cancelled exactly when the flag reads true at some poll that the run would make if nobody cancelled. |
| `Cancellation.CancelledByLastPoll` | src/engine.cpp:329-332 | For any flag: a run is cancelled exactly when its last poll, made with the trace then left, reads true; every other poll has read false. |
| `Cancellation.LaterCancelsDoNotMatter` | src/engine.cpp:366-381 | Whatever the flag would read after the polls that a run makes, the run is the same. |
| `Cancellation.CancelledTooLate` | src/engine.cpp:379-381 | A program that only beeps, with the flag up from right after its only poll, ends in ProgramDone. |
| `Laws.EvalLaw` | src/engine.cpp:326-349 | Every node polls the cancel flag once; the twenty kinds listed in ANNOUNCED then need and spend a step and stand in the trace from NodeStart to NodeDone, and all other kinds leave no mark of their own. |
| `Laws.DriveLaw` | src/engine.cpp:215-225 | In terms of evaluating the two operands alone: drive and backward send exactly DriveForward(s, d) or DriveBackward(s, d) for the values s and d of the first and second operand, after both are integers and in range, and otherwise fail with the stated fault. |
| `Laws.TurnLaw` | src/engine.cpp:227-247 | turn-left, turn-right and wait send exactly TurnLeftBy, TurnRightBy or WaitMs of the value of their operand, or fail with the stated fault. |
| `Laws.LightLaw` | src/engine.cpp:249-255 | light sends exactly SetLight of the colour that its operand evaluates to, or fails. |
| `Laws.PlainLaw` | src/engine.cpp:237-259 | stop sends StopMotors and beep sends BeepOnce. |
| `Laws.SensorLaw` | src/engine.cpp:261-264 | A sensor has the reading that the robot gives at that point, and the trace records it. |
| `Laws.LiteralLaw` | src/engine.cpp:319-321 | Literals have the value they carry; a definition of a function has none. |
| `Laws.CompareLaw` | src/engine.cpp:266-283 | Both operands are evaluated first; then the comparison is the integer relation of its operator, or the node fails if one is no integer. |
| `Laws.NotLaw` | src/engine.cpp:285-290 | not negates the truth of its operand: true, numbers but zero, and every colour. |
| `Laws.ConnectiveLaw` | src/engine.cpp:291-298 | and is true if all operands are, or if some is, and the first that decides is the last evaluated. |
| `Laws.ArithmeticLaw` | src/engine.cpp:301-317 | + is the sum of all operands, * the product, - the difference of two; the first operand that is no integer fails the node. |
| `Laws.DivisionLaw` | src/engine.cpp:301-317 | / gives the quotient whose remainder is smaller than the divisor and has the sign of the dividend, or fails at a zero divisor. |
| `Laws.DoLaw` | src/engine.cpp:121-128 | do is its statements one after the other, with the value of the last. |
| `Laws.WhenLaw` | src/engine.cpp:145-160 | when is its statements if its condition is true, and otherwise reports each of them as skipped, in order. |
| `Laws.IfLaw` | src/engine.cpp:162-169 | if reports the branch it does not take and then is the other. |
| `Laws.RepeatLaw` | src/engine.cpp:130-143 | repeat is as many rounds of its statements as its count says, which must be an integer, not negative and not over the limit. |
| `Laws.WhileLaw` | src/engine.cpp:171-185 | while takes a step for each iteration or fails for want of one, stops if its condition is not true, and otherwise is its statements and then itself again. |
| `Laws.DefineLaw` | src/engine.cpp:190-195 | define binds the value of its operand in the frame where it stands, and has that value. |
| `Laws.SetLaw` | src/engine.cpp:197-204 | set! gives the innermost binding the value of its operand, or fails where there is none. |
| `Laws.RefLaw` | src/engine.cpp:206-210 | A variable has the value of its innermost binding, or fails. |
| `Laws.CallLaw` | src/engine.cpp:78-113 | A call of an unknown function fails before its arguments; then the arguments are evaluated in order, then the depth is checked; the body runs one level deeper in a frame with exactly the parameters, the i-th bound to the i-th argument or to no value, the later of two equal names counting; the scope of the caller is as the arguments left it. |
| `Laws.TableLaw` | src/engine.cpp:351-356 | A name stands for the last direct child of the root that defines it, or for the root if only that does, or for nothing. |
| `Laws.TruthIs` | include/cardcode/value.hpp:28-36 | True are true, integers but zero, and every colour. |
| `Scripts.ScriptsAreObeyed` | src/engine.cpp:360-399 | For every list of commands and sensor reads, with arguments in range: their text, one form to a line with the words and decimal numbers written out, compiles, and if nobody cancels and there is a step for each node its run succeeds with exactly these commands and readings, in this order, each between the start and the end of its node. |
| `Scripts.ScriptCompiles` | src/compiler.cpp:391-448 | Such a text compiles without diagnostics to its one node, or to a do of its nodes, each of the right kind with the right literals. |
| `Scripts.DrivePrograms` | src/engine.cpp:215-225 | The text "(drive S D)" has the trace ProgramStart, NodeStart, DriveForward(S, D), NodeDone, ProgramDone, for all S up to 100 and D up to 10000. |
| `Scripts.DriveForty` | examples/square.ccode:3-3 | The instance "(drive 40 1000)", in digits. |
| `Legality.CompilesExactly` | src/compiler.cpp:91-358 | An expression compiles without diagnostics exactly if it is legal by an own table of forms with their argument counts and literal ranges. |
| `Legality.CompilesExactlyWhenLegal` | src/compiler.cpp:391-448 | A source compiles exactly if lexer and parser report nothing, there is an expression, no function is defined twice, and every top-level expression is legal, where the functions known are exactly the ones defined. |
| `Legality.ExactlyReported` | src/compiler.cpp:91-358 | The diagnostics of an expression are exactly the complaints of that account, in order and at their places, and a legal list becomes a node of the kind in the table. |
| `Legality.ProgramReported` | src/compiler.cpp:391-448 | The diagnostics of a source are those of its parse, then each repeated definition of a function, then the complaints about its statements. |
| `Legality.LegalExactly` | src/compiler.cpp:91-358 | An expression is legal exactly if nothing is complained of. |
| `CompiledParts.CompiledIs` | src/compiler.cpp:391-448 | A source that compiles becomes the tree of its expressions: each node has the kind in the table, the span of its expression, its name, parameters or value, and as arguments and statements the nodes of exactly the elements that the form says. |
| `CompiledParts.ExprIs` | src/compiler.cpp:91-358 | The same for one expression that compiles without diagnostics. |
| `CompiledParts.NumberedIs` | src/compiler.cpp:360-364 | Numbering keeps all of that. |
| `Alphabet.EveryByte` | src/lexer.cpp:9-20 | A byte outside comments is in a token exactly if it is a parenthesis or one of the 73 bytes written out, and is reported exactly if it is neither that nor one of the four blanks written out. |
| `Alphabet.LanguageLexes` | src/compiler.cpp:41-89 | Every word of the language, all written out, lexes without diagnostics to one symbol with that text, and the end. |
| `Alphabet.WordLexes` | src/lexer.cpp:91-119 | A text of word bytes is one token: an integer if it is a numeral up to 2^63 - 1 in size, with its value; reported as out of range if larger; reported as no word if it otherwise begins with a digit; a symbol if not. |
| `Alphabet.PlaceIs` | src/lexer.cpp:59-67 | The line is one more than the number of line ends before, the column one more than the bytes since the last of them. |
| `ParserReports.SourceReports` | src/parser.cpp:85-101 | The problems of a source are those of its lexemes and then those of a scan of its parentheses: each closing one that comes too early at its place, and, if the source ends inside lists, the innermost of them at its opening one. |
| `ParserReports.FromReports` | src/parser.cpp:29-81 | The same from any token on. |
| `BrowserScan.ThrowsExactly` | app/src/parser.js:1-71 | By a scan character by character: the parser returns a tree exactly if outside comments no closing parenthesis comes too early and none is missing, and otherwise throws at the first that comes too early, with its span, or at the end with an empty one. |
| `BrowserScan.TreeIsText` | app/src/parser.js:29-61 | A tree that is returned has, flattened, exactly the parentheses and words of the text by such a scan, white space being the 25 code points written out. |
| `JsonGrammar.ParsesExactly` | harness/json.hpp:122-273 | The parser gives a value exactly if the source, after blanks, begins with a text of the grammar that means it; every other source is refused. The texts have any blanks around every token and any spelling of characters; blanks, escapes and digits are written out. |
| `JsonGrammar.ValueMade` | harness/json.hpp:130-262 | Whatever is read from the middle of any source is such a text. |
| `JsonTexts.TextReads` | harness/json.hpp:130-262 | Such a text is read as what it means, in the middle of any source. |
| `JsonTexts.BlanksDoNotMatter` | harness/json.hpp:126-128 | A written document with any blanks before, between and after its tokens reads back as the document, the same as without them. |
| `JsonTexts.TextIsWritten` | harness/json.hpp:23-81 | What the writer writes of a document is its text without blanks, with the escapes as in a table written out. |
| `JsonTexts.CancelIsRead` | docs/integration/protocol.md:57-57 | The cancel message as the protocol spells it is read as an object of that type. |
| `JsonTexts.EncodedOnce` | harness/json.hpp:207-229 | The bytes of an escaped code point are the ones that carry its bits as RFC 3629 says, and no others. |
| `Wire.AnyFrameDecodes` | tools/dev-server.js:35-77 | A frame in any of the three length forms, the shortest or not, masked or not, is decoded as the low four bits of its first byte and its unmasked body, whatever follows it. |
| `Wire.PartsAreKept` | tools/dev-server.js:48-63 | Of every proper beginning of a frame nothing is decoded and all is kept. |
| `Wire.TooLargeIsRefused` | tools/dev-server.js:51-56 | A length over 2^53 - 1 is refused as soon as it is there. |
| `Wire.ServerBytes` | tools/dev-server.js:16-33 | The bytes of a server frame, written out for each of the three length forms. |
| `Wire.XorIsBitwise` | tools/dev-server.js:68-71 | The exclusive or of two bytes has a bit exactly if one of them has it and the other has not. |
| `BridgeReplies.RunsAreAcceptedWhenFree` | harness/protocol_bridge.hpp:67-71 | In every reachable state a run is accepted, with the next number, exactly if all runs accepted before are over; otherwise exactly one error is sent and nothing else changes. |
| `BridgeReplies.EveryRunIsAnswered` | harness/protocol_bridge.hpp:42-71 | Over every schedule, acceptances and replies together are as many as the messages taken up that ask for an answer. |
| `BridgeReplies.DiagnosticsAreTruthful` | harness/protocol_bridge.hpp:77-86 | The diagnostics of a run are good exactly if the source it came with compiles, and a run whose source does not compile sends nothing else. |
| `BridgeReplies.EndsSayWhether` | harness/protocol_bridge.hpp:77-86 | A run says that it was cancelled exactly if it has read a cancel while it was executing. |
| `Manifest.StatementIsCard` | app/src/projection.js:8-91 | By the manifest written out as a table of cards, forms and counts: a statement that matches an entry becomes the card of that entry, with the projections of its elements in order and the cards of its statements numbered below its own identifier; it becomes a generic card exactly if no entry matches. |
| `Manifest.ValueIs` | app/src/projection.js:110-135 | An integer atom up to 2^53 - 1 in size is that number and a larger one its text; true and false are flags, the six colours texts, other words variables; a list is a call of its head with the projections of its elements. |
| `Manifest.ProgramIds` | app/src/projection.js:4-6 | The cards of a program are those of its expressions, named card-1, card-2 and so on. |
| `Encodings.Utf8Is` | app/src/parser.js:14-27 | A scalar value can be read off its bytes as RFC 3629 says, so that the bytes of the engine and the units of the browser are of one text. |
| `Encodings.Utf16Is` | app/src/parser.js:14-27 | A scalar value is one unit, or a pair of surrogates that carry ten bits each. |

## Left out

- Engine.ExecState.EvalArithmetic: does not model 64-bit overflow of + - * and / (unchecked in src/engine.cpp:308-313); integers are unbounded, which is the program's behaviour as long as no intermediate result leaves the 64-bit range.
- Engine.ExecState.EvalInner: the switch over node kinds is split into one method for each case, and likewise for the dispatch in `compile_form`.
- Lexer.LexSource: offsets, lines and columns are unbounded; the program keeps them in 32 bits, so sources are assumed shorter than 2^32 bytes.
- Compiler.Counter.Assign: returns a renumbered tree where the program writes identifiers into the nodes; nodes are values here, so aliasing between nodes is not modelled.
- Json.JsonParser.ReadNumber: numbers that are not decimal integers of magnitude at most 2^53 are one value `Inexact`; `strtod` and doubles are not modelled.
- BrowserParser.ParseCardCode: a lone surrogate in a text is not modelled, since a text is a sequence of Unicode scalar values.
- Json.JsonParse: recursion depth and memory are unbounded.
- Bridge.AlwaysInv: steps are atomic and sequentially consistent; the inline mode (`async` false), the destructor, setSensor, reset and `parse_limits` are not part of this model, and a program is any sequence of events that ends in one terminal message.
- Bridge.ProtocolBridge.HandleRun: `do_run` and the job are split at their atomic steps, one method each, because other threads come in between; `Bridge.RunSchedule` puts them together.
- EditorText.ProgramWritten: the default manifest is fixed; labels, categories, card identifiers of the manifest and the spans attached to single values are not carried in the cards, and the null value, which projection never makes under that manifest, is not modelled.
- EditorWriter.GenerateProgram: cards that a user builds by hand are covered; that their names are distinct is proved for projected programs only.
- The wording of diagnostics and errors: a problem is a tag with its span.
- Hosts that change with real time or with inputs other than the trace; sleeping; `max_runtime_ms`, which the interpreter never reads.
- Sockets, HTTP, process and thread creation, standard input and output (harness/main.cpp, the rest of tools/dev-server.js).
- The forwarding host, the event sink and the command-line runner (harness/forwarding_host.hpp, harness/json_event_sink.hpp, tools/cardcode_run.cpp): thin forwarding.
- app/src/manifest.js, app/src/transport.js, app/src/edit.js, app/src/state.js and app/src/render.js: field checks, a socket wrapper, simple tree edits, card highlighting and rendering.
- The firmware sketches in docs/.
