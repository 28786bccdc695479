# Kaleidoscope front end and code generator, in Dafny

This project models the core of the Rust Kaleidoscope toy compiler: the
lexer (`Lexer::lexer` and the token iterator), the recursive-descent parser
with its shared operator-precedence table, and the code generator that turns
one parsed function into LLVM IR through a builder. Properties about them are
proved alongside.

Modules, in the order the program uses them:

- `Options`: the optional value.
- `Lexer`: tokens, the one-token scanner and the token stream. `LexerProps`
  says what each leading character scans to. It also holds a printer for
  token sequences, with the theorem that the lexer reads every printed
  sequence back exactly.
- `Ast`: expressions, prototypes and functions.
- `Parser`: every parse function. The position and the precedence table are
  explicit state. A parse can succeed, fail with the source's own message,
  or panic where the source indexes past the end of the token vector.
- `ParserDecls`: a printer for prototypes, and the theorems that printed
  prototypes, `def` and `extern` declarations parse back, with the table
  update each head form makes.
- `ParserClimb`: precedence climbing on all inputs: when the operator loop
  stops, chains that group to the left, and tighter operators taken as a
  right operand.
- `ParserProps`: concrete behaviours of the parser: empty calls, trailing
  commas, table writes, associativity, and `if` never parsing.
  `ParserRoundTrip` proves that every well-formed expression, printed as
  tokens, parses back to itself.
- `Backend`: an abstract LLVM module and builder. It holds functions, basic
  blocks with their instruction lists, stack slots, and an insertion point.
- `Compiler`: `compile_expr`, `compile_prototype` and `compile_fn`, over an
  explicit state. The state is the name-to-slot map, the module and the
  function being generated. Every compile step returns the state it leaves,
  also on error, because an error does not undo what was already emitted.
- `CompilerProps`: what the code generator promises about names and errors:
  - the order in which errors are detected;
  - how `var..in`, `for` and parameters bind and unbind names;
  - what `compile_fn` leaves in the module.
- `CompilerCfg`: the control flow that `if` and `for` generate: the blocks
  they add, how those blocks end, and where the builder is left.

## Model

| member | source | states |
|---|---|---|
| `Lexer.NextToken` | kaleidoscope/src/lexer.rs:74-106 | a scanned token is never `Then`; scanning never moves backwards, and any token other than EOF consumes at least one character |
| `Lexer.ScanAt` | kaleidoscope/src/lexer.rs:108-170 | the token starting at a non-blank character consumes at least that character and is never `Then` |
| `Lexer.ScanComment` | kaleidoscope/src/lexer.rs:112-122 | a comment, when it ends, is a `Comment` token that consumed at least the `#` |
| `Lexer.ScanNumber` | kaleidoscope/src/lexer.rs:123-140 | a number scan never loops. A `Number` token's text is exactly the characters consumed, and is a decimal literal; EOF is given only at the end of input |
| `Lexer.IsDecimalLiteral` | kaleidoscope/src/lexer.rs:139 | what `parse::<f64>` accepts from a run: an accepted text starts with a digit or `.` and ends with a digit or `.` |
| `LexerProps.DecimalLiteralAlphabet` | kaleidoscope/src/lexer.rs:139 | an accepted text holds only decimal digits, `.`, `e` and `E`, all of them characters of a number run |
| `Lexer.ScanWord` | kaleidoscope/src/lexer.rs:141-168 | a word run always scans (no panic, no loop) and consumes at least its first character; it gives EOF exactly when the run reaches the end of input, and otherwise the keyword or identifier spelled by exactly the consumed text, stopped on a character that is not `_` or alphanumeric (never `Then`) |
| `LexerProps.WordScan` | kaleidoscope/src/lexer.rs:141-168 | after whitespace, a word is the maximal run of `_` and alphanumerics, whatever character ends it: a run that reaches the end of input gives EOF, otherwise the keyword or identifier of exactly that text, ending where the run ends |
| `LexerProps.WordAt` | kaleidoscope/src/lexer.rs:141-141 | after whitespace, a letter or `_` starts a word scan |
| `LexerProps.WordRun` | kaleidoscope/src/lexer.rs:142-154 | the word scan stops at the first character that is not `_` or alphanumeric, and returns EOF when the input ends inside the run |
| `LexerProps.WordBeforeParen` | kaleidoscope/src/lexer.rs:147-150 | `f(x)` starts with the identifier `f`, the `(` ending the run |
| `LexerProps.WordBeforeOperator` | kaleidoscope/src/lexer.rs:147-150 | `x+y` starts with the identifier `x`, the `+` ending the run |
| `Lexer.TokenizeFrom` | kaleidoscope/src/lexer.rs:180-185 | the collected stream never contains EOF or `Then` |
| `LexerProps.BlankIsEof` | kaleidoscope/src/lexer.rs:80-97 | when only whitespace is left, the scan gives EOF at the end of input, and the stream is empty |
| `LexerProps.SingleCharTokens` | kaleidoscope/src/lexer.rs:108-111 | after the whitespace, `(`, `)` and `,` are punctuation tokens, and any character that starts nothing else is an `Op` of that character |
| `LexerProps.CommentScan` | kaleidoscope/src/lexer.rs:112-122 | a comment runs through the first newline after `#`, and the scan resumes after it; with no newline left, the scan never ends |
| `LexerProps.NumberScan` | kaleidoscope/src/lexer.rs:123-140 | after whitespace, a number is the maximal run of `.` and hexadecimal digits. A run that reaches the end of input gives EOF; otherwise it is a `Number` of exactly that text when the text is a decimal literal, and the scan panics in `unwrap` when it is not |
| `LexerProps.DecimalLiteralAccepts` | kaleidoscope/src/lexer.rs:139 | `1e5`, `1.`, `.5` and `1.E5` are decimal literals |
| `LexerProps.DecimalLiteralRejects` | kaleidoscope/src/lexer.rs:139 | `1a2`, `1.2.3`, `.`, `1e` and `1e5e` are not |
| `LexerProps.HexRunPanics` | kaleidoscope/src/lexer.rs:131-139 | `1a2 ` is one number run, and scanning it panics |
| `LexerProps.TwoDotsPanic` | kaleidoscope/src/lexer.rs:131-139 | `1.2.3 ` is one number run, and scanning it panics |
| `LexerProps.ExponentNumber` | kaleidoscope/src/lexer.rs:123-140 | `1e5 ` scans as the number `1e5`, stopping before the blank |
| `LexerProps.WordIsKeyword` | kaleidoscope/src/lexer.rs:156-167 | a word is an identifier exactly when it is not one of the nine keywords; `then` is an identifier |
| `LexerProps.ScanOne` | kaleidoscope/src/lexer.rs:108-169 | every printable token, written out and followed by a blank, scans back to itself and stops right after its spelling |
| `LexerProps.ScanRendered` | kaleidoscope/src/lexer.rs:180-185 | whitespace, a printed token sequence, then nothing or a dangling word, collects to exactly that sequence |
| `LexerProps.RenderRoundTrip` | kaleidoscope/src/lexer.rs:74-185 | lexing the printed form of any printable token sequence gives back that sequence |
| `LexerProps.DropsTrailingWord` | kaleidoscope/src/lexer.rs:141-146 | a word or number that runs to the end of the input is dropped: the stream is that of the text before it |
| `Parser.TokenPrecedence` | kaleidoscope/src/parser.rs:132-138 | an operator token has its table entry, or 100 when it has none; any other token or the end gives -1 |
| `Parser.AsI32` | kaleidoscope/src/parser.rs:171 | the `usize as i32` cast: the result is in the `i32` range, agrees with the input modulo 2^32, and is the input itself below 2^31 |
| `Parser.ParseExpr` | kaleidoscope/src/parser.rs:279-284 | a parsed expression consumed at least one token and stops within the input |
| `Parser.ParseUnary` | kaleidoscope/src/parser.rs:362-379 | a parsed unary expression consumed at least one token |
| `Parser.ParseBinary` | kaleidoscope/src/parser.rs:382-411 | the operator loop never moves backwards or past the end |
| `Parser.ParsePrimary` | kaleidoscope/src/parser.rs:552-562 | a parsed primary expression consumed at least one token |
| `Parser.ParseNumber` | kaleidoscope/src/parser.rs:287-296 | a number expression is a `Number` and consumed its token |
| `Parser.ParseParen` | kaleidoscope/src/parser.rs:299-317 | a parenthesised expression consumed at least one token |
| `Parser.ParseIdentifier` | kaleidoscope/src/parser.rs:320-359 | a variable or call consumed at least its identifier |
| `Parser.ParseArgs` | kaleidoscope/src/parser.rs:338-350 | a parsed argument list is non-empty and stops at, not past, a `)` |
| `Parser.ParseConditional` | kaleidoscope/src/parser.rs:414-441 | a parsed conditional consumed at least its `if` |
| `Parser.ParseFor` | kaleidoscope/src/parser.rs:444-498 | a parsed loop consumed at least its `for` |
| `Parser.ParseStep` | kaleidoscope/src/parser.rs:472-481 | the step is absent exactly when no token was consumed |
| `Parser.ParseVar` | kaleidoscope/src/parser.rs:501-549 | a parsed `var..in` consumed at least its `var` |
| `Parser.ParseBindings` | kaleidoscope/src/parser.rs:508-540 | a parsed declaration list is non-empty and consumed at least one token |
| `Parser.ParseInitializer` | kaleidoscope/src/parser.rs:516-524 | the initializer is absent exactly when no token was consumed |
| `Parser.ParseHead` | kaleidoscope/src/parser.rs:142-194 | a parsed head starts with a name, `binary` or `unary` and stops before the end. Only a `binary` head can change the table, and a failed head leaves it alone; any other first token fails with the expected-identifier message |
| `Parser.ParseSignature` | kaleidoscope/src/parser.rs:196-241 | a parsed signature starts at `(` and ends right after a `)`. `()` gives no parameters; otherwise the parameters are exactly what the parameter loop read. The prototype keeps the head's name, operator flag and precedence |
| `Parser.ParseParams` | kaleidoscope/src/parser.rs:214-234 | a parsed parameter list is non-empty, and the tokens it consumed are exactly its names separated by commas and closed by `)` |
| `Parser.ParsePrototype` | kaleidoscope/src/parser.rs:141-242 | the table after a prototype is the one its head left, whether or not the rest parses; a parsed prototype ends right after a `)` |
| `Parser.ParseDef` | kaleidoscope/src/parser.rs:245-261 | a definition has a body and is not anonymous; the table is the one its prototype left. Its prototype is the one read after `def`, and its body is the expression parsed where the prototype stopped, with that table |
| `Parser.ParseExtern` | kaleidoscope/src/parser.rs:264-276 | an extern has no body and is not anonymous; the table is the one its prototype left. It parses exactly when the prototype after `extern` does, to that prototype, stopping where it stopped |
| `Parser.ParseTopLevel` | kaleidoscope/src/parser.rs:566-584 | a top-level expression becomes an anonymous function with no parameters and that body |
| `Parser.Parse` | kaleidoscope/src/parser.rs:76-94 | no tokens is the end-of-file error. A result is anonymous exactly when the input does not start with `def` or `extern`, and has no body exactly when it starts with `extern` |
| `Parser.Finish` | kaleidoscope/src/parser.rs:83-93 | a parse succeeds exactly when it parsed and reached the end of the tokens; it panics exactly when the inner parse panicked |
| `ParserProps.EmptyCallLeavesParen` | kaleidoscope/src/parser.rs:330-336 | `f()` parses as a call with no arguments that stops on its `)` |
| `ParserProps.EmptyCallRejected` | kaleidoscope/src/parser.rs:76-94 | hence `f()` alone is rejected as a token left after the expression |
| `ParserProps.CallConsumesParen` | kaleidoscope/src/parser.rs:338-354 | `f(n)` parses as a one-argument call in an anonymous function |
| `ParserProps.LastIdentifierIsVariable` | kaleidoscope/src/parser.rs:326-328 | an identifier that is the last token is a variable |
| `ParserProps.MissingCommaRejected` | kaleidoscope/src/parser.rs:224-233 | two parameters without a comma fail with the `','` or `')'` message |
| `ParserProps.TrailingCommaPanics` | kaleidoscope/src/parser.rs:229-231 | a parameter comma that ends the input makes the next read panic |
| `ParserProps.LoneDefPanics` | kaleidoscope/src/parser.rs:245-250 | `def` alone panics |
| `ParserProps.BinaryDeclWritesTableFirst` | kaleidoscope/src/parser.rs:163-198 | a `binary` declaration missing its `(` fails, but its precedence is already in the table |
| `ParserProps.TableWrites` | kaleidoscope/src/parser.rs:149-174 | a parse leaves the table as it was, or changes only the entry of the operator that a `def binary`/`extern binary` declares |
| `ParserProps.ParseKeepsI32` | kaleidoscope/src/parser.rs:171 | every table entry stays in the `i32` range |
| `ParserProps.ClimbLeft` | kaleidoscope/src/parser.rs:382-411 | with the first operator binding at least as tightly, `a o1 b o2 c` groups to the left |
| `ParserProps.ClimbRight` | kaleidoscope/src/parser.rs:399-403 | with the second operator binding strictly tighter, `b o2 c` is the right operand of `o1` |
| `ParserProps.NegativePrecedenceRejected` | kaleidoscope/src/parser.rs:384-388 | an operator with a negative entry is never taken, so `a o b` is rejected as trailing tokens |
| `ParserProps.ConditionalNeedsThen` | kaleidoscope/src/parser.rs:414-441 | a conditional parses only when a `Then` token follows |
| `ParserProps.IfNeverParses` | kaleidoscope/src/parser.rs:552-562 | since the lexer never produces `Then`, an `if` read from source text never parses |
| `ParserDecls.ParamsRoundTrip` | kaleidoscope/src/parser.rs:214-234 | a printed non-empty parameter list parses back to its names and stops right after its `)` |
| `ParserDecls.SignatureRoundTrip` | kaleidoscope/src/parser.rs:196-241 | a printed signature, `()` or a parameter list, parses back to the prototype with the head's name, flag and precedence and exactly those parameters |
| `ParserDecls.NamedHeadStep` | kaleidoscope/src/parser.rs:143-147 | a name head gives a plain prototype name with precedence 0 and leaves the table alone |
| `ParserDecls.BinaryHeadStep` | kaleidoscope/src/parser.rs:149-174 | `binary` and an operator not followed by a number give `binary` + the operator with precedence 0, and the table gets 0 for that operator |
| `ParserDecls.RankedHeadStep` | kaleidoscope/src/parser.rs:149-174 | `binary`, an operator and a number `n` give `binary` + the operator with precedence `n as usize`, and the table gets that value cast to `i32` |
| `ParserDecls.UnaryHeadStep` | kaleidoscope/src/parser.rs:176-191 | `unary` and an operator give `unary` + the operator with precedence 0 and leave the table alone |
| `ParserDecls.HeadRoundTrip` | kaleidoscope/src/parser.rs:142-194 | every printed head followed by `(` parses back to its name, flag and precedence, with the table update that head form makes |
| `ParserDecls.PrototypeRoundTrip` | kaleidoscope/src/parser.rs:141-242 | every printed prototype parses back to itself, stops right after its `)`, and leaves the table its head form sets |
| `ParserDecls.DefRoundTrip` | kaleidoscope/src/parser.rs:245-261 | `def`, a printed prototype and a printed well-formed body parse as the named function with that prototype and body, with the prototype's table update |
| `ParserDecls.ExternRoundTrip` | kaleidoscope/src/parser.rs:264-276 | `extern` and a printed prototype parse as the bodiless function with that prototype, with the prototype's table update |
| `ParserClimb.ClimbStops` | kaleidoscope/src/parser.rs:384-388 | at the end, or on a token that binds looser than the floor, the loop returns its left operand where it is; otherwise a result consumed at least an operator and an operand |
| `ParserClimb.ClimbChain` | kaleidoscope/src/parser.rs:382-411 | a chain of operator and number pairs whose precedences are at least the floor and never rise, followed by a stop, parses to its left fold |
| `ParserClimb.ClimbAbsorbs` | kaleidoscope/src/parser.rs:399-409 | when the chain after `o b` binds strictly tighter than `o`, it is climbed from `prec(o) + 1` and the whole of it becomes `o`'s right operand |
| `ParserClimb.ExprFoldsLeft` | kaleidoscope/src/parser.rs:279-284 | an expression `a o1 n1 o2 n2 ...` whose non-negative precedences never rise, in particular one with a single precedence, groups to the left |
| `ParserClimb.ExprAbsorbs` | kaleidoscope/src/parser.rs:279-284 | `a o b o1 n1 ...` whose chain binds tighter than `o` parses to `a o (b o1 n1 ...)` |
| `ParserRoundTrip.ParsesExpr` | kaleidoscope/src/parser.rs:279-284 | a printed well-formed expression, followed by a token that ends it, parses back to itself and stops right after its tokens |
| `ParserRoundTrip.PrintParseRoundTrip` | kaleidoscope/src/parser.rs:76-94 | a printed well-formed expression parses as the anonymous function with exactly that body, and the table is unchanged |
| `Ast.UnaryName` | kaleidoscope/src/parser.rs:371-373 | a unary operator's function is named `unary` followed by the operator |
| `Ast.BinaryName` | kaleidoscope/src/compiler.rs:130-133 | a binary operator's function is named `binary` followed by the operator |
| `Compiler.CompileExpr` | kaleidoscope/src/compiler.rs:52-262 | code generation never changes the function being generated or the declared functions. It only adds blocks (all of them its own) and slots. It keeps an insertion point, fails only with one of the five expression messages, and never unbinds a name |
| `Compiler.CompileVarIn` | kaleidoscope/src/compiler.rs:63-92 | the same frame for `var..in` |
| `Compiler.CompileBindings` | kaleidoscope/src/compiler.rs:66-83 | the same frame for the declaration loop |
| `Compiler.CompileInit` | kaleidoscope/src/compiler.rs:69-72 | the same frame for one initializer |
| `Compiler.BindSlot` | kaleidoscope/src/compiler.rs:74-82 | a declared name is bound to a new slot, named after it; the other bindings stay |
| `Compiler.Restore` | kaleidoscope/src/compiler.rs:87-89 | putting displaced bindings back never unbinds a name |
| `Compiler.CompileBinary` | kaleidoscope/src/compiler.rs:94-148 | the same frame for binary operators |
| `Compiler.CompileAssign` | kaleidoscope/src/compiler.rs:95-109 | the same frame for assignment |
| `Compiler.Operate` | kaleidoscope/src/compiler.rs:114-145 | applying an operator changes no binding |
| `Compiler.CompileCall` | kaleidoscope/src/compiler.rs:150-168 | the same frame for calls |
| `Compiler.CompileArgs` | kaleidoscope/src/compiler.rs:153-157 | the argument loop gives one value per argument |
| `Compiler.CompileIf` | kaleidoscope/src/compiler.rs:170-210 | the same frame for conditionals |
| `Compiler.CompileElse` | kaleidoscope/src/compiler.rs:192-209 | the `else` arm and the merge keep the frame relative to the state before the `if` |
| `Compiler.BranchOn` | kaleidoscope/src/compiler.rs:176-186 | the test appends three blocks after the current ones and moves to the first of them |
| `Compiler.Jump` | kaleidoscope/src/compiler.rs:188-193 | ending an arm keeps the bindings and moves to the given block |
| `Compiler.CompileFor` | kaleidoscope/src/compiler.rs:212-260 | the same frame for loops |
| `Compiler.LoopEnd` | kaleidoscope/src/compiler.rs:233-259 | the loop's tail keeps every name bound before the loop bound |
| `Compiler.CompileStep` | kaleidoscope/src/compiler.rs:234-237 | the same frame for the step |
| `Compiler.EnterLoop` | kaleidoscope/src/compiler.rs:218-224 | entering the loop adds exactly one block and moves to it |
| `Compiler.Latch` | kaleidoscope/src/compiler.rs:242-259 | the latch always succeeds with 0.0 |
| `Compiler.CompilePrototype` | kaleidoscope/src/compiler.rs:265-283 | declaring adds a function with the prototype's name and parameters; the name resolves, and resolves to the new function when it was free; no block changes |
| `Compiler.CompileFn` | kaleidoscope/src/compiler.rs:286-331 | exactly one function is added, with the prototype's name and parameters, and earlier functions stay as they were. Success returns the new function, and an extern always succeeds. Only a body can fail, with the invalid-function message or an expression message, and the new function is deleted exactly when it was rejected |
| `Compiler.BindParams` | kaleidoscope/src/compiler.rs:305-312 | binding parameters keeps the frame and unbinds no name |
| `CompilerProps.VariableRead` | kaleidoscope/src/compiler.rs:56-61 | a read succeeds exactly when the name is bound, loading from its slot into a new value; an unbound name fails and emits nothing |
| `CompilerProps.AssignmentOrder` | kaleidoscope/src/compiler.rs:95-109 | a non-variable target fails first and emits nothing. Then the value is compiled, and its error wins. Then the target is looked up in the bindings the value left, and the value is stored to it and returned |
| `CompilerProps.AssignToNameBoundByValue` | kaleidoscope/src/compiler.rs:104-105 | `x = (var x in n)` succeeds with `x` unbound before, because the lookup happens after the value is compiled |
| `CompilerProps.Operators` | kaleidoscope/src/compiler.rs:114-145 | the six built-in operators always succeed; any other needs its `binary` function. `<` is an unordered-less-than compare converted to a float, `>` the same with swapped operands, and a user operator is a call of its function |
| `CompilerProps.BinaryOperands` | kaleidoscope/src/compiler.rs:110-113 | the left operand is compiled first and its error wins, then the right; the operator is applied to both values |
| `CompilerProps.CallResolvesCalleeFirst` | kaleidoscope/src/compiler.rs:150-168 | an unknown callee fails before any argument is compiled; otherwise an argument's error is returned as is, and success calls the callee with one value per argument |
| `CompilerProps.RestoreLastWins` | kaleidoscope/src/compiler.rs:87-89 | after the restore, a name is bound to the last displaced slot of that name, or keeps its binding when none was displaced |
| `CompilerProps.RestoreAgrees` | kaleidoscope/src/compiler.rs:87-89 | the restore keeps every name bound to a slot of that name |
| `CompilerProps.Scoping` | kaleidoscope/src/compiler.rs:52-262 | when every `var..in` binds distinct names, a successful compilation gives every earlier binding back unchanged |
| `CompilerProps.ScopingVarIn` | kaleidoscope/src/compiler.rs:63-92 | `var..in` with distinct names gives every earlier binding back |
| `CompilerProps.ScopingBindings` | kaleidoscope/src/compiler.rs:66-83 | for the declaration loop: names it does not declare keep their bindings. For each declared name that was bound before, the earlier binding is the last displaced entry of that name |
| `CompilerProps.ScopingBinary` | kaleidoscope/src/compiler.rs:94-148 | binary operators and assignments give every earlier binding back |
| `CompilerProps.ScopingCall` | kaleidoscope/src/compiler.rs:150-168 | calls give every earlier binding back |
| `CompilerProps.ScopingArgs` | kaleidoscope/src/compiler.rs:153-157 | the argument loop gives every earlier binding back |
| `CompilerProps.ScopingIf` | kaleidoscope/src/compiler.rs:170-210 | conditionals give every earlier binding back |
| `CompilerProps.ScopingElse` | kaleidoscope/src/compiler.rs:192-209 | the `else` arm gives every binding from before the `if` back |
| `CompilerProps.ScopingFor` | kaleidoscope/src/compiler.rs:212-260 | loops give every earlier binding back |
| `CompilerProps.ScopingLoopEnd` | kaleidoscope/src/compiler.rs:233-259 | the loop's tail gives the bindings from before the loop back |
| `CompilerProps.DuplicateNamesLoseOuterBinding` | kaleidoscope/src/compiler.rs:78-89 | with `x` bound outside, `var x, x in n` succeeds but leaves `x` bound to the first inner slot, not the outer one |
| `CompilerProps.VarInKeepsItsNames` | kaleidoscope/src/compiler.rs:78-89 | after a successful `var..in` every declared name is still bound, including names that were unbound before |
| `CompilerProps.ForRestoresVariable` | kaleidoscope/src/compiler.rs:215-259 | a successful loop yields 0.0. Its variable is then bound exactly when, and to what, it was bound once `start` had been compiled |
| `CompilerProps.LoopEndRestores` | kaleidoscope/src/compiler.rs:253-257 | the loop's tail unbinds the variable and puts back the binding saved at loop entry, if any |
| `CompilerProps.ParamsLaterWins` | kaleidoscope/src/compiler.rs:305-312 | parameters get consecutive new slots; a name given twice is bound to the slot of its later occurrence, and other names keep their bindings |
| `CompilerProps.ExternOnlyDeclares` | kaleidoscope/src/compiler.rs:288-293 | an extern returns the new function, adds no block and only declares its prototype |
| `CompilerProps.FnOutcomes` | kaleidoscope/src/compiler.rs:314-330 | a body error leaves the function declared and not deleted. Only a rejected function is deleted, with the invalid-function message, and no name resolves to it afterwards. An accepted one is optimized and returned. `verify` decides between the two: a verifier that accepts everything never gives the invalid-function error, and one that rejects everything never gives success |
| `CompilerProps.VerifierDecides` | kaleidoscope/src/compiler.rs:314-330 | the verifier is consulted only after the body compiled: accepting everything gives success exactly when rejecting everything gives the invalid-function error, and every other error is the same under both |
| `CompilerProps.FnBlocks` | kaleidoscope/src/compiler.rs:295-317 | the function's first new block is its `entry`, and all new blocks are its own; earlier blocks are untouched. On success the builder ends in a new block that ends with a return |
| `CompilerCfg.IfShape` | kaleidoscope/src/compiler.rs:170-210 | a successful `if` leaves the builder in `ifcont`, right after `then` and `else`. An earlier block tests the condition against 0.0 and branches to `then` or `else`. `ifcont` holds only the result phi, whose two incomings come from distinct blocks that each branch to `ifcont` |
| `CompilerCfg.IfBranches` | kaleidoscope/src/compiler.rs:170-210 | the same shape for the conditional compiler itself |
| `CompilerCfg.ForkShape` | kaleidoscope/src/compiler.rs:176-183 | the test ends the current block with an ordered-not-equal compare against 0.0 and a conditional branch, then appends empty `then`, `else` and `ifcont` blocks |
| `CompilerCfg.ThenShape` | kaleidoscope/src/compiler.rs:186-190 | the `then` arm ends with a branch to `ifcont` in a block other than `else` and `ifcont`, and leaves the test alone |
| `CompilerCfg.IfArms` | kaleidoscope/src/compiler.rs:185-209 | both arms and the merge, compiled on a fresh fork, complete the `if` shape |
| `CompilerCfg.ElseJoined` | kaleidoscope/src/compiler.rs:192-209 | once the `then` arm has branched to `ifcont`, the `else` arm and the merge complete the `if` shape |
| `CompilerCfg.MergeShape` | kaleidoscope/src/compiler.rs:195-209 | after the `else` arm, the merge is a phi over the two arms' final blocks in `ifcont` |
| `CompilerCfg.Joined` | kaleidoscope/src/compiler.rs:199-209 | a fork whose merge is in place has the `if` shape |
| `CompilerCfg.ForShape` | kaleidoscope/src/compiler.rs:212-260 | a successful `for` leaves the builder in a new, empty, last `afterloop` block. The block where `start` was computed jumps to a later `loop` block. A block from `loop` on ends with the latch on the variable's slot, which branches back to `loop` or on to `afterloop` |
| `CompilerCfg.LoopEndShape` | kaleidoscope/src/compiler.rs:233-251 | the latch lands in the block where the end value was computed, and `afterloop` is appended last |
| `CompilerCfg.LatchShape` | kaleidoscope/src/compiler.rs:242-251 | the latch (load, add the step, store, compare with 0.0, conditional branch) ends the current block, and `afterloop` becomes the new, last, current block |

### Behaviour taken from the code

The model follows the code as written in these places:

- Comments are tokens. The iterator passes `Comment` on to the parser, where
  it starts no expression.
- A number is the maximal run of `.` and hexadecimal digits (`is_digit(16)`).
  It is then read as a decimal `f64`, so a run such as `1a` panics in
  `unwrap`. `1e5` is a valid number.
- A word or number that reaches the end of the input returns EOF, so the last
  word of an input without trailing whitespace is dropped.
- The lexer never produces `Then`, so `if c then a else b` cannot be parsed
  from source text.
- `var..in` puts back only the bindings it displaced. The names it declared
  stay bound after the body, bound to their inner slots, and an error in the
  body skips the restore altogether.
- `for` saves the loop variable's binding after compiling `start`, not before.
  An assignment looks its target up after compiling the value.
- `parse_var_expr` reads the token after an initializer with the unchecked
  `curr()`, so an initializer that ends the input panics. So does a
  parameter-list comma that ends the input.

## Left out

- Non-ASCII input: the lexer is modelled for ASCII text, where character
  positions and byte offsets agree. `is_whitespace` and `is_alphanumeric` are
  taken in their ASCII sense.
- Floating-point values: a number literal is kept as its text (`Num`), and
  arithmetic, comparison and conversion are instructions, not computed values.
- `prec as usize`: the saturating `f64` to `usize` conversion of a declared
  precedence is the parameter `asUsize`. The following `usize as i32` is
  modelled exactly (`Parser.AsI32`).
- `LexerError`, `LexerResult` and `Lexer::new` bookkeeping: `lexer` never
  returns an error, and the iterator treats an error as the end of the
  stream. The stream is modelled directly.
- The anonymous function's name and the initial precedence table come from
  the driver. They are parameters (`anonName`, `table`).
- LLVM's value and block naming: a slot carries the name it was requested
  under, and LLVM's uniquing of duplicate names is not modelled. A second
  `add_function` with a taken name keeps the name resolving to the older
  function.
- Where `create_entry_block_alloca` places the `alloca` inside the entry
  block: a slot is recorded with its function only.
- "Invalid call produced.": every function in the model returns a float, so
  this branch of a call cannot be reached and is not modelled.
- `FunctionValue::verify` is a parameter `verify` that decides acceptance.
  What LLVM's verifier checks is not modelled.
- The function pass manager: running it only marks the function optimized.
  The passes themselves are not modelled.
- The REPL driver and JIT execution are not part of this model.
- CompilerCfg.ForShape: does not state that the latch's compare tests the end
  value rather than the incremented variable. It states only that the compare
  is against 0.0 and feeds the conditional branch.
- Compiler.Restore: its own contract only says no name is unbound. What it
  binds each name to is stated by `CompilerProps.RestoreLastWins`.
- Parser.ParseExpr: its own contract states progress and bounds. What it
  builds is stated by `ParserRoundTrip.ParsesExpr`, `ParserClimb` and the
  lemmas of `ParserProps`.
- Parser.ParseBinary: its own contract states progress and bounds. Grouping is
  stated by the `ParserClimb` lemmas for chains whose operands are number
  literals.
