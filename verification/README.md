# Verification of the LLVM and Clang exercises

This project models six programs of the repository in Dafny and proves what they are for.

**Kaleidoscope code generator** (`kaleidoscope/functional_programming_language`). `KaleidoscopeEval` evaluates
expressions directly; `Ir` runs basic blocks with slots, registers, phis and calls, one instruction at a time. Doubles
are an abstract type with arbitrary operations, and what called functions do is an arbitrary function of the world, the
name and the arguments, so that every call and its order shows in the result. `CodeGenSpec` is what code generation
computes; `CodeGenerator` is the generator itself, with the name table, the insertion point and the function under
construction as fields. Proved: the emitted code simulates evaluation (`CodeGenCorrect`), for whole functions and
modules in both directions (`CodeGenFunction`); no run goes wrong (`CodeGenSafety`); the graphs are well formed and
definitions dominate uses (`CodeGenCfg`, `CodeGenDominance`); code generation succeeds exactly on well-scoped programs,
and when it restores the name table (`CodeGenSuccess`, `CodeGenScope`); what becomes of `var` lists that repeat a name
(`CodeGenLeak`, `CodeGenLeakExact`).

**Live variable analysis** (`live-variable-analysis`). `Liveness` says what liveness is, with paths through the
instructions of a function; `LiveVariables` has one round of the worklist as a relation, its invariant and its
termination measure; `LiveVariableAnalysis` is the analysis with its tables. Blocks from which the function cannot be
left are never visited, and what phis read is kept in separate sets; both are modelled, and the theorems say exactly
what remains true with them. `CriticalEdge` has a function for which a value that a phi reads is lost.

**Kaleidoscope lexer and parser** (`kaleidoscope/ast`). `Parsing` is what recursive descent computes from a list of
tokens, for any table of precedences; `Grammar` gives the grammar by derivation trees; `ParserCorrect` proves that the
two agree, and the round trip with the fewest parentheses; `ParserFiles` and `Lexing` extend it to whole files and to
characters. `ParserRecovery` says how far the parser reads, with or without an error, and what an error costs;
`ParserLookahead` that it looks one token ahead. `Parser` is the lexer and the parser with the variables they update.

**AST interpreter** (`ast-interpreter`). `MiniC` is the part of C the interpreter runs faithfully, with a big-step
semantics; `Interpreter` has the stack of frames with a table of node values in each, and the visitor. Every visit is
proved to follow the semantics, with input, output, failures and runs that do not end. `MiniCPrograms` proves what
small programs do for every input.

**Value range analysis** (`value-range-analysis`). `Intervals` has the interval operations on 32-bit ints,
`RangeArithmetic` the ranges of results, with wrap-around, `BranchRanges` the edges of a comparison, `RangeVisitor` the
tables. Ranges are kept by name while values have an identity, so that several values can go by one name, as all unnamed
ones do; `SharedNames` says when that is harmless. Ranges may have two intervals, of which comparisons look at the first
only; the theorems are about such ranges too.

**Dynamic instruction counting** (`llvm-profiling`). `Profiling` has the instrumentation and runs of programs with
nested calls; `ProfilingCorrect` proves that nothing is lost, `ProfilingReports` when there is a report and what it has;
`Instrumentation` is the pass and the runtime.

Where the source is imperative, a class has its fields and its loops, and its methods are proved against a
specification function; the theorems are about that function.

## Model

| member | source | states |
|---|---|---|
| CodeGenCorrect.CodegenCorrect | kaleidoscope/functional_programming_language/functional.cpp:724-1021 | the code emitted for any expression, run from the insertion point of any scope state that matches the variables, reaches the final insertion point with the value, variables and world that direct evaluation gives; it hangs in a call or runs on exactly when evaluation does; only slots of variables the expression assigns, and new ones, change |
| CodeGenCorrect.ReadyAfter | kaleidoscope/functional_programming_language/functional.cpp:717-1021 | where the code of one expression has ended the next can begin: names in scope have distinct slots, which hold their values, and the scope is what it was |
| CodeGenCorrect.AssignCorrect | kaleidoscope/functional_programming_language/functional.cpp:750-772 | assignment stores the value of its right side in the slot of its variable and is worth that value |
| CodeGenCorrect.BinaryCorrect | kaleidoscope/functional_programming_language/functional.cpp:774-801 | operands run left to right; `+ - *` and `<` are the arithmetic of the machine, other operators are calls |
| CodeGenCorrect.UnaryCorrect | kaleidoscope/functional_programming_language/functional.cpp:738-748 | a unary operator is a call of its function with the value of the operand |
| CodeGenCorrect.CallCorrect | kaleidoscope/functional_programming_language/functional.cpp:803-821 | a call evaluates its arguments from left to right and makes one call with exactly those values |
| CodeGenCorrect.IfCorrect | kaleidoscope/functional_programming_language/functional.cpp:823-873 | an `if` runs one arm only, whatever blocks the arms themselves end in, and the phi picks the value of the arm that ran |
| CodeGenCorrect.ForCorrect | kaleidoscope/functional_programming_language/functional.cpp:894-973 | a `for` runs start, then rounds, then restores the scope, and is worth 0.0 |
| CodeGenCorrect.RoundCorrect | kaleidoscope/functional_programming_language/functional.cpp:926-960 | one round of a loop runs the body, the step and the end condition, in that order, before the variable is incremented |
| CodeGenCorrect.LoopCorrect | kaleidoscope/functional_programming_language/functional.cpp:908-963 | the emitted loop goes on for as many rounds as evaluation does |
| CodeGenCorrect.VarInCorrect | kaleidoscope/functional_programming_language/functional.cpp:975-1021 | a `var` list evaluates each initialiser without its own variable in scope, and undoes its bindings |
| CodeGenFunction.ParamsRun | kaleidoscope/functional_programming_language/functional.cpp:1057-1068 | the prologue stores each argument in the slot of its parameter |
| CodeGenFunction.FunctionFollows | kaleidoscope/functional_programming_language/functional.cpp:1040-1080 | from its first instruction a function does what the evaluation of its body says, up to the return of the value |
| CodeGenFunction.FunctionCorrect | kaleidoscope/functional_programming_language/functional.cpp:1040-1080 | a compiled function whose body uses no leaked name returns a result if and only if its body evaluates to it, for every arithmetic and every behaviour of the functions it calls |
| CodeGenFunction.ModuleCorrect | kaleidoscope/functional_programming_language/functional.cpp:700-713 | functions that call each other, recursively or not, return the same after compilation as before, at every nesting of calls |
| CodeGenSafety.OnlyCallsHalt | kaleidoscope/functional_programming_language/functional.cpp:724-1080 | a run of a generated function can come to a halt only at a call that does not return |
| CodeGenSafety.LoadsReadStored | kaleidoscope/functional_programming_language/functional.cpp:717-736 | every load of every run reads a slot that an earlier step of the same run has stored to |
| CodeGenCfg.GenCfg | kaleidoscope/functional_programming_language/functional.cpp:823-973 | generating any expression keeps the graph under construction in order: all blocks but the current one end in one terminator, and phis name exactly the predecessors |
| CodeGenCfg.IfCfg | kaleidoscope/functional_programming_language/functional.cpp:823-873 | the same for `if`, which rests on reading the insertion block again after each arm |
| CodeGenCfg.ForCfg | kaleidoscope/functional_programming_language/functional.cpp:894-973 | the same for `for`, whose back edge may leave from another block than the one the loop began with |
| CodeGenCfg.GeneratedGraphWellFormed | kaleidoscope/functional_programming_language/functional.cpp:1053-1075 | every generated function has a well-formed graph: each block ends in its only terminator, all targets exist, nothing leads to the entry, and every phi stands first and names exactly the predecessors of its block |
| CodeGenDominance.GenCertified | kaleidoscope/functional_programming_language/functional.cpp:724-1021 | generating any expression keeps, for each block, a set of registers that every path to it defines, enough for all operands used |
| CodeGenDominance.GeneratedDefinedBeforeUse | kaleidoscope/functional_programming_language/functional.cpp:1053-1075 | in every generated function the definition of each operand comes before its use on every path from the entry |
| CodeGenSuccess.SucceedsIffScoped | kaleidoscope/functional_programming_language/functional.cpp:724-1021 | code generation succeeds exactly on what is scoped in the sense of the name table, repeated names included |
| CodeGenSuccess.ScopedIsLexical | kaleidoscope/functional_programming_language/functional.cpp:975-1017 | for lists without repeated names that is lexical scoping |
| CodeGenSuccess.CodegenSucceedsExactly | kaleidoscope/functional_programming_language/functional.cpp:724-1021 | code generation succeeds if and only if all names are lexically in scope and all calls are of known functions with the right number of arguments |
| CodeGenSuccess.RepeatedNameEscapes | kaleidoscope/functional_programming_language/functional.cpp:1015-1017 | with a name repeated in one `var` list the forward restore leaves it bound, and code outside its scope is accepted |
| CodeGenLeak.EvalNest | kaleidoscope/functional_programming_language/functional.cpp:968-1021 | an expression means the same with every `var` list taken apart into nested lists of one variable |
| CodeGenLeak.GenNest | kaleidoscope/functional_programming_language/functional.cpp:968-1021 | if no name is used that an earlier part of the expression has leaked, the code generated is that of the expression taken apart |
| CodeGenLeak.DistinctLeaksUnused | kaleidoscope/functional_programming_language/functional.cpp:1015-1017 | expressions whose lists repeat no name are of this kind |
| CodeGenLeak.CorrectIfUnused | kaleidoscope/functional_programming_language/functional.cpp:700-1021 | so the code of every expression that uses no leaked name simulates its evaluation, and memory holds the variables in the slots their names had at the beginning |
| CodeGenLeakExact.CodeTells | kaleidoscope/functional_programming_language/functional.cpp:968-1021 | the code for an expression and for the one with its lists taken apart have the same shape; if they are the same, no leaked name was used and the name tables agreed on all names used |
| CodeGenLeakExact.SameCodeIff | kaleidoscope/functional_programming_language/functional.cpp:968-1021 | the code for an expression is that of the expression taken apart if and only if no name is used that an earlier part has leaked |
| CodeGenLeak.LeakHidesOuter | kaleidoscope/functional_programming_language/functional.cpp:1015-1017 | with code after it the value can be wrong: in `(var x = a, x = b in d) + x` the last `x` is read from the slot of the first `x` of the list, not of the outer one |
| CodeGenScope.NamesAfterGen | kaleidoscope/functional_programming_language/functional.cpp:918-1017 | what each name means after code generation: what it meant before, unless it is one of the names that leak |
| CodeGenScope.NameTableRestored | kaleidoscope/functional_programming_language/functional.cpp:965-1017 | every name means what it meant before if and only if no `var` list leaks a repeated name |
| CodeGenScope.DistinctBindersNeverLeak | kaleidoscope/functional_programming_language/functional.cpp:1015-1017 | lists without repeated names never leak |
| CodeGenFrame.GenGrows | kaleidoscope/functional_programming_language/functional.cpp:724-1021 | code generation only appends: emitted instructions, slots and numbers given out stay as they are |
| CodeGenerators.CodeGenerator.LookUp | kaleidoscope/functional_programming_language/functional.cpp:728-736 | looks a name up, giving it an empty entry in the table if it has none |
| CodeGenerators.CodeGenerator.CreateEntryBlockAlloca | kaleidoscope/functional_programming_language/functional.cpp:717-722 | adds one slot, and leaves the insertion point alone |
| CodeGenerators.CodeGenerator.SetInsertPoint | kaleidoscope/functional_programming_language/functional.cpp:843-867 | moves the insertion point to a reserved block, and begins it |
| CodeGenerators.CodeGenerator.EmitCall | kaleidoscope/functional_programming_language/functional.cpp:700-821 | a call of a known function with the right number of arguments, or nothing |
| CodeGenerators.CodeGenerator.Codegen | kaleidoscope/functional_programming_language/functional.cpp:724-1021 | the whole state after generating an expression, and its operand, are those of the specification `Gen` |
| CodeGenerators.CodeGenerator.CodegenBinary | kaleidoscope/functional_programming_language/functional.cpp:750-801 | the same for binary operators and assignment |
| CodeGenerators.CodeGenerator.CodegenCall | kaleidoscope/functional_programming_language/functional.cpp:803-821 | the same for calls |
| CodeGenerators.CodeGenerator.CodegenIf | kaleidoscope/functional_programming_language/functional.cpp:823-873 | the same for `if` |
| CodeGenerators.CodeGenerator.CodegenOption | kaleidoscope/functional_programming_language/functional.cpp:929-938 | an expression that may be missing, with its default |
| CodeGenerators.CodeGenerator.EnterLoop | kaleidoscope/functional_programming_language/functional.cpp:905-916 | stores the start value, and falls through into the new loop block |
| CodeGenerators.CodeGenerator.Shadow | kaleidoscope/functional_programming_language/functional.cpp:918-921 | binds a name to a new slot, and returns what it was bound to |
| CodeGenerators.CodeGenerator.LeaveLoop | kaleidoscope/functional_programming_language/functional.cpp:945-963 | increments the variable, compares the end value with 0.0 and branches back or on |
| CodeGenerators.CodeGenerator.EndScope | kaleidoscope/functional_programming_language/functional.cpp:965-969 | gives a name its old slot back, or removes it |
| CodeGenerators.CodeGenerator.CodegenFor | kaleidoscope/functional_programming_language/functional.cpp:894-973 | the specification for `for` |
| CodeGenerators.CodeGenerator.CodegenVarIn | kaleidoscope/functional_programming_language/functional.cpp:975-1021 | the specification for `var`, binding and restoring in two loops |
| CodeGenerators.CodeGenerator.RestoreScopes | kaleidoscope/functional_programming_language/functional.cpp:1015-1017 | restores the names of a list in forward order |
| CodeGenerators.CodeGenerator.CodegenFunction | kaleidoscope/functional_programming_language/functional.cpp:1040-1089 | a finished function, or none if its body has an error |
| Liveness.BitInjective | live-variable-analysis/LiveVariable.cpp:221-238 | different values have different bits, all below the size of the domain |
| Liveness.BitOnto | live-variable-analysis/LiveVariable.cpp:221-238 | every bit below the size of the domain stands for a value |
| Liveness.LivePathInClosed | live-variable-analysis/LiveVariable.cpp:139-194 | sets closed under the transfer function hold the bit of a value all along a path to a use of it |
| Liveness.BeforeJustified | live-variable-analysis/LiveVariable.cpp:139-194 | going backwards through a block from sets of live values gives sets of live values, phis included |
| LiveVariables.StepGrows | live-variable-analysis/Dataflow.h:103-145 | every recomputed in-set contains the old one |
| LiveVariables.StepExact | live-variable-analysis/Dataflow.h:112-151 | a visited block that is not on the worklist has taken up the in-sets of its successors, and what their phis read from it where the successor asks for more or is the only one, despite duplicate entries |
| LiveVariables.StepFrontier | live-variable-analysis/Dataflow.h:146-151 | every predecessor of a visited block is visited or on the worklist, and so is every exit |
| LiveVariables.StepNoted | live-variable-analysis/LiveVariable.cpp:170-185 | after any number of rounds what is noted for a block are exactly the bits that phis of visited blocks read from it |
| LiveVariables.StepJustified | live-variable-analysis/Dataflow.h:115-145 | every bit that a round sets stands for a live value, phis or not |
| LiveVariables.StepKeepsInv | live-variable-analysis/Dataflow.h:103-152 | one round of the worklist loop keeps the invariant, for every graph |
| LiveVariables.StepDecreases | live-variable-analysis/Dataflow.h:203-208 | one round sets a bit, or visits a block for the first time, or uses up a repeated entry |
| LiveVariables.VisitedIffReachesExit | live-variable-analysis/Dataflow.h:169-188 | when the worklist is empty, the blocks visited are exactly those from which the function can be left |
| LiveVariables.InstrSetsSound | live-variable-analysis/LiveVariable.cpp:139-194 | phis or not, and after any number of rounds: a bit set before an instruction stands for a value live there |
| LiveVariables.SuccsTakenUp | live-variable-analysis/Dataflow.h:128-145 | phis or not: when the worklist is empty the in-sets of all successors are held at the end of a visited block, and nothing that is not asked for there |
| LiveVariables.PhiReadIsLive | live-variable-analysis/LiveVariable.cpp:170-185 | for every function: what a phi reads from a visited block that leads to the block of the phi only is in the set at the end of that block, and before its last instruction if that is not what defines it |
| LiveVariables.UseIsFound | live-variable-analysis/LiveVariable.cpp:139-194 | for every function: a use that is not that of a phi is found at the beginning of every path to it on the way to an exit with no definition on the way, and that of a phi if it is in the set at the end of its block |
| LiveVariables.ExactIffReadsKept | live-variable-analysis/LiveVariable.cpp:139-194 | for every function: all stored sets are exactly the values live on the way to an exit if and only if none has lost what a phi reads before the last instruction of the block it is read from |
| CriticalEdge.PhiReadIsLost | live-variable-analysis/Dataflow.h:146-151 | with a block that leads to an exit and to a phi that reads from it, such a value is lost: the block is not looked at again after its phi is |
| LiveVariables.InstrSetsExact | live-variable-analysis/README.md:9-17 | if phis read only from blocks with one successor, a bit is set before an instruction if and only if a path from there, on the way to an exit, leads to a use of the value, by a phi at the end of a block included, with no definition on the way |
| LiveVariables.LivenessExactIff | live-variable-analysis/Dataflow.h:169-188 | under the same condition the stored sets are the live values without reservation if and only if code that never leaves the function uses no value |
| LiveVariables.BelowSolution | live-variable-analysis/Dataflow.h:103-152 | the computed sets are below every solution of the data-flow equations, phis or not |
| LiveVariables.LeastSolution | live-variable-analysis/Dataflow.h:103-152 | so they are for every function, and if phis read only from blocks with one successor they are the least solution of the equations if and only if blocks that never leave the function ask for nothing |
| LiveVariableAnalysis.LiveVariable.BuildIndex | live-variable-analysis/LiveVariable.cpp:221-238 | arguments and instructions get their bits in order, and the table of values is the inverse of the index |
| LiveVariableAnalysis.LiveVariable.AddOperands | live-variable-analysis/LiveVariable.cpp:161-169 | adds exactly the bits of the operands that are values |
| LiveVariableAnalysis.LiveVariable.AddIncoming | live-variable-analysis/LiveVariable.cpp:170-185 | adds what a phi reads to the sets of the blocks it reads it from, and changes no other |
| LiveVariableAnalysis.LiveVariable.TransferInstr | live-variable-analysis/LiveVariable.cpp:151-186 | one instruction: its definition is removed, its uses are added, its set is stored |
| LiveVariableAnalysis.LiveVariable.TransferFunc | live-variable-analysis/LiveVariable.cpp:139-194 | every instruction of the block gets the set that follows from the end of the block, and no other block is touched |
| LiveVariableAnalysis.LiveVariable.Meet | live-variable-analysis/Dataflow.h:112-137 | the union over the successors and the neighbour set, or nothing at an exit |
| LiveVariableAnalysis.LiveVariable.Requeue | live-variable-analysis/Dataflow.h:146-151 | appends the predecessors that are unvisited, or all of them after a change |
| LiveVariableAnalysis.LiveVariable.PerformBackwardAnalysis | live-variable-analysis/Dataflow.h:103-152 | does exactly one step of the specification |
| LiveVariableAnalysis.LiveVariable.InitializeWorklist | live-variable-analysis/Dataflow.h:169-188 | exactly the blocks without successors |
| LiveVariableAnalysis.LiveVariable.InitFlowValues | live-variable-analysis/Dataflow.h:194-199 | all sets start empty |
| LiveVariableAnalysis.LiveVariable.FinalizeBackwardAnalysis | live-variable-analysis/Dataflow.h:154-166 | the in-set of a block grows by exactly the neighbour sets of its predecessors |
| LiveVariableAnalysis.LiveVariable.Round | live-variable-analysis/Dataflow.h:203-208 | one turn of the loop keeps the invariant and comes closer to the end |
| LiveVariableAnalysis.LiveVariable.RunOnFunction | live-variable-analysis/Dataflow.h:190-211 | the loop always ends, with the invariant and an empty worklist |
| LiveVariableAnalysis.LiveVariable.EvalFunc | live-variable-analysis/LiveVariable.cpp:214-246 | for every function only live values are set, every use on a way out is found, what phis read along an edge that is their block's only one is live there, and the sets are below all solutions; exact sets and the least solution under the conditions of the rows above |
| LiveVariableAnalysis.ResultMeans | live-variable-analysis/LiveVariable.cpp:139-246 | what the tables mean when the analysis has ended, for every function and for those without critical edges to phis; the final in-set of a block also has what phis read at the end of the blocks before it |
| Parsing.ParseExpression | kaleidoscope/ast/parser.cpp:314-323 | whatever the tokens, parsing uses up at least one token when it succeeds and never gives back more than it got |
| Parsing.ParseItem | kaleidoscope/ast/parser.cpp:382-408 | every turn of the main loop uses up at least one token, error recovery included |
| Parsing.ParseFile | kaleidoscope/ast/parser.cpp:410-431 | there are at most as many items as tokens |
| Grammar.ExpressionIsParsed | kaleidoscope/ast/parser.cpp:205-323 | every sentence derived with the right binding is parsed to the expression of its tree, up to what cannot continue it |
| Grammar.RhsIsParsed | kaleidoscope/ast/parser.cpp:279-312 | after the first operand the operator loop goes on as if it had read the whole tree |
| Grammar.RightOperandIsParsed | kaleidoscope/ast/parser.cpp:294-306 | after an operator exactly the operand that binds more tightly is read |
| Grammar.PrimaryIsParsed | kaleidoscope/ast/parser.cpp:205-275 | numbers, names, calls with any number of arguments and parentheses are parsed as primaries |
| ParserCorrect.ExpressionSound | kaleidoscope/ast/bnf.md:4-17 | whatever is parsed was derived by the grammar, left operands binding at least as tightly and right operands more tightly, and what follows is no operator |
| ParserCorrect.RhsSound | kaleidoscope/ast/parser.cpp:279-312 | the operator loop extends the tree read so far, equal precedence to the left |
| ParserCorrect.ArgsSound | kaleidoscope/ast/parser.cpp:235-257 | the argument list is derived with its commas and its parenthesis |
| ParserCorrect.ParsesExactlyTheGrammar | kaleidoscope/ast/parser.cpp:205-323 | an expression is parsed up to a rest if and only if the grammar derives it from what comes before the rest and the rest does not continue it, for every table that leaves the punctuation alone |
| ParserCorrect.Unambiguous | kaleidoscope/ast/parser.cpp:279-312 | two trees of one sentence stand for the same expression |
| ParserCorrect.RoundTrip | kaleidoscope/ast/parser.cpp:205-323 | printing any expression with the fewest parentheses and parsing it gives it back, with whatever followed |
| ParserCorrect.RoundTripIffPunctuationFree | kaleidoscope/ast/parser.cpp:180-190 | all expressions survive the round trip if and only if the table gives no precedence to parentheses and comma |
| ParserCorrect.FewestTokens | kaleidoscope/ast/parser.cpp:279-323 | no derivation of an expression is shorter than its printing |
| ParserFiles.PrototypeRoundTrip | kaleidoscope/ast/parser.cpp:325-347 | prototypes are read back |
| ParserFiles.PrototypeExact | kaleidoscope/ast/parser.cpp:325-347 | for all tokens: a prototype is parsed up to a rest if and only if it is written as just what is before the rest, with both parentheses and nothing between the names |
| ParserFiles.ItemExact | kaleidoscope/ast/parser.cpp:349-376 | for all tokens: a definition, external or expression is parsed up to a rest if and only if it is derived by just what is before the rest, and the rest does not go on with it |
| ParserFiles.ItemRoundTrip | kaleidoscope/ast/parser.cpp:349-376 | definitions, externals and expressions are read back |
| ParserFiles.FileRoundTrip | kaleidoscope/ast/parser.cpp:410-431 | a file of items with semicolons between them is read back without an error |
| ParserLookahead.OneTokenAhead | kaleidoscope/ast/parser.cpp:205-376 | what has been read and the next token decide success or failure, whatever comes after them |
| ParserRecovery.ReadsLongest | kaleidoscope/ast/parser.cpp:205-376 | with or without success the parser stops after a list of tokens if and only if that is the longest beginning of an item, and it has succeeded if and only if that is an item |
| ParserRecovery.DropsOneToken | kaleidoscope/ast/parser.cpp:382-408 | an error is reported and exactly one token dropped if and only if what has been read begins an item, is none, and does not with the next token, or the file ends there |
| ParserRecovery.StartsItem | kaleidoscope/ast/parser.cpp:410-431 | the tokens that can start an item |
| ParserRecovery.ErrorIsLocal | kaleidoscope/ast/parser.cpp:378-431 | the beginning of an item with a token that cannot go on with it, between two files of items, costs one error, and every item of both files is read |
| ParserRecovery.StrayToken | kaleidoscope/ast/parser.cpp:400-431 | so does a single character that can start no item |
| Lexing.GapIsSkipped | kaleidoscope/ast/parser.cpp:47-82 | white space and comments that end with their line are not seen |
| Lexing.OpenCommentIsSkipped | kaleidoscope/ast/parser.cpp:74-88 | a comment that ends with the file instead of its line is not seen either, after any text |
| Lexing.TokenIsReadBack | kaleidoscope/ast/parser.cpp:51-91 | a written token is read back if and only if what follows does not lengthen it |
| Lexing.LexRoundTrip | kaleidoscope/ast/parser.cpp:44-92 | a text written from tokens with any blanks and comments between them, nothing where none is needed, is read as those tokens and then the end of the file |
| Lexing.ClashIsLost | kaleidoscope/ast/parser.cpp:51-72 | two tokens with nothing in between are read back if and only if they do not clash |
| Parsers.Parser.GetTok | kaleidoscope/ast/parser.cpp:44-92 | the next token and the characters left are those of the specification |
| Parsers.Parser.ReadAlnum | kaleidoscope/ast/parser.cpp:51-60 | reads the longest run of letters and digits |
| Parsers.Parser.ReadNumeric | kaleidoscope/ast/parser.cpp:63-72 | reads the longest run of digits and points |
| Parsers.Parser.SkipLine | kaleidoscope/ast/parser.cpp:74-82 | skips to the end of the line, which is left |
| Parsers.Parser.GetNextToken | kaleidoscope/ast/parser.cpp:170-174 | drops one token; at the end of the file there is always another end of the file |
| Parsers.Parser.GetTokPrecedence | kaleidoscope/ast/parser.cpp:180-190 | the precedence of the current token; the entry it may add to the table changes no precedence |
| Parsers.Parser.ParsePrimary | kaleidoscope/ast/parser.cpp:260-275 | the specification of the same name |
| Parsers.Parser.ParseParenExpr | kaleidoscope/ast/parser.cpp:211-222 | the specification of the same name |
| Parsers.Parser.ParseIdentifierExpr | kaleidoscope/ast/parser.cpp:224-258 | the specification of the same name, by a loop over the arguments |
| Parsers.Parser.ParseBinOpRHS | kaleidoscope/ast/parser.cpp:277-312 | the specification of the same name, by a loop that rebuilds the left operand |
| Parsers.Parser.ParseExpression | kaleidoscope/ast/parser.cpp:314-323 | the specification of the same name |
| Parsers.Parser.ParsePrototype | kaleidoscope/ast/parser.cpp:325-347 | the specification of the same name |
| Parsers.Parser.ParseArgNames | kaleidoscope/ast/parser.cpp:337-339 | all names up to the first token that is not one |
| Parsers.Parser.HandleItem | kaleidoscope/ast/parser.cpp:349-408 | one item, or a failure after which one more token is dropped |
| Parsers.Parser.MainLoop | kaleidoscope/ast/parser.cpp:410-431 | the loop ends for every text, at its end, having seen the items of the specification |
| Parsers.ParseText | kaleidoscope/ast/parser.cpp:437-452 | main, with its four operators, computes the items of the text |
| Parsers.StandardOperators | kaleidoscope/ast/parser.cpp:437-443 | of its operators products bind most tightly, then sums and differences, then comparisons; nothing else is an operator |
| Parsers.TextRoundTrip | kaleidoscope/ast/parser.cpp:44-431 | from characters to items and back: a text written from items is read as those items |
| MiniCFacts.EvalFuel | ast-interpreter/ASTInterpreter.cpp:23-62 | an expression means the same however much fuel there is, if it is enough |
| MiniCFacts.BlockFuel | ast-interpreter/ASTInterpreter.cpp:70-112 | the same for statements; with too little fuel what is read and written is what is read and written first with more |
| MiniCFacts.CallLater | ast-interpreter/Environment.h:583-599 | input is only ever used up from the front, and what was written stays |
| MiniCFacts.EvalAgree | ast-interpreter/Environment.h:485-513 | the value of an expression depends on the variables it reads only |
| MiniCFacts.InitsFirst | ast-interpreter/ASTInterpreter.cpp:65-68 | visiting all initialisers before declaring anything comes to the same as going from one to the next, if none reads a variable declared before it in the statement |
| MiniCFacts.InitsFirstIff | ast-interpreter/ASTInterpreter.cpp:65-68 | for new variables visiting all initialisers first succeeds if and only if the declaration does and no initialiser reads a variable declared before it in the statement |
| MiniCFacts.InitsFirstDiffers | ast-interpreter/ASTInterpreter.cpp:65-68 | in `int a = 1, b = a` it does not: the interpreter finds no `a` |
| MiniCFacts.InitsFirstStale | ast-interpreter/ASTInterpreter.cpp:65-68 | and if there was an `a` before, as in a later turn of a loop, it takes that value |
| MiniCPrograms.ComparisonsAgree | ast-interpreter/Environment.h:262-347 | of two values one is less, or they are equal, which differences and sums decide as well; the other comparisons follow |
| MiniCPrograms.CountPrints | ast-interpreter/ASTInterpreter.cpp:93-112 | the program that reads n and counts in a loop prints 0 to n - 1, for every n, and nothing if there is no input |
| MiniCPrograms.DifferencePrints | ast-interpreter/ASTInterpreter.cpp:22-27 | PRINT(GET() - GET()) prints the first number read less the second, if that is an int |
| MiniCPrograms.DifferenceByCallPrints | ast-interpreter/ASTInterpreter.cpp:48-62 | so does PRINT(f(GET(), GET())) with a function for the difference: arguments are evaluated from left to right and go to the parameters in order |
| MiniCPrograms.FactComputes | ast-interpreter/Environment.h:632-665 | the recursive function for factorials gives the factorial of every n if that is an int, and is undefined otherwise |
| Interpreter.Environment.IntegerLiteral | ast-interpreter/Environment.h:414-421 | the value goes to the node |
| Interpreter.Environment.FunctionDeclRef | ast-interpreter/Environment.h:485-491 | a reference to a function becomes the current node, with value 0 |
| Interpreter.Environment.DeclRef | ast-interpreter/Environment.h:485-498 | a reference to a variable gets its value, and there must be one |
| Interpreter.Environment.Cast | ast-interpreter/Environment.h:515-532 | a cast passes its value on |
| Interpreter.Environment.UnaryOp | ast-interpreter/Environment.h:350-367 | plus and minus, without overflow |
| Interpreter.Environment.BinOp | ast-interpreter/Environment.h:262-347 | the nine operators on the values left at the two operands, without overflow |
| Interpreter.Environment.AssignOp | ast-interpreter/Environment.h:212-260 | the value goes to the node on the left and to its variable, not to the assignment |
| Interpreter.Environment.Decl | ast-interpreter/Environment.h:429-483 | the variables of a declaration are bound in order, those without initialiser to 0 |
| Interpreter.Environment.CallInput | ast-interpreter/Environment.h:585-592 | GET reads one number, or leaves 0 |
| Interpreter.Environment.CallOutput | ast-interpreter/Environment.h:593-599 | PRINT writes the value left at its argument, and has no value itself |
| Interpreter.Environment.CallUser | ast-interpreter/Environment.h:632-665 | a call remembers its node and pushes a frame with the values of the arguments |
| Interpreter.Environment.Ret | ast-interpreter/Environment.h:557-575 | a return pops the frame and leaves its value at the node the caller is at |
| Interpreter.InterpreterVisitor.VisitExpr | ast-interpreter/ASTInterpreter.cpp:23-46 | after visiting an expression its value is at its node in the top frame, input and output are as the semantics say, and the variables, all frames below and all other nodes are as before |
| Interpreter.InterpreterVisitor.VisitBinary | ast-interpreter/ASTInterpreter.cpp:22-27 | the same for binary operators: the right operand does not disturb the value of the left one |
| Interpreter.InterpreterVisitor.VisitArgs | ast-interpreter/ASTInterpreter.cpp:49-53 | all argument values are still at their nodes when the last argument has been visited, also with calls nested in them |
| Interpreter.InterpreterVisitor.VisitCall | ast-interpreter/ASTInterpreter.cpp:48-62 | a completed call leaves the stack as high as before, the frames below and the caller's variables unchanged, and its value at that very call |
| Interpreter.InterpreterVisitor.VisitBody | ast-interpreter/ASTInterpreter.cpp:54-62 | the callee's frame is gone after the return, recursion included |
| Interpreter.InterpreterVisitor.VisitInits | ast-interpreter/ASTInterpreter.cpp:64-68 | the initialisers are visited in order with the variables as they were before the statement, and their values are still at their nodes when they are bound |
| Interpreter.InterpreterVisitor.VisitDecl | ast-interpreter/ASTInterpreter.cpp:64-68 | binds the values of all initialisers after visiting them, which is what the semantics say if none reads a variable declared before it in the statement |
| Interpreter.InterpreterVisitor.VisitStmt | ast-interpreter/ASTInterpreter.cpp:64-112 | after a statement the variables of the top frame are those of the semantics |
| Interpreter.InterpreterVisitor.VisitWhile | ast-interpreter/ASTInterpreter.cpp:93-112 | the same for loops |
| Interpreter.InterpreterVisitor.VisitBlock | ast-interpreter/ASTInterpreter.cpp:76-91 | the same for the statements of a block |
| Interpreter.Interpret | ast-interpreter/ASTInterpreter.cpp:164-170 | a run of main reads, writes and ends as the semantics say, for every input |
| Intervals.IntersectExact | value-range-analysis/Liveness.h:169-185 | the intersection contains exactly what the first intervals of both ranges contain, whatever their second ones |
| Intervals.CutExact | value-range-analysis/Liveness.h:187-218 | cutting leaves exactly the difference of the first intervals if the right one is inside the left one and what is left over on either side is not too wide for an int, and else nothing |
| RangeArithmetic.LinearLeastIff | value-range-analysis/Liveness.h:998-1045 | the range of a sum or a difference, other than a constant less a variable, is the least interval of its 32-bit results if and only if its two exact bounds wrap around the same number of times |
| RangeArithmetic.FlippedLeastIff | value-range-analysis/Liveness.h:947-991 | a constant less a variable is computed the wrong way round, which is right if and only if the constant is in the middle of the range, or the range is that of all ints and the constant 0 |
| RangeArithmetic.FourCorners | value-range-analysis/Liveness.h:1024-1033 | the extreme products of two intervals are among the four corners |
| RangeArithmetic.Squares | value-range-analysis/Liveness.h:1004-1023 | squares lie between the squares of the bounds, or 0 and the greater of them |
| RangeArithmetic.DifferentProductLeast | value-range-analysis/Liveness.h:1024-1033 | the range of a product of different values or constants is the least interval of its 32-bit results, if all products of bounds wrap around equally often |
| RangeArithmetic.SquareLeast | value-range-analysis/Liveness.h:1004-1023 | so is the range of a value times itself |
| RangeArithmetic.ConstantRangeContains | value-range-analysis/Liveness.h:903-945 | if the bounds of the result wrap around equally often the range of a variable and a constant contains the 32-bit result of every value |
| RangeArithmetic.BinaryLeastIff | value-range-analysis/Liveness.h:851-1072 | the range of a sum or a difference is the least interval of its 32-bit results if and only if it is not computed the wrong way round, save by luck, and its exact bounds wrap around equally often; that of a product is, if all its corners wrap around equally often |
| RangeArithmetic.UnrecordedProductOverflows | value-range-analysis/Liveness.h:1024-1033 | for two variables of which nothing is recorded the corners do not wrap around equally often and the range of the product misses results |
| RangeArithmetic.NamesakesProduct | value-range-analysis/Liveness.h:1006-1023 | for two different values that share a name, and corners that wrap around equally often, the product range contains all products if and only if 0 is not inside the range |
| BranchRanges.ConstantEdgesSound | value-range-analysis/Liveness.h:295-542 | a value within the bounds is let on the edge it takes if and only if it is in the first interval of its range, or nothing or the whole range is kept there, so that an edge is marked unreachable only if no such value takes it |
| BranchRanges.SecondIsLost | value-range-analysis/Liveness.h:337-455 | so after x != 5, which leaves two intervals, the false edge of x < 3 keeps 3 and 4 and loses 7 |
| BranchRanges.ConstantEdgesTight | value-range-analysis/Liveness.h:370-540 | comparisons of order with a constant leave exactly the values of the first interval that take the edge and are not beyond what the source takes for infinity |
| BranchRanges.EqualityEdgesTight | value-range-analysis/Liveness.h:298-369 | comparisons of equality do so too, except that a range whose first interval is only the constant, or one from which it cannot be cut without overflow, is kept on the edge, with its second interval |
| BranchRanges.VariableEdgesSound | value-range-analysis/Liveness.h:546-844 | with two variables neither is kept from a value it can have on the edge taken, in either order |
| BranchRanges.VariableEdgesTight | value-range-analysis/Liveness.h:563-842 | with two variables what is recorded are exactly the values of the first interval, not beyond infinity, that take the edge with some value of the other first interval; nothing is recorded only if there is none |
| BranchRanges.UnsignedMisread | value-range-analysis/Liveness.h:370-420 | an unsigned comparison is read as what it computes if and only if both operands have the same sign |
| RangeVisitor.BranchSound | value-range-analysis/Liveness.h:220-849 | what is recorded for a block stays true, of every value by its name, in every state that comes to the block along an edge of the branch, if the operands are in the first intervals of their ranges and no other value goes by their names |
| RangeVisitor.BranchOnTwoIntervals | value-range-analysis/Liveness.h:295-542 | for an operand compared with a constant, in either interval of its range, it is true if and only if the value is in the first one, or nothing or the whole range is recorded |
| RangeVisitor.SameTarget | value-range-analysis/Liveness.h:395-410 | with both edges into one block what a comparison of order with a constant records is true of a state if and only if it takes the true edge and the bounds of the range leave some value for the false one, since inserting does not overwrite and a mark stays |
| RangeVisitor.SameTargetOfEquality | value-range-analysis/Liveness.h:295-369 | for a comparison of equality it is true if and only if the value is the constant, or nothing was recorded; for one of inequality if and only if the constant is in the range and the value is another, or the constant cannot be cut out |
| RangeVisitor.SameTargetLosesStates | value-range-analysis/Liveness.h:413-455 | so for x < 5 with x between 0 and 10 the block says that x is at most 4, and a state in which x is 7 comes to it as well |
| RangeVisitor.Visitor.HandleBinaryOp | value-range-analysis/Liveness.h:851-1072 | computes the range of the result in 32-bit arithmetic and records it under the name of the result, unless there is one |
| RangeVisitor.Visitor.WithConstant | value-range-analysis/Liveness.h:903-945 | if both bounds wrap around equally often, the range contains the result of every value of the operand, and both its bounds are results of bounds of the operand |
| RangeVisitor.Visitor.Refine | value-range-analysis/Liveness.h:391-410 | records what a bound leaves of a range, or marks the edge |
| RangeVisitor.Visitor.CompareConstant | value-range-analysis/Liveness.h:295-542 | records both edges of a comparison with a constant |
| RangeVisitor.Visitor.CompareVariables | value-range-analysis/Liveness.h:546-844 | records both edges for both variables, a comparison of a value with itself by the branch for greater |
| RangeVisitor.Visitor.HandlePredIcmp | value-range-analysis/Liveness.h:220-849 | records the conclusions of the comparison, in the order of the operands |
| SharedNames.SelfComparison | value-range-analysis/Liveness.h:546-844 | a value compared with itself keeps all of its range on the edge that is always taken; for the other one the range is recorded without its least value, or without its greatest if the comparison allows equality, whichever way round it is written |
| SharedNames.NamesakesBranch | value-range-analysis/Liveness.h:546-844 | for two different operands that share a name what is recorded for an edge is true of all states that take it if and only if the edge is not that of a strict comparison, or the range has one value only |
| SharedNames.NamesakesLoseStates | value-range-analysis/Liveness.h:563-709 | so with both between 0 and 10 the edge of 3 < 10 records [0, 9] for the name, which leaves the 10 out |
| SharedNames.AllOrNoneMeans | value-range-analysis/Liveness.h:295-844 | the condition on the bounds of two ranges: all values of the one stand in the relation to some value of the other, or none does |
| SharedNames.BystanderBranch | value-range-analysis/Liveness.h:295-844 | for another value that shares the name of either operand, what is recorded for an edge of any comparison is true of all states that take it if and only if nothing is recorded, or by the bounds of the ranges all values of the operand can take the edge, or none can |
| SharedNames.BystanderIsLost | value-range-analysis/Liveness.h:413-455 | so for 3 < 5, with 3 and another value of the same name, 10, between 0 and 10 the edge records [0, 4] for the name |
| Profiling.HistogramCounts | llvm-profiling/examples/dynamic-instruction-count/CountDynamicInstructions.cpp:45-54 | the histogram of a block counts every opcode as often as it occurs |
| Profiling.UpdateAdds | llvm-profiling/examples/dynamic-instruction-count/runtime.cpp:148-163 | an update adds the histogram to the counters, modulo 2^32 |
| ProfilingCorrect.EndConserves | llvm-profiling/examples/dynamic-instruction-count/CountDynamicInstructions.cpp:85-108 | what is inserted before a terminator adds the count of the whole block to what is reported or still to be, and leaves nothing unreported at a return |
| ProfilingCorrect.BlockConserves | llvm-profiling/examples/dynamic-instruction-count/CountDynamicInstructions.cpp:44-109 | a block with its nested calls adds exactly what it executes |
| ProfilingCorrect.RunConserves | llvm-profiling/examples/dynamic-instruction-count/CountDynamicInstructions.cpp:44-109 | so does a whole run of a function, from any state of the counters |
| ProfilingCorrect.ProfileIsConserved | llvm-profiling/examples/dynamic-instruction-count/CountDynamicInstructions.cpp:44-109 | after a run of main, with calls nested in any way, the reports add up to the original instructions executed, for each opcode and modulo 2^32, and the counters are empty |
| ProfilingReports.RunLogged | llvm-profiling/examples/dynamic-instruction-count/CountDynamicInstructions.cpp:44-109 | after a run from any state there is one more report for each block completed that returns, with the counts of the blocks completed since the report before, and the counters hold those of the blocks since the last one |
| ProfilingReports.ReturnsInTrace | llvm-profiling/examples/dynamic-instruction-count/CountDynamicInstructions.cpp:51-53 | blocks completed that return are as many as returns executed, those of calls included |
| ProfilingReports.OneReportPerReturn | llvm-profiling/examples/dynamic-instruction-count/CountDynamicInstructions.cpp:102-108 | a run of main reports as often as it executes a return, calls included, and the k-th report has the counts of the blocks completed up to the k-th return and after the one before it, modulo 2^32 |
| Instrumentation.FunctionBody.Count | llvm-profiling/examples/dynamic-instruction-count/CountDynamicInstructions.cpp:45-54 | the histogram of a block, and whether it returns |
| Instrumentation.FunctionBody.Arrays | llvm-profiling/examples/dynamic-instruction-count/CountDynamicInstructions.cpp:55-63 | the keys and the counts of a histogram, in the same order |
| Instrumentation.FunctionBody.InstrumentBlock | llvm-profiling/examples/dynamic-instruction-count/CountDynamicInstructions.cpp:85-108 | the update goes before the terminator, the report between the two |
| Instrumentation.FunctionBody.RunOnFunction | llvm-profiling/examples/dynamic-instruction-count/CountDynamicInstructions.cpp:31-112 | every block is instrumented, and nothing else changes |
| Instrumentation.ProfileRuntime.UpdateInstrInfo | llvm-profiling/examples/dynamic-instruction-count/runtime.cpp:144-163 | the counters after the given keys, wrapping at 32 bits |
| Instrumentation.ProfileRuntime.PrintOutInstrInfo | llvm-profiling/examples/dynamic-instruction-count/runtime.cpp:177-187 | the counters are reported and cleared |

## Left out

- CodeGenCorrect.CodegenCorrect: is for `var` lists that repeat no name; CodeGenLeak.CorrectIfUnused and the theorems
  about functions and modules need only that no name is used after a list has leaked it. That is exactly when the code
  is the same as for lists of one variable each (CodeGenLeakExact.SameCodeIff); code that differs may still compute
  the right value, as in `(var x = x, x = b in d) + x`. The forward restore leaks exactly the names
  CodeGenScope.NamesAfterGen says, and code that uses one can be accepted out of scope
  (CodeGenSuccess.RepeatedNameEscapes) or compute a wrong value (CodeGenLeak.LeakHidesOuter). An assignment whose left
  side is not a variable, which the unchecked cast lets through, and a user operator without a function, which fails
  an assertion, count as failed code generation.
- Code generator: constant folding by the builder, the order of blocks in the text, the optimiser, the JIT, duplicate
  parameter names, the installation of operators in the precedence table, the arity of operator prototypes, and the
  second parser, with unary operators, `if`, `for` and `var`. Blocks, registers and slots are known by numbers.
- LiveVariables.InstrSetsExact: phis must read only from blocks with one successor, as a value read by a phi is added
  to the sets of another block without that block being looked at again (CriticalEdge.PhiReadIsLost). For all other
  functions LiveVariables.ExactIffReadsKept says which sets tell whether anything is lost; whether it is depends on
  the order of the worklist, and no condition on the graph alone is given.
- LiveVariableAnalysis.LiveVariable.EvalFunc: the neighbour sets kept from earlier functions are not there, since
  blocks are known by their number in one function; statistics and printing are left out, and so is the forward
  analysis.
- ParserCorrect.RoundTrip: numbers keep the text they were written with; conversion to doubles is not part of the
  model.
- Lexing.LexRoundTrip: characters are those of the C locale.
- Interpreter.Interpret: calls and turns of loops are bounded by fuel, which stands for runs of any length
  (MiniCFacts.BlockFuel); a return in main, early returns, functions without a return, pointers, arrays, globals,
  division, nested assignments, branches that are not compound statements and calls of undefined functions are outside
  the fragment. A failed assertion and signed overflow both count as undefined.
- MiniCFacts.InitsFirstIff: is for variables that are new; for others, as in a later turn of a loop, visiting the
  initialisers first may succeed with an old value (MiniCFacts.InitsFirstStale).
- RangeArithmetic.BinaryLeastIff: signed overflow, undefined in the source's language, is taken to wrap around in the
  analysis as in the analysed program; for products with corners that do not wrap around equally often no exact
  condition is given, only an input that fails (RangeArithmetic.UnrecordedProductOverflows); integer constants of more
  than 32 bits, which the source takes for variables without a name, and division, remainder and the bitwise
  operations, for which it computes nothing, are left out.
- RangeVisitor.BranchSound: the two edges must lead to different blocks (RangeVisitor.SameTarget and
  RangeVisitor.SameTargetOfEquality say what holds otherwise), no other value may share the name of an operand (for
  names of which nothing was recorded yet SharedNames.NamesakesBranch says exactly what holds when the operands share
  one, and SharedNames.BystanderBranch when another value has the name of an operand), values lie in the first
  interval of their range (RangeVisitor.BranchOnTwoIntervals says what holds in the second), and within the bounds the
  source takes for infinity (BranchRanges.ConstantEdgesTight says what happens beyond); merging, joining, loops and
  the pass as a whole are left out, as later refinements are dropped there.
- ProfilingCorrect.ProfileIsConserved: blocks left in the middle, by `exit` or an exception, are not runs of the
  model; static counting and branch bias are left out.
- The remaining exercises of the repository (tutorials, further analyses, drivers, tests) are not modelled.
