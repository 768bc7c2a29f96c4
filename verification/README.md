# Ocelotl: a verified model of the compiler

Ocelotl compiles a small language of scalar arithmetic, structured conditionals and tensor declarations. This
project models the whole path from source text to the part of LLVM the back end uses, and proves that the path
is correct:

    text -> Lexer -> Parser -> SemanticAnalyzer -> IRGenerator -> IRVerifier -> LLVMCodeGenerator -> exit status

`dafny verify dfyconfig.toml` checks everything.

## How it is organised

Components that update state in the original are classes or methods with loops here (`Lexer`, `Parser`,
`SemanticAnalyzer`, `IRGenerator`, `IRVerifier`, `CodeGenerator`, `StorageSize`). Each is proved to compute exactly
a function of its input (`LexerSpec`, `ParserSpec`, `AnalyzerSpec`, `GeneratorSpec`, `LoweringSpec`) or to decide
exactly a declarative predicate (`WellFormed`). The theorems are about those functions and predicates, against
independent definitions: two evaluators for source and IR, a small target machine, a grammar with derivation
trees, and well-formedness stated without any traversal.

| files | content |
|---|---|
| `Ast`, `Values`, `Arithmetic`, `SourceSemantics` | syntax trees, two's complement arithmetic, and what running a program means |
| `IR`, `IRSemantics` | SSA modules of basic blocks and their evaluator |
| `GeneratorSpec`, `IRGenerator` | the generator as a function on its state, and the class that updates fields |
| `GeneratorFrame`, `Preservation`, `Correctness`, `Retyping` | what generation leaves alone; semantic preservation |
| `Certificate`, `GeneratorCertified`, `GeneratedModule`, `BlockLabels`, `Visits`, `PhiPlacement` | dominance, forward shape, termination, phis |
| `WellFormed`, `IRVerifier`, `VerifiedRuns`, `VerifierCases`, `GeneratorVerifies` | the verifier's exact meaning, what it buys, and that generated modules pass |
| `AnalyzerSpec`, `SemanticAnalyzer`, `Typing`, `TypeSoundness` | analysis, exact for the typing rules, and why accepted programs do not go wrong |
| `GeneratorTypes`, `GenerationTotal`, `Leftovers` | exactly when generation succeeds |
| `Target`, `LoweringSpec`, `CodeGenerator`, `LoweringExact`, `LoweringCorrect`, `StorageBalance`, `StorageSize` | lowering, its simulation, and runtime storage |
| `Tokens`, `LexerSpec`, `LexicalLaws`, `Lexer` | longest-match lexing, character classes, locations, losslessness |
| `ParserSpec`, `Parser`, `Grammar`, `ParserComplete`, `ParserSound`, `SourceText` | parsing, exact for the grammar |
| `Printer`, `PrinterShortest`, `ParserRange`, `PrintedText` | a minimal printer and its round trips |
| `SupportedSource`, `EndToEnd`, `ScalarPrograms`, `Compiler` | the compiler as a whole, as theorems and as one method over the classes |
| `ExampleTexts`, `ExampleRuns` | two of the repository's example programs, from their text to their exit status |

Hash-map iteration is left open: the phi loop and the cleanup loop take their orders from arbitrary functions
(`Order`, `CleanupOrder`), and every theorem holds for all of them. The order function of the phi loop is given the
id of the block being filled, which is different for every join, so no two loops are forced to agree.
Floating-point and tensor contents, `relu` on anything, and uninitialised storage are an arbitrary `Interp`; the
runtime's allocator is an arbitrary oracle that may refuse any call.

## What the code does that its documents do not say

- docs/language.md:36-38 says that a name introduced inside a conditional becomes available afterwards "only if every
  continuing branch defines it with the same type". The generator makes it available exactly then, but the analyzer
  drops the name unless *both* branches define it, even when one of them has returned. `GenerationTotal.BalanceNeeded`
  gives two programs that the analyzer accepts and the generator refuses for this reason; `Leftovers.GenerationClear`
  is the exact condition under which an accepted program is generated, balanced or not.
- A tensor declared inside a branch passes analysis, but the generator looks its type up in the final symbol table. The
  table may no longer have the name, and then nothing is generated (`GenerationTotal.TopLevelNeeded`); or it may give the
  type of a later binding, and then the module can get stuck in a multiplication that the program performs
  (`Retyping.RetypingMatters`). `Retyping.PreservationExact` and `Retyping.AcceptedExact` say exactly when a module still
  does what its program does. Whatever passes lowering does (`EndToEnd.CompilerCorrect`), since it multiplies nothing.
- docs/language.md:57-63 returns a tensor; the analyzer requires every return to be a scalar `i64`.
- docs/language.md:17-29 names calls and tensor declarations without giving their form. `Grammar` takes it from the parser.
- README.md:157-160 says that the verifier does no dominance analysis. It does not; for generated modules dominance is
  proved here (`GeneratedModule.Dominance`). Nor does it notice a phi at the entry, which no path supplies
  (`VerifiedRuns.EntryPhiStuck`).

## Model

| member | source | states |
|---|---|---|
| Correctness.SemanticPreservation | src/ir/IRGenerator.cpp:27-168 | whenever generation succeeds and declarations keep their types in the final table, for any phi-loop order, running the module from its entry returns the value the program returns, traps exactly when it traps, and never corresponds to a program that falls off its end; code after a return inside a branch changes nothing |
| Correctness.FinalTableAgrees | src/ir/IRGenerator.cpp:296-304 | with tensors declared at top level, the analyzer's final table gives each its declared type, so the generator's late lookup is harmless |
| Correctness.CompiledCorrectly | src/ir/IRGenerator.cpp:27-50 | for accepted programs whose declarations keep their types in the final table, wherever they are, the module returns exactly the program's scalar integer or traps exactly when it traps; nothing else happens |
| Retyping.PreservationExact | src/ir/IRGenerator.cpp:27-168 | with no hypothesis: every built module runs as the program retyped by the final table, and so as the program itself if and only if the program and its retyping end in the same way |
| Retyping.AcceptedExact | src/ir/IRGenerator.cpp:27-168 | for every accepted program that is built, the module does what the program does if and only if its run does not get stuck, and without a reachable call it never does |
| Retyping.RetypingMatters | src/ir/IRGenerator.cpp:69-79 | an accepted program that is built and returns 0, whose module gets stuck because a nested tensor took the type of a later one |
| Preservation.ExprRuns | src/ir/IRGenerator.cpp:170-279 | the operations emitted for an expression compute its value, or trap or fail exactly where evaluation does, and disturb no earlier register |
| Preservation.MergeRuns | src/ir/IRGenerator.cpp:146-167 | entering the merge block from either branch, the phis leave every common name bound to the value that branch gave it |
| Preservation.JoinRuns | src/ir/IRGenerator.cpp:126-167 | control that leaves either branch arrives after the conditional with registers matching the source environment, in all four combinations of finished branches |
| Preservation.IfRuns | src/ir/IRGenerator.cpp:93-168 | executing a generated conditional simulates the source conditional, from any state of the generator |
| Preservation.StmtsRun | src/ir/IRGenerator.cpp:108-122 | generated statement lists simulate the source statements one by one, whatever is generated after them |
| GeneratorFrame.GenStmtGrows | src/ir/IRGenerator.cpp:52-168 | a statement changes no block but the current one and new ones, only appends, never reopens a terminated block, closes every block it leaves, and keeps every environment value below the next fresh id |
| GeneratorFrame.GenStmtsGrows | src/ir/IRGenerator.cpp:108-122 | the same for any statement list, from any generator state |
| GeneratorCertified.GenStmtCertified | src/ir/IRGenerator.cpp:52-168 | every statement extends a dominance certificate: which values are defined before each block, where each value is defined, and how each block is reached |
| GeneratorCertified.JoinCertified | src/ir/IRGenerator.cpp:126-167 | the certificate survives the merge block and its phis |
| GeneratedModule.BuildForward | src/ir/IRGenerator.cpp:283-288 | block ids are positions, all blocks are terminated, every edge goes to a later block, nothing branches to the entry, and the last block returns |
| GeneratedModule.PathClimbs | src/ir/IRGenerator.cpp:100-135 | block ids strictly increase along every control path, so none repeats and a path is no longer than the number of blocks |
| Visits.RunClimbs | src/ir/IRGenerator.cpp:100-135 | the blocks that a run of the evaluator visits are such a path, so it takes at most as many block steps as there are blocks |
| GeneratedModule.Dominance | src/ir/IRGenerator.cpp:93-168 | on every path from the entry to a use, by an operation or a terminator, the value has already been computed |
| GeneratedModule.PhiDominance | src/ir/IRGenerator.cpp:146-167 | each phi operand has been computed on every path to the predecessor it names, and the named predecessors are exactly the blocks that branch there |
| GeneratedModule.BuildReachable | src/ir/IRGenerator.cpp:93-135 | every block can be reached from the entry |
| BlockLabels.BuildLabelled | src/ir/IRGenerator.cpp:34-135 | the first block is named entry, conditionals lead to if.then and if.else, and other jumps to if.end |
| GeneratedModule.OnePass | src/codegen/llvm/LLVMCodeGenerator.cpp:137-230 | in module order every operand is defined strictly before its use, and a phi operand even before the block of its phi, so one pass misses nothing and phis may be evaluated one by one |
| GeneratedModule.OnePassExit | src/codegen/llvm/LLVMCodeGenerator.cpp:232-252 | what a terminator reads is defined before it in module order, and its targets are later existing blocks |
| PhiPlacement.PhisExact | src/ir/IRGenerator.cpp:146-167 | after a two-way join the bound names are those bound in both branches; a name whose branches agree keeps its value, every other gets a phi of its own selecting between its two values, no two names share one, and there are no other phis |
| PhiPlacement.SharedValuesAreOlder | src/ir/IRGenerator.cpp:155-158 | a value on which both branches agree was created before either branch |
| GeneratorVerifies.BuiltVerifies | src/ir/IRGenerator.cpp:44-49 | for an accepted program, wherever it declares tensors, whatever is built passes verification |
| GeneratorTypes.TopFlows | src/ir/IRGenerator.cpp:37-42 | success of generation, the names and types it ends with and whether a path is still open depend on names and types alone, not on values, blocks or iteration order |
| GeneratorTypes.ExprStops | src/ir/IRGenerator.cpp:190-279 | an expression stops the generator exactly at an unbound name, operands of different types, a matrix product of too few dimensions, or any other call |
| GenerationTotal.BuildsExactly | src/ir/IRGenerator.cpp:27-46 | building succeeds if and only if names and types flow through without a clash and every path has returned at the end |
| GenerationTotal.GeneratesExactly | src/ir/IRGenerator.cpp:27-50 | for accepted programs the same condition decides the whole of generation: its final verification never fails |
| GenerationTotal.GenerationExact | src/ir/IRGenerator.cpp:27-50 | an accepted program with balanced conditionals, whose declarations agree with the final table, is generated if and only if its last statement is the first to finish every path and the table has every reachable declared name |
| GenerationTotal.GenerationSucceeds | src/ir/IRGenerator.cpp:27-50 | so with top-level tensors it is generated if and only if its last statement is the first to finish every path |
| Leftovers.GenerationClear | src/ir/IRGenerator.cpp:126-167 | an accepted program, balanced or not, whose declarations agree with the final table, is generated if and only if its last statement is the first to finish every path, no name carried past the analyzer meets another type at a join, and no reachable tensor is declared over one or forgotten by the table; expressions never fail |
| GenerationTotal.GeneratedFinish | src/ir/IRGenerator.cpp:37-46 | any program that is built ends in a statement that finishes every path, and no earlier one does |
| GenerationTotal.StmtsInStep | src/semantic/SemanticAnalyzer.cpp:201-242 | in balanced code, declarations included, generation goes on exactly while reachable declared names are in the final table, and the generator's environment and the analyzer's table have the same names and types wherever a path continues |
| GenerationTotal.BalanceNeeded | src/ir/IRGenerator.cpp:137-153 | two accepted programs, with every hypothesis but balance, that are not generated |
| GenerationTotal.TopLevelNeeded | src/ir/IRGenerator.cpp:296-304 | an accepted program, with every hypothesis but top-level tensors, that is not generated |
| IRGenerator.Generator.Generate | src/ir/IRGenerator.cpp:27-50 | the class that mutates blocks, environment and counters returns exactly the module of the specification, which verifies, or nothing where the original throws |
| IRGenerator.Generator.GenerateIf | src/ir/IRGenerator.cpp:93-168 | saving and restoring the environment around the branches and merging them gives the specified state |
| IRGenerator.Generator.GeneratePhis | src/ir/IRGenerator.cpp:146-167 | the phi loop over names in the given order gives the specified state or stops at a type clash |
| IRGenerator.Generator.GenerateExpression | src/ir/IRGenerator.cpp:170-188 | expression generation gives the specified state and value |
| IRVerifier.Verify | src/ir/IRVerifier.cpp:35-173 | accepts a module if and only if it is well formed: unique terminated blocks, phis first, unique results, existing targets, typed operands defined before same-block uses, exact phi predecessors, boolean conditions, at least one return and one return type; any module, cyclic ones included |
| IRVerifier.CollectPredecessors | src/ir/IRVerifier.cpp:77-97 | succeeds exactly when all targets exist, and then knows exactly the predecessors of every block |
| IRVerifier.CheckPhi | src/ir/IRVerifier.cpp:131-142 | accepts a phi exactly when its operands are typed and defined, its predecessors are distinct and they are those of its block |
| VerifiedRuns.VerifiedSafe | src/ir/IRVerifier.cpp:35-173 | what acceptance buys, for any module, cyclic ones included: if it verifies and definitions dominate uses, wherever a run stands it is not stuck; a condition is a boolean, a jump has exactly one place to go, and a returned value has the one return type |
| VerifiedRuns.ForwardSafe | src/ir/IRVerifier.cpp:99-168 | for modules that only jump forward the evaluator traps or returns a value of the return type, and never goes wrong |
| VerifiedRuns.BuiltDominated | src/ir/IRGenerator.cpp:93-168 | generated modules have the dominance asked for |
| VerifiedRuns.EntryPhiStuck | src/ir/IRVerifier.cpp:131-142 | a gap: a module with a phi at its entry verifies and gets stuck |
| VerifierCases.PhiChoice | src/ir/IRVerifier.cpp:131-142 | in a verified module a phi has exactly one operand for each block that can come before it, and no other |
| VerifierCases.RejectsMissing | tests/ir/IRVerifierTests.cpp:16-33 | modules without blocks, an entry, a terminator, a branch target, a value, a return or a call operand are rejected |
| VerifierCases.RejectsRepeated | src/ir/IRVerifier.cpp:44-70 | modules with two blocks of an id, two definitions of a value, or two phi operands for a predecessor are rejected |
| VerifierCases.RejectsTypes | tests/ir/IRVerifierTests.cpp:47-72 | modules with two return types, a condition that is not i1, or an operand of another type are rejected |
| VerifierCases.RejectsPlaces | tests/ir/IRVerifierTests.cpp:35-45 | modules with an operand defined after its use, a phi after another operation, or a phi for other blocks than the predecessors are rejected |
| VerifierCases.AcceptsLateCall | src/ir/IRVerifier.cpp:143-148 | the order of call operands is not checked: a module that uses one before its definition is accepted |
| SemanticAnalyzer.Analyzer.AnalyzeProgram | src/semantic/SemanticAnalyzer.cpp:34-44 | the class that mutates the symbol table accepts exactly what the specification accepts and ends with its table |
| SemanticAnalyzer.Analyzer.MergeBranches | src/semantic/SemanticAnalyzer.cpp:224-241 | the loop over the then-table gives one outcome whatever order it meets the names in |
| Typing.AnalysisExact | src/semantic/SemanticAnalyzer.cpp:34-44 | the analyzer accepts a program, and ends with a table, if and only if the typing rules derive it with a scope before and after every statement of every list, unreachable ones included |
| Typing.ListExact | src/semantic/SemanticAnalyzer.cpp:213-222 | the same for any list analysed from any table |
| Typing.ExprTyped | src/semantic/SemanticAnalyzer.cpp:244-470 | an expression gets a type from the analyzer if and only if the typing rules give it that type |
| Typing.AnalysisSplits | src/semantic/SemanticAnalyzer.cpp:41-43 | analysing a list is analysing its beginning and then, from there, the rest, wherever it is split |
| AnalyzerSpec.AnalyzeStmtsKeeps | src/semantic/SemanticAnalyzer.cpp:137-180 | no statement list, however nested, removes or retypes a symbol |
| AnalyzerSpec.IfSymbols | src/semantic/SemanticAnalyzer.cpp:211-241 | after a conditional the table is the old one and what both branches introduce with one type |
| TypeSoundness.ExprSound | src/semantic/SemanticAnalyzer.cpp:244-470 | a typed expression evaluates to a value of its type or traps; it never reads an unbound name or misapplies an operator |
| TypeSoundness.ExprComplete | src/semantic/SemanticAnalyzer.cpp:244-470 | an expression that evaluates in an environment of the table's names and types is accepted with the type of its value |
| TypeSoundness.StmtExact | src/semantic/SemanticAnalyzer.cpp:89-199 | a simple statement is accepted if and only if running it in an environment of the table's names and types declares a new name, assigns without changing a type, or returns an integer; the table then again describes the environment exactly |
| TypeSoundness.IfExact | src/semantic/SemanticAnalyzer.cpp:201-242 | a conditional with accepted branches is accepted if and only if its condition is a boolean and no name is introduced with two types |
| TypeSoundness.ProgramSound | src/semantic/SemanticAnalyzer.cpp:112-242 | a run of an accepted program never goes wrong, returns nothing but scalar integers, and leaves every symbol of the table bound at its type |
| StorageSize.GuardExact | src/codegen/llvm/LLVMCodeGenerator.cpp:47-50 | the division guard refuses exactly the multiplications that exceed 64 bits |
| StorageSize.TensorStorageSize | src/codegen/llvm/LLVMCodeGenerator.cpp:36-54 | returns the exact byte size if and only if the element type is supported, the shape is non-empty, all dimensions are positive and the true product fits 64 bits; no intermediate product wraps |
| StorageSize.SizeExact | src/codegen/llvm/LLVMCodeGenerator.cpp:36-54 | a tensor has a size if and only if its elements are f32, f64 or i64, its shape is not empty and has no zero, and four or eight times the number of elements is below 2^64; then that is the size |
| StorageSize.SizeOne | src/codegen/llvm/LLVMCodeGenerator.cpp:38-40 | one dimension takes four bytes an element for f32 and eight for f64 and i64 |
| StorageSize.SizeMore | src/codegen/llvm/LLVMCodeGenerator.cpp:46-52 | one more dimension multiplies the size, if that fits |
| CodeGenerator.Generator.Generate | src/codegen/llvm/LLVMCodeGenerator.cpp:60-262 | the pass that fills block, value and slot maps and emits at an insertion point returns exactly the specified function, for any verified module, or nothing where the original throws |
| CodeGenerator.Generator.LowerOperation | src/codegen/llvm/LLVMCodeGenerator.cpp:140-230 | one operation emits the specified instructions and binds its value |
| LoweringExact.LowerExact | src/codegen/llvm/LLVMCodeGenerator.cpp:137-253 | lowering a generated module fails only on unsupported operations, and otherwise yields, block by block, code given without any pass or value map |
| LoweringExact.LowerDecides | src/codegen/llvm/LLVMCodeGenerator.cpp:60-87 | a certified module, whoever made it, is lowered if and only if it verifies, returns scalar i64 everywhere and has only supported operations |
| LoweringExact.AllocationsExact | src/codegen/llvm/LLVMCodeGenerator.cpp:143-151 | the allocations in the code are exactly the declarations, each asking for its tensor's size at alignment 64 |
| LoweringCorrect.LoweredRunAgrees | src/codegen/llvm/LLVMCodeGenerator.cpp:125-253 | the target run ends as the IR run ends, in all cases: the returned integer truncated with balanced storage, undefined exactly at a trap, and without a meaning exactly where the IR run gets stuck |
| LoweringCorrect.EnterSim | src/codegen/llvm/LLVMCodeGenerator.cpp:212-225 | simultaneous target phis agree with one-by-one IR phis on every edge |
| StorageBalance.FreesOnce | src/codegen/llvm/LLVMCodeGenerator.cpp:241-245 | the cleanup loop frees a pointer once if some slot holds it and never otherwise |
| StorageBalance.FreesBalance | src/codegen/llvm/LLVMCodeGenerator.cpp:241-245 | freeing each slot once, in any order, frees every allocated pointer exactly once and otherwise only null |
| EndToEnd.LoweringExactlySupported | src/codegen/llvm/LLVMCodeGenerator.cpp:60-262 | after generation of any accepted program, compilation succeeds if and only if the module has only supported operations |
| LoweringCorrect.ComputeAgrees | src/codegen/llvm/LLVMCodeGenerator.cpp:159-211 | each LLVM predicate that the table picks holds for exactly the relations for which the comparison does, unordered floats included, and the target's arithmetic gives what the IR's does |
| Arithmetic.SourceExact | src/codegen/llvm/LLVMCodeGenerator.cpp:159-182 | an operator on two 64-bit integers yields their sum, difference or product modulo 2^64, or the quotient with a remainder smaller than the divisor and of the dividend's sign; it traps exactly at a zero divisor and at the minimum over minus one; comparisons say what they mean |
| Arithmetic.TargetExact | src/codegen/llvm/LLVMCodeGenerator.cpp:159-211 | the same of the instructions that are emitted |
| Arithmetic.QuotientUnique | src/codegen/llvm/LLVMCodeGenerator.cpp:177-180 | quotient and remainder are determined by that |
| SupportedSource.BuiltSupported | src/codegen/llvm/LLVMCodeGenerator.cpp:143-228 | a module that lowering supports comes from a program that reaches no call and gives every reachable tensor a storable type |
| EndToEnd.CompilerCorrect | src/codegen/llvm/LLVMCodeGenerator.cpp:246-250 | wherever tensors are declared, a compiled program exits with the low 32 bits of the 64-bit result of the source program, with balanced storage, or has undefined behaviour exactly where the source traps, for all hash orders, allocators and float arithmetic |
| EndToEnd.SourceToStatus | src/main.cpp:161-166 | the same from the text of a source file: parsing guarantees the shapes that correctness relies on |
| Compiler.CompileToLLVM | src/main.cpp:158-167 | running the classes one after the other on a source text gives the specified function or nothing, and what it gives implements the parsed program for every float arithmetic and allocator |
| ScalarPrograms.StorageCompiles | src/codegen/llvm/LLVMCodeGenerator.cpp:60-262 | an accepted program with balanced conditionals that assigns only scalars, and declares no tensors where branches meet again, compiles if and only if its last statement is the first to finish every path, it reaches no call, and its reachable tensors are storable and still in the final table |
| ScalarPrograms.StorageCorrect | src/codegen/llvm/LLVMCodeGenerator.cpp:125-151 | for such programs, tensors declared in returning branches included, compilation always succeeds and the run is right: total correctness |
| ScalarPrograms.ScalarCompiles | docs/language.md:8-13 | with top-level tensors the same condition is: finished at the end, no reachable call, every declared type storable |
| ScalarPrograms.ScalarCorrect | docs/language.md:65-68 | for such programs compilation always succeeds, the exit status is right and storage is balanced |
| ExampleRuns.RuntimeAllocation | examples/runtime_allocation.oc:1-2 | that text, character by character, parses, compiles, exits with 7 and frees what it allocated, whether or not the allocation succeeds |
| ExampleRuns.ControlFlow | examples/control_flow.oc:1-7 | that text parses, compiles and exits with 13 |
| LexerSpec.LocationExact | src/frontend/Lexer.cpp:38-56 | offset is the position, line is one more than the newlines before it, column is the distance from the last newline |
| LexerSpec.LongestMatch | src/frontend/Lexer.cpp:93-309 | a token is preceded only by white space and is the longest lexeme at its start with that lexeme's kind, or a lone unknown character; `LexicalLaws` says which characters these are |
| LexerSpec.TokenizeTiles | src/frontend/Lexer.cpp:173-309 | lexing terminates and loses nothing: lexemes and blank gaps are the source, with exact locations |
| LexicalLaws.BlanksExact | src/frontend/Lexer.cpp:58-73 | before a token exactly the blanks, tabs, carriage returns and line feeds are skipped |
| LexicalLaws.NamesExact | src/frontend/Lexer.cpp:93-130 | a token that starts with a..z, A..Z or an underscore takes exactly the following letters, digits and underscores, and is one of four keywords or an identifier |
| LexicalLaws.NumbersExact | src/frontend/Lexer.cpp:132-171 | a token that starts with a digit takes exactly the digits, and a point and digits if a digit follows the point |
| LexicalLaws.SymbolsExact | src/frontend/Lexer.cpp:207-308 | every other character starts the symbol of the table, with an equals sign after it where there is one to take, or is unknown, alone |
| Lexer.Scanner.NextToken | src/frontend/Lexer.cpp:173-309 | the scanner that advances a position and a location returns the specified token and stops after it |
| Lexer.Scanner.LexNumber | src/frontend/Lexer.cpp:132-171 | the digit loops cut out the specified literal, and a point belongs to it only before a digit |
| ParserComplete.ProgramComplete | docs/language.md:17-29 | every derivation with literals in range is parsed to its syntax tree, forcing precedence, left grouping and unseparated statements |
| ParserComplete.ComparisonComplete | src/frontend/Parser.cpp:287-304 | whatever comparison operator or end follows, the lexemes of a comparison bring the loop there with exactly its tree built, grouped to the left |
| ParserSound.ParserExact | src/frontend/Parser.cpp:73-471 | the parser returns a program if and only if the grammar derives the whole stream with that syntax tree |
| ParserSound.Unambiguous | docs/language.md:17-29 | a stream has at most one syntax tree |
| SourceText.LexemesStream | src/frontend/Lexer.cpp:173-309 | whatever the source, the lexer yields a well-spelled stream ending in the only end-of-file token |
| SourceText.SourceExact | src/frontend/Parser.cpp:16-84 | a source text parses if and only if its lexemes are derivable with literals in range |
| ExampleTexts.ControlFlowParses | examples/control_flow.oc:1-7 | the text of the example parses to its program |
| ExampleTexts.AllocatingParses | examples/runtime_allocation.oc:1-2 | the text of the example parses to its program |
| ExampleTexts.LaidLexes | src/frontend/Lexer.cpp:173-309 | lexemes laid out with any blanks between them, or none where they cannot run together, are read back |
| Printer.DecimalReads | src/frontend/Parser.cpp:342-356 | reading a printed number gives it back |
| Printer.PrintParses | src/frontend/Parser.cpp:86-471 | parsing the printed lexemes of any printable program gives the same program |
| PrinterShortest.PrintShortest | src/frontend/Parser.cpp:282-389 | no stream that parses to a program is shorter than its printed one: the printer writes no spare parenthesis |
| ParserRange.ParserRange | src/frontend/Parser.cpp:73-471 | what parsing returns is always printable, hence printing and parsing it again gives it back |
| PrintedText.NextRendered | src/frontend/Lexer.cpp:173-309 | a lexeme between spaces is read as that lexeme |
| PrintedText.PrintedTextParses | src/frontend/Parser.cpp:16-84 | printing a program as text, lexing and parsing it gives the program back |
| Parser.Parser.ParseProgram | src/frontend/Parser.cpp:73-84 | the parser class returns exactly what parsing the remaining lexemes specifies |
| Parser.Parser.ParseStatement | src/frontend/Parser.cpp:86-113 | a statement is parsed as specified and the parser then stands at the specified lexeme |
| Parser.Parser.ParseComparison | src/frontend/Parser.cpp:287-304 | the loop grows the tree on the left exactly as specified |
| Parser.Parser.ParseIdentifierOrCall | src/frontend/Parser.cpp:421-471 | a name or a call is parsed as specified |
| Parser.Parser.ParseTensorType | src/frontend/Parser.cpp:143-209 | element type and dimensions are parsed as specified, out-of-range dimensions refused |
| Parser.Parse | src/frontend/Parser.cpp:16-84 | lexer and parser together compute the specified parse of a source text |

## Left out

- The rest of src/main.cpp, LLVMOptimizer.cpp and TargetCodeGenerator.cpp: command line, files, and wrappers over LLVM passes and targets.
- The LLVM API: replaced by the instructions the back end emits (`Target`). `llvm::verifyModule` is taken to accept them, and module printing is not modelled.
- runtime/runtime.c: only that each allocation returns a new pointer or null, and that pointers are freed.
- Floating-point and tensor contents: `std::stod` is an arbitrary partial reader, arithmetic an arbitrary interpretation. Lowering refuses tensor computations.
- Diagnostics: exceptions are failure values without text, and syntax trees carry no source locations (tokens do).
- Null `shared_ptr` nodes: trees here have no null nodes.
- Characters outside ASCII and locales: `isalpha`, `isdigit` and `isalnum` are the ASCII classes.
- Fields after an exception: when an operation of a class fails, nothing is said about the state it leaves behind.
- Value and block identifiers are unbounded, so counters never wrap.
- AnalyzerSpec.TypeExpr: read-only expression analysis is a function and not a method, as the source only reads state there.
- Correctness.CompiledCorrectly: assumes that declarations keep their types in the final table; it is false without (`Retyping.RetypingMatters`), and `Retyping.AcceptedExact` gives the exact condition.
- Leftovers.GenerationClear: like the results for balanced programs, assumes that declarations agree with the final table; without that, `GenerationTotal.BuildsExactly` still decides, by following the types that the table gives.
- PrintedText.PrintedTextParses: the spelling of floats is given by an arbitrary speller that the float reader inverts.
