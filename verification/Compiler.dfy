/** The components put together, from the text of a source file to the target function. */
module Compiler {
  import opened Prelude
  import opened Ast
  import opened Values
  import opened GeneratorSpec
  import opened ParserSpec
  import opened SourceText
  import opened Target
  import opened LoweringSpec
  import opened EndToEnd
  import Parser
  import SemanticAnalyzer
  import IRGenerator
  import CodeGenerator

  /** What compiling promises of `f`, whatever the floats and the allocator do. */
  ghost predicate Implements(f: Function, p: Program) {
    forall interp: Interp, available: Allocator :: RunsAs(interp, available, p, f)
  }

  /** `compileToLLVM`: parse, analyze, generate, lower; nothing where any of them throws. */
  method CompileToLLVM(floats: FloatReader, order: Order, cleanup: CleanupOrder, source: string)
    returns (r: Option<Function>)
    ensures match ParseSource(floats, source)
      case None => r.None?
      case Some(p) =>
        && r == Compile(order, cleanup, p)
        && (r.Some? && ValidOrder(order) && ValidCleanup(cleanup) ==> Implements(r.value, p))
  {
    hide Compile, ParseSource, RunsAs, ValidCleanup, ValidOrder;
    var program := Parser.Parse(floats, source);
    if program.None? {
      return None;
    }
    var p := program.value;
    r := CompileProgram(order, cleanup, p);
    if r.Some? && ValidOrder(order) && ValidCleanup(cleanup) {
      forall interp: Interp, available: Allocator ensures RunsAs(interp, available, p, r.value) {
        SourceToStatus(floats, interp, available, order, cleanup, source, p);
      }
    }
  }

  method CompileProgram(order: Order, cleanup: CleanupOrder, p: Program) returns (r: Option<Function>)
    ensures r == Compile(order, cleanup, p)
  {
    var analyzer := new SemanticAnalyzer.Analyzer();
    var ok := analyzer.AnalyzeProgram(p);
    if !ok {
      return None;
    }
    var generator := new IRGenerator.Generator(analyzer.symbols, order);
    var m := generator.Generate(p);
    if m.None? {
      return None;
    }
    var back := new CodeGenerator.Generator(cleanup);
    r := back.Generate(m.value);
  }
}
