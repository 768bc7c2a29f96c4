/** The generator's main theorem: compiling preserves what a program does. */
module Correctness {
  import opened Prelude
  import opened Ast
  import opened Values
  import Src = SourceSemantics
  import opened IR
  import opened IRSemantics
  import opened GeneratorSpec
  import opened GeneratorFrame
  import opened Preservation
  import opened GeneratedModule
  import opened AnalyzerSpec
  import opened TypeSoundness

  lemma {:induction false} TopIsBranch(ctx: Context, s: State, ss: seq<Stmt>)
    requires Valid(s) && GenTop(ctx, s, ss).Some?
    ensures GenStmts(ctx, s, ss) == GenTop(ctx, s, ss)
    decreases ss
  {
    if ss != [] {
      TopIsBranch(ctx, GenStmt(ctx, s, ss[0]).value, ss[1..]);
    }
  }

  /** The outcome of an IR run that corresponds to a source run; falling off the end has none. */
  ghost predicate SameOutcome(source: Src.Result, run: Final) {
    match source
    case Continue(_) => false
    case Returned(v) => run == Returned(v)
    case Trapped => run == Trapped
    case Wrong => run == Wrong
  }

  /** Whenever generation succeeds, running the module ends as running the program ends: with the same
      value, in a trap for a trap, and never past the last statement. */
  lemma SemanticPreservation(interp: Interp, ctx: Context, p: Program)
    requires Build(ctx, p).Some? && DeclarationsAgree(ctx.symbols, p)
    ensures var m := Build(ctx, p).value;
      Forward(m.blocks) && m.entry < |m.blocks| && SameOutcome(Src.RunProgram(interp, p), RunModule(interp, m))
  {
    BuildForward(ctx, p);
    var m := Build(ctx, p).value;
    TopIsBranch(ctx, INITIAL, p);
    GenStmtsGrows(ctx, INITIAL, p);
    assert Embeds(Finished(ctx, p), m.blocks);
    GrowsEmbeds(INITIAL, Finished(ctx, p), m.blocks);
    var prev, regs := StmtsRun(interp, m.blocks, ctx, INITIAL, p, map[], None, map[]);
  }

  /** Tensors are declared at top level only. */
  ghost predicate TopLevelTensors(ss: seq<Stmt>) {
    forall i :: 0 <= i < |ss| && ss[i].If? ==> TensorFree(ss[i].thn) && TensorFree(ss[i].els)
  }

  ghost predicate TensorFree(ss: seq<Stmt>)
    decreases ss
  {
    ss != [] ==>
      && TensorFree(ss[1..])
      && match ss[0]
         case TensorDecl(_, _) => false
         case If(_, thn, els) => TensorFree(thn) && TensorFree(els)
         case _ => true
  }

  lemma {:induction false} TensorFreeAgrees(symbols: Symbols, ss: seq<Stmt>)
    requires TensorFree(ss)
    ensures DeclarationsAgree(symbols, ss)
    decreases ss
  {
    if ss != [] {
      TensorFreeAgrees(symbols, ss[1..]);
      if ss[0].If? {
        TensorFreeAgrees(symbols, ss[0].thn);
        TensorFreeAgrees(symbols, ss[0].els);
      }
    }
  }

  /** The final symbol table gives every top-level tensor the type it was declared with. */
  lemma {:induction false} FinalTableAgrees(a: Analysis, ss: seq<Stmt>)
    requires AnalyzeStmts(a, ss).Some? && TopLevelTensors(ss)
    ensures DeclarationsAgree(AnalyzeStmts(a, ss).value.symbols, ss)
    decreases ss
  {
    if ss != [] {
      var a1 := AnalyzeStmt(a, ss[0]).value;
      var symbols := AnalyzeStmts(a, ss).value.symbols;
      FinalTableAgrees(a1, ss[1..]);
      AnalyzeStmtsKeeps(a1, ss[1..]);
      if ss[0].If? {
        TensorFreeAgrees(symbols, ss[0].thn);
        TensorFreeAgrees(symbols, ss[0].els);
      }
    }
  }

  /** For a program the analyzer accepts, whose declarations keep their types in the final table, the compiled run
      returns exactly the integer the source run returns, or traps exactly when it traps; nothing else can happen. */
  lemma CompiledCorrectly(interp: Interp, order: Order, p: Program)
    requires Analyze(p).Some? && DeclarationsAgree(Analyze(p).value, p) && Shaped(p)
    requires Build(Context(Analyze(p).value, order), p).Some?
    ensures var m := Build(Context(Analyze(p).value, order), p).value;
      && Forward(m.blocks) && m.entry < |m.blocks|
      && match Src.RunProgram(interp, p)
         case Returned(v) => v.IntV? && RunModule(interp, m) == Returned(v)
         case Trapped => RunModule(interp, m) == Trapped
         case _ => false
  {
    SemanticPreservation(interp, Context(Analyze(p).value, order), p);
    ProgramSound(interp, p);
  }
}
