/** From an accepted source program to the exit status of the lowered program. */
module EndToEnd {
  import opened Prelude
  import opened Ast
  import opened Values
  import Src = SourceSemantics
  import opened IR
  import opened AnalyzerSpec
  import opened TypeSoundness
  import opened GeneratorSpec
  import opened GeneratedModule
  import opened GeneratorVerifies
  import opened Retyping
  import opened SupportedSource
  import opened Certificate
  import opened WellFormed
  import opened Target
  import opened LoweringSpec
  import opened LoweringExact
  import opened LoweringCorrect
  import opened StorageBalance
  import opened ParserSpec
  import opened ParserSound
  import opened SourceText
  import Grammar

  /** Analysis, generation, verification and lowering, in that order. */
  ghost function Compile(order: Order, cleanup: CleanupOrder, p: Program): Option<Function> {
    match Analyze(p)
    case None => None
    case Some(symbols) =>
      match Generate(Context(symbols, order), p)
      case None => None
      case Some(m) => Lower(m, cleanup)
  }

  ghost predicate ValidCleanup(cleanup: CleanupOrder) {
    forall slots :: IsEnumeration(cleanup(slots), slots)
  }

  /** Every returned value of a generated module is a scalar i64, so the first return is. */
  lemma GeneratedReturns(order: Order, p: Program) returns (c: Cert)
    requires ValidOrder(order) && Analyze(p).Some? && Shaped(p)
    requires Generate(Context(Analyze(p).value, order), p).Some?
    ensures var m := Generate(Context(Analyze(p).value, order), p).value;
      Certified(m.blocks, c) && AllTerminated(m) && m.entry == 0 && WellFormedModule(m) && ReturnsTyped(m.blocks)
        && ReturnsI64(m)
  {
    var ctx := Context(Analyze(p).value, order);
    c := BuildCertified(ctx, p);
    var m := Generate(ctx, p).value;
    ShapedIntegers(ctx.symbols, p);
    BuiltReturns(order, p);
    forall b | 0 <= b < |m.blocks| && Returns(m.blocks[b])
      ensures DefinedAs(m, m.blocks[b].terminator.value.value, I64)
    {
      var v := m.blocks[b].terminator.value.value;
      var q :| InRange(m.blocks, q) && OpAt(m.blocks, q).result == v && TypeOf(OpAt(m.blocks, q)) == I64;
      assert DefinesTyped(m, q, v, I64);
    }
  }

  /** After generation, only unsupported operations stop lowering: the single pass never misses a value or a block. */
  lemma LoweringExactlySupported(order: Order, cleanup: CleanupOrder, p: Program)
    requires ValidOrder(order) && Analyze(p).Some? && Shaped(p)
    requires Generate(Context(Analyze(p).value, order), p).Some?
    ensures Compile(order, cleanup, p).Some? <==> SupportedModule(Generate(Context(Analyze(p).value, order), p).value)
  {
    var c := GeneratedReturns(order, p);
    LowerExact(Generate(Context(Analyze(p).value, order), p).value, c, cleanup);
  }

  /** `f` does what the program does: it exits with the low 32 bits of the integer that the program returns, and with
      balanced storage, or has undefined behaviour exactly where the program traps. */
  ghost predicate RunsAs(interp: Interp, available: Allocator, p: Program, f: Function) {
    && Onward(f) && 0 < |f|
    && match Src.RunProgram(interp, p)
       case Returned(v) =>
         var end := RunFunction(interp, available, f);
         v.IntV? && end.Finish? && end.status == Truncate(v.n) && StorageBalanced(end.trace)
       case Trapped => RunFunction(interp, available, f) == Undefined
       case _ => false
  }

  /** The compiler is correct. Whenever compilation succeeds, wherever tensors are declared, for any hash orders, any
      behaviour of the allocator and any floating-point arithmetic, the compiled program exits with the low 32 bits of
      the integer the source program returns, with balanced storage, or has undefined behaviour exactly where the source
      program divides by zero or overflows a division. */
  lemma CompilerCorrect(interp: Interp, available: Allocator, order: Order, cleanup: CleanupOrder, p: Program)
    requires ValidOrder(order) && ValidCleanup(cleanup) && Shaped(p)
    requires Compile(order, cleanup, p).Some?
    ensures RunsAs(interp, available, p, Compile(order, cleanup, p).value)
  {
    var ctx := Context(Analyze(p).value, order);
    var m := Generate(ctx, p).value;
    var c := GeneratedReturns(order, p);
    LowerExact(m, c, cleanup);
    BuiltSupported(ctx, p);
    var slots := Slots(m.blocks);
    assert IsEnumeration(cleanup(SlotSet(slots)), SlotSet(slots));
    LoweredRunAgrees(interp, available, m, c, cleanup(SlotSet(slots)), Compile(order, cleanup, p).value);
    AcceptedExact(interp, order, p);
    ProgramSound(interp, p);
  }

  /** Whatever the grammar derives declares tensors with at least one dimension. */
  lemma {:induction false} DerivedShaped(floats: FloatReader, ss: seq<Grammar.Statement>)
    requires Grammar.GoodStatements(floats, ss)
    ensures Shaped(Grammar.TreeStatements(floats, ss))
    decreases ss
  {
    if ss != [] {
      var tree := Grammar.TreeStatements(floats, ss);
      assert tree[1..] == Grammar.TreeStatements(floats, ss[1..]);
      DerivedShaped(floats, ss[1..]);
      if ss[0].Conditional? {
        DerivedShaped(floats, ss[0].thn);
        DerivedShaped(floats, ss[0].els);
      }
    }
  }

  /** From the text of a source file to the exit status: parsing supplies the shapes that correctness needs. */
  lemma SourceToStatus(floats: FloatReader, interp: Interp, available: Allocator, order: Order, cleanup: CleanupOrder,
                       source: string, p: Program)
    requires ParseSource(floats, source) == Some(p)
    requires ValidOrder(order) && ValidCleanup(cleanup)
    requires Compile(order, cleanup, p).Some?
    ensures Shaped(p)
    ensures RunsAs(interp, available, p, Compile(order, cleanup, p).value)
  {
    hide Compile, Lexemes, Shaped, ParseSource, RunsAs, Grammar.GoodStatements, Grammar.TreeStatements,
      Grammar.WriteStatements;
    SourceExact(floats, source, p);
    var ss :| Derives(floats, ss, Lexemes(source, 0), p);
    DerivedShaped(floats, ss);
    CompilerCorrect(interp, available, order, cleanup, p);
  }
}
