/** The two example texts compiled and run. */
module ExampleRuns {
  import opened Prelude
  import opened Ast
  import opened Values
  import opened SourceSemantics
  import opened GeneratorSpec
  import opened AnalyzerSpec
  import opened TypeSoundness
  import opened Correctness
  import opened GenerationTotal
  import opened Retyping
  import opened StorageSize
  import opened Target
  import opened LoweringSpec
  import opened StorageBalance
  import opened EndToEnd
  import opened ScalarPrograms
  import opened ParserSpec
  import opened SourceText
  import opened ExampleTexts

  const SCRATCH_TYPE := TensorType("f64", [4, 4])

  lemma ScratchStorable()
    ensures Storable(SCRATCH_TYPE)
  {
    assert SCRATCH_TYPE.shape[..1] == [4] && [4][..0] == [];
    assert Elements([4]) == Elements([]) * 4 == 4;
    assert Elements(SCRATCH_TYPE.shape) == Elements(SCRATCH_TYPE.shape[..1]) * 4 == 16;
  }

  lemma AllocatingAccepted()
    ensures Analyze(ALLOCATING).Some? && Shaped(ALLOCATING) && TopLevelTensors(ALLOCATING)
    ensures Balanced(ALLOCATING) && ScalarStmts(EMPTY, ALLOCATING) && NoCallStmts(ALLOCATING)
  {
    var rest := ALLOCATING[1..];
    assert rest == [Return(IntLit(7))] && rest[1..] == [];
    var a := Analysis(map[]["Scratch" := SCRATCH_TYPE], None);
    assert AnalyzeStmts(a, rest) == Some(a.(returnType := Some(I64)));
    assert AnalyzeStmts(EMPTY, ALLOCATING) == AnalyzeStmts(a, rest);
  }

  lemma AllocatingRuns(interp: Interp)
    ensures RunProgram(interp, ALLOCATING) == Returned(IntV(7))
  {
    var rest := ALLOCATING[1..];
    assert rest == [Return(IntLit(7))];
    var env := map[]["Scratch" := TensorV(SCRATCH_TYPE, interp.storage("Scratch", SCRATCH_TYPE))];
    assert EvalStmts(interp, env, rest) == Returned(IntV(7));
    assert EvalStmts(interp, map[], ALLOCATING) == EvalStmts(interp, env, rest);
  }

  /** The compiled text exits with `status`, with balanced storage. */
  ghost predicate ExitsWith(floats: FloatReader, interp: Interp, available: Allocator, order: Order,
                            cleanup: CleanupOrder,
                            source: string, status: int)
  {
    && ParseSource(floats, source).Some?
    && Compile(order, cleanup, ParseSource(floats, source).value).Some?
    && var f := Compile(order, cleanup, ParseSource(floats, source).value).value;
    && Onward(f) && 0 < |f|
    && var end := RunFunction(interp, available, f);
    end.Finish? && end.status == status && StorageBalanced(end.trace)
  }

  /** The example that only allocates parses, compiles, exits with 7, and frees what it allocated, if it could. */
  lemma RuntimeAllocation(floats: FloatReader, interp: Interp, available: Allocator, order: Order,
                          cleanup: CleanupOrder)
    requires ValidOrder(order) && ValidCleanup(cleanup)
    ensures ExitsWith(floats, interp, available, order, cleanup, RUNTIME_ALLOCATION, 7)
  {
    hide Analyze, Compile, Balanced, ScalarStmts, NoCallStmts, RunProgram, RunFunction, Shaped, ParseSource;
    AllocatingParses(floats);
    ScratchStorable();
    AllocatingAccepted();
    AllocatingRuns(interp);
    ScalarCorrect(interp, available, order, cleanup, ALLOCATING);
  }

  const CHOICE := CONTROL_FLOW_PROGRAM[1]

  lemma ControlFlowAccepted()
    ensures Analyze(CONTROL_FLOW_PROGRAM).Some? && ScalarStmts(EMPTY, CONTROL_FLOW_PROGRAM)
  {
    var p, rest := CONTROL_FLOW_PROGRAM, CONTROL_FLOW_PROGRAM[1..];
    var x: Symbols := map["X" := I64];
    assert TypeExpr(map[], p[0].expr) == Some(I64) && map[]["X" := I64] == x;
    var a := Analysis(x, None);
    assert AnalyzeStmt(EMPTY, p[0]) == Some(a);
    ChoiceAccepted();
    assert rest == [CHOICE, Return(Ident("Y"))] && rest[1..] == [Return(Ident("Y"))] && rest[1..][1..] == [];
    var b := Analysis(x["Y" := I64], None);
    assert AnalyzeStmts(b, rest[1..]) == Some(b.(returnType := Some(I64)));
    assert AnalyzeStmts(a, rest) == Some(b.(returnType := Some(I64)));
    assert ScalarStmts(b, rest[1..]) && ScalarStmts(a, rest);
  }

  lemma ChoiceAccepted()
    ensures var a := Analysis(map["X" := I64], None);
      && AnalyzeStmt(a, CHOICE) == Some(Analysis(map["X" := I64]["Y" := I64], None))
      && ScalarStmt(a, CHOICE)
  {
    var x: Symbols := map["X" := I64];
    var a, b := Analysis(x, None), Analysis(x["Y" := I64], None);
    assert TypeExpr(x, CHOICE.cond) == Some(I1);
    assert TypeExpr(x, CHOICE.thn[0].expr) == Some(I64) && TypeExpr(x, CHOICE.els[0].expr) == Some(I64);
    assert CHOICE.thn[1..] == [] && CHOICE.els[1..] == [];
    assert AnalyzeStmts(a, CHOICE.thn) == Some(b) && AnalyzeStmts(a, CHOICE.els) == Some(b);
    assert b.(symbols := a.symbols) == a;
    assert NewNames(x, b.symbols, b.symbols) == {"Y"};
    var r := MergeSymbols(x, b.symbols, b.symbols);
    assert r.Some? && r.value.Keys == {"X", "Y"} == b.symbols.Keys;
    assert r.value == b.symbols;
  }

  lemma ControlFlowShaped()
    ensures Shaped(CONTROL_FLOW_PROGRAM) && TopLevelTensors(CONTROL_FLOW_PROGRAM) && Balanced(CONTROL_FLOW_PROGRAM)
    ensures FinishesAtEnd(CONTROL_FLOW_PROGRAM) && NoCallStmts(CONTROL_FLOW_PROGRAM)
      && StorableTensors(CONTROL_FLOW_PROGRAM)
  {
    var p := CONTROL_FLOW_PROGRAM;
    assert p[1..][0] == CHOICE && p[1..][1..] == [Return(Ident("Y"))] && [Return(Ident("Y"))][1..] == [];
    assert CHOICE.thn[1..] == [] && CHOICE.els[1..] == [];
    assert Shaped(CHOICE.thn) && Shaped(CHOICE.els) && TensorFree(CHOICE.thn) && TensorFree(CHOICE.els);
    assert Balanced(CHOICE.thn) && Balanced(CHOICE.els) && !Finishes(CHOICE.thn) && !Finishes(CHOICE.els);
    assert NoCallStmts(CHOICE.thn) && NoCallStmts(CHOICE.els);
    assert Shaped([Return(Ident("Y"))]) && Balanced([Return(Ident("Y"))]) && NoCallStmts([Return(Ident("Y"))]);
    assert Shaped(p[1..]) && Balanced(p[1..]) && NoCallStmts(p[1..]);
  }

  lemma ControlFlowRuns(interp: Interp)
    ensures RunProgram(interp, CONTROL_FLOW_PROGRAM) == Returned(IntV(13))
  {
    var p := CONTROL_FLOW_PROGRAM;
    var x: Env := map["X" := IntV(12)];
    assert map[]["X" := IntV(12)] == x;
    assert EvalStmt(interp, map[], p[0]) == Continue(x);
    var env := x["Y" := IntV(13)];
    assert EvalExpr(interp, x, CHOICE.cond) == Ok(BoolV(true));
    assert EvalExpr(interp, x, CHOICE.thn[0].expr) == Ok(IntV(13));
    assert CHOICE.thn[1..] == [];
    assert EvalStmts(interp, x, CHOICE.thn) == Continue(env);
    assert p[1..][0] == CHOICE && p[1..][1..] == [Return(Ident("Y"))];
    assert EvalStmts(interp, env, [Return(Ident("Y"))]) == Returned(IntV(13));
    assert EvalStmts(interp, x, p[1..]) == Returned(IntV(13));
  }

  /** The control-flow example parses, compiles and exits with 13. */
  lemma ControlFlow(floats: FloatReader, interp: Interp, available: Allocator, order: Order, cleanup: CleanupOrder)
    requires ValidOrder(order) && ValidCleanup(cleanup)
    ensures ExitsWith(floats, interp, available, order, cleanup, CONTROL_FLOW, 13)
  {
    hide *;
    ControlFlowParses(floats);
    ControlFlowAccepted();
    ControlFlowShaped();
    ControlFlowRuns(interp);
    ScalarCorrect(interp, available, order, cleanup, CONTROL_FLOW_PROGRAM);
    Exits(floats, interp, available, order, cleanup, CONTROL_FLOW, CONTROL_FLOW_PROGRAM, 13);
  }

  lemma Exits(floats: FloatReader, interp: Interp, available: Allocator, order: Order, cleanup: CleanupOrder,
              source: string, p: Program, status: Int64)
    requires ParseSource(floats, source) == Some(p) && Compile(order, cleanup, p).Some?
    requires RunsAs(interp, available, p, Compile(order, cleanup, p).value)
    requires RunProgram(interp, p) == Returned(IntV(status)) && -0x8000_0000 <= status < 0x8000_0000
    ensures ExitsWith(floats, interp, available, order, cleanup, source, status)
  {
    hide ParseSource, Compile, RunProgram, RunFunction;
  }
}
