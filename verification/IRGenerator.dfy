/** The IR generator: fields updated in place by a recursive walk over the program. */
module IRGenerator {
  import opened Prelude
  import opened Ast
  import opened IR
  import opened GeneratorSpec
  import opened GeneratorVerifies
  import WellFormed
  import IRVerifier

  class Generator {
    const symbols: map<string, TensorType>
    const order: Order

    var entry: BlockId
    var blocks: seq<BasicBlock>
    var values: Environment
    var nextValueId: ValueId
    var nextBlockId: BlockId
    var currentBlockId: Option<BlockId>

    constructor (symbols: map<string, TensorType>, order: Order)
      ensures this.symbols == symbols && this.order == order
    {
      this.symbols, this.order := symbols, order;
      entry, blocks, values, nextValueId, nextBlockId, currentBlockId := 0, [], map[], 0, 0, None;
    }

    function Ctx(): Context {
      Context(symbols, order)
    }

    function Now(): State
      reads this
    {
      State(blocks, values, nextValueId, currentBlockId)
    }

    /** The next block id is the number of blocks, and the current block exists. */
    predicate Valid()
      reads this
    {
      nextBlockId == |blocks| && GeneratorSpec.Valid(Now())
    }

    /** `generate`: the module, or nothing where the original throws. */
    method Generate(p: Program) returns (result: Option<Module>)
      modifies this
      ensures result == GeneratorVerifies.Generate(Ctx(), p)
      ensures result.Some? ==> WellFormed.WellFormedModule(result.value)
    {
      blocks, values, nextValueId, nextBlockId := [], map[], 0, 0;
      entry := CreateBlock("entry");
      currentBlockId := Some(entry);
      assert Now() == INITIAL && p[0..] == p;
      for i := 0 to |p|
        invariant Valid() && entry == 0
        invariant GenTop(Ctx(), INITIAL, p) == GenTop(Ctx(), Now(), p[i..])
      {
        if currentBlockId.None? {
          return None;
        }
        assert p[i..][0] == p[i] && p[i..][1..] == p[i + 1..];
        var ok := GenerateStatement(p[i]);
        if !ok {
          return None;
        }
      }
      if currentBlockId.Some? && blocks[currentBlockId.value].terminator.None? {
        return None;
      }
      var m := Module(entry, blocks);
      var accepted := IRVerifier.Verify(m);
      return if accepted then Some(m) else None;
    }

    method CreateBlock(name: string) returns (id: BlockId)
      requires nextBlockId == |blocks|
      modifies this`blocks, this`nextBlockId
      ensures id == |old(blocks)| && blocks == old(blocks) + [OpenBlock(id, name)] && nextBlockId == |blocks|
    {
      id := nextBlockId;
      nextBlockId := nextBlockId + 1;
      blocks := blocks + [BasicBlock(id, name, [], None)];
    }

    method CreateValue() returns (id: ValueId)
      modifies this`nextValueId
      ensures id == old(nextValueId) && nextValueId == id + 1
    {
      id := nextValueId;
      nextValueId := nextValueId + 1;
    }

    method EmplaceBack(op: Operation)
      requires Live(Now())
      modifies this`blocks
      ensures blocks == old(blocks)[currentBlockId.value := Append(old(blocks)[currentBlockId.value], op)]
    {
      var block := blocks[currentBlockId.value];
      blocks := blocks[currentBlockId.value := block.(operations := block.operations + [op])];
    }

    method SetTerminator(b: BlockId, t: Terminator)
      requires b < |blocks|
      modifies this`blocks
      ensures blocks == Terminate(old(blocks), b, t)
    {
      blocks := blocks[b := blocks[b].(terminator := Some(t))];
    }

    method GenerateStatement(s: Stmt) returns (ok: bool)
      requires Valid() && Live(Now())
      modifies this`blocks, this`values, this`nextValueId, this`nextBlockId, this`currentBlockId
      ensures ok <==> GenStmt(Ctx(), old(Now()), s).Some?
      ensures ok ==> Valid() && Now() == GenStmt(Ctx(), old(Now()), s).value
      decreases s
    {
      match s
      case TensorDecl(name, _) => ok := GenerateTensorDeclaration(s);
      case Assign(target, e) =>
        var info;
        ok, info := GenerateExpression(e);
        if ok {
          values := values[target := info];
        }
      case Return(e) =>
        var info;
        ok, info := GenerateExpression(e);
        if ok {
          SetTerminator(currentBlockId.value, ReturnOp(info.value));
          currentBlockId := None;
        }
      case If(_, _, _) => ok := GenerateIf(s);
    }

    method GenerateTensorDeclaration(s: Stmt) returns (ok: bool)
      requires s.TensorDecl? && Valid() && Live(Now())
      modifies this`blocks, this`values, this`nextValueId
      ensures ok <==> GenStmt(Ctx(), old(Now()), s).Some?
      ensures ok ==> Valid() && Now() == GenStmt(Ctx(), old(Now()), s).value
    {
      var value := CreateValue();
      if s.name !in symbols {
        return false;
      }
      var ty := symbols[s.name];
      EmplaceBack(TensorDeclOp(value, s.name, ty));
      if s.name in values {
        return false;
      }
      values := values[s.name := ValueInfo(value, ty)];
      ok := true;
    }

    /** The statements of one branch, up to the point where its path has returned. */
    method GenerateBranch(ss: seq<Stmt>) returns (ok: bool)
      requires Valid()
      modifies this`blocks, this`values, this`nextValueId, this`nextBlockId, this`currentBlockId
      ensures ok <==> GenStmts(Ctx(), old(Now()), ss).Some?
      ensures ok ==> Valid() && Now() == GenStmts(Ctx(), old(Now()), ss).value
      decreases ss, 1
    {
      for i := 0 to |ss|
        invariant Valid()
        invariant GenStmts(Ctx(), old(Now()), ss) == GenStmts(Ctx(), Now(), ss[i..])
      {
        if currentBlockId.None? {
          break;
        }
        assert ss[i..][0] == ss[i] && ss[i..][1..] == ss[i + 1..];
        ok := GenerateStatement(ss[i]);
        if !ok {
          return;
        }
      }
      ok := true;
    }

    method GenerateIf(s: Stmt) returns (ok: bool)
      requires s.If? && Valid() && Live(Now())
      modifies this`blocks, this`values, this`nextValueId, this`nextBlockId, this`currentBlockId
      ensures ok <==> GenStmt(Ctx(), old(Now()), s).Some?
      ensures ok ==> Valid() && Now() == GenStmt(Ctx(), old(Now()), s).value
      decreases s, 0
    {
      var condition;
      ok, condition := GenerateExpression(s.cond);
      if !ok {
        return;
      }
      if condition.ty != I1 {
        return false;
      }
      ghost var s1 := Now();
      var conditionBlock := currentBlockId.value;
      var thenBlock := CreateBlock("if.then");
      var elseBlock := CreateBlock("if.else");
      SetTerminator(conditionBlock, CondBranchOp(condition.value, thenBlock, elseBlock));
      var before := values;

      currentBlockId := Some(thenBlock);
      values := before;
      assert blocks == OpenBranches(s1, condition.value).blocks;
      ok := GenerateBranch(s.thn);
      if !ok {
        return;
      }
      var thenEnd := currentBlockId;
      var thenValues := values;

      currentBlockId := Some(elseBlock);
      values := before;
      ok := GenerateBranch(s.els);
      if !ok {
        return;
      }
      var elseEnd := currentBlockId;
      var elseValues := values;
      ok := GenerateJoin(before, thenEnd, elseEnd, thenValues, elseValues);
    }

    method GenerateJoin(before: Environment, thenEnd: Option<BlockId>, elseEnd: Option<BlockId>,
                        thenValues: Environment, elseValues: Environment) returns (ok: bool)
      requires Valid() && currentBlockId == elseEnd && values == elseValues
      requires thenEnd.Some? ==> thenEnd.value < |blocks|
      modifies this`blocks, this`values, this`nextValueId, this`nextBlockId, this`currentBlockId
      ensures ok <==> Join(order, old(Now()), before, thenEnd, elseEnd, thenValues, elseValues).Some?
      ensures ok ==> Valid() && Now() == Join(order, old(Now()), before, thenEnd, elseEnd, thenValues, elseValues).value
    {
      if thenEnd.None? && elseEnd.None? {
        currentBlockId, values := None, before;
        return true;
      }
      var mergeBlock := CreateBlock("if.end");
      if thenEnd.Some? {
        SetTerminator(thenEnd.value, BranchOp(mergeBlock));
      }
      if elseEnd.Some? {
        SetTerminator(elseEnd.value, BranchOp(mergeBlock));
      }
      currentBlockId := Some(mergeBlock);
      if thenEnd.None? {
        values := elseValues;
        return true;
      }
      if elseEnd.None? {
        values := thenValues;
        return true;
      }
      values := map[];
      ok := GeneratePhis(order(mergeBlock, thenValues.Keys), thenEnd.value, elseEnd.value, thenValues, elseValues);
    }

    /** The loop over the then-environment's entries, in the order the hash map yields them. */
    method GeneratePhis(names: seq<string>, thenEnd: BlockId, elseEnd: BlockId,
                        thenValues: Environment, elseValues: Environment) returns (ok: bool)
      requires Valid() && Live(Now())
      modifies this`blocks, this`values, this`nextValueId
      ensures ok <==> MergeNames(old(Now()), names, thenEnd, elseEnd, thenValues, elseValues).Some?
      ensures ok ==> Valid() && Now() == MergeNames(old(Now()), names, thenEnd, elseEnd, thenValues, elseValues).value
    {
      for i := 0 to |names|
        invariant Valid() && Live(Now())
        invariant MergeNames(old(Now()), names, thenEnd, elseEnd, thenValues, elseValues) ==
          MergeNames(Now(), names[i..], thenEnd, elseEnd, thenValues, elseValues)
      {
        assert names[i..][0] == names[i] && names[i..][1..] == names[i + 1..];
        var name := names[i];
        if name !in thenValues || name !in elseValues {
          continue;
        }
        var thenValue, elseValue := thenValues[name], elseValues[name];
        if thenValue.ty != elseValue.ty {
          return false;
        }
        if thenValue.value == elseValue.value {
          values := values[name := thenValue];
          continue;
        }
        var result := CreateValue();
        EmplaceBack(PhiOp(result, thenValue.ty,
                          [PhiIncoming(thenEnd, thenValue.value), PhiIncoming(elseEnd, elseValue.value)]));
        values := values[name := ValueInfo(result, thenValue.ty)];
      }
      ok := true;
    }

    method GenerateExpression(e: Expr) returns (ok: bool, info: ValueInfo)
      requires Valid() && Live(Now())
      modifies this`blocks, this`nextValueId
      ensures ok <==> GenExpr(old(Now()), e).Some?
      ensures ok ==> Valid() && (Now(), info) == GenExpr(old(Now()), e).value
      decreases e
    {
      info := ValueInfo(0, I64);
      match e
      case Ident(name) =>
        ok := name in values;
        if ok {
          info := values[name];
        }
      case IntLit(n) =>
        var result := CreateValue();
        EmplaceBack(ConstantIntOp(result, n, I64));
        ok, info := true, ValueInfo(result, I64);
      case FloatLit(code) =>
        var result := CreateValue();
        EmplaceBack(ConstantFloatOp(result, code, F64));
        ok, info := true, ValueInfo(result, F64);
      case Call(_, _) => ok, info := GenerateCall(e);
      case Binary(_, _, _) => ok, info := GenerateBinary(e);
    }

    method GenerateBinary(e: Expr) returns (ok: bool, info: ValueInfo)
      requires e.Binary? && Valid() && Live(Now())
      modifies this`blocks, this`nextValueId
      ensures ok <==> GenExpr(old(Now()), e).Some?
      ensures ok ==> Valid() && (Now(), info) == GenExpr(old(Now()), e).value
      decreases e, 0
    {
      var lhs, rhs;
      ok, lhs := GenerateExpression(e.lhs);
      if !ok {
        return false, lhs;
      }
      ok, rhs := GenerateExpression(e.rhs);
      if !ok || lhs.ty != rhs.ty {
        return false, rhs;
      }
      var result := CreateValue();
      if e.op.IsArithmetic() {
        EmplaceBack(BinaryOp(result, e.op, lhs.value, rhs.value, lhs.ty));
        info := ValueInfo(result, lhs.ty);
      } else {
        EmplaceBack(CompareOp(result, e.op, lhs.value, rhs.value, lhs.ty));
        info := ValueInfo(result, I1);
      }
    }

    method GenerateCall(e: Expr) returns (ok: bool, info: ValueInfo)
      requires e.Call? && Valid() && Live(Now())
      modifies this`blocks, this`nextValueId
      ensures ok <==> GenExpr(old(Now()), e).Some?
      ensures ok ==> Valid() && (Now(), info) == GenExpr(old(Now()), e).value
      decreases e, 0
    {
      info := ValueInfo(0, I64);
      if e.callee == "relu" && |e.args| == 1 {
        var input;
        ok, input := GenerateExpression(e.args[0]);
        if ok {
          var result := CreateValue();
          EmplaceBack(ReluOp(result, input.value, input.ty));
          info := ValueInfo(result, input.ty);
        }
      } else if e.callee == "matmul" && |e.args| == 2 {
        var lhs, rhs;
        ok, lhs := GenerateExpression(e.args[0]);
        if !ok {
          return;
        }
        ok, rhs := GenerateExpression(e.args[1]);
        if !ok || |lhs.ty.shape| < 1 || |rhs.ty.shape| < 2 {
          return false, info;
        }
        var ty := TensorType(lhs.ty.elementType, [lhs.ty.shape[0], rhs.ty.shape[1]]);
        var result := CreateValue();
        EmplaceBack(MatMulOp(result, lhs.value, rhs.value, ty));
        info := ValueInfo(result, ty);
      } else {
        ok := false;
      }
    }
  }
}
