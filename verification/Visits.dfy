/** The blocks that a run of a generated module visits. */
module Visits {
  import opened Prelude
  import opened Ast
  import opened Values
  import opened IR
  import opened IRSemantics
  import opened GeneratorSpec
  import opened GeneratedModule

  /** The evaluator with a record of the blocks it visits, from operation `pc` of block `b` on. */
  function Visit(interp: Interp, blocks: seq<BasicBlock>, b: nat, pc: nat, prev: Option<BlockId>, regs: Regs)
    : (Final, seq<BlockId>)
    requires Forward(blocks) && b < |blocks| && pc <= |blocks[b].operations|
    decreases |blocks| - b, |blocks[b].operations| - pc
  {
    if pc < |blocks[b].operations| then
      match EvalOp(interp, blocks[b].operations[pc], prev, regs)
      case Ok(v) => Visit(interp, blocks, b, pc + 1, prev, regs[blocks[b].operations[pc].result := v])
      case Trap => (Trapped, [b])
      case Stuck => (Wrong, [b])
    else
      match blocks[b].terminator.value
      case BranchOp(t) =>
        assert t in Targets(blocks[b].terminator.value);
        var (end, rest) := Visit(interp, blocks, t, 0, Some(b), regs);
        (end, [b] + rest)
      case CondBranchOp(c, t, e) =>
        assert t in Targets(blocks[b].terminator.value) && e in Targets(blocks[b].terminator.value);
        if c in regs && regs[c].BoolV? then
          var (end, rest) := Visit(interp, blocks, if regs[c].b then t else e, 0, Some(b), regs);
          (end, [b] + rest)
        else (Wrong, [b])
      case ReturnOp(v) => (if v in regs then Returned(regs[v]) else Wrong, [b])
  }

  /** It ends as the evaluator ends, having followed edges from `b` on. */
  lemma {:induction false} VisitFollows(interp: Interp, blocks: seq<BasicBlock>, b: nat, pc: nat,
                                        prev: Option<BlockId>, regs: Regs)
    requires Forward(blocks) && b < |blocks| && pc <= |blocks[b].operations|
    ensures var (end, path) := Visit(interp, blocks, b, pc, prev, regs);
      && end == Exec(interp, blocks, b, pc, prev, regs)
      && path != [] && path[0] == b
      && (forall k :: 0 <= k < |path| ==> path[k] < |blocks|)
      && (forall k :: 0 < k < |path| ==> HasEdge(blocks[path[k - 1]], path[k]))
    decreases |blocks| - b, |blocks[b].operations| - pc
  {
    if pc < |blocks[b].operations| {
      var r := EvalOp(interp, blocks[b].operations[pc], prev, regs);
      if r.Ok? {
        VisitFollows(interp, blocks, b, pc + 1, prev, regs[blocks[b].operations[pc].result := r.value]);
      }
    } else {
      var last := blocks[b].terminator.value;
      match last
      case BranchOp(t) =>
        assert t in Targets(last);
        VisitFollows(interp, blocks, t, 0, Some(b), regs);
      case CondBranchOp(c, t, e) =>
        assert t in Targets(last) && e in Targets(last);
        if c in regs && regs[c].BoolV? {
          VisitFollows(interp, blocks, if regs[c].b then t else e, 0, Some(b), regs);
        }
      case ReturnOp(_) =>
    }
  }

  /** A run of a generated module follows a path that climbs through its blocks: it visits each at most once, and takes
      no more block steps than there are blocks. */
  lemma RunClimbs(interp: Interp, ctx: Context, p: Program)
    requires Build(ctx, p).Some?
    ensures var m := Build(ctx, p).value;
      && Forward(m.blocks) && m.entry < |m.blocks|
      && var (end, path) := Visit(interp, m.blocks, m.entry, 0, None, map[]);
      && end == RunModule(interp, m) && IsPath(m.blocks, path)
      && (forall i, j :: 0 <= i < j < |path| ==> path[i] < path[j]) && |path| <= |m.blocks|
  {
    hide Visit, Exec, Forward;
    BuildForward(ctx, p);
    var m := Build(ctx, p).value;
    VisitFollows(interp, m.blocks, m.entry, 0, None, map[]);
    PathClimbs(ctx, p, Visit(interp, m.blocks, m.entry, 0, None, map[]).1);
  }
}
