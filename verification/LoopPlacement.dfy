/**
 Where loops may stand in a source body. A loop yields a value that its type does not count, so it
 must not end a body or an arm whose value is used; this is decided on the source and proved to be
 the same condition on the compiled tree.
 */
module LoopPlacement {
  import opened Wrappers
  import T = Tokens
  import Values
  import A = Ast
  import Ir
  import S = AstSemantics
  import opened ExprCompiler
  import opened References
  import opened Resolution
  import opened TranslatorArity

  /** The value of `e` is that of a loop. */
  predicate EndsInLoop(e: A.Expr) {
    match e
    case While(_, _) => true
    case Block(exprs) => |exprs| > 0 && EndsInLoop(exprs[|exprs| - 1])
    case Variable(_, _, value) => EndsInLoop(value)
    case Binary(_, op, right) => op == T.Equal && EndsInLoop(right)
    case _ => false
  }

  /** Where both arms of a conditional have the same type, neither ends in a loop. */
  predicate ArmsYield(e: A.Expr, ctx: S.Context)
    decreases e, 1
  {
    match e
    case Block(exprs) => ItemsYield(exprs, ctx + [map[]])
    case If(cond, thn, els) =>
      && ArmsYield(cond, ctx) && ArmsYield(thn, ctx)
      && (els.Some? ==>
           && ArmsYield(els.value, ctx)
           && (S.Check(thn, ctx) == S.Check(els.value, ctx) ==> !EndsInLoop(thn) && !EndsInLoop(els.value)))
    case While(cond, body) => ArmsYield(cond, ctx) && ArmsYield(body, ctx)
    case Binary(left, _, right) => ArmsYield(left, ctx) && ArmsYield(right, ctx)
    case Variable(_, _, value) => ArmsYield(value, ctx)
    case _ => true
  }

  /** The elements of a block, each in the context that the ones before it leave. */
  predicate ItemsYield(exprs: seq<A.Expr>, ctx: S.Context)
    decreases exprs, 0
  {
    |exprs| > 0 ==>
      var front := S.CheckItems(exprs[..|exprs| - 1], ctx);
      && ItemsYield(exprs[..|exprs| - 1], ctx)
      && (front.Some? ==> ArmsYield(exprs[|exprs| - 1], front.value.1))
  }

  /** The whole condition on a body: no loop where a value is passed on. */
  predicate LoopsPlaced(body: A.Expr) {
    ArmsYield(body, [map[]]) && !EndsInLoop(body)
  }

  /** The compiled tree is in the same case as its source. */
  ghost predicate Alike(ir: Ir.Expr, e: A.Expr, ctx: S.Context) {
    PhiArmsYield(ir) == ArmsYield(e, ctx) && EndsInWhile(ir) == EndsInLoop(e)
  }

  lemma {:induction false} CompileAlike(e: A.Expr, ctx: S.Context, envs: Environments, locals: seq<Ir.VarStore>)
    requires S.Check(e, ctx).Some? && Consistent(envs, ctx, locals) && Supported(e)
    requires Compile(e, envs, locals).valid
    ensures Alike(Compile(e, envs, locals).ir, e, ctx)
    decreases e, 1
  {
    hide Consistent;
    match e
    case Lit(_) =>
    case Ident(name) => NameTyped(name, ctx, envs, locals);
    case Block(exprs) =>
      OpenConsistent(envs, ctx, locals);
      ItemsAlike(exprs, ctx + [map[]], envs + [map[]], locals);
    case If(_, _, _) => IfAlike(e, ctx, envs, locals);
    case While(cond, body) =>
      CompileTyped(cond, ctx, envs, locals);
      CompileAlike(cond, ctx, envs, locals);
      CompileAlike(body, ctx, envs, Compile(cond, envs, locals).locals);
    case Binary(_, _, _) => BinaryAlike(e, ctx, envs, locals);
  }

  lemma {:induction false} BinaryAlike(e: A.Expr, ctx: S.Context, envs: Environments, locals: seq<Ir.VarStore>)
    requires e.Binary? && S.Check(e, ctx).Some? && Consistent(envs, ctx, locals) && Supported(e)
    requires Compile(e, envs, locals).valid
    ensures Alike(Compile(e, envs, locals).ir, e, ctx)
    decreases e, 0
  {
    hide Consistent;
    CompileTyped(e.left, ctx, envs, locals);
    CompileAlike(e.left, ctx, envs, locals);
    var l := Compile(e.left, envs, locals);
    CompileTyped(e.right, ctx, envs, l.locals);
    CompileAlike(e.right, ctx, envs, l.locals);
  }

  lemma {:induction false} IfAlike(e: A.Expr, ctx: S.Context, envs: Environments, locals: seq<Ir.VarStore>)
    requires e.If? && S.Check(e, ctx).Some? && Consistent(envs, ctx, locals) && Supported(e)
    requires Compile(e, envs, locals).valid
    ensures Alike(Compile(e, envs, locals).ir, e, ctx)
    decreases e, 0
  {
    hide Consistent;
    CompileTyped(e.cond, ctx, envs, locals);
    CompileAlike(e.cond, ctx, envs, locals);
    var c := Compile(e.cond, envs, locals);
    CompileTyped(e.thn, ctx, envs, c.locals);
    CompileAlike(e.thn, ctx, envs, c.locals);
    var t := Compile(e.thn, envs, c.locals);
    if e.els.Some? {
      CompileTyped(e.els.value, ctx, envs, t.locals);
      CompileAlike(e.els.value, ctx, envs, t.locals);
    } else {
      assert PhiArmsYield(Ir.Constant(Values.Int(0)));
      assert Compile(e, envs, locals).ir == Ir.MakeIf(c.ir, t.ir, None);
    }
  }

  lemma {:induction false} ItemsAlike(exprs: seq<A.Expr>, ctx: S.Context, envs: Environments, locals: seq<Ir.VarStore>)
    requires S.CheckItems(exprs, ctx).Some? && Consistent(envs, ctx, locals)
    requires (forall i :: 0 <= i < |exprs| ==> Supported(exprs[i])) && CompileItems(exprs, envs, locals).valid
    ensures var irs := CompileItems(exprs, envs, locals).irs;
      && (PhiArmsYield(Ir.Block(irs)) == ItemsYield(exprs, ctx))
      && (|exprs| > 0 ==> EndsInWhile(irs[|irs| - 1]) == EndsInLoop(exprs[|exprs| - 1]))
    decreases exprs, 0
  {
    hide Consistent;
    if |exprs| > 0 {
      var front, last := exprs[..|exprs| - 1], exprs[|exprs| - 1];
      CompileTypedItems(front, ctx, envs, locals);
      ItemsAlike(front, ctx, envs, locals);
      var f := CompileItems(front, envs, locals);
      ItemAlike(last, S.CheckItems(front, ctx).value.1, f.envs, f.locals);
      PhiSnoc(f.irs, Compile(last, f.envs, f.locals).ir);
    }
  }

  lemma {:induction false} ItemAlike(e: A.Expr, ctx: S.Context, envs: Environments, locals: seq<Ir.VarStore>)
    requires S.CheckItem(e, ctx).Some? && Consistent(envs, ctx, locals) && Supported(e)
    requires Compile(e, envs, locals).valid
    ensures Alike(Compile(e, envs, locals).ir, e, ctx)
    decreases e, 2
  {
    hide Consistent;
    CompileAlike(if e.Variable? then e.value else e, ctx, envs, locals);
  }

  lemma PhiSnoc(irs: seq<Ir.Expr>, last: Ir.Expr)
    ensures PhiArmsYield(Ir.Block(irs + [last])) == (PhiArmsYield(Ir.Block(irs)) && PhiArmsYield(last))
  {
    var all := irs + [last];
    assert forall i :: 0 <= i < |irs| ==> all[i] == irs[i];
    assert all[|irs|] == last;
  }

  /** The condition on a source body is the condition on its compiled tree. */
  lemma BodyAlike(body: A.Expr)
    requires S.Check(body, [map[]]).Some? && ReferencesHold(body)
    ensures Supported(body)
    ensures var ir := CompileBody(body).ir;
      && PhiArmsYield(ir) == ArmsYield(body, [map[]]) && EndsInWhile(ir) == EndsInLoop(body)
      && LoopsPlaced(body) == (PhiArmsYield(ir) && !EndsInWhile(ir))
  {
    ReferencesExact(body);
    BodyConsistent();
    CompileAlike(body, [map[]], [map[]], []);
  }
}
