/**
 The source meaning of a Yacari function body: names live in a stack of scopes.
 A block opens a scope and closes it at its end, a declaration adds to the innermost scope, and a
 use or an assignment reaches the innermost scope that knows the name.
 */
module AstSemantics {
  import opened Wrappers
  import T = Tokens
  import opened Values
  import A = Ast
  import Ir

  type Scopes = seq<map<string, Val>>
  type Context = seq<map<string, Ir.Type>>

  /** The innermost level of `levels` that binds `name`. */
  function Innermost<T>(levels: seq<map<string, T>>, name: string): (r: Option<nat>)
    ensures r.Some? ==> r.value < |levels| && name in levels[r.value]
    ensures r.Some? ==> forall k :: r.value < k < |levels| ==> name !in levels[k]
    ensures r.None? ==> forall k :: 0 <= k < |levels| ==> name !in levels[k]
  {
    if |levels| == 0 then None
    else if name in levels[|levels| - 1] then Some(|levels| - 1)
    else Innermost(levels[..|levels| - 1], name)
  }

  /** Bind `name` in the innermost scope. */
  function Declare<T>(levels: seq<map<string, T>>, name: string, x: T): seq<map<string, T>>
    requires |levels| > 0
  {
    levels[|levels| - 1 := levels[|levels| - 1][name := x]]
  }

  /** Evaluate `e`; `fuel` bounds the number of iterations of any one loop nest. */
  function Eval(e: A.Expr, scopes: Scopes, fuel: nat): Result<Scopes>
    decreases fuel, e, 0
  {
    match e
    case Lit(Int(n)) => Done(Int(n), scopes)
    case Lit(Bool(b)) => Done(Bool(b), scopes)
    case Ident(name) =>
      var level := Innermost(scopes, name);
      if level.None? then Wrong else Done(scopes[level.value][name], scopes)
    case Variable(_, name, value) =>
      var (v, scopes1) :- Eval(value, scopes, fuel);
      if |scopes1| == 0 then Wrong else Done(v, Declare(scopes1, name, v))
    case Block(exprs) =>
      var (v, scopes1) :- EvalItems(exprs, scopes + [map[]], fuel);
      if |scopes1| == 0 then Wrong else Done(v, scopes1[..|scopes1| - 1])
    case If(cond, thn, els) =>
      var (c, scopes1) :- Eval(cond, scopes, fuel);
      if !c.Bool? then Wrong
      else if els.None? then
        if !c.b then Done(Unit, scopes1) else
        var (_, scopes2) :- Eval(thn, scopes1, fuel);
        Done(Unit, scopes2)
      else Eval(if c.b then thn else els.value, scopes1, fuel)
    case While(cond, body) =>
      if fuel == 0 then OutOfFuel else
      var (c, scopes1) :- Eval(cond, scopes, fuel);
      if !c.Bool? then Wrong
      else if !c.b then Done(Unit, scopes1)
      else
        var (_, scopes2) :- Eval(body, scopes1, fuel);
        Eval(e, scopes2, fuel - 1)
    case Binary(left, op, right) =>
      if op == T.Equal then EvalAssign(left, right, scopes, fuel)
      else
        var (l, scopes1) :- Eval(left, scopes, fuel);
        var (r, scopes2) :- Eval(right, scopes1, fuel);
        Finish(Apply(op, l, r), scopes2)
    case _ => Wrong
  }

  /** Evaluate the elements of a block in order; the value is that of the last one. */
  function EvalItems(exprs: seq<A.Expr>, scopes: Scopes, fuel: nat): Result<Scopes>
    decreases fuel, exprs, 0
  {
    if |exprs| == 0 then Done(Unit, scopes)
    else
      var (_, scopes1) :- EvalItems(exprs[..|exprs| - 1], scopes, fuel);
      Eval(exprs[|exprs| - 1], scopes1, fuel)
  }

  /** `target = value` for a named target. */
  function EvalAssign(target: A.Expr, value: A.Expr, scopes: Scopes, fuel: nat): Result<Scopes>
    decreases fuel, value, 1
  {
    if !target.Ident? then Wrong
    else
      var (v, scopes1) :- Eval(value, scopes, fuel);
      var level := Innermost(scopes1, target.name);
      if level.None? then Wrong
      else Done(v, scopes1[level.value := scopes1[level.value][target.name := v]])
  }

  /** The static type of `e` in the fragment, if it has one. Declarations stand only in blocks. */
  function Check(e: A.Expr, ctx: Context): Option<Ir.Type>
    decreases e, 1
  {
    match e
    case Lit(Int(_)) => Some(Ir.IntType)
    case Lit(Bool(_)) => Some(Ir.BoolType)
    case Ident(name) =>
      var level := Innermost(ctx, name);
      if level.None? then None else Some(ctx[level.value][name])
    case Block(exprs) =>
      var r := CheckItems(exprs, ctx + [map[]]);
      if r.None? then None else Some(r.value.0)
    case If(cond, thn, els) =>
      if Check(cond, ctx) != Some(Ir.BoolType) then None
      else
        var t := Check(thn, ctx);
        if els.None? then (if t.None? then None else Some(Ir.Void))
        else
          var f := Check(els.value, ctx);
          if t.None? || f.None? then None
          else Some(if t == f then t.value else Ir.Void)
    case While(cond, body) =>
      if Check(cond, ctx) != Some(Ir.BoolType) || Check(body, ctx).None? then None else Some(Ir.Void)
    case Binary(left, op, right) =>
      var l := Check(left, ctx);
      var r := Check(right, ctx);
      if l.None? || r != l then None
      else if op == T.Equal then (if left.Ident? then l else None)
      else if l.value != Ir.IntType then None
      else if IsArithmetic(op) then Some(Ir.IntType)
      else if IsComparison(op) then Some(Ir.BoolType)
      else None
    case _ => None
  }

  /** The type of a block's last element and the context its declarations leave behind. */
  function CheckItems(exprs: seq<A.Expr>, ctx: Context): Option<(Ir.Type, Context)>
    decreases exprs, 0
  {
    if |exprs| == 0 then Some((Ir.Void, ctx))
    else
      var front := CheckItems(exprs[..|exprs| - 1], ctx);
      if front.None? then None
      else CheckItem(exprs[|exprs| - 1], front.value.1)
  }

  /** One element of a block: a declaration of a scalar, or an expression. */
  function CheckItem(e: A.Expr, ctx: Context): Option<(Ir.Type, Context)>
    decreases e, 2
  {
    if e.Variable? then
      var t := Check(e.value, ctx);
      if t.None? || !Ir.IsScalar(t.value) || |ctx| == 0 then None
      else Some((t.value, Declare(ctx, e.name, t.value)))
    else
      var t := Check(e, ctx);
      if t.None? then None else Some((t.value, ctx))
  }
}
