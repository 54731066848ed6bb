/** Well-typed source programs never use an unknown name or a value of the wrong type. */
module TypeSafety {
  import opened Values
  import T = Tokens
  import A = Ast
  import Ir
  import opened AstSemantics

  predicate HasType(v: Val, t: Ir.Type) {
    match t
    case Void => true
    case PoisonType => false
    case BoolType => v.Bool?
    case IntType => v.Int?
  }

  /** Both stacks bind the same names at every level. */
  ghost predicate SameNames<S, U>(a: seq<map<string, S>>, b: seq<map<string, U>>) {
    |a| == |b| && forall k :: 0 <= k < |a| ==> a[k].Keys == b[k].Keys
  }

  lemma InnermostSame<S, U>(a: seq<map<string, S>>, b: seq<map<string, U>>, name: string)
    requires SameNames(a, b)
    ensures Innermost(a, name) == Innermost(b, name)
  {
    var i, j := Innermost(a, name), Innermost(b, name);
    if i.Some? { assert name in b[i.value]; }
    if j.Some? { assert name in a[j.value]; }
  }

  /** Every variable holds a value of its declared type. */
  ghost predicate Conforms(ctx: Context, scopes: Scopes) {
    && SameNames(ctx, scopes)
    && forall k, x :: 0 <= k < |ctx| && x in ctx[k] ==> HasType(scopes[k][x], ctx[k][x])
  }

  ghost predicate Safe(r: Result<Scopes>, t: Ir.Type, ctx: Context) {
    && !r.Wrong?
    && (r.Done? ==> HasType(r.v, t) && Conforms(ctx, r.state))
  }

  lemma AssignConforms(ctx: Context, scopes: Scopes, k: nat, x: string, v: Val)
    requires Conforms(ctx, scopes) && k < |ctx| && x in ctx[k] && HasType(v, ctx[k][x])
    ensures Conforms(ctx, scopes[k := scopes[k][x := v]])
  {
  }

  lemma ApplySafe(op: T.TKind, l: Val, r: Val)
    requires l.Int? && r.Int? && (IsArithmetic(op) || IsComparison(op))
    ensures Apply(op, l, r) != Mismatch
    ensures Apply(op, l, r).Value? ==> HasType(Apply(op, l, r).v, if IsArithmetic(op) then Ir.IntType else Ir.BoolType)
  {
  }

  /** Type safety: a checked expression never goes wrong, keeps every scope and yields its type. */
  lemma {:induction false} ExprSafe(e: A.Expr, ctx: Context, scopes: Scopes, fuel: nat)
    requires Check(e, ctx).Some? && Conforms(ctx, scopes)
    ensures Safe(Eval(e, scopes, fuel), Check(e, ctx).value, ctx)
    decreases fuel, e, 1
  {
    match e
    case Lit(_) =>
    case Ident(name) => InnermostSame(ctx, scopes, name);
    case Block(exprs) => BlockSafe(e, ctx, scopes, fuel);
    case If(cond, thn, els) =>
      ExprSafe(cond, ctx, scopes, fuel);
      var c := Eval(cond, scopes, fuel);
      if c.Done? {
        ExprSafe(thn, ctx, c.state, fuel);
        if els.Some? { ExprSafe(els.value, ctx, c.state, fuel); }
      }
    case While(cond, body) => WhileSafe(e, ctx, scopes, fuel);
    case Binary(left, op, right) =>
      if op == T.Equal { AssignSafe(e, ctx, scopes, fuel); }
      else { OperatorSafe(e, ctx, scopes, fuel); }
  }

  lemma {:induction false} WhileSafe(e: A.Expr, ctx: Context, scopes: Scopes, fuel: nat)
    requires e.While? && Check(e, ctx).Some? && Conforms(ctx, scopes)
    ensures Safe(Eval(e, scopes, fuel), Check(e, ctx).value, ctx)
    decreases fuel, e, 0
  {
    if fuel > 0 {
      ExprSafe(e.cond, ctx, scopes, fuel);
      var c := Eval(e.cond, scopes, fuel);
      if c.Done? && c.v.b {
        ExprSafe(e.body, ctx, c.state, fuel);
        var b := Eval(e.body, c.state, fuel);
        if b.Done? { ExprSafe(e, ctx, b.state, fuel - 1); }
      }
    }
  }

  lemma {:induction false} OperatorSafe(e: A.Expr, ctx: Context, scopes: Scopes, fuel: nat)
    requires e.Binary? && e.op != T.Equal && Check(e, ctx).Some? && Conforms(ctx, scopes)
    ensures Safe(Eval(e, scopes, fuel), Check(e, ctx).value, ctx)
    decreases fuel, e, 0
  {
    ExprSafe(e.left, ctx, scopes, fuel);
    var l := Eval(e.left, scopes, fuel);
    if l.Done? {
      ExprSafe(e.right, ctx, l.state, fuel);
      var r := Eval(e.right, l.state, fuel);
      if r.Done? { ApplySafe(e.op, l.v, r.v); }
    }
  }

  lemma {:induction false} AssignSafe(e: A.Expr, ctx: Context, scopes: Scopes, fuel: nat)
    requires e.Binary? && e.op == T.Equal && Check(e, ctx).Some? && Conforms(ctx, scopes)
    ensures Safe(Eval(e, scopes, fuel), Check(e, ctx).value, ctx)
    decreases fuel, e, 0
  {
    ExprSafe(e.right, ctx, scopes, fuel);
    var r := Eval(e.right, scopes, fuel);
    if r.Done? {
      var name := e.left.name;
      InnermostSame(ctx, r.state, name);
      AssignConforms(ctx, r.state, Innermost(ctx, name).value, name, r.v);
    }
  }

  lemma {:induction false} BlockSafe(e: A.Expr, ctx: Context, scopes: Scopes, fuel: nat)
    requires e.Block? && Check(e, ctx).Some? && Conforms(ctx, scopes)
    ensures Safe(Eval(e, scopes, fuel), Check(e, ctx).value, ctx)
    decreases fuel, e, 0
  {
    ItemsSafe(e.exprs, ctx + [map[]], scopes + [map[]], fuel);
    var r := EvalItems(e.exprs, scopes + [map[]], fuel);
    var c := CheckItems(e.exprs, ctx + [map[]]).value.1;
    ItemsKeepOuter(e.exprs, ctx + [map[]]);
    if r.Done? {
      assert c[..|ctx|] == ctx;
      assert Conforms(c[..|ctx|], r.state[..|r.state| - 1]);
    }
  }

  /** Block elements only add to the innermost level. */
  lemma {:induction false} ItemsKeepOuter(exprs: seq<A.Expr>, ctx: Context)
    requires |ctx| > 0 && CheckItems(exprs, ctx).Some?
    ensures |CheckItems(exprs, ctx).value.1| == |ctx|
    ensures CheckItems(exprs, ctx).value.1[..|ctx| - 1] == ctx[..|ctx| - 1]
  {
    if |exprs| > 0 { ItemsKeepOuter(exprs[..|exprs| - 1], ctx); }
  }

  lemma {:induction false} ItemsSafe(exprs: seq<A.Expr>, ctx: Context, scopes: Scopes, fuel: nat)
    requires CheckItems(exprs, ctx).Some? && Conforms(ctx, scopes)
    ensures Safe(EvalItems(exprs, scopes, fuel), CheckItems(exprs, ctx).value.0, CheckItems(exprs, ctx).value.1)
    decreases fuel, exprs, 0
  {
    if |exprs| > 0 {
      var front := exprs[..|exprs| - 1];
      ItemsSafe(front, ctx, scopes, fuel);
      var r := EvalItems(front, scopes, fuel);
      if r.Done? { ItemSafe(exprs[|exprs| - 1], CheckItems(front, ctx).value.1, r.state, fuel); }
    }
  }

  lemma {:induction false} ItemSafe(e: A.Expr, ctx: Context, scopes: Scopes, fuel: nat)
    requires CheckItem(e, ctx).Some? && Conforms(ctx, scopes)
    ensures Safe(Eval(e, scopes, fuel), CheckItem(e, ctx).value.0, CheckItem(e, ctx).value.1)
    decreases fuel, e, 2
  {
    if e.Variable? {
      ExprSafe(e.value, ctx, scopes, fuel);
    } else {
      ExprSafe(e, ctx, scopes, fuel);
    }
  }
}
