/**
 Name resolution preserves meaning: evaluating a well-typed body over a stack of scopes and
 evaluating the compiled tree over flat slots give the same result, step for step in fuel.
 */
module Resolution {
  import opened Wrappers
  import opened Values
  import T = Tokens
  import A = Ast
  import Ir
  import S = AstSemantics
  import opened TypeSafety
  import opened ExprCompiler
  import opened Storage
  import opened References

  // ----- what the compiler knows about names

  /** The environments point at declared slots of the checked types. */
  ghost predicate Describes(envs: Environments, ctx: S.Context, locals: seq<Ir.VarStore>) {
    && SameNames(envs, ctx)
    && forall k, x :: 0 <= k < |envs| && x in envs[k] ==>
         envs[k][x].index < |locals| && locals[envs[k][x].index].ty == ctx[k][x]
  }

  /** No two visible names share a slot. */
  ghost predicate Separate(envs: Environments) {
    forall k, x, j, y :: 0 <= k < |envs| && x in envs[k] && 0 <= j < |envs| && y in envs[j] && (k != j || x != y) ==>
      envs[k][x].index != envs[j][y].index
  }

  ghost predicate Scalars(locals: seq<Ir.VarStore>) {
    forall i :: 0 <= i < |locals| ==> Ir.IsScalar(locals[i].ty)
  }

  /** Slots carry their own position as index. */
  ghost predicate Numbered(locals: seq<Ir.VarStore>) {
    forall i :: 0 <= i < |locals| ==> locals[i].index == i
  }

  ghost predicate Consistent(envs: Environments, ctx: S.Context, locals: seq<Ir.VarStore>)
    ensures Consistent(envs, ctx, locals) ==> |envs| == |ctx| > 0
  {
    && |envs| > 0
    && Describes(envs, ctx, locals)
    && Separate(envs)
    && Scalars(locals)
    && Numbered(locals)
  }

  lemma {:induction false} WellTypedMore(e: Ir.Expr, locals: seq<Ir.VarStore>, more: seq<Ir.VarStore>)
    requires Ir.WellTyped(e, locals) && locals <= more
    ensures Ir.WellTyped(e, more)
  {
    match e
    case Constant(_) =>
    case Variable(_, _) =>
    case Binary(left, _, right) => WellTypedMore(left, locals, more); WellTypedMore(right, locals, more);
    case Block(exprs) =>
      forall i | 0 <= i < |exprs| ensures Ir.WellTyped(exprs[i], more) { WellTypedMore(exprs[i], locals, more); }
    case If(cond, thn, els, _) =>
      WellTypedMore(cond, locals, more);
      WellTypedMore(thn, locals, more);
      WellTypedMore(els, locals, more);
    case While(cond, body) => WellTypedMore(cond, locals, more); WellTypedMore(body, locals, more);
    case Assign(store, value) => WellTypedMore(store, locals, more); WellTypedMore(value, locals, more);
  }

  /** What compiling a checked expression produces. */
  ghost predicate Typed(c: Compiled, t: Ir.Type, envs: Environments, ctx: S.Context) {
    && c.envs == envs
    && Consistent(envs, ctx, c.locals)
    && Ir.Typ(c.ir) == t
    && Ir.WellTyped(c.ir, c.locals)
  }

  lemma ConsistentMore(envs: Environments, ctx: S.Context, locals: seq<Ir.VarStore>, more: seq<Ir.VarStore>)
    requires Consistent(envs, ctx, locals) && locals <= more && Scalars(more) && Numbered(more)
    ensures Consistent(envs, ctx, more)
  {
  }

  lemma OpenConsistent(envs: Environments, ctx: S.Context, locals: seq<Ir.VarStore>)
    requires Consistent(envs, ctx, locals)
    ensures Consistent(envs + [map[]], ctx + [map[]], locals)
  {
  }

  /** A checked expression compiles to a well-typed tree of the same type and leaves the scopes as they were. */
  lemma {:induction false} CompileTyped(e: A.Expr, ctx: S.Context, envs: Environments, locals: seq<Ir.VarStore>)
    requires S.Check(e, ctx).Some? && Consistent(envs, ctx, locals)
    requires Supported(e) && Compile(e, envs, locals).valid
    ensures Typed(Compile(e, envs, locals), S.Check(e, ctx).value, envs, ctx)
    decreases e, 1
  {
    hide Consistent;
    match e
    case Lit(_) =>
    case Ident(name) => NameTyped(name, ctx, envs, locals);
    case Block(exprs) => CompileTypedBlock(e, ctx, envs, locals);
    case If(_, _, _) => CompileTypedIf(e, ctx, envs, locals);
    case While(cond, body) =>
      CompileTyped(cond, ctx, envs, locals);
      var c := Compile(cond, envs, locals);
      CompileTyped(body, ctx, envs, c.locals);
      WellTypedMore(c.ir, c.locals, Compile(body, envs, c.locals).locals);
    case Binary(left, op, right) =>
      CompileTyped(left, ctx, envs, locals);
      var l := Compile(left, envs, locals);
      CompileTyped(right, ctx, envs, l.locals);
      WellTypedMore(l.ir, l.locals, Compile(right, envs, l.locals).locals);
      if op == T.Equal { NameTyped(left.name, ctx, envs, locals); }
      else { BinaryTyped(l.ir, op, Compile(right, envs, l.locals).ir); }
  }

  lemma BinaryTyped(l: Ir.Expr, op: T.TKind, r: Ir.Expr)
    requires IsArithmetic(op) || IsComparison(op)
    ensures MakeBinary(l, op, r) == Ir.Binary(l, op, r)
    ensures Ir.Typ(MakeBinary(l, op, r)) == if IsArithmetic(op) then Ir.Typ(l) else Ir.BoolType
  {
  }

  lemma NameTyped(name: string, ctx: S.Context, envs: Environments, locals: seq<Ir.VarStore>)
    requires Consistent(envs, ctx, locals) && S.Innermost(ctx, name).Some? && LookupValid(envs, locals, name)
    ensures S.Innermost(envs, name) == S.Innermost(ctx, name)
    ensures var k := S.Innermost(ctx, name).value;
      Lookup(envs, locals, name) == Ir.Variable(envs[k][name].index, ctx[k][name])
    ensures Ir.WellTyped(Lookup(envs, locals, name), locals)
    ensures Ir.IsScalar(ctx[S.Innermost(ctx, name).value][name])
  {
    InnermostSame(envs, ctx, name);
    var k := S.Innermost(ctx, name).value;
    assert name in envs[k];
  }

  lemma {:induction false} CompileTypedIf(e: A.Expr, ctx: S.Context, envs: Environments, locals: seq<Ir.VarStore>)
    requires e.If? && Supported(e) && S.Check(e, ctx).Some? && Consistent(envs, ctx, locals)
    requires Compile(e, envs, locals).valid
    ensures Typed(Compile(e, envs, locals), S.Check(e, ctx).value, envs, ctx)
    decreases e, 0
  {
    hide Consistent;
    CompileTyped(e.cond, ctx, envs, locals);
    var c := Compile(e.cond, envs, locals);
    CompileTyped(e.thn, ctx, envs, c.locals);
    var t := Compile(e.thn, envs, c.locals);
    WellTypedMore(c.ir, c.locals, t.locals);
    if e.els.Some? {
      CompileTyped(e.els.value, ctx, envs, t.locals);
      var f := Compile(e.els.value, envs, t.locals);
      WellTypedMore(c.ir, t.locals, f.locals);
      WellTypedMore(t.ir, t.locals, f.locals);
    } else {
      assert Ir.WellTyped(Ir.Constant(Int(0)), t.locals);
      assert Compile(e, envs, locals) == Compiled(Ir.MakeIf(c.ir, t.ir, None), envs, t.locals, true);
    }
  }

  lemma {:induction false} CompileTypedBlock(e: A.Expr, ctx: S.Context, envs: Environments, locals: seq<Ir.VarStore>)
    requires e.Block? && Supported(e) && S.Check(e, ctx).Some? && Consistent(envs, ctx, locals)
    requires Compile(e, envs, locals).valid
    ensures Typed(Compile(e, envs, locals), S.Check(e, ctx).value, envs, ctx)
    decreases e, 0
  {
    hide Describes, Separate;
    OpenConsistent(envs, ctx, locals);
    CompileTypedItems(e.exprs, ctx + [map[]], envs + [map[]], locals);
    var b := CompileItems(e.exprs, envs + [map[]], locals);
    var ctx1 := S.CheckItems(e.exprs, ctx + [map[]]).value.1;
    ItemsKeepOuter(e.exprs, ctx + [map[]]);
    assert b.envs[..|envs|] == (envs + [map[]])[..|envs|] == envs;
    assert ctx1[..|ctx|] == (ctx + [map[]])[..|ctx|] == ctx;
    ConsistentMore(envs, ctx, locals, b.locals);
  }

  /** The statement of `CompileTyped` for the elements of a block, whose declarations stay in scope. */
  ghost predicate TypedItems(c: CompiledItems, r: (Ir.Type, S.Context), envs: Environments) {
    && |c.envs| == |envs| > 0
    && c.envs[..|envs| - 1] == envs[..|envs| - 1]
    && Consistent(c.envs, r.1, c.locals)
    && (r.0 == if |c.irs| == 0 then Ir.Void else Ir.Typ(c.irs[|c.irs| - 1]))
    && forall i :: 0 <= i < |c.irs| ==> Ir.WellTyped(c.irs[i], c.locals)
  }

  lemma {:induction false} CompileTypedItems(exprs: seq<A.Expr>, ctx: S.Context, envs: Environments,
      locals: seq<Ir.VarStore>)
    requires S.CheckItems(exprs, ctx).Some? && Consistent(envs, ctx, locals)
    requires (forall i :: 0 <= i < |exprs| ==> Supported(exprs[i])) && CompileItems(exprs, envs, locals).valid
    ensures TypedItems(CompileItems(exprs, envs, locals), S.CheckItems(exprs, ctx).value, envs)
    decreases exprs, 0
  {
    if |exprs| > 0 {
      var front, last := exprs[..|exprs| - 1], exprs[|exprs| - 1];
      CompileTypedItems(front, ctx, envs, locals);
      var f := CompileItems(front, envs, locals);
      CompileTypedItem(last, S.CheckItems(front, ctx).value.1, f.envs, f.locals);
      var l := Compile(last, f.envs, f.locals);
      var c := CompileItems(exprs, envs, locals);
      forall i | 0 <= i < |c.irs| ensures Ir.WellTyped(c.irs[i], c.locals) {
        if i < |f.irs| { WellTypedMore(f.irs[i], f.locals, l.locals); }
      }
    }
  }

  lemma {:induction false} CompileTypedItem(e: A.Expr, ctx: S.Context, envs: Environments, locals: seq<Ir.VarStore>)
    requires S.CheckItem(e, ctx).Some? && Consistent(envs, ctx, locals)
    requires Supported(e) && Compile(e, envs, locals).valid
    ensures var c := Compile(e, envs, locals); var r := S.CheckItem(e, ctx).value;
      TypedItems(CompiledItems([c.ir], c.envs, c.locals, true), r, envs)
    decreases e, 2
  {
    hide Consistent;
    if e.Variable? {
      CompileTyped(e.value, ctx, envs, locals);
      var v := Compile(e.value, envs, locals);
      var d := Ir.VarStore(Ir.Typ(v.ir), e.name, |v.locals|, !e.final);
      WellTypedMore(v.ir, v.locals, v.locals + [d]);
      DeclareConsistent(envs, ctx, v.locals, d);
      assert Ir.WellTyped(Ir.Local(d), v.locals + [d]);
    } else {
      CompileTyped(e, ctx, envs, locals);
    }
  }

  /** The reference to a slot that was just pushed. */
  function Referring(v: Ir.VarStore): Reference {
    Reference(v.index, Capacity(v.index + 1))
  }

  lemma DeclareDescribes(envs: Environments, ctx: S.Context, locals: seq<Ir.VarStore>, v: Ir.VarStore)
    requires |envs| > 0 && Describes(envs, ctx, locals) && v.index == |locals|
    ensures Describes(S.Declare(envs, v.name, Referring(v)), S.Declare(ctx, v.name, v.ty), locals + [v])
  {
  }

  lemma DeclareSeparate(envs: Environments, ctx: S.Context, locals: seq<Ir.VarStore>, v: Ir.VarStore)
    requires |envs| > 0 && Describes(envs, ctx, locals) && Separate(envs) && v.index == |locals|
    ensures Separate(S.Declare(envs, v.name, Referring(v)))
  {
  }

  /** A declaration takes a slot that no visible name uses. */
  lemma DeclareConsistent(envs: Environments, ctx: S.Context, locals: seq<Ir.VarStore>, v: Ir.VarStore)
    requires Consistent(envs, ctx, locals) && v.index == |locals| && Ir.IsScalar(v.ty)
    ensures Consistent(S.Declare(envs, v.name, Referring(v)), S.Declare(ctx, v.name, v.ty), locals + [v])
  {
    hide Describes, Separate;
    DeclareDescribes(envs, ctx, locals, v);
    DeclareSeparate(envs, ctx, locals, v);
  }

  // ----- the two stores

  /** Every visible name holds the value of its slot. */
  ghost predicate Represents(envs: Environments, scopes: S.Scopes, s: Ir.Slots) {
    && SameNames(envs, scopes)
    && forall k, x :: 0 <= k < |envs| && x in envs[k] ==>
         envs[k][x].index in s && s[envs[k][x].index] == scopes[k][x]
  }

  /** The two evaluations end alike; the value of a `Void` expression is of no interest. */
  ghost predicate Matches(t: Ir.Type, envs: Environments, a: Result<S.Scopes>, r: Result<Ir.Slots>) {
    match a
    case Done(v, scopes) => r.Done? && Represents(envs, scopes, r.state) && (t != Ir.Void ==> r.v == v)
    case Trapped => r.Trapped?
    case OutOfFuel => r.OutOfFuel?
    case Wrong => true
  }

  /** A name resolves to the same level at compile time, at check time and at run time. */
  lemma ResolvesAlike(envs: Environments, ctx: S.Context, locals: seq<Ir.VarStore>, scopes: S.Scopes, s: Ir.Slots,
      name: string)
    requires Consistent(envs, ctx, locals) && Represents(envs, scopes, s)
    ensures S.Innermost(envs, name) == S.Innermost(ctx, name) == S.Innermost(scopes, name)
    ensures |envs| == |scopes| == |ctx|
    ensures var k := S.Innermost(envs, name);
      k.Some? ==> var v := envs[k.value][name];
        && v.index < |locals| && locals[v.index].ty == ctx[k.value][name]
        && v.index in s && s[v.index] == scopes[k.value][name]
  {
    InnermostSame(envs, ctx, name);
    InnermostSame(envs, scopes, name);
  }

  lemma AssignRepresents(
    envs: Environments, ctx: S.Context, locals: seq<Ir.VarStore>, scopes: S.Scopes, s: Ir.Slots, k: nat, x: string,
    v: Val)
    requires Consistent(envs, ctx, locals) && Represents(envs, scopes, s)
    requires k < |envs| == |scopes| && x in envs[k]
    ensures Represents(envs, scopes[k := scopes[k][x := v]], s[envs[k][x].index := v])
  {
    hide Describes, Scalars;
  }

  lemma DeclareRepresents(envs: Environments, ctx: S.Context, locals: seq<Ir.VarStore>, scopes: S.Scopes, s: Ir.Slots,
      d: Ir.VarStore, v: Val)
    requires Represents(envs, scopes, s) && Consistent(envs, ctx, locals) && d.index == |locals|
    ensures Represents(S.Declare(envs, d.name, Referring(d)), S.Declare(scopes, d.name, v), s[d.index := v])
  {
  }

  lemma OpenRepresents(envs: Environments, scopes: S.Scopes, s: Ir.Slots)
    requires Represents(envs, scopes, s)
    ensures Represents(envs + [map[]], scopes + [map[]], s)
  {
  }

  lemma CloseRepresents(envs: Environments, scopes: S.Scopes, s: Ir.Slots)
    requires Represents(envs, scopes, s) && |envs| > 0
    ensures |scopes| == |envs| && Represents(envs[..|envs| - 1], scopes[..|envs| - 1], s)
  {
  }

  /** Name resolution preserves meaning, for every fuel, from any related pair of stores. */
  lemma {:induction false} CompilePreserves(
    e: A.Expr, ctx: S.Context, envs: Environments, locals: seq<Ir.VarStore>, scopes: S.Scopes, s: Ir.Slots, fuel: nat)
    requires S.Check(e, ctx).Some? && Consistent(envs, ctx, locals) && Supported(e)
    requires Compile(e, envs, locals).valid && Represents(envs, scopes, s)
    ensures Matches(S.Check(e, ctx).value, envs, S.Eval(e, scopes, fuel), Ir.Eval(Compile(e, envs, locals).ir, s, fuel))
    decreases fuel, e, 1
  {
    hide Consistent, Represents;
    match e
    case Lit(_) =>
    case Ident(name) =>
      ResolvesAlike(envs, ctx, locals, scopes, s, name);
      NameTyped(name, ctx, envs, locals);
    case Block(_) => BlockPreserves(e, ctx, envs, locals, scopes, s, fuel);
    case If(_, _, None) => IfPreserves(e, ctx, envs, locals, scopes, s, fuel);
    case If(_, _, Some(_)) => IfElsePreserves(e, ctx, envs, locals, scopes, s, fuel);
    case While(_, _) => WhilePreserves(e, ctx, envs, locals, scopes, s, fuel);
    case Binary(left, op, right) =>
      if op == T.Equal { AssignPreserves(e, ctx, envs, locals, scopes, s, fuel); }
      else { OperatorPreserves(left, op, right, ctx, envs, locals, scopes, s, fuel); }
  }

  /** Operands of a checked operator are integers, so their values coincide and so do the results. */
  lemma OperandsMatch(envs: Environments, op: T.TKind, a: Result<S.Scopes>, r: Result<Ir.Slots>, l: Val, t: Ir.Type)
    requires Matches(Ir.IntType, envs, a, r) && a.Done?
    ensures Matches(t, envs, Finish(Apply(op, l, a.v), a.state), Finish(Apply(op, l, r.v), r.state))
  {
    hide Represents;
  }

  lemma {:induction false} OperatorPreserves(
    left: A.Expr, op: T.TKind, right: A.Expr,
    ctx: S.Context, envs: Environments, locals: seq<Ir.VarStore>, scopes: S.Scopes, s: Ir.Slots, fuel: nat)
    requires op != T.Equal
    requires S.Check(A.Binary(left, op, right), ctx).Some? && Consistent(envs, ctx, locals)
    requires Supported(A.Binary(left, op, right)) && Compile(A.Binary(left, op, right), envs, locals).valid
    requires Represents(envs, scopes, s)
    ensures Matches(S.Check(A.Binary(left, op, right), ctx).value, envs,
                    S.Eval(A.Binary(left, op, right), scopes, fuel),
                    Ir.Eval(Compile(A.Binary(left, op, right), envs, locals).ir, s, fuel))
    decreases fuel, A.Binary(left, op, right), 0
  {
    hide Consistent, Represents, IsArithmetic, IsComparison, Apply, Finish, MakeBinary, Ir.Typ, Ir.WellTyped, Supported;
    hide Compile;
    BinaryParts(A.Binary(left, op, right), envs, locals);
    var l := Compile(left, envs, locals);
    CompileTyped(left, ctx, envs, locals);
    CompilePreserves(left, ctx, envs, locals, scopes, s, fuel);
    var a, r := S.Eval(left, scopes, fuel), Ir.Eval(l.ir, s, fuel);
    var rc := Compile(right, envs, l.locals).ir;
    BinaryTyped(l.ir, op, rc);
    if a.Done? {
      CompilePreserves(right, ctx, envs, l.locals, a.state, r.state, fuel);
      var a', r' := S.Eval(right, a.state, fuel), Ir.Eval(rc, r.state, fuel);
      if a'.Done? { OperandsMatch(envs, op, a', r', a.v, S.Check(A.Binary(left, op, right), ctx).value); }
    }
  }

  lemma {:induction false} AssignPreserves(
    e: A.Expr, ctx: S.Context, envs: Environments, locals: seq<Ir.VarStore>, scopes: S.Scopes, s: Ir.Slots, fuel: nat)
    requires e.Binary? && e.op == T.Equal
    requires S.Check(e, ctx).Some? && Consistent(envs, ctx, locals) && Supported(e)
    requires Compile(e, envs, locals).valid && Represents(envs, scopes, s)
    ensures Matches(S.Check(e, ctx).value, envs, S.Eval(e, scopes, fuel), Ir.Eval(Compile(e, envs, locals).ir, s, fuel))
    decreases fuel, e, 0
  {
    hide Consistent, Represents;
    var name := e.left.name;
    NameTyped(name, ctx, envs, locals);
    CompileTyped(e.left, ctx, envs, locals);
    CompileTyped(e.right, ctx, envs, locals);
    CompilePreserves(e.right, ctx, envs, locals, scopes, s, fuel);
    var a, r := S.Eval(e.right, scopes, fuel), Ir.Eval(Compile(e.right, envs, locals).ir, s, fuel);
    if a.Done? {
      ResolvesAlike(envs, ctx, locals, a.state, r.state, name);
      var k := S.Innermost(envs, name).value;
      AssignRepresents(envs, ctx, locals, a.state, r.state, k, name, a.v);
    }
  }

  lemma {:induction false} IfPreserves(
    e: A.Expr, ctx: S.Context, envs: Environments, locals: seq<Ir.VarStore>, scopes: S.Scopes, s: Ir.Slots, fuel: nat)
    requires e.If? && e.els.None?
    requires S.Check(e, ctx).Some? && Consistent(envs, ctx, locals) && Supported(e)
    requires Compile(e, envs, locals).valid && Represents(envs, scopes, s)
    ensures Matches(S.Check(e, ctx).value, envs, S.Eval(e, scopes, fuel), Ir.Eval(Compile(e, envs, locals).ir, s, fuel))
    decreases fuel, e, 0
  {
    hide Consistent, Represents;
    CompileTyped(e.cond, ctx, envs, locals);
    CompilePreserves(e.cond, ctx, envs, locals, scopes, s, fuel);
    var c := Compile(e.cond, envs, locals);
    var a, r := S.Eval(e.cond, scopes, fuel), Ir.Eval(c.ir, s, fuel);
    CompileTyped(e.thn, ctx, envs, c.locals);
    if a.Done? && a.v.Bool? && a.v.b {
      CompilePreserves(e.thn, ctx, envs, c.locals, a.state, r.state, fuel);
    }
  }

  lemma {:induction false} IfElsePreserves(
    e: A.Expr, ctx: S.Context, envs: Environments, locals: seq<Ir.VarStore>, scopes: S.Scopes, s: Ir.Slots, fuel: nat)
    requires e.If? && e.els.Some?
    requires S.Check(e, ctx).Some? && Consistent(envs, ctx, locals) && Supported(e)
    requires Compile(e, envs, locals).valid && Represents(envs, scopes, s)
    ensures Matches(S.Check(e, ctx).value, envs, S.Eval(e, scopes, fuel), Ir.Eval(Compile(e, envs, locals).ir, s, fuel))
    decreases fuel, e, 0
  {
    hide Consistent, Represents;
    CompileTyped(e.cond, ctx, envs, locals);
    CompilePreserves(e.cond, ctx, envs, locals, scopes, s, fuel);
    var c := Compile(e.cond, envs, locals);
    var a, r := S.Eval(e.cond, scopes, fuel), Ir.Eval(c.ir, s, fuel);
    CompileTyped(e.thn, ctx, envs, c.locals);
    var t := Compile(e.thn, envs, c.locals);
    CompileTyped(e.els.value, ctx, envs, t.locals);
    if a.Done? && a.v.Bool? {
      if a.v.b {
        CompilePreserves(e.thn, ctx, envs, c.locals, a.state, r.state, fuel);
      } else {
        CompilePreserves(e.els.value, ctx, envs, t.locals, a.state, r.state, fuel);
      }
    }
  }

  lemma {:induction false} WhilePreserves(
    e: A.Expr, ctx: S.Context, envs: Environments, locals: seq<Ir.VarStore>, scopes: S.Scopes, s: Ir.Slots, fuel: nat)
    requires e.While?
    requires S.Check(e, ctx).Some? && Consistent(envs, ctx, locals) && Supported(e)
    requires Compile(e, envs, locals).valid && Represents(envs, scopes, s)
    ensures Matches(S.Check(e, ctx).value, envs, S.Eval(e, scopes, fuel), Ir.Eval(Compile(e, envs, locals).ir, s, fuel))
    decreases fuel, e, 0
  {
    hide Consistent, Represents;
    if fuel > 0 {
      CompileTyped(e.cond, ctx, envs, locals);
      CompilePreserves(e.cond, ctx, envs, locals, scopes, s, fuel);
      var c := Compile(e.cond, envs, locals);
      var a, r := S.Eval(e.cond, scopes, fuel), Ir.Eval(c.ir, s, fuel);
      CompileTyped(e.body, ctx, envs, c.locals);
      if a.Done? && a.v.Bool? && a.v.b {
        CompilePreserves(e.body, ctx, envs, c.locals, a.state, r.state, fuel);
        var a', r' := S.Eval(e.body, a.state, fuel), Ir.Eval(Compile(e.body, envs, c.locals).ir, r.state, fuel);
        if a'.Done? { CompilePreserves(e, ctx, envs, locals, a'.state, r'.state, fuel - 1); }
      }
    }
  }

  lemma {:induction false} BlockPreserves(
    e: A.Expr, ctx: S.Context, envs: Environments, locals: seq<Ir.VarStore>, scopes: S.Scopes, s: Ir.Slots, fuel: nat)
    requires e.Block?
    requires S.Check(e, ctx).Some? && Consistent(envs, ctx, locals) && Supported(e)
    requires Compile(e, envs, locals).valid && Represents(envs, scopes, s)
    ensures Matches(S.Check(e, ctx).value, envs, S.Eval(e, scopes, fuel), Ir.Eval(Compile(e, envs, locals).ir, s, fuel))
    decreases fuel, e, 0
  {
    hide Consistent, Represents;
    var ctx0, envs0, scopes0 := ctx + [map[]], envs + [map[]], scopes + [map[]];
    OpenConsistent(envs, ctx, locals);
    OpenRepresents(envs, scopes, s);
    ItemsPreserve(e.exprs, ctx0, envs0, locals, scopes0, s, fuel);
    CompileTypedItems(e.exprs, ctx0, envs0, locals);
    var b := CompileItems(e.exprs, envs0, locals);
    var a := S.EvalItems(e.exprs, scopes0, fuel);
    if a.Done? {
      assert b.envs[..|envs|] == envs0[..|envs|] == envs;
      CloseRepresents(b.envs, a.state, Ir.EvalBlock(b.irs, s, fuel).state);
    }
  }

  lemma {:induction false} ItemsPreserve(
    exprs: seq<A.Expr>, ctx: S.Context, envs: Environments, locals: seq<Ir.VarStore>, scopes: S.Scopes, s: Ir.Slots,
    fuel: nat)
    requires S.CheckItems(exprs, ctx).Some? && Consistent(envs, ctx, locals)
    requires (forall i :: 0 <= i < |exprs| ==> Supported(exprs[i])) && CompileItems(exprs, envs, locals).valid
    requires Represents(envs, scopes, s)
    ensures var c := CompileItems(exprs, envs, locals);
      Matches(S.CheckItems(exprs, ctx).value.0, c.envs, S.EvalItems(exprs, scopes, fuel), Ir.EvalBlock(c.irs, s, fuel))
    decreases fuel, exprs, 0
  {
    hide Consistent, Represents;
    if |exprs| > 0 {
      var front, last := exprs[..|exprs| - 1], exprs[|exprs| - 1];
      CompileTypedItems(front, ctx, envs, locals);
      ItemsPreserve(front, ctx, envs, locals, scopes, s, fuel);
      var f := CompileItems(front, envs, locals);
      var c := CompileItems(exprs, envs, locals);
      assert c.irs[..|c.irs| - 1] == f.irs;
      var a, r := S.EvalItems(front, scopes, fuel), Ir.EvalBlock(f.irs, s, fuel);
      if a.Done? { ItemPreserves(last, S.CheckItems(front, ctx).value.1, f.envs, f.locals, a.state, r.state, fuel); }
    }
  }

  lemma {:induction false} ItemPreserves(
    e: A.Expr, ctx: S.Context, envs: Environments, locals: seq<Ir.VarStore>, scopes: S.Scopes, s: Ir.Slots, fuel: nat)
    requires S.CheckItem(e, ctx).Some? && Consistent(envs, ctx, locals) && Supported(e)
    requires Compile(e, envs, locals).valid && Represents(envs, scopes, s)
    ensures var c := Compile(e, envs, locals);
      Matches(S.CheckItem(e, ctx).value.0, c.envs, S.Eval(e, scopes, fuel), Ir.Eval(c.ir, s, fuel))
    decreases fuel, e, 2
  {
    hide Consistent, Represents;
    if e.Variable? {
      CompileTyped(e.value, ctx, envs, locals);
      CompilePreserves(e.value, ctx, envs, locals, scopes, s, fuel);
      var v := Compile(e.value, envs, locals);
      var a, r := S.Eval(e.value, scopes, fuel), Ir.Eval(v.ir, s, fuel);
      if a.Done? {
        var d := Compile(e, envs, locals).locals[|v.locals|];
        DeclareRepresents(envs, ctx, v.locals, a.state, r.state, d, a.v);
      }
    } else {
      CompileTyped(e, ctx, envs, locals);
      CompilePreserves(e, ctx, envs, locals, scopes, s, fuel);
    }
  }

  // ----- whole bodies

  lemma BodyConsistent()
    ensures Consistent([map[]], [map[]], [])
  {
  }

  /**
   Meaning of a whole body whose references hold: the compiled tree started on no slots at all ends as
   the source does. In particular it never reads a slot that was not assigned.
   */
  lemma BodyPreserved(body: A.Expr, fuel: nat)
    requires S.Check(body, [map[]]).Some? && ReferencesHold(body)
    ensures Supported(body)
    ensures var t, c := S.Check(body, [map[]]).value, CompileBody(body);
      && Matches(t, [map[]], S.Eval(body, [map[]], fuel), Ir.Eval(c.ir, map[], fuel))
      && S.Eval(body, [map[]], fuel) != Wrong && Ir.Eval(c.ir, map[], fuel) != Wrong
      && Ir.Typ(c.ir) == t && Ir.WellTyped(c.ir, c.locals)
  {
    ReferencesExact(body);
    BodyConsistent();
    CompileTyped(body, [map[]], [map[]], []);
    CompilePreserves(body, [map[]], [map[]], [], [map[]], map[], fuel);
    ExprSafe(body, [map[]], [map[]], fuel);
  }

  /** The slots of a compiled body are scalars, numbered in order of declaration. */
  lemma BodyScalars(body: A.Expr)
    requires S.Check(body, [map[]]).Some? && Supported(body) && ReferencesHold(body)
    ensures Scalars(CompileBody(body).locals)
  {
    ReferencesExact(body);
    BodyConsistent();
    CompileTyped(body, [map[]], [map[]], []);
  }

  lemma {:induction false} CompileNumbered(e: A.Expr, envs: Environments, locals: seq<Ir.VarStore>)
    requires Supported(e) && |envs| > 0 && Numbered(locals)
    ensures Numbered(Compile(e, envs, locals).locals)
    decreases e
  {
    match e
    case Lit(_) =>
    case Ident(_) =>
    case Variable(_, _, value) => CompileNumbered(value, envs, locals);
    case Block(exprs) => ItemsNumbered(exprs, envs + [map[]], locals);
    case If(cond, thn, els) =>
      CompileNumbered(cond, envs, locals);
      var c := Compile(cond, envs, locals);
      CompileNumbered(thn, c.envs, c.locals);
      var t := Compile(thn, c.envs, c.locals);
      if els.Some? { CompileNumbered(els.value, t.envs, t.locals); }
    case While(cond, body) =>
      CompileNumbered(cond, envs, locals);
      var c := Compile(cond, envs, locals);
      CompileNumbered(body, c.envs, c.locals);
    case Binary(left, _, right) =>
      CompileNumbered(left, envs, locals);
      var l := Compile(left, envs, locals);
      CompileNumbered(right, l.envs, l.locals);
  }

  lemma {:induction false} ItemsNumbered(exprs: seq<A.Expr>, envs: Environments, locals: seq<Ir.VarStore>)
    requires |envs| > 0 && (forall i :: 0 <= i < |exprs| ==> Supported(exprs[i])) && Numbered(locals)
    ensures Numbered(CompileItems(exprs, envs, locals).locals)
    decreases exprs
  {
    if |exprs| > 0 {
      var front := exprs[..|exprs| - 1];
      ItemsNumbered(front, envs, locals);
      var f := CompileItems(front, envs, locals);
      CompileNumbered(exprs[|exprs| - 1], f.envs, f.locals);
    }
  }
}
