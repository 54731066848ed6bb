/**
 When the compiler reads a slot through a reference into a vector that has moved. The condition is
 one on the source: counted in declarations, no name is used after the vector has moved since the
 name was declared.
 */
module References {
  import opened Wrappers
  import T = Tokens
  import A = Ast
  import Values
  import Ir
  import S = AstSemantics
  import opened TypeSafety
  import opened ExprCompiler
  import opened Storage

  lemma {:induction false} CheckedSupported(e: A.Expr, ctx: S.Context)
    requires S.Check(e, ctx).Some?
    ensures Supported(e)
    decreases e, 1
  {
    match e
    case Lit(_) =>
    case Ident(_) =>
    case Block(exprs) => ItemsSupported(exprs, ctx + [map[]]);
    case If(cond, thn, els) =>
      CheckedSupported(cond, ctx);
      CheckedSupported(thn, ctx);
      if els.Some? { CheckedSupported(els.value, ctx); }
    case While(cond, body) =>
      CheckedSupported(cond, ctx);
      CheckedSupported(body, ctx);
    case Binary(left, _, right) =>
      CheckedSupported(left, ctx);
      CheckedSupported(right, ctx);
  }

  lemma {:induction false} ItemsSupported(exprs: seq<A.Expr>, ctx: S.Context)
    requires S.CheckItems(exprs, ctx).Some?
    ensures forall i :: 0 <= i < |exprs| ==> Supported(exprs[i])
    decreases exprs, 0
  {
    if |exprs| > 0 {
      var front, last := exprs[..|exprs| - 1], exprs[|exprs| - 1];
      ItemsSupported(front, ctx);
      var c := S.CheckItems(front, ctx).value.1;
      if last.Variable? { CheckedSupported(last.value, c); } else { CheckedSupported(last, c); }
      forall i | 0 <= i < |exprs| ensures Supported(exprs[i]) {
        if i < |exprs| - 1 { assert front[i] == exprs[i]; }
      }
    }
  }

  /** The compiled body of a parameterless function. */
  function CompileBody(body: A.Expr): Compiled
    requires Supported(body)
  {
    Compile(body, [map[]], [])
  }

  // ----- counting declarations

  /** The number of declarations in `e`. */
  function Decls(e: A.Expr): nat
    decreases e, 1
  {
    match e
    case Variable(_, _, value) => Decls(value) + 1
    case Block(exprs) => ItemDecls(exprs)
    case If(cond, thn, els) => Decls(cond) + Decls(thn) + (if els.Some? then Decls(els.value) else 0)
    case While(cond, body) => Decls(cond) + Decls(body)
    case Binary(left, _, right) => Decls(left) + Decls(right)
    case _ => 0
  }

  function ItemDecls(exprs: seq<A.Expr>): nat
    decreases exprs, 0
  {
    if |exprs| == 0 then 0 else ItemDecls(exprs[..|exprs| - 1]) + Decls(exprs[|exprs| - 1])
  }

  /** For every visible name, how many declarations came before its own. */
  type Names = seq<map<string, nat>>

  /**
   With `n` declarations made, every name in `e` is used before the vector has moved since the name
   was declared.
   */
  predicate NamesFresh(e: A.Expr, names: Names, n: nat)
    decreases e, 1
  {
    match e
    case Ident(name) =>
      var level := S.Innermost(names, name);
      level.Some? ==> Unmoved(names[level.value][name], n)
    case Variable(_, _, value) => NamesFresh(value, names, n)
    case Block(exprs) => ItemsFresh(exprs, names + [map[]], n)
    case If(cond, thn, els) =>
      && NamesFresh(cond, names, n) && NamesFresh(thn, names, n + Decls(cond))
      && (els.Some? ==> NamesFresh(els.value, names, n + Decls(cond) + Decls(thn)))
    case While(cond, body) => NamesFresh(cond, names, n) && NamesFresh(body, names, n + Decls(cond))
    case Binary(left, _, right) => NamesFresh(left, names, n) && NamesFresh(right, names, n + Decls(left))
    case _ => true
  }

  predicate ItemsFresh(exprs: seq<A.Expr>, names: Names, n: nat)
    decreases exprs, 0
  {
    |exprs| > 0 ==>
      var front, last := exprs[..|exprs| - 1], exprs[|exprs| - 1];
      ItemsFresh(front, names, n) && NamesFresh(last, ItemNames(front, names, n), n + ItemDecls(front))
  }

  /** The visible names after the elements of a block. */
  function ItemNames(exprs: seq<A.Expr>, names: Names, n: nat): (r: Names)
    ensures |r| == |names|
    decreases exprs, 0
  {
    if |exprs| == 0 then names
    else
      var front, last := exprs[..|exprs| - 1], exprs[|exprs| - 1];
      var before := ItemNames(front, names, n);
      if last.Variable? && |names| > 0
      then S.Declare(before, last.name, n + ItemDecls(front) + Decls(last.value))
      else before
  }

  /** The references of a whole body hold. */
  predicate ReferencesHold(body: A.Expr) {
    NamesFresh(body, [map[]], 0)
  }

  // ----- the compiler reads stale references exactly then

  /** The environments refer to the declarations that `names` counts, all of them made by now. */
  ghost predicate Anchored(envs: Environments, names: Names, n: nat) {
    && SameNames(envs, names)
    && forall k, x :: 0 <= k < |envs| && x in envs[k] ==>
         names[k][x] < n && envs[k][x] == Reference(names[k][x], Capacity(names[k][x] + 1))
  }

  lemma AnchoredMore(envs: Environments, names: Names, n: nat, m: nat)
    requires Anchored(envs, names, n) && n <= m
    ensures Anchored(envs, names, m)
  {
  }

  lemma AnchoredOpen(envs: Environments, names: Names, n: nat)
    requires Anchored(envs, names, n)
    ensures Anchored(envs + [map[]], names + [map[]], n)
  {
  }

  lemma AnchoredDeclare(envs: Environments, names: Names, n: nat, name: string)
    requires Anchored(envs, names, n) && |envs| > 0
    ensures |names| > 0
    ensures Anchored(S.Declare(envs, name, Reference(n, Capacity(n + 1))), S.Declare(names, name, n), n + 1)
  {
  }

  /** What a call of the compiler does to the scopes, the number of slots and the flag. */
  ghost predicate Counted(c: Compiled, e: A.Expr, envs: Environments, names: Names, n: nat) {
    c.envs == envs && |c.locals| == n + Decls(e) && c.valid == NamesFresh(e, names, n)
  }

  lemma {:induction false} CompileCounted(
    e: A.Expr, ctx: S.Context, envs: Environments, locals: seq<Ir.VarStore>, names: Names)
    requires S.Check(e, ctx).Some? && Supported(e) && |envs| > 0 && Anchored(envs, names, |locals|)
    ensures Counted(Compile(e, envs, locals), e, envs, names, |locals|)
    decreases e, 1
  {
    hide Anchored, LookupValid, Lookup;
    match e
    case Lit(_) =>
    case Ident(name) => LookupCounted(name, envs, locals, names);
    case Block(exprs) => BlockCounted(exprs, ctx, envs, locals, names);
    case If(_, _, _) => IfCounted(e, ctx, envs, locals, names);
    case While(_, _) => WhileCounted(e, ctx, envs, locals, names);
    case Binary(_, _, _) => BinaryCounted(e, ctx, envs, locals, names);
  }

  lemma {:induction false} WhileCounted(
    e: A.Expr, ctx: S.Context, envs: Environments, locals: seq<Ir.VarStore>, names: Names)
    requires e.While? && S.Check(e, ctx).Some? && Supported(e) && |envs| > 0 && Anchored(envs, names, |locals|)
    ensures Counted(Compile(e, envs, locals), e, envs, names, |locals|)
    decreases e, 0
  {
    hide Anchored, MakeBinary;
    CompileCounted(e.cond, ctx, envs, locals, names);
    var c := Compile(e.cond, envs, locals);
    AnchoredMore(envs, names, |locals|, |c.locals|);
    CompileCounted(e.body, ctx, envs, c.locals, names);
  }

  lemma BinaryChecked(e: A.Expr, ctx: S.Context)
    requires e.Binary? && S.Check(e, ctx).Some?
    ensures S.Check(e.left, ctx).Some? && S.Check(e.right, ctx).Some?
  {
  }

  lemma BinaryParts(e: A.Expr, envs: Environments, locals: seq<Ir.VarStore>)
    requires e.Binary? && Supported(e) && |envs| > 0
    ensures Supported(e.left) && Supported(e.right)
    ensures var c, l := Compile(e, envs, locals), Compile(e.left, envs, locals);
      var r := Compile(e.right, l.envs, l.locals);
      c == Compiled(MakeBinary(l.ir, e.op, r.ir), r.envs, r.locals, l.valid && r.valid)
  {
    hide MakeBinary;
  }

  lemma BinaryFresh(e: A.Expr, names: Names, n: nat)
    requires e.Binary?
    ensures Decls(e) == Decls(e.left) + Decls(e.right)
    ensures NamesFresh(e, names, n) == (NamesFresh(e.left, names, n) && NamesFresh(e.right, names, n + Decls(e.left)))
  {
  }

  lemma {:induction false} BinaryCounted(
    e: A.Expr, ctx: S.Context, envs: Environments, locals: seq<Ir.VarStore>, names: Names)
    requires e.Binary? && S.Check(e, ctx).Some? && Supported(e) && |envs| > 0 && Anchored(envs, names, |locals|)
    ensures Counted(Compile(e, envs, locals), e, envs, names, |locals|)
    decreases e, 0
  {
    hide Anchored, Compile, S.Check, NamesFresh, Decls, Supported;
    BinaryChecked(e, ctx);
    BinaryParts(e, envs, locals);
    BinaryFresh(e, names, |locals|);
    CompileCounted(e.left, ctx, envs, locals, names);
    var c := Compile(e.left, envs, locals);
    AnchoredMore(envs, names, |locals|, |c.locals|);
    CompileCounted(e.right, ctx, envs, c.locals, names);
  }

  lemma LookupCounted(name: string, envs: Environments, locals: seq<Ir.VarStore>, names: Names)
    requires Anchored(envs, names, |locals|)
    ensures LookupValid(envs, locals, name) == NamesFresh(A.Ident(name), names, |locals|)
  {
    InnermostSame(envs, names, name);
  }

  lemma IfChecked(e: A.Expr, ctx: S.Context)
    requires e.If? && S.Check(e, ctx).Some?
    ensures S.Check(e.cond, ctx).Some? && S.Check(e.thn, ctx).Some?
    ensures e.els.Some? ==> S.Check(e.els.value, ctx).Some?
  {
  }

  lemma IfParts(e: A.Expr, envs: Environments, locals: seq<Ir.VarStore>)
    requires e.If? && Supported(e) && |envs| > 0
    ensures Supported(e.cond) && Supported(e.thn) && (e.els.Some? ==> Supported(e.els.value))
    ensures var i, c := Compile(e, envs, locals), Compile(e.cond, envs, locals);
      var t := Compile(e.thn, c.envs, c.locals);
      if e.els.None? then i.envs == t.envs && i.locals == t.locals && i.valid == (c.valid && t.valid)
      else
        var f := Compile(e.els.value, t.envs, t.locals);
        i.envs == f.envs && i.locals == f.locals && i.valid == (c.valid && t.valid && f.valid)
  {
    hide Ir.MakeIf;
  }

  lemma IfFresh(e: A.Expr, names: Names, n: nat)
    requires e.If?
    ensures Decls(e) == Decls(e.cond) + Decls(e.thn) + if e.els.Some? then Decls(e.els.value) else 0
    ensures NamesFresh(e, names, n)
      == (&& NamesFresh(e.cond, names, n) && NamesFresh(e.thn, names, n + Decls(e.cond))
          && (e.els.Some? ==> NamesFresh(e.els.value, names, n + Decls(e.cond) + Decls(e.thn))))
  {
  }

  lemma {:induction false} IfCounted(
    e: A.Expr, ctx: S.Context, envs: Environments, locals: seq<Ir.VarStore>, names: Names)
    requires e.If? && S.Check(e, ctx).Some? && Supported(e) && |envs| > 0 && Anchored(envs, names, |locals|)
    ensures Counted(Compile(e, envs, locals), e, envs, names, |locals|)
    decreases e, 0
  {
    hide Anchored, Compile, S.Check, NamesFresh, Decls, Supported;
    IfChecked(e, ctx);
    IfParts(e, envs, locals);
    IfFresh(e, names, |locals|);
    CompileCounted(e.cond, ctx, envs, locals, names);
    var c := Compile(e.cond, envs, locals);
    AnchoredMore(envs, names, |locals|, |c.locals|);
    CompileCounted(e.thn, ctx, envs, c.locals, names);
    var t := Compile(e.thn, envs, c.locals);
    AnchoredMore(envs, names, |c.locals|, |t.locals|);
    if e.els.Some? { CompileCounted(e.els.value, ctx, envs, t.locals, names); }
  }

  lemma {:induction false} BlockCounted(
    exprs: seq<A.Expr>, ctx: S.Context, envs: Environments, locals: seq<Ir.VarStore>, names: Names)
    requires S.CheckItems(exprs, ctx + [map[]]).Some? && forall i :: 0 <= i < |exprs| ==> Supported(exprs[i])
    requires |envs| > 0 && Anchored(envs, names, |locals|)
    ensures Counted(Compile(A.Block(exprs), envs, locals), A.Block(exprs), envs, names, |locals|)
    decreases exprs, 1
  {
    hide Anchored;
    AnchoredOpen(envs, names, |locals|);
    ItemsCounted(exprs, ctx + [map[]], envs + [map[]], locals, names + [map[]]);
    var b := CompileItems(exprs, envs + [map[]], locals);
    assert b.envs[..|envs|] == (envs + [map[]])[..|envs|] == envs;
  }

  lemma {:induction false} ItemsCounted(
    exprs: seq<A.Expr>, ctx: S.Context, envs: Environments, locals: seq<Ir.VarStore>, names: Names)
    requires S.CheckItems(exprs, ctx).Some? && forall i :: 0 <= i < |exprs| ==> Supported(exprs[i])
    requires |envs| > 0 && Anchored(envs, names, |locals|)
    ensures var c := CompileItems(exprs, envs, locals);
      && |c.locals| == |locals| + ItemDecls(exprs) && c.valid == ItemsFresh(exprs, names, |locals|)
      && |c.envs| == |envs| && c.envs[..|envs| - 1] == envs[..|envs| - 1]
      && Anchored(c.envs, ItemNames(exprs, names, |locals|), |c.locals|)
    decreases exprs, 0
  {
    hide Anchored, Compile, NamesFresh, Decls, Supported, S.Check;
    if |exprs| > 0 {
      var front, last := exprs[..|exprs| - 1], exprs[|exprs| - 1];
      ItemsCounted(front, ctx, envs, locals, names);
      var f := CompileItems(front, envs, locals);
      var before := ItemNames(front, names, |locals|);
      ItemCounted(last, S.CheckItems(front, ctx).value.1, f.envs, f.locals, before);
      AnchoredSize(f.envs, before, |f.locals|);
    }
  }

  lemma AnchoredSize(envs: Environments, names: Names, n: nat)
    requires Anchored(envs, names, n)
    ensures |envs| == |names|
  {
  }

  lemma {:induction false} ItemCounted(
    e: A.Expr, ctx: S.Context, envs: Environments, locals: seq<Ir.VarStore>, names: Names)
    requires S.CheckItem(e, ctx).Some? && Supported(e) && |envs| > 0 && Anchored(envs, names, |locals|)
    ensures var c := Compile(e, envs, locals);
      && |c.locals| == |locals| + Decls(e) && c.valid == NamesFresh(e, names, |locals|)
      && |c.envs| == |envs| == |names| && c.envs[..|envs| - 1] == envs[..|envs| - 1]
      && var after := if e.Variable? then S.Declare(names, e.name, |locals| + Decls(e.value)) else names;
         Anchored(c.envs, after, |c.locals|)
    decreases e, 2
  {
    hide Anchored;
    AnchoredSize(envs, names, |locals|);
    if e.Variable? {
      CompileCounted(e.value, ctx, envs, locals, names);
      var v := Compile(e.value, envs, locals);
      AnchoredMore(envs, names, |locals|, |v.locals|);
      AnchoredDeclare(envs, names, |v.locals|, e.name);
    } else {
      CompileCounted(e, ctx, envs, locals, names);
      AnchoredMore(envs, names, |locals|, |Compile(e, envs, locals).locals|);
    }
  }

  /** The compiler reads no stale reference exactly when the references of the body hold. */
  lemma ReferencesExact(body: A.Expr)
    requires S.Check(body, [map[]]).Some?
    ensures Supported(body) && (CompileBody(body).valid <==> ReferencesHold(body))
    ensures |CompileBody(body).locals| == Decls(body)
  {
    CheckedSupported(body, [map[]]);
    assert Anchored([map[]], [map[]], 0);
    CompileCounted(body, [map[]], [map[]], [], [map[]]);
  }

  // ----- few declarations

  ghost predicate Below(names: Names, n: nat) {
    forall k, x :: 0 <= k < |names| && x in names[k] ==> names[k][x] < n
  }

  lemma {:induction false} FewFresh(e: A.Expr, names: Names, n: nat)
    requires n + Decls(e) <= INLINE && Below(names, n)
    ensures NamesFresh(e, names, n)
    decreases e, 1
  {
    match e
    case Block(exprs) => FewItems(exprs, names + [map[]], n);
    case Variable(_, _, value) => FewFresh(value, names, n);
    case If(cond, thn, els) =>
      FewFresh(cond, names, n);
      FewFresh(thn, names, n + Decls(cond));
      if els.Some? { FewFresh(els.value, names, n + Decls(cond) + Decls(thn)); }
    case While(cond, body) =>
      FewFresh(cond, names, n);
      FewFresh(body, names, n + Decls(cond));
    case Binary(left, _, right) =>
      FewFresh(left, names, n);
      FewFresh(right, names, n + Decls(left));
    case _ =>
  }

  lemma {:induction false} FewItems(exprs: seq<A.Expr>, names: Names, n: nat)
    requires n + ItemDecls(exprs) <= INLINE && Below(names, n)
    ensures ItemsFresh(exprs, names, n) && Below(ItemNames(exprs, names, n), n + ItemDecls(exprs))
    decreases exprs, 0
  {
    if |exprs| > 0 {
      var front, last := exprs[..|exprs| - 1], exprs[|exprs| - 1];
      FewItems(front, names, n);
      FewFresh(last, ItemNames(front, names, n), n + ItemDecls(front));
    }
  }

  /** The references of a body with at most six declarations hold. */
  lemma FewHold(body: A.Expr)
    requires Decls(body) <= INLINE
    ensures ReferencesHold(body)
  {
    FewFresh(body, [map[]], 0);
  }

  // ----- one declaration too many

  /** `var x = 0`, and from then on `var y = 0` again and again: `k` declarations. */
  function Declarations(k: nat): (r: seq<A.Expr>)
    ensures |r| == k
  {
    if k == 0 then []
    else Declarations(k - 1) + [A.Variable(false, if k == 1 then "x" else "y", A.Lit(A.Int(0)))]
  }

  /** The declarations, and then a use of `x`. */
  function UseFirst(k: nat): A.Expr {
    A.Block(Declarations(k) + [A.Ident("x")])
  }

  const INNER: Names := [map[], map[]]

  lemma {:induction false} DeclarationsCount(k: nat)
    ensures ItemDecls(Declarations(k)) == k && ItemsFresh(Declarations(k), INNER, 0)
    ensures var names := ItemNames(Declarations(k), INNER, 0);
      && |names| == 2 && (k > 0 ==> "x" in names[1] && names[1]["x"] == 0)
  {
    hide ItemDecls, ItemsFresh, ItemNames;
    if k > 0 {
      DeclarationsCount(k - 1);
      PlainDeclare(Declarations(k - 1), if k == 1 then "x" else "y", INNER, 0);
    } else {
      NoItems(INNER, 0);
    }
  }

  lemma NoItems(names: Names, n: nat)
    ensures ItemDecls([]) == 0 && ItemsFresh([], names, n) && ItemNames([], names, n) == names
  {
  }

  /** A declaration of a literal counts one more, uses nothing and is visible from then on. */
  lemma PlainDeclare(front: seq<A.Expr>, name: string, names: Names, n: nat)
    requires |names| > 0
    ensures var items := front + [A.Variable(false, name, A.Lit(A.Int(0)))];
      && ItemDecls(items) == ItemDecls(front) + 1
      && ItemsFresh(items, names, n) == ItemsFresh(front, names, n)
      && ItemNames(items, names, n) == S.Declare(ItemNames(front, names, n), name, n + ItemDecls(front))
  {
    var items := front + [A.Variable(false, name, A.Lit(A.Int(0)))];
    assert items[..|items| - 1] == front;
    assert Decls(A.Lit(A.Int(0))) == 0;
    assert NamesFresh(A.Lit(A.Int(0)), ItemNames(front, names, n), n + ItemDecls(front));
  }

  lemma {:induction false} DeclarationsCheck(k: nat, ctx: S.Context)
    requires |ctx| > 0
    ensures var r := S.CheckItems(Declarations(k), ctx);
      && r.Some? && |r.value.1| == |ctx|
      && (k > 0 ==> "x" in r.value.1[|ctx| - 1] && r.value.1[|ctx| - 1]["x"] == Ir.IntType)
  {
    hide S.CheckItem, S.Check, S.Declare;
    if k > 0 {
      DeclarationsCheck(k - 1, ctx);
      var items := Declarations(k);
      assert items[..|items| - 1] == Declarations(k - 1);
      var front, name := S.CheckItems(Declarations(k - 1), ctx).value.1, if k == 1 then "x" else "y";
      DeclareChecks(name, front);
      DeclareKeeps(name, front);
    }
  }

  lemma DeclareKeeps(name: string, ctx: S.Context)
    requires |ctx| > 0
    ensures var last, d := ctx[|ctx| - 1], S.Declare(ctx, name, Ir.IntType);
      && |d| == |ctx|
      && (name == "x" || ("x" in last && last["x"] == Ir.IntType) ==>
            "x" in d[|ctx| - 1] && d[|ctx| - 1]["x"] == Ir.IntType)
  {
  }

  lemma DeclareChecks(name: string, ctx: S.Context)
    requires |ctx| > 0
    ensures S.CheckItem(A.Variable(false, name, A.Lit(A.Int(0))), ctx)
      == Some((Ir.IntType, S.Declare(ctx, name, Ir.IntType)))
  {
    assert S.Check(A.Lit(A.Int(0)), ctx) == Some(Ir.IntType);
  }

  /** The body is well-typed for every number of declarations, and its references hold for up to six. */
  lemma UseFirstExact(k: nat)
    requires k > 0
    ensures S.Check(UseFirst(k), [map[]]) == Some(Ir.IntType)
    ensures ReferencesHold(UseFirst(k)) <==> k <= INLINE
  {
    hide Unmoved, Declarations;
    var items := Declarations(k) + [A.Ident("x")];
    assert items[..|items| - 1] == Declarations(k);
    DeclarationsCount(k);
    var outer: S.Context := [map[]];
    DeclarationsCheck(k, outer + [map[]]);
    var names := ItemNames(Declarations(k), INNER, 0);
    var ctx := S.CheckItems(Declarations(k), outer + [map[]]).value.1;
    assert S.Innermost(names, "x") == Some(1) && S.Innermost(ctx, "x") == Some(1);
    assert S.CheckItems(items, outer + [map[]]) == Some((Ir.IntType, ctx));
    var none: Names := [map[]];
    assert none + [map[]] == INNER;
    assert ItemsFresh(items, INNER, 0) == Unmoved(0, k);
    UnmovedExact(0, k);
  }
}
