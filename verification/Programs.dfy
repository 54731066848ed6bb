/**
 What compiled programs answer, for all operands: from source to the values that the machine returns.
 Each family is one of the repository's own test programs with its numbers left open.
 */
module Programs {
  import opened Wrappers
  import opened Values
  import T = Tokens
  import A = Ast
  import S = AstSemantics
  import Ir
  import opened Clif
  import opened LoopPlacement
  import opened References
  import opened CompilerCorrect
  import opened Operators
  import ExprCompiler

  /** The compiled body returns `v` and nothing else. */
  ghost predicate Returns(body: A.Expr, v: Val) {
    ExprCompiler.Supported(body) && forall w :: MachineYields(Program(body), w) <==> w == v
  }

  lemma YieldsOnce(g: Graph, v: Val, w: Val)
    requires MachineYields(g, v) && MachineYields(g, w)
    ensures v == w
  {
    hide Run;
    var m :| Run(g, START, m).Returned? && Run(g, START, m).vals == [v];
    var n :| Run(g, START, n).Returned? && Run(g, START, n).vals == [w];
    SameFinal(g, m, n);
    assert [v][0] == [w][0];
  }

  /** A body that the compiler takes and that evaluates to `v` returns `v`. */
  lemma BodyReturns(body: A.Expr, t: Ir.Type, fuel: nat, v: Val)
    requires S.Check(body, [map[]]) == Some(t) && Ir.IsScalar(t) && LoopsPlaced(body) && Decls(body) <= 6
    requires S.Eval(body, [map[]], fuel).Done? && S.Eval(body, [map[]], fuel).v == v
    ensures Returns(body, v)
  {
    hide S.Check, S.Eval, Decls, LoopsPlaced, Program, MachineYields, MachineReturns, MachineTraps, MachineDiverges;
    FewHold(body);
    CompilerCorrect.CompilerCorrect(body);
    assert SourceYields(body, v);
    forall w ensures MachineYields(Program(body), w) <==> w == v {
      if MachineYields(Program(body), w) { YieldsOnce(Program(body), v, w); }
    }
  }

  // ----- the elements of a body, one after the other

  const CONTEXT: S.Context := [map[], map[]]
  const SCOPES: S.Scopes := [map[], map[]]

  /** The elements are well-typed and well-placed, and evaluate to `v`; `t` is the type of the last one. */
  ghost predicate Goes(items: seq<A.Expr>, fuel: nat, t: Ir.Type, ctx: S.Context, v: Val, scopes: S.Scopes) {
    && S.CheckItems(items, CONTEXT) == Some((t, ctx)) && ItemsYield(items, CONTEXT)
    && S.EvalItems(items, SCOPES, fuel) == Done(v, scopes) && |scopes| > 0
  }

  lemma GoesNone(fuel: nat)
    ensures Goes([], fuel, Ir.Void, CONTEXT, Unit, SCOPES) && ItemDecls([]) == 0
  {
  }

  lemma GoesOn(items: seq<A.Expr>, e: A.Expr, fuel: nat, t: Ir.Type, ctx: S.Context, v: Val, scopes: S.Scopes,
      u: Ir.Type, ctx': S.Context, w: Val, scopes': S.Scopes)
    requires Goes(items, fuel, t, ctx, v, scopes)
    requires S.CheckItem(e, ctx) == Some((u, ctx')) && ArmsYield(e, ctx)
    requires S.Eval(e, scopes, fuel) == Done(w, scopes') && |scopes'| > 0
    ensures Goes(items + [e], fuel, u, ctx', w, scopes') && ItemDecls(items + [e]) == ItemDecls(items) + Decls(e)
  {
    hide S.Eval, ArmsYield, S.CheckItem, Decls;
    assert (items + [e])[..|items|] == items;
  }

  lemma GoesReturns(items: seq<A.Expr>, fuel: nat, t: Ir.Type, ctx: S.Context, v: Val, scopes: S.Scopes)
    requires Goes(items, fuel, t, ctx, v, scopes) && Ir.IsScalar(t) && ItemDecls(items) <= 6
    requires items != [] && !EndsInLoop(items[|items| - 1])
    ensures Returns(A.Block(items), v)
  {
    hide S.CheckItems, ItemsYield, S.EvalItems, ItemDecls, Returns, Ir.IsScalar;
    var body := A.Block(items);
    assert [map[]] + [map[]] == CONTEXT;
    assert [map[]] + [map[]] == SCOPES;
    BodyReturns(body, t, fuel, v);
  }

  /** A body of one element. */
  lemma OneReturns(e: A.Expr, fuel: nat, t: Ir.Type, v: Val)
    requires S.Check(e, CONTEXT) == Some(t) && Ir.IsScalar(t) && ArmsYield(e, CONTEXT) && !EndsInLoop(e)
    requires !e.Variable? && S.Eval(e, SCOPES, fuel) == Done(v, SCOPES) && Decls(e) <= 6
    ensures Returns(A.Block([e]), v)
  {
    hide S.Check, S.Eval, ArmsYield, Decls, Returns;
    GoesNone(fuel);
    GoesOn([], e, fuel, Ir.Void, CONTEXT, Unit, SCOPES, t, CONTEXT, v, SCOPES);
    assert [] + [e] == [e];
    GoesReturns([e], fuel, t, CONTEXT, v, SCOPES);
  }

  // ----- operators

  function Number(n: I64): A.Expr {
    A.Lit(A.Int(n))
  }

  function Operation(l: I64, op: T.TKind, r: I64): A.Expr {
    A.Binary(Number(l), op, Number(r))
  }

  /** Both operands are numbers: the type and the value of the operation. */
  lemma OperationGoes(l: I64, op: T.TKind, r: I64, ctx: S.Context, scopes: S.Scopes, fuel: nat)
    requires IsArithmetic(op) || IsComparison(op)
    ensures var e := Operation(l, op, r);
      && !e.Variable?
      && S.Check(e, ctx) == Some(if IsArithmetic(op) then Ir.IntType else Ir.BoolType)
      && ArmsYield(e, ctx) && !EndsInLoop(e) && Decls(e) == 0
      && S.Eval(e, scopes, fuel) == Finish(Apply(op, Int(l), Int(r)), scopes)
  {
    hide Apply, Finish;
    assert op != T.Equal;
    assert S.Check(Number(l), ctx) == S.Check(Number(r), ctx) == Some(Ir.IntType);
    assert S.Eval(Number(l), scopes, fuel) == Done(Int(l), scopes);
    assert S.Eval(Number(r), scopes, fuel) == Done(Int(r), scopes);
  }

  /** `{ l op r }` returns what the language promises of `op`. */
  lemma OperatorReturns(l: I64, op: T.TKind, r: I64, v: Val)
    requires (IsArithmetic(op) || IsComparison(op)) && Promised(op, l, r, Value(v))
    ensures Returns(A.Block([Operation(l, op, r)]), v)
  {
    hide Returns, Promised, Apply, Operation, ArmsYield, EndsInLoop, Decls;
    ApplyMeans(op, l, r);
    PromisedOnce(op, l, r, Value(v), Apply(op, Int(l), Int(r)));
    OperationGoes(l, op, r, CONTEXT, SCOPES, 0);
    OneReturns(Operation(l, op, r), 0, if IsArithmetic(op) then Ir.IntType else Ir.BoolType, v);
  }

  /** `{ l / 0 }` traps. */
  lemma DivisionTraps(l: I64)
    ensures var body := A.Block([Operation(l, T.Slash, 0)]);
      ExprCompiler.Supported(body) && MachineTraps(Program(body)) && !MachineReturns(Program(body))
  {
    hide S.Check, S.Eval, ArmsYield, Program, Operation, Decls;
    var e := Operation(l, T.Slash, 0);
    var body := A.Block([e]);
    OperationGoes(l, T.Slash, 0, CONTEXT, SCOPES, 0);
    OneChecks(e, Ir.IntType);
    OneTraps(e, 0);
    FewHold(body);
    CompilerCorrect.CompilerCorrect(body);
    TrapsOnly(Program(body));
  }

  lemma OneChecks(e: A.Expr, t: Ir.Type)
    requires S.Check(e, CONTEXT) == Some(t) && ArmsYield(e, CONTEXT) && !EndsInLoop(e) && !e.Variable?
    ensures var body := A.Block([e]);
      S.Check(body, [map[]]) == Some(t) && LoopsPlaced(body) && Decls(body) == Decls(e)
  {
    hide Decls, EndsInLoop;
    assert [e][..0] == [];
    assert [map[]] + [map[]] == CONTEXT;
    assert S.CheckItems([], CONTEXT) == Some((Ir.Void, CONTEXT));
    assert ItemsYield([], CONTEXT);
    assert S.CheckItems([e], CONTEXT) == S.CheckItem(e, CONTEXT) == Some((t, CONTEXT));
    assert ItemsYield([e], CONTEXT);
    OneEnds(e);
  }

  lemma OneEnds(e: A.Expr)
    ensures EndsInLoop(A.Block([e])) == EndsInLoop(e) && Decls(A.Block([e])) == Decls(e)
  {
    assert [e][..0] == [] && ItemDecls([]) == 0;
  }

  lemma OneTraps(e: A.Expr, fuel: nat)
    requires S.Eval(e, SCOPES, fuel) == Trapped
    ensures SourceTraps(A.Block([e]))
  {
    assert [map[]] + [map[]] == SCOPES;
    assert [e][..0] == [] && S.EvalItems([], SCOPES, fuel) == Done(Unit, SCOPES);
    assert S.Eval(A.Block([e]), [map[]], fuel) == Trapped;
  }

  lemma TrapsOnly(g: Graph)
    requires MachineTraps(g)
    ensures !MachineReturns(g)
  {
    hide Run;
    var m :| Run(g, START, m) == Trap;
    if n :| Run(g, START, n).Returned? { SameFinal(g, m, n); }
  }

  // ----- conditionals

  /** `{ if (c) n else m }` returns the arm that the condition picks. */
  lemma ConditionalReturns(c: bool, n: I64, m: I64)
    ensures Returns(A.Block([A.If(A.Lit(A.Bool(c)), Number(n), Some(Number(m)))]), Int(if c then n else m))
  {
    hide Returns;
    var e := A.If(A.Lit(A.Bool(c)), Number(n), Some(Number(m)));
    assert S.Check(e.cond, CONTEXT) == Some(Ir.BoolType) && S.Eval(e.cond, SCOPES, 0) == Done(Bool(c), SCOPES);
    assert S.Check(Number(n), CONTEXT) == S.Check(Number(m), CONTEXT) == Some(Ir.IntType);
    assert S.Eval(Number(n), SCOPES, 0) == Done(Int(n), SCOPES);
    assert S.Eval(Number(m), SCOPES, 0) == Done(Int(m), SCOPES);
    OneReturns(e, 0, Ir.IntType, Int(if c then n else m));
  }

  // ----- variables

  const NAME: string := "a"
  const USE: A.Expr := A.Ident(NAME)

  function Let(n: I64): A.Expr {
    A.Variable(false, NAME, Number(n))
  }

  function Set(value: A.Expr): A.Expr {
    A.Binary(USE, T.Equal, value)
  }

  /** Inside the body `a` is declared. */
  const DECLARED: S.Context := [map[], map[NAME := Ir.IntType]]

  /** Its value is `n`. */
  function Holding(n: I64): S.Scopes {
    [map[], map[NAME := Int(n)]]
  }

  /** A body that starts with `var a = n`. */
  lemma LetGoes(n: I64, fuel: nat)
    ensures Goes([Let(n)], fuel, Ir.IntType, DECLARED, Int(n), Holding(n)) && ItemDecls([Let(n)]) == 1
  {
    hide Goes;
    var e := Let(n);
    assert S.Check(Number(n), CONTEXT) == Some(Ir.IntType);
    assert S.Eval(Number(n), SCOPES, fuel) == Done(Int(n), SCOPES);
    assert S.Declare(CONTEXT, NAME, Ir.IntType) == DECLARED && S.Declare(SCOPES, NAME, Int(n)) == Holding(n);
    GoesNone(fuel);
    GoesOn([], e, fuel, Ir.Void, CONTEXT, Unit, SCOPES, Ir.IntType, DECLARED, Int(n), Holding(n));
    assert [] + [e] == [e];
    assert Decls(e) == 1;
  }

  lemma UseGoes(n: I64, fuel: nat)
    ensures S.Check(USE, DECLARED) == Some(Ir.IntType) && S.CheckItem(USE, DECLARED) == Some((Ir.IntType, DECLARED))
    ensures S.Eval(USE, Holding(n), fuel) == Done(Int(n), Holding(n))
    ensures ArmsYield(USE, DECLARED) && !EndsInLoop(USE) && Decls(USE) == 0
  {
  }

  /** `{ var a = n; e; a }` returns what `e` leaves in `a`. */
  lemma AfterReturns(n: I64, e: A.Expr, fuel: nat, t: Ir.Type, v: Val, m: I64)
    requires !e.Variable? && S.Check(e, DECLARED) == Some(t) && ArmsYield(e, DECLARED) && Decls(e) <= 5
    requires S.Eval(e, Holding(n), fuel) == Done(v, Holding(m))
    ensures Returns(A.Block([Let(n), e, USE]), Int(m))
  {
    hide Returns, Goes, S.Check, S.Eval, ArmsYield, Decls, EndsInLoop, ItemDecls;
    LetGoes(n, fuel);
    assert S.CheckItem(e, DECLARED) == Some((t, DECLARED));
    GoesOn([Let(n)], e, fuel, Ir.IntType, DECLARED, Int(n), Holding(n), t, DECLARED, v, Holding(m));
    UseGoes(m, fuel);
    var items := [Let(n)] + [e];
    GoesOn(items, USE, fuel, t, DECLARED, v, Holding(m), Ir.IntType, DECLARED, Int(m), Holding(m));
    assert items + [USE] == [Let(n), e, USE];
    GoesReturns([Let(n), e, USE], fuel, Ir.IntType, DECLARED, Int(m), Holding(m));
  }

  lemma Overwritten(n: I64, m: I64)
    ensures Holding(n)[1 := Holding(n)[1][NAME := Int(m)]] == Holding(m)
  {
    assert map[NAME := Int(n)][NAME := Int(m)] == map[NAME := Int(m)];
  }

  /** `{ var a = n; a = m; a }` returns `m`. */
  lemma AssignmentReturns(n: I64, m: I64)
    ensures Returns(A.Block([Let(n), Set(Number(m)), USE]), Int(m))
  {
    hide Returns;
    var e := Set(Number(m));
    assert S.Check(Number(m), DECLARED) == Some(Ir.IntType);
    UseGoes(n, 0);
    assert S.Eval(Number(m), Holding(n), 0) == Done(Int(m), Holding(n));
    Overwritten(n, m);
    AfterReturns(n, e, 0, Ir.IntType, Int(m), m);
  }

  // ----- blocks in a body

  /** A block of one element, around which the scopes stay as the element leaves them. */
  lemma BlockGoes(e: A.Expr, t: Ir.Type, ctx': S.Context, n: I64, fuel: nat, v: Val, m: I64, top: map<string, Val>)
    requires S.CheckItem(e, DECLARED + [map[]]) == Some((t, ctx')) && ArmsYield(e, DECLARED + [map[]])
    requires S.Eval(e, Holding(n) + [map[]], fuel) == Done(v, Holding(m) + [top])
    ensures var b := A.Block([e]);
      && S.Check(b, DECLARED) == Some(t) && ArmsYield(b, DECLARED) && Decls(b) == Decls(e)
      && S.Eval(b, Holding(n), fuel) == Done(v, Holding(m))
  {
    hide S.CheckItem, Decls;
    var inner, within := DECLARED + [map[]], Holding(n) + [map[]];
    assert [e][..0] == [];
    assert S.CheckItems([], inner) == Some((Ir.Void, inner)) && ItemsYield([], inner);
    assert S.CheckItems([e], inner) == Some((t, ctx'));
    assert S.EvalItems([], within, fuel) == Done(Unit, within);
    assert (Holding(m) + [top])[..2] == Holding(m);
    OneEnds(e);
  }

  /** `{ var a = n; { var a = m }; a }` returns `n`: the inner `a` is another variable. */
  lemma ShadowReturns(n: I64, m: I64)
    ensures Returns(A.Block([Let(n), A.Block([Let(m)]), USE]), Int(n))
  {
    hide Returns;
    var inner, scopes := DECLARED + [map[]], Holding(n) + [map[]];
    assert S.Check(Number(m), inner) == Some(Ir.IntType);
    assert S.Eval(Number(m), scopes, 0) == Done(Int(m), scopes);
    var top: map<string, Val> := map[NAME := Int(m)];
    assert scopes[2 := scopes[2][NAME := Int(m)]] == Holding(n) + [top];
    BlockGoes(Let(m), Ir.IntType, S.Declare(inner, NAME, Ir.IntType), n, 0, Int(m), n, top);
    assert Decls(Let(m)) == 1;
    AfterReturns(n, A.Block([Let(m)]), 0, Ir.IntType, Int(m), n);
  }

  /** Seen from an inner block, `a` is the variable of the body. */
  lemma InnerUse(n: I64, fuel: nat)
    ensures var inner, scopes := DECLARED + [map[]], Holding(n) + [map[]];
      && S.Check(USE, inner) == Some(Ir.IntType) && S.Eval(USE, scopes, fuel) == Done(Int(n), scopes)
      && S.Innermost(scopes, NAME) == Some(1)
  {
    var inner, scopes := DECLARED + [map[]], Holding(n) + [map[]];
    assert inner[..2] == DECLARED && scopes[..2] == Holding(n);
    assert S.Innermost(DECLARED, NAME) == Some(1) && S.Innermost(Holding(n), NAME) == Some(1);
  }

  /** `{ a = value }` changes the variable of the body. */
  lemma InnerSet(value: A.Expr, n: I64, fuel: nat, m: I64)
    requires var inner, scopes := DECLARED + [map[]], Holding(n) + [map[]];
      S.Check(value, inner) == Some(Ir.IntType) && S.Eval(value, scopes, fuel) == Done(Int(m), scopes)
    requires ArmsYield(value, DECLARED + [map[]]) && Decls(value) == 0
    ensures var b := A.Block([Set(value)]);
      && S.Check(b, DECLARED) == Some(Ir.IntType) && ArmsYield(b, DECLARED) && Decls(b) == 0
      && S.Eval(b, Holding(n), fuel) == Done(Int(m), Holding(m))
  {
    var inner, scopes := DECLARED + [map[]], Holding(n) + [map[]];
    InnerUse(n, fuel);
    Overwritten(n, m);
    assert scopes[1 := scopes[1][NAME := Int(m)]] == Holding(m) + [map[]];
    assert ArmsYield(USE, inner) && Decls(USE) == 0;
    BlockGoes(Set(value), Ir.IntType, inner, n, fuel, Int(m), m, map[]);
  }

  /** `{ var a = n; { a = m }; a }` returns `m`. */
  lemma InnerAssignmentReturns(n: I64, m: I64)
    ensures Returns(A.Block([Let(n), A.Block([Set(Number(m))]), USE]), Int(m))
  {
    hide Returns;
    InnerSet(Number(m), n, 0, m);
    AfterReturns(n, A.Block([Set(Number(m))]), 0, Ir.IntType, Int(m), m);
  }

  // ----- loops

  /** `while (a < m) { a = a + 1 }`. */
  function CountTo(m: I64): A.Expr {
    A.While(A.Binary(USE, T.Less, Number(m)), A.Block([INCREMENT]))
  }

  const INCREMENT: A.Expr := Set(A.Binary(USE, T.Plus, Number(1)))

  lemma IncrementGoes(n: I64, fuel: nat)
    requires n + 1 < 0x8000_0000_0000_0000
    ensures var b := A.Block([INCREMENT]);
      && S.Check(b, DECLARED) == Some(Ir.IntType) && ArmsYield(b, DECLARED) && Decls(b) == 0
      && S.Eval(b, Holding(n), fuel) == Done(Int(n + 1), Holding(n + 1))
  {
    var inner, scopes := DECLARED + [map[]], Holding(n) + [map[]];
    var sum := A.Binary(USE, T.Plus, Number(1));
    InnerUse(n, fuel);
    WrapExact(n + 1);
    assert S.Check(Number(1), inner) == Some(Ir.IntType) && S.Eval(Number(1), scopes, fuel) == Done(Int(1), scopes);
    assert S.Eval(sum, scopes, fuel) == Done(Int(n + 1), scopes);
    assert ArmsYield(USE, inner) && ArmsYield(Number(1), inner) && Decls(USE) == Decls(Number(1)) == 0;
    InnerSet(sum, n, fuel, n + 1);
  }

  lemma GuardGoes(n: I64, m: I64, fuel: nat)
    ensures var c := A.Binary(USE, T.Less, Number(m));
      && S.Check(c, DECLARED) == Some(Ir.BoolType) && ArmsYield(c, DECLARED) && Decls(c) == 0
      && S.Eval(c, Holding(n), fuel) == Done(Bool(n < m), Holding(n))
  {
    UseGoes(n, fuel);
    assert S.Check(Number(m), DECLARED) == Some(Ir.IntType);
    assert S.Eval(Number(m), Holding(n), fuel) == Done(Int(m), Holding(n));
    assert ArmsYield(Number(m), DECLARED) && Decls(Number(m)) == 0;
  }

  /** One turn of a loop. */
  lemma LoopTurn(cond: A.Expr, body: A.Expr, scopes: S.Scopes, fuel: nat, c: bool)
    requires fuel > 0 && S.Eval(cond, scopes, fuel) == Done(Bool(c), scopes)
    ensures !c ==> S.Eval(A.While(cond, body), scopes, fuel) == Done(Unit, scopes)
    ensures var r := S.Eval(body, scopes, fuel);
      c && r.Done? ==> S.Eval(A.While(cond, body), scopes, fuel) == S.Eval(A.While(cond, body), r.state, fuel - 1)
  {
  }

  /** The loop counts up to `m`, if it is not there already. */
  lemma {:induction false} LoopCounts(n: I64, m: I64, fuel: nat)
    requires fuel > m - n && fuel > 0
    ensures S.Eval(CountTo(m), Holding(n), fuel) == Done(Unit, Holding(if n < m then m else n))
    decreases fuel
  {
    hide S.Eval, S.Check, ArmsYield, Decls;
    GuardGoes(n, m, fuel);
    LoopTurn(CountTo(m).cond, CountTo(m).body, Holding(n), fuel, n < m);
    if n < m {
      IncrementGoes(n, fuel);
      LoopCounts(n + 1, m, fuel - 1);
    }
  }

  /** `{ var a = n; while (a < m) { a = a + 1 }; a }` returns the larger of `n` and `m`. */
  lemma LoopReturns(n: I64, m: I64)
    ensures Returns(A.Block([Let(n), CountTo(m), USE]), Int(if n < m then m else n))
  {
    hide Returns, S.Eval;
    var fuel := if n < m then m - n + 1 else 1;
    LoopCounts(n, m, fuel);
    GuardGoes(n, m, fuel);
    IncrementGoes(0, fuel);
    AfterReturns(n, CountTo(m), fuel, Ir.Void, Unit, if n < m then m else n);
  }
}
