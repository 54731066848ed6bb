/** Whole functions: a source body and the block graph made from it behave alike. */
module CompilerCorrect {
  import opened Wrappers
  import opened Values
  import A = Ast
  import S = AstSemantics
  import Ir
  import opened Clif
  import opened Translator
  import opened TranslatorShape
  import opened TranslatorArity
  import opened Lowering
  import Resolution
  import References
  import ExprCompiler
  import Sealing
  import opened LoopPlacement

  /** A function starts at its entry block with no values and no variables. */
  const START: Config := At(0, 0, map[], map[])

  // ----- the three ways to behave

  ghost predicate TreeYields(e: Ir.Expr, v: Val) {
    exists fuel :: Ir.Eval(e, map[], fuel).Done? && Ir.Eval(e, map[], fuel).v == v
  }

  ghost predicate TreeTraps(e: Ir.Expr) {
    exists fuel :: Ir.Eval(e, map[], fuel) == Trapped
  }

  ghost predicate TreeDiverges(e: Ir.Expr) {
    forall fuel :: Ir.Eval(e, map[], fuel) == OutOfFuel
  }

  ghost predicate TreeNeverWrong(e: Ir.Expr) {
    forall fuel :: Ir.Eval(e, map[], fuel) != Wrong
  }

  ghost predicate SourceYields(body: A.Expr, v: Val) {
    exists fuel :: S.Eval(body, [map[]], fuel).Done? && S.Eval(body, [map[]], fuel).v == v
  }

  ghost predicate SourceTraps(body: A.Expr) {
    exists fuel :: S.Eval(body, [map[]], fuel) == Trapped
  }

  ghost predicate SourceDiverges(body: A.Expr) {
    forall fuel :: S.Eval(body, [map[]], fuel) == OutOfFuel
  }

  ghost predicate MachineReturns(g: Graph) {
    exists n :: Run(g, START, n).Returned?
  }

  ghost predicate MachineYields(g: Graph, v: Val) {
    exists n :: Run(g, START, n).Returned? && Run(g, START, n).vals == [v]
  }

  ghost predicate MachineTraps(g: Graph) {
    exists n :: Run(g, START, n) == Trap
  }

  ghost predicate MachineDiverges(g: Graph) {
    forall n :: Run(g, START, n).At?
  }

  ghost predicate NeverStuck(g: Graph) {
    forall n :: Run(g, START, n) != Stuck
  }

  /** Every return of the graph hands over `count` values. */
  ghost predicate ReturnsExactly(g: Graph, count: nat) {
    forall n :: Run(g, START, n).Returned? ==> |Run(g, START, n).vals| == count
  }

  /** A lowered body: well-typed, with scalar slots and no loop where a phi expects a value. */
  ghost predicate Lowerable(e: Ir.Expr, locals: seq<Ir.VarStore>) {
    && Ir.WellTyped(e, locals) && PhiArmsYield(e)
    && (forall i :: 0 <= i < |locals| ==> Ir.IsScalar(locals[i].ty))
  }

  function Blocks(e: Ir.Expr, locals: seq<Ir.VarStore>): Graph {
    Build(e, Offsets(locals)).blocks
  }

  /** What the whole graph does within `n` steps when the tree does `r` with the given fuel. */
  ghost predicate GraphDoes(g: Graph, e: Ir.Expr, r: Result<Ir.Slots>, fuel: nat, n: nat) {
    var d := Run(g, START, n);
    match r
    case Done(v, s) =>
      d.Returned? && d.vars == s && |d.vals| == ValueCount(e) && (Ir.IsScalar(Ir.Typ(e)) ==> d.vals == [v])
    case Trapped => d == Trap
    case OutOfFuel => n >= fuel && d.At?
    case Wrong => d == Stuck
  }

  lemma BuildDoes(e: Ir.Expr, locals: seq<Ir.VarStore>, fuel: nat) returns (n: nat)
    requires Lowerable(e, locals)
    ensures GraphDoes(Blocks(e, locals), e, Ir.Eval(e, map[], fuel), fuel, n)
  {
    hide Extends, Emit, Frame, Kept, ValueCount, Identity, Ir.WellTyped, PhiArmsYield;
    var offsets := Offsets(locals);
    ScalarOffsets(locals);
    assert ENTRY.cur < |ENTRY.blocks| && Here(START, ENTRY) by { EntryHere(); }
    TransFrame(e, offsets, ENTRY);
    var (b, vals) := Trans(e, offsets, ENTRY);
    FrameCur(ENTRY, b);
    var f := Emit(b, Return(vals));
    ExtendsSelf(f);
    FrameSelf(b);
    FrameEmit(b, b, Return(vals));
    ExtendsBack(f.blocks, b, f);
    TransCount(e, locals, offsets, ENTRY);
    n := TransDoes(f.blocks, e, locals, offsets, ENTRY, START, fuel);
    n := ReturnDoes(e, b, vals, Ir.Eval(e, map[], fuel), fuel, n);
  }

  /** The return at the end hands over the values of the body. */
  lemma ReturnDoes(e: Ir.Expr, b: Builder, vals: seq<ValueId>, r: Result<Ir.Slots>, fuel: nat, m: nat) returns (n: nat)
    requires |vals| == ValueCount(e)
    requires var f := Emit(b, Return(vals));
      Extends(f.blocks, f) && Does(f.blocks, e, (b, vals), START, r, fuel, ENTRY.next, m)
    ensures GraphDoes(Emit(b, Return(vals)).blocks, e, r, fuel, n)
  {
    hide Extends, Emit, Kept, ValueCount;
    var g := Emit(b, Return(vals)).blocks;
    n := m;
    if r.Done? {
      NextInst(g, b, Return(vals), Run(g, START, m));
      RunThen(g, START, m);
      n := m + 1;
    }
  }

  lemma EntryHere()
    ensures ENTRY.cur < |ENTRY.blocks| && Here(START, ENTRY)
  {
  }

  lemma ExtendsSelf(b: Builder)
    ensures Extends(b.blocks, b)
  {
  }

  /** Final states are unique along a run. */
  lemma SameFinal(g: Graph, m: nat, n: nat)
    requires !Run(g, START, m).At? && !Run(g, START, n).At?
    ensures Run(g, START, m) == Run(g, START, n)
  {
    if m <= n { FinalUnique(g, START, m, n); } else { FinalUnique(g, START, n, m); }
  }

  lemma StillRunning(g: Graph, m: nat, n: nat)
    requires Run(g, START, n).At? && m <= n
    ensures Run(g, START, m).At?
  {
    if !Run(g, START, m).At? { FinalUnique(g, START, m, n); }
  }

  /** A graph that is final after `n` steps comes from a tree that is final within fuel `n + 1`. */
  lemma FinalTree(e: Ir.Expr, locals: seq<Ir.VarStore>, n: nat)
    requires Lowerable(e, locals) && !Run(Blocks(e, locals), START, n).At?
    ensures var r := Ir.Eval(e, map[], n + 1); var d := Run(Blocks(e, locals), START, n);
      && (d.Returned? <==> r.Done?) && (d.Trap? <==> r.Trapped?) && (d.Stuck? <==> r.Wrong?) && r != OutOfFuel
      && (d.Returned? ==> |d.vals| == ValueCount(e))
      && (d.Returned? && Ir.IsScalar(Ir.Typ(e)) ==> d.vals == [r.v])
  {
    var g := Blocks(e, locals);
    var m := BuildDoes(e, locals, n + 1);
    if Ir.Eval(e, map[], n + 1).OutOfFuel? { StillRunning(g, n, m); }
    else { SameFinal(g, m, n); }
  }

  /**
   Lowering preserves meaning both ways, for every well-typed tree whose phi arms do not end in a
   loop: in particular the graph gets stuck exactly when the tree goes wrong.
   */
  lemma LoweringCorrect(e: Ir.Expr, locals: seq<Ir.VarStore>)
    requires Lowerable(e, locals)
    ensures var g := Blocks(e, locals);
      && (NeverStuck(g) <==> TreeNeverWrong(e))
      && ReturnsExactly(g, ValueCount(e))
      && (Ir.IsScalar(Ir.Typ(e)) ==> forall v :: TreeYields(e, v) <==> MachineYields(g, v))
      && ((exists v :: TreeYields(e, v)) <==> MachineReturns(g))
      && (TreeTraps(e) <==> MachineTraps(g))
      && (TreeDiverges(e) <==> MachineDiverges(g))
  {
    var g := Blocks(e, locals);
    forall n: nat | Run(g, START, n).Returned? ensures |Run(g, START, n).vals| == ValueCount(e) {
      FinalTree(e, locals, n);
    }
    SticksBoth(e, locals);
    if Ir.IsScalar(Ir.Typ(e)) {
      forall v ensures TreeYields(e, v) <==> MachineYields(g, v) { YieldsBoth(e, locals, v); }
    }
    ReturnsBoth(e, locals);
    TrapsBoth(e, locals);
    DivergesBoth(e, locals);
  }

  lemma SticksBoth(e: Ir.Expr, locals: seq<Ir.VarStore>)
    requires Lowerable(e, locals)
    ensures NeverStuck(Blocks(e, locals)) <==> TreeNeverWrong(e)
  {
    var g := Blocks(e, locals);
    if !NeverStuck(g) {
      var n: nat :| Run(g, START, n) == Stuck;
      FinalTree(e, locals, n);
    }
    if !TreeNeverWrong(e) {
      var fuel: nat :| Ir.Eval(e, map[], fuel) == Wrong;
      var n := BuildDoes(e, locals, fuel);
      assert Run(g, START, n) == Stuck;
    }
  }

  lemma YieldsBoth(e: Ir.Expr, locals: seq<Ir.VarStore>, v: Val)
    requires Lowerable(e, locals) && Ir.IsScalar(Ir.Typ(e))
    ensures TreeYields(e, v) <==> MachineYields(Blocks(e, locals), v)
  {
    var g := Blocks(e, locals);
    if TreeYields(e, v) {
      var fuel: nat :| Ir.Eval(e, map[], fuel).Done? && Ir.Eval(e, map[], fuel).v == v;
      var n := BuildDoes(e, locals, fuel);
      assert Run(g, START, n).Returned?;
    }
    if MachineYields(g, v) {
      var n: nat :| Run(g, START, n).Returned? && Run(g, START, n).vals == [v];
      FinalTree(e, locals, n);
    }
  }

  lemma ReturnsBoth(e: Ir.Expr, locals: seq<Ir.VarStore>)
    requires Lowerable(e, locals)
    ensures (exists v :: TreeYields(e, v)) <==> MachineReturns(Blocks(e, locals))
  {
    var g := Blocks(e, locals);
    if v :| TreeYields(e, v) {
      var fuel: nat :| Ir.Eval(e, map[], fuel).Done? && Ir.Eval(e, map[], fuel).v == v;
      var n := BuildDoes(e, locals, fuel);
      assert Run(g, START, n).Returned?;
    }
    if MachineReturns(g) {
      var n: nat :| Run(g, START, n).Returned?;
      FinalTree(e, locals, n);
      assert TreeYields(e, Ir.Eval(e, map[], n + 1).v);
    }
  }

  lemma TrapsBoth(e: Ir.Expr, locals: seq<Ir.VarStore>)
    requires Lowerable(e, locals)
    ensures TreeTraps(e) <==> MachineTraps(Blocks(e, locals))
  {
    var g := Blocks(e, locals);
    if TreeTraps(e) {
      var fuel: nat :| Ir.Eval(e, map[], fuel) == Trapped;
      var n := BuildDoes(e, locals, fuel);
      assert Run(g, START, n) == Trap;
    }
    if MachineTraps(g) {
      var n: nat :| Run(g, START, n) == Trap;
      FinalTree(e, locals, n);
    }
  }

  lemma DivergesBoth(e: Ir.Expr, locals: seq<Ir.VarStore>)
    requires Lowerable(e, locals)
    ensures TreeDiverges(e) <==> MachineDiverges(Blocks(e, locals))
  {
    var g := Blocks(e, locals);
    if TreeDiverges(e) {
      forall n ensures Run(g, START, n).At? {
        var m := BuildDoes(e, locals, n);
        StillRunning(g, n, m);
      }
    }
    if MachineDiverges(g) {
      forall fuel ensures Ir.Eval(e, map[], fuel) == OutOfFuel {
        var n := BuildDoes(e, locals, fuel);
        assert Run(g, START, n).At?;
      }
    }
  }

  // ----- from source to blocks

  /** The blocks of a source body. */
  function Program(body: A.Expr): Graph
    requires ExprCompiler.Supported(body)
  {
    var c := References.CompileBody(body);
    Blocks(c.ir, c.locals)
  }

  /**
   A body of type `t` and a graph behave alike: they yield the same value, trap together and diverge
   together, the graph never gets stuck, and it returns what the signature for `t` says.
   */
  ghost predicate SameBehaviour(body: A.Expr, t: Ir.Type, g: Graph) {
    && NeverStuck(g) && ReturnsExactly(g, TypeCount(t))
    && (Ir.IsScalar(t) ==> forall v :: SourceYields(body, v) <==> MachineYields(g, v))
    && ((exists v :: SourceYields(body, v)) <==> MachineReturns(g))
    && (SourceTraps(body) <==> MachineTraps(g))
    && (SourceDiverges(body) <==> MachineDiverges(g))
  }

  /**
   The compiler is correct for every well-typed body whose loops stand where no value is passed on
   and whose references hold.
   */
  lemma CompilerCorrect(body: A.Expr)
    requires S.Check(body, [map[]]).Some? && LoopsPlaced(body) && References.ReferencesHold(body)
    ensures ExprCompiler.Supported(body)
    ensures SameBehaviour(body, S.Check(body, [map[]]).value, Program(body))
  {
    hide S.Check, Ir.IsScalar, LoopsPlaced, Lowerable, TreeNeverWrong, NeverStuck, ReturnsExactly, ValueCount, Blocks;
    hide References.CompileBody, SourceYields, TreeYields, MachineYields, MachineReturns;
    BodyLowerable(body);
    var c := References.CompileBody(body);
    LoweringCorrect(c.ir, c.locals);
    SourceIsTree(body);
  }

  /** The compiled tree of such a body meets every hypothesis of the second pass, and never goes wrong. */
  lemma BodyLowerable(body: A.Expr)
    requires S.Check(body, [map[]]).Some? && LoopsPlaced(body) && References.ReferencesHold(body)
    ensures ExprCompiler.Supported(body)
    ensures var c, t := References.CompileBody(body), S.Check(body, [map[]]).value;
      && Lowerable(c.ir, c.locals) && TreeNeverWrong(c.ir)
      && Ir.Typ(c.ir) == t && ValueCount(c.ir) == TypeCount(t)
  {
    hide S.Check, LoopsPlaced, ValueCount, S.Eval, Ir.Eval, Ir.WellTyped;
    BodyAlike(body);
    var c := References.CompileBody(body);
    forall fuel: nat ensures Ir.Eval(c.ir, map[], fuel) != Wrong { Resolution.BodyPreserved(body, fuel); }
    Resolution.BodyPreserved(body, 0);
    Resolution.BodyScalars(body);
    CountAgrees(c.ir, c.locals);
  }

  /** Source and tree end alike for every fuel. */
  lemma Lockstep(body: A.Expr, fuel: nat)
    requires S.Check(body, [map[]]).Some? && ExprCompiler.Supported(body) && References.ReferencesHold(body)
    ensures var a, r := S.Eval(body, [map[]], fuel), Ir.Eval(References.CompileBody(body).ir, map[], fuel);
      && (a.Done? <==> r.Done?) && (a.Trapped? <==> r.Trapped?) && (a.OutOfFuel? <==> r.OutOfFuel?)
      && (a.Done? && Ir.IsScalar(S.Check(body, [map[]]).value) ==> a.v == r.v)
  {
    Resolution.BodyPreserved(body, fuel);
  }

  lemma SourceIsTree(body: A.Expr)
    requires S.Check(body, [map[]]).Some? && ExprCompiler.Supported(body) && References.ReferencesHold(body)
    ensures var e, t := References.CompileBody(body).ir, S.Check(body, [map[]]).value;
      && (Ir.IsScalar(t) ==> forall v :: SourceYields(body, v) <==> TreeYields(e, v))
      && ((exists v :: SourceYields(body, v)) <==> (exists v :: TreeYields(e, v)))
      && (SourceTraps(body) <==> TreeTraps(e))
      && (SourceDiverges(body) <==> TreeDiverges(e))
  {
    hide References.CompileBody, Ir.IsScalar, S.Check;
    var e, t := References.CompileBody(body).ir, S.Check(body, [map[]]).value;
    forall fuel: nat
      ensures var a, r := S.Eval(body, [map[]], fuel), Ir.Eval(e, map[], fuel);
        && (a.Done? <==> r.Done?) && (a.Trapped? <==> r.Trapped?) && (a.OutOfFuel? <==> r.OutOfFuel?)
        && (a.Done? && Ir.IsScalar(t) ==> a.v == r.v)
    {
      Lockstep(body, fuel);
    }
    hide S.Eval, Ir.Eval;
    if v :| SourceYields(body, v) {
      var fuel: nat :| S.Eval(body, [map[]], fuel).Done? && S.Eval(body, [map[]], fuel).v == v;
      assert TreeYields(e, Ir.Eval(e, map[], fuel).v);
    }
    if v :| TreeYields(e, v) {
      var fuel: nat :| Ir.Eval(e, map[], fuel).Done? && Ir.Eval(e, map[], fuel).v == v;
      assert SourceYields(body, S.Eval(body, [map[]], fuel).v);
    }
  }

  /**
   The builder is used properly for every well-typed body, and the branches and the return pass what
   their targets and the signature expect exactly when the loops of the body are well placed.
   */
  lemma CompilerDiscipline(body: A.Expr)
    requires S.Check(body, [map[]]).Some? && References.ReferencesHold(body)
    ensures ExprCompiler.Supported(body)
    ensures var c := References.CompileBody(body); var b := Build(c.ir, Offsets(c.locals));
      Finished(b) && (AritiesMatch(b, TypeCount(S.Check(body, [map[]]).value)) <==> LoopsPlaced(body))
  {
    hide S.Check, LoopsPlaced, AritiesMatch, Finished, Build;
    BodyAlike(body);
    var c := References.CompileBody(body);
    Resolution.BodyPreserved(body, 0);
    Sealing.BuildFinished(c.ir, c.locals);
    BodyArities(c.ir, c.locals);
  }

  const LOOP: A.Expr := A.While(A.Lit(A.Bool(false)), A.Block([]))

  /** A loop in value position of both arms of a conditional: the jumps do not fit the continuation. */
  const LOOP_ARMS: A.Expr := A.Block([A.If(A.Lit(A.Bool(true)), LOOP, Some(LOOP)), A.Block([])])

  /** A function that ends in a loop: it returns one value against an empty signature. */
  const LOOP_BODY: A.Expr := A.Block([LOOP])

  lemma LoopVoid(ctx: S.Context)
    ensures S.Check(LOOP, ctx) == Some(Ir.Void) && EndsInLoop(LOOP)
    ensures S.Check(A.Block([]), ctx) == Some(Ir.Void) && !EndsInLoop(A.Block([]))
  {
    var inner := ctx + [map[]];
    assert S.CheckItems([], inner) == Some((Ir.Void, inner));
    assert S.Check(A.Lit(A.Bool(false)), ctx) == Some(Ir.BoolType);
  }

  /** Both bodies are well-typed, and neither passes the right number of values on. */
  lemma LoopsRejected()
    ensures S.Check(LOOP_ARMS, [map[]]) == Some(Ir.Void) && S.Check(LOOP_BODY, [map[]]) == Some(Ir.Void)
    ensures ExprCompiler.Supported(LOOP_ARMS) && ExprCompiler.Supported(LOOP_BODY)
    ensures var c := References.CompileBody(LOOP_ARMS);
      !EndsInWhile(c.ir) && !AritiesMatch(Build(c.ir, Offsets(c.locals)), TypeCount(Ir.Void))
    ensures var c := References.CompileBody(LOOP_BODY);
      PhiArmsYield(c.ir) && !AritiesMatch(Build(c.ir, Offsets(c.locals)), TypeCount(Ir.Void))
  {
    hide AritiesMatch, Build, Finished;
    LoopArmsFail();
    LoopBodyFails();
    LoopsDeclareNothing();
    CompilerDiscipline(LOOP_ARMS);
    CompilerDiscipline(LOOP_BODY);
    BodyAlike(LOOP_ARMS);
    BodyAlike(LOOP_BODY);
  }

  lemma LoopsDeclareNothing()
    ensures References.ReferencesHold(LOOP_ARMS) && References.ReferencesHold(LOOP_BODY)
  {
    assert References.ItemDecls([]) == 0;
    assert References.Decls(LOOP) == 0;
    assert [LOOP][..0] == [];
    var arms := A.If(A.Lit(A.Bool(true)), LOOP, Some(LOOP));
    assert [arms][..0] == [] && [arms, A.Block([])][..1] == [arms];
    assert References.Decls(arms) == 0 && References.ItemDecls([arms]) == 0;
    References.FewHold(LOOP_ARMS);
    References.FewHold(LOOP_BODY);
  }

  lemma LoopBodyFails()
    ensures S.Check(LOOP_BODY, [map[]]) == Some(Ir.Void) && !LoopsPlaced(LOOP_BODY) && ArmsYield(LOOP_BODY, [map[]])
  {
    var ctx: S.Context := [map[]];
    var inner := ctx + [map[]];
    LoopVoid(inner);
    assert [LOOP][..0] == [];
    assert S.CheckItems([], inner) == Some((Ir.Void, inner));
    assert S.CheckItems([LOOP], inner) == Some((Ir.Void, inner));
    assert ItemsYield([], inner);
    assert ArmsYield(A.Block([]), inner) && ArmsYield(LOOP, inner);
  }

  lemma LoopArmsFail()
    ensures S.Check(LOOP_ARMS, [map[]]) == Some(Ir.Void) && !ArmsYield(LOOP_ARMS, [map[]]) && !EndsInLoop(LOOP_ARMS)
  {
    var ctx: S.Context := [map[]];
    var inner := ctx + [map[]];
    LoopVoid(inner);
    var arms := A.If(A.Lit(A.Bool(true)), LOOP, Some(LOOP));
    assert S.Check(arms, inner) == Some(Ir.Void) && !ArmsYield(arms, inner);
    assert [arms][..0] == [] && [arms, A.Block([])][..1] == [arms];
    assert S.CheckItems([], inner) == Some((Ir.Void, inner));
    assert S.CheckItems([arms], inner) == Some((Ir.Void, inner));
    assert S.CheckItems([arms, A.Block([])], inner) == Some((Ir.Void, inner));
    assert !ItemsYield([arms], inner);
  }

  // ----- one declaration too many

  lemma {:induction false} DeclarationsPlaced(k: nat, ctx: S.Context)
    ensures ItemsYield(References.Declarations(k), ctx)
  {
    if k > 0 {
      DeclarationsPlaced(k - 1, ctx);
      var items := References.Declarations(k);
      assert items[..|items| - 1] == References.Declarations(k - 1);
    }
  }

  /**
   `k` declarations and then a use of the first: well-typed, with no loop at all, and the compiler
   reads a stale reference as soon as there are more than six.
   */
  lemma ManyVariables(k: nat)
    requires k > 0
    ensures var body := References.UseFirst(k);
      && S.Check(body, [map[]]) == Some(Ir.IntType) && LoopsPlaced(body) && ExprCompiler.Supported(body)
      && (References.CompileBody(body).valid <==> k <= 6)
  {
    hide S.Check, References.ReferencesHold, References.Declarations, References.CompileBody;
    var body := References.UseFirst(k);
    References.UseFirstExact(k);
    References.ReferencesExact(body);
    var ctx: S.Context := [map[]];
    var items := body.exprs;
    assert items[..|items| - 1] == References.Declarations(k) && items[|items| - 1] == A.Ident("x");
    DeclarationsPlaced(k, ctx + [map[]]);
    assert forall c :: ArmsYield(A.Ident("x"), c);
    assert ItemsYield(items, ctx + [map[]]);
    assert ArmsYield(body, ctx);
    assert !EndsInLoop(A.Ident("x"));
    assert !EndsInLoop(body);
  }

  /** The shortest failing body: the seventh declaration moves the vector. */
  lemma SevenVariables()
    ensures var body := References.UseFirst(7);
      && S.Check(body, [map[]]) == Some(Ir.IntType) && LoopsPlaced(body) && ExprCompiler.Supported(body)
      && !References.CompileBody(body).valid && !References.ReferencesHold(body)
  {
    hide S.Check, References.ReferencesHold, References.UseFirst, References.CompileBody, LoopsPlaced;
    ManyVariables(7);
    References.UseFirstExact(7);
  }

  /**
   The two passes in sequence, as the compiler runs them. The first pass reads a stale reference
   exactly when the references of the body do not hold.
   */
  method CompileFunction(body: A.Expr) returns (b: Builder, ghost stale: bool)
    requires S.Check(body, [map[]]).Some?
    ensures ExprCompiler.Supported(body) && (stale <==> !References.ReferencesHold(body))
    ensures !stale ==>
      && b.blocks == Program(body) && Finished(b)
      && (AritiesMatch(b, TypeCount(S.Check(body, [map[]]).value)) <==> LoopsPlaced(body))
      && (LoopsPlaced(body) ==> SameBehaviour(body, S.Check(body, [map[]]).value, b.blocks))
  {
    hide S.Check, LoopsPlaced, AritiesMatch, Finished, SameBehaviour, References.ReferencesHold;
    References.ReferencesExact(body);
    var compiler := new ExprCompiler.Compiler();
    var ir := compiler.CompileExpr(body);
    stale := compiler.stale;
    var translator := new FnTranslator();
    translator.BuildFunction(ir, compiler.locals);
    if !stale {
      CompilerDiscipline(body);
      if LoopsPlaced(body) { CompilerCorrect(body); }
    }
    return translator.cl, stale;
  }
}
