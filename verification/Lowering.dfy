/**
 Lowering preserves meaning: the emitted blocks compute what the tree evaluates to, trap when it
 traps, and run for at least as many steps as the fuel a diverging evaluation is given.
 */
module Lowering {
  import opened Values
  import T = Tokens
  import Ir
  import opened Clif
  import opened Translator
  import opened TranslatorShape
  import opened TranslatorArity
  import Sealing

  /** `g` is `b` with, perhaps, more instructions and more blocks. */
  ghost predicate Extends(g: Graph, b: Builder) {
    && |b.blocks| <= |g|
    && forall i :: 0 <= i < |b.blocks| ==> b.blocks[i].params == g[i].params && b.blocks[i].insts <= g[i].insts
  }

  lemma ExtendsBack(g: Graph, b: Builder, c: Builder)
    requires Frame(b, c) && Extends(g, c)
    ensures Extends(g, b)
  {
    forall i | 0 <= i < |b.blocks| ensures b.blocks[i].params == g[i].params && b.blocks[i].insts <= g[i].insts {
      assert c.blocks[i].params == b.blocks[i].params && b.blocks[i].insts <= c.blocks[i].insts;
    }
  }

  lemma ExtendsEnter(g: Graph, b: Builder, blk: BlockId)
    requires blk < |b.blocks|
    ensures Extends(g, Enter(b, blk)) <==> Extends(g, b)
  {
    var c := Enter(b, blk);
    assert forall i :: 0 <= i < |b.blocks| ==>
      c.blocks[i].params == b.blocks[i].params && c.blocks[i].insts == b.blocks[i].insts;
  }

  /** The machine stands where the builder will append next. */
  ghost predicate Here(c: Config, b: Builder) {
    c.At? && c.blk == b.cur && b.cur < |b.blocks| && c.ip == |b.blocks[b.cur].insts|
  }

  /** The next instruction is the one about to be emitted. */
  lemma NextInst(g: Graph, b: Builder, i: Inst, c: Config)
    requires Here(c, b) && Extends(g, Emit(b, i))
    ensures c.blk < |g| && c.ip < |g[c.blk].insts| && g[c.blk].insts[c.ip] == i
    ensures Here(c.(ip := c.ip + 1), Emit(b, i)) && Extends(g, b)
  {
    var d := Emit(b, i);
    assert d.blocks[b.cur].insts[c.ip] == i;
    FrameSelf(b);
    FrameEmit(b, b, i);
    ExtendsBack(g, b, d);
  }

  /** Values below `lo` are as they were. */
  ghost predicate Kept(env: Env, env': Env, lo: nat) {
    forall k :: k in env && k < lo ==> k in env' && env'[k] == env[k]
  }

  /** The translated values are there, and the value of a scalar is the right one. */
  ghost predicate Holds(e: Ir.Expr, vals: seq<ValueId>, v: Val, env: Env) {
    Defined(env, vals) && (Ir.IsScalar(Ir.Typ(e)) ==> |vals| == 1 && env[vals[0]] == v)
  }

  /** After `n` steps from `c` the code of `e` has done what `r` says. */
  ghost predicate Does(g: Graph, e: Ir.Expr, code: Code, c: Config, r: Result<Ir.Slots>, fuel: nat, lo: nat, n: nat)
    requires c.At?
  {
    var d := Run(g, c, n);
    match r
    case Done(v, s) => Here(d, code.0) && d.vars == s && Kept(c.env, d.env, lo) && Holds(e, code.1, v, d.env)
    case Trapped => d == Trap
    case OutOfFuel => n >= fuel && d.At?
    case Wrong => d == Stuck
  }

  /** Slot `i` lives in machine variable `i`. */
  ghost predicate Identity(locals: seq<Ir.VarStore>, offsets: seq<nat>) {
    && |locals| <= |offsets|
    && forall i :: 0 <= i < |locals| ==> offsets[i] == i && Ir.IsScalar(locals[i].ty)
  }

  lemma {:induction false} ScalarOffsets(locals: seq<Ir.VarStore>)
    requires forall i :: 0 <= i < |locals| ==> Ir.IsScalar(locals[i].ty)
    ensures Identity(locals, Offsets(locals)) && Offsets(locals)[|locals|] == |locals|
  {
    if |locals| > 0 {
      var front := locals[..|locals| - 1];
      assert forall i :: 0 <= i < |front| ==> front[i] == locals[i];
      ScalarOffsets(front);
    }
  }

  /** Slots of any types never overlap: each starts where the ones before it end. */
  lemma {:induction false} OffsetsDisjoint(locals: seq<Ir.VarStore>, i: nat, j: nat)
    requires i < j < |locals|
    ensures Offsets(locals)[i] + TypeCount(locals[i].ty) <= Offsets(locals)[j]
    ensures Offsets(locals)[j] + TypeCount(locals[j].ty) <= Offsets(locals)[|locals|]
    decreases |locals|
  {
    var front := locals[..|locals| - 1];
    if j < |front| { OffsetsDisjoint(front, i, j); }
    else if i + 1 < |front| { OffsetsDisjoint(front, i, |front| - 1); }
  }

  /** The setting of the simulation: well-typed code at the point where the machine stands. */
  ghost predicate Setting(g: Graph, e: Ir.Expr, locals: seq<Ir.VarStore>, offsets: seq<nat>, b: Builder, c: Config) {
    && Ir.WellTyped(e, locals) && PhiArmsYield(e) && Identity(locals, offsets)
    && Here(c, b) && Extends(g, Trans(e, offsets, b).0)
  }

  lemma OpcodeMeans(op: T.TKind, l: Val, r: Val)
    requires IsArithmetic(op) || IsComparison(op)
    ensures OpcodeOf(op).Some? && Execute(OpcodeOf(op).value, l, r) == Apply(op, l, r)
  {
  }

  // ----- stringing runs together

  lemma DoesAfter(g: Graph, e: Ir.Expr, code: Code, c: Config, d: Config, r: Result<Ir.Slots>, fuel: nat, lo: nat,
      lo': nat, m: nat, n: nat)
    requires c.At? && d.At? && Run(g, c, m) == d && Kept(c.env, d.env, lo) && lo <= lo'
    requires Does(g, e, code, d, r, fuel, lo', n)
    ensures Does(g, e, code, c, r, fuel, lo, m + n)
  {
    RunAdd(g, c, m, n);
  }

  /** A result that is not a value ends the enclosing expression alike. */
  lemma DoesFail(g: Graph, e: Ir.Expr, code: Code, e': Ir.Expr, code': Code, c: Config, r: Result<Ir.Slots>,
      fuel: nat, lo: nat, n: nat)
    requires c.At? && !r.Done? && Does(g, e, code, c, r, fuel, lo, n)
    ensures Does(g, e', code', c, r, fuel, lo, n)
  {
  }

  lemma Step1(g: Graph, c: Config)
    ensures Run(g, c, 1) == Step(g, c)
  {
    assert Run(g, Step(g, c), 0) == Step(g, c);
  }

  lemma RunThen(g: Graph, c: Config, m: nat)
    ensures Run(g, c, m + 1) == Step(g, Run(g, c, m))
  {
    RunAdd(g, c, m, 1);
    Step1(g, Run(g, c, m));
  }

  /** One emitted instruction that defines the value of `e`. */
  lemma ValueDoes(g: Graph, e: Ir.Expr, b: Builder, i: Inst, c: Config, v: Val, fuel: nat)
    requires Here(c, b) && Extends(g, EmitValue(b, i).0)
    requires c.blk < |g| && c.ip < |g[c.blk].insts| && g[c.blk].insts[c.ip] == i ==>
               Step(g, c) == At(c.blk, c.ip + 1, c.env[b.next := v], c.vars)
    ensures Does(g, e, EmitValue(b, i), c, Done(v, c.vars), fuel, b.next, 1)
  {
    assert Extends(g, Emit(b, i));
    NextInst(g, b, i, c);
    Step1(g, c);
  }

  // ----- the simulation

  lemma {:induction false} TransDoes(g: Graph, e: Ir.Expr, locals: seq<Ir.VarStore>, offsets: seq<nat>, b: Builder,
      c: Config, fuel: nat)
    returns (n: nat)
    requires Setting(g, e, locals, offsets, b, c)
    ensures Does(g, e, Trans(e, offsets, b), c, Ir.Eval(e, c.vars, fuel), fuel, b.next, n)
    decreases fuel, e, 1
  {
    hide Extends, Emit, EmitValue, Step;
    match e
    case Constant(k) =>
      n := 1;
      StepConst(g, c, b.next, k);
      ValueDoes(g, e, b, Const(b.next, k), c, k, fuel);
    case Variable(index, typ) =>
      n := 1;
      assert Ir.IsScalar(typ);
      if index in c.vars {
        StepUse(g, c, b.next, offsets[index]);
        ValueDoes(g, e, b, UseVar(b.next, offsets[index]), c, c.vars[index], fuel);
      } else {
        UnassignedSticks(g, b, offsets[index], c);
      }
    case Binary(left, op, right) => n := BinaryDoes(g, left, op, right, locals, offsets, b, c, fuel);
    case Block(exprs) => n := BlockDoes(g, exprs, locals, offsets, b, c, fuel);
    case If(_, _, _, _) => n := IfDoes(g, e, locals, offsets, b, c, fuel);
    case While(_, _) => n := WhileDoes(g, e, locals, offsets, b, c, fuel);
    case Assign(store, value) => n := AssignDoes(g, store, value, locals, offsets, b, c, fuel);
  }

  lemma StepConst(g: Graph, c: Config, res: ValueId, k: Val)
    requires c.At?
    ensures c.blk < |g| && c.ip < |g[c.blk].insts| && g[c.blk].insts[c.ip] == Const(res, k) ==>
      Step(g, c) == At(c.blk, c.ip + 1, c.env[res := k], c.vars)
  {
  }

  lemma StepUse(g: Graph, c: Config, res: ValueId, x: nat)
    requires c.At? && x in c.vars
    ensures c.blk < |g| && c.ip < |g[c.blk].insts| && g[c.blk].insts[c.ip] == UseVar(res, x) ==>
      Step(g, c) == At(c.blk, c.ip + 1, c.env[res := c.vars[x]], c.vars)
  {
  }

  /** Reading a variable that was never assigned sticks. */
  lemma UnassignedSticks(g: Graph, b: Builder, x: nat, c: Config)
    requires Here(c, b) && x !in c.vars && Extends(g, EmitValue(b, UseVar(b.next, x)).0)
    ensures Run(g, c, 1) == Stuck
  {
    assert Extends(g, Emit(b, UseVar(b.next, x)));
    NextInst(g, b, UseVar(b.next, x), c);
    Step1(g, c);
  }

  // ----- moving between blocks

  /** `n` steps lead from `c` to the running state `d` and keep the values below `lo`. */
  ghost predicate Reach(g: Graph, c: Config, d: Config, n: nat, lo: nat) {
    c.At? && d.At? && Run(g, c, n) == d && Kept(c.env, d.env, lo)
  }

  lemma ReachJoin(g: Graph, c: Config, d: Config, x: Config, m: nat, n: nat, lo: nat, lo': nat)
    requires Reach(g, c, d, m, lo) && Reach(g, d, x, n, lo') && lo <= lo'
    ensures Reach(g, c, x, m + n, lo)
  {
    RunAdd(g, c, m, n);
  }

  /** Blocks that take no parameters. */
  ghost predicate Plain(g: Graph, blk: BlockId) {
    blk < |g| && g[blk].params == []
  }

  lemma BranchStep(g: Graph, b: Builder, v: ValueId, no: BlockId, yes: BlockId, c: Config, lo: nat) returns (n: nat)
    requires Here(c, b) && Extends(g, Emit(Emit(b, Brz(v, no, [])), Jump(yes, [])))
    requires v in c.env && c.env[v].Bool? && Plain(g, no) && Plain(g, yes)
    ensures n > 0 && Reach(g, c, At(if c.env[v].b then yes else no, 0, c.env, c.vars), n, lo)
  {
    hide Extends;
    var b1 := Emit(b, Brz(v, no, []));
    assert Here(c.(ip := c.ip + 1), b1) ==> Extends(g, b1) by {
      if Here(c.(ip := c.ip + 1), b1) { NextInst(g, b1, Jump(yes, []), c.(ip := c.ip + 1)); }
    }
    EmitHere(b, Brz(v, no, []), c);
    NextInst(g, b, Brz(v, no, []), c);
    Step1(g, c);
    n := 1;
    if c.env[v].b {
      var d := c.(ip := c.ip + 1);
      NextInst(g, b1, Jump(yes, []), d);
      RunThen(g, c, 1);
      n := 2;
    }
  }

  /** A branch on a value that is no truth value sticks. */
  lemma BranchSticks(g: Graph, b: Builder, v: ValueId, no: BlockId, yes: BlockId, c: Config)
    requires Here(c, b) && Extends(g, Emit(Emit(b, Brz(v, no, [])), Jump(yes, [])))
    requires v in c.env && !c.env[v].Bool?
    ensures Run(g, c, 1) == Stuck
  {
    hide Extends;
    EmitHere(b, Brz(v, no, []), c);
    NextInst(g, Emit(b, Brz(v, no, [])), Jump(yes, []), c.(ip := c.ip + 1));
    NextInst(g, b, Brz(v, no, []), c);
    Step1(g, c);
  }

  lemma EmitHere(b: Builder, i: Inst, c: Config)
    requires Here(c, b)
    ensures Here(c.(ip := c.ip + 1), Emit(b, i))
  {
  }

  lemma JumpStep(g: Graph, b: Builder, dest: BlockId, args: seq<ValueId>, c: Config)
    requires Here(c, b) && Extends(g, Emit(b, Jump(dest, args)))
    requires dest < |g| && |args| == |g[dest].params| && Defined(c.env, args)
    ensures Run(g, c, 1) == At(dest, 0, Bind(c.env, g[dest].params, Read(c.env, args)), c.vars)
  {
    NextInst(g, b, Jump(dest, args), c);
    Step1(g, c);
  }

  lemma PlainJump(g: Graph, b: Builder, dest: BlockId, c: Config, lo: nat)
    requires Here(c, b) && Extends(g, Emit(b, Jump(dest, []))) && Plain(g, dest)
    ensures Reach(g, c, At(dest, 0, c.env, c.vars), 1, lo)
  {
    JumpStep(g, b, dest, [], c);
  }

  /** The value of a block in a graph that extends a builder. */
  lemma ExtendsAt(g: Graph, b: Builder, blk: BlockId)
    requires Extends(g, b) && blk < |b.blocks|
    ensures blk < |g| && g[blk].params == b.blocks[blk].params
  {
  }

  // ----- the cases

  lemma {:induction false} BinaryDoes(
    g: Graph, left: Ir.Expr, op: T.TKind, right: Ir.Expr, locals: seq<Ir.VarStore>, offsets: seq<nat>, b: Builder,
    c: Config, fuel: nat)
    returns (n: nat)
    requires Setting(g, Ir.Binary(left, op, right), locals, offsets, b, c)
    ensures var e := Ir.Binary(left, op, right);
      Does(g, e, Trans(e, offsets, b), c, Ir.Eval(e, c.vars, fuel), fuel, b.next, n)
    decreases fuel, Ir.Binary(left, op, right), 0
  {
    hide Extends, Emit, EmitValue, OpcodeOf, Frame, IsArithmetic, IsComparison, Holds, Kept, First, Apply, Execute;
    var e := Ir.Binary(left, op, right);
    var l, r := BinaryStages(g, left, op, right, locals, offsets, b, c);
    n := TransDoes(g, left, locals, offsets, b, c, fuel);
    var lr := Ir.Eval(left, c.vars, fuel);
    if lr.Done? {
      var d := Run(g, c, n);
      var m := TransDoes(g, right, locals, offsets, l.0, d, fuel);
      var rr := Ir.Eval(right, lr.state, fuel);
      if rr.Done? {
        RunAdd(g, c, n, m);
        BinaryLast(g, left, op, right, l, r, c, d, Run(g, d, m), lr.v, rr.v, fuel, b.next, n + m);
        n := n + m + 1;
      } else {
        DoesFail(g, right, r, e, Trans(e, offsets, b), d, rr, fuel, l.0.next, m);
        DoesAfter(g, e, Trans(e, offsets, b), c, d, rr, fuel, b.next, l.0.next, n, m);
        n := n + m;
      }
    } else {
      DoesFail(g, left, l, e, Trans(e, offsets, b), c, lr, fuel, b.next, n);
    }
  }

  /** The code of both operands is in the graph, and both yield one value. */
  lemma {:induction false} BinaryStages(
    g: Graph, left: Ir.Expr, op: T.TKind, right: Ir.Expr, locals: seq<Ir.VarStore>, offsets: seq<nat>, b: Builder,
    c: Config)
    returns (l: Code, r: Code)
    requires Setting(g, Ir.Binary(left, op, right), locals, offsets, b, c)
    ensures l == Trans(left, offsets, b) && r == Trans(right, offsets, l.0)
    ensures Setting(g, left, locals, offsets, b, c) && Extends(g, r.0)
    ensures Ir.WellTyped(right, locals) && PhiArmsYield(right)
    ensures Ir.Typ(left) == Ir.Typ(right) == Ir.IntType && (IsArithmetic(op) || IsComparison(op))
    ensures |l.1| == |r.1| == 1 && l.1[0] < l.0.next && b.next <= l.0.next <= r.0.next
    ensures OpcodeOf(op).Some?
    ensures Trans(Ir.Binary(left, op, right), offsets, b)
      == EmitValue(r.0, Bin(r.0.next, OpcodeOf(op).value, l.1[0], r.1[0]))
  {
    hide Extends, Emit, EmitValue, OpcodeOf, Frame, IsArithmetic, IsComparison, First, Here;
    assert b.cur < |b.blocks| by { assert Here(c, b); HereCur(c, b); }
    l := Trans(left, offsets, b);
    TransFrame(left, offsets, b);
    FrameCur(b, l.0);
    Sealing.FirstExists(left, locals, offsets, b);
    r := Trans(right, offsets, l.0);
    TransFrame(right, offsets, l.0);
    FrameCur(l.0, r.0);
    Sealing.FirstExists(right, locals, offsets, l.0);
    OpcodeExists(op);
    var bin := Bin(r.0.next, OpcodeOf(op).value, l.1[0], r.1[0]);
    FrameSelf(r.0);
    FrameValue(r.0, r.0, bin);
    ExtendsBack(g, r.0, EmitValue(r.0, bin).0);
    ExtendsBack(g, l.0, r.0);
  }

  lemma HereCur(c: Config, b: Builder)
    requires Here(c, b)
    ensures b.cur < |b.blocks| && c.At?
  {
  }

  lemma BinaryLast(
    g: Graph, left: Ir.Expr, op: T.TKind, right: Ir.Expr, l: Code, r: Code, c: Config, d: Config, x: Config, lv: Val,
    rv: Val, fuel: nat, lo: nat, n: nat)
    requires (IsArithmetic(op) || IsComparison(op)) && OpcodeOf(op).Some?
    requires |l.1| == |r.1| == 1 && l.1[0] < l.0.next && lo <= l.0.next <= r.0.next
    requires Ir.Typ(left) == Ir.Typ(right) == Ir.IntType
    requires c.At? && d.At? && Kept(c.env, d.env, lo) && Holds(left, l.1, lv, d.env)
    requires Here(x, r.0) && Kept(d.env, x.env, l.0.next) && Holds(right, r.1, rv, x.env)
    requires Run(g, c, n) == x
    requires var code := EmitValue(r.0, Bin(r.0.next, OpcodeOf(op).value, l.1[0], r.1[0])); Extends(g, code.0)
    ensures var code := EmitValue(r.0, Bin(r.0.next, OpcodeOf(op).value, l.1[0], r.1[0]));
      Does(g, Ir.Binary(left, op, right), code, c, Finish(Apply(op, lv, rv), x.vars), fuel, lo, n + 1)
  {
    hide IsArithmetic, IsComparison, OpcodeOf, Apply, Execute;
    var bin := Bin(r.0.next, OpcodeOf(op).value, l.1[0], r.1[0]);
    OpcodeMeans(op, lv, rv);
    assert Extends(g, Emit(r.0, bin));
    NextInst(g, r.0, bin, x);
    RunThen(g, c, n);
  }

  lemma {:induction false} AssignDoes(
    g: Graph, store: Ir.Expr, value: Ir.Expr, locals: seq<Ir.VarStore>, offsets: seq<nat>, b: Builder, c: Config,
    fuel: nat)
    returns (n: nat)
    requires Setting(g, Ir.Assign(store, value), locals, offsets, b, c)
    ensures var e := Ir.Assign(store, value);
      Does(g, e, Trans(e, offsets, b), c, Ir.Eval(e, c.vars, fuel), fuel, b.next, n)
    decreases fuel, Ir.Assign(store, value), 0
  {
    hide Extends, Emit, Frame, First, Here, Does;
    HereCur(c, b);
    var v := Trans(value, offsets, b);
    AssignStages(g, store, value, locals, offsets, b, c);
    n := TransDoes(g, value, locals, offsets, b, c, fuel);
    n := AssignLast(g, store, value, v, c, Ir.Eval(value, c.vars, fuel), fuel, b.next, n);
  }

  lemma {:induction false} AssignStages(
    g: Graph, store: Ir.Expr, value: Ir.Expr, locals: seq<Ir.VarStore>, offsets: seq<nat>, b: Builder, c: Config)
    requires Setting(g, Ir.Assign(store, value), locals, offsets, b, c)
    ensures Setting(g, value, locals, offsets, b, c) && store.Variable? && Ir.IsScalar(Ir.Typ(value))
    ensures var v := Trans(value, offsets, b);
      |v.1| == 1 && Trans(Ir.Assign(store, value), offsets, b) == (Emit(v.0, DefVar(store.index, v.1[0])), v.1)
  {
    hide Extends, Emit, Frame, First;
    assert Ir.WellTyped(store, locals);
    TransFrame(value, offsets, b);
    Sealing.FirstExists(value, locals, offsets, b);
    var v := Trans(value, offsets, b);
    FrameCur(b, v.0);
    var def := DefVar(store.index, v.1[0]);
    FrameSelf(v.0);
    FrameEmit(v.0, v.0, def);
    ExtendsBack(g, v.0, Emit(v.0, def));
  }

  /** From the end of the assigned value to the assigned variable. */
  lemma AssignLast(
    g: Graph, store: Ir.Expr, value: Ir.Expr, v: Code, c: Config, r: Result<Ir.Slots>, fuel: nat, lo: nat, m: nat)
    returns (n: nat)
    requires c.At? && store.Variable? && Ir.IsScalar(Ir.Typ(value)) && |v.1| == 1
    requires Does(g, value, v, c, r, fuel, lo, m)
    requires Extends(g, Emit(v.0, DefVar(store.index, v.1[0])))
    ensures var res := if r.Done? then Done(r.v, r.state[store.index := r.v]) else r;
      Does(g, Ir.Assign(store, value), (Emit(v.0, DefVar(store.index, v.1[0])), v.1), c, res, fuel, lo, n)
  {
    hide Extends;
    n := m;
    if r.Done? {
      NextInst(g, v.0, DefVar(store.index, v.1[0]), Run(g, c, m));
      RunThen(g, c, m);
      n := m + 1;
    }
  }

  lemma {:induction false} BlockDoes(
    g: Graph, exprs: seq<Ir.Expr>, locals: seq<Ir.VarStore>, offsets: seq<nat>, b: Builder, c: Config, fuel: nat)
    returns (n: nat)
    requires forall i :: 0 <= i < |exprs| ==> Ir.WellTyped(exprs[i], locals) && PhiArmsYield(exprs[i])
    requires Identity(locals, offsets) && Here(c, b) && Extends(g, TransBlock(exprs, offsets, b).0)
    ensures var r := Ir.EvalBlock(exprs, c.vars, fuel);
      Does(g, Ir.Block(exprs), TransBlock(exprs, offsets, b), c, r, fuel, b.next, n)
    decreases fuel, exprs, 0
  {
    hide Extends, Frame, Kept, Here, Identity, Trans, PhiArmsYield, Ir.WellTyped;
    HereCur(c, b);
    n := 0;
    if |exprs| == 0 {
      assert Kept(c.env, c.env, b.next) by { KeptSelf(c.env, b.next); }
    } else {
      var front, last := exprs[..|exprs| - 1], exprs[|exprs| - 1];
      BlockFrame(front, offsets, b);
      var f := TransBlock(front, offsets, b);
      FrameCur(b, f.0);
      TransFrame(last, offsets, f.0);
      var l := Trans(last, offsets, f.0);
      ExtendsBack(g, f.0, l.0);
      n := BlockDoes(g, front, locals, offsets, b, c, fuel);
      var r := Ir.EvalBlock(front, c.vars, fuel);
      if r.Done? {
        var d := Run(g, c, n);
        HereCur(d, f.0);
        var m := TransDoes(g, last, locals, offsets, f.0, d, fuel);
        DoesAfter(g, last, l, c, d, Ir.Eval(last, r.state, fuel), fuel, b.next, f.0.next, n, m);
        n := n + m;
      }
    }
  }

  lemma KeptSelf(env: Env, lo: nat)
    ensures Kept(env, env, lo)
  {
  }

  // ----- conditionals

  /** What an arm achieves: control is in the continuation, whose parameter holds the value of the arm. */
  ghost predicate ArmDone(g: Graph, e: Ir.Expr, phi: bool, cont: BlockId, c: Config, r: Result<Ir.Slots>, fuel: nat,
      lo: nat, n: nat)
    requires c.At? && cont < |g|
  {
    var d := Run(g, c, n);
    match r
    case Done(v, s) =>
      && Reach(g, c, d, n, lo) && d.blk == cont && d.ip == 0 && d.vars == s && Defined(d.env, g[cont].params)
      && (phi && Ir.IsScalar(Ir.Typ(e)) ==> |g[cont].params| == 1 && d.env[g[cont].params[0]] == v)
    case Trapped => d == Trap
    case OutOfFuel => n >= fuel && d.At?
    case Wrong => d == Stuck
  }

  lemma BindOne(env: Env, params: seq<ValueId>, vals: seq<Val>, lo: nat)
    requires |params| == |vals| <= 1 && forall k :: 0 <= k < |params| ==> lo <= params[k]
    ensures Kept(env, Bind(env, params, vals), lo) && Defined(Bind(env, params, vals), params)
    ensures |params| == 1 ==> Bind(env, params, vals)[params[0]] == vals[0]
  {
  }

  lemma {:induction false} ArmDoes(
    g: Graph, e: Ir.Expr, locals: seq<Ir.VarStore>, offsets: seq<nat>, b: Builder, blk: BlockId, cont: BlockId,
    phi: bool, c: Config, fuel: nat, lo: nat)
    returns (n: nat)
    requires Ir.WellTyped(e, locals) && PhiArmsYield(e) && Identity(locals, offsets) && (phi ==> !EndsInWhile(e))
    requires blk < |b.blocks| && b.blocks[blk].insts == [] && cont < |g|
    requires c.At? && c.blk == blk && c.ip == 0
    requires Extends(g, TransArm(e, offsets, b, blk, cont, phi))
    requires |g[cont].params| == (if phi then TypeCount(Ir.Typ(e)) else 0)
    requires lo <= b.next && forall k :: 0 <= k < |g[cont].params| ==> lo <= g[cont].params[k]
    ensures ArmDone(g, e, phi, cont, c, Ir.Eval(e, c.vars, fuel), fuel, lo, n)
    decreases fuel, e, 2
  {
    hide Extends, Emit, Frame, Kept, Identity, Here, ArmDone, Does;
    var b0 := Enter(b, blk);
    var code := Trans(e, offsets, b0);
    ArmStages(g, e, locals, offsets, b, blk, cont, phi);
    assert Here(c, b0) by { EnterHere(b, blk, c); }
    n := TransDoes(g, e, locals, offsets, b0, c, fuel);
    n := ArmLast(g, e, code, cont, phi, c, Ir.Eval(e, c.vars, fuel), fuel, lo, b0.next, n);
  }

  lemma EnterHere(b: Builder, blk: BlockId, c: Config)
    requires blk < |b.blocks| && b.blocks[blk].insts == [] && c.At? && c.blk == blk && c.ip == 0
    ensures Here(c, Enter(b, blk))
  {
  }

  /** The code of an arm is in the graph and yields what the continuation expects. */
  lemma {:induction false} ArmStages(
    g: Graph, e: Ir.Expr, locals: seq<Ir.VarStore>, offsets: seq<nat>, b: Builder, blk: BlockId, cont: BlockId,
    phi: bool)
    requires Ir.WellTyped(e, locals) && Identity(locals, offsets) && (phi ==> !EndsInWhile(e)) && blk < |b.blocks|
    requires Extends(g, TransArm(e, offsets, b, blk, cont, phi))
    ensures var code := Trans(e, offsets, Enter(b, blk));
      && Extends(g, code.0) && Extends(g, Emit(code.0, Jump(cont, if phi then code.1 else [])))
      && (phi ==> |code.1| == TypeCount(Ir.Typ(e)))
  {
    hide Extends, Emit, Frame, Identity;
    var b0 := Enter(b, blk);
    var code := Trans(e, offsets, b0);
    var args := if phi then code.1 else [];
    ArmFrame(e, offsets, b, blk, cont, phi);
    FrameCur(b0, code.0);
    FrameSelf(code.0);
    FrameEmit(code.0, code.0, Jump(cont, args));
    ExtendsBack(g, code.0, Emit(code.0, Jump(cont, args)));
    IdentityLength(locals, offsets);
    TransCount(e, locals, offsets, b0);
    CountAgrees(e, locals);
  }

  /** From the end of an arm to the continuation. */
  lemma ArmLast(
    g: Graph, e: Ir.Expr, code: Code, cont: BlockId, phi: bool, c: Config, r: Result<Ir.Slots>, fuel: nat, lo: nat,
    hi: nat, m: nat)
    returns (n: nat)
    requires c.At? && cont < |g| && Does(g, e, code, c, r, fuel, hi, m) && lo <= hi
    requires Extends(g, Emit(code.0, Jump(cont, if phi then code.1 else [])))
    requires |g[cont].params| == (if phi then TypeCount(Ir.Typ(e)) else 0) && (phi ==> |code.1| == TypeCount(Ir.Typ(e)))
    requires forall k :: 0 <= k < |g[cont].params| ==> lo <= g[cont].params[k]
    ensures ArmDone(g, e, phi, cont, c, r, fuel, lo, n)
  {
    hide Extends, Emit, Kept;
    n := m;
    if r.Done? {
      var d := Run(g, c, m);
      var args := if phi then code.1 else [];
      JumpStep(g, code.0, cont, args, d);
      BindOne(d.env, g[cont].params, Read(d.env, args), lo);
      var x := At(cont, 0, Bind(d.env, g[cont].params, Read(d.env, args)), d.vars);
      KeptLess(c.env, d.env, lo, hi);
      ReachJoin(g, c, d, x, m, 1, lo, lo);
      n := m + 1;
    }
  }

  lemma IdentityLength(locals: seq<Ir.VarStore>, offsets: seq<nat>)
    requires Identity(locals, offsets)
    ensures |locals| <= |offsets|
  {
  }

  lemma KeptLess(env: Env, env': Env, lo: nat, hi: nat)
    requires Kept(env, env', hi) && lo <= hi
    ensures Kept(env, env', lo)
  {
  }

  lemma {:induction false} IfDoes(
    g: Graph, e: Ir.Expr, locals: seq<Ir.VarStore>, offsets: seq<nat>, b: Builder, c: Config, fuel: nat)
    returns (n: nat)
    requires e.If? && Setting(g, e, locals, offsets, b, c)
    ensures Does(g, e, Trans(e, offsets, b), c, Ir.Eval(e, c.vars, fuel), fuel, b.next, n)
    decreases fuel, e, 0, 1
  {
    hide Extends, Emit, Frame, Kept, Identity, TransArm, BranchToArms, Trans, First, Here, ArmDone, Holds;
    HereCur(c, b);
    var code, thn, b1, b2, b3 := IfStages(e, offsets, b);
    IfExtends(g, b, code, b1, b2, b3, thn, e.phi, Ir.Typ(e.thn));
    n := TransDoes(g, e.cond, locals, offsets, b, c, fuel);
    var r := Ir.Eval(e.cond, c.vars, fuel);
    if !r.Done? {
      DoesFail(g, e.cond, code, e, Trans(e, offsets, b), c, r, fuel, b.next, n);
    } else {
      IdentityLength(locals, offsets);
      Sealing.FirstExists(e.cond, locals, offsets, b);
      DoesDone(g, e.cond, code, c, r, fuel, b.next, n);
      if r.v.Bool? {
        n := IfTakes(g, e, locals, offsets, b, code, thn, b1, b2, b3, c, r, fuel, n);
      } else {
        ArmsStick(g, code, e.phi, Ir.Typ(e.thn), Run(g, c, n));
        RunAdd(g, c, n, 1);
        n := n + 1;
      }
    }
  }

  /** From the end of the condition through the arm it chooses. */
  lemma {:induction false} IfTakes(
    g: Graph, e: Ir.Expr, locals: seq<Ir.VarStore>, offsets: seq<nat>, b: Builder,
    code: Code, thn: BlockId, b1: Builder, b2: Builder, b3: Builder, c: Config, r: Result<Ir.Slots>, fuel: nat, m: nat)
    returns (n: nat)
    requires e.If? && Ir.WellTyped(e, locals) && PhiArmsYield(e) && Identity(locals, offsets)
    requires thn == |code.0.blocks| && b1 == BranchToArms(code, e.phi, Ir.Typ(e.thn))
    requires b2 == TransArm(e.thn, offsets, b1, thn, thn + 2, e.phi)
    requires b3 == TransArm(e.els, offsets, b2, thn + 1, thn + 2, e.phi)
    requires ArmsReady(code.0, b1, e.phi, Ir.Typ(e.thn))
    requires |b2.blocks| >= thn + 3 && |b3.blocks| >= thn + 3
    requires b3.blocks[thn + 2] == b1.blocks[thn + 2] && b2.blocks[thn + 1] == NEW_BLOCK
    requires Trans(e, offsets, b) == (Enter(b3, thn + 2), b1.blocks[thn + 2].params)
    requires Extends(g, b3) && Extends(g, b2) && Extends(g, b1)
    requires thn + 2 < |g| && g[thn + 2].params == b1.blocks[thn + 2].params && Plain(g, thn) && Plain(g, thn + 1)
    requires b.next <= code.0.next <= b1.next <= b2.next
    requires c.At? && r == Ir.Eval(e.cond, c.vars, fuel) && r.Done? && r.v.Bool?
    requires var d := Run(g, c, m);
      && Here(d, code.0) && Reach(g, c, d, m, b.next) && d.vars == r.state
      && |code.1| == 1 && code.1[0] in d.env && d.env[code.1[0]] == r.v
    ensures Does(g, e, Trans(e, offsets, b), c, Ir.Eval(e, c.vars, fuel), fuel, b.next, n)
    decreases fuel, e, 0, 0
  {
    hide Extends, Emit, Frame, Kept, Identity, TransArm, BranchToArms, Trans, First, Here, ArmDone, Holds, Does;
    var d := Run(g, c, m);
    var k := ArmsStep(g, code, e.phi, Ir.Typ(e.thn), d, b.next);
    var x := At(if r.v.b then thn else thn + 1, 0, d.env, d.vars);
    ReachJoin(g, c, d, x, m, k, b.next, b.next);
    var l;
    if r.v.b {
      l := ArmDoes(g, e.thn, locals, offsets, b1, thn, thn + 2, e.phi, x, fuel, b.next);
    } else {
      l := ArmDoes(g, e.els, locals, offsets, b2, thn + 1, thn + 2, e.phi, x, fuel, b.next);
    }
    var arm := Ir.Eval(if r.v.b then e.thn else e.els, x.vars, fuel);
    IfLast(g, e, r.v.b, b1, b3, thn, c, x, arm, fuel, b.next, m + k, l);
    n := m + k + l;
  }

  lemma DoesDone(g: Graph, e: Ir.Expr, code: Code, c: Config, r: Result<Ir.Slots>, fuel: nat, lo: nat, n: nat)
    requires c.At? && r.Done? && Does(g, e, code, c, r, fuel, lo, n) && Ir.IsScalar(Ir.Typ(e))
    ensures var d := Run(g, c, n);
      && Here(d, code.0) && Reach(g, c, d, n, lo) && d.vars == r.state
      && |code.1| == 1 && code.1[0] in d.env && d.env[code.1[0]] == r.v
  {
  }

  /** Every stage of a conditional is in the graph. */
  lemma IfExtends(g: Graph, b: Builder, code: Code, b1: Builder, b2: Builder, b3: Builder, thn: BlockId, phi: bool,
      t: Ir.Type)
    requires thn == |code.0.blocks| && Frame(b, code.0) && ArmsReady(code.0, b1, phi, t)
    requires Frame(Enter(b1, thn), b2) && Frame(Enter(b2, thn + 1), b3)
    requires b3.blocks[thn + 2] == b1.blocks[thn + 2] && Extends(g, Enter(b3, thn + 2))
    ensures Extends(g, b3) && Extends(g, b2) && Extends(g, b1) && Extends(g, code.0)
    ensures thn + 2 < |g| && g[thn + 2].params == b1.blocks[thn + 2].params
    ensures Plain(g, thn) && Plain(g, thn + 1)
    ensures thn + 3 <= |b2.blocks| <= |b3.blocks|
    ensures b.next <= code.0.next <= b1.next <= b2.next
  {
    hide Extends;
    ExtendsEnter(g, b3, thn + 2);
    ExtendsBack(g, Enter(b2, thn + 1), b3);
    ExtendsEnter(g, b2, thn + 1);
    ExtendsBack(g, Enter(b1, thn), b2);
    ExtendsEnter(g, b1, thn);
    ExtendsBack(g, code.0, b1);
    ExtendsAt(g, b1, thn);
    ExtendsAt(g, b1, thn + 1);
    ExtendsAt(g, b1, thn + 2);
  }

  lemma ArmsStep(g: Graph, code: Code, phi: bool, t: Ir.Type, d: Config, lo: nat) returns (n: nat)
    requires Here(d, code.0) && |code.1| == 1 && code.1[0] in d.env && d.env[code.1[0]].Bool?
    requires Extends(g, BranchToArms(code, phi, t))
    requires Plain(g, |code.0.blocks|) && Plain(g, |code.0.blocks| + 1)
    ensures var thn := |code.0.blocks|;
      Reach(g, d, At(if d.env[code.1[0]].b then thn else thn + 1, 0, d.env, d.vars), n, lo)
  {
    hide Extends;
    var thn := |code.0.blocks|;
    var b := SetContParams(CreateBlock(CreateBlock(CreateBlock(code.0))), phi, thn + 2, t);
    n := BranchStep(g, b, code.1[0], thn + 1, thn, d, lo);
  }

  lemma ArmsStick(g: Graph, code: Code, phi: bool, t: Ir.Type, d: Config)
    requires Here(d, code.0) && |code.1| == 1 && code.1[0] in d.env && !d.env[code.1[0]].Bool?
    requires Extends(g, BranchToArms(code, phi, t))
    ensures Run(g, d, 1) == Stuck
  {
    hide Extends;
    var thn := |code.0.blocks|;
    var b := SetContParams(CreateBlock(CreateBlock(CreateBlock(code.0))), phi, thn + 2, t);
    BranchSticks(g, b, code.1[0], thn + 1, thn, d);
  }

  lemma IfLast(
    g: Graph, e: Ir.Expr, yes: bool, b1: Builder, b3: Builder, thn: BlockId, c: Config, x: Config,
    r: Result<Ir.Slots>, fuel: nat, lo: nat, n: nat, k: nat)
    requires e.If? && thn + 2 < |b1.blocks| && thn + 2 < |b3.blocks| && b3.blocks[thn + 2] == b1.blocks[thn + 2]
    requires thn + 2 < |g| && g[thn + 2].params == b1.blocks[thn + 2].params && b1.blocks[thn + 2].insts == []
    requires Reach(g, c, x, n, lo) && (e.phi ==> Ir.Typ(e.thn) == Ir.Typ(e.els))
    requires ArmDone(g, if yes then e.thn else e.els, e.phi, thn + 2, x, r, fuel, lo, k)
    ensures var code := (Enter(b3, thn + 2), b1.blocks[thn + 2].params);
      var res := if r.Done? then Done(if e.phi then r.v else Unit, r.state) else r;
      Does(g, e, code, c, res, fuel, lo, n + k)
  {
    hide Extends;
    RunAdd(g, c, n, k);
  }

  // ----- loops

  /** What a loop entered at its head achieves. */
  ghost predicate LoopDone(g: Graph, cont: BlockId, c: Config, r: Result<Ir.Slots>, fuel: nat, lo: nat, n: nat)
    requires c.At?
  {
    var d := Run(g, c, n);
    match r
    case Done(_, s) => Reach(g, c, d, n, lo) && d.blk == cont && d.ip == 0 && d.vars == s
    case Trapped => d == Trap
    case OutOfFuel => n >= fuel && d.At?
    case Wrong => d == Stuck
  }

  /** The stages of a loop are in the graph. */
  ghost predicate LoopIn(g: Graph, e: Ir.Expr, offsets: seq<nat>, b: Builder, code: Code, b2: Builder, b3: Builder)
    requires e.While?
  {
    var head := |b.blocks|;
    && LoopReady(b, LoopStart(b)) && b.next <= code.0.next <= b2.next
    && code == Trans(e.cond, offsets, LoopStart(b)) && b2 == LoopTest(code, head)
    && head + 2 < |b2.blocks| && b2.blocks[head + 1] == NEW_BLOCK
    && b3 == Emit(Trans(e.body, offsets, Enter(b2, head + 1)).0, Jump(head, []))
    && Extends(g, code.0) && Extends(g, b2) && Extends(g, b3)
    && Extends(g, Trans(e.body, offsets, Enter(b2, head + 1)).0)
    && Plain(g, head) && Plain(g, head + 1) && Plain(g, head + 2)
  }

  lemma {:induction false} LoopStages(g: Graph, e: Ir.Expr, offsets: seq<nat>, b: Builder)
    returns (code: Code, b2: Builder, b3: Builder)
    requires e.While? && b.cur < |b.blocks| && Extends(g, Trans(e, offsets, b).0)
    ensures LoopIn(g, e, offsets, b, code, b2, b3) && Extends(g, LoopStart(b))
    ensures Trans(e, offsets, b) == LoopEnd(b3, |b.blocks|)
    ensures |b.blocks| + 2 < |b3.blocks| && b3.blocks[|b.blocks| + 2] == NEW_BLOCK && b.next <= b3.next
  {
    hide Extends, Frame, LoopStart, LoopTest, LoopEnd, Emit, Trans, First;
    var head := |b.blocks|;
    code, b2, b3 := WhileStages(e, offsets, b);
    var b1 := LoopStart(b);
    LoopEndExtends(g, b3, head);
    FrameCur(b1, code.0);
    LoopTestFrame(b1, code, head);
    FrameSelf(code.0);
    LoopTestFrame(code.0, code, head);
    var b2' := Enter(b2, head + 1);
    FrameCur(b2', b3);
    ExtendsBack(g, b2', b3);
    ExtendsEnter(g, b2, head + 1);
    ExtendsBack(g, code.0, b2);
    ExtendsBack(g, b1, code.0);
    var d := Trans(e.body, offsets, b2').0;
    FrameCur(b2', d);
    FrameSelf(d);
    FrameEmit(d, d, Jump(head, []));
    ExtendsBack(g, d, b3);
    ExtendsAt(g, b1, head);
    ExtendsAt(g, b1, head + 1);
    ExtendsAt(g, b1, head + 2);
  }

  lemma LoopEndExtends(g: Graph, b: Builder, head: BlockId)
    requires head + 2 < |b.blocks| && Extends(g, LoopEnd(b, head).0)
    ensures Extends(g, b)
  {
    var c := LoopEnd(b, head).0;
    assert forall i :: 0 <= i < |b.blocks| ==>
      c.blocks[i].params == b.blocks[i].params && b.blocks[i].insts <= c.blocks[i].insts;
  }

  /** One whole loop from its head, by induction on the fuel. */
  lemma {:induction false} LoopDoes(
    g: Graph, e: Ir.Expr, locals: seq<Ir.VarStore>, offsets: seq<nat>, b: Builder, code: Code, b2: Builder,
    b3: Builder, c: Config, fuel: nat)
    returns (n: nat)
    requires e.While? && Ir.WellTyped(e, locals) && PhiArmsYield(e) && Identity(locals, offsets)
    requires LoopIn(g, e, offsets, b, code, b2, b3)
    requires c.At? && c.blk == |b.blocks| && c.ip == 0
    ensures LoopDone(g, |b.blocks| + 2, c, Ir.Eval(e, c.vars, fuel), fuel, b.next, n)
    decreases fuel, e, 0, 0
  {
    hide Extends, Frame, LoopStart, LoopTest, Emit, Trans, First, Does, Kept, Identity;
    var head := |b.blocks|;
    n := 0;
    if fuel > 0 {
      IdentityLength(locals, offsets);
      n := TransDoes(g, e.cond, locals, offsets, LoopStart(b), c, fuel);
      var r := Ir.Eval(e.cond, c.vars, fuel);
      if !r.Done? {
        LoopFail(g, e.cond, code, c, r, fuel, b.next, n, head + 2);
      } else if !r.v.Bool? {
        DoesDone(g, e.cond, code, c, r, fuel, b.next, n);
        TestSticks(g, code, Run(g, c, n), head);
        RunAdd(g, c, n, 1);
        n := n + 1;
      } else {
        DoesDone(g, e.cond, code, c, r, fuel, b.next, n);
        var d := Run(g, c, n);
        var m := TestStep(g, code, d, b.next, head);
        var x := At(if r.v.b then head + 1 else head + 2, 0, d.env, d.vars);
        ReachJoin(g, c, d, x, n, m, b.next, b.next);
        n := n + m;
        if r.v.b {
          var k := BodyDoes(g, e, locals, offsets, b, code, b2, b3, x, fuel);
          LoopAfter(g, c, x, Ir.Eval(e, c.vars, fuel), fuel, b.next, n, k, head + 2);
          n := n + k;
        }
      }
    }
  }

  lemma LoopFail(g: Graph, e: Ir.Expr, code: Code, c: Config, r: Result<Ir.Slots>, fuel: nat, lo: nat, n: nat,
      cont: BlockId)
    requires c.At? && !r.Done? && Does(g, e, code, c, r, fuel, lo, n)
    ensures LoopDone(g, cont, c, r, fuel, lo, n)
  {
  }

  /** A loop that still has to go on after at least one step. */
  lemma LoopAfter(g: Graph, c: Config, x: Config, r: Result<Ir.Slots>, fuel: nat, lo: nat, m: nat, n: nat,
      cont: BlockId)
    requires Reach(g, c, x, m, lo) && m > 0 && fuel > 0 && LoopDone(g, cont, x, r, fuel - 1, lo, n)
    ensures LoopDone(g, cont, c, r, fuel, lo, m + n)
  {
    RunAdd(g, c, m, n);
  }

  lemma TestStep(g: Graph, code: Code, d: Config, lo: nat, head: BlockId) returns (n: nat)
    requires Here(d, code.0) && |code.1| == 1 && code.1[0] in d.env && d.env[code.1[0]].Bool?
    requires Extends(g, LoopTest(code, head)) && Plain(g, head + 1) && Plain(g, head + 2)
    ensures n > 0 && Reach(g, d, At(if d.env[code.1[0]].b then head + 1 else head + 2, 0, d.env, d.vars), n, lo)
  {
    hide Extends;
    n := BranchStep(g, code.0, code.1[0], head + 2, head + 1, d, lo);
  }

  lemma TestSticks(g: Graph, code: Code, d: Config, head: BlockId)
    requires Here(d, code.0) && |code.1| == 1 && code.1[0] in d.env && !d.env[code.1[0]].Bool?
    requires Extends(g, LoopTest(code, head))
    ensures Run(g, d, 1) == Stuck
  {
    hide Extends;
    BranchSticks(g, code.0, code.1[0], head + 2, head + 1, d);
  }

  /** The body of a loop, the jump back, and the rest of the loop. */
  lemma {:induction false} BodyDoes(
    g: Graph, e: Ir.Expr, locals: seq<Ir.VarStore>, offsets: seq<nat>, b: Builder, code: Code, b2: Builder,
    b3: Builder, c: Config, fuel: nat)
    returns (n: nat)
    requires e.While? && Ir.WellTyped(e, locals) && PhiArmsYield(e) && Identity(locals, offsets) && fuel > 0
    requires LoopIn(g, e, offsets, b, code, b2, b3)
    requires c.At? && c.blk == |b.blocks| + 1 && c.ip == 0
    ensures var r := Ir.Eval(e.body, c.vars, fuel);
      LoopDone(g, |b.blocks| + 2, c, if r.Done? then Ir.Eval(e, r.state, fuel - 1) else r, fuel - 1, b.next, n)
    decreases fuel, e.body, 2
  {
    hide Extends, Frame, LoopStart, LoopTest, Emit, Trans, First, Kept, Identity;
    var head := |b.blocks|;
    var b2' := Enter(b2, head + 1);
    n := TransDoes(g, e.body, locals, offsets, b2', c, fuel);
    var r := Ir.Eval(e.body, c.vars, fuel);
    if r.Done? {
      var d := Run(g, c, n);
      KeptLess(c.env, d.env, b.next, b2'.next);
      PlainJump(g, Trans(e.body, offsets, b2').0, head, d, b.next);
      var x := At(head, 0, d.env, d.vars);
      ReachJoin(g, c, d, x, n, 1, b.next, b.next);
      var k := LoopDoes(g, e, locals, offsets, b, code, b2, b3, x, fuel - 1);
      LoopWeaken(g, c, x, Ir.Eval(e, r.state, fuel - 1), fuel - 1, b.next, n + 1, k, head + 2);
      n := n + 1 + k;
    }
  }

  lemma LoopWeaken(g: Graph, c: Config, x: Config, r: Result<Ir.Slots>, fuel: nat, lo: nat, m: nat, n: nat,
      cont: BlockId)
    requires Reach(g, c, x, m, lo) && LoopDone(g, cont, x, r, fuel, lo, n)
    ensures LoopDone(g, cont, c, r, fuel, lo, m + n)
  {
    RunAdd(g, c, m, n);
  }

  lemma {:induction false} WhileDoes(
    g: Graph, e: Ir.Expr, locals: seq<Ir.VarStore>, offsets: seq<nat>, b: Builder, c: Config, fuel: nat)
    returns (n: nat)
    requires e.While? && Setting(g, e, locals, offsets, b, c)
    ensures Does(g, e, Trans(e, offsets, b), c, Ir.Eval(e, c.vars, fuel), fuel, b.next, n)
    decreases fuel, e, 0, 1
  {
    hide Extends, Frame, LoopStart, LoopTest, LoopEnd, Emit, Trans, First, Here, LoopIn, Does, LoopDone, Identity;
    HereCur(c, b);
    var head := |b.blocks|;
    var code, b2, b3 := LoopStages(g, e, offsets, b);
    LoopHeadPlain(g, e, offsets, b, code, b2, b3);
    LoopJump(g, b, c, b.next);
    var x := At(head, 0, c.env, c.vars);
    n := LoopDoes(g, e, locals, offsets, b, code, b2, b3, x, fuel);
    n := LoopLast(g, e, b3, head, c, x, Ir.Eval(e, c.vars, fuel), fuel, b.next, n);
  }

  lemma LoopHeadPlain(g: Graph, e: Ir.Expr, offsets: seq<nat>, b: Builder, code: Code, b2: Builder, b3: Builder)
    requires e.While? && LoopIn(g, e, offsets, b, code, b2, b3)
    ensures Plain(g, |b.blocks|)
  {
  }

  lemma LoopJump(g: Graph, b: Builder, c: Config, lo: nat)
    requires Here(c, b) && Extends(g, LoopStart(b)) && Plain(g, |b.blocks|)
    ensures Reach(g, c, At(|b.blocks|, 0, c.env, c.vars), 1, lo)
  {
    var b1 := CreateBlock(CreateBlock(CreateBlock(b)));
    assert Extends(g, Emit(b1, Jump(|b.blocks|, [])));
    PlainJump(g, b1, |b.blocks|, c, lo);
  }

  lemma LoopLast(
    g: Graph, e: Ir.Expr, b3: Builder, head: BlockId, c: Config, x: Config, r: Result<Ir.Slots>, fuel: nat, lo: nat,
    k: nat)
    returns (n: nat)
    requires e.While? && Reach(g, c, x, 1, lo) && LoopDone(g, head + 2, x, r, fuel, lo, k)
    requires head + 2 < |b3.blocks| && b3.blocks[head + 2] == NEW_BLOCK && lo <= b3.next
    requires Extends(g, LoopEnd(b3, head).0)
    ensures Does(g, e, LoopEnd(b3, head), c, r, fuel, lo, n)
  {
    hide Extends;
    n := 1 + k;
    RunAdd(g, c, 1, k);
    if r.Done? {
      var b := Seal(Seal(SwitchTo(b3, head + 2), head), head + 2);
      var d := Run(g, c, n);
      StepConst(g, d, b.next, Int(0));
      ValueDoes(g, Ir.Poison, b, Const(b.next, Int(0)), d, Int(0), fuel);
      RunAdd(g, c, n, 1);
      n := n + 1;
    }
  }
}
