/** How many machine values an expression yields, and when every branch passes as many as it should. */
module TranslatorArity {
  import opened Values
  import T = Tokens
  import Ir
  import opened Clif
  import opened Translator
  import opened TranslatorShape

  /** The number of values translation yields. A loop yields a dummy zero although its type is `Void`. */
  function ValueCount(e: Ir.Expr): nat {
    match e
    case Poison => 0
    case Binary(_, _, _) => 1
    case Constant(_) => 1
    case Block(exprs) => if |exprs| == 0 then 0 else ValueCount(exprs[|exprs| - 1])
    case If(_, thn, _, phi) => if phi then TypeCount(Ir.Typ(thn)) else 0
    case While(_, _) => 1
    case Variable(_, typ) => TypeCount(typ)
    case Assign(_, value) => ValueCount(value)
  }

  /** The expression in value position is a loop. */
  predicate EndsInWhile(e: Ir.Expr) {
    match e
    case While(_, _) => true
    case Block(exprs) => |exprs| > 0 && EndsInWhile(exprs[|exprs| - 1])
    case Assign(_, value) => EndsInWhile(value)
    case _ => false
  }

  /** No arm of a value-carrying conditional has a loop in value position. */
  predicate PhiArmsYield(e: Ir.Expr) {
    match e
    case Binary(left, _, right) => PhiArmsYield(left) && PhiArmsYield(right)
    case Block(exprs) => forall i :: 0 <= i < |exprs| ==> PhiArmsYield(exprs[i])
    case If(cond, thn, els, phi) =>
      && PhiArmsYield(cond) && PhiArmsYield(thn) && PhiArmsYield(els)
      && (phi ==> !EndsInWhile(thn) && !EndsInWhile(els))
    case While(cond, body) => PhiArmsYield(cond) && PhiArmsYield(body)
    case Assign(_, value) => PhiArmsYield(value)
    case _ => true
  }

  lemma {:induction false} LoopIsVoid(e: Ir.Expr)
    requires EndsInWhile(e)
    ensures Ir.Typ(e) == Ir.Void
  {
    match e
    case While(_, _) =>
    case Block(exprs) => LoopIsVoid(exprs[|exprs| - 1]);
    case Assign(_, value) => LoopIsVoid(value);
  }

  /** The number of values agrees with the type exactly when value position is not a loop. */
  lemma {:induction false} CountAgrees(e: Ir.Expr, locals: seq<Ir.VarStore>)
    requires Ir.WellTyped(e, locals)
    ensures ValueCount(e) == TypeCount(Ir.Typ(e)) <==> !EndsInWhile(e)
  {
    match e
    case Binary(_, _, _) =>
    case Constant(_) =>
    case Block(exprs) => if |exprs| > 0 { CountAgrees(exprs[|exprs| - 1], locals); }
    case If(_, _, _, _) =>
    case While(_, _) =>
    case Variable(_, _) =>
    case Assign(_, value) => CountAgrees(value, locals);
  }

  /** A scalar expression yields exactly one value. */
  lemma ScalarCount(e: Ir.Expr, locals: seq<Ir.VarStore>)
    requires Ir.WellTyped(e, locals) && Ir.IsScalar(Ir.Typ(e))
    ensures ValueCount(e) == 1
  {
    CountAgrees(e, locals);
    if EndsInWhile(e) { LoopIsVoid(e); }
  }

  lemma OpcodeExists(op: T.TKind)
    requires IsArithmetic(op) || IsComparison(op)
    ensures OpcodeOf(op).Some?
  {
  }

  lemma {:induction false} TransCount(e: Ir.Expr, locals: seq<Ir.VarStore>, offsets: seq<nat>, b: Builder)
    requires Ir.WellTyped(e, locals) && |locals| <= |offsets| && b.cur < |b.blocks|
    ensures |Trans(e, offsets, b).1| == ValueCount(e)
  {
    match e
    case Binary(_, op, _) => OpcodeExists(op);
    case Constant(_) =>
    case Block(exprs) =>
      if |exprs| > 0 {
        var front := exprs[..|exprs| - 1];
        BlockFrame(front, offsets, b);
        TransCount(exprs[|exprs| - 1], locals, offsets, TransBlock(front, offsets, b).0);
      }
    case If(_, _, _, _) => var c, thn, b1, b2, b3 := IfStages(e, offsets, b);
    case While(_, _) =>
    case Variable(_, _) =>
    case Assign(_, value) => TransCount(value, locals, offsets, b);
  }

  // ----- branches

  predicate IsBranch(i: Inst) {
    i.Brz? || i.Jump?
  }

  /** The function is still open: every branch has a target, and nothing returns yet. */
  ghost predicate InRange(b: Builder) {
    forall i, k :: 0 <= i < |b.blocks| && 0 <= k < |b.blocks[i].insts| ==>
      !b.blocks[i].insts[k].Return? && (IsBranch(b.blocks[i].insts[k]) ==> b.blocks[i].insts[k].dest < |b.blocks|)
  }

  /** Every branch passes as many arguments as its target has parameters. */
  ghost predicate BranchesMatch(b: Builder) {
    forall i, k :: 0 <= i < |b.blocks| && 0 <= k < |b.blocks[i].insts| && IsBranch(b.blocks[i].insts[k]) ==>
      var br := b.blocks[i].insts[k];
      br.dest < |b.blocks| && |br.args| == |b.blocks[br.dest].params|
  }

  /** Every return passes as many values as the signature has. */
  ghost predicate ReturnsMatch(b: Builder, count: nat) {
    forall i, k :: 0 <= i < |b.blocks| && 0 <= k < |b.blocks[i].insts| && b.blocks[i].insts[k].Return? ==>
      |b.blocks[i].insts[k].vals| == count
  }

  ghost predicate AritiesMatch(b: Builder, count: nat) {
    BranchesMatch(b) && ReturnsMatch(b, count)
  }

  /** From `b` to `c` the arities stay right exactly when `p` holds. */
  ghost predicate Iff(b: Builder, c: Builder, p: bool) {
    InRange(b) ==> InRange(c) && (BranchesMatch(c) <==> BranchesMatch(b) && p)
  }

  lemma IffJoin(a: Builder, b: Builder, c: Builder, p: bool, q: bool)
    requires Iff(a, b, p) && Iff(b, c, q)
    ensures Iff(a, c, p && q)
  {
    hide InRange, BranchesMatch;
  }

  /** Nothing but non-branches and block bookkeeping happened. */
  lemma IffSame(b: Builder, c: Builder)
    requires |b.blocks| == |c.blocks|
    requires forall i :: 0 <= i < |b.blocks| ==>
      c.blocks[i].insts == b.blocks[i].insts && c.blocks[i].params == b.blocks[i].params
    ensures Iff(b, c, true)
  {
  }

  lemma IffPlain(b: Builder, i: Inst)
    requires b.cur < |b.blocks| && !IsTerminator(i) && !IsBranch(i)
    ensures Iff(b, Emit(b, i), true)
  {
    var c := Emit(b, i);
    assert forall j, k :: 0 <= j < |b.blocks| && 0 <= k < |b.blocks[j].insts| ==>
      c.blocks[j].insts[k] == b.blocks[j].insts[k];
  }

  lemma IffBranch(b: Builder, i: Inst)
    requires b.cur < |b.blocks| && IsBranch(i) && i.dest < |b.blocks|
    ensures Iff(b, Emit(b, i), |i.args| == |b.blocks[i.dest].params|)
  {
    var c := Emit(b, i);
    assert forall j, k :: 0 <= j < |b.blocks| && 0 <= k < |b.blocks[j].insts| ==>
      c.blocks[j].insts[k] == b.blocks[j].insts[k];
    assert c.blocks[b.cur].insts[|b.blocks[b.cur].insts|] == i;
    assert forall j :: 0 <= j < |b.blocks| ==> c.blocks[j].params == b.blocks[j].params;
  }

  lemma IffCreate(b: Builder)
    ensures Iff(b, CreateBlock(b), true)
  {
    var c := CreateBlock(b);
    assert forall j :: 0 <= j < |b.blocks| ==> c.blocks[j] == b.blocks[j];
  }

  /** A parameter added to the newest block, to which nothing branches yet. */
  lemma IffParam(a: Builder, phi: bool, t: Ir.Type)
    ensures var b := CreateBlock(a); Iff(a, SetContParams(b, phi, |a.blocks|, t), true)
  {
    var b := CreateBlock(a);
    var c := SetContParams(b, phi, |a.blocks|, t);
    assert forall j :: 0 <= j < |a.blocks| ==> c.blocks[j] == a.blocks[j];
    assert c.blocks[|a.blocks|].insts == [];
  }

  lemma IffFirst(c: Code)
    ensures Iff(c.0, First(c).0, true)
  {
    IffSame(c.0, First(c).0);
  }

  lemma IffValue(b: Builder, i: Inst)
    requires b.cur < |b.blocks| && !IsTerminator(i) && !IsBranch(i)
    ensures Iff(b, EmitValue(b, i).0, true)
  {
    IffPlain(b, i);
    IffSame(Emit(b, i), EmitValue(b, i).0);
    IffJoin(b, Emit(b, i), EmitValue(b, i).0, true, true);
  }

  lemma IffEnter(b: Builder, blk: BlockId)
    requires blk < |b.blocks|
    ensures Iff(b, Enter(b, blk), true)
  {
    IffSame(b, Enter(b, blk));
  }

  lemma IffArms(c: Code, phi: bool, t: Ir.Type)
    requires c.0.cur < |c.0.blocks|
    ensures Iff(c.0, BranchToArms(c, phi, t), true)
  {
    hide Iff;
    var (b, v) := First(c);
    var n := |b.blocks|;
    IffFirst(c);
    var b1 := CreateBlock(b);
    var b2 := CreateBlock(b1);
    IffCreate(b);
    IffCreate(b1);
    IffParam(b2, phi, t);
    var b3 := SetContParams(CreateBlock(b2), phi, n + 2, t);
    IffBranch(b3, Brz(v, n + 1, []));
    var b4 := Emit(b3, Brz(v, n + 1, []));
    IffBranch(b4, Jump(n, []));
    IffJoin(c.0, b, b1, true, true);
    IffJoin(c.0, b1, b2, true, true);
    IffJoin(c.0, b2, b3, true, true);
    IffJoin(c.0, b3, b4, true, true);
    IffJoin(c.0, b4, Emit(b4, Jump(n, [])), true, true);
  }

  ghost predicate Ready(e: Ir.Expr, locals: seq<Ir.VarStore>, offsets: seq<nat>, b: Builder) {
    Ir.WellTyped(e, locals) && |locals| <= |offsets| && b.cur < |b.blocks|
  }

  /**
   Translation keeps every branch in step with its target exactly when no value-carrying arm ends
   in a loop.
   */
  lemma {:induction false} TransArities(e: Ir.Expr, locals: seq<Ir.VarStore>, offsets: seq<nat>, b: Builder)
    requires Ready(e, locals, offsets, b)
    ensures Iff(b, Trans(e, offsets, b).0, PhiArmsYield(e))
    decreases e, 1
  {
    hide Iff, Emit, EmitValue;
    match e
    case Binary(left, op, right) => BinaryArities(left, op, right, locals, offsets, b);
    case Constant(c) => IffValue(b, Const(b.next, c));
    case Block(exprs) => BlockArities(exprs, locals, offsets, b);
    case If(_, _, _, _) => IfArities(e, locals, offsets, b);
    case While(_, _) => WhileArities(e, locals, offsets, b);
    case Variable(index, _) =>
      IffSame(b, b);
      IffValue(b, UseVar(b.next, offsets[index]));
    case Assign(store, value) =>
      assert Ir.WellTyped(store, locals);
      TransArities(value, locals, offsets, b);
      TransFrame(value, offsets, b);
      var c := Trans(value, offsets, b);
      IffFirst(c);
      IffJoin(b, c.0, First(c).0, PhiArmsYield(value), true);
      IffPlain(First(c).0, DefVar(offsets[store.index], First(c).1));
      IffJoin(b, First(c).0, Emit(First(c).0, DefVar(offsets[store.index], First(c).1)), PhiArmsYield(value), true);
  }

  lemma {:induction false} BinaryArities(left: Ir.Expr, op: T.TKind, right: Ir.Expr, locals: seq<Ir.VarStore>,
      offsets: seq<nat>, b: Builder)
    requires Ready(Ir.Binary(left, op, right), locals, offsets, b)
    ensures Iff(b, Trans(Ir.Binary(left, op, right), offsets, b).0, PhiArmsYield(left) && PhiArmsYield(right))
    decreases Ir.Binary(left, op, right), 0
  {
    hide Iff, Emit, EmitValue, OpcodeOf, Frame, IsArithmetic, IsComparison;
    TransArities(left, locals, offsets, b);
    TransFrame(left, offsets, b);
    FrameCur(b, Trans(left, offsets, b).0);
    IffFirst(Trans(left, offsets, b));
    var (b1, l) := First(Trans(left, offsets, b));
    IffJoin(b, Trans(left, offsets, b).0, b1, PhiArmsYield(left), true);
    TransArities(right, locals, offsets, b1);
    TransFrame(right, offsets, b1);
    FrameCur(b1, Trans(right, offsets, b1).0);
    IffFirst(Trans(right, offsets, b1));
    var (b2, r) := First(Trans(right, offsets, b1));
    IffJoin(b1, Trans(right, offsets, b1).0, b2, PhiArmsYield(right), true);
    IffJoin(b, b1, b2, PhiArmsYield(left), PhiArmsYield(right));
    OpcodeExists(op);
    IffValue(b2, Bin(b2.next, OpcodeOf(op).value, l, r));
    var b3 := EmitValue(b2, Bin(b2.next, OpcodeOf(op).value, l, r)).0;
    IffJoin(b, b2, b3, PhiArmsYield(left) && PhiArmsYield(right), true);
  }

  lemma {:induction false} BlockArities(exprs: seq<Ir.Expr>, locals: seq<Ir.VarStore>, offsets: seq<nat>, b: Builder)
    requires forall i :: 0 <= i < |exprs| ==> Ir.WellTyped(exprs[i], locals)
    requires |locals| <= |offsets| && b.cur < |b.blocks|
    ensures Iff(b, TransBlock(exprs, offsets, b).0, forall i :: 0 <= i < |exprs| ==> PhiArmsYield(exprs[i]))
    decreases exprs, 0
  {
    hide Iff;
    if |exprs| == 0 {
      IffSame(b, b);
    } else {
      var front, last := exprs[..|exprs| - 1], exprs[|exprs| - 1];
      BlockArities(front, locals, offsets, b);
      BlockFrame(front, offsets, b);
      var b1 := TransBlock(front, offsets, b).0;
      TransArities(last, locals, offsets, b1);
      IffJoin(b, b1, Trans(last, offsets, b1).0, forall i :: 0 <= i < |front| ==> PhiArmsYield(front[i]),
          PhiArmsYield(last));
      assert exprs == front + [last];
    }
  }

  /** One arm: the jump to the continuation passes what the arm yields, or nothing without a phi. */
  lemma {:induction false} ArmArities(e: Ir.Expr, locals: seq<Ir.VarStore>, offsets: seq<nat>, b: Builder,
      blk: BlockId, cont: BlockId, phi: bool)
    requires Ir.WellTyped(e, locals) && |locals| <= |offsets|
    requires blk < |b.blocks| && cont < |b.blocks| && blk != cont
    requires |b.blocks[cont].params| == if phi then TypeCount(Ir.Typ(e)) else 0
    ensures Iff(b, TransArm(e, offsets, b, blk, cont, phi), PhiArmsYield(e) && (phi ==> !EndsInWhile(e)))
    decreases e, 2
  {
    hide Iff, Emit, Frame;
    var b0 := Enter(b, blk);
    IffEnter(b, blk);
    TransArities(e, locals, offsets, b0);
    TransFrame(e, offsets, b0);
    TransCount(e, locals, offsets, b0);
    CountAgrees(e, locals);
    var c := Trans(e, offsets, b0);
    FrameKeeps(b0, c.0, cont);
    FrameCur(b0, c.0);
    var jump := Jump(cont, if phi then c.1 else []);
    IffBranch(c.0, jump);
    IffJoin(b, b0, c.0, true, PhiArmsYield(e));
    IffJoin(b, c.0, Emit(c.0, jump), PhiArmsYield(e), phi ==> !EndsInWhile(e));
  }

  lemma {:induction false} IfArities(e: Ir.Expr, locals: seq<Ir.VarStore>, offsets: seq<nat>, b: Builder)
    requires e.If? && Ready(e, locals, offsets, b)
    ensures Iff(b, Trans(e, offsets, b).0, PhiArmsYield(e))
    decreases e, 0
  {
    hide Iff, Frame, TransArm, BranchToArms, Trans;
    var c, thn, b1, b2, b3 := IfStages(e, offsets, b);
    FrameCur(b, c.0);
    FrameCur(Enter(b1, thn), b2);
    FrameCur(Enter(b2, thn + 1), b3);
    var p := PhiArmsYield(e.cond);
    var q := PhiArmsYield(e.thn) && (e.phi ==> !EndsInWhile(e.thn));
    var r := PhiArmsYield(e.els) && (e.phi ==> !EndsInWhile(e.els));
    TransArities(e.cond, locals, offsets, b);
    IffArms(c, e.phi, Ir.Typ(e.thn));
    IffJoin(b, c.0, b1, p, true);
    ArmArities(e.thn, locals, offsets, b1, thn, thn + 2, e.phi);
    IffJoin(b, b1, b2, p, q);
    ArmArities(e.els, locals, offsets, b2, thn + 1, thn + 2, e.phi);
    IffJoin(b, b2, b3, p && q, r);
    IffEnter(b3, thn + 2);
    IffJoin(b, b3, Enter(b3, thn + 2), p && q && r, true);
    assert PhiArmsYield(e) == (p && q && r);
  }

  lemma IffLoopStart(b: Builder)
    requires b.cur < |b.blocks|
    ensures Iff(b, LoopStart(b), true)
  {
    hide Iff;
    var b1 := CreateBlock(b);
    var b2 := CreateBlock(b1);
    var b3 := CreateBlock(b2);
    IffCreate(b);
    IffCreate(b1);
    IffCreate(b2);
    IffBranch(b3, Jump(|b.blocks|, []));
    var b4 := Emit(b3, Jump(|b.blocks|, []));
    IffSame(b4, SwitchTo(b4, |b.blocks|));
    IffJoin(b, b1, b2, true, true);
    IffJoin(b, b2, b3, true, true);
    IffJoin(b, b3, b4, true, true);
    IffJoin(b, b4, LoopStart(b), true, true);
  }

  lemma IffLoopTest(c: Code, head: BlockId)
    requires c.0.cur < |c.0.blocks| && head + 2 < |c.0.blocks|
    requires c.0.blocks[head + 1].params == c.0.blocks[head + 2].params == []
    ensures Iff(c.0, LoopTest(c, head), true)
  {
    hide Iff;
    var (b, v) := First(c);
    IffFirst(c);
    IffBranch(b, Brz(v, head + 2, []));
    var b1 := Emit(b, Brz(v, head + 2, []));
    IffBranch(b1, Jump(head + 1, []));
    IffJoin(c.0, b, b1, true, true);
    IffJoin(c.0, b1, Emit(b1, Jump(head + 1, [])), true, true);
  }

  lemma IffLoopEnd(b: Builder, head: BlockId)
    requires b.cur < |b.blocks| && head + 2 < |b.blocks|
    ensures Iff(b, LoopEnd(b, head).0, true)
  {
    hide Iff;
    var b1 := Seal(Seal(SwitchTo(b, head + 2), head), head + 2);
    IffSame(b, b1);
    IffValue(b1, Const(b1.next, Int(0)));
    IffJoin(b, b1, LoopEnd(b, head).0, true, true);
  }

  lemma {:induction false} WhileArities(e: Ir.Expr, locals: seq<Ir.VarStore>, offsets: seq<nat>, b: Builder)
    requires e.While? && Ready(e, locals, offsets, b)
    ensures Iff(b, Trans(e, offsets, b).0, PhiArmsYield(e))
    decreases e, 0
  {
    hide Iff, Frame, LoopStart, LoopTest, LoopEnd, Emit, Trans;
    var head := |b.blocks|;
    var c, b2, b3 := WhileStages(e, offsets, b);
    var b1, p, q := LoopStart(b), PhiArmsYield(e.cond), PhiArmsYield(e.body);
    IffLoopStart(b);
    TransArities(e.cond, locals, offsets, b1);
    IffJoin(b, b1, c.0, true, p);
    FrameCur(b1, c.0);
    FrameKeeps(b1, c.0, head + 1);
    FrameKeeps(b1, c.0, head + 2);
    IffLoopTest(c, head);
    IffJoin(b, c.0, b2, p, true);
    var b2' := Enter(b2, head + 1);
    IffEnter(b2, head + 1);
    IffJoin(b, b2, b2', p, true);
    TransArities(e.body, locals, offsets, b2');
    var d := Trans(e.body, offsets, b2').0;
    IffJoin(b, b2', d, p, q);
    LoopHeadKept(b, c, b2, d);
    IffBranch(d, Jump(head, []));
    IffJoin(b, d, b3, p && q, true);
    FrameCur(b2', b3);
    IffLoopEnd(b3, head);
    IffJoin(b, b3, LoopEnd(b3, head).0, p && q, true);
    assert PhiArmsYield(e) == (p && q);
  }

  /** The loop head never gets parameters. */
  lemma LoopHeadKept(b: Builder, c: Code, b2: Builder, d: Builder)
    requires LoopReady(b, LoopStart(b)) && Frame(LoopStart(b), b2) && Frame(Enter(b2, |b.blocks| + 1), d)
    ensures d.cur < |d.blocks| && |b.blocks| < |d.blocks| && d.blocks[|b.blocks|].params == []
  {
    hide LoopStart;
  }

  /** The return at the end of a function is its only one. */
  lemma ReturnEnds(b: Builder, vals: seq<ValueId>, count: nat)
    requires InRange(b) && b.cur < |b.blocks|
    ensures var f := Emit(b, Return(vals));
      (BranchesMatch(f) <==> BranchesMatch(b)) && (ReturnsMatch(f, count) <==> |vals| == count)
  {
    var f := Emit(b, Return(vals));
    assert forall j, k :: 0 <= j < |b.blocks| && 0 <= k < |b.blocks[j].insts| ==>
      f.blocks[j].insts[k] == b.blocks[j].insts[k];
    assert f.blocks[b.cur].insts[|b.blocks[b.cur].insts|] == Return(vals);
    assert forall j :: 0 <= j < |b.blocks| ==> f.blocks[j].params == b.blocks[j].params;
  }

  /**
   Branches and returns of a finished function pass the right number of arguments exactly when no
   phi arm ends in a loop and the body yields as many values as the return type counts.
   */
  lemma BuildArities(body: Ir.Expr, locals: seq<Ir.VarStore>, ret: Ir.Type)
    requires Ir.WellTyped(body, locals)
    ensures AritiesMatch(Build(body, Offsets(locals)), TypeCount(ret))
      <==> PhiArmsYield(body) && ValueCount(body) == TypeCount(ret)
  {
    var offsets := Offsets(locals);
    TransArities(body, locals, offsets, ENTRY);
    TransFrame(body, offsets, ENTRY);
    TransCount(body, locals, offsets, ENTRY);
    var (b, vals) := Trans(body, offsets, ENTRY);
    assert InRange(ENTRY) && BranchesMatch(ENTRY);
    ReturnEnds(b, vals, TypeCount(ret));
  }

  /** For a body of the return type: exactly when no phi arm and not the body itself ends in a loop. */
  lemma BodyArities(body: Ir.Expr, locals: seq<Ir.VarStore>)
    requires Ir.WellTyped(body, locals)
    ensures AritiesMatch(Build(body, Offsets(locals)), TypeCount(Ir.Typ(body)))
      <==> PhiArmsYield(body) && !EndsInWhile(body)
  {
    BuildArities(body, locals, Ir.Typ(body));
    CountAgrees(body, locals);
  }
}
