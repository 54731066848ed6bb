/** What translating an expression leaves alone, stage by stage. */
module TranslatorShape {
  import opened Values
  import T = Tokens
  import Ir
  import opened Clif
  import opened Translator

  // ----- frame

  ghost predicate Grows(x: BlockData, y: BlockData) {
    x.params == y.params && x.sealed == y.sealed && x.insts <= y.insts
  }

  /** From `b` to `c` only the current block of `b` grew, and the new current block is that one or a new one. */
  ghost predicate Frame(b: Builder, c: Builder) {
    && |b.blocks| <= |c.blocks| && b.next <= c.next
    && b.cur < |b.blocks| && c.cur < |c.blocks|
    && (c.cur == b.cur || |b.blocks| <= c.cur)
    && (forall i :: 0 <= i < |b.blocks| && i != b.cur ==> c.blocks[i] == b.blocks[i])
    && Grows(b.blocks[b.cur], c.blocks[b.cur])
  }

  lemma FrameJoin(a: Builder, b: Builder, c: Builder)
    requires Frame(a, b) && Frame(b, c)
    ensures Frame(a, c)
  {
  }

  lemma FrameEmit(a: Builder, b: Builder, i: Inst)
    requires Frame(a, b)
    ensures Frame(a, Emit(b, i))
  {
  }

  lemma FrameEnter(a: Builder, b: Builder, blk: BlockId)
    requires Frame(a, b) && |a.blocks| <= blk < |b.blocks|
    ensures Frame(a, Enter(b, blk))
  {
  }

  lemma FrameSelf(b: Builder)
    requires b.cur < |b.blocks|
    ensures Frame(b, b)
  {
  }

  lemma FramePanic(a: Builder, b: Builder)
    requires Frame(a, b)
    ensures Frame(a, Panic(b))
  {
  }

  lemma FrameFirst(a: Builder, c: Code)
    requires Frame(a, c.0)
    ensures Frame(a, First(c).0)
  {
  }

  lemma FrameValue(a: Builder, b: Builder, i: Inst)
    requires Frame(a, b)
    ensures Frame(a, EmitValue(b, i).0) && Below(EmitValue(b, i).1, EmitValue(b, i).0.next)
  {
  }

  /** Frame, read off at one block that is not the current one. */
  lemma FrameKeeps(a: Builder, b: Builder, i: BlockId)
    requires Frame(a, b) && i < |a.blocks| && i != a.cur
    ensures i < |b.blocks| && b.blocks[i] == a.blocks[i]
  {
  }

  ghost predicate Below(ids: seq<ValueId>, n: nat) {
    forall k :: 0 <= k < |ids| ==> ids[k] < n
  }

  /** The arms and the continuation are new and empty; the continuation has the parameters of the phi. */
  ghost predicate ArmsReady(b: Builder, c: Builder, phi: bool, t: Ir.Type) {
    var n := |b.blocks|;
    && Frame(b, c) && c.cur == b.cur
    && |c.blocks| == n + 3
    && c.blocks[n] == c.blocks[n + 1] == NEW_BLOCK
    && c.blocks[n + 2].insts == [] && !c.blocks[n + 2].sealed
    && c.next == b.next + (if phi then TypeCount(t) else 0)
    && c.blocks[n + 2].params == (if phi && TypeCount(t) == 1 then [b.next] else [])
  }

  lemma BranchToArmsShape(c: Code, phi: bool, t: Ir.Type)
    requires c.0.cur < |c.0.blocks|
    ensures ArmsReady(c.0, BranchToArms(c, phi, t), phi, t)
  {
  }

  /** Translation only appends: to the block it starts in and to blocks it creates itself. */
  lemma {:induction false} TransFrame(e: Ir.Expr, offsets: seq<nat>, b: Builder)
    requires b.cur < |b.blocks|
    ensures Frame(b, Trans(e, offsets, b).0)
    ensures Below(Trans(e, offsets, b).1, Trans(e, offsets, b).0.next)
    decreases e, 1
  {
    hide Frame, Emit, EmitValue, First;
    FrameSelf(b);
    match e
    case Poison => FramePanic(b, b);
    case Constant(c) => FrameValue(b, b, Const(b.next, c));
    case Variable(index, _) =>
      if index < |offsets| { FrameValue(b, b, UseVar(b.next, offsets[index])); } else { FramePanic(b, b); }
    case Binary(left, op, right) => BinaryFrame(left, op, right, offsets, b);
    case Block(exprs) => BlockFrame(exprs, offsets, b);
    case If(_, _, _, _) => IfFrame(e, offsets, b);
    case While(_, _) => WhileFrame(e, offsets, b);
    case Assign(store, value) => AssignFrame(store, value, offsets, b);
  }

  lemma {:induction false} BinaryFrame(left: Ir.Expr, op: T.TKind, right: Ir.Expr, offsets: seq<nat>, b: Builder)
    requires b.cur < |b.blocks|
    ensures var r := Trans(Ir.Binary(left, op, right), offsets, b); Frame(b, r.0) && Below(r.1, r.0.next)
    decreases Ir.Binary(left, op, right), 0
  {
    hide Frame, Emit, EmitValue, OpcodeOf;
    TransFrame(left, offsets, b);
    FrameFirst(b, Trans(left, offsets, b));
    var (b1, l) := First(Trans(left, offsets, b));
    assert b1.cur < |b1.blocks| by { FrameCur(b, b1); }
    TransFrame(right, offsets, b1);
    FrameFirst(b1, Trans(right, offsets, b1));
    var (b2, r) := First(Trans(right, offsets, b1));
    FrameJoin(b, b1, b2);
    FramePanic(b, b2);
    var opcode := OpcodeOf(op);
    if opcode.Some? { FrameValue(b, b2, Bin(b2.next, opcode.value, l, r)); }
  }

  lemma FrameCur(a: Builder, b: Builder)
    requires Frame(a, b)
    ensures b.cur < |b.blocks| && |a.blocks| <= |b.blocks| && a.next <= b.next
  {
  }

  lemma {:induction false} AssignFrame(store: Ir.Expr, value: Ir.Expr, offsets: seq<nat>, b: Builder)
    requires b.cur < |b.blocks|
    ensures var r := Trans(Ir.Assign(store, value), offsets, b); Frame(b, r.0) && Below(r.1, r.0.next)
    decreases Ir.Assign(store, value), 0
  {
    if store.Variable? && store.index < |offsets| {
      TransFrame(value, offsets, b);
      var c := Trans(value, offsets, b);
      FrameFirst(b, c);
      FrameEmit(b, First(c).0, DefVar(offsets[store.index], First(c).1));
    } else {
      FrameSelf(b);
    }
  }

  lemma {:induction false} BlockFrame(exprs: seq<Ir.Expr>, offsets: seq<nat>, b: Builder)
    requires b.cur < |b.blocks|
    ensures Frame(b, TransBlock(exprs, offsets, b).0)
    ensures Below(TransBlock(exprs, offsets, b).1, TransBlock(exprs, offsets, b).0.next)
    decreases exprs, 0
  {
    if |exprs| > 0 {
      var front := exprs[..|exprs| - 1];
      BlockFrame(front, offsets, b);
      var b1 := TransBlock(front, offsets, b).0;
      TransFrame(exprs[|exprs| - 1], offsets, b1);
      FrameJoin(b, b1, TransBlock(exprs, offsets, b).0);
    }
  }

  /** An arm leaves every block alone except its own and the ones it creates. */
  lemma {:induction false} ArmFrame(e: Ir.Expr, offsets: seq<nat>, b: Builder, blk: BlockId, cont: BlockId, phi: bool)
    requires blk < |b.blocks|
    ensures Frame(Enter(b, blk), Trans(e, offsets, Enter(b, blk)).0)
    ensures Frame(Enter(b, blk), TransArm(e, offsets, b, blk, cont, phi))
    ensures Below(Trans(e, offsets, Enter(b, blk)).1, TransArm(e, offsets, b, blk, cont, phi).next)
    decreases e, 2
  {
    TransFrame(e, offsets, Enter(b, blk));
    FrameEmit(Enter(b, blk), Trans(e, offsets, Enter(b, blk)).0,
              Jump(cont, if phi then Trans(e, offsets, Enter(b, blk)).1 else []));
  }

  /** The stages of a conditional and what each leaves alone. */
  lemma {:induction false} IfStages(e: Ir.Expr, offsets: seq<nat>, b: Builder)
    returns (c: Code, thn: BlockId, b1: Builder, b2: Builder, b3: Builder)
    requires e.If? && b.cur < |b.blocks|
    ensures c == Trans(e.cond, offsets, b) && thn == |c.0.blocks|
    ensures b1 == BranchToArms(c, e.phi, Ir.Typ(e.thn))
    ensures b2 == TransArm(e.thn, offsets, b1, thn, thn + 2, e.phi)
    ensures b3 == TransArm(e.els, offsets, b2, thn + 1, thn + 2, e.phi)
    ensures Frame(b, c.0) && Below(c.1, c.0.next) && ArmsReady(c.0, b1, e.phi, Ir.Typ(e.thn))
    ensures Frame(Enter(b1, thn), b2) && Frame(Enter(b2, thn + 1), b3)
    ensures Trans(e, offsets, b) == (Enter(b3, thn + 2), b1.blocks[thn + 2].params)
    ensures b3.blocks[thn + 2] == b2.blocks[thn + 2] == b1.blocks[thn + 2]
    ensures b2.blocks[thn + 1] == NEW_BLOCK
    decreases e, 0, 0
  {
    hide Frame, Trans, TransArm, BranchToArms, Enter, First, Below;
    TransFrame(e.cond, offsets, b);
    FrameCur(b, Trans(e.cond, offsets, b).0);
    c := Trans(e.cond, offsets, b);
    thn := |c.0.blocks|;
    BranchToArmsShape(c, e.phi, Ir.Typ(e.thn));
    b1 := BranchToArms(c, e.phi, Ir.Typ(e.thn));
    ArmFrame(e.thn, offsets, b1, thn, thn + 2, e.phi);
    b2 := TransArm(e.thn, offsets, b1, thn, thn + 2, e.phi);
    ThenKeeps(b1, b2, thn);
    ArmFrame(e.els, offsets, b2, thn + 1, thn + 2, e.phi);
    b3 := TransArm(e.els, offsets, b2, thn + 1, thn + 2, e.phi);
    ElseKeeps(b2, b3, thn);
    IfResult(e, offsets, b, c, b1, b2, b3);
  }

  /** The code of a conditional ends in the continuation, whose parameters are its values. */
  lemma IfResult(e: Ir.Expr, offsets: seq<nat>, b: Builder, c: Code, b1: Builder, b2: Builder, b3: Builder)
    requires e.If? && c == Trans(e.cond, offsets, b) && b1 == BranchToArms(c, e.phi, Ir.Typ(e.thn))
    requires b2 == TransArm(e.thn, offsets, b1, |c.0.blocks|, |c.0.blocks| + 2, e.phi)
    requires b3 == TransArm(e.els, offsets, b2, |c.0.blocks| + 1, |c.0.blocks| + 2, e.phi)
    requires |c.0.blocks| + 2 < |b3.blocks|
    ensures Trans(e, offsets, b) == (Enter(b3, |c.0.blocks| + 2), b3.blocks[|c.0.blocks| + 2].params)
  {
    hide TransArm, BranchToArms;
  }

  /** The first arm leaves the other arm and the continuation alone. */
  lemma ThenKeeps(b1: Builder, b2: Builder, thn: BlockId)
    requires |b1.blocks| == thn + 3 && Frame(Enter(b1, thn), b2)
    ensures |b2.blocks| >= thn + 3
    ensures b2.blocks[thn + 1] == b1.blocks[thn + 1] && b2.blocks[thn + 2] == b1.blocks[thn + 2]
  {
    hide Frame;
    FrameCur(Enter(b1, thn), b2);
    FrameKeeps(Enter(b1, thn), b2, thn + 1);
    FrameKeeps(Enter(b1, thn), b2, thn + 2);
  }

  lemma ElseKeeps(b2: Builder, b3: Builder, thn: BlockId)
    requires |b2.blocks| >= thn + 3 && Frame(Enter(b2, thn + 1), b3)
    ensures |b3.blocks| >= thn + 3 && b3.blocks[thn + 2] == b2.blocks[thn + 2]
  {
    hide Frame;
    FrameCur(Enter(b2, thn + 1), b3);
    FrameKeeps(Enter(b2, thn + 1), b3, thn + 2);
  }

  lemma {:induction false} IfFrame(e: Ir.Expr, offsets: seq<nat>, b: Builder)
    requires e.If? && b.cur < |b.blocks|
    ensures Frame(b, Trans(e, offsets, b).0)
    ensures Below(Trans(e, offsets, b).1, Trans(e, offsets, b).0.next)
    decreases e, 0, 1
  {
    hide Frame, TransArm, BranchToArms, Trans;
    var c, thn, b1, b2, b3 := IfStages(e, offsets, b);
    FrameCur(b, c.0);
    FrameJoin(b, c.0, b1);
    FrameEnter(b, b1, thn);
    FrameJoin(b, Enter(b1, thn), b2);
    FrameCur(Enter(b1, thn), b2);
    FrameEnter(b, b2, thn + 1);
    FrameJoin(b, Enter(b2, thn + 1), b3);
    FrameCur(Enter(b2, thn + 1), b3);
    FrameEnter(b, b3, thn + 2);
  }

  /** The builder after the jump into a new loop head. */
  function LoopStart(b: Builder): Builder {
    SwitchTo(Emit(CreateBlock(CreateBlock(CreateBlock(b))), Jump(|b.blocks|, [])), |b.blocks|)
  }

  ghost predicate LoopReady(b: Builder, c: Builder) {
    var n := |b.blocks|;
    && Frame(b, c) && c.cur == n && |c.blocks| == n + 3 && c.next == b.next
    && c.blocks[n] == c.blocks[n + 1] == c.blocks[n + 2] == NEW_BLOCK
    && c.blocks[b.cur].insts == b.blocks[b.cur].insts + [Jump(n, [])]
  }

  lemma LoopStartShape(b: Builder)
    requires b.cur < |b.blocks|
    ensures LoopReady(b, LoopStart(b))
  {
  }

  /** The builder after the exit test of a loop whose condition is `c`. */
  function LoopTest(c: Code, head: BlockId): Builder {
    var (b, v) := First(c);
    Emit(Emit(b, Brz(v, head + 2, [])), Jump(head + 1, []))
  }

  lemma LoopTestFrame(a: Builder, c: Code, head: BlockId)
    requires Frame(a, c.0)
    ensures |LoopTest(c, head).blocks| == |c.0.blocks|
    ensures Frame(a, LoopTest(c, head)) && LoopTest(c, head).cur == c.0.cur && LoopTest(c, head).next == c.0.next
  {
    FrameFirst(a, c);
    var (b, v) := First(c);
    FrameEmit(a, b, Brz(v, head + 2, []));
  }

  /** The builder once the jump back has been emitted and the loop is closed. */
  function LoopEnd(b: Builder, head: BlockId): Code {
    EmitConst(Seal(Seal(SwitchTo(b, head + 2), head), head + 2), Int(0))
  }

  lemma LoopEndFrame(a: Builder, b: Builder)
    requires Frame(a, b) && |a.blocks| + 2 < |b.blocks|
    ensures var r := LoopEnd(b, |a.blocks|); Frame(a, r.0) && Below(r.1, r.0.next)
  {
  }

  /** The stages of a loop and what each leaves alone. */
  lemma {:induction false} WhileStages(e: Ir.Expr, offsets: seq<nat>, b: Builder)
    returns (c: Code, b2: Builder, b3: Builder)
    requires e.While? && b.cur < |b.blocks|
    ensures LoopReady(b, LoopStart(b))
    ensures c == Trans(e.cond, offsets, LoopStart(b)) && Frame(LoopStart(b), c.0) && Below(c.1, c.0.next)
    ensures b2 == LoopTest(c, |b.blocks|) && Frame(LoopStart(b), b2)
    ensures |b.blocks| + 3 <= |b2.blocks| && b2.blocks[|b.blocks| + 1] == b2.blocks[|b.blocks| + 2] == NEW_BLOCK
    ensures b3 == Emit(Trans(e.body, offsets, Enter(b2, |b.blocks| + 1)).0, Jump(|b.blocks|, []))
    ensures Frame(Enter(b2, |b.blocks| + 1), Trans(e.body, offsets, Enter(b2, |b.blocks| + 1)).0)
    ensures Frame(Enter(b2, |b.blocks| + 1), b3)
    ensures |b.blocks| + 3 <= |b3.blocks| && b3.blocks[|b.blocks| + 2] == NEW_BLOCK
    ensures Trans(e, offsets, b) == LoopEnd(b3, |b.blocks|)
    decreases e, 0, 0
  {
    hide Frame, LoopStart, LoopTest, First, Emit;
    var head := |b.blocks|;
    LoopStartShape(b);
    var b1 := LoopStart(b);
    TransFrame(e.cond, offsets, b1);
    c := Trans(e.cond, offsets, b1);
    LoopTestFrame(b1, c, head);
    b2 := LoopTest(c, head);
    FrameKeeps(b1, b2, head + 1);
    FrameKeeps(b1, b2, head + 2);
    var b2' := Enter(b2, head + 1);
    TransFrame(e.body, offsets, b2');
    var d := Trans(e.body, offsets, b2').0;
    FrameEmit(b2', d, Jump(head, []));
    b3 := Emit(d, Jump(head, []));
    FrameKeeps(b2', b3, head + 2);
    WhileUnfold(e, offsets, b);
  }

  lemma {:induction false} WhileUnfold(e: Ir.Expr, offsets: seq<nat>, b: Builder)
    requires e.While?
    ensures var b2 := LoopTest(Trans(e.cond, offsets, LoopStart(b)), |b.blocks|);
      var d := Trans(e.body, offsets, Enter(b2, |b.blocks| + 1)).0;
      Trans(e, offsets, b) == LoopEnd(Emit(d, Jump(|b.blocks|, [])), |b.blocks|)
  {
    hide Emit, First, Seal, SwitchTo, EmitConst, CreateBlock;
  }

  lemma {:induction false} WhileFrame(e: Ir.Expr, offsets: seq<nat>, b: Builder)
    requires e.While? && b.cur < |b.blocks|
    ensures Frame(b, Trans(e, offsets, b).0)
    ensures Below(Trans(e, offsets, b).1, Trans(e, offsets, b).0.next)
    decreases e, 0, 1
  {
    hide Frame, LoopStart, LoopTest, LoopEnd, Emit;
    var c, b2, b3 := WhileStages(e, offsets, b);
    FrameJoin(b, LoopStart(b), b2);
    FrameEnter(b, b2, |b.blocks| + 1);
    FrameJoin(b, Enter(b2, |b.blocks| + 1), b3);
    LoopEndFrame(b, b3);
  }
}
