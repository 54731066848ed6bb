/** The builder is never misused, and at the end every block is sealed and ended. */
module Sealing {
  import opened Values
  import T = Tokens
  import Ir
  import opened Clif
  import opened Translator
  import opened TranslatorShape
  import opened TranslatorArity

  /** More instructions may be emitted. */
  ghost predicate Open(b: Builder) {
    && b.ok && b.cur < |b.blocks|
    && var insts := b.blocks[b.cur].insts;
      |insts| > 0 ==> !IsTerminator(insts[|insts| - 1]) && !insts[|insts| - 1].Brz?
  }

  ghost predicate Closed(x: BlockData) {
    x.sealed && Ended(x)
  }

  /** Every block made since `b` is sealed, and every block left since `b` has ended. */
  ghost predicate Tidy(b: Builder, c: Builder) {
    && |b.blocks| <= |c.blocks|
    && (forall i :: |b.blocks| <= i < |c.blocks| ==> c.blocks[i].sealed && (i != c.cur ==> Ended(c.blocks[i])))
    && (b.cur < |b.blocks| && c.cur != b.cur ==> Ended(c.blocks[b.cur]))
  }

  lemma TidyJoin(a: Builder, b: Builder, c: Builder)
    requires Frame(a, b) && Tidy(a, b) && Frame(b, c) && Tidy(b, c)
    ensures Tidy(a, c)
  {
  }

  lemma OpenEmit(b: Builder, i: Inst)
    requires Open(b) && !IsBranch(i) && !IsTerminator(i)
    ensures Open(Emit(b, i)) && Tidy(b, Emit(b, i))
  {
  }

  lemma OpenValue(b: Builder, i: Inst)
    requires Open(b) && !IsBranch(i) && !IsTerminator(i)
    ensures Open(EmitValue(b, i).0) && Tidy(b, EmitValue(b, i).0)
  {
  }

  /** A scalar expression has a first value to ask for. */
  lemma FirstExists(e: Ir.Expr, locals: seq<Ir.VarStore>, offsets: seq<nat>, b: Builder)
    requires Ready(e, locals, offsets, b) && Ir.IsScalar(Ir.Typ(e))
    ensures var c := Trans(e, offsets, b); |c.1| == 1 && First(c) == (c.0, c.1[0])
  {
    ScalarCount(e, locals);
    TransCount(e, locals, offsets, b);
  }

  /** Translating a well-typed expression misuses nothing and leaves only finished blocks behind. */
  lemma {:induction false} TransTidy(e: Ir.Expr, locals: seq<Ir.VarStore>, offsets: seq<nat>, b: Builder)
    requires Ready(e, locals, offsets, b) && Open(b)
    ensures Open(Trans(e, offsets, b).0) && Tidy(b, Trans(e, offsets, b).0)
    decreases e, 1
  {
    hide Open, Emit, EmitValue;
    match e
    case Binary(left, op, right) => BinaryTidy(left, op, right, locals, offsets, b);
    case Constant(c) => OpenValue(b, Const(b.next, c));
    case Block(exprs) => BlockTidy(exprs, locals, offsets, b);
    case If(_, _, _, _) => IfTidy(e, locals, offsets, b);
    case While(_, _) => WhileTidy(e, locals, offsets, b);
    case Variable(index, _) => OpenValue(b, UseVar(b.next, offsets[index]));
    case Assign(store, value) => AssignTidy(store, value, locals, offsets, b);
  }

  lemma {:induction false} AssignTidy(store: Ir.Expr, value: Ir.Expr, locals: seq<Ir.VarStore>, offsets: seq<nat>,
      b: Builder)
    requires Ready(Ir.Assign(store, value), locals, offsets, b) && Open(b)
    ensures var r := Trans(Ir.Assign(store, value), offsets, b).0; Open(r) && Tidy(b, r)
    decreases Ir.Assign(store, value), 0
  {
    hide Open, Tidy, Emit, Frame, First;
    assert Ir.WellTyped(store, locals);
    TransTidy(value, locals, offsets, b);
    TransFrame(value, offsets, b);
    FirstExists(value, locals, offsets, b);
    var c := Trans(value, offsets, b);
    FrameCur(b, c.0);
    var def := DefVar(offsets[store.index], c.1[0]);
    OpenEmit(c.0, def);
    FrameSelf(c.0);
    FrameEmit(c.0, c.0, def);
    TidyJoin(b, c.0, Emit(c.0, def));
  }

  lemma {:induction false} BinaryTidy(left: Ir.Expr, op: T.TKind, right: Ir.Expr, locals: seq<Ir.VarStore>,
      offsets: seq<nat>, b: Builder)
    requires Ready(Ir.Binary(left, op, right), locals, offsets, b) && Open(b)
    ensures var r := Trans(Ir.Binary(left, op, right), offsets, b).0; Open(r) && Tidy(b, r)
    decreases Ir.Binary(left, op, right), 0
  {
    hide Open, Tidy, Emit, EmitValue, OpcodeOf, Frame, IsArithmetic, IsComparison, First;
    TransTidy(left, locals, offsets, b);
    TransFrame(left, offsets, b);
    FirstExists(left, locals, offsets, b);
    var l := Trans(left, offsets, b);
    FrameCur(b, l.0);
    TransTidy(right, locals, offsets, l.0);
    TransFrame(right, offsets, l.0);
    FirstExists(right, locals, offsets, l.0);
    var r := Trans(right, offsets, l.0);
    FrameCur(l.0, r.0);
    TidyJoin(b, l.0, r.0);
    FrameJoin(b, l.0, r.0);
    OpcodeExists(op);
    var bin := Bin(r.0.next, OpcodeOf(op).value, l.1[0], r.1[0]);
    OpenValue(r.0, bin);
    FrameSelf(r.0);
    FrameValue(r.0, r.0, bin);
    TidyJoin(b, r.0, EmitValue(r.0, bin).0);
  }

  lemma {:induction false} BlockTidy(exprs: seq<Ir.Expr>, locals: seq<Ir.VarStore>, offsets: seq<nat>, b: Builder)
    requires forall i :: 0 <= i < |exprs| ==> Ir.WellTyped(exprs[i], locals)
    requires |locals| <= |offsets| && Open(b)
    ensures Open(TransBlock(exprs, offsets, b).0) && Tidy(b, TransBlock(exprs, offsets, b).0)
    decreases exprs, 0
  {
    if |exprs| > 0 {
      var front, last := exprs[..|exprs| - 1], exprs[|exprs| - 1];
      BlockTidy(front, locals, offsets, b);
      BlockFrame(front, offsets, b);
      var b1 := TransBlock(front, offsets, b).0;
      TransTidy(last, locals, offsets, b1);
      TransFrame(last, offsets, b1);
      TidyJoin(b, b1, Trans(last, offsets, b1).0);
    }
  }

  /** The current block has ended and nothing was misused. */
  ghost predicate Left(b: Builder) {
    b.ok && b.cur < |b.blocks| && Ended(b.blocks[b.cur])
  }

  lemma EnterOpen(b: Builder, blk: BlockId)
    requires Left(b) && blk < |b.blocks| && blk != b.cur && b.blocks[blk].insts == [] && !b.blocks[blk].sealed
    ensures Open(Enter(b, blk)) && Enter(b, blk).cur == blk
  {
  }

  lemma JumpLeaves(b: Builder, dest: BlockId, args: seq<ValueId>)
    requires Open(b) && dest < |b.blocks| && !b.blocks[dest].sealed
    ensures Left(Emit(b, Jump(dest, args))) && Tidy(b, Emit(b, Jump(dest, args)))
  {
  }

  /** Branching to two blocks ends the current one. */
  lemma TestLeaves(b: Builder, cond: ValueId, no: BlockId, yes: BlockId)
    requires Open(b) && yes < |b.blocks| && no < |b.blocks| && !b.blocks[yes].sealed && !b.blocks[no].sealed
    ensures Left(Emit(Emit(b, Brz(cond, no, [])), Jump(yes, [])))
  {
  }

  lemma {:induction false} ArmTidy(e: Ir.Expr, locals: seq<Ir.VarStore>, offsets: seq<nat>, b: Builder, blk: BlockId,
      cont: BlockId, phi: bool)
    requires Ir.WellTyped(e, locals) && |locals| <= |offsets|
    requires Left(b) && blk < |b.blocks| && blk != b.cur && b.blocks[blk] == NEW_BLOCK
    requires cont < |b.blocks| && cont != blk && !b.blocks[cont].sealed
    ensures var x := TransArm(e, offsets, b, blk, cont, phi); Left(x) && Tidy(Enter(b, blk), x) && x.cur < |x.blocks|
    decreases e, 2
  {
    hide Open, Tidy, Emit, Frame, Left;
    var b0 := Enter(b, blk);
    EnterOpen(b, blk);
    TransTidy(e, locals, offsets, b0);
    TransFrame(e, offsets, b0);
    var c := Trans(e, offsets, b0);
    FrameKeeps(b0, c.0, cont);
    FrameCur(b0, c.0);
    var args := if phi then c.1 else [];
    JumpLeaves(c.0, cont, args);
    FrameSelf(c.0);
    FrameEmit(c.0, c.0, Jump(cont, args));
    TidyJoin(b0, c.0, Emit(c.0, Jump(cont, args)));
    FrameCur(c.0, Emit(c.0, Jump(cont, args)));
  }

  lemma ArmsLeave(c: Code, phi: bool, t: Ir.Type)
    requires Open(c.0) && |c.1| > 0
    ensures Left(BranchToArms(c, phi, t)) && BranchToArms(c, phi, t).cur == c.0.cur
  {
    hide Open, Left;
    var b := c.0;
    var n := |b.blocks|;
    var b1 := SetContParams(CreateBlock(CreateBlock(CreateBlock(b))), phi, n + 2, t);
    MoreBlocksOpen(b, phi, t);
    TestLeaves(b1, c.1[0], n + 1, n);
  }

  lemma MoreBlocksOpen(b: Builder, phi: bool, t: Ir.Type)
    requires Open(b)
    ensures Open(SetContParams(CreateBlock(CreateBlock(CreateBlock(b))), phi, |b.blocks| + 2, t))
  {
  }

  /** Putting the pieces of a conditional together. */
  lemma IfJoin(b: Builder, c: Builder, b1: Builder, b2: Builder, b3: Builder, thn: BlockId)
    requires Frame(b, c) && Tidy(b, c) && Frame(c, b1) && b1.cur == c.cur && thn == |c.blocks| && |b1.blocks| == thn + 3
    requires Frame(Enter(b1, thn), b2) && Tidy(Enter(b1, thn), b2) && Left(b1) && Left(b2) && Left(b3)
    requires Frame(Enter(b2, thn + 1), b3) && Tidy(Enter(b2, thn + 1), b3)
    requires b3.blocks[thn + 2].insts == [] && !b3.blocks[thn + 2].sealed
    ensures Tidy(b, Enter(b3, thn + 2))
  {
    var d := Enter(b3, thn + 2);
    forall i | |b.blocks| <= i < |d.blocks| ensures d.blocks[i].sealed && (i != d.cur ==> Ended(d.blocks[i])) {
      if i < thn {
        assert b1.blocks[i].sealed && Ended(b1.blocks[i]);
        assert b3.blocks[i] == b2.blocks[i] == b1.blocks[i];
      } else if i == thn {
        assert b2.blocks[thn].sealed && Ended(b2.blocks[thn]);
        assert b3.blocks[thn] == b2.blocks[thn];
      } else if thn + 3 <= i < |b2.blocks| {
        assert Enter(b2, thn + 1).blocks[i] == b2.blocks[i];
      }
    }
    assert Ended(b1.blocks[b1.cur]);
    assert d.blocks[b.cur] == b3.blocks[b.cur] == b2.blocks[b.cur] == b1.blocks[b.cur];
  }

  lemma {:induction false} IfTidy(e: Ir.Expr, locals: seq<Ir.VarStore>, offsets: seq<nat>, b: Builder)
    requires e.If? && Ready(e, locals, offsets, b) && Open(b)
    ensures Open(Trans(e, offsets, b).0) && Tidy(b, Trans(e, offsets, b).0)
    decreases e, 0
  {
    hide Open, Tidy, Frame, Left, TransArm, BranchToArms, Trans, First;
    TransTidy(e.cond, locals, offsets, b);
    FirstExists(e.cond, locals, offsets, b);
    var c, thn, b1, b2, b3 := IfStages(e, offsets, b);
    FrameCur(b, c.0);
    ArmsLeave(c, e.phi, Ir.Typ(e.thn));
    ArmTidy(e.thn, locals, offsets, b1, thn, thn + 2, e.phi);
    CurApart(b1, thn, b2);
    ArmTidy(e.els, locals, offsets, b2, thn + 1, thn + 2, e.phi);
    CurApart(b2, thn + 1, b3);
    EnterOpen(b3, thn + 2);
    IfJoin(b, c.0, b1, b2, b3, thn);
  }

  lemma CurApart(b: Builder, blk: BlockId, c: Builder)
    requires blk < |b.blocks| && Frame(Enter(b, blk), c)
    ensures |b.blocks| <= |c.blocks| && (c.cur == blk || |b.blocks| <= c.cur < |c.blocks|)
  {
  }

  lemma {:induction false} WhileTidy(e: Ir.Expr, locals: seq<Ir.VarStore>, offsets: seq<nat>, b: Builder)
    requires e.While? && Ready(e, locals, offsets, b) && Open(b)
    ensures Open(Trans(e, offsets, b).0) && Tidy(b, Trans(e, offsets, b).0)
    decreases e, 0
  {
    hide Open, Tidy, Frame, Left, LoopStart, LoopTest, LoopEnd, Emit, Trans, First;
    var head := |b.blocks|;
    var c, b2, b3 := WhileStages(e, offsets, b);
    var b1 := LoopStart(b);
    LoopStartOpen(b);
    TransTidy(e.cond, locals, offsets, b1);
    FirstExists(e.cond, locals, offsets, b1);
    FrameCur(b1, c.0);
    FrameKeeps(b1, c.0, head + 1);
    FrameKeeps(b1, c.0, head + 2);
    LoopTestLeaves(c, head);
    LoopTestFrame(b1, c, head);
    FrameSelf(c.0);
    LoopTestFrame(c.0, c, head);
    LoopTestCur(b1, c, b2, head);
    var b2' := Enter(b2, head + 1);
    EnterOpen(b2, head + 1);
    TransTidy(e.body, locals, offsets, b2');
    var d := Trans(e.body, offsets, b2').0;
    FrameCur(b2', d);
    HeadUnsealed(b1, b2, d, head);
    HeadUnsealed(b1, b2, b3, head);
    JumpLeaves(d, head, []);
    CurApart(b2, head + 1, b3);
    LoopEndOpen(b3, head);
    FrameSelf(d);
    FrameEmit(d, d, Jump(head, []));
    TidyJoin(b2', d, b3);
    WhileJoin(b, c.0, b2, b3);
  }

  lemma LoopStartOpen(b: Builder)
    requires Open(b)
    ensures Open(LoopStart(b)) && Ended(LoopStart(b).blocks[b.cur]) && b.cur < |b.blocks|
  {
  }

  lemma LoopTestLeaves(c: Code, head: BlockId)
    requires Open(c.0) && |c.1| > 0 && head + 2 < |c.0.blocks|
    requires !c.0.blocks[head + 1].sealed && !c.0.blocks[head + 2].sealed
    ensures Left(LoopTest(c, head))
  {
    TestLeaves(c.0, c.1[0], head + 2, head + 1);
  }

  lemma LoopTestCur(b1: Builder, c: Code, b2: Builder, head: BlockId)
    requires Frame(b1, c.0) && b1.cur == head && |b1.blocks| == head + 3 && b2.cur == c.0.cur && Frame(b1, b2)
    ensures b2.cur != head + 1 && b2.cur != head + 2
  {
  }

  lemma HeadUnsealed(b1: Builder, b2: Builder, d: Builder, head: BlockId)
    requires Frame(b1, b2) && b1.cur == head && !b1.blocks[head].sealed && |b1.blocks| == head + 3
    requires Frame(Enter(b2, head + 1), d)
    ensures head < |d.blocks| && !d.blocks[head].sealed
  {
  }

  lemma LoopEndOpen(b: Builder, head: BlockId)
    requires Left(b) && head + 2 < |b.blocks| && b.cur != head + 2
    requires b.blocks[head + 2] == NEW_BLOCK && !b.blocks[head].sealed
    ensures Open(LoopEnd(b, head).0)
  {
  }

  /** Putting the pieces of a loop together. */
  lemma WhileJoin(b: Builder, c: Builder, b2: Builder, b3: Builder)
    requires b.cur < |b.blocks| && LoopReady(b, LoopStart(b)) && Frame(LoopStart(b), c) && Tidy(LoopStart(b), c)
    requires Frame(LoopStart(b), b2) && Frame(c, b2) && b2.cur == c.cur && |b2.blocks| == |c.blocks|
    requires Left(b2) && Left(b3)
    requires Frame(Enter(b2, |b.blocks| + 1), b3) && Tidy(Enter(b2, |b.blocks| + 1), b3)
    requires b3.blocks[|b.blocks| + 2] == NEW_BLOCK
    ensures Tidy(b, LoopEnd(b3, |b.blocks|).0)
  {
    hide LoopStart;
    var head := |b.blocks|;
    var b1 := LoopStart(b);
    var d := LoopEnd(b3, head).0;
    assert d.cur == head + 2;
    forall i | head <= i < |d.blocks| ensures d.blocks[i].sealed && (i != d.cur ==> Ended(d.blocks[i])) {
      if i == head {
        assert Ended(b2.blocks[head]);
        assert b3.blocks[head] == b2.blocks[head];
      } else if i == head + 1 {
        assert b3.blocks[i].sealed && Ended(b3.blocks[i]);
      } else if head + 3 <= i < |b2.blocks| {
        assert b2.blocks[i].sealed && Ended(b2.blocks[i]);
        assert b3.blocks[i] == b2.blocks[i];
      }
    }
    assert Ended(b1.blocks[b.cur]);
    assert d.blocks[b.cur] == b3.blocks[b.cur] == b2.blocks[b.cur] == b1.blocks[b.cur];
  }

  /** A whole function: no misuse of the builder, and every block sealed and ended. */
  lemma BuildFinished(body: Ir.Expr, locals: seq<Ir.VarStore>)
    requires Ir.WellTyped(body, locals)
    ensures Finished(Build(body, Offsets(locals)))
  {
    var offsets := Offsets(locals);
    TransTidy(body, locals, offsets, ENTRY);
    TransFrame(body, offsets, ENTRY);
    var (b, vals) := Trans(body, offsets, ENTRY);
    var f := Emit(b, Return(vals));
    forall i | 0 <= i < |f.blocks| ensures Closed(f.blocks[i]) {
      if i == 0 && b.cur != 0 { assert b.blocks[0].sealed; }
    }
  }
}
