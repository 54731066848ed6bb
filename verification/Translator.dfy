/** Lowering a tree to basic blocks. */
module Translator {
  import opened Wrappers
  import opened Values
  import T = Tokens
  import Ir
  import opened Clif

  type Code = (Builder, seq<ValueId>)

  /** The number of machine values a type occupies. */
  function TypeCount(t: Ir.Type): nat {
    if Ir.IsScalar(t) then 1 else 0
  }

  function IntCond(op: T.TKind): Option<Cond> {
    match op
    case EqualEqual => Some(Cond.Equal)
    case BangEqual => Some(NotEqual)
    case Greater => Some(SignedGreaterThan)
    case GreaterEqual => Some(SignedGreaterThanOrEqual)
    case Less => Some(SignedLessThan)
    case LessEqual => Some(SignedLessThanOrEqual)
    case _ => None
  }

  /** The integer instruction for an operator; no operator means a panic. */
  function OpcodeOf(op: T.TKind): Option<Opcode> {
    match op
    case Plus => Some(Iadd)
    case Minus => Some(Isub)
    case Star => Some(Imul)
    case Slash => Some(Udiv)
    case _ => var cc := IntCond(op); if cc.None? then None else Some(Icmp(cc.value))
  }

  /** A panic of the translator. */
  function Panic(b: Builder): Builder {
    b.(ok := false)
  }

  /** The first value of a translated expression; asking for it when there is none panics. */
  function First(c: Code): (Builder, ValueId) {
    if |c.1| == 0 then (Panic(c.0), 0) else (c.0, c.1[0])
  }

  /** Branch to `thn` when the condition holds and to `els` otherwise. */
  function Branch(b: Builder, cond: ValueId, thn: BlockId, els: BlockId): Builder {
    Emit(Emit(b, Brz(cond, els, [])), Jump(thn, []))
  }

  function SetContParams(b: Builder, phi: bool, cont: BlockId, t: Ir.Type): Builder {
    if phi && TypeCount(t) == 1 then AppendParam(b, cont) else b
  }

  function JumpCont(c: Code, cont: BlockId, phi: bool): Builder {
    Emit(c.0, Jump(cont, if phi then c.1 else []))
  }

  /** Start a fresh arm. */
  function Enter(b: Builder, blk: BlockId): Builder {
    Seal(SwitchTo(b, blk), blk)
  }

  /** Specification of `FnTranslator.TransExpr`. */
  function Trans(e: Ir.Expr, offsets: seq<nat>, b: Builder): Code
    decreases e, 1
  {
    match e
    case Poison => (Panic(b), [])
    case Binary(left, op, right) =>
      var (b1, l) := First(Trans(left, offsets, b));
      var (b2, r) := First(Trans(right, offsets, b1));
      EmitBinary(b2, op, Ir.Typ(left), l, r)
    case Constant(c) => EmitConst(b, c)
    case Block(exprs) => TransBlock(exprs, offsets, b)
    case If(_, _, _, _) => TransIf(e, offsets, b)
    case While(_, _) => TransWhile(e, offsets, b)
    case Variable(index, typ) =>
      if index >= |offsets| then (Panic(b), [])
      else if TypeCount(typ) == 0 then (b, [])
      else EmitValue(b, UseVar(b.next, offsets[index]))
    case Assign(store, value) =>
      if !store.Variable? || store.index >= |offsets| then (Panic(b), [])
      else
        var c := Trans(value, offsets, b);
        if TypeCount(store.typ) == 0 then c
        else
          var (b1, v) := First(c);
          (Emit(b1, DefVar(offsets[store.index], v)), c.1)
  }

  function EmitConst(b: Builder, c: Val): Code {
    EmitValue(b, Const(b.next, c))
  }

  function EmitBinary(b: Builder, op: T.TKind, t: Ir.Type, l: ValueId, r: ValueId): Code {
    var opcode := OpcodeOf(op);
    if !t.IntType? || opcode.None? then (Panic(b), [])
    else EmitValue(b, Bin(b.next, opcode.value, l, r))
  }

  function TransBlock(exprs: seq<Ir.Expr>, offsets: seq<nat>, b: Builder): Code
    decreases exprs, 0
  {
    if |exprs| == 0 then (b, [])
    else Trans(exprs[|exprs| - 1], offsets, TransBlock(exprs[..|exprs| - 1], offsets, b).0)
  }

  /** Three new blocks for the arms and the continuation, and the branch into the arms. */
  function BranchToArms(c: Code, phi: bool, t: Ir.Type): Builder {
    var (b, v) := First(c);
    var thn := |b.blocks|;
    Branch(SetContParams(CreateBlock(CreateBlock(CreateBlock(b))), phi, thn + 2, t), v, thn, thn + 1)
  }

  /** One arm in its own block, ending with the jump to the continuation. */
  function TransArm(e: Ir.Expr, offsets: seq<nat>, b: Builder, blk: BlockId, cont: BlockId, phi: bool): Builder
    decreases e, 2
  {
    JumpCont(Trans(e, offsets, Enter(b, blk)), cont, phi)
  }

  function TransIf(e: Ir.Expr, offsets: seq<nat>, b: Builder): Code
    requires e.If?
    decreases e, 0
  {
    var c := Trans(e.cond, offsets, b);
    var thn := |c.0.blocks|;
    var cont := thn + 2;
    var b1 := BranchToArms(c, e.phi, Ir.Typ(e.thn));
    var b2 := TransArm(e.thn, offsets, b1, thn, cont, e.phi);
    var b3 := TransArm(e.els, offsets, b2, thn + 1, cont, e.phi);
    var b4 := Enter(b3, cont);
    (b4, if cont < |b4.blocks| then b4.blocks[cont].params else [])
  }

  /** The loop head is sealed only after the jump back from the body. */
  function TransWhile(e: Ir.Expr, offsets: seq<nat>, b: Builder): Code
    requires e.While?
    decreases e, 0
  {
    var head := |b.blocks|;
    var body, cont := head + 1, head + 2;
    var b1 := SwitchTo(Emit(CreateBlock(CreateBlock(CreateBlock(b))), Jump(head, [])), head);
    var (b2, c) := First(Trans(e.cond, offsets, b1));
    var b3 := Enter(Emit(Emit(b2, Brz(c, cont, [])), Jump(body, [])), body);
    var b4 := Emit(Trans(e.body, offsets, b3).0, Jump(head, []));
    EmitConst(Seal(Seal(SwitchTo(b4, cont), head), cont), Int(0))
  }

  /** The entry block of a function, sealed at once because nothing branches to it. */
  const ENTRY := Enter(CreateBlock(FRESH), 0)

  /** A whole function: the entry block, the body and the return of its values. */
  function Build(body: Ir.Expr, offsets: seq<nat>): Builder {
    var (b, vals) := Trans(body, offsets, ENTRY);
    Emit(b, Return(vals))
  }

  /** The offset of every slot: the number of machine values taken by the slots before it. */
  function Offsets(locals: seq<Ir.VarStore>): (r: seq<nat>)
    ensures |r| == |locals| + 1
  {
    if |locals| == 0 then [0]
    else
      var front := Offsets(locals[..|locals| - 1]);
      front + [front[|locals| - 1] + TypeCount(locals[|locals| - 1].ty)]
  }

  /** The translator object. */
  class FnTranslator {
    var cl: Builder
    var localOffsets: seq<nat>

    constructor ()
      ensures cl == FRESH && localOffsets == [0]
    {
      cl := FRESH;
      localOffsets := [0];
    }

    /** Slots are declared in index order, each at the end of those before it. */
    method DeclareVariables(locals: seq<Ir.VarStore>)
      requires localOffsets == [0]
      requires forall i :: 0 <= i < |locals| ==> locals[i].index == i
      modifies this`localOffsets
      ensures localOffsets == Offsets(locals)
    {
      for i := 0 to |locals|
        invariant localOffsets == Offsets(locals[..i])
      {
        var last := localOffsets[locals[i].index];
        localOffsets := localOffsets + [last + TypeCount(locals[i].ty)];
        assert locals[..i + 1][..i] == locals[..i];
      }
      assert locals[..|locals|] == locals;
    }

    method NewBlock() returns (blk: BlockId)
      modifies this`cl
      ensures cl == CreateBlock(old(cl)) && blk == |old(cl).blocks|
    {
      blk := |cl.blocks|;
      cl := CreateBlock(cl);
    }

    /** The first value of an expression just translated. */
    method FirstOf(vals: seq<ValueId>) returns (v: ValueId)
      modifies this`cl
      ensures (cl, v) == First((old(cl), vals))
    {
      var (b, x) := First((cl, vals));
      cl, v := b, x;
    }

    /** Adopt the outcome of a builder call. */
    method Take(c: Code) returns (vals: seq<ValueId>)
      modifies this`cl
      ensures (cl, vals) == c
    {
      cl, vals := c.0, c.1;
    }

    method TransExpr(e: Ir.Expr) returns (vals: seq<ValueId>)
      modifies this`cl
      ensures (cl, vals) == Trans(e, localOffsets, old(cl))
      decreases e, 1
    {
      match e
      case Poison =>
        cl := Panic(cl);
        vals := [];
      case Binary(left, op, right) =>
        var lv := TransExpr(left);
        var l := FirstOf(lv);
        var rv := TransExpr(right);
        var r := FirstOf(rv);
        vals := Take(EmitBinary(cl, op, Ir.Typ(left), l, r));
      case Constant(c) =>
        vals := Take(EmitConst(cl, c));
      case Block(exprs) =>
        vals := [];
        for i := 0 to |exprs|
          invariant (cl, vals) == TransBlock(exprs[..i], localOffsets, old(cl))
        {
          vals := TransExpr(exprs[i]);
          assert exprs[..i + 1][..i] == exprs[..i];
        }
        assert exprs[..|exprs|] == exprs;
      case If(_, _, _, _) =>
        vals := IfExpr(e);
      case While(_, _) =>
        vals := WhileExpr(e);
      case Variable(index, typ) =>
        vals := [];
        if index >= |localOffsets| {
          cl := Panic(cl);
        } else if TypeCount(typ) == 1 {
          vals := Take(EmitValue(cl, UseVar(cl.next, localOffsets[index])));
        }
      case Assign(store, value) =>
        if !store.Variable? || store.index >= |localOffsets| {
          cl := Panic(cl);
          vals := [];
        } else {
          vals := TransExpr(value);
          if TypeCount(store.typ) == 1 {
            var v := FirstOf(vals);
            cl := Emit(cl, DefVar(localOffsets[store.index], v));
          }
        }
    }

    method IfExpr(e: Ir.Expr) returns (vals: seq<ValueId>)
      requires e.If?
      modifies this`cl
      ensures (cl, vals) == TransIf(e, localOffsets, old(cl))
      decreases e, 0
    {
      hide Trans, TransArm, BranchToArms;
      var cv := TransExpr(e.cond);
      var thn, els, cont := BranchArms(cv, e.phi, Ir.Typ(e.thn));
      Arm(e.thn, thn, cont, e.phi);
      Arm(e.els, els, cont, e.phi);
      cl := SwitchTo(cl, cont);
      cl := Seal(cl, cont);
      vals := if cont < |cl.blocks| then cl.blocks[cont].params else [];
    }

    method BranchArms(cv: seq<ValueId>, phi: bool, t: Ir.Type) returns (thn: BlockId, els: BlockId, cont: BlockId)
      modifies this`cl
      ensures cl == BranchToArms((old(cl), cv), phi, t)
      ensures thn == |old(cl).blocks| && els == thn + 1 && cont == thn + 2
    {
      var c := FirstOf(cv);
      thn := NewBlock();
      els := NewBlock();
      cont := NewBlock();
      cl := SetContParams(cl, phi, cont, t);
      cl := Branch(cl, c, thn, els);
    }

    method Arm(e: Ir.Expr, blk: BlockId, cont: BlockId, phi: bool)
      modifies this`cl
      ensures cl == TransArm(e, localOffsets, old(cl), blk, cont, phi)
      decreases e, 2
    {
      cl := SwitchTo(cl, blk);
      cl := Seal(cl, blk);
      var vals := TransExpr(e);
      cl := JumpCont((cl, vals), cont, phi);
    }

    method WhileExpr(e: Ir.Expr) returns (vals: seq<ValueId>)
      requires e.While?
      modifies this`cl
      ensures (cl, vals) == TransWhile(e, localOffsets, old(cl))
      decreases e, 0
    {
      var head := NewBlock();
      var body := NewBlock();
      var cont := NewBlock();
      cl := Emit(cl, Jump(head, []));
      cl := SwitchTo(cl, head);
      var cv := TransExpr(e.cond);
      var c := FirstOf(cv);
      cl := Emit(cl, Brz(c, cont, []));
      cl := Emit(cl, Jump(body, []));
      cl := SwitchTo(cl, body);
      cl := Seal(cl, body);
      var _ := TransExpr(e.body);
      cl := Emit(cl, Jump(head, []));
      cl := SwitchTo(cl, cont);
      cl := Seal(cl, head);
      cl := Seal(cl, cont);
      vals := Take(EmitConst(cl, Int(0)));
    }

    /** Build the function from a fresh translator. */
    method BuildFunction(body: Ir.Expr, locals: seq<Ir.VarStore>)
      requires cl == FRESH && localOffsets == [0]
      requires forall i :: 0 <= i < |locals| ==> locals[i].index == i
      modifies this
      ensures localOffsets == Offsets(locals)
      ensures cl == Build(body, Offsets(locals))
    {
      var entry := NewBlock();
      cl := SwitchTo(cl, entry);
      cl := Seal(cl, entry);
      DeclareVariables(locals);
      var vals := TransExpr(body);
      cl := Emit(cl, Return(vals));
    }
  }
}
