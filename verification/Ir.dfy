/** The intermediate representation: a tree whose variables are numbered slots of one function. */
module Ir {
  import opened Wrappers
  import T = Tokens
  import opened Values

  datatype Type = Void | PoisonType | BoolType | IntType

  predicate IsScalar(t: Type) {
    t.BoolType? || t.IntType?
  }

  datatype VarStore = VarStore(ty: Type, name: string, index: nat, mutable: bool)

  datatype Expr =
    | Poison
    | Binary(left: Expr, op: T.TKind, right: Expr)
    | Constant(c: Val)
    | Block(exprs: seq<Expr>)
    | If(cond: Expr, thn: Expr, els: Expr, phi: bool)
    | While(cond: Expr, body: Expr)
    | Variable(index: nat, typ: Type)
    | Assign(store: Expr, value: Expr)

  /** The type the compiler reads off a tree. */
  function Typ(e: Expr): Type {
    match e
    case Poison => PoisonType
    case Binary(left, op, _) => if T.IsBinaryLogic(op) then BoolType else Typ(left)
    case Constant(c) => (match c case Bool(_) => BoolType case Int(_) => IntType case Unit => Void)
    case Block(exprs) => if |exprs| == 0 then Void else Typ(exprs[|exprs| - 1])
    case If(_, thn, _, phi) => if phi then Typ(thn) else Void
    case While(_, _) => Void
    case Variable(_, typ) => typ
    case Assign(_, value) => Typ(value)
  }

  /** A conditional carries a value only when it has both arms and they agree on their type. */
  function MakeIf(cond: Expr, thn: Expr, els: Option<Expr>): Expr {
    If(cond, thn,
       if els.Some? then els.value else Constant(Int(0)),
       els.Some? && Typ(thn) == Typ(els.value))
  }

  function Local(v: VarStore): Expr {
    Variable(v.index, v.ty)
  }

  /** Well-typedness against the declared slots. */
  predicate WellTyped(e: Expr, locals: seq<VarStore>)
    decreases e
  {
    match e
    case Poison => false
    case Binary(left, op, right) =>
      && WellTyped(left, locals) && WellTyped(right, locals)
      && Typ(left) == IntType && Typ(right) == IntType
      && (IsArithmetic(op) || IsComparison(op))
    case Constant(c) => !c.Unit?
    case Block(exprs) => forall i :: 0 <= i < |exprs| ==> WellTyped(exprs[i], locals)
    case If(cond, thn, els, phi) =>
      && WellTyped(cond, locals) && WellTyped(thn, locals) && WellTyped(els, locals)
      && Typ(cond) == BoolType
      && (phi ==> Typ(thn) == Typ(els))
    case While(cond, body) => WellTyped(cond, locals) && WellTyped(body, locals) && Typ(cond) == BoolType
    case Variable(index, typ) => index < |locals| && locals[index].ty == typ
    case Assign(store, value) =>
      && store.Variable? && WellTyped(store, locals) && WellTyped(value, locals)
      && Typ(store) == Typ(value) && IsScalar(Typ(value))
  }

  /** The slots of a running function; a slot that was never assigned is absent. */
  type Slots = map<nat, Val>

  /** Evaluate a tree over the slots; reading an unassigned slot is `Wrong`. */
  function Eval(e: Expr, s: Slots, fuel: nat): Result<Slots>
    decreases fuel, e
  {
    match e
    case Poison => Wrong
    case Constant(c) => Done(c, s)
    case Binary(left, op, right) =>
      var (l, s1) :- Eval(left, s, fuel);
      var (r, s2) :- Eval(right, s1, fuel);
      Finish(Apply(op, l, r), s2)
    case Block(exprs) => EvalBlock(exprs, s, fuel)
    case If(cond, thn, els, phi) =>
      var (c, s1) :- Eval(cond, s, fuel);
      if !c.Bool? then Wrong
      else
        var (v, s2) :- Eval(if c.b then thn else els, s1, fuel);
        Done(if phi then v else Unit, s2)
    case While(cond, body) =>
      if fuel == 0 then OutOfFuel else
      var (c, s1) :- Eval(cond, s, fuel);
      if !c.Bool? then Wrong
      else if !c.b then Done(Unit, s1)
      else
        var (_, s2) :- Eval(body, s1, fuel);
        Eval(e, s2, fuel - 1)
    case Variable(index, _) => if index in s then Done(s[index], s) else Wrong
    case Assign(store, value) =>
      if !store.Variable? then Wrong
      else
        var (v, s1) :- Eval(value, s, fuel);
        Done(v, s1[store.index := v])
  }

  function EvalBlock(exprs: seq<Expr>, s: Slots, fuel: nat): Result<Slots>
    decreases fuel, exprs
  {
    if |exprs| == 0 then Done(Unit, s)
    else
      var (_, s1) :- EvalBlock(exprs[..|exprs| - 1], s, fuel);
      Eval(exprs[|exprs| - 1], s1, fuel)
  }
}
