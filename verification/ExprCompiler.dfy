/**
 Name resolution: the compiler walks the syntax tree with a stack of environments and turns every
 declaration into a fresh numbered slot. The environments hold references into the vector of slots,
 and a push may move that vector.
 */
module ExprCompiler {
  import opened Wrappers
  import opened Values
  import T = Tokens
  import A = Ast
  import opened Ir
  import AstSemantics
  import opened Storage

  /** A reference to the slot at `index`, made when the vector of slots had the given storage. */
  datatype Reference = Reference(index: nat, storage: nat)

  type Environments = seq<map<string, Reference>>

  /** What a reference reads: nothing that means anything once the vector has moved. */
  function Deref(r: Reference, locals: seq<VarStore>): Option<VarStore> {
    if r.index < |locals| && r.storage == Capacity(|locals|) then Some(locals[r.index]) else None
  }

  /**
   What one call of the compiler leaves behind. It is `valid` while no reference was read after the
   vector had moved; from such a read on the source has no defined behaviour.
   */
  datatype Compiled = Compiled(ir: Expr, envs: Environments, locals: seq<VarStore>, valid: bool)
  datatype CompiledItems = CompiledItems(irs: seq<Expr>, envs: Environments, locals: seq<VarStore>, valid: bool)

  /** Trees the compiler accepts without panicking. */
  predicate Supported(e: A.Expr) {
    match e
    case Lit(lit) => lit.Bool? || lit.Int?
    case Ident(_) => true
    case Variable(_, _, value) => Supported(value)
    case Block(exprs) => forall i :: 0 <= i < |exprs| ==> Supported(exprs[i])
    case If(cond, thn, els) => Supported(cond) && Supported(thn) && (els.Some? ==> Supported(els.value))
    case While(cond, body) => Supported(cond) && Supported(body)
    case Binary(left, _, right) => Supported(left) && Supported(right)
    case _ => false
  }

  function ConstantOf(lit: A.Literal): Val
    requires lit.Bool? || lit.Int?
  {
    if lit.Bool? then Bool(lit.b) else Int(lit.n)
  }

  /** Operands of different types are an error that is not recorded; the plain operator is built. */
  function MakeBinary(left: Expr, op: T.TKind, right: Expr): Expr {
    if Typ(left) == Typ(right) && op == T.Equal then Assign(left, right)
    else Expr.Binary(left, op, right)
  }

  /** An unknown name is poison, and so is what a stale reference reads. */
  function Lookup(envs: Environments, locals: seq<VarStore>, name: string): Expr {
    var level := AstSemantics.Innermost(envs, name);
    if level.None? then Poison
    else
      var slot := Deref(envs[level.value][name], locals);
      if slot.None? then Poison else Local(slot.value)
  }

  /** The name is unknown, or its reference is good. */
  predicate LookupValid(envs: Environments, locals: seq<VarStore>, name: string) {
    var level := AstSemantics.Innermost(envs, name);
    level.None? || Deref(envs[level.value][name], locals).Some?
  }

  /** Specification of `ExprCompiler.Expr`. */
  function Compile(e: A.Expr, envs: Environments, locals: seq<VarStore>): (r: Compiled)
    requires Supported(e) && |envs| > 0
    ensures |r.envs| == |envs| && locals <= r.locals
    decreases e
  {
    match e
    case Lit(lit) => Compiled(Constant(ConstantOf(lit)), envs, locals, true)
    case Ident(name) => Compiled(Lookup(envs, locals, name), envs, locals, LookupValid(envs, locals, name))
    case Variable(final, name, value) =>
      var v := Compile(value, envs, locals);
      var local := VarStore(Typ(v.ir), name, |v.locals|, !final);
      var ref := Reference(local.index, Capacity(|v.locals| + 1));
      Compiled(Assign(Local(local), v.ir), AstSemantics.Declare(v.envs, name, ref), v.locals + [local], v.valid)
    case Block(exprs) =>
      var b := CompileItems(exprs, envs + [map[]], locals);
      Compiled(Expr.Block(b.irs), b.envs[..|envs|], b.locals, b.valid)
    case If(cond, thn, els) =>
      var c := Compile(cond, envs, locals);
      var t := Compile(thn, c.envs, c.locals);
      if els.None? then Compiled(MakeIf(c.ir, t.ir, None), t.envs, t.locals, c.valid && t.valid)
      else
        var f := Compile(els.value, t.envs, t.locals);
        Compiled(MakeIf(c.ir, t.ir, Some(f.ir)), f.envs, f.locals, c.valid && t.valid && f.valid)
    case While(cond, body) =>
      var c := Compile(cond, envs, locals);
      var b := Compile(body, c.envs, c.locals);
      Compiled(Expr.While(c.ir, b.ir), b.envs, b.locals, c.valid && b.valid)
    case Binary(left, op, right) =>
      var l := Compile(left, envs, locals);
      var r := Compile(right, l.envs, l.locals);
      Compiled(MakeBinary(l.ir, op, r.ir), r.envs, r.locals, l.valid && r.valid)
  }

  function CompileItems(exprs: seq<A.Expr>, envs: Environments, locals: seq<VarStore>): (r: CompiledItems)
    requires |envs| > 0 && forall i :: 0 <= i < |exprs| ==> Supported(exprs[i])
    ensures |r.envs| == |envs| && locals <= r.locals && |r.irs| == |exprs|
    decreases exprs
  {
    if |exprs| == 0 then CompiledItems([], envs, locals, true)
    else
      var front := CompileItems(exprs[..|exprs| - 1], envs, locals);
      var last := Compile(exprs[|exprs| - 1], front.envs, front.locals);
      CompiledItems(front.irs + [last.ir], last.envs, last.locals, front.valid && last.valid)
  }

  /** The compiler object: the scope stack and the slots of the function being compiled. */
  class Compiler {
    var environments: Environments
    var locals: seq<VarStore>
    /** The room of the vector of slots. */
    var capacity: nat
    /** A reference was read after the vector had moved. */
    ghost var stale: bool

    ghost predicate Valid()
      reads this
    {
      && |environments| > 0 && capacity == Capacity(|locals|)
      && forall i :: 0 <= i < |locals| ==> locals[i].index == i
    }

    /** A parameterless function starts with one empty environment. */
    constructor ()
      ensures Valid() && environments == [map[]] && locals == [] && !stale
    {
      environments := [map[]];
      locals := [];
      capacity := INLINE;
      stale := false;
    }

    method BeginScope()
      modifies this`environments
      ensures environments == old(environments) + [map[]]
    {
      environments := environments + [map[]];
    }

    method EndScope()
      requires |environments| > 0
      modifies this`environments
      ensures environments == old(environments)[..|old(environments)| - 1]
    {
      environments := environments[..|environments| - 1];
    }

    /** Search from the innermost environment outwards. */
    method FindLocal(name: string) returns (r: Option<Reference>)
      ensures r.Some? <==> exists k :: 0 <= k < |environments| && name in environments[k]
      ensures var level := AstSemantics.Innermost(environments, name);
        r == if level.Some? then Some(environments[level.value][name]) else None
    {
      var k := |environments|;
      assert environments[..k] == environments;
      while k > 0
        invariant 0 <= k <= |environments|
        invariant forall j :: k <= j < |environments| ==> name !in environments[j]
        invariant AstSemantics.Innermost(environments, name) == AstSemantics.Innermost(environments[..k], name)
      {
        k := k - 1;
        assert environments[..k + 1][..k] == environments[..k];
        if name in environments[k] {
          return Some(environments[k][name]);
        }
      }
      return None;
    }

    /** Read a slot through a reference; a stale one may read anything. */
    method ReadSlot(r: Reference) returns (v: VarStore)
      requires Valid()
      modifies this`stale
      ensures stale == (old(stale) || Deref(r, locals).None?)
      ensures Deref(r, locals).Some? ==> v == Deref(r, locals).value
    {
      v := *;
      if r.index < |locals| && r.storage == capacity {
        v := locals[r.index];
      } else {
        stale := true;
      }
    }

    /** Push a slot, moving the vector if it is full, and refer to it. */
    method AddLocal(name: string, ty: Type, mutable: bool) returns (v: VarStore, r: Reference)
      requires Valid()
      modifies this`locals, this`capacity
      ensures Valid() && v == VarStore(ty, name, |old(locals)|, mutable) && locals == old(locals) + [v]
      ensures r == Reference(|old(locals)|, Capacity(|locals|)) && Deref(r, locals) == Some(v)
      ensures capacity != old(capacity) <==> |old(locals)| == old(capacity)
    {
      PushMoves(|locals|);
      v := VarStore(ty, name, |locals|, mutable);
      if |locals| == capacity { capacity := NextPower(|locals| + 1); }
      locals := locals + [v];
      r := Reference(|locals| - 1, capacity);
    }

    method AddToScope(name: string, r: Reference)
      requires |environments| > 0
      modifies this`environments
      ensures environments == AstSemantics.Declare(old(environments), name, r)
    {
      var last := |environments| - 1;
      environments := environments[last := environments[last][name := r]];
    }

    /**
     Computes the specified tree, scopes and slots unless a stale reference is read, which happens
     exactly where the specification says so.
     */
    method CompileExpr(e: A.Expr) returns (ir: Expr)
      requires Supported(e) && Valid()
      modifies this
      ensures Valid() && |environments| == |old(environments)| && (old(stale) ==> stale)
      ensures Follows(old(stale), stale, ir, environments, locals, Compile(e, old(environments), old(locals)))
      decreases e, 1
    {
      match e
      case Lit(lit) => ir := Constant(ConstantOf(lit));
      case Ident(name) =>
        var ref := FindLocal(name);
        if ref.None? { return Poison; }
        var v := ReadSlot(ref.value);
        ir := Local(v);
      case Variable(final, name, value) =>
        var v := CompileExpr(value);
        var local, ref := AddLocal(name, Typ(v), !final);
        AddToScope(name, ref);
        ir := Assign(Local(local), v);
      case Block(exprs) =>
        ir := CompileBlock(exprs);
      case If(cond, thn, els) =>
        var c := CompileExpr(cond);
        var t := CompileExpr(thn);
        if els.None? {
          ir := MakeIf(c, t, None);
        } else {
          var f := CompileExpr(els.value);
          ir := MakeIf(c, t, Some(f));
        }
      case While(cond, body) =>
        var c := CompileExpr(cond);
        var b := CompileExpr(body);
        ir := Expr.While(c, b);
      case Binary(left, op, right) =>
        var l := CompileExpr(left);
        var r := CompileExpr(right);
        if Typ(l) != Typ(r) {
          // the type error is dropped
        } else if op == T.Equal {
          return Assign(l, r);
        }
        ir := Expr.Binary(l, op, r);
    }

    method CompileBlock(exprs: seq<A.Expr>) returns (ir: Expr)
      requires Valid() && forall i :: 0 <= i < |exprs| ==> Supported(exprs[i])
      modifies this
      ensures Valid() && |environments| == |old(environments)| && (old(stale) ==> stale)
      ensures Follows(old(stale), stale, ir, environments, locals,
                      Compile(A.Block(exprs), old(environments), old(locals)))
      decreases exprs, 0
    {
      BeginScope();
      ghost var envs0, locals0 := environments, locals;
      var irs := [];
      assert exprs[..0] == [];
      for i := 0 to |exprs|
        invariant Valid() && |environments| == |envs0| && (old(stale) ==> stale)
        invariant !old(stale) ==>
          var c := CompileItems(exprs[..i], envs0, locals0);
          stale == !c.valid && (!stale ==> c == CompiledItems(irs, environments, locals, true))
      {
        var x := CompileExpr(exprs[i]);
        irs := irs + [x];
        assert exprs[..i + 1][..i] == exprs[..i];
      }
      assert exprs[..|exprs|] == exprs;
      EndScope();
      ir := Expr.Block(irs);
    }
  }

  /** From a run without a stale read: the next one is where `c` is not valid, and without it all is as in `c`. */
  ghost predicate Follows(before: bool, after: bool, ir: Expr, envs: Environments, locals: seq<VarStore>, c: Compiled) {
    !before ==> after == !c.valid && (!after ==> c == Compiled(ir, envs, locals, true))
  }
}
