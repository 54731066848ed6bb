/**
 How operators group, by their order alone. A chain `a op b op c ..` of operands is split at the
 leftmost of its weakest operators, and so are both sides; the binding powers play no part here.
 */
module Precedence {
  import opened Wrappers
  import opened Tokens
  import opened Grammar
  import opened ParserSpec
  import opened ParserCorrect

  /**
   The class of an infix operator, from the weakest to the strongest: assignment, `or`, `and`,
   equality, comparison together with sums, products, and `is`.
   */
  function Class(k: TKind): Option<nat> {
    match k
    case Equal => Some(0)
    case Or => Some(1)
    case And => Some(2)
    case EqualEqual | BangEqual => Some(3)
    case Less | LessEqual | Greater | GreaterEqual | Plus | Minus => Some(4)
    case Star | Slash => Some(5)
    case Is => Some(6)
    case _ => None
  }

  predicate IsInfix(k: TKind) {
    Class(k).Some?
  }

  /** `k` binds less tightly than `m`. */
  predicate Weaker(k: TKind, m: TKind) {
    Class(k).Some? && Class(m).Some? && Class(k).value < Class(m).value
  }

  /** The left binding power, 0 where there is none. */
  function LeftPower(k: TKind): nat {
    var power := InfixBindingPower(k);
    if power.Some? then power.value.0 else 0
  }

  lemma PowerOf(k: TKind)
    ensures InfixBindingPower(k).Some? <==> IsInfix(k)
    ensures IsInfix(k) ==> LeftPower(k) == PowerOfClass(Class(k).value) && Class(k).value <= 6
  {
  }

  function PowerOfClass(c: nat): nat {
    if c == 0 then 6 else 2 * c + 8
  }

  /** The table of binding powers is the order of the classes. */
  lemma PowersExact(k: TKind, m: TKind)
    ensures InfixBindingPower(k).Some? <==> IsInfix(k)
    ensures IsInfix(k) && IsInfix(m) ==> (Weaker(k, m) <==> LeftPower(k) < LeftPower(m))
    ensures IsInfix(k) && IsInfix(m) ==> (Class(k) == Class(m) <==> LeftPower(k) == LeftPower(m))
  {
    hide *;
    PowerOf(k);
    PowerOf(m);
    if IsInfix(k) && IsInfix(m) { OrderOf(k, m); }
  }

  lemma OrderOf(k: TKind, m: TKind)
    requires IsInfix(k) && IsInfix(m)
    requires LeftPower(k) == PowerOfClass(Class(k).value) && LeftPower(m) == PowerOfClass(Class(m).value)
    ensures Weaker(k, m) <==> LeftPower(k) < LeftPower(m)
    ensures Class(k) == Class(m) <==> LeftPower(k) == LeftPower(m)
  {
    hide LeftPower, Class, InfixBindingPower;
  }

  /** The prefix operators are `-` and `!`, and they bind more tightly than every infix operator. */
  lemma PrefixStrongest(k: TKind, m: TKind)
    ensures PrefixBindingPower(k).Some? <==> k in {Minus, Bang}
    ensures PrefixBindingPower(k).Some? ==> PrefixBindingPower(k).value > LeftPower(m)
  {
    hide LeftPower, Class, InfixBindingPower;
    PowerOf(m);
    assert IsInfix(m) || LeftPower(m) == 0 by { NoPower(m); }
  }

  lemma NoPower(k: TKind)
    ensures InfixBindingPower(k).None? ==> LeftPower(k) == 0
  {
  }

  // ---- chains ----

  predicate AllInfix(ops: seq<TKind>) {
    forall i :: 0 <= i < |ops| ==> IsInfix(ops[i])
  }

  /** An operand of a chain: an atom, parentheses, a call, or a prefix operator with its operand. */
  predicate Operand(t: Tree) {
    if t.Prefix? then t.op in {Minus, Bang} && Operand(t.operand) else IsPostfix(t) && Formed(t)
  }

  predicate Operands(ts: seq<Tree>) {
    forall i :: 0 <= i < |ts| ==> Operand(ts[i])
  }

  /** The tokens of a chain. */
  function Flat(ts: seq<Tree>, ops: seq<TKind>): seq<Token>
    requires |ts| == |ops| + 1
  {
    if ops == [] then Yield(ts[0]) else Yield(ts[0]) + [Mark(ops[0])] + Flat(ts[1..], ops[1..])
  }

  /** The leftmost of the weakest operators. */
  function Weakest(ops: seq<TKind>): (k: nat)
    requires ops != [] && AllInfix(ops)
    ensures k < |ops|
    ensures forall j :: 0 <= j < |ops| ==> !Weaker(ops[j], ops[k])
    ensures forall j :: 0 <= j < k ==> Weaker(ops[k], ops[j])
  {
    if |ops| == 1 then assert !Weaker(ops[0], ops[0]) by { PowersExact(ops[0], ops[0]); } 0
    else
      var k := 1 + Weakest(ops[1..]);
      assert !Weaker(ops[0], ops[0]) by { PowersExact(ops[0], ops[0]); }
      WeakerOrder(ops, k);
      if Weaker(ops[k], ops[0]) then k else 0
  }

  /** What is not weaker than the weakest of the rest. */
  lemma WeakerOrder(ops: seq<TKind>, k: nat)
    requires 0 < k < |ops| && AllInfix(ops)
    requires forall j :: 0 <= j < |ops[1..]| ==> !Weaker(ops[1..][j], ops[1..][k - 1])
    requires forall j :: 0 <= j < k - 1 ==> Weaker(ops[1..][k - 1], ops[1..][j])
    ensures Weaker(ops[k], ops[0]) ==> !Weaker(ops[0], ops[k])
    ensures forall j :: 0 < j < |ops| ==> !Weaker(ops[j], ops[k])
    ensures forall j :: 0 < j < k ==> Weaker(ops[k], ops[j])
    ensures !Weaker(ops[k], ops[0]) ==> forall j :: 0 < j < |ops| ==> !Weaker(ops[j], ops[0])
  {
    hide Weaker, IsInfix;
    forall j | 0 < j < |ops|
      ensures !Weaker(ops[j], ops[k]) && (j < k ==> Weaker(ops[k], ops[j]))
      ensures !Weaker(ops[k], ops[0]) ==> !Weaker(ops[j], ops[0])
    {
      assert ops[j] == ops[1..][j - 1] && ops[k] == ops[1..][k - 1];
      PowersExact(ops[j], ops[k]);
      PowersExact(ops[k], ops[0]);
      PowersExact(ops[j], ops[0]);
    }
    PowersExact(ops[k], ops[0]);
    PowersExact(ops[0], ops[k]);
  }

  /** The tree of a chain: split at the leftmost weakest operator. */
  function Group(ts: seq<Tree>, ops: seq<TKind>): Tree
    requires |ts| == |ops| + 1 && AllInfix(ops)
    decreases |ops|
  {
    if ops == [] then ts[0]
    else
      var k := Weakest(ops);
      Infix(Group(ts[..k + 1], ops[..k]), ops[k], Group(ts[k + 1..], ops[k + 1..]))
  }

  lemma {:induction false} FlatSplit(ts: seq<Tree>, ops: seq<TKind>, k: nat)
    requires |ts| == |ops| + 1 && k < |ops|
    ensures Flat(ts, ops) == Flat(ts[..k + 1], ops[..k]) + [Mark(ops[k])] + Flat(ts[k + 1..], ops[k + 1..])
    decreases k
  {
    if k > 0 {
      FlatSplit(ts[1..], ops[1..], k - 1);
      assert ts[1..][..k] == ts[..k + 1][1..] && ops[1..][..k - 1] == ops[..k][1..];
      assert ts[1..][k..] == ts[k + 1..] && ops[1..][k..] == ops[k + 1..];
    }
  }

  /** The tree of a chain spells the chain. */
  lemma {:induction false} GroupSpells(ts: seq<Tree>, ops: seq<TKind>)
    requires |ts| == |ops| + 1 && AllInfix(ops)
    ensures Yield(Group(ts, ops)) == Flat(ts, ops)
    decreases |ops|
  {
    if ops != [] {
      var k := Weakest(ops);
      FlatSplit(ts, ops, k);
      GroupSpells(ts[..k + 1], ops[..k]);
      GroupSpells(ts[k + 1..], ops[k + 1..]);
    }
  }

  lemma {:induction false} OperandFormed(t: Tree)
    requires Operand(t)
    ensures Formed(t) && InLevel(t, 30) && !t.Infix?
  {
    if t.Prefix? { OperandFormed(t.operand); }
  }

  /** The operand of an operator of class `op`: not infix, or infix and not weaker (`strict`: stronger). */
  predicate Fits(t: Tree, op: TKind, strict: bool) {
    if t.Infix? then IsInfix(t.op) && !Weaker(t.op, op) && (strict ==> Weaker(op, t.op)) else InLevel(t, 30)
  }

  lemma FitsLevel(t: Tree, op: TKind, strict: bool)
    requires IsInfix(op) && Fits(t, op, strict)
    ensures InLevel(t, if strict then LeftPower(op) + 1 else LeftPower(op))
  {
    hide Class, InfixBindingPower, PrefixBindingPower;
    PowerOf(op);
    if t.Infix? {
      PowersExact(op, t.op);
      PowersExact(t.op, op);
      LevelOf(t);
    } else {
      LevelDown(t, 30, if strict then LeftPower(op) + 1 else LeftPower(op));
    }
  }

  lemma LevelOf(t: Tree)
    requires t.Infix? && InfixBindingPower(t.op).Some?
    ensures InLevel(t, LeftPower(t.op)) && InLevel(t, 0)
  {
    hide InfixBindingPower;
  }

  lemma InfixFormed(l: Tree, op: TKind, r: Tree)
    requires IsInfix(op) && Formed(l) && Formed(r) && Fits(l, op, true) && Fits(r, op, false)
    ensures Formed(Infix(l, op, r)) && InLevel(Infix(l, op, r), 0)
  {
    hide InfixBindingPower, Fits, InLevel, Class;
    PowerOf(op);
    FitsLevel(l, op, true);
    FitsLevel(r, op, false);
    PowersStep(op);
    LevelDown(r, LeftPower(op), LeftPower(op) - 1);
    LevelOf(Infix(l, op, r));
  }

  /** The tree of a chain is a derivation, with its weakest operator at the root. */
  lemma {:induction false} GroupFormed(ts: seq<Tree>, ops: seq<TKind>)
    requires |ts| == |ops| + 1 && AllInfix(ops) && Operands(ts)
    ensures Formed(Group(ts, ops)) && InLevel(Group(ts, ops), 0)
    ensures ops == [] ==> InLevel(Group(ts, ops), 30) && !Group(ts, ops).Infix?
    ensures ops != [] ==> Group(ts, ops).Infix? && Group(ts, ops).op == ops[Weakest(ops)]
    decreases |ops|
  {
    hide Weaker, IsInfix, InLevel, Formed, Operand;
    if ops == [] {
      OperandFormed(ts[0]);
      LevelDown(ts[0], 30, 0);
    } else {
      var k := Weakest(ops);
      GroupFormed(ts[..k + 1], ops[..k]);
      GroupFormed(ts[k + 1..], ops[k + 1..]);
      if k > 0 { NotWeaker(ops[k], ops[..k][Weakest(ops[..k])]); }
      InfixFormed(Group(ts[..k + 1], ops[..k]), ops[k], Group(ts[k + 1..], ops[k + 1..]));
    }
  }

  lemma NotWeaker(k: TKind, m: TKind)
    requires Weaker(k, m)
    ensures !Weaker(m, k)
  {
    hide Class;
  }

  /** The parser groups every chain of operands as the order of the operators says. */
  lemma ChainParses(toks: seq<Token>, i: nat, j: nat, ts: seq<Tree>, ops: seq<TKind>)
    requires |ts| == |ops| + 1 && AllInfix(ops) && Operands(ts) && Spelled(toks, i, j, Flat(ts, ops))
    requires Kind(toks, j) != LeftParen && !IsInfix(Kind(toks, j))
    ensures Expression(toks, i) == Done(Group(ts, ops), j)
  {
    hide IsInfix, Flat, Group, Expression;
    GroupSpells(ts, ops);
    GroupFormed(ts, ops);
    PowersExact(Kind(toks, j), Kind(toks, j));
    ExpressionComplete(toks, i, j, Group(ts, ops));
  }

  // ---- every operator tree is the tree of its chain ----

  /** The operands of a tree of operators, left to right. */
  function Leaves(t: Tree): (ts: seq<Tree>)
    ensures |ts| == |OpsOf(t)| + 1
  {
    if t.Infix? then Leaves(t.left) + Leaves(t.right) else [t]
  }

  /** Its operators, left to right. */
  function OpsOf(t: Tree): seq<TKind> {
    if t.Infix? then OpsOf(t.left) + [t.op] + OpsOf(t.right) else []
  }

  lemma {:induction false} FormedOperand(t: Tree)
    requires Formed(t) && InLevel(t, 0) && !t.Infix?
    ensures Operand(t)
  {
    if t.Prefix? {
      PrefixStrongest(t.op, t.op);
      if t.operand.Infix? { PrefixStrongest(t.op, t.operand.op); }
      LevelDown(t.operand, PrefixBindingPower(t.op).value, 0);
      FormedOperand(t.operand);
    }
  }

  lemma FlatJoin(a: seq<Tree>, ops: seq<TKind>, k: TKind, b: seq<Tree>, more: seq<TKind>)
    requires |a| == |ops| + 1 && |b| == |more| + 1
    ensures Flat(a + b, ops + [k] + more) == Flat(a, ops) + [Mark(k)] + Flat(b, more)
  {
    var ts, all := a + b, ops + [k] + more;
    FlatSplit(ts, all, |ops|);
    assert ts[..|a|] == a && ts[|a|..] == b && all[..|ops|] == ops && all[|ops| + 1..] == more;
  }

  /** The chain of a derivation is made of operands and operators, and spells the derivation. */
  lemma {:induction false} LeavesSpell(t: Tree)
    requires Formed(t) && InLevel(t, 0)
    ensures Operands(Leaves(t)) && AllInfix(OpsOf(t)) && Flat(Leaves(t), OpsOf(t)) == Yield(t)
  {
    hide Operand, IsInfix, InfixBindingPower, Flat;
    if t.Infix? {
      PowerOf(t.op);
      LevelDown(t.left, InfixBindingPower(t.op).value.0 + 1, 0);
      LevelDown(t.right, InfixBindingPower(t.op).value.1, 0);
      LeavesSpell(t.left);
      LeavesSpell(t.right);
      FlatJoin(Leaves(t.left), OpsOf(t.left), t.op, Leaves(t.right), OpsOf(t.right));
    } else {
      FormedOperand(t);
      Single(t);
    }
  }

  lemma Single(t: Tree)
    ensures Flat([t], []) == Yield(t)
  {
  }

  /** The parser never groups an expression in any other way. */
  lemma TreeIsGroup(t: Tree)
    requires Formed(t) && InLevel(t, 0)
    ensures AllInfix(OpsOf(t)) && t == Group(Leaves(t), OpsOf(t))
  {
    hide Formed, Yield, Flat, Group, Leaves, OpsOf, InLevel;
    LeavesSpell(t);
    GroupFormed(Leaves(t), OpsOf(t));
    GroupSpells(Leaves(t), OpsOf(t));
    Unambiguous(t, Group(Leaves(t), OpsOf(t)));
  }

  /** Two operators: grouped to the left exactly when the first is of a strictly stronger class. */
  lemma ThreeOperands(toks: seq<Token>, i: nat, j: nat, a: Tree, k: TKind, b: Tree, m: TKind, c: Tree)
    requires IsInfix(k) && IsInfix(m) && Operand(a) && Operand(b) && Operand(c)
    requires Spelled(toks, i, j, Yield(a) + [Mark(k)] + Yield(b) + [Mark(m)] + Yield(c))
    requires Kind(toks, j) != LeftParen && !IsInfix(Kind(toks, j))
    ensures Expression(toks, i) ==
      Done(if Weaker(m, k) then Infix(Infix(a, k, b), m, c) else Infix(a, k, Infix(b, m, c)), j)
  {
    hide Operand, IsInfix, Expression, Yield;
    var ts, ops := [a, b, c], [k, m];
    assert Flat([c], []) == Yield(c);
    assert Flat([b, c], [m]) == Yield(b) + [Mark(m)] + Yield(c);
    assert ts[1..] == [b, c] && ops[1..] == [m];
    assert Flat(ts, ops) == Yield(a) + [Mark(k)] + Yield(b) + [Mark(m)] + Yield(c);
    ChainParses(toks, i, j, ts, ops);
    var w := Weakest(ops);
    assert Group([a], []) == a && Group([b], []) == b && Group([c], []) == c;
    Pair(a, k, b);
    Pair(b, m, c);
    if Weaker(m, k) {
      assert w == 1;
      assert ts[..2] == [a, b] && ops[..1] == [k] && ts[2..] == [c] && ops[2..] == [];
    } else {
      assert w == 0;
      assert ts[..1] == [a] && ops[..0] == [] && ts[1..] == [b, c] && ops[1..] == [m];
    }
  }

  lemma Pair(a: Tree, k: TKind, b: Tree)
    requires IsInfix(k)
    ensures Group([a, b], [k]) == Infix(a, k, b)
  {
    var ts, ops := [a, b], [k];
    assert Weakest(ops) == 0;
    assert ts[..1] == [a] && ts[1..] == [b] && ops[..0] == [] && ops[1..] == [];
  }
}
