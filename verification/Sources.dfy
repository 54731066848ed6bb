/** From the tokens of a body to the answer of its compiled code, for the programs of `Programs`. */
module Sources {
  import opened Wrappers
  import opened Tokens
  import opened Grammar
  import opened ParserSpec
  import opened ParserCorrect
  import opened Programs
  import opened Operators
  import V = Values
  import Ast

  /** The tokens parse as one expression up to the end, and its code returns `v`. */
  ghost predicate Answers(toks: seq<Token>, v: V.Val) {
    var r := Expression(toks, 0);
    r.out.Ok? && r.pos == |toks| && Returns(Erase(r.out.value), v)
  }

  /** The tokens of a derivation answer what its syntax tree returns. */
  lemma TreeAnswers(t: Tree, v: V.Val)
    requires Formed(t) && IsExpression(t) && Returns(Erase(t), v)
    ensures Answers(Yield(t), v)
  {
    hide Formed, Yield, IsExpression, Returns, Erase, Expression;
    var toks := Yield(t);
    assert toks[0..|toks|] == toks;
    ExtendsNot(t, Error);
    ExpressionComplete(toks, 0, |toks|, t);
  }

  function IntToken(s: string): Token {
    Lexeme(IntLit, s)
  }

  /** The number that a literal stands for. */
  function Meant(s: string): V.I64
    requires IntOf(s).Some?
  {
    IntOf(s).value
  }

  lemma NumberReads(s: string)
    requires IntOf(s).Some?
    ensures var t := Atom(IntToken(s));
      && Formed(t) && IsExpression(t) && !Extends(t, Else)
      && Yield(t) == [IntToken(s)] && Erase(t) == Number(Meant(s))
  {
  }

  lemma ItemsCons(e: Tree, rest: seq<Tree>)
    requires IsItem(e) && Formed(e) && FormedItems(rest) && (rest != [] ==> !Extends(e, Head(rest[0])))
    ensures var items := [e] + rest;
      && FormedItems(items) && YieldItems(items) == Yield(e) + YieldItems(rest)
      && EraseAll(items) == [Erase(e)] + EraseAll(rest)
  {
    hide Formed, Yield, Erase, Extends, Head, IsItem;
    assert ([e] + rest)[1..] == rest;
  }

  /** A block of one expression. */
  lemma BlockOf(e: Tree)
    requires Formed(e) && IsExpression(e)
    ensures var t := Block([e]);
      && Formed(t) && IsExpression(t) && Erase(t) == Ast.Block([Erase(e)])
      && Yield(t) == [Mark(LeftBrace)] + Yield(e) + [Mark(RightBrace)]
  {
    ItemsCons(e, []);
    assert [e] + [] == [e];
  }

  /** An operation on two atoms. */
  lemma InfixOf(l: Token, op: TKind, r: Token)
    requires Formed(Atom(l)) && Formed(Atom(r)) && InfixBindingPower(op).Some?
    ensures var t := Infix(Atom(l), op, Atom(r));
      && Formed(t) && IsExpression(t) && Yield(t) == [l, Mark(op), r]
      && Erase(t) == Ast.Binary(Erase(Atom(l)), op, Erase(Atom(r)))
  {
  }

  lemma OperatorInfix(op: TKind)
    requires V.IsArithmetic(op) || V.IsComparison(op)
    ensures InfixBindingPower(op).Some?
  {
  }

  /** `{ l op r }`. */
  lemma OperatorAnswers(l: string, op: TKind, r: string, v: V.Val)
    requires IntOf(l).Some? && IntOf(r).Some? && (V.IsArithmetic(op) || V.IsComparison(op))
    requires Promised(op, Meant(l), Meant(r), V.Value(v))
    ensures Answers([Mark(LeftBrace), IntToken(l), Mark(op), IntToken(r), Mark(RightBrace)], v)
  {
    hide *;
    OperatorReads(l, op, r);
    OperatorReturns(Meant(l), op, Meant(r), v);
    TreeAnswers(OperatorTree(l, op, r), v);
  }

  function OperatorTree(l: string, op: TKind, r: string): Tree {
    Block([Infix(Atom(IntToken(l)), op, Atom(IntToken(r)))])
  }

  lemma OperatorReads(l: string, op: TKind, r: string)
    requires IntOf(l).Some? && IntOf(r).Some? && (V.IsArithmetic(op) || V.IsComparison(op))
    ensures var t := OperatorTree(l, op, r);
      && Formed(t) && IsExpression(t) && Erase(t) == Ast.Block([Operation(Meant(l), op, Meant(r))])
      && Yield(t) == [Mark(LeftBrace), IntToken(l), Mark(op), IntToken(r), Mark(RightBrace)]
  {
    hide IntOf, Formed, Yield, Erase, InfixBindingPower, IsExpression, Meant;
    OperatorInfix(op);
    NumberReads(l);
    NumberReads(r);
    InfixOf(IntToken(l), op, IntToken(r));
    BlockOf(Infix(Atom(IntToken(l)), op, Atom(IntToken(r))));
  }

  /** `{ if (c) n else m }`. */
  lemma ConditionalAnswers(c: bool, n: string, m: string)
    requires IntOf(n).Some? && IntOf(m).Some?
    ensures Answers(
      [Mark(LeftBrace), Mark(TKind.If), Mark(LeftParen), Mark(if c then True else False), Mark(RightParen),
       IntToken(n), Mark(Else), IntToken(m), Mark(RightBrace)], V.Int(if c then Meant(n) else Meant(m)))
  {
    hide Returns, Answers, IntOf, Formed, Yield, Erase, IsExpression, Extends, Meant;
    var cond := Atom(Mark(if c then True else False));
    var e := IfElse(cond, Atom(IntToken(n)), Atom(IntToken(m)));
    NumberReads(n);
    NumberReads(m);
    TruthReads(c);
    ChoiceJoins(cond, Atom(IntToken(n)), Atom(IntToken(m)));
    ConditionalReturns(c, Meant(n), Meant(m));
    BlockOf(e);
    TreeAnswers(Block([e]), V.Int(if c then Meant(n) else Meant(m)));
    assert [Mark(LeftBrace)] + Yield(e) + [Mark(RightBrace)] ==
      [Mark(LeftBrace), Mark(TKind.If), Mark(LeftParen), cond.tok, Mark(RightParen),
       IntToken(n), Mark(Else), IntToken(m), Mark(RightBrace)];
  }

  lemma TruthReads(c: bool)
    ensures var t := Atom(Mark(if c then True else False));
      Formed(t) && IsExpression(t) && Yield(t) == [t.tok] && Erase(t) == Ast.Lit(Ast.Bool(c))
  {
  }

  lemma ChoiceJoins(cond: Tree, thn: Tree, els: Tree)
    requires Formed(cond) && IsExpression(cond) && Formed(thn) && IsExpression(thn) && !Extends(thn, Else)
    requires Formed(els) && IsExpression(els)
    ensures var t := IfElse(cond, thn, els);
      && Formed(t) && IsExpression(t) && Erase(t) == Ast.If(Erase(cond), Erase(thn), Some(Erase(els)))
      && Yield(t) == [Mark(TKind.If), Mark(LeftParen)] + Yield(cond) + [Mark(RightParen)] + Yield(thn)
                     + [Mark(Else)] + Yield(els)
  {
  }

  // ----- the counting loop

  const NAME_TOKEN: Token := Lexeme(Identifier, NAME)
  const NAME_TREE: Tree := Atom(NAME_TOKEN)
  const ONE: Tree := Atom(IntToken("1"))

  lemma NameReads()
    ensures Formed(NAME_TREE) && Yield(NAME_TREE) == [NAME_TOKEN] && Erase(NAME_TREE) == USE && IsItem(NAME_TREE)
    ensures Formed(ONE) && Yield(ONE) == [IntToken("1")] && Erase(ONE) == Number(1)
  {
    var s := "1";
    assert s[..0] == [] && DigitsValue(s[..0]) == 0 && DigitsValue(s) == 1;
    assert IsDigits(s);
  }

  /** `a = a + 1`. */
  const STEP: Tree := Infix(NAME_TREE, Equal, Infix(NAME_TREE, Plus, ONE))

  lemma StepReads()
    ensures Formed(STEP) && IsExpression(STEP) && Erase(STEP) == INCREMENT
    ensures Yield(STEP) == [NAME_TOKEN, Mark(Equal), NAME_TOKEN, Mark(Plus), IntToken("1")]
  {
    hide IntOf;
    NameReads();
    InfixOf(NAME_TOKEN, Plus, IntToken("1"));
  }

  /** `while (a < m) { a = a + 1 }`. */
  function LoopTree(m: string): Tree {
    Tree.While(Infix(NAME_TREE, Less, Atom(IntToken(m))), Block([STEP]))
  }

  function LoopTokens(m: string): seq<Token> {
    [Mark(TKind.While), Mark(LeftParen), NAME_TOKEN, Mark(Less), IntToken(m), Mark(RightParen),
     Mark(LeftBrace), NAME_TOKEN, Mark(Equal), NAME_TOKEN, Mark(Plus), IntToken("1"), Mark(RightBrace)]
  }

  lemma LoopReads(m: string)
    requires IntOf(m).Some?
    ensures var t := LoopTree(m);
      Formed(t) && IsItem(t) && Yield(t) == LoopTokens(m) && Erase(t) == CountTo(Meant(m)) && Head(t) == TKind.While
    ensures forall k :: !Extends(LoopTree(m), k)
  {
    hide IntOf, Formed, Yield, Erase, IsExpression, Meant, InfixBindingPower, IsItem, LoopTokens;
    GuardReads(m);
    StepReads();
    BlockOf(STEP);
    var guard := Infix(NAME_TREE, Less, Atom(IntToken(m)));
    LoopJoins(guard, Block([STEP]));
    LoopSpelled(m);
  }

  lemma GuardReads(m: string)
    requires IntOf(m).Some?
    ensures var t := Infix(NAME_TREE, Less, Atom(IntToken(m)));
      && Formed(t) && IsExpression(t) && Yield(t) == [NAME_TOKEN, Mark(Less), IntToken(m)]
      && Erase(t) == Ast.Binary(USE, Less, Number(Meant(m)))
  {
    hide IntOf, Formed, Yield, Erase, IsExpression, Meant, InfixBindingPower;
    NameReads();
    NumberReads(m);
    OperatorInfix(Less);
    InfixOf(NAME_TOKEN, Less, IntToken(m));
  }

  lemma LoopSpelled(m: string)
    ensures LoopTokens(m) ==
      [Mark(TKind.While), Mark(LeftParen)] + [NAME_TOKEN, Mark(Less), IntToken(m)] + [Mark(RightParen)]
      + ([Mark(LeftBrace)] + [NAME_TOKEN, Mark(Equal), NAME_TOKEN, Mark(Plus), IntToken("1")] + [Mark(RightBrace)])
  {
  }

  lemma LoopJoins(cond: Tree, body: Tree)
    requires Formed(cond) && IsExpression(cond) && Formed(body) && IsExpression(body)
    ensures var t := Tree.While(cond, body);
      && Formed(t) && IsItem(t) && Erase(t) == Ast.While(Erase(cond), Erase(body))
      && Yield(t) == [Mark(TKind.While), Mark(LeftParen)] + Yield(cond) + [Mark(RightParen)] + Yield(body)
  {
  }

  /** `var a = n`. */
  function LetTree(n: string): Tree {
    Decl(false, NAME_TOKEN, Atom(IntToken(n)))
  }

  lemma LetReads(n: string)
    requires IntOf(n).Some?
    ensures var t := LetTree(n);
      && Formed(t) && IsItem(t) && Yield(t) == [Mark(Var), NAME_TOKEN, Mark(Equal), IntToken(n)]
      && Erase(t) == Let(Meant(n)) && !Extends(t, TKind.While)
  {
    hide IntOf;
    NumberReads(n);
  }

  /** `{ var a = n while (a < m) { a = a + 1 } a }`. */
  lemma LoopAnswers(n: string, m: string)
    requires IntOf(n).Some? && IntOf(m).Some?
    ensures Answers(
      [Mark(LeftBrace), Mark(Var), NAME_TOKEN, Mark(Equal), IntToken(n)] + LoopTokens(m)
        + [NAME_TOKEN, Mark(RightBrace)],
      V.Int(if Meant(n) < Meant(m) then Meant(m) else Meant(n)))
  {
    hide Returns, Answers, IntOf, LoopTree, LoopTokens, LetTree, CountTo, Let, Meant;
    hide Formed, Yield, Erase, Extends, IsItem;
    LetReads(n);
    LoopReads(m);
    NameReads();
    var let, loop := LetTree(n), LoopTree(m);
    ItemsCons(NAME_TREE, []);
    assert EraseAll([]) == [] && YieldItems([]) == [];
    assert [NAME_TREE] + [] == [NAME_TREE];
    ItemsCons(loop, [NAME_TREE]);
    assert [loop] + [NAME_TREE] == [loop, NAME_TREE];
    ItemsCons(let, [loop, NAME_TREE]);
    assert [let] + [loop, NAME_TREE] == [let, loop, NAME_TREE];
    ItemsBlock([let, loop, NAME_TREE]);
    assert EraseAll([let, loop, NAME_TREE]) == [Let(Meant(n)), CountTo(Meant(m)), USE];
    var v := V.Int(if Meant(n) < Meant(m) then Meant(m) else Meant(n));
    LoopReturns(Meant(n), Meant(m));
    TreeAnswers(Block([let, loop, NAME_TREE]), v);
    assert Yield(Block([let, loop, NAME_TREE])) ==
      [Mark(LeftBrace), Mark(Var), NAME_TOKEN, Mark(Equal), IntToken(n)] + LoopTokens(m)
      + [NAME_TOKEN, Mark(RightBrace)];
  }

  lemma ItemsBlock(items: seq<Tree>)
    requires FormedItems(items)
    ensures var t := Block(items);
      && Formed(t) && IsExpression(t) && Erase(t) == Ast.Block(EraseAll(items))
      && Yield(t) == [Mark(LeftBrace)] + YieldItems(items) + [Mark(RightBrace)]
  {
  }
}
