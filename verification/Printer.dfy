/**
 * Printing a syntax tree with parentheses only where the grammar needs them. Parsing undoes the
 * print, the printable trees are exactly the parser's results, and no spelling is shorter.
 */
module Printer {
  import opened Wrappers
  import opened Tokens
  import opened Grammar
  import opened ParserSpec
  import opened ParserCorrect
  import A = Ast

  // ---- literals ----

  function Digit(d: nat): char
    requires d < 10
  {
    '0' + d as char
  }

  function Decimal(n: nat): string
    decreases n
  {
    (if n < 10 then [] else Decimal(n / 10)) + [Digit(n % 10)]
  }

  lemma DigitIsDigit(d: nat)
    requires d < 10
    ensures '0' <= Digit(d) <= '9' && (Digit(d) - '0') as nat == d
  {}

  lemma DigitsSnoc(s: string, d: nat)
    requires s == [] || IsDigits(s)
    requires d < 10
    ensures IsDigits(s + [Digit(d)]) && DigitsValue(s + [Digit(d)]) == 10 * DigitsValue(s) + d
  {
    hide Digit;
    DigitIsDigit(d);
    var t := s + [Digit(d)];
    assert t[..|t| - 1] == s;
  }

  lemma NoDigits()
    ensures DigitsValue([]) == 0
  {}

  /** Decimal notation is read back as the number. */
  lemma {:induction false} DecimalValue(n: nat)
    ensures IsDigits(Decimal(n)) && DigitsValue(Decimal(n)) == n
    decreases n
  {
    hide Digit, IsDigits, DigitsValue;
    if n < 10 {
      NoDigits();
      DigitsSnoc([], n);
      assert Decimal(n) == [] + [Digit(n)];
    } else {
      DecimalValue(n / 10);
      DigitsSnoc(Decimal(n / 10), n % 10);
    }
  }

  function LitToken(l: A.Literal): Token {
    match l
    case Bool(b) => Mark(if b then True else False)
    case Int(n) => Lexeme(IntLit, if n < 0 then "" else Decimal(n))
    case Float(lex) => Lexeme(FloatLit, lex)
    case Str(lex) => Lexeme(StringLit, lex)
  }

  // ---- printing ----

  /** Parenthesise a tree where its place does not admit it bare. */
  function Wrap(t: Tree, bare: bool): Tree {
    if bare then t else Paren(t)
  }

  function LeftPower(op: TKind): nat {
    var p := InfixBindingPower(op);
    if p.Some? then p.value.0 else 0
  }

  function RightPower(op: TKind): nat {
    var p := InfixBindingPower(op);
    if p.Some? then p.value.1 else 0
  }

  function PrefixPower(op: TKind): nat {
    var p := PrefixBindingPower(op);
    if p.Some? then p.value else 0
  }

  /** The derivation that `e` is printed as. */
  function Lay(e: A.Expr): Tree
    decreases e
  {
    match e
    case Lit(l) => Atom(LitToken(l))
    case Ident(name) => Atom(Lexeme(Identifier, name))
    case Variable(final, name, value) => Decl(final, Lexeme(Identifier, name), Lay(value))
    case Block(exprs) => Block(LayAll(exprs))
    case If(cond, thn, None) => Tree.If(Lay(cond), Lay(thn))
    case If(cond, thn, Some(els)) =>
      IfElse(Lay(cond), Wrap(Lay(thn), !Extends(Lay(thn), Else)), Lay(els))
    case While(cond, body) => Tree.While(Lay(cond), Lay(body))
    case Binary(left, op, right) =>
      Infix(Wrap(Lay(left), InLevel(Lay(left), LeftPower(op) + 1)), op,
            Wrap(Lay(right), InLevel(Lay(right), RightPower(op))))
    case Unary(op, right) => Prefix(op, Wrap(Lay(right), InLevel(Lay(right), PrefixPower(op))))
    case Call(callee, args) => Call(Wrap(Lay(callee), IsPostfix(Lay(callee))), LayAll(args))
  }

  function LayAll(es: seq<A.Expr>): (ts: seq<Tree>)
    ensures |ts| == |es|
    ensures forall i :: 0 <= i < |es| ==> ts[i] == Lay(es[i])
    decreases es
  {
    if es == [] then [] else [Lay(es[0])] + LayAll(es[1..])
  }

  function Print(e: A.Expr): seq<Token> {
    Yield(Lay(e))
  }

  /**
   * The trees with a concrete syntax: literals the lexer can spell, operators of the table,
   * declarations only in blocks, and no element of a block that the next one would carry on.
   */
  predicate Printable(e: A.Expr)
    decreases e, 1
  {
    match e
    case Lit(Int(n)) => n >= 0
    case Lit(Float(lex)) => PlainFloat(lex)
    case Lit(_) => true
    case Ident(_) => true
    case Variable(_, _, _) => false
    case Block(exprs) => PrintableItems(exprs)
    case If(cond, thn, els) =>
      Printable(cond) && Printable(thn) && (els.Some? ==> Printable(els.value))
    case While(cond, body) => Printable(cond) && Printable(body)
    case Binary(left, op, right) => InfixBindingPower(op).Some? && Printable(left) && Printable(right)
    case Unary(op, right) => PrefixBindingPower(op).Some? && Printable(right)
    case Call(callee, args) => Printable(callee) && PrintableArgs(args)
  }

  predicate PrintableArgs(es: seq<A.Expr>)
    decreases es, 0
  {
    es == [] || (Printable(es[0]) && PrintableArgs(es[1..]))
  }

  predicate PrintableItems(es: seq<A.Expr>)
    decreases es, 0
  {
    es == []
    || (PrintableItem(es[0]) && PrintableItems(es[1..])
        && (|es| > 1 ==> !Extends(Lay(es[0]), Head(Lay(es[1])))))
  }

  predicate PrintableItem(e: A.Expr)
    decreases e, 2
  {
    if e.Variable? then Printable(e.value) else Printable(e)
  }

  // ---- the print is a derivation of the tree ----

  /** `t` is a derivation of the expression `e`. */
  predicate Derives(t: Tree, e: A.Expr) {
    Formed(t) && IsExpression(t) && Erase(t) == e
  }

  lemma WrapDerives(t: Tree, e: A.Expr, bare: bool)
    requires Derives(t, e)
    ensures Derives(Wrap(t, bare), e)
  {}

  lemma {:induction false} LayDerives(e: A.Expr)
    requires Printable(e)
    ensures Derives(Lay(e), e)
    decreases e, 1
  {
    match e
    case Lit(l) => LitDerives(l);
    case Ident(_) =>
    case Block(exprs) => LayItemsDerive(exprs);
    case If(_, _, _) => IfDerives(e);
    case While(cond, body) =>
      LayDerives(cond);
      LayDerives(body);
    case Binary(_, _, _) => BinaryDerives(e);
    case Unary(_, _) => UnaryDerives(e);
    case Call(_, _) => CallDerives(e);
  }

  lemma LitDerives(l: A.Literal)
    requires Printable(A.Lit(l))
    ensures Derives(Lay(A.Lit(l)), A.Lit(l))
  {
    hide Decimal, DigitsValue, IsDigits;
    if l.Int? { DecimalValue(l.n); }
  }

  lemma {:induction false} IfDerives(e: A.Expr)
    requires e.If? && Printable(e)
    ensures Derives(Lay(e), e)
    decreases e, 0
  {
    LayDerives(e.cond);
    LayDerives(e.thn);
    if e.els.Some? {
      LayDerives(e.els.value);
      WrapDerives(Lay(e.thn), e.thn, !Extends(Lay(e.thn), Else));
    }
  }

  lemma {:induction false} BinaryDerives(e: A.Expr)
    requires e.Binary? && Printable(e)
    ensures Derives(Lay(e), e)
    decreases e, 0
  {
    LayDerives(e.left);
    LayDerives(e.right);
    WrapDerives(Lay(e.left), e.left, InLevel(Lay(e.left), LeftPower(e.op) + 1));
    WrapDerives(Lay(e.right), e.right, InLevel(Lay(e.right), RightPower(e.op)));
  }

  lemma {:induction false} UnaryDerives(e: A.Expr)
    requires e.Unary? && Printable(e)
    ensures Derives(Lay(e), e)
    decreases e, 0
  {
    LayDerives(e.right);
    WrapDerives(Lay(e.right), e.right, InLevel(Lay(e.right), PrefixPower(e.op)));
  }

  lemma {:induction false} CallDerives(e: A.Expr)
    requires e.Call? && Printable(e)
    ensures Derives(Lay(e), e)
    decreases e, 0
  {
    LayDerives(e.callee);
    LayArgsDerive(e.args);
    WrapDerives(Lay(e.callee), e.callee, IsPostfix(Lay(e.callee)));
  }

  lemma {:induction false} LayArgsDerive(es: seq<A.Expr>)
    requires PrintableArgs(es)
    ensures FormedArgs(LayAll(es)) && EraseAll(LayAll(es)) == es
    decreases es, 0
  {
    if es != [] {
      LayDerives(es[0]);
      LayArgsDerive(es[1..]);
      assert LayAll(es)[1..] == LayAll(es[1..]);
    }
  }

  lemma {:induction false} LayItemsDerive(es: seq<A.Expr>)
    requires PrintableItems(es)
    ensures FormedItems(LayAll(es)) && EraseAll(LayAll(es)) == es
    decreases es, 0
  {
    hide Printable, Extends, Head, Formed, Erase, IsItem;
    if es != [] {
      LayItemDerives(es[0]);
      LayItemsDerive(es[1..]);
      assert LayAll(es)[1..] == LayAll(es[1..]);
    }
  }

  lemma {:induction false} LayItemDerives(e: A.Expr)
    requires PrintableItem(e)
    ensures Formed(Lay(e)) && IsItem(Lay(e)) && Erase(Lay(e)) == e
    decreases e, 2
  {
    LayDerives(if e.Variable? then e.value else e);
  }

  // ---- the round trip ----

  /** The parser's own result: the syntax tree without the derivation. */
  function Erased(r: Reply<Tree>): Reply<A.Expr> {
    if r.out.Ok? then Done(Erase(r.out.value), r.pos) else r.PropagateFailure()
  }

  /** Parsing a print gives back the tree and stops right after it, unless the next token extends it. */
  lemma RoundTrip(before: seq<Token>, e: A.Expr, after: seq<Token>)
    requires Printable(e)
    ensures var toks := before + Print(e) + after;
      var end := |before| + |Print(e)|;
      Erased(Expression(toks, |before|)) == Done(e, end) <==> !Extends(Lay(e), Kind(toks, end))
  {
    hide Expression, Extends, Formed, IsExpression;
    var toks := before + Print(e) + after;
    var i, end := |before|, |before| + |Print(e)|;
    assert toks[i..end] == Print(e);
    LayDerives(e);
    if !Extends(Lay(e), Kind(toks, end)) {
      ExpressionComplete(toks, i, end, Lay(e));
    } else if Erased(Expression(toks, i)) == Done(e, end) {
      ExpressionSound(toks, i);
      Unambiguous(Expression(toks, i).out.value, Lay(e));
    }
  }

  /** In particular a token that is no infix operator, no `(` and no `else` is left alone. */
  lemma RoundTripPlain(before: seq<Token>, e: A.Expr, after: seq<Token>)
    requires Printable(e)
    requires after != [] ==>
      after[0].kind !in {LeftParen, Else} && InfixBindingPower(after[0].kind).None?
    ensures Erased(Expression(before + Print(e) + after, |before|)) == Done(e, |before| + |Print(e)|)
  {
    hide Expression, Extends, Lay;
    var toks := before + Print(e) + after;
    assert Kind(toks, |before| + |Print(e)|) == if after == [] then Error else after[0].kind;
    ExtendsNot(Lay(e), Kind(toks, |before| + |Print(e)|));
    RoundTrip(before, e, after);
  }

  // ---- what the parser returns is printable ----

  /** Outside parentheses a derivation and the print of its tree have the same shape. */
  lemma SameShape(t: Tree, p: nat)
    requires Formed(t) && !t.Paren?
    ensures var u := Lay(Erase(t));
      && InLevel(u, p) == InLevel(t, p) && IsPostfix(u) == IsPostfix(t) && !u.Paren?
      && IsExpression(u) == IsExpression(t)
  {}

  /** The tokens that an element of a block must not be followed by: `(` and the infix operators. */
  predicate Opener(k: TKind) {
    k == LeftParen || InfixBindingPower(k).Some?
  }

  lemma {:induction false} OpenersAlike(t: Tree, k: TKind, l: TKind)
    requires Opener(k) && Opener(l) && Extends(t, k)
    ensures Extends(t, l)
    decreases t
  {
    match t
    case If(_, thn) => OpenersAlike(thn, k, l);
    case IfElse(_, _, els) => OpenersAlike(els, k, l);
    case While(_, body) => OpenersAlike(body, k, l);
    case Decl(_, _, value) => OpenersAlike(value, k, l);
    case _ =>
  }

  /** Dropping parentheses never makes a tree easier to extend by an opener. */
  lemma {:induction false} LayExtendsLess(t: Tree, k: TKind)
    requires Formed(t) && Opener(k) && Extends(Lay(Erase(t)), k)
    ensures Extends(t, k)
    decreases t
  {
    match t
    case If(_, thn) => LayExtendsLess(thn, k);
    case IfElse(_, _, els) => LayExtendsLess(els, k);
    case While(_, body) => LayExtendsLess(body, k);
    case Decl(_, _, value) => LayExtendsLess(value, k);
    case _ =>
  }

  lemma {:induction false} LayHead(t: Tree)
    requires Formed(t) && Opener(Head(Lay(Erase(t))))
    ensures Opener(Head(t))
    decreases t, 0
  {
    hide IsExpression, Extends, Readable, Wrap, AtomLiteral, LitToken, InfixBindingPower, PrefixBindingPower;
    if t.Atom? {
      AtomHead(t.tok);
    } else if t.Call? {
      OperandHead(t.callee, 0);
    } else if t.Infix? {
      InfixHead(t.left, t.op, t.right);
    }
  }

  lemma {:induction false} InfixHead(left: Tree, op: TKind, right: Tree)
    requires Formed(Infix(left, op, right)) && Opener(Head(Lay(Erase(Infix(left, op, right)))))
    ensures Opener(Head(left))
    decreases left, 2
  {
    hide IsExpression, Extends, Wrap, Erase, Head;
    OperandHead(left, LeftPower(op) + 1);
    InfixPrint(left, op, right);
  }

  lemma InfixPrint(left: Tree, op: TKind, right: Tree)
    ensures var u := Lay(Erase(left));
      Head(Lay(Erase(Infix(left, op, right)))) == Head(Wrap(u, InLevel(u, LeftPower(op) + 1)))
  {}

  lemma AtomHead(tok: Token)
    requires IsAtomKind(tok.kind)
    ensures !Opener(Head(Lay(AtomLiteral(tok))))
  {}

  lemma {:induction false} OperandHead(t: Tree, p: nat)
    requires Formed(t)
    ensures var u := Lay(Erase(t));
      && (InLevel(t, p) && Opener(Head(Wrap(u, InLevel(u, p)))) ==> Opener(Head(t)))
      && (IsPostfix(t) && Opener(Head(Wrap(u, IsPostfix(u)))) ==> Opener(Head(t)))
    decreases t, 1
  {
    hide Lay, Erase, Formed, InfixBindingPower;
    if !t.Paren? {
      SameShape(t, p);
      if Opener(Head(Lay(Erase(t)))) { LayHead(t); }
    }
  }

  /** Every derivation's tree can be printed. */
  lemma {:induction false} ErasePrintable(t: Tree)
    requires Formed(t) && IsItem(t)
    ensures PrintableItem(Erase(t)) && (IsExpression(t) ==> Printable(Erase(t)))
    decreases t, 1
  {
    match t
    case Atom(_) =>
    case Paren(inner) => ErasePrintable(inner);
    case Call(callee, args) =>
      ErasePrintable(callee);
      EraseArgsPrintable(args);
    case Prefix(op, operand) => OperandPrintable(operand, PrefixBindingPower(op).value);
    case Infix(left, op, right) =>
      OperandPrintable(left, InfixBindingPower(op).value.0 + 1);
      OperandPrintable(right, InfixBindingPower(op).value.1);
    case Block(items) => EraseItemsPrintable(items);
    case If(cond, thn) =>
      ErasePrintable(cond);
      ErasePrintable(thn);
    case IfElse(cond, thn, els) =>
      ErasePrintable(cond);
      ErasePrintable(thn);
      ErasePrintable(els);
    case While(cond, body) =>
      ErasePrintable(cond);
      ErasePrintable(body);
    case Decl(_, _, value) => ErasePrintable(value);
  }

  lemma {:induction false} OperandPrintable(t: Tree, p: nat)
    requires Formed(t) && InLevel(t, p)
    ensures Printable(Erase(t))
    decreases t, 2
  {
    LevelDown(t, p, 0);
    ErasePrintable(t);
  }

  lemma {:induction false} EraseArgsPrintable(args: seq<Tree>)
    requires FormedArgs(args)
    ensures PrintableArgs(EraseAll(args))
    decreases args, 0
  {
    if args != [] {
      ErasePrintable(args[0]);
      EraseArgsPrintable(args[1..]);
      assert EraseAll(args)[1..] == EraseAll(args[1..]);
    }
  }

  lemma {:induction false} EraseItemsPrintable(items: seq<Tree>)
    requires FormedItems(items)
    ensures PrintableItems(EraseAll(items))
    decreases items, 0
  {
    if items != [] {
      ErasePrintable(items[0]);
      EraseItemsPrintable(items[1..]);
      assert EraseAll(items)[1..] == EraseAll(items[1..]);
      if |items| > 1 {
        ErasePrintable(items[1]);
        NeighboursPrintable(items[0], items[1]);
      }
    }
  }

  lemma NeighboursPrintable(t: Tree, u: Tree)
    requires Formed(t) && Formed(u) && !Extends(t, Head(u)) && PrintableItem(Erase(u))
    ensures !Extends(Lay(Erase(t)), Head(Lay(Erase(u))))
  {
    hide Lay, Erase, Formed, Extends, PrintableItem;
    var k := Head(Lay(Erase(u)));
    if Extends(Lay(Erase(t)), k) {
      ExtendsOnly(Lay(Erase(t)), k);
      LayItemDerives(Erase(u));
      HeadClass(Lay(Erase(u)));
      LayExtendsLess(t, k);
      LayHead(u);
      OpenersAlike(t, k, Head(u));
    }
  }

  /** The trees the parser can return, over all token streams, are the printable ones. */
  lemma Expressible(e: A.Expr)
    ensures Printable(e) <==> exists toks: seq<Token>, i: nat :: Erased(Expression(toks, i)).out == Ok(e)
  {
    hide Expression, Printable;
    if Printable(e) {
      RoundTripPlain([], e, []);
      assert Erased(Expression([] + Print(e) + [], 0)).out == Ok(e);
    }
    if toks: seq<Token>, i: nat :| Erased(Expression(toks, i)).out == Ok(e) {
      ExpressionSound(toks, i);
      ErasePrintable(Expression(toks, i).out.value);
    }
  }

  // ---- no spelling is shorter ----

  /** Among all derivations of a tree, the print has the fewest tokens. */
  lemma {:induction false} Shortest(t: Tree)
    requires Formed(t)
    ensures |Print(Erase(t))| <= |Yield(t)|
    decreases t, 2
  {
    match t
    case Atom(_) =>
    case Paren(inner) => Shortest(inner);
    case Block(items) => ItemsShortest(items);
    case Decl(_, _, value) => Shortest(value);
    case Call(_, _) => OperatorShortest(t);
    case Prefix(_, _) => OperatorShortest(t);
    case Infix(_, _, _) => OperatorShortest(t);
    case If(_, _) => GuardShortest(t);
    case IfElse(_, _, _) => GuardShortest(t);
    case While(_, _) => GuardShortest(t);
  }

  lemma {:induction false} OperatorShortest(t: Tree)
    requires Formed(t) && (t.Call? || t.Prefix? || t.Infix?)
    ensures |Print(Erase(t))| <= |Yield(t)|
    decreases t, 0
  {
    hide IsExpression, InLevel, Extends, AtomLiteral, LitToken, IsAtomKind, Readable, Guarded;
    if t.Call? {
      OperandShortest(t.callee, 0);
      ArgsShortest(t.args);
    } else if t.Prefix? {
      OperandShortest(t.operand, PrefixPower(t.op));
    } else {
      OperandShortest(t.left, LeftPower(t.op) + 1);
      OperandShortest(t.right, RightPower(t.op));
    }
  }

  lemma {:induction false} GuardShortest(t: Tree)
    requires Formed(t) && (t.If? || t.IfElse? || t.While?)
    ensures |Print(Erase(t))| <= |Yield(t)|
    decreases t, 1
  {
    hide IsExpression, InLevel, AtomLiteral, LitToken, IsAtomKind, Readable, LeftPower, RightPower, PrefixPower;
    if t.IfElse? {
      IfElseShortest(t);
    } else {
      Shortest(t.cond);
      Shortest(if t.While? then t.body else t.thn);
    }
  }

  lemma {:induction false} IfElseShortest(t: Tree)
    requires Formed(t) && t.IfElse?
    ensures |Print(Erase(t))| <= |Yield(t)|
    decreases t, 0
  {
    hide Lay, Erase, Formed, Yield, Extends;
    IfElseSizes(t);
    Shortest(t.cond);
    ThenShortest(t.thn);
    Shortest(t.els);
  }

  /** An operand is parenthesised only where every derivation of it is. */
  lemma {:induction false} OperandShortest(t: Tree, p: nat)
    requires Formed(t)
    ensures var u := Lay(Erase(t));
      && (InLevel(t, p) ==> |Yield(Wrap(u, InLevel(u, p)))| <= |Yield(t)|)
      && (IsPostfix(t) ==> |Yield(Wrap(u, IsPostfix(u)))| <= |Yield(t)|)
    decreases t, 3
  {
    hide Lay, Erase, Formed;
    if t.Paren? {
      assert Formed(t.inner) && Erase(t) == Erase(t.inner) by { ParenInner(t); }
      Shortest(t.inner);
    } else {
      SameShape(t, p);
      Shortest(t);
    }
  }

  lemma ParenInner(t: Tree)
    requires t.Paren? && Formed(t)
    ensures Formed(t.inner) && Erase(t) == Erase(t.inner)
  {}

  lemma {:induction false} ThenShortest(t: Tree)
    requires Formed(t) && !Extends(t, Else)
    ensures var u := Lay(Erase(t)); |Yield(Wrap(u, !Extends(u, Else)))| <= |Yield(t)|
    decreases t, 4
  {
    Shortest(t);
    if Extends(Lay(Erase(t)), Else) { DanglingShortest(t); }
  }

  /** A derivation that shuts out an `else` which its print would take has paid for parentheses. */
  lemma {:induction false} DanglingShortest(t: Tree)
    requires Formed(t) && !Extends(t, Else) && Extends(Lay(Erase(t)), Else)
    ensures |Print(Erase(t))| + 2 <= |Yield(t)|
    decreases t, 3
  {
    match t
    case Paren(inner) => Shortest(inner);
    case IfElse(_, _, _) => DanglingElse(t);
    case While(_, _) => DanglingLoop(t);
    case Decl(_, _, value) => DanglingShortest(value);
    case _ =>
  }

  lemma {:induction false} DanglingLoop(t: Tree)
    requires t.While? && Formed(t) && !Extends(t, Else) && Extends(Lay(Erase(t)), Else)
    ensures |Print(Erase(t))| + 2 <= |Yield(t)|
    decreases t, 1
  {
    hide Lay, Erase, Formed, Yield, Extends;
    WhileSizes(t);
    Shortest(t.cond);
    DanglingShortest(t.body);
  }

  lemma WhileSizes(t: Tree)
    requires t.While? && Formed(t)
    ensures Formed(t.cond) && Formed(t.body)
    ensures Extends(t, Else) == Extends(t.body, Else)
    ensures Extends(Lay(Erase(t)), Else) == Extends(Lay(Erase(t.body)), Else)
    ensures |Yield(t)| == 3 + |Yield(t.cond)| + |Yield(t.body)|
    ensures |Yield(Lay(Erase(t)))| == 3 + |Yield(Lay(Erase(t.cond)))| + |Yield(Lay(Erase(t.body)))|
  {
    hide InLevel, IsExpression, AtomLiteral, LitToken, LeftPower, RightPower, PrefixPower;
  }

  lemma {:induction false} DanglingElse(t: Tree)
    requires t.IfElse? && Formed(t) && !Extends(t, Else) && Extends(Lay(Erase(t)), Else)
    ensures |Print(Erase(t))| + 2 <= |Yield(t)|
    decreases t, 1
  {
    hide Lay, Erase, Formed, Yield, Extends;
    IfElseSizes(t);
    Shortest(t.cond);
    ThenShortest(t.thn);
    DanglingShortest(t.els);
  }

  lemma IfElseSizes(t: Tree)
    requires t.IfElse? && Formed(t)
    ensures Formed(t.cond) && Formed(t.thn) && !Extends(t.thn, Else) && Formed(t.els)
    ensures Extends(t, Else) == Extends(t.els, Else)
    ensures Extends(Lay(Erase(t)), Else) == Extends(Lay(Erase(t.els)), Else)
    ensures |Yield(t)| == 4 + |Yield(t.cond)| + |Yield(t.thn)| + |Yield(t.els)|
    ensures var u := Lay(Erase(t.thn));
      |Yield(Lay(Erase(t)))|
      == 4 + |Yield(Lay(Erase(t.cond)))| + |Yield(Wrap(u, !Extends(u, Else)))| + |Yield(Lay(Erase(t.els)))|
  {
    hide Wrap, InLevel, IsExpression, AtomLiteral, LitToken, LeftPower, RightPower, PrefixPower;
  }

  lemma {:induction false} ArgsShortest(args: seq<Tree>)
    requires FormedArgs(args)
    ensures |YieldArgs(LayAll(EraseAll(args)))| <= |YieldArgs(args)|
    decreases args, 0
  {
    if args != [] {
      Shortest(args[0]);
      ArgsShortest(args[1..]);
      assert EraseAll(args)[1..] == EraseAll(args[1..]);
      assert LayAll(EraseAll(args))[1..] == LayAll(EraseAll(args[1..]));
    }
  }

  lemma {:induction false} ItemsShortest(items: seq<Tree>)
    requires FormedItems(items)
    ensures |YieldItems(LayAll(EraseAll(items)))| <= |YieldItems(items)|
    decreases items, 0
  {
    if items != [] {
      Shortest(items[0]);
      ItemsShortest(items[1..]);
      assert EraseAll(items)[1..] == EraseAll(items[1..]);
      assert LayAll(EraseAll(items))[1..] == LayAll(EraseAll(items[1..]));
    }
  }
}
