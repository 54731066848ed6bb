/**
 * The concrete grammar of Yacari expressions. A `Tree` is a derivation: it keeps the parentheses
 * that the syntax tree drops, spells out to tokens with `Yield` and erases to syntax with `Erase`.
 */
module Grammar {
  import opened Wrappers
  import opened Tokens
  import Ast
  import Values
  import opened Words

  datatype Tree =
    | Atom(tok: Token)
    | Paren(inner: Tree)
    | Call(callee: Tree, args: seq<Tree>)
    | Prefix(op: TKind, operand: Tree)
    | Infix(left: Tree, op: TKind, right: Tree)
    | Block(items: seq<Tree>)
    | If(cond: Tree, thn: Tree)
    | IfElse(cond: Tree, thn: Tree, els: Tree)
    | While(cond: Tree, body: Tree)
    | Decl(final: bool, name: Token, value: Tree)

  // ---- literals ----

  predicate IsDigits(s: string) {
    |s| > 0 && forall i :: 0 <= i < |s| ==> '0' <= s[i] <= '9'
  }

  function DigitsValue(s: string): nat
    requires forall i :: 0 <= i < |s| ==> '0' <= s[i] <= '9'
  {
    if s == [] then 0
    else 10 * DigitsValue(s[..|s| - 1]) + (s[|s| - 1] - '0') as nat
  }

  /** What `i64::from_str` makes of an unsigned lexeme: suffixes and values past 2^63 - 1 fail. */
  function IntOf(s: string): Option<Values.I64> {
    if IsDigits(s) && DigitsValue(s) < TWO_63 then Some(DigitsValue(s)) else None
  }

  /** `f64::from_str` takes digits, a dot and digits; the value is kept as that text. */
  predicate PlainFloat(s: string) {
    exists k :: 0 <= k < |s| && s[k] == '.' && IsDigits(s[..k]) && IsDigits(s[k + 1..])
  }

  /** The kinds that are an expression on their own. */
  predicate IsAtomKind(k: TKind) {
    k in {False, True, StringLit, IntLit, FloatLit, Identifier}
  }

  /** A number that the parser can convert, or any other atom. */
  predicate Readable(tok: Token) {
    (tok.kind.IntLit? ==> IntOf(tok.lex).Some?) && (tok.kind.FloatLit? ==> PlainFloat(tok.lex))
  }

  // ---- spelling ----

  /** The tokens of a tree, left to right. */
  function Yield(t: Tree): seq<Token>
    decreases t
  {
    match t
    case Atom(tok) => [tok]
    case Paren(inner) => [Mark(LeftParen)] + Yield(inner) + [Mark(RightParen)]
    case Call(callee, args) => Yield(callee) + [Mark(LeftParen)] + YieldArgs(args) + [Mark(RightParen)]
    case Prefix(op, operand) => [Mark(op)] + Yield(operand)
    case Infix(left, op, right) => Yield(left) + [Mark(op)] + Yield(right)
    case Block(items) => [Mark(LeftBrace)] + YieldItems(items) + [Mark(RightBrace)]
    case If(cond, thn) => Guarded(TKind.If, Yield(cond), Yield(thn))
    case IfElse(cond, thn, els) => Guarded(TKind.If, Yield(cond), Yield(thn)) + [Mark(Else)] + Yield(els)
    case While(cond, body) => Guarded(TKind.While, Yield(cond), Yield(body))
    case Decl(final, name, value) =>
      [Mark(if final then Val else Var), name, Mark(Equal)] + Yield(value)
  }

  /** `word ( cond ) body`. */
  function Guarded(word: TKind, cond: seq<Token>, body: seq<Token>): seq<Token> {
    [Mark(word), Mark(LeftParen)] + cond + [Mark(RightParen)] + body
  }

  function YieldItems(items: seq<Tree>): seq<Token>
    decreases items
  {
    if items == [] then [] else Yield(items[0]) + YieldItems(items[1..])
  }

  /** Arguments, separated by commas. */
  function YieldArgs(args: seq<Tree>): seq<Token>
    decreases args
  {
    if args == [] then []
    else if |args| == 1 then Yield(args[0])
    else Yield(args[0]) + [Mark(Comma)] + YieldArgs(args[1..])
  }

  /** The kind of a tree's first token. */
  function Head(t: Tree): TKind {
    match t
    case Atom(tok) => tok.kind
    case Paren(_) => LeftParen
    case Call(callee, _) => Head(callee)
    case Prefix(op, _) => op
    case Infix(left, _, _) => Head(left)
    case Block(_) => LeftBrace
    case If(_, _) => TKind.If
    case IfElse(_, _, _) => TKind.If
    case While(_, _) => TKind.While
    case Decl(final, _, _) => if final then Val else Var
  }

  // ---- the syntax tree of a derivation ----

  function AtomLiteral(tok: Token): Ast.Expr {
    match tok.kind
    case False => Ast.Lit(Ast.Bool(false))
    case True => Ast.Lit(Ast.Bool(true))
    case StringLit => Ast.Lit(Ast.Str(tok.lex))
    case IntLit =>
      var n := IntOf(tok.lex);
      Ast.Lit(Ast.Int(if n.Some? then n.value else 0))
    case FloatLit => Ast.Lit(Ast.Float(tok.lex))
    case _ => Ast.Ident(tok.lex)
  }

  /** Forget the parentheses. */
  function Erase(t: Tree): Ast.Expr
    decreases t
  {
    match t
    case Atom(tok) => AtomLiteral(tok)
    case Paren(inner) => Erase(inner)
    case Call(callee, args) => Ast.Call(Erase(callee), EraseAll(args))
    case Prefix(op, operand) => Ast.Unary(op, Erase(operand))
    case Infix(left, op, right) => Ast.Binary(Erase(left), op, Erase(right))
    case Block(items) => Ast.Block(EraseAll(items))
    case If(cond, thn) => Ast.If(Erase(cond), Erase(thn), None)
    case IfElse(cond, thn, els) => Ast.If(Erase(cond), Erase(thn), Some(Erase(els)))
    case While(cond, body) => Ast.While(Erase(cond), Erase(body))
    case Decl(final, name, value) => Ast.Variable(final, name.lex, Erase(value))
  }

  function EraseAll(ts: seq<Tree>): seq<Ast.Expr>
    decreases ts
  {
    if ts == [] then [] else [Erase(ts[0])] + EraseAll(ts[1..])
  }

  // ---- the stratified grammar ----

  /** Atoms, parenthesised expressions and calls. */
  predicate IsPostfix(t: Tree) {
    t.Atom? || t.Paren? || t.Call?
  }

  /** The level at which a tree may stand: every operand level admits postfix trees. */
  predicate InLevel(t: Tree, p: nat) {
    match t
    case Prefix(op, _) => PrefixBindingPower(op).Some? && p <= PrefixBindingPower(op).value
    case Infix(_, op, _) => InfixBindingPower(op).Some? && p <= InfixBindingPower(op).value.0
    case _ => IsPostfix(t)
  }

  predicate IsExpression(t: Tree) {
    InLevel(t, 0) || t.Block? || t.If? || t.IfElse? || t.While?
  }

  /** What may stand in a block. */
  predicate IsItem(t: Tree) {
    IsExpression(t) || t.Decl?
  }

  /** A token of kind `k` after a tree of level `p` would carry the tree further. */
  predicate ExtendsLevel(p: nat, k: TKind) {
    k == LeftParen || (InfixBindingPower(k).Some? && p <= InfixBindingPower(k).value.0)
  }

  /** A token of kind `k` right after `t` would be taken as a part of `t`. */
  predicate Extends(t: Tree, k: TKind) {
    match t
    case Block(_) => false
    case If(_, thn) => k == Else || Extends(thn, k)
    case IfElse(_, _, els) => Extends(els, k)
    case While(_, body) => Extends(body, k)
    case Decl(_, _, value) => Extends(value, k)
    case _ => ExtendsLevel(0, k)
  }

  /**
   * The derivations of the grammar. `l op r` has its left operand strictly above the operator's
   * level and its right operand at its right binding power. An element of a block must not be
   * extended by the one after it, nor a `then` arm by the `else` that follows it.
   */
  predicate Formed(t: Tree)
    decreases t
  {
    match t
    case Atom(tok) => IsAtomKind(tok.kind) && Readable(tok)
    case Paren(inner) => IsExpression(inner) && Formed(inner)
    case Call(callee, args) => IsPostfix(callee) && Formed(callee) && FormedArgs(args)
    case Prefix(op, operand) =>
      PrefixBindingPower(op).Some? && InLevel(operand, PrefixBindingPower(op).value) && Formed(operand)
    case Infix(left, op, right) =>
      && InfixBindingPower(op).Some?
      && InLevel(left, InfixBindingPower(op).value.0 + 1) && Formed(left)
      && InLevel(right, InfixBindingPower(op).value.1) && Formed(right)
    case Block(items) => FormedItems(items)
    case If(cond, thn) => IsExpression(cond) && Formed(cond) && IsExpression(thn) && Formed(thn)
    case IfElse(cond, thn, els) =>
      && IsExpression(cond) && Formed(cond)
      && IsExpression(thn) && Formed(thn) && !Extends(thn, Else)
      && IsExpression(els) && Formed(els)
    case While(cond, body) => IsExpression(cond) && Formed(cond) && IsExpression(body) && Formed(body)
    case Decl(_, name, value) => name.kind == Identifier && IsExpression(value) && Formed(value)
  }

  predicate FormedArgs(args: seq<Tree>)
    decreases args
  {
    args == [] || (IsExpression(args[0]) && Formed(args[0]) && FormedArgs(args[1..]))
  }

  predicate FormedItems(items: seq<Tree>)
    decreases items
  {
    items == []
    || (IsItem(items[0]) && Formed(items[0]) && FormedItems(items[1..])
        && (|items| > 1 ==> !Extends(items[0], Head(items[1]))))
  }

  // ---- facts about first tokens and followers ----

  /** A derivation is not empty, and its first token has the kind `Head` names. */
  lemma {:induction false} YieldHead(t: Tree)
    ensures |Yield(t)| > 0 && Yield(t)[0].kind == Head(t)
    decreases t
  {
    match t
    case Call(callee, _) => YieldHead(callee);
    case Infix(left, _, _) => YieldHead(left);
    case _ =>
  }

  /** The first token tells the classes of the grammar apart. */
  lemma {:induction false} HeadClass(t: Tree)
    requires Formed(t)
    ensures IsPostfix(t) ==> IsAtomKind(Head(t)) || Head(t) == LeftParen
    ensures InLevel(t, 0) ==> IsAtomKind(Head(t)) || Head(t) in {LeftParen, Minus, Bang}
    ensures t.Prefix? ==> Head(t) in {Minus, Bang}
    ensures IsItem(t)
    ensures IsAtomKind(Head(t)) || Head(t) in {LeftParen, Minus, Bang, LeftBrace, TKind.If, TKind.While, Val, Var}
    decreases t
  {
    match t
    case Call(callee, _) => HeadClass(callee);
    case Infix(left, op, _) =>
      HeadClass(left);
      LevelDown(left, InfixBindingPower(op).value.0 + 1, 0);
    case _ =>
  }

  lemma LevelDown(t: Tree, p: nat, q: nat)
    requires InLevel(t, p) && q <= p
    ensures InLevel(t, q)
  {}

  /** Only `(`, `else` and the infix operators ever extend a tree. */
  lemma {:induction false} ExtendsOnly(t: Tree, k: TKind)
    requires Extends(t, k)
    ensures k == LeftParen || k == Else || InfixBindingPower(k).Some?
    decreases t
  {
    match t
    case If(_, thn) => if k != Else { ExtendsOnly(thn, k); }
    case IfElse(_, _, els) => ExtendsOnly(els, k);
    case While(_, body) => ExtendsOnly(body, k);
    case Decl(_, _, value) => ExtendsOnly(value, k);
    case _ =>
  }

  /** A token that can stand in an expression: no error, no `fun`, and no unreadable number. */
  predicate QuietToken(tok: Token) {
    tok.kind !in {Error, Fun} && Readable(tok)
  }

  predicate Quiet(toks: seq<Token>) {
    forall i :: 0 <= i < |toks| ==> QuietToken(toks[i])
  }

  lemma QuietJoin(a: seq<Token>, k: TKind, b: seq<Token>)
    requires QuietToken(Mark(k)) && Quiet(a) && Quiet(b)
    ensures Quiet(a + [Mark(k)] + b) && Quiet([Mark(k)] + b)
  {}

  lemma QuietWrap(open: TKind, s: seq<Token>, close: TKind)
    requires QuietToken(Mark(open)) && QuietToken(Mark(close)) && Quiet(s)
    ensures Quiet([Mark(open)] + s + [Mark(close)])
  {}

  lemma QuietCall(callee: seq<Token>, args: seq<Token>)
    requires Quiet(callee) && Quiet(args)
    ensures Quiet(callee + [Mark(LeftParen)] + args + [Mark(RightParen)])
  {}

  lemma QuietGuarded(word: TKind, cond: seq<Token>, body: seq<Token>)
    requires QuietToken(Mark(word)) && Quiet(cond) && Quiet(body)
    ensures Quiet(Guarded(word, cond, body))
  {}

  /** No derivation spells an error token, a `fun` or an unreadable number. */
  lemma {:induction false} YieldQuiet(t: Tree)
    requires Formed(t)
    ensures Quiet(Yield(t))
    decreases t, 1
  {
    hide InLevel, IsExpression, Extends, Guarded, InfixBindingPower, PrefixBindingPower, IntOf, PlainFloat;
    match t
    case Atom(_) =>
    case Decl(_, _, value) => YieldQuiet(value);
    case _ => NodeQuiet(t);
  }

  lemma {:induction false} NodeQuiet(t: Tree)
    requires Formed(t) && !t.Atom? && !t.Decl?
    ensures Quiet(Yield(t))
    decreases t, 0
  {
    hide Quiet, Guarded, InLevel, IsExpression, Extends, IntOf, PlainFloat;
    match t
    case Paren(inner) =>
      YieldQuiet(inner);
      QuietWrap(LeftParen, Yield(inner), RightParen);
    case Call(callee, args) =>
      YieldQuiet(callee);
      ArgsQuiet(args);
      QuietCall(Yield(callee), YieldArgs(args));
    case Prefix(op, operand) =>
      YieldQuiet(operand);
      QuietJoin(Yield(operand), op, Yield(operand));
    case Infix(left, op, right) =>
      YieldQuiet(left);
      YieldQuiet(right);
      QuietJoin(Yield(left), op, Yield(right));
    case Block(items) =>
      ItemsQuiet(items);
      QuietWrap(LeftBrace, YieldItems(items), RightBrace);
    case If(cond, thn) =>
      YieldQuiet(cond);
      YieldQuiet(thn);
      QuietGuarded(TKind.If, Yield(cond), Yield(thn));
    case IfElse(cond, thn, els) =>
      YieldQuiet(cond);
      YieldQuiet(thn);
      YieldQuiet(els);
      QuietGuarded(TKind.If, Yield(cond), Yield(thn));
      QuietJoin(Guarded(TKind.If, Yield(cond), Yield(thn)), Else, Yield(els));
    case While(cond, body) =>
      YieldQuiet(cond);
      YieldQuiet(body);
      QuietGuarded(TKind.While, Yield(cond), Yield(body));
  }

  lemma {:induction false} ArgsQuiet(args: seq<Tree>)
    requires FormedArgs(args)
    ensures Quiet(YieldArgs(args))
    decreases args, 0
  {
    if args != [] { YieldQuiet(args[0]); ArgsQuiet(args[1..]); }
  }

  lemma {:induction false} ItemsQuiet(items: seq<Tree>)
    requires FormedItems(items)
    ensures Quiet(YieldItems(items))
    decreases items, 0
  {
    if items != [] { YieldQuiet(items[0]); ItemsQuiet(items[1..]); }
  }

  /** Binding powers are even on the left and one less on the right, at most 20. */
  lemma PowersStep(k: TKind)
    requires InfixBindingPower(k).Some?
    ensures InfixBindingPower(k).value.0 % 2 == 0 && InfixBindingPower(k).value.1 == InfixBindingPower(k).value.0 - 1
    ensures InfixBindingPower(k).value.0 <= 20
  {}
}
