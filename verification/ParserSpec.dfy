/**
 * What the recursive-descent parser computes from a token stream and a position: a concrete tree,
 * the first error, or a panic, and the position it stops at.
 */
module ParserSpec {
  import opened Tokens
  import opened Grammar

  /** The three error codes of the parser, with the index of the token they point at. */
  datatype Problem =
    | Expected(kind: TKind, found: TKind, at: nat)
    | NotAnExpression(at: nat)
    | NotADeclaration(at: nat)

  /** `Panicked` is a number that `from_str` refuses. */
  datatype Outcome<+T> = Ok(value: T) | Err(problem: Problem) | Panicked
  {
    predicate IsFailure() { !Ok? }

    function PropagateFailure<U>(): Outcome<U>
      requires IsFailure()
    {
      if Err? then Err(problem) else Panicked
    }

    function Extract(): T
      requires !IsFailure()
    {
      value
    }
  }

  datatype Reply<+T> = Reply(out: Outcome<T>, pos: nat)
  {
    predicate IsFailure() { !out.Ok? }

    function PropagateFailure<U>(): Reply<U>
      requires IsFailure()
    {
      Reply(out.PropagateFailure(), pos)
    }

    function Extract(): (T, nat)
      requires !IsFailure()
    {
      (out.value, pos)
    }
  }

  function Done<T>(value: T, pos: nat): Reply<T> {
    Reply(Ok(value), pos)
  }

  /** Past the end of the stream the parser sees error tokens. */
  function Peek(toks: seq<Token>, pos: nat): Token {
    if pos < |toks| then toks[pos] else Mark(Error)
  }

  function Kind(toks: seq<Token>, pos: nat): TKind {
    Peek(toks, pos).kind
  }

  function Left(toks: seq<Token>, pos: nat): nat {
    if pos < |toks| then |toks| - pos else 0
  }

  /** A panic points at a number that cannot be read, and the parser never moves back. */
  predicate Steady<T(!new)>(toks: seq<Token>, pos: nat, r: Reply<T>) {
    pos <= r.pos && (r.out.Panicked? ==> r.pos < |toks| && !Readable(toks[r.pos]))
  }

  /** A steady reply that moves on strictly, and within the stream, when it succeeds. */
  predicate Forward<T(!new)>(toks: seq<Token>, pos: nat, r: Reply<T>) {
    Steady(toks, pos, r) && (r.out.Ok? ==> pos < r.pos <= |toks|)
  }

  function Consume(toks: seq<Token>, pos: nat, kind: TKind): (r: Reply<Token>)
    requires kind != Error
    ensures Forward(toks, pos, r)
  {
    if Kind(toks, pos) == kind then Done(toks[pos], pos + 1)
    else Reply(Err(Expected(kind, Kind(toks, pos), pos)), pos)
  }

  // ---- expressions ----

  function HigherExpr(toks: seq<Token>, pos: nat): (r: Reply<Tree>)
    ensures Forward(toks, pos, r)
    decreases Left(toks, pos), 5
  {
    if Kind(toks, pos) in {Var, Val} then VarDecl(toks, pos) else Expression(toks, pos)
  }

  function VarDecl(toks: seq<Token>, pos: nat): (r: Reply<Tree>)
    requires Kind(toks, pos) in {Var, Val}
    ensures Forward(toks, pos, r)
    decreases Left(toks, pos), 4
  {
    var final := Kind(toks, pos) == Val;
    var (name, p1) :- Consume(toks, pos + 1, Identifier);
    var (_, p2) :- Consume(toks, p1, Equal);
    var (value, p3) :- Expression(toks, p2);
    Done(Decl(final, name, value), p3)
  }

  function Expression(toks: seq<Token>, pos: nat): (r: Reply<Tree>)
    ensures Forward(toks, pos, r)
    decreases Left(toks, pos), 4
  {
    match Kind(toks, pos)
    case LeftBrace => BlockExpr(toks, pos)
    case If => IfExpr(toks, pos)
    case While => WhileStmt(toks, pos)
    case _ => Binary(toks, pos, 0)
  }

  function BlockExpr(toks: seq<Token>, pos: nat): (r: Reply<Tree>)
    requires Kind(toks, pos) == LeftBrace
    ensures Forward(toks, pos, r)
    decreases Left(toks, pos), 3
  {
    var (items, p1) :- Items(toks, pos + 1);
    var (_, p2) :- Consume(toks, p1, RightBrace);
    Done(Block(items), p2)
  }

  /** The elements of a block, up to a closing brace or an error token. */
  function Items(toks: seq<Token>, pos: nat): (r: Reply<seq<Tree>>)
    ensures Steady(toks, pos, r)
    decreases Left(toks, pos), 6
  {
    if Kind(toks, pos) in {Error, RightBrace} then Done([], pos)
    else
      var (item, p1) :- HigherExpr(toks, pos);
      var (rest, p2) :- Items(toks, p1);
      Done([item] + rest, p2)
  }

  /** `( expression )` after the word of an `if` or a `while`. */
  function Condition(toks: seq<Token>, pos: nat): (r: Reply<Tree>)
    ensures Forward(toks, pos, r)
    decreases Left(toks, pos), 5
  {
    var (_, p1) :- Consume(toks, pos, LeftParen);
    var (cond, p2) :- Expression(toks, p1);
    var (_, p3) :- Consume(toks, p2, RightParen);
    Done(cond, p3)
  }

  function IfExpr(toks: seq<Token>, pos: nat): (r: Reply<Tree>)
    requires Kind(toks, pos) == TKind.If
    ensures Forward(toks, pos, r)
    decreases Left(toks, pos), 3
  {
    var (cond, p1) :- Condition(toks, pos + 1);
    var (thn, p2) :- Expression(toks, p1);
    if Kind(toks, p2) == Else then
      var (els, p3) :- Expression(toks, p2 + 1);
      Done(IfElse(cond, thn, els), p3)
    else Done(Tree.If(cond, thn), p2)
  }

  function WhileStmt(toks: seq<Token>, pos: nat): (r: Reply<Tree>)
    requires Kind(toks, pos) == TKind.While
    ensures Forward(toks, pos, r)
    decreases Left(toks, pos), 3
  {
    var (cond, p1) :- Condition(toks, pos + 1);
    var (body, p2) :- Expression(toks, p1);
    Done(Tree.While(cond, body), p2)
  }

  function Binary(toks: seq<Token>, pos: nat, min: nat): (r: Reply<Tree>)
    ensures Forward(toks, pos, r)
    decreases Left(toks, pos), 3
  {
    var (left, p1) :- Unary(toks, pos);
    BinaryLoop(toks, left, p1, min)
  }

  /** Take operators of binding power `min` or more, each with the operand at its right power. */
  function BinaryLoop(toks: seq<Token>, left: Tree, pos: nat, min: nat): (r: Reply<Tree>)
    requires pos <= |toks|
    ensures Steady(toks, pos, r) && (r.out.Ok? ==> r.pos <= |toks|)
    decreases Left(toks, pos), 4
  {
    var op := Kind(toks, pos);
    var power := InfixBindingPower(op);
    if power.None? || power.value.0 < min then Done(left, pos)
    else
      var (right, p1) :- Binary(toks, pos + 1, power.value.1);
      BinaryLoop(toks, Infix(left, op, right), p1, min)
  }

  function Unary(toks: seq<Token>, pos: nat): (r: Reply<Tree>)
    ensures Forward(toks, pos, r)
    decreases Left(toks, pos), 2
  {
    var op := Kind(toks, pos);
    var power := PrefixBindingPower(op);
    if power.Some? then
      var (operand, p1) :- Binary(toks, pos + 1, power.value);
      Done(Prefix(op, operand), p1)
    else CallExpr(toks, pos)
  }

  function CallExpr(toks: seq<Token>, pos: nat): (r: Reply<Tree>)
    ensures Forward(toks, pos, r)
    decreases Left(toks, pos), 1
  {
    var (callee, p1) :- Primary(toks, pos);
    CallLoop(toks, callee, p1)
  }

  function CallLoop(toks: seq<Token>, callee: Tree, pos: nat): (r: Reply<Tree>)
    requires pos <= |toks|
    ensures Steady(toks, pos, r) && (r.out.Ok? ==> r.pos <= |toks|)
    decreases Left(toks, pos), 4
  {
    if Kind(toks, pos) != LeftParen then Done(callee, pos)
    else
      var (args, p1) :- ClosedArguments(toks, pos + 1);
      CallLoop(toks, Call(callee, args), p1)
  }

  /** Arguments and the closing parenthesis. */
  function ClosedArguments(toks: seq<Token>, pos: nat): (r: Reply<seq<Tree>>)
    ensures Forward(toks, pos, r)
    decreases Left(toks, pos), 7
  {
    var (args, p1) :- Arguments(toks, pos);
    var (_, p2) :- Consume(toks, p1, RightParen);
    Done(args, p2)
  }

  function Arguments(toks: seq<Token>, pos: nat): (r: Reply<seq<Tree>>)
    ensures Steady(toks, pos, r)
    decreases Left(toks, pos), 6
  {
    if Kind(toks, pos) == RightParen then Done([], pos) else ArgumentList(toks, pos)
  }

  /** One or more expressions, separated by commas. */
  function ArgumentList(toks: seq<Token>, pos: nat): (r: Reply<seq<Tree>>)
    ensures Forward(toks, pos, r)
    decreases Left(toks, pos), 5
  {
    var (arg, p1) :- Expression(toks, pos);
    if Kind(toks, p1) == Comma then
      var (rest, p2) :- ArgumentList(toks, p1 + 1);
      Done([arg] + rest, p2)
    else Done([arg], p1)
  }

  function Primary(toks: seq<Token>, pos: nat): (r: Reply<Tree>)
    ensures Forward(toks, pos, r)
    decreases Left(toks, pos), 0
  {
    var tok := Peek(toks, pos);
    if IsAtomKind(tok.kind) then
      if Readable(tok) then Done(Atom(tok), pos + 1) else Reply(Panicked, pos)
    else if tok.kind == LeftParen then
      var (inner, p1) :- Expression(toks, pos + 1);
      var (_, p2) :- Consume(toks, p1, RightParen);
      Done(Paren(inner), p2)
    else Reply(Err(NotAnExpression(pos)), pos)
  }
}
