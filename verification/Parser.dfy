/**
 * The parser as it runs: a current token, a position in the stream and a list of errors, changed
 * by every `Advance`. Each method is proved to compute what the function of the same name says.
 */
module Parser {
  import opened Wrappers
  import opened Tokens
  import opened Grammar
  import opened Printer
  import S = ParserSpec
  import D = Declarations
  import A = Ast

  type Outcome<+T> = S.Outcome<T>

  // ---- accumulating loops ----

  function ErasedAll(r: S.Reply<seq<Tree>>): S.Reply<seq<A.Expr>> {
    if r.out.Ok? then S.Done(EraseAll(r.out.value), r.pos) else r.PropagateFailure()
  }

  /** A loop that holds `done` and still has to read what `r` reads. */
  function After<T>(done: seq<T>, r: S.Reply<seq<T>>): S.Reply<seq<T>> {
    if r.out.Ok? then S.Done(done + r.out.value, r.pos) else r
  }

  lemma AfterSnoc<T>(done: seq<T>, x: T, r: S.Reply<seq<T>>)
    ensures After(done + [x], r) == After(done, After([x], r))
  {
    if r.out.Ok? { assert done + [x] + r.out.value == done + ([x] + r.out.value); }
  }

  lemma AfterNone<T>(r: S.Reply<seq<T>>)
    ensures After([], r) == r
  {
    if r.out.Ok? { assert [] + r.out.value == r.out.value; }
  }

  lemma EraseCons(t: Tree, rest: seq<Tree>)
    ensures EraseAll([t] + rest) == [Erase(t)] + EraseAll(rest)
  {
    assert ([t] + rest)[1..] == rest;
  }

  /** A declaration reads a name, an equals sign and a value. */
  lemma VarDeclSteps(toks: seq<Token>, pos: nat)
    requires S.Kind(toks, pos) in {Var, Val}
    ensures var name := S.Consume(toks, pos + 1, Identifier);
      var equal := S.Consume(toks, pos + 2, Equal);
      var value := Erased(S.Expression(toks, pos + 3));
      Erased(S.VarDecl(toks, pos))
      == if !name.out.Ok? then name.PropagateFailure()
         else if !equal.out.Ok? then equal.PropagateFailure()
         else if !value.out.Ok? then value
         else S.Done(A.Variable(S.Kind(toks, pos) == Val, name.out.value.lex, value.out.value), value.pos)
  {
    hide S.Expression;
  }

  /** A conditional reads a condition, an arm and perhaps another. */
  lemma IfSteps(toks: seq<Token>, pos: nat)
    requires S.Kind(toks, pos) == TKind.If
    ensures var cond := Erased(S.Condition(toks, pos + 1));
      var thn := Erased(S.Expression(toks, cond.pos));
      var els := Erased(S.Expression(toks, thn.pos + 1));
      Erased(S.IfExpr(toks, pos))
      == if !cond.out.Ok? then cond
         else if !thn.out.Ok? then thn
         else if S.Kind(toks, thn.pos) != Else then S.Done(A.If(cond.out.value, thn.out.value, None), thn.pos)
         else if !els.out.Ok? then els
         else S.Done(A.If(cond.out.value, thn.out.value, Some(els.out.value)), els.pos)
  {
    hide S.Expression, S.Condition, AtomLiteral;
  }

  /** One turn of the block loop. */
  lemma ItemsStep(toks: seq<Token>, pos: nat)
    requires S.Kind(toks, pos) !in {Error, RightBrace}
    ensures var item := Erased(S.HigherExpr(toks, pos));
      ErasedAll(S.Items(toks, pos))
      == if item.out.Ok? then After([item.out.value], ErasedAll(S.Items(toks, item.pos)))
         else item.PropagateFailure()
  {
    hide S.HigherExpr, Erase;
    var r := S.HigherExpr(toks, pos);
    if r.out.Ok? {
      var rest := S.Items(toks, r.pos);
      if rest.out.Ok? { EraseCons(r.out.value, rest.out.value); }
    }
  }

  /** One turn of the argument loop. */
  lemma ArgumentStep(toks: seq<Token>, pos: nat)
    ensures var arg := Erased(S.Expression(toks, pos));
      ErasedAll(S.ArgumentList(toks, pos))
      == if !arg.out.Ok? then arg.PropagateFailure()
         else if S.Kind(toks, arg.pos) == Comma then
           After([arg.out.value], ErasedAll(S.ArgumentList(toks, arg.pos + 1)))
         else S.Done([arg.out.value], arg.pos)
  {
    hide S.Expression, Erase;
    var r := S.Expression(toks, pos);
    if r.out.Ok? {
      assert EraseAll([r.out.value]) == [Erase(r.out.value)];
      var rest := S.ArgumentList(toks, r.pos + 1);
      if rest.out.Ok? { EraseCons(r.out.value, rest.out.value); }
    }
  }

  class Parser {
    const toks: seq<Token>
    var pos: nat
    var current: Token
    var errors: seq<S.Problem>

    ghost predicate Valid()
      reads this
    {
      current == S.Peek(toks, pos)
    }

    constructor (toks: seq<Token>)
      requires toks != []
      ensures Valid() && this.toks == toks && pos == 0 && errors == []
    {
      this.toks := toks;
      pos := 0;
      current := toks[0];
      errors := [];
    }

    method Advance() returns (tok: Token)
      requires Valid()
      modifies this`pos, this`current
      ensures Valid() && tok == old(current) && pos == old(pos) + 1
    {
      tok := current;
      pos := pos + 1;
      current := if pos < |toks| then toks[pos] else Mark(Error);
    }

    method Matches(kind: TKind) returns (found: bool)
      requires Valid()
      modifies this`pos, this`current
      ensures Valid() && found == (S.Kind(toks, old(pos)) == kind)
      ensures pos == if found then old(pos) + 1 else old(pos)
    {
      found := current.kind == kind;
      if found { var _ := Advance(); }
    }

    method Consume(kind: TKind) returns (r: Outcome<Token>)
      requires Valid() && kind != Error
      modifies this`pos, this`current
      ensures Valid() && S.Reply(r, pos) == S.Consume(toks, old(pos), kind)
    {
      if current.kind == kind {
        var tok := Advance();
        return S.Ok(tok);
      }
      return S.Err(S.Expected(kind, current.kind, pos));
    }

    // ---- expressions ----

    method HigherExpr() returns (r: Outcome<A.Expr>)
      requires Valid()
      modifies this`pos, this`current
      ensures Valid() && S.Reply(r, pos) == Erased(S.HigherExpr(toks, old(pos)))
      decreases S.Left(toks, pos), 5
    {
      if current.kind == Var || current.kind == Val {
        r := VarDecl();
      } else {
        r := Expression();
      }
    }

    method VarDecl() returns (r: Outcome<A.Expr>)
      requires Valid() && S.Kind(toks, pos) in {Var, Val}
      modifies this`pos, this`current
      ensures Valid() && S.Reply(r, pos) == Erased(S.VarDecl(toks, old(pos)))
      decreases S.Left(toks, pos), 4
    {
      hide S.Expression, S.VarDecl, Erase;
      VarDeclSteps(toks, pos);
      var word := Advance();
      var name :- Consume(Identifier);
      var _ :- Consume(Equal);
      var value :- Expression();
      return S.Ok(A.Variable(word.kind == Val, name.lex, value));
    }

    method Expression() returns (r: Outcome<A.Expr>)
      requires Valid()
      modifies this`pos, this`current
      ensures Valid() && S.Reply(r, pos) == Erased(S.Expression(toks, old(pos)))
      decreases S.Left(toks, pos), 4
    {
      hide S.BlockExpr, S.IfExpr, S.WhileStmt, S.Binary, Erase;
      match current.kind
      case LeftBrace => r := Block();
      case If => r := IfExpr();
      case While => r := WhileStmt();
      case _ => r := Binary(0);
    }

    method Block() returns (r: Outcome<A.Expr>)
      requires Valid() && S.Kind(toks, pos) == LeftBrace
      modifies this`pos, this`current
      ensures Valid() && S.Reply(r, pos) == Erased(S.BlockExpr(toks, old(pos)))
      decreases S.Left(toks, pos), 3
    {
      hide S.Items, S.HigherExpr, AtomLiteral;
      var _ := Advance();
      var exprs: seq<A.Expr> := [];
      AfterNone(ErasedAll(S.Items(toks, pos)));
      while current.kind != Error && current.kind != RightBrace
        invariant Valid() && pos > old(pos)
        invariant ErasedAll(S.Items(toks, old(pos) + 1)) == After(exprs, ErasedAll(S.Items(toks, pos)))
        decreases S.Left(toks, pos)
      {
        ItemsStep(toks, pos);
        var e :- HigherExpr();
        AfterSnoc(exprs, e, ErasedAll(S.Items(toks, pos)));
        exprs := exprs + [e];
      }
      ItemsEnd(toks, pos);
      assert exprs + [] == exprs;
      var _ :- Consume(RightBrace);
      return S.Ok(A.Block(exprs));
    }

    /** The parenthesised condition of an `if` or a `while`. */
    method Condition() returns (r: Outcome<A.Expr>)
      requires Valid()
      modifies this`pos, this`current
      ensures Valid() && S.Reply(r, pos) == Erased(S.Condition(toks, old(pos)))
      decreases S.Left(toks, pos), 5
    {
      hide S.Expression, Erase;
      var _ :- Consume(LeftParen);
      var cond :- Expression();
      var _ :- Consume(RightParen);
      return S.Ok(cond);
    }

    method IfExpr() returns (r: Outcome<A.Expr>)
      requires Valid() && S.Kind(toks, pos) == TKind.If
      modifies this`pos, this`current
      ensures Valid() && S.Reply(r, pos) == Erased(S.IfExpr(toks, old(pos)))
      decreases S.Left(toks, pos), 3
    {
      hide S.Expression, S.Condition, S.IfExpr, Erase;
      IfSteps(toks, pos);
      var _ := Advance();
      var cond :- Condition();
      var thn :- Expression();
      var more := Matches(Else);
      if more {
        var els :- Expression();
        return S.Ok(A.If(cond, thn, Some(els)));
      }
      return S.Ok(A.If(cond, thn, None));
    }

    method WhileStmt() returns (r: Outcome<A.Expr>)
      requires Valid() && S.Kind(toks, pos) == TKind.While
      modifies this`pos, this`current
      ensures Valid() && S.Reply(r, pos) == Erased(S.WhileStmt(toks, old(pos)))
      decreases S.Left(toks, pos), 3
    {
      hide S.Expression, S.Condition, AtomLiteral;
      var _ := Advance();
      var cond :- Condition();
      var body :- Expression();
      return S.Ok(A.While(cond, body));
    }

    method Binary(min: nat) returns (r: Outcome<A.Expr>)
      requires Valid()
      modifies this`pos, this`current
      ensures Valid() && S.Reply(r, pos) == Erased(S.Binary(toks, old(pos), min))
      decreases S.Left(toks, pos), 3
    {
      hide S.Unary, InfixBindingPower, AtomLiteral;
      var expr :- Unary();
      ghost var left := S.Unary(toks, old(pos)).out.value;
      while InfixBindingPower(current.kind).Some?
        invariant Valid() && old(pos) < pos <= |toks|
        invariant expr == Erase(left)
        invariant S.Binary(toks, old(pos), min) == S.BinaryLoop(toks, left, pos, min)
        decreases S.Left(toks, pos)
      {
        var (lbp, rbp) := InfixBindingPower(current.kind).value;
        if lbp < min { return S.Ok(expr); }
        ghost var rest := S.Binary(toks, pos + 1, rbp);
        var op := Advance();
        var right :- Binary(rbp);
        left := Infix(left, op.kind, rest.out.value);
        expr := A.Binary(expr, op.kind, right);
      }
      return S.Ok(expr);
    }

    method Unary() returns (r: Outcome<A.Expr>)
      requires Valid()
      modifies this`pos, this`current
      ensures Valid() && S.Reply(r, pos) == Erased(S.Unary(toks, old(pos)))
      decreases S.Left(toks, pos), 2
    {
      hide S.Binary, S.CallExpr;
      var power := PrefixBindingPower(current.kind);
      if power.Some? {
        var op := Advance();
        var right :- Binary(power.value);
        return S.Ok(A.Unary(op.kind, right));
      }
      r := Call();
    }

    method Call() returns (r: Outcome<A.Expr>)
      requires Valid()
      modifies this`pos, this`current
      ensures Valid() && S.Reply(r, pos) == Erased(S.CallExpr(toks, old(pos)))
      decreases S.Left(toks, pos), 1
    {
      hide S.Primary, S.ClosedArguments, AtomLiteral;
      var expr :- Primary();
      ghost var callee := S.Primary(toks, old(pos)).out.value;
      while current.kind == LeftParen
        invariant Valid() && old(pos) < pos <= |toks|
        invariant expr == Erase(callee)
        invariant S.CallExpr(toks, old(pos)) == S.CallLoop(toks, callee, pos)
        decreases S.Left(toks, pos)
      {
        ghost var list := S.ClosedArguments(toks, pos + 1);
        var _ := Advance();
        var args :- ClosedArguments();
        callee := Grammar.Call(callee, list.out.value);
        expr := A.Call(expr, args);
      }
      return S.Ok(expr);
    }

    /** Arguments and the closing parenthesis. */
    method ClosedArguments() returns (r: Outcome<seq<A.Expr>>)
      requires Valid()
      modifies this`pos, this`current
      ensures Valid() && S.Reply(r, pos) == ErasedAll(S.ClosedArguments(toks, old(pos)))
      decreases S.Left(toks, pos), 7
    {
      hide S.Arguments, EraseAll;
      var args :- Arguments();
      var _ :- Consume(RightParen);
      return S.Ok(args);
    }

    method Arguments() returns (r: Outcome<seq<A.Expr>>)
      requires Valid()
      modifies this`pos, this`current
      ensures Valid() && S.Reply(r, pos) == ErasedAll(S.Arguments(toks, old(pos)))
      decreases S.Left(toks, pos), 6
    {
      hide S.ArgumentList, S.Expression;
      var args: seq<A.Expr> := [];
      if current.kind == RightParen { return S.Ok(args); }
      AfterNone(ErasedAll(S.ArgumentList(toks, pos)));
      while true
        invariant Valid() && pos >= old(pos)
        invariant ErasedAll(S.ArgumentList(toks, old(pos))) == After(args, ErasedAll(S.ArgumentList(toks, pos)))
        decreases S.Left(toks, pos)
      {
        ArgumentStep(toks, pos);
        var arg :- Expression();
        ghost var stop := pos;
        var more := Matches(Comma);
        if !more { return S.Ok(args + [arg]); }
        AfterSnoc(args, arg, ErasedAll(S.ArgumentList(toks, pos)));
        args := args + [arg];
      }
    }

    method Primary() returns (r: Outcome<A.Expr>)
      requires Valid()
      modifies this`pos, this`current
      ensures Valid() && S.Reply(r, pos) == Erased(S.Primary(toks, old(pos)))
      decreases S.Left(toks, pos), 0
    {
      hide S.Expression, Readable;
      if current.kind == LeftParen {
        var _ := Advance();
        var expr :- Expression();
        var _ :- Consume(RightParen);
        return S.Ok(expr);
      }
      if IsAtomKind(current.kind) {
        r := Literal();
      } else {
        return S.Err(S.NotAnExpression(pos));
      }
    }

    method Literal() returns (r: Outcome<A.Expr>)
      requires Valid() && IsAtomKind(S.Kind(toks, pos))
      modifies this`pos, this`current
      ensures Valid() && S.Reply(r, pos) == Erased(S.Primary(toks, old(pos)))
    {
      hide S.Expression, IntOf, PlainFloat;
      if current.kind == IntLit {
        var n := IntOf(current.lex);
        if n.None? { return S.Panicked; }
        var _ := Advance();
        return S.Ok(A.Lit(A.Int(n.value)));
      }
      if current.kind == FloatLit && !PlainFloat(current.lex) { return S.Panicked; }
      var tok := Advance();
      match tok.kind
      case FloatLit => return S.Ok(A.Lit(A.Float(tok.lex)));
      case StringLit => return S.Ok(A.Lit(A.Str(tok.lex)));
      case False => return S.Ok(A.Lit(A.Bool(false)));
      case True => return S.Ok(A.Lit(A.Bool(true)));
      case _ => return S.Ok(A.Ident(tok.lex));
    }

    // ---- declarations ----

    /** `name : type`, for a parameter and, with a word before it, a member. */
    method Typed() returns (r: Outcome<A.Param>)
      requires Valid()
      modifies this`pos, this`current
      ensures Valid() && S.Reply(r, pos) == ErasedParam(D.ParamDecl(toks, old(pos)))
    {
      var name :- Consume(Identifier);
      var _ :- Consume(Colon);
      var typ :- Consume(Identifier);
      return S.Ok(A.Param(name.lex, typ.lex));
    }

    method Params() returns (r: Outcome<seq<A.Param>>)
      requires Valid()
      modifies this`pos, this`current
      ensures Valid() && S.Reply(r, pos) == ErasedParams(D.Params(toks, old(pos)))
    {
      hide D.ParamList, D.ParamDecl, D.EraseParams;
      var params: seq<A.Param> := [];
      EraseNoParams();
      if current.kind == RightParen { return S.Ok(params); }
      AfterNone(ErasedParams(D.ParamList(toks, pos)));
      while true
        invariant Valid() && pos >= old(pos)
        invariant ErasedParams(D.ParamList(toks, old(pos))) == After(params, ErasedParams(D.ParamList(toks, pos)))
        decreases S.Left(toks, pos)
      {
        ParamStep(toks, pos);
        var param :- Typed();
        var more := Matches(Comma);
        if !more { return S.Ok(params + [param]); }
        AfterSnoc(params, param, ErasedParams(D.ParamList(toks, pos)));
        params := params + [param];
      }
    }

    method Function(ext: bool) returns (r: Outcome<A.Function>)
      requires Valid()
      modifies this`pos, this`current
      ensures Valid() && S.Reply(r, pos) == ErasedFun(D.FunDecl(toks, old(pos), ext))
    {
      hide S.Expression, D.Signature, Erase;
      var f :- Signature();
      if ext { return S.Ok(f); }
      var body :- Expression();
      return S.Ok(f.(body := Some(body)));
    }

    method Signature() returns (r: Outcome<A.Function>)
      requires Valid()
      modifies this`pos, this`current
      ensures Valid() && S.Reply(r, pos) == ErasedFun(D.Signature(toks, old(pos)))
    {
      hide D.Header, D.EraseParams, D.RetType, D.EraseRet;
      var f :- Header();
      var ret :- RetType();
      return S.Ok(f.(retType := ret));
    }

    method Header() returns (r: Outcome<A.Function>)
      requires Valid()
      modifies this`pos, this`current
      ensures Valid() && S.Reply(r, pos) == ErasedFun(D.Header(toks, old(pos)))
    {
      hide D.Params, D.EraseParams;
      var name :- Consume(Identifier);
      var _ :- Consume(LeftParen);
      var params :- Params();
      var _ :- Consume(RightParen);
      return S.Ok(A.Function(name.lex, params, None, None));
    }

    method RetType() returns (r: Outcome<Option<string>>)
      requires Valid()
      modifies this`pos, this`current
      ensures Valid()
      ensures var ret := D.RetType(toks, old(pos));
        && pos == ret.pos
        && r == if ret.out.Ok? then S.Ok(D.EraseRet(ret.out.value)) else ret.out.PropagateFailure()
    {
      var arrow := Matches(Arrow);
      if !arrow { return S.Ok(None); }
      var ret :- Consume(Identifier);
      return S.Ok(Some(ret.lex));
    }

    method Member(mutable: bool) returns (r: Outcome<A.Member>)
      requires Valid()
      modifies this`pos, this`current
      ensures Valid() && S.Reply(r, pos) == ErasedField(D.FieldDecl(toks, old(pos), mutable))
    {
      hide D.ParamDecl;
      var p :- Typed();
      return S.Ok(A.Member(p.name, p.typ, mutable));
    }

    method Class() returns (r: Outcome<A.Class>)
      requires Valid()
      modifies this`pos, this`current
      ensures Valid() && S.Reply(r, pos) == ErasedClass(D.ClassDecl(toks, old(pos)))
    {
      hide D.Members, D.MemberDecl, D.EraseClass;
      var name :- Consume(Identifier);
      var _ :- Consume(LeftBrace);
      var c := A.Class(name.lex, [], [], []);
      ghost var done: seq<D.MemberTree> := [];
      ghost var start := pos;
      EraseNoMembers(name);
      AfterNone(D.Members(toks, pos));
      while current.kind != RightBrace
        invariant Valid() && start <= pos
        invariant D.EraseClass(name, done) == c
        invariant D.Members(toks, start) == After(done, D.Members(toks, pos))
        decreases S.Left(toks, pos), if current.kind == RightBrace then 0 else 1
      {
        MembersStep(toks, pos);
        ghost var m := D.MemberDecl(toks, pos);
        c :- AddMember(name, done, c);
        AfterSnoc(done, m.out.value, D.Members(toks, pos));
        done := done + [m.out.value];
      }
      MembersEnd(toks, pos);
      assert done + [] == done;
      var _ := Consume(RightBrace);
      return S.Ok(c);
    }

    /** Read one member and sort it into its list. */
    method AddMember(name: Token, ghost done: seq<D.MemberTree>, c: A.Class) returns (r: Outcome<A.Class>)
      requires Valid() && D.EraseClass(name, done) == c
      modifies this`pos, this`current
      ensures Valid() && Sorted(D.MemberDecl(toks, old(pos)), name, done, pos, r)
    {
      hide D.FunDecl, D.FieldDecl, D.MemberDecl, D.EraseClass, AsMember;
      MemberByWord(toks, pos);
      var word := Advance();
      if word.kind == Val || word.kind == Var {
        r := AddField(name, done, c, word.kind == Var);
        return;
      }
      if word.kind == Fun {
        r := AddMethod(name, done, c, false);
        return;
      }
      if word.kind == Static {
        var fun := Matches(Fun);
        if fun {
          r := AddMethod(name, done, c, true);
          return;
        }
      }
      return S.Err(S.NotADeclaration(pos));
    }

    method AddField(name: Token, ghost done: seq<D.MemberTree>, c: A.Class, mutable: bool)
        returns (r: Outcome<A.Class>)
      requires Valid() && D.EraseClass(name, done) == c
      modifies this`pos, this`current
      ensures Valid() && Sorted(D.FieldDecl(toks, old(pos), mutable), name, done, pos, r)
    {
      hide D.FieldDecl, D.EraseClass;
      ghost var m := D.FieldDecl(toks, pos, mutable);
      if m.out.Ok? { SnocMember(name, done, m.out.value); }
      var x :- Member(mutable);
      return S.Ok(c.(members := c.members + [x]));
    }

    method AddMethod(name: Token, ghost done: seq<D.MemberTree>, c: A.Class, static_: bool)
        returns (r: Outcome<A.Class>)
      requires Valid() && D.EraseClass(name, done) == c
      modifies this`pos, this`current
      ensures Valid() && Sorted(AsMember(D.FunDecl(toks, old(pos), false), static_), name, done, pos, r)
    {
      hide D.FunDecl, D.EraseClass, D.EraseFun;
      ghost var m := AsMember(D.FunDecl(toks, pos, false), static_);
      if m.out.Ok? { SnocMember(name, done, m.out.value); }
      var f :- Function(false);
      return S.Ok(if static_ then c.(functions := c.functions + [f]) else c.(methods := c.methods + [f]));
    }

    method Synchronize()
      requires Valid()
      modifies this`pos, this`current
      ensures Valid() && pos == D.Synchronize(toks, old(pos))
    {
      while current.kind != Error
        invariant Valid() && D.Synchronize(toks, old(pos)) == D.Synchronize(toks, pos)
        decreases S.Left(toks, pos)
      {
        var tok := Advance();
        if tok.kind == Fun { return; }
      }
    }

    // ---- modules ----

    method MakeCls(classes: seq<A.Class>) returns (r: Outcome<seq<A.Class>>)
      requires Valid()
      modifies this
      ensures Valid()
      ensures var c := ErasedClass(D.ClassDecl(toks, old(pos)));
        Recorded(c, classes, r) && errors == old(errors) + Report(c) && (!c.out.Panicked? ==> pos == Resume(toks, c))
    {
      hide D.ClassDecl, D.EraseClass;
      var c := Class();
      if c.Ok? { return S.Ok(classes + [c.value]); }
      if c.Panicked? { return S.Panicked; }
      errors := errors + [c.problem];
      Synchronize();
      return S.Ok(classes);
    }

    method MakeFn(functions: seq<A.Function>, ext: bool) returns (r: Outcome<seq<A.Function>>)
      requires Valid()
      modifies this
      ensures Valid()
      ensures var f := ErasedFun(D.FunDecl(toks, old(pos), ext));
        Recorded(f, functions, r) && errors == old(errors) + Report(f) && (!f.out.Panicked? ==> pos == Resume(toks, f))
    {
      hide D.FunDecl, D.EraseFun;
      var f := Function(ext);
      if f.Ok? { return S.Ok(functions + [f.value]); }
      if f.Panicked? { return S.Panicked; }
      errors := errors + [f.problem];
      Synchronize();
      return S.Ok(functions);
    }

    method Parse() returns (parsed: D.Parsed)
      requires Valid() && pos == 0 && errors == []
      modifies this
      ensures parsed == D.Summary(D.TopDecls(toks, 0))
    {
      hide D.TopDecls, D.TopDecl, D.EraseModule;
      var m := A.Module([], []);
      ghost var done := D.Found([], []);
      EraseNoTops();
      AfterNothing(D.TopDecls(toks, 0));
      while current.kind != Error
        invariant Valid()
        invariant errors == done.problems && m == D.EraseModule(done.tops)
        invariant D.TopDecls(toks, 0) == AfterFound(done, D.TopDecls(toks, pos))
        decreases S.Left(toks, pos)
      {
        ghost var top := D.TopDecl(toks, pos);
        TopsStep(toks, pos, done);
        var r := Declaration(m, done);
        if r.Panicked? { return D.Panic; }
        m := r.value;
        done := Including(done, top.out);
      }
      TopsEnd(toks, pos, done);
      if errors == [] { return D.Module(m); }
      return D.Problems(errors);
    }

    /** One turn of the main loop: a class, a function, an external function, or an error. */
    method Declaration(m: A.Module, ghost done: D.Found) returns (r: Outcome<A.Module>)
      requires Valid() && errors == done.problems && m == D.EraseModule(done.tops)
      modifies this
      ensures Valid() && Entered(toks, done, D.TopDecl(toks, old(pos)), errors, pos, r)
    {
      hide D.FunDecl, D.ClassDecl, D.TopDecl, D.EraseModule, D.Synchronize, AsTop;
      TopByWord(toks, pos);
      var word := Advance();
      if word.kind == TKind.Class {
        r := AddCls(m, done);
        return;
      }
      if word.kind == Fun {
        r := AddFn(m, done, false);
        return;
      }
      if word.kind == Extern {
        var fun := Matches(Fun);
        if fun {
          r := AddFn(m, done, true);
          return;
        }
      }
      errors := errors + [S.NotADeclaration(pos)];
      Synchronize();
      return S.Ok(m);
    }

    method AddCls(m: A.Module, ghost done: D.Found) returns (r: Outcome<A.Module>)
      requires Valid() && errors == done.problems && m == D.EraseModule(done.tops)
      modifies this
      ensures Valid() && Entered(toks, done, D.ClassDecl(toks, old(pos)), errors, pos, r)
    {
      hide D.ClassDecl, D.EraseModule, D.EraseClass, D.Synchronize;
      ghost var top := D.ClassDecl(toks, pos);
      if top.out.Ok? { SnocTop(done.tops, top.out.value); }
      var cs :- MakeCls(m.classes);
      return S.Ok(m.(classes := cs));
    }

    method AddFn(m: A.Module, ghost done: D.Found, ext: bool) returns (r: Outcome<A.Module>)
      requires Valid() && errors == done.problems && m == D.EraseModule(done.tops)
      modifies this
      ensures Valid() && Entered(toks, done, AsTop(D.FunDecl(toks, old(pos), ext), ext), errors, pos, r)
    {
      hide D.FunDecl, D.EraseModule, D.EraseFun, D.Synchronize;
      ghost var top := AsTop(D.FunDecl(toks, pos, ext), ext);
      if top.out.Ok? { SnocTop(done.tops, top.out.value); }
      var fs :- MakeFn(m.functions, ext);
      return S.Ok(m.(functions := fs));
    }
  }

  /** Lex, build a parser and parse; the constructor unwraps the first token. */
  method ParseTokens(toks: seq<Token>) returns (parsed: D.Parsed)
    ensures parsed == D.ParseModule(toks)
  {
    if toks == [] { return D.Panic; }
    var parser := new Parser(toks);
    parsed := parser.Parse();
  }

  // ---- the main loop ----

  /** A declaration is pushed when it parses, and skipped over when it does not. */
  ghost predicate Recorded<T(!new)>(d: S.Reply<T>, list: seq<T>, r: Outcome<seq<T>>) {
    match d.out
    case Ok(x) => r == S.Ok(list + [x])
    case Err(_) => r == S.Ok(list)
    case Panicked => r == S.Panicked
  }

  function Report<T>(d: S.Reply<T>): seq<S.Problem> {
    if d.out.Err? then [d.out.problem] else []
  }

  /** Where the main loop goes on after a declaration. */
  function Resume<T>(toks: seq<Token>, d: S.Reply<T>): nat {
    if d.out.Err? then D.Synchronize(toks, d.pos) else d.pos
  }

  function Including(done: D.Found, out: Outcome<D.TopTree>): D.Found {
    match out
    case Ok(t) => D.Found(done.tops + [t], done.problems)
    case Err(problem) => D.Found(done.tops, done.problems + [problem])
    case Panicked => done
  }

  /** The main loop has taken in one more declaration, or panicked with it. */
  ghost predicate Entered(toks: seq<Token>, done: D.Found, top: S.Reply<D.TopTree>,
                          errors: seq<S.Problem>, pos: nat, r: Outcome<A.Module>) {
    if top.out.Panicked? then r.Panicked?
    else
      && pos == Resume(toks, top) && errors == Including(done, top.out).problems
      && r == S.Ok(D.EraseModule(Including(done, top.out).tops))
  }

  function AfterFound(done: D.Found, r: S.Reply<D.Found>): S.Reply<D.Found> {
    if r.out.Ok? then S.Done(D.Found(done.tops + r.out.value.tops, done.problems + r.out.value.problems), r.pos)
    else r
  }

  lemma EraseNoTops()
    ensures D.EraseModule([]) == A.Module([], [])
  {}

  lemma AfterNothing(r: S.Reply<D.Found>)
    ensures AfterFound(D.Found([], []), r) == r
  {
    if r.out.Ok? {
      assert [] + r.out.value.tops == r.out.value.tops && [] + r.out.value.problems == r.out.value.problems;
    }
  }

  lemma TopsEnd(toks: seq<Token>, pos: nat, done: D.Found)
    requires S.Kind(toks, pos) == Error
    ensures AfterFound(done, D.TopDecls(toks, pos)) == S.Done(done, pos)
  {
    assert done.tops + [] == done.tops && done.problems + [] == done.problems;
  }

  lemma TopsStep(toks: seq<Token>, pos: nat, done: D.Found)
    requires S.Kind(toks, pos) != Error
    ensures var top := D.TopDecl(toks, pos);
      AfterFound(done, D.TopDecls(toks, pos))
      == if top.out.Panicked? then S.Reply(S.Panicked, top.pos)
         else AfterFound(Including(done, top.out), D.TopDecls(toks, Resume(toks, top)))
  {
    hide D.TopDecl, D.Synchronize;
    var top := D.TopDecl(toks, pos);
    if !top.out.Panicked? {
      var rest := D.TopDecls(toks, Resume(toks, top));
      if rest.out.Ok? && top.out.Ok? {
        assert done.tops + [top.out.value] + rest.out.value.tops == done.tops + ([top.out.value] + rest.out.value.tops);
      }
      if rest.out.Ok? && top.out.Err? {
        assert done.problems + [top.out.problem] + rest.out.value.problems
            == done.problems + ([top.out.problem] + rest.out.value.problems);
      }
    }
  }

  /** One more member has been read and sorted into the class, or has failed. */
  ghost predicate Sorted(m: S.Reply<D.MemberTree>, name: Token, done: seq<D.MemberTree>,
                         pos: nat, r: Outcome<A.Class>) {
    && pos == m.pos
    && r == if m.out.Ok? then S.Ok(D.EraseClass(name, done + [m.out.value])) else m.out.PropagateFailure()
  }

  function AsMember(f: S.Reply<D.FunTree>, static_: bool): S.Reply<D.MemberTree> {
    if !f.out.Ok? then f.PropagateFailure()
    else S.Done(if static_ then D.MemberTree.Static(f.out.value) else D.Method(f.out.value), f.pos)
  }

  /** The first word decides what a member is. */
  lemma MemberByWord(toks: seq<Token>, pos: nat)
    ensures var k := S.Kind(toks, pos);
      D.MemberDecl(toks, pos)
      == if k == Val || k == Var then D.FieldDecl(toks, pos + 1, k == Var)
         else if k == Fun then AsMember(D.FunDecl(toks, pos + 1, false), false)
         else if k == Static && S.Kind(toks, pos + 1) == Fun then AsMember(D.FunDecl(toks, pos + 2, false), true)
         else S.Reply(S.Err(S.NotADeclaration(pos + 1)), pos + 1)
  {
    hide D.FunDecl, D.FieldDecl;
  }

  /** A function read as a declaration of its kind. */
  function AsTop(f: S.Reply<D.FunTree>, ext: bool): S.Reply<D.TopTree> {
    if !f.out.Ok? then f.PropagateFailure()
    else S.Done(if ext then D.ExternTop(f.out.value) else D.FunTop(f.out.value), f.pos)
  }

  /** The first word decides what a declaration is. */
  lemma TopByWord(toks: seq<Token>, pos: nat)
    ensures var k := S.Kind(toks, pos);
      D.TopDecl(toks, pos)
      == if k == TKind.Class then D.ClassDecl(toks, pos + 1)
         else if k == Fun then AsTop(D.FunDecl(toks, pos + 1, false), false)
         else if k == Extern && S.Kind(toks, pos + 1) == Fun then AsTop(D.FunDecl(toks, pos + 2, true), true)
         else S.Reply(S.Err(S.NotADeclaration(pos + 1)), pos + 1)
  {
    hide D.FunDecl, D.ClassDecl;
  }

  /** Sorting one more declaration appends it to its list. */
  lemma {:induction false} SnocTop(ts: seq<D.TopTree>, t: D.TopTree)
    ensures var m := D.EraseModule(ts);
      D.EraseModule(ts + [t])
      == match t
         case ClassTop(name, members) => m.(classes := m.classes + [D.EraseClass(name, members)])
         case FunTop(f) => m.(functions := m.functions + [D.EraseFun(f)])
         case ExternTop(f) => m.(functions := m.functions + [D.EraseFun(f)])
    decreases ts
  {
    hide D.EraseFun, D.EraseClass;
    if ts != [] {
      SnocTop(ts[1..], t);
      assert (ts + [t])[1..] == ts[1..] + [t];
    }
  }

  lemma ItemsEnd(toks: seq<Token>, pos: nat)
    requires S.Kind(toks, pos) in {Error, RightBrace}
    ensures ErasedAll(S.Items(toks, pos)) == S.Done([], pos)
  {}

  function ErasedParam(r: S.Reply<D.ParamTree>): S.Reply<A.Param> {
    if r.out.Ok? then S.Done(A.Param(r.out.value.name.lex, r.out.value.typ.lex), r.pos)
    else r.PropagateFailure()
  }

  function ErasedParams(r: S.Reply<seq<D.ParamTree>>): S.Reply<seq<A.Param>> {
    if r.out.Ok? then S.Done(D.EraseParams(r.out.value), r.pos) else r.PropagateFailure()
  }

  function ErasedFun(r: S.Reply<D.FunTree>): S.Reply<A.Function> {
    if r.out.Ok? then S.Done(D.EraseFun(r.out.value), r.pos) else r.PropagateFailure()
  }

  function ErasedField(r: S.Reply<D.MemberTree>): S.Reply<A.Member>
    requires r.out.Ok? ==> r.out.value.Field?
  {
    if r.out.Ok? then
      var Field(mutable, name, typ) := r.out.value;
      S.Done(A.Member(name.lex, typ.lex, mutable), r.pos)
    else r.PropagateFailure()
  }

  function ErasedClass(r: S.Reply<D.TopTree>): S.Reply<A.Class>
    requires r.out.Ok? ==> r.out.value.ClassTop?
  {
    if r.out.Ok? then S.Done(D.EraseClass(r.out.value.name, r.out.value.members), r.pos)
    else r.PropagateFailure()
  }

  lemma EraseNoParams()
    ensures D.EraseParams([]) == []
  {}

  lemma EraseNoMembers(name: Token)
    ensures D.EraseClass(name, []) == A.Class(name.lex, [], [], [])
  {}

  /** One turn of the parameter loop. */
  lemma ParamStep(toks: seq<Token>, pos: nat)
    ensures var param := ErasedParam(D.ParamDecl(toks, pos));
      ErasedParams(D.ParamList(toks, pos))
      == if !param.out.Ok? then param.PropagateFailure()
         else if S.Kind(toks, param.pos) == Comma then
           After([param.out.value], ErasedParams(D.ParamList(toks, param.pos + 1)))
         else S.Done([param.out.value], param.pos)
  {
    hide D.ParamDecl;
    var r := D.ParamDecl(toks, pos);
    if r.out.Ok? {
      var x := r.out.value;
      assert D.EraseParams([x]) == [A.Param(x.name.lex, x.typ.lex)];
      var rest := D.ParamList(toks, r.pos + 1);
      if rest.out.Ok? { assert ([x] + rest.out.value)[1..] == rest.out.value; }
    }
  }

  lemma MembersEnd(toks: seq<Token>, pos: nat)
    requires S.Kind(toks, pos) == RightBrace
    ensures D.Members(toks, pos) == S.Done([], pos)
  {}

  /** One turn of the member loop. */
  lemma MembersStep(toks: seq<Token>, pos: nat)
    requires S.Kind(toks, pos) != RightBrace
    ensures var m := D.MemberDecl(toks, pos);
      D.Members(toks, pos)
      == if m.out.Ok? then After([m.out.value], D.Members(toks, m.pos)) else m.PropagateFailure()
  {
    hide D.MemberDecl;
  }

  /** Sorting one more member appends it to its list. */
  lemma {:induction false} SnocMember(name: Token, ms: seq<D.MemberTree>, m: D.MemberTree)
    ensures var c := D.EraseClass(name, ms);
      D.EraseClass(name, ms + [m])
      == match m
         case Field(mutable, n, t) => c.(members := c.members + [A.Member(n.lex, t.lex, mutable)])
         case Method(f) => c.(methods := c.methods + [D.EraseFun(f)])
         case Static(f) => c.(functions := c.functions + [D.EraseFun(f)])
    decreases ms
  {
    hide D.EraseFun;
    if ms != [] {
      SnocMember(name, ms[1..], m);
      assert (ms + [m])[1..] == ms[1..] + [m];
    }
  }
}
