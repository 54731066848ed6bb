/**
 When the parser panics. A stream whose unreadable numbers are mended is parsed in the same way, up
 to the first number that cannot be read; so of the streams that parse once mended, exactly those
 with an unreadable number before the first error token panic.
 */
module Panics {
  import opened Tokens
  import opened Grammar
  import opened ParserSpec
  import opened Declarations
  import opened ModuleCorrect

  function MendToken(tok: Token): (r: Token)
    ensures r.kind == tok.kind && (Readable(tok) ==> r == tok)
  {
    if Readable(tok) then tok else Lexeme(tok.kind, if tok.kind.IntLit? then "0" else "0.0")
  }

  /** The stream with zeros in place of the numbers that `from_str` refuses. */
  function Mend(toks: seq<Token>): (r: seq<Token>)
    ensures |r| == |toks| && forall i :: 0 <= i < |r| ==> r[i] == MendToken(toks[i])
  {
    if toks == [] then [] else [MendToken(toks[0])] + Mend(toks[1..])
  }

  lemma MendedReadable(tok: Token)
    ensures Readable(MendToken(tok))
  {
    if !Readable(tok) {
      assert IsDigits("0") && DigitsValue("0") == 0;
      var s := "0.0";
      assert s[1] == '.' && s[..1] == "0" && s[2..] == "0";
    }
  }

  /** Both replies agree, unless the first is a panic. */
  ghost predicate Same<T(!new)>(a: Reply<T>, b: Reply<T>) {
    a.out.Panicked? || a == b
  }

  lemma KindSame(toks: seq<Token>, pos: nat)
    ensures Kind(Mend(toks), pos) == Kind(toks, pos) && Left(Mend(toks), pos) == Left(toks, pos)
    ensures Readable(Peek(toks, pos)) ==> Peek(Mend(toks), pos) == Peek(toks, pos)
  {
  }

  lemma ConsumeSame(toks: seq<Token>, pos: nat, kind: TKind)
    requires kind !in {Error, IntLit, FloatLit}
    ensures Consume(Mend(toks), pos, kind) == Consume(toks, pos, kind)
  {
    KindSame(toks, pos);
  }

  // ---- expressions ----

  lemma {:induction false} HigherSame(toks: seq<Token>, pos: nat)
    ensures Same(HigherExpr(toks, pos), HigherExpr(Mend(toks), pos))
    decreases Left(toks, pos), 5
  {
    hide VarDecl, Expression;
    KindSame(toks, pos);
    if Kind(toks, pos) in {Var, Val} { VarDeclSame(toks, pos); } else { ExpressionSame(toks, pos); }
  }

  lemma {:induction false} VarDeclSame(toks: seq<Token>, pos: nat)
    requires Kind(toks, pos) in {Var, Val}
    ensures Kind(Mend(toks), pos) in {Var, Val}
    ensures Same(VarDecl(toks, pos), VarDecl(Mend(toks), pos))
    decreases Left(toks, pos), 4
  {
    hide Expression, Consume, Mend;
    KindSame(toks, pos);
    ConsumeSame(toks, pos + 1, Identifier);
    var name := Consume(toks, pos + 1, Identifier);
    if name.out.Ok? {
      ConsumeSame(toks, name.pos, Equal);
      var equal := Consume(toks, name.pos, Equal);
      if equal.out.Ok? { ExpressionSame(toks, equal.pos); }
    }
  }

  lemma {:induction false} ExpressionSame(toks: seq<Token>, pos: nat)
    ensures Same(Expression(toks, pos), Expression(Mend(toks), pos))
    decreases Left(toks, pos), 4
  {
    hide BlockExpr, IfExpr, WhileStmt, Binary, Mend, Readable;
    KindSame(toks, pos);
    match Kind(toks, pos)
    case LeftBrace => BlockSame(toks, pos);
    case If => IfSame(toks, pos);
    case While => WhileSame(toks, pos);
    case _ => BinarySame(toks, pos, 0);
  }

  lemma {:induction false} BlockSame(toks: seq<Token>, pos: nat)
    requires Kind(toks, pos) == LeftBrace
    ensures Kind(Mend(toks), pos) == LeftBrace
    ensures Same(BlockExpr(toks, pos), BlockExpr(Mend(toks), pos))
    decreases Left(toks, pos), 3
  {
    hide Items, Consume, Mend;
    KindSame(toks, pos);
    ItemsSame(toks, pos + 1);
    ConsumeSame(toks, Items(toks, pos + 1).pos, RightBrace);
  }

  lemma {:induction false} ItemsSame(toks: seq<Token>, pos: nat)
    ensures Same(Items(toks, pos), Items(Mend(toks), pos))
    decreases Left(toks, pos), 6
  {
    hide HigherExpr, Mend;
    KindSame(toks, pos);
    if Kind(toks, pos) !in {Error, RightBrace} {
      HigherSame(toks, pos);
      var item := HigherExpr(toks, pos);
      if item.out.Ok? { ItemsSame(toks, item.pos); }
    }
  }

  lemma {:induction false} ConditionSame(toks: seq<Token>, pos: nat)
    ensures Same(Condition(toks, pos), Condition(Mend(toks), pos))
    decreases Left(toks, pos), 5
  {
    hide Expression, Consume, Mend;
    ConsumeSame(toks, pos, LeftParen);
    var open := Consume(toks, pos, LeftParen);
    if open.out.Ok? {
      ExpressionSame(toks, open.pos);
      ConsumeSame(toks, Expression(toks, open.pos).pos, RightParen);
    }
  }

  lemma {:induction false} IfSame(toks: seq<Token>, pos: nat)
    requires Kind(toks, pos) == TKind.If
    ensures Kind(Mend(toks), pos) == TKind.If
    ensures Same(IfExpr(toks, pos), IfExpr(Mend(toks), pos))
    decreases Left(toks, pos), 3
  {
    hide Expression, Condition, Mend, Readable;
    KindSame(toks, pos);
    ConditionSame(toks, pos + 1);
    var cond := Condition(toks, pos + 1);
    if cond.out.Ok? {
      ExpressionSame(toks, cond.pos);
      var thn := Expression(toks, cond.pos);
      KindSame(toks, thn.pos);
      if thn.out.Ok? && Kind(toks, thn.pos) == Else { ExpressionSame(toks, thn.pos + 1); }
    }
  }

  lemma {:induction false} WhileSame(toks: seq<Token>, pos: nat)
    requires Kind(toks, pos) == TKind.While
    ensures Kind(Mend(toks), pos) == TKind.While
    ensures Same(WhileStmt(toks, pos), WhileStmt(Mend(toks), pos))
    decreases Left(toks, pos), 3
  {
    hide Expression, Condition, Mend;
    KindSame(toks, pos);
    ConditionSame(toks, pos + 1);
    var cond := Condition(toks, pos + 1);
    if cond.out.Ok? { ExpressionSame(toks, cond.pos); }
  }

  lemma {:induction false} BinarySame(toks: seq<Token>, pos: nat, min: nat)
    ensures Same(Binary(toks, pos, min), Binary(Mend(toks), pos, min))
    decreases Left(toks, pos), 3
  {
    hide Unary, BinaryLoop, Mend;
    UnarySame(toks, pos);
    var left := Unary(toks, pos);
    if left.out.Ok? { BinaryLoopSame(toks, left.out.value, left.pos, min); }
  }

  lemma {:induction false} BinaryLoopSame(toks: seq<Token>, left: Tree, pos: nat, min: nat)
    requires pos <= |toks|
    ensures pos <= |Mend(toks)| && Same(BinaryLoop(toks, left, pos, min), BinaryLoop(Mend(toks), left, pos, min))
    decreases Left(toks, pos), 4
  {
    hide Binary, Mend, InfixBindingPower;
    KindSame(toks, pos);
    var op := Kind(toks, pos);
    var power := InfixBindingPower(op);
    if power.Some? && power.value.0 >= min {
      OperatorInside(toks, pos);
      BinarySame(toks, pos + 1, power.value.1);
      var right := Binary(toks, pos + 1, power.value.1);
      if right.out.Ok? { BinaryLoopSame(toks, Infix(left, op, right.out.value), right.pos, min); }
    }
  }

  lemma OperatorInside(toks: seq<Token>, pos: nat)
    requires InfixBindingPower(Kind(toks, pos)).Some? || PrefixBindingPower(Kind(toks, pos)).Some?
    ensures pos < |toks|
  {
  }

  lemma {:induction false} UnarySame(toks: seq<Token>, pos: nat)
    ensures Same(Unary(toks, pos), Unary(Mend(toks), pos))
    decreases Left(toks, pos), 2
  {
    hide Binary, CallExpr, Mend, PrefixBindingPower;
    KindSame(toks, pos);
    var power := PrefixBindingPower(Kind(toks, pos));
    if power.Some? {
      OperatorInside(toks, pos);
      BinarySame(toks, pos + 1, power.value);
    } else {
      CallSame(toks, pos);
    }
  }

  lemma {:induction false} CallSame(toks: seq<Token>, pos: nat)
    ensures Same(CallExpr(toks, pos), CallExpr(Mend(toks), pos))
    decreases Left(toks, pos), 1
  {
    hide Primary, CallLoop, Mend;
    PrimarySame(toks, pos);
    var callee := Primary(toks, pos);
    if callee.out.Ok? { CallLoopSame(toks, callee.out.value, callee.pos); }
  }

  lemma {:induction false} CallLoopSame(toks: seq<Token>, callee: Tree, pos: nat)
    requires pos <= |toks|
    ensures pos <= |Mend(toks)| && Same(CallLoop(toks, callee, pos), CallLoop(Mend(toks), callee, pos))
    decreases Left(toks, pos), 8
  {
    hide ClosedArguments, Mend;
    KindSame(toks, pos);
    if Kind(toks, pos) == LeftParen {
      ClosedSame(toks, pos + 1);
      var args := ClosedArguments(toks, pos + 1);
      if args.out.Ok? { CallLoopSame(toks, Call(callee, args.out.value), args.pos); }
    }
  }

  lemma {:induction false} ClosedSame(toks: seq<Token>, pos: nat)
    ensures Same(ClosedArguments(toks, pos), ClosedArguments(Mend(toks), pos))
    decreases Left(toks, pos), 7
  {
    hide ArgumentList, Consume, Mend;
    KindSame(toks, pos);
    if Kind(toks, pos) != RightParen { ArgumentsSame(toks, pos); }
    ConsumeSame(toks, Arguments(toks, pos).pos, RightParen);
  }

  lemma {:induction false} ArgumentsSame(toks: seq<Token>, pos: nat)
    ensures Same(ArgumentList(toks, pos), ArgumentList(Mend(toks), pos))
    decreases Left(toks, pos), 5
  {
    hide Expression, Mend, Readable;
    ExpressionSame(toks, pos);
    var arg := Expression(toks, pos);
    KindSame(toks, arg.pos);
    if arg.out.Ok? && Kind(toks, arg.pos) == Comma { ArgumentsSame(toks, arg.pos + 1); }
  }

  lemma {:induction false} PrimarySame(toks: seq<Token>, pos: nat)
    ensures Same(Primary(toks, pos), Primary(Mend(toks), pos))
    decreases Left(toks, pos), 0
  {
    hide Expression, Consume, Mend, Readable;
    KindSame(toks, pos);
    if Kind(toks, pos) == LeftParen {
      ExpressionSame(toks, pos + 1);
      ConsumeSame(toks, Expression(toks, pos + 1).pos, RightParen);
    }
  }

  // ---- declarations ----

  lemma ParamSame(toks: seq<Token>, pos: nat)
    ensures ParamDecl(Mend(toks), pos) == ParamDecl(toks, pos)
  {
    hide Consume, Mend;
    ConsumeSame(toks, pos, Identifier);
    var name := Consume(toks, pos, Identifier);
    if name.out.Ok? {
      ConsumeSame(toks, name.pos, Colon);
      ConsumeSame(toks, Consume(toks, name.pos, Colon).pos, Identifier);
    }
  }

  lemma {:induction false} ParamListSame(toks: seq<Token>, pos: nat)
    ensures ParamList(Mend(toks), pos) == ParamList(toks, pos)
    decreases Left(toks, pos)
  {
    hide ParamDecl, Mend;
    ParamSame(toks, pos);
    var param := ParamDecl(toks, pos);
    KindSame(toks, param.pos);
    if param.out.Ok? && Kind(toks, param.pos) == Comma { ParamListSame(toks, param.pos + 1); }
  }

  lemma SignatureSame(toks: seq<Token>, pos: nat)
    ensures Signature(Mend(toks), pos) == Signature(toks, pos)
  {
    hide Header, RetType, Mend;
    HeaderSame(toks, pos);
    RetSame(toks, Header(toks, pos).pos);
  }

  lemma HeaderSame(toks: seq<Token>, pos: nat)
    ensures Header(Mend(toks), pos) == Header(toks, pos)
  {
    hide Consume, Params, Mend;
    ConsumeSame(toks, pos, Identifier);
    var name := Consume(toks, pos, Identifier);
    if name.out.Ok? {
      ConsumeSame(toks, name.pos, LeftParen);
      var open := Consume(toks, name.pos, LeftParen);
      ParamsSame(toks, open.pos);
      var params := Params(toks, open.pos);
      ConsumeSame(toks, params.pos, RightParen);
    }
  }

  lemma ParamsSame(toks: seq<Token>, pos: nat)
    ensures Params(Mend(toks), pos) == Params(toks, pos)
  {
    KindSame(toks, pos);
    ParamListSame(toks, pos);
  }

  lemma RetSame(toks: seq<Token>, pos: nat)
    ensures RetType(Mend(toks), pos) == RetType(toks, pos)
  {
    hide Consume, Mend;
    KindSame(toks, pos);
    ConsumeSame(toks, pos + 1, Identifier);
  }

  lemma FunSame(toks: seq<Token>, pos: nat, ext: bool)
    ensures Same(FunDecl(toks, pos, ext), FunDecl(Mend(toks), pos, ext))
  {
    hide Signature, Expression, Mend;
    SignatureSame(toks, pos);
    ExpressionSame(toks, Signature(toks, pos).pos);
  }

  lemma MemberSame(toks: seq<Token>, pos: nat)
    ensures Same(MemberDecl(toks, pos), MemberDecl(Mend(toks), pos))
  {
    hide FunDecl, ParamDecl, Mend, Readable, Kind, Forward, Steady;
    KindSame(toks, pos);
    KindSame(toks, pos + 1);
    var k := Kind(toks, pos);
    if k == Fun {
      FunSame(toks, pos + 1, false);
    } else if k == TKind.Static {
      FunSame(toks, pos + 2, false);
    } else {
      ParamSame(toks, pos + 1);
    }
  }

  lemma {:induction false} MembersSame(toks: seq<Token>, pos: nat)
    ensures Same(Members(toks, pos), Members(Mend(toks), pos))
    decreases Left(toks, pos)
  {
    hide MemberDecl, Mend;
    KindSame(toks, pos);
    if Kind(toks, pos) != RightBrace {
      MemberSame(toks, pos);
      var m := MemberDecl(toks, pos);
      if m.out.Ok? { MembersSame(toks, m.pos); }
    }
  }

  lemma ClassSame(toks: seq<Token>, pos: nat)
    ensures Same(ClassDecl(toks, pos), ClassDecl(Mend(toks), pos))
  {
    hide Consume, Members, Mend;
    ConsumeSame(toks, pos, Identifier);
    var name := Consume(toks, pos, Identifier);
    if name.out.Ok? {
      ConsumeSame(toks, name.pos, LeftBrace);
      var open := Consume(toks, name.pos, LeftBrace);
      MembersSame(toks, open.pos);
      ConsumeSame(toks, Members(toks, open.pos).pos, RightBrace);
    }
  }

  lemma TopSame(toks: seq<Token>, pos: nat)
    ensures Same(TopDecl(toks, pos), TopDecl(Mend(toks), pos))
  {
    hide FunDecl, ClassDecl, Mend, Readable, Kind, Forward, Steady;
    KindSame(toks, pos);
    KindSame(toks, pos + 1);
    var k := Kind(toks, pos);
    if k == Class {
      ClassSame(toks, pos + 1);
    } else if k == Fun {
      FunSame(toks, pos + 1, false);
    } else {
      FunSame(toks, pos + 2, true);
    }
  }

  lemma {:induction false} SynchronizeSame(toks: seq<Token>, pos: nat)
    ensures Synchronize(Mend(toks), pos) == Synchronize(toks, pos)
    decreases Left(toks, pos)
  {
    hide Mend;
    KindSame(toks, pos);
    if Kind(toks, pos) !in {Error, Fun} { SynchronizeSame(toks, pos + 1); }
  }

  /** Mending changes nothing but panics. */
  lemma {:induction false} TopsSame(toks: seq<Token>, pos: nat)
    ensures Same(TopDecls(toks, pos), TopDecls(Mend(toks), pos))
    decreases Left(toks, pos)
  {
    hide TopDecl, Synchronize, Mend;
    KindSame(toks, pos);
    if Kind(toks, pos) != Error {
      TopSame(toks, pos);
      var top := TopDecl(toks, pos);
      if top.out.Ok? {
        TopsSame(toks, top.pos);
      } else if top.out.Err? {
        SynchronizeSame(toks, top.pos);
        TopsSame(toks, Synchronize(toks, top.pos));
      }
    }
  }

  // ---- the exact condition ----

  lemma ErrorSame(toks: seq<Token>)
    ensures FirstError(Mend(toks)) == FirstError(toks)
  {
    hide FirstError, Mend;
    var n := FirstError(toks);
    KindSame(toks, n);
    assert forall i :: 0 <= i < n ==> Mend(toks)[..n][i].kind == toks[..n][i].kind;
    FirstErrorUnique(Mend(toks), n);
  }

  /** A mended stream never panics. */
  lemma MendedParses(toks: seq<Token>)
    requires toks != []
    ensures !ParseModule(Mend(toks)).Panic?
  {
    hide ParseModule, Readable;
    if ParseModule(Mend(toks)).Panic? {
      PanicCause(Mend(toks));
      var i :| 0 <= i < |toks| && !Readable(Mend(toks)[i]);
      MendedReadable(toks[i]);
    }
  }

  /** Some number before the first error token cannot be read. */
  ghost predicate Unreadable(toks: seq<Token>) {
    exists i :: 0 <= i < FirstError(toks) && !Readable(toks[i])
  }

  /** A stream that parses once its numbers are mended panics exactly when one of them had to be. */
  lemma PanicExact(toks: seq<Token>)
    requires ParseModule(Mend(toks)).Module?
    ensures ParseModule(toks).Panic? <==> Unreadable(toks)
    ensures !Unreadable(toks) ==> ParseModule(toks) == ParseModule(Mend(toks))
  {
    hide TopDecls, Mend, FirstError, Readable, EraseModule;
    var n := FirstError(toks);
    ErrorSame(toks);
    if Unreadable(toks) {
      TopsSame(toks, 0);
      if !ParseModule(toks).Panic? { NoneUnreadable(toks); }
    } else {
      assert toks[..n] == Mend(toks)[..n];
      TailIgnored(toks, Mend(toks), ParseModule(Mend(toks)).m);
    }
  }

  /** An error-free run has read every number before the first error token. */
  lemma NoneUnreadable(toks: seq<Token>)
    requires TopDecls(toks, 0).out.Ok? && TopDecls(toks, 0).out.value.problems == []
    ensures !Unreadable(toks)
  {
    hide TopDecls, FirstError, YieldTops, FormedTops;
    var r := TopDecls(toks, 0);
    TopsSound(toks, 0);
    TopsExact(toks, r.out.value.tops);
    TopsClean(r.out.value.tops);
    var n := FirstError(toks);
    assert forall i :: 0 <= i < n ==> toks[0..n][i] == toks[i];
  }
}
