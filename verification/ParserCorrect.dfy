/** The parser accepts exactly the derivations of the grammar, each with its own tree. */
module ParserCorrect {
  import opened Wrappers
  import opened Tokens
  import opened Grammar
  import opened ParserSpec

  // ---- token ranges ----

  predicate Spelled(toks: seq<Token>, i: nat, j: nat, ys: seq<Token>) {
    i <= j <= |toks| && toks[i..j] == ys
  }

  lemma Join(toks: seq<Token>, i: nat, j: nat, k: nat, a: seq<Token>, b: seq<Token>)
    requires Spelled(toks, i, j, a) && Spelled(toks, j, k, b)
    ensures Spelled(toks, i, k, a + b)
  {
    assert toks[i..k] == toks[i..j] + toks[j..k];
  }

  lemma Split(toks: seq<Token>, i: nat, k: nat, a: seq<Token>, b: seq<Token>) returns (j: nat)
    requires Spelled(toks, i, k, a + b)
    ensures j == i + |a| && Spelled(toks, i, j, a) && Spelled(toks, j, k, b)
  {
    j := i + |a|;
    assert |a + b| == k - i;
    assert toks[i..k][..|a|] == toks[i..j] && (a + b)[..|a|] == a;
    assert toks[i..k][|a|..] == toks[j..k] && (a + b)[|a|..] == b;
  }

  lemma One(toks: seq<Token>, i: nat, j: nat, tok: Token)
    ensures Spelled(toks, i, j, [tok]) <==> j == i + 1 && i < |toks| && toks[i] == tok
  {
    if Spelled(toks, i, j, [tok]) {
      assert |toks[i..j]| == 1;
      assert toks[i..j][0] == toks[i];
    } else if i < |toks| && j == i + 1 {
      assert toks[i..j] == [toks[i]];
    }
  }

  /** The tokens from `i` to `j` derive `t`. */
  predicate Phrase(toks: seq<Token>, i: nat, j: nat, t: Tree) {
    Formed(t) && Spelled(toks, i, j, Yield(t))
  }

  lemma PhraseHead(toks: seq<Token>, i: nat, j: nat, t: Tree)
    requires Phrase(toks, i, j, t)
    ensures i < j && Kind(toks, i) == Head(t)
  {
    YieldHead(t);
    assert |toks[i..j]| > 0;
    assert toks[i] == toks[i..j][0];
  }

  // ---- soundness ----

  /** Every tree the parser returns derives the tokens it consumed, and cannot be carried further. */
  lemma {:induction false} ExpressionSound(toks: seq<Token>, i: nat)
    requires Expression(toks, i).out.Ok?
    ensures var Reply(Ok(t), j) := Expression(toks, i);
      Phrase(toks, i, j, t) && IsExpression(t) && !Extends(t, Kind(toks, j))
    decreases Left(toks, i), 4
  {
    hide Phrase, BlockExpr, IfExpr, WhileStmt, Binary;
    match Kind(toks, i)
    case LeftBrace => BlockSound(toks, i);
    case If => IfSound(toks, i);
    case While => WhileSound(toks, i);
    case _ => BinarySound(toks, i, 0);
  }

  lemma {:induction false} BinarySound(toks: seq<Token>, i: nat, min: nat)
    requires Binary(toks, i, min).out.Ok? && min <= 30
    ensures var Reply(Ok(t), j) := Binary(toks, i, min);
      Phrase(toks, i, j, t) && InLevel(t, min) && !ExtendsLevel(min, Kind(toks, j))
    decreases Left(toks, i), 3
  {
    UnarySound(toks, i);
    var Reply(Ok(left), p) := Unary(toks, i);
    LevelDown(left, 30, min);
    LevelDown(left, 30, 21);
    BinaryLoopSound(toks, i, left, p, min);
  }

  lemma {:induction false} BinaryLoopSound(toks: seq<Token>, i: nat, left: Tree, p: nat, min: nat)
    requires p <= |toks| && BinaryLoop(toks, left, p, min).out.Ok?
    requires i < p && Phrase(toks, i, p, left) && InLevel(left, min) && Kind(toks, p) != LeftParen
    requires var power := InfixBindingPower(Kind(toks, p));
      power.Some? && power.value.0 >= min ==> InLevel(left, power.value.0 + 1)
    ensures var Reply(Ok(t), j) := BinaryLoop(toks, left, p, min);
      Phrase(toks, i, j, t) && InLevel(t, min) && !ExtendsLevel(min, Kind(toks, j))
    decreases Left(toks, p), 4
  {
    var op := Kind(toks, p);
    var power := InfixBindingPower(op);
    if power.Some? && power.value.0 >= min {
      PowersStep(op);
      var (lbp, rbp) := power.value;
      BinarySound(toks, p + 1, rbp);
      var Reply(Ok(right), j) := Binary(toks, p + 1, rbp);
      InfixPhrase(toks, i, p, j, left, right);
      FollowerWeaker(op, Kind(toks, j));
      BinaryLoopSound(toks, i, Infix(left, op, right), j, min);
    }
  }

  /** An operator that stops the right operand of `op` has a power below that of `op`. */
  lemma FollowerWeaker(op: TKind, next: TKind)
    requires InfixBindingPower(op).Some? && !ExtendsLevel(InfixBindingPower(op).value.1, next)
    ensures InfixBindingPower(next).Some? ==> InfixBindingPower(next).value.0 < InfixBindingPower(op).value.0
  {}

  lemma InfixPhrase(toks: seq<Token>, i: nat, p: nat, j: nat, left: Tree, right: Tree)
    requires Phrase(toks, i, p, left) && p < |toks| && Phrase(toks, p + 1, j, right)
    requires InfixBindingPower(toks[p].kind).Some?
    requires InLevel(left, InfixBindingPower(toks[p].kind).value.0 + 1)
    requires InLevel(right, InfixBindingPower(toks[p].kind).value.1)
    ensures Phrase(toks, i, j, Infix(left, toks[p].kind, right))
  {
    Separated(toks, i, p, j, Yield(left), toks[p].kind, Yield(right));
  }

  lemma {:induction false} UnarySound(toks: seq<Token>, i: nat)
    requires Unary(toks, i).out.Ok?
    ensures var Reply(Ok(t), j) := Unary(toks, i);
      Phrase(toks, i, j, t) && InLevel(t, 30) && Kind(toks, j) != LeftParen
    decreases Left(toks, i), 2
  {
    var op := Kind(toks, i);
    if PrefixBindingPower(op).Some? {
      BinarySound(toks, i + 1, 30);
      var Reply(Ok(operand), j) := Binary(toks, i + 1, 30);
      assert toks[i] == Mark(op);
      One(toks, i, i + 1, Mark(op));
      Join(toks, i, i + 1, j, [Mark(op)], Yield(operand));
    } else {
      CallSound(toks, i);
    }
  }

  lemma {:induction false} CallSound(toks: seq<Token>, i: nat)
    requires CallExpr(toks, i).out.Ok?
    ensures var Reply(Ok(t), j) := CallExpr(toks, i);
      Phrase(toks, i, j, t) && IsPostfix(t) && Kind(toks, j) != LeftParen
    decreases Left(toks, i), 1
  {
    PrimarySound(toks, i);
    var Reply(Ok(callee), p) := Primary(toks, i);
    CallLoopSound(toks, i, callee, p);
  }

  lemma {:induction false} CallLoopSound(toks: seq<Token>, i: nat, callee: Tree, p: nat)
    requires p <= |toks| && CallLoop(toks, callee, p).out.Ok?
    requires i < p && Phrase(toks, i, p, callee) && IsPostfix(callee)
    ensures var Reply(Ok(t), j) := CallLoop(toks, callee, p);
      Phrase(toks, i, j, t) && IsPostfix(t) && Kind(toks, j) != LeftParen
    decreases Left(toks, p), 4
  {
    hide Phrase, Formed, FormedArgs, Yield, YieldArgs, Arguments;
    if Kind(toks, p) == LeftParen {
      ArgumentsSound(toks, p + 1);
      var Reply(Ok(args), q) := Arguments(toks, p + 1);
      CallPhrase(toks, i, p, q, callee, args);
      CallLoopSound(toks, i, Call(callee, args), q + 1);
    }
  }

  lemma CallPhrase(toks: seq<Token>, i: nat, p: nat, q: nat, callee: Tree, args: seq<Tree>)
    requires Phrase(toks, i, p, callee) && IsPostfix(callee) && Kind(toks, p) == LeftParen
    requires FormedArgs(args) && Spelled(toks, p + 1, q, YieldArgs(args)) && Kind(toks, q) == RightParen
    ensures Phrase(toks, i, q + 1, Call(callee, args))
  {
    assert toks[p] == Mark(LeftParen) && toks[q] == Mark(RightParen);
    One(toks, p, p + 1, Mark(LeftParen));
    One(toks, q, q + 1, Mark(RightParen));
    Join(toks, i, p, p + 1, Yield(callee), [Mark(LeftParen)]);
    Join(toks, i, p + 1, q, Yield(callee) + [Mark(LeftParen)], YieldArgs(args));
    Join(toks, i, q, q + 1, Yield(callee) + [Mark(LeftParen)] + YieldArgs(args), [Mark(RightParen)]);
  }

  lemma {:induction false} ArgumentsSound(toks: seq<Token>, i: nat)
    requires Arguments(toks, i).out.Ok? && i <= |toks|
    ensures var Reply(Ok(args), j) := Arguments(toks, i);
      FormedArgs(args) && Spelled(toks, i, j, YieldArgs(args))
    decreases Left(toks, i), 6
  {
    if Kind(toks, i) != RightParen { ArgumentListSound(toks, i); }
  }

  lemma {:induction false} ArgumentListSound(toks: seq<Token>, i: nat)
    requires ArgumentList(toks, i).out.Ok?
    ensures var Reply(Ok(args), j) := ArgumentList(toks, i);
      args != [] && FormedArgs(args) && Spelled(toks, i, j, YieldArgs(args))
    decreases Left(toks, i), 5
  {
    hide Expression, Formed, IsExpression, Yield, Extends;
    ExpressionSound(toks, i);
    var Reply(Ok(arg), p) := Expression(toks, i);
    if Kind(toks, p) == Comma {
      ArgumentListSound(toks, p + 1);
      var Reply(Ok(rest), j) := ArgumentList(toks, p + 1);
      assert ([arg] + rest)[1..] == rest;
      Separated(toks, i, p, j, Yield(arg), Comma, YieldArgs(rest));
    }
  }

  lemma {:induction false} PrimarySound(toks: seq<Token>, i: nat)
    requires Primary(toks, i).out.Ok?
    ensures var Reply(Ok(t), j) := Primary(toks, i);
      Phrase(toks, i, j, t) && IsPostfix(t)
    decreases Left(toks, i), 0
  {
    var tok := Peek(toks, i);
    if IsAtomKind(tok.kind) {
      One(toks, i, i + 1, tok);
    } else {
      ExpressionSound(toks, i + 1);
      var Reply(Ok(inner), p) := Expression(toks, i + 1);
      Enclosed(toks, i, p, LeftParen, Yield(inner), RightParen);
    }
  }

  lemma Enclosed(toks: seq<Token>, i: nat, p: nat, open: TKind, ys: seq<Token>, close: TKind)
    requires Spelled(toks, i + 1, p, ys) && p < |toks|
    requires toks[i] == Mark(open) && toks[p] == Mark(close)
    ensures Spelled(toks, i, p + 1, [Mark(open)] + ys + [Mark(close)])
  {
    One(toks, i, i + 1, Mark(open));
    One(toks, p, p + 1, Mark(close));
    Join(toks, i, i + 1, p, [Mark(open)], ys);
    Join(toks, i, p, p + 1, [Mark(open)] + ys, [Mark(close)]);
  }

  lemma {:induction false} BlockSound(toks: seq<Token>, i: nat)
    requires Kind(toks, i) == LeftBrace && BlockExpr(toks, i).out.Ok?
    ensures var Reply(Ok(t), j) := BlockExpr(toks, i);
      t.Block? && Phrase(toks, i, j, t)
    decreases Left(toks, i), 3
  {
    ItemsSound(toks, i + 1);
    var Reply(Ok(items), p) := Items(toks, i + 1);
    Enclosed(toks, i, p, LeftBrace, YieldItems(items), RightBrace);
  }

  lemma {:induction false} ItemsSound(toks: seq<Token>, i: nat)
    requires i <= |toks| && Items(toks, i).out.Ok?
    ensures var Reply(Ok(items), j) := Items(toks, i);
      && FormedItems(items) && Spelled(toks, i, j, YieldItems(items))
      && Kind(toks, j) in {Error, RightBrace}
      && (items != [] ==> Kind(toks, i) == Head(items[0]))
    decreases Left(toks, i), 6
  {
    if Kind(toks, i) !in {Error, RightBrace} {
      HigherSound(toks, i);
      var Reply(Ok(item), p) := HigherExpr(toks, i);
      PhraseHead(toks, i, p, item);
      ItemsSound(toks, p);
      var Reply(Ok(rest), j) := Items(toks, p);
      assert ([item] + rest)[1..] == rest;
      Join(toks, i, p, j, Yield(item), YieldItems(rest));
    }
  }

  lemma {:induction false} HigherSound(toks: seq<Token>, i: nat)
    requires HigherExpr(toks, i).out.Ok?
    ensures var Reply(Ok(t), j) := HigherExpr(toks, i);
      Phrase(toks, i, j, t) && IsItem(t) && !Extends(t, Kind(toks, j))
    decreases Left(toks, i), 5
  {
    hide Phrase, VarDecl, Expression;
    if Kind(toks, i) in {Var, Val} {
      VarDeclSound(toks, i);
    } else {
      ExpressionSound(toks, i);
    }
  }

  lemma {:induction false} VarDeclSound(toks: seq<Token>, i: nat)
    requires Kind(toks, i) in {Var, Val} && VarDecl(toks, i).out.Ok?
    ensures var Reply(Ok(t), j) := VarDecl(toks, i);
      Phrase(toks, i, j, t) && t.Decl? && !Extends(t, Kind(toks, j))
    decreases Left(toks, i), 4
  {
    hide Expression;
    var final := Kind(toks, i) == Val;
    ExpressionSound(toks, i + 3);
    var Reply(Ok(value), j) := Expression(toks, i + 3);
    var lead := [Mark(if final then Val else Var), toks[i + 1], Mark(Equal)];
    assert toks[i..i + 3] == lead;
    Join(toks, i, i + 3, j, lead, Yield(value));
  }

  lemma {:induction false} ConditionSound(toks: seq<Token>, i: nat, word: TKind)
    requires Kind(toks, i) == word && word in {TKind.If, TKind.While} && Condition(toks, i + 1).out.Ok?
    ensures var Reply(Ok(t), j) := Condition(toks, i + 1);
      && Formed(t) && IsExpression(t)
      && Spelled(toks, i, j, [Mark(word), Mark(LeftParen)] + Yield(t) + [Mark(RightParen)])
    decreases Left(toks, i), 0
  {
    ExpressionSound(toks, i + 2);
    var Reply(Ok(cond), p) := Expression(toks, i + 2);
    assert toks[i..i + 2] == [Mark(word), Mark(LeftParen)];
    assert toks[p] == Mark(RightParen);
    One(toks, p, p + 1, Mark(RightParen));
    Join(toks, i, i + 2, p, [Mark(word), Mark(LeftParen)], Yield(cond));
    Join(toks, i, p, p + 1, [Mark(word), Mark(LeftParen)] + Yield(cond), [Mark(RightParen)]);
  }

  lemma {:induction false} IfSound(toks: seq<Token>, i: nat)
    requires Kind(toks, i) == TKind.If && IfExpr(toks, i).out.Ok?
    ensures var Reply(Ok(t), j) := IfExpr(toks, i);
      (t.If? || t.IfElse?) && Phrase(toks, i, j, t) && !Extends(t, Kind(toks, j))
    decreases Left(toks, i), 3
  {
    hide Condition, Expression, IsExpression, Guarded;
    GuardSound(toks, i, TKind.If);
    var Reply(Ok(cond), p) := Condition(toks, i + 1);
    var Reply(Ok(thn), q) := Expression(toks, p);
    if Kind(toks, q) == Else {
      ExpressionSound(toks, q + 1);
      var Reply(Ok(els), j) := Expression(toks, q + 1);
      Separated(toks, i, q, j, Guarded(TKind.If, Yield(cond), Yield(thn)), Else, Yield(els));
    }
  }

  /** A condition and what it guards. */
  lemma {:induction false} GuardSound(toks: seq<Token>, i: nat, word: TKind)
    requires Kind(toks, i) == word && word in {TKind.If, TKind.While} && Condition(toks, i + 1).out.Ok?
    requires Expression(toks, Condition(toks, i + 1).pos).out.Ok?
    ensures var Reply(Ok(cond), p) := Condition(toks, i + 1);
      var Reply(Ok(body), q) := Expression(toks, p);
      && Formed(cond) && IsExpression(cond) && Formed(body) && IsExpression(body)
      && !Extends(body, Kind(toks, q)) && Spelled(toks, i, q, Guarded(word, Yield(cond), Yield(body)))
    decreases Left(toks, i), 1
  {
    hide Condition, Expression, IsExpression, Formed, Yield, Extends;
    ConditionSound(toks, i, word);
    var Reply(Ok(cond), p) := Condition(toks, i + 1);
    ExpressionSound(toks, p);
    var Reply(Ok(body), q) := Expression(toks, p);
    Join(toks, i, p, q, [Mark(word), Mark(LeftParen)] + Yield(cond) + [Mark(RightParen)], Yield(body));
  }

  lemma Separated(toks: seq<Token>, i: nat, p: nat, j: nat, a: seq<Token>, k: TKind, b: seq<Token>)
    requires Spelled(toks, i, p, a) && p < |toks| && toks[p] == Mark(k) && Spelled(toks, p + 1, j, b)
    ensures Spelled(toks, i, j, a + [Mark(k)] + b)
  {
    One(toks, p, p + 1, Mark(k));
    Join(toks, i, p, p + 1, a, [Mark(k)]);
    Join(toks, i, p + 1, j, a + [Mark(k)], b);
  }

  lemma {:induction false} WhileSound(toks: seq<Token>, i: nat)
    requires Kind(toks, i) == TKind.While && WhileStmt(toks, i).out.Ok?
    ensures var Reply(Ok(t), j) := WhileStmt(toks, i);
      t.While? && Phrase(toks, i, j, t) && !Extends(t, Kind(toks, j))
    decreases Left(toks, i), 3
  {
    hide Condition, Expression, IsExpression, Guarded;
    GuardSound(toks, i, TKind.While);
  }

  // ---- completeness ----

  /** Cut a range at the separator `k` between two parts. */
  lemma Separate(toks: seq<Token>, i: nat, j: nat, a: seq<Token>, k: TKind, b: seq<Token>) returns (p: nat)
    requires Spelled(toks, i, j, a + [Mark(k)] + b)
    ensures Spelled(toks, i, p, a) && p < |toks| && toks[p] == Mark(k) && Spelled(toks, p + 1, j, b)
  {
    var q := Split(toks, i, j, a + [Mark(k)], b);
    p := Split(toks, i, q, a, [Mark(k)]);
    One(toks, p, q, Mark(k));
  }

  lemma Enclosing(toks: seq<Token>, i: nat, j: nat, open: TKind, ys: seq<Token>, close: TKind)
    requires Spelled(toks, i, j, [Mark(open)] + ys + [Mark(close)])
    ensures i + 2 <= j <= |toks| && toks[i] == Mark(open) && toks[j - 1] == Mark(close)
    ensures Spelled(toks, i + 1, j - 1, ys)
  {
    var q := Split(toks, i, j, [Mark(open)] + ys, [Mark(close)]);
    var p := Split(toks, i, q, [Mark(open)], ys);
    One(toks, i, p, Mark(open));
    One(toks, q, j, Mark(close));
  }

  /** Every derivation that the next token cannot carry further is found, with its own tree. */
  lemma {:induction false} ExpressionComplete(toks: seq<Token>, i: nat, j: nat, t: Tree)
    requires Phrase(toks, i, j, t) && IsExpression(t) && !Extends(t, Kind(toks, j))
    ensures Expression(toks, i) == Done(t, j)
    decreases t, 6
  {
    hide Phrase, BlockExpr, IfExpr, WhileStmt, Binary;
    PhraseHead(toks, i, j, t);
    if t.Block? {
      BlockComplete(toks, i, j, t);
    } else if t.If? {
      IfComplete(toks, i, j, t);
    } else if t.IfElse? {
      IfElseComplete(toks, i, j, t);
    } else if t.While? {
      WhileComplete(toks, i, j, t);
    } else {
      LevelHead(toks, i, j, t);
      LevelComplete(toks, i, j, t, 0);
    }
  }

  lemma LevelHead(toks: seq<Token>, i: nat, j: nat, t: Tree)
    requires Phrase(toks, i, j, t) && InLevel(t, 0)
    ensures Kind(toks, i) !in {LeftBrace, TKind.If, TKind.While, Var, Val, RightBrace, RightParen, Error}
  {
    PhraseHead(toks, i, j, t);
    HeadClass(t);
  }

  lemma {:induction false} LevelComplete(toks: seq<Token>, i: nat, j: nat, t: Tree, p: nat)
    requires Phrase(toks, i, j, t) && InLevel(t, p) && p <= 30 && !ExtendsLevel(p, Kind(toks, j))
    ensures Binary(toks, i, p) == Done(t, j)
    decreases t, 5
  {
    var next := Kind(toks, j);
    if t.Infix? && InfixBindingPower(next).Some? { PowersStep(next); PowersStep(t.op); }
    LevelRuns(toks, i, j, t, p);
  }

  /** Up to `j`, the loop has built exactly `t`. */
  lemma {:induction false} LevelRuns(toks: seq<Token>, i: nat, j: nat, t: Tree, p: nat)
    requires Phrase(toks, i, j, t) && InLevel(t, p) && p <= 30 && Kind(toks, j) != LeftParen
    requires var next := InfixBindingPower(Kind(toks, j));
      t.Infix? && next.Some? ==> next.value.0 < InfixBindingPower(t.op).value.1
    ensures Binary(toks, i, p) == BinaryLoop(toks, t, j, p)
    decreases t, 4
  {
    if t.Infix? {
      InfixRuns(toks, i, j, t.left, t.op, t.right, p);
    } else {
      LevelDown(t, p, 0);
      UnaryComplete(toks, i, j, t);
    }
  }

  lemma InfixParts(toks: seq<Token>, i: nat, j: nat, left: Tree, op: TKind, right: Tree) returns (q: nat)
    requires Phrase(toks, i, j, Infix(left, op, right))
    ensures InfixBindingPower(op).Some? && q < |toks| && toks[q] == Mark(op)
    ensures Phrase(toks, i, q, left) && InLevel(left, InfixBindingPower(op).value.0 + 1)
    ensures Phrase(toks, q + 1, j, right) && InLevel(right, InfixBindingPower(op).value.1)
  {
    q := Separate(toks, i, j, Yield(left), op, Yield(right));
  }

  lemma {:induction false} InfixRuns(toks: seq<Token>, i: nat, j: nat, left: Tree, op: TKind, right: Tree, p: nat)
    requires Phrase(toks, i, j, Infix(left, op, right)) && Kind(toks, j) != LeftParen
    requires InfixBindingPower(op).Some? && p <= InfixBindingPower(op).value.0
    requires var next := InfixBindingPower(Kind(toks, j));
      next.Some? ==> next.value.0 < InfixBindingPower(op).value.1
    ensures Binary(toks, i, p) == BinaryLoop(toks, Infix(left, op, right), j, p)
    decreases Infix(left, op, right), 3
  {
    hide Binary, Phrase, Formed, Yield;
    var t := Infix(left, op, right);
    var q := InfixParts(toks, i, j, left, op, right);
    var (lbp, rbp) := InfixBindingPower(op).value;
    PowersStep(op);
    if left.Infix? { PowersStep(left.op); }
    LevelDown(left, lbp + 1, p);
    LevelRuns(toks, i, q, left, p);
    LevelComplete(toks, q + 1, j, right, rbp);
  }

  lemma {:induction false} UnaryComplete(toks: seq<Token>, i: nat, j: nat, t: Tree)
    requires Phrase(toks, i, j, t) && InLevel(t, 0) && !t.Infix? && Kind(toks, j) != LeftParen
    ensures Unary(toks, i) == Done(t, j)
    decreases t, 2
  {
    hide Binary, CallExpr, Phrase, Formed, Yield;
    PhraseHead(toks, i, j, t);
    if t.Prefix? {
      PrefixParts(toks, i, j, t.op, t.operand);
      LevelComplete(toks, i + 1, j, t.operand, 30);
    } else {
      PostfixHead(toks, i, j, t);
      CallRuns(toks, i, j, t);
    }
  }

  lemma PostfixHead(toks: seq<Token>, i: nat, j: nat, t: Tree)
    requires Phrase(toks, i, j, t) && IsPostfix(t)
    ensures PrefixBindingPower(Kind(toks, i)).None?
  {
    PhraseHead(toks, i, j, t);
    HeadClass(t);
  }

  lemma PrefixParts(toks: seq<Token>, i: nat, j: nat, op: TKind, operand: Tree)
    requires Phrase(toks, i, j, Prefix(op, operand))
    ensures i < |toks| && toks[i] == Mark(op) && PrefixBindingPower(op) == Some(30)
    ensures Phrase(toks, i + 1, j, operand) && InLevel(operand, 30)
  {
    var q := Split(toks, i, j, [Mark(op)], Yield(operand));
    One(toks, i, q, Mark(op));
  }

  /** Up to `j`, the call loop has built exactly `t`. */
  lemma {:induction false} CallRuns(toks: seq<Token>, i: nat, j: nat, t: Tree)
    requires Phrase(toks, i, j, t) && IsPostfix(t)
    ensures CallExpr(toks, i) == CallLoop(toks, t, j)
    decreases t, 1
  {
    hide Primary, CallLoop, Phrase;
    if t.Call? {
      ApplyRuns(toks, i, j, t.callee, t.args);
    } else {
      PrimaryComplete(toks, i, j, t);
    }
  }

  lemma {:induction false} PrimaryComplete(toks: seq<Token>, i: nat, j: nat, t: Tree)
    requires Phrase(toks, i, j, t) && (t.Atom? || t.Paren?)
    ensures Primary(toks, i) == Done(t, j)
    decreases t, 0
  {
    hide Expression;
    if t.Atom? {
      One(toks, i, j, t.tok);
    } else {
      Enclosing(toks, i, j, LeftParen, Yield(t.inner), RightParen);
      ExtendsNot(t.inner, RightParen);
      ExpressionComplete(toks, i + 1, j - 1, t.inner);
    }
  }

  lemma {:induction false} ApplyRuns(toks: seq<Token>, i: nat, j: nat, callee: Tree, args: seq<Tree>)
    requires Phrase(toks, i, j, Call(callee, args))
    ensures CallExpr(toks, i) == CallLoop(toks, Call(callee, args), j)
    decreases Call(callee, args), 0
  {
    hide CallExpr, Arguments, Forward, Steady, Phrase, Formed, FormedArgs, Yield, YieldArgs;
    var q, r := CallParts(toks, i, j, callee, args);
    CallRuns(toks, i, q, callee);
    ArgumentsComplete(toks, q + 1, r, args);
  }

  lemma CallParts(toks: seq<Token>, i: nat, j: nat, callee: Tree, args: seq<Tree>) returns (q: nat, r: nat)
    requires Phrase(toks, i, j, Call(callee, args))
    ensures Phrase(toks, i, q, callee) && IsPostfix(callee) && Kind(toks, q) == LeftParen
    ensures FormedArgs(args) && Spelled(toks, q + 1, r, YieldArgs(args))
    ensures Kind(toks, r) == RightParen && j == r + 1
  {
    r := Split(toks, i, j, Yield(callee) + [Mark(LeftParen)] + YieldArgs(args), [Mark(RightParen)]);
    One(toks, r, j, Mark(RightParen));
    q := Separate(toks, i, r, Yield(callee), LeftParen, YieldArgs(args));
  }

  lemma ExtendsNot(t: Tree, k: TKind)
    requires k !in {LeftParen, Else} && InfixBindingPower(k).None?
    ensures !Extends(t, k)
  {
    if Extends(t, k) { ExtendsOnly(t, k); }
  }

  lemma {:induction false} ArgumentsComplete(toks: seq<Token>, i: nat, j: nat, args: seq<Tree>)
    requires FormedArgs(args) && Spelled(toks, i, j, YieldArgs(args)) && Kind(toks, j) == RightParen
    ensures Arguments(toks, i) == Done(args, j)
    ensures args != [] ==> ArgumentList(toks, i) == Done(args, j)
    decreases args, 1
  {
    hide Expression, Formed, IsExpression, Yield, Forward, Steady;
    if args == [] {
    } else if |args| == 1 {
      ArgumentComplete(toks, i, j, args[0]);
      assert args == [args[0]];
    } else {
      var p := Separate(toks, i, j, Yield(args[0]), Comma, YieldArgs(args[1..]));
      ArgumentComplete(toks, i, p, args[0]);
      ArgumentsComplete(toks, p + 1, j, args[1..]);
      assert args == [args[0]] + args[1..];
    }
  }

  lemma {:induction false} ArgumentComplete(toks: seq<Token>, i: nat, j: nat, arg: Tree)
    requires Phrase(toks, i, j, arg) && IsExpression(arg) && Kind(toks, j) in {Comma, RightParen}
    ensures Kind(toks, i) != RightParen && Expression(toks, i) == Done(arg, j)
    decreases arg, 7
  {
    hide Expression;
    PhraseHead(toks, i, j, arg);
    HeadClass(arg);
    ExtendsNot(arg, Kind(toks, j));
    ExpressionComplete(toks, i, j, arg);
  }

  lemma {:induction false} BlockComplete(toks: seq<Token>, i: nat, j: nat, t: Tree)
    requires t.Block? && Phrase(toks, i, j, t)
    ensures Kind(toks, i) == LeftBrace && BlockExpr(toks, i) == Done(t, j)
    decreases t, 5
  {
    Enclosing(toks, i, j, LeftBrace, YieldItems(t.items), RightBrace);
    ItemsComplete(toks, i + 1, j - 1, t.items);
  }

  lemma {:induction false} ItemsComplete(toks: seq<Token>, i: nat, j: nat, items: seq<Tree>)
    requires FormedItems(items) && Spelled(toks, i, j, YieldItems(items)) && Kind(toks, j) == RightBrace
    ensures Items(toks, i) == Done(items, j)
    ensures items != [] ==> Kind(toks, i) == Head(items[0])
    decreases items, 0
  {
    hide HigherExpr;
    if items != [] {
      var item, rest := items[0], items[1..];
      var p := Split(toks, i, j, Yield(item), YieldItems(rest));
      ItemsComplete(toks, p, j, rest);
      if rest == [] { ExtendsNot(item, RightBrace); }
      HigherComplete(toks, i, p, item);
      assert items == [item] + rest;
    }
  }

  lemma {:induction false} HigherComplete(toks: seq<Token>, i: nat, j: nat, t: Tree)
    requires Phrase(toks, i, j, t) && IsItem(t) && !Extends(t, Kind(toks, j))
    ensures HigherExpr(toks, i) == Done(t, j)
    ensures Kind(toks, i) == Head(t) && Kind(toks, i) !in {Error, RightBrace}
    decreases t, 7
  {
    hide Expression, VarDecl;
    PhraseHead(toks, i, j, t);
    HeadClass(t);
    if t.Decl? {
      VarDeclComplete(toks, i, j, t);
    } else {
      if InLevel(t, 0) { LevelHead(toks, i, j, t); }
      ExpressionComplete(toks, i, j, t);
    }
  }

  lemma {:induction false} VarDeclComplete(toks: seq<Token>, i: nat, j: nat, t: Tree)
    requires t.Decl? && Phrase(toks, i, j, t) && !Extends(t, Kind(toks, j))
    ensures Kind(toks, i) in {Var, Val} && VarDecl(toks, i) == Done(t, j)
    decreases t, 5
  {
    hide Expression, Phrase, Formed, Yield, Forward, Steady;
    DeclParts(toks, i, j, t);
    ExpressionComplete(toks, i + 3, j, t.value);
  }

  lemma DeclParts(toks: seq<Token>, i: nat, j: nat, t: Tree)
    requires t.Decl? && Phrase(toks, i, j, t)
    ensures i + 3 <= j <= |toks| && toks[i] == Mark(if t.final then Val else Var)
    ensures toks[i + 1] == t.name && t.name.kind == Identifier && toks[i + 2] == Mark(Equal)
    ensures Phrase(toks, i + 3, j, t.value) && IsExpression(t.value)
  {
    var lead := [Mark(if t.final then Val else Var), t.name, Mark(Equal)];
    var q := Split(toks, i, j, lead, Yield(t.value));
    assert toks[i] == toks[i..q][0] && toks[i + 1] == toks[i..q][1] && toks[i + 2] == toks[i..q][2];
  }

  lemma {:induction false} GuardComplete(toks: seq<Token>, i: nat, j: nat, word: TKind, cond: Tree, body: Tree)
      returns (p: nat)
    requires Formed(cond) && IsExpression(cond) && word in {TKind.If, TKind.While}
    requires Spelled(toks, i, j, Guarded(word, Yield(cond), Yield(body)))
    ensures Kind(toks, i) == word && Condition(toks, i + 1) == Done(cond, p)
    ensures Spelled(toks, p, j, Yield(body))
    decreases cond, 7
  {
    hide Expression;
    var lead := [Mark(word), Mark(LeftParen)];
    p := Split(toks, i, j, lead + Yield(cond) + [Mark(RightParen)], Yield(body));
    var r := Split(toks, i, p, lead + Yield(cond), [Mark(RightParen)]);
    One(toks, r, p, Mark(RightParen));
    var q := Split(toks, i, r, lead, Yield(cond));
    assert toks[i] == toks[i..q][0] && toks[i + 1] == toks[i..q][1];
    ExtendsNot(cond, RightParen);
    ExpressionComplete(toks, q, r, cond);
  }

  lemma {:induction false} IfComplete(toks: seq<Token>, i: nat, j: nat, t: Tree)
    requires t.If? && Phrase(toks, i, j, t) && !Extends(t, Kind(toks, j))
    ensures Kind(toks, i) == TKind.If && IfExpr(toks, i) == Done(t, j)
    decreases t, 5
  {
    hide Condition, Expression, Guarded;
    var p := GuardComplete(toks, i, j, TKind.If, t.cond, t.thn);
    ExpressionComplete(toks, p, j, t.thn);
  }

  lemma {:induction false} IfElseComplete(toks: seq<Token>, i: nat, j: nat, t: Tree)
    requires t.IfElse? && Phrase(toks, i, j, t) && !Extends(t, Kind(toks, j))
    ensures Kind(toks, i) == TKind.If && IfExpr(toks, i) == Done(t, j)
    decreases t, 5
  {
    hide Condition, Expression, Guarded, Formed, Yield, IsExpression, Extends, Forward, Steady;
    var q := IfElseParts(toks, i, j, t);
    var p := GuardComplete(toks, i, q, TKind.If, t.cond, t.thn);
    ExpressionComplete(toks, p, q, t.thn);
    ExpressionComplete(toks, q + 1, j, t.els);
  }

  lemma IfElseParts(toks: seq<Token>, i: nat, j: nat, t: Tree) returns (q: nat)
    requires t.IfElse? && Phrase(toks, i, j, t) && !Extends(t, Kind(toks, j))
    ensures Formed(t.cond) && IsExpression(t.cond) && Formed(t.thn) && IsExpression(t.thn)
    ensures Formed(t.els) && IsExpression(t.els)
    ensures !Extends(t.thn, Else) && !Extends(t.els, Kind(toks, j))
    ensures Spelled(toks, i, q, Guarded(TKind.If, Yield(t.cond), Yield(t.thn)))
    ensures q < |toks| && toks[q] == Mark(Else) && Spelled(toks, q + 1, j, Yield(t.els))
  {
    hide Guarded, IsExpression;
    q := Separate(toks, i, j, Guarded(TKind.If, Yield(t.cond), Yield(t.thn)), Else, Yield(t.els));
  }

  lemma {:induction false} WhileComplete(toks: seq<Token>, i: nat, j: nat, t: Tree)
    requires t.While? && Phrase(toks, i, j, t) && !Extends(t, Kind(toks, j))
    ensures Kind(toks, i) == TKind.While && WhileStmt(toks, i) == Done(t, j)
    decreases t, 5
  {
    hide Condition, Expression, Guarded;
    var p := GuardComplete(toks, i, j, TKind.While, t.cond, t.body);
    ExpressionComplete(toks, p, j, t.body);
  }

  // ---- the parser is the grammar ----

  /** `expression` succeeds with `t` at `j` exactly when `t` derives the range and cannot go on. */
  lemma ExpressionExact(toks: seq<Token>, i: nat, j: nat, t: Tree)
    ensures Expression(toks, i) == Done(t, j)
      <==> Phrase(toks, i, j, t) && IsExpression(t) && !Extends(t, Kind(toks, j))
  {
    if Expression(toks, i) == Done(t, j) {
      ExpressionSound(toks, i);
    } else if Phrase(toks, i, j, t) && IsExpression(t) && !Extends(t, Kind(toks, j)) {
      ExpressionComplete(toks, i, j, t);
    }
  }

  /** `binary(min)` accepts exactly the phrases of level `min` and above. */
  lemma BinaryExact(toks: seq<Token>, i: nat, j: nat, t: Tree, min: nat)
    requires min <= 30
    ensures Binary(toks, i, min) == Done(t, j)
      <==> Phrase(toks, i, j, t) && InLevel(t, min) && !ExtendsLevel(min, Kind(toks, j))
  {
    if Binary(toks, i, min) == Done(t, j) {
      BinarySound(toks, i, min);
    } else if Phrase(toks, i, j, t) && InLevel(t, min) && !ExtendsLevel(min, Kind(toks, j)) {
      LevelComplete(toks, i, j, t, min);
    }
  }

  /** The grammar is unambiguous: a token sequence has at most one derivation as an expression. */
  lemma Unambiguous(t: Tree, u: Tree)
    requires Formed(t) && IsExpression(t) && Formed(u) && IsExpression(u) && Yield(t) == Yield(u)
    ensures t == u
  {
    hide Expression, Formed, Yield, IsExpression, Extends;
    var toks := Yield(t);
    assert toks[0..|toks|] == toks;
    ExtendsNot(t, Error);
    ExtendsNot(u, Error);
    ExpressionComplete(toks, 0, |toks|, t);
    ExpressionComplete(toks, 0, |toks|, u);
  }
}
