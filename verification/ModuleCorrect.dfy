/** Whole modules: `parse` succeeds exactly on the derivations of the module grammar. */
module ModuleCorrect {
  import opened Wrappers
  import opened Tokens
  import opened Grammar
  import opened ParserSpec
  import opened ParserCorrect
  import opened Declarations
  import A = Ast

  predicate FormedMembers(ms: seq<MemberTree>) {
    forall i :: 0 <= i < |ms| ==> FormedMember(ms[i])
  }

  predicate FormedTops(ts: seq<TopTree>) {
    forall i :: 0 <= i < |ts| ==> FormedTop(ts[i])
  }

  /** The kinds that may follow a member or a declaration; none of them carries a body further. */
  predicate Follower(k: TKind) {
    k in {Error, Class, Fun, Extern, Val, Var, TKind.Static, RightBrace}
  }

  // ---- soundness ----

  lemma ParamSound(toks: seq<Token>, i: nat)
    requires ParamDecl(toks, i).out.Ok?
    ensures var Reply(Ok(p), j) := ParamDecl(toks, i);
      j == i + 3 && IsName(p.name) && IsName(p.typ) && Spelled(toks, i, j, YieldParam(p))
  {
    assert toks[i..i + 3] == [toks[i], toks[i + 1], toks[i + 2]];
  }

  lemma {:induction false} ParamListSound(toks: seq<Token>, i: nat)
    requires ParamList(toks, i).out.Ok?
    ensures var Reply(Ok(ps), j) := ParamList(toks, i);
      ps != [] && FormedParams(ps) && Spelled(toks, i, j, YieldParams(ps))
    decreases Left(toks, i)
  {
    hide ParamDecl, YieldParam;
    ParamSound(toks, i);
    var Reply(Ok(param), p) := ParamDecl(toks, i);
    if Kind(toks, p) == Comma {
      ParamListSound(toks, p + 1);
      var Reply(Ok(rest), j) := ParamList(toks, p + 1);
      assert ([param] + rest)[1..] == rest;
      Separated(toks, i, p, j, YieldParam(param), Comma, YieldParams(rest));
    }
  }

  lemma ParamsSound(toks: seq<Token>, i: nat)
    requires i <= |toks| && Params(toks, i).out.Ok?
    ensures var Reply(Ok(ps), j) := Params(toks, i);
      FormedParams(ps) && Spelled(toks, i, j, YieldParams(ps))
  {
    if Kind(toks, i) != RightParen { ParamListSound(toks, i); }
  }

  /** The tokens of a function up to its return type. */
  function Lead(f: FunTree): seq<Token> {
    [f.name, Mark(LeftParen)] + YieldParams(f.params) + [Mark(RightParen)]
  }

  lemma HeaderSound(toks: seq<Token>, i: nat)
    requires Header(toks, i).out.Ok?
    ensures var Reply(Ok(f), j) := Header(toks, i);
      FormedFun(f, true) && f.ret.None? && Spelled(toks, i, j, Lead(f))
  {
    hide Params, FormedParams, YieldParams, Readable;
    ParamsSound(toks, i + 2);
    var Reply(Ok(f), j) := Header(toks, i);
    var Reply(Ok(params), p) := Params(toks, i + 2);
    var front := [f.name, Mark(LeftParen)];
    assert toks[i..i + 2] == front;
    Join(toks, i, i + 2, p, front, YieldParams(params));
    assert toks[p] == Mark(RightParen);
    One(toks, p, p + 1, Mark(RightParen));
    Join(toks, i, p, p + 1, front + YieldParams(params), [Mark(RightParen)]);
  }

  lemma RetSound(toks: seq<Token>, i: nat)
    requires i <= |toks| && RetType(toks, i).out.Ok?
    ensures var Reply(Ok(ret), j) := RetType(toks, i);
      Spelled(toks, i, j, YieldRet(ret)) && (ret.Some? ==> IsName(ret.value))
  {
    var Reply(Ok(ret), j) := RetType(toks, i);
    assert toks[i..j] == YieldRet(ret);
  }

  lemma SignatureSound(toks: seq<Token>, i: nat)
    requires Signature(toks, i).out.Ok?
    ensures var Reply(Ok(f), j) := Signature(toks, i);
      FormedFun(f, true) && Spelled(toks, i, j, Lead(f) + YieldRet(f.ret))
  {
    hide Header, RetType, FormedParams, YieldParams, YieldRet, Readable;
    HeaderSound(toks, i);
    var Reply(Ok(header), p) := Header(toks, i);
    RetSound(toks, p);
    var Reply(Ok(ret), j) := RetType(toks, p);
    Join(toks, i, p, j, Lead(header), YieldRet(ret));
  }

  lemma FunSound(toks: seq<Token>, i: nat, ext: bool)
    requires FunDecl(toks, i, ext).out.Ok?
    ensures var Reply(Ok(f), j) := FunDecl(toks, i, ext);
      FormedFun(f, ext) && Spelled(toks, i, j, YieldFun(f))
  {
    hide Signature, Expression;
    SignatureSound(toks, i);
    var Reply(Ok(sig), p) := Signature(toks, i);
    if ext {
      assert Lead(sig) + YieldRet(sig.ret) + [] == Lead(sig) + YieldRet(sig.ret);
    } else {
      ExpressionSound(toks, p);
      var Reply(Ok(body), j) := Expression(toks, p);
      Join(toks, i, p, j, Lead(sig) + YieldRet(sig.ret), Yield(body));
    }
  }

  lemma WordFunSound(toks: seq<Token>, i: nat, ext: bool)
    requires Kind(toks, i) == Fun && FunDecl(toks, i + 1, ext).out.Ok?
    ensures var Reply(Ok(f), j) := FunDecl(toks, i + 1, ext);
      FormedFun(f, ext) && Spelled(toks, i, j, [Mark(Fun)] + YieldFun(f))
  {
    hide FunDecl, YieldFun, FormedFun;
    FunSound(toks, i + 1, ext);
    var Reply(Ok(f), j) := FunDecl(toks, i + 1, ext);
    assert toks[i] == Mark(Fun);
    One(toks, i, i + 1, Mark(Fun));
    Join(toks, i, i + 1, j, [Mark(Fun)], YieldFun(f));
  }

  lemma WordsFunSound(toks: seq<Token>, i: nat, word: TKind, ext: bool)
    requires Kind(toks, i) == word && word in {TKind.Static, Extern}
    requires Kind(toks, i + 1) == Fun && FunDecl(toks, i + 2, ext).out.Ok?
    ensures var Reply(Ok(f), j) := FunDecl(toks, i + 2, ext);
      FormedFun(f, ext) && Spelled(toks, i, j, [Mark(word), Mark(Fun)] + YieldFun(f))
  {
    hide FunDecl, YieldFun, FormedFun;
    FunSound(toks, i + 2, ext);
    var Reply(Ok(f), j) := FunDecl(toks, i + 2, ext);
    assert toks[i..i + 2] == [Mark(word), Mark(Fun)];
    Join(toks, i, i + 2, j, [Mark(word), Mark(Fun)], YieldFun(f));
  }

  lemma MemberSound(toks: seq<Token>, i: nat)
    requires MemberDecl(toks, i).out.Ok?
    ensures var Reply(Ok(m), j) := MemberDecl(toks, i);
      FormedMember(m) && Spelled(toks, i, j, YieldMember(m))
  {
    hide FunDecl, ParamDecl, YieldFun, FormedFun;
    var k := Kind(toks, i);
    if k == Fun {
      WordFunSound(toks, i, false);
    } else if k == TKind.Static {
      WordsFunSound(toks, i, TKind.Static, false);
    } else {
      assert toks[i] == Mark(k);
      FieldSound(toks, i, k);
    }
  }

  lemma FieldSound(toks: seq<Token>, i: nat, k: TKind)
    requires i < |toks| && !HasText(k) && toks[i] == Mark(k) && ParamDecl(toks, i + 1).out.Ok?
    ensures var Reply(Ok(p), j) := ParamDecl(toks, i + 1);
      IsName(p.name) && IsName(p.typ) && Spelled(toks, i, j, [Mark(k)] + YieldParam(p))
  {
    hide ParamDecl, YieldParam;
    ParamSound(toks, i + 1);
    var Reply(Ok(p), j) := ParamDecl(toks, i + 1);
    One(toks, i, i + 1, Mark(k));
    Join(toks, i, i + 1, j, [Mark(k)], YieldParam(p));
  }

  lemma {:induction false} MembersSound(toks: seq<Token>, i: nat)
    requires i <= |toks| && Members(toks, i).out.Ok?
    ensures var Reply(Ok(ms), j) := Members(toks, i);
      FormedMembers(ms) && Spelled(toks, i, j, YieldMembers(ms)) && Kind(toks, j) == RightBrace
    decreases Left(toks, i)
  {
    hide MemberDecl, FormedMember, YieldMember;
    if Kind(toks, i) != RightBrace {
      MemberSound(toks, i);
      var Reply(Ok(m), p) := MemberDecl(toks, i);
      MembersSound(toks, p);
      var Reply(Ok(rest), j) := Members(toks, p);
      assert ([m] + rest)[1..] == rest;
      Join(toks, i, p, j, YieldMember(m), YieldMembers(rest));
    }
  }

  lemma ClassSound(toks: seq<Token>, i: nat)
    requires Kind(toks, i) == Class && ClassDecl(toks, i + 1).out.Ok?
    ensures var Reply(Ok(t), j) := ClassDecl(toks, i + 1);
      FormedTop(t) && Spelled(toks, i, j, YieldTop(t))
  {
    hide Members, FormedMember, YieldMembers;
    MembersSound(toks, i + 3);
    var Reply(Ok(members), p) := Members(toks, i + 3);
    assert toks[p] == Mark(RightBrace);
    assert toks[i..i + 3] == [Mark(Class), toks[i + 1], Mark(LeftBrace)];
    Braced(toks, i, p, toks[i + 1], YieldMembers(members));
  }

  lemma Braced(toks: seq<Token>, i: nat, p: nat, name: Token, ys: seq<Token>)
    requires i + 3 <= p < |toks| && toks[i..i + 3] == [Mark(Class), name, Mark(LeftBrace)]
    requires Spelled(toks, i + 3, p, ys) && toks[p] == Mark(RightBrace)
    ensures Spelled(toks, i, p + 1, [Mark(Class), name, Mark(LeftBrace)] + ys + [Mark(RightBrace)])
  {
    var front := [Mark(Class), name, Mark(LeftBrace)];
    Join(toks, i, i + 3, p, front, ys);
    One(toks, p, p + 1, Mark(RightBrace));
    Join(toks, i, p, p + 1, front + ys, [Mark(RightBrace)]);
  }

  lemma TopSound(toks: seq<Token>, i: nat)
    requires TopDecl(toks, i).out.Ok?
    ensures var Reply(Ok(t), j) := TopDecl(toks, i);
      FormedTop(t) && Spelled(toks, i, j, YieldTop(t))
  {
    hide FunDecl, ClassDecl, YieldFun, FormedFun;
    var k := Kind(toks, i);
    if k == Class {
      ClassSound(toks, i);
    } else if k == Fun {
      WordFunSound(toks, i, false);
    } else {
      WordsFunSound(toks, i, Extern, true);
    }
  }

  /** An error-free run of the main loop has derived every token up to an error token. */
  lemma {:induction false} TopsSound(toks: seq<Token>, i: nat)
    requires i <= |toks| && TopDecls(toks, i).out.Ok? && TopDecls(toks, i).out.value.problems == []
    ensures var Reply(Ok(found), j) := TopDecls(toks, i);
      FormedTops(found.tops) && Spelled(toks, i, j, YieldTops(found.tops)) && Kind(toks, j) == Error
    decreases Left(toks, i)
  {
    hide TopDecl, FormedTop, YieldTop;
    if Kind(toks, i) != Error {
      TopSound(toks, i);
      var Reply(Ok(t), p) := TopDecl(toks, i);
      TopsSound(toks, p);
      var Reply(Ok(rest), j) := TopDecls(toks, p);
      assert ([t] + rest.tops)[1..] == rest.tops;
      Join(toks, i, p, j, YieldTop(t), YieldTops(rest.tops));
    }
  }

  // ---- completeness ----

  lemma ParamComplete(toks: seq<Token>, i: nat, j: nat, p: ParamTree)
    requires IsName(p.name) && IsName(p.typ) && Spelled(toks, i, j, YieldParam(p))
    ensures Kind(toks, i) == Identifier && ParamDecl(toks, i) == Done(p, j)
  {
    assert |toks[i..j]| == 3;
    assert toks[i] == toks[i..j][0] && toks[i + 1] == toks[i..j][1] && toks[i + 2] == toks[i..j][2];
  }

  lemma {:induction false} ParamListComplete(toks: seq<Token>, i: nat, j: nat, ps: seq<ParamTree>)
    requires ps != [] && FormedParams(ps) && Spelled(toks, i, j, YieldParams(ps)) && Kind(toks, j) == RightParen
    ensures Kind(toks, i) == Identifier && ParamList(toks, i) == Done(ps, j)
    decreases ps
  {
    hide ParamDecl, YieldParam, Forward, Steady, Spelled, FormedParams;
    ParamsParts(ps);
    if |ps| == 1 {
      ParamComplete(toks, i, j, ps[0]);
      assert ps == [ps[0]];
    } else {
      var p := Separate(toks, i, j, YieldParam(ps[0]), Comma, YieldParams(ps[1..]));
      ParamComplete(toks, i, p, ps[0]);
      ParamListComplete(toks, p + 1, j, ps[1..]);
      assert ps == [ps[0]] + ps[1..];
    }
  }

  lemma ParamsParts(ps: seq<ParamTree>)
    requires ps != [] && FormedParams(ps)
    ensures IsName(ps[0].name) && IsName(ps[0].typ) && FormedParams(ps[1..])
  {
  }

  lemma ParamsComplete(toks: seq<Token>, i: nat, j: nat, ps: seq<ParamTree>)
    requires FormedParams(ps) && Spelled(toks, i, j, YieldParams(ps)) && Kind(toks, j) == RightParen
    ensures Params(toks, i) == Done(ps, j)
  {
    if ps != [] { ParamListComplete(toks, i, j, ps); }
  }

  lemma HeaderComplete(toks: seq<Token>, i: nat, j: nat, f: FunTree)
    requires FormedFun(f, true) && f.ret.None? && Spelled(toks, i, j, Lead(f))
    ensures Header(toks, i) == Done(f, j)
  {
    hide Params, ParamList, YieldParams, Forward, Steady, Readable;
    var front := [f.name, Mark(LeftParen)];
    var q := Split(toks, i, j, front + YieldParams(f.params), [Mark(RightParen)]);
    One(toks, q, j, Mark(RightParen));
    var p := Split(toks, i, q, front, YieldParams(f.params));
    assert toks[i] == toks[i..p][0] && toks[i + 1] == toks[i..p][1];
    ParamsComplete(toks, p, q, f.params);
  }

  lemma RetComplete(toks: seq<Token>, i: nat, j: nat, ret: Option<Token>)
    requires (ret.Some? ==> IsName(ret.value)) && Spelled(toks, i, j, YieldRet(ret)) && Kind(toks, j) != Arrow
    ensures RetType(toks, i) == Done(ret, j)
  {
    if ret.Some? {
      assert toks[i] == toks[i..j][0] && toks[i + 1] == toks[i..j][1];
    }
  }

  lemma SignatureComplete(toks: seq<Token>, i: nat, j: nat, f: FunTree)
    requires FormedFun(f, true) && Spelled(toks, i, j, Lead(f) + YieldRet(f.ret)) && Kind(toks, j) != Arrow
    ensures Signature(toks, i) == Done(f, j)
  {
    hide Header, RetType, YieldRet, FormedParams, YieldParams;
    var header := f.(ret := None);
    assert Lead(header) == Lead(f);
    var r := Split(toks, i, j, Lead(f), YieldRet(f.ret));
    HeaderComplete(toks, i, r, header);
    RetComplete(toks, r, j, f.ret);
  }

  lemma FunComplete(toks: seq<Token>, i: nat, j: nat, f: FunTree, ext: bool)
    requires FormedFun(f, ext) && Spelled(toks, i, j, YieldFun(f)) && Follower(Kind(toks, j))
    ensures FunDecl(toks, i, ext) == Done(f, j)
  {
    hide Signature, Expression, Formed, Yield, YieldParams, YieldRet, IsExpression, Extends;
    var sig := f.(body := None);
    var p := Split(toks, i, j, Lead(sig) + YieldRet(sig.ret), YieldBody(f.body));
    if !ext {
      PhraseHead(toks, p, j, f.body.value);
      HeadClass(f.body.value);
      ExtendsNot(f.body.value, Kind(toks, j));
      ExpressionComplete(toks, p, j, f.body.value);
    }
    SignatureComplete(toks, i, p, sig);
  }

  lemma MemberComplete(toks: seq<Token>, i: nat, j: nat, m: MemberTree)
    requires FormedMember(m) && Spelled(toks, i, j, YieldMember(m)) && Follower(Kind(toks, j))
    ensures MemberDecl(toks, i) == Done(m, j) && Kind(toks, i) in {Val, Var, Fun, TKind.Static}
  {
    hide FunDecl, ParamDecl, FormedFun, YieldFun;
    match m
    case Field(mutable, name, typ) =>
      var word := Mark(if mutable then Var else Val);
      assert YieldMember(m) == [word] + [name, Mark(Colon), typ];
      var p := Split(toks, i, j, [word], [name, Mark(Colon), typ]);
      One(toks, i, p, word);
      ParamComplete(toks, p, j, ParamTree(name, typ));
    case Method(f) =>
      var p := Split(toks, i, j, [Mark(Fun)], YieldFun(f));
      One(toks, i, p, Mark(Fun));
      FunComplete(toks, p, j, f, false);
    case Static(f) =>
      var words := [Mark(TKind.Static), Mark(Fun)];
      var p := Split(toks, i, j, words, YieldFun(f));
      assert toks[i] == toks[i..p][0] && toks[i + 1] == toks[i..p][1];
      FunComplete(toks, p, j, f, false);
  }

  lemma {:induction false} MembersComplete(toks: seq<Token>, i: nat, j: nat, ms: seq<MemberTree>)
    requires FormedMembers(ms) && Spelled(toks, i, j, YieldMembers(ms)) && Kind(toks, j) == RightBrace
    ensures Members(toks, i) == Done(ms, j) && Follower(Kind(toks, i))
    decreases ms
  {
    hide MemberDecl, FormedMember, YieldMember;
    if ms != [] {
      var p := Split(toks, i, j, YieldMember(ms[0]), YieldMembers(ms[1..]));
      MembersComplete(toks, p, j, ms[1..]);
      MemberComplete(toks, i, p, ms[0]);
      assert ms == [ms[0]] + ms[1..];
    }
  }

  lemma ClassComplete(toks: seq<Token>, i: nat, j: nat, name: Token, ms: seq<MemberTree>)
    requires IsName(name) && FormedMembers(ms) && Spelled(toks, i, j, YieldTop(ClassTop(name, ms)))
    ensures Kind(toks, i) == Class && ClassDecl(toks, i + 1) == Done(ClassTop(name, ms), j)
  {
    hide Members, YieldMembers, FormedMembers, Spelled, Steady, Forward, Readable, Consume, ClassDecl;
    ClassParts(toks, i, j, name, YieldMembers(ms));
    MembersComplete(toks, i + 3, j - 1, ms);
    Consumes(toks, i + 1, Identifier);
    Consumes(toks, i + 2, LeftBrace);
    Consumes(toks, j - 1, RightBrace);
    ClassRuns(toks, i + 1, j, name, ms);
  }

  lemma ClassRuns(toks: seq<Token>, pos: nat, j: nat, name: Token, ms: seq<MemberTree>)
    requires Consume(toks, pos, Identifier) == Done(name, pos + 1) && Consume(toks, pos + 1, LeftBrace).out.Ok?
    requires Consume(toks, pos + 1, LeftBrace).pos == pos + 2 && j > 0 && Members(toks, pos + 2) == Done(ms, j - 1)
    requires Consume(toks, j - 1, RightBrace).out.Ok? && Consume(toks, j - 1, RightBrace).pos == j
    ensures ClassDecl(toks, pos) == Done(ClassTop(name, ms), j)
  {
    hide Members, Consume, Steady, Forward;
  }

  lemma Consumes(toks: seq<Token>, pos: nat, kind: TKind)
    requires pos < |toks| && toks[pos].kind == kind != Error
    ensures Consume(toks, pos, kind) == Done(toks[pos], pos + 1)
  {
  }

  /** The three tokens that lead a class, its members and its closing brace. */
  lemma ClassParts(toks: seq<Token>, i: nat, j: nat, name: Token, ys: seq<Token>)
    requires Spelled(toks, i, j, [Mark(Class), name, Mark(LeftBrace)] + ys + [Mark(RightBrace)])
    ensures i + 4 <= j <= |toks| && toks[i] == Mark(Class) && toks[i + 1] == name && toks[i + 2] == Mark(LeftBrace)
    ensures Spelled(toks, i + 3, j - 1, ys) && toks[j - 1] == Mark(RightBrace)
  {
    var front := [Mark(Class), name, Mark(LeftBrace)];
    var q := Split(toks, i, j, front + ys, [Mark(RightBrace)]);
    One(toks, q, j, Mark(RightBrace));
    var p := Split(toks, i, q, front, ys);
    assert toks[i] == toks[i..p][0] && toks[i + 1] == toks[i..p][1] && toks[i + 2] == toks[i..p][2];
  }

  lemma TopComplete(toks: seq<Token>, i: nat, j: nat, t: TopTree)
    requires FormedTop(t) && Spelled(toks, i, j, YieldTop(t)) && Follower(Kind(toks, j))
    ensures TopDecl(toks, i) == Done(t, j) && Kind(toks, i) in {Class, Fun, Extern}
  {
    hide FunDecl, ClassDecl, FormedFun, YieldFun, FormedMember, YieldMembers;
    match t
    case ClassTop(name, members) => ClassComplete(toks, i, j, name, members);
    case FunTop(f) =>
      var p := Split(toks, i, j, [Mark(Fun)], YieldFun(f));
      One(toks, i, p, Mark(Fun));
      FunComplete(toks, p, j, f, false);
    case ExternTop(f) =>
      var words := [Mark(Extern), Mark(Fun)];
      var p := Split(toks, i, j, words, YieldFun(f));
      assert toks[i] == toks[i..p][0] && toks[i + 1] == toks[i..p][1];
      FunComplete(toks, p, j, f, true);
  }

  lemma {:induction false} TopsComplete(toks: seq<Token>, i: nat, j: nat, ts: seq<TopTree>)
    requires FormedTops(ts) && Spelled(toks, i, j, YieldTops(ts)) && Kind(toks, j) == Error
    ensures TopDecls(toks, i) == Done(Found(ts, []), j) && Follower(Kind(toks, i))
    decreases ts
  {
    hide TopDecl, FormedTop, YieldTop;
    if ts != [] {
      var p := Split(toks, i, j, YieldTop(ts[0]), YieldTops(ts[1..]));
      TopsComplete(toks, p, j, ts[1..]);
      TopComplete(toks, i, p, ts[0]);
      assert ts == [ts[0]] + ts[1..];
    }
  }

  // ---- the tokens that count ----

  predicate NoError(toks: seq<Token>) {
    forall i :: 0 <= i < |toks| ==> toks[i].kind != Error
  }

  /** Neither an error token nor an unreadable number. */
  predicate Clean(toks: seq<Token>) {
    forall i :: 0 <= i < |toks| ==> toks[i].kind != Error && Readable(toks[i])
  }

  function ErrorFrom(toks: seq<Token>, i: nat): (n: nat)
    requires i <= |toks|
    ensures i <= n <= |toks| && (n < |toks| ==> toks[n].kind == Error)
    ensures forall k :: i <= k < n ==> toks[k].kind != Error
    decreases |toks| - i
  {
    if i == |toks| || toks[i].kind == Error then i else ErrorFrom(toks, i + 1)
  }

  /** The number of tokens before the first error token. */
  function FirstError(toks: seq<Token>): (n: nat)
    ensures n <= |toks| && NoError(toks[..n]) && Kind(toks, n) == Error
  {
    ErrorFrom(toks, 0)
  }

  lemma FirstErrorUnique(toks: seq<Token>, n: nat)
    requires n <= |toks| && NoError(toks[..n]) && Kind(toks, n) == Error
    ensures FirstError(toks) == n
  {
    var m := FirstError(toks);
    assert forall i :: 0 <= i < n ==> toks[..n][i] == toks[i];
    assert forall i :: 0 <= i < m ==> toks[..m][i] == toks[i];
  }

  lemma {:induction false} ParamsQuiet(ps: seq<ParamTree>)
    requires FormedParams(ps)
    ensures Quiet(YieldParams(ps))
    decreases ps
  {
    if |ps| > 1 {
      ParamsQuiet(ps[1..]);
      QuietJoin(YieldParam(ps[0]), Comma, YieldParams(ps[1..]));
    }
  }

  lemma FunQuiet(f: FunTree, ext: bool)
    requires FormedFun(f, ext)
    ensures Quiet(YieldFun(f))
  {
    hide YieldParams, Formed;
    ParamsQuiet(f.params);
    if f.body.Some? { YieldQuiet(f.body.value); }
  }

  lemma MemberClean(m: MemberTree)
    requires FormedMember(m)
    ensures Clean(YieldMember(m))
  {
    hide YieldFun, FormedFun;
    if !m.Field? { FunQuiet(m.f, false); }
  }

  lemma {:induction false} MembersClean(ms: seq<MemberTree>)
    requires FormedMembers(ms)
    ensures Clean(YieldMembers(ms))
    decreases ms
  {
    hide YieldMember, FormedMember;
    if ms != [] {
      MemberClean(ms[0]);
      MembersClean(ms[1..]);
    }
  }

  lemma TopClean(t: TopTree)
    requires FormedTop(t)
    ensures Clean(YieldTop(t))
  {
    hide YieldFun, FormedFun, YieldMembers, FormedMember;
    match t
    case ClassTop(_, members) => MembersClean(members);
    case FunTop(f) => FunQuiet(f, false);
    case ExternTop(f) => FunQuiet(f, true);
  }

  lemma {:induction false} TopsClean(ts: seq<TopTree>)
    requires FormedTops(ts)
    ensures Clean(YieldTops(ts))
    decreases ts
  {
    hide YieldTop, FormedTop;
    if ts != [] {
      TopClean(ts[0]);
      TopsClean(ts[1..]);
    }
  }

  /** `tops` derives the tokens before the first error token. */
  predicate DerivesModule(toks: seq<Token>, tops: seq<TopTree>) {
    FormedTops(tops) && toks[..FirstError(toks)] == YieldTops(tops)
  }

  /** The main loop ends without errors exactly when the tokens before the first error derive. */
  lemma TopsExact(toks: seq<Token>, tops: seq<TopTree>)
    ensures DerivesModule(toks, tops)
      <==> TopDecls(toks, 0) == Done(Found(tops, []), FirstError(toks))
    ensures TopDecls(toks, 0).out.Ok? && TopDecls(toks, 0).out.value.problems == []
      ==> TopDecls(toks, 0).pos == FirstError(toks)
  {
    hide TopDecls, FormedTops, YieldTops, FirstError;
    var r := TopDecls(toks, 0);
    if r.out.Ok? && r.out.value.problems == [] {
      TopsSound(toks, 0);
      TopsClean(r.out.value.tops);
      assert toks[0..r.pos] == toks[..r.pos];
      FirstErrorUnique(toks, r.pos);
    }
    if DerivesModule(toks, tops) {
      var n := FirstError(toks);
      assert toks[0..n] == toks[..n];
      TopsComplete(toks, 0, n, tops);
    }
  }

  /** `parse` returns a module exactly when the tokens before the first error token derive it. */
  lemma ParseExact(toks: seq<Token>, m: A.Module)
    ensures ParseModule(toks) == Module(m)
      <==> toks != [] && exists tops :: DerivesModule(toks, tops) && EraseModule(tops) == m
  {
    hide TopDecls, DerivesModule, EraseModule;
    if ParseModule(toks) == Module(m) {
      TopsExact(toks, TopDecls(toks, 0).out.value.tops);
    }
    if tops :| DerivesModule(toks, tops) && EraseModule(tops) == m {
      TopsExact(toks, tops);
    }
  }

  /** Nothing from the first error token on has a say in a successful parse. */
  lemma TailIgnored(toks: seq<Token>, other: seq<Token>, m: A.Module)
    requires toks != [] && other != []
    requires toks[..FirstError(toks)] == other[..FirstError(other)]
    ensures ParseModule(toks) == Module(m) <==> ParseModule(other) == Module(m)
  {
    hide ParseModule, FirstError, EraseModule;
    ParseExact(toks, m);
    ParseExact(other, m);
    assert forall tops :: DerivesModule(toks, tops) <==> DerivesModule(other, tops);
  }

  /** Every run ends in a module or in errors, save on an empty stream or an unreadable number. */
  lemma PanicCause(toks: seq<Token>)
    requires ParseModule(toks).Panic?
    ensures toks == [] || exists i :: 0 <= i < |toks| && !Readable(toks[i])
  {
    hide TopDecls, Readable;
    if toks != [] { assert !Readable(toks[TopDecls(toks, 0).pos]); }
  }
}
