/** Functions, classes and whole modules: their concrete trees and what the parser makes of them. */
module Declarations {
  import opened Wrappers
  import opened Tokens
  import opened Grammar
  import opened ParserSpec
  import Ast

  // ---- concrete trees ----

  datatype ParamTree = ParamTree(name: Token, typ: Token)

  datatype FunTree = FunTree(name: Token, params: seq<ParamTree>, ret: Option<Token>, body: Option<Tree>)

  datatype MemberTree =
    | Field(mutable: bool, name: Token, typ: Token)
    | Method(f: FunTree)
    | Static(f: FunTree)

  datatype TopTree =
    | ClassTop(name: Token, members: seq<MemberTree>)
    | FunTop(f: FunTree)
    | ExternTop(f: FunTree)

  function YieldParams(params: seq<ParamTree>): seq<Token> {
    if params == [] then []
    else if |params| == 1 then YieldParam(params[0])
    else YieldParam(params[0]) + [Mark(Comma)] + YieldParams(params[1..])
  }

  function YieldParam(p: ParamTree): seq<Token> {
    [p.name, Mark(Colon), p.typ]
  }

  /** The tokens of a function after its `fun`. */
  function YieldFun(f: FunTree): seq<Token> {
    [f.name, Mark(LeftParen)] + YieldParams(f.params) + [Mark(RightParen)] + YieldRet(f.ret)
    + YieldBody(f.body)
  }

  function YieldRet(ret: Option<Token>): seq<Token> {
    if ret.Some? then [Mark(Arrow), ret.value] else []
  }

  function YieldBody(body: Option<Tree>): seq<Token> {
    if body.Some? then Yield(body.value) else []
  }

  function YieldMember(m: MemberTree): seq<Token> {
    match m
    case Field(mutable, name, typ) => [Mark(if mutable then Var else Val), name, Mark(Colon), typ]
    case Method(f) => [Mark(Fun)] + YieldFun(f)
    case Static(f) => [Mark(TKind.Static), Mark(Fun)] + YieldFun(f)
  }

  function YieldMembers(ms: seq<MemberTree>): seq<Token> {
    if ms == [] then [] else YieldMember(ms[0]) + YieldMembers(ms[1..])
  }

  function YieldTop(t: TopTree): seq<Token> {
    match t
    case ClassTop(name, members) =>
      [Mark(Class), name, Mark(LeftBrace)] + YieldMembers(members) + [Mark(RightBrace)]
    case FunTop(f) => [Mark(Fun)] + YieldFun(f)
    case ExternTop(f) => [Mark(Extern), Mark(Fun)] + YieldFun(f)
  }

  function YieldTops(ts: seq<TopTree>): seq<Token> {
    if ts == [] then [] else YieldTop(ts[0]) + YieldTops(ts[1..])
  }

  predicate IsName(t: Token) {
    t.kind == Identifier
  }

  predicate FormedParams(params: seq<ParamTree>) {
    forall i :: 0 <= i < |params| ==> IsName(params[i].name) && IsName(params[i].typ)
  }

  /** A function has a body unless it is external. */
  predicate FormedFun(f: FunTree, ext: bool) {
    && IsName(f.name) && FormedParams(f.params) && (f.ret.Some? ==> IsName(f.ret.value))
    && f.body.None? == ext
    && (f.body.Some? ==> Formed(f.body.value) && IsExpression(f.body.value))
  }

  predicate FormedMember(m: MemberTree) {
    match m
    case Field(_, name, typ) => IsName(name) && IsName(typ)
    case Method(f) => FormedFun(f, false)
    case Static(f) => FormedFun(f, false)
  }

  predicate FormedTop(t: TopTree) {
    match t
    case ClassTop(name, members) =>
      IsName(name) && forall i :: 0 <= i < |members| ==> FormedMember(members[i])
    case FunTop(f) => FormedFun(f, false)
    case ExternTop(f) => FormedFun(f, true)
  }

  // ---- syntax trees ----

  function EraseParams(params: seq<ParamTree>): seq<Ast.Param> {
    if params == [] then []
    else [Ast.Param(params[0].name.lex, params[0].typ.lex)] + EraseParams(params[1..])
  }

  function EraseRet(ret: Option<Token>): Option<string> {
    if ret.Some? then Some(ret.value.lex) else None
  }

  function EraseFun(f: FunTree): Ast.Function {
    Ast.Function(f.name.lex, EraseParams(f.params), EraseRet(f.ret),
                 if f.body.Some? then Some(Erase(f.body.value)) else None)
  }

  /** A class sorts its members into fields, methods and static functions. */
  function EraseClass(name: Token, ms: seq<MemberTree>): Ast.Class {
    if ms == [] then Ast.Class(name.lex, [], [], [])
    else
      var c := EraseClass(name, ms[1..]);
      match ms[0]
      case Field(mutable, n, t) => c.(members := [Ast.Member(n.lex, t.lex, mutable)] + c.members)
      case Method(f) => c.(methods := [EraseFun(f)] + c.methods)
      case Static(f) => c.(functions := [EraseFun(f)] + c.functions)
  }

  /** A module sorts its declarations into functions and classes. */
  function EraseModule(ts: seq<TopTree>): Ast.Module {
    if ts == [] then Ast.Module([], [])
    else
      var m := EraseModule(ts[1..]);
      match ts[0]
      case ClassTop(name, members) => m.(classes := [EraseClass(name, members)] + m.classes)
      case FunTop(f) => m.(functions := [EraseFun(f)] + m.functions)
      case ExternTop(f) => m.(functions := [EraseFun(f)] + m.functions)
  }

  // ---- the parser ----

  function ParamDecl(toks: seq<Token>, pos: nat): (r: Reply<ParamTree>)
    ensures Forward(toks, pos, r)
  {
    var (name, p1) :- Consume(toks, pos, Identifier);
    var (_, p2) :- Consume(toks, p1, Colon);
    var (typ, p3) :- Consume(toks, p2, Identifier);
    Done(ParamTree(name, typ), p3)
  }

  /** One or more parameters, separated by commas. */
  function ParamList(toks: seq<Token>, pos: nat): (r: Reply<seq<ParamTree>>)
    ensures Forward(toks, pos, r)
    decreases Left(toks, pos)
  {
    var (param, p1) :- ParamDecl(toks, pos);
    if Kind(toks, p1) == Comma then
      var (rest, p2) :- ParamList(toks, p1 + 1);
      Done([param] + rest, p2)
    else Done([param], p1)
  }

  function Params(toks: seq<Token>, pos: nat): (r: Reply<seq<ParamTree>>)
    ensures Steady(toks, pos, r)
  {
    if Kind(toks, pos) == RightParen then Done([], pos) else ParamList(toks, pos)
  }

  /** The name and the parameters of a function. */
  function Header(toks: seq<Token>, pos: nat): (r: Reply<FunTree>)
    ensures Forward(toks, pos, r)
  {
    var (name, p1) :- Consume(toks, pos, Identifier);
    var (_, p2) :- Consume(toks, p1, LeftParen);
    var (params, p3) :- Params(toks, p2);
    var (_, p4) :- Consume(toks, p3, RightParen);
    Done(FunTree(name, params, None, None), p4)
  }

  /** A function up to its return type. */
  function Signature(toks: seq<Token>, pos: nat): (r: Reply<FunTree>)
    ensures Forward(toks, pos, r)
  {
    var (header, p1) :- Header(toks, pos);
    var (ret, p2) :- RetType(toks, p1);
    Done(header.(ret := ret), p2)
  }

  function RetType(toks: seq<Token>, pos: nat): (r: Reply<Option<Token>>)
    ensures Steady(toks, pos, r) && (r.out.Ok? && pos <= |toks| ==> r.pos <= |toks|)
  {
    if Kind(toks, pos) == Arrow then
      var (ret, p1) :- Consume(toks, pos + 1, Identifier);
      Done(Some(ret), p1)
    else Done(None, pos)
  }

  function FunDecl(toks: seq<Token>, pos: nat, ext: bool): (r: Reply<FunTree>)
    ensures Forward(toks, pos, r)
  {
    var (sig, p1) :- Signature(toks, pos);
    if ext then Done(sig, p1)
    else
      var (body, p2) :- Expression(toks, p1);
      Done(sig.(body := Some(body)), p2)
  }

  function FieldDecl(toks: seq<Token>, pos: nat, mutable: bool): (r: Reply<MemberTree>)
    ensures Forward(toks, pos, r) && (r.out.Ok? ==> r.out.value.Field?)
  {
    var (param, p1) :- ParamDecl(toks, pos);
    Done(Field(mutable, param.name, param.typ), p1)
  }

  /** One member, from its first word on. The word is consumed even where no member starts with it. */
  function MemberDecl(toks: seq<Token>, pos: nat): (r: Reply<MemberTree>)
    ensures Forward(toks, pos, r) && pos < r.pos
  {
    var k := Kind(toks, pos);
    if k == Val then FieldDecl(toks, pos + 1, false)
    else if k == Var then FieldDecl(toks, pos + 1, true)
    else if k == Fun then
      var (f, p1) :- FunDecl(toks, pos + 1, false);
      Done(Method(f), p1)
    else if k == TKind.Static && Kind(toks, pos + 1) == Fun then
      var (f, p1) :- FunDecl(toks, pos + 2, false);
      Done(MemberTree.Static(f), p1)
    else Reply(Err(NotADeclaration(pos + 1)), pos + 1)
  }

  function Members(toks: seq<Token>, pos: nat): (r: Reply<seq<MemberTree>>)
    ensures Steady(toks, pos, r)
    decreases Left(toks, pos)
  {
    if Kind(toks, pos) == RightBrace then Done([], pos)
    else
      var (m, p1) :- MemberDecl(toks, pos);
      var (rest, p2) :- Members(toks, p1);
      Done([m] + rest, p2)
  }

  function ClassDecl(toks: seq<Token>, pos: nat): (r: Reply<TopTree>)
    ensures r.out.Ok? ==> r.out.value.ClassTop?
    ensures Forward(toks, pos, r)
  {
    var (name, p1) :- Consume(toks, pos, Identifier);
    var (_, p2) :- Consume(toks, p1, LeftBrace);
    var (members, p3) :- Members(toks, p2);
    var (_, p4) :- Consume(toks, p3, RightBrace);
    Done(ClassTop(name, members), p4)
  }

  /** One declaration of a module, from its first word on. */
  function TopDecl(toks: seq<Token>, pos: nat): (r: Reply<TopTree>)
    ensures Forward(toks, pos, r) && pos < r.pos
  {
    var k := Kind(toks, pos);
    if k == Class then ClassDecl(toks, pos + 1)
    else if k == Fun then
      var (f, p1) :- FunDecl(toks, pos + 1, false);
      Done(FunTop(f), p1)
    else if k == Extern && Kind(toks, pos + 1) == Fun then
      var (f, p1) :- FunDecl(toks, pos + 2, true);
      Done(ExternTop(f), p1)
    else Reply(Err(NotADeclaration(pos + 1)), pos + 1)
  }

  /** After an error: skip past the next `fun`, or up to an error token. */
  function Synchronize(toks: seq<Token>, pos: nat): (end: nat)
    ensures pos <= end
    ensures Kind(toks, end) == Error || (pos < end && Kind(toks, end - 1) == Fun)
    ensures forall i :: pos <= i < end - 1 ==> Kind(toks, i) !in {Error, Fun}
    decreases Left(toks, pos)
  {
    if Kind(toks, pos) == Error then pos
    else if Kind(toks, pos) == Fun then pos + 1
    else Synchronize(toks, pos + 1)
  }

  /** The declarations and problems found up to the error token that ends the main loop. */
  datatype Found = Found(tops: seq<TopTree>, problems: seq<Problem>)

  function TopDecls(toks: seq<Token>, pos: nat): (r: Reply<Found>)
    ensures Steady(toks, pos, r) && !r.out.Err?
    decreases Left(toks, pos)
  {
    if Kind(toks, pos) == Error then Done(Found([], []), pos)
    else
      var top := TopDecl(toks, pos);
      match top.out
      case Panicked => Reply(Panicked, top.pos)
      case Ok(t) =>
        var (found, p) :- TopDecls(toks, top.pos);
        Done(found.(tops := [t] + found.tops), p)
      case Err(problem) =>
        var (found, p) :- TopDecls(toks, Synchronize(toks, top.pos));
        Done(found.(problems := [problem] + found.problems), p)
  }

  /** What `parse` returns: a module, the errors, or a panic. */
  datatype Parsed = Module(m: Ast.Module) | Problems(problems: seq<Problem>) | Panic

  function Summary(r: Reply<Found>): Parsed {
    if !r.out.Ok? then Panic
    else if r.out.value.problems == [] then Module(EraseModule(r.out.value.tops))
    else Problems(r.out.value.problems)
  }

  /** A whole token stream. The constructor of the parser panics on an empty one. */
  function ParseModule(toks: seq<Token>): Parsed {
    if toks == [] then Panic else Summary(TopDecls(toks, 0))
  }
}
