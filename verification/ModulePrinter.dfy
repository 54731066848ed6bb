/** Printing a whole module, and reading it back. */
module ModulePrinter {
  import opened Wrappers
  import opened Tokens
  import opened Grammar
  import opened Declarations
  import opened Printer
  import opened ModuleCorrect
  import A = Ast

  function LayParams(ps: seq<A.Param>): (r: seq<ParamTree>)
    ensures FormedParams(r)
  {
    if ps == [] then []
    else [ParamTree(Lexeme(Identifier, ps[0].name), Lexeme(Identifier, ps[0].typ))] + LayParams(ps[1..])
  }

  function LayFun(f: A.Function): FunTree {
    FunTree(Lexeme(Identifier, f.name), LayParams(f.params),
            if f.retType.Some? then Some(Lexeme(Identifier, f.retType.value)) else None,
            if f.body.Some? then Some(Lay(f.body.value)) else None)
  }

  function LayFields(ms: seq<A.Member>): seq<MemberTree> {
    if ms == [] then [] else [LayField(ms[0])] + LayFields(ms[1..])
  }

  function LayField(m: A.Member): MemberTree {
    Field(m.mutable, Lexeme(Identifier, m.name), Lexeme(Identifier, m.typ))
  }

  function LayMethods(fs: seq<A.Function>): seq<MemberTree> {
    if fs == [] then [] else [Method(LayFun(fs[0]))] + LayMethods(fs[1..])
  }

  function LayStatics(fs: seq<A.Function>): seq<MemberTree> {
    if fs == [] then [] else [MemberTree.Static(LayFun(fs[0]))] + LayStatics(fs[1..])
  }

  /** A class prints its fields, then its methods, then its static functions. */
  function LayClass(c: A.Class): TopTree {
    ClassTop(Lexeme(Identifier, c.name), LayFields(c.members) + LayMethods(c.methods) + LayStatics(c.functions))
  }

  function LayFunctions(fs: seq<A.Function>): seq<TopTree> {
    if fs == [] then []
    else [if fs[0].body.Some? then FunTop(LayFun(fs[0])) else ExternTop(LayFun(fs[0]))] + LayFunctions(fs[1..])
  }

  /** A module prints its classes, then its functions. */
  function LayModule(classes: seq<A.Class>, fs: seq<A.Function>): seq<TopTree> {
    if classes == [] then LayFunctions(fs) else [LayClass(classes[0])] + LayModule(classes[1..], fs)
  }

  /** Only functions outside classes may be external, and every body is printable. */
  predicate PrintableFun(f: A.Function) {
    f.body.Some? ==> Printable(f.body.value)
  }

  predicate PrintableMethods(fs: seq<A.Function>) {
    forall i :: 0 <= i < |fs| ==> fs[i].body.Some? && PrintableFun(fs[i])
  }

  predicate PrintableModule(m: A.Module) {
    && (forall i :: 0 <= i < |m.functions| ==> PrintableFun(m.functions[i]))
    && (forall i :: 0 <= i < |m.classes| ==>
         PrintableMethods(m.classes[i].methods) && PrintableMethods(m.classes[i].functions))
  }

  lemma {:induction false} ParamsBack(ps: seq<A.Param>)
    ensures EraseParams(LayParams(ps)) == ps
  {
    if ps != [] {
      ParamsBack(ps[1..]);
      assert LayParams(ps)[1..] == LayParams(ps[1..]);
    }
  }

  lemma FunBack(f: A.Function)
    requires PrintableFun(f)
    ensures FormedFun(LayFun(f), f.body.None?) && EraseFun(LayFun(f)) == f
  {
    hide Printable, Lay, Formed, Erase, LayParams, EraseParams, FormedParams;
    ParamsBack(f.params);
    if f.body.Some? { LayDerives(f.body.value); }
  }

  lemma ConsMember(name: Token, m: MemberTree, rest: seq<MemberTree>)
    requires FormedMember(m) && FormedMembers(rest)
    ensures FormedMembers([m] + rest)
    ensures var c := EraseClass(name, rest);
      EraseClass(name, [m] + rest)
      == match m
         case Field(mutable, n, t) => c.(members := [A.Member(n.lex, t.lex, mutable)] + c.members)
         case Method(f) => c.(methods := [EraseFun(f)] + c.methods)
         case Static(f) => c.(functions := [EraseFun(f)] + c.functions)
  {
    hide FormedMember, EraseFun;
    assert ([m] + rest)[1..] == rest;
  }

  lemma {:induction false} StaticsBack(name: Token, fs: seq<A.Function>)
    requires PrintableMethods(fs)
    ensures FormedMembers(LayStatics(fs)) && EraseClass(name, LayStatics(fs)) == A.Class(name.lex, [], [], fs)
    decreases fs
  {
    hide LayFun, FormedFun, EraseFun, PrintableFun;
    if fs != [] {
      FunBack(fs[0]);
      StaticsBack(name, fs[1..]);
      assert LayStatics(fs)[1..] == LayStatics(fs[1..]);
    }
  }

  lemma {:induction false} MethodsBack(name: Token, fs: seq<A.Function>, rest: seq<MemberTree>)
    requires PrintableMethods(fs) && FormedMembers(rest)
    ensures FormedMembers(LayMethods(fs) + rest)
    ensures var c := EraseClass(name, rest);
      EraseClass(name, LayMethods(fs) + rest) == c.(methods := fs + c.methods)
    decreases fs
  {
    hide LayFun, FormedFun, EraseFun, PrintableFun, EraseClass, FormedMembers;
    if fs == [] {
      assert LayMethods(fs) + rest == rest;
    } else {
      FunBack(fs[0]);
      MethodsBack(name, fs[1..], rest);
      ConsMember(name, Method(LayFun(fs[0])), LayMethods(fs[1..]) + rest);
      assert LayMethods(fs) + rest == [Method(LayFun(fs[0]))] + (LayMethods(fs[1..]) + rest);
    }
  }

  lemma FieldsUnfold(ms: seq<A.Member>)
    ensures LayFields(ms) == if ms == [] then [] else [LayField(ms[0])] + LayFields(ms[1..])
  {
  }

  lemma {:induction false} FieldsBack(name: Token, ms: seq<A.Member>, rest: seq<MemberTree>)
    requires FormedMembers(rest)
    ensures FormedMembers(LayFields(ms) + rest)
    ensures var c := EraseClass(name, rest);
      EraseClass(name, LayFields(ms) + rest) == c.(members := ms + c.members)
    decreases ms
  {
    hide LayFields, EraseFun, EraseClass, FormedMembers;
    FieldsUnfold(ms);
    if ms == [] {
      assert [] + rest == rest;
    } else {
      FieldsBack(name, ms[1..], rest);
      var first, more := LayField(ms[0]), LayFields(ms[1..]);
      ConsMember(name, first, more + rest);
      assert [first] + more + rest == [first] + (more + rest);
      assert ms == [ms[0]] + ms[1..];
    }
  }

  lemma ClassBack(c: A.Class)
    requires PrintableMethods(c.methods) && PrintableMethods(c.functions)
    ensures FormedTop(LayClass(c))
    ensures EraseClass(LayClass(c).name, LayClass(c).members) == c
  {
    hide LayFields, LayMethods, LayStatics, EraseClass, PrintableMethods, FormedMember;
    var name: Token := Lexeme(Identifier, c.name);
    StaticsBack(name, c.functions);
    MethodsBack(name, c.methods, LayStatics(c.functions));
    FieldsBack(name, c.members, LayMethods(c.methods) + LayStatics(c.functions));
    assert LayFields(c.members) + (LayMethods(c.methods) + LayStatics(c.functions)) == LayClass(c).members;
  }

  lemma {:induction false} FunctionsBack(fs: seq<A.Function>)
    requires forall i :: 0 <= i < |fs| ==> PrintableFun(fs[i])
    ensures FormedTops(LayFunctions(fs)) && EraseModule(LayFunctions(fs)) == A.Module(fs, [])
    decreases fs
  {
    hide LayFun, FormedFun, EraseFun, PrintableFun, EraseClass;
    if fs != [] {
      FunBack(fs[0]);
      FunctionsBack(fs[1..]);
      assert LayFunctions(fs)[1..] == LayFunctions(fs[1..]);
    }
  }

  lemma {:induction false} ModuleBack(classes: seq<A.Class>, fs: seq<A.Function>)
    requires PrintableModule(A.Module(fs, classes))
    ensures FormedTops(LayModule(classes, fs)) && EraseModule(LayModule(classes, fs)) == A.Module(fs, classes)
    decreases classes
  {
    hide LayFields, LayMethods, LayStatics, FormedTop, EraseClass, PrintableFun, PrintableMethods, LayFunctions;
    if classes == [] {
      FunctionsBack(fs);
    } else {
      ClassBack(classes[0]);
      ModuleBack(classes[1..], fs);
      assert LayModule(classes, fs)[1..] == LayModule(classes[1..], fs);
    }
  }

  /** Printing a module and parsing it, whatever follows an error token, gives the module back. */
  lemma ModuleRoundTrip(m: A.Module, after: seq<Token>)
    requires PrintableModule(m) && (after != [] ==> after[0].kind == Error)
    ensures var toks := YieldTops(LayModule(m.classes, m.functions)) + after;
      toks != [] ==> ParseModule(toks) == Module(m)
  {
    hide LayModule, YieldTops, FormedTops, EraseModule, PrintableModule, FirstError, ParseModule;
    var tops := LayModule(m.classes, m.functions);
    var toks := YieldTops(tops) + after;
    ModuleBack(m.classes, m.functions);
    TopsClean(tops);
    assert toks[..|YieldTops(tops)|] == YieldTops(tops);
    FirstErrorUnique(toks, |YieldTops(tops)|);
    assert DerivesModule(toks, tops);
    ParseExact(toks, m);
  }
}
