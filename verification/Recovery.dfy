/** What becomes of the declarations after an error. Recovery consumes the `fun` it stops at. */
module Recovery {
  import opened Tokens
  import opened Grammar
  import opened ParserSpec
  import opened ParserCorrect
  import opened Declarations
  import opened ModuleCorrect

  /** The words a declaration can start with. */
  predicate Starts(toks: seq<Token>, pos: nat) {
    Kind(toks, pos) in {Class, Fun} || (Kind(toks, pos) == Extern && Kind(toks, pos + 1) == Fun)
  }

  /** Where the main loop resumes it reports that nothing is declared exactly when no such word is there. */
  lemma ResumeExact(toks: seq<Token>, pos: nat)
    ensures TopDecl(toks, pos) == Reply(Err(NotADeclaration(pos + 1)), pos + 1) <==> !Starts(toks, pos)
  {
    hide Expression, Members, Params, RetType;
    var k := Kind(toks, pos);
    if k == Fun || k == Class {
      NameFirst(toks, pos + 1, false);
    } else if k == Extern && Kind(toks, pos + 1) == Fun {
      NameFirst(toks, pos + 2, true);
    }
  }

  /** A function or a class that gives up where it starts has missed its name. */
  lemma NameFirst(toks: seq<Token>, pos: nat, ext: bool)
    ensures var r := FunDecl(toks, pos, ext); r.pos == pos && r.out.Err? ==> r.out.problem.Expected?
    ensures var r := ClassDecl(toks, pos); r.pos == pos && r.out.Err? ==> r.out.problem.Expected?
  {
    hide Expression, Members, Params, RetType;
  }

  // ---- the function whose word was swallowed ----

  /** Recovery passes over tokens that hold neither `fun` nor an error. */
  lemma {:induction false} SkipsQuiet(toks: seq<Token>, i: nat, j: nat)
    requires i <= j <= |toks| && Quiet(toks[i..j])
    ensures Synchronize(toks, i) == Synchronize(toks, j)
    decreases j - i
  {
    if i < j {
      assert toks[i..j][0] == toks[i];
      assert toks[i..j][1..] == toks[i + 1..j];
      SkipsQuiet(toks, i + 1, j);
    }
  }

  /**
   A well-formed function whose `fun` was swallowed is lost: its name is reported, its tokens are
   skipped, and recovery goes on after it, where it swallows the next `fun` as well.
   */
  lemma FunctionLost(toks: seq<Token>, pos: nat, j: nat, f: FunTree)
    requires var start := Synchronize(toks, pos); FormedFun(f, false) && Spelled(toks, start, j, YieldFun(f))
    ensures var start := Synchronize(toks, pos);
      var rest := TopDecls(toks, Synchronize(toks, j));
      && pos < start && Kind(toks, start - 1) == Fun
      && TopDecl(toks, start) == Reply(Err(NotADeclaration(start + 1)), start + 1)
      && TopDecls(toks, start)
         == if rest.out.Ok? then
              Done(rest.out.value.(problems := [NotADeclaration(start + 1)] + rest.out.value.problems), rest.pos)
            else rest
  {
    hide TopDecl, TopDecls, Synchronize, YieldFun, FormedFun, Quiet;
    var start := Synchronize(toks, pos);
    FunQuiet(f, false);
    NameHead(f);
    assert toks[start..j][0] == toks[start];
    assert toks[start..j][1..] == toks[start + 1..j];
    QuietTail(YieldFun(f));
    SkipsQuiet(toks, start + 1, j);
    ResumeExact(toks, start);
    ErrorStep(toks, start, NotADeclaration(start + 1), start + 1);
  }

  lemma QuietTail(s: seq<Token>)
    requires Quiet(s) && |s| > 0
    ensures Quiet(s[1..])
  {
  }

  /** A declaration that fails leaves one entry in the list, and recovery goes on. */
  lemma ErrorStep(toks: seq<Token>, pos: nat, problem: Problem, at: nat)
    requires Kind(toks, pos) != Error && TopDecl(toks, pos) == Reply(Err(problem), at)
    ensures var rest := TopDecls(toks, Synchronize(toks, at));
      TopDecls(toks, pos)
      == if rest.out.Ok? then Done(rest.out.value.(problems := [problem] + rest.out.value.problems), rest.pos)
         else rest
  {
    hide TopDecl, Synchronize;
  }

  lemma NameHead(f: FunTree)
    requires FormedFun(f, false)
    ensures |YieldFun(f)| > 0 && YieldFun(f)[0].kind == Identifier
  {
    hide Formed, IsExpression, YieldParams, Yield;
  }

  // ---- a stream ----

  const NAME: Token := Lexeme(Identifier, "f")

  /** `fun ) fun f ( ) { }` */
  const BROKEN: seq<Token> :=
    [Mark(Fun), Mark(RightParen), Mark(Fun), NAME, Mark(LeftParen), Mark(RightParen), Mark(LeftBrace), Mark(RightBrace)]

  /** The one mistake is reported, and so is the well-formed function after it. */
  lemma BrokenReported()
    ensures ParseModule(BROKEN) == Problems([Expected(Identifier, RightParen, 1), NotADeclaration(4)])
  {
    hide TopDecl, TopDecls, Synchronize, Quiet, Kind, BROKEN;
    BrokenKinds();
    BrokenStart();
    BrokenSkips();
    ErrorStep(BROKEN, 0, Expected(Identifier, RightParen, 1), 1);
    BrokenRest();
  }

  lemma BrokenKinds()
    ensures Kind(BROKEN, 0) == Fun && Kind(BROKEN, 2) == Fun
    ensures Kind(BROKEN, 3) == Identifier && Kind(BROKEN, 8) == Error
    ensures Quiet(BROKEN[1..2]) && Quiet(BROKEN[4..8]) && |BROKEN| == 8
  {
    assert BROKEN[1..2] == [Mark(RightParen)];
    assert BROKEN[4..8] == [Mark(LeftParen), Mark(RightParen), Mark(LeftBrace), Mark(RightBrace)];
  }

  lemma BrokenSkips()
    ensures Synchronize(BROKEN, 1) == 3 && Synchronize(BROKEN, 4) == 8
  {
    hide Synchronize, Quiet, Kind, BROKEN;
    BrokenKinds();
    SkipsQuiet(BROKEN, 1, 2);
    SkipsQuiet(BROKEN, 4, 8);
    SyncEnds(BROKEN, 2);
    SyncEnds(BROKEN, 8);
  }

  lemma BrokenRest()
    ensures TopDecls(BROKEN, 3) == Done(Found([], [NotADeclaration(4)]), 8)
  {
    hide TopDecl, TopDecls, Synchronize, Quiet, Kind, BROKEN;
    BrokenKinds();
    BrokenSkips();
    ResumeExact(BROKEN, 3);
    ErrorStep(BROKEN, 3, NotADeclaration(4), 4);
    NothingLeft(BROKEN, 8);
    assert [NotADeclaration(4)] + [] == [NotADeclaration(4)];
  }

  lemma BrokenStart()
    ensures TopDecl(BROKEN, 0) == Reply(Err(Expected(Identifier, RightParen, 1)), 1)
  {
    hide Expression, ClassDecl, Params, RetType;
  }

  lemma SyncEnds(toks: seq<Token>, pos: nat)
    ensures Kind(toks, pos) == Fun ==> Synchronize(toks, pos) == pos + 1
    ensures Kind(toks, pos) == Error ==> Synchronize(toks, pos) == pos
  {
  }

  lemma NothingLeft(toks: seq<Token>, pos: nat)
    requires Kind(toks, pos) == Error
    ensures TopDecls(toks, pos) == Done(Found([], []), pos)
  {
  }

  /** `fun ) fun fun f ( ) { }`: the `fun` that is swallowed is not that of the function, which survives. */
  const DOUBLED: seq<Token> := [Mark(Fun), Mark(RightParen), Mark(Fun)] + BROKEN[2..]

  lemma DoubledResumes()
    ensures Synchronize(DOUBLED, 1) == 3 && Starts(DOUBLED, 3)
    ensures TopDecl(DOUBLED, 3) != Reply(Err(NotADeclaration(4)), 4)
  {
    hide TopDecl, Synchronize;
    assert DOUBLED[2].kind == Fun && DOUBLED[3].kind == Fun;
    assert Quiet(DOUBLED[1..2]);
    SkipsQuiet(DOUBLED, 1, 2);
    SyncEnds(DOUBLED, 2);
    ResumeExact(DOUBLED, 3);
  }
}
