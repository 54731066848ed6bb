# Verified model of the kernel and of the Yacari language

This project models the parts of the system that are hard to get right and proves what they are for.
Every theorem is for all inputs, all runs or all interleavings. There are five parts.

**Parser** (`Tokens`, `Grammar`, `ParserSpec`, `ParserCorrect`, `Printer`, `Declarations`,
`ModuleCorrect`, `ModulePrinter`, `Recovery`, `Panics`, `Precedence`, `Parser`). `Grammar` defines concrete trees (derivations that keep
parentheses), the tokens each spells and the syntax tree it erases to, and the stratified grammar that
the binding-power table describes. The recursive-descent functions are proved to return a tree exactly
when the grammar derives the tokens with it and the next token cannot carry it further. From this follow
unambiguity, a print/parse round trip with an exact side condition, the exact set of trees that have a
concrete syntax, the minimality of the printed parentheses and the exactness of `parse` for whole modules,
with what becomes of declarations after an error and, for streams that parse once their numbers can be
read, the exact cause of a panic.
`Precedence` says the same about operators without binding powers: the parser splits every chain of operands
at the leftmost of its weakest operators.
The class `Parser` is the parser as it runs, proved against those functions.

**Compiler** (`Values`, `Ast`, `AstSemantics`, `TypeSafety`, `Ir`, `Storage`, `ExprCompiler`, `References`,
`Resolution`, `Clif`, `Operators`, `Programs`, `Sources`,
`LoopPlacement`, `Translator`, `TranslatorShape`, `TranslatorArity`, `Sealing`, `Lowering`,
`CompilerCorrect`). The syntax
tree has a semantics over a stack of scopes (the compiler's own scopes hold references into the vector of
slots, which moves as it grows), the intermediate tree one over a flat store of slots, and
the block graph a step semantics. Both passes are proved to preserve meaning, including traps and
divergence, and the block builder is proved to be used properly. Running out of meaning is preserved as
well: the graph gets stuck exactly when the tree goes wrong. Evaluators take loop fuel; the
statements quantify over all fuel, so termination is preserved in both directions. `Operators` fixes what
every operator and every instruction computes in plain integers; `Programs` and `Sources` take the
repository's own test programs, leave their numbers open, and follow them from their tokens through the
parser and both passes to the value that the machine returns.

**Disk** (`Bytes`, `FlatFile`, `AtaDevice`, `AtaDrive`). The device is a state machine with registers, a
busy countdown that is arbitrary at every point, and the PIO data-in and data-out phases of clauses 8 and
9 of ATA/ATAPI-6 (INCITS 361-2002). It records every register or command write that comes while it is
busy or transferring, and whether the sectors it stored have been flushed. The driver on top of it is proved to be a plain byte sequence with a
cursor over every run of operations.

**Executor and keyboard** (`Executor`, `ExecutorRuns`, `ExecutorHistory`, `ExecutorLoop`). A state machine of atomic steps in
which the keyboard interrupt may run between any two steps of the main thread, its invariant, and what
follows for whole runs: which key presses are accepted, in what order tasks are looked at, and by when every
accepted scancode is delivered. `ExecutorLoop` is the imperative code with arbitrary interrupts at every point,
proved to follow the state machine.

**Allocators** (`Words`, `Memory`, `FixedSizeBlock`, `FixedSizeBlockRuns`, `Alignment`, `Bump`, `Frames`, `Paging`).
The fixed-size-block allocator keeps its free lists in the bytes of the freed blocks; the bump allocator
aligns with a bit mask; physical frames back both pages and the page tables on the way to them, and mapping
a heap succeeds exactly when there are enough of them and nothing is in the way.

## What the proofs brought to light

- A `while` is of type `Void`, but its translation yields a dummy value. Where it ends both arms of a
  conditional the jumps do not fit the continuation, and where it ends the body of a function the return
  does not fit the signature. `CompilerDiscipline` says exactly when everything fits, in terms of the
  source (`LoopsPlaced`), and `LoopsRejected` gives a program for either failure; the second is as plain
  as `fun main() { while (false) {} }`.
- The scopes of the expression compiler hold references into the vector of slots, and declaring a slot may
  move that vector: it has room for six in place, and from then on for the next power of two. A name used
  after the vector has moved since its declaration is read through a stale reference, on which the source
  has no defined behaviour. `ReferencesExact` says exactly when this happens, counted in declarations of
  the source (`ReferencesHold`); it never does with at most six declarations (`FewHold`), and seven of them
  followed by a use of the first already fail (`ManyVariables`, `SevenVariables`).
- The type checks of the expression compiler report through `err`, which records nothing, and its rule for
  comparisons (`allow_logic`) would refuse integers and accept truth values, for which the translator then
  emits a floating-point comparison. Well-typedness is therefore the hypothesis `Check`,
  the typing discipline that the generated code relies on, and not a result of the compiler. Assignments to
  `val` names are accepted, as the compiler accepts them.
- With the wrapping arithmetic of a release build `align_up` returns zero when `addr + align - 1` does not
  fit in 64 bits. The bump allocator then hands
  out address zero and moves its cursor out of the heap. `AllocExact` says exactly when allocation keeps the
  invariant, `WrapExample` gives such a request, and `LowHeapFits` shows that a heap in the lower half of
  the address space, like the kernel's, never meets it.
- `min_required_sector_count` is right exactly up to 255 sectors (`SectorCountExact`). An empty buffer at an
  odd position makes `read` index past it (`ReadExact`). It makes `write` index past it too, and at a
  sector-aligned position `write` unwraps a last sector that was not saved (`EmptyWriteFails`). These are
  the only failures: `ReadExact` and `WriteExact` are if-and-only-if.
- `write` sends FLUSH CACHE without waiting for the drive. It stays within the protocol exactly when the
  drive happens not to be busy after the last sector, and exactly then its sectors are flushed; every other
  access of the driver is allowed.
- All infix operators group to the right, `-` and `/` included: `a - b - c` is `a - (b - c)`
  (`ThreeOperands`), and sums and comparisons are of one class.
- Some syntax trees have no concrete syntax: a block element that ends in an operand cannot be followed by
  one that starts with `(` or `-`, and parentheses do not help. `Expressible` is the exact statement.
- `synchronize` consumes the `fun` it stops at. A well-formed function whose `fun` is consumed that way is
  lost: its name is reported as another error and recovery goes on behind it (`FunctionLost`,
  `BrokenReported`). Only where another declaration word follows that `fun` at once does the main loop
  find a declaration there (`ResumeExact`, `DoubledResumes`).
- Parsing an empty token stream panics, because the constructor unwraps the first token.

## Model

| member | source | states |
|---|---|---|
| `ParserSpec.Expression` | lang/src/parser/mod.rs:163-170 | a reply never moves back, success moves on within the stream, and a panic points at a number that cannot be read; termination by tokens left and grammar level |
| `ParserSpec.BinaryLoop` | lang/src/parser/mod.rs:217-234 | the same for the operator loop |
| `ParserCorrect.ExpressionSound` | lang/src/parser/mod.rs:163-318 | every tree returned is a derivation of the consumed tokens, and the next token cannot extend it |
| `ParserCorrect.ExpressionComplete` | lang/src/parser/mod.rs:163-318 | every derivation that the next token cannot extend is returned, with its own tree and end |
| `ParserCorrect.ExpressionExact` | lang/src/parser/mod.rs:163-170 | success with a tree and an end if and only if the grammar derives that range with that tree and the next token cannot extend it |
| `ParserCorrect.BinaryExact` | lang/src/parser/mod.rs:214-235 | `binary(min)` accepts exactly the phrases of level `min` and above and stops at the first token that cannot extend them |
| `ParserCorrect.BinaryLoopSound` | lang/src/parser/mod.rs:214-235 | the loop keeps a left operand strictly above the level of every operator it takes |
| `ParserCorrect.LevelRuns` | lang/src/parser/mod.rs:214-235 | up to the end of a phrase the loop has built exactly that phrase |
| `ParserCorrect.FollowerWeaker` | lang/src/lexer.rs:167-179 | an operator that stops a right operand binds less tightly than the operator before it |
| `ParserCorrect.CallLoopSound` | lang/src/parser/mod.rs:250-276 | calls group to the left and stop at the first token that is not `(` |
| `ParserCorrect.ItemsSound` | lang/src/parser/mod.rs:172-183 | block elements derive, and no element could have taken the first token of the next |
| `ParserCorrect.ItemsComplete` | lang/src/parser/mod.rs:172-183 | every such list of elements is found |
| `ParserCorrect.IfSound` | lang/src/parser/mod.rs:185-200 | an `else` belongs to the nearest `if` that can take it |
| `ParserCorrect.Unambiguous` | lang/src/parser/mod.rs:163-318 | a token sequence has at most one derivation as an expression |
| `Grammar.PowersStep` | lang/src/lexer.rs:167-179 | left powers are even and at most 20, right powers one less, so every level groups to the right; the order of the operators is `Precedence.PowersExact` |
| `Precedence.PowersExact` | lang/src/lexer.rs:167-179 | the infix operators are `=`, `or`, `and`, equality, comparison with sums, products and `is`, in classes of strictly rising strength in that order, and no other token is one |
| `Precedence.PrefixStrongest` | lang/src/lexer.rs:181-186 | `-` and `!` are the prefix operators, and they bind more tightly than every infix operator |
| `Precedence.ChainParses` | lang/src/parser/mod.rs:214-248 | for every chain of operands (atoms, parentheses, calls, prefix operators) the parser returns the tree that is split at the leftmost weakest operator, on both sides again |
| `Precedence.TreeIsGroup` | lang/src/parser/mod.rs:214-235 | every derivation of an operator expression is that tree for its own operands and operators |
| `Precedence.ThreeOperands` | lang/src/parser/mod.rs:214-235 | `a op1 b op2 c` groups to the left if and only if `op1` is of a strictly stronger class than `op2` |
| `Grammar.HeadClass` | lang/src/parser/mod.rs:141-170 | the first token tells declarations, blocks, conditionals, loops and operands apart |
| `Grammar.YieldQuiet` | lang/src/parser/mod.rs:278-318 | no derivation of an expression spells an error token, a `fun` or a number that cannot be read |
| `Printer.LayDerives` | lang/src/parser/mod.rs:163-318 | the printed form is a derivation of the tree |
| `Printer.DecimalValue` | lang/src/parser/mod.rs:292-297 | decimal notation is read back as the number |
| `Printer.RoundTrip` | lang/src/parser/mod.rs:163-318 | parsing a print returns the tree and leaves the rest, if and only if the next token does not extend it |
| `Printer.RoundTripPlain` | lang/src/parser/mod.rs:163-318 | in particular before any token that is no infix operator, no `(` and no `else` |
| `Printer.Expressible` | lang/src/parser/mod.rs:163-318 | the trees the parser can return are exactly the printable ones |
| `Printer.Shortest` | lang/src/parser/mod.rs:309-314 | no derivation of a tree is shorter than its print: parentheses stand only where they must |
| `Declarations.TopDecls` | lang/src/parser/mod.rs:24-48 | the main loop ends on every stream, never moves back, and turns errors of declarations into entries of the list |
| `Declarations.Synchronize` | lang/src/parser/mod.rs:374-381 | recovery stops right after the first `fun`, or at an error token before any |
| `ModuleCorrect.FunSound` | lang/src/parser/mod.rs:103-138 | a parsed function derives its tokens, and has a body unless it is external |
| `ModuleCorrect.FunComplete` | lang/src/parser/mod.rs:103-138 | every function before a word that starts a declaration is found |
| `ModuleCorrect.MembersSound` | lang/src/parser/mod.rs:70-94 | the members of a class derive up to its closing brace |
| `ModuleCorrect.MembersComplete` | lang/src/parser/mod.rs:70-94 | every list of members is found |
| `ModuleCorrect.FirstError` | lang/src/parser/mod.rs:348-372 | the tokens before the first error token, or all of them |
| `ModuleCorrect.TopsExact` | lang/src/parser/mod.rs:28-38 | the main loop ends without errors exactly when the tokens before the first error token derive, and stops right there |
| `ModuleCorrect.ParseExact` | lang/src/parser/mod.rs:24-48 | `parse` returns a module if and only if the tokens before the first error token derive it |
| `ModuleCorrect.TailIgnored` | lang/src/parser/mod.rs:24-48 | nothing from the first error token on has a say in a successful parse |
| `Recovery.ResumeExact` | lang/src/parser/mod.rs:28-37 | where the main loop stands it reports that nothing is declared if and only if no declaration word is there |
| `Recovery.FunctionLost` | lang/src/parser/mod.rs:374-381 | a well-formed function whose `fun` recovery has consumed yields one error and nothing else, and recovery goes on behind it |
| `Recovery.BrokenReported` | lang/src/parser/mod.rs:28-37 | the errors of one stream with a mistake before a well-formed function |
| `Recovery.DoubledResumes` | lang/src/parser/mod.rs:374-381 | a stream in which the consumed `fun` is followed by another, so that a declaration is found |
| `ModuleCorrect.PanicCause` | lang/src/parser/mod.rs:292-303 | a panic means an empty stream or a number `from_str` refuses |
| `Panics.TopsSame` | lang/src/parser/mod.rs:24-48 | replacing the refused numbers by zeros changes nothing about the parse but its panics |
| `Panics.PanicExact` | lang/src/parser/mod.rs:292-303 | a stream that parses with its refused numbers replaced panics if and only if there is such a number before the first error token |
| `Panics.MendedParses` | lang/src/parser/mod.rs:292-303 | without refused numbers there is no panic |
| `ModulePrinter.ModuleRoundTrip` | lang/src/parser/mod.rs:24-138 | printing a module and parsing it gives the module back, whatever follows an error token |
| `Parser.Parser.Advance` | lang/src/parser/mod.rs:348-355 | returns the current token and moves on; past the end there are error tokens |
| `Parser.Parser.Consume` | lang/src/parser/mod.rs:334-346 | moves on over the expected kind, or reports what was found without moving |
| `Parser.Parser.Expression` | lang/src/parser/mod.rs:163-170 | computes the specified reply, erased to syntax |
| `Parser.Parser.VarDecl` | lang/src/parser/mod.rs:148-161 | likewise for declarations |
| `Parser.Parser.Block` | lang/src/parser/mod.rs:172-183 | the element loop computes the specified block |
| `Parser.Parser.IfExpr` | lang/src/parser/mod.rs:185-200 | likewise for conditionals |
| `Parser.Parser.WhileStmt` | lang/src/parser/mod.rs:202-212 | likewise for loops |
| `Parser.Parser.Binary` | lang/src/parser/mod.rs:214-235 | the loop that replaces `expr` computes the specified tree |
| `Parser.Parser.Unary` | lang/src/parser/mod.rs:237-248 | likewise for prefix operators |
| `Parser.Parser.Call` | lang/src/parser/mod.rs:250-276 | likewise for the call loop |
| `Parser.Parser.Primary` | lang/src/parser/mod.rs:278-318 | likewise for atoms and parentheses, with the panics on numbers |
| `Parser.Parser.Function` | lang/src/parser/mod.rs:103-138 | likewise for functions |
| `Parser.Parser.Class` | lang/src/parser/mod.rs:70-94 | the member loop sorts the members into three lists in order |
| `Parser.Parser.Synchronize` | lang/src/parser/mod.rs:374-381 | ends where the specification says |
| `Parser.Parser.MakeFn` | lang/src/parser/mod.rs:60-68 | a function is pushed, or its error recorded and the rest skipped |
| `Parser.Parser.MakeCls` | lang/src/parser/mod.rs:50-58 | likewise for classes |
| `Parser.Parser.Parse` | lang/src/parser/mod.rs:24-48 | the main loop returns the specified module, errors or panic |
| `Parser.ParseTokens` | lang/src/parser/mod.rs:383-391 | a new parser on a stream, and its panic on an empty one |
| `TypeSafety.ExprSafe` | lang/src/compiler/module/expr_compiler.rs:24-126 | a well-typed source expression never goes wrong, keeps every scope and yields a value of its type |
| `ExprCompiler.Compiler.BeginScope` | lang/src/compiler/module/expr_compiler.rs:213-215 | pushes an empty scope |
| `ExprCompiler.Compiler.EndScope` | lang/src/compiler/module/expr_compiler.rs:217-219 | drops the innermost scope |
| `ExprCompiler.Compiler.FindLocal` | lang/src/compiler/module/expr_compiler.rs:184-191 | finds the reference in the innermost binding of a name |
| `ExprCompiler.Compiler.ReadSlot` | lang/src/compiler/ir/mod.rs:239-244 | reads the slot through a reference, or anything at all once the vector has moved |
| `Storage.CapacityLeast` | lang/src/compiler/ir/mod.rs:68 | past six slots the room is the least power of two that holds them |
| `Storage.UnmovedExact` | lang/src/compiler/ir/mod.rs:88-97 | a slot stays where it was declared if and only if there are at most six slots, or it is past the sixth and its storage is not yet full |
| `ExprCompiler.Compiler.AddLocal` | lang/src/compiler/ir/mod.rs:75-97 | appends a slot whose index is its position, moves the vector exactly when it is full, and returns a good reference |
| `ExprCompiler.Compiler.AddToScope` | lang/src/compiler/module/expr_compiler.rs:206-211 | binds the name in the innermost scope |
| `ExprCompiler.Compiler.CompileExpr` | lang/src/compiler/module/expr_compiler.rs:24-126 | reads a stale reference exactly where the specification says so, and otherwise computes the specified tree, scopes and slots |
| `References.ReferencesExact` | lang/src/compiler/ir/mod.rs:88-97 | for every well-typed body, compilation reads no stale reference if and only if no name is used after the vector has moved since its declaration, counted in declarations of the source |
| `References.FewHold` | lang/src/compiler/ir/mod.rs:68 | a body with at most six declarations is compiled without a stale read |
| `References.UseFirstExact` | lang/src/compiler/ir/mod.rs:88-97 | a use of the first of `k` declarations is good if and only if `k` is at most six |
| `Resolution.CompileTyped` | lang/src/compiler/module/expr_compiler.rs:24-126 | without a stale read a checked expression compiles to a well-typed tree of the same type and leaves the scopes as they were |
| `Resolution.DeclareConsistent` | lang/src/compiler/ir/mod.rs:75-86 | a declaration takes a slot that no visible name uses |
| `Resolution.ResolvesAlike` | lang/src/compiler/module/expr_compiler.rs:184-191 | a name resolves to the same level at compile time and at run time, and the slot its reference was made for holds its value |
| `Resolution.CompilePreserves` | lang/src/compiler/module/expr_compiler.rs:24-126 | without a stale read the compiled tree over slots evaluates like the source over scopes, for every fuel, with shadowing, redeclaration and re-entered loop bodies |
| `Resolution.BodyPreserved` | lang/src/compiler/module/expr_compiler.rs:24-126 | the same for a whole body whose references hold; in particular every slot is assigned before it is read |
| `Resolution.CompileNumbered` | lang/src/compiler/ir/mod.rs:75-86 | slots are numbered by declaration order |
| `Translator.FnTranslator.DeclareVariables` | lang/src/vm/function/mod.rs:42-68 | the offset table is that of the slots |
| `Translator.FnTranslator.TransExpr` | lang/src/vm/function/exprs.rs:19-53 | emits the specified blocks and values |
| `Translator.FnTranslator.IfExpr` | lang/src/vm/function/exprs.rs:118-140 | likewise for conditionals, with and without phi |
| `Translator.FnTranslator.WhileExpr` | lang/src/vm/function/exprs.rs:142-159 | likewise for loops |
| `Translator.FnTranslator.BuildFunction` | lang/src/vm/function/mod.rs:28-40 | builds the whole graph from the entry block |
| `TranslatorShape.TransFrame` | lang/src/vm/function/exprs.rs:19-177 | translation appends to the current block and to blocks it creates, and changes nothing else |
| `TranslatorArity.CountAgrees` | lang/src/vm/typesys.rs:16-40 | translation yields as many values as the type counts, if and only if value position is not a loop |
| `TranslatorArity.TransCount` | lang/src/vm/function/exprs.rs:19-53 | the number of values translation yields |
| `TranslatorArity.TransArities` | lang/src/vm/function/exprs.rs:64-78 | from any builder, every emitted branch passes as many arguments as its target has parameters, if and only if no phi arm ends in a loop |
| `TranslatorArity.BuildArities` | lang/src/vm/mod.rs:123-128 | in a whole function the branches and the return pass what their targets and the signature expect, for any return type, if and only if no phi arm ends in a loop and the body yields as many values as the return type counts |
| `TranslatorArity.BodyArities` | lang/src/vm/function/mod.rs:28-33 | for a body of the return type: if and only if no phi arm and not the body itself ends in a loop |
| `LoopPlacement.BodyAlike` | lang/src/compiler/module/expr_compiler.rs:24-126 | where references hold, the condition on loops in the source body is the condition on its compiled tree |
| `Sealing.TransTidy` | lang/src/vm/function/exprs.rs:118-159 | no branch to a sealed block, no emission after the end of a block, and every block left behind is sealed and ended |
| `Sealing.BuildFinished` | lang/src/vm/function/mod.rs:28-40 | at the end every block is sealed and ended exactly once |
| `Lowering.OffsetsDisjoint` | lang/src/vm/function/mod.rs:59-68 | slots of any types never overlap |
| `Lowering.OpcodeMeans` | lang/src/vm/function/exprs.rs:80-91 | each operator's instruction computes on the machine what the operator means in the source; what that is in integers is `Operators.EmittedMeans` |
| `Operators.WrapExact` | lang/src/vm/function/exprs.rs:86-89 | a wrapped result agrees with the integer in its low 64 bits, and is the integer itself where that fits |
| `Operators.ApplyMeans` | lang/src/vm/function/exprs.rs:80-91 | in the source `+`, `-` and `*` agree with the integer result modulo 2^64, `/` is the unsigned quotient with a smaller remainder or a trap on zero, and comparisons compare the signed numbers |
| `Operators.ExecuteMeans` | lang/src/vm/function/exprs.rs:202-211 | so do the instructions, each by its own name |
| `Operators.EmittedMeans` | lang/src/vm/function/exprs.rs:80-91 | the instruction emitted for an operator computes what is promised of the operator, for all operands |
| `Operators.PromisedOnce` | lang/src/vm/function/exprs.rs:80-91 | what is promised of an operator leaves one answer |
| `Clif.BranchExact` | lang/src/vm/function/exprs.rs:118-140 | `brz` jumps exactly when its condition is zero |
| `Lowering.TransDoes` | lang/src/vm/function/exprs.rs:19-177 | running the emitted code from the current block reaches the end block with the store and value of the evaluation, traps with it, gets stuck when it goes wrong, or takes at least as many steps as it has fuel |
| `CompilerCorrect.LoweringCorrect` | lang/src/vm/function/exprs.rs:19-177 | for every well-typed tree whose phi arms do not end in a loop: tree and graph yield the same value, trap together and diverge together, the graph gets stuck exactly when the tree goes wrong, and it returns as many values as the tree yields |
| `CompilerCorrect.CompilerCorrect` | lang/src/compiler/module/expr_compiler.rs:24-126 | for every well-typed body with its loops well placed and its references holding, source and graph yield the same value, trap together and diverge together, the graph never gets stuck, and it returns what the signature says |
| `CompilerCorrect.CompilerDiscipline` | lang/src/vm/function/mod.rs:28-40 | for every well-typed body whose references hold the builder is used properly, and the arguments of branches and return fit if and only if the loops of the source are well placed |
| `CompilerCorrect.LoopsRejected` | lang/src/vm/function/exprs.rs:142-159 | two well-typed bodies that fail: one in a branch, one in its return |
| `CompilerCorrect.CompileFunction` | lang/src/vm/function/mod.rs:28-33 | the first pass reads a stale reference if and only if the references of the body do not hold; otherwise both passes give a finished graph, with the arities and the behaviour of the theorems |
| `CompilerCorrect.ManyVariables` | lang/src/compiler/ir/mod.rs:75-97 | well-typed bodies without loops, one for each number of declarations, that are compiled without a stale read if and only if there are at most six |
| `CompilerCorrect.SevenVariables` | lang/src/compiler/ir/mod.rs:75-97 | the first of them that fails |
| `Programs.OperatorReturns` | lang/src/lib.rs:115-140 | the compiled `{ l op r }` returns what is promised of `op` and nothing else, for all numbers and all operators |
| `Programs.DivisionTraps` | lang/src/vm/function/exprs.rs:89 | the compiled `{ l / 0 }` traps and never returns |
| `Programs.ConditionalReturns` | lang/src/lib.rs:147-151 | the compiled conditional returns the arm that its condition picks |
| `Programs.AssignmentReturns` | lang/src/lib.rs:165-169 | the compiled code returns the value last assigned |
| `Programs.ShadowReturns` | lang/src/compiler/module/expr_compiler.rs:213-219 | an inner declaration of the same name leaves the outer variable alone |
| `Programs.InnerAssignmentReturns` | lang/src/compiler/module/expr_compiler.rs:184-191 | an assignment in an inner block reaches the outer variable |
| `Programs.LoopReturns` | lang/src/lib.rs:153-157 | the compiled loop that counts from `n` up to `m` returns the larger of the two, for all `n` and `m` |
| `Sources.OperatorAnswers` | lang/src/lib.rs:115-140 | from the tokens of `{ l op r }` on: they parse to the end, and the compiled tree returns what is promised of `op` |
| `Sources.ConditionalAnswers` | lang/src/lib.rs:147-151 | from the tokens of `{ if (c) n else m }` on: the answer is the arm that `c` picks |
| `Sources.LoopAnswers` | lang/src/lib.rs:153-157 | from the tokens of `{ var a = n while (a < m) { a = a + 1 } a }` on: the answer is the larger of `n` and `m` |
| `FlatFile.WriteSeekRead` | kernel/src/drivers/disk/ata_pio.rs:200-295 | on the flat file, writing, seeking back and reading returns what was written and changes nothing else |
| `FlatFile.SeekExact` | kernel/src/drivers/disk/ata_pio.rs:275-294 | a seek leads to the byte asked for or as many bytes on or back as asked for, fails exactly before the start and from the end, and changes no byte |
| `AtaDrive.AtaDrive.WriteAndReadBack` | kernel/src/drivers/disk/ata_pio.rs:200-295 | the same on the drive |
| `AtaDrive.SectorCountExact` | kernel/src/drivers/disk/ata_pio.rs:153-161 | the computed count is the number of sectors touched if and only if that is at most 255 |
| `AtaDrive.LbaRecombines` | kernel/src/drivers/disk/ata_pio.rs:54-62 | the four register values recombine to the sector number and select the drive |
| `AtaDrive.WordIsRight` | kernel/src/drivers/disk/ata_pio.rs:246-259 | every word written is the old sector's bytes outside the buffer and the buffer's bytes inside, and the saved sectors are there whenever they are unwrapped |
| `AtaDrive.WriteExact` | kernel/src/drivers/disk/ata_pio.rs:246-259 | the write loop indexes its buffer and unwraps its saved sectors without a panic if and only if the buffer is not empty, or the position is even and inside a sector |
| `AtaDrive.EmptyWriteFails` | kernel/src/drivers/disk/ata_pio.rs:251-258 | the word at which any other write panics, and why |
| `AtaDrive.ReadExact` | kernel/src/drivers/disk/ata_pio.rs:210-226 | the read loop indexes its buffer without a panic if and only if the buffer is not empty or the position is even |
| `AtaDrive.EndSectorNeeded` | kernel/src/drivers/disk/ata_pio.rs:70-86 | a word at or past the end of the buffer lies in the saved last sector |
| `AtaDrive.SplicedContents` | kernel/src/drivers/disk/ata_pio.rs:236-267 | the rewritten sectors are the old bytes with the buffer spliced in |
| `AtaDrive.AtaDrive.WaitStatus` | kernel/src/drivers/disk/ata_pio.rs:109-112 | the wait ends and the drive is then not busy |
| `AtaDevice.Device.WriteCommand` | kernel/src/drivers/disk/ata_pio.rs:120-122 | 0x20 starts a transfer to the host, 0x30 one from it and 0xE7 flushes, when the drive accepts them; a command is a breach of the protocol when it comes too early |
| `AtaDrive.AtaDrive.BeforeReadWrite` | kernel/src/drivers/disk/ata_pio.rs:54-62 | the registers name the sector of the position and the count, written when the drive accepts them |
| `AtaDrive.AtaDrive.ReadSector` | kernel/src/drivers/disk/ata_pio.rs:89-100 | returns the sector that holds the position |
| `AtaDrive.AtaDrive.GetPartialWriteSectors` | kernel/src/drivers/disk/ata_pio.rs:70-86 | saves the sectors a write covers only in part |
| `AtaDrive.AtaDrive.Read` | kernel/src/drivers/disk/ata_pio.rs:201-232 | fills the buffer with exactly the bytes at the position and moves past them, within the protocol |
| `AtaDrive.AtaDrive.Write` | kernel/src/drivers/disk/ata_pio.rs:236-267 | leaves the disk as the old bytes with the buffer spliced in at the position; the protocol is kept, and the sectors are flushed, if and only if the drive is not busy after the last sector |
| `AtaDrive.AtaDrive.Seek` | kernel/src/drivers/disk/ata_pio.rs:275-294 | sets the position to the byte asked for, or moves it on or back by the distance asked for, and fails exactly before the start and from the end |
| `AtaDrive.AtaDrive.Perform` | kernel/src/drivers/disk/ata_pio.rs:200-295 | each operation is the flat file's |
| `AtaDrive.AtaDrive.PerformAll` | kernel/src/drivers/disk/ata_pio.rs:200-295 | every run of operations gives the flat file's results, cursor and contents |
| `Executor.KeyKeeps` | kernel/src/drivers/keyboard.rs:29-39 | the interrupt keeps the invariant at every point where it can run; which presses it accepts is `ExecutorHistory.KeyExact` |
| `Executor.MainKeeps` | kernel/src/scheduling/executor.rs:32-67 | so does every step of the main thread |
| `Executor.ReachableInv` | kernel/src/scheduling/executor.rs:16-67 | every state under every interleaving satisfies the invariant |
| `ExecutorRuns.NoWakeupLost` | kernel/src/drivers/keyboard.rs:57-75 | a parked keyboard task is queued or just dequeued, or is registered with an empty scancode queue |
| `ExecutorRuns.HaltIsSafe` | kernel/src/scheduling/executor.rs:60-67 | the processor halts only with no scancode waiting, nothing ready and the keyboard task registered |
| `ExecutorRuns.DeliveredInOrder` | kernel/src/drivers/keyboard.rs:29-75 | received scancodes followed by those in flight and in the queue are the accepted ones in order |
| `ExecutorRuns.WakersAndWoken` | kernel/src/scheduling/executor.rs:40-57 | cached wakers belong to existing tasks, and a task woken since its last poll began is queued or just dequeued |
| `ExecutorRuns.FinishedNeverPolled` | kernel/src/scheduling/executor.rs:40-57 | a finished task is never polled again, whatever ids are still queued |
| `ExecutorRuns.MainProgress` | kernel/src/scheduling/executor.rs:32-67 | while a scancode waits, every step of the main thread delivers one or comes closer |
| `ExecutorRuns.EverythingDelivered` | kernel/src/scheduling/executor.rs:25-67 | after a bounded number of steps of the main thread everything accepted before has been received |
| `ExecutorHistory.KeyExact` | kernel/src/drivers/keyboard.rs:29-39 | a press is accepted if and only if the handler runs, the stream exists and fewer than 100 scancodes wait; it is then the newest scancode, and a registered task is queued; otherwise nothing changes but that a halt ends |
| `ExecutorHistory.PressesAccepted` | kernel/src/drivers/keyboard.rs:29-39 | over every run the accepted scancodes are exactly the presses that found room, in order, and handled presses are accepted ones plus those that met no stream or a full queue |
| `ExecutorHistory.PressesDelivered` | kernel/src/drivers/keyboard.rs:14-39 | every press that found room is delivered, in order, within a bounded number of steps of the main thread, under every interleaving |
| `ExecutorHistory.QueueInOrder` | kernel/src/scheduling/executor.rs:32-58 | over every run the ids put on the ready queue are those taken off it followed by those still on it: none lost, first come first looked at |
| `ExecutorHistory.DequeuedPolled` | kernel/src/scheduling/executor.rs:40-49 | a dequeued id is polled if and only if its task still exists |
| `ExecutorHistory.PollExact` | kernel/src/scheduling/executor.rs:49-56 | a finished task leaves the task table and the waker cache and is counted as finished, a pending one stays, and what the poll woke is queued or panics on a full queue |
| `ExecutorHistory.SpawnExact` | kernel/src/scheduling/executor.rs:17-23 | a spawned task has a new id and is queued, or panics if 100 wait |
| `ExecutorHistory.IdleHalts` | kernel/src/scheduling/executor.rs:60-67 | with nothing ready and no interrupt the processor halts within three steps, and any interrupt ends the halt |
| `ExecutorHistory.PollDrains` | kernel/src/drivers/keyboard.rs:14-75 | without interrupts a poll of the keyboard task takes every waiting scancode in order and stays behind registered |
| `ExecutorHistory.SecondLookTakes` | kernel/src/drivers/keyboard.rs:67-73 | a scancode found by the second look is delivered and the registration undone |
| `ExecutorLoop.Kernel.AddScancode` | kernel/src/drivers/keyboard.rs:29-39 | the handler is one interrupt step of the state machine; on its own fields, it queues the scancode and wakes if and only if the stream exists and fewer than 100 wait |
| `ExecutorLoop.Kernel.WakeTask` | kernel/src/scheduling/waker.rs:12-14 | pushes the id, or finds the queue full |
| `ExecutorLoop.Kernel.Spawn` | kernel/src/scheduling/executor.rs:17-23 | a task gets a new id and is queued |
| `ExecutorLoop.Kernel.PollNext` | kernel/src/drivers/keyboard.rs:57-75 | look, register, look again follows the state machine with interrupts at every point, and a ready code is the next one delivered |
| `ExecutorLoop.Kernel.PollKeyboard` | kernel/src/drivers/keyboard.rs:14-26 | the keyboard task ends its poll pending |
| `ExecutorLoop.Kernel.RunReadyTasks` | kernel/src/scheduling/executor.rs:32-58 | the loop over the ready queue follows the state machine, at least two steps a turn |
| `ExecutorLoop.Kernel.SleepIfIdle` | kernel/src/scheduling/executor.rs:60-67 | the guarded halt follows the state machine |
| `ExecutorLoop.Kernel.WaitForInterrupt` | kernel/src/scheduling/executor.rs:62-64 | at the halt nothing was waiting and the keyboard task was registered |
| `ExecutorLoop.Kernel.RunExecutor` | kernel/src/scheduling/executor.rs:25-30 | after any number of rounds no wakeup is lost and every accepted scancode is received or queued, in order; every round makes a step |
| `FixedSizeBlock.ListIndex` | kernel/src/allocator/fixed_size_block.rs:15-18 | the smallest block that has the size and the alignment, or none |
| `FixedSizeBlock.BlockTight` | kernel/src/allocator/fixed_size_block.rs:7-18 | a block is the smallest there is or less than twice what was asked for |
| `FixedSizeBlockRuns.WriteKeeps` | kernel/src/allocator/fixed_size_block.rs:20-22 | a client writing its own block changes no list and moves no block |
| `FixedSizeBlockRuns.AllocKeeps` | kernel/src/allocator/fixed_size_block.rs:64-85 | allocation keeps blocks apart and lists intact |
| `FixedSizeBlockRuns.DeallocKeeps` | kernel/src/allocator/fixed_size_block.rs:87-106 | so does deallocation |
| `FixedSizeBlockRuns.AllocServes` | kernel/src/allocator/fixed_size_block.rs:64-85 | every answer but null is a block that is aligned, in the heap, apart from every other block, and was free or fresh; when the answer is null is `FixedSizeBlockRuns.AllocExact` |
| `FixedSizeBlockRuns.AllocExact` | kernel/src/allocator/fixed_size_block.rs:64-85 | the answer is null if and only if there is no block in the list of the class (or no class) and the fallback heap has no room; a list with a block answers with its first and loses it, otherwise the answer is the fallback's region, one more that its class has taken |
| `FixedSizeBlockRuns.FallbackUnused` | kernel/src/allocator/fixed_size_block.rs:68-72 | with a block in the list the fallback heap has no say in the result |
| `FixedSizeBlockRuns.DeallocExact` | kernel/src/allocator/fixed_size_block.rs:87-106 | a returned block becomes the first of its list and links to the old first one in memory; a large one is nobody's any more |
| `FixedSizeBlockRuns.ReusesLatest` | kernel/src/allocator/fixed_size_block.rs:64-106 | giving a block back and asking for its class again answers with the same block and restores the lists and counts |
| `FixedSizeBlockRuns.RunsKeep` | kernel/src/allocator/fixed_size_block.rs:63-107 | in every state of every run blocks are pairwise disjoint and in the heap, and each list in memory is acyclic and holds exactly the free blocks of its class |
| `FixedSizeBlockRuns.CountsExact` | kernel/src/allocator/fixed_size_block.rs:64-100 | blocks ever taken are live plus free: none lost, none duplicated |
| `FixedSizeBlockRuns.HighWater` | kernel/src/allocator/fixed_size_block.rs:64-100 | blocks ever taken are the maximum number live at one moment of the run |
| `FixedSizeBlockRuns.FixedSizeBlockAllocator.AllocBlock` | kernel/src/allocator/fixed_size_block.rs:64-85 | pops the list or asks the fallback heap, as specified; null if and only if the head of the list is empty and the fallback heap has no room |
| `FixedSizeBlockRuns.FixedSizeBlockAllocator.DeallocBlock` | kernel/src/allocator/fixed_size_block.rs:87-106 | pushes onto the list through the block itself, or returns it to the fallback heap |
| `FixedSizeBlockRuns.FixedSizeBlockAllocator.ClientWrite` | kernel/src/allocator/fixed_size_block.rs:20-22 | leaves the lists as they are |
| `Memory.LoadStore` | kernel/src/allocator/fixed_size_block.rs:20-22 | a link written to memory is read back |
| `Alignment.MaskClears` | kernel/src/allocator/mod.rs:70-72 | the mask of a power of two clears the remainder |
| `Alignment.AlignUpExact` | kernel/src/allocator/mod.rs:70-72 | the mask form is the least multiple at or above the address if and only if the sum fits in 64 bits |
| `Bump.AllocKeeps` | kernel/src/allocator/bump.rs:36-52 | serves the least aligned address at the cursor exactly when it fits, and keeps live regions aligned, in bounds, apart and below the cursor |
| `Bump.DeallocKeeps` | kernel/src/allocator/bump.rs:54-60 | keeps every other region; the reset happens exactly when none is left |
| `Bump.AllocExact` | kernel/src/allocator/bump.rs:36-52 | the invariant is kept if and only if the alignment sum fits or the size exceeds the heap's end |
| `Bump.LowHeapFits` | kernel/src/allocator/bump.rs:36-52 | in the lower half of the address space the sum always fits |
| `Bump.WrapExample` | kernel/src/allocator/bump.rs:36-52 | a request in the upper half that comes out at address zero |
| `Bump.RunsKeep` | kernel/src/allocator/bump.rs:35-61 | after every run without a request that breaks the allocator live regions are aligned, in bounds, pairwise disjoint and below the cursor, and the counter is their number |
| `Bump.LowRunsKeep` | kernel/src/allocator/bump.rs:35-61 | in the lower half of the address space that holds of every run of good requests and releases |
| `Bump.BumpAllocator.InitHeap` | kernel/src/allocator/bump.rs:28-32 | the heap runs from its start for its size, the cursor stands at the start, and nothing is allocated |
| `Bump.BumpAllocator.AllocBlock` | kernel/src/allocator/bump.rs:36-52 | performs the specified allocation |
| `Bump.BumpAllocator.DeallocBlock` | kernel/src/allocator/bump.rs:54-60 | performs the specified deallocation |
| `Frames.FramesExact` | kernel/src/allocator/memory.rs:29-39 | on page-aligned disjoint regions the iterator yields every usable frame and none twice |
| `Frames.CallsExact` | kernel/src/allocator/memory.rs:42-48 | over all calls every answer is usable, no two agree, every usable frame is answered, and exhaustion is permanent |
| `Frames.BootInfoFrameAllocator.AllocateFrame` | kernel/src/allocator/memory.rs:43-47 | answers the next frame of that list |
| `Paging.RangeExact` | kernel/src/allocator/mod.rs:37-43 | the inclusive page range is the set of pages the heap touches |
| `Paging.BackedStep` | kernel/src/allocator/mod.rs:45-51 | a page's frame is distinct from all frames drawn before it and from the tables drawn after it |
| `Paging.Mapper.NextTable` | kernel/src/allocator/mod.rs:50 | a table on the way is there afterwards if and only if it is no huge page and was there or a frame was left for it |
| `Paging.Mapper.MapTo` | kernel/src/allocator/mod.rs:50 | succeeds if and only if no huge page is in the way, the page is free and there is a frame for every missing table; it then takes exactly one frame for each of these, and every error says what was in the way |
| `Paging.PathsExact` | kernel/src/allocator/mod.rs:45-51 | the tables needed for a range of pages are those on the way to one of them |
| `Paging.PreparedFails` | kernel/src/allocator/mod.rs:45-51 | a page that cannot be mapped stops every range it belongs to, for the reason given |
| `Paging.PreparePages` | kernel/src/allocator/mod.rs:31-54 | succeeds if and only if the range is empty, or none of its pages was mapped, no huge page is in the way and the frames left are at least the pages plus the missing tables; it then takes exactly that many and maps every page that touches the heap to its own freshly drawn usable frame, none of them a new table's; every error names a page of the range, or the lack of frames, that explains it; existing mappings stay |
| `Paging.HeapNeeds` | kernel/src/allocator/mod.rs:17-24 | in an empty address space the kernel's own heap takes 500 frames for pages and four for tables |

## Left out

- Source positions: tokens carry their text only where their kind does not determine it, errors carry a token index instead of a byte offset, and the `path` of a module is passed through unchanged.
- The lexer (`logos`): the parser starts from a token sequence. Integer lexemes have no sign, so the model of `i64::from_str` has none.
- Floating-point values: a float literal is kept as its text.
- Calls, classes, strings, floats, unary operators, `is`, `and` and `or` in the compiler: unimplemented or panicking paths there. The parser covers them.
- Functions with parameters in the compiler: parameters and locals share one offset table.
- ExprCompiler.Compiler.CompileExpr: an identifier that names a function and no local becomes `Poison`, where the source builds a function constant; such values are only of use in calls.
- ModuleCorrect.PanicCause: one direction for all streams; the exact condition, for streams that parse once their numbers can be read, is `Panics.PanicExact`.
- Bodies whose type differs from the declared return type: the source does not compare them; `BuildArities` says when the number of values fits, and behaviour is stated for bodies of the return type.
- CompilerCorrect.LoweringCorrect: a variable that was never assigned makes the model's graph stick, where the builder library supplies a zero. This concerns only trees that no source body compiles to.
- What a read through a stale reference returns: the compiled tree has no specified value from there on, and the theorems about meaning are for bodies whose references hold.
- The library behind the block builder: Cranelift is the builder interface, a step semantics of the instructions used, and nothing of its code generation.
- The field `current_block` of the translator, which is written and never read.
- The type cache of an expression, which is invisible from outside.
- `AtomicWaker`, `ArrayQueue` and the fallback heap (`linked_list_allocator`) are abstract contracts: registration, waking and queue operations are atomic, and the fallback hands out regions nobody holds and touches no held memory.
- A poll of a task other than the keyboard task is one step that may wake any ids and may finish the task; interrupts fall before and after it.
- ExecutorLoop.Kernel.RunReadyTasks: stops after a given number of turns, because other tasks may keep waking each other for ever; every prefix of a run is covered.
- ExecutorLoop.Kernel.RunExecutor: stops after a given number of rounds, because the loop is endless; every prefix of a run is covered.
- A key press while interrupts are disabled: the processor holds it back, so it is a press at a later point of the run.
- More than one keyboard task, which the source refuses with a panic.
- A full ready queue: it panics, and the statements are about runs without that.
- Wrap-around of the 64-bit task counter.
- AtaDrive.AtaDrive.Read: transfers of more than 255 sectors, sector numbers from 2^28 on and ranges outside the disk, where the driver's arithmetic does not hold.
- AtaDrive.AtaDrive.Write: the same ranges. The model stores a sector with its last word, so FLUSH CACHE has no effect on contents, and a command sent to a busy drive is recorded and starts nothing.
- Errors of the drive: the driver looks at no error bit.
- The heap in the upper half of the address space, for `prepare_pages`.
- `map_to` of the paging library is a four-level table walk that creates missing tables; page flags and the flush of the translation cache are left out.
- Frame allocator maps that overlap or are not page-aligned, which the caller must rule out.
- The lock around the allocators: calls are taken one at a time.
- VGA writer, framebuffer, shell, serial port, descriptor tables, boot image, FAT wrappers, directory walks and `SmolStr`: user interface, set-up or easy members.
