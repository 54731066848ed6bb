/**
 The block-builder interface the translator emits into, and the meaning of the block graph it
 builds. `ok` turns false at the first call the builder would reject with a panic: an instruction
 after a block has ended, leaving a block that has not ended, a branch to a sealed block, sealing
 twice.
 */
module Clif {
  import opened Values

  type ValueId = nat
  type BlockId = nat

  datatype Cond =
    | Equal | NotEqual
    | SignedGreaterThan | SignedGreaterThanOrEqual | SignedLessThan | SignedLessThanOrEqual

  datatype Opcode = Iadd | Isub | Imul | Udiv | Icmp(cc: Cond)

  datatype Inst =
    | Const(res: ValueId, c: Val)
    | Bin(res: ValueId, opcode: Opcode, l: ValueId, r: ValueId)
    | UseVar(res: ValueId, x: nat)
    | DefVar(x: nat, v: ValueId)
    | Brz(cond: ValueId, dest: BlockId, args: seq<ValueId>)
    | Jump(dest: BlockId, args: seq<ValueId>)
    | Return(vals: seq<ValueId>)

  datatype BlockData = BlockData(params: seq<ValueId>, insts: seq<Inst>, sealed: bool)

  datatype Builder = Builder(blocks: seq<BlockData>, cur: BlockId, next: ValueId, ok: bool)

  predicate IsTerminator(i: Inst) {
    i.Jump? || i.Return?
  }

  /** The block has its terminator. */
  predicate Ended(b: BlockData) {
    |b.insts| > 0 && IsTerminator(b.insts[|b.insts| - 1])
  }

  /** Only a jump may follow a conditional branch. */
  predicate Follows(b: BlockData, i: Inst) {
    |b.insts| > 0 && b.insts[|b.insts| - 1].Brz? ==> i.Jump?
  }

  /** A branch must name a block that still accepts predecessors. */
  predicate MayBranch(blocks: seq<BlockData>, i: Inst) {
    i.Brz? || i.Jump? ==> i.dest < |blocks| && !blocks[i.dest].sealed
  }

  const FRESH := Builder([], 0, 0, true)
  const NEW_BLOCK := BlockData([], [], false)

  function CreateBlock(b: Builder): Builder {
    b.(blocks := b.blocks + [NEW_BLOCK])
  }

  /** Append an instruction to the current block. */
  function Emit(b: Builder, i: Inst): Builder {
    if b.cur < |b.blocks| then
      var blk := b.blocks[b.cur];
      b.(blocks := b.blocks[b.cur := blk.(insts := blk.insts + [i])],
         ok := b.ok && !Ended(blk) && Follows(blk, i) && MayBranch(b.blocks, i))
    else b.(ok := false)
  }

  /** Append an instruction that defines the next value, `i.res`. */
  function EmitValue(b: Builder, i: Inst): (Builder, seq<ValueId>) {
    (Emit(b, i).(next := b.next + 1), [b.next])
  }

  /** The block just left must be ended, and the next one must not be. */
  function SwitchTo(b: Builder, blk: BlockId): Builder {
    b.(cur := blk,
       ok := b.ok && blk < |b.blocks| && !Ended(b.blocks[blk])
             && (b.cur < |b.blocks| && b.cur != blk ==> Ended(b.blocks[b.cur])))
  }

  function Seal(b: Builder, blk: BlockId): Builder {
    if blk < |b.blocks| then
      b.(blocks := b.blocks[blk := b.blocks[blk].(sealed := true)], ok := b.ok && !b.blocks[blk].sealed)
    else b.(ok := false)
  }

  function AppendParam(b: Builder, blk: BlockId): Builder {
    if blk < |b.blocks| then
      var d := b.blocks[blk];
      b.(blocks := b.blocks[blk := d.(params := d.params + [b.next])], next := b.next + 1)
    else b.(ok := false)
  }

  /** What `finalize` demands: every block sealed and ended. */
  predicate Finished(b: Builder) {
    b.ok && forall i :: 0 <= i < |b.blocks| ==> b.blocks[i].sealed && Ended(b.blocks[i])
  }

  // ----- execution

  type Env = map<ValueId, Val>
  type Vars = map<nat, Val>
  type Graph = seq<BlockData>

  /** A running machine is at instruction `ip` of block `blk`; the other states are final. */
  datatype Config =
    | At(blk: BlockId, ip: nat, env: Env, vars: Vars)
    | Returned(vals: seq<Val>, vars: Vars)
    | Trap
    | Stuck

  /** What the machine does for an opcode. */
  function Execute(opcode: Opcode, l: Val, r: Val): Answer {
    if !l.Int? || !r.Int? then Mismatch
    else match opcode
      case Iadd => Value(Int(Wrap(l.n + r.n)))
      case Isub => Value(Int(Wrap(l.n - r.n)))
      case Imul => Value(Int(Wrap(l.n * r.n)))
      case Udiv => if r.n == 0 then DivideTrap else Value(Int(Wrap(Unsigned(l.n) / Unsigned(r.n))))
      case Icmp(Equal) => Value(Bool(l.n == r.n))
      case Icmp(NotEqual) => Value(Bool(l.n != r.n))
      case Icmp(SignedGreaterThan) => Value(Bool(l.n > r.n))
      case Icmp(SignedGreaterThanOrEqual) => Value(Bool(l.n >= r.n))
      case Icmp(SignedLessThan) => Value(Bool(l.n < r.n))
      case Icmp(SignedLessThanOrEqual) => Value(Bool(l.n <= r.n))
  }

  ghost predicate Defined(env: Env, ids: seq<ValueId>) {
    forall k :: 0 <= k < |ids| ==> ids[k] in env
  }

  function Read(env: Env, ids: seq<ValueId>): (r: seq<Val>)
    requires Defined(env, ids)
    ensures |r| == |ids| && forall k :: 0 <= k < |ids| ==> r[k] == env[ids[k]]
  {
    seq(|ids|, k requires 0 <= k < |ids| => env[ids[k]])
  }

  function Bind(env: Env, params: seq<ValueId>, vals: seq<Val>): Env
    requires |params| == |vals|
  {
    if |params| == 0 then env
    else Bind(env, params[..|params| - 1], vals[..|vals| - 1])[params[|params| - 1] := vals[|vals| - 1]]
  }

  /** Enter a block, passing arguments to its parameters. */
  ghost function Goto(g: Graph, dest: BlockId, args: seq<ValueId>, env: Env, vars: Vars): Config {
    if dest < |g| && |args| == |g[dest].params| && Defined(env, args)
    then At(dest, 0, Bind(env, g[dest].params, Read(env, args)), vars)
    else Stuck
  }

  /** One instruction. */
  ghost function Step(g: Graph, c: Config): Config {
    if !c.At? then c
    else if c.blk >= |g| || c.ip >= |g[c.blk].insts| then Stuck
    else
      var At(blk, ip, env, vars) := c;
      match g[blk].insts[ip]
      case Const(res, v) => At(blk, ip + 1, env[res := v], vars)
      case Bin(res, opcode, l, r) =>
        if l !in env || r !in env then Stuck
        else (match Execute(opcode, env[l], env[r])
              case Value(v) => At(blk, ip + 1, env[res := v], vars)
              case DivideTrap => Trap
              case Mismatch => Stuck)
      case UseVar(res, x) => if x in vars then At(blk, ip + 1, env[res := vars[x]], vars) else Stuck
      case DefVar(x, v) => if v in env then At(blk, ip + 1, env, vars[x := env[v]]) else Stuck
      case Brz(cond, dest, args) =>
        if cond !in env || !env[cond].Bool? then Stuck
        else if env[cond].b then At(blk, ip + 1, env, vars)
        else Goto(g, dest, args, env, vars)
      case Jump(dest, args) => Goto(g, dest, args, env, vars)
      case Return(vals) => if Defined(env, vals) then Returned(Read(env, vals), vars) else Stuck
  }

  /** `brz` jumps to its target when its condition is zero, and goes on to the next instruction otherwise. */
  lemma BranchExact(g: Graph, blk: BlockId, ip: nat, env: Env, vars: Vars)
    requires blk < |g| && ip < |g[blk].insts| && g[blk].insts[ip].Brz?
    requires g[blk].insts[ip].cond in env && env[g[blk].insts[ip].cond].Bool?
    ensures var i := g[blk].insts[ip]; var d := Step(g, At(blk, ip, env, vars));
      && (env[i.cond] == Bool(true) ==> d == At(blk, ip + 1, env, vars))
      && (env[i.cond] == Bool(false) ==> d == Stuck || (d.At? && d.blk == i.dest && d.ip == 0 && d.vars == vars))
  {
  }

  /** `n` instructions; a final state stays as it is. */
  ghost function Run(g: Graph, c: Config, n: nat): Config
    decreases n
  {
    if n == 0 then c else Run(g, Step(g, c), n - 1)
  }

  lemma {:induction false} RunAdd(g: Graph, c: Config, m: nat, n: nat)
    ensures Run(g, c, m + n) == Run(g, Run(g, c, m), n)
    decreases m
  {
    if m > 0 { RunAdd(g, Step(g, c), m - 1, n); }
  }

  lemma {:induction false} RunFinal(g: Graph, c: Config, n: nat)
    requires !c.At?
    ensures Run(g, c, n) == c
  {
    if n > 0 { RunFinal(g, c, n - 1); }
  }

  /** Execution is deterministic: a final state reached once is the only one. */
  lemma FinalUnique(g: Graph, c: Config, m: nat, n: nat)
    requires !Run(g, c, m).At? && m <= n
    ensures Run(g, c, n) == Run(g, c, m)
  {
    RunAdd(g, c, m, n - m);
    RunFinal(g, Run(g, c, m), n - m);
  }
}
