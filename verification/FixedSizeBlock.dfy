/**
 The fixed-size-block allocator. Free blocks of a size form a linked list threaded through the free
 memory itself; larger requests and empty lists go to a fallback heap.
 */
module FixedSizeBlock {
  import opened Wrappers
  import opened Bytes
  import opened Memory
  import opened Words

  const BLOCK_SIZES: seq<nat> := [8, 16, 32, 64, 128, 256, 512, 1024, 2048]
  const CLASSES: nat := 9

  datatype Layout = Layout(size: nat, align: nat)

  predicate GoodLayout(l: Layout) {
    l.size > 0 && IsPow2(l.align)
  }

  function Max(a: nat, b: nat): nat {
    if a < b then b else a
  }

  /** The first size from `from` on that is at least `required`. */
  function Position(required: nat, from: nat): (r: Option<nat>)
    requires from <= |BLOCK_SIZES|
    ensures r.Some? ==> from <= r.value < |BLOCK_SIZES| && BLOCK_SIZES[r.value] >= required
    ensures r.Some? ==> forall j :: from <= j < r.value ==> BLOCK_SIZES[j] < required
    ensures r.None? ==> forall j :: from <= j < |BLOCK_SIZES| ==> BLOCK_SIZES[j] < required
    decreases |BLOCK_SIZES| - from
  {
    if from == |BLOCK_SIZES| then None
    else if BLOCK_SIZES[from] >= required then Some(from)
    else Position(required, from + 1)
  }

  /** The size of the blocks of a class. */
  function BlockSize(i: nat): nat {
    if i < |BLOCK_SIZES| then BLOCK_SIZES[i] else 0
  }

  /** The size class of a layout: the smallest block that has the size and the alignment. */
  function ListIndex(l: Layout): (r: Option<nat>)
    ensures r.Some? ==> r.value < CLASSES && BlockSize(r.value) >= l.size && BlockSize(r.value) >= l.align
    ensures r.Some? ==> forall j :: 0 <= j < r.value ==> BlockSize(j) < l.size || BlockSize(j) < l.align
    ensures r.Some? <==> l.size <= 2048 && l.align <= 2048
  {
    Position(Max(l.size, l.align), 0)
  }

  lemma BlockSizesPow2(i: nat)
    requires i < CLASSES
    ensures IsPow2(BlockSize(i)) && 8 <= BlockSize(i)
  {
    assert IsPow2(8) && IsPow2(16);
    assert IsPow2(32) && IsPow2(64);
    assert IsPow2(128) && IsPow2(256);
    assert IsPow2(512) && IsPow2(1024);
    assert IsPow2(2048);
  }

  /** A block is the smallest there is, or less than twice what was asked for. */
  lemma BlockTight(l: Layout)
    requires ListIndex(l).Some?
    ensures var size := BlockSize(ListIndex(l).value); size == 8 || size < 2 * Max(l.size, l.align)
  {
    var i := ListIndex(l).value;
    if i > 0 {
      assert BlockSize(i - 1) < l.size || BlockSize(i - 1) < l.align;
      assert BlockSize(i) == 2 * BlockSize(i - 1);
    }
  }

  // ----- state

  /** Who holds a region that came from the fallback heap. */
  datatype Owner = Live(layout: Layout) | Free(index: nat)

  function SizeOf(o: Owner): nat {
    match o
    case Live(l) => Request(l).size
    case Free(i) => BlockSize(i)
  }

  function AlignOf(o: Owner): nat {
    match o
    case Live(l) => Request(l).align
    case Free(i) => BlockSize(i)
  }

  /** What a layout asks of the fallback heap: a whole block of its class, or itself. */
  function Request(l: Layout): Layout {
    var i := ListIndex(l);
    if i.Some? then Layout(BlockSize(i.value), BlockSize(i.value)) else l
  }

  /**
   The list heads (0 for an empty list) and the memory. The other fields are history: the regions
   taken from the fallback heap, the lists the memory holds, and per class the number of blocks
   ever taken and live now.
   */
  datatype State = State(
    heads: seq<nat>, mem: Mem, lo: nat, hi: nat,
    blocks: map<nat, Owner>, lists: seq<seq<nat>>, taken: seq<nat>, live: seq<nat>)

  /** What the fallback heap does: it may rewrite memory nobody holds, and may hand out a region. */
  datatype Fallback = Fallback(ptr: Option<nat>, mem: Mem)

  ghost predicate Inside(p: nat, size: nat, a: nat) {
    p <= a < p + size
  }

  /** The bytes from `p` on, `n` of them, are the same in both memories. */
  ghost predicate SameBytes(m: Mem, m': Mem, p: nat, n: nat) {
    forall a :: p <= a < p + n && a in m ==> a in m' && m'[a] == m[a]
  }

  ghost predicate Apart(p: nat, n: nat, q: nat, m: nat) {
    p + n <= q || q + m <= p
  }

  /** The block at `p` is where a block may be. */
  ghost predicate Placed(s: State, p: nat, o: Owner) {
    && (o.Free? ==> o.index < CLASSES)
    && (o.Live? ==> GoodLayout(o.layout))
    && p > 0 && s.lo <= p && p + SizeOf(o) <= s.hi
    && AlignOf(o) > 0 && p % AlignOf(o) == 0
  }

  /** `list` is the chain of nodes that starts at `head` and ends with a null pointer. */
  ghost predicate Linked(mem: Mem, head: nat, list: seq<nat>)
    decreases |list|
  {
    if |list| == 0 then head == 0
    else head == list[0] && head != 0 && Mapped(mem, head, WORD) && Linked(mem, Load(mem, head, WORD), list[1..])
  }

  ghost predicate BlocksInv(s: State) {
    && 0 < s.lo && s.hi <= TWO_64
    && (forall a :: s.lo <= a < s.hi ==> a in s.mem)
    && (forall p :: p in s.blocks ==> Placed(s, p, s.blocks[p]))
    && (forall p, q :: p in s.blocks && q in s.blocks && p != q ==>
          Apart(p, SizeOf(s.blocks[p]), q, SizeOf(s.blocks[q])))
  }

  ghost predicate ListsInv(s: State) {
    && |s.heads| == |s.lists| == CLASSES
    && forall i :: 0 <= i < CLASSES ==> ListInv(s, i)
  }

  /** The list of a class is linked in memory, acyclic, and holds exactly the free blocks of the class. */
  ghost predicate ListInv(s: State, i: nat)
    requires i < |s.heads| == |s.lists|
  {
    && Linked(s.mem, s.heads[i], s.lists[i])
    && Distinct(s.lists[i])
    && forall p :: p in s.lists[i] <==> p in s.blocks && s.blocks[p] == Free(i)
  }

  function LiveSet(blocks: map<nat, Owner>, i: nat): set<nat> {
    set p | p in blocks && blocks[p].Live? && ListIndex(blocks[p].layout) == Some(i)
  }

  /** Blocks are neither lost nor duplicated. */
  ghost predicate CountsInv(s: State) {
    && |s.taken| == |s.live| == |s.lists| == CLASSES
    && forall i :: 0 <= i < CLASSES ==>
         && s.live[i] == |LiveSet(s.blocks, i)|
         && s.taken[i] == s.live[i] + |s.lists[i]|
  }

  ghost predicate Inv(s: State) {
    BlocksInv(s) && ListsInv(s) && CountsInv(s)
  }

  // ----- operations

  /** The fallback heap hands out a region nobody holds, and touches no held memory. */
  ghost predicate GoodFallback(s: State, f: Fallback, size: nat, align: nat) {
    && s.mem.Keys <= f.mem.Keys
    && (forall p :: p in s.blocks ==> SameBytes(s.mem, f.mem, p, SizeOf(s.blocks[p])))
    && (f.ptr.Some? ==>
          && f.ptr.value > 0 && s.lo <= f.ptr.value && f.ptr.value + size <= s.hi
          && align > 0 && f.ptr.value % align == 0
          && f.ptr.value !in s.blocks
          && forall q :: q in s.blocks ==> Apart(f.ptr.value, size, q, SizeOf(s.blocks[q])))
  }

  /** Whether an allocation has to go to the fallback heap. */
  predicate NeedsFallback(s: State, l: Layout)
    requires |s.heads| == CLASSES
  {
    var i := ListIndex(l);
    i.None? || s.heads[i.value] == 0
  }

  function Bump(counts: seq<nat>, i: nat): seq<nat>
    requires i < |counts|
  {
    counts[i := counts[i] + 1]
  }

  /** Take the first block of a list: the head moves on and the link in the block is cleared. */
  function PopBlock(s: State, l: Layout, i: nat): (State, nat)
    requires i < CLASSES == |s.heads| == |s.lists| == |s.live| && |s.lists[i]| > 0
    requires Mapped(s.mem, s.heads[i], WORD)
  {
    var node := s.heads[i];
    (s.(heads := s.heads[i := Load(s.mem, node, WORD)], mem := Store(s.mem, node, WORD, 0),
        blocks := s.blocks[node := Live(l)], lists := s.lists[i := s.lists[i][1..]],
        live := Bump(s.live, i)), node)
  }

  /** A block fresh from the fallback heap, or a null pointer. */
  function TakeBlock(s: State, l: Layout, f: Fallback): (State, nat)
    requires |s.taken| == |s.live| == CLASSES
  {
    var t := s.(mem := f.mem);
    if f.ptr.None? then (t, 0)
    else
      var u := t.(blocks := t.blocks[f.ptr.value := Live(l)]);
      var i := ListIndex(l);
      if i.None? then (u, f.ptr.value)
      else (u.(taken := Bump(u.taken, i.value), live := Bump(u.live, i.value)), f.ptr.value)
  }

  ghost predicate CanAlloc(s: State, l: Layout, f: Fallback) {
    && Inv(s) && GoodLayout(l)
    && (NeedsFallback(s, l) ==> GoodFallback(s, f, Request(l).size, Request(l).align))
  }

  /** Specification of `alloc`. */
  ghost function Alloc(s: State, l: Layout, f: Fallback): (State, nat)
    requires CanAlloc(s, l, f)
  {
    if NeedsFallback(s, l) then TakeBlock(s, l, f)
    else
      var i := ListIndex(l).value;
      assert ListInv(s, i);
      PopBlock(s, l, i)
  }

  /** The caller gives back a block it holds, with the layout it was asked for. */
  ghost predicate CanDealloc(s: State, p: nat, l: Layout, f: Fallback) {
    && Inv(s) && p in s.blocks && s.blocks[p] == Live(l)
    && (ListIndex(l).None? ==> GoodFallback(s.(blocks := s.blocks - {p}), f.(ptr := None), 0, 1))
  }

  /** Specification of `dealloc`: the block becomes the new head of its list, or goes back to the fallback heap. */
  ghost function Dealloc(s: State, p: nat, l: Layout, f: Fallback): State
    requires CanDealloc(s, p, l, f)
  {
    var i := ListIndex(l);
    if i.None? then s.(mem := f.mem, blocks := s.blocks - {p})
    else PushBlock(s, p, i.value)
  }

  function PushBlock(s: State, p: nat, i: nat): State
    requires i < CLASSES == |s.heads| == |s.lists| == |s.live|
  {
    s.(heads := s.heads[i := p], mem := Store(s.mem, p, WORD, s.heads[i]),
       blocks := s.blocks[p := Free(i)], lists := s.lists[i := [p] + s.lists[i]],
       live := s.live[i := if s.live[i] > 0 then s.live[i] - 1 else 0])
  }

  /** A client writes a byte of a block it holds. */
  ghost predicate CanWrite(s: State, p: nat, a: nat) {
    Inv(s) && p in s.blocks && s.blocks[p].Live? && Inside(p, s.blocks[p].layout.size, a)
  }

  function Write(s: State, a: nat, v: Byte): State {
    s.(mem := s.mem[a := v])
  }
}
