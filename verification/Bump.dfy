/** The bump allocator: one cursor, one counter, and a reset when the counter returns to zero. */
module Bump {
  import opened Wrappers
  import opened Memory
  import opened Alignment
  import opened Words

  /** A live allocation. */
  datatype Region = Region(start: nat, size: nat, align: nat)

  /** The allocator's fields and, beside them, what its clients hold. */
  datatype State = State(heapStart: nat, heapEnd: nat, next: nat, allocations: nat, live: set<Region>)

  function Init(heapStart: nat, heapSize: nat): State {
    State(heapStart, heapStart + heapSize, heapStart, 0, {})
  }

  /** What a client may ask for: a non-empty size and a power-of-two alignment. */
  predicate GoodRequest(size: nat, align: nat) {
    0 < size < TWO_64 && 0 < align < TWO_64 && IsPow2(align)
  }

  /** The address of a new block, or `None` where the allocator returns the null pointer early. */
  function Alloc(s: State, size: nat, align: nat): (State, Option<nat>)
    requires s.next < TWO_64 && 0 < align < TWO_64
  {
    var start := AlignUp(s.next, align);
    if start + size >= TWO_64 || start + size > s.heapEnd then (s, None)
    else
      (s.(next := start + size, allocations := s.allocations + 1, live := s.live + {Region(start, size, align)}),
       Some(start))
  }

  function Dealloc(s: State, r: Region): State
    requires s.allocations > 0
  {
    var left := s.allocations - 1;
    s.(allocations := left, next := if left == 0 then s.heapStart else s.next, live := s.live - {r})
  }

  predicate Apart(a: Region, b: Region) {
    a.start + a.size <= b.start || b.start + b.size <= a.start
  }

  /** A live region is aligned, in the heap and below the cursor. */
  predicate Placed(s: State, r: Region) {
    r.size > 0 && r.align > 0 && r.start % r.align == 0 && s.heapStart <= r.start && r.start + r.size <= s.next
  }

  ghost predicate Inv(s: State) {
    && 0 < s.heapStart <= s.next <= s.heapEnd < TWO_64
    && s.allocations == |s.live| <= s.next - s.heapStart
    && (s.live == {} ==> s.next == s.heapStart)
    && (forall r :: r in s.live ==> Placed(s, r))
    && (forall a, b :: a in s.live && b in s.live && a != b ==> Apart(a, b))
  }

  /** The alignment sum at the cursor fits in 64 bits. */
  predicate SumFits(s: State, align: nat) {
    s.next + align - 1 < TWO_64
  }

  /** Allocation serves the least aligned address at the cursor whenever it fits in the heap. */
  lemma AllocKeeps(s: State, size: nat, align: nat)
    requires Inv(s) && GoodRequest(size, align) && SumFits(s, align)
    ensures var (t, p) := Alloc(s, size, align);
      && Inv(t)
      && (p.None? ==> t == s)
      && (p.Some? ==>
           && LeastMultiple(p.value, s.next, align) && t.next == p.value + size
           && Region(p.value, size, align) !in s.live && t.live == s.live + {Region(p.value, size, align)})
      && (p.Some? <==> exists q: nat :: s.next <= q && q % align == 0 && q + size <= s.heapEnd)
  {
    AlignUpExact(s.next, align);
    hide AlignUp;
    var start := AlignUp(s.next, align);
    var (t, p) := Alloc(s, size, align);
    if p.Some? {
      AddLive(s, t, Region(start, size, align));
      assert start % align == 0 && start + size <= s.heapEnd;
    }
  }

  lemma AddLive(s: State, t: State, r: Region)
    requires Inv(s) && r.size > 0 && r.align > 0 && r.start % r.align == 0
    requires s.next <= r.start && r.start + r.size <= s.heapEnd
    requires t == s.(next := r.start + r.size, allocations := s.allocations + 1, live := s.live + {r})
    ensures Inv(t) && r !in s.live
  {
    forall a | a in s.live ensures Placed(t, a) && Apart(a, r) {
      assert Placed(s, a);
    }
  }

  /** Freeing a live region keeps every other one; the reset happens only when none is left. */
  lemma DeallocKeeps(s: State, r: Region)
    requires Inv(s) && r in s.live
    ensures s.allocations > 0 && Inv(Dealloc(s, r)) && Dealloc(s, r).live == s.live - {r}
    ensures Dealloc(s, r).next == s.heapStart <==> s.live == {r}
  {
    assert |s.live - {r}| == |s.live| - 1;
    var t := Dealloc(s, r);
    assert Placed(s, r);
    if t.allocations == 0 {
      assert t.live == {};
      assert s.live == {r} by { assert forall x :: x in s.live && x != r ==> x in t.live; }
    } else {
      assert t.live != {};
      assert s.live != {r};
      forall a | a in t.live ensures Placed(t, a) { assert Placed(s, a); }
    }
  }

  // ---- when the sum does not fit ----

  /**
   * Allocation keeps the invariant exactly when the alignment sum fits in 64 bits or the size alone
   * exceeds the end of the heap.
   */
  lemma AllocExact(s: State, size: nat, align: nat)
    requires Inv(s) && GoodRequest(size, align)
    ensures Inv(Alloc(s, size, align).0) <==> SumFits(s, align) || size > s.heapEnd
  {
    if SumFits(s, align) {
      AllocKeeps(s, size, align);
    } else {
      AlignUpExact(s.next, align);
      if size <= s.heapEnd {
        var t := Alloc(s, size, align).0;
        assert Region(0, size, align) in t.live;
        assert !Placed(t, Region(0, size, align));
      }
    }
  }

  /** A heap in the lower half of the address space never meets the wrap-around. */
  lemma LowHeapFits(s: State, size: nat, align: nat)
    requires Inv(s) && s.heapEnd <= TWO_63 && GoodRequest(size, align)
    ensures SumFits(s, align)
  {
    if align > TWO_63 {
      hide IsPow2;
      WordPow2();
      Pow2Divides(align, TWO_64);
    }
  }

  /** In the upper half it can: the block comes out at address zero and the cursor leaves the heap. */
  lemma WrapExample()
    ensures var s := State(TWO_63 + 1, TWO_63 + 4096, TWO_63 + 1, 0, {});
      && Inv(s) && GoodRequest(8, TWO_63)
      && Alloc(s, 8, TWO_63).1 == Some(0) && Alloc(s, 8, TWO_63).0.next == 8
  {
    var s := State(TWO_63 + 1, TWO_63 + 4096, TWO_63 + 1, 0, {});
    assert IsPow2(8);
    Scaled16(8);
    hide IsPow2;
    Scaled16(0x80);
    Scaled16(0x800);
    Scaled65536(0x8000);
    Scaled65536(0x8000_0000);
    Scaled65536(0x8000_0000_0000);
    AlignUpExact(s.next, TWO_63);
  }

  // ---- runs ----

  datatype Op = AllocOp(size: nat, align: nat) | DeallocOp(region: Region)

  /** What a client may do: make a good request, or release a region it holds. */
  ghost predicate Proper(s: State, op: Op) {
    match op
    case AllocOp(size, align) => GoodRequest(size, align)
    case DeallocOp(r) => r in s.live
  }

  /** A proper step that is not one of the requests which `AllocExact` shows to break the allocator. */
  ghost predicate Allowed(s: State, op: Op) {
    Proper(s, op) && (op.AllocOp? ==> SumFits(s, op.align) || op.size > s.heapEnd)
  }

  ghost function Step(s: State, op: Op): State
    requires Inv(s) && Allowed(s, op)
  {
    match op
    case AllocOp(size, align) => Alloc(s, size, align).0
    case DeallocOp(r) =>
      DeallocKeeps(s, r);
      Dealloc(s, r)
  }

  lemma StepKeeps(s: State, op: Op)
    requires Inv(s) && Allowed(s, op)
    ensures Inv(Step(s, op)) && Step(s, op).heapStart == s.heapStart && Step(s, op).heapEnd == s.heapEnd
  {
    match op
    case AllocOp(size, align) => AllocExact(s, size, align);
    case DeallocOp(r) => DeallocKeeps(s, r);
  }

  /** The state after a run of client steps, if each is allowed. */
  ghost function Run(s: State, ops: seq<Op>): Option<State>
    requires Inv(s)
    decreases |ops|
  {
    if ops == [] then Some(s)
    else if !Allowed(s, ops[0]) then None
    else
      StepKeeps(s, ops[0]);
      Run(Step(s, ops[0]), ops[1..])
  }

  /** After every run the live regions are aligned, in bounds, apart and below the cursor. */
  lemma {:induction false} RunsKeep(s: State, ops: seq<Op>)
    requires Inv(s) && Run(s, ops).Some?
    ensures var t := Run(s, ops).value;
      Inv(t) && t.heapStart == s.heapStart && t.heapEnd == s.heapEnd
    decreases |ops|
  {
    if ops != [] {
      StepKeeps(s, ops[0]);
      RunsKeep(Step(s, ops[0]), ops[1..]);
    }
  }

  /** Every step of the run is proper where it is taken. */
  ghost predicate ProperRun(s: State, ops: seq<Op>)
    requires Inv(s)
    decreases |ops|
  {
    if ops == [] then true
    else if !Allowed(s, ops[0]) then Proper(s, ops[0])
    else
      StepKeeps(s, ops[0]);
      ProperRun(Step(s, ops[0]), ops[1..])
  }

  /** In the lower half of the address space every proper run is allowed, and keeps the invariant. */
  lemma {:induction false} LowRunsKeep(s: State, ops: seq<Op>)
    requires Inv(s) && s.heapEnd <= TWO_63 && ProperRun(s, ops)
    ensures Run(s, ops).Some? && Inv(Run(s, ops).value)
    decreases |ops|
  {
    if ops != [] {
      if ops[0].AllocOp? { LowHeapFits(s, ops[0].size, ops[0].align); }
      StepKeeps(s, ops[0]);
      LowRunsKeep(Step(s, ops[0]), ops[1..]);
    }
  }

  // ---- the allocator in place ----

  class BumpAllocator {
    var heapStart: nat
    var heapEnd: nat
    var next: nat
    var allocations: nat
    ghost var live: set<Region>

    ghost function Abstract(): State
      reads this
    {
      State(heapStart, heapEnd, next, allocations, live)
    }

    constructor ()
      ensures Abstract() == State(0, 0, 0, 0, {})
    {
      heapStart, heapEnd, next, allocations, live := 0, 0, 0, 0, {};
    }

    method InitHeap(start: nat, size: nat)
      requires 0 < start && start + size < TWO_64
      requires allocations == 0 && live == {}
      modifies this
      ensures Abstract() == Init(start, size) && Inv(Abstract())
      ensures heapStart == next == start && heapEnd == start + size && allocations == 0
    {
      heapStart := start;
      heapEnd := start + size;
      next := start;
    }

    method AllocBlock(size: nat, align: nat) returns (p: nat)
      requires Inv(Abstract()) && GoodRequest(size, align)
      modifies this
      ensures Inv(Abstract()) <==> SumFits(old(Abstract()), align) || size > old(heapEnd)
      ensures var (t, block) := Alloc(old(Abstract()), size, align);
        Abstract() == t && p == if block.Some? then block.value else 0
    {
      AllocExact(Abstract(), size, align);
      var start := AlignUp(next, align);
      if start + size >= TWO_64 { return 0; }
      var end := start + size;
      if end > heapEnd { return 0; }
      next := end;
      allocations := allocations + 1;
      live := live + {Region(start, size, align)};
      return start;
    }

    method DeallocBlock(ghost r: Region)
      requires Inv(Abstract()) && r in live
      modifies this
      ensures Inv(Abstract()) && live == old(live) - {r}
      ensures old(allocations) > 0 && Abstract() == Dealloc(old(Abstract()), r)
    {
      DeallocKeeps(Abstract(), r);
      allocations := allocations - 1;
      if allocations == 0 { next := heapStart; }
      live := live - {r};
    }
  }
}
