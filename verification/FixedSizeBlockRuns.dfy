/** Every run of the fixed-size-block allocator keeps its blocks apart and its lists intact. */
module FixedSizeBlockRuns {
  import opened Wrappers
  import opened Bytes
  import opened Memory
  import opened Words
  import opened FixedSizeBlock

  /** A list survives any change of memory outside the link words of its nodes. */
  lemma {:induction false} LinkedFrame(mem: Mem, mem': Mem, head: nat, list: seq<nat>)
    requires Linked(mem, head, list)
    requires forall k :: 0 <= k < |list| ==> SameBytes(mem, mem', list[k], WORD)
    ensures Linked(mem', head, list)
    decreases |list|
  {
    if |list| > 0 {
      assert SameBytes(mem, mem', list[0], WORD);
      LoadSame(mem, mem', head, WORD);
      LinkedFrame(mem, mem', Load(mem, head, WORD), list[1..]);
    }
  }

  /** The link word of a free block lies inside the block. */
  lemma FreeRoom(s: State, i: nat, p: nat)
    requires BlocksInv(s) && ListsInv(s) && i < CLASSES && p in s.lists[i]
    ensures p in s.blocks && s.blocks[p] == Free(i) && SizeOf(Free(i)) >= WORD && Placed(s, p, Free(i))
  {
    assert ListInv(s, i);
    BlockSizesPow2(i);
  }

  lemma SameLess(m: Mem, m': Mem, p: nat, n: nat, k: nat)
    requires SameBytes(m, m', p, n) && k <= n
    ensures SameBytes(m, m', p, k)
  {
  }

  /** Memory changes that spare all free blocks keep every list. */
  lemma ListFrame(s: State, mem': Mem, i: nat)
    requires BlocksInv(s) && ListsInv(s) && i < CLASSES
    requires forall p :: p in s.blocks && s.blocks[p] == Free(i) ==> SameBytes(s.mem, mem', p, SizeOf(s.blocks[p]))
    ensures Linked(mem', s.heads[i], s.lists[i])
  {
    hide SameBytes, SizeOf, BlockSize;
    assert ListInv(s, i);
    forall k | 0 <= k < |s.lists[i]| ensures SameBytes(s.mem, mem', s.lists[i][k], WORD) {
      var p := s.lists[i][k];
      FreeRoom(s, i, p);
      SameLess(s.mem, mem', p, SizeOf(s.blocks[p]), WORD);
    }
    LinkedFrame(s.mem, mem', s.heads[i], s.lists[i]);
  }

  // ----- client writes

  /** A client writing its own block changes no list and moves no block. */
  lemma WriteKeeps(s: State, p: nat, a: nat, v: Byte)
    requires CanWrite(s, p, a)
    ensures Inv(Write(s, a, v))
    ensures Write(s, a, v).lists == s.lists && Write(s, a, v).heads == s.heads
  {
    var t := Write(s, a, v);
    WriteLists(s, p, a, v);
    assert BlocksInv(t) by { PlacedSame(s, t); }
  }

  lemma OwnRoom(l: Layout)
    ensures l.size <= SizeOf(Live(l))
  {
  }

  lemma WriteLists(s: State, p: nat, a: nat, v: Byte)
    requires CanWrite(s, p, a)
    ensures ListsInv(Write(s, a, v))
  {
    hide CountsInv, SizeOf, BlockSize, Linked;
    var t := Write(s, a, v);
    OwnRoom(s.blocks[p].layout);
    forall i | 0 <= i < CLASSES ensures ListInv(t, i) {
      assert ListInv(s, i);
      forall q | q in s.blocks && s.blocks[q] == Free(i) ensures SameBytes(s.mem, t.mem, q, SizeOf(s.blocks[q])) {
        assert Apart(p, SizeOf(s.blocks[p]), q, SizeOf(s.blocks[q]));
      }
      ListFrame(s, t.mem, i);
    }
  }

  lemma PlacedSame(s: State, t: State)
    requires t.lo == s.lo && t.hi == s.hi
    ensures forall p, o :: Placed(s, p, o) <==> Placed(t, p, o)
  {
    hide SizeOf, AlignOf;
  }

  // ----- taking from a list

  lemma LiveSetAdd(blocks: map<nat, Owner>, p: nat, l: Layout, i: nat)
    requires ListIndex(l) == Some(i) && (p !in blocks || blocks[p].Free?)
    ensures |LiveSet(blocks[p := Live(l)], i)| == |LiveSet(blocks, i)| + 1
    ensures forall j :: j != i ==> LiveSet(blocks[p := Live(l)], j) == LiveSet(blocks, j)
  {
    hide ListIndex;
    assert LiveSet(blocks[p := Live(l)], i) == LiveSet(blocks, i) + {p};
  }

  lemma LiveSetDrop(blocks: map<nat, Owner>, p: nat, l: Layout, i: nat)
    requires p in blocks && blocks[p] == Live(l) && ListIndex(l) == Some(i)
    ensures |LiveSet(blocks[p := Free(i)], i)| == |LiveSet(blocks, i)| - 1
    ensures forall j :: j != i ==> LiveSet(blocks[p := Free(i)], j) == LiveSet(blocks, j)
  {
    hide ListIndex;
    assert LiveSet(blocks[p := Free(i)], i) == LiveSet(blocks, i) - {p};
  }

  lemma PopReady(s: State, l: Layout)
    requires Inv(s) && GoodLayout(l) && !NeedsFallback(s, l)
    ensures ListIndex(l).Some? && ListIndex(l).value < CLASSES == |s.heads| == |s.lists| == |s.live|
    ensures var i := ListIndex(l).value;
      && |s.lists[i]| > 0 && s.heads[i] == s.lists[i][0] && Mapped(s.mem, s.heads[i], WORD)
      && s.heads[i] in s.blocks && s.blocks[s.heads[i]] == Free(i)
      && Linked(s.mem, Load(s.mem, s.heads[i], WORD), s.lists[i][1..])
  {
    var i := ListIndex(l).value;
    assert ListInv(s, i);
    assert s.lists[i][0] in s.lists[i];
  }

  /** Changing the owner of a region to one of the same size and alignment keeps all blocks apart. */
  lemma Reowned(s: State, t: State, p: nat, o: Owner)
    requires BlocksInv(s) && p in s.blocks && t.lo == s.lo && t.hi == s.hi
    requires SizeOf(o) == SizeOf(s.blocks[p]) && AlignOf(o) == AlignOf(s.blocks[p])
    requires (o.Free? ==> o.index < CLASSES) && (o.Live? ==> GoodLayout(o.layout))
    requires t.blocks == s.blocks[p := o] && s.mem.Keys <= t.mem.Keys
    ensures BlocksInv(t)
  {
    PlacedSame(s, t);
    assert Placed(s, p, s.blocks[p]);
    forall q | q in t.blocks ensures Placed(t, q, t.blocks[q]) {
      assert Placed(s, q, s.blocks[q]);
    }
    forall q, r | q in t.blocks && r in t.blocks && q != r
      ensures Apart(q, SizeOf(t.blocks[q]), r, SizeOf(t.blocks[r]))
    {
      assert Apart(q, SizeOf(s.blocks[q]), r, SizeOf(s.blocks[r]));
    }
  }

  lemma PopLists(s: State, l: Layout)
    requires Inv(s) && GoodLayout(l) && !NeedsFallback(s, l)
    ensures ListIndex(l).Some? && |s.lists[ListIndex(l).value]| > 0 && Mapped(s.mem, s.heads[ListIndex(l).value], WORD)
    ensures ListsInv(PopBlock(s, l, ListIndex(l).value).0)
  {
    hide CountsInv, SizeOf, BlockSize, ListIndex, ListInv;
    PopReady(s, l);
    var i := ListIndex(l).value;
    var t := PopBlock(s, l, i).0;
    forall j | 0 <= j < CLASSES ensures ListInv(t, j) { PopList(s, l, i, j); }
  }

  /** The clearing of the link of the block taken spares every block that is still free. */
  lemma PopSpares(s: State, node: nat, i: nat, j: nat, list: seq<nat>)
    requires BlocksInv(s) && ListsInv(s) && i < CLASSES && j < CLASSES && node in s.lists[i]
    requires forall k :: 0 <= k < |list| ==> list[k] in s.lists[j] && list[k] != node
    ensures forall k :: 0 <= k < |list| ==> SameBytes(s.mem, Store(s.mem, node, WORD, 0), list[k], WORD)
  {
    hide SizeOf, BlockSize, Linked, ListInv, Store;
    FreeRoom(s, i, node);
    forall k | 0 <= k < |list| ensures SameBytes(s.mem, Store(s.mem, node, WORD, 0), list[k], WORD) {
      FreeRoom(s, j, list[k]);
      assert Apart(list[k], SizeOf(s.blocks[list[k]]), node, SizeOf(s.blocks[node]));
    }
  }

  lemma PopList(s: State, l: Layout, i: nat, j: nat)
    requires Inv(s) && i < CLASSES == |s.live| && j < CLASSES && s.heads[i] != 0 && |s.lists[i]| > 0
    requires Mapped(s.mem, s.heads[i], WORD)
    ensures ListInv(PopBlock(s, l, i).0, j)
  {
    hide CountsInv, BlocksInv, Store;
    var t := PopBlock(s, l, i).0;
    assert ListInv(s, j) && ListInv(s, i);
    PopMembers(s, t, l, i, j);
    var list := t.lists[j];
    PopSpares(s, s.heads[i], i, j, list);
    LinkedFrame(s.mem, t.mem, if j == i then Load(s.mem, s.heads[i], WORD) else s.heads[j], list);
  }

  lemma PopMembers(s: State, t: State, l: Layout, i: nat, j: nat)
    requires i < CLASSES && j < CLASSES && |s.heads| == |s.lists| == |t.lists| == |t.heads| == CLASSES
    requires ListInv(s, i) && ListInv(s, j) && |s.lists[i]| > 0
    requires t.blocks == s.blocks[s.lists[i][0] := Live(l)] && t.lists == s.lists[i := s.lists[i][1..]]
    ensures Distinct(t.lists[j]) && forall p :: p in t.lists[j] <==> p in t.blocks && t.blocks[p] == Free(j)
    ensures forall k :: 0 <= k < |t.lists[j]| ==> t.lists[j][k] in s.lists[j] && t.lists[j][k] != s.lists[i][0]
  {
    hide Linked;
    var node := s.lists[i][0];
    assert s.lists[i] == [node] + s.lists[i][1..];
    assert node in s.lists[i];
  }

  lemma PopKeeps(s: State, l: Layout, f: Fallback)
    requires CanAlloc(s, l, f) && !NeedsFallback(s, l)
    ensures Inv(Alloc(s, l, f).0)
  {
    hide ListsInv, BlocksInv, ListIndex, BlockSize, LiveSet, Store;
    PopReady(s, l);
    PopLists(s, l);
    var i := ListIndex(l).value;
    var t := PopBlock(s, l, i).0;
    Reowned(s, t, s.heads[i], Live(l));
    LiveSetAdd(s.blocks, s.heads[i], l, i);
    assert CountsInv(t);
  }

  // ----- taking from the fallback heap

  lemma EmptyList(s: State, i: nat)
    requires ListsInv(s) && i < CLASSES && s.heads[i] == 0
    ensures s.lists[i] == []
  {
    assert ListInv(s, i);
  }

  /** Memory nobody holds may change freely. */
  lemma FallbackLists(s: State, t: State, f: Fallback, size: nat, align: nat)
    requires BlocksInv(s) && ListsInv(s) && GoodFallback(s, f, size, align)
    requires t.heads == s.heads && t.lists == s.lists && t.mem == f.mem
    requires forall p, i :: (p in t.blocks && t.blocks[p] == Free(i)) <==> (p in s.blocks && s.blocks[p] == Free(i))
    ensures ListsInv(t)
  {
    hide SizeOf, BlockSize, Linked, SameBytes;
    forall i | 0 <= i < CLASSES ensures ListInv(t, i) {
      assert ListInv(s, i);
      ListFrame(s, f.mem, i);
    }
  }

  lemma FreshBlock(s: State, t: State, l: Layout, f: Fallback)
    requires BlocksInv(s) && GoodLayout(l) && f.ptr.Some? && GoodFallback(s, f, Request(l).size, Request(l).align)
    requires t.lo == s.lo && t.hi == s.hi && t.mem == f.mem && t.blocks == s.blocks[f.ptr.value := Live(l)]
    ensures BlocksInv(t)
  {
    hide Request;
    var p := f.ptr.value;
    PlacedSame(s, t);
    forall q | q in t.blocks ensures Placed(t, q, t.blocks[q]) {
      if q != p { assert Placed(s, q, s.blocks[q]); }
    }
    forall q, r | q in t.blocks && r in t.blocks && q != r
      ensures Apart(q, SizeOf(t.blocks[q]), r, SizeOf(t.blocks[r]))
    {
      if q == p {
        assert Apart(p, Request(l).size, r, SizeOf(s.blocks[r]));
      } else if r == p {
        assert Apart(p, Request(l).size, q, SizeOf(s.blocks[q]));
      } else {
        assert Apart(q, SizeOf(s.blocks[q]), r, SizeOf(s.blocks[r]));
      }
    }
  }

  lemma LargeKeepsCounts(blocks: map<nat, Owner>, p: nat, l: Layout, i: nat)
    requires ListIndex(l).None? && (p !in blocks || blocks[p] == Live(l))
    ensures LiveSet(blocks[p := Live(l)], i) == LiveSet(blocks, i)
    ensures LiveSet(blocks - {p}, i) == LiveSet(blocks, i)
  {
    hide ListIndex;
  }

  lemma TakeCounts(s: State, l: Layout, f: Fallback)
    requires CanAlloc(s, l, f) && NeedsFallback(s, l)
    ensures CountsInv(TakeBlock(s, l, f).0)
  {
    hide BlocksInv, BlockSize, LiveSet, SizeOf, Request, ListIndex;
    var t := TakeBlock(s, l, f).0;
    if f.ptr.Some? {
      if ListIndex(l).None? {
        forall i | 0 <= i < CLASSES ensures LiveSet(t.blocks, i) == LiveSet(s.blocks, i) {
          LargeKeepsCounts(s.blocks, f.ptr.value, l, i);
        }
      } else {
        EmptyList(s, ListIndex(l).value);
        LiveSetAdd(s.blocks, f.ptr.value, l, ListIndex(l).value);
      }
    }
  }

  lemma TakeKeeps(s: State, l: Layout, f: Fallback)
    requires CanAlloc(s, l, f) && NeedsFallback(s, l)
    ensures Inv(TakeBlock(s, l, f).0)
  {
    hide CountsInv, ListsInv, BlockSize, SizeOf, ListIndex, Request;
    TakeCounts(s, l, f);
    LengthsOf(s);
    var t := TakeBlock(s, l, f).0;
    FallbackLists(s, t, f, Request(l).size, Request(l).align);
    if f.ptr.Some? { FreshBlock(s, t, l, f); } else { PlacedSame(s, t); }
  }

  lemma LengthsOf(s: State)
    requires Inv(s)
    ensures |s.heads| == |s.lists| == |s.taken| == |s.live| == CLASSES
  {
  }

  // ----- giving back

  lemma HeadBound(s: State, i: nat)
    requires BlocksInv(s) && ListsInv(s) && i < CLASSES
    ensures s.heads[i] < TWO_64
  {
    assert ListInv(s, i);
    if |s.lists[i]| > 0 { FreeRoom(s, i, s.lists[i][0]); }
  }

  lemma PushSpares(s: State, p: nat, l: Layout, j: nat, v: nat)
    requires BlocksInv(s) && ListsInv(s) && j < CLASSES
    requires p in s.blocks && s.blocks[p] == Live(l) && SizeOf(Live(l)) >= WORD
    ensures Linked(Store(s.mem, p, WORD, v), s.heads[j], s.lists[j])
  {
    hide SizeOf, BlockSize, Store;
    forall q | q in s.blocks && s.blocks[q] == Free(j)
      ensures SameBytes(s.mem, Store(s.mem, p, WORD, v), q, SizeOf(s.blocks[q]))
    {
      assert Apart(q, SizeOf(s.blocks[q]), p, SizeOf(s.blocks[p]));
    }
    ListFrame(s, Store(s.mem, p, WORD, v), j);
  }

  lemma PushList(s: State, p: nat, l: Layout, i: nat, j: nat)
    requires Inv(s) && i < CLASSES && j < CLASSES && p in s.blocks && s.blocks[p] == Live(l) && ListIndex(l) == Some(i)
    requires |s.live| == CLASSES
    ensures ListInv(PushBlock(s, p, i), j)
  {
    hide CountsInv, BlocksInv, Store, ListIndex, BlockSize;
    var t := PushBlock(s, p, i);
    assert ListInv(s, j) && ListInv(s, i);
    BlockSizesPow2(i);
    PushSpares(s, p, l, j, s.heads[i]);
    if j == i {
      HeadBound(s, i);
      WordRange();
      LoadStore(s.mem, p, WORD, s.heads[i]);
      BlockPositive(s, p);
      assert t.lists[i][1..] == s.lists[i];
    }
    PushMembers(s, t, p, l, i, j);
  }

  lemma BlockPositive(s: State, p: nat)
    requires BlocksInv(s) && p in s.blocks
    ensures p > 0
  {
    assert Placed(s, p, s.blocks[p]);
  }

  lemma PushMembers(s: State, t: State, p: nat, l: Layout, i: nat, j: nat)
    requires i < CLASSES && j < CLASSES && |s.heads| == |s.lists| == |t.lists| == |t.heads| == CLASSES
    requires ListInv(s, i) && ListInv(s, j) && p in s.blocks && s.blocks[p] == Live(l)
    requires t.blocks == s.blocks[p := Free(i)] && t.lists == s.lists[i := [p] + s.lists[i]]
    ensures Distinct(t.lists[j]) && forall q :: q in t.lists[j] <==> q in t.blocks && t.blocks[q] == Free(j)
  {
    hide Linked;
    assert p !in s.lists[i];
  }

  lemma PushKeeps(s: State, p: nat, l: Layout, i: nat)
    requires Inv(s) && i < CLASSES && p in s.blocks && s.blocks[p] == Live(l) && ListIndex(l) == Some(i)
    ensures |s.live| == |s.heads| == |s.lists| == CLASSES && Inv(PushBlock(s, p, i))
  {
    LengthsOf(s);
    hide BlocksInv, ListInv, Store, ListIndex, BlockSize, LiveSet;
    var t := PushBlock(s, p, i);
    forall j | 0 <= j < CLASSES ensures ListInv(t, j) { PushList(s, p, l, i, j); }
    Reowned(s, t, p, Free(i));
    LiveSetDrop(s.blocks, p, l, i);
  }

  lemma DropKeeps(s: State, p: nat, l: Layout, f: Fallback)
    requires CanDealloc(s, p, l, f) && ListIndex(l).None?
    ensures Inv(Dealloc(s, p, l, f))
  {
    hide SizeOf, AlignOf, ListIndex, LiveSet, SameBytes, Linked;
    var t := Dealloc(s, p, l, f);
    var u := s.(blocks := s.blocks - {p});
    PlacedSame(s, t);
    forall i | 0 <= i < CLASSES ensures ListInv(t, i) {
      assert ListInv(s, i);
      forall q | q in s.blocks && s.blocks[q] == Free(i) ensures SameBytes(s.mem, f.mem, q, SizeOf(s.blocks[q])) {
        assert q in u.blocks;
      }
      ListFrame(s, f.mem, i);
    }
    forall i | 0 <= i < CLASSES ensures LiveSet(t.blocks, i) == LiveSet(s.blocks, i) {
      LargeKeepsCounts(s.blocks, p, l, i);
    }
  }

  // ----- what callers rely on

  lemma AllocKeeps(s: State, l: Layout, f: Fallback)
    requires CanAlloc(s, l, f)
    ensures Inv(Alloc(s, l, f).0)
  {
    if NeedsFallback(s, l) { TakeKeeps(s, l, f); } else { PopKeeps(s, l, f); }
  }

  lemma DeallocKeeps(s: State, p: nat, l: Layout, f: Fallback)
    requires CanDealloc(s, p, l, f)
    ensures Inv(Dealloc(s, p, l, f))
  {
    if ListIndex(l).None? { DropKeeps(s, p, l, f); } else { PushKeeps(s, p, l, ListIndex(l).value); }
  }

  /** A block of a class satisfies every layout of the class. */
  lemma LayoutServed(s: State, p: nat, l: Layout)
    requires Placed(s, p, Live(l))
    ensures l.align > 0 && p % l.align == 0 && l.size <= SizeOf(Live(l))
  {
    var i := ListIndex(l);
    if i.Some? {
      BlockSizesPow2(i.value);
      Pow2Divides(l.align, BlockSize(i.value));
      AlignedTo(p, l.align, BlockSize(i.value));
    }
  }

  /**
   A non-null result is a region of the heap with the size and alignment asked for, apart from
   every other block, live or free, and it was not live before.
   */
  lemma AllocServes(s: State, l: Layout, f: Fallback)
    requires CanAlloc(s, l, f)
    ensures var (t, p) := Alloc(s, l, f);
      p != 0 ==>
        && p in t.blocks && t.blocks[p] == Live(l) && (p in s.blocks ==> s.blocks[p].Free?)
        && l.align > 0 && p % l.align == 0 && s.lo <= p && p + l.size <= s.hi
        && forall q :: q in t.blocks && q != p ==> Apart(p, l.size, q, SizeOf(t.blocks[q]))
  {
    AllocKeeps(s, l, f);
    AllocOwner(s, l, f);
    var (t, p) := Alloc(s, l, f);
    if p != 0 { Served(t, p, l); }
  }

  lemma AllocOwner(s: State, l: Layout, f: Fallback)
    requires CanAlloc(s, l, f)
    ensures var (t, p) := Alloc(s, l, f);
      && t.lo == s.lo && t.hi == s.hi
      && (p != 0 ==> p in t.blocks && t.blocks[p] == Live(l) && (p in s.blocks ==> s.blocks[p].Free?))
  {
    hide SizeOf, Request, BlockSize, Store;
    if !NeedsFallback(s, l) { PopReady(s, l); }
  }

  lemma Served(t: State, p: nat, l: Layout)
    requires BlocksInv(t) && p in t.blocks && t.blocks[p] == Live(l)
    ensures l.align > 0 && p % l.align == 0 && t.lo <= p && p + l.size <= t.hi
    ensures forall q :: q in t.blocks && q != p ==> Apart(p, l.size, q, SizeOf(t.blocks[q]))
  {
    hide Request, BlockSize;
    assert Placed(t, p, Live(l));
    LayoutServed(t, p, l);
    forall q | q in t.blocks && q != p ensures Apart(p, l.size, q, SizeOf(t.blocks[q])) {
      assert Apart(p, SizeOf(t.blocks[p]), q, SizeOf(t.blocks[q]));
    }
  }

  // ----- what exactly an operation does

  /** The request finds a block in the list of its class. */
  predicate InList(s: State, l: Layout) {
    |s.lists| == CLASSES && ListIndex(l).Some? && s.lists[ListIndex(l).value] != []
  }

  lemma InListExact(s: State, l: Layout)
    requires Inv(s)
    ensures |s.heads| == CLASSES && (InList(s, l) <==> !NeedsFallback(s, l))
  {
    hide Linked, ListIndex;
    LengthsOf(s);
    if ListIndex(l).Some? {
      ListHead(s, ListIndex(l).value);
    }
  }

  lemma ListHead(s: State, i: nat)
    requires Inv(s) && i < CLASSES
    ensures |s.heads| == |s.lists| == CLASSES
    ensures if s.lists[i] == [] then s.heads[i] == 0 else s.heads[i] == s.lists[i][0] != 0
  {
    assert ListInv(s, i);
  }

  /**
   The answer is null exactly when the list has no block and the fallback heap has no room. A list
   with a block gives its first one and loses it; otherwise the answer is the fallback's region, one
   more that its class has taken.
   */
  lemma AllocExact(s: State, l: Layout, f: Fallback)
    requires CanAlloc(s, l, f)
    ensures |s.lists| == |s.taken| == |s.live| == CLASSES
    ensures var (t, p) := Alloc(s, l, f); var i := ListIndex(l);
      && (p == 0 <==> !InList(s, l) && f.ptr.None?)
      && (InList(s, l) ==>
            && p == s.lists[i.value][0] && t.lists == s.lists[i.value := s.lists[i.value][1..]]
            && t.taken == s.taken && t.mem == Store(s.mem, p, WORD, 0))
      && (!InList(s, l) ==>
            && t.lists == s.lists && t.heads == s.heads && t.mem == f.mem && (f.ptr.Some? ==> p == f.ptr.value)
            && t.taken == if p != 0 && i.Some? then s.taken[i.value := s.taken[i.value] + 1] else s.taken)
      && t.live == (if p != 0 && i.Some? then s.live[i.value := s.live[i.value] + 1] else s.live)
      && t.blocks == (if p != 0 then s.blocks[p := Live(l)] else s.blocks)
  {
    hide ListIndex, BlocksInv, Store, Load, Request, SizeOf;
    LengthsOf(s);
    InListExact(s, l);
    if !NeedsFallback(s, l) {
      PopReady(s, l);
      ListHead(s, ListIndex(l).value);
    }
  }

  /** With a block in the list the fallback heap is not asked: its answer makes no difference. */
  lemma FallbackUnused(s: State, l: Layout, f: Fallback, g: Fallback)
    requires CanAlloc(s, l, f) && InList(s, l)
    ensures CanAlloc(s, l, g) && Alloc(s, l, g) == Alloc(s, l, f)
  {
    hide Inv, GoodFallback, ListIndex;
    InListExact(s, l);
  }

  /** A returned block leads its list and links to the old first block; a large one is nobody's any more. */
  lemma DeallocExact(s: State, p: nat, l: Layout, f: Fallback)
    requires CanDealloc(s, p, l, f)
    ensures |s.heads| == |s.lists| == |s.live| == CLASSES
    ensures var t := Dealloc(s, p, l, f);
      && t.taken == s.taken
      && (ListIndex(l).Some? ==>
            var i := ListIndex(l).value;
            && t.blocks == s.blocks[p := Free(i)] && t.lists == s.lists[i := [p] + s.lists[i]]
            && t.heads == s.heads[i := p] && Mapped(t.mem, p, WORD) && Load(t.mem, p, WORD) == s.heads[i]
            && s.live[i] > 0 && t.live == s.live[i := s.live[i] - 1])
      && (ListIndex(l).None? ==>
            t.blocks == s.blocks - {p} && t.lists == s.lists && t.heads == s.heads && t.live == s.live)
  {
    hide ListIndex, ListInv, BlocksInv, Store, Load, GoodFallback, BlockSize;
    LengthsOf(s);
    if ListIndex(l).Some? {
      var i := ListIndex(l).value;
      HeadBound(s, i);
      WordRange();
      LoadStore(s.mem, p, WORD, s.heads[i]);
      LiveCounted(s, p, l, i);
    }
  }

  lemma LiveCounted(s: State, p: nat, l: Layout, i: nat)
    requires CountsInv(s) && i < CLASSES && p in s.blocks && s.blocks[p] == Live(l) && ListIndex(l) == Some(i)
    ensures s.live[i] > 0
  {
    assert p in LiveSet(s.blocks, i);
  }

  /** Giving a block back and asking for the class again yields the same block and the same lists. */
  lemma ReusesLatest(s: State, p: nat, l: Layout, f: Fallback, again: Layout, g: Fallback)
    requires CanDealloc(s, p, l, f) && GoodLayout(again) && ListIndex(again) == ListIndex(l) && ListIndex(l).Some?
    ensures CanAlloc(Dealloc(s, p, l, f), again, g)
    ensures var (t, q) := Alloc(Dealloc(s, p, l, f), again, g);
      q == p && t.lists == s.lists && t.live == s.live && t.taken == s.taken && t.blocks == s.blocks[p := Live(again)]
  {
    hide ListIndex, GoodFallback, Inv, Store, Load, Alloc, Dealloc;
    var u := Dealloc(s, p, l, f);
    DeallocKeeps(s, p, l, f);
    DeallocExact(s, p, l, f);
    InListExact(u, again);
    AllocExact(u, again, g);
    var i := ListIndex(l).value;
    assert ([p] + s.lists[i])[1..] == s.lists[i];
  }

  // ----- runs

  datatype Event =
    | EAlloc(layout: Layout, f: Fallback)
    | EDealloc(ptr: nat, layout: Layout, f: Fallback)
    | EWrite(ptr: nat, addr: nat, v: Byte)

  /** What the caller and the fallback heap owe before an event. */
  ghost predicate Permitted(s: State, e: Event) {
    match e
    case EAlloc(l, f) => CanAlloc(s, l, f)
    case EDealloc(p, l, f) => CanDealloc(s, p, l, f)
    case EWrite(p, a, _) => CanWrite(s, p, a)
  }

  ghost function Step(s: State, e: Event): State {
    if !Permitted(s, e) then s
    else match e
      case EAlloc(l, f) => Alloc(s, l, f).0
      case EDealloc(p, l, f) => Dealloc(s, p, l, f)
      case EWrite(_, a, v) => Write(s, a, v)
  }

  ghost function Exec(s: State, events: seq<Event>): State {
    if |events| == 0 then s else Step(Exec(s, events[..|events| - 1]), events[|events| - 1])
  }

  /** An initialised allocator over an unused heap. */
  ghost predicate Initial(s: State) {
    && 0 < s.lo <= s.hi <= TWO_64 && (forall a :: s.lo <= a < s.hi ==> a in s.mem)
    && s.blocks == map[] && |s.heads| == |s.lists| == |s.taken| == |s.live| == CLASSES
    && forall i :: 0 <= i < CLASSES ==> s.heads[i] == 0 && s.lists[i] == [] && s.taken[i] == s.live[i] == 0
  }

  lemma InitialInv(s: State)
    requires Initial(s)
    ensures Inv(s)
  {
    forall i | 0 <= i < CLASSES ensures ListInv(s, i) && LiveSet(s.blocks, i) == {} {}
  }

  /** Every state of every run: blocks apart, lists linked and acyclic, no block lost or duplicated. */
  lemma {:induction false} RunsKeep(s: State, events: seq<Event>)
    requires Initial(s)
    ensures Inv(Exec(s, events))
  {
    InitialInv(s);
    if |events| > 0 {
      var front, e := events[..|events| - 1], events[|events| - 1];
      RunsKeep(s, front);
      var t := Exec(s, front);
      if Permitted(t, e) {
        match e
        case EAlloc(l, f) => AllocKeeps(t, l, f);
        case EDealloc(p, l, f) => DeallocKeeps(t, p, l, f);
        case EWrite(p, a, v) => WriteKeeps(t, p, a, v);
      }
    }
  }

  // ----- high-water mark

  function LiveCount(s: State, i: nat): nat {
    |LiveSet(s.blocks, i)|
  }

  /** A class takes a new block only when every block it has is live. */
  lemma TakenStep(s: State, e: Event, i: nat)
    requires Inv(s) && Inv(Step(s, e)) && i < CLASSES == |s.taken| == |Step(s, e).taken|
    ensures var t := Step(s, e); t.taken[i] == s.taken[i] || (t.taken[i] > s.taken[i] && t.taken[i] == LiveCount(t, i))
  {
    hide BlocksInv, ListInv, ListIndex, BlockSize, LiveSet, Store, GoodFallback;
    if e.EAlloc? && Permitted(s, e) && NeedsFallback(s, e.layout) && e.f.ptr.Some? && ListIndex(e.layout) == Some(i) {
      EmptyList(s, i);
    }
  }

  /** Counting is exact in every state of a run. */
  lemma CountsExact(s: State, events: seq<Event>, i: nat)
    requires Initial(s) && i < CLASSES
    ensures var t := Exec(s, events);
      |t.taken| == |t.lists| == CLASSES && t.taken[i] == LiveCount(t, i) + |t.lists[i]|
  {
    hide LiveSet;
    RunsKeep(s, events);
  }

  /**
   High-water mark: the number of blocks a class has ever taken bounds its live blocks at every
   moment of the run, and at some moment all of them were live.
   */
  lemma {:induction false} HighWater(s: State, events: seq<Event>, i: nat) returns (busiest: nat)
    requires Initial(s) && i < CLASSES
    ensures |Exec(s, events).taken| == CLASSES
    ensures forall k :: 0 <= k <= |events| ==> LiveCount(Exec(s, events[..k]), i) <= Exec(s, events).taken[i]
    ensures busiest <= |events| && LiveCount(Exec(s, events[..busiest]), i) == Exec(s, events).taken[i]
  {
    hide LiveCount, Step;
    CountsExact(s, events, i);
    assert events[..|events|] == events;
    busiest := 0;
    if |events| == 0 {
      assert events[..0] == [];
      NothingLive(s, i);
    } else {
      var front, e := events[..|events| - 1], events[|events| - 1];
      busiest := HighWater(s, front, i);
      var u, t := Exec(s, front), Exec(s, events);
      RunsKeep(s, front);
      RunsKeep(s, events);
      TakenStep(u, e, i);
      forall k | 0 <= k <= |events| ensures LiveCount(Exec(s, events[..k]), i) <= t.taken[i] {
        if k < |events| { assert events[..k] == front[..k]; }
      }
      assert events[..busiest] == front[..busiest];
      if t.taken[i] != u.taken[i] { busiest := |events|; }
    }
  }

  lemma NothingLive(s: State, i: nat)
    requires Initial(s) && i < CLASSES
    ensures LiveCount(s, i) == 0 == s.taken[i]
  {
    assert LiveSet(s.blocks, i) == {};
  }

  // ----- the allocator object

  class FixedSizeBlockAllocator {
    var listHeads: seq<nat>
    var mem: Mem
    /** The run so far. */
    ghost var view: State

    ghost predicate Valid()
      reads this
    {
      Inv(view) && view.heads == listHeads && view.mem == mem
    }

    constructor (heapStart: nat, heapSize: nat, mem: Mem)
      requires 0 < heapStart && heapStart + heapSize <= TWO_64
      requires forall a :: heapStart <= a < heapStart + heapSize ==> a in mem
      ensures Valid() && Initial(view) && view.lo == heapStart && view.hi == heapStart + heapSize
    {
      var heads := seq(CLASSES, _ => 0);
      listHeads := heads;
      this.mem := mem;
      ghost var zeros := seq(CLASSES, _ => 0);
      ghost var s := State(heads, mem, heapStart, heapStart + heapSize, map[], seq(CLASSES, _ => []), zeros, zeros);
      view := s;
      InitialInv(s);
    }

    /** The fallback heap answers; a null pointer means it has no room. */
    method FallbackAlloc(f: Fallback) returns (ptr: nat)
      modifies this`mem
      ensures mem == f.mem && ptr == if f.ptr.Some? then f.ptr.value else 0
    {
      mem := f.mem;
      ptr := if f.ptr.Some? then f.ptr.value else 0;
    }

    method AllocBlock(layout: Layout, f: Fallback) returns (ptr: nat)
      requires Valid() && CanAlloc(view, layout, f)
      modifies this
      ensures Valid() && (view, ptr) == Alloc(old(view), layout, f)
      ensures ptr == 0 <==>
        (ListIndex(layout).None? || old(listHeads)[ListIndex(layout).value] == 0) && f.ptr.None?
      ensures
        var i := ListIndex(layout);
        if i.Some? && old(listHeads)[i.value] != 0 then ptr == old(listHeads)[i.value]
        else f.ptr.Some? ==> ptr == f.ptr.value
      ensures ptr != 0 ==>
        ptr in view.blocks && view.blocks[ptr] == Live(layout) && layout.align > 0 && ptr % layout.align == 0
    {
      hide Store, BlockSize, Request, SizeOf, AlignOf, LiveSet, Inv, GoodFallback, Load;
      LengthsOf(view);
      AllocKeeps(view, layout, f);
      AllocServes(view, layout, f);
      AllocExact(view, layout, f);
      InListExact(view, layout);
      ghost var after := Alloc(view, layout, f).0;
      var index := ListIndex(layout);
      if index.Some? {
        var i := index.value;
        var node := listHeads[i];
        listHeads := listHeads[i := 0];
        if node != 0 {
          PopReady(view, layout);
          listHeads := listHeads[i := Load(mem, node, WORD)];
          mem := Store(mem, node, WORD, 0);
          ptr := node;
        } else {
          ptr := FallbackAlloc(f);
        }
      } else {
        ptr := FallbackAlloc(f);
      }
      view := after;
    }

    method DeallocBlock(ptr: nat, layout: Layout, f: Fallback)
      requires Valid() && CanDealloc(view, ptr, layout, f)
      modifies this
      ensures Valid() && view == Dealloc(old(view), ptr, layout, f)
      ensures ListIndex(layout).Some? ==> listHeads == old(listHeads)[ListIndex(layout).value := ptr]
    {
      hide Store, BlockSize, Request, SizeOf, AlignOf, LiveSet;
      LengthsOf(view);
      DeallocKeeps(view, ptr, layout, f);
      ghost var after := Dealloc(view, ptr, layout, f);
      var index := ListIndex(layout);
      if index.Some? {
        var i := index.value;
        BlockSizesPow2(i);
        var next := listHeads[i];
        assert WORD <= BlockSize(i);
        mem := Store(mem, ptr, WORD, next);
        listHeads := listHeads[i := ptr];
      } else {
        mem := f.mem;
      }
      view := after;
    }

    /** A client uses its block. */
    method ClientWrite(ghost ptr: nat, addr: nat, v: Byte)
      requires Valid() && CanWrite(view, ptr, addr)
      modifies this`mem, this`view
      ensures Valid() && view == Write(old(view), addr, v) && view.lists == old(view).lists
    {
      WriteKeeps(view, ptr, addr, v);
      mem := mem[addr := v];
      view := Write(view, addr, v);
    }
  }
}
