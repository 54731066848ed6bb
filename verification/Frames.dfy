/** The physical frame allocator over the boot memory map. */
module Frames {
  import opened Wrappers
  import opened Memory

  const PAGE: nat := 4096

  datatype Kind = Usable | Reserved

  /** A region of physical memory, from `start` up to `end`. */
  datatype Region = Region(start: nat, end: nat, kind: Kind)

  /** The start addresses `from`, `from + 4096`, ... below `end`. */
  function StepBy(from: nat, end: nat): (r: seq<nat>)
    ensures forall i :: 0 <= i < |r| ==> r[i] == from + PAGE * i < end
    ensures from + PAGE * |r| >= end
    decreases if from < end then end - from else 0
  {
    if from >= end then [] else [from] + StepBy(from + PAGE, end)
  }

  function ContainingFrame(addr: nat): nat {
    addr - addr % PAGE
  }

  /** The frames of the usable regions, in the order of the map. */
  function UsableFrames(regions: seq<Region>): seq<nat> {
    if regions == [] then []
    else
      (if regions[0].kind.Usable? then RegionFrames(regions[0]) else [])
      + UsableFrames(regions[1..])
  }

  function Containing(addrs: seq<nat>): (r: seq<nat>)
    ensures |r| == |addrs| && forall i :: 0 <= i < |r| ==> r[i] == ContainingFrame(addrs[i])
  {
    if addrs == [] then [] else [ContainingFrame(addrs[0])] + Containing(addrs[1..])
  }

  // ---- the memory map ----

  /** Page-aligned regions that do not overlap. */
  ghost predicate GoodMap(regions: seq<Region>) {
    && (forall i :: 0 <= i < |regions| ==> GoodRegion(regions[i]))
    && (forall i, j :: 0 <= i < j < |regions| ==>
         regions[i].end <= regions[j].start || regions[j].end <= regions[i].start)
  }

  /** The whole frame lies in one region. */
  predicate Within(frame: nat, r: Region) {
    r.start <= frame && frame + PAGE <= r.end
  }

  predicate InRegion(frame: nat, r: Region) {
    frame % PAGE == 0 && Within(frame, r)
  }

  ghost predicate IsUsable(regions: seq<Region>, frame: nat) {
    exists i :: 0 <= i < |regions| && regions[i].kind.Usable? && InRegion(frame, regions[i])
  }

  lemma AlignedBelow(a: nat, b: nat)
    requires a % PAGE == 0 && b % PAGE == 0 && a < b
    ensures a + PAGE <= b
  {}

  function RegionFrames(r: Region): seq<nat> {
    Containing(StepBy(r.start, r.end))
  }

  predicate GoodRegion(r: Region) {
    r.start % PAGE == 0 && r.end % PAGE == 0 && r.start <= r.end
  }

  lemma FrameAt(r: Region, i: nat)
    requires GoodRegion(r) && i < |RegionFrames(r)|
    ensures RegionFrames(r)[i] == r.start + PAGE * i && InRegion(r.start + PAGE * i, r)
  {
    hide StepBy, Containing;
    var addr := StepBy(r.start, r.end)[i];
    StepAligned(r.start, i);
    AlignedBelow(addr, r.end);
  }

  lemma StepAligned(a: nat, i: nat)
    requires a % PAGE == 0
    ensures (a + PAGE * i) % PAGE == 0
  {}

  lemma FrameIndex(r: Region, f: nat) returns (i: nat)
    requires GoodRegion(r) && InRegion(f, r)
    ensures i < |RegionFrames(r)| && RegionFrames(r)[i] == f
  {
    i := (f - r.start) / PAGE;
    assert f == r.start + PAGE * i;
    assert |RegionFrames(r)| == |StepBy(r.start, r.end)|;
    FrameAt(r, i);
  }

  /** The frames of one usable region: all of them, each once. */
  lemma RegionExact(r: Region)
    requires GoodRegion(r)
    ensures Distinct(RegionFrames(r))
    ensures forall f: nat :: f in RegionFrames(r) <==> InRegion(f, r)
  {
    hide RegionFrames, GoodRegion, InRegion;
    var fs := RegionFrames(r);
    forall i, j | 0 <= i < j < |fs| ensures fs[i] != fs[j] {
      FrameAt(r, i);
      FrameAt(r, j);
    }
    forall f: nat ensures f in fs <==> InRegion(f, r) {
      if InRegion(f, r) {
        var i := FrameIndex(r, f);
      } else if f in fs {
        var i: nat :| i < |fs| && fs[i] == f;
        FrameAt(r, i);
      }
    }
  }

  lemma DistinctJoin(a: seq<nat>, b: seq<nat>)
    requires Distinct(a) && Distinct(b) && forall f :: f in a ==> f !in b
    ensures Distinct(a + b)
  {
    forall i, j | 0 <= i < j < |a + b| ensures (a + b)[i] != (a + b)[j] {
      if i < |a| && j >= |a| {
        assert a[i] in a && b[j - |a|] in b;
      }
    }
  }

  /** On a good map the iterator yields every usable frame, and none twice. */
  lemma {:induction false} FramesExact(regions: seq<Region>)
    requires GoodMap(regions)
    ensures Distinct(UsableFrames(regions))
    ensures forall f: nat :: f in UsableFrames(regions) <==> IsUsable(regions, f)
    decreases regions
  {
    hide InRegion, IsUsable, Distinct, RegionFrames;
    if regions == [] {
      NothingUsable();
    } else {
      var r, rest := regions[0], regions[1..];
      FramesExact(rest);
      var fs := if r.kind.Usable? then RegionFrames(r) else [];
      if r.kind.Usable? { RegionExact(r); } else { NothingUsable(); }
      forall f: nat ensures f in UsableFrames(regions) <==> IsUsable(regions, f) {
        UsableCons(regions, f);
      }
      forall f | f in fs ensures f !in UsableFrames(rest) {
        OneRegion(regions, f);
      }
      DistinctJoin(fs, UsableFrames(rest));
    }
  }

  lemma NothingUsable()
    ensures Distinct([]) && forall f: nat :: !IsUsable([], f)
  {}

  lemma UsableCons(regions: seq<Region>, f: nat)
    requires regions != []
    ensures IsUsable(regions, f)
      <==> (regions[0].kind.Usable? && InRegion(f, regions[0])) || IsUsable(regions[1..], f)
  {
    hide InRegion;
    if i :| 0 <= i < |regions[1..]| && regions[1..][i].kind.Usable? && InRegion(f, regions[1..][i]) {
      assert regions[i + 1] == regions[1..][i];
    }
    if i :| 0 <= i < |regions| && regions[i].kind.Usable? && InRegion(f, regions[i]) {
      if i > 0 { assert regions[1..][i - 1] == regions[i]; }
    }
  }

  lemma OneRegion(regions: seq<Region>, f: nat)
    requires GoodMap(regions) && regions != [] && InRegion(f, regions[0])
    ensures !IsUsable(regions[1..], f)
  {
    assert forall i :: 0 <= i < |regions[1..]| ==> regions[1..][i] == regions[i + 1];
  }

  // ---- the allocator ----

  /** The answer of the `k`-th call. */
  function Nth(regions: seq<Region>, k: nat): Option<nat> {
    var fs := UsableFrames(regions);
    if k < |fs| then Some(fs[k]) else None
  }

  /**
   * Over all calls on a good map: every answer is a usable frame, no two answers agree, every usable
   * frame is answered once, and after the first `None` there are only `None`s.
   */
  lemma CallsExact(regions: seq<Region>)
    requires GoodMap(regions)
    ensures forall k: nat :: Nth(regions, k).Some? ==> IsUsable(regions, Nth(regions, k).value)
    ensures forall j: nat, k: nat :: j != k && Nth(regions, j).Some? ==> Nth(regions, j) != Nth(regions, k)
    ensures forall f: nat :: IsUsable(regions, f) ==> exists k: nat :: Nth(regions, k) == Some(f)
    ensures forall j: nat, k: nat :: j <= k && Nth(regions, j).None? ==> Nth(regions, k).None?
  {
    hide UsableFrames, IsUsable, GoodMap;
    FramesExact(regions);
    var fs := UsableFrames(regions);
    forall f: nat | IsUsable(regions, f) ensures exists k: nat :: Nth(regions, k) == Some(f) {
      var k: nat :| k < |fs| && fs[k] == f;
      assert Nth(regions, k) == Some(f);
    }
  }

  /** The frames answered by the calls from the `lo`-th up to the `hi`-th. */
  ghost function Drawn(regions: seq<Region>, lo: nat, hi: nat): set<nat> {
    set k: nat | lo <= k < hi && Nth(regions, k).Some? :: Nth(regions, k).value
  }

  lemma DrawnUsable(regions: seq<Region>, lo: nat, hi: nat)
    requires GoodMap(regions)
    ensures forall f :: f in Drawn(regions, lo, hi) ==> IsUsable(regions, f)
  {
    hide Nth, GoodMap, IsUsable;
    CallsExact(regions);
  }

  lemma DrawnGrows(regions: seq<Region>, lo: nat, mid: nat, hi: nat)
    requires lo <= mid <= hi
    ensures Drawn(regions, lo, mid) <= Drawn(regions, lo, hi) && Drawn(regions, mid, hi) <= Drawn(regions, lo, hi)
  {}

  class BootInfoFrameAllocator {
    const regions: seq<Region>
    var next: nat

    constructor (regions: seq<Region>)
      ensures this.regions == regions && next == 0
    {
      this.regions := regions;
      next := 0;
    }

    method AllocateFrame() returns (frame: Option<nat>)
      modifies this
      ensures frame == Nth(regions, old(next)) && next == old(next) + 1
    {
      frame := Nth(regions, next);
      next := next + 1;
    }
  }
}
