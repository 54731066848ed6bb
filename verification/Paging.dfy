/** Mapping the heap: page tables draw their frames from the allocator that also backs the pages. */
module Paging {
  import opened Wrappers
  import opened Frames

  /** The table of a level that a page passes through: 3 below the root, 1 at the leaves. */
  datatype Table = Table(level: nat, prefix: nat)

  datatype MapError = FrameAllocationFailed | ParentEntryHugePage | PageAlreadyMapped(frame: nat)

  /** A table of 512 entries covers 512 times as many pages as the level below it. */
  function Prefix(page: nat, level: nat): nat {
    if level == 0 then page else Prefix(page, level - 1) / 512
  }

  function TableOf(level: nat, page: nat): Table {
    Table(level, Prefix(page, level))
  }

  /** The tables on the way to a page from `level` up. */
  ghost function PathFrom(page: nat, level: nat): (r: set<Table>)
    ensures forall t :: t in r <==> level <= t.level <= 3 && t == TableOf(t.level, page)
    decreases 4 - level
  {
    if level > 3 then {} else PathFrom(page, level + 1) + {TableOf(level, page)}
  }

  /** The tables on the way to a page. */
  ghost function Path(page: nat): set<Table> {
    PathFrom(page, 1)
  }

  /** The tables on the way to the pages from `first` up to `end`. */
  ghost function Paths(first: nat, end: nat): set<Table> {
    if end <= first then {} else Paths(first, end - 1) + Path(end - 1)
  }

  lemma {:induction false} PathsExact(first: nat, end: nat, t: Table)
    ensures t in Paths(first, end) <==> exists p :: first <= p < end && t in Path(p)
  {
    hide Path;
    if first < end { PathsExact(first, end - 1, t); }
  }

  /** How many frames the memory map has to give. */
  ghost function Supply(regions: seq<Region>): nat {
    |UsableFrames(regions)|
  }

  lemma SupplyExact(regions: seq<Region>, k: nat)
    ensures Nth(regions, k).Some? <==> k < Supply(regions)
  {}

  /** New tables stand on frames drawn meanwhile; old tables stay. */
  ghost predicate TablesGrow(regions: seq<Region>, lo: nat, hi: nat, before: map<Table, nat>, after: map<Table, nat>) {
    && (forall t :: t in before ==> t in after && after[t] == before[t])
    && (forall t :: t in after && t !in before ==> after[t] in Drawn(regions, lo, hi))
  }

  lemma TablesJoin(regions: seq<Region>, lo: nat, mid: nat, hi: nat,
                   a: map<Table, nat>, b: map<Table, nat>, c: map<Table, nat>)
    requires lo <= mid <= hi && TablesGrow(regions, lo, mid, a, b) && TablesGrow(regions, mid, hi, b, c)
    ensures TablesGrow(regions, lo, hi, a, c)
  {
    hide Drawn;
    DrawnGrows(regions, lo, mid, hi);
  }

  class Mapper {
    const huge: set<Table>
    var tables: map<Table, nat>
    var mapped: map<nat, nat>

    /** One table on the way to a page, created if it is missing. */
    method NextTable(t: Table, frames: BootInfoFrameAllocator) returns (err: Option<MapError>)
      modifies this`tables, frames
      ensures frames.next >= old(frames.next)
      ensures TablesGrow(frames.regions, old(frames.next), frames.next, old(tables), tables)
      ensures err.None? <==> t !in huge && (t in old(tables) || old(frames.next) < Supply(frames.regions))
      ensures err.None? ==>
        && tables.Keys == old(tables).Keys + {t}
        && frames.next == old(frames.next) + if t in old(tables) then 0 else 1
      ensures err.Some? ==> tables == old(tables)
      ensures err == Some(ParentEntryHugePage) ==> t in huge
      ensures err == Some(FrameAllocationFailed) ==>
        t !in old(tables) && Supply(frames.regions) <= old(frames.next) < frames.next
      ensures err.Some? ==> !err.value.PageAlreadyMapped?
    {
      SupplyExact(frames.regions, frames.next);
      hide Supply;
      if t in huge { return Some(ParentEntryHugePage); }
      if t in tables { return None; }
      var frame := frames.AllocateFrame();
      if frame.None? { return Some(FrameAllocationFailed); }
      assert Nth(frames.regions, old(frames.next)).value in Drawn(frames.regions, old(frames.next), frames.next);
      tables := tables[t := frame.value];
      return None;
    }

    /** What `MapTo` needs: no huge page in the way, the page free, and a frame for every missing table. */
    ghost predicate CanMap(page: nat, frames: BootInfoFrameAllocator)
      reads this, frames
    {
      && Path(page) !! huge && page !in mapped
      && (Path(page) <= tables.Keys || frames.next + |Path(page) - tables.Keys| <= Supply(frames.regions))
    }

    /** Enter `page` with `frame`, creating the tables on the way from the same allocator. */
    method MapTo(page: nat, frame: nat, frames: BootInfoFrameAllocator) returns (err: Option<MapError>)
      modifies this, frames
      ensures frames.next >= old(frames.next)
      ensures TablesGrow(frames.regions, old(frames.next), frames.next, old(tables), tables)
      ensures err.None? <==> old(CanMap(page, frames))
      ensures err.None? ==>
        && mapped == old(mapped)[page := frame] && tables.Keys == old(tables).Keys + Path(page)
        && frames.next == old(frames.next) + |Path(page) - old(tables).Keys|
      ensures err.Some? ==> mapped == old(mapped)
      ensures err == Some(ParentEntryHugePage) ==> Path(page) * huge != {}
      ensures err.Some? && err.value.PageAlreadyMapped? ==> page in old(mapped) && old(mapped)[page] == err.value.frame
      ensures err == Some(FrameAllocationFailed) ==>
        && !(Path(page) <= old(tables).Keys) && Nth(frames.regions, frames.next).None?
        && old(frames.next) + |Path(page) - old(tables).Keys| > Supply(frames.regions)
    {
      hide Drawn, TableOf, Nth, TablesGrow, Supply, Path, PathFrom, Made;
      ghost var lo, was := frames.next, tables.Keys;
      GrowNothing(frames.regions, frames.next, tables);
      MadeNothing(page, huge, was, lo, Supply(frames.regions));
      var level := 3;
      while level > 0
        invariant 0 <= level <= 3
        invariant mapped == old(mapped) && frames.next >= old(frames.next)
        invariant TablesGrow(frames.regions, old(frames.next), frames.next, old(tables), tables)
        invariant Made(PathFrom(page, level + 1), huge, was, tables.Keys, lo, frames.next, Supply(frames.regions))
      {
        ghost var mid, between := frames.next, tables;
        err := NextTable(TableOf(level, page), frames);
        TablesJoin(frames.regions, old(frames.next), mid, frames.next, old(tables), between, tables);
        if err.Some? {
          MadeFails(page, level, huge, was, between.Keys, lo, mid, Supply(frames.regions));
          SupplyExact(frames.regions, frames.next);
          return;
        }
        MadeStep(page, level, huge, was, between.Keys, tables.Keys, lo, mid, frames.next, Supply(frames.regions));
        level := level - 1;
      }
      MadeAll(page, huge, was, tables.Keys, lo, frames.next, Supply(frames.regions));
      if page in mapped { return Some(PageAlreadyMapped(mapped[page])); }
      mapped := mapped[page := frame];
      return None;
    }
  }

  /** The tables of `path` are there now, each missing one at the cost of a frame. */
  ghost predicate Made(path: set<Table>, huge: set<Table>, before: set<Table>, after: set<Table>,
                       lo: nat, hi: nat, supply: nat) {
    && path !! huge && after == before + path && hi == lo + |path - before|
    && (path <= before || hi <= supply)
  }

  lemma MadeNothing(page: nat, huge: set<Table>, before: set<Table>, lo: nat, supply: nat)
    ensures Made(PathFrom(page, 4), huge, before, before, lo, lo, supply)
  {
    assert PathFrom(page, 4) == {};
    assert {} - before == {};
  }

  lemma MadeStep(page: nat, level: nat, huge: set<Table>, before: set<Table>, mid: set<Table>, after: set<Table>,
                 lo: nat, next: nat, hi: nat, supply: nat)
    requires 1 <= level <= 3 && Made(PathFrom(page, level + 1), huge, before, mid, lo, next, supply)
    requires var t := TableOf(level, page);
      t !in huge && after == mid + {t} && (t in mid || next < supply) && hi == next + if t in mid then 0 else 1
    ensures Made(PathFrom(page, level), huge, before, after, lo, hi, supply)
  {
    hide TableOf, PathFrom;
    PathStep(page, level, before);
  }

  lemma MadeFails(page: nat, level: nat, huge: set<Table>, before: set<Table>, mid: set<Table>,
                  lo: nat, next: nat, supply: nat)
    requires 1 <= level <= 3 && Made(PathFrom(page, level + 1), huge, before, mid, lo, next, supply)
    ensures TableOf(level, page) in Path(page)
    ensures TableOf(level, page) !in mid && supply <= next ==>
      !(Path(page) <= before) && lo + |Path(page) - before| > supply
  {
    hide TableOf, PathFrom;
    PathStep(page, level, before);
    PathRest(page, level, before);
  }

  lemma MadeAll(page: nat, huge: set<Table>, before: set<Table>, after: set<Table>, lo: nat, hi: nat, supply: nat)
    requires Made(PathFrom(page, 1), huge, before, after, lo, hi, supply)
    ensures Path(page) !! huge && after == before + Path(page) && hi == lo + |Path(page) - before|
    ensures Path(page) <= before || hi <= supply
  {
    hide PathFrom;
  }

  lemma GrowNothing(regions: seq<Region>, at: nat, tables: map<Table, nat>)
    ensures TablesGrow(regions, at, at, tables, tables)
  {}

  /** One more table on the way counts once, if it was not there. */
  lemma PathStep(page: nat, level: nat, had: set<Table>)
    requires 1 <= level <= 3
    ensures var t := TableOf(level, page);
      && t !in PathFrom(page, level + 1) && PathFrom(page, level) == PathFrom(page, level + 1) + {t}
      && |PathFrom(page, level) - had| == |PathFrom(page, level + 1) - had| + if t in had then 0 else 1
  {
    var t := TableOf(level, page);
    if t in had {
      assert PathFrom(page, level) - had == PathFrom(page, level + 1) - had;
    } else {
      assert PathFrom(page, level) - had == (PathFrom(page, level + 1) - had) + {t};
    }
  }

  lemma PathRest(page: nat, level: nat, had: set<Table>)
    requires 1 <= level <= 3
    ensures TableOf(level, page) in Path(page) && PathFrom(page, level) <= Path(page)
    ensures |PathFrom(page, level) - had| <= |Path(page) - had|
  {
    Fewer(PathFrom(page, level) - had, Path(page) - had);
  }

  lemma Fewer<T>(a: set<T>, b: set<T>)
    requires a <= b
    ensures |a| <= |b|
  {
    assert b == a + (b - a);
  }

  lemma StayNone(regions: seq<Region>, j: nat, k: nat)
    requires j <= k
    ensures Nth(regions, j).None? ==> Nth(regions, k).None?
  {}

  // ---- the heap ----

  const LOWER_HALF: nat := 0x8000_0000_0000

  /** Some byte of the page is a byte of the range. */
  predicate Touches(page: nat, start: nat, size: nat) {
    page * PAGE < start + size && start < (page + 1) * PAGE
  }

  /** The inclusive page range is the set of pages that the heap touches. */
  lemma RangeExact(page: nat, start: nat, size: nat)
    requires size > 0
    ensures Touches(page, start, size) <==> start / PAGE <= page <= (start + size - 1) / PAGE
  {}

  /** Pages `first` up to `page` are mapped to distinct frames drawn since call `lo`, none of them a new table's. */
  ghost predicate Backed(regions: seq<Region>, lo: nat, hi: nat, first: nat, page: nat,
                         mapped: map<nat, nat>, before: map<Table, nat>, tables: map<Table, nat>) {
    && (forall p :: first <= p < page ==> p in mapped && mapped[p] in Drawn(regions, lo, hi))
    && (forall p, q :: first <= p < q < page ==> mapped[p] != mapped[q])
    && (forall p, t :: first <= p < page && t in tables && t !in before ==> mapped[p] != tables[t])
  }

  /** Backing grows by one page: its frame is drawn first, then the tables. */
  lemma BackedStep(regions: seq<Region>, lo: nat, mid: nat, hi: nat, first: nat, page: nat,
                   mapped: map<nat, nat>, before: map<Table, nat>, between: map<Table, nat>, tables: map<Table, nat>)
    requires GoodMap(regions) && lo <= mid < hi && first <= page && Nth(regions, mid).Some?
    requires Backed(regions, lo, mid, first, page, mapped, before, between)
    requires TablesGrow(regions, lo, mid, before, between) && TablesGrow(regions, mid + 1, hi, between, tables)
    ensures Backed(regions, lo, hi, first, page + 1, mapped[page := Nth(regions, mid).value], before, tables)
  {
    hide GoodMap, Nth, Drawn;
    DrawnNext(regions, lo, mid, hi);
  }

  lemma DrawnNext(regions: seq<Region>, lo: nat, mid: nat, hi: nat)
    requires GoodMap(regions) && lo <= mid < hi && Nth(regions, mid).Some?
    ensures Drawn(regions, lo, mid) <= Drawn(regions, lo, hi) && Nth(regions, mid).value in Drawn(regions, lo, hi)
    ensures Drawn(regions, lo, mid) !! Drawn(regions, mid + 1, hi)
    ensures Nth(regions, mid).value !in Drawn(regions, mid + 1, hi) + Drawn(regions, lo, mid)
  {
    hide GoodMap, Nth;
    CallsExact(regions);
  }

  // ---- how many frames it takes ----

  /** The pages from `first` up to `end` can be mapped: all free, none under a huge page, and frames for all. */
  ghost predicate CanPrepare(first: nat, end: nat, huge: set<Table>, tables: set<Table>, mapped: set<nat>,
                             next: nat, supply: nat) {
    end <= first || (
      && (forall p :: first <= p < end ==> p !in mapped)
      && Paths(first, end) !! huge
      && next + (end - first) + |Paths(first, end) - tables| <= supply)
  }

  /** The pages from `first` up to `page` are mapped, at the cost of a frame each and one per missing table. */
  ghost predicate Prepared(first: nat, page: nat, huge: set<Table>, before: set<Table>, after: set<Table>,
                           mapped: set<nat>, lo: nat, hi: nat, supply: nat) {
    && first <= page && after == before + Paths(first, page)
    && hi == lo + (page - first) + |Paths(first, page) - before|
    && CanPrepare(first, page, huge, before, mapped, lo, supply)
  }

  lemma CountUnion<T>(a: set<T>, b: set<T>, c: set<T>)
    ensures |(a + b) - c| == |a - c| + |b - (c + a)|
  {
    assert (a + b) - c == (a - c) + (b - (c + a));
  }

  lemma PathsStep(first: nat, page: nat, had: set<Table>)
    requires first <= page
    ensures Paths(first, page + 1) == Paths(first, page) + Path(page)
    ensures |Paths(first, page + 1) - had| == |Paths(first, page) - had| + |Path(page) - (had + Paths(first, page))|
  {
    hide Path;
    CountUnion(Paths(first, page), Path(page), had);
  }

  lemma PathsGrow(first: nat, page: nat, end: nat, had: set<Table>)
    requires first <= page <= end
    ensures Paths(first, page) <= Paths(first, end) && |Paths(first, page) - had| <= |Paths(first, end) - had|
  {
    hide Path;
    forall t | t in Paths(first, page) ensures t in Paths(first, end) {
      PathsExact(first, page, t);
      PathsExact(first, end, t);
    }
    Fewer(Paths(first, page) - had, Paths(first, end) - had);
  }

  /** One page is mapped, at the cost of its frame and one per missing table. */
  ghost predicate Added(page: nat, huge: set<Table>, between: set<Table>, after: set<Table>, mapped: set<nat>,
                        mid: nat, hi: nat, supply: nat) {
    && Path(page) !! huge && page !in mapped && after == between + Path(page)
    && hi == mid + 1 + |Path(page) - between| <= supply
  }

  lemma PreparedStep(first: nat, page: nat, huge: set<Table>, before: set<Table>, between: set<Table>,
                     after: set<Table>, mapped: set<nat>, now: set<nat>, lo: nat, mid: nat, hi: nat, supply: nat)
    requires Prepared(first, page, huge, before, between, mapped, lo, mid, supply)
    requires Added(page, huge, between, after, now, mid, hi, supply) && (page in mapped ==> page in now)
    ensures Prepared(first, page + 1, huge, before, after, mapped, lo, hi, supply)
  {
    hide Path, Paths;
    PathsStep(first, page, before);
    PathsNone(first);
    assert Paths(first, page) !! huge;
    assert Paths(first, page + 1) !! huge;
    assert after == before + Paths(first, page + 1);
  }

  lemma PathsNone(first: nat)
    ensures Paths(first, first) == {}
  {}

  /** Why one page cannot be mapped. */
  ghost predicate Blocked(err: MapError, page: nat, huge: set<Table>, tables: set<Table>, mapped: map<nat, nat>,
                          next: nat, supply: nat) {
    match err
    case ParentEntryHugePage => Path(page) * huge != {}
    case PageAlreadyMapped(frame) => page in mapped && mapped[page] == frame
    case FrameAllocationFailed => next + 1 + |Path(page) - tables| > supply
  }

  /** Why the pages from `first` up to `end` cannot all be mapped. */
  ghost predicate Refused(err: MapError, first: nat, end: nat, huge: set<Table>, tables: set<Table>,
                          mapped: map<nat, nat>, next: nat, supply: nat) {
    match err
    case ParentEntryHugePage => exists p :: first <= p < end && Path(p) * huge != {}
    case PageAlreadyMapped(frame) => exists p :: first <= p < end && p in mapped && mapped[p] == frame
    case FrameAllocationFailed => first < end && next + (end - first) + |Paths(first, end) - tables| > supply
  }

  /** A page that cannot be mapped stops every range it belongs to. */
  lemma PreparedFails(err: MapError, first: nat, page: nat, end: nat, huge: set<Table>, before: set<Table>,
                      between: set<Table>, mapped: map<nat, nat>, lo: nat, mid: nat, supply: nat)
    requires Prepared(first, page, huge, before, between, mapped.Keys, lo, mid, supply) && page < end
    requires Blocked(err, page, huge, between, mapped, mid, supply)
    ensures Refused(err, first, end, huge, before, mapped, lo, supply)
    ensures !CanPrepare(first, end, huge, before, mapped.Keys, lo, supply)
  {
    hide Path, Paths;
    PathsStep(first, page, before);
    PathsGrow(first, page + 1, end, before);
    PathsGrow(first, page, end, before);
  }

  lemma BlockedBefore(err: MapError, page: nat, huge: set<Table>, tables: set<Table>, before: map<nat, nat>,
                      mapped: map<nat, nat>, next: nat, supply: nat)
    requires Blocked(err, page, huge, tables, mapped, next, supply)
    requires page in mapped ==> page in before && before[page] == mapped[page]
    ensures Blocked(err, page, huge, tables, before, next, supply)
  {
    hide Path;
  }

  lemma PreparedAll(first: nat, end: nat, huge: set<Table>, before: set<Table>, after: set<Table>,
                    mapped: set<nat>, lo: nat, hi: nat, supply: nat)
    requires Prepared(first, end, huge, before, after, mapped, lo, hi, supply)
    ensures CanPrepare(first, end, huge, before, mapped, lo, supply)
    ensures after == before + Paths(first, end) && hi == lo + (end - first) + |Paths(first, end) - before|
  {
    hide Paths;
  }

  lemma PreparedNothing(first: nat, huge: set<Table>, before: set<Table>, mapped: set<nat>, lo: nat, supply: nat)
    ensures Prepared(first, first, huge, before, before, mapped, lo, lo, supply)
  {
    assert Paths(first, first) == {} && {} - before == {};
  }

  /** One turn of the loop: a frame for the page, then its entry. */
  method MapNextFrame(mapper: Mapper, frames: BootInfoFrameAllocator, page: nat) returns (err: Option<MapError>)
    modifies mapper, frames
    ensures frames.next > old(frames.next)
    ensures TablesGrow(frames.regions, old(frames.next) + 1, frames.next, old(mapper.tables), mapper.tables)
    ensures err.None? ==>
      && Nth(frames.regions, old(frames.next)).Some? && page !in old(mapper.mapped)
      && mapper.mapped == old(mapper.mapped)[page := Nth(frames.regions, old(frames.next)).value]
      && Added(page, mapper.huge, old(mapper.tables).Keys, mapper.tables.Keys, old(mapper.mapped).Keys,
           old(frames.next), frames.next, Supply(frames.regions))
    ensures err.Some? ==>
      && mapper.mapped == old(mapper.mapped)
      && Blocked(err.value, page, mapper.huge, old(mapper.tables).Keys, old(mapper.mapped), old(frames.next),
           Supply(frames.regions))
    ensures err == Some(FrameAllocationFailed) ==> Nth(frames.regions, frames.next).None?
  {
    hide Drawn, Nth, Path, TablesGrow, Supply;
    SupplyExact(frames.regions, frames.next);
    SupplyExact(frames.regions, frames.next + 1);
    GrowNothing(frames.regions, frames.next + 1, mapper.tables);
    ghost var missing := Path(page) - mapper.tables.Keys;
    assert Path(page) <= mapper.tables.Keys ==> missing == {};
    var frame := frames.AllocateFrame();
    if frame.None? { return Some(FrameAllocationFailed); }
    err := mapper.MapTo(page, frame.value, frames);
  }

  /** What mapping the pages from `first` up to `page` leaves behind. */
  ghost predicate Entered(first: nat, page: nat, before: map<nat, nat>, mapped: map<nat, nat>) {
    && (forall p :: p in before ==> p in mapped && mapped[p] == before[p])
    && (forall p :: p in mapped && p !in before ==> first <= p < page)
  }

  lemma EnteredNothing(first: nat, mapped: map<nat, nat>)
    ensures Entered(first, first, mapped, mapped)
  {}

  lemma EnteredStep(first: nat, page: nat, end: nat, before: map<nat, nat>, mapped: map<nat, nat>, frame: nat)
    requires Entered(first, page, before, mapped) && first <= page < end
    ensures Entered(first, end, before, mapped)
    ensures page in mapped <==> page in before
    ensures page in mapped ==> before[page] == mapped[page]
    ensures page !in before ==> Entered(first, page + 1, before, mapped[page := frame])
  {}

  /** The loop over the page range. */
  method MapRange(mapper: Mapper, frames: BootInfoFrameAllocator, first: nat, end: nat) returns (err: Option<MapError>)
    requires GoodMap(frames.regions) && first <= end
    modifies mapper, frames
    ensures frames.next >= old(frames.next)
    ensures err.None? ==> Backed(frames.regions, old(frames.next), frames.next, first, end,
      mapper.mapped, old(mapper.tables), mapper.tables)
    ensures Entered(first, end, old(mapper.mapped), mapper.mapped)
    ensures TablesGrow(frames.regions, old(frames.next), frames.next, old(mapper.tables), mapper.tables)
    ensures err.None? <==> CanPrepare(first, end, mapper.huge, old(mapper.tables).Keys, old(mapper.mapped).Keys,
      old(frames.next), Supply(frames.regions))
    ensures err.None? ==> Prepared(first, end, mapper.huge, old(mapper.tables).Keys, mapper.tables.Keys,
      old(mapper.mapped).Keys, old(frames.next), frames.next, Supply(frames.regions))
    ensures err.Some? ==> Refused(err.value, first, end, mapper.huge, old(mapper.tables).Keys, old(mapper.mapped),
      old(frames.next), Supply(frames.regions))
    ensures err == Some(FrameAllocationFailed) ==> Nth(frames.regions, frames.next).None?
  {
    hide Drawn, Nth, GoodMap, Path, Paths, TablesGrow, Backed, Supply;
    hide Prepared, CanPrepare, Entered, Blocked, Refused, Added;
    ghost var lo, supply, before := frames.next, Supply(frames.regions), mapper.tables;
    ghost var had, entered, taken := before.Keys, mapper.mapped, mapper.mapped.Keys;
    GrowNothing(frames.regions, lo, before);
    BackedNothing(frames.regions, lo, first, mapper.mapped, before);
    PreparedNothing(first, mapper.huge, had, taken, lo, supply);
    EnteredNothing(first, mapper.mapped);
    var page := first;
    while page < end
      invariant first <= page <= end && frames.next >= lo
      invariant TablesGrow(frames.regions, lo, frames.next, before, mapper.tables)
      invariant Backed(frames.regions, lo, frames.next, first, page, mapper.mapped, before, mapper.tables)
      invariant Entered(first, page, entered, mapper.mapped)
      invariant Prepared(first, page, mapper.huge, had, mapper.tables.Keys, taken, lo, frames.next, supply)
    {
      ghost var mid, was, between := frames.next, mapper.mapped, mapper.tables;
      err := MapNextFrame(mapper, frames, page);
      GrowStep(frames.regions, lo, mid, frames.next, before, between, mapper.tables);
      if err.Some? {
        EnteredStep(first, page, end, entered, was, 0);
        BlockedBefore(err.value, page, mapper.huge, between.Keys, entered, was, mid, supply);
        PreparedFails(err.value, first, page, end, mapper.huge, had, between.Keys, entered, lo, mid, supply);
        return;
      }
      EnteredStep(first, page, end, entered, was, mapper.mapped[page]);
      PreparedStep(first, page, mapper.huge, had, between.Keys, mapper.tables.Keys, taken, was.Keys, lo, mid,
        frames.next, supply);
      BackedStep(frames.regions, lo, mid, frames.next, first, page, was, before, between, mapper.tables);
      page := page + 1;
    }
    PreparedAll(first, end, mapper.huge, had, mapper.tables.Keys, taken, lo, frames.next, supply);
    return None;
  }

  lemma GrowStep(regions: seq<Region>, lo: nat, mid: nat, hi: nat,
                 a: map<Table, nat>, b: map<Table, nat>, c: map<Table, nat>)
    requires lo <= mid < hi && TablesGrow(regions, lo, mid, a, b) && TablesGrow(regions, mid + 1, hi, b, c)
    ensures TablesGrow(regions, lo, hi, a, c)
  {
    hide Drawn;
    DrawnGrows(regions, lo, mid, hi);
    DrawnGrows(regions, lo, mid + 1, hi);
  }

  lemma BackedNothing(regions: seq<Region>, lo: nat, first: nat, mapped: map<nat, nat>, tables: map<Table, nat>)
    ensures Backed(regions, lo, lo, first, first, mapped, tables, tables)
  {}

  method PreparePages(mapper: Mapper, frames: BootInfoFrameAllocator, start: nat, size: nat)
      returns (err: Option<MapError>)
    requires GoodMap(frames.regions) && 0 < start + size <= LOWER_HALF
    modifies mapper, frames
    ensures err.None? && size > 0 ==>
      && (forall p: nat :: Touches(p, start, size) ==>
           && p in mapper.mapped && mapper.mapped[p] in Drawn(frames.regions, old(frames.next), frames.next)
           && IsUsable(frames.regions, mapper.mapped[p]))
      && (forall p: nat, q: nat :: Touches(p, start, size) && Touches(q, start, size) && p != q ==>
           mapper.mapped[p] != mapper.mapped[q])
      && (forall p: nat, t :: Touches(p, start, size) && t in mapper.tables && t !in old(mapper.tables) ==>
           mapper.mapped[p] != mapper.tables[t])
    ensures forall p :: p in old(mapper.mapped) ==> p in mapper.mapped && mapper.mapped[p] == old(mapper.mapped)[p]
    ensures forall p: nat :: p in mapper.mapped && p !in old(mapper.mapped) && size > 0 ==> Touches(p, start, size)
    ensures TablesGrow(frames.regions, old(frames.next), frames.next, old(mapper.tables), mapper.tables)
    ensures var first, end := start / PAGE, (start + size - 1) / PAGE + 1;
      && (err.None? <==> CanPrepare(first, end, mapper.huge, old(mapper.tables).Keys, old(mapper.mapped).Keys,
            old(frames.next), Supply(frames.regions)))
      && (err.None? ==>
            && mapper.tables.Keys == old(mapper.tables).Keys + Paths(first, end)
            && frames.next == old(frames.next) + (end - first) + |Paths(first, end) - old(mapper.tables).Keys|)
      && (err.Some? ==> Refused(err.value, first, end, mapper.huge, old(mapper.tables).Keys, old(mapper.mapped),
            old(frames.next), Supply(frames.regions)))
    ensures err == Some(FrameAllocationFailed) ==> Nth(frames.regions, frames.next).None?
  {
    hide Drawn, Nth, GoodMap, IsUsable, TablesGrow, CanPrepare, Prepared, Refused, Paths, Path, Supply;
    err := MapRange(mapper, frames, start / PAGE, (start + size - 1) / PAGE + 1);
    if err.None? {
      PreparedAll(start / PAGE, (start + size - 1) / PAGE + 1, mapper.huge, old(mapper.tables).Keys,
        mapper.tables.Keys, old(mapper.mapped).Keys, old(frames.next), frames.next, Supply(frames.regions));
    }
    DrawnUsable(frames.regions, old(frames.next), frames.next);
    if size > 0 {
      forall p: nat ensures Touches(p, start, size) <==> start / PAGE <= p <= (start + size - 1) / PAGE {
        RangeExact(p, start, size);
      }
    }
  }

  // ---- the kernel's own heap ----

  const HEAP_START: nat := 0x4444_4444_0000
  const HEAP_SIZE: nat := 2000 * 1024
  const HEAP_FIRST: nat := 0x4_4444_4440

  /** The tables that the heap's 500 pages pass through. */
  const HEAP_TABLES: set<Table> := {
    Table(1, 0x222_2222), Table(1, 0x222_2223), Table(2, 0x1_1111), Table(3, 0x88)}

  lemma PrefixExact(page: nat)
    ensures Prefix(page, 1) == page / 512 && Prefix(page, 2) == page / 512 / 512
    ensures Prefix(page, 3) == page / 512 / 512 / 512
  {
    assert Prefix(page, 0) == page;
  }

  lemma HeapPath(page: nat)
    requires HEAP_FIRST <= page < HEAP_FIRST + 500
    ensures Path(page) ==
      {Table(1, if page < 0x4_4444_4600 then 0x222_2222 else 0x222_2223), Table(2, 0x1_1111), Table(3, 0x88)}
  {
    hide Prefix;
    PrefixExact(page);
    assert page / 512 == if page < 0x4_4444_4600 then 0x222_2222 else 0x222_2223;
  }

  lemma HeapPaths()
    ensures Paths(HEAP_FIRST, HEAP_FIRST + 500) == HEAP_TABLES && |HEAP_TABLES| == 4
  {
    hide Path, Paths;
    HeapPath(HEAP_FIRST);
    HeapPath(HEAP_FIRST + 499);
    forall t ensures t in Paths(HEAP_FIRST, HEAP_FIRST + 500) <==> t in HEAP_TABLES {
      PathsExact(HEAP_FIRST, HEAP_FIRST + 500, t);
      if t in Paths(HEAP_FIRST, HEAP_FIRST + 500) {
        var p :| HEAP_FIRST <= p < HEAP_FIRST + 500 && t in Path(p);
        HeapPath(p);
      }
    }
  }

  /** In an empty address space the kernel's heap takes 504 frames: 500 pages and four tables. */
  lemma HeapNeeds(next: nat, supply: nat)
    ensures HEAP_START / PAGE == HEAP_FIRST && (HEAP_START + HEAP_SIZE - 1) / PAGE + 1 == HEAP_FIRST + 500
    ensures CanPrepare(HEAP_FIRST, HEAP_FIRST + 500, {}, {}, {}, next, supply) <==> next + 504 <= supply
  {
    hide Path, Paths;
    HeapPaths();
    assert HEAP_TABLES - {} == HEAP_TABLES;
  }
}
