/** Where do_mmap puts a mapping whose place the caller leaves open: the search runs down from
    MMAP_TOP in unsigned 32-bit arithmetic. It finds the highest free place exactly when no step
    of it goes below address zero. */
module MemoryPlaces {
  import opened Wrappers
  import opened UserMemory
  import opened MemoryInvariant
  import opened MemorySteps
  import opened MemoryRegions

  const MMAP_TOP: nat := 0x6_0000
  /** A request may not be longer than 0x40000000 bytes. */
  const MAX_LEN: nat := 0x4_0000

  /** The lowest page at or above the break and the user base. */
  function Floor(brk: nat): nat {
    var b := (brk + PAGE - 1) / PAGE;
    if b < USER_FIRST then USER_FIRST else b
  }

  lemma FloorIs(brk: nat, start: nat)
    ensures start < Floor(brk) <==> start * PAGE < brk || start < USER_FIRST
  {
  }

  /** The region is in the way of pages start up to end. */
  predicate Blocks(r: Region, start: nat, end: nat) {
    r.lo < end && r.hi > start
  }

  predicate Free(rs: seq<Region>, start: nat, len: nat) {
    forall r :: r in rs ==> !Blocks(r, start, start + len)
  }

  /** The start of a mapping that ends at end, as the unsigned subtraction gives it. */
  function StartOf(end: nat, len: nat): nat {
    (end + PAGES - len % PAGES) % PAGES
  }

  /** The first region of the list that is in the way. */
  function Blocker(rs: seq<Region>, start: nat, end: nat): (r: Option<Region>)
    ensures r.Some? ==> r.value in rs && Blocks(r.value, start, end)
    ensures r.None? ==> forall g :: g in rs ==> !Blocks(g, start, end)
  {
    if rs == [] then None else if Blocks(rs[0], start, end) then Some(rs[0]) else Blocker(rs[1..], start, end)
  }

  /** The search from the place that ends at end; start + len is end again, in 32 bits. */
  function Search(rs: seq<Region>, len: nat, floor: nat, end: nat): Option<nat>
    decreases end
  {
    var start := StartOf(end, len);
    if start < floor then None
    else
      match Blocker(rs, start, end)
      case None => Some(start)
      case Some(r) => Search(rs, len, floor, r.lo)
  }

  /** Some step of the search subtracts the length from a smaller address. */
  predicate Wraps(rs: seq<Region>, len: nat, floor: nat, end: nat)
    decreases end
  {
    if end < len then true
    else if end - len < floor then false
    else
      match Blocker(rs, end - len, end)
      case None => false
      case Some(r) => Wraps(rs, len, floor, r.lo)
  }

  /** The highest free place between floor and end, or none if there is none. */
  ghost predicate Highest(rs: seq<Region>, len: nat, floor: nat, end: nat, r: Option<nat>) {
    && (r.Some? ==> floor <= r.value && r.value + len <= end && Free(rs, r.value, len))
    && (r.Some? ==> forall p: nat :: p > r.value && p + len <= end ==> !Free(rs, p, len))
    && (r.None? ==> forall p: nat :: floor <= p && p + len <= end ==> !Free(rs, p, len))
  }

  lemma StartPlain(end: nat, len: nat)
    requires 0 < len <= MAX_LEN && end <= PAGES
    ensures len <= end ==> StartOf(end, len) == end - len
    ensures end < len ==> StartOf(end, len) == PAGES + end - len
  {
  }

  lemma SumBack(end: nat, len: nat)
    requires 0 < len <= MAX_LEN && end <= MMAP_TOP
    ensures (StartOf(end, len) + len) % PAGES == end
  {
    StartPlain(end, len);
  }

  /** No place above the blocking region is free. */
  lemma Skipped(rs: seq<Region>, len: nat, start: nat, r: Region, p: nat)
    requires r in rs && Blocks(r, start, start + len) && p <= start && p + len > r.lo
    ensures !Free(rs, p, len)
  {
    assert Blocks(r, p, p + len);
  }

  lemma {:induction false} SearchFinds(rs: seq<Region>, len: nat, floor: nat, end: nat)
    requires 0 < len <= MAX_LEN && end <= MMAP_TOP && !Wraps(rs, len, floor, end)
    ensures Highest(rs, len, floor, end, Search(rs, len, floor, end))
    decreases end
  {
    hide Free;
    StartPlain(end, len);
    var start := end - len;
    if start < floor {
    } else {
      match Blocker(rs, start, end) {
        case None => assert Free(rs, start, len) by { FreeAt(rs, start, len); }
        case Some(r) =>
          SearchFinds(rs, len, floor, r.lo);
          forall p: nat | p + len <= end && p + len > r.lo
            ensures !Free(rs, p, len)
          {
            Skipped(rs, len, start, r, p);
          }
      }
    }
  }

  lemma FreeAt(rs: seq<Region>, start: nat, len: nat)
    requires Blocker(rs, start, start + len).None?
    ensures Free(rs, start, len)
  {
  }

  /** Once below zero, every place tried lies above the user's addresses. */
  lemma {:induction false} SearchAbove(rs: seq<Region>, len: nat, floor: nat, end: nat)
    requires 0 < len <= MAX_LEN && end < len && floor + len <= MMAP_TOP
    ensures var r := Search(rs, len, floor, end); r.Some? && r.value >= PAGES - MAX_LEN
    decreases end
  {
    StartPlain(end, len);
    match Blocker(rs, StartOf(end, len), end) {
      case None =>
      case Some(r) => SearchAbove(rs, len, floor, r.lo);
    }
  }

  lemma {:induction false} SearchWraps(rs: seq<Region>, len: nat, floor: nat, end: nat)
    requires 0 < len <= MAX_LEN && end <= MMAP_TOP && floor + len <= MMAP_TOP && Wraps(rs, len, floor, end)
    ensures var r := Search(rs, len, floor, end); r.Some? && r.value >= PAGES - MAX_LEN
    ensures forall p: nat :: floor <= p && p + len <= end ==> !Free(rs, p, len)
    decreases end
  {
    hide Free;
    StartPlain(end, len);
    if end < len {
      SearchAbove(rs, len, floor, end);
    } else {
      var r := Blocker(rs, end - len, end).value;
      SearchWraps(rs, len, floor, r.lo);
      forall p: nat | floor <= p && p + len <= end && p + len > r.lo
        ensures !Free(rs, p, len)
      {
        Skipped(rs, len, end - len, r, p);
      }
    }
  }

  /** The place do_mmap finds is the highest free one, and none is found only if there is none,
      exactly when the search does not go below zero. */
  lemma PlaceExact(rs: seq<Region>, len: nat, floor: nat)
    requires 0 < len <= MAX_LEN
    ensures Highest(rs, len, floor, MMAP_TOP, Search(rs, len, floor, MMAP_TOP)) <==> !Wraps(rs, len, floor, MMAP_TOP)
  {
    if Wraps(rs, len, floor, MMAP_TOP) {
      SearchWraps(rs, len, floor, MMAP_TOP);
    } else {
      SearchFinds(rs, len, floor, MMAP_TOP);
    }
  }

  /** It goes below zero only when no free place is left. */
  lemma WrapsWhenFull(rs: seq<Region>, len: nat, floor: nat)
    requires 0 < len <= MAX_LEN && Wraps(rs, len, floor, MMAP_TOP)
    ensures forall p: nat :: floor <= p && p + len <= MMAP_TOP ==> !Free(rs, p, len)
  {
    SearchWraps(rs, len, floor, MMAP_TOP);
  }

  /** It cannot when every region that reaches above the floor starts no lower than the length. */
  lemma {:induction false} HighRegions(rs: seq<Region>, len: nat, floor: nat, end: nat)
    requires len <= end && forall r :: r in rs && r.hi > floor ==> r.lo >= len
    ensures !Wraps(rs, len, floor, end)
    decreases end
  {
    if end - len < floor {
    } else {
      match Blocker(rs, end - len, end) {
        case None =>
        case Some(r) => HighRegions(rs, len, floor, r.lo);
      }
    }
  }

  /** It does when the first region in the way starts below the length. */
  lemma LowRegion(rs: seq<Region>, len: nat, floor: nat)
    requires 0 < len && floor + len <= MMAP_TOP
    requires var r := Blocker(rs, MMAP_TOP - len, MMAP_TOP); r.Some? && r.value.lo < len
    ensures Wraps(rs, len, floor, MMAP_TOP)
  {
  }

  /** Whether it does is no matter of which regions there are: the same two, listed in one order and in the other. */
  lemma OrderMatters(floor: nat)
    requires 0x100 < floor <= 0x1000
    ensures var a, b := Region(0x1000, 0x4_0000, true, false, false), Region(0x4_0100, 0x6_0000, true, false, false);
      Wraps([a, b], MAX_LEN, floor, MMAP_TOP) && !Wraps([b, a], MAX_LEN, floor, MMAP_TOP)
  {
    var a, b := Region(0x1000, 0x4_0000, true, false, false), Region(0x4_0100, 0x6_0000, true, false, false);
    assert Blocker([a, b], 0x2_0000, MMAP_TOP) == Some(a);
    assert Blocker([b, a], 0x2_0000, MMAP_TOP) == Some(b);
    assert Wraps([a, b], MAX_LEN, floor, 0x1000);
    assert !Wraps([b, a], MAX_LEN, floor, 0x4_0100);
  }

  /** So for a request of up to four megabytes the search always does what it should. */
  lemma SmallRequests(rs: seq<Region>, len: nat, floor: nat)
    requires RegionsOk(rs) && 0 < len <= USER_FIRST
    ensures Highest(rs, len, floor, MMAP_TOP, Search(rs, len, floor, MMAP_TOP))
  {
    hide Highest, Search, Wraps;
    HighRegions(rs, len, floor, MMAP_TOP);
    PlaceExact(rs, len, floor);
  }

  /** Two requests of the greatest length: there is no room for the second, yet a place is found. */
  lemma SecondLongest(brk: nat)
    requires brk <= 0x0100_0000
    ensures Search([], MAX_LEN, Floor(brk), MMAP_TOP) == Some(0x2_0000)
    ensures Search([Region(0x2_0000, 0x6_0000, true, false, false)], MAX_LEN, Floor(brk), MMAP_TOP) == Some(0xE_0000)
  {
    var r := Region(0x2_0000, 0x6_0000, true, false, false);
    assert Blocker([r], 0x2_0000, MMAP_TOP) == Some(r);
    assert Search([r], MAX_LEN, Floor(brk), 0x2_0000) == Some(0xE_0000) by {
      assert StartOf(0x2_0000, MAX_LEN) == 0xE_0000;
    }
  }

  // ---- the mapping at the place found ----

  lemma {:induction false} CutNothing(rs: seq<Region>, lo: nat, hi: nat, km: bool)
    requires forall r :: r in rs ==> !Blocks(r, lo, hi)
    ensures Cut(rs, lo, hi, km) == rs
  {
    if rs == [] {
    } else {
      assert !Blocks(rs[0], lo, hi);
      CutNothing(rs[1..], lo, hi, km);
      assert rs == [rs[0]] + rs[1..];
    }
  }

  lemma {:induction false} FreeNothing(s: State, pid: Pid, lo: nat, hi: nat)
    requires Sized(s) && forall v: nat :: lo <= v < hi ==> Slot(pid, v) !in s.ptes
    ensures FreePages(s, pid, lo, hi) == s
    decreases hi - lo
  {
    if lo >= hi {
    } else {
      assert Slot(pid, lo) !in s.ptes;
      FreeNothing(s, pid, lo + 1, hi);
    }
  }

  lemma NotInFree(rs: seq<Region>, lo: nat, hi: nat, km: bool, v: nat)
    requires lo <= hi && Free(rs, lo, hi - lo)
    ensures (lo <= v < hi ==> FindRegion(rs, v).None?) && !Lost(FindRegion(rs, v), lo, hi, km, v)
  {
    var g := FindRegion(rs, v);
    assert g.Some? ==> !Blocks(g.value, lo, hi);
  }

  /** A free place holds no page, so there is nothing to unmap there. */
  lemma UnmapNothing(s: State, pid: Pid, lo: nat, hi: nat, km: bool)
    requires Inv(s) && pid in s.regions && lo <= hi && Free(s.regions[pid], lo, hi - lo)
    ensures Sized(s) && Unmap(s, pid, lo, hi, km) == s && !Orphans(s, pid, lo, hi, km)
  {
    hide Cut, FreePages, Inv, FindRegion;
    InvSized(s);
    var rs := s.regions[pid];
    CutNothing(rs, lo, hi, km);
    forall v: nat
      ensures (lo <= v < hi ==> Slot(pid, v) !in s.ptes) && !Lost(FindRegion(rs, v), lo, hi, km, v)
    {
      NotInFree(rs, lo, hi, km, v);
      if Slot(pid, v) in s.ptes {
        EntryAt(s, Slot(pid, v));
      }
    }
    FreeNothing(s, pid, lo, hi);
  }

  /** do_mmap with an open place, on success of the search: no range is unmapped first. */
  function Fill(s: State, pid: Pid, g: Region, split: bool, km: bool): (r: (bool, State))
    requires Sized(s) && pid in s.regions
    ensures Sized(r.1)
  {
    if !km then (false, s)
    else
      var u := s.(regions := s.regions[pid := Insert(s.regions[pid], g)]);
      if !g.shared then (true, u)
      else
        var (ok, x) := AllocPages(u, pid, g.lo, g.hi, g.w, g.x);
        if ok then (true, x) else (false, Unmap(x, pid, g.lo, g.hi, split))
  }

  /** A search that stays above zero and finds a place gives a mapping there that disturbs nothing. */
  lemma AnywhereOk(s: State, pid: Pid, len: nat, brk: nat, w: bool, x: bool, shared: bool, split: bool, km: bool)
    requires Inv(s) && pid in s.regions && 0 < len <= MAX_LEN
    requires !Wraps(s.regions[pid], len, Floor(brk), MMAP_TOP)
    requires Search(s.regions[pid], len, Floor(brk), MMAP_TOP).Some?
    ensures Sized(s)
    ensures var at := Search(s.regions[pid], len, Floor(brk), MMAP_TOP).value;
      var g := Region(at, at + len, w, x, shared);
      var (ok, t) := Fill(s, pid, g, split, km);
      Free(s.regions[pid], at, len) && (ok, t) == Mmap(s, pid, g, split, km) && Mapped(s, t, pid, g, ok)
  {
    hide Inv, Search, Wraps, Unmap, AllocPages, Insert, Mapped, Orphans, Free;
    InvSized(s);
    var at := Search(s.regions[pid], len, Floor(brk), MMAP_TOP).value;
    SearchFinds(s.regions[pid], len, Floor(brk), MMAP_TOP);
    var g := Region(at, at + len, w, x, shared);
    UnmapNothing(s, pid, g.lo, g.hi, split);
    MmapOk(s, pid, g, split, km);
  }

  lemma FillPrivate(s: State, pid: Pid, g: Region, split: bool)
    requires Sized(s) && pid in s.regions && !g.shared
    ensures Fill(s, pid, g, split, true).0
  {
  }

  /** A mapping that fails at a free place changes nothing any process reads. */
  lemma FailQuiet(s: State, t: State, pid: Pid, g: Region)
    requires Inv(s) && pid in s.regions && g.lo <= g.hi && Free(s.regions[pid], g.lo, g.hi - g.lo)
      && Mapped(s, t, pid, g, false)
    ensures Inv(t) && SameViews(s, t)
  {
    hide Inv, FindRegion, NoNewRights, LowPages;
    forall k: Slot
      ensures View(t, k) == View(s, k)
    {
      if k.pid == pid && In(g, k.page) {
        NotInFree(s.regions[pid], g.lo, g.hi, true, k.page);
        if k in s.ptes {
          EntryAt(s, k);
        }
      }
    }
  }

  // ---- the loops ----

  lemma {:induction false} BlockerSkips(rs: seq<Region>, start: nat, end: nat, i: nat)
    requires i < |rs| && Blocker(rs, start, end) == Blocker(rs[i..], start, end) && !Blocks(rs[i], start, end)
    ensures Blocker(rs, start, end) == Blocker(rs[i + 1..], start, end)
  {
    assert rs[i..][0] == rs[i] && rs[i..][1..] == rs[i + 1..];
  }

  /** The search as do_mmap runs it: start over from the list's head after every move. */
  method FindPlace(rs: seq<Region>, len: nat, brk: nat) returns (place: Option<nat>)
    requires 0 < len <= MAX_LEN
    ensures place == Search(rs, len, Floor(brk), MMAP_TOP)
    ensures Highest(rs, len, Floor(brk), MMAP_TOP, place) <==> !Wraps(rs, len, Floor(brk), MMAP_TOP)
  {
    hide Blocker, Highest, Floor, Wraps, Search, StartOf;
    ghost var end: nat := MMAP_TOP;
    var start: nat := MMAP_TOP - len;
    PlaceExact(rs, len, Floor(brk));
    StartPlain(MMAP_TOP, len);
    while true
      invariant end <= MMAP_TOP && start == StartOf(end, len)
      invariant Search(rs, len, Floor(brk), MMAP_TOP) == Search(rs, len, Floor(brk), end)
      decreases end
    {
      FloorIs(brk, start);
      SearchStep(rs, len, Floor(brk), end);
      if start * PAGE < brk || start < USER_FIRST {
        return None;
      }
      var i: nat, moved := 0, false;
      ghost var was: nat := end;
      assert rs[0..] == rs;
      while i < |rs| && !moved
        invariant i <= |rs|
        invariant !moved ==>
          end == was && start == StartOf(end, len) && Blocker(rs, start, was) == Blocker(rs[i..], start, was)
        invariant moved ==> end < was && start == StartOf(end, len)
                            && Search(rs, len, Floor(brk), was) == Search(rs, len, Floor(brk), end)
        decreases |rs| - i, !moved
      {
        SumBack(end, len);
        if rs[i].lo < (start + len) % PAGES && rs[i].hi > start {
          BlockerHits(rs, start, was, i);
          StartNext(rs[i].lo, len);
          end := rs[i].lo;
          start := (rs[i].lo + PAGES - len) % PAGES;
          moved := true;
        } else {
          BlockerSkips(rs, start, was, i);
          i := i + 1;
        }
      }
      if !moved {
        assert Blocker(rs, start, was).None? by { BlockerEnds(rs, start, was); }
        return Some(start);
      }
    }
  }

  lemma SearchStep(rs: seq<Region>, len: nat, floor: nat, end: nat)
    ensures var start, r := StartOf(end, len), Search(rs, len, floor, end);
      && (start < floor ==> r == None)
      && (start >= floor ==>
            match Blocker(rs, start, end)
            case None => r == Some(start)
            case Some(b) => r == Search(rs, len, floor, b.lo))
  {
    hide Blocker, StartOf;
  }

  lemma StartNext(end: nat, len: nat)
    requires len <= MAX_LEN
    ensures (end + PAGES - len) % PAGES == StartOf(end, len)
  {
  }

  lemma BlockerHits(rs: seq<Region>, start: nat, end: nat, i: nat)
    requires i < |rs| && Blocker(rs, start, end) == Blocker(rs[i..], start, end) && Blocks(rs[i], start, end)
    ensures Blocker(rs, start, end) == Some(rs[i])
  {
    assert rs[i..][0] == rs[i];
  }

  lemma BlockerEnds(rs: seq<Region>, start: nat, end: nat)
    requires Blocker(rs, start, end) == Blocker(rs[|rs|..], start, end)
    ensures Blocker(rs, start, end).None?
  {
    assert rs[|rs|..] == [];
  }
}
