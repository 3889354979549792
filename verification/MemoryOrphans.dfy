/** What a failed region split costs: a page left without a region is shared writable by fork. */
module MemoryOrphans {
  import opened Words
  import opened UserMemory
  import opened MemoryInvariant
  import opened MemorySteps

  /** fork_space copies an entry without a region unchanged, write permission included. */
  lemma {:induction false} OrphanCopied(s: State, src: Pid, dst: Pid, v: nat, p: nat)
    requires Sized(s) && src != dst && src in s.regions && v <= PAGES && p < PAGES && !SharedPde(p / 1024)
    requires Slot(src, p) in s.ptes && FindRegion(s.regions[src], p).None?
    requires v > p ==> Slot(dst, p) in s.ptes && s.ptes[Slot(dst, p)] == s.ptes[Slot(src, p)]
    ensures var (ok, t) := ForkPages(s, src, dst, v);
      ok ==> Slot(dst, p) in t.ptes && Slot(src, p) in t.ptes && t.pages == s.pages
             && t.ptes[Slot(dst, p)] == t.ptes[Slot(src, p)] == s.ptes[Slot(src, p)]
    decreases PAGES - v
  {
    if v >= PAGES {
    } else {
      if SharedPde(v / 1024) || Slot(src, v) !in s.ptes {
        OrphanCopied(s, src, dst, v + 1, p);
      } else {
        var (ok, t) := ForkPage(s, src, dst, v);
        if ok {
          OrphanCopied(t, src, dst, v + 1, p);
        }
      }
    }
  }

  /** Then a store by the child changes the parent's byte. */
  lemma OrphanLeaks(s: State, src: Pid, dst: Pid, p: nat, off: nat, b: Byte)
    requires Sized(s) && src != dst && src in s.regions && p < PAGES && !SharedPde(p / 1024) && off < PAGE
    requires Slot(src, p) in s.ptes && Writable(s, Slot(src, p)) && s.ptes[Slot(src, p)].frame < |s.pages|
    requires FindRegion(s.regions[src], p).None? && Fork(s, src, dst, true).0
    ensures var t := Fork(s, src, dst, true).1;
      && dst in t.regions && Store(t, Slot(dst, p), off, b).0
      && View(Store(t, Slot(dst, p), off, b).1, Slot(src, p)) == View(s, Slot(src, p))[off := b]
  {
    hide FindRegion, ForkPages;
    OrphanCopied(s.(low := s.low - 1, regions := s.regions[dst := s.regions[src]]), src, dst, 0, p);
  }

  // ---- an instance ----

  /** Process 0 has one private region of four pages, the third of them present and writable. */
  function Before(): State {
    State([true], [1], 0, 1, [Zeros()],
          map[Slot(0, 1026) := Pte(0, true, true, false, false)], {Table(0, 1)},
          map[0 := [Region(1024, 1028, true, false, false)]], 9, {})
  }

  /** Its second page is unmapped while the kernel is out of memory. */
  function After(): State {
    Unmap(Before(), 0, 1025, 1026, false)
  }

  lemma BeforeOk()
    ensures Inv(Before())
  {
    var s := Before();
    assert Refs(s.ptes, 0) == {Slot(0, 1026)};
    assert s.regions[0][1..] == [];
  }

  lemma AfterIs()
    ensures After() == Before().(regions := map[0 := [Region(1024, 1025, true, false, false)]])
  {
    var s := Before();
    assert FreePages(s, 0, 1025, 1026) == s;
    var rs := [Region(1024, 1025, true, false, false)];
    assert Cut(s.regions[0], 1025, 1026, false) == rs + [] + [] == rs;
    assert s.regions[0 := rs] == map[0 := rs];
  }

  /** The split fails, the page is orphaned, and the child's store reaches the parent. */
  lemma SplitFailureLeaks()
    ensures Inv(Before()) && !Inv(After())
    ensures Fork(After(), 0, 1, true).0 && 1 in Fork(After(), 0, 1, true).1.regions
    ensures var t := Fork(After(), 0, 1, true).1;
      && View(t, Slot(0, 1026))[7] == 0
      && View(Store(t, Slot(1, 1026), 7, 42).1, Slot(0, 1026))[7] == 42
  {
    BeforeOk();
    AfterIs();
    var s := After();
    if Inv(s) {
      EntryAt(s, Slot(0, 1026));
    }
    ForkSucceeds();
    OrphanLeaks(s, 0, 1, 1026, 7, 42);
    OrphanCopied(s.(low := s.low - 1, regions := s.regions[1 := s.regions[0]]), 0, 1, 0, 1026);
  }

  lemma ForkSucceeds()
    ensures Fork(After(), 0, 1, true).0
  {
    AfterIs();
    var s := After();
    var t := s.(low := s.low - 1, regions := s.regions[1 := s.regions[0]]);
    hide ForkPages;
    SkipFork(t, 0, 1, 0, 1026);
    ForkStep(t);
    var u := ForkPage(t, 0, 1, 1026).1;
    SkipFork(u, 0, 1, 1027, PAGES);
    ForkEnd(u);
  }

  lemma ForkStep(t: State)
    requires Sized(t) && 0 in t.regions && Slot(0, 1026) in t.ptes
    ensures ForkPages(t, 0, 1, 1026)
         == var (ok, u) := ForkPage(t, 0, 1, 1026); if ok then ForkPages(u, 0, 1, 1027) else (false, u)
  {
    hide ForkPage;
  }

  lemma ForkEnd(u: State)
    requires Sized(u) && 0 in u.regions
    ensures ForkPages(u, 0, 1, PAGES).0
  {
  }
}
