/** malloc, free and realloc: live blocks stay apart and keep their contents, and nothing that sbrk
    returned is lost. Memory has one cell per address; a header word sits in the cell of its first byte. */
module Malloc {
  import opened FreeList
  import opened Heap

  /** Everything the three functions keep, over any sequence of calls. */
  ghost predicate Sane(l: Lst, free: seq<Blk>, live: seq<Blk>, start: nat, brk: nat, limit: nat) {
    && 16 <= start <= brk <= limit && start % 8 == 0 && brk % 8 == 0
    && Cells(l.mem, start, limit)
    && Ordered(free) && Within(free, start, brk) && Within(live, start, brk)
    && Chained(l.mem, l.head, free) && InUse(l.mem, live, free)
    && Sum(free) + Sum(live) == brk - start
  }

  ghost predicate Cells(mem: map<nat, nat>, start: nat, limit: nat) {
    forall a: nat :: start <= a < limit ==> a in mem
  }

  /** The cells of every live block are the same. */
  lemma KeepsLive(m: map<nat, nat>, n: map<nat, nat>, fs: seq<Blk>, b: Blk, live: seq<Blk>)
    requires KeepsOthers(m, n, fs, b) && forall i :: 0 <= i < |live| ==> AllApart(live[i], fs) && Apart(live[i], b)
    ensures SameBlocks(m, n, live)
  {
    hide AllApart, Apart, SameBlock;
  }

  lemma UseKept(m: map<nat, nat>, n: map<nat, nat>, live: seq<Blk>, free: seq<Blk>, gs: seq<Blk>)
    requires InUse(m, live, free) && SameBlocks(m, n, live)
    requires forall i :: 0 <= i < |live| ==> AllApart(live[i], gs)
    ensures InUse(n, live, gs)
  {
    hide Apart, AllApart;
    forall i | 0 <= i < |live|
      ensures live[i].at in n && n[live[i].at] == live[i].size
    {
      assert SameBlock(m, n, live[i]);
      LargeOne(live[i]);
    }
    hide Sound;
  }

  lemma UseAdd(m: map<nat, nat>, live: seq<Blk>, free: seq<Blk>, b: Blk)
    requires InUse(m, live, free) && Sound(b) && b.at in m && m[b.at] == b.size && AllApart(b, free)
    requires forall i :: 0 <= i < |live| ==> Apart(live[i], b)
    ensures InUse(m, live + [b], free)
  {
    hide Apart, AllApart, Sound;
  }

  // ---- malloc from the list ----

  lemma TakeSane(l: Lst, t: Lst, free: seq<Blk>, live: seq<Blk>, start: nat, brk: nat, limit: nat, k: nat, need: nat)
    requires Sane(l, free, live, start, brk, limit) && k < |free| && free[k].size >= need && need % 8 == 0 && need >= 16
    requires Chained(t.mem, t.head, Carve(free, k, need)) && KeepsOthers(l.mem, t.mem, free, free[k])
    requires free[k].at in t.mem && t.mem[free[k].at] == Carved(free[k], need).size
    ensures Sane(t, Carve(free, k, need), live + [Carved(free[k], need)], start, brk, limit)
    ensures SameBlocks(l.mem, t.mem, live)
  {
    hide Chained, Sum, Sound;
    var gs, b := Carve(free, k, need), Carved(free[k], need);
    CarveSum(free, k, need);
    SumConcat(live, [b]);
    OneSum(b);
    CarveOrdered(free, k, need);
    CarveApart(free, k, need, b);
    forall i | 0 <= i < |live|
      ensures AllApart(live[i], gs) && Apart(live[i], b) && Apart(live[i], free[k])
    {
      CarveApart(free, k, need, live[i]);
      assert AllApart(live[i], free);
    }
    hide Carve, Ordered, AllApart, Apart;
    KeepsLive(l.mem, t.mem, free, free[k], live);
    UseKept(l.mem, t.mem, live, free, gs);
    UseAdd(t.mem, live, gs, b);
    CarveWithin(free, k, need, start, brk);
  }

  lemma OneSum(b: Blk)
    ensures Sum([b]) == b.size
  {
    assert Sum([]) == 0;
  }

  lemma CarveWithin(free: seq<Blk>, k: nat, need: nat, lo: nat, hi: nat)
    requires Within(free, lo, hi) && k < |free| && free[k].size >= need
    ensures Within(Carve(free, k, need), lo, hi) && lo <= free[k].at && EndOf(Carved(free[k], need)) <= hi
  {
  }

  // ---- malloc from sbrk ----

  lemma GrowSane(l: Lst, free: seq<Blk>, live: seq<Blk>, start: nat, brk: nat, limit: nat, need: nat)
    requires Sane(l, free, live, start, brk, limit) && need % 8 == 0 && need >= 16 && brk + need <= limit
    ensures var t := l.(mem := l.mem[brk := need][brk + 4 := 0]);
      Sane(t, free, live + [Blk(brk, need)], start, brk + need, limit) && SameBlocks(l.mem, t.mem, live)
  {
    hide Sum, InUse, Ordered, SameBlocks, Within, Chained, AllApart;
    var t, b := l.(mem := l.mem[brk := need][brk + 4 := 0]), Blk(brk, need);
    Eight(brk, need);
    SumConcat(live, [b]);
    OneSum(b);
    GrowWithin(free, live, b, start);
    GrowChained(l, free, b, start);
    GrowUse(l.mem, t.mem, free, live, b, start, brk);
  }

  lemma GrowWithin(free: seq<Blk>, live: seq<Blk>, b: Blk, start: nat)
    requires start <= b.at && Within(free, start, b.at) && Within(live, start, b.at)
    ensures Within(free, start, EndOf(b)) && Within(live + [b], start, EndOf(b)) && AllApart(b, free)
  {
  }

  lemma GrowChained(l: Lst, free: seq<Blk>, b: Blk, start: nat)
    requires Chained(l.mem, l.head, free) && Ordered(free) && Within(free, start, b.at)
    ensures Chained(l.mem[b.at := b.size][b.at + 4 := 0], l.head, free)
  {
    hide Ordered;
    forall i | 0 <= i < |free|
      ensures Header(l.mem[b.at := b.size][b.at + 4 := 0], free[i], Link(free, i + 1))
    {
      HeaderAt(l, free, i);
      Large(free, i);
    }
  }

  lemma GrowUse(m: map<nat, nat>, n: map<nat, nat>, free: seq<Blk>, live: seq<Blk>, b: Blk, start: nat, brk: nat)
    requires InUse(m, live, free) && Within(live, start, brk) && b.at == brk && b.size >= 16
    requires n == m[brk := b.size][brk + 4 := 0] && AllApart(b, free) && Sound(b)
    ensures InUse(n, live + [b], free) && SameBlocks(m, n, live)
  {
    assert SameBlocks(m, n, live);
    UseKept(m, n, live, free, free);
    UseAdd(n, live, free, b);
  }

  // ---- free ----

  lemma PutSane(l: Lst, t: Lst, free: seq<Blk>, live: seq<Blk>, start: nat, brk: nat, limit: nat, i: nat)
    requires Sane(l, free, live, start, brk, limit) && i < |live|
    requires Chained(t.mem, t.head, Release(free, live[i])) && KeepsOthers(l.mem, t.mem, free, live[i])
    ensures Sane(t, Release(free, live[i]), live[..i] + live[i + 1..], start, brk, limit)
    ensures SameBlocks(l.mem, t.mem, live[..i] + live[i + 1..])
  {
    hide Chained, Sum, Sound, Release;
    var b, rest := live[i], live[..i] + live[i + 1..];
    var gs := Release(free, b);
    ReleaseSum(free, b);
    assert live == live[..i] + [b] + live[i + 1..];
    SumMiddle(live[..i], b, live[i + 1..]);
    SumConcat(live[..i], live[i + 1..]);
    ReleaseOrdered(free, b);
    forall j | 0 <= j < |rest|
      ensures Sound(rest[j]) && AllApart(rest[j], free) && AllApart(rest[j], gs) && Apart(rest[j], b)
    {
      var m := if j < i then j else j + 1;
      assert rest[j] == live[m] && Apart(live[if m < i then m else i], live[if m < i then i else m]);
      ReleaseApart(free, b, rest[j]);
    }
    KeepsLive(l.mem, t.mem, free, b, rest);
    LessUse(l.mem, live, free, i);
    UseKept(l.mem, t.mem, rest, free, gs);
    ReleaseWithin(free, b, start, brk);
  }

  lemma LessUse(m: map<nat, nat>, live: seq<Blk>, free: seq<Blk>, i: nat)
    requires InUse(m, live, free) && i < |live|
    ensures InUse(m, live[..i] + live[i + 1..], free)
  {
    hide Apart, AllApart, Sound;
    var rest := live[..i] + live[i + 1..];
    assert forall j :: 0 <= j < |rest| ==> rest[j] == live[if j < i then j else j + 1];
  }

  lemma ReleaseWithin(fs: seq<Blk>, b: Blk, lo: nat, hi: nat)
    requires Within(fs, lo, hi) && lo <= b.at && EndOf(b) <= hi
    ensures Within(Release(fs, b), lo, hi)
  {
  }

  // ---- the three functions ----

  /** The blocks without the i-th. */
  function Others(bs: seq<Blk>, i: nat): seq<Blk>
    requires i < |bs|
  {
    bs[..i] + bs[i + 1..]
  }

  class Arena {
    var l: Lst
    var brk: nat
    const start: nat
    const limit: nat
    ghost var free: seq<Blk>
    ghost var live: seq<Blk>

    ghost predicate Valid()
      reads this
    {
      Sane(l, free, live, start, brk, limit)
    }

    /** The cells of these blocks are the same as before. */
    twostate predicate Kept(bs: seq<Blk>)
      reads this
    {
      SameBlocks(old(l).mem, l.mem, bs)
    }

    constructor (start: nat, limit: nat)
      requires 16 <= start <= limit && start % 8 == 0
      ensures Valid() && live == [] && free == []
    {
      this.start, this.limit, brk := start, limit, start;
      l := Lst(map a: nat | a < limit && Between(start, a, limit) :: 0, 0);
      free, live := [], [];
      new;
      assert forall a: nat :: start <= a < limit ==> Between(start, a, limit);
    }

    /** malloc: first fit, else sbrk, which moves the break up to the limit. */
    method Malloc(n: nat) returns (p: nat)
      requires Valid()
      modifies this
      ensures Valid() && Kept(old(live))
      ensures p == 0 ==> live == old(live) && l == old(l) && free == old(free) && brk == old(brk)
      ensures p != 0 ==> exists b: Blk :: live == old(live) + [b] && p == b.at + HEADER && b.size >= n + HEADER
      ensures p == 0 <==>
        n > 0x7FFF_FFF0 || (FirstFit(old(free), Needed(n), 0) == |old(free)| && old(brk) + Needed(n) > limit)
    {
      hide Sane, SameBlocks, Chained, Ordered, KeepsOthers, Carve;
      SelfSame(l.mem, live);
      if n > 0x7FFF_FFF0 {
        return 0;
      }
      var need := Needed(n);
      SaneParts(l, free, live, start, brk, limit);
      var t, b := TakeFit(l, free, need);
      if b != 0 {
        ghost var k := FirstFit(free, need, 0);
        TakeSane(l, t, free, live, start, brk, limit, k, need);
        l, free, live := t, Carve(free, k, need), live + [Carved(free[k], need)];
        return b + HEADER;
      }
      if brk + need > limit {
        return 0;
      }
      GrowSane(l, free, live, start, brk, limit, need);
      b := brk;
      live := live + [Blk(b, need)];
      l, brk := l.(mem := l.mem[b := need][b + 4 := 0]), brk + need;
      return b + HEADER;
    }

    /** free: i is where the block stands among the live ones. */
    method Free(p: nat, ghost i: nat)
      requires Valid() && (p != 0 ==> i < |live| && p == live[i].at + HEADER)
      modifies this
      ensures Valid() && brk == old(brk)
      ensures p == 0 ==> l == old(l) && live == old(live) && free == old(free)
      ensures p != 0 ==> live == Others(old(live), i) && free == Release(old(free), old(live)[i])
      ensures Kept(live)
    {
      hide Sane, SameBlocks, Chained, Ordered, KeepsOthers, Release;
      SelfSame(l.mem, live);
      if p == 0 {
        return;
      }
      SaneParts(l, free, live, start, brk, limit);
      SaneLive(l, free, live, start, brk, limit, i);
      var t := PutBack(l, p - HEADER, free, live[i]);
      PutSane(l, t, free, live, start, brk, limit, i);
      l, free, live := t, Release(free, live[i]), live[..i] + live[i + 1..];
    }

    /** realloc of a live block: the result is large enough and starts with the old contents, and
        every other block keeps its own. */
    method Resize(p: nat, n: nat, ghost i: nat) returns (q: nat, ghost j: nat)
      requires Valid() && p != 0 && n > 0 && i < |live| && p == live[i].at + HEADER
      modifies this
      ensures Valid()
      ensures q == 0 ==> live == old(live) && Kept(live)
      ensures q != 0 ==> j < |live| && q == live[j].at + HEADER && live[j].size >= n + HEADER
      ensures q != 0 ==> live == if old(live)[i].size >= n + HEADER then old(live) else Others(old(live), i) + [live[j]]
      ensures q != 0 ==> (j == if old(live)[i].size >= n + HEADER then i else |old(live)| - 1)
      ensures q != 0 ==> forall d: nat :: d + HEADER < old(live)[i].size ==> At(l.mem, q, d) == At(old(l).mem, p, d)
      ensures Kept(Others(old(live), i))
    {
      hide Sane, SameBlocks, SameBlock, Chained, Ordered, KeepsOthers, Release, InUse;
      ghost var was, before := l.mem, live;
      SelfSame(l.mem, live);
      SelfSame(l.mem, live[..i] + live[i + 1..]);
      SaneLive(l, free, live, start, brk, limit, i);
      var have := l.mem[p - HEADER] - HEADER;
      if have >= n {
        return p, i;
      }
      q := Malloc(n);
      if q == 0 {
        return 0, 0;
      }
      j := |before|;
      ghost var mid := l.mem;
      KeptCells(was, mid, before, i, p);
      CopyCells(p, q, have, i);
      ghost var filled := l.mem;
      SaneLive(l, free, live, start, brk, limit, j);
      assert live[..j] == before;
      SameTrans3(was, mid, filled, before);
      ghost var rest := Others(before, i);
      Free(p, i);
      j := j - 1;
      assert live == rest + [live[j]];
      KeptCells(filled, l.mem, live, j, q);
      LessSame(was, filled, before, i);
      LessSame(filled, l.mem, live, j);
      assert live[..j] + live[j + 1..] == rest;
      SameTrans3(was, filled, l.mem, rest);
    }

    /** realloc, with the null pointer and the zero size. */
    method Realloc(p: nat, n: nat, ghost i: nat) returns (q: nat, ghost j: nat)
      requires Valid() && (p != 0 ==> i < |live| && p == live[i].at + HEADER)
      modifies this
      ensures Valid()
      ensures p == 0 ==> Kept(old(live)) && (q == 0 ==> live == old(live))
      ensures p != 0 && n == 0 ==> q == 0 && live == Others(old(live), i) && Kept(live)
      ensures p != 0 && n > 0 ==> Kept(Others(old(live), i)) && (q == 0 ==> live == old(live) && Kept(live))
      ensures q != 0 ==> j < |live| && q == live[j].at + HEADER && live[j].size >= n + HEADER
      ensures p == 0 && q != 0 ==> live == old(live) + [live[j]]
      ensures p != 0 && q != 0 ==>
        live == if old(live)[i].size >= n + HEADER then old(live) else Others(old(live), i) + [live[j]]
      ensures p != 0 && q != 0 ==> forall d: nat :: d + HEADER < old(live)[i].size ==>
        At(l.mem, q, d) == At(old(l).mem, p, d)
    {
      hide Sane, SameBlocks;
      if p == 0 {
        q := Malloc(n);
        return q, |live| - (if q == 0 then 0 else 1);
      }
      if n == 0 {
        Free(p, i);
        return 0, 0;
      }
      q, j := Resize(p, n, i);
    }

    /** memcpy from a live block's payload to the newest one's. */
    method CopyCells(p: nat, q: nat, len: nat, ghost i: nat)
      requires Valid() && i + 1 < |live| && p == live[i].at + HEADER && q == live[|live| - 1].at + HEADER
      requires len + HEADER <= live[i].size && len + HEADER <= live[|live| - 1].size
      modifies this
      ensures Valid() && live == old(live) && free == old(free) && brk == old(brk)
      ensures forall d: nat :: d < len ==> At(l.mem, q, d) == At(old(l).mem, p, d)
      ensures Kept(live[..|live| - 1])
    {
      hide Sane, SameBlocks, SameBlock;
      ghost var j := |live| - 1;
      BlocksApart(l, free, live, start, brk, limit, i, j);
      SelfSame(l.mem, live[..j]);
      var d := 0;
      while d < len
        invariant d <= len && Valid() && live == old(live) && free == old(free) && brk == old(brk)
        invariant forall e: nat :: e < len ==> At(l.mem, p, e) == At(old(l).mem, p, e)
        invariant forall e: nat :: e < d ==> At(l.mem, q, e) == At(old(l).mem, p, e)
        invariant Kept(live[..j])
      {
        var v := At(l.mem, p, d);
        PayloadSane(l, free, live, start, brk, limit, j, q + d, v);
        PayloadKept(l, free, live, start, brk, limit, q + d, v);
        SameTrans3(old(l).mem, l.mem, l.mem[q + d := v], live[..j]);
        l := l.(mem := l.mem[q + d := v]);
        d := d + 1;
      }
    }
  }

  /** The cell d places after a. */
  function At(m: map<nat, nat>, a: nat, d: nat): nat {
    if a + d in m then m[a + d] else 0
  }

  predicate Between(lo: nat, a: nat, hi: nat) {
    lo <= a < hi
  }

  lemma SelfSame(m: map<nat, nat>, bs: seq<Blk>)
    ensures SameBlocks(m, m, bs)
  {
  }

  lemma SaneParts(l: Lst, free: seq<Blk>, live: seq<Blk>, start: nat, brk: nat, limit: nat)
    requires Sane(l, free, live, start, brk, limit)
    ensures Ordered(free) && Chained(l.mem, l.head, free)
  {
  }

  lemma SaneLive(l: Lst, free: seq<Blk>, live: seq<Blk>, start: nat, brk: nat, limit: nat, i: nat)
    requires Sane(l, free, live, start, brk, limit) && i < |live|
    ensures Sound(live[i]) && AllApart(live[i], free) && live[i].at >= 16
    ensures live[i].at in l.mem && live[i].at + 4 in l.mem && l.mem[live[i].at] == live[i].size
    ensures live[i].size >= 16 && Owned(l.mem, live[i])
  {
    hide Ordered, Chained, Sum;
    LargeOne(live[i]);
  }

  lemma KeptCells(m: map<nat, nat>, n: map<nat, nat>, bs: seq<Blk>, i: nat, p: nat)
    requires SameBlocks(m, n, bs) && i < |bs| && Owned(m, bs[i]) && p == bs[i].at + HEADER
    ensures forall d: nat :: d + HEADER < bs[i].size ==> At(n, p, d) == At(m, p, d)
  {
    assert SameBlock(m, n, bs[i]);
  }

  /** All cells of the block exist. */
  ghost predicate Owned(m: map<nat, nat>, b: Blk) {
    forall a: nat :: b.at <= a < EndOf(b) ==> a in m
  }

  lemma SameTrans3(m: map<nat, nat>, n: map<nat, nat>, o: map<nat, nat>, bs: seq<Blk>)
    requires SameBlocks(m, n, bs) && SameBlocks(n, o, bs)
    ensures SameBlocks(m, o, bs)
  {
    forall i | 0 <= i < |bs|
      ensures SameBlock(m, o, bs[i])
    {
      assert SameBlock(m, n, bs[i]) && SameBlock(n, o, bs[i]);
    }
  }

  lemma LessSame(m: map<nat, nat>, n: map<nat, nat>, bs: seq<Blk>, i: nat)
    requires SameBlocks(m, n, bs) && i < |bs|
    ensures SameBlocks(m, n, bs[..i] + bs[i + 1..])
  {
    hide SameBlock;
    var rest := bs[..i] + bs[i + 1..];
    assert forall j :: 0 <= j < |rest| ==> rest[j] == bs[if j < i then j else j + 1];
  }

  lemma PayloadKept(l: Lst, free: seq<Blk>, live: seq<Blk>, start: nat, brk: nat, limit: nat, a: nat, v: nat)
    requires Sane(l, free, live, start, brk, limit) && live != [] && live[|live| - 1].at <= a < EndOf(live[|live| - 1])
    ensures SameBlocks(l.mem, l.mem[a := v], live[..|live| - 1])
  {
    var j := |live| - 1;
    forall i | 0 <= i < j
      ensures SameBlock(l.mem, l.mem[a := v], live[i])
    {
      BlocksApart(l, free, live, start, brk, limit, i, j);
    }
  }

  lemma BlocksApart(l: Lst, free: seq<Blk>, live: seq<Blk>, start: nat, brk: nat, limit: nat, i: nat, j: nat)
    requires Sane(l, free, live, start, brk, limit) && i < |live| && j < |live| && i != j
    ensures Apart(live[i], live[j])
  {
    assert Apart(live[if i < j then i else j], live[if i < j then j else i]);
  }

  /** Writing to the payload of a live block disturbs nothing else. */
  lemma PayloadSane(l: Lst, free: seq<Blk>, live: seq<Blk>, start: nat, brk: nat, limit: nat, j: nat, a: nat, v: nat)
    requires Sane(l, free, live, start, brk, limit) && j < |live| && live[j].at + HEADER <= a < EndOf(live[j])
    ensures Sane(l.(mem := l.mem[a := v]), free, live, start, brk, limit)
  {
    var t := l.(mem := l.mem[a := v]);
    hide Sum, Sound;
    forall i | 0 <= i < |free|
      ensures Header(t.mem, free[i], Link(free, i + 1))
    {
      HeaderAt(l, free, i);
      Large(free, i);
      assert AllApart(live[j], free) && Apart(live[j], free[i]);
    }
    forall i | 0 <= i < |live|
      ensures live[i].at in t.mem && t.mem[live[i].at] == live[i].size
    {
      LargeOne(live[i]);
      if i != j {
        BlocksApart(l, free, live, start, brk, limit, i, j);
      }
    }
  }
}
