/** malloc, free and realloc over memory words: the free list is linked through the headers of the
    free blocks themselves. */
module Heap {
  import opened FreeList

  /** The address of block i of a list, or null at its end. */
  function Link(fs: seq<Blk>, i: nat): nat {
    if i < |fs| then fs[i].at else 0
  }

  /** The headers in memory spell the list. */
  ghost predicate Chained(mem: map<nat, nat>, head: nat, fs: seq<Blk>) {
    && head == Link(fs, 0)
    && forall i :: 0 <= i < |fs| ==> Header(mem, fs[i], Link(fs, i + 1))
  }

  predicate Header(mem: map<nat, nat>, b: Blk, next: nat) {
    b.at in mem && b.at + 4 in mem && mem[b.at] == b.size && mem[b.at + 4] == next
  }

  /** The words of block b are the same in both memories. */
  ghost predicate SameBlock(m: map<nat, nat>, n: map<nat, nat>, b: Blk) {
    forall a :: b.at <= a < EndOf(b) && a in m ==> a in n && n[a] == m[a]
  }

  ghost predicate SameBlocks(m: map<nat, nat>, n: map<nat, nat>, bs: seq<Blk>) {
    forall i :: 0 <= i < |bs| ==> SameBlock(m, n, bs[i])
  }

  /** The blocks in use: each has its size in its header, and they are apart from each other and from the free list. */
  ghost predicate InUse(mem: map<nat, nat>, live: seq<Blk>, free: seq<Blk>) {
    && (forall i :: 0 <= i < |live| ==> Sound(live[i]) && live[i].at in mem && mem[live[i].at] == live[i].size)
    && (forall i, j :: 0 <= i < j < |live| ==> Apart(live[i], live[j]))
    && (forall i :: 0 <= i < |live| ==> AllApart(live[i], free))
  }

  ghost predicate Within(bs: seq<Blk>, lo: nat, hi: nat) {
    forall i :: 0 <= i < |bs| ==> lo <= bs[i].at && EndOf(bs[i]) <= hi
  }

  /** Memory and the list head. */
  datatype Lst = Lst(mem: map<nat, nat>, head: nat)

  /** Stores a link in the predecessor, or in the head when there is none. */
  function SetLink(l: Lst, prev: nat, v: nat): Lst {
    if prev == 0 then l.(head := v) else l.(mem := l.mem[prev + 4 := v])
  }

  function PrevOf(fs: seq<Blk>, k: nat): nat
    requires k <= |fs|
  {
    if k == 0 then 0 else fs[k - 1].at
  }

  lemma Far(fs: seq<Blk>, i: nat, j: nat)
    requires Ordered(fs) && i < |fs| && j < |fs| && i != j
    ensures fs[i].at + 16 <= fs[j].at || fs[j].at + 16 <= fs[i].at
    ensures fs[i].at > 0 && fs[i].size >= 16
  {
    assert i < j ==> EndOf(fs[i]) < fs[j].at;
    assert j < i ==> EndOf(fs[j]) < fs[i].at;
  }

  lemma NonNull(fs: seq<Blk>, k: nat)
    requires Ordered(fs) && k <= |fs|
    ensures Link(fs, k) == 0 <==> k == |fs|
  {
  }

  // ---- malloc's walk ----

  /** The first block of at least need bytes: its address and its predecessor's. */
  method FindFit(l: Lst, ghost fs: seq<Blk>, need: nat) returns (b: nat, prev: nat)
    requires Ordered(fs) && Chained(l.mem, l.head, fs)
    ensures var k := FirstFit(fs, need, 0); b == Link(fs, k) && prev == PrevOf(fs, k)
  {
    hide Ordered;
    b, prev := l.head, 0;
    ghost var k := 0;
    NonNull(fs, 0);
    while b != 0 && l.mem[b] < need
      invariant k <= |fs| && b == Link(fs, k) && prev == PrevOf(fs, k) && (b == 0 <==> k == |fs|)
      invariant FirstFit(fs, need, 0) == FirstFit(fs, need, k)
      decreases |fs| - k
    {
      assert Header(l.mem, fs[k], Link(fs, k + 1));
      prev, b, k := b, l.mem[b + 4], k + 1;
      NonNull(fs, k);
    }
    assert k < |fs| ==> Header(l.mem, fs[k], Link(fs, k + 1));
  }

  // ---- taking a block off the list ----

  /** The tail of block b becomes a block of its own in b's place. */
  function Split(l: Lst, b: nat, prev: nat, need: nat): Lst
    requires b in l.mem && b + 4 in l.mem && l.mem[b] >= need
  {
    var m := l.mem[b + need := l.mem[b] - need][b + need + 4 := l.mem[b + 4]];
    var t := SetLink(l.(mem := m), prev, b + need);
    t.(mem := t.mem[b := need][b + 4 := 0])
  }

  function Unlink(l: Lst, b: nat, prev: nat): Lst
    requires b + 4 in l.mem
  {
    var t := SetLink(l, prev, l.mem[b + 4]);
    t.(mem := t.mem[b + 4 := 0])
  }

  lemma HeaderAt(l: Lst, fs: seq<Blk>, i: nat)
    requires Chained(l.mem, l.head, fs) && i < |fs|
    ensures Header(l.mem, fs[i], Link(fs, i + 1))
  {
  }

  lemma FarFrom(fs: seq<Blk>, i: nat, k: nat)
    requires Ordered(fs) && i < |fs| && k < |fs| && i != k
    ensures fs[i].at + 16 <= fs[k].at || EndOf(fs[k]) < fs[i].at
  {
    assert i < k ==> EndOf(fs[i]) < fs[k].at && Sound(fs[i]);
    assert k < i ==> EndOf(fs[k]) < fs[i].at;
  }

  /** A header no write touches. */
  lemma SplitElsewhere(l: Lst, b: nat, prev: nat, need: nat, c: Blk, next: nat)
    requires b in l.mem && b + 4 in l.mem && l.mem[b] >= need + 16 && need >= 16 && Header(l.mem, c, next)
    requires c.at + 16 <= b || b + l.mem[b] < c.at
    requires prev == 0 || c.at + 16 <= prev || prev + 16 <= c.at
    ensures Header(Split(l, b, prev, need).mem, c, next)
  {
  }

  lemma SplitOk(l: Lst, fs: seq<Blk>, k: nat, need: nat)
    requires Ordered(fs) && Chained(l.mem, l.head, fs) && k < |fs| && fs[k].size - need >= SPLIT && need >= 16
    requires Header(l.mem, fs[k], Link(fs, k + 1))
    ensures var t := Split(l, fs[k].at, PrevOf(fs, k), need);
      Chained(t.mem, t.head, Carve(fs, k, need)) && t.mem[fs[k].at] == need
  {
    hide Ordered, Sound, Split, Header;
    SizeIs(l, fs, k);
    var t, gs := Split(l, fs[k].at, PrevOf(fs, k), need), Carve(fs, k, need);
    SplitHere(l, fs, k, need);
    forall i | 0 <= i < |gs|
      ensures Header(t.mem, gs[i], Link(gs, i + 1))
    {
      HeaderAt(l, fs, i);
      if i != k && i + 1 != k {
        FarFrom(fs, i, k);
        if k > 0 {
          Far(fs, i, k - 1);
        }
        SplitElsewhere(l, fs[k].at, PrevOf(fs, k), need, fs[i], Link(fs, i + 1));
      }
    }
  }

  lemma SizeIs(l: Lst, fs: seq<Blk>, k: nat)
    requires k < |fs| && Header(l.mem, fs[k], Link(fs, k + 1))
    ensures fs[k].at in l.mem && fs[k].at + 4 in l.mem && l.mem[fs[k].at] == fs[k].size
  {
  }

  lemma SplitHere(l: Lst, fs: seq<Blk>, k: nat, need: nat)
    requires Ordered(fs) && Chained(l.mem, l.head, fs) && k < |fs| && fs[k].size - need >= SPLIT && need >= 16
    requires Header(l.mem, fs[k], Link(fs, k + 1))
    ensures var t, r := Split(l, fs[k].at, PrevOf(fs, k), need), Blk(fs[k].at + need, fs[k].size - need);
      && Header(t.mem, r, Link(fs, k + 1)) && t.mem[fs[k].at] == need
      && (k > 0 ==> Header(t.mem, fs[k - 1], r.at) && t.head == l.head) && (k == 0 ==> t.head == r.at)
  {
    hide Ordered, Chained, Header, Split;
    SizeIs(l, fs, k);
    if k > 0 {
      Far(fs, k - 1, k);
      Before(fs, k);
      HeaderAt(l, fs, k - 1);
      SplitCore(l, fs[k], Link(fs, k + 1), fs[k - 1], need);
    } else {
      SplitFirst(l, fs[k], Link(fs, k + 1), need);
    }
  }

  lemma Before(fs: seq<Blk>, k: nat)
    requires Ordered(fs) && 0 < k < |fs|
    ensures fs[k - 1].at + 16 <= fs[k].at
  {
    assert EndOf(fs[k - 1]) < fs[k].at && Sound(fs[k - 1]);
  }

  lemma SplitCore(l: Lst, b: Blk, next: nat, p: Blk, need: nat)
    requires Header(l.mem, b, next) && b.size - need >= SPLIT && need >= 16 && Header(l.mem, p, b.at) && 0 < p.at
      && p.at + 16 <= b.at
    ensures var t := Split(l, b.at, p.at, need);
      && Header(t.mem, Blk(b.at + need, b.size - need), next) && t.mem[b.at] == need
      && Header(t.mem, p, b.at + need) && t.head == l.head
  {
  }

  lemma SplitFirst(l: Lst, b: Blk, next: nat, need: nat)
    requires Header(l.mem, b, next) && b.size - need >= SPLIT && need >= 16
    ensures var t := Split(l, b.at, 0, need);
      Header(t.mem, Blk(b.at + need, b.size - need), next) && t.mem[b.at] == need && t.head == b.at + need
  {
  }

  lemma UnlinkElsewhere(l: Lst, b: nat, prev: nat, c: Blk, next: nat)
    requires b + 4 in l.mem && Header(l.mem, c, next) && (c.at + 16 <= b || b + 16 <= c.at)
    requires prev == 0 || c.at + 16 <= prev || prev + 16 <= c.at
    ensures Header(Unlink(l, b, prev).mem, c, next)
  {
  }

  lemma UnlinkOk(l: Lst, fs: seq<Blk>, k: nat)
    requires Ordered(fs) && Chained(l.mem, l.head, fs) && k < |fs|
    requires Header(l.mem, fs[k], Link(fs, k + 1))
    ensures var t := Unlink(l, fs[k].at, PrevOf(fs, k));
      Chained(t.mem, t.head, fs[..k] + fs[k + 1..]) && fs[k].at in t.mem && t.mem[fs[k].at] == fs[k].size
  {
    hide Ordered, Sound, Unlink, Header;
    SizeIs(l, fs, k);
    var t, gs := Unlink(l, fs[k].at, PrevOf(fs, k)), fs[..k] + fs[k + 1..];
    UnlinkHere(l, fs, k);
    forall i | 0 <= i < |gs|
      ensures Header(t.mem, gs[i], Link(gs, i + 1))
    {
      var j := if i < k then i else i + 1;
      assert gs[i] == fs[j];
      HeaderAt(l, fs, j);
      if j + 1 != k {
        Far(fs, j, k);
        if k > 0 {
          Far(fs, j, k - 1);
        }
        UnlinkElsewhere(l, fs[k].at, PrevOf(fs, k), fs[j], Link(fs, j + 1));
      }
    }
  }

  lemma UnlinkHere(l: Lst, fs: seq<Blk>, k: nat)
    requires Ordered(fs) && Chained(l.mem, l.head, fs) && k < |fs| && Header(l.mem, fs[k], Link(fs, k + 1))
    ensures var t := Unlink(l, fs[k].at, PrevOf(fs, k));
      && fs[k].at in t.mem && t.mem[fs[k].at] == fs[k].size
      && (k > 0 ==> Header(t.mem, fs[k - 1], Link(fs, k + 1)) && t.head == l.head)
      && (k == 0 ==> t.head == Link(fs, 1))
  {
    hide Ordered, Chained, Header, Unlink;
    SizeIs(l, fs, k);
    if k > 0 {
      Far(fs, k - 1, k);
      Before(fs, k);
      HeaderAt(l, fs, k - 1);
      UnlinkCore(l, fs[k], Link(fs, k + 1), fs[k - 1]);
    } else {
      UnlinkFirst(l, fs[k], Link(fs, k + 1));
    }
  }

  lemma UnlinkCore(l: Lst, b: Blk, next: nat, p: Blk)
    requires Header(l.mem, b, next) && Header(l.mem, p, b.at) && 0 < p.at && p.at + 16 <= b.at
    ensures var t := Unlink(l, b.at, p.at);
      b.at in t.mem && t.mem[b.at] == b.size && Header(t.mem, p, next) && t.head == l.head
  {
  }

  lemma UnlinkFirst(l: Lst, b: Blk, next: nat)
    requires Header(l.mem, b, next)
    ensures var t := Unlink(l, b.at, 0); b.at in t.mem && t.mem[b.at] == b.size && t.head == next
  {
  }

  // ---- putting a block back ----

  /** Headers do not overlap. */
  ghost predicate Spaced(gs: seq<Blk>) {
    && (forall i :: 0 <= i < |gs| ==> gs[i].at > 0)
    && (forall i, j :: 0 <= i < j < |gs| ==> gs[i].at + 16 <= gs[j].at)
  }

  function Inserted(fs: seq<Blk>, p: nat, b: Blk): seq<Blk>
    requires p <= |fs|
  {
    fs[..p] + [b] + fs[p..]
  }

  /** b goes between prev and cur. */
  function InsertAt(l: Lst, b: nat, prev: nat, cur: nat): Lst {
    SetLink(l.(mem := l.mem[b + 4 := cur]), prev, b)
  }

  lemma InsertElsewhere(l: Lst, b: nat, prev: nat, cur: nat, c: Blk, next: nat)
    requires Header(l.mem, c, next) && (c.at + 16 <= b || b + 16 <= c.at)
    requires prev == 0 || c.at + 16 <= prev || prev + 16 <= c.at
    ensures Header(InsertAt(l, b, prev, cur).mem, c, next)
  {
  }

  lemma InsertHere(l: Lst, b: Blk, prev: nat, cur: nat)
    requires b.at in l.mem && b.at + 4 in l.mem && l.mem[b.at] == b.size && prev + 16 <= b.at
    ensures var t := InsertAt(l, b.at, prev, cur);
      Header(t.mem, b, cur) && (prev == 0 ==> t.head == b.at) && (prev != 0 ==> t.head == l.head)
    ensures forall c: Blk, next :: prev != 0 && c.at == prev && Header(l.mem, c, next) ==>
      Header(InsertAt(l, b.at, prev, cur).mem, c, b.at)
  {
  }

  lemma InsertOk(l: Lst, fs: seq<Blk>, p: nat, b: Blk)
    requires p <= |fs| && Chained(l.mem, l.head, fs) && Spaced(Inserted(fs, p, b)) && b.at >= 16
    requires b.at in l.mem && b.at + 4 in l.mem && l.mem[b.at] == b.size
    ensures var t := InsertAt(l, b.at, PrevOf(fs, p), Link(fs, p)); Chained(t.mem, t.head, Inserted(fs, p, b))
  {
    hide InsertAt, Header;
    var gs := Inserted(fs, p, b);
    var t := InsertAt(l, b.at, PrevOf(fs, p), Link(fs, p));
    assert gs[p] == b && (p > 0 ==> gs[p - 1] == fs[p - 1]);
    InsertHere(l, b, PrevOf(fs, p), Link(fs, p));
    forall i | 0 <= i < |gs|
      ensures Header(t.mem, gs[i], Link(gs, i + 1))
    {
      var j := if i < p then i else i - 1;
      if i != p {
        assert gs[i] == fs[j];
        HeaderAt(l, fs, j);
        if i + 1 != p {
          assert p > 0 && i < p - 1 ==> gs[i].at + 16 <= gs[p - 1].at;
          InsertElsewhere(l, b.at, PrevOf(fs, p), Link(fs, p), fs[j], Link(fs, j + 1));
          assert Link(gs, i + 1) == Link(fs, j + 1);
        }
      }
    }
  }

  /** Block a swallows the block its link names. */
  function Swallow(l: Lst, a: nat): Lst
    requires a in l.mem && a + 4 in l.mem && l.mem[a + 4] in l.mem && l.mem[a + 4] + 4 in l.mem
  {
    var next := l.mem[a + 4];
    l.(mem := l.mem[a := l.mem[a] + l.mem[next]][a + 4 := l.mem[next + 4]])
  }

  function Merged(gs: seq<Blk>, i: nat): seq<Blk>
    requires i + 1 < |gs|
  {
    gs[..i] + [Blk(gs[i].at, gs[i].size + gs[i + 1].size)] + gs[i + 2..]
  }

  lemma SwallowHere(l: Lst, a: Blk, b: Blk, next: nat)
    requires Header(l.mem, a, b.at) && Header(l.mem, b, next)
    ensures Header(Swallow(l, a.at).mem, Blk(a.at, a.size + b.size), next) && Swallow(l, a.at).head == l.head
    ensures Swallow(l, a.at).mem == l.mem[a.at := a.size + b.size][a.at + 4 := next]
  {
  }

  lemma SwallowElsewhere(l: Lst, a: Blk, b: Blk, next: nat, c: Blk, after: nat)
    requires Header(l.mem, a, b.at) && Header(l.mem, b, next) && Header(l.mem, c, after)
    requires c.at + 16 <= a.at || a.at + 16 <= c.at
    ensures Header(Swallow(l, a.at).mem, c, after)
  {
  }

  lemma SwallowOk(l: Lst, gs: seq<Blk>, i: nat)
    requires Spaced(gs) && Chained(l.mem, l.head, gs) && i + 1 < |gs|
    requires Header(l.mem, gs[i], gs[i + 1].at) && Header(l.mem, gs[i + 1], Link(gs, i + 2))
    ensures var t := Swallow(l, gs[i].at); Chained(t.mem, t.head, Merged(gs, i))
  {
    hide Header, Swallow, Spaced;
    SwallowNeeds(l, gs[i], gs[i + 1], Link(gs, i + 2));
    SwallowHere(l, gs[i], gs[i + 1], Link(gs, i + 2));
    var t, hs := Swallow(l, gs[i].at), Merged(gs, i);
    forall j | 0 <= j < |hs|
      ensures Header(t.mem, hs[j], Link(hs, j + 1))
    {
      SwallowAt(l, gs, i, j);
    }
  }

  lemma SwallowAt(l: Lst, gs: seq<Blk>, i: nat, j: nat)
    requires Spaced(gs) && Chained(l.mem, l.head, gs) && i + 1 < |gs| && j < |Merged(gs, i)|
    requires Header(l.mem, gs[i], gs[i + 1].at) && Header(l.mem, gs[i + 1], Link(gs, i + 2))
    ensures Header(Swallow(l, gs[i].at).mem, Merged(gs, i)[j], Link(Merged(gs, i), j + 1))
  {
    hide Header, Swallow, Chained;
    var hs := Merged(gs, i);
    SwallowNeeds(l, gs[i], gs[i + 1], Link(gs, i + 2));
    if j == i {
      SwallowHere(l, gs[i], gs[i + 1], Link(gs, i + 2));
      assert j + 1 < |hs| ==> hs[j + 1] == gs[i + 2];
    } else {
      var m := if j < i then j else j + 1;
      HeaderAt(l, gs, m);
      assert hs[j] == gs[m] && (j + 1 < |hs| ==> hs[j + 1].at == gs[m + 1].at);
      assert m < i ==> gs[m].at + 16 <= gs[i].at;
      assert m > i ==> gs[i].at + 16 <= gs[m].at;
      SwallowElsewhere(l, gs[i], gs[i + 1], Link(gs, i + 2), gs[m], Link(gs, m + 1));
    }
  }

  lemma SwallowNeeds(l: Lst, a: Blk, b: Blk, next: nat)
    requires Header(l.mem, a, b.at) && Header(l.mem, b, next)
    ensures a.at in l.mem && a.at + 4 in l.mem && l.mem[a.at + 4] in l.mem && l.mem[a.at + 4] + 4 in l.mem
  {
  }

  // ---- words outside the list ----

  /** A block apart from the list and from b keeps its words. */
  ghost predicate KeepsOthers(m: map<nat, nat>, n: map<nat, nat>, fs: seq<Blk>, b: Blk) {
    m.Keys <= n.Keys && forall c: Blk :: AllApart(c, fs) && Apart(c, b) ==> SameBlock(m, n, c)
  }

  lemma KeepsTrans(m: map<nat, nat>, n: map<nat, nat>, o: map<nat, nat>, fs: seq<Blk>, b: Blk)
    requires KeepsOthers(m, n, fs, b) && KeepsOthers(n, o, fs, b)
    ensures KeepsOthers(m, o, fs, b)
  {
    forall c: Blk | AllApart(c, fs) && Apart(c, b)
      ensures SameBlock(m, o, c)
    {
      assert SameBlock(m, n, c) && SameBlock(n, o, c);
    }
  }

  /** Address a lies in b or in a block of the list. */
  predicate Inside(fs: seq<Blk>, b: Blk, i: nat, a: nat) {
    (b.at <= a < EndOf(b)) || (i < |fs| && fs[i].at <= a < EndOf(fs[i]))
  }

  lemma WriteKeeps(m: map<nat, nat>, a: nat, v: nat, fs: seq<Blk>, b: Blk, i: nat)
    requires Inside(fs, b, i, a)
    ensures KeepsOthers(m, m[a := v], fs, b)
  {
    forall c: Blk | AllApart(c, fs) && Apart(c, b)
      ensures SameBlock(m, m[a := v], c)
    {
      assert i < |fs| ==> Apart(c, fs[i]);
    }
  }

  lemma InsertKeeps(l: Lst, fs: seq<Blk>, p: nat, b: Blk)
    requires Ordered(fs) && p <= |fs| && Sound(b)
    ensures KeepsOthers(l.mem, InsertAt(l, b.at, PrevOf(fs, p), Link(fs, p)).mem, fs, b)
  {
    hide KeepsOthers;
    var m := l.mem[b.at + 4 := Link(fs, p)];
    WriteKeeps(l.mem, b.at + 4, Link(fs, p), fs, b, 0);
    if p > 0 {
      assert Sound(fs[p - 1]);
      WriteKeeps(m, fs[p - 1].at + 4, b.at, fs, b, p - 1);
      KeepsTrans(l.mem, m, m[fs[p - 1].at + 4 := b.at], fs, b);
    }
  }

  lemma SwallowKeeps(l: Lst, a: Blk, c: Blk, next: nat, fs: seq<Blk>, b: Blk, i: nat)
    requires Header(l.mem, a, c.at) && Header(l.mem, c, next) && Inside(fs, b, i, a.at) && Inside(fs, b, i, a.at + 4)
    ensures KeepsOthers(l.mem, Swallow(l, a.at).mem, fs, b)
  {
    hide KeepsOthers;
    SwallowHere(l, a, c, next);
    var m := l.mem[a.at := a.size + c.size];
    WriteKeeps(l.mem, a.at, a.size + c.size, fs, b, i);
    WriteKeeps(m, a.at + 4, next, fs, b, i);
    KeepsTrans(l.mem, m, m[a.at + 4 := next], fs, b);
  }

  // ---- free ----

  /** The walk of free: the neighbours of address b in the list. */
  method FindPlace(l: Lst, ghost fs: seq<Blk>, b: nat) returns (cur: nat, prev: nat)
    requires Ordered(fs) && Chained(l.mem, l.head, fs)
    ensures var p := Place(fs, b, 0); cur == Link(fs, p) && prev == PrevOf(fs, p)
  {
    hide Ordered;
    cur, prev := l.head, 0;
    ghost var k := 0;
    NonNull(fs, 0);
    while cur != 0 && cur < b
      invariant k <= |fs| && cur == Link(fs, k) && prev == PrevOf(fs, k) && (cur == 0 <==> k == |fs|)
      invariant Place(fs, b, 0) == Place(fs, b, k)
      decreases |fs| - k
    {
      assert Header(l.mem, fs[k], Link(fs, k + 1));
      prev, cur, k := cur, l.mem[cur + 4], k + 1;
      NonNull(fs, k);
    }
  }

  lemma InsertedSpaced(fs: seq<Blk>, b: Blk)
    requires Ordered(fs) && Sound(b) && AllApart(b, fs)
    ensures Spaced(Inserted(fs, Place(fs, b.at, 0), b)) && b.at >= 8
  {
    var p := Place(fs, b.at, 0);
    var gs := Inserted(fs, p, b);
    forall i | 0 <= i < |gs|
      ensures gs[i].at > 0
    {
      assert i < p ==> gs[i] == fs[i];
      assert i > p ==> gs[i] == fs[i - 1];
    }
    forall i, j | 0 <= i < j < |gs|
      ensures gs[i].at + 16 <= gs[j].at
    {
      InsertedGap(fs, b, p, i, j);
    }
  }

  lemma InsertedAt(fs: seq<Blk>, p: nat, b: Blk, k: nat)
    requires p <= |fs| && k <= |fs|
    ensures |Inserted(fs, p, b)| == |fs| + 1
    ensures Inserted(fs, p, b)[k] == if k < p then fs[k] else if k == p then b else fs[k - 1]
  {
  }

  lemma InsertedGap(fs: seq<Blk>, b: Blk, p: nat, i: nat, j: nat)
    requires Ordered(fs) && Sound(b) && AllApart(b, fs) && p == Place(fs, b.at, 0) && i < j <= |fs|
    ensures var gs := Inserted(fs, p, b); |gs| == |fs| + 1 && gs[i].at + 16 <= gs[j].at
  {
    hide Ordered, Sound, Inserted;
    InsertedAt(fs, p, b, i);
    InsertedAt(fs, p, b, j);
    if i < p && j != p {
      InOrder(fs, i, if j < p then j else j - 1);
    } else if i < p {
      assert Apart(b, fs[i]);
      Large(fs, i);
      LargeOne(b);
    } else if i == p {
      assert Apart(b, fs[j - 1]);
      Large(fs, j - 1);
      LargeOne(b);
      if p < j - 1 {
        InOrder(fs, p, j - 1);
      }
    } else {
      InOrder(fs, i - 1, j - 1);
    }
  }

  lemma InOrder(fs: seq<Blk>, i: nat, j: nat)
    requires Ordered(fs) && i < j < |fs|
    ensures fs[i].at + 16 <= fs[j].at
  {
    assert EndOf(fs[i]) < fs[j].at && Sound(fs[i]);
  }

  lemma Large(fs: seq<Blk>, i: nat)
    requires Ordered(fs) && i < |fs|
    ensures fs[i].size >= 16
  {
    assert Sound(fs[i]);
  }

  lemma LargeOne(b: Blk)
    requires Sound(b)
    ensures b.size >= 16 && b.at >= 8
  {
  }

  lemma MergedSpaced(gs: seq<Blk>, i: nat)
    requires Spaced(gs) && i + 1 < |gs|
    ensures Spaced(Merged(gs, i))
  {
    var hs := Merged(gs, i);
    assert forall j :: 0 <= j < |hs| ==> hs[j].at == gs[if j <= i then j else j + 1].at;
  }

  /** free's work on the list: insert, then merge with the next and with the previous block where they touch. */
  method PutBack(l: Lst, b: nat, ghost fs: seq<Blk>, ghost blk: Blk) returns (t: Lst)
    requires Ordered(fs) && Chained(l.mem, l.head, fs) && Sound(blk) && AllApart(blk, fs) && blk.at == b && b >= 16
    requires b in l.mem && b + 4 in l.mem && l.mem[b] == blk.size
    ensures Chained(t.mem, t.head, Release(fs, blk)) && KeepsOthers(l.mem, t.mem, fs, blk)
  {
    hide Ordered, Sound, Chained, Spaced, Header, InsertAt, Swallow, KeepsOthers;
    ghost var p := Place(fs, b, 0);
    ghost var gs := Inserted(fs, p, blk);
    var cur, prev := FindPlace(l, fs, b);
    InsertedSpaced(fs, blk);
    InsertOk(l, fs, p, blk);
    InsertKeeps(l, fs, p, blk);
    NonNull(fs, p);
    LargeOne(blk);
    t := InsertAt(l, b, prev, cur);
    t, gs := MergeNext(t, b, cur, gs, p, fs, blk, l);
    if p > 0 {
      NonNull(fs, p - 1);
    }
    t := MergePrev(t, b, prev, gs, p, fs, blk, l);
  }

  method MergeNext(l: Lst, b: nat, cur: nat, ghost gs: seq<Blk>, ghost p: nat, ghost fs: seq<Blk>, ghost blk: Blk,
        ghost l0: Lst)
    returns (t: Lst, ghost hs: seq<Blk>)
    requires p <= |fs| && gs == Inserted(fs, p, blk) && Spaced(gs) && Chained(l.mem, l.head, gs) && blk.at == b
    requires cur == Link(fs, p) && (cur == 0 <==> p == |fs|) && blk.size >= 16 && KeepsOthers(l0.mem, l.mem, fs, blk)
    ensures hs == fs[..p] + [JoinNext(blk, fs, p)] + After(blk, fs, p) && Spaced(hs) && Chained(t.mem, t.head, hs)
    ensures KeepsOthers(l0.mem, t.mem, fs, blk)
  {
    hide Chained, Spaced, Header, Swallow, KeepsOthers;
    t, hs := l, gs;
    HeaderAt(l, gs, p);
    assert gs[p] == blk;
    HeaderMem(l, blk, Link(gs, p + 1));
    if cur != 0 && b + l.mem[b] == cur {
      HeaderAt(l, gs, p + 1);
      assert gs[p + 1] == fs[p];
      SwallowNeeds(l, blk, fs[p], Link(gs, p + 2));
      SwallowOk(l, gs, p);
      SwallowKeeps(l, blk, fs[p], Link(gs, p + 2), fs, blk, 0);
      MergedSpaced(gs, p);
      KeepsTrans(l0.mem, l.mem, Swallow(l, b).mem, fs, blk);
      t, hs := Swallow(l, b), Merged(gs, p);
      assert gs[p + 2..] == fs[p + 1..];
    }
  }

  method MergePrev(l: Lst, b: nat, prev: nat, ghost gs: seq<Blk>, ghost p: nat, ghost fs: seq<Blk>, ghost blk: Blk,
        ghost l0: Lst)
    returns (t: Lst)
    requires p == Place(fs, b, 0) && blk.at == b && gs == fs[..p] + [JoinNext(blk, fs, p)] + After(blk, fs, p)
    requires Spaced(gs) && Chained(l.mem, l.head, gs) && prev == PrevOf(fs, p) && (prev == 0 <==> p == 0)
    requires Ordered(fs) && KeepsOthers(l0.mem, l.mem, fs, blk)
    ensures Chained(t.mem, t.head, Release(fs, blk)) && KeepsOthers(l0.mem, t.mem, fs, blk)
  {
    hide Ordered, Chained, Spaced, Header, Swallow, KeepsOthers;
    t := l;
    if prev != 0 {
      var c := JoinNext(blk, fs, p);
      HeaderAt(l, gs, p - 1);
      HeaderAt(l, gs, p);
      assert gs[p - 1] == fs[p - 1] && gs[p] == c && c.at == b;
      HeaderMem(l, fs[p - 1], b);
      Large(fs, p - 1);
      if prev + l.mem[prev] == b {
        SwallowNeeds(l, fs[p - 1], c, Link(gs, p + 1));
        SwallowOk(l, gs, p - 1);
        SwallowKeeps(l, fs[p - 1], c, Link(gs, p + 1), fs, blk, p - 1);
        KeepsTrans(l0.mem, l.mem, Swallow(l, prev).mem, fs, blk);
        t := Swallow(l, prev);
        assert gs[..p - 1] == fs[..p - 1] && gs[p + 1..] == After(blk, fs, p);
        assert Merged(gs, p - 1) == Release(fs, blk);
      }
    }
  }

  lemma HeaderMem(l: Lst, b: Blk, next: nat)
    requires Header(l.mem, b, next)
    ensures b.at in l.mem && b.at + 4 in l.mem && l.mem[b.at] == b.size
  {
  }

  // ---- malloc's list ----

  lemma SplitKeeps(l: Lst, fs: seq<Blk>, k: nat, need: nat)
    requires Ordered(fs) && k < |fs| && Header(l.mem, fs[k], Link(fs, k + 1)) && 16 <= need
      && fs[k].size - need >= SPLIT
    ensures KeepsOthers(l.mem, Split(l, fs[k].at, PrevOf(fs, k), need).mem, fs, fs[k])
  {
    hide KeepsOthers, Ordered;
    var b, prev := fs[k].at, PrevOf(fs, k);
    var m1 := l.mem[b + need := l.mem[b] - need];
    var m2 := m1[b + need + 4 := l.mem[b + 4]];
    var m3 := SetLink(l.(mem := m2), prev, b + need).mem;
    var m4 := m3[b := need];
    WriteKeeps(l.mem, b + need, l.mem[b] - need, fs, fs[k], k);
    WriteKeeps(m1, b + need + 4, l.mem[b + 4], fs, fs[k], k);
    KeepsTrans(l.mem, m1, m2, fs, fs[k]);
    if k > 0 {
      Large(fs, k - 1);
      NonNull(fs, k - 1);
      WriteKeeps(m2, prev + 4, b + need, fs, fs[k], k - 1);
      KeepsTrans(l.mem, m2, m3, fs, fs[k]);
    }
    WriteKeeps(m3, b, need, fs, fs[k], k);
    KeepsTrans(l.mem, m3, m4, fs, fs[k]);
    WriteKeeps(m4, b + 4, 0, fs, fs[k], k);
    KeepsTrans(l.mem, m4, m4[b + 4 := 0], fs, fs[k]);
  }

  lemma UnlinkKeeps(l: Lst, fs: seq<Blk>, k: nat)
    requires Ordered(fs) && k < |fs| && Header(l.mem, fs[k], Link(fs, k + 1))
    ensures KeepsOthers(l.mem, Unlink(l, fs[k].at, PrevOf(fs, k)).mem, fs, fs[k])
  {
    hide KeepsOthers, Ordered;
    var b, prev := fs[k].at, PrevOf(fs, k);
    var m1 := SetLink(l, prev, l.mem[b + 4]).mem;
    Large(fs, k);
    KeepsSelf(l.mem, fs, fs[k]);
    if k > 0 {
      Large(fs, k - 1);
      NonNull(fs, k - 1);
      WriteKeeps(l.mem, prev + 4, l.mem[b + 4], fs, fs[k], k - 1);
    }
    WriteKeeps(m1, b + 4, 0, fs, fs[k], k);
    KeepsTrans(l.mem, m1, m1[b + 4 := 0], fs, fs[k]);
  }

  lemma KeepsSelf(m: map<nat, nat>, fs: seq<Blk>, b: Blk)
    ensures KeepsOthers(m, m, fs, b)
  {
  }

  /** malloc's work on the list: first fit, split when the rest is worth keeping. */
  method TakeFit(l: Lst, ghost fs: seq<Blk>, need: nat) returns (t: Lst, b: nat)
    requires Ordered(fs) && Chained(l.mem, l.head, fs) && need >= 16 && need % 8 == 0
    ensures var k := FirstFit(fs, need, 0);
      && b == Link(fs, k) && (b == 0 <==> k == |fs|) && (b == 0 ==> t == l)
      && (b != 0 ==> Chained(t.mem, t.head, Carve(fs, k, need)) && KeepsOthers(l.mem, t.mem, fs, fs[k]))
      && (b != 0 ==> b in t.mem && t.mem[b] == Carved(fs[k], need).size)
  {
    hide Ordered, Chained, Header, Split, Unlink, KeepsOthers;
    var prev;
    b, prev := FindFit(l, fs, need);
    ghost var k := FirstFit(fs, need, 0);
    NonNull(fs, k);
    if b == 0 {
      return l, 0;
    }
    HeaderAt(l, fs, k);
    SizeIs(l, fs, k);
    if l.mem[b] - need >= SPLIT {
      SplitOk(l, fs, k, need);
      SplitKeeps(l, fs, k, need);
      SplitHere(l, fs, k, need);
      t := Split(l, b, prev, need);
      assert b in t.mem by { KeyKept(l, t, fs, fs[k], b); }
    } else {
      UnlinkOk(l, fs, k);
      UnlinkKeeps(l, fs, k);
      t := Unlink(l, b, prev);
    }
  }

  lemma KeyKept(l: Lst, t: Lst, fs: seq<Blk>, b: Blk, a: nat)
    requires KeepsOthers(l.mem, t.mem, fs, b) && a in l.mem
    ensures a in t.mem
  {
  }
}
