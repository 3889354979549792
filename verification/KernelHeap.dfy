/** The kernel's allocator: runs of low-memory pages, and slabs of equal objects on single pages, beside the
    pages other code takes from low memory. */
module KernelHeap {
  import opened Wrappers
  import opened Words

  const PAGE: nat := 4096
  const CLASSES: nat := 8
  const RUN: nat := 0xFF
  const SMALL: nat := 2048
  /** Low memory ends at four megabytes. */
  const LOW_PAGES: nat := 0x400

  // ---- runs of pages ----

  /** Pages i up to i + n are all free. */
  predicate FreeRun(used: seq<bool>, i: nat, n: nat) {
    i + n <= |used| && forall k :: i <= k < i + n ==> !used[k]
  }

  /** low_alloc_n's search: the lowest run of n free pages, found although each failure skips past
      the used page that caused it. */
  method FindRun(used: seq<bool>, first: nat, n: nat) returns (r: Option<nat>)
    ensures r.Some? ==> first <= r.value && FreeRun(used, r.value, n)
                        && forall j :: first <= j < r.value ==> !FreeRun(used, j, n)
    ensures r.None? ==> forall j: nat :: first <= j ==> !FreeRun(used, j, n)
  {
    var i := first;
    while i + n <= |used|
      invariant first <= i && forall j :: first <= j < i ==> !FreeRun(used, j, n)
      decreases |used| - i
    {
      var k := 0;
      while k < n && !used[i + k]
        invariant 0 <= k <= n && forall m :: i <= m < i + k ==> !used[m]
      {
        k := k + 1;
      }
      if k == n {
        return Some(i);
      }
      forall j | i <= j <= i + k
        ensures !FreeRun(used, j, n)
      {
        assert j <= i + k < j + n && used[i + k];
      }
      i := i + k + 1;
    }
    return None;
  }

  /** Page k is low memory's to give, and given. */
  predicate Taken(used: seq<bool>, first: nat, k: nat) {
    first <= k < |used| && used[k]
  }

  function SetRun(used: seq<bool>, i: nat, n: nat, b: bool): (r: seq<bool>)
    requires i + n <= |used|
    ensures |r| == |used| && forall k :: 0 <= k < |used| ==> r[k] == if i <= k < i + n then b else used[k]
    decreases n
  {
    if n == 0 then used else SetRun(used[i := b], i + 1, n - 1, b)
  }

  // ---- slabs ----

  /** Object size of class c: 16, 32, up to 2048. */
  function Sz(c: nat): (n: nat)
    requires c < CLASSES
    ensures n > 0
  {
    if c == 0 then 16 else 2 * Sz(c - 1)
  }

  /** The class whose objects hold n bytes. */
  function ClassFor(n: nat, c: nat): (r: nat)
    requires n <= SMALL && c < CLASSES
    ensures c <= r < CLASSES && Sz(r) >= n && (r > c ==> Sz(r - 1) < n)
    decreases CLASSES - c
  {
    SizeTable();
    if Sz(c) >= n || c == CLASSES - 1 then c else ClassFor(n, c + 1)
  }

  lemma SizeTable()
    ensures Sz(0) == 16 && Sz(1) == 32 && Sz(2) == 64 && Sz(3) == 128
    ensures Sz(4) == 256 && Sz(5) == 512 && Sz(6) == 1024 && Sz(7) == 2048
  {
    assert Sz(3) == 2 * Sz(2) && Sz(2) == 2 * Sz(1) && Sz(1) == 2 * Sz(0);
    assert Sz(6) == 2 * Sz(5) && Sz(5) == 2 * Sz(4) && Sz(4) == 2 * Sz(3);
  }

  lemma Divides(c: nat)
    requires c < CLASSES
    ensures Sz(c) > 0 && PAGE % Sz(c) == 0
  {
    SizeTable();
    assert c == 0 || c == 1 || c == 2 || c == 3 || c == 4 || c == 5 || c == 6 || c == 7;
  }

  /** pclass: 0 none, c + 1 a slab of class c, RUN the first page of a run of plen pages. free: the
      objects on each free list. live: the objects given out, with their sizes. others: the pages other code
      holds, such as page tables, kernel stacks and buffers. */
  datatype State = State(used: seq<bool>, pclass: seq<nat>, plen: seq<nat>, first: nat, free: seq<seq<nat>>,
                         live: map<nat, nat>, others: set<nat>)

  predicate Shaped(s: State) {
    && |s.used| == |s.pclass| == |s.plen| == LOW_PAGES && |s.free| == CLASSES
    && 0 < s.first < |s.used|
  }

  /** Address a is an object of class c on a slab page of that class. */
  predicate OnSlab(s: State, a: nat, c: nat)
    requires Shaped(s)
  {
    c < CLASSES && a / PAGE < |s.used| && s.used[a / PAGE] && s.pclass[a / PAGE] == c + 1 && a % PAGE % Sz(c) == 0
  }

  /** Page h starts a run. */
  predicate Heads(s: State, h: nat)
    requires Shaped(s)
  {
    h < |s.used| && s.pclass[h] == RUN
  }

  predicate InRun(s: State, h: nat, p: nat)
    requires Shaped(s)
  {
    Heads(s, h) && h <= p < h + s.plen[h]
  }

  ghost predicate RunsOk(s: State)
    requires Shaped(s)
  {
    && (forall h: nat :: Heads(s, h) ==> s.plen[h] > 0 && h + s.plen[h] <= |s.used|)
    && (forall h: nat, p: nat :: InRun(s, h, p) ==> p < |s.used| && s.used[p] && (p == h || s.pclass[p] == 0))
    && (forall h: nat, g: nat, p: nat :: InRun(s, h, p) && InRun(s, g, p) ==> h == g)
  }

  ghost predicate FreeOk(s: State)
    requires Shaped(s)
  {
    && (forall c, i :: 0 <= c < CLASSES && 0 <= i < |s.free[c]| ==>
      OnSlab(s, s.free[c][i], c) && s.free[c][i] !in s.live)
    && (forall c, i, j :: 0 <= c < CLASSES && 0 <= i < j < |s.free[c]| ==> s.free[c][i] != s.free[c][j])
  }

  /** A live object is a slab object of its size, or a whole run. */
  ghost predicate LiveOk(s: State, a: nat)
    requires Shaped(s) && a in s.live
  {
    || (exists c :: OnSlab(s, a, c) && s.live[a] == Sz(c))
    || (a % PAGE == 0 && Heads(s, a / PAGE) && s.live[a] == s.plen[a / PAGE] * PAGE)
  }

  /** A page of other code is in use, and neither a slab nor part of a run. */
  ghost predicate OtherOk(s: State, p: nat)
    requires Shaped(s)
  {
    s.first <= p < |s.used| && s.used[p] && s.pclass[p] == 0 && forall h: nat :: !InRun(s, h, p)
  }

  ghost predicate Inv(s: State) {
    && Shaped(s) && RunsOk(s) && FreeOk(s)
    && (forall p :: p in s.others ==> OtherOk(s, p))
    && (forall a :: a in s.live ==> LiveOk(s, a))
    && (forall p :: 0 <= p < |s.used| && !s.used[p] ==> s.pclass[p] == 0)
    && (forall p :: 0 <= p < |s.used| && p < s.first ==> s.used[p] && s.pclass[p] == 0)
  }

  /** Nothing is lost: an object on a slab page is live or on its list, a run is live, and a page taken from
      low memory is a slab, part of a run or other code's. */
  ghost predicate Complete(s: State)
    requires Shaped(s)
  {
    && (forall a: nat, c: nat :: OnSlab(s, a, c) ==> Somewhere(s, a, c))
    && (forall h: nat :: Heads(s, h) ==> h * PAGE in s.live)
    && (forall p: nat :: s.first <= p < |s.used| && s.used[p] && s.pclass[p] == 0 ==> Inner(s, p) || p in s.others)
  }

  predicate Somewhere(s: State, a: nat, c: nat)
    requires Shaped(s)
  {
    a in s.live || (c < CLASSES && a in s.free[c])
  }

  ghost predicate Inner(s: State, p: nat)
    requires Shaped(s)
  {
    exists h: nat :: InRun(s, h, p)
  }

  // ---- live objects are disjoint ----

  lemma Multiples(x: nat, y: nat, z: nat)
    requires z > 0 && x % z == 0 && y % z == 0 && x < y
    ensures x + z <= y
  {
    var d := y / z - x / z;
    DivMod(x, z);
    DivMod(y, z);
    assert y - x == d * z;
    MulBound(d, z);
  }

  /** A slab object ends on its page. */
  lemma SlabInside(s: State, a: nat, c: nat)
    requires Shaped(s) && OnSlab(s, a, c)
    ensures a % PAGE + Sz(c) <= PAGE
  {
    Divides(c);
    Multiples(a % PAGE, PAGE, Sz(c));
  }

  lemma SlabApart(s: State, a: nat, c: nat, b: nat, d: nat)
    requires Shaped(s) && OnSlab(s, a, c) && OnSlab(s, b, d) && a < b
    ensures a + Sz(c) <= b
  {
    SlabInside(s, a, c);
    if a / PAGE == b / PAGE {
      Divides(c);
      Multiples(a % PAGE, b % PAGE, Sz(c));
    }
  }

  /** Live objects never overlap. */
  lemma LiveApart(s: State, a: nat, b: nat)
    requires Inv(s) && a in s.live && b in s.live && a < b
    ensures a + s.live[a] <= b
  {
    hide Sz, Inv, Heads;
    Known(s, a);
    Known(s, b);
    if exists c :: OnSlab(s, a, c) && s.live[a] == Sz(c) {
      var c :| OnSlab(s, a, c) && s.live[a] == Sz(c);
      SlabInside(s, a, c);
      if exists d :: OnSlab(s, b, d) && s.live[b] == Sz(d) {
        var d :| OnSlab(s, b, d) && s.live[b] == Sz(d);
        SlabApart(s, a, c, b, d);
      } else {
        NextPage(a, b, Sz(c));
      }
    } else {
      RunFirst(s, a, b);
    }
  }

  lemma Known(s: State, a: nat)
    requires Inv(s) && a in s.live
    ensures Shaped(s) && LiveOk(s, a)
  {
  }

  lemma NextPage(a: nat, b: nat, n: nat)
    requires a < b && a % PAGE + n <= PAGE && b % PAGE == 0
    ensures a + n <= b
  {
  }

  lemma RunFirst(s: State, a: nat, b: nat)
    requires Inv(s) && a in s.live && b in s.live && a < b
    requires a % PAGE == 0 && Heads(s, a / PAGE) && s.live[a] == s.plen[a / PAGE] * PAGE
    ensures a + s.live[a] <= b
  {
    hide Sz, Inv;
    Known(s, a);
    var h, p, n := a / PAGE, b / PAGE, s.plen[a / PAGE];
    if InRun(s, h, p) {
      RunHolder(s, h, b);
    }
    assert p >= h + n;
    assert p * PAGE >= (h + n) * PAGE == h * PAGE + n * PAGE;
  }

  /** A live object on a page of a run is that run. */
  lemma RunHolder(s: State, h: nat, b: nat)
    requires Inv(s) && b in s.live && InRun(s, h, b / PAGE)
    ensures b == h * PAGE
  {
    assert LiveOk(s, b);
    if Heads(s, b / PAGE) {
      assert InRun(s, b / PAGE, b / PAGE);
    }
  }

  // ---- the steps ----

  /** A run of n pages from page i on is given out. */
  function TakeRun(s: State, i: nat, n: nat): State
    requires Shaped(s) && i < |s.used| && i + n <= |s.used|
  {
    s.(used := SetRun(s.used, i, n, true), pclass := s.pclass[i := RUN], plen := s.plen[i := n],
       live := s.live[i * PAGE := n * PAGE])
  }

  lemma TakeRunOk(s: State, i: nat, n: nat)
    requires Inv(s) && n > 0 && FreeRun(s.used, i, n) && i * PAGE !in s.live && i >= s.first
    ensures Inv(TakeRun(s, i, n))
  {
    hide Sz, SetRun, RunsOk, LiveOk;
    var t := TakeRun(s, i, n);
    assert forall p: nat :: i <= p < i + n ==> s.pclass[p] == 0;
    assert forall h: nat :: Heads(t, h) <==> h == i || Heads(s, h);
    assert forall a: nat, c: nat :: OnSlab(s, a, c) ==> OnSlab(t, a, c);
    TakeRunRuns(s, i, n);
    TakeRunLive(s, i, n);
    forall p | p in t.others
      ensures OtherOk(t, p)
    {
      assert OtherOk(s, p);
      assert forall h: nat :: h != i ==> (InRun(t, h, p) <==> InRun(s, h, p));
    }
    forall a | a in t.live
      ensures LiveOk(t, a)
    {
      if a != i * PAGE {
        LiveStill(s, t, a);
      }
    }
  }

  lemma TakeRunRuns(s: State, i: nat, n: nat)
    requires Shaped(s) && RunsOk(s) && n > 0 && FreeRun(s.used, i, n)
    requires forall p: nat :: i <= p < i + n ==> s.pclass[p] == 0
    ensures RunsOk(TakeRun(s, i, n))
  {
    hide SetRun;
    var t := TakeRun(s, i, n);
    assert forall h: nat, p: nat :: InRun(s, h, p) ==> !(i <= p < i + n);
    assert forall h: nat, p: nat :: InRun(t, h, p) <==> if h == i then i <= p < i + n else InRun(s, h, p);
  }

  lemma TakeRunLive(s: State, i: nat, n: nat)
    requires Shaped(s) && n > 0 && FreeRun(s.used, i, n)
    ensures var t := TakeRun(s, i, n); i * PAGE in t.live && LiveOk(t, i * PAGE)
  {
    hide SetRun, OnSlab;
  }

  lemma TakeRunComplete(s: State, i: nat, n: nat)
    requires Inv(s) && Complete(s) && n > 0 && FreeRun(s.used, i, n)
    ensures Complete(TakeRun(s, i, n))
  {
    hide Sz, SetRun, FreeOk, LiveOk;
    var t := TakeRun(s, i, n);
    assert forall p: nat :: i <= p < i + n ==> s.pclass[p] == 0;
    assert forall h: nat :: Heads(t, h) <==> h == i || Heads(s, h);
    forall a: nat, c: nat | OnSlab(t, a, c)
      ensures Somewhere(t, a, c)
    {
      assert OnSlab(s, a, c);
    }
    forall p: nat | t.first <= p < |t.used| && t.used[p] && t.pclass[p] == 0
      ensures Inner(t, p) || p in t.others
    {
      if i <= p < i + n {
        assert InRun(t, i, p);
      } else if Inner(s, p) {
        var h: nat :| InRun(s, h, p);
        assert InRun(t, h, p);
      }
    }
  }

  /** A live object stays one when its page keeps its role. */
  lemma LiveStill(s: State, t: State, a: nat)
    requires Shaped(s) && Shaped(t) && a in s.live && LiveOk(s, a) && a in t.live && t.live[a] == s.live[a]
    requires forall c: nat :: OnSlab(s, a, c) ==> OnSlab(t, a, c)
    requires Heads(s, a / PAGE) ==> Heads(t, a / PAGE) && t.plen[a / PAGE] == s.plen[a / PAGE]
    ensures LiveOk(t, a)
  {
    hide Sz;
    if exists c :: OnSlab(s, a, c) && s.live[a] == Sz(c) {
      var c :| OnSlab(s, a, c) && s.live[a] == Sz(c);
      assert OnSlab(t, a, c);
    }
  }

  lemma LiveUsed(s: State, a: nat)
    requires Inv(s) && a in s.live
    ensures a / PAGE < |s.used| && s.used[a / PAGE]
  {
    hide Sz;
    assert LiveOk(s, a);
    if Heads(s, a / PAGE) {
      assert InRun(s, a / PAGE, a / PAGE);
    }
  }

  lemma NotLive(s: State, i: nat)
    requires Inv(s) && i < |s.used| && !s.used[i]
    ensures i * PAGE !in s.live
  {
    hide Inv;
    assert i * PAGE / PAGE == i;
    if i * PAGE in s.live {
      LiveUsed(s, i * PAGE);
    }
  }

  /** The objects of a fresh slab, as the carving loop leaves them on the list. */
  function Objects(page: nat, c: nat, off: nat): (r: seq<nat>)
    requires c < CLASSES && off % Sz(c) == 0
    ensures forall i :: 0 <= i < |r| ==> r[i] / PAGE == page && off <= r[i] % PAGE && r[i] % PAGE % Sz(c) == 0
    ensures forall i, j :: 0 <= i < j < |r| ==> r[i] != r[j]
    ensures off + Sz(c) <= PAGE ==> r != []
    decreases PAGE - off
  {
    if off + Sz(c) > PAGE then []
    else
      assert (off + Sz(c)) % Sz(c) == 0 by { ModShift(off, 1, Sz(c)); }
      Objects(page, c, off + Sz(c)) + [page * PAGE + off]
  }

  function NewSlab(s: State, p: nat, c: nat): State
    requires Shaped(s) && p < |s.used| && c < CLASSES
  {
    s.(used := s.used[p := true], pclass := s.pclass[p := c + 1], free := s.free[c := Objects(p, c, 0) + s.free[c]])
  }

  lemma NewSlabOk(s: State, p: nat, c: nat)
    requires Inv(s) && s.first <= p < |s.used| && !s.used[p] && c < CLASSES
    ensures Inv(NewSlab(s, p, c)) && NewSlab(s, p, c).free[c] != []
  {
    hide Sz, Objects, LiveOk;
    var t, os := NewSlab(s, p, c), Objects(p, c, 0);
    SzFits(c);
    assert forall h: nat :: Heads(t, h) <==> Heads(s, h);
    assert forall h: nat, q: nat :: InRun(t, h, q) <==> InRun(s, h, q);
    assert forall a: nat, d: nat :: OnSlab(s, a, d) ==> OnSlab(t, a, d) && a / PAGE != p;
    assert forall i :: 0 <= i < |os| ==> OnSlab(t, os[i], c);
    forall a | a in t.live
      ensures LiveOk(t, a) && a / PAGE != p
    {
      LiveUsed(s, a);
      assert LiveOk(s, a);
      LiveStill(s, t, a);
    }
    OthersStill(s, t);
    hide OnSlab, InRun, Heads;
    NewSlabFree(s, t, p, c, os);
  }

  lemma NewSlabComplete(s: State, p: nat, c: nat)
    requires Inv(s) && Complete(s) && s.first <= p < |s.used| && !s.used[p] && c < CLASSES
    ensures Complete(NewSlab(s, p, c))
  {
    hide Sz, Objects, LiveOk, FreeOk, RunsOk;
    var t := NewSlab(s, p, c);
    Modulus(c);
    forall a: nat, d: nat | OnSlab(t, a, d)
      ensures Somewhere(t, a, d)
    {
      if a / PAGE == p {
        ObjectsAll(p, c, 0, a);
      } else {
        assert OnSlab(s, a, d);
        assert Somewhere(s, a, d);
      }
    }
    forall q: nat | t.first <= q < |t.used| && t.used[q] && t.pclass[q] == 0
      ensures Inner(t, q) || q in t.others
    {
      if Inner(s, q) {
        var h: nat :| InRun(s, h, q);
        assert InRun(t, h, q);
      }
    }
  }

  lemma Modulus(c: nat)
    requires c < CLASSES
    ensures 0 % Sz(c) == 0
  {
  }

  /** The carving loop leaves out no object of the page. */
  lemma {:induction false} ObjectsAll(page: nat, c: nat, off: nat, a: nat)
    requires c < CLASSES && off % Sz(c) == 0 && a / PAGE == page && a % PAGE % Sz(c) == 0 && off <= a % PAGE
    ensures a in Objects(page, c, off)
    decreases PAGE - off
  {
    hide Sz;
    Divides(c);
    Multiples(a % PAGE, PAGE, Sz(c));
    ObjectsStep(page, c, off);
    if a % PAGE == off {
      assert a == page * PAGE + off;
    } else {
      Multiples(off, a % PAGE, Sz(c));
      ObjectsAll(page, c, off + Sz(c), a);
    }
  }

  lemma SzFits(c: nat)
    requires c < CLASSES
    ensures 0 < Sz(c) <= PAGE
  {
    Divides(c);
    SizeTable();
  }

  lemma NewSlabFree(s: State, t: State, p: nat, c: nat, os: seq<nat>)
    requires Shaped(s) && FreeOk(s) && Shaped(t) && c < CLASSES && t.live == s.live
      && t.free == s.free[c := os + s.free[c]]
    requires forall a: nat, d: nat :: OnSlab(s, a, d) ==> OnSlab(t, a, d) && a / PAGE != p
    requires forall i :: 0 <= i < |os| ==> OnSlab(t, os[i], c) && os[i] / PAGE == p
    requires (forall i, j :: 0 <= i < j < |os| ==> os[i] != os[j]) && forall a :: a in t.live ==> a / PAGE != p
    ensures FreeOk(t)
  {
    hide Sz, OnSlab;
    forall d, i | 0 <= d < CLASSES && 0 <= i < |t.free[d]|
      ensures OnSlab(t, t.free[d][i], d) && t.free[d][i] !in t.live
    {
      if d == c && i < |os| {
        assert t.free[d][i] == os[i];
      } else {
        assert t.free[d][i] == s.free[d][if d == c then i - |os| else i];
      }
    }
    forall d, i, j | 0 <= d < CLASSES && 0 <= i < j < |t.free[d]|
      ensures t.free[d][i] != t.free[d][j]
    {
      if d == c && i < |os| && j >= |os| {
        assert OnSlab(s, s.free[d][j - |os|], d);
      }
    }
  }

  /** The first object of a free list is given out. */
  function Pop(s: State, c: nat): State
    requires Shaped(s) && c < CLASSES && s.free[c] != []
  {
    s.(free := s.free[c := s.free[c][1..]], live := s.live[s.free[c][0] := Sz(c)])
  }

  lemma PopOk(s: State, c: nat)
    requires Inv(s) && c < CLASSES && s.free[c] != []
    ensures Inv(Pop(s, c)) && s.free[c][0] !in s.live
  {
    hide Sz;
    var t, a := Pop(s, c), s.free[c][0];
    assert OnSlab(s, a, c);
    assert forall h: nat, p: nat :: InRun(t, h, p) <==> InRun(s, h, p);
    assert forall b: nat, d: nat :: OnSlab(t, b, d) <==> OnSlab(s, b, d);
    forall d, i | 0 <= d < CLASSES && 0 <= i < |t.free[d]|
      ensures OnSlab(t, t.free[d][i], d) && t.free[d][i] !in t.live
    {
      assert t.free[d][i] == s.free[d][if d == c then i + 1 else i];
      assert OnSlab(s, t.free[d][i], d);
    }
    OthersStill(s, t);
    forall b | b in t.live
      ensures LiveOk(t, b)
    {
      if b == a {
        assert OnSlab(t, a, c);
      } else {
        LiveStill(s, t, b);
      }
    }
  }

  /** A slab object goes back on its list. */
  function Push(s: State, a: nat, c: nat): State
    requires Shaped(s) && c < CLASSES
  {
    s.(free := s.free[c := [a] + s.free[c]], live := s.live - {a})
  }

  lemma PopComplete(s: State, c: nat)
    requires Inv(s) && Complete(s) && c < CLASSES && s.free[c] != []
    ensures Complete(Pop(s, c))
  {
    hide Sz, LiveOk, FreeOk, RunsOk;
    var t := Pop(s, c);
    forall a: nat, d: nat | OnSlab(t, a, d)
      ensures Somewhere(t, a, d)
    {
      assert OnSlab(s, a, d) && Somewhere(s, a, d);
      assert s.free[c] == [s.free[c][0]] + s.free[c][1..];
    }
    RunsAlike(s, t);
  }

  /** Lists and live slab objects do not matter to runs. */
  lemma RunsAlike(s: State, t: State)
    requires Shaped(s) && Complete(s) && t == s.(free := t.free, live := t.live) && |t.free| == CLASSES
    requires forall h: nat :: Heads(s, h) && h * PAGE in s.live ==> h * PAGE in t.live
    ensures forall h: nat :: Heads(t, h) ==> h * PAGE in t.live
    ensures forall p: nat :: t.first <= p < |t.used| && t.used[p] && t.pclass[p] == 0 ==> Inner(t, p) || p in t.others
  {
    hide OnSlab;
    forall p: nat | t.first <= p < |t.used| && t.used[p] && t.pclass[p] == 0
      ensures Inner(t, p) || p in t.others
    {
      if Inner(s, p) {
        var h: nat :| InRun(s, h, p);
        assert InRun(t, h, p);
      }
    }
  }

  lemma PushComplete(s: State, a: nat, c: nat)
    requires Inv(s) && Complete(s) && a in s.live && OnSlab(s, a, c)
    ensures Complete(Push(s, a, c))
  {
    hide Sz, LiveOk, FreeOk, RunsOk;
    var t := Push(s, a, c);
    forall b: nat, d: nat | OnSlab(t, b, d)
      ensures Somewhere(t, b, d)
    {
      assert OnSlab(s, b, d) && Somewhere(s, b, d);
    }
    forall h: nat | Heads(s, h) && h * PAGE in s.live
      ensures h * PAGE in t.live
    {
      PageStart(h);
    }
    RunsAlike(s, t);
  }

  lemma PageStart(h: nat)
    ensures h * PAGE / PAGE == h
  {
  }

  lemma PushOk(s: State, a: nat, c: nat)
    requires Inv(s) && a in s.live && OnSlab(s, a, c)
    ensures Inv(Push(s, a, c))
  {
    hide Sz;
    var t := Push(s, a, c);
    assert forall h: nat, p: nat :: InRun(t, h, p) <==> InRun(s, h, p);
    assert forall b: nat, d: nat :: OnSlab(t, b, d) <==> OnSlab(s, b, d);
    forall d, i | 0 <= d < CLASSES && 0 <= i < |t.free[d]|
      ensures OnSlab(t, t.free[d][i], d) && t.free[d][i] !in t.live
    {
      if d == c && i == 0 {
        assert t.free[d][i] == a;
      } else {
        assert t.free[d][i] == s.free[d][if d == c then i - 1 else i];
      }
    }
    OthersStill(s, t);
    forall b | b in t.live
      ensures LiveOk(t, b)
    {
      LiveStill(s, t, b);
    }
  }

  /** Other code's pages stay so when they keep their marks and no run comes over them. */
  lemma OthersStill(s: State, t: State)
    requires Shaped(s) && Shaped(t) && t.first == s.first && t.others == s.others
    requires forall p :: p in s.others ==> OtherOk(s, p)
    requires forall p :: p in s.others ==> p < |t.used| && t.used[p] && t.pclass[p] == 0
    requires forall h: nat, p: nat :: InRun(t, h, p) ==> InRun(s, h, p)
    ensures forall p :: p in t.others ==> OtherOk(t, p)
  {
  }

  /** A run goes back. */
  function DropRun(s: State, h: nat): State
    requires Shaped(s) && h < |s.used| && h + s.plen[h] <= |s.used|
  {
    s.(used := SetRun(s.used, h, s.plen[h], false), pclass := s.pclass[h := 0], live := s.live - {h * PAGE})
  }

  lemma DropRunComplete(s: State, h: nat)
    requires Inv(s) && Complete(s) && Heads(s, h) && h * PAGE in s.live
    ensures h + s.plen[h] <= |s.used| && Complete(DropRun(s, h))
  {
    hide Sz, SetRun, LiveOk, FreeOk;
    var t := DropRun(s, h);
    forall a: nat, c: nat | OnSlab(t, a, c)
      ensures Somewhere(t, a, c)
    {
      assert OnSlab(s, a, c) && Somewhere(s, a, c);
      PageStart(h);
    }
    forall p: nat | t.first <= p < |t.used| && t.used[p] && t.pclass[p] == 0
      ensures Inner(t, p) || p in t.others
    {
      assert !(h <= p < h + s.plen[h]);
      if Inner(s, p) {
        var g: nat :| InRun(s, g, p);
        assert InRun(t, g, p);
      }
    }
  }

  lemma DropRunOk(s: State, h: nat)
    requires Inv(s) && Heads(s, h) && h * PAGE in s.live
    ensures h + s.plen[h] <= |s.used| && Inv(DropRun(s, h))
  {
    hide Sz, SetRun, LiveOk, OnSlab;
    var t := DropRun(s, h);
    assert forall g: nat :: Heads(t, g) <==> g != h && Heads(s, g);
    assert forall g: nat, p: nat :: InRun(t, g, p) <==> g != h && InRun(s, g, p);
    assert forall g: nat, p: nat :: g != h && InRun(s, g, p) ==> !InRun(s, h, p);
    forall a: nat, c: nat | OnSlab(s, a, c)
      ensures OnSlab(t, a, c)
    {
      SlabKept(s, h, a, c);
    }
    forall b | b in t.live
      ensures LiveOk(t, b)
    {
      DropLive(s, h, b);
    }
    DropFree(s, t);
    forall p | 0 <= p < |t.used| && !t.used[p]
      ensures t.pclass[p] == 0
    {
      assert h <= p < h + s.plen[h] ==> InRun(s, h, p);
    }
    assert forall p :: p in s.others ==> OtherOk(s, p) && !InRun(s, h, p);
    OthersStill(s, t);
    assert RunsOk(t);
  }

  lemma SlabKept(s: State, h: nat, a: nat, c: nat)
    requires Inv(s) && Heads(s, h) && OnSlab(s, a, c)
    ensures h + s.plen[h] <= |s.used| && OnSlab(DropRun(s, h), a, c)
  {
    hide Sz, SetRun, LiveOk, FreeOk;
    assert !InRun(s, h, a / PAGE);
  }

  lemma DropLive(s: State, h: nat, b: nat)
    requires Inv(s) && Heads(s, h) && b in s.live && b != h * PAGE
    ensures h + s.plen[h] <= |s.used| && LiveOk(DropRun(s, h), b)
  {
    hide Sz, SetRun, FreeOk, OnSlab;
    assert LiveOk(s, b);
    forall c: nat | OnSlab(s, b, c)
      ensures OnSlab(DropRun(s, h), b, c)
    {
      SlabKept(s, h, b, c);
    }
    assert b % PAGE == 0 ==> b / PAGE != h;
    HeadOrSlab(s, DropRun(s, h), b);
  }

  lemma HeadOrSlab(s: State, t: State, b: nat)
    requires Shaped(s) && Shaped(t) && b in s.live && LiveOk(s, b) && b in t.live && t.live[b] == s.live[b]
    requires forall c: nat :: OnSlab(s, b, c) ==> OnSlab(t, b, c)
    requires b % PAGE == 0 && Heads(s, b / PAGE) ==> Heads(t, b / PAGE) && t.plen[b / PAGE] == s.plen[b / PAGE]
    ensures LiveOk(t, b)
  {
    hide Sz;
    if exists c :: OnSlab(s, b, c) && s.live[b] == Sz(c) {
      var c :| OnSlab(s, b, c) && s.live[b] == Sz(c);
      assert OnSlab(t, b, c);
    }
  }

  lemma DropFree(s: State, t: State)
    requires Shaped(s) && Shaped(t) && FreeOk(s) && t.free == s.free && t.live.Keys <= s.live.Keys
    requires forall a: nat, c: nat :: OnSlab(s, a, c) ==> OnSlab(t, a, c)
    ensures FreeOk(t)
  {
    hide OnSlab;
  }

  // ---- free lists in the objects' own words ----

  /** Cells of low memory, by address. */
  type Cells = map<nat, nat>

  /** The pointer after the first i objects of a list: the next object, or null. */
  function Link(os: seq<nat>, i: nat): nat {
    if i < |os| then os[i] else 0
  }

  /** The list's objects are chained through their first cells. */
  ghost predicate Chained(m: Cells, head: nat, os: seq<nat>) {
    head == Link(os, 0) && forall i :: 0 <= i < |os| ==> os[i] in m && m[os[i]] == Link(os, i + 1)
  }

  ghost predicate AllChained(m: Cells, heads: seq<nat>, free: seq<seq<nat>>) {
    |heads| == |free| == CLASSES && forall c :: 0 <= c < CLASSES ==> Chained(m, heads[c], free[c])
  }

  /** Memory has a cell for every address below n. */
  ghost predicate Whole(m: Cells, n: nat) {
    forall a: nat :: a < n ==> a in m
  }

  /** The same cells outside at up to at + n. */
  ghost predicate Outside(m: Cells, k: Cells, at: nat, n: nat) {
    k.Keys == m.Keys && forall a :: a in m && !(at <= a < at + n) ==> k[a] == m[a]
  }

  ghost predicate Zeroed(m: Cells, at: nat, n: nat) {
    forall a: nat :: at <= a < at + n ==> a in m && m[a] == 0
  }

  ghost predicate SameObject(m: Cells, k: Cells, at: nat, n: nat) {
    forall a: nat :: at <= a < at + n && a in m ==> a in k && k[a] == m[a]
  }

  /** Every object in live keeps its cells. */
  ghost predicate Untouched(m: Cells, k: Cells, live: map<nat, nat>) {
    forall a :: a in live ==> SameObject(m, k, a, live[a])
  }

  /** Every page in ps keeps its cells. */
  ghost predicate PagesKept(m: Cells, k: Cells, ps: set<nat>) {
    forall p :: p in ps ==> SameObject(m, k, p * PAGE, PAGE)
  }

  /** Nobody's cells change: neither those of live objects nor those on other code's pages. */
  ghost predicate AllKept(m: Cells, k: Cells, live: map<nat, nat>, ps: set<nat>) {
    Untouched(m, k, live) && PagesKept(m, k, ps)
  }

  lemma KeptTrans(m: Cells, k: Cells, n: Cells, live: map<nat, nat>, ps: set<nat>)
    requires AllKept(m, k, live, ps) && AllKept(k, n, live, ps)
    ensures AllKept(m, n, live, ps)
  {
    UntouchedTrans(m, k, n, live);
    forall p | p in ps
      ensures SameObject(m, n, p * PAGE, PAGE)
    {
      assert SameObject(m, k, p * PAGE, PAGE) && SameObject(k, n, p * PAGE, PAGE);
    }
  }

  lemma UntouchedTrans(m: Cells, k: Cells, n: Cells, live: map<nat, nat>)
    requires Untouched(m, k, live) && Untouched(k, n, live)
    ensures Untouched(m, n, live)
  {
    forall a | a in live
      ensures SameObject(m, n, a, live[a])
    {
      assert SameObject(m, k, a, live[a]) && SameObject(k, n, a, live[a]);
    }
  }

  /** Writing elsewhere keeps a list. */
  lemma ChainKept(m: Cells, k: Cells, at: nat, n: nat, head: nat, os: seq<nat>)
    requires Chained(m, head, os) && Outside(m, k, at, n) && forall i :: 0 <= i < |os| ==> !(at <= os[i] < at + n)
    ensures Chained(k, head, os)
  {
  }

  lemma ChainPush(m: Cells, head: nat, os: seq<nat>, a: nat)
    requires Chained(m, head, os) && a in m && a !in os
    ensures Chained(m[a := head], a, [a] + os)
  {
  }

  lemma ChainPop(m: Cells, head: nat, os: seq<nat>)
    requires Chained(m, head, os) && os != []
    ensures head == os[0] && head in m && Chained(m, m[head], os[1..])
  {
  }

  /** A live object lies on used pages. */
  lemma LivePages(s: State, a: nat, x: nat)
    requires Inv(s) && a in s.live && a <= x < a + s.live[a]
    ensures x / PAGE < |s.used| && s.used[x / PAGE]
  {
    hide Sz, FreeOk;
    assert LiveOk(s, a);
    if exists c :: OnSlab(s, a, c) && s.live[a] == Sz(c) {
      var c :| OnSlab(s, a, c) && s.live[a] == Sz(c);
      SlabInside(s, a, c);
      SamePage(a, x, Sz(c));
    } else {
      RunPage(a, x, s.plen[a / PAGE]);
      assert InRun(s, a / PAGE, x / PAGE);
    }
  }

  lemma SamePage(a: nat, x: nat, n: nat)
    requires a <= x < a + n && a % PAGE + n <= PAGE
    ensures x / PAGE == a / PAGE
  {
  }

  lemma RunPage(a: nat, x: nat, n: nat)
    requires a % PAGE == 0 && a <= x < a + n * PAGE
    ensures a / PAGE <= x / PAGE < a / PAGE + n
  {
  }

  /** Pages that are free hold no live object's cells and no free object. */
  lemma FreshPages(s: State, m: Cells, k: Cells, i: nat, n: nat)
    requires Inv(s) && FreeRun(s.used, i, n) && Outside(m, k, i * PAGE, n * PAGE)
    ensures AllKept(m, k, s.live, s.others)
    ensures forall c, j :: 0 <= c < CLASSES && 0 <= j < |s.free[c]| ==>
      !(i * PAGE <= s.free[c][j] < i * PAGE + n * PAGE)
  {
    hide Sz, Inv;
    Shapes(s);
    forall p | p in s.others
      ensures SameObject(m, k, p * PAGE, PAGE)
    {
      OtherAt(s, p);
      PagesApart(p, i, n);
    }
    forall a | a in s.live
      ensures SameObject(m, k, a, s.live[a])
    {
      forall x: nat | a <= x < a + s.live[a] && x in m
        ensures x in k && k[x] == m[x]
      {
        LivePages(s, a, x);
        PageIn(x, i, n);
      }
    }
    forall c, j | 0 <= c < CLASSES && 0 <= j < |s.free[c]|
      ensures !(i * PAGE <= s.free[c][j] < i * PAGE + n * PAGE)
    {
      FreeOnSlab(s, c, j);
      PageIn(s.free[c][j], i, n);
    }
  }

  lemma OtherAt(s: State, p: nat)
    requires Inv(s) && p in s.others
    ensures p < |s.used| && s.used[p] && s.pclass[p] == 0 && s.first <= p && forall h: nat :: !InRun(s, h, p)
  {
    assert OtherOk(s, p);
  }

  lemma PagesApart(p: nat, i: nat, n: nat)
    ensures !(i <= p < i + n) ==> p * PAGE + PAGE <= i * PAGE || i * PAGE + n * PAGE <= p * PAGE
  {
  }

  lemma PageIn(x: nat, i: nat, n: nat)
    ensures i * PAGE <= x < i * PAGE + n * PAGE ==> i <= x / PAGE < i + n
  {
  }

  lemma FreeOnSlab(s: State, c: nat, j: nat)
    requires Inv(s) && c < CLASSES && j < |s.free[c]|
    ensures OnSlab(s, s.free[c][j], c) && s.free[c][j] !in s.live
  {
  }

  /** An object on no list and not live shares no cell with a live one or with the head cell of a free one. */
  lemma ObjectAlone(s: State, m: Cells, k: Cells, o: nat, c: nat)
    requires Inv(s) && o in s.live && c < CLASSES && OnSlab(s, o, c) && s.live[o] == Sz(c) && Outside(m, k, o, Sz(c))
    ensures AllKept(m, k, s.live - {o}, s.others)
    ensures forall d, j :: 0 <= d < CLASSES && 0 <= j < |s.free[d]| ==> !(o <= s.free[d][j] < o + Sz(c))
  {
    hide Sz, Inv, OnSlab;
    Shapes(s);
    forall p | p in s.others
      ensures SameObject(m, k, p * PAGE, PAGE)
    {
      SlabNotOther(s, o, c, p);
    }
    forall a | a in s.live - {o}
      ensures SameObject(m, k, a, s.live[a])
    {
      if a < o {
        LiveApart(s, a, o);
      } else {
        LiveApart(s, o, a);
      }
    }
    forall d, j | 0 <= d < CLASSES && 0 <= j < |s.free[d]|
      ensures !(o <= s.free[d][j] < o + Sz(c))
    {
      FreeOnSlab(s, d, j);
      if o < s.free[d][j] {
        SlabApart(s, o, c, s.free[d][j], d);
      }
    }
  }

  /** A slab object lies on no page of other code. */
  lemma SlabNotOther(s: State, o: nat, c: nat, p: nat)
    requires Inv(s) && c < CLASSES && OnSlab(s, o, c) && p in s.others
    ensures o + Sz(c) <= p * PAGE || p * PAGE + PAGE <= o
  {
    hide Sz;
    OtherAt(s, p);
    SlabInside(s, o, c);
    ObjectPage(o, Sz(c), p);
  }

  lemma ObjectPage(o: nat, n: nat, p: nat)
    requires o % PAGE + n <= PAGE && o / PAGE != p
    ensures o + n <= p * PAGE || p * PAGE + PAGE <= o
  {
  }

  /** A live object lies on no page of other code. */
  lemma LiveNotOther(s: State, a: nat, p: nat)
    requires Inv(s) && a in s.live && p in s.others
    ensures a + s.live[a] <= p * PAGE || p * PAGE + PAGE <= a
  {
    hide Sz, Inv;
    Known(s, a);
    OtherAt(s, p);
    if exists c :: OnSlab(s, a, c) && s.live[a] == Sz(c) {
      var c :| OnSlab(s, a, c) && s.live[a] == Sz(c);
      SlabNotOther(s, a, c, p);
    } else {
      var h := a / PAGE;
      assert !InRun(s, h, p);
      PagesApart(p, h, s.plen[h]);
    }
  }

  // ---- kmalloc and kfree ----

  class Slabs {
    var mem: Cells
    var heads: seq<nat>
    var used: seq<bool>
    var pclass: seq<nat>
    var plen: seq<nat>
    const first: nat
    ghost var free: seq<seq<nat>>
    ghost var live: map<nat, nat>
    ghost var others: set<nat>

    ghost function Abs(): State
      reads this
    {
      State(used, pclass, plen, first, free, live, others)
    }

    ghost predicate Valid()
      reads this
    {
      Inv(Abs()) && Complete(Abs()) && AllChained(mem, heads, free) && Whole(mem, |used| * PAGE)
    }

    /** The kernel ends below page first; no page from there on is in use. */
    constructor (first: nat)
      requires 0 < first < LOW_PAGES
      ensures Valid() && live == map[] && others == {}
    {
      this.first := first;
      mem := map a: nat | a < LOW_PAGES * PAGE && Address(a) :: 0;
      heads := seq(CLASSES, i => 0);
      used, pclass, plen := seq(LOW_PAGES, i => i < first), seq(LOW_PAGES, i => 0), seq(LOW_PAGES, i => 0);
      free, live, others := seq(CLASSES, i => []), map[], {};
      new;
      assert forall a: nat :: a < LOW_PAGES * PAGE ==> Address(a);
    }

    /** memset to zero. */
    method Clear(at: nat, n: nat)
      requires forall a: nat :: at <= a < at + n ==> a in mem
      modifies this`mem
      ensures Outside(old(mem), mem, at, n) && Zeroed(mem, at, n)
    {
      var i := 0;
      while i < n
        invariant i <= n && Outside(old(mem), mem, at, n)
        invariant forall a: nat :: at <= a < at + i ==> a in mem && mem[a] == 0
      {
        mem := mem[at + i := 0];
        i := i + 1;
      }
    }

    /** low_alloc_n: the lowest run of n free pages, marked and cleared. */
    method LowAlloc(n: nat) returns (r: Option<nat>)
      requires Valid()
      modifies this`mem, this`used
      ensures r.None? <==> forall j: nat :: first <= j ==> !FreeRun(old(used), j, n)
      ensures r.None? ==> mem == old(mem) && used == old(used)
      ensures r.Some? ==>
        && first <= r.value && FreeRun(old(used), r.value, n) && used == SetRun(old(used), r.value, n, true)
        && (forall j :: first <= j < r.value ==> !FreeRun(old(used), j, n))
        && Outside(old(mem), mem, r.value * PAGE, n * PAGE) && Zeroed(mem, r.value * PAGE, n * PAGE)
        && AllKept(old(mem), mem, live, others) && AllChained(mem, heads, free)
    {
      hide Inv, SetRun, AllChained, Complete;
      r := FindRun(used, first, n);
      if r.Some? {
        var i := r.value;
        RunCells(|used|, i, n);
        ghost var s := Abs();
        Clear(i * PAGE, n * PAGE);
        FreshPages(s, old(mem), mem, i, n);
        ListsKept(old(mem), mem, i * PAGE, n * PAGE, heads, free);
        used := SetRun(used, i, n, true);
      }
    }

    /** low_free_n: marks n pages free; a page that is not low memory's to give, or not in use, is a panic. */
    method LowFree(page: nat, n: nat) returns (panic: bool)
      modifies this`used
      ensures !panic <==> forall k :: page <= k < page + n ==> Taken(old(used), first, k)
      ensures !panic ==> (n > 0 ==> page + n <= |old(used)|)
      ensures !panic && n > 0 ==> used == SetRun(old(used), page, n, false)
      ensures n == 0 ==> used == old(used)
    {
      hide SetRun;
      var k := 0;
      while k < n
        invariant k <= n && |used| == |old(used)|
        invariant (k > 0 ==> page + k <= |used|) && forall j :: page <= j < page + k ==> Taken(old(used), first, j)
        invariant forall j :: 0 <= j < |used| ==> used[j] == if page <= j < page + k then false else old(used)[j]
      {
        if page + k < first || page + k >= |used| || !used[page + k] {
          assert !Taken(old(used), first, page + k);
          return true;
        }
        used := used[page + k := false];
        k := k + 1;
      }
      return false;
    }

    /** Other code takes n pages: cleared, and nobody else's. */
    method TakePages(n: nat) returns (r: Option<nat>)
      requires Valid() && n > 0
      modifies this
      ensures Valid() && live == old(live) && free == old(free)
      ensures AllKept(old(mem), mem, old(live), old(others))
      ensures r.None? <==> forall j: nat :: first <= j ==> !FreeRun(old(used), j, n)
      ensures r.None? ==> others == old(others) && used == old(used)
      ensures r.Some? ==> others == old(others) + PageSet(r.value, n) && old(others) !! PageSet(r.value, n)
                          && Zeroed(mem, r.value * PAGE, n * PAGE)
    {
      hide Inv, Complete, SetRun, AllChained, AllKept, Zeroed;
      ghost var s := Abs();
      Shapes(s);
      SameEverywhere(mem, live, others);
      r := LowAlloc(n);
      if r.Some? {
        OthersTake(s, r.value, n);
        others := others + PageSet(r.value, n);
        assert Abs() == TakeOther(s, r.value, n);
      }
    }

    /** Other code gives pages back that it holds. */
    method GivePages(page: nat, n: nat) returns (panic: bool)
      requires Valid() && PageSet(page, n) <= others
      modifies this
      ensures Valid() && !panic && live == old(live) && free == old(free) && mem == old(mem)
      ensures others == old(others) - PageSet(page, n)
    {
      hide Inv, Complete, SetRun, AllChained;
      ghost var s := Abs();
      Shapes(s);
      forall k | page <= k < page + n
        ensures Taken(used, first, k)
      {
        assert k in PageSet(page, n);
        OtherAt(s, k);
      }
      panic := LowFree(page, n);
      others := others - PageSet(page, n);
      if n > 0 {
        OthersGive(s, page, n);
        assert Abs() == GiveOther(s, page, n);
      } else {
        assert others == s.others;
      }
    }

    /** A store by whoever owns the cell: the holder of a live object, or other code on its pages. */
    method OwnerStore(a: nat, v: nat, ghost o: nat)
      requires Valid() && ((o in live && o <= a < o + live[o]) || a / PAGE in others)
      modifies this`mem
      ensures Valid() && mem == old(mem)[a := v]
    {
      hide Inv, Complete, AllChained;
      ghost var s := Abs();
      OwnedCell(s, a, o);
      CellThere(mem, |used|, a);
      ListsKept(mem, mem[a := v], a, 1, heads, free);
      mem := mem[a := v];
    }

    /** The carving loop: each object of the fresh page is pushed on the list. */
    method Carve(page: nat, c: nat, sz: nat)
      requires c < CLASSES && sz == Sz(c) && AllChained(mem, heads, free)
      requires forall a: nat :: page * PAGE <= a < page * PAGE + PAGE ==> a in mem
      requires forall d, j :: 0 <= d < CLASSES && 0 <= j < |free[d]| ==> free[d][j] / PAGE != page
      modifies this`mem, this`heads, this`free
      ensures AllChained(mem, heads, free) && free == old(free)[c := Objects(page, c, 0) + old(free)[c]]
      ensures Outside(old(mem), mem, page * PAGE, PAGE)
    {
      hide Sz, Objects, AllChained;
      ListShape(mem, heads, free);
      ZeroMod(sz);
      SzFits(c);
      var off := 0;
      while off + sz <= PAGE
        invariant off <= PAGE && off % sz == 0 && AllChained(mem, heads, free)
          && Outside(old(mem), mem, page * PAGE, PAGE)
        invariant |heads| == |free| == CLASSES && free == old(free)[c := free[c]]
        invariant Objects(page, c, off) + free[c] == Objects(page, c, 0) + old(free)[c]
        invariant forall j :: 0 <= j < |free[c]| ==> free[c][j] / PAGE != page || free[c][j] % PAGE < off
        invariant forall d, j :: 0 <= d < CLASSES && d != c && 0 <= j < |free[d]| ==> free[d][j] / PAGE != page
      {
        ghost var a := page * PAGE + off;
        OffsetOf(page, off);
        ObjectsStep(page, c, off);
        ghost var rest, was := Objects(page, c, off + sz), free[c];
        assert rest + [a] + was == rest + ([a] + was);
        PushKept(mem, heads, free, c, a);
        mem := mem[page * PAGE + off := heads[c]];
        heads := heads[c := page * PAGE + off];
        free := free[c := [a] + free[c]];
        off := off + sz;
      }
      ObjectsEnd(page, c, off);
      assert [] + free[c] == free[c];
    }

    /** A page of low memory becomes a slab of class c. */
    method Refill(c: nat, sz: nat) returns (ok: bool)
      requires Valid() && c < CLASSES && sz == Sz(c)
      modifies this
      ensures Valid() && live == old(live) && others == old(others) && AllKept(old(mem), mem, live, others)
      ensures ok <==> !(forall j: nat :: first <= j ==> !FreeRun(old(used), j, 1))
      ensures ok ==> free[c] != []
      ensures !ok ==> Abs() == old(Abs()) && mem == old(mem) && heads == old(heads)
    {
      hide Inv, Complete, Sz, SetRun, AllChained, Objects, AllKept;
      ghost var s := Abs();
      Shapes(s);
      SameEverywhere(mem, live, others);
      var r := LowAlloc(1);
      if r.None? {
        return false;
      }
      var i := r.value;
      SetOne(s.used, i);
      assert !s.used[i];
      NewSlabOk(s, i, c);
      NewSlabComplete(s, i, c);
      FreeElsewhere(s, i);
      pclass := pclass[i := c + 1];
      ghost var mid := mem;
      PageCells(mem, |used|, i);
      Carve(i, c, sz);
      assert Abs() == NewSlab(s, i, c);
      FreshPages(s, mid, mem, i, 1);
      KeptTrans(old(mem), mid, mem, live, others);
      return true;
    }

    /** kmalloc: an object of at least n bytes, zeroed, apart from every live one and from other code's pages;
        nobody's cells change. The page count is a 32-bit sum: past LONGEST it is zero, and the first page that
        low memory has, whoever holds it, is returned and marked as a run of no pages. */
    method Kmalloc(n: Word) returns (p: nat)
      requires Valid()
      modifies this
      ensures AllKept(old(mem), mem, old(live), old(others)) && others == old(others)
      ensures Valid() <==> n <= LONGEST
      ensures p == 0 ==> Abs() == old(Abs())
      ensures p != 0 && n <= LONGEST ==>
        && p !in old(live) && p in live && live == old(live)[p := live[p]] && live[p] >= n && live[p] > 0
        && Zeroed(mem, p, live[p])
      ensures n <= LONGEST ==> (p == 0 <==> Exhausted(old(Abs()), n))
      ensures n > LONGEST ==> p == first * PAGE && p > 0 && Abs() == EmptyRun(old(Abs()))
    {
      hide Inv, Complete, Sz, SetRun, AllChained, AllKept, Zeroed;
      ghost var s := Abs();
      Shapes(s);
      SameEverywhere(mem, live, others);
      if n > SMALL {
        p := LongObject(n);
        return;
      }
      var c, sz := ClassOf(n);
      ListShape(mem, heads, free);
      EmptyList(mem, heads, s, c);
      assert Pages(n) == 1;
      if heads[c] == 0 {
        var ok := Refill(c, sz);
        if !ok {
          return 0;
        }
      }
      ghost var mid := mem;
      p := TakeFirst(c, sz);
      KeptTrans(old(mem), mid, mem, old(live), old(others));
    }

    /** A request too long for a slab. */
    method LongObject(n: Word) returns (p: nat)
      requires Valid() && n > SMALL
      modifies this
      ensures AllKept(old(mem), mem, old(live), old(others)) && others == old(others)
      ensures Valid() <==> n <= LONGEST
      ensures p == 0 ==> Abs() == old(Abs())
      ensures p != 0 && n <= LONGEST ==>
        && p !in old(live) && p in live && live == old(live)[p := live[p]] && live[p] >= n && live[p] > 0
        && Zeroed(mem, p, live[p])
      ensures n <= LONGEST ==> (p == 0 <==> Exhausted(old(Abs()), n))
      ensures n > LONGEST ==> p == first * PAGE && p > 0 && Abs() == EmptyRun(old(Abs()))
    {
      hide Inv, Complete, Sz, SetRun, AllChained, AllKept, Zeroed, Pages;
      ghost var s := Abs();
      Shapes(s);
      SameEverywhere(mem, live, others);
      PagesExact(n);
      var np := Repr(n + PAGE - 1) / PAGE;
      assert FreeRun(s.used, s.first, 0);
      var r := LowAlloc(np);
      if r.None? {
        return 0;
      }
      var i := r.value;
      if np == 0 {
        NoPages(s, i);
      }
      pclass, plen := pclass[i := RUN], plen[i := np % 0x1_0000];
      p := i * PAGE;
      if n > LONGEST {
        assert Abs() == EmptyRun(s);
        EmptyBreaks(s);
      } else {
        assert FreeRun(s.used, i, Pages(n));
        NotLive(s, i);
        TakeRunOk(s, i, np);
        TakeRunComplete(s, i, np);
        live := live[i * PAGE := np * PAGE];
        assert Abs() == TakeRun(s, i, np);
      }
    }

    /** The size doubles until it is large enough. */
    method ClassOf(n: nat) returns (c: nat, sz: nat)
      requires n <= SMALL
      ensures c == ClassFor(n, 0) && sz == Sz(c)
    {
      hide Sz;
      SizeTable();
      c, sz := 0, 16;
      while sz < n
        invariant c < CLASSES && sz == Sz(c) && ClassFor(n, 0) == ClassFor(n, c)
        decreases CLASSES - c
      {
        assert c != CLASSES - 1;
        SzNext(c);
        sz, c := sz * 2, c + 1;
      }
    }

    /** The first object of a list, unlinked and cleared. */
    method TakeFirst(c: nat, sz: nat) returns (p: nat)
      requires Valid() && c < CLASSES && sz == Sz(c) && free[c] != []
      modifies this
      ensures Valid() && Abs() == Pop(old(Abs()), c) && p == old(free)[c][0] && p != 0 && p !in old(live)
      ensures Zeroed(mem, p, sz) && AllKept(old(mem), mem, old(live), others) && others == old(others)
    {
      hide Inv, Complete, Sz, SetRun, AllChained, OnSlab, AllKept;
      ghost var s := Abs();
      Shapes(s);
      PopOk(s, c);
      PopComplete(s, c);
      FreeAddress(s, c);
      FreeOnSlab(s, c, 0);
      ListShape(mem, heads, free);
      ListPopped(mem, heads, free, c);
      p := heads[c];
      heads := heads[c := mem[p]];
      free, live := free[c := free[c][1..]], live[p := sz];
      ghost var t, mid := Abs(), mem;
      assert t == Pop(s, c);
      SlabStill(s, t, p, c);
      ObjectCells(t, p, c);
      Clear(p, sz);
      ObjectAlone(t, mid, mem, p, c);
      assert live - {p} == old(live);
      ListsKept(mid, mem, p, sz, heads, free);
    }

    /** kfree: of the null pointer or a live object; no other live object changes, nor other code's pages. */
    method Kfree(p: nat)
      requires Valid() && (p != 0 ==> p in live)
      modifies this
      ensures Valid() && live == (if p == 0 then old(live) else old(live) - {p}) && others == old(others)
      ensures AllKept(old(mem), mem, live, others)
    {
      hide Inv, Complete, Sz, SetRun, AllChained, AllKept;
      ghost var s := Abs();
      SameEverywhere(mem, live, others);
      if p == 0 {
        return;
      }
      Known(s, p);
      LiveUsed(s, p);
      var page := p / PAGE;
      var c := pclass[page];
      if c == RUN {
        RunStart(s, p);
        DropRunOk(s, page);
        DropRunComplete(s, page);
        RunUsed(s, page);
        pclass := pclass[page := 0];
        var panic := LowFree(page, plen[page]);
        assert !panic;
        live := live - {p};
        assert Abs() == DropRun(s, page);
        SameEverywhere(mem, live, others);
        return;
      }
      SlabOf(s, p);
      PushOk(s, p, c - 1);
      PushComplete(s, p, c - 1);
      NotListed(s, p);
      ObjectCells(s, p, c - 1);
      ListShape(mem, heads, free);
      ghost var m := mem[p := heads[c - 1]];
      HeadCell(s, mem, m, p, c - 1);
      PushKept(mem, heads, free, c - 1, p);
      mem := mem[p := heads[c - 1]];
      heads := heads[c - 1 := p];
      free, live := free[c - 1 := [p] + free[c - 1]], live - {p};
      assert Abs() == Push(s, p, c - 1);
    }
  }

  predicate Address(a: nat) {
    true
  }

  lemma RunCells(pages: nat, i: nat, n: nat)
    requires i + n <= pages
    ensures i * PAGE + n * PAGE <= pages * PAGE
  {
  }

  lemma ListsKept(m: Cells, k: Cells, at: nat, n: nat, heads: seq<nat>, free: seq<seq<nat>>)
    requires AllChained(m, heads, free) && Outside(m, k, at, n)
    requires forall c, j :: 0 <= c < CLASSES && 0 <= j < |free[c]| ==> !(at <= free[c][j] < at + n)
    ensures AllChained(k, heads, free)
  {
    hide Chained, Outside;
    forall c | 0 <= c < CLASSES
      ensures Chained(k, heads[c], free[c])
    {
      ChainKept(m, k, at, n, heads[c], free[c]);
    }
  }

  /** Pushing an object no list holds. */
  lemma PushKept(m: Cells, heads: seq<nat>, free: seq<seq<nat>>, c: nat, a: nat)
    requires AllChained(m, heads, free) && c < CLASSES && a in m
    requires forall d, j :: 0 <= d < CLASSES && 0 <= j < |free[d]| ==> free[d][j] != a
    ensures AllChained(m[a := heads[c]], heads[c := a], free[c := [a] + free[c]])
  {
    hide Chained;
    var k, hs, fs := m[a := heads[c]], heads[c := a], free[c := [a] + free[c]];
    forall d | 0 <= d < CLASSES
      ensures Chained(k, hs[d], fs[d])
    {
      if d == c {
        ChainPush(m, heads[c], free[c], a);
      } else {
        ChainKept(m, k, a, 1, heads[d], free[d]);
      }
    }
  }

  lemma ListPopped(m: Cells, heads: seq<nat>, free: seq<seq<nat>>, c: nat)
    requires AllChained(m, heads, free) && c < CLASSES && free[c] != []
    ensures heads[c] == free[c][0] && heads[c] in m && AllChained(m, heads[c := m[heads[c]]], free[c := free[c][1..]])
  {
    hide Chained;
    ChainPop(m, heads[c], free[c]);
  }

  /** A null head means an empty list. */
  lemma EmptyList(m: Cells, heads: seq<nat>, s: State, c: nat)
    requires AllChained(m, heads, s.free) && c < CLASSES && Inv(s)
    ensures heads[c] == 0 <==> s.free[c] == []
  {
    assert Chained(m, heads[c], s.free[c]);
    if s.free[c] != [] {
      FreeAddress(s, c);
    }
  }

  lemma ListShape(m: Cells, heads: seq<nat>, free: seq<seq<nat>>)
    requires AllChained(m, heads, free)
    ensures |heads| == |free| == CLASSES
  {
  }

  lemma SameEverywhere(m: Cells, live: map<nat, nat>, ps: set<nat>)
    ensures AllKept(m, m, live, ps)
  {
  }

  /** The pages of a live run are low memory's, and in use. */
  lemma RunUsed(s: State, h: nat)
    requires Inv(s) && Heads(s, h)
    ensures s.plen[h] > 0 && forall k :: h <= k < h + s.plen[h] ==> Taken(s.used, s.first, k)
  {
    hide FreeOk, OnSlab, LiveOk;
    forall k | h <= k < h + s.plen[h]
      ensures Taken(s.used, s.first, k)
    {
      assert InRun(s, h, k);
    }
  }

  // ---- pages of other code ----

  ghost function PageSet(i: nat, n: nat): set<nat> {
    set p | i <= p < i + n && InPages(p, i, n)
  }

  predicate InPages(p: nat, i: nat, n: nat) {
    i <= p < i + n
  }

  ghost function TakeOther(s: State, i: nat, n: nat): State
    requires i + n <= |s.used|
  {
    s.(used := SetRun(s.used, i, n, true), others := s.others + PageSet(i, n))
  }

  ghost function GiveOther(s: State, i: nat, n: nat): State
    requires i + n <= |s.used|
  {
    s.(used := SetRun(s.used, i, n, false), others := s.others - PageSet(i, n))
  }

  lemma OthersTake(s: State, i: nat, n: nat)
    requires Inv(s) && Complete(s) && FreeRun(s.used, i, n) && s.first <= i
    ensures Inv(TakeOther(s, i, n)) && Complete(TakeOther(s, i, n)) && s.others !! PageSet(i, n)
  {
    hide Sz, SetRun, LiveOk, OnSlab;
    var t := TakeOther(s, i, n);
    MarksKept(s, t);
    forall p | p in t.others
      ensures OtherOk(t, p)
    {
      assert p in s.others ==> OtherOk(s, p);
      assert forall h: nat :: InRun(t, h, p) <==> InRun(s, h, p);
    }
    assert forall p :: p in s.others ==> OtherOk(s, p);
  }

  lemma OthersGive(s: State, i: nat, n: nat)
    requires Inv(s) && Complete(s) && i + n <= |s.used| && PageSet(i, n) <= s.others
    ensures Inv(GiveOther(s, i, n)) && Complete(GiveOther(s, i, n))
  {
    hide Sz, SetRun, LiveOk, OnSlab;
    var t := GiveOther(s, i, n);
    forall p: nat | i <= p < i + n
      ensures OtherOk(s, p)
    {
      assert p in PageSet(i, n);
    }
    forall p | 0 <= p < |s.used| && t.used[p] != s.used[p]
      ensures p >= s.first && s.pclass[p] == 0 && forall h: nat :: !InRun(s, h, p)
    {
      assert OtherOk(s, p);
    }
    MarksKept(s, t);
    forall p | p in t.others
      ensures OtherOk(t, p)
    {
      assert OtherOk(s, p) && p !in PageSet(i, n);
      assert forall h: nat :: InRun(t, h, p) <==> InRun(s, h, p);
    }
  }

  /** Only the marks of pages that are neither slabs nor in runs change. */
  lemma MarksKept(s: State, t: State)
    requires Inv(s) && Complete(s) && t == s.(used := t.used, others := t.others) && |t.used| == |s.used|
    requires forall p :: 0 <= p < |s.used| && t.used[p] != s.used[p] ==>
      p >= s.first && s.pclass[p] == 0 && forall h: nat :: !InRun(s, h, p)
    requires forall p :: 0 <= p < |s.used| && p !in s.others && s.used[p] ==> t.used[p]
    requires forall p :: 0 <= p < |s.used| && t.used[p] != s.used[p] ==> (p in t.others <==> t.used[p])
    requires forall p :: 0 <= p < |s.used| && t.used[p] == s.used[p] && p in s.others ==> p in t.others
    ensures Shaped(t) && RunsOk(t) && FreeOk(t) && Complete(t)
    ensures forall a :: a in t.live ==> LiveOk(t, a)
    ensures forall p :: 0 <= p < |t.used| && !t.used[p] ==> t.pclass[p] == 0
    ensures forall p :: 0 <= p < |t.used| && p < t.first ==> t.used[p] && t.pclass[p] == 0
  {
    hide Sz, LiveOk;
    assert forall h: nat, p: nat :: InRun(t, h, p) <==> InRun(s, h, p);
    assert forall a: nat, c: nat :: OnSlab(t, a, c) <==> OnSlab(s, a, c);
    hide OnSlab, InRun;
    forall a | a in t.live
      ensures LiveOk(t, a)
    {
      LiveStill(s, t, a);
    }
    forall a: nat, c: nat | OnSlab(t, a, c)
      ensures Somewhere(t, a, c)
    {
      assert Somewhere(s, a, c);
    }
    forall p: nat | t.first <= p < |t.used| && t.used[p] && t.pclass[p] == 0
      ensures Inner(t, p) || p in t.others
    {
      if s.used[p] && Inner(s, p) {
        var h: nat :| InRun(s, h, p);
        assert InRun(t, h, p);
      }
    }
  }

  /** A cell of a live object, or of other code's, is no free object's first cell. */
  lemma OwnedCell(s: State, a: nat, o: nat)
    requires Inv(s) && ((o in s.live && o <= a < o + s.live[o]) || a / PAGE in s.others)
    ensures a / PAGE < |s.used|
    ensures forall c, j :: 0 <= c < CLASSES && 0 <= j < |s.free[c]| ==> !(a <= s.free[c][j] < a + 1)
  {
    hide Sz, Inv;
    Shapes(s);
    if a / PAGE in s.others {
      OtherAt(s, a / PAGE);
    } else {
      LivePages(s, o, a);
    }
    forall c, j | 0 <= c < CLASSES && 0 <= j < |s.free[c]|
      ensures s.free[c][j] != a
    {
      FreeOnSlab(s, c, j);
      if a / PAGE !in s.others && s.free[c][j] == a {
        LiveNotFree(s, o, a, c);
      }
    }
  }

  /** A slab object inside a live object is that object. */
  lemma LiveNotFree(s: State, o: nat, a: nat, c: nat)
    requires Inv(s) && o in s.live && o <= a < o + s.live[o] && OnSlab(s, a, c)
    ensures a == o
  {
    hide Sz, Inv;
    Known(s, o);
    if exists d :: OnSlab(s, o, d) && s.live[o] == Sz(d) {
      var d :| OnSlab(s, o, d) && s.live[o] == Sz(d);
      if o < a {
        SlabApart(s, o, d, a, c);
      }
    } else {
      RunPage(o, a, s.plen[o / PAGE]);
      RunNotSlab(s, o / PAGE, a, c);
    }
  }

  lemma RunNotSlab(s: State, h: nat, a: nat, c: nat)
    requires Inv(s) && InRun(s, h, a / PAGE)
    ensures !OnSlab(s, a, c)
  {
    hide Sz, FreeOk, LiveOk;
  }

  lemma CellThere(m: Cells, pages: nat, a: nat)
    requires Whole(m, pages * PAGE) && a / PAGE < pages
    ensures a in m
  {
    RunCells(pages, a / PAGE, 1);
  }

  // ---- requests past the longest ----

  /** The longest request whose page count does not wrap to zero. */
  const LONGEST: nat := 0xFFFF_F000

  /** The count covers the request exactly up to the longest. */
  lemma PagesExact(n: Word)
    requires n > SMALL
    ensures n <= LONGEST <==> Repr(n + PAGE - 1) / PAGE * PAGE >= n
    ensures n <= LONGEST ==> Repr(n + PAGE - 1) / PAGE == Pages(n) > 0
    ensures n > LONGEST ==> Repr(n + PAGE - 1) / PAGE == 0
  {
    if n > LONGEST {
      assert Repr(n + PAGE - 1) == n + PAGE - 1 - WORD_MOD;
    } else {
      assert Repr(n + PAGE - 1) == n + PAGE - 1;
    }
  }

  /** kmalloc of 0xFFFFFFFF asks for no page, so it returns page first: given out already when a run starts there,
      and other code's when other code holds it. */
  lemma GivenTwice(s: State)
    requires Inv(s) && Complete(s) && s.used[s.first] && (s.pclass[s.first] == 0 || Heads(s, s.first))
    ensures Repr(0xFFFF_FFFF + PAGE - 1) / PAGE == 0
    ensures s.first * PAGE in s.live || s.first in s.others
  {
    hide FreeOk, OnSlab, LiveOk;
    assert Heads(s, s.first) || Inner(s, s.first) || s.first in s.others;
  }

  /** What kmalloc leaves then: page first, whatever it holds, marked as a run of no pages. */
  function EmptyRun(s: State): State
    requires Shaped(s)
  {
    s.(pclass := s.pclass[s.first := RUN], plen := s.plen[s.first := 0])
  }

  lemma EmptyBreaks(s: State)
    requires Shaped(s)
    ensures !Inv(EmptyRun(s))
  {
    assert Heads(EmptyRun(s), s.first);
  }

  lemma NoPages(s: State, i: nat)
    requires Shaped(s) && s.first <= i && FreeRun(s.used, i, 0)
    requires forall j :: s.first <= j < i ==> !FreeRun(s.used, j, 0)
    ensures i == s.first && SetRun(s.used, i, 0, true) == s.used
  {
    assert FreeRun(s.used, s.first, 0);
  }

  lemma ZeroMod(n: nat)
    requires n > 0
    ensures 0 % n == 0
  {
  }

  lemma OffsetOf(page: nat, off: nat)
    requires off < PAGE
    ensures (page * PAGE + off) / PAGE == page && (page * PAGE + off) % PAGE == off
  {
  }

  lemma ObjectsStep(page: nat, c: nat, off: nat)
    requires c < CLASSES && off % Sz(c) == 0 && off + Sz(c) <= PAGE
    ensures (off + Sz(c)) % Sz(c) == 0 && Objects(page, c, off) == Objects(page, c, off + Sz(c)) + [page * PAGE + off]
  {
    hide Sz;
    ModShift(off, 1, Sz(c));
  }

  lemma ObjectsEnd(page: nat, c: nat, off: nat)
    requires c < CLASSES && off % Sz(c) == 0 && off + Sz(c) > PAGE
    ensures Objects(page, c, off) == []
  {
  }

  lemma SetOne(u: seq<bool>, i: nat)
    requires i < |u|
    ensures SetRun(u, i, 1, true) == u[i := true]
  {
  }

  lemma FreeElsewhere(s: State, i: nat)
    requires Inv(s) && i < |s.used| && !s.used[i]
    ensures forall d, j :: 0 <= d < CLASSES && 0 <= j < |s.free[d]| ==> s.free[d][j] / PAGE != i
  {
    forall d, j | 0 <= d < CLASSES && 0 <= j < |s.free[d]|
      ensures s.free[d][j] / PAGE != i
    {
      FreeOnSlab(s, d, j);
    }
  }

  lemma PageCells(m: Cells, pages: nat, i: nat)
    requires Whole(m, pages * PAGE) && i < pages
    ensures forall a: nat :: i * PAGE <= a < i * PAGE + PAGE ==> a in m
  {
    RunCells(pages, i, 1);
  }

  lemma SzNext(c: nat)
    requires c + 1 < CLASSES
    ensures Sz(c + 1) == 2 * Sz(c)
  {
  }

  lemma SlabStill(s: State, t: State, p: nat, c: nat)
    requires Shaped(s) && Shaped(t) && OnSlab(s, p, c) && t.used == s.used && t.pclass == s.pclass
    ensures OnSlab(t, p, c)
  {
  }

  /** A slab object's cells are in memory. */
  lemma ObjectCells(s: State, p: nat, c: nat)
    requires Shaped(s) && OnSlab(s, p, c)
    ensures Sz(c) > 0 && p + Sz(c) <= |s.used| * PAGE
  {
    hide Sz;
    SlabInside(s, p, c);
    RunCells(|s.used|, p / PAGE, 1);
  }

  lemma SlabOf(s: State, p: nat)
    requires Inv(s) && p in s.live && s.pclass[p / PAGE] != RUN
    ensures var c := s.pclass[p / PAGE]; 0 < c <= CLASSES && OnSlab(s, p, c - 1) && s.live[p] == Sz(c - 1)
  {
    hide Sz;
    assert LiveOk(s, p);
  }

  lemma NotListed(s: State, p: nat)
    requires Inv(s) && p in s.live
    ensures forall d, j :: 0 <= d < CLASSES && 0 <= j < |s.free[d]| ==> s.free[d][j] != p
  {
    forall d, j | 0 <= d < CLASSES && 0 <= j < |s.free[d]|
      ensures s.free[d][j] != p
    {
      FreeOnSlab(s, d, j);
    }
  }

  /** Linking an object writes its own first cell only. */
  lemma HeadCell(s: State, m: Cells, k: Cells, p: nat, c: nat)
    requires Inv(s) && p in s.live && OnSlab(s, p, c) && s.live[p] == Sz(c) && p in m && p in k && k == m[p := k[p]]
    ensures AllKept(m, k, s.live - {p}, s.others)
  {
    hide Sz, Inv;
    SzFits(c);
    ObjectAlone(s, m, k, p, c);
  }

  /** How many pages a request takes when it cannot come from a free list. */
  function Pages(n: nat): nat {
    if n > SMALL then (n + PAGE - 1) / PAGE else 1
  }

  /** A request of n bytes cannot be met. */
  ghost predicate Exhausted(s: State, n: nat)
    requires Shaped(s)
  {
    && (forall j: nat :: s.first <= j ==> !FreeRun(s.used, j, Pages(n)))
    && (n > SMALL || s.free[ClassFor(n, 0)] == [])
  }

  lemma Shapes(s: State)
    requires Inv(s)
    ensures Shaped(s)
  {
  }

  lemma FreeAddress(s: State, c: nat)
    requires Inv(s) && c < CLASSES && s.free[c] != []
    ensures s.free[c][0] > 0
  {
    hide Sz;
    var a := s.free[c][0];
    assert OnSlab(s, a, c);
    ClassNotFirst(s, a / PAGE);
  }

  /** Pages below first carry no class. */
  lemma ClassNotFirst(s: State, p: nat)
    requires Inv(s) && p < |s.used| && s.pclass[p] != 0
    ensures p > 0
  {
  }

  lemma RunStart(s: State, p: nat)
    requires Inv(s) && p in s.live && s.pclass[p / PAGE] == RUN
    ensures p == p / PAGE * PAGE && Heads(s, p / PAGE)
  {
    assert LiveOk(s, p);
  }
}
