/** The C library's heap: an address-ordered free list that splits on malloc and merges on free. */
module FreeList {
  const HEADER: nat := 8
  const SPLIT: nat := 32

  /** A block, header included. */
  datatype Blk = Blk(at: nat, size: nat)

  function EndOf(b: Blk): nat {
    b.at + b.size
  }

  /** The block size malloc takes for a request of n bytes. */
  function Needed(n: nat): (r: nat)
    ensures r % 8 == 0 && r >= 16 && r >= n + HEADER
  {
    (if n == 0 then 1 + HEADER + 7 else n + HEADER + 7) / 8 * 8
  }

  predicate Sound(b: Blk) {
    b.at > 0 && b.at % 8 == 0 && b.size % 8 == 0 && b.size >= 16
  }

  /** Strictly ordered by address, disjoint, and no two adjacent. */
  ghost predicate Ordered(fs: seq<Blk>) {
    && (forall i :: 0 <= i < |fs| ==> Sound(fs[i]))
    && (forall i, j :: 0 <= i < j < |fs| ==> EndOf(fs[i]) < fs[j].at)
  }

  predicate Apart(a: Blk, b: Blk) {
    EndOf(a) <= b.at || EndOf(b) <= a.at
  }

  ghost predicate AllApart(b: Blk, bs: seq<Blk>) {
    forall i :: 0 <= i < |bs| ==> Apart(b, bs[i])
  }

  function Sum(bs: seq<Blk>): nat {
    if bs == [] then 0 else bs[0].size + Sum(bs[1..])
  }

  lemma {:induction false} SumConcat(a: seq<Blk>, b: seq<Blk>)
    ensures Sum(a + b) == Sum(a) + Sum(b)
  {
    if a == [] {
      assert a + b == b;
    } else {
      SumConcat(a[1..], b);
      assert (a + b)[1..] == a[1..] + b;
    }
  }

  // ---- malloc's list ----

  /** The first block large enough, or |fs|. */
  function FirstFit(fs: seq<Blk>, need: nat, k: nat): (r: nat)
    requires k <= |fs|
    ensures k <= r <= |fs| && (r < |fs| ==> fs[r].size >= need)
    ensures forall i :: k <= i < r ==> fs[i].size < need
    decreases |fs| - k
  {
    if k == |fs| || fs[k].size >= need then k else FirstFit(fs, need, k + 1)
  }

  function Carved(b: Blk, need: nat): Blk
    requires b.size >= need
  {
    if b.size - need >= SPLIT then Blk(b.at, need) else b
  }

  /** The list after block k was given out: its tail stays when it is worth keeping. */
  function Carve(fs: seq<Blk>, k: nat, need: nat): seq<Blk>
    requires k < |fs| && fs[k].size >= need
  {
    if fs[k].size - need >= SPLIT then fs[k := Blk(fs[k].at + need, fs[k].size - need)] else fs[..k] + fs[k + 1..]
  }

  lemma ListOrdered(fs: seq<Blk>, k: nat, c: Blk, rest: seq<Blk>)
    requires Ordered(fs) && k <= |fs| && Sound(c) && Ordered(rest)
    requires (k > 0 ==> EndOf(fs[k - 1]) < c.at) && forall i :: 0 <= i < |rest| ==> EndOf(c) < rest[i].at
    ensures Ordered(fs[..k] + [c] + rest)
  {
    var gs := fs[..k] + [c] + rest;
    forall i | 0 <= i < k
      ensures EndOf(fs[i]) < c.at
    {
      assert i == k - 1 || EndOf(fs[i]) < fs[k - 1].at;
    }
    forall i, j | 0 <= i < j < |gs|
      ensures EndOf(gs[i]) < gs[j].at
    {
      assert i < k ==> gs[i] == fs[i];
      assert i > k ==> gs[i] == rest[i - k - 1];
      assert j > k ==> gs[j] == rest[j - k - 1];
      assert j < k ==> gs[j] == fs[j];
    }
  }

  lemma Eight(a: nat, b: nat)
    requires a % 8 == 0 && b % 8 == 0
    ensures (a + b) % 8 == 0 && (a >= b ==> (a - b) % 8 == 0)
  {
  }

  lemma Suffix(fs: seq<Blk>, k: nat)
    requires Ordered(fs) && k <= |fs|
    ensures Ordered(fs[k..])
  {
    hide Sound;
  }

  lemma CarveSum(fs: seq<Blk>, k: nat, need: nat)
    requires k < |fs| && fs[k].size >= need
    ensures Sum(Carve(fs, k, need)) + Carved(fs[k], need).size == Sum(fs)
  {
    hide Sum;
    SumMiddle(fs[..k], fs[k], fs[k + 1..]);
    assert fs == fs[..k] + [fs[k]] + fs[k + 1..];
    if fs[k].size - need >= SPLIT {
      var r := Blk(fs[k].at + need, fs[k].size - need);
      SumMiddle(fs[..k], r, fs[k + 1..]);
      assert fs[k := r] == fs[..k] + [r] + fs[k + 1..];
    } else {
      SumConcat(fs[..k], fs[k + 1..]);
    }
  }

  lemma SumMiddle(a: seq<Blk>, b: Blk, c: seq<Blk>)
    ensures Sum(a + [b] + c) == Sum(a) + b.size + Sum(c)
  {
    SumConcat(a + [b], c);
    SumConcat(a, [b]);
    assert Sum([b]) == b.size + Sum([]);
  }

  lemma CarveOrdered(fs: seq<Blk>, k: nat, need: nat)
    requires Ordered(fs) && k < |fs| && fs[k].size >= need && need % 8 == 0 && need >= 16
    ensures Ordered(Carve(fs, k, need)) && Sound(Carved(fs[k], need))
  {
    hide Sound;
    if fs[k].size - need >= SPLIT {
      var r := Blk(fs[k].at + need, fs[k].size - need);
      CarvedSound(fs[k], need);
      Suffix(fs, k + 1);
      ListOrdered(fs, k, r, fs[k + 1..]);
      assert fs[k := r] == fs[..k] + [r] + fs[k + 1..];
    } else {
      Without(fs, k);
    }
  }

  lemma Without(fs: seq<Blk>, k: nat)
    requires Ordered(fs) && k < |fs|
    ensures Ordered(fs[..k] + fs[k + 1..])
  {
    hide Sound;
    var gs := fs[..k] + fs[k + 1..];
    assert forall i :: 0 <= i < |gs| ==> gs[i] == fs[if i < k then i else i + 1];
  }

  lemma CarvedSound(b: Blk, need: nat)
    requires Sound(b) && b.size - need >= SPLIT && need % 8 == 0 && need >= 16
    ensures Sound(Blk(b.at, need)) && Sound(Blk(b.at + need, b.size - need))
  {
    Eight(b.at, need);
    Eight(b.size, need);
  }

  /** What is given out is apart from what stays, and so is whatever was apart from the list. */
  lemma CarveApart(fs: seq<Blk>, k: nat, need: nat, c: Blk)
    requires Ordered(fs) && k < |fs| && fs[k].size >= need
    ensures AllApart(Carved(fs[k], need), Carve(fs, k, need))
    ensures AllApart(c, fs) ==> AllApart(c, Carve(fs, k, need)) && Apart(c, Carved(fs[k], need))
  {
    hide Sound;
    assert AllApart(c, fs) ==> Apart(c, fs[k]);
  }

  // ---- free's list ----

  /** How many blocks of the list lie below address at. */
  function Place(fs: seq<Blk>, at: nat, k: nat): (r: nat)
    requires k <= |fs|
    ensures k <= r <= |fs| && (forall i :: k <= i < r ==> fs[i].at < at) && (r < |fs| ==> fs[r].at >= at)
    decreases |fs| - k
  {
    if k == |fs| || fs[k].at >= at then k else Place(fs, at, k + 1)
  }

  /** b joined with the block that follows it, if they touch. */
  function JoinNext(b: Blk, fs: seq<Blk>, p: nat): Blk
    requires p <= |fs|
  {
    if p < |fs| && EndOf(b) == fs[p].at then Blk(b.at, b.size + fs[p].size) else b
  }

  function After(b: Blk, fs: seq<Blk>, p: nat): seq<Blk>
    requires p <= |fs|
  {
    if p < |fs| && EndOf(b) == fs[p].at then fs[p + 1..] else fs[p..]
  }

  /** The list after b was freed. */
  function Release(fs: seq<Blk>, b: Blk): seq<Blk> {
    var p := Place(fs, b.at, 0);
    var c := JoinNext(b, fs, p);
    if p > 0 && EndOf(fs[p - 1]) == b.at then
      fs[..p - 1] + [Blk(fs[p - 1].at, fs[p - 1].size + c.size)] + After(b, fs, p)
    else fs[..p] + [c] + After(b, fs, p)
  }

  lemma ReleaseSum(fs: seq<Blk>, b: Blk)
    ensures Sum(Release(fs, b)) == Sum(fs) + b.size
  {
    var p := Place(fs, b.at, 0);
    var c, rest := JoinNext(b, fs, p), After(b, fs, p);
    assert fs == fs[..p] + fs[p..];
    SumConcat(fs[..p], fs[p..]);
    assert Sum([c]) == c.size && c.size + Sum(rest) == b.size + Sum(fs[p..]);
    if p > 0 && EndOf(fs[p - 1]) == b.at {
      var d := Blk(fs[p - 1].at, fs[p - 1].size + c.size);
      assert fs[..p] == fs[..p - 1] + [fs[p - 1]];
      SumConcat(fs[..p - 1], [fs[p - 1]]);
      SumConcat(fs[..p - 1] + [d], rest);
      SumConcat(fs[..p - 1], [d]);
      assert Sum([d]) == d.size && Sum([fs[p - 1]]) == fs[p - 1].size;
    } else {
      SumConcat(fs[..p] + [c], rest);
      SumConcat(fs[..p], [c]);
    }
  }

  lemma ReleaseOrdered(fs: seq<Blk>, b: Blk)
    requires Ordered(fs) && Sound(b) && AllApart(b, fs)
    ensures Ordered(Release(fs, b))
  {
    hide Sound;
    var p := Place(fs, b.at, 0);
    var c, rest := JoinNext(b, fs, p), After(b, fs, p);
    NextOk(fs, b, p);
    if p > 0 {
      assert Apart(b, fs[p - 1]) && Sound(fs[p - 1]);
      Positive(b);
      JoinSound(fs[p - 1], c);
    }
    if p > 0 && EndOf(fs[p - 1]) == b.at {
      ListOrdered(fs, p - 1, Blk(fs[p - 1].at, fs[p - 1].size + c.size), rest);
    } else {
      ListOrdered(fs, p, c, rest);
    }
  }

  lemma Positive(b: Blk)
    requires Sound(b)
    ensures b.size > 0
  {
  }

  lemma JoinSound(a: Blk, b: Blk)
    requires Sound(a) && Sound(b)
    ensures Sound(Blk(a.at, a.size + b.size))
  {
    Eight(a.size, b.size);
  }

  lemma NextOk(fs: seq<Blk>, b: Blk, p: nat)
    requires Ordered(fs) && Sound(b) && AllApart(b, fs) && p == Place(fs, b.at, 0)
    ensures var c, rest := JoinNext(b, fs, p), After(b, fs, p);
      Sound(c) && Ordered(rest) && forall i :: 0 <= i < |rest| ==> EndOf(c) < rest[i].at
  {
    hide Sound;
    if p < |fs| {
      assert Apart(b, fs[p]) && Sound(fs[p]);
      Positive(fs[p]);
      JoinSound(b, fs[p]);
      Suffix(fs, p);
      Suffix(fs, p + 1);
    }
  }

  /** Blocks apart from the list and from the freed block stay apart from the list. */
  lemma ReleaseApart(fs: seq<Blk>, b: Blk, d: Blk)
    requires Ordered(fs) && Sound(b) && Sound(d) && AllApart(b, fs) && AllApart(d, fs) && Apart(d, b)
    ensures AllApart(d, Release(fs, b))
  {
    var p := Place(fs, b.at, 0);
    var c, rest := JoinNext(b, fs, p), After(b, fs, p);
    assert p > 0 ==> Apart(b, fs[p - 1]) && Apart(d, fs[p - 1]);
    assert p < |fs| ==> Apart(b, fs[p]) && Apart(d, fs[p]);
    assert Apart(d, c);
    assert AllApart(d, rest);
    if p > 0 && EndOf(fs[p - 1]) == b.at {
      ApartConcat(d, fs[..p - 1], Blk(fs[p - 1].at, fs[p - 1].size + c.size), rest);
    } else {
      ApartConcat(d, fs[..p], c, rest);
    }
  }

  lemma ApartConcat(d: Blk, a: seq<Blk>, c: Blk, rest: seq<Blk>)
    requires AllApart(d, a) && Apart(d, c) && AllApart(d, rest)
    ensures AllApart(d, a + [c] + rest)
  {
  }
}
