/** Exactly when a write fits: every block of it has an address, and there are as many free blocks as
    slots on the way to its blocks that are still empty. */
module DiskSpace {
  import opened Wrappers
  import opened Words
  import opened Bitmaps
  import opened DiskImage
  import opened DiskFiles

  // ---- slots on the way ----

  /** The slots of p from level k down. */
  ghost function Path(p: Pos, k: nat): set<Pos>
    decreases |p.path| + 1 - k
  {
    if k > |p.path| then {} else {Prefix(p, k)} + Path(p, k + 1)
  }

  /** All slots on the way to blocks lo up to hi of file n. */
  ghost function Needed(fs: Fs, n: nat, lo: nat, hi: nat): set<Pos>
    decreases hi - lo
  {
    if lo >= hi then {}
    else
      var p := PosOf(fs, n, lo);
      (if p.Some? then Path(p.value, 0) else {}) + Needed(fs, n, lo + 1, hi)
  }

  ghost function Missing(fs: Fs, s: set<Pos>): set<Pos> {
    set q | q in s && BlockAt(fs, q) == 0
  }

  ghost predicate AllValid(fs: Fs, s: set<Pos>) {
    forall q :: q in s ==> Valid(fs, q)
  }

  /** The block after the last one of len bytes from off on. */
  function BlocksEnd(off: nat, len: nat): nat {
    if len == 0 then off / BS else (off + len - 1) / BS + 1
  }

  lemma {:induction false} PathValid(fs: Fs, p: Pos, k: nat)
    requires Valid(fs, p)
    ensures AllValid(fs, Path(p, k)) && forall q :: q in Path(p, k) ==> |q.path| >= k
    decreases |p.path| + 1 - k
  {
    if k > |p.path| {
    } else {
      PathValid(fs, p, k + 1);
      PrefixFacts(fs, p, k);
    }
  }

  lemma {:induction false} NeededValid(fs: Fs, n: nat, lo: nat, hi: nat)
    requires n < |fs.inodes|
    ensures AllValid(fs, Needed(fs, n, lo, hi))
    decreases hi - lo
  {
    hide PosOf, Path, Valid;
    if lo >= hi {
    } else {
      PosValid(fs, n, lo);
      if PosOf(fs, n, lo).Some? {
        PathValid(fs, PosOf(fs, n, lo).value, 0);
      }
      NeededValid(fs, n, lo + 1, hi);
    }
  }

  lemma {:induction false} NeededSame(fs: Fs, t: Fs, n: nat, lo: nat, hi: nat)
    requires t.v2 == fs.v2
    ensures Needed(t, n, lo, hi) == Needed(fs, n, lo, hi)
    decreases hi - lo
  {
    if lo >= hi {
    } else {
      NeededSame(fs, t, n, lo + 1, hi);
    }
  }

  // ---- one level ----

  lemma {:induction false} ClearZero(bits: seq<bool>)
    ensures Clear(bits) == 0 <==> forall i :: 0 <= i < |bits| ==> bits[i]
  {
    if bits == [] {
    } else {
      ClearZero(bits[1..]);
      if forall i :: 0 <= i < |bits| ==> bits[i] {
        assert forall i :: 0 <= i < |bits[1..]| ==> bits[1..][i] == bits[i + 1];
      } else if bits[0] {
        var i :| 0 <= i < |bits| && !bits[i];
        assert bits[1..][i - 1] == bits[i];
      }
    }
  }

  lemma BooksAgree(fs: Fs)
    requires Inv(fs)
    ensures fs.free >= 0 && (FirstClear(fs.used, 0).None? <==> fs.free == 0)
  {
    ClearZero(fs.used);
  }

  /** An empty slot takes one free block, and then it is the only slot that is no longer empty. */
  lemma LevelCount(fs: Fs, p: Pos, k: nat, s: set<Pos>)
    requires Inv(fs) && Valid(fs, p) && k <= |p.path| && AllValid(fs, s)
    requires k > 0 ==> BlockAt(fs, Prefix(p, k - 1)) != 0
    requires BlockAt(fs, Prefix(p, k)) == 0
    ensures |fs.used| == |fs.blocks| < WORD_MOD
    ensures var r := Level(fs, p, k);
      && (r.Some? <==> fs.free > 0)
      && (r.Some? ==> r.value.free == fs.free - 1 && AllValid(r.value, s) && r.value.v2 == fs.v2
                      && Missing(r.value, s) == Missing(fs, s) - {Prefix(p, k)})
  {
    hide Inv, BlockAt, SetSlot, Valid;
    Facts(fs, p);
    BooksAgree(fs);
    var q := Prefix(p, k);
    PrefixFacts(fs, p, k);
    var b := FirstClear(fs.used, 0);
    if b.Some? {
      var t := SetSlot(Take(fs, b.value), q, b.value);
      LinkOk(fs, q, b.value, t);
      SlotFree(Take(fs, b.value), q, b.value);
    }
  }

  lemma SlotFree(fs: Fs, p: Pos, v: Word)
    ensures SetSlot(fs, p, v).free == fs.free && SetSlot(fs, p, v).v2 == fs.v2
  {
  }

  // ---- the descent ----

  ghost predicate Counted(fs: Fs, r: Option<Fs>, path: set<Pos>, s: set<Pos>) {
    && (r.Some? <==> |Missing(fs, path)| <= fs.free)
    && (r.Some? ==> r.value.free == fs.free - |Missing(fs, path)| && AllValid(r.value, s) && r.value.v2 == fs.v2
                    && Missing(r.value, s) == Missing(fs, s) - path)
  }

  /** A level that is there changes no count. */
  lemma CountThere(fs: Fs, r: Option<Fs>, q: Pos, rest: set<Pos>, s: set<Pos>)
    requires Counted(fs, r, rest, s) && BlockAt(fs, q) != 0
    ensures Counted(fs, r, {q} + rest, s)
  {
    hide BlockAt, Valid;
    assert Missing(fs, {q} + rest) == Missing(fs, rest);
    assert Missing(fs, s) - ({q} + rest) == Missing(fs, s) - rest;
  }

  /** A level that was filled in adds one. */
  lemma CountFilled(fs: Fs, t: Fs, r: Option<Fs>, q: Pos, rest: set<Pos>, s: set<Pos>)
    requires Counted(t, r, rest, s) && BlockAt(fs, q) == 0 && q !in rest
    requires t.free == fs.free - 1 && t.v2 == fs.v2
    requires Missing(t, rest) == Missing(fs, rest) - {q} && Missing(t, s) == Missing(fs, s) - {q}
    ensures Counted(fs, r, {q} + rest, s)
  {
    hide BlockAt, Valid, Missing, AllValid;
    OneMore(fs, q, rest);
    assert Missing(fs, s) - {q} - rest == Missing(fs, s) - ({q} + rest);
  }

  lemma OneMore(fs: Fs, q: Pos, rest: set<Pos>)
    requires BlockAt(fs, q) == 0 && q !in rest
    ensures Missing(fs, rest) - {q} == Missing(fs, rest) && |Missing(fs, {q} + rest)| == |Missing(fs, rest)| + 1
  {
    hide BlockAt;
    assert Missing(fs, {q} + rest) == {q} + Missing(fs, rest) && q !in Missing(fs, rest);
  }

  /** With no free block an empty level ends the write. */
  lemma CountNone(fs: Fs, q: Pos, rest: set<Pos>, s: set<Pos>)
    requires fs.free == 0 && BlockAt(fs, q) == 0
    ensures Counted(fs, None, {q} + rest, s)
  {
    hide BlockAt, Valid;
    assert q in Missing(fs, {q} + rest);
  }

  lemma {:induction false} DescendCount(fs: Fs, p: Pos, k: nat, s: set<Pos>)
    requires Inv(fs) && Valid(fs, p) && k <= |p.path| + 1 && AllValid(fs, s)
    requires k > 0 ==> BlockAt(fs, Prefix(p, k - 1)) != 0
    ensures |fs.used| == |fs.blocks| < WORD_MOD
    ensures Counted(fs, Descend(fs, p, k), Path(p, k), s)
    decreases |p.path| + 1 - k
  {
    hide Inv, BlockAt, Level, Valid, Counted, Missing, AllValid;
    InvSizes(fs);
    BooksAgree(fs);
    if k > |p.path| {
      CountDone(fs, s);
    } else {
      var q, rest := Prefix(p, k), Path(p, k + 1);
      PathValid(fs, p, k + 1);
      LevelOk(fs, p, k);
      if BlockAt(fs, q) != 0 {
        LevelThere(fs, p, k);
        DescendCount(fs, p, k + 1, s);
        CountThere(fs, Descend(fs, p, k + 1), q, rest, s);
      } else {
        LevelCount(fs, p, k, s);
        LevelCount(fs, p, k, rest);
        var r := Level(fs, p, k);
        if r.Some? {
          DescendCount(r.value, p, k + 1, s);
          CountFilled(fs, r.value, Descend(r.value, p, k + 1), q, rest, s);
        } else {
          CountNone(fs, q, rest, s);
        }
      }
    }
  }

  lemma CountDone(fs: Fs, s: set<Pos>)
    requires fs.free >= 0 && AllValid(fs, s)
    ensures Counted(fs, Some(fs), {}, s)
  {
    hide BlockAt, Valid;
    assert Missing(fs, {}) == {};
  }

  lemma LevelThere(fs: Fs, p: Pos, k: nat)
    requires |fs.used| == |fs.blocks| <= WORD_MOD && k <= |p.path| && BlockAt(fs, Prefix(p, k)) != 0
    ensures Level(fs, p, k) == Some(fs)
  {
  }

  // ---- the write ----

  lemma BlockStep(off: nat, len: nat)
    requires len > 0
    ensures var k := Piece(off, len);
      && off / BS < BlocksEnd(off, len)
      && (if k == len then BlocksEnd(off, len) == off / BS + 1
          else (off + k) / BS == off / BS + 1 && BlocksEnd(off + k, len - k) == BlocksEnd(off, len))
  {
  }

  /** What is still needed after the first block of a transfer. */
  lemma NeededStep(fs: Fs, n: nat, off: nat, len: nat)
    requires len > 0 && PosOf(fs, n, off / BS).Some?
    ensures var k := Piece(off, len);
      Needed(fs, n, off / BS, BlocksEnd(off, len))
      == Path(PosOf(fs, n, off / BS).value, 0) + Needed(fs, n, (off + k) / BS, BlocksEnd(off + k, len - k))
  {
    hide PosOf, Path;
    BlockStep(off, len);
  }

  lemma AnyInode(fs: Fs, n: nat, fb: nat)
    ensures PosOf(fs, n, fb).Some? <==> PosOf(fs, 0, fb).Some?
  {
  }

  lemma ReachStep(fs: Fs, n: nat, off: nat, len: nat)
    requires len > 0
    ensures var k := Piece(off, len);
      Reachable(fs, off, len) <==> PosOf(fs, n, off / BS).Some? && Reachable(fs, off + k, len - k)
  {
    hide PosOf;
    var k := Piece(off, len);
    AnyInode(fs, n, off / BS);
    forall x: nat | off <= x < off + k
      ensures x / BS == off / BS
    {
      InBlock(off, k, x);
    }
    if Reachable(fs, off, len) {
      assert PosOf(fs, 0, off / BS).Some?;
    }
  }

  lemma InBlock(off: nat, k: nat, x: nat)
    requires off % BS + k <= BS && off <= x < off + k
    ensures x / BS == off / BS
  {
  }

  lemma ReachSame(fs: Fs, t: Fs, off: nat, len: nat)
    requires t.v2 == fs.v2
    ensures Reachable(t, off, len) <==> Reachable(fs, off, len)
  {
    forall fb: nat
      ensures PosOf(t, 0, fb) == PosOf(fs, 0, fb)
    {
    }
    hide PosOf;
  }

  /** The sizes of two sets of empty slots add up. */
  lemma MissingSum(fs: Fs, a: set<Pos>, b: set<Pos>)
    ensures |Missing(fs, a + b)| == |Missing(fs, a)| + |Missing(fs, b) - a|
  {
    hide BlockAt;
    var x, y := Missing(fs, a), Missing(fs, b) - a;
    assert Missing(fs, a + b) == x + y && x !! y;
  }

  lemma PutMissing(t: Fs, p: Pos, c: Block, s: set<Pos>)
    requires Inv(t) && Valid(t, p) && Leaf(p) && 0 < BlockAt(t, p) < |t.blocks| && AllValid(t, s)
    ensures Missing(PutBlock(t, BlockAt(t, p), c), s) == Missing(t, s)
  {
    hide Inv, BlockAt, Valid, Leaf;
    forall q | q in s
      ensures BlockAt(PutBlock(t, BlockAt(t, p), c), q) == BlockAt(t, q)
    {
      PutSame(t, p, c, q);
    }
  }

  ghost predicate Fits(fs: Fs, n: nat, off: nat, len: nat) {
    Reachable(fs, off, len) && |Missing(fs, Needed(fs, n, off / BS, BlocksEnd(off, len)))| <= fs.free
  }

  lemma {:induction false} WriteCount(fs: Fs, n: nat, data: seq<Byte>, off: nat)
    requires Inv(fs) && n < |fs.inodes|
    ensures |fs.used| == |fs.blocks| < WORD_MOD
    ensures WriteFrom(fs, n, data, off).Some? <==> Fits(fs, n, off, |data|)
    decreases |data|
  {
    hide Inv, PosOf, BlockAt, Descend, Missing, Needed, Reachable, Path, Patch;
    InvSizes(fs);
    BooksAgree(fs);
    if data == [] {
      NothingNeeded(fs, n, off);
    } else {
      var p, k := PosOf(fs, n, off / BS), Piece(off, |data|);
      ReachStep(fs, n, off, |data|);
      if p.Some? {
        var rest := Needed(fs, n, (off + k) / BS, BlocksEnd(off + k, |data| - k));
        NeededStep(fs, n, off, |data|);
        NeededValid(fs, n, (off + k) / BS, BlocksEnd(off + k, |data| - k));
        MissingSum(fs, Path(p.value, 0), rest);
        PosValid(fs, n, off / BS);
        DescendOk(fs, p.value, 0);
        DescendCount(fs, p.value, 0, rest);
        var r := Descend(fs, p.value, 0);
        if r.Some? {
          var t := r.value;
          var u := PieceOk(fs, t, n, data[..k], off);
          PutMissing(t, p.value, Patch(t.blocks[BlockAt(t, p.value)], off % BS, data[..k]), rest);
          NeededSame(fs, u, n, (off + k) / BS, BlocksEnd(off + k, |data| - k));
          ReachSame(fs, u, off + k, |data| - k);
          WriteCount(u, n, data[k..], off + k);
        }
      }
    }
  }

  lemma NothingNeeded(fs: Fs, n: nat, off: nat)
    requires fs.free >= 0
    ensures Fits(fs, n, off, 0)
  {
    assert Missing(fs, {}) == {};
  }

  /** iwrite has a result exactly when the write fits; otherwise the program ends. */
  lemma IwriteExact(fs: Fs, n: nat, data: seq<Byte>, off: nat)
    requires Inv(fs) && n < |fs.inodes|
    ensures |fs.used| == |fs.blocks| < WORD_MOD
    ensures Iwrite(fs, n, data, off).Some? <==> Fits(fs, n, off, |data|)
  {
    hide Fits, Inv, WriteFrom;
    WriteCount(fs, n, data, off);
  }
}
