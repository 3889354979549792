/** Allocating, linking and writing blocks: ownership stays exclusive and no other byte changes. */
module DiskFiles {
  import opened Wrappers
  import opened Words
  import opened Bitmaps
  import opened DiskImage

  // ---- operations ----

  /** The first clear bit at or after b. */
  function FirstClear(used: seq<bool>, b: nat): (r: Option<nat>)
    ensures r.Some? ==> b <= r.value < |used| && !used[r.value]
    ensures r.None? ==> forall i :: b <= i < |used| ==> used[i]
    decreases |used| - b
  {
    if b >= |used| then None else if !used[b] then Some(b) else FirstClear(used, b + 1)
  }

  /** balloc's update: the block is marked, cleared and counted. */
  function Take(fs: Fs, b: nat): Fs
    requires b < |fs.used| == |fs.blocks|
  {
    fs.(used := fs.used[b := true], blocks := fs.blocks[b := ZeroBlock()], free := fs.free - 1)
  }

  /** Stores a block number in a slot. */
  function SetSlot(fs: Fs, p: Pos, v: Word): (t: Fs)
    ensures |t.blocks| == |fs.blocks| && t.used == fs.used && |t.inodes| == |fs.inodes|
  {
    if p.path == [] then
      if p.ino < |fs.inodes| && p.root < |fs.inodes[p.ino].roots| then
        fs.(inodes := fs.inodes[p.ino := fs.inodes[p.ino].(roots := fs.inodes[p.ino].roots[p.root := v])])
      else fs
    else
      var b := BlockAt(fs, Parent(p));
      if b < |fs.blocks| && Last(p) < NIND then
        fs.(blocks := fs.blocks[b := SetEntry(fs.blocks[b], Last(p), v)])
      else fs
  }

  function Prefix(p: Pos, k: nat): Pos
    requires k <= |p.path|
  {
    p.(path := p.path[..k])
  }

  /** The block at level k of p, allocated if it is missing; none when the disk is full. */
  function Level(fs: Fs, p: Pos, k: nat): (r: Option<Fs>)
    requires |fs.used| == |fs.blocks| <= WORD_MOD && k <= |p.path|
    ensures r.Some? ==> |r.value.used| == |r.value.blocks| == |fs.blocks| && |r.value.inodes| == |fs.inodes|
  {
    if BlockAt(fs, Prefix(p, k)) != 0 then Some(fs)
    else
      match FirstClear(fs.used, 0)
      case None => None
      case Some(b) => Some(SetSlot(Take(fs, b), Prefix(p, k), b))
  }

  /** bmap with allocation: every missing block on the way to p, from level k down. */
  function Descend(fs: Fs, p: Pos, k: nat): (r: Option<Fs>)
    requires |fs.used| == |fs.blocks| <= WORD_MOD
    ensures r.Some? ==> |r.value.used| == |r.value.blocks| == |fs.blocks| && |r.value.inodes| == |fs.inodes|
    decreases |p.path| + 1 - k
  {
    if k > |p.path| then Some(fs)
    else
      match Level(fs, p, k)
      case None => None
      case Some(t) => Descend(t, p, k + 1)
  }

  function Patch(b: Block, o: nat, data: seq<Byte>): Block
    requires o + |data| <= BS
  {
    b[..o] + data + b[o + |data|..]
  }

  // ---- linking a fresh block ----

  ghost predicate Linked(fs: Fs, p: Pos, n: nat, t: Fs) {
    && |fs.used| == |fs.blocks| && n < |fs.used| < WORD_MOD && !fs.used[n]
    && Valid(fs, p) && BlockAt(fs, p) == 0 && (p.path != [] ==> BlockAt(fs, Parent(p)) != 0)
    && t == SetSlot(Take(fs, n), p, n)
  }

  lemma Facts(fs: Fs, p: Pos)
    requires Inv(fs) && Valid(fs, p)
    ensures Placed(fs, p) && |fs.used| == |fs.blocks| < WORD_MOD && |fs.inodes[p.ino].roots| == ROOTS && fs.dstart > 0
    ensures p.path != [] ==> Valid(fs, Parent(p)) && Placed(fs, Parent(p)) && Last(p) < NIND
  {
    if p.path != [] {
      assert Valid(fs, Parent(p));
    }
  }

  lemma ApartAt(fs: Fs, p: Pos, q: Pos)
    requires Inv(fs) && Valid(fs, p) && Valid(fs, q)
    ensures Apart(fs, p, q)
  {
  }

  /** Taking a free block does not move the block at any position. */
  lemma {:induction false} TakeSame(fs: Fs, n: nat, q: Pos)
    requires Inv(fs) && Valid(fs, q) && n < |fs.used| && !fs.used[n]
    ensures BlockAt(Take(fs, n), q) == BlockAt(fs, q)
    decreases |q.path|
  {
    hide Inv;
    Facts(fs, q);
    if q.path == [] {
    } else {
      TakeSame(fs, n, Parent(q));
    }
  }

  lemma ChildOf(p: Pos, q: Pos)
    requires p.path != [] && q.path != [] && Parent(p) == Parent(q) && Last(p) == Last(q)
    ensures p == q
  {
    assert p.path == Parent(p).path + [Last(p)] && q.path == Parent(q).path + [Last(q)];
  }

  /** The blocks of t, after linking. */
  lemma LinkBlocks(fs: Fs, p: Pos, n: nat, t: Fs)
    requires Inv(fs) && Linked(fs, p, n, t)
    ensures |t.blocks| == |fs.blocks| && t.used == fs.used[n := true] && t.free == fs.free - 1 && t.dstart == fs.dstart
    ensures t.v2 == fs.v2 && |t.inodes| == |fs.inodes| && t.blocks[n] == ZeroBlock()
    ensures p.path == [] ==> t.blocks == fs.blocks[n := ZeroBlock()]
    ensures p.path == [] ==>
      t.inodes == fs.inodes[p.ino := fs.inodes[p.ino].(roots := fs.inodes[p.ino].roots[p.root := n])]
    ensures p.path != [] ==> t.inodes == fs.inodes
    ensures p.path != [] ==>
      var b := BlockAt(fs, Parent(p));
      && b < |fs.blocks| && b != n && Last(p) < NIND
      && t.blocks == fs.blocks[n := ZeroBlock()][b := SetEntry(fs.blocks[b], Last(p), n)]
  {
    hide Inv, SetEntry;
    Facts(fs, p);
    if p.path != [] {
      TakeSame(fs, n, Parent(p));
    }
  }

  lemma {:induction false} LinkAt(fs: Fs, p: Pos, n: nat, t: Fs, q: Pos)
    requires Inv(fs) && Linked(fs, p, n, t) && Valid(fs, q)
    ensures BlockAt(t, q) == if q == p then n else BlockAt(fs, q)
    decreases |q.path|
  {
    hide Inv, SetEntry, Entry, SetSlot, Take;
    LinkBlocks(fs, p, n, t);
    Facts(fs, q);
    Facts(fs, p);
    if q.path == [] {
    } else {
      var r := Parent(q);
      LinkAt(fs, p, n, t, r);
      if r == p {
        EntryZero(Last(q));
      } else if p.path != [] && BlockAt(fs, r) == BlockAt(fs, Parent(p)) {
        ApartAt(fs, r, Parent(p));
        var b := BlockAt(fs, r);
        EntrySet(fs.blocks[b], Last(p), n, Last(q));
        if Last(p) == Last(q) {
          ChildOf(p, q);
        }
      }
    }
  }

  lemma LinkOk(fs: Fs, p: Pos, n: nat, t: Fs)
    requires Inv(fs) && Linked(fs, p, n, t)
    ensures Inv(t) && SameFiles(fs, t) && n > 0
    ensures forall q :: Valid(fs, q) ==> Valid(t, q) && BlockAt(t, q) == if q == p then n else BlockAt(fs, q)
  {
    hide BlockAt, SetSlot, Take, Clear, SameFiles, Owned;
    LinkBlocks(fs, p, n, t);
    assert n >= fs.dstart;
    forall q | Valid(t, q)
      ensures Valid(fs, q) && BlockAt(t, q) == (if q == p then n else BlockAt(fs, q)) && Placed(t, q)
    {
      LinkAt(fs, p, n, t, q);
      Facts(fs, q);
    }
    LinkApart(fs, p, n, t);
    LinkOwned(fs, p, n, t);
    ClearSet(fs.used, n, true);
    LinkFiles(fs, p, n, t);
  }

  lemma LinkApart(fs: Fs, p: Pos, n: nat, t: Fs)
    requires Inv(fs) && Linked(fs, p, n, t) && |t.inodes| == |fs.inodes| && t.v2 == fs.v2
    ensures forall q, r :: Valid(t, q) && Valid(t, r) ==> Apart(t, q, r)
  {
    hide BlockAt, SetSlot, Take, Inv;
    forall q, r | Valid(t, q) && Valid(t, r)
      ensures Apart(t, q, r)
    {
      LinkAt(fs, p, n, t, q);
      LinkAt(fs, p, n, t, r);
      ApartAt(fs, q, r);
      Facts(fs, q);
      Facts(fs, r);
    }
  }

  lemma LinkOwned(fs: Fs, p: Pos, n: nat, t: Fs)
    requires Inv(fs) && Linked(fs, p, n, t) && |t.used| == |fs.used|
    ensures forall b :: fs.dstart <= b < |t.used| && t.used[b] ==> Owned(t, b)
  {
    LinkBlocks(fs, p, n, t);
    forall b | fs.dstart <= b < |t.used| && t.used[b]
      ensures Owned(t, b)
    {
      if b == n {
        LinkAt(fs, p, n, t, p);
        assert Valid(t, p);
      } else {
        assert Owned(fs, b);
        var q :| Valid(fs, q) && BlockAt(fs, q) == b;
        LinkAt(fs, p, n, t, q);
        assert Valid(t, q);
      }
    }
  }

  /** The attributes of every inode and the bytes of every file are the same. */
  ghost predicate SameFiles(fs: Fs, t: Fs) {
    && |t.inodes| == |fs.inodes| && t.v2 == fs.v2
    && (forall n :: 0 <= n < |fs.inodes| ==> t.inodes[n].(roots := []) == fs.inodes[n].(roots := []))
    && (forall n, x :: FileByte(t, n, x) == FileByte(fs, n, x))
  }

  /** A fresh block reads as the hole it fills. */
  lemma LinkFiles(fs: Fs, p: Pos, n: nat, t: Fs)
    requires Inv(fs) && Linked(fs, p, n, t)
    ensures SameFiles(fs, t)
  {
    LinkBlocks(fs, p, n, t);
    forall m, x
      ensures FileByte(t, m, x) == FileByte(fs, m, x)
    {
      LinkByte(fs, p, n, t, m, x);
    }
  }

  lemma LinkByte(fs: Fs, p: Pos, n: nat, t: Fs, m: nat, x: nat)
    requires Inv(fs) && Linked(fs, p, n, t)
    ensures FileByte(t, m, x) == FileByte(fs, m, x)
  {
    hide Inv, SetEntry, Entry, SetSlot, Take, PosOf, BlockAt;
    LinkBlocks(fs, p, n, t);
    SamePos(fs, t, m, x / BS);
    var q := PosOf(fs, m, x / BS);
    if q.Some? {
      if m < |fs.inodes| {
        PosValid(fs, m, x / BS);
        LinkAt(fs, p, n, t, q.value);
        Facts(fs, q.value);
        Facts(fs, p);
        if p.path != [] && BlockAt(fs, q.value) == BlockAt(fs, Parent(p)) {
          ApartAt(fs, q.value, Parent(p));
        }
      } else {
        NoInode(fs, m, x / BS);
        NoInode(t, m, x / BS);
      }
    }
  }

  lemma SamePos(fs: Fs, t: Fs, m: nat, fb: nat)
    requires t.v2 == fs.v2
    ensures PosOf(t, m, fb) == PosOf(fs, m, fb)
  {
  }

  lemma NoInode(fs: Fs, m: nat, fb: nat)
    requires m >= |fs.inodes|
    ensures PosOf(fs, m, fb).Some? ==> BlockAt(fs, PosOf(fs, m, fb).value) == 0
  {
    var p := PosOf(fs, m, fb);
    if p.Some? {
      NoInodeAt(fs, p.value);
    }
  }

  lemma {:induction false} NoInodeAt(fs: Fs, p: Pos)
    requires p.ino >= |fs.inodes|
    ensures BlockAt(fs, p) == 0
    decreases |p.path|
  {
    if p.path == [] {
    } else {
      NoInodeAt(fs, Parent(p));
    }
  }

  // ---- descending to a block ----

  lemma LevelOk(fs: Fs, p: Pos, k: nat)
    requires Inv(fs) && Valid(fs, p) && k <= |p.path|
    requires k > 0 ==> BlockAt(fs, Prefix(p, k - 1)) != 0
    ensures |fs.used| == |fs.blocks| < WORD_MOD
    ensures var r := Level(fs, p, k);
      r.Some? ==> Inv(r.value) && SameFiles(fs, r.value) && Valid(r.value, p) && BlockAt(r.value, Prefix(p, k)) != 0
  {
    hide Inv, BlockAt, SetSlot, Take, SameFiles;
    Facts(fs, p);
    SameSelf(fs);
    var q := Prefix(p, k);
    PrefixFacts(fs, p, k);
    var b := FirstClear(fs.used, 0);
    if BlockAt(fs, q) == 0 && b.Some? {
      var t := SetSlot(Take(fs, b.value), q, b.value);
      LinkOk(fs, q, b.value, t);
      LinkBlocks(fs, q, b.value, t);
    }
  }

  /** bmap with allocation reaches a block, changes no byte of any file, and moves no block already placed. */
  lemma {:induction false} DescendOk(fs: Fs, p: Pos, k: nat)
    requires Inv(fs) && Valid(fs, p) && k <= |p.path| + 1
    requires k > 0 ==> BlockAt(fs, Prefix(p, k - 1)) != 0
    ensures |fs.used| == |fs.blocks| < WORD_MOD
    ensures var r := Descend(fs, p, k);
      r.Some? ==> Inv(r.value) && SameFiles(fs, r.value) && Valid(r.value, p) && BlockAt(r.value, p) != 0
    decreases |p.path| + 1 - k
  {
    hide Inv, BlockAt, Level, SameFiles;
    InvSizes(fs);
    SameSelf(fs);
    if k > |p.path| {
      assert Prefix(p, |p.path|) == p;
    } else {
      LevelOk(fs, p, k);
      var r := Level(fs, p, k);
      if r.Some? {
        DescendOk(r.value, p, k + 1);
        if Descend(r.value, p, k + 1).Some? {
          SameTrans(fs, r.value, Descend(r.value, p, k + 1).value);
        }
      }
    }
  }

  lemma PrefixFacts(fs: Fs, p: Pos, k: nat)
    requires Valid(fs, p) && k <= |p.path|
    ensures Valid(fs, Prefix(p, k)) && (k > 0 ==> Prefix(p, k).path != [] && Parent(Prefix(p, k)) == Prefix(p, k - 1))
    ensures k == 0 ==> Prefix(p, k).path == []
  {
  }

  lemma SameSelf(fs: Fs)
    ensures SameFiles(fs, fs)
  {
  }

  lemma SameTrans(a: Fs, b: Fs, c: Fs)
    requires SameFiles(a, b) && SameFiles(b, c)
    ensures SameFiles(a, c)
  {
    hide FileByte;
  }

  // ---- writing file data ----

  function PutBlock(fs: Fs, b: nat, c: Block): Fs
    requires b < |fs.blocks|
  {
    fs.(blocks := fs.blocks[b := c])
  }

  /** File data is no index block: writing it moves no block. */
  lemma {:induction false} PutSame(fs: Fs, p: Pos, c: Block, q: Pos)
    requires Inv(fs) && Valid(fs, p) && Leaf(p) && 0 < BlockAt(fs, p) < |fs.blocks| && Valid(fs, q)
    ensures BlockAt(PutBlock(fs, BlockAt(fs, p), c), q) == BlockAt(fs, q)
    decreases |q.path|
  {
    hide Inv;
    if q.path == [] {
    } else {
      Facts(fs, q);
      PutSame(fs, p, c, Parent(q));
      ApartAt(fs, p, Parent(q));
    }
  }

  lemma PutOk(fs: Fs, p: Pos, c: Block)
    requires Inv(fs) && Valid(fs, p) && Leaf(p) && 0 < BlockAt(fs, p) < |fs.blocks|
    ensures Inv(PutBlock(fs, BlockAt(fs, p), c))
  {
    hide BlockAt, Clear, Owned;
    var t := PutBlock(fs, BlockAt(fs, p), c);
    forall q | Valid(t, q)
      ensures Valid(fs, q) && BlockAt(t, q) == BlockAt(fs, q) && Placed(t, q)
    {
      PutSame(fs, p, c, q);
      Facts(fs, q);
    }
    forall q, r | Valid(t, q) && Valid(t, r)
      ensures Apart(t, q, r)
    {
      ApartAt(fs, q, r);
    }
    forall b | fs.dstart <= b < |t.used| && t.used[b]
      ensures Owned(t, b)
    {
      PutOwned(fs, p, c, b);
    }
  }

  lemma PutOwned(fs: Fs, p: Pos, c: Block, b: nat)
    requires Inv(fs) && Valid(fs, p) && Leaf(p) && 0 < BlockAt(fs, p) < |fs.blocks| && Owned(fs, b)
    ensures Owned(PutBlock(fs, BlockAt(fs, p), c), b)
  {
    hide Inv, BlockAt;
    var q :| Valid(fs, q) && BlockAt(fs, q) == b;
    PutSame(fs, p, c, q);
    assert Valid(PutBlock(fs, BlockAt(fs, p), c), q);
  }

  /** Only the file's own block changes. */
  lemma PutByte(fs: Fs, n: nat, fb: nat, c: Block, m: nat, x: nat)
    requires Inv(fs) && n < |fs.inodes| && PosOf(fs, n, fb).Some?
    requires 0 < BlockAt(fs, PosOf(fs, n, fb).value) < |fs.blocks|
    ensures FileByte(PutBlock(fs, BlockAt(fs, PosOf(fs, n, fb).value), c), m, x)
         == if m == n && x / BS == fb then c[x % BS] else FileByte(fs, m, x)
  {
    hide Inv, PosOf, BlockAt;
    var p := PosOf(fs, n, fb).value;
    var t := PutBlock(fs, BlockAt(fs, p), c);
    PosValid(fs, n, fb);
    SamePos(fs, t, m, x / BS);
    var q := PosOf(fs, m, x / BS);
    if q.Some? {
      if m < |fs.inodes| {
        PosValid(fs, m, x / BS);
        PutSame(fs, p, c, q.value);
        ApartAt(fs, p, q.value);
        if q.value == p {
          PosApart(fs, n, fb, m, x / BS);
        }
      } else {
        NoInode(fs, m, x / BS);
        NoInode(t, m, x / BS);
      }
    }
  }

  /** The length of the next piece of a transfer, which ends with the block or the data. */
  function Piece(off: nat, len: nat): (k: nat)
    ensures k <= len && off % BS + k <= BS && (len > 0 ==> k > 0)
  {
    if BS - off % BS > len then len else BS - off % BS
  }

  /** iwrite's loop; none when the disk is full or the file too large. */
  function WriteFrom(fs: Fs, n: nat, data: seq<Byte>, off: nat): (z: Option<Fs>)
    requires |fs.used| == |fs.blocks| <= WORD_MOD
    ensures z.Some? ==> |z.value.used| == |z.value.blocks| == |fs.blocks| && |z.value.inodes| == |fs.inodes|
    decreases |data|
  {
    if data == [] then Some(fs)
    else
      var p := PosOf(fs, n, off / BS);
      if p.None? then None
      else
        var r := Descend(fs, p.value, 0);
        if r.None? then None
        else
          var t, k := r.value, Piece(off, |data|);
          var b := BlockAt(t, p.value);
          if b >= |t.blocks| then None
          else WriteFrom(PutBlock(t, b, Patch(t.blocks[b], off % BS, data[..k])), n, data[k..], off + k)
  }

  /** One block of a write. */
  lemma WriteStep(fs: Fs, n: nat, data: seq<Byte>, off: nat)
    requires |fs.used| == |fs.blocks| <= WORD_MOD && n < |fs.inodes| && data != []
    ensures var p, w := PosOf(fs, n, off / BS), WriteFrom(fs, n, data, off);
      && (p.None? ==> w.None?)
      && (p.Some? ==>
            var r := Descend(fs, p.value, 0);
            && (r.None? ==> w.None?)
            && (r.Some? ==>
                  var t, k := r.value, Piece(off, |data|);
                  var b := BlockAt(t, p.value);
                  b < |t.blocks| ==>
                    w == WriteFrom(PutBlock(t, b, Patch(t.blocks[b], off % BS, data[..k])), n, data[k..], off + k)))
  {
    hide PosOf, Descend, BlockAt;
  }

  /** iwrite. */
  function Iwrite(fs: Fs, n: nat, data: seq<Byte>, off: nat): Option<Fs>
    requires |fs.used| == |fs.blocks| <= WORD_MOD && n < |fs.inodes|
  {
    var r := WriteFrom(fs, n, data, off);
    if r.None? then None
    else
      var ip, end := r.value.inodes[n], off + |data|;
      Some(r.value.(inodes := r.value.inodes[n := ip.(size := if end > ip.size then end else ip.size)]))
  }

  /** From fs to t the bytes of file n from off on became data; nothing else of any file changed. */
  ghost predicate Wrote(fs: Fs, t: Fs, n: nat, data: seq<Byte>, off: nat) {
    && |t.inodes| == |fs.inodes| && t.v2 == fs.v2
    && (forall m :: 0 <= m < |fs.inodes| ==> t.inodes[m].(roots := []) == fs.inodes[m].(roots := []))
    && (forall m: nat, x: nat ::
          FileByte(t, m, x) == if m == n && off <= x < off + |data| then data[x - off] else FileByte(fs, m, x))
  }

  lemma {:induction false} WriteFromOk(fs: Fs, n: nat, data: seq<Byte>, off: nat)
    requires Inv(fs) && n < |fs.inodes|
    ensures var r := WriteFrom(fs, n, data, off); r.Some? ==> Inv(r.value) && Wrote(fs, r.value, n, data, off)
    decreases |data|
  {
    hide Inv, PosOf, BlockAt, FileByte, Descend;
    InvSizes(fs);
    if data == [] {
    } else {
      var p := PosOf(fs, n, off / BS);
      if p.Some? {
        PosValid(fs, n, off / BS);
        DescendOk(fs, p.value, 0);
        var r := Descend(fs, p.value, 0);
        if r.Some? {
          var k := Piece(off, |data|);
          var u := PieceOk(fs, r.value, n, data[..k], off);
          InvSizes(u);
          WriteFromOk(u, n, data[k..], off + k);
          var z := WriteFrom(u, n, data[k..], off + k);
          if z.Some? {
            WroteTrans(fs, u, z.value, n, data, off, k);
          }
        }
      }
    }
  }

  lemma InvSizes(fs: Fs)
    requires Inv(fs)
    ensures |fs.used| == |fs.blocks| < WORD_MOD
  {
  }

  lemma PieceOk(fs: Fs, t: Fs, n: nat, piece: seq<Byte>, off: nat) returns (u: Fs)
    requires Inv(t) && SameFiles(fs, t) && n < |fs.inodes| && off % BS + |piece| <= BS
    requires PosOf(fs, n, off / BS).Some? && Valid(t, PosOf(fs, n, off / BS).value)
    requires BlockAt(t, PosOf(fs, n, off / BS).value) != 0
    ensures var b := BlockAt(t, PosOf(fs, n, off / BS).value);
      b < |t.blocks| == |t.used| && u == PutBlock(t, b, Patch(t.blocks[b], off % BS, piece))
    ensures Inv(u) && Wrote(fs, u, n, piece, off)
  {
    hide Inv, PosOf, BlockAt, FileByte;
    var p := PosOf(fs, n, off / BS).value;
    SamePos(fs, t, n, off / BS);
    PosValid(t, n, off / BS);
    Facts(t, p);
    var b := BlockAt(t, p);
    var c := Patch(t.blocks[b], off % BS, piece);
    u := PutBlock(t, b, c);
    PutOk(t, p, c);
    forall m: nat, x: nat
      ensures FileByte(u, m, x) == if m == n && off <= x < off + |piece| then piece[x - off] else FileByte(fs, m, x)
    {
      PutByte(t, n, off / BS, c, m, x);
      if m == n && x / BS == off / BS {
        OldByte(t, n, x);
        PatchAt(t.blocks[b], off % BS, piece, x % BS);
      }
    }
  }

  lemma OldByte(t: Fs, n: nat, x: nat)
    requires PosOf(t, n, x / BS).Some? && 0 < BlockAt(t, PosOf(t, n, x / BS).value) < |t.blocks|
    ensures FileByte(t, n, x) == t.blocks[BlockAt(t, PosOf(t, n, x / BS).value)][x % BS]
  {
  }

  lemma PatchAt(b: Block, o: nat, data: seq<Byte>, i: nat)
    requires o + |data| <= BS && i < BS
    ensures Patch(b, o, data)[i] == if o <= i < o + |data| then data[i - o] else b[i]
  {
  }

  lemma WroteTrans(fs: Fs, u: Fs, z: Fs, n: nat, data: seq<Byte>, off: nat, k: nat)
    requires k <= |data| && Wrote(fs, u, n, data[..k], off) && Wrote(u, z, n, data[k..], off + k)
    ensures Wrote(fs, z, n, data, off)
  {
    hide FileByte;
  }

  /** Sizes are not part of the block structure. */
  lemma {:induction false} ResizeSame(fs: Fs, n: nat, size: nat, p: Pos)
    requires n < |fs.inodes|
    ensures BlockAt(fs.(inodes := fs.inodes[n := fs.inodes[n].(size := size)]), p) == BlockAt(fs, p)
    decreases |p.path|
  {
    if p.path == [] {
    } else {
      ResizeSame(fs, n, size, Parent(p));
    }
  }

  lemma ResizeValid(fs: Fs, n: nat, size: nat, p: Pos)
    requires n < |fs.inodes|
    ensures Valid(fs.(inodes := fs.inodes[n := fs.inodes[n].(size := size)]), p) == Valid(fs, p)
  {
  }

  lemma ResizeByte(fs: Fs, n: nat, size: nat, m: nat, x: nat)
    requires n < |fs.inodes|
    ensures FileByte(fs.(inodes := fs.inodes[n := fs.inodes[n].(size := size)]), m, x) == FileByte(fs, m, x)
  {
    hide PosOf, BlockAt;
    var t := fs.(inodes := fs.inodes[n := fs.inodes[n].(size := size)]);
    SamePos(fs, t, m, x / BS);
    var p := PosOf(fs, m, x / BS);
    if p.Some? {
      ResizeSame(fs, n, size, p.value);
    }
  }

  lemma ResizeOk(fs: Fs, n: nat, size: nat)
    requires Inv(fs) && n < |fs.inodes|
    ensures var t := fs.(inodes := fs.inodes[n := fs.inodes[n].(size := size)]);
      Inv(t) && forall m: nat, x: nat :: FileByte(t, m, x) == FileByte(fs, m, x)
  {
    var t := fs.(inodes := fs.inodes[n := fs.inodes[n].(size := size)]);
    hide BlockAt, Clear, FileByte, Valid, Inv;
    forall p
      ensures BlockAt(t, p) == BlockAt(fs, p) && Valid(t, p) == Valid(fs, p)
    {
      ResizeSame(fs, n, size, p);
      ResizeValid(fs, n, size, p);
    }
    forall m: nat, x: nat
      ensures FileByte(t, m, x) == FileByte(fs, m, x)
    {
      ResizeByte(fs, n, size, m, x);
    }
    ResizeInv(fs, t, n);
  }

  /** The invariant is about slots only. */
  lemma ResizeInv(fs: Fs, t: Fs, n: nat)
    requires Inv(fs) && n < |fs.inodes| == |t.inodes| && t.inodes[n].roots == fs.inodes[n].roots
    requires t == fs.(inodes := fs.inodes[n := t.inodes[n]])
    requires forall p :: BlockAt(t, p) == BlockAt(fs, p) && Valid(t, p) == Valid(fs, p)
    ensures Inv(t)
  {
    hide BlockAt, Clear, Valid;
    forall b | fs.dstart <= b < |t.used| && t.used[b]
      ensures Owned(t, b)
    {
      assert Owned(fs, b);
      var q :| Valid(fs, q) && BlockAt(fs, q) == b;
      assert Valid(t, q);
    }
    assert forall p :: Valid(t, p) ==> Placed(fs, p) && Placed(t, p);
    assert forall p, q :: Valid(t, p) && Valid(t, q) ==> Apart(fs, p, q) && Apart(t, p, q);
  }

  /** iwrite: afterwards the file holds the data from off on, its size covers it, and every other
      byte and attribute of every file is as before; ownership stays exclusive. */
  lemma IwriteOk(fs: Fs, n: nat, data: seq<Byte>, off: nat)
    requires Inv(fs) && n < |fs.inodes|
    ensures var r := Iwrite(fs, n, data, off);
      r.Some? ==>
        && Inv(r.value) && |r.value.inodes| == |fs.inodes|
        && (forall m: nat, x: nat :: FileByte(r.value, m, x)
              == if m == n && off <= x < off + |data| then data[x - off] else FileByte(fs, m, x))
        && (forall m :: 0 <= m < |fs.inodes| && m != n ==>
          r.value.inodes[m].(roots := []) == fs.inodes[m].(roots := []))
        && r.value.inodes[n].(roots := []) == fs.inodes[n].(roots := [], size := r.value.inodes[n].size)
        && r.value.inodes[n].size == if off + |data| > fs.inodes[n].size then off + |data| else fs.inodes[n].size
  {
    hide Inv, FileByte, WriteFrom;
    InvSizes(fs);
    WriteFromOk(fs, n, data, off);
    var w := WriteFrom(fs, n, data, off);
    if w.Some? {
      var u := w.value;
      ResizeOk(u, n, if off + |data| > u.inodes[n].size then off + |data| else u.inodes[n].size);
    }
  }

  // ---- reading ----

  /** Every block of the range has an address. */
  ghost predicate Reachable(fs: Fs, off: nat, len: nat) {
    forall x: nat :: off <= x < off + len ==> PosOf(fs, 0, x / BS).Some?
  }

  /** The bytes of file n from off on. */
  ghost function Bytes(fs: Fs, n: nat, off: nat, len: nat): (s: seq<Byte>)
    ensures |s| == len && forall i :: 0 <= i < len ==> s[i] == FileByte(fs, n, off + i)
  {
    if len == 0 then [] else Bytes(fs, n, off, len - 1) + [FileByte(fs, n, off + len - 1)]
  }

  /** Reading back what was written, in the file written and in every other. */
  lemma ReadAfterWrite(fs: Fs, n: nat, data: seq<Byte>, off: nat, m: nat, at: nat, len: nat)
    requires Inv(fs) && n < |fs.inodes| && Iwrite(fs, n, data, off).Some?
    ensures var t := Iwrite(fs, n, data, off).value;
      && Bytes(t, n, off, |data|) == data
      && (m != n || at + len <= off || off + |data| <= at ==> Bytes(t, m, at, len) == Bytes(fs, m, at, len))
  {
    hide Inv, FileByte, Iwrite;
    IwriteOk(fs, n, data, off);
  }

  // ---- the empty image ----

  lemma EmptyAt(fs: Fs, p: Pos)
    requires forall n :: 0 <= n < |fs.inodes| ==> fs.inodes[n].roots == seq(ROOTS, j => 0)
    ensures BlockAt(fs, p) == 0
    decreases |p.path|
  {
    if p.path == [] {
    } else {
      EmptyAt(fs, Parent(p));
    }
  }

  lemma EmptyOk(fs: Fs)
    requires |fs.used| == |fs.blocks| < WORD_MOD && 0 < fs.dstart <= |fs.blocks|
    requires (forall b :: 0 <= b < |fs.used| ==> fs.used[b] == (b < fs.dstart)) && fs.free == Clear(fs.used)
    requires forall n :: 0 <= n < |fs.inodes| ==> fs.inodes[n].roots == seq(ROOTS, j => 0)
    ensures Inv(fs) && forall n: nat, x: nat :: FileByte(fs, n, x) == 0
  {
    forall p
      ensures BlockAt(fs, p) == 0
    {
      EmptyAt(fs, p);
    }
  }
}
