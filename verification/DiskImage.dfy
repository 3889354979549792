/** The file-system image: blocks, the block bitmap, and files mapped through direct, single,
    double and triple indirect blocks. A position names a slot by inode, root and indices. */
module DiskImage {
  import opened Wrappers
  import opened Words
  import opened Bitmaps
  import Machine

  const BS: nat := 512
  const NIND: nat := 128
  const NDIRECT: nat := 12
  const ROOTS: nat := 15

  type Block = b: seq<Byte> | |b| == BS witness ZeroBlock()

  function ZeroBlock(): (b: seq<Byte>)
    ensures |b| == BS
  {
    seq(BS, i => 0)
  }

  /** roots: twelve direct slots, then the single, double and triple indirect one. */
  datatype Ino = Ino(kind: nat, nlink: nat, mode: nat, uid: nat, gid: nat, size: nat, atime: nat, mtime: nat,
                     ctime: nat, roots: seq<nat>)

  /** used is the block bitmap; blocks below dstart hold the superblock, the inodes and the bitmap. */
  datatype Fs = Fs(blocks: seq<Block>, used: seq<bool>, free: int, dstart: nat, inodes: seq<Ino>, v2: bool)

  // ---- words of an index block ----

  function Entry(b: Block, i: nat): Word
    requires i < NIND
  {
    Machine.Rd4(b, 4 * i)
  }

  function SetEntry(b: Block, i: nat, v: Word): Block
    requires i < NIND
  {
    Machine.Wr(b, 4 * i, v, 4)
  }

  lemma EntrySet(b: Block, i: nat, v: Word, j: nat)
    requires i < NIND && j < NIND
    ensures Entry(SetEntry(b, i, v), j) == if i == j then v else Entry(b, j)
  {
    hide Machine.Rd, Machine.Wr;
    Machine.ReadBack4(b, 4 * i, v);
    if i != j {
      Machine.SameRead(b, SetEntry(b, i, v), 4 * j, 4);
    }
  }

  lemma EntryZero(i: nat)
    requires i < NIND
    ensures Entry(ZeroBlock(), i) == 0
  {
    ReadZero(ZeroBlock(), 4 * i, 4);
  }

  lemma {:induction false} ReadZero(b: seq<Byte>, a: nat, n: nat)
    requires a + n <= |b| && forall i :: 0 <= i < |b| ==> b[i] == 0
    ensures Machine.Rd(b, a, n) == 0
    decreases n
  {
    if n == 0 {
    } else {
      ReadZero(b, a + 1, n - 1);
    }
  }

  // ---- positions ----

  /** A slot for a block: a root of an inode, or an entry reached from it through index blocks. */
  datatype Pos = Pos(ino: nat, root: nat, path: seq<nat>)

  function Depth(root: nat): nat {
    if root < NDIRECT then 0 else root - NDIRECT + 1
  }

  predicate Valid(fs: Fs, p: Pos) {
    && p.ino < |fs.inodes| && p.root < ROOTS && (p.root == ROOTS - 1 ==> fs.v2)
    && |p.path| <= Depth(p.root) && forall i :: 0 <= i < |p.path| ==> p.path[i] < NIND
  }

  /** A slot for file data rather than for an index block. */
  predicate Leaf(p: Pos) {
    |p.path| == Depth(p.root)
  }

  function Parent(p: Pos): Pos
    requires p.path != []
  {
    p.(path := p.path[..|p.path| - 1])
  }

  function Last(p: Pos): nat
    requires p.path != []
  {
    p.path[|p.path| - 1]
  }

  /** The block at a position; 0 when there is none. */
  function BlockAt(fs: Fs, p: Pos): nat
    decreases |p.path|
  {
    if p.path == [] then
      if p.ino < |fs.inodes| && p.root < |fs.inodes[p.ino].roots| then fs.inodes[p.ino].roots[p.root] else 0
    else
      var b := BlockAt(fs, Parent(p));
      if b == 0 || b >= |fs.blocks| || Last(p) >= NIND then 0 else Entry(fs.blocks[b], Last(p))
  }

  // ---- the invariant ----

  ghost predicate Owned(fs: Fs, b: nat) {
    exists p :: Valid(fs, p) && BlockAt(fs, p) == b
  }

  ghost predicate Placed(fs: Fs, p: Pos) {
    BlockAt(fs, p) != 0 ==> fs.dstart <= BlockAt(fs, p) < |fs.blocks| == |fs.used| && fs.used[BlockAt(fs, p)]
  }

  ghost predicate Apart(fs: Fs, p: Pos, q: Pos) {
    BlockAt(fs, p) != 0 && BlockAt(fs, p) == BlockAt(fs, q) ==> p == q
  }

  /** Every block in use at or above dstart has exactly one owner, and the books agree. */
  ghost predicate Inv(fs: Fs) {
    && |fs.used| == |fs.blocks| < WORD_MOD && 0 < fs.dstart <= |fs.blocks|
    && (forall b :: 0 <= b < fs.dstart ==> fs.used[b])
    && fs.free == Clear(fs.used)
    && (forall n :: 0 <= n < |fs.inodes| ==> |fs.inodes[n].roots| == ROOTS)
    && (forall p :: Valid(fs, p) ==> Placed(fs, p))
    && (forall p, q :: Valid(fs, p) && Valid(fs, q) ==> Apart(fs, p, q))
    && (forall b :: fs.dstart <= b < |fs.used| && fs.used[b] ==> Owned(fs, b))
  }

  // ---- file contents ----

  /** Which slot holds block number fb of a file; none when the file system cannot address it. */
  function PosOf(fs: Fs, n: nat, fb: nat): Option<Pos> {
    if fb < NDIRECT then Some(Pos(n, fb, []))
    else
      var f1 := fb - NDIRECT;
      if f1 < NIND then Some(Pos(n, 12, [f1]))
      else
        var f2 := f1 - NIND;
        if f2 < NIND * NIND then Some(Pos(n, 13, [f2 / NIND, f2 % NIND]))
        else
          var f3 := f2 - NIND * NIND;
          if fs.v2 && f3 < NIND * NIND * NIND then
            Some(Pos(n, 14, [f3 / (NIND * NIND), f3 / NIND % NIND, f3 % NIND]))
          else None
  }

  /** The byte of file n at offset off, holes reading as zero. */
  function FileByte(fs: Fs, n: nat, off: nat): Byte {
    var p := PosOf(fs, n, off / BS);
    if p.None? then 0
    else
      var b := BlockAt(fs, p.value);
      if b == 0 || b >= |fs.blocks| then 0 else fs.blocks[b][off % BS]
  }

  lemma PosValid(fs: Fs, n: nat, fb: nat)
    requires n < |fs.inodes|
    ensures var p := PosOf(fs, n, fb); p.Some? ==> Valid(fs, p.value) && Leaf(p.value) && p.value.ino == n
  {
    var f3 := fb - NDIRECT - NIND - NIND * NIND;
    if 0 <= f3 < NIND * NIND * NIND {
      assert f3 / (NIND * NIND) < NIND;
    }
  }

  /** Different blocks of files have different slots. */
  lemma PosApart(fs: Fs, n: nat, a: nat, m: nat, b: nat)
    requires PosOf(fs, n, a).Some? && PosOf(fs, n, a) == PosOf(fs, m, b)
    ensures n == m && a == b
  {
    var p := PosOf(fs, n, a).value;
    if p.root == 13 {
      var (x, y) := (a - NDIRECT - NIND, b - NDIRECT - NIND);
      assert x / NIND == p.path[0] == y / NIND && x % NIND == p.path[1] == y % NIND;
    } else if p.root == 14 {
      var (x, y) := (a - NDIRECT - NIND - NIND * NIND, b - NDIRECT - NIND - NIND * NIND);
      assert x / (NIND * NIND) == p.path[0] == y / (NIND * NIND);
      assert x / NIND % NIND == p.path[1] == y / NIND % NIND && x % NIND == p.path[2] == y % NIND;
      Digits(x, y);
    }
  }

  lemma Digits(x: nat, y: nat)
    requires x / 16384 == y / 16384 && x / 128 % 128 == y / 128 % 128 && x % 128 == y % 128
    ensures x == y
  {
    assert x / 128 / 128 == x / 16384 && y / 128 / 128 == y / 16384;
    assert x / 128 == y / 128;
  }
}
