/** The image builder as it runs: the bitmap scan, the walk through index blocks, and the loops of
    reading and writing, each proved against its specification. */
module DiskBuilder {
  import opened Wrappers
  import opened Words
  import opened Bitmaps
  import opened DiskImage
  import opened DiskFiles

  const FS0: nat := 1024
  const NINODES: nat := 8192

  class Image {
    var blocks: seq<Block>
    var used: seq<bool>
    var free: int
    var dstart: nat
    var inodes: seq<Ino>
    var v2: bool

    function Abs(): Fs
      reads this
    {
      Fs(blocks, used, free, dstart, inodes, v2)
    }

    /** create, before the root directory: the blocks below dstart are marked, all others are free. */
    constructor (sectors: nat, wantV1: bool)
      requires FS0 + 1 + NINODES / 4 + 64 <= sectors < WORD_MOD
      ensures Inv(Abs()) && v2 == !wantV1 && |blocks| == sectors - FS0 && free == |blocks| - dstart
      ensures forall n: nat, x: nat :: FileByte(Abs(), n, x) == 0
    {
      var total := sectors - FS0;
      var ninodes := if wantV1 then 4096 else NINODES;
      var ipb := if wantV1 then 8 else 4;
      var start := 1 + ninodes / ipb + (total + BS * 8 - 1) / (BS * 8);
      var bits := seq(total, i => false);
      AllClear(bits);
      var i := 0;
      while i < start
        invariant 0 <= i <= start <= total == |bits| && Clear(bits) == total - i
        invariant forall j :: 0 <= j < total ==> bits[j] == (j < i)
      {
        ClearSet(bits, i, true);
        bits := bits[i := true];
        i := i + 1;
      }
      blocks, used, free, dstart, v2 := seq(total, i => ZeroBlock()), bits, total - start, start, !wantV1;
      inodes := seq(ninodes, i => Ino(0, 0, 0, 0, 0, 0, 0, 0, 0, seq(ROOTS, j => 0)));
      new;
      EmptyOk(Abs());
    }

    /** balloc: the first block whose bit is clear. */
    method Balloc() returns (r: Option<nat>)
      requires |used| == |blocks|
      modifies this
      ensures r == FirstClear(old(used), 0)
      ensures Abs() == if r.None? then old(Abs()) else Take(old(Abs()), r.value)
    {
      var b := 0;
      while b < |used|
        invariant b <= |used| && Abs() == old(Abs()) && FirstClear(used, 0) == FirstClear(used, b)
      {
        if !used[b] {
          used, blocks, free := used[b := true], blocks[b := ZeroBlock()], free - 1;
          return Some(b);
        }
        b := b + 1;
      }
      return None;
    }

    /** One step of ind: the block number in a slot of the inode or of block cur, allocated if missing. */
    method Step(p: Pos, k: nat, cur: nat) returns (r: Option<nat>)
      requires Inv(Abs()) && Valid(Abs(), p) && k <= |p.path|
      requires k > 0 ==> cur == BlockAt(Abs(), Prefix(p, k - 1)) && cur != 0
      modifies this
      ensures |used| == |blocks| < WORD_MOD && |old(used)| == |old(blocks)| < WORD_MOD
      ensures r.None? <==> Level(old(Abs()), p, k).None?
      ensures r.Some? ==> Level(old(Abs()), p, k) == Some(Abs()) && r.value == BlockAt(Abs(), Prefix(p, k))
    {
      hide Inv, Entry, SetEntry;
      ghost var s := Abs();
      InvSizes(s);
      Facts(s, p);
      PrefixFacts(s, p, k);
      Facts(s, Prefix(p, k));
      var next := if k == 0 then inodes[p.ino].roots[p.root] else Entry(blocks[cur], p.path[k - 1]);
      assert next == BlockAt(s, Prefix(p, k));
      if next != 0 {
        return Some(next);
      }
      var b := Balloc();
      if b.None? {
        return None;
      }
      ghost var t := SetSlot(Take(s, b.value), Prefix(p, k), b.value);
      if k == 0 {
        inodes := inodes[p.ino := inodes[p.ino].(roots := inodes[p.ino].roots[p.root := b.value])];
      } else {
        TakeSame(s, b.value, Prefix(p, k - 1));
        blocks := blocks[cur := SetEntry(blocks[cur], p.path[k - 1], b.value)];
      }
      assert Abs() == t;
      LinkAt(s, Prefix(p, k), b.value, t, Prefix(p, k));
      return b;
    }

    /** bmap with allocation, one level of index blocks after the other. */
    method Bmap(p: Pos) returns (r: Option<nat>)
      requires Inv(Abs()) && Valid(Abs(), p)
      modifies this
      ensures |old(used)| == |old(blocks)| < WORD_MOD
      ensures r.None? <==> Descend(old(Abs()), p, 0).None?
      ensures r.Some? ==> Descend(old(Abs()), p, 0) == Some(Abs()) && r.value == BlockAt(Abs(), p)
      ensures r.Some? ==> Inv(Abs()) && SameFiles(old(Abs()), Abs()) && Valid(Abs(), p) && 0 < r.value < |blocks|
    {
      hide Inv, SameFiles, BlockAt, Level;
      ghost var s := Abs();
      InvSizes(s);
      DescendOk(s, p, 0);
      var k, cur := 0, 0;
      while k <= |p.path|
        invariant 0 <= k <= |p.path| + 1 && Inv(Abs()) && Valid(Abs(), p) && |used| == |blocks| < WORD_MOD
        invariant Descend(Abs(), p, k) == Descend(s, p, 0)
        invariant k > 0 ==> cur == BlockAt(Abs(), Prefix(p, k - 1)) && cur != 0
      {
        LevelOk(Abs(), p, k);
        var next := Step(p, k, cur);
        if next.None? {
          return None;
        }
        cur, k := next.value, k + 1;
      }
      assert Prefix(p, |p.path|) == p;
      Facts(Abs(), p);
      return Some(cur);
    }

    /** iwrite. */
    method WriteAt(n: nat, data: seq<Byte>, off: nat) returns (ok: bool)
      requires Inv(Abs()) && n < |inodes|
      modifies this
      ensures ok <==> Iwrite(old(Abs()), n, data, off).Some?
      ensures ok ==> Iwrite(old(Abs()), n, data, off) == Some(Abs()) && Inv(Abs())
      ensures ok ==> Bytes(Abs(), n, off, |data|) == data
    {
      hide Inv, SameFiles, PosOf, BlockAt, Descend, FileByte, WriteFrom, Patch;
      ghost var s := Abs();
      InvSizes(s);
      IwriteOk(s, n, data, off);
      var rest, at := data, off;
      while rest != []
        invariant Inv(Abs()) && |used| == |blocks| < WORD_MOD && |inodes| == |s.inodes|
        invariant at + |rest| == off + |data|
        invariant WriteFrom(Abs(), n, rest, at) == WriteFrom(s, n, data, off)
        decreases |rest|
      {
        var p := PosOf(Abs(), n, at / BS);
        WriteStep(Abs(), n, rest, at);
        if p.None? {
          return false;
        }
        PosValid(Abs(), n, at / BS);
        ghost var t := Abs();
        var b := Bmap(p.value);
        if b.None? {
          return false;
        }
        var k := Piece(at, |rest|);
        SameSelf(Abs());
        ghost var u := PieceOk(t, Abs(), n, rest[..k], at);
        blocks := blocks[b.value := Patch(blocks[b.value], at % BS, rest[..k])];
        InvSizes(Abs());
        rest, at := rest[k..], at + k;
      }
      WriteNothing(Abs(), n, at);
      if at > inodes[n].size {
        inodes := inodes[n := inodes[n].(size := at)];
      }
      assert Abs().inodes == Iwrite(s, n, data, off).value.inodes;
      ok := true;
    }

    /** iread: the bytes of the file, holes reading as zero; none when a block has no address. */
    method ReadAt(n: nat, off: nat, len: nat) returns (r: Option<seq<Byte>>)
      requires Inv(Abs()) && n < |inodes|
      ensures r.Some? ==> r.value == Bytes(Abs(), n, off, len)
      ensures r.Some? <==> Reachable(Abs(), off, len)
    {
      hide Inv, PosOf, BlockAt;
      var out, at := [], off;
      while |out| < len
        invariant |out| <= len && at == off + |out| && Reachable(Abs(), off, |out|)
        invariant forall i :: 0 <= i < |out| ==> out[i] == FileByte(Abs(), n, off + i)
      {
        var p := PosOf(Abs(), n, at / BS);
        SameAddress(Abs(), n, at / BS);
        if p.None? {
          return None;
        }
        PosValid(Abs(), n, at / BS);
        Facts(Abs(), p.value);
        var b, o, k := BlockAt(Abs(), p.value), at % BS, Piece(at, len - |out|);
        ghost var was := out;
        out := out + if b != 0 then blocks[b][o..o + k] else ZeroBlock()[..k];
        forall i | |was| <= i < |out|
          ensures out[i] == FileByte(Abs(), n, off + i) && (off + i) / BS == at / BS
        {
          SameBlock(at, k, off + i);
        }
        at := at + k;
      }
      return Some(out);
    }
  }

  lemma WriteNothing(fs: Fs, n: nat, off: nat)
    requires |fs.used| == |fs.blocks| <= WORD_MOD && n < |fs.inodes|
    ensures WriteFrom(fs, n, [], off) == Some(fs)
  {
  }

  lemma SameBlock(at: nat, k: nat, x: nat)
    requires at <= x < at + k && at % BS + k <= BS
    ensures x / BS == at / BS && x % BS == at % BS + (x - at)
  {
  }

  /** Whether a block number has an address does not depend on the file. */
  lemma SameAddress(fs: Fs, n: nat, fb: nat)
    ensures PosOf(fs, n, fb).Some? == PosOf(fs, 0, fb).Some?
  {
  }
}
