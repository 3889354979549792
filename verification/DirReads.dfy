/** Reading a directory over 9P: each reply is a whole number of stat records, successive replies go on where the last
    one stopped, and a client that reads until a reply is empty has every record exactly when each fits the count. */
module DirReads {
  import opened Words
  import opened Wire
  import opened Fcalls

  const MAX_MSG: nat := 8192
  const IO_HEADER: nat := 24

  /** What the server keeps for an open directory. */
  datatype Place = Place(off: Word, index: nat)

  // ---- records ----

  function Sum(dir: seq<Stat9>): nat {
    if dir == [] then 0 else SizeD2M(dir[0]) + Sum(dir[1..])
  }

  function Encoded(dir: seq<Stat9>): Bytes {
    if dir == [] then [] else ConvD2M(dir[0], SizeD2M(dir[0])).value + Encoded(dir[1..])
  }

  /** How far a reply with room for that many bytes gets, from record i on. */
  function Reach(dir: seq<Stat9>, i: nat, room: nat): (j: nat)
    requires i <= |dir|
    ensures i <= j <= |dir|
    decreases |dir| - i
  {
    if i < |dir| && SizeD2M(dir[i]) <= room then Reach(dir, i + 1, room - SizeD2M(dir[i])) else i
  }

  lemma {:induction false} SumAll(dir: seq<Stat9>, i: nat, j: nat)
    requires i <= j <= |dir|
    ensures Sum(dir[..j]) == Sum(dir[..i]) + Sum(dir[i..j])
    decreases i
  {
    if i == 0 {
      assert dir[..0] == [] && dir[0..j] == dir[..j];
    } else {
      var rest := dir[1..];
      assert dir[..j][1..] == rest[..j - 1] && dir[..i][1..] == rest[..i - 1] && dir[i..j] == rest[i - 1..j - 1];
      SumAll(rest, i - 1, j - 1);
    }
  }

  // ---- one read ----

  /** The room of a reply: the count asked for, cut to the session's message size and to the buffer. */
  function Room(count: Word, msize: Word): nat {
    var most := Repr(msize - IO_HEADER);
    var n := if count > most then most else count;
    if n > MAX_MSG then MAX_MSG else n
  }

  /** The records a read returns, none being an error; and the place after it. */
  datatype Reply = Records(from: nat, to: nat) | BadOffset

  /** read_dir: offset zero starts over, and any other offset must be where the last read stopped. */
  function Read(dir: seq<Stat9>, p: Place, offset: Word, room: nat): (Reply, Place)
    requires p.index <= |dir|
  {
    if offset != 0 && offset != p.off then (BadOffset, p)
    else
      var i, off := if offset == 0 then 0 else p.index, if offset == 0 then 0 else p.off;
      var j := Reach(dir, i, room);
      (Records(i, j), Place(Repr(off + Sum(dir[i..j])), j))
  }

  /** A reply is empty exactly at the end and where the next record does not fit. */
  lemma EmptyExact(dir: seq<Stat9>, p: Place, offset: Word, room: nat)
    requires p.index <= |dir|
    ensures var r := Read(dir, p, offset, room).0;
      r.Records? ==> (r.from == r.to <==> r.from == |dir| || SizeD2M(dir[r.from]) > room)
  {
    hide SizeD2M;
  }

  // ---- the loop ----

  class Reader {
    var at: Place
    var data: Bytes

    constructor ()
      ensures at == Place(0, 0) && data == []
    {
      at, data := Place(0, 0), [];
    }

    /** read_dir: fills the reply record by record. */
    method ReadDir(dir: seq<Stat9>, offset: Word, room: nat) returns (ok: bool)
      requires at.index <= |dir|
      modifies this
      ensures var (r, p) := Read(dir, old(at), offset, room);
        && at == p && at.index <= |dir| && (ok <==> r.Records?)
        && (ok ==> data == Encoded(dir[r.from..r.to]) && |data| <= room)
        && (!ok ==> data == old(data))
    {
      hide SizeD2M, ConvD2M;
      if offset == 0 {
        at := Place(0, 0);
      } else if offset != at.off {
        return false;
      }
      ghost var i := at.index;
      ghost var j := Reach(dir, i, room);
      data := [];
      var n := 0;
      assert dir[i..i] == [];
      while at.index < |dir|
        invariant i <= at.index <= j && n == |data| == Sum(dir[i..at.index]) <= room
        invariant data == Encoded(dir[i..at.index]) && Reach(dir, at.index, room - n) == j
        invariant at.off == if offset == 0 then 0 else old(at).off
        decreases |dir| - at.index
      {
        var d := dir[at.index];
        SizeExactD2M(d, room - n);
        Snoc(dir, i, at.index);
        var k := ConvD2M(d, room - n);
        if k.None? {
          break;
        }
        MoreRoomStat(d, room - n);
        data, n := data + k.value, n + |k.value|;
        at := at.(index := at.index + 1);
      }
      at := at.(off := Repr(at.off + n));
      return true;
    }
  }

  /** One record more. */
  lemma Snoc(dir: seq<Stat9>, i: nat, j: nat)
    requires i <= j < |dir|
    ensures Encoded(dir[i..j + 1]) == Encoded(dir[i..j]) + ConvD2M(dir[j], SizeD2M(dir[j])).value
    ensures Sum(dir[i..j + 1]) == Sum(dir[i..j]) + SizeD2M(dir[j])
    decreases j - i
  {
    hide SizeD2M, ConvD2M;
    SizeExactD2M(dir[j], SizeD2M(dir[j]));
    if i == j {
      assert dir[i..j] == [] && dir[i..j + 1] == [dir[j]];
      assert [dir[j]][1..] == [];
    } else {
      assert dir[i..j + 1][1..] == dir[i + 1..j + 1] && dir[i..j][1..] == dir[i + 1..j];
      SizeExactD2M(dir[i], SizeD2M(dir[i]));
      Snoc(dir, i + 1, j);
    }
  }

  lemma MoreRoomStat(d: Stat9, n: nat)
    requires SizeD2M(d) <= n
    ensures ConvD2M(d, n) == ConvD2M(d, SizeD2M(d))
  {
  }

  // ---- a client ----

  function Upto(i: nat, j: nat): (s: seq<nat>)
    requires i <= j
    ensures |s| == j - i && forall k :: 0 <= k < |s| ==> s[k] == i + k
  {
    seq(j - i, k => i + k)
  }

  /** What a client gets that reads from the start, each time where the last reply ended, until a reply is empty:
      which records, and whether it came to an empty reply. rooms: the room of each read. */
  datatype Listing = Listing(recs: seq<nat>, ended: bool)

  function Client(dir: seq<Stat9>, p: Place, offset: nat, rooms: seq<nat>): Listing
    requires p.index <= |dir|
    decreases |rooms|
  {
    if rooms == [] then Listing([], false)
    else
      var (r, q) := Read(dir, p, Repr(offset), rooms[0]);
      if r.BadOffset? || r.from == r.to then Listing([], r.Records?)
      else
        var g := Client(dir, q, offset + Sum(dir[r.from..r.to]), rooms[1..]);
        Listing(Upto(r.from, r.to) + g.recs, g.ended)
  }

  /** Where a client stands that has the first index records. */
  ghost predicate At(dir: seq<Stat9>, p: Place, offset: nat) {
    && p.index <= |dir| && offset == Sum(dir[..p.index])
    && (offset == 0 ==> p.index == 0) && (offset > 0 ==> p.off == offset)
  }

  lemma {:induction false} SumLess(dir: seq<Stat9>, j: nat)
    requires j <= |dir|
    ensures Sum(dir[..j]) <= Sum(dir) && (j > 0 ==> Sum(dir[..j]) >= 49)
  {
    SumAll(dir, j, |dir|);
    assert dir[..|dir|] == dir;
    if j > 0 {
      assert dir[..j][0] == dir[0];
    }
  }

  /** One read of such a client. */
  lemma ReadAt(dir: seq<Stat9>, p: Place, offset: nat, room: nat)
    requires At(dir, p, offset) && Sum(dir) < WORD_MOD
    ensures Sum(dir[..p.index]) <= Sum(dir)
    ensures var (r, q) := Read(dir, p, Repr(offset), room);
      && r == Records(p.index, Reach(dir, p.index, room)) && q.index == r.to
      && (r.to > r.from ==> At(dir, q, offset + Sum(dir[r.from..r.to])))
  {
    hide Reach;
    SumLess(dir, p.index);
    var j := Reach(dir, p.index, room);
    SumLess(dir, j);
    SumAll(dir, p.index, j);
    assert dir[..0] == [];
  }

  /** Whatever the counts, records come whole, in order and once, from the first on. */
  lemma {:induction false} InOrder(dir: seq<Stat9>, p: Place, offset: nat, rooms: seq<nat>)
    requires At(dir, p, offset) && Sum(dir) < WORD_MOD
    ensures var g := Client(dir, p, offset, rooms);
      p.index + |g.recs| <= |dir| && g.recs == Upto(p.index, p.index + |g.recs|)
    decreases |rooms|
  {
    hide Read, At, Sum;
    PlaceIn(dir, p, offset);
    if rooms == [] {
    } else {
      ReadAt(dir, p, offset, rooms[0]);
      var (r, q) := Read(dir, p, Repr(offset), rooms[0]);
      if r.from < r.to {
        InOrder(dir, q, offset + Sum(dir[r.from..r.to]), rooms[1..]);
      }
    }
  }

  lemma PlaceIn(dir: seq<Stat9>, p: Place, offset: nat)
    requires At(dir, p, offset)
    ensures p.index <= |dir|
  {
  }

  /** Every record fits. */
  predicate AllFitIn(dir: seq<Stat9>, i: nat, room: nat) {
    forall k :: i <= k < |dir| ==> SizeD2M(dir[k]) <= room
  }

  /** With the same room for every read: given enough reads the client comes to an empty reply, and it has every record
      then exactly when each fits. */
  lemma {:induction false} Complete(dir: seq<Stat9>, p: Place, offset: nat, room: nat, rooms: seq<nat>)
    requires At(dir, p, offset) && Sum(dir) < WORD_MOD && |rooms| > |dir| - p.index
    requires forall k :: 0 <= k < |rooms| ==> rooms[k] == room
    ensures var g := Client(dir, p, offset, rooms);
      g.ended && (g.recs == Upto(p.index, |dir|) <==> AllFitIn(dir, p.index, room))
    decreases |rooms|
  {
    hide Read, At, Sum, SizeD2M, Reach;
    ReadAt(dir, p, offset, room);
    EmptyExact(dir, p, Repr(offset), room);
    var (r, q) := Read(dir, p, Repr(offset), room);
    if r.from < r.to {
      Complete(dir, q, offset + Sum(dir[r.from..r.to]), room, rooms[1..]);
      InOrder(dir, q, offset + Sum(dir[r.from..r.to]), rooms[1..]);
      ReachedFit(dir, p.index, room);
      var g := Client(dir, q, offset + Sum(dir[r.from..r.to]), rooms[1..]);
      JoinUpto(r.from, r.to, |dir|, g.recs);
    }
  }

  lemma JoinUpto(i: nat, j: nat, n: nat, recs: seq<nat>)
    requires i <= j <= n
    ensures Upto(i, j) + recs == Upto(i, n) <==> recs == Upto(j, n)
  {
    assert Upto(i, n) == Upto(i, j) + Upto(j, n);
    if Upto(i, j) + recs == Upto(i, n) {
      assert recs == (Upto(i, j) + recs)[j - i..] == Upto(i, n)[j - i..] == Upto(j, n);
    }
  }

  lemma {:induction false} ReachedFit(dir: seq<Stat9>, i: nat, room: nat)
    requires i <= |dir|
    ensures forall k :: i <= k < Reach(dir, i, room) ==> SizeD2M(dir[k]) <= room
    decreases |dir| - i
  {
    hide SizeD2M;
    if i < |dir| && SizeD2M(dir[i]) <= room {
      ReachedFit(dir, i + 1, room - SizeD2M(dir[i]));
    } else {
    }
  }

  /** From the start of a directory the offsets can count: a client with one count for all its reads has every record
      once, whole and in order, exactly when each fits what the count leaves room for. */
  lemma DirComplete(dir: seq<Stat9>, p: Place, count: Word, msize: Word, rooms: seq<nat>)
    requires p.index <= |dir| && Sum(dir) < WORD_MOD && |rooms| > |dir|
    requires forall k :: 0 <= k < |rooms| ==> rooms[k] == Room(count, msize)
    ensures var g := Client(dir, p, 0, rooms);
      g.ended && (g.recs == Upto(0, |dir|) <==> AllFitIn(dir, 0, Room(count, msize)))
  {
    hide SizeD2M, Reach, Sum, Room;
    StartsOver(dir, p, rooms);
    NothingYet(dir);
    Complete(dir, Place(0, 0), 0, Room(count, msize), rooms);
  }

  lemma NothingYet(dir: seq<Stat9>)
    ensures Sum(dir[..0]) == 0
  {
  }

  /** Offset zero forgets where the directory stood. */
  lemma StartsOver(dir: seq<Stat9>, p: Place, rooms: seq<nat>)
    requires p.index <= |dir|
    ensures Client(dir, p, 0, rooms) == Client(dir, Place(0, 0), 0, rooms)
  {
    if rooms != [] {
      assert Read(dir, p, 0, rooms[0]) == Read(dir, Place(0, 0), 0, rooms[0]);
    }
  }

  /** Past what the offsets can count: a reply that ends where their low word is zero makes the next read start over. */
  lemma WrapRestarts(dir: seq<Stat9>, p: Place, offset: nat, room: nat)
    requires p.index <= |dir| && Repr(offset) == 0
    ensures Read(dir, p, Repr(offset), room).0 == Records(0, Reach(dir, 0, room))
  {
  }

  // ---- the client's side ----

  function Parsed(b: Bytes, n: nat): seq<Stat9>
    decreases n
  {
    var r := ConvM2D(b, |b|);
    if n == 0 || r.None? || r.value.1 > |b| then [] else [r.value.0] + Parsed(b[r.value.1..], n - 1)
  }

  predicate InRangeStat(d: Stat9) {
    AllFit(StatAtoms(d)) && SizeD2M(d) - 2 < 0x1_0000
  }

  /** The bytes of a reply read back as its records. */
  lemma {:induction false} ReadBack(dir: seq<Stat9>)
    requires forall k :: 0 <= k < |dir| ==> InRangeStat(dir[k])
    ensures Parsed(Encoded(dir), |dir|) == dir
  {
    hide ConvM2D, ConvD2M, SizeD2M, AllFit, StatAtoms;
    if dir == [] {
    } else {
      var d, b := dir[0], Encoded(dir);
      SizeExactD2M(d, SizeD2M(d));
      var e := ConvD2M(d, SizeD2M(d)).value;
      assert InRangeStat(d);
      assert e <= b && b[|e|..] == Encoded(dir[1..]);
      RoundTripD2M(d, b, |b|);
      ReadBack(dir[1..]);
      assert dir == [d] + dir[1..];
    }
  }
}
