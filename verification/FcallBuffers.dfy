/** The reading switches as the library runs them: strings stay in the buffer, moved down over their lengths, and
    the caller holds pointers to C strings. What the caller finds there, and when writing it again gives the
    bytes that were read. */
module FcallBuffers {
  import opened Wrappers
  import opened Words
  import opened Wire
  import opened Messages9P
  import opened Fcalls

  /** A message whose strings are places in the buffer. */
  type Pcall = Call<nat>

  // ---- reading in place ----

  /** gstr: the buffer after the move, and where the next field starts; the string is at p. */
  function PutStr(b: Bytes, p: nat, end: nat): (r: Option<(Bytes, nat)>)
    requires end <= |b|
    ensures r.Some? ==> |r.value.0| == |b|
  {
    if p + 2 > end then None
    else
      var n := G16(b, p);
      if p + 2 + n > end then None else Some((Shifted(b, p, n), p + 2 + n))
  }

  function PutStrs(b: Bytes, p: nat, end: nat, k: nat): (r: Option<(Bytes, seq<nat>, nat)>)
    requires end <= |b|
    ensures r.Some? ==> |r.value.0| == |b| && |r.value.1| == k
    decreases k
  {
    if k == 0 then Some((b, [], p))
    else
      var s := PutStr(b, p, end);
      if s.None? then None
      else
        var r := PutStrs(s.value.0, s.value.1, end, k - 1);
        if r.None? then None else Some((r.value.0, [p] + r.value.1, r.value.2))
  }

  /** The message, the buffer it left, and where reading stopped. */
  datatype Left = Left(f: Pcall, b: Bytes, next: nat)

  /** The types with one string, of which Tcreate has numbers behind it. */
  function PlaceOneString(b: Bytes, typ: nat, p: nat, end: nat): Option<Left>
    requires end <= |b|
  {
    if typ == 107 then
      var s := PutStr(b, p, end);
      if s.None? then None else Some(Left(Rerror(p), s.value.0, s.value.1))
    else if p + 4 > end then None
    else
      var s := PutStr(b, p + 4, end);
      if s.None? then None
      else if typ == 100 then Some(Left(Tversion(G32(b, p), p + 4), s.value.0, s.value.1))
      else if typ == 101 then Some(Left(Rversion(G32(b, p), p + 4), s.value.0, s.value.1))
      else
        var c, q := s.value.0, s.value.1;
        if q + 5 > end then None
        else Some(Left(Tcreate(G32(b, p), p + 4, G32(c, q), Machine.Rd(c, q + 4, 1)), c, q + 5))
  }

  /** The types with two. */
  function PlaceTwoStrings(b: Bytes, typ: nat, p: nat, end: nat): Option<Left>
    requires end <= |b|
  {
    var at := if typ == 102 then p + 4 else p + 8;
    if at > end then None
    else
      var s := PutStr(b, at, end);
      if s.None? then None
      else
        var u := PutStr(s.value.0, s.value.1, end);
        if u.None? then None
        else if typ == 102 then Some(Left(Tauth(G32(b, p), at, s.value.1), u.value.0, u.value.1))
        else Some(Left(Tattach(G32(b, p), G32(b, p + 4), at, s.value.1), u.value.0, u.value.1))
  }

  function PlaceTwalk(b: Bytes, p: nat, end: nat): Option<Left>
    requires end <= |b|
  {
    if p + 10 > end || G16(b, p + 8) > MAXWELEM then None
    else
      var r := PutStrs(b, p + 10, end, G16(b, p + 8));
      if r.None? then None else Some(Left(Twalk(G32(b, p), G32(b, p + 4), r.value.1), r.value.0, r.value.2))
  }

  /** A message without strings leaves the buffer as it is. */
  function Unmoved(b: Bytes, r: Option<(Pcall, nat)>): Option<Left> {
    if r.None? then None else Some(Left(r.value.0, b, r.value.1))
  }

  function Place(b: Bytes, typ: nat, p: nat, end: nat): Option<Left>
    requires end <= |b|
  {
    if typ == 102 || typ == 104 then PlaceTwoStrings(b, typ, p, end)
    else if HasStrings(typ) then PlaceOneString(b, typ, p, end)
    else if typ == 110 then PlaceTwalk(b, p, end)
    else if IsCounted(typ) then Unmoved(b, ParseData(b, typ, p, end))
    else if HasQid(typ) then Unmoved(b, ParseQid(b, typ, p, end))
    else Unmoved(b, ParseNumbers(b, typ, p, end))
  }

  /** convM2S: the message, its tag and the buffer. */
  function ReadCall(b: Bytes, n: nat): Option<(Pcall, nat, Bytes)>
    requires n <= |b|
  {
    if n < 7 then None
    else
      var size := G32(b, 0);
      if size < 7 || size > n then None
      else
        var r := Place(b, b[4], 7, size);
        if r.None? || r.value.next != size then None else Some((r.value.f, G16(b, 5), r.value.b))
  }

  // ---- what the caller finds ----

  function SeenStrs(b: Bytes, ps: seq<nat>): seq<Bytes> {
    if ps == [] then [] else [CString(b, ps[0])] + SeenStrs(b, ps[1..])
  }

  /** The message with its strings read from the buffer. */
  function Seen(b: Bytes, f: Pcall): Fcall {
    match f
    case Tversion(msize, version) => Tversion(msize, CString(b, version))
    case Rversion(msize, version) => Rversion(msize, CString(b, version))
    case Tauth(afid, uname, aname) => Tauth(afid, CString(b, uname), CString(b, aname))
    case Rauth(qid) => Rauth(qid)
    case Tattach(fid, afid, uname, aname) => Tattach(fid, afid, CString(b, uname), CString(b, aname))
    case Rattach(qid) => Rattach(qid)
    case Rerror(ename) => Rerror(CString(b, ename))
    case Tflush(oldtag) => Tflush(oldtag)
    case Rflush => Rflush
    case Twalk(fid, newfid, wname) => Twalk(fid, newfid, SeenStrs(b, wname))
    case Rwalk(wqid) => Rwalk(wqid)
    case Topen(fid, mode) => Topen(fid, mode)
    case Ropen(qid, iounit) => Ropen(qid, iounit)
    case Tcreate(fid, name, perm, mode) => Tcreate(fid, CString(b, name), perm, mode)
    case Rcreate(qid, iounit) => Rcreate(qid, iounit)
    case Tread(fid, offset, offsethi, count) => Tread(fid, offset, offsethi, count)
    case Rread(data) => Rread(data)
    case Twrite(fid, offset, offsethi, data) => Twrite(fid, offset, offsethi, data)
    case Rwrite(count) => Rwrite(count)
    case Tclunk(fid) => Tclunk(fid)
    case Rclunk => Rclunk
    case Tremove(fid) => Tremove(fid)
    case Rremove => Rremove
    case Tstat(fid) => Tstat(fid)
    case Rstat(stat) => Rstat(stat)
    case Twstat(fid, stat) => Twstat(fid, stat)
    case Rwstat => Rwstat
  }

  function CutStrs(ss: seq<Bytes>): seq<Bytes> {
    if ss == [] then [] else [CString(ss[0], 0)] + CutStrs(ss[1..])
  }

  /** The message with its strings cut at their first NUL. */
  function Cut(f: Fcall): Fcall {
    match f
    case Tversion(msize, version) => Tversion(msize, CString(version, 0))
    case Rversion(msize, version) => Rversion(msize, CString(version, 0))
    case Tauth(afid, uname, aname) => Tauth(afid, CString(uname, 0), CString(aname, 0))
    case Tattach(fid, afid, uname, aname) => Tattach(fid, afid, CString(uname, 0), CString(aname, 0))
    case Rerror(ename) => Rerror(CString(ename, 0))
    case Twalk(fid, newfid, wname) => Twalk(fid, newfid, CutStrs(wname))
    case Tcreate(fid, name, perm, mode) => Tcreate(fid, CString(name, 0), perm, mode)
    case _ => f
  }

  /** One string: placed exactly when the pure reader finds one. It is then there as a C string, and stays so
      whatever happens from next on. */
  lemma PutIs(b: Bytes, p: nat, end: nat)
    requires end <= |b|
    ensures var r, s := PutStr(b, p, end), GStr(b, p, end);
      && (r.Some? <==> s.Some?)
      && (r.Some? ==>
            && r.value.1 == s.value.1 && p < r.value.1 <= end
            && SameFrom(b, r.value.0, r.value.1) && SameBefore(b, r.value.0, p)
            && forall d :: SameBefore(r.value.0, d, r.value.1) ==> CString(d, p) == CString(s.value.0, 0))
  {
    hide Machine.Rd, CString;
    PlaceOne(b, p, end, Str);
    var r, s := PutStr(b, p, end), GStr(b, p, end);
    if r.Some? {
      forall d | SameBefore(r.value.0, d, r.value.1)
        ensures CString(d, p) == CString(s.value.0, 0)
      {
        FirstMeans(r.value.0, d, Ptr(p), Text(s.value.0), p, r.value.1);
      }
    }
  }

  lemma GStrSame(b: Bytes, c: Bytes, p: nat, end: nat)
    requires end <= |b| && SameFrom(b, c, p)
    ensures GStr(c, p, end) == GStr(b, p, end)
  {
    hide Machine.Rd, PureAtom;
    PureSame(b, c, p, end, Str);
    StrField(b, p, end);
    StrField(c, p, end);
  }

  lemma {:induction false} GStrsSame(b: Bytes, c: Bytes, p: nat, end: nat, k: nat)
    requires end <= |b| && SameFrom(b, c, p)
    ensures GStrs(c, p, end, k) == GStrs(b, p, end, k)
    decreases k
  {
    hide GStr;
    if k == 0 {
    } else {
      GStrSame(b, c, p, end);
      StrField(b, p, end);
      if GStr(b, p, end).Some? {
        GStrsSame(b, c, GStr(b, p, end).value.1, end, k - 1);
      }
    }
  }

  lemma SelfSame(b: Bytes, c: Bytes, p: nat)
    requires |b| == |c|
    ensures SameBefore(b, b, p) && SameFrom(b, b, p)
  {
  }

  lemma {:induction false} PutAll(b: Bytes, p: nat, end: nat, k: nat)
    requires p <= end <= |b|
    ensures var r, s := PutStrs(b, p, end, k), GStrs(b, p, end, k);
      && (r.Some? <==> s.Some?)
      && (r.Some? ==>
            && r.value.2 == s.value.1 && SameFrom(b, r.value.0, r.value.2) && SameBefore(b, r.value.0, p)
            && p <= r.value.2 <= end && SeenStrs(r.value.0, r.value.1) == CutStrs(s.value.0))
    decreases k
  {
    hide PutStr, GStr, CString;
    if k == 0 {
    } else {
      PutIs(b, p, end);
      var s := PutStr(b, p, end);
      if s.Some? {
        var c, q := s.value.0, s.value.1;
        PutAll(c, q, end, k - 1);
        GStrsSame(b, c, q, end, k - 1);
        var r := PutStrs(b, p, end, k);
        if r.Some? {
          assert CString(r.value.0, p) == CString(GStr(b, p, end).value.0, 0);
          assert r.value.1[1..] == PutStrs(c, q, end, k - 1).value.1;
          assert GStrs(b, p, end, k).value.0[1..] == GStrs(b, q, end, k - 1).value.0;
        }
      }
    }
  }

  ghost predicate Matches(q: Option<Left>, r: Option<(Fcall, nat)>) {
    && (q.Some? <==> r.Some?)
    && (q.Some? ==> q.value.next == r.value.1 && Seen(q.value.b, q.value.f) == Cut(r.value.0))
  }

  lemma OneString(b: Bytes, typ: nat, p: nat, end: nat)
    requires p <= end <= |b| && HasStrings(typ) && typ != 102 && typ != 104
    ensures Matches(PlaceOneString(b, typ, p, end), ParseStrings(b, typ, p, end))
  {
    hide PutStr, GStr, CString, Machine.Rd, G32;
    var at := if typ == 107 then p else p + 4;
    PutIs(b, at, end);
    var s := PutStr(b, at, end);
    if s.Some? {
      SelfSame(s.value.0, s.value.0, s.value.1);
      SameNumbers(b, s.value.0, s.value.1, end);
    }
  }

  lemma SameNumbers(b: Bytes, c: Bytes, q: nat, end: nat)
    requires end <= |b| && SameFrom(b, c, q)
    ensures q + 5 <= end ==> G32(b, q) == G32(c, q) && Machine.Rd(b, q + 4, 1) == Machine.Rd(c, q + 4, 1)
  {
    hide Machine.Rd;
    if q + 5 <= end {
      Machine.SameRead(b, c, q, 4);
      Machine.SameRead(b, c, q + 4, 1);
    }
  }

  lemma TwoStrings(b: Bytes, typ: nat, p: nat, end: nat)
    requires p <= end <= |b| && (typ == 102 || typ == 104)
    ensures Matches(PlaceTwoStrings(b, typ, p, end), ParseStrings(b, typ, p, end))
  {
    hide PutStr, GStr, CString, G32;
    var at := if typ == 102 then p + 4 else p + 8;
    PutIs(b, at, end);
    var s := PutStr(b, at, end);
    if s.Some? {
      var c, q := s.value.0, s.value.1;
      PutIs(c, q, end);
      GStrSame(b, c, q, end);
      var u := PutStr(c, q, end);
      if u.Some? {
        SelfSame(u.value.0, u.value.0, u.value.1);
      }
    }
  }

  lemma WalkStrings(b: Bytes, p: nat, end: nat)
    requires p <= end <= |b|
    ensures Matches(PlaceTwalk(b, p, end), ParseTwalk(b, p, end))
  {
    hide PutStrs, GStrs, SeenStrs, CutStrs, G32, G16;
    if p + 10 <= end && G16(b, p + 8) <= MAXWELEM {
      PutAll(b, p + 10, end, G16(b, p + 8));
    }
  }

  /** The other types have the same fields whatever a string is. */
  lemma NoStrings(b: Bytes, typ: nat, p: nat, end: nat)
    requires end <= |b| && !HasStrings(typ) && typ != 110
    ensures Matches(Place(b, typ, p, end), Parse(b, typ, p, end))
  {
    hide G32, G16, Machine.Rd, GQid, GQids;
  }

  lemma PlaceIs(b: Bytes, typ: nat, p: nat, end: nat)
    requires p <= end <= |b|
    ensures Matches(Place(b, typ, p, end), Parse(b, typ, p, end))
  {
    if typ == 102 || typ == 104 {
      hide Matches, PlaceTwoStrings, ParseStrings;
      TwoStrings(b, typ, p, end);
    } else if HasStrings(typ) {
      hide Matches, PlaceOneString, ParseStrings;
      OneString(b, typ, p, end);
    } else if typ == 110 {
      hide Matches, PlaceTwalk, ParseTwalk;
      WalkStrings(b, p, end);
    } else {
      hide Matches, Place, Parse;
      NoStrings(b, typ, p, end);
    }
  }

  /** convM2S accepts what the pure reader accepts, and in the buffer it leaves the caller finds the message with
      its strings cut at their first NUL; no string is overwritten by a later one. */
  lemma ReadCallIs(b: Bytes, n: nat)
    requires n <= |b|
    ensures var q, r := ReadCall(b, n), ConvM2S(b, n);
      && (q.Some? <==> r.Some?)
      && (q.Some? ==> q.value.1 == r.value.1 && Seen(q.value.2, q.value.0) == Cut(r.value.0))
  {
    hide Place, Parse, Seen, Cut, Machine.Rd;
    if n >= 7 {
      var size := G32(b, 0);
      if 7 <= size <= n {
        PlaceIs(b, b[4], 7, size);
      }
    }
  }

  // ---- strings without NULs ----

  predicate CleanStrs(ss: seq<Bytes>) {
    forall i :: 0 <= i < |ss| ==> NoNul(ss[i])
  }

  /** No string of the message holds a NUL. */
  predicate CleanCall(f: Fcall) {
    match f
    case Tversion(_, version) => NoNul(version)
    case Rversion(_, version) => NoNul(version)
    case Tauth(_, uname, aname) => NoNul(uname) && NoNul(aname)
    case Tattach(_, _, uname, aname) => NoNul(uname) && NoNul(aname)
    case Rerror(ename) => NoNul(ename)
    case Twalk(_, _, wname) => CleanStrs(wname)
    case Tcreate(_, name, _, _) => NoNul(name)
    case _ => true
  }

  lemma CutOne(s: Bytes)
    ensures |CString(s, 0)| <= |s| && (|CString(s, 0)| == |s| <==> NoNul(s)) && (NoNul(s) ==> CString(s, 0) == s)
  {
    hide CString;
    CStringWhole(s, 0);
    assert s[0..] == s;
  }

  lemma {:induction false} CutStrsSize(ss: seq<Bytes>)
    ensures |CutStrs(ss)| == |ss| && StrsSize(CutStrs(ss)) <= StrsSize(ss)
    ensures StrsSize(CutStrs(ss)) == StrsSize(ss) <==> CleanStrs(ss)
    ensures CleanStrs(ss) ==> CutStrs(ss) == ss
  {
    hide CString, NoNul;
    if ss == [] {
    } else {
      CutOne(ss[0]);
      CutStrsSize(ss[1..]);
      assert CutStrs(ss)[1..] == CutStrs(ss[1..]);
      assert ss == [ss[0]] + ss[1..];
      CleanRest(ss);
    }
  }

  lemma CleanRest(ss: seq<Bytes>)
    requires ss != []
    ensures CleanStrs(ss) <==> NoNul(ss[0]) && CleanStrs(ss[1..])
  {
    hide NoNul;
    if NoNul(ss[0]) && CleanStrs(ss[1..]) {
      forall i | 0 <= i < |ss|
        ensures NoNul(ss[i])
      {
        assert i > 0 ==> ss[i] == ss[1..][i - 1];
      }
    }
  }

  /** Cutting makes the message smaller unless there is nothing to cut. */
  lemma CutSize(f: Fcall)
    ensures SizeS2M(Cut(f)) <= SizeS2M(f)
    ensures SizeS2M(Cut(f)) == SizeS2M(f) <==> CleanCall(f)
    ensures CleanCall(f) ==> Cut(f) == f
  {
    hide CString, NoNul, StrsSize, CutStrs, CleanStrs;
    match f
    case Tversion(_, version) => CutOne(version);
    case Rversion(_, version) => CutOne(version);
    case Tauth(_, uname, aname) => CutOne(uname); CutOne(aname);
    case Tattach(_, _, uname, aname) => CutOne(uname); CutOne(aname);
    case Rerror(ename) => CutOne(ename);
    case Twalk(_, _, wname) => CutStrsSize(wname);
    case Tcreate(_, name, _, _) => CutOne(name);
    case _ =>
  }

  /** Written by convS2M and read in place by convM2S: the caller finds the message that was sent; a sender's
      strings, being C strings, hold no NUL. */
  lemma SendCall(f: Fcall, tag: nat, b: Bytes, n: nat)
    requires InRange(f) && tag < 0x1_0000 && SizeS2M(f) <= n <= |b|
    requires ConvS2M(f, tag, n).Some? && ConvS2M(f, tag, n).value <= b
    ensures var q := ReadCall(b, n);
      && q.Some? && q.value.1 == tag && Seen(q.value.2, q.value.0) == Cut(f)
      && (CleanCall(f) ==> Seen(q.value.2, q.value.0) == f)
  {
    hide ReadCall, ConvM2S, ConvS2M, Seen, Cut, InRange, SizeS2M, CleanCall;
    RoundTripS2M(f, tag, b, n);
    ReadCallIs(b, n);
    CutSize(f);
  }

  /** What was read in place is written again as the same bytes exactly when no string that came in held a NUL;
      otherwise fewer bytes are written. */
  lemma RewriteM2S(b: Bytes, n: nat)
    requires n <= |b| && ConvM2S(b, n).Some?
    ensures G32(b, 0) <= n
    ensures var q := ReadCall(b, n);
      && q.Some?
      && var f, tag := Seen(q.value.2, q.value.0), q.value.1;
         && SizeS2M(f) <= G32(b, 0)
         && (ConvS2M(f, tag, n) == Some(b[..G32(b, 0)]) <==> CleanCall(ConvM2S(b, n).value.0))
  {
    hide ReadCall, ConvM2S, Seen, Cut, SizeS2M, CleanCall, Body, G32, TypeOf;
    ReadCallIs(b, n);
    WriteRead(b, n);
    var (f, tag) := ConvM2S(b, n).value;
    CutSize(f);
    SizeExactS2M(Cut(f), tag, n);
  }

  const NUL_ERROR: Bytes := [12, 0, 0, 0, 107, 1, 0, 3, 0, 97, 0, 98]

  /** An error text of three bytes with a NUL in the middle: twelve bytes are read, ten are written again. */
  lemma ErrorShrinks()
    ensures |NUL_ERROR| == 12
    ensures var q := ReadCall(NUL_ERROR, 12);
      && ConvM2S(NUL_ERROR, 12) == Some((Rerror([97, 0, 98]), 1))
      && q.Some? && Seen(q.value.2, q.value.0) == Rerror([97])
      && ConvS2M(Seen(q.value.2, q.value.0), q.value.1, 12) == Some([10, 0, 0, 0, 107, 1, 0, 1, 0, 97])
  {
    hide ReadCall, ConvM2S, Seen, ConvS2M, InRange;
    var f: Fcall := Rerror([97, 0, 98]);
    ErrorBytes();
    SendCall(f, 1, NUL_ERROR, 12);
    RoundTripS2M(f, 1, NUL_ERROR, 12);
    FirstByte();
    ErrorAgain();
  }

  lemma FirstByte()
    ensures CString([97, 0, 98], 0) == [97]
  {
    assert CString([97, 0, 98], 1) == [];
  }

  lemma ErrorBytes()
    ensures ConvS2M(Rerror([97, 0, 98]), 1, 12) == Some(NUL_ERROR) && InRange(Rerror([97, 0, 98]))
  {
    hide Le;
    LeSmall(12);
    LeSmall(107);
    LeSmall(1);
    LeSmall(3);
    var f: Fcall := Rerror([97, 0, 98]);
    assert Body(f) == [3, 0] + [97, 0, 98] == [3, 0, 97, 0, 98];
    assert ConvS2M(f, 1, 12).value == [12, 0, 0, 0] + [107] + [1, 0] + [3, 0, 97, 0, 98] == NUL_ERROR;
  }

  lemma ErrorAgain()
    ensures ConvS2M(Rerror([97]), 1, 12) == Some([10, 0, 0, 0, 107, 1, 0, 1, 0, 97])
  {
    hide Le;
    LeSmall(10);
    LeSmall(107);
    LeSmall(1);
    var f: Fcall := Rerror([97]);
    assert Body(f) == [1, 0] + [97] == [1, 0, 97];
    assert [10, 0, 0, 0] + [107] + [1, 0] + [1, 0, 97] == [10, 0, 0, 0, 107, 1, 0, 1, 0, 97];
    assert ConvS2M(f, 1, 12).value == [10, 0, 0, 0] + [107] + [1, 0] + [1, 0, 97];
  }

  lemma LeSmall(v: Byte)
    ensures Le(v, 1) == [v] && Le(v, 2) == [v, 0] && Le(v, 4) == [v, 0, 0, 0]
  {
    hide Le;
    LeFirst(0, 1);
    LeFirst(0, 2);
    LeFirst(0, 3);
    LeFirst(v, 1);
    LeFirst(v, 2);
    LeFirst(v, 4);
  }

  lemma {:induction false} LeFirst(v: Byte, n: nat)
    requires n > 0
    ensures Le(v, n) == [v] + Le(0, n - 1) && Le(0, 0) == []
  {
    ByteFirst(v, 0);
  }

  // ---- stat records ----

  /** convM2D: the record with its strings in the buffer, the buffer, and the record's size. */
  function ReadStat(b: Bytes, n: nat): Option<(Stat<nat>, Bytes, nat)>
    requires n <= |b|
  {
    if n < 2 || G16(b, 0) + 2 > n then None
    else
      var end := G16(b, 0) + 2;
      if 2 + 39 > end then None
      else
        var q := Qid(Machine.Rd(b, 8, 1), G32(b, 9), G32(b, 13), G32(b, 17));
        var r := PutStrs(b, 41, end, 4);
        if r.None? then None
        else
          Some((Stat9(G16(b, 2), G32(b, 4), q, G32(b, 21), G32(b, 25), G32(b, 29), G32(b, 33), G32(b, 37),
                      r.value.1[0], r.value.1[1], r.value.1[2], r.value.1[3]), r.value.0, end))
  }

  function SeenStat(b: Bytes, d: Stat<nat>): Stat9 {
    Stat9(d.typ, d.dev, d.qid, d.mode, d.atime, d.mtime, d.length, d.lengthhi,
          CString(b, d.name), CString(b, d.uid), CString(b, d.gid), CString(b, d.muid))
  }

  function CutStat(d: Stat9): Stat9 {
    d.(name := CString(d.name, 0), uid := CString(d.uid, 0), gid := CString(d.gid, 0), muid := CString(d.muid, 0))
  }

  predicate CleanStat(d: Stat9) {
    NoNul(d.name) && NoNul(d.uid) && NoNul(d.gid) && NoNul(d.muid)
  }

  lemma ReadStatIs(b: Bytes, n: nat)
    requires n <= |b|
    ensures var q, r := ReadStat(b, n), ConvM2D(b, n);
      && (q.Some? <==> r.Some?)
      && (q.Some? ==> q.value.2 == r.value.1 && SeenStat(q.value.1, q.value.0) == CutStat(r.value.0))
  {
    hide PutStrs, GStrs, SeenStrs, CutStrs, G32, G16, Machine.Rd, CString;
    if n >= 2 && G16(b, 0) + 2 <= n && 41 <= G16(b, 0) + 2 {
      var end := G16(b, 0) + 2;
      PutAll(b, 41, end, 4);
      StrsField(b, 41, end, 4);
      var r, s := PutStrs(b, 41, end, 4), GStrs(b, 41, end, 4);
      if r.Some? {
        SeenFour(r.value.0, r.value.1);
        CutFour(s.value.0);
      }
    }
  }

  lemma SeenFour(b: Bytes, ps: seq<nat>)
    requires |ps| == 4
    ensures SeenStrs(b, ps) == [CString(b, ps[0]), CString(b, ps[1]), CString(b, ps[2]), CString(b, ps[3])]
  {
    hide CString;
    assert SeenStrs(b, ps[1..][1..][1..][1..]) == [];
    assert SeenStrs(b, ps[1..][1..][1..]) == [CString(b, ps[3])];
    assert SeenStrs(b, ps[1..][1..]) == [CString(b, ps[2]), CString(b, ps[3])];
  }

  lemma CutFour(ss: seq<Bytes>)
    requires |ss| == 4
    ensures CutStrs(ss) == [CString(ss[0], 0), CString(ss[1], 0), CString(ss[2], 0), CString(ss[3], 0)]
  {
    hide CString;
    assert CutStrs(ss[1..][1..][1..][1..]) == [];
    assert CutStrs(ss[1..][1..][1..]) == [CString(ss[3], 0)];
    assert CutStrs(ss[1..][1..]) == [CString(ss[2], 0), CString(ss[3], 0)];
  }

  lemma CutStatSize(d: Stat9)
    ensures SizeD2M(CutStat(d)) <= SizeD2M(d) && (SizeD2M(CutStat(d)) == SizeD2M(d) <==> CleanStat(d))
    ensures CleanStat(d) ==> CutStat(d) == d
  {
    hide CString, NoNul;
    CutOne(d.name);
    CutOne(d.uid);
    CutOne(d.gid);
    CutOne(d.muid);
  }

  /** A record written by convD2M and read in place by convM2D is found as it was sent. */
  lemma SendStat(d: Stat9, b: Bytes, n: nat)
    requires AllFit(StatAtoms(d)) && SizeD2M(d) - 2 < 0x1_0000 && SizeD2M(d) <= n <= |b|
    requires ConvD2M(d, SizeD2M(d)).value <= b
    ensures var q := ReadStat(b, n);
      && q.Some? && q.value.2 == SizeD2M(d) && SeenStat(q.value.1, q.value.0) == CutStat(d)
      && (CleanStat(d) ==> SeenStat(q.value.1, q.value.0) == d)
  {
    hide ReadStat, ConvM2D, ConvD2M, SeenStat, CutStat, SizeD2M, CleanStat, AllFit, StatAtoms;
    RoundTripD2M(d, b, n);
    ReadStatIs(b, n);
    CutStatSize(d);
  }

  /** A record read in place is written again as the same bytes exactly when its fields fill it and no string that
      came in held a NUL. */
  lemma RewriteM2D(b: Bytes, n: nat)
    requires n <= |b| && ConvM2D(b, n).Some?
    ensures var q, (d, size) := ReadStat(b, n), ConvM2D(b, n).value;
      && q.Some? && size <= n && SizeD2M(d) <= size
      && (ConvD2M(SeenStat(q.value.1, q.value.0), n) == Some(b[..size]) <==> SizeD2M(d) == size && CleanStat(d))
  {
    hide ReadStat, ConvM2D, ConvD2M, SeenStat, CutStat, SizeD2M, CleanStat, DecodeStat, StatAtoms, SizeOf, EncodeStat,
      AllFit, Kinds;
    ReadStatIs(b, n);
    ConvIsDecodeStat(b, n);
    EncodeStatDecoded(b, n);
    var (d, size) := ConvM2D(b, n).value;
    ConvIsEncodeStat(d);
    CutStatSize(d);
    SizeExactD2M(CutStat(d), n);
    MoreRoom(d, n);
  }

  /** More room does not change what is written. */
  lemma MoreRoom(d: Stat9, n: nat)
    requires SizeD2M(d) <= n
    ensures ConvD2M(d, n) == ConvD2M(d, SizeD2M(d))
  {
  }
}
