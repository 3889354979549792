/** 9P2000 messages as the library's three switches see them: one computes the size, one writes, one
    reads. Each is written out by message type; they agree. */
module Fcalls {
  import opened Wrappers
  import opened Words
  import opened Wire
  import opened Messages9P

  datatype Qid = Qid(typ: nat, vers: nat, path: nat, pathhi: nat)

  /** A message; S is what a string is. */
  datatype Call<S> =
    | Tversion(msize: nat, version: S)
    | Rversion(msize: nat, version: S)
    | Tauth(afid: nat, uname: S, aname: S)
    | Rauth(qid: Qid)
    | Tattach(fid: nat, afid: nat, uname: S, aname: S)
    | Rattach(qid: Qid)
    | Rerror(ename: S)
    | Tflush(oldtag: nat)
    | Rflush
    | Twalk(fid: nat, newfid: nat, wname: seq<S>)
    | Rwalk(wqid: seq<Qid>)
    | Topen(fid: nat, mode: nat)
    | Ropen(qid: Qid, iounit: nat)
    | Tcreate(fid: nat, name: S, perm: nat, mode: nat)
    | Rcreate(qid: Qid, iounit: nat)
    | Tread(fid: nat, offset: nat, offsethi: nat, count: nat)
    | Rread(data: Bytes)
    | Twrite(fid: nat, offset: nat, offsethi: nat, data: Bytes)
    | Rwrite(count: nat)
    | Tclunk(fid: nat)
    | Rclunk
    | Tremove(fid: nat)
    | Rremove
    | Tstat(fid: nat)
    | Rstat(stat: Bytes)
    | Twstat(fid: nat, stat: Bytes)
    | Rwstat

  type Fcall = Call<Bytes>

  // ---- the size ----

  function StrsSize(ss: seq<Bytes>): nat {
    if ss == [] then 0 else 2 + |ss[0]| + StrsSize(ss[1..])
  }

  /** sizeS2M. */
  function SizeS2M(f: Fcall): nat {
    var n := 4 + 1 + 2;
    match f
    case Tversion(_, version) => n + 4 + 2 + |version|
    case Rversion(_, version) => n + 4 + 2 + |version|
    case Tauth(_, uname, aname) => n + 4 + 2 + |uname| + 2 + |aname|
    case Rauth(_) => n + 13
    case Rattach(_) => n + 13
    case Tattach(_, _, uname, aname) => n + 4 + 4 + 2 + |uname| + 2 + |aname|
    case Rerror(ename) => n + 2 + |ename|
    case Tflush(_) => n + 2
    case Twalk(_, _, wname) => n + 4 + 4 + 2 + StrsSize(wname)
    case Rwalk(wqid) => n + 2 + 13 * |wqid|
    case Topen(_, _) => n + 4 + 1
    case Ropen(_, _) => n + 13 + 4
    case Rcreate(_, _) => n + 13 + 4
    case Tcreate(_, name, _, _) => n + 4 + 2 + |name| + 4 + 1
    case Tread(_, _, _, _) => n + 4 + 8 + 4
    case Rread(data) => n + 4 + |data|
    case Twrite(_, _, _, data) => n + 4 + 8 + 4 + |data|
    case Rwrite(_) => n + 4
    case Tclunk(_) => n + 4
    case Tremove(_) => n + 4
    case Tstat(_) => n + 4
    case Rstat(stat) => n + 2 + |stat|
    case Twstat(_, stat) => n + 4 + 2 + |stat|
    case _ => n
  }

  // ---- writing ----

  function TypeOf(f: Fcall): nat {
    match f
    case Tversion(_, _) => 100
    case Rversion(_, _) => 101
    case Tauth(_, _, _) => 102
    case Rauth(_) => 103
    case Tattach(_, _, _, _) => 104
    case Rattach(_) => 105
    case Rerror(_) => 107
    case Tflush(_) => 108
    case Rflush => 109
    case Twalk(_, _, _) => 110
    case Rwalk(_) => 111
    case Topen(_, _) => 112
    case Ropen(_, _) => 113
    case Tcreate(_, _, _, _) => 114
    case Rcreate(_, _) => 115
    case Tread(_, _, _, _) => 116
    case Rread(_) => 117
    case Twrite(_, _, _, _) => 118
    case Rwrite(_) => 119
    case Tclunk(_) => 120
    case Rclunk => 121
    case Tremove(_) => 122
    case Rremove => 123
    case Tstat(_) => 124
    case Rstat(_) => 125
    case Twstat(_, _) => 126
    case Rwstat => 127
  }

  function P8(v: nat): Bytes { Le(v, 1) }

  function P16(v: nat): Bytes { Le(v, 2) }

  function P32(v: nat): Bytes { Le(v, 4) }

  function PStr(s: Bytes): Bytes { P16(|s|) + s }

  function PQid(q: Qid): Bytes { P8(q.typ) + P32(q.vers) + P32(q.path) + P32(q.pathhi) }

  function PStrs(ss: seq<Bytes>): Bytes {
    if ss == [] then [] else PStr(ss[0]) + PStrs(ss[1..])
  }

  function PQids(qs: seq<Qid>): Bytes {
    if qs == [] then [] else PQid(qs[0]) + PQids(qs[1..])
  }

  /** What convS2M writes after the header. */
  function Body(f: Fcall): Bytes {
    match f
    case Tversion(msize, version) => P32(msize) + PStr(version)
    case Rversion(msize, version) => P32(msize) + PStr(version)
    case Tauth(afid, uname, aname) => P32(afid) + PStr(uname) + PStr(aname)
    case Rauth(qid) => PQid(qid)
    case Rattach(qid) => PQid(qid)
    case Tattach(fid, afid, uname, aname) => P32(fid) + P32(afid) + PStr(uname) + PStr(aname)
    case Rerror(ename) => PStr(ename)
    case Tflush(oldtag) => P16(oldtag)
    case Twalk(fid, newfid, wname) => P32(fid) + P32(newfid) + P16(|wname|) + PStrs(wname)
    case Rwalk(wqid) => P16(|wqid|) + PQids(wqid)
    case Topen(fid, mode) => P32(fid) + P8(mode)
    case Ropen(qid, iounit) => PQid(qid) + P32(iounit)
    case Rcreate(qid, iounit) => PQid(qid) + P32(iounit)
    case Tcreate(fid, name, perm, mode) => P32(fid) + PStr(name) + P32(perm) + P8(mode)
    case Tread(fid, offset, offsethi, count) => P32(fid) + P32(offset) + P32(offsethi) + P32(count)
    case Rread(data) => P32(|data|) + data
    case Twrite(fid, offset, offsethi, data) => P32(fid) + P32(offset) + P32(offsethi) + P32(|data|) + data
    case Rwrite(count) => P32(count)
    case Tclunk(fid) => P32(fid)
    case Tremove(fid) => P32(fid)
    case Tstat(fid) => P32(fid)
    case Rstat(stat) => P16(|stat|) + stat
    case Twstat(fid, stat) => P32(fid) + P16(|stat|) + stat
    case _ => []
  }

  /** convS2M; none if the buffer of n bytes is too small. */
  function ConvS2M(f: Fcall, tag: nat, n: nat): Option<Bytes> {
    var size := SizeS2M(f);
    if size > n then None else Some(P32(size) + P8(TypeOf(f)) + P16(tag) + Body(f))
  }

  lemma {:induction false} StrsLength(ss: seq<Bytes>)
    ensures |PStrs(ss)| == StrsSize(ss)
  {
    if ss == [] {
      assert PStrs(ss) == [];
    } else {
      StrsLength(ss[1..]);
    }
  }

  lemma {:induction false} QidsLength(qs: seq<Qid>)
    ensures |PQids(qs)| == 13 * |qs|
  {
    if qs == [] {
      assert PQids(qs) == [];
    } else {
      QidsLength(qs[1..]);
    }
  }

  lemma BodySize(f: Fcall)
    ensures 7 + |Body(f)| == SizeS2M(f)
  {
    hide Le, PStrs, PQids, StrsSize;
    if f.Twalk? {
      StrsLength(f.wname);
    } else if f.Rwalk? {
      QidsLength(f.wqid);
    }
  }

  /** The writer writes, for every type, exactly what the size switch counted. */
  lemma SizeExactS2M(f: Fcall, tag: nat, n: nat)
    ensures ConvS2M(f, tag, n).Some? <==> SizeS2M(f) <= n
    ensures ConvS2M(f, tag, n).Some? ==> |ConvS2M(f, tag, n).value| == SizeS2M(f)
  {
    hide Le, Body, SizeS2M, TypeOf;
    BodySize(f);
  }

  // ---- as fields ----

  function QidAtoms(q: Qid): seq<Atom> {
    [Num(1, q.typ), Num(4, q.vers), Num(4, q.path), Num(4, q.pathhi)]
  }

  function Texts(ss: seq<Bytes>): seq<Atom> {
    if ss == [] then [] else [Text(ss[0])] + Texts(ss[1..])
  }

  function QidsAtoms(qs: seq<Qid>): seq<Atom> {
    if qs == [] then [] else QidAtoms(qs[0]) + QidsAtoms(qs[1..])
  }

  function Head(f: Fcall): seq<Atom> {
    match f
    case Tversion(msize, version) => [Num(4, msize), Text(version)]
    case Rversion(msize, version) => [Num(4, msize), Text(version)]
    case Tauth(afid, uname, aname) => [Num(4, afid), Text(uname), Text(aname)]
    case Rauth(qid) => QidAtoms(qid)
    case Rattach(qid) => QidAtoms(qid)
    case Tattach(fid, afid, uname, aname) => [Num(4, fid), Num(4, afid), Text(uname), Text(aname)]
    case Rerror(ename) => [Text(ename)]
    case Tflush(oldtag) => [Num(2, oldtag)]
    case Twalk(fid, newfid, wname) => [Num(4, fid), Num(4, newfid), Num(2, |wname|)]
    case Rwalk(wqid) => [Num(2, |wqid|)]
    case Topen(fid, mode) => [Num(4, fid), Num(1, mode)]
    case Ropen(qid, iounit) => QidAtoms(qid) + [Num(4, iounit)]
    case Rcreate(qid, iounit) => QidAtoms(qid) + [Num(4, iounit)]
    case Tcreate(fid, name, perm, mode) => [Num(4, fid), Text(name), Num(4, perm), Num(1, mode)]
    case Tread(fid, offset, offsethi, count) => [Num(4, fid), Num(4, offset), Num(4, offsethi), Num(4, count)]
    case Rread(data) => [Num(4, |data|)]
    case Twrite(fid, offset, offsethi, data) => [Num(4, fid), Num(4, offset), Num(4, offsethi), Num(4, |data|)]
    case Rwrite(count) => [Num(4, count)]
    case Tclunk(fid) => [Num(4, fid)]
    case Tremove(fid) => [Num(4, fid)]
    case Tstat(fid) => [Num(4, fid)]
    case Rstat(stat) => [Num(2, |stat|)]
    case Twstat(fid, stat) => [Num(4, fid), Num(2, |stat|)]
    case _ => []
  }

  function List(f: Fcall): seq<Atom> {
    if f.Twalk? then Texts(f.wname) else if f.Rwalk? then QidsAtoms(f.wqid) else []
  }

  function Raw(f: Fcall): Bytes {
    if f.Rread? || f.Twrite? then f.data else if f.Rstat? || f.Twstat? then f.stat else []
  }

  function ToMsg(f: Fcall, tag: nat): Msg {
    Msg(TypeOf(f), tag, Head(f), List(f), Raw(f))
  }

  lemma One(a: Atom)
    ensures EncodeAtoms([a]) == EncodeAtom(a)
  {
    assert EncodeAtoms([a][1..]) == [];
  }

  lemma More(a: Atom, rest: seq<Atom>)
    ensures EncodeAtoms([a] + rest) == EncodeAtom(a) + EncodeAtoms(rest)
  {
    assert ([a] + rest)[1..] == rest;
  }

  lemma Two(a: Atom, b: Atom)
    ensures EncodeAtoms([a, b]) == EncodeAtom(a) + EncodeAtom(b)
  {
    hide EncodeAtoms, EncodeAtom;
    assert [a, b] == [a] + [b];
    More(a, [b]);
    One(b);
  }

  lemma Three(a: Atom, b: Atom, c: Atom)
    ensures EncodeAtoms([a, b, c]) == EncodeAtom(a) + EncodeAtom(b) + EncodeAtom(c)
  {
    hide EncodeAtoms, EncodeAtom;
    assert [a, b, c] == [a] + [b, c];
    More(a, [b, c]);
    Two(b, c);
  }

  lemma Four(a: Atom, b: Atom, c: Atom, d: Atom)
    ensures EncodeAtoms([a, b, c, d]) == EncodeAtom(a) + EncodeAtom(b) + EncodeAtom(c) + EncodeAtom(d)
  {
    hide EncodeAtoms, EncodeAtom;
    assert [a, b, c, d] == [a] + [b, c, d];
    More(a, [b, c, d]);
    Three(b, c, d);
  }

  lemma {:induction false} Joined(xs: seq<Atom>, ys: seq<Atom>)
    ensures EncodeAtoms(xs + ys) == EncodeAtoms(xs) + EncodeAtoms(ys)
  {
    hide EncodeAtom;
    if xs == [] {
      assert xs + ys == ys;
    } else {
      assert (xs + ys)[1..] == xs[1..] + ys;
      Joined(xs[1..], ys);
    }
  }

  lemma QidIs(q: Qid)
    ensures EncodeAtoms(QidAtoms(q)) == PQid(q)
  {
    hide EncodeAtoms, Le;
    Four(Num(1, q.typ), Num(4, q.vers), Num(4, q.path), Num(4, q.pathhi));
  }

  lemma {:induction false} TextsIs(ss: seq<Bytes>)
    ensures EncodeAtoms(Texts(ss)) == PStrs(ss)
  {
    hide EncodeAtoms, Le;
    if ss == [] {
      NoAtoms();
    } else {
      More(Text(ss[0]), Texts(ss[1..]));
      TextsIs(ss[1..]);
    }
  }

  lemma NoAtoms()
    ensures EncodeAtoms([]) == []
  {
  }

  lemma {:induction false} QidsIs(qs: seq<Qid>)
    ensures EncodeAtoms(QidsAtoms(qs)) == PQids(qs)
  {
    hide EncodeAtoms, PQid;
    if qs == [] {
      NoAtoms();
    } else {
      Joined(QidAtoms(qs[0]), QidsAtoms(qs[1..]));
      QidIs(qs[0]);
      QidsIs(qs[1..]);
    }
  }

  /** Neither a list nor counted bytes follow the fixed fields. */
  predicate Plain(f: Fcall) {
    !f.Twalk? && !f.Rwalk? && !f.Rread? && !f.Twrite? && !f.Rstat? && !f.Twstat?
  }

  lemma PlainNumbers(f: Fcall)
    requires f.Rauth? || f.Rattach? || f.Tflush? || f.Topen? || f.Ropen? || f.Rcreate? || f.Tread? || f.Rwrite?
    ensures Body(f) == EncodeAtoms(Head(f))
  {
    hide EncodeAtoms, Le, PQid, QidAtoms, Texts, QidsAtoms, PStrs, PQids;
    match f
    case Rauth(qid) => QidIs(qid);
    case Rattach(qid) => QidIs(qid);
    case Tflush(oldtag) => One(Num(2, oldtag));
    case Topen(fid, mode) => Two(Num(4, fid), Num(1, mode));
    case Ropen(qid, iounit) => Joined(QidAtoms(qid), [Num(4, iounit)]); QidIs(qid); One(Num(4, iounit));
    case Rcreate(qid, iounit) => Joined(QidAtoms(qid), [Num(4, iounit)]); QidIs(qid); One(Num(4, iounit));
    case Tread(fid, offset, offsethi, count) => Four(Num(4, fid), Num(4, offset), Num(4, offsethi), Num(4, count));
    case Rwrite(count) => One(Num(4, count));
  }

  lemma PlainStrings(f: Fcall)
    requires f.Tversion? || f.Rversion? || f.Tauth? || f.Tattach? || f.Rerror? || f.Tcreate?
    ensures Body(f) == EncodeAtoms(Head(f))
  {
    hide EncodeAtoms, Le, PQid, QidAtoms, Texts, QidsAtoms, PStrs, PQids;
    match f
    case Tversion(msize, version) => Two(Num(4, msize), Text(version));
    case Rversion(msize, version) => Two(Num(4, msize), Text(version));
    case Tauth(afid, uname, aname) => Three(Num(4, afid), Text(uname), Text(aname));
    case Tattach(fid, afid, uname, aname) => Four(Num(4, fid), Num(4, afid), Text(uname), Text(aname));
    case Rerror(ename) => One(Text(ename));
    case Tcreate(fid, name, perm, mode) => Four(Num(4, fid), Text(name), Num(4, perm), Num(1, mode));
  }

  lemma PlainIs(f: Fcall)
    requires Plain(f)
    ensures Body(f) == EncodeAtoms(Head(f))
  {
    if f.Rauth? || f.Rattach? || f.Tflush? || f.Topen? || f.Ropen? || f.Rcreate? || f.Tread? || f.Rwrite? {
      PlainNumbers(f);
    } else if f.Tversion? || f.Rversion? || f.Tauth? || f.Tattach? || f.Rerror? || f.Tcreate? {
      PlainStrings(f);
    } else {
      hide EncodeAtoms, Le;
      NoAtoms();
      if f.Tclunk? || f.Tremove? || f.Tstat? {
        One(Num(4, f.fid));
      }
    }
  }

  lemma ListIs(f: Fcall)
    requires f.Twalk? || f.Rwalk?
    ensures Body(f) == EncodeAtoms(Head(f)) + EncodeAtoms(List(f)) + Raw(f)
  {
    hide EncodeAtoms, Le, PQid, QidAtoms, Texts, QidsAtoms, PStrs, PQids;
    if f.Twalk? {
      Three(Num(4, f.fid), Num(4, f.newfid), Num(2, |f.wname|));
      TextsIs(f.wname);
    } else {
      One(Num(2, |f.wqid|));
      QidsIs(f.wqid);
    }
  }

  lemma RawIs(f: Fcall)
    requires f.Rread? || f.Twrite? || f.Rstat? || f.Twstat?
    ensures Body(f) == EncodeAtoms(Head(f)) + Raw(f) && List(f) == []
  {
    hide EncodeAtoms, Le, PQid, QidAtoms, Texts, QidsAtoms, PStrs, PQids;
    match f
    case Rread(data) => One(Num(4, |data|));
    case Twrite(fid, offset, offsethi, data) => Four(Num(4, fid), Num(4, offset), Num(4, offsethi), Num(4, |data|));
    case Rstat(stat) => One(Num(2, |stat|));
    case Twstat(fid, stat) => Two(Num(4, fid), Num(2, |stat|));
  }

  lemma HeadIs(f: Fcall)
    ensures Body(f) == EncodeAtoms(Head(f)) + EncodeAtoms(List(f)) + Raw(f)
  {
    hide EncodeAtoms, Body, Head;
    NoAtoms();
    if Plain(f) {
      PlainIs(f);
    } else if f.Twalk? || f.Rwalk? {
      ListIs(f);
    } else {
      RawIs(f);
    }
  }

  /** The writer's bytes are the message's fields in order. */
  lemma ConvIsEncode(f: Fcall, tag: nat)
    ensures SizeS2M(f) == Size(ToMsg(f, tag))
    ensures ConvS2M(f, tag, SizeS2M(f)) == Some(Encode(ToMsg(f, tag)))
  {
    hide Le, EncodeAtoms, SizeS2M, SizeOf, Body, Head, List, Raw, TypeOf;
    HeadIs(f);
    SizeExactS2M(f, tag, SizeS2M(f));
    var m := ToMsg(f, tag);
    SizeExact(m.head);
    SizeExact(m.list);
    var h := P32(SizeS2M(f)) + P8(TypeOf(f)) + P16(tag);
    assert |h| == 7;
    assert h + (EncodeAtoms(m.head) + EncodeAtoms(m.list) + m.raw) ==
           h + EncodeAtoms(m.head) + EncodeAtoms(m.list) + m.raw;
  }

  // ---- reading ----

  function GStr(b: Bytes, p: nat, end: nat): Option<(Bytes, nat)>
    requires end <= |b|
  {
    if p + 2 > end then None
    else
      var n := Machine.Rd(b, p, 2);
      if p + 2 + n > end then None else Some((b[p + 2..p + 2 + n], p + 2 + n))
  }

  function GQid(b: Bytes, p: nat, end: nat): Option<(Qid, nat)>
    requires end <= |b|
  {
    if p + 13 > end then None
    else Some((Qid(Machine.Rd(b, p, 1), Machine.Rd(b, p + 1, 4), Machine.Rd(b, p + 5, 4), Machine.Rd(b, p + 9, 4)),
               p + 13))
  }

  function GStrs(b: Bytes, p: nat, end: nat, k: nat): Option<(seq<Bytes>, nat)>
    requires end <= |b|
    decreases k
  {
    if k == 0 then Some(([], p))
    else
      var s := GStr(b, p, end);
      if s.None? then None
      else
        var r := GStrs(b, s.value.1, end, k - 1);
        if r.None? then None else Some(([s.value.0] + r.value.0, r.value.1))
  }

  function GQids(b: Bytes, p: nat, end: nat, k: nat): Option<(seq<Qid>, nat)>
    requires end <= |b|
    decreases k
  {
    if k == 0 then Some(([], p))
    else
      var q := GQid(b, p, end);
      if q.None? then None
      else
        var r := GQids(b, q.value.1, end, k - 1);
        if r.None? then None else Some(([q.value.0] + r.value.0, r.value.1))
  }

  function G32(b: Bytes, p: nat): nat
    requires p + 4 <= |b|
  {
    Machine.Rd(b, p, 4)
  }

  function G16(b: Bytes, p: nat): nat
    requires p + 2 <= |b|
  {
    Machine.Rd(b, p, 2)
  }

  /** The types with strings. */
  function ParseStrings(b: Bytes, typ: nat, p: nat, end: nat): Option<(Fcall, nat)>
    requires end <= |b|
  {
    if typ == 100 || typ == 101 then
      if p + 4 > end then None
      else
        var s := GStr(b, p + 4, end);
        if s.None? then None
        else Some((if typ == 100 then Tversion(G32(b, p), s.value.0) else Rversion(G32(b, p), s.value.0), s.value.1))
    else if typ == 102 then
      if p + 4 > end then None
      else
        var s := GStr(b, p + 4, end);
        var u := if s.None? then None else GStr(b, s.value.1, end);
        if u.None? then None else Some((Tauth(G32(b, p), s.value.0, u.value.0), u.value.1))
    else if typ == 104 then
      if p + 8 > end then None
      else
        var s := GStr(b, p + 8, end);
        var u := if s.None? then None else GStr(b, s.value.1, end);
        if u.None? then None else Some((Tattach(G32(b, p), G32(b, p + 4), s.value.0, u.value.0), u.value.1))
    else if typ == 107 then
      var s := GStr(b, p, end);
      if s.None? then None else Some((Rerror(s.value.0), s.value.1))
    else if typ == 114 then
      if p + 4 > end then None
      else
        var s := GStr(b, p + 4, end);
        if s.None? || s.value.1 + 5 > end then None
        else Some((Tcreate(G32(b, p), s.value.0, G32(b, s.value.1), Machine.Rd(b, s.value.1 + 4, 1)), s.value.1 + 5))
    else None
  }

  function ParseQid<S>(b: Bytes, typ: nat, p: nat, end: nat): Option<(Call<S>, nat)>
    requires end <= |b| && HasQid(typ)
  {
    var q := GQid(b, p, end);
    if q.None? then None
    else if typ == 103 then Some((Rauth(q.value.0), q.value.1))
    else if typ == 105 then Some((Rattach(q.value.0), q.value.1))
    else if q.value.1 + 4 > end then None
    else if typ == 113 then Some((Ropen(q.value.0, G32(b, q.value.1)), q.value.1 + 4))
    else Some((Rcreate(q.value.0, G32(b, q.value.1)), q.value.1 + 4))
  }

  /** The other types of numbers only. */
  function ParseNumbers<S>(b: Bytes, typ: nat, p: nat, end: nat): Option<(Call<S>, nat)>
    requires end <= |b|
  {
    if typ == 108 then if p + 2 > end then None else Some((Tflush(G16(b, p)), p + 2))
    else if typ == 112 then if p + 5 > end then None else Some((Topen(G32(b, p), Machine.Rd(b, p + 4, 1)), p + 5))
    else if typ == 116 then
      if p + 16 > end then None
      else Some((Tread(G32(b, p), G32(b, p + 4), G32(b, p + 8), G32(b, p + 12)), p + 16))
    else if typ == 119 || typ == 120 || typ == 122 || typ == 124 then
      if p + 4 > end then None else Some((OneNumber(typ, G32(b, p)), p + 4))
    else if typ == 109 then Some((Rflush, p))
    else if typ == 121 then Some((Rclunk, p))
    else if typ == 123 then Some((Rremove, p))
    else if typ == 127 then Some((Rwstat, p))
    else None
  }

  function OneNumber<S>(typ: nat, v: nat): Call<S> {
    if typ == 119 then Rwrite(v) else if typ == 120 then Tclunk(v) else if typ == 122 then Tremove(v) else Tstat(v)
  }

  function ParseTwalk(b: Bytes, p: nat, end: nat): Option<(Fcall, nat)>
    requires end <= |b|
  {
    if p + 10 > end || G16(b, p + 8) > MAXWELEM then None
    else
      var r := GStrs(b, p + 10, end, G16(b, p + 8));
      if r.None? then None else Some((Twalk(G32(b, p), G32(b, p + 4), r.value.0), r.value.1))
  }

  function ParseRwalk<S>(b: Bytes, p: nat, end: nat): Option<(Call<S>, nat)>
    requires end <= |b|
  {
    if p + 2 > end || G16(b, p) > MAXWELEM then None
    else
      var r := GQids(b, p + 2, end, G16(b, p));
      if r.None? then None else Some((Rwalk(r.value.0), r.value.1))
  }

  function ParseRread<S>(b: Bytes, p: nat, end: nat): Option<(Call<S>, nat)>
    requires end <= |b|
  {
    if p + 4 > end || p + 4 + G32(b, p) > end then None
    else Some((Rread(b[p + 4..p + 4 + G32(b, p)]), p + 4 + G32(b, p)))
  }

  function ParseTwrite<S>(b: Bytes, p: nat, end: nat): Option<(Call<S>, nat)>
    requires end <= |b|
  {
    if p + 16 > end || p + 16 + G32(b, p + 12) > end then None
    else
      var k := p + 16 + G32(b, p + 12);
      Some((Twrite(G32(b, p), G32(b, p + 4), G32(b, p + 8), b[p + 16..k]), k))
  }

  function ParseRstat<S>(b: Bytes, p: nat, end: nat): Option<(Call<S>, nat)>
    requires end <= |b|
  {
    if p + 2 > end || p + 2 + G16(b, p) > end then None
    else Some((Rstat(b[p + 2..p + 2 + G16(b, p)]), p + 2 + G16(b, p)))
  }

  function ParseTwstat<S>(b: Bytes, p: nat, end: nat): Option<(Call<S>, nat)>
    requires end <= |b|
  {
    if p + 6 > end || p + 6 + G16(b, p + 4) > end then None
    else Some((Twstat(G32(b, p), b[p + 6..p + 6 + G16(b, p + 4)]), p + 6 + G16(b, p + 4)))
  }

  /** The types with a list or counted bytes. */
  function ParseCounted(b: Bytes, typ: nat, p: nat, end: nat): Option<(Fcall, nat)>
    requires end <= |b| && IsCounted(typ)
  {
    if typ == 110 then ParseTwalk(b, p, end) else ParseData(b, typ, p, end)
  }

  function ParseData<S>(b: Bytes, typ: nat, p: nat, end: nat): Option<(Call<S>, nat)>
    requires end <= |b| && IsCounted(typ)
  {
    if typ == 111 then ParseRwalk(b, p, end)
    else if typ == 117 then ParseRread(b, p, end)
    else if typ == 118 then ParseTwrite(b, p, end)
    else if typ == 125 then ParseRstat(b, p, end)
    else ParseTwstat(b, p, end)
  }

  predicate HasStrings(typ: nat) {
    typ == 100 || typ == 101 || typ == 102 || typ == 104 || typ == 107 || typ == 114
  }

  predicate HasQid(typ: nat) {
    typ == 103 || typ == 105 || typ == 113 || typ == 115
  }

  predicate IsCounted(typ: nat) {
    typ == 110 || typ == 111 || typ == 117 || typ == 118 || typ == 125 || typ == 126
  }

  function Parse(b: Bytes, typ: nat, p: nat, end: nat): Option<(Fcall, nat)>
    requires end <= |b|
  {
    if HasStrings(typ) then ParseStrings(b, typ, p, end)
    else if IsCounted(typ) then ParseCounted(b, typ, p, end)
    else if HasQid(typ) then ParseQid(b, typ, p, end)
    else ParseNumbers(b, typ, p, end)
  }

  /** convM2S, with the strings taken out of an untouched buffer; the message and its tag. */
  function ConvM2S(b: Bytes, n: nat): Option<(Fcall, nat)>
    requires n <= |b|
  {
    if n < 7 then None
    else
      var size := G32(b, 0);
      if size < 7 || size > n then None
      else
        var r := Parse(b, b[4], 7, size);
        if r.None? || r.value.1 != size then None else Some((r.value.0, G16(b, 5)))
  }

  // ---- the reader agrees with the fields ----

  /** One field more. */
  function Then(g: Option<Got>, r: Option<Run>): Option<Run> {
    if g.None? || r.None? then None else Some(Run([g.value.atom] + r.value.atoms, r.value.next))
  }

  lemma Unroll(b: Bytes, p: nat, end: nat, k: Kind, ks: seq<Kind>)
    requires end <= |b|
    ensures var g := PureAtom(b, p, end, k);
      PureAtoms(b, p, end, [k] + ks) == if g.None? then None else Then(g, PureAtoms(b, g.value.next, end, ks))
  {
    hide PureAtom;
    assert ([k] + ks)[1..] == ks;
  }

  lemma NoKinds(b: Bytes, p: nat, end: nat)
    requires end <= |b|
    ensures PureAtoms(b, p, end, []) == Some(Run([], p))
  {
  }

  lemma StrField(b: Bytes, p: nat, end: nat)
    requires end <= |b|
    ensures var g, s := PureAtom(b, p, end, Str), GStr(b, p, end);
      (g.None? <==> s.None?) && (g.Some? ==> g.value == Got(Text(s.value.0), s.value.1) && p <= s.value.1 <= end)
  {
    hide Machine.Rd;
  }

  lemma NumField(b: Bytes, p: nat, end: nat, w: nat)
    requires end <= |b|
    ensures PureAtom(b, p, end, U(w)) == if p + w > end then None else Some(Got(Num(w, Machine.Rd(b, p, w)), p + w))
  {
  }

  lemma Nums1(b: Bytes, p: nat, end: nat, w: nat)
    requires end <= |b|
    ensures PureAtoms(b, p, end, [U(w)]) ==
      if p + w > end then None else Some(Run([Num(w, Machine.Rd(b, p, w))], p + w))
  {
    hide PureAtoms, PureAtom, Machine.Rd;
    assert [U(w)] == [U(w)] + [];
    Unroll(b, p, end, U(w), []);
    NumField(b, p, end, w);
    NoKinds(b, p + w, end);
    if p + w <= end {
      assert [Num(w, Machine.Rd(b, p, w))] + [] == [Num(w, Machine.Rd(b, p, w))];
    }
  }

  /** A number before other fields. */
  lemma NumThen(b: Bytes, p: nat, end: nat, w: nat, ks: seq<Kind>)
    requires end <= |b|
    ensures PureAtoms(b, p, end, [U(w)] + ks)
         == if p + w > end then None
            else
              var r := PureAtoms(b, p + w, end, ks);
              if r.None? then None else Some(Run([Num(w, Machine.Rd(b, p, w))] + r.value.atoms, r.value.next))
  {
    hide PureAtoms, PureAtom, Machine.Rd;
    Unroll(b, p, end, U(w), ks);
    NumField(b, p, end, w);
  }

  lemma StrThen(b: Bytes, p: nat, end: nat, ks: seq<Kind>)
    requires end <= |b|
    ensures var s := GStr(b, p, end);
      PureAtoms(b, p, end, [Str] + ks)
      == if s.None? then None
         else
           var r := PureAtoms(b, s.value.1, end, ks);
           if r.None? then None else Some(Run([Text(s.value.0)] + r.value.atoms, r.value.next))
  {
    hide PureAtoms, PureAtom, GStr;
    Unroll(b, p, end, Str, ks);
    StrField(b, p, end);
  }

  lemma QidThen(b: Bytes, p: nat, end: nat, ks: seq<Kind>)
    requires end <= |b|
    ensures var q := GQid(b, p, end);
      PureAtoms(b, p, end, QID + ks)
      == if q.None? then None
         else
           var r := PureAtoms(b, q.value.1, end, ks);
           if r.None? then None else Some(Run(QidAtoms(q.value.0) + r.value.atoms, r.value.next))
  {
    hide PureAtoms, Machine.Rd;
    assert QID + ks == [U(1)] + ([U(4)] + ([U(4)] + ([U(4)] + ks)));
    NumThen(b, p, end, 1, [U(4)] + ([U(4)] + ([U(4)] + ks)));
    NumThen(b, p + 1, end, 4, [U(4)] + ([U(4)] + ks));
    NumThen(b, p + 5, end, 4, [U(4)] + ks);
    NumThen(b, p + 9, end, 4, ks);
    if p + 13 <= end && PureAtoms(b, p + 13, end, ks).Some? {
      var q, x := GQid(b, p, end).value.0, PureAtoms(b, p + 13, end, ks).value.atoms;
      assert [Num(1, q.typ)] + ([Num(4, q.vers)] + ([Num(4, q.path)] + ([Num(4, q.pathhi)] + x))) == QidAtoms(q) + x;
    }
  }

  lemma {:induction false} StrsField(b: Bytes, p: nat, end: nat, k: nat)
    requires end <= |b|
    ensures var r, s := PureAtoms(b, p, end, Repeat(k, [Str])), GStrs(b, p, end, k);
      (r.None? <==> s.None?) && (r.Some? ==> r.value == Run(Texts(s.value.0), s.value.1) && |s.value.0| == k)
    decreases k
  {
    hide PureAtoms, GStr;
    if k == 0 {
      NoKinds(b, p, end);
    } else {
      StrThen(b, p, end, Repeat(k - 1, [Str]));
      var s := GStr(b, p, end);
      if s.Some? {
        StrsField(b, s.value.1, end, k - 1);
        if GStrs(b, p, end, k).Some? {
          assert GStrs(b, p, end, k).value.0[1..] == GStrs(b, s.value.1, end, k - 1).value.0;
        }
      }
    }
  }

  lemma {:induction false} QidsField(b: Bytes, p: nat, end: nat, k: nat)
    requires end <= |b|
    ensures var r, s := PureAtoms(b, p, end, Repeat(k, QID)), GQids(b, p, end, k);
      (r.None? <==> s.None?) && (r.Some? ==> r.value == Run(QidsAtoms(s.value.0), s.value.1) && |s.value.0| == k)
    decreases k
  {
    hide PureAtoms, GQid, QidAtoms;
    if k == 0 {
      NoKinds(b, p, end);
    } else {
      QidThen(b, p, end, Repeat(k - 1, QID));
      var s := GQid(b, p, end);
      if s.Some? {
        QidsField(b, s.value.1, end, k - 1);
        if GQids(b, p, end, k).Some? {
          assert GQids(b, p, end, k).value.0[1..] == GQids(b, s.value.1, end, k - 1).value.0;
        }
      }
    }
  }

  lemma Layouts()
    ensures LayoutOf(104) == Some(Layout([U(4), U(4), Str, Str], [], false))
    ensures LayoutOf(114) == Some(Layout([U(4), Str, U(4), U(1)], [], false))
    ensures LayoutOf(110) == Some(Layout([U(4), U(4), U(2)], [Str], false))
    ensures LayoutOf(111) == Some(Layout([U(2)], QID, false))
    ensures LayoutOf(117) == Some(Layout([U(4)], [], true))
    ensures LayoutOf(118) == Some(Layout([U(4), U(4), U(4), U(4)], [], true))
    ensures LayoutOf(125) == Some(Layout([U(2)], [], true))
    ensures LayoutOf(126) == Some(Layout([U(4), U(2)], [], true))
  {
  }

  /** What the reader makes of the bytes is what the fields say. */
  ghost predicate Agrees(b: Bytes, typ: nat, p: nat, end: nat, r: Option<(Fcall, nat)>)
    requires p <= end <= |b|
  {
    var lay := LayoutOf(typ);
    var d := if lay.None? then None else DecodeBody(b, lay.value, p, end);
    && (d.Some? <==> r.Some? && r.value.1 == end)
    && (d.Some? ==> var f := r.value.0; TypeOf(f) == typ && d.value == Parts(Head(f), List(f), Raw(f)))
  }

  /** A layout of fixed fields only. */
  lemma FixedAgrees(b: Bytes, typ: nat, p: nat, end: nat, r: Option<(Fcall, nat)>)
    requires p <= end <= |b| && LayoutOf(typ).Some? && LayoutOf(typ).value.unit == [] && !LayoutOf(typ).value.raw
    requires var h := PureAtoms(b, p, end, LayoutOf(typ).value.head);
      && (h.Some? <==> r.Some?)
      && (h.Some? ==> h.value == Run(Head(r.value.0), r.value.1) && TypeOf(r.value.0) == typ && Plain(r.value.0))
    ensures Agrees(b, typ, p, end, r)
  {
    hide PureAtoms, Head, LayoutOf;
    if r.Some? {
      NoKinds(b, r.value.1, end);
    }
  }

  lemma StringsAgree(b: Bytes, typ: nat, p: nat, end: nat)
    requires p <= end <= |b| && HasStrings(typ)
    ensures Agrees(b, typ, p, end, ParseStrings(b, typ, p, end))
  {
    if typ == 100 || typ == 101 || typ == 107 || typ == 102 {
      ShortStrings(b, typ, p, end);
    } else {
      LongStrings(b, typ, p, end);
    }
  }

  lemma ShortStrings(b: Bytes, typ: nat, p: nat, end: nat)
    requires p <= end <= |b| && (typ == 100 || typ == 101 || typ == 107 || typ == 102)
    ensures Agrees(b, typ, p, end, ParseStrings(b, typ, p, end))
  {
    hide PureAtoms, Machine.Rd, Agrees, GStr, G32;
    if typ == 107 {
      assert [Str] == [Str] + [];
      StrThen(b, p, end, []);
      StrEnds(b, p, end);
    } else if typ == 102 {
      assert [U(4), Str, Str] == [U(4)] + ([Str] + ([Str] + []));
      NumThen(b, p, end, 4, [Str] + ([Str] + []));
      StrThen(b, p + 4, end, [Str] + []);
      StrEnds(b, p + 4, end);
      if GStr(b, p + 4, end).Some? {
        StrThen(b, GStr(b, p + 4, end).value.1, end, []);
        StrEnds(b, GStr(b, p + 4, end).value.1, end);
      }
      G32Is(b, p, end);
    } else {
      assert [U(4), Str] == [U(4)] + ([Str] + []);
      NumThen(b, p, end, 4, [Str] + []);
      StrThen(b, p + 4, end, []);
      StrEnds(b, p + 4, end);
      G32Is(b, p, end);
    }
    FixedAgrees(b, typ, p, end, ParseStrings(b, typ, p, end));
  }

  /** Nothing follows the string. */
  lemma StrEnds(b: Bytes, p: nat, end: nat)
    requires end <= |b|
    ensures GStr(b, p, end).Some? ==>
      PureAtoms(b, GStr(b, p, end).value.1, end, []) == Some(Run([], GStr(b, p, end).value.1))
  {
  }

  lemma G32Is(b: Bytes, p: nat, end: nat)
    requires end <= |b|
    ensures p + 4 <= end ==> G32(b, p) == Machine.Rd(b, p, 4)
  {
  }

  lemma LongStrings(b: Bytes, typ: nat, p: nat, end: nat)
    requires p <= end <= |b| && (typ == 104 || typ == 114)
    ensures Agrees(b, typ, p, end, ParseStrings(b, typ, p, end))
  {
    hide PureAtoms, Machine.Rd, Agrees, GStr, G32, LayoutOf;
    Layouts();
    G32Is(b, p, end);
    if typ == 104 {
      assert [U(4), U(4), Str, Str] == [U(4)] + ([U(4)] + ([Str] + ([Str] + [])));
      NumThen(b, p, end, 4, [U(4)] + ([Str] + ([Str] + [])));
      NumThen(b, p + 4, end, 4, [Str] + ([Str] + []));
      G32Is(b, p + 4, end);
      StrThen(b, p + 8, end, [Str] + []);
      if GStr(b, p + 8, end).Some? {
        StrThen(b, GStr(b, p + 8, end).value.1, end, []);
        StrEnds(b, GStr(b, p + 8, end).value.1, end);
      }
    } else {
      assert [U(4), Str, U(4), U(1)] == [U(4)] + ([Str] + ([U(4)] + [U(1)]));
      NumThen(b, p, end, 4, [Str] + ([U(4)] + [U(1)]));
      StrThen(b, p + 4, end, [U(4)] + [U(1)]);
      if GStr(b, p + 4, end).Some? {
        var q := GStr(b, p + 4, end).value.1;
        NumThen(b, q, end, 4, [U(1)]);
        Nums1(b, q + 4, end, 1);
        G32Is(b, q, end);
      }
    }
    FixedAgrees(b, typ, p, end, ParseStrings(b, typ, p, end));
  }

  lemma NumbersAgree(b: Bytes, typ: nat, p: nat, end: nat)
    requires p <= end <= |b| && !HasStrings(typ) && !IsCounted(typ) && !HasQid(typ)
    ensures Agrees(b, typ, p, end, ParseNumbers(b, typ, p, end))
  {
    if LayoutOf(typ).None? {
    } else if typ == 116 {
      ReadAgrees(b, p, end);
    } else if typ == 108 || typ == 112 {
      PairAgrees(b, typ, p, end);
    } else if typ == 119 || typ == 120 || typ == 122 || typ == 124 {
      FidAgrees(b, typ, p, end);
    } else {
      EmptyAgrees(b, typ, p, end);
    }
  }

  lemma PairAgrees(b: Bytes, typ: nat, p: nat, end: nat)
    requires p <= end <= |b| && (typ == 108 || typ == 112)
    ensures Agrees(b, typ, p, end, ParseNumbers(b, typ, p, end))
  {
    hide PureAtoms, Machine.Rd, Agrees, G32;
    G32Is(b, p, end);
    Nums1(b, p, end, 2);
    assert [U(4), U(1)] == [U(4)] + [U(1)];
    NumThen(b, p, end, 4, [U(1)]);
    Nums1(b, p + 4, end, 1);
    FixedAgrees(b, typ, p, end, ParseNumbers(b, typ, p, end));
  }

  lemma FidAgrees(b: Bytes, typ: nat, p: nat, end: nat)
    requires p <= end <= |b| && (typ == 119 || typ == 120 || typ == 122 || typ == 124)
    ensures Agrees(b, typ, p, end, ParseNumbers(b, typ, p, end))
  {
    hide PureAtoms, Machine.Rd, Agrees, G32;
    G32Is(b, p, end);
    Nums1(b, p, end, 4);
    FixedAgrees(b, typ, p, end, ParseNumbers(b, typ, p, end));
  }

  lemma EmptyAgrees(b: Bytes, typ: nat, p: nat, end: nat)
    requires p <= end <= |b| && (typ == 109 || typ == 121 || typ == 123 || typ == 127)
    ensures Agrees(b, typ, p, end, ParseNumbers(b, typ, p, end))
  {
    hide PureAtoms, Agrees;
    NoKinds(b, p, end);
    FixedAgrees(b, typ, p, end, ParseNumbers(b, typ, p, end));
  }

  lemma ReadAgrees(b: Bytes, p: nat, end: nat)
    requires p <= end <= |b|
    ensures Agrees(b, 116, p, end, ParseNumbers(b, 116, p, end))
  {
    hide PureAtoms, Machine.Rd, Agrees, G32;
    FourNums(b, p, end);
    FixedAgrees(b, 116, p, end, ParseNumbers(b, 116, p, end));
  }

  lemma FourNums(b: Bytes, p: nat, end: nat)
    requires end <= |b|
    ensures PureAtoms(b, p, end, [U(4), U(4), U(4), U(4)])
         == if p + 16 > end then None
            else Some(Run([Num(4, G32(b, p)), Num(4, G32(b, p + 4)), Num(4, G32(b, p + 8)), Num(4, G32(b, p + 12))],
              p + 16))
  {
    hide PureAtoms, Machine.Rd, G32;
    assert [U(4), U(4), U(4), U(4)] == [U(4)] + ([U(4)] + ([U(4)] + [U(4)]));
    NumThen(b, p, end, 4, [U(4)] + ([U(4)] + [U(4)]));
    NumThen(b, p + 4, end, 4, [U(4)] + [U(4)]);
    NumThen(b, p + 8, end, 4, [U(4)]);
    Nums1(b, p + 12, end, 4);
    G32Is(b, p, end);
    G32Is(b, p + 4, end);
    G32Is(b, p + 8, end);
    G32Is(b, p + 12, end);
    if p + 16 <= end {
      var w, x, y, z := Num(4, G32(b, p)), Num(4, G32(b, p + 4)), Num(4, G32(b, p + 8)), Num(4, G32(b, p + 12));
      assert [w] + ([x] + ([y] + [z])) == [w, x, y, z];
    }
  }

  lemma QidsAgree(b: Bytes, typ: nat, p: nat, end: nat)
    requires p <= end <= |b| && HasQid(typ)
    ensures Agrees(b, typ, p, end, ParseQid(b, typ, p, end))
  {
    hide PureAtoms, Machine.Rd, Agrees, G32, GQid, QidAtoms;
    var tail: seq<Kind> := if typ == 113 || typ == 115 then [U(4)] else [];
    assert LayoutOf(typ).value.head == QID + tail;
    QidThen(b, p, end, tail);
    if GQid(b, p, end).Some? {
      var q := GQid(b, p, end).value.1;
      Nums1(b, q, end, 4);
      NoKinds(b, q, end);
      G32Is(b, q, end);
      assert QidAtoms(GQid(b, p, end).value.0) + [] == QidAtoms(GQid(b, p, end).value.0);
    }
    FixedAgrees(b, typ, p, end, ParseQid(b, typ, p, end));
  }

  /** Counted bytes after the fixed fields. */
  lemma RawAgrees(b: Bytes, typ: nat, p: nat, end: nat, r: Option<(Fcall, nat)>, at: nat, count: nat)
    requires p <= end <= |b| && LayoutOf(typ).Some? && LayoutOf(typ).value.unit == [] && LayoutOf(typ).value.raw
    requires var h := PureAtoms(b, p, end, LayoutOf(typ).value.head);
      && (h.None? ==> r.None?)
      && (h.Some? ==> h.value.next == at && CountOf(h.value.atoms) == count && (r.Some? <==> at + count <= end))
      && (r.Some? ==> h.Some? && r.value.1 == at + count && Head(r.value.0) == h.value.atoms
                      && Raw(r.value.0) == b[at..at + count]
                      && TypeOf(r.value.0) == typ && List(r.value.0) == [])
    ensures Agrees(b, typ, p, end, r)
  {
    hide PureAtoms, Head, LayoutOf, Raw, List;
    NoKinds(b, at, end);
  }

  lemma RreadAgrees(b: Bytes, p: nat, end: nat)
    requires p <= end <= |b|
    ensures Agrees(b, 117, p, end, ParseRread(b, p, end))
  {
    hide PureAtoms, Machine.Rd, Agrees, G32, G16, LayoutOf;
    Layouts();
    G32Is(b, p, end);
    Nums1(b, p, end, 4);
    RawAgrees(b, 117, p, end, ParseRread(b, p, end), p + 4, if p + 4 <= end then G32(b, p) else 0);
  }

  lemma TwriteAgrees(b: Bytes, p: nat, end: nat)
    requires p <= end <= |b|
    ensures Agrees(b, 118, p, end, ParseTwrite(b, p, end))
  {
    hide PureAtoms, Machine.Rd, Agrees, G32, G16, LayoutOf;
    Layouts();
    FourNums(b, p, end);
    RawAgrees(b, 118, p, end, ParseTwrite(b, p, end), p + 16, if p + 16 <= end then G32(b, p + 12) else 0);
  }

  lemma RstatAgrees(b: Bytes, p: nat, end: nat)
    requires p <= end <= |b|
    ensures Agrees(b, 125, p, end, ParseRstat(b, p, end))
  {
    hide PureAtoms, Machine.Rd, Agrees, G32, G16, LayoutOf;
    Layouts();
    Nums1(b, p, end, 2);
    G16Is(b, p, end);
    RawAgrees(b, 125, p, end, ParseRstat(b, p, end), p + 2, if p + 2 <= end then G16(b, p) else 0);
  }

  lemma TwstatAgrees(b: Bytes, p: nat, end: nat)
    requires p <= end <= |b|
    ensures Agrees(b, 126, p, end, ParseTwstat(b, p, end))
  {
    hide PureAtoms, Machine.Rd, Agrees, G32, G16, LayoutOf;
    Layouts();
    assert [U(4), U(2)] == [U(4)] + [U(2)];
    G32Is(b, p, end);
    NumThen(b, p, end, 4, [U(2)]);
    Nums1(b, p + 4, end, 2);
    G16Is(b, p + 4, end);
    RawAgrees(b, 126, p, end, ParseTwstat(b, p, end), p + 6, if p + 6 <= end then G16(b, p + 4) else 0);
  }

  lemma G16Is(b: Bytes, p: nat, end: nat)
    requires end <= |b|
    ensures p + 2 <= end ==> G16(b, p) == Machine.Rd(b, p, 2)
  {
  }

  /** A counted list after the fixed fields. */
  lemma ListAgrees(b: Bytes, typ: nat, p: nat, end: nat, r: Option<(Fcall, nat)>, at: nat, count: nat)
    requires p <= end <= |b| && LayoutOf(typ).Some? && LayoutOf(typ).value.unit != [] && !LayoutOf(typ).value.raw
    requires var h := PureAtoms(b, p, end, LayoutOf(typ).value.head);
      && (h.None? ==> r.None?)
      && (h.Some? ==>
            && h.value.next == at && CountOf(h.value.atoms) == count
            && (count > MAXWELEM ==> r.None?)
            && (count <= MAXWELEM ==>
                  var x := PureAtoms(b, at, end, Repeat(count, LayoutOf(typ).value.unit));
                  && (x.Some? <==> r.Some?)
                  && (r.Some? ==> x.value == Run(List(r.value.0), r.value.1) && Head(r.value.0) == h.value.atoms)))
      && (r.Some? ==> TypeOf(r.value.0) == typ && Raw(r.value.0) == [])
    ensures Agrees(b, typ, p, end, r)
  {
    hide PureAtoms, Head, LayoutOf, Raw, List, Repeat;
  }

  lemma WalkAgrees(b: Bytes, p: nat, end: nat)
    requires p <= end <= |b|
    ensures Agrees(b, 110, p, end, ParseTwalk(b, p, end))
  {
    hide PureAtoms, Machine.Rd, G32, G16, GStrs, Texts, Repeat, LayoutOf, Agrees;
    Layouts();
    assert [U(4), U(4), U(2)] == [U(4)] + ([U(4)] + [U(2)]);
    NumThen(b, p, end, 4, [U(4)] + [U(2)]);
    NumThen(b, p + 4, end, 4, [U(2)]);
    Nums1(b, p + 8, end, 2);
    G32Is(b, p, end);
    G32Is(b, p + 4, end);
    G16Is(b, p + 8, end);
    if p + 10 <= end && G16(b, p + 8) <= MAXWELEM {
      StrsField(b, p + 10, end, G16(b, p + 8));
    }
    ListAgrees(b, 110, p, end, ParseTwalk(b, p, end), p + 10, if p + 10 <= end then G16(b, p + 8) else 0);
  }

  lemma RwalkAgrees(b: Bytes, p: nat, end: nat)
    requires p <= end <= |b|
    ensures Agrees(b, 111, p, end, ParseRwalk(b, p, end))
  {
    hide PureAtoms, Machine.Rd, G16, GQids, QidsAtoms, Repeat, LayoutOf, Agrees;
    Layouts();
    Nums1(b, p, end, 2);
    G16Is(b, p, end);
    if p + 2 <= end && G16(b, p) <= MAXWELEM {
      QidsField(b, p + 2, end, G16(b, p));
    }
    ListAgrees(b, 111, p, end, ParseRwalk(b, p, end), p + 2, if p + 2 <= end then G16(b, p) else 0);
  }

  lemma ParseAgrees(b: Bytes, typ: nat, p: nat, end: nat)
    requires p <= end <= |b|
    ensures Agrees(b, typ, p, end, Parse(b, typ, p, end))
  {
    hide Agrees, ParseStrings, ParseTwalk, ParseRwalk, ParseRread, ParseTwrite, ParseRstat, ParseTwstat,
      ParseNumbers, ParseQid;
    if HasStrings(typ) {
      StringsAgree(b, typ, p, end);
    } else if IsCounted(typ) {
      if typ == 110 {
        WalkAgrees(b, p, end);
      } else if typ == 111 {
        RwalkAgrees(b, p, end);
      } else if typ == 117 {
        RreadAgrees(b, p, end);
      } else if typ == 118 {
        TwriteAgrees(b, p, end);
      } else if typ == 125 {
        RstatAgrees(b, p, end);
      } else {
        TwstatAgrees(b, p, end);
      }
    } else if HasQid(typ) {
      QidsAgree(b, typ, p, end);
    } else {
      NumbersAgree(b, typ, p, end);
    }
  }

  /** The reading switch accepts what the fields allow and finds the same fields. */
  lemma ConvIsDecode(b: Bytes, n: nat)
    requires n <= |b|
    ensures var r, d := ConvM2S(b, n), Decode(b, n);
      (r.Some? <==> d.Some?) && (r.Some? ==> d.value == ToMsg(r.value.0, r.value.1))
  {
    hide Parse, DecodeBody, LayoutOf, Machine.Rd, Head, List, Raw, TypeOf;
    if n >= 7 {
      var size := G32(b, 0);
      if 7 <= size <= n {
        ParseAgrees(b, b[4], 7, size);
      }
    }
  }

  // ---- the round trip ----

  ghost predicate InRange(f: Fcall) {
    && AllFit(Head(f)) && AllFit(List(f)) && SizeS2M(f) < WORD_MOD
    && (f.Twalk? ==> |f.wname| <= MAXWELEM) && (f.Rwalk? ==> |f.wqid| <= MAXWELEM)
  }

  lemma {:induction false} TextKinds(ss: seq<Bytes>)
    ensures Kinds(Texts(ss)) == Repeat(|ss|, [Str])
  {
    if ss == [] {
      assert Texts(ss) == [];
    } else {
      TextKinds(ss[1..]);
      assert ([Text(ss[0])] + Texts(ss[1..]))[1..] == Texts(ss[1..]);
    }
  }

  lemma {:induction false} KindsJoin(xs: seq<Atom>, ys: seq<Atom>)
    ensures Kinds(xs + ys) == Kinds(xs) + Kinds(ys)
  {
    if xs == [] {
      assert xs + ys == ys;
    } else {
      assert (xs + ys)[1..] == xs[1..] + ys;
      KindsJoin(xs[1..], ys);
    }
  }

  lemma QidKinds(q: Qid)
    ensures Kinds(QidAtoms(q)) == QID
  {
    var a := QidAtoms(q);
    assert Kinds(a[1..][1..][1..][1..]) == [];
    assert Kinds(a[1..][1..][1..]) == [U(4)];
    assert Kinds(a[1..][1..]) == [U(4), U(4)];
    assert Kinds(a[1..]) == [U(4), U(4), U(4)];
  }

  lemma {:induction false} QidsKinds(qs: seq<Qid>)
    ensures Kinds(QidsAtoms(qs)) == Repeat(|qs|, QID)
  {
    hide QidAtoms;
    if qs == [] {
      assert QidsAtoms(qs) == [];
    } else {
      QidsKinds(qs[1..]);
      KindsJoin(QidAtoms(qs[0]), QidsAtoms(qs[1..]));
      QidKinds(qs[0]);
    }
  }

  lemma Kinds1(a: Atom)
    ensures Kinds([a]) == [KindOf(a)]
  {
    assert Kinds([a][1..]) == [];
  }

  lemma Kinds2(a: Atom, b: Atom)
    ensures Kinds([a, b]) == [KindOf(a), KindOf(b)]
  {
    Kinds1(b);
    assert [a, b][1..] == [b];
  }

  lemma Kinds3(a: Atom, b: Atom, c: Atom)
    ensures Kinds([a, b, c]) == [KindOf(a), KindOf(b), KindOf(c)]
  {
    Kinds2(b, c);
    assert [a, b, c][1..] == [b, c];
  }

  lemma Kinds4(a: Atom, b: Atom, c: Atom, d: Atom)
    ensures Kinds([a, b, c, d]) == [KindOf(a), KindOf(b), KindOf(c), KindOf(d)]
  {
    Kinds3(b, c, d);
    assert [a, b, c, d][1..] == [b, c, d];
  }

  lemma QidUnitKinds(q: Qid, v: nat)
    ensures Kinds(QidAtoms(q) + [Num(4, v)]) == QID + [U(4)]
  {
    hide QidAtoms;
    KindsJoin(QidAtoms(q), [Num(4, v)]);
    QidKinds(q);
    Kinds1(Num(4, v));
  }

  predicate KindsRight(f: Fcall) {
    LayoutOf(TypeOf(f)).Some? && Kinds(Head(f)) == LayoutOf(TypeOf(f)).value.head
  }

  lemma NumberKinds(f: Fcall)
    requires f.Rauth? || f.Rattach? || f.Tflush? || f.Topen? || f.Ropen? || f.Rcreate? || f.Tread? || f.Rwrite?
    ensures KindsRight(f)
  {
    hide Kinds, QidAtoms;
    match f
    case Rauth(qid) => QidKinds(qid);
    case Rattach(qid) => QidKinds(qid);
    case Tflush(oldtag) => Kinds1(Num(2, oldtag));
    case Topen(fid, mode) => Kinds2(Num(4, fid), Num(1, mode));
    case Ropen(qid, iounit) => QidUnitKinds(qid, iounit);
    case Rcreate(qid, iounit) => QidUnitKinds(qid, iounit);
    case Tread(fid, offset, offsethi, count) => Kinds4(Num(4, fid), Num(4, offset), Num(4, offsethi), Num(4, count));
    case Rwrite(count) => Kinds1(Num(4, count));
  }

  lemma StringKinds(f: Fcall)
    requires f.Tversion? || f.Rversion? || f.Tauth? || f.Tattach? || f.Rerror? || f.Tcreate?
    ensures KindsRight(f)
  {
    hide Kinds;
    match f
    case Tversion(msize, version) => Kinds2(Num(4, msize), Text(version));
    case Rversion(msize, version) => Kinds2(Num(4, msize), Text(version));
    case Tauth(afid, uname, aname) => Kinds3(Num(4, afid), Text(uname), Text(aname));
    case Tattach(fid, afid, uname, aname) => Kinds4(Num(4, fid), Num(4, afid), Text(uname), Text(aname));
    case Rerror(ename) => Kinds1(Text(ename));
    case Tcreate(fid, name, perm, mode) => Kinds4(Num(4, fid), Text(name), Num(4, perm), Num(1, mode));
  }

  lemma CountedKinds(f: Fcall)
    requires !Plain(f)
    ensures KindsRight(f)
  {
    hide Kinds;
    match f
    case Twalk(fid, newfid, wname) => Kinds3(Num(4, fid), Num(4, newfid), Num(2, |wname|));
    case Rwalk(wqid) => Kinds1(Num(2, |wqid|));
    case Rread(data) => Kinds1(Num(4, |data|));
    case Twrite(fid, offset, offsethi, data) => Kinds4(Num(4, fid), Num(4, offset), Num(4, offsethi), Num(4, |data|));
    case Rstat(stat) => Kinds1(Num(2, |stat|));
    case Twstat(fid, stat) => Kinds2(Num(4, fid), Num(2, |stat|));
  }

  /** The fixed fields are those of the type's layout. */
  lemma HeadKinds(f: Fcall)
    ensures KindsRight(f)
  {
    if !Plain(f) {
      CountedKinds(f);
    } else if f.Rauth? || f.Rattach? || f.Tflush? || f.Topen? || f.Ropen? || f.Rcreate? || f.Tread? || f.Rwrite? {
      NumberKinds(f);
    } else if f.Tversion? || f.Rversion? || f.Tauth? || f.Tattach? || f.Rerror? || f.Tcreate? {
      StringKinds(f);
    } else {
      hide Kinds;
      KindsEmpty();
      if f.Tclunk? || f.Tremove? || f.Tstat? {
        Kinds1(Num(4, f.fid));
      }
    }
  }

  lemma RestKinds(f: Fcall)
    requires InRange(f) && LayoutOf(TypeOf(f)).Some?
    ensures var lay := LayoutOf(TypeOf(f)).value;
      && (if lay.unit == [] then List(f) == []
          else CountOf(Head(f)) <= MAXWELEM && Kinds(List(f)) == Repeat(CountOf(Head(f)), lay.unit))
      && |Raw(f)| == (if lay.raw then CountOf(Head(f)) else 0)
  {
    hide Kinds, Texts, QidsAtoms, Repeat, AllFit, SizeS2M;
    if f.Twalk? {
      TextKinds(f.wname);
    } else if f.Rwalk? {
      QidsKinds(f.wqid);
    }
  }

  lemma InRangeOk(f: Fcall, tag: nat)
    requires InRange(f) && tag < 0x1_0000
    ensures WellFormed(ToMsg(f, tag))
  {
    hide Kinds, Head, List, Raw, SizeS2M, LayoutOf, AllFit, Size, Repeat;
    HeadKinds(f);
    RestKinds(f);
    ConvIsEncode(f, tag);
  }

  lemma {:induction false} TextsOne(x: seq<Bytes>, y: seq<Bytes>)
    requires Texts(x) == Texts(y)
    ensures x == y
  {
    if x != [] && y != [] {
      assert Texts(x)[0] == Texts(y)[0];
      assert Texts(x)[1..] == Texts(x[1..]) && Texts(y)[1..] == Texts(y[1..]);
      TextsOne(x[1..], y[1..]);
      assert x == [x[0]] + x[1..] && y == [y[0]] + y[1..];
    }
  }

  lemma {:induction false} QidsOne(x: seq<Qid>, y: seq<Qid>)
    requires QidsAtoms(x) == QidsAtoms(y)
    ensures x == y
  {
    if x != [] && y != [] {
      var a, b := QidsAtoms(x), QidsAtoms(y);
      assert a[0] == b[0] && a[1] == b[1] && a[2] == b[2] && a[3] == b[3];
      assert a[4..] == QidsAtoms(x[1..]) && b[4..] == QidsAtoms(y[1..]);
      QidsOne(x[1..], y[1..]);
      assert x == [x[0]] + x[1..] && y == [y[0]] + y[1..];
    }
  }

  lemma PlainOne(f: Fcall, g: Fcall)
    requires TypeOf(f) == TypeOf(g) && Head(f) == Head(g) && Plain(f)
    ensures f == g
  {
    var x, y := Head(f), Head(g);
    assert |x| > 0 ==> x[0] == y[0];
    assert |x| > 1 ==> x[1] == y[1];
    assert |x| > 2 ==> x[2] == y[2];
    assert |x| > 3 ==> x[3] == y[3];
    assert |x| > 4 ==> x[4] == y[4];
  }

  lemma CountedOne(f: Fcall, g: Fcall)
    requires TypeOf(f) == TypeOf(g) && Head(f) == Head(g) && List(f) == List(g) && Raw(f) == Raw(g) && !Plain(f)
    ensures f == g
  {
    hide Texts, QidsAtoms;
    var x, y := Head(f), Head(g);
    assert |x| > 0 ==> x[0] == y[0];
    assert |x| > 1 ==> x[1] == y[1];
    assert |x| > 2 ==> x[2] == y[2];
    if f.Twalk? {
      TextsOne(f.wname, g.wname);
    } else if f.Rwalk? {
      QidsOne(f.wqid, g.wqid);
    }
  }

  /** Different messages have different fields. */
  lemma FieldsOne(f: Fcall, g: Fcall, tag: nat, u: nat)
    requires ToMsg(f, tag) == ToMsg(g, u)
    ensures f == g && tag == u
  {
    hide TypeOf, Head, List, Raw;
    if Plain(f) {
      PlainOne(f, g);
    } else {
      CountedOne(f, g);
    }
  }

  /** Every in-range message, written by one switch and read by another, comes back. */
  lemma RoundTripS2M(f: Fcall, tag: nat, b: Bytes, n: nat)
    requires InRange(f) && tag < 0x1_0000 && SizeS2M(f) <= n <= |b|
    requires ConvS2M(f, tag, n).Some? && ConvS2M(f, tag, n).value <= b
    ensures ConvM2S(b, n) == Some((f, tag))
  {
    hide ConvM2S, Decode, SizeS2M, InRange, WellFormed, Body, Encode;
    InRangeOk(f, tag);
    ConvIsEncode(f, tag);
    RoundTrip(ToMsg(f, tag), b, n);
    ConvIsDecode(b, n);
    var r := ConvM2S(b, n).value;
    FieldsOne(r.0, f, r.1, tag);
  }

  /** What the reader finds, the writer writes again, in the size it counts. */
  lemma WriteRead(b: Bytes, n: nat)
    requires n <= |b| && ConvM2S(b, n).Some?
    ensures var (f, tag) := ConvM2S(b, n).value;
      SizeS2M(f) == G32(b, 0) <= n && ConvS2M(f, tag, n) == Some(b[..SizeS2M(f)])
  {
    hide ConvM2S, Decode, SizeS2M, WellFormed, Body, Encode, ToMsg;
    ConvIsDecode(b, n);
    var (f, tag) := ConvM2S(b, n).value;
    EncodeDecoded(b, n);
    ConvIsEncode(f, tag);
    SizeField(b, n);
  }

  lemma SizeField(b: Bytes, n: nat)
    requires n <= |b| && Decode(b, n).Some?
    ensures Size(Decode(b, n).value) == G32(b, 0)
  {
    hide PureAtoms, LayoutOf, Machine.Rd, EncodeAtoms, SizeOf, Kinds, AllFit;
    var m, size, lay := Decode(b, n).value, G32(b, 0), LayoutOf(b[4]).value;
    var h := PureAtoms(b, HEADER, size, lay.head).value;
    var ks := ListKinds(lay, CountOf(h.atoms)).value;
    EncodeOfPure(b, HEADER, size, lay.head);
    EncodeOfPure(b, h.next, size, ks);
    SizeExact(m.head);
    SizeExact(m.list);
  }

  // ---- stat records ----

  datatype Stat<S> = Stat9(
    typ: nat, dev: nat, qid: Qid, mode: nat, atime: nat, mtime: nat, length: nat, lengthhi: nat,
    name: S, uid: S, gid: S, muid: S)

  type Stat9 = Stat<Bytes>

  /** sizeD2M. */
  function SizeD2M(d: Stat9): nat {
    2 + 2 + 4 + 13 + 4 + 4 + 4 + 8 + 8 + |d.name| + |d.uid| + |d.gid| + |d.muid|
  }

  function StatNumbers(d: Stat9): Bytes {
    P16(d.typ) + P32(d.dev) + PQid(d.qid) + P32(d.mode) + P32(d.atime) + P32(d.mtime) + P32(d.length) + P32(d.lengthhi)
  }

  /** convD2M; none if the buffer of n bytes is too small. */
  function ConvD2M(d: Stat9, n: nat): Option<Bytes> {
    var size := SizeD2M(d);
    if size > n then None
    else Some(P16(size - 2) + (StatNumbers(d) + (PStr(d.name) + (PStr(d.uid) + (PStr(d.gid) + PStr(d.muid))))))
  }

  lemma SizeExactD2M(d: Stat9, n: nat)
    ensures ConvD2M(d, n).Some? <==> SizeD2M(d) <= n
    ensures ConvD2M(d, n).Some? ==> |ConvD2M(d, n).value| == SizeD2M(d)
  {
    hide Le;
  }

  function NumberAtoms(d: Stat9): seq<Atom> {
    [Num(2, d.typ), Num(4, d.dev)] + (QidAtoms(d.qid)
      + ([Num(4, d.mode)] + [Num(4, d.atime), Num(4, d.mtime), Num(4, d.length), Num(4, d.lengthhi)]))
  }

  function NameAtoms(d: Stat9): seq<Atom> {
    [Text(d.name), Text(d.uid), Text(d.gid), Text(d.muid)]
  }

  function StatAtoms(d: Stat9): seq<Atom> {
    NumberAtoms(d) + NameAtoms(d)
  }

  lemma NumbersIs(d: Stat9)
    ensures EncodeAtoms(NumberAtoms(d)) == StatNumbers(d)
  {
    hide EncodeAtoms, Le, PQid, QidAtoms;
    var last := [Num(4, d.atime), Num(4, d.mtime), Num(4, d.length), Num(4, d.lengthhi)];
    Joined([Num(2, d.typ), Num(4, d.dev)], QidAtoms(d.qid) + ([Num(4, d.mode)] + last));
    Joined(QidAtoms(d.qid), [Num(4, d.mode)] + last);
    Joined([Num(4, d.mode)], last);
    Two(Num(2, d.typ), Num(4, d.dev));
    QidIs(d.qid);
    One(Num(4, d.mode));
    Four(Num(4, d.atime), Num(4, d.mtime), Num(4, d.length), Num(4, d.lengthhi));
  }

  lemma NamesIs(d: Stat9)
    ensures EncodeAtoms(NameAtoms(d)) == PStr(d.name) + (PStr(d.uid) + (PStr(d.gid) + PStr(d.muid)))
  {
    hide EncodeAtoms, Le;
    Four(Text(d.name), Text(d.uid), Text(d.gid), Text(d.muid));
  }

  lemma ConvIsEncodeStat(d: Stat9)
    ensures ConvD2M(d, SizeD2M(d)) == Some(EncodeStat(StatAtoms(d))) && SizeD2M(d) == 2 + SizeOf(StatAtoms(d))
  {
    hide Le, EncodeAtoms, StatNumbers, NumberAtoms, NameAtoms, SizeOf, PStr, SizeD2M;
    Joined(NumberAtoms(d), NameAtoms(d));
    NumbersIs(d);
    NamesIs(d);
    SizeExact(StatAtoms(d));
    SizeExactD2M(d, SizeD2M(d));
  }

  /** convM2D, the buffer untouched: the record and its size. */
  function ConvM2D(b: Bytes, n: nat): Option<(Stat9, nat)>
    requires n <= |b|
  {
    if n < 2 || G16(b, 0) + 2 > n then None
    else
      var end := G16(b, 0) + 2;
      if 2 + 39 > end then None
      else
        var q := Qid(Machine.Rd(b, 8, 1), G32(b, 9), G32(b, 13), G32(b, 17));
        var r := GStrs(b, 41, end, 4);
        if r.None? || |r.value.0| != 4 then None
        else
          Some((Stat9(G16(b, 2), G32(b, 4), q, G32(b, 21), G32(b, 25), G32(b, 29), G32(b, 33), G32(b, 37),
                      r.value.0[0], r.value.0[1], r.value.0[2], r.value.0[3]), end))
  }

  /** The fixed part of a record. */
  lemma NumbersRead(b: Bytes, end: nat, ks: seq<Kind>)
    requires 2 <= end <= |b|
    ensures PureAtoms(b, 2, end, [U(2)] + ([U(4)] + (QID + ([U(4)] + ([U(4), U(4), U(4), U(4)] + ks)))))
         == if 41 > end || PureAtoms(b, 41, end, ks).None? then None
            else
              var x, q := PureAtoms(b, 41, end, ks).value, Qid(Machine.Rd(b, 8, 1), G32(b, 9), G32(b, 13), G32(b, 17));
              Some(Run([Num(2, G16(b, 2))] + ([Num(4, G32(b, 4))] + (QidAtoms(q) + ([Num(4, G32(b, 21))]
                       + ([Num(4, G32(b, 25)), Num(4, G32(b, 29)), Num(4, G32(b, 33)), Num(4, G32(b, 37))]
                         + x.atoms)))), x.next))
  {
    hide PureAtoms, Machine.Rd, QidAtoms;
    var four := [U(4), U(4), U(4), U(4)];
    NumThen(b, 2, end, 2, [U(4)] + (QID + ([U(4)] + (four + ks))));
    NumThen(b, 4, end, 4, QID + ([U(4)] + (four + ks)));
    QidThen(b, 8, end, [U(4)] + (four + ks));
    NumThen(b, 21, end, 4, four + ks);
    FourThen(b, 25, end, ks);
  }

  lemma FourThen(b: Bytes, p: nat, end: nat, ks: seq<Kind>)
    requires end <= |b|
    ensures PureAtoms(b, p, end, [U(4), U(4), U(4), U(4)] + ks)
         == if p + 16 > end || PureAtoms(b, p + 16, end, ks).None? then None
            else
              var x := PureAtoms(b, p + 16, end, ks).value;
              Some(Run([Num(4, G32(b, p)), Num(4, G32(b, p + 4)), Num(4, G32(b, p + 8)), Num(4, G32(b, p + 12))]
                + x.atoms, x.next))
  {
    hide PureAtoms, Machine.Rd, G32;
    if p <= end {
      PureConcat(b, p, end, [U(4), U(4), U(4), U(4)], ks);
      FourNums(b, p, end);
    } else {
      assert [U(4), U(4), U(4), U(4)] + ks == [U(4)] + ([U(4), U(4), U(4)] + ks);
      NumThen(b, p, end, 4, [U(4), U(4), U(4)] + ks);
    }
  }

  lemma FourNames(ss: seq<Bytes>)
    requires |ss| == 4
    ensures Texts(ss) == [Text(ss[0]), Text(ss[1]), Text(ss[2]), Text(ss[3])]
  {
    assert Texts(ss[1..][1..][1..][1..]) == [];
    assert Texts(ss[1..][1..][1..]) == [Text(ss[3])];
    assert Texts(ss[1..][1..]) == [Text(ss[2]), Text(ss[3])];
  }

  lemma FourStrs()
    ensures Repeat(4, [Str]) == [Str, Str, Str, Str]
    ensures STAT == [U(2)] + ([U(4)] + (QID + ([U(4)] + ([U(4), U(4), U(4), U(4)] + [Str, Str, Str, Str]))))
  {
    assert Repeat(0, [Str]) == [];
    assert Repeat(1, [Str]) == [Str];
    assert Repeat(2, [Str]) == [Str, Str];
    assert Repeat(3, [Str]) == [Str, Str, Str];
  }

  /** The record reader finds the fields, and accepts the same buffers. */
  lemma ConvIsDecodeStat(b: Bytes, n: nat)
    requires n <= |b|
    ensures var r, g := ConvM2D(b, n), DecodeStat(b, n);
      (r.Some? <==> g.Some?) && (r.Some? ==> g.value.1 == r.value.1 && g.value.0.atoms == StatAtoms(r.value.0))
  {
    hide PureAtoms, Machine.Rd, QidAtoms, GStrs, Texts, Repeat, G32, G16;
    G16Is(b, 0, n);
    if n >= 2 && G16(b, 0) + 2 <= n {
      var end := G16(b, 0) + 2;
      FourStrs();
      NumbersRead(b, end, [Str, Str, Str, Str]);
      StrsField(b, 41, end, 4);
      var r := GStrs(b, 41, end, 4);
      if end >= 41 && r.Some? {
        FourNames(r.value.0);
        StatShape(ConvM2D(b, n).value.0);
      }
    }
  }

  lemma StatShape(d: Stat9)
    ensures StatAtoms(d)
         == [Num(2, d.typ)] + ([Num(4, d.dev)] + (QidAtoms(d.qid) + ([Num(4, d.mode)]
            + ([Num(4, d.atime), Num(4, d.mtime), Num(4, d.length), Num(4, d.lengthhi)] + NameAtoms(d)))))
  {
    hide QidAtoms;
  }

  /** A stat record written by convD2M and read by convM2D comes back, with its size. */
  lemma RoundTripD2M(d: Stat9, b: Bytes, n: nat)
    requires AllFit(StatAtoms(d)) && SizeD2M(d) - 2 < 0x1_0000 && SizeD2M(d) <= n <= |b|
      && ConvD2M(d, SizeD2M(d)).value <= b
    ensures ConvM2D(b, n) == Some((d, SizeD2M(d)))
  {
    hide ConvM2D, DecodeStat, ConvD2M, SizeD2M, AllFit, StatAtoms, SizeOf, EncodeAtoms, Le;
    ConvIsEncodeStat(d);
    StatKinds(d);
    SizeExact(StatAtoms(d));
    StatRoundTrip(StatAtoms(d), b, n);
    ConvIsDecodeStat(b, n);
    StatOne(ConvM2D(b, n).value.0, d);
  }

  lemma StatKinds(d: Stat9)
    ensures Kinds(StatAtoms(d)) == STAT
  {
    hide Kinds, QidAtoms;
    var last := [Num(4, d.atime), Num(4, d.mtime), Num(4, d.length), Num(4, d.lengthhi)];
    KindsJoin(NumberAtoms(d), NameAtoms(d));
    KindsJoin([Num(2, d.typ), Num(4, d.dev)], QidAtoms(d.qid) + ([Num(4, d.mode)] + last));
    KindsJoin(QidAtoms(d.qid), [Num(4, d.mode)] + last);
    KindsJoin([Num(4, d.mode)], last);
    Kinds2(Num(2, d.typ), Num(4, d.dev));
    QidKinds(d.qid);
    Kinds1(Num(4, d.mode));
    Kinds4(Num(4, d.atime), Num(4, d.mtime), Num(4, d.length), Num(4, d.lengthhi));
    Kinds4(Text(d.name), Text(d.uid), Text(d.gid), Text(d.muid));
  }

  lemma StatOne(d: Stat9, e: Stat9)
    requires StatAtoms(d) == StatAtoms(e)
    ensures d == e
  {
    var x, y := StatAtoms(d), StatAtoms(e);
    assert x[0] == y[0] && x[1] == y[1] && x[2] == y[2] && x[3] == y[3] && x[4] == y[4] && x[5] == y[5];
    assert x[6] == y[6] && x[7] == y[7] && x[8] == y[8] && x[9] == y[9] && x[10] == y[10];
    assert x[11] == y[11] && x[12] == y[12] && x[13] == y[13] && x[14] == y[14];
  }
}
