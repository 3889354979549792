/** The 9P server's fid table. Handlers are abstract: attach and clone each acquire a handle or fail
    acquiring nothing, clunk releases one. Every message comes with the outcomes its handlers had. */
module FidTable {
  import opened Wrappers

  const NOFID: nat := 0xFFFF_FFFF
  const CLOSED: int := -1

  datatype Qid = Qid(dir: bool, path: nat)

  datatype Fid = Fid(used: bool, fid: nat, omode: int, qid: Qid, handle: nat)

  /** live: handles acquired and not yet released; next: the handle the next acquisition gets; got and gone
      count acquisitions and releases. */
  datatype Srv = Srv(fids: seq<Fid>, live: set<nat>, next: nat, got: nat, gone: nat)

  /** steps: what walk1 answered for each name in turn, none being an error. */
  datatype Op =
    | Version
    | Attach(afid: nat, fid: nat, root: Option<Qid>)
    | Walk(fid: nat, newfid: nat, clones: bool, steps: seq<Option<Qid>>)
    | Open(fid: nat, mode: nat, ok: bool)
    | Create(fid: nat, mode: nat, made: Option<Qid>)
    | Clunk(fid: nat)
    | Remove(fid: nat, ok: bool)
    | Other(fid: nat)

  /** Done: how many names a walk went through, 0 for other messages. */
  datatype Reply = Done(n: nat) | Error

  // ---- the table ----

  /** lookup_fid from slot i on: the slot, or the table's length. */
  function Lookup(fs: seq<Fid>, fid: nat, i: nat): (r: nat)
    requires i <= |fs|
    ensures i <= r <= |fs| && (r < |fs| ==> fs[r].used && fs[r].fid == fid)
    ensures forall k :: i <= k < r ==> !(fs[k].used && fs[k].fid == fid)
    decreases |fs| - i
  {
    if i == |fs| || (fs[i].used && fs[i].fid == fid) then i else Lookup(fs, fid, i + 1)
  }

  function FreeSlot(fs: seq<Fid>, i: nat): (r: nat)
    requires i <= |fs|
    ensures i <= r <= |fs| && (r < |fs| ==> !fs[r].used)
    decreases |fs| - i
  {
    if i == |fs| || !fs[i].used then i else FreeSlot(fs, i + 1)
  }

  /** new_fid: the slot it takes, or the table's length. */
  function NewSlot(fs: seq<Fid>, fid: nat): (r: nat)
    ensures r <= |fs| && (r < |fs| ==> !fs[r].used && Lookup(fs, fid, 0) == |fs|)
  {
    if Lookup(fs, fid, 0) < |fs| then |fs| else FreeSlot(fs, 0)
  }

  // ---- handles ----

  function Acquire(s: Srv): Srv {
    s.(live := s.live + {s.next}, next := s.next + 1, got := s.got + 1)
  }

  function Release(s: Srv, h: nat): Srv {
    s.(live := s.live - {h}, gone := s.gone + 1)
  }

  /** drop_fid. */
  function DropFid(s: Srv, i: nat): Srv
    requires i < |s.fids|
  {
    Release(s, s.fids[i].handle).(fids := s.fids[i := s.fids[i].(used := false)])
  }

  /** Tversion drops every fid in use. */
  function DropAll(s: Srv, i: nat): (t: Srv)
    requires i <= |s.fids|
    ensures |t.fids| == |s.fids|
    decreases |s.fids| - i
  {
    if i == |s.fids| then s else DropAll(if s.fids[i].used then DropFid(s, i) else s, i + 1)
  }

  /** How many names the walk goes through before it stops, and where it stands then. */
  function WalkFrom(q: Qid, steps: seq<Option<Qid>>): (nat, Qid)
    decreases |steps|
  {
    if steps == [] || !q.dir || steps[0].None? then (0, q)
    else var (n, r) := WalkFrom(steps[0].value, steps[1..]); (n + 1, r)
  }

  /** do_walk. */
  function DoWalk(s: Srv, fid: nat, newfid: nat, clones: bool, steps: seq<Option<Qid>>): (Reply, Srv) {
    var i := Lookup(s.fids, fid, 0);
    if i == |s.fids| || s.fids[i].omode != CLOSED then (Error, s)
    else if newfid != fid && Lookup(s.fids, newfid, 0) < |s.fids| then (Error, s)
    else if !clones then (Error, s)
    else
      var t := Acquire(s);
      var (n, q) := WalkFrom(s.fids[i].qid, steps);
      var tmp := s.fids[i].(fid := newfid, omode := CLOSED, qid := q, handle := s.next);
      if n < |steps| then (if n == 0 then Error else Done(n), Release(t, s.next))
      else if newfid == fid then (Done(n), Release(t, s.fids[i].handle).(fids := s.fids[i := tmp]))
      else
        var j := NewSlot(s.fids, newfid);
        if j == |s.fids| then (Error, Release(t, s.next)) else (Done(n), t.(fids := s.fids[j := tmp]))
  }

  function DoAttach(s: Srv, afid: nat, fid: nat, root: Option<Qid>): (Reply, Srv) {
    var j := NewSlot(s.fids, fid);
    if afid != NOFID || j == |s.fids| then (Error, s)
    else if root.None? then (Error, s.(fids := s.fids[j := Fid(false, fid, CLOSED, Qid(false, 0), 0)]))
    else (Done(0), Acquire(s).(fids := s.fids[j := Fid(true, fid, CLOSED, root.value, s.next)]))
  }

  /** dispatch. */
  function Step(s: Srv, op: Op): (Reply, Srv) {
    match op
    case Version => (Done(0), DropAll(s, 0))
    case Attach(afid, fid, root) => DoAttach(s, afid, fid, root)
    case Walk(fid, newfid, clones, steps) => DoWalk(s, fid, newfid, clones, steps)
    case Open(fid, mode, ok) =>
      var i := Lookup(s.fids, fid, 0);
      if i == |s.fids| || s.fids[i].omode != CLOSED || (s.fids[i].qid.dir && mode % 4 != 0) || !ok then (Error, s)
      else (Done(0), s.(fids := s.fids[i := s.fids[i].(omode := mode)]))
    case Create(fid, mode, made) =>
      var i := Lookup(s.fids, fid, 0);
      if i == |s.fids| || s.fids[i].omode != CLOSED || !s.fids[i].qid.dir || made.None? then (Error, s)
      else (Done(0), s.(fids := s.fids[i := s.fids[i].(omode := mode, qid := made.value)]))
    case Clunk(fid) =>
      var i := Lookup(s.fids, fid, 0);
      if i == |s.fids| then (Error, s) else (Done(0), DropFid(s, i))
    case Remove(fid, ok) =>
      var i := Lookup(s.fids, fid, 0);
      if i == |s.fids| then (Error, s) else (if ok then Done(0) else Error, DropFid(s, i))
    case Other(fid) => if Lookup(s.fids, fid, 0) == |s.fids| then (Error, s) else (Done(0), s)
  }

  // ---- what every message keeps ----

  function Used(fs: seq<Fid>): nat {
    if fs == [] then 0 else Used(fs[1..]) + (if fs[0].used then 1 else 0)
  }

  /** The handles of the fids in use. */
  ghost function Handles(fs: seq<Fid>): set<nat> {
    set i | 0 <= i < |fs| && fs[i].used :: fs[i].handle
  }

  ghost predicate Distinct(fs: seq<Fid>) {
    forall i, j :: 0 <= i < j < |fs| && fs[i].used && fs[j].used ==>
      fs[i].fid != fs[j].fid && fs[i].handle != fs[j].handle
  }

  /** Fid numbers in use are distinct; each fid in use has its own handle; the handles held are
      exactly those, and acquisitions minus releases count them. */
  ghost predicate Inv(s: Srv) {
    && Distinct(s.fids) && s.live == Handles(s.fids)
    && (forall h :: h in s.live ==> h < s.next)
    && s.got == s.gone + Used(s.fids)
  }

  lemma {:induction false} UsedSet(fs: seq<Fid>, i: nat, f: Fid)
    requires i < |fs|
    ensures Used(fs[i := f]) == Used(fs) + (if f.used then 1 else 0) - (if fs[i].used then 1 else 0)
  {
    if i == 0 {
      assert fs[0 := f][1..] == fs[1..];
    } else {
      UsedSet(fs[1..], i - 1, f);
      assert fs[i := f][1..] == fs[1..][i - 1 := f];
    }
  }

  lemma HandlesCons(fs: seq<Fid>)
    requires fs != []
    ensures Handles(fs) == if fs[0].used then Handles(fs[1..]) + {fs[0].handle} else Handles(fs[1..])
  {
    var rest := fs[1..];
    forall h
      ensures h in Handles(fs) <==> h in Handles(rest) || (fs[0].used && h == fs[0].handle)
    {
      if h in Handles(rest) {
        var i :| 0 <= i < |rest| && rest[i].used && rest[i].handle == h;
        assert fs[i + 1].used && fs[i + 1].handle == h;
      }
      if h in Handles(fs) {
        var i :| 0 <= i < |fs| && fs[i].used && fs[i].handle == h;
        assert i > 0 ==> rest[i - 1] == fs[i];
      }
    }
  }

  /** As many fids are in use as distinct handles are held. */
  lemma {:induction false} UsedHandles(fs: seq<Fid>)
    requires Distinct(fs)
    ensures Used(fs) == |Handles(fs)|
  {
    if fs == [] {
      assert Handles(fs) == {};
    } else {
      HandlesCons(fs);
      FirstApart(fs);
      hide Handles, Distinct;
      UsedHandles(fs[1..]);
    }
  }

  lemma FirstApart(fs: seq<Fid>)
    requires Distinct(fs) && fs != []
    ensures Distinct(fs[1..]) && (fs[0].used ==> fs[0].handle !in Handles(fs[1..]))
  {
  }

  lemma HandleOf(s: Srv, i: nat)
    requires Inv(s) && i < |s.fids| && s.fids[i].used
    ensures s.fids[i].handle in s.live && s.fids[i].handle < s.next
  {
    assert s.fids[i].handle in Handles(s.fids);
  }

  lemma DropOk(s: Srv, i: nat)
    requires Inv(s) && i < |s.fids| && s.fids[i].used
    ensures Inv(DropFid(s, i))
  {
    var t := DropFid(s, i);
    UsedSet(s.fids, i, t.fids[i]);
    forall h
      ensures h in t.live <==> h in Handles(t.fids)
    {
      if h in t.live {
        var k :| 0 <= k < |s.fids| && s.fids[k].used && s.fids[k].handle == h;
        assert t.fids[k].used && t.fids[k].handle == h;
      }
      if h in Handles(t.fids) {
        var k :| 0 <= k < |t.fids| && t.fids[k].used && t.fids[k].handle == h;
        assert s.fids[k] == t.fids[k];
        assert h in Handles(s.fids);
      }
    }
  }

  lemma {:induction false} DropAllOk(s: Srv, i: nat)
    requires Inv(s) && i <= |s.fids|
    ensures Inv(DropAll(s, i)) && forall k :: i <= k < |s.fids| ==> !DropAll(s, i).fids[k].used
    ensures forall k :: 0 <= k < i ==> DropAll(s, i).fids[k] == s.fids[k]
    decreases |s.fids| - i
  {
    hide Inv;
    if i >= |s.fids| {
    } else {
      if s.fids[i].used {
        DropOk(s, i);
        DropAllOk(DropFid(s, i), i + 1);
      } else {
        DropAllOk(s, i + 1);
      }
    }
  }

  /** A free slot takes a fid with a fresh handle. */
  lemma AddOk(s: Srv, j: nat, f: Fid)
    requires Inv(s) && j < |s.fids| && !s.fids[j].used && f.used && f.handle == s.next
      && Lookup(s.fids, f.fid, 0) == |s.fids|
    ensures Inv(Acquire(s).(fids := s.fids[j := f]))
  {
    var t := Acquire(s).(fids := s.fids[j := f]);
    UsedSet(s.fids, j, f);
    SameHandles(s, t, j, f);
  }

  lemma SameHandles(s: Srv, t: Srv, j: nat, f: Fid)
    requires s.live == Handles(s.fids) && j < |s.fids| && !s.fids[j].used && f.used && t.fids == s.fids[j := f]
    ensures Handles(t.fids) == s.live + {f.handle}
  {
    forall h
      ensures h in Handles(t.fids) <==> h in s.live || h == f.handle
    {
      if h in s.live {
        var k :| 0 <= k < |s.fids| && s.fids[k].used && s.fids[k].handle == h;
        assert t.fids[k] == s.fids[k];
      }
      if h in Handles(t.fids) {
        var k :| 0 <= k < |t.fids| && t.fids[k].used && t.fids[k].handle == h;
        assert k != j ==> s.fids[k].used && s.fids[k].handle == h;
      }
      assert t.fids[j].used && t.fids[j].handle == f.handle;
    }
  }

  /** Changing a fid in use without touching its number or handle. */
  lemma EditOk(s: Srv, i: nat, f: Fid)
    requires Inv(s) && i < |s.fids| && s.fids[i].used && f.used && f.fid == s.fids[i].fid
      && f.handle == s.fids[i].handle
    ensures Inv(s.(fids := s.fids[i := f]))
  {
    var t := s.(fids := s.fids[i := f]);
    UsedSet(s.fids, i, f);
    assert forall k :: 0 <= k < |s.fids| ==> t.fids[k].used == s.fids[k].used && t.fids[k].handle == s.fids[k].handle;
    assert Handles(t.fids) == Handles(s.fids);
  }

  /** An unused slot may hold anything. */
  lemma ClearOk(s: Srv, j: nat, f: Fid)
    requires Inv(s) && j < |s.fids| && !s.fids[j].used && !f.used
    ensures Inv(s.(fids := s.fids[j := f]))
  {
    var t := s.(fids := s.fids[j := f]);
    UsedSet(s.fids, j, f);
    assert forall k :: 0 <= k < |s.fids| && k != j ==> t.fids[k] == s.fids[k];
    forall h
      ensures h in Handles(t.fids) <==> h in Handles(s.fids)
    {
      if h in Handles(s.fids) {
        var k :| 0 <= k < |s.fids| && s.fids[k].used && s.fids[k].handle == h;
        assert t.fids[k] == s.fids[k];
      }
    }
  }

  /** Acquiring a handle and giving it straight back. */
  lemma ReturnOk(s: Srv)
    requires Inv(s)
    ensures Release(Acquire(s), s.next) == s.(next := s.next + 1, got := s.got + 1, gone := s.gone + 1)
    ensures Inv(Release(Acquire(s), s.next))
  {
    assert s.next !in s.live;
    assert s.live + {s.next} - {s.next} == s.live;
  }

  /** The walked fid replaces the original: its handle takes over, the old one is released. */
  lemma ReplaceOk(s: Srv, i: nat, f: Fid)
    requires Inv(s) && i < |s.fids| && s.fids[i].used && f.used && f.fid == s.fids[i].fid && f.handle == s.next
    ensures Inv(Release(Acquire(s), s.fids[i].handle).(fids := s.fids[i := f]))
  {
    var d := DropFid(s, i);
    DropOk(s, i);
    HandleOf(s, i);
    AloneLookup(s, i);
    AddOk(d, i, f);
    var t := Release(Acquire(s), s.fids[i].handle).(fids := s.fids[i := f]);
    assert Acquire(d).(fids := d.fids[i := f]) == t by {
      assert d.fids[i := f] == s.fids[i := f];
      assert s.live - {s.fids[i].handle} + {s.next} == s.live + {s.next} - {s.fids[i].handle};
    }
  }

  /** Once dropped, the number is in use nowhere. */
  lemma AloneLookup(s: Srv, i: nat)
    requires Inv(s) && i < |s.fids| && s.fids[i].used
    ensures Lookup(DropFid(s, i).fids, s.fids[i].fid, 0) == |s.fids|
  {
    var fs := DropFid(s, i).fids;
    assert forall k :: 0 <= k < |fs| ==> !(fs[k].used && fs[k].fid == s.fids[i].fid);
  }

  lemma WalkOk(s: Srv, fid: nat, newfid: nat, clones: bool, steps: seq<Option<Qid>>)
    requires Inv(s)
    ensures Inv(DoWalk(s, fid, newfid, clones, steps).1)
  {
    hide Inv, WalkFrom;
    ReturnOk(s);
    var i := Lookup(s.fids, fid, 0);
    if i < |s.fids| {
      var (n, q) := WalkFrom(s.fids[i].qid, steps);
      var tmp := s.fids[i].(fid := newfid, omode := CLOSED, qid := q, handle := s.next);
      if newfid == fid {
        ReplaceOk(s, i, tmp);
      } else {
        var j := NewSlot(s.fids, newfid);
        if j < |s.fids| {
          AddOk(s, j, tmp);
        }
      }
    }
  }

  lemma StepOk(s: Srv, op: Op)
    requires Inv(s)
    ensures Inv(Step(s, op).1)
  {
    hide Inv, DropAll;
    match op
    case Version => DropAllOk(s, 0);
    case Attach(afid, fid, root) =>
      var j := NewSlot(s.fids, fid);
      if j < |s.fids| {
        if root.None? {
          ClearOk(s, j, Fid(false, fid, CLOSED, Qid(false, 0), 0));
        } else {
          AddOk(s, j, Fid(true, fid, CLOSED, root.value, s.next));
        }
      }
    case Walk(fid, newfid, clones, steps) => WalkOk(s, fid, newfid, clones, steps);
    case Open(fid, mode, _) =>
      var i := Lookup(s.fids, fid, 0);
      if i < |s.fids| {
        EditOk(s, i, s.fids[i].(omode := mode));
      }
    case Create(fid, mode, made) =>
      var i := Lookup(s.fids, fid, 0);
      if i < |s.fids| && made.Some? {
        EditOk(s, i, s.fids[i].(omode := mode, qid := made.value));
      }
    case Clunk(fid) =>
      var i := Lookup(s.fids, fid, 0);
      if i < |s.fids| {
        DropOk(s, i);
      }
    case Remove(fid, _) =>
      var i := Lookup(s.fids, fid, 0);
      if i < |s.fids| {
        DropOk(s, i);
      }
    case Other(_) =>
  }

  function Run(s: Srv, ops: seq<Op>): Srv
    decreases |ops|
  {
    if ops == [] then s else Run(Step(s, ops[0]).1, ops[1..])
  }

  /** Any messages with any outcomes: no handle is lost or released twice. */
  lemma {:induction false} RunOk(s: Srv, ops: seq<Op>)
    requires Inv(s)
    ensures var t := Run(s, ops); Inv(t) && t.got - t.gone == |t.live| == Used(t.fids)
    decreases |ops|
  {
    if ops == [] {
      UsedHandles(s.fids);
    } else {
      StepOk(s, ops[0]);
      RunOk(Step(s, ops[0]).1, ops[1..]);
    }
  }

  /** A walk that stops partway leaves every fid as it was and holds no new handle. */
  lemma PartialWalk(s: Srv, fid: nat, newfid: nat, clones: bool, steps: seq<Option<Qid>>)
    requires Inv(s)
    ensures var (r, t) := DoWalk(s, fid, newfid, clones, steps);
      (r.Error? || r.n < |steps|) ==> t.fids == s.fids && t.live == s.live
  {
    ReturnOk(s);
  }

  /** A walk that goes through gives newfid the file at the end under a fresh handle, which stays acquired;
      a fid walked onto itself has its old handle released. Every other fid is left alone. */
  lemma FullWalk(s: Srv, fid: nat, newfid: nat, clones: bool, steps: seq<Option<Qid>>, other: nat)
    requires Inv(s) && other != newfid
    ensures var (r, t) := DoWalk(s, fid, newfid, clones, steps);
      r.Done? && r.n == |steps| ==>
        && Lookup(s.fids, fid, 0) < |s.fids|
        && (exists j :: 0 <= j < |t.fids| && t.fids[j].used && t.fids[j].fid == newfid && t.fids[j].omode == CLOSED
              && t.fids[j].qid == WalkFrom(s.fids[Lookup(s.fids, fid, 0)].qid, steps).1
              && t.fids[j].handle == s.next && s.next !in s.live && s.next in t.live)
        && (newfid == fid ==> s.fids[Lookup(s.fids, fid, 0)].handle !in t.live)
        && (forall k :: 0 <= k < |s.fids| && s.fids[k].used && s.fids[k].fid == other ==> t.fids[k] == s.fids[k])
  {
    var i := Lookup(s.fids, fid, 0);
    var (r, t) := DoWalk(s, fid, newfid, clones, steps);
    if r.Done? && r.n == |steps| {
      var j := if newfid == fid then i else NewSlot(s.fids, newfid);
      assert t.fids[j].fid == newfid;
    }
  }

  // ---- the server as it runs ----

  class Server {
    var s: Srv

    constructor (n: nat)
      ensures Inv(s) && |s.fids| == n && s.live == {}
    {
      s := Srv(seq(n, i => Fid(false, 0, CLOSED, Qid(false, 0), 0)), {}, 0, 0, 0);
      new;
      NoneUsed(s.fids);
    }

    method FindFid(fid: nat) returns (i: nat)
      ensures i == Lookup(s.fids, fid, 0)
    {
      i := 0;
      while i < |s.fids| && !(s.fids[i].used && s.fids[i].fid == fid)
        invariant i <= |s.fids| && Lookup(s.fids, fid, 0) == Lookup(s.fids, fid, i)
      {
        i := i + 1;
      }
    }

    method FindSlot(fid: nat) returns (i: nat)
      ensures i == NewSlot(s.fids, fid)
    {
      i := FindFid(fid);
      if i < |s.fids| {
        return |s.fids|;
      }
      i := 0;
      while i < |s.fids| && s.fids[i].used
        invariant i <= |s.fids| && FreeSlot(s.fids, 0) == FreeSlot(s.fids, i)
      {
        i := i + 1;
      }
    }

    /** Tversion's loop. */
    method Reset()
      modifies this
      ensures s == DropAll(old(s), 0)
    {
      var i := 0;
      while i < |s.fids|
        invariant i <= |s.fids| && DropAll(s, i) == DropAll(old(s), 0)
      {
        if s.fids[i].used {
          s := DropFid(s, i);
        }
        i := i + 1;
      }
    }

    /** do_walk, name by name. */
    method WalkTo(fid: nat, newfid: nat, clones: bool, steps: seq<Option<Qid>>) returns (r: Reply)
      requires Inv(s)
      modifies this
      ensures (r, s) == DoWalk(old(s), fid, newfid, clones, steps) && Inv(s)
      ensures (r.Error? || r.n < |steps|) ==> s.fids == old(s).fids && s.live == old(s).live
    {
      hide Inv;
      WalkOk(s, fid, newfid, clones, steps);
      PartialWalk(s, fid, newfid, clones, steps);
      var i := FindFid(fid);
      if i == |s.fids| || s.fids[i].omode != CLOSED {
        return Error;
      }
      if newfid != fid {
        var k := FindFid(newfid);
        if k < |s.fids| {
          return Error;
        }
      }
      if !clones {
        return Error;
      }
      var tmp := s.fids[i].(fid := newfid, omode := CLOSED, handle := s.next);
      ghost var old0 := s;
      var j := FindSlot(newfid);
      s := Acquire(s);
      var n, q := 0, tmp.qid;
      assert steps[0..] == steps;
      while n < |steps| && q.dir && steps[n].Some?
        invariant 0 <= n <= |steps|
        invariant WalkFrom(tmp.qid, steps) == (n + WalkFrom(q, steps[n..]).0, WalkFrom(q, steps[n..]).1)
      {
        assert steps[n..][1..] == steps[n + 1..];
        q, n := steps[n].value, n + 1;
      }
      tmp := tmp.(qid := q);
      if n < |steps| {
        s := Release(s, tmp.handle);
        return if n == 0 then Error else Done(n);
      }
      if newfid == fid {
        s := Release(s, s.fids[i].handle);
        s := s.(fids := s.fids[i := tmp]);
        return Done(n);
      }
      if j == |s.fids| {
        s := Release(s, tmp.handle);
        return Error;
      }
      s := s.(fids := s.fids[j := tmp]);
      return Done(n);
    }
  }

  lemma {:induction false} NoneUsed(fs: seq<Fid>)
    requires forall i :: 0 <= i < |fs| ==> !fs[i].used
    ensures Used(fs) == 0 && Handles(fs) == {}
  {
    if fs == [] {
    } else {
      NoneUsed(fs[1..]);
    }
  }
}
