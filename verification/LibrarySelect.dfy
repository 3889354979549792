/** The linker's choice of library objects: the least set that contains the command-line objects
    and every object defining a symbol a chosen object's relocation needs. */
module LibrarySelect {
  import Linker

  /** lib: given after -l. */
  datatype Obj = Obj(code: Linker.Obj, lib: bool)

  predicate Defines(o: Obj, name: string) {
    exists j :: 0 <= j < |o.code.syms| && o.code.syms[j].global && o.code.syms[j].sec != 0
      && o.code.syms[j].name == name
  }

  /** Symbol j is undefined in o and some relocation uses it. */
  predicate Needs(o: Obj, j: nat)
    requires j < |o.code.syms|
  {
    o.code.syms[j].sec == 0 && Linker.Used(o.code, j)
  }

  predicate Wants(o: Obj, name: string) {
    exists j :: 0 <= j < |o.code.syms| && Needs(o, j) && o.code.syms[j].name == name
  }

  /** lib_clashes finds nothing: a symbol of a library object is defined nowhere else. */
  ghost predicate NoClash(objs: seq<Obj>) {
    forall i, k, name ::
      0 <= i < |objs| && 0 <= k < |objs| && i != k && Defines(objs[i], name) && Defines(objs[k], name) ==>
      !objs[i].lib && !objs[k].lib
  }

  /** s contains the command-line objects and everything its members need. */
  ghost predicate Closed(objs: seq<Obj>, s: set<nat>) {
    && (forall i :: 0 <= i < |objs| && !objs[i].lib ==> i in s)
    && (forall i, k, name ::
          0 <= i < |objs| && 0 <= k < |objs| && i in s && Wants(objs[i], name) && Defines(objs[k], name) ==> k in s)
  }

  ghost predicate Least(objs: seq<Obj>, s: set<nat>) {
    && (forall i :: i in s ==> i < |objs|)
    && Closed(objs, s)
    && forall t :: Closed(objs, t) ==> s <= t
  }

  ghost function Kept(keep: seq<bool>): set<nat> {
    set i: nat | i < |keep| && keep[i]
  }

  /** No object behind i defines symbol j of object i, where one of the two is a library object. */
  ghost predicate ClashFree(objs: seq<Obj>, i: nat, j: nat)
    requires i < |objs| && j < |objs[i].code.syms|
  {
    objs[i].code.syms[j].global && objs[i].code.syms[j].sec != 0 ==>
      forall k :: i < k < |objs| && Defines(objs[k], objs[i].code.syms[j].name) ==> !objs[i].lib && !objs[k].lib
  }

  /** lib_clashes counts no clash exactly when there is none. */
  method LibClashes(objs: seq<Obj>) returns (n: nat)
    ensures n == 0 <==> NoClash(objs)
  {
    n := 0;
    for i := 0 to |objs|
      invariant n == 0 <==> forall a, b :: 0 <= a < i && 0 <= b < |objs[a].code.syms| ==> ClashFree(objs, a, b)
    {
      for j := 0 to |objs[i].code.syms|
        invariant n == 0 <==>
          && (forall a, b :: 0 <= a < i && 0 <= b < |objs[a].code.syms| ==> ClashFree(objs, a, b))
          && (forall b :: 0 <= b < j ==> ClashFree(objs, i, b))
      {
        var m := ClashesOf(objs, i, j);
        n := n + m;
      }
    }
    Unordered(objs);
  }

  method ClashesOf(objs: seq<Obj>, i: nat, j: nat) returns (n: nat)
    requires i < |objs| && j < |objs[i].code.syms|
    ensures n == 0 <==> ClashFree(objs, i, j)
  {
    n := 0;
    var s := objs[i].code.syms[j];
    if !s.global || s.sec == 0 {
      return;
    }
    for k := i + 1 to |objs|
      invariant n == 0 <==> forall m :: i < m < k && Defines(objs[m], s.name) ==> !objs[i].lib && !objs[m].lib
    {
      if (objs[i].lib || objs[k].lib) && Defines(objs[k], s.name) {
        n := n + 1;
      }
    }
  }

  /** Looking only at later objects is enough. */
  lemma Unordered(objs: seq<Obj>)
    ensures NoClash(objs) <==> forall a, b :: 0 <= a < |objs| && 0 <= b < |objs[a].code.syms| ==> ClashFree(objs, a, b)
  {
    if forall a, b :: 0 <= a < |objs| && 0 <= b < |objs[a].code.syms| ==> ClashFree(objs, a, b) {
      forall i, k, name | 0 <= i < |objs| && 0 <= k < |objs| && i != k && Defines(objs[i], name)
        && Defines(objs[k], name)
        ensures !objs[i].lib && !objs[k].lib
      {
        var lo, hi := if i < k then i else k, if i < k then k else i;
        var b :| 0 <= b < |objs[lo].code.syms| && objs[lo].code.syms[b].global && objs[lo].code.syms[b].sec != 0
          && objs[lo].code.syms[b].name == name;
        assert ClashFree(objs, lo, b);
      }
    } else {
      var a, b :| 0 <= a < |objs| && 0 <= b < |objs[a].code.syms| && !ClashFree(objs, a, b);
      assert Defines(objs[a], objs[a].code.syms[b].name);
    }
  }

  // ---- what the loops maintain ----

  /** Nothing is kept that a closed set could do without. */
  ghost predicate Minimal(objs: seq<Obj>, keep: seq<bool>) {
    |keep| == |objs| && forall t :: Closed(objs, t) ==> Kept(keep) <= t
  }

  /** Every need of object i is met, as far as any object can meet it. */
  ghost predicate Met(objs: seq<Obj>, keep: seq<bool>, i: nat, upto: nat)
    requires i < |objs| && |keep| == |objs|
  {
    forall j :: 0 <= j < upto && j < |objs[i].code.syms| && Needs(objs[i], j) ==>
      forall k :: 0 <= k < |objs| && Defines(objs[k], objs[i].code.syms[j].name) ==> keep[k]
  }

  function Missing(keep: seq<bool>): nat {
    if keep == [] then 0 else Missing(keep[1..]) + (if keep[0] then 0 else 1)
  }

  lemma {:induction false} MissingSet(keep: seq<bool>, k: nat)
    requires k < |keep| && !keep[k]
    ensures Missing(keep[k := true]) == Missing(keep) - 1
  {
    if k == 0 {
      assert keep[0 := true][1..] == keep[1..];
    } else {
      MissingSet(keep[1..], k - 1);
      assert keep[k := true][1..] == keep[1..][k - 1 := true];
    }
  }

  lemma KeepOne(objs: seq<Obj>, keep: seq<bool>, i: nat, j: nat, k: nat)
    requires Minimal(objs, keep) && i < |objs| && keep[i] && j < |objs[i].code.syms| && Needs(objs[i], j)
    requires k < |objs| && Defines(objs[k], objs[i].code.syms[j].name)
    ensures Minimal(objs, keep[k := true])
  {
    assert Wants(objs[i], objs[i].code.syms[j].name);
    forall t | Closed(objs, t)
      ensures Kept(keep[k := true]) <= t
    {
      assert i in Kept(keep);
      assert k in t;
      assert Kept(keep[k := true]) <= Kept(keep) + {k};
    }
  }

  /** Which object, among those with the given keep flag, defines the name first. */
  method FindDefiner(objs: seq<Obj>, keep: seq<bool>, name: string, kept: bool) returns (k: nat)
    requires |keep| == |objs|
    ensures k <= |objs| && (k < |objs| ==> keep[k] == kept && Defines(objs[k], name))
    ensures k == |objs| ==> forall m :: 0 <= m < |objs| && keep[m] == kept ==> !Defines(objs[m], name)
  {
    k := 0;
    while k < |objs| && !(keep[k] == kept && Defines(objs[k], name))
      invariant k <= |objs| && forall m :: 0 <= m < k && keep[m] == kept ==> !Defines(objs[m], name)
    {
      k := k + 1;
    }
  }

  /** One symbol of one kept object. */
  method MeetNeed(objs: seq<Obj>, keep: seq<bool>, i: nat, j: nat) returns (now: seq<bool>)
    requires NoClash(objs) && Minimal(objs, keep) && i < |objs| && keep[i] && j < |objs[i].code.syms|
    requires forall m :: 0 <= m < |objs| && !objs[m].lib ==> keep[m]
    ensures Minimal(objs, now) && (now == keep || Missing(now) < Missing(keep)) && now[i]
    ensures forall m :: 0 <= m < |objs| && keep[m] ==> now[m]
    ensures Needs(objs[i], j) ==> forall k :: 0 <= k < |objs| && Defines(objs[k], objs[i].code.syms[j].name) ==> now[k]
  {
    now := keep;
    if Needs(objs[i], j) {
      var name := objs[i].code.syms[j].name;
      var k := FindDefiner(objs, keep, name, true);
      if k == |objs| {
        k := FindDefiner(objs, keep, name, false);
        if k < |objs| {
          KeepOne(objs, keep, i, j, k);
          MissingSet(keep, k);
          now := keep[k := true];
        }
      }
    }
  }

  /** The symbols of one kept object. */
  method MeetNeeds(objs: seq<Obj>, keep: seq<bool>, i: nat) returns (now: seq<bool>)
    requires NoClash(objs) && Minimal(objs, keep) && i < |objs| && keep[i]
    requires forall m :: 0 <= m < |objs| && !objs[m].lib ==> keep[m]
    ensures Minimal(objs, now) && (now == keep || Missing(now) < Missing(keep))
    ensures forall m :: 0 <= m < |objs| && keep[m] ==> now[m]
    ensures now == keep ==> Met(objs, keep, i, |objs[i].code.syms|)
  {
    now := keep;
    var j := 0;
    while j < |objs[i].code.syms|
      invariant j <= |objs[i].code.syms| && Minimal(objs, now) && (now == keep || Missing(now) < Missing(keep))
      invariant forall m :: 0 <= m < |objs| && keep[m] ==> now[m]
      invariant Met(objs, now, i, j)
    {
      now := MeetNeed(objs, now, i, j);
      j := j + 1;
    }
  }

  /** select_lib: passes over the kept objects until one changes nothing. */
  method SelectLib(objs: seq<Obj>) returns (keep: seq<bool>)
    requires NoClash(objs)
    ensures |keep| == |objs| && Least(objs, Kept(keep))
  {
    keep := seq(|objs|, i requires 0 <= i < |objs| => !objs[i].lib);
    var changed := true;
    while changed
      invariant Minimal(objs, keep) && forall m :: 0 <= m < |objs| && !objs[m].lib ==> keep[m]
      invariant !changed ==> forall i :: 0 <= i < |objs| && keep[i] ==> Met(objs, keep, i, |objs[i].code.syms|)
      decreases Missing(keep), changed
    {
      ghost var before := keep;
      changed := false;
      var i := 0;
      while i < |objs|
        invariant i <= |objs| && Minimal(objs, keep) && forall m :: 0 <= m < |objs| && !objs[m].lib ==> keep[m]
        invariant if changed then Missing(keep) < Missing(before) else keep == before
        invariant !changed ==> forall m :: 0 <= m < i && keep[m] ==> Met(objs, keep, m, |objs[m].code.syms|)
      {
        if keep[i] {
          var now := MeetNeeds(objs, keep, i);
          if now != keep {
            changed, keep := true, now;
          }
        }
        i := i + 1;
      }
    }
    MetClosed(objs, keep);
  }

  lemma MetClosed(objs: seq<Obj>, keep: seq<bool>)
    requires |keep| == |objs| && forall m :: 0 <= m < |objs| && !objs[m].lib ==> keep[m]
    requires forall i :: 0 <= i < |objs| && keep[i] ==> Met(objs, keep, i, |objs[i].code.syms|)
    ensures Closed(objs, Kept(keep))
  {
    forall i, k, name | 0 <= i < |objs| && 0 <= k < |objs| && i in Kept(keep) && Wants(objs[i], name)
      && Defines(objs[k], name)
      ensures k in Kept(keep)
    {
      var j :| 0 <= j < |objs[i].code.syms| && Needs(objs[i], j) && objs[i].code.syms[j].name == name;
      assert Met(objs, keep, i, |objs[i].code.syms|);
    }
  }

  // ---- the order of the files does not matter ----

  /** bs lists the objects of as in another order: object i of as is object f[i] of bs. */
  ghost predicate Reordered(a: seq<Obj>, b: seq<Obj>, f: map<nat, nat>) {
    && |a| == |b|
    && (forall i: nat :: i < |a| <==> i in f)
    && (forall i :: i in f ==> f[i] < |b| && b[f[i]] == a[i])
    && (forall k: nat :: k < |b| ==> k in f.Values)
    && (forall i, j :: i in f && j in f && f[i] == f[j] ==> i == j)
  }

  /** Going back along the reordering keeps a set closed. */
  lemma ClosedBack(a: seq<Obj>, b: seq<Obj>, f: map<nat, nat>, t: set<nat>)
    requires Reordered(a, b, f) && Closed(b, t)
    ensures Closed(a, set i | i in f && f[i] in t)
  {
    var back := set i | i in f && f[i] in t;
    forall i, k, name | 0 <= i < |a| && 0 <= k < |a| && i in back && Wants(a[i], name) && Defines(a[k], name)
      ensures k in back
    {
      assert i in f && k in f;
      assert Wants(b[f[i]], name) && Defines(b[f[k]], name);
    }
    forall i | 0 <= i < |a| && !a[i].lib
      ensures i in back
    {
      assert i in f;
    }
  }

  lemma ClosedForth(a: seq<Obj>, b: seq<Obj>, f: map<nat, nat>, s: set<nat>)
    requires Reordered(a, b, f) && Closed(a, s)
    ensures Closed(b, set i | i in f && i in s :: f[i])
  {
    var forth := set i | i in f && i in s :: f[i];
    forall i, k, name | 0 <= i < |b| && 0 <= k < |b| && i in forth && Wants(b[i], name) && Defines(b[k], name)
      ensures k in forth
    {
      var x :| x in f && x in s && f[x] == i;
      assert k in f.Values;
      var y :| y in f && f[y] == k;
      assert Wants(a[x], name) && Defines(a[y], name);
    }
    forall k | 0 <= k < |b| && !b[k].lib
      ensures k in forth
    {
      assert k in f.Values;
      var y :| y in f && f[y] == k;
      assert y in s;
    }
  }

  /** Selecting from the reordered list selects the same objects. */
  lemma OrderFree(a: seq<Obj>, b: seq<Obj>, f: map<nat, nat>, s: set<nat>, t: set<nat>)
    requires Reordered(a, b, f) && Least(a, s) && Least(b, t)
    ensures forall i :: i in f ==> (i in s <==> f[i] in t)
  {
    ClosedBack(a, b, f, t);
    ClosedForth(a, b, f, s);
    assert s <= set i | i in f && f[i] in t;
    assert t <= set i | i in f && i in s :: f[i];
    hide Closed;
  }
}
