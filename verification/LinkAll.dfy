/** The linker from its inputs to the image: library selection, symbol resolution with its error count,
    copying, relocation. It succeeds exactly when no error is due, and then writes the linked image. */
module LinkAll {
  import opened Wrappers
  import opened Words
  import opened Linker
  import LibrarySelect

  // ---- resolution ----

  predicate Before(a: nat, b: nat, i: nat, j: nat) {
    a < i || (a == i && b < j)
  }

  /** The table after the symbols before (i, j): the names whose first definition is among them. */
  ghost predicate TableOk(objs: seq<Obj>, lay: Layout, g: map<string, Word>, i: nat, j: nat)
    requires Placed(objs, lay)
  {
    forall name :: name in g <==> FirstBefore(objs, name, i, j)
  }

  predicate FirstBefore(objs: seq<Obj>, name: string, i: nat, j: nat) {
    var f := FindGlobal(objs, 0, 0, name);
    f.Some? && Before(f.value.0, f.value.1, i, j)
  }

  ghost predicate Addressed(objs: seq<Obj>, lay: Layout, g: map<string, Word>)
    requires Placed(objs, lay)
  {
    forall name :: name in g ==> Global(objs, lay, name) == Some(g[name])
  }

  /** Every definition before (i, j) is the first of its name. */
  ghost predicate Unique(objs: seq<Obj>, i: nat, j: nat) {
    forall a, b, name :: Before(a, b, i, j) && DefinedAt(objs, a, b, name) ==>
      FindGlobal(objs, 0, 0, name) == Some((a, b))
  }

  lemma {:induction false} FindFirst(objs: seq<Obj>, a: nat, b: nat, i: nat, j: nat, name: string)
    requires DefinedAt(objs, i, j, name) && !Before(i, j, a, b)
    ensures FindGlobal(objs, a, b, name).Some?
    ensures var f := FindGlobal(objs, a, b, name).value; !Before(i, j, f.0, f.1)
    decreases |objs| - a, if a < |objs| then |objs[a].syms| - b else 0
  {
    if b >= |objs[a].syms| {
      FindFirst(objs, a + 1, 0, i, j, name);
    } else if !DefinedAt(objs, a, b, name) {
      FindFirst(objs, a, b + 1, i, j, name);
    }
  }

  lemma FirstIs(objs: seq<Obj>, lay: Layout, i: nat, j: nat, name: string)
    requires Placed(objs, lay) && DefinedAt(objs, i, j, name) && !FirstBefore(objs, name, i, j)
    ensures FindGlobal(objs, 0, 0, name) == Some((i, j))
      && Global(objs, lay, name) == Some(SymAddr(lay, i, objs[i].syms[j]))
  {
    hide FindGlobal;
    FindFirst(objs, 0, 0, i, j, name);
  }

  /** Symbol j of object i goes into the table, or counts as a duplicate, or is no definition. */
  method AddSymbol(objs: seq<Obj>, lay: Layout, g: map<string, Word>, i: nat, j: nat)
    returns (h: map<string, Word>, dup: bool)
    requires Placed(objs, lay) && i < |objs| && j < |objs[i].syms| && TableOk(objs, lay, g, i, j)
      && Addressed(objs, lay, g)
    ensures TableOk(objs, lay, h, i, j + 1) && Addressed(objs, lay, h)
    ensures Unique(objs, i, j + 1) <==> Unique(objs, i, j) && !dup
  {
    hide FindGlobal, Global, SymAddr;
    var s := objs[i].syms[j];
    h, dup := g, false;
    forall name
      ensures FirstBefore(objs, name, i, j + 1)
        <==> FirstBefore(objs, name, i, j) || FindGlobal(objs, 0, 0, name) == Some((i, j))
    {
    }
    if s.global && s.sec != 0 {
      assert DefinedAt(objs, i, j, s.name);
      if s.name in g {
        dup := true;
      } else {
        FirstIs(objs, lay, i, j, s.name);
        h := g[s.name := SymAddr(lay, i, s)];
      }
    }
    forall name | FindGlobal(objs, 0, 0, name) == Some((i, j))
      ensures s.global && s.sec != 0 && name == s.name
    {
      FoundIs(objs, name, i, j);
    }
  }

  lemma FoundIs(objs: seq<Obj>, name: string, i: nat, j: nat)
    requires FindGlobal(objs, 0, 0, name) == Some((i, j))
    ensures DefinedAt(objs, i, j, name)
  {
  }

  lemma NextObject(objs: seq<Obj>, lay: Layout, g: map<string, Word>, i: nat)
    requires Placed(objs, lay) && i < |objs| && TableOk(objs, lay, g, i, |objs[i].syms|)
    ensures TableOk(objs, lay, g, i + 1, 0)
    ensures Unique(objs, i + 1, 0) <==> Unique(objs, i, |objs[i].syms|)
  {
    hide FindGlobal;
    forall name
      ensures FirstBefore(objs, name, i + 1, 0) <==> FirstBefore(objs, name, i, |objs[i].syms|)
    {
      if FindGlobal(objs, 0, 0, name).Some? {
        var f := FindGlobal(objs, 0, 0, name).value;
        FoundIs(objs, name, f.0, f.1);
      }
    }
  }

  /** The definitions of all objects. */
  method Collect(objs: seq<Obj>, lay: Layout) returns (g: map<string, Word>, errors: nat)
    requires Placed(objs, lay)
    ensures TableOk(objs, lay, g, |objs|, 0) && Addressed(objs, lay, g)
    ensures errors == 0 <==> Unique(objs, |objs|, 0)
  {
    hide TableOk, Addressed, Unique;
    g, errors := map[], 0;
    NothingYet(objs, lay);
    for i := 0 to |objs|
      invariant TableOk(objs, lay, g, i, 0) && Addressed(objs, lay, g)
      invariant errors == 0 <==> Unique(objs, i, 0)
    {
      for j := 0 to |objs[i].syms|
        invariant TableOk(objs, lay, g, i, j) && Addressed(objs, lay, g)
        invariant errors == 0 <==> Unique(objs, i, j)
      {
        var dup;
        g, dup := AddSymbol(objs, lay, g, i, j);
        if dup {
          errors := errors + 1;
        }
      }
      NextObject(objs, lay, g, i);
    }
  }

  lemma NothingYet(objs: seq<Obj>, lay: Layout)
    requires Placed(objs, lay)
    ensures TableOk(objs, lay, map[], 0, 0) && Addressed(objs, lay, map[]) && Unique(objs, 0, 0)
  {
  }

  /** The linker's own symbols; none may be defined already. */
  function WithSpecials(lay: Layout, g: map<string, Word>): map<string, Word>
    requires |lay.ends| == 4
  {
    g["_etext" := Repr(lay.ends[1])]["_edata" := Repr(lay.ends[2])]["_end" := Repr(lay.ends[3])]
  }

  predicate Clashes(g: map<string, Word>) {
    "_etext" in g || "_edata" in g || "_end" in g
  }

  lemma SpecialsOk(objs: seq<Obj>, lay: Layout, g: map<string, Word>)
    requires Placed(objs, lay) && TableOk(objs, lay, g, |objs|, 0) && Addressed(objs, lay, g)
    ensures !Clashes(g) <==> forall i, j, name :: DefinedAt(objs, i, j, name) ==> Special(lay, name).None?
    ensures !Clashes(g) ==> forall name :: var h := WithSpecials(lay, g);
      Global(objs, lay, name) == if name in h then Some(h[name]) else None
  {
    hide FindGlobal, SymAddr;
    forall name
      ensures name in g <==> FindGlobal(objs, 0, 0, name).Some?
    {
      if FindGlobal(objs, 0, 0, name).Some? {
        var f := FindGlobal(objs, 0, 0, name).value;
        FoundIs(objs, name, f.0, f.1);
        assert FirstBefore(objs, name, |objs|, 0);
      }
    }
    if !Clashes(g) {
      forall i, j, name | DefinedAt(objs, i, j, name)
        ensures Special(lay, name).None?
      {
        FindFirst(objs, 0, 0, i, j, name);
      }
    } else {
      var name := if "_etext" in g then "_etext" else if "_edata" in g then "_edata" else "_end";
      var f := FindGlobal(objs, 0, 0, name).value;
      FoundIs(objs, name, f.0, f.1);
    }
  }

  lemma UniqueMeans(objs: seq<Obj>)
    ensures Unique(objs, |objs|, 0) <==>
      forall i, j, k, l, name :: DefinedAt(objs, i, j, name) && DefinedAt(objs, k, l, name) ==> i == k && j == l
  {
    hide FindGlobal;
    if Unique(objs, |objs|, 0) {
      forall i, j, k, l, name | DefinedAt(objs, i, j, name) && DefinedAt(objs, k, l, name)
        ensures i == k && j == l
      {
        assert Before(i, j, |objs|, 0) && Before(k, l, |objs|, 0);
      }
    } else {
      var a, b, name :| Before(a, b, |objs|, 0) && DefinedAt(objs, a, b, name)
        && FindGlobal(objs, 0, 0, name) != Some((a, b));
      FindFirst(objs, 0, 0, a, b, name);
      var f := FindGlobal(objs, 0, 0, name).value;
      FoundIs(objs, name, f.0, f.1);
    }
  }

  /** Symbol j of object i has an address or is not used. */
  predicate Fine(objs: seq<Obj>, lay: Layout, i: nat, j: nat)
    requires Placed(objs, lay) && i < |objs| && j < |objs[i].syms|
  {
    Used(objs[i], j) ==> Target(objs, lay, i, j).Some?
  }

  /** Symbols without a definition anywhere, as far as relocations use them. */
  method CountUndefined(objs: seq<Obj>, lay: Layout, h: map<string, Word>) returns (errors: nat)
    requires Placed(objs, lay) && forall name :: Global(objs, lay, name) == if name in h then Some(h[name]) else None
    ensures errors == 0 <==> forall i, j :: 0 <= i < |objs| && 0 <= j < |objs[i].syms| ==> Fine(objs, lay, i, j)
  {
    hide Global, SymAddr;
    errors := 0;
    for i := 0 to |objs|
      invariant errors == 0 <==> forall a, b :: 0 <= a < i && 0 <= b < |objs[a].syms| ==> Fine(objs, lay, a, b)
    {
      for j := 0 to |objs[i].syms|
        invariant errors == 0 <==>
          && (forall a, b :: 0 <= a < i && 0 <= b < |objs[a].syms| ==> Fine(objs, lay, a, b))
          && (forall b :: 0 <= b < j ==> Fine(objs, lay, i, b))
      {
        var s := objs[i].syms[j];
        assert Fine(objs, lay, i, j) <==> !(s.sec == 0 && s.name !in h && Used(objs[i], j));
        if s.sec == 0 && s.name !in h && Used(objs[i], j) {
          errors := errors + 1;
        }
      }
    }
  }

  lemma FineMeans(objs: seq<Obj>, lay: Layout)
    requires Placed(objs, lay)
    ensures (forall i, j :: 0 <= i < |objs| && 0 <= j < |objs[i].syms| ==> Fine(objs, lay, i, j)) <==>
      forall i, r :: 0 <= i < |objs| && 0 <= r < |objs[i].rels| && objs[i].rels[r].sym < |objs[i].syms| ==>
        Target(objs, lay, i, objs[i].rels[r].sym).Some?
  {
    hide Target;
    if forall i, j :: 0 <= i < |objs| && 0 <= j < |objs[i].syms| ==> Fine(objs, lay, i, j) {
      forall i, r | 0 <= i < |objs| && 0 <= r < |objs[i].rels| && objs[i].rels[r].sym < |objs[i].syms|
        ensures Target(objs, lay, i, objs[i].rels[r].sym).Some?
      {
        assert Fine(objs, lay, i, objs[i].rels[r].sym);
      }
    }
  }

  /** The resolution loops report no error exactly when every name is resolved. */
  method Resolve(objs: seq<Obj>, lay: Layout) returns (ok: bool)
    requires Placed(objs, lay)
    ensures ok <==> Resolved(objs, lay)
  {
    hide TableOk, Addressed, Unique, Special, Target, Global;
    var g, errors := Collect(objs, lay);
    SpecialsOk(objs, lay, g);
    UniqueMeans(objs);
    FineMeans(objs, lay);
    if Clashes(g) {
      return false;
    }
    var missing := CountUndefined(objs, lay, WithSpecials(lay, g));
    return errors + missing == 0;
  }

  // ---- copying the sections ----

  method CopyIn(image: array<Byte>, at: nat, b: seq<Byte>)
    requires b != [] ==> at + |b| <= image.Length
    modifies image
    ensures image[..] == Copy(old(image[..]), at, b)
  {
    for k := 0 to |b|
      invariant forall x :: 0 <= x < image.Length ==> image[x] == if at <= x < at + k then b[x - at] else old(image[x])
    {
      image[at + k] := b[k];
    }
    if b != [] {
      assert image[..] == Copy(old(image[..]), at, b);
    } else {
      assert image[..] == old(image[..]);
    }
  }

  /** Every section to its place. */
  method CopySections(objs: seq<Obj>, textAddr: nat, lay: Layout, image: array<Byte>)
    requires lay == Place(objs, textAddr) && image[..] == Zeros(ImageSize(lay))
    modifies image
    ensures image[..] == Filled(objs, textAddr)
  {
    hide Place, Copy, Bytes;
    SectionOrder(objs, textAddr);
    var i := 0;
    while i < |objs|
      invariant i <= |objs| && Filled(objs, textAddr) == Fill(objs, textAddr, image[..], i)
    {
      InImage(objs, textAddr, i, 1);
      InImage(objs, textAddr, i, 2);
      TextData(objs[i]);
      FillStep(objs, textAddr, image[..], i);
      CopyIn(image, Base(lay, i, 1) - textAddr, objs[i].text);
      CopyIn(image, Base(lay, i, 2) - textAddr, objs[i].data);
      i := i + 1;
    }
    FillEnd(objs, textAddr, image[..]);
  }

  lemma TextData(o: Obj)
    ensures Bytes(o, 1) == o.text && Bytes(o, 2) == o.data
  {
  }

  lemma FillStep(objs: seq<Obj>, textAddr: nat, img: seq<Byte>, i: nat)
    requires i < |objs| && |img| == ImageSize(Place(objs, textAddr))
    requires var lay := Place(objs, textAddr);
      lay.starts[1] <= lay.ends[1] <= lay.starts[2] <= lay.ends[2] && Placed(objs, lay)
    requires var lay := Place(objs, textAddr);
      && textAddr <= Base(lay, i, 1) && textAddr <= Base(lay, i, 2)
      && (objs[i].text != [] ==> Base(lay, i, 1) - textAddr + |objs[i].text| <= |img|)
      && (objs[i].data != [] ==> Base(lay, i, 2) - textAddr + |objs[i].data| <= |img|)
    ensures var lay := Place(objs, textAddr);
      var a := Copy(img, Base(lay, i, 1) - textAddr, objs[i].text);
      && |a| == |img| && |Copy(a, Base(lay, i, 2) - textAddr, objs[i].data)| == |img|
      && Fill(objs, textAddr, img, i) == Fill(objs, textAddr, Copy(a, Base(lay, i, 2) - textAddr, objs[i].data), i + 1)
  {
    hide Place;
  }

  lemma FillEnd(objs: seq<Obj>, textAddr: nat, img: seq<Byte>)
    requires var lay := Place(objs, textAddr);
      lay.starts[1] <= lay.ends[1] <= lay.starts[2] <= lay.ends[2] && |img| == ImageSize(lay)
    ensures Fill(objs, textAddr, img, |objs|) == img
  {
  }

  // ---- the whole link ----

  /** The objects whose index is in s, in order, from i on. */
  function Chosen(inputs: seq<LibrarySelect.Obj>, s: set<nat>, i: nat): (objs: seq<Obj>)
    requires i <= |inputs|
    decreases |inputs| - i
  {
    if i == |inputs| then []
    else (if i in s then [inputs[i].code] else []) + Chosen(inputs, s, i + 1)
  }

  lemma {:induction false} ChosenGood(inputs: seq<LibrarySelect.Obj>, s: set<nat>, i: nat)
    requires i <= |inputs| && forall k :: 0 <= k < |inputs| ==> GoodObj(inputs[k].code)
    ensures Good(Chosen(inputs, s, i))
    decreases |inputs| - i
  {
    hide GoodObj;
    if i >= |inputs| {
    } else {
      ChosenGood(inputs, s, i + 1);
    }
  }

  /** The kept objects moved to the front. */
  method Compact(inputs: seq<LibrarySelect.Obj>, keep: seq<bool>) returns (objs: seq<Obj>)
    requires |keep| == |inputs|
    ensures objs == Chosen(inputs, LibrarySelect.Kept(keep), 0)
  {
    objs := [];
    ghost var s := LibrarySelect.Kept(keep);
    var i := 0;
    while i < |inputs|
      invariant i <= |inputs| && Chosen(inputs, s, 0) == objs + Chosen(inputs, s, i)
    {
      if keep[i] {
        objs := objs + [inputs[i].code];
      }
      i := i + 1;
    }
  }

  /** tlink: an image exactly when no library symbol clashes, every name a kept object uses has one meaning
      and every 16-bit field takes its value; it is the image of the least set of objects that is needed. */
  method Link(inputs: seq<LibrarySelect.Obj>, textAddr: nat) returns (img: Option<seq<Byte>>, ghost s: set<nat>)
    requires forall k :: 0 <= k < |inputs| ==> GoodObj(inputs[k].code)
    ensures !LibrarySelect.NoClash(inputs) ==> img.None?
    ensures LibrarySelect.NoClash(inputs) ==>
      && LibrarySelect.Least(inputs, s) && Good(Chosen(inputs, s, 0))
      && (img.Some? <==> Linked(Chosen(inputs, s, 0), textAddr))
      && (img.Some? ==> img.value == Image(Chosen(inputs, s, 0), textAddr))
  {
    hide LibrarySelect.NoClash, LibrarySelect.Least, Good, Resolved, Image, Filled, Place, GoodObj, NoneWide, Chosen;
    s := {};
    var clashes := LibrarySelect.LibClashes(inputs);
    if clashes > 0 {
      return None, s;
    }
    var keep := LibrarySelect.SelectLib(inputs);
    s := LibrarySelect.Kept(keep);
    var objs := Compact(inputs, keep);
    ChosenGood(inputs, s, 0);
    SectionOrder(objs, textAddr);
    var lay := Place(objs, textAddr);
    var ok := Resolve(objs, lay);
    if !ok {
      return None, s;
    }
    var image := new Byte[ImageSize(lay)](i => 0);
    assert image[..] == Zeros(ImageSize(lay));
    CopySections(objs, textAddr, lay, image);
    var errors := Relocate(objs, textAddr, image);
    if errors > 0 {
      return None, s;
    }
    return Some(image[..]), s;
  }
}
