/** Address translation through the generation-tagged translation cache, and the plain two-level
    table walk it must agree with. RAM is a map from word addresses to decoded table words. */
module Tlb {
  const GEN_MOD: nat := 0x1_0000_0000

  /** A 32-bit table word: frame number, the six bits the walk uses, and the six it ignores. */
  datatype Pte = Pte(frame: nat, other: nat, d: bool, a: bool, x: bool, u: bool, w: bool, p: bool)

  datatype Access = Load | Save | Fetch

  /** PageFault: the faulting address and the error code; Bus: a table word outside RAM. */
  datatype Outcome = Address(pa: nat) | PageFault(va: nat, code: nat) | Bus(word: nat)

  type Ram = map<nat, Pte>

  /** A cached entry: the generation that filled it, its page-table word and that word's address. */
  datatype Entry = Entry(gen: nat, pte: Pte, at: nat)

  /** The cache is keyed by page number; a missing entry is one that was never filled. */
  datatype Mmu = Mmu(ram: Ram, base: nat, tlb: map<nat, Entry>, gen: nat)

  // ---- table words as numbers ----

  function Bit(b: bool): nat {
    if b then 1 else 0
  }

  function Push(n: nat, b: bool): nat {
    2 * n + Bit(b)
  }

  /** Bits 0 to 5 are p, w, u, x, a and d; bits 12 up are the frame. */
  function Encode(e: Pte): nat {
    Push(Push(Push(Push(Push(Push(e.frame * 64 + e.other, e.d), e.a), e.x), e.u), e.w), e.p)
  }

  function Decode(n: nat): Pte {
    var n1 := n / 2;
    var n2 := n1 / 2;
    var n3 := n2 / 2;
    var n4 := n3 / 2;
    var n5 := n4 / 2;
    var n6 := n5 / 2;
    Pte(n6 / 64, n6 % 64, n5 % 2 == 1, n4 % 2 == 1, n3 % 2 == 1, n2 % 2 == 1, n1 % 2 == 1, n % 2 == 1)
  }

  lemma PushPop(n: nat, b: bool)
    ensures Push(n, b) / 2 == n && (Push(n, b) % 2 == 1) == b
    ensures Push(n / 2, n % 2 == 1) == n
  {
  }

  /** Words and their decoded form are the same thing. */
  lemma EncodeDecode(n: nat)
    ensures Encode(Decode(n)) == n
  {
    hide Push;
    var n1 := n / 2;
    var n2 := n1 / 2;
    var n3 := n2 / 2;
    var n4 := n3 / 2;
    var n5 := n4 / 2;
    PushPop(n, true);
    PushPop(n1, true);
    PushPop(n2, true);
    PushPop(n3, true);
    PushPop(n4, true);
    PushPop(n5, true);
  }

  lemma DecodeEncode(e: Pte)
    requires e.other < 64
    ensures Decode(Encode(e)) == e
  {
    hide Push;
    var n6 := e.frame * 64 + e.other;
    var n5 := Push(n6, e.d);
    var n4 := Push(n5, e.a);
    var n3 := Push(n4, e.x);
    var n2 := Push(n3, e.u);
    PushPop(n6, e.d);
    PushPop(n5, e.a);
    PushPop(n4, e.x);
    PushPop(n3, e.u);
    PushPop(n2, e.w);
    PushPop(Push(n2, e.w), e.p);
    Split64(e.frame, e.other);
  }

  lemma Split64(q: nat, r: nat)
    requires r < 64
    ensures (q * 64 + r) / 64 == q && (q * 64 + r) % 64 == r
  {
  }

  // ---- walking the tables every time ----

  function PageOf(va: nat): nat {
    va / 4096
  }

  /** Word address of the directory entry; base is the PTBASE register. */
  function PdeAt(base: nat, page: nat): nat {
    base / 4096 * 1024 + page / 1024
  }

  function PteAt(pde: Pte, page: nat): nat {
    pde.frame * 1024 + page % 1024
  }

  predicate Denied(e: Pte, acc: Access, user: bool) {
    (user && !e.u) || (acc == Save && !e.w) || (acc == Fetch && !e.x)
  }

  function Refusal(va: nat, acc: Access, user: bool, present: bool): Outcome {
    PageFault(va, Bit(present) + 2 * Bit(acc == Save) + 4 * Bit(user) + 8 * Bit(acc == Fetch))
  }

  function Place(e: Pte, va: nat): Outcome {
    Address(e.frame * 4096 + va % 4096)
  }

  /** Accessed, and dirty after a write. */
  function Marked(e: Pte, acc: Access): Pte {
    e.(a := true, d := e.d || acc == Save)
  }

  function Walk(ram: Ram, base: nat, va: nat, acc: Access, user: bool): (Outcome, Ram) {
    var page := PageOf(va);
    var x := PdeAt(base, page);
    if x !in ram then (Bus(x), ram)
    else if !ram[x].p then (Refusal(va, acc, user, false), ram)
    else
      var y := PteAt(ram[x], page);
      if y !in ram then (Bus(y), ram)
      else if !ram[y].p then (Refusal(va, acc, user, false), ram)
      else if Denied(ram[y], acc, user) then (Refusal(va, acc, user, true), ram)
      else (Place(ram[y], va), ram[y := Marked(ram[y], acc)])
  }

  // ---- the cache ----

  predicate Live(m: Mmu, page: nat) {
    page in m.tlb && m.tlb[page].gen == m.gen
  }

  /** The miss path: walk, and remember the marked word. */
  function Fill(m: Mmu, va: nat, acc: Access, user: bool): (Outcome, Mmu) {
    var page := PageOf(va);
    var x := PdeAt(m.base, page);
    if x !in m.ram then (Bus(x), m)
    else if !m.ram[x].p then (Refusal(va, acc, user, false), m)
    else
      var y := PteAt(m.ram[x], page);
      if y !in m.ram then (Bus(y), m)
      else if !m.ram[y].p then (Refusal(va, acc, user, false), m)
      else if Denied(m.ram[y], acc, user) then (Refusal(va, acc, user, true), m)
      else
        var e := Marked(m.ram[y], acc);
        (Place(e, va), m.(ram := m.ram[y := e], tlb := m.tlb[page := Entry(m.gen, e, y)]))
  }

  /** pg_translate. */
  function Translate(m: Mmu, va: nat, acc: Access, user: bool): (Outcome, Mmu) {
    var page := PageOf(va);
    if !Live(m, page) then Fill(m, va, acc, user)
    else
      var e := m.tlb[page];
      if Denied(e.pte, acc, user) then (Refusal(va, acc, user, true), m)
      else if acc == Save && !e.pte.d then
        var n := m.(tlb := m.tlb[page := e.(pte := e.pte.(d := true))]);
        if e.at in m.ram then (Place(e.pte, va), n.(ram := m.ram[e.at := m.ram[e.at].(d := true, a := true)]))
        else (Bus(e.at), n)
      else (Place(e.pte, va), m)
  }

  /** cpu_flush_tlb: a new generation; when the counter wraps the whole cache is cleared. */
  function Flush(m: Mmu): Mmu {
    var g := (m.gen + 1) % GEN_MOD;
    if g == 0 then m.(tlb := map[], gen := 1) else m.(gen := g)
  }

  /** cpu_invlpg: generation 0 is never current. */
  function Forget(m: Mmu, page: nat): Mmu {
    if page in m.tlb then m.(tlb := m.tlb[page := m.tlb[page].(gen := 0)]) else m
  }

  // ---- coherence ----

  /** The cached entry of page says what the tables in RAM say; RAM may already be marked dirty
      through another page that shares the table word. */
  ghost predicate Agrees(m: Mmu, page: nat)
    requires page in m.tlb
  {
    var e, x := m.tlb[page], PdeAt(m.base, page);
    && x in m.ram && m.ram[x].p
    && e.at == PteAt(m.ram[x], page) && e.at in m.ram
    && SameWord(e.pte, m.ram[e.at])
  }

  predicate SameWord(e: Pte, w: Pte) {
    e.p && e.a && w == e.(d := w.d) && (e.d ==> w.d)
  }

  /** used: pages translated since they were last forgotten; stale: those whose table words changed since. */
  ghost predicate Coherent(m: Mmu, used: set<nat>, stale: set<nat>) {
    && 0 < m.gen < GEN_MOD
    && (forall p :: p in m.tlb ==> m.tlb[p].gen <= m.gen)
    && (forall p :: Live(m, p) ==> p in used)
    && (forall p :: Live(m, p) && p !in stale ==> Agrees(m, p))
  }

  /** One translation: the same outcome and the same memory as the walk. */
  lemma TranslateSame(m: Mmu, used: set<nat>, stale: set<nat>, va: nat, acc: Access, user: bool)
    requires Coherent(m, used, stale) && PageOf(va) !in stale
    ensures var (o, n) := Translate(m, va, acc, user);
      (o, n.ram) == Walk(m.ram, m.base, va, acc, user) && n.base == m.base
  {
    var page := PageOf(va);
    if Live(m, page) {
      assert Agrees(m, page);
      var y := m.tlb[page].at;
      assert m.ram[y := m.ram[y]] == m.ram;
    }
  }

  /** And the cache stays coherent with the tables. */
  lemma TranslateOk(m: Mmu, used: set<nat>, stale: set<nat>, va: nat, acc: Access, user: bool)
    requires Coherent(m, used, stale) && PageOf(va) !in stale
    ensures var (o, n) := Translate(m, va, acc, user);
      && (o, n.ram) == Walk(m.ram, m.base, va, acc, user)
      && n.base == m.base
      && Coherent(n, if o.Address? then used + {PageOf(va)} else used, stale)
  {
    var (o, n) := Translate(m, va, acc, user);
    TranslateSame(m, used, stale, va, acc, user);
    forall p | Live(n, p) && p !in stale
      ensures Agrees(n, p)
    {
      StaysAgreed(m, used, stale, va, acc, user, p);
    }
  }

  lemma StaysAgreed(m: Mmu, used: set<nat>, stale: set<nat>, va: nat, acc: Access, user: bool, p: nat)
    requires Coherent(m, used, stale) && PageOf(va) !in stale && p !in stale
    ensures var n := Translate(m, va, acc, user).1; Live(n, p) ==> Agrees(n, p)
  {
    hide PageOf, PdeAt, Denied, Place, Refusal;
    if Live(m, p) {
      assert Agrees(m, p);
    }
  }

  /** After a flush, wrapped or not, nothing cached is current. */
  lemma FlushForgets(m: Mmu, used: set<nat>, stale: set<nat>)
    requires Coherent(m, used, stale)
    ensures Coherent(Flush(m), {}, {}) && Flush(m).ram == m.ram && forall p :: !Live(Flush(m), p)
  {
    assert m.gen + 1 < GEN_MOD ==> (m.gen + 1) % GEN_MOD == m.gen + 1;
  }

  // ---- whole runs ----

  /** Store: a word of memory is overwritten. SetBase: PTBASE is written, which flushes. */
  datatype Op =
    | Xlate(va: nat, acc: Access, user: bool)
    | Store(word: nat, v: Pte)
    | Invlpg(va: nat)
    | FlushAll
    | SetBase(base: nat)

  function Write(ram: Ram, word: nat, v: Pte): Ram {
    if word in ram then ram[word := v] else ram
  }

  function Step(m: Mmu, op: Op): (seq<Outcome>, Mmu) {
    match op
    case Xlate(va, acc, user) => var (o, n) := Translate(m, va, acc, user); ([o], n)
    case Store(word, v) => ([], m.(ram := Write(m.ram, word, v)))
    case Invlpg(va) => ([], Forget(m, PageOf(va)))
    case FlushAll => ([], Flush(m))
    case SetBase(base) => ([], Flush(m.(base := base)))
  }

  function Run(m: Mmu, ops: seq<Op>): (seq<Outcome>, Mmu)
    decreases |ops|
  {
    if ops == [] then ([], m)
    else
      var (o, n) := Step(m, ops[0]);
      var (os, z) := Run(n, ops[1..]);
      (o + os, z)
  }

  /** The machine without a cache, and what its program has promised: used and stale as above. */
  datatype Plain = Plain(ram: Ram, base: nat, used: set<nat>, stale: set<nat>)

  /** Pages whose table words lie at the given place. */
  function Hit(s: Plain, word: nat): set<nat> {
    set p | p in s.used && OnPath(s, p, word)
  }

  predicate OnPath(s: Plain, page: nat, word: nat) {
    var x := PdeAt(s.base, page);
    word == x || (x in s.ram && word == PteAt(s.ram[x], page))
  }

  function PlainStep(s: Plain, op: Op): (seq<Outcome>, Plain) {
    match op
    case Xlate(va, acc, user) =>
      var (o, ram) := Walk(s.ram, s.base, va, acc, user);
      ([o], s.(ram := ram, used := if o.Address? then s.used + {PageOf(va)} else s.used))
    case Store(word, v) => ([], s.(ram := Write(s.ram, word, v), stale := s.stale + Hit(s, word)))
    case Invlpg(va) => ([], s.(used := s.used - {PageOf(va)}, stale := s.stale - {PageOf(va)}))
    case FlushAll => ([], s.(used := {}, stale := {}))
    case SetBase(base) => ([], s.(base := base, used := {}, stale := {}))
  }

  function PlainRun(s: Plain, ops: seq<Op>): (seq<Outcome>, Plain)
    decreases |ops|
  {
    if ops == [] then ([], s)
    else
      var (o, t) := PlainStep(s, ops[0]);
      var (os, z) := PlainRun(t, ops[1..]);
      (o + os, z)
  }

  /** The program's side: after changing a table word it invalidates the page before using it again. */
  predicate Disciplined(s: Plain, ops: seq<Op>)
    decreases |ops|
  {
    ops != [] ==>
      && (ops[0].Xlate? ==> PageOf(ops[0].va) !in s.stale)
      && Disciplined(PlainStep(s, ops[0]).1, ops[1..])
  }

  ghost predicate Matches(m: Mmu, s: Plain) {
    m.ram == s.ram && m.base == s.base && Coherent(m, s.used, s.stale)
  }

  lemma StepMatches(m: Mmu, s: Plain, op: Op)
    requires Matches(m, s) && (op.Xlate? ==> PageOf(op.va) !in s.stale)
    ensures Step(m, op).0 == PlainStep(s, op).0 && Matches(Step(m, op).1, PlainStep(s, op).1)
  {
    match op
    case Xlate(va, acc, user) => TranslateOk(m, s.used, s.stale, va, acc, user);
    case Store(word, v) => StoreMatches(m, s, word, v);
    case Invlpg(va) => ForgetMatches(m, s, PageOf(va));
    case FlushAll => FlushForgets(m, s.used, s.stale);
    case SetBase(base) => FlushBase(m, s, base);
  }

  lemma StoreMatches(m: Mmu, s: Plain, word: nat, v: Pte)
    requires Matches(m, s)
    ensures Matches(m.(ram := Write(m.ram, word, v)), s.(ram := Write(s.ram, word, v), stale := s.stale + Hit(s, word)))
  {
    var n := m.(ram := Write(m.ram, word, v));
    var stale := s.stale + Hit(s, word);
    forall p | Live(n, p) && p !in stale
      ensures Agrees(n, p)
    {
      assert Live(m, p) && Agrees(m, p) && !OnPath(s, p, word);
    }
    assert forall p :: Live(n, p) ==> Live(m, p);
  }

  lemma ForgetMatches(m: Mmu, s: Plain, page: nat)
    requires Matches(m, s)
    ensures Matches(Forget(m, page), s.(used := s.used - {page}, stale := s.stale - {page}))
  {
    var n := Forget(m, page);
    forall p | Live(n, p)
      ensures p in s.used - {page} && (p !in s.stale - {page} ==> Agrees(n, p))
    {
      assert Live(m, p) && p != page;
    }
  }

  lemma FlushBase(m: Mmu, s: Plain, base: nat)
    requires Matches(m, s)
    ensures Matches(Flush(m.(base := base)), s.(base := base, used := {}, stale := {}))
  {
    assert m.gen + 1 < GEN_MOD ==> (m.gen + 1) % GEN_MOD == m.gen + 1;
  }

  /** Every run: through any number of flushes, wrap-around of the generation included, each
      translation gives the address or fault the tables give, and memory, accessed and dirty
      bits included, is the same after it. */
  lemma {:induction false} RunMatches(m: Mmu, s: Plain, ops: seq<Op>)
    requires Matches(m, s) && Disciplined(s, ops)
    ensures Run(m, ops).0 == PlainRun(s, ops).0 && Matches(Run(m, ops).1, PlainRun(s, ops).1)
    decreases |ops|
  {
    hide Matches, Step, PlainStep;
    if ops == [] {
    } else {
      StepMatches(m, s, ops[0]);
      RunMatches(Step(m, ops[0]).1, PlainStep(s, ops[0]).1, ops[1..]);
    }
  }

  /** A run that starts with a flush needs nothing of the cache but the generation bound. */
  lemma FlushedRun(m: Mmu, ops: seq<Op>)
    requires 0 < m.gen < GEN_MOD && (forall p :: p in m.tlb ==> m.tlb[p].gen <= m.gen)
    requires Disciplined(Plain(m.ram, m.base, {}, {}), ops)
    ensures var (os, n) := Run(Flush(m), ops); var (ps, s) := PlainRun(Plain(m.ram, m.base, {}, {}), ops);
      os == ps && n.ram == s.ram
  {
    var all := m.tlb.Keys;
    assert Coherent(m, all, all);
    FlushForgets(m, all, all);
    RunMatches(Flush(m), Plain(m.ram, m.base, {}, {}), ops);
  }

  /** The discipline is needed: without the invalidation a changed entry is not seen. */
  lemma StaleEntry(m: Mmu, va: nat, acc: Access, user: bool, word: nat, v: Pte)
    requires Live(m, PageOf(va)) && Agrees(m, PageOf(va)) && word == m.tlb[PageOf(va)].at && !v.p
    requires word != PdeAt(m.base, PageOf(va)) && !Denied(m.tlb[PageOf(va)].pte, acc, user)
    ensures var n := m.(ram := Write(m.ram, word, v));
      Translate(n, va, acc, user).0.Address? && Walk(n.ram, n.base, va, acc, user).0.PageFault?
  {
  }

  // ---- the unit as the processor runs it ----

  class Unit {
    var ram: Ram
    var base: nat
    var tlb: map<nat, Entry>
    var gen: nat

    ghost function Abs(): Mmu
      reads this
    {
      Mmu(ram, base, tlb, gen)
    }

    constructor (memory: Ram)
      ensures ram == memory && Coherent(Abs(), {}, {})
    {
      ram, base, tlb, gen := memory, 0, map[], 1;
    }

    /** pg_translate: the same address or fault, and the same memory, as the walk. */
    method PgTranslate(va: nat, acc: Access, user: bool, ghost used: set<nat>, ghost stale: set<nat>)
      returns (o: Outcome)
      requires Coherent(Abs(), used, stale) && PageOf(va) !in stale
      modifies this
      ensures (o, Abs()) == Translate(old(Abs()), va, acc, user)
      ensures (o, ram) == Walk(old(ram), old(base), va, acc, user)
      ensures Coherent(Abs(), if o.Address? then used + {PageOf(va)} else used, stale)
    {
      TranslateOk(Abs(), used, stale, va, acc, user);
      hide Coherent, Agrees;
      var page := PageOf(va);
      if page !in tlb || tlb[page].gen != gen {
        o := Miss(va, acc, user);
        return;
      }
      var e := tlb[page];
      if Denied(e.pte, acc, user) {
        return Refusal(va, acc, user, true);
      }
      if acc == Save && !e.pte.d {
        tlb := tlb[page := e.(pte := e.pte.(d := true))];
        if e.at !in ram {
          return Bus(e.at);
        }
        ram := ram[e.at := ram[e.at].(d := true, a := true)];
      }
      return Place(e.pte, va);
    }

    method Miss(va: nat, acc: Access, user: bool) returns (o: Outcome)
      modifies this
      ensures (o, Abs()) == Fill(old(Abs()), va, acc, user)
    {
      var page := PageOf(va);
      var x := PdeAt(base, page);
      if x !in ram {
        return Bus(x);
      }
      if !ram[x].p {
        return Refusal(va, acc, user, false);
      }
      var y := PteAt(ram[x], page);
      if y !in ram {
        return Bus(y);
      }
      var e := ram[y];
      if !e.p {
        return Refusal(va, acc, user, false);
      }
      if Denied(e, acc, user) {
        return Refusal(va, acc, user, true);
      }
      var marked := Marked(e, acc);
      if marked != e {
        ram := ram[y := marked];
      }
      assert ram == old(ram)[y := marked];
      tlb := tlb[page := Entry(gen, marked, y)];
      return Place(marked, va);
    }

    /** cpu_flush_tlb. */
    method FlushTlb(ghost used: set<nat>, ghost stale: set<nat>)
      requires Coherent(Abs(), used, stale)
      modifies this
      ensures Abs() == Flush(old(Abs())) && Coherent(Abs(), {}, {}) && ram == old(ram)
    {
      FlushForgets(Abs(), used, stale);
      gen := (gen + 1) % GEN_MOD;
      if gen == 0 {
        tlb, gen := map[], 1;
      }
    }
  }
}
