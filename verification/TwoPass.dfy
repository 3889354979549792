/** The assembler's two passes over an object file: every instruction and datum takes the same room in
    both, and when the sizes of gaps depend only on what is already known, no label moves. */
module TwoPass {
  import opened Wrappers
  import opened Words
  import opened AsmEncode

  /** The operators that need absolute operands. */
  datatype Op = Mul | Div | Mod | Shl | Shr | And | Xor | Or | Neg | Com

  datatype Expr =
    | Num(v: Word)
    | Here
    | Ref(name: string)
    | Plus(l: Expr, r: Expr)
    | Minus(l: Expr, r: Expr)
    | Abs(op: Op, l: Expr, r: Expr)

  /** sec 1 to 3: a label; 4: an .equ, with the symbol its value is relative to. */
  datatype Sym = Sym(val: Word, sec: nat, rsym: int)

  type Env = map<string, Sym>

  /** The displacement of a memory operand. */
  datatype Off = NoOff | PlusOff(e: Expr) | MinusOff(e: Expr)

  datatype Opnd = RegOp(r: RegNo) | SpOp | CrOp(c: CrNo) | MemOp(base: BaseNo, off: Off) | ExpOp(e: Expr)

  /** An element of .byte, .word or .dword; only .byte takes strings. */
  datatype Item = Str(bytes: seq<Byte>) | Value(e: Expr)

  datatype Size = Byte1 | Word2 | Dword4

  datatype Stmt =
    | Label(name: string)
    | Instr(ins: Ins, ops: seq<Opnd>)
    | Data(size: Size, items: seq<Item>)
    | Ascii(bytes: seq<Byte>, zero: bool)
    | Space(count: Expr, fill: Option<Expr>)
    | Align(to: Expr)
    | Equ(name: string, value: Expr)
    | Section(sec: nat)

  /** Location counters of the three sections, the current section, the symbols; what pass 2 wrote to each
      section, and its relocations. */
  datatype State = State(loc: seq<nat>, sec: nat, env: Env, out: seq<seq<Byte>>, rels: seq<Linker.Rel>)

  /** A section may not grow beyond this. */
  const LIMIT: nat := 0x400_0000

  /** Moved: the check that a label is where pass 1 put it fails. Fatal: any other error. */
  datatype Outcome = Going(s: State) | Moved | Fatal

  // ---- expressions ----

  /** sym_val in an object file; ext numbers an undefined symbol. */
  function SymVal(pass: nat, env: Env, name: string, ext: string -> nat): Val {
    if name !in env then Val(0, if pass == 1 then -1 else 3 + ext(name))
    else if env[name].sec == 4 then Val(env[name].val, env[name].rsym)
    else Val(env[name].val, env[name].sec - 1)
  }

  /** What the operators compute and which symbols get which numbers. */
  datatype Rules = Rules(alu: (Op, Word, Word) -> Word, ext: string -> nat)

  /** eval: none is a fatal error, which only pass 2 raises here. */
  function Eval(q: Rules, pass: nat, s: State, e: Expr): Option<Val>
    requires 1 <= s.sec <= 3 && |s.loc| == 4
  {
    match e
    case Num(v) => Some(Val(v, -1))
    case Here => Some(Val(Repr(s.loc[s.sec]), s.sec - 1))
    case Ref(name) => Some(SymVal(pass, s.env, name, q.ext))
    case _ =>
      var a, b := Eval(q, pass, s, e.l), Eval(q, pass, s, e.r);
      if a.None? || b.None? then None else Join(q, pass, e, a.value, b.value)
  }

  /** An operator on the values of its operands. */
  function Join(q: Rules, pass: nat, e: Expr, a: Val, b: Val): Option<Val>
    requires e.Plus? || e.Minus? || e.Abs?
  {
    match e
    case Plus(_, _) =>
      if a.s >= 0 && b.s >= 0 && pass == 2 then None
      else Some(Val(Repr(a.v + b.v), if b.s >= 0 then b.s else a.s))
    case Minus(_, _) =>
      if b.s < 0 then Some(Val(Repr(a.v - b.v), a.s))
      else if (a.s == b.s && b.s <= 2) || pass == 1 then Some(Val(Repr(a.v - b.v), -1))
      else None
    case Abs(op, _, _) =>
      if (a.s >= 0 || b.s >= 0 || ((op.Div? || op.Mod?) && b.v == 0)) && pass == 2 then None
      else if (op.Div? || op.Mod?) && b.v == 0 then Some(Val(0, -1))
      else Some(Val(q.alu(op, a.v, b.v), -1))
  }

  /** eval_abs. */
  function EvalAbs(q: Rules, pass: nat, s: State, e: Expr): Option<Word>
    requires 1 <= s.sec <= 3 && |s.loc| == 4
  {
    match Eval(q, pass, s, e)
    case None => None
    case Some(v) => if v.s >= 0 then None else Some(v.v)
  }

  // ---- statements ----

  predicate Ready(s: State) {
    1 <= s.sec <= 3 && |s.loc| == 4 && |s.out| == 4
  }

  /** The bytes go to the current section; in pass 1 only their number matters. */
  function Put(pass: nat, s: State, k: Chunk): (o: Outcome)
    requires Ready(s)
    ensures o.Going? ==> Ready(o.s)
  {
    var n := s.loc[s.sec] + |k.bytes|;
    if pass == 2 && k.bytes != [] && (s.sec == 3 || n > LIMIT) then Fatal
    else
      var t := s.(loc := s.loc[s.sec := n]);
      Going(if pass == 2 then t.(out := s.out[s.sec := s.out[s.sec] + k.bytes], rels := s.rels + k.rels) else t)
  }

  /** A gap: in .bss it is only counted. */
  function Skip(pass: nat, s: State, n: nat, fill: Word): (o: Outcome)
    requires Ready(s)
    ensures o.Going? ==> Ready(o.s)
  {
    if s.sec == 3 then Going(s.(loc := s.loc[3 := s.loc[3] + n])) else Put(pass, s, Chunk(seq(n, i => fill % 256), []))
  }

  // ---- operands ----

  /** parse_opnd. */
  function Operand(q: Rules, pass: nat, s: State, o: Opnd): Option<Arg>
    requires Ready(s)
  {
    match o
    case RegOp(r) => Some(RegArg(r))
    case SpOp => Some(SpArg)
    case CrOp(c) => Some(CrArg(c))
    case ExpOp(e) => var v := Eval(q, pass, s, e); if v.None? then None else Some(ExpArg(v.value))
    case MemOp(base, NoOff) => Some(MemArg(base, Val(0, -1)))
    case MemOp(base, PlusOff(e)) => var v := Eval(q, pass, s, e); if v.None? then None else Some(MemArg(base, v.value))
    case MemOp(base, MinusOff(e)) =>
      var v := Eval(q, pass, s, e);
      if v.None? || (v.value.s >= 0 && pass == 2) then None else Some(MemArg(base, Val(Repr(0 - v.value.v), -1)))
  }

  function Operands(q: Rules, pass: nat, s: State, ops: seq<Opnd>): Option<seq<Arg>>
    requires Ready(s)
  {
    if ops == [] then Some([])
    else
      var a, rest := Operand(q, pass, s, ops[0]), Operands(q, pass, s, ops[1..]);
      if a.None? || rest.None? then None else Some([a.value] + rest.value)
  }

  function InstrStep(q: Rules, pass: nat, s: State, i: Ins, ops: seq<Opnd>): (o: Outcome)
    requires Ready(s)
    ensures o.Going? ==> Ready(o.s)
  {
    var args := Operands(q, pass, s, ops);
    if args.None? then Fatal
    else
      var c := Code(i, args.value);
      if c.None? then Fatal
      else
        var k := Whole(pass, s.sec, s.loc[s.sec], c.value);
        if k.None? then Fatal else Put(pass, s, k.value)
  }

  function FieldOf(size: Size, v: Val): Field {
    match size
    case Byte1 => Val8(v)
    case Word2 => Val16(v)
    case Dword4 => Val32(v)
  }

  function ItemStep(q: Rules, pass: nat, s: State, size: Size, x: Item): (o: Outcome)
    requires Ready(s)
    ensures o.Going? ==> Ready(o.s)
  {
    match x
    case Str(b) => if size.Byte1? then Put(pass, s, Chunk(b, [])) else Fatal
    case Value(e) =>
      var v := Eval(q, pass, s, e);
      if v.None? then Fatal
      else
        var k := Fill(pass, s.sec, s.loc[s.sec], FieldOf(size, v.value));
        if k.None? then Fatal else Put(pass, s, k.value)
  }

  /** Each element is evaluated after those before it are written. */
  function ItemsStep(q: Rules, pass: nat, s: State, size: Size, xs: seq<Item>): (o: Outcome)
    requires Ready(s)
    ensures o.Going? ==> Ready(o.s)
    decreases |xs|
  {
    if xs == [] then Going(s)
    else
      var o := ItemStep(q, pass, s, size, xs[0]);
      if o.Going? then ItemsStep(q, pass, o.s, size, xs[1..]) else o
  }

  /** How far .align moves. */
  function Gap(loc: nat, to: nat): nat
    requires to > 0
  {
    if loc % to == 0 then 0 else to - loc % to
  }

  predicate PowerOf2(n: nat) {
    exists k :: 0 <= k <= 32 && n == Pow2(k)
  }

  /** One statement of either pass. */
  function Step(q: Rules, pass: nat, s: State, t: Stmt): (o: Outcome)
    requires Ready(s)
    ensures o.Going? ==> Ready(o.s)
  {
    match t
    case Label(name) =>
      if pass == 1 then
        if name in s.env then Fatal else Going(s.(env := s.env[name := Sym(Repr(s.loc[s.sec]), s.sec, -1)]))
      else if name in s.env && s.env[name].val == Repr(s.loc[s.sec]) && s.env[name].sec == s.sec then Going(s)
      else Moved
    case Instr(i, ops) => InstrStep(q, pass, s, i, ops)
    case Data(size, items) => ItemsStep(q, pass, s, size, items)
    case Ascii(b, zero) => Put(pass, s, Chunk(b + if zero then [0] else [], []))
    case Space(count, fill) =>
      var c, f := EvalAbs(q, pass, s, count), if fill.Some? then EvalAbs(q, pass, s, fill.value) else Some(0);
      if c.None? || f.None? || c.value > LIMIT || (s.sec == 3 && f.value != 0) then Fatal
      else Skip(pass, s, c.value, f.value)
    case Align(to) =>
      var a := EvalAbs(q, pass, s, to);
      if a.None? || a.value == 0 || !PowerOf2(a.value) then Fatal
      else Skip(pass, s, Gap(s.loc[s.sec], a.value), 0)
    case Equ(name, value) =>
      var v := Eval(q, pass, s, value);
      if v.None? || (pass == 1 && name in s.env) then Fatal
      else Going(s.(env := s.env[name := Sym(v.value.v, 4, v.value.s)]))
    case Section(sec) => if 1 <= sec <= 3 then Going(s.(sec := sec)) else Fatal
  }

  function Run(q: Rules, pass: nat, s: State, prog: seq<Stmt>): (o: Outcome)
    requires Ready(s)
    ensures o.Going? ==> Ready(o.s)
    decreases |prog|
  {
    if prog == [] then Going(s)
    else
      var o := Step(q, pass, s, prog[0]);
      if o.Going? then Run(q, pass, o.s, prog[1..]) else o
  }

  function Start(env: Env): State {
    State([0, 0, 0, 0], 1, env, [[], [], [], []], [])
  }

  // ---- sizes known in time ----

  function Names(e: Expr): set<string> {
    match e
    case Num(_) => {}
    case Here => {}
    case Ref(name) => {name}
    case Plus(l, r) => Names(l) + Names(r)
    case Minus(l, r) => Names(l) + Names(r)
    case Abs(_, l, r) => Names(l) + Names(r)
  }

  /** The names settled after a statement: labels, and .equ values made of settled names. */
  function Settle(known: set<string>, t: Stmt): set<string> {
    match t
    case Label(name) => known + {name}
    case Equ(name, value) => if Names(value) <= known then known + {name} else known
    case _ => known
  }

  /** Every .space and .align operand uses settled names only. */
  predicate InTime(known: set<string>, prog: seq<Stmt>)
    decreases |prog|
  {
    prog != [] ==>
      && (prog[0].Space? ==> Names(prog[0].count) <= known)
      && (prog[0].Align? ==> Names(prog[0].to) <= known)
      && InTime(Settle(known, prog[0]), prog[1..])
  }

  // ---- the two passes side by side ----

  /** The passes agree on the place and on every settled name. */
  ghost predicate Same(a: State, b: State, known: set<string>) {
    && a.loc == b.loc && a.sec == b.sec
    && forall n :: n in known ==> n in a.env && n in b.env && a.env[n] == b.env[n]
  }

  /** An expression over settled names that pass 2 accepts has the same value in both passes. */
  lemma {:induction false} EvalSame(q: Rules, a: State, b: State, known: set<string>, e: Expr)
    requires Ready(a) && Ready(b) && Same(a, b, known) && Names(e) <= known
    ensures Eval(q, 2, b, e).Some? ==> Eval(q, 1, a, e) == Eval(q, 2, b, e)
  {
    if e.Num? || e.Here? || e.Ref? {
      LeafSame(q, a, b, known, e);
    } else {
      hide Eval, Same;
      EvalSame(q, a, b, known, e.l);
      EvalSame(q, a, b, known, e.r);
      NodeSame(q, a, b, e);
    }
  }

  lemma LeafSame(q: Rules, a: State, b: State, known: set<string>, e: Expr)
    requires Ready(a) && Ready(b) && Same(a, b, known) && Names(e) <= known && (e.Num? || e.Here? || e.Ref?)
    ensures Eval(q, 1, a, e) == Eval(q, 2, b, e)
  {
  }

  lemma NodeSame(q: Rules, a: State, b: State, e: Expr)
    requires Ready(a) && Ready(b) && (e.Plus? || e.Minus? || e.Abs?)
    requires Eval(q, 2, b, e.l).Some? ==> Eval(q, 1, a, e.l) == Eval(q, 2, b, e.l)
    requires Eval(q, 2, b, e.r).Some? ==> Eval(q, 1, a, e.r) == Eval(q, 2, b, e.r)
    ensures Eval(q, 2, b, e).Some? ==> Eval(q, 1, a, e) == Eval(q, 2, b, e)
  {
    hide Join;
    if Eval(q, 2, b, e.l).Some? && Eval(q, 2, b, e.r).Some? {
      JoinSame(q, e, Eval(q, 2, b, e.l).value, Eval(q, 2, b, e.r).value);
    }
  }

  /** What pass 2 accepts pass 1 computes too. */
  lemma JoinSame(q: Rules, e: Expr, a: Val, b: Val)
    requires e.Plus? || e.Minus? || e.Abs?
    ensures Join(q, 2, e, a, b).Some? ==> Join(q, 1, e, a, b) == Join(q, 2, e, a, b)
  {
    hide Repr;
  }

  // ---- the same room in both passes ----

  /** The passes stand at the same place. */
  predicate Level(a: State, b: State) {
    a.loc == b.loc && a.sec == b.sec
  }

  /** The statement wrote to its section and did nothing else. */
  predicate OnlyWrote(s: State, o: Outcome) {
    o.Going? ==> o.s.env == s.env && o.s.sec == s.sec
  }

  /** Operands differ between the passes only in the values of their expressions. */
  lemma {:induction false} OperandsAlike(q: Rules, a: State, b: State, ops: seq<Opnd>)
    requires Ready(a) && Ready(b)
    ensures var x, y := Operands(q, 1, a, ops), Operands(q, 2, b, ops);
      x.Some? && y.Some? ==> ArgsAlike(x.value, y.value)
  {
    hide Eval, Repr;
    if ops == [] {
    } else {
      OperandsAlike(q, a, b, ops[1..]);
    }
  }

  lemma WholeSize(pass: nat, sec: nat, at: nat, c: Coded)
    ensures Whole(pass, sec, at, c).Some? ==> |Whole(pass, sec, at, c).value.bytes| == |c.head| + Width(c.field)
  {
    hide Fill;
    FillSize(pass, sec, at + |c.head|, c.field);
  }

  lemma InstrLevel(q: Rules, a: State, b: State, i: Ins, ops: seq<Opnd>)
    requires Ready(a) && Ready(b) && Level(a, b)
    ensures var o, p := InstrStep(q, 1, a, i, ops), InstrStep(q, 2, b, i, ops);
      OnlyWrote(a, o) && OnlyWrote(b, p) && (o.Going? && p.Going? ==> Level(o.s, p.s))
  {
    hide Operands, Code, Whole, ArgsAlike;
    OperandsAlike(q, a, b, ops);
    var x, y := Operands(q, 1, a, ops), Operands(q, 2, b, ops);
    if x.Some? && y.Some? {
      CodeAlike(i, x.value, y.value);
      var c, d := Code(i, x.value), Code(i, y.value);
      if c.Some? && d.Some? {
        WholeSize(1, a.sec, a.loc[a.sec], c.value);
        WholeSize(2, b.sec, b.loc[b.sec], d.value);
      }
    }
  }

  lemma ItemLevel(q: Rules, a: State, b: State, size: Size, x: Item)
    requires Ready(a) && Ready(b) && Level(a, b)
    ensures var o, p := ItemStep(q, 1, a, size, x), ItemStep(q, 2, b, size, x);
      OnlyWrote(a, o) && OnlyWrote(b, p) && (o.Going? && p.Going? ==> Level(o.s, p.s))
  {
    hide Eval, Fill;
    if x.Value? {
      var v, w := Eval(q, 1, a, x.e), Eval(q, 2, b, x.e);
      if v.Some? && w.Some? {
        FillSize(1, a.sec, a.loc[a.sec], FieldOf(size, v.value));
        FillSize(2, b.sec, b.loc[b.sec], FieldOf(size, w.value));
      }
    }
  }

  lemma {:induction false} ItemsLevel(q: Rules, a: State, b: State, size: Size, xs: seq<Item>)
    requires Ready(a) && Ready(b) && Level(a, b)
    ensures var o, p := ItemsStep(q, 1, a, size, xs), ItemsStep(q, 2, b, size, xs);
      o.Going? && p.Going? ==> Level(o.s, p.s)
    decreases |xs|
  {
    hide ItemStep;
    if xs == [] {
    } else {
      var o, p := ItemStep(q, 1, a, size, xs[0]), ItemStep(q, 2, b, size, xs[0]);
      ItemLevel(q, a, b, size, xs[0]);
      if o.Going? && p.Going? {
        ItemsLevel(q, o.s, p.s, size, xs[1..]);
      }
    }
  }

  /** Instructions and data: whatever their operands are worth in each pass, they take the same room. */
  lemma EmitSame(q: Rules, a: State, b: State, t: Stmt)
    requires Ready(a) && Ready(b) && Level(a, b) && (t.Instr? || t.Data? || t.Ascii?)
    requires Step(q, 1, a, t).Going? && Step(q, 2, b, t).Going?
    ensures Level(Step(q, 1, a, t).s, Step(q, 2, b, t).s)
  {
    hide InstrStep, ItemsStep;
    match t
    case Instr(i, ops) => InstrLevel(q, a, b, i, ops);
    case Data(size, items) => ItemsLevel(q, a, b, size, items);
    case Ascii(_, _) =>
  }

  /** A gap whose size is settled is the same in both. */
  lemma GapSame(q: Rules, a: State, b: State, known: set<string>, t: Stmt)
    requires Ready(a) && Ready(b) && Same(a, b, known) && (t.Space? || t.Align?)
    requires Names(if t.Space? then t.count else t.to) <= known
    requires Step(q, 1, a, t).Going? && Step(q, 2, b, t).Going?
    ensures Level(Step(q, 1, a, t).s, Step(q, 2, b, t).s)
  {
    hide Eval, Names, Gap, PowerOf2;
    EvalSame(q, a, b, known, if t.Space? then t.count else t.to);
  }

  /** What a statement does to the symbols and the section. */
  lemma StepEnv(q: Rules, pass: nat, s: State, t: Stmt)
    requires Ready(s) && Step(q, pass, s, t).Going?
    ensures var u := Step(q, pass, s, t).s;
      && (t.Instr? || t.Data? || t.Ascii? || t.Space? || t.Align? ==> u.env == s.env && u.sec == s.sec)
      && (t.Label? || t.Equ? ==> u.loc == s.loc && u.sec == s.sec)
      && (t.Section? ==> u.loc == s.loc && u.env == s.env && u.sec == t.sec)
      && (t.Label? && pass == 1 ==> t.name !in s.env && u.env == s.env[t.name := Sym(Repr(s.loc[s.sec]), s.sec, -1)])
      && (t.Label? && pass != 1 ==> u.env == s.env)
      && (t.Equ? ==> (pass == 1 ==> t.name !in s.env) && Eval(q, pass, s, t.value).Some?
                     && var v := Eval(q, pass, s, t.value).value; u.env == s.env[t.name := Sym(v.v, 4, v.s)])
  {
    hide Eval, ItemsStep, Operands, Code, Whole, PowerOf2, Gap;
    if t.Data? {
      ItemsEnv(q, pass, s, t.size, t.items);
    }
  }

  lemma {:induction false} ItemsEnv(q: Rules, pass: nat, s: State, size: Size, xs: seq<Item>)
    requires Ready(s)
    ensures OnlyWrote(s, ItemsStep(q, pass, s, size, xs))
    decreases |xs|
  {
    hide Eval, Fill;
    if xs != [] && ItemStep(q, pass, s, size, xs[0]).Going? {
      ItemsEnv(q, pass, ItemStep(q, pass, s, size, xs[0]).s, size, xs[1..]);
    }
  }

  /** Names the rest of the program defines. */
  function Defines(prog: seq<Stmt>): set<string> {
    if prog == [] then {}
    else (match prog[0] case Label(n) => {n} case Equ(n, _) => {n} case _ => {}) + Defines(prog[1..])
  }

  /** Pass 1 defines every name once: what is defined stays as it is. */
  lemma {:induction false} Defined(q: Rules, s: State, prog: seq<Stmt>)
    requires Ready(s) && Run(q, 1, s, prog).Going?
    ensures var t := Run(q, 1, s, prog).s;
      && (forall n :: n in s.env ==> n in t.env && t.env[n] == s.env[n] && n !in Defines(prog))
      && (forall n :: n in Defines(prog) ==> n in t.env)
    decreases |prog|
  {
    hide Eval, Step;
    if prog == [] {
    } else {
      StepEnv(q, 1, s, prog[0]);
      Defined(q, Step(q, 1, s, prog[0]).s, prog[1..]);
    }
  }

  /** The symbols pass 2 works with: settled names as in pass 1, labels still to come as pass 1 left them. */
  ghost predicate Paired(q: Rules, a: State, b: State, known: set<string>, prog: seq<Stmt>) {
    && Ready(a) && Ready(b) && Same(a, b, known)
    && Run(q, 1, a, prog).Going?
    && forall n :: n in LabelsOf(prog) ==> n in b.env && b.env[n] == FinalSym(q, a, prog, n)
  }

  function LabelsOf(prog: seq<Stmt>): set<string> {
    if prog == [] then {} else (if prog[0].Label? then {prog[0].name} else {}) + LabelsOf(prog[1..])
  }

  ghost function FinalSym(q: Rules, a: State, prog: seq<Stmt>, n: string): Sym
    requires Ready(a)
  {
    var o := Run(q, 1, a, prog);
    if o.Going? && n in o.s.env then o.s.env[n] else Sym(0, 0, 0)
  }

  lemma StepPaired(q: Rules, a: State, b: State, known: set<string>, prog: seq<Stmt>)
    requires prog != [] && Paired(q, a, b, known, prog) && InTime(known, prog) && Step(q, 2, b, prog[0]).Going?
    ensures Step(q, 1, a, prog[0]).Going?
    ensures Paired(q, Step(q, 1, a, prog[0]).s, Step(q, 2, b, prog[0]).s, Settle(known, prog[0]), prog[1..])
  {
    hide Eval, Repr, Names, Step, ItemsStep, InstrStep;
    var t := prog[0];
    FirstNotMoved(q, a, b, known, prog);
    var a1, b1 := Step(q, 1, a, t).s, Step(q, 2, b, t).s;
    StepEnv(q, 1, a, t);
    StepEnv(q, 2, b, t);
    Defined(q, a1, prog[1..]);
    Fewer(prog);
    match t
    case Label(name) => assert b.env[name] == FinalSym(q, a, prog, name) == a1.env[name];
    case Space(_, _) => GapSame(q, a, b, known, t);
    case Align(_) => GapSame(q, a, b, known, t);
    case Equ(name, value) =>
      if Names(value) <= known {
        EvalSame(q, a, b, known, value);
      }
      EquKept(q, a, a1, known, prog);
    case Instr(_, _) => EmitSame(q, a, b, t);
    case Data(_, _) => EmitSame(q, a, b, t);
    case Ascii(_, _) => EmitSame(q, a, b, t);
    case Section(_) =>
  }

  lemma Fewer(prog: seq<Stmt>)
    requires prog != []
    ensures LabelsOf(prog[1..]) <= LabelsOf(prog) && LabelsOf(prog[1..]) <= Defines(prog[1..])
      && Defines(prog[1..]) <= Defines(prog)
  {
    LabelsDefine(prog[1..]);
  }

  lemma {:induction false} LabelsDefine(prog: seq<Stmt>)
    ensures LabelsOf(prog) <= Defines(prog)
  {
    if prog == [] {
    } else {
      LabelsDefine(prog[1..]);
    }
  }

  /** A name an .equ defines is neither settled already nor a label still to come. */
  lemma EquKept(q: Rules, a: State, a1: State, known: set<string>, prog: seq<Stmt>)
    requires prog != [] && prog[0].Equ? && Ready(a) && Step(q, 1, a, prog[0]) == Going(a1)
      && Run(q, 1, a1, prog[1..]).Going?
    requires forall n :: n in known ==> n in a.env
    ensures prog[0].name !in known && prog[0].name !in LabelsOf(prog[1..])
  {
    hide Eval, Step;
    StepEnv(q, 1, a, prog[0]);
    Defined(q, a1, prog[1..]);
    LabelsDefine(prog[1..]);
  }

  /** Pass 2 never finds a label moved, and ends, if nothing else stops it, with the same sizes. */
  lemma {:induction false} NeverMoved(q: Rules, a: State, b: State, known: set<string>, prog: seq<Stmt>)
    requires Paired(q, a, b, known, prog) && InTime(known, prog)
    ensures var o := Run(q, 2, b, prog); !o.Moved? && (o.Going? ==> o.s.loc == Run(q, 1, a, prog).s.loc)
    decreases |prog|
  {
    hide Step, Settle;
    if prog == [] {
    } else {
      FirstNotMoved(q, a, b, known, prog);
      if Step(q, 2, b, prog[0]).Going? {
        StepPaired(q, a, b, known, prog);
        NeverMoved(q, Step(q, 1, a, prog[0]).s, Step(q, 2, b, prog[0]).s, Settle(known, prog[0]), prog[1..]);
      }
    }
  }

  lemma OnlyLabelsMove(q: Rules, pass: nat, s: State, t: Stmt)
    requires Ready(s)
    ensures Step(q, pass, s, t).Moved? ==> t.Label? && pass != 1
  {
    hide Eval, ItemsStep, Operands, Code, Whole, PowerOf2, Gap;
    if t.Data? {
      ItemsStay(q, pass, s, t.size, t.items);
    }
  }

  lemma {:induction false} ItemsStay(q: Rules, pass: nat, s: State, size: Size, xs: seq<Item>)
    requires Ready(s)
    ensures !ItemsStep(q, pass, s, size, xs).Moved?
    decreases |xs|
  {
    hide Eval, Fill;
    if xs != [] && ItemStep(q, pass, s, size, xs[0]).Going? {
      ItemsStay(q, pass, ItemStep(q, pass, s, size, xs[0]).s, size, xs[1..]);
    }
  }

  lemma FirstNotMoved(q: Rules, a: State, b: State, known: set<string>, prog: seq<Stmt>)
    requires prog != [] && Paired(q, a, b, known, prog)
    ensures Step(q, 1, a, prog[0]).Going? && !Step(q, 2, b, prog[0]).Moved?
  {
    hide Eval, Repr;
    OnlyLabelsMove(q, 2, b, prog[0]);
    if prog[0].Label? {
      var a1 := Step(q, 1, a, prog[0]).s;
      Defined(q, a1, prog[1..]);
      assert prog[0].name in LabelsOf(prog);
    }
  }

  /** A whole program: pass 1 succeeds, then pass 2 with the symbols it left. */
  lemma PassesAgree(q: Rules, prog: seq<Stmt>)
    requires Run(q, 1, Start(map[]), prog).Going? && InTime({}, prog)
    ensures var one := Run(q, 1, Start(map[]), prog).s; var two := Run(q, 2, Start(one.env), prog);
      !two.Moved? && (two.Going? ==> two.s.loc == one.loc)
  {
    hide Step;
    var a, b := Start(map[]), Start(Run(q, 1, Start(map[]), prog).s.env);
    LabelsDefine(prog);
    Defined(q, a, prog);
    NeverMoved(q, a, b, {}, prog);
  }

  /** The condition is needed: a size that uses a later label moves what follows. */
  lemma ForwardSizeMoves(q: Rules)
    ensures var prog := [Space(Minus(Ref("b"), Ref("a")), None), Label("a"), Data(Dword4, [Value(Num(0))]), Label("b")];
      && Run(q, 1, Start(map[]), prog).Going?
      && Run(q, 2, Start(Run(q, 1, Start(map[]), prog).s.env), prog).Moved?
  {
    hide Run, Step;
    var gap, word := Space(Minus(Ref("b"), Ref("a")), None), Data(Dword4, [Value(Num(0))]);
    var prog := [gap, Label("a"), word, Label("b")];
    assert prog == [gap] + [Label("a"), word, Label("b")];
    assert [Label("a"), word, Label("b")] == [Label("a")] + [word, Label("b")];
    assert [word, Label("b")] == [word] + [Label("b")] && [Label("b")] == [Label("b")] + [];
    var s0 := Start(map[]);
    FirstGap(q, 1, s0, 0);
    RunStep(q, 1, s0, gap, [Label("a"), word, Label("b")]);
    var s2 := s0.(env := map["a" := Sym(0, 1, -1)]);
    assert Step(q, 1, s0, Label("a")) == Going(s2) by { LabelStep(q, s0, "a"); }
    RunStep(q, 1, s0, Label("a"), [word, Label("b")]);
    WordStep(q, s2);
    var s3 := s2.(loc := [0, 4, 0, 0]);
    RunStep(q, 1, s2, word, [Label("b")]);
    LabelStep(q, s3, "b");
    var s4 := s3.(env := map["a" := Sym(0, 1, -1), "b" := Sym(4, 1, -1)]);
    assert s3.env["b" := Sym(4, 1, -1)] == s4.env;
    RunStep(q, 1, s3, Label("b"), []);
    RunNone(q, 1, s4);
    assert Run(q, 1, s0, prog) == Going(s4);
    var t0 := Start(s4.env);
    FirstGap(q, 2, t0, 4);
    RunStep(q, 2, t0, gap, [Label("a"), word, Label("b")]);
    var t1 := Step(q, 2, t0, gap).s;
    LabelMoved(q, t1, "a");
    RunStep(q, 2, t1, Label("a"), [word, Label("b")]);
  }

  lemma RunStep(q: Rules, pass: nat, s: State, t: Stmt, rest: seq<Stmt>)
    requires Ready(s)
    ensures var o := Step(q, pass, s, t); Run(q, pass, s, [t] + rest) == if o.Going? then Run(q, pass, o.s, rest) else o
  {
    hide Step;
    assert ([t] + rest)[1..] == rest;
  }

  lemma RunNone(q: Rules, pass: nat, s: State)
    requires Ready(s)
    ensures Run(q, pass, s, []) == Going(s)
  {
  }

  /** The gap is b - a, which pass 1 takes for 0 and pass 2 knows. */
  lemma FirstGap(q: Rules, pass: nat, s: State, n: nat)
    requires Ready(s) && s.sec == 1 && s.loc == [0, 0, 0, 0] && n <= 4
    requires if pass == 1 then s.env == map[] && n == 0
      else pass == 2 && s.env == map["a" := Sym(0, 1, -1), "b" := Sym(n, 1, -1)]
    ensures var o := Step(q, pass, s, Space(Minus(Ref("b"), Ref("a")), None));
      o.Going? && o.s.env == s.env && o.s.sec == 1 && o.s.loc == [0, n, 0, 0] && (n == 0 && pass == 1 ==> o.s == s)
  {
    assert Eval(q, pass, s, Minus(Ref("b"), Ref("a"))) == Some(Val(n, -1));
  }

  lemma LabelStep(q: Rules, s: State, name: string)
    requires Ready(s) && name !in s.env && s.loc[s.sec] < 5
    ensures Step(q, 1, s, Label(name)) == Going(s.(env := s.env[name := Sym(s.loc[s.sec], s.sec, -1)]))
  {
  }

  lemma LabelMoved(q: Rules, s: State, name: string)
    requires Ready(s) && name in s.env && s.loc[s.sec] < 5 && s.env[name].val != s.loc[s.sec]
    ensures Step(q, 2, s, Label(name)).Moved?
  {
  }

  lemma WordStep(q: Rules, s: State)
    requires Ready(s) && s.sec == 1 && s.loc == [0, 0, 0, 0]
    ensures Step(q, 1, s, Data(Dword4, [Value(Num(0))])) == Going(s.(loc := [0, 4, 0, 0]))
  {
    assert ItemsStep(q, 1, s.(loc := [0, 4, 0, 0]), Dword4, []) == Going(s.(loc := [0, 4, 0, 0]));
  }

  /** run_pass: statement by statement. */
  method RunPass(q: Rules, pass: nat, start: State, prog: seq<Stmt>) returns (o: Outcome)
    requires Ready(start)
    ensures o == Run(q, pass, start, prog)
  {
    hide Step;
    var s, i := start, 0;
    assert prog[0..] == prog;
    while i < |prog|
      invariant i <= |prog| && Ready(s) && Run(q, pass, start, prog) == Run(q, pass, s, prog[i..])
    {
      assert prog[i..][1..] == prog[i + 1..];
      o := Step(q, pass, s, prog[i]);
      if !o.Going? {
        return;
      }
      s, i := o.s, i + 1;
    }
    return Going(s);
  }

  /** The two passes of one assembly: the second, with the symbols the first left, never reports a moved label
      when sizes are known in time, and then writes sections of the lengths the first counted. */
  method Assemble(q: Rules, prog: seq<Stmt>) returns (o: Outcome)
    ensures var one := Run(q, 1, Start(map[]), prog);
      && o == (if one.Going? then Run(q, 2, Start(one.s.env), prog) else one)
      && (InTime({}, prog) ==> !o.Moved?)
      && (InTime({}, prog) && o.Going? ==>
            && one.Going? && o.s.loc == one.s.loc
            && |o.s.out[1]| == one.s.loc[1] && |o.s.out[2]| == one.s.loc[2])
  {
    hide Run, InTime;
    o := RunPass(q, 1, Start(map[]), prog);
    if o.Going? {
      var env := o.s.env;
      o := RunPass(q, 2, Start(env), prog);
      if InTime({}, prog) {
        PassesAgree(q, prog);
        if o.Going? {
          ObjectOk(q, prog, []);
        }
      }
    } else {
      FirstPassFine(q, Start(map[]), prog);
    }
  }

  lemma {:induction false} FirstPassFine(q: Rules, s: State, prog: seq<Stmt>)
    requires Ready(s)
    ensures !Run(q, 1, s, prog).Moved?
    decreases |prog|
  {
    hide Eval;
    if prog != [] {
      OnlyLabelsMove(q, 1, s, prog[0]);
    }
    if prog != [] && Step(q, 1, s, prog[0]).Going? {
      FirstPassFine(q, Step(q, 1, s, prog[0]).s, prog[1..]);
    }
  }

  // ---- what pass 2 writes ----

  /** The object file, for some symbol table. */
  function ObjectOf(s: State, syms: seq<Linker.Sym>): Linker.Obj
    requires Ready(s)
  {
    Linker.Obj(s.out[1], s.out[2], s.loc[3], syms, s.rels)
  }

  predicate InSection(s: State, r: Linker.Rel)
    requires Ready(s)
  {
    1 <= r.sec <= 2 && r.off + Linker.Width(r) <= |s.out[r.sec]|
  }

  /** Text and data hold as many bytes as were counted; relocations lie in them, none over another. */
  ghost predicate Tidy(s: State) {
    && Ready(s) && |s.out[1]| == s.loc[1] && |s.out[2]| == s.loc[2]
    && (forall k :: 0 <= k < |s.rels| ==> InSection(s, s.rels[k]))
    && Linker.RelsApart(ObjectOf(s, []))
  }

  /** A relocation of the chunk lies in its bytes. */
  predicate Fitting(k: Chunk, sec: nat, at: nat) {
    |k.rels| == 0 || (|k.rels| == 1 && k.rels[0].sec == sec && at <= k.rels[0].off
                      && k.rels[0].off + Linker.Width(k.rels[0]) <= at + |k.bytes|)
  }

  lemma PutTidy(s: State, k: Chunk)
    requires Tidy(s) && Fitting(k, s.sec, s.loc[s.sec])
    ensures Put(2, s, k).Going? ==> Tidy(Put(2, s, k).s)
  {
    if Put(2, s, k).Going? && |k.rels| == 1 {
      var t := Put(2, s, k).s;
      assert t.rels[..|s.rels|] == s.rels;
      forall a, b | 0 <= a < b < |t.rels| && t.rels[a].sec == t.rels[b].sec
        ensures t.rels[a].off + Linker.Width(t.rels[a]) <= t.rels[b].off
          || t.rels[b].off + Linker.Width(t.rels[b]) <= t.rels[a].off
      {
        assert InSection(s, s.rels[a]);
      }
    }
  }

  lemma InstrTidy(q: Rules, s: State, i: Ins, ops: seq<Opnd>)
    requires Tidy(s)
    ensures InstrStep(q, 2, s, i, ops).Going? ==> Tidy(InstrStep(q, 2, s, i, ops).s)
  {
    hide Tidy, Put, Operands, Code, Fill;
    TidyReady(s);
    var args := Operands(q, 2, s, ops);
    if args.Some? && Code(i, args.value).Some? {
      var c, at := Code(i, args.value).value, s.loc[s.sec];
      FillSize(2, s.sec, at + |c.head|, c.field);
      if Whole(2, s.sec, at, c).Some? {
        PutTidy(s, Whole(2, s.sec, at, c).value);
      }
    }
  }

  lemma TidyReady(s: State)
    requires Tidy(s)
    ensures Ready(s)
  {
  }

  lemma {:induction false} ItemsTidy(q: Rules, s: State, size: Size, xs: seq<Item>)
    requires Tidy(s)
    ensures ItemsStep(q, 2, s, size, xs).Going? ==> Tidy(ItemsStep(q, 2, s, size, xs).s)
    decreases |xs|
  {
    hide Tidy, Put, Eval, Fill;
    TidyReady(s);
    if xs != [] && ItemStep(q, 2, s, size, xs[0]).Going? {
      var x := xs[0];
      if x.Str? {
        PutTidy(s, Chunk(x.bytes, []));
      } else {
        var v := Eval(q, 2, s, x.e);
        FillSize(2, s.sec, s.loc[s.sec], FieldOf(size, v.value));
        PutTidy(s, Fill(2, s.sec, s.loc[s.sec], FieldOf(size, v.value)).value);
      }
      ItemsTidy(q, ItemStep(q, 2, s, size, x).s, size, xs[1..]);
    }
  }

  lemma SkipTidy(s: State, n: nat, fill: Word)
    requires Tidy(s)
    ensures Skip(2, s, n, fill).Going? ==> Tidy(Skip(2, s, n, fill).s)
  {
    if s.sec != 3 {
      hide Tidy, Put;
      TidyReady(s);
      PutTidy(s, Chunk(seq(n, i => fill % 256), []));
    }
  }

  lemma StepTidy(q: Rules, s: State, t: Stmt)
    requires Tidy(s)
    ensures Step(q, 2, s, t).Going? ==> Tidy(Step(q, 2, s, t).s)
  {
    hide Put, Skip, EvalAbs, Eval, ItemsStep, InstrStep, Gap, PowerOf2;
    match t
    case Instr(i, ops) => InstrTidy(q, s, i, ops);
    case Data(size, items) => ItemsTidy(q, s, size, items);
    case Ascii(b, zero) => PutTidy(s, Chunk(b + if zero then [0] else [], []));
    case Space(count, fill) =>
      var c, f := EvalAbs(q, 2, s, count), if fill.Some? then EvalAbs(q, 2, s, fill.value) else Some(0);
      if c.Some? && f.Some? {
        SkipTidy(s, c.value, f.value);
      }
    case Align(to) =>
      var a := EvalAbs(q, 2, s, to);
      if a.Some? && a.value != 0 {
        SkipTidy(s, Gap(s.loc[s.sec], a.value), 0);
      }
    case Label(_) =>
    case Equ(_, _) =>
    case Section(_) =>
  }

  lemma {:induction false} RunTidy(q: Rules, s: State, prog: seq<Stmt>)
    requires Tidy(s)
    ensures Run(q, 2, s, prog).Going? ==> Tidy(Run(q, 2, s, prog).s)
    decreases |prog|
  {
    hide Tidy, Step;
    TidyReady(s);
    if prog != [] && Step(q, 2, s, prog[0]).Going? {
      StepTidy(q, s, prog[0]);
      RunTidy(q, Step(q, 2, s, prog[0]).s, prog[1..]);
    }
  }

  /** An assembled file: the sections are as long as both passes counted, and its relocations lie in them
      without overlapping, as the linker needs. */
  lemma ObjectOk(q: Rules, prog: seq<Stmt>, syms: seq<Linker.Sym>)
    requires Run(q, 1, Start(map[]), prog).Going? && InTime({}, prog)
    requires Run(q, 2, Start(Run(q, 1, Start(map[]), prog).s.env), prog).Going?
    ensures var one := Run(q, 1, Start(map[]), prog).s;
      var two := Run(q, 2, Start(one.env), prog).s;
      && Ready(one) && Ready(two) && |two.out[1]| == one.loc[1] && |two.out[2]| == one.loc[2]
      && Linker.RelsApart(ObjectOf(two, syms)) && forall k :: 0 <= k < |two.rels| ==> InSection(two, two.rels[k])
  {
    hide Step;
    PassesAgree(q, prog);
    RunTidy(q, Start(Run(q, 1, Start(map[]), prog).s.env), prog);
  }

  /** The elements of a data directive, one after the other. */
  method WriteItems(q: Rules, pass: nat, start: State, size: Size, items: seq<Item>) returns (o: Outcome)
    requires Ready(start)
    ensures o == ItemsStep(q, pass, start, size, items)
  {
    hide ItemStep;
    var s, i := start, 0;
    assert items[0..] == items;
    while i < |items|
      invariant i <= |items| && Ready(s)
      invariant ItemsStep(q, pass, start, size, items) == ItemsStep(q, pass, s, size, items[i..])
    {
      assert items[i..][1..] == items[i + 1..];
      o := ItemStep(q, pass, s, size, items[i]);
      if !o.Going? {
        return;
      }
      s, i := o.s, i + 1;
    }
    return Going(s);
  }
}
