/** What the assembler writes for one instruction or one datum, in either pass: opcode bytes, and a field
    that is a value, a relocation with zeros under it, or in pass 1 just room for one. */
module AsmEncode {
  import opened Wrappers
  import opened Words
  import Linker

  /** A value, and the symbol it is relative to: -1 none, 0 to 2 a section, more an undefined symbol. */
  datatype Val = Val(v: Word, s: int)

  datatype Kind =
    | KN | KLR | KInt | KMov | KAlu16 | KA16 | KRI16 | KLoad | KStore | KLoad32 | KStore32
    | KAlu32 | KR2 | KRA | KRB | KRI | KRel | KAbs | KLd | KSt | KLeaPc | KMfcr | KMtcr

  /** A mnemonic: how it is encoded, its opcode, and its second form's (0 if it has none). */
  datatype Ins = Ins(kind: Kind, op: Byte, op2: Byte)

  type RegNo = r: nat | r < 8
  type CrNo = r: nat | r < 16
  /** 8 is the stack pointer. */
  type BaseNo = r: nat | r <= 8

  const SP: BaseNo := 8

  /** An operand after its expression is evaluated. */
  datatype Arg = RegArg(r: RegNo) | SpArg | CrArg(c: CrNo) | MemArg(base: BaseNo, v: Val) | ExpArg(v: Val)

  /** What follows the opcode bytes. */
  datatype Field = NoField | Val8(v: Val) | Val16(v: Val) | Val32(v: Val) | Disp(v: Val)

  datatype Coded = Coded(head: seq<Byte>, field: Field)

  predicate Regs(args: seq<Arg>) {
    |args| == 2 && args[0].RegArg? && args[1].RegArg?
  }

  predicate RegExp(args: seq<Arg>) {
    |args| == 2 && args[0].RegArg? && args[1].ExpArg?
  }

  predicate OneReg(args: seq<Arg>) {
    |args| == 1 && args[0].RegArg?
  }

  predicate OneExp(args: seq<Arg>) {
    |args| == 1 && args[0].ExpArg?
  }

  predicate RegMem(args: seq<Arg>) {
    |args| == 2 && args[0].RegArg? && args[1].MemArg?
  }

  predicate MemReg(args: seq<Arg>) {
    |args| == 2 && args[0].MemArg? && args[1].RegArg?
  }

  /** Two register numbers in one byte. */
  function Pair(a: CrNo, b: CrNo): Byte {
    a * 16 + b
  }

  /** instr: none is a fatal error. */
  function Code(i: Ins, args: seq<Arg>): Option<Coded> {
    match i.kind
    case KN => if args == [] then Some(Coded([i.op], NoField)) else None
    case KLR => if OneReg(args) then Some(Coded([i.op, args[0].r], NoField)) else None
    case KRB => if OneReg(args) then Some(Coded([i.op, args[0].r], NoField)) else None
    case KRA => if OneReg(args) then Some(Coded([i.op, Pair(args[0].r, 0)], NoField)) else None
    case KInt => if OneExp(args) then Some(Coded([i.op], Val8(args[0].v))) else None
    case KA16 => if OneExp(args) then Some(Coded([i.op], Val16(args[0].v))) else None
    case KRel => if OneExp(args) then Some(Coded([i.op, 0], Disp(args[0].v))) else None
    case KAbs => if OneExp(args) then Some(Coded([i.op, 0], Val32(args[0].v))) else None
    case KMov => if Regs(args) then Some(Coded([i.op, Pair(args[0].r, args[1].r)], NoField)) else None
    case KR2 => if Regs(args) then Some(Coded([i.op, Pair(args[0].r, args[1].r)], NoField)) else None
    case KRI16 => if RegExp(args) then Some(Coded([i.op, args[0].r], Val16(args[1].v))) else None
    case KRI => if RegExp(args) then Some(Coded([i.op, Pair(args[0].r, 0)], Val32(args[1].v))) else None
    case KLeaPc => if RegExp(args) then Some(Coded([i.op, Pair(args[0].r, 0)], Disp(args[1].v))) else None
    case KLd => if RegMem(args) then Some(Coded([i.op, Pair(args[0].r, args[1].base)], Val32(args[1].v))) else None
    case KSt => if MemReg(args) then Some(Coded([i.op, Pair(args[1].r, args[0].base)], Val32(args[0].v))) else None
    case KMfcr =>
      if |args| == 2 && args[0].RegArg? && args[1].CrArg? then
        Some(Coded([i.op, Pair(args[0].r, args[1].c)], NoField))
      else None
    case KMtcr =>
      if |args| == 2 && args[0].CrArg? && args[1].RegArg? then
        Some(Coded([i.op, Pair(args[0].c, args[1].r)], NoField))
      else None
    case KAlu16 =>
      if Regs(args) then Some(Coded([i.op2, Pair(args[0].r, args[1].r)], NoField))
      else if RegExp(args) then Some(Coded([i.op, args[0].r], Val16(args[1].v)))
      else None
    case KAlu32 =>
      if Regs(args) then if i.op2 == 0 then None else Some(Coded([i.op2, Pair(args[0].r, args[1].r)], NoField))
      else if RegExp(args) then Some(Coded([i.op, args[0].r], Val32(args[1].v)))
      else None
    case _ => Legacy(i, args)
  }

  /** LOAD, LOAD32, STORE and STORE32: a base register other than the stack pointer, or an address. */
  function Legacy(i: Ins, args: seq<Arg>): Option<Coded> {
    var load, wide := i.kind.KLoad? || i.kind.KLoad32?, i.kind.KLoad32? || i.kind.KStore32?;
    if load && RegMem(args) then
      if args[1].base == SP then None else Some(Coded([i.op2, Pair(args[0].r, args[1].base)], Val16(args[1].v)))
    else if !load && MemReg(args) then
      if args[0].base == SP then None else Some(Coded([i.op2, Pair(args[0].base, args[1].r)], Val16(args[0].v)))
    else if RegExp(args) then Some(Coded([i.op, args[0].r], if wide then Val32(args[1].v) else Val16(args[1].v)))
    else None
  }

  // ---- fields ----

  datatype Chunk = Chunk(bytes: seq<Byte>, rels: seq<Linker.Rel>)

  function Little(v: nat, n: nat): (b: seq<Byte>)
    ensures |b| == n
  {
    if n == 0 then [] else [v % 256] + Little(v / 256, n - 1)
  }

  function Zeros(n: nat): (b: seq<Byte>)
    ensures |b| == n
  {
    seq(n, i => 0)
  }

  function Width(f: Field): nat {
    match f
    case NoField => 0
    case Val8(_) => 1
    case Val16(_) => 2
    case _ => 4
  }

  /** val16 and val32: a relocation over zeros if the value is relative to a symbol. */
  function Reloc(pass: nat, sec: nat, at: nat, k: Linker.Kind, v: Val, n: nat): Chunk {
    if v.s >= 0 && pass == 2 then Chunk(Zeros(n), [Linker.Rel(at, sec, k, v.s, v.v)]) else Chunk(Little(v.v, n), [])
  }

  /** val8, val16, val32 and rel32 at offset at of section sec. */
  function Fill(pass: nat, sec: nat, at: nat, f: Field): Option<Chunk> {
    match f
    case NoField => Some(Chunk([], []))
    case Val8(v) => if v.s >= 0 && pass == 2 then None else Some(Chunk(Little(v.v, 1), []))
    case Val16(v) => Some(Reloc(pass, sec, at, Linker.Abs16, v, 2))
    case Val32(v) => Some(Reloc(pass, sec, at, Linker.Abs32, v, 4))
    case Disp(v) =>
      if pass == 1 then Some(Chunk(Zeros(4), []))
      else if v.s == sec - 1 then Some(Chunk(Little(Linker.Direct(v.v, at), 4), []))
      else if v.s < 0 then None
      else Some(Chunk(Zeros(4), [Linker.Rel(at, sec, Linker.Rel32, v.s, v.v)]))
  }

  function Whole(pass: nat, sec: nat, at: nat, c: Coded): Option<Chunk> {
    match Fill(pass, sec, at + |c.head|, c.field)
    case None => None
    case Some(k) => Some(Chunk(c.head + k.bytes, k.rels))
  }

  /** Whatever the pass and the values, a field takes the room of its kind, and a relocation lies in it. */
  lemma FillSize(pass: nat, sec: nat, at: nat, f: Field)
    ensures Fill(pass, sec, at, f).Some? ==>
      var k := Fill(pass, sec, at, f).value;
      && |k.bytes| == Width(f) && |k.rels| <= 1
      && (|k.rels| == 1 ==> k.rels[0].off == at && k.rels[0].sec == sec && Linker.Width(k.rels[0]) == Width(f))
  {
    hide Little;
  }

  // ---- the values of operands do not matter to the size ----

  /** The same operand but for the value of its expression. */
  predicate ArgAlike(a: Arg, b: Arg) {
    match a
    case MemArg(base, _) => b.MemArg? && b.base == base
    case ExpArg(_) => b.ExpArg?
    case _ => b == a
  }

  predicate ArgsAlike(a: seq<Arg>, b: seq<Arg>) {
    |a| == |b| && forall i :: 0 <= i < |a| ==> ArgAlike(a[i], b[i])
  }

  lemma CodeAlike(i: Ins, a: seq<Arg>, b: seq<Arg>)
    requires ArgsAlike(a, b)
    ensures Code(i, a).Some? <==> Code(i, b).Some?
    ensures Code(i, a).Some? ==>
      Code(i, b).value.head == Code(i, a).value.head && Width(Code(i, b).value.field) == Width(Code(i, a).value.field)
  {
    hide Pair;
    if |a| > 0 {
      assert ArgAlike(a[0], b[0]);
    }
    if |a| > 1 {
      assert ArgAlike(a[1], b[1]);
    }
  }
}
