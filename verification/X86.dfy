/** The subset of the 32-bit instruction set that the compiler emits: instructions, their
    encodings, and a decoder for the ModR/M and SIB forms of section 2.1 of the Intel
    Software Developer's Manual, Volume 2. */
module X86 {
  import opened Sequences
  import opened Words

  type Reg = x: int | 0 <= x < 8

  const EAX: Reg := 0
  const ECX: Reg := 1
  const EDX: Reg := 2
  const EBX: Reg := 3
  const ESP: Reg := 4
  const EBP: Reg := 5
  const ESI: Reg := 6
  const EDI: Reg := 7

  datatype AluOp = Add | Or | And | Sub | Xor
  datatype ImmOp = AddI | SubI | CmpI
  datatype Cond = Below | Equal | NotEqual

  /** Operand sizes in bytes. */
  type Size = x: int | x == 1 || x == 2 || x == 4 witness 4

  datatype Instr =
    | MovRR(dst: Reg, src: Reg)
    | MovRI(dst: Reg, imm: u32)
    | Store(size: Size, base: Reg, disp: u32, src: Reg)
    | Load(size: Size, dst: Reg, base: Reg, disp: u32)
    | LoadInd(dst: Reg, base: Reg)
    | LoadAbs(dst: Reg, addr: u32)
    | Alu(op: AluOp, dst: Reg, src: Reg)
    | AluImm(iop: ImmOp, dst: Reg, imm: u32)
    | CmpRR(left: Reg, right: Reg)
    | IMul(dst: Reg, src: Reg)
    | IDiv(src: Reg)
    | SetCC(cond: Cond, dst: Reg)
    | JumpIf(cond: Cond, offset: u32)
    | Jump(offset: u32)
    | Push(src: Reg)
    | Pop(dst: Reg)
    | CallReg(src: Reg)
    | Ret

  // ----- encoding -----

  function ModRM(mode: int, reg: Reg, rm: Reg): byte
    requires 0 <= mode < 4
  {
    64 * mode + 8 * reg + rm
  }

  function AluOpcode(op: AluOp): byte {
    match op case Add => 0x01 case Or => 0x09 case And => 0x21 case Sub => 0x29 case Xor => 0x31
  }

  function ImmExtension(op: ImmOp): Reg {
    match op case AddI => 0 case SubI => 5 case CmpI => 7
  }

  function CondCode(c: Cond): byte {
    match c case Below => 2 case Equal => 4 case NotEqual => 5
  }

  /** ModR/M and, when the base is ESP, the SIB byte that selects it without an index. */
  function Indirect(mode: int, reg: Reg, base: Reg): (s: seq<byte>)
    requires 0 <= mode < 4
  {
    if base == ESP then [ModRM(mode, reg, base), 0x24] else [ModRM(mode, reg, base)]
  }

  function SizedOpcode(size: Size, op8: byte, op32: byte): seq<byte> {
    if size == 1 then [op8] else if size == 2 then [0x66, op32] else [op32]
  }

  function Encode(i: Instr): (s: seq<byte>)
    ensures 1 <= |s| <= 8
  {
    match i
    case MovRR(d, s) => [0x89, ModRM(3, s, d)]
    case MovRI(d, v) => [0xB8 + d] + LeBytes(v, 4)
    case Store(n, b, disp, s) => SizedOpcode(n, 0x88, 0x89) + Indirect(2, s, b) + LeBytes(disp, 4)
    case Load(n, d, b, disp) => SizedOpcode(n, 0x8A, 0x8B) + Indirect(2, d, b) + LeBytes(disp, 4)
    case LoadInd(d, b) => [0x8B] + Indirect(0, d, b)
    case LoadAbs(d, a) => [0x8B, ModRM(0, d, EBP)] + LeBytes(a, 4)
    case Alu(op, d, s) => [AluOpcode(op), ModRM(3, s, d)]
    case AluImm(op, d, v) => [0x81, ModRM(3, ImmExtension(op), d)] + LeBytes(v, 4)
    case CmpRR(l, r) => [0x3B, ModRM(3, l, r)]
    case IMul(d, s) => [0x0F, 0xAF, ModRM(3, d, s)]
    case IDiv(s) => [0xF7, ModRM(3, 7, s)]
    case SetCC(c, d) => [0x0F, 0x90 + CondCode(c), ModRM(3, 0, d)]
    case JumpIf(c, off) => [0x0F, 0x80 + CondCode(c)] + LeBytes(off, 4)
    case Jump(off) => [0xE9] + LeBytes(off, 4)
    case Push(s) => [0x50 + s]
    case Pop(d) => [0x58 + d]
    case CallReg(s) => [0xFF, ModRM(3, 2, s)]
    case Ret => [0xC3]
  }

  function EncodeAll(ins: seq<Instr>): seq<byte> {
    if ins == [] then [] else Encode(ins[0]) + EncodeAll(ins[1..])
  }

  /** The bytes of the instructions, as chapters 3 and 4 of the manual's volume 2 give them: first
      those that name registers alone. */
  lemma {:induction false} RegisterOpcodes(d: Reg, s: Reg)
    ensures Encode(MovRR(d, s)) == [0x89, 0xC0 + 8 * s + d] && Encode(CmpRR(d, s)) == [0x3B, 0xC0 + 8 * d + s]
    ensures Encode(Alu(Add, d, s)) == [0x01, 0xC0 + 8 * s + d] && Encode(Alu(Or, d, s)) == [0x09, 0xC0 + 8 * s + d]
    ensures Encode(Alu(And, d, s)) == [0x21, 0xC0 + 8 * s + d] && Encode(Alu(Sub, d, s)) == [0x29, 0xC0 + 8 * s + d]
    ensures Encode(Alu(Xor, d, s)) == [0x31, 0xC0 + 8 * s + d]
    ensures Encode(IMul(d, s)) == [0x0F, 0xAF, 0xC0 + 8 * d + s] && Encode(IDiv(s)) == [0xF7, 0xF8 + s]
  {
  }

  lemma {:induction false} PlainOpcodes(r: Reg)
    ensures Encode(SetCC(Below, r)) == [0x0F, 0x92, 0xC0 + r] && Encode(SetCC(Equal, r)) == [0x0F, 0x94, 0xC0 + r]
    ensures Encode(SetCC(NotEqual, r)) == [0x0F, 0x95, 0xC0 + r] && Encode(CallReg(r)) == [0xFF, 0xD0 + r]
    ensures Encode(Push(r)) == [0x50 + r] && Encode(Pop(r)) == [0x58 + r] && Encode(Ret) == [0xC3]
  {
  }

  /** Those with four bytes of immediate or offset, the lowest first. */
  lemma {:induction false} ImmediateOpcodes(d: Reg, b0: byte, b1: byte, b2: byte, b3: byte)
    ensures var v: u32 := b0 + 0x100 * b1 + 0x1_0000 * b2 + 0x100_0000 * b3;
            && Encode(MovRI(d, v)) == [0xB8 + d, b0, b1, b2, b3]
            && Encode(AluImm(AddI, d, v)) == [0x81, 0xC0 + d, b0, b1, b2, b3]
            && Encode(AluImm(SubI, d, v)) == [0x81, 0xE8 + d, b0, b1, b2, b3]
            && Encode(AluImm(CmpI, d, v)) == [0x81, 0xF8 + d, b0, b1, b2, b3]
  {
    ImmBytes(b0, b1, b2, b3);
    hide LeBytes;
  }

  lemma {:induction false} JumpOpcodes(b0: byte, b1: byte, b2: byte, b3: byte)
    ensures var v: u32 := b0 + 0x100 * b1 + 0x1_0000 * b2 + 0x100_0000 * b3;
            && Encode(JumpIf(Below, v)) == [0x0F, 0x82, b0, b1, b2, b3]
            && Encode(JumpIf(Equal, v)) == [0x0F, 0x84, b0, b1, b2, b3]
            && Encode(JumpIf(NotEqual, v)) == [0x0F, 0x85, b0, b1, b2, b3]
            && Encode(Jump(v)) == [0xE9, b0, b1, b2, b3]
  {
    ImmBytes(b0, b1, b2, b3);
    hide LeBytes;
  }

  /** The moves between registers and memory; base ESP needs a SIB byte. */
  lemma {:induction false} StoreOpcodes(r: Reg, b: Reg, v: u32)
    ensures var mem := if b == 4 then [0x84 + 8 * r, 0x24] + LeBytes(v, 4) else [0x80 + 8 * r + b] + LeBytes(v, 4);
            && Encode(Store(1, b, v, r)) == [0x88] + mem
            && Encode(Store(2, b, v, r)) == [0x66, 0x89] + mem
            && Encode(Store(4, b, v, r)) == [0x89] + mem
  {
    hide LeBytes;
    IndirectIs(r, b);
    hide Indirect;
    Assoc([0x66, 0x89], Indirect(2, r, b), LeBytes(v, 4));
  }

  lemma {:induction false} LoadOpcodes(r: Reg, b: Reg, v: u32)
    ensures var mem := if b == 4 then [0x84 + 8 * r, 0x24] + LeBytes(v, 4) else [0x80 + 8 * r + b] + LeBytes(v, 4);
            && Encode(Load(1, r, b, v)) == [0x8A] + mem
            && Encode(Load(2, r, b, v)) == [0x66, 0x8B] + mem
            && Encode(Load(4, r, b, v)) == [0x8B] + mem
    ensures Encode(LoadInd(r, b)) == if b == 4 then [0x8B, 4 + 8 * r, 0x24] else [0x8B, 8 * r + b]
  {
    hide LeBytes;
    IndirectIs(r, b);
    hide Indirect;
    Assoc([0x66, 0x8B], Indirect(2, r, b), LeBytes(v, 4));
  }

  lemma {:induction false} IndirectIs(r: Reg, b: Reg)
    ensures Indirect(2, r, b) == if b == 4 then [0x84 + 8 * r, 0x24] else [0x80 + 8 * r + b]
    ensures Indirect(0, r, b) == if b == 4 then [4 + 8 * r, 0x24] else [8 * r + b]
  {
  }

  lemma {:induction false} ImmBytes(b0: byte, b1: byte, b2: byte, b3: byte)
    ensures LeBytes(b0 + 0x100 * b1 + 0x1_0000 * b2 + 0x100_0000 * b3, 4) == [b0, b1, b2, b3]
  {
    var t: nat := b3;
    var u: nat := b2 + 0x100 * t;
    var v: nat := b1 + 0x100 * u;
    var w: nat := b0 + 0x100 * v;
    assert LeBytes(t, 1) == [b3] + LeBytes(0, 0);
    assert u / 256 == t && u % 256 == b2 && LeBytes(u, 2) == [b2] + LeBytes(t, 1);
    assert v / 256 == u && v % 256 == b1 && LeBytes(v, 3) == [b1] + LeBytes(u, 2);
    assert w / 256 == v && w % 256 == b0 && LeBytes(w, 4) == [b0] + LeBytes(v, 3);
    assert w == b0 + 0x100 * b1 + 0x1_0000 * b2 + 0x100_0000 * b3;
  }

  // ----- decoding -----

  datatype Decoded = Bad | Got(instr: Instr, len: nat)

  function Mode(m: byte): int { m / 64 }
  function RegField(m: byte): Reg { m / 8 % 8 }
  function RmField(m: byte): Reg { m % 8 }

  lemma {:induction false} Fields(mode: int, reg: Reg, rm: Reg)
    requires 0 <= mode < 4
    ensures Mode(ModRM(mode, reg, rm)) == mode
    ensures RegField(ModRM(mode, reg, rm)) == reg
    ensures RmField(ModRM(mode, reg, rm)) == rm
  {
    var m := ModRM(mode, reg, rm);
    assert m / 8 == 8 * mode + reg;
  }

  function Imm32(b: seq<byte>): u32
    requires |b| >= 4
  {
    LeValueBound(b[..4]);
    Pow256Values();
    LeValue(b[..4])
  }

  datatype MemForm = NoForm | Form(reg: Reg, base: Reg, disp: u32, len: nat)

  /** A memory operand with a base: mode 0 (no displacement; EBP in the place of the base means an
      absolute address instead) or mode 2 (32-bit displacement), base ESP through SIB 0x24. */
  function DecodeMem(b: seq<byte>): MemForm {
    if |b| == 0 then NoForm
    else
      var m := b[0];
      var n := if RmField(m) == ESP then 2 else 1;
      if n == 2 && (|b| < 2 || b[1] != 0x24) then NoForm
      else if Mode(m) == 0 && RmField(m) != EBP then Form(RegField(m), RmField(m), 0, n)
      else if Mode(m) == 2 && |b| >= n + 4 then
        Form(RegField(m), RmField(m), Imm32(b[n..]), n + 4)
      else NoForm
  }

  /** MOV between a register and memory: opcode byte first. */
  function DecodeMov(size: Size, load: bool, b: seq<byte>): Decoded {
    var f := DecodeMem(b);
    if f.NoForm? then Bad
    else if b != [] && Mode(b[0]) == 0 then
      (if load && size == 4 then Got(LoadInd(f.reg, f.base), 1 + f.len) else Bad)
    else if load then Got(Load(size, f.reg, f.base, f.disp), 1 + f.len)
    else Got(Store(size, f.base, f.disp, f.reg), 1 + f.len)
  }

  function DecodeCond(c: int): (r: seq<Cond>) {
    if c == 2 then [Below] else if c == 4 then [Equal] else if c == 5 then [NotEqual] else []
  }

  /** Instructions whose first byte is 0x0F. */
  function DecodeTwoByte(b: seq<byte>): Decoded
    requires |b| >= 1
  {
    if |b| < 3 then Bad
    else if b[1] == 0xAF then
      (if Mode(b[2]) == 3 then Got(IMul(RegField(b[2]), RmField(b[2])), 3) else Bad)
    else if 0x90 <= b[1] < 0xA0 && DecodeCond(b[1] - 0x90) != [] then
      (if Mode(b[2]) == 3 && RegField(b[2]) == 0 then Got(SetCC(DecodeCond(b[1] - 0x90)[0], RmField(b[2])), 3) else Bad)
    else if 0x80 <= b[1] < 0x90 && DecodeCond(b[1] - 0x80) != [] then
      (if |b| >= 6 then Got(JumpIf(DecodeCond(b[1] - 0x80)[0], Imm32(b[2..])), 6) else Bad)
    else Bad
  }

  /** Instructions with a register-direct ModR/M byte after a one-byte opcode. */
  function DecodeDirect(b: seq<byte>): Decoded
    requires |b| >= 2 && Mode(b[1]) == 3
  {
    var reg, rm := RegField(b[1]), RmField(b[1]);
    if b[0] == 0x01 then Got(Alu(Add, rm, reg), 2)
    else if b[0] == 0x09 then Got(Alu(Or, rm, reg), 2)
    else if b[0] == 0x21 then Got(Alu(And, rm, reg), 2)
    else if b[0] == 0x29 then Got(Alu(Sub, rm, reg), 2)
    else if b[0] == 0x31 then Got(Alu(Xor, rm, reg), 2)
    else if b[0] == 0x3B then Got(CmpRR(reg, rm), 2)
    else if b[0] == 0x89 then Got(MovRR(rm, reg), 2)
    else if b[0] == 0xF7 && reg == 7 then Got(IDiv(rm), 2)
    else if b[0] == 0xFF && reg == 2 then Got(CallReg(rm), 2)
    else if b[0] == 0x81 && |b| >= 6 then
      (if reg == 0 then Got(AluImm(AddI, rm, Imm32(b[2..])), 6)
       else if reg == 5 then Got(AluImm(SubI, rm, Imm32(b[2..])), 6)
       else if reg == 7 then Got(AluImm(CmpI, rm, Imm32(b[2..])), 6)
       else Bad)
    else Bad
  }

  /** The first instruction of a byte string. */
  function Decode(b: seq<byte>): (r: Decoded) {
    if |b| == 0 then Bad
    else if b[0] == 0xC3 then Got(Ret, 1)
    else if 0x50 <= b[0] < 0x58 then Got(Push(b[0] - 0x50), 1)
    else if 0x58 <= b[0] < 0x60 then Got(Pop(b[0] - 0x58), 1)
    else if 0xB8 <= b[0] < 0xC0 then
      (if |b| >= 5 then Got(MovRI(b[0] - 0xB8, Imm32(b[1..])), 5) else Bad)
    else if b[0] == 0xE9 then
      (if |b| >= 5 then Got(Jump(Imm32(b[1..])), 5) else Bad)
    else if b[0] == 0x0F then DecodeTwoByte(b)
    else if b[0] == 0x66 then
      (if |b| < 2 || (b[1] != 0x89 && b[1] != 0x8B) then Bad
       else
         var r := DecodeMov(2, b[1] == 0x8B, b[2..]);
         if r.Bad? then Bad else Got(r.instr, r.len + 1))
    else if |b| < 2 then Bad
    else if b[0] == 0x88 || b[0] == 0x8A then DecodeMov(1, b[0] == 0x8A, b[1..])
    else if b[0] == 0x8B && Mode(b[1]) == 0 && RmField(b[1]) == EBP then
      (if |b| >= 6 then Got(LoadAbs(RegField(b[1]), Imm32(b[2..])), 6) else Bad)
    else if (b[0] == 0x89 || b[0] == 0x8B) && Mode(b[1]) != 3 then DecodeMov(4, b[0] == 0x8B, b[1..])
    else if Mode(b[1]) == 3 then DecodeDirect(b)
    else Bad
  }

  // ----- round trip -----

  /** Everything but a load through EBP without displacement, which the processor reads as
      an absolute address. */
  predicate Encodable(i: Instr) {
    i.LoadInd? ==> i.base != EBP
  }

  lemma {:induction false} Imm32Of(v: u32, pre: seq<byte>, rest: seq<byte>)
    ensures |pre + LeBytes(v, 4) + rest| >= |pre| + 4
    ensures Imm32((pre + LeBytes(v, 4) + rest)[|pre|..]) == v
  {
    Le32RoundTrip(v);
    assert (pre + LeBytes(v, 4) + rest)[|pre|..][..4] == LeBytes(v, 4);
  }

  lemma {:induction false} DecodeMemOf(reg: Reg, base: Reg, disp: u32, rest: seq<byte>)
    ensures DecodeMem(Indirect(2, reg, base) + LeBytes(disp, 4) + rest)
         == Form(reg, base, disp, |Indirect(2, reg, base)| + 4)
    ensures Mode((Indirect(2, reg, base) + LeBytes(disp, 4) + rest)[0]) == 2
  {
    Fields(2, reg, base);
    Imm32Of(disp, Indirect(2, reg, base), rest);
  }

  lemma {:induction false} DecodeMovOf(size: Size, load: bool, reg: Reg, base: Reg, disp: u32, rest: seq<byte>)
    ensures var tail := Indirect(2, reg, base) + LeBytes(disp, 4) + rest;
            && |tail| > 0 && Mode(tail[0]) == 2
            && DecodeMov(size, load, tail)
               == Got(if load then Load(size, reg, base, disp) else Store(size, base, disp, reg),
                      5 + |Indirect(2, reg, base)|)
  {
    DecodeMemOf(reg, base, disp, rest);
  }

  lemma {:induction false} DecodeOpcode(size: Size, load: bool, tail: seq<byte>)
    requires |tail| > 0 && Mode(tail[0]) == 2
    ensures var op := if load then SizedOpcode(size, 0x8A, 0x8B) else SizedOpcode(size, 0x88, 0x89);
            var r := DecodeMov(size, load, tail);
            Decode(op + tail) == if r.Bad? then Bad else Got(r.instr, r.len + |op| - 1)
  {
    var op := if load then SizedOpcode(size, 0x8A, 0x8B) else SizedOpcode(size, 0x88, 0x89);
    assert (op + tail)[|op|..] == tail;
    assert (op + tail)[|op|] == tail[0];
  }

  lemma {:induction false} DecodeEncodeMov(i: Instr, rest: seq<byte>)
    requires i.Store? || i.Load?
    ensures Decode(Encode(i) + rest) == Got(i, |Encode(i)|)
  {
    var reg := if i.Store? then i.src else i.dst;
    var op := if i.Load? then SizedOpcode(i.size, 0x8A, 0x8B) else SizedOpcode(i.size, 0x88, 0x89);
    var tail := Indirect(2, reg, i.base) + LeBytes(i.disp, 4) + rest;
    DecodeMovOf(i.size, i.Load?, reg, i.base, i.disp, rest);
    DecodeOpcode(i.size, i.Load?, tail);
    hide Decode, DecodeMov, DecodeMem, SizedOpcode, Indirect, LeBytes;
    Assoc(op, Indirect(2, reg, i.base), LeBytes(i.disp, 4));
    Assoc(op, Indirect(2, reg, i.base) + LeBytes(i.disp, 4), rest);
    SizedLength(i);
  }

  lemma {:induction false} SizedLength(i: Instr)
    requires i.Store? || i.Load?
    ensures var reg := if i.Store? then i.src else i.dst;
            |Encode(i)| == |SizedOpcode(i.size, 0x88, 0x89)| + |Indirect(2, reg, i.base)| + 4
  {
  }

  lemma {:induction false} DecodeEncodeImm(i: Instr, rest: seq<byte>)
    requires i.MovRI? || i.AluImm? || i.JumpIf? || i.Jump? || i.LoadAbs?
    ensures Decode(Encode(i) + rest) == Got(i, |Encode(i)|)
  {
    hide LeBytes, Imm32, DecodeMov, ModRM, Mode, RegField, RmField;
    match i
    case MovRI(d, v) =>
      Imm32Of(v, [0xB8 + d], rest);
    case AluImm(op, d, v) =>
      Fields(3, ImmExtension(op), d);
      Imm32Of(v, [0x81, ModRM(3, ImmExtension(op), d)], rest);
    case JumpIf(c, off) =>
      Imm32Of(off, [0x0F, 0x80 + CondCode(c)], rest);
    case Jump(off) =>
      Imm32Of(off, [0xE9], rest);
    case LoadAbs(d, a) =>
      Fields(0, d, EBP);
      Imm32Of(a, [0x8B, ModRM(0, d, EBP)], rest);
  }

  /** One instruction: the decoder gives back the instruction and its exact length. */
  lemma {:induction false} DecodeEncode(i: Instr, rest: seq<byte>)
    requires Encodable(i)
    ensures Decode(Encode(i) + rest) == Got(i, |Encode(i)|)
  {
    if i.Store? || i.Load? {
      DecodeEncodeMov(i, rest);
    } else if i.MovRI? || i.AluImm? || i.JumpIf? || i.Jump? || i.LoadAbs? {
      DecodeEncodeImm(i, rest);
    } else {
      DecodeEncodeShort(i, rest);
    }
  }

  lemma {:induction false} DecodeEncodeShort(i: Instr, rest: seq<byte>)
    requires !i.Store? && !i.Load? && !i.MovRI? && !i.AluImm? && !i.JumpIf? && !i.Jump? && !i.LoadAbs?
    requires Encodable(i)
    ensures Decode(Encode(i) + rest) == Got(i, |Encode(i)|)
  {
    if i.Push? || i.Pop? || i.Ret? {
      DecodeEncodeByte(i, rest);
    } else if i.IMul? || i.SetCC? {
      DecodeEncodeTwoByte(i, rest);
    } else if i.LoadInd? {
      DecodeEncodeLoadInd(i, rest);
    } else if i.Alu? {
      DecodeEncodeAlu(i, rest);
    } else {
      DecodeEncodeDirect(i, rest);
    }
  }

  lemma {:induction false} DecodeEncodeByte(i: Instr, rest: seq<byte>)
    requires i.Push? || i.Pop? || i.Ret?
    ensures Decode(Encode(i) + rest) == Got(i, |Encode(i)|)
  {
  }

  lemma {:induction false} DecodeEncodeTwoByte(i: Instr, rest: seq<byte>)
    requires i.IMul? || i.SetCC?
    ensures Decode(Encode(i) + rest) == Got(i, |Encode(i)|)
  {
    match i
    case IMul(d, s) => Fields(3, d, s);
    case SetCC(_, d) => Fields(3, 0, d);
  }

  lemma {:induction false} DecodeEncodeLoadInd(i: Instr, rest: seq<byte>)
    requires i.LoadInd? && i.base != EBP
    ensures Decode(Encode(i) + rest) == Got(i, |Encode(i)|)
  {
    Fields(0, i.dst, i.base);
    assert (Encode(i) + rest)[1..] == Indirect(0, i.dst, i.base) + rest;
  }

  lemma {:induction false} DecodeEncodeAlu(i: Instr, rest: seq<byte>)
    requires i.Alu?
    ensures Decode(Encode(i) + rest) == Got(i, |Encode(i)|)
  {
    Fields(3, i.src, i.dst);
  }

  lemma {:induction false} DecodeEncodeDirect(i: Instr, rest: seq<byte>)
    requires i.MovRR? || i.CmpRR? || i.IDiv? || i.CallReg?
    ensures Decode(Encode(i) + rest) == Got(i, |Encode(i)|)
  {
    match i
    case MovRR(d, s) => Fields(3, s, d);
    case CmpRR(l, r) => Fields(3, l, r);
    case IDiv(s) => Fields(3, 7, s);
    case CallReg(s) => Fields(3, 2, s);
  }

  /** Linear-sweep decoding of a whole byte string; [] when some byte does not start an instruction. */
  function DecodeAll(b: seq<byte>): seq<Instr>
    decreases |b|
  {
    match Decode(b)
    case Bad => []
    case Got(i, n) => if 1 <= n <= |b| then [i] + DecodeAll(b[n..]) else []
  }

  /** Any sequence of emitted instructions decodes to itself. */
  lemma {:induction false} DecodeEncodeAll(ins: seq<Instr>)
    requires forall i | i in ins :: Encodable(i)
    ensures DecodeAll(EncodeAll(ins)) == ins
  {
    if ins != [] {
      DecodeEncode(ins[0], EncodeAll(ins[1..]));
      DecodeEncodeAll(ins[1..]);
      assert EncodeAll(ins)[|Encode(ins[0])|..] == EncodeAll(ins[1..]);
    }
  }

  /** A load through EBP without displacement is misread: the processor takes the four bytes behind
      it for an absolute address, and goes on six bytes further instead of two. */
  lemma {:induction false} LoadIndEbpIsMisread(dst: Reg, rest: seq<byte>)
    ensures |Encode(LoadInd(dst, EBP))| == 2
    ensures Decode(Encode(LoadInd(dst, EBP)) + rest)
         == if |rest| >= 4 then Got(LoadAbs(dst, Imm32(rest)), 6) else Bad
  {
    Fields(0, dst, EBP);
    var b := Encode(LoadInd(dst, EBP)) + rest;
    assert b[0] == 0x8B && b[1] == ModRM(0, dst, EBP) && b[2..] == rest;
  }

  lemma {:induction false} EncodeAllConcat(a: seq<Instr>, b: seq<Instr>)
    ensures EncodeAll(a + b) == EncodeAll(a) + EncodeAll(b)
  {
    if a == [] {
      assert a + b == b;
    } else {
      var tail := EncodeAll(a[1..]);
      assert EncodeAll(a + b) == Encode(a[0]) + (tail + EncodeAll(b)) by {
        assert (a + b)[0] == a[0] && (a + b)[1..] == a[1..] + b;
        EncodeAllConcat(a[1..], b);
      }
      assert EncodeAll(a) == Encode(a[0]) + tail;
      Assoc(Encode(a[0]), tail, EncodeAll(b));
    }
  }
}
