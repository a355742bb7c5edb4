/** The encoders: each appends the bytes of one instruction to the compiler's output. */
module Emitter {
  import opened Sequences
  import opened Words
  import opened X86

  /** What the sized store emits: nothing for a size the processor does not have. */
  function StoreSized(base: Reg, src: Reg, rel: int, size: nat): seq<Instr> {
    if size == 1 || size == 2 || size == 4 then [Instr.Store(size, base, Wrap(rel), src)] else []
  }

  /** What the sized load emits: narrow loads clear the register first. */
  function LoadSized(dst: Reg, base: Reg, rel: int, size: nat): seq<Instr> {
    if size == 4 then [Instr.Load(4, dst, base, Wrap(rel))]
    else if size == 1 || size == 2 then [Alu(Xor, dst, dst), Instr.Load(size, dst, base, Wrap(rel))]
    else []
  }

  lemma {:induction false} LeBytes4(x: u32)
    ensures LeBytes(x, 4) == [x % 0x100, x / 0x100 % 0x100, x / 0x1_0000 % 0x100, x / 0x100_0000 % 0x100]
  {
    assert LeBytes(x, 4) == [x % 256] + LeBytes(x / 256, 3);
    assert LeBytes(x / 256, 3) == [x / 256 % 256] + LeBytes(x / 256 / 256, 2);
    assert LeBytes(x / 256 / 256, 2) == [x / 256 / 256 % 256] + LeBytes(x / 256 / 256 / 256, 1);
    assert LeBytes(x / 256 / 256 / 256, 1) == [x / 256 / 256 / 256 % 256] + LeBytes(x / 256 / 256 / 256 / 256, 0);
    assert x / 256 / 256 == x / 0x1_0000;
    assert x / 256 / 256 / 256 == x / 0x100_0000;
  }

  /** The parts of an encoded instruction; `uses` holds one bit for each optional part:
      ModR/M 1, SIB 2, displacement 4, immediate 8. */
  function Pack(prefix: bool, uses: nat, inst: byte, modrm: byte, sib: byte, disp: u32, imm: u32): seq<byte> {
    var head: seq<byte> := if prefix then [0x66, inst] else [inst];
    var form: seq<byte> := (if uses % 2 == 1 then [modrm] else []) + (if uses / 2 % 2 == 1 then [sib] else []);
    var mem := if uses / 4 % 2 == 1 then form + LeBytes(disp, 4) else form;
    if uses / 8 % 2 == 1 then head + mem + LeBytes(imm, 4) else head + mem
  }

  /** The operand form of the sized moves, with and without the SIB byte. */
  lemma {:induction false} PackMov(size: Size, op8: byte, op32: byte, reg: Reg, base: Reg, disp: u32)
    ensures Pack(size == 2, if base == ESP then 7 else 5, if size == 1 then op8 else op32,
                 0x80 + 8 * reg + base, if base == ESP then 0x24 else 0, disp, 0)
         == SizedOpcode(size, op8, op32) + Indirect(2, reg, base) + LeBytes(disp, 4)
  {
    var form := Indirect(2, reg, base);
    hide LeBytes;
    assert form == if base == ESP then [0x80 + 8 * reg + base, 0x24] else [0x80 + 8 * reg + base];
    Assoc(SizedOpcode(size, op8, op32), form, LeBytes(disp, 4));
  }

  lemma {:induction false} PackStore(size: Size, base: Reg, disp: u32, src: Reg)
    ensures Pack(size == 2, if base == ESP then 7 else 5, if size == 1 then 0x88 else 0x89,
                 0x80 + 8 * src + base, if base == ESP then 0x24 else 0, disp, 0)
         == EncodeAll([Instr.Store(size, base, disp, src)])
  {
    hide Pack, LeBytes, SizedOpcode, Indirect, EncodeAll;
    PackMov(size, 0x88, 0x89, src, base, disp);
    EncodeAllOne(Instr.Store(size, base, disp, src));
  }

  lemma {:induction false} PackLoad(size: Size, base: Reg, disp: u32, dst: Reg)
    ensures Pack(size == 2, if base == ESP then 7 else 5, if size == 1 then 0x8A else 0x8B,
                 0x80 + 8 * dst + base, if base == ESP then 0x24 else 0, disp, 0)
         == Encode(Instr.Load(size, dst, base, disp))
  {
    hide Pack, LeBytes, SizedOpcode, Indirect;
    PackMov(size, 0x8A, 0x8B, dst, base, disp);
  }

  /** The shared output list of the compiler. */
  class CodeBuffer {
    var bytes: seq<byte>

    constructor ()
      ensures bytes == []
    {
      bytes := [];
    }

    method Emit(b: byte)
      modifies this
      ensures bytes == old(bytes) + [b]
    {
      bytes := bytes + [b];
    }

    method Emit32(v: u32)
      modifies this
      ensures bytes == old(bytes) + LeBytes(v, 4)
    {
      LeBytes4(v);
      Emit(v % 0x100);
      Emit(v / 0x100 % 0x100);
      Emit(v / 0x1_0000 % 0x100);
      Emit(v / 0x100_0000 % 0x100);
    }

    method Make32(prefix: bool, uses: nat, inst: byte, modrm: byte, sib: byte, disp: u32, imm: u32)
      modifies this
      ensures bytes == old(bytes) + Pack(prefix, uses, inst, modrm, sib, disp, imm)
    {
      hide LeBytes;
      var start := bytes;
      if prefix { Emit(0x66); }
      Emit(inst);
      ghost var head: seq<byte> := if prefix then [0x66, inst] else [inst];
      assert bytes == start + head;
      if uses % 2 == 1 { Emit(modrm); }
      if uses / 2 % 2 == 1 { Emit(sib); }
      ghost var form: seq<byte> := (if uses % 2 == 1 then [modrm] else []) + (if uses / 2 % 2 == 1 then [sib] else []);
      assert bytes == (start + head) + form;
      Assoc(start, head, form);
      ghost var mem := form;
      if uses / 4 % 2 == 1 {
        Emit32(disp);
        mem := form + LeBytes(disp, 4);
        Assoc(start + head, form, LeBytes(disp, 4));
        Assoc(start, head, mem);
      }
      assert bytes == start + (head + mem);
      if uses / 8 % 2 == 1 {
        Emit32(imm);
        Assoc(start, head + mem, LeBytes(imm, 4));
      }
    }

    /** Overwrites four bytes in place. */
    method Patch32(at: nat, v: u32)
      requires at + 4 <= |bytes|
      modifies this
      ensures bytes == old(bytes)[..at] + LeBytes(v, 4) + old(bytes)[at + 4..]
    {
      bytes := bytes[..at] + LeBytes(v, 4) + bytes[at + 4..];
    }

    method MovReg2Reg32(dst: Reg, src: Reg)
      modifies this
      ensures bytes == old(bytes) + Encode(MovRR(dst, src))
    {
      Make32(false, 1, 0x89, 0xC0 + 8 * src + dst, 0, 0, 0);
    }

    method MovImm2Reg32(dst: Reg, imm: u32)
      modifies this
      ensures bytes == old(bytes) + Encode(MovRI(dst, imm))
    {
      Make32(false, 8, 0xB8 + dst, 0, 0, 0, imm);
      assert bytes == old(bytes) + ([0xB8 + dst] + LeBytes(imm, 4));
    }

    method MovReg2Disp32(dst: Reg, src: Reg, rel: int, size: nat)
      modifies this
      ensures bytes == old(bytes) + EncodeAll(StoreSized(dst, src, rel, size))
    {
      hide Pack, Encode, EncodeAll;
      if size != 1 && size != 2 && size != 4 {
        assert EncodeAll([]) == [] by { EncodeAllNone(); }
        return;
      }
      var opcode: byte := if size == 1 then 0x88 else 0x89;
      var d := Wrap(rel);
      if dst == ESP {
        Make32(size == 2, 1 + 2 + 4, opcode, 0x80 + 8 * src + dst, 0x24, d, 0);
      } else {
        Make32(size == 2, 1 + 4, opcode, 0x80 + 8 * src + dst, 0, d, 0);
      }
      PackStore(size, dst, d, src);
    }

    method MovDisp2Reg32(dst: Reg, src: Reg, rel: int, size: nat)
      modifies this
      ensures bytes == old(bytes) + EncodeAll(LoadSized(dst, src, rel, size))
    {
      hide Pack, Encode, EncodeAll;
      if size != 1 && size != 2 && size != 4 {
        assert EncodeAll([]) == [] by { EncodeAllNone(); }
        return;
      }
      if size != 4 {
        XorReg2Reg32(dst, dst);
      }
      ghost var before := bytes;
      var opcode: byte := if size == 1 then 0x8A else 0x8B;
      var d := Wrap(rel);
      if src == ESP {
        Make32(size == 2, 1 + 2 + 4, opcode, 0x80 + 8 * dst + src, 0x24, d, 0);
      } else {
        Make32(size == 2, 1 + 4, opcode, 0x80 + 8 * dst + src, 0, d, 0);
      }
      PackLoad(size, src, d, dst);
      ghost var load := Instr.Load(size, dst, src, d);
      EncodeAllOne(load);
      EncodeAllTwo(Alu(Xor, dst, dst), load);
      Assoc(old(bytes), Encode(Alu(Xor, dst, dst)), Encode(load));
    }

    method MovMem2Reg32(dst: Reg, src: Reg)
      modifies this
      ensures bytes == old(bytes) + Encode(LoadInd(dst, src))
    {
      if src == ESP {
        Emit(0x8B);
        Emit(8 * dst + src);
        Emit(0x24);
      } else {
        Make32(false, 1, 0x8B, 8 * dst + src, 0, 0, 0);
      }
    }

    method AddReg2Reg32(dst: Reg, src: Reg)
      modifies this
      ensures bytes == old(bytes) + Encode(Alu(Add, dst, src))
    {
      Make32(false, 1, 0x01, 0xC0 + 8 * src + dst, 0, 0, 0);
    }

    method SubReg2Reg32(dst: Reg, src: Reg)
      modifies this
      ensures bytes == old(bytes) + Encode(Alu(Sub, dst, src))
    {
      Make32(false, 1, 0x29, 0xC0 + 8 * src + dst, 0, 0, 0);
    }

    method XorReg2Reg32(dst: Reg, src: Reg)
      modifies this
      ensures bytes == old(bytes) + Encode(Alu(Xor, dst, src))
    {
      Make32(false, 1, 0x31, 0xC0 + 8 * src + dst, 0, 0, 0);
    }

    method OrReg2Reg32(dst: Reg, src: Reg)
      modifies this
      ensures bytes == old(bytes) + Encode(Alu(Or, dst, src))
    {
      Make32(false, 1, 0x09, 0xC0 + 8 * src + dst, 0, 0, 0);
    }

    method AndReg2Reg32(dst: Reg, src: Reg)
      modifies this
      ensures bytes == old(bytes) + Encode(Alu(And, dst, src))
    {
      Make32(false, 1, 0x21, 0xC0 + 8 * src + dst, 0, 0, 0);
    }

    method AddImm2Reg32(reg: Reg, imm: u32)
      modifies this
      ensures bytes == old(bytes) + Encode(AluImm(AddI, reg, imm))
    {
      Make32(false, 1 + 8, 0x81, 0xC0 + reg, 0, 0, imm);
    }

    method IMulReg2Reg32(dst: Reg, src: Reg)
      modifies this
      ensures bytes == old(bytes) + Encode(IMul(dst, src))
    {
      Emit(0x0F);
      Make32(false, 1, 0xAF, 0xC0 + 8 * dst + src, 0, 0, 0);
    }

    method IDivReg32(reg: Reg)
      modifies this
      ensures bytes == old(bytes) + Encode(IDiv(reg))
    {
      Make32(false, 1, 0xF7, 0xF8 + reg, 0, 0, 0);
    }

    method JeImm32(offset: int)
      modifies this
      ensures bytes == old(bytes) + Encode(JumpIf(Equal, Wrap(offset)))
    {
      Emit(0x0F);
      Emit(0x84);
      Emit32(Wrap(offset));
      assert bytes == old(bytes) + ([0x0F, 0x84] + LeBytes(Wrap(offset), 4));
    }

    method JmpImm32(offset: int)
      modifies this
      ensures bytes == old(bytes) + Encode(Jump(Wrap(offset)))
    {
      Emit(0xE9);
      Emit32(Wrap(offset));
      assert bytes == old(bytes) + ([0xE9] + LeBytes(Wrap(offset), 4));
    }

    /** The register in the ModR/M reg field is the left operand of the comparison. */
    method CmpReg2Reg32(r1: Reg, r2: Reg)
      modifies this
      ensures bytes == old(bytes) + Encode(CmpRR(r2, r1))
    {
      Make32(false, 1, 0x3B, 0xC0 + 8 * r2 + r1, 0, 0, 0);
    }

    method CmpImm2Reg32(reg: Reg, imm: u32)
      modifies this
      ensures bytes == old(bytes) + Encode(AluImm(CmpI, reg, imm))
    {
      Make32(false, 1 + 8, 0x81, 0xF8 + reg, 0, 0, imm);
    }

    method CallReg32(reg: Reg)
      modifies this
      ensures bytes == old(bytes) + Encode(CallReg(reg))
    {
      Emit(0xFF);
      Emit(0xD0 + reg);
    }

    /** MOV EBX, 0 and the SETcc on BL that follows every comparison. */
    method SetBl(c: Cond)
      modifies this
      ensures bytes == old(bytes) + Encode(MovRI(EBX, 0)) + Encode(SetCC(c, EBX))
    {
      MovImm2Reg32(EBX, 0);
      Emit(0x0F);
      Emit(match c case Below => 0x92 case NotEqual => 0x95 case Equal => 0x94);
      Emit(0xC3);
    }
  }

  lemma {:induction false} EncodeAllNone()
    ensures EncodeAll([]) == []
  {
  }

  lemma {:induction false} EncodeAllOne(i: Instr)
    ensures EncodeAll([i]) == Encode(i)
  {
    assert EncodeAll([i]) == Encode(i) + EncodeAll([]);
  }

  lemma {:induction false} EncodeAllTwo(i: Instr, j: Instr)
    ensures EncodeAll([i, j]) == Encode(i) + Encode(j)
  {
    assert [i, j][1..] == [j];
    EncodeAllOne(j);
  }
}
