/** The operands and targets that Source gives no meaning to, on the machine: all registers, `@r` and
    `*x`. What they do is said in terms of registers and memory alone. */
module OperandRun {
  import opened Wrappers
  import opened Words
  import opened X86
  import opened Ram
  import opened Machine
  import opened Emitter
  import opened Tokenizer
  import opened Names
  import opened ExprCompiler
  import opened CompilerSpec
  import Compiler
  import opened Source
  import opened ExprLayout
  import opened ExprRun

  /** Wherever these bytes stand, the processor runs from the first to just behind the last of them. */
  ghost predicate Computes(b: seq<byte>, cpu: Cpu, c: Cpu) {
    forall code: seq<byte>, p: int | Placed(code, p, b) :: Reaches(code, At(p, cpu), At(p + |b|, c))
  }

  lemma {:induction false} StraightComputes(ins: seq<Instr>, cpu: Cpu)
    requires Straight(ins) && ExecAll(ins, cpu).Next?
    ensures Computes(EncodeAll(ins), cpu, ExecAll(ins, cpu).cpu)
  {
    hide ExecAll, Straight, Placed, Reaches, EncodeAll;
    forall code: seq<byte>, p: int | Placed(code, p, EncodeAll(ins))
      ensures Reaches(code, At(p, cpu), At(p + |EncodeAll(ins)|, ExecAll(ins, cpu).cpu))
    {
      RunStraight(code, p, ins, cpu);
    }
  }

  lemma {:induction false} ComputesBoth(a: seq<byte>, b: seq<byte>, cpu: Cpu, c: Cpu, d: Cpu)
    requires Computes(a, cpu, c) && Computes(b, c, d)
    ensures Computes(a + b, cpu, d)
  {
    hide Placed, Reaches;
    forall code: seq<byte>, p: int | Placed(code, p, a + b)
      ensures Reaches(code, At(p, cpu), At(p + |a + b|, d))
    {
      PlacedSplit(code, p, a, b);
      ReachesTrans(code, At(p, cpu), At(p + |a|, c), At(p + |a + b|, d));
    }
  }

  // ----- first operands -----

  /** The variable, read as four bytes whatever its size, holds the address of a byte. */
  predicate PointsTo(cpu: Cpu, v: Variable, a: u32) {
    var slot := cpu.regs[EBP] - v.rel;
    Mapped(cpu.mem, slot, 4) && Fetch32(cpu.mem, slot) in cpu.mem && a == cpu.mem[Fetch32(cpu.mem, slot)]
  }

  /** The word that the register points to. */
  predicate WordAt(cpu: Cpu, r: Reg, a: u32) {
    r != EBP && Mapped(cpu.mem, cpu.regs[r], 4) && a == Fetch32(cpu.mem, cpu.regs[r])
  }

  /** The value of a first operand: a register, the word a register points to, or the byte a
      variable points to. The address of an unknown variable leaves EBX as it is. */
  predicate Opens(o: seq<Token>, vars: seq<Variable>, cpu: Cpu, a: u32) {
    || (|o| == 1 && Register(o[0].text).Some? && a == cpu.regs[Register(o[0].text).value])
    || (|o| == 2 && o[0] == Mark('@') && Register(o[1].text).Some? && WordAt(cpu, Register(o[1].text).value, a))
    || (|o| == 2 && o[0] == Mark('*') && FindVar(vars, o[1].text).Some?
        && PointsTo(cpu, FindVar(vars, o[1].text).value, a))
    || (|o| == 2 && o[0] == Mark('&') && FindVar(vars, o[1].text).None? && a == cpu.regs[EBX])
  }

  lemma {:induction false} CopyRun(dst: Reg, r: Reg, cpu: Cpu)
    ensures var ins := [MovRR(dst, r)];
            && Straight(ins) && ExecAll(ins, cpu).Next?
            && var c := ExecAll(ins, cpu).cpu;
               c.mem == cpu.mem && c.regs == cpu.regs[dst := cpu.regs[r]]
  {
    hide Exec, ExecAll;
    MovExec(dst, r, cpu);
    ExecOne(MovRR(dst, r), cpu);
  }

  lemma {:induction false} PointerRun(dst: Reg, r: Reg, cpu: Cpu, a: u32)
    requires WordAt(cpu, r, a)
    ensures var ins := [LoadInd(dst, r)];
            && Straight(ins) && ExecAll(ins, cpu).Next?
            && var c := ExecAll(ins, cpu).cpu;
               c.mem == cpu.mem && c.regs == cpu.regs[dst := a]
  {
    hide ExecAll, Fetch, Mapped;
    ExecOne(LoadInd(dst, r), cpu);
  }

  function TargetInstrs(v: Variable): seq<Instr> {
    [Instr.Load(4, EDX, EBP, Wrap(-v.rel))] + ([Alu(AluOp.Xor, EBX, EBX)] + [Instr.Load(1, EBX, EDX, 0)])
  }

  lemma {:induction false} TargetRun(v: Variable, cpu: Cpu, a: u32)
    requires PointsTo(cpu, v, a)
    ensures var ins := TargetInstrs(v);
            && Straight(ins) && ExecAll(ins, cpu).Next?
            && var c := ExecAll(ins, cpu).cpu;
               Scratched(cpu, c) && c.regs[EBX] == a
  {
    hide *;
    var load, zero, read := Instr.Load(4, EDX, EBP, Wrap(-v.rel)), Alu(AluOp.Xor, EBX, EBX), Instr.Load(1, EBX, EDX, 0);
    var c1 := AddressLoaded(v, cpu, a);
    var c2 := ByteLoaded(c1, a);
    TargetIs(v);
    ExecCons(load, [zero] + [read], cpu);
    ScratchedTrans(cpu, c1, c2);
  }

  lemma {:induction false} AddressLoaded(v: Variable, cpu: Cpu, a: u32) returns (c: Cpu)
    requires PointsTo(cpu, v, a)
    ensures var load := Instr.Load(4, EDX, EBP, Wrap(-v.rel));
            Encodable(load) && !Control(load) && Exec(load, cpu) == Next(c)
    ensures Scratched(cpu, c) && c.regs[EDX] in c.mem && c.mem[c.regs[EDX]] == a
    ensures c.regs == cpu.regs[EDX := Fetch32(cpu.mem, cpu.regs[EBP] - v.rel)]
  {
    var slot := cpu.regs[EBP] - v.rel;
    var p := Fetch32(cpu.mem, slot);
    AddNegated(cpu.regs[EBP], v.rel);
    NoWrap(cpu.regs[EBP], v.rel);
    Pow256Values();
    hide Exec, Fetch, Mapped, Wrap, Add32, Sub32, SetLow, Pow256;
    LoadExec(4, EDX, EBP, Wrap(-v.rel), cpu);
    SetLowFills(cpu, EDX, 4, p);
    c := SetReg(cpu, EDX, p);
  }

  lemma {:induction false} ByteLoaded(cpu: Cpu, a: u32) returns (c: Cpu)
    requires cpu.regs[EDX] in cpu.mem && cpu.mem[cpu.regs[EDX]] == a
    ensures var ins := [Alu(AluOp.Xor, EBX, EBX)] + [Instr.Load(1, EBX, EDX, 0)];
            Straight(ins) && ExecAll(ins, cpu) == Next(c)
    ensures Scratched(cpu, c) && c.regs[EBX] == a
  {
    var p := cpu.regs[EDX];
    NoWrap(p, 0);
    ByteFetched(cpu.mem, p);
    hide Exec, ExecAll, Fetch, Mapped, Wrap, Add32, BitXor, SetLow, Pow256;
    var zero, read := Alu(AluOp.Xor, EBX, EBX), Instr.Load(1, EBX, EDX, 0);
    AluExec(AluOp.Xor, EBX, EBX, cpu);
    XorSelf(cpu.regs[EBX]);
    var c1 := Exec(zero, cpu).cpu;
    LoadExec(1, EBX, EDX, 0, c1);
    SetLowFills(c1, EBX, 1, a);
    ExecOne(read, c1);
    ExecCons(zero, [read], cpu);
    c := SetReg(c1, EBX, a);
  }

  lemma {:induction false} ByteFetched(m: Memory, p: u32)
    requires p in m
    ensures Mapped(m, p, 1) && Fetch(m, p, 1) == m[p]
  {
    assert Fetch(m, p + 1, 0) == 0;
  }

  lemma {:induction false} TargetCode(v: Variable)
    ensures FormCode(EBX, FromTarget(v)) == EncodeAll(TargetInstrs(v))
  {
    hide *;
    var a, b := [Instr.Load(4, EDX, EBP, Wrap(-v.rel))], [Alu(AluOp.Xor, EBX, EBX)] + [Instr.Load(1, EBX, EDX, 0)];
    TargetIs(v);
    NarrowLoad();
    EncodeAllConcat(a, b);
  }

  lemma {:induction false} TargetIs(v: Variable)
    ensures FormCode(EBX, FromTarget(v))
         == EncodeAll([Instr.Load(4, EDX, EBP, Wrap(-v.rel))]) + EncodeAll(LoadSized(EBX, EDX, 0, 1))
    ensures TargetInstrs(v) == [Instr.Load(4, EDX, EBP, Wrap(-v.rel))]
                               + ([Alu(AluOp.Xor, EBX, EBX)] + [Instr.Load(1, EBX, EDX, 0)])
  {
    hide EncodeAll, Wrap;
  }

  lemma {:induction false} NarrowLoad()
    ensures LoadSized(EBX, EDX, 0, 1) == [Alu(AluOp.Xor, EBX, EBX)] + [Instr.Load(1, EBX, EDX, 0)]
  {
    NoWrap(0, 0);
  }

  /** The code for a first operand leaves its value in EBX. */
  lemma {:induction false} OpenRun(o: seq<Token>, rest: seq<Token>, vars: seq<Variable>, ro: RoData, cpu: Cpu, a: u32)
    returns (ins: seq<Instr>)
    requires Opens(o, vars, cpu, a)
    ensures var form := OperandForm(true, o + rest, vars, ro);
            && o != [] && Width(true, (o + rest)[0]) == |o|
            && !form.NoRegister? && !form.NoVariable? && FormCode(EBX, form) == EncodeAll(ins)
    ensures Straight(ins) && ExecAll(ins, cpu).Next?
    ensures var c := ExecAll(ins, cpu).cpu; Scratched(cpu, c) && c.regs[EBX] == a
  {
    var toks := o + rest;
    assert toks[0] == o[0] && (|o| == 2 ==> toks[1..][0] == o[1]);
    hide Encode, EncodeAll, ExecAll, Exec, FindVar, Atoi, LoadSized, PointsTo, WordAt, LoadVar, TargetInstrs;
    if |o| == 1 {
      var r := Register(o[0].text).value;
      RegisterUnmarked(o[0]);
      ins := [MovRR(EBX, r)];
      EncodeAllOne(MovRR(EBX, r));
      CopyRun(EBX, r, cpu);
    } else {
      assert Register("@").None? && Register("*").None? && Register("&").None?;
      hide Register;
      if o[0] == Mark('&') {
        ins := [];
        EncodeAllNone();
        ExecNone(cpu);
      } else if o[0] == Mark('@') {
        var r := Register(o[1].text).value;
        ins := [LoadInd(EBX, r)];
        EncodeAllOne(LoadInd(EBX, r));
        PointerRun(EBX, r, cpu, a);
      } else {
        var v := FindVar(vars, o[1].text).value;
        hide TargetInstrs, FormCode;
        ins := TargetInstrs(v);
        TargetCode(v);
        TargetRun(v, cpu, a);
      }
    }
  }

  /** An expression: a first operand of any of these kinds, then operators and operands of Source.
      Its tokens and its terminator are read, and the code leaves its value in EBX. */
  lemma {:induction false} MixedComputes(o: seq<Token>, ts: Terms, end: Token, rest: seq<Token>, vars: seq<Variable>,
                                         st: SourceState, ro: RoData, cpu: Cpu, a: u32, value: u32)
    returns (c: Cpu)
    requires Opens(o, vars, cpu, a) && TermsOk(ts, vars) && Ends(end) && Mirrors(cpu, vars, st)
    requires Fold(a, ts, vars, st, cpu.regs[EBP], ro) == Some(value)
    ensures var r := Expr(o + (TermsToks(ts) + [end] + rest), vars, ro);
            r.Emitted? && r.used == |o| + |TermsToks(ts)| + 1 && Computes(r.code, cpu, c)
    ensures Drop(o + (TermsToks(ts) + [end] + rest), |o| + |TermsToks(ts)| + 1) == rest
    ensures Scratched(cpu, c) && c.regs[EBX] == value
  {
    hide *;
    var tail, terms := TermsToks(ts) + [end] + rest, TermsInstrs(ts, vars, ro);
    var ins := OpenRun(o, tail, vars, ro, cpu, a);
    var c1 := ExecAll(ins, cpu).cpu;
    MirrorsScratched(cpu, c1, vars, st);
    SameEbp(cpu, c1);
    TermsRun(ts, vars, st, ro, c1, value);
    c := ExecAll(terms, c1).cpu;
    ScratchedTrans(cpu, c1, c);
    StraightComputes(ins, cpu);
    StraightComputes(terms, c1);
    ComputesBoth(EncodeAll(ins), EncodeAll(terms), cpu, c1, c);
    TermsLayout(ts, end, rest, vars, ro);
    Tail(o, TermsToks(ts), end, rest);
    ExprIs(o + tail, vars, ro);
    ThenIs(EncodeAll(ins), |o|, EncodeAll(terms), |TermsToks(ts)| + 1);
  }

  lemma {:induction false} ScratchedIs(cpu: Cpu, c: Cpu)
    requires Scratched(cpu, c)
    ensures c.mem == cpu.mem && forall q: Reg | q >= 4 :: c.regs[q] == cpu.regs[q]
  {
  }

  lemma {:induction false} SameEbp(cpu: Cpu, c: Cpu)
    requires Scratched(cpu, c)
    ensures c.regs[EBP] == cpu.regs[EBP]
  {
  }

  lemma {:induction false} Tail(o: seq<Token>, m: seq<Token>, end: Token, rest: seq<Token>)
    ensures Drop(o + (m + [end] + rest), |o|) == m + [end] + rest
    ensures Drop(o + (m + [end] + rest), |o| + |m| + 1) == rest
  {
  }

  lemma {:induction false} ExprIs(toks: seq<Token>, vars: seq<Variable>, ro: RoData)
    requires toks != []
    ensures var form := OperandForm(true, toks, vars, ro);
            !form.NoRegister? && !form.NoVariable? ==>
              var n := Width(true, toks[0]);
              Expr(toks, vars, ro) == Then(FormCode(EBX, form), n, Operators(Drop(toks, n), vars, ro))
  {
    hide OperandForm, FormCode, Operators, Drop, Width;
  }

  lemma {:induction false} ThenIs(a: seq<byte>, n: nat, b: seq<byte>, m: nat)
    requires m > 0
    ensures Then(a, n, Emitted(b, m)) == Emitted(a + b, n + m)
  {
  }

  /** `*x` as a first operand: the byte that x points to, with memory as it was. */
  lemma {:induction false} ByteOperand(x: string, v: Variable, end: Token, rest: seq<Token>, vars: seq<Variable>,
                                       ro: RoData, cpu: Cpu, p: u32)
    returns (c: Cpu)
    requires FindVar(vars, x) == Some(v) && Ends(end)
    requires Mapped(cpu.mem, cpu.regs[EBP] - v.rel, 4) && Fetch32(cpu.mem, cpu.regs[EBP] - v.rel) == p && p in cpu.mem
    ensures var r := Expr([Mark('*'), WordTok(x), end] + rest, vars, ro);
            r.Emitted? && r.used == 3 && Computes(r.code, cpu, c)
    ensures c.regs[EBX] == cpu.mem[p] && c.mem == cpu.mem && forall q: Reg | q >= 4 :: c.regs[q] == cpu.regs[q]
  {
    hide *;
    var o := [Mark('*'), WordTok(x)];
    OpensByte(x, v, vars, cpu, p);
    c := AloneComputes(o, end, rest, vars, ro, cpu, cpu.mem[p]);
    assert [Mark('*'), WordTok(x), end] + rest == o + ([] + [end] + rest);
  }

  lemma {:induction false} OpensByte(x: string, v: Variable, vars: seq<Variable>, cpu: Cpu, p: u32)
    requires FindVar(vars, x) == Some(v)
    requires Mapped(cpu.mem, cpu.regs[EBP] - v.rel, 4) && Fetch32(cpu.mem, cpu.regs[EBP] - v.rel) == p && p in cpu.mem
    ensures Opens([Mark('*'), WordTok(x)], vars, cpu, cpu.mem[p])
  {
    hide FindVar, Fetch32, Mapped, Register, WordAt;
  }

  /** `@r`: the word that r points to. A load through EBP is misread. */
  lemma {:induction false} WordOperand(name: string, r: Reg, end: Token, rest: seq<Token>, vars: seq<Variable>,
                                       ro: RoData, cpu: Cpu)
    returns (c: Cpu)
    requires Register(name) == Some(r) && r != EBP && Mapped(cpu.mem, cpu.regs[r], 4) && Ends(end)
    ensures var e := Expr([Mark('@'), WordTok(name), end] + rest, vars, ro);
            e.Emitted? && e.used == 3 && Computes(e.code, cpu, c)
    ensures c.regs[EBX] == Fetch32(cpu.mem, cpu.regs[r]) && c.mem == cpu.mem && forall q: Reg | q >= 4 :: c.regs[q] == cpu.regs[q]
  {
    hide *;
    var o, a := [Mark('@'), WordTok(name)], Fetch32(cpu.mem, cpu.regs[r]);
    OpensWord(name, r, vars, cpu);
    c := AloneComputes(o, end, rest, vars, ro, cpu, a);
    assert [Mark('@'), WordTok(name), end] + rest == o + ([] + [end] + rest);
  }

  lemma {:induction false} OpensWord(name: string, r: Reg, vars: seq<Variable>, cpu: Cpu)
    requires Register(name) == Some(r) && r != EBP && Mapped(cpu.mem, cpu.regs[r], 4)
    ensures Opens([Mark('@'), WordTok(name)], vars, cpu, Fetch32(cpu.mem, cpu.regs[r]))
  {
    hide FindVar, Fetch32, Mapped, Register, PointsTo;
  }

  /** Any of the eight registers: its value. */
  lemma {:induction false} RegisterOperand(name: string, r: Reg, end: Token, rest: seq<Token>, vars: seq<Variable>,
                                           ro: RoData, cpu: Cpu)
    returns (c: Cpu)
    requires Register(name) == Some(r) && Ends(end)
    ensures var e := Expr([WordTok(name), end] + rest, vars, ro);
            e.Emitted? && e.used == 2 && Computes(e.code, cpu, c)
    ensures c.regs[EBX] == cpu.regs[r] && c.mem == cpu.mem && forall q: Reg | q >= 4 :: c.regs[q] == cpu.regs[q]
  {
    hide *;
    var o := [WordTok(name)];
    OpensRegister(name, r, vars, cpu);
    c := AloneComputes(o, end, rest, vars, ro, cpu, cpu.regs[r]);
    assert [WordTok(name), end] + rest == o + ([] + [end] + rest);
  }

  lemma {:induction false} OpensRegister(name: string, r: Reg, vars: seq<Variable>, cpu: Cpu)
    requires Register(name) == Some(r)
    ensures Opens([WordTok(name)], vars, cpu, cpu.regs[r])
  {
    hide FindVar, Fetch32, Mapped, Register, PointsTo, WordAt;
  }

  lemma {:induction false} AloneComputes(o: seq<Token>, end: Token, rest: seq<Token>, vars: seq<Variable>, ro: RoData,
                                         cpu: Cpu, a: u32)
    returns (c: Cpu)
    requires Opens(o, vars, cpu, a) && Ends(end)
    ensures var r := Expr(o + ([] + [end] + rest), vars, ro);
            r.Emitted? && r.used == |o| + 1 && Computes(r.code, cpu, c)
    ensures c.regs[EBX] == a && c.mem == cpu.mem && forall q: Reg | q >= 4 :: c.regs[q] == cpu.regs[q]
  {
    var st := SourceState(map[], cpu.regs[ESI], cpu.regs[EDI]);
    NoTerms(a, vars, st, cpu, ro);
    hide *;
    c := MixedComputes(o, NoMore, end, rest, vars, st, ro, cpu, a, a);
    ScratchedIs(cpu, c);
  }

  lemma {:induction false} NoTerms(a: u32, vars: seq<Variable>, st: SourceState, cpu: Cpu, ro: RoData)
    requires st == SourceState(map[], cpu.regs[ESI], cpu.regs[EDI])
    ensures Mirrors(cpu, vars, st) && TermsOk(NoMore, vars) && TermsToks(NoMore) == []
    ensures Fold(a, NoMore, vars, st, cpu.regs[EBP], ro) == Some(a)
  {
  }

  /** `@` needs a register, or the expression is given up; a first `*` needs a variable, or the code
      follows a null pointer. */
  lemma {:induction false} BadOperands(name: Token, rest: seq<Token>, vars: seq<Variable>, ro: RoData)
    ensures Register(name.text).None? ==> Expr([Mark('@'), name] + rest, vars, ro) == Emitted([], 0)
    ensures FindVar(vars, name.text).None? ==> Expr([Mark('*'), name] + rest, vars, ro).Crashed?
  {
    var at, star := [Mark('@'), name] + rest, [Mark('*'), name] + rest;
    assert at[0] == Mark('@') && at[1..][0] == name && star[0] == Mark('*') && star[1..][0] == name;
    assert Register("@").None? && Register("*").None?;
    hide Register, FindVar, Operators;
  }

  // ----- later operands -----

  /** The value of an operand behind an operator. `*x` reads x itself there, and `*r` the word that r
      points to, unless r is EAX; then, and for the address of an unknown variable, EDX stays as it is. */
  predicate Follows(o: seq<Token>, vars: seq<Variable>, cpu: Cpu, b: u32) {
    || (|o| == 1 && Register(o[0].text).Some? && b == cpu.regs[Register(o[0].text).value])
    || (|o| == 2 && o[0] == Mark('@') && Register(o[1].text).Some? && WordAt(cpu, Register(o[1].text).value, b))
    || (|o| == 2 && o[0] == Mark('&') && FindVar(vars, o[1].text).None? && b == cpu.regs[EDX])
    || (|o| == 2 && o[0] == Mark('*') && Star(o[1].text, vars, cpu, b))
  }

  predicate Star(name: string, vars: seq<Variable>, cpu: Cpu, b: u32) {
    var v, r := FindVar(vars, name), Register(name);
    if v.Some? then HasSlot(cpu, v.value) && b == SlotValue(cpu, v.value)
    else r.Some? && if r.value == EAX then b == cpu.regs[EDX] else WordAt(cpu, r.value, b)
  }

  /** The code for a later operand leaves its value in EDX, and EBX as it was. */
  lemma {:induction false} FollowRun(o: seq<Token>, rest: seq<Token>, vars: seq<Variable>, ro: RoData, cpu: Cpu, b: u32)
    returns (ins: seq<Instr>)
    requires Follows(o, vars, cpu, b)
    ensures var form := OperandForm(false, o + rest, vars, ro);
            && o != [] && Width(false, (o + rest)[0]) == |o| && (o + rest)[..|o|] == o && (o + rest)[|o|..] == rest
            && !form.NoRegister? && FormCode(EDX, form) == EncodeAll(ins)
    ensures Straight(ins) && ExecAll(ins, cpu).Next?
    ensures var c := ExecAll(ins, cpu).cpu; c.mem == cpu.mem && c.regs == cpu.regs[EDX := b]
  {
    var toks := o + rest;
    assert toks[0] == o[0] && (|o| == 2 ==> toks[1..][0] == o[1]);
    hide Encode, EncodeAll, ExecAll, Exec, FindVar, Atoi, LoadSized, WordAt, LoadVar, HasSlot, Star;
    if |o| == 1 {
      var r := Register(o[0].text).value;
      RegisterUnmarked(o[0]);
      ins := [MovRR(EDX, r)];
      EncodeAllOne(MovRR(EDX, r));
      CopyRun(EDX, r, cpu);
    } else {
      assert Register("@").None? && Register("*").None? && Register("&").None?;
      hide Register;
      if o[0] == Mark('@') {
        var r := Register(o[1].text).value;
        ins := [LoadInd(EDX, r)];
        EncodeAllOne(LoadInd(EDX, r));
        PointerRun(EDX, r, cpu, b);
      } else if o[0] == Mark('&') {
        ins := Unchanged(cpu);
      } else {
        ins := StarRun(o[1].text, vars, cpu, b);
      }
    }
  }

  lemma {:induction false} Unchanged(cpu: Cpu) returns (ins: seq<Instr>)
    ensures ins == [] && EncodeAll(ins) == [] && Straight(ins) && ExecAll(ins, cpu) == Next(cpu)
    ensures cpu.regs == cpu.regs[EDX := cpu.regs[EDX]]
  {
    ins := [];
    EncodeAllNone();
    ExecNone(cpu);
  }

  lemma {:induction false} StarRun(name: string, vars: seq<Variable>, cpu: Cpu, b: u32) returns (ins: seq<Instr>)
    requires Star(name, vars, cpu, b)
    ensures var form := StarForm(name, vars); !form.NoRegister? && FormCode(EDX, form) == EncodeAll(ins)
    ensures Straight(ins) && ExecAll(ins, cpu).Next?
    ensures var c := ExecAll(ins, cpu).cpu; c.mem == cpu.mem && c.regs == cpu.regs[EDX := b]
  {
    hide Encode, EncodeAll, ExecAll, Exec, FindVar, Register, LoadVar, WordAt, HasSlot;
    var v, r := FindVar(vars, name), Register(name);
    if v.Some? {
      ins := LoadVar(EDX, v.value);
      LoadVarRun(EDX, v.value, cpu);
    } else if r.value == EAX {
      ins := Unchanged(cpu);
    } else {
      ins := [LoadInd(EDX, r.value)];
      EncodeAllOne(LoadInd(EDX, r.value));
      PointerRun(EDX, r.value, cpu, b);
    }
  }

  /** One operator and an operand of any of these kinds: EBX becomes EBX op operand, whatever the
      machine held before, and the rest of the expression is compiled behind it. */
  lemma {:induction false} TermComputes(op: Op, o: seq<Token>, rest: seq<Token>, vars: seq<Variable>, ro: RoData,
                                        cpu: Cpu, b: u32, value: u32)
    returns (code: seq<byte>, c: Cpu)
    requires Follows(o, vars, cpu, b) && Apply(op, cpu.regs[EBX], b) == Some(value)
    ensures Operators([Mark(OpChar(op))] + (o + rest), vars, ro) == Then(code, 1 + |o|, Operators(rest, vars, ro))
    ensures Computes(code, cpu, c) && Scratched(cpu, c) && c.regs[EBX] == value
  {
    hide *;
    var ins := FollowRun(o, rest, vars, ro, cpu, b);
    var apply := OpCode(OpChar(op));
    var c1 := ExecAll(ins, cpu).cpu;
    Numbers();
    LoadedScratched(cpu, c1, b);
    OpRun(op, c1);
    c := ExecAll(apply, c1).cpu;
    AppliedIs(op, c1, c);
    ScratchedTrans(cpu, c1, c);
    StraightComputes(ins, cpu);
    StraightComputes(apply, c1);
    ComputesBoth(EncodeAll(ins), EncodeAll(apply), cpu, c1, c);
    code := EncodeAll(ins) + EncodeAll(apply);
    var toks := [Mark(OpChar(op))] + (o + rest);
    assert toks[0] == Mark(OpChar(op)) && toks[1..] == o + rest;
    MarkText(OpChar(op));
    OpCharIsOperator(op);
    OperatorsOf(toks, vars, ro);
    OperandsOf(o + rest, OpChar(op), vars, ro);
    DropIs(o, rest);
    ThenOne(code, |o|, Operators(rest, vars, ro));
  }

  lemma {:induction false} LoadedScratched(cpu: Cpu, c: Cpu, b: u32)
    requires c.mem == cpu.mem && c.regs == cpu.regs[EDX := b]
    ensures Scratched(cpu, c) && c.regs[EBX] == cpu.regs[EBX] && c.regs[EDX] == b
  {
  }

  lemma {:induction false} AppliedIs(op: Op, c: Cpu, c': Cpu)
    requires Applied(op, c, c')
    ensures Scratched(c, c') && Apply(op, c.regs[EBX], c.regs[EDX]) == Some(c'.regs[EBX])
  {
  }

  lemma {:induction false} DropIs(o: seq<Token>, rest: seq<Token>)
    ensures Drop(o + rest, |o|) == rest
  {
  }

  lemma {:induction false} ThenOne(code: seq<byte>, n: nat, r: ExprCode)
    ensures Then([], 1, Then(code, n, r)) == Then(code, 1 + n, r)
  {
    if r.Emitted? {
      assert [] + (code + r.code) == code + r.code;
    }
  }

  /** A later `*n` that is neither: two bytes that the processor reads as a move of EDI to itself. */
  lemma {:induction false} StrayTarget(op: Op, name: Token, rest: seq<Token>, vars: seq<Variable>, ro: RoData)
    requires FindVar(vars, name.text).None? && Register(name.text).None?
    ensures Operators([Mark(OpChar(op)), Mark('*'), name] + rest, vars, ro)
         == Then([0x8B, 0xFF] + EncodeAll(OpCode(OpChar(op))), 3, Operators(rest, vars, ro))
  {
    hide *;
    var o := [Mark('*'), name];
    var toks := [Mark(OpChar(op))] + (o + rest);
    assert [Mark(OpChar(op)), Mark('*'), name] + rest == toks;
    assert toks[0] == Mark(OpChar(op)) && toks[1..] == o + rest;
    StrayForm(name, rest, vars, ro);
    MarkText(OpChar(op));
    OpCharIsOperator(op);
    OperatorsOf(toks, vars, ro);
    OperandsOf(o + rest, OpChar(op), vars, ro);
    DropIs(o, rest);
    ThenOne([0x8B, 0xFF] + EncodeAll(OpCode(OpChar(op))), 2, Operators(rest, vars, ro));
  }

  lemma {:induction false} StrayForm(name: Token, rest: seq<Token>, vars: seq<Variable>, ro: RoData)
    requires FindVar(vars, name.text).None? && Register(name.text).None?
    ensures var toks := [Mark('*'), name] + rest;
            var form := OperandForm(false, toks, vars, ro);
            Width(false, toks[0]) == 2 && !form.NoRegister? && FormCode(EDX, form) == [0x8B, 0xFF]
  {
    assert ([Mark('*'), name] + rest)[1..][0] == name;
    assert Register("*").None?;
    hide Register, FindVar;
  }

  // ----- register targets -----

  /** `r e ;` for every register: the bytes that the compiler emits leave the value of e in r, and
      change nothing else but the scratch registers. The first operand is any of the kinds above. */
  lemma {:induction false} RegisterAssigned(name: string, r: Reg, o: seq<Token>, ts: Terms, scope: Scope, env: Env,
                                            st: SourceState, cpu: Cpu, a: u32, value: u32)
    returns (c: Cpu)
    requires Register(name) == Some(r) && FindVar(scope.vars, name).None?
    requires Opens(o, scope.vars, cpu, a) && TermsOk(ts, scope.vars) && Mirrors(cpu, scope.vars, st)
    requires Fold(a, ts, scope.vars, st, cpu.regs[EBP], env.ro) == Some(value)
    ensures var b := Body([WordTok(name)] + (o + (TermsToks(ts) + [Mark(';')])), scope, env);
            b.Compiled? && b.vars == scope.vars && b.funcs == scope.funcs && Computes(b.code, cpu, c)
    ensures c.regs[r] == value && c.mem == cpu.mem && forall q: Reg | q >= 4 && q != r :: c.regs[q] == cpu.regs[q]
  {
    hide *;
    var toks := o + (TermsToks(ts) + [Mark(';')] + []);
    SemicolonEnds();
    assert TermsToks(ts) + [Mark(';')] + [] == TermsToks(ts) + [Mark(';')];
    var c1 := MixedComputes(o, ts, Mark(';'), [], scope.vars, st, env.ro, cpu, a, value);
    c := AssignedFrom(name, r, toks, scope, env, cpu, c1, value);
  }

  /** The same for every expression that Source gives a meaning to. */
  lemma {:induction false} ServedAssigned(name: string, r: Reg, e: Expression, scope: Scope, env: Env, st: SourceState,
                                          cpu: Cpu, value: u32)
    returns (c: Cpu)
    requires Register(name) == Some(r) && FindVar(scope.vars, name).None?
    requires ExprOk(e, scope.vars) && Mirrors(cpu, scope.vars, st)
    requires Value(e, scope.vars, st, cpu.regs[EBP], env.ro) == Some(value)
    ensures var b := Body([WordTok(name)] + ExprToks(e, Mark(';')), scope, env);
            b.Compiled? && b.vars == scope.vars && b.funcs == scope.funcs && Computes(b.code, cpu, c)
    ensures c.regs[r] == value && c.mem == cpu.mem && forall q: Reg | q >= 4 && q != r :: c.regs[q] == cpu.regs[q]
  {
    hide *;
    var toks := ExprToks(e, Mark(';'));
    SemicolonEnds();
    assert toks + [] == toks;
    ExprEmits(e, Mark(';'), [], scope.vars, env.ro);
    ExprComputes(e, scope.vars, st, env.ro, cpu, value);
    StraightComputes(ExprInstrs(e, scope.vars, env.ro), cpu);
    c := AssignedFrom(name, r, toks, scope, env, cpu, ExecAll(ExprInstrs(e, scope.vars, env.ro), cpu).cpu, value);
  }

  lemma {:induction false} AssignedFrom(name: string, r: Reg, toks: seq<Token>, scope: Scope, env: Env, cpu: Cpu,
                                        c1: Cpu, value: u32)
    returns (c: Cpu)
    requires Register(name) == Some(r) && FindVar(scope.vars, name).None?
    requires var x := Expr(toks, scope.vars, env.ro);
             x.Emitted? && Drop(toks, x.used) == [] && Computes(x.code, cpu, c1)
    requires Scratched(cpu, c1) && c1.regs[EBX] == value
    ensures var b := Body([WordTok(name)] + toks, scope, env);
            b.Compiled? && b.vars == scope.vars && b.funcs == scope.funcs && Computes(b.code, cpu, c)
    ensures c.regs[r] == value && c.mem == cpu.mem && forall q: Reg | q >= 4 && q != r :: c.regs[q] == cpu.regs[q]
  {
    hide *;
    var x, all := Expr(toks, scope.vars, env.ro), [WordTok(name)] + toks;
    ClassifyRegister(name, r, scope);
    assert all[0] == WordTok(name) && all[1..] == toks;
    AssignedBody(all, r, scope, env);
    c := MovedRun(r, c1);
    ComputesBoth(x.code, AssignReg(r), cpu, c1, c);
    MovedScratched(cpu, c1, c, r, value);
  }

  lemma {:induction false} SemicolonEnds()
    ensures Ends(Mark(';'))
  {
  }

  lemma {:induction false} ClassifyRegister(name: string, r: Reg, scope: Scope)
    requires Register(name) == Some(r) && FindVar(scope.vars, name).None?
    ensures Classify(WordTok(name), scope) == AssignsReg(r)
  {
    RegisterNames(name);
    assert |name| == 3 && name[0] == 'e';
    hide Register, FindVar;
  }

  lemma {:induction false} AssignedBody(toks: seq<Token>, r: Reg, scope: Scope, env: Env)
    requires toks != [] && Classify(toks[0], scope) == AssignsReg(r)
    requires var x := Expr(toks[1..], scope.vars, env.ro); x.Emitted? && Drop(toks[1..], x.used) == []
    ensures var x := Expr(toks[1..], scope.vars, env.ro);
            Body(toks, scope, env) == Compiled(x.code + AssignReg(r), scope.vars, scope.funcs)
  {
    hide Classify, Expr, Drop, AssignReg, ExprThen;
    var x := Expr(toks[1..], scope.vars, env.ro);
    ThenGoes(toks[1..], scope, env, AssignReg(r));
    assert Body([], scope, env) == Compiled([], scope.vars, scope.funcs);
    assert (x.code + AssignReg(r)) + [] == x.code + AssignReg(r);
  }

  lemma {:induction false} ThenGoes(toks: seq<Token>, scope: Scope, env: Env, use: seq<byte>)
    requires Expr(toks, scope.vars, env.ro).Emitted?
    ensures var x := Expr(toks, scope.vars, env.ro);
            ExprThen(toks, scope, env, use) == Go(x.code + use, Drop(toks, x.used), scope)
  {
    hide Expr, Drop;
  }

  lemma {:induction false} MovedRun(r: Reg, cpu: Cpu) returns (c: Cpu)
    ensures Computes(AssignReg(r), cpu, c) && c.mem == cpu.mem && c.regs == cpu.regs[r := cpu.regs[EBX]]
  {
    hide Computes, Encode, EncodeAll, Exec, ExecAll;
    if r == EBX {
      c := cpu;
      EncodeAllNone();
      ExecNone(cpu);
      StraightComputes([], cpu);
    } else {
      CopyRun(r, EBX, cpu);
      EncodeAllOne(MovRR(r, EBX));
      c := ExecAll([MovRR(r, EBX)], cpu).cpu;
      StraightComputes([MovRR(r, EBX)], cpu);
    }
  }

  lemma {:induction false} MovedScratched(cpu: Cpu, c1: Cpu, c: Cpu, r: Reg, value: u32)
    requires Scratched(cpu, c1) && c1.regs[EBX] == value && c.mem == c1.mem && c.regs == c1.regs[r := c1.regs[EBX]]
    ensures c.regs[r] == value && c.mem == cpu.mem && forall q: Reg | q >= 4 && q != r :: c.regs[q] == cpu.regs[q]
  {
  }

  // ----- targets behind a pointer -----

  /** Four bytes of the variable hold the address of a byte. */
  predicate Holds(cpu: Cpu, v: Variable, p: u32) {
    Mapped(cpu.mem, cpu.regs[EBP] - v.rel, 4) && Fetch32(cpu.mem, cpu.regs[EBP] - v.rel) == p && p in cpu.mem
  }

  /** `*x e ;`: the byte that x points to becomes the low byte of the value; no other byte changes,
      and no register but the scratch ones. The first operand of e is any of the kinds above. */
  lemma {:induction false} ByteAssigned(x: string, v: Variable, o: seq<Token>, ts: Terms, scope: Scope, env: Env,
                                        st: SourceState, cpu: Cpu, a: u32, value: u32, p: u32)
    returns (c: Cpu)
    requires FindVar(scope.vars, x) == Some(v) && FindVar(scope.vars, "*").None? && Holds(cpu, v, p)
    requires Opens(o, scope.vars, cpu, a) && TermsOk(ts, scope.vars) && Mirrors(cpu, scope.vars, st)
    requires Fold(a, ts, scope.vars, st, cpu.regs[EBP], env.ro) == Some(value)
    ensures var b := Body([Mark('*'), WordTok(x)] + (o + (TermsToks(ts) + [Mark(';')])), scope, env);
            b.Compiled? && b.vars == scope.vars && b.funcs == scope.funcs && Computes(b.code, cpu, c)
    ensures c.mem == cpu.mem[p := value % 256] && forall q: Reg | q >= 4 :: c.regs[q] == cpu.regs[q]
  {
    hide *;
    var toks := o + (TermsToks(ts) + [Mark(';')] + []);
    SemicolonEnds();
    assert TermsToks(ts) + [Mark(';')] + [] == TermsToks(ts) + [Mark(';')];
    var c1 := MixedComputes(o, ts, Mark(';'), [], scope.vars, st, env.ro, cpu, a, value);
    c := StoredFrom(x, v, toks, scope, env, cpu, c1, value, p);
  }

  /** The same for every expression that Source gives a meaning to. */
  lemma {:induction false} ServedByte(x: string, v: Variable, e: Expression, scope: Scope, env: Env, st: SourceState,
                                      cpu: Cpu, value: u32, p: u32)
    returns (c: Cpu)
    requires FindVar(scope.vars, x) == Some(v) && FindVar(scope.vars, "*").None? && Holds(cpu, v, p)
    requires ExprOk(e, scope.vars) && Mirrors(cpu, scope.vars, st)
    requires Value(e, scope.vars, st, cpu.regs[EBP], env.ro) == Some(value)
    ensures var b := Body([Mark('*'), WordTok(x)] + ExprToks(e, Mark(';')), scope, env);
            b.Compiled? && b.vars == scope.vars && b.funcs == scope.funcs && Computes(b.code, cpu, c)
    ensures c.mem == cpu.mem[p := value % 256] && forall q: Reg | q >= 4 :: c.regs[q] == cpu.regs[q]
  {
    hide *;
    var toks := ExprToks(e, Mark(';'));
    SemicolonEnds();
    assert toks + [] == toks;
    ExprEmits(e, Mark(';'), [], scope.vars, env.ro);
    ExprComputes(e, scope.vars, st, env.ro, cpu, value);
    StraightComputes(ExprInstrs(e, scope.vars, env.ro), cpu);
    c := StoredFrom(x, v, toks, scope, env, cpu, ExecAll(ExprInstrs(e, scope.vars, env.ro), cpu).cpu, value, p);
  }

  lemma {:induction false} StoredFrom(x: string, v: Variable, toks: seq<Token>, scope: Scope, env: Env, cpu: Cpu,
                                      c1: Cpu, value: u32, p: u32)
    returns (c: Cpu)
    requires FindVar(scope.vars, x) == Some(v) && FindVar(scope.vars, "*").None? && Holds(cpu, v, p)
    requires var e := Expr(toks, scope.vars, env.ro);
             e.Emitted? && Drop(toks, e.used) == [] && Computes(e.code, cpu, c1)
    requires Scratched(cpu, c1) && c1.regs[EBX] == value
    ensures var b := Body([Mark('*'), WordTok(x)] + toks, scope, env);
            b.Compiled? && b.vars == scope.vars && b.funcs == scope.funcs && Computes(b.code, cpu, c)
    ensures c.mem == cpu.mem[p := value % 256] && forall q: Reg | q >= 4 :: c.regs[q] == cpu.regs[q]
  {
    hide *;
    var e := Expr(toks, scope.vars, env.ro);
    StoredBody(x, v, toks, scope, env);
    HoldsScratched(cpu, c1, v, p);
    c := StoreRun(v, c1, p);
    StraightComputes(StoreCode(v), c1);
    ComputesBoth(e.code, EncodeAll(StoreCode(v)), cpu, c1, c);
    Numbers();
    ScratchedIs(cpu, c1);
  }

  lemma {:induction false} HoldsScratched(cpu: Cpu, c: Cpu, v: Variable, p: u32)
    requires Scratched(cpu, c) && Holds(cpu, v, p)
    ensures Holds(c, v, p)
  {
  }

  lemma {:induction false} StoredBody(x: string, v: Variable, toks: seq<Token>, scope: Scope, env: Env)
    requires FindVar(scope.vars, x) == Some(v) && FindVar(scope.vars, "*").None?
    requires var e := Expr(toks, scope.vars, env.ro); e.Emitted? && Drop(toks, e.used) == []
    ensures var e := Expr(toks, scope.vars, env.ro);
            Body([Mark('*'), WordTok(x)] + toks, scope, env)
            == Compiled(e.code + EncodeAll(StoreCode(v)), scope.vars, scope.funcs)
  {
    hide *;
    var all := [Mark('*'), WordTok(x)] + toks;
    var e, use := Expr(toks, scope.vars, env.ro), EncodeAll(StoreCode(v));
    StarStores(scope);
    Compiler.TwoDropped(Mark('*'), WordTok(x), toks);
    assert all[0] == Mark('*');
    Compiler.OneStepOf(all, scope, env);
    DropOne(all);
    Compiler.StoreStepOf(all[1..], scope, env);
    Compiler.BodyOf(all, scope, env);
    Compiler.BodyOf([], scope, env);
    ContinueOf(e.code + use, Body([], scope, env));
    assert WordTok(x).text == x by { WordText(x); }
  }

  lemma {:induction false} WordText(x: string)
    ensures WordTok(x).text == x
  {
  }

  lemma {:induction false} DropOne(toks: seq<Token>)
    ensures toks != [] ==> Drop(toks, 1) == toks[1..]
  {
  }

  lemma {:induction false} StarStores(scope: Scope)
    requires FindVar(scope.vars, "*").None?
    ensures Classify(Mark('*'), scope) == StoresByte
  {
    OtherWords(Special, "*", scope);
    assert TypeFromName("*").None?;
    hide Classify, TypeFromName;
  }

  /** The instructions behind the expression. */
  lemma {:induction false} StoreRun(v: Variable, cpu: Cpu, p: u32) returns (c: Cpu)
    requires Holds(cpu, v, p)
    ensures Straight(StoreCode(v)) && ExecAll(StoreCode(v), cpu) == Next(c)
    ensures c.mem == cpu.mem[p := cpu.regs[EBX] % 256] && c.regs == cpu.regs[EDX := p]
  {
    hide *;
    var load, put := Instr.Load(4, EDX, EBP, Wrap(-v.rel)), Instr.Store(1, EDX, 0, EBX);
    HoldsPoints(cpu, v, p);
    var c1 := AddressLoaded(v, cpu, cpu.mem[p]);
    c := BytePut(c1, p);
    StoreCodeIs(v);
    ExecCons(load, [put], cpu);
    Numbers();
    ScratchedIs(cpu, c1);
  }

  lemma {:induction false} HoldsPoints(cpu: Cpu, v: Variable, p: u32)
    requires Holds(cpu, v, p)
    ensures p in cpu.mem && PointsTo(cpu, v, cpu.mem[p]) && Fetch32(cpu.mem, cpu.regs[EBP] - v.rel) == p
  {
    hide Fetch32, Mapped;
  }

  lemma {:induction false} StoreCodeIs(v: Variable)
    ensures StoreCode(v) == [Instr.Load(4, EDX, EBP, Wrap(-v.rel))] + [Instr.Store(1, EDX, 0, EBX)]
  {
    NoWrap(0, 0);
  }

  lemma {:induction false} BytePut(cpu: Cpu, p: u32) returns (c: Cpu)
    requires cpu.regs[EDX] == p && p in cpu.mem
    ensures var put := Instr.Store(1, EDX, 0, EBX);
            Straight([put]) && ExecAll([put], cpu) == Next(c)
    ensures c.mem == cpu.mem[p := cpu.regs[EBX] % 256] && c.regs == cpu.regs
  {
    var put := Instr.Store(1, EDX, 0, EBX);
    NoWrap(p, 0);
    assert Mapped(cpu.mem, p, 1);
    assert Put(cpu.mem, p, 1, cpu.regs[EBX]) == cpu.mem[p := cpu.regs[EBX] % 256];
    hide Exec, ExecAll, Fetch, Mapped, Wrap, Add32, Put;
    StoreExec(1, EDX, 0, EBX, cpu);
    ExecOne(put, cpu);
    c := cpu.(mem := cpu.mem[p := cpu.regs[EBX] % 256]);
  }

  /** Behind a name that is no variable the code follows a null pointer. */
  lemma {:induction false} BadTarget(name: Token, rest: seq<Token>, scope: Scope, env: Env)
    requires FindVar(scope.vars, name.text).None? && FindVar(scope.vars, "*").None?
    ensures OneStep([Mark('*'), name] + rest, scope, env) == Refused(NullPointer)
  {
    hide *;
    var all := [Mark('*'), name] + rest;
    StarStores(scope);
    Compiler.TwoDropped(Mark('*'), name, rest);
    assert all[0] == Mark('*');
    Compiler.OneStepOf(all, scope, env);
    DropOne(all);
    Compiler.StoreStepOf(all[1..], scope, env);
  }
}
