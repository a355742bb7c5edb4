/** Running the instructions of an expression. */
module ExprRun {
  import opened Wrappers
  import opened Words
  import opened X86
  import opened Ram
  import opened Machine
  import opened Names
  import opened ExprCompiler
  import opened Source
  import opened ExprLayout

  // ----- the source state in the machine -----

  function Slot(cpu: Cpu, v: Variable): int {
    cpu.regs[EBP] - v.rel
  }

  predicate HasSlot(cpu: Cpu, v: Variable) {
    ValidBits(v.bits) && Mapped(cpu.mem, Slot(cpu, v), v.bits / 8)
  }

  function SlotValue(cpu: Cpu, v: Variable): u32
    requires HasSlot(cpu, v)
  {
    FetchBound(cpu.mem, Slot(cpu, v), v.bits / 8);
    Pow256Values();
    Fetch(cpu.mem, Slot(cpu, v), v.bits / 8)
  }

  predicate Holds(cpu: Cpu, vars: seq<Variable>, name: string, value: u32) {
    var r := FindVar(vars, name);
    r.Some? && HasSlot(cpu, r.value) && SlotValue(cpu, r.value) == value
  }

  /** ESI, EDI and every variable that has a value hold what the source state says. */
  predicate Mirrors(cpu: Cpu, vars: seq<Variable>, st: SourceState) {
    && cpu.regs[ESI] == st.esi && cpu.regs[EDI] == st.edi
    && forall n | n in st.vals :: Holds(cpu, vars, n, st.vals[n])
  }

  /** Only EAX, EBX, ECX, EDX and the flags may differ. */
  predicate Scratched(c: Cpu, c': Cpu) {
    c'.mem == c.mem && forall r: Reg | r >= 4 :: c'.regs[r] == c.regs[r]
  }

  lemma {:induction false} MirrorsScratched(c: Cpu, c': Cpu, vars: seq<Variable>, st: SourceState)
    requires Scratched(c, c') && Mirrors(c, vars, st)
    ensures Mirrors(c', vars, st)
  {
    forall n | n in st.vals
      ensures Holds(c', vars, n, st.vals[n])
    {
      assert Holds(c, vars, n, st.vals[n]);
    }
  }

  // ----- single steps of ExecAll -----

  lemma {:induction false} ExecNone(cpu: Cpu)
    ensures ExecAll([], cpu) == Next(cpu)
  {
  }

  lemma {:induction false} ExecOne(i: Instr, cpu: Cpu)
    requires Encodable(i) && !Control(i)
    ensures ExecAll([i], cpu) == Exec(i, cpu)
  {
    assert [i][1..] == [];
    hide Exec;
    if Exec(i, cpu).Next? {
      ExecNone(Exec(i, cpu).cpu);
    }
  }

  lemma {:induction false} ExecCons(i: Instr, rest: seq<Instr>, cpu: Cpu)
    requires Encodable(i) && !Control(i) && Straight(rest)
    ensures Straight([i] + rest)
    ensures ExecAll([i] + rest, cpu) == match Exec(i, cpu) case Stuck => Stuck case Next(c) => ExecAll(rest, c)
  {
    assert ([i] + rest)[1..] == rest;
    hide Exec;
  }

  // ----- operands -----

  lemma {:induction false} SlotAddress(cpu: Cpu, v: Variable)
    requires HasSlot(cpu, v)
    ensures Add32(cpu.regs[EBP], Wrap(-v.rel)) == Slot(cpu, v)
  {
    AddNegated(cpu.regs[EBP], v.rel);
    hide *;
    SlotBounds(cpu, v);
    NoWrap(cpu.regs[EBP], v.rel);
  }

  lemma {:induction false} AddNegated(a: int, rel: int)
    ensures Add32(a, Wrap(-rel)) == Sub32(a, rel)
  {
    assert (a + (-rel) % 0x1_0000_0000) % 0x1_0000_0000 == (a - rel) % 0x1_0000_0000;
  }

  lemma {:induction false} SlotBounds(cpu: Cpu, v: Variable)
    requires HasSlot(cpu, v)
    ensures 0 <= Slot(cpu, v) == cpu.regs[EBP] - v.rel < 0x1_0000_0000
  {
  }

  lemma {:induction false} LoadVarRun(dst: Reg, v: Variable, cpu: Cpu)
    requires (dst == EBX || dst == EDX) && HasSlot(cpu, v)
    ensures Straight(LoadVar(dst, v)) && ExecAll(LoadVar(dst, v), cpu).Next?
    ensures var c := ExecAll(LoadVar(dst, v), cpu).cpu; c.mem == cpu.mem && c.regs == cpu.regs[dst := SlotValue(cpu, v)]
  {
    hide Exec, ExecAll, Fetch, Wrap, Pow256, BitXor, Mapped, SetLow;
    var n := v.bits / 8;
    var load := Instr.Load(n, dst, EBP, Wrap(-v.rel));
    if n == 4 {
      assert LoadVar(dst, v) == [load];
      SlotRun(dst, v, cpu, cpu);
    } else {
      var zero := Alu(AluOp.Xor, dst, dst);
      assert LoadVar(dst, v) == [zero] + [load];
      AluExec(AluOp.Xor, dst, dst, cpu);
      XorSelf(cpu.regs[dst]);
      var c := Exec(zero, cpu).cpu;
      SlotRun(dst, v, cpu, c);
      ExecCons(zero, [load], cpu);
    }
  }

  /** The load itself, with the destination cleared before a narrow one. */
  lemma {:induction false} SlotRun(dst: Reg, v: Variable, cpu: Cpu, c: Cpu)
    requires (dst == EBX || dst == EDX) && HasSlot(cpu, v) && c.mem == cpu.mem && c.regs[EBP] == cpu.regs[EBP]
    requires v.bits == 32 || c.regs[dst] == 0
    ensures var load := Instr.Load(v.bits / 8, dst, EBP, Wrap(-v.rel));
            && Encodable(load) && !Control(load)
            && ExecAll([load], c) == Next(SetReg(c, dst, SlotValue(cpu, v)))
  {
    hide Exec, ExecAll, Fetch, Wrap, Add32, SetLow, SetReg;
    SlotAddress(cpu, v);
    var n := v.bits / 8;
    var load := Instr.Load(n, dst, EBP, Wrap(-v.rel));
    LoadExec(n, dst, EBP, Wrap(-v.rel), c);
    SetLowFills(c, dst, n, Fetch(c.mem, Slot(cpu, v), n));
    ExecOne(load, c);
  }

  lemma {:induction false} OperandRun(dst: Reg, o: Operand, vars: seq<Variable>, st: SourceState, ro: RoData, cpu: Cpu,
                                      value: u32)
    requires (dst == EBX || dst == EDX) && OperandOk(o, vars) && Mirrors(cpu, vars, st)
    requires OperandValue(o, vars, st, cpu.regs[EBP], ro) == Some(value)
    ensures var ins := OperandInstrs(dst, o, vars, ro);
            && Straight(ins) && ExecAll(ins, cpu).Next?
            && var c := ExecAll(ins, cpu).cpu;
               c.mem == cpu.mem && c.regs == cpu.regs[dst := value]
  {
    match o {
      case Literal(t) => ExecOne(MovRI(dst, Atoi(t)), cpu);
      case Str(t) => ExecOne(MovRI(dst, RoAddress(ro, t)), cpu);
      case InReg(r) => ExecOne(MovRR(dst, r), cpu);
      case Name(n) =>
        assert Holds(cpu, vars, n, st.vals[n]);
        LoadVarRun(dst, FindVar(vars, n).value, cpu);
      case AddressOf(n) => AddressRun(dst, FindVar(vars, n).value, cpu);
    }
  }

  lemma {:induction false} AddressRun(dst: Reg, v: Variable, cpu: Cpu)
    ensures var ins := ExprCompiler.AddressOf(dst, v);
            && Straight(ins) && ExecAll(ins, cpu).Next?
            && var c := ExecAll(ins, cpu).cpu;
               c.mem == cpu.mem && c.regs == cpu.regs[dst := Sub32(cpu.regs[EBP], v.rel)]
  {
    var i, j := MovRR(dst, EBP), AluImm(AddI, dst, Wrap(-v.rel));
    assert ExprCompiler.AddressOf(dst, v) == [i] + [j];
    AddNegated(cpu.regs[EBP], v.rel);
    hide Exec, ExecAll, Wrap, Add32, Sub32;
    MovExec(dst, EBP, cpu);
    var c := SetReg(cpu, dst, cpu.regs[EBP]);
    ImmExec(AddI, dst, Wrap(-v.rel), c);
    ExecCons(i, [j], cpu);
    ExecOne(j, c);
  }

  // ----- operators -----

  /** The state after EBX := EBX op EDX. */
  predicate Applied(op: Op, c: Cpu, c': Cpu) {
    Scratched(c, c') && Apply(op, c.regs[EBX], c.regs[EDX]) == Some(c'.regs[EBX])
  }

  lemma {:induction false} AluRun(op: Op, i: Instr, cpu: Cpu)
    requires OpCode(OpChar(op)) == [i]
    ensures Straight(OpCode(OpChar(op))) && ExecAll(OpCode(OpChar(op)), cpu).Next?
    ensures Applied(op, cpu, ExecAll(OpCode(OpChar(op)), cpu).cpu)
  {
    hide Exec, ExecAll, Wrap, BitAnd, BitOr, BitXor;
    assert op.Minus? || op.Plus? || op.Times? || op.Both? || op.Xor? || op.Either?;
    ExecOne(i, cpu);
    if op.Times? {
      MulExec(EBX, EDX, cpu);
    } else {
      AluExec(i.op, EBX, EDX, cpu);
    }
  }

  lemma {:induction false} CompareRun(left: Reg, right: Reg, cond: Cond, cpu: Cpu)
    ensures var ins := SetIf(left, right, cond);
            && Straight(ins) && ExecAll(ins, cpu).Next?
            && var c := ExecAll(ins, cpu).cpu;
               var a, b := cpu.regs[left], cpu.regs[right];
               Scratched(cpu, c)
               && c.regs[EBX] == Truth(match cond case Below => a < b case Equal => a == b case NotEqual => a != b)
  {
    Pow256Values();
    hide ExecAll, Pow256;
    var i, j, k := CmpRR(left, right), MovRI(EBX, 0), SetCC(cond, EBX);
    assert SetIf(left, right, cond) == [i] + ([j] + [k]);
    ExecCons(j, [k], Exec(i, cpu).cpu);
    ExecCons(i, [j] + [k], cpu);
    var c := Exec(j, Exec(i, cpu).cpu).cpu;
    ExecOne(k, c);
  }

  /** A divisor below 2^31: the signed division is the unsigned one unless the quotient is too large. */
  lemma {:induction false} PositiveDivisor(a: u32, b: u32)
    requires 1 <= b < 0x8000_0000
    ensures SignedDivide(0, a, b)
         == if Div32(a, b) < 0x8000_0000 then Quotient(Div32(a, b), Mod32(a, b)) else DivideError
  {
    assert Signed(b) == b && Signed(0) == 0;
    assert Truncated(a, b) == a / b;
    assert a == b * (a / b) + a % b;
    assert a - (a / b) * b == a % b;
  }

  /** A divisor with the top bit set counts as negative: the quotient is negated, the remainder
      is that of the magnitude. */
  lemma {:induction false} NegativeDivisor(a: u32, b: u32)
    requires b >= 0x8000_0000
    ensures var m: int := 0x1_0000_0000 - b;
            SignedDivide(0, a, b) == if a / m > 0x8000_0000 then DivideError else Quotient(Wrap(-(a / m)), a % m)
  {
    var m: int := 0x1_0000_0000 - b;
    assert Signed(b) == -m && Signed(0) == 0;
    assert Truncated(a, -m) == -(a / m);
    assert a == m * (a / m) + a % m;
    assert a - (-(a / m)) * (-m) == a % m;
    DivBound(a, m);
  }

  /** The quotient and the remainder that the division code computes are the unsigned ones under
      exactly these conditions. */
  lemma {:induction false} DivisionCondition(a: u32, b: u32)
    ensures b >= 1 && SignedDivide(0, a, b).Quotient? && SignedDivide(0, a, b).q == Div32(a, b)
       <==> QuotientServed(a, b)
    ensures b >= 1 && SignedDivide(0, a, b).Quotient? && SignedDivide(0, a, b).r == Mod32(a, b)
       <==> RemainderServed(a, b)
  {
    hide *;
    QuotientServedIs(a, b);
    RemainderServedIs(a, b);
    if 1 <= b < 0x8000_0000 {
      PositiveDivisor(a, b);
    } else if b >= 0x8000_0000 {
      NegativeDivisor(a, b);
      NegatedQuotient(a, b);
      MagnitudeRemainder(a, b);
    }
  }

  lemma {:induction false} QuotientServedIs(a: u32, b: u32)
    ensures QuotientServed(a, b)
       <==> b >= 1 && if b < 0x8000_0000 then Div32(a, b) < 0x8000_0000 else a < 0x1_0000_0000 - b
  {
  }

  lemma {:induction false} RemainderServedIs(a: u32, b: u32)
    ensures RemainderServed(a, b)
       <==> b >= 1 && if b < 0x8000_0000 then Div32(a, b) < 0x8000_0000
                      else var m: int := 0x1_0000_0000 - b; a < m || (a >= b && b % m == 0 && m >= 2)
  {
  }

  lemma {:induction false} NegatedQuotient(a: u32, b: u32)
    requires b >= 0x8000_0000
    ensures var k := a / (0x1_0000_0000 - b);
            k <= 0x8000_0000 && Wrap(-k) == Div32(a, b) <==> a < 0x1_0000_0000 - b
  {
    var m: int := 0x1_0000_0000 - b;
    DivBound(a, m);
    SmallQuotient(a, b);
    if a < m {
      ModUnique(a, m, 0, a);
    } else {
      assert a == m * (a / m) + a % m;
      assert a / m >= 1;
    }
  }

  lemma {:induction false} SmallQuotient(a: u32, b: u32)
    requires b >= 0x8000_0000
    ensures Div32(a, b) == (if a < b then 0 else 1) && Mod32(a, b) == (if a < b then a else a - b)
  {
    if a < b { ModUnique(a, b, 0, a); } else { ModUnique(a, b, 1, a - b); }
  }

  lemma {:induction false} MagnitudeRemainder(a: u32, b: u32)
    requires b >= 0x8000_0000
    ensures var m: int := 0x1_0000_0000 - b;
            a / m <= 0x8000_0000 && a % m == Mod32(a, b) <==> a < m || (a >= b && b % m == 0 && m >= 2)
  {
    hide *;
    var m: int := 0x1_0000_0000 - b;
    SmallQuotient(a, b);
    if a < m {
      ModUnique(a, m, 0, a);
    } else if m == 1 {
      ModUnique(a, 1, a, 0);
    } else {
      Halved(a, m);
      if a >= b {
        SameRemainder(a, b, m);
      } else {
        DivBound(a, m);
      }
    }
  }

  lemma {:induction false} Halved(a: u32, m: int)
    requires m >= 2
    ensures a / m <= 0x8000_0000
  {
    var q := a / m;
    assert a == m * q + a % m;
    if q > 0x8000_0000 {
      MulMono(m, 2, q);
      assert false;
    }
  }

  /** a exceeds b by less than m: it leaves that excess exactly when m divides b. */
  lemma {:induction false} SameRemainder(a: int, b: int, m: int)
    requires m >= 1 && 0 <= a - b < m
    ensures a % m == a - b <==> b % m == 0
  {
    if b % m == 0 {
      assert b == (b / m) * m;
      ModUnique(a, m, b / m, a - b);
    }
    if a % m == a - b {
      assert b == (a / m) * m;
      ModUnique(b, m, a / m, 0);
    }
  }

  /** 0x80000000 / 1 faults; 5 / 0xFFFFFFFF gives -5; 5 % 0xFFFFFFFE leaves 1; and 0x80000000 / 0x80000000
      has the wrong quotient but the right remainder. */
  lemma {:induction false} DivisionWitnesses()
    ensures SignedDivide(0, 0x8000_0000, 1).DivideError?
    ensures SignedDivide(0, 5, 0xFFFF_FFFF) == Quotient(0xFFFF_FFFB, 0) && Div32(5, 0xFFFF_FFFF) == 0
    ensures SignedDivide(0, 5, 0xFFFF_FFFE) == Quotient(0xFFFF_FFFE, 1) && Mod32(5, 0xFFFF_FFFE) == 5
    ensures SignedDivide(0, 0x8000_0000, 0x8000_0000) == Quotient(0xFFFF_FFFF, 0)
    ensures Div32(0x8000_0000, 0x8000_0000) == 1 && Mod32(0x8000_0000, 0x8000_0000) == 0
  {
    PositiveDivisor(0x8000_0000, 1);
    NegativeDivisor(5, 0xFFFF_FFFF);
    NegativeDivisor(5, 0xFFFF_FFFE);
    NegativeDivisor(0x8000_0000, 0x8000_0000);
  }

  /** XOR EDX, EDX; IDIV ECX. */
  lemma {:induction false} ClearAndDivide(cpu: Cpu) returns (c: Cpu)
    requires SignedDivide(0, cpu.regs[EAX], cpu.regs[ECX]).Quotient?
    ensures var ins := [Alu(AluOp.Xor, EDX, EDX)] + [IDiv(ECX)];
            Straight(ins) && ExecAll(ins, cpu) == Next(c)
    ensures var d := SignedDivide(0, cpu.regs[EAX], cpu.regs[ECX]);
            c.regs[EAX] == d.q && c.regs[EDX] == d.r && Scratched(cpu, c)
  {
    hide SignedDivide, BitXor, BitAnd, BitOr;
    var i, j := Alu(AluOp.Xor, EDX, EDX), IDiv(ECX);
    XorSelf(cpu.regs[EDX]);
    var c1 := Exec(i, cpu).cpu;
    assert c1.regs[EDX] == 0 && c1.regs[EAX] == cpu.regs[EAX] && c1.regs[ECX] == cpu.regs[ECX] && Scratched(cpu, c1);
    c := Exec(j, c1).cpu;
    assert Scratched(c1, c);
    hide Exec;
    ExecOne(j, c1);
    ExecCons(i, [j], cpu);
  }

  lemma {:induction false} MoveTwo(cpu: Cpu) returns (c: Cpu)
    ensures var ins := [MovRR(EAX, EBX)] + [MovRR(ECX, EDX)];
            Straight(ins) && ExecAll(ins, cpu) == Next(c)
    ensures c.regs[EAX] == cpu.regs[EBX] && c.regs[ECX] == cpu.regs[EDX] && Scratched(cpu, c)
  {
    var i, j := MovRR(EAX, EBX), MovRR(ECX, EDX);
    var c1 := Exec(i, cpu).cpu;
    c := Exec(j, c1).cpu;
    hide Exec;
    ExecOne(j, c1);
    ExecCons(i, [j], cpu);
  }

  lemma {:induction false} MoveResult(result: Reg, cpu: Cpu) returns (c: Cpu)
    requires result == EAX || result == EDX
    ensures Straight([MovRR(EBX, result)]) && ExecAll([MovRR(EBX, result)], cpu) == Next(c)
    ensures c.regs[EBX] == cpu.regs[result] && Scratched(cpu, c)
  {
    c := SetReg(cpu, EBX, cpu.regs[result]);
    assert Exec(MovRR(EBX, result), cpu) == Next(c);
    hide Exec;
    ExecOne(MovRR(EBX, result), cpu);
  }

  lemma {:induction false} DivideParts(result: Reg)
    ensures Divide(result)
         == ([MovRR(EAX, EBX)] + [MovRR(ECX, EDX)]) + ([Alu(AluOp.Xor, EDX, EDX)] + [IDiv(ECX)]) + [MovRR(EBX, result)]
  {
  }

  lemma {:induction false} DivideRun(result: Reg, cpu: Cpu)
    requires (result == EAX && QuotientServed(cpu.regs[EBX], cpu.regs[EDX]))
             || (result == EDX && RemainderServed(cpu.regs[EBX], cpu.regs[EDX]))
    ensures cpu.regs[EDX] >= 1
    ensures var ins := Divide(result);
            && Straight(ins) && ExecAll(ins, cpu).Next?
            && var c := ExecAll(ins, cpu).cpu;
               var a, b := cpu.regs[EBX], cpu.regs[EDX];
               Scratched(cpu, c) && c.regs[EBX] == if result == EAX then Div32(a, b) else Mod32(a, b)
  {
    DivisionCondition(cpu.regs[EBX], cpu.regs[EDX]);
    hide *;
    Numbers();
    DivideParts(result);
    var c1 := MoveTwo(cpu);
    var c2 := ClearAndDivide(c1);
    var c3 := MoveResult(result, c2);
    var move, divide := [MovRR(EAX, EBX)] + [MovRR(ECX, EDX)], [Alu(AluOp.Xor, EDX, EDX)] + [IDiv(ECX)];
    ExecAllConcat(move, divide, cpu);
    ExecAllConcat(move + divide, [MovRR(EBX, result)], cpu);
    ScratchedTrans(cpu, c1, c2);
    ScratchedTrans(cpu, c2, c3);
  }

  lemma {:induction false} Numbers()
    ensures EAX == 0 && ECX == 1 && EDX == 2 && EBX == 3 && ESP == 4 && EBP == 5 && ESI == 6 && EDI == 7
  {
  }

  lemma {:induction false} OpRun(op: Op, cpu: Cpu)
    requires Apply(op, cpu.regs[EBX], cpu.regs[EDX]).Some?
    ensures var ins := OpCode(OpChar(op));
            Straight(ins) && ExecAll(ins, cpu).Next? && Applied(op, cpu, ExecAll(ins, cpu).cpu)
  {
    hide ExecAll, Straight, BitAnd, BitOr, BitXor, Scratched;
    match op {
      case Minus => AluRun(op, Alu(Sub, EBX, EDX), cpu);
      case Plus => AluRun(op, Alu(Add, EBX, EDX), cpu);
      case Times => AluRun(op, IMul(EBX, EDX), cpu);
      case Both => AluRun(op, Alu(And, EBX, EDX), cpu);
      case Xor => AluRun(op, Alu(AluOp.Xor, EBX, EDX), cpu);
      case Either => AluRun(op, Alu(Or, EBX, EDX), cpu);
      case Over => DivideRun(EAX, cpu);
      case Modulo => DivideRun(EDX, cpu);
      case Less => CompareRun(EBX, EDX, Below, cpu);
      case Greater => CompareRun(EDX, EBX, Below, cpu);
      case Differs => CompareRun(EBX, EDX, NotEqual, cpu);
      case Equals => CompareRun(EBX, EDX, Equal, cpu);
    }
  }

  // ----- whole expressions -----

  lemma {:induction false} TermsRun(ts: Terms, vars: seq<Variable>, st: SourceState, ro: RoData, cpu: Cpu, value: u32)
    requires TermsOk(ts, vars) && Mirrors(cpu, vars, st)
    requires Fold(cpu.regs[EBX], ts, vars, st, cpu.regs[EBP], ro) == Some(value)
    ensures var ins := TermsInstrs(ts, vars, ro);
            && Straight(ins) && ExecAll(ins, cpu).Next?
            && var c := ExecAll(ins, cpu).cpu;
               Scratched(cpu, c) && c.regs[EBX] == value
    decreases ts
  {
    match ts {
      case NoMore =>
        ExecNone(cpu);
      case Term(op, o, more) =>
        var b := OperandValue(o, vars, st, cpu.regs[EBP], ro).value;
        OperandRun(EDX, o, vars, st, ro, cpu, b);
        var load, apply := OperandInstrs(EDX, o, vars, ro), OpCode(OpChar(op));
        var c1 := ExecAll(load, cpu).cpu;
        assert c1.regs[EBX] == cpu.regs[EBX] && c1.regs[EDX] == b && Scratched(cpu, c1);
        OpRun(op, c1);
        var c2 := ExecAll(apply, c1).cpu;
        MirrorsScratched(cpu, c1, vars, st);
        MirrorsScratched(c1, c2, vars, st);
        TermsRun(more, vars, st, ro, c2, value);
        hide *;
        assert TermsInstrs(ts, vars, ro)
               == (load + apply) + TermsInstrs(more, vars, ro) by { TermsInstrsOf(op, o, more, vars, ro); }
        ExecAllConcat(load, apply, cpu);
        ExecAllConcat(load + apply, TermsInstrs(more, vars, ro), cpu);
        ScratchedTrans(cpu, c1, c2);
        ScratchedTrans(cpu, c2, ExecAll(TermsInstrs(more, vars, ro), c2).cpu);
    }
  }

  lemma {:induction false} TermsInstrsOf(op: Op, o: Operand, more: Terms, vars: seq<Variable>, ro: RoData)
    requires OperandOk(o, vars) && Unmarked(o) && TermsOk(more, vars)
    ensures TermsOk(Term(op, o, more), vars)
    ensures TermsInstrs(Term(op, o, more), vars, ro)
         == OperandInstrs(EDX, o, vars, ro) + OpCode(OpChar(op)) + TermsInstrs(more, vars, ro)
  {
  }

  lemma {:induction false} ScratchedTrans(a: Cpu, b: Cpu, c: Cpu)
    requires Scratched(a, b) && Scratched(b, c)
    ensures Scratched(a, c)
  {
  }

  /** The code of an expression leaves its value in EBX and touches nothing but the scratch
      registers and the flags. */
  lemma {:induction false} ExprComputes(e: Expression, vars: seq<Variable>, st: SourceState, ro: RoData, cpu: Cpu,
                                        value: u32)
    requires ExprOk(e, vars) && Mirrors(cpu, vars, st)
    requires Value(e, vars, st, cpu.regs[EBP], ro) == Some(value)
    ensures var ins := ExprInstrs(e, vars, ro);
            && Straight(ins) && ExecAll(ins, cpu).Next?
            && var c := ExecAll(ins, cpu).cpu;
               Scratched(cpu, c) && c.regs[EBX] == value
  {
    var a := OperandValue(e.first, vars, st, cpu.regs[EBP], ro).value;
    OperandRun(EBX, e.first, vars, st, ro, cpu, a);
    var first, terms := OperandInstrs(EBX, e.first, vars, ro), TermsInstrs(e.terms, vars, ro);
    var c := ExecAll(first, cpu).cpu;
    assert Scratched(cpu, c);
    MirrorsScratched(cpu, c, vars, st);
    TermsRun(e.terms, vars, st, ro, c, value);
    hide OperandInstrs, TermsInstrs, ExecAll, Mirrors, OperandValue, Fold;
    ExecAllConcat(first, terms, cpu);
    ScratchedTrans(cpu, c, ExecAll(terms, c).cpu);
  }
}
