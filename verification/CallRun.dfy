/** Entering and leaving a function. */
module CallRun {
  import opened Wrappers
  import opened Words
  import opened X86
  import opened Ram
  import opened Machine
  import opened Emitter
  import opened Names
  import opened ExprCompiler
  import opened CompilerSpec
  import opened Source
  import opened ExprRun
  import opened Frames
  import opened Simulation

  // ----- the frame of the callee -----

  /** PUSH EBP; MOV EBP, ESP; SUB ESP, n. */
  lemma {:induction false} PrologueExec(cpu: Cpu, ebp: int, n: nat) returns (c: Cpu)
    requires cpu.regs[ESP] == ebp + 4 && Mapped(cpu.mem, ebp, 4) && n <= ebp
    ensures Straight(Prologue(n)) && ExecAll(Prologue(n), cpu) == Next(c)
    ensures c.regs[EBP] == ebp && c.regs[ESP] == ebp - n
    ensures c.regs[ESI] == cpu.regs[ESI] && c.regs[EDI] == cpu.regs[EDI]
    ensures SameAbove(cpu.mem, c.mem, ebp + 4) && Stacked(c.mem, ebp + 4, [cpu.regs[EBP]])
  {
    var i, j, k := Push(EBP), MovRR(EBP, ESP), AluImm(SubI, ESP, n);
    var c1 := PushExec(cpu, EBP, ebp + 4);
    var c2 := SetReg(c1, EBP, ebp);
    MovExec(EBP, ESP, c1);
    ImmExec(SubI, ESP, n, c2);
    NoWrap(ebp, n);
    hide Exec, ExecAll, Stacked, SameAbove, Mapped, EncodeAll, Sub32, Put, Fetch;
    c := Exec(k, c2).cpu;
    ExecOne(k, c2);
    ExecCons(j, [k], c1);
    ExecCons(i, [j] + [k], cpu);
    assert Prologue(n) == [i] + ([j] + [k]);
  }

  /** A callee's frame that the stack has room for. */
  predicate Roomy(s: Site, m: Memory) {
    && Laid(s.all, s.k)
    && s.frame.esp == s.frame.ebp - FrameSize(s.all)
    && 0 <= s.floor <= s.frame.esp
    && Mapped(m, s.floor, s.frame.ebp + 8 + 4 * s.k - s.floor)
  }

  lemma {:induction false} RoomyFacts(s: Site, m: Memory)
    requires Roomy(s, m)
    ensures Mapped(m, s.frame.ebp, 4) && 0 <= FrameSize(s.all) <= s.frame.ebp
    ensures Wrap(FrameSize(s.all)) == FrameSize(s.all)
  {
    FrameSizePositive(s.all, s.k);
    hide Laid, FrameSize;
  }

  lemma {:induction false} RoomyFrame(s: Site, m: Memory, c: Cpu)
    requires Roomy(s, m) && c.mem.Keys == m.Keys
    requires c.regs[EBP] == s.frame.ebp && c.regs[ESP] == s.frame.ebp - FrameSize(s.all)
    ensures InFrame(s, c)
  {
    hide Laid, FrameSize;
  }

  lemma {:induction false} EnterReaches(code: seq<byte>, s: Site, p: int, cpu: Cpu) returns (c: Cpu)
    requires Roomy(s, cpu.mem) && cpu.regs[ESP] == s.frame.ebp + 4
    requires Placed(code, p, EncodeAll(Prologue(Wrap(FrameSize(s.all)))))
    ensures Reaches(code, At(p, cpu), At(p + 9, c))
    ensures InFrame(s, c) && c.regs[ESI] == cpu.regs[ESI] && c.regs[EDI] == cpu.regs[EDI]
    ensures SameAbove(cpu.mem, c.mem, s.frame.ebp + 4) && Stacked(c.mem, s.frame.ebp + 4, [cpu.regs[EBP]])
  {
    hide *;
    var n := FrameSize(s.all);
    RoomyFacts(s, cpu.mem);
    c := PrologueExec(cpu, s.frame.ebp, n);
    FrameLengths(n);
    RunStraight(code, p, Prologue(n), cpu);
    SameKeys(cpu.mem, c.mem, s.frame.ebp + 4);
    RoomyFrame(s, cpu.mem, c);
  }

  lemma {:induction false} SameKeys(m: Memory, m': Memory, e: int)
    requires SameAbove(m, m', e)
    ensures m'.Keys == m.Keys
  {
  }

  /** MOV ESP, EBP; POP EBP; RET: back to the return address with the saved EBP. */
  lemma {:induction false} LeaveReaches(code: seq<byte>, p: int, cpu: Cpu, ebp: int, saved: u32, ra: u32)
    returns (c: Cpu)
    requires cpu.regs[EBP] == ebp && Mapped(cpu.mem, ebp, 8) && ebp + 8 < 0x1_0000_0000
    requires Fetch(cpu.mem, ebp, 4) == saved && Fetch(cpu.mem, ebp + 4, 4) == ra
    requires Placed(code, p, EncodeAll(EPILOGUE))
    ensures Reaches(code, At(p, cpu), At(ra, c))
    ensures c.mem == cpu.mem && c.regs[ESP] == ebp + 8 && c.regs[EBP] == saved
    ensures c.regs[ESI] == cpu.regs[ESI] && c.regs[EDI] == cpu.regs[EDI]
  {
    hide *;
    var ins := [MovRR(ESP, EBP), Pop(EBP)];
    MappedTwice(cpu.mem, ebp);
    var c1 := LeaveExec(cpu, ebp, saved);
    EpilogueParts();
    PlacedSplit(code, p, EncodeAll(ins), Encode(Ret));
    c := RetExec(c1, ebp + 4, ra, p + |EncodeAll(ins)| + 1);
    FrameRegs(c1, c);
    RunStraight(code, p, ins, cpu);
    StepPlaced(code, p + |EncodeAll(ins)|, Ret, c1);
    ReachesTrans(code, At(p, cpu), At(p + |EncodeAll(ins)|, c1), At(ra, c));
  }

  lemma {:induction false} MappedFrom(m: Memory, a: int, n: nat)
    requires Mapped(m, a, n)
    ensures 0 <= a && a + n <= 0x1_0000_0000
  {
  }

  lemma {:induction false} MappedTwice(m: Memory, a: int)
    requires Mapped(m, a, 8)
    ensures Mapped(m, a, 4) && Mapped(m, a + 4, 4)
  {
  }

  lemma {:induction false} EpilogueParts()
    ensures EncodeAll(EPILOGUE) == EncodeAll([MovRR(ESP, EBP), Pop(EBP)]) + Encode(Ret)
    ensures Encodable(Ret) && |Encode(Ret)| == 1
  {
    assert EPILOGUE == [MovRR(ESP, EBP), Pop(EBP)] + [Ret];
    EncodeAllConcat([MovRR(ESP, EBP), Pop(EBP)], [Ret]);
    EncodeAllOne(Ret);
  }

  lemma {:induction false} LeaveExec(cpu: Cpu, ebp: int, saved: u32) returns (c: Cpu)
    requires cpu.regs[EBP] == ebp && Mapped(cpu.mem, ebp, 4) && ebp + 4 < 0x1_0000_0000
    requires Fetch(cpu.mem, ebp, 4) == saved
    ensures Straight([MovRR(ESP, EBP), Pop(EBP)]) && ExecAll([MovRR(ESP, EBP), Pop(EBP)], cpu) == Next(c)
    ensures c.mem == cpu.mem && c.regs[ESP] == ebp + 4 && c.regs[EBP] == saved
    ensures c.regs[ESI] == cpu.regs[ESI] && c.regs[EDI] == cpu.regs[EDI]
  {
    hide Fetch;
    var c1 := SetReg(cpu, ESP, ebp);
    c := SetReg(SetReg(c1, ESP, ebp + 4), EBP, saved);
    assert Exec(MovRR(ESP, EBP), cpu) == Next(c1);
    assert Exec(Pop(EBP), c1) == Next(c);
    hide Exec;
    ExecOne(Pop(EBP), c1);
    ExecCons(MovRR(ESP, EBP), [Pop(EBP)], cpu);
    assert [MovRR(ESP, EBP), Pop(EBP)] == [MovRR(ESP, EBP)] + [Pop(EBP)];
  }

  lemma {:induction false} RetExec(cpu: Cpu, e: int, ra: u32, pc: int) returns (c: Cpu)
    requires cpu.regs[ESP] == e && Mapped(cpu.mem, e, 4) && Fetch(cpu.mem, e, 4) == ra && e + 4 < 0x1_0000_0000
    ensures Advance(Ret, pc, cpu) == At(ra, c)
    ensures c.mem == cpu.mem && c.regs[ESP] == e + 4 && SameFrameRegs(cpu, c)
  {
    hide Fetch;
    c := SetReg(cpu, ESP, e + 4);
  }

  // ----- the call itself -----

  lemma {:induction false} CallParts(f: Function, n: nat)
    ensures EncodeAll(CallCode(f, n))
         == Encode(MovRI(EDX, f.addr))
            + (Encode(CallReg(EDX)) + (if n > 0 then Encode(AluImm(AddI, ESP, Wrap(4 * n))) else []))
    ensures |Encode(MovRI(EDX, f.addr))| == 5 && |Encode(CallReg(EDX))| == 2
    ensures |Encode(AluImm(AddI, ESP, Wrap(4 * n)))| == 6
  {
    var i, j, k := MovRI(EDX, f.addr), CallReg(EDX), AluImm(AddI, ESP, Wrap(4 * n));
    if n > 0 {
      assert CallCode(f, n) == [i] + [j, k];
      EncodeAllConcat([i], [j, k]);
      EncodeAllTwo(j, k);
    } else {
      assert CallCode(f, n) == [i] + [j];
      EncodeAllConcat([i], [j]);
      EncodeAllOne(j);
    }
    EncodeAllOne(i);
  }

  /** MOV EDX, addr; CALL EDX: at the function, with the address of the next instruction pushed. */
  lemma {:induction false} CallReaches(code: seq<byte>, p: int, addr: u32, cpu: Cpu, e: int) returns (c: Cpu)
    requires cpu.regs[ESP] == e && Mapped(cpu.mem, e - 4, 4)
    requires Placed(code, p, Encode(MovRI(EDX, addr))) && Placed(code, p + 5, Encode(CallReg(EDX)))
    requires |code| < 0x8000_0000
    ensures Reaches(code, At(p, cpu), At(addr, c))
    ensures c.regs[ESP] == e - 4 && SameFrameRegs(cpu, c) && 0 <= p + 7 < 0x8000_0000
    ensures SameAbove(cpu.mem, c.mem, e) && Stacked(c.mem, e, [p + 7])
  {
    hide *;
    var c1 := MovEdxExec(cpu, addr);
    CallLengths(addr);
    PlacedBounds(code, p + 5, Encode(CallReg(EDX)));
    PlacedBounds(code, p, Encode(MovRI(EDX, addr)));
    c := CallExec(c1, e, p + 7);
    SameFrameTrans(cpu, c1, c);
    StepNext(code, p, MovRI(EDX, addr), cpu);
    StepPlaced(code, p + 5, CallReg(EDX), c1);
    ReachesTrans(code, At(p, cpu), At(p + 5, c1), At(addr, c));
  }

  lemma {:induction false} MovEdxExec(cpu: Cpu, addr: u32) returns (c: Cpu)
    ensures Encodable(MovRI(EDX, addr)) && !Control(MovRI(EDX, addr)) && Exec(MovRI(EDX, addr), cpu) == Next(c)
    ensures c.regs[EDX] == addr && c.regs[ESP] == cpu.regs[ESP] && c.mem == cpu.mem && SameFrameRegs(cpu, c)
  {
    c := SetReg(cpu, EDX, addr);
  }

  lemma {:induction false} CallLengths(addr: u32)
    ensures |Encode(MovRI(EDX, addr))| == 5 && |Encode(CallReg(EDX))| == 2 && Encodable(CallReg(EDX))
  {
  }

  lemma {:induction false} SameFrameTrans(a: Cpu, b: Cpu, c: Cpu)
    requires SameFrameRegs(a, b) && SameFrameRegs(b, c)
    ensures SameFrameRegs(a, c)
  {
  }

  lemma {:induction false} CallExec(cpu: Cpu, e: int, ra: u32) returns (c: Cpu)
    requires cpu.regs[ESP] == e && Mapped(cpu.mem, e - 4, 4)
    ensures Advance(CallReg(EDX), ra, cpu) == At(cpu.regs[EDX], c)
    ensures c.regs[ESP] == e - 4 && SameFrameRegs(cpu, c)
    ensures SameAbove(cpu.mem, c.mem, e) && Stacked(c.mem, e, [ra])
  {
    hide *;
    MappedFrom(cpu.mem, e - 4, 4);
    NoWrap(e, 4);
    NoWrap(ra, 0);
    PutBelow(cpu.mem, e, ra);
    CallAdvance(EDX, ra, cpu);
    StackMoved(cpu, e - 4, Put(cpu.mem, e - 4, 4, ra));
    c := SetReg(cpu, ESP, e - 4).(mem := Put(cpu.mem, e - 4, 4, ra));
  }

  lemma {:induction false} DropLength(v: u32)
    ensures var i := AluImm(AddI, ESP, v); Encodable(i) && !Control(i) && |Encode(i)| == 6
  {
  }

  /** ADD ESP, 4n after the call, when there were arguments. */
  lemma {:induction false} DropReaches(code: seq<byte>, p: int, n: nat, cpu: Cpu, e: u32) returns (c: Cpu)
    requires cpu.regs[ESP] == e - 4 * n
    requires Placed(code, p, if n > 0 then Encode(AluImm(AddI, ESP, Wrap(4 * n))) else [])
    ensures Reaches(code, At(p, cpu), At(p + (if n > 0 then 6 else 0), c))
    ensures c.mem == cpu.mem && c.regs[ESP] == e && SameFrameRegs(cpu, c)
  {
    hide *;
    Numbers();
    if n > 0 {
      NoWrap(4 * n, e - 4 * n);
      NoWrap(e - 4 * n, 4 * n);
      var i := AluImm(AddI, ESP, 4 * n);
      ImmExec(AddI, ESP, 4 * n, cpu);
      DropLength(4 * n);
      c := Exec(i, cpu).cpu;
      FrameRegs(cpu, c);
      StepNext(code, p, i, cpu);
    } else {
      c := cpu;
      FrameRegs(cpu, c);
      ReachesRefl(code, At(p, cpu));
    }
  }

  // ----- parameters -----

  /** A narrow read sees the low bytes of a word. */
  lemma {:induction false} FetchLow(m: Memory, a: int, n: nat, k: nat)
    requires Mapped(m, a, n) && k <= n
    ensures Fetch(m, a, k) == Fetch(m, a, n) % Pow256(k)
    decreases n
  {
    if k == 0 {
      assert Fetch(m, a, n) % 1 == 0;
    } else {
      FetchLow(m, a + 1, n - 1, k - 1);
      var x := Fetch(m, a, n);
      assert x % 256 == m[a] && x / 256 == Fetch(m, a + 1, n - 1);
      ModStep(x, Pow256(k - 1));
    }
  }

  /** In the callee's frame, parameter i is the argument k - 1 - i, cut to the parameter's size. */
  lemma {:induction false} ParamsMirror(s: Site, ps: seq<Param>, values: seq<u32>, e: int, cpu: Cpu)
    requires ParamsOk(ps) && |values| == |ps| == s.k && e == s.frame.ebp + 8 + 4 * s.k
    requires cpu.regs[EBP] == s.frame.ebp && Stacked(cpu.mem, e, values)
    ensures forall p | p in ps :: ValidBits(p.bits)
    ensures Mirrors(cpu, ParamVars(ps), SourceState(Bound(ps, values), cpu.regs[ESI], cpu.regs[EDI]))
  {
    var vars := ParamVars(ps);
    var vals := Bound(ps, values);
    forall n | n in vals
      ensures Holds(cpu, vars, n, vals[n])
    {
      var i := ParamIndex(ps, values, n);
      hide ParamsOk, Stacked, Holds, Bound, Cut;
      ParamHolds(s, ps, values, e, cpu, i);
    }
    hide Bound, ParamVars, Holds, Stacked, ParamsOk;
  }

  /** Parameter i is bound to the argument k - 1 - i. */
  lemma {:induction false} ParamIndex(ps: seq<Param>, values: seq<u32>, n: string) returns (i: nat)
    requires |values| == |ps| && (forall p | p in ps :: ValidBits(p.bits)) && n in Bound(ps, values)
    ensures i < |ps| && ps[i].name == n && ValidBits(ps[i].bits)
    ensures Bound(ps, values)[n] == Cut(values[|ps| - 1 - i], ps[i].bits)
    decreases |ps|
  {
    assert ps[0] in ps;
    hide ValidBits, Cut;
    if ps[0].name == n {
      i := 0;
    } else {
      var j := ParamIndex(ps[1..], values[..|values| - 1], n);
      i := j + 1;
      assert ps[i] == ps[1..][j];
    }
  }

  lemma {:induction false} ParamHolds(s: Site, ps: seq<Param>, values: seq<u32>, e: int, cpu: Cpu, i: nat)
    requires ParamsOk(ps) && |values| == |ps| == s.k && e == s.frame.ebp + 8 + 4 * s.k
    requires cpu.regs[EBP] == s.frame.ebp && Stacked(cpu.mem, e, values) && i < |ps|
    requires ValidBits(ps[i].bits)
    ensures Holds(cpu, ParamVars(ps), ps[i].name, Cut(values[|ps| - 1 - i], ps[i].bits))
  {
    hide *;
    var j := |ps| - 1 - i;
    FindParam(ps, i);
    StackedAt(cpu.mem, e, values, j);
    assert e - 4 * j - 4 == s.frame.ebp - (-8 - 4 * i);
    SlotHolds(cpu, ParamVars(ps), Variable(ps[i].name, ps[i].bits, -8 - 4 * i), e - 4 * j - 4, values[j]);
  }

  lemma {:induction false} StackedAt(m: Memory, e: int, values: seq<u32>, j: nat)
    requires Stacked(m, e, values) && j < |values|
    ensures Mapped(m, e - 4 * j - 4, 4) && Fetch(m, e - 4 * j - 4, 4) == values[j]
  {
  }

  lemma {:induction false} SlotHolds(cpu: Cpu, vars: seq<Variable>, v: Variable, a: int, value: u32)
    requires FindVar(vars, v.name) == Some(v) && ValidBits(v.bits)
    requires a == cpu.regs[EBP] - v.rel && Mapped(cpu.mem, a, 4) && Fetch(cpu.mem, a, 4) == value
    ensures Holds(cpu, vars, v.name, Cut(value, v.bits))
  {
    hide FindVar, Fetch;
    FetchLow(cpu.mem, a, 4, Bytes(v));
  }

  lemma {:induction false} FindParam(ps: seq<Param>, i: nat)
    requires ParamsOk(ps) && i < |ps|
    ensures FindVar(ParamVars(ps), ps[i].name) == Some(Variable(ps[i].name, ps[i].bits, -8 - 4 * i))
  {
    var vars := ParamVars(ps);
    var r := FindVar(vars, ps[i].name);
    assert vars[i] in vars && vars[i].name == ps[i].name;
    var j :| 0 <= j < |vars| && vars[j] == r.value;
    assert ps[j].name == ps[i].name;
  }
}
