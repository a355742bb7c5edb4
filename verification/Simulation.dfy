/** The emitted bytes do what the source says. */
module Simulation {
  import opened Wrappers
  import opened Words
  import opened X86
  import opened Ram
  import opened Machine
  import opened Emitter
  import opened Names
  import opened ExprCompiler
  import opened CompilerSpec
  import opened Source
  import opened ExprLayout
  import opened BlockLayout
  import opened ExprRun
  import opened Frames

  /** The processor goes from p to p' with the frame in place and what is above it untouched. */
  ghost predicate Lands(code: seq<byte>, s: Site, p: int, cpu: Cpu, p': int, cpu': Cpu) {
    Reaches(code, At(p, cpu), At(p', cpu')) && InFrame(s, cpu') && Untouched(s, cpu.mem, cpu'.mem)
  }

  lemma {:induction false} LandsTrans(code: seq<byte>, s: Site, p: int, cpu: Cpu, p': int, cpu': Cpu, p'': int,
                                      cpu'': Cpu)
    requires Lands(code, s, p, cpu, p', cpu') && Lands(code, s, p', cpu', p'', cpu'')
    ensures Lands(code, s, p, cpu, p'', cpu'')
  {
    hide Reaches, InFrame, Untouched;
    ReachesTrans(code, At(p, cpu), At(p', cpu'), At(p'', cpu''));
    UntouchedTrans(s, cpu.mem, cpu'.mem, cpu''.mem);
  }

  lemma {:induction false} LandsHere(code: seq<byte>, s: Site, p: int, cpu: Cpu)
    requires InFrame(s, cpu)
    ensures Lands(code, s, p, cpu, p, cpu)
  {
    ReachesRefl(code, At(p, cpu));
    hide InFrame, Reaches;
  }

  /** The frame is in place and the variables compiled so far hold what the source says. */
  ghost predicate Good(s: Site, vars: seq<Variable>, st: SourceState, cpu: Cpu) {
    InFrame(s, cpu) && Mirrors(cpu, vars, st) && vars <= s.all
  }

  lemma {:induction false} GoodFacts(s: Site, vars: seq<Variable>, st: SourceState, cpu: Cpu)
    requires Good(s, vars, st, cpu)
    ensures Based(s, cpu) && Mirrors(cpu, vars, st) && vars <= s.all && cpu.regs[ESP] == s.frame.esp
    ensures cpu.regs[EBP] == s.frame.ebp && 0 <= s.floor
  {
    hide Laid, Mirrors, FrameSize;
  }

  lemma {:induction false} GoodOf(s: Site, vars: seq<Variable>, st: SourceState, cpu: Cpu)
    requires InFrame(s, cpu) && Mirrors(cpu, vars, st) && vars <= s.all
    ensures Good(s, vars, st, cpu)
  {
  }

  lemma {:induction false} ScratchedFrame(s: Site, cpu: Cpu, c: Cpu)
    requires InFrame(s, cpu) && Scratched(cpu, c)
    ensures InFrame(s, c) && Untouched(s, cpu.mem, c.mem)
  {
    assert c.regs[ESP] == cpu.regs[ESP] && c.regs[EBP] == cpu.regs[EBP];
    hide Laid;
  }

  // ----- expressions and assignments -----

  lemma {:induction false} ExprReaches(code: seq<byte>, p: int, e: Expression, vars: seq<Variable>, st: SourceState,
                                       ro: RoData, cpu: Cpu, v: u32) returns (c: Cpu)
    requires ExprOk(e, vars) && Mirrors(cpu, vars, st)
    requires Value(e, vars, st, cpu.regs[EBP], ro) == Some(v)
    requires Placed(code, p, EncodeAll(ExprInstrs(e, vars, ro)))
    ensures Reaches(code, At(p, cpu), At(p + |EncodeAll(ExprInstrs(e, vars, ro))|, c))
    ensures Scratched(cpu, c) && c.regs[EBX] == v
  {
    hide *;
    ExprComputes(e, vars, st, ro, cpu, v);
    c := ExecAll(ExprInstrs(e, vars, ro), cpu).cpu;
    RunStraight(code, p, ExprInstrs(e, vars, ro), cpu);
  }

  lemma {:induction false} ExprLands(code: seq<byte>, s: Site, p: int, e: Expression, vars: seq<Variable>,
                                     st: SourceState, ro: RoData, cpu: Cpu, v: u32) returns (c: Cpu)
    requires ExprOk(e, vars) && Good(s, vars, st, cpu)
    requires Value(e, vars, st, s.frame.ebp, ro) == Some(v)
    requires Placed(code, p, EncodeAll(ExprInstrs(e, vars, ro)))
    ensures Lands(code, s, p, cpu, p + |EncodeAll(ExprInstrs(e, vars, ro))|, c)
    ensures Good(s, vars, st, c) && c.regs[EBX] == v
  {
    assert cpu.regs[EBP] == s.frame.ebp by { hide Laid; }
    assert Mirrors(cpu, vars, st) && InFrame(s, cpu);
    hide InFrame, ExprOk, Value, ExprInstrs, EncodeAll, Mirrors, Placed, Reaches, Scratched;
    c := ExprReaches(code, p, e, vars, st, ro, cpu, v);
    ScratchedFrame(s, cpu, c);
    MirrorsScratched(cpu, c, vars, st);
  }

  lemma {:induction false} OneLands(code: seq<byte>, s: Site, p: int, i: Instr, cpu: Cpu, c: Cpu)
    requires Encodable(i) && !Control(i) && Exec(i, cpu) == Next(c)
    requires Placed(code, p, Encode(i)) && InFrame(s, c) && Untouched(s, cpu.mem, c.mem)
    ensures Lands(code, s, p, cpu, p + |Encode(i)|, c)
  {
    hide Exec, InFrame, Untouched, Encode, Placed, Reaches;
    StepNext(code, p, i, cpu);
  }

  lemma {:induction false} StoreVarIs(v: Variable)
    requires ValidBits(v.bits)
    ensures var i := Instr.Store(Bytes(v), EBP, Wrap(-v.rel), EBX);
            && EncodeAll(StoreVar(v)) == Encode(i) && Encodable(i) && !Control(i) && HasLow(Bytes(v), EBX)
  {
    assert StoreVar(v) == [Instr.Store(Bytes(v), EBP, Wrap(-v.rel), EBX)];
    EncodeAllOne(Instr.Store(Bytes(v), EBP, Wrap(-v.rel), EBX));
  }

  lemma {:induction false} SlotMapped(cpu: Cpu, v: Variable)
    requires HasSlot(cpu, v)
    ensures Mapped(cpu.mem, Slot(cpu, v), Bytes(v))
  {
  }

  lemma {:induction false} StoreLands(code: seq<byte>, s: Site, p: int, vars: seq<Variable>, st: SourceState,
                                      name: string, cpu: Cpu) returns (c: Cpu)
    requires Good(s, vars, st, cpu)
    requires FindVar(vars, name).Some? && ValidBits(FindVar(vars, name).value.bits)
    requires Placed(code, p, EncodeAll(StoreVar(FindVar(vars, name).value)))
    ensures Lands(code, s, p, cpu, p + |EncodeAll(StoreVar(FindVar(vars, name).value))|, c)
    ensures Good(s, vars, SetVar(st, vars, name, cpu.regs[EBX]), c)
  {
    var v := FindVar(vars, name).value;
    var i := Instr.Store(Bytes(v), EBP, Wrap(-v.rel), EBX);
    hide *;
    StoreVarIs(v);
    GoodFacts(s, vars, st, cpu);
    PutMirrors(s, cpu, vars, st, name, cpu.regs[EBX]);
    SlotAddress(cpu, v);
    SlotMapped(cpu, v);
    StoreExec(Bytes(v), EBP, Wrap(-v.rel), EBX, cpu);
    c := cpu.(mem := Put(cpu.mem, Slot(cpu, v), Bytes(v), cpu.regs[EBX]));
    GoodOf(s, vars, SetVar(st, vars, name, cpu.regs[EBX]), c);
    OneLands(code, s, p, i, cpu, c);
  }

  lemma {:induction false} RegLands(code: seq<byte>, s: Site, p: int, vars: seq<Variable>, st: SourceState, r: Reg,
                                    cpu: Cpu)
    returns (c: Cpu)
    requires Good(s, vars, st, cpu) && r != ESP && r != EBP
    requires Placed(code, p, AssignReg(r))
    ensures Lands(code, s, p, cpu, p + |AssignReg(r)|, c)
    ensures SetTarget(st, vars, ToReg(r), cpu.regs[EBX]).Some?
    ensures Good(s, vars, SetTarget(st, vars, ToReg(r), cpu.regs[EBX]).value, c)
  {
    c := SetReg(cpu, r, cpu.regs[EBX]);
    var st' := SetTarget(st, vars, ToReg(r), cpu.regs[EBX]).value;
    assert InFrame(s, c) && Untouched(s, cpu.mem, c.mem) by { hide Mirrors, Laid; }
    assert Mirrors(c, vars, st') by {
      hide InFrame, Fetch, FindVar;
      forall n | n in st'.vals
        ensures Holds(c, vars, n, st'.vals[n])
      {
        assert Holds(cpu, vars, n, st.vals[n]);
      }
    }
    hide InFrame, Mirrors, Untouched, Encode, Placed, Lands;
    if r == EBX {
      assert c.regs == cpu.regs;
      LandsHere(code, s, p, cpu);
    } else {
      assert Exec(MovRR(r, EBX), cpu) == Next(c);
      OneLands(code, s, p, MovRR(r, EBX), cpu, c);
    }
  }

  lemma {:induction false} TargetLands(code: seq<byte>, s: Site, p: int, vars: seq<Variable>, st: SourceState,
                                       t: Target, cpu: Cpu)
    returns (c: Cpu)
    requires Good(s, vars, st, cpu)
    requires if t.ToVar? then FindVar(vars, t.name).Some? else t.reg != ESP && t.reg != EBP
    requires SetTarget(st, vars, t, cpu.regs[EBX]).Some?
    requires Placed(code, p, TargetCode(t, vars))
    ensures Lands(code, s, p, cpu, p + |TargetCode(t, vars)|, c)
    ensures Good(s, vars, SetTarget(st, vars, t, cpu.regs[EBX]).value, c)
  {
    hide Good, Lands, Placed, EncodeAll, StoreVar, FindVar, AssignReg;
    match t {
      case ToVar(n) => c := StoreLands(code, s, p, vars, st, n, cpu);
      case ToReg(r) => c := RegLands(code, s, p, vars, st, r, cpu);
    }
  }

  lemma {:induction false} PlacedBounds(code: seq<byte>, p: int, b: seq<byte>)
    requires Placed(code, p, b)
    ensures 0 <= p && p + |b| <= |code|
  {
  }

  /** An expression and the use of its value, one after the other. */
  lemma {:induction false} AssignLands(code: seq<byte>, s: Site, p: int, e: Expression, t: Target, vars: seq<Variable>,
                                       st: SourceState, ro: RoData, cpu: Cpu, v: u32, st': SourceState) returns (c: Cpu)
    requires ExprOk(e, vars) && Good(s, vars, st, cpu)
    requires if t.ToVar? then FindVar(vars, t.name).Some? else t.reg != ESP && t.reg != EBP
    requires Value(e, vars, st, s.frame.ebp, ro) == Some(v) && SetTarget(st, vars, t, v) == Some(st')
    requires Placed(code, p, EncodeAll(ExprInstrs(e, vars, ro)) + TargetCode(t, vars))
    ensures Lands(code, s, p, cpu, p + |EncodeAll(ExprInstrs(e, vars, ro)) + TargetCode(t, vars)|, c)
    ensures Good(s, vars, st', c)
  {
    hide *;
    var first, second := EncodeAll(ExprInstrs(e, vars, ro)), TargetCode(t, vars);
    PlacedSplit(code, p, first, second);
    var mid := ExprLands(code, s, p, e, vars, st, ro, cpu, v);
    c := TargetLands(code, s, p + |first|, vars, st, t, mid);
    LandsTrans(code, s, p, cpu, p + |first|, mid, p + |first| + |second|, c);
  }

  // ----- tests and jumps -----

  lemma {:induction false} TestLength(skip: int)
    ensures EncodeAll(TestCode(skip)) == Encode(AluImm(CmpI, EBX, 0)) + Encode(JumpIf(Equal, Wrap(skip)))
    ensures |EncodeAll(TestCode(skip))| == 12
    ensures |Encode(AluImm(CmpI, EBX, 0))| == 6 && |Encode(JumpIf(Equal, Wrap(skip)))| == 6
  {
    EncodeAllTwo(AluImm(CmpI, EBX, 0), JumpIf(Equal, Wrap(skip)));
  }

  lemma {:induction false} WrapOffset(pc: int, offset: int)
    requires 0 <= pc + offset < 0x1_0000_0000
    ensures Add32(pc, Wrap(offset)) == pc + offset
  {
  }

  /** CMP EBX, 0; JE skip: falls into the block when EBX is not zero, and otherwise lands
      exactly `skip` bytes further. */
  lemma {:induction false} TestLands(code: seq<byte>, s: Site, p: int, skip: nat, vars: seq<Variable>, st: SourceState,
                                     cpu: Cpu)
    returns (c: Cpu)
    requires Good(s, vars, st, cpu) && Placed(code, p, EncodeAll(TestCode(skip)))
    requires p + 12 + skip < 0x1_0000_0000
    ensures Lands(code, s, p, cpu, if cpu.regs[EBX] == 0 then p + 12 + skip else p + 12, c)
    ensures Good(s, vars, st, c)
  {
    hide *;
    var cmp, jump := AluImm(CmpI, EBX, 0), JumpIf(Equal, Wrap(skip));
    var target := if cpu.regs[EBX] == 0 then p + 12 + skip else p + 12;
    TestLength(skip);
    PlacedSplit(code, p, Encode(cmp), Encode(jump));
    PlacedBounds(code, p, EncodeAll(TestCode(skip)));
    c := CompareLands(code, s, p, vars, st, cpu);
    TestTarget(c, cpu.regs[EBX] == 0, p + 12, skip);
    JumpLands(code, s, p + 6, jump, vars, st, c, target);
    LandsTrans(code, s, p, cpu, p + 6, c, target, c);
  }

  lemma {:induction false} CompareLands(code: seq<byte>, s: Site, p: int, vars: seq<Variable>, st: SourceState,
                                        cpu: Cpu)
    returns (c: Cpu)
    requires Good(s, vars, st, cpu) && Placed(code, p, Encode(AluImm(CmpI, EBX, 0)))
    ensures Lands(code, s, p, cpu, p + |Encode(AluImm(CmpI, EBX, 0))|, c)
    ensures Good(s, vars, st, c) && c.zf == Defined(cpu.regs[EBX] == 0)
  {
    c := Compare(cpu, cpu.regs[EBX], 0);
    assert Exec(AluImm(CmpI, EBX, 0), cpu) == Next(c) && Scratched(cpu, c);
    hide InFrame, Mirrors, Untouched, Encode, Placed, Lands;
    ScratchedFrame(s, cpu, c);
    MirrorsScratched(cpu, c, vars, st);
    OneLands(code, s, p, AluImm(CmpI, EBX, 0), cpu, c);
  }

  lemma {:induction false} TestTarget(c: Cpu, zero: bool, pc: int, skip: nat)
    requires c.zf == Defined(zero) && 0 <= pc && pc + skip < 0x1_0000_0000
    ensures Encodable(JumpIf(Equal, Wrap(skip)))
    ensures Advance(JumpIf(Equal, Wrap(skip)), pc, c) == At(if zero then pc + skip else pc, c)
  {
    WrapOffset(pc, skip);
  }

  lemma {:induction false} JumpLands(code: seq<byte>, s: Site, p: int, jump: Instr, vars: seq<Variable>,
                                     st: SourceState, c: Cpu, target: int)
    requires Good(s, vars, st, c) && Encodable(jump) && Placed(code, p, Encode(jump))
    requires Advance(jump, p + |Encode(jump)|, c) == At(target, c)
    ensures Lands(code, s, p, c, target, c)
  {
    assert Untouched(s, c.mem, c.mem) && InFrame(s, c);
    hide InFrame, Untouched, Mirrors, Advance, Placed, Encode, Reaches;
    StepPlaced(code, p, jump, c);
  }

  /** The closing jump of a loop of n bytes lands on the loop's first byte. */
  lemma {:induction false} BackLands(code: seq<byte>, s: Site, p: int, n: int, vars: seq<Variable>, st: SourceState,
                                     c: Cpu)
    requires Good(s, vars, st, c) && Placed(code, p, Encode(Jump(Wrap(-n - 5)))) && 0 <= p - n <= p
    requires |code| < 0x8000_0000
    ensures Lands(code, s, p, c, p - n, c)
  {
    var jump := Jump(Wrap(-n - 5));
    PlacedBounds(code, p, Encode(jump));
    WrapOffset(p + 5, -n - 5);
    assert |Encode(jump)| == 5 && Advance(jump, p + 5, c) == At(p - n, c);
    hide Good, Lands, Placed, Encode, Advance;
    JumpLands(code, s, p, jump, vars, st, c, p - n);
  }

  /** The condition of an `if` or `while` and its test. */
  lemma {:induction false} CondLands(code: seq<byte>, s: Site, p: int, e: Expression, skip: nat, vars: seq<Variable>,
                                     st: SourceState, ro: RoData, cpu: Cpu, v: u32) returns (c: Cpu)
    requires ExprOk(e, vars) && Good(s, vars, st, cpu)
    requires Value(e, vars, st, s.frame.ebp, ro) == Some(v)
    requires Placed(code, p, EncodeAll(ExprInstrs(e, vars, ro)) + EncodeAll(TestCode(skip)))
    requires |code| < 0x8000_0000 && p + |EncodeAll(ExprInstrs(e, vars, ro))| + 12 + skip <= |code|
    ensures var q := p + |EncodeAll(ExprInstrs(e, vars, ro))| + 12;
            Lands(code, s, p, cpu, if v == 0 then q + skip else q, c)
    ensures Good(s, vars, st, c)
  {
    hide *;
    var first := EncodeAll(ExprInstrs(e, vars, ro));
    PlacedSplit(code, p, first, EncodeAll(TestCode(skip)));
    var mid := ExprLands(code, s, p, e, vars, st, ro, cpu, v);
    c := TestLands(code, s, p + |first|, skip, vars, st, mid);
    var q := p + |first| + 12;
    LandsTrans(code, s, p, cpu, p + |first|, mid, if v == 0 then q + skip else q, c);
  }

  // ----- calls -----

  /** Pushed values lie below the address e, the first pushed highest. */
  predicate Stacked(m: Memory, e: int, values: seq<u32>) {
    forall j | 0 <= j < |values| :: Mapped(m, e - 4 * j - 4, 4) && Fetch(m, e - 4 * j - 4, 4) == values[j]
  }

  lemma {:induction false} PushReaches(code: seq<byte>, s: Site, p: int, vars: seq<Variable>, st: SourceState, cpu: Cpu,
                                       e: int)
    returns (c: Cpu)
    requires Based(s, cpu) && Mirrors(cpu, vars, st) && vars <= s.all
    requires cpu.regs[ESP] == e && s.floor <= e - 4 && e <= s.frame.esp
    requires Placed(code, p, Encode(Push(EBX)))
    ensures Reaches(code, At(p, cpu), At(p + 1, c))
    ensures Based(s, c) && Mirrors(c, vars, st) && c.regs[ESP] == e - 4
    ensures SameAbove(cpu.mem, c.mem, e) && Stacked(c.mem, e, [cpu.regs[EBX]])
  {
    hide *;
    StackMapped(s, cpu, e - 4, 4);
    c := PushExec(cpu, EBX, e);
    FrameRegs(cpu, c);
    SameAboveLess(cpu.mem, c.mem, e, s.frame.esp);
    BelowMirrors(s, cpu, c, vars, st);
    MirrorsRegs(cpu, vars, st);
    PushLength();
    StepNext(code, p, Push(EBX), cpu);
  }

  /** The stack below ESP is mapped down to its floor. */
  lemma {:induction false} StackMapped(s: Site, cpu: Cpu, a: int, n: nat)
    requires Based(s, cpu) && s.floor <= a && a + n <= s.frame.esp
    ensures Mapped(cpu.mem, a, n) && a >= 0
  {
    FrameSizePositive(s.all, s.k);
    hide Laid, FrameSize;
  }

  predicate SameFrameRegs(c: Cpu, c': Cpu) {
    c'.regs[EBP] == c.regs[EBP] && c'.regs[ESI] == c.regs[ESI] && c'.regs[EDI] == c.regs[EDI]
  }

  lemma {:induction false} FrameRegs(c: Cpu, c': Cpu)
    ensures SameFrameRegs(c, c')
       <==> c'.regs[EBP] == c.regs[EBP] && c'.regs[ESI] == c.regs[ESI] && c'.regs[EDI] == c.regs[EDI]
  {
  }

  lemma {:induction false} StackMoved(cpu: Cpu, a: u32, m: Memory)
    ensures var c := SetReg(cpu, ESP, a).(mem := m);
            c.mem == m && c.regs[ESP] == a && c.regs[EDX] == cpu.regs[EDX] && SameFrameRegs(cpu, c)
  {
  }

  lemma {:induction false} PushExec(cpu: Cpu, r: Reg, e: int) returns (c: Cpu)
    requires cpu.regs[ESP] == e && Mapped(cpu.mem, e - 4, 4)
    ensures Encodable(Push(r)) && !Control(Push(r)) && Exec(Push(r), cpu) == Next(c)
    ensures e - 4 >= 0 && c.regs[ESP] == e - 4 && SameFrameRegs(cpu, c)
    ensures SameAbove(cpu.mem, c.mem, e) && Stacked(c.mem, e, [cpu.regs[r]])
  {
    PutBelow(cpu.mem, e, cpu.regs[r]);
    assert Sub32(e, 4) == e - 4;
    hide Put, Stacked, SameAbove;
    c := SetReg(cpu, ESP, e - 4).(mem := Put(cpu.mem, e - 4, 4, cpu.regs[r]));
  }

  lemma {:induction false} PutBelow(m: Memory, e: int, v: u32)
    requires Mapped(m, e - 4, 4)
    ensures Mapped(Put(m, e - 4, 4, v), e - 4, 4)
    ensures SameAbove(m, Put(m, e - 4, 4, v), e) && Stacked(Put(m, e - 4, 4, v), e, [v])
  {
    hide Fetch;
    FetchPut(m, e - 4, 4, v);
    Pow256Values();
  }

  lemma {:induction false} MirrorsRegs(cpu: Cpu, vars: seq<Variable>, st: SourceState)
    requires Mirrors(cpu, vars, st)
    ensures cpu.regs[ESI] == st.esi && cpu.regs[EDI] == st.edi
  {
  }

  lemma {:induction false} BasedScratched(s: Site, cpu: Cpu, c: Cpu)
    requires Based(s, cpu) && Scratched(cpu, c)
    ensures Based(s, c) && c.regs[ESP] == cpu.regs[ESP] && c.regs[EBP] == cpu.regs[EBP] == s.frame.ebp
    ensures c.mem == cpu.mem
  {
    assert c.regs[ESP] == cpu.regs[ESP] && c.regs[EBP] == cpu.regs[EBP];
    hide Laid;
  }

  /** The arguments of a call are evaluated from left to right and end up on the stack, the
      last one lowest. */
  lemma {:induction false} ArgsReach(code: seq<byte>, s: Site, p: int, args: seq<Expression>, vars: seq<Variable>,
                                     st: SourceState, ro: RoData, cpu: Cpu, e: int, values: seq<u32>) returns (c: Cpu)
    requires forall a | a in args :: ExprOk(a, vars)
    requires Based(s, cpu) && Mirrors(cpu, vars, st) && vars <= s.all
    requires cpu.regs[ESP] == e && s.floor <= e - 4 * |args| && e <= s.frame.esp
    requires ArgValues(args, vars, st, s.frame.ebp, ro) == Some(values)
    requires Placed(code, p, ArgsCode(args, vars, ro))
    ensures Reaches(code, At(p, cpu), At(p + |ArgsCode(args, vars, ro)|, c))
    ensures Based(s, c) && Mirrors(c, vars, st) && c.regs[ESP] == e - 4 * |args|
    ensures |values| == |args| && SameAbove(cpu.mem, c.mem, e) && Stacked(c.mem, e, values)
    decreases |args|
  {
    hide *;
    if args == [] {
      NoArgs(vars, st, s.frame.ebp, ro, cpu.mem, e);
      ReachesRefl(code, At(p, cpu));
      c := cpu;
    } else {
      var v, vs := SomeArgs(args, vars, st, s.frame.ebp, ro, values);
      var ins := ExprInstrs(args[0], vars, ro);
      var first, push, more := EncodeAll(ins), Encode(Push(EBX)), ArgsCode(args[1..], vars, ro);
      PlacedSplit(code, p, first + push, more);
      PlacedSplit(code, p, first, push);
      BasedScratched(s, cpu, cpu) by { ScratchedRefl(cpu); }
      var c1 := ExprReaches(code, p, args[0], vars, st, ro, cpu, v);
      BasedScratched(s, cpu, c1);
      MirrorsScratched(cpu, c1, vars, st);
      var c2 := PushReaches(code, s, p + |first|, vars, st, c1, e);
      assert |push| == 1 by { PushLength(); }
      c := ArgsReach(code, s, p + |first| + 1, args[1..], vars, st, ro, c2, e - 4, vs);
      ReachesTrans(code, At(p, cpu), At(p + |first|, c1), At(p + |first| + 1, c2));
      ReachesTrans(code, At(p, cpu), At(p + |first| + 1, c2), At(p + |ArgsCode(args, vars, ro)|, c));
      StackedCons(c2.mem, c.mem, e, v, vs);
      SameAboveLess(c2.mem, c.mem, e - 4, e);
      SameAboveTrans(cpu.mem, c2.mem, c.mem, e);
    }
  }

  lemma {:induction false} ScratchedRefl(cpu: Cpu)
    ensures Scratched(cpu, cpu)
  {
  }

  lemma {:induction false} PushLength()
    ensures |Encode(Push(EBX))| == 1
  {
  }

  lemma {:induction false} NoArgs(vars: seq<Variable>, st: SourceState, ebp: u32, ro: RoData, m: Memory, e: int)
    ensures ArgValues([], vars, st, ebp, ro) == Some([]) && ArgsCode([], vars, ro) == []
    ensures SameAbove(m, m, e) && Stacked(m, e, [])
  {
  }

  lemma {:induction false} SomeArgs(args: seq<Expression>, vars: seq<Variable>, st: SourceState, ebp: u32, ro: RoData,
                                    values: seq<u32>)
    returns (v: u32, vs: seq<u32>)
    requires args != [] && ArgValues(args, vars, st, ebp, ro) == Some(values)
    requires forall a | a in args :: ExprOk(a, vars)
    ensures values == [v] + vs
    ensures Value(args[0], vars, st, ebp, ro) == Some(v) && ArgValues(args[1..], vars, st, ebp, ro) == Some(vs)
    ensures forall a | a in args[1..] :: ExprOk(a, vars)
    ensures ExprOk(args[0], vars)
    ensures ArgsCode(args, vars, ro)
         == EncodeAll(ExprInstrs(args[0], vars, ro)) + Encode(Push(EBX)) + ArgsCode(args[1..], vars, ro)
  {
    hide Value, ExprOk, EncodeAll, Encode, ExprInstrs;
    v, vs := Value(args[0], vars, st, ebp, ro).value, ArgValues(args[1..], vars, st, ebp, ro).value;
  }

  lemma {:induction false} StackedCons(m: Memory, m': Memory, e: int, v: u32, vs: seq<u32>)
    requires Stacked(m, e, [v]) && SameAbove(m, m', e - 4) && Stacked(m', e - 4, vs)
    ensures Stacked(m', e, [v] + vs)
  {
    hide Fetch;
    assert [v][0] == v;
    FetchSame(m, m', e - 4, 4);
    forall j | 0 <= j < |[v] + vs|
      ensures Mapped(m', e - 4 * j - 4, 4) && Fetch(m', e - 4 * j - 4, 4) == ([v] + vs)[j]
    {
      if j > 0 {
        assert vs[j - 1] == ([v] + vs)[j] && e - 4 * j - 4 == (e - 4) - 4 * (j - 1) - 4;
      }
    }
  }
}