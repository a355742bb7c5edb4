/** A processor for the instructions of X86: eight registers, the carry and zero flags, byte
    memory, and a program counter into a byte string. An undefined flag, a divide error, a
    memory access outside the mapped bytes and an undecodable byte all stop it. */
module Machine {
  import opened Words
  import opened Ram
  import opened X86

  type Regs = r: seq<u32> | |r| == 8 witness [0, 0, 0, 0, 0, 0, 0, 0]

  datatype Flag = Undefined | Defined(on: bool)
  datatype Cpu = Cpu(regs: Regs, cf: Flag, zf: Flag, mem: Memory)
  datatype Outcome = Stuck | Next(cpu: Cpu)
  datatype State = Halted | At(pc: int, cpu: Cpu)

  // ----- instructions -----

  function AluResult(op: AluOp, a: u32, b: u32): u32 {
    match op
    case Add => Add32(a, b)
    case Sub => Sub32(a, b)
    case And => BitAnd(a, b)
    case Or => BitOr(a, b)
    case Xor => BitXor(a, b)
  }

  function AluCarry(op: AluOp, a: u32, b: u32): bool {
    match op
    case Add => a >= 0x1_0000_0000 - b
    case Sub => a < b
    case _ => false
  }

  function Truncated(n: int, d: int): int
    requires d != 0
  {
    var q := (if n < 0 then -n else n) / (if d < 0 then -d else d);
    if (n < 0) == (d < 0) then q else -q
  }

  datatype Division = DivideError | Quotient(q: u32, r: u32)

  /** IDIV: the signed 64-bit dividend hi:lo by the signed divisor, truncating. */
  function SignedDivide(hi: u32, lo: u32, divisor: u32): Division {
    var n, d := Signed(hi) * 0x1_0000_0000 + lo, Signed(divisor);
    if d == 0 then DivideError
    else
      var q := Truncated(n, d);
      if -0x8000_0000 <= q < 0x8000_0000 then Quotient(Wrap(q), Wrap(n - q * d)) else DivideError
  }

  function Test(c: Cond, cpu: Cpu): Flag {
    match c
    case Below => cpu.cf
    case Equal => cpu.zf
    case NotEqual => if cpu.zf.Undefined? then Undefined else Defined(!cpu.zf.on)
  }

  function SetReg(cpu: Cpu, r: Reg, v: u32): Cpu {
    cpu.(regs := cpu.regs[r := v])
  }

  /** Replace the low n bytes of a register. */
  function SetLow(cpu: Cpu, r: Reg, n: Size, v: nat): Cpu
    requires v < Pow256(n)
  {
    Pow256Values();
    var was := cpu.regs[r];
    SetReg(cpu, r, was - was % Pow256(n) + v)
  }

  /** A one-byte operand names AL..BL only for register numbers below 4. */
  predicate HasLow(size: Size, r: Reg) {
    size != 1 || r < 4
  }

  function Compare(cpu: Cpu, a: u32, b: u32): Cpu {
    cpu.(cf := Defined(a < b), zf := Defined(a == b))
  }

  /** Instructions that fall through. */
  function Exec(i: Instr, cpu: Cpu): Outcome
    requires !Control(i)
  {
    match i
    case MovRR(d, s) => Next(SetReg(cpu, d, cpu.regs[s]))
    case MovRI(d, v) => Next(SetReg(cpu, d, v))
    case Store(n, b, disp, s) =>
      var a := Add32(cpu.regs[b], disp);
      if Mapped(cpu.mem, a, n) && HasLow(n, s) then Next(cpu.(mem := Put(cpu.mem, a, n, cpu.regs[s]))) else Stuck
    case Load(n, d, b, disp) =>
      var a := Add32(cpu.regs[b], disp);
      if Mapped(cpu.mem, a, n) && HasLow(n, d) then
        FetchBound(cpu.mem, a, n);
        Next(SetLow(cpu, d, n, Fetch(cpu.mem, a, n)))
      else Stuck
    case LoadInd(d, b) =>
      var a := cpu.regs[b];
      if Mapped(cpu.mem, a, 4) then Next(SetReg(cpu, d, Fetch32(cpu.mem, a))) else Stuck
    case Alu(op, d, s) =>
      var a, b := cpu.regs[d], cpu.regs[s];
      var v := AluResult(op, a, b);
      Next(SetReg(cpu, d, v).(cf := Defined(AluCarry(op, a, b)), zf := Defined(v == 0)))
    case AluImm(CmpI, d, v) => Next(Compare(cpu, cpu.regs[d], v))
    case AluImm(iop, d, v) =>
      var op := if iop == AddI then Add else Sub;
      var w := AluResult(op, cpu.regs[d], v);
      Next(SetReg(cpu, d, w).(cf := Defined(AluCarry(op, cpu.regs[d], v)), zf := Defined(w == 0)))
    case CmpRR(l, r) => Next(Compare(cpu, cpu.regs[l], cpu.regs[r]))
    case LoadAbs(d, a) =>
      if Mapped(cpu.mem, a, 4) then Next(SetReg(cpu, d, Fetch32(cpu.mem, a))) else Stuck
    case IMul(d, s) => Next(SetReg(cpu, d, Mul32(cpu.regs[d], cpu.regs[s])).(cf := Undefined, zf := Undefined))
    case IDiv(s) =>
      (match SignedDivide(cpu.regs[EDX], cpu.regs[EAX], cpu.regs[s])
       case DivideError => Stuck
       case Quotient(q, r) => Next(SetReg(SetReg(cpu, EAX, q), EDX, r).(cf := Undefined, zf := Undefined)))
    case SetCC(c, d) =>
      Pow256Values();
      if Test(c, cpu).Undefined? || d >= 4 then Stuck
      else Next(SetLow(cpu, d, 1, if Test(c, cpu).on then 1 else 0))
    case Push(s) =>
      var a := Sub32(cpu.regs[ESP], 4);
      if Mapped(cpu.mem, a, 4) then Next(SetReg(cpu, ESP, a).(mem := Put(cpu.mem, a, 4, cpu.regs[s]))) else Stuck
    case Pop(d) =>
      var a := cpu.regs[ESP];
      if Mapped(cpu.mem, a, 4) then Next(SetReg(SetReg(cpu, ESP, Add32(a, 4)), d, Fetch32(cpu.mem, a))) else Stuck
  }

  // ----- single instructions -----

  lemma {:induction false} MovExec(d: Reg, s: Reg, cpu: Cpu)
    ensures Exec(MovRR(d, s), cpu) == Next(SetReg(cpu, d, cpu.regs[s]))
  {
    hide AluResult, AluCarry, SignedDivide, SetReg;
  }

  lemma {:induction false} AluExec(op: AluOp, d: Reg, s: Reg, cpu: Cpu)
    ensures Exec(Alu(op, d, s), cpu).Next?
    ensures var c := Exec(Alu(op, d, s), cpu).cpu;
            c.mem == cpu.mem && c.regs == cpu.regs[d := AluResult(op, cpu.regs[d], cpu.regs[s])]
  {
    hide AluResult, AluCarry, SignedDivide;
  }

  lemma {:induction false} MulExec(d: Reg, s: Reg, cpu: Cpu)
    ensures Exec(IMul(d, s), cpu).Next?
    ensures var c := Exec(IMul(d, s), cpu).cpu;
            c.mem == cpu.mem && c.regs == cpu.regs[d := Mul32(cpu.regs[d], cpu.regs[s])]
  {
    hide AluResult, AluCarry, SignedDivide, Mul32;
  }

  lemma {:induction false} ImmExec(op: ImmOp, d: Reg, v: u32, cpu: Cpu)
    requires op != CmpI
    ensures Exec(AluImm(op, d, v), cpu).Next?
    ensures var c := Exec(AluImm(op, d, v), cpu).cpu;
            && c.mem == cpu.mem
            && c.regs == cpu.regs[d := if op == AddI then Add32(cpu.regs[d], v) else Sub32(cpu.regs[d], v)]
  {
    hide AluCarry, SignedDivide, Add32, Sub32;
  }

  lemma {:induction false} LoadExec(n: Size, d: Reg, b: Reg, disp: u32, cpu: Cpu)
    requires Mapped(cpu.mem, Add32(cpu.regs[b], disp), n) && HasLow(n, d)
    ensures Fetch(cpu.mem, Add32(cpu.regs[b], disp), n) < Pow256(n)
    ensures Exec(Instr.Load(n, d, b, disp), cpu)
         == Next(SetLow(cpu, d, n, Fetch(cpu.mem, Add32(cpu.regs[b], disp), n)))
  {
    FetchBound(cpu.mem, Add32(cpu.regs[b], disp), n);
    hide AluResult, AluCarry, SignedDivide, Fetch, SetLow, Add32, Mapped;
  }

  lemma {:induction false} StoreExec(n: Size, b: Reg, disp: u32, s: Reg, cpu: Cpu)
    requires Mapped(cpu.mem, Add32(cpu.regs[b], disp), n) && HasLow(n, s)
    ensures Exec(Instr.Store(n, b, disp, s), cpu)
         == Next(cpu.(mem := Put(cpu.mem, Add32(cpu.regs[b], disp), n, cpu.regs[s])))
  {
    hide AluResult, AluCarry, SignedDivide, Put, Add32, Mapped;
  }

  /** A narrow value fills the register when its other bits are clear, a full one always. */
  lemma {:induction false} SetLowFills(cpu: Cpu, r: Reg, n: Size, v: nat)
    requires v < Pow256(n) && (n == 4 || cpu.regs[r] == 0)
    ensures v < 0x1_0000_0000 && SetLow(cpu, r, n, v) == SetReg(cpu, r, v)
  {
    Pow256Values();
    hide Pow256;
  }

  predicate Control(i: Instr) {
    i.JumpIf? || i.Jump? || i.CallReg? || i.Ret?
  }

  /** One instruction with the program counter already past it. */
  function Advance(i: Instr, pc: int, cpu: Cpu): State {
    if !Control(i) then
      match Exec(i, cpu)
      case Stuck => Halted
      case Next(c) => At(pc, c)
    else
      match i
      case Jump(off) => At(Add32(pc, off), cpu)
      case JumpIf(c, off) =>
        if Test(c, cpu).Undefined? then Halted
        else if Test(c, cpu).on then At(Add32(pc, off), cpu) else At(pc, cpu)
      case CallReg(s) =>
        var a := Sub32(cpu.regs[ESP], 4);
        if Mapped(cpu.mem, a, 4) then
          At(cpu.regs[s], SetReg(cpu, ESP, a).(mem := Put(cpu.mem, a, 4, Wrap(pc))))
        else Halted
      case Ret =>
        var a := cpu.regs[ESP];
        if Mapped(cpu.mem, a, 4) then At(Fetch32(cpu.mem, a), SetReg(cpu, ESP, Add32(a, 4))) else Halted
  }

  lemma {:induction false} CallAdvance(s: Reg, pc: int, cpu: Cpu)
    requires Mapped(cpu.mem, Sub32(cpu.regs[ESP], 4), 4)
    ensures var a := Sub32(cpu.regs[ESP], 4);
            Advance(CallReg(s), pc, cpu) == At(cpu.regs[s], SetReg(cpu, ESP, a).(mem := Put(cpu.mem, a, 4, Wrap(pc))))
  {
    hide Exec, Put, Wrap, Sub32, SetReg;
  }

  function Step(code: seq<byte>, s: State): State {
    if s.Halted? || !(0 <= s.pc <= |code|) then Halted
    else
      match Decode(code[s.pc..])
      case Bad => Halted
      case Got(i, n) => Advance(i, s.pc + n, s.cpu)
  }

  function Run(code: seq<byte>, s: State, n: nat): State
    decreases n
  {
    if n == 0 then s else Run(code, Step(code, s), n - 1)
  }

  /** t is reached from s in finitely many steps. */
  ghost predicate Reaches(code: seq<byte>, s: State, t: State) {
    exists n: nat :: Run(code, s, n) == t
  }

  lemma {:induction false} RunPlus(code: seq<byte>, s: State, n: nat, k: nat)
    ensures Run(code, s, n + k) == Run(code, Run(code, s, n), k)
    decreases n
  {
    hide Step;
    if n > 0 {
      RunPlus(code, Step(code, s), n - 1, k);
    }
  }

  lemma {:induction false} ReachesRefl(code: seq<byte>, s: State)
    ensures Reaches(code, s, s)
  {
    assert Run(code, s, 0) == s;
  }

  lemma {:induction false} ReachesStep(code: seq<byte>, s: State)
    ensures Reaches(code, s, Step(code, s))
  {
    assert Run(code, Step(code, s), 0) == Step(code, s);
    assert Run(code, s, 1) == Step(code, s);
  }

  lemma {:induction false} ReachesTrans(code: seq<byte>, s: State, t: State, u: State)
    requires Reaches(code, s, t) && Reaches(code, t, u)
    ensures Reaches(code, s, u)
  {
    hide Step;
    var n: nat :| Run(code, s, n) == t;
    var k: nat :| Run(code, t, k) == u;
    RunPlus(code, s, n, k);
  }

  /** The machine has not stopped after n steps. */
  predicate Lasts(code: seq<byte>, s: State, n: nat) {
    Run(code, s, n).At?
  }

  lemma {:induction false} HaltedStays(code: seq<byte>, n: nat)
    ensures Run(code, Halted, n) == Halted
    decreases n
  {
    if n > 0 {
      HaltedStays(code, n - 1);
    }
  }

  lemma {:induction false} LastsLess(code: seq<byte>, s: State, n: nat, k: nat)
    requires Lasts(code, s, n + k)
    ensures Lasts(code, s, n)
  {
    hide Step;
    RunPlus(code, s, n, k);
    HaltedStays(code, k);
  }

  /** What lasts from a later state lasts from an earlier one, and longer unless they are the same. */
  lemma {:induction false} LastsBefore(code: seq<byte>, s: State, t: State, n: nat)
    requires Reaches(code, s, t) && Lasts(code, t, n)
    ensures Lasts(code, s, n)
    ensures s != t ==> Lasts(code, s, n + 1)
  {
    hide Step;
    var k: nat :| Run(code, s, k) == t;
    RunPlus(code, s, k, n);
    assert k + n == n + k;
    LastsLess(code, s, n, k);
    if s != t {
      assert Run(code, s, 0) == s;
      LastsLess(code, s, n + 1, k - 1);
    }
  }

  // ----- code in place -----

  /** The bytes b stand at offset p of the code. */
  predicate Placed(code: seq<byte>, p: int, b: seq<byte>) {
    0 <= p && p + |b| <= |code| && code[p..p + |b|] == b
  }

  lemma {:induction false} PlacedSplit(code: seq<byte>, p: int, a: seq<byte>, b: seq<byte>)
    requires Placed(code, p, a + b)
    ensures Placed(code, p, a) && Placed(code, p + |a|, b)
  {
    assert code[p..p + |a|] == (a + b)[..|a|];
    assert code[p + |a|..p + |a| + |b|] == (a + b)[|a|..];
  }

  lemma {:induction false} PlacedDecode(code: seq<byte>, p: int, i: Instr)
    requires Encodable(i) && Placed(code, p, Encode(i))
    ensures Decode(code[p..]) == Got(i, |Encode(i)|)
  {
    hide Encode, Decode;
    var n := |Encode(i)|;
    assert code[p..] == Encode(i) + code[p + n..] by {
      assert code[p..] == code[p..p + n] + code[p + n..];
    }
    DecodeEncode(i, code[p + n..]);
  }

  /** Executing one instruction that stands at the program counter. */
  lemma {:induction false} StepPlaced(code: seq<byte>, p: int, i: Instr, cpu: Cpu)
    requires Encodable(i) && Placed(code, p, Encode(i))
    ensures Step(code, At(p, cpu)) == Advance(i, p + |Encode(i)|, cpu)
    ensures Reaches(code, At(p, cpu), Advance(i, p + |Encode(i)|, cpu))
  {
    hide Advance, Encode, Decode, Run;
    PlacedDecode(code, p, i);
    ReachesStep(code, At(p, cpu));
  }

  /** The same for an instruction that falls through. */
  lemma {:induction false} StepNext(code: seq<byte>, p: int, i: Instr, cpu: Cpu)
    requires Encodable(i) && !Control(i) && Placed(code, p, Encode(i))
    requires Exec(i, cpu).Next?
    ensures Reaches(code, At(p, cpu), At(p + |Encode(i)|, Exec(i, cpu).cpu))
  {
    hide Step, Exec, Encode, Reaches;
    StepPlaced(code, p, i, cpu);
  }

  // ----- straight-line code -----

  predicate Straight(ins: seq<Instr>) {
    forall i | i in ins :: Encodable(i) && !Control(i)
  }

  function ExecAll(ins: seq<Instr>, cpu: Cpu): Outcome
    requires Straight(ins)
  {
    if ins == [] then Next(cpu)
    else
      match Exec(ins[0], cpu)
      case Stuck => Stuck
      case Next(c) => ExecAll(ins[1..], c)
  }

  lemma {:induction false} ExecAllConcat(a: seq<Instr>, b: seq<Instr>, cpu: Cpu)
    requires Straight(a) && Straight(b)
    ensures Straight(a + b)
    ensures ExecAll(a + b, cpu) == match ExecAll(a, cpu) case Stuck => Stuck case Next(c) => ExecAll(b, c)
  {
    if a == [] {
      assert a + b == b;
    } else {
      assert (a + b)[0] == a[0] && (a + b)[1..] == a[1..] + b;
      if Exec(a[0], cpu).Next? {
        ExecAllConcat(a[1..], b, Exec(a[0], cpu).cpu);
      }
    }
  }

  /** Straight-line code runs from its first byte to just past its last, wherever it stands. */
  lemma {:induction false} RunStraight(code: seq<byte>, p: int, ins: seq<Instr>, cpu: Cpu)
    requires Straight(ins) && Placed(code, p, EncodeAll(ins))
    requires ExecAll(ins, cpu).Next?
    ensures Reaches(code, At(p, cpu), At(p + |EncodeAll(ins)|, ExecAll(ins, cpu).cpu))
    decreases |ins|
  {
    hide Step, Exec, Encode, Reaches, Placed;
    if ins == [] {
      ReachesRefl(code, At(p, cpu));
    } else {
      var i, rest := ins[0], ins[1..];
      PlacedSplit(code, p, Encode(i), EncodeAll(rest));
      StepNext(code, p, i, cpu);
      var c := Exec(i, cpu).cpu;
      RunStraight(code, p + |Encode(i)|, rest, c);
      ReachesTrans(code, At(p, cpu), At(p + |Encode(i)|, c), At(p + |EncodeAll(ins)|, ExecAll(ins, cpu).cpu));
    }
  }
}
