/** Stack frames: where the variables of a function lie, and that they do not overlap. */
module Frames {
  import opened Words
  import opened X86
  import opened Ram
  import opened Machine
  import opened Names
  import opened ExprCompiler
  import opened CompilerSpec
  import opened Source
  import opened ExprRun

  /** k parameters eight bytes and more above EBP, four bytes each; below EBP the locals, each
      under the one before it and no larger. */
  predicate Laid(vars: seq<Variable>, k: nat) {
    k <= |vars| && (forall i | 0 <= i < |vars| :: LaidAt(vars, k, i)) && DistinctNames(vars)
  }

  predicate LaidAt(vars: seq<Variable>, k: nat, i: nat)
    requires i < |vars|
  {
    && ValidBits(vars[i].bits)
    && vars[i].rel == (if i < k then -8 - 4 * i else NextRel(vars[..i]))
    && (i > k ==> vars[i].bits <= vars[i - 1].bits)
  }

  predicate DistinctNames(vars: seq<Variable>) {
    forall i, j | 0 <= i < j < |vars| :: vars[i].name != vars[j].name
  }

  function Bytes(v: Variable): nat { v.bits / 8 }

  /** The two variables share no byte. */
  predicate Apart(v: Variable, w: Variable) {
    -v.rel + Bytes(v) <= -w.rel || -w.rel + Bytes(w) <= -v.rel
  }

  lemma {:induction false} LocalRel(vars: seq<Variable>, k: nat, i: nat)
    requires Laid(vars, k) && k <= i < |vars|
    ensures vars[i].rel >= 4
    ensures vars[i].rel == if i == k then 4 else vars[i - 1].rel + Bytes(vars[i - 1])
    decreases i
  {
    var before := vars[..i];
    assert LaidAt(vars, k, i);
    if i > k {
      LocalRel(vars, k, i - 1);
      assert before[|before| - 1] == vars[i - 1];
    } else if i > 0 {
      assert LaidAt(vars, k, i - 1) && before[|before| - 1] == vars[i - 1];
    }
  }

  lemma {:induction false} LocalsDescend(vars: seq<Variable>, k: nat, i: nat, j: nat)
    requires Laid(vars, k) && k <= i < j < |vars|
    ensures vars[j].rel >= vars[i].rel + Bytes(vars[i]) && vars[j].bits <= vars[i].bits
    decreases j
  {
    assert LaidAt(vars, k, j);
    LocalRel(vars, k, j);
    if j > i + 1 {
      LocalsDescend(vars, k, i, j - 1);
    }
  }

  /** All variables of a frame lie apart. */
  lemma {:induction false} SlotsApart(vars: seq<Variable>, k: nat, i: nat, j: nat)
    requires Laid(vars, k) && i < |vars| && j < |vars| && i != j
    ensures Apart(vars[i], vars[j])
  {
    assert LaidAt(vars, k, i) && LaidAt(vars, k, j);
    if i >= k && j >= k {
      if i < j { LocalsDescend(vars, k, i, j); } else { LocalsDescend(vars, k, j, i); }
    } else {
      if i >= k { LocalRel(vars, k, i); }
      if j >= k { LocalRel(vars, k, j); }
    }
  }

  /** Locals lie strictly between the patched ESP and EBP. */
  lemma {:induction false} LocalInside(vars: seq<Variable>, k: nat, i: nat)
    requires Laid(vars, k) && k <= i < |vars|
    ensures -FrameSize(vars) < -vars[i].rel && -vars[i].rel + Bytes(vars[i]) <= 0
  {
    hide Laid, NextRel;
    var last := |vars| - 1;
    SizeOf(vars, k, i);
    SizeOf(vars, k, last);
    LocalRel(vars, k, i);
    LocalRel(vars, k, last);
    if i < last {
      LocalsDescend(vars, k, i, last);
    }
    NextRelOf(vars);
  }

  lemma {:induction false} SizeOf(vars: seq<Variable>, k: nat, i: nat)
    requires Laid(vars, k) && i < |vars|
    ensures Bytes(vars[i]) == 1 || Bytes(vars[i]) == 2 || Bytes(vars[i]) == 4
  {
    assert LaidAt(vars, k, i);
  }

  lemma {:induction false} NextRelOf(vars: seq<Variable>)
    requires LastRel(vars) > 0
    ensures NextRel(vars) == vars[|vars| - 1].rel + Bytes(vars[|vars| - 1])
  {
  }

  /** Two neighbouring locals lie apart exactly when the later one is not larger: declaring a
      larger variable after a smaller one makes them overlap. */
  lemma {:induction false} NeighboursApart(vars: seq<Variable>, bits: nat, name: string)
    requires LastRel(vars) > 0 && bits % 8 == 0 && ValidBits(vars[|vars| - 1].bits)
    ensures Apart(vars[|vars| - 1], NewVar(bits, name, vars)) <==> bits <= vars[|vars| - 1].bits
  {
  }

  /** U8 a, then U32 b: the four bytes of b cover the byte of a. */
  lemma {:induction false} GrowingLocalsOverlap()
    ensures var a := NewVar(8, "a", []);
            var b := NewVar(32, "b", [a]);
            !Apart(a, b) && -b.rel < -a.rel < -b.rel + Bytes(b)
  {
  }

  /** A local array starts below the last local and grows up through the frame: it stays below EBP and
      apart from all other variables if and only if it has no more bytes than the last local, or than
      four when it is the first. */
  lemma {:induction false} ArrayFits(vars: seq<Variable>, k: nat, n: nat, name: string)
    requires Laid(vars, k)
    ensures var v := NewVar(8 * n, name, vars);
            (forall w | w in vars :: Apart(w, v)) && -v.rel + Bytes(v) <= 0
            <==> n <= if |vars| > k then Bytes(vars[|vars| - 1]) else 4
  {
    var v := NewVar(8 * n, name, vars);
    assert Bytes(v) == n;
    if |vars| > k {
      var last := |vars| - 1;
      LocalRel(vars, k, last);
      SizeOf(vars, k, last);
      NextRelOf(vars);
      assert vars[last] in vars;
    } else {
      NoLocals(vars, k);
    }
    forall w | w in vars && n <= if |vars| > k then Bytes(vars[|vars| - 1]) else 4
      ensures Apart(w, v)
    {
      var i :| 0 <= i < |vars| && vars[i] == w;
      assert LaidAt(vars, k, i);
      if i >= k {
        LocalRel(vars, k, i);
        if i < |vars| - 1 {
          LocalsDescend(vars, k, i, |vars| - 1);
        }
      }
    }
  }

  lemma {:induction false} NoLocals(vars: seq<Variable>, k: nat)
    requires Laid(vars, k) && |vars| <= k
    ensures NextRel(vars) == 4
  {
    if vars != [] {
      assert LaidAt(vars, k, |vars| - 1);
    }
  }

  /** Twelve bytes as the only local: the saved EBP and the return address lie inside. */
  lemma {:induction false} ArrayCoversFrame(name: string)
    ensures var v := NewVar(96, name, []); -v.rel == -4 && -v.rel + Bytes(v) == 8
  {
  }

  lemma {:induction false} LaidDeclare(vars: seq<Variable>, k: nat, bits: nat, name: string)
    requires Laid(vars, k) && CanDeclare(bits, name, vars)
    ensures Laid(vars + [NewVar(bits, name, vars)], k)
  {
    var v := NewVar(bits, name, vars);
    var all := vars + [v];
    forall i | 0 <= i < |all|
      ensures LaidAt(all, k, i)
    {
      if i < |vars| {
        assert LaidAt(vars, k, i) && all[..i] == vars[..i];
      } else {
        assert all[..i] == vars;
        if i > k {
          LocalRel(vars, k, i - 1);
        }
      }
    }
    assert DistinctNames(all) by {
      hide LaidAt, NextRel, Reserved, FindVar;
      forall i | 0 <= i < |vars|
        ensures vars[i].name != name
      {
        assert vars[i] in vars;
      }
    }
  }

  lemma {:induction false} LaidParams(ps: seq<Param>)
    requires ParamsOk(ps)
    ensures Laid(ParamVars(ps), |ps|)
  {
    var vars := ParamVars(ps);
    forall i | 0 <= i < |vars|
      ensures LaidAt(vars, |ps|, i)
    {
      assert ps[i] in ps;
    }
  }

  /** A block only adds variables, and keeps the frame laid out. */
  lemma {:induction false} LaidAfter(b: Block, vars: seq<Variable>, defs: seq<Def>, k: nat)
    requires BlockOk(b, vars, defs) && Laid(vars, k)
    ensures vars <= VarsAfter(b, vars) && Laid(VarsAfter(b, vars), k)
    decreases b
  {
    match b {
      case End =>
      case Declare(bits, n, _, next) =>
        LaidDeclare(vars, k, bits, n);
        LaidAfter(next, vars + [NewVar(bits, n, vars)], defs, k);
      case If(_, body, next) =>
        LaidAfter(body, vars, defs, k);
        LaidAfter(next, VarsAfter(body, vars), defs, k);
      case Assign(_, _, next) => LaidAfter(next, vars, defs, k);
      case While(_, _, next) => LaidAfter(next, vars, defs, k);
      case Call(_, _, next) => LaidAfter(next, vars, defs, k);
      case Nop(_, next) => LaidAfter(next, vars, defs, k);
    }
  }

  // ----- the frame in memory -----

  /** A running function: its frame registers, all its variables, k of them parameters, and the
      lowest byte of the stack. */
  datatype Site = Site(frame: Frame, all: seq<Variable>, k: nat, floor: int)

  /** The frame is in place: EBP is set, and the stack is mapped from its floor to the last argument. */
  predicate Based(s: Site, cpu: Cpu) {
    && Laid(s.all, s.k)
    && cpu.regs[EBP] == s.frame.ebp
    && s.frame.esp == s.frame.ebp - FrameSize(s.all)
    && 0 <= s.floor <= s.frame.esp
    && Mapped(cpu.mem, s.floor, s.frame.ebp + 8 + 4 * s.k - s.floor)
  }

  predicate InFrame(s: Site, cpu: Cpu) {
    Based(s, cpu) && cpu.regs[ESP] == s.frame.esp
  }

  /** What a function may not change: its saved EBP and return address, and everything above
      its arguments. */
  predicate Untouched(s: Site, m: Memory, m': Memory) {
    && m'.Keys == m.Keys
    && forall a | a in m && (s.frame.ebp <= a < s.frame.ebp + 8 || a >= s.frame.ebp + 8 + 4 * s.k) :: m'[a] == m[a]
  }

  lemma {:induction false} UntouchedTrans(s: Site, a: Memory, b: Memory, c: Memory)
    requires Untouched(s, a, b) && Untouched(s, b, c)
    ensures Untouched(s, a, c)
  {
  }

  /** Every variable of the frame has its bytes above ESP, and never the saved words. */
  lemma {:induction false} SlotInFrame(s: Site, cpu: Cpu, i: nat)
    requires Based(s, cpu) && i < |s.all|
    ensures HasSlot(cpu, s.all[i])
    ensures var a := Slot(cpu, s.all[i]);
            s.frame.esp < a && (a + Bytes(s.all[i]) <= s.frame.ebp || s.frame.ebp + 8 <= a) &&
            a + Bytes(s.all[i]) <= s.frame.ebp + 8 + 4 * s.k
  {
    assert LaidAt(s.all, s.k, i);
    if i >= s.k {
      LocalInside(s.all, s.k, i);
    } else {
      FrameSizePositive(s.all, s.k);
    }
  }

  lemma {:induction false} FrameSizePositive(vars: seq<Variable>, k: nat)
    requires Laid(vars, k)
    ensures FrameSize(vars) >= 4
  {
    if |vars| > k {
      LocalRel(vars, k, |vars| - 1);
    }
  }

  lemma {:induction false} IndexOf(vars: seq<Variable>, v: Variable) returns (i: nat)
    requires v in vars
    ensures i < |vars| && vars[i] == v
  {
    i :| i < |vars| && vars[i] == v;
  }

  /** Writing one variable: it reads back cut to its size, all others keep their values. */
  lemma {:induction false} PutMirrors(s: Site, cpu: Cpu, vars: seq<Variable>, st: SourceState, name: string, value: u32)
    requires Based(s, cpu) && Mirrors(cpu, vars, st) && vars <= s.all
    requires FindVar(vars, name).Some? && ValidBits(FindVar(vars, name).value.bits)
    ensures var v := FindVar(vars, name).value;
            && HasSlot(cpu, v)
            && var cpu' := cpu.(mem := Put(cpu.mem, Slot(cpu, v), Bytes(v), value));
               Based(s, cpu') && Mirrors(cpu', vars, SetVar(st, vars, name, value)) && Untouched(s, cpu.mem, cpu'.mem)
  {
    var v := FindVar(vars, name).value;
    var i := IndexOf(vars, v);
    hide Laid, SetVar, Mirrors, Fetch, FindVar, Put;
    SlotInFrame(s, cpu, i);
    assert s.all[i] == v;
    var cpu' := cpu.(mem := Put(cpu.mem, Slot(cpu, v), Bytes(v), value));
    assert Based(s, cpu') && Untouched(s, cpu.mem, cpu'.mem);
    hide Based, Untouched;
    PutHolds(s, cpu, vars, st, name, value);
  }

  lemma {:induction false} PutHolds(s: Site, cpu: Cpu, vars: seq<Variable>, st: SourceState, name: string, value: u32)
    requires Based(s, cpu) && Mirrors(cpu, vars, st) && vars <= s.all
    requires FindVar(vars, name).Some? && ValidBits(FindVar(vars, name).value.bits)
    requires HasSlot(cpu, FindVar(vars, name).value)
    ensures var v := FindVar(vars, name).value;
            Mirrors(cpu.(mem := Put(cpu.mem, Slot(cpu, v), Bytes(v), value)), vars, SetVar(st, vars, name, value))
  {
    hide Based, Fetch, FindVar, Holds, Put;
    var v := FindVar(vars, name).value;
    var cpu' := cpu.(mem := Put(cpu.mem, Slot(cpu, v), Bytes(v), value));
    var st' := SetVar(st, vars, name, value);
    SelfHolds(cpu, vars, name, value);
    forall n | n in st'.vals
      ensures Holds(cpu', vars, n, st'.vals[n])
    {
      if n != name {
        assert Holds(cpu, vars, n, st.vals[n]);
        OtherHolds(s, cpu, vars, name, n, value, st.vals[n]);
      }
    }
  }

  lemma {:induction false} SelfHolds(cpu: Cpu, vars: seq<Variable>, name: string, value: u32)
    requires FindVar(vars, name).Some? && HasSlot(cpu, FindVar(vars, name).value)
    ensures var v := FindVar(vars, name).value;
            Holds(cpu.(mem := Put(cpu.mem, Slot(cpu, v), Bytes(v), value)), vars, name, Cut(value, v.bits))
  {
    var v := FindVar(vars, name).value;
    hide FindVar, Fetch, Put;
    FetchPut(cpu.mem, Slot(cpu, v), Bytes(v), value);
  }

  lemma {:induction false} OtherHolds(s: Site, cpu: Cpu, vars: seq<Variable>, name: string, n: string, value: u32,
                                      value': u32)
    requires Based(s, cpu) && vars <= s.all && n != name
    requires FindVar(vars, name).Some? && HasSlot(cpu, FindVar(vars, name).value)
    requires Holds(cpu, vars, n, value')
    ensures var v := FindVar(vars, name).value;
            Holds(cpu.(mem := Put(cpu.mem, Slot(cpu, v), Bytes(v), value)), vars, n, value')
  {
    var v, w := FindVar(vars, name).value, FindVar(vars, n).value;
    hide FindVar, Fetch, Put, Laid, Based, Mapped, ValidBits;
    BasedLaid(s, cpu);
    VarsApart(s, vars, v, w);
    FetchPutApart(cpu.mem, Slot(cpu, v), Bytes(v), value, Slot(cpu, w), Bytes(w));
  }

  lemma {:induction false} BasedLaid(s: Site, cpu: Cpu)
    requires Based(s, cpu)
    ensures Laid(s.all, s.k)
  {
    hide Laid;
  }

  lemma {:induction false} VarsApart(s: Site, vars: seq<Variable>, v: Variable, w: Variable)
    requires Laid(s.all, s.k) && vars <= s.all && v in vars && w in vars && v != w
    ensures Apart(v, w)
  {
    var i := IndexOf(vars, v);
    var j := IndexOf(vars, w);
    assert s.all[i] == v && s.all[j] == w && i != j;
    hide Laid, Apart;
    SlotsApart(s.all, s.k, i, j);
  }

  /** Nothing at or above the given address has changed. */
  predicate SameAbove(m: Memory, m': Memory, e: int) {
    m'.Keys == m.Keys && forall a | a in m && a >= e :: m'[a] == m[a]
  }

  lemma {:induction false} SameAboveTrans(a: Memory, b: Memory, c: Memory, e: int)
    requires SameAbove(a, b, e) && SameAbove(b, c, e)
    ensures SameAbove(a, c, e)
  {
  }

  lemma {:induction false} SameAboveLess(a: Memory, b: Memory, e: int, e': int)
    requires SameAbove(a, b, e) && e <= e'
    ensures SameAbove(a, b, e')
  {
  }

  /** Writing below ESP disturbs no variable. */
  lemma {:induction false} BelowMirrors(s: Site, cpu: Cpu, cpu': Cpu, vars: seq<Variable>, st: SourceState)
    requires Based(s, cpu) && Mirrors(cpu, vars, st) && vars <= s.all
    requires SameAbove(cpu.mem, cpu'.mem, s.frame.esp) && cpu'.regs[EBP] == cpu.regs[EBP]
    ensures Based(s, cpu') && Untouched(s, cpu.mem, cpu'.mem)
    ensures Mirrors(cpu', vars, st.(esi := cpu'.regs[ESI], edi := cpu'.regs[EDI]))
  {
    assert Based(s, cpu') && Untouched(s, cpu.mem, cpu'.mem) by {
      FrameSizePositive(s.all, s.k);
      hide Laid, Mirrors, FrameSize;
    }
    hide Laid, FrameSize, Untouched, Holds, FindVar;
    forall n | n in st.vals
      ensures Holds(cpu', vars, n, st.vals[n])
    {
      assert Holds(cpu, vars, n, st.vals[n]);
      BelowHolds(s, cpu, cpu', vars, n, st.vals[n]);
    }
  }

  lemma {:induction false} BelowHolds(s: Site, cpu: Cpu, cpu': Cpu, vars: seq<Variable>, n: string, value: u32)
    requires Based(s, cpu) && Holds(cpu, vars, n, value) && vars <= s.all
    requires cpu'.mem.Keys == cpu.mem.Keys && cpu'.regs[EBP] == cpu.regs[EBP]
    requires forall a | a in cpu.mem && a >= s.frame.esp :: cpu'.mem[a] == cpu.mem[a]
    ensures Holds(cpu', vars, n, value)
  {
    var v := FindVar(vars, n).value;
    var i := IndexOf(vars, v);
    assert s.all[i] == v;
    hide Laid, Based, FindVar, Fetch, FrameSize, ValidBits;
    SlotInFrame(s, cpu, i);
    FetchSame(cpu.mem, cpu'.mem, Slot(cpu, v), Bytes(v));
  }
}
