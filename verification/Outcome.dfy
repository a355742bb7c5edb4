/** What becomes of a compiled text, without a bound on the rounds of its loops. */
module Outcome {
  import opened Words
  import opened X86
  import opened Ram
  import opened Machine
  import opened Tokenizer
  import opened Names
  import opened ExprCompiler
  import opened CompilerSpec
  import opened Source
  import opened BlockLayout
  import opened Frames
  import opened Simulation
  import opened CompilerCorrect
  import opened Divergence

  // ----- more rounds -----

  /** More rounds do not change a run that ends, or that has no meaning. */
  lemma {:induction false} EvalMore(b: Block, vars: seq<Variable>, st: SourceState, frame: Frame, defs: seq<Def>,
                                    ro: RoData, fuel: nat, more: nat)
    requires DefsOk(defs) && fuel <= more && !Eval(b, vars, st, frame, defs, ro, fuel).Unfinished?
    ensures Eval(b, vars, st, frame, defs, ro, more) == Eval(b, vars, st, frame, defs, ro, fuel)
    decreases |defs|, fuel, b
  {
    hide Value, SetTarget, DefsOk, ArgValues, FindDef, EvalCall, VarsAfter, NewVar;
    match b {
      case End =>
      case Assign(t, e, next) =>
        var v := Value(e, vars, st, frame.ebp, ro);
        if v.Some? && SetTarget(st, vars, t, v.value).Some? {
          EvalMore(next, vars, SetTarget(st, vars, t, v.value).value, frame, defs, ro, fuel, more);
        }
      case Declare(bits, n, e, next) =>
        var vars' := vars + [NewVar(bits, n, vars)];
        var v := Value(e, vars', st, frame.ebp, ro);
        if v.Some? && SetTarget(st, vars', ToVar(n), v.value).Some? {
          EvalMore(next, vars', SetTarget(st, vars', ToVar(n), v.value).value, frame, defs, ro, fuel, more);
        }
      case If(e, body, next) =>
        IfMore(b, vars, st, frame, defs, ro, fuel, more);
      case While(e, body, next) =>
        WhileMore(b, vars, st, frame, defs, ro, fuel, more);
      case Call(n, args, next) =>
        CallMore(b, vars, st, frame, defs, ro, fuel, more);
      case Nop(_, next) =>
        EvalMore(next, vars, st, frame, defs, ro, fuel, more);
    }
  }

  lemma {:induction false} IfMore(b: Block, vars: seq<Variable>, st: SourceState, frame: Frame, defs: seq<Def>,
                                  ro: RoData, fuel: nat, more: nat)
    requires DefsOk(defs) && fuel <= more && b.If? && !Eval(b, vars, st, frame, defs, ro, fuel).Unfinished?
    ensures Eval(b, vars, st, frame, defs, ro, more) == Eval(b, vars, st, frame, defs, ro, fuel)
    decreases |defs|, fuel, b, 0
  {
    hide Value, DefsOk, VarsAfter;
    var v := Value(b.cond, vars, st, frame.ebp, ro);
    if v.Some? {
      var st1 := st;
      if v.value != 0 {
        EvalMore(b.body, vars, st, frame, defs, ro, fuel, more);
        var r := Eval(b.body, vars, st, frame, defs, ro, fuel);
        if r.Ended? {
          st1 := r.st;
        }
      }
      if v.value == 0 || Eval(b.body, vars, st, frame, defs, ro, fuel).Ended? {
        EvalMore(b.next, VarsAfter(b.body, vars), st1, frame, defs, ro, fuel, more);
      }
    }
  }

  lemma {:induction false} WhileMore(b: Block, vars: seq<Variable>, st: SourceState, frame: Frame, defs: seq<Def>,
                                     ro: RoData, fuel: nat, more: nat)
    requires DefsOk(defs) && fuel <= more && b.While? && !Eval(b, vars, st, frame, defs, ro, fuel).Unfinished?
    ensures Eval(b, vars, st, frame, defs, ro, more) == Eval(b, vars, st, frame, defs, ro, fuel)
    decreases |defs|, fuel, b, 0
  {
    hide Value, DefsOk;
    var v := Value(b.cond, vars, st, frame.ebp, ro);
    if v.Some? {
      if v.value == 0 {
        EvalMore(b.next, vars, st, frame, defs, ro, fuel, more);
      } else if fuel > 0 {
        EvalMore(b.body, vars, st, frame, defs, ro, fuel - 1, more - 1);
        var r := Eval(b.body, vars, st, frame, defs, ro, fuel - 1);
        if r.Ended? {
          EvalMore(b, vars, r.st, frame, defs, ro, fuel - 1, more - 1);
        }
      }
    }
  }

  lemma {:induction false} CallMore(b: Block, vars: seq<Variable>, st: SourceState, frame: Frame, defs: seq<Def>,
                                    ro: RoData, fuel: nat, more: nat)
    requires DefsOk(defs) && fuel <= more && b.Call? && !Eval(b, vars, st, frame, defs, ro, fuel).Unfinished?
    ensures Eval(b, vars, st, frame, defs, ro, more) == Eval(b, vars, st, frame, defs, ro, fuel)
    decreases |defs|, fuel, b, 0
  {
    hide DefsOk, ArgValues, FindDef, EvalCall;
    var f, values := FindDef(defs, b.name), ArgValues(b.args, vars, st, frame.ebp, ro);
    if f.Some? && values.Some? {
      BodyMore(defs, f.value, values.value, st.esi, st.edi, frame.esp, ro, fuel, more);
      var r := EvalCall(defs, f.value, values.value, st.esi, st.edi, frame.esp, ro, fuel);
      if r.Ended? {
        EvalMore(b.next, vars, st.(esi := r.st.esi, edi := r.st.edi), frame, defs, ro, fuel, more);
      }
    }
  }

  lemma {:induction false} BodyMore(defs: seq<Def>, i: nat, values: seq<u32>, esi: u32, edi: u32, esp: u32, ro: RoData,
                                    fuel: nat, more: nat)
    requires DefsOk(defs) && i < |defs| && fuel <= more
    requires !EvalCall(defs, i, values, esi, edi, esp, ro, fuel).Unfinished?
    ensures EvalCall(defs, i, values, esi, edi, esp, ro, more) == EvalCall(defs, i, values, esi, edi, esp, ro, fuel)
    decreases i, fuel + 1
  {
    var d := defs[i];
    assert ParamsOk(d.params);
    hide Eval, DefsOk, Bound, CalleeFrame, BlockOk;
    if |values| == |d.params| {
      DefsOkPrefix(defs, i);
      EvalMore(d.body, ParamVars(d.params), SourceState(Bound(d.params, values), esi, edi), CalleeFrame(esp, d),
               defs[..i], ro, fuel, more);
    }
  }

  // ----- whole texts -----

  /** The meaning of a text: that of its run with enough rounds; unfinished if no number is enough. */
  ghost function TextMeaning(defs: seq<Def>, main: Block, esi: u32, edi: u32, esp: u32, ro: RoData): Meaning
    requires DefsOk(defs)
  {
    if exists fuel: nat :: !UnitMeaning(defs, main, esi, edi, esp, ro, fuel).Unfinished? then
      var fuel: nat :| !UnitMeaning(defs, main, esi, edi, esp, ro, fuel).Unfinished?;
      UnitMeaning(defs, main, esi, edi, esp, ro, fuel)
    else Unfinished
  }

  lemma {:induction false} UnitMore(defs: seq<Def>, main: Block, esi: u32, edi: u32, esp: u32, ro: RoData, fuel: nat,
                                    more: nat)
    requires DefsOk(defs) && !UnitMeaning(defs, main, esi, edi, esp, ro, fuel).Unfinished? && fuel <= more
    ensures UnitMeaning(defs, main, esi, edi, esp, ro, more) == UnitMeaning(defs, main, esi, edi, esp, ro, fuel)
  {
    hide Eval, DefsOk, CalleeFrame;
    EvalMore(main, [], SourceState(map[], esi, edi), CalleeFrame(esp, Unit(main)), defs, ro, fuel, more);
  }

  /** Whatever a run with some number of rounds comes to is the meaning, and stays so with more. */
  lemma {:induction false} Settled(defs: seq<Def>, main: Block, esi: u32, edi: u32, esp: u32, ro: RoData, fuel: nat)
    requires DefsOk(defs) && !UnitMeaning(defs, main, esi, edi, esp, ro, fuel).Unfinished?
    ensures TextMeaning(defs, main, esi, edi, esp, ro) == UnitMeaning(defs, main, esi, edi, esp, ro, fuel)
    ensures forall more: nat | fuel <= more ::
              UnitMeaning(defs, main, esi, edi, esp, ro, more) == UnitMeaning(defs, main, esi, edi, esp, ro, fuel)
  {
    hide DefsOk, UnitMeaning;
    forall more: nat | !UnitMeaning(defs, main, esi, edi, esp, ro, more).Unfinished?
      ensures UnitMeaning(defs, main, esi, edi, esp, ro, more) == UnitMeaning(defs, main, esi, edi, esp, ro, fuel)
    {
      if fuel <= more {
        UnitMore(defs, main, esi, edi, esp, ro, fuel, more);
      } else {
        UnitMore(defs, main, esi, edi, esp, ro, more, fuel);
      }
    }
    forall more: nat | fuel <= more
      ensures UnitMeaning(defs, main, esi, edi, esp, ro, more) == UnitMeaning(defs, main, esi, edi, esp, ro, fuel)
    {
      UnitMore(defs, main, esi, edi, esp, ro, fuel, more);
    }
  }

  /** A text has exactly one outcome: it ends in one state, or goes wrong, or runs for ever. */
  lemma {:induction false} OneOutcome(defs: seq<Def>, main: Block, esi: u32, edi: u32, esp: u32, ro: RoData, m: Meaning)
    requires DefsOk(defs)
    ensures TextMeaning(defs, main, esi, edi, esp, ro) == m
       <==> if m.Unfinished? then forall fuel: nat :: UnitMeaning(defs, main, esi, edi, esp, ro, fuel) == m
            else exists fuel: nat :: UnitMeaning(defs, main, esi, edi, esp, ro, fuel) == m
  {
    hide DefsOk, UnitMeaning;
    if exists fuel: nat :: !UnitMeaning(defs, main, esi, edi, esp, ro, fuel).Unfinished? {
      var fuel: nat :| !UnitMeaning(defs, main, esi, edi, esp, ro, fuel).Unfinished?;
      hide TextMeaning;
      Settled(defs, main, esi, edi, esp, ro, fuel);
      forall more: nat | !UnitMeaning(defs, main, esi, edi, esp, ro, more).Unfinished?
        ensures UnitMeaning(defs, main, esi, edi, esp, ro, more) == TextMeaning(defs, main, esi, edi, esp, ro)
      {
        Settled(defs, main, esi, edi, esp, ro, more);
      }
    }
  }

  /** The processor comes back to the caller in the given state. */
  ghost predicate Returns(code: seq<byte>, base: u32, cpu: Cpu, e: u32, ra: u32, st: SourceState) {
    exists c: Cpu :: Reaches(code, At(base, cpu), At(ra, c)) && Restored(cpu, c, e, st)
  }

  /** ESI and EDI as the source says, ESP, EBP and the memory above as they were. */
  ghost predicate Restored(cpu: Cpu, c: Cpu, e: u32, st: SourceState) {
    && c.regs[ESP] == e && c.regs[EBP] == cpu.regs[EBP] && c.regs[ESI] == st.esi && c.regs[EDI] == st.edi
    && SameAbove(cpu.mem, c.mem, e)
  }

  /** What becomes of a compiled text in memory: if the source ends, the processor returns to its
      caller with the source's result; if it runs for ever, the processor never stops. */
  lemma {:induction false} CompiledText(text: string, defs: seq<Def>, main: Block, braced: bool, env: Env,
                                        code: seq<byte>, base: u32, cpu: Cpu, e: u32, floor: int, ra: u32)
    requires Lex(text) == UnitToks(defs, main, braced)
    requires DefsOk(defs) && |defs| <= CAPACITY && BlockOk(main, [], defs) && (braced || NoIf(main))
    requires forall d | d in defs :: Delimited(d)
    requires var r := Compile(Lex(text), [], [], env);
             r.Compiled? ==> Installed(code, r.funcs) && Placed(code, base, r.code)
    requires cpu.regs[ESP] == e - 4 && Stacked(cpu.mem, e, [ra])
    requires 0 <= floor <= e - UnitNeed(defs, main) && floor <= e && Mapped(cpu.mem, floor, e - floor)
    ensures match TextMeaning(defs, main, cpu.regs[ESI], cpu.regs[EDI], e, env.ro)
            case Ended(st) => Returns(code, base, cpu, e, ra, st)
            case Unfinished => forall steps: nat :: Lasts(code, At(base, cpu), steps)
            case Undefined => true
  {
    hide *;
    var m := TextMeaning(defs, main, cpu.regs[ESI], cpu.regs[EDI], e, env.ro);
    OneOutcome(defs, main, cpu.regs[ESI], cpu.regs[EDI], e, env.ro, m);
    if m.Ended? {
      var fuel: nat :| UnitMeaning(defs, main, cpu.regs[ESI], cpu.regs[EDI], e, env.ro, fuel) == m;
      var c := CompiledRuns(text, defs, main, braced, env, code, base, cpu, e, floor, ra, fuel, m.st);
      ReturnsOf(code, base, cpu, e, ra, m.st, c);
    } else if m.Unfinished? {
      forall steps: nat
        ensures Lasts(code, At(base, cpu), steps)
      {
        CompiledRunsOn(text, defs, main, braced, env, code, base, cpu, e, floor, steps);
      }
    }
  }

  lemma {:induction false} ReturnsOf(code: seq<byte>, base: u32, cpu: Cpu, e: u32, ra: u32, st: SourceState, c: Cpu)
    requires Reaches(code, At(base, cpu), At(ra, c)) && SameAbove(cpu.mem, c.mem, e)
    requires c.regs[ESP] == e && c.regs[EBP] == cpu.regs[EBP] && c.regs[ESI] == st.esi && c.regs[EDI] == st.edi
    ensures Returns(code, base, cpu, e, ra, st)
  {
    assert Restored(cpu, c, e, st);
    hide Reaches, SameAbove, Restored;
  }
}
