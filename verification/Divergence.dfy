/** Programs that do not end: as long as the source runs on, so does the machine. */
module Divergence {
  import opened Wrappers
  import opened Words
  import opened X86
  import opened Ram
  import opened Machine
  import opened Tokenizer
  import opened Names
  import opened ExprCompiler
  import opened CompilerSpec
  import opened Source
  import opened BlockLayout
  import opened Frames
  import opened Simulation
  import opened CompilerCorrect

  // ----- where an unfinished run is stuck -----

  lemma {:induction false} UnfinishedIf(b: Block, vars: seq<Variable>, st: SourceState, frame: Frame, w: World,
                                        fuel: nat)
    returns (v: u32, st1: SourceState)
    requires DefsOk(w.defs) && b.If? && Eval(b, vars, st, frame, w.defs, w.ro, fuel).Unfinished?
    ensures Value(b.cond, vars, st, frame.ebp, w.ro) == Some(v)
    ensures v == 0 ==> Eval(b.next, VarsNext(b, vars), st, frame, w.defs, w.ro, fuel).Unfinished?
    ensures v != 0 ==>
              var r := Eval(b.body, vars, st, frame, w.defs, w.ro, fuel);
              || r.Unfinished?
              || (r == Ended(st1) && Eval(b.next, VarsNext(b, vars), st1, frame, w.defs, w.ro, fuel).Unfinished?)
  {
    hide Value, VarsAfter, DefsOk;
    v := Value(b.cond, vars, st, frame.ebp, w.ro).value;
    st1 := st;
    if v != 0 {
      var r := Eval(b.body, vars, st, frame, w.defs, w.ro, fuel);
      if r.Ended? {
        st1 := r.st;
      }
    }
  }

  lemma {:induction false} UnfinishedWhile(b: Block, vars: seq<Variable>, st: SourceState, frame: Frame, w: World,
                                           fuel: nat)
    returns (v: u32, st1: SourceState)
    requires DefsOk(w.defs) && b.While? && Eval(b, vars, st, frame, w.defs, w.ro, fuel).Unfinished?
    ensures Value(b.cond, vars, st, frame.ebp, w.ro) == Some(v)
    ensures v == 0 ==> Eval(b.next, VarsNext(b, vars), st, frame, w.defs, w.ro, fuel).Unfinished?
    ensures v != 0 && fuel > 0 ==>
              var r := Eval(b.body, vars, st, frame, w.defs, w.ro, fuel - 1);
              r.Unfinished? || (r == Ended(st1) && Eval(b, vars, st1, frame, w.defs, w.ro, fuel - 1).Unfinished?)
  {
    hide Value, DefsOk;
    v := Value(b.cond, vars, st, frame.ebp, w.ro).value;
    st1 := st;
    if v != 0 && fuel > 0 {
      var r := Eval(b.body, vars, st, frame, w.defs, w.ro, fuel - 1);
      if r.Ended? {
        st1 := r.st;
      }
    }
  }

  lemma {:induction false} UnfinishedCall(b: Block, vars: seq<Variable>, st: SourceState, frame: Frame, w: World,
                                          fuel: nat)
    returns (i: nat, values: seq<u32>, st1: SourceState)
    requires DefsOk(w.defs) && b.Call? && Eval(b, vars, st, frame, w.defs, w.ro, fuel).Unfinished?
    ensures FindDef(w.defs, b.name) == Some(i) && ArgValues(b.args, vars, st, frame.ebp, w.ro) == Some(values)
    ensures var r := EvalCall(w.defs, i, values, st.esi, st.edi, frame.esp, w.ro, fuel);
            var back := st.(esi := st1.esi, edi := st1.edi);
            || r.Unfinished?
            || (r == Ended(st1) && Eval(b.next, VarsNext(b, vars), back, frame, w.defs, w.ro, fuel).Unfinished?)
  {
    hide ArgValues, DefsOk, FindDef, EvalCall;
    i := FindDef(w.defs, b.name).value;
    values := ArgValues(b.args, vars, st, frame.ebp, w.ro).value;
    st1 := st;
    var r := EvalCall(w.defs, i, values, st.esi, st.edi, frame.esp, w.ro, fuel);
    if r.Ended? {
      st1 := r.st;
    }
  }

  lemma {:induction false} NotEnd(b: Block, vars: seq<Variable>, st: SourceState, frame: Frame, w: World, fuel: nat)
    requires DefsOk(w.defs) && Eval(b, vars, st, frame, w.defs, w.ro, fuel).Unfinished?
    ensures !b.End?
  {
    hide DefsOk;
  }

  lemma {:induction false} LandsBefore(code: seq<byte>, s: Site, p: int, cpu: Cpu, p': int, cpu': Cpu, n: nat)
    requires Lands(code, s, p, cpu, p', cpu') && Lasts(code, At(p', cpu'), n)
    ensures Lasts(code, At(p, cpu), n)
    ensures p != p' ==> Lasts(code, At(p, cpu), n + 1)
  {
    hide Reaches, Lasts, InFrame, Untouched;
    LastsBefore(code, At(p, cpu), At(p', cpu'), n);
  }

  lemma {:induction false} LastsNow(code: seq<byte>, p: int, cpu: Cpu)
    ensures Lasts(code, At(p, cpu), 0)
  {
  }

  // ----- blocks and calls -----

  /** A run that has not ended after some rounds of its loops keeps the machine busy for at least
      as many steps. */
  lemma {:induction false} LastsBlock(w: World, s: Site, b: Block, vars: seq<Variable>, st: SourceState, fuel: nat,
                                      p: int, cpu: Cpu)
    requires Ready(w, s, b, vars, p) && Good(s, vars, st, cpu) && DefsOk(w.defs)
    requires Eval(b, vars, st, s.frame, w.defs, w.ro, fuel).Unfinished?
    ensures Lasts(w.code, At(p, cpu), fuel)
    decreases |w.defs|, fuel, b
  {
    hide *;
    NotEnd(b, vars, st, s.frame, w, fuel);
    ReadyFacts(w, s, b, vars, p);
    ReadyNext(w, s, b, vars, p);
    NextVars(b, vars);
    if b.While? {
      LastsWhile(w, s, b, vars, st, fuel, p, cpu);
    } else if b.If? {
      LastsIf(w, s, b, vars, st, fuel, p, cpu);
    } else if b.Call? {
      LastsCall(w, s, b, vars, st, fuel, p, cpu);
    } else {
      var q := p + |HeadCode(b, vars, w.defs, w.funcs, w.ro)|;
      var st1, c := SimPlain(w, s, b, vars, st, Unfinished, fuel, p, cpu);
      LastsBlock(w, s, b.next, VarsNext(b, vars), st1, fuel, q, c);
      LandsBefore(w.code, s, p, cpu, q, c, fuel);
    }
  }

  lemma {:induction false} LastsIf(w: World, s: Site, b: Block, vars: seq<Variable>, st: SourceState, fuel: nat, p: int,
                                   cpu: Cpu)
    requires Ready(w, s, b, vars, p) && Good(s, vars, st, cpu) && DefsOk(w.defs) && b.If?
    requires Eval(b, vars, st, s.frame, w.defs, w.ro, fuel).Unfinished?
    ensures Lasts(w.code, At(p, cpu), fuel)
    decreases |w.defs|, fuel, b, 0
  {
    hide *;
    ReadyFacts(w, s, b, vars, p);
    ReadyNext(w, s, b, vars, p);
    NextVars(b, vars);
    var end := p + |HeadCode(b, vars, w.defs, w.funcs, w.ro)|;
    var v, st1 := UnfinishedIf(b, vars, st, s.frame, w, fuel);
    var q, c := IfTest(w, s, b, vars, st, p, cpu, v);
    if v == 0 {
      VarsGrow(b.body, vars);
      ReadyFacts(w, s, b.body, vars, q);
      GoodGrow(s, vars, VarsNext(b, vars), st, c);
      LastsBlock(w, s, b.next, VarsNext(b, vars), st, fuel, end, c);
      LandsBefore(w.code, s, p, cpu, end, c, fuel);
    } else {
      if Eval(b.body, vars, st, s.frame, w.defs, w.ro, fuel).Unfinished? {
        LastsBlock(w, s, b.body, vars, st, fuel, q, c);
      } else {
        var c2 := SimBlock(w, s, b.body, vars, st, st1, fuel, q, c);
        LastsBlock(w, s, b.next, VarsNext(b, vars), st1, fuel, end, c2);
        LandsBefore(w.code, s, q, c, end, c2, fuel);
      }
      LandsBefore(w.code, s, p, cpu, q, c, fuel);
    }
  }

  lemma {:induction false} LastsWhile(w: World, s: Site, b: Block, vars: seq<Variable>, st: SourceState, fuel: nat,
                                      p: int, cpu: Cpu)
    requires Ready(w, s, b, vars, p) && Good(s, vars, st, cpu) && DefsOk(w.defs) && b.While?
    requires Eval(b, vars, st, s.frame, w.defs, w.ro, fuel).Unfinished?
    ensures Lasts(w.code, At(p, cpu), fuel)
    decreases |w.defs|, fuel, b, 0
  {
    hide *;
    ReadyFacts(w, s, b, vars, p);
    ReadyNext(w, s, b, vars, p);
    NextVars(b, vars);
    var v, st1 := UnfinishedWhile(b, vars, st, s.frame, w, fuel);
    var q, c := WhileTest(w, s, b, vars, st, p, cpu, v);
    if v == 0 {
      var end := p + |HeadCode(b, vars, w.defs, w.funcs, w.ro)|;
      LastsBlock(w, s, b.next, VarsNext(b, vars), st, fuel, end, c);
      LandsBefore(w.code, s, p, cpu, end, c, fuel);
    } else if fuel == 0 {
      LastsNow(w.code, p, cpu);
    } else {
      if Eval(b.body, vars, st, s.frame, w.defs, w.ro, fuel - 1).Unfinished? {
        LastsBlock(w, s, b.body, vars, st, fuel - 1, q, c);
      } else {
        var r := q + |BlockCode(b.body, vars, w.defs, w.funcs, w.ro)|;
        var c2 := SimBlock(w, s, b.body, vars, st, st1, fuel - 1, q, c);
        BackLands(w.code, s, r, r - p, vars, st1, c2);
        LastsBlock(w, s, b, vars, st1, fuel - 1, p, c2);
        LandsBefore(w.code, s, r, c2, p, c2, fuel - 1);
        LandsBefore(w.code, s, q, c, r, c2, fuel - 1);
      }
      LandsBefore(w.code, s, p, cpu, q, c, fuel - 1);
    }
  }

  lemma {:induction false} LastsCall(w: World, s: Site, b: Block, vars: seq<Variable>, st: SourceState, fuel: nat,
                                     p: int, cpu: Cpu)
    requires Ready(w, s, b, vars, p) && Good(s, vars, st, cpu) && DefsOk(w.defs) && b.Call?
    requires Eval(b, vars, st, s.frame, w.defs, w.ro, fuel).Unfinished?
    ensures Lasts(w.code, At(p, cpu), fuel)
    decreases |w.defs|, fuel, b, 0
  {
    hide *;
    ReadyFacts(w, s, b, vars, p);
    var i, values, r := UnfinishedCall(b, vars, st, s.frame, w, fuel);
    var q, c1, c2 := EnterCall(w, s, b, vars, st, i, values, p, cpu);
    if EvalCall(w.defs, i, values, st.esi, st.edi, s.frame.esp, w.ro, fuel).Unfinished? {
      LastsFn(w, i, values, s.frame.esp, s.floor, fuel, c2);
      LastsBefore(w.code, At(p, cpu), At(w.funcs[i].addr, c2), fuel);
    } else {
      ReadyNext(w, s, b, vars, p);
      NextVars(b, vars);
      var end := p + |HeadCode(b, vars, w.defs, w.funcs, w.ro)|;
      var c := CallReturns(w, s, b, vars, st, i, values, r, fuel, p, cpu);
      LastsBlock(w, s, b.next, VarsNext(b, vars), st.(esi := r.esi, edi := r.edi), fuel, end, c);
      LandsBefore(w.code, s, p, cpu, end, c, fuel);
    }
  }

  lemma {:induction false} LastsFn(w: World, i: nat, values: seq<u32>, e: u32, floor: int, fuel: nat, cpu: Cpu)
    requires Loaded(w) && DefsOk(w.defs) && i < |w.defs| && |values| == |w.defs[i].params| && i < |w.funcs|
    requires EvalCall(w.defs, i, values, cpu.regs[ESI], cpu.regs[EDI], e, w.ro, fuel).Unfinished?
    requires cpu.regs[ESP] == e - 4 * |values| - 4 && Stacked(cpu.mem, e, values)
    requires 0 <= floor <= e - NeedCall(w.defs, i) && floor <= e && Mapped(cpu.mem, floor, e - floor)
    ensures Lasts(w.code, At(w.funcs[i].addr, cpu), fuel)
    decreases i, fuel + 1
  {
    hide *;
    var addr: int := w.funcs[i].addr;
    var s, st, p, c := EnterFn(w, i, values, e, floor, Unfinished, fuel, cpu);
    LastsBlock(Before(w, i), s, w.defs[i].body, ParamVars(w.defs[i].params), st, fuel, addr + 9, c);
    LastsBefore(w.code, At(addr, cpu), At(addr + 9, c), fuel);
  }

  // ----- whole texts -----

  /** A text that never ends, whatever the number of rounds, never stops the machine. */
  lemma {:induction false} CompiledRunsOn(text: string, defs: seq<Def>, main: Block, braced: bool, env: Env,
                                          code: seq<byte>, base: u32, cpu: Cpu, e: u32, floor: int, steps: nat)
    requires Lex(text) == UnitToks(defs, main, braced)
    requires DefsOk(defs) && |defs| <= CAPACITY && BlockOk(main, [], defs) && (braced || NoIf(main))
    requires forall d | d in defs :: Delimited(d)
    requires var r := Compile(Lex(text), [], [], env);
             r.Compiled? ==> Installed(code, r.funcs) && Placed(code, base, r.code)
    requires cpu.regs[ESP] == e - 4
    requires 0 <= floor <= e - UnitNeed(defs, main) && floor <= e && Mapped(cpu.mem, floor, e - floor)
    requires UnitMeaning(defs, main, cpu.regs[ESI], cpu.regs[EDI], e, env.ro, steps).Unfinished?
    ensures Lasts(code, At(base, cpu), steps)
  {
    hide *;
    var n := |defs|;
    var funcs := Table(defs, env, n);
    UnitEmits(defs, main, braced, env);
    InstalledLoaded(code, defs, env);
    var w := World(code, defs, funcs, env.ro);
    UnitLoaded(w, main, base);
    UnitCall(defs, main, cpu.regs[ESI], cpu.regs[EDI], e, env.ro, steps);
    UnitTable(funcs, defs);
    NoneStacked(cpu.mem, e);
    var w' := w.(defs := defs + [Unit(main)], funcs := funcs + [Function("", base, [])]);
    LastsFn(w', n, [], e, floor, steps, cpu);
  }
}
