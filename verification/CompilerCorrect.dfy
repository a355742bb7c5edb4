/** Compiler correctness: whenever a program's run ends, the processor running the emitted bytes
    reaches the end with every variable, ESI and EDI as the source says, and the frame intact. */
module CompilerCorrect {
  import opened Wrappers
  import opened Words
  import opened X86
  import opened Ram
  import opened Machine
  import opened Tokenizer
  import opened Names
  import opened ExprCompiler
  import opened CompilerSpec
  import opened Source
  import opened ExprLayout
  import opened BlockLayout
  import opened ExprRun
  import opened Frames
  import opened Simulation
  import opened CallRun

  // ----- the compiled program in memory -----

  /** Code memory, and the functions with their compiled entries. */
  datatype World = World(code: seq<byte>, defs: seq<Def>, funcs: seq<Function>, ro: RoData)

  /** Every function's code stands at its address. */
  ghost predicate Loaded(w: World) {
    && DefsOk(w.defs) && Tabled(w.funcs, w.defs) && |w.code| < 0x8000_0000
    && forall i | 0 <= i < |w.defs| :: LoadedAt(w, i)
  }

  ghost predicate LoadedAt(w: World, i: nat)
    requires DefsOk(w.defs) && Tabled(w.funcs, w.defs) && i < |w.defs|
  {
    assert Tabled(w.funcs[..i], w.defs[..i]);
    Placed(w.code, w.funcs[i].addr, FnCode(w.defs[i], w.defs[..i], w.funcs[..i], w.ro))
  }

  function Before(w: World, i: nat): World
    requires i <= |w.defs| && i <= |w.funcs|
  {
    w.(defs := w.defs[..i], funcs := w.funcs[..i])
  }

  lemma {:induction false} LoadedBefore(w: World, i: nat)
    requires Loaded(w) && i <= |w.defs|
    ensures Loaded(Before(w, i))
  {
    var b := Before(w, i);
    DefsOkPrefix(w.defs, i);
    assert Tabled(b.funcs, b.defs);
    hide FnCode, DefsOk;
    forall j | 0 <= j < i
      ensures LoadedAt(b, j)
    {
      assert LoadedAt(w, j);
      assert b.defs[..j] == w.defs[..j] && b.funcs[..j] == w.funcs[..j];
    }
  }

  // ----- stack depth -----

  /** How far below ESP a block reaches: the deepest chain of calls. Functions only call earlier
      ones, so every chain is finite. */
  function Need(b: Block, defs: seq<Def>): int
    decreases |defs|, b
  {
    match b
    case End => 0
    case Call(n, _, next) =>
      Max(match FindDef(defs, n) case None => 0 case Some(i) => NeedCall(defs, i), Need(next, defs))
    case If(_, body, next) => Max(Need(body, defs), Need(next, defs))
    case While(_, body, next) => Max(Need(body, defs), Need(next, defs))
    case Assign(_, _, next) => Need(next, defs)
    case Declare(_, _, _, next) => Need(next, defs)
    case Nop(_, next) => Need(next, defs)
  }

  /** Arguments, return address, saved EBP, the frame, and what the body needs. */
  function NeedCall(defs: seq<Def>, i: nat): int
    requires i < |defs|
    decreases i
  {
    var d := defs[i];
    4 * |d.params| + 8 + FrameSize(VarsAfter(d.body, ParamVars(d.params))) + Need(d.body, defs[..i])
  }

  // ----- one step of the meaning -----

  lemma {:induction false} EvalAssign(b: Block, vars: seq<Variable>, st: SourceState, frame: Frame, w: World, fuel: nat,
                                      m: Meaning)
    returns (v: u32, st1: SourceState)
    requires DefsOk(w.defs) && b.Assign? && Eval(b, vars, st, frame, w.defs, w.ro, fuel) == m && !m.Undefined?
    ensures Value(b.value, vars, st, frame.ebp, w.ro) == Some(v) && SetTarget(st, vars, b.target, v) == Some(st1)
    ensures Eval(b.next, VarsNext(b, vars), st1, frame, w.defs, w.ro, fuel) == m
  {
    hide Value, SetTarget, DefsOk;
    v := Value(b.value, vars, st, frame.ebp, w.ro).value;
    st1 := SetTarget(st, vars, b.target, v).value;
  }

  lemma {:induction false} EvalDeclare(b: Block, vars: seq<Variable>, st: SourceState, frame: Frame, w: World,
                                       fuel: nat, m: Meaning)
    returns (v: u32, st1: SourceState)
    requires DefsOk(w.defs) && b.Declare? && Eval(b, vars, st, frame, w.defs, w.ro, fuel) == m && !m.Undefined?
    ensures var vars' := VarsNext(b, vars);
            && Value(b.value, vars', st, frame.ebp, w.ro) == Some(v)
            && SetTarget(st, vars', ToVar(b.name), v) == Some(st1)
            && Eval(b.next, vars', st1, frame, w.defs, w.ro, fuel) == m
  {
    hide Value, SetTarget, DefsOk, NewVar;
    var vars' := vars + [NewVar(b.bits, b.name, vars)];
    v := Value(b.value, vars', st, frame.ebp, w.ro).value;
    st1 := SetTarget(st, vars', ToVar(b.name), v).value;
  }

  lemma {:induction false} EvalIf(b: Block, vars: seq<Variable>, st: SourceState, frame: Frame, w: World, fuel: nat,
                                  st': SourceState)
    returns (v: u32, st1: SourceState)
    requires DefsOk(w.defs) && b.If? && Eval(b, vars, st, frame, w.defs, w.ro, fuel) == Ended(st')
    ensures Value(b.cond, vars, st, frame.ebp, w.ro) == Some(v)
    ensures if v == 0 then st1 == st else Eval(b.body, vars, st, frame, w.defs, w.ro, fuel) == Ended(st1)
    ensures Eval(b.next, VarsNext(b, vars), st1, frame, w.defs, w.ro, fuel) == Ended(st')
  {
    hide Value, VarsAfter, DefsOk;
    v := Value(b.cond, vars, st, frame.ebp, w.ro).value;
    st1 := if v == 0 then st else Eval(b.body, vars, st, frame, w.defs, w.ro, fuel).st;
  }

  lemma {:induction false} EvalWhile(b: Block, vars: seq<Variable>, st: SourceState, frame: Frame, w: World, fuel: nat,
                                     st': SourceState)
    returns (v: u32, st1: SourceState)
    requires DefsOk(w.defs) && b.While? && Eval(b, vars, st, frame, w.defs, w.ro, fuel) == Ended(st')
    ensures Value(b.cond, vars, st, frame.ebp, w.ro) == Some(v)
    ensures v == 0 ==> Eval(b.next, VarsNext(b, vars), st, frame, w.defs, w.ro, fuel) == Ended(st')
    ensures v != 0 ==> fuel > 0 && Eval(b.body, vars, st, frame, w.defs, w.ro, fuel - 1) == Ended(st1)
                       && Eval(b, vars, st1, frame, w.defs, w.ro, fuel - 1) == Ended(st')
  {
    hide Value, DefsOk;
    v := Value(b.cond, vars, st, frame.ebp, w.ro).value;
    st1 := st;
    if v != 0 {
      st1 := Eval(b.body, vars, st, frame, w.defs, w.ro, fuel - 1).st;
    }
  }

  lemma {:induction false} EvalCallOf(b: Block, vars: seq<Variable>, st: SourceState, frame: Frame, w: World, fuel: nat,
                                      st': SourceState)
    returns (i: nat, values: seq<u32>, st1: SourceState)
    requires DefsOk(w.defs) && b.Call? && Eval(b, vars, st, frame, w.defs, w.ro, fuel) == Ended(st')
    ensures FindDef(w.defs, b.name) == Some(i) && ArgValues(b.args, vars, st, frame.ebp, w.ro) == Some(values)
    ensures EvalCall(w.defs, i, values, st.esi, st.edi, frame.esp, w.ro, fuel) == Ended(st1)
    ensures Eval(b.next, VarsNext(b, vars), st.(esi := st1.esi, edi := st1.edi), frame, w.defs, w.ro, fuel)
         == Ended(st')
  {
    hide ArgValues, DefsOk, FindDef, EvalCall;
    i := FindDef(w.defs, b.name).value;
    values := ArgValues(b.args, vars, st, frame.ebp, w.ro).value;
    st1 := EvalCall(w.defs, i, values, st.esi, st.edi, frame.esp, w.ro, fuel).st;
  }

  lemma {:induction false} EvalBody(w: World, i: nat, values: seq<u32>, esi: u32, edi: u32, esp: u32, fuel: nat,
                                    m: Meaning)
    requires DefsOk(w.defs) && i < |w.defs| && EvalCall(w.defs, i, values, esi, edi, esp, w.ro, fuel) == m
    requires !m.Undefined?
    ensures DefsOk(w.defs[..i])
    ensures var d := w.defs[i];
            && |values| == |d.params| && (forall p | p in d.params :: ValidBits(p.bits))
            && Eval(d.body, ParamVars(d.params), SourceState(Bound(d.params, values), esi, edi), CalleeFrame(esp, d),
                    w.defs[..i], w.ro, fuel) == m
  {
    DefsOkPrefix(w.defs, i);
    assert ParamsOk(w.defs[i].params);
    hide Eval, BlockOk, Bound, CalleeFrame;
  }

  // ----- what a block needs to run -----

  /** The block's code is in place, its variables fit the frame, and the stack is deep enough. */
  ghost predicate Ready(w: World, s: Site, b: Block, vars: seq<Variable>, p: int) {
    && Loaded(w)
    && BlockOk(b, vars, w.defs)
    && VarsAfter(b, vars) <= s.all
    && s.floor <= s.frame.esp - Need(b, w.defs)
    && Placed(w.code, p, BlockCode(b, vars, w.defs, w.funcs, w.ro))
  }

  lemma {:induction false} ReadyNext(w: World, s: Site, b: Block, vars: seq<Variable>, p: int)
    requires Ready(w, s, b, vars, p) && !b.End?
    ensures Placed(w.code, p, HeadCode(b, vars, w.defs, w.funcs, w.ro))
    ensures Ready(w, s, b.next, VarsNext(b, vars), p + |HeadCode(b, vars, w.defs, w.funcs, w.ro)|)
    ensures BlockOk(b.next, VarsNext(b, vars), w.defs)
    ensures BlockCode(b, vars, w.defs, w.funcs, w.ro)
         == HeadCode(b, vars, w.defs, w.funcs, w.ro) + BlockCode(b.next, VarsNext(b, vars), w.defs, w.funcs, w.ro)
    ensures VarsAfter(b, vars) == VarsAfter(b.next, VarsNext(b, vars))
  {
    hide LoadedAt, Placed, HeadCode, BlockCode, NeedCall, FindDef, ExprOk;
    NextOk(b, vars, w.defs);
    HeadCodeOf(b, vars, w.defs, w.funcs, w.ro);
    PlacedSplit(w.code, p, HeadCode(b, vars, w.defs, w.funcs, w.ro),
                BlockCode(b.next, VarsNext(b, vars), w.defs, w.funcs, w.ro));
    NeedNext(b, w.defs);
  }

  lemma {:induction false} NeedNext(b: Block, defs: seq<Def>)
    requires !b.End?
    ensures Need(b.next, defs) <= Need(b, defs)
    ensures b.If? || b.While? ==> Need(b.body, defs) <= Need(b, defs)
    ensures b.Call? && FindDef(defs, b.name).Some? ==> NeedCall(defs, FindDef(defs, b.name).value) <= Need(b, defs)
  {
    hide NeedCall, FindDef;
  }

  lemma {:induction false} ReadyFacts(w: World, s: Site, b: Block, vars: seq<Variable>, p: int)
    requires Ready(w, s, b, vars, p)
    ensures BlockOk(b, vars, w.defs) && DefsOk(w.defs) && Tabled(w.funcs, w.defs) && |w.code| < 0x8000_0000
    ensures VarsAfter(b, vars) <= s.all
  {
    hide BlockOk, DefsOk, Tabled, LoadedAt, VarsAfter, Placed, BlockCode;
  }

  lemma {:induction false} VarsGrow(b: Block, vars: seq<Variable>)
    ensures vars <= VarsAfter(b, vars)
    decreases b
  {
    if !b.End? {
      if b.If? {
        VarsGrow(b.body, vars);
      }
      VarsGrow(b.next, VarsNext(b, vars));
    }
  }

  // ----- first statements -----

  lemma {:induction false} AssignHead(w: World, s: Site, b: Block, vars: seq<Variable>, st: SourceState, p: int,
                                      cpu: Cpu, v: u32, st1: SourceState) returns (c: Cpu)
    requires BlockOk(b, vars, w.defs) && Tabled(w.funcs, w.defs) && b.Assign? && Good(s, vars, st, cpu)
    requires Placed(w.code, p, HeadCode(b, vars, w.defs, w.funcs, w.ro))
    requires Value(b.value, vars, st, s.frame.ebp, w.ro) == Some(v) && SetTarget(st, vars, b.target, v) == Some(st1)
    ensures Lands(w.code, s, p, cpu, p + |HeadCode(b, vars, w.defs, w.funcs, w.ro)|, c)
    ensures Good(s, VarsNext(b, vars), st1, c)
  {
    hide Good, Placed, EncodeAll, ExprInstrs, TargetCode, Value, SetTarget, Lands, ExprOk, FindVar, Reserved;
    c := AssignLands(w.code, s, p, b.value, b.target, vars, st, w.ro, cpu, v, st1);
  }

  /** A new name changes nothing for the others. */
  lemma {:induction false} DeclareGood(s: Site, vars: seq<Variable>, v: Variable, st: SourceState, cpu: Cpu)
    requires Good(s, vars, st, cpu) && vars + [v] <= s.all && FindVar(vars, v.name).None?
    ensures Good(s, vars + [v], st, cpu) && FindVar(vars + [v], v.name) == Some(v)
  {
    var vars' := vars + [v];
    hide InFrame, HasSlot, SlotValue;
    forall n | n in st.vals
      ensures Holds(cpu, vars', n, st.vals[n])
    {
      assert Holds(cpu, vars, n, st.vals[n]);
      FindVarPrefix(vars, [v], n);
    }
    FindVarPrefix(vars, [v], v.name);
  }

  lemma {:induction false} DeclareHead(w: World, s: Site, b: Block, vars: seq<Variable>, st: SourceState, p: int,
                                       cpu: Cpu, v: u32, st1: SourceState) returns (c: Cpu)
    requires BlockOk(b, vars, w.defs) && Tabled(w.funcs, w.defs) && b.Declare? && Good(s, vars, st, cpu)
    requires Placed(w.code, p, HeadCode(b, vars, w.defs, w.funcs, w.ro)) && VarsNext(b, vars) <= s.all
    requires Value(b.value, VarsNext(b, vars), st, s.frame.ebp, w.ro) == Some(v)
    requires SetTarget(st, VarsNext(b, vars), ToVar(b.name), v) == Some(st1)
    ensures Lands(w.code, s, p, cpu, p + |HeadCode(b, vars, w.defs, w.funcs, w.ro)|, c)
    ensures Good(s, VarsNext(b, vars), st1, c)
  {
    hide Good, Placed, EncodeAll, ExprInstrs, Value, SetTarget, Lands, ExprOk, FindVar, Reserved, NextRel;
    var vars' := VarsNext(b, vars);
    DeclareGood(s, vars, NewVar(b.bits, b.name, vars), st, cpu);
    assert TargetCode(ToVar(b.name), vars') == EncodeAll(StoreVar(NewVar(b.bits, b.name, vars)));
    c := AssignLands(w.code, s, p, b.value, ToVar(b.name), vars', st, w.ro, cpu, v, st1);
  }

  lemma {:induction false} IfPlaced(code: seq<byte>, p: int, cond: seq<byte>, block: seq<byte>)
    requires Placed(code, p, IfCode(cond, block))
    ensures |IfCode(cond, block)| == |cond| + 12 + |block|
    ensures Placed(code, p, cond + EncodeAll(TestCode(|block|))) && Placed(code, p + |cond| + 12, block)
    ensures 0 <= p && p + |cond| + 12 + |block| <= |code|
  {
    hide *;
    IfCodeOf(cond, block);
    TestLength(|block|);
    PlacedSplit(code, p, cond + EncodeAll(TestCode(|block|)), block);
    PlacedBounds(code, p, IfCode(cond, block));
  }

  lemma {:induction false} WhilePlaced(code: seq<byte>, p: int, cond: seq<byte>, block: seq<byte>)
    requires Placed(code, p, WhileCode(cond, block))
    ensures var n := |cond| + 12 + |block|;
            && |WhileCode(cond, block)| == n + 5
            && Placed(code, p, cond + EncodeAll(TestCode(|block| + 5))) && Placed(code, p + |cond| + 12, block)
            && Placed(code, p + n, Encode(Jump(Wrap(-n - 5))))
            && 0 <= p && p + n + 5 <= |code|
  {
    hide *;
    var loop := cond + EncodeAll(TestCode(|block| + 5)) + block;
    WhileCodeOf(cond, block);
    JumpLength(Wrap(-|loop| - 5));
    TestLength(|block| + 5);
    PlacedSplit(code, p, loop, Encode(Jump(Wrap(-|loop| - 5))));
    PlacedSplit(code, p, cond + EncodeAll(TestCode(|block| + 5)), block);
    PlacedBounds(code, p, WhileCode(cond, block));
  }

  lemma {:induction false} JumpLength(off: u32)
    ensures |Encode(Jump(off))| == 5
  {
  }

  lemma {:induction false} IfHeadOf(b: Block, vars: seq<Variable>, w: World)
    requires b.If? && BlockOk(b, vars, w.defs) && Tabled(w.funcs, w.defs)
    ensures BlockOk(b.body, vars, w.defs) && ExprOk(b.cond, vars)
    ensures HeadCode(b, vars, w.defs, w.funcs, w.ro)
         == IfCode(EncodeAll(ExprInstrs(b.cond, vars, w.ro)), BlockCode(b.body, vars, w.defs, w.funcs, w.ro))
  {
    hide BlockCode, ExprInstrs, EncodeAll, IfCode, ExprOk, VarsAfter, Tabled;
  }

  lemma {:induction false} WhileHeadOf(b: Block, vars: seq<Variable>, w: World)
    requires b.While? && BlockOk(b, vars, w.defs) && Tabled(w.funcs, w.defs)
    ensures BlockOk(b.body, vars, w.defs) && ExprOk(b.cond, vars) && NoDeclarations(b.body)
    ensures HeadCode(b, vars, w.defs, w.funcs, w.ro)
         == WhileCode(EncodeAll(ExprInstrs(b.cond, vars, w.ro)), BlockCode(b.body, vars, w.defs, w.funcs, w.ro))
  {
    hide BlockCode, ExprInstrs, EncodeAll, WhileCode, ExprOk, VarsAfter, NoDeclarations, Tabled;
  }

  /** The block of an `if` or `while` is ready where it stands. */
  lemma {:induction false} BodyReady(w: World, s: Site, b: Block, vars: seq<Variable>, p: int, q: int)
    requires Ready(w, s, b, vars, p) && (b.If? || b.While?) && BlockOk(b.body, vars, w.defs)
    requires b.While? ==> VarsAfter(b.body, vars) == vars
    requires Tabled(w.funcs, w.defs)
    requires Placed(w.code, q, BlockCode(b.body, vars, w.defs, w.funcs, w.ro))
    ensures Ready(w, s, b.body, vars, q)
  {
    NeedNext(b, w.defs);
    BodyVars(b, vars);
    hide Need, LoadedAt, DefsOk, Tabled, BlockCode, Placed, BlockOk, VarsAfter;
  }

  lemma {:induction false} BodyVars(b: Block, vars: seq<Variable>)
    requires b.If? || (b.While? && VarsAfter(b.body, vars) == vars)
    ensures VarsAfter(b.body, vars) <= VarsAfter(b, vars)
  {
    if b.If? {
      VarsGrow(b.next, VarsAfter(b.body, vars));
    } else {
      VarsGrow(b.next, vars);
    }
  }

  // ----- conditions -----

  /** The condition of an `if`: past the block, or at its first byte. */
  lemma {:induction false} IfTest(w: World, s: Site, b: Block, vars: seq<Variable>, st: SourceState, p: int, cpu: Cpu,
                                  v: u32)
    returns (q: int, c: Cpu)
    requires Ready(w, s, b, vars, p) && b.If? && Good(s, vars, st, cpu)
    requires Value(b.cond, vars, st, s.frame.ebp, w.ro) == Some(v)
    ensures BlockOk(b.body, vars, w.defs) && Ready(w, s, b.body, vars, q)
    ensures p + |HeadCode(b, vars, w.defs, w.funcs, w.ro)| == q + |BlockCode(b.body, vars, w.defs, w.funcs, w.ro)|
    ensures Lands(w.code, s, p, cpu, if v == 0 then p + |HeadCode(b, vars, w.defs, w.funcs, w.ro)| else q, c)
    ensures Good(s, vars, st, c)
  {
    hide *;
    ReadyFacts(w, s, b, vars, p);
    ReadyNext(w, s, b, vars, p);
    IfHeadOf(b, vars, w);
    var cond, block := EncodeAll(ExprInstrs(b.cond, vars, w.ro)), BlockCode(b.body, vars, w.defs, w.funcs, w.ro);
    IfPlaced(w.code, p, cond, block);
    q := p + |cond| + 12;
    BodyReady(w, s, b, vars, p, q);
    c := CondLands(w.code, s, p, b.cond, |block|, vars, st, w.ro, cpu, v);
  }

  /** The condition of a `while`: past the closing jump, or at the first byte of the block; and
      the closing jump after the block leads back to the first byte of the condition. */
  lemma {:induction false} WhileTest(w: World, s: Site, b: Block, vars: seq<Variable>, st: SourceState, p: int,
                                     cpu: Cpu, v: u32)
    returns (q: int, c: Cpu)
    requires Ready(w, s, b, vars, p) && b.While? && Good(s, vars, st, cpu)
    requires Value(b.cond, vars, st, s.frame.ebp, w.ro) == Some(v)
    ensures BlockOk(b.body, vars, w.defs) && Ready(w, s, b.body, vars, q) && VarsAfter(b.body, vars) == vars
    ensures var end := q + |BlockCode(b.body, vars, w.defs, w.funcs, w.ro)|;
            && 0 <= p < q <= end && p + |HeadCode(b, vars, w.defs, w.funcs, w.ro)| == end + 5
            && Placed(w.code, end, Encode(Jump(Wrap(-(end - p) - 5))))
    ensures Lands(w.code, s, p, cpu, if v == 0 then p + |HeadCode(b, vars, w.defs, w.funcs, w.ro)| else q, c)
    ensures Good(s, vars, st, c)
  {
    hide *;
    ReadyFacts(w, s, b, vars, p);
    ReadyNext(w, s, b, vars, p);
    WhileHeadOf(b, vars, w);
    NoDeclarationsAfter(b.body, vars);
    var cond, block := EncodeAll(ExprInstrs(b.cond, vars, w.ro)), BlockCode(b.body, vars, w.defs, w.funcs, w.ro);
    WhilePlaced(w.code, p, cond, block);
    q := p + |cond| + 12;
    BodyReady(w, s, b, vars, p, q);
    c := CondLands(w.code, s, p, b.cond, |block| + 5, vars, st, w.ro, cpu, v);
  }

  lemma {:induction false} NextVars(b: Block, vars: seq<Variable>)
    requires !b.End?
    ensures b.If? ==> VarsNext(b, vars) == VarsAfter(b.body, vars)
    ensures b.While? || b.Call? || b.Nop? ==> VarsNext(b, vars) == vars
  {
  }

  lemma {:induction false} GoodGrow(s: Site, vars: seq<Variable>, vars': seq<Variable>, st: SourceState, cpu: Cpu)
    requires Good(s, vars, st, cpu) && vars <= vars' <= s.all
    ensures Good(s, vars', st, cpu)
  {
    hide InFrame, HasSlot, SlotValue;
    assert vars' == vars + vars'[|vars|..];
    forall n | n in st.vals
      ensures Holds(cpu, vars', n, st.vals[n])
    {
      assert Holds(cpu, vars, n, st.vals[n]);
      FindVarPrefix(vars, vars'[|vars|..], n);
    }
  }

  // ----- blocks and calls -----

  /** From the first byte of a block whose run ends to just past its last byte. */
  lemma {:induction false} SimBlock(w: World, s: Site, b: Block, vars: seq<Variable>, st: SourceState, st': SourceState,
                                    fuel: nat, p: int, cpu: Cpu) returns (c: Cpu)
    requires Ready(w, s, b, vars, p) && Good(s, vars, st, cpu)
    requires Eval(b, vars, st, s.frame, w.defs, w.ro, fuel) == Ended(st')
    ensures Lands(w.code, s, p, cpu, p + |BlockCode(b, vars, w.defs, w.funcs, w.ro)|, c)
    ensures Good(s, VarsAfter(b, vars), st', c)
    decreases |w.defs|, fuel, b
  {
    hide *;
    ReadyFacts(w, s, b, vars, p);
    if b.End? {
      SimEnd(w, s, b, vars, st, st', fuel, p, cpu);
      c := cpu;
    } else {
      ReadyNext(w, s, b, vars, p);
      NextVars(b, vars);
      var q := p + |HeadCode(b, vars, w.defs, w.funcs, w.ro)|;
      if b.While? {
        c := SimWhile(w, s, b, vars, st, st', fuel, p, cpu);
      } else {
        var st1, c1 := st, cpu;
        if b.If? {
          st1, c1 := SimIf(w, s, b, vars, st, st', fuel, p, cpu);
        } else if b.Call? {
          st1, c1 := SimCall(w, s, b, vars, st, st', fuel, p, cpu);
        } else {
          st1, c1 := SimPlain(w, s, b, vars, st, Ended(st'), fuel, p, cpu);
        }
        c := SimBlock(w, s, b.next, VarsNext(b, vars), st1, st', fuel, q, c1);
        LandsTrans(w.code, s, p, cpu, q, c1, p + |BlockCode(b, vars, w.defs, w.funcs, w.ro)|, c);
      }
    }
  }

  lemma {:induction false} SimEnd(w: World, s: Site, b: Block, vars: seq<Variable>, st: SourceState, st': SourceState,
                                  fuel: nat, p: int, cpu: Cpu)
    requires Ready(w, s, b, vars, p) && Good(s, vars, st, cpu) && b.End?
    requires Eval(b, vars, st, s.frame, w.defs, w.ro, fuel) == Ended(st')
    ensures Lands(w.code, s, p, cpu, p + |BlockCode(b, vars, w.defs, w.funcs, w.ro)|, cpu)
    ensures Good(s, VarsAfter(b, vars), st', cpu)
  {
    assert InFrame(s, cpu);
    hide InFrame, Mirrors, Lands, Placed, LoadedAt;
    LandsHere(w.code, s, p, cpu);
  }

  lemma {:induction false} SimIf(w: World, s: Site, b: Block, vars: seq<Variable>, st: SourceState, st': SourceState,
                                 fuel: nat, p: int, cpu: Cpu) returns (st1: SourceState, c: Cpu)
    requires Ready(w, s, b, vars, p) && Good(s, vars, st, cpu) && b.If?
    requires Eval(b, vars, st, s.frame, w.defs, w.ro, fuel) == Ended(st')
    ensures Lands(w.code, s, p, cpu, p + |HeadCode(b, vars, w.defs, w.funcs, w.ro)|, c)
    ensures Good(s, VarsNext(b, vars), st1, c)
    ensures Eval(b.next, VarsNext(b, vars), st1, s.frame, w.defs, w.ro, fuel) == Ended(st')
    decreases |w.defs|, fuel, b, 0
  {
    hide *;
    ReadyFacts(w, s, b, vars, p);
    NextVars(b, vars);
    var v, q;
    v, st1 := EvalIf(b, vars, st, s.frame, w, fuel, st');
    q, c := IfTest(w, s, b, vars, st, p, cpu, v);
    if v == 0 {
      VarsGrow(b.body, vars);
      ReadyFacts(w, s, b.body, vars, q);
      GoodGrow(s, vars, VarsNext(b, vars), st, c);
    } else {
      var c1 := c;
      c := SimBlock(w, s, b.body, vars, st, st1, fuel, q, c1);
      LandsTrans(w.code, s, p, cpu, q, c1, p + |HeadCode(b, vars, w.defs, w.funcs, w.ro)|, c);
    }
  }

  /** A loop to its end, and what follows it. */
  lemma {:induction false} SimWhile(w: World, s: Site, b: Block, vars: seq<Variable>, st: SourceState, st': SourceState,
                                    fuel: nat, p: int, cpu: Cpu) returns (c: Cpu)
    requires Ready(w, s, b, vars, p) && Good(s, vars, st, cpu) && b.While?
    requires Eval(b, vars, st, s.frame, w.defs, w.ro, fuel) == Ended(st')
    ensures Lands(w.code, s, p, cpu, p + |BlockCode(b, vars, w.defs, w.funcs, w.ro)|, c)
    ensures Good(s, VarsAfter(b, vars), st', c)
    decreases |w.defs|, fuel, b, 0
  {
    hide *;
    ReadyFacts(w, s, b, vars, p);
    ReadyNext(w, s, b, vars, p);
    NextVars(b, vars);
    var end := p + |BlockCode(b, vars, w.defs, w.funcs, w.ro)|;
    var v, st1 := EvalWhile(b, vars, st, s.frame, w, fuel, st');
    var q, c1 := WhileTest(w, s, b, vars, st, p, cpu, v);
    if v == 0 {
      var q' := p + |HeadCode(b, vars, w.defs, w.funcs, w.ro)|;
      c := SimBlock(w, s, b.next, VarsNext(b, vars), st, st', fuel, q', c1);
      LandsTrans(w.code, s, p, cpu, q', c1, end, c);
    } else {
      var r := q + |BlockCode(b.body, vars, w.defs, w.funcs, w.ro)|;
      var c2 := SimBlock(w, s, b.body, vars, st, st1, fuel - 1, q, c1);
      BackLands(w.code, s, r, r - p, vars, st1, c2);
      c := SimBlock(w, s, b, vars, st1, st', fuel - 1, p, c2);
      LandsTrans(w.code, s, p, cpu, q, c1, r, c2);
      LandsTrans(w.code, s, p, cpu, r, c2, p, c2);
      LandsTrans(w.code, s, p, cpu, p, c2, end, c);
    }
  }

  lemma {:induction false} SimPlain(w: World, s: Site, b: Block, vars: seq<Variable>, st: SourceState, m: Meaning,
                                    fuel: nat, p: int, cpu: Cpu) returns (st1: SourceState, c: Cpu)
    requires Ready(w, s, b, vars, p) && Good(s, vars, st, cpu) && (b.Assign? || b.Declare? || b.Nop?)
    requires Eval(b, vars, st, s.frame, w.defs, w.ro, fuel) == m && !m.Undefined?
    ensures Lands(w.code, s, p, cpu, p + |HeadCode(b, vars, w.defs, w.funcs, w.ro)|, c)
    ensures Good(s, VarsNext(b, vars), st1, c)
    ensures Eval(b.next, VarsNext(b, vars), st1, s.frame, w.defs, w.ro, fuel) == m
  {
    hide *;
    ReadyFacts(w, s, b, vars, p);
    ReadyNext(w, s, b, vars, p);
    if b.Assign? {
      var v;
      v, st1 := EvalAssign(b, vars, st, s.frame, w, fuel, m);
      c := AssignHead(w, s, b, vars, st, p, cpu, v, st1);
    } else if b.Declare? {
      var v;
      v, st1 := EvalDeclare(b, vars, st, s.frame, w, fuel, m);
      var q := p + |HeadCode(b, vars, w.defs, w.funcs, w.ro)|;
      ReadyFacts(w, s, b.next, VarsNext(b, vars), q);
      VarsGrow(b.next, VarsNext(b, vars));
      c := DeclareHead(w, s, b, vars, st, p, cpu, v, st1);
    } else {
      st1, c := st, cpu;
      NopHead(w, s, b, vars, st, m, fuel, p, cpu);
    }
  }

  lemma {:induction false} NopHead(w: World, s: Site, b: Block, vars: seq<Variable>, st: SourceState, m: Meaning,
                                   fuel: nat, p: int, cpu: Cpu)
    requires BlockOk(b, vars, w.defs) && Tabled(w.funcs, w.defs) && b.Nop? && Good(s, vars, st, cpu)
    requires DefsOk(w.defs) && Eval(b, vars, st, s.frame, w.defs, w.ro, fuel) == m && !m.Undefined?
    ensures Lands(w.code, s, p, cpu, p + |HeadCode(b, vars, w.defs, w.funcs, w.ro)|, cpu)
    ensures Good(s, VarsNext(b, vars), st, cpu)
    ensures Eval(b.next, VarsNext(b, vars), st, s.frame, w.defs, w.ro, fuel) == m
  {
    assert InFrame(s, cpu);
    hide InFrame, Mirrors, Lands, BlockOk, DefsOk, Tabled;
    LandsHere(w.code, s, p, cpu);
  }

  /** The arguments of a call statement, and the jump to the function. */
  lemma {:induction false} EnterCall(w: World, s: Site, b: Block, vars: seq<Variable>, st: SourceState, i: nat,
                                     values: seq<u32>, p: int, cpu: Cpu) returns (q: int, c1: Cpu, c2: Cpu)
    requires Ready(w, s, b, vars, p) && Good(s, vars, st, cpu) && b.Call? && FindDef(w.defs, b.name) == Some(i)
    requires ArgValues(b.args, vars, st, s.frame.ebp, w.ro) == Some(values)
    ensures i < |w.defs| == |w.funcs| && |values| == |b.args| == |w.defs[i].params|
    ensures Reaches(w.code, At(p, cpu), At(w.funcs[i].addr, c2))
    ensures c2.regs[ESP] == s.frame.esp - 4 * |values| - 4 && c2.regs[EBP] == cpu.regs[EBP] == s.frame.ebp
    ensures c2.regs[ESI] == st.esi && c2.regs[EDI] == st.edi
    ensures 0 <= q && q + 7 < 0x1_0000_0000
    ensures Stacked(c2.mem, s.frame.esp, values) && Stacked(c2.mem, s.frame.esp - 4 * |values|, [q + 7])
    ensures 0 <= s.floor <= s.frame.esp - NeedCall(w.defs, i) && s.floor <= s.frame.esp
    ensures Mapped(c2.mem, s.floor, s.frame.esp - s.floor)
    ensures SameAbove(cpu.mem, c1.mem, s.frame.esp) && SameAbove(c1.mem, c2.mem, s.frame.esp - 4 * |values|)
    ensures Placed(w.code, q + 7, if |b.args| > 0 then Encode(AluImm(AddI, ESP, Wrap(4 * |b.args|))) else [])
    ensures BlockOk(b, vars, w.defs) && Tabled(w.funcs, w.defs) && Loaded(w)
    ensures p + |HeadCode(b, vars, w.defs, w.funcs, w.ro)| == q + 7 + (if |b.args| > 0 then 6 else 0)
  {
    hide *;
    ReadyFacts(w, s, b, vars, p);
    var e, k := s.frame.esp, |b.args|;
    q := CallReady(w, s, b, vars, st, p, cpu, i);
    c1 := ArgsReach(w.code, s, p, b.args, vars, st, w.ro, cpu, e, values);
    MirrorsRegs(c1, vars, st);
    StackMapped(s, c1, e - 4 * k - 4, 4);
    StackMapped(s, c1, s.floor, e - s.floor);
    c2 := CallReaches(w.code, q, w.funcs[i].addr, c1, e - 4 * k);
    FrameRegs(c1, c2);
    BasedEbp(s, c1);
    MappedSame(c1.mem, c2.mem, e - 4 * k, s.floor, e - s.floor);
    StackedSame(c1.mem, c2.mem, e, values, e - 4 * k);
    ReachesTrans(w.code, At(p, cpu), At(q, c1), At(w.funcs[i].addr, c2));
    PlacedBounds(w.code, p, ArgsCode(b.args, vars, w.ro));
  }

  lemma {:induction false} SimCall(w: World, s: Site, b: Block, vars: seq<Variable>, st: SourceState, st': SourceState,
                                   fuel: nat, p: int, cpu: Cpu) returns (st1: SourceState, c: Cpu)
    requires Ready(w, s, b, vars, p) && Good(s, vars, st, cpu) && b.Call?
    requires Eval(b, vars, st, s.frame, w.defs, w.ro, fuel) == Ended(st')
    ensures Lands(w.code, s, p, cpu, p + |HeadCode(b, vars, w.defs, w.funcs, w.ro)|, c)
    ensures Good(s, VarsNext(b, vars), st1, c)
    ensures Eval(b.next, VarsNext(b, vars), st1, s.frame, w.defs, w.ro, fuel) == Ended(st')
    decreases |w.defs|, fuel, b, 0
  {
    hide *;
    ReadyFacts(w, s, b, vars, p);
    NextVars(b, vars);
    var i, values, r := EvalCallOf(b, vars, st, s.frame, w, fuel, st');
    st1 := st.(esi := r.esi, edi := r.edi);
    c := CallReturns(w, s, b, vars, st, i, values, r, fuel, p, cpu);
  }

  /** A call statement whose function ends. */
  lemma {:induction false} CallReturns(w: World, s: Site, b: Block, vars: seq<Variable>, st: SourceState, i: nat,
                                       values: seq<u32>, r: SourceState, fuel: nat, p: int, cpu: Cpu) returns (c: Cpu)
    requires Ready(w, s, b, vars, p) && Good(s, vars, st, cpu) && b.Call? && FindDef(w.defs, b.name) == Some(i)
    requires ArgValues(b.args, vars, st, s.frame.ebp, w.ro) == Some(values)
    requires EvalCall(w.defs, i, values, st.esi, st.edi, s.frame.esp, w.ro, fuel) == Ended(r)
    ensures Lands(w.code, s, p, cpu, p + |HeadCode(b, vars, w.defs, w.funcs, w.ro)|, c)
    ensures Good(s, vars, st.(esi := r.esi, edi := r.edi), c)
    decreases |w.defs|, fuel, b, -1
  {
    hide *;
    var q, c1, c2 := EnterCall(w, s, b, vars, st, i, values, p, cpu);
    var c3 := SimFn(w, i, values, s.frame.esp, s.floor, r, fuel, q + 7, c2);
    c := DropReaches(w.code, q + 7, |values|, c3, s.frame.esp);
    CallSame(cpu, c1, c2, c3, c, s.frame.esp, |values|);
    CallGood(s, vars, st, cpu, c);
    var end := p + |HeadCode(b, vars, w.defs, w.funcs, w.ro)|;
    ReachesTrans(w.code, At(p, cpu), At(w.funcs[i].addr, c2), At(q + 7, c3));
    ReachesTrans(w.code, At(p, cpu), At(q + 7, c3), At(end, c));
    LandsOf(w.code, s, p, cpu, end, c);
  }

  lemma {:induction false} BasedEbp(s: Site, cpu: Cpu)
    requires Based(s, cpu)
    ensures cpu.regs[EBP] == s.frame.ebp
  {
    hide Laid, FrameSize;
  }

  lemma {:induction false} MappedSame(m: Memory, m': Memory, e: int, a: int, n: nat)
    requires SameAbove(m, m', e) && Mapped(m, a, n)
    ensures Mapped(m', a, n)
  {
  }

  lemma {:induction false} LandsOf(code: seq<byte>, s: Site, p: int, cpu: Cpu, p': int, c: Cpu)
    requires Reaches(code, At(p, cpu), At(p', c)) && InFrame(s, c) && Untouched(s, cpu.mem, c.mem)
    ensures Lands(code, s, p, cpu, p', c)
  {
  }

  /** Nothing above the caller's ESP changes during a call, and the registers are back. */
  lemma {:induction false} CallSame(cpu: Cpu, c1: Cpu, c2: Cpu, c3: Cpu, c: Cpu, e: int, k: nat)
    requires SameAbove(cpu.mem, c1.mem, e) && SameAbove(c1.mem, c2.mem, e - 4 * k) && SameAbove(c2.mem, c3.mem, e)
    requires c.mem == c3.mem && SameFrameRegs(c3, c)
    ensures SameAbove(cpu.mem, c.mem, e)
    ensures c.regs[EBP] == c3.regs[EBP] && c.regs[ESI] == c3.regs[ESI] && c.regs[EDI] == c3.regs[EDI]
  {
    SameAboveLess(c1.mem, c2.mem, e - 4 * k, e);
    SameAboveTrans(cpu.mem, c1.mem, c2.mem, e);
    SameAboveTrans(cpu.mem, c2.mem, c3.mem, e);
    hide SameAbove;
  }

  lemma {:induction false} CallGood(s: Site, vars: seq<Variable>, st: SourceState, cpu: Cpu, c: Cpu)
    requires Good(s, vars, st, cpu) && SameAbove(cpu.mem, c.mem, s.frame.esp)
    requires c.regs[EBP] == cpu.regs[EBP] && c.regs[ESP] == s.frame.esp
    ensures Good(s, vars, st.(esi := c.regs[ESI], edi := c.regs[EDI]), c)
    ensures InFrame(s, c) && Untouched(s, cpu.mem, c.mem)
  {
    hide Based, Mirrors, SameAbove, Untouched;
    BelowMirrors(s, cpu, c, vars, st);
  }

  /** A call statement in place: where its parts stand, and the stack it may use. */
  lemma {:induction false} CallReady(w: World, s: Site, b: Block, vars: seq<Variable>, st: SourceState, p: int,
                                     cpu: Cpu, i: nat)
    returns (q: int)
    requires Ready(w, s, b, vars, p) && Good(s, vars, st, cpu) && b.Call? && FindDef(w.defs, b.name) == Some(i)
    ensures BlockOk(b, vars, w.defs) && Loaded(w) && i < |w.defs| == |w.funcs| && |b.args| == |w.defs[i].params|
    ensures Tabled(w.funcs, w.defs)
    ensures forall a | a in b.args :: ExprOk(a, vars)
    ensures Based(s, cpu) && Mirrors(cpu, vars, st) && vars <= s.all && cpu.regs[ESP] == s.frame.esp
    ensures cpu.regs[EBP] == s.frame.ebp
    ensures 0 <= s.floor <= s.frame.esp - NeedCall(w.defs, i) && s.floor <= s.frame.esp - 4 * |b.args| - 8
    ensures Placed(w.code, p, ArgsCode(b.args, vars, w.ro)) && q == p + |ArgsCode(b.args, vars, w.ro)|
    ensures Placed(w.code, q, Encode(MovRI(EDX, w.funcs[i].addr))) && Placed(w.code, q + 5, Encode(CallReg(EDX)))
    ensures Placed(w.code, q + 7, if |b.args| > 0 then Encode(AluImm(AddI, ESP, Wrap(4 * |b.args|))) else [])
    ensures p + |HeadCode(b, vars, w.defs, w.funcs, w.ro)| == q + 7 + (if |b.args| > 0 then 6 else 0)
  {
    hide *;
    ReadyFacts(w, s, b, vars, p);
    ReadyNext(w, s, b, vars, p);
    CallHeadOf(b, vars, w, i);
    GoodFacts(s, vars, st, cpu);
    CallNeeds(w, s, b, vars, p, i);
    var f, k := w.funcs[i], |b.args|;
    var args, mov, call := ArgsCode(b.args, vars, w.ro), Encode(MovRI(EDX, f.addr)), Encode(CallReg(EDX));
    var drop := if k > 0 then Encode(AluImm(AddI, ESP, Wrap(4 * k))) else [];
    q := p + |args|;
    CallParts(f, k);
    PlacedSplit(w.code, p, args, EncodeAll(CallCode(f, k)));
    PlacedSplit(w.code, q, mov, call + drop);
    PlacedSplit(w.code, q + 5, call, drop);
  }

  lemma {:induction false} CallHeadOf(b: Block, vars: seq<Variable>, w: World, i: nat)
    requires b.Call? && BlockOk(b, vars, w.defs) && Tabled(w.funcs, w.defs) && FindDef(w.defs, b.name) == Some(i)
    ensures i < |w.defs| == |w.funcs| && |b.args| == |w.defs[i].params| && forall a | a in b.args :: ExprOk(a, vars)
    ensures HeadCode(b, vars, w.defs, w.funcs, w.ro)
         == ArgsCode(b.args, vars, w.ro) + EncodeAll(CallCode(w.funcs[i], |b.args|))
  {
    hide FindDef, ExprOk, ArgsCode, EncodeAll, CallCode, FindVar, Reserved;
  }

  lemma {:induction false} CallNeeds(w: World, s: Site, b: Block, vars: seq<Variable>, p: int, i: nat)
    requires Ready(w, s, b, vars, p) && b.Call? && FindDef(w.defs, b.name) == Some(i)
    ensures Loaded(w) && i < |w.defs|
    ensures s.floor <= s.frame.esp - NeedCall(w.defs, i)
    ensures NeedCall(w.defs, i) >= 4 * |w.defs[i].params| + 8
  {
    NeedNext(b, w.defs);
    LoadedBefore(w, i);
    NeedCallAtLeast(w.defs, i);
    hide Loaded, Need, NeedCall, FindDef, BlockOk, Placed, BlockCode, VarsAfter;
  }

  lemma {:induction false} NeedNotNegative(b: Block, defs: seq<Def>)
    ensures Need(b, defs) >= 0
    decreases b
  {
    hide NeedCall, FindDef;
    if !b.End? {
      NeedNotNegative(b.next, defs);
    }
  }

  lemma {:induction false} NeedCallAtLeast(defs: seq<Def>, i: nat)
    requires DefsOk(defs) && i < |defs|
    ensures NeedCall(defs, i) >= 4 * |defs[i].params| + 12
  {
    var d := defs[i];
    NeedNotNegative(d.body, defs[..i]);
    DefLaid(defs, i);
    FrameSizePositive(VarsAfter(d.body, ParamVars(d.params)), |d.params|);
    hide DefsOk, Need, VarsAfter, ParamVars, FrameSize, Laid;
  }

  lemma {:induction false} DefLaid(defs: seq<Def>, i: nat)
    requires DefsOk(defs) && i < |defs|
    ensures var d := defs[i];
            && ParamsOk(d.params) && BlockOk(d.body, ParamVars(d.params), defs[..i])
            && ParamVars(d.params) <= VarsAfter(d.body, ParamVars(d.params))
            && Laid(VarsAfter(d.body, ParamVars(d.params)), |d.params|)
  {
    var d := defs[i];
    assert ParamsOk(d.params) && BlockOk(d.body, ParamVars(d.params), defs[..i]);
    hide DefsOk, ParamsOk, BlockOk, VarsAfter, ParamVars, Laid;
    LaidParams(d.params);
    LaidAfter(d.body, ParamVars(d.params), defs[..i], |d.params|);
  }

  lemma {:induction false} StackedSame(m: Memory, m': Memory, e: int, values: seq<u32>, low: int)
    requires Stacked(m, e, values) && SameAbove(m, m', low) && low <= e - 4 * |values|
    ensures Stacked(m', e, values)
  {
    hide Fetch;
    forall j | 0 <= j < |values|
      ensures Mapped(m', e - 4 * j - 4, 4) && Fetch(m', e - 4 * j - 4, 4) == values[j]
    {
      FetchSame(m, m', e - 4 * j - 4, 4);
    }
  }

  /** A function from its first byte to its body: the frame is set up, and the parameters hold
      the arguments. */
  lemma {:induction false} EnterFn(w: World, i: nat, values: seq<u32>, e: u32, floor: int, m: Meaning, fuel: nat,
                                   cpu: Cpu)
    returns (s: Site, st: SourceState, p: int, c: Cpu)
    requires Loaded(w) && i < |w.defs| && |values| == |w.defs[i].params| && i < |w.funcs| && DefsOk(w.defs)
    requires EvalCall(w.defs, i, values, cpu.regs[ESI], cpu.regs[EDI], e, w.ro, fuel) == m && !m.Undefined?
    requires cpu.regs[ESP] == e - 4 * |values| - 4 && Stacked(cpu.mem, e, values)
    requires 0 <= floor <= e - NeedCall(w.defs, i) && floor <= e && Mapped(cpu.mem, floor, e - floor)
    ensures var b, d := Before(w, i), w.defs[i];
            var vars := ParamVars(d.params);
            && |b.defs| == i && DefsOk(b.defs) && Tabled(b.funcs, b.defs) && BlockOk(d.body, vars, b.defs)
            && b.code == w.code
            && Ready(b, s, d.body, vars, w.funcs[i].addr + 9) && Good(s, vars, st, c)
            && Eval(d.body, vars, st, s.frame, b.defs, b.ro, fuel) == m
            && s.all == VarsAfter(d.body, vars)
            && p == w.funcs[i].addr + 9 + |BlockCode(d.body, vars, b.defs, b.funcs, b.ro)|
    ensures s.frame.ebp == e - 4 * s.k - 8 && s.k == |values| && Placed(w.code, p, EncodeAll(EPILOGUE))
    ensures Reaches(w.code, At(w.funcs[i].addr, cpu), At(w.funcs[i].addr + 9, c))
    ensures SameAbove(cpu.mem, c.mem, s.frame.ebp + 4) && Stacked(c.mem, s.frame.ebp + 4, [cpu.regs[EBP]])
  {
    hide *;
    var d, k := w.defs[i], |values|;
    s := CalleeSite(w, i, e, floor, cpu.mem);
    LoadedFacts(w);
    BeforeFacts(w, i);
    EvalBody(w, i, values, cpu.regs[ESI], cpu.regs[EDI], e, fuel, m);
    st := SourceState(Bound(d.params, values), cpu.regs[ESI], cpu.regs[EDI]);
    p := CalleeReady(w, i, s);
    c := EnterReaches(w.code, s, w.funcs[i].addr, cpu);
    StackedSame(cpu.mem, c.mem, e, values, e - 4 * k - 4);
    CalleeGood(w, i, s, values, e, c);
  }

  /** A function from its first byte to the return address on the stack: ESP, EBP and everything
      above the arguments are as they were. */
  lemma {:induction false} SimFn(w: World, i: nat, values: seq<u32>, e: u32, floor: int, st': SourceState, fuel: nat,
                                 ra: u32, cpu: Cpu) returns (c: Cpu)
    requires Loaded(w) && i < |w.defs| && |values| == |w.defs[i].params| && i < |w.funcs|
    requires EvalCall(w.defs, i, values, cpu.regs[ESI], cpu.regs[EDI], e, w.ro, fuel) == Ended(st')
    requires cpu.regs[ESP] == e - 4 * |values| - 4
    requires Stacked(cpu.mem, e, values) && Stacked(cpu.mem, e - 4 * |values|, [ra])
    requires 0 <= floor <= e - NeedCall(w.defs, i) && floor <= e && Mapped(cpu.mem, floor, e - floor)
    ensures Reaches(w.code, At(w.funcs[i].addr, cpu), At(ra, c))
    ensures c.regs[ESP] == e - 4 * |values| && c.regs[EBP] == cpu.regs[EBP]
    ensures c.regs[ESI] == st'.esi && c.regs[EDI] == st'.edi
    ensures SameAbove(cpu.mem, c.mem, e)
    decreases i, fuel + 1
  {
    hide *;
    LoadedFacts(w);
    var addr: int := w.funcs[i].addr;
    var s, st, p, c1 := EnterFn(w, i, values, e, floor, Ended(st'), fuel, cpu);
    var c2 := SimBlock(Before(w, i), s, w.defs[i].body, ParamVars(w.defs[i].params), st, st', fuel, addr + 9, c1);
    SavedWords(w, i, s, e, values, cpu, c1, p, c2, ra, st');
    c := LeaveReaches(w.code, p, c2, s.frame.ebp, cpu.regs[EBP], ra);
    ReachesTrans(w.code, At(addr, cpu), At(addr + 9, c1), At(p, c2));
    ReachesTrans(w.code, At(addr, cpu), At(p, c2), At(ra, c));
  }

  lemma {:induction false} LoadedFacts(w: World)
    requires Loaded(w)
    ensures DefsOk(w.defs) && Tabled(w.funcs, w.defs) && |w.code| < 0x8000_0000
  {
    hide DefsOk, LoadedAt;
  }

  /** The callee's frame fits the stack. */
  lemma {:induction false} CalleeSite(w: World, i: nat, e: u32, floor: int, m: Memory) returns (s: Site)
    requires Loaded(w) && i < |w.defs|
    requires 0 <= floor <= e - NeedCall(w.defs, i) && floor <= e && Mapped(m, floor, e - floor)
    ensures s.frame == CalleeFrame(e, w.defs[i]) && s.floor == floor && s.k == |w.defs[i].params|
    ensures s.all == VarsAfter(w.defs[i].body, ParamVars(w.defs[i].params))
    ensures s.frame.ebp == e - 4 * s.k - 8 && Roomy(s, m)
    ensures floor <= s.frame.esp - Need(w.defs[i].body, w.defs[..i])
  {
    var d := w.defs[i];
    LoadedFacts(w);
    DefLaid(w.defs, i);
    NeedNotNegative(d.body, w.defs[..i]);
    FrameSizePositive(VarsAfter(d.body, ParamVars(d.params)), |d.params|);
    hide Loaded, DefsOk, VarsAfter, ParamVars, FrameSize, Laid, Need, ParamsOk, BlockOk;
    s := Site(CalleeFrame(e, d), VarsAfter(d.body, ParamVars(d.params)), |d.params|, floor);
    CalleeFrameOf(e, d);
  }

  lemma {:induction false} CalleeFrameOf(e: u32, d: Def)
    requires var n := FrameSize(VarsAfter(d.body, ParamVars(d.params))); n >= 0 && e - 4 * |d.params| - 8 - n >= 0
    ensures CalleeFrame(e, d).ebp == e - 4 * |d.params| - 8
    ensures CalleeFrame(e, d).esp == CalleeFrame(e, d).ebp - FrameSize(VarsAfter(d.body, ParamVars(d.params)))
  {
    hide VarsAfter, ParamVars, FrameSize;
  }

  /** The callee's body is ready nine bytes after its entry. */
  lemma {:induction false} CalleeReady(w: World, i: nat, s: Site) returns (p: int)
    requires Loaded(w) && i < |w.defs| && i < |w.funcs|
    requires s.all == VarsAfter(w.defs[i].body, ParamVars(w.defs[i].params))
    requires s.floor <= s.frame.esp - Need(w.defs[i].body, w.defs[..i])
    ensures Placed(w.code, w.funcs[i].addr, EncodeAll(Prologue(Wrap(FrameSize(s.all)))))
    ensures var b := Before(w, i);
            var d := w.defs[i];
            && BlockOk(d.body, ParamVars(d.params), b.defs) && Tabled(b.funcs, b.defs)
            && Ready(b, s, d.body, ParamVars(d.params), w.funcs[i].addr + 9)
            && p == w.funcs[i].addr + 9 + |BlockCode(d.body, ParamVars(d.params), b.defs, b.funcs, w.ro)|
    ensures Placed(w.code, p, EncodeAll(EPILOGUE))
  {
    hide *;
    var d := w.defs[i];
    var addr: int := w.funcs[i].addr;
    LoadedFacts(w);
    LoadedCode(w, i);
    LoadedBefore(w, i);
    BeforeFacts(w, i);
    DefLaid(w.defs, i);
    var vars := ParamVars(d.params);
    var body := BlockCode(d.body, vars, w.defs[..i], w.funcs[..i], w.ro);
    var start, end := EncodeAll(Prologue(Wrap(FrameSize(s.all)))), EncodeAll(EPILOGUE);
    FrameLengths(Wrap(FrameSize(s.all)));
    PlacedSplit(w.code, addr, start + body, end);
    PlacedSplit(w.code, addr, start, body);
    p := addr + 9 + |body|;
    ReadyOf(Before(w, i), s, d.body, vars, addr + 9);
  }

  lemma {:induction false} ReadyOf(w: World, s: Site, b: Block, vars: seq<Variable>, p: int)
    requires Loaded(w) && BlockOk(b, vars, w.defs) && VarsAfter(b, vars) <= s.all
    requires s.floor <= s.frame.esp - Need(b, w.defs)
    requires Tabled(w.funcs, w.defs) && Placed(w.code, p, BlockCode(b, vars, w.defs, w.funcs, w.ro))
    ensures Ready(w, s, b, vars, p)
  {
  }

  lemma {:induction false} BeforeFacts(w: World, i: nat)
    requires i <= |w.defs| && i <= |w.funcs|
    ensures var b := Before(w, i); b.defs == w.defs[..i] && b.funcs == w.funcs[..i] && b.code == w.code && b.ro == w.ro
  {
  }

  lemma {:induction false} LoadedCode(w: World, i: nat)
    requires Loaded(w) && i < |w.defs| && i < |w.funcs|
    ensures var d := w.defs[i];
            var vars := ParamVars(d.params);
            && BlockOk(d.body, vars, w.defs[..i]) && Tabled(w.funcs[..i], w.defs[..i])
            && Placed(w.code, w.funcs[i].addr, EncodeAll(Prologue(Wrap(FrameSize(VarsAfter(d.body, vars)))))
                 + BlockCode(d.body, vars, w.defs[..i], w.funcs[..i], w.ro) + EncodeAll(EPILOGUE))
  {
    DefLaid(w.defs, i);
    assert LoadedAt(w, i);
    hide BlockOk, BlockCode, VarsAfter, ParamVars, Prologue, FrameSize, EncodeAll, DefsOk, Placed, Laid, ParamsOk;
  }

  lemma {:induction false} CalleeGood(w: World, i: nat, s: Site, values: seq<u32>, e: u32, c: Cpu)
    requires Loaded(w) && i < |w.defs| && |values| == |w.defs[i].params| == s.k
    requires s.all == VarsAfter(w.defs[i].body, ParamVars(w.defs[i].params)) && s.frame.ebp == e - 4 * s.k - 8
    requires InFrame(s, c) && Stacked(c.mem, e, values)
    ensures forall p | p in w.defs[i].params :: ValidBits(p.bits)
    ensures var ps := w.defs[i].params;
            Good(s, ParamVars(ps), SourceState(Bound(ps, values), c.regs[ESI], c.regs[EDI]), c)
  {
    assert Based(s, c);
    hide *;
    LoadedFacts(w);
    DefLaid(w.defs, i);
    BasedEbp(s, c);
    ParamsMirror(s, w.defs[i].params, values, e, c);
    GoodOf(s, ParamVars(w.defs[i].params), SourceState(Bound(w.defs[i].params, values), c.regs[ESI], c.regs[EDI]), c);
  }

  /** After the body the saved EBP and the return address are where the prologue left them. */
  lemma {:induction false} SavedWords(w: World, i: nat, s: Site, e: u32, values: seq<u32>, cpu: Cpu, c1: Cpu, p: int,
                                      c2: Cpu, ra: u32, st': SourceState)
    requires s.frame.ebp == e - 4 * s.k - 8 && |values| == s.k && i < |w.funcs|
    requires Stacked(cpu.mem, e - 4 * s.k, [ra]) && SameAbove(cpu.mem, c1.mem, s.frame.ebp + 4)
    requires Stacked(c1.mem, s.frame.ebp + 4, [cpu.regs[EBP]])
    requires Lands(w.code, s, w.funcs[i].addr + 9, c1, p, c2) && Good(s, s.all, st', c2)
    ensures Reaches(w.code, At(w.funcs[i].addr + 9, c1), At(p, c2))
    ensures c2.regs[EBP] == s.frame.ebp && Mapped(c2.mem, s.frame.ebp, 8)
    ensures Fetch(c2.mem, s.frame.ebp, 4) == cpu.regs[EBP] && Fetch(c2.mem, s.frame.ebp + 4, 4) == ra
    ensures SameAbove(cpu.mem, c2.mem, e)
    ensures c2.regs[ESI] == st'.esi && c2.regs[EDI] == st'.edi
  {
    hide *;
    LandsFacts(w.code, s, w.funcs[i].addr + 9, c1, p, c2);
    GoodFacts(s, s.all, st', c2);
    MirrorsRegs(c2, s.all, st');
    SavedInMemory(s, cpu.mem, c1.mem, c2.mem, e, cpu.regs[EBP], ra);
  }

  lemma {:induction false} LandsFacts(code: seq<byte>, s: Site, p: int, cpu: Cpu, p': int, c: Cpu)
    requires Lands(code, s, p, cpu, p', c)
    ensures Reaches(code, At(p, cpu), At(p', c)) && InFrame(s, c) && Untouched(s, cpu.mem, c.mem)
  {
    hide Reaches, InFrame, Untouched;
  }

  lemma {:induction false} SavedInMemory(s: Site, m: Memory, m1: Memory, m2: Memory, e: int, saved: u32, ra: u32)
    requires s.frame.ebp == e - 4 * s.k - 8 && SameAbove(m, m1, s.frame.ebp + 4) && Untouched(s, m1, m2)
    requires Stacked(m, e - 4 * s.k, [ra]) && Stacked(m1, s.frame.ebp + 4, [saved])
    ensures Mapped(m2, s.frame.ebp, 8) && SameAbove(m, m2, e)
    ensures Fetch(m2, s.frame.ebp, 4) == saved && Fetch(m2, s.frame.ebp + 4, 4) == ra
  {
    hide *;
    var b: int := s.frame.ebp;
    StackedSame(m, m1, b + 8, [ra], b + 4);
    StackedAt(m1, b + 8, [ra], 0);
    StackedAt(m1, b + 4, [saved], 0);
    SavedKept(s, m1, m2, 0);
    SavedKept(s, m1, m2, 4);
    MappedJoin(m2, b, 4, 4);
    AboveKept(s, m, m1, m2, e);
  }

  lemma {:induction false} SavedKept(s: Site, m: Memory, m': Memory, off: nat)
    requires Untouched(s, m, m') && off <= 4 && Mapped(m, s.frame.ebp + off, 4)
    ensures Mapped(m', s.frame.ebp + off, 4) && Fetch(m', s.frame.ebp + off, 4) == Fetch(m, s.frame.ebp + off, 4)
  {
    hide Fetch;
    FetchSame(m, m', s.frame.ebp + off, 4);
  }

  lemma {:induction false} MappedJoin(m: Memory, a: int, n: nat, k: nat)
    requires Mapped(m, a, n) && Mapped(m, a + n, k)
    ensures Mapped(m, a, n + k)
  {
  }

  lemma {:induction false} AboveKept(s: Site, m: Memory, m1: Memory, m2: Memory, e: int)
    requires s.frame.ebp == e - 4 * s.k - 8 && SameAbove(m, m1, s.frame.ebp + 4) && Untouched(s, m1, m2)
    ensures SameAbove(m, m2, e)
  {
  }

  // ----- whole texts -----

  lemma {:induction false} TableEmpty(defs: seq<Def>, env: Env)
    requires DefsOk(defs)
    ensures Table(defs, env, 0) == []
  {
    hide DefsOk, FnCode;
  }

  lemma {:induction false} TablePrefix(defs: seq<Def>, env: Env, n: nat, i: nat)
    requires DefsOk(defs) && i <= n <= |defs|
    ensures |Table(defs, env, n)| == n && Table(defs, env, n)[..i] == Table(defs, env, i)
    decreases n
  {
    hide *;
    if n == 0 {
      TableEmpty(defs, env);
    } else {
      TableStep(defs, env, n - 1);
      if i < n {
        TablePrefix(defs, env, n - 1, i);
      }
    }
  }

  /** Compiled code is in memory at the addresses the compiler was given. */
  predicate Installed(code: seq<byte>, funcs: seq<Function>) {
    |code| < 0x8000_0000 && forall i | 0 <= i < |funcs| :: Placed(code, funcs[i].addr, funcs[i].code)
  }

  lemma {:induction false} InstalledLoaded(code: seq<byte>, defs: seq<Def>, env: Env)
    requires DefsOk(defs) && Installed(code, Table(defs, env, |defs|))
    ensures Loaded(World(code, defs, Table(defs, env, |defs|), env.ro))
  {
    var w := World(code, defs, Table(defs, env, |defs|), env.ro);
    assert defs[..|defs|] == defs && |code| < 0x8000_0000;
    assert Tabled(w.funcs, w.defs);
    hide FnCode, DefsOk, Table, Tabled, Installed, LoadedAt;
    forall i | 0 <= i < |defs|
      ensures LoadedAt(w, i)
    {
      InstalledAt(code, defs, env, i);
    }
  }

  lemma {:induction false} TableEntry(defs: seq<Def>, env: Env, i: nat)
    requires DefsOk(defs) && i < |defs|
    ensures BlockOk(defs[i].body, ParamVars(defs[i].params), defs[..i])
    ensures var funcs := Table(defs, env, |defs|);
            && |funcs| == |defs| && |Table(defs, env, i)| == i && funcs[..i] == Table(defs, env, i)
            && Tabled(funcs[..i], defs[..i]) && Tabled(funcs, defs)
            && funcs[i].code == FnCode(defs[i], defs[..i], funcs[..i], env.ro)
  {
    hide DefsOk, FnCode, BlockOk, Table, Tabled;
    TablePrefix(defs, env, |defs|, i);
    TablePrefix(defs, env, |defs|, i + 1);
    TableStep(defs, env, i);
    var funcs := Table(defs, env, |defs|);
    assert defs[..|defs|] == defs;
    assert funcs[i] == funcs[..i + 1][i];
  }

  lemma {:induction false} InstalledAt(code: seq<byte>, defs: seq<Def>, env: Env, i: nat)
    requires DefsOk(defs) && Installed(code, Table(defs, env, |defs|)) && i < |defs|
    requires Tabled(Table(defs, env, |defs|), defs)
    ensures LoadedAt(World(code, defs, Table(defs, env, |defs|), env.ro), i)
  {
    TableEntry(defs, env, i);
    hide DefsOk, FnCode, BlockOk, Table, Tabled, Placed;
    assert Placed(code, Table(defs, env, |defs|)[i].addr, Table(defs, env, |defs|)[i].code);
  }

  /** A text is a function without a name or parameters. */
  function Unit(main: Block): Def { Def(32, "", [], main) }

  lemma {:induction false} UnitDefs(defs: seq<Def>, main: Block)
    requires DefsOk(defs) && BlockOk(main, [], defs)
    ensures DefsOk(defs + [Unit(main)])
  {
    var all := defs + [Unit(main)];
    assert ParamVars([]) == [];
    hide BlockOk, ParamVars;
    forall i | 0 <= i < |all|
      ensures ParamsOk(all[i].params) && BlockOk(all[i].body, ParamVars(all[i].params), all[..i])
    {
      if i < |defs| {
        assert all[i] == defs[i] && all[..i] == defs[..i];
      } else {
        assert all[..i] == defs;
      }
    }
  }

  lemma {:induction false} UnitLoaded(w: World, main: Block, base: u32)
    requires Loaded(w) && BlockOk(main, [], w.defs) && Tabled(w.funcs, w.defs)
    requires Placed(w.code, base, Framed(BlockCode(main, [], w.defs, w.funcs, w.ro), VarsAfter(main, [])))
    ensures var d := Unit(main);
            Loaded(w.(defs := w.defs + [d], funcs := w.funcs + [Function("", base, [])]))
  {
    var w' := w.(defs := w.defs + [Unit(main)], funcs := w.funcs + [Function("", base, [])]);
    UnitDefs(w.defs, main);
    UnitAt(w, main, base);
    hide DefsOk, Framed, Placed, BlockCode, BlockOk, LoadedAt;
    assert Tabled(w'.funcs, w'.defs);
    forall i | 0 <= i < |w'.defs|
      ensures LoadedAt(w', i)
    {
      if i < |w.defs| {
        LoadedMore(w, w', i);
      }
    }
  }

  lemma {:induction false} UnitAt(w: World, main: Block, base: u32)
    requires DefsOk(w.defs) && BlockOk(main, [], w.defs) && Tabled(w.funcs, w.defs)
    requires Placed(w.code, base, Framed(BlockCode(main, [], w.defs, w.funcs, w.ro), VarsAfter(main, [])))
    ensures var w' := w.(defs := w.defs + [Unit(main)], funcs := w.funcs + [Function("", base, [])]);
            && DefsOk(w'.defs) && Tabled(w'.funcs, w'.defs) && LoadedAt(w', |w.defs|)
  {
    var w' := w.(defs := w.defs + [Unit(main)], funcs := w.funcs + [Function("", base, [])]);
    UnitDefs(w.defs, main);
    assert ParamVars([]) == [];
    assert w'.defs[..|w.defs|] == w.defs && w'.funcs[..|w.defs|] == w.funcs;
    hide DefsOk, Framed, Placed, BlockCode, BlockOk, ParamVars, VarsAfter;
  }

  lemma {:induction false} LoadedMore(w: World, w': World, i: nat)
    requires Loaded(w) && DefsOk(w'.defs) && Tabled(w'.funcs, w'.defs) && i < |w.defs|
    requires w.defs <= w'.defs && w.funcs <= w'.funcs && w'.code == w.code && w'.ro == w.ro
    ensures LoadedAt(w', i)
  {
    assert LoadedAt(w, i);
    assert w'.defs[..i] == w.defs[..i] && w'.funcs[..i] == w.funcs[..i] && w'.defs[i] == w.defs[i]
           && w'.funcs[i] == w.funcs[i];
    hide DefsOk, FnCode, Placed;
  }

  /** How deep the stack of a text's code gets: its frame, and what its statements need. */
  function UnitNeed(defs: seq<Def>, main: Block): int {
    8 + FrameSize(VarsAfter(main, [])) + Need(main, defs)
  }

  /** Running a text from a state: no variable has a value yet. */
  function UnitMeaning(defs: seq<Def>, main: Block, esi: u32, edi: u32, esp: u32, ro: RoData, fuel: nat): Meaning
    requires DefsOk(defs)
  {
    Eval(main, [], SourceState(map[], esi, edi), CalleeFrame(esp, Unit(main)), defs, ro, fuel)
  }

  lemma {:induction false} UnitCall(defs: seq<Def>, main: Block, esi: u32, edi: u32, esp: u32, ro: RoData, fuel: nat)
    requires DefsOk(defs) && BlockOk(main, [], defs)
    ensures DefsOk(defs + [Unit(main)])
    ensures EvalCall(defs + [Unit(main)], |defs|, [], esi, edi, esp, ro, fuel)
         == UnitMeaning(defs, main, esi, edi, esp, ro, fuel)
    ensures NeedCall(defs + [Unit(main)], |defs|) == UnitNeed(defs, main)
    ensures (defs + [Unit(main)])[|defs|].params == []
  {
    UnitDefs(defs, main);
    var all := defs + [Unit(main)];
    assert all[..|defs|] == defs && all[|defs|] == Unit(main) && ParamVars([]) == [];
    hide Eval, BlockOk, DefsOk, VarsAfter, Need, FrameSize, ParamVars, CalleeFrame;
    assert Bound([], []) == map[];
  }

  /** The main theorem. Whatever text spells functions and statements: once compiled and put in
      memory, when the source run ends, the processor started at the code comes back to its
      caller, with ESI and EDI as the source says and ESP, EBP and all memory above as they were. */
  lemma {:induction false} CompiledRuns(text: string, defs: seq<Def>, main: Block, braced: bool, env: Env,
                                        code: seq<byte>, base: u32, cpu: Cpu, e: u32, floor: int, ra: u32, fuel: nat,
                                        st: SourceState) returns (c: Cpu)
    requires Lex(text) == UnitToks(defs, main, braced)
    requires DefsOk(defs) && |defs| <= CAPACITY && BlockOk(main, [], defs) && (braced || NoIf(main))
    requires forall d | d in defs :: Delimited(d)
    requires var r := Compile(Lex(text), [], [], env);
             r.Compiled? ==> Installed(code, r.funcs) && Placed(code, base, r.code)
    requires cpu.regs[ESP] == e - 4 && Stacked(cpu.mem, e, [ra])
    requires 0 <= floor <= e - UnitNeed(defs, main) && floor <= e && Mapped(cpu.mem, floor, e - floor)
    requires UnitMeaning(defs, main, cpu.regs[ESI], cpu.regs[EDI], e, env.ro, fuel) == Ended(st)
    ensures Compile(Lex(text), [], [], env).Compiled?
    ensures Reaches(code, At(base, cpu), At(ra, c))
    ensures c.regs[ESP] == e && c.regs[EBP] == cpu.regs[EBP] && c.regs[ESI] == st.esi && c.regs[EDI] == st.edi
    ensures SameAbove(cpu.mem, c.mem, e)
  {
    hide *;
    var n := |defs|;
    var funcs := Table(defs, env, n);
    UnitEmits(defs, main, braced, env);
    InstalledLoaded(code, defs, env);
    var w := World(code, defs, funcs, env.ro);
    UnitLoaded(w, main, base);
    UnitCall(defs, main, cpu.regs[ESI], cpu.regs[EDI], e, env.ro, fuel);
    UnitTable(funcs, defs);
    NoneStacked(cpu.mem, e);
    var w' := w.(defs := defs + [Unit(main)], funcs := funcs + [Function("", base, [])]);
    c := SimFn(w', n, [], e, floor, st, fuel, ra, cpu);
  }

  /** Every program whose tokens can be printed has such a text. */
  lemma {:induction false} SpelledText(defs: seq<Def>, main: Block, braced: bool)
    requires forall t | t in UnitToks(defs, main, braced) :: Spellable(t)
    ensures Lex(SpellAll(UnitToks(defs, main, braced))) == UnitToks(defs, main, braced)
  {
    LexSpellAll(UnitToks(defs, main, braced));
  }

  lemma {:induction false} UnitTable(funcs: seq<Function>, defs: seq<Def>)
    requires Tabled(funcs, defs)
    ensures |funcs| == |defs|
  {
  }

  lemma {:induction false} NoneStacked(m: Memory, e: int)
    ensures Stacked(m, e, [])
  {
  }
}
