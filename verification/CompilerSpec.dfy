/** What the statement compiler emits, as a function of the token list. */
module CompilerSpec {
  import opened Wrappers
  import opened Sequences
  import opened Words
  import opened X86
  import opened Emitter
  import opened Tokenizer
  import opened Names
  import opened ExprCompiler

  /** A compiled function: its name, where its code was put, and the code. */
  datatype Function = Function(name: string, addr: u32, code: seq<byte>)

  /** String addresses, and the address of the n-th function's code. */
  datatype Env = Env(ro: RoData, addrs: seq<u32>)

  /** The lists of variables and of functions hold elements larger than 8 bytes, so the first
      allocation (8 elements) is outgrown before ListAppend sees it. */
  const CAPACITY := 8

  /** Invalid: the compiler reports an error. Overflow: it writes past a list. NullPointer: it
      follows one. Unsupported: a construct outside this model. */
  datatype Why = Invalid | Overflow | NullPointer | Unsupported

  /** The compiler's state between statements: brace depth, variables, functions. */
  datatype Scope = Scope(enter: int, vars: seq<Variable>, funcs: seq<Function>)

  datatype Result = Compiled(code: seq<byte>, vars: seq<Variable>, funcs: seq<Function>) | Failed(why: Why)

  /** One round of the statement loop: bytes, the tokens left, the new state; or the loop ends. */
  datatype Step = Go(code: seq<byte>, rest: seq<Token>, scope: Scope) | Done | Refused(why: Why)

  // ----- frames -----

  function LastRel(vars: seq<Variable>): int {
    if vars == [] then 0 else vars[|vars| - 1].rel
  }

  /** Where the next local goes: below the last one, or 4 below EBP. */
  function NextRel(vars: seq<Variable>): int {
    if LastRel(vars) > 0 then LastRel(vars) + vars[|vars| - 1].bits / 8 else 4
  }

  /** The number patched into SUB ESP. */
  function FrameSize(vars: seq<Variable>): int {
    if LastRel(vars) > 0 then NextRel(vars) + 4 else 4
  }

  function Prologue(n: u32): seq<Instr> {
    [Push(EBP), MovRR(EBP, ESP), AluImm(SubI, ESP, n)]
  }

  const EPILOGUE: seq<Instr> := [MovRR(ESP, EBP), Pop(EBP), Ret]

  lemma {:induction false} FrameLengths(n: u32)
    ensures |EncodeAll(Prologue(n))| == 9 && |EncodeAll(EPILOGUE)| == 4
  {
    hide EncodeAll, Encode;
    var a, b, c := Push(EBP), MovRR(EBP, ESP), AluImm(SubI, ESP, n);
    assert Prologue(n) == [a] + [b, c];
    EncodeAllConcat([a], [b, c]);
    EncodeAllOne(a);
    EncodeAllTwo(b, c);
    var d, e, f := MovRR(ESP, EBP), Pop(EBP), Ret;
    assert EPILOGUE == [d] + [e, f];
    EncodeAllConcat([d], [e, f]);
    EncodeAllOne(d);
    EncodeAllTwo(e, f);
    FrameInstrLengths(n);
  }

  lemma {:induction false} FrameInstrLengths(n: u32)
    ensures |Encode(Push(EBP))| == 1 && |Encode(MovRR(EBP, ESP))| == 2 && |Encode(AluImm(SubI, ESP, n))| == 6
    ensures |Encode(MovRR(ESP, EBP))| == 2 && |Encode(Pop(EBP))| == 1 && |Encode(Ret)| == 1
  {
  }

  function StoreVar(v: Variable): seq<Instr> {
    StoreSized(EBP, EBX, -v.rel, v.bits / 8)
  }

  // ----- classification -----

  datatype Class =
    | Comment | Outside | Declares(bits: nat) | IfWord | WhileWord | Open | Close
    | Assigns(v: Variable) | AssignsReg(reg: Reg) | Semicolon | StoresByte | Calls(f: Function) | Unknown

  function FindFn(funcs: seq<Function>, name: string): (r: Option<Function>)
    ensures r.Some? ==> r.value in funcs && r.value.name == name
    ensures r.None? ==> forall f | f in funcs :: f.name != name
  {
    if funcs == [] then None
    else if funcs[0].name == name then Some(funcs[0])
    else FindFn(funcs[1..], name)
  }

  predicate IsOutside(name: string) {
    name == "Uf" || name == "Dump" || name == "INT" || name == "IN" || name == "OUT"
  }

  /** The chain of comparisons on a statement's first token. */
  function Classify(t: Token, scope: Scope): Class {
    if t.kind == Text then Comment
    else if IsOutside(t.text) then Outside
    else if TypeFromName(t.text).Some? then Declares(TypeFromName(t.text).value)
    else if t.text == "if" then IfWord
    else if t.text == "include" then Outside
    else if t.text == "while" then WhileWord
    else if Is(t.text, '{') then Open
    else if Is(t.text, '}') then Close
    else if FindVar(scope.vars, t.text).Some? then Assigns(FindVar(scope.vars, t.text).value)
    else if Register(t.text).Some? then AssignsReg(Register(t.text).value)
    else if Is(t.text, ';') then Semicolon
    else if Is(t.text, '*') then StoresByte
    else if FindFn(scope.funcs, t.text).Some? then Calls(FindFn(scope.funcs, t.text).value)
    else Unknown
  }

  // ----- statements without a block -----

  /** An expression followed by the instructions that use EBX. */
  function ExprThen(toks: seq<Token>, scope: Scope, env: Env, use: seq<byte>): Step {
    match Expr(toks, scope.vars, env.ro)
    case Crashed => Refused(NullPointer)
    case Emitted(code, used) => Go(code + use, Drop(toks, used), scope)
  }

  function AssignReg(r: Reg): seq<byte> {
    if r == EBX then [] else Encode(MovRR(r, EBX))
  }

  /** The byte that a variable points to gets the low byte of EBX. */
  function StoreCode(v: Variable): seq<Instr> {
    LoadSized(EDX, EBP, -v.rel, 4) + StoreSized(EDX, EBX, 0, 1)
  }

  /** `x e` behind a `*`: the code looks for x before it compiles e, and follows what it found behind it. */
  function StoreStep(toks: seq<Token>, scope: Scope, env: Env): Step {
    match FindVar(scope.vars, Head(toks).text)
    case None => Refused(NullPointer)
    case Some(v) => ExprThen(Drop(toks, 1), scope, env, EncodeAll(StoreCode(v)))
  }

  /** A new local; its initialiser may already name it. */
  function Declare(toks: seq<Token>, bits: nat, name: string, scope: Scope, env: Env): Step {
    if FindVar(scope.vars, name).Some? then Refused(Invalid)
    else if |scope.vars| >= CAPACITY then Refused(Overflow)
    else
      var v := Variable(name, bits, NextRel(scope.vars));
      ExprThen(toks, scope.(vars := scope.vars + [v]), env, EncodeAll(StoreVar(v)))
  }

  /** A local array, `n >` still to be read. It emits nothing, and its name may be taken already. The
      model ends where the numbers of a frame leave 31 bits. */
  function ArrayStep(toks: seq<Token>, bits: nat, name: string, scope: Scope): Step {
    var all := Mul32(bits, Atoi(Head(toks).text));
    if |scope.vars| >= CAPACITY then Refused(Overflow)
    else if NextRel(scope.vars) + all / 8 >= 0x8000_0000 then Refused(Unsupported)
    else Go([], Drop(toks, 2), scope.(vars := scope.vars + [Variable(name, all, NextRel(scope.vars))]))
  }

  /** The arguments of a call: bytes, their number, and the tokens after `)` and one more. A bad
      register ends them early. */
  datatype ArgCode = Args(code: seq<byte>, count: nat, rest: seq<Token>) | BadArgs(why: Why)

  function Arguments(toks: seq<Token>, vars: seq<Variable>, env: Env): (r: ArgCode)
    ensures r.Args? ==> |r.rest| <= |toks|
    decreases |toks|
  {
    match Expr(toks, vars, env.ro)
    case Crashed => BadArgs(NullPointer)
    case Emitted(code, used) =>
      var after := Drop(toks, used);
      if after == [] then BadArgs(Unsupported)
      else if Is(after[0].text, ')') then Args(code + Encode(Push(EBX)), 1, Drop(after, 2))
      else if used == 0 then Args(code + Encode(Push(EBX)), 1, after[1..])
      else
        match Arguments(after[1..], vars, env)
        case BadArgs(why) => BadArgs(why)
        case Args(more, n, rest) => Args(code + Encode(Push(EBX)) + more, n + 1, rest)
  }

  /** MOV EDX, function; CALL EDX; and the arguments are dropped. */
  function CallCode(f: Function, count: nat): seq<Instr> {
    [MovRI(EDX, f.addr), CallReg(EDX)] + (if count > 0 then [AluImm(AddI, ESP, Wrap(4 * count))] else [])
  }

  function CallStep(toks: seq<Token>, f: Function, scope: Scope, env: Env): Step {
    if Is(Head(toks).text, '(') then
      match Arguments(Drop(toks, 1), scope.vars, env)
      case BadArgs(why) => Refused(why)
      case Args(code, n, rest) => Go(code + EncodeAll(CallCode(f, n)), rest, scope)
    else Go(EncodeAll(CallCode(f, 0)), toks, scope)
  }

  // ----- blocks -----

  /** Past the matching brace; the current token is in front. */
  function SkipBlock(toks: seq<Token>, depth: int): (r: seq<Token>)
    ensures |r| <= |toks| && (toks != [] ==> |r| < |toks|)
    decreases |toks|
  {
    if toks == [] then []
    else
      var d := if Is(toks[0].text, '{') then depth + 1 else depth;
      if Is(toks[0].text, '}') then
        if d == 1 then toks[1..] else SkipBlock(toks[1..], d - 1)
      else SkipBlock(toks[1..], d)
  }

  function TestCode(skip: int): seq<Instr> {
    [AluImm(CmpI, EBX, 0), JumpIf(Equal, Wrap(skip))]
  }

  /** The condition, the test around the block, the block, and the jump back to the condition. */
  function WhileCode(cond: seq<byte>, block: seq<byte>): seq<byte> {
    var loop := cond + EncodeAll(TestCode(|block| + 5)) + block;
    loop + Encode(Jump(Wrap(-|loop| - 5)))
  }

  lemma {:induction false} WhileCodeOf(cond: seq<byte>, block: seq<byte>)
    ensures var loop := cond + EncodeAll(TestCode(|block| + 5)) + block;
            WhileCode(cond, block) == loop + Encode(Jump(Wrap(-|loop| - 5)))
  {
    hide EncodeAll, TestCode, Encode, Wrap;
  }

  /** A compiled block without its nine bytes of prologue and four of epilogue. */
  function Inside(code: seq<byte>): seq<byte> {
    if |code| >= 13 then code[9..|code| - 4] else []
  }

  /** The parameters of a function definition, and the tokens from its body on. */
  datatype ParamList = Params(vars: seq<Variable>, rest: seq<Token>) | BadParams(why: Why)

  function ParamBits(name: string): nat {
    match TypeFromName(name) case None => 255 case Some(bits) => bits
  }

  function Parameters(toks: seq<Token>, vars: seq<Variable>, rel: int): (r: ParamList)
    ensures r.Params? ==> |r.rest| <= |toks|
    decreases |toks|
  {
    if toks != [] && Is(toks[0].text, ')') then Params(vars, toks[1..])
    else if toks == [] then BadParams(Overflow)
    else if ParamBits(toks[0].text) == 0 then BadParams(Invalid)
    else if |vars| >= CAPACITY then BadParams(Overflow)
    else
      var v := Variable(Head(toks[1..]).text, ParamBits(toks[0].text), rel);
      Parameters(Drop(toks, 2), vars + [v], rel - 4)
  }

  function Address(env: Env, n: nat): u32 {
    if n < |env.addrs| then env.addrs[n] else 0
  }

  /** Compile a block that starts at the given tokens into a buffer of its own. */
  function Compile(toks: seq<Token>, vars: seq<Variable>, funcs: seq<Function>, env: Env): Result
    decreases |toks|, 2
  {
    match Body(toks, Scope(0, vars, funcs), env)
    case Failed(why) => Failed(why)
    case Compiled(code, vars', funcs') =>
      Compiled(EncodeAll(Prologue(Wrap(FrameSize(vars')))) + code + EncodeAll(EPILOGUE), vars', funcs')
  }

  function Continue(bytes: seq<byte>, r: Result): Result {
    if r.Failed? then r else r.(code := bytes + r.code)
  }

  /** The statement loop. */
  function Body(toks: seq<Token>, scope: Scope, env: Env): Result
    decreases |toks|, 1
  {
    if toks == [] then Compiled([], scope.vars, scope.funcs)
    else
      match OneStep(toks, scope, env)
      case Refused(why) => Failed(why)
      case Done => Compiled([], scope.vars, scope.funcs)
      case Go(code, rest, scope') => Continue(code, Body(rest, scope', env))
  }

  /** One round of the loop, the current token in front. */
  function OneStep(toks: seq<Token>, scope: Scope, env: Env): (r: Step)
    requires toks != []
    ensures r.Go? ==> |r.rest| < |toks|
    decreases |toks|, 0
  {
    var rest := toks[1..];
    match Classify(toks[0], scope)
    case Comment => Go([], rest, scope)
    case Semicolon => Go([], rest, scope)
    case StoresByte => StoreStep(rest, scope, env)
    case Outside => Refused(Unsupported)
    case Unknown => Refused(Invalid)
    case Open => Go([], rest, scope.(enter := scope.enter + 1))
    case Close => if scope.enter == 1 then Done else Go([], rest, scope.(enter := scope.enter - 1))
    case Assigns(v) => ExprThen(rest, scope, env, EncodeAll(StoreVar(v)))
    case AssignsReg(r) => ExprThen(rest, scope, env, AssignReg(r))
    case Calls(f) => CallStep(rest, f, scope, env)
    case Declares(bits) => DeclareStep(rest, bits, scope, env)
    case IfWord => IfStep(rest, scope, env)
    case WhileWord => WhileStep(rest, scope, env)
  }

  function IfStep(toks: seq<Token>, scope: Scope, env: Env): (r: Step)
    ensures r.Go? ==> |r.rest| <= |toks|
    decreases |toks|, 3
  {
    match Expr(toks, scope.vars, env.ro)
    case Crashed => Refused(NullPointer)
    case Emitted(code, used) =>
      var rest := Drop(toks, used);
      match Compile(rest, scope.vars, scope.funcs, env)
      case Failed(why) => Refused(why)
      case Compiled(block, _, funcs) =>
        Go(code + EncodeAll(TestCode(|block| - 13)), rest, scope.(funcs := funcs))
  }

  function WhileStep(toks: seq<Token>, scope: Scope, env: Env): (r: Step)
    ensures r.Go? ==> |r.rest| <= |toks|
    decreases |toks|, 3
  {
    match Expr(toks, scope.vars, env.ro)
    case Crashed => Refused(NullPointer)
    case Emitted(code, used) =>
      var rest := Drop(toks, used);
      match Compile(rest, scope.vars, scope.funcs, env)
      case Failed(why) => Refused(why)
      case Compiled(block, _, funcs) =>
        Go(WhileCode(code, Inside(block)), SkipBlock(rest, 0), scope.(funcs := funcs))
  }

  /** After a type: a declaration `name = value`, or a function definition `name ( ... ) { ... }`. */
  function DeclareStep(toks: seq<Token>, bits: nat, scope: Scope, env: Env): (r: Step)
    ensures r.Go? ==> |r.rest| <= |toks|
    decreases |toks|, 4
  {
    var name, mark := Head(toks).text, Head(Drop(toks, 1)).text;
    var rest := Drop(toks, 2);
    if Is(mark, '=') then Declare(rest, bits, name, scope, env)
    else if Is(mark, '<') then ArrayStep(rest, bits, name, scope)
    else if !Is(mark, '(') then Refused(Invalid)
    else
      match Parameters(rest, [], -8)
      case BadParams(why) => Refused(why)
      case Params(vars, body) =>
        if body != [] && body[0].kind != Special then Refused(Unsupported)
        else
          match Compile(body, vars, scope.funcs, env)
          case Failed(why) => Refused(why)
          case Compiled(code, _, funcs) =>
            if |funcs| >= CAPACITY then Refused(Overflow)
            else
              var f := Function(name, Address(env, |funcs|), code);
              Go([], SkipBlock(body, 0), scope.(funcs := funcs + [f]))
  }

  // ----- the functions above, case by case -----

  /** What remains of an argument list, its first part emitted. */
  function MoreArgs(code: seq<byte>, n: nat, r: ArgCode): ArgCode {
    if r.BadArgs? then r else Args(code + r.code, n + r.count, r.rest)
  }

  lemma {:induction false} MoreArgsTwice(a: seq<byte>, m: nat, b: seq<byte>, n: nat, r: ArgCode)
    ensures MoreArgs(a, m, MoreArgs(b, n, r)) == MoreArgs(a + b, m + n, r)
  {
    if r.Args? {
      Assoc(a, b, r.code);
    }
  }

  lemma {:induction false} NoMoreArgs(r: ArgCode)
    ensures MoreArgs([], 0, r) == r
  {
    if r.Args? {
      assert [] + r.code == r.code;
    }
  }

  lemma {:induction false} MoreArgsOf(code: seq<byte>, n: nat, r: ArgCode)
    ensures MoreArgs(code, n, r) == if r.BadArgs? then r else Args(code + r.code, n + r.count, r.rest)
  {
  }

  lemma {:induction false} ArgumentsOf(toks: seq<Token>, vars: seq<Variable>, env: Env)
    ensures var e := Expr(toks, vars, env.ro);
            && (e.Crashed? ==> Arguments(toks, vars, env) == BadArgs(NullPointer))
            && (e.Emitted? ==>
                  var after := Drop(toks, e.used);
                  var code := e.code + Encode(Push(EBX));
                  Arguments(toks, vars, env)
                  == if after == [] then BadArgs(Unsupported)
                     else if after[0].text == ")" then Args(code, 1, Drop(after[1..], 1))
                     else if e.used == 0 then Args(code, 1, after[1..])
                     else MoreArgs(code, 1, Arguments(after[1..], vars, env)))
  {
    var e := Expr(toks, vars, env.ro);
    if e.Emitted? {
      var after := Drop(toks, e.used);
      if after != [] {
        assert Drop(after, 1) == after[1..];
        DropDrop(after, 1, 1);
      }
    }
    hide Expr, Encode;
  }

  lemma {:induction false} CallStepOf(toks: seq<Token>, f: Function, scope: Scope, env: Env)
    ensures Head(toks).text == "(" ==>
              var args := Arguments(Drop(toks, 1), scope.vars, env);
              CallStep(toks, f, scope, env)
              == if args.BadArgs? then Refused(args.why)
                 else Go(args.code + EncodeAll(CallCode(f, args.count)), args.rest, scope)
    ensures Head(toks).text != "(" ==> CallStep(toks, f, scope, env) == Go(EncodeAll(CallCode(f, 0)), toks, scope)
  {
    hide Arguments, CallCode, EncodeAll;
  }

  lemma {:induction false} IfStepOf(toks: seq<Token>, scope: Scope, env: Env)
    ensures var e := Expr(toks, scope.vars, env.ro);
            && (e.Crashed? ==> IfStep(toks, scope, env) == Refused(NullPointer))
            && (e.Emitted? ==>
                  var rest := Drop(toks, e.used);
                  var r := Compile(rest, scope.vars, scope.funcs, env);
                  IfStep(toks, scope, env)
                  == if r.Failed? then Refused(r.why)
                     else Go(e.code + EncodeAll(TestCode(|r.code| - 13)), rest, scope.(funcs := r.funcs)))
  {
    hide Expr, Drop, Compile, TestCode, EncodeAll;
  }

  lemma {:induction false} WhileStepOf(toks: seq<Token>, scope: Scope, env: Env)
    ensures var e := Expr(toks, scope.vars, env.ro);
            && (e.Crashed? ==> WhileStep(toks, scope, env) == Refused(NullPointer))
            && (e.Emitted? ==>
                  var rest := Drop(toks, e.used);
                  var r := Compile(rest, scope.vars, scope.funcs, env);
                  WhileStep(toks, scope, env)
                  == if r.Failed? then Refused(r.why)
                     else Go(WhileCode(e.code, Inside(r.code)), SkipBlock(rest, 0), scope.(funcs := r.funcs)))
  {
    hide Expr, Drop, Compile, WhileCode, Inside, SkipBlock;
  }

  lemma {:induction false} ContinueOf(code: seq<byte>, r: Result)
    ensures Continue(code, r) == if r.Failed? then r else Compiled(code + r.code, r.vars, r.funcs)
    ensures code + [] == code
  {
  }

  lemma {:induction false} ContinueFrom(r: Result)
    ensures Continue([], r) == r
  {
    if r.Compiled? {
      assert [] + r.code == r.code;
    }
  }

  lemma {:induction false} ContinueMore(a: seq<byte>, b: seq<byte>, r: Result)
    ensures Continue(a, Continue(b, r)) == Continue(a + b, r)
  {
    if r.Compiled? {
      Assoc(a, b, r.code);
    }
  }

  // ----- the words and numbers of the statement compiler -----

  /** The words and marks that no variable can take over. */
  lemma {:induction false} Keywords(kind: Kind, w: string, scope: Scope)
    ensures Classify(Token(Text, w), scope) == Comment
    ensures kind != Text ==>
              && Classify(Token(kind, "if"), scope) == IfWord && Classify(Token(kind, "while"), scope) == WhileWord
              && Classify(Token(kind, "{"), scope) == Open && Classify(Token(kind, "}"), scope) == Close
              && (w in ["Uf", "Dump", "INT", "IN", "OUT", "include"] ==> Classify(Token(kind, w), scope) == Outside)
  {
  }

  /** Every other token: variables come before registers, marks and functions. */
  lemma {:induction false} OtherWords(kind: Kind, w: string, scope: Scope)
    requires kind != Text && TypeFromName(w).None?
    requires w !in ["if", "while", "{", "}", "Uf", "Dump", "INT", "IN", "OUT", "include"]
    ensures var c := Classify(Token(kind, w), scope);
            if exists v :: v in scope.vars && v.name == w then c.Assigns? && c.v in scope.vars && c.v.name == w
            else if w in ["eax", "ecx", "edx", "ebx", "esp", "ebp", "esi", "edi"] then
              Register(w).Some? && c == AssignsReg(Register(w).value)
            else if w == ";" then c == Semicolon
            else if w == "*" then c == StoresByte
            else if exists f :: f in scope.funcs && f.name == w then
              c.Calls? && c.f in scope.funcs && c.f.name == w
            else c == Unknown
  {
    RegisterNames(w);
    hide TypeFromName, Register, FindVar, FindFn;
  }

  /** The first function of a name is the one that is called. */
  lemma {:induction false} FindFnFirst(funcs: seq<Function>, name: string) returns (i: nat)
    requires FindFn(funcs, name).Some?
    ensures i < |funcs| && funcs[i] == FindFn(funcs, name).value && forall j | 0 <= j < i :: funcs[j].name != name
    decreases |funcs|
  {
    if funcs[0].name == name {
      i := 0;
    } else {
      var k := FindFnFirst(funcs[1..], name);
      i := k + 1;
      forall j | 0 <= j < i
        ensures funcs[j].name != name
      {
        assert j > 0 ==> funcs[j] == funcs[1..][j - 1];
      }
    }
  }

  /** The first local lies 4 below EBP, the next one behind it by its size in bytes; the frame is
      4 bytes larger than its locals, and a frame without locals has 4. */
  lemma {:induction false} FrameNumbers(vars: seq<Variable>, v: Variable)
    ensures NextRel([]) == 4 && FrameSize([]) == 4 && CAPACITY == 8
    ensures v.rel > 0 ==> NextRel(vars + [v]) == v.rel + v.bits / 8 && FrameSize(vars + [v]) == v.rel + v.bits / 8 + 4
    ensures v.rel <= 0 ==> NextRel(vars + [v]) == 4 && FrameSize(vars + [v]) == 4
  {
    assert (vars + [v])[|vars|] == v;
  }

  /** Declarations that are refused: a second one of the name, a ninth variable, and any other
      mark behind the name. */
  lemma {:induction false} BadDeclarations(bits: nat, name: string, mark: Token, rest: seq<Token>, scope: Scope,
                                           env: Env)
    ensures var toks := [Token(Word, name), mark] + rest;
            var step := DeclareStep(toks, bits, scope, env);
            && (mark.text == "=" && (exists v :: v in scope.vars && v.name == name) ==> step == Refused(Invalid))
            && (mark.text == "=" && (forall v | v in scope.vars :: v.name != name) && |scope.vars| >= 8 ==>
                  step == Refused(Overflow))
            && (mark.text !in ["=", "<", "("] ==> step == Refused(Invalid))
  {
    var toks := [Token(Word, name), mark] + rest;
    assert Head(toks) == toks[0] && Head(Drop(toks, 1)) == mark && Drop(toks, 2) == rest;
    hide FindVar, Parameters, Compile, ExprThen, Head, Drop, SkipBlock;
  }
}
