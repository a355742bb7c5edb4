/** CompilerExpr: operands and operators, left to right without precedence, accumulated in EBX. */
module ExprCompiler {
  import opened Sequences
  import opened Words
  import opened X86
  import opened Emitter
  import opened Tokenizer
  import opened Names

  /** Where each string literal of the program is kept. */
  type RoData = map<string, u32>

  function RoAddress(ro: RoData, text: string): u32 {
    if text in ro then ro[text] else 0
  }

  // ----- positions in the token stream -----

  function Head(toks: seq<Token>): Token {
    if toks == [] then NO_TOKEN else toks[0]
  }

  function Drop(toks: seq<Token>, n: nat): seq<Token> {
    if n <= |toks| then toks[n..] else []
  }

  /** How many characters n calls of NEXTTOK take. */
  function After(s: string, n: nat): (k: nat)
    ensures k <= |s|
    decreases n
  {
    if n == 0 then 0 else Next(s).len + After(s[Next(s).len..], n - 1)
  }

  lemma {:induction false} LexTail(s: string)
    ensures Lex(s[Next(s).len..]) == Drop(Lex(s), 1)
  {
    hide First, Next;
    if Next(s).last == 0 {
      assert s[Next(s).len..] == "";
      LexEmpty();
    }
  }

  lemma {:induction false} LexEmpty()
    ensures Lex("") == []
  {
    assert Next("").last == 0;
  }

  lemma {:induction false} DropDrop(toks: seq<Token>, m: nat, n: nat)
    ensures Drop(Drop(toks, m), n) == Drop(toks, m + n)
  {
  }

  /** The text after n NEXTTOKs holds the token list without its first n. */
  lemma {:induction false} LexAfter(s: string, n: nat)
    ensures Lex(s[After(s, n)..]) == Drop(Lex(s), n)
    decreases n
  {
    hide Next, Lex;
    if n == 0 {
      assert s[0..] == s;
    } else {
      var rest := s[Next(s).len..];
      LexAfter(rest, n - 1);
      assert rest[After(rest, n - 1)..] == s[After(s, n)..];
      LexTail(s);
      DropDrop(Lex(s), 1, n - 1);
    }
  }

  /** One more NEXTTOK. */
  lemma {:induction false} AfterOne(s: string, n: nat)
    ensures var rest := s[After(s, n)..];
            After(s, n + 1) == After(s, n) + Next(rest).len
    decreases n
  {
    hide Next;
    if n == 0 {
      assert s[0..] == s;
      assert After(s[Next(s).len..], 0) == 0;
    } else {
      var rest := s[Next(s).len..];
      AfterOne(rest, n - 1);
      assert rest[After(rest, n - 1)..] == s[After(s, n)..];
    }
  }

  // ----- specification -----

  /** What an operand asks for. NoRegister: the code gives up. NoVariable: it follows a null
      pointer. Nought: nothing is emitted. Junk: register number 0xFF fills the ModR/M byte. */
  datatype Form =
    | FromReg(reg: Reg)
    | FromConst(value: u32)
    | FromPointer(reg: Reg)
    | FromAddress(v: Variable)
    | FromVar(v: Variable)
    | FromTarget(v: Variable)
    | Nought
    | Junk
    | NoRegister
    | NoVariable

  function LoadVar(dst: Reg, v: Variable): seq<Instr> {
    LoadSized(dst, EBP, -v.rel, v.bits / 8)
  }

  function AddressOf(dst: Reg, v: Variable): seq<Instr> {
    [MovRR(dst, EBP), AluImm(AddI, dst, Wrap(-v.rel))]
  }

  function FormCode(dst: Reg, form: Form): seq<byte> {
    match form
    case FromReg(r) => Encode(MovRR(dst, r))
    case FromConst(v) => Encode(MovRI(dst, v))
    case FromPointer(r) => Encode(LoadInd(dst, r))
    case FromAddress(v) => EncodeAll(AddressOf(dst, v))
    case FromVar(v) => EncodeAll(LoadVar(dst, v))
    case FromTarget(v) => EncodeAll(LoadSized(EDX, EBP, -v.rel, 4)) + EncodeAll(LoadSized(dst, EDX, 0, 1))
    case Junk => [0x8B, 0xFF]
    case _ => []
  }

  /** The text consists of this one character. */
  predicate Is(text: string, c: char) {
    text == [c]
  }

  /** Operands marked by a special character take the token after it too. */
  predicate Marked(t: Token) {
    Is(t.text, '@') || Is(t.text, '&') || Is(t.text, '*')
  }

  /** A variable, or else a number. */
  function PlainForm(text: string, vars: seq<Variable>): Form {
    var v := FindVar(vars, text);
    if v.Some? then FromVar(v.value) else FromConst(Atoi(text))
  }

  function PointerForm(name: string): Form {
    var r := Register(name);
    if r.Some? then FromPointer(r.value) else NoRegister
  }

  function AddressForm(name: string, vars: seq<Variable>): Form {
    var v := FindVar(vars, name);
    if v.Some? then FromAddress(v.value) else Nought
  }

  /** The first operand `*x` reads the byte that x points to. */
  function TargetForm(name: string, vars: seq<Variable>): Form {
    var v := FindVar(vars, name);
    if v.Some? then FromTarget(v.value) else NoVariable
  }

  /** A later operand `*x` reads x itself. */
  function StarForm(name: string, vars: seq<Variable>): Form {
    var v, r := FindVar(vars, name), Register(name);
    if v.Some? then FromVar(v.value)
    else if r.None? then Junk
    else if r.value == EAX then Nought
    else FromPointer(r.value)
  }

  /** The first operand goes to EBX. */
  function FirstForm(t: Token, name: string, vars: seq<Variable>, ro: RoData): Form {
    if Register(t.text).Some? then FromReg(Register(t.text).value)
    else if t.kind == Text then FromConst(RoAddress(ro, t.text))
    else if Is(t.text, '@') then PointerForm(name)
    else if Is(t.text, '&') then AddressForm(name, vars)
    else if Is(t.text, '*') then TargetForm(name, vars)
    else PlainForm(t.text, vars)
  }

  /** Later operands go to EDX; their marks outrank strings. */
  function LaterForm(t: Token, name: string, vars: seq<Variable>, ro: RoData): Form {
    if Register(t.text).Some? then FromReg(Register(t.text).value)
    else if Is(t.text, '@') then PointerForm(name)
    else if Is(t.text, '&') then AddressForm(name, vars)
    else if Is(t.text, '*') then StarForm(name, vars)
    else if t.kind == Text then FromConst(RoAddress(ro, t.text))
    else PlainForm(t.text, vars)
  }

  /** How many tokens an operand takes; a string is one operand in first place only. */
  function Width(first: bool, t: Token): nat {
    if Marked(t) && !(first && t.kind == Text) then 2 else 1
  }

  function OperandForm(first: bool, toks: seq<Token>, vars: seq<Variable>, ro: RoData): Form
    requires toks != []
  {
    var t, name := toks[0], Head(toks[1..]).text;
    if first then FirstForm(t, name, vars, ro) else LaterForm(t, name, vars, ro)
  }

  predicate IsOperator(c: char) {
    c in "-+&^|*/%<>!="
  }

  lemma {:induction false} OperatorChars(e: char)
    ensures IsOperator(e) <==> e == '-' || e == '+' || e == '&' || e == '^' || e == '|' || e == '*' || e == '/'
                               || e == '%' || e == '<' || e == '>' || e == '!' || e == '='
  {
    var ops := "-+&^|*/%<>!=";
    assert ops[0] == '-' && ops[1] == '+' && ops[2] == '&' && ops[3] == '^' && ops[4] == '|' && ops[5] == '*';
    assert ops[6] == '/' && ops[7] == '%' && ops[8] == '<' && ops[9] == '>' && ops[10] == '!' && ops[11] == '=';
  }

  function SetIf(left: Reg, right: Reg, c: Cond): seq<Instr> {
    [CmpRR(left, right), MovRI(EBX, 0), SetCC(c, EBX)]
  }

  function Divide(result: Reg): seq<Instr> {
    [MovRR(EAX, EBX), MovRR(ECX, EDX), Alu(Xor, EDX, EDX), IDiv(ECX), MovRR(EBX, result)]
  }

  /** EBX := EBX op EDX. */
  function OpCode(e: char): seq<Instr> {
    match e
    case '-' => [Alu(Sub, EBX, EDX)]
    case '+' => [Alu(Add, EBX, EDX)]
    case '*' => [IMul(EBX, EDX)]
    case '/' => Divide(EAX)
    case '%' => Divide(EDX)
    case '&' => [Alu(And, EBX, EDX)]
    case '^' => [Alu(Xor, EBX, EDX)]
    case '|' => [Alu(Or, EBX, EDX)]
    case '<' => SetIf(EBX, EDX, Below)
    case '>' => SetIf(EDX, EBX, Below)
    case '!' => SetIf(EBX, EDX, NotEqual)
    case '=' => SetIf(EBX, EDX, Equal)
    case _ => []
  }

  /** The bytes emitted and the number of NEXTTOK calls made; `used` is 0 when the code gives up
      on a bad register and returns 0. Crashed: the code follows a null variable pointer. */
  datatype ExprCode = Emitted(code: seq<byte>, used: nat) | Crashed

  function Then(code: seq<byte>, n: nat, r: ExprCode): ExprCode {
    if r.Crashed? then Crashed else Emitted(code + r.code, if r.used == 0 then 0 else n + r.used)
  }

  /** CompilerExpr on the tokens that follow. */
  function Expr(toks: seq<Token>, vars: seq<Variable>, ro: RoData): ExprCode {
    if toks == [] then Emitted([], 1)
    else
      var form := OperandForm(true, toks, vars, ro);
      if form.NoRegister? then Emitted([], 0)
      else if form.NoVariable? then Crashed
      else
        var n := Width(true, toks[0]);
        Then(FormCode(EBX, form), n, Operators(Drop(toks, n), vars, ro))
  }

  /** State 1: an operator, or the terminator. */
  function Operators(toks: seq<Token>, vars: seq<Variable>, ro: RoData): ExprCode
    decreases |toks|, 1
  {
    if toks == [] || !IsOperator(CharAt(toks[0].text, 0)) then Emitted([], 1)
    else Then([], 1, Operands(toks[1..], CharAt(toks[0].text, 0), vars, ro))
  }

  /** State 2: the operand of operator e. */
  function Operands(toks: seq<Token>, e: char, vars: seq<Variable>, ro: RoData): ExprCode
    decreases |toks|, 0
  {
    if toks == [] then Emitted([], 1)
    else
      var form := OperandForm(false, toks, vars, ro);
      if form.NoRegister? then Emitted([], 0)
      else
        var n := Width(false, toks[0]);
        Then(FormCode(EDX, form) + EncodeAll(OpCode(e)), n, Operators(Drop(toks, n), vars, ro))
  }

  lemma {:induction false} ThenThen(a: seq<byte>, i: nat, b: seq<byte>, j: nat, r: ExprCode)
    ensures Then(a, i, Then(b, j, r)) == Then(a + b, i + j, r)
  {
    if r.Emitted? {
      Assoc(a, b, r.code);
    }
  }

  // ----- the state machine -----

  /** The states s = 0, 1 and 2; Finished is cont == False. */
  datatype Mode = Initial | Operator | Later(e: char) | Finished

  /** Where the reader is: characters taken, the current token, the length TokenNext returned. */
  datatype Cursor = Cursor(sym: nat, tok: Token, last: nat)

  /** What is still to come with the current token in front. */
  function Remaining(mode: Mode, toks: seq<Token>, vars: seq<Variable>, ro: RoData): ExprCode {
    match mode
    case Initial => Expr(toks, vars, ro)
    case Operator => Operators(toks, vars, ro)
    case Later(e) => Operands(toks, e, vars, ro)
    case Finished => Emitted([], 1)
  }

  /** The reader has made n NEXTTOK calls on the text. */
  ghost predicate Reader(text: string, n: nat, cur: Cursor) {
    && n >= 1
    && cur.sym == After(text, n)
    && var toks := Drop(Lex(text), n - 1);
       (cur.last > 0 <==> toks != []) && cur.tok == Head(toks)
  }

  lemma {:induction false} ReaderFacts(text: string, n: nat, cur: Cursor)
    requires Reader(text, n, cur)
    ensures n >= 1 && cur.sym == After(text, n) <= |text|
    ensures cur.last == 0 <==> Drop(Lex(text), n - 1) == []
    ensures cur.last > 0 ==> cur.tok == Drop(Lex(text), n - 1)[0] && n <= |Lex(text)|
  {
  }

  method Start(text: string) returns (cur: Cursor)
    ensures Reader(text, 1, cur)
  {
    var tok, last, len := NextTok(text);
    cur := Cursor(len, tok, last);
    assert After(text[Next(text).len..], 0) == 0;
    hide Next;
    assert After(text, 1) == Next(text).len;
  }

  method ReadNext(text: string, ghost n: nat, cur: Cursor) returns (cur': Cursor)
    requires Reader(text, n, cur)
    ensures Reader(text, n + 1, cur')
    ensures cur'.tok == Head(Drop(Lex(text), n))
  {
    hide Next;
    ReaderFacts(text, n, cur);
    AfterOne(text, n);
    LexAfter(text, n);
    var tok, last, len := NextTok(text[cur.sym..]);
    cur' := Cursor(cur.sym + len, tok, last);
  }

  // ----- emission -----

  method EmitAddressOf(out: CodeBuffer, dst: Reg, v: Variable)
    modifies out
    ensures out.bytes == old(out.bytes) + EncodeAll(AddressOf(dst, v))
  {
    out.MovReg2Reg32(dst, EBP);
    out.AddImm2Reg32(dst, Wrap(-v.rel));
    EncodeAllTwo(MovRR(dst, EBP), AluImm(AddI, dst, Wrap(-v.rel)));
    hide Encode;
    Assoc(old(out.bytes), Encode(MovRR(dst, EBP)), Encode(AluImm(AddI, dst, Wrap(-v.rel))));
  }

  method EmitForm(out: CodeBuffer, dst: Reg, form: Form)
    modifies out
    ensures out.bytes == old(out.bytes) + FormCode(dst, form)
  {
    hide Encode, EncodeAll;
    match form {
      case FromReg(r) => out.MovReg2Reg32(dst, r);
      case FromConst(v) => out.MovImm2Reg32(dst, v);
      case FromPointer(r) => out.MovMem2Reg32(dst, r);
      case FromAddress(v) => EmitAddressOf(out, dst, v);
      case FromVar(v) => out.MovDisp2Reg32(dst, EBP, -v.rel, v.bits / 8);
      case FromTarget(v) =>
        out.MovDisp2Reg32(EDX, EBP, -v.rel, 4);
        out.MovDisp2Reg32(dst, EDX, 0, 1);
        Assoc(old(out.bytes), EncodeAll(LoadSized(EDX, EBP, -v.rel, 4)), EncodeAll(LoadSized(dst, EDX, 0, 1)));
      case Junk => out.Make32(false, 1, 0x8B, 0xFF, 0, 0, 0);
      case _ =>
    }
  }

  /** The switch over the operator. */
  method EmitOp(out: CodeBuffer, e: char)
    modifies out
    ensures out.bytes == old(out.bytes) + EncodeAll(OpCode(e))
  {
    hide Encode, EncodeAll;
    match e {
      case '-' => out.SubReg2Reg32(EBX, EDX); EncodeAllOne(Alu(Sub, EBX, EDX));
      case '+' => out.AddReg2Reg32(EBX, EDX); EncodeAllOne(Alu(Add, EBX, EDX));
      case '*' => out.IMulReg2Reg32(EBX, EDX); EncodeAllOne(IMul(EBX, EDX));
      case '/' => EmitDivide(out, EAX);
      case '%' => EmitDivide(out, EDX);
      case '&' => out.AndReg2Reg32(EBX, EDX); EncodeAllOne(Alu(And, EBX, EDX));
      case '^' => out.XorReg2Reg32(EBX, EDX); EncodeAllOne(Alu(Xor, EBX, EDX));
      case '|' => out.OrReg2Reg32(EBX, EDX); EncodeAllOne(Alu(Or, EBX, EDX));
      case '<' => EmitCompare(out, EDX, EBX, Below);
      case '>' => EmitCompare(out, EBX, EDX, Below);
      case '!' => EmitCompare(out, EDX, EBX, NotEqual);
      case '=' => EmitCompare(out, EDX, EBX, Equal);
      case _ => EncodeAllNone();
    }
  }

  method EmitDivide(out: CodeBuffer, result: Reg)
    modifies out
    ensures out.bytes == old(out.bytes) + EncodeAll(Divide(result))
  {
    hide Encode, EncodeAll;
    ghost var done: seq<Instr> := [];
    ghost var start := out.bytes;
    EncodeAllNone();
    out.MovReg2Reg32(EAX, EBX);
    done := Appended(start, done, MovRR(EAX, EBX));
    out.MovReg2Reg32(ECX, EDX);
    done := Appended(start, done, MovRR(ECX, EDX));
    out.XorReg2Reg32(EDX, EDX);
    done := Appended(start, done, Alu(Xor, EDX, EDX));
    out.IDivReg32(ECX);
    done := Appended(start, done, IDiv(ECX));
    out.MovReg2Reg32(EBX, result);
    done := Appended(start, done, MovRR(EBX, result));
    assert done == Divide(result);
  }

  /** The comparison compares its second register with its first. */
  method EmitCompare(out: CodeBuffer, r1: Reg, r2: Reg, c: Cond)
    modifies out
    ensures out.bytes == old(out.bytes) + EncodeAll(SetIf(r2, r1, c))
  {
    hide Encode, EncodeAll;
    ghost var done: seq<Instr> := [];
    ghost var start := out.bytes;
    EncodeAllNone();
    out.CmpReg2Reg32(r1, r2);
    done := Appended(start, done, CmpRR(r2, r1));
    out.SetBl(c);
    done := Appended(start, done, MovRI(EBX, 0));
    done := Appended(start, done, SetCC(c, EBX));
    assert done == SetIf(r2, r1, c);
  }

  lemma {:induction false} Appended(start: seq<byte>, done: seq<Instr>, i: Instr) returns (more: seq<Instr>)
    ensures more == done + [i]
    ensures start + EncodeAll(done) + Encode(i) == start + EncodeAll(more)
  {
    more := done + [i];
    hide Encode;
    EncodeAllConcat(done, [i]);
    EncodeAllOne(i);
    Assoc(start, EncodeAll(done), Encode(i));
  }

  // ----- the loop -----

  /** Reads one operand; its second token, if it has one, becomes the current token. */
  method ReadOperand(first: bool, text: string, vars: seq<Variable>, ro: RoData, ghost n: nat, cur: Cursor)
    returns (form: Form, cur': Cursor)
    requires Reader(text, n, cur) && cur.last > 0
    ensures form == OperandForm(first, Drop(Lex(text), n - 1), vars, ro)
    ensures Reader(text, n - 1 + Width(first, cur.tok), cur')
  {
    cur' := cur;
    var tok := cur.tok;
    ghost var toks := Drop(Lex(text), n - 1);
    assert toks != [] && tok == toks[0] && toks[1..] == Drop(Lex(text), n);
    hide Register, FindVar, Atoi, Lex, Reader, Drop, Head;
    var reg := Register(tok.text);
    if reg.Some? {
      RegisterUnmarked(tok);
      return FromReg(reg.value), cur;
    }
    if first && tok.kind == Text {
      return FromConst(RoAddress(ro, tok.text)), cur;
    }
    if Is(tok.text, '@') {
      cur' := ReadNext(text, n, cur);
      form := PointerForm(cur'.tok.text);
    } else if Is(tok.text, '&') {
      cur' := ReadNext(text, n, cur);
      var v := FindVarLoop(vars, cur'.tok.text);
      form := if v.Some? then FromAddress(v.value) else Nought;
    } else if Is(tok.text, '*') {
      cur' := ReadNext(text, n, cur);
      var v := FindVarLoop(vars, cur'.tok.text);
      form := if v.Some? then (if first then FromTarget(v.value) else FromVar(v.value))
              else if first then NoVariable else StarForm(cur'.tok.text, vars);
    } else if tok.kind == Text {
      form := FromConst(RoAddress(ro, tok.text));
    } else {
      var v := FindVarLoop(vars, tok.text);
      if v.Some? {
        form := FromVar(v.value);
      } else {
        var imm := AtoiLoop(tok.text);
        form := FromConst(imm);
      }
    }
  }

  lemma {:induction false} RegisterUnmarked(t: Token)
    requires Register(t.text).Some?
    ensures !Marked(t)
  {
    assert |t.text| == 3;
  }

  /** What the whole call must leave in the output, given the bytes there now and n NEXTTOKs
      made, the last of them for the current token. */
  ghost predicate OnTrack(goal: ExprCode, bytes: seq<byte>, n: nat, mode: Mode, all: seq<Token>, vars: seq<Variable>,
                          ro: RoData)
  {
    n >= 1 && goal == Then(bytes, n - 1, Remaining(mode, Drop(all, n - 1), vars, ro))
  }

  lemma {:induction false} StartOnTrack(bytes: seq<byte>, all: seq<Token>, vars: seq<Variable>, ro: RoData)
    ensures OnTrack(Then(bytes, 0, Expr(all, vars, ro)), bytes, 1, Initial, all, vars, ro)
  {
  }

  lemma {:induction false} EndOnTrack(goal: ExprCode, bytes: seq<byte>, n: nat, mode: Mode, all: seq<Token>,
                                      vars: seq<Variable>, ro: RoData)
    requires OnTrack(goal, bytes, n, mode, all, vars, ro)
    requires mode.Finished? || Drop(all, n - 1) == []
    ensures goal == Emitted(bytes, n)
  {
    assert bytes + [] == bytes;
  }

  function AfterOperator(c: char): Mode {
    if IsOperator(c) then Later(c) else Finished
  }

  lemma {:induction false} OperatorStep(goal: ExprCode, bytes: seq<byte>, n: nat, all: seq<Token>, vars: seq<Variable>,
                                        ro: RoData)
    requires OnTrack(goal, bytes, n, Operator, all, vars, ro) && Drop(all, n - 1) != []
    ensures var e := CharAt(Drop(all, n - 1)[0].text, 0);
            if IsOperator(e) then OnTrack(goal, bytes, n + 1, Later(e), all, vars, ro)
            else OnTrack(goal, bytes, n, Finished, all, vars, ro)
  {
    hide *;
    OnTrackIs(goal, bytes, n, Operator, all, vars, ro);
    var toks := Drop(all, n - 1);
    var e := CharAt(toks[0].text, 0);
    NextDrop(all, n);
    RemainingOperator(toks, vars, ro);
    RemainingOperator(toks[1..], vars, ro);
    OperatorsOf(toks, vars, ro);
    ThenGivesUp(bytes, n - 1);
    ThenThen(bytes, n - 1, [], 1, Operands(toks[1..], e, vars, ro));
    assert bytes + [] == bytes;
    OnTrackIs(goal, bytes, n + 1, Later(e), all, vars, ro);
    OnTrackIs(goal, bytes, n, Finished, all, vars, ro);
  }

  lemma {:induction false} NextDrop(all: seq<Token>, n: nat)
    requires n >= 1 && Drop(all, n - 1) != []
    ensures Drop(all, n - 1)[1..] == Drop(all, n)
  {
  }

  lemma {:induction false} OperatorsOf(toks: seq<Token>, vars: seq<Variable>, ro: RoData)
    requires toks != []
    ensures var e := CharAt(toks[0].text, 0);
            Operators(toks, vars, ro)
              == if IsOperator(e) then Then([], 1, Operands(toks[1..], e, vars, ro)) else Emitted([], 1)
  {
    hide IsOperator, Operands, CharAt;
  }

  /** The bytes of one round in state 0 or 2. */
  function RoundCode(mode: Mode, form: Form): seq<byte> {
    if mode.Later? then FormCode(EDX, form) + EncodeAll(OpCode(mode.e)) else FormCode(EBX, form)
  }

  lemma {:induction false} OperandStep(mode: Mode, goal: ExprCode, bytes: seq<byte>, n: nat, all: seq<Token>,
                                       vars: seq<Variable>, ro: RoData)
    requires mode.Initial? || mode.Later?
    requires OnTrack(goal, bytes, n, mode, all, vars, ro) && Drop(all, n - 1) != []
    ensures var toks := Drop(all, n - 1);
            var form := OperandForm(mode.Initial?, toks, vars, ro);
            if form.NoRegister? then goal == Emitted(bytes, 0)
            else if form.NoVariable? then goal == Crashed
            else OnTrack(goal, bytes + RoundCode(mode, form), n + Width(mode.Initial?, toks[0]), Operator,
                         all, vars, ro)
  {
    hide *;
    OnTrackIs(goal, bytes, n, mode, all, vars, ro);
    var toks := Drop(all, n - 1);
    var form := OperandForm(mode.Initial?, toks, vars, ro);
    var w := Width(mode.Initial?, toks[0]);
    RemainingOperand(mode, toks, vars, ro);
    ThenGivesUp(bytes, n - 1);
    DropDrop(all, n - 1, w);
    ThenThen(bytes, n - 1, RoundCode(mode, form), w, Operators(Drop(toks, w), vars, ro));
    RemainingOperator(Drop(toks, w), vars, ro);
    OnTrackIs(goal, bytes + RoundCode(mode, form), n + w, Operator, all, vars, ro);
  }

  lemma {:induction false} OnTrackIs(goal: ExprCode, bytes: seq<byte>, n: nat, mode: Mode, all: seq<Token>,
                                     vars: seq<Variable>, ro: RoData)
    ensures n >= 1 ==> (OnTrack(goal, bytes, n, mode, all, vars, ro)
                        <==> goal == Then(bytes, n - 1, Remaining(mode, Drop(all, n - 1), vars, ro)))
    ensures OnTrack(goal, bytes, n, mode, all, vars, ro) ==> n >= 1
  {
    hide Then, Remaining, Drop;
  }

  lemma {:induction false} ThenGivesUp(bytes: seq<byte>, n: nat)
    ensures Then(bytes, n, Emitted([], 0)) == Emitted(bytes, 0) && Then(bytes, n, Crashed) == Crashed
    ensures Then(bytes, n, Emitted([], 1)) == Emitted(bytes, n + 1)
  {
    assert bytes + [] == bytes;
  }

  lemma {:induction false} RemainingOperator(toks: seq<Token>, vars: seq<Variable>, ro: RoData)
    ensures Remaining(Operator, toks, vars, ro) == Operators(toks, vars, ro)
    ensures Remaining(Finished, toks, vars, ro) == Emitted([], 1)
    ensures forall e :: Remaining(Later(e), toks, vars, ro) == Operands(toks, e, vars, ro)
  {
    hide Operators, Operands;
  }

  lemma {:induction false} RemainingOperand(mode: Mode, toks: seq<Token>, vars: seq<Variable>, ro: RoData)
    requires (mode.Initial? || mode.Later?) && toks != []
    ensures var form := OperandForm(mode.Initial?, toks, vars, ro);
            var w := Width(mode.Initial?, toks[0]);
            && w >= 1
            && Remaining(mode, toks, vars, ro)
               == if form.NoRegister? then Emitted([], 0)
                  else if form.NoVariable? then Crashed
                  else Then(RoundCode(mode, form), w, Operators(Drop(toks, w), vars, ro))
  {
    if mode.Later? {
      LaterHasVariable(toks, vars, ro);
    }
    hide OperandForm, FormCode, OpCode, EncodeAll, Operators, Drop;
  }

  lemma {:induction false} LaterHasVariable(toks: seq<Token>, vars: seq<Variable>, ro: RoData)
    requires toks != []
    ensures !OperandForm(false, toks, vars, ro).NoVariable?
  {
  }

  /** States 0 and 2: read an operand, load it, and in state 2 apply the operator. */
  method OperandRound(mode: Mode, text: string, vars: seq<Variable>, ro: RoData, out: CodeBuffer, ghost n: nat,
                      cur: Cursor, ghost goal: ExprCode)
    returns (stop: bool, crashed: bool, cur': Cursor, ghost n': nat)
    requires mode.Initial? || mode.Later?
    requires Reader(text, n, cur) && cur.last > 0
    requires OnTrack(goal, out.bytes, n, mode, Lex(text), vars, ro)
    modifies out
    ensures stop ==> goal == if crashed then Crashed else Emitted(out.bytes, 0)
    ensures !stop ==> n' >= n && Reader(text, n', cur')
    ensures !stop ==> OnTrack(goal, out.bytes, n' + 1, Operator, Lex(text), vars, ro)
  {
    ReaderFacts(text, n, cur);
    OperandStep(mode, goal, out.bytes, n, Lex(text), vars, ro);
    var form;
    form, cur' := ReadOperand(mode.Initial?, text, vars, ro, n, cur);
    stop, crashed := form.NoRegister? || form.NoVariable?, form.NoVariable?;
    assert Width(mode.Initial?, cur.tok) >= 1;
    n' := n - 1 + Width(mode.Initial?, cur.tok);
    hide Reader, Lex, FormCode, OpCode, EncodeAll, Width, OperandForm, OnTrack, Drop, Head, After;
    if !stop {
      EmitRound(out, mode, form);
    }
  }

  method EmitRound(out: CodeBuffer, mode: Mode, form: Form)
    modifies out
    ensures out.bytes == old(out.bytes) + RoundCode(mode, form)
  {
    hide FormCode, OpCode, EncodeAll;
    EmitForm(out, if mode.Later? then EDX else EBX, form);
    if mode.Later? {
      EmitOp(out, mode.e);
      Assoc(old(out.bytes), FormCode(EDX, form), EncodeAll(OpCode(mode.e)));
    }
  }

  /** State 1: the operator is remembered, or the loop ends. */
  method OperatorRound(text: string, ghost vars: seq<Variable>, ghost ro: RoData, ghost bytes: seq<byte>, ghost n: nat,
                       cur: Cursor, ghost goal: ExprCode)
    returns (mode: Mode)
    requires Reader(text, n, cur) && cur.last > 0
    requires OnTrack(goal, bytes, n, Operator, Lex(text), vars, ro)
    ensures OnTrack(goal, bytes, if mode.Finished? then n else n + 1, mode, Lex(text), vars, ro)
  {
    ReaderFacts(text, n, cur);
    OperatorStep(goal, bytes, n, Lex(text), vars, ro);
    hide Reader, Lex, OnTrack, Drop, CharAt, IsOperator;
    mode := AfterOperator(CharAt(cur.tok.text, 0));
  }

  /** One round of the loop; `stop` when the code returns from inside it. */
  method Round(mode: Mode, text: string, vars: seq<Variable>, ro: RoData, out: CodeBuffer, ghost n: nat, cur: Cursor,
               ghost goal: ExprCode)
    returns (stop: bool, crashed: bool, mode': Mode, cur': Cursor, ghost n': nat)
    requires !mode.Finished?
    requires Reader(text, n, cur) && cur.last > 0
    requires OnTrack(goal, out.bytes, n, mode, Lex(text), vars, ro)
    modifies out
    ensures stop ==> goal == if crashed then Crashed else Emitted(out.bytes, 0)
    ensures !stop ==> Reader(text, n', cur') && OnTrack(goal, out.bytes, n', mode', Lex(text), vars, ro)
    ensures !stop ==> if mode'.Finished? then n' == n else n' > n
  {
    stop, crashed, cur', n' := false, false, cur, n;
    hide Reader, Lex, OnTrack;
    if mode.Operator? {
      mode' := OperatorRound(text, vars, ro, out.bytes, n, cur, goal);
    } else {
      stop, crashed, cur', n' := OperandRound(mode, text, vars, ro, out, n, cur, goal);
      mode' := Operator;
    }
    if !stop && !mode'.Finished? {
      cur' := ReadNext(text, n', cur');
      n' := n' + 1;
    }
  }

  /** CompilerExpr: `sym` is how far the text was read, 0 after a bad register. */
  method CompilerExpr(text: string, vars: seq<Variable>, ro: RoData, out: CodeBuffer)
    returns (sym: nat, crashed: bool)
    modifies out
    ensures sym <= |text|
    ensures var r := Expr(Lex(text), vars, ro);
            if r.Crashed? then crashed
            else !crashed && out.bytes == old(out.bytes) + r.code && sym == After(text, r.used)
  {
    var cur := Start(text);
    ghost var n, goal := 1, Then(out.bytes, 0, Expr(Lex(text), vars, ro));
    StartOnTrack(out.bytes, Lex(text), vars, ro);
    var mode, stop := Initial, false;
    hide Lex, Next, Expr, OnTrack, Reader, Drop;
    while cur.last > 0 && !mode.Finished?
      invariant Reader(text, n, cur) && OnTrack(goal, out.bytes, n, mode, Lex(text), vars, ro)
      decreases !mode.Finished?, |Lex(text)| - n
    {
      ReaderFacts(text, n, cur);
      stop, crashed, mode, cur, n := Round(mode, text, vars, ro, out, n, cur, goal);
      if stop {
        return 0, crashed;
      }
    }
    ReaderFacts(text, n, cur);
    EndOnTrack(goal, out.bytes, n, mode, Lex(text), vars, ro);
    return cur.sym, false;
  }
}
