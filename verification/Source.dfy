/** The UX source language: programs, their spelling as tokens, which programs the compiler
    serves, and what they mean. */
module Source {
  import opened Wrappers
  import opened Words
  import opened X86
  import opened Tokenizer
  import opened Names
  import opened ExprCompiler
  import opened CompilerSpec

  // ----- programs -----

  datatype Operand =
    | Literal(text: string)
    | Name(name: string)
    | Str(text: string)
    | AddressOf(name: string)
    | InReg(reg: Reg)

  datatype Op = Minus | Plus | Times | Over | Modulo | Both | Xor | Either | Less | Greater | Differs | Equals

  /** Operators apply from left to right. */
  datatype Terms = NoMore | Term(op: Op, operand: Operand, more: Terms)
  datatype Expression = Expression(first: Operand, terms: Terms)

  datatype Target = ToVar(name: string) | ToReg(reg: Reg)

  datatype Block =
    | End
    | Assign(target: Target, value: Expression, next: Block)
    | Declare(bits: nat, name: string, value: Expression, next: Block)
    | If(cond: Expression, body: Block, next: Block)
    | While(cond: Expression, body: Block, next: Block)
    | Call(name: string, args: seq<Expression>, next: Block)
    | Nop(comment: Option<string>, next: Block)

  datatype Param = Param(bits: nat, name: string)
  /** The type in front of a function's name says nothing about the function. */
  datatype Def = Def(bits: nat, name: string, params: seq<Param>, body: Block)

  // ----- spelling -----

  function RegText(r: Reg): string {
    ["eax", "ecx", "edx", "ebx", "esp", "ebp", "esi", "edi"][r]
  }

  function OpChar(op: Op): char {
    match op
    case Minus => '-' case Plus => '+' case Times => '*' case Over => '/' case Modulo => '%'
    case Both => '&' case Xor => '^' case Either => '|' case Less => '<' case Greater => '>'
    case Differs => '!' case Equals => '='
  }

  function Mark(c: char): Token { Token(Special, [c]) }

  function WordTok(text: string): Token { Token(Word, text) }

  function OperandToks(o: Operand): seq<Token> {
    match o
    case Literal(t) => [Token(Number, t)]
    case Name(n) => [WordTok(n)]
    case Str(t) => [Token(Text, t)]
    case AddressOf(n) => [Mark('&'), WordTok(n)]
    case InReg(r) => [WordTok(RegText(r))]
  }

  function TermsToks(ts: Terms): seq<Token> {
    match ts
    case NoMore => []
    case Term(op, o, more) => [Mark(OpChar(op))] + OperandToks(o) + TermsToks(more)
  }

  /** An expression and the token that ends it. */
  function ExprToks(e: Expression, end: Token): seq<Token> {
    OperandToks(e.first) + TermsToks(e.terms) + [end]
  }

  function TypeText(bits: nat): string {
    if bits == 8 then "U8" else if bits == 16 then "U16" else if bits == 32 then "U32" else "U0"
  }

  /** Every argument ends in a comma, and one more token parts it from the next: the compiler
      looks for `)` there and drops what it finds. */
  function ArgsToks(args: seq<Expression>): seq<Token> {
    if args == [] then []
    else if |args| == 1 then ExprToks(args[0], Mark(','))
    else ExprToks(args[0], Mark(',')) + [Mark(',')] + ArgsToks(args[1..])
  }

  function TargetTok(t: Target): Token {
    match t case ToVar(n) => WordTok(n) case ToReg(r) => WordTok(RegText(r))
  }

  /** An empty statement, or a string that stands for a comment. */
  function NopTok(comment: Option<string>): Token {
    match comment case None => Mark(';') case Some(text) => Token(Text, text)
  }

  function Braced(inner: seq<Token>): seq<Token> { [Mark('{')] + inner + [Mark('}')] }

  /** The brace depth behind some tokens, as the skipping loop counts it: a string that is a lone
      brace counts like a brace. None when the block around the tokens is closed before their end. */
  function Walk(toks: seq<Token>, depth: nat): (r: Option<nat>)
    ensures depth >= 1 && r.Some? ==> r.value >= 1
  {
    if toks == [] then Some(depth)
    else if Is(toks[0].text, '{') then Walk(toks[1..], depth + 1)
    else if !Is(toks[0].text, '}') then Walk(toks[1..], depth)
    else if depth <= 1 then None
    else Walk(toks[1..], depth - 1)
  }

  /** Never closes more braces than it opens, and ends level. */
  predicate Balanced(toks: seq<Token>) {
    Walk(toks, 1) == Some(1)
  }

  function Toks(b: Block): seq<Token> {
    match b
    case End => []
    case Assign(t, e, next) => [TargetTok(t)] + ExprToks(e, Mark(';')) + Toks(next)
    case Declare(bits, n, e, next) =>
      [WordTok(TypeText(bits)), WordTok(n), Mark('=')] + ExprToks(e, Mark(';')) + Toks(next)
    case If(e, body, next) => [WordTok("if")] + ExprToks(e, Mark(';')) + Braced(Toks(body)) + Toks(next)
    case While(e, body, next) => [WordTok("while")] + ExprToks(e, Mark(';')) + Braced(Toks(body)) + Toks(next)
    case Call(n, args, next) =>
      (if args == [] then [WordTok(n)] else [WordTok(n), Mark('(')] + ArgsToks(args) + [Mark(')')])
      + [Mark(';')] + Toks(next)
    case Nop(comment, next) => [NopTok(comment)] + Toks(next)
  }

  function ParamToks(ps: seq<Param>): seq<Token> {
    if ps == [] then [] else [WordTok(TypeText(ps[0].bits)), WordTok(ps[0].name)] + ParamToks(ps[1..])
  }

  function DefToks(d: Def): seq<Token> {
    [WordTok(TypeText(d.bits)), WordTok(d.name), Mark('(')] + ParamToks(d.params) + [Mark(')')] + Braced(Toks(d.body))
  }

  // ----- what the compiler serves -----

  predicate ValidBits(bits: nat) { bits == 8 || bits == 16 || bits == 32 }

  /** A function may also have the type of no size. */
  predicate TypeBits(bits: nat) { bits == 0 || ValidBits(bits) }

  /** Texts that a statement or an operand gives another meaning. */
  predicate Reserved(name: string) {
    IsOutside(name) || TypeFromName(name).Some? || name == "if" || name == "include" || name == "while"
    || Register(name).Some? || (|name| <= 1 && (name == "" || IsSpecial(name[0])))
  }

  predicate OperandOk(o: Operand, vars: seq<Variable>) {
    match o
    case Literal(t) => !Reserved(t) && FindVar(vars, t).None?
    case Name(n) => !Reserved(n) && FindVar(vars, n).Some?
    case Str(t) => Register(t).None?
    case AddressOf(n) => !Reserved(n) && FindVar(vars, n).Some?
    case InReg(r) => r == ESI || r == EDI
  }

  /** Behind an operator the marks of `@x`, `&x` and `*x` outrank strings. */
  predicate Unmarked(o: Operand) {
    o.Str? ==> !Is(o.text, '@') && !Is(o.text, '&') && !Is(o.text, '*')
  }

  predicate TermsOk(ts: Terms, vars: seq<Variable>) {
    ts.Term? ==> OperandOk(ts.operand, vars) && Unmarked(ts.operand) && TermsOk(ts.more, vars)
  }

  predicate ExprOk(e: Expression, vars: seq<Variable>) {
    OperandOk(e.first, vars) && TermsOk(e.terms, vars)
  }

  /** A new local keeps the sizes non-increasing. */
  predicate CanDeclare(bits: nat, name: string, vars: seq<Variable>) {
    && ValidBits(bits) && !Reserved(name) && FindVar(vars, name).None? && |vars| < CAPACITY
    && (LastRel(vars) > 0 ==> bits <= vars[|vars| - 1].bits)
  }

  function NewVar(bits: nat, name: string, vars: seq<Variable>): Variable {
    Variable(name, bits, NextRel(vars))
  }

  /** The variables after a block: an `if` leaves the declarations of its block behind. */
  function VarsAfter(b: Block, vars: seq<Variable>): seq<Variable>
    decreases b
  {
    match b
    case End => vars
    case Declare(bits, n, _, next) => VarsAfter(next, vars + [NewVar(bits, n, vars)])
    case If(_, body, next) => VarsAfter(next, VarsAfter(body, vars))
    case _ => VarsAfter(b.next, vars)
  }

  predicate NoDeclarations(b: Block) {
    match b
    case End => true
    case Declare(_, _, _, _) => false
    case If(_, body, next) => NoDeclarations(body) && NoDeclarations(next)
    case While(_, body, next) => NoDeclarations(body) && NoDeclarations(next)
    case _ => NoDeclarations(b.next)
  }

  /** `if` needs an open brace around it: without one its closing brace ends the compilation. */
  predicate NoIf(b: Block) {
    b.End? || (!b.If? && NoIf(b.next))
  }

  predicate BlockOk(b: Block, vars: seq<Variable>, defs: seq<Def>)
    decreases b
  {
    match b
    case End => true
    case Assign(t, e, next) =>
      && ExprOk(e, vars) && BlockOk(next, vars, defs)
      && (match t
          case ToVar(n) => !Reserved(n) && FindVar(vars, n).Some?
          case ToReg(r) => r != ESP && r != EBP)
    case Declare(bits, n, e, next) =>
      var vars' := vars + [NewVar(bits, n, vars)];
      CanDeclare(bits, n, vars) && ExprOk(e, vars') && BlockOk(next, vars', defs)
    case If(e, body, next) => ExprOk(e, vars) && BlockOk(body, vars, defs) && BlockOk(next, VarsAfter(body, vars), defs)
    case While(e, body, next) =>
      && NoDeclarations(body) && Balanced(Toks(body)) && ExprOk(e, vars)
      && BlockOk(body, vars, defs) && BlockOk(next, vars, defs)
    case Call(n, args, next) =>
      && !Reserved(n) && FindVar(vars, n).None? && FindDef(defs, n).Some?
      && |args| == |defs[FindDef(defs, n).value].params|
      && (forall e | e in args :: ExprOk(e, vars))
      && BlockOk(next, vars, defs)
    case Nop(_, next) => BlockOk(next, vars, defs)
  }

  /** The first definition of a name. */
  function FindDef(defs: seq<Def>, name: string): (r: Option<nat>)
    ensures r.Some? ==> r.value < |defs| && defs[r.value].name == name
                        && forall j | 0 <= j < r.value :: defs[j].name != name
    ensures r.None? ==> forall d | d in defs :: d.name != name
  {
    if defs == [] then None
    else if defs[0].name == name then Some(0)
    else match FindDef(defs[1..], name) case None => None case Some(i) => Some(i + 1)
  }

  /** Parameters from the given rel on, four bytes apart whatever their size. */
  function ParamVarsFrom(ps: seq<Param>, rel: int): (vars: seq<Variable>)
    ensures |vars| == |ps|
    ensures forall i | 0 <= i < |ps| :: vars[i] == Variable(ps[i].name, ps[i].bits, rel - 4 * i)
  {
    if ps == [] then [] else [Variable(ps[0].name, ps[0].bits, rel)] + ParamVarsFrom(ps[1..], rel - 4)
  }

  function ParamVars(ps: seq<Param>): seq<Variable> {
    ParamVarsFrom(ps, -8)
  }

  predicate ParamsOk(ps: seq<Param>) {
    && |ps| <= CAPACITY
    && (forall p | p in ps :: ValidBits(p.bits) && !Reserved(p.name))
    && (forall i, j | 0 <= i < j < |ps| :: ps[i].name != ps[j].name)
  }

  /** Every function calls functions defined before it. */
  predicate DefsOk(defs: seq<Def>) {
    forall i | 0 <= i < |defs| ::
      ParamsOk(defs[i].params) && BlockOk(defs[i].body, ParamVars(defs[i].params), defs[..i])
  }

  /** The compiler finds the start and the end of a definition. */
  predicate Delimited(d: Def) {
    TypeBits(d.bits) && Balanced(Toks(d.body))
  }

  // ----- meaning -----

  /** Values of the variables that have been given one, and the two registers that keep theirs. */
  datatype SourceState = SourceState(vals: map<string, u32>, esi: u32, edi: u32)

  /** The two frame registers while a function body runs. */
  datatype Frame = Frame(ebp: u32, esp: u32)

  function OperandValue(o: Operand, vars: seq<Variable>, st: SourceState, ebp: u32, ro: RoData): Option<u32> {
    match o
    case Literal(t) => Some(Atoi(t))
    case Name(n) => if n in st.vals then Some(st.vals[n]) else None
    case Str(t) => Some(RoAddress(ro, t))
    case AddressOf(n) => if FindVar(vars, n).Some? then Some(Sub32(ebp, FindVar(vars, n).value.rel)) else None
    case InReg(r) => Some(if r == ESI then st.esi else st.edi)
  }

  function Truth(b: bool): u32 { if b then 1 else 0 }

  /** 32-bit unsigned arithmetic; division where the signed instruction gives the unsigned result. */
  function Apply(op: Op, a: u32, b: u32): Option<u32> {
    match op
    case Minus => Some(Sub32(a, b))
    case Plus => Some(Add32(a, b))
    case Times => Some(Mul32(a, b))
    case Over => if QuotientServed(a, b) then Some(Div32(a, b)) else None
    case Modulo => if RemainderServed(a, b) then Some(Mod32(a, b)) else None
    case Both => Some(BitAnd(a, b))
    case Xor => Some(BitXor(a, b))
    case Either => Some(BitOr(a, b))
    case Less => Some(Truth(a < b))
    case Greater => Some(Truth(a > b))
    case Differs => Some(Truth(a != b))
    case Equals => Some(Truth(a == b))
  }

  /** Divisors with the top bit set count as negative; their magnitude is 2^32 - b. */
  predicate QuotientServed(a: u32, b: u32) {
    b >= 1 && if b < 0x8000_0000 then Div32(a, b) < 0x8000_0000 else a < 0x1_0000_0000 - b
  }

  /** The remainder may be right where the quotient is not. */
  predicate RemainderServed(a: u32, b: u32) {
    b >= 1 &&
    if b < 0x8000_0000 then Div32(a, b) < 0x8000_0000
    else
      var m: int := 0x1_0000_0000 - b;
      a < m || (a >= b && b % m == 0 && m >= 2)
  }

  function Fold(acc: u32, ts: Terms, vars: seq<Variable>, st: SourceState, ebp: u32, ro: RoData): Option<u32>
    decreases ts
  {
    match ts
    case NoMore => Some(acc)
    case Term(op, o, more) =>
      match OperandValue(o, vars, st, ebp, ro)
      case None => None
      case Some(b) =>
        match Apply(op, acc, b)
        case None => None
        case Some(r) => Fold(r, more, vars, st, ebp, ro)
  }

  function Value(e: Expression, vars: seq<Variable>, st: SourceState, ebp: u32, ro: RoData): Option<u32> {
    match OperandValue(e.first, vars, st, ebp, ro)
    case None => None
    case Some(a) => Fold(a, e.terms, vars, st, ebp, ro)
  }

  /** The operators in numbers: sums, differences and products in 32 bits, and comparisons. */
  lemma {:induction false} Arithmetic(a: u32, b: u32)
    ensures Apply(Minus, a, b) == Some((a - b) % 0x1_0000_0000) && Apply(Plus, a, b) == Some((a + b) % 0x1_0000_0000)
    ensures Apply(Times, a, b) == Some((a * b) % 0x1_0000_0000)
    ensures Apply(Less, a, b) == Some(if a < b then 1 else 0) && Apply(Greater, a, b) == Some(if a > b then 1 else 0)
    ensures Apply(Differs, a, b) == Some(if a != b then 1 else 0)
    ensures Apply(Equals, a, b) == Some(if a == b then 1 else 0)
  {
    hide BitAnd, BitOr, BitXor, Div32, Mod32, QuotientServed, RemainderServed;
  }

  /** The bits of both, of either, and of one but not the other. */
  lemma {:induction false} Bitwise(a: u32, b: u32)
    ensures Apply(Both, a, b) == Some(((a as bv32) & (b as bv32)) as int)
    ensures Apply(Either, a, b) == Some(((a as bv32) | (b as bv32)) as int)
    ensures Apply(Op.Xor, a, b) == Some(((a as bv32) ^ (b as bv32)) as int)
  {
    hide Add32, Sub32, Mul32, Div32, Mod32, QuotientServed, RemainderServed;
  }

  /** Quotient and remainder, where the divisor and the quotient have no top bit. */
  lemma {:induction false} Division(a: u32, b: u32)
    ensures 1 <= b < 0x8000_0000 && a / b < 0x8000_0000 ==> Apply(Over, a, b) == Some(a / b)
    ensures 1 <= b < 0x8000_0000 && a / b < 0x8000_0000 ==> Apply(Modulo, a, b) == Some(a % b)
    ensures b == 0 ==> Apply(Over, a, b) == None && Apply(Modulo, a, b) == None
  {
    hide BitAnd, BitOr, BitXor, Add32, Sub32, Mul32;
  }

  /** The marks of the operators, the words of the types, and the words of the registers by number. */
  lemma {:induction false} Spellings()
    ensures OpChar(Minus) == '-' && OpChar(Plus) == '+' && OpChar(Times) == '*' && OpChar(Over) == '/'
    ensures OpChar(Modulo) == '%' && OpChar(Both) == '&' && OpChar(Op.Xor) == '^' && OpChar(Either) == '|'
    ensures OpChar(Less) == '<' && OpChar(Greater) == '>' && OpChar(Differs) == '!' && OpChar(Equals) == '='
    ensures TypeText(0) == "U0" && TypeText(8) == "U8" && TypeText(16) == "U16" && TypeText(32) == "U32"
    ensures RegText(0) == "eax" && RegText(1) == "ecx" && RegText(2) == "edx" && RegText(3) == "ebx"
    ensures RegText(4) == "esp" && RegText(5) == "ebp" && RegText(6) == "esi" && RegText(7) == "edi"
  {
  }

  /** A variable keeps as many low bits as it has, and the bits of each size. */
  lemma {:induction false} CutValues(v: u32)
    ensures Cut(v, 8) == v % 0x100 && Cut(v, 16) == v % 0x1_0000 && Cut(v, 32) == v
  {
    Pow256Values();
    hide Pow256;
  }

  /** The names that mean something else. */
  lemma {:induction false} ReservedWords(name: string)
    ensures Reserved(name)
       <==> || name in ["Uf", "Dump", "INT", "IN", "OUT", "if", "include", "while"]
            || name in ["eax", "ecx", "edx", "ebx", "esp", "ebp", "esi", "edi"]
            || TypeFromName(name).Some? || name == "" || (|name| == 1 && IsSpecial(name[0]))
  {
    RegisterNames(name);
    hide TypeFromName, Register, IsSpecial;
  }

  datatype Meaning = Ended(st: SourceState) | Unfinished | Undefined

  function SetVar(st: SourceState, vars: seq<Variable>, name: string, v: u32): SourceState
    requires FindVar(vars, name).Some? && ValidBits(FindVar(vars, name).value.bits)
  {
    st.(vals := st.vals[name := Cut(v, FindVar(vars, name).value.bits)])
  }

  /** What a variable of the given size keeps of a value. */
  function Cut(v: u32, bits: nat): u32
    requires ValidBits(bits)
  {
    Pow256Values();
    v % Pow256(bits / 8)
  }

  /** Writing to a scratch register has no lasting effect. */
  function SetTarget(st: SourceState, vars: seq<Variable>, t: Target, v: u32): Option<SourceState> {
    match t
    case ToVar(n) =>
      if FindVar(vars, n).Some? && ValidBits(FindVar(vars, n).value.bits) then Some(SetVar(st, vars, n, v)) else None
    case ToReg(r) => Some(if r == ESI then st.(esi := v) else if r == EDI then st.(edi := v) else st)
  }

  function ArgValues(args: seq<Expression>, vars: seq<Variable>, st: SourceState, ebp: u32, ro: RoData)
    : Option<seq<u32>> {
    if args == [] then Some([])
    else
      match (Value(args[0], vars, st, ebp, ro), ArgValues(args[1..], vars, st, ebp, ro))
      case (Some(v), Some(vs)) => Some([v] + vs)
      case _ => None
  }

  /** The first parameter reads the last argument, cut to its size. */
  function Bound(ps: seq<Param>, values: seq<u32>): map<string, u32>
    requires |ps| == |values| && forall p | p in ps :: ValidBits(p.bits)
  {
    if ps == [] then map[]
    else
      var last := |values| - 1;
      Bound(ps[1..], values[..last])[ps[0].name := Cut(values[last], ps[0].bits)]
  }

  /** The callee's frame: k arguments, the return address and the saved EBP lie above its EBP. */
  function CalleeFrame(esp: u32, d: Def): Frame {
    var ebp := Sub32(esp, 4 * |d.params| + 8);
    Frame(ebp, Sub32(ebp, FrameSize(VarsAfter(d.body, ParamVars(d.params)))))
  }

  /** The meaning of a block; every round of a loop costs one unit of fuel. */
  function Eval(b: Block, vars: seq<Variable>, st: SourceState, frame: Frame, defs: seq<Def>, ro: RoData, fuel: nat)
    : Meaning
    requires DefsOk(defs)
    decreases |defs|, fuel, b
  {
    match b
    case End => Ended(st)
    case Assign(t, e, next) =>
      (match Value(e, vars, st, frame.ebp, ro)
       case None => Undefined
       case Some(v) =>
         match SetTarget(st, vars, t, v)
         case None => Undefined
         case Some(st') => Eval(next, vars, st', frame, defs, ro, fuel))
    case Declare(bits, n, e, next) =>
      (var vars' := vars + [NewVar(bits, n, vars)];
       match Value(e, vars', st, frame.ebp, ro)
       case None => Undefined
       case Some(v) =>
         match SetTarget(st, vars', ToVar(n), v)
         case None => Undefined
         case Some(st') => Eval(next, vars', st', frame, defs, ro, fuel))
    case If(e, body, next) =>
      (match Value(e, vars, st, frame.ebp, ro)
       case None => Undefined
       case Some(v) =>
         var r := if v == 0 then Ended(st) else Eval(body, vars, st, frame, defs, ro, fuel);
         if r.Ended? then Eval(next, VarsAfter(body, vars), r.st, frame, defs, ro, fuel) else r)
    case While(e, body, next) =>
      (match Value(e, vars, st, frame.ebp, ro)
       case None => Undefined
       case Some(v) =>
         if v == 0 then Eval(next, vars, st, frame, defs, ro, fuel)
         else if fuel == 0 then Unfinished
         else
           var r := Eval(body, vars, st, frame, defs, ro, fuel - 1);
           if r.Ended? then Eval(b, vars, r.st, frame, defs, ro, fuel - 1) else r)
    case Call(n, args, next) =>
      (match (FindDef(defs, n), ArgValues(args, vars, st, frame.ebp, ro))
       case (Some(i), Some(values)) =>
         var r := EvalCall(defs, i, values, st.esi, st.edi, frame.esp, ro, fuel);
         if r.Ended? then Eval(next, vars, st.(esi := r.st.esi, edi := r.st.edi), frame, defs, ro, fuel) else r
       case _ => Undefined)
    case Nop(_, next) => Eval(next, vars, st, frame, defs, ro, fuel)
  }

  /** A call of function i from a frame with the given ESP. */
  function EvalCall(defs: seq<Def>, i: nat, values: seq<u32>, esi: u32, edi: u32, esp: u32, ro: RoData, fuel: nat)
    : Meaning
    requires DefsOk(defs) && i < |defs|
    decreases i, fuel + 1
  {
    var d := defs[i];
    if |values| != |d.params| then Undefined
    else
      assert DefsOk(defs[..i]) by { DefsOkPrefix(defs, i); }
      Eval(d.body, ParamVars(d.params), SourceState(Bound(d.params, values), esi, edi), CalleeFrame(esp, d),
           defs[..i], ro, fuel)
  }

  lemma {:induction false} DefsOkPrefix(defs: seq<Def>, i: nat)
    requires DefsOk(defs) && i <= |defs|
    ensures DefsOk(defs[..i])
  {
    forall j | 0 <= j < i
      ensures ParamsOk(defs[..i][j].params)
      ensures BlockOk(defs[..i][j].body, ParamVars(defs[..i][j].params), defs[..i][..j])
    {
      assert defs[..i][..j] == defs[..j];
    }
  }
}
