/** What becomes of a call in the language's own spelling: every argument ends in a comma, and
    nothing else parts it from the next. Only calls of one argument survive. */
module CallSpelling {
  import opened Sequences
  import opened Words
  import opened X86
  import opened Emitter
  import opened Tokenizer
  import opened Names
  import opened ExprCompiler
  import opened CompilerSpec
  import opened Source
  import opened ExprLayout
  import opened BlockLayout

  function NaturalToks(args: seq<Expression>): seq<Token> {
    if args == [] then [] else ExprToks(args[0], Mark(',')) + NaturalToks(args[1..])
  }

  /** What follows the arguments of a call statement. */
  function CallTail(rest: seq<Token>): seq<Token> { [Mark(')'), Mark(';')] + rest }

  // ----- the price of code, in tokens -----

  /** How many tokens an instruction of an expression stands for: an operator and its operand are
      two, the mark of `&x` is one, the first operand and the terminator of an argument two. */
  function Weight(i: Instr): nat {
    if i.Push? || i.IMul? || i.IDiv? || i.SetCC? || (i.Alu? && i.dst != i.src) then 2
    else if i.AluImm? && i.iop == AddI then 1
    else 0
  }

  function WeightAll(ins: seq<Instr>): nat {
    if ins == [] then 0 else Weight(ins[0]) + WeightAll(ins[1..])
  }

  /** The same for bytes; a misread load ends the count. */
  function Price(b: seq<byte>): nat
    decreases |b|
  {
    match Decode(b)
    case Bad => 0
    case Got(i, n) => if 1 <= n <= |b| && !i.LoadAbs? then Weight(i) + Price(b[n..]) else 0
  }

  predicate Priced(ins: seq<Instr>) {
    forall i | i in ins :: Encodable(i) && !i.LoadAbs?
  }

  lemma {:induction false} PriceOne(i: Instr, more: seq<byte>)
    requires Encodable(i) && !i.LoadAbs?
    ensures Price(Encode(i) + more) == Weight(i) + Price(more)
  {
    DecodeEncode(i, more);
    hide Decode, Encode, Weight;
    assert (Encode(i) + more)[|Encode(i)|..] == more;
  }

  lemma {:induction false} PriceAll(ins: seq<Instr>, more: seq<byte>)
    requires Priced(ins)
    ensures Price(EncodeAll(ins) + more) == WeightAll(ins) + Price(more)
    decreases |ins|
  {
    hide Price, Encode, Weight;
    if ins == [] {
      assert [] + more == more;
    } else {
      Assoc(Encode(ins[0]), EncodeAll(ins[1..]), more);
      PriceOne(ins[0], EncodeAll(ins[1..]) + more);
      PriceAll(ins[1..], more);
    }
  }

  lemma {:induction false} WeightConcat(a: seq<Instr>, b: seq<Instr>)
    ensures WeightAll(a + b) == WeightAll(a) + WeightAll(b)
    ensures Priced(a) && Priced(b) ==> Priced(a + b)
    decreases |a|
  {
    if a == [] {
      assert a + b == b;
    } else {
      assert (a + b)[0] == a[0] && (a + b)[1..] == a[1..] + b;
      WeightConcat(a[1..], b);
    }
  }

  lemma {:induction false} WeightTwo(i: Instr, j: Instr)
    ensures WeightAll([i]) == Weight(i) && WeightAll([i, j]) == Weight(i) + Weight(j)
  {
    assert [i][1..] == [] && [i, j][1..] == [j] && [j][1..] == [];
  }

  // ----- served expressions cost exactly their tokens -----

  lemma {:induction false} LoadWeight(dst: Reg, base: Reg, rel: int, size: nat)
    ensures WeightAll(LoadSized(dst, base, rel, size)) == 0 && Priced(LoadSized(dst, base, rel, size))
  {
    if size == 4 || size == 1 || size == 2 {
      WeightTwo(Instr.Load(size, dst, base, Wrap(rel)), Ret);
      WeightTwo(Alu(AluOp.Xor, dst, dst), Instr.Load(size, dst, base, Wrap(rel)));
    }
  }

  lemma {:induction false} AddressWeight(dst: Reg, v: Variable)
    ensures WeightAll(ExprCompiler.AddressOf(dst, v)) == 1 && Priced(ExprCompiler.AddressOf(dst, v))
  {
    WeightTwo(MovRR(dst, EBP), AluImm(AddI, dst, Wrap(-v.rel)));
  }

  lemma {:induction false} OperandWeight(dst: Reg, o: Operand, vars: seq<Variable>, ro: RoData)
    requires OperandOk(o, vars)
    ensures WeightAll(OperandInstrs(dst, o, vars, ro)) + 1 == |OperandToks(o)|
    ensures Priced(OperandInstrs(dst, o, vars, ro))
  {
    hide WeightAll, Register, FindVar, LoadSized, ExprCompiler.AddressOf, Atoi, Reserved, RegText;
    match o {
      case Literal(t) => WeightTwo(MovRI(dst, Atoi(t)), Ret);
      case Name(n) => LoadWeight(dst, EBP, -FindVar(vars, n).value.rel, FindVar(vars, n).value.bits / 8);
      case Str(t) => WeightTwo(MovRI(dst, RoAddress(ro, t)), Ret);
      case AddressOf(n) => AddressWeight(dst, FindVar(vars, n).value);
      case InReg(r) => WeightTwo(MovRR(dst, r), Ret);
    }
  }

  lemma {:induction false} OpWeight(e: char)
    ensures WeightAll(OpCode(e)) <= 2 && Priced(OpCode(e))
    ensures IsOperator(e) ==> WeightAll(OpCode(e)) == 2
  {
    if e == '/' || e == '%' {
      DivideWeight(if e == '/' then EAX else EDX);
    } else if e == '<' || e == '>' || e == '!' || e == '=' {
      SetIfWeight(EBX, EDX, if e == '!' then NotEqual else if e == '=' then Equal else Below);
      SetIfWeight(EDX, EBX, Below);
    } else {
      SimpleOpWeight(e);
    }
  }

  lemma {:induction false} DivideWeight(result: Reg)
    ensures WeightAll(Divide(result)) == 2 && Priced(Divide(result))
  {
    var a, b, c := [MovRR(EAX, EBX), MovRR(ECX, EDX)], [Alu(AluOp.Xor, EDX, EDX), IDiv(ECX)], [MovRR(EBX, result)];
    assert Divide(result) == a + b + c;
    hide WeightAll, Divide, Encode;
    WeightTwo(a[0], a[1]);
    WeightTwo(b[0], b[1]);
    WeightTwo(c[0], Ret);
    WeightConcat(a, b);
    WeightConcat(a + b, c);
  }

  lemma {:induction false} SetIfWeight(left: Reg, right: Reg, c: Cond)
    ensures WeightAll(SetIf(left, right, c)) == 2 && Priced(SetIf(left, right, c))
  {
    var a, b := [CmpRR(left, right), MovRI(EBX, 0)], [SetCC(c, EBX)];
    assert SetIf(left, right, c) == a + b;
    WeightTwo(a[0], a[1]);
    WeightTwo(b[0], Ret);
    WeightConcat(a, b);
  }

  lemma {:induction false} SimpleOpWeight(e: char)
    requires e != '/' && e != '%' && e != '<' && e != '>' && e != '!' && e != '='
    ensures WeightAll(OpCode(e)) == (if IsOperator(e) then 2 else 0) && Priced(OpCode(e))
  {
    OperatorChars(e);
    hide IsOperator;
    if |OpCode(e)| == 1 {
      WeightTwo(OpCode(e)[0], Ret);
      assert OpCode(e) == [OpCode(e)[0]];
    }
  }

  lemma {:induction false} TermsWeight(ts: Terms, vars: seq<Variable>, ro: RoData)
    requires TermsOk(ts, vars)
    ensures WeightAll(TermsInstrs(ts, vars, ro)) == |TermsToks(ts)| && Priced(TermsInstrs(ts, vars, ro))
    decreases ts
  {
    match ts {
      case NoMore =>
      case Term(op, o, more) =>
        OperandWeight(EDX, o, vars, ro);
        OpCharIsOperator(op);
        OpWeight(OpChar(op));
        TermsWeight(more, vars, ro);
        var a, b, c := OperandInstrs(EDX, o, vars, ro), OpCode(OpChar(op)), TermsInstrs(more, vars, ro);
        assert TermsInstrs(ts, vars, ro) == a + b + c;
        assert |TermsToks(ts)| == 1 + |OperandToks(o)| + |TermsToks(more)|;
        hide WeightAll, Priced, OperandInstrs, TermsInstrs, OpCode, OperandToks, TermsToks, OpChar;
        WeightConcat(a, b);
        WeightConcat(a + b, c);
    }
  }

  /** An argument costs its tokens and its comma. */
  lemma {:induction false} ArgPrice(e: Expression, vars: seq<Variable>, ro: RoData, more: seq<byte>)
    requires ExprOk(e, vars)
    ensures Price(EncodeAll(ExprInstrs(e, vars, ro)) + Encode(Push(EBX)) + more)
         == |ExprToks(e, Mark(','))| + Price(more)
  {
    OperandWeight(EBX, e.first, vars, ro);
    TermsWeight(e.terms, vars, ro);
    var a, b := OperandInstrs(EBX, e.first, vars, ro), TermsInstrs(e.terms, vars, ro);
    assert |ExprToks(e, Mark(','))| == |OperandToks(e.first)| + |TermsToks(e.terms)| + 1;
    assert ExprInstrs(e, vars, ro) == a + b && Weight(Push(EBX)) == 2;
    hide *;
    WeightConcat(a, b);
    Assoc(EncodeAll(a + b), Encode(Push(EBX)), more);
    PriceAll(a + b, Encode(Push(EBX)) + more);
    PushIsPriced();
    PriceOne(Push(EBX), more);
  }

  lemma {:induction false} PushIsPriced()
    ensures Encodable(Push(EBX)) && !Push(EBX).LoadAbs? && Weight(Push(EBX)) == 2
  {
  }

  lemma {:induction false} ArgsPrice(args: seq<Expression>, vars: seq<Variable>, ro: RoData, more: seq<byte>)
    requires forall e | e in args :: ExprOk(e, vars)
    ensures Price(ArgsCode(args, vars, ro) + more) == |NaturalToks(args)| + Price(more)
    decreases |args|
  {
    hide Price, EncodeAll, Encode, ExprInstrs, ExprOk, ExprToks;
    if args == [] {
      assert [] + more == more;
    } else {
      var one := EncodeAll(ExprInstrs(args[0], vars, ro)) + Encode(Push(EBX));
      Assoc(one, ArgsCode(args[1..], vars, ro), more);
      ArgPrice(args[0], vars, ro, ArgsCode(args[1..], vars, ro) + more);
      ArgsPrice(args[1..], vars, ro, more);
    }
  }

  // ----- whatever the compiler reads costs at least its code's price -----

  /** A form that takes the address of a variable, or reads through one, has a mark. */
  lemma {:induction false} FormMarked(first: bool, toks: seq<Token>, vars: seq<Variable>, ro: RoData)
    requires toks != []
    ensures Width(first, toks[0]) >= 1
    ensures OperandForm(first, toks, vars, ro).FromAddress? ==> Width(first, toks[0]) == 2
  {
    hide Register, FindVar, Atoi;
  }

  lemma {:induction false} FormPrice(dst: Reg, form: Form, more: seq<byte>)
    ensures Price(FormCode(dst, form) + more) <= (if form.FromAddress? then 1 else 0) + Price(more)
  {
    hide Price, EncodeAll, Encode, LoadSized, WeightAll, ExprCompiler.AddressOf;
    match form {
      case FromReg(r) => PriceOne(MovRR(dst, r), more);
      case FromConst(v) => PriceOne(MovRI(dst, v), more);
      case FromPointer(r) => PointerPrice(dst, r, more);
      case FromAddress(v) =>
        AddressWeight(dst, v);
        PriceAll(ExprCompiler.AddressOf(dst, v), more);
      case FromVar(v) =>
        LoadWeight(dst, EBP, -v.rel, v.bits / 8);
        PriceAll(LoadVar(dst, v), more);
      case FromTarget(v) => TargetPrice(dst, v, more);
      case Junk => JunkPrice(more);
      case Nought => assert [] + more == more;
      case NoRegister => assert [] + more == more;
      case NoVariable => assert [] + more == more;
    }
  }

  lemma {:induction false} PointerPrice(dst: Reg, r: Reg, more: seq<byte>)
    ensures Price(Encode(LoadInd(dst, r)) + more) <= Price(more)
  {
    if r == EBP {
      LoadIndEbpIsMisread(dst, more);
    } else {
      PriceOne(LoadInd(dst, r), more);
    }
    hide Decode, Encode;
  }

  lemma {:induction false} TargetPrice(dst: Reg, v: Variable, more: seq<byte>)
    ensures Price(EncodeAll(LoadSized(EDX, EBP, -v.rel, 4)) + EncodeAll(LoadSized(dst, EDX, 0, 1)) + more)
         == Price(more)
  {
    hide *;
    var a, b := LoadSized(EDX, EBP, -v.rel, 4), LoadSized(dst, EDX, 0, 1);
    LoadWeight(EDX, EBP, -v.rel, 4);
    LoadWeight(dst, EDX, 0, 1);
    Assoc(EncodeAll(a), EncodeAll(b), more);
    PriceAll(a, EncodeAll(b) + more);
    PriceAll(b, more);
  }

  lemma {:induction false} JunkPrice(more: seq<byte>)
    ensures Price([0x8B, 0xFF] + more) == 0
  {
    var b := [0x8B, 0xFF] + more;
    assert b[0] == 0x8B && b[1] == 0xFF && X86.Mode(b[1]) == 3;
    assert Decode(b).Bad?;
  }

  lemma {:induction false} OpPrice(e: char, more: seq<byte>)
    ensures Price(EncodeAll(OpCode(e)) + more) <= 2 + Price(more)
  {
    OpWeight(e);
    hide *;
    PriceAll(OpCode(e), more);
  }

  lemma {:induction false} OperatorsPrice(toks: seq<Token>, vars: seq<Variable>, ro: RoData, more: seq<byte>)
    ensures var r := Operators(toks, vars, ro);
            r.Emitted? && r.used > 0 ==> Price(r.code + more) <= r.used - 1 + Price(more)
    decreases |toks|, 1
  {
    hide Price, IsOperator, CharAt, Operands;
    assert [] + more == more;
    if toks != [] && IsOperator(CharAt(toks[0].text, 0)) {
      var r := Operands(toks[1..], CharAt(toks[0].text, 0), vars, ro);
      OperandsPrice(toks[1..], CharAt(toks[0].text, 0), vars, ro, more);
      if r.Emitted? {
        assert [] + r.code == r.code;
      }
    }
  }

  lemma {:induction false} OperandsPrice(toks: seq<Token>, e: char, vars: seq<Variable>, ro: RoData, more: seq<byte>)
    ensures var r := Operands(toks, e, vars, ro);
            r.Emitted? && r.used > 0 ==> Price(r.code + more) <= r.used + Price(more)
    decreases |toks|, 0
  {
    if toks == [] {
      assert [] + more == more;
    } else {
      var form := OperandForm(false, toks, vars, ro);
      var n := Width(false, toks[0]);
      FormMarked(false, toks, vars, ro);
      OperandsCases(toks, e, vars, ro);
      hide *;
      if !form.NoRegister? {
        var next := Operators(Drop(toks, n), vars, ro);
        DropLess(toks, n);
        OperatorsPrice(Drop(toks, n), vars, ro, more);
        if next.Emitted? {
          ThreeParts(FormCode(EDX, form), EncodeAll(OpCode(e)), next.code, more);
          FormPrice(EDX, form, EncodeAll(OpCode(e)) + (next.code + more));
          OpPrice(e, next.code + more);
        }
      }
    }
  }

  lemma {:induction false} OperandsCases(toks: seq<Token>, e: char, vars: seq<Variable>, ro: RoData)
    requires toks != []
    ensures var form := OperandForm(false, toks, vars, ro);
            var n := Width(false, toks[0]);
            var next := Operators(Drop(toks, n), vars, ro);
            Operands(toks, e, vars, ro)
            == if form.NoRegister? then Emitted([], 0)
               else if next.Crashed? then Crashed
               else Emitted(FormCode(EDX, form) + EncodeAll(OpCode(e)) + next.code,
                            if next.used == 0 then 0 else n + next.used)
  {
    hide OperandForm, FormCode, EncodeAll, OpCode, Operators, Drop, Width;
  }

  lemma {:induction false} ExprCases(toks: seq<Token>, vars: seq<Variable>, ro: RoData)
    requires toks != []
    ensures var form := OperandForm(true, toks, vars, ro);
            var n := Width(true, toks[0]);
            var next := Operators(Drop(toks, n), vars, ro);
            Expr(toks, vars, ro)
            == if form.NoRegister? then Emitted([], 0)
               else if form.NoVariable? || next.Crashed? then Crashed
               else Emitted(FormCode(EBX, form) + next.code, if next.used == 0 then 0 else n + next.used)
  {
    hide OperandForm, FormCode, EncodeAll, Operators, Drop, Width;
  }

  lemma {:induction false} DropLess(toks: seq<Token>, n: nat)
    requires toks != [] && n >= 1
    ensures |Drop(toks, n)| < |toks|
  {
  }

  lemma {:induction false} ThreeParts(a: seq<byte>, b: seq<byte>, c: seq<byte>, d: seq<byte>)
    ensures a + b + c + d == a + (b + (c + d))
  {
    Assoc(a + b, c, d);
    Assoc(a, b, c + d);
  }

  /** One argument of any text, with its PUSH. */
  lemma {:induction false} ExprPrice(toks: seq<Token>, vars: seq<Variable>, ro: RoData, more: seq<byte>)
    requires toks != []
    ensures var r := Expr(toks, vars, ro);
            r.Emitted? && r.used > 0 ==> r.used >= 2 && Price(r.code + Encode(Push(EBX)) + more) <= r.used + Price(more)
  {
    hide *;
    var form := OperandForm(true, toks, vars, ro);
    var n := Width(true, toks[0]);
    FormMarked(true, toks, vars, ro);
    ExprCases(toks, vars, ro);
    var next := Operators(Drop(toks, n), vars, ro);
    var push := Encode(Push(EBX));
    OperatorsPrice(Drop(toks, n), vars, ro, push + more);
    PushIsPriced();
    PriceOne(Push(EBX), more);
    if next.Emitted? {
      ThreeParts(FormCode(EBX, form), next.code, push, more);
      FormPrice(EBX, form, next.code + (push + more));
    }
  }

  // ----- argument lists -----

  /** What follows the call does not start with an operator; no served statement does, except for a
      comment. */
  predicate NoOperatorAhead(rest: seq<Token>) {
    rest == [] || !IsOperator(CharAt(rest[0].text, 0))
  }

  /** A comma, `)` or `;` is read as a number, and never as a bad register. */
  lemma {:induction false} MarkRead(c: char, rest: seq<Token>, vars: seq<Variable>, ro: RoData)
    requires (c == ')' || c == ';' || c == ',') && NoOperatorAhead(rest)
    ensures var r := Expr([Mark(c)] + rest, vars, ro); r.Emitted? && r.used == 2
  {
    var toks := [Mark(c)] + rest;
    assert toks[0] == Mark(c) && Drop(toks, 1) == rest;
    assert Register([c]).None? && Width(true, toks[0]) == 1;
    var form := OperandForm(true, toks, vars, ro);
    assert !form.NoRegister? && !form.NoVariable? by { hide FindVar, Atoi, Register; }
    if rest != [] {
      OperatorsOf(rest, vars, ro);
    }
    hide OperandForm, FormCode, Operands, IsOperator, CharAt;
    ExprCases(toks, vars, ro);
  }

  /** Reading an argument list takes at least one token behind each argument. */
  lemma {:induction false} ArgumentsConsume(toks: seq<Token>, vars: seq<Variable>, env: Env)
    ensures var e, r := Expr(toks, vars, env.ro), Arguments(toks, vars, env);
            r.Args? ==> e.Emitted? && e.used < |toks| && |r.rest| < |toks| - e.used
    decreases |toks|
  {
    hide *;
    ArgumentsOf(toks, vars, env);
    var e := Expr(toks, vars, env.ro);
    if e.Emitted? {
      DropLength(toks, e.used);
      var after := Drop(toks, e.used);
      if after != [] {
        DropLength(after[1..], 1);
        if e.used > 0 {
          ArgumentsConsume(after[1..], vars, env);
          MoreArgsOf(e.code + Encode(Push(EBX)), 1, Arguments(after[1..], vars, env));
        }
      }
    }
  }

  lemma {:induction false} DropLength(toks: seq<Token>, n: nat)
    ensures |Drop(toks, n)| == if n <= |toks| then |toks| - n else 0
    ensures n <= |toks| ==> Drop(toks, n) == toks[n..]
  {
  }

  lemma {:induction false} TailShape(pre: seq<Token>, rest: seq<Token>)
    ensures var toks := pre + CallTail(rest);
            && |toks| == |pre| + 2 + |rest| && toks[|pre|..] == [Mark(')')] + ([Mark(';')] + rest)
            && toks[|pre| + 1..] == [Mark(';')] + rest
            && (rest == [] ==> toks[|toks| - 1] == Mark(';'))
  {
  }

  /** From the call's parenthesis on it is too late to end there. */
  lemma {:induction false} TooLate(pre: seq<Token>, rest: seq<Token>, k: nat, vars: seq<Variable>, env: Env)
    requires NoOperatorAhead(rest) && |pre| <= k <= |pre + CallTail(rest)|
    ensures var r := Arguments((pre + CallTail(rest))[k..], vars, env); r.Args? ==> r.rest != rest
  {
    hide *;
    TailShape(pre, rest);
    var toks := (pre + CallTail(rest))[k..];
    ArgumentsConsume(toks, vars, env);
    if k == |pre| {
      NoOperatorMark(';', rest);
      MarkRead(')', [Mark(';')] + rest, vars, env.ro);
    } else if k == |pre| + 1 {
      MarkRead(';', rest, vars, env.ro);
    }
  }

  lemma {:induction false} NoOperatorMark(c: char, rest: seq<Token>)
    requires c == ')' || c == ';'
    ensures NoOperatorAhead([Mark(c)] + rest)
  {
    assert ([Mark(c)] + rest)[0] == Mark(c);
  }

  lemma {:induction false} NothingMore(code: seq<byte>)
    ensures code + [] == code && Price([]) == 0
  {
  }

  lemma {:induction false} SuffixConcat(a: seq<Token>, b: seq<Token>, n: nat)
    requires n <= |a|
    ensures (a + b)[n..] == a[n..] + b
  {
  }

  /** An argument list that ends exactly at the call's own parenthesis has paid a token for every
      token its code is worth, and one more for every further argument. */
  lemma {:induction false} ArgumentsPrice(pre: seq<Token>, rest: seq<Token>, vars: seq<Variable>, env: Env)
    requires NoOperatorAhead(rest) && |pre| > 0
    ensures var r := Arguments(pre + CallTail(rest), vars, env);
            r.Args? && r.rest == rest ==> Price(r.code) + (if r.count > 1 then 1 else 0) <= |pre|
    decreases |pre|
  {
    hide *;
    var toks := pre + CallTail(rest);
    var r := Arguments(toks, vars, env);
    var e := Expr(toks, vars, env.ro);
    ArgumentsOf(toks, vars, env);
    TailShape(pre, rest);
    ParenMarks();
    if r.Args? && r.rest == rest {
      DropLength(toks, e.used);
      var after := Drop(toks, e.used);
      DropLength(after[1..], 1);
      if e.used > 0 {
        ExprPrice(toks, vars, env.ro, []);
        NothingMore(e.code + Encode(Push(EBX)));
        if after[0].text != ")" {
          var later := Arguments(after[1..], vars, env);
          MoreArgsOf(e.code + Encode(Push(EBX)), 1, later);
          assert after[1..] == toks[e.used + 1..];
          if e.used + 1 >= |pre| {
            TooLate(pre, rest, e.used + 1, vars, env);
            assert false;
          }
          var pre' := pre[e.used + 1..];
          SuffixConcat(pre, CallTail(rest), e.used + 1);
          ArgumentsPrice(pre', rest, vars, env);
          ExprPrice(toks, vars, env.ro, later.code);
        }
      }
    }
  }

  // ----- calls in natural spelling -----

  lemma {:induction false} NaturalParts(args: seq<Expression>)
    requires args != []
    ensures NaturalToks(args) == ExprToks(args[0], Mark(',')) + NaturalToks(args[1..])
    ensures |NaturalToks(args)| > 0 && (|args| == 1 ==> NaturalToks(args) == ArgsToks(args))
  {
    if |args| == 1 {
      assert args[1..] == [];
      assert ExprToks(args[0], Mark(',')) + [] == ExprToks(args[0], Mark(','));
    }
  }

  /** f(); reads its own parenthesis as an argument, and the list goes on behind the semicolon. */
  lemma {:induction false} EmptyCall(rest: seq<Token>, vars: seq<Variable>, env: Env)
    ensures var r := Arguments(CallTail(rest), vars, env); r.Args? ==> |r.rest| < |rest|
  {
    hide *;
    CallTailIs(rest);
    NoOperatorMark(';', rest);
    MarkRead(')', [Mark(';')] + rest, vars, env.ro);
    ArgumentsConsume(CallTail(rest), vars, env);
    assert CallTail(rest) == [Mark(')')] + ([Mark(';')] + rest);
  }

  /** A call in natural spelling passes its arguments, and the text goes on behind it, if and only
      if it has one argument. */
  lemma {:induction false} NaturalCall(args: seq<Expression>, rest: seq<Token>, vars: seq<Variable>, env: Env)
    requires (forall e | e in args :: ExprOk(e, vars)) && NoOperatorAhead(rest)
    ensures var r := Arguments(NaturalToks(args) + CallTail(rest), vars, env);
            r.Args? && r.code == ArgsCode(args, vars, env.ro) && r.rest == rest <==> |args| == 1
    ensures |args| == 1 ==> Arguments(NaturalToks(args) + CallTail(rest), vars, env).count == 1
  {
    hide *;
    var pre, code := NaturalToks(args), ArgsCode(args, vars, env.ro);
    if args == [] {
      NoneNatural(rest);
      EmptyCall(rest, vars, env);
    } else if |args| == 1 {
      NaturalParts(args);
      ArgsLayout(args, rest, vars, env);
      CallTailIs(rest);
    } else {
      NaturalParts(args);
      var r := Arguments(pre + CallTail(rest), vars, env);
      if r.Args? && r.code == code && r.rest == rest {
        ArgumentsPrice(pre, rest, vars, env);
        ArgsPrice(args, vars, env.ro, []);
        NothingMore(code);
        SecondArgument(args, rest, vars, env);
        assert false;
      }
    }
  }

  lemma {:induction false} NoneNatural(rest: seq<Token>)
    ensures NaturalToks([]) + CallTail(rest) == CallTail(rest)
  {
  }

  lemma {:induction false} CallTailIs(rest: seq<Token>)
    ensures CallTail(rest) == [Mark(')'), Mark(';')] + rest
  {
  }

  /** The first argument is read right; so with a second one the list is longer, or its code too cheap. */
  lemma {:induction false} SecondArgument(args: seq<Expression>, rest: seq<Token>, vars: seq<Variable>, env: Env)
    requires |args| > 1 && forall e | e in args :: ExprOk(e, vars)
    ensures var r := Arguments(NaturalToks(args) + CallTail(rest), vars, env);
            r.Args? && r.count <= 1 ==> Price(r.code) < |NaturalToks(args)|
  {
    hide *;
    NaturalParts(args);
    NaturalParts(args[1..]);
    var front, later := ExprToks(args[0], Mark(',')), NaturalToks(args[1..]) + CallTail(rest);
    Assoc(front, NaturalToks(args[1..]), CallTail(rest));
    assert later == [later[0]] + later[1..];
    ArgumentsUnfold(args[0], later[0], later[1..], vars, env);
    var code := EncodeAll(ExprInstrs(args[0], vars, env.ro)) + Encode(Push(EBX));
    var more := Arguments(later[1..], vars, env);
    MoreArgsOf(code, 1, more);
    ArgPrice(args[0], vars, env.ro, []);
    NothingMore(code);
    if later[0].text != ")" && more.Args? {
      ArgumentsCount(later[1..], vars, env);
    }
  }

  lemma {:induction false} ArgumentsCount(toks: seq<Token>, vars: seq<Variable>, env: Env)
    ensures var r := Arguments(toks, vars, env); r.Args? ==> r.count >= 1
  {
    hide *;
    ArgumentsOf(toks, vars, env);
    var e := Expr(toks, vars, env.ro);
    if e.Emitted? && Drop(toks, e.used) != [] {
      MoreArgsOf(e.code + Encode(Push(EBX)), 1, Arguments(Drop(toks, e.used)[1..], vars, env));
    }
  }

  // ----- two typical calls -----

  /** f(1, 2,); never ends at its parenthesis: the list swallows it, and text behind the call. */
  lemma {:induction false} TwoNumbers(a: string, b: string, rest: seq<Token>, vars: seq<Variable>, env: Env)
    requires ExprOk(Expression(Literal(a), NoMore), vars) && b != ")"
    ensures var toks := [Token(Number, a), Mark(','), Token(Number, b), Mark(',')] + CallTail(rest);
            var r := Arguments(toks, vars, env);
            r.Args? ==> |r.rest| < |rest|
  {
    hide *;
    var e := Expression(Literal(a), NoMore);
    var later := [Mark(',')] + CallTail(rest);
    TwoNumbersShape(a, b, rest);
    NoOperatorMark(')', [Mark(';')] + rest);
    MarkRead(',', [Mark(')')] + ([Mark(';')] + rest), vars, env.ro);
    ArgumentsUnfold(e, Token(Number, b), later, vars, env);
    MoreArgsOf(EncodeAll(ExprInstrs(e, vars, env.ro)) + Encode(Push(EBX)), 1, Arguments(later, vars, env));
    ArgumentsOf(later, vars, env);
    DropLength(later, 2);
    ParenMarks();
    var c := Expr(later, vars, env.ro);
    MoreArgsOf(c.code + Encode(Push(EBX)), 1, Arguments(rest, vars, env));
    ArgumentsConsume(rest, vars, env);
  }

  lemma {:induction false} TwoNumbersShape(a: string, b: string, rest: seq<Token>)
    ensures var later := [Mark(',')] + CallTail(rest);
            && [Token(Number, a), Mark(','), Token(Number, b), Mark(',')] + CallTail(rest)
               == ExprToks(Expression(Literal(a), NoMore), Mark(',')) + ([Token(Number, b)] + later)
            && later == [Mark(',')] + ([Mark(')')] + ([Mark(';')] + rest))
            && |later| == 3 + |rest| && later[2..] == [Mark(';')] + rest && later[2] == Mark(';')
            && later[2..][0] == Mark(';') && later[2..][1..] == rest
  {
    assert ExprToks(Expression(Literal(a), NoMore), Mark(',')) == [Token(Number, a), Mark(',')];
  }

  /** f(1); without the comma: the parenthesis ends the expression, and the list goes on. */
  lemma {:induction false} MissingComma(e: Expression, rest: seq<Token>, vars: seq<Variable>, env: Env)
    requires ExprOk(e, vars)
    ensures var r := Arguments(ExprToks(e, Mark(')')) + ([Mark(';')] + rest), vars, env);
            r.Args? ==> |r.rest| < |rest|
  {
    hide *;
    var toks, later := ExprToks(e, Mark(')')) + ([Mark(';')] + rest), [Mark(';')] + rest;
    ParenEnds();
    ParenMarks();
    ExprEmits(e, Mark(')'), later, vars, env.ro);
    ExprToksLength(e, Mark(')'));
    ArgumentsOf(toks, vars, env);
    assert later[0] == Mark(';') && later[1..] == rest;
    MoreArgsOf(EncodeAll(ExprInstrs(e, vars, env.ro)) + Encode(Push(EBX)), 1, Arguments(rest, vars, env));
    ArgumentsConsume(rest, vars, env);
  }

  lemma {:induction false} ParenEnds()
    ensures Ends(Mark(')'))
  {
  }

  /** f(e, &x,); passes x instead of its address. */
  lemma {:induction false} AddressArgument(e: Expression, x: string, rest: seq<Token>, vars: seq<Variable>, env: Env)
    requires ExprOk(e, vars) && ExprOk(Expression(Name(x), NoMore), vars)
    ensures var natural := NaturalToks([e, Expression(AddressOf(x), NoMore)]);
            Arguments(natural + CallTail(rest), vars, env)
            == Args(ArgsCode([e, Expression(Name(x), NoMore)], vars, env.ro), 2, rest)
  {
    var address, name := Expression(Source.AddressOf(x), NoMore), Expression(Name(x), NoMore);
    assert ExprToks(address, Mark(',')) == [Mark('&')] + ExprToks(name, Mark(','));
    hide *;
    assert [e, address][1..] == [address] && [e, name][1..] == [name];
    NaturalParts([e, address]);
    NaturalParts([address]);
    NoNatural(address);
    var later := ExprToks(name, Mark(',')) + CallTail(rest);
    Assoc(ExprToks(e, Mark(',')), [Mark('&')] + ExprToks(name, Mark(',')), CallTail(rest));
    Assoc([Mark('&')], ExprToks(name, Mark(',')), CallTail(rest));
    ParenMarks();
    ArgumentsUnfold(e, Mark('&'), later, vars, env);
    ArgsLayout([name], rest, vars, env);
    CallTailIs(rest);
    OneArgument(name);
    ArgsCodeOf([e, name], vars, env.ro);
    MoreArgsOf(EncodeAll(ExprInstrs(e, vars, env.ro)) + Encode(Push(EBX)), 1, Arguments(later, vars, env));
  }

  lemma {:induction false} NoNatural(e: Expression)
    ensures NaturalToks([e]) == ExprToks(e, Mark(','))
  {
    assert ExprToks(e, Mark(',')) + [] == ExprToks(e, Mark(','));
  }

  lemma {:induction false} OneArgument(e: Expression)
    ensures ArgsToks([e]) == ExprToks(e, Mark(','))
  {
  }
}
