/** The expression compiler on the spelling of an expression: which instructions come out. */
module ExprLayout {
  import opened Wrappers
  import opened Sequences
  import opened Words
  import opened X86
  import opened Emitter
  import opened Tokenizer
  import opened Names
  import opened ExprCompiler
  import opened Source

  // ----- the instructions of an expression -----

  function OperandInstrs(dst: Reg, o: Operand, vars: seq<Variable>, ro: RoData): seq<Instr>
    requires OperandOk(o, vars)
  {
    match o
    case Literal(t) => [MovRI(dst, Atoi(t))]
    case Name(n) => LoadVar(dst, FindVar(vars, n).value)
    case Str(t) => [MovRI(dst, RoAddress(ro, t))]
    case AddressOf(n) => ExprCompiler.AddressOf(dst, FindVar(vars, n).value)
    case InReg(r) => [MovRR(dst, r)]
  }

  function TermsInstrs(ts: Terms, vars: seq<Variable>, ro: RoData): seq<Instr>
    requires TermsOk(ts, vars)
  {
    match ts
    case NoMore => []
    case Term(op, o, more) => OperandInstrs(EDX, o, vars, ro) + OpCode(OpChar(op)) + TermsInstrs(more, vars, ro)
  }

  function ExprInstrs(e: Expression, vars: seq<Variable>, ro: RoData): seq<Instr>
    requires ExprOk(e, vars)
  {
    OperandInstrs(EBX, e.first, vars, ro) + TermsInstrs(e.terms, vars, ro)
  }

  // ----- one operand -----

  lemma {:induction false} RegisterOfText(r: Reg)
    ensures Register(RegText(r)) == Some(r)
  {
  }

  lemma {:induction false} NotReserved(name: string)
    requires !Reserved(name)
    ensures Register(name).None? && !Is(name, '@') && !Is(name, '&') && !Is(name, '*')
  {
    if |name| == 1 {
      assert !IsSpecial(name[0]);
    }
  }

  lemma {:induction false} OperandFormOf(first: bool, o: Operand, rest: seq<Token>, vars: seq<Variable>, ro: RoData)
    requires OperandOk(o, vars) && (first || Unmarked(o))
    ensures var toks := OperandToks(o) + rest;
            && toks != []
            && Width(first, toks[0]) == |OperandToks(o)|
            && var form := OperandForm(first, toks, vars, ro);
               && !form.NoRegister? && !form.NoVariable?
               && FormCode(if first then EBX else EDX, form)
                  == EncodeAll(OperandInstrs(if first then EBX else EDX, o, vars, ro))
  {
    hide Atoi, FindVar, Encode, EncodeAll, Reserved, LoadSized;
    var toks := OperandToks(o) + rest;
    var dst := if first then EBX else EDX;
    var form := OperandForm(first, toks, vars, ro);
    match o {
      case Literal(t) =>
        NotReserved(t);
        hide Register;
        assert form == FromConst(Atoi(t));
        EncodeAllOne(MovRI(dst, Atoi(t)));
      case Name(n) =>
        NotReserved(n);
        hide Register;
        assert form == FromVar(FindVar(vars, n).value);
      case Str(t) =>
        hide Register;
        assert form == FromConst(RoAddress(ro, t));
        EncodeAllOne(MovRI(dst, RoAddress(ro, t)));
      case AddressOf(n) =>
        assert Register("&").None?;
        assert Head(toks[1..]).text == n;
        hide Register;
        assert form == FromAddress(FindVar(vars, n).value);
      case InReg(r) =>
        RegisterOfText(r);
        RegisterUnmarked(toks[0]);
        hide Register, RegText;
        assert form == FromReg(r);
        EncodeAllOne(MovRR(dst, r));
    }
  }

  /** A string is read as the address of its copy if and only if it does not name a register and,
      behind an operator, is none of the three marks: the kind of the token comes second. */
  lemma {:induction false} StringOperand(first: bool, t: string, rest: seq<Token>, vars: seq<Variable>, ro: RoData)
    ensures OperandForm(first, [Token(Text, t)] + rest, vars, ro) == FromConst(RoAddress(ro, t))
       <==> Register(t).None? && (first || Unmarked(Str(t)))
  {
    hide Register, FindVar, Atoi;
  }

  /** The string "eax" is the register EAX. */
  lemma {:induction false} RegisterString(first: bool, rest: seq<Token>, vars: seq<Variable>, ro: RoData)
    ensures OperandForm(first, [Token(Text, "eax")] + rest, vars, ro) == FromReg(EAX)
    ensures !OperandOk(Str("eax"), vars)
  {
    assert Register("eax") == Some(EAX);
    hide Register, FindVar, Atoi;
  }

  // ----- whole expressions -----

  predicate Ends(end: Token) {
    end.text != "" && !IsOperator(end.text[0])
  }

  lemma {:induction false} OpCharIsOperator(op: Op)
    ensures IsOperator(OpChar(op))
  {
    OperatorChars(OpChar(op));
    hide IsOperator;
  }

  lemma {:induction false} TermsLayout(ts: Terms, end: Token, rest: seq<Token>, vars: seq<Variable>, ro: RoData)
    requires TermsOk(ts, vars) && Ends(end)
    ensures Operators(TermsToks(ts) + [end] + rest, vars, ro)
         == Emitted(EncodeAll(TermsInstrs(ts, vars, ro)), |TermsToks(ts)| + 1)
    decreases ts
  {
    var toks := TermsToks(ts) + [end] + rest;
    match ts {
      case NoMore =>
        assert toks[0] == end;
        EncodeAllNone();
        hide IsOperator, Operands;
        OperatorsOf(toks, vars, ro);
      case Term(op, o, more) =>
        TermsLayout(more, end, rest, vars, ro);
        OpCharIsOperator(op);
        hide IsOperator, Operators, EncodeAll, OpCode, OpChar, OperandInstrs, TermsInstrs, OperandToks, OperandOk,
             TermsOk;
        TermStep(op, o, more, end, rest, vars, ro);
    }
  }

  lemma {:induction false} TermTokens(op: Op, o: Operand, more: Terms, end: Token, rest: seq<Token>)
    ensures var toks := TermsToks(Term(op, o, more)) + [end] + rest;
            var tail := TermsToks(more) + [end] + rest;
            && toks != [] && toks[0] == Mark(OpChar(op)) && toks[1..] == OperandToks(o) + tail
            && Drop(OperandToks(o) + tail, |OperandToks(o)|) == tail
            && |TermsToks(Term(op, o, more))| == 1 + |OperandToks(o)| + |TermsToks(more)|
  {
    FrontShape(Mark(OpChar(op)), OperandToks(o), TermsToks(more), end, rest);
  }

  lemma {:induction false} FrontShape<T>(a: T, o: seq<T>, m: seq<T>, e: T, r: seq<T>)
    ensures ([a] + o + m + [e] + r)[0] == a && ([a] + o + m + [e] + r)[1..] == o + (m + [e] + r)
    ensures (o + (m + [e] + r))[|o|..] == m + [e] + r
  {
    var tail := m + [e] + r;
    assert [a] + o + m + [e] + r == [a] + (o + tail) by {
      Assoc([a], o, m);
      Assoc([a], o + m, [e]);
      Assoc([a], o + m + [e], r);
      Assoc(o, m, [e]);
      Assoc(o, m + [e], r);
    }
  }

  lemma {:induction false} TermCode(op: Op, o: Operand, more: Terms, vars: seq<Variable>, ro: RoData)
    requires TermsOk(more, vars) && OperandOk(o, vars) && Unmarked(o)
    ensures EncodeAll(TermsInstrs(Term(op, o, more), vars, ro))
         == EncodeAll(OperandInstrs(EDX, o, vars, ro)) + EncodeAll(OpCode(OpChar(op)))
            + EncodeAll(TermsInstrs(more, vars, ro))
  {
    var a, b, c := OperandInstrs(EDX, o, vars, ro), OpCode(OpChar(op)), TermsInstrs(more, vars, ro);
    assert TermsInstrs(Term(op, o, more), vars, ro) == a + b + c;
    hide EncodeAll, OpCode, OperandInstrs, TermsInstrs;
    EncodeAllConcat(a, b);
    EncodeAllConcat(a + b, c);
  }

  lemma {:induction false} TermStep(op: Op, o: Operand, more: Terms, end: Token, rest: seq<Token>, vars: seq<Variable>,
                                    ro: RoData)
    requires TermsOk(more, vars) && OperandOk(o, vars) && Unmarked(o)
    requires Operators(TermsToks(more) + [end] + rest, vars, ro)
          == Emitted(EncodeAll(TermsInstrs(more, vars, ro)), |TermsToks(more)| + 1)
    ensures Operators(TermsToks(Term(op, o, more)) + [end] + rest, vars, ro)
         == Emitted(EncodeAll(TermsInstrs(Term(op, o, more), vars, ro)), |TermsToks(Term(op, o, more))| + 1)
  {
    hide *;
    var ts := Term(op, o, more);
    var tail := TermsToks(more) + [end] + rest;
    var toks := TermsToks(ts) + [end] + rest;
    TermOk(op, o, more, vars);
    var ins := TermsInstrs(ts, vars, ro);
    TermTokens(op, o, more, end, rest);
    OpCharIsOperator(op);
    OperandFormOf(false, o, tail, vars, ro);
    TermCode(op, o, more, vars, ro);
    OperatorsOf(toks, vars, ro);
    assert toks[1..] != [];
    OperandsOf(toks[1..], OpChar(op), vars, ro);
    ThenNothing(EncodeAll(ins));
    assert CharAt(toks[0].text, 0) == OpChar(op) by { MarkText(OpChar(op)); }
    ThenThenCode(EncodeAll(OperandInstrs(EDX, o, vars, ro)) + EncodeAll(OpCode(OpChar(op))), |OperandToks(o)|,
                 EncodeAll(TermsInstrs(more, vars, ro)), |TermsToks(more)| + 1);
  }

  lemma {:induction false} TermOk(op: Op, o: Operand, more: Terms, vars: seq<Variable>)
    requires TermsOk(more, vars) && OperandOk(o, vars) && Unmarked(o)
    ensures TermsOk(Term(op, o, more), vars)
  {
  }

  lemma {:induction false} MarkText(c: char)
    ensures CharAt(Mark(c).text, 0) == c
  {
  }

  lemma {:induction false} ThenThenCode(a: seq<byte>, n: nat, b: seq<byte>, m: nat)
    requires m > 0
    ensures Then([], 1, Then(a, n, Emitted(b, m))) == Emitted(a + b, 1 + n + m)
  {
    assert [] + (a + b) == a + b;
  }

  lemma {:induction false} ThenNothing(code: seq<byte>)
    ensures [] + code == code
  {
  }

  lemma {:induction false} OperandsOf(toks: seq<Token>, e: char, vars: seq<Variable>, ro: RoData)
    requires toks != [] && !OperandForm(false, toks, vars, ro).NoRegister?
    ensures var n := Width(false, toks[0]);
            var code := FormCode(EDX, OperandForm(false, toks, vars, ro)) + EncodeAll(OpCode(e));
            Operands(toks, e, vars, ro) == Then(code, n, Operators(Drop(toks, n), vars, ro))
  {
    hide OperandForm, FormCode, EncodeAll, OpCode, Operators, Drop, Width;
  }

  /** The compiler reads exactly the tokens of the expression and its terminator, and emits
      exactly its instructions. */
  lemma {:induction false} ExprEmits(e: Expression, end: Token, rest: seq<Token>, vars: seq<Variable>, ro: RoData)
    requires ExprOk(e, vars) && Ends(end)
    ensures Expr(ExprToks(e, end) + rest, vars, ro)
         == Emitted(EncodeAll(ExprInstrs(e, vars, ro)), |ExprToks(e, end)|)
    ensures Drop(ExprToks(e, end) + rest, |ExprToks(e, end)|) == rest
  {
    var tail := TermsToks(e.terms) + [end] + rest;
    assert ExprToks(e, end) + rest == OperandToks(e.first) + tail;
    OperandFormOf(true, e.first, tail, vars, ro);
    TermsLayout(e.terms, end, rest, vars, ro);
    assert Drop(OperandToks(e.first) + tail, |OperandToks(e.first)|) == tail;
    hide OperandForm, FormCode, EncodeAll, Operators, OperandToks, TermsToks, OperandInstrs, TermsInstrs;
    EncodeAllConcat(OperandInstrs(EBX, e.first, vars, ro), TermsInstrs(e.terms, vars, ro));
  }
}
