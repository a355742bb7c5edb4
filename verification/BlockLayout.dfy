/** The statement compiler on the spelling of a program: where every byte goes. */
module BlockLayout {
  import opened Wrappers
  import opened Sequences
  import opened Words
  import opened X86
  import opened Tokenizer
  import opened Names
  import opened ExprCompiler
  import opened CompilerSpec
  import opened Source
  import opened ExprLayout

  // ----- the code of a block -----

  /** The compiled functions carry the names of the definitions, in order. */
  predicate Tabled(funcs: seq<Function>, defs: seq<Def>) {
    |funcs| == |defs| && forall i | 0 <= i < |defs| :: funcs[i].name == defs[i].name
  }

  function ArgsCode(args: seq<Expression>, vars: seq<Variable>, ro: RoData): seq<byte>
    requires forall e | e in args :: ExprOk(e, vars)
  {
    if args == [] then []
    else EncodeAll(ExprInstrs(args[0], vars, ro)) + Encode(Push(EBX)) + ArgsCode(args[1..], vars, ro)
  }

  function TargetCode(t: Target, vars: seq<Variable>): seq<byte>
    requires t.ToVar? ==> FindVar(vars, t.name).Some?
  {
    match t
    case ToVar(n) => EncodeAll(StoreVar(FindVar(vars, n).value))
    case ToReg(r) => AssignReg(r)
  }

  function VarsNext(b: Block, vars: seq<Variable>): seq<Variable>
    requires !b.End?
  {
    match b
    case Declare(bits, n, _, _) => vars + [NewVar(bits, n, vars)]
    case If(_, body, _) => VarsAfter(body, vars)
    case _ => vars
  }

  lemma {:induction false} NextOk(b: Block, vars: seq<Variable>, defs: seq<Def>)
    requires !b.End? && BlockOk(b, vars, defs)
    ensures BlockOk(b.next, VarsNext(b, vars), defs)
    ensures b.If? || b.While? ==> BlockOk(b.body, vars, defs)
    ensures VarsAfter(b, vars) == VarsAfter(b.next, VarsNext(b, vars))
  {
  }

  function PlainCode(b: Block, vars: seq<Variable>, defs: seq<Def>, ro: RoData): seq<byte>
    requires b.Assign? || b.Declare? || b.Nop?
    requires BlockOk(b, vars, defs)
  {
    match b
    case Assign(t, e, _) => EncodeAll(ExprInstrs(e, vars, ro)) + TargetCode(t, vars)
    case Declare(bits, n, e, _) =>
      EncodeAll(ExprInstrs(e, VarsNext(b, vars), ro)) + EncodeAll(StoreVar(NewVar(bits, n, vars)))
    case Nop(_, _) => []
  }

  /** The bytes of the first statement of a block. */
  function HeadCode(b: Block, vars: seq<Variable>, defs: seq<Def>, funcs: seq<Function>, ro: RoData): seq<byte>
    requires !b.End? && BlockOk(b, vars, defs) && Tabled(funcs, defs)
    decreases b, 0
  {
    match b
    case If(e, body, _) =>
      IfCode(EncodeAll(ExprInstrs(e, vars, ro)), BlockCode(body, vars, defs, funcs, ro))
    case While(e, body, _) =>
      WhileCode(EncodeAll(ExprInstrs(e, vars, ro)), BlockCode(body, vars, defs, funcs, ro))
    case Call(n, args, _) =>
      ArgsCode(args, vars, ro) + EncodeAll(CallCode(funcs[FindDef(defs, n).value], |args|))
    case Assign(_, _, _) => PlainCode(b, vars, defs, ro)
    case Declare(_, _, _, _) => PlainCode(b, vars, defs, ro)
    case Nop(_, _) => PlainCode(b, vars, defs, ro)
  }

  /** The bytes of a block; they depend neither on their position nor on what surrounds them. */
  function BlockCode(b: Block, vars: seq<Variable>, defs: seq<Def>, funcs: seq<Function>, ro: RoData): seq<byte>
    requires BlockOk(b, vars, defs) && Tabled(funcs, defs)
    decreases b, 1
  {
    if b.End? then []
    else
      NextOk(b, vars, defs);
      HeadCode(b, vars, defs, funcs, ro) + BlockCode(b.next, VarsNext(b, vars), defs, funcs, ro)
  }

  /** The condition, the test that skips exactly the block, and the block. */
  function IfCode(cond: seq<byte>, block: seq<byte>): seq<byte> {
    cond + EncodeAll(TestCode(|block|)) + block
  }

  lemma {:induction false} IfCodeOf(cond: seq<byte>, block: seq<byte>)
    ensures IfCode(cond, block) == cond + EncodeAll(TestCode(|block|)) + block
  {
    hide EncodeAll, TestCode;
  }

  // ----- frames of a compiled block -----

  lemma {:induction false} InsideOf(n: u32, code: seq<byte>)
    ensures Inside(EncodeAll(Prologue(n)) + code + EncodeAll(EPILOGUE)) == code
    ensures |EncodeAll(Prologue(n)) + code + EncodeAll(EPILOGUE)| - 13 == |code|
  {
    FrameLengths(n);
    hide EncodeAll, Prologue;
  }

  // ----- names -----

  predicate NamesOk(vars: seq<Variable>) {
    forall v | v in vars :: !Reserved(v.name)
  }

  lemma {:induction false} ReservedIsNoVar(vars: seq<Variable>, name: string)
    requires NamesOk(vars) && Reserved(name)
    ensures FindVar(vars, name).None?
  {
  }

  lemma {:induction false} NamesAfter(b: Block, vars: seq<Variable>, defs: seq<Def>)
    requires BlockOk(b, vars, defs) && NamesOk(vars)
    ensures NamesOk(VarsAfter(b, vars))
    decreases b
  {
    match b {
      case End =>
      case Declare(bits, n, _, next) => NamesAfter(next, vars + [NewVar(bits, n, vars)], defs);
      case If(_, body, next) =>
        NamesAfter(body, vars, defs);
        NamesAfter(next, VarsAfter(body, vars), defs);
      case _ => NamesAfter(b.next, vars, defs);
    }
  }

  lemma {:induction false} FindFnOfDef(funcs: seq<Function>, defs: seq<Def>, name: string)
    requires Tabled(funcs, defs)
    ensures FindFn(funcs, name) == match FindDef(defs, name) case None => None case Some(i) => Some(funcs[i])
    decreases |defs|
  {
    if defs != [] && defs[0].name != name {
      FindFnOfDef(funcs[1..], defs[1..], name);
    }
  }

  // ----- classification -----

  lemma {:induction false} ClassifyMark(c: char, scope: Scope)
    requires NamesOk(scope.vars) && c in "{};"
    ensures Classify(Mark(c), scope) == if c == '{' then Open else if c == '}' then Close else Semicolon
  {
    assert c == "{};"[0] || c == "{};"[1] || c == "{};"[2];
    ReservedIsNoVar(scope.vars, [c]);
  }

  lemma {:induction false} ClassifyWord(name: string, scope: Scope)
    requires !Reserved(name)
    ensures var v := FindVar(scope.vars, name);
            && (v.Some? ==> Classify(WordTok(name), scope) == Assigns(v.value))
            && (v.None? && FindFn(scope.funcs, name).Some? ==>
                  Classify(WordTok(name), scope) == Calls(FindFn(scope.funcs, name).value))
  {
    if |name| == 1 {
      assert !IsSpecial(name[0]);
    }
    hide FindVar, FindFn, TypeFromName;
  }

  lemma {:induction false} ClassifyKeywords(scope: Scope)
    ensures Classify(WordTok("if"), scope) == IfWord && Classify(WordTok("while"), scope) == WhileWord
  {
  }

  lemma {:induction false} ClassifyReg(r: Reg, scope: Scope)
    requires NamesOk(scope.vars)
    ensures Classify(WordTok(RegText(r)), scope) == AssignsReg(r)
  {
    RegisterOfText(r);
    var t := RegText(r);
    assert |t| == 3 && t[0] == 'e' && t != "for";
    ReservedIsNoVar(scope.vars, t);
    hide Register, RegText, FindVar;
  }

  lemma {:induction false} ClassifyType(bits: nat, scope: Scope)
    requires TypeBits(bits)
    ensures Classify(WordTok(TypeText(bits)), scope) == Declares(bits)
  {
    TypeOfText(bits);
    assert !IsOutside(TypeText(bits));
    hide TypeFromName, IsOutside;
  }

  lemma {:induction false} TypeOfText(bits: nat)
    requires TypeBits(bits)
    ensures TypeFromName(TypeText(bits)) == Some(bits)
  {
    var t := TypeText(bits)[1..];
    hide AtoiFrom, AtoiStep, Digit;
    assert !IsHex(t);
    if bits == 0 {
      AtoiOne(t);
    } else if bits == 8 {
      AtoiOne(t);
    } else {
      AtoiTwo(t);
    }
  }

  // ----- skipping -----

  /** The skipping loop counts braces exactly as Walk does. */
  lemma {:induction false} WalkSkips(inner: seq<Token>, depth: nat, tail: seq<Token>)
    requires depth >= 1
    ensures Walk(inner, depth).Some? ==> SkipBlock(inner + tail, depth) == SkipBlock(tail, Walk(inner, depth).value)
    ensures Walk(inner, depth).None? ==> |SkipBlock(inner + tail, depth)| >= |tail|
    decreases |inner|
  {
    if inner == [] {
      assert inner + tail == tail;
    } else {
      var toks := inner + tail;
      assert toks[0] == inner[0] && toks[1..] == inner[1..] + tail;
      if Is(inner[0].text, '{') {
        WalkSkips(inner[1..], depth + 1, tail);
      } else if !Is(inner[0].text, '}') {
        WalkSkips(inner[1..], depth, tail);
      } else if depth > 1 {
        WalkSkips(inner[1..], depth - 1, tail);
      }
    }
  }

  lemma {:induction false} WalkConcat(a: seq<Token>, b: seq<Token>, depth: nat)
    ensures Walk(a + b, depth) == match Walk(a, depth) case None => None case Some(d) => Walk(b, d)
    decreases |a|
  {
    if a == [] {
      assert a + b == b;
    } else {
      assert (a + b)[0] == a[0] && (a + b)[1..] == a[1..] + b;
      if Is(a[0].text, '{') {
        WalkConcat(a[1..], b, depth + 1);
      } else if !Is(a[0].text, '}') {
        WalkConcat(a[1..], b, depth);
      } else if depth > 1 {
        WalkConcat(a[1..], b, depth - 1);
      }
    }
  }

  /** Where the skip behind a block in braces ends: right, too late, or too early. */
  lemma {:induction false} SkipBraced(inner: seq<Token>, more: seq<Token>)
    ensures var r := SkipBlock(Braced(inner) + more, 0);
            match Walk(inner, 1)
            case None => |r| > |more|
            case Some(d) => r == if d == 1 then more else SkipBlock(more, d - 1)
  {
    var toks, rest := Braced(inner) + more, [Mark('}')] + more;
    assert toks[0] == Mark('{') && toks[1..] == inner + rest;
    assert rest[0] == Mark('}') && rest[1..] == more;
    WalkSkips(inner, 1, rest);
    hide Walk;
  }

  /** The loop that skips a block finds its end, whatever follows, if and only if the block's tokens
      are balanced. It does not tell a brace from a string that is one. */
  lemma {:induction false} SkipExactly(inner: seq<Token>)
    ensures (forall more :: SkipBlock(Braced(inner) + more, 0) == more) <==> Balanced(inner)
  {
    forall more: seq<Token>
      ensures Balanced(inner) ==> SkipBlock(Braced(inner) + more, 0) == more
    {
      SkipBraced(inner, more);
    }
    var one := [Mark(';')];
    SkipBraced(inner, one);
    if !Balanced(inner) {
      if Walk(inner, 1).Some? {
        SkipMark(Walk(inner, 1).value - 1);
      }
      assert SkipBlock(Braced(inner) + one, 0) != one;
    }
  }

  lemma {:induction false} SkipMark(depth: int)
    ensures SkipBlock([Mark(';')], depth) == []
  {
    assert [Mark(';')][1..] == [];
  }

  /** A loop `esi "}" ;` ends at its string; the comments "{" and "}" make up for each other; and a
      single one of them does not. */
  lemma {:induction false} BraceWitnesses()
    ensures !Balanced([WordTok("esi"), Token(Text, "}"), Mark(';')])
    ensures Balanced([Token(Text, "{"), Token(Text, "}")])
    ensures !Balanced([Token(Text, "{")]) && !Balanced([Token(Text, "}")])
  {
    var a, b := [WordTok("esi"), Token(Text, "}"), Mark(';')], [Token(Text, "{"), Token(Text, "}")];
    assert a[1..][0] == Token(Text, "}") && b[1..][0] == Token(Text, "}");
    assert b[1..][1..] == [] && [Token(Text, "{")][1..] == [];
  }

  /** No brace, and no string that looks like one. */
  predicate NoBraces(toks: seq<Token>) {
    forall t | t in toks :: !Is(t.text, '{') && !Is(t.text, '}')
  }

  lemma {:induction false} WalkPlain(ts: seq<Token>, depth: nat)
    requires NoBraces(ts)
    ensures Walk(ts, depth) == Some(depth)
    decreases |ts|
  {
    if ts != [] {
      assert ts[0] in ts;
      WalkPlain(ts[1..], depth);
    }
  }

  /** No string among the tokens is a lone brace. */
  predicate PlainTexts(toks: seq<Token>) {
    forall t | t in toks && t.kind == Text :: !Is(t.text, '{') && !Is(t.text, '}')
  }

  lemma {:induction false} PlainParts(a: seq<Token>, b: seq<Token>)
    requires PlainTexts(a + b)
    ensures PlainTexts(a) && PlainTexts(b)
  {
    assert forall t | t in a :: t in a + b;
    assert forall t | t in b :: t in a + b;
  }

  lemma {:induction false} NotBrace(name: string)
    requires !Reserved(name)
    ensures !Is(name, '{') && !Is(name, '}')
  {
    if |name| == 1 {
      assert !IsSpecial(name[0]);
    }
  }

  lemma {:induction false} OperandNoBraces(o: Operand, vars: seq<Variable>)
    requires OperandOk(o, vars) && PlainTexts(OperandToks(o))
    ensures NoBraces(OperandToks(o))
  {
    match o {
      case Literal(t) => NotBrace(t);
      case Name(n) => NotBrace(n);
      case Str(t) => assert Token(Text, t) in OperandToks(o);
      case AddressOf(n) => NotBrace(n);
      case InReg(r) => assert |RegText(r)| == 3;
    }
  }

  lemma {:induction false} TermsNoBraces(ts: Terms, vars: seq<Variable>)
    requires TermsOk(ts, vars) && PlainTexts(TermsToks(ts))
    ensures NoBraces(TermsToks(ts))
    decreases ts
  {
    match ts {
      case NoMore =>
      case Term(op, o, more) =>
        PlainParts([Mark(OpChar(op))] + OperandToks(o), TermsToks(more));
        PlainParts([Mark(OpChar(op))], OperandToks(o));
        OperandNoBraces(o, vars);
        TermsNoBraces(more, vars);
        assert NoBraces([Mark(OpChar(op))]);
    }
  }

  lemma {:induction false} ExprNoBraces(e: Expression, c: char, vars: seq<Variable>)
    requires ExprOk(e, vars) && c != '{' && c != '}' && PlainTexts(ExprToks(e, Mark(c)))
    ensures NoBraces(ExprToks(e, Mark(c)))
  {
    PlainParts(OperandToks(e.first) + TermsToks(e.terms), [Mark(c)]);
    PlainParts(OperandToks(e.first), TermsToks(e.terms));
    OperandNoBraces(e.first, vars);
    TermsNoBraces(e.terms, vars);
  }

  lemma {:induction false} ArgsNoBraces(args: seq<Expression>, vars: seq<Variable>)
    requires (forall e | e in args :: ExprOk(e, vars)) && PlainTexts(ArgsToks(args))
    ensures NoBraces(ArgsToks(args))
    decreases |args|
  {
    if args != [] {
      if |args| > 1 {
        PlainParts(ExprToks(args[0], Mark(',')) + [Mark(',')], ArgsToks(args[1..]));
        PlainParts(ExprToks(args[0], Mark(',')), [Mark(',')]);
      } else {
        assert args[1..] == [];
      }
      ExprNoBraces(args[0], ',', vars);
      ArgsNoBraces(args[1..], vars);
      NoBracesMark(',');
      hide NoBraces, ExprOk, ExprToks, Mark;
      if |args| > 1 {
        NoBracesConcat(ExprToks(args[0], Mark(',')), [Mark(',')]);
        NoBracesConcat(ExprToks(args[0], Mark(',')) + [Mark(',')], ArgsToks(args[1..]));
      }
    }
  }

  /** The tokens in front of the next statement, or of the block of `if` and `while`. */
  function Front(b: Block): seq<Token>
    requires !b.End?
  {
    match b
    case Assign(t, e, _) => [TargetTok(t)] + ExprToks(e, Mark(';'))
    case Declare(bits, n, e, _) => [WordTok(TypeText(bits)), WordTok(n), Mark('=')] + ExprToks(e, Mark(';'))
    case If(e, _, _) => [WordTok("if")] + ExprToks(e, Mark(';'))
    case While(e, _, _) => [WordTok("while")] + ExprToks(e, Mark(';'))
    case Call(n, args, _) =>
      (if args == [] then [WordTok(n)] else [WordTok(n), Mark('(')] + ArgsToks(args) + [Mark(')')]) + [Mark(';')]
    case Nop(comment, _) => [NopTok(comment)]
  }

  lemma {:induction false} NoBracesConcat(a: seq<Token>, b: seq<Token>)
    requires NoBraces(a) && NoBraces(b)
    ensures NoBraces(a + b)
  {
  }

  lemma {:induction false} NoBracesMark(c: char)
    requires c != '{' && c != '}'
    ensures NoBraces([Mark(c)])
  {
  }

  lemma {:induction false} NoBracesWord(name: string)
    requires !Reserved(name) || |name| >= 2
    ensures NoBraces([WordTok(name)])
  {
    if !Reserved(name) {
      NotBrace(name);
    }
  }

  lemma {:induction false} FrontNoBraces(b: Block, vars: seq<Variable>, defs: seq<Def>)
    requires !b.End? && BlockOk(b, vars, defs) && PlainTexts(Front(b))
    ensures NoBraces(Front(b))
  {
    hide NoBraces, PlainTexts, Reserved, ExprToks, ArgsToks, ExprOk, RegText, TypeText;
    match b {
      case Assign(t, e, _) =>
        PlainParts([TargetTok(t)], ExprToks(e, Mark(';')));
        ExprNoBraces(e, ';', vars);
        TargetNoBraces(t);
        NoBracesConcat([TargetTok(t)], ExprToks(e, Mark(';')));
      case Declare(bits, n, e, _) =>
        PlainParts([WordTok(TypeText(bits)), WordTok(n), Mark('=')], ExprToks(e, Mark(';')));
        ExprNoBraces(e, ';', vars + [NewVar(bits, n, vars)]);
        DeclareNoBraces(bits, n);
        NoBracesConcat([WordTok(TypeText(bits)), WordTok(n), Mark('=')], ExprToks(e, Mark(';')));
      case If(e, _, _) =>
        PlainParts([WordTok("if")], ExprToks(e, Mark(';')));
        ExprNoBraces(e, ';', vars);
        NoBracesWord("if");
        NoBracesConcat([WordTok("if")], ExprToks(e, Mark(';')));
      case While(e, _, _) =>
        PlainParts([WordTok("while")], ExprToks(e, Mark(';')));
        ExprNoBraces(e, ';', vars);
        NoBracesWord("while");
        NoBracesConcat([WordTok("while")], ExprToks(e, Mark(';')));
      case Call(n, args, _) =>
        NoBracesWord(n);
        CallPlain(n, args);
        CallNoBraces(n, args, vars);
      case Nop(comment, _) => NopNoBraces(comment);
    }
  }

  lemma {:induction false} TargetNoBraces(t: Target)
    requires t.ToVar? ==> !Reserved(t.name)
    ensures NoBraces([TargetTok(t)])
  {
    if t.ToVar? { NotBrace(t.name); } else { assert |RegText(t.reg)| == 3; }
  }

  lemma {:induction false} NopNoBraces(comment: Option<string>)
    requires PlainTexts([NopTok(comment)])
    ensures NoBraces([NopTok(comment)])
  {
    assert NopTok(comment) in [NopTok(comment)];
  }

  /** A call statement. */
  function CallToks(n: string, args: seq<Expression>): seq<Token> {
    (if args == [] then [WordTok(n)] else [WordTok(n), Mark('(')] + ArgsToks(args) + [Mark(')')]) + [Mark(';')]
  }

  lemma {:induction false} CallPlain(n: string, args: seq<Expression>)
    requires PlainTexts(CallToks(n, args))
    ensures PlainTexts(ArgsToks(args))
  {
    hide PlainTexts;
    if args != [] {
      PlainParts([WordTok(n), Mark('(')] + ArgsToks(args) + [Mark(')')], [Mark(';')]);
      PlainParts([WordTok(n), Mark('(')] + ArgsToks(args), [Mark(')')]);
      PlainParts([WordTok(n), Mark('(')], ArgsToks(args));
    } else {
      NothingPlain();
    }
  }

  lemma {:induction false} NothingPlain()
    ensures PlainTexts([])
  {
  }

  lemma {:induction false} DeclareNoBraces(bits: nat, n: string)
    requires !Reserved(n)
    ensures NoBraces([WordTok(TypeText(bits)), WordTok(n), Mark('=')])
  {
    NotBrace(n);
    assert |TypeText(bits)| >= 2;
  }

  lemma {:induction false} CallNoBraces(n: string, args: seq<Expression>, vars: seq<Variable>)
    requires NoBraces([WordTok(n)]) && (forall e | e in args :: ExprOk(e, vars)) && PlainTexts(ArgsToks(args))
    ensures var call := if args == [] then [WordTok(n)] else [WordTok(n), Mark('(')] + ArgsToks(args) + [Mark(')')];
            NoBraces(call + [Mark(';')])
  {
    ArgsNoBraces(args, vars);
    NoBracesMark('(');
    NoBracesMark(')');
    NoBracesMark(';');
    hide NoBraces, ArgsToks, Mark, ExprOk, WordTok;
    NoBracesConcat([WordTok(n)], [Mark(';')]);
    NoBracesConcat([WordTok(n)], [Mark('(')]);
    assert [WordTok(n), Mark('(')] == [WordTok(n)] + [Mark('(')];
    NoBracesConcat([WordTok(n), Mark('(')], ArgsToks(args));
    NoBracesConcat([WordTok(n), Mark('(')] + ArgsToks(args), [Mark(')')]);
    NoBracesConcat([WordTok(n), Mark('(')] + ArgsToks(args) + [Mark(')')], [Mark(';')]);
  }

  function BodyToks(b: Block): seq<Token> {
    if b.If? || b.While? then Braced(Toks(b.body)) else []
  }

  lemma {:induction false} ToksOf(b: Block, tail: seq<Token>)
    requires !b.End?
    ensures Toks(b) + tail == Front(b) + (BodyToks(b) + (Toks(b.next) + tail))
    ensures Front(b) != []
  {
    var front, body, next := Front(b), BodyToks(b), Toks(b.next);
    assert Toks(b) == front + body + next by {
      if b.If? || b.While? { } else { assert front + [] == front; }
      hide ExprToks, ArgsToks, Braced;
    }
    hide *;
    Assoc(front, body, next);
    Assoc(front, body + next, tail);
    Assoc(body, next, tail);
  }

  /** A block without brace strings is balanced, at every depth; so a skip over it ends right. */
  lemma {:induction false} ToksBalanced(b: Block, vars: seq<Variable>, defs: seq<Def>, depth: nat)
    requires BlockOk(b, vars, defs) && PlainTexts(Toks(b)) && depth >= 1
    ensures Walk(Toks(b), depth) == Some(depth)
    decreases b
  {
    hide *;
    if b.End? {
      WalkNothing(depth);
    } else {
      var front, body, next := Front(b), BodyToks(b), Toks(b.next);
      NextOk(b, vars, defs);
      ToksOf(b, []);
      assert Toks(b) + [] == Toks(b) && next + [] == next;
      PlainParts(front, body + next);
      PlainParts(body, next);
      FrontNoBraces(b, vars, defs);
      WalkPlain(front, depth);
      WalkConcat(front, body + next, depth);
      WalkConcat(body, next, depth);
      ToksBalanced(b.next, VarsNext(b, vars), defs, depth);
      BodyToksOf(b);
      if b.If? || b.While? {
        BracedPlain(Toks(b.body));
        ToksBalanced(b.body, vars, defs, depth + 1);
        WalkBraced(Toks(b.body), depth);
      } else {
        WalkNothing(depth);
      }
    }
  }

  lemma {:induction false} WalkNothing(depth: nat)
    ensures Walk([], depth) == Some(depth) && Toks(End) == []
  {
  }

  lemma {:induction false} BracedPlain(inner: seq<Token>)
    requires PlainTexts(Braced(inner))
    ensures PlainTexts(inner)
  {
    PlainParts([Mark('{')] + inner, [Mark('}')]);
    PlainParts([Mark('{')], inner);
  }

  lemma {:induction false} WalkBraced(inner: seq<Token>, depth: nat)
    requires Walk(inner, depth + 1) == Some(depth + 1) && depth >= 1
    ensures Walk(Braced(inner), depth) == Some(depth)
  {
    var toks, close := Braced(inner), [Mark('}')];
    assert toks[0] == Mark('{') && toks[1..] == inner + close;
    WalkConcat(inner, close, depth + 1);
    assert close[1..] == [] && Walk([], depth) == Some(depth);
    assert Walk(close, depth + 1) == Walk(close[1..], depth);
  }

  lemma {:induction false} BodyToksOf(b: Block)
    requires !b.End?
    ensures BodyToks(b) == if b.If? || b.While? then Braced(Toks(b.body)) else []
  {
  }

  // ----- one statement -----

  lemma {:induction false} BodyGo(toks: seq<Token>, scope: Scope, env: Env, code: seq<byte>, rest: seq<Token>,
                                  scope': Scope)
    requires toks != [] && OneStep(toks, scope, env) == Go(code, rest, scope')
    ensures Body(toks, scope, env) == Continue(code, Body(rest, scope', env))
  {
    hide OneStep;
  }

  /** Assigning, declaring and the empty statement. */
  lemma {:induction false} PlainStep(b: Block, vars: seq<Variable>, defs: seq<Def>, funcs: seq<Function>, env: Env,
                                     enter: int, rest: seq<Token>)
    requires b.Assign? || b.Declare? || b.Nop?
    requires BlockOk(b, vars, defs) && NamesOk(vars) && Tabled(funcs, defs)
    ensures OneStep(Front(b) + rest, Scope(enter, vars, funcs), env)
         == Go(PlainCode(b, vars, defs, env.ro), rest, Scope(enter, VarsNext(b, vars), funcs))
  {
    var scope := Scope(enter, vars, funcs);
    match b {
      case Assign(t, e, _) => AssignStep(t, e, scope, env, rest);
      case Declare(bits, n, e, _) => NewStep(bits, n, e, scope, env, rest);
      case Nop(comment, _) => NopStep(comment, scope, env, rest);
    }
  }

  lemma {:induction false} NopStep(comment: Option<string>, scope: Scope, env: Env, rest: seq<Token>)
    requires NamesOk(scope.vars)
    ensures OneStep([NopTok(comment)] + rest, scope, env) == Go([], rest, scope)
  {
    var toks := [NopTok(comment)] + rest;
    assert toks[0] == NopTok(comment) && toks[1..] == rest;
    if comment.None? {
      ClassifyMark(';', scope);
    } else {
      assert Classify(toks[0], scope) == Comment;
    }
    hide Classify;
  }

  lemma {:induction false} UseExpr(e: Expression, rest: seq<Token>, scope: Scope, env: Env, use: seq<byte>)
    requires ExprOk(e, scope.vars)
    ensures ExprThen(ExprToks(e, Mark(';')) + rest, scope, env, use)
         == Go(EncodeAll(ExprInstrs(e, scope.vars, env.ro)) + use, rest, scope)
  {
    SemicolonEnds();
    ExprEmits(e, Mark(';'), rest, scope.vars, env.ro);
    hide Expr, ExprToks, ExprInstrs, EncodeAll;
  }

  lemma {:induction false} AssignStep(t: Target, e: Expression, scope: Scope, env: Env, rest: seq<Token>)
    requires NamesOk(scope.vars) && ExprOk(e, scope.vars)
    requires t.ToVar? ==> !Reserved(t.name) && FindVar(scope.vars, t.name).Some?
    ensures OneStep([TargetTok(t)] + ExprToks(e, Mark(';')) + rest, scope, env)
         == Go(EncodeAll(ExprInstrs(e, scope.vars, env.ro)) + TargetCode(t, scope.vars), rest, scope)
  {
    var use := TargetCode(t, scope.vars);
    var toks := [TargetTok(t)] + ExprToks(e, Mark(';')) + rest;
    assert toks[0] == TargetTok(t) && toks[1..] == ExprToks(e, Mark(';')) + rest by { hide *; }
    hide *;
    AssignClass(t, scope);
    AssignUnfold(toks, t, scope, env);
    UseExpr(e, rest, scope, env, use);
  }

  lemma {:induction false} AssignUnfold(toks: seq<Token>, t: Target, scope: Scope, env: Env)
    requires t.ToVar? ==> FindVar(scope.vars, t.name).Some?
    requires toks != [] && Classify(toks[0], scope)
         == if t.ToVar? then Assigns(FindVar(scope.vars, t.name).value) else AssignsReg(t.reg)
    ensures OneStep(toks, scope, env) == ExprThen(toks[1..], scope, env, TargetCode(t, scope.vars))
  {
    hide Classify, ExprThen, EncodeAll, StoreVar, AssignReg, FindVar;
  }

  lemma {:induction false} NewStep(bits: nat, n: string, e: Expression, scope: Scope, env: Env, rest: seq<Token>)
    requires NamesOk(scope.vars) && CanDeclare(bits, n, scope.vars)
    requires ExprOk(e, scope.vars + [NewVar(bits, n, scope.vars)])
    ensures var v := NewVar(bits, n, scope.vars);
            var scope' := scope.(vars := scope.vars + [v]);
            OneStep([WordTok(TypeText(bits)), WordTok(n), Mark('=')] + ExprToks(e, Mark(';')) + rest, scope, env)
            == Go(EncodeAll(ExprInstrs(e, scope'.vars, env.ro)) + EncodeAll(StoreVar(v)), rest, scope')
  {
    var v := NewVar(bits, n, scope.vars);
    var scope' := scope.(vars := scope.vars + [v]);
    var toks := [WordTok(TypeText(bits)), WordTok(n), Mark('=')] + ExprToks(e, Mark(';')) + rest;
    DeclareTokens(bits, n, e, rest);
    ClassifyType(bits, scope);
    UseExpr(e, rest, scope', env, EncodeAll(StoreVar(v)));
    hide Classify, ExprThen, ExprToks, EncodeAll, ExprInstrs, StoreVar, TypeText, Compile, Parameters, Head, Drop;
    assert DeclareStep(toks[1..], bits, scope, env) == CompilerSpec.Declare(Drop(toks[1..], 2), bits, n, scope, env);
  }

  lemma {:induction false} SemicolonEnds()
    ensures Ends(Mark(';')) && Ends(Mark(','))
  {
  }

  lemma {:induction false} AssignClass(t: Target, scope: Scope)
    requires NamesOk(scope.vars)
    requires t.ToVar? ==> !Reserved(t.name) && FindVar(scope.vars, t.name).Some?
    ensures Classify(TargetTok(t), scope)
         == if t.ToVar? then Assigns(FindVar(scope.vars, t.name).value) else AssignsReg(t.reg)
  {
    hide *;
    match t {
      case ToVar(n) => ClassifyWord(n, scope);
      case ToReg(r) => ClassifyReg(r, scope);
    }
    TargetTokOf(t);
  }

  lemma {:induction false} TargetTokOf(t: Target)
    ensures TargetTok(t) == if t.ToVar? then WordTok(t.name) else WordTok(RegText(t.reg))
  {
  }

  lemma {:induction false} DeclareTokens(bits: nat, n: string, e: Expression, rest: seq<Token>)
    ensures var toks := [WordTok(TypeText(bits)), WordTok(n), Mark('=')] + ExprToks(e, Mark(';')) + rest;
            && toks[0] == WordTok(TypeText(bits))
            && Head(toks[1..]).text == n
            && Is(Head(Drop(toks[1..], 1)).text, '=')
            && Drop(toks[1..], 2) == ExprToks(e, Mark(';')) + rest
  {
    hide ExprToks, TypeText;
  }

  // ----- blocks in braces -----

  lemma {:induction false} BodyOpen(toks: seq<Token>, scope: Scope, env: Env)
    requires NamesOk(scope.vars)
    ensures Body([Mark('{')] + toks, scope, env) == Body(toks, scope.(enter := scope.enter + 1), env)
  {
    var all := [Mark('{')] + toks;
    assert all[0] == Mark('{') && all[1..] == toks;
    ClassifyMark('{', scope);
    hide *;
    OpenUnfold(all, scope, env);
    BodyGo(all, scope, env, [], toks, scope.(enter := scope.enter + 1));
    ContinueFrom(Body(toks, scope.(enter := scope.enter + 1), env));
  }

  lemma {:induction false} OpenUnfold(toks: seq<Token>, scope: Scope, env: Env)
    requires toks != [] && Classify(toks[0], scope) == Open
    ensures OneStep(toks, scope, env) == Go([], toks[1..], scope.(enter := scope.enter + 1))
  {
    hide Classify;
  }

  lemma {:induction false} BodyClose(toks: seq<Token>, scope: Scope, env: Env)
    requires NamesOk(scope.vars)
    ensures Body([Mark('}')] + toks, scope, env)
         == if scope.enter == 1 then Compiled([], scope.vars, scope.funcs)
            else Body(toks, scope.(enter := scope.enter - 1), env)
  {
    var all := [Mark('}')] + toks;
    assert all[0] == Mark('}') && all[1..] == toks;
    ClassifyMark('}', scope);
    hide *;
    CloseUnfold(all, scope, env);
    if scope.enter == 1 {
      BodyDone(all, scope, env);
    } else {
      BodyGo(all, scope, env, [], toks, scope.(enter := scope.enter - 1));
      ContinueFrom(Body(toks, scope.(enter := scope.enter - 1), env));
    }
  }

  lemma {:induction false} CloseUnfold(toks: seq<Token>, scope: Scope, env: Env)
    requires toks != [] && Classify(toks[0], scope) == Close
    ensures OneStep(toks, scope, env)
         == if scope.enter == 1 then Done else Go([], toks[1..], scope.(enter := scope.enter - 1))
  {
    hide Classify;
  }

  lemma {:induction false} BodyDone(toks: seq<Token>, scope: Scope, env: Env)
    requires toks != [] && OneStep(toks, scope, env) == Done
    ensures Body(toks, scope, env) == Compiled([], scope.vars, scope.funcs)
  {
    hide OneStep;
  }

  /** The block compiles to `code`, whatever follows, at brace depth `enter`. */
  ghost predicate Emits(inner: seq<Token>, enter: int, code: seq<byte>, vars: seq<Variable>, vars': seq<Variable>,
                        funcs: seq<Function>, env: Env, tail: seq<Token>)
  {
    Body(inner + tail, Scope(enter, vars, funcs), env) == Continue(code, Body(tail, Scope(enter, vars', funcs), env))
  }

  function Framed(code: seq<byte>, vars: seq<Variable>): seq<byte> {
    EncodeAll(Prologue(Wrap(FrameSize(vars)))) + code + EncodeAll(EPILOGUE)
  }

  /** The statement loop stops at the brace that closes its first block. */
  lemma {:induction false} BodyBraced(inner: seq<Token>, code: seq<byte>, vars: seq<Variable>, vars': seq<Variable>,
                                      funcs: seq<Function>, env: Env, more: seq<Token>)
    requires NamesOk(vars) && NamesOk(vars')
    requires Emits(inner, 1, code, vars, vars', funcs, env, [Mark('}')] + more)
    ensures Body(Braced(inner) + more, Scope(0, vars, funcs), env) == Compiled(code, vars', funcs)
  {
    var scope := Scope(0, vars, funcs);
    var rest := inner + ([Mark('}')] + more);
    BracedTokens(inner, more);
    hide NamesOk, Body, Braced;
    BodyOpen(rest, scope, env);
    BodyClose(more, Scope(1, vars', funcs), env);
    assert code + [] == code;
  }

  /** A block compiled into a buffer of its own. */
  lemma {:induction false} CompileBraced(inner: seq<Token>, code: seq<byte>, vars: seq<Variable>, vars': seq<Variable>,
                                         funcs: seq<Function>, env: Env, more: seq<Token>)
    requires NamesOk(vars) && NamesOk(vars')
    requires Emits(inner, 1, code, vars, vars', funcs, env, [Mark('}')] + more)
    ensures Compile(Braced(inner) + more, vars, funcs, env) == Compiled(Framed(code, vars'), vars', funcs)
  {
    BodyBraced(inner, code, vars, vars', funcs, env, more);
    hide NamesOk, Body, Braced, Prologue, EncodeAll, EPILOGUE, FrameSize, Emits;
  }

  lemma {:induction false} BracedTokens(inner: seq<Token>, more: seq<Token>)
    ensures Braced(inner) + more == [Mark('{')] + (inner + ([Mark('}')] + more))
  {
  }

  /** The same block compiled inline, inside open braces, lets the compilation go on. */
  lemma {:induction false} InlineBraced(inner: seq<Token>, enter: int, code: seq<byte>, vars: seq<Variable>,
                                        vars': seq<Variable>, funcs: seq<Function>, env: Env, more: seq<Token>)
    requires enter != 0 && NamesOk(vars) && NamesOk(vars')
    requires Emits(inner, enter + 1, code, vars, vars', funcs, env, [Mark('}')] + more)
    ensures Emits(Braced(inner), enter, code, vars, vars', funcs, env, more)
  {
    var rest := inner + ([Mark('}')] + more);
    BracedTokens(inner, more);
    hide NamesOk, Body, Braced;
    BodyOpen(rest, Scope(enter, vars, funcs), env);
    BodyClose(more, Scope(enter + 1, vars', funcs), env);
  }

  // ----- if and while -----

  lemma {:induction false} ConditionTokens(word: string, e: Expression, rest: seq<Token>)
    ensures var toks := [WordTok(word)] + ExprToks(e, Mark(';')) + rest;
            toks[0] == WordTok(word) && toks[1..] == ExprToks(e, Mark(';')) + rest
  {
    hide ExprToks;
  }

  lemma {:induction false} KeywordStep(toks: seq<Token>, scope: Scope, env: Env)
    requires toks != []
    ensures toks[0] == WordTok("if") ==> OneStep(toks, scope, env) == IfStep(toks[1..], scope, env)
    ensures toks[0] == WordTok("while") ==> OneStep(toks, scope, env) == WhileStep(toks[1..], scope, env)
  {
    ClassifyKeywords(scope);
    hide Classify, IfStep, WhileStep;
  }

  lemma {:induction false} IfUnfold(e: Expression, rest: seq<Token>, scope: Scope, env: Env, block: seq<byte>,
                                    vars: seq<Variable>)
    requires ExprOk(e, scope.vars)
    requires Compile(rest, scope.vars, scope.funcs, env) == Compiled(block, vars, scope.funcs)
    ensures OneStep([WordTok("if")] + ExprToks(e, Mark(';')) + rest, scope, env)
         == Go(EncodeAll(ExprInstrs(e, scope.vars, env.ro)) + EncodeAll(TestCode(|block| - 13)), rest, scope)
  {
    hide *;
    var toks := [WordTok("if")] + ExprToks(e, Mark(';')) + rest;
    ConditionTokens("if", e, rest);
    SemicolonEnds();
    ExprEmits(e, Mark(';'), rest, scope.vars, env.ro);
    KeywordStep(toks, scope, env);
    IfStepOf(toks[1..], scope, env);
  }

  lemma {:induction false} WhileUnfold(e: Expression, rest: seq<Token>, scope: Scope, env: Env, block: seq<byte>,
                                       vars: seq<Variable>)
    requires ExprOk(e, scope.vars)
    requires Compile(rest, scope.vars, scope.funcs, env) == Compiled(block, vars, scope.funcs)
    ensures OneStep([WordTok("while")] + ExprToks(e, Mark(';')) + rest, scope, env)
         == Go(WhileCode(EncodeAll(ExprInstrs(e, scope.vars, env.ro)), Inside(block)), SkipBlock(rest, 0), scope)
  {
    hide *;
    var toks := [WordTok("while")] + ExprToks(e, Mark(';')) + rest;
    ConditionTokens("while", e, rest);
    SemicolonEnds();
    ExprEmits(e, Mark(';'), rest, scope.vars, env.ro);
    KeywordStep(toks, scope, env);
    WhileStepOf(toks[1..], scope, env);
  }

  lemma {:induction false} FramedInside(code: seq<byte>, vars: seq<Variable>)
    ensures Inside(Framed(code, vars)) == code && |Framed(code, vars)| - 13 == |code|
  {
    InsideOf(Wrap(FrameSize(vars)), code);
  }

  // ----- calls -----

  /** What one argument leaves: `)` ends the list, any other token is dropped. */
  lemma {:induction false} ArgumentsUnfold(e: Expression, t: Token, rest: seq<Token>, vars: seq<Variable>, env: Env)
    requires ExprOk(e, vars)
    ensures var code := EncodeAll(ExprInstrs(e, vars, env.ro)) + Encode(Push(EBX));
            Arguments(ExprToks(e, Mark(',')) + ([t] + rest), vars, env)
            == if t.text == ")" then Args(code, 1, Drop(rest, 1)) else MoreArgs(code, 1, Arguments(rest, vars, env))
  {
    hide *;
    SemicolonEnds();
    ExprEmits(e, Mark(','), [t] + rest, vars, env.ro);
    assert |ExprToks(e, Mark(','))| >= 1 by { ExprToksLength(e, Mark(',')); }
    ArgumentsOf(ExprToks(e, Mark(',')) + ([t] + rest), vars, env);
    assert ([t] + rest)[0] == t && ([t] + rest)[1..] == rest;
  }

  lemma {:induction false} ExprToksLength(e: Expression, end: Token)
    ensures |ExprToks(e, end)| >= 1
  {
  }

  /** The first token of a later argument is never looked at unless it is `)`. */
  lemma {:induction false} LaterArgumentLosesToken(e: Expression, t: Token, t': Token, rest: seq<Token>,
                                                   vars: seq<Variable>, env: Env)
    requires ExprOk(e, vars) && t.text != ")" && t'.text != ")"
    ensures Arguments(ExprToks(e, Mark(',')) + ([t] + rest), vars, env)
         == Arguments(ExprToks(e, Mark(',')) + ([t'] + rest), vars, env)
  {
    hide *;
    ArgumentsUnfold(e, t, rest, vars, env);
    ArgumentsUnfold(e, t', rest, vars, env);
  }

  lemma {:induction false} ArgsLayout(args: seq<Expression>, rest: seq<Token>, vars: seq<Variable>, env: Env)
    requires args != [] && forall e | e in args :: ExprOk(e, vars)
    ensures Arguments(ArgsToks(args) + ([Mark(')'), Mark(';')] + rest), vars, env)
         == Args(ArgsCode(args, vars, env.ro), |args|, rest)
    decreases |args|
  {
    hide *;
    var tail := [Mark(')'), Mark(';')] + rest;
    var e := args[0];
    ArgsToksOf(args);
    ArgsCodeOf(args, vars, env.ro);
    ParenMarks();
    MoreArgsOf(EncodeAll(ExprInstrs(e, vars, env.ro)) + Encode(Push(EBX)), 1,
               Arguments(ArgsToks(args[1..]) + tail, vars, env));
    if |args| == 1 {
      ArgumentsUnfold(e, Mark(')'), [Mark(';')] + rest, vars, env);
      CallEnd(rest);
    } else {
      ArgsLayout(args[1..], rest, vars, env);
      var front, later := ExprToks(e, Mark(',')), ArgsToks(args[1..]);
      ArgumentsUnfold(e, Mark(','), later + tail, vars, env);
      Assoc(front + [Mark(',')], later, tail);
      Assoc(front, [Mark(',')], later + tail);
    }
  }

  lemma {:induction false} CallEnd(rest: seq<Token>)
    ensures [Mark(')'), Mark(';')] + rest == [Mark(')')] + ([Mark(';')] + rest)
    ensures Drop([Mark(';')] + rest, 1) == rest
  {
  }

  lemma {:induction false} ParenMarks()
    ensures Mark(')').text == ")" && Mark(',').text != ")" && Mark(';').text != ")" && Mark('&').text != ")"
  {
  }

  lemma {:induction false} ArgsCodeOf(args: seq<Expression>, vars: seq<Variable>, ro: RoData)
    requires args != [] && forall e | e in args :: ExprOk(e, vars)
    ensures var code := EncodeAll(ExprInstrs(args[0], vars, ro)) + Encode(Push(EBX));
            ArgsCode(args, vars, ro) == if |args| == 1 then code else code + ArgsCode(args[1..], vars, ro)
  {
    hide EncodeAll, Encode, ExprInstrs, ExprOk;
    if |args| == 1 {
      assert args[1..] == [];
    }
  }

  lemma {:induction false} MarkIs(c: char, d: char)
    ensures Is(Mark(c).text, d) <==> c == d
  {
  }

  lemma {:induction false} ArgsToksOf(args: seq<Expression>)
    requires args != []
    ensures ArgsToks(args) == if |args| == 1 then ExprToks(args[0], Mark(','))
                              else ExprToks(args[0], Mark(',')) + [Mark(',')] + ArgsToks(args[1..])
  {
  }

  lemma {:induction false} CallUnfold(toks: seq<Token>, f: Function, scope: Scope, env: Env)
    requires toks != [] && Classify(toks[0], scope) == Calls(f)
    ensures OneStep(toks, scope, env) == CallStep(toks[1..], f, scope, env)
  {
    hide Classify, CallStep;
  }

  lemma {:induction false} CallClass(n: string, vars: seq<Variable>, defs: seq<Def>, scope: Scope)
    requires !Reserved(n) && FindVar(scope.vars, n).None? && Tabled(scope.funcs, defs) && FindDef(defs, n).Some?
    ensures Classify(WordTok(n), scope) == Calls(scope.funcs[FindDef(defs, n).value])
  {
    FindFnOfDef(scope.funcs, defs, n);
    ClassifyWord(n, scope);
    hide Classify, FindVar, FindFn, FindDef, Reserved;
  }

  /** A call statement; without parentheses the token after the name is handed back, and the
      semicolon is a statement of its own. */
  lemma {:induction false} CallLayout(n: string, args: seq<Expression>, next: Block, vars: seq<Variable>,
                                      defs: seq<Def>, funcs: seq<Function>, env: Env, enter: int, rest: seq<Token>)
    requires BlockOk(Call(n, args, next), vars, defs) && NamesOk(vars) && Tabled(funcs, defs)
    ensures Body(Front(Call(n, args, next)) + rest, Scope(enter, vars, funcs), env)
         == Continue(ArgsCode(args, vars, env.ro) + EncodeAll(CallCode(funcs[FindDef(defs, n).value], |args|)),
                     Body(rest, Scope(enter, vars, funcs), env))
  {
    var scope := Scope(enter, vars, funcs);
    var f := funcs[FindDef(defs, n).value];
    var toks := Front(Call(n, args, next)) + rest;
    CallTokens(n, args, next, rest);
    assert args == [] ==> ArgsCode(args, vars, env.ro) == [];
    assert toks == Front(Call(n, args, next)) + rest;
    hide *;
    CallOk(n, args, next, vars, defs);
    CallClass(n, vars, defs, scope);
    if args == [] {
      BareCall(n, f, scope, env, rest);
    } else {
      ArgsLayout(args, rest, vars, env);
      FullCall(n, f, ArgsToks(args) + ([Mark(')'), Mark(';')] + rest), ArgsCode(args, vars, env.ro), |args|,
               scope, env, rest);
    }
  }

  lemma {:induction false} CallOk(n: string, args: seq<Expression>, next: Block, vars: seq<Variable>, defs: seq<Def>)
    requires BlockOk(Call(n, args, next), vars, defs)
    ensures !Reserved(n) && FindVar(vars, n).None? && FindDef(defs, n).Some?
    ensures (forall e | e in args :: ExprOk(e, vars))
  {
  }

  lemma {:induction false} CallTokens(n: string, args: seq<Expression>, next: Block, rest: seq<Token>)
    ensures Front(Call(n, args, next)) + rest
         == if args == [] then [WordTok(n)] + ([Mark(';')] + rest)
            else [WordTok(n), Mark('(')] + (ArgsToks(args) + ([Mark(')'), Mark(';')] + rest))
  {
    hide ArgsToks;
    if args != [] {
      Assoc([WordTok(n), Mark('(')], ArgsToks(args), [Mark(')')]);
      Assoc([WordTok(n), Mark('(')] + ArgsToks(args), [Mark(')')], [Mark(';')]);
      assert [Mark(')')] + [Mark(';')] == [Mark(')'), Mark(';')];
      Assoc([WordTok(n), Mark('(')] + ArgsToks(args), [Mark(')'), Mark(';')], rest);
      Assoc([WordTok(n), Mark('(')], ArgsToks(args), [Mark(')'), Mark(';')] + rest);
    }
  }

  lemma {:induction false} BareCall(n: string, f: Function, scope: Scope, env: Env, rest: seq<Token>)
    requires NamesOk(scope.vars) && Classify(WordTok(n), scope) == Calls(f)
    ensures Body([WordTok(n)] + ([Mark(';')] + rest), scope, env)
         == Continue([] + EncodeAll(CallCode(f, 0)), Body(rest, scope, env))
  {
    var toks := [WordTok(n)] + ([Mark(';')] + rest);
    assert toks[0] == WordTok(n) && toks[1..] == [Mark(';')] + rest;
    assert ([Mark(';')] + rest)[0] == Mark(';') && ([Mark(';')] + rest)[1..] == rest;
    ClassifyMark(';', scope);
    MarkIs(';', '(');
    hide Classify, Body, NamesOk, EncodeAll, CallCode, OneStep, Mark, WordTok, Is;
    CallUnfold(toks, f, scope, env);
    BodyGo(toks, scope, env, EncodeAll(CallCode(f, 0)), [Mark(';')] + rest, scope);
    SemicolonUnfold([Mark(';')] + rest, scope, env);
    BodyGo([Mark(';')] + rest, scope, env, [], rest, scope);
    ContinueFrom(Body(rest, scope, env));
    assert [] + EncodeAll(CallCode(f, 0)) == EncodeAll(CallCode(f, 0));
  }

  lemma {:induction false} SemicolonUnfold(toks: seq<Token>, scope: Scope, env: Env)
    requires toks != [] && Classify(toks[0], scope) == Semicolon
    ensures OneStep(toks, scope, env) == Go([], toks[1..], scope)
  {
    hide Classify;
  }

  lemma {:induction false} FullCall(n: string, f: Function, args: seq<Token>, code: seq<byte>, count: nat, scope: Scope,
                                    env: Env, rest: seq<Token>)
    requires Classify(WordTok(n), scope) == Calls(f)
    requires Arguments(args, scope.vars, env) == Args(code, count, rest)
    ensures Body([WordTok(n), Mark('(')] + args, scope, env)
         == Continue(code + EncodeAll(CallCode(f, count)), Body(rest, scope, env))
  {
    hide *;
    var toks := [WordTok(n), Mark('(')] + args;
    FullCallShape(n, args);
    ArgumentsShorter(args, scope.vars, env);
    CallUnfold(toks, f, scope, env);
    CallStepOf(toks[1..], f, scope, env);
    BodyGo(toks, scope, env, code + EncodeAll(CallCode(f, count)), rest, scope);
  }

  lemma {:induction false} FullCallShape(n: string, args: seq<Token>)
    ensures var toks := [WordTok(n), Mark('(')] + args;
            && toks != [] && toks[0] == WordTok(n) && Head(toks[1..]).text == "(" && Drop(toks[1..], 1) == args
            && |args| < |toks|
  {
  }

  lemma {:induction false} ArgumentsShorter(args: seq<Token>, vars: seq<Variable>, env: Env)
    ensures Arguments(args, vars, env).Args? ==> |Arguments(args, vars, env).rest| <= |args|
  {
    hide Arguments;
  }

  // ----- whole blocks -----

  lemma {:induction false} NextNames(b: Block, vars: seq<Variable>, defs: seq<Def>)
    requires !b.End? && BlockOk(b, vars, defs) && NamesOk(vars)
    ensures NamesOk(VarsNext(b, vars))
  {
    if b.If? {
      NamesAfter(b.body, vars, defs);
    }
  }

  lemma {:induction false} NextNoIf(b: Block)
    requires !b.End? && NoIf(b)
    ensures NoIf(b.next) && !b.If?
  {
  }

  lemma {:induction false} HeadCodeOf(b: Block, vars: seq<Variable>, defs: seq<Def>, funcs: seq<Function>, ro: RoData)
    requires !b.End? && BlockOk(b, vars, defs) && Tabled(funcs, defs)
    ensures BlockOk(b.next, VarsNext(b, vars), defs)
    ensures BlockCode(b, vars, defs, funcs, ro)
         == HeadCode(b, vars, defs, funcs, ro) + BlockCode(b.next, VarsNext(b, vars), defs, funcs, ro)
  {
    NextOk(b, vars, defs);
    hide BlockOk, HeadCode, VarsNext;
  }

  lemma {:induction false} IfEmits(e: Expression, inner: seq<Token>, code: seq<byte>, vars: seq<Variable>,
                                   vars': seq<Variable>, funcs: seq<Function>, env: Env, enter: int, more: seq<Token>)
    requires enter >= 1 && ExprOk(e, vars) && NamesOk(vars) && NamesOk(vars')
    requires Emits(inner, 1, code, vars, vars', funcs, env, [Mark('}')] + more)
    requires Emits(inner, enter + 1, code, vars, vars', funcs, env, [Mark('}')] + more)
    ensures Body([WordTok("if")] + ExprToks(e, Mark(';')) + (Braced(inner) + more), Scope(enter, vars, funcs), env)
         == Continue(IfCode(EncodeAll(ExprInstrs(e, vars, env.ro)), code), Body(more, Scope(enter, vars', funcs), env))
  {
    var scope := Scope(enter, vars, funcs);
    var rest := Braced(inner) + more;
    var toks := [WordTok("if")] + ExprToks(e, Mark(';')) + rest;
    var cond := EncodeAll(ExprInstrs(e, vars, env.ro));
    CompileBraced(inner, code, vars, vars', funcs, env, more);
    FramedInside(code, vars');
    InlineBraced(inner, enter, code, vars, vars', funcs, env, more);
    hide Body, Compile, OneStep, EncodeAll, ExprInstrs, ExprToks, Framed, Braced, NamesOk, TestCode, ExprOk;
    IfUnfold(e, rest, scope, env, Framed(code, vars'), vars');
    BodyGo(toks, scope, env, cond + EncodeAll(TestCode(|code|)), rest, scope);
    ContinueMore(cond + EncodeAll(TestCode(|code|)), code, Body(more, Scope(enter, vars', funcs), env));
  }

  lemma {:induction false} WhileEmits(e: Expression, inner: seq<Token>, code: seq<byte>, vars: seq<Variable>,
                                      funcs: seq<Function>, env: Env, enter: int, more: seq<Token>)
    requires ExprOk(e, vars) && NamesOk(vars)
    requires Emits(inner, 1, code, vars, vars, funcs, env, [Mark('}')] + more)
    requires SkipBlock(Braced(inner) + more, 0) == more
    ensures Body([WordTok("while")] + ExprToks(e, Mark(';')) + (Braced(inner) + more), Scope(enter, vars, funcs), env)
         == Continue(WhileCode(EncodeAll(ExprInstrs(e, vars, env.ro)), code),
                     Body(more, Scope(enter, vars, funcs), env))
  {
    var scope := Scope(enter, vars, funcs);
    var rest := Braced(inner) + more;
    var toks := [WordTok("while")] + ExprToks(e, Mark(';')) + rest;
    var cond := EncodeAll(ExprInstrs(e, vars, env.ro));
    CompileBraced(inner, code, vars, vars, funcs, env, more);
    FramedInside(code, vars);
    hide Body, Compile, OneStep, EncodeAll, ExprInstrs, ExprToks, Framed, Braced, NamesOk, WhileCode, ExprOk,
         SkipBlock, Inside;
    WhileUnfold(e, rest, scope, env, Framed(code, vars), vars);
    BodyGo(toks, scope, env, WhileCode(cond, code), more, scope);
  }

  lemma {:induction false} NoDeclarationsAfter(b: Block, vars: seq<Variable>)
    requires NoDeclarations(b)
    ensures VarsAfter(b, vars) == vars
    decreases b
  {
    if !b.End? {
      if b.If? {
        NoDeclarationsAfter(b.body, vars);
      }
      NoDeclarationsAfter(b.next, vars);
    }
  }

  lemma {:induction false} WhileBalanced(b: Block, vars: seq<Variable>, defs: seq<Def>)
    requires b.While? && BlockOk(b, vars, defs)
    ensures Balanced(Toks(b.body)) && NoDeclarations(b.body)
  {
    hide Balanced;
  }

  lemma {:induction false} BalancedIs(toks: seq<Token>)
    ensures Balanced(toks) <==> Walk(toks, 1) == Some(1)
  {
  }

  lemma {:induction false} WhileBody(b: Block, vars: seq<Variable>, defs: seq<Def>, more: seq<Token>)
    requires b.While? && BlockOk(b, vars, defs)
    ensures VarsAfter(b.body, vars) == vars
    ensures SkipBlock(Braced(Toks(b.body)) + more, 0) == more
  {
    NoDeclarationsAfter(b.body, vars);
    hide *;
    WhileBalanced(b, vars, defs);
    BalancedIs(Toks(b.body));
    SkipBraced(Toks(b.body), more);
  }

  /** The block of an `if` or `while`, up to its closing brace. */
  ghost predicate BodyEmits(b: Block, vars: seq<Variable>, defs: seq<Def>, funcs: seq<Function>, env: Env, enter: int,
                            more: seq<Token>)
    requires (b.If? || b.While?) && BlockOk(b, vars, defs) && Tabled(funcs, defs)
  {
    Emits(Toks(b.body), enter, BlockCode(b.body, vars, defs, funcs, env.ro), vars, VarsAfter(b.body, vars), funcs,
          env, [Mark('}')] + more)
  }

  /** Every first statement, given what its block emits. */
  lemma {:induction false} HeadEmits(b: Block, vars: seq<Variable>, defs: seq<Def>, funcs: seq<Function>, env: Env,
                                     enter: int, more: seq<Token>)
    requires !b.End? && BlockOk(b, vars, defs) && NamesOk(vars) && Tabled(funcs, defs)
    requires b.If? ==> enter >= 1
    requires b.If? || b.While? ==> BodyEmits(b, vars, defs, funcs, env, 1, more)
    requires b.If? ==> BodyEmits(b, vars, defs, funcs, env, enter + 1, more)
    ensures Body(Front(b) + (BodyToks(b) + more), Scope(enter, vars, funcs), env)
         == Continue(HeadCode(b, vars, defs, funcs, env.ro), Body(more, Scope(enter, VarsNext(b, vars), funcs), env))
  {
    hide Body, Emits, NamesOk, Toks, EncodeAll, ExprInstrs, WhileCode, IfCode, ExprToks, ArgsToks, ArgsCode,
         CallCode, TargetCode, Reserved, FindVar, Braced, FindDef, ExprOk;
    if b.If? {
      NamesAfter(b.body, vars, defs);
      IfEmits(b.cond, Toks(b.body), BlockCode(b.body, vars, defs, funcs, env.ro), vars, VarsAfter(b.body, vars),
              funcs, env, enter, more);
    } else if b.While? {
      WhileBody(b, vars, defs, more);
      WhileEmits(b.cond, Toks(b.body), BlockCode(b.body, vars, defs, funcs, env.ro), vars, funcs, env, enter, more);
    } else {
      assert BodyToks(b) + more == more;
      if b.Call? {
        CallLayout(b.name, b.args, b.next, vars, defs, funcs, env, enter, more);
      } else {
        PlainStep(b, vars, defs, funcs, env, enter, more);
        ToksOf(b, []);
        BodyGo(Front(b) + more, Scope(enter, vars, funcs), env, PlainCode(b, vars, defs, env.ro), more,
               Scope(enter, VarsNext(b, vars), funcs));
      }
    }
  }

  /** The compiler emits exactly the code of a block, at any brace depth that its `if`s allow,
      and comes out with the variables of the block added. */
  lemma {:induction false} BlockEmits(b: Block, vars: seq<Variable>, defs: seq<Def>, funcs: seq<Function>, env: Env,
                                      enter: int, tail: seq<Token>)
    requires BlockOk(b, vars, defs) && NamesOk(vars) && Tabled(funcs, defs)
    requires enter >= 1 || (enter == 0 && NoIf(b))
    ensures Emits(Toks(b), enter, BlockCode(b, vars, defs, funcs, env.ro), vars, VarsAfter(b, vars), funcs, env, tail)
    decreases b
  {
    hide *;
    if b.End? {
      EndEmits(vars, defs, funcs, env, enter, tail);
    } else {
      var more := Toks(b.next) + tail;
      var vars' := VarsNext(b, vars);
      NextOk(b, vars, defs);
      NextNames(b, vars, defs);
      if NoIf(b) {
        NextNoIf(b);
      }
      BlockEmits(b.next, vars', defs, funcs, env, enter, tail);
      if b.If? || b.While? {
        BlockEmits(b.body, vars, defs, funcs, env, 1, [Mark('}')] + more);
        BlockEmits(b.body, vars, defs, funcs, env, enter + 1, [Mark('}')] + more);
        BodyEmitsOf(b, vars, defs, funcs, env, 1, more);
        BodyEmitsOf(b, vars, defs, funcs, env, enter + 1, more);
      }
      HeadEmits(b, vars, defs, funcs, env, enter, more);
      ToksOf(b, tail);
      HeadCodeOf(b, vars, defs, funcs, env.ro);
      EmitsGlue(Toks(b), Toks(b.next), HeadCode(b, vars, defs, funcs, env.ro),
                BlockCode(b.next, vars', defs, funcs, env.ro),
                enter, vars, vars', VarsAfter(b, vars), funcs, env, tail);
    }
  }

  lemma {:induction false} EndEmits(vars: seq<Variable>, defs: seq<Def>, funcs: seq<Function>, env: Env, enter: int,
                                    tail: seq<Token>)
    requires Tabled(funcs, defs)
    ensures Emits(Toks(End), enter, BlockCode(End, vars, defs, funcs, env.ro), vars, VarsAfter(End, vars),
                  funcs, env, tail)
  {
    hide Body;
    assert [] + tail == tail;
    ContinueFrom(Body(tail, Scope(enter, vars, funcs), env));
  }

  lemma {:induction false} EmitsGlue(toks: seq<Token>, next: seq<Token>, head: seq<byte>, code: seq<byte>, enter: int,
                                     vars: seq<Variable>, vars': seq<Variable>, vars'': seq<Variable>,
                                     funcs: seq<Function>, env: Env, tail: seq<Token>)
    requires Body(toks + tail, Scope(enter, vars, funcs), env)
         == Continue(head, Body(next + tail, Scope(enter, vars', funcs), env))
    requires Emits(next, enter, code, vars', vars'', funcs, env, tail)
    ensures Emits(toks, enter, head + code, vars, vars'', funcs, env, tail)
  {
    hide Body;
    ContinueMore(head, code, Body(tail, Scope(enter, vars'', funcs), env));
  }

  lemma {:induction false} BodyEmitsOf(b: Block, vars: seq<Variable>, defs: seq<Def>, funcs: seq<Function>, env: Env,
                                       enter: int, more: seq<Token>)
    requires (b.If? || b.While?) && BlockOk(b, vars, defs) && Tabled(funcs, defs)
    ensures BlockOk(b.body, vars, defs)
    ensures BodyEmits(b, vars, defs, funcs, env, enter, more)
       <==> Emits(Toks(b.body), enter, BlockCode(b.body, vars, defs, funcs, env.ro), vars,
                  VarsAfter(b.body, vars), funcs, env, [Mark('}')] + more)
  {
    hide Emits, BlockCode, VarsAfter;
  }

  /** The pass that measures the block of an `if` and the pass that emits it agree, at every brace
      depth: the length is the same, and so is everything the skip must jump over. */
  lemma {:induction false} MeasureAgrees(b: Block, vars: seq<Variable>, defs: seq<Def>, funcs: seq<Function>, env: Env,
                                         enter: int, more: seq<Token>)
    requires BlockOk(b, vars, defs) && NamesOk(vars) && Tabled(funcs, defs) && enter >= 1
    ensures var measured := Compile(Braced(Toks(b)) + more, vars, funcs, env);
            var code := BlockCode(b, vars, defs, funcs, env.ro);
            && measured.Compiled? && |measured.code| - 13 == |code| && Inside(measured.code) == code
            && Body(Toks(b) + ([Mark('}')] + more), Scope(enter, vars, funcs), env)
               == Continue(code, Body([Mark('}')] + more, Scope(enter, VarsAfter(b, vars), funcs), env))
  {
    hide *;
    var code := BlockCode(b, vars, defs, funcs, env.ro);
    var vars' := VarsAfter(b, vars);
    NamesAfter(b, vars, defs);
    BlockEmits(b, vars, defs, funcs, env, 1, [Mark('}')] + more);
    CompileBraced(Toks(b), code, vars, vars', funcs, env, more);
    FramedInside(code, vars');
    BlockEmits(b, vars, defs, funcs, env, enter, [Mark('}')] + more);
    EmitsIs(Toks(b), enter, code, vars, vars', funcs, env, [Mark('}')] + more);
  }

  lemma {:induction false} EmitsIs(toks: seq<Token>, enter: int, code: seq<byte>, vars: seq<Variable>,
                                   vars': seq<Variable>, funcs: seq<Function>, env: Env, tail: seq<Token>)
    requires Emits(toks, enter, code, vars, vars', funcs, env, tail)
    ensures Body(toks + tail, Scope(enter, vars, funcs), env)
         == Continue(code, Body(tail, Scope(enter, vars', funcs), env))
  {
    hide Body;
  }

  /** A string in a block is a comment to the statement loop, but not to the loop that skips the
      block: a lone brace in it is counted, and the skip ends too late or too early. */
  lemma {:induction false} CommentInLoop(text: string, more: seq<Token>)
    ensures SkipBlock(Braced([Token(Text, text)]) + more, 0)
         == if text == "{" then SkipBlock(more, 1) else if text == "}" then [Mark('}')] + more else more
  {
    var toks := Braced([Token(Text, text)]) + more;
    assert toks[0] == Mark('{') && toks[1..] == [Token(Text, text), Mark('}')] + more;
    assert toks[1..][1..] == [Mark('}')] + more;
    assert ([Mark('}')] + more)[1..] == more;
    assert SkipBlock(toks, 0) == SkipBlock(toks[1..], 1);
    if text == "{" {
      assert SkipBlock(toks[1..], 1) == SkipBlock([Mark('}')] + more, 2);
    }
  }

  // ----- functions and whole texts -----

  /** The code of a function: frame, body, frame. */
  function FnCode(d: Def, defs: seq<Def>, funcs: seq<Function>, ro: RoData): seq<byte>
    requires BlockOk(d.body, ParamVars(d.params), defs) && Tabled(funcs, defs)
  {
    var vars := ParamVars(d.params);
    Framed(BlockCode(d.body, vars, defs, funcs, ro), VarsAfter(d.body, vars))
  }

  lemma {:induction false} ParamsLayout(ps: seq<Param>, vars: seq<Variable>, rel: int, rest: seq<Token>)
    requires |vars| + |ps| <= CAPACITY
    requires forall p | p in ps :: ValidBits(p.bits)
    ensures Parameters(ParamToks(ps) + ([Mark(')')] + rest), vars, rel) == Params(vars + ParamVarsFrom(ps, rel), rest)
    decreases |ps|
  {
    var toks := ParamToks(ps) + ([Mark(')')] + rest);
    if ps == [] {
      assert toks[0] == Mark(')') && toks[1..] == rest;
    } else {
      var v := Variable(ps[0].name, ps[0].bits, rel);
      var tail := ParamToks(ps[1..]) + ([Mark(')')] + rest);
      assert toks == [WordTok(TypeText(ps[0].bits)), WordTok(ps[0].name)] + tail;
      assert ps[0] in ps;
      ParamsLayout(ps[1..], vars + [v], rel - 4, rest);
      TypeOfText(ps[0].bits);
      assert |TypeText(ps[0].bits)| >= 2;
      hide Parameters, TypeFromName, TypeText;
      ParametersOf(toks, vars, rel, ps[0].bits, ps[0].name, tail);
      Assoc(vars, [v], ParamVarsFrom(ps[1..], rel - 4));
    }
  }

  lemma {:induction false} ParametersOf(toks: seq<Token>, vars: seq<Variable>, rel: int, bits: nat, name: string,
                                        tail: seq<Token>)
    requires toks == [WordTok(TypeText(bits)), WordTok(name)] + tail
    requires TypeFromName(TypeText(bits)) == Some(bits) && bits != 0 && |TypeText(bits)| >= 2 && |vars| < CAPACITY
    ensures Parameters(toks, vars, rel) == Parameters(tail, vars + [Variable(name, bits, rel)], rel - 4)
  {
    hide TypeFromName, TypeText;
    assert toks[0] == WordTok(TypeText(bits)) && Head(toks[1..]) == WordTok(name) && Drop(toks, 2) == tail;
  }

  lemma {:induction false} DefStepOf(toks: seq<Token>, bits: nat, name: string, params: seq<Token>, body: seq<Token>,
                                     vars: seq<Variable>, code: seq<byte>, vars': seq<Variable>, rest: seq<Token>,
                                     scope: Scope, env: Env)
    requires toks != [] && Classify(toks[0], scope) == Declares(bits)
    requires toks[1..] == [WordTok(name), Mark('(')] + params
    requires Parameters(params, [], -8) == Params(vars, body) && body != [] && body[0].kind == Special
    requires Compile(body, vars, scope.funcs, env) == Compiled(code, vars', scope.funcs)
    requires |scope.funcs| < CAPACITY && SkipBlock(body, 0) == rest
    ensures OneStep(toks, scope, env)
         == Go([], rest, scope.(funcs := scope.funcs + [Function(name, Address(env, |scope.funcs|), code)]))
  {
    var t := toks[1..];
    assert Head(t) == WordTok(name) && Head(Drop(t, 1)) == Mark('(') && Drop(t, 2) == params;
    MarkIs('(', '=');
    MarkIs('(', '<');
    MarkIs('(', '(');
    hide Classify, Parameters, Compile, SkipBlock, Mark, Is, Head, Drop, WordTok, Address;
    assert OneStep(toks, scope, env) == DeclareStep(t, bits, scope, env);
  }

  /** A function definition emits nothing and adds its code to the table. */
  lemma {:induction false} DefEmits(d: Def, defs: seq<Def>, funcs: seq<Function>, env: Env, scope: Scope,
                                    tail: seq<Token>)
    requires ParamsOk(d.params) && BlockOk(d.body, ParamVars(d.params), defs) && Delimited(d)
    requires Tabled(funcs, defs) && |funcs| < CAPACITY && scope.funcs == funcs
    ensures var f := Function(d.name, Address(env, |funcs|), FnCode(d, defs, funcs, env.ro));
            Body(DefToks(d) + tail, scope, env) == Body(tail, scope.(funcs := funcs + [f]), env)
  {
    hide *;
    var vars := ParamVars(d.params);
    var body := Braced(Toks(d.body)) + tail;
    var params := ParamToks(d.params) + ([Mark(')')] + body);
    var toks := DefToks(d) + tail;
    var code := FnCode(d, defs, funcs, env.ro);
    var scope' := scope.(funcs := funcs + [Function(d.name, Address(env, |funcs|), code)]);
    DefTokens(d, tail);
    DefFacts(d, defs, funcs, env.ro);
    DelimitedIs(d);
    DefCompiles(d, defs, funcs, env, tail);
    ParamsLayout(d.params, [], -8, body);
    assert [] + vars == vars;
    ClassifyType(d.bits, scope);
    DefStepOf(toks, d.bits, d.name, params, body, vars, code, VarsAfter(d.body, vars), tail, scope, env);
    BodyGo(toks, scope, env, [], tail, scope');
    ContinueFrom(Body(tail, scope', env));
  }

  lemma {:induction false} DefCompiles(d: Def, defs: seq<Def>, funcs: seq<Function>, env: Env, tail: seq<Token>)
    requires ParamsOk(d.params) && BlockOk(d.body, ParamVars(d.params), defs) && Tabled(funcs, defs) && Delimited(d)
    ensures var vars := ParamVars(d.params);
            Compile(Braced(Toks(d.body)) + tail, vars, funcs, env)
            == Compiled(FnCode(d, defs, funcs, env.ro), VarsAfter(d.body, vars), funcs)
    ensures SkipBlock(Braced(Toks(d.body)) + tail, 0) == tail
  {
    hide *;
    var vars := ParamVars(d.params);
    DefFacts(d, defs, funcs, env.ro);
    BlockEmits(d.body, vars, defs, funcs, env, 1, [Mark('}')] + tail);
    NamesAfter(d.body, vars, defs);
    CompileBraced(Toks(d.body), BlockCode(d.body, vars, defs, funcs, env.ro), vars, VarsAfter(d.body, vars),
                  funcs, env, tail);
    DelimitedIs(d);
    BalancedIs(Toks(d.body));
    SkipBraced(Toks(d.body), tail);
  }

  lemma {:induction false} DelimitedIs(d: Def)
    ensures Delimited(d) <==> TypeBits(d.bits) && Balanced(Toks(d.body))
  {
    hide Balanced, Toks;
  }

  lemma {:induction false} DefTokens(d: Def, tail: seq<Token>)
    ensures var body := Braced(Toks(d.body)) + tail;
            var toks := DefToks(d) + tail;
            && toks != [] && toks[0] == WordTok(TypeText(d.bits))
            && toks[1..] == [WordTok(d.name), Mark('(')] + (ParamToks(d.params) + ([Mark(')')] + body))
            && body != [] && body[0].kind == Special
  {
    var params, inner := ParamToks(d.params), Braced(Toks(d.body));
    assert DefToks(d) == [WordTok(TypeText(d.bits)), WordTok(d.name), Mark('(')] + params + [Mark(')')] + inner;
    assert inner[0] == Mark('{') && Mark('{').kind == Special by { hide Toks; }
    hide DefToks, ParamToks, Braced, Toks, Mark, TypeText;
    var start := [WordTok(TypeText(d.bits)), WordTok(d.name), Mark('(')];
    assert DefToks(d) + tail == start + (params + ([Mark(')')] + (inner + tail))) by {
      Assoc(start, params, [Mark(')')]);
      Assoc(start + params, [Mark(')')], inner);
      Assoc(start + params, [Mark(')')] + inner, tail);
      Assoc([Mark(')')], inner, tail);
      Assoc(start, params, [Mark(')')] + (inner + tail));
    }
  }

  lemma {:induction false} DefFacts(d: Def, defs: seq<Def>, funcs: seq<Function>, ro: RoData)
    requires ParamsOk(d.params) && BlockOk(d.body, ParamVars(d.params), defs) && Tabled(funcs, defs)
    ensures ValidBits(32) && |d.params| <= CAPACITY && (forall p | p in d.params :: ValidBits(p.bits))
    ensures NamesOk(ParamVars(d.params))
    ensures ParamVars(d.params) == ParamVarsFrom(d.params, -8)
    ensures FnCode(d, defs, funcs, ro)
         == Framed(BlockCode(d.body, ParamVars(d.params), defs, funcs, ro), VarsAfter(d.body, ParamVars(d.params)))
  {
    hide BlockOk, Tabled, BlockCode, VarsAfter, Framed, Reserved;
    var vars := ParamVars(d.params);
    forall v | v in vars
      ensures !Reserved(v.name)
    {
      var i :| 0 <= i < |vars| && vars[i] == v;
      assert d.params[i] in d.params;
    }
  }

  function DefsToks(ds: seq<Def>): seq<Token> {
    if ds == [] then [] else DefToks(ds[0]) + DefsToks(ds[1..])
  }

  lemma {:induction false} TabledMore(funcs: seq<Function>, defs: seq<Def>, n: nat)
    requires 0 < n <= |defs| && Tabled(funcs, defs[..n - 1])
    ensures forall f: Function | f.name == defs[n - 1].name :: Tabled(funcs + [f], defs[..n])
  {
    assert defs[..n] == defs[..n - 1] + [defs[n - 1]];
  }

  /** The table after the first n definitions. */
  function Table(defs: seq<Def>, env: Env, n: nat): (funcs: seq<Function>)
    requires DefsOk(defs) && n <= |defs|
    ensures Tabled(funcs, defs[..n])
    decreases n
  {
    if n == 0 then []
    else
      var funcs := Table(defs, env, n - 1);
      var d := defs[n - 1];
      TabledMore(funcs, defs, n);
      funcs + [Function(d.name, Address(env, n - 1), FnCode(d, defs[..n - 1], funcs, env.ro))]
  }

  lemma {:induction false} DefsEmit(defs: seq<Def>, n: nat, env: Env, tail: seq<Token>)
    requires DefsOk(defs) && n <= |defs| <= CAPACITY && forall d | d in defs :: Delimited(d)
    ensures Body(DefsToks(defs[n..]) + tail, Scope(0, [], Table(defs, env, n)), env)
         == Body(tail, Scope(0, [], Table(defs, env, |defs|)), env)
    decreases |defs| - n
  {
    if n == |defs| {
      assert DefsToks(defs[n..]) + tail == tail;
    } else {
      DefsEmit(defs, n + 1, env, tail);
      hide *;
      var d, funcs := defs[n], Table(defs, env, n);
      assert d in defs;
      DefsShape(defs, n, tail);
      TableStep(defs, env, n);
      DefEmits(d, defs[..n], funcs, env, Scope(0, [], funcs), DefsToks(defs[n + 1..]) + tail);
    }
  }

  lemma {:induction false} DefsShape(defs: seq<Def>, n: nat, tail: seq<Token>)
    requires n < |defs|
    ensures DefsToks(defs[n..]) + tail == DefToks(defs[n]) + (DefsToks(defs[n + 1..]) + tail)
  {
    assert defs[n..][0] == defs[n] && defs[n..][1..] == defs[n + 1..];
    hide DefToks;
    Assoc(DefToks(defs[n]), DefsToks(defs[n + 1..]), tail);
  }

  lemma {:induction false} TableStep(defs: seq<Def>, env: Env, n: nat)
    requires DefsOk(defs) && n < |defs|
    ensures |Table(defs, env, n)| == n && Tabled(Table(defs, env, n), defs[..n]) && ParamsOk(defs[n].params)
    ensures BlockOk(defs[n].body, ParamVars(defs[n].params), defs[..n])
    ensures var code := FnCode(defs[n], defs[..n], Table(defs, env, n), env.ro);
            Table(defs, env, n + 1) == Table(defs, env, n) + [Function(defs[n].name, Address(env, n), code)]
  {
    hide FnCode, BlockOk;
  }

  /** The main block stands in braces or, without any `if`, on its own. */
  function MainToks(main: Block, braced: bool): seq<Token> {
    if braced then Braced(Toks(main)) else Toks(main)
  }

  function UnitToks(defs: seq<Def>, main: Block, braced: bool): seq<Token> {
    DefsToks(defs) + MainToks(main, braced)
  }

  lemma {:induction false} MainEmits(main: Block, braced: bool, defs: seq<Def>, funcs: seq<Function>, env: Env)
    requires BlockOk(main, [], defs) && (braced || NoIf(main)) && Tabled(funcs, defs)
    ensures Body(MainToks(main, braced), Scope(0, [], funcs), env)
         == Compiled(BlockCode(main, [], defs, funcs, env.ro), VarsAfter(main, []), funcs)
  {
    hide *;
    var code := BlockCode(main, [], defs, funcs, env.ro);
    var vars' := VarsAfter(main, []);
    NoNames();
    MainToksOf(main, braced);
    if braced {
      NamesAfter(main, [], defs);
      BlockEmits(main, [], defs, funcs, env, 1, [Mark('}')] + []);
      BodyBraced(Toks(main), code, [], vars', funcs, env, []);
      assert Braced(Toks(main)) + [] == Braced(Toks(main));
    } else {
      BlockEmits(main, [], defs, funcs, env, 0, []);
      EmitsIs(Toks(main), 0, code, [], vars', funcs, env, []);
      assert Toks(main) + [] == Toks(main);
      NothingLeft(code, Scope(0, vars', funcs), env);
    }
  }

  lemma {:induction false} NoNames()
    ensures NamesOk([])
  {
  }

  lemma {:induction false} MainToksOf(main: Block, braced: bool)
    ensures MainToks(main, braced) == if braced then Braced(Toks(main)) else Toks(main)
  {
    hide Braced, Toks;
  }

  lemma {:induction false} NothingLeft(code: seq<byte>, scope: Scope, env: Env)
    ensures Continue(code, Body([], scope, env)) == Compiled(code, scope.vars, scope.funcs)
  {
    assert code + [] == code;
  }

  /** A text of function definitions and a main block compiles to the frame around the code of
      the main block, and fills the function table. */
  lemma {:induction false} UnitEmits(defs: seq<Def>, main: Block, braced: bool, env: Env)
    requires DefsOk(defs) && |defs| <= CAPACITY && forall d | d in defs :: Delimited(d)
    requires BlockOk(main, [], defs) && (braced || NoIf(main))
    ensures var funcs := Table(defs, env, |defs|);
            var vars := VarsAfter(main, []);
            && Tabled(funcs, defs)
            && Compile(UnitToks(defs, main, braced), [], [], env)
               == Compiled(Framed(BlockCode(main, [], defs, funcs, env.ro), vars), vars, funcs)
  {
    var funcs := Table(defs, env, |defs|);
    assert defs[..|defs|] == defs && defs[0..] == defs && Table(defs, env, 0) == [];
    DefsEmit(defs, 0, env, MainToks(main, braced));
    MainEmits(main, braced, defs, funcs, env);
    hide Body, BlockCode, MainToks, DefsToks, Table, VarsAfter, EncodeAll, Prologue, EPILOGUE, FrameSize, BlockOk,
         DefsOk, Tabled;
  }
}
