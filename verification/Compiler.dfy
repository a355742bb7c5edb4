/** The statement compiler as the program runs it: one pass over the text, one output buffer for
    each block, and the stack frame patched in at the end. */
module Compiler {
  import opened Wrappers
  import opened Sequences
  import opened Words
  import opened X86
  import opened Emitter
  import opened Tokenizer
  import opened Names
  import opened ExprCompiler
  import opened CompilerSpec

  // ----- positions in the text -----

  /** What is left to read from an offset on. */
  ghost predicate Ahead(text: string, sym: nat, toks: seq<Token>) {
    sym <= |text| && Lex(text[sym..]) == toks
  }

  /** A token has been read in front of a position: going back by the length of its last piece
      reads it again. */
  ghost predicate Read(text: string, cur: Cursor, toks: seq<Token>) {
    && cur.last <= cur.sym
    && cur.tok == Head(toks) && (cur.last == 0 <==> toks == [])
    && Ahead(text, cur.sym, Drop(toks, 1)) && Ahead(text, cur.sym - cur.last, toks)
    && (cur.tok.kind == Special || cur.last == 0 ==> |cur.tok.text| == cur.last)
  }

  lemma {:induction false} ReadFacts(text: string, cur: Cursor, toks: seq<Token>)
    requires Read(text, cur, toks)
    ensures cur.last <= cur.sym <= |text| && Ahead(text, cur.sym, Drop(toks, 1))
    ensures Ahead(text, cur.sym - cur.last, toks)
    ensures cur.last == 0 <==> toks == []
    ensures toks != [] ==> cur.tok == toks[0] && Drop(toks, 1) == toks[1..]
    ensures toks == [] ==> cur.tok == NO_TOKEN && Drop(toks, 1) == []
    ensures cur.tok == Head(toks)
    ensures cur.tok.kind == Special || cur.last == 0 ==> |cur.tok.text| == cur.last
  {
    hide Lex;
  }

  lemma {:induction false} AheadFacts(text: string, sym: nat, toks: seq<Token>)
    requires Ahead(text, sym, toks)
    ensures sym <= |text| && Lex(text[sym..]) == toks
  {
  }

  lemma {:induction false} LexOf(s: string)
    ensures Next(s).last == 0 <==> Lex(s) == []
    ensures Next(s).token == Head(Lex(s))
  {
    hide First;
  }

  /** Where a token's last piece starts, the text reads the same again. */
  lemma {:induction false} Unread(s: string)
    ensures Lex(s[Next(s).len - Next(s).last..]) == Lex(s)
    decreases |s|
  {
    hide First;
    var f := First(s);
    if f.token.text != "" || f.len == 0 {
      assert Next(s).last == f.len && s[f.len - f.len..] == s;
    } else {
      var t := s[f.len..];
      Unread(t);
      assert s[Next(s).len - Next(s).last..] == t[Next(t).len - Next(t).last..];
      assert s[Next(s).len..] == t[Next(t).len..];
    }
  }

  /** A special token takes as many characters as it has. */
  lemma {:induction false} SpecialLength(s: string)
    ensures Next(s).token.kind == Special ==> |Next(s).token.text| == Next(s).last
    ensures Next(s).last == 0 ==> Next(s).token.text == ""
    decreases |s|
  {
    var f := First(s);
    assert f.token.kind == Special ==> |f.token.text| == f.len;
    hide First;
    if f.token.text == "" && f.len > 0 {
      SpecialLength(s[f.len..]);
    }
  }

  lemma {:induction false} ReadOf(text: string, sym: nat, toks: seq<Token>)
    requires Ahead(text, sym, toks)
    ensures var n := Next(text[sym..]);
            Read(text, Cursor(sym + n.len, n.token, n.last), toks)
  {
    hide *;
    AheadFacts(text, sym, toks);
    var s := text[sym..];
    var n := Next(s);
    Unread(s);
    SpecialLength(s);
    LexOf(s);
    LexTail(s);
    TailTail(text, sym, n.len - n.last);
    TailTail(text, sym, n.len);
    ReadMake(text, Cursor(sym + n.len, n.token, n.last), toks);
  }

  lemma {:induction false} ReadMake(text: string, cur: Cursor, toks: seq<Token>)
    requires cur.last <= cur.sym <= |text|
    requires Lex(text[cur.sym..]) == Drop(toks, 1) && Lex(text[cur.sym - cur.last..]) == toks
    requires cur.tok == Head(toks) && (cur.last == 0 <==> toks == [])
    requires cur.tok.kind == Special || cur.last == 0 ==> |cur.tok.text| == cur.last
    ensures Read(text, cur, toks)
  {
    hide Lex, Drop, Head;
  }

  lemma {:induction false} TailTail(text: string, sym: nat, k: nat)
    requires sym + k <= |text|
    ensures text[sym..][k..] == text[sym + k..]
  {
  }

  /** NEXTTOK from a position. */
  method ReadToken(text: string, sym: nat, ghost toks: seq<Token>) returns (cur: Cursor)
    requires Ahead(text, sym, toks)
    ensures Read(text, cur, toks) && sym <= cur.sym - cur.last
  {
    hide *;
    AheadFacts(text, sym, toks);
    ReadOf(text, sym, toks);
    var tok, last, len := NextTok(text[sym..]);
    cur := Cursor(sym + len, tok, last);
  }

  // ----- one round of the loop -----

  /** Goes: the next token is read from `sym` on. Stops: the block's closing brace. */
  datatype Round = Goes(sym: nat, enter: int, vars: seq<Variable>) | Stops | Fails(why: Why)

  /** A round of the program did what the specification's step says. */
  ghost predicate Did(step: Step, text: string, before: seq<byte>, round: Round, after: seq<byte>, funcs: seq<Function>)
    {
    if round.Goes? then
      && step.Go? && after == before + step.code && step.scope == Scope(round.enter, round.vars, funcs)
      && Ahead(text, round.sym, step.rest)
    else if round.Stops? then step.Done? && after == before
    else step == Refused(round.why)
  }

  lemma {:induction false} DidGo(code: seq<byte>, rest: seq<Token>, text: string, before: seq<byte>, sym: nat,
                                 enter: int, vars: seq<Variable>, after: seq<byte>, funcs: seq<Function>)
    requires after == before + code && Ahead(text, sym, rest)
    ensures Did(Go(code, rest, Scope(enter, vars, funcs)), text, before, Goes(sym, enter, vars), after, funcs)
  {
  }

  lemma {:induction false} DidFail(why: Why, text: string, before: seq<byte>, after: seq<byte>, funcs: seq<Function>)
    ensures Did(Refused(why), text, before, Fails(why), after, funcs)
  {
  }

  lemma {:induction false} ExprThenOf(toks: seq<Token>, scope: Scope, env: Env, use: seq<byte>)
    ensures var r := Expr(toks, scope.vars, env.ro);
            && (r.Crashed? ==> ExprThen(toks, scope, env, use) == Refused(NullPointer))
            && (r.Emitted? ==> ExprThen(toks, scope, env, use) == Go(r.code + use, Drop(toks, r.used), scope))
  {
    hide Expr, Drop;
  }

  method FindFnLoop(funcs: seq<Function>, name: string) returns (r: Option<Function>)
    ensures r == FindFn(funcs, name)
  {
    var i := 0;
    assert funcs[0..] == funcs;
    while i < |funcs|
      invariant 0 <= i <= |funcs|
      invariant FindFn(funcs, name) == FindFn(funcs[i..], name)
    {
      if funcs[i].name == name {
        return Some(funcs[i]);
      }
      assert funcs[i..][1..] == funcs[i + 1..];
      i := i + 1;
    }
    return None;
  }

  /** The chain of comparisons. */
  method ClassifyToken(tok: Token, vars: seq<Variable>, funcs: seq<Function>, ghost enter: int) returns (c: Class)
    ensures c == Classify(tok, Scope(enter, vars, funcs))
  {
    hide FindVar, FindFn, TypeFromName, Register, IsOutside;
    var cvar := FindVarLoop(vars, tok.text);
    var ctype := TypeFromName(tok.text);
    var creg := Register(tok.text);
    if tok.kind == Text { return Comment; }
    if IsOutside(tok.text) { return Outside; }
    if ctype.Some? { return Declares(ctype.value); }
    if tok.text == "if" { return IfWord; }
    if tok.text == "include" { return Outside; }
    if tok.text == "while" { return WhileWord; }
    if tok.text == "{" { return Open; }
    if tok.text == "}" { return Close; }
    if cvar.Some? { return Assigns(cvar.value); }
    if creg.Some? { return AssignsReg(creg.value); }
    if tok.text == ";" { return Semicolon; }
    if tok.text == "*" { return StoresByte; }
    var cfunc := FindFnLoop(funcs, tok.text);
    c := if cfunc.Some? then Calls(cfunc.value) else Unknown;
  }

  // ----- skipping a block -----

  lemma {:induction false} SkipStep(toks: seq<Token>, depth: int)
    ensures toks == [] ==> SkipBlock(toks, depth) == []
    ensures toks != [] ==>
      var d := if toks[0].text == "{" then depth + 1 else depth;
      SkipBlock(toks, depth)
      == if toks[0].text == "}" then (if d == 1 then toks[1..] else SkipBlock(toks[1..], d - 1))
        else SkipBlock(toks[1..], d)
  {
  }

  /** The do-while loop behind a block, with its first token already read. */
  method SkipLoop(text: string, cur0: Cursor, ghost toks0: seq<Token>) returns (sym: nat)
    requires Read(text, cur0, toks0)
    ensures Ahead(text, sym, SkipBlock(toks0, 0)) && sym >= cur0.sym
  {
    hide *;
    var cur, depth := cur0, 0;
    ghost var toks := toks0;
    while true
      invariant Read(text, cur, toks) && cur.sym >= cur0.sym
      invariant SkipBlock(toks0, 0) == SkipBlock(toks, depth)
      decreases |toks|
    {
      ReadFacts(text, cur, toks);
      SkipStep(toks, depth);
      if cur.tok.text == "{" {
        depth := depth + 1;
      }
      if cur.tok.text == "}" {
        depth := depth - 1;
        if depth == 0 {
          return cur.sym;
        }
      }
      if cur.last == 0 {
        return cur.sym;
      }
      toks := toks[1..];
      cur := ReadToken(text, cur.sym, toks);
    }
  }

  // ----- the steps, case by case -----

  lemma {:induction false} ParametersStep(toks: seq<Token>, vars: seq<Variable>, rel: int)
    ensures toks != [] && toks[0].text == ")" ==> Parameters(toks, vars, rel) == Params(vars, toks[1..])
    ensures toks == [] ==> Parameters(toks, vars, rel) == BadParams(Overflow) && ParamBits("") == 255
    ensures toks != [] && toks[0].text != ")" ==>
              var bits := ParamBits(toks[0].text);
              && (bits == 0 ==> Parameters(toks, vars, rel) == BadParams(Invalid))
              && (bits != 0 && |vars| >= CAPACITY ==> Parameters(toks, vars, rel) == BadParams(Overflow))
              && (bits != 0 && |vars| < CAPACITY ==>
                    Parameters(toks, vars, rel)
                    == Parameters(Drop(Drop(toks, 1), 1), vars + [Variable(Head(Drop(toks, 1)).text, bits, rel)],
                      rel - 4))
  {
    assert toks != [] ==> Drop(Drop(toks, 1), 1) == Drop(toks, 2) && Drop(toks, 1) == toks[1..];
    assert TypeFromName("").None?;
    hide TypeFromName;
  }

  /** A parameter may not have the type of no size; a word that is no type gives it 255 bits. */
  lemma {:induction false} OddParameters(name: string, rest: seq<Token>, rel: int)
    ensures Parameters([Token(Word, "U0"), Token(Word, name)] + rest, [], rel) == BadParams(Invalid)
    ensures Parameters([Token(Word, "I32"), Token(Word, name), Token(Special, ")")] + rest, [], rel)
         == Params([Variable(name, 255, rel)], rest)
    ensures Parameters([], [], rel) == BadParams(Overflow)
  {
    hide *;
    OddTypes();
    var toks := [Token(Word, "I32"), Token(Word, name), Token(Special, ")")] + rest;
    TwoDropped(Token(Word, "I32"), Token(Word, name), [Token(Special, ")")] + rest);
    assert toks == [Token(Word, "I32"), Token(Word, name)] + ([Token(Special, ")")] + rest);
    ParametersStep([Token(Word, "U0"), Token(Word, name)] + rest, [], rel);
    ParametersStep(toks, [], rel);
    ParametersStep([Token(Special, ")")] + rest, [Variable(name, 255, rel)], rel - 4);
    assert ([Token(Special, ")")] + rest)[1..] == rest;
    assert [] + [Variable(name, 255, rel)] == [Variable(name, 255, rel)];
    ParametersStep([], [], rel);
  }

  lemma {:induction false} OddTypes()
    ensures ParamBits("U0") == 0 && ParamBits("I32") == 255 && CAPACITY == 8
  {
    TypeNames("");
    hide TypeFromName;
  }

  lemma {:induction false} TwoDropped(a: Token, b: Token, rest: seq<Token>)
    ensures Head(Drop([a, b] + rest, 1)) == b && Drop(Drop([a, b] + rest, 1), 1) == rest
  {
    assert ([a, b] + rest)[1..] == [b] + rest && ([b] + rest)[1..] == rest;
  }

  lemma {:induction false} DeclareOf(toks: seq<Token>, bits: nat, name: string, scope: Scope, env: Env)
    ensures FindVar(scope.vars, name).Some? ==> Declare(toks, bits, name, scope, env) == Refused(Invalid)
    ensures FindVar(scope.vars, name).None? && |scope.vars| >= CAPACITY ==>
              Declare(toks, bits, name, scope, env) == Refused(Overflow)
    ensures FindVar(scope.vars, name).None? && |scope.vars| < CAPACITY ==>
              var v := Variable(name, bits, NextRel(scope.vars));
              Declare(toks, bits, name, scope, env)
              == ExprThen(toks, scope.(vars := scope.vars + [v]), env, EncodeAll(StoreVar(v)))
  {
    hide FindVar, NextRel, ExprThen, StoreVar, EncodeAll;
  }

  lemma {:induction false} ArrayStepOf(toks: seq<Token>, bits: nat, name: string, scope: Scope)
    ensures var all := Mul32(bits, Atoi(Head(toks).text));
            var v := Variable(name, all, NextRel(scope.vars));
            ArrayStep(toks, bits, name, scope)
            == if |scope.vars| >= CAPACITY then Refused(Overflow)
               else if v.rel + all / 8 >= 0x8000_0000 then Refused(Unsupported)
               else Go([], Drop(Drop(toks, 1), 1), scope.(vars := scope.vars + [v]))
  {
    DropDrop(toks, 1, 1);
    hide Mul32, Atoi, Head, NextRel, Drop;
  }

  lemma {:induction false} DeclareStepOf(toks: seq<Token>, bits: nat, scope: Scope, env: Env)
    ensures var name, mark, rest := Head(toks).text, Head(Drop(toks, 1)).text, Drop(Drop(toks, 1), 1);
            && (mark == "=" ==> DeclareStep(toks, bits, scope, env) == Declare(rest, bits, name, scope, env))
            && (mark == "<" ==> DeclareStep(toks, bits, scope, env) == ArrayStep(rest, bits, name, scope))
            && (mark == "(" ==> DeclareStep(toks, bits, scope, env) == DefineStep(rest, name, scope, env))
            && (mark != "=" && mark != "<" && mark != "(" ==> DeclareStep(toks, bits, scope, env) == Refused(Invalid))
  {
    DropDrop(toks, 1, 1);
    hide Declare, ArrayStep, Parameters, Compile, SkipBlock, Head, Drop, Address;
  }

  /** `name < n >` behind a type: no code, and one variable more, of n elements. */
  lemma {:induction false} ArrayDeclared(name: Token, number: string, close: Token, rest: seq<Token>, bits: nat,
                                         scope: Scope, env: Env)
    ensures var size := (bits * Atoi(number)) % 0x1_0000_0000;
            var v := Variable(name.text, size, NextRel(scope.vars));
            |scope.vars| < 8 && v.rel + size / 8 < 0x8000_0000 ==>
              DeclareStep([name, Token(Special, "<"), Token(Number, number), close] + rest, bits, scope, env)
              == Go([], rest, scope.(vars := scope.vars + [v]))
  {
    hide *;
    var mark, inner := Token(Special, "<"), [Token(Number, number), close] + rest;
    var toks := [name, mark, Token(Number, number), close] + rest;
    assert toks == [name, mark] + inner;
    TwoDropped(name, mark, inner);
    TwoDropped(Token(Number, number), close, rest);
    HeadOf(toks);
    HeadOf(inner);
    DeclareStepOf(toks, bits, scope, env);
    ArrayStepOf(inner, bits, name.text, scope);
    MulIs(bits, Atoi(number));
    OddTypes();
  }

  lemma {:induction false} HeadOf(toks: seq<Token>)
    ensures toks != [] ==> Head(toks) == toks[0]
  {
  }

  lemma {:induction false} MulIs(a: int, b: int)
    ensures Mul32(a, b) == (a * b) % 0x1_0000_0000
  {
  }

  /** A function definition after its opening parenthesis. */
  function DefineStep(toks: seq<Token>, name: string, scope: Scope, env: Env): Step {
    match Parameters(toks, [], -8)
    case BadParams(why) => Refused(why)
    case Params(vars, body) => FunctionStep(body, name, vars, scope, env)
  }

  function FunctionStep(body: seq<Token>, name: string, vars: seq<Variable>, scope: Scope, env: Env): Step {
    if body != [] && body[0].kind != Special then Refused(Unsupported)
    else
      match Compile(body, vars, scope.funcs, env)
      case Failed(why) => Refused(why)
      case Compiled(code, _, funcs) =>
        if |funcs| >= CAPACITY then Refused(Overflow)
        else Go([], SkipBlock(body, 0), scope.(funcs := funcs + [Function(name, Address(env, |funcs|), code)]))
  }

  lemma {:induction false} DefineStepOf(toks: seq<Token>, name: string, scope: Scope, env: Env)
    ensures var ps := Parameters(toks, [], -8);
            && (ps.BadParams? ==> DefineStep(toks, name, scope, env) == Refused(ps.why))
            && (ps.Params? ==> DefineStep(toks, name, scope, env) == FunctionStep(ps.rest, name, ps.vars, scope, env))
  {
    hide Parameters, FunctionStep;
  }

  lemma {:induction false} FunctionStepOf(body: seq<Token>, name: string, vars: seq<Variable>, scope: Scope, env: Env)
    ensures body != [] && body[0].kind != Special ==> FunctionStep(body, name, vars, scope, env) == Refused(Unsupported)
    ensures body == [] || body[0].kind == Special ==>
              var r := Compile(body, vars, scope.funcs, env);
              FunctionStep(body, name, vars, scope, env)
              == if r.Failed? then Refused(r.why)
                 else if |r.funcs| >= CAPACITY then Refused(Overflow)
                 else
                   var f := Function(name, Address(env, |r.funcs|), r.code);
                   Go([], SkipBlock(body, 0), scope.(funcs := r.funcs + [f]))
  {
    hide Compile, SkipBlock, Address;
  }

  lemma {:induction false} OneStepOf(toks: seq<Token>, scope: Scope, env: Env)
    requires toks != []
    ensures var c, rest, step := Classify(toks[0], scope), toks[1..], OneStep(toks, scope, env);
            && (c.Comment? || c.Semicolon? ==> step == Go([], rest, scope))
            && (c.Outside? ==> step == Refused(Unsupported))
            && (c.Unknown? ==> step == Refused(Invalid))
            && (c.Open? ==> step == Go([], rest, scope.(enter := scope.enter + 1)))
            && (c.Close? ==> step == if scope.enter == 1 then Done else Go([], rest, scope.(enter := scope.enter - 1)))
            && (c.Assigns? ==> step == ExprThen(rest, scope, env, EncodeAll(StoreVar(c.v))))
            && (c.AssignsReg? ==> step == ExprThen(rest, scope, env, AssignReg(c.reg)))
            && (c.StoresByte? ==> step == StoreStep(rest, scope, env))
            && (c.Calls? ==> step == CallStep(rest, c.f, scope, env))
            && (c.Declares? ==> step == DeclareStep(rest, c.bits, scope, env))
            && (c.IfWord? ==> step == IfStep(rest, scope, env))
            && (c.WhileWord? ==> step == WhileStep(rest, scope, env))
    ensures OneStep(toks, scope, env).Go? ==> |OneStep(toks, scope, env).rest| < |toks|
  {
    hide Classify, ExprThen, StoreStep, CallStep, DeclareStep, IfStep, WhileStep, StoreVar, AssignReg, EncodeAll;
  }

  lemma {:induction false} StoreStepOf(toks: seq<Token>, scope: Scope, env: Env)
    ensures var v := FindVar(scope.vars, Head(toks).text);
            && (v.None? ==> StoreStep(toks, scope, env) == Refused(NullPointer))
            && (v.Some? ==>
                  var use := EncodeAll(StoreCode(v.value));
                  var r := Expr(Drop(toks, 1), scope.vars, env.ro);
                  && (r.Crashed? ==> StoreStep(toks, scope, env) == Refused(NullPointer))
                  && (r.Emitted? ==>
                        StoreStep(toks, scope, env) == Go(r.code + use, Drop(Drop(toks, 1), r.used), scope)))
  {
    hide FindVar, Head, Expr, Drop, StoreCode, EncodeAll;
  }

  lemma {:induction false} BodyOf(toks: seq<Token>, scope: Scope, env: Env)
    ensures toks == [] ==> Body(toks, scope, env) == Compiled([], scope.vars, scope.funcs)
    ensures toks != [] ==>
              var step := OneStep(toks, scope, env);
              Body(toks, scope, env)
              == if step.Refused? then Failed(step.why)
                 else if step.Done? then Compiled([], scope.vars, scope.funcs)
                 else Continue(step.code, Body(step.rest, step.scope, env))
  {
    hide OneStep;
  }

  /** What has been emitted, followed by what the rest of the text still gives. */
  lemma {:induction false} ContinueBody(done: seq<byte>, toks: seq<Token>, scope: Scope, env: Env)
    ensures var r := Continue(done, Body(toks, scope, env));
            && (toks == [] ==> r == Compiled(done, scope.vars, scope.funcs))
            && (toks != [] ==>
                  var step := OneStep(toks, scope, env);
                  r == if step.Refused? then Failed(step.why)
                       else if step.Done? then Compiled(done, scope.vars, scope.funcs)
                       else Continue(done + step.code, Body(step.rest, step.scope, env)))
  {
    hide *;
    BodyOf(toks, scope, env);
    ContinueOf(done, Body(toks, scope, env));
    if toks != [] && OneStep(toks, scope, env).Go? {
      var step := OneStep(toks, scope, env);
      ContinueMore(done, step.code, Body(step.rest, step.scope, env));
    }
  }

  lemma {:induction false} CompileOf(toks: seq<Token>, vars: seq<Variable>, funcs: seq<Function>, env: Env)
    ensures var r := Body(toks, Scope(0, vars, funcs), env);
            Compile(toks, vars, funcs, env)
            == if r.Failed? then r
               else Compiled(EncodeAll(Prologue(Wrap(FrameSize(r.vars)))) + r.code + EncodeAll(EPILOGUE),
                             r.vars, r.funcs)
  {
    hide Body, Prologue, FrameSize;
  }

  lemma {:induction false} CompiledLength(toks: seq<Token>, vars: seq<Variable>, funcs: seq<Function>, env: Env)
    ensures var r := Compile(toks, vars, funcs, env); r.Compiled? ==> |r.code| >= 13
  {
    hide *;
    CompileOf(toks, vars, funcs, env);
    var r := Body(toks, Scope(0, vars, funcs), env);
    if r.Compiled? {
      FrameLengths(Wrap(FrameSize(r.vars)));
    }
  }

  // ----- bytes in a row -----

  lemma {:induction false} AheadMake(text: string, sym: nat, toks: seq<Token>)
    requires sym <= |text| && Lex(text[sym..]) == toks
    ensures Ahead(text, sym, toks)
  {
  }

  lemma {:induction false} AheadStart(text: string)
    ensures Ahead(text, 0, Lex(text))
  {
    assert text[0..] == text;
  }

  lemma {:induction false} AfterPositive(text: string, n: nat)
    ensures n > 0 && Lex(text) != [] ==> After(text, n) > 0
    ensures After(text, 0) == 0
  {
    if n > 0 {
      LexOf(text);
    }
    hide Lex, Next;
  }

  lemma {:induction false} DropShorter(toks: seq<Token>, n: nat)
    ensures |Drop(toks, n)| <= |toks|
  {
  }

  lemma {:induction false} AppendTwo(before: seq<byte>, a: seq<byte>, b: seq<byte>, c: seq<byte>)
    ensures before + a + b + c == before + (a + (b + c))
  {
    Assoc(before + a, b, c);
    Assoc(before, a, b + c);
  }

  lemma {:induction false} AppendThree(before: seq<byte>, a: seq<byte>, b: seq<byte>, c: seq<byte>)
    ensures before + a + b + c == before + (a + b + c)
  {
    Assoc(before, a, b);
    Assoc(before, a + b, c);
  }

  lemma {:induction false} InsideLength(code: seq<byte>)
    ensures |code| >= 13 ==> |Inside(code)| == |code| - 13
  {
  }

  lemma {:induction false} DidStop(text: string, bytes: seq<byte>, funcs: seq<Function>)
    ensures Did(Done, text, bytes, Stops, bytes, funcs)
  {
  }

  lemma {:induction false} DidFacts(step: Step, text: string, before: seq<byte>, round: Round, after: seq<byte>,
                                    funcs: seq<Function>)
    requires Did(step, text, before, round, after, funcs)
    ensures round.Goes? ==> step.Go? && after == before + step.code
                            && step.scope == Scope(round.enter, round.vars, funcs)
                            && Ahead(text, round.sym, step.rest)
    ensures round.Stops? ==> step.Done? && after == before
    ensures round.Fails? ==> step == Refused(round.why)
  {
    hide Ahead;
  }

  lemma {:induction false} PrologueBytes(n: u32)
    ensures EncodeAll(Prologue(n)) == [0x55, 0x89, 0xE5, 0x81, 0xEC] + LeBytes(n, 4)
    ensures LeBytes(0xBEEF_55AA, 4) == [0xAA, 0x55, 0xEF, 0xBE]
    ensures Encode(MovRR(EBP, ESP)) == [0x89, 0xE5]
  {
    var a, b, c := Push(EBP), MovRR(EBP, ESP), AluImm(SubI, ESP, n);
    assert Prologue(n) == [a] + [b, c];
    assert Encode(a) == [0x55] && Encode(b) == [0x89, 0xE5] && Encode(c) == [0x81, 0xEC] + LeBytes(n, 4);
    LeBytes4(0xBEEF_55AA);
    hide Encode, EncodeAll, LeBytes;
    EncodeAllConcat([a], [b, c]);
    EncodeAllOne(a);
    EncodeAllTwo(b, c);
  }

  lemma {:induction false} EpilogueBytes()
    ensures EncodeAll(EPILOGUE) == [0x89, 0xEC, 0x5D, 0xC3] && Encode(MovRR(ESP, EBP)) == [0x89, 0xEC]
  {
    var a, b, c := MovRR(ESP, EBP), Pop(EBP), Ret;
    assert EPILOGUE == [a] + [b, c];
    assert Encode(a) == [0x89, 0xEC] && Encode(b) == [0x5D] && Encode(c) == [0xC3];
    hide Encode, EncodeAll;
    EncodeAllConcat([a], [b, c]);
    EncodeAllOne(a);
    EncodeAllTwo(b, c);
  }

  /** Patching the placeholder gives the frame of the right size. */
  lemma {:induction false} PatchedFrame(code: seq<byte>, n: u32)
    ensures var b := EncodeAll(Prologue(0xBEEF_55AA)) + code + EncodeAll(EPILOGUE);
            && |b| >= 9
            && b[..5] + LeBytes(n, 4) + b[9..] == EncodeAll(Prologue(n)) + code + EncodeAll(EPILOGUE)
  {
    PrologueBytes(0xBEEF_55AA);
    PrologueBytes(n);
    var head: seq<byte> := [0x55, 0x89, 0xE5, 0x81, 0xEC];
    var end, old4 := EncodeAll(EPILOGUE), LeBytes(0xBEEF_55AA, 4);
    hide *;
    var b := head + old4 + code + end;
    assert b[..5] == head;
    assert b[9..] == code + end;
    Assoc(head + LeBytes(n, 4), code, end);
  }

  // ----- the program -----

  /** The list that the compiler returns, or the reason it gives up. */
  datatype Output = Bytes(code: seq<byte>) | Error(why: Why)

  /** Env holds what the compiler is told: where string literals and the code of the n-th
      function are kept. */
  class UxCompiler {
    const env: Env
    /** The buffer that the encoders append to. */
    var output: CodeBuffer
    var functions: seq<Function>

    constructor (env: Env)
      ensures this.env == env && functions == [] && fresh(output)
    {
      this.env := env;
      output := new CodeBuffer();
      functions := [];
    }

    /** An expression: its bytes are appended, the text is read up to its terminator. */
    method Evaluate(text: string, sym: nat, ghost toks: seq<Token>, vars: seq<Variable>)
      returns (crashed: bool, sym': nat)
      requires Ahead(text, sym, toks)
      modifies output
      ensures var r := Expr(toks, vars, env.ro);
              && crashed == r.Crashed?
              && (r.Emitted? ==> output.bytes == old(output.bytes) + r.code)
              && (r.Emitted? ==> sym' >= sym && Ahead(text, sym', Drop(toks, r.used)))
              && (r.Emitted? && toks != [] ==> (sym' == sym <==> r.used == 0))
    {
      hide *;
      AheadFacts(text, sym, toks);
      var n;
      n, crashed := CompilerExpr(text[sym..], vars, env.ro, output);
      sym' := sym;
      if !crashed {
        sym' := sym + n;
        ghost var r := Expr(toks, vars, env.ro);
        LexAfter(text[sym..], r.used);
        AfterPositive(text[sym..], r.used);
        TailTail(text, sym, n);
        AheadMake(text, sym', Drop(toks, r.used));
      }
    }

    /** An assignment: the value goes to a variable. */
    method AssignPart(text: string, sym: nat, ghost toks: seq<Token>, enter: int, vars: seq<Variable>, v: Variable)
      returns (round: Round)
      requires Ahead(text, sym, toks)
      modifies output
      ensures !round.Stops?
      ensures Did(ExprThen(toks, Scope(enter, vars, functions), env, EncodeAll(StoreVar(v))), text, old(output.bytes),
                  round, output.bytes, functions)
    {
      hide *;
      ghost var before, r := output.bytes, Expr(toks, vars, env.ro);
      ExprThenOf(toks, Scope(enter, vars, functions), env, EncodeAll(StoreVar(v)));
      var crashed, sym' := Evaluate(text, sym, toks, vars);
      if crashed {
        DidFail(NullPointer, text, before, output.bytes, functions);
        return Fails(NullPointer);
      }
      EmitStore(v);
      Assoc(before, r.code, EncodeAll(StoreVar(v)));
      DidGo(r.code + EncodeAll(StoreVar(v)), Drop(toks, r.used), text, before, sym', enter, vars, output.bytes,
            functions);
      return Goes(sym', enter, vars);
    }

    method EmitStore(v: Variable)
      modifies output
      ensures output.bytes == old(output.bytes) + EncodeAll(StoreVar(v))
    {
      hide EncodeAll;
      output.MovReg2Disp32(EBP, EBX, -v.rel, v.bits / 8);
    }

    method EmitAssignReg(r: Reg)
      modifies output
      ensures output.bytes == old(output.bytes) + AssignReg(r)
    {
      hide Encode;
      if r != EBX {
        output.MovReg2Reg32(r, EBX);
      }
    }

    method AssignRegPart(text: string, sym: nat, ghost toks: seq<Token>, enter: int, vars: seq<Variable>, r: Reg)
      returns (round: Round)
      requires Ahead(text, sym, toks)
      modifies output
      ensures !round.Stops?
      ensures Did(ExprThen(toks, Scope(enter, vars, functions), env, AssignReg(r)), text, old(output.bytes),
                  round, output.bytes, functions)
    {
      hide *;
      ghost var before, e := output.bytes, Expr(toks, vars, env.ro);
      ExprThenOf(toks, Scope(enter, vars, functions), env, AssignReg(r));
      var crashed, sym' := Evaluate(text, sym, toks, vars);
      if crashed {
        DidFail(NullPointer, text, before, output.bytes, functions);
        return Fails(NullPointer);
      }
      EmitAssignReg(r);
      Assoc(before, e.code, AssignReg(r));
      DidGo(e.code + AssignReg(r), Drop(toks, e.used), text, before, sym', enter, vars, output.bytes, functions);
      return Goes(sym', enter, vars);
    }

    method EmitStoreByte(v: Variable)
      modifies output
      ensures output.bytes == old(output.bytes) + EncodeAll(StoreCode(v))
    {
      hide EncodeAll, LoadSized, StoreSized;
      EncodeAllConcat(LoadSized(EDX, EBP, -v.rel, 4), StoreSized(EDX, EBX, 0, 1));
      Assoc(output.bytes, EncodeAll(LoadSized(EDX, EBP, -v.rel, 4)), EncodeAll(StoreSized(EDX, EBX, 0, 1)));
      output.MovDisp2Reg32(EDX, EBP, -v.rel, 4);
      output.MovReg2Disp32(EDX, EBX, 0, 1);
    }

    /** `*x e`: the value goes to the byte that x points to. */
    method StorePart(text: string, sym: nat, ghost toks: seq<Token>, enter: int, vars: seq<Variable>)
      returns (round: Round)
      requires Ahead(text, sym, toks)
      modifies output
      ensures !round.Stops?
      ensures Did(StoreStep(toks, Scope(enter, vars, functions), env), text, old(output.bytes), round,
                  output.bytes, functions)
    {
      hide *;
      ghost var before, rest := output.bytes, Drop(toks, 1);
      ghost var e := Expr(rest, vars, env.ro);
      StoreStepOf(toks, Scope(enter, vars, functions), env);
      var cur := ReadToken(text, sym, toks);
      ReadFacts(text, cur, toks);
      var cvar := FindVarLoop(vars, cur.tok.text);
      var crashed, sym' := Evaluate(text, cur.sym, rest, vars);
      if crashed || cvar.None? {
        DidFail(NullPointer, text, before, output.bytes, functions);
        return Fails(NullPointer);
      }
      var v := cvar.value;
      EmitStoreByte(v);
      Assoc(before, e.code, EncodeAll(StoreCode(v)));
      DidGo(e.code + EncodeAll(StoreCode(v)), Drop(rest, e.used), text, before, sym', enter, vars, output.bytes,
            functions);
      return Goes(sym', enter, vars);
    }

    method EmitPush(r: Reg)
      modifies output
      ensures output.bytes == old(output.bytes) + Encode(Push(r))
    {
      output.Emit(0x50 + r);
    }

    /** The arguments: each is pushed, the last one before a closing parenthesis. */
    method ArgumentLoop(text: string, sym0: nat, ghost toks0: seq<Token>, vars: seq<Variable>)
      returns (bad: Option<Why>, sym: nat, shift: nat)
      requires Ahead(text, sym0, toks0)
      modifies output
      ensures var r := Arguments(toks0, vars, env);
              if r.BadArgs? then bad == Some(r.why)
              else bad.None? && output.bytes == old(output.bytes) + r.code && shift == 4 * r.count
                   && sym >= sym0 && Ahead(text, sym, r.rest)
    {
      hide *;
      ghost var before, toks, done, n := output.bytes, toks0, [], 0;
      sym, shift := sym0, 0;
      NoMoreArgs(Arguments(toks0, vars, env));
      while true
        invariant Ahead(text, sym, toks) && shift == 4 * n && sym >= sym0
        invariant output.bytes == before + done
        invariant Arguments(toks0, vars, env) == MoreArgs(done, n, Arguments(toks, vars, env))
        decreases |toks|
      {
        ghost var e := Expr(toks, vars, env.ro);
        ArgumentsOf(toks, vars, env);
        MoreArgsOf(done, n, Arguments(toks, vars, env));
        var crashed, sym1 := Evaluate(text, sym, toks, vars);
        if crashed {
          return Some(NullPointer), sym, shift;
        }
        EmitPush(EBX);
        shift := shift + 4;
        ghost var code, after := e.code + Encode(Push(EBX)), Drop(toks, e.used);
        AppendTwo(before, done, e.code, Encode(Push(EBX)));
        var cur := ReadToken(text, sym1, after);
        ReadFacts(text, cur, after);
        if cur.last == 0 {
          return Some(Unsupported), sym, shift;
        }
        if cur.tok.text == ")" {
          cur := ReadToken(text, cur.sym, after[1..]);
          ReadFacts(text, cur, after[1..]);
          return None, cur.sym, shift;
        }
        DropShorter(toks, e.used);
        if sym1 == sym {
          return None, cur.sym, shift;
        }
        MoreArgsTwice(done, n, code, 1, Arguments(after[1..], vars, env));
        sym, toks, done, n := cur.sym, after[1..], done + code, n + 1;
      }
    }

    method EmitCall(f: Function, ghost count: nat, shift: nat)
      requires shift == 4 * count
      modifies output
      ensures output.bytes == old(output.bytes) + EncodeAll(CallCode(f, count))
    {
      hide Encode, EncodeAll;
      ghost var done: seq<Instr> := [];
      ghost var start := output.bytes;
      EncodeAllNone();
      output.MovImm2Reg32(EDX, f.addr);
      done := Appended(start, done, MovRI(EDX, f.addr));
      output.CallReg32(EDX);
      done := Appended(start, done, CallReg(EDX));
      if shift > 0 {
        output.AddImm2Reg32(ESP, Wrap(shift));
        done := Appended(start, done, AluImm(AddI, ESP, Wrap(shift)));
      }
      assert done == CallCode(f, count);
    }

    /** A call: the token after the name is read, and given back when it is no parenthesis. */
    method CallPart(text: string, sym: nat, ghost toks: seq<Token>, enter: int, vars: seq<Variable>, f: Function)
      returns (round: Round)
      requires Ahead(text, sym, toks)
      modifies output
      ensures !round.Stops?
      ensures Did(CallStep(toks, f, Scope(enter, vars, functions), env), text, old(output.bytes), round,
                  output.bytes, functions)
    {
      hide *;
      ghost var before, scope := output.bytes, Scope(enter, vars, functions);
      CallStepOf(toks, f, scope, env);
      var cur := ReadToken(text, sym, toks);
      ReadFacts(text, cur, toks);
      if cur.tok.text == "(" {
        ghost var args := Arguments(Drop(toks, 1), vars, env);
        var bad, sym', shift := ArgumentLoop(text, cur.sym, Drop(toks, 1), vars);
        if bad.Some? {
          DidFail(bad.value, text, before, output.bytes, functions);
          return Fails(bad.value);
        }
        EmitCall(f, args.count, shift);
        Assoc(before, args.code, EncodeAll(CallCode(f, args.count)));
        DidGo(args.code + EncodeAll(CallCode(f, args.count)), args.rest, text, before, sym', enter, vars,
              output.bytes, functions);
        return Goes(sym', enter, vars);
      } else {
        EmitCall(f, 0, 0);
        DidGo(EncodeAll(CallCode(f, 0)), toks, text, before, cur.sym - cur.last, enter, vars, output.bytes, functions);
        return Goes(cur.sym - cur.last, enter, vars);
      }
    }

    /** A declaration whose name and `=` have been read. */
    method DeclarePart(text: string, sym: nat, ghost toks: seq<Token>, enter: int, vars: seq<Variable>, bits: nat,
                       name: string)
      returns (round: Round)
      requires Ahead(text, sym, toks)
      modifies output
      ensures !round.Stops?
      ensures Did(Declare(toks, bits, name, Scope(enter, vars, functions), env), text, old(output.bytes),
                  round, output.bytes, functions)
    {
      hide *;
      DeclareOf(toks, bits, name, Scope(enter, vars, functions), env);
      var known := FindVarLoop(vars, name);
      if known.Some? {
        DidFail(Invalid, text, output.bytes, output.bytes, functions);
        return Fails(Invalid);
      }
      if |vars| >= CAPACITY {
        DidFail(Overflow, text, output.bytes, output.bytes, functions);
        return Fails(Overflow);
      }
      var v := Variable(name, bits, NextRel(vars));
      round := AssignPart(text, sym, toks, enter, vars + [v], v);
    }

    /** A local array whose name and `<` have been read: its number, and the token that closes it. */
    method ArrayPart(text: string, sym: nat, ghost toks: seq<Token>, enter: int, vars: seq<Variable>, bits: nat,
                     name: string)
      returns (round: Round)
      requires Ahead(text, sym, toks)
      ensures !round.Stops?
      ensures Did(ArrayStep(toks, bits, name, Scope(enter, vars, functions)), text, output.bytes, round,
                  output.bytes, functions)
    {
      hide *;
      ghost var bytes := output.bytes;
      ArrayStepOf(toks, bits, name, Scope(enter, vars, functions));
      var cur := ReadToken(text, sym, toks);
      ReadFacts(text, cur, toks);
      var all := Mul32(bits, Atoi(cur.tok.text));
      if |vars| >= CAPACITY {
        DidFail(Overflow, text, bytes, bytes, functions);
        return Fails(Overflow);
      }
      var v := Variable(name, all, NextRel(vars));
      if v.rel + all / 8 >= 0x8000_0000 {
        DidFail(Unsupported, text, bytes, bytes, functions);
        return Fails(Unsupported);
      }
      cur := ReadToken(text, cur.sym, Drop(toks, 1));
      ReadFacts(text, cur, Drop(toks, 1));
      assert bytes + [] == bytes;
      DidGo([], Drop(Drop(toks, 1), 1), text, bytes, cur.sym, enter, vars + [v], bytes, functions);
      return Goes(cur.sym, enter, vars + [v]);
    }

    method EmitTest(skip: int)
      modifies output
      ensures output.bytes == old(output.bytes) + EncodeAll(TestCode(skip))
    {
      hide Encode, EncodeAll;
      output.CmpImm2Reg32(EBX, 0);
      output.JeImm32(skip);
      EncodeAllTwo(AluImm(CmpI, EBX, 0), JumpIf(Equal, Wrap(skip)));
      Assoc(old(output.bytes), Encode(AluImm(CmpI, EBX, 0)), Encode(JumpIf(Equal, Wrap(skip))));
    }

    /** `if`: the block is compiled once to measure it, and again by the rounds that follow. */
    method IfPart(text: string, sym: nat, ghost toks: seq<Token>, enter: int, vars: seq<Variable>)
      returns (round: Round)
      requires Ahead(text, sym, toks) && sym > 0
      modifies this, output
      ensures !round.Stops?
      ensures Did(IfStep(toks, Scope(enter, vars, old(functions)), env), text, old(output.bytes), round,
                  output.bytes, functions)
      ensures output == old(output)
      decreases |text|, 1
    {
      hide *;
      ghost var before, e, funcs := output.bytes, Expr(toks, vars, env.ro), functions;
      IfStepOf(toks, Scope(enter, vars, functions), env);
      var crashed, sym' := Evaluate(text, sym, toks, vars);
      if crashed {
        DidFail(NullPointer, text, before, output.bytes, functions);
        return Fails(NullPointer);
      }
      ghost var rest := Drop(toks, e.used);
      AheadFacts(text, sym', rest);
      var block := Compiler(text[sym'..], vars);
      if block.Error? {
        DidFail(block.why, text, before, output.bytes, functions);
        return Fails(block.why);
      }
      EmitTest(|block.code| - 13);
      Assoc(before, e.code, EncodeAll(TestCode(|block.code| - 13)));
      DidGo(e.code + EncodeAll(TestCode(|block.code| - 13)), rest, text, before, sym', enter, vars, output.bytes,
            functions);
      return Goes(sym', enter, vars);
    }

    /** The loop that copies a compiled block without its frame. */
    method CopyBlock(block: seq<byte>)
      requires |block| >= 13
      modifies output
      ensures output.bytes == old(output.bytes) + Inside(block)
    {
      var count := |block| - 13;
      for i := 0 to count
        invariant output.bytes == old(output.bytes) + block[9..9 + i]
      {
        output.Emit(block[9 + i]);
        assert block[9..9 + i] + [block[9 + i]] == block[9..9 + i + 1];
      }
    }

    /** `while`: the block is compiled in a buffer of its own and copied between the jumps. */
    method WhilePart(text: string, sym: nat, ghost toks: seq<Token>, enter: int, vars: seq<Variable>)
      returns (round: Round)
      requires Ahead(text, sym, toks) && sym > 0
      modifies this, output
      ensures !round.Stops?
      ensures Did(WhileStep(toks, Scope(enter, vars, old(functions)), env), text, old(output.bytes), round,
                  output.bytes, functions)
      ensures output == old(output)
      decreases |text|, 1
    {
      hide *;
      ghost var before, e := output.bytes, Expr(toks, vars, env.ro);
      WhileStepOf(toks, Scope(enter, vars, functions), env);
      var start := |output.bytes|;
      var crashed, sym' := Evaluate(text, sym, toks, vars);
      if crashed {
        DidFail(NullPointer, text, before, output.bytes, functions);
        return Fails(NullPointer);
      }
      ghost var rest := Drop(toks, e.used);
      AheadFacts(text, sym', rest);
      CompiledLength(rest, vars, functions, env);
      var block := Compiler(text[sym'..], vars);
      if block.Error? {
        DidFail(block.why, text, before, output.bytes, functions);
        return Fails(block.why);
      }
      InsideLength(block.code);
      EmitTest(|block.code| - 13 + 5);
      CopyBlock(block.code);
      var cur := ReadToken(text, sym', rest);
      sym' := SkipLoop(text, cur, rest);
      ghost var loop := e.code + EncodeAll(TestCode(|Inside(block.code)| + 5)) + Inside(block.code);
      AppendThree(before, e.code, EncodeAll(TestCode(|Inside(block.code)| + 5)), Inside(block.code));
      output.JmpImm32(-(|output.bytes| - start) - 5);
      Assoc(before, loop, Encode(Jump(Wrap(-|loop| - 5))));
      WhileCodeOf(e.code, Inside(block.code));
      DidGo(WhileCode(e.code, Inside(block.code)), SkipBlock(rest, 0), text, before, sym', enter, vars,
            output.bytes, functions);
      return Goes(sym', enter, vars);
    }

    /** The parameters of a function, its opening parenthesis already read; `cur` is the token
        after the closing one. */
    method ParameterLoop(text: string, sym: nat, ghost toks0: seq<Token>)
      returns (bad: Option<Why>, cur: Cursor, vars: seq<Variable>)
      requires Ahead(text, sym, toks0)
      ensures var r := Parameters(toks0, [], -8);
              if r.BadParams? then bad == Some(r.why)
              else bad.None? && vars == r.vars && Read(text, cur, r.rest) && cur.sym - cur.last >= sym
    {
      hide *;
      cur := ReadToken(text, sym, toks0);
      var rel := -8;
      vars := [];
      ghost var toks := toks0;
      while true
        invariant Read(text, cur, toks) && cur.sym >= sym
        invariant Parameters(toks0, [], -8) == Parameters(toks, vars, rel)
        decreases CAPACITY - |vars|
      {
        ReadFacts(text, cur, toks);
        ParametersStep(toks, vars, rel);
        if cur.tok.text == ")" {
          cur := ReadToken(text, cur.sym, toks[1..]);
          return None, cur, vars;
        }
        var bits := ParamBits(cur.tok.text);
        if bits == 0 {
          return Some(Invalid), cur, vars;
        }
        cur := ReadToken(text, cur.sym, Drop(toks, 1));
        ReadFacts(text, cur, Drop(toks, 1));
        if |vars| >= CAPACITY {
          return Some(Overflow), cur, vars;
        }
        vars := vars + [Variable(cur.tok.text, bits, rel)];
        cur := ReadToken(text, cur.sym, Drop(Drop(toks, 1), 1));
        ReadFacts(text, cur, Drop(Drop(toks, 1), 1));
        toks, rel := Drop(Drop(toks, 1), 1), rel - 4;
        ParametersStep(toks, vars, rel);
      }
    }

    /** A function definition, its opening parenthesis already read. */
    method DefinePart(text: string, sym: nat, ghost toks: seq<Token>, enter: int, vars: seq<Variable>, name: string)
      returns (round: Round)
      requires Ahead(text, sym, toks) && sym > 0
      modifies this, output
      ensures !round.Stops?
      ensures Did(DefineStep(toks, name, Scope(enter, vars, old(functions)), env), text, old(output.bytes),
                  round, output.bytes, functions)
      ensures output == old(output)
      decreases |text|, 1
    {
      hide *;
      ghost var before, ps := output.bytes, Parameters(toks, [], -8);
      DefineStepOf(toks, name, Scope(enter, vars, functions), env);
      var bad, cur, params := ParameterLoop(text, sym, toks);
      if bad.Some? {
        DidFail(bad.value, text, before, output.bytes, functions);
        return Fails(bad.value);
      }
      FunctionStepOf(ps.rest, name, params, Scope(enter, vars, functions), env);
      ReadFacts(text, cur, ps.rest);
      if cur.last > 0 && cur.tok.kind != Special {
        DidFail(Unsupported, text, before, output.bytes, functions);
        return Fails(Unsupported);
      }
      var p := cur.sym - |cur.tok.text|;
      AheadFacts(text, p, ps.rest);
      var block := Compiler(text[p..], params);
      if block.Error? {
        DidFail(block.why, text, before, output.bytes, functions);
        return Fails(block.why);
      }
      if |functions| >= CAPACITY {
        DidFail(Overflow, text, before, output.bytes, functions);
        return Fails(Overflow);
      }
      functions := functions + [Function(name, Address(env, |functions|), block.code)];
      var sym' := SkipLoop(text, cur, ps.rest);
      DidGo([], SkipBlock(ps.rest, 0), text, before, sym', enter, vars, output.bytes, functions);
      return Goes(sym', enter, vars);
    }

    /** A type: a declaration or a function definition. */
    method TypePart(text: string, sym: nat, ghost toks: seq<Token>, enter: int, vars: seq<Variable>, bits: nat)
      returns (round: Round)
      requires Ahead(text, sym, toks) && sym > 0
      modifies this, output
      ensures !round.Stops?
      ensures Did(DeclareStep(toks, bits, Scope(enter, vars, old(functions)), env), text, old(output.bytes),
                  round, output.bytes, functions)
      ensures output == old(output)
      decreases |text|, 2
    {
      hide *;
      DeclareStepOf(toks, bits, Scope(enter, vars, functions), env);
      var cur := ReadToken(text, sym, toks);
      ReadFacts(text, cur, toks);
      var name := cur.tok.text;
      cur := ReadToken(text, cur.sym, Drop(toks, 1));
      ReadFacts(text, cur, Drop(toks, 1));
      ghost var rest := Drop(Drop(toks, 1), 1);
      if cur.tok.text == "=" {
        round := DeclarePart(text, cur.sym, rest, enter, vars, bits, name);
      } else if cur.tok.text == "<" {
        round := ArrayPart(text, cur.sym, rest, enter, vars, bits, name);
      } else if cur.tok.text == "(" {
        round := DefinePart(text, cur.sym, rest, enter, vars, name);
      } else {
        DidFail(Invalid, text, output.bytes, output.bytes, functions);
        round := Fails(Invalid);
      }
    }

    /** Statements that only move the reader. */
    method SimplePart(text: string, sym: nat, ghost toks: seq<Token>, enter: int, vars: seq<Variable>, ghost tok: Token,
                      class_: Class)
      returns (round: Round)
      requires Ahead(text, sym, toks) && class_ == Classify(tok, Scope(enter, vars, functions))
      requires class_.Comment? || class_.Outside? || class_.Open? || class_.Close? || class_.Semicolon?
               || class_.Unknown?
      ensures Did(OneStep([tok] + toks, Scope(enter, vars, functions), env), text, output.bytes, round,
                  output.bytes, functions)
    {
      hide *;
      OneStepOf([tok] + toks, Scope(enter, vars, functions), env);
      assert ([tok] + toks)[1..] == toks;
      ghost var bytes := output.bytes;
      assert bytes + [] == bytes;
      if class_.Outside? {
        DidFail(Unsupported, text, bytes, bytes, functions);
        round := Fails(Unsupported);
      } else if class_.Unknown? {
        DidFail(Invalid, text, bytes, bytes, functions);
        round := Fails(Invalid);
      } else if class_.Open? {
        DidGo([], toks, text, bytes, sym, enter + 1, vars, bytes, functions);
        round := Goes(sym, enter + 1, vars);
      } else if class_.Close? {
        if enter - 1 == 0 {
          DidStop(text, bytes, functions);
          round := Stops;
        } else {
          DidGo([], toks, text, bytes, sym, enter - 1, vars, bytes, functions);
          round := Goes(sym, enter - 1, vars);
        }
      } else {
        DidGo([], toks, text, bytes, sym, enter, vars, bytes, functions);
        round := Goes(sym, enter, vars);
      }
    }

    /** One round: the current token has been read. */
    method Statement(text: string, cur: Cursor, ghost toks: seq<Token>, enter: int, vars: seq<Variable>)
      returns (round: Round)
      requires Read(text, cur, toks) && toks != []
      modifies this, output
      ensures round.Stops? ==> functions == old(functions)
      ensures Did(OneStep(toks, Scope(enter, vars, old(functions)), env), text, old(output.bytes), round,
                  output.bytes, functions)
      ensures output == old(output)
      decreases |text|, 3
    {
      hide *;
      ReadFacts(text, cur, toks);
      ghost var rest := toks[1..];
      OneStepOf(toks, Scope(enter, vars, functions), env);
      var c := ClassifyToken(cur.tok, vars, functions, enter);
      if c.Declares? {
        round := TypePart(text, cur.sym, rest, enter, vars, c.bits);
      } else if c.IfWord? {
        round := IfPart(text, cur.sym, rest, enter, vars);
      } else if c.WhileWord? {
        round := WhilePart(text, cur.sym, rest, enter, vars);
      } else if c.Assigns? {
        round := AssignPart(text, cur.sym, rest, enter, vars, c.v);
      } else if c.AssignsReg? {
        round := AssignRegPart(text, cur.sym, rest, enter, vars, c.reg);
      } else if c.StoresByte? {
        round := StorePart(text, cur.sym, rest, enter, vars);
      } else if c.Calls? {
        round := CallPart(text, cur.sym, rest, enter, vars, c.f);
      } else {
        assert toks == [toks[0]] + rest;
        round := SimplePart(text, cur.sym, rest, enter, vars, toks[0], c);
      }
    }

    /** The prologue with its placeholder for the frame size. */
    method EmitPrologue()
      modifies output
      ensures output.bytes == old(output.bytes) + EncodeAll(Prologue(0xBEEF_55AA))
    {
      ghost var start := output.bytes;
      output.Emit(0x50 + EBP);
      output.MovReg2Reg32(EBP, ESP);
      output.Emit(0x81);
      output.Emit(0xEC);
      output.Emit(0xAA);
      output.Emit(0x55);
      output.Emit(0xEF);
      output.Emit(0xBE);
      PrologueBytes(0xBEEF_55AA);
      assert output.bytes == start + EncodeAll(Prologue(0xBEEF_55AA));
    }

    method EmitEpilogue()
      modifies output
      ensures output.bytes == old(output.bytes) + EncodeAll(EPILOGUE)
    {
      ghost var start := output.bytes;
      output.MovReg2Reg32(ESP, EBP);
      output.Emit(0x58 + EBP);
      output.Emit(0xC3);
      EpilogueBytes();
      assert output.bytes == start + EncodeAll(EPILOGUE);
    }

    /** The loop over the statements of the text, behind the prologue. */
    method Statements(text: string, parvars: seq<Variable>) returns (round: Round)
      modifies this, output
      ensures output == old(output)
      ensures var b := Body(Lex(text), Scope(0, parvars, old(functions)), env);
              if b.Failed? then round == Fails(b.why)
              else round.Goes? && round.vars == b.vars && functions == b.funcs
                   && output.bytes == old(output.bytes) + b.code
      decreases |text|, 4
    {
      hide *;
      ghost var toks, goal, done := Lex(text), Body(Lex(text), Scope(0, parvars, functions), env), [];
      AheadStart(text);
      var cur := ReadToken(text, 0, toks);
      ReadFacts(text, cur, toks);
      ghost var start := output.bytes;
      assert start + done == start;
      ContinueFrom(goal);
      var enter, vars, stop := 0, parvars, false;
      while cur.last > 0 && !stop
        invariant output == old(output)
        invariant output.bytes == start + done
        invariant Read(text, cur, toks)
        invariant cur.last == 0 <==> toks == []
        invariant !stop ==> goal == Continue(done, Body(toks, Scope(enter, vars, functions), env))
        invariant stop ==> goal == Compiled(done, vars, functions)
        decreases !stop, |toks|
      {
        ghost var step, before := OneStep(toks, Scope(enter, vars, functions), env), output.bytes;
        ContinueBody(done, toks, Scope(enter, vars, functions), env);
        round := Statement(text, cur, toks, enter, vars);
        DidFacts(step, text, before, round, output.bytes, functions);
        if round.Fails? {
          return;
        }
        if round.Stops? {
          stop := true;
        } else {
          enter, vars := round.enter, round.vars;
          Assoc(start, done, step.code);
          toks, done := step.rest, done + step.code;
          cur := ReadToken(text, round.sym, toks);
          ReadFacts(text, cur, toks);
        }
      }
      if !stop {
        ContinueBody(done, toks, Scope(enter, vars, functions), env);
      }
      round := Goes(cur.sym, enter, vars);
    }

    /** Compiles the text up to its end or the brace that closes its first block. The result is
        what the specification says, in a buffer of its own: the caller's buffer is back in place
        and unchanged. */
    method Compiler(text: string, parvars: seq<Variable>) returns (r: Output)
      modifies this
      ensures output == old(output)
      ensures var c := Compile(Lex(text), parvars, old(functions), env);
              if c.Failed? then r == Error(c.why) else r == Bytes(c.code) && functions == c.funcs
      decreases |text|, 5
    {
      hide *;
      var prev := output;
      output := new CodeBuffer();
      CompileOf(Lex(text), parvars, functions, env);
      ghost var body := Body(Lex(text), Scope(0, parvars, functions), env);
      EmitPrologue();
      var round := Statements(text, parvars);
      if round.Fails? {
        output := prev;
        return Error(round.why);
      }
      EmitEpilogue();
      PatchedFrame(body.code, Wrap(FrameSize(round.vars)));
      output.Patch32(5, Wrap(FrameSize(round.vars)));
      r := Bytes(output.bytes);
      output := prev;
    }
  }
}
