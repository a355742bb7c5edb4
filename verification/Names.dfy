/** Names and numbers as the compiler reads them: string comparison, decimal and hexadecimal
    literals, registers, types, and the list of variables. */
module Names {
  import opened Wrappers
  import opened Words
  import opened X86
  import opened Tokenizer

  /** A variable lives at EBP - rel; parameters have a negative rel. */
  datatype Variable = Variable(name: string, bits: nat, rel: int)

  // ----- comparison -----

  /** StrCmp: zero exactly for equal strings. */
  method StrCmp(a: string, b: string) returns (d: int)
    requires forall k | 0 <= k < |a| :: a[k] != '\0'
    requires forall k | 0 <= k < |b| :: b[k] != '\0'
    ensures d == 0 <==> a == b
  {
    var i := 0;
    while i < |b| && CharAt(a, i) == CharAt(b, i)
      invariant i <= |a| && i <= |b| && a[..i] == b[..i]
    {
      i := i + 1;
    }
    d := CharAt(a, i) as int - CharAt(b, i) as int;
    assert d == 0 ==> i == |a| == |b|;
  }

  // ----- literals -----

  function Digit(c: char): Option<nat> {
    if '0' <= c <= '9' then Some((c - '0') as int)
    else if 'A' <= c <= 'F' then Some((c - 'A') as int + 10)
    else if 'a' <= c <= 'f' then Some((c - 'a') as int + 10)
    else None
  }

  /** The sixteen digits, the last six in both cases. */
  lemma {:induction false} Digits(c: char, d: nat)
    ensures Digit(c) == Some(d) <==> d < 16 && (c == "0123456789abcdef"[d] || c == "0123456789ABCDEF"[d])
  {
  }

  /** One character of a literal; characters that are not digits of the base are skipped. */
  function AtoiStep(v: u32, base: nat, c: char): u32 {
    match Digit(c)
    case None => v
    case Some(d) => if d < base then Add32(v * base, d) else v
  }

  function AtoiFrom(v: u32, base: nat, s: string): u32
    decreases |s|
  {
    if s == [] then v else AtoiFrom(AtoiStep(v, base, s[0]), base, s[1..])
  }

  function IsHex(s: string): bool {
    |s| >= 2 && s[0] == '0' && s[1] == 'x'
  }

  function Atoi(s: string): u32 {
    if IsHex(s) then AtoiFrom(0, 16, s[2..]) else AtoiFrom(0, 10, s)
  }

  method AtoiLoop(s: string) returns (v: u32)
    ensures v == Atoi(s)
  {
    v := 0;
    var base, i := 10, 0;
    if IsHex(s) {
      base, i := 16, 2;
    }
    assert s[0..] == s;
    while i < |s|
      invariant base == 10 || base == 16
      invariant 0 <= i <= |s|
      invariant Atoi(s) == AtoiFrom(v, base, s[i..])
    {
      var c := s[i];
      assert s[i..][1..] == s[i + 1..];
      if base == 10 {
        if '0' <= c <= '9' {
          v := Add32(v * 10, (c - '0') as int);
        }
      } else if '0' <= c <= '9' {
        v := Add32(v * 16, (c - '0') as int);
      } else if 'A' <= c <= 'F' {
        v := Add32(v * 16, (c - 'A') as int + 10);
      } else if 'a' <= c <= 'f' {
        v := Add32(v * 16, (c - 'a') as int + 10);
      }
      i := i + 1;
    }
  }

  /** The value of a numeral: every digit weighs a power of the base, the last one 1. */
  function Numeral(s: string, base: nat): nat
    requires forall c | c in s :: Digit(c).Some? && Digit(c).value < base
    decreases |s|
  {
    if s == [] then 0
    else
      var last := |s| - 1;
      assert s[last] in s;
      var n := Numeral(s[..last], base);
      MulMono(n, 0, base);
      n * base + Digit(s[last]).value
  }

  lemma {:induction false} AtoiSnoc(v: u32, base: nat, s: string, c: char)
    ensures AtoiFrom(v, base, s + [c]) == AtoiStep(AtoiFrom(v, base, s), base, c)
    decreases |s|
  {
    if s == [] {
      assert s + [c] == [c];
      assert AtoiFrom(AtoiStep(v, base, c), base, []) == AtoiStep(v, base, c);
    } else {
      assert (s + [c])[1..] == s[1..] + [c];
      AtoiSnoc(AtoiStep(v, base, s[0]), base, s[1..], c);
    }
  }

  /** A literal means its numeral modulo 2^32. */
  lemma {:induction false} AtoiNumeral(s: string, base: nat)
    requires base == 10 || base == 16
    requires forall c | c in s :: Digit(c).Some? && Digit(c).value < base
    ensures AtoiFrom(0, base, s) == Numeral(s, base) % 0x1_0000_0000
    decreases |s|
  {
    if s != [] {
      var init, c := s[..|s| - 1], s[|s| - 1];
      assert c in s;
      assert s == init + [c];
      AtoiNumeral(init, base);
      AtoiSnoc(0, base, init, c);
      NumeralSnoc(init, c, base);
      StepDigit(AtoiFrom(0, base, init), base, c);
      hide *;
      WrapStep(Numeral(init, base), base, Digit(c).value);
    }
  }

  lemma {:induction false} NumeralSnoc(s: string, c: char, base: nat)
    requires forall d | d in s + [c] :: Digit(d).Some? && Digit(d).value < base
    ensures Digit(c).Some? && (forall d | d in s :: Digit(d).Some? && Digit(d).value < base)
    ensures Numeral(s + [c], base) == Numeral(s, base) * base + Digit(c).value
  {
    assert c in s + [c] && (s + [c])[..|s|] == s;
    forall d | d in s
      ensures d in s + [c]
    {
    }
    hide Digit;
  }

  lemma {:induction false} StepDigit(v: u32, base: nat, c: char)
    requires (base == 10 || base == 16) && Digit(c).Some? && Digit(c).value < base
    ensures AtoiStep(v, base, c) == (v * base + Digit(c).value) % 0x1_0000_0000
  {
  }

  lemma {:induction false} WrapStep(n: nat, base: nat, d: nat)
    requires base == 10 || base == 16
    ensures ((n % 0x1_0000_0000) * base + d) % 0x1_0000_0000 == (n * base + d) % 0x1_0000_0000
  {
    var p := 0x1_0000_0000;
    var q, r := n / p, n % p;
    var x := r * base + d;
    assert n * base + d == (q * base) * p + x by {
      assert n == q * p + r;
      assert (q * p + r) * base == (q * base) * p + r * base;
    }
    assert x == (x / p) * p + x % p;
    ModUnique(n * base + d, p, q * base + x / p, x % p);
  }

  /** The tokenizer reads "-5" as one number, and its value is 5: the sign is skipped. */
  lemma {:induction false} MinusIsSkipped(digits: string)
    ensures Atoi("-" + digits) == AtoiFrom(0, 10, digits)
  {
    var s := "-" + digits;
    assert s[0] == '-' && s[1..] == digits;
    assert AtoiStep(0, 10, '-') == 0;
  }

  /** The lost sign matters unless the value is 0 or 2^31; -5 is 5. */
  lemma {:induction false} MinusMatters(digits: string)
    ensures var v := AtoiFrom(0, 10, digits);
            Atoi("-" + digits) == Sub32(0, v) <==> v == 0 || v == 0x8000_0000
    ensures Atoi("-5") == 5
  {
    MinusIsSkipped(digits);
    MinusIsSkipped("5");
    assert "-" + "5" == "-5";
    assert AtoiFrom(5, 10, []) == 5;
    assert "5"[1..] == [];
    hide AtoiFrom;
  }

  // ----- registers, types, variables -----

  function Register(name: string): Option<Reg> {
    match name
    case "eax" => Some(EAX)
    case "ebx" => Some(EBX)
    case "ecx" => Some(ECX)
    case "edx" => Some(EDX)
    case "esp" => Some(ESP)
    case "ebp" => Some(EBP)
    case "edi" => Some(EDI)
    case "esi" => Some(ESI)
    case _ => None
  }

  /** The processor's numbers of the eight registers; no other name is one. */
  lemma {:induction false} RegisterNames(name: string)
    ensures Register("eax") == Some(0) && Register("ecx") == Some(1)
    ensures Register("edx") == Some(2) && Register("ebx") == Some(3)
    ensures Register("esp") == Some(4) && Register("ebp") == Some(5)
    ensures Register("esi") == Some(6) && Register("edi") == Some(7)
    ensures Register(name).Some? <==> name in ["eax", "ecx", "edx", "ebx", "esp", "ebp", "esi", "edi"]
  {
  }

  /** U0, U8, U16 or U32; the number is cut to eight bits before it is checked. */
  function TypeFromName(name: string): Option<nat> {
    if |name| >= 2 && name[0] == 'U' && IsDigit(name[1]) then
      var bits := Atoi(name[1..]) % 0x100;
      if bits == 0 || bits == 8 || bits == 16 || bits == 32 then Some(bits) else None
    else None
  }

  /** The four type words, two other words, and a number that is cut to one of the four. */
  lemma {:induction false} TypeNames(name: string)
    ensures TypeFromName("U0") == Some(0) && TypeFromName("U8") == Some(8)
    ensures TypeFromName("U16") == Some(16) && TypeFromName("U32") == Some(32)
    ensures TypeFromName("U264") == Some(8) && TypeFromName("U64") == None && TypeFromName("I32") == None
    ensures TypeFromName(name).Some? ==>
              && |name| >= 2 && name[0] == 'U' && '0' <= name[1] <= '9'
              && TypeFromName(name).value in {0, 8, 16, 32}
              && TypeFromName(name).value == Atoi(name[1..]) % 256
  {
    hide AtoiFrom, AtoiStep, Digit, TypeFromName, Atoi, IsHex;
    TypeShape(name);
    ShortTypes();
    LongTypes();
    TypeShape("I32");
  }

  lemma {:induction false} TypeShape(name: string)
    ensures TypeFromName(name).Some? ==>
              && |name| >= 2 && name[0] == 'U' && '0' <= name[1] <= '9'
              && TypeFromName(name).value in {0, 8, 16, 32}
              && TypeFromName(name).value == Atoi(name[1..]) % 256
  {
    hide Atoi;
  }

  lemma {:induction false} ShortTypes()
    ensures TypeFromName("U0") == Some(0) && TypeFromName("U8") == Some(8)
  {
    hide AtoiFrom, AtoiStep, Digit, TypeFromName, Atoi, IsHex;
    TypeWord("U0", 0) by { AtoiOne("U0"[1..]); }
    TypeWord("U8", 8) by { AtoiOne("U8"[1..]); }
  }

  lemma {:induction false} LongTypes()
    ensures TypeFromName("U16") == Some(16) && TypeFromName("U32") == Some(32)
    ensures TypeFromName("U264") == Some(8) && TypeFromName("U64") == None
  {
    hide AtoiFrom, AtoiStep, Digit, TypeFromName, Atoi, IsHex;
    TypeWord("U16", 16) by { AtoiTwo("U16"[1..]); }
    TypeWord("U32", 32) by { AtoiTwo("U32"[1..]); }
    TypeWord("U64", 64) by { AtoiTwo("U64"[1..]); }
    TypeWord("U264", 264) by { AtoiThree("U264"[1..]); }
  }

  lemma {:induction false} TypeWord(name: string, n: nat)
    requires |name| >= 2 && name[0] == 'U' && IsDigit(name[1]) && AtoiFrom(0, 10, name[1..]) == n
    requires |name| >= 3 ==> name[2] != 'x'
    ensures TypeFromName(name) == if n % 256 in {0, 8, 16, 32} then Some(n % 256) else None
  {
    assert !IsHex(name[1..]);
    hide AtoiFrom;
  }

  lemma {:induction false} AtoiOne(t: string)
    requires |t| == 1 && IsDigit(t[0])
    ensures AtoiFrom(0, 10, t) == (t[0] - '0') as int
  {
    assert t[1..] == [];
    assert AtoiFrom(AtoiStep(0, 10, t[0]), 10, []) == AtoiStep(0, 10, t[0]);
  }

  lemma {:induction false} AtoiTwo(t: string)
    requires |t| == 2 && IsDigit(t[0]) && IsDigit(t[1])
    ensures AtoiFrom(0, 10, t) == 10 * (t[0] - '0') as int + (t[1] - '0') as int
  {
    hide AtoiStep, AtoiFrom;
    assert t == [t[0]] + [t[1]];
    AtoiSnoc(0, 10, [t[0]], t[1]);
    AtoiOne([t[0]]);
    DigitStep((t[0] - '0') as int, t[1]);
  }

  lemma {:induction false} AtoiThree(t: string)
    requires |t| == 3 && IsDigit(t[0]) && IsDigit(t[1]) && IsDigit(t[2])
    ensures AtoiFrom(0, 10, t) == 100 * (t[0] - '0') as int + 10 * (t[1] - '0') as int + (t[2] - '0') as int
  {
    hide AtoiStep, AtoiFrom;
    assert t == [t[0], t[1]] + [t[2]];
    AtoiSnoc(0, 10, [t[0], t[1]], t[2]);
    AtoiTwo([t[0], t[1]]);
    DigitStep(10 * (t[0] - '0') as int + (t[1] - '0') as int, t[2]);
  }

  lemma {:induction false} DigitStep(v: nat, c: char)
    requires v < 100 && IsDigit(c)
    ensures AtoiStep(v, 10, c) == 10 * v + (c - '0') as int
  {
    assert Digit(c) == Some((c - '0') as int);
    NoWrap(v * 10, (c - '0') as int);
  }

  /** The first variable of the given name. */
  function FindVar(vars: seq<Variable>, name: string): (r: Option<Variable>)
    ensures r.Some? ==> r.value in vars && r.value.name == name
    ensures r.None? ==> forall v | v in vars :: v.name != name
  {
    if vars == [] then None
    else if vars[0].name == name then Some(vars[0])
    else FindVar(vars[1..], name)
  }

  /** It is the first: none before it has the name. */
  lemma {:induction false} FindVarFirst(vars: seq<Variable>, name: string) returns (i: nat)
    requires FindVar(vars, name).Some?
    ensures i < |vars| && vars[i] == FindVar(vars, name).value && forall j | 0 <= j < i :: vars[j].name != name
    decreases |vars|
  {
    if vars[0].name == name {
      i := 0;
    } else {
      var k := FindVarFirst(vars[1..], name);
      i := k + 1;
      forall j | 0 <= j < i
        ensures vars[j].name != name
      {
        assert j > 0 ==> vars[j] == vars[1..][j - 1];
      }
    }
  }

  method FindVarLoop(vars: seq<Variable>, name: string) returns (r: Option<Variable>)
    ensures r == FindVar(vars, name)
  {
    var i := 0;
    assert vars[0..] == vars;
    while i < |vars|
      invariant 0 <= i <= |vars|
      invariant FindVar(vars, name) == FindVar(vars[i..], name)
    {
      if vars[i].name == name {
        return Some(vars[i]);
      }
      assert vars[i..][1..] == vars[i + 1..];
      i := i + 1;
    }
    return None;
  }

  /** More variables at the end do not change what an earlier name means. */
  lemma {:induction false} FindVarPrefix(vars: seq<Variable>, more: seq<Variable>, name: string)
    ensures FindVar(vars + more, name) == if FindVar(vars, name).Some? then FindVar(vars, name) else FindVar(more, name)
    decreases |vars|
  {
    if vars == [] {
      assert vars + more == more;
    } else {
      assert (vars + more)[1..] == vars[1..] + more;
      FindVarPrefix(vars[1..], more, name);
    }
  }
}
