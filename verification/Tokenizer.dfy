/** The UX tokenizer. A source text is the characters in front of the terminating NUL. */
module Tokenizer {
  import opened Sequences

  datatype Kind = Nothing | Number | Word | Special | Text
  datatype Token = Token(kind: Kind, text: string)

  /** The token buffer holds 32 characters, the last of them NUL. */
  const LIMIT := 31

  const NO_TOKEN := Token(Nothing, "")

  predicate IsDigit(c: char) { '0' <= c <= '9' }

  predicate IsSpace(c: char) { c == ' ' || c == '\n' || c == '\r' || c == '\t' }

  predicate IsSpecial(c: char) {
    '!' <= c <= '/' || ':' <= c <= '@' || '[' <= c <= '`' || '{' <= c <= '~'
  }

  /** A token and how many characters of the text it took. */
  datatype Scanned = Scanned(token: Token, len: nat)

  // ----- one token: specification -----

  /** The rest of a word or number, k characters of which are already stored. */
  function Tail(kind: Kind, k: nat, s: string): (r: Scanned)
    ensures r.len <= |s| && r.token.kind == kind && |r.token.text| <= r.len
    decreases |s|
  {
    if s == [] || k >= LIMIT then Scanned(Token(kind, ""), 0)
    else if IsSpace(s[0]) then Scanned(Token(kind, ""), 1)
    else if (kind == Number && !IsDigit(s[0]) && s[0] != 'x') || IsSpecial(s[0]) then Scanned(Token(kind, ""), 0)
    else
      var r := Tail(kind, k + 1, s[1..]);
      Scanned(Token(kind, [s[0]] + r.token.text), r.len + 1)
  }

  /** What an escaped character stands for: nothing when it is not one of the five escapes. */
  function Unescape(c: char): (u: string)
    ensures |u| <= 1
  {
    if c == '"' then "\"" else if c == 'n' then "\n" else if c == 't' then "\t"
    else if c == 'r' then "\r" else if c == '\\' then "\\" else ""
  }

  /** The inside of a string after the opening quote, k characters already stored. An unknown
      escape drops its backslash. */
  function Quoted(k: nat, s: string): (r: Scanned)
    ensures r.len <= |s| && r.token.kind == Text
    decreases |s|
  {
    if s == [] || k >= LIMIT then Scanned(Token(Text, ""), 0)
    else if s[0] == '"' then Scanned(Token(Text, ""), 1)
    else if s[0] == '\\' then
      if |s| == 1 then Scanned(Token(Text, ""), 1)
      else
        var u := Unescape(s[1]);
        var n := if u == "" then 1 else 2;
        var r := Quoted(k + |u|, s[n..]);
        Scanned(Token(Text, u + r.token.text), r.len + n)
    else
      var r := Quoted(k + 1, s[1..]);
      Scanned(Token(Text, [s[0]] + r.token.text), r.len + 1)
  }

  predicate StartsNumber(s: string) {
    s != [] && (IsDigit(s[0]) || (s[0] == '-' && |s| > 1 && IsDigit(s[1])))
  }

  /** The first token of a text: 0 characters exactly when the text is empty. */
  function First(s: string): (r: Scanned)
    ensures r.len <= |s| && (r.len == 0 <==> s == [])
    ensures r.len == 0 ==> r.token == NO_TOKEN
  {
    if s == [] then Scanned(NO_TOKEN, 0)
    else if StartsNumber(s) || !(s[0] == '"' || IsSpecial(s[0]) || IsSpace(s[0])) then
      var kind := if StartsNumber(s) then Number else Word;
      var r := Tail(kind, 1, s[1..]);
      Scanned(Token(kind, [s[0]] + r.token.text), r.len + 1)
    else if s[0] == '"' then
      var r := Quoted(0, s[1..]);
      Scanned(r.token, r.len + 1)
    else if IsSpecial(s[0]) then
      if |s| > 2 && (s[1] == '!' || s[1] == '=' || s[1] == '<' || s[1] == '>') && s[2] == '=' then
        Scanned(Token(Special, s[..2]), 2)
      else Scanned(Token(Special, s[..1]), 1)
    else Scanned(NO_TOKEN, 1)
  }

  // ----- one token: the loops -----

  /** The character at offset i, NUL at the end of the text. */
  function CharAt(s: string, i: nat): char {
    if i < |s| then s[i] else '\0'
  }

  /** TokenNext. `i` is how far the text pointer has moved; `text` is the filled part of the buffer. */
  method TokenNext(s: string) returns (token: Token, len: nat)
    ensures token == First(s).token && len == First(s).len
  {
    var kind, text, i := Nothing, "", 0;
    ghost var goal := First(s);
    while i < |s| && |text| < LIMIT
      invariant i == |text| <= |s|
      invariant kind == Nothing <==> i == 0
      invariant kind == Nothing || kind == Number || kind == Word
      invariant kind != Nothing ==>
          var r := Tail(kind, i, s[i..]);
          goal.token.kind == kind && goal.token.text == text + r.token.text && goal.len == i + r.len
    {
      var c := s[i];
      if kind == Nothing {
        if IsDigit(c) || (c == '-' && IsDigit(CharAt(s, i + 1))) {
          kind := Number;
        } else if c == '"' {
          text, len := QuotedLoop(s);
          return Token(Text, text), len;
        } else if IsSpecial(c) {
          text := [c];
          var d := CharAt(s, 1);
          if (d == '!' || d == '=' || d == '<' || d == '>') && CharAt(s, 2) == '=' {
            text := text + [d];
          }
          return Token(Special, text), |text|;
        } else if IsSpace(c) {
          return NO_TOKEN, 1;
        } else {
          kind := Word;
        }
        assert [c] == "" + [c];
      } else {
        hide First;
        if IsSpace(c) {
          assert Tail(kind, i, s[i..]) == Scanned(Token(kind, ""), 1);
          return Token(kind, text), i + 1;
        }
        if kind == Number && !IsDigit(c) && c != 'x' {
          assert Tail(kind, i, s[i..]) == Scanned(Token(kind, ""), 0);
          break;
        }
        if IsSpecial(c) {
          assert Tail(kind, i, s[i..]) == Scanned(Token(kind, ""), 0);
          break;
        }
        assert s[i..][1..] == s[i + 1..];
        Assoc(text, [c], Tail(kind, i + 1, s[i + 1..]).token.text);
      }
      text := text + [c];
      i := i + 1;
    }
    return Token(kind, text), i;
  }

  /** The string loop has read the characters up to offset len and stored them in text. */
  predicate Reading(s: string, text: string, len: nat) {
    && 1 <= len <= |s|
    && var goal := Quoted(0, s[1..]);
       var r := Quoted(|text|, s[len..]);
       goal.token.text == text + r.token.text && goal.len + 1 == len + r.len
  }

  /** What one round of the string loop stores. */
  function Piece(s: string, len: nat): string
    requires len < |s|
  {
    if s[len] == '\\' then Unescape(CharAt(s, len + 1)) else [s[len]]
  }

  lemma {:induction false} ReadingStep(s: string, text: string, len: nat)
    requires 1 <= len < |s| && |text| < LIMIT && s[len] != '"' && Reading(s, text, len)
    ensures var u := Piece(s, len);
            Reading(s, text + u, if s[len] == '\\' then len + 1 + |u| else len + 1)
  {
    hide *;
    var u := Piece(s, len);
    PieceQuoted(s, |text|, len);
    var n := if s[len] == '\\' then 1 + |u| else 1;
    ReadingIs(s, text, len);
    ReadingIs(s, text + u, len + n);
    Assoc(text, u, Quoted(|text| + |u|, s[len + n..]).token.text);
  }

  lemma {:induction false} ReadingIs(s: string, text: string, len: nat)
    requires 1 <= len <= |s|
    ensures Reading(s, text, len)
       <==> Quoted(0, s[1..]).token.text == text + Quoted(|text|, s[len..]).token.text
            && Quoted(0, s[1..]).len + 1 == len + Quoted(|text|, s[len..]).len
  {
    hide Quoted;
  }

  /** The loop stops at the closing quote, at the end of the text or with a full buffer. */
  lemma {:induction false} ReadingEnds(s: string, text: string, len: nat)
    requires Reading(s, text, len) && (len < |s| && |text| < LIMIT ==> s[len] == '"')
    ensures Quoted(0, s[1..]).token.text == text
    ensures Quoted(0, s[1..]).len + 1 == if len < |s| && |text| < LIMIT then len + 1 else len
  {
    var r := Quoted(|text|, s[len..]);
    assert r.token.text == "";
    hide Quoted;
    assert text + "" == text;
  }

  lemma {:induction false} PieceQuoted(s: string, k: nat, len: nat)
    requires len < |s| && k < LIMIT && s[len] != '"'
    ensures var u := Piece(s, len);
            var n := if s[len] == '\\' then 1 + |u| else 1;
            var r := Quoted(k + |u|, s[len + n..]);
            len + n <= |s| && Quoted(k, s[len..]) == Scanned(Token(Text, u + r.token.text), n + r.len)
  {
    var rest, u := s[len..], Piece(s, len);
    var n := if s[len] == '\\' then 1 + |u| else 1;
    assert rest[n..] == s[len + n..];
    hide Unescape;
  }

  /** The loop over the inside of a string, from the opening quote. */
  method QuotedLoop(s: string) returns (text: string, len: nat)
    requires s != []
    ensures text == Quoted(0, s[1..]).token.text && len == Quoted(0, s[1..]).len + 1
  {
    text, len := "", 1;
    ReadingIs(s, "", 1);
    while len < |s| && |text| < LIMIT
      invariant Reading(s, text, len)
      decreases |s| - len
    {
      hide *;
      var c := s[len];
      if c == '"' {
        ReadingEnds(s, text, len);
        return text, len + 1;
      }
      ReadingStep(s, text, len);
      if c == '\\' {
        var u := Unescape(CharAt(s, len + 1));
        text, len := text + u, len + 1 + |u|;
      } else {
        text, len := text + [c], len + 1;
      }
    }
    ReadingEnds(s, text, len);
  }

  // ----- the token stream -----

  /** NEXTTOK: the next token with a text, the length TokenNext last returned, and all that
      was taken; an empty token and last == 0 at the end. */
  datatype Lexeme = Lexeme(token: Token, last: nat, len: nat)

  function Next(s: string): (r: Lexeme)
    ensures r.last <= r.len <= |s|
    ensures r.last == 0 ==> r == Lexeme(NO_TOKEN, 0, |s|)
    ensures r.last > 0 ==> r.token.text != ""
    decreases |s|
  {
    var f := First(s);
    if f.token.text != "" || f.len == 0 then Lexeme(f.token, f.len, f.len)
    else
      var r := Next(s[f.len..]);
      Lexeme(r.token, r.last, f.len + r.len)
  }

  lemma {:induction false} NextIs(s: string)
    ensures var f := First(s);
            Next(s) == if f.token.text != "" || f.len == 0 then Lexeme(f.token, f.len, f.len)
                       else var r := Next(s[f.len..]); Lexeme(r.token, r.last, f.len + r.len)
  {
    hide First;
  }

  method NextTok(s: string) returns (token: Token, last: nat, len: nat)
    ensures Lexeme(token, last, len) == Next(s)
  {
    hide *;
    token, last := TokenNext(s);
    len := last;
    ghost var from := s;
    assert s[len - last..] == s;
    while token.text == "" && last != 0
      invariant token == First(from).token && last == First(from).len
      invariant last <= len <= |s| && from == s[len - last..]
      invariant Next(s) == Lexeme(Next(from).token, Next(from).last, len - last + Next(from).len)
      decreases |from|
    {
      NextIs(from);
      assert from[last..] == s[len..];
      from := s[len..];
      token, last := TokenNext(s[len..]);
      len := len + last;
    }
    NextIs(from);
  }

  /** All the tokens of a text. */
  function Lex(s: string): (r: seq<Token>)
    decreases |s|
  {
    var n := Next(s);
    if n.last == 0 then [] else [n.token] + Lex(s[n.len..])
  }

  // ----- round trip -----

  function Escape(c: char): string {
    if c == '"' then "\\\"" else if c == '\n' then "\\n" else if c == '\t' then "\\t"
    else if c == '\r' then "\\r" else if c == '\\' then "\\\\" else [c]
  }

  function EscapeAll(s: string): string {
    if s == [] then [] else Escape(s[0]) + EscapeAll(s[1..])
  }

  predicate Plain(c: char) { !IsSpace(c) && !IsSpecial(c) }

  /** Tokens that have a spelling: words and numbers of at most 31 characters, one special
      character other than a quote, strings of 1 to 30 characters. */
  predicate Spellable(t: Token) {
    match t.kind
    case Nothing => false
    case Number => |t.text| <= LIMIT && StartsNumber(t.text) &&
                   forall c | c in t.text[1..] :: IsDigit(c) || c == 'x'
    case Word => 1 <= |t.text| <= LIMIT && !IsDigit(t.text[0]) && forall c | c in t.text :: Plain(c)
    case Special => |t.text| == 1 && IsSpecial(t.text[0]) && t.text[0] != '"'
    case Text => 1 <= |t.text| < LIMIT
  }

  function Spell(t: Token): string {
    if t.kind == Text then "\"" + EscapeAll(t.text) + "\"" else t.text
  }

  function SpellAll(ts: seq<Token>): string {
    if ts == [] then "" else Spell(ts[0]) + " " + SpellAll(ts[1..])
  }

  // ----- where tokens end -----

  /** Nothing more of a word or number follows: the end of the text, a blank, a special character,
      and behind a number anything but digits and an x. */
  predicate Stops(kind: Kind, rest: string) {
    rest == "" || IsSpace(rest[0]) || IsSpecial(rest[0]) || (kind == Number && !IsDigit(rest[0]) && rest[0] != 'x')
  }

  /** A special character stands alone unless it makes a pair with what follows, or a minus a number. */
  predicate Alone(c: char, rest: string) {
    && !(|rest| >= 2 && (rest[0] == '!' || rest[0] == '=' || rest[0] == '<' || rest[0] == '>') && rest[1] == '=')
    && !(c == '-' && rest != "" && IsDigit(rest[0]))
  }

  /** The token ends where its spelling does. */
  predicate Separate(t: Token, rest: string) {
    match t.kind
    case Number => Stops(Number, rest)
    case Word => Stops(Word, rest)
    case Special => t.text != "" && Alone(t.text[0], rest)
    case _ => true
  }

  /** One blank behind a word or number is taken with it. */
  predicate BlankAhead(rest: string) { rest != "" && IsSpace(rest[0]) }

  lemma {:induction false} TailOf(kind: Kind, k: nat, w: string, rest: string)
    requires kind == Number || kind == Word
    requires k + |w| <= LIMIT && Stops(kind, rest)
    requires forall c | c in w :: Plain(c) && (kind == Number ==> IsDigit(c) || c == 'x')
    ensures var r := Tail(kind, k, w + rest);
            && r.token.text == w
            && r.len == |w| + (if k + |w| < LIMIT && BlankAhead(rest) then 1 else 0)
    decreases |w|
  {
    hide IsSpace, IsSpecial, IsDigit;
    var s := w + rest;
    if w == [] {
      assert s == rest;
    } else {
      assert s[0] == w[0] && s[1..] == w[1..] + rest;
      assert w[0] in w;
      TailOf(kind, k + 1, w[1..], rest);
      assert [w[0]] + w[1..] == w;
    }
  }

  lemma {:induction false} QuotedOf(k: nat, w: string, rest: string)
    requires k + |w| < LIMIT
    ensures var r := Quoted(k, EscapeAll(w) + "\"" + rest);
            r.token.text == w && r.len == |EscapeAll(w)| + 1
    decreases |w|
  {
    if w == [] {
      assert (EscapeAll(w) + "\"" + rest)[0] == '"';
    } else {
      var tail := EscapeAll(w[1..]) + "\"" + rest;
      QuotedOf(k + 1, w[1..], rest);
      QuotedStep(k, w[0], tail);
      hide Quoted, Escape;
      Assoc(Escape(w[0]), EscapeAll(w[1..]), "\"");
      Assoc(Escape(w[0]), EscapeAll(w[1..]) + "\"", rest);
      assert [w[0]] + w[1..] == w;
    }
  }

  lemma {:induction false} QuotedStep(k: nat, c: char, tail: string)
    requires k < LIMIT
    ensures var r := Quoted(k + 1, tail);
            Quoted(k, Escape(c) + tail) == Scanned(Token(Text, [c] + r.token.text), r.len + |Escape(c)|)
  {
    var s := Escape(c) + tail;
    assert s[|Escape(c)|..] == tail;
    if |Escape(c)| == 2 {
      assert Unescape(Escape(c)[1]) == [c];
    }
  }

  /** A spelled token is read back, whatever follows it separately. */
  lemma {:induction false} FirstOf(t: Token, rest: string)
    requires Spellable(t) && Separate(t, rest)
    ensures var r := First(Spell(t) + rest);
            r.token == t && (r.len == |Spell(t)| || (r.len == |Spell(t)| + 1 && BlankAhead(rest)))
  {
    hide First, EscapeAll, Stops, Alone, IsSpecial, IsSpace;
    match t.kind {
      case Number => FirstNumber(t.text, rest);
      case Word => FirstWord(t.text, rest);
      case Special => FirstSpecial(t.text, rest);
      case Text => FirstText(t.text, rest);
    }
  }

  lemma {:induction false} FirstNumber(w: string, rest: string)
    requires Spellable(Token(Number, w)) && Stops(Number, rest)
    ensures var r := First(w + rest);
            r.token == Token(Number, w) && (r.len == |w| || (r.len == |w| + 1 && BlankAhead(rest)))
  {
    var s := w + rest;
    assert s[0] == w[0] && s[1..] == w[1..] + rest && [w[0]] + w[1..] == w;
    assert w[0] == '-' ==> s[1] == w[1];
    hide Tail, Quoted;
    TailOf(Number, 1, w[1..], rest);
  }

  lemma {:induction false} FirstWord(w: string, rest: string)
    requires Spellable(Token(Word, w)) && Stops(Word, rest)
    ensures var r := First(w + rest);
            r.token == Token(Word, w) && (r.len == |w| || (r.len == |w| + 1 && BlankAhead(rest)))
  {
    var s := w + rest;
    assert s[0] == w[0] && s[1..] == w[1..] + rest && [w[0]] + w[1..] == w;
    assert w[0] in w && Plain(w[0]);
    hide Tail, Quoted;
    TailOf(Word, 1, w[1..], rest);
  }

  lemma {:induction false} FirstSpecial(w: string, rest: string)
    requires Spellable(Token(Special, w)) && Alone(w[0], rest)
    ensures First(w + rest) == Scanned(Token(Special, w), |w|)
  {
    var s := w + rest;
    hide Tail, Quoted;
    assert s[0] == w[0] && s[1..] == rest && s[..1] == w;
    assert |s| > 1 ==> s[1] == rest[0];
    assert |s| > 2 ==> s[2] == rest[1];
  }

  lemma {:induction false} FirstText(w: string, rest: string)
    requires Spellable(Token(Text, w))
    ensures First("\"" + EscapeAll(w) + "\"" + rest) == Scanned(Token(Text, w), |EscapeAll(w)| + 2)
  {
    var s := "\"" + EscapeAll(w) + "\"" + rest;
    hide Tail, Quoted, EscapeAll;
    assert s[0] == '"' && s[1..] == EscapeAll(w) + "\"" + rest;
    QuotedOf(0, w, rest);
  }

  lemma {:induction false} LexIs(s: string)
    ensures var n := Next(s); Lex(s) == if n.last == 0 then [] else [n.token] + Lex(s[n.len..])
  {
    hide Next;
  }

  lemma {:induction false} FirstBlank(c: char, s: string)
    requires IsSpace(c)
    ensures First([c] + s) == Scanned(NO_TOKEN, 1) && NO_TOKEN.text == ""
  {
    hide Tail, Quoted;
  }

  lemma {:induction false} LexSkipsBlank(c: char, s: string)
    requires IsSpace(c)
    ensures Lex([c] + s) == Lex(s)
  {
    hide *;
    var n := Next(s);
    FirstBlank(c, s);
    NextIs([c] + s);
    assert ([c] + s)[1..] == s;
    assert ([c] + s)[1 + n.len..] == s[n.len..];
    LexIs([c] + s);
    LexIs(s);
  }

  predicate Blank(gap: string) { forall c | c in gap :: IsSpace(c) }

  lemma {:induction false} LexSkipsBlanks(gap: string, s: string)
    requires Blank(gap)
    ensures Lex(gap + s) == Lex(s)
    decreases |gap|
  {
    hide Lex;
    if gap == "" {
      assert gap + s == s;
    } else {
      assert gap + s == [gap[0]] + (gap[1..] + s);
      LexSkipsBlank(gap[0], gap[1..] + s);
      LexSkipsBlanks(gap[1..], s);
    }
  }

  /** Tokens with any blanks, or none, behind each. */
  function SpellWith(ts: seq<Token>, gaps: seq<string>): string
    requires |ts| == |gaps|
  {
    if ts == [] then "" else Spell(ts[0]) + (gaps[0] + SpellWith(ts[1..], gaps[1..]))
  }

  /** Every token ends where its spelling does: words and numbers may touch special characters. */
  predicate Parted(ts: seq<Token>, gaps: seq<string>)
    requires |ts| == |gaps|
  {
    ts != [] ==>
      && Blank(gaps[0]) && Separate(ts[0], gaps[0] + SpellWith(ts[1..], gaps[1..]))
      && Parted(ts[1..], gaps[1..])
  }

  /** Printing tokens, with or without blanks between them, and reading them back is the identity. */
  lemma {:induction false} LexSpellWith(ts: seq<Token>, gaps: seq<string>)
    requires |ts| == |gaps| && (forall t | t in ts :: Spellable(t)) && Parted(ts, gaps)
    ensures Lex(SpellWith(ts, gaps)) == ts
    decreases |ts|
  {
    if ts == [] {
      assert Next("").last == 0;
    } else {
      var t, more := ts[0], SpellWith(ts[1..], gaps[1..]);
      hide Lex, First, Separate, Spell, Spellable;
      TextOf(t);
      FirstOf(t, gaps[0] + more);
      NextOf(t, gaps[0] + more);
      LexSkipsBlanks(gaps[0], more);
      LexSpellWith(ts[1..], gaps[1..]);
      assert [t] + ts[1..] == ts;
    }
  }

  lemma {:induction false} TextOf(t: Token)
    requires Spellable(t)
    ensures t.text != ""
  {
  }

  lemma {:induction false} NextOf(t: Token, rest: string)
    requires t.text != ""
    requires var r := First(Spell(t) + rest);
             r.token == t && (r.len == |Spell(t)| || (r.len == |Spell(t)| + 1 && BlankAhead(rest)))
    ensures Lex(Spell(t) + rest) == [t] + Lex(rest)
  {
    hide First, Spell;
    var s := Spell(t) + rest;
    var n := First(s).len;
    assert Next(s) == Lexeme(t, n, n);
    assert s[|Spell(t)|..] == rest;
    if n == |Spell(t)| + 1 {
      assert s[n..] == rest[1..] && rest == [rest[0]] + rest[1..];
      LexSkipsBlank(rest[0], rest[1..]);
    }
  }

  /** The same with one space behind every token. */
  lemma {:induction false} LexSpellAll(ts: seq<Token>)
    requires forall t | t in ts :: Spellable(t)
    ensures Lex(SpellAll(ts)) == ts
  {
    hide Lex, Spellable;
    var gaps := Spaces(|ts|);
    SpacesPart(ts);
    LexSpellWith(ts, gaps);
  }

  function Spaces(n: nat): (gaps: seq<string>)
    ensures |gaps| == n
  {
    if n == 0 then [] else [" "] + Spaces(n - 1)
  }

  lemma {:induction false} SpacesPart(ts: seq<Token>)
    requires forall t | t in ts :: Spellable(t)
    ensures SpellAll(ts) == SpellWith(ts, Spaces(|ts|)) && Parted(ts, Spaces(|ts|))
    decreases |ts|
  {
    if ts != [] {
      var gaps := Spaces(|ts|);
      assert gaps[1..] == Spaces(|ts| - 1);
      SpacesPart(ts[1..]);
      var rest := " " + SpellWith(ts[1..], gaps[1..]);
      assert rest[0] == ' ';
      Assoc(Spell(ts[0]), " ", SpellAll(ts[1..]));
      assert ts[0] in ts;
      hide SpellAll, SpellWith, Spell;
      assert Separate(ts[0], rest);
    }
  }

  // ----- no character is lost -----

  /** The text without its blanks. */
  function Stripped(s: string): string {
    if s == "" then ""
    else if s[0] == ' ' || s[0] == '\n' || s[0] == '\r' || s[0] == '\t' then Stripped(s[1..])
    else [s[0]] + Stripped(s[1..])
  }

  function Texts(ts: seq<Token>): string {
    if ts == [] then "" else ts[0].text + Texts(ts[1..])
  }

  lemma {:induction false} TailKeeps(kind: Kind, k: nat, s: string)
    ensures var r := Tail(kind, k, s); Stripped(s) == r.token.text + Stripped(s[r.len..])
    decreases |s|
  {
    var r := Tail(kind, k, s);
    if r.len == 0 {
      assert s[0..] == s;
    } else if !IsSpace(s[0]) {
      TailKeeps(kind, k + 1, s[1..]);
      assert s[1..][r.len - 1..] == s[r.len..];
      Assoc([s[0]], Tail(kind, k + 1, s[1..]).token.text, Stripped(s[r.len..]));
    }
  }

  lemma {:induction false} FirstKeeps(s: string)
    requires '"' !in s
    ensures var r := First(s); Stripped(s) == r.token.text + Stripped(s[r.len..])
  {
    var r := First(s);
    hide Tail, Quoted;
    if s != "" {
      if StartsNumber(s) || !(IsSpecial(s[0]) || IsSpace(s[0])) {
        var t := Tail(r.token.kind, 1, s[1..]);
        TailKeeps(r.token.kind, 1, s[1..]);
        assert s[1..][t.len..] == s[r.len..];
        Assoc([s[0]], t.token.text, Stripped(s[r.len..]));
      } else if r.len == 2 {
        assert s[1..][1..] == s[2..];
        assert r.token.text == [s[0]] + [s[1]];
        Assoc([s[0]], [s[1]], Stripped(s[2..]));
      }
    }
  }

  lemma {:induction false} NextKeeps(s: string)
    requires '"' !in s
    ensures var n := Next(s); Stripped(s) == n.token.text + Stripped(s[n.len..])
    decreases |s|
  {
    hide First, Stripped, Next;
    NextIs(s);
    FirstKeeps(s);
    var f := First(s);
    if f.token.text == "" && f.len != 0 {
      var rest := s[f.len..];
      NextKeeps(rest);
      assert rest[Next(rest).len..] == s[Next(s).len..];
    }
  }

  /** No character of a text without strings is lost or read twice: its tokens, one behind the
      other, are the text without its blanks. */
  lemma {:induction false} LexKeeps(s: string)
    requires '"' !in s
    ensures Texts(Lex(s)) == Stripped(s)
    decreases |s|
  {
    hide Next, First;
    NextKeeps(s);
    var n := Next(s);
    if n.last == 0 {
      assert s[|s|..] == "";
    } else {
      LexKeeps(s[n.len..]);
      assert ([n.token] + Lex(s[n.len..]))[1..] == Lex(s[n.len..]);
    }
  }

  /** The special characters are the printable ones that are no letter, digit or blank; five
      escapes stand for a character; a token has up to 31. */
  lemma {:induction false} Characters(c: char)
    ensures IsSpecial(c) <==> c in "!\"#$%&'()*+,-./:;<=>?@[\\]^_`{|}~"
    ensures IsSpace(c) <==> c in " \n\r\t"
    ensures IsDigit(c) <==> c in "0123456789"
    ensures Unescape('n') == "\n" && Unescape('t') == "\t" && Unescape('r') == "\r"
    ensures Unescape('"') == "\"" && Unescape('\\') == "\\"
    ensures c !in "ntr\"\\" ==> Unescape(c) == ""
    ensures LIMIT == 31
  {
  }

  /** Two special characters are one token exactly in front of an `=`, if the second is one of four. */
  lemma {:induction false} Pairs(c: char, d: char, e: char, rest: string)
    requires IsSpecial(c) && c != '"' && !(c == '-' && IsDigit(d))
    ensures First([c, d, e] + rest)
         == if (d == '!' || d == '=' || d == '<' || d == '>') && e == '=' then Scanned(Token(Special, [c, d]), 2)
            else Scanned(Token(Special, [c]), 1)
  {
    var s := [c, d, e] + rest;
    assert s[0] == c && s[1] == d && s[2] == e && s[..2] == [c, d] && s[..1] == [c];
  }

  /** A backslash in front of any other character is dropped, and the character stays. */
  lemma {:induction false} StrangeEscape(k: nat, c: char, rest: string)
    requires k < LIMIT && c !in "ntr\"\\"
    ensures var r := Quoted(k, [c] + rest);
            Quoted(k, ['\\', c] + rest) == Scanned(r.token, r.len + 1)
  {
    Characters(c);
    assert (['\\', c] + rest)[1..] == [c] + rest;
    hide Unescape;
  }

  /** A string is cut behind 31 characters, and its rest is read as tokens of its own. */
  lemma {:induction false} LongString(k: nat, w: string)
    requires k + |w| >= 31 >= k && forall c | c in w :: c != '"' && c != '\\'
    ensures Quoted(k, w) == Scanned(Token(Text, w[..31 - k]), 31 - k)
    decreases |w|
  {
    if k < 31 {
      assert w[0] in w && forall c | c in w[1..] :: c in w;
      LongString(k + 1, w[1..]);
      assert [w[0]] + w[1..][..31 - (k + 1)] == w[..31 - k];
    }
  }

  /** A number and the special character that touches it. */
  lemma {:induction false} Touching()
    ensures Lex("0;") == [Token(Number, "0"), Token(Special, ";")]
  {
    var ts, gaps := [Token(Number, "0"), Token(Special, ";")], ["", ""];
    assert ts[1..] == [ts[1]] && ts[1..][1..] == [] && gaps[1..] == [""] && gaps[1..][1..] == [];
    assert SpellWith(ts[1..], gaps[1..]) == ";";
    assert SpellWith(ts, gaps) == "0;";
    assert "0"[1..] == "";
    LexSpellWith(ts, gaps);
  }
}
