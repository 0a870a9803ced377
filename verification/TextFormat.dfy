/**
  * A reader for the part of the Protocol Buffers Text Format that nsjail configurations use: messages of
  * fields with string, integer, identifier or message values. Each char stands for one byte.
  */
module TextFormat {
  import opened Wrappers

  datatype Token = Name(name: string) | Str(text: string) | Num(n: nat) | Colon | Open | Close

  predicate Space(c: char) {
    c == ' ' || c == '\n' || c == '\t' || c == '\r'
  }

  predicate Digit(c: char) {
    '0' <= c <= '9'
  }

  predicate Letter(c: char) {
    'a' <= c <= 'z' || 'A' <= c <= 'Z' || c == '_'
  }

  predicate NameChar(c: char) {
    Letter(c) || Digit(c)
  }

  predicate Octal(c: char) {
    '0' <= c <= '7'
  }

  // ----- String literals -----

  function OctalValue(c: char): nat
    requires Octal(c)
  {
    (c - '0') as nat
  }

  /** The digits of an octal escape: one to three, as many as there are. */
  function OctalRun(s: string): (n: nat)
    ensures n <= |s| && n <= 3
    ensures forall i | 0 <= i < n :: Octal(s[i])
  {
    if s == "" || !Octal(s[0]) then 0
    else if |s| == 1 || !Octal(s[1]) then 1
    else if |s| == 2 || !Octal(s[2]) then 2
    else 3
  }

  function OctalOf(s: string, n: nat): nat
    requires 0 < n <= 3 && n <= |s| && forall i | 0 <= i < n :: Octal(s[i])
  {
    if n == 1 then OctalValue(s[0])
    else if n == 2 then OctalValue(s[0]) * 8 + OctalValue(s[1])
    else OctalValue(s[0]) * 64 + OctalValue(s[1]) * 8 + OctalValue(s[2])
  }

  /** The char an escape sequence stands for and what follows it; `s` starts after the backslash. */
  function ReadEscape(s: string): (r: Option<(char, string)>)
    ensures r.Some? ==> |r.value.1| < |s| && r.value.1 == s[|s| - |r.value.1|..]
  {
    if s == "" then None
    else if s[0] == 'n' then Some(('\n', s[1..]))
    else if s[0] == 'r' then Some(('\r', s[1..]))
    else if s[0] == 't' then Some(('\t', s[1..]))
    else if s[0] == 'a' then Some(('\U{7}', s[1..]))
    else if s[0] == 'b' then Some(('\U{8}', s[1..]))
    else if s[0] == 'f' then Some(('\U{C}', s[1..]))
    else if s[0] == 'v' then Some(('\U{B}', s[1..]))
    else if s[0] == '\\' || s[0] == '"' || s[0] == '\'' || s[0] == '?' then Some((s[0], s[1..]))
    else
      var n := OctalRun(s);
      if n == 0 || OctalOf(s, n) > 255 then None else Some((OctalOf(s, n) as char, s[n..]))
  }

  /** A literal up to its closing quote; a raw newline or NUL is not allowed inside. */
  function ReadString(s: string): (r: Option<(string, string)>)
    ensures r.Some? ==> |r.value.1| < |s| && r.value.1 == s[|s| - |r.value.1|..] && s[|s| - |r.value.1| - 1] == '"'
    decreases |s|
  {
    if s == "" then None
    else if s[0] == '"' then Some(("", s[1..]))
    else if s[0] == '\n' || s[0] == '\0' then None
    else if s[0] == '\\' then
      var e := ReadEscape(s[1..]);
      if e.None? then None
      else
        var t := ReadString(e.value.1);
        if t.None? then None else Some(([e.value.0] + t.value.0, t.value.1))
    else
      var t := ReadString(s[1..]);
      if t.None? then None else Some(([s[0]] + t.value.0, t.value.1))
  }

  // ----- Tokens -----

  function NameLength(s: string): (n: nat)
    ensures n <= |s| && (forall i | 0 <= i < n :: NameChar(s[i])) && (n < |s| ==> !NameChar(s[n]))
  {
    if s == "" || !NameChar(s[0]) then 0 else 1 + NameLength(s[1..])
  }

  function NumberOf(digits: string): nat
    requires forall i | 0 <= i < |digits| :: Digit(digits[i])
  {
    if digits == "" then 0
    else NumberOf(digits[..|digits| - 1]) * 10 + DigitValue(digits[|digits| - 1])
  }

  function DigitValue(c: char): nat
    requires Digit(c)
  {
    (c - '0') as nat
  }

  /** A numeral that starts with 0 and goes on would be octal or hexadecimal, and is not read here. */
  function NextToken(s: string): (r: Option<(Token, string)>)
    requires s != ""
    ensures r.Some? ==> |r.value.1| < |s|
  {
    if s[0] == ':' then Some((Colon, s[1..]))
    else if s[0] == '{' then Some((Open, s[1..]))
    else if s[0] == '}' then Some((Close, s[1..]))
    else if s[0] == '"' then
      var t := ReadString(s[1..]);
      if t.None? then None else Some((Str(t.value.0), t.value.1))
    else if NameChar(s[0]) then
      var n := NameLength(s);
      if Letter(s[0]) then Some((Name(s[..n]), s[n..]))
      else if (forall i | 0 <= i < n :: Digit(s[i])) && (s[0] == '0' ==> n == 1) then Some((Num(NumberOf(s[..n])), s[n..]))
      else None
    else None
  }

  function Lex(s: string): Option<seq<Token>>
    decreases |s|
  {
    if s == "" then Some([])
    else if Space(s[0]) then Lex(s[1..])
    else
      var t := NextToken(s);
      if t.None? then None
      else
        var ts := Lex(t.value.1);
        if ts.None? then None else Some([t.value.0] + ts.value)
  }

  // ----- Messages -----

  datatype Value = S(text: string) | N(n: nat) | I(ident: string) | M(fields: seq<Field>)
  datatype Field = Field(name: string, value: Value)

  function ScalarOf(t: Token): Option<Value> {
    match t
    case Str(s) => Some(S(s))
    case Num(n) => Some(N(n))
    case Name(x) => Some(I(x))
    case _ => None
  }

  /** As many fields as there are, up to a closing brace or the end. */
  function ParseFields(ts: seq<Token>): (r: Option<(seq<Field>, seq<Token>)>)
    ensures r.Some? ==> |r.value.1| <= |ts|
    decreases |ts|, 1
  {
    if ts == [] || ts[0].Close? then Some(([], ts))
    else
      var f := ParseField(ts);
      if f.None? then None
      else
        var fs := ParseFields(f.value.1);
        if fs.None? then None else Some(([f.value.0] + fs.value.0, fs.value.1))
  }

  function ParseField(ts: seq<Token>): (r: Option<(Field, seq<Token>)>)
    ensures r.Some? ==> |r.value.1| < |ts|
    decreases |ts|, 0
  {
    if |ts| < 3 || !ts[0].Name? then None
    else if ts[1].Colon? then
      var v := ScalarOf(ts[2]);
      if v.None? then None else Some((Field(ts[0].name, v.value), ts[3..]))
    else if ts[1].Open? then
      var fs := ParseFields(ts[2..]);
      if fs.None? || fs.value.1 == [] then None
      else Some((Field(ts[0].name, M(fs.value.0)), fs.value.1[1..]))
    else None
  }

  /** Reading a whole text. */
  function Parse(s: string): Option<seq<Field>> {
    var ts := Lex(s);
    if ts.None? then None
    else
      var fs := ParseFields(ts.value);
      if fs.None? || fs.value.1 != [] then None else Some(fs.value.0)
  }

  // ----- Tokens of a message parse back to it -----

  function TokensOf(f: Field): seq<Token>
    decreases f, 0
  {
    match f.value
    case S(s) => [Name(f.name), Colon, Str(s)]
    case N(n) => [Name(f.name), Colon, Num(n)]
    case I(x) => [Name(f.name), Colon, Name(x)]
    case M(fs) => [Name(f.name), Open] + AllTokens(fs) + [Close]
  }

  function AllTokens(fs: seq<Field>): seq<Token>
    decreases fs, 1
  {
    if fs == [] then [] else TokensOf(fs[0]) + AllTokens(fs[1..])
  }

  lemma {:induction false} TokensParse(f: Field, rest: seq<Token>)
    ensures ParseField(TokensOf(f) + rest) == Some((f, rest))
    decreases f, 0
  {
    var ts := TokensOf(f) + rest;
    match f.value
    case M(fs) =>
      var tail := [Close] + rest;
      AllTokensParse(fs, tail);
      assert ts[2..] == AllTokens(fs) + tail;
      assert tail[1..] == rest;
    case _ =>
      assert ts[3..] == rest;
  }

  lemma {:induction false} AllTokensParse(fs: seq<Field>, rest: seq<Token>)
    requires rest == [] || rest[0].Close?
    ensures ParseFields(AllTokens(fs) + rest) == Some((fs, rest))
    decreases fs, 1
  {
    if fs == [] {
      assert AllTokens(fs) + rest == rest;
    } else {
      var more := AllTokens(fs[1..]) + rest;
      TokensParse(fs[0], more);
      AllTokensParse(fs[1..], rest);
      assert AllTokens(fs) + rest == TokensOf(fs[0]) + more;
      assert [fs[0]] + fs[1..] == fs;
    }
  }

  // ----- A text cut after white space can be read in parts -----

  /** Nothing that follows can change how `b` is read. */
  predicate Closed(b: string) {
    b == "" || Space(b[|b| - 1])
  }

  lemma EscapeAppend(s: string, x: string)
    requires ReadEscape(s).Some? && ReadEscape(s).value.1 != ""
    ensures ReadEscape(s + x) == Some((ReadEscape(s).value.0, ReadEscape(s).value.1 + x))
  {
    assert (s + x)[1..] == s[1..] + x;
    var n := OctalRun(s);
    if n > 0 && n < |s| {
      assert OctalRun(s + x) == n;
      assert (s + x)[n..] == s[n..] + x;
    }
  }

  lemma {:induction false} StringAppend(s: string, x: string)
    requires ReadString(s).Some?
    ensures ReadString(s + x) == Some((ReadString(s).value.0, ReadString(s).value.1 + x))
    decreases |s|
  {
    assert (s + x)[1..] == s[1..] + x;
    if s[0] == '\\' {
      EscapeAppend(s[1..], x);
      StringAppend(ReadEscape(s[1..]).value.1, x);
    } else if s[0] != '"' {
      StringAppend(s[1..], x);
    }
  }

  lemma {:induction false} NameAppend(s: string, x: string)
    requires NameLength(s) < |s|
    ensures NameLength(s + x) == NameLength(s)
  {
    if NameChar(s[0]) {
      assert (s + x)[1..] == s[1..] + x;
      NameAppend(s[1..], x);
    }
  }

  lemma TokenAppend(s: string, x: string)
    requires s != "" && Closed(s) && NextToken(s).Some?
    ensures NextToken(s + x) == Some((NextToken(s).value.0, NextToken(s).value.1 + x))
    ensures Closed(NextToken(s).value.1) && NextToken(s).value.1 != ""
  {
    assert (s + x)[1..] == s[1..] + x;
    if s[0] == '"' {
      StringAppend(s[1..], x);
    } else if NameChar(s[0]) {
      NameAppend(s, x);
      var n := NameLength(s);
      assert (s + x)[..n] == s[..n] && (s + x)[n..] == s[n..] + x;
    }
  }

  function Joined(a: Option<seq<Token>>, b: Option<seq<Token>>): Option<seq<Token>> {
    if a.Some? && b.Some? then Some(a.value + b.value) else None
  }

  lemma {:induction false} LexAppend(b: string, x: string)
    requires Closed(b) && Lex(b).Some?
    ensures Lex(b + x) == Joined(Lex(b), Lex(x))
    decreases |b|
  {
    if b == "" {
      assert b + x == x;
      assert Lex(x).Some? ==> [] + Lex(x).value == Lex(x).value;
    } else if Space(b[0]) {
      assert (b + x)[1..] == b[1..] + x;
      LexAppend(b[1..], x);
    } else {
      LexToken(b);
      TokenAppend(b, x);
      LexToken(b + x);
      hide Lex, NextToken, Closed;
      var (t, rest) := NextToken(b).value;
      LexAppend(rest, x);
      if Lex(x).Some? {
        assert [t] + (Lex(rest).value + Lex(x).value) == [t] + Lex(rest).value + Lex(x).value;
      }
    }
  }

  lemma LexToken(s: string)
    requires s != "" && !Space(s[0])
    ensures Lex(s) == if NextToken(s).None? then None
                      else Joined(Some([NextToken(s).value.0]), Lex(NextToken(s).value.1))
  {
    hide NextToken;
  }
}
