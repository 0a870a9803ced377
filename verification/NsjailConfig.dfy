/** Printing an nsjail configuration in text format, and what a reader gets back from it. */
module NsjailConfig {
  import opened Wrappers
  import opened TextFormat
  import opened NsjailMessage

  // ----- String literals -----

  function OctalDigit(n: nat): (c: char)
    requires n < 8
    ensures Octal(c) && OctalValue(c) == n
  {
    '0' + n as char
  }

  /** Three octal digits, as the format %03o prints a byte. */
  function Octal3(n: nat): string
    requires n < 512
  {
    [OctalDigit(n / 64), OctalDigit(n / 8 % 8), OctalDigit(n % 8)]
  }

  function EscapeChar(c: char): string {
    if c == '\\' then "\\\\"
    else if c == '"' then "\\\""
    else if c == '\n' then "\\n"
    else if c == '\r' then "\\r"
    else if c < '\U{20}' || c == '\U{7F}' then "\\" + Octal3(c as nat)
    else [c]
  }

  function Escaped(s: string): string {
    if s == "" then "" else EscapeChar(s[0]) + Escaped(s[1..])
  }

  function Quoted(s: string): string {
    "\"" + Escaped(s) + "\""
  }

  /** The switch in protoString's loop. */
  method WriteByte(b: string, c: char) returns (b': string)
    ensures b' == b + EscapeChar(c)
  {
    if c == '\\' {
      b' := b + "\\\\";
    } else if c == '"' {
      b' := b + "\\\"";
    } else if c == '\n' {
      b' := b + "\\n";
    } else if c == '\r' {
      b' := b + "\\r";
    } else if c < '\U{20}' || c == '\U{7F}' {
      b' := b + ("\\" + Octal3(c as nat));
    } else {
      b' := b + [c];
    }
  }

  /** protoString, byte by byte. */
  method ProtoString(s: string) returns (b: string)
    ensures b == Quoted(s)
  {
    hide EscapeChar;
    b := "\"";
    for i := 0 to |s|
      invariant b + Escaped(s[i..]) == "\"" + Escaped(s)
    {
      assert s[i..][0] == s[i] && s[i..][1..] == s[i + 1..];
      ghost var before := b;
      b := WriteByte(b, s[i]);
      assert before + (EscapeChar(s[i]) + Escaped(s[i + 1..])) == b + Escaped(s[i + 1..]);
    }
    assert s[|s|..] == "";
    b := b + "\"";
  }

  lemma ReadOctal3(n: nat, rest: string)
    requires n < 256
    ensures ReadEscape(Octal3(n) + rest) == Some((n as char, rest))
  {
    var s := Octal3(n) + rest;
    assert s[0] == OctalDigit(n / 64) && s[1] == OctalDigit(n / 8 % 8) && s[2] == OctalDigit(n % 8);
    assert OctalRun(s) == 3;
    assert OctalOf(s, 3) == n;
    assert s[3..] == rest;
  }

  lemma ReadAfterBackslash(e: string, c: char, rest: string)
    requires ReadEscape(e + rest) == Some((c, rest)) && ReadString(rest).Some?
    ensures ReadString("\\" + e + rest) == Some(([c] + ReadString(rest).value.0, ReadString(rest).value.1))
  {
    hide ReadEscape;
    var s := "\\" + e + rest;
    assert s[0] == '\\' && s[1..] == e + rest;
  }

  lemma ReadLetterEscape(e: char, c: char, rest: string)
    requires (e == c && (c == '\\' || c == '"')) || (e == 'n' && c == '\n') || (e == 'r' && c == '\r')
    ensures ReadEscape([e] + rest) == Some((c, rest))
  {
    assert ([e] + rest)[1..] == rest;
  }

  lemma ReadPlain(c: char, rest: string)
    requires c != '\\' && c != '"' && c >= '\U{20}' && ReadString(rest).Some?
    ensures ReadString([c] + rest) == Some(([c] + ReadString(rest).value.0, ReadString(rest).value.1))
  {
    assert ([c] + rest)[1..] == rest;
  }

  /** Reading past one escaped char gives that char. */
  lemma ReadOneChar(c: char, rest: string)
    requires ReadString(rest).Some?
    ensures ReadString(EscapeChar(c) + rest) == Some(([c] + ReadString(rest).value.0, ReadString(rest).value.1))
  {
    hide ReadString, ReadEscape, Octal3;
    if c == '\\' || c == '"' {
      ReadLetterEscape(c, c, rest);
      ReadAfterBackslash([c], c, rest);
      assert EscapeChar(c) == "\\" + [c];
    } else if c == '\n' {
      ReadLetterEscape('n', c, rest);
      ReadAfterBackslash("n", c, rest);
      assert EscapeChar(c) == "\\" + "n";
    } else if c == '\r' {
      ReadLetterEscape('r', c, rest);
      ReadAfterBackslash("r", c, rest);
      assert EscapeChar(c) == "\\" + "r";
    } else if c < '\U{20}' || c == '\U{7F}' {
      ReadOctal3(c as nat, rest);
      ReadAfterBackslash(Octal3(c as nat), c, rest);
    } else {
      ReadPlain(c, rest);
    }
  }

  lemma ReadQuote(rest: string)
    ensures ReadString("\"" + rest) == Some(("", rest))
  {
    assert ("\"" + rest)[1..] == rest;
  }

  lemma EscapedUnfolds(s: string)
    ensures Escaped(s) == if s == "" then "" else EscapeChar(s[0]) + Escaped(s[1..])
  {
    hide EscapeChar;
  }

  lemma Regroup(a: string, b: string, c: string)
    ensures a + b + c == a + (b + c)
  {
  }

  /** Reading a literal from its print returns the string and what follows, for every byte string. */
  lemma {:induction false} ReadEscaped(s: string, rest: string)
    ensures ReadString(Escaped(s) + ("\"" + rest)) == Some((s, rest))
  {
    hide ReadString, EscapeChar, Escaped;
    EscapedUnfolds(s);
    var close := "\"" + rest;
    if s == "" {
      assert "" + close == close;
      ReadQuote(rest);
    } else {
      var (head, tail) := (EscapeChar(s[0]), Escaped(s[1..]));
      ReadEscaped(s[1..], rest);
      ReadOneChar(s[0], tail + close);
      Regroup(head, tail, close);
      assert [s[0]] + s[1..] == s;
    }
  }

  /** A printed literal has no control characters, so it stays on its line. */
  lemma {:induction false} EscapedIsPlain(s: string)
    ensures forall i | 0 <= i < |Escaped(s)| :: Escaped(s)[i] >= ' ' && Escaped(s)[i] != '\U{7F}'
  {
    if s != "" {
      EscapedIsPlain(s[1..]);
      EscapeIsPlain(s[0]);
      EscapedUnfolds(s);
      hide Escaped, EscapeChar;
      var (head, tail) := (EscapeChar(s[0]), Escaped(s[1..]));
      assert Escaped(s) == head + tail;
    }
  }

  lemma EscapeIsPlain(c: char)
    ensures forall i | 0 <= i < |EscapeChar(c)| :: EscapeChar(c)[i] >= ' ' && EscapeChar(c)[i] != '\U{7F}'
  {
    if c < ' ' || c == '\U{7F}' {
      var n := c as nat;
      assert Octal(OctalDigit(n / 64)) && Octal(OctalDigit(n / 8 % 8)) && Octal(OctalDigit(n % 8));
    }
  }

  // ----- Numbers -----

  function DigitChar(n: nat): (c: char)
    requires n < 10
    ensures Digit(c) && DigitValue(c) == n
  {
    '0' + n as char
  }

  function Decimal(n: nat): (s: string)
    ensures s != "" && (forall i | 0 <= i < |s| :: Digit(s[i])) && (s[0] == '0' ==> n == 0 && |s| == 1)
  {
    if n < 10 then [DigitChar(n)] else Decimal(n / 10) + [DigitChar(n % 10)]
  }

  lemma {:induction false} DecimalMeans(n: nat)
    ensures NumberOf(Decimal(n)) == n
  {
    if n >= 10 {
      DecimalMeans(n / 10);
      var s := Decimal(n);
      assert s[..|s| - 1] == Decimal(n / 10);
    } else {
      assert Decimal(n)[..0] == "";
    }
  }

  // ----- Lines -----

  predicate IsName(s: string) {
    s != "" && Letter(s[0]) && forall i | 0 <= i < |s| :: NameChar(s[i])
  }

  /** A value that fits on one line. */
  predicate Scalar(v: Value) {
    v.S? || v.N? || (v.I? && IsName(v.ident))
  }

  function ScalarText(v: Value): string
    requires Scalar(v)
  {
    match v
    case S(s) => Quoted(s)
    case N(n) => Decimal(n)
    case I(x) => x
  }

  function ScalarToken(v: Value): Token
    requires Scalar(v)
  {
    match v
    case S(s) => Str(s)
    case N(n) => Num(n)
    case I(x) => Name(x)
  }

  lemma {:induction false} NameLengthOf(s: string, rest: string)
    requires (forall i | 0 <= i < |s| :: NameChar(s[i])) && (rest == "" || !NameChar(rest[0]))
    ensures NameLength(s + rest) == |s|
  {
    if s == "" {
      assert s + rest == rest;
    } else {
      assert (s + rest)[1..] == s[1..] + rest;
      NameLengthOf(s[1..], rest);
    }
  }

  lemma QuotedIsToken(text: string, tail: string)
    ensures NextToken(Quoted(text) + tail) == Some((Str(text), tail))
  {
    hide ReadString, Escaped;
    ReadEscaped(text, tail);
    var s := Quoted(text) + tail;
    assert s[0] == '"' && s[1..] == Escaped(text) + ("\"" + tail);
  }

  lemma WordIsToken(word: string, tail: string)
    requires word != "" && (forall i | 0 <= i < |word| :: NameChar(word[i])) && tail != "" && !NameChar(tail[0])
    ensures NameLength(word + tail) == |word| && (word + tail)[..|word|] == word && (word + tail)[|word|..] == tail
    ensures (word + tail)[0] == word[0]
  {
    NameLengthOf(word, tail);
  }

  lemma NumberIsToken(n: nat, tail: string)
    requires tail != "" && !NameChar(tail[0])
    ensures NextToken(Decimal(n) + tail) == Some((Num(n), tail))
  {
    hide NameLength, Decimal, NumberOf;
    WordIsToken(Decimal(n), tail);
    DecimalMeans(n);
    assert Digit(Decimal(n)[0]);
  }

  lemma IdentIsToken(x: string, tail: string)
    requires IsName(x) && tail != "" && !NameChar(tail[0])
    ensures NextToken(x + tail) == Some((Name(x), tail))
  {
    hide NameLength;
    WordIsToken(x, tail);
  }

  /** A scalar followed by white space is read as one token. */
  lemma ScalarIsToken(v: Value, sep: char, rest: string)
    requires Scalar(v) && Space(sep)
    ensures var s := ScalarText(v) + ([sep] + rest);
            s != "" && !Space(s[0]) && NextToken(s) == Some((ScalarToken(v), [sep] + rest))
  {
    hide NextToken;
    var tail := [sep] + rest;
    match v
    case S(text) => QuotedIsToken(text, tail);
    case N(n) =>
      NumberIsToken(n, tail);
      assert Digit(Decimal(n)[0]);
    case I(x) => IdentIsToken(x, tail);
  }

  lemma LexSpace(sep: char)
    requires Space(sep)
    ensures Lex([sep]) == Some([])
  {
    assert [sep][1..] == "";
  }

  lemma LexScalar(v: Value, sep: char)
    requires Scalar(v) && Space(sep)
    ensures Lex(ScalarText(v) + [sep]) == Some([ScalarToken(v)]) && Closed(ScalarText(v) + [sep])
  {
    hide NextToken, Lex, ScalarText, ScalarToken;
    var s := ScalarText(v) + [sep];
    ScalarIsToken(v, sep, "");
    assert [sep] + "" == [sep];
    LexToken(s);
    LexSpace(sep);
    assert [ScalarToken(v)] + [] == [ScalarToken(v)];
  }

  lemma LexKey(name: string)
    requires IsName(name)
    ensures Lex(name + ": ") == Some([Name(name), Colon]) && Closed(name + ": ")
  {
    hide NextToken;
    IdentIsToken(name, ": ");
    LexToken(name + ": ");
    ColonIsToken();
    LexToken(": ");
    LexSpace(' ');
    assert [Colon] + [] == [Colon] && [Name(name)] + [Colon] == [Name(name), Colon];
  }

  lemma ColonIsToken()
    ensures NextToken(": ") == Some((Colon, " "))
  {
    assert ": "[1..] == " ";
  }

  /** The text of one scalar field. */
  function LineText(name: string, v: Value, sep: char): string
    requires Scalar(v)
  {
    name + ": " + (ScalarText(v) + [sep])
  }

  lemma LexLine(name: string, v: Value, sep: char)
    requires IsName(name) && Scalar(v) && Space(sep)
    ensures Lex(LineText(name, v, sep)) == Some(TokensOf(Field(name, v))) && Closed(LineText(name, v, sep))
  {
    hide Lex, ScalarText;
    LexKey(name);
    LexScalar(v, sep);
    LexAppend(name + ": ", ScalarText(v) + [sep]);
    assert [Name(name), Colon] + [ScalarToken(v)] == TokensOf(Field(name, v));
  }

  lemma {:induction false} TokensAppend(fs: seq<Field>, f: Field)
    ensures AllTokens(fs + [f]) == AllTokens(fs) + TokensOf(f)
  {
    if fs == [] {
      assert [f][1..] == [];
      assert fs + [f] == [f];
    } else {
      TokensAppend(fs[1..], f);
      assert (fs + [f])[1..] == fs[1..] + [f];
    }
  }

  // ----- Texts of rows -----

  /** The text so far reads as the rows so far. */
  predicate Prints(b: string, rows: seq<Row>) {
    Closed(b) && Lex(b) == Some(AllTokens(FieldsOf(rows)))
  }

  lemma PrintsOneMore(b: string, rows: seq<Row>, text: string, row: Row)
    requires Prints(b, rows) && row.present && text != ""
    requires Closed(text) && Lex(text) == Some(TokensOf(Field(row.name, row.value)))
    ensures Prints(b + text, rows + [row])
  {
    hide Lex, AllTokens, TokensOf, FieldsOf;
    LexAppend(b, text);
    OneMoreRow(rows, row);
    TokensAppend(FieldsOf(rows), Field(row.name, row.value));
  }

  lemma PrintsAbsent(b: string, rows: seq<Row>, row: Row)
    requires Prints(b, rows) && !row.present
    ensures Prints(b, rows + [row])
  {
    hide Lex;
    OneMoreRow(rows, row);
    assert FieldsOf(rows) + [] == FieldsOf(rows);
  }

  /** White space in front changes nothing. */
  lemma {:induction false} LexIndented(indent: string, text: string)
    requires (forall i | 0 <= i < |indent| :: indent[i] == ' ') && text != "" && Closed(text)
    ensures Lex(indent + text) == Lex(text) && Closed(indent + text)
  {
    if indent == "" {
      assert indent + text == text;
    } else {
      assert (indent + text)[1..] == indent[1..] + text;
      LexIndented(indent[1..], text);
    }
  }

  lemma LexOpen(name: string, sep: char)
    requires IsName(name) && Space(sep)
    ensures Lex(name + (" {" + [sep])) == Some([Name(name), Open]) && Closed(name + (" {" + [sep]))
  {
    hide NextToken;
    var tail := " {" + [sep];
    IdentIsToken(name, tail);
    LexToken(name + tail);
    assert tail[1..] == "{" + [sep];
    BraceIsToken(sep);
    LexToken("{" + [sep]);
    LexSpace(sep);
    assert [Open] + [] == [Open] && [Name(name)] + [Open] == [Name(name), Open];
  }

  lemma BraceIsToken(sep: char)
    requires Space(sep)
    ensures NextToken("{" + [sep]) == Some((Open, [sep])) && NextToken("}" + [sep]) == Some((Close, [sep]))
  {
    assert ("{" + [sep])[1..] == [sep] && ("}" + [sep])[1..] == [sep];
  }

  lemma LexClose(sep: char)
    requires Space(sep)
    ensures Lex("}" + [sep]) == Some([Close]) && Closed("}" + [sep])
  {
    hide NextToken;
    BraceIsToken(sep);
    LexToken("}" + [sep]);
    LexSpace(sep);
    assert [Close] + [] == [Close];
  }

  /** The text of a message field around the text of its own fields. */
  function BlockText(name: string, inner: string, sep: char): string {
    name + (" {" + [sep]) + (inner + "}\n")
  }

  lemma LexBlock(name: string, inner: string, rows: seq<Row>, sep: char)
    requires IsName(name) && Space(sep) && Prints(inner, rows)
    ensures Lex(BlockText(name, inner, sep)) == Some(TokensOf(Field(name, M(FieldsOf(rows)))))
    ensures Closed(BlockText(name, inner, sep))
  {
    hide Lex, FieldsOf;
    LexOpen(name, sep);
    LexClose('\n');
    assert "}" + ['\n'] == "}\n";
    LexAppend(inner, "}\n");
    LexAppend(name + (" {" + [sep]), inner + "}\n");
    var ts := AllTokens(FieldsOf(rows));
    assert [Name(name), Open] + (ts + [Close]) == [Name(name), Open] + ts + [Close];
  }

  // ----- The printer -----

  class Builder {
    var b: string
    ghost var rows: seq<Row>

    ghost predicate Valid()
      reads this
    {
      Prints(b, rows)
    }

    constructor ()
      ensures Valid() && rows == [] && b == ""
    {
      b := "";
      rows := [];
    }

    /** One scalar field on a line of its own, printed only if present. */
    method Line(indent: string, name: string, present: bool, value: Value, sep: char)
      requires Valid() && IsName(name) && Scalar(value) && Space(sep)
      requires forall i | 0 <= i < |indent| :: indent[i] == ' '
      modifies this
      ensures Valid() && rows == old(rows) + [Row(name, present, value)]
    {
      var row := Row(name, present, value);
      if present {
        var text;
        match value {
          case S(s) => text := ProtoString(s);
          case N(n) => text := Decimal(n);
          case I(x) => text := x;
        }
        var line := name + ": " + (text + [sep]);
        LexLine(name, value, sep);
        LexIndented(indent, line);
        PrintsOneMore(b, rows, indent + line, row);
        b := b + (indent + line);
      } else {
        PrintsAbsent(b, rows, row);
      }
      rows := rows + [row];
    }

    /** A message field, printed around the text of its own fields. */
    method Block(name: string, present: bool, inner: string, ghost fields: seq<Row>, sep: char)
      requires Valid() && IsName(name) && Space(sep) && Prints(inner, fields)
      modifies this
      ensures Valid() && rows == old(rows) + [Row(name, present, M(FieldsOf(fields)))]
    {
      ghost var row := Row(name, present, M(FieldsOf(fields)));
      if present {
        LexBlock(name, inner, fields, sep);
        PrintsOneMore(b, rows, BlockText(name, inner, sep), row);
        b := b + BlockText(name, inner, sep);
      } else {
        PrintsAbsent(b, rows, row);
      }
      rows := rows + [row];
    }
  }

  lemma WordsAreNames()
    ensures IsName("true") && IsName("false") && IsName("LISTEN") && IsName("ONCE")
  {
  }

  lemma HeadNames()
    ensures IsName("mode") && IsName("log_file") && IsName("hostname") && IsName("cwd") && IsName("time_limit")
    ensures IsName("clone_newuser") && IsName("clone_newnet") && IsName("clone_newtime")
  {
  }

  lemma LimitNames()
    ensures IsName("cgroup_mem_max") && IsName("rlimit_as") && IsName("rlimit_core") && IsName("rlimit_cpu")
    ensures IsName("rlimit_fsize") && IsName("rlimit_nofile") && IsName("rlimit_nproc") && IsName("rlimit_stack")
  {
  }

  lemma UserNames()
    ensures IsName("inside_id") && IsName("outside_id") && IsName("count") && IsName("uidmap")
    ensures IsName("gidmap")
  {
  }

  lemma EnvarNames()
    ensures IsName("envar")
  {
  }

  lemma MountNames()
    ensures IsName("src") && IsName("dst") && IsName("fstype") && IsName("rw")
    ensures IsName("is_bind") && IsName("mount")
  {
  }

  lemma NetNames()
    ensures IsName("seccomp_string") && IsName("iface_vs") && IsName("iface_vs_ip") && IsName("iface_vs_nm")
    ensures IsName("iface_vs_gw") && IsName("iface_vs_ma") && IsName("use_pasta") && IsName("port")
  {
  }

  method WriteHead(w: Builder, c: Config)
    requires w.Valid()
    modifies w
    ensures w.Valid() && w.rows == old(w.rows) + HeadRows(c)
  {
    hide Prints, FieldsOf, IsName;
    HeadNames();
    WordsAreNames();
    w.Line("", "mode", true, I(ModeWord(c)), '\n');
    w.Line("", "log_file", true, S(c.log), '\n');
    w.Line("", "hostname", c.hostname != "", S(c.hostname), '\n');
    w.Line("", "cwd", c.cwd != "", S(c.cwd), '\n');
    w.Line("", "time_limit", c.timeLimit > 0, N(c.timeLimit), '\n');
  }

  method WriteClones(w: Builder, c: Config)
    requires w.Valid()
    modifies w
    ensures w.Valid() && w.rows == old(w.rows) + CloneRows(c)
  {
    hide Prints, FieldsOf, IsName;
    HeadNames();
    WordsAreNames();
    w.Line("", "clone_newuser", c.disableCloneNewUser, FALSE, '\n');
    w.Line("", "clone_newnet", c.disableCloneNewNet, FALSE, '\n');
    w.Line("", "clone_newtime", c.cloneNewTime, TRUE, '\n');
  }

  method WriteLimits(w: Builder, c: Config)
    requires w.Valid()
    modifies w
    ensures w.Valid() && w.rows == old(w.rows) + LimitRows(c)
  {
    hide Prints, FieldsOf, IsName;
    LimitNames();
    w.Line("", "cgroup_mem_max", c.cgroupMemMax > 0, N(c.cgroupMemMax), '\n');
    w.Line("", "rlimit_as", c.rlimitAS > 0, N(c.rlimitAS), '\n');
    w.Line("", "rlimit_core", c.rlimitCore > 0, N(c.rlimitCore), '\n');
    w.Line("", "rlimit_cpu", c.rlimitCPU > 0, N(c.rlimitCPU), '\n');
    w.Line("", "rlimit_fsize", c.rlimitFsize > 0, N(c.rlimitFsize), '\n');
    w.Line("", "rlimit_nofile", c.rlimitNofile > 0, N(c.rlimitNofile), '\n');
    w.Line("", "rlimit_nproc", c.rlimitNproc > 0, N(c.rlimitNproc), '\n');
    w.Line("", "rlimit_stack", c.rlimitStack > 0, N(c.rlimitStack), '\n');
  }

  method WriteUser(w: Builder, c: Config)
    requires w.Valid()
    modifies w
    ensures w.Valid() && w.rows == old(w.rows) + UserRows(c)
  {
    hide Prints, FieldsOf, IsName;
    UserNames();
    var q := new Builder();
    q.Line("", "inside_id", true, S(c.user), ' ');
    q.Line("", "outside_id", true, S(""), ' ');
    q.Line("", "count", true, N(1), ' ');
    assert q.rows == IdRows(c.user);
    w.Block("uidmap", c.user != "", q.b, IdRows(c.user), ' ');
    w.Block("gidmap", c.user != "", q.b, IdRows(c.user), ' ');
  }

  method WriteEnvars(w: Builder, envar: seq<string>)
    requires w.Valid()
    modifies w
    ensures w.Valid() && w.rows == old(w.rows) + EnvarRows(envar)
  {
    hide Prints, FieldsOf, IsName;
    EnvarNames();
    for i := 0 to |envar|
      invariant w.Valid() && w.rows == old(w.rows) + EnvarRows(envar)[..i]
    {
      w.Line("", "envar", true, S(envar[i]), '\n');
    }
  }

  method WriteMount(w: Builder, m: MountPt, present: bool)
    requires w.Valid()
    modifies w
    ensures w.Valid() && w.rows == old(w.rows) + [Row("mount", present, M(FieldsOf(MountFields(m))))]
  {
    hide Prints, FieldsOf, IsName;
    MountNames();
    WordsAreNames();
    var q := new Builder();
    q.Line("  ", "src", m.src != "", S(m.src), '\n');
    q.Line("  ", "dst", true, S(m.dst), '\n');
    q.Line("  ", "fstype", m.fstype != "", S(m.fstype), '\n');
    q.Line("  ", "rw", m.rw, TRUE, '\n');
    q.Line("  ", "is_bind", m.isBind, TRUE, '\n');
    assert q.rows == MountFields(m);
    w.Block("mount", present, q.b, MountFields(m), '\n');
  }

  method WriteMounts(w: Builder, mounts: seq<MountPt>)
    requires w.Valid()
    modifies w
    ensures w.Valid() && w.rows == old(w.rows) + MountRows(mounts)
  {
    hide Prints, FieldsOf, MountFields;
    for i := 0 to |mounts|
      invariant w.Valid() && w.rows == old(w.rows) + MountRows(mounts)[..i]
    {
      WriteMount(w, mounts[i], true);
    }
  }

  method WriteNet(w: Builder, c: Config)
    requires w.Valid()
    modifies w
    ensures w.Valid() && w.rows == old(w.rows) + NetRows(c)
  {
    hide Prints, FieldsOf, IsName;
    NetNames();
    var some := c.macvlan.Some?;
    var m := if some then c.macvlan.value else Macvlan("", "", "", "", "");
    w.Line("", "seccomp_string", c.seccompString != "", S(c.seccompString), '\n');
    w.Line("", "iface_vs", some, S(m.iface), '\n');
    w.Line("", "iface_vs_ip", some && m.ip != "", S(m.ip), '\n');
    w.Line("", "iface_vs_nm", some && m.netmask != "", S(m.netmask), '\n');
    w.Line("", "iface_vs_gw", some && m.gateway != "", S(m.gateway), '\n');
    w.Line("", "iface_vs_ma", some && m.mac != "", S(m.mac), '\n');
  }

  method WriteTail(w: Builder, c: Config)
    requires w.Valid()
    modifies w
    ensures w.Valid() && w.rows == old(w.rows) + TailRows(c)
  {
    hide Prints, FieldsOf, IsName;
    NetNames();
    WordsAreNames();
    w.Line("", "use_pasta", c.usePasta, TRUE, '\n');
    w.Line("", "port", c.listenPort > 0, N(c.listenPort), '\n');
  }

  lemma PrintsParse(b: string, rows: seq<Row>)
    requires Prints(b, rows)
    ensures Parse(b) == Some(FieldsOf(rows))
  {
    hide FieldsOf, AllTokens, ParseFields, Lex;
    AllTokensParse(FieldsOf(rows), []);
    assert AllTokens(FieldsOf(rows)) + [] == AllTokens(FieldsOf(rows));
  }

  /** ToTextProto: whatever the configuration holds, a reader gets its message back, and from it the configuration. */
  method ToTextProto(c: Config) returns (text: string)
    ensures Parse(text) == Some(MessageOf(c))
    ensures Rebuild(Parse(text).value) == Canonical(c)
  {
    RebuildUndoes(c);
    hide Rebuild, Canonical;
    hide HeadRows, CloneRows, LimitRows, UserRows, EnvarRows, MountRows, NetRows, TailRows, Prints;
    var w := new Builder();
    WriteHead(w, c);
    WriteClones(w, c);
    WriteLimits(w, c);
    WriteUser(w, c);
    WriteEnvars(w, c.envar);
    WriteMount(w, MountPt(c.chroot, "/", "", false, true), c.chroot != "");
    WriteMounts(w, c.mounts);
    WriteNet(w, c);
    WriteTail(w, c);
    assert w.rows == AllRows(c);
    PrintsParse(w.b, w.rows);
    text := w.b;
  }
}
