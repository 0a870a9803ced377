/** Reading a file as text when the read was cut at a byte limit. */
module Utf8 {
  import opened Bytes
  import opened ExecResponse
  import opened Wrappers
  import LimitWriter

  predicate In(b: Byte, lo: int, hi: int) {
    lo <= b <= hi
  }

  predicate Tail(b: Byte) {
    In(b, 0x80, 0xBF)
  }

  /** The length of the character at the front, by the grammar in section 4 of RFC 3629; 0 if there is none. */
  function CharLength(b: bytes): (n: nat)
    ensures n <= |b| && n <= 4
  {
    if |b| >= 1 && In(b[0], 0x00, 0x7F) then 1
    else if |b| >= 2 && In(b[0], 0xC2, 0xDF) && Tail(b[1]) then 2
    else if |b| >= 3 && Three(b[0], b[1]) && Tail(b[2]) then 3
    else if |b| >= 4 && Four(b[0], b[1]) && Tail(b[2]) && Tail(b[3]) then 4
    else 0
  }

  predicate Three(x: Byte, y: Byte) {
    || (x == 0xE0 && In(y, 0xA0, 0xBF)) || (In(x, 0xE1, 0xEC) && Tail(y))
    || (x == 0xED && In(y, 0x80, 0x9F)) || (In(x, 0xEE, 0xEF) && Tail(y))
  }

  predicate Four(x: Byte, y: Byte) {
    || (x == 0xF0 && In(y, 0x90, 0xBF)) || (In(x, 0xF1, 0xF3) && Tail(y)) || (x == 0xF4 && In(y, 0x80, 0x8F))
  }

  /** The Unicode scalar values. */
  predicate Scalar(u: int) {
    0 <= u <= 0x10FFFF && !(0xD800 <= u <= 0xDFFF)
  }

  /** The encoding of a scalar value, by the table in section 3 of RFC 3629. */
  function Encode(u: int): bytes
    requires Scalar(u)
  {
    if u < 0x80 then [u]
    else if u < 0x800 then [0xC0 + u / 64, 0x80 + u % 64]
    else if u < 0x10000 then [0xE0 + u / 4096, 0x80 + u / 64 % 64, 0x80 + u % 64]
    else [0xF0 + u / 262144, 0x80 + u / 4096 % 64, 0x80 + u / 64 % 64, 0x80 + u % 64]
  }

  /** What a byte carries above the mark of its kind. */
  function Part(b: Byte, mark: int): int {
    b - mark
  }

  /** The scalar value that a character stands for. */
  function Decode(b: bytes): int
    requires CharLength(b) > 0
  {
    match CharLength(b)
    case 1 => b[0]
    case 2 => Part(b[0], 0xC0) * 64 + Part(b[1], 0x80)
    case 3 => Part(b[0], 0xE0) * 4096 + Part(b[1], 0x80) * 64 + Part(b[2], 0x80)
    case _ => Part(b[0], 0xF0) * 262144 + Part(b[1], 0x80) * 4096 + Part(b[2], 0x80) * 64 + Part(b[3], 0x80)
  }

  /** The grammar accepts exactly the encodings of scalar values: a character at the front is one of them, */
  lemma CharIsEncoding(b: bytes)
    requires CharLength(b) > 0
    ensures Scalar(Decode(b)) && b[..CharLength(b)] == Encode(Decode(b))
  {
    var n := CharLength(b);
    if n == 2 {
      TwoBytes(Part(b[0], 0xC0), Part(b[1], 0x80));
    } else if n == 3 {
      ThreeBytes(Part(b[0], 0xE0), Part(b[1], 0x80), Part(b[2], 0x80));
    } else if n == 4 {
      FourBytes(Part(b[0], 0xF0), Part(b[1], 0x80), Part(b[2], 0x80), Part(b[3], 0x80));
    }
  }

  lemma TwoBytes(x: int, y: int)
    requires 2 <= x <= 0x1F && 0 <= y < 64
    ensures var u := x * 64 + y; 0x80 <= u < 0x800 && u / 64 == x && u % 64 == y
  {
  }

  lemma ThreeBytes(x: int, y: int, z: int)
    requires 0 <= x <= 0xF && 0 <= y < 64 && 0 <= z < 64
    ensures var u := x * 4096 + y * 64 + z; u / 4096 == x && u / 64 % 64 == y && u % 64 == z
  {
    var u := x * 4096 + y * 64 + z;
    assert u / 64 == x * 64 + y;
  }

  lemma FourBytes(w: int, x: int, y: int, z: int)
    requires 0 <= w <= 4 && 0 <= x < 64 && 0 <= y < 64 && 0 <= z < 64
    ensures var u := w * 262144 + x * 4096 + y * 64 + z;
            u / 262144 == w && u / 4096 % 64 == x && u / 64 % 64 == y && u % 64 == z
  {
    var u := w * 262144 + x * 4096 + y * 64 + z;
    assert u / 64 == (w * 64 + x) * 64 + y;
    assert u / 4096 == w * 64 + x;
  }

  /** and every encoding at the front is a character. */
  lemma EncodingIsChar(u: int, rest: bytes)
    requires Scalar(u)
    ensures CharLength(Encode(u) + rest) == |Encode(u)| && Decode(Encode(u) + rest) == u
  {
    var b := Encode(u) + rest;
    if u >= 0x10000 {
      assert u / 64 == u / 4096 * 64 + u / 64 % 64 && u / 4096 == u / 262144 * 64 + u / 4096 % 64;
    } else if u >= 0x800 {
      assert u / 64 == u / 4096 * 64 + u / 64 % 64;
    }
  }

  predicate Valid(b: bytes)
    decreases |b|
  {
    b == [] || (CharLength(b) > 0 && Valid(b[CharLength(b)..]))
  }

  /** How far whole characters reach from the front. */
  function WholeChars(b: bytes): (n: nat)
    ensures n <= |b|
    decreases |b|
  {
    var c := CharLength(b);
    if c == 0 then 0 else c + WholeChars(b[c..])
  }

  /** Cutting a sequence keeps its first character whole or leaves no character at all. */
  lemma CharLengthOfCut(b: bytes, j: nat)
    requires j <= |b| && CharLength(b) > 0
    ensures CharLength(b[..j]) == if j < CharLength(b) then 0 else CharLength(b)
  {
  }

  /** A cut is valid exactly if it is made of whole characters; so `WholeChars` is the longest valid prefix. */
  lemma {:induction false} WholeCharsIsLongest(b: bytes, j: nat)
    requires j <= |b|
    ensures Valid(b[..WholeChars(b)])
    ensures Valid(b[..j]) ==> j <= WholeChars(b)
    decreases |b|
  {
    var c := CharLength(b);
    if c == 0 {
      if j > 0 && Valid(b[..j]) { NoCharInCut(b, j); }
    } else {
      var w := WholeChars(b);
      WholeCharsIsLongest(b[c..], if j >= c then j - c else 0);
      CharLengthOfCut(b, w);
      assert b[..w][c..] == b[c..][..w - c];
      CharLengthOfCut(b, j);
      if j >= c {
        assert b[..j][c..] == b[c..][..j - c];
      }
    }
  }

  lemma NoCharInCut(b: bytes, j: nat)
    requires j <= |b| && CharLength(b) == 0
    ensures CharLength(b[..j]) == 0
  {
  }

  /** A cut of a valid text ends in at most three bytes of a character. */
  lemma {:induction false} CutLeavesAtMostThree(file: bytes, n: nat)
    requires Valid(file) && n <= |file|
    ensures n - 3 <= WholeChars(file[..n])
    decreases |file|
  {
    var c := CharLength(file);
    if n > 0 {
      CharLengthOfCut(file, n);
      if n >= c {
        CutLeavesAtMostThree(file[c..], n - c);
        assert file[..n][c..] == file[c..][..n - c];
      }
    }
  }

  lemma ValidIsWhole(b: bytes)
    ensures Valid(b) <==> WholeChars(b) == |b|
  {
    WholeCharsIsLongest(b, |b|);
    assert b[..|b|] == b;
  }

  /** The length trimPartialRune keeps: the longest valid prefix, but it never gives up more than three bytes. */
  function Kept(b: bytes): nat {
    if WholeChars(b) >= |b| - 3 then WholeChars(b) else |b| - 3
  }

  method TrimPartialRune(b: bytes) returns (r: bytes)
    ensures r == b[..Kept(b)]
    ensures Valid(r) <==> |b| - 3 <= WholeChars(b)
  {
    r := b;
    var i := 0;
    assert b == b[..|b|];
    while i < 3 && |r| > 0
      invariant 0 <= i <= 3 && i <= |b| && r == b[..|b| - i]
      invariant WholeChars(b) <= |b| - i || i == 0
      decreases 3 - i
    {
      WholeCharsIsLongest(b, |r|);
      if Valid(r) {
        break;
      }
      assert WholeChars(b) != |r|;
      r := r[..|r| - 1];
      i := i + 1;
    }
    WholeCharsIsLongest(b, |r|);
  }

  // ----- The file-read handler -----

  /** `notice` says that the message about the read limit is appended to the text. */
  datatype FileText = Text(content: bytes, notice: bool) | NotText | ReadError

  /** ReadFile's verdict: a read that filled the limit counts as truncated, even if it was the whole file. */
  predicate ReadTruncated(max: int, data: bytes) {
    max > 0 && |data| >= max
  }

  /** The handler; `run` is the command that prints the file. */
  method FileRead(max: int, run: Run) returns (r: FileText)
    ensures r == ReadAnswer(max, run)
  {
    var read := ReadFile(max, run);
    if read.None? {
      return ReadError;
    }
    var data := read.value;
    var truncated := ReadTruncated(max, data);
    if truncated {
      data := TrimPartialRune(data);
    }
    if !Valid(data) {
      return NotText;
    }
    return Text(data, truncated);
  }

  /** What the handler answers, as a function of the command. */
  function ReadAnswer(max: int, run: Run): FileText {
    match ReadFile(max, run)
    case None => ReadError
    case Some(data) =>
      if !ReadTruncated(max, data) then
        if Valid(data) then Text(data, false) else NotText
      else if |data| - 3 <= WholeChars(data) then Text(data[..WholeChars(data)], true) else NotText
  }

  /**
    * Every answer of the handler, told by the bytes of the file. Below the limit the text is the file itself, without
    * the notice. From the limit on it carries the notice, and a file is not text exactly if more than three bytes
    * follow the longest valid prefix of what the limit lets through.
    */
  lemma AnswersExactly(max: int, run: Run)
    ensures var file, r := Concat(run.chunks), ReadAnswer(max, run);
            var data := Limited(LimitWriter.LimitFor(max), file);
            && (r == ReadError <==> !(run.code == 0 && !run.broken && ArrivesWhole(max, run.chunks)))
            && (r != ReadError && !(0 < max <= |file|) ==> r == if Valid(file) then Text(file, false) else NotText)
            && (r != ReadError && 0 < max <= |file| ==>
                  && (r.Text? ==> r.notice && r.content <= data && Valid(r.content) && |data| - 3 <= |r.content|)
                  && (r == NotText <==> forall j | 0 <= j <= |data| && Valid(data[..j]) :: j < |data| - 3))
  {
    hide ReadFile, ArrivesWhole, CharLength;
    ReadSucceedsExactly(max, run);
    var file := Concat(run.chunks);
    var data := Limited(LimitWriter.LimitFor(max), file);
    WholeCharsIsLongest(data, 0);
    assert 0 < max <= |file| <==> ReadTruncated(max, data);
    forall j | 0 <= j <= |data| && Valid(data[..j]) ensures j <= WholeChars(data) {
      WholeCharsIsLongest(data, j);
    }
  }

  /**
    * Truncated reads stay text: a valid UTF-8 file is never reported as something else, whatever the limit and
    * however its bytes arrive. The answer is text exactly if the read succeeds, that is, if the command does and
    * no write straddles the limit; and then it is the longest valid prefix of what the limit lets through, at most
    * three bytes shorter than that.
    */
  lemma ValidFilesStayText(max: int, run: Run)
    requires Valid(Concat(run.chunks))
    ensures ReadAnswer(max, run) != NotText
    ensures ReadAnswer(max, run).Text? <==> run.code == 0 && !run.broken && ArrivesWhole(max, run.chunks)
    ensures var data, r := Limited(LimitWriter.LimitFor(max), Concat(run.chunks)), ReadAnswer(max, run);
            r.Text? ==>
              && r.content <= data && Valid(r.content)
              && |data| - 3 <= |r.content|
              && (forall j | |r.content| < j <= |data| :: !Valid(data[..j]))
  {
    hide ReadFile, ArrivesWhole, CharLength;
    ReadSucceedsExactly(max, run);
    var file := Concat(run.chunks);
    var data := Limited(LimitWriter.LimitFor(max), file);
    assert file[..|file|] == file;
    assert data == file[..|data|];
    CutLeavesAtMostThree(file, |data|);
    ValidIsWhole(data);
    forall j | WholeChars(data) < j <= |data| ensures !Valid(data[..j]) {
      WholeCharsIsLongest(data, j);
    }
    WholeCharsIsLongest(data, 0);
  }
}
