/**
 The text layer of one page: the literal-string escape, the drawing operators, and a reader for
 both that follows ISO 32000-1 (section 7.3.4.2 for literal strings).
 */
module PdfText {
  import opened Wrappers
  import opened Decimal
  import opened Strings

  /** One line of a page as text, and its weight. */
  datatype TextLine = TextLine(text: string, bold: bool)

  /** The same line once encoded: one byte for each character. */
  datatype Line = Line(raw: string, bold: bool)

  /** A character encoding of one byte a character, with a stand-in for what it cannot express. */
  type Encoding = char -> char

  /** What a reader sees drawn: font resource, size, position and decoded text. */
  datatype Drawn = Drawn(font: nat, size: nat, x: int, y: int, text: string)

  // ----- writer

  function Encode(text: string, encoding: Encoding): string {
    seq(|text|, i requires 0 <= i < |text| => encoding(text[i]))
  }

  function EncodeLine(line: TextLine, encoding: Encoding): Line {
    Line(Encode(line.text, encoding), line.bold)
  }

  function EncodePage(page: seq<TextLine>, encoding: Encoding): seq<Line> {
    seq(|page|, i requires 0 <= i < |page| => EncodeLine(page[i], encoding))
  }

  function EncodePages(pages: seq<seq<TextLine>>, encoding: Encoding): seq<seq<Line>> {
    seq(|pages|, i requires 0 <= i < |pages| => EncodePage(pages[i], encoding))
  }

  function Escape(raw: string): string {
    ReplaceByte(ReplaceByte(ReplaceByte(raw, '\\', "\\\\"), '(', "\\("), ')', "\\)")
  }

  const START_Y := 760

  function LineStep(bold: bool): nat {
    if bold then 16 else 14
  }

  function FontSelect(bold: bool): string {
    if bold then "/F2 11" else "/F1 10"
  }

  function DrawOp(line: Line, y: int): string {
    "BT " + FontSelect(line.bold) + " Tf 50 " + SignedNumeral(y) + " Td (" + Escape(line.raw) + ") Tj ET"
  }

  function DrawOps(lines: seq<Line>, y: int): seq<string> {
    if lines == [] then [] else [DrawOp(lines[0], y)] + DrawOps(lines[1..], y - LineStep(lines[0].bold))
  }

  function PageStream(lines: seq<Line>): string {
    Join("\n", DrawOps(lines, START_Y))
  }

  /** Height of the text cursor after `lines`, from `y`. */
  function YAfter(lines: seq<Line>, y: int): int {
    if lines == [] then y else YAfter(lines[1..], y - LineStep(lines[0].bold))
  }

  // ----- reader

  predicate IsOctal(c: char) {
    '0' <= c <= '7'
  }

  /** How many octal digits (at most three) follow a backslash. */
  function OctalRun(s: string): (k: nat)
    ensures k <= 3 && k <= |s|
    ensures forall i :: 0 <= i < k ==> IsOctal(s[i])
  {
    if |s| == 0 || !IsOctal(s[0]) then 0
    else if |s| == 1 || !IsOctal(s[1]) then 1
    else if |s| == 2 || !IsOctal(s[2]) then 2
    else 3
  }

  function OctalValue(s: string): nat
    requires forall i :: 0 <= i < |s| ==> IsOctal(s[i])
  {
    if s == [] then 0
    else
      assert IsOctal(s[|s| - 1]);
      8 * OctalValue(s[..|s| - 1]) + (s[|s| - 1] as int - '0' as int)
  }

  function Prepend(c: char, p: Parsed<string>): (r: Parsed<string>)
    ensures r.Ok? <==> p.Ok?
    ensures r.Ok? ==> r.rest == p.rest && r.value == [c] + p.value
  {
    match p
    case Fail => Fail
    case Ok(value, rest) => Ok([c] + value, rest)
  }

  /**
   Reads a literal string whose opening parenthesis has been consumed; `depth` counts the
   balanced inner parentheses that are open.  Unescaped end-of-line markers read as line feed,
   an escaped one disappears, and a backslash before any other character is dropped.
   */
  function ReadLiteral(s: string, depth: nat): (r: Parsed<string>)
    ensures r.Ok? ==> |r.rest| < |s|
    decreases |s|
  {
    if s == [] then Fail
    else if s[0] == '\\' then
      if |s| == 1 then Fail
      else if s[1] == 'n' then Prepend('\n', ReadLiteral(s[2..], depth))
      else if s[1] == 'r' then Prepend('\r', ReadLiteral(s[2..], depth))
      else if s[1] == 't' then Prepend('\t', ReadLiteral(s[2..], depth))
      else if s[1] == 'b' then Prepend('\U{0008}', ReadLiteral(s[2..], depth))
      else if s[1] == 'f' then Prepend('\U{000C}', ReadLiteral(s[2..], depth))
      else if s[1] == '(' || s[1] == ')' || s[1] == '\\' then Prepend(s[1], ReadLiteral(s[2..], depth))
      else if IsOctal(s[1]) then
        var k := OctalRun(s[1..]);
        Prepend((OctalValue(s[1..][..k]) % 256) as char, ReadLiteral(s[1 + k..], depth))
      else if s[1] == '\r' && |s| > 2 && s[2] == '\n' then ReadLiteral(s[3..], depth)
      else if s[1] == '\r' || s[1] == '\n' then ReadLiteral(s[2..], depth)
      else ReadLiteral(s[1..], depth)
    else if s[0] == '(' then Prepend('(', ReadLiteral(s[1..], depth + 1))
    else if s[0] == ')' then
      if depth == 0 then Ok([], s[1..]) else Prepend(')', ReadLiteral(s[1..], depth - 1))
    else if s[0] == '\r' then
      Prepend('\n', ReadLiteral(if |s| > 1 && s[1] == '\n' then s[2..] else s[1..], depth))
    else Prepend(s[0], ReadLiteral(s[1..], depth))
  }

  /** Reads `BT /F# size Tf `. */
  function ReadFontSelect(s: string): (r: Parsed<(nat, nat)>)
    ensures r.Ok? ==> |r.rest| < |s|
  {
    var (_, s) :- Expect(s, "BT /F");
    var (font, s) :- ReadNat(s);
    var (_, s) :- Expect(s, " ");
    var (size, s) :- ReadNat(s);
    var (_, s) :- Expect(s, " Tf ");
    Ok((font, size), s)
  }

  /** Reads `x y Td `. */
  function ReadPoint(s: string): (r: Parsed<(int, int)>)
    ensures r.Ok? ==> |r.rest| < |s|
  {
    var (x, s) :- ReadInt(s);
    var (_, s) :- Expect(s, " ");
    var (y, s) :- ReadInt(s);
    var (_, s) :- Expect(s, " Td ");
    Ok((x, y), s)
  }

  /** Reads `(text) Tj ET`. */
  function ReadShown(s: string): (r: Parsed<string>)
    ensures r.Ok? ==> |r.rest| < |s|
  {
    var (_, s) :- Expect(s, "(");
    var (text, s) :- ReadLiteral(s, 0);
    var (_, s) :- Expect(s, " Tj ET");
    Ok(text, s)
  }

  /** Reads one `BT /F# size Tf x y Td (text) Tj ET` operator group. */
  function ReadOp(s: string): (r: Parsed<Drawn>)
    ensures r.Ok? ==> |r.rest| < |s|
  {
    var (font, s) :- ReadFontSelect(s);
    var (at, s) :- ReadPoint(s);
    var (text, s) :- ReadShown(s);
    Ok(Drawn(font.0, font.1, at.0, at.1, text), s)
  }

  /** Reads a whole content stream: operator groups separated by line feeds. */
  function ReadStream(s: string): Option<seq<Drawn>>
    decreases |s|
  {
    if s == [] then Some([])
    else
      match ReadOp(s)
      case Fail => None
      case Ok(op, rest) =>
        if rest == [] then Some([op])
        else if rest[0] == '\n' && |rest| > 1 then
          match ReadStream(rest[1..])
          case None => None
          case Some(ops) => Some([op] + ops)
        else None
  }

  // ----- the escape

  function EscapeByte(c: char): string {
    if c == '\\' || c == '(' || c == ')' then ['\\', c] else [c]
  }

  function EscapePerByte(raw: string): string {
    if raw == [] then [] else EscapeByte(raw[0]) + EscapePerByte(raw[1..])
  }

  /** The three passes compose to one escape per byte: no pass touches what an earlier one inserted. */
  lemma {:induction false} EscapeIsPerByte(raw: string)
    ensures Escape(raw) == EscapePerByte(raw)
  {
    if raw != [] {
      EscapeIsPerByte(raw[1..]);
      var c, tail := raw[0], raw[1..];
      assert raw == [c] + tail;
      var a1, a2 := ReplaceByte([c], '\\', "\\\\"), ReplaceByte(tail, '\\', "\\\\");
      ReplaceByteConcat([c], tail, '\\', "\\\\");
      var b1, b2 := ReplaceByte(a1, '(', "\\("), ReplaceByte(a2, '(', "\\(");
      ReplaceByteConcat(a1, a2, '(', "\\(");
      ReplaceByteConcat(b1, b2, ')', "\\)");
      EscapeOneByte(c);
    }
  }

  lemma ReplaceByteShort(s: string, b: char, with: string)
    requires |s| <= 2
    ensures |s| == 1 ==> ReplaceByte(s, b, with) == if s[0] == b then with else s
    ensures |s| == 2 && b !in s ==> ReplaceByte(s, b, with) == s
    ensures |s| == 2 && s[0] != b && s[1] == b ==> ReplaceByte(s, b, with) == [s[0]] + with
  {
    if |s| == 2 {
      assert s == [s[0]] + s[1..];
      ReplaceByteShort(s[1..], b, with);
    }
  }

  lemma EscapeOneByte(c: char)
    ensures Escape([c]) == EscapeByte(c)
  {
    var a := ReplaceByte([c], '\\', "\\\\");
    ReplaceByteShort([c], '\\', "\\\\");
    var b := ReplaceByte(a, '(', "\\(");
    ReplaceByteShort(a, '(', "\\(");
    ReplaceByteShort(b, ')', "\\)");
  }

  /** No parenthesis is left without a backslash in front of it, and no backslash dangles. */
  predicate FullyEscaped(s: string) {
    s == [] ||
    if s[0] == '\\' then |s| >= 2 && FullyEscaped(s[2..])
    else s[0] != '(' && s[0] != ')' && FullyEscaped(s[1..])
  }

  lemma {:induction false} EscapeLeavesNoBareParenthesis(raw: string)
    ensures FullyEscaped(Escape(raw))
  {
    EscapeIsPerByte(raw);
    if raw != [] {
      EscapeLeavesNoBareParenthesis(raw[1..]);
      EscapeIsPerByte(raw[1..]);
      assert Escape(raw)[|EscapeByte(raw[0])|..] == Escape(raw[1..]);
    }
  }

  // ----- the literal-string round trip

  /** CR and CR LF read as a single LF. */
  function NormalizeEol(raw: string): string {
    if raw == [] then []
    else if raw[0] == '\r' then ['\n'] + NormalizeEol(if |raw| > 1 && raw[1] == '\n' then raw[2..] else raw[1..])
    else [raw[0]] + NormalizeEol(raw[1..])
  }

  lemma ReadOneByte(c: char, tail: string)
    requires c == '\r' ==> tail == [] || tail[0] != '\n'
    ensures ReadLiteral(EscapeByte(c) + tail, 0) == Prepend(if c == '\r' then '\n' else c, ReadLiteral(tail, 0))
  {
    assert (EscapeByte(c) + tail)[|EscapeByte(c)|..] == tail;
  }

  lemma ReadCrLf(tail: string)
    ensures ReadLiteral(['\r', '\n'] + tail, 0) == Prepend('\n', ReadLiteral(tail, 0))
  {
    assert (['\r', '\n'] + tail)[2..] == tail;
  }

  lemma EscapeCrLf(raw: string)
    requires |raw| > 1 && raw[0] == '\r' && raw[1] == '\n'
    ensures EscapePerByte(raw) == ['\r', '\n'] + EscapePerByte(raw[2..])
  {
    hide NormalizeEol, ReadLiteral;
    var tail := raw[1..];
    assert tail[1..] == raw[2..] && tail[0] == '\n';
    var more := EscapePerByte(tail[1..]);
    assert EscapePerByte(tail) == ['\n'] + more;
    assert EscapePerByte(raw) == ['\r'] + (['\n'] + more);
  }

  lemma NormalizeCrLf(raw: string)
    requires |raw| > 1 && raw[0] == '\r' && raw[1] == '\n'
    ensures NormalizeEol(raw) == ['\n'] + NormalizeEol(raw[2..])
  {
  }

  lemma EscapeStartsAsRaw(raw: string)
    requires raw != []
    ensures EscapePerByte(raw) != [] && (EscapePerByte(raw)[0] == '\n' <==> raw[0] == '\n')
  {
  }

  lemma {:induction false} LiteralRoundTripPerByte(raw: string, rest: string)
    ensures ReadLiteral(EscapePerByte(raw) + (")" + rest), 0) == Ok(NormalizeEol(raw), rest)
    decreases |raw|
  {
    var close := ")" + rest;
    if raw == [] {
      assert [] + close == close && close[1..] == rest;
    } else if |raw| > 1 && raw[0] == '\r' && raw[1] == '\n' {
      hide ReadLiteral, EscapePerByte, NormalizeEol;
      EscapeCrLf(raw);
      NormalizeCrLf(raw);
      Assoc(['\r', '\n'], EscapePerByte(raw[2..]), close);
      ReadCrLf(EscapePerByte(raw[2..]) + close);
      LiteralRoundTripPerByte(raw[2..], rest);
    } else {
      hide ReadLiteral, EscapeByte;
      Assoc(EscapeByte(raw[0]), EscapePerByte(raw[1..]), close);
      if |raw| > 1 { EscapeStartsAsRaw(raw[1..]); }
      ReadOneByte(raw[0], EscapePerByte(raw[1..]) + close);
      LiteralRoundTripPerByte(raw[1..], rest);
    }
  }

  /**
   The reader stops at the parenthesis the writer meant, and returns the text with its
   end-of-line markers normalized.
   */
  lemma LiteralRoundTrip(raw: string, rest: string)
    ensures ReadLiteral(Escape(raw) + ")" + rest, 0) == Ok(NormalizeEol(raw), rest)
  {
    hide Escape, EscapePerByte, ReadLiteral, NormalizeEol;
    EscapeIsPerByte(raw);
    LiteralRoundTripPerByte(raw, rest);
    assert EscapePerByte(raw) + ")" + rest == EscapePerByte(raw) + (")" + rest);
  }

  /** The text comes back byte for byte exactly when it holds no carriage return. */
  lemma {:induction false} NormalizeIsIdentityIffNoCr(raw: string)
    ensures NormalizeEol(raw) == raw <==> '\r' !in raw
  {
    if raw != [] {
      NormalizeIsIdentityIffNoCr(raw[1..]);
      assert raw == [raw[0]] + raw[1..];
      if raw[0] == '\r' {
        assert NormalizeEol(raw)[0] == '\n';
      } else {
        assert NormalizeEol(raw)[1..] == NormalizeEol(raw[1..]);
      }
    }
  }

  // ----- the content stream round trip

  function Rendered(line: Line, y: int): Drawn {
    Drawn(if line.bold then 2 else 1, if line.bold then 11 else 10, 50, y, NormalizeEol(line.raw))
  }

  /** Each line once, in order, at the height left by the lines before it. */
  function RenderedFrom(lines: seq<Line>, y: int): seq<Drawn> {
    if lines == [] then [] else [Rendered(lines[0], y)] + RenderedFrom(lines[1..], y - LineStep(lines[0].bold))
  }

  lemma FontSelectShape(bold: bool)
    ensures FontSelect(bold) == "/F" + Numeral(if bold then 2 else 1) + " " + Numeral(if bold then 11 else 10)
  {
    assert Numeral(10) == Numeral(1) + [DigitChar(0)];
    assert Numeral(11) == Numeral(1) + [DigitChar(1)];
  }

  lemma ReadFontSelectOwn(bold: bool, rest: string)
    ensures ReadFontSelect("BT " + FontSelect(bold) + " Tf " + rest) ==
            Ok((if bold then 2 else 1, if bold then 11 else 10), rest)
  {
    hide Numeral, ReadNat, FontSelect;
    FontSelectShape(bold);
    var font, size := if bold then 2 else 1, if bold then 11 else 10;
    var s3 := " Tf " + rest;
    var s2 := Numeral(size) + s3;
    var s1 := " " + s2;
    var s0 := Numeral(font) + s1;
    assert "BT " + FontSelect(bold) + " Tf " + rest == "BT /F" + s0;
    ReadNatOwn(font, s1);
    ReadNatOwn(size, s3);
  }

  lemma SignedFifty()
    ensures SignedNumeral(50) == "50"
  {
    assert Numeral(50) == Numeral(5) + [DigitChar(0)];
  }

  lemma ReadPointOwn(y: int, rest: string)
    ensures ReadPoint("50 " + SignedNumeral(y) + " Td " + rest) == Ok((50, y), rest)
  {
    hide SignedNumeral, ReadInt;
    SignedFifty();
    var s3 := " Td " + rest;
    var s2 := SignedNumeral(y) + s3;
    var s1 := " " + s2;
    assert "50 " + SignedNumeral(y) + " Td " + rest == SignedNumeral(50) + s1;
    ReadIntOwn(50, s1);
    ReadIntOwn(y, s3);
  }

  lemma ReadShownOwn(raw: string, rest: string)
    ensures ReadShown("(" + Escape(raw) + ") Tj ET" + rest) == Ok(NormalizeEol(raw), rest)
  {
    hide Escape, ReadLiteral, NormalizeEol;
    var tail := " Tj ET" + rest;
    var s1 := Escape(raw) + ")" + tail;
    assert ") Tj ET" + rest == ")" + tail;
    assert "(" + Escape(raw) + ") Tj ET" + rest == "(" + s1;
    LiteralRoundTrip(raw, tail);
  }

  lemma ReadOpOwn(line: Line, y: int, rest: string)
    ensures ReadOp(DrawOp(line, y) + rest) == Ok(Rendered(line, y), rest)
  {
    hide Escape, FontSelect, SignedNumeral, NormalizeEol, ReadFontSelect, ReadPoint, ReadShown;
    var s2 := "(" + Escape(line.raw) + ") Tj ET" + rest;
    var s1 := "50 " + SignedNumeral(y) + " Td " + s2;
    DrawOpShape(line, y, rest);
    ReadFontSelectOwn(line.bold, s1);
    ReadPointOwn(y, s2);
    ReadShownOwn(line.raw, rest);
  }

  lemma DrawOpShape(line: Line, y: int, rest: string)
    ensures DrawOp(line, y) + rest ==
            "BT " + FontSelect(line.bold) + " Tf "
            + ("50 " + SignedNumeral(y) + " Td " + ("(" + Escape(line.raw) + ") Tj ET" + rest))
  {
    hide Escape, FontSelect, SignedNumeral;
    var f, n, e := FontSelect(line.bold), SignedNumeral(y), Escape(line.raw);
    assert " Td (" + e + ") Tj ET" == " Td " + ("(" + e + ") Tj ET");
    assert " Tf 50 " == " Tf " + "50 ";
  }

  lemma {:induction false} ReadStreamOwn(lines: seq<Line>, y: int)
    ensures ReadStream(Join("\n", DrawOps(lines, y))) == Some(RenderedFrom(lines, y))
    decreases |lines|
  {
    if |lines| == 1 {
      ReadOpOwn(lines[0], y, []);
      assert DrawOp(lines[0], y) + [] == DrawOp(lines[0], y);
      assert DrawOps(lines, y) == [DrawOp(lines[0], y)];
      assert RenderedFrom(lines, y) == [Rendered(lines[0], y)];
    } else if |lines| > 1 {
      var y' := y - LineStep(lines[0].bold);
      var more := DrawOps(lines[1..], y');
      var tail := Join("\n", more);
      ReadStreamOwn(lines[1..], y');
      JoinNonEmpty("\n", more);
      JoinCons("\n", DrawOp(lines[0], y), more);
      ReadOpOwn(lines[0], y, "\n" + tail);
      assert ("\n" + tail)[1..] == tail;
    }
  }

  /** Reading a page's stream gives every line, its font, its height and its text. */
  lemma PageStreamRoundTrip(lines: seq<Line>)
    ensures ReadStream(PageStream(lines)) == Some(RenderedFrom(lines, START_Y))
  {
    ReadStreamOwn(lines, START_Y);
  }
}
