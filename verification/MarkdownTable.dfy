/**
 The Markdown table printer, and a reader of its rows that follows section 4.10 (tables) and
 section 6.1 (backslash escapes) of the GitHub Flavored Markdown Spec.
 */
module MarkdownTable {
  import opened Wrappers
  import opened Strings

  // ----- printer

  /** The characters Python splits a text at. */
  predicate IsSpace(c: char) {
    var n := c as int;
    9 <= n <= 13 || 28 <= n <= 32 || n == 0x85 || n == 0xA0 || n == 0x1680 || 0x2000 <= n <= 0x200A
    || n == 0x2028 || n == 0x2029 || n == 0x202F || n == 0x205F || n == 0x3000
  }

  function WordLength(s: string): (k: nat)
    ensures k <= |s|
    ensures forall i :: 0 <= i < k ==> !IsSpace(s[i])
    ensures k < |s| ==> IsSpace(s[k])
  {
    if s == [] || IsSpace(s[0]) then 0 else 1 + WordLength(s[1..])
  }

  /** The maximal runs of characters that are not white space. */
  function Words(s: string): seq<string>
    decreases |s|
  {
    if s == [] then []
    else if IsSpace(s[0]) then Words(s[1..])
    else [s[..WordLength(s)]] + Words(s[WordLength(s)..])
  }

  /** White space collapsed to single blanks. */
  function Clean(text: string): string {
    Join(" ", Words(text))
  }

  function EscapePipes(cell: string): string {
    ReplaceByte(cell, '|', "\\|")
  }

  function PrintedCells(cells: seq<string>): seq<string> {
    seq(|cells|, i requires 0 <= i < |cells| => EscapePipes(Clean(cells[i])))
  }

  function BodyRow(cells: seq<string>): string {
    "| " + Join(" | ", PrintedCells(cells)) + " |"
  }

  function HeaderRow(headers: seq<string>): string {
    "| " + Join(" | ", headers) + " |"
  }

  function Rule(n: nat): string {
    "|" + Join("|", seq(n, _ => "---")) + "|"
  }

  function BodyRows(rows: seq<seq<string>>): seq<string> {
    if rows == [] then [] else BodyRows(rows[..|rows| - 1]) + [BodyRow(rows[|rows| - 1])]
  }

  method Table(headers: seq<string>, rows: seq<seq<string>>) returns (lines: seq<string>)
    ensures lines == [HeaderRow(headers), Rule(|headers|)] + BodyRows(rows)
  {
    hide HeaderRow, Rule, Clean, EscapePipes;
    lines := [HeaderRow(headers), Rule(|headers|)];
    for i := 0 to |rows|
      invariant lines == [HeaderRow(headers), Rule(|headers|)] + BodyRows(rows[..i])
    {
      assert rows[..i + 1][..i] == rows[..i];
      var cells: seq<string> := [];
      for j := 0 to |rows[i]|
        invariant cells == PrintedCells(rows[i])[..j]
      {
        cells := cells + [EscapePipes(Clean(rows[i][j]))];
      }
      assert cells == PrintedCells(rows[i]);
      lines := lines + ["| " + Join(" | ", cells) + " |"];
    }
    assert rows[..|rows|] == rows;
  }

  /** Two more lines than rows, each body line the print of its row. */
  lemma {:induction false} BodyRowsAt(rows: seq<seq<string>>)
    ensures |BodyRows(rows)| == |rows|
    ensures forall i :: 0 <= i < |rows| ==> BodyRows(rows)[i] == BodyRow(rows[i])
  {
    hide BodyRow;
    if rows != [] { BodyRowsAt(rows[..|rows| - 1]); }
  }

  // ----- reader

  predicate IsEscape(s: string) {
    |s| > 1 && s[0] == '\\' && (s[1] == '|' || s[1] == '\\')
  }

  function PrependTo(head: string, segments: seq<string>): seq<string>
    requires segments != []
  {
    [head + segments[0]] + segments[1..]
  }

  /** Splits at pipes no backslash escapes; an escaped character stays with its backslash. */
  function Segments(s: string): (r: seq<string>)
    ensures r != []
    decreases |s|
  {
    if s == [] then [[]]
    else if IsEscape(s) then PrependTo(s[..2], Segments(s[2..]))
    else if s[0] == '|' then [[]] + Segments(s[1..])
    else PrependTo([s[0]], Segments(s[1..]))
  }

  function TrimLeft(s: string): string {
    if s != [] && s[0] == ' ' then TrimLeft(s[1..]) else s
  }

  function TrimRight(s: string): string {
    if s != [] && s[|s| - 1] == ' ' then TrimRight(s[..|s| - 1]) else s
  }

  function Trim(s: string): string {
    TrimRight(TrimLeft(s))
  }

  /** An escaped pipe is a pipe; other escapes are left to the inline parser. */
  function Unescape(s: string): string
    decreases |s|
  {
    if s == [] then []
    else if IsEscape(s) then (if s[1] == '|' then ['|'] else s[..2]) + Unescape(s[2..])
    else [s[0]] + Unescape(s[1..])
  }

  function ReadCells(segments: seq<string>): seq<string> {
    if segments == [] then [] else [Unescape(Trim(segments[0]))] + ReadCells(segments[1..])
  }

  /** The cells between a leading and a trailing pipe. */
  function ReadRow(line: string): Option<seq<string>> {
    var segments := Segments(line);
    if |segments| >= 2 && segments[0] == [] && segments[|segments| - 1] == [] then
      Some(ReadCells(segments[1..|segments| - 1]))
    else None
  }

  // ----- cleaning

  ghost predicate NoSpace(word: string) {
    word != [] && forall i :: 0 <= i < |word| ==> !IsSpace(word[i])
  }

  ghost predicate AllWords(words: seq<string>) {
    forall i :: 0 <= i < |words| ==> NoSpace(words[i])
  }

  lemma {:induction false} WordsAreWords(s: string)
    ensures AllWords(Words(s))
    decreases |s|
  {
    if s != [] {
      if IsSpace(s[0]) { WordsAreWords(s[1..]); } else { WordsAreWords(s[WordLength(s)..]); }
    }
  }

  /** One line: no white space but single blanks, none at the ends. */
  ghost predicate IsClean(s: string) {
    && (forall i :: 0 <= i < |s| ==> s[i] == ' ' || !IsSpace(s[i]))
    && (forall i :: 0 <= i < |s| - 1 && s[i] == ' ' ==> s[i + 1] != ' ')
    && (s != [] ==> !IsSpace(s[0]) && !IsSpace(s[|s| - 1]))
  }

  lemma {:induction false} JoinedWordsAreClean(words: seq<string>)
    requires AllWords(words)
    ensures IsClean(Join(" ", words)) && (words != [] ==> Join(" ", words) != [])
  {
    if |words| > 1 {
      JoinedWordsAreClean(words[1..]);
      var w, rest := words[0], Join(" ", words[1..]);
      var s := Join(" ", words);
      assert s == w + " " + rest;
      assert forall i :: 0 <= i < |w| ==> s[i] == w[i];
      forall i | 0 <= i < |s| - 1 && s[i] == ' ' ensures s[i + 1] != ' ' {
        assert IsSpace(s[i]) && i >= |w|;
        assert s[i] == (if i == |w| then ' ' else rest[i - |w| - 1]) && s[i + 1] == rest[i - |w|];
      }
    }
  }

  lemma CleanIsClean(text: string)
    ensures IsClean(Clean(text))
  {
    WordsAreWords(text);
    JoinedWordsAreClean(Words(text));
  }

  /** Cleaning adds blanks and nothing else. */
  lemma {:induction false} CleanAddsOnlyBlanks(text: string, c: char)
    requires c in Clean(text) && c != ' '
    ensures c in text
    decreases |text|
  {
    if text != [] {
      if IsSpace(text[0]) {
        CleanAddsOnlyBlanks(text[1..], c);
      } else {
        var k := WordLength(text);
        assert Words(text)[1..] == Words(text[k..]);
        if c in text[..k] {
        } else {
          CleanAddsOnlyBlanks(text[k..], c);
        }
      }
    }
  }

  /** Joining words with blanks and splitting again gives the words back, so cleaning keeps every word. */
  lemma {:induction false} SplitOfJoin(words: seq<string>)
    requires AllWords(words)
    ensures Words(Join(" ", words)) == words
  {
    if words != [] {
      var w := words[0];
      if |words| == 1 {
        WholeWord(w, []);
        assert w + [] == w && Words([]) == [] && words == [w];
      } else {
        var tail := " " + Join(" ", words[1..]);
        SplitOfJoin(words[1..]);
        WholeWord(w, tail);
        assert tail[1..] == Join(" ", words[1..]) && IsSpace(' ');
        assert Join(" ", words) == w + tail;
        assert words == [w] + words[1..];
      }
    }
  }

  lemma WholeWord(w: string, tail: string)
    requires NoSpace(w) && (tail == [] || IsSpace(tail[0]))
    ensures Words(w + tail) == [w] + Words(tail)
  {
    var s := w + tail;
    assert !IsSpace(s[0]);
    var k := WordLength(s);
    assert forall i :: 0 <= i < |w| ==> s[i] == w[i];
    assert tail != [] ==> s[|w|] == tail[0];
    assert k == |w|;
    assert s[..k] == w && s[k..] == tail;
  }

  /** A text already clean stays as it is. */
  lemma {:induction false} CleanIsIdentity(s: string)
    requires IsClean(s)
    ensures Clean(s) == s
    decreases |s|
  {
    if s == [] {
      assert Clean([]) == [];
    } else {
      var k := WordLength(s);
      FirstWord(s);
      if k < |s| {
        var rest := s[k + 1..];
        CleanTail(s, k);
        CleanIsIdentity(rest);
        hide Words, IsClean, Join;
        JoinCons(" ", s[..k], Words(rest));
        assert s == s[..k] + ([' '] + rest);
      }
    }
  }

  /** A clean text is its first word, or that word, a blank and another clean text. */
  lemma FirstWord(s: string)
    requires IsClean(s) && s != []
    ensures
      var k := WordLength(s);
      && k > 0
      && (k == |s| ==> Clean(s) == s)
      && (k < |s| ==> Words(s) == [s[..k]] + Words(s[k + 1..]))
  {
    var k := WordLength(s);
    if k == |s| {
      assert s[..k] == s && s[k..] == [];
      assert Words(s) == [s] + [] == [s];
    } else {
      assert s[k..][0] == s[k] && s[k..][1..] == s[k + 1..];
      assert Words(s[k..]) == Words(s[k + 1..]);
    }
  }

  lemma CleanTail(s: string, k: nat)
    requires IsClean(s) && 0 < k < |s| && IsSpace(s[k])
    ensures s[k] == ' ' && s[k + 1..] != [] && IsClean(s[k + 1..]) && Words(s[k + 1..]) != []
  {
    var rest := s[k + 1..];
    assert s[k] == ' ' && IsSpace(s[k]) && k != |s| - 1;
    assert rest[0] == s[k + 1] && rest[|rest| - 1] == s[|s| - 1];
    assert forall i :: 0 <= i < |rest| ==> rest[i] == s[k + 1 + i];
  }

  /** The characters that are not white space. */
  function Ink(s: string): string {
    if s == [] then [] else (if IsSpace(s[0]) then [] else [s[0]]) + Ink(s[1..])
  }

  lemma {:induction false} InkJoins(s: string, t: string)
    ensures Ink(s + t) == Ink(s) + Ink(t)
  {
    hide IsSpace;
    if s == [] {
      assert s + t == t;
    } else {
      assert (s + t)[1..] == s[1..] + t;
      InkJoins(s[1..], t);
      Assoc(if IsSpace(s[0]) then [] else [s[0]], Ink(s[1..]), Ink(t));
    }
  }

  /** Cleaning loses no character but white space and keeps their order. */
  lemma {:induction false} CleanKeepsInk(text: string)
    ensures Ink(Clean(text)) == Ink(text)
    decreases |text|
  {
    if text != [] {
      if IsSpace(text[0]) {
        CleanKeepsInk(text[1..]);
      } else {
        var k := WordLength(text);
        var w, rest := text[..k], text[k..];
        CleanKeepsInk(rest);
        assert text == w + rest;
        InkJoins(w, rest);
        if Words(rest) == [] {
          assert Words(text) == [w] && Clean(text) == w && Clean(rest) == [] && Ink(rest) == [];
        } else {
          JoinCons(" ", w, Words(rest));
          InkJoins(w, " " + Clean(rest));
          InkJoins(" ", Clean(rest));
          InkOfBlank();
        }
      }
    }
  }

  lemma InkOfBlank()
    ensures Ink(" ") == []
  {
    assert " "[1..] == [] && Ink([]) == [];
  }

  lemma CleanKeepsWords(text: string)
    ensures Words(Clean(text)) == Words(text)
  {
    WordsAreWords(text);
    SplitOfJoin(Words(text));
  }

  // ----- the row round trip

  /** Pipes that come out bare because a backslash in the cell eats the escape. */
  function BadPipes(cell: string): nat
    decreases |cell|
  {
    if cell == [] then 0
    else if IsEscape(cell) then (if cell[1] == '|' then 1 else 0) + BadPipes(cell[2..])
    else BadPipes(cell[1..])
  }

  /** How many backslashes stand directly before a position. */
  function Run(cell: string, i: nat): nat
    requires i <= |cell|
  {
    if i == 0 || cell[i - 1] != '\\' then 0 else 1 + Run(cell, i - 1)
  }

  /** A pipe behind an odd run of backslashes. */
  predicate OddPipe(cell: string, i: nat)
    requires i < |cell|
  {
    cell[i] == '|' && Run(cell, i) % 2 == 1
  }

  /** How many there are before a position. */
  function OddPipes(cell: string, n: nat): nat
    requires n <= |cell|
  {
    if n == 0 then 0 else OddPipes(cell, n - 1) + if OddPipe(cell, n - 1) then 1 else 0
  }

  /** The scan stands behind whole escapes, or before a character no backslash can escape. */
  lemma {:induction false} ScanMeetsOddPipes(cell: string, k: nat)
    requires k <= |cell|
    requires Run(cell, k) % 2 == 0 || k == |cell| || (cell[k] != '|' && cell[k] != '\\')
    ensures OddPipes(cell, k) + BadPipes(cell[k..]) == OddPipes(cell, |cell|)
    decreases |cell| - k
  {
    var rest := cell[k..];
    if rest != [] {
      if IsEscape(rest) {
        assert Run(cell, k + 1) == Run(cell, k) + 1;
        assert OddPipes(cell, k + 2) == OddPipes(cell, k + 1) + if cell[k + 1] == '|' then 1 else 0;
        ScanMeetsOddPipes(cell, k + 2);
        assert rest[2..] == cell[k + 2..];
      } else {
        ScanMeetsOddPipes(cell, k + 1);
        assert rest[1..] == cell[k + 1..];
      }
    }
  }

  lemma {:induction false} OddPipesIff(cell: string, n: nat)
    requires n <= |cell|
    ensures OddPipes(cell, n) > 0 <==> exists i :: 0 <= i < n && OddPipe(cell, i)
  {
    if n > 0 { OddPipesIff(cell, n - 1); }
  }

  /** The scan finds exactly the pipes behind an odd run of backslashes. */
  lemma BadPipesAreOdd(cell: string)
    ensures BadPipes(cell) == OddPipes(cell, |cell|)
    ensures BadPipes(cell) > 0 <==> exists i :: 0 <= i < |cell| && OddPipe(cell, i)
  {
    ScanMeetsOddPipes(cell, 0);
    assert cell[0..] == cell;
    OddPipesIff(cell, |cell|);
  }

  lemma EscapeHead(cell: string)
    requires cell != []
    ensures EscapePipes(cell) == (if cell[0] == '|' then "\\|" else [cell[0]]) + EscapePipes(cell[1..])
  {
  }

  lemma EscapePair(cell: string)
    requires IsEscape(cell)
    ensures EscapePipes(cell) == (if cell[1] == '|' then "\\\\|" else "\\\\") + EscapePipes(cell[2..])
  {
    EscapeHead(cell);
    EscapeHead(cell[1..]);
    assert cell[1..][1..] == cell[2..];
  }

  lemma SegmentsAfterEscape(c: char, s: string)
    requires c == '|' || c == '\\'
    ensures Segments(['\\', c] + s) == PrependTo(['\\', c], Segments(s))
  {
    assert (['\\', c] + s)[2..] == s && (['\\', c] + s)[..2] == ['\\', c];
  }

  lemma SegmentsAfterPipe(s: string)
    ensures Segments(['|'] + s) == [[]] + Segments(s)
  {
    assert (['|'] + s)[1..] == s;
  }

  lemma SegmentsAfterPlain(c: char, s: string)
    requires c != '|' && (c == '\\' ==> s == [] || (s[0] != '|' && s[0] != '\\'))
    ensures Segments([c] + s) == PrependTo([c], Segments(s))
  {
    assert ([c] + s)[1..] == s;
  }

  /** What scanning a printed cell up to the pipe that closes it yields. */
  ghost predicate Scanned(cell: string, more: string) {
    var segments := Segments(EscapePipes(cell) + (" |" + more));
    && |segments| == |Segments(more)| + 1 + BadPipes(cell)
    && (BadPipes(cell) == 0 ==> segments == [EscapePipes(cell) + " "] + Segments(more))
  }

  lemma ScanEmpty(more: string)
    ensures Scanned([], more)
  {
    SegmentsAfterPipe(more);
    SegmentsAfterPlain(' ', ['|'] + more);
    assert EscapePipes([]) + (" |" + more) == [' '] + (['|'] + more);
    var segments: seq<string> := [[]] + Segments(more);
    assert segments[1..] == Segments(more) && segments[0] == [];
    assert [' '] + segments[0] == " " && EscapePipes([]) + " " == " ";
  }

  lemma ScanPair(cell: string, more: string)
    requires IsEscape(cell) && Scanned(cell[2..], more)
    ensures Scanned(cell, more)
  {
    hide EscapePipes, Segments;
    EscapePair(cell);
    var rest := EscapePipes(cell[2..]) + (" |" + more);
    if cell[1] == '|' {
      assert EscapePipes(cell) + (" |" + more) == ['\\', '\\'] + (['|'] + rest);
      SegmentsAfterPipe(rest);
      SegmentsAfterEscape('\\', ['|'] + rest);
    } else {
      assert EscapePipes(cell) + (" |" + more) == ['\\', '\\'] + rest;
      SegmentsAfterEscape('\\', rest);
      Assoc(['\\', '\\'], EscapePipes(cell[2..]), " ");
    }
  }

  lemma ScanOne(cell: string, more: string)
    requires cell != [] && !IsEscape(cell) && Scanned(cell[1..], more)
    ensures Scanned(cell, more)
  {
    hide EscapePipes, Segments;
    EscapeHead(cell);
    var rest := EscapePipes(cell[1..]) + (" |" + more);
    var head := if cell[0] == '|' then ['\\', '|'] else [cell[0]];
    assert EscapePipes(cell) + (" |" + more) == head + rest;
    if cell[0] == '|' {
      SegmentsAfterEscape('|', rest);
    } else {
      PlainFollows(cell, " |" + more);
      SegmentsAfterPlain(cell[0], rest);
    }
    Assoc(head, EscapePipes(cell[1..]), " ");
  }

  lemma {:induction false} ScanCell(cell: string, more: string)
    ensures Scanned(cell, more)
    decreases |cell|
  {
    hide Scanned;
    if cell == [] {
      ScanEmpty(more);
    } else if IsEscape(cell) {
      ScanCell(cell[2..], more);
      ScanPair(cell, more);
    } else {
      ScanCell(cell[1..], more);
      ScanOne(cell, more);
    }
  }

  lemma PlainFollows(cell: string, close: string)
    requires cell != [] && !IsEscape(cell) && close != [] && close[0] == ' '
    ensures
      var rest := EscapePipes(cell[1..]) + close;
      cell[0] == '\\' ==> rest[0] != '|' && rest[0] != '\\'
  {
    if |cell| > 1 { EscapeHead(cell[1..]); }
  }

  lemma {:induction false} UnescapeOwn(cell: string)
    requires BadPipes(cell) == 0
    ensures Unescape(EscapePipes(cell)) == cell
    decreases |cell|
  {
    if cell == [] {
    } else if IsEscape(cell) {
      EscapePair(cell);
      UnescapeOwn(cell[2..]);
      UnescapeAfterEscape('\\', EscapePipes(cell[2..]));
      assert cell == ['\\', '\\'] + cell[2..];
    } else {
      EscapeHead(cell);
      UnescapeOwn(cell[1..]);
      assert cell == [cell[0]] + cell[1..];
      if cell[0] == '|' {
        UnescapeAfterEscape('|', EscapePipes(cell[1..]));
      } else {
        if cell[0] == '\\' && |cell| > 1 { EscapeHead(cell[1..]); }
        UnescapeAfterPlain(cell[0], EscapePipes(cell[1..]));
      }
    }
  }

  lemma UnescapeAfterEscape(c: char, s: string)
    requires c == '|' || c == '\\'
    ensures Unescape(['\\', c] + s) == (if c == '|' then ['|'] else ['\\', '\\']) + Unescape(s)
  {
    assert (['\\', c] + s)[2..] == s && (['\\', c] + s)[..2] == ['\\', c];
  }

  lemma UnescapeAfterPlain(c: char, s: string)
    requires c == '\\' ==> s == [] || (s[0] != '|' && s[0] != '\\')
    ensures Unescape([c] + s) == [c] + Unescape(s)
  {
    assert ([c] + s)[1..] == s;
  }

  /** What follows the leading pipe. */
  function RowTail(cells: seq<string>): string {
    if cells == [] then [] else " " + (EscapePipes(Clean(cells[0])) + (" |" + RowTail(cells[1..])))
  }

  lemma {:induction false} RowShape(cells: seq<string>)
    requires cells != []
    ensures " " + Join(" | ", PrintedCells(cells)) + " |" == RowTail(cells)
    decreases |cells|
  {
    hide EscapePipes, Clean;
    var e := EscapePipes(Clean(cells[0]));
    var printed := PrintedCells(cells);
    if |cells| == 1 {
      assert printed == [e];
      assert RowTail(cells[1..]) == [];
      assert " |" + [] == " |";
      Assoc(" ", e, " |");
    } else {
      RowShape(cells[1..]);
      var more := PrintedCells(cells[1..]);
      assert printed == [e] + more;
      JoinCons(" | ", e, more);
      var joined := Join(" | ", more);
      assert " " + (e + (" | " + joined)) + " |" == " " + (e + (" |" + (" " + joined + " |")));
    }
  }

  /** The pipes behind an odd run of backslashes, over all cleaned cells. */
  function SumBad(cells: seq<string>): nat {
    if cells == [] then 0
    else OddPipes(Clean(cells[0]), |Clean(cells[0])|) + SumBad(cells[1..])
  }

  /** Some cleaned cell holds a pipe behind an odd run of backslashes. */
  ghost predicate HasOddPipe(cells: seq<string>) {
    exists i, j :: 0 <= i < |cells| && 0 <= j < |Clean(cells[i])| && OddPipe(Clean(cells[i]), j)
  }

  lemma {:induction false} SumBadIff(cells: seq<string>)
    ensures SumBad(cells) > 0 <==> HasOddPipe(cells)
  {
    hide Clean, OddPipe, OddPipes;
    if cells != [] {
      var cell := Clean(cells[0]);
      OddPipesIff(cell, |cell|);
      SumBadIff(cells[1..]);
      if HasOddPipe(cells) {
        var i, j :| 0 <= i < |cells| && 0 <= j < |Clean(cells[i])| && OddPipe(Clean(cells[i]), j);
        if i > 0 { assert cells[1..][i - 1] == cells[i]; }
      }
      if HasOddPipe(cells[1..]) {
        var i, j :| 0 <= i < |cells| - 1 && 0 <= j < |Clean(cells[1..][i])| && OddPipe(Clean(cells[1..][i]), j);
        assert cells[i + 1] == cells[1..][i];
      }
    }
  }

  function Cleaned(cells: seq<string>): seq<string> {
    if cells == [] then [] else [Clean(cells[0])] + Cleaned(cells[1..])
  }

  lemma TrimOwn(cell: string)
    requires IsClean(cell)
    ensures Trim(" " + (EscapePipes(cell) + " ")) == EscapePipes(cell)
  {
    var e := EscapePipes(cell);
    var s := " " + (e + " ");
    assert s[1..] == e + " ";
    EscapedEnds(cell);
    if cell == [] {
      assert TrimLeft(e + " ") == TrimLeft([]) by { assert (e + " ")[1..] == []; }
    } else {
      assert IsSpace(' ');
      assert TrimLeft(e + " ") == e + " ";
      assert (e + " ")[..|e|] == e;
      assert TrimRight(e) == e;
    }
  }

  lemma {:induction false} EscapedEnds(cell: string)
    ensures cell == [] <==> EscapePipes(cell) == []
    ensures cell != [] && cell[0] != ' ' ==> EscapePipes(cell)[0] != ' '
    ensures cell != [] && cell[|cell| - 1] != ' ' ==> EscapePipes(cell)[|EscapePipes(cell)| - 1] != ' '
  {
    if |cell| > 1 {
      EscapeHead(cell);
      EscapedEnds(cell[1..]);
    } else if |cell| == 1 {
      EscapeHead(cell);
      assert EscapePipes(cell[1..]) == [];
    }
  }

  /** The pieces of a printed row: one per cell and an empty one at the end, more for each bad pipe. */
  lemma {:induction false} TailSegments(cells: seq<string>)
    ensures |Segments(RowTail(cells))| == |cells| + 1 + SumBad(cells)
    ensures SumBad(cells) == 0 ==>
              var segments := Segments(RowTail(cells));
              segments[|cells|] == [] && ReadCells(segments[..|cells|]) == Cleaned(cells)
  {
    hide EscapePipes, Clean, Unescape, Trim, OddPipes, OddPipe, BadPipes;
    if cells != [] {
      var cell, more := Clean(cells[0]), RowTail(cells[1..]);
      TailSegments(cells[1..]);
      ScanCell(cell, more);
      BadPipesAreOdd(cell);
      var scanned := EscapePipes(cell) + (" |" + more);
      SegmentsAfterPlain(' ', scanned);
      if SumBad(cells) == 0 {
        var segments, rest := Segments(RowTail(cells)), Segments(more);
        assert segments == [" " + (EscapePipes(cell) + " ")] + rest;
        assert segments[..|cells|][1..] == rest[..|cells| - 1];
        CleanIsClean(cells[0]);
        TrimOwn(cell);
        UnescapeOwn(cell);
      }
    }
  }

  /** A printed row has exactly one bare pipe more than it has cells, plus one per bad pipe. */
  lemma BarePipes(cells: seq<string>)
    requires cells != []
    ensures |Segments(BodyRow(cells))| - 1 == |cells| + 1 + SumBad(cells)
  {
    hide PrintedCells, Join;
    RowIsPipeTail(cells);
    SegmentsAfterPipe(RowTail(cells));
    TailSegments(cells);
  }

  lemma RowIsPipeTail(cells: seq<string>)
    requires cells != []
    ensures BodyRow(cells) == ['|'] + RowTail(cells)
  {
    hide PrintedCells, Join;
    RowShape(cells);
    var joined := Join(" | ", PrintedCells(cells));
    assert "| " + joined + " |" == ['|'] + (" " + joined + " |");
  }

  lemma {:induction false} CleanedLength(cells: seq<string>)
    ensures |Cleaned(cells)| == |cells|
  {
    if cells != [] { CleanedLength(cells[1..]); }
  }

  lemma {:induction false} ReadCellsLength(segments: seq<string>)
    ensures |ReadCells(segments)| == |segments|
  {
    if segments != [] { ReadCellsLength(segments[1..]); }
  }

  /**
   Reading a printed row returns the cleaned cells exactly when there is a cell and no cell holds
   a pipe behind an odd run of backslashes.  The reader binds backslash escapes before it looks for
   pipes.  The second reader below does it the other way round and never fails.
   */
  lemma RowRoundTripIff(cells: seq<string>)
    ensures ReadRow(BodyRow(cells)) == Some(Cleaned(cells)) <==> cells != [] && !HasOddPipe(cells)
  {
    hide HasOddPipe, ReadRow, BodyRow, Cleaned;
    SumBadIff(cells);
    if cells == [] {
      EmptyRow();
    } else {
      NonEmptyRow(cells);
    }
  }

  /** One cell of a backslash and a pipe comes back as two cells. */
  lemma BackslashPipeIsSplit()
    ensures BodyRow(["\\|"]) == "| \\\\| |"
    ensures ReadRow(BodyRow(["\\|"])) == Some(["\\\\", []]) && Cleaned(["\\|"]) == ["\\|"]
  {
    BackslashPipeRow();
    BackslashPipeSegments();
    hide Segments;
    var segments := Segments("| \\\\| |");
    assert segments[1..3] == [" \\\\", " "];
    assert " \\\\"[1..] == "\\\\" && " "[1..] == [] && [" "][1..] == [] && [" \\\\", " "][1..] == [" "];
    assert "\\\\"[..2] == "\\\\" && "\\\\"[2..] == [];
    assert TrimLeft(" \\\\") == "\\\\" && TrimRight("\\\\") == "\\\\";
    assert Trim(" \\\\") == "\\\\" && Trim(" ") == [] && Unescape([]) == [];
    assert Unescape("\\\\") == "\\\\" + [] == "\\\\";
    assert ReadCells([]) == [] && ReadCells([" "]) == [[]];
    assert ReadCells([" \\\\", " "]) == ["\\\\"] + [[]] == ["\\\\", []];
    var line := BodyRow(["\\|"]);
    assert |Segments(line)| == 4 && Segments(line)[0] == [] && Segments(line)[3] == [];
  }

  lemma BackslashPipeRow()
    ensures Cleaned(["\\|"]) == ["\\|"] && BodyRow(["\\|"]) == "| \\\\| |"
  {
    WholeWord("\\|", []);
    assert "\\|" + [] == "\\|";
    assert Clean("\\|") == "\\|";
    EscapePair("\\|");
    assert "\\|"[2..] == [] && EscapePipes([]) == [];
    assert EscapePipes("\\|") == "\\\\|";
    assert PrintedCells(["\\|"]) == ["\\\\|"];
    assert ["\\|"][1..] == [] && Cleaned([]) == [];
  }

  lemma BackslashPipeSegments()
    ensures Segments("| \\\\| |") == [[], " \\\\", " ", []]
  {
    hide Segments;
    SegmentsOfNothing();
    SegmentsAfterPipe([]);
    SegmentsAfterPlain(' ', "|");
    SegmentsAfterPipe(" |");
    SegmentsAfterEscape('\\', "| |");
    SegmentsAfterPlain(' ', "\\\\| |");
    SegmentsAfterPipe(" \\\\| |");
    assert ['|'] + [] == "|" && [' '] + "|" == " |" && ['|'] + " |" == "| |";
    assert ['\\', '\\'] + "| |" == "\\\\| |" && [' '] + "\\\\| |" == " \\\\| |";
    assert ['|'] + " \\\\| |" == "| \\\\| |";
    assert [' '] + [] == " " && ['\\', '\\'] + [] == "\\\\" && [' '] + "\\\\" == " \\\\";
    assert Segments(" |") == [" ", []];
    assert Segments("| |") == [[], " ", []];
    assert Segments("\\\\| |") == ["\\\\", " ", []];
    assert Segments(" \\\\| |") == [" \\\\", " ", []];
  }

  lemma NonEmptyRow(cells: seq<string>)
    requires cells != []
    ensures ReadRow(BodyRow(cells)) == Some(Cleaned(cells)) <==> SumBad(cells) == 0
  {
    hide PrintedCells, Join, RowTail, Segments, ReadCells, Cleaned, SumBad, BodyRow;
    var segments := Segments(RowTail(cells));
    RowIsPipeTail(cells);
    SegmentsAfterPipe(RowTail(cells));
    TailSegments(cells);
    CleanedLength(cells);
    var all: seq<string> := [[]] + segments;
    assert all[1..|all| - 1] == segments[..|segments| - 1];
    ReadCellsLength(segments[..|segments| - 1]);
  }

  /** A row of no cells prints as one empty cell. */
  lemma EmptyRow()
    ensures ReadRow(BodyRow([])) == Some([[]]) && Cleaned([]) == []
  {
    EmptyRowText();
    EmptySegments();
    hide Segments;
    assert Segments(BodyRow([]))[1..2] == ["  "];
    assert "  "[1..] == " " && " "[1..] == [] && ["  "][1..] == [];
    assert TrimLeft("  ") == [] && TrimRight([]) == [] && Unescape([]) == [] && ReadCells([]) == [];
    assert ReadCells(["  "]) == [Unescape(Trim("  "))] + ReadCells([]) == [[]];
    assert |Segments(BodyRow([]))| == 3 && Segments(BodyRow([]))[0] == [] && Segments(BodyRow([]))[2] == [];
  }

  lemma EmptySegments()
    ensures Segments("|  |") == [[], "  ", []]
  {
    hide Segments;
    assert Segments([]) == [[]] by { SegmentsOfNothing(); }
    SegmentsAfterPipe([]);
    SegmentsAfterPlain(' ', "|");
    SegmentsAfterPlain(' ', " |");
    SegmentsAfterPipe("  |");
    assert ['|'] + [] == "|" && [' '] + "|" == " |" && [' '] + " |" == "  |" && ['|'] + "  |" == "|  |";
    assert Segments("|") == [[], []];
    assert [' '] + [] == " " && [' '] + " " == "  ";
    assert Segments(" |") == [" ", []];
    assert Segments("  |") == ["  ", []];
  }

  lemma SegmentsOfNothing()
    ensures Segments([]) == [[]]
  {
  }

  /** Clean cells without a pipe behind an odd run of backslashes come back exactly as they were. */
  lemma CleanCellsRoundTrip(cells: seq<string>)
    requires cells != [] && !HasOddPipe(cells)
    requires forall i :: 0 <= i < |cells| ==> IsClean(cells[i])
    ensures ReadRow(BodyRow(cells)) == Some(cells)
  {
    hide ReadRow, BodyRow, HasOddPipe;
    RowRoundTripIff(cells);
    CleanedIsIdentity(cells);
  }

  lemma {:induction false} CleanedIsIdentity(cells: seq<string>)
    requires forall i :: 0 <= i < |cells| ==> IsClean(cells[i])
    ensures Cleaned(cells) == cells
  {
    hide Clean, IsClean;
    if cells != [] {
      CleanIsIdentity(cells[0]);
      CleanedIsIdentity(cells[1..]);
      assert cells == [cells[0]] + cells[1..];
    }
  }

  /** The printer leaves headers as they are; clean headers without pipes read back. */
  lemma HeaderRoundTrip(headers: seq<string>)
    requires headers != []
    requires forall i :: 0 <= i < |headers| ==> IsClean(headers[i]) && '|' !in headers[i]
    ensures ReadRow(HeaderRow(headers)) == Some(headers)
  {
    hide ReadRow, IsClean, Clean, EscapePipes, Join;
    forall i | 0 <= i < |headers| ensures EscapePipes(Clean(headers[i])) == headers[i] {
      CleanIsIdentity(headers[i]);
      NothingToEscape(headers[i]);
    }
    assert PrintedCells(headers) == headers;
    forall i, j | 0 <= i < |headers| && 0 <= j < |Clean(headers[i])| ensures !OddPipe(Clean(headers[i]), j) {
      CleanIsIdentity(headers[i]);
    }
    CleanCellsRoundTrip(headers);
  }

  lemma {:induction false} NothingToEscape(cell: string)
    requires '|' !in cell
    ensures EscapePipes(cell) == cell
  {
    if cell != [] {
      EscapeHead(cell);
      NothingToEscape(cell[1..]);
    }
  }

  function Dashes(n: nat): seq<string> {
    if n == 0 then [] else ["---"] + Dashes(n - 1)
  }

  function RuleTail(n: nat): string {
    if n == 0 then [] else "---" + (['|'] + RuleTail(n - 1))
  }

  lemma {:induction false} DashesAre(n: nat)
    ensures Dashes(n) == seq(n, _ => "---")
  {
    if n > 0 { DashesAre(n - 1); }
  }

  lemma {:induction false} RuleShape(n: nat)
    requires n > 0
    ensures Join("|", Dashes(n)) + "|" == RuleTail(n)
  {
    if n == 1 {
      assert Dashes(0) == [] && Dashes(1) == ["---"] && RuleTail(0) == [];
    } else {
      RuleShape(n - 1);
      assert Dashes(n - 1) != [];
      JoinCons("|", "---", Dashes(n - 1));
    }
  }

  lemma SegmentsAfterDashes(s: string)
    ensures Segments("---" + (['|'] + s)) == ["---"] + Segments(s)
  {
    hide Segments;
    var r: seq<string> := [[]] + Segments(s);
    SegmentsAfterPipe(s);
    SegmentsAfterPlain('-', ['|'] + s);
    SegmentsAfterPlain('-', "-" + (['|'] + s));
    SegmentsAfterPlain('-', "--" + (['|'] + s));
    assert r[0] == [] && r[1..] == Segments(s);
    assert ['-'] + (['|'] + s) == "-" + (['|'] + s) && ['-'] + ("-" + (['|'] + s)) == "--" + (['|'] + s);
    assert ['-'] + ("--" + (['|'] + s)) == "---" + (['|'] + s);
    assert ['-'] + [] == "-" && ['-'] + "-" == "--" && ['-'] + "--" == "---";
    assert Segments("-" + (['|'] + s)) == ["-"] + Segments(s);
    assert Segments("--" + (['|'] + s)) == ["--"] + Segments(s);
  }

  lemma {:induction false} RuleSegments(n: nat)
    ensures Segments(RuleTail(n)) == Dashes(n) + [[]]
    ensures ReadCells(Dashes(n)) == Dashes(n)
  {
    hide Segments, Unescape, Trim;
    if n == 0 {
      SegmentsOfNothing();
    } else {
      RuleSegments(n - 1);
      SegmentsAfterDashes(RuleTail(n - 1));
      DashCell();
      assert Dashes(n)[1..] == Dashes(n - 1);
    }
  }

  lemma DashCell()
    ensures Unescape(Trim("---")) == "---"
  {
    assert TrimLeft("---") == "---" && TrimRight("---") == "---";
    assert "---"[1..] == "--" && "--"[1..] == "-" && "-"[1..] == [];
    assert Unescape([]) == [] && Unescape("-") == "-" && Unescape("--") == "--";
  }

  /** The rule line has one column of dashes for each header. */
  lemma RuleReadsBack(n: nat)
    requires n > 0
    ensures ReadRow(Rule(n)) == Some(seq(n, _ => "---"))
  {
    hide Segments, ReadCells, Join, RuleTail, Dashes;
    DashesAre(n);
    RuleShape(n);
    RuleSegments(n);
    SegmentsAfterPipe(RuleTail(n));
    assert Rule(n) == ['|'] + RuleTail(n);
    var segments: seq<string> := [[]] + (Dashes(n) + [[]]);
    assert Segments(Rule(n)) == segments;
    assert segments[1..|segments| - 1] == Dashes(n);
  }

  /** Cells without backslashes always read back, whatever pipes they hold, with no stray pipe between them. */
  lemma BackslashFreeRoundTrip(cells: seq<string>)
    requires cells != [] && forall i :: 0 <= i < |cells| ==> '\\' !in cells[i]
    ensures ReadRow(BodyRow(cells)) == Some(Cleaned(cells))
    ensures |Segments(BodyRow(cells))| - 1 == |cells| + 1
  {
    hide ReadRow, BodyRow, Cleaned, Clean, Segments;
    forall i, j | 0 <= i < |cells| && 0 <= j < |Clean(cells[i])| ensures !OddPipe(Clean(cells[i]), j) {
      if '\\' in Clean(cells[i]) { CleanAddsOnlyBlanks(cells[i], '\\'); }
    }
    SumBadIff(cells);
    RowRoundTripIff(cells);
    BarePipes(cells);
  }

  /** A printed row is a single line. */
  lemma {:induction false} EscapedStaysOnLine(cell: string)
    requires forall i :: 0 <= i < |cell| ==> cell[i] == ' ' || !IsSpace(cell[i])
    ensures forall i :: 0 <= i < |EscapePipes(cell)| ==> EscapePipes(cell)[i] == ' ' || !IsSpace(EscapePipes(cell)[i])
  {
    if cell != [] {
      EscapeHead(cell);
      EscapedStaysOnLine(cell[1..]);
    }
  }

  lemma {:induction false} TailStaysOnLine(cells: seq<string>)
    ensures forall i :: 0 <= i < |RowTail(cells)| ==> RowTail(cells)[i] == ' ' || !IsSpace(RowTail(cells)[i])
  {
    hide EscapePipes, Clean;
    if cells != [] {
      CleanIsClean(cells[0]);
      EscapedStaysOnLine(Clean(cells[0]));
      TailStaysOnLine(cells[1..]);
    }
  }

  lemma RowIsOneLine(cells: seq<string>)
    ensures '\n' !in BodyRow(cells) && '\r' !in BodyRow(cells)
  {
    hide RowTail, Join;
    if cells == [] {
      EmptyRowText();
    } else {
      RowIsPipeTail(cells);
      TailStaysOnLine(cells);
    }
  }

  lemma EmptyRowText()
    ensures BodyRow([]) == "|  |"
  {
    assert PrintedCells([]) == [];
  }

  // ----- the other reading: a backslash directly before a pipe always escapes it

  predicate IsPipeEscape(s: string) {
    |s| > 1 && s[0] == '\\' && s[1] == '|'
  }

  function DirectSegments(s: string): (r: seq<string>)
    ensures r != []
    decreases |s|
  {
    if s == [] then [[]]
    else if IsPipeEscape(s) then PrependTo(s[..2], DirectSegments(s[2..]))
    else if s[0] == '|' then [[]] + DirectSegments(s[1..])
    else PrependTo([s[0]], DirectSegments(s[1..]))
  }

  function DirectUnescape(s: string): string
    decreases |s|
  {
    if s == [] then []
    else if IsPipeEscape(s) then ['|'] + DirectUnescape(s[2..])
    else [s[0]] + DirectUnescape(s[1..])
  }

  function DirectCells(segments: seq<string>): seq<string> {
    if segments == [] then [] else [DirectUnescape(Trim(segments[0]))] + DirectCells(segments[1..])
  }

  function ReadRowDirect(line: string): Option<seq<string>> {
    var segments := DirectSegments(line);
    if |segments| >= 2 && segments[0] == [] && segments[|segments| - 1] == [] then
      Some(DirectCells(segments[1..|segments| - 1]))
    else None
  }

  lemma DirectStep(c: char, s: string)
    requires c == '\\' ==> s == [] || s[0] != '|'
    ensures DirectSegments([c] + s) ==
            if c == '|' then [[]] + DirectSegments(s) else PrependTo([c], DirectSegments(s))
    ensures DirectUnescape([c] + s) == [c] + DirectUnescape(s)
  {
    assert ([c] + s)[1..] == s;
  }

  lemma DirectEscape(s: string)
    ensures DirectSegments(['\\', '|'] + s) == PrependTo(['\\', '|'], DirectSegments(s))
    ensures DirectUnescape(['\\', '|'] + s) == ['|'] + DirectUnescape(s)
  {
    assert (['\\', '|'] + s)[2..] == s && (['\\', '|'] + s)[..2] == ['\\', '|'];
  }

  /** The printer puts a backslash before a pipe, so no other backslash ever stands before one. */
  lemma NoPipeFollows(cell: string, close: string)
    requires cell != [] && close != [] && close[0] == ' '
    ensures (EscapePipes(cell[1..]) + close)[0] != '|'
  {
    if |cell| > 1 { EscapeHead(cell[1..]); }
  }

  /** What the other reader makes of a printed cell up to the pipe that closes it. */
  ghost predicate DirectlyScanned(cell: string, more: string) {
    DirectSegments(EscapePipes(cell) + (" |" + more)) == [EscapePipes(cell) + " "] + DirectSegments(more)
  }

  lemma DirectScanEmpty(more: string)
    ensures DirectlyScanned([], more)
  {
    DirectStep('|', more);
    DirectStep(' ', ['|'] + more);
    assert EscapePipes([]) + (" |" + more) == [' '] + (['|'] + more);
    var segments: seq<string> := [[]] + DirectSegments(more);
    assert segments[1..] == DirectSegments(more) && segments[0] == [];
    assert [' '] + segments[0] == " " && EscapePipes([]) + " " == " ";
  }

  lemma DirectScanOne(cell: string, more: string)
    requires cell != [] && DirectlyScanned(cell[1..], more)
    ensures DirectlyScanned(cell, more)
  {
    hide EscapePipes, DirectSegments;
    EscapeHead(cell);
    var rest := EscapePipes(cell[1..]) + (" |" + more);
    var head := if cell[0] == '|' then ['\\', '|'] else [cell[0]];
    assert EscapePipes(cell) + (" |" + more) == head + rest;
    if cell[0] == '|' {
      DirectEscape(rest);
    } else {
      NoPipeFollows(cell, " |" + more);
      DirectStep(cell[0], rest);
    }
    Assoc(head, EscapePipes(cell[1..]), " ");
  }

  lemma {:induction false} DirectScan(cell: string, more: string)
    ensures DirectlyScanned(cell, more)
    decreases |cell|
  {
    hide DirectlyScanned;
    if cell == [] {
      DirectScanEmpty(more);
    } else {
      DirectScan(cell[1..], more);
      DirectScanOne(cell, more);
    }
  }

  lemma {:induction false} DirectUnescapeOwn(cell: string)
    ensures DirectUnescape(EscapePipes(cell)) == cell
    decreases |cell|
  {
    if cell != [] {
      EscapeHead(cell);
      DirectUnescapeOwn(cell[1..]);
      assert cell == [cell[0]] + cell[1..];
      if cell[0] == '|' {
        DirectEscape(EscapePipes(cell[1..]));
      } else {
        if |cell| > 1 { EscapeHead(cell[1..]); }
        DirectStep(cell[0], EscapePipes(cell[1..]));
      }
    }
  }

  lemma {:induction false} DirectTail(cells: seq<string>)
    ensures
      var segments := DirectSegments(RowTail(cells));
      && |segments| == |cells| + 1 && segments[|cells|] == []
      && DirectCells(segments[..|cells|]) == Cleaned(cells)
  {
    hide EscapePipes, Clean, DirectUnescape, Trim;
    if cells != [] {
      var cell, more := Clean(cells[0]), RowTail(cells[1..]);
      DirectTail(cells[1..]);
      DirectScan(cell, more);
      DirectStep(' ', EscapePipes(cell) + (" |" + more));
      var segments, rest := DirectSegments(RowTail(cells)), DirectSegments(more);
      assert segments == [" " + (EscapePipes(cell) + " ")] + rest;
      assert segments[..|cells|][1..] == rest[..|cells| - 1];
      CleanIsClean(cells[0]);
      TrimOwn(cell);
      DirectUnescapeOwn(cell);
    }
  }

  /** Under the other reading every row with a cell reads back. */
  lemma DirectRoundTrip(cells: seq<string>)
    requires cells != []
    ensures ReadRowDirect(BodyRow(cells)) == Some(Cleaned(cells))
  {
    hide PrintedCells, Join, RowTail, DirectSegments, DirectCells, Cleaned, BodyRow;
    var segments := DirectSegments(RowTail(cells));
    RowIsPipeTail(cells);
    DirectStep('|', RowTail(cells));
    DirectTail(cells);
    var all: seq<string> := [[]] + segments;
    assert all[1..|all| - 1] == segments[..|segments| - 1];
  }
}
