/**
 The container of a PDF file, for any list of object bodies: numbered objects, the
 cross-reference table (ISO 32000-1, section 7.5.4), the trailer (section 7.5.5), and a reader
 that enters from the end of the file as section 7.5.5 prescribes.
 */
module PdfLayout {
  import opened Wrappers
  import opened Decimal
  import opened Strings

  // ----- writer

  const HEADER := "%PDF-1.4\n%\U{00E2}\U{00E3}\U{00CF}\U{00D3}\n"

  const END_OBJECT := "\nendobj\n"

  function Framed(k: nat, body: string): string {
    Numeral(k) + " 0 obj\n" + body + END_OBJECT
  }

  /** The file up to and including the last object; `bodies[k - 1]` is object k. */
  function Objects(bodies: seq<string>): string {
    if bodies == [] then HEADER
    else Objects(bodies[..|bodies| - 1]) + Framed(|bodies|, bodies[|bodies| - 1])
  }

  /** Where object k starts. */
  function Offset(bodies: seq<string>, k: nat): nat
    requires 1 <= k <= |bodies|
  {
    |Objects(bodies[..k - 1])|
  }

  const FREE_ENTRY := "0000000000 65535 f \n"

  function XrefHead(size: nat): string {
    "xref\n0 " + Numeral(size) + "\n" + FREE_ENTRY
  }

  function XrefEntry(offset: nat): string {
    Padded10(offset) + " 00000 n \n"
  }

  /** The table entries of objects k, k+1, ... */
  function EntriesFrom(bodies: seq<string>, k: nat): string
    requires 1 <= k <= |bodies| + 1
    decreases |bodies| - k
  {
    if k > |bodies| then [] else XrefEntry(Offset(bodies, k)) + EntriesFrom(bodies, k + 1)
  }

  /** `k 0 R` */
  function Ref(k: nat): string {
    Numeral(k) + " 0 R"
  }

  function StartXref(xref: nat): string {
    "startxref\n" + Numeral(xref) + "\n%%EOF\n"
  }

  function Trailer(size: nat, xref: nat): string {
    "trailer\n<< /Size " + Numeral(size) + " /Root " + Ref(1) + " >>\n" + StartXref(xref)
  }

  function FileOf(bodies: seq<string>): string {
    Objects(bodies) + XrefHead(|bodies| + 1) + EntriesFrom(bodies, 1) + Trailer(|bodies| + 1, |Objects(bodies)|)
  }

  // ----- reader

  datatype Entry = Entry(offset: nat, generation: nat, inUse: bool)

  datatype Table = Table(entries: seq<Entry>, size: nat, root: nat)

  /** One entry: ten digits, five digits and a type letter, in twenty bytes. */
  function ReadEntry(s: string): (r: Parsed<Entry>)
    ensures r.Ok? ==> |s| >= 20 && r.rest == s[20..]
  {
    var (offset, s) :- ReadFixed(s, 10);
    var (_, s) :- Expect(s, " ");
    var (generation, s) :- ReadFixed(s, 5);
    var (_, s) :- Expect(s, " ");
    if s != [] && (s[0] == 'n' || s[0] == 'f') then
      var inUse := s[0] == 'n';
      var (_, s) :- Expect(s[1..], " \n");
      Ok(Entry(offset, generation, inUse), s)
    else Fail
  }

  function ReadEntries(s: string, count: nat): (r: Parsed<seq<Entry>>)
    ensures r.Ok? ==> |r.value| == count && |s| >= 20 * count && r.rest == s[20 * count..]
  {
    if count == 0 then Ok([], s)
    else
      var (e, s) :- ReadEntry(s);
      var (es, s) :- ReadEntries(s, count - 1);
      Ok([e] + es, s)
  }

  /** An indirect reference `k 0 R`. */
  function ReadRef(s: string): (r: Parsed<nat>)
    ensures r.Ok? ==> |r.rest| < |s|
  {
    var (k, s) :- ReadNat(s);
    var (_, s) :- Expect(s, " 0 R");
    Ok(k, s)
  }

  /** Section heading, one subsection starting at object 0, and its entries. */
  function ReadSection(s: string): Parsed<seq<Entry>> {
    var (_, s) :- Expect(s, "xref\n0 ");
    var (count, s) :- ReadNat(s);
    var (_, s) :- Expect(s, "\n");
    ReadEntries(s, count)
  }

  function ReadTrailer(s: string): Parsed<(nat, nat)> {
    var (_, s) :- Expect(s, "trailer\n<< /Size ");
    var (size, s) :- ReadNat(s);
    var (_, s) :- Expect(s, " /Root ");
    var (root, s) :- ReadRef(s);
    Ok((size, root), s)
  }

  function StripSuffix(s: string, suffix: string): (r: Option<string>)
    ensures r.Some? ==> s == r.value + suffix
  {
    if |s| >= |suffix| && s[|s| - |suffix|..] == suffix then Some(s[..|s| - |suffix|]) else None
  }

  /** The number on the line between `startxref` and the end-of-file marker. */
  function ReadStartXref(file: string): Option<nat> {
    var s :- StripSuffix(file, "\n%%EOF\n");
    var k := TrailingDigits(s);
    var number := s[|s| - k..];
    var _ :- StripSuffix(s[..|s| - k], "startxref\n");
    if k == 0 then None else Some(NumeralValue(number))
  }

  function ReadTable(file: string): Option<Table> {
    var xref :- ReadStartXref(file);
    if xref > |file| then None
    else
      var section := ReadSection(file[xref..]);
      var entries :- section.Value();
      var (size, root) :- ReadTrailer(section.rest).Value();
      Some(Table(entries, size, root))
  }

  /** The bytes after `k 0 obj`, found through the table. */
  function Locate(file: string, table: Table, k: nat): Option<string> {
    if k >= |table.entries| || !table.entries[k].inUse || table.entries[k].offset > |file| then None
    else
      var s := file[table.entries[k].offset..];
      var number := ReadNat(s);
      var n :- number.Value();
      var header := Expect(number.rest, " 0 obj\n");
      var _ :- header.Value();
      if n == k then Some(header.rest) else None
  }

  /** The file opens with its version line and a comment of four bytes above ASCII (section 7.5.2). */
  lemma OpensWithHeader(bodies: seq<string>)
    ensures "%PDF-1.4\n" <= FileOf(bodies) && |FileOf(bodies)| >= 15
    ensures FileOf(bodies)[9] == '%' && FileOf(bodies)[14] == '\n'
    ensures forall i :: 10 <= i < 14 ==> 128 <= FileOf(bodies)[i] as int < 256
  {
    hide Numeral, XrefHead, EntriesFrom, Trailer, Framed;
    ObjectsPrefix(bodies, 0);
    assert bodies[..0] == [] && Objects([]) == HEADER;
    assert HEADER <= FileOf(bodies);
  }

  // ----- offsets

  lemma {:induction false} ObjectsPrefix(bodies: seq<string>, k: nat)
    requires k <= |bodies|
    ensures Objects(bodies[..k]) <= Objects(bodies)
  {
    if k == |bodies| {
      assert bodies[..k] == bodies;
    } else {
      var init := bodies[..|bodies| - 1];
      ObjectsPrefix(init, k);
      assert init[..k] == bodies[..k];
    }
  }

  lemma OffsetsIncrease(bodies: seq<string>, j: nat, k: nat)
    requires 1 <= j < k <= |bodies|
    ensures Offset(bodies, j) < Offset(bodies, k)
  {
    var before := bodies[..k - 1];
    ObjectsPrefix(before, j);
    assert before[..j] == bodies[..j];
    assert bodies[..j][..j - 1] == bodies[..j - 1];
  }

  /** Exactly where object k starts, the file reads `k 0 obj`, the body and `endobj`. */
  lemma ObjectAtOffset(bodies: seq<string>, k: nat, after: string)
    requires 1 <= k <= |bodies|
    ensures Offset(bodies, k) <= |Objects(bodies)|
    ensures Framed(k, bodies[k - 1]) <= (Objects(bodies) + after)[Offset(bodies, k)..]
  {
    hide Framed;
    ObjectsPrefix(bodies, k);
    assert bodies[..k][..k - 1] == bodies[..k - 1];
    assert Objects(bodies[..k]) == Objects(bodies[..k - 1]) + Framed(k, bodies[k - 1]);
  }

  // ----- width of the table

  /** The table has twenty bytes per entry exactly when the last object starts below 10^10. */
  lemma FixedWidthIff(bodies: seq<string>)
    requires bodies != []
    ensures |EntriesFrom(bodies, 1)| == 20 * |bodies| <==> Offset(bodies, |bodies|) < Pow10(10)
  {
    EntriesWidth(bodies, 1);
  }

  lemma {:induction false} EntriesWidth(bodies: seq<string>, k: nat)
    requires 1 <= k <= |bodies|
    ensures |EntriesFrom(bodies, k)| >= 20 * (|bodies| + 1 - k)
    ensures |EntriesFrom(bodies, k)| == 20 * (|bodies| + 1 - k) <==> Offset(bodies, |bodies|) < Pow10(10)
    decreases |bodies| - k
  {
    Padded10RoundTrip(Offset(bodies, k));
    if k < |bodies| {
      OffsetsIncrease(bodies, k, |bodies|);
      EntriesWidth(bodies, k + 1);
    }
  }

  // ----- the reader undoes the writer

  function EntryList(bodies: seq<string>, k: nat): (r: seq<Entry>)
    requires 1 <= k <= |bodies| + 1
    ensures |r| == |bodies| + 1 - k
    ensures forall j :: 0 <= j < |r| ==> r[j] == Entry(Offset(bodies, k + j), 0, true)
    decreases |bodies| + 1 - k
  {
    if k > |bodies| then [] else [Entry(Offset(bodies, k), 0, true)] + EntryList(bodies, k + 1)
  }

  /** Object 0 heads the free list; objects 1..n are in use where they were written. */
  function ExpectedEntries(bodies: seq<string>): seq<Entry> {
    [Entry(0, 65535, false)] + EntryList(bodies, 1)
  }

  lemma ReadEntryFields(offset: string, generation: string, kind: char, rest: string)
    requires |offset| == 10 && AllDigits(offset) && |generation| == 5 && AllDigits(generation)
    requires kind == 'n' || kind == 'f'
    ensures ReadEntry(offset + (" " + (generation + (" " + ([kind] + (" \n" + rest))))))
            == Ok(Entry(NumeralValue(offset), NumeralValue(generation), kind == 'n'), rest)
  {
    hide NumeralValue;
    var s4 := [kind] + (" \n" + rest);
    var s3 := " " + s4;
    var s2 := generation + s3;
    var s1 := " " + s2;
    assert (offset + s1)[..10] == offset && (offset + s1)[10..] == s1;
    assert s2[..5] == generation && s2[5..] == s3;
    assert s4[1..] == " \n" + rest;
  }

  lemma ReadEntryOwn(offset: nat, rest: string)
    requires offset < Pow10(10)
    ensures ReadEntry(XrefEntry(offset) + rest) == Ok(Entry(offset, 0, true), rest)
  {
    hide Padded10, ReadEntry, Pow10;
    Padded10RoundTrip(offset);
    assert "00000" == Zeros(5) + [];
    LeadingZeros(5, []);
    ReadEntryFields(Padded10(offset), "00000", 'n', rest);
    assert " 00000 n \n" == " " + ("00000" + (" " + (['n'] + " \n")));
    assert XrefEntry(offset) + rest == Padded10(offset) + (" " + ("00000" + (" " + (['n'] + (" \n" + rest)))));
  }

  lemma ReadFreeEntryOwn(rest: string)
    ensures ReadEntry(FREE_ENTRY + rest) == Ok(Entry(0, 65535, false), rest)
  {
    hide ReadEntry;
    assert "0000000000" == Zeros(10) + [];
    LeadingZeros(10, []);
    GenerationMax();
    ReadEntryFields("0000000000", "65535", 'f', rest);
    assert FREE_ENTRY == "0000000000" + (" " + ("65535" + (" " + (['f'] + " \n"))));
    assert FREE_ENTRY + rest == "0000000000" + (" " + ("65535" + (" " + (['f'] + (" \n" + rest)))));
  }

  lemma GenerationMax()
    ensures AllDigits("65535") && NumeralValue("65535") == 65535
  {
    assert "65535"[..4] == "6553" && "6553"[..3] == "655" && "655"[..2] == "65" && "65"[..1] == "6" && "6"[..0] == [];
    assert NumeralValue("6") == 6;
    assert NumeralValue("65") == 65;
    assert NumeralValue("655") == 655;
    assert NumeralValue("6553") == 6553;
  }

  lemma EntriesStep(bodies: seq<string>, k: nat)
    requires 1 <= k <= |bodies|
    ensures EntriesFrom(bodies, k) == XrefEntry(Offset(bodies, k)) + EntriesFrom(bodies, k + 1)
    ensures EntryList(bodies, k) == [Entry(Offset(bodies, k), 0, true)] + EntryList(bodies, k + 1)
  {
  }

  lemma EntriesEnd(bodies: seq<string>)
    ensures EntriesFrom(bodies, |bodies| + 1) == [] && EntryList(bodies, |bodies| + 1) == []
  {
  }

  lemma ReadNoEntries(s: string)
    ensures ReadEntries(s, 0) == Ok([], s)
  {
  }

  lemma ReadEntriesStep(s: string, count: nat)
    requires count > 0
    ensures ReadEntries(s, count) ==
            match ReadEntry(s)
            case Fail => Fail
            case Ok(e, more) =>
              match ReadEntries(more, count - 1)
              case Fail => Fail
              case Ok(es, rest) => Ok([e] + es, rest)
  {
    hide ReadEntry;
  }

  lemma {:induction false} ReadEntriesOwn(bodies: seq<string>, k: nat, rest: string)
    requires bodies != [] && 1 <= k <= |bodies| + 1
    requires Offset(bodies, |bodies|) < Pow10(10)
    ensures ReadEntries(EntriesFrom(bodies, k) + rest, |bodies| + 1 - k) == Ok(EntryList(bodies, k), rest)
    decreases |bodies| + 1 - k
  {
    hide ReadEntry, ReadEntries, XrefEntry, EntriesFrom, EntryList, Offset, Pow10;
    if k > |bodies| {
      EntriesEnd(bodies);
      ReadNoEntries(rest);
      assert [] + rest == rest;
    } else {
      if k < |bodies| { OffsetsIncrease(bodies, k, |bodies|); }
      EntriesStep(bodies, k);
      Assoc(XrefEntry(Offset(bodies, k)), EntriesFrom(bodies, k + 1), rest);
      ReadEntryOwn(Offset(bodies, k), EntriesFrom(bodies, k + 1) + rest);
      ReadEntriesStep(EntriesFrom(bodies, k) + rest, |bodies| + 1 - k);
      ReadEntriesOwn(bodies, k + 1, rest);
    }
  }

  /** An offset of eleven digits or more does not fit its field, and the entry is unreadable. */
  lemma ReadEntryTooWide(offset: nat, rest: string)
    requires offset >= Pow10(10)
    ensures ReadEntry(XrefEntry(offset) + rest).Fail?
  {
    Padded10RoundTrip(offset);
    var s := XrefEntry(offset) + rest;
    assert s[10] == Padded10(offset)[10];
    assert IsDigit(s[10..][0]);
  }

  lemma {:induction false} ReadEntriesTooWide(bodies: seq<string>, k: nat, rest: string)
    requires bodies != [] && 1 <= k <= |bodies|
    requires Offset(bodies, |bodies|) >= Pow10(10)
    ensures ReadEntries(EntriesFrom(bodies, k) + rest, |bodies| + 1 - k).Fail?
    decreases |bodies| + 1 - k
  {
    hide ReadEntry, ReadEntries, XrefEntry, EntriesFrom, Offset, Pow10;
    EntriesStep(bodies, k);
    var more := EntriesFrom(bodies, k + 1) + rest;
    Assoc(XrefEntry(Offset(bodies, k)), EntriesFrom(bodies, k + 1), rest);
    ReadEntriesStep(EntriesFrom(bodies, k) + rest, |bodies| + 1 - k);
    if Offset(bodies, k) >= Pow10(10) {
      ReadEntryTooWide(Offset(bodies, k), more);
    } else {
      ReadEntryOwn(Offset(bodies, k), more);
      ReadEntriesTooWide(bodies, k + 1, rest);
    }
  }

  lemma ReadAllEntriesOwn(bodies: seq<string>, rest: string)
    requires bodies != []
    ensures
      var r := ReadEntries(FREE_ENTRY + (EntriesFrom(bodies, 1) + rest), |bodies| + 1);
      if Offset(bodies, |bodies|) < Pow10(10) then r == Ok(ExpectedEntries(bodies), rest) else r.Fail?
  {
    hide ReadEntry, XrefEntry, FREE_ENTRY;
    ReadFreeEntryOwn(EntriesFrom(bodies, 1) + rest);
    if Offset(bodies, |bodies|) < Pow10(10) {
      ReadEntriesOwn(bodies, 1, rest);
    } else {
      ReadEntriesTooWide(bodies, 1, rest);
    }
  }

  lemma ReadHeadingOwn(size: nat, rest: string)
    ensures ReadSection("xref\n0 " + (Numeral(size) + ("\n" + rest))) == ReadEntries(rest, size)
  {
    hide Numeral, ReadNat, ReadEntries;
    ReadNatOwn(size, "\n" + rest);
    ExpectOwn("\n", rest);
    ExpectOwn("xref\n0 ", Numeral(size) + ("\n" + rest));
  }

  lemma ReadSectionOwn(bodies: seq<string>, rest: string)
    requires bodies != []
    ensures
      var r := ReadSection(XrefHead(|bodies| + 1) + EntriesFrom(bodies, 1) + rest);
      if Offset(bodies, |bodies|) < Pow10(10) then r == Ok(ExpectedEntries(bodies), rest) else r.Fail?
  {
    hide Numeral, ReadSection, ReadEntries, EntriesFrom, ExpectedEntries, FREE_ENTRY, Offset, Pow10;
    var size := |bodies| + 1;
    var entries := EntriesFrom(bodies, 1);
    assert XrefHead(size) + entries + rest == "xref\n0 " + (Numeral(size) + ("\n" + (FREE_ENTRY + (entries + rest))));
    ReadHeadingOwn(size, FREE_ENTRY + (entries + rest));
    ReadAllEntriesOwn(bodies, rest);
  }

  lemma ReadRefOwn(k: nat, rest: string)
    ensures ReadRef(Ref(k) + rest) == Ok(k, rest)
  {
    assert Ref(k) + rest == Numeral(k) + (" 0 R" + rest);
    ReadNatOwn(k, " 0 R" + rest);
  }

  lemma ReadTrailerOwn(size: nat, xref: nat)
    ensures ReadTrailer(Trailer(size, xref)).Value() == Some((size, 1))
  {
    hide Numeral, ReadNat, Ref, ReadRef, StartXref;
    var s4 := " >>\n" + StartXref(xref);
    var s3 := Ref(1) + s4;
    var s2 := " /Root " + s3;
    var s1 := Numeral(size) + s2;
    assert Trailer(size, xref) == "trailer\n<< /Size " + s1;
    ReadNatOwn(size, s2);
    ReadRefOwn(1, s4);
  }

  lemma ReadStartXrefOwn(before: string, xref: nat)
    ensures ReadStartXref(before + StartXref(xref)) == Some(xref)
  {
    hide Numeral, TrailingDigits, NumeralValue;
    var head := before + "startxref\n";
    var s := head + Numeral(xref);
    assert before + StartXref(xref) == s + "\n%%EOF\n";
    assert (s + "\n%%EOF\n")[..|s|] == s;
    NumeralRoundTrip(xref);
    TrailingDigitsOf(head, Numeral(xref));
    assert s[|s| - |Numeral(xref)|..] == Numeral(xref);
    assert s[..|head|] == head;
  }

  /**
   A reader entering from `startxref` finds the table, sees every object number 1..n in use at
   the offset where it was written, /Size one above the last number, and object 1 as the root -
   exactly when the last object starts below 10^10, and no table at all otherwise.
   */
  lemma ReadTableOwn(bodies: seq<string>)
    requires bodies != []
    ensures ReadTable(FileOf(bodies)) ==
            if Offset(bodies, |bodies|) < Pow10(10) then Some(Table(ExpectedEntries(bodies), |bodies| + 1, 1)) else None
  {
    hide Numeral, Objects, EntriesFrom, XrefHead, ReadSection, ReadTrailer, ReadStartXref, Ref, StartXref,
         ExpectedEntries;
    var objects, size := Objects(bodies), |bodies| + 1;
    var section := XrefHead(size) + EntriesFrom(bodies, 1);
    var trailer := Trailer(size, |objects|);
    var opening := "trailer\n<< /Size " + Numeral(size) + " /Root " + Ref(1) + " >>\n";
    assert FileOf(bodies) == objects + section + opening + StartXref(|objects|);
    ReadStartXrefOwn(objects + section + opening, |objects|);
    assert FileOf(bodies)[|objects|..] == section + trailer;
    ReadSectionOwn(bodies, trailer);
    ReadTrailerOwn(size, |objects|);
  }

  lemma FramedShape(k: nat, body: string, after: string)
    ensures Framed(k, body) + after == Numeral(k) + (" 0 obj\n" + (body + (END_OBJECT + after)))
  {
    hide Numeral, END_OBJECT;
    var n := Numeral(k);
    Assoc(n + " 0 obj\n" + body, END_OBJECT, after);
    Assoc(n + " 0 obj\n", body, END_OBJECT + after);
    Assoc(n, " 0 obj\n", body + (END_OBJECT + after));
  }

  lemma LocateAt(file: string, table: Table, k: nat, body: string, after: string)
    requires k < |table.entries| && table.entries[k].inUse && table.entries[k].offset <= |file|
    requires file[table.entries[k].offset..] == Framed(k, body) + after
    ensures Locate(file, table, k) == Some(body + (END_OBJECT + after))
  {
    hide Numeral, ReadNat, Framed, END_OBJECT;
    var found := body + (END_OBJECT + after);
    FramedShape(k, body, after);
    ReadNatOwn(k, " 0 obj\n" + found);
    ExpectOwn(" 0 obj\n", found);
  }

  lemma EntryAt(bodies: seq<string>, k: nat)
    requires 1 <= k <= |bodies|
    ensures |ExpectedEntries(bodies)| == |bodies| + 1
    ensures ExpectedEntries(bodies)[k] == Entry(Offset(bodies, k), 0, true)
  {
  }

  /** Every entry leads to its own object: number, body and `endobj` stand at the decoded offset. */
  lemma LocateOwn(bodies: seq<string>, k: nat) returns (after: string)
    requires 1 <= k <= |bodies|
    ensures Locate(FileOf(bodies), Table(ExpectedEntries(bodies), |bodies| + 1, 1), k)
            == Some(bodies[k - 1] + (END_OBJECT + after))
  {
    hide Locate, Numeral, Objects, Offset, EntriesFrom, XrefHead, Trailer, Framed, ExpectedEntries;
    var tail := XrefHead(|bodies| + 1) + EntriesFrom(bodies, 1) + Trailer(|bodies| + 1, |Objects(bodies)|);
    assert FileOf(bodies) == Objects(bodies) + tail;
    ObjectAtOffset(bodies, k, tail);
    EntryAt(bodies, k);
    var at := FileOf(bodies)[Offset(bodies, k)..];
    after := at[|Framed(k, bodies[k - 1])|..];
    LocateAt(FileOf(bodies), Table(ExpectedEntries(bodies), |bodies| + 1, 1), k, bodies[k - 1], after);
  }
}
