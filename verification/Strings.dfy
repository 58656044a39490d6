/** String operations the printers share. */
module Strings {

  /** Every occurrence of one character replaced by a text. */
  function ReplaceByte(s: string, b: char, with: string): string {
    if s == [] then [] else (if s[0] == b then with else [s[0]]) + ReplaceByte(s[1..], b, with)
  }

  /** The parts with a separator between neighbours. */
  function Join(sep: string, parts: seq<string>): string {
    if parts == [] then []
    else if |parts| == 1 then parts[0]
    else parts[0] + sep + Join(sep, parts[1..])
  }

  predicate Distinct(names: seq<string>) {
    forall i, j :: 0 <= i < j < |names| ==> names[i] != names[j]
  }

  lemma Assoc<T>(a: seq<T>, b: seq<T>, c: seq<T>)
    ensures (a + b) + c == a + (b + c)
  {
  }

  lemma {:induction false} ReplaceByteConcat(s: string, t: string, b: char, with: string)
    ensures ReplaceByte(s + t, b, with) == ReplaceByte(s, b, with) + ReplaceByte(t, b, with)
  {
    if s == [] {
      assert s + t == t;
    } else {
      assert (s + t)[1..] == s[1..] + t;
      ReplaceByteConcat(s[1..], t, b, with);
    }
  }

  lemma JoinCons(sep: string, first: string, more: seq<string>)
    requires more != []
    ensures Join(sep, [first] + more) == first + (sep + Join(sep, more))
  {
    assert ([first] + more)[1..] == more;
  }

  lemma JoinNonEmpty(sep: string, parts: seq<string>)
    requires parts != [] && parts[0] != []
    ensures Join(sep, parts) != []
  {
  }
}
