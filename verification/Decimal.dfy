/**
 Decimal numerals as `%d`, `str(y)` and `%010d` print them, and the readers that take them
 apart again.  A byte string is a `string`: one character per byte.
 */
module Decimal {
  import opened Wrappers

  predicate IsDigit(c: char) {
    '0' <= c <= '9'
  }

  predicate AllDigits(s: string) {
    forall i :: 0 <= i < |s| ==> IsDigit(s[i])
  }

  function DigitChar(d: nat): char
    requires d < 10
  {
    (d + '0' as int) as char
  }

  function DigitValue(c: char): nat
    requires IsDigit(c)
  {
    c as int - '0' as int
  }

  /** `%d` of a natural number. */
  function Numeral(n: nat): string
  {
    if n < 10 then [DigitChar(n)] else Numeral(n / 10) + [DigitChar(n % 10)]
  }

  /** `str(y)` of an integer. */
  function SignedNumeral(i: int): string {
    if i < 0 then "-" + Numeral(-i) else Numeral(i)
  }

  function Zeros(n: nat): string {
    seq(n, _ => '0')
  }

  /** `%010d`: zero-filled on the left to ten characters, longer when the number needs it. */
  function Padded10(n: nat): string {
    var digits := Numeral(n);
    if |digits| < 10 then Zeros(10 - |digits|) + digits else digits
  }

  function Pow10(k: nat): nat {
    if k == 0 then 1 else 10 * Pow10(k - 1)
  }

  // ----- readers

  function NumeralValue(s: string): nat
    requires AllDigits(s)
  {
    if s == [] then 0 else 10 * NumeralValue(s[..|s| - 1]) + DigitValue(s[|s| - 1])
  }

  function LeadingDigits(s: string): (k: nat)
    ensures k <= |s| && AllDigits(s[..k])
    ensures k < |s| ==> !IsDigit(s[k])
  {
    if s == [] || !IsDigit(s[0]) then 0
    else
      var k := 1 + LeadingDigits(s[1..]);
      assert s[..k] == [s[0]] + s[1..][..k - 1];
      k
  }

  function TrailingDigits(s: string): (k: nat)
    ensures k <= |s| && AllDigits(s[|s| - k..])
    ensures k < |s| ==> !IsDigit(s[|s| - k - 1])
  {
    if s == [] || !IsDigit(s[|s| - 1]) then 0
    else
      var init := s[..|s| - 1];
      var k := TrailingDigits(init);
      assert s[|s| - (k + 1)..] == init[|init| - k..] + [s[|s| - 1]];
      k + 1
  }

  function Expect(s: string, literal: string): (r: Parsed<()>)
    ensures r.Ok? ==> s == literal + r.rest
  {
    if literal <= s then Ok((), s[|literal|..]) else Fail
  }

  function ReadNat(s: string): (r: Parsed<nat>)
    ensures r.Ok? ==> |r.rest| < |s|
  {
    var k := LeadingDigits(s);
    if k == 0 then Fail else Ok(NumeralValue(s[..k]), s[k..])
  }

  function ReadInt(s: string): (r: Parsed<int>)
    ensures r.Ok? ==> |r.rest| < |s|
  {
    if s != [] && s[0] == '-' then
      var (n, rest) :- ReadNat(s[1..]);
      Ok(-(n as int), rest)
    else
      var (n, rest) :- ReadNat(s);
      Ok(n as int, rest)
  }

  /** A field of exactly `width` digits. */
  function ReadFixed(s: string, width: nat): (r: Parsed<nat>)
    ensures r.Ok? ==> |s| >= width && r.rest == s[width..]
  {
    if |s| >= width && AllDigits(s[..width]) then Ok(NumeralValue(s[..width]), s[width..]) else Fail
  }

  predicate StartsWithDigit(s: string) {
    s != [] && IsDigit(s[0])
  }

  // ----- the readers undo the printers

  lemma {:induction false} NumeralRoundTrip(n: nat)
    ensures Numeral(n) != [] && AllDigits(Numeral(n)) && NumeralValue(Numeral(n)) == n
  {
    if n >= 10 {
      NumeralRoundTrip(n / 10);
      assert Numeral(n)[..|Numeral(n)| - 1] == Numeral(n / 10);
    } else {
      assert Numeral(n)[..0] == [];
    }
  }

  /** A numeral has at most k digits exactly when the number is below 10^k. */
  lemma {:induction false} NumeralWidth(n: nat, k: nat)
    requires k >= 1
    ensures |Numeral(n)| <= k <==> n < Pow10(k)
  {
    if n < 10 {
      Pow10Positive(k - 1);
    } else if k == 1 {
      NumeralRoundTrip(n / 10);
      assert Pow10(1) == 10 * Pow10(0) == 10;
    } else {
      NumeralWidth(n / 10, k - 1);
      assert n / 10 < Pow10(k - 1) <==> n < 10 * Pow10(k - 1);
    }
  }

  lemma {:induction false} Pow10Positive(k: nat)
    ensures Pow10(k) >= 1
  {
    if k > 0 { Pow10Positive(k - 1); }
  }

  lemma {:induction false} LeadingZeros(z: nat, s: string)
    requires AllDigits(s)
    ensures AllDigits(Zeros(z) + s) && NumeralValue(Zeros(z) + s) == NumeralValue(s)
  {
    if s == [] {
      if z > 0 {
        LeadingZeros(z - 1, s);
        assert (Zeros(z) + s)[..z - 1] == Zeros(z - 1) + s;
      }
    } else {
      var init := s[..|s| - 1];
      LeadingZeros(z, init);
      assert (Zeros(z) + s)[..z + |s| - 1] == Zeros(z) + init;
    }
  }

  lemma Padded10RoundTrip(n: nat)
    ensures AllDigits(Padded10(n)) && NumeralValue(Padded10(n)) == n
    ensures |Padded10(n)| >= 10
    ensures |Padded10(n)| == 10 <==> n < Pow10(10)
  {
    NumeralRoundTrip(n);
    NumeralWidth(n, 10);
    if |Numeral(n)| < 10 {
      LeadingZeros(10 - |Numeral(n)|, Numeral(n));
    }
  }

  lemma {:induction false} LeadingDigitsOf(digits: string, rest: string)
    requires AllDigits(digits) && !StartsWithDigit(rest)
    ensures LeadingDigits(digits + rest) == |digits|
  {
    if digits == [] {
      assert digits + rest == rest;
    } else {
      assert (digits + rest)[1..] == digits[1..] + rest;
      LeadingDigitsOf(digits[1..], rest);
    }
  }

  lemma TrailingDigitsOf(before: string, digits: string)
    requires AllDigits(digits) && before != [] && !IsDigit(before[|before| - 1])
    ensures TrailingDigits(before + digits) == |digits|
  {
    var s := before + digits;
    assert !IsDigit(s[|before| - 1]);
    assert forall i :: |before| <= i < |s| ==> s[i] == digits[i - |before|];
  }

  lemma ExpectOwn(literal: string, rest: string)
    ensures Expect(literal + rest, literal) == Ok((), rest)
  {
  }

  lemma ReadNatOwn(n: nat, rest: string)
    requires !StartsWithDigit(rest)
    ensures ReadNat(Numeral(n) + rest) == Ok(n, rest)
  {
    NumeralRoundTrip(n);
    LeadingDigitsOf(Numeral(n), rest);
    assert (Numeral(n) + rest)[..|Numeral(n)|] == Numeral(n);
  }

  lemma ReadIntOwn(i: int, rest: string)
    requires !StartsWithDigit(rest)
    ensures ReadInt(SignedNumeral(i) + rest) == Ok(i, rest)
  {
    hide Numeral, LeadingDigits, NumeralValue;
    if i < 0 {
      assert (SignedNumeral(i) + rest)[1..] == Numeral(-i) + rest;
      ReadNatOwn(-i, rest);
    } else {
      NumeralRoundTrip(i);
      ReadNatOwn(i, rest);
    }
  }
}
