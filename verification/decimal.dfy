/** Decimal numbers as the C++ library writes and reads them. */
module Decimal {
  import opened Basics

  predicate IsDigit(b: byte) { 48 <= b <= 57 }

  predicate AllDigits(text: seq<byte>) { forall i :: 0 <= i < |text| ==> IsDigit(text[i]) }

  /** std::to_string of an unsigned number. */
  function ToDecimal(n: nat): (text: seq<byte>)
    ensures text != [] && AllDigits(text)
  {
    if n < 10 then [48 + n] else ToDecimal(n / 10) + [48 + n % 10]
  }

  function DigitsValue(text: seq<byte>): nat
    requires AllDigits(text)
  {
    if text == [] then 0 else 10 * DigitsValue(text[..|text| - 1]) + (text[|text| - 1] as int - 48)
  }

  lemma {:induction false} ToDecimalValue(n: nat)
    ensures DigitsValue(ToDecimal(n)) == n
  {
    if n >= 10 {
      ToDecimalValue(n / 10);
      assert ToDecimal(n)[..|ToDecimal(n)| - 1] == ToDecimal(n / 10);
    }
  }

  /** The length of the longest prefix of digits. */
  function DigitCount(text: seq<byte>): (n: nat)
    ensures n <= |text| && AllDigits(text[..n]) && (n < |text| ==> !IsDigit(text[n]))
  {
    if text != [] && IsDigit(text[0]) then
      var rest := DigitCount(text[1..]);
      assert text[..1 + rest] == [text[0]] + text[1..][..rest];
      1 + rest
    else 0
  }

  lemma AllDigitsCount(text: seq<byte>)
    requires AllDigits(text)
    ensures DigitCount(text) == |text| && text[..|text|] == text
  {}

  /** std::from_chars for a 64-bit unsigned number, together with the test that all of the text was read. */
  function ParseWholeU64(text: seq<byte>): Option<nat> {
    if text == [] || !AllDigits(text) || DigitsValue(text) > MAX_U64 then None else Some(DigitsValue(text))
  }

  predicate IsSpace(b: byte) { b == 32 || 9 <= b <= 13 }

  function SkipSpaces(text: seq<byte>): seq<byte> {
    if text != [] && IsSpace(text[0]) then SkipSpaces(text[1..]) else text
  }

  /** std::stoull, None where it throws: white space and a sign may come first, what follows the digits is
      not looked at, and a negative number comes out modulo 2^64. */
  function Stoull(text: seq<byte>): (r: Option<nat>)
    ensures r.Some? ==> r.value <= MAX_U64
  {
    var t := SkipSpaces(text);
    var negative := t != [] && t[0] == 45;
    var digits := if t != [] && (t[0] == 45 || t[0] == 43) then t[1..] else t;
    var n := DigitCount(digits);
    if n == 0 then None
    else
      var value := DigitsValue(digits[..n]);
      if value > MAX_U64 then None else Some(if negative then (0 - value as int) % (MAX_U64 + 1) else value)
  }

  /** Numbers survive being written and read, by either reader. */
  lemma DecimalRoundTrips(n: nat)
    ensures ParseWholeU64(ToDecimal(n)) == if n <= MAX_U64 then Some(n) else None
    ensures Stoull(ToDecimal(n)) == if n <= MAX_U64 then Some(n) else None
  {
    hide ToDecimal;
    var text := ToDecimal(n);
    ToDecimalValue(n);
    AllDigitsCount(text);
    assert IsDigit(text[0]);
    assert SkipSpaces(text) == text;
  }

  lemma {:induction false} SpacesSkipped(spaces: seq<byte>, rest: seq<byte>)
    requires (forall i :: 0 <= i < |spaces| ==> IsSpace(spaces[i])) && (rest == [] || !IsSpace(rest[0]))
    ensures SkipSpaces(spaces + rest) == rest
  {
    if spaces == [] {
      assert spaces + rest == rest;
    } else {
      SpacesSkipped(spaces[1..], rest);
      assert (spaces + rest)[1..] == spaces[1..] + rest;
    }
  }

  lemma {:induction false} DigitsCounted(digits: seq<byte>, rest: seq<byte>)
    requires AllDigits(digits) && (rest == [] || !IsDigit(rest[0]))
    ensures DigitCount(digits + rest) == |digits|
  {
    if digits == [] {
      assert digits + rest == rest;
    } else {
      DigitsCounted(digits[1..], rest);
      assert (digits + rest)[1..] == digits[1..] + rest;
    }
  }

  /** What std::stoull reads: blanks, tabs or line breaks, at most one sign, digits, and anything after them. */
  lemma StoullReads(spaces: seq<byte>, sign: seq<byte>, digits: seq<byte>, rest: seq<byte>)
    requires forall i :: 0 <= i < |spaces| ==> spaces[i] == 32 || 9 <= spaces[i] <= 13
    requires sign == [] || sign == Ascii("+") || sign == Ascii("-")
    requires AllDigits(digits) && (rest == [] || !IsDigit(rest[0]))
    requires sign == [] && digits == [] && rest != [] ==> !IsSpace(rest[0]) && rest[0] != 43 && rest[0] != 45
    ensures Stoull(spaces + (sign + (digits + rest)))
         == if digits == [] || DigitsValue(digits) > 0xFFFF_FFFF_FFFF_FFFF then None
            else if sign == Ascii("-") && DigitsValue(digits) > 0
            then Some(0x1_0000_0000_0000_0000 - DigitsValue(digits))
            else Some(DigitsValue(digits))
  {
    hide SkipSpaces, DigitCount, DigitsValue, Stoull;
    var after := digits + rest;
    var t := sign + after;
    assert digits != [] ==> after[0] == digits[0];
    assert sign == [] ==> t == after;
    assert sign != [] ==> t[0] == sign[0] && t[1..] == after;
    SpacesSkipped(spaces, t);
    DigitsCounted(digits, rest);
    assert after[..|digits|] == digits;
    StoullOf(spaces + t, t, after, |digits|);
  }

  lemma StoullOf(text: seq<byte>, t: seq<byte>, digits: seq<byte>, n: nat)
    requires t == SkipSpaces(text) && n == DigitCount(digits)
    requires digits == if t != [] && (t[0] == 45 || t[0] == 43) then t[1..] else t
    ensures Stoull(text)
         == if n == 0 || DigitsValue(digits[..n]) > MAX_U64 then None
            else Some(if t != [] && t[0] == 45 then (0 - DigitsValue(digits[..n]) as int) % (MAX_U64 + 1)
                      else DigitsValue(digits[..n]))
  {
    hide SkipSpaces, DigitCount, DigitsValue;
  }

  lemma NumberExample()
    ensures ToDecimal(258) == Ascii("258") && DigitsValue(Ascii("258")) == 258
  {
    assert ToDecimal(2) == [50] && ToDecimal(25) == ToDecimal(2) + [53] && ToDecimal(258) == ToDecimal(25) + [56];
    ToDecimalValue(258);
  }

  function Power10(k: nat): (p: nat)
    ensures p > 0
  {
    if k == 0 then 1 else 10 * Power10(k - 1)
  }

  lemma {:induction false} DecimalLength(n: nat, k: nat)
    requires 1 <= k && n < Power10(k)
    ensures |ToDecimal(n)| <= k
  {
    if n >= 10 {
      assert k > 1;
      DecimalLength(n / 10, k - 1);
    }
  }

  lemma U64HasTwentyDigits(n: nat)
    requires n <= MAX_U64
    ensures |ToDecimal(n)| <= 20
  {
    assert Power10(5) == 10 * Power10(4) == 100 * Power10(3) == 1000 * Power10(2) == 10000 * Power10(1);
    assert Power10(10) == 10 * Power10(9) == 100 * Power10(8) == 1000 * Power10(7) == 10000 * Power10(6);
    assert Power10(15) == 10 * Power10(14) == 100 * Power10(13) == 1000 * Power10(12) == 10000 * Power10(11);
    assert Power10(20) == 10 * Power10(19) == 100 * Power10(18) == 1000 * Power10(17) == 10000 * Power10(16);
    DecimalLength(n, 20);
  }
}
