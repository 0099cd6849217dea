/**
 strtoul in base ten, after ISO/IEC 9899:2011 section 7.22.1.4: white space, a sign, digits; saturation at ULONG_MAX;
 a minus sign negates in the unsigned type. A word is the characters ahead of its terminating NUL.
 */
module Strtoul {
  /** ULONG_MAX: at least what the C standard demands, and different between the targets the library is built for. */
  type ulong_max = n: nat | n >= 0xFFFF_FFFF witness 0xFFFF_FFFF

  predicate IsDigit(c: char) { '0' <= c <= '9' }

  predicate IsSpace(c: char) { c == ' ' || '\t' <= c <= '\r' }

  predicate AllDigits(s: string) {
    forall i :: 0 <= i < |s| ==> IsDigit(s[i])
  }

  function DigitValue(c: char): nat
    requires IsDigit(c)
  {
    c as nat - '0' as nat
  }

  /** The number a string of decimal digits writes, however long it is. */
  function Value(s: string): nat
    requires AllDigits(s)
  {
    if s == [] then 0 else 10 * Value(s[..|s| - 1]) + DigitValue(s[|s| - 1])
  }

  function TenTo(n: nat): nat {
    if n == 0 then 1 else 10 * TenTo(n - 1)
  }

  /** Each place to the left weighs ten times as much. */
  lemma {:induction false} PlaceValue(s: string, t: string)
    requires AllDigits(s) && AllDigits(t)
    ensures AllDigits(s + t) && Value(s + t) == TenTo(|t|) * Value(s) + Value(t)
  {
    hide Value;
    if t == [] {
      assert s + t == s;
      NoDigits();
    } else {
      var last := |t| - 1;
      PlaceValue(s, t[..last]);
      OneMorePlace(s + t, s + t[..last], t[last]);
      OneMorePlace(t, t[..last], t[last]);
      Tenfold(TenTo(last), Value(s));
    }
  }

  lemma NoDigits()
    ensures Value([]) == 0
  {
  }

  lemma OneMorePlace(s: string, before: string, c: char)
    requires AllDigits(before) && IsDigit(c) && s == before + [c]
    ensures AllDigits(s) && Value(s) == 10 * Value(before) + DigitValue(c)
  {
    assert s[..|s| - 1] == before;
  }

  lemma Tenfold(a: nat, b: nat)
    ensures 10 * (a * b) == (10 * a) * b
  {
  }

  function Digit(n: nat): (c: char)
    requires n < 10
    ensures IsDigit(c) && DigitValue(c) == n
  {
    ('0' as nat + n) as char
  }

  /** A number as printf writes it with %u: decimal, without leading zeros. */
  function Decimal(n: nat): (s: string)
    ensures s != [] && AllDigits(s)
  {
    if n < 10 then [Digit(n)] else Decimal(n / 10) + [Digit(n % 10)]
  }

  /** What is written is read back. */
  lemma {:induction false} DecimalReadsBack(n: nat)
    ensures Value(Decimal(n)) == n
  {
    if n < 10 {
      assert [Digit(n)][..0] == [];
    } else {
      var s := Decimal(n);
      assert s[..|s| - 1] == Decimal(n / 10);
      DecimalReadsBack(n / 10);
    }
  }

  function SkipSpace(s: string): string {
    if s != [] && IsSpace(s[0]) then SkipSpace(s[1..]) else s
  }

  function Digits(s: string): (d: string)
    ensures |d| <= |s| && d == s[..|d|] && AllDigits(d)
    ensures |d| < |s| ==> !IsDigit(s[|d|])
  {
    if s != [] && IsDigit(s[0]) then [s[0]] + Digits(s[1..]) else []
  }

  predicate Negated(word: string) {
    var s := SkipSpace(word);
    s != [] && s[0] == '-'
  }

  /** What follows the white space and the sign. */
  function Unsigned(word: string): string {
    var s := SkipSpace(word);
    if s != [] && (s[0] == '-' || s[0] == '+') then s[1..] else s
  }

  /** The value returned, and the rest of the word that the end pointer is left at. */
  datatype Conversion = Conversion(value: nat, rest: string)

  function Convert(word: string, max: ulong_max): (c: Conversion)
    ensures c.value <= max
  {
    var t := Unsigned(word);
    var d := Digits(t);
    if d == [] then Conversion(0, word)
    else
      var n := Value(d);
      var magnitude := if n > max then max else if Negated(word) then (max + 1 - n) % (max + 1) else n;
      Conversion(magnitude, t[|d|..])
  }

  lemma {:induction false} DigitsOfDigits(s: string)
    ensures AllDigits(s) <==> Digits(s) == s
  {
  }

  /** A word that starts with a digit is all digits exactly when nothing is left over, and its value then only saturates. */
  lemma ConvertDigits(word: string, max: ulong_max)
    requires word != [] && IsDigit(word[0])
    ensures Convert(word, max).rest == [] <==> AllDigits(word)
    ensures AllDigits(word) ==> Convert(word, max).value == if Value(word) > max then max else Value(word)
  {
    assert SkipSpace(word) == word && Unsigned(word) == word;
    var d := Digits(word);
    DigitsOfDigits(word);
    assert d != [];
    if |d| == |word| {
      assert d == word;
    }
  }
}
