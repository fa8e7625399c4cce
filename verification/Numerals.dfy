/** Decimal numerals: writing a number in digits and reading its value back. */
module Numerals {

  predicate IsDigit(c: char) {
    '0' <= c <= '9'
  }

  predicate AllDigits(s: string) {
    forall i :: 0 <= i < |s| ==> IsDigit(s[i])
  }

  function DigitOf(c: char): nat
    requires IsDigit(c)
  {
    c as int - '0' as int
  }

  function CharOf(d: nat): (c: char)
    requires d < 10
    ensures IsDigit(c) && DigitOf(c) == d
  {
    ('0' as int + d) as char
  }

  function Value(s: string): nat
    requires AllDigits(s)
  {
    if s == "" then 0 else Value(s[..|s| - 1]) * 10 + DigitOf(s[|s| - 1])
  }

  lemma ValueSnoc(s: string, d: nat)
    requires AllDigits(s) && d < 10
    ensures AllDigits(s + [CharOf(d)]) && Value(s + [CharOf(d)]) == Value(s) * 10 + d
  {
    assert (s + [CharOf(d)])[..|s|] == s;
  }

  function Digits(n: nat): (s: string)
    ensures AllDigits(s)
  {
    if n < 10 then [CharOf(n)] else Digits(n / 10) + [CharOf(n % 10)]
  }

  /** A number written out is worth itself. */
  lemma {:induction false} DigitsValue(n: nat)
    ensures Digits(n) != "" && Value(Digits(n)) == n
  {
    if n < 10 {
      ValueSnoc("", n);
      assert "" + [CharOf(n)] == [CharOf(n)];
    } else {
      DigitsValue(n / 10);
      ValueSnoc(Digits(n / 10), n % 10);
    }
  }

  /** A numeral without a leading zero is how its value is written. */
  lemma {:induction false} DigitsOfValue(s: string)
    requires AllDigits(s) && s != "" && s[0] != '0'
    ensures Digits(Value(s)) == s && Value(s) > 0
  {
    var front, last := s[..|s| - 1], s[|s| - 1];
    assert s == front + [last];
    if front == "" {
      assert Value(front) == 0;
    } else {
      DigitsOfValue(front);
    }
  }

  function Two(n: nat): (s: string)
    requires n < 100
    ensures AllDigits(s) && |s| == 2
  {
    [CharOf(n / 10), CharOf(n % 10)]
  }

  function Three(n: nat): (s: string)
    requires n < 1000
    ensures AllDigits(s) && |s| == 3
  {
    [CharOf(n / 100)] + Two(n % 100)
  }

  /** Two digits are how their value is written in two digits. */
  lemma TwoOfValue(s: string)
    requires AllDigits(s) && |s| == 2
    ensures Value(s) < 100 && Two(Value(s)) == s
  {
    assert s[..1][..0] == "" && s == [s[0], s[1]];
    assert Value(s[..1]) == DigitOf(s[0]);
  }

  lemma ValueTwo(s: string, n: nat)
    requires AllDigits(s) && n < 100
    ensures AllDigits(s + Two(n)) && Value(s + Two(n)) == Value(s) * 100 + n
  {
    ValueSnoc(s, n / 10);
    ValueSnoc(s + [CharOf(n / 10)], n % 10);
    assert s + [CharOf(n / 10)] + [CharOf(n % 10)] == s + Two(n);
  }

  lemma ValueThree(s: string, n: nat)
    requires AllDigits(s) && n < 1000
    ensures AllDigits(s + Three(n)) && Value(s + Three(n)) == Value(s) * 1000 + n
  {
    ValueSnoc(s, n / 100);
    ValueTwo(s + [CharOf(n / 100)], n % 100);
    assert s + [CharOf(n / 100)] + Two(n % 100) == s + Three(n);
  }
}
