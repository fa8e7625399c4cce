/**
 The text of amounts and dates: how a statement prints them, how they are cleaned, and how a CSV field is
 written and read back.
 */
module StatementText {
  import opened Basics
  import opened Numerals

  type Month = m: int | 1 <= m <= 12 witness 1

  // ------------------------------------------------------------------------------------ amounts

  function Magnitude(cents: int): nat {
    if cents < 0 then -cents else cents
  }

  function Sign(cents: int): string {
    if cents < 0 then "-" else ""
  }

  /** An amount in cents as the CSV carries it. */
  function PrintCents(cents: int): string {
    Sign(cents) + (Digits(Magnitude(cents) / 100) + "." + Two(Magnitude(cents) % 100))
  }

  function ParseUnsigned(s: string): Option<nat> {
    if |s| >= 3 && s[|s| - 3] == '.' && AllDigits(s[..|s| - 3]) && AllDigits(s[|s| - 2..])
    then Some(Value(s[..|s| - 3]) * 100 + Value(s[|s| - 2..]))
    else None
  }

  function ParseCents(s: string): Option<int> {
    if s != "" && s[0] == '-' then
      var n: Option<int> := ParseUnsigned(s[1..]);
      if n.Some? then Some(-n.value) else None
    else
      ParseUnsigned(s)
  }

  lemma PartsOfAmount(whole: string, part: nat)
    requires part < 100
    ensures var s := whole + "." + Two(part);
            |s| == |whole| + 3 && s[..|s| - 3] == whole && s[|s| - 3] == '.' && s[|s| - 2..] == Two(part)
  {
  }

  lemma ParseUnsignedPrinted(whole: string, part: nat)
    requires AllDigits(whole) && part < 100
    ensures ParseUnsigned(whole + "." + Two(part)) == Some(Value(whole) * 100 + part)
  {
    PartsOfAmount(whole, part);
    ValueTwo("", part);
    assert "" + Two(part) == Two(part);
  }

  lemma StartsWithoutSign(whole: string, part: nat)
    requires AllDigits(whole) && part < 100
    ensures (whole + "." + Two(part))[0] != '-'
  {
    var body := whole + "." + Two(part);
    if whole == "" {
      assert body[0] == '.';
    } else {
      assert body[0] == whole[0] && IsDigit(whole[0]);
    }
  }

  lemma ParseWithSign(cents: int, body: string)
    requires body != "" && body[0] != '-' && ParseUnsigned(body) == Some(Magnitude(cents))
    ensures ParseCents(Sign(cents) + body) == Some(cents)
  {
    if cents < 0 {
      assert (Sign(cents) + body)[1..] == body;
    } else {
      assert Sign(cents) + body == body;
    }
  }

  lemma ParseSigned(cents: int, whole: string)
    requires AllDigits(whole) && Value(whole) == Magnitude(cents) / 100
    ensures ParseCents(Sign(cents) + (whole + "." + Two(Magnitude(cents) % 100))) == Some(cents)
  {
    ParseUnsignedPrinted(whole, Magnitude(cents) % 100);
    StartsWithoutSign(whole, Magnitude(cents) % 100);
    ParseWithSign(cents, whole + "." + Two(Magnitude(cents) % 100));
  }

  /** A written amount reads back as itself. */
  lemma AmountRoundTrip(cents: int)
    ensures ParseCents(PrintCents(cents)) == Some(cents)
  {
    DigitsValue(Magnitude(cents) / 100);
    ParseSigned(cents, Digits(Magnitude(cents) / 100));
  }

  predicate IsSeparator(c: char) {
    c == '$' || c == ',' || c == ' '
  }

  function Cleaned(s: string): string {
    if s == "" then ""
    else if IsSeparator(s[0]) then Cleaned(s[1..])
    else [s[0]] + Cleaned(s[1..])
  }

  /** Cleaning takes out every dollar sign, comma and blank, and nothing else. */
  lemma {:induction false} CleanedMeans(s: string)
    ensures Cleaned(s) == Select(s, (c: char) => c !in {'$', ',', ' '})
  {
    if s != "" {
      CleanedMeans(s[1..]);
    }
  }

  /** What an amount token is worth, or None when it cleans away to nothing or is not an amount. */
  function CleanAmount(token: string): Option<int> {
    var s := Cleaned(token);
    if s == "" || s == "-" then None else ParseCents(s)
  }

  lemma {:induction false} CleanedConcat(a: string, b: string)
    ensures Cleaned(a + b) == Cleaned(a) + Cleaned(b)
  {
    if a == "" {
      assert a + b == b;
    } else {
      assert (a + b)[1..] == a[1..] + b;
      CleanedConcat(a[1..], b);
    }
  }

  lemma {:induction false} CleanedKeeps(s: string)
    requires forall i :: 0 <= i < |s| ==> !IsSeparator(s[i])
    ensures Cleaned(s) == s
  {
    if s != "" {
      CleanedKeeps(s[1..]);
    }
  }

  /** A whole number with a comma before every third digit. */
  function Grouped(n: nat): string {
    if n < 1000 then Digits(n) else Grouped(n / 1000) + ("," + Three(n % 1000))
  }

  /** An amount as a statement prints it. */
  function PrintGrouped(cents: int): string {
    Sign(cents) + (Grouped(Magnitude(cents) / 100) + ("." + Two(Magnitude(cents) % 100)))
  }

  lemma {:induction false} CleanedGrouped(n: nat)
    ensures AllDigits(Cleaned(Grouped(n))) && Value(Cleaned(Grouped(n))) == n
  {
    if n < 1000 {
      DigitsValue(n);
      CleanedKeeps(Digits(n));
    } else {
      CleanedGrouped(n / 1000);
      CleanedConcat(Grouped(n / 1000), "," + Three(n % 1000));
      assert ("," + Three(n % 1000))[1..] == Three(n % 1000);
      CleanedKeeps(Three(n % 1000));
      ValueThree(Cleaned(Grouped(n / 1000)), n % 1000);
    }
  }

  /** Cleaning reads every printed amount, whatever its sign and however many groups it has. */
  lemma CleaningReadsPrintedAmounts(cents: int)
    ensures CleanAmount(PrintGrouped(cents)) == Some(cents)
  {
    var whole, part := Grouped(Magnitude(cents) / 100), "." + Two(Magnitude(cents) % 100);
    CleanedGrouped(Magnitude(cents) / 100);
    CleanedKeeps(part);
    CleanedKeeps(Sign(cents));
    CleanedConcat(whole, part);
    CleanedConcat(Sign(cents), whole + part);
    var digits := Cleaned(whole);
    assert digits + part == digits + "." + Two(Magnitude(cents) % 100);
    ParseSigned(cents, digits);
    assert |Sign(cents) + (digits + part)| >= 3;
  }

  // -------------------------------------------------------------------------------------- dates

  datatype Date = Date(year: nat, month: Month, day: nat)

  predicate IsLeap(year: nat) {
    year % 4 == 0 && (year % 100 != 0 || year % 400 == 0)
  }

  function DaysIn(year: nat, month: Month): nat {
    if month == 2 then (if IsLeap(year) then 29 else 28)
    else if month == 4 || month == 6 || month == 9 || month == 11 then 30
    else 31
  }

  predicate OnCalendar(d: Date) {
    1 <= d.day <= DaysIn(d.year, d.month)
  }

  /** Thirty-one days at most, thirty in four of the months, twenty-nine in February, and those in leap years only. */
  lemma OnCalendarMeans(d: Date)
    ensures OnCalendar(d) <==>
              && 1 <= d.day <= 31
              && (d.month in {4, 6, 9, 11} ==> d.day != 31)
              && (d.month == 2 ==> d.day < 30)
              && (d.month == 2 && d.day == 29 ==> d.year % 400 == 0 || (d.year % 4 == 0 && d.year % 100 != 0))
  {
  }

  function DateText(year: nat, month: Month, day: string): string {
    Digits(year) + (Two(month) + day)
  }

  /** Eight digits that name a day of the calendar. */
  function ParseDate(s: string): Option<Date> {
    if |s| == 8 && AllDigits(s) && 1 <= Value(s[4..6]) <= 12 then
      var d := Date(Value(s[..4]), Value(s[4..6]), Value(s[6..]));
      if OnCalendar(d) then Some(d) else None
    else
      None
  }

  /** Nothing else is read: eight digits that are read as a date are how that date is written. */
  lemma ParsedDatePrintsBack(s: string)
    requires ParseDate(s).Some? && s[0] != '0'
    ensures var d := ParseDate(s).value; OnCalendar(d) && DateText(d.year, d.month, Two(d.day)) == s
  {
    DigitsOfValue(s[..4]);
    TwoOfValue(s[4..6]);
    TwoOfValue(s[6..]);
    assert s == s[..4] + (s[4..6] + s[6..]);
  }

  lemma FourDigits(n: nat)
    requires 1000 <= n <= 9999
    ensures |Digits(n)| == 4
  {
    assert |Digits(n / 1000)| == 1;
    assert n / 10 / 10 / 10 == n / 1000;
    assert |Digits(n / 10 / 10)| == 2;
    assert |Digits(n / 10)| == 3;
  }

  lemma DateRoundTrip(d: Date)
    requires OnCalendar(d) && 1000 <= d.year <= 9999
    ensures ParseDate(DateText(d.year, d.month, Two(d.day))) == Some(d)
  {
    var s := DateText(d.year, d.month, Two(d.day));
    FourDigits(d.year);
    DigitsValue(d.year);
    assert s[..4] == Digits(d.year) && s[4..6] == Two(d.month) && s[6..] == Two(d.day);
    ValueTwo("", d.month);
    ValueTwo("", d.day);
    assert "" + Two(d.month) == Two(d.month) && "" + Two(d.day) == Two(d.day);
  }
}
