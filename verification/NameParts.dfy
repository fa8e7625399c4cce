/** What a proof's name in the archive is put together from, and why none of it can hold a slash. */
module NameParts {
  import opened Basics
  import opened Numerals
  import Transfers

  predicate Lacks(s: string, c: char) {
    forall i :: 0 <= i < |s| ==> s[i] != c
  }

  /** The part of a name before its last dot. */
  function Stem(base: string): (stem: string)
    ensures stem <= base
  {
    if '.' !in base then base
    else if base[|base| - 1] == '.' then base[..|base| - 1]
    else Stem(base[..|base| - 1])
  }

  /**
   What a transaction contributes to names: the number its date spells as eight digits, its vendor as stored,
   the cents of its magnitude, and its currency, which the transaction model restricts to five codes.
   */
  datatype Txn = Txn(date: Option<nat>, vendor: string, cents: nat, currency: Transfers.Currency)

  const UNSAFE: set<char> := {'<', '>', ':', '"', '/', '\\', '|', '?', '*'}
  const WHITE: set<char> := {' ', '\t', '\n', '\r', '\U{000b}', '\U{000c}'}
  const TRIMMED: set<char> := {'.', '_'}
  const MAX_PART := 80

  /** Unsafe characters become underscores, and so does every run of white space. */
  function Replaced(s: string): string {
    if s == "" then ""
    else
      var before, c := Replaced(s[..|s| - 1]), s[|s| - 1];
      if c in UNSAFE then before + "_"
      else if c !in WHITE then before + [c]
      else if |s| > 1 && s[|s| - 2] in WHITE then before
      else before + "_"
  }

  function SafeFilename(text: string): string {
    var safe := StripEnd(StripStart(Replaced(text), TRIMMED), TRIMMED);
    if safe == "" then "unknown" else if |safe| > MAX_PART then safe[..MAX_PART] else safe
  }

  function Code(c: Transfers.Currency): string {
    match c
    case CAD => "CAD"
    case USD => "USD"
    case CNY => "CNY"
    case EUR => "EUR"
    case GBP => "GBP"
  }

  function DateText(t: Txn): string {
    if t.date.Some? then Digits(t.date.value) else "00000000"
  }

  function Amount(t: Txn): string {
    Digits(t.cents / 100) + "." + Two(t.cents % 100)
  }

  /** `20240131-Vendor-12.00-CAD` */
  function Prefix(t: Txn): string {
    DateText(t) + "-" + SafeFilename(t.vendor) + "-" + Amount(t) + "-" + Code(t.currency)
  }

  /** The folder of a transaction's proofs when it has several. */
  function Folder(t: Txn): string {
    DateText(t) + "-" + SafeFilename(t.vendor) + "-bundle"
  }

  /** The part of a path after its last slash. */
  function LastPart(path: string): string {
    if path == "" || path[|path| - 1] == '/' then "" else LastPart(path[..|path| - 1]) + [path[|path| - 1]]
  }

  /** From the last dot on, unless the dot is the first or the last character. */
  function Suffix(name: string): string {
    if '.' !in name || Stem(name) == "" || |Stem(name)| + 1 == |name| then "" else name[|Stem(name)|..]
  }

  /** The extension a stored path gives its proof; slashes at its end do not count. */
  function Extension(path: string): string {
    var suffix := Suffix(LastPart(StripEnd(path, {'/'})));
    if suffix == "" then ".pdf" else suffix
  }

  // -------------------------------------------------------------------------------- no part has a slash

  predicate NoSlash(s: string) {
    Lacks(s, '/')
  }

  lemma DigitsLack(k: nat, c: char)
    requires !IsDigit(c)
    ensures Lacks(Digits(k), c)
  {
    forall i | 0 <= i < |Digits(k)| ensures Digits(k)[i] != c {
      assert IsDigit(Digits(k)[i]);
    }
  }

  lemma {:induction false} ReplacedHasNoSlash(s: string)
    ensures NoSlash(Replaced(s))
  {
    if s != "" {
      ReplacedHasNoSlash(s[..|s| - 1]);
    }
  }

  lemma {:induction false} StripStartLacks(s: string, drop: set<char>, c: char)
    requires Lacks(s, c)
    ensures Lacks(StripStart(s, drop), c)
  {
    if s != "" && s[0] in drop {
      StripStartLacks(s[1..], drop, c);
    }
  }

  lemma {:induction false} StripEndLacks(s: string, drop: set<char>, c: char)
    requires Lacks(s, c)
    ensures Lacks(StripEnd(s, drop), c)
  {
    if s != "" && s[|s| - 1] in drop {
      StripEndLacks(s[..|s| - 1], drop, c);
    }
  }

  lemma SafeFilenameHasNoSlash(text: string)
    ensures NoSlash(SafeFilename(text))
  {
    ReplacedHasNoSlash(text);
    StripStartLacks(Replaced(text), TRIMMED, '/');
    StripEndLacks(StripStart(Replaced(text), TRIMMED), TRIMMED, '/');
  }

  lemma DateHasNoSlash(t: Txn)
    ensures NoSlash(DateText(t))
  {
    if t.date.Some? {
      DigitsLack(t.date.value, '/');
    }
  }

  lemma PrefixHasNoSlash(t: Txn)
    ensures NoSlash(Prefix(t)) && NoSlash(Folder(t))
  {
    DateHasNoSlash(t);
    SafeFilenameHasNoSlash(t.vendor);
    AmountLacks(t, '/');
  }

  lemma AmountLacks(t: Txn, c: char)
    requires !IsDigit(c) && c != '.'
    ensures Lacks(Amount(t), c)
  {
    DigitsLack(t.cents / 100, c);
    assert forall i :: 0 <= i < 2 ==> IsDigit(Two(t.cents % 100)[i]);
  }

  lemma {:induction false} LastPartHasNoSlash(path: string)
    ensures NoSlash(LastPart(path))
  {
    if path != "" && path[|path| - 1] != '/' {
      LastPartHasNoSlash(path[..|path| - 1]);
    }
  }

  lemma ExtensionHasNoSlash(path: string)
    ensures NoSlash(Extension(path))
  {
    LastPartHasNoSlash(StripEnd(path, {'/'}));
  }

  // ------------------------------------------------------------------------------ what the parts are

  lemma {:induction false} StemOfDotted(stem: string, ext: string)
    requires Lacks(ext, '.')
    ensures Stem(stem + ("." + ext)) == stem
  {
    var base := stem + ("." + ext);
    assert base[|stem|] == '.';
    if ext == "" {
      assert base[..|base| - 1] == stem;
    } else {
      assert base[..|base| - 1] == stem + ("." + ext[..|ext| - 1]) && base[|base| - 1] == ext[|ext| - 1];
      StemOfDotted(stem, ext[..|ext| - 1]);
    }
  }

  lemma {:induction false} LastPartAfterSlash(folder: string, base: string)
    requires NoSlash(base)
    ensures LastPart(folder + ("/" + base)) == base
  {
    var path := folder + ("/" + base);
    if base == "" {
      assert path[|path| - 1] == '/';
    } else {
      assert path[..|path| - 1] == folder + ("/" + base[..|base| - 1]) && path[|path| - 1] == base[|base| - 1];
      LastPartAfterSlash(folder, base[..|base| - 1]);
    }
  }

  lemma {:induction false} LastPartOfBase(base: string)
    requires NoSlash(base)
    ensures LastPart(base) == base
  {
    if base != "" {
      LastPartOfBase(base[..|base| - 1]);
      assert base == base[..|base| - 1] + [base[|base| - 1]];
    }
  }

  /** The extension of `stem.ext`, in whatever folder; of `.hidden` and `trailing.` there is none. */
  lemma ExtensionMeans(folder: string, stem: string, ext: string)
    requires NoSlash(stem) && NoSlash(ext) && Lacks(ext, '.') && ext != ""
    ensures Extension(stem + ("." + ext)) == if stem == "" then ".pdf" else "." + ext
    ensures Extension(folder + ("/" + (stem + ("." + ext)))) == if stem == "" then ".pdf" else "." + ext
  {
    var base := stem + ("." + ext);
    var path := folder + ("/" + base);
    StemOfDotted(stem, ext);
    LastPartOfBase(base);
    LastPartAfterSlash(folder, base);
    assert base[|stem|] == '.' && base[|stem|..] == "." + ext;
    assert base[|base| - 1] == ext[|ext| - 1] && path[|path| - 1] == ext[|ext| - 1];
    assert StripEnd(base, {'/'}) == base && StripEnd(path, {'/'}) == path;
  }

  /** Without a dot there is no extension either. */
  lemma NoExtensionMeans(folder: string, base: string)
    requires NoSlash(base) && Lacks(base, '.') && base != ""
    ensures Extension(base) == ".pdf" && Extension(folder + ("/" + base)) == ".pdf"
  {
    var path := folder + ("/" + base);
    LastPartOfBase(base);
    LastPartAfterSlash(folder, base);
    assert path[|path| - 1] == base[|base| - 1];
    assert StripEnd(base, {'/'}) == base && StripEnd(path, {'/'}) == path;
  }

  /** What a character becomes: itself, or an underscore when it is unsafe or white space. */
  predicate Becomes(c: char, r: char) {
    if c in {'<', '>', ':', '"', '/', '\\', '|', '?', '*', ' ', '\t', '\n', '\r', '\U{000b}', '\U{000c}'} then r == '_'
    else r == c
  }

  predicate IsWhite(c: char) {
    c in {' ', '\t', '\n', '\r', '\U{000b}', '\U{000c}'}
  }

  predicate Keeps(s: string, i: nat)
    requires i < |s|
  {
    i == 0 || !IsWhite(s[i]) || !IsWhite(s[i - 1])
  }

  /** The places that keep a character: all but white space that follows white space. */
  ghost predicate ArePlaces(s: string, places: seq<nat>) {
    && (forall k :: 0 <= k < |places| ==> places[k] < |s|)
    && (forall j, k :: 0 <= j < k < |places| ==> places[j] < places[k])
    && (forall i: nat :: i < |s| ==> (i in places <==> Keeps(s, i)))
  }

  ghost predicate ReplacedAt(s: string, places: seq<nat>, r: string) {
    |r| == |places| && forall k :: 0 <= k < |places| ==> places[k] < |s| && Becomes(s[places[k]], r[k])
  }

  lemma PlacesGrow(s: string, places: seq<nat>, n: nat)
    requires |s| == n + 1 && ArePlaces(s[..n], places)
    ensures ArePlaces(s, if Keeps(s, n) then places + [n] else places)
  {
    forall i: nat | i < n ensures Keeps(s[..n], i) <==> Keeps(s, i) {
    }
  }

  lemma PlacesStandStill(s: string, places: seq<nat>, r: string, n: nat)
    requires |s| == n + 1 && ReplacedAt(s[..n], places, r)
    ensures ReplacedAt(s, places, r)
    ensures forall c :: Becomes(s[n], c) ==> ReplacedAt(s, places + [n], r + [c])
  {
  }

  lemma ReplacedSnoc(s: string, n: nat) returns (c: char)
    requires |s| == n + 1
    ensures Becomes(s[n], c)
    ensures Replaced(s) == if Keeps(s, n) then Replaced(s[..n]) + [c] else Replaced(s[..n])
  {
    c := if s[n] in UNSAFE || s[n] in WHITE then '_' else s[n];
  }

  lemma {:induction false} ReplacedMeans(s: string) returns (places: seq<nat>)
    ensures ArePlaces(s, places) && ReplacedAt(s, places, Replaced(s))
  {
    if s == "" {
      places := [];
    } else {
      var n := |s| - 1;
      places := ReplacedMeans(s[..n]);
      PlacesGrow(s, places, n);
      PlacesStandStill(s, places, Replaced(s[..n]), n);
      var c := ReplacedSnoc(s, n);
      if Keeps(s, n) {
        places := places + [n];
      }
    }
  }

  /**
   A safe name: every unsafe character and every run of white space an underscore, no dots or underscores at
   either end, at most eighty characters, and never empty.
   */
  ghost predicate IsSafeName(text: string, name: string) {
    exists places: seq<nat>, front: string, inner: string, back: string, replaced: string ::
      && ArePlaces(text, places) && ReplacedAt(text, places, replaced)
      && Padded(replaced, {'.', '_'}, front, inner, back)
      && name == if inner == "" then "unknown" else if |inner| > 80 then inner[..80] else inner
  }

  lemma SafeFilenameMeans(text: string)
    ensures IsSafeName(text, SafeFilename(text)) && 0 < |SafeFilename(text)| <= 80
  {
    var places := ReplacedMeans(text);
    var front, back := StripsBothEnds(Replaced(text), TRIMMED);
  }

  /** The prefix taken apart: date, vendor, amount and currency, with dashes between them. */
  lemma PrefixMeans(t: Txn) returns (date: string, whole: string, part: string, code: string)
    ensures Prefix(t) == date + "-" + SafeFilename(t.vendor) + "-" + (whole + "." + part) + "-" + code
    ensures Folder(t) == date + "-" + SafeFilename(t.vendor) + "-bundle"
    ensures AllDigits(date) && (t.date.None? ==> date == "00000000") && (t.date.Some? ==> Value(date) == t.date.value)
    ensures AllDigits(whole) && AllDigits(part) && |part| == 2 && Value(whole) * 100 + Value(part) == t.cents
    ensures (code, t.currency) in {("CAD", Transfers.CAD), ("USD", Transfers.USD), ("CNY", Transfers.CNY),
                                   ("EUR", Transfers.EUR), ("GBP", Transfers.GBP)}
  {
    date, whole, part, code := DateText(t), Digits(t.cents / 100), Two(t.cents % 100), Code(t.currency);
    if t.date.Some? {
      DigitsValue(t.date.value);
    }
    DigitsValue(t.cents / 100);
    ValueTwo("", t.cents % 100);
    assert "" + Two(t.cents % 100) == Two(t.cents % 100);
  }

  // ------------------------------------------------------------------- telling strings apart by a mark

  lemma EarlierMarkIsInside(c: char, a: string, x: string, b: string, y: string)
    requires a + ([c] + x) == b + ([c] + y) && |a| < |b|
    ensures !Lacks(b, c)
  {
    assert (a + ([c] + x))[|a|] == c;
    assert b[|a|] == c;
  }

  /** Strings that agree agree before and after their first mark. */
  lemma FirstSegmentTells(c: char, a: string, x: string, b: string, y: string)
    requires Lacks(a, c) && Lacks(b, c) && a + ([c] + x) == b + ([c] + y)
    ensures a == b && x == y
  {
    if |a| < |b| {
      EarlierMarkIsInside(c, a, x, b, y);
    } else if |b| < |a| {
      EarlierMarkIsInside(c, b, y, a, x);
    } else {
      var s := a + ([c] + x);
      assert a == s[..|a|] && b == s[..|b|] && x == s[|a| + 1..] && y == s[|b| + 1..];
    }
  }

  lemma LaterMarkIsInside(c: char, a: string, x: string, b: string, y: string)
    requires a + ([c] + x) == b + ([c] + y) && |a| < |b|
    ensures !Lacks(x, c)
  {
    assert (a + ([c] + x))[|b|] == c;
    assert x[|b| - |a| - 1] == c;
  }

  /** And before and after their last one. */
  lemma LastSegmentTells(c: char, a: string, x: string, b: string, y: string)
    requires Lacks(x, c) && Lacks(y, c) && a + ([c] + x) == b + ([c] + y)
    ensures a == b && x == y
  {
    if |a| < |b| {
      LaterMarkIsInside(c, a, x, b, y);
    } else if |b| < |a| {
      LaterMarkIsInside(c, b, y, a, x);
    } else {
      var s := a + ([c] + x);
      assert a == s[..|a|] && b == s[..|b|] && x == s[|a| + 1..] && y == s[|b| + 1..];
    }
  }

  lemma AmountTells(t: Txn, u: Txn)
    requires Amount(t) == Amount(u)
    ensures t.cents == u.cents
  {
    DigitsLack(t.cents / 100, '.');
    DigitsLack(u.cents / 100, '.');
    assert Amount(t) == Digits(t.cents / 100) + (['.'] + Two(t.cents % 100));
    assert Amount(u) == Digits(u.cents / 100) + (['.'] + Two(u.cents % 100));
    FirstSegmentTells('.', Digits(t.cents / 100), Two(t.cents % 100), Digits(u.cents / 100), Two(u.cents % 100));
    DigitsValue(t.cents / 100);
    DigitsValue(u.cents / 100);
    TwoTells(t.cents % 100, u.cents % 100);
  }

  lemma TwoTells(m: nat, n: nat)
    requires m < 100 && n < 100 && Two(m) == Two(n)
    ensures m == n
  {
    assert Two(m)[0] == Two(n)[0] && Two(m)[1] == Two(n)[1];
  }

  lemma DateTells(t: Txn, u: Txn)
    requires DateText(t) == DateText(u)
    ensures t.date == u.date
  {
    if t.date.Some? {
      NumeralIsNoPlaceholder(t.date.value);
      DigitsValue(t.date.value);
    }
    if u.date.Some? {
      NumeralIsNoPlaceholder(u.date.value);
      DigitsValue(u.date.value);
    }
  }

  lemma {:induction false} NoLeadingZero(n: nat)
    requires n > 0
    ensures Digits(n)[0] != '0'
  {
    if n >= 10 {
      NoLeadingZero(n / 10);
    }
  }

  lemma NumeralIsNoPlaceholder(n: nat)
    ensures Digits(n) != "00000000"
  {
    if n > 0 {
      NoLeadingZero(n);
    } else {
      assert |Digits(n)| == 1;
    }
  }

  lemma DateLacksDash(t: Txn)
    ensures Lacks(DateText(t), '-')
  {
    if t.date.Some? {
      DigitsLack(t.date.value, '-');
    }
  }

  lemma PrefixApart(t: Txn)
    ensures Prefix(t) ==
            DateText(t) + (['-'] + ((SafeFilename(t.vendor) + (['-'] + Amount(t))) + (['-'] + Code(t.currency))))
  {
  }

  /** Two transactions give their proofs the same prefix exactly when no part of it tells them apart. */
  lemma PrefixTells(t: Txn, u: Txn)
    ensures Prefix(t) == Prefix(u) <==>
              && t.date == u.date && t.cents == u.cents && t.currency == u.currency
              && SafeFilename(t.vendor) == SafeFilename(u.vendor)
  {
    if Prefix(t) == Prefix(u) {
      PrefixApart(t);
      PrefixApart(u);
      DateLacksDash(t);
      DateLacksDash(u);
      AmountLacks(t, '-');
      AmountLacks(u, '-');
      var v, w := SafeFilename(t.vendor) + (['-'] + Amount(t)), SafeFilename(u.vendor) + (['-'] + Amount(u));
      FirstSegmentTells('-', DateText(t), v + (['-'] + Code(t.currency)), DateText(u), w + (['-'] + Code(u.currency)));
      LastSegmentTells('-', v, Code(t.currency), w, Code(u.currency));
      LastSegmentTells('-', SafeFilename(t.vendor), Amount(t), SafeFilename(u.vendor), Amount(u));
      AmountTells(t, u);
      DateTells(t, u);
    }
  }
}
