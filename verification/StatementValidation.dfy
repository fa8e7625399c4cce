/**
 Checking a model's reading of a bank statement: summary rows out, duplicates out, the balance identity, and
 one corrective retry that is kept only when it brings the balance closer.
 */
module StatementValidation {
  import opened Basics

  /** A text field together with what it parses to, if it parses. */
  datatype Parsed<T> = Parsed(text: string, value: Option<T>)

  /** A row as read; `summary` says that its stripped description is one of the statement's summary phrases. */
  datatype Row = Row(
    date: Parsed<int>,
    amount: Parsed<real>,
    description: string,
    summary: bool,
    credit: bool,
    balance: Option<Parsed<real>>
  )

  datatype Meta = Meta(creditCard: bool, opening: Option<real>, closing: Option<real>, period: Option<(int, int)>)

  datatype Flag =
    | SkipPhraseDropped
    | UnreadableBalance
    | BalanceOutOfTolerance
    | BalanceMismatch
    | DateOutOfPeriod
    | RunningBalanceInconsistent
    | DuplicateSuspected
    | AmountOutlier
    | LowRowCount

  datatype Tier = High | Medium | Low

  // -------------------------------------------------------------------------------- summary rows

  predicate AnySummary(rows: seq<Row>) {
    exists r <- rows :: r.summary
  }

  /** The rows that are no summaries, in order. */
  function Kept(rows: seq<Row>): seq<Row> {
    Select(rows, (r: Row) => !r.summary)
  }

  // ---------------------------------------------------------------------------------- duplicates

  /** Two rows are the same: date and amount as written, and the descriptions as far as forty characters. */
  predicate SameRow(a: Row, b: Row) {
    && a.date.text == b.date.text && a.amount.text == b.amount.text
    && (a.description == b.description
        || (|a.description| >= 40 && |b.description| >= 40 && a.description[..40] == b.description[..40]))
  }

  ghost predicate NoRepeats(rows: seq<Row>) {
    forall i, j :: 0 <= i < j < |rows| ==> !SameRow(rows[i], rows[j])
  }

  /** What the program compares rows by. */
  function KeyOf(r: Row): (string, string, string) {
    (r.date.text, r.amount.text, if |r.description| <= 40 then r.description else r.description[..40])
  }

  lemma SameKeyMeansSameRow(a: Row, b: Row)
    ensures KeyOf(a) == KeyOf(b) <==> SameRow(a, b)
  {
    var s, t := a.description, b.description;
    if |s| > 40 && |t| <= 40 && s[..40] == t {
      assert t[..40] == t;
    }
    if |t| > 40 && |s| <= 40 && t[..40] == s {
      assert s[..40] == s;
    }
    if |s| == 40 {
      assert s[..40] == s;
    }
    if |t| == 40 {
      assert t[..40] == t;
    }
  }

  ghost predicate KeysDistinct(rows: seq<Row>) {
    forall i, j :: 0 <= i < j < |rows| ==> KeyOf(rows[i]) != KeyOf(rows[j])
  }

  lemma DistinctMeansNoRepeats(rows: seq<Row>)
    ensures KeysDistinct(rows) <==> NoRepeats(rows)
  {
    forall i, j | 0 <= i < j < |rows| ensures KeyOf(rows[i]) == KeyOf(rows[j]) <==> SameRow(rows[i], rows[j]) {
      SameKeyMeansSameRow(rows[i], rows[j]);
    }
  }

  function Keys(rows: seq<Row>): set<(string, string, string)> {
    set r <- rows :: KeyOf(r)
  }

  function Dedup(rows: seq<Row>): seq<Row> {
    if rows == [] then []
    else
      var before, last := Dedup(rows[..|rows| - 1]), rows[|rows| - 1];
      if KeyOf(last) in Keys(before) then before else before + [last]
  }

  /** No earlier row is the same. */
  ghost predicate IsFirst(rows: seq<Row>, i: nat)
    requires i < |rows|
  {
    forall j :: 0 <= j < i ==> !SameRow(rows[j], rows[i])
  }

  /** The places of all first rows, in order. */
  ghost predicate AreFirsts(rows: seq<Row>, places: seq<nat>) {
    && (forall k :: 0 <= k < |places| ==> places[k] < |rows|)
    && (forall j, k :: 0 <= j < k < |places| ==> places[j] < places[k])
    && (forall i: nat :: i < |rows| ==> (i in places <==> IsFirst(rows, i)))
  }

  /** `unique` holds the rows at these places. */
  ghost predicate StandAt(rows: seq<Row>, places: seq<nat>, unique: seq<Row>) {
    |unique| == |places| && forall k :: 0 <= k < |places| ==> places[k] < |rows| && unique[k] == rows[places[k]]
  }

  /** The survivors are the rows no earlier row is the same as, in order. */
  ghost predicate IsDedup(rows: seq<Row>, unique: seq<Row>) {
    exists places: seq<nat> :: AreFirsts(rows, places) && StandAt(rows, places, unique)
  }

  method DedupRows(rows: seq<Row>) returns (unique: seq<Row>)
    ensures unique == Dedup(rows)
    ensures IsDedup(rows, unique)
  {
    unique := [];
    var seen: set<(string, string, string)> := {};
    for i := 0 to |rows|
      invariant unique == Dedup(rows[..i]) && seen == Keys(unique)
    {
      assert rows[..i + 1][..i] == rows[..i];
      if KeyOf(rows[i]) !in seen {
        KeysSnoc(unique, rows[i]);
        seen := seen + {KeyOf(rows[i])};
        unique := unique + [rows[i]];
      }
    }
    assert rows[..|rows|] == rows;
    var places := DedupMeans(rows);
  }

  lemma KeysSnoc(rows: seq<Row>, r: Row)
    ensures Keys(rows + [r]) == Keys(rows) + {KeyOf(r)}
  {
  }

  lemma DistinctSnoc(rows: seq<Row>, r: Row)
    requires KeysDistinct(rows) && KeyOf(r) !in Keys(rows)
    ensures KeysDistinct(rows + [r])
  {
    forall i | 0 <= i < |rows| ensures KeyOf(rows[i]) != KeyOf(r) {
      assert rows[i] in rows;
    }
  }

  /** Every key survives deduplication, once. */
  lemma {:induction false} DedupKeepsEachKeyOnce(rows: seq<Row>)
    ensures KeysDistinct(Dedup(rows)) && Keys(Dedup(rows)) == Keys(rows)
  {
    if rows != [] {
      var n := |rows| - 1;
      var before, last := Dedup(rows[..n]), rows[n];
      DedupKeepsEachKeyOnce(rows[..n]);
      assert rows == rows[..n] + [last];
      KeysSnoc(rows[..n], last);
      if KeyOf(last) !in Keys(before) {
        KeysSnoc(before, last);
        DistinctSnoc(before, last);
      }
    }
  }

  lemma NewKeyMeansFirst(rows: seq<Row>, i: nat)
    requires i < |rows|
    ensures KeyOf(rows[i]) !in Keys(rows[..i]) <==> IsFirst(rows, i)
  {
    forall j | 0 <= j < i ensures KeyOf(rows[j]) == KeyOf(rows[i]) <==> SameRow(rows[j], rows[i]) {
      SameKeyMeansSameRow(rows[j], rows[i]);
    }
    if IsFirst(rows, i) {
      forall r <- rows[..i] ensures KeyOf(r) != KeyOf(rows[i]) {
        var j :| 0 <= j < i && rows[j] == r;
      }
    } else {
      var j :| 0 <= j < i && SameRow(rows[j], rows[i]);
      assert rows[j] in rows[..i];
    }
  }

  lemma NoRepeatsMeansAllFirst(rows: seq<Row>)
    ensures NoRepeats(rows) <==> forall i :: 0 <= i < |rows| ==> IsFirst(rows, i)
  {
    if NoRepeats(rows) {
      forall i | 0 <= i < |rows| ensures IsFirst(rows, i) {
      }
    } else {
      var i, j :| 0 <= i < j < |rows| && SameRow(rows[i], rows[j]);
      assert !IsFirst(rows, j);
    }
  }

  lemma FirstsGrow(rows: seq<Row>, places: seq<nat>, n: nat)
    requires |rows| == n + 1 && AreFirsts(rows[..n], places)
    ensures AreFirsts(rows, if IsFirst(rows, n) then places + [n] else places)
  {
    forall i: nat | i < n ensures IsFirst(rows[..n], i) <==> IsFirst(rows, i) {
      assert forall j :: 0 <= j < i ==> rows[..n][j] == rows[j];
    }
  }

  lemma StandStill(rows: seq<Row>, places: seq<nat>, unique: seq<Row>, n: nat)
    requires |rows| == n + 1 && StandAt(rows[..n], places, unique)
    ensures StandAt(rows, places, unique) && StandAt(rows, places + [n], unique + [rows[n]])
  {
  }

  lemma DedupSnoc(rows: seq<Row>, n: nat)
    requires |rows| == n + 1
    ensures Dedup(rows) == if IsFirst(rows, n) then Dedup(rows[..n]) + [rows[n]] else Dedup(rows[..n])
  {
    DedupKeepsEachKeyOnce(rows[..n]);
    NewKeyMeansFirst(rows, n);
  }

  /** Deduplication, said of the rows themselves. */
  lemma {:induction false} DedupMeans(rows: seq<Row>) returns (places: seq<nat>)
    ensures AreFirsts(rows, places) && StandAt(rows, places, Dedup(rows))
  {
    if rows == [] {
      places := [];
    } else {
      var n := |rows| - 1;
      var before := DedupMeans(rows[..n]);
      DedupSnoc(rows, n);
      FirstsGrow(rows, before, n);
      StandStill(rows, before, Dedup(rows[..n]), n);
      places := if IsFirst(rows, n) then before + [n] else before;
    }
  }

  /** The row that survives for a key is the first that carried it. */
  lemma {:induction false} DedupKeepsFirsts(rows: seq<Row>, r: Row)
    requires r in Dedup(rows)
    ensures exists i :: 0 <= i < |rows| && rows[i] == r && KeyOf(r) !in Keys(rows[..i])
  {
    var n := |rows| - 1;
    if r in Dedup(rows[..n]) {
      DedupKeepsFirsts(rows[..n], r);
      var i :| 0 <= i < n && rows[..n][i] == r && KeyOf(r) !in Keys(rows[..n][..i]);
      assert rows[..n][..i] == rows[..i] && rows[i] == r;
    } else {
      DedupKeepsEachKeyOnce(rows[..n]);
      assert rows[n] == r;
    }
  }

  lemma KeptSnoc(rows: seq<Row>, r: Row)
    ensures Kept(rows + [r]) == if r.summary then Kept(rows) else Kept(rows) + [r]
  {
    SelectSnoc(rows, r, (r: Row) => !r.summary);
  }

  lemma {:induction false} KeptIsDistinct(rows: seq<Row>)
    requires NoRepeats(rows)
    ensures NoRepeats(Kept(rows)) && forall r <- Kept(rows) :: r in rows
  {
    if rows != [] {
      var n := |rows| - 1;
      KeptIsDistinct(rows[..n]);
      LastApart(rows);
      KeptSnoc(rows[..n], rows[n]);
      forall i | 0 <= i < |Kept(rows[..n])| ensures !SameRow(Kept(rows[..n])[i], rows[n]) {
        assert Kept(rows[..n])[i] in rows[..n];
        var k :| 0 <= k < n && rows[k] == Kept(rows[..n])[i];
      }
    }
  }

  // ------------------------------------------------------------------------------ the balance

  /** How far a row moves the balance: a purchase raises what a card owes, a deposit what an account holds. */
  function Move(r: Row, creditCard: bool): real {
    match r.amount.value
    case None => 0.0
    case Some(amount) => if r.credit != creditCard then amount else -amount
  }

  predicate BalancesReadable(m: Meta) {
    m.opening.Some? && m.closing.Some?
  }

  /** How far the rows that are no summaries miss the closing balance; unreadable balances count as zero. */
  function Gap(rows: seq<Row>, m: Meta): real {
    var moved := Sum(Kept(rows), (r: Row) => Move(r, m.creditCard));
    if BalancesReadable(m) then Abs(m.opening.value + moved - m.closing.value) else Abs(moved)
  }

  // ---------------------------------------------------------------------------------- the checks

  /** Every date can be read and lies within two days of the statement period. */
  ghost predicate DatesInside(rows: seq<Row>, m: Meta) {
    m.period.Some? && forall r <- rows ::
      r.date.value.Some? && m.period.value.0 - 2 <= r.date.value.value <= m.period.value.1 + 2
  }

  /** The rows that print a running balance. */
  function Printing(rows: seq<Row>): seq<Row> {
    Select(rows, (r: Row) => r.balance.Some?)
  }

  /** The balance printed for `row` is the one before it, moved by the row's amount, to two cents. */
  ghost predicate Continues(prev: Row, row: Row) {
    && prev.balance.Some? && prev.balance.value.value.Some?
    && row.balance.Some? && row.balance.value.value.Some? && row.amount.value.Some?
    && var signed := if row.credit then row.amount.value.value else -row.amount.value.value;
       -0.02 <= row.balance.value.value.value - prev.balance.value.value.value - signed <= 0.02
  }

  /** The places among the first `n` printed balances where one does not follow from the one before. */
  ghost function Breaks(printing: seq<Row>, n: nat): set<nat>
    requires n <= |printing|
  {
    set i: nat | 1 <= i < n && BreaksAt(printing, i)
  }

  ghost predicate BreaksAt(printing: seq<Row>, i: nat)
    requires 1 <= i < |printing|
  {
    !Continues(printing[i - 1], printing[i])
  }

  /** At most one printed balance in twenty does not follow from the one before. */
  ghost predicate RunningBalancesAgree(rows: seq<Row>) {
    var printing := Printing(rows);
    |printing| < 2 || |Breaks(printing, |printing|)| * 20 <= |printing|
  }

  ghost predicate AnyOutlier(rows: seq<Row>) {
    exists r <- rows :: r.amount.value.Some? && !(-100000.0 <= r.amount.value.value <= 100000.0)
  }

  predicate EnoughRows(rows: seq<Row>, m: Meta) {
    if m.creditCard then |rows| >= 1 else |rows| >= 3
  }

  /** Which flags a statement earns, each by its own condition on the rows kept. */
  ghost predicate Earns(rows: seq<Row>, m: Meta, f: Flag) {
    var kept := Kept(rows);
    match f
    case SkipPhraseDropped => AnySummary(rows)
    case UnreadableBalance => !BalancesReadable(m)
    case BalanceOutOfTolerance => Gap(rows, m) > 0.05
    case BalanceMismatch => 0.02 < Gap(rows, m) <= 0.05
    case DateOutOfPeriod => !DatesInside(kept, m)
    case RunningBalanceInconsistent => !RunningBalancesAgree(kept)
    case DuplicateSuspected => !NoRepeats(kept)
    case AmountOutlier => AnyOutlier(kept)
    case LowRowCount => !EnoughRows(kept, m)
  }

  ghost predicate Flagged(rows: seq<Row>, m: Meta, flags: set<Flag>) {
    forall f :: f in flags <==> Earns(rows, m, f)
  }

  function TierFor(flags: set<Flag>, difference: real): Tier {
    if flags * {BalanceOutOfTolerance, LowRowCount, UnreadableBalance} != {} || difference > 0.05 then Low
    else if difference <= 0.02 && flags == {} then High
    else Medium
  }

  datatype Report = Report(tier: Tier, flags: set<Flag>, difference: real)

  ghost predicate IsReport(rows: seq<Row>, m: Meta, r: Report) {
    && Flagged(rows, m, r.flags)
    && r.difference == Gap(rows, m)
    && r.tier == TierFor(r.flags, r.difference)
  }

  /** The row list of an extraction is replaced in place by the rows that are not summaries. */
  class Extraction {
    const meta: Meta
    var rows: seq<Row>

    constructor (rows: seq<Row>, meta: Meta)
      ensures this.rows == rows && this.meta == meta
    {
      this.rows, this.meta := rows, meta;
    }

    method DropSummaries() returns (dropped: bool)
      modifies this
      ensures rows == Select(old(rows), (r: Row) => !r.summary)
      ensures dropped <==> AnySummary(old(rows))
    {
      var kept: seq<Row> := [];
      dropped := false;
      for i := 0 to |rows|
        invariant rows == old(rows) && kept == Kept(rows[..i])
        invariant dropped <==> AnySummary(rows[..i])
      {
        assert rows[..i + 1] == rows[..i] + [rows[i]];
        KeptSnoc(rows[..i], rows[i]);
        if rows[i].summary {
          dropped := true;
        } else {
          kept := kept + [rows[i]];
        }
      }
      assert rows[..|rows|] == rows;
      rows := kept;
    }

    method Validate() returns (report: Report)
      modifies this
      ensures rows == Select(old(rows), (r: Row) => !r.summary)
      ensures IsReport(old(rows), meta, report)
    {
      var dropped := DropSummaries();
      var difference := BalanceGap(rows, meta);
      var outside := AnyDateOutside(rows, meta);
      var inconsistent := BalancesDisagree(rows);
      var duplicate := AnyDuplicate(rows);
      var outlier := HasOutlier(rows);
      var few := (|rows| < 3 && !meta.creditCard) || |rows| < 1;
      var flags := Raise(dropped, !BalancesReadable(meta), difference, outside, inconsistent, duplicate, outlier, few);
      RaisedIsEarned(old(rows), meta, flags, dropped, difference, outside, inconsistent, duplicate, outlier, few);
      report := Report(TierFor(flags, difference), flags, difference);
    }
  }

  lemma RaisedIsEarned(rows: seq<Row>, m: Meta, flags: set<Flag>, dropped: bool, difference: real, outside: bool,
                       inconsistent: bool,
                       duplicate: bool, outlier: bool, few: bool)
    requires dropped <==> AnySummary(rows)
    requires difference == Gap(rows, m)
    requires outside <==> !DatesInside(Kept(rows), m)
    requires inconsistent <==> !RunningBalancesAgree(Kept(rows))
    requires duplicate <==> !NoRepeats(Kept(rows))
    requires outlier <==> AnyOutlier(Kept(rows))
    requires few <==> !EnoughRows(Kept(rows), m)
    requires forall f :: f in flags <==>
      match f
      case SkipPhraseDropped => dropped
      case UnreadableBalance => !BalancesReadable(m)
      case BalanceOutOfTolerance => difference > 0.05
      case BalanceMismatch => 0.02 < difference <= 0.05
      case DateOutOfPeriod => outside
      case RunningBalanceInconsistent => inconsistent
      case DuplicateSuspected => duplicate
      case AmountOutlier => outlier
      case LowRowCount => few
    ensures Flagged(rows, m, flags)
  {
  }

  /** The flags the checks raise; the two balance flags exclude each other. */
  method Raise(dropped: bool, unreadable: bool, difference: real, outside: bool, inconsistent: bool, duplicate: bool,
               outlier: bool, few: bool)
    returns (flags: set<Flag>)
    ensures forall f :: f in flags <==>
      match f
      case SkipPhraseDropped => dropped
      case UnreadableBalance => unreadable
      case BalanceOutOfTolerance => difference > 0.05
      case BalanceMismatch => 0.02 < difference <= 0.05
      case DateOutOfPeriod => outside
      case RunningBalanceInconsistent => inconsistent
      case DuplicateSuspected => duplicate
      case AmountOutlier => outlier
      case LowRowCount => few
  {
    flags := {};
    if dropped { flags := flags + {SkipPhraseDropped}; }
    if unreadable { flags := flags + {UnreadableBalance}; }
    if difference > 0.05 {
      flags := flags + {BalanceOutOfTolerance};
    } else if difference > 0.02 {
      flags := flags + {BalanceMismatch};
    }
    if outside { flags := flags + {DateOutOfPeriod}; }
    if inconsistent { flags := flags + {RunningBalanceInconsistent}; }
    if duplicate { flags := flags + {DuplicateSuspected}; }
    if outlier { flags := flags + {AmountOutlier}; }
    if few { flags := flags + {LowRowCount}; }
  }

  method BalanceGap(rows: seq<Row>, m: Meta) returns (difference: real)
    ensures var moved := Sum(rows, (r: Row) => Move(r, m.creditCard));
            difference == if BalancesReadable(m) then Abs(m.opening.value + moved - m.closing.value) else Abs(moved)
  {
    var opening, closing := 0.0, 0.0;
    if m.opening.Some? && m.closing.Some? {
      opening, closing := m.opening.value, m.closing.value;
    }
    var credits, debits := 0.0, 0.0;
    ghost var move := (r: Row) => Move(r, m.creditCard);
    for i := 0 to |rows|
      invariant Sum(rows[..i], move) == if m.creditCard then debits - credits else credits - debits
    {
      assert rows[..i + 1] == rows[..i] + [rows[i]];
      SumSnoc(rows[..i], rows[i], move);
      var amount := if rows[i].amount.value.Some? then rows[i].amount.value.value else 0.0;
      if rows[i].credit {
        credits := credits + amount;
      } else {
        debits := debits + amount;
      }
    }
    assert rows[..|rows|] == rows;
    var computed := if m.creditCard then opening + debits - credits else opening + credits - debits;
    difference := Abs(computed - closing);
  }

  method AnyDateOutside(rows: seq<Row>, m: Meta) returns (outside: bool)
    ensures outside <==> !DatesInside(rows, m)
  {
    if m.period.None? {
      return true;
    }
    var low, high := m.period.value.0 - 2, m.period.value.1 + 2;
    outside := false;
    for i := 0 to |rows|
      invariant outside <==> !DatesInside(rows[..i], m)
    {
      assert rows[..i + 1] == rows[..i] + [rows[i]];
      var date := rows[i].date.value;
      if date.None? || date.value < low || date.value > high {
        outside := true;
      }
    }
    assert rows[..|rows|] == rows;
  }

  lemma BreaksGrow(printing: seq<Row>, n: nat)
    requires 1 <= n < |printing|
    ensures |Breaks(printing, n + 1)|
            == |Breaks(printing, n)| + if Continues(printing[n - 1], printing[n]) then 0 else 1
  {
    if Continues(printing[n - 1], printing[n]) {
      assert Breaks(printing, n + 1) == Breaks(printing, n);
    } else {
      assert Breaks(printing, n + 1) == Breaks(printing, n) + {n};
    }
  }

  method BalancesDisagree(rows: seq<Row>) returns (disagree: bool)
    ensures disagree <==> !RunningBalancesAgree(rows)
  {
    var printing: seq<Row> := [];
    for i := 0 to |rows|
      invariant printing == Printing(rows[..i])
    {
      assert rows[..i + 1] == rows[..i] + [rows[i]];
      SelectSnoc(rows[..i], rows[i], (r: Row) => r.balance.Some?);
      if rows[i].balance.Some? {
        printing := printing + [rows[i]];
      }
    }
    assert rows[..|rows|] == rows;
    disagree := false;
    if |printing| >= 2 {
      SelectMembers(rows, (r: Row) => r.balance.Some?);
      var inconsistent := 0;
      for i := 1 to |printing|
        invariant inconsistent == |Breaks(printing, i)|
      {
        assert printing[i - 1] in printing && printing[i] in printing;
        var consistent := FollowsOn(printing[i - 1], printing[i]);
        BreaksGrow(printing, i);
        if !consistent {
          inconsistent := inconsistent + 1;
        }
      }
      disagree := inconsistent * 20 > |printing|;
    }
  }

  /** Compares the move of the printed balance with the row's amount; what cannot be read is inconsistent. */
  method FollowsOn(prev: Row, row: Row) returns (consistent: bool)
    requires prev.balance.Some? && row.balance.Some?
    ensures consistent <==> Continues(prev, row)
  {
    var was, now := prev.balance.value.value, row.balance.value.value;
    if was.None? || now.None? || row.amount.value.None? {
      return false;
    }
    var expected := row.amount.value.value * if row.credit then 1.0 else -1.0;
    consistent := !(Abs(now.value - was.value - expected) > 0.02);
  }

  method HasOutlier(rows: seq<Row>) returns (outlier: bool)
    ensures outlier <==> AnyOutlier(rows)
  {
    for i := 0 to |rows|
      invariant !AnyOutlier(rows[..i])
    {
      assert rows[..i + 1] == rows[..i] + [rows[i]];
      if rows[i].amount.value.Some? && Abs(rows[i].amount.value.value) > 100000.0 {
        assert rows[i] in rows;
        return true;
      }
    }
    assert rows[..|rows|] == rows;
    outlier := false;
  }

  method AnyDuplicate(rows: seq<Row>) returns (duplicate: bool)
    ensures duplicate <==> !NoRepeats(rows)
  {
    NoRepeatsMeansAllFirst(rows);
    var keys: set<(string, string, string)> := {};
    for i := 0 to |rows|
      invariant keys == Keys(rows[..i])
      invariant forall k :: 0 <= k < i ==> IsFirst(rows, k)
    {
      NewKeyMeansFirst(rows, i);
      if KeyOf(rows[i]) in keys {
        return true;
      }
      assert rows[..i + 1] == rows[..i] + [rows[i]];
      KeysSnoc(rows[..i], rows[i]);
      keys := keys + {KeyOf(rows[i])};
    }
    duplicate := false;
  }

  // ------------------------------------------------------------------------- what a tier promises

  /** The amount a row prints; one that cannot be read counts as zero. */
  function Figure(r: Row): real {
    match r.amount.value case None => 0.0 case Some(amount) => amount
  }

  function PaidIn(rows: seq<Row>): real {
    Sum(Select(rows, (r: Row) => r.credit), Figure)
  }

  function PaidOut(rows: seq<Row>): real {
    Sum(Select(rows, (r: Row) => !r.credit), Figure)
  }

  lemma SideByRow(rows: seq<Row>, side: Row -> bool)
    requires rows != []
    ensures Sum(Select(rows, side), Figure) ==
            Sum(Select(rows[1..], side), Figure) + if side(rows[0]) then Figure(rows[0]) else 0.0
  {
    SumCons(rows[0], Select(rows[1..], side), Figure);
    if !side(rows[0]) {
      assert Select(rows, side) == Select(rows[1..], side);
    }
  }

  lemma {:induction false} MovesBySide(rows: seq<Row>, creditCard: bool)
    ensures Sum(rows, (r: Row) => Move(r, creditCard)) ==
            if creditCard then PaidOut(rows) - PaidIn(rows) else PaidIn(rows) - PaidOut(rows)
  {
    if rows != [] {
      MovesBySide(rows[1..], creditCard);
      SideByRow(rows, (r: Row) => r.credit);
      SideByRow(rows, (r: Row) => !r.credit);
    }
  }

  /** Money in less money out takes an account's opening balance to the closing one, and the reverse for a card. */
  lemma GapMeans(rows: seq<Row>, m: Meta)
    ensures var kept := Select(rows, (r: Row) => !r.summary);
            Gap(rows, m) == match (m.opening, m.closing, m.creditCard)
                            case (Some(opening), Some(closing), false) =>
                              Abs(opening + PaidIn(kept) - PaidOut(kept) - closing)
                            case (Some(opening), Some(closing), true) =>
                              Abs(opening + PaidOut(kept) - PaidIn(kept) - closing)
                            case _ => Abs(PaidIn(kept) - PaidOut(kept))
  {
    MovesBySide(Kept(rows), m.creditCard);
  }

  /** The balance identity of the account's type, to two cents. */
  ghost predicate Balances(rows: seq<Row>, m: Meta) {
    && m.opening.Some? && m.closing.Some?
    && var moved := if m.creditCard then PaidOut(rows) - PaidIn(rows) else PaidIn(rows) - PaidOut(rows);
       -0.02 <= m.opening.value + moved - m.closing.value <= 0.02
  }

  lemma {:induction false} NoSummaryMeansAllKept(rows: seq<Row>)
    requires !AnySummary(rows)
    ensures Kept(rows) == rows
  {
    if rows != [] {
      assert rows[0] in rows && forall r <- rows[1..] :: r in rows;
      NoSummaryMeansAllKept(rows[1..]);
    }
  }

  /** Every check passes on every row the model returned. */
  ghost predicate Impeccable(rows: seq<Row>, m: Meta) {
    && !AnySummary(rows)
    && Balances(rows, m)
    && DatesInside(rows, m)
    && RunningBalancesAgree(rows)
    && NoRepeats(rows)
    && !AnyOutlier(rows)
    && EnoughRows(rows, m)
  }

  lemma NoBalanceFlagMeansBalanced(rows: seq<Row>, m: Meta)
    requires Kept(rows) == rows
    requires !Earns(rows, m, UnreadableBalance) && !Earns(rows, m, BalanceOutOfTolerance)
             && !Earns(rows, m, BalanceMismatch)
    ensures Balances(rows, m)
  {
    MovesBySide(rows, m.creditCard);
  }

  lemma NoRowFlagMeansClean(rows: seq<Row>, m: Meta)
    requires Kept(rows) == rows
    requires !Earns(rows, m, DateOutOfPeriod) && !Earns(rows, m, RunningBalanceInconsistent)
             && !Earns(rows, m, DuplicateSuspected)
    ensures DatesInside(rows, m) && RunningBalancesAgree(rows) && NoRepeats(rows)
  {
  }

  lemma NothingEarnedMeansImpeccable(rows: seq<Row>, m: Meta)
    requires !Earns(rows, m, SkipPhraseDropped)
    requires !Earns(rows, m, UnreadableBalance) && !Earns(rows, m, BalanceOutOfTolerance)
             && !Earns(rows, m, BalanceMismatch)
    requires !Earns(rows, m, DateOutOfPeriod) && !Earns(rows, m, RunningBalanceInconsistent)
    requires !Earns(rows, m, DuplicateSuspected) && !Earns(rows, m, AmountOutlier) && !Earns(rows, m, LowRowCount)
    ensures Impeccable(rows, m)
  {
    NoSummaryMeansAllKept(rows);
    NoBalanceFlagMeansBalanced(rows, m);
    NoRowFlagMeansClean(rows, m);
  }

  lemma ImpeccableEarnsNothing(rows: seq<Row>, m: Meta, f: Flag)
    requires Impeccable(rows, m)
    ensures !Earns(rows, m, f) && Gap(rows, m) <= 0.02
  {
    NoSummaryMeansAllKept(rows);
    MovesBySide(rows, m.creditCard);
  }

  /** High confidence means that every check passed on every row the model returned, and nothing less does. */
  lemma HighMeans(rows: seq<Row>, m: Meta, r: Report)
    requires IsReport(rows, m, r)
    ensures r.tier == High <==> Impeccable(rows, m)
  {
    if r.tier == High {
      assert r.flags == {};
      NothingEarnedMeansImpeccable(rows, m);
    }
    if Impeccable(rows, m) {
      forall f ensures f !in r.flags { ImpeccableEarnsNothing(rows, m, f); }
      assert r.flags == {};
      ImpeccableEarnsNothing(rows, m, LowRowCount);
    }
  }

  /** Low means the balance is off by more than a nickel, cannot be read, or too few rows are left. */
  lemma LowMeans(rows: seq<Row>, m: Meta, r: Report)
    requires IsReport(rows, m, r)
    ensures r.tier == Low <==>
              || Gap(rows, m) > 0.05
              || m.opening.None? || m.closing.None?
              || |Kept(rows)| < if m.creditCard then 1 else 3
  {
    assert BalanceOutOfTolerance in r.flags <==> Earns(rows, m, BalanceOutOfTolerance);
    assert LowRowCount in r.flags <==> Earns(rows, m, LowRowCount);
    assert UnreadableBalance in r.flags <==> Earns(rows, m, UnreadableBalance);
    var critical := r.flags * {BalanceOutOfTolerance, LowRowCount, UnreadableBalance};
    assert critical != {} <==>
      BalanceOutOfTolerance in r.flags || LowRowCount in r.flags || UnreadableBalance in r.flags
    by {
      if critical != {} {
        var f :| f in critical;
      }
      assert BalanceOutOfTolerance in r.flags ==> BalanceOutOfTolerance in critical;
      assert LowRowCount in r.flags ==> LowRowCount in critical;
      assert UnreadableBalance in r.flags ==> UnreadableBalance in critical;
    }
  }

  lemma DistinctIsNotSuspected(rows: seq<Row>, m: Meta)
    requires NoRepeats(Kept(rows))
    ensures !Earns(rows, m, DuplicateSuspected)
  {
  }

  /** Rows that went through deduplication never look duplicated. */
  lemma DedupedRowsAreNeverSuspected(rows: seq<Row>, m: Meta, r: Report)
    requires IsReport(Dedup(rows), m, r)
    ensures DuplicateSuspected !in r.flags
  {
    DedupKeepsEachKeyOnce(rows);
    DistinctMeansNoRepeats(Dedup(rows));
    KeptIsDistinct(Dedup(rows));
    DistinctIsNotSuspected(Dedup(rows), m);
  }

  // -------------------------------------------------------------------------- the corrective retry

  /** What the caller is given: rows, metadata and verdict of one extraction. */
  datatype Result = Result(rows: seq<Row>, meta: Meta, report: Report, balanceMatches: bool)

  ghost predicate ResultOf(rows: seq<Row>, m: Meta, tolerance: real, res: Result) {
    && res.rows == Kept(rows) && res.meta == m && IsReport(rows, m, res.report)
    && res.balanceMatches == (res.report.difference <= tolerance)
  }

  function Rank(t: Tier): nat {
    match t
    case Low => 0
    case Medium => 1
    case High => 2
  }

  /** Every check but the size of the balance difference. */
  ghost predicate CleanButForBalance(rows: seq<Row>, m: Meta) {
    && !AnySummary(rows)
    && BalancesReadable(m)
    && DatesInside(rows, m)
    && RunningBalancesAgree(rows)
    && NoRepeats(rows)
    && !AnyOutlier(rows)
    && EnoughRows(rows, m)
  }

  /** Both printed balances can be read, and enough rows are left without the summaries. */
  predicate Sufficient(rows: seq<Row>, m: Meta) {
    BalancesReadable(m) && EnoughRows(Kept(rows), m)
  }

  /** What it takes for a retry with a closer balance to be the less trusted reading of the two. */
  ghost predicate LessTrusted(rows: seq<Row>, m: Meta, retry: seq<Row>, m2: Meta) {
    if Impeccable(rows, m) then !CleanButForBalance(retry, m2)
    else Sufficient(rows, m) && Gap(rows, m) <= 0.05 && !Sufficient(retry, m2)
  }

  lemma CloserIsImpeccableIfClean(rows: seq<Row>, m: Meta)
    requires Gap(rows, m) <= 0.02
    ensures Impeccable(rows, m) <==> CleanButForBalance(rows, m)
  {
    if !AnySummary(rows) {
      NoSummaryMeansAllKept(rows);
      MovesBySide(rows, m.creditCard);
    }
  }

  /** A retry with a closer balance lowers the tier exactly under that condition. */
  lemma CloserBalanceLowersTheTierExactly(rows: seq<Row>, m: Meta, r: Report, retry: seq<Row>, m2: Meta, r2: Report)
    requires IsReport(rows, m, r) && IsReport(retry, m2, r2) && r2.difference < r.difference
    ensures Rank(r2.tier) < Rank(r.tier) <==> LessTrusted(rows, m, retry, m2)
  {
    HighMeans(rows, m, r);
    HighMeans(retry, m2, r2);
    LowMeans(rows, m, r);
    LowMeans(retry, m2, r2);
    if Impeccable(rows, m) {
      ImpeccableEarnsNothing(rows, m, LowRowCount);
      CloserIsImpeccableIfClean(retry, m2);
    }
  }

  /**
   With a tolerance of two cents or more, a reading that is retried is never of high confidence, so a taken
   retry lowers the tier exactly when it turns medium into low: its balances cannot be read, or it has too few rows.
   */
  lemma RetriedMediumBecomesLowExactly(rows: seq<Row>, m: Meta, r: Report, retry: seq<Row>, m2: Meta, r2: Report)
    requires IsReport(rows, m, r) && IsReport(retry, m2, r2) && r2.difference < r.difference && r.difference > 0.02
    ensures r.tier != High
    ensures Rank(r2.tier) < Rank(r.tier)
            <==> r.tier == Medium && (!BalancesReadable(m2) || !EnoughRows(Kept(retry), m2))
  {
    LowMeans(rows, m, r);
    LowMeans(retry, m2, r2);
  }

  lemma ReportIsUnique(rows: seq<Row>, m: Meta, r: Report, q: Report)
    requires IsReport(rows, m, r) && IsReport(rows, m, q)
    ensures r == q
  {
    forall f ensures f in r.flags <==> f in q.flags {
      assert f in r.flags <==> Earns(rows, m, f);
    }
    assert r.flags == q.flags;
  }

  /** The retry is taken: the first balance is off by more than the tolerance, and the second is closer. */
  predicate Taken(rows: seq<Row>, m: Meta, tolerance: real, retry: seq<Row>, m2: Meta) {
    Gap(rows, m) > tolerance && Gap(retry, m2) < Gap(rows, m)
  }

  /**
   The retry stage. `attempt` is what the second call would return, or None when it fails. Whatever it
   returns, the result is wholly the first extraction's or wholly the second's, and the balance is never
   worse; the tier is worse than the first reading's exactly when a taken retry is the less trusted one.
   */
  method ValidateWithRetry(first: Extraction, attempt: Option<Extraction>, tolerance: real) returns (res: Result)
    requires attempt.Some? ==> attempt.value != first
    modifies first, if attempt.Some? then {attempt.value} else {}
    ensures if attempt.Some?
               && Taken(old(first.rows), first.meta, tolerance, old(attempt.value.rows), attempt.value.meta)
            then ResultOf(old(attempt.value.rows), attempt.value.meta, tolerance, res)
            else ResultOf(old(first.rows), first.meta, tolerance, res)
    ensures res.report.difference <= Gap(old(first.rows), first.meta)
    ensures forall r :: IsReport(old(first.rows), first.meta, r) ==>
              (Rank(res.report.tier) < Rank(r.tier) <==>
                && attempt.Some?
                && Taken(old(first.rows), first.meta, tolerance, old(attempt.value.rows), attempt.value.meta)
                && LessTrusted(old(first.rows), first.meta, old(attempt.value.rows), attempt.value.meta))
  {
    ghost var rows := first.rows;
    var report := first.Validate();
    res := Result(first.rows, first.meta, report, report.difference <= tolerance);
    forall r | IsReport(rows, first.meta, r) ensures r == report {
      ReportIsUnique(rows, first.meta, r, report);
    }
    if !res.balanceMatches && attempt.Some? {
      var second := attempt.value;
      ghost var retry := second.rows;
      var report2 := second.Validate();
      if report2.difference < report.difference {
        res := Result(second.rows, second.meta, report2, report2.difference <= tolerance);
        CloserBalanceLowersTheTierExactly(rows, first.meta, report, retry, second.meta, report2);
      }
    }
  }

  function Cents(n: int, text: string): Parsed<real> {
    Parsed(text, Some(n as real / 100.0))
  }

  /**
   A closer balance is not a better reading: a retry that returns one row in place of three closes the
   balance and drops the statement from medium to low confidence.
   */
  lemma CloserBalanceCanLowerTheTier() returns (rows: seq<Row>, retry: seq<Row>, m: Meta)
    ensures forall r, r2 :: IsReport(rows, m, r) && IsReport(retry, m, r2) ==>
              r2.difference < r.difference && r.tier == Medium && r2.tier == Low
  {
    m := Meta(false, Some(0.0), Some(3.04), Some((0, 30)));
    var a := Row(Parsed("1", Some(1)), Cents(100, "1.00"), "a", false, true, None);
    var b := Row(Parsed("2", Some(2)), Cents(100, "1.00"), "b", false, true, None);
    var c := Row(Parsed("3", Some(3)), Cents(100, "1.00"), "c", false, true, None);
    var d := Row(Parsed("1", Some(1)), Cents(303, "3.03"), "d", false, true, None);
    rows, retry := [a, b, c], [d];
    NoSummaryMeansAllKept(rows);
    NoSummaryMeansAllKept(retry);
    assert rows[1..] == [b, c] && rows[1..][1..] == [c] && retry[1..] == [] && [c][1..] == [];
    assert Sum([c], (r: Row) => Move(r, false)) == 1.0;
    assert Sum([b, c], (r: Row) => Move(r, false)) == 2.0;
    assert Gap(rows, m) == Abs(3.0 - 3.04) && Gap(retry, m) == Abs(3.03 - 3.04);
    forall r, r2 | IsReport(rows, m, r) && IsReport(retry, m, r2)
      ensures r2.difference < r.difference && r.tier == Medium && r2.tier == Low
    {
      LowMeans(rows, m, r);
      LowMeans(retry, m, r2);
      assert Earns(rows, m, BalanceMismatch);
    }
  }
}
