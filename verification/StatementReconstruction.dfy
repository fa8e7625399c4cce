/**
 Rebuilding signed transactions from a bank statement's lines: the sign of each from the running balance, the
 year of each from the month the statement ends in, then out to a CSV file and back in through the CSV parser.
 */
module StatementReconstruction {
  import opened Basics
  import opened Numerals
  import opened StatementText

  /** What the description says a line is; `creditHint` is whether it holds one of the incoming-money words. */
  datatype Role = OpeningBalance | OtherSummary | Ordinary(creditHint: bool)

  /** A matched line: month (None when the three letters name no month), two-digit day, text, three amount tokens. */
  datatype Tokens = Tokens(month: Option<Month>, day: string, description: string, role: Role,
                           amt1: string, amt2: string, amt3: string)

  /** The same line cleaned: a token that is empty or no amount is None. */
  datatype Line = Line(month: Option<Month>, day: string, description: string, role: Role,
                       amt1: Option<int>, amt2: Option<int>, amt3: Option<int>)

  datatype Direction = Debit | Credit

  datatype Row = Row(date: string, direction: Direction, amount: int, description: string)

  // ------------------------------------------------------------------------------- reading lines

  const SPACES: set<char> := {' ', '\t', '\n', '\r'}

  function CleanDescription(s: string): string {
    StripEnd(StripEnd(StripStart(s, SPACES), SPACES), {','})
  }

  /** Only spaces go in front, and at the end only spaces and then commas; what is left does not end in a comma. */
  lemma CleanDescriptionMeans(s: string) returns (front: string, commas: string, back: string)
    ensures Padded(s, {' ', '\t', '\n', '\r'}, front, CleanDescription(s) + commas, back) && AllIn(commas, {','})
    ensures CleanDescription(s) == "" || CleanDescription(s)[|CleanDescription(s)| - 1] != ','
  {
    front, back := StripsBothEnds(s, SPACES);
    commas := StripsTheEnd(StripEnd(StripStart(s, SPACES), SPACES), {','});
  }

  function Clean(t: Tokens): Line {
    Line(t.month, t.day, CleanDescription(t.description), t.role, CleanAmount(t.amt1), CleanAmount(t.amt2),
        CleanAmount(t.amt3))
  }

  function CleanAll(printed: seq<Tokens>): seq<Line> {
    if printed == [] then [] else CleanAll(printed[..|printed| - 1]) + [Clean(printed[|printed| - 1])]
  }

  function Slot(amount: Option<int>): seq<int> {
    if amount.Some? then [amount.value] else []
  }

  /** The amounts of a line, left to right; the last is the running balance. */
  function Amounts(line: Line): seq<int> {
    Slot(line.amt1) + Slot(line.amt2) + Slot(line.amt3)
  }

  type Year = y: int | 1 <= y witness 1

  datatype Period = Period(endYear: Year, endMonth: Month)

  /** A month later in the calendar than the closing one belongs to the year before. */
  function YearOf(month: Month, p: Period): nat {
    if month > p.endMonth then p.endYear - 1 else p.endYear
  }

  function OrZero(amount: Option<int>): int {
    if amount.Some? then amount.value else 0
  }

  /** The direction and amount a line is read as, given the balance before it. */
  function ReadAmount(line: Line, previous: Option<int>): (Direction, int)
    requires |Amounts(line)| >= 2
  {
    var amounts := Amounts(line);
    if |amounts| == 3 then
      var debit, credit := line.amt1, line.amt2;
      if debit.Some? then (Debit, debit.value) else (Credit, OrZero(credit))
    else
      var amount := Magnitude(amounts[0]);
      if previous.Some? then
        (if amounts[1] - previous.value > 0 then Credit else Debit, amount)
      else
        (if line.role.Ordinary? && line.role.creditHint then Credit else Debit, amount)
  }

  /** Of two amounts the first is the size; money came in if the balance rose, or on the description's word. */
  lemma TwoAmountsAreRead(line: Line, previous: Option<int>)
    requires |Amounts(line)| == 2
    ensures var (direction, amount) := ReadAmount(line, previous);
            && amount >= 0 && amount in {Amounts(line)[0], -Amounts(line)[0]}
            && (direction == Credit <==>
                if previous.Some? then Amounts(line)[1] > previous.value else line.role == Ordinary(true))
  {
  }

  /** What the loop carries from line to line. */
  datatype State = State(previous: Option<int>, rows: seq<Row>)

  predicate IsPosting(line: Line) {
    line.role.Ordinary? && line.month.Some? && |Amounts(line)| >= 2
  }

  function Last(s: seq<int>): int
    requires s != []
  {
    s[|s| - 1]
  }

  function RowOf(line: Line, previous: Option<int>, p: Period): Row
    requires IsPosting(line)
  {
    var (direction, amount) := ReadAmount(line, previous);
    Row(DateText(YearOf(line.month.value, p), line.month.value, line.day), direction, amount, line.description)
  }

  function Step(s: State, line: Line, p: Period): State {
    if line.role.OpeningBalance? then
      if Amounts(line) == [] then s else s.(previous := Some(Last(Amounts(line))))
    else if IsPosting(line) then
      State(Some(Last(Amounts(line))), s.rows + [RowOf(line, s.previous, p)])
    else
      s
  }

  function Run(lines: seq<Line>, p: Period): State {
    if lines == [] then State(None, []) else Step(Run(lines[..|lines| - 1], p), lines[|lines| - 1], p)
  }

  /** One posting: its row, and the balance the next one is read against. */
  method ReadPosting(line: Line, previous: Option<int>, p: Period) returns (row: Row, balance: int)
    requires IsPosting(line)
    ensures row == RowOf(line, previous, p) && balance == Last(Amounts(line))
  {
    var amounts := Amounts(line);
    var year := p.endYear;
    if line.month.value > p.endMonth {
      year := p.endYear - 1;
    }
    var direction, amount;
    if |amounts| == 3 {
      var debit, credit := line.amt1, line.amt2;
      balance := amounts[2];
      if debit.Some? {
        direction, amount := Debit, debit.value;
      } else {
        direction, amount := Credit, OrZero(credit);
      }
    } else {
      amount, balance := Magnitude(amounts[0]), amounts[1];
      if previous.Some? {
        direction := if balance - previous.value > 0 then Credit else Debit;
      } else {
        direction := if line.role.creditHint then Credit else Debit;
      }
    }
    row := Row(DateText(year, line.month.value, line.day), direction, amount, line.description);
  }

  method ReadLines(printed: seq<Tokens>, p: Period) returns (rows: seq<Row>)
    ensures rows == Run(CleanAll(printed), p).rows
  {
    rows := [];
    var previous: Option<int> := None;
    for i := 0 to |printed|
      invariant State(previous, rows) == Run(CleanAll(printed[..i]), p)
    {
      var line := Clean(printed[i]);
      CleanOneMore(printed, i, p);
      var amounts := Amounts(line);
      if line.role.OpeningBalance? {
        if amounts != [] {
          previous := Some(amounts[|amounts| - 1]);
        }
        continue;
      }
      if line.role.OtherSummary? || line.month.None? || |amounts| < 2 {
        continue;
      }
      var row, balance := ReadPosting(line, previous, p);
      previous := Some(balance);
      rows := rows + [row];
    }
    assert printed[..|printed|] == printed;
  }

  lemma CleanOneMore(printed: seq<Tokens>, i: nat, p: Period)
    requires i < |printed|
    ensures Run(CleanAll(printed[..i + 1]), p) == Step(Run(CleanAll(printed[..i]), p), Clean(printed[i]), p)
  {
    assert printed[..i + 1] == printed[..i] + [printed[i]];
    RunOneMore(printed[..i], printed[i], p);
  }

  lemma RunOneMore(printed: seq<Tokens>, t: Tokens, p: Period)
    ensures Run(CleanAll(printed + [t]), p) == Step(Run(CleanAll(printed), p), Clean(t), p)
  {
    assert (printed + [t])[..|printed|] == printed;
    RunSnoc(CleanAll(printed), Clean(t), p);
  }

  lemma RunSnoc(lines: seq<Line>, line: Line, p: Period)
    ensures Run(lines + [line], p) == Step(Run(lines, p), line, p)
  {
    assert (lines + [line])[..|lines|] == lines;
  }

  // ---------------------------------------------------------------------------------- the CSV file

  /** A record of the file, field by field. */
  type Record = seq<string>

  function Signed(r: Row): int {
    if r.direction == Debit then -r.amount else r.amount
  }

  function DirectionText(d: Direction): string {
    if d == Debit then "DEBIT" else "CREDIT"
  }

  function RecordOf(r: Row): Record {
    ["0000000", DirectionText(r.direction), r.date, PrintCents(Signed(r)), r.description]
  }

  function Records(rows: seq<Row>): seq<Record> {
    if rows == [] then [] else Records(rows[..|rows| - 1]) + [RecordOf(rows[|rows| - 1])]
  }

  method WriteCsv(rows: seq<Row>) returns (records: seq<Record>)
    ensures records == Records(rows)
  {
    records := [];
    for i := 0 to |rows|
      invariant records == Records(rows[..i])
    {
      assert rows[..i + 1][..i] == rows[..i];
      var signed := if rows[i].direction == Debit then -rows[i].amount else rows[i].amount;
      records := records + [["0000000", DirectionText(rows[i].direction), rows[i].date, PrintCents(signed),
          rows[i].description]];
    }
    assert rows[..|rows|] == rows;
  }

  datatype Transaction = Transaction(kind: string, date: Date, amount: int, description: string)

  /** A record the reader steps over: blank, a comment, or short of five fields. */
  predicate IsSkipped(r: Record) {
    |r| < 5
  }

  predicate Parses(r: Record) {
    IsSkipped(r) || (ParseDate(r[2]).Some? && ParseCents(r[3]).Some?)
  }

  function TransactionOf(r: Record): Transaction
    requires !IsSkipped(r) && Parses(r)
  {
    Transaction(r[1], ParseDate(r[2]).value, ParseCents(r[3]).value, r[4])
  }

  /** The reader gives up on the first date or amount it cannot parse. */
  function Import(records: seq<Record>): Option<seq<Transaction>> {
    if records == [] then Some([])
    else
      var before, last := Import(records[..|records| - 1]), records[|records| - 1];
      if before.None? || !Parses(last) then None
      else if IsSkipped(last) then before
      else Some(before.value + [TransactionOf(last)])
  }

  method ReadCsv(records: seq<Record>) returns (transactions: Option<seq<Transaction>>)
    ensures transactions == Import(records)
  {
    var done: seq<Transaction> := [];
    for i := 0 to |records|
      invariant Import(records[..i]) == Some(done)
    {
      var row := records[i];
      assert records[..i + 1] == records[..i] + [row];
      ImportOneMore(records[..i], row);
      if |row| < 5 {
        continue;
      }
      var date, amount := ParseDate(row[2]), ParseCents(row[3]);
      if date.None? || amount.None? {
        ImportStops(records, i);
        return None;
      }
      done := done + [Transaction(row[1], date.value, amount.value, row[4])];
    }
    assert records[..|records|] == records;
    transactions := Some(done);
  }

  lemma ImportOneMore(records: seq<Record>, r: Record)
    ensures Import(records + [r]) ==
            if Import(records).None? || !Parses(r) then None
            else if IsSkipped(r) then Import(records)
            else Some(Import(records).value + [TransactionOf(r)])
  {
    assert (records + [r])[..|records|] == records;
  }

  lemma {:induction false} ImportStops(records: seq<Record>, i: nat)
    requires i < |records| && !Parses(records[i])
    ensures Import(records).None?
  {
    if i < |records| - 1 {
      ImportStops(records[..|records| - 1], i);
    }
  }

  /** The whole path: lines to rows, rows to a file, the file to transactions. */
  method Convert(printed: seq<Tokens>, p: Period) returns (transactions: Option<seq<Transaction>>)
    ensures transactions == Import(Records(Run(CleanAll(printed), p).rows))
  {
    var rows := ReadLines(printed, p);
    var records := WriteCsv(rows);
    transactions := ReadCsv(records);
  }

  // ---------------------------------------------------------------------------------- what is recovered

  /** Months since year zero, for saying how far apart two months are. */
  function MonthIndex(year: int, month: Month): int {
    year * 12 + month
  }

  /** The year rule is right about a date exactly when its month is among the twelve that end with the statement. */
  lemma YearRuleExact(d: Date, p: Period)
    ensures YearOf(d.month, p) == d.year <==> 0 <= MonthIndex(p.endYear, p.endMonth) - MonthIndex(d.year, d.month) < 12
  {
  }

  /** A genuine transaction: its date, its signed amount, its text. */
  datatype Posting = Posting(date: Date, amount: int, description: string)

  /** The line prints the transaction: the size of its amount, then the balance after it, both comma-grouped. */
  predicate Prints(line: Tokens, t: Posting, balance: int) {
    && line.role.Ordinary? && line.month == Some(t.date.month)
    && t.date.day < 100 && line.day == Two(t.date.day)
    && CleanDescription(line.description) == t.description
    && line.amt1 == PrintGrouped(Magnitude(t.amount)) && line.amt2 == PrintGrouped(balance) && line.amt3 == ""
  }

  predicate OpensWith(line: Line, balance: int) {
    line.role.OpeningBalance? && Amounts(line) != [] && Last(Amounts(line)) == balance
  }

  function Total(ts: seq<Posting>): int {
    if ts == [] then 0 else Total(ts[..|ts| - 1]) + ts[|ts| - 1].amount
  }

  predicate IsEssential(line: Line) {
    (line.role.OpeningBalance? && Amounts(line) != []) || IsPosting(line)
  }

  /** The lines that matter: opening balances and postings. */
  function Essential(printed: seq<Tokens>): seq<Tokens> {
    if printed == [] then []
    else
      var before, last := Essential(printed[..|printed| - 1]), printed[|printed| - 1];
      if IsEssential(Clean(last)) then before + [last] else before
  }

  /** Anything else leaves the loop's state alone. */
  lemma {:induction false} OnlyEssentialLinesCount(printed: seq<Tokens>, p: Period)
    ensures Run(CleanAll(printed), p) == Run(CleanAll(Essential(printed)), p)
  {
    if printed != [] {
      var n := |printed| - 1;
      var before := Essential(printed[..n]);
      OnlyEssentialLinesCount(printed[..n], p);
      LastApart(printed);
      RunOneMore(printed[..n], printed[n], p);
      RunOneMore(before, printed[n], p);
    }
  }

  /** An opening balance, then one line for each transaction, each with the balance after it. */
  predicate Shows(printed: seq<Tokens>, opening: int, ts: seq<Posting>) {
    && |printed| == |ts| + 1
    && if ts == [] then OpensWith(Clean(printed[0]), opening)
       else Shows(printed[..|ts|], opening, ts[..|ts| - 1]) && Prints(printed[|ts|], ts[|ts| - 1], opening + Total(ts))
  }

  /** What a line that prints a transaction amounts to once it is cleaned. */
  predicate Reads(line: Line, t: Posting, balance: int) {
    && line.role.Ordinary? && line.month == Some(t.date.month)
    && t.date.day < 100 && line.day == Two(t.date.day)
    && line.description == t.description
    && line.amt1 == Some(Magnitude(t.amount)) && line.amt2 == Some(balance) && line.amt3 == None
  }

  predicate AllRead(lines: seq<Line>, opening: int, ts: seq<Posting>) {
    && |lines| == |ts| + 1
    && if ts == [] then OpensWith(lines[0], opening)
       else AllRead(lines[..|ts|], opening, ts[..|ts| - 1]) && Reads(lines[|ts|], ts[|ts| - 1], opening + Total(ts))
  }

  lemma PrintedIsRead(line: Tokens, t: Posting, balance: int)
    requires Prints(line, t, balance)
    ensures Reads(Clean(line), t, balance)
  {
    CleaningReadsPrintedAmounts(Magnitude(t.amount));
    CleaningReadsPrintedAmounts(balance);
  }

  lemma CleanAllLast(printed: seq<Tokens>)
    requires printed != []
    ensures |CleanAll(printed)| == |CleanAll(printed[..|printed| - 1])| + 1
    ensures CleanAll(printed)[..|CleanAll(printed)| - 1] == CleanAll(printed[..|printed| - 1])
    ensures CleanAll(printed)[|CleanAll(printed)| - 1] == Clean(printed[|printed| - 1])
  {
  }

  lemma {:induction false} ShownIsRead(printed: seq<Tokens>, opening: int, ts: seq<Posting>)
    requires Shows(printed, opening, ts)
    ensures AllRead(CleanAll(printed), opening, ts)
  {
    var n := |ts|;
    CleanAllLast(printed);
    if n > 0 {
      ShownIsRead(printed[..n], opening, ts[..n - 1]);
      PrintedIsRead(printed[n], ts[n - 1], opening + Total(ts));
    } else {
      assert CleanAll(printed[..0]) == [];
    }
  }

  function ExpectedRow(t: Posting): Row {
    Row(DateText(t.date.year, t.date.month, if t.date.day < 100 then Two(t.date.day) else ""),
        if t.amount > 0 then Credit else Debit, Magnitude(t.amount), t.description)
  }

  function ExpectedRows(ts: seq<Posting>): seq<Row> {
    if ts == [] then [] else ExpectedRows(ts[..|ts| - 1]) + [ExpectedRow(ts[|ts| - 1])]
  }

  /** The transaction's month is among the twelve that end with the statement. */
  predicate WithinAYear(t: Posting, p: Period) {
    0 <= MonthIndex(p.endYear, p.endMonth) - MonthIndex(t.date.year, t.date.month) < 12
  }

  lemma OneRow(s: State, line: Line, t: Posting, balance: int, p: Period)
    requires Reads(line, t, balance) && s.previous == Some(balance - t.amount) && WithinAYear(t, p)
    ensures Step(s, line, p) == State(Some(balance), s.rows + [ExpectedRow(t)])
  {
    YearRuleExact(t.date, p);
  }

  lemma OpeningIsRead(lines: seq<Line>, opening: int, p: Period)
    requires |lines| == 1 && OpensWith(lines[0], opening)
    ensures Run(lines, p) == State(Some(opening), [])
  {
    assert Run(lines[..0], p) == State(None, []);
  }

  lemma ExpectedRowsLast(ts: seq<Posting>)
    requires ts != []
    ensures ExpectedRows(ts) == ExpectedRows(ts[..|ts| - 1]) + [ExpectedRow(ts[|ts| - 1])]
    ensures Total(ts) == Total(ts[..|ts| - 1]) + ts[|ts| - 1].amount
  {
  }

  lemma RunLast(lines: seq<Line>, p: Period)
    requires lines != []
    ensures Run(lines, p) == Step(Run(lines[..|lines| - 1], p), lines[|lines| - 1], p)
  {
  }

  /** The loop ends holding the last balance and one right row for each transaction. */
  lemma {:induction false} RowsAreRecovered(lines: seq<Line>, opening: int, ts: seq<Posting>, p: Period)
    requires AllRead(lines, opening, ts) && forall t <- ts :: WithinAYear(t, p)
    ensures Run(lines, p) == State(Some(opening + Total(ts)), ExpectedRows(ts))
  {
    var n := |ts|;
    if n == 0 {
      OpeningIsRead(lines, opening, p);
    } else {
      assert WithinAYear(ts[n - 1], p) && forall u <- ts[..n - 1] :: u in ts;
      RowsAreRecovered(lines[..n], opening, ts[..n - 1], p);
      OneMoreRow(lines, opening, ts, p);
    }
  }

  lemma {:induction false} OneMoreRow(lines: seq<Line>, opening: int, ts: seq<Posting>, p: Period)
    requires ts != [] && |lines| == |ts| + 1 && WithinAYear(ts[|ts| - 1], p)
    requires Reads(lines[|ts|], ts[|ts| - 1], opening + Total(ts))
    requires Run(lines[..|ts|], p) == State(Some(opening + Total(ts[..|ts| - 1])), ExpectedRows(ts[..|ts| - 1]))
    ensures Run(lines, p) == State(Some(opening + Total(ts)), ExpectedRows(ts))
  {
    var n := |ts|;
    ExpectedRowsLast(ts);
    OneRow(Run(lines[..n], p), lines[n], ts[n - 1], opening + Total(ts), p);
    RunLast(lines, p);
  }

  function ExpectedTransaction(t: Posting): Transaction {
    Transaction(if t.amount > 0 then "CREDIT" else "DEBIT", t.date, t.amount, t.description)
  }

  function ExpectedTransactions(ts: seq<Posting>): seq<Transaction> {
    if ts == [] then [] else ExpectedTransactions(ts[..|ts| - 1]) + [ExpectedTransaction(ts[|ts| - 1])]
  }

  predicate RealDate(t: Posting) {
    OnCalendar(t.date) && 1000 <= t.date.year <= 9999
  }

  lemma OneTransaction(t: Posting)
    requires RealDate(t)
    ensures Parses(RecordOf(ExpectedRow(t))) && TransactionOf(RecordOf(ExpectedRow(t))) == ExpectedTransaction(t)
  {
    DateRoundTrip(t.date);
    AmountRoundTrip(t.amount);
  }

  lemma RecordsSnoc(rows: seq<Row>, r: Row)
    ensures Records(rows + [r]) == Records(rows) + [RecordOf(r)]
  {
    assert (rows + [r])[..|rows|] == rows;
  }

  lemma ImportSnoc(records: seq<Record>, r: Record)
    requires Import(records).Some? && !IsSkipped(r) && Parses(r)
    ensures Import(records + [r]) == Some(Import(records).value + [TransactionOf(r)])
  {
    ImportOneMore(records, r);
  }

  lemma {:induction false} TransactionsAreImported(ts: seq<Posting>)
    requires forall t <- ts :: RealDate(t)
    ensures Import(Records(ExpectedRows(ts))) == Some(ExpectedTransactions(ts))
  {
    if ts != [] {
      var n := |ts| - 1;
      assert RealDate(ts[n]) && forall u <- ts[..n] :: u in ts;
      TransactionsAreImported(ts[..n]);
      OneTransaction(ts[n]);
      ImportSnoc(Records(ExpectedRows(ts[..n])), RecordOf(ExpectedRow(ts[n])));
      RecordsSnoc(ExpectedRows(ts[..n]), ExpectedRow(ts[n]));
    }
  }

  /**
   The round trip. A statement that prints an opening balance and then, for each transaction, the size of its
   amount and the running balance after it, with any other lines in between, is imported as exactly those
   transactions: true dates, true signs, true amounts, in order.
   */
  lemma StatementRoundTrip(printed: seq<Tokens>, opening: int, ts: seq<Posting>, p: Period)
    requires Shows(Essential(printed), opening, ts)
    requires forall t <- ts :: RealDate(t) && WithinAYear(t, p)
    ensures Import(Records(Run(CleanAll(printed), p).rows)) == Some(ExpectedTransactions(ts))
  {
    OnlyEssentialLinesCount(printed, p);
    ShownIsRead(Essential(printed), opening, ts);
    RowsAreRecovered(CleanAll(Essential(printed)), opening, ts, p);
    TransactionsAreImported(ts);
  }

  // ---------------------------------------------------------------- what the rows of any statement add up to

  function SumSigned(rows: seq<Row>): int {
    if rows == [] then 0 else SumSigned(rows[..|rows| - 1]) + Signed(rows[|rows| - 1])
  }

  lemma SumSignedSnoc(rows: seq<Row>, r: Row)
    ensures SumSigned(rows + [r]) == SumSigned(rows) + Signed(r)
  {
    assert (rows + [r])[..|rows|] == rows;
  }

  predicate ThreeColumns(line: Line) {
    |Amounts(line)| == 3
  }

  /** With three amounts the first is always read, and always as a debit: the other two readings cannot happen. */
  lemma ThreeColumnsAreAlwaysADebit(line: Line, previous: Option<int>)
    requires ThreeColumns(line)
    ensures ReadAmount(line, previous) == (Debit, Amounts(line)[0])
    ensures line.amt1 == Some(Amounts(line)[0]) && line.amt2 == Some(Amounts(line)[1])
  {
  }

  /** The line's own columns account for how far the balance moved: size and balance, or debit, credit and balance. */
  predicate AddsUp(line: Line, before: int)
    requires IsPosting(line)
  {
    var a := Amounts(line);
    if ThreeColumns(line) then a[2] - before == a[1] - a[0] else Magnitude(a[0]) == Magnitude(a[1] - before)
  }

  /** How far the reading of one line is from how far the balance moved: nothing, or the credit it printed. */
  lemma ReadingOfALine(line: Line, before: int, p: Period)
    requires IsPosting(line)
    ensures AddsUp(line, before) ==>
              Signed(RowOf(line, Some(before), p)) == Last(Amounts(line)) - before - if ThreeColumns(line)
                  then Amounts(line)[1] else 0
    ensures !ThreeColumns(line) ==> (AddsUp(line, before)
            <==> Signed(RowOf(line, Some(before), p)) == Last(Amounts(line)) - before)
  {
    if ThreeColumns(line) {
      ThreeColumnsAreAlwaysADebit(line, Some(before));
    }
  }

  /** The balance the statement showed before line `k`, once one is known. */
  ghost predicate EveryLineAddsUp(lines: seq<Line>, p: Period) {
    forall k :: 0 <= k < |lines| && IsPosting(lines[k]) ==>
      Run(lines[..k], p).previous.Some? && AddsUp(lines[k], Run(lines[..k], p).previous.value)
  }

  /** The credits printed by lines of three columns. */
  function LostCredits(lines: seq<Line>): int {
    if lines == [] then 0
    else
      var last := lines[|lines| - 1];
      LostCredits(lines[..|lines| - 1]) + if IsPosting(last) && ThreeColumns(last) then Amounts(last)[1] else 0
  }

  predicate OpensOnce(lines: seq<Line>) {
    lines != [] && lines[0].role.OpeningBalance? && Amounts(lines[0]) != []
    && forall k :: 1 <= k < |lines| ==> !lines[k].role.OpeningBalance?
  }

  /**
   Conservation. On any statement whose lines add up, the recovered amounts sum to the closing balance less the
   opening balance, less every credit that stood in a column of its own.
   */
  lemma {:induction false} RecoveredAmountsSumToTheBalanceChange(lines: seq<Line>, p: Period)
    requires OpensOnce(lines) && EveryLineAddsUp(lines, p)
    ensures Run(lines, p).previous.Some?
    ensures SumSigned(Run(lines, p).rows) == Run(lines, p).previous.value - Last(Amounts(lines[0])) - LostCredits(lines)
  {
    var n := |lines| - 1;
    if n == 0 {
      assert Run(lines[..0], p) == State(None, []);
      assert LostCredits(lines[..0]) == 0;
    } else {
      assert forall k :: 0 <= k <= n ==> lines[..n][..k] == lines[..k];
      RecoveredAmountsSumToTheBalanceChange(lines[..n], p);
      var s := Run(lines[..n], p);
      if IsPosting(lines[n]) {
        ReadingOfALine(lines[n], s.previous.value, p);
        SumSignedSnoc(s.rows, RowOf(lines[n], s.previous, p));
      }
    }
  }

  /** So the recovered amounts account for the balance exactly when no money came in through a column of its own. */
  lemma BalanceIsAccountedForExactly(lines: seq<Line>, p: Period)
    requires OpensOnce(lines) && EveryLineAddsUp(lines, p)
    ensures Run(lines, p).previous.Some?
    ensures SumSigned(Run(lines, p).rows) == Run(lines, p).previous.value - Last(Amounts(lines[0]))
            <==> LostCredits(lines) == 0
  {
    RecoveredAmountsSumToTheBalanceChange(lines, p);
  }

  /** A line that prints a debit, a credit and a balance. */
  function ThreeColumnLine(debit: int, credit: int, balance: int): Tokens {
    Tokens(Some(1), "02", "Deposit", Ordinary(true), PrintGrouped(debit), PrintGrouped(credit), PrintGrouped(balance))
  }

  lemma ThreeColumnsRead(line: Tokens, debit: int, credit: int, balance: int)
    requires line.amt1 == PrintGrouped(debit) && line.amt2 == PrintGrouped(credit)
    requires line.amt3 == PrintGrouped(balance)
    ensures Amounts(Clean(line)) == [debit, credit, balance]
  {
    CleaningReadsPrintedAmounts(debit);
    CleaningReadsPrintedAmounts(credit);
    CleaningReadsPrintedAmounts(balance);
  }

  /** A deposit printed in three columns, of whatever size, adds up and comes back as a debit of nothing. */
  lemma DepositInThreeColumnsIsLost(before: int, credit: int, p: Period)
    ensures var line := Clean(ThreeColumnLine(0, credit, before + credit));
            IsPosting(line) && AddsUp(line, before) && Signed(RowOf(line, Some(before), p)) == 0
  {
    var line := ThreeColumnLine(0, credit, before + credit);
    ThreeColumnsRead(line, 0, credit, before + credit);
    ReadingOfALine(Clean(line), before, p);
  }
}
