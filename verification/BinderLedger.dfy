/** The ledger workbook's grand totals: rows grouped by account, each account by currency, then added up again. */
module BinderLedger {
  import opened Basics
  import opened NameOrder
  import opened BinderFigures

  // -------------------------------------------------------------------------------- ordering keys

  function KnownFirst(known: seq<string>, keys: set<string>): seq<string> {
    if known == [] then []
    else
      var before, last := KnownFirst(known[..|known| - 1], keys), known[|known| - 1];
      if last in keys && last !in before then before + [last] else before
  }

  lemma {:induction false} KnownFirstMembers(known: seq<string>, keys: set<string>)
    ensures Distinct(KnownFirst(known, keys))
    ensures forall k :: k in KnownFirst(known, keys) <==> k in known && k in keys
  {
    if known != [] {
      var n := |known| - 1;
      KnownFirstMembers(known[..n], keys);
      assert known == known[..n] + [known[n]];
    }
  }

  /** Some place of `x` in the list is before every place of `y`. */
  ghost predicate ComesBefore(known: seq<string>, x: string, y: string) {
    exists a :: 0 <= a < |known| && known[a] == x && y !in known[..a + 1]
  }

  ghost predicate InListOrder(names: seq<string>, known: seq<string>) {
    forall i, j :: 0 <= i < j < |names| ==> ComesBefore(known, names[i], names[j])
  }

  lemma {:induction false} KnownFirstKeepsOrder(known: seq<string>, keys: set<string>)
    ensures InListOrder(KnownFirst(known, keys), known)
  {
    if known != [] {
      var n := |known| - 1;
      KnownFirstKeepsOrder(known[..n], keys);
      KnownFirstMembers(known[..n], keys);
      var first := KnownFirst(known, keys);
      forall i, j | 0 <= i < j < |first| ensures ComesBefore(known, first[i], first[j]) {
        if j < |KnownFirst(known[..n], keys)| {
          var before := KnownFirst(known[..n], keys);
          assert before[i] == first[i] && before[j] == first[j] && ComesBefore(known[..n], before[i], before[j]);
          var a :| 0 <= a < n && known[..n][a] == first[i] && first[j] !in known[..n][..a + 1];
          assert known[..n][..a + 1] == known[..a + 1] && known[a] == first[i];
        } else {
          assert first[i] in KnownFirst(known[..n], keys) && first[j] !in known[..n];
          var a :| 0 <= a < n && known[..n][a] == first[i];
          assert forall x <- known[..a + 1] :: x in known[..n];
          assert known[a] == first[i];
        }
      }
    }
  }

  /** Known keys stand before the others, in the order of their list; the others are alphabetical. */
  ghost predicate InKeyOrder(ordered: seq<string>, known: seq<string>) {
    forall i, j :: 0 <= i < j < |ordered| ==>
      if ordered[j] in known then ordered[i] in known && ComesBefore(known, ordered[i], ordered[j])
      else ordered[i] in known || Alphabetical(ordered[i], ordered[j])
  }

  lemma OrderingIsInKeyOrder(ordered: seq<string>, keys: set<string>, known: seq<string>)
    requires IsOrdering(ordered, keys, known)
    ensures InKeyOrder(ordered, known)
  {
    var first := KnownFirst(known, keys);
    KnownFirstMembers(known, keys);
    KnownFirstKeepsOrder(known, keys);
    forall k | 0 <= k < |ordered| ensures ordered[k] in known <==> k < |first| {
      if k < |first| {
        assert ordered[k] == first[k];
      }
    }
    forall i, j | 0 <= i < j < |ordered|
      ensures if ordered[j] in known then ordered[i] in known && ComesBefore(known, ordered[i], ordered[j])
              else ordered[i] in known || Alphabetical(ordered[i], ordered[j])
    {
      if j < |first| {
        assert first[i] == ordered[i] && first[j] == ordered[j];
      } else if i >= |first| {
        assert ordered[|first|..][i - |first|] == ordered[i] && ordered[|first|..][j - |first|] == ordered[j];
        NameOrderIsAlphabetical(ordered[i], ordered[j]);
      }
    }
  }

  method Sorted(keys: set<string>) returns (names: seq<string>)
    ensures Ordered(names) && Distinct(names) && forall k :: k in names <==> k in keys
  {
    names := [];
    var left := keys;
    while left != {}
      invariant left <= keys && Ordered(names) && Distinct(names)
      invariant forall k :: k in names <==> k in keys - left
      decreases |left|
    {
      var k :| k in left;
      InsertNameMembers(k, names);
      InsertNameOrders(k, names);
      names := InsertName(k, names);
      left := left - {k};
    }
  }

  /** Every key once: the known ones in their own order, then the rest alphabetically. */
  ghost predicate IsOrdering(ordered: seq<string>, keys: set<string>, known: seq<string>) {
    && Distinct(ordered) && (forall k :: k in ordered <==> k in keys)
    && var first := KnownFirst(known, keys);
       first <= ordered && Ordered(ordered[|first|..])
  }

  method OrderedKeys(keys: set<string>, known: seq<string>) returns (ordered: seq<string>)
    ensures IsOrdering(ordered, keys, known) && InKeyOrder(ordered, known)
  {
    ordered := [];
    for i := 0 to |known|
      invariant ordered == KnownFirst(known[..i], keys)
    {
      assert known[..i + 1][..i] == known[..i];
      if known[i] in keys && known[i] !in ordered {
        ordered := ordered + [known[i]];
      }
    }
    assert known[..|known|] == known;
    KnownFirstMembers(known, keys);
    ghost var first := ordered;
    var names := Sorted(keys);
    for i := 0 to |names|
      invariant first <= ordered && Distinct(ordered) && Ordered(ordered[|first|..])
      invariant forall k :: k in ordered <==> k in first || k in names[..i]
      invariant forall j :: |first| <= j < |ordered| ==> ordered[j] in names[..i]
    {
      assert names[..i + 1] == names[..i] + [names[i]];
      if names[i] !in ordered {
        forall j | |first| <= j < |ordered| ensures NameLeq(ordered[j], names[i]) {
          var m :| 0 <= m < i && names[m] == ordered[j];
        }
        ordered := ordered + [names[i]];
      }
    }
    assert names[..|names|] == names;
    OrderingIsInKeyOrder(ordered, keys, known);
  }

  // --------------------------------------------------------------------------------- grand totals

  function OfAccount(txns: seq<Txn>, account: string): seq<Txn> {
    if txns == [] then []
    else
      var before, last := OfAccount(txns[..|txns| - 1], account), txns[|txns| - 1];
      if AccountOf(last) == account then before + [last] else before
  }

  /** Each account's group is its rows, in order. */
  ghost predicate Grouped(groups: map<string, seq<Txn>>, txns: seq<Txn>) {
    && (forall a <- groups :: groups[a] == OfAccount(txns, a))
    && (forall t <- txns :: AccountOf(t) in groups)
  }

  lemma {:induction false} NoRowsOf(txns: seq<Txn>, account: string)
    requires forall t <- txns :: AccountOf(t) != account
    ensures OfAccount(txns, account) == []
  {
    if txns != [] {
      NoRowsOf(txns[..|txns| - 1], account);
      assert txns[|txns| - 1] in txns;
    }
  }

  lemma GroupedSnoc(groups: map<string, seq<Txn>>, txns: seq<Txn>, i: nat, group: seq<Txn>)
    requires i < |txns| && Grouped(groups, txns[..i]) && group == OfAccount(txns[..i], AccountOf(txns[i]))
    ensures Grouped(groups[AccountOf(txns[i]) := group + [txns[i]]], txns[..i + 1])
  {
    assert txns[..i + 1][..i] == txns[..i] && txns[..i + 1] == txns[..i] + [txns[i]];
  }

  /** The rows of an account; a row that names none is under "Unknown". */
  function RowsOfAccount(account: string): Txn -> bool {
    (t: Txn) => (if t.account == "" then "Unknown" else t.account) == account
  }

  lemma {:induction false} OfAccountSelects(txns: seq<Txn>, account: string)
    ensures OfAccount(txns, account) == Select(txns, RowsOfAccount(account))
  {
    if txns != [] {
      var n := |txns| - 1;
      OfAccountSelects(txns[..n], account);
      LastApart(txns);
      SelectSnoc(txns[..n], txns[n], RowsOfAccount(account));
    }
  }

  method GroupByAccount(txns: seq<Txn>) returns (groups: map<string, seq<Txn>>)
    ensures Grouped(groups, txns)
    ensures forall a <- groups :: groups[a] == Select(txns, RowsOfAccount(a))
  {
    groups := map[];
    for i := 0 to |txns|
      invariant Grouped(groups, txns[..i])
    {
      var a := AccountOf(txns[i]);
      var group: seq<Txn> := [];
      if a in groups {
        group := groups[a];
      } else {
        NoRowsOf(txns[..i], a);
      }
      GroupedSnoc(groups, txns, i, group);
      groups := groups[a := group + [txns[i]]];
    }
    assert txns[..|txns|] == txns;
    forall a <- groups ensures groups[a] == Select(txns, RowsOfAccount(a)) {
      OfAccountSelects(txns, a);
    }
  }

  /** A ledger bucket: every row is counted, but a transfer's money is not. */
  datatype Ledger = Ledger(income: real, expenses: real, count: nat)

  const NOTHING := Ledger(0.0, 0.0, 0)

  function LedgerAt(m: map<string, Ledger>, c: string): Ledger {
    if c in m then m[c] else NOTHING
  }

  function Plus(a: Ledger, b: Ledger): Ledger {
    Ledger(a.income + b.income, a.expenses + b.expenses, a.count + b.count)
  }

  /** What a currency's bucket holds: the money of its counted rows, the number of all its rows. */
  function LedgerOf(txns: seq<Txn>, c: string): Ledger {
    var money := Where(txns, CountedIn(c));
    Ledger(money.income, money.expenses, Where(txns, ListedIn(c)).count)
  }

  /** What one row adds to its currency's bucket. */
  function LedgerOfRow(t: Txn): Ledger {
    if Counts(t) then Ledger(Single(t).income, Single(t).expenses, 1) else Ledger(0.0, 0.0, 1)
  }

  lemma LedgerSnoc(txns: seq<Txn>, i: nat, c: string)
    requires i < |txns|
    ensures CurrencyOf(txns[i]) != c ==> LedgerOf(txns[..i + 1], c) == LedgerOf(txns[..i], c)
    ensures CurrencyOf(txns[i]) == c ==>
      LedgerOf(txns[..i + 1], c) == Plus(LedgerOf(txns[..i], c), LedgerOfRow(txns[i]))
  {
    WhereSnoc(txns, i, CountedIn(c));
    WhereSnoc(txns, i, ListedIn(c));
  }

  ghost predicate HoldLedgers(buckets: map<string, Ledger>, txns: seq<Txn>) {
    forall c :: LedgerAt(buckets, c) == LedgerOf(txns, c)
  }

  lemma HoldLedgersSnoc(buckets: map<string, Ledger>, txns: seq<Txn>, i: nat, bucket: Ledger)
    requires i < |txns| && HoldLedgers(buckets, txns[..i]) && bucket == LedgerOf(txns[..i + 1], CurrencyOf(txns[i]))
    ensures HoldLedgers(buckets[CurrencyOf(txns[i]) := bucket], txns[..i + 1])
  {
    var more := buckets[CurrencyOf(txns[i]) := bucket];
    forall c ensures LedgerAt(more, c) == LedgerOf(txns[..i + 1], c) {
      LedgerSnoc(txns, i, c);
      assert c != CurrencyOf(txns[i]) ==> LedgerAt(more, c) == LedgerAt(buckets, c);
    }
  }

  method Post(bucket: Ledger, t: Txn) returns (more: Ledger)
    ensures more == Plus(bucket, LedgerOfRow(t))
  {
    more := bucket.(count := bucket.count + 1);
    if !t.transfer {
      if t.credit {
        more := more.(income := more.income + Abs(t.amount));
      } else {
        more := more.(expenses := more.expenses + Abs(t.amount));
      }
    }
  }

  method AccountTotals(txns: seq<Txn>) returns (buckets: map<string, Ledger>)
    ensures HoldLedgers(buckets, txns)
  {
    buckets := map[];
    for i := 0 to |txns|
      invariant HoldLedgers(buckets, txns[..i])
    {
      var t := txns[i];
      var c := CurrencyOf(t);
      var bucket := Post(LedgerAt(buckets, c), t);
      LedgerSnoc(txns, i, c);
      HoldLedgersSnoc(buckets, txns, i, bucket);
      buckets := buckets[c := bucket];
    }
    assert txns[..|txns|] == txns;
  }

  /** The sum of the accounts' buckets for a currency. */
  function OverAccounts(txns: seq<Txn>, accounts: seq<string>, c: string): Ledger {
    if accounts == [] then NOTHING
    else Plus(OverAccounts(txns, accounts[..|accounts| - 1], c), LedgerOf(OfAccount(txns, accounts[|accounts| - 1]), c))
  }

  /** The grand totals with the buckets of some currencies added in. */
  ghost predicate Added(more: map<string, Ledger>, grand: map<string, Ledger>, buckets: map<string, Ledger>,
                        done: seq<string>)
  {
    forall c :: LedgerAt(more, c) == if c in done then Plus(LedgerAt(grand, c), LedgerAt(buckets, c))
        else LedgerAt(grand, c)
  }

  lemma AddedSnoc(more: map<string, Ledger>, grand: map<string, Ledger>, buckets: map<string, Ledger>,
                  done: seq<string>, c: string)
    requires Added(more, grand, buckets, done) && c !in done && c in buckets
    ensures Added(more[c := Plus(LedgerAt(more, c), buckets[c])], grand, buckets, done + [c])
  {
    var next := more[c := Plus(LedgerAt(more, c), buckets[c])];
    forall d ensures LedgerAt(next, d) ==
        if d in done + [c] then Plus(LedgerAt(grand, d), LedgerAt(buckets, d)) else LedgerAt(grand, d)
    {
      assert d != c ==> LedgerAt(next, d) == LedgerAt(more, d) && (d in done + [c] <==> d in done);
    }
  }

  lemma NextIsNew(names: seq<string>, j: nat)
    requires Distinct(names) && j < |names|
    ensures names[j] !in names[..j] && names[..j + 1] == names[..j] + [names[j]]
  {
  }

  /** Adds the buckets of these currencies to the grand totals, one by one. */
  method AddCurrencies(grand: map<string, Ledger>, buckets: map<string, Ledger>, currencies: seq<string>)
    returns (more: map<string, Ledger>)
    requires Distinct(currencies) && forall j :: 0 <= j < |currencies| ==> currencies[j] in buckets
    ensures Added(more, grand, buckets, currencies)
  {
    more := grand;
    for j := 0 to |currencies|
      invariant Added(more, grand, buckets, currencies[..j])
    {
      var c := currencies[j];
      NextIsNew(currencies, j);
      AddedSnoc(more, grand, buckets, currencies[..j], c);
      more := more[c := Plus(LedgerAt(more, c), buckets[c])];
    }
    assert currencies[..|currencies|] == currencies;
  }

  /** Adds one account's buckets to the grand totals. */
  method AddAccount(grand: map<string, Ledger>, buckets: map<string, Ledger>) returns (more: map<string, Ledger>)
    ensures forall c :: LedgerAt(more, c) == Plus(LedgerAt(grand, c), LedgerAt(buckets, c))
  {
    var currencies := OrderedKeys(buckets.Keys, ["CAD", "USD"]);
    more := AddCurrencies(grand, buckets, currencies);
    forall c ensures LedgerAt(more, c) == Plus(LedgerAt(grand, c), LedgerAt(buckets, c)) {
      assert c !in currencies ==> LedgerAt(buckets, c) == NOTHING;
    }
  }

  ghost predicate HoldAccounts(grand: map<string, Ledger>, txns: seq<Txn>, accounts: seq<string>) {
    forall c :: LedgerAt(grand, c) == OverAccounts(txns, accounts, c)
  }

  lemma HoldAccountsSnoc(grand: map<string, Ledger>, more: map<string, Ledger>, buckets: map<string, Ledger>,
                         txns: seq<Txn>,
                         accounts: seq<string>, i: nat)
    requires i < |accounts| && HoldAccounts(grand, txns, accounts[..i])
             && HoldLedgers(buckets, OfAccount(txns, accounts[i]))
    requires forall c :: LedgerAt(more, c) == Plus(LedgerAt(grand, c), LedgerAt(buckets, c))
    ensures HoldAccounts(more, txns, accounts[..i + 1])
  {
    assert accounts[..i + 1][..i] == accounts[..i];
  }

  method GrandTotals(txns: seq<Txn>, known: seq<string>) returns (accounts: seq<string>, grand: map<string, Ledger>)
    ensures Distinct(accounts) && forall t <- txns :: AccountOf(t) in accounts
    ensures HoldAccounts(grand, txns, accounts)
    // said in money, over all rows: credits are income, debits expenses, and every row is counted
    ensures forall c :: IsLedgerOf(LedgerAt(grand, c), txns, c)
  {
    var groups := GroupByAccount(txns);
    accounts := OrderedKeys(groups.Keys, known);
    grand := map[];
    for i := 0 to |accounts|
      invariant HoldAccounts(grand, txns, accounts[..i])
    {
      assert accounts[i] in accounts;
      var buckets := AccountTotals(groups[accounts[i]]);
      var more := AddAccount(grand, buckets);
      HoldAccountsSnoc(grand, more, buckets, txns, accounts, i);
      grand := more;
    }
    assert accounts[..|accounts|] == accounts;
    forall c ensures IsLedgerOf(LedgerAt(grand, c), txns, c) {
      GrandTotalsAreWhole(txns, accounts, c);
      LedgerIsMoney(txns, c);
    }
  }

  /** A ledger bucket by the rows' own fields. */
  ghost predicate IsLedgerOf(b: Ledger, txns: seq<Txn>, c: string) {
    && b.income == Sum(Select(txns, Credits(MoneyOfCurrency(c))), Size)
    && b.expenses == Sum(Select(txns, Debits(MoneyOfCurrency(c))), Size)
    && b.count == Count(txns, RowsOfCurrency(c))
  }

  lemma LedgerIsMoney(txns: seq<Txn>, c: string)
    ensures IsLedgerOf(LedgerOf(txns, c), txns, c)
  {
    WhereIsMoneyOf(txns, CountedIn(c), MoneyOfCurrency(c));
    WhereIsMoneyOf(txns, ListedIn(c), RowsOfCurrency(c));
  }

  // ------------------------------------------------------------------------------- they all agree

  /** Looking at one account's rows is looking at the rows with that account. */
  lemma {:induction false} WhereOfAccount(txns: seq<Txn>, account: string, keep: Txn -> bool)
    ensures Where(OfAccount(txns, account), keep) == Where(txns, Keyed(keep, AccountOf, account))
  {
    if txns != [] {
      var n := |txns| - 1;
      WhereOfAccount(txns[..n], account, keep);
      var before := OfAccount(txns[..n], account);
      assert (before + [txns[n]])[..|before|] == before;
    }
  }

  lemma {:induction false} OverAccountsAddsUp(txns: seq<Txn>, accounts: seq<string>, c: string,
                                              money: string -> Bucket, all: string -> Bucket)
    requires forall a <- accounts :: money(a) == Where(txns, Keyed(CountedIn(c), AccountOf, a))
    requires forall a <- accounts :: all(a) == Where(txns, Keyed(ListedIn(c), AccountOf, a))
    ensures var sum := OverAccounts(txns, accounts, c);
            sum.income == Total(accounts, money).income && sum.expenses == Total(accounts, money).expenses
            && sum.count == Total(accounts, all).count
  {
    if accounts != [] {
      var n := |accounts| - 1;
      OverAccountsAddsUp(txns, accounts[..n], c, money, all);
      WhereOfAccount(txns, accounts[n], CountedIn(c));
      WhereOfAccount(txns, accounts[n], ListedIn(c));
      assert accounts[n] in accounts;
    }
  }

  /** Grouped by account or not, a currency comes to the same: no row is lost and none is counted twice. */
  lemma GrandTotalsAreWhole(txns: seq<Txn>, accounts: seq<string>, c: string)
    requires Distinct(accounts) && forall t <- txns :: AccountOf(t) in accounts
    ensures OverAccounts(txns, accounts, c) == LedgerOf(txns, c)
  {
    var money := a => Where(txns, Keyed(CountedIn(c), AccountOf, a));
    var all := a => Where(txns, Keyed(ListedIn(c), AccountOf, a));
    OverAccountsAddsUp(txns, accounts, c, money, all);
    GroupsAddUp(txns, CountedIn(c), AccountOf, accounts, Itself, money);
    GroupsAddUp(txns, ListedIn(c), AccountOf, accounts, Itself, all);
    WhereCongruent(txns, Among(CountedIn(c), AccountOf, accounts, Itself), CountedIn(c));
    WhereCongruent(txns, Among(ListedIn(c), AccountOf, accounts, Itself), ListedIn(c));
  }

  /** The workbook's grand total for a currency is the report's executive summary for it. */
  lemma LedgerAgreesWithSummary(txns: seq<Txn>, accounts: seq<string>, grand: map<string, Ledger>,
                                totals: map<string, Bucket>, c: string)
    requires Distinct(accounts) && forall t <- txns :: AccountOf(t) in accounts
    requires HoldAccounts(grand, txns, accounts)
    requires At(totals, c) == Where(txns, CountedIn(c))
    ensures LedgerAt(grand, c).income == At(totals, c).income && LedgerAt(grand, c).expenses == At(totals, c).expenses
    ensures LedgerAt(grand, c).income - LedgerAt(grand, c).expenses == At(totals, c).net
  {
    GrandTotalsAreWhole(txns, accounts, c);
    NetIsIncomeLessExpenses(txns, CountedIn(c));
  }

  /** The row counts are different claims: they agree exactly when the currency has no transfer among its rows. */
  lemma CountsAgreeWithoutTransfers(txns: seq<Txn>, c: string)
    ensures LedgerOf(txns, c).count == Where(txns, CountedIn(c)).count
            <==> forall t <- txns :: CurrencyOf(t) == c ==> Counts(t)
  {
    CountOfTransfers(txns, c);
  }

  lemma {:induction false} CountOfTransfers(txns: seq<Txn>, c: string)
    ensures Where(txns, ListedIn(c)).count >= Where(txns, CountedIn(c)).count
    ensures Where(txns, ListedIn(c)).count == Where(txns, CountedIn(c)).count
            <==> forall t <- txns :: CurrencyOf(t) == c ==> Counts(t)
  {
    if txns != [] {
      var n := |txns| - 1;
      CountOfTransfers(txns[..n], c);
      assert txns == txns[..n] + [txns[n]];
    }
  }
}
