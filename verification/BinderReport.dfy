/**
 The money of the binder's report, computed twice: per currency, and by category inside section. Both must come
 to the same figures.
 */
module BinderReport {
  import opened Basics
  import opened Sorting
  import opened BinderFigures

  // -------------------------------------------------------------------------- the executive summary

  predicate HasMoneyIn(txns: seq<Txn>, c: string) {
    exists t <- txns :: Counts(t) && CurrencyOf(t) == c
  }

  method CurrencyTotals(txns: seq<Txn>) returns (totals: map<string, Bucket>)
    ensures forall c :: At(totals, c) == Where(txns, CountedIn(c))
    ensures forall c :: c in totals <==> HasMoneyIn(txns, c)
    // said in money: credits are income, debits are expenses, transfers are neither
    ensures forall c :: IsMoneyOf(At(totals, c), txns, MoneyOfCurrency(c))
  {
    totals := map[];
    for i := 0 to |txns|
      invariant forall c :: At(totals, c) == Where(txns[..i], CountedIn(c))
      invariant forall c :: c in totals <==> HasMoneyIn(txns[..i], c)
    {
      var t := txns[i];
      assert txns[..i + 1][..i] == txns[..i] && txns[..i + 1] == txns[..i] + [t];
      if t.transfer {
        continue;
      }
      var c := CurrencyOf(t);
      var agg := Accumulate(if c in totals then totals[c] else EMPTY, t);
      totals := totals[c := agg];
    }
    assert txns[..|txns|] == txns;
    forall c ensures IsMoneyOf(At(totals, c), txns, MoneyOfCurrency(c)) {
      WhereIsMoneyOf(txns, CountedIn(c), MoneyOfCurrency(c));
    }
  }

  // -------------------------------------------------------------------------- the category breakdown

  const UNCATEGORIZED := "Uncategorized"
  const NO_SECTION := "uncategorized"

  /** Category names and the sections they belong to; the label for no category is not one of them. */
  type Taxonomy = m: map<string, string> | UNCATEGORIZED !in m

  function SectionOf(taxonomy: Taxonomy, name: string): string {
    if name in taxonomy then taxonomy[name] else NO_SECTION
  }

  /** The name a row is shown under: its own category, known or not, or the label for none. */
  function NameOf(t: Txn): string {
    if t.category.None? || t.category.value == "" then UNCATEGORIZED else t.category.value
  }

  function KeyOf(t: Txn): (string, string) {
    (CurrencyOf(t), NameOf(t))
  }

  datatype CategoryRow = CategoryRow(currency: string, category: string, section: string, figures: Bucket)

  function RowKey(r: CategoryRow): (string, string) {
    (r.currency, r.category)
  }

  predicate HasTxn(txns: seq<Txn>, k: (string, string)) {
    exists t <- txns :: Counts(t) && KeyOf(t) == k
  }

  predicate HasRowFor(rows: seq<CategoryRow>, k: (string, string)) {
    exists r <- rows :: RowKey(r) == k
  }

  /** One row for each currency and category with money in it, holding exactly that money. */
  ghost predicate IsCategoryRows(txns: seq<Txn>, taxonomy: Taxonomy, rows: seq<CategoryRow>) {
    && UniqueBy(rows, RowKey)
    && (forall t <- txns :: Counts(t) ==> HasRowFor(rows, KeyOf(t)))
    && (forall r <- rows :: r.section == SectionOf(taxonomy, r.category)
                         && r.figures == Where(txns, Keyed(Counts, KeyOf, RowKey(r)))
                         && HasTxn(txns, RowKey(r)))
  }

  /** The rows and where each key's row stands. */
  predicate Placed(rows: seq<CategoryRow>, place: map<(string, string), nat>) {
    && (forall j :: 0 <= j < |rows| ==> RowKey(rows[j]) in place && place[RowKey(rows[j])] == j)
    && (forall k <- place :: place[k] < |rows| && RowKey(rows[place[k]]) == k)
  }

  ghost predicate Filled(txns: seq<Txn>, taxonomy: Taxonomy, rows: seq<CategoryRow>) {
    forall j :: 0 <= j < |rows| ==>
      && rows[j].section == SectionOf(taxonomy, rows[j].category)
      && rows[j].figures == Where(txns, Keyed(Counts, KeyOf, RowKey(rows[j])))
  }

  ghost predicate Covered(txns: seq<Txn>, place: map<(string, string), nat>) {
    forall k :: k in place <==> HasTxn(txns, k)
  }

  lemma CoveredSnoc(txns: seq<Txn>, i: nat, place: map<(string, string), nat>, more: map<(string, string), nat>)
    requires i < |txns| && Covered(txns[..i], place)
    requires more.Keys == place.Keys + if Counts(txns[i]) then {KeyOf(txns[i])} else {}
    ensures Covered(txns[..i + 1], more)
  {
    assert txns[..i + 1] == txns[..i] + [txns[i]];
  }

  lemma UnplacedIsEmpty(txns: seq<Txn>, place: map<(string, string), nat>, k: (string, string))
    requires Covered(txns, place) && k !in place
    ensures Where(txns, Keyed(Counts, KeyOf, k)) == EMPTY
  {
    NothingWhere(txns, Keyed(Counts, KeyOf, k));
  }

  lemma FilledSnoc(txns: seq<Txn>, i: nat, taxonomy: Taxonomy, rows: seq<CategoryRow>, more: seq<CategoryRow>, j: nat)
    requires i < |txns| && j < |rows| == |more| && Filled(txns[..i], taxonomy, rows) && UniqueBy(rows, RowKey)
    requires Counts(txns[i]) && RowKey(rows[j]) == KeyOf(txns[i])
    requires more == rows[j := rows[j].(figures := Add(rows[j].figures, Single(txns[i])))]
    ensures Filled(txns[..i + 1], taxonomy, more)
  {
    forall m | 0 <= m < |more|
      ensures more[m].section == SectionOf(taxonomy, more[m].category)
      ensures more[m].figures == Where(txns[..i + 1], Keyed(Counts, KeyOf, RowKey(more[m])))
    {
      WhereSnoc(txns, i, Keyed(Counts, KeyOf, RowKey(rows[m])));
    }
  }

  lemma FilledSkip(txns: seq<Txn>, i: nat, taxonomy: Taxonomy, rows: seq<CategoryRow>)
    requires i < |txns| && Filled(txns[..i], taxonomy, rows) && !Counts(txns[i])
    ensures Filled(txns[..i + 1], taxonomy, rows)
  {
    forall m | 0 <= m < |rows| ensures rows[m].figures == Where(txns[..i + 1], Keyed(Counts, KeyOf, RowKey(rows[m]))) {
      WhereSnoc(txns, i, Keyed(Counts, KeyOf, RowKey(rows[m])));
    }
  }

  /** A row for a key not seen before starts out empty. */
  lemma OneMoreRow(txns: seq<Txn>, taxonomy: Taxonomy, rows: seq<CategoryRow>, place: map<(string, string), nat>,
                   r: CategoryRow)
    requires Placed(rows, place) && Covered(txns, place) && Filled(txns, taxonomy, rows)
    requires RowKey(r) !in place && r.section == SectionOf(taxonomy, r.category) && r.figures == EMPTY
    ensures Placed(rows + [r], place[RowKey(r) := |rows|]) && Filled(txns, taxonomy, rows + [r])
  {
    UnplacedIsEmpty(txns, place, RowKey(r));
  }

  lemma PlacedIsUnique(rows: seq<CategoryRow>, place: map<(string, string), nat>)
    requires Placed(rows, place)
    ensures UniqueBy(rows, RowKey)
  {
  }

  lemma NewFiguresKeepPlaces(rows: seq<CategoryRow>, place: map<(string, string), nat>, j: nat, figures: Bucket)
    requires Placed(rows, place) && j < |rows|
    ensures Placed(rows[j := rows[j].(figures := figures)], place)
  {
  }

  lemma PlacedRowsAreRows(txns: seq<Txn>, taxonomy: Taxonomy, rows: seq<CategoryRow>, place: map<(string, string), nat>)
    requires Placed(rows, place) && Covered(txns, place) && Filled(txns, taxonomy, rows)
    ensures IsCategoryRows(txns, taxonomy, rows)
  {
    forall t <- txns | Counts(t) ensures HasRowFor(rows, KeyOf(t)) {
      assert rows[place[KeyOf(t)]] in rows;
    }
    forall r <- rows
      ensures r.section == SectionOf(taxonomy, r.category) && r.figures == Where(txns, Keyed(Counts, KeyOf, RowKey(r)))
      ensures HasTxn(txns, RowKey(r))
    {
      var j :| 0 <= j < |rows| && rows[j] == r;
      assert RowKey(rows[j]) in place;
    }
  }

  /** Finds the row of a key, opening an empty one the first time the key is seen. */
  method FindRow(ghost txns: seq<Txn>, taxonomy: Taxonomy, rows: seq<CategoryRow>, place: map<(string, string), nat>,
                 t: Txn)
    returns (more: seq<CategoryRow>, places: map<(string, string), nat>, j: nat)
    requires Placed(rows, place) && Covered(txns, place) && Filled(txns, taxonomy, rows)
    ensures Placed(more, places) && Filled(txns, taxonomy, more)
    ensures places.Keys == place.Keys + {KeyOf(t)} && j < |more| && RowKey(more[j]) == KeyOf(t)
  {
    var key := KeyOf(t);
    more, places := rows, place;
    if key !in place {
      var section := NO_SECTION;
      if t.category.Some? && t.category.value != "" && t.category.value in taxonomy {
        section := taxonomy[t.category.value];
      }
      var row := CategoryRow(key.0, key.1, section, EMPTY);
      OneMoreRow(txns, taxonomy, rows, place, row);
      more, places := rows + [row], place[key := |rows|];
    }
    j := places[key];
  }

  /** The counted rows of a currency and category, by their own fields. */
  function MoneyOfCategory(c: string, name: string): Txn -> bool {
    (t: Txn) =>
      && IsIn(t, c) && !t.transfer
      && (match t.category
          case None => "Uncategorized"
          case Some(own) => if own == "" then "Uncategorized" else own) == name
  }

  lemma CategoryRowIsMoney(txns: seq<Txn>, taxonomy: Taxonomy, rows: seq<CategoryRow>, r: CategoryRow)
    requires IsCategoryRows(txns, taxonomy, rows) && r in rows
    ensures IsMoneyOf(r.figures, txns, MoneyOfCategory(r.currency, r.category))
    ensures r.section == if r.category in taxonomy then taxonomy[r.category] else "uncategorized"
  {
    WhereIsMoneyOf(txns, Keyed(Counts, KeyOf, RowKey(r)), MoneyOfCategory(r.currency, r.category));
  }

  method CategoryRows(txns: seq<Txn>, taxonomy: Taxonomy) returns (rows: seq<CategoryRow>)
    ensures IsCategoryRows(txns, taxonomy, rows)
    // said in money, from the rows' own fields
    ensures forall r <- rows ::
              && IsMoneyOf(r.figures, txns, MoneyOfCategory(r.currency, r.category))
              && r.section == if r.category in taxonomy then taxonomy[r.category] else "uncategorized"
  {
    rows := [];
    var place: map<(string, string), nat> := map[];
    for i := 0 to |txns|
      invariant Placed(rows, place) && Covered(txns[..i], place) && Filled(txns[..i], taxonomy, rows)
    {
      var t := txns[i];
      if t.transfer {
        CoveredSnoc(txns, i, place, place);
        FilledSkip(txns, i, taxonomy, rows);
        continue;
      }
      var more, places, j := FindRow(txns[..i], taxonomy, rows, place, t);
      CoveredSnoc(txns, i, place, places);
      var figures := Accumulate(more[j].figures, t);
      PlacedIsUnique(more, places);
      NewFiguresKeepPlaces(more, places, j, figures);
      rows, place := more[j := more[j].(figures := figures)], places;
      FilledSnoc(txns, i, taxonomy, more, rows, j);
    }
    assert txns[..|txns|] == txns;
    PlacedRowsAreRows(txns, taxonomy, rows, place);
    forall r <- rows
      ensures IsMoneyOf(r.figures, txns, MoneyOfCategory(r.currency, r.category))
      ensures r.section == if r.category in taxonomy then taxonomy[r.category] else "uncategorized"
    {
      CategoryRowIsMoney(txns, taxonomy, rows, r);
    }
  }

  // ---------------------------------------------------------------------- sections of the breakdown

  datatype Section = Section(key: string, rows: seq<CategoryRow>, income: real, expenses: real, net: real)

  datatype Breakdown = Breakdown(currency: string, sections: seq<Section>, income: real, expenses: real, net: real)

  function Figures(r: CategoryRow): Bucket {
    r.figures
  }

  function NetSize(r: CategoryRow): real {
    Abs(r.figures.net)
  }

  /** The rows of a currency that belong to a section. */
  function RowsIn(rows: seq<CategoryRow>, c: string, section: string): seq<CategoryRow> {
    if rows == [] then []
    else
      var before, last := RowsIn(rows[..|rows| - 1], c, section), rows[|rows| - 1];
      if last.currency == c && last.section == section then before + [last] else before
  }

  function SumUp(rows: seq<CategoryRow>, section: string): Section {
    var sum := Total(rows, Figures);
    Section(section, rows, sum.income, sum.expenses, sum.income - sum.expenses)
  }

  /** The sections that have rows, in the fixed order, each with its rows by size of net. */
  function SectionsFor(rows: seq<CategoryRow>, c: string, order: seq<string>): seq<Section> {
    if order == [] then []
    else
      var before, last := SectionsFor(rows, c, order[..|order| - 1]), order[|order| - 1];
      if RowsIn(rows, c, last) == [] then before else before + [SumUp(SortDesc(RowsIn(rows, c, last), NetSize), last)]
  }

  function SectionFigures(s: Section): Bucket {
    Bucket(s.income, s.expenses, s.net, 0)
  }

  function BreakdownOf(rows: seq<CategoryRow>, c: string, order: seq<string>): Breakdown {
    var sections := SectionsFor(rows, c, order);
    var sum := Total(sections, SectionFigures);
    Breakdown(c, sections, sum.income, sum.expenses, sum.income - sum.expenses)
  }

  method RowsOfSection(rows: seq<CategoryRow>, c: string, section: string) returns (found: seq<CategoryRow>)
    ensures found == RowsIn(rows, c, section)
  {
    found := [];
    for i := 0 to |rows|
      invariant found == RowsIn(rows[..i], c, section)
    {
      assert rows[..i + 1][..i] == rows[..i];
      if rows[i].currency == c && rows[i].section == section {
        found := found + [rows[i]];
      }
    }
    assert rows[..|rows|] == rows;
  }

  lemma OneMoreSection(rows: seq<CategoryRow>, c: string, order: seq<string>, k: nat)
    requires k < |order|
    ensures SectionsFor(rows, c, order[..k + 1]) ==
            if RowsIn(rows, c, order[k]) == [] then SectionsFor(rows, c, order[..k])
            else SectionsFor(rows, c, order[..k]) + [SumUp(SortDesc(RowsIn(rows, c, order[k]), NetSize), order[k])]
  {
    assert order[..k + 1][..k] == order[..k];
  }

  // ---------------------------------------------------------------- what a breakdown says, field by field

  function RowIncome(r: CategoryRow): real {
    r.figures.income
  }

  function RowExpenses(r: CategoryRow): real {
    r.figures.expenses
  }

  function SectionIncome(s: Section): real {
    s.income
  }

  function SectionExpenses(s: Section): real {
    s.expenses
  }

  function InSection(c: string, section: string): CategoryRow -> bool {
    (r: CategoryRow) => r.currency == c && r.section == section
  }

  function KeysOf(sections: seq<Section>): seq<string> {
    seq(|sections|, i requires 0 <= i < |sections| => sections[i].key)
  }

  ghost predicate LargestFirst(rows: seq<CategoryRow>) {
    forall i, j :: 0 <= i < j < |rows| ==> Abs(rows[i].figures.net) >= Abs(rows[j].figures.net)
  }

  /** A section lists its category rows by size of net and carries their sums. */
  ghost predicate IsSection(s: Section, rows: seq<CategoryRow>, c: string) {
    && s.rows != [] && multiset(s.rows) == multiset(Select(rows, InSection(c, s.key))) && LargestFirst(s.rows)
    && s.income == Sum(s.rows, RowIncome) && s.expenses == Sum(s.rows, RowExpenses) && s.net == s.income - s.expenses
  }

  ghost function HasRowsIn(rows: seq<CategoryRow>, c: string): string -> bool {
    section => exists r <- rows :: InSection(c, section)(r)
  }

  /** The sections that have rows, in display order, and their sums. */
  ghost predicate IsBreakdown(b: Breakdown, rows: seq<CategoryRow>, c: string, order: seq<string>) {
    && b.currency == c
    && KeysOf(b.sections) == Select(order, HasRowsIn(rows, c))
    && (forall s <- b.sections :: IsSection(s, rows, c))
    && b.income == Sum(b.sections, SectionIncome) && b.expenses == Sum(b.sections, SectionExpenses)
    && b.net == b.income - b.expenses
  }

  lemma {:induction false} RowsInSelects(rows: seq<CategoryRow>, c: string, section: string)
    ensures RowsIn(rows, c, section) == Select(rows, InSection(c, section))
  {
    if rows != [] {
      var n := |rows| - 1;
      RowsInSelects(rows[..n], c, section);
      LastApart(rows);
      SelectSnoc(rows[..n], rows[n], InSection(c, section));
    }
  }

  lemma {:induction false} TotalIsSums(rows: seq<CategoryRow>)
    ensures Total(rows, Figures).income == Sum(rows, RowIncome)
    ensures Total(rows, Figures).expenses == Sum(rows, RowExpenses)
  {
    if rows != [] {
      var n := |rows| - 1;
      TotalIsSums(rows[..n]);
      LastApart(rows);
      SumSnoc(rows[..n], rows[n], RowIncome);
      SumSnoc(rows[..n], rows[n], RowExpenses);
    }
  }

  lemma SectionMeans(rows: seq<CategoryRow>, c: string, section: string)
    requires RowsIn(rows, c, section) != []
    ensures IsSection(SumUp(SortDesc(RowsIn(rows, c, section), NetSize), section), rows, c)
  {
    var found := RowsIn(rows, c, section);
    RowsInSelects(rows, c, section);
    SortDescIsStable(found, NetSize);
    assert |SortDesc(found, NetSize)| == |multiset(SortDesc(found, NetSize))| == |multiset(found)| == |found|;
    var sorted := SortDesc(found, NetSize);
    TotalIsSums(sorted);
    forall i, j | 0 <= i < j < |sorted| ensures Abs(sorted[i].figures.net) >= Abs(sorted[j].figures.net) {
      assert NetSize(sorted[i]) >= NetSize(sorted[j]);
    }
  }

  lemma SectionsSnoc(sections: seq<Section>, s: Section)
    ensures KeysOf(sections + [s]) == KeysOf(sections) + [s.key]
    ensures Total(sections + [s], SectionFigures).income == Total(sections, SectionFigures).income + s.income
    ensures Total(sections + [s], SectionFigures).expenses == Total(sections, SectionFigures).expenses + s.expenses
  {
    TotalSnoc(sections, s, SectionFigures);
  }

  lemma EmptySectionHasNoRows(rows: seq<CategoryRow>, c: string, section: string)
    ensures RowsIn(rows, c, section) != [] <==> HasRowsIn(rows, c)(section)
  {
    RowsInSelects(rows, c, section);
    SelectMembers(rows, InSection(c, section));
    if HasRowsIn(rows, c)(section) {
      var r :| r in rows && InSection(c, section)(r);
      assert r in Select(rows, InSection(c, section));
    }
    if RowsIn(rows, c, section) != [] {
      var r := RowsIn(rows, c, section)[0];
      assert r in rows && InSection(c, section)(r);
    }
  }

  lemma {:induction false} SectionsMean(rows: seq<CategoryRow>, c: string, order: seq<string>)
    ensures var sections := SectionsFor(rows, c, order);
            && KeysOf(sections) == Select(order, HasRowsIn(rows, c))
            && (forall s <- sections :: IsSection(s, rows, c))
            && Total(sections, SectionFigures).income == Sum(sections, SectionIncome)
            && Total(sections, SectionFigures).expenses == Sum(sections, SectionExpenses)
  {
    if order != [] {
      var n := |order| - 1;
      var before := SectionsFor(rows, c, order[..n]);
      SectionsMean(rows, c, order[..n]);
      LastApart(order);
      SelectSnoc(order[..n], order[n], HasRowsIn(rows, c));
      EmptySectionHasNoRows(rows, c, order[n]);
      if RowsIn(rows, c, order[n]) != [] {
        var s := SumUp(SortDesc(RowsIn(rows, c, order[n]), NetSize), order[n]);
        SectionMeans(rows, c, order[n]);
        SectionsSnoc(before, s);
        SumSnoc(before, s, SectionIncome);
        SumSnoc(before, s, SectionExpenses);
      }
    }
  }

  lemma BreakdownMeans(rows: seq<CategoryRow>, c: string, order: seq<string>)
    ensures IsBreakdown(BreakdownOf(rows, c, order), rows, c, order)
  {
    SectionsMean(rows, c, order);
  }

  method BreakDown(rows: seq<CategoryRow>, c: string, order: seq<string>) returns (b: Breakdown)
    ensures b == BreakdownOf(rows, c, order)
    ensures IsBreakdown(b, rows, c, order)
  {
    var sections: seq<Section> := [];
    var income, expenses := 0.0, 0.0;
    for k := 0 to |order|
      invariant sections == SectionsFor(rows, c, order[..k])
      invariant income == Total(sections, SectionFigures).income && expenses == Total(sections, SectionFigures).expenses
    {
      OneMoreSection(rows, c, order, k);
      var found := RowsOfSection(rows, c, order[k]);
      if found == [] {
        continue;
      }
      var sorted := SortDesc(found, NetSize);
      var s := SumRows(sorted, order[k]);
      TotalSnoc(sections, s, SectionFigures);
      sections := sections + [s];
      income, expenses := income + s.income, expenses + s.expenses;
    }
    assert order[..|order|] == order;
    b := Breakdown(c, sections, income, expenses, income - expenses);
    BreakdownMeans(rows, c, order);
  }

  method SumRows(rows: seq<CategoryRow>, section: string) returns (s: Section)
    ensures s == SumUp(rows, section)
  {
    var income, expenses := 0.0, 0.0;
    for i := 0 to |rows|
      invariant income == Total(rows[..i], Figures).income && expenses == Total(rows[..i], Figures).expenses
    {
      assert rows[..i + 1][..i] == rows[..i];
      income, expenses := income + rows[i].figures.income, expenses + rows[i].figures.expenses;
    }
    assert rows[..|rows|] == rows;
    s := Section(section, rows, income, expenses, income - expenses);
  }

  /** One breakdown for each currency that has a category row. */
  method CategoryBreakdowns(txns: seq<Txn>, taxonomy: Taxonomy, order: seq<string>)
    returns (rows: seq<CategoryRow>, all: map<string, Breakdown>)
    ensures IsCategoryRows(txns, taxonomy, rows)
    ensures forall c :: c in all <==> HasMoneyIn(txns, c)
    ensures forall c <- all :: all[c] == BreakdownOf(rows, c, order) && IsBreakdown(all[c], rows, c, order)
  {
    rows := CategoryRows(txns, taxonomy);
    all := map[];
    for i := 0 to |rows|
      invariant forall c :: c in all <==> HasRow(rows[..i], c)
      invariant forall c <- all :: all[c] == BreakdownOf(rows, c, order) && IsBreakdown(all[c], rows, c, order)
    {
      assert rows[..i + 1] == rows[..i] + [rows[i]];
      var b := BreakDown(rows, rows[i].currency, order);
      all := all[rows[i].currency := b];
    }
    assert rows[..|rows|] == rows;
    forall c ensures c in all <==> HasMoneyIn(txns, c) {
      RowCurrencies(txns, taxonomy, rows, c);
    }
  }

  predicate HasRow(rows: seq<CategoryRow>, c: string) {
    exists r <- rows :: r.currency == c
  }

  lemma RowCurrencies(txns: seq<Txn>, taxonomy: Taxonomy, rows: seq<CategoryRow>, c: string)
    requires IsCategoryRows(txns, taxonomy, rows)
    ensures HasRow(rows, c) <==> HasMoneyIn(txns, c)
  {
    if HasRow(rows, c) {
      var r :| r in rows && r.currency == c;
      assert HasTxn(txns, RowKey(r));
      var t :| t in txns && Counts(t) && KeyOf(t) == RowKey(r);
      assert CurrencyOf(t) == c;
    }
    if HasMoneyIn(txns, c) {
      var t :| t in txns && Counts(t) && CurrencyOf(t) == c;
      assert HasRowFor(rows, KeyOf(t));
      var r :| r in rows && RowKey(r) == KeyOf(t);
      assert r.currency == c;
    }
  }

  // ------------------------------------------------------------------------------- the two agree

  lemma {:induction false} RowsInMembers(rows: seq<CategoryRow>, c: string, section: string)
    ensures forall r :: r in RowsIn(rows, c, section) <==> r in rows && r.currency == c && r.section == section
    ensures UniqueBy(rows, RowKey) ==> UniqueBy(RowsIn(rows, c, section), RowKey)
  {
    if rows != [] {
      var n := |rows| - 1;
      assert rows == rows[..n] + [rows[n]];
      RowsInMembers(rows[..n], c, section);
      if UniqueBy(rows, RowKey) {
        assert forall r <- RowsIn(rows[..n], c, section) :: RowKey(r) != RowKey(rows[n]);
      }
    }
  }

  ghost function SectionKey(taxonomy: Taxonomy): Txn -> string {
    t => SectionOf(taxonomy, NameOf(t))
  }

  /** The rows of a section hold the money of the section's transactions, all of it and nothing else. */
  lemma SectionHoldsItsMoney(txns: seq<Txn>, taxonomy: Taxonomy, rows: seq<CategoryRow>, c: string, section: string)
    requires IsCategoryRows(txns, taxonomy, rows)
    ensures Total(RowsIn(rows, c, section), Figures) == Where(txns, Keyed(CountedIn(c), SectionKey(taxonomy), section))
  {
    var found := RowsIn(rows, c, section);
    RowsInMembers(rows, c, section);
    GroupsAddUp(txns, Counts, KeyOf, found, RowKey, Figures);
    WhereCongruent(txns, Among(Counts, KeyOf, found, RowKey), Keyed(CountedIn(c), SectionKey(taxonomy), section));
  }

  /** Income and expenses alike; sections carry no row count. */
  predicate SameMoney(a: Bucket, b: Bucket) {
    a.income == b.income && a.expenses == b.expenses
  }

  lemma SectionFiguresAre(txns: seq<Txn>, taxonomy: Taxonomy, rows: seq<CategoryRow>, c: string, section: string)
    requires IsCategoryRows(txns, taxonomy, rows)
    ensures SameMoney(SectionFigures(SumUp(SortDesc(RowsIn(rows, c, section), NetSize), section)),
                      Where(txns, Keyed(CountedIn(c), SectionKey(taxonomy), section)))
  {
    var found := RowsIn(rows, c, section);
    SortDescIsStable(found, NetSize);
    TotalPermuted(SortDesc(found, NetSize), found, Figures);
    SectionHoldsItsMoney(txns, taxonomy, rows, c, section);
  }

  lemma {:induction false} SectionsHoldTheirMoney(txns: seq<Txn>, taxonomy: Taxonomy, rows: seq<CategoryRow>,
                                                  c: string, order: seq<string>, part: string -> Bucket)
    requires IsCategoryRows(txns, taxonomy, rows)
    requires forall s <- order :: part(s) == Where(txns, Keyed(CountedIn(c), SectionKey(taxonomy), s))
    ensures SameMoney(Total(SectionsFor(rows, c, order), SectionFigures), Total(order, part))
  {
    if order != [] {
      var n := |order| - 1;
      SectionsHoldTheirMoney(txns, taxonomy, rows, c, order[..n], part);
      assert order[..n + 1] == order;
      OneMoreSection(rows, c, order, n);
      if RowsIn(rows, c, order[n]) == [] {
        SectionHoldsItsMoney(txns, taxonomy, rows, c, order[n]);
      } else {
        var s := SumUp(SortDesc(RowsIn(rows, c, order[n]), NetSize), order[n]);
        SectionFiguresAre(txns, taxonomy, rows, c, order[n]);
        TotalSnoc(SectionsFor(rows, c, order[..n]), s, SectionFigures);
      }
    }
  }

  /** The counted rows of a currency whose section is one of those listed. */
  ghost function Shown(taxonomy: Taxonomy, c: string, order: seq<string>): Txn -> bool {
    t => CountedIn(c)(t) && SectionOf(taxonomy, NameOf(t)) in order
  }

  ghost function Hidden(taxonomy: Taxonomy, c: string, order: seq<string>): Txn -> bool {
    t => CountedIn(c)(t) && SectionOf(taxonomy, NameOf(t)) !in order
  }

  /** What a breakdown comes to: the money of the rows whose section is in the display order. */
  lemma BreakdownShows(txns: seq<Txn>, taxonomy: Taxonomy, rows: seq<CategoryRow>, c: string, order: seq<string>)
    requires IsCategoryRows(txns, taxonomy, rows) && UniqueBy(order, Itself)
    ensures var b, sum := BreakdownOf(rows, c, order), Where(txns, Shown(taxonomy, c, order));
            b.income == sum.income && b.expenses == sum.expenses && b.net == sum.net
  {
    var key, keep := SectionKey(taxonomy), CountedIn(c);
    var part := s => Where(txns, Keyed(keep, key, s));
    SectionsHoldTheirMoney(txns, taxonomy, rows, c, order, part);
    GroupsAddUp(txns, keep, key, order, Itself, part);
    WhereCongruent(txns, Among(keep, key, order, Itself), Shown(taxonomy, c, order));
    NetIsIncomeLessExpenses(txns, Shown(taxonomy, c, order));
  }

  /** The display order has a place for every section a category can be in. */
  ghost predicate CoversAll(taxonomy: Taxonomy, order: seq<string>) {
    NO_SECTION in order && forall name <- taxonomy :: taxonomy[name] in order
  }

  /** Category by section or currency as a whole: the same income, the same expenses, the same net. */
  lemma BreakdownAgreesWithSummary(txns: seq<Txn>, taxonomy: Taxonomy, rows: seq<CategoryRow>,
                                   totals: map<string, Bucket>,
                                   c: string, order: seq<string>)
    requires IsCategoryRows(txns, taxonomy, rows) && UniqueBy(order, Itself) && CoversAll(taxonomy, order)
    requires At(totals, c) == Where(txns, CountedIn(c))
    ensures var b := BreakdownOf(rows, c, order);
            b.income == At(totals, c).income && b.expenses == At(totals, c).expenses && b.net == At(totals, c).net
  {
    BreakdownShows(txns, taxonomy, rows, c, order);
    WhereCongruent(txns, Shown(taxonomy, c, order), CountedIn(c));
  }

  /** A section missing from the display order takes its money out of the breakdown, and only that money. */
  lemma UnlistedSectionsAreMissing(txns: seq<Txn>, taxonomy: Taxonomy, rows: seq<CategoryRow>,
                                   totals: map<string, Bucket>,
                                   c: string, order: seq<string>)
    requires IsCategoryRows(txns, taxonomy, rows) && UniqueBy(order, Itself)
    requires At(totals, c) == Where(txns, CountedIn(c))
    ensures var b, lost := BreakdownOf(rows, c, order), Where(txns, Hidden(taxonomy, c, order));
            b.income == At(totals, c).income - lost.income && b.expenses == At(totals, c).expenses - lost.expenses
  {
    BreakdownShows(txns, taxonomy, rows, c, order);
    WhereSplits(txns, Shown(taxonomy, c, order), Hidden(taxonomy, c, order), CountedIn(c));
  }
}
