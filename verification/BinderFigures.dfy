/** Rows, buckets, and why grouping rows by a key never changes what they come to. */
module BinderFigures {
  import opened Basics

  /** `transfer` says that the row is one leg of a linked pair or carries a transfer category. */
  datatype Txn = Txn(account: string, currency: string, amount: real, credit: bool, category: Option<string>,
                     transfer: bool)

  /** What a bucket accumulates. */
  datatype Bucket = Bucket(income: real, expenses: real, net: real, count: nat)

  const EMPTY := Bucket(0.0, 0.0, 0.0, 0)

  function Add(a: Bucket, b: Bucket): Bucket {
    Bucket(a.income + b.income, a.expenses + b.expenses, a.net + b.net, a.count + b.count)
  }

  /** One row on its own: its size goes to income or to expenses by its type, whatever the sign of its amount. */
  function Single(t: Txn): Bucket {
    var size := Abs(t.amount);
    if t.credit then Bucket(size, 0.0, size, 1) else Bucket(0.0, size, -size, 1)
  }

  /** The bucket of the rows that satisfy `p`. */
  function Where(txns: seq<Txn>, p: Txn -> bool): Bucket {
    if txns == [] then EMPTY
    else
      var before, last := Where(txns[..|txns| - 1], p), txns[|txns| - 1];
      if p(last) then Add(before, Single(last)) else before
  }

  /** The bucket several parts make up together. */
  function Total<K>(items: seq<K>, part: K -> Bucket): Bucket {
    if items == [] then EMPTY else Add(Total(items[..|items| - 1], part), part(items[|items| - 1]))
  }

  /** The figures for a currency, zeros when it is missing. */
  function At(m: map<string, Bucket>, c: string): Bucket {
    if c in m then m[c] else EMPTY
  }

  // ------------------------------------------------------------------------------------ which rows

  function CurrencyOf(t: Txn): string {
    if t.currency == "" then "CAD" else t.currency
  }

  function AccountOf(t: Txn): string {
    if t.account == "" then "Unknown" else t.account
  }

  /** Transfers between own accounts are listed, but their money is not counted. */
  predicate Counts(t: Txn) {
    !t.transfer
  }

  function CountedIn(c: string): Txn -> bool {
    t => Counts(t) && CurrencyOf(t) == c
  }

  function ListedIn(c: string): Txn -> bool {
    t => CurrencyOf(t) == c
  }

  /** The rows kept whose key is the key of some item. */
  ghost function Among<I, K(!new)>(keep: Txn -> bool, key: Txn -> K, items: seq<I>, id: I -> K): Txn -> bool {
    t => keep(t) && exists i <- items :: id(i) == key(t)
  }

  ghost function Keyed<K(!new)>(keep: Txn -> bool, key: Txn -> K, k: K): Txn -> bool {
    t => keep(t) && key(t) == k
  }

  /** One more row lands in every bucket whose predicate it satisfies. */
  lemma WhereSnoc(txns: seq<Txn>, i: nat, p: Txn -> bool)
    requires i < |txns|
    ensures Where(txns[..i + 1], p) == if p(txns[i]) then Add(Where(txns[..i], p), Single(txns[i]))
            else Where(txns[..i], p)
  {
    assert txns[..i + 1][..i] == txns[..i];
  }

  method Accumulate(bucket: Bucket, t: Txn) returns (more: Bucket)
    ensures more == Add(bucket, Single(t))
  {
    var size := Abs(t.amount);
    if t.credit {
      more := bucket.(income := bucket.income + size, net := bucket.net + size);
    } else {
      more := bucket.(expenses := bucket.expenses + size, net := bucket.net - size);
    }
    more := more.(count := more.count + 1);
  }

  function Itself(s: string): string {
    s
  }

  // ------------------------------------------------------------------------- what a bucket says in money

  function Size(t: Txn): real {
    Abs(t.amount)
  }

  /** A row that names no currency is in Canadian dollars. */
  predicate IsIn(t: Txn, c: string) {
    (if t.currency == "" then "CAD" else t.currency) == c
  }

  /** All rows of a currency. */
  function RowsOfCurrency(c: string): Txn -> bool {
    t => IsIn(t, c)
  }

  /** Those of them that are no transfer. */
  function MoneyOfCurrency(c: string): Txn -> bool {
    t => IsIn(t, c) && !t.transfer
  }

  ghost function Credits(p: Txn -> bool): Txn -> bool {
    t => p(t) && t.credit
  }

  ghost function Debits(p: Txn -> bool): Txn -> bool {
    t => p(t) && !t.credit
  }

  /** Income is what the credits come to, expenses what the debits do, net the one less the other. */
  ghost predicate IsMoneyOf(b: Bucket, txns: seq<Txn>, p: Txn -> bool) {
    && b.income == Sum(Select(txns, Credits(p)), Size)
    && b.expenses == Sum(Select(txns, Debits(p)), Size)
    && b.net == b.income - b.expenses
    && b.count == Count(txns, p)
  }

  /** The bucket of some rows holds their money, on the side their type says. */
  lemma {:induction false} WhereIsMoney(txns: seq<Txn>, p: Txn -> bool)
    ensures IsMoneyOf(Where(txns, p), txns, p)
  {
    if txns != [] {
      var before, last := txns[..|txns| - 1], txns[|txns| - 1];
      WhereIsMoney(before, p);
      LastApart(txns);
      SelectSnoc(before, last, p);
      SelectSnoc(before, last, Credits(p));
      SelectSnoc(before, last, Debits(p));
      SumSnoc(Select(before, Credits(p)), last, Size);
      SumSnoc(Select(before, Debits(p)), last, Size);
    }
  }

  /** The same for rows picked out by any condition that comes to the same on them. */
  lemma WhereIsMoneyOf(txns: seq<Txn>, p: Txn -> bool, q: Txn -> bool)
    requires forall t <- txns :: p(t) == q(t)
    ensures IsMoneyOf(Where(txns, p), txns, q)
  {
    WhereCongruent(txns, p, q);
    WhereIsMoney(txns, q);
  }

  // ---------------------------------------------------------------------------- grouping keeps the sum

  lemma {:induction false} WhereCongruent(txns: seq<Txn>, p: Txn -> bool, q: Txn -> bool)
    requires forall t <- txns :: p(t) == q(t)
    ensures Where(txns, p) == Where(txns, q)
  {
    if txns != [] {
      WhereCongruent(txns[..|txns| - 1], p, q);
      assert txns[|txns| - 1] in txns;
    }
  }

  lemma {:induction false} WhereSplits(txns: seq<Txn>, p: Txn -> bool, q: Txn -> bool, whole: Txn -> bool)
    requires forall t <- txns :: whole(t) == (p(t) || q(t)) && !(p(t) && q(t))
    ensures Where(txns, whole) == Add(Where(txns, p), Where(txns, q))
  {
    if txns != [] {
      WhereSplits(txns[..|txns| - 1], p, q, whole);
      assert txns[|txns| - 1] in txns;
    }
  }

  lemma {:induction false} NothingWhere(txns: seq<Txn>, p: Txn -> bool)
    requires forall t <- txns :: !p(t)
    ensures Where(txns, p) == EMPTY
  {
    if txns != [] {
      NothingWhere(txns[..|txns| - 1], p);
      assert txns[|txns| - 1] in txns;
    }
  }

  lemma {:induction false} NetIsIncomeLessExpenses(txns: seq<Txn>, p: Txn -> bool)
    ensures Where(txns, p).net == Where(txns, p).income - Where(txns, p).expenses
  {
    if txns != [] {
      NetIsIncomeLessExpenses(txns[..|txns| - 1], p);
    }
  }

  ghost predicate UniqueBy<I, K(!new)>(items: seq<I>, id: I -> K) {
    forall i, j :: 0 <= i < j < |items| ==> id(items[i]) != id(items[j])
  }

  /** Grouping by a key, one group an item: the groups come to the same as the rows they hold. */
  lemma {:induction false} GroupsAddUp<I, K(!new)>(txns: seq<Txn>, keep: Txn -> bool, key: Txn -> K, items: seq<I>,
                                            id: I -> K, part: I -> Bucket)
    requires UniqueBy(items, id) && forall i <- items :: part(i) == Where(txns, Keyed(keep, key, id(i)))
    ensures Total(items, part) == Where(txns, Among(keep, key, items, id))
  {
    if items == [] {
      NothingWhere(txns, Among(keep, key, items, id));
    } else {
      var before, last := items[..|items| - 1], items[|items| - 1];
      assert items == before + [last];
      assert forall i <- before :: id(i) != id(last);
      GroupsAddUp(txns, keep, key, before, id, part);
      WhereSplits(txns, Among(keep, key, before, id), Keyed(keep, key, id(last)), Among(keep, key, items, id));
    }
  }

  lemma TotalSnoc<I>(items: seq<I>, x: I, part: I -> Bucket)
    ensures Total(items + [x], part) == Add(Total(items, part), part(x))
  {
    assert (items + [x])[..|items|] == items;
  }

  lemma {:induction false} TotalConcat<I>(a: seq<I>, b: seq<I>, part: I -> Bucket)
    ensures Total(a + b, part) == Add(Total(a, part), Total(b, part))
  {
    if b == [] {
      assert a + b == a;
    } else {
      var n := |b| - 1;
      assert a + b == a + b[..n] + [b[n]];
      TotalSnoc(a + b[..n], b[n], part);
      TotalConcat(a, b[..n], part);
    }
  }

  lemma InTheMiddle<I>(items: seq<I>, j: nat)
    requires j < |items|
    ensures items == items[..j] + [items[j]] + items[j + 1..]
  {
  }

  /** A part in the middle counts as much as one at the end. */
  lemma TotalOfMiddle<I>(head: seq<I>, x: I, tail: seq<I>, part: I -> Bucket)
    ensures Total(head + [x] + tail, part) == Add(Total(head + tail, part), part(x))
  {
    TotalConcat(head + [x], tail, part);
    TotalSnoc(head, x, part);
    TotalConcat(head, tail, part);
    AddSwaps(Total(head, part), part(x), Total(tail, part));
  }

  /** Taking one part out lowers the total by it. */
  lemma TotalWithout<I>(items: seq<I>, j: nat, part: I -> Bucket)
    requires j < |items|
    ensures Total(items, part) == Add(Total(items[..j] + items[j + 1..], part), part(items[j]))
  {
    InTheMiddle(items, j);
    TotalOfMiddle(items[..j], items[j], items[j + 1..], part);
  }

  lemma AddSwaps(a: Bucket, b: Bucket, c: Bucket)
    ensures Add(Add(a, b), c) == Add(Add(a, c), b)
  {
  }

  lemma TakenOut<I>(items: seq<I>, j: nat)
    requires j < |items|
    ensures multiset(items[..j] + items[j + 1..]) == multiset(items) - multiset{items[j]}
  {
    InTheMiddle(items, j);
  }

  /** A total does not depend on the order of its parts. */
  lemma {:induction false} TotalPermuted<I>(a: seq<I>, b: seq<I>, part: I -> Bucket)
    requires multiset(a) == multiset(b)
    ensures Total(a, part) == Total(b, part)
  {
    if a == [] {
      assert |b| == |multiset(b)| == 0;
    } else {
      var n, x := |a| - 1, a[|a| - 1];
      assert x in multiset(b);
      var j :| 0 <= j < |b| && b[j] == x;
      var rest := b[..j] + b[j + 1..];
      TakenOut(a, n);
      assert a[..n] + a[n + 1..] == a[..n];
      TakenOut(b, j);
      TotalPermuted(a[..n], rest, part);
      TotalWithout(b, j, part);
    }
  }
}
