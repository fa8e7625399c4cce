/**
 Names inside a binder's archive: the loop that numbers a name until it is free, the proofs' names and paths,
 what an auditor finds when following one, and the titles of the ledger's sheets.
 */
module ArchiveNames {
  import opened Basics
  import opened NameParts
  import opened Numerals

  // ------------------------------------------------------------------------------ minting one name

  ghost predicate Injective(candidate: nat -> string) {
    forall j, k :: candidate(j) == candidate(k) ==> j == k
  }

  ghost function Tried(candidate: nat -> string, n: nat): set<string> {
    set k | 2 <= k < n :: candidate(k)
  }

  /** Numbers tried are names tried, each a different one. */
  lemma {:induction false} TriedCount(candidate: nat -> string, n: nat)
    requires n >= 2 && Injective(candidate)
    ensures |Tried(candidate, n)| == n - 2
  {
    if n == 2 {
      assert Tried(candidate, n) == {};
    } else {
      TriedCount(candidate, n - 1);
      assert Tried(candidate, n) == Tried(candidate, n - 1) + {candidate(n - 1)};
    }
  }

  lemma SubsetIsSmaller(a: set<string>, b: set<string>)
    requires a <= b
    ensures |a| <= |b|
  {
    assert b == a + (b - a) && a !! (b - a);
  }

  ghost predicate FirstFree(candidate: nat -> string, used: set<string>, k: nat) {
    2 <= k && candidate(k) !in used && forall j :: 2 <= j < k ==> candidate(j) in used
  }

  /** The name a base gets: itself if free, otherwise the first numbered form that is. */
  ghost predicate IsMinted(name: string, base: string, candidate: nat -> string, used: set<string>) {
    if base !in used then name == base else exists k :: FirstFree(candidate, used, k) && name == candidate(k)
  }

  /** A name is found within as many attempts as there are names taken. */
  lemma FirstFreeIsNear(candidate: nat -> string, used: set<string>, k: nat)
    requires Injective(candidate) && FirstFree(candidate, used, k)
    ensures k <= |used| + 2
  {
    TriedCount(candidate, k);
    SubsetIsSmaller(Tried(candidate, k), used);
  }

  /** The loop ends, because each round rules out a name already taken and no two rounds rule out the same one. */
  method Mint(base: string, candidate: nat -> string, used: set<string>) returns (name: string)
    requires Injective(candidate)
    ensures name !in used && IsMinted(name, base, candidate, used)
  {
    name := base;
    var counter := 2;
    while name in used
      invariant 2 <= counter
      invariant if counter == 2 then name == base else base in used && name == candidate(counter - 1)
      invariant forall j :: 2 <= j < counter - 1 ==> candidate(j) in used
      decreases |used| + 3 - counter
    {
      assert Tried(candidate, counter) <= used;
      TriedCount(candidate, counter);
      SubsetIsSmaller(Tried(candidate, counter), used);
      name := candidate(counter);
      counter := counter + 1;
    }
    if counter > 2 {
      assert FirstFree(candidate, used, counter - 1);
    }
  }

  /** `stem-2.pdf`, `stem-3.pdf`, … */
  function Numbered(base: string, ext: string): nat -> string {
    (k: nat) => Stem(base) + ("-" + Digits(k)) + ext
  }

  /** The number goes between the stem and the extension. */
  lemma NumberedMeans(stem: string, ext: string, k: nat)
    requires Lacks(ext, '.')
    ensures Numbered(stem + ("." + ext), "." + ext)(k) == stem + "-" + Digits(k) + "." + ext
  {
    StemOfDotted(stem, ext);
  }

  lemma NumberedIsInjective(base: string, ext: string)
    ensures Injective(Numbered(base, ext))
  {
    forall j, k | Numbered(base, ext)(j) == Numbered(base, ext)(k) ensures j == k {
      var stem, a, b := Stem(base), Numbered(base, ext)(j), Numbered(base, ext)(k);
      assert |Digits(j)| == |Digits(k)|;
      assert Digits(j) == a[|stem| + 1..|stem| + 1 + |Digits(j)|];
      assert Digits(k) == b[|stem| + 1..|stem| + 1 + |Digits(k)|];
      DigitsValue(j);
      DigitsValue(k);
    }
  }

  // -------------------------------------------------------------------------------- naming proofs

  /** A transaction's stored proof paths, in order. */
  datatype Documents = Documents(id: int, paths: seq<string>)

  /** Stored path to archive name, with the order in which the names were given. */
  datatype Naming = Naming(order: seq<string>, nameOf: map<string, string>)

  function UsedBy(n: Naming, upTo: nat): set<string>
    requires upTo <= |n.order| && forall p <- n.order :: p in n.nameOf
  {
    set j | 0 <= j < upTo :: n.nameOf[n.order[j]]
  }

  /** Every named path has its place, and no two paths share a name. */
  ghost predicate WellNamed(n: Naming) {
    && (forall i, j :: 0 <= i < j < |n.order| ==> n.order[i] != n.order[j])
    && (forall p :: p in n.order <==> p in n.nameOf)
    && (forall p, q :: p in n.nameOf && q in n.nameOf && n.nameOf[p] == n.nameOf[q] ==> p == q)
  }

  predicate Lists(d: Documents, txns: map<int, Txn>, path: string) {
    d.id in txns && path in d.paths
  }

  /** The first transaction of the batch to list a path gives it its name, after those named before it. */
  ghost predicate NamedByFirst(docs: seq<Documents>, txns: map<int, Txn>, n: Naming, i: nat)
    requires WellNamed(n) && i < |n.order|
  {
    var path := n.order[i];
    exists m :: 0 <= m < |docs| && Lists(docs[m], txns, path)
        && (forall l :: 0 <= l < m ==> !Lists(docs[l], txns, path))
      && var base := Prefix(txns[docs[m].id]) + Extension(path);
         IsMinted(n.nameOf[path], base, Numbered(base, Extension(path)), UsedBy(n, i))
  }

  function NamesOf(n: Naming, paths: seq<string>): seq<string>
    requires forall p <- paths :: p in n.nameOf
  {
    if paths == [] then []
    else
      assert paths[|paths| - 1] in paths;
      NamesOf(n, paths[..|paths| - 1]) + [n.nameOf[paths[|paths| - 1]]]
  }

  function Extended(n: Naming, path: string, name: string): Naming {
    Naming(n.order + [path], n.nameOf[path := name])
  }

  lemma ExtendingKeepsNames(n: Naming, path: string, name: string)
    requires WellNamed(n) && path !in n.nameOf && name !in UsedBy(n, |n.order|)
    ensures WellNamed(Extended(n, path, name))
    ensures forall k | 0 <= k <= |n.order| :: UsedBy(Extended(n, path, name), k) == UsedBy(n, k)
  {
    var e := Extended(n, path, name);
    forall p | p in n.nameOf ensures n.nameOf[p] != name {
      var j :| 0 <= j < |n.order| && n.order[j] == p;
    }
    forall k | 0 <= k <= |n.order| ensures UsedBy(e, k) == UsedBy(n, k) {
      assert forall j :: 0 <= j < k ==> e.order[j] == n.order[j] && n.order[j] in n.nameOf;
    }
  }

  /** Every path listed so far is named by the first transaction that listed it. */
  ghost predicate NamesFit(docs: seq<Documents>, txns: map<int, Txn>, n: Naming) {
    WellNamed(n) && forall i :: 0 <= i < |n.order| ==> NamedByFirst(docs, txns, n, i)
  }

  lemma StillNamedByFirst(docs: seq<Documents>, txns: map<int, Txn>, n: Naming, path: string, name: string, i: nat)
    requires NamesFit(docs, txns, n) && path !in n.nameOf && name !in UsedBy(n, |n.order|) && i < |n.order|
    ensures WellNamed(Extended(n, path, name)) && NamedByFirst(docs, txns, Extended(n, path, name), i)
  {
    ExtendingKeepsNames(n, path, name);
    assert NamedByFirst(docs, txns, n, i) && n.order[i] in n.order;
  }

  lemma NewNameFits(docs: seq<Documents>, m: nat, txns: map<int, Txn>, n: Naming, path: string, name: string)
    requires m < |docs| && Lists(docs[m], txns, path) && (forall l :: 0 <= l < m ==> !Lists(docs[l], txns, path))
    requires NamesFit(docs, txns, n) && path !in n.nameOf && name !in UsedBy(n, |n.order|)
    requires var base := Prefix(txns[docs[m].id]) + Extension(path);
             IsMinted(name, base, Numbered(base, Extension(path)), UsedBy(n, |n.order|))
    ensures NamesFit(docs, txns, Extended(n, path, name))
  {
    var more := Extended(n, path, name);
    ExtendingKeepsNames(n, path, name);
    forall i | 0 <= i < |more.order| ensures NamedByFirst(docs, txns, more, i) {
      if i < |n.order| {
        StillNamedByFirst(docs, txns, n, path, name, i);
      } else {
        assert more.order[i] == path && more.nameOf[path] == name;
      }
    }
  }

  /** Names a path the first time it is met. */
  method NamePath(ghost docs: seq<Documents>, ghost m: nat, txns: map<int, Txn>, n: Naming, d: Documents, path: string)
    returns (more: Naming)
    requires m < |docs| && docs[m] == d && Lists(d, txns, path) && NamesFit(docs, txns, n)
    requires path in n.nameOf || forall l :: 0 <= l < m ==> !Lists(docs[l], txns, path)
    ensures NamesFit(docs, txns, more) && path in more.nameOf
    ensures forall p <- n.nameOf :: p in more.nameOf && more.nameOf[p] == n.nameOf[p]
    ensures forall p <- more.nameOf :: p in n.nameOf || p == path
  {
    if path in n.nameOf {
      return n;
    }
    var base := Prefix(txns[d.id]) + Extension(path);
    NumberedIsInjective(base, Extension(path));
    var name := Mint(base, Numbered(base, Extension(path)), UsedBy(n, |n.order|));
    more := Extended(n, path, name);
    NewNameFits(docs, m, txns, n, path, name);
  }

  lemma {:induction false} NamesOfKeeps(n: Naming, more: Naming, paths: seq<string>)
    requires forall p <- paths :: p in n.nameOf
    requires forall p <- n.nameOf :: p in more.nameOf && more.nameOf[p] == n.nameOf[p]
    ensures NamesOf(more, paths) == NamesOf(n, paths)
  {
    if paths != [] {
      assert paths[|paths| - 1] in paths;
      NamesOfKeeps(n, more, paths[..|paths| - 1]);
    }
  }

  /** Old names are kept, and the new ones are those of these paths. */
  ghost predicate Grown(n: Naming, more: Naming, paths: seq<string>) {
    && (forall p <- n.nameOf :: p in more.nameOf && more.nameOf[p] == n.nameOf[p])
    && (forall p <- more.nameOf :: p in n.nameOf || p in paths)
    && (forall p <- paths :: p in more.nameOf)
  }

  ghost predicate EarlierNamed(docs: seq<Documents>, txns: map<int, Txn>, n: Naming, m: nat)
    requires m <= |docs|
  {
    forall l, p :: 0 <= l < m && Lists(docs[l], txns, p) ==> p in n.nameOf
  }

  /** The names of one transaction's proofs, naming those not met before. */
  method NameDocuments(ghost docs: seq<Documents>, ghost m: nat, txns: map<int, Txn>, n: Naming,
                       ghost byTxn: map<int, seq<string>>, d: Documents)
    returns (more: Naming, names: seq<string>)
    requires m < |docs| && docs[m] == d && d.id in txns && NamesFit(docs, txns, n)
    requires NamesNoted(docs, txns, n, byTxn, m)
    ensures NamesFit(docs, txns, more) && Grown(n, more, d.paths)
    ensures names == NamesOf(more, d.paths)
  {
    more, names := n, [];
    NotedIsNamed(docs, txns, n, byTxn, m);
    for i := 0 to |d.paths|
      invariant NamesFit(docs, txns, more)
      invariant forall p <- n.nameOf :: p in more.nameOf && more.nameOf[p] == n.nameOf[p]
      invariant forall p <- more.nameOf :: p in n.nameOf || p in d.paths
      invariant (forall p <- d.paths[..i] :: p in more.nameOf) && names == NamesOf(more, d.paths[..i])
    {
      var path := d.paths[i];
      assert d.paths[..i + 1][..i] == d.paths[..i] && d.paths[..i + 1] == d.paths[..i] + [path];
      var next := NamePath(docs, m, txns, more, d, path);
      NamesOfKeeps(more, next, d.paths[..i]);
      more := next;
      names := names + [more.nameOf[path]];
    }
    assert d.paths[..|d.paths|] == d.paths;
  }

  ghost predicate IdsDistinct(docs: seq<Documents>) {
    forall i, j :: 0 <= i < j < |docs| ==> docs[i].id != docs[j].id
  }

  ghost predicate NamesNoted(docs: seq<Documents>, txns: map<int, Txn>, n: Naming, byTxn: map<int, seq<string>>,
                             upTo: nat)
    requires upTo <= |docs|
  {
    forall l :: 0 <= l < upTo && docs[l].id in txns ==>
      && (forall p <- docs[l].paths :: p in n.nameOf)
      && docs[l].id in byTxn && byTxn[docs[l].id] == NamesOf(n, docs[l].paths)
  }

  ghost predicate HasDocuments(docs: seq<Documents>, txns: map<int, Txn>, upTo: nat, id: int)
    requires upTo <= |docs|
  {
    id in txns && exists l :: 0 <= l < upTo && docs[l].id == id
  }

  ghost predicate IsListed(docs: seq<Documents>, txns: map<int, Txn>, upTo: nat, path: string)
    requires upTo <= |docs|
  {
    exists l :: 0 <= l < upTo && Lists(docs[l], txns, path)
  }

  /** The proofs of the first documents are named and noted under their transactions, and nothing else is. */
  ghost predicate Noted(docs: seq<Documents>, txns: map<int, Txn>, n: Naming, byTxn: map<int, seq<string>>, upTo: nat)
    requires upTo <= |docs|
  {
    && NamesNoted(docs, txns, n, byTxn, upTo)
    && (forall id <- byTxn :: HasDocuments(docs, txns, upTo, id))
    && (forall p <- n.nameOf :: IsListed(docs, txns, upTo, p))
  }

  lemma NamesNotedNext(docs: seq<Documents>, txns: map<int, Txn>, n: Naming, more: Naming,
                       byTxn: map<int, seq<string>>, m: nat)
    requires m < |docs| && IdsDistinct(docs) && NamesNoted(docs, txns, n, byTxn, m) && docs[m].id in txns
    requires Grown(n, more, docs[m].paths)
    ensures NamesNoted(docs, txns, more, byTxn[docs[m].id := NamesOf(more, docs[m].paths)], m + 1)
  {
    forall l | 0 <= l < m && docs[l].id in txns
      ensures (forall p <- docs[l].paths :: p in more.nameOf)
              && NamesOf(more, docs[l].paths) == NamesOf(n, docs[l].paths)
    {
      NamesOfKeeps(n, more, docs[l].paths);
    }
  }

  lemma ListedNext(docs: seq<Documents>, txns: map<int, Txn>, n: Naming, more: Naming, m: nat)
    requires m < |docs| && docs[m].id in txns && Grown(n, more, docs[m].paths)
    requires forall p <- n.nameOf :: IsListed(docs, txns, m, p)
    ensures forall p <- more.nameOf :: IsListed(docs, txns, m + 1, p)
  {
    forall p <- more.nameOf ensures IsListed(docs, txns, m + 1, p) {
      if p in n.nameOf {
        assert IsListed(docs, txns, m, p);
      } else {
        assert Lists(docs[m], txns, p);
      }
    }
  }

  lemma DocumentedNext(docs: seq<Documents>, txns: map<int, Txn>, m: nat, id: int)
    requires m < |docs| && (HasDocuments(docs, txns, m, id) || (docs[m].id == id && id in txns))
    ensures HasDocuments(docs, txns, m + 1, id)
  {
  }

  lemma NotedNext(docs: seq<Documents>, txns: map<int, Txn>, n: Naming, more: Naming, byTxn: map<int, seq<string>>,
                  m: nat)
    requires m < |docs| && IdsDistinct(docs) && Noted(docs, txns, n, byTxn, m) && docs[m].id in txns
    requires Grown(n, more, docs[m].paths)
    ensures Noted(docs, txns, more, byTxn[docs[m].id := NamesOf(more, docs[m].paths)], m + 1)
  {
    NamesNotedNext(docs, txns, n, more, byTxn, m);
    ListedNext(docs, txns, n, more, m);
    var next := byTxn[docs[m].id := NamesOf(more, docs[m].paths)];
    forall id <- next ensures HasDocuments(docs, txns, m + 1, id) {
      DocumentedNext(docs, txns, m, id);
    }
  }

  lemma NotedSkip(docs: seq<Documents>, txns: map<int, Txn>, n: Naming, byTxn: map<int, seq<string>>, m: nat)
    requires m < |docs| && Noted(docs, txns, n, byTxn, m) && docs[m].id !in txns
    ensures Noted(docs, txns, n, byTxn, m + 1)
  {
    forall p <- n.nameOf ensures IsListed(docs, txns, m + 1, p) {
      assert IsListed(docs, txns, m, p);
    }
    forall id <- byTxn ensures HasDocuments(docs, txns, m + 1, id) {
      assert HasDocuments(docs, txns, m, id);
    }
  }

  lemma NotedIsNamed(docs: seq<Documents>, txns: map<int, Txn>, n: Naming, byTxn: map<int, seq<string>>, m: nat)
    requires m <= |docs| && NamesNoted(docs, txns, n, byTxn, m)
    ensures EarlierNamed(docs, txns, n, m)
  {
  }

  /** Names the proofs of one transaction of the batch and notes them; others are passed over. */
  method NameNext(docs: seq<Documents>, m: nat, txns: map<int, Txn>, n: Naming, byTxn: map<int, seq<string>>)
    returns (more: Naming, noted: map<int, seq<string>>)
    requires m < |docs| && IdsDistinct(docs) && NamesFit(docs, txns, n) && Noted(docs, txns, n, byTxn, m)
    ensures NamesFit(docs, txns, more) && Noted(docs, txns, more, noted, m + 1)
  {
    if docs[m].id !in txns {
      NotedSkip(docs, txns, n, byTxn, m);
      return n, byTxn;
    }
    var names;
    more, names := NameDocuments(docs, m, txns, n, byTxn, docs[m]);
    NotedNext(docs, txns, n, more, byTxn, m);
    noted := byTxn[docs[m].id := names];
  }

  /**
   Names every proof of the batch: each stored path once, by the first transaction that lists it, under a name
   no other path has; and notes each transaction's names in the order of its proofs.
   */
  method NameProofs(docs: seq<Documents>, txns: map<int, Txn>) returns (n: Naming, byTxn: map<int, seq<string>>)
    requires IdsDistinct(docs)
    ensures NamesFit(docs, txns, n) && Noted(docs, txns, n, byTxn, |docs|)
  {
    n, byTxn := Naming([], map[]), map[];
    for m := 0 to |docs|
      invariant NamesFit(docs, txns, n) && Noted(docs, txns, n, byTxn, m)
    {
      n, byTxn := NameNext(docs, m, txns, n, byTxn);
    }
  }

  // --------------------------------------------------------------------------------- sheet titles

  const MAX_TITLE := 31

  /** The first `n` characters; a negative `n` leaves off that many from the end. */
  function PrefixTo(s: string, n: int): string {
    if n >= |s| then s else if n >= 0 then s[..n] else if |s| + n >= 0 then s[..|s| + n] else ""
  }

  /** The numbered form of a title, cut so that the number fits. */
  function TitleAt(base: string, k: nat): string {
    Suffixed(PrefixTo(base, MAX_TITLE - 1 - |Digits(k)|), Digits(k))
  }

  /** As much of the title as leaves room for an underscore and the number within thirty-one characters. */
  lemma TitleMeans(base: string, k: nat) returns (cut: string)
    ensures TitleAt(base, k) == cut + "_" + Digits(k) && cut <= base
    ensures |Digits(k)| <= 30 ==> |TitleAt(base, k)| <= 31 && (cut == base || |TitleAt(base, k)| == 31)
  {
    cut := PrefixTo(base, MAX_TITLE - 1 - |Digits(k)|);
  }

  function Suffixed(s: string, digits: string): string {
    s + (['_'] + digits)
  }

  function NumberedTitle(base: string): nat -> string {
    (k: nat) => TitleAt(base, k)
  }

  lemma SuffixTells(a: string, x: string, b: string, y: string)
    requires Lacks(x, '_') && Lacks(y, '_') && Suffixed(a, x) == Suffixed(b, y)
    ensures x == y
  {
    LastSegmentTells('_', a, x, b, y);
  }

  lemma TitleTellsItsNumber(base: string, j: nat, k: nat)
    requires TitleAt(base, j) == TitleAt(base, k)
    ensures j == k
  {
    var a, b := PrefixTo(base, MAX_TITLE - 1 - |Digits(j)|), PrefixTo(base, MAX_TITLE - 1 - |Digits(k)|);
    DigitsLack(j, '_');
    DigitsLack(k, '_');
    SuffixTells(a, Digits(j), b, Digits(k));
    DigitsValue(j);
    DigitsValue(k);
  }

  lemma TitlesAreInjective(base: string)
    ensures Injective(NumberedTitle(base))
  {
    forall j, k | NumberedTitle(base)(j) == NumberedTitle(base)(k) ensures j == k {
      TitleTellsItsNumber(base, j, k);
    }
  }

  lemma FewDigits(n: nat)
    requires n < 10_000_000
    ensures |Digits(n)| <= 7
  {
    assert n / 10 / 10 / 10 / 10 / 10 / 10 < 10;
    assert |Digits(n / 10 / 10 / 10 / 10 / 10 / 10)| == 1;
    assert |Digits(n / 10 / 10 / 10 / 10 / 10)| <= 2;
    assert |Digits(n / 10 / 10 / 10 / 10)| <= 3;
    assert |Digits(n / 10 / 10 / 10)| <= 4;
    assert |Digits(n / 10 / 10)| <= 5;
    assert |Digits(n / 10)| <= 6;
  }

  /** A sheet's title: not one that is taken, and short enough for the format while sheets number under a million. */
  method SheetTitle(raw: string, taken: set<string>) returns (title: string)
    ensures title !in taken
    ensures IsMinted(title, PrefixTo(raw, MAX_TITLE), NumberedTitle(PrefixTo(raw, MAX_TITLE)), taken)
    ensures |raw| <= 31 && raw !in taken ==> title == raw
    ensures |raw| > 31 && raw[..31] !in taken ==> title == raw[..31]
    ensures |taken| < 1_000_000 ==> |title| <= 31
  {
    var base := PrefixTo(raw, MAX_TITLE);
    TitlesAreInjective(base);
    title := Mint(base, NumberedTitle(base), taken);
    if base in taken && |taken| < 1_000_000 {
      ghost var k :| FirstFree(NumberedTitle(base), taken, k) && title == NumberedTitle(base)(k);
      FirstFreeIsNear(NumberedTitle(base), taken, k);
      FewDigits(k);
    }
  }
}
