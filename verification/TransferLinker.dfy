/** The deterministic linker, from the pool of rows to the classified links. */
module TransferLinker {
  import opened Basics
  import opened Sorting
  import opened Transfers
  import opened LinkScoring
  import opened GreedyAssignment
  import opened GreedyTheorems

  datatype ExistingLink = ExistingLink(source: int, target: int, kind: LinkType)

  // ---------------------------------------------------------------------------- who may be linked

  ghost function Spoken(existing: seq<ExistingLink>): set<int> {
    (set l <- existing :: l.target) + (set l <- existing | !FansOut(l.kind) :: l.source)
  }

  ghost function OpenAnchors(existing: seq<ExistingLink>): set<int> {
    (set l <- existing | FansOut(l.kind) :: l.source) - Spoken(existing)
  }

  method ReadExisting(existing: seq<ExistingLink>) returns (linked: set<int>, open: set<int>)
    ensures linked == Spoken(existing) && open == OpenAnchors(existing)
  {
    linked, open := {}, {};
    for i := 0 to |existing|
      invariant linked == Spoken(existing[..i])
      invariant open == set l <- existing[..i] | FansOut(l.kind) :: l.source
    {
      assert existing[..i + 1] == existing[..i] + [existing[i]];
      linked := linked + {existing[i].target};
      if FansOut(existing[i].kind) {
        open := open + {existing[i].source};
      } else {
        linked := linked + {existing[i].source};
      }
    }
    assert existing[..|existing|] == existing;
    open := open - linked;
  }

  predicate Eligible(t: Transaction, linked: set<int>, open: set<int>) {
    && t.id !in linked
    && (!t.settled || t.id in open)
    && (t.transferCategory || t.keywords != [])
  }

  function Filter(pool: seq<Transaction>, linked: set<int>, open: set<int>): seq<Transaction> {
    if pool == [] then []
    else (if Eligible(pool[0], linked, open) then [pool[0]] else []) + Filter(pool[1..], linked, open)
  }

  /** A refund source, and nothing else in any stored link. */
  ghost predicate AnchorsOnly(t: Transaction, existing: seq<ExistingLink>) {
    forall e <- existing :: e.target != t.id && (e.source == t.id ==> e.kind == Refund)
  }

  /**
   What it takes for a row to take part: it is nobody's target and the source of no stored link but refunds; if it
   is settled, it is the source of some; and its category or a keyword names a transfer.
   */
  ghost predicate MayBeLinked(t: Transaction, existing: seq<ExistingLink>) {
    && AnchorsOnly(t, existing)
    && (t.settled ==> exists e <- existing :: e.source == t.id && e.kind == Refund)
    && (t.transferCategory || t.keywords != [])
  }

  /** Two rows that may take part, on different accounts, one debit and one credit, not rejected either way round. */
  ghost predicate FitToPair(a: Transaction, b: Transaction, existing: seq<ExistingLink>, rejected: set<(int, int)>) {
    && MayBeLinked(a, existing) && MayBeLinked(b, existing)
    && a.account != b.account && a.direction != b.direction
    && (a.id, b.id) !in rejected && (b.id, a.id) !in rejected
  }

  lemma EligibleMeans(t: Transaction, existing: seq<ExistingLink>)
    ensures Eligible(t, Spoken(existing), OpenAnchors(existing)) <==> MayBeLinked(t, existing)
  {
    assert t.id !in Spoken(existing) <==> AnchorsOnly(t, existing);
  }

  // ------------------------------------------------------------------------------ candidate pairs

  /** Direction-free: a rejected pair is rejected whichever way round it was stored. */
  predicate IsRejected(rejected: set<(int, int)>, a: int, b: int) {
    (a, b) in rejected || (b, a) in rejected
  }

  predicate MayPair(src: Transaction, tgt: Transaction, rejected: set<(int, int)>) {
    src.account != tgt.account && src.direction != tgt.direction && !IsRejected(rejected, src.id, tgt.id)
  }

  function PairWith(src: Transaction, tgts: seq<Transaction>,
                    rejected: set<(int, int)>): seq<(Transaction, Transaction)>
  {
    if tgts == [] then []
    else PairWith(src, tgts[..|tgts| - 1], rejected)
         + if MayPair(src, tgts[|tgts| - 1], rejected) then [(src, tgts[|tgts| - 1])] else []
  }

  /** The pairs whose first row is among the first `n`, each row paired with the rows after it. */
  function PairsUpTo(pool: seq<Transaction>, n: nat, rejected: set<(int, int)>): seq<(Transaction, Transaction)>
    requires n <= |pool|
  {
    if n == 0 then [] else PairsUpTo(pool, n - 1, rejected) + PairWith(pool[n - 1], pool[n..], rejected)
  }

  function AllPairs(pool: seq<Transaction>, rejected: set<(int, int)>): seq<(Transaction, Transaction)> {
    PairsUpTo(pool, |pool|, rejected)
  }

  function PairKey(a: int, b: int): (int, int) {
    if a <= b then (a, b) else (b, a)
  }

  method GeneratePairs(pool: seq<Transaction>, rejectedPairs: set<(int, int)>)
    returns (pairs: seq<(Transaction, Transaction)>)
    ensures pairs == AllPairs(pool, rejectedPairs)
  {
    var rejected := set r <- rejectedPairs :: PairKey(r.0, r.1);
    pairs := [];
    for i := 0 to |pool|
      invariant pairs == PairsUpTo(pool, i, rejectedPairs)
    {
      var src, rest := pool[i], pool[i + 1..];
      for j := 0 to |rest|
        invariant pairs == PairsUpTo(pool, i, rejectedPairs) + PairWith(src, rest[..j], rejectedPairs)
      {
        var tgt := rest[j];
        RejectionIsDirectionFree(rejectedPairs, rejected, src.id, tgt.id);
        PairWithSnoc(src, rest[..j], tgt, rejectedPairs);
        assert rest[..j + 1] == rest[..j] + [tgt];
        if src.account != tgt.account && src.direction != tgt.direction && PairKey(src.id, tgt.id) !in rejected {
          pairs := pairs + [(src, tgt)];
        }
      }
      assert rest[..|rest|] == rest;
    }
  }

  lemma PairWithSnoc(src: Transaction, tgts: seq<Transaction>, tgt: Transaction, rejected: set<(int, int)>)
    ensures PairWith(src, tgts + [tgt], rejected)
            == PairWith(src, tgts, rejected) + if MayPair(src, tgt, rejected) then [(src, tgt)] else []
  {
    assert (tgts + [tgt])[..|tgts|] == tgts;
  }

  lemma RejectionIsDirectionFree(rejectedPairs: set<(int, int)>, rejected: set<(int, int)>, a: int, b: int)
    requires rejected == set r <- rejectedPairs :: PairKey(r.0, r.1)
    ensures PairKey(a, b) in rejected <==> IsRejected(rejectedPairs, a, b)
  {
    if IsRejected(rejectedPairs, a, b) {
      var r := if (a, b) in rejectedPairs then (a, b) else (b, a);
      assert PairKey(r.0, r.1) == PairKey(a, b);
    }
  }

  function ScoreAll(pairs: seq<(Transaction, Transaction)>): seq<Candidate> {
    if pairs == [] then []
    else
      var c := ScorePair(pairs[0].0, pairs[0].1);
      (if c.Some? then [c.value] else []) + ScoreAll(pairs[1..])
  }

  /** Later rows win, as in a dictionary built from the pool. */
  function LedgerOf(pool: seq<Transaction>): Ledger {
    if pool == [] then map[] else LedgerOf(pool[..|pool| - 1])[pool[|pool| - 1].id := pool[|pool| - 1]]
  }

  // ----------------------------------------------------------------------------------- assignment

  /** The greedy loop as the linker runs it, its bookkeeping held in separate variables. */
  method AssignLinks(scored: seq<Candidate>, ledger: Ledger)
    returns (links: seq<Link>, used: set<int>, anchors: map<int, LinkType>, minted: nat)
    ensures var s := Assign(scored, Some(ledger));
            links == s.links && used == s.used && anchors == s.anchors && minted == s.minted
  {
    links, used, anchors, minted := [], {}, map[], 0;
    var anchorChain: map<int, nat> := map[];
    var anchorClaimed: map<int, real> := map[];
    for i := 0 to |scored|
      invariant State(links, used, anchors, anchorChain, anchorClaimed, minted) == Assign(scored[..i], Some(ledger))
    {
      var c := scored[i];
      AssignNext(scored, i, Some(ledger));
      if c.target in used || c.target in anchors {
        continue;
      }
      if c.source in used {
        continue;
      }
      if c.source in anchors && anchors[c.source] != c.kind {
        continue;
      }
      var chain, position := None, 0;
      if FansOut(c.kind) {
        if c.source !in ledger || c.target !in ledger {
          continue;
        }
        var anchor, leg := ledger[c.source], ledger[c.target];
        if leg.currency == anchor.currency {
          var claimed := (if c.source in anchorClaimed then anchorClaimed[c.source] else 0.0) + Abs(leg.amount);
          if claimed > Abs(anchor.amount) + FAN_OUT_TOLERANCE {
            continue;
          }
          anchorClaimed := anchorClaimed[c.source := claimed];
        }
        anchors := anchors[c.source := c.kind];
        if c.source !in anchorChain {
          anchorChain := anchorChain[c.source := minted];
        }
        minted := minted + 1;
        chain := Some(anchorChain[c.source]);
        position := CountChain(links, anchorChain[c.source]);
      } else {
        used := used + {c.source};
      }
      links := links + [Link(c, chain, position)];
      used := used + {c.target};
    }
    assert scored[..|scored|] == scored;
  }

  method Classify(links: seq<Link>) returns (autoApproved: seq<Link>, pendingReview: seq<Link>)
    ensures forall l <- autoApproved :: l in links && l.candidate.score >= 0.92
    ensures forall l <- pendingReview :: l in links && l.candidate.score < 0.92
    ensures multiset(autoApproved) + multiset(pendingReview) == multiset(links)
  {
    autoApproved, pendingReview := [], [];
    for i := 0 to |links|
      invariant forall l <- autoApproved :: l in links && l.candidate.score >= AUTO_APPROVE_THRESHOLD
      invariant forall l <- pendingReview :: l in links && l.candidate.score < AUTO_APPROVE_THRESHOLD
      invariant multiset(autoApproved) + multiset(pendingReview) == multiset(links[..i])
    {
      assert links[..i + 1] == links[..i] + [links[i]];
      if links[i].candidate.score >= AUTO_APPROVE_THRESHOLD {
        autoApproved := autoApproved + [links[i]];
      } else {
        pendingReview := pendingReview + [links[i]];
      }
    }
    assert links[..|links|] == links;
  }

  // ------------------------------------------------------------------------------ the whole run

  function Proposals(pool: seq<Transaction>, linked: set<int>, open: set<int>,
                     rejected: set<(int, int)>): seq<Candidate>
  {
    SortDesc(ScoreAll(AllPairs(Filter(pool, linked, open), rejected)), Confidence)
  }

  /** The assignment a run over `pool` ends with, given the links already stored and the pairs rejected. */
  ghost function LinkRun(pool: seq<Transaction>, existing: seq<ExistingLink>, rejected: set<(int, int)>): State {
    Assign(Proposals(pool, Spoken(existing), OpenAnchors(existing), rejected), Some(LedgerOf(pool)))
  }

  /** Ids are primary keys: no two rows of a pool share one. */
  ghost predicate UniqueIds(pool: seq<Transaction>) {
    forall i, j :: 0 <= i < j < |pool| ==> pool[i].id != pool[j].id
  }

  /** The pair of rows a candidate stands for: debit first, credit second. */
  ghost predicate StandsFor(c: Candidate, debit: Transaction, credit: Transaction) {
    && c.source == debit.id && c.target == credit.id
    && debit.direction == Debit && credit.direction == Credit
    && debit.account != credit.account
    && (ScorePair(debit, credit) == Some(c) || ScorePair(credit, debit) == Some(c))
  }

  ghost predicate ComesFrom(c: Candidate, pool: seq<Transaction>, rejected: set<(int, int)>) {
    exists debit <- pool, credit <- pool :: StandsFor(c, debit, credit) && !IsRejected(rejected, debit.id, credit.id)
  }

  lemma {:induction false} PairWithMembers(src: Transaction, tgts: seq<Transaction>, rejected: set<(int, int)>)
    ensures forall p <- PairWith(src, tgts, rejected) :: p.0 == src && p.1 in tgts && MayPair(p.0, p.1, rejected)
  {
    if tgts != [] {
      PairWithMembers(src, tgts[..|tgts| - 1], rejected);
      assert tgts[|tgts| - 1] in tgts;
    }
  }

  lemma {:induction false} PairsUpToMembers(pool: seq<Transaction>, n: nat, rejected: set<(int, int)>)
    requires n <= |pool|
    ensures forall p <- PairsUpTo(pool, n, rejected) :: p.0 in pool && p.1 in pool && MayPair(p.0, p.1, rejected)
  {
    if n > 0 {
      PairsUpToMembers(pool, n - 1, rejected);
      PairWithMembers(pool[n - 1], pool[n..], rejected);
    }
  }

  lemma {:induction false} ScoreAllMembers(pairs: seq<(Transaction, Transaction)>)
    ensures forall c <- ScoreAll(pairs) :: exists p <- pairs :: ScorePair(p.0, p.1) == Some(c)
  {
    if pairs != [] {
      ScoreAllMembers(pairs[1..]);
      forall c <- ScoreAll(pairs) ensures exists p <- pairs :: ScorePair(p.0, p.1) == Some(c) {
        if c in ScoreAll(pairs[1..]) {
          var p :| p in pairs[1..] && ScorePair(p.0, p.1) == Some(c);
          assert p in pairs;
        } else {
          assert pairs[0] in pairs;
        }
      }
    }
  }

  lemma {:induction false} FilterMembers(pool: seq<Transaction>, linked: set<int>, open: set<int>)
    ensures forall t :: t in Filter(pool, linked, open) <==> t in pool && Eligible(t, linked, open)
  {
    if pool != [] {
      FilterMembers(pool[1..], linked, open);
      assert forall t :: t in pool <==> t == pool[0] || t in pool[1..];
    }
  }

  lemma PairBecomesCandidate(a: Transaction, b: Transaction, c: Candidate)
    requires ScorePair(a, b) == Some(c) && a.account != b.account && a.direction != b.direction
    ensures StandsFor(c, a, b) || StandsFor(c, b, a)
  {
  }

  lemma ProposalsComeFromThePool(pool: seq<Transaction>, linked: set<int>, open: set<int>, rejected: set<(int, int)>)
    ensures forall c <- Proposals(pool, linked, open, rejected) :: ComesFrom(c, Filter(pool, linked, open), rejected)
  {
    var rows := Filter(pool, linked, open);
    var pairs := AllPairs(rows, rejected);
    PairsUpToMembers(rows, |rows|, rejected);
    ScoreAllMembers(pairs);
    SortDescKeepsElements(ScoreAll(pairs), Confidence);
    forall c <- Proposals(pool, linked, open, rejected) ensures ComesFrom(c, rows, rejected) {
      var p :| p in pairs && ScorePair(p.0, p.1) == Some(c);
      PairBecomesCandidate(p.0, p.1, c);
      if StandsFor(c, p.0, p.1) {
        assert p.0 in rows && p.1 in rows;
      } else {
        assert StandsFor(c, p.1, p.0);
      }
    }
  }

  /** With unique ids, the id of a row determines the row. */
  lemma IdsNameRows(pool: seq<Transaction>, a: Transaction, b: Transaction)
    requires UniqueIds(pool) && a in pool && b in pool
    ensures a.id == b.id ==> a == b
  {
    var i :| 0 <= i < |pool| && pool[i] == a;
    var j :| 0 <= j < |pool| && pool[j] == b;
  }

  /** A debit is never the target of a proposal, nor a credit the source of one. */
  lemma SidesDoNotMix(pool: seq<Transaction>, rejected: set<(int, int)>, c: Candidate, d: Candidate)
    requires UniqueIds(pool) && ComesFrom(c, pool, rejected) && ComesFrom(d, pool, rejected)
    ensures c.source != d.target
  {
    var a, b :| a in pool && b in pool && StandsFor(c, a, b);
    var x, y :| x in pool && y in pool && StandsFor(d, x, y);
    IdsNameRows(pool, a, y);
  }

  lemma ProposalScore(pool: seq<Transaction>, rejected: set<(int, int)>, c: Candidate)
    requires ComesFrom(c, pool, rejected)
    ensures REVIEW_THRESHOLD <= c.score <= 1.0
  {
    var a, b :| a in pool && b in pool && StandsFor(c, a, b);
    if ScorePair(a, b) == Some(c) { ScoresStayInRange(a, b); } else { ScoresStayInRange(b, a); }
  }

  lemma FilterIsWider(pool: seq<Transaction>, linked: set<int>, open: set<int>, rejected: set<(int, int)>, c: Candidate)
    requires ComesFrom(c, Filter(pool, linked, open), rejected)
    ensures ComesFrom(c, pool, rejected)
  {
    FilterMembers(pool, linked, open);
  }

  /**
   Debits pay credits: no row is ever the source of one proposal and the target of another. An
   A-to-B-to-C pattern therefore cannot arise, and every proposal is fit for the greedy theorems.
   */
  lemma ProposalsAreBipartite(pool: seq<Transaction>, linked: set<int>, open: set<int>, rejected: set<(int, int)>)
    requires UniqueIds(pool)
    ensures var cs := Proposals(pool, linked, open, rejected);
            && SortedDesc(cs, Confidence)
            && (forall c <- cs :: REVIEW_THRESHOLD <= c.score <= 1.0)
            && (forall c <- cs, d <- cs :: c.source != d.target)
  {
    var cs := Proposals(pool, linked, open, rejected);
    SortDescIsStable(ScoreAll(AllPairs(Filter(pool, linked, open), rejected)), Confidence);
    ProposalsComeFromThePool(pool, linked, open, rejected);
    forall c <- cs ensures ComesFrom(c, pool, rejected) && REVIEW_THRESHOLD <= c.score <= 1.0 {
      FilterIsWider(pool, linked, open, rejected, c);
      ProposalScore(pool, rejected, c);
    }
    forall c <- cs, d <- cs ensures c.source != d.target {
      SidesDoNotMix(pool, rejected, c, d);
    }
  }

  /** Every link of a run joins a debit and a credit of the pool that are fit to be paired. */
  lemma LinkedRowsAreFit(pool: seq<Transaction>, existing: seq<ExistingLink>, rejected: set<(int, int)>, l: Link)
    requires l in LinkRun(pool, existing, rejected).links
    ensures exists debit <- pool, credit <- pool ::
              StandsFor(l.candidate, debit, credit) && FitToPair(debit, credit, existing, rejected)
  {
    var linked, open := Spoken(existing), OpenAnchors(existing);
    var rows := Filter(pool, linked, open);
    LinksAreCandidates(Proposals(pool, linked, open, rejected), Some(LedgerOf(pool)));
    ProposalsComeFromThePool(pool, linked, open, rejected);
    FilterMembers(pool, linked, open);
    assert ComesFrom(l.candidate, rows, rejected);
    var debit, credit :| debit in rows && credit in rows && StandsFor(l.candidate, debit, credit)
                         && !IsRejected(rejected, debit.id, credit.id);
    EligibleMeans(debit, existing);
    EligibleMeans(credit, existing);
    assert debit in pool && credit in pool;
  }

  /** An auto-approved link joins two rows of the pool that are equal to the cent, or reconciled by a printed rate. */
  lemma AutoApprovedLinksAreSound(pool: seq<Transaction>, existing: seq<ExistingLink>, rejected: set<(int, int)>,
                                  l: Link)
    requires l in LinkRun(pool, existing, rejected).links && l.candidate.score >= AUTO_APPROVE_THRESHOLD
    ensures exists debit <- pool, credit <- pool ::
              && StandsFor(l.candidate, debit, credit)
              && FitToPair(debit, credit, existing, rejected)
              && (ExactSameCurrency(debit, credit)
                  || RateReconciles(debit, credit, 0.005) || RateReconciles(credit, debit, 0.005))
  {
    LinkedRowsAreFit(pool, existing, rejected, l);
    var debit, credit :| debit in pool && credit in pool && StandsFor(l.candidate, debit, credit)
                         && FitToPair(debit, credit, existing, rejected);
    if ScorePair(debit, credit) == Some(l.candidate) {
      AutoApprovalIsEarned(debit, credit);
    } else {
      AutoApprovalIsEarned(credit, debit);
    }
  }

  /** A row already linked keeps its role: targets and plain sources are never proposed again. */
  lemma SpokenRowsAreLeftAlone(pool: seq<Transaction>, existing: seq<ExistingLink>, rejected: set<(int, int)>, l: Link,
                               e: ExistingLink)
    requires l in LinkRun(pool, existing, rejected).links && e in existing
    ensures !Touches(l.candidate, e.target)
    ensures Touches(l.candidate, e.source) ==> FansOut(e.kind)
  {
    var linked, open := Spoken(existing), OpenAnchors(existing);
    LinksAreCandidates(Proposals(pool, linked, open, rejected), Some(LedgerOf(pool)));
    ProposalsComeFromThePool(pool, linked, open, rejected);
    FilterMembers(pool, linked, open);
  }

  /** The structural theorems, for a whole run over rows with unique ids. */
  lemma LinkRunIsSound(pool: seq<Transaction>, existing: seq<ExistingLink>, rejected: set<(int, int)>)
    requires UniqueIds(pool)
    ensures Sound(LinkRun(pool, existing, rejected), Some(LedgerOf(pool)))
  {
    var cs := Proposals(pool, Spoken(existing), OpenAnchors(existing), rejected);
    ProposalsAreBipartite(pool, Spoken(existing), OpenAnchors(existing), rejected);
    RunIsSound(cs, Some(LedgerOf(pool)));
  }

  lemma LinkRunIsHalfOptimal(pool: seq<Transaction>, existing: seq<ExistingLink>, rejected: set<(int, int)>,
                             choice: seq<Candidate>)
    requires UniqueIds(pool) && Disjoint(choice)
    requires forall c <- choice ::
               c in Proposals(pool, Spoken(existing), OpenAnchors(existing), rejected)
                   && FitsAlone(c, Some(LedgerOf(pool)))
    ensures Sum(choice, Confidence) <= 2.0 * Sum(LinkRun(pool, existing, rejected).links, LinkScore)
  {
    ProposalsAreBipartite(pool, Spoken(existing), OpenAnchors(existing), rejected);
    AssignmentIsHalfOptimal(Proposals(pool, Spoken(existing), OpenAnchors(existing), rejected), Some(LedgerOf(pool)),
        choice);
  }

  lemma {:induction false} PairWithIsComplete(src: Transaction, tgts: seq<Transaction>, rejected: set<(int, int)>,
                                              tgt: Transaction)
    requires tgt in tgts && MayPair(src, tgt, rejected)
    ensures (src, tgt) in PairWith(src, tgts, rejected)
  {
    if tgt in tgts[..|tgts| - 1] {
      PairWithIsComplete(src, tgts[..|tgts| - 1], rejected, tgt);
    }
  }

  lemma {:induction false} PairsUpToIsComplete(pool: seq<Transaction>, n: nat, rejected: set<(int, int)>, i: nat,
                                               j: nat)
    requires i < n <= |pool| && i < j < |pool| && MayPair(pool[i], pool[j], rejected)
    ensures (pool[i], pool[j]) in PairsUpTo(pool, n, rejected)
  {
    if i == n - 1 {
      assert pool[n..][j - n] == pool[j];
      PairWithIsComplete(pool[i], pool[n..], rejected, pool[j]);
    } else {
      PairsUpToIsComplete(pool, n - 1, rejected, i, j);
    }
  }

  lemma {:induction false} ScoreAllIsComplete(pairs: seq<(Transaction, Transaction)>, p: (Transaction, Transaction))
    requires p in pairs && ScorePair(p.0, p.1).Some?
    ensures ScorePair(p.0, p.1).value in ScoreAll(pairs)
  {
    if p != pairs[0] {
      ScoreAllIsComplete(pairs[1..], p);
    }
  }

  lemma {:induction false} FilterConcat(a: seq<Transaction>, b: seq<Transaction>, linked: set<int>, open: set<int>)
    ensures Filter(a + b, linked, open) == Filter(a, linked, open) + Filter(b, linked, open)
  {
    if a == [] {
      assert a + b == b;
    } else {
      assert (a + b)[1..] == a[1..] + b;
      FilterConcat(a[1..], b, linked, open);
    }
  }

  /** An eligible row stands right after the eligible rows before it. */
  lemma FilteredPlace(pool: seq<Transaction>, linked: set<int>, open: set<int>, i: nat)
    requires i < |pool| && Eligible(pool[i], linked, open)
    ensures var a := |Filter(pool[..i], linked, open)|;
            && a < |Filter(pool, linked, open)| && Filter(pool, linked, open)[a] == pool[i]
            && |Filter(pool[..i + 1], linked, open)| == a + 1
  {
    assert pool == pool[..i] + ([pool[i]] + pool[i + 1..]) && pool[..i + 1] == pool[..i] + [pool[i]];
    FilterConcat(pool[..i], [pool[i]] + pool[i + 1..], linked, open);
    FilterConcat([pool[i]], pool[i + 1..], linked, open);
    FilterConcat(pool[..i], [pool[i]], linked, open);
    assert [pool[i]][1..] == [];
  }

  lemma FilterKeepsOrder(pool: seq<Transaction>, linked: set<int>, open: set<int>, i: nat, j: nat)
    returns (a: nat, b: nat)
    requires i < j < |pool| && Eligible(pool[i], linked, open) && Eligible(pool[j], linked, open)
    ensures a < b < |Filter(pool, linked, open)|
    ensures Filter(pool, linked, open)[a] == pool[i] && Filter(pool, linked, open)[b] == pool[j]
  {
    a, b := |Filter(pool[..i], linked, open)|, |Filter(pool[..j], linked, open)|;
    FilteredPlace(pool, linked, open, i);
    FilteredPlace(pool, linked, open, j);
    assert pool[..j] == pool[..i + 1] + pool[i + 1..j];
    FilterConcat(pool[..i + 1], pool[i + 1..j], linked, open);
  }

  /** No pair is lost on the way: two rows fit to be paired that score are on the list. */
  lemma ProposalsAreComplete(pool: seq<Transaction>, existing: seq<ExistingLink>, rejected: set<(int, int)>,
                             i: nat, j: nat)
    requires i < j < |pool| && FitToPair(pool[i], pool[j], existing, rejected)
    ensures var c := ScorePair(pool[i], pool[j]);
            c.Some? ==> c.value in Proposals(pool, Spoken(existing), OpenAnchors(existing), rejected)
  {
    var linked, open := Spoken(existing), OpenAnchors(existing);
    var rows := Filter(pool, linked, open);
    EligibleMeans(pool[i], existing);
    EligibleMeans(pool[j], existing);
    var a, b := FilterKeepsOrder(pool, linked, open, i, j);
    PairsUpToIsComplete(rows, |rows|, rejected, a, b);
    if ScorePair(rows[a], rows[b]).Some? {
      ScoreAllIsComplete(AllPairs(rows, rejected), (rows[a], rows[b]));
      SortDescKeepsElements(ScoreAll(AllPairs(rows, rejected)), Confidence);
    }
  }

  /** With unique ids the ledger finds every row of the pool under its own id. */
  lemma {:induction false} LedgerHoldsThePool(pool: seq<Transaction>, t: Transaction)
    requires UniqueIds(pool) && t in pool
    ensures t.id in LedgerOf(pool) && LedgerOf(pool)[t.id] == t
  {
    var n := |pool| - 1;
    if t != pool[n] {
      LedgerHoldsThePool(pool[..n], t);
      IdsNameRows(pool, t, pool[n]);
    }
  }

  /** A pair over the auto-approval line fits under its anchor alone: its sums are equal or not comparable. */
  lemma PairsOverTheLineFitAlone(pool: seq<Transaction>, a: Transaction, b: Transaction)
    requires UniqueIds(pool) && a in pool && b in pool
    requires ScorePair(a, b).Some? && ScorePair(a, b).value.score >= AUTO_APPROVE_THRESHOLD
    ensures FitsAlone(ScorePair(a, b).value, Some(LedgerOf(pool)))
  {
    AutoApprovalIsEarned(a, b);
    LedgerHoldsThePool(pool, a);
    LedgerHoldsThePool(pool, b);
  }

  /** The run ends with an auto-approved link on one of the two rows. */
  ghost predicate EndsAutoApproved(links: seq<Link>, a: Transaction, b: Transaction) {
    exists l <- links ::
      l.candidate.score >= AUTO_APPROVE_THRESHOLD && (Touches(l.candidate, a.id) || Touches(l.candidate, b.id))
  }

  /**
   Two rows fit to be paired that score at or over the auto-approval line always end with an auto-approved link
   on one of them: a pair over the line can only lose to a link that is over it as well.
   */
  lemma PairsOverTheLineEndAutoApproved(pool: seq<Transaction>, existing: seq<ExistingLink>,
                                        rejected: set<(int, int)>, i: nat, j: nat)
    requires UniqueIds(pool) && i < j < |pool| && FitToPair(pool[i], pool[j], existing, rejected)
    requires ScorePair(pool[i], pool[j]).Some? && ScorePair(pool[i], pool[j]).value.score >= AUTO_APPROVE_THRESHOLD
    ensures EndsAutoApproved(LinkRun(pool, existing, rejected).links, pool[i], pool[j])
  {
    var linked, open := Spoken(existing), OpenAnchors(existing);
    var c := ScorePair(pool[i], pool[j]).value;
    ProposalsAreComplete(pool, existing, rejected, i, j);
    ProposalsAreBipartite(pool, linked, open, rejected);
    assert pool[i] in pool && pool[j] in pool;
    PairsOverTheLineFitAlone(pool, pool[i], pool[j]);
    AssignmentIsStable(Proposals(pool, linked, open, rejected), Some(LedgerOf(pool)));
    assert Outranked(LinkRun(pool, existing, rejected).links, c);
    var l :| l in LinkRun(pool, existing, rejected).links && Shares(l.candidate, c) && l.candidate.score >= c.score;
  }

  /** In particular a certain pair inside its window. */
  lemma CertainPairsEndAutoApproved(pool: seq<Transaction>, existing: seq<ExistingLink>,
                                    rejected: set<(int, int)>, i: nat, j: nat)
    requires UniqueIds(pool) && i < j < |pool| && FitToPair(pool[i], pool[j], existing, rejected)
    requires CertainPair(pool[i], pool[j]) && InTime(pool[i], pool[j])
    ensures EndsAutoApproved(LinkRun(pool, existing, rejected).links, pool[i], pool[j])
  {
    CertainPairsAreAutoApproved(pool[i], pool[j]);
    PairsOverTheLineEndAutoApproved(pool, existing, rejected, i, j);
  }

  /**
   The keyword table's promise that a leg matching nothing is never paired fails on a whole run: a card
   payment whose card side matches no entry, filed as a transfer and equal on the day, is auto-approved.
   */
  lemma OneSidedPaymentIsAutoApproved(debit: Transaction, credit: Transaction)
    requires debit.id != credit.id && debit.direction == Debit && credit.direction == Credit
    requires debit.account == "CAD" && credit.account == "CreditCard" && debit.day == credit.day
    requires ExactSameCurrency(debit, credit)
    requires |debit.keywords| == 1 && debit.keywords[0].kind == CreditCardPayment && credit.keywords == []
    requires credit.transferCategory && !debit.settled && !credit.settled
    ensures !NamedByBothLegs(debit, credit)
    ensures EndsAutoApproved(LinkRun([debit, credit], [], {}).links, debit, credit)
  {
    OneSidedPairReachesTheLine(debit, credit);
    TwoRowPool(debit, credit);
    PairsOverTheLineEndAutoApproved([debit, credit], [], {}, 0, 1);
  }

  lemma TwoRowPool(a: Transaction, b: Transaction)
    requires !a.settled && (a.transferCategory || a.keywords != [])
    requires !b.settled && (b.transferCategory || b.keywords != [])
    ensures Filter([a, b], Spoken([]), OpenAnchors([])) == [a, b]
  {
    assert [a, b][1..] == [b] && [b][1..] == [];
    assert Spoken([]) == {};
    assert Filter([b], Spoken([]), OpenAnchors([])) == [b];
  }

  /**
   The condition of half-optimality matters on a whole run too: a refund a little larger than its charge,
   named by both rows, is the run's only proposal, and the run links nothing.
   */
  lemma OversizedRefundIsDropped(charge: Transaction, credit: Transaction)
    requires charge.id != credit.id && charge.direction == Debit && credit.direction == Credit
    requires charge.account == "CreditCard" && credit.account == "CAD" && charge.day == credit.day
    requires charge.currency == credit.currency
    requires 0.01 < Abs(credit.amount) - Abs(charge.amount) <= 0.50
    requires charge.keywords == [Keyword(Refund, true, 80)] && credit.keywords == [Keyword(Refund, false, 80)]
    requires !charge.settled && !credit.settled
    ensures Proposals([charge, credit], Spoken([]), OpenAnchors([]), {})
            == [Candidate(charge.id, credit.id, Refund, AMOUNT_MISMATCH_CEILING)]
    ensures LinkRun([charge, credit], [], {}).links == []
  {
    var pool := [charge, credit];
    TwoRowPool(charge, credit);
    TwoRowProposals(charge, credit);
    OversizedRefundScore(charge, credit);
    var c := Candidate(charge.id, credit.id, Refund, AMOUNT_MISMATCH_CEILING);
    LedgerHoldsThePool(pool, charge);
    LedgerHoldsThePool(pool, credit);
    RunOne(START, c, Some(LedgerOf(pool)));
  }

  lemma OversizedRefundScore(charge: Transaction, credit: Transaction)
    requires charge.direction == Debit && charge.currency == credit.currency && charge.day == credit.day
    requires charge.account == "CreditCard" && credit.account == "CAD"
    requires 0.01 < Abs(credit.amount) - Abs(charge.amount) <= 0.50
    requires charge.keywords == [Keyword(Refund, true, 80)] && credit.keywords == [Keyword(Refund, false, 80)]
    ensures ScorePair(charge, credit) == Some(Candidate(charge.id, credit.id, Refund, AMOUNT_MISMATCH_CEILING))
  {
    var best := BestPair(charge.keywords, credit.keywords);
    BestPairMeans(charge.keywords, credit.keywords);
    assert charge.keywords[0] in charge.keywords && credit.keywords[0] in credit.keywords;
    assert best.paired && best.kind == Refund;
    assert ("CreditCard", "CAD") in ValidPairs(Refund);
    SameDayIsFullMarks(charge, credit, Refund);
  }

  /** The one pair of a two-row pool, scored. */
  lemma TwoRowProposals(a: Transaction, b: Transaction)
    requires Filter([a, b], Spoken([]), OpenAnchors([])) == [a, b] && MayPair(a, b, {})
    ensures Proposals([a, b], Spoken([]), OpenAnchors([]), {})
            == if ScorePair(a, b).Some? then [ScorePair(a, b).value] else []
  {
    PairWithSnoc(a, [], b, {});
    assert [] + [b] == [b];
    assert [a, b][1..] == [b] && [a, b][2..] == [];
    assert PairsUpTo([a, b], 1, {}) == PairsUpTo([a, b], 0, {}) + PairWith(a, [b], {});
    assert PairsUpTo([a, b], 2, {}) == PairsUpTo([a, b], 1, {}) + PairWith(b, [], {});
    assert AllPairs([a, b], {}) == [(a, b)];
    assert [(a, b)][1..] == [];
    assert ScoreAll([(a, b)]) == if ScorePair(a, b).Some? then [ScorePair(a, b).value] else [];
    if ScorePair(a, b).Some? {
      var c := ScorePair(a, b).value;
      assert [c][1..] == [];
      assert SortDesc([c], Confidence) == [c];
    }
  }
}
