/** What the greedy assignment guarantees about every list of scored candidates. */
module GreedyTheorems {
  import opened Basics
  import opened Sorting
  import opened Transfers
  import opened GreedyAssignment

  // ------------------------------------------------------------------ structure and conservation

  lemma AssignmentIsExclusive(cs: seq<Candidate>, cap: Option<Ledger>)
    requires forall c <- cs :: c.source != c.target
    ensures Exclusive(Assign(cs, cap).links)
  {
    RunIsSound(cs, cap);
  }

  /** The refund legs of an anchor that are in its own currency. */
  function ComparableLegs(anchor: int, ledger: Ledger): Link -> bool {
    (l: Link) =>
      && l.candidate.kind == Refund && l.candidate.source == anchor
      && anchor in ledger && l.candidate.target in ledger
      && ledger[l.candidate.target].currency == ledger[anchor].currency
  }

  function LegSize(ledger: Ledger): Link -> real {
    (l: Link) => if l.candidate.target in ledger then Abs(ledger[l.candidate.target].amount) else 0.0
  }

  lemma {:induction false} LegTotalIsSum(links: seq<Link>, anchor: int, ledger: Ledger)
    ensures LegTotal(links, anchor, ledger) == Sum(Select(links, ComparableLegs(anchor, ledger)), LegSize(ledger))
  {
    if links != [] {
      var n := |links| - 1;
      LegTotalIsSum(links[..n], anchor, ledger);
      LastApart(links);
      SelectSnoc(links[..n], links[n], ComparableLegs(anchor, ledger));
      SumSnoc(Select(links[..n], ComparableLegs(anchor, ledger)), links[n], LegSize(ledger));
    }
  }

  /** The same-currency legs of one anchor never add up to more than the anchor and a cent. */
  lemma AnchorsAreConserved(cs: seq<Candidate>, ledger: Ledger, anchor: int)
    requires forall c <- cs :: c.source != c.target
    ensures Sum(Select(Assign(cs, Some(ledger)).links, ComparableLegs(anchor, ledger)), LegSize(ledger))
            <= if anchor in ledger then Abs(ledger[anchor].amount) + 0.01 else 0.0
  {
    RunIsSound(cs, Some(ledger));
    var s := Assign(cs, Some(ledger));
    assert ClaimedBy(s.claimed, anchor) == LegTotal(s.links, anchor, ledger);
    LegTotalIsSum(s.links, anchor, ledger);
  }

  /** A leg whose row or whose anchor's row is not in the ledger is never linked. */
  lemma UnknownLegsAreNotLinked(cs: seq<Candidate>, ledger: Ledger, l: Link)
    requires (forall c <- cs :: c.source != c.target) && l in Assign(cs, Some(ledger)).links
    requires l.candidate.kind == Refund
    ensures l.candidate.source in ledger && l.candidate.target in ledger
  {
    var links := Assign(cs, Some(ledger)).links;
    var i :| 0 <= i < |links| && links[i] == l;
    assert Pairs(links)[i] == l.candidate;
    if !FitsAlone(l.candidate, Some(ledger)) {
      OversizedLegIsNeverLinked(cs, Some(ledger), l.candidate);
    }
  }

  /** Without a ledger there is no cap: two legs of one anchor are both linked, whatever their amounts. */
  lemma NoLedgerNoCap(c: Candidate, d: Candidate)
    requires c.kind == d.kind == Refund && c.source == d.source
    requires c.source != c.target && c.source != d.target && c.target != d.target
    ensures Pairs(Assign([c, d], None).links) == [c, d]
  {
    var s := Step(START, c, None);
    RunOne(START, c, None);
    RunSnoc(START, [c], d, None);
    assert [c] + [d] == [c, d];
    assert s.links == [Link(c, Some(0), 0)] && s.used == {c.target} && s.anchors == map[c.source := Refund];
    assert Step(s, d, None).links == s.links + [Link(d, Some(0), CountChain(s.links, 0))];
  }

  // ------------------------------------------------------------------------ stability, maximality

  lemma StepKeepsBlocked(s: State, d: Candidate, c: Candidate, cap: Option<Ledger>)
    requires Blocked(s, c, cap)
    ensures Blocked(Step(s, d, cap), c, cap)
  {
  }

  lemma AcceptedIsBlocked(s: State, c: Candidate, cap: Option<Ledger>)
    ensures Blocked(Step(s, c, cap), c, cap)
  {
  }

  /** Once the pass has seen a candidate, nothing can add it any more. */
  lemma {:induction false} EverythingSeenIsBlocked(cs: seq<Candidate>, cap: Option<Ledger>)
    ensures forall c <- cs :: Blocked(Assign(cs, cap), c, cap)
  {
    if cs != [] {
      var n := |cs| - 1;
      var s := Assign(cs[..n], cap);
      EverythingSeenIsBlocked(cs[..n], cap);
      forall c <- cs ensures Blocked(Step(s, cs[n], cap), c, cap) {
        if c in cs[..n] {
          StepKeepsBlocked(s, cs[n], c, cap);
        } else {
          assert c == cs[n];
          AcceptedIsBlocked(s, c, cap);
        }
      }
    }
  }

  /** The anchor has no room for this leg beside its others in its currency, or one of the rows is unknown. */
  ghost predicate NoRoom(links: seq<Link>, c: Candidate, ledger: Ledger) {
    || c.source !in ledger || c.target !in ledger
    || (ledger[c.source].currency == ledger[c.target].currency
        && Sum(Select(links, ComparableLegs(c.source, ledger)), LegSize(ledger)) + Abs(ledger[c.target].amount)
           > Abs(ledger[c.source].amount) + 0.01)
  }

  /**
   What keeps a candidate from being linked beside these links: its target is taken, its source is a target or is
   taken otherwise than by refunds beside this refund, or it is a refund its anchor has no room for.
   */
  ghost predicate Excluded(links: seq<Link>, c: Candidate, cap: Option<Ledger>) {
    || (exists l <- links :: l.candidate.target == c.target || l.candidate.source == c.target)
    || (exists l <- links :: l.candidate.target == c.source)
    || (exists l <- links :: l.candidate.source == c.source && !(l.candidate.kind == Refund && c.kind == Refund))
    || (c.kind == Refund && cap.Some? && NoRoom(links, c, cap.value))
  }

  lemma RowsMean(s: State, id: int)
    requires Recorded(s)
    ensures id in s.used <==>
            exists l <- s.links ::
              l.candidate.target == id || (l.candidate.source == id && l.candidate.kind != Refund)
    ensures id in s.anchors <==> exists l <- s.links :: l.candidate.source == id && l.candidate.kind == Refund
  {
    if id in Targets(s.links) {
      var l :| l in s.links && l.candidate.target == id;
    }
    if id in PlainSources(s.links) {
      var l :| l in s.links && l.candidate.source == id && l.candidate.kind != Refund;
    }
    if id in AnchorSources(s.links) {
      var l :| l in s.links && l.candidate.source == id && l.candidate.kind == Refund;
    }
  }

  lemma CapMeans(s: State, c: Candidate, ledger: Ledger)
    requires Tallied(s, ledger)
    ensures CapRefuses(s.claimed, c, ledger) <==> NoRoom(s.links, c, ledger)
  {
    LegTotalIsSum(s.links, c.source, ledger);
    assert ClaimedBy(s.claimed, c.source) == LegTotal(s.links, c.source, ledger);
  }

  lemma BlockedMeans(s: State, c: Candidate, cap: Option<Ledger>)
    requires Recorded(s) && (cap.Some? ==> Tallied(s, cap.value))
    ensures Blocked(s, c, cap) <==> Excluded(s.links, c, cap)
  {
    RowsMean(s, c.target);
    RowsMean(s, c.source);
    if cap.Some? {
      CapMeans(s, c, cap.value);
    }
  }

  /** The pass, said of links: a candidate is linked after those before it exactly when nothing excludes it. */
  lemma PassMeans(cs: seq<Candidate>, c: Candidate, cap: Option<Ledger>)
    requires forall d <- cs :: d.source != d.target
    ensures var before := Assign(cs, cap).links;
            Pairs(Assign(cs + [c], cap).links) ==
            if Excluded(before, c, cap) then Pairs(before) else Pairs(before) + [c]
  {
    RunIsSound(cs, cap);
    RunSnoc(START, cs, c, cap);
    BlockedMeans(Assign(cs, cap), c, cap);
  }

  /** Nothing is left out without cause: at the end every candidate is excluded, its own link aside or not. */
  lemma EveryCandidateIsExcluded(cs: seq<Candidate>, cap: Option<Ledger>)
    requires forall d <- cs :: d.source != d.target
    ensures forall c <- cs :: Excluded(Assign(cs, cap).links, c, cap)
  {
    RunIsSound(cs, cap);
    EverythingSeenIsBlocked(cs, cap);
    forall c <- cs ensures Excluded(Assign(cs, cap).links, c, cap) {
      BlockedMeans(Assign(cs, cap), c, cap);
    }
  }

  /** Maximality: offering any of the candidates again, in any order, changes nothing. */
  lemma {:induction false} AssignmentIsMaximal(cs: seq<Candidate>, again: seq<Candidate>, cap: Option<Ledger>)
    requires forall c <- again :: c in cs
    ensures Run(Assign(cs, cap), again, cap) == Assign(cs, cap)
  {
    EverythingSeenIsBlocked(cs, cap);
    if again != [] {
      AssignmentIsMaximal(cs, again[..|again| - 1], cap);
      assert again[|again| - 1] in again;
    }
  }

  /** A link that shares a row with `c` and scores at least as high. */
  ghost predicate Outranked(links: seq<Link>, c: Candidate) {
    exists l <- links :: Shares(l.candidate, c) && l.candidate.score >= c.score
  }

  ghost predicate RefusedByCap(s: State, c: Candidate, cap: Option<Ledger>) {
    FansOut(c.kind) && cap.Some? && CapRefuses(s.claimed, c, cap.value)
  }

  /**
   A refund leg fits under its anchor when it is the only leg: both rows are known, and in one currency the leg is
   no larger than the anchor and a cent. Every other candidate fits, and without a ledger every leg does.
   */
  predicate FitsAlone(c: Candidate, cap: Option<Ledger>) {
    c.kind == Refund && cap.Some? ==>
      && c.source in cap.value && c.target in cap.value
      && (cap.value[c.source].currency == cap.value[c.target].currency ==>
            Abs(cap.value[c.target].amount) <= Abs(cap.value[c.source].amount) + 0.01)
  }

  ghost predicate LinksComeFrom(links: seq<Link>, cs: seq<Candidate>) {
    forall l <- links :: l.candidate in cs
  }

  lemma {:induction false} LinksAreCandidates(cs: seq<Candidate>, cap: Option<Ledger>)
    ensures LinksComeFrom(Assign(cs, cap).links, cs)
  {
    if cs != [] {
      LinksAreCandidates(cs[..|cs| - 1], cap);
    }
  }

  /** A leg that fits alone but is refused by the cap shares its anchor with an earlier leg. */
  lemma RefusalMeansAnEarlierLeg(s: State, c: Candidate, cap: Option<Ledger>)
    requires Recorded(s) && (cap.Some? ==> Tallied(s, cap.value))
    requires RefusedByCap(s, c, cap) && FitsAlone(c, cap)
    ensures exists l <- s.links :: Shares(l.candidate, c)
  {
    assert ClaimedBy(s.claimed, c.source) > 0.0;
    assert c.source in s.anchors;
    var l :| l in s.links && l.candidate.source == c.source;
  }

  /** A candidate the pass turns away meets an earlier link on one of its rows, or is oversized. */
  lemma RejectionHasCause(s: State, c: Candidate, cap: Option<Ledger>)
    requires Sound(s, cap) && Blocked(s, c, cap)
    requires forall l <- s.links :: l.candidate.score >= c.score
    ensures Outranked(s.links, c) || !FitsAlone(c, cap)
  {
    if RefusedByCap(s, c, cap) {
      if FitsAlone(c, cap) {
        RefusalMeansAnEarlierLeg(s, c, cap);
      }
    } else {
      var id := if c.target in s.used || c.target in s.anchors then c.target else c.source;
      assert id in Targets(s.links) + PlainSources(s.links) + AnchorSources(s.links);
      var l :| l in s.links && Touches(l.candidate, id);
      assert Shares(l.candidate, c);
    }
  }

  lemma MoreLinksOutrankMore(links: seq<Link>, l: Link, c: Candidate)
    requires Outranked(links, c)
    ensures Outranked(links + [l], c)
  {
    var k :| k in links && Shares(k.candidate, c) && k.candidate.score >= c.score;
    assert k in links + [l];
  }

  lemma EarlierLinksScoreHigher(cs: seq<Candidate>, cap: Option<Ledger>)
    requires cs != [] && SortedDesc(cs, Confidence)
    ensures forall l <- Assign(cs[..|cs| - 1], cap).links :: l.candidate.score >= cs[|cs| - 1].score
  {
    var n := |cs| - 1;
    LinksAreCandidates(cs[..n], cap);
    forall l <- Assign(cs[..n], cap).links ensures l.candidate.score >= cs[n].score {
      var i :| 0 <= i < n && cs[i] == l.candidate;
      assert Confidence(cs[i]) >= Confidence(cs[n]);
    }
  }

  /**
   Stability: every candidate meets, on one of its rows, a link of equal or higher score (its own link
   if it was accepted). The only exception is a refund leg larger than its whole anchor.
   */
  lemma {:induction false} AssignmentIsStable(cs: seq<Candidate>, cap: Option<Ledger>)
    requires SortedDesc(cs, Confidence)
    requires forall c <- cs :: c.source != c.target
    ensures forall c <- cs :: Outranked(Assign(cs, cap).links, c) || !FitsAlone(c, cap)
  {
    if cs != [] {
      var n := |cs| - 1;
      var s, d := Assign(cs[..n], cap), cs[n];
      AssignmentIsStable(cs[..n], cap);
      RunIsSound(cs[..n], cap);
      EarlierLinksScoreHigher(cs, cap);
      forall c <- cs | FitsAlone(c, cap) ensures Outranked(Step(s, d, cap).links, c) {
        if Blocked(s, d, cap) {
          if c !in cs[..n] {
            RejectionHasCause(s, d, cap);
          }
        } else {
          var l := Accept(s, d, cap).links[|s.links|];
          assert Accept(s, d, cap).links == s.links + [l] && l in s.links + [l];
          if c in cs[..n] {
            MoreLinksOutrankMore(s.links, l, c);
          }
        }
      }
    }
  }

  // ------------------------------------------------------------------------------ half-optimality

  ghost predicate Disjoint(cs: seq<Candidate>) {
    forall i, j :: 0 <= i < j < |cs| ==> !Shares(cs[i], cs[j])
  }

  datatype End = End(id: int, weight: real)

  function Weight(e: End): real {
    e.weight
  }

  function LinkScore(l: Link): real {
    l.candidate.score
  }

  /** Each link puts its score on both of its rows. */
  function Ends(links: seq<Link>): seq<End> {
    if links == [] then []
    else var c := links[0].candidate; [End(c.source, c.score), End(c.target, c.score)] + Ends(links[1..])
  }

  lemma {:induction false} EndsWeighTwice(links: seq<Link>)
    ensures Sum(Ends(links), Weight) == 2.0 * Sum(links, LinkScore)
  {
    if links != [] {
      var c := links[0].candidate;
      EndsWeighTwice(links[1..]);
      SumConcat([End(c.source, c.score), End(c.target, c.score)], Ends(links[1..]), Weight);
      assert [End(c.source, c.score), End(c.target, c.score)][1..] == [End(c.target, c.score)];
    }
  }

  lemma {:induction false} EndsCover(links: seq<Link>, l: Link)
    requires l in links
    ensures End(l.candidate.source, l.candidate.score) in Ends(links)
    ensures End(l.candidate.target, l.candidate.score) in Ends(links)
  {
    var c := links[0].candidate;
    var front := [End(c.source, c.score), End(c.target, c.score)];
    if links[0] == l {
      assert front[0] in front && front[1] in front;
    } else {
      EndsCover(links[1..], l);
    }
  }

  lemma {:induction false} EndsAreNonNegative(links: seq<Link>)
    requires forall l <- links :: l.candidate.score >= 0.0
    ensures forall e <- Ends(links) :: Weight(e) >= 0.0
  {
    if links != [] {
      assert links[0] in links;
      EndsAreNonNegative(links[1..]);
    }
  }

  ghost predicate Charges(c: Candidate, ends: seq<End>) {
    exists e <- ends :: Touches(c, e.id) && e.weight >= c.score
  }

  /** Disjoint candidates can each be charged to an end of their own. */
  lemma {:induction false} ChargeEach(cs: seq<Candidate>, ends: seq<End>)
    requires Disjoint(cs)
    requires forall c <- cs :: Charges(c, ends)
    requires forall e <- ends :: Weight(e) >= 0.0
    ensures Sum(cs, Confidence) <= Sum(ends, Weight)
  {
    if cs == [] {
      SumNonNegative(ends, Weight);
    } else {
      assert cs[0] in cs;
      var e :| e in ends && Touches(cs[0], e.id) && e.weight >= cs[0].score;
      var i :| 0 <= i < |ends| && ends[i] == e;
      var rest := ends[..i] + ends[i + 1..];
      forall c <- cs[1..] ensures Charges(c, rest) {
        var k :| 1 <= k < |cs| && cs[k] == c;
        assert !Shares(cs[0], cs[k]);
        assert Charges(c, ends);
        var f :| f in ends && Touches(c, f.id) && f.weight >= c.score;
        assert f.id != e.id;
        var j :| 0 <= j < |ends| && ends[j] == f;
        assert j != i;
        assert f == rest[if j < i then j else j - 1];
      }
      SumWithout(ends, i, Weight);
      ChargeEach(cs[1..], rest);
    }
  }

  /**
   Half-optimality: no choice of scored candidates that share no row beats twice the accepted total,
   as long as every refund leg in the choice fits under its anchor on its own.
   */
  lemma AssignmentIsHalfOptimal(cs: seq<Candidate>, cap: Option<Ledger>, choice: seq<Candidate>)
    requires SortedDesc(cs, Confidence)
    requires forall c <- cs :: c.source != c.target && c.score >= 0.0
    requires Disjoint(choice)
    requires forall c <- choice :: c in cs && FitsAlone(c, cap)
    ensures Sum(choice, Confidence) <= 2.0 * Sum(Assign(cs, cap).links, LinkScore)
  {
    var links := Assign(cs, cap).links;
    AssignmentIsStable(cs, cap);
    LinksAreCandidates(cs, cap);
    forall c <- choice ensures Charges(c, Ends(links)) {
      var l :| l in links && Shares(l.candidate, c) && l.candidate.score >= c.score;
      EndsCover(links, l);
    }
    EndsAreNonNegative(links);
    ChargeEach(choice, Ends(links));
    EndsWeighTwice(links);
  }

  /** A list without refunds needs no condition on amounts. */
  lemma PlainAssignmentIsHalfOptimal(cs: seq<Candidate>, cap: Option<Ledger>, choice: seq<Candidate>)
    requires SortedDesc(cs, Confidence)
    requires forall c <- cs :: c.source != c.target && c.score >= 0.0 && !FansOut(c.kind)
    requires Disjoint(choice) && forall c <- choice :: c in cs
    ensures Sum(choice, Confidence) <= 2.0 * Sum(Assign(cs, cap).links, LinkScore)
  {
    AssignmentIsHalfOptimal(cs, cap, choice);
  }

  /** A leg that does not fit alone is refused in every state, whatever else is on the list. */
  lemma {:induction false} OversizedLegIsNeverLinked(cs: seq<Candidate>, cap: Option<Ledger>, c: Candidate)
    requires forall d <- cs :: d.source != d.target
    requires !FitsAlone(c, cap)
    ensures c !in Pairs(Assign(cs, cap).links)
  {
    if cs != [] {
      var s, d := Assign(cs[..|cs| - 1], cap), cs[|cs| - 1];
      OversizedLegIsNeverLinked(cs[..|cs| - 1], cap, c);
      RunIsSound(cs[..|cs| - 1], cap);
      if !Blocked(s, d, cap) {
        assert ClaimedBy(s.claimed, d.source) >= 0.0 by {
          LegTotalIsNonNegative(s.links, d.source, if cap.Some? then cap.value else map[]);
          if d.source in s.claimed {
            assert ClaimedBy(s.claimed, d.source) == LegTotal(s.links, d.source, cap.value);
          }
        }
        assert d != c;
        assert Pairs(Accept(s, d, cap).links) == Pairs(s.links) + [d];
      }
    }
  }

  lemma {:induction false} LegTotalIsNonNegative(links: seq<Link>, anchor: int, ledger: Ledger)
    ensures LegTotal(links, anchor, ledger) >= 0.0
  {
    if links != [] {
      LegTotalIsNonNegative(links[..|links| - 1], anchor, ledger);
    }
  }

  /** So the condition matters: a lone oversized leg scores, whatever its score is, and nothing at all is linked. */
  lemma OversizedLegDefeatsTheBound(c: Candidate, ledger: Ledger)
    requires c.score > 0.0 && !FitsAlone(c, Some(ledger))
    ensures Sum([c], Confidence) > 2.0 * Sum(Assign([c], Some(ledger)).links, LinkScore)
  {
    RunOne(START, c, Some(ledger));
    assert Sum([c], Confidence) == c.score + Sum<Candidate>([], Confidence);
  }

  // ----------------------------------------------------------------- when exactly the bound is safe

  /** No choice of candidates that share no row beats twice what the pass accepts. */
  ghost predicate BoundHolds(cs: seq<Candidate>, cap: Option<Ledger>) {
    forall choice: seq<Candidate> ::
      Disjoint(choice) && (forall c <- choice :: c in cs) ==>
        Sum(choice, Confidence) <= 2.0 * Sum(Assign(cs, cap).links, LinkScore)
  }

  ghost predicate BoundHoldsOver(all: seq<Candidate>, cap: Option<Ledger>) {
    forall cs: seq<Candidate> ::
      SortedDesc(cs, Confidence) && (forall c <- cs :: c in all) ==> BoundHolds(cs, cap)
  }

  ghost function Fitting(choice: seq<Candidate>, cap: Option<Ledger>): seq<Candidate> {
    if choice == [] then []
    else (if FitsAlone(choice[0], cap) then [choice[0]] else []) + Fitting(choice[1..], cap)
  }

  /** Leaving out worthless candidates keeps a choice's worth. */
  lemma {:induction false} FittingKeepsWorth(choice: seq<Candidate>, cap: Option<Ledger>)
    requires Disjoint(choice)
    requires forall c <- choice :: c.score >= 0.0 && (c.score > 0.0 ==> FitsAlone(c, cap))
    ensures Sum(Fitting(choice, cap), Confidence) == Sum(choice, Confidence)
    ensures forall c <- Fitting(choice, cap) :: c in choice && FitsAlone(c, cap)
    ensures Disjoint(Fitting(choice, cap))
  {
    if choice != [] {
      var rest := Fitting(choice[1..], cap);
      assert choice[0] in choice;
      FittingKeepsWorth(choice[1..], cap);
      if FitsAlone(choice[0], cap) {
        assert ([choice[0]] + rest)[1..] == rest;
        forall j | 0 <= j < |rest| ensures !Shares(choice[0], rest[j]) {
          assert rest[j] in rest;
          var k :| 1 <= k < |choice| && choice[k] == rest[j];
        }
      } else {
        assert Fitting(choice, cap) == rest;
      }
    }
  }

  lemma FittingMeansBound(cs: seq<Candidate>, cap: Option<Ledger>)
    requires SortedDesc(cs, Confidence)
    requires forall c <- cs :: c.source != c.target && c.score >= 0.0 && (c.score > 0.0 ==> FitsAlone(c, cap))
    ensures BoundHolds(cs, cap)
  {
    forall choice: seq<Candidate> | Disjoint(choice) && (forall c <- choice :: c in cs)
      ensures Sum(choice, Confidence) <= 2.0 * Sum(Assign(cs, cap).links, LinkScore)
    {
      FittingKeepsWorth(choice, cap);
      AssignmentIsHalfOptimal(cs, cap, Fitting(choice, cap));
    }
  }

  /**
   The bound holds for every sorted list drawn from some candidates exactly when each of them that has a
   positive score fits under its anchor alone.
   */
  lemma BoundHoldsExactly(all: seq<Candidate>, cap: Option<Ledger>)
    requires forall c <- all :: c.source != c.target && c.score >= 0.0
    ensures BoundHoldsOver(all, cap) <==> forall c <- all :: c.score > 0.0 ==> FitsAlone(c, cap)
  {
    if forall c <- all :: c.score > 0.0 ==> FitsAlone(c, cap) {
      forall cs: seq<Candidate> | SortedDesc(cs, Confidence) && (forall c <- cs :: c in all)
        ensures BoundHolds(cs, cap)
      {
        FittingMeansBound(cs, cap);
      }
    } else {
      var c :| c in all && c.score > 0.0 && !FitsAlone(c, cap);
      OversizedLegDefeatsTheBound(c, cap.value);
      assert SortedDesc([c], Confidence) && Disjoint([c]) && forall d <- [c] :: d in [c] && d in all;
      assert !BoundHolds([c], cap);
    }
  }

  /** And the factor two is exact: the first of three tied candidates can cost the other two. */
  lemma HalfIsTight(c: Candidate, d: Candidate, e: Candidate)
    requires !FansOut(c.kind) && !FansOut(d.kind) && !FansOut(e.kind)
    requires c.source == d.source && c.target == e.target && c.score == d.score == e.score
    requires c.source != c.target && d.target != e.source && d.source != e.source && d.target != e.target
    ensures Disjoint([d, e])
    ensures Sum([d, e], Confidence) == 2.0 * Sum(Assign([c, d, e], None).links, LinkScore)
  {
    RunOne(START, c, None);
    RunSnoc(START, [c], d, None);
    RunSnoc(START, [c] + [d], e, None);
    assert [c] + [d] + [e] == [c, d, e];
    assert Assign([c, d, e], None).links == [Link(c, None, 0)];
    assert [d, e][1..] == [e];
    assert Sum([d, e], Confidence) == d.score + Sum([e], Confidence);
    assert Sum([e], Confidence) == e.score;
  }
}
