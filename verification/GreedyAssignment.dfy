/**
 The highest-score-first assignment both linkers run. A transaction takes one link, except that the
 source of a refund stays open for more legs of the same group until their same-currency amounts
 would pass the amount it anchors.
 */
module GreedyAssignment {
  import opened Basics
  import opened Sorting
  import opened Transfers

  datatype Link = Link(candidate: Candidate, chain: Option<nat>, position: nat)

  /** `minted` counts the chain ids handed out so far: every number at or above it is fresh. */
  datatype State = State(
    links: seq<Link>,
    used: set<int>,
    anchors: map<int, LinkType>,
    anchorChain: map<int, nat>,
    claimed: map<int, real>,
    minted: nat
  )

  const START: State := State([], {}, map[], map[], map[], 0)

  function ClaimedBy(claimed: map<int, real>, anchor: int): real {
    if anchor in claimed then claimed[anchor] else 0.0
  }

  predicate SameCurrency(c: Candidate, ledger: Ledger)
    requires c.source in ledger && c.target in ledger
  {
    ledger[c.target].currency == ledger[c.source].currency
  }

  /** A leg whose rows are unknown is refused; a comparable leg must fit under its anchor's amount. */
  predicate CapRefuses(claimed: map<int, real>, c: Candidate, ledger: Ledger) {
    if c.source !in ledger || c.target !in ledger then true
    else SameCurrency(c, ledger) &&
         ClaimedBy(claimed, c.source) + Abs(ledger[c.target].amount) > Abs(ledger[c.source].amount) + FAN_OUT_TOLERANCE
  }

  predicate Blocked(s: State, c: Candidate, cap: Option<Ledger>) {
    || c.target in s.used || c.target in s.anchors
    || c.source in s.used
    || (c.source in s.anchors && s.anchors[c.source] != c.kind)
    || (FansOut(c.kind) && cap.Some? && CapRefuses(s.claimed, c, cap.value))
  }

  function CountChain(links: seq<Link>, id: nat): nat {
    if links == [] then 0
    else CountChain(links[..|links| - 1], id) + if links[|links| - 1].chain == Some(id) then 1 else 0
  }

  function Accept(s: State, c: Candidate, cap: Option<Ledger>): State
    requires !Blocked(s, c, cap)
  {
    if FansOut(c.kind) then
      var id := if c.source in s.anchorChain then s.anchorChain[c.source] else s.minted;
      var claimed :=
        if cap.Some? && SameCurrency(c, cap.value)
        then s.claimed[c.source := ClaimedBy(s.claimed, c.source) + Abs(cap.value[c.target].amount)]
        else s.claimed;
      State(s.links + [Link(c, Some(id), CountChain(s.links, id))], s.used + {c.target},
            s.anchors[c.source := c.kind], s.anchorChain[c.source := id], claimed, s.minted + 1)
    else
      State(s.links + [Link(c, None, 0)], s.used + {c.source, c.target},
            s.anchors, s.anchorChain, s.claimed, s.minted)
  }

  function Step(s: State, c: Candidate, cap: Option<Ledger>): State {
    if Blocked(s, c, cap) then s else Accept(s, c, cap)
  }

  /** The state after walking `cs` in order from `s`. */
  function Run(s: State, cs: seq<Candidate>, cap: Option<Ledger>): State {
    if cs == [] then s else Step(Run(s, cs[..|cs| - 1], cap), cs[|cs| - 1], cap)
  }

  function Assign(cs: seq<Candidate>, cap: Option<Ledger>): State {
    Run(START, cs, cap)
  }

  lemma RunSnoc(s: State, cs: seq<Candidate>, c: Candidate, cap: Option<Ledger>)
    ensures Run(s, cs + [c], cap) == Step(Run(s, cs, cap), c, cap)
  {
    assert (cs + [c])[..|cs|] == cs;
  }

  lemma AssignNext(cs: seq<Candidate>, i: nat, cap: Option<Ledger>)
    requires i < |cs|
    ensures Assign(cs[..i + 1], cap) == Step(Assign(cs[..i], cap), cs[i], cap)
  {
    assert cs[..i + 1] == cs[..i] + [cs[i]];
    RunSnoc(START, cs[..i], cs[i], cap);
  }

  lemma RunOne(s: State, c: Candidate, cap: Option<Ledger>)
    ensures Run(s, [c], cap) == Step(s, c, cap)
  {
    assert [] + [c] == [c];
    RunSnoc(s, [], c, cap);
  }

  // ---------------------------------------------------------------- what a set of links looks like

  function Pairs(links: seq<Link>): seq<Candidate> {
    seq(|links|, i requires 0 <= i < |links| => links[i].candidate)
  }

  ghost function Targets(links: seq<Link>): set<int> {
    set l <- links :: l.candidate.target
  }

  ghost function PlainSources(links: seq<Link>): set<int> {
    set l <- links | !FansOut(l.candidate.kind) :: l.candidate.source
  }

  ghost function AnchorSources(links: seq<Link>): set<int> {
    set l <- links | FansOut(l.candidate.kind) :: l.candidate.source
  }

  /** One link per target, no row on both sides, and several links only at a refund source. */
  ghost predicate Exclusive(links: seq<Link>) {
    && (forall i, j :: 0 <= i < j < |links| ==> links[i].candidate.target != links[j].candidate.target)
    && (forall i, j :: 0 <= i < |links| && 0 <= j < |links| ==> links[i].candidate.source != links[j].candidate.target)
    && (forall i, j :: 0 <= i < j < |links| && links[i].candidate.source == links[j].candidate.source ==>
          FansOut(links[i].candidate.kind) && FansOut(links[j].candidate.kind))
  }

  /** The legs of `anchor` that are in its own currency, added up. */
  function LegTotal(links: seq<Link>, anchor: int, ledger: Ledger): real {
    if links == [] then 0.0
    else
      var c := links[|links| - 1].candidate;
      LegTotal(links[..|links| - 1], anchor, ledger) +
      if c.source == anchor && FansOut(c.kind) && c.source in ledger && c.target in ledger && SameCurrency(c, ledger)
      then Abs(ledger[c.target].amount) else 0.0
  }

  function CountSource(links: seq<Link>, source: int): nat {
    if links == [] then 0
    else CountSource(links[..|links| - 1], source) + if links[|links| - 1].candidate.source == source then 1 else 0
  }

  /** A refund leg carries its anchor's chain id and its rank inside the group; any other link carries none. */
  ghost predicate Placed(links: seq<Link>, i: nat, anchorChain: map<int, nat>)
    requires i < |links|
  {
    var l := links[i];
    if FansOut(l.candidate.kind) then
      && l.candidate.source in anchorChain
      && l.chain == Some(anchorChain[l.candidate.source])
      && l.position == CountSource(links[..i], l.candidate.source)
    else l.chain == None && l.position == 0
  }

  /** Chain ids are already minted and name one anchor each. */
  ghost predicate Grouped(s: State) {
    && s.anchorChain.Keys == s.anchors.Keys
    && (forall a <- s.anchorChain :: s.anchorChain[a] < s.minted)
    && (forall a, b :: a in s.anchorChain && b in s.anchorChain && a != b ==> s.anchorChain[a] != s.anchorChain[b])
    && (forall i :: 0 <= i < |s.links| ==> Placed(s.links, i, s.anchorChain))
  }

  /** `used` and `anchors` say exactly which rows the links have taken, and in which role. */
  ghost predicate Recorded(s: State) {
    && s.used == Targets(s.links) + PlainSources(s.links)
    && s.anchors.Keys == AnchorSources(s.links)
    && (forall a <- s.anchors :: FansOut(s.anchors[a]))
  }

  /** `claimed` is each anchor's running leg total, and no total passes its anchor. */
  ghost predicate Tallied(s: State, ledger: Ledger) {
    && (forall a :: ClaimedBy(s.claimed, a) == LegTotal(s.links, a, ledger))
    && (forall a <- s.claimed ::
          a in ledger && a in s.anchors && s.claimed[a] <= Abs(ledger[a].amount) + FAN_OUT_TOLERANCE)
  }

  ghost predicate Sound(s: State, cap: Option<Ledger>) {
    Exclusive(s.links) && Recorded(s) && Grouped(s) && (cap.Some? ==> Tallied(s, cap.value))
  }

  lemma {:induction false} CountsAgree(links: seq<Link>, source: int, id: nat)
    requires forall l <- links :: l.chain == Some(id) <==> l.candidate.source == source
    ensures CountChain(links, id) == CountSource(links, source)
  {
    if links != [] {
      assert links[|links| - 1] in links;
      forall l <- links[..|links| - 1] ensures l in links {}
      CountsAgree(links[..|links| - 1], source, id);
    }
  }

  /** The source a link takes outright, or the one it keeps open. */
  ghost function PlainSource(l: Link): set<int> {
    if FansOut(l.candidate.kind) then {} else {l.candidate.source}
  }

  ghost function AnchorSource(l: Link): set<int> {
    if FansOut(l.candidate.kind) then {l.candidate.source} else {}
  }

  lemma LinksGrow(links: seq<Link>, l: Link)
    ensures Targets(links + [l]) == Targets(links) + {l.candidate.target}
    ensures PlainSources(links + [l]) == PlainSources(links) + PlainSource(l)
    ensures AnchorSources(links + [l]) == AnchorSources(links) + AnchorSource(l)
  {
  }

  lemma AcceptKeepsRecords(s: State, c: Candidate, cap: Option<Ledger>)
    requires Recorded(s) && !Blocked(s, c, cap)
    ensures Recorded(Accept(s, c, cap))
  {
    LinksGrow(s.links, Accept(s, c, cap).links[|s.links|]);
  }

  lemma LegTotalSnoc(links: seq<Link>, l: Link, anchor: int, ledger: Ledger)
    ensures var c := l.candidate;
            var comparable := c.source == anchor && FansOut(c.kind) && c.source in ledger && c.target in ledger
                              && SameCurrency(c, ledger);
            LegTotal(links + [l], anchor, ledger) ==
            LegTotal(links, anchor, ledger) + if comparable then Abs(ledger[c.target].amount) else 0.0
  {
    assert (links + [l])[..|links|] == links;
  }

  lemma AcceptKeepsTally(s: State, c: Candidate, ledger: Ledger)
    requires Tallied(s, ledger) && !Blocked(s, c, Some(ledger))
    ensures Tallied(Accept(s, c, Some(ledger)), ledger)
  {
    var t := Accept(s, c, Some(ledger));
    forall a ensures ClaimedBy(t.claimed, a) == LegTotal(t.links, a, ledger) {
      LegTotalSnoc(s.links, t.links[|s.links|], a, ledger);
      assert ClaimedBy(s.claimed, a) == LegTotal(s.links, a, ledger);
    }
  }

  /** The new leg's rank by chain id is its rank by source: the id belongs to that source alone. */
  lemma NewRank(s: State, c: Candidate, cap: Option<Ledger>)
    requires Recorded(s) && Grouped(s) && !Blocked(s, c, cap) && FansOut(c.kind)
    ensures Accept(s, c, cap).links[|s.links|].position == CountSource(s.links, c.source)
  {
    var id := Accept(s, c, cap).anchorChain[c.source];
    forall l <- s.links ensures l.chain == Some(id) <==> l.candidate.source == c.source {
      assert c.source !in PlainSources(s.links);
      var i :| 0 <= i < |s.links| && s.links[i] == l;
      assert Placed(s.links, i, s.anchorChain);
    }
    CountsAgree(s.links, c.source, id);
  }

  lemma AcceptKeepsGroups(s: State, c: Candidate, cap: Option<Ledger>)
    requires Recorded(s) && Grouped(s) && !Blocked(s, c, cap)
    ensures Grouped(Accept(s, c, cap))
  {
    var t := Accept(s, c, cap);
    if FansOut(c.kind) {
      NewRank(s, c, cap);
    }
    forall i | 0 <= i < |t.links| ensures Placed(t.links, i, t.anchorChain) {
      assert t.links[..i] == s.links[..i];
      if i < |s.links| {
        assert Placed(s.links, i, s.anchorChain) && t.links[i] == s.links[i];
      } else {
        assert s.links[..i] == s.links;
      }
    }
  }

  lemma AcceptKeepsExclusive(s: State, c: Candidate, cap: Option<Ledger>)
    requires Sound(s, cap) && !Blocked(s, c, cap) && c.source != c.target
    ensures Exclusive(Accept(s, c, cap).links)
  {
    forall l <- s.links
      ensures l.candidate.target != c.target && l.candidate.source != c.target && l.candidate.target != c.source
      ensures l.candidate.source == c.source ==> FansOut(l.candidate.kind) && FansOut(c.kind)
    {
      assert l.candidate.target in Targets(s.links);
      if FansOut(l.candidate.kind) {
        assert l.candidate.source in AnchorSources(s.links);
      } else {
        assert l.candidate.source in PlainSources(s.links);
      }
    }
  }

  lemma {:induction false} RunIsSound(cs: seq<Candidate>, cap: Option<Ledger>)
    requires forall c <- cs :: c.source != c.target
    ensures Sound(Assign(cs, cap), cap)
  {
    if cs != [] {
      var before := cs[..|cs| - 1];
      var c := cs[|cs| - 1];
      RunIsSound(before, cap);
      var s := Assign(before, cap);
      if !Blocked(s, c, cap) {
        AcceptKeepsRecords(s, c, cap);
        if cap.Some? {
          AcceptKeepsTally(s, c, cap.value);
        }
        AcceptKeepsGroups(s, c, cap);
        AcceptKeepsExclusive(s, c, cap);
      }
    }
  }
}
