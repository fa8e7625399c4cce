/** How the deterministic linker scores one pair of rows, and which pairs it scores at all. */
module LinkScoring {
  import opened Basics
  import opened Transfers

  const AUTO_APPROVE_THRESHOLD: real := 0.92
  const REVIEW_THRESHOLD: real := 0.55
  const AMOUNT_MISMATCH_CEILING: real := 0.85
  const FX_CAD_USD_MIN: real := 1.20
  const FX_CAD_USD_MAX: real := 1.55

  // ------------------------------------------------------------------------------------- amounts

  /** By what share the USD amount `t` misses what the CAD amount `s` comes to. */
  function MissFromCad(s: real, t: real, rate: real): real
    requires rate > 0.0 && t != 0.0
  {
    Abs(s / rate - t) / t
  }

  /** By what share the CAD amount `t` misses what the USD amount `s` comes to. */
  function MissFromUsd(s: real, t: real, rate: real): real
    requires t != 0.0
  {
    Abs(s * rate - t) / t
  }

  /** How far the target is from what the printed rate predicts, as a share of the target. */
  function RateDeviation(src: Transaction, tgt: Transaction, rate: real): real
    requires rate > 0.0
  {
    var s, t := Abs(src.amount), Abs(tgt.amount);
    if t == 0.0 then 1.0
    else if src.currency == CAD && tgt.currency == USD then MissFromCad(s, t, rate)
    else if src.currency == USD && tgt.currency == CAD then MissFromUsd(s, t, rate)
    else 1.0
  }

  predicate ImpliedRateInBand(src: Transaction, tgt: Transaction) {
    var s, t := Abs(src.amount), Abs(tgt.amount);
    && {src.currency, tgt.currency} == {CAD, USD}
    && s > 0.0 && t > 0.0
    && FX_CAD_USD_MIN <= Max(s, t) / Min(s, t) <= FX_CAD_USD_MAX
  }

  function ScoreAmount(src: Transaction, tgt: Transaction, rate: Option<real>): real {
    var gap := Abs(Abs(src.amount) - Abs(tgt.amount));
    if src.currency == tgt.currency then
      if gap == 0.0 then 1.0
      else if gap <= 0.01 then 0.98
      else if gap <= 0.50 then 0.85
      else if gap <= 2.00 then 0.60
      else 0.0
    else if rate.Some? && rate.value > 0.0 && RateDeviation(src, tgt, rate.value) <= 0.005 then 0.95
    else if rate.Some? && rate.value > 0.0 && RateDeviation(src, tgt, rate.value) <= 0.02 then 0.80
    else if ImpliedRateInBand(src, tgt) then 0.78
    else 0.0
  }

  // --------------------------------------------------------------------------------------- dates

  datatype Tier = Tier(days: int, score: real)

  function Tiers(kind: LinkType): seq<Tier> {
    match kind
    case CreditCardPayment => [Tier(0, 1.0), Tier(1, 0.95), Tier(2, 0.85), Tier(3, 0.70), Tier(5, 0.40), Tier(7, 0.15)]
    case FxConversion => [Tier(0, 1.0), Tier(1, 0.90), Tier(2, 0.60), Tier(3, 0.30)]
    case WiseTransfer =>
      [Tier(0, 1.0), Tier(1, 0.95), Tier(2, 0.90), Tier(3, 0.80), Tier(5, 0.60), Tier(7, 0.40), Tier(10, 0.15)]
    case Refund => [Tier(0, 1.0), Tier(3, 0.90), Tier(7, 0.75), Tier(14, 0.50), Tier(21, 0.25)]
    case _ => [Tier(0, 1.0), Tier(1, 0.90), Tier(2, 0.70), Tier(3, 0.40)]
  }

  function FirstTier(days: int, tiers: seq<Tier>): real {
    if tiers == [] then 0.0
    else if days <= tiers[0].days then tiers[0].score
    else FirstTier(days, tiers[1..])
  }

  function DaysApart(src: Transaction, tgt: Transaction): int {
    if src.day < tgt.day then tgt.day - src.day else src.day - tgt.day
  }

  function Window(kind: LinkType): int {
    match kind
    case CreditCardPayment => 7
    case InternalTransfer => 4
    case FxConversion => 3
    case WiseTransfer => 10
    case Refund => 21
    case _ => 14
  }

  // ------------------------------------------------------------------------------- account pairs

  function ValidPairs(kind: LinkType): set<(string, string)> {
    match kind
    case CreditCardPayment => {("CAD", "CreditCard"), ("USD", "CreditCard")}
    case InternalTransfer => {("CAD", "USD"), ("USD", "CAD")}
    case FxConversion => {("CAD", "USD"), ("USD", "CAD")}
    case WiseTransfer => {("CAD", "Wise"), ("USD", "Wise")}
    case Refund => {("CreditCard", "CAD"), ("CreditCard", "USD"), ("Wise", "CAD"), ("Wise", "USD")}
    case _ => {}
  }

  const TABLE_KINDS: seq<LinkType> := [CreditCardPayment, InternalTransfer, FxConversion, WiseTransfer, Refund, Other]

  predicate PairIsValidFor(src: Transaction, tgt: Transaction, kind: LinkType) {
    (src.account, tgt.account) in ValidPairs(kind) || (tgt.account, src.account) in ValidPairs(kind)
  }

  function ScoreAccountPair(src: Transaction, tgt: Transaction, kind: LinkType): real {
    if PairIsValidFor(src, tgt, kind) then 1.0
    else if exists k <- TABLE_KINDS :: k != kind && PairIsValidFor(src, tgt, k) then 0.50
    else 0.0
  }

  // ------------------------------------------------------------------------------------ keywords

  predicate Compatible(s: Keyword, t: Keyword) {
    s.kind == t.kind && s.isSource != t.isSource
  }

  datatype Best = Best(kind: LinkType, priority: int, paired: bool)

  function Consider(best: Best, s: Keyword, t: Keyword): Best {
    if !Compatible(s, t) then best
    else if s.priority + t.priority > best.priority then Best(s.kind, s.priority + t.priority, true)
    else best.(paired := true)
  }

  function AgainstTargets(best: Best, s: Keyword, ts: seq<Keyword>): Best {
    if ts == [] then best else Consider(AgainstTargets(best, s, ts[..|ts| - 1]), s, ts[|ts| - 1])
  }

  /** The best compatible pair of entries, sources outermost; ties keep the earlier pair. */
  function BestPair(ss: seq<Keyword>, ts: seq<Keyword>): Best {
    if ss == [] then Best(Other, 0, false)
    else AgainstTargets(BestPair(ss[..|ss| - 1], ts), ss[|ss| - 1], ts)
  }

  /** The first entry of highest priority. */
  function TopPriority(ks: seq<Keyword>): Keyword
    requires ks != []
  {
    if |ks| == 1 then ks[0]
    else
      var top := TopPriority(ks[..|ks| - 1]);
      if ks[|ks| - 1].priority > top.priority then ks[|ks| - 1] else top
  }

  datatype KeywordScore = KeywordScore(score: real, kind: LinkType)

  function KeywordEvidence(ss: seq<Keyword>, ts: seq<Keyword>): KeywordScore {
    var best := BestPair(ss, ts);
    if best.paired then KeywordScore(1.0, best.kind)
    else if ss + ts == [] then KeywordScore(0.15, Other)
    else KeywordScore(0.60, TopPriority(ss + ts).kind)
  }

  method ScoreKeywords(ss: seq<Keyword>, ts: seq<Keyword>) returns (r: KeywordScore)
    ensures r == KeywordEvidence(ss, ts)
  {
    if ss == [] && ts == [] {
      return KeywordScore(0.15, Other);
    }
    var bestKind, bestPriority, paired := Other, 0, false;
    for i := 0 to |ss|
      invariant Best(bestKind, bestPriority, paired) == BestPair(ss[..i], ts)
    {
      assert ss[..i + 1][..i] == ss[..i];
      for j := 0 to |ts|
        invariant Best(bestKind, bestPriority, paired) == AgainstTargets(BestPair(ss[..i], ts), ss[i], ts[..j])
      {
        assert ts[..j + 1][..j] == ts[..j];
        if ss[i].kind == ts[j].kind && ss[i].isSource != ts[j].isSource {
          paired := true;
          var combined := ss[i].priority + ts[j].priority;
          if combined > bestPriority {
            bestPriority := combined;
            bestKind := ss[i].kind;
          }
        }
      }
      assert ts[..|ts|] == ts;
    }
    assert ss[..|ss|] == ss;
    if paired {
      return KeywordScore(1.0, bestKind);
    }
    var all := ss + ts;
    var best := all[0];
    for i := 1 to |all|
      invariant best == TopPriority(all[..i])
    {
      assert all[..i + 1][..i] == all[..i];
      if all[i].priority > best.priority {
        best := all[i];
      }
    }
    assert all[..|all|] == all;
    return KeywordScore(0.60, best.kind);
  }

  lemma {:induction false} AgainstTargetsMeans(best: Best, s: Keyword, ts: seq<Keyword>)
    ensures var r := AgainstTargets(best, s, ts);
            && (r.paired <==> best.paired || exists t <- ts :: Compatible(s, t))
            && r.priority >= best.priority
            && (forall t <- ts :: Compatible(s, t) ==> s.priority + t.priority <= r.priority)
            && ((r.kind == best.kind && r.priority == best.priority) ||
                exists t <- ts :: Compatible(s, t) && s.kind == r.kind && s.priority + t.priority == r.priority)
  {
    if ts != [] {
      var n := |ts| - 1;
      AgainstTargetsMeans(best, s, ts[..n]);
      assert ts == ts[..n] + [ts[n]];
      var q := AgainstTargets(best, s, ts[..n]);
      if !(q.kind == best.kind && q.priority == best.priority) {
        var t :| t in ts[..n] && Compatible(s, t) && s.kind == q.kind && s.priority + t.priority == q.priority;
        assert t in ts;
      }
      assert ts[n] in ts;
    }
  }

  /** The pair of entries at these places, sources outermost. */
  ghost predicate NamesAt(ss: seq<Keyword>, ts: seq<Keyword>, i: nat, j: nat, kind: LinkType, priority: int) {
    && i < |ss| && j < |ts| && ss[i].kind == ts[j].kind == kind && ss[i].isSource != ts[j].isSource
    && ss[i].priority + ts[j].priority == priority
  }

  ghost predicate Earlier(a: nat, b: nat, i: nat, j: nat) {
    a < i || (a == i && b < j)
  }

  /** No pair of entries that names one type from opposite sides and stands before these places reaches `priority`. */
  ghost predicate NothingBefore(ss: seq<Keyword>, ts: seq<Keyword>, i: nat, j: nat, priority: int) {
    forall a: nat, b: nat :: a < |ss| && b < |ts| && Earlier(a, b, i, j)
      && ss[a].kind == ts[b].kind && ss[a].isSource != ts[b].isSource
      ==> ss[a].priority + ts[b].priority < priority
  }

  lemma {:induction false} FirstAgainstTargets(best: Best, ss: seq<Keyword>, i: nat, ts: seq<Keyword>, m: nat)
    requires i < |ss| && m <= |ts|
    ensures var r := AgainstTargets(best, ss[i], ts[..m]);
            r == best.(paired := r.paired) || (r.priority > best.priority && exists j: nat ::
              j < m && NamesAt(ss, ts, i, j, r.kind, r.priority)
              && forall b: nat :: b < j && Compatible(ss[i], ts[b]) ==> ss[i].priority + ts[b].priority < r.priority)
  {
    if m > 0 {
      var q := AgainstTargets(best, ss[i], ts[..m - 1]);
      FirstAgainstTargets(best, ss, i, ts, m - 1);
      AgainstTargetsMeans(best, ss[i], ts[..m - 1]);
      assert ts[..m][..m - 1] == ts[..m - 1];
      if Compatible(ss[i], ts[m - 1]) && ss[i].priority + ts[m - 1].priority > q.priority {
        assert NamesAt(ss, ts, i, m - 1, ss[i].kind, ss[i].priority + ts[m - 1].priority);
        forall b: nat | b < m - 1 && Compatible(ss[i], ts[b])
          ensures ss[i].priority + ts[b].priority < ss[i].priority + ts[m - 1].priority
        {
          assert ts[..m - 1][b] in ts[..m - 1];
        }
      }
    }
  }

  /** Some pair of entries names the movement from both sides, with the highest combined priority. */
  ghost predicate NamedFromBothSides(ss: seq<Keyword>, ts: seq<Keyword>, kind: LinkType, priority: int) {
    exists s <- ss, t <- ts :: Compatible(s, t) && s.kind == kind && s.priority + t.priority == priority
  }

  /**
   What the keyword loop finds: `paired` exactly when some compatible pair exists, and unless no pair
   has positive priority, the kind is that of a pair of maximal combined priority.
   */
  lemma {:induction false} BestPairMeans(ss: seq<Keyword>, ts: seq<Keyword>)
    ensures var r := BestPair(ss, ts);
            && (r.paired <==> exists s <- ss, t <- ts :: Compatible(s, t))
            && r.priority >= 0
            && (forall s <- ss, t <- ts :: Compatible(s, t) ==> s.priority + t.priority <= r.priority)
            && ((r.kind == Other && r.priority == 0) || NamedFromBothSides(ss, ts, r.kind, r.priority))
  {
    if ss != [] {
      var n := |ss| - 1;
      var s := ss[n];
      BestPairMeans(ss[..n], ts);
      AgainstTargetsMeans(BestPair(ss[..n], ts), s, ts);
      assert ss == ss[..n] + [s] && s in ss;
      var q, r := BestPair(ss[..n], ts), BestPair(ss, ts);
      if exists t <- ts :: Compatible(s, t) && s.kind == r.kind && s.priority + t.priority == r.priority {
        assert NamedFromBothSides(ss, ts, r.kind, r.priority);
      } else if NamedFromBothSides(ss[..n], ts, q.kind, q.priority) {
        var a, b :| a in ss[..n] && b in ts && Compatible(a, b) && a.kind == q.kind
            && a.priority + b.priority == q.priority;
        assert a in ss;
      }
    }
  }

  /** A pair that beats the best of the rows before beats all pairs before it. */
  lemma BeatsAllBefore(ss: seq<Keyword>, ts: seq<Keyword>, n: nat, j: nat, priority: int)
    requires n < |ss| && j < |ts| && BestPair(ss[..n], ts).priority < priority
    requires forall b: nat :: b < j && Compatible(ss[n], ts[b]) ==> ss[n].priority + ts[b].priority < priority
    ensures NothingBefore(ss, ts, n, j, priority)
  {
    BestPairMeans(ss[..n], ts);
    forall a: nat, b: nat | a < |ss| && b < |ts| && Earlier(a, b, n, j) && Compatible(ss[a], ts[b])
      ensures ss[a].priority + ts[b].priority < priority
    {
      if a < n {
        assert ss[..n][a] in ss[..n] && ts[b] in ts;
      }
    }
  }

  ghost predicate IsFirstBest(ss: seq<Keyword>, ts: seq<Keyword>, r: Best) {
    r.priority > 0 && exists i: nat, j: nat ::
      NamesAt(ss, ts, i, j, r.kind, r.priority) && NothingBefore(ss, ts, i, j, r.priority)
  }

  /** The type found is that of the first pair of highest priority; with no positive one it is the catch-all. */
  lemma {:induction false} BestPairIsFirst(ss: seq<Keyword>, ts: seq<Keyword>, n: nat)
    requires n <= |ss|
    ensures var r := BestPair(ss[..n], ts); (r.kind == Other && r.priority == 0) || IsFirstBest(ss, ts, r)
  {
    if n > 0 {
      var q, r := BestPair(ss[..n - 1], ts), BestPair(ss[..n], ts);
      BestPairIsFirst(ss, ts, n - 1);
      BestPairMeans(ss[..n - 1], ts);
      FirstAgainstTargets(q, ss, n - 1, ts, |ts|);
      assert ss[..n][..n - 1] == ss[..n - 1] && ts[..|ts|] == ts;
      if r.priority > q.priority {
        var j: nat :| j < |ts| && NamesAt(ss, ts, n - 1, j, r.kind, r.priority) && forall b: nat ::
            b < j && Compatible(ss[n - 1], ts[b]) ==> ss[n - 1].priority + ts[b].priority < r.priority;
        BeatsAllBefore(ss, ts, n - 1, j, r.priority);
      }
    }
  }

  /** Among the entries, `k` is the first of the highest priority. */
  ghost predicate FirstHighest(ks: seq<Keyword>, k: nat)
    requires k < |ks|
  {
    && (forall j :: 0 <= j < k ==> ks[j].priority < ks[k].priority)
    && (forall j :: k <= j < |ks| ==> ks[j].priority <= ks[k].priority)
  }

  lemma {:induction false} TopPriorityIsFirstHighest(ks: seq<Keyword>) returns (k: nat)
    requires ks != []
    ensures k < |ks| && ks[k] == TopPriority(ks) && FirstHighest(ks, k)
  {
    var n := |ks| - 1;
    k := 0;
    if n > 0 {
      k := TopPriorityIsFirstHighest(ks[..n]);
      assert ks[..n][k] == ks[k];
      forall j | 0 <= j < n ensures ks[j].priority <= ks[k].priority && (j < k ==> ks[j].priority < ks[k].priority) {
        assert ks[..n][j] == ks[j];
      }
      if ks[n].priority > ks[k].priority {
        k := n;
      }
    }
  }

  /** What the matches are worth when no type is named from both sides: the type of the strongest entry, if any. */
  lemma OneSidedEvidenceMeans(ss: seq<Keyword>, ts: seq<Keyword>)
    requires forall s <- ss, t <- ts :: !Compatible(s, t)
    ensures ss == [] && ts == [] ==> KeywordEvidence(ss, ts) == KeywordScore(0.15, Other)
    ensures ss != [] || ts != [] ==>
              exists k :: 0 <= k < |ss + ts| && FirstHighest(ss + ts, k)
                          && KeywordEvidence(ss, ts) == KeywordScore(0.60, (ss + ts)[k].kind)
  {
    BestPairMeans(ss, ts);
    if ss + ts != [] {
      var k := TopPriorityIsFirstHighest(ss + ts);
    }
  }

  // ------------------------------------------------------------------------------- the composite

  /** Link types a pair may be certain about. */
  predicate CertainKind(kind: LinkType) {
    kind in {CreditCardPayment, InternalTransfer, FxConversion, WiseTransfer}
  }

  /** The rate printed on the source's description, else the one printed on the target's. */
  function PrintedRate(src: Transaction, tgt: Transaction): Option<real> {
    if src.printedRate.Some? then src.printedRate else tgt.printedRate
  }

  /** A printed rate between different currencies makes the pair a conversion, unless it is a Wise transfer. */
  function KindOf(src: Transaction, tgt: Transaction): LinkType {
    var kind := KeywordEvidence(src.keywords, tgt.keywords).kind;
    if PrintedRate(src, tgt).Some? && src.currency != tgt.currency && kind != WiseTransfer then FxConversion else kind
  }

  function Composite(src: Transaction, tgt: Transaction): real {
    var kind := KindOf(src, tgt);
    0.45 * ScoreAmount(src, tgt, PrintedRate(src, tgt))
    + 0.25 * FirstTier(DaysApart(src, tgt), Tiers(kind))
    + 0.20 * KeywordEvidence(src.keywords, tgt.keywords).score
    + 0.10 * ScoreAccountPair(src, tgt, kind)
  }

  predicate CertainPair(src: Transaction, tgt: Transaction) {
    && CertainKind(KindOf(src, tgt))
    && ScoreAmount(src, tgt, PrintedRate(src, tgt)) == 1.0
    && KeywordEvidence(src.keywords, tgt.keywords).score == 1.0
    && ScoreAccountPair(src, tgt, KindOf(src, tgt)) == 1.0
  }

  function FinalScore(src: Transaction, tgt: Transaction): real {
    if CertainPair(src, tgt) then Max(Composite(src, tgt), AUTO_APPROVE_THRESHOLD)
    else if src.currency == tgt.currency && ScoreAmount(src, tgt, PrintedRate(src, tgt)) < 1.0
    then Min(Composite(src, tgt), AMOUNT_MISMATCH_CEILING)
    else Composite(src, tgt)
  }

  /** The candidate a pair becomes, with the debit row as its source; None when it is dropped. */
  function ScorePair(src: Transaction, tgt: Transaction): Option<Candidate> {
    if Composite(src, tgt) < REVIEW_THRESHOLD || DaysApart(src, tgt) > Window(KindOf(src, tgt)) then None
    else
      var (s, t) := if src.direction == Credit && tgt.direction == Debit then (tgt, src) else (src, tgt);
      Some(Candidate(s.id, t.id, KindOf(src, tgt), FinalScore(src, tgt)))
  }

  /** A rate printed between different currencies leaves two types only: a Wise transfer if the matches say so. */
  lemma PrintedRateMeansConversion(src: Transaction, tgt: Transaction)
    ensures var named := KeywordEvidence(src.keywords, tgt.keywords).kind;
            if src.currency != tgt.currency && (src.printedRate.Some? || tgt.printedRate.Some?)
            then KindOf(src, tgt) == if named == WiseTransfer then WiseTransfer else FxConversion
            else KindOf(src, tgt) == named
  {
  }

  /** The two accounts are these two, in either order. */
  predicate Between(src: Transaction, tgt: Transaction, a: string, b: string) {
    (src.account == a && tgt.account == b) || (src.account == b && tgt.account == a)
  }

  predicate BankAnd(src: Transaction, tgt: Transaction, other: string) {
    Between(src, tgt, "CAD", other) || Between(src, tgt, "USD", other)
  }

  /** Which accounts each type of link may join. */
  lemma ValidPairsMean(src: Transaction, tgt: Transaction)
    ensures PairIsValidFor(src, tgt, CreditCardPayment) <==> BankAnd(src, tgt, "CreditCard")
    ensures PairIsValidFor(src, tgt, InternalTransfer) <==> Between(src, tgt, "CAD", "USD")
    ensures PairIsValidFor(src, tgt, FxConversion) <==> Between(src, tgt, "CAD", "USD")
    ensures PairIsValidFor(src, tgt, WiseTransfer) <==> BankAnd(src, tgt, "Wise")
    ensures PairIsValidFor(src, tgt, Refund) <==> BankAnd(src, tgt, "CreditCard") || BankAnd(src, tgt, "Wise")
    ensures !PairIsValidFor(src, tgt, Other) && forall name :: !PairIsValidFor(src, tgt, Unlisted(name))
  {
  }

  /** An account pair of the wrong type is worth half, one that no type may join nothing. */
  lemma AccountScoreMeans(src: Transaction, tgt: Transaction, kind: LinkType)
    ensures var known :=
              Between(src, tgt, "CAD", "USD") || BankAnd(src, tgt, "CreditCard") || BankAnd(src, tgt, "Wise");
            ScoreAccountPair(src, tgt, kind) ==
            if PairIsValidFor(src, tgt, kind) then 1.0 else if known then 0.50 else 0.0
  {
    ValidPairsMean(src, tgt);
    assert Refund in TABLE_KINDS && InternalTransfer in TABLE_KINDS && CreditCardPayment in TABLE_KINDS;
    assert WiseTransfer in TABLE_KINDS;
  }

  /** What a distance in days is worth, type by type, and the last day on which a pair is proposed. */
  function DateTable(kind: LinkType, days: int): real {
    match kind
    case CreditCardPayment =>
      if days <= 0 then 1.0 else if days <= 1 then 0.95 else if days <= 2 then 0.85 else if days <= 3 then 0.70
      else if days <= 5 then 0.40 else if days <= 7 then 0.15 else 0.0
    case FxConversion =>
      if days <= 0 then 1.0 else if days <= 1 then 0.90 else if days <= 2 then 0.60 else if days <= 3 then 0.30 else 0.0
    case WiseTransfer =>
      if days <= 0 then 1.0 else if days <= 1 then 0.95 else if days <= 2 then 0.90 else if days <= 3 then 0.80
      else if days <= 5 then 0.60 else if days <= 7 then 0.40 else if days <= 10 then 0.15 else 0.0
    case Refund =>
      if days <= 0 then 1.0 else if days <= 3 then 0.90 else if days <= 7 then 0.75 else if days <= 14 then 0.50
      else if days <= 21 then 0.25 else 0.0
    case _ =>
      if days <= 0 then 1.0 else if days <= 1 then 0.90 else if days <= 2 then 0.70 else if days <= 3 then 0.40 else 0.0
  }

  /** The first tier the distance is within gives the score; past all of them it is zero. */
  lemma {:induction false} FirstTierIsFirst(days: int, tiers: seq<Tier>) returns (k: nat)
    ensures k <= |tiers| && (forall j :: 0 <= j < k ==> days > tiers[j].days)
    ensures k == |tiers| ==> FirstTier(days, tiers) == 0.0
    ensures k < |tiers| ==> days <= tiers[k].days && FirstTier(days, tiers) == tiers[k].score
  {
    if tiers == [] || days <= tiers[0].days {
      k := 0;
    } else {
      k := FirstTierIsFirst(days, tiers[1..]);
      assert forall j :: 0 <= j < k ==> tiers[j + 1] == tiers[1..][j];
      k := k + 1;
    }
  }

  /** The tier a distance falls in gives what the table says. */
  lemma TiersAreTheTable(kind: LinkType, days: int, k: nat)
    requires k < |Tiers(kind)| && days <= Tiers(kind)[k].days && (k > 0 ==> days > Tiers(kind)[k - 1].days)
    ensures DateTable(kind, days) == Tiers(kind)[k].score
  {
  }

  lemma PastTheTable(kind: LinkType, days: int)
    requires days > Tiers(kind)[|Tiers(kind)| - 1].days
    ensures DateTable(kind, days) == 0.0
  {
  }

  lemma DateScoreMeans(kind: LinkType, days: int)
    ensures FirstTier(days, Tiers(kind)) == DateTable(kind, days)
  {
    var k := FirstTierIsFirst(days, Tiers(kind));
    if k < |Tiers(kind)| {
      TiersAreTheTable(kind, days, k);
    } else {
      PastTheTable(kind, days);
    }
  }

  // ---------------------------------------------------------------------- what a high score means

  /** The two rows carry the same magnitude in the same currency. */
  predicate ExactSameCurrency(src: Transaction, tgt: Transaction) {
    src.currency == tgt.currency && Abs(src.amount) == Abs(tgt.amount)
  }

  predicate CadAndUsd(src: Transaction, tgt: Transaction) {
    (src.currency == CAD && tgt.currency == USD) || (src.currency == USD && tgt.currency == CAD)
  }

  /** The rate printed on the source's description, else the target's, if it is positive: CAD for one USD. */
  function RateBetween(src: Transaction, tgt: Transaction): Option<real> {
    match (src.printedRate, tgt.printedRate)
    case (Some(rate), _) => if rate > 0.0 then Some(rate) else None
    case (None, Some(rate)) => if rate > 0.0 then Some(rate) else None
    case (None, None) => None
  }

  /** The two magnitudes agree at the rate, up to a share of what the USD one is worth. */
  predicate AgreesInUsd(cad: real, usd: real, rate: real, share: real) {
    Abs(cad - rate * usd) <= share * (rate * usd)
  }

  /** The two magnitudes agree at the rate, up to a share of the CAD one. */
  predicate AgreesInCad(cad: real, usd: real, rate: real, share: real) {
    Abs(cad - rate * usd) <= share * cad
  }

  /** At the printed rate the CAD row and the USD row come to the same, up to a share of the target. */
  predicate RateReconciles(src: Transaction, tgt: Transaction, share: real) {
    && CadAndUsd(src, tgt) && Abs(tgt.amount) > 0.0
    && match RateBetween(src, tgt)
       case None => false
       case Some(rate) =>
         if src.currency == CAD then AgreesInUsd(Abs(src.amount), Abs(tgt.amount), rate, share)
         else AgreesInCad(Abs(tgt.amount), Abs(src.amount), rate, share)
  }

  lemma Scaled(x: real, y: real, k: real)
    requires k > 0.0
    ensures x <= y <==> x * k <= y * k
  {
    if x <= y {
      assert (y - x) * k >= 0.0;
    } else {
      assert (x - y) * k > 0.0;
    }
  }

  /** Scaling by a positive factor keeps magnitudes in proportion. */
  lemma ScaledAbs(x: real, k: real)
    requires k > 0.0
    ensures Abs(x * k) == Abs(x) * k
  {
  }

  lemma ShareOfTarget(gap: real, t: real, share: real)
    requires t > 0.0
    ensures Abs(gap) / t <= share <==> Abs(gap) <= share * t
  {
    assert Abs(gap) / t * t == Abs(gap);
    Scaled(Abs(gap) / t, share, t);
  }

  lemma MissScales(gap: real, t: real, rate: real, share: real)
    requires rate > 0.0
    ensures Abs(gap) <= share * t <==> Abs(gap * rate) <= share * (rate * t)
  {
    ScaledAbs(gap, rate);
    Scaled(Abs(gap), share * t, rate);
    assert share * t * rate == share * (rate * t);
  }

  lemma QuotientGap(s: real, t: real, rate: real)
    requires rate > 0.0
    ensures (s / rate - t) * rate == s - rate * t
  {
    assert s / rate * rate == s;
  }

  /** Dividing the CAD amount by the rate misses the USD one as the CAD amount misses the rate times it. */
  lemma MissFromCadMeans(s: real, t: real, rate: real, share: real)
    requires rate > 0.0 && t > 0.0
    ensures MissFromCad(s, t, rate) <= share <==> AgreesInUsd(s, t, rate, share)
  {
    QuotientGap(s, t, rate);
    ShareOfTarget(s / rate - t, t, share);
    MissScales(s / rate - t, t, rate, share);
  }

  lemma MissFromUsdMeans(s: real, t: real, rate: real, share: real)
    requires t > 0.0
    ensures MissFromUsd(s, t, rate) <= share <==> AgreesInCad(t, s, rate, share)
  {
    ShareOfTarget(s * rate - t, t, share);
    assert s * rate == rate * s;
  }

  /** What the deviation measures, in money; any other pair deviates by the whole target. */
  lemma DeviationMeans(src: Transaction, tgt: Transaction, share: real)
    requires RateBetween(src, tgt).Some? && share < 1.0
    ensures RateDeviation(src, tgt, RateBetween(src, tgt).value) <= share <==> RateReconciles(src, tgt, share)
  {
    if CadAndUsd(src, tgt) && Abs(tgt.amount) > 0.0 {
      if src.currency == CAD {
        MissFromCadMeans(Abs(src.amount), Abs(tgt.amount), RateBetween(src, tgt).value, share);
      } else {
        MissFromUsdMeans(Abs(src.amount), Abs(tgt.amount), RateBetween(src, tgt).value, share);
      }
    }
  }

  /** No rate reconciles the pair, and the two magnitudes stand in a ratio between 1.20 and 1.55. */
  predicate ImpliedByBand(src: Transaction, tgt: Transaction) {
    var s, t := Abs(src.amount), Abs(tgt.amount);
    && CadAndUsd(src, tgt) && s > 0.0 && t > 0.0
    && 1.20 * Min(s, t) <= Max(s, t) <= 1.55 * Min(s, t)
  }

  lemma RatioInBand(x: real, y: real)
    requires y > 0.0
    ensures 1.20 * y <= x <= 1.55 * y <==> 1.20 <= x / y <= 1.55
  {
    assert x / y * y == x;
    Scaled(1.20, x / y, y);
    Scaled(x / y, 1.55, y);
  }

  lemma CurrenciesAsSet(src: Transaction, tgt: Transaction)
    ensures {src.currency, tgt.currency} == {CAD, USD} <==> CadAndUsd(src, tgt)
  {
    if {src.currency, tgt.currency} == {CAD, USD} {
      assert CAD in {src.currency, tgt.currency} && USD in {src.currency, tgt.currency};
    }
  }

  lemma BandMeans(src: Transaction, tgt: Transaction)
    ensures ImpliedByBand(src, tgt) <==> ImpliedRateInBand(src, tgt)
  {
    CurrenciesAsSet(src, tgt);
    if Min(Abs(src.amount), Abs(tgt.amount)) > 0.0 {
      RatioInBand(Max(Abs(src.amount), Abs(tgt.amount)), Min(Abs(src.amount), Abs(tgt.amount)));
    }
  }

  lemma {:induction false} TierScores(days: int, tiers: seq<Tier>)
    requires forall t <- tiers :: 0.0 <= t.score <= 1.0
    ensures 0.0 <= FirstTier(days, tiers) <= 1.0
  {
    if tiers != [] {
      TierScores(days, tiers[1..]);
    }
  }

  lemma TiersInRange(kind: LinkType)
    ensures forall t <- Tiers(kind) :: 0.0 <= t.score <= 1.0
  {
  }

  lemma DateScoreRange(src: Transaction, tgt: Transaction)
    ensures 0.0 <= FirstTier(DaysApart(src, tgt), Tiers(KindOf(src, tgt))) <= 1.0
  {
    TiersInRange(KindOf(src, tgt));
    TierScores(DaysApart(src, tgt), Tiers(KindOf(src, tgt)));
  }

  lemma KeywordScoreRange(src: Transaction, tgt: Transaction)
    ensures KeywordEvidence(src.keywords, tgt.keywords).score in {0.15, 0.60, 1.0}
  {
  }

  lemma AccountScoreRange(src: Transaction, tgt: Transaction)
    ensures ScoreAccountPair(src, tgt, KindOf(src, tgt)) in {0.0, 0.50, 1.0}
  {
  }

  lemma AmountScoreRange(src: Transaction, tgt: Transaction)
    ensures ScoreAmount(src, tgt, PrintedRate(src, tgt)) in {0.0, 0.60, 0.78, 0.80, 0.85, 0.95, 0.98, 1.0}
  {
  }

  lemma PartScores(src: Transaction, tgt: Transaction)
    ensures 0.0 <= FirstTier(DaysApart(src, tgt), Tiers(KindOf(src, tgt))) <= 1.0
    ensures KeywordEvidence(src.keywords, tgt.keywords).score in {0.15, 0.60, 1.0}
    ensures ScoreAccountPair(src, tgt, KindOf(src, tgt)) in {0.0, 0.50, 1.0}
    ensures ScoreAmount(src, tgt, PrintedRate(src, tgt)) in {0.0, 0.60, 0.78, 0.80, 0.85, 0.95, 0.98, 1.0}
  {
    DateScoreRange(src, tgt);
    KeywordScoreRange(src, tgt);
    AccountScoreRange(src, tgt);
    AmountScoreRange(src, tgt);
  }

  /** Which amount score a pair gets, from the magnitudes, currencies and printed rates of its rows. */
  lemma AmountScoreMeans(src: Transaction, tgt: Transaction)
    ensures var score, gap := ScoreAmount(src, tgt, PrintedRate(src, tgt)), Abs(Abs(src.amount) - Abs(tgt.amount));
            var same := src.currency == tgt.currency;
            && (score == 1.0 <==> ExactSameCurrency(src, tgt))
            && (score == 0.98 <==> same && 0.0 < gap <= 0.01)
            && (score == 0.85 <==> same && 0.01 < gap <= 0.50)
            && (score == 0.60 <==> same && 0.50 < gap <= 2.00)
            && (score == 0.95 <==> !same && RateReconciles(src, tgt, 0.005))
            && (score == 0.80 <==> !same && RateReconciles(src, tgt, 0.02) && !RateReconciles(src, tgt, 0.005))
            && (score == 0.78 <==> !same && ImpliedByBand(src, tgt) && !RateReconciles(src, tgt, 0.02)
                                         && !RateReconciles(src, tgt, 0.005))
  {
    if src.currency != tgt.currency {
      if RateBetween(src, tgt).Some? {
        DeviationMeans(src, tgt, 0.005);
        DeviationMeans(src, tgt, 0.02);
      }
      BandMeans(src, tgt);
    }
  }

  /** A candidate's score is a review score at least and never passes one. */
  lemma ScoresStayInRange(src: Transaction, tgt: Transaction)
    requires ScorePair(src, tgt).Some?
    ensures 0.55 <= ScorePair(src, tgt).value.score <= 1.0
  {
    PartScores(src, tgt);
  }

  /** Only exact amounts, or a conversion reconciled by a printed rate, can reach auto-approval. */
  lemma AutoApprovalIsEarned(src: Transaction, tgt: Transaction)
    requires ScorePair(src, tgt).Some? && ScorePair(src, tgt).value.score >= AUTO_APPROVE_THRESHOLD
    ensures ExactSameCurrency(src, tgt) || RateReconciles(src, tgt, 0.005)
  {
    PartScores(src, tgt);
    AmountScoreMeans(src, tgt);
  }

  /** The days are no further apart than the type allows. */
  ghost predicate InTime(src: Transaction, tgt: Transaction) {
    var last := match KindOf(src, tgt)
      case FxConversion => 3
      case InternalTransfer => 4
      case CreditCardPayment => 7
      case WiseTransfer => 10
      case Refund => 21
      case _ => 14;
    -last <= src.day - tgt.day <= last
  }

  lemma InTimeMeans(src: Transaction, tgt: Transaction)
    ensures InTime(src, tgt) <==> DaysApart(src, tgt) <= Window(KindOf(src, tgt))
  {
  }

  /**
   The score of a pair: four parts by their weights, lifted to the auto-approval line for a certain pair and held
   below it for one currency and different sums. What each part is worth the lemmas above say.
   */
  lemma FinalScoreMeans(src: Transaction, tgt: Transaction)
    ensures var kind, gap := KindOf(src, tgt), if src.day < tgt.day then tgt.day - src.day else src.day - tgt.day;
            var parts := 0.45 * ScoreAmount(src, tgt, PrintedRate(src, tgt)) + 0.25 * DateTable(kind, gap)
                         + 0.20 * KeywordEvidence(src.keywords, tgt.keywords).score
                         + 0.10 * ScoreAccountPair(src, tgt, kind);
            FinalScore(src, tgt) ==
            if CertainPair(src, tgt) then (if parts < 0.92 then 0.92 else parts)
            else if src.currency == tgt.currency && Abs(src.amount) != Abs(tgt.amount) && parts > 0.85 then 0.85
            else parts
  {
    DateScoreMeans(KindOf(src, tgt), DaysApart(src, tgt));
    AmountScoreMeans(src, tgt);
    PartScores(src, tgt);
  }

  /** A pair is proposed exactly when those parts come to the review line and its days are in time. */
  lemma ProposedExactly(src: Transaction, tgt: Transaction)
    ensures ScorePair(src, tgt).Some? <==> Composite(src, tgt) >= 0.55 && InTime(src, tgt)
  {
    InTimeMeans(src, tgt);
  }

  /** A certain pair inside its date window is always proposed, and always above the auto-approval line. */
  lemma CertainPairsAreAutoApproved(src: Transaction, tgt: Transaction)
    requires CertainPair(src, tgt)
    ensures ScorePair(src, tgt).Some? <==> InTime(src, tgt)
    ensures ScorePair(src, tgt).Some? ==> ScorePair(src, tgt).value.score >= AUTO_APPROVE_THRESHOLD
  {
    PartScores(src, tgt);
  }

  /**
   What "certain" amounts to: the same sum in one currency, an account pair the type is defined for,
   and one entry on each row naming that very type from opposite sides.
   */
  lemma CertainPairMeans(src: Transaction, tgt: Transaction)
    ensures CertainPair(src, tgt) <==>
            && KindOf(src, tgt) in {CreditCardPayment, InternalTransfer, FxConversion, WiseTransfer}
            && ExactSameCurrency(src, tgt)
            && PairIsValidFor(src, tgt, KindOf(src, tgt))
            && (exists s <- src.keywords, t <- tgt.keywords ::
                s.kind == t.kind == KindOf(src, tgt) && s.isSource != t.isSource)
  {
    BestPairMeans(src.keywords, tgt.keywords);
    AmountScoreMeans(src, tgt);
    if CertainPair(src, tgt) {
      var best := BestPair(src.keywords, tgt.keywords);
      assert NamedFromBothSides(src.keywords, tgt.keywords, best.kind, best.priority);
    } else if s, t :| s in src.keywords && t in tgt.keywords && s.kind == t.kind == KindOf(src, tgt)
                      && s.isSource != t.isSource {
      assert Compatible(s, t);
    }
  }

  // ----------------------------------------------------------- pairs no keywords name from both sides

  /** Each row matches an entry, and the two entries name one type from opposite sides. */
  predicate NamedByBothLegs(src: Transaction, tgt: Transaction) {
    exists s <- src.keywords, t <- tgt.keywords :: s.kind == t.kind && s.isSource != t.isSource
  }

  lemma NamingIsFullEvidence(src: Transaction, tgt: Transaction)
    ensures KeywordEvidence(src.keywords, tgt.keywords).score == 1.0 <==> NamedByBothLegs(src, tgt)
  {
    BestPairMeans(src.keywords, tgt.keywords);
    if s, t :| s in src.keywords && t in tgt.keywords && s.kind == t.kind && s.isSource != t.isSource {
      assert Compatible(s, t);
    }
  }

  /** Only a same-day pair has full marks for its dates, and no pair is outside its window on that day. */
  lemma {:induction false} LaterTiersAreLower(days: int, tiers: seq<Tier>)
    requires forall t <- tiers :: t.score < 1.0
    ensures FirstTier(days, tiers) < 1.0
  {
    if tiers != [] && days > tiers[0].days {
      LaterTiersAreLower(days, tiers[1..]);
    }
  }

  lemma SameDayIsFullMarks(src: Transaction, tgt: Transaction, kind: LinkType)
    ensures FirstTier(DaysApart(src, tgt), Tiers(kind)) == 1.0 <==> DaysApart(src, tgt) == 0
  {
    LaterTiersAreLower(DaysApart(src, tgt), Tiers(kind)[1..]);
  }

  /**
   A pair that keywords do not name from both sides is still auto-approved exactly when one of its rows
   matches some entry, the sums are equal in one currency, the days are equal and the account pair is
   one the inferred type is defined for.
   */
  lemma UnnamedPairIsAutoApprovedExactly(src: Transaction, tgt: Transaction)
    requires !NamedByBothLegs(src, tgt)
    ensures (ScorePair(src, tgt).Some? && ScorePair(src, tgt).value.score >= AUTO_APPROVE_THRESHOLD) <==>
            && src.keywords + tgt.keywords != []
            && ExactSameCurrency(src, tgt)
            && src.day == tgt.day
            && PairIsValidFor(src, tgt, KindOf(src, tgt))
  {
    NamingIsFullEvidence(src, tgt);
    SameDayIsFullMarks(src, tgt, KindOf(src, tgt));
    PartScores(src, tgt);
    AmountScoreMeans(src, tgt);
  }

  /** What a pair scores for amount, dates and accounts alone. */
  function OtherEvidence(src: Transaction, tgt: Transaction): real {
    0.45 * ScoreAmount(src, tgt, PrintedRate(src, tgt))
    + 0.25 * FirstTier(DaysApart(src, tgt), Tiers(KindOf(src, tgt)))
    + 0.10 * ScoreAccountPair(src, tgt, KindOf(src, tgt))
  }

  /** And it is proposed at all exactly when, inside its window, the other evidence makes up for the keywords. */
  lemma UnnamedPairIsProposedExactly(src: Transaction, tgt: Transaction)
    requires !NamedByBothLegs(src, tgt)
    ensures ScorePair(src, tgt).Some? <==>
            && InTime(src, tgt)
            && OtherEvidence(src, tgt) >= if src.keywords + tgt.keywords == [] then 0.52 else 0.43
  {
    NamingIsFullEvidence(src, tgt);
    InTimeMeans(src, tgt);
  }

  /**
   For equal sums in one currency that comes down to the calendar: the whole window of the inferred type
   if either row matches an entry, and three days if neither does.
   */
  lemma UnnamedExactPairIsProposedExactly(src: Transaction, tgt: Transaction)
    requires !NamedByBothLegs(src, tgt) && ExactSameCurrency(src, tgt)
    ensures ScorePair(src, tgt).Some? <==>
            if src.keywords + tgt.keywords == [] then -3 <= src.day - tgt.day <= 3 else InTime(src, tgt)
  {
    UnnamedPairIsProposedExactly(src, tgt);
    PartScores(src, tgt);
    if src.keywords + tgt.keywords == [] {
      assert KindOf(src, tgt) == Other;
      ThreeDaysScore(DaysApart(src, tgt));
    }
  }

  lemma ThreeDaysScore(days: int)
    ensures FirstTier(days, Tiers(Other)) >= 0.40 <==> days <= 3
    ensures days > 3 ==> FirstTier(days, Tiers(Other)) == 0.0
  {
    var tail := [Tier(2, 0.70), Tier(3, 0.40)];
    assert FirstTier(days, tail[1..]) == if days <= 3 then 0.40 else 0.0;
    assert FirstTier(days, tail) == if days <= 2 then 0.70 else FirstTier(days, tail[1..]);
    assert Tiers(Other)[1..] == [Tier(1, 0.90)] + tail;
    assert Tiers(Other)[1..][1..] == tail;
  }

  /** One row that says it pays a card, and one that says nothing but is filed as a transfer, reach the line. */
  lemma OneSidedPairReachesTheLine(debit: Transaction, credit: Transaction)
    requires debit.account == "CAD" && credit.account == "CreditCard" && debit.day == credit.day
    requires ExactSameCurrency(debit, credit)
    requires |debit.keywords| == 1 && debit.keywords[0].kind == CreditCardPayment && credit.keywords == []
    ensures !NamedByBothLegs(debit, credit)
    ensures ScorePair(debit, credit).Some? && ScorePair(debit, credit).value.score == AUTO_APPROVE_THRESHOLD
  {
    NamingIsFullEvidence(debit, credit);
    assert debit.keywords + credit.keywords == debit.keywords;
    assert ("CAD", "CreditCard") in ValidPairs(CreditCardPayment);
    SameDayIsFullMarks(debit, credit, KindOf(debit, credit));
    AmountScoreMeans(debit, credit);
  }

  // ------------------------------------------------------------------------------------- rounding

  /** At most two decimals, and how many hundredths. */
  predicate Hundredths(x: real, n: int) {
    x * 100.0 == n as real
  }

  function TierHundredths(kind: LinkType): seq<int> {
    match kind
    case CreditCardPayment => [100, 95, 85, 70, 40, 15]
    case FxConversion => [100, 90, 60, 30]
    case WiseTransfer => [100, 95, 90, 80, 60, 40, 15]
    case Refund => [100, 90, 75, 50, 25]
    case _ => [100, 90, 70, 40]
  }

  lemma TiersAreHundredths(kind: LinkType, i: nat)
    requires i < |Tiers(kind)|
    ensures |TierHundredths(kind)| == |Tiers(kind)| && Hundredths(Tiers(kind)[i].score, TierHundredths(kind)[i])
  {
  }

  lemma {:induction false} FirstTierIsATier(days: int, tiers: seq<Tier>)
    ensures FirstTier(days, tiers) == 0.0 || exists i :: 0 <= i < |tiers| && FirstTier(days, tiers) == tiers[i].score
  {
    if tiers != [] && days > tiers[0].days {
      FirstTierIsATier(days, tiers[1..]);
      if FirstTier(days, tiers) != 0.0 {
        var i :| 0 <= i < |tiers[1..]| && FirstTier(days, tiers[1..]) == tiers[1..][i].score;
        assert tiers[i + 1] == tiers[1..][i];
      }
    }
  }

  lemma DateScoreHundredths(src: Transaction, tgt: Transaction) returns (n: int)
    ensures Hundredths(FirstTier(DaysApart(src, tgt), Tiers(KindOf(src, tgt))), n)
  {
    var tiers := Tiers(KindOf(src, tgt));
    FirstTierIsATier(DaysApart(src, tgt), tiers);
    n := 0;
    if FirstTier(DaysApart(src, tgt), tiers) != 0.0 {
      var i :| 0 <= i < |tiers| && FirstTier(DaysApart(src, tgt), tiers) == tiers[i].score;
      TiersAreHundredths(KindOf(src, tgt), i);
      n := TierHundredths(KindOf(src, tgt))[i];
    }
  }

  lemma KeywordScoreHundredths(src: Transaction, tgt: Transaction) returns (n: int)
    ensures Hundredths(KeywordEvidence(src.keywords, tgt.keywords).score, n)
  {
    KeywordScoreRange(src, tgt);
    var x := KeywordEvidence(src.keywords, tgt.keywords).score;
    n := if x == 1.0 then 100 else if x == 0.60 then 60 else 15;
  }

  lemma AccountScoreHundredths(src: Transaction, tgt: Transaction) returns (n: int)
    ensures Hundredths(ScoreAccountPair(src, tgt, KindOf(src, tgt)), n)
  {
    AccountScoreRange(src, tgt);
    var x := ScoreAccountPair(src, tgt, KindOf(src, tgt));
    n := if x == 1.0 then 100 else if x == 0.50 then 50 else 0;
  }

  lemma AmountScoreHundredths(src: Transaction, tgt: Transaction) returns (n: int)
    ensures Hundredths(ScoreAmount(src, tgt, PrintedRate(src, tgt)), n)
  {
    AmountScoreRange(src, tgt);
    var x := ScoreAmount(src, tgt, PrintedRate(src, tgt));
    n := if x == 1.0 then 100 else if x == 0.98 then 98 else if x == 0.95 then 95 else if x == 0.85 then 85
         else if x == 0.80 then 80 else if x == 0.78 then 78 else if x == 0.60 then 60 else 0;
  }

  lemma CompositeTenThousandths(src: Transaction, tgt: Transaction) returns (n: int)
    ensures Composite(src, tgt) * 10000.0 == n as real
  {
    var a := AmountScoreHundredths(src, tgt);
    var d := DateScoreHundredths(src, tgt);
    var k := KeywordScoreHundredths(src, tgt);
    var p := AccountScoreHundredths(src, tgt);
    n := 45 * a + 25 * d + 20 * k + 10 * p;
  }

  /** Every score has at most four decimals, so rounding it to four, as the linker does, leaves it as it is. */
  lemma ScoresHaveFourDecimals(src: Transaction, tgt: Transaction) returns (n: int)
    requires ScorePair(src, tgt).Some?
    ensures ScorePair(src, tgt).value.score * 10000.0 == n as real
  {
    n := CompositeTenThousandths(src, tgt);
    if CertainPair(src, tgt) {
      n := if n < 9200 then 9200 else n;
    } else if src.currency == tgt.currency && ScoreAmount(src, tgt, PrintedRate(src, tgt)) < 1.0 {
      n := if n > 8500 then 8500 else n;
    }
  }
}
