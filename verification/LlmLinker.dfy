/**
 The model-backed linker: batches of candidate pairs are asked about concurrently, each reply is cleaned
 on its own, and the cleaned evaluations go through the same greedy assignment in batch order.
 */
module LlmLinker {
  import opened Basics
  import opened Sorting
  import opened Transfers
  import opened GreedyAssignment
  import opened GreedyTheorems

  const LINK_THRESHOLD: real := 0.55
  const LLM_BATCH_SIZE: nat := 15
  const MAX_CANDIDATES_TOTAL: nat := 200

  // ------------------------------------------------------------------------------ cleaning a reply

  type PairId = (int, int)

  /** One entry of a reply: no pair id when it has none of the expected form, no factor when it is not a number. */
  datatype Entry =
    | NotAnObject
    | Entry(pair: Option<PairId>, factor: Option<real>, kind: Option<LinkType>, details: string)

  datatype Evaluation = Evaluation(pair: PairId, factor: real, kind: LinkType, details: string)

  function ValidKind(kind: Option<LinkType>): LinkType {
    if kind.None? || kind.value.Unlisted? then Other else kind.value
  }

  /** What one entry contributes: nothing unless it names a pair that was asked about and gives it a factor. */
  function Usable(e: Entry, valid: set<PairId>, ids: set<int>): Option<Evaluation> {
    match e
    case NotAnObject => None
    case Entry(pair, factor, kind, details) =>
      if pair.None? || pair.value !in valid || factor.None? then None
      else
        var (a, b) := pair.value;
        if a == b || a !in ids || b !in ids then None
        else Some(Evaluation(pair.value, Max(0.0, Min(1.0, factor.value)), ValidKind(kind), details))
  }

  function UsableOf(entries: seq<Entry>, valid: set<PairId>, ids: set<int>): seq<Evaluation> {
    if entries == [] then []
    else
      var before, last := UsableOf(entries[..|entries| - 1], valid, ids), Usable(entries[|entries| - 1], valid, ids);
      if last.Some? then before + [last.value] else before
  }

  /** Each pair once, in order of first appearance. */
  function FirstAppearances(evs: seq<Evaluation>): seq<PairId> {
    if evs == [] then []
    else
      var before := FirstAppearances(evs[..|evs| - 1]);
      var p := evs[|evs| - 1].pair;
      if p in before then before else before + [p]
  }

  /** The first evaluation of a pair that no other evaluation of the pair beats. */
  ghost predicate IsBestOf(evs: seq<Evaluation>, k: nat)
    requires k < |evs|
  {
    && (forall j :: 0 <= j < k && evs[j].pair == evs[k].pair ==> evs[j].factor < evs[k].factor)
    && (forall j :: k < j < |evs| && evs[j].pair == evs[k].pair ==> evs[j].factor <= evs[k].factor)
  }

  ghost predicate Best(evs: seq<Evaluation>, r: Evaluation) {
    exists k :: 0 <= k < |evs| && evs[k] == r && IsBestOf(evs, k)
  }

  function PairsOf(results: seq<Evaluation>): seq<PairId> {
    seq(|results|, i requires 0 <= i < |results| => results[i].pair)
  }

  /** One best evaluation per pair asked about, in order of first appearance. */
  ghost predicate Cleaned(evs: seq<Evaluation>, results: seq<Evaluation>) {
    && PairsOf(results) == FirstAppearances(evs)
    && (forall i, j :: 0 <= i < j < |results| ==> results[i].pair != results[j].pair)
    && (forall i :: 0 <= i < |results| ==> Best(evs, results[i]))
  }

  lemma {:induction false} AppearancesCover(evs: seq<Evaluation>)
    ensures forall p :: p in FirstAppearances(evs) <==> exists e <- evs :: e.pair == p
  {
    if evs != [] {
      var n := |evs| - 1;
      AppearancesCover(evs[..n]);
      forall p ensures p in FirstAppearances(evs) <==> exists e <- evs :: e.pair == p {
        if e :| e in evs && e.pair == p {
          assert e in evs[..n] || e == evs[n];
        }
        if p in FirstAppearances(evs) && p != evs[n].pair {
          var e :| e in evs[..n] && e.pair == p;
          assert e in evs;
        }
        assert evs[n] in evs;
      }
    }
  }

  /** A new evaluation of another pair, or one that does not beat the best, changes no best evaluation. */
  lemma BestSurvives(evs: seq<Evaluation>, e: Evaluation, r: Evaluation)
    requires Best(evs, r) && (e.pair == r.pair ==> e.factor <= r.factor)
    ensures Best(evs + [e], r)
  {
    var k :| 0 <= k < |evs| && evs[k] == r && IsBestOf(evs, k);
    assert (evs + [e])[k] == r && IsBestOf(evs + [e], k);
  }

  lemma NewBest(evs: seq<Evaluation>, e: Evaluation, r: Evaluation)
    requires Best(evs, r) && e.pair == r.pair && e.factor > r.factor
    ensures Best(evs + [e], e)
  {
    var k :| 0 <= k < |evs| && evs[k] == r && IsBestOf(evs, k);
    var more := evs + [e];
    forall j | 0 <= j < |evs| && more[j].pair == e.pair ensures more[j].factor < e.factor {
      assert evs[j].pair == evs[k].pair;
    }
    assert more[|evs|] == e && IsBestOf(more, |evs|);
  }

  lemma FirstOfItsPair(evs: seq<Evaluation>, e: Evaluation)
    requires e.pair !in FirstAppearances(evs)
    ensures Best(evs + [e], e)
  {
    AppearancesCover(evs);
    var more := evs + [e];
    forall j | 0 <= j < |evs| ensures more[j].pair != e.pair {
      assert evs[j] in evs;
    }
    assert more[|evs|] == e && IsBestOf(more, |evs|);
  }

  lemma PairsOfSnoc(results: seq<Evaluation>, e: Evaluation)
    ensures PairsOf(results + [e]) == PairsOf(results) + [e.pair]
  {
  }

  lemma NewPairIsNew(results: seq<Evaluation>, e: Evaluation)
    requires e.pair !in PairsOf(results)
    ensures forall i :: 0 <= i < |results| ==> results[i].pair != e.pair
  {
    forall i | 0 <= i < |results| ensures results[i].pair != e.pair {
      assert PairsOf(results)[i] == results[i].pair;
    }
  }

  lemma CleanedAppend(evs: seq<Evaluation>, results: seq<Evaluation>, e: Evaluation)
    requires Cleaned(evs, results) && e.pair !in PairsOf(results)
    ensures Cleaned(evs + [e], results + [e])
  {
    assert (evs + [e])[..|evs|] == evs;
    FirstOfItsPair(evs, e);
    NewPairIsNew(results, e);
    PairsOfSnoc(results, e);
    var more := results + [e];
    forall i | 0 <= i < |more| ensures Best(evs + [e], more[i]) {
      if i < |results| {
        BestSurvives(evs, e, results[i]);
      }
    }
  }

  lemma PairsOfReplaced(results: seq<Evaluation>, k: nat, e: Evaluation)
    requires k < |results| && results[k].pair == e.pair
    ensures PairsOf(results[k := e]) == PairsOf(results)
  {
  }

  /** A better evaluation of a pair takes the place of its best one. */
  lemma CleanedReplace(evs: seq<Evaluation>, results: seq<Evaluation>, e: Evaluation, k: nat)
    requires Cleaned(evs, results) && k < |results| && results[k].pair == e.pair && e.factor > results[k].factor
    ensures Cleaned(evs + [e], results[k := e])
  {
    PairSeenBefore(evs, results, e, k);
    PairsOfReplaced(results, k, e);
    var merged := results[k := e];
    forall i | 0 <= i < |merged| ensures Best(evs + [e], merged[i]) {
      if i == k {
        NewBest(evs, e, results[k]);
      } else {
        assert results[i].pair != e.pair;
        BestSurvives(evs, e, results[i]);
      }
    }
  }

  /** One that is no better changes nothing. */
  lemma CleanedIgnore(evs: seq<Evaluation>, results: seq<Evaluation>, e: Evaluation, k: nat)
    requires Cleaned(evs, results) && k < |results| && results[k].pair == e.pair && e.factor <= results[k].factor
    ensures Cleaned(evs + [e], results)
  {
    PairSeenBefore(evs, results, e, k);
    forall i | 0 <= i < |results| ensures Best(evs + [e], results[i]) {
      assert i == k || results[i].pair != e.pair;
      BestSurvives(evs, e, results[i]);
    }
  }

  lemma PairSeenBefore(evs: seq<Evaluation>, results: seq<Evaluation>, e: Evaluation, k: nat)
    requires Cleaned(evs, results) && k < |results| && results[k].pair == e.pair
    ensures FirstAppearances(evs + [e]) == FirstAppearances(evs)
  {
    assert (evs + [e])[..|evs|] == evs;
    assert PairsOf(results)[k] == e.pair;
  }

  /** Where the pair stands among the results. */
  method PlaceOf(results: seq<Evaluation>, pair: PairId) returns (k: nat)
    requires pair in PairsOf(results)
    ensures k < |results| && results[k].pair == pair
  {
    k := 0;
    while results[k].pair != pair
      invariant 0 <= k < |results|
      invariant pair in PairsOf(results)[k..]
      decreases |results| - k
    {
      assert PairsOf(results)[k] == results[k].pair;
      k := k + 1;
    }
  }

  // ------------------------------------------------------------------- cleaning, entry by entry

  /** An entry that names a pair asked about, of two different known rows, and gives it a factor. */
  predicate IsVerdict(e: Entry, asked: set<PairId>, ids: set<int>) {
    && e.Entry? && e.factor.Some?
    && e.pair.Some? && e.pair.value in asked
    && e.pair.value.0 != e.pair.value.1 && e.pair.value.0 in ids && e.pair.value.1 in ids
  }

  /** The model's own number, brought into the unit interval. */
  function Clamped(factor: real): real {
    if factor < 0.0 then 0.0 else if factor > 1.0 then 1.0 else factor
  }

  /** The result is this entry's verdict: its pair, its factor, its details, and its kind if that is a known one. */
  predicate Repeats(r: Evaluation, e: Entry) {
    && e.Entry? && e.pair == Some(r.pair) && e.details == r.details
    && e.factor.Some? && r.factor == Clamped(e.factor.value)
    && match e.kind
       case None => r.kind == Other
       case Some(kind) => r.kind == if kind.Unlisted? then Other else kind
  }

  /** Entry `k` is the first verdict on its pair that no other verdict on the pair beats. */
  ghost predicate FirstBest(entries: seq<Entry>, asked: set<PairId>, ids: set<int>, k: nat)
    requires k < |entries| && IsVerdict(entries[k], asked, ids)
  {
    forall j :: 0 <= j < |entries| && IsVerdict(entries[j], asked, ids) && entries[j].pair == entries[k].pair ==>
      && Clamped(entries[j].factor.value) <= Clamped(entries[k].factor.value)
      && (j < k ==> Clamped(entries[j].factor.value) < Clamped(entries[k].factor.value))
  }

  /** Every result repeats the first best verdict on its pair, and no pair with a verdict is without a result. */
  ghost predicate IsCleaning(entries: seq<Entry>, asked: set<PairId>, ids: set<int>, results: seq<Evaluation>) {
    && (forall r <- results :: exists k :: 0 <= k < |entries| && IsVerdict(entries[k], asked, ids)
                                           && Repeats(r, entries[k]) && FirstBest(entries, asked, ids, k))
    && (forall e <- entries :: IsVerdict(e, asked, ids) ==> exists r <- results :: Some(r.pair) == e.pair)
    && (forall i, j :: 0 <= i < j < |results| ==> results[i].pair != results[j].pair)
  }

  lemma UsableMeans(e: Entry, asked: set<PairId>, ids: set<int>)
    ensures Usable(e, asked, ids).Some? <==> IsVerdict(e, asked, ids)
    ensures Usable(e, asked, ids).Some? ==> Repeats(Usable(e, asked, ids).value, e)
  {
  }

  lemma UsableSnoc(entries: seq<Entry>, asked: set<PairId>, ids: set<int>, k: nat)
    requires k < |entries|
    ensures UsableOf(entries[..k + 1], asked, ids) ==
            UsableOf(entries[..k], asked, ids)
            + match Usable(entries[k], asked, ids) case None => [] case Some(e) => [e]
  {
    assert entries[..k + 1][..k] == entries[..k];
  }

  /** The usable entries among the first are the first of the usable ones. */
  lemma {:induction false} UsableGrows(entries: seq<Entry>, asked: set<PairId>, ids: set<int>, k: nat, n: nat)
    requires k <= n <= |entries|
    ensures UsableOf(entries[..k], asked, ids) <= UsableOf(entries[..n], asked, ids)
    decreases n
  {
    if k < n {
      UsableGrows(entries, asked, ids, k, n - 1);
      UsableSnoc(entries, asked, ids, n - 1);
    }
  }

  /** Where the evaluation of a verdict stands: after those of the entries before it. */
  lemma PlaceOfVerdict(entries: seq<Entry>, asked: set<PairId>, ids: set<int>, k: nat)
    requires k < |entries| && IsVerdict(entries[k], asked, ids)
    ensures var evs, i := UsableOf(entries, asked, ids), |UsableOf(entries[..k], asked, ids)|;
            i < |evs| && Some(evs[i]) == Usable(entries[k], asked, ids)
  {
    UsableMeans(entries[k], asked, ids);
    UsableSnoc(entries, asked, ids, k);
    UsableGrows(entries, asked, ids, k + 1, |entries|);
    assert entries[..|entries|] == entries;
  }

  lemma EarlierVerdictStandsEarlier(entries: seq<Entry>, asked: set<PairId>, ids: set<int>, j: nat, k: nat)
    requires j < k <= |entries| && IsVerdict(entries[j], asked, ids)
    ensures |UsableOf(entries[..j], asked, ids)| < |UsableOf(entries[..k], asked, ids)|
  {
    UsableMeans(entries[j], asked, ids);
    UsableSnoc(entries, asked, ids, j);
    UsableGrows(entries, asked, ids, j + 1, k);
  }

  /** Each evaluation comes from an entry. */
  lemma {:induction false} VerdictBehind(entries: seq<Entry>, asked: set<PairId>, ids: set<int>, n: nat, i: nat)
    returns (k: nat)
    requires n <= |entries| && i < |UsableOf(entries[..n], asked, ids)|
    ensures k < n && IsVerdict(entries[k], asked, ids) && i == |UsableOf(entries[..k], asked, ids)|
    decreases n
  {
    UsableSnoc(entries, asked, ids, n - 1);
    UsableMeans(entries[n - 1], asked, ids);
    if i < |UsableOf(entries[..n - 1], asked, ids)| {
      k := VerdictBehind(entries, asked, ids, n - 1, i);
    } else {
      k := n - 1;
    }
  }

  lemma BestIsFirstBest(entries: seq<Entry>, asked: set<PairId>, ids: set<int>, r: Evaluation) returns (k: nat)
    requires Best(UsableOf(entries, asked, ids), r)
    ensures k < |entries| && IsVerdict(entries[k], asked, ids)
    ensures Repeats(r, entries[k]) && FirstBest(entries, asked, ids, k)
  {
    var evs := UsableOf(entries, asked, ids);
    var i :| 0 <= i < |evs| && evs[i] == r && IsBestOf(evs, i);
    assert entries[..|entries|] == entries;
    k := VerdictBehind(entries, asked, ids, |entries|, i);
    PlaceOfVerdict(entries, asked, ids, k);
    UsableMeans(entries[k], asked, ids);
    forall j | 0 <= j < |entries| && IsVerdict(entries[j], asked, ids) && entries[j].pair == entries[k].pair
      ensures Clamped(entries[j].factor.value) <= Clamped(entries[k].factor.value)
      ensures j < k ==> Clamped(entries[j].factor.value) < Clamped(entries[k].factor.value)
    {
      var m := |UsableOf(entries[..j], asked, ids)|;
      PlaceOfVerdict(entries, asked, ids, j);
      UsableMeans(entries[j], asked, ids);
      assert evs[m].pair == evs[i].pair;
      if j < k {
        EarlierVerdictStandsEarlier(entries, asked, ids, j, k);
      } else if k < j {
        EarlierVerdictStandsEarlier(entries, asked, ids, k, j);
      }
    }
  }

  lemma VerdictHasResult(entries: seq<Entry>, asked: set<PairId>, ids: set<int>, results: seq<Evaluation>, e: Entry)
    requires Cleaned(UsableOf(entries, asked, ids), results) && e in entries && IsVerdict(e, asked, ids)
    ensures exists r <- results :: Some(r.pair) == e.pair
  {
    var evs := UsableOf(entries, asked, ids);
    var k :| 0 <= k < |entries| && entries[k] == e;
    PlaceOfVerdict(entries, asked, ids, k);
    UsableMeans(e, asked, ids);
    AppearancesCover(evs);
    var i := |UsableOf(entries[..k], asked, ids)|;
    assert evs[i] in evs && evs[i].pair in PairsOf(results);
    var m :| 0 <= m < |results| && PairsOf(results)[m] == evs[i].pair;
    assert results[m] in results;
  }

  lemma CleanedIsCleaning(entries: seq<Entry>, asked: set<PairId>, ids: set<int>, results: seq<Evaluation>)
    requires Cleaned(UsableOf(entries, asked, ids), results)
    ensures IsCleaning(entries, asked, ids, results)
  {
    forall r <- results
      ensures exists k :: 0 <= k < |entries| && IsVerdict(entries[k], asked, ids)
                          && Repeats(r, entries[k]) && FirstBest(entries, asked, ids, k)
    {
      var i :| 0 <= i < |results| && results[i] == r;
      assert Best(UsableOf(entries, asked, ids), results[i]);
      var k := BestIsFirstBest(entries, asked, ids, r);
    }
    forall e <- entries | IsVerdict(e, asked, ids) ensures exists r <- results :: Some(r.pair) == e.pair {
      VerdictHasResult(entries, asked, ids, results, e);
    }
  }

  method ParseResponse(entries: seq<Entry>, valid: set<PairId>, ids: set<int>) returns (results: seq<Evaluation>)
    ensures Cleaned(UsableOf(entries, valid, ids), results)
    // said of the reply's own entries
    ensures IsCleaning(entries, valid, ids, results)
  {
    results := [];
    var seen: set<PairId> := {};
    for i := 0 to |entries|
      invariant Cleaned(UsableOf(entries[..i], valid, ids), results)
      invariant forall p :: p in seen <==> p in PairsOf(results)
    {
      ghost var evs := UsableOf(entries[..i], valid, ids);
      assert entries[..i + 1][..i] == entries[..i];
      var usable := Usable(entries[i], valid, ids);
      if usable.None? {
        continue;
      }
      var e := usable.value;
      if e.pair in seen {
        var k := PlaceOf(results, e.pair);
        if e.factor > results[k].factor {
          CleanedReplace(evs, results, e, k);
          PairsOfReplaced(results, k, e);
          results := results[k := e];
        } else {
          CleanedIgnore(evs, results, e, k);
        }
        continue;
      }
      CleanedAppend(evs, results, e);
      PairsOfSnoc(results, e);
      seen := seen + {e.pair};
      results := results + [e];
    }
    assert entries[..|entries|] == entries;
    CleanedIsCleaning(entries, valid, ids, results);
  }

  /** Every usable evaluation is a pair that was asked about, between two known rows, scored in [0, 1]. */
  lemma {:induction false} UsableEvaluations(entries: seq<Entry>, valid: set<PairId>, ids: set<int>)
    ensures forall e <- UsableOf(entries, valid, ids) ::
              && e.pair in valid && e.pair.0 != e.pair.1 && e.pair.0 in ids && e.pair.1 in ids
              && 0.0 <= e.factor <= 1.0 && !e.kind.Unlisted?
  {
    if entries != [] {
      UsableEvaluations(entries[..|entries| - 1], valid, ids);
    }
  }

  /** `Cleaned` leaves no choice: a reply has one cleaned form. */
  lemma CleanedIsUnique(evs: seq<Evaluation>, r: seq<Evaluation>, q: seq<Evaluation>)
    requires Cleaned(evs, r) && Cleaned(evs, q)
    ensures r == q
  {
    assert |r| == |PairsOf(r)| == |PairsOf(q)| == |q|;
    forall i | 0 <= i < |r| ensures r[i] == q[i] {
      assert PairsOf(r)[i] == PairsOf(q)[i];
      var j :| 0 <= j < |evs| && evs[j] == r[i] && IsBestOf(evs, j);
      var k :| 0 <= k < |evs| && evs[k] == q[i] && IsBestOf(evs, k);
      assert evs[j].pair == evs[k].pair;
    }
  }

  // ------------------------------------------------------------------------------------ assignment

  function AsCandidate(e: Evaluation): Candidate {
    Candidate(e.pair.0, e.pair.1, e.kind, e.factor)
  }

  function Above(evs: seq<Evaluation>, threshold: real): seq<Candidate> {
    if evs == [] then []
    else Above(evs[..|evs| - 1], threshold)
         + if evs[|evs| - 1].factor >= threshold then [AsCandidate(evs[|evs| - 1])] else []
  }

  /** One candidate for each evaluation at or over the threshold, in order, with its rows, its kind and its factor. */
  ghost predicate IsPick(evs: seq<Evaluation>, threshold: real, picked: seq<Candidate>) {
    var kept := Select(evs, (e: Evaluation) => e.factor >= threshold);
    && |picked| == |kept|
    && forall i :: 0 <= i < |kept| ==> CarriesOver(kept[i], picked[i])
  }

  ghost predicate CarriesOver(e: Evaluation, c: Candidate) {
    c.source == e.pair.0 && c.target == e.pair.1 && c.kind == e.kind && c.score == e.factor
  }

  lemma {:induction false} AboveIsPick(evs: seq<Evaluation>, threshold: real)
    ensures IsPick(evs, threshold, Above(evs, threshold))
  {
    if evs != [] {
      var n := |evs| - 1;
      AboveIsPick(evs[..n], threshold);
      LastApart(evs);
      SelectSnoc(evs[..n], evs[n], (e: Evaluation) => e.factor >= threshold);
    }
  }

  /** What is picked are exactly the evaluations at or over the threshold. */
  lemma PickedExactly(evs: seq<Evaluation>, threshold: real)
    ensures forall c <- Above(evs, threshold) :: exists e <- evs :: CarriesOver(e, c) && e.factor >= threshold
    ensures forall e <- evs :: e.factor >= threshold ==> exists c <- Above(evs, threshold) :: CarriesOver(e, c)
  {
    var above, kept := Above(evs, threshold), Select(evs, (e: Evaluation) => e.factor >= threshold);
    AboveIsPick(evs, threshold);
    SelectMembers(evs, (e: Evaluation) => e.factor >= threshold);
    forall c <- above ensures exists e <- evs :: CarriesOver(e, c) && e.factor >= threshold {
      var i :| 0 <= i < |above| && above[i] == c;
      assert kept[i] in kept && CarriesOver(kept[i], c);
    }
    forall e <- evs | e.factor >= threshold ensures exists c <- above :: CarriesOver(e, c) {
      var i :| 0 <= i < |kept| && kept[i] == e;
      assert above[i] in above && CarriesOver(e, above[i]);
    }
  }

  /** A missing or empty ledger means no cap. */
  function CapFrom(ledger: Option<Ledger>): Option<Ledger> {
    if ledger.Some? && ledger.value != map[] then ledger else None
  }

  method KeepAbove(evs: seq<Evaluation>, threshold: real) returns (above: seq<Candidate>)
    ensures above == Above(evs, threshold) && IsPick(evs, threshold, above)
  {
    above := [];
    for i := 0 to |evs|
      invariant above == Above(evs[..i], threshold)
    {
      assert evs[..i + 1][..i] == evs[..i];
      if evs[i].factor >= threshold {
        above := above + [AsCandidate(evs[i])];
      }
    }
    assert evs[..|evs|] == evs;
    AboveIsPick(evs, threshold);
  }

  /** Claims a leg's amount against its anchor, unless it is not known or does not fit. */
  method ClaimLeg(claimed: map<int, real>, c: Candidate, rows: Ledger) returns (fits: bool, claims: map<int, real>)
    ensures fits == !CapRefuses(claimed, c, rows)
    ensures fits ==> claims == if SameCurrency(c, rows)
                               then claimed[c.source := ClaimedBy(claimed, c.source) + Abs(rows[c.target].amount)]
                                   else claimed
  {
    claims := claimed;
    if c.source !in rows || c.target !in rows {
      return false, claims;
    }
    if rows[c.target].currency == rows[c.source].currency {
      var sum := (if c.source in claimed then claimed[c.source] else 0.0) + Abs(rows[c.target].amount);
      if sum > Abs(rows[c.source].amount) + FAN_OUT_TOLERANCE {
        return false, claims;
      }
      claims := claimed[c.source := sum];
    }
    fits := true;
  }

  method AssignVerdicts(evs: seq<Evaluation>, threshold: real, ledger: Option<Ledger>) returns (accepted: seq<Link>)
    ensures accepted == Assign(SortDesc(Above(evs, threshold), Confidence), CapFrom(ledger)).links
    // a missing or empty ledger means no cap
    ensures ledger in {None, Some(map[])} ==>
              accepted == Assign(SortDesc(Above(evs, threshold), Confidence), None).links
    ensures ledger !in {None, Some(map[])} ==>
              accepted == Assign(SortDesc(Above(evs, threshold), Confidence), ledger).links
  {
    var above := KeepAbove(evs, threshold);
    var sorted := SortDesc(above, Confidence);
    accepted := [];
    var cap := CapFrom(ledger);
    var used: set<int> := {};
    var anchors: map<int, LinkType> := map[];
    var anchorChain: map<int, nat> := map[];
    var anchorClaimed: map<int, real> := map[];
    var minted: nat := 0;
    for i := 0 to |sorted|
      invariant State(accepted, used, anchors, anchorChain, anchorClaimed, minted) == Assign(sorted[..i], cap)
    {
      var c := sorted[i];
      AssignNext(sorted, i, cap);
      if c.target in used || c.target in anchors {
        continue;
      }
      if c.source in used {
        continue;
      }
      if c.source in anchors && anchors[c.source] != c.kind {
        continue;
      }
      if FansOut(c.kind) && cap.Some? {
        var fits, claims := ClaimLeg(anchorClaimed, c, cap.value);
        if !fits {
          continue;
        }
        anchorClaimed := claims;
      }
      var chain, position := None, 0;
      if FansOut(c.kind) {
        anchors := anchors[c.source := c.kind];
        if c.source !in anchorChain {
          anchorChain := anchorChain[c.source := minted];
        }
        minted := minted + 1;
        chain := Some(anchorChain[c.source]);
        position := CountChain(accepted, anchorChain[c.source]);
      } else {
        used := used + {c.source};
      }
      accepted := accepted + [Link(c, chain, position)];
      used := used + {c.target};
    }
    assert sorted[..|sorted|] == sorted;
  }

  // --------------------------------------------------------------------------------------- batching

  function Flatten<T>(xss: seq<seq<T>>): seq<T> {
    if xss == [] then [] else Flatten(xss[..|xss| - 1]) + xss[|xss| - 1]
  }

  method MakeBatches<T>(ranked: seq<T>) returns (candidates: seq<T>, batches: seq<seq<T>>)
    ensures candidates <= ranked && |candidates| == if |ranked| > 200 then 200 else |ranked|
    ensures Flatten(batches) == candidates
    ensures forall b :: 0 <= b < |batches| ==> 0 < |batches[b]| <= 15
    ensures forall b :: 0 <= b < |batches| - 1 ==> |batches[b]| == 15
  {
    candidates := if |ranked| > MAX_CANDIDATES_TOTAL then ranked[..MAX_CANDIDATES_TOTAL] else ranked;
    batches := [];
    var i := 0;
    while i < |candidates|
      invariant 0 <= i <= |candidates|
      invariant Flatten(batches) == candidates[..i]
      invariant i == LLM_BATCH_SIZE * |batches| || i == |candidates|
      invariant forall b :: 0 <= b < |batches| ==> 0 < |batches[b]| <= LLM_BATCH_SIZE
      invariant forall b ::
                0 <= b < |batches|
                ==> |batches[b]| == LLM_BATCH_SIZE || (b == |batches| - 1 && i == |candidates|)
    {
      var end := if i + LLM_BATCH_SIZE < |candidates| then i + LLM_BATCH_SIZE else |candidates|;
      ghost var before := batches;
      batches := batches + [candidates[i..end]];
      assert batches[..|before|] == before;
      assert candidates[..end] == candidates[..i] + candidates[i..end];
      i := end;
    }
  }

  // ------------------------------------------------------------------- concurrent batch collection

  datatype Outcome = Answered(parsed: seq<Evaluation>) | Failed

  /** A batch of `size` pairs, what the model makes of it, and whether the progress callback raises after an answer. */
  datatype Batch = Batch(size: nat, outcome: Outcome, callbackRaises: bool)

  datatype Phase = Queued | Stored | Counted | Finished

  datatype Shared = Shared(
    phases: seq<Phase>,
    slots: seq<seq<Evaluation>>,
    pairsEvaluated: nat,
    resultsSoFar: nat,
    failures: nat
  )

  function Initial(plan: seq<Batch>): Shared {
    Shared(seq(|plan|, _ => Queued), seq(|plan|, _ => []), 0, 0, 0)
  }

  ghost predicate Fits(plan: seq<Batch>, s: Shared) {
    |s.phases| == |s.slots| == |plan|
  }

  /** One atomic step of one worker: store the parsed reply, then count under the lock, then report. */
  function Advance(plan: seq<Batch>, s: Shared, b: nat): Shared
    requires Fits(plan, s) && b < |plan|
  {
    match s.phases[b]
    case Queued =>
      (match plan[b].outcome
       case Answered(parsed) => s.(phases := s.phases[b := Stored], slots := s.slots[b := parsed])
       case Failed =>
         s.(phases := s.phases[b := Finished], failures := s.failures + 1,
             pairsEvaluated := s.pairsEvaluated + plan[b].size))
    case Stored =>
      s.(phases := s.phases[b := Counted], pairsEvaluated := s.pairsEvaluated + plan[b].size,
         resultsSoFar := s.resultsSoFar + |s.slots[b]|)
    case Counted =>
      if plan[b].callbackRaises
      then s.(phases := s.phases[b := Finished], failures := s.failures + 1,
          pairsEvaluated := s.pairsEvaluated + plan[b].size)
      else s.(phases := s.phases[b := Finished])
    case Finished => s
  }

  predicate IsSchedule(plan: seq<Batch>, schedule: seq<nat>) {
    forall k :: 0 <= k < |schedule| ==> schedule[k] < |plan|
  }

  /** The shared state after the workers' steps have been interleaved as `schedule` says. */
  function Execute(plan: seq<Batch>, schedule: seq<nat>): (s: Shared)
    requires IsSchedule(plan, schedule)
    ensures Fits(plan, s)
  {
    if schedule == [] then Initial(plan)
    else Advance(plan, Execute(plan, schedule[..|schedule| - 1]), schedule[|schedule| - 1])
  }

  ghost predicate AllFinished(s: Shared) {
    forall b :: 0 <= b < |s.phases| ==> s.phases[b] == Finished
  }

  function Reply(batch: Batch): seq<Evaluation> {
    match batch.outcome case Answered(parsed) => parsed case Failed => []
  }

  /** What a serial loop over the batches would concatenate. */
  function Serial(plan: seq<Batch>): seq<Evaluation> {
    if plan == [] then [] else Serial(plan[..|plan| - 1]) + Reply(plan[|plan| - 1])
  }

  /** What batch `b` has added to the pair counter by the time it is in this phase. */
  function PairsDue(batch: Batch, phase: Phase): nat {
    match phase
    case Queued => 0
    case Stored => 0
    case Counted => batch.size
    case Finished => batch.size + if batch.outcome.Answered? && batch.callbackRaises then batch.size else 0
  }

  function FailuresDue(batch: Batch, phase: Phase): nat {
    if phase == Finished && (batch.outcome.Failed? || batch.callbackRaises) then 1 else 0
  }

  function Total(plan: seq<Batch>, phases: seq<Phase>, due: (Batch, Phase) -> nat): nat
    requires |plan| == |phases|
  {
    if plan == [] then 0
    else Total(plan[..|plan| - 1], phases[..|plan| - 1], due) + due(plan[|plan| - 1], phases[|plan| - 1])
  }

  lemma {:induction false} TotalUpdate(plan: seq<Batch>, phases: seq<Phase>, due: (Batch, Phase) -> nat, b: nat,
                                       phase: Phase)
    requires b < |plan| == |phases|
    ensures Total(plan, phases[b := phase], due) + due(plan[b], phases[b])
            == Total(plan, phases, due) + due(plan[b], phase)
  {
    var n := |plan| - 1;
    if b == n {
      assert phases[b := phase][..n] == phases[..n];
    } else {
      assert phases[b := phase][..n] == phases[..n][b := phase];
      TotalUpdate(plan[..n], phases[..n], due, b, phase);
    }
  }

  lemma {:induction false} TotalOfInitial(plan: seq<Batch>, phases: seq<Phase>, due: (Batch, Phase) -> nat)
    requires |plan| == |phases| && forall b :: 0 <= b < |plan| ==> due(plan[b], phases[b]) == 0
    ensures Total(plan, phases, due) == 0
  {
    if plan != [] {
      TotalOfInitial(plan[..|plan| - 1], phases[..|plan| - 1], due);
    }
  }

  /** What holds at every instant: slots belong to their batch, and the counters are the sum of what is due. */
  ghost predicate Consistent(plan: seq<Batch>, s: Shared) {
    && Fits(plan, s)
    && (forall b :: 0 <= b < |plan| ==> s.slots[b] == if s.phases[b] == Queued then [] else Reply(plan[b]))
    && (forall b :: 0 <= b < |plan| && plan[b].outcome.Failed? ==> s.phases[b] in {Queued, Finished})
    && s.pairsEvaluated == Total(plan, s.phases, PairsDue)
    && s.failures == Total(plan, s.phases, FailuresDue)
  }

  lemma StepKeepsCounters(plan: seq<Batch>, s: Shared, b: nat)
    requires Consistent(plan, s) && b < |plan|
    ensures var t := Advance(plan, s, b);
            t.pairsEvaluated == Total(plan, t.phases, PairsDue) && t.failures == Total(plan, t.phases, FailuresDue)
  {
    var t := Advance(plan, s, b);
    TotalUpdate(plan, s.phases, PairsDue, b, t.phases[b]);
    TotalUpdate(plan, s.phases, FailuresDue, b, t.phases[b]);
    assert t.phases == s.phases[b := t.phases[b]];
  }

  /** No worker's step, wherever it falls, disturbs another batch's slot or the counters. */
  lemma StepKeepsConsistent(plan: seq<Batch>, s: Shared, b: nat)
    requires Consistent(plan, s) && b < |plan|
    ensures Consistent(plan, Advance(plan, s, b))
  {
    StepKeepsCounters(plan, s, b);
  }

  lemma {:induction false} EveryInstantIsConsistent(plan: seq<Batch>, schedule: seq<nat>)
    requires IsSchedule(plan, schedule)
    ensures Consistent(plan, Execute(plan, schedule))
  {
    if schedule == [] {
      TotalOfInitial(plan, Initial(plan).phases, PairsDue);
      TotalOfInitial(plan, Initial(plan).phases, FailuresDue);
    } else {
      var n := |schedule| - 1;
      EveryInstantIsConsistent(plan, schedule[..n]);
      StepKeepsConsistent(plan, Execute(plan, schedule[..n]), schedule[n]);
    }
  }

  lemma {:induction false} SlotsConcatenateSerially(plan: seq<Batch>, slots: seq<seq<Evaluation>>)
    requires |slots| == |plan| && forall b :: 0 <= b < |plan| ==> slots[b] == Reply(plan[b])
    ensures Flatten(slots) == Serial(plan)
  {
    if plan != [] {
      SlotsConcatenateSerially(plan[..|plan| - 1], slots[..|plan| - 1]);
    }
  }

  predicate Raised(batch: Batch) {
    batch.outcome.Answered? && batch.callbackRaises
  }

  /** Adds up `weight` over the batches that satisfy `keep`. */
  function CountOver(plan: seq<Batch>, keep: Batch -> bool, weight: Batch -> nat): nat {
    if plan == [] then 0
    else CountOver(plan[..|plan| - 1], keep, weight) + if keep(plan[|plan| - 1]) then weight(plan[|plan| - 1]) else 0
  }

  function CandidateCount(plan: seq<Batch>): nat {
    CountOver(plan, _ => true, (b: Batch) => b.size)
  }

  function FailedCount(plan: seq<Batch>): nat {
    CountOver(plan, (b: Batch) => b.outcome.Failed?, _ => 1)
  }

  function RaisedPairs(plan: seq<Batch>): nat {
    CountOver(plan, Raised, (b: Batch) => b.size)
  }

  function RaisedCount(plan: seq<Batch>): nat {
    CountOver(plan, Raised, _ => 1)
  }

  lemma {:induction false} FinalTotals(plan: seq<Batch>, phases: seq<Phase>)
    requires |plan| == |phases| && forall b :: 0 <= b < |plan| ==> phases[b] == Finished
    ensures Total(plan, phases, PairsDue) == CandidateCount(plan) + RaisedPairs(plan)
    ensures Total(plan, phases, FailuresDue) == FailedCount(plan) + RaisedCount(plan)
  {
    if plan != [] {
      FinalTotals(plan[..|plan| - 1], phases[..|plan| - 1]);
    }
  }

  lemma {:induction false} NothingRaised(plan: seq<Batch>)
    requires forall batch <- plan :: batch.size > 0
    ensures RaisedPairs(plan) == 0 <==> forall batch <- plan :: !Raised(batch)
    ensures RaisedCount(plan) == 0 <==> forall batch <- plan :: !Raised(batch)
  {
    if plan != [] {
      var n := |plan| - 1;
      NothingRaised(plan[..n]);
      assert plan == plan[..n] + [plan[n]] && plan[n] in plan;
    }
  }

  /**
   Schedule independence: whatever the interleaving, once every batch has finished the collected
   evaluations are the serial concatenation, so the greedy assignment sees the same list.
   */
  lemma CollectionIsSerial(plan: seq<Batch>, schedule: seq<nat>)
    requires IsSchedule(plan, schedule) && AllFinished(Execute(plan, schedule))
    ensures Flatten(Execute(plan, schedule).slots) == Serial(plan)
  {
    EveryInstantIsConsistent(plan, schedule);
    SlotsConcatenateSerially(plan, Execute(plan, schedule).slots);
  }

  /** The candidates the greedy pass is given after a schedule. */
  function CollectedUnder(plan: seq<Batch>, schedule: seq<nat>): seq<Candidate>
    requires IsSchedule(plan, schedule)
  {
    SortDesc(Above(Flatten(Execute(plan, schedule).slots), LINK_THRESHOLD), Confidence)
  }

  /** The links accepted from what was collected under a schedule. */
  function LinksUnder(plan: seq<Batch>, schedule: seq<nat>, cap: Option<Ledger>): seq<Link>
    requires IsSchedule(plan, schedule)
  {
    Assign(CollectedUnder(plan, schedule), cap).links
  }

  lemma ScheduleDoesNotMatter(plan: seq<Batch>, one: seq<nat>, other: seq<nat>, cap: Option<Ledger>)
    requires IsSchedule(plan, one) && AllFinished(Execute(plan, one))
    requires IsSchedule(plan, other) && AllFinished(Execute(plan, other))
    ensures LinksUnder(plan, one, cap) == LinksUnder(plan, other, cap)
  {
    CollectionIsSerial(plan, one);
    CollectionIsSerial(plan, other);
  }

  /**
   At the end the pair counter is the number of candidates, and the failure counter the number of failed
   batches, exactly when no progress callback raised after its batch was answered: such a batch is
   counted twice, and counted as a failure although its reply is kept.
   */
  lemma CountersAtTheEnd(plan: seq<Batch>, schedule: seq<nat>)
    requires IsSchedule(plan, schedule) && AllFinished(Execute(plan, schedule))
    requires forall batch <- plan :: batch.size > 0
    ensures var s := Execute(plan, schedule);
            && (s.pairsEvaluated == CandidateCount(plan) <==> forall batch <- plan :: !Raised(batch))
            && (s.failures == FailedCount(plan) <==> forall batch <- plan :: !Raised(batch))
  {
    EveryInstantIsConsistent(plan, schedule);
    FinalTotals(plan, Execute(plan, schedule).phases);
    NothingRaised(plan);
  }

  // --------------------------------------------------------------------- the assignment's guarantees

  /** Evaluations that survived cleaning meet everything the greedy theorems ask for. */
  lemma VerdictAssignmentIsSound(evs: seq<Evaluation>, ledger: Option<Ledger>)
    requires forall e <- evs :: e.pair.0 != e.pair.1
    ensures var sorted := SortDesc(Above(evs, LINK_THRESHOLD), Confidence);
            && Sound(Assign(sorted, CapFrom(ledger)), CapFrom(ledger))
            && (forall c <- sorted ::
                Outranked(Assign(sorted, CapFrom(ledger)).links, c)
                || !FitsAlone(c, CapFrom(ledger)))
  {
    var above := Above(evs, LINK_THRESHOLD);
    PickedExactly(evs, LINK_THRESHOLD);
    SortDescIsStable(above, Confidence);
    SortDescKeepsElements(above, Confidence);
    RunIsSound(SortDesc(above, Confidence), CapFrom(ledger));
    AssignmentIsStable(SortDesc(above, Confidence), CapFrom(ledger));
  }

  // ------------------------------------------------------------------------- the whole verdict run

  /** A pair asked about, two different known rows, and a factor in [0, 1]. */
  predicate IsAnswer(e: Evaluation, asked: set<PairId>, ids: set<int>) {
    e.pair in asked && e.pair.0 != e.pair.1 && e.pair.0 in ids && e.pair.1 in ids && 0.0 <= e.factor <= 1.0
  }

  /** What the batch stores is some reply of the model to the pairs it asked about, cleaned; the reply is arbitrary. */
  ghost predicate StoresCleanReply(batch: Batch, asked: set<PairId>, ids: set<int>) {
    batch.outcome.Answered? ==>
      exists entries: seq<Entry> :: IsCleaning(entries, asked, ids, batch.outcome.parsed)
  }

  ghost predicate PlanIsClean(plan: seq<Batch>, asked: set<PairId>, ids: set<int>) {
    forall batch <- plan :: StoresCleanReply(batch, asked, ids)
  }

  lemma CleanReplyAnswers(batch: Batch, asked: set<PairId>, ids: set<int>)
    requires StoresCleanReply(batch, asked, ids)
    ensures forall e <- Reply(batch) :: IsAnswer(e, asked, ids)
  {
    if batch.outcome.Answered? {
      var entries: seq<Entry> :| IsCleaning(entries, asked, ids, batch.outcome.parsed);
      forall e <- batch.outcome.parsed ensures IsAnswer(e, asked, ids) {
        var k :| 0 <= k < |entries| && IsVerdict(entries[k], asked, ids) && Repeats(e, entries[k]);
      }
    }
  }

  lemma {:induction false} SerialAnswers(plan: seq<Batch>, asked: set<PairId>, ids: set<int>)
    requires PlanIsClean(plan, asked, ids)
    ensures forall e <- Serial(plan) :: IsAnswer(e, asked, ids)
  {
    if plan != [] {
      var n := |plan| - 1;
      assert plan[n] in plan && forall batch <- plan[..n] :: batch in plan;
      SerialAnswers(plan[..n], asked, ids);
      CleanReplyAnswers(plan[n], asked, ids);
    }
  }

  lemma {:induction false} SerialHoldsReplies(plan: seq<Batch>)
    ensures forall batch <- plan :: forall e <- Reply(batch) :: e in Serial(plan)
  {
    if plan != [] {
      var n := |plan| - 1;
      SerialHoldsReplies(plan[..n]);
      assert forall batch <- plan :: batch in plan[..n] || batch == plan[n];
    }
  }

  /** Nothing an answered batch stored is lost: at or over the threshold it is a candidate with its own factor. */
  ghost predicate AllCollected(plan: seq<Batch>, cs: seq<Candidate>) {
    forall batch <- plan :: batch.outcome.Answered? ==>
      forall e <- batch.outcome.parsed :: e.factor >= 0.55 ==> exists c <- cs :: CarriesOver(e, c)
  }

  ghost predicate StoredBy(batch: Batch, c: Candidate) {
    batch.outcome.Answered? && exists e <- batch.outcome.parsed :: e.factor >= 0.55 && CarriesOver(e, c)
  }

  /** Nothing is made up: each candidate is what some answered batch stored, at or over the threshold. */
  ghost predicate OnlyReplies(plan: seq<Batch>, cs: seq<Candidate>) {
    forall c <- cs :: exists batch <- plan :: StoredBy(batch, c)
  }

  lemma {:induction false} SerialHoldsOnlyReplies(plan: seq<Batch>)
    ensures forall e <- Serial(plan) :: exists batch <- plan :: batch.outcome.Answered? && e in batch.outcome.parsed
  {
    if plan != [] {
      var n := |plan| - 1;
      SerialHoldsOnlyReplies(plan[..n]);
      forall e <- Serial(plan)
        ensures exists batch <- plan :: batch.outcome.Answered? && e in batch.outcome.parsed
      {
        if e in Serial(plan[..n]) {
          var batch :| batch in plan[..n] && batch.outcome.Answered? && e in batch.outcome.parsed;
          assert batch in plan;
        } else {
          assert e in Reply(plan[n]) && plan[n] in plan;
        }
      }
    }
  }

  lemma CandidatesAreTheReplies(plan: seq<Batch>, schedule: seq<nat>)
    requires IsSchedule(plan, schedule) && AllFinished(Execute(plan, schedule))
    ensures AllCollected(plan, CollectedUnder(plan, schedule)) && OnlyReplies(plan, CollectedUnder(plan, schedule))
  {
    var evs := Serial(plan);
    CollectionIsSerial(plan, schedule);
    SerialHoldsReplies(plan);
    SerialHoldsOnlyReplies(plan);
    PickedExactly(evs, LINK_THRESHOLD);
    SortDescKeepsElements(Above(evs, LINK_THRESHOLD), Confidence);
    forall batch <- plan, e <- Reply(batch) | e.factor >= 0.55
      ensures exists c <- CollectedUnder(plan, schedule) :: CarriesOver(e, c)
    {
      var c :| c in Above(evs, LINK_THRESHOLD) && CarriesOver(e, c);
    }
    forall c <- CollectedUnder(plan, schedule)
      ensures exists batch <- plan :: StoredBy(batch, c)
    {
      var e :| e in evs && CarriesOver(e, c) && e.factor >= LINK_THRESHOLD;
      var batch :| batch in plan && batch.outcome.Answered? && e in batch.outcome.parsed;
      assert StoredBy(batch, c);
    }
  }

  lemma CollectedCandidates(plan: seq<Batch>, schedule: seq<nat>, asked: set<PairId>, ids: set<int>)
    requires IsSchedule(plan, schedule) && AllFinished(Execute(plan, schedule)) && PlanIsClean(plan, asked, ids)
    ensures SortedDesc(CollectedUnder(plan, schedule), Confidence)
    ensures forall c <- CollectedUnder(plan, schedule) ::
              && (c.source, c.target) in asked && c.source != c.target && c.source in ids && c.target in ids
              && LINK_THRESHOLD <= c.score <= 1.0
  {
    CollectionIsSerial(plan, schedule);
    SerialAnswers(plan, asked, ids);
    PickedExactly(Serial(plan), LINK_THRESHOLD);
    SortDescIsStable(Above(Serial(plan), LINK_THRESHOLD), Confidence);
    SortDescKeepsElements(Above(Serial(plan), LINK_THRESHOLD), Confidence);
  }

  /**
   The whole verdict run, for any replies of the model, any failures, any raising callbacks and any finished
   interleaving of the workers: the candidates are exactly the stored evaluations at or over the threshold,
   links join pairs that were asked about, are exclusive and stable, and no choice of disjoint candidates that
   fit alone is worth more than twice what was accepted.
   */
  lemma VerdictRunIsSound(plan: seq<Batch>, schedule: seq<nat>, asked: set<PairId>, ids: set<int>, cap: Option<Ledger>,
                          choice: seq<Candidate>)
    requires IsSchedule(plan, schedule) && AllFinished(Execute(plan, schedule)) && PlanIsClean(plan, asked, ids)
    requires Disjoint(choice) && forall c <- choice :: c in CollectedUnder(plan, schedule) && FitsAlone(c, cap)
    ensures var links := LinksUnder(plan, schedule, cap);
            && Exclusive(links)
            && (forall l <- links ::
                (l.candidate.source, l.candidate.target) in asked
                && l.candidate.score >= LINK_THRESHOLD)
            && AllCollected(plan, CollectedUnder(plan, schedule))
            && OnlyReplies(plan, CollectedUnder(plan, schedule))
            && (forall c <- CollectedUnder(plan, schedule) :: Outranked(links, c) || !FitsAlone(c, cap))
            && Sum(choice, Confidence) <= 2.0 * Sum(links, LinkScore)
  {
    var cs := CollectedUnder(plan, schedule);
    CollectedCandidates(plan, schedule, asked, ids);
    CandidatesAreTheReplies(plan, schedule);
    AssignmentIsExclusive(cs, cap);
    AssignmentIsStable(cs, cap);
    LinksAreCandidates(cs, cap);
    AssignmentIsHalfOptimal(cs, cap, choice);
  }
}
