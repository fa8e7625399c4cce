/**
 The batched reading of a long receipt: one call per page batch, one sharper second call for a batch that
 read nothing, at most two sharper calls to settle the grand total, and a merge that flags whatever a
 human must look at. The model answering the calls is arbitrary.
 */
module ReceiptReader {
  import opened Basics
  import opened ReceiptClaims

  const RECEIPT_TOTAL_VERIFY_MAX_CALLS: nat := 2

  /** `dpi` is the stamp the rules read; `imageDpi` is what the page images held by the batch really are. */
  class ReceiptBatch {
    const index: nat
    const firstPage: nat
    const lastPage: nat
    const imageDpi: nat
    const hasSource: bool
    var dpi: nat

    constructor (index: nat, firstPage: nat, lastPage: nat, dpi: nat, hasSource: bool)
      ensures this.index == index && this.firstPage == firstPage && this.lastPage == lastPage
      ensures this.imageDpi == dpi && this.dpi == dpi && this.hasSource == hasSource
    {
      this.index, this.firstPage, this.lastPage := index, firstPage, lastPage;
      this.imageDpi, this.dpi, this.hasSource := dpi, dpi, hasSource;
    }
  }

  datatype Ask = Ask(index: nat, pixels: nat)

  /** A provider answers its n-th call as it likes, or fails; rendering pages again may fail too. */
  class Provider {
    const replies: nat -> Option<Reply>
    const renderable: nat -> bool
    var asked: seq<Ask>
    var renderings: nat

    constructor (replies: nat -> Option<Reply>, renderable: nat -> bool)
      ensures this.replies == replies && this.renderable == renderable && asked == [] && renderings == 0
    {
      this.replies, this.renderable, asked, renderings := replies, renderable, [], 0;
    }

    method Call(index: nat, pixels: nat) returns (r: Option<Reply>)
      modifies this
      ensures asked == old(asked) + [Ask(index, pixels)] && renderings == old(renderings)
      ensures r == AnswerTo(replies(|old(asked)|), pixels)
    {
      r := AnswerTo(replies(|asked|), pixels);
      asked := asked + [Ask(index, pixels)];
    }

    method Render() returns (ok: bool)
      modifies this
      ensures asked == old(asked) && ok == renderable(old(renderings))
    {
      ok := renderable(renderings);
      renderings := renderings + 1;
    }
  }

  /** The answer to a call whose images were rendered at `pixels`. */
  function AnswerTo(r: Option<Reply>, pixels: nat): Option<Reply> {
    if r.Some? then Some(r.value.(pixels := pixels)) else None
  }

  datatype Pair = Pair(batch: ReceiptBatch, reply: Reply)

  function AsReading(p: Pair): Reading
    reads p.batch
  {
    Reading(p.batch.index, p.batch.lastPage, p.batch.dpi, p.reply)
  }

  function ReadingsOf(pairs: seq<Pair>): (rs: seq<Reading>)
    reads (set p <- pairs :: p.batch)
    ensures |rs| == |pairs| && forall k :: 0 <= k < |rs| ==> rs[k] == AsReading(pairs[k])
  {
    if pairs == [] then [] else [AsReading(pairs[0])] + ReadingsOf(pairs[1..])
  }

  ghost function Stamps(batches: seq<ReceiptBatch>): (stamps: seq<nat>)
    reads batches
    ensures |stamps| == |batches| && forall k :: 0 <= k < |batches| ==> stamps[k] == batches[k].dpi
  {
    seq(|batches|, k requires 0 <= k < |batches| reads batches => batches[k].dpi)
  }

  /** A stamp stays as it was or moves up to the retry resolution. */
  ghost predicate Risen(before: seq<nat>, after: seq<nat>, retry: nat) {
    |before| == |after| && forall k :: 0 <= k < |before| ==> after[k] == before[k] || before[k] < retry == after[k]
  }

  lemma RisenTwice(a: seq<nat>, b: seq<nat>, c: seq<nat>, retry: nat)
    requires Risen(a, b, retry) && Risen(b, c, retry)
    ensures Risen(a, c, retry)
  {
  }

  ghost predicate AllSharp(stamps: seq<nat>, retry: nat) {
    forall k :: 0 <= k < |stamps| ==> stamps[k] >= retry
  }

  ghost predicate CanFail(replies: nat -> Option<Reply>) {
    exists n :: replies(n).None?
  }

  /** The answer is the provider's own, whichever images it was read from. */
  ghost predicate OwnReply(r: Reply, replies: nat -> Option<Reply>) {
    exists n :: AnswerTo(replies(n), r.pixels) == Some(r)
  }

  ghost predicate OwnReplies(pairs: seq<Pair>, replies: nat -> Option<Reply>) {
    forall k :: 0 <= k < |pairs| ==> OwnReply(pairs[k].reply, replies)
  }

  /** Every page can be rendered again, and every call brings an answer that reads something. */
  ghost predicate Willing(provider: Provider) {
    && (forall n :: provider.renderable(n))
    && (forall n :: provider.replies(n).Some? && !ReadNothing(provider.replies(n).value))
  }

  ghost predicate AllSourced(batches: seq<ReceiptBatch>) {
    forall k :: 0 <= k < |batches| ==> batches[k].hasSource
  }

  ghost predicate IsPlan(batches: seq<ReceiptBatch>) {
    forall k :: 0 <= k < |batches| ==> batches[k].index == k
  }

  ghost predicate PairsFor(pairs: seq<Pair>, batches: seq<ReceiptBatch>) {
    |pairs| == |batches| && forall k :: 0 <= k < |pairs| ==> pairs[k].batch == batches[k]
  }

  function CountAsks(asked: seq<Ask>, index: nat): nat {
    if asked == [] then 0
    else CountAsks(asked[..|asked| - 1], index) + if asked[|asked| - 1].index == index then 1 else 0
  }

  lemma CountOneMore(asked: seq<Ask>, ask: Ask, index: nat)
    ensures CountAsks(asked + [ask], index) == CountAsks(asked, index) + if ask.index == index then 1 else 0
  {
    assert (asked + [ask])[..|asked|] == asked;
  }

  // ---------------------------------------------------------------------------------- one re-read

  /** The batch still stands on its first images, under the stamp it had. */
  ghost predicate Kept(p: Pair, before: nat)
    reads p.batch
  {
    p.batch.dpi == before && p.reply.pixels == p.batch.imageDpi
  }

  /** The batch was read again at the retry resolution, and that answer read something. */
  ghost predicate Sharpened(p: Pair, before: nat, retry: nat)
    reads p.batch
  {
    before < retry && p.batch.dpi == retry && p.reply.pixels == retry && !ReadNothing(p.reply)
  }

  ghost predicate Settled(p: Pair, before: nat, retry: nat)
    reads p.batch
  {
    Kept(p, before) || Sharpened(p, before, retry)
  }

  ghost predicate AllSettled(pairs: seq<Pair>, before: seq<nat>, retry: nat)
    reads (set p <- pairs :: p.batch)
  {
    |pairs| == |before| && forall k :: 0 <= k < |pairs| ==> Settled(pairs[k], before[k], retry)
  }

  /** The answers are the provider's own, in call order, each read from its batch's first images. */
  ghost predicate FirstAnswers(pairs: seq<Pair>, replies: nat -> Option<Reply>, start: nat) {
    forall k :: 0 <= k < |pairs| ==> Some(pairs[k].reply) == AnswerTo(replies(start + k), pairs[k].batch.imageDpi)
  }

  /** Nothing will ask about this batch again: it is sharp already, or has no figure to verify. */
  ghost predicate Spent(p: Pair, retry: nat)
    reads p.batch
  {
    p.batch.dpi >= retry || ReadNothing(p.reply)
  }

  ghost predicate AllSpent(pairs: seq<Pair>, again: set<nat>, retry: nat)
    reads (set p <- pairs :: p.batch)
  {
    forall k <- again :: k < |pairs| && Spent(pairs[k], retry)
  }

  ghost predicate Within(again: set<nat>, n: nat) {
    forall k <- again :: k < n
  }

  method RetryAtHigherDpi(batch: ReceiptBatch, provider: Provider, retry: nat)
    returns (ok: bool, again: bool, better: Option<Reply>)
    modifies batch`dpi, provider
    ensures again ==> old(batch.dpi) < retry && provider.asked == old(provider.asked) + [Ask(batch.index, retry)]
    ensures !again ==> ok && better.None? && provider.asked == old(provider.asked)
    ensures !ok ==> again && better.None? && CanFail(provider.replies)
    ensures better.None? ==> batch.dpi == old(batch.dpi)
    ensures better.Some? ==> again && Sharpened(Pair(batch, better.value), old(batch.dpi), retry)
    ensures better.Some? ==> OwnReply(better.value, provider.replies)
    ensures Willing(provider) && batch.hasSource && old(batch.dpi) < retry ==> better.Some?
  {
    if !batch.hasSource || batch.dpi >= retry {
      return true, false, None;
    }
    var rendered := provider.Render();
    if !rendered {
      return true, false, None;
    }
    var result := provider.Call(batch.index, retry);
    if result.None? {
      return false, true, None;
    }
    if ReadNothing(result.value) {
      return true, true, None;
    }
    batch.dpi := retry;
    return true, true, result;
  }

  // ------------------------------------------------------------------------------ the first pass

  /** How the calls of a run relate to its batches: one each, and one more for each batch in `again`. */
  ghost predicate AskedOnceMore(before: seq<Ask>, after: seq<Ask>, n: nat, again: set<nat>) {
    && |after| == |before| + n + |again|
    && (forall k: nat ::
        CountAsks(after, k)
        == CountAsks(before, k) + (if k < n then 1 else 0) + (if k in again then 1 else 0))
  }

  /** The batches asked about again, with batch `k` among them if it was. */
  ghost function Again(again: set<nat>, k: nat, asked: bool): set<nat> {
    if asked then again + {k} else again
  }

  lemma FirstAsk(before: seq<Ask>, after: seq<Ask>, n: nat, again: set<nat>, pixels: nat)
    requires AskedOnceMore(before, after, n, again)
    ensures AskedOnceMore(before, after + [Ask(n, pixels)], n + 1, again)
  {
    forall k: nat
      ensures CountAsks(after + [Ask(n, pixels)], k)
              == CountAsks(before, k) + (if k < n + 1 then 1 else 0) + (if k in again then 1 else 0)
    {
      CountOneMore(after, Ask(n, pixels), k);
    }
  }

  lemma SecondAsk(before: seq<Ask>, after: seq<Ask>, n: nat, again: set<nat>, index: nat, pixels: nat)
    requires AskedOnceMore(before, after, n, again) && index !in again
    ensures AskedOnceMore(before, after + [Ask(index, pixels)], n, again + {index})
  {
    forall k: nat
      ensures CountAsks(after + [Ask(index, pixels)], k)
              == CountAsks(before, k) + (if k < n then 1 else 0) + (if k in again + {index} then 1 else 0)
    {
      CountOneMore(after, Ask(index, pixels), k);
    }
  }

  lemma BatchAsked(before: seq<Ask>, mid: seq<Ask>, after: seq<Ask>, n: nat, again: set<nat>, pixels: nat, asked: bool,
                   retry: nat)
    requires AskedOnceMore(before, mid, n, again) && n !in again
    requires after == mid + [Ask(n, pixels)] + (if asked then [Ask(n, retry)] else [])
    ensures AskedOnceMore(before, after, n + 1, Again(again, n, asked))
  {
    FirstAsk(before, mid, n, again, pixels);
    if asked {
      SecondAsk(before, mid + [Ask(n, pixels)], n + 1, again, n, retry);
    } else {
      assert after == mid + [Ask(n, pixels)];
    }
  }

  /** Asks about one batch, and once more, sharper, when the answer read nothing. */
  method ReadBatch(batch: ReceiptBatch, provider: Provider, retry: nat)
    returns (ok: bool, result: Reply, again: bool)
    modifies batch`dpi, provider
    ensures batch.dpi == old(batch.dpi) || old(batch.dpi) < retry == batch.dpi
    ensures ok ==> provider.asked == old(provider.asked) + [Ask(batch.index, batch.imageDpi)]
                                     + (if again then [Ask(batch.index, retry)] else [])
    ensures ok ==> Settled(Pair(batch, result), old(batch.dpi), retry)
    ensures ok && again ==> Spent(Pair(batch, result), retry)
    ensures if ok then OwnReply(result, provider.replies) else CanFail(provider.replies)
    ensures Willing(provider) ==> !again && batch.dpi == old(batch.dpi)
    ensures ok && old(batch.dpi) >= retry ==>
              !again && Some(result) == AnswerTo(provider.replies(|old(provider.asked)|), batch.imageDpi)
  {
    again := false;
    result := Reply(map[], false, 0);
    var answer := provider.Call(batch.index, batch.imageDpi);
    if answer.None? {
      return false, result, again;
    }
    result := answer.value;
    if ReadNothing(result) {
      var better;
      ok, again, better := RetryAtHigherDpi(batch, provider, retry);
      if !ok {
        return false, result, again;
      }
      if better.Some? {
        result := better.value;
      }
    }
    ok := true;
  }

  lemma OneMoreSettled(pairs: seq<Pair>, again: set<nat>, p: Pair, stamps: seq<nat>, retry: nat, asked: bool)
    requires |pairs| < |stamps| && AllSettled(pairs, stamps[..|pairs|], retry) && AllSpent(pairs, again, retry)
    requires Settled(p, stamps[|pairs|], retry) && (asked ==> Spent(p, retry))
    ensures AllSettled(pairs + [p], stamps[..|pairs| + 1], retry)
    ensures AllSpent(pairs + [p], Again(again, |pairs|, asked), retry)
  {
  }

  lemma SettledHasRisen(pairs: seq<Pair>, batches: seq<ReceiptBatch>, stamps: seq<nat>, retry: nat)
    requires |pairs| <= |batches| == |stamps| && PairsFor(pairs, batches[..|pairs|])
             && AllSettled(pairs, stamps[..|pairs|], retry)
    requires forall k :: |pairs| <= k < |batches| ==> batches[k].dpi == stamps[k] || stamps[k] < retry == batches[k].dpi
    ensures Risen(stamps, Stamps(batches), retry)
  {
    forall k | 0 <= k < |pairs| ensures batches[k].dpi == stamps[k] || stamps[k] < retry == batches[k].dpi {
      assert pairs[k].batch == batches[..|pairs|][k];
    }
  }

  lemma OneMoreAnswer(pairs: seq<Pair>, replies: nat -> Option<Reply>, start: nat, p: Pair)
    requires FirstAnswers(pairs, replies, start)
             && Some(p.reply) == AnswerTo(replies(start + |pairs|), p.batch.imageDpi)
    ensures FirstAnswers(pairs + [p], replies, start)
  {
  }

  /** The batches answered so far are not the next one. */
  lemma OthersAre(pairs: seq<Pair>, batches: seq<ReceiptBatch>, i: nat)
    requires IsPlan(batches) && i < |batches| && PairsFor(pairs, batches[..i])
    ensures batches[i] in batches && forall p <- pairs :: p.batch != batches[i]
  {
    forall p <- pairs ensures p.batch != batches[i] {
      var k :| 0 <= k < |pairs| && pairs[k] == p;
      assert p.batch == batches[k];
    }
  }

  /** The batches from `i` on are as the run found them. */
  ghost predicate Unread(batches: seq<ReceiptBatch>, i: nat, stamps: seq<nat>)
    reads batches
  {
    |batches| == |stamps| && forall k :: i <= k < |batches| ==> batches[k].dpi == stamps[k]
  }

  lemma OneMore(again: set<nat>, k: nat)
    requires k !in again
    ensures |again + {k}| == |again| + 1
  {
  }

  lemma AgainCounts(again: set<nat>, k: nat, asked: bool)
    requires Within(again, k)
    ensures |Again(again, k, asked)| == |again| + (if asked then 1 else 0) && Within(Again(again, k, asked), k + 1)
  {
  }

  lemma UnreadMeansUnchanged(batches: seq<ReceiptBatch>, stamps: seq<nat>)
    requires |batches| == |stamps|
    ensures Unread(batches, 0, stamps) ==> Stamps(batches) == stamps
  {
  }

  /** With sharp stamps nothing is asked about again, and the answers are the first ones. */
  ghost predicate FirstAnswersOnly(pairs: seq<Pair>, again: set<nat>, replies: nat -> Option<Reply>, start: nat) {
    again == {} && FirstAnswers(pairs, replies, start)
  }

  /** Reads the next batch after those already answered. */
  method ReadNext(batches: seq<ReceiptBatch>, pairs: seq<Pair>, provider: Provider, retry: nat,
                  ghost stamps: seq<nat>, ghost again: set<nat>, ghost asked0: seq<Ask>)
    returns (ok: bool, p: Pair, asked: bool)
    requires IsPlan(batches) && |pairs| < |batches| && PairsFor(pairs, batches[..|pairs|])
             && Unread(batches, |pairs|, stamps)
    requires AllSettled(pairs, stamps[..|pairs|], retry) && AllSpent(pairs, again, retry)
    requires OwnReplies(pairs, provider.replies)
    requires AskedOnceMore(asked0, provider.asked, |pairs|, again)
    modifies provider, batches[|pairs|]
    ensures ok ==> PairsFor(pairs + [p], batches[..|pairs| + 1]) && Unread(batches, |pairs| + 1, stamps)
    ensures ok ==> AllSettled(pairs + [p], stamps[..|pairs| + 1], retry)
    ensures ok ==> AllSpent(pairs + [p], Again(again, |pairs|, asked), retry)
    ensures ok ==> AskedOnceMore(asked0, provider.asked, |pairs| + 1, Again(again, |pairs|, asked))
    ensures !ok ==> Risen(stamps, Stamps(batches), retry)
    ensures if ok then OwnReplies(pairs + [p], provider.replies) else CanFail(provider.replies)
    ensures Willing(provider) && old(Unread(batches, 0, stamps)) ==> !asked && Unread(batches, 0, stamps)
    ensures ok && AllSharp(stamps, retry) && FirstAnswersOnly(pairs, again, provider.replies, |asked0|)
            ==> !asked && FirstAnswersOnly(pairs + [p], again, provider.replies, |asked0|)
  {
    OthersAre(pairs, batches, |pairs|);
    ghost var before := provider.asked;
    var batch, result := batches[|pairs|], Reply(map[], false, 0);
    ok, result, asked := ReadBatch(batch, provider, retry);
    assert AllSettled(pairs, stamps[..|pairs|], retry) && AllSpent(pairs, again, retry);
    p := Pair(batch, result);
    if ok {
      OneMoreSettled(pairs, again, p, stamps, retry, asked);
      BatchAsked(asked0, before, provider.asked, |pairs|, again, batch.imageDpi, asked, retry);
      if AllSharp(stamps, retry) && FirstAnswersOnly(pairs, again, provider.replies, |asked0|) {
        OneMoreAnswer(pairs, provider.replies, |asked0|, p);
      }
    } else {
      SettledHasRisen(pairs, batches, stamps, retry);
    }
  }

  method FirstPass(batches: seq<ReceiptBatch>, provider: Provider, retry: nat)
    returns (ok: bool, pairs: seq<Pair>, retries: nat, ghost again: set<nat>)
    requires IsPlan(batches)
    modifies provider, batches
    ensures Risen(old(Stamps(batches)), Stamps(batches), retry)
    ensures ok ==> PairsFor(pairs, batches)
    ensures ok ==> AllSettled(pairs, old(Stamps(batches)), retry)
    ensures ok ==> AllSpent(pairs, again, retry)
    ensures ok ==> retries == |again| && AskedOnceMore(old(provider.asked), provider.asked, |batches|, again)
    ensures if ok then OwnReplies(pairs, provider.replies) else CanFail(provider.replies)
    ensures Willing(provider) ==> again == {} && Stamps(batches) == old(Stamps(batches))
    ensures ok && AllSharp(old(Stamps(batches)), retry) ==>
              FirstAnswersOnly(pairs, again, provider.replies, |old(provider.asked)|)
  {
    ghost var stamps := Stamps(batches);
    pairs, retries, again := [], 0, {};
    for i := 0 to |batches|
      invariant PairsFor(pairs, batches[..i]) && Unread(batches, i, stamps)
      invariant AllSettled(pairs, stamps[..i], retry) && AllSpent(pairs, again, retry)
      invariant retries == |again| && AskedOnceMore(old(provider.asked), provider.asked, i, again) && Within(again, i)
      invariant OwnReplies(pairs, provider.replies)
      invariant Willing(provider) ==> again == {} && Unread(batches, 0, stamps)
      invariant AllSharp(stamps, retry) ==> FirstAnswersOnly(pairs, again, provider.replies, |old(provider.asked)|)
    {
      var fine, p, asked := ReadNext(batches, pairs, provider, retry, stamps, again, old(provider.asked));
      if !fine {
        UnreadMeansUnchanged(batches, stamps);
        return false, [], retries, again;
      }
      AgainCounts(again, i, asked);
      if asked {
        retries := retries + 1;
      }
      again := Again(again, i, asked);
      pairs := pairs + [p];
    }
    assert batches[..|batches|] == batches && stamps[..|batches|] == stamps;
    SettledHasRisen(pairs, batches, stamps, retry);
    UnreadMeansUnchanged(batches, stamps);
    ok := true;
  }

  // ------------------------------------------------------------------- verifying the grand total

  datatype Reason =
    | BudgetRanOut(index: nat)
    | ReadingsDiffer(index: nat, before: real, after: real)
    | StillDisagree
    | NotSharpened(index: nat, dpi: nat)
    | TotalsDisagree
    | NoTotalClaimed
    | NoAmountReported
    | PagesUnread
    | LowBatch
    | NoAmountExtracted

  predicate Disagree(cs: seq<Claim>) {
    |DistinctTotals(cs)| > 1
  }

  function Dull(cs: seq<Claim>, retry: nat): seq<Claim> {
    if cs == [] then [] else (if cs[0].dpi < retry then [cs[0]] else []) + Dull(cs[1..], retry)
  }

  /** The claims to read again: every dull one when claims disagree, else the accepted one if it is dull. */
  function ReReadTargets(cs: seq<Claim>, retry: nat): seq<Claim> {
    if Disagree(cs) then Dull(cs, retry)
    else if cs != [] && cs[|cs| - 1].dpi < retry then [cs[|cs| - 1]]
    else []
  }

  /** All dull claims, in order, when two readings disagree on the total; else the accepted claim if it is dull. */
  lemma {:induction false} TargetsMean(rs: seq<Reading>, retry: nat)
    requires OwnIndex(rs)
    ensures var cs, dull := Claims(rs), (c: Claim) => c.dpi < retry;
            ReReadTargets(cs, retry) ==
            if !Undisputed(rs) then Select(cs, dull)
            else if cs == [] then [] else Select([cs[|cs| - 1]], dull)
  {
    NearFirstMeansUndisputed(rs);
    OneDistinctTotalMeansAgreement(Claims(rs));
    DullIsSelected(Claims(rs), retry);
  }

  lemma {:induction false} DullIsSelected(cs: seq<Claim>, retry: nat)
    ensures Dull(cs, retry) == Select(cs, (c: Claim) => c.dpi < retry)
  {
    if cs != [] {
      DullIsSelected(cs[1..], retry);
    }
  }

  lemma {:induction false} DullMembers(cs: seq<Claim>, retry: nat)
    requires OnePerBatch(cs)
    ensures OnePerBatch(Dull(cs, retry))
    ensures forall c :: c in Dull(cs, retry) <==> c in cs && c.dpi < retry
  {
    if cs != [] {
      DullMembers(cs[1..], retry);
      var rest := Dull(cs[1..], retry);
      forall j | 0 <= j < |rest| ensures rest[j].index != cs[0].index {
        assert rest[j] in rest;
        var k :| 1 <= k < |cs| && cs[k] == rest[j];
      }
      assert forall c :: c in cs <==> c == cs[0] || c in cs[1..];
    }
  }

  lemma SpentClaimsAreSharp(p: Pair, retry: nat, c: Claim)
    requires Spent(p, retry) && ClaimOf(AsReading(p)) == Some(c)
    ensures c.dpi >= retry
  {
    if p.batch.dpi < retry {
      ReadNothingClaimsNothing(AsReading(p));
    }
  }

  lemma ReadingsHaveOwnIndex(pairs: seq<Pair>, batches: seq<ReceiptBatch>)
    requires IsPlan(batches) && PairsFor(pairs, batches)
    ensures OwnIndex(ReadingsOf(pairs))
  {
  }

  /** A batch that was asked about again is sharp, or read nothing and so claims nothing. */
  lemma {:induction false} ClaimsOfPairs(pairs: seq<Pair>, batches: seq<ReceiptBatch>, retry: nat, again: set<nat>)
    requires IsPlan(batches) && PairsFor(pairs, batches)
    requires AllSpent(pairs, again, retry)
    ensures OwnIndex(ReadingsOf(pairs))
    ensures forall c <- Claims(ReadingsOf(pairs)) ::
              && c.index < |pairs| && ClaimOf(AsReading(pairs[c.index])) == Some(c)
              && (c.index in again ==> c.dpi >= retry)
  {
    var rs := ReadingsOf(pairs);
    ClaimsAreRanked(rs);
    forall c <- Claims(rs)
      ensures c.index < |pairs| && ClaimOf(AsReading(pairs[c.index])) == Some(c)
      ensures c.index in again ==> c.dpi >= retry
    {
      var r :| r in rs && ClaimOf(r) == Some(c);
      var k :| 0 <= k < |rs| && rs[k] == r;
      if k in again {
        SpentClaimsAreSharp(pairs[k], retry, c);
      }
    }
  }

  /** Targets are distinct dull batches that nothing has asked about again so far. */
  lemma TargetsAreUnspent(pairs: seq<Pair>, batches: seq<ReceiptBatch>, retry: nat, again: set<nat>)
    requires IsPlan(batches) && PairsFor(pairs, batches) && AllSpent(pairs, again, retry)
    ensures OnePerBatch(ReReadTargets(Claims(ReadingsOf(pairs)), retry))
    ensures AllTargets(ReReadTargets(Claims(ReadingsOf(pairs)), retry), pairs, Stamps(batches), again)
  {
    var cs := Claims(ReadingsOf(pairs));
    ClaimsOfPairs(pairs, batches, retry, again);
    TargetsAreDullClaims(ReadingsOf(pairs), retry);
    var targets := ReReadTargets(cs, retry);
    forall j | 0 <= j < |targets| ensures Target(targets[j], pairs, Stamps(batches), again) {
      var t := targets[j];
      assert t in targets && t in cs;
      assert pairs[t.index].batch == batches[t.index];
    }
  }

  lemma TargetsAreDullClaims(rs: seq<Reading>, retry: nat)
    requires OwnIndex(rs)
    ensures OnePerBatch(ReReadTargets(Claims(rs), retry))
    ensures forall t <- ReReadTargets(Claims(rs), retry) :: t in Claims(rs) && t.dpi < retry
  {
    ClaimsAreRanked(rs);
    DullMembers(Claims(rs), retry);
  }

  method Replace(pairs: seq<Pair>, batch: ReceiptBatch, better: Reply) returns (out: seq<Pair>)
    requires batch.index < |pairs| && pairs[batch.index].batch == batch
    requires forall k :: 0 <= k < |pairs| ==> pairs[k].batch.index == k
    ensures out == pairs[batch.index := Pair(batch, better)]
  {
    var position := 0;
    while pairs[position].batch != batch
      invariant 0 <= position <= batch.index
      decreases |pairs| - position
    {
      position := position + 1;
    }
    out := pairs[position := Pair(batch, better)];
  }

  /** The answer accepted for a batch either stands untouched or was sharpened since. */
  ghost predicate SinceThen(p: Pair, was: Pair, dpi: nat, retry: nat)
    reads p.batch
  {
    (p == was && p.batch.dpi == dpi) || (p.batch == was.batch && Sharpened(p, dpi, retry))
  }

  ghost predicate AllSince(pairs: seq<Pair>, were: seq<Pair>, stamps: seq<nat>, retry: nat)
    reads (set p <- pairs :: p.batch)
  {
    |pairs| == |were| == |stamps| && forall k :: 0 <= k < |pairs| ==> SinceThen(pairs[k], were[k], stamps[k], retry)
  }

  /** The figures the two answers report, as their own fields give them, are within two cents of each other. */
  ghost predicate SameFigure(a: Reply, b: Reply) {
    forall x, y :: IsFigureOf(x, a) && IsFigureOf(y, b) ==> -0.02 <= x - y <= 0.02
  }

  lemma CloseMeansSameFigure(a: Reply, b: Reply)
    requires Abs(Figure(TotalField(a)) - Figure(TotalField(b))) <= TOTAL_AGREEMENT_TOLERANCE
    ensures SameFigure(a, b)
  {
    TotalMeans(a);
    TotalMeans(b);
  }

  lemma SinceHasRisen(pairs: seq<Pair>, were: seq<Pair>, batches: seq<ReceiptBatch>, stamps: seq<nat>, retry: nat)
    requires PairsFor(pairs, batches) && AllSince(pairs, were, stamps, retry)
    ensures Risen(stamps, Stamps(batches), retry)
  {
  }

  ghost predicate SameFigures(pairs: seq<Pair>, were: seq<Pair>) {
    |pairs| == |were| && forall k ::
        0 <= k < |pairs|
        ==> pairs[k] == were[k] || SameFigure(pairs[k].reply, were[k].reply)
  }

  /** A claim to read again: not asked about a second time yet, stamped as its batch is, with its batch's figure. */
  ghost predicate Target(t: Claim, pairs: seq<Pair>, stamps: seq<nat>, again: set<nat>) {
    && t.index < |pairs| == |stamps| && t.index !in again
    && t.dpi == stamps[t.index] && t.amount == Figure(TotalField(pairs[t.index].reply))
  }

  ghost predicate AllTargets(targets: seq<Claim>, pairs: seq<Pair>, stamps: seq<nat>, again: set<nat>) {
    forall j :: 0 <= j < |targets| ==> Target(targets[j], pairs, stamps, again)
  }

  /** Reads one target again and puts a better answer in its place. */
  method ReReadOne(batches: seq<ReceiptBatch>, pairs: seq<Pair>, t: Claim, disagreement: bool, provider: Provider,
                   retry: nat,
                   ghost were: seq<Pair>, ghost stamps: seq<nat>)
    returns (ok: bool, asked: bool, out: seq<Pair>, note: seq<Reason>)
    requires IsPlan(batches) && PairsFor(pairs, batches) && PairsFor(were, batches)
             && AllSince(pairs, were, stamps, retry)
    requires t.index < |batches| && t.amount == Figure(TotalField(were[t.index].reply))
    modifies provider, batches[t.index]
    ensures PairsFor(out, batches) && AllSince(out, were, stamps, retry)
    ensures provider.asked == old(provider.asked) + if asked then [Ask(t.index, retry)] else []
    ensures !disagreement && note == [] && SameFigures(pairs, were) ==> SameFigures(out, were)
    ensures OwnReplies(pairs, provider.replies) ==> OwnReplies(out, provider.replies)
    ensures !ok ==> CanFail(provider.replies)
    ensures Risen(old(Stamps(batches)), Stamps(batches), retry)
    ensures Willing(provider) && batches[t.index].hasSource ==> batches[t.index].dpi >= retry
  {
    out, note := pairs, [];
    var batch := batches[t.index];
    var better;
    ok, asked, better := RetryAtHigherDpi(batch, provider, retry);
    if better.None? {
      return ok, asked, out, note;
    }
    out := Replace(pairs, batch, better.value);
    var sharper := Figure(TotalField(better.value));
    if !disagreement && Abs(sharper - t.amount) > TOTAL_AGREEMENT_TOLERANCE {
      note := [ReadingsDiffer(t.index, t.amount, sharper)];
    } else if !disagreement {
      CloseMeansSameFigure(better.value, were[t.index].reply);
    }
  }

  /** The batches of the first `j` targets are at the retry resolution. */
  ghost predicate SharpenedUpTo(targets: seq<Claim>, j: nat, stamps: seq<nat>, retry: nat) {
    j <= |targets| && forall m :: 0 <= m < j ==> targets[m].index < |stamps| && stamps[targets[m].index] >= retry
  }

  lemma OneMoreSharpened(targets: seq<Claim>, j: nat, before: seq<nat>, after: seq<nat>, retry: nat)
    requires j < |targets| && SharpenedUpTo(targets, j, before, retry) && Risen(before, after, retry)
    requires targets[j].index < |after| && after[targets[j].index] >= retry
    ensures SharpenedUpTo(targets, j + 1, after, retry)
  {
  }

  /**
   A provider that never balks, pages at hand, and targets within the budget: nothing keeps them from being
   sharpened.
   */
  ghost predicate NothingInTheWay(targets: seq<Claim>, batches: seq<ReceiptBatch>, provider: Provider) {
    Willing(provider) && AllSourced(batches) && |targets| <= 2
  }

  /** Unless something is in the way, the batches the readings `rs` call for are at the retry resolution. */
  ghost predicate AllSharpened(rs: seq<Reading>, batches: seq<ReceiptBatch>, provider: Provider, retry: nat)
    reads batches
  {
    var targets := ReReadTargets(Claims(rs), retry);
    NothingInTheWay(targets, batches, provider) ==> SharpenedUpTo(targets, |targets|, Stamps(batches), retry)
  }

  /** Reads the targets again, in order, until the budget is spent. */
  method ReReadAll(batches: seq<ReceiptBatch>, pairs0: seq<Pair>, targets: seq<Claim>, disagreement: bool,
                   provider: Provider,
                   retry: nat, ghost asked0: seq<Ask>, ghost again0: set<nat>)
    returns (ok: bool, pairs: seq<Pair>, calls: nat, notes: seq<Reason>, ghost again: set<nat>)
    requires IsPlan(batches) && PairsFor(pairs0, batches) && OnePerBatch(targets)
    requires AllTargets(targets, pairs0, Stamps(batches), again0)
    requires AskedOnceMore(asked0, provider.asked, |batches|, again0) && Within(again0, |batches|)
    modifies provider, batches
    ensures Risen(old(Stamps(batches)), Stamps(batches), retry)
    ensures calls <= 2
    ensures ok ==> PairsFor(pairs, batches)
    ensures ok ==> AllSince(pairs, pairs0, old(Stamps(batches)), retry)
    ensures ok ==> |again| == |again0| + calls && AskedOnceMore(asked0, provider.asked, |batches|, again)
    ensures ok ==> Within(again, |batches|)
    ensures ok && !disagreement && notes == [] ==> SameFigures(pairs, pairs0)
    ensures targets == [] ==>
              ok && calls == 0 && notes == [] && pairs == pairs0 && ReadingsOf(pairs) == old(ReadingsOf(pairs0))
    ensures ok && OwnReplies(pairs0, provider.replies) ==> OwnReplies(pairs, provider.replies)
    ensures !ok ==> CanFail(provider.replies)
    ensures NothingInTheWay(targets, batches, provider) ==> SharpenedUpTo(targets, |targets|, Stamps(batches), retry)
  {
    pairs, calls, notes, again := pairs0, 0, [], again0;
    ghost var stamps, rs0 := Stamps(batches), ReadingsOf(pairs0);
    for j := 0 to |targets|
      invariant calls <= RECEIPT_TOTAL_VERIFY_MAX_CALLS
      invariant PairsFor(pairs, batches) && AllSince(pairs, pairs0, stamps, retry)
      invariant |again| == |again0| + calls && AskedOnceMore(asked0, provider.asked, |batches|, again)
                && Within(again, |batches|)
      invariant forall m :: j <= m < |targets| ==> targets[m].index !in again
      invariant !disagreement && notes == [] ==> SameFigures(pairs, pairs0)
      invariant j == 0 ==> calls == 0 && notes == [] && pairs == pairs0 && ReadingsOf(pairs) == rs0
      invariant OwnReplies(pairs0, provider.replies) ==> OwnReplies(pairs, provider.replies)
      invariant NothingInTheWay(targets, batches, provider)
                ==> calls <= j && SharpenedUpTo(targets, j, Stamps(batches), retry)
    {
      var t := targets[j];
      assert t in targets;
      if calls >= RECEIPT_TOTAL_VERIFY_MAX_CALLS {
        notes := notes + [BudgetRanOut(t.index)];
        break;
      }
      ghost var before, stampsBefore := provider.asked, Stamps(batches);
      var fine, asked, out, note := ReReadOne(batches, pairs, t, disagreement, provider, retry, pairs0, stamps);
      SinceHasRisen(out, pairs0, batches, stamps, retry);
      if !fine {
        return false, pairs, calls, notes, again;
      }
      if asked {
        SecondAsk(asked0, before, |batches|, again, t.index, retry);
        OneMore(again, t.index);
        calls := calls + 1;
        again := again + {t.index};
      } else {
        assert provider.asked == before;
      }
      if NothingInTheWay(targets, batches, provider) {
        OneMoreSharpened(targets, j, stampsBefore, Stamps(batches), retry);
      }
      pairs, notes := out, notes + note;
    }
    SinceHasRisen(pairs, pairs0, batches, stamps, retry);
    ok := true;
  }

  /** The stamp of the claim the merge will accept; none when no claim is left. */
  function AcceptedStamp(cs: seq<Claim>): Option<nat> {
    if cs == [] then None else Some(cs[|cs| - 1].dpi)
  }

  /** Re-reads a total read at reduced resolution, or every dull claimant of a disputed one. */
  method VerifyGrandTotal(batches: seq<ReceiptBatch>, pairs0: seq<Pair>, provider: Provider, retry: nat,
                          ghost asked0: seq<Ask>, ghost again0: set<nat>, ghost rs0: seq<Reading>)
    returns (ok: bool, pairs: seq<Pair>, calls: nat, verifiedAt: Option<nat>, notes: seq<Reason>, ghost again: set<nat>)
    requires IsPlan(batches) && PairsFor(pairs0, batches) && rs0 == ReadingsOf(pairs0)
    requires AllSpent(pairs0, again0, retry)
    requires AskedOnceMore(asked0, provider.asked, |batches|, again0)
    modifies provider, batches
    ensures Risen(old(Stamps(batches)), Stamps(batches), retry)
    ensures calls <= 2
    ensures ok ==> PairsFor(pairs, batches)
    ensures ok ==> AllSince(pairs, pairs0, old(Stamps(batches)), retry)
    ensures ok ==> |again| == |again0| + calls && AskedOnceMore(asked0, provider.asked, |batches|, again)
    ensures ok ==> Within(again, |batches|)
    ensures ok ==> verifiedAt == AcceptedStamp(Claims(ReadingsOf(pairs)))
    ensures ok && notes == [] && verifiedAt.Some? ==> verifiedAt.value >= retry
    // a figure that moved under sharper pixels never passes in silence
    ensures ok && notes == [] && !Disagree(Claims(rs0)) ==> SameFigures(pairs, pairs0)
    ensures ReReadTargets(Claims(rs0), retry) == [] ==> ok && pairs == pairs0 && calls == 0 && notes == []
    ensures ok && OwnReplies(pairs0, provider.replies) ==> OwnReplies(pairs, provider.replies)
    ensures !ok ==> CanFail(provider.replies)
    ensures AllSharpened(rs0, batches, provider, retry)
  {
    pairs, calls, verifiedAt, notes, again := pairs0, 0, None, [], again0;
    var candidates := Claims(ReadingsOf(pairs0));
    if candidates == [] {
      return true, pairs, calls, verifiedAt, notes, again;
    }
    var distinct := CollectDistinct(candidates);
    TargetsAreUnspent(pairs0, batches, retry, again0);
    NoTargetMeansSharp(candidates, retry);
    assert Within(again0, |batches|);
    var targets := ReReadTargets(candidates, retry);
    ok, pairs, calls, notes, again := ReReadAll(batches, pairs0, targets, |distinct| > 1, provider, retry, asked0,
        again0);
    if !ok {
      return false, pairs, calls, verifiedAt, notes, again;
    }
    var rs := ReadingsOf(pairs);
    verifiedAt, notes := Conclude(Claims(rs), |distinct| > 1, calls, notes, retry);
  }

  /** The verdict on the readings after the re-reads: the accepted stamp, and what is still wrong with it. */
  method Conclude(final: seq<Claim>, disagreement: bool, calls: nat, notes0: seq<Reason>, retry: nat)
    returns (verifiedAt: Option<nat>, notes: seq<Reason>)
    ensures verifiedAt == AcceptedStamp(final)
    ensures notes == [] ==> notes0 == [] && (verifiedAt.Some? ==> verifiedAt.value >= retry)
    ensures notes0 == [] && calls == 0 && (final == [] || final[|final| - 1].dpi >= retry) ==> notes == []
  {
    notes := notes0;
    if final == [] {
      return None, notes;
    }
    if disagreement && calls > 0 {
      var distinct := CollectDistinct(final);
      if |distinct| > 1 {
        notes := notes + [StillDisagree];
      }
    }
    var verified := final[|final| - 1];
    if verified.dpi < retry {
      notes := notes + [NotSharpened(verified.index, verified.dpi)];
    }
    verifiedAt := Some(verified.dpi);
  }

  lemma NoTargetMeansSharp(cs: seq<Claim>, retry: nat)
    ensures cs != [] && ReReadTargets(cs, retry) == [] ==> cs[|cs| - 1].dpi >= retry
  {
    if cs != [] && ReReadTargets(cs, retry) == [] {
      LastIsDull(cs, retry);
    }
  }

  lemma {:induction false} LastIsDull(cs: seq<Claim>, retry: nat)
    requires cs != []
    ensures cs[|cs| - 1].dpi < retry ==> Dull(cs, retry) != []
  {
    if |cs| > 1 {
      LastIsDull(cs[1..], retry);
    }
  }

  // --------------------------------------------------------------------------------------- merging

  /**
   What the merged result says about the money, whether it names a vendor and a date, and every reason it
   is flagged low for.
   */
  datatype Merged = Merged(
    total: Value,
    amount: Value,
    named: bool,
    dated: bool,
    reasons: seq<Reason>,
    dpiRetries: nat,
    verifiedAt: Option<nat>
  )

  /** Some batch reports the field; the merge takes it from the first that does. */
  predicate Reports(rs: seq<Reading>, name: string) {
    exists r <- rs :: !Field(r.reply, name).Blank?
  }

  predicate FlaggedLow(m: Merged) {
    m.reasons != []
  }

  predicate SpellsZero(v: Value) {
    v.Text? && v.zero
  }

  predicate CarriesAmount(total: Value, amount: Value) {
    Figure(total) != 0.0 || Figure(amount) != 0.0 || SpellsZero(total) || SpellsZero(amount)
  }

  /**
   A reason that has nothing to do with resolution: nobody claims a total, claims differ, pages or batches are
   weak.
   */
  predicate MergeObjects(rs: seq<Reading>, pagesTotal: nat, pagesUsed: nat) {
    || Claims(rs) == []
    || !AllNearFirst(Claims(rs))
    || pagesUsed < pagesTotal
    || exists r <- rs :: r.reply.low
  }

  /** The answer of the last reading that carries any figure at all. */
  function LastWithFigure(rs: seq<Reading>): Option<Reply> {
    if rs == [] then None
    else if Figure(TotalField(rs[|rs| - 1].reply)) != 0.0 then Some(rs[|rs| - 1].reply)
    else LastWithFigure(rs[..|rs| - 1])
  }

  lemma {:induction false} LastHasFigure(rs: seq<Reading>)
    ensures LastWithFigure(rs).Some? ==> Figure(TotalField(LastWithFigure(rs).value)) != 0.0
  {
    if rs != [] {
      LastHasFigure(rs[..|rs| - 1]);
    }
  }

  method LastFigure(rs: seq<Reading>) returns (reply: Option<Reply>)
    ensures reply == LastWithFigure(rs)
  {
    reply := None;
    for i := 0 to |rs|
      invariant reply == LastWithFigure(rs[..i])
    {
      assert rs[..i + 1][..i] == rs[..i];
      if Figure(TotalField(rs[i].reply)) != 0.0 {
        reply := Some(rs[i].reply);
      }
    }
    assert rs[..|rs|] == rs;
  }

  function FirstFilled(rs: seq<Reading>): Value {
    if rs == [] then Blank
    else if Field(rs[0].reply, "amount").Blank? then FirstFilled(rs[1..])
    else Field(rs[0].reply, "amount")
  }

  /** The plain amount: the preferred answer's own, else the first any batch has. */
  function AmountFrom(rs: seq<Reading>, preferred: Option<Reply>): Value {
    var own := if preferred.Some? then Field(preferred.value, "amount") else Blank;
    if own.Blank? then FirstFilled(rs) else own
  }

  method FirstAmount(rs: seq<Reading>, preferred: Option<Reply>) returns (amount: Value)
    ensures amount == AmountFrom(rs, preferred)
  {
    amount := if preferred.Some? then Field(preferred.value, "amount") else Blank;
    var i := 0;
    while i < |rs| && amount.Blank?
      invariant 0 <= i <= |rs|
      invariant AmountFrom(rs, preferred) == if amount.Blank? then FirstFilled(rs[i..]) else amount
    {
      amount := Field(rs[i].reply, "amount");
      i := i + 1;
    }
  }

  /** The answer the total is carried from: the accepted claim's, else the last with any figure. */
  function Carried(rs: seq<Reading>): Option<Reply> {
    if Claims(rs) != [] then Some(Claims(rs)[|Claims(rs)| - 1].reply) else LastWithFigure(rs)
  }

  /** The carried answer's total; with none, the validation promotes a plain amount that parses. */
  function MergedTotal(rs: seq<Reading>): Value {
    if Carried(rs).Some? then TotalField(Carried(rs).value)
    else if Figure(AmountFrom(rs, None)) != 0.0 then AmountFrom(rs, None)
    else Blank
  }

  /** The result carries what the merge takes from the readings. */
  predicate Says(merged: Merged, rs: seq<Reading>) {
    && merged.total == MergedTotal(rs) && merged.amount == AmountFrom(rs, Carried(rs))
    && (merged.named <==> Reports(rs, "vendor")) && (merged.dated <==> Reports(rs, "date"))
  }

  // ------------------------------------------------------ what is merged, read off the answers' fields

  /** Somebody claims to see the grand total. */
  ghost predicate Claimed(rs: seq<Reading>) {
    exists r <- rs, c :: IsClaimOf(c, r)
  }

  ghost predicate HasFigure(r: Reply) {
    exists figure :: IsFigureOf(figure, r) && figure != 0.0
  }

  /** Reading `k` is the one whose total counts: that of the accepted claim; with no claim, the last with a figure. */
  ghost predicate CarriesTotal(rs: seq<Reading>, k: nat)
    requires k < |rs|
  {
    if Claimed(rs) then exists c :: IsAccepted(c, rs[k], rs)
    else HasFigure(rs[k].reply) && forall j :: k < j < |rs| ==> !HasFigure(rs[j].reply)
  }

  /** The first plain amount any batch has; blank when none has one. */
  ghost predicate IsFirstAmount(v: Value, rs: seq<Reading>) {
    || ((forall r <- rs :: !Filled(r.reply, "amount")) && v == Blank)
    || (exists k :: 0 <= k < |rs| && Filled(rs[k].reply, "amount") && v == rs[k].reply.fields["amount"]
                    && forall j :: 0 <= j < k ==> !Filled(rs[j].reply, "amount"))
  }

  /** The total and the amount are those of the reading whose total counts; without a figure anywhere, see below. */
  ghost predicate TakesFrom(merged: Merged, rs: seq<Reading>, k: nat)
    requires k < |rs|
  {
    && IsTotalOf(merged.total, rs[k].reply)
    && (if Filled(rs[k].reply, "amount") then merged.amount == rs[k].reply.fields["amount"]
        else IsFirstAmount(merged.amount, rs))
  }

  /** No answer has a figure for a total: a plain amount that parses is all there is. */
  ghost predicate TakesPlainAmount(merged: Merged, rs: seq<Reading>) {
    && IsFirstAmount(merged.amount, rs)
    && merged.total == if merged.amount.Text? && merged.amount.figure != 0.0 then merged.amount else Blank
  }

  ghost predicate MoneyIsReadOff(merged: Merged, rs: seq<Reading>) {
    && (if exists r <- rs :: HasFigure(r.reply)
        then exists k :: 0 <= k < |rs| && CarriesTotal(rs, k) && TakesFrom(merged, rs, k)
        else TakesPlainAmount(merged, rs))
    && (merged.named <==> exists r <- rs :: Filled(r.reply, "vendor"))
    && (merged.dated <==> exists r <- rs :: Filled(r.reply, "date"))
  }

  lemma ClaimedMeans(rs: seq<Reading>)
    requires OwnIndex(rs)
    ensures Claimed(rs) <==> Claims(rs) != []
  {
    ClaimsAreRead(rs);
    if Claims(rs) != [] {
      assert Claims(rs)[0] in Claims(rs);
    }
    if r, c :| r in rs && IsClaimOf(c, r) {
      assert c in Claims(rs);
    }
  }

  lemma HasFigureMeans(r: Reply)
    ensures HasFigure(r) <==> Figure(TotalField(r)) != 0.0
  {
    TotalMeans(r);
  }

  lemma {:induction false} FirstFilledMeans(rs: seq<Reading>)
    ensures IsFirstAmount(FirstFilled(rs), rs)
  {
    if rs != [] {
      FirstFilledMeans(rs[1..]);
      if Filled(rs[0].reply, "amount") {
        assert IsFirstAmount(FirstFilled(rs), rs);
      } else if k :| 0 <= k < |rs[1..]| && Filled(rs[1..][k].reply, "amount")
                     && FirstFilled(rs[1..]) == rs[1..][k].reply.fields["amount"]
                     && forall j :: 0 <= j < k ==> !Filled(rs[1..][j].reply, "amount") {
        assert rs[k + 1] == rs[1..][k];
        forall j | 0 <= j < k + 1 ensures !Filled(rs[j].reply, "amount") {
          assert j > 0 ==> rs[j] == rs[1..][j - 1];
        }
      } else {
        forall r <- rs ensures !Filled(r.reply, "amount") {
          assert r == rs[0] || r in rs[1..];
        }
      }
    }
  }

  lemma {:induction false} LastWithFigureMeans(rs: seq<Reading>)
    ensures LastWithFigure(rs).None? ==> forall r <- rs :: !HasFigure(r.reply)
    ensures LastWithFigure(rs).Some? ==>
              exists k :: 0 <= k < |rs| && LastWithFigure(rs) == Some(rs[k].reply) && HasFigure(rs[k].reply)
                          && forall j :: k < j < |rs| ==> !HasFigure(rs[j].reply)
  {
    if rs != [] {
      var n := |rs| - 1;
      LastWithFigureMeans(rs[..n]);
      LastApart(rs);
      HasFigureMeans(rs[n].reply);
      if Figure(TotalField(rs[n].reply)) == 0.0 && LastWithFigure(rs).Some? {
        var k :| 0 <= k < n && LastWithFigure(rs) == Some(rs[..n][k].reply) && HasFigure(rs[..n][k].reply)
                 && forall j :: k < j < n ==> !HasFigure(rs[..n][j].reply);
        forall j | k < j < |rs| ensures !HasFigure(rs[j].reply) {
          assert j < n ==> rs[j] == rs[..n][j];
        }
        assert rs[k] == rs[..n][k];
      }
    }
  }

  lemma CarriedMeans(rs: seq<Reading>)
    requires OwnIndex(rs)
    ensures Carried(rs).None? ==> forall r <- rs :: !HasFigure(r.reply)
    ensures Carried(rs).Some? ==>
              exists k :: 0 <= k < |rs| && Carried(rs) == Some(rs[k].reply) && CarriesTotal(rs, k)
                          && HasFigure(rs[k].reply)
  {
    ClaimedMeans(rs);
    if Claims(rs) != [] {
      var last := Claims(rs)[|Claims(rs)| - 1];
      var k := AcceptedClaimIsLatest(rs);
      assert Carried(rs) == Some(rs[k].reply) && CarriesTotal(rs, k) && HasFigure(rs[k].reply);
    } else {
      LastWithFigureMeans(rs);
    }
  }

  lemma ReportsMeans(rs: seq<Reading>, name: string)
    ensures Reports(rs, name) <==> exists r <- rs :: Filled(r.reply, name)
  {
    assert forall r <- rs :: Field(r.reply, name).Blank? <==> !Filled(r.reply, name);
  }

  /** What the merge says about the money, said of the answers' own fields. */
  lemma SaysMeans(merged: Merged, rs: seq<Reading>)
    requires OwnIndex(rs) && Says(merged, rs)
    ensures MoneyIsReadOff(merged, rs)
  {
    ReportsMeans(rs, "vendor");
    ReportsMeans(rs, "date");
    CarriedMeans(rs);
    FirstFilledMeans(rs);
    if Carried(rs).Some? {
      var k :| 0 <= k < |rs| && Carried(rs) == Some(rs[k].reply) && CarriesTotal(rs, k) && HasFigure(rs[k].reply);
      TotalMeans(rs[k].reply);
      assert TakesFrom(merged, rs, k) && rs[k] in rs;
    }
  }

  /** What the merge objects to, said of the claims the readings make. */
  ghost predicate Objectionable(rs: seq<Reading>, pagesTotal: nat, pagesUsed: nat) {
    !Claimed(rs) || !Undisputed(rs) || pagesUsed < pagesTotal || exists r <- rs :: r.reply.low
  }

  lemma ObjectsMeans(rs: seq<Reading>, pagesTotal: nat, pagesUsed: nat)
    requires OwnIndex(rs)
    ensures MergeObjects(rs, pagesTotal, pagesUsed) <==> Objectionable(rs, pagesTotal, pagesUsed)
  {
    ClaimedMeans(rs);
    NearFirstMeansUndisputed(rs);
  }

  method MergeBatches(rs: seq<Reading>, pagesTotal: nat, pagesUsed: nat, notes: seq<Reason>) returns (merged: Merged)
    requires OwnIndex(rs)
    ensures Says(merged, rs) && MoneyIsReadOff(merged, rs)
    ensures FlaggedLow(merged) <==> notes != [] || MergeObjects(rs, pagesTotal, pagesUsed)
    ensures FlaggedLow(merged) <==> notes != [] || Objectionable(rs, pagesTotal, pagesUsed)
  {
    var reasons := notes;
    var total, totalReply := Blank, None;
    var candidates := Claims(rs);
    OneDistinctTotalMeansAgreement(candidates);
    if candidates != [] {
      var distinct := CollectDistinct(candidates);
      var chosen := candidates[|candidates| - 1];
      ClaimCarriesAmount(rs, chosen);
      total, totalReply := TotalField(chosen.reply), Some(chosen.reply);
      if |distinct| > 1 {
        reasons := reasons + [TotalsDisagree];
      }
    } else {
      totalReply := LastFigure(rs);
      LastHasFigure(rs);
      if totalReply.Some? {
        total := TotalField(totalReply.value);
      }
      reasons := reasons + [if totalReply.Some? then NoTotalClaimed else NoAmountReported];
    }
    var amount := FirstAmount(rs, totalReply);
    if pagesUsed < pagesTotal {
      reasons := reasons + [PagesUnread];
    }
    if exists r <- rs :: r.reply.low {
      reasons := reasons + [LowBatch];
    }
    // with a claim accepted the amount is never missing; without one the result is flagged already
    if !CarriesAmount(total, amount) {
      reasons := reasons + [NoAmountExtracted];
    } else if Figure(total) == 0.0 && Figure(amount) != 0.0 {
      total := amount;
    }
    merged := Merged(total, amount, Reports(rs, "vendor"), Reports(rs, "date"), reasons, 0, None);
    SaysMeans(merged, rs);
    ObjectsMeans(rs, pagesTotal, pagesUsed);
  }

  /** The merge, with the re-reads counted and the resolution of the accepted total. */
  method MergeVerified(rs: seq<Reading>, pagesTotal: nat, pagesUsed: nat, notes: seq<Reason>, retries: nat,
                       verifiedAt: Option<nat>)
    returns (merged: Merged)
    requires OwnIndex(rs)
    ensures Says(merged, rs) && MoneyIsReadOff(merged, rs)
    ensures FlaggedLow(merged) <==> notes != [] || MergeObjects(rs, pagesTotal, pagesUsed)
    ensures merged.dpiRetries == retries && merged.verifiedAt == verifiedAt
  {
    merged := MergeBatches(rs, pagesTotal, pagesUsed, notes);
    merged := merged.(dpiRetries := retries, verifiedAt := verifiedAt);
    SaysMeans(merged, rs);
  }

  lemma ClaimCarriesAmount(rs: seq<Reading>, c: Claim)
    requires OwnIndex(rs) && c in Claims(rs)
    ensures Figure(TotalField(c.reply)) != 0.0
  {
    ClaimsAreRanked(rs);
  }

  // ------------------------------------------------------------------------------------ a whole run

  /** What an unflagged total rests on. */
  ghost predicate TotalIsVerified(rs: seq<Reading>, merged: Merged, retry: nat) {
    var cs := Claims(rs);
    && cs != []
    && AllNearFirst(cs)
    && IsTotalOf(merged.total, cs[|cs| - 1].reply)
    && merged.verifiedAt == Some(cs[|cs| - 1].dpi)
    && cs[|cs| - 1].dpi >= retry
  }

  /** Where the first pass left each batch, without looking at the stamps again. */
  ghost predicate Were(pairs: seq<Pair>, start: seq<nat>, mid: seq<nat>, retry: nat) {
    |pairs| == |start| == |mid| && forall k :: 0 <= k < |pairs| ==>
      || (mid[k] == start[k] && pairs[k].reply.pixels == pairs[k].batch.imageDpi)
      || (start[k] < retry == mid[k] && pairs[k].reply.pixels == retry && !ReadNothing(pairs[k].reply))
  }

  lemma SettledWere(pairs: seq<Pair>, batches: seq<ReceiptBatch>, start: seq<nat>, retry: nat)
    requires PairsFor(pairs, batches) && AllSettled(pairs, start, retry)
    ensures Were(pairs, start, Stamps(batches), retry)
  {
  }

  /** What was settled by the first pass and re-read since is settled with respect to the start of the run. */
  lemma SettledForGood(pairs: seq<Pair>, first: seq<Pair>, start: seq<nat>, mid: seq<nat>, retry: nat)
    requires Were(first, start, mid, retry) && AllSince(pairs, first, mid, retry)
    ensures AllSettled(pairs, start, retry)
  {
  }

  /** The stamp is the truth exactly when the run started from an honest stamp. */
  lemma StampsAreHonest(p: Pair, start: nat, retry: nat)
    requires Settled(p, start, retry)
    requires start == p.batch.imageDpi || p.batch.imageDpi < retry == start
    ensures p.batch.dpi == p.reply.pixels <==> start == p.batch.imageDpi
  {
  }

  lemma NeverAskedTwiceMore(before: seq<Ask>, after: seq<Ask>, n: nat, again: set<nat>)
    requires AskedOnceMore(before, after, n, again) && Within(again, n)
    ensures forall k: nat :: CountAsks(after, k) <= CountAsks(before, k) + if k < n then 2 else 0
  {
  }

  lemma {:induction false} SharpClaimsAreNoTargets(cs: seq<Claim>, retry: nat)
    requires forall c <- cs :: c.dpi >= retry
    ensures Dull(cs, retry) == [] == ReReadTargets(cs, retry)
  {
    if cs != [] {
      SharpClaimsAreNoTargets(cs[1..], retry);
    }
  }

  /** Stamps that were sharp at the start still are, and then no claim has to be read again. */
  lemma SharpClaimsNeedNoReRead(pairs: seq<Pair>, batches: seq<ReceiptBatch>, start: seq<nat>, retry: nat)
    requires IsPlan(batches) && PairsFor(pairs, batches) && Risen(start, Stamps(batches), retry)
    ensures AllSharp(start, retry) ==> ReReadTargets(Claims(ReadingsOf(pairs)), retry) == []
  {
    if AllSharp(start, retry) {
      var cs := Claims(ReadingsOf(pairs));
      ClaimsOfPairs(pairs, batches, retry, {});
      forall c <- cs ensures c.dpi >= retry {
        assert pairs[c.index].batch == batches[c.index] && Stamps(batches)[c.index] >= retry;
      }
      SharpClaimsAreNoTargets(cs, retry);
    }
  }

  /** The readings of a first pass: one a batch, under its stamp, with an answer of the provider. */
  ghost predicate FirstReadings(rs: seq<Reading>, batches: seq<ReceiptBatch>, stamps: seq<nat>,
                                replies: nat -> Option<Reply>)
  {
    |rs| == |batches| == |stamps| && forall k :: 0 <= k < |rs| ==>
      && rs[k].index == k && rs[k].lastPage == batches[k].lastPage && rs[k].dpi == stamps[k]
      && OwnReply(rs[k].reply, replies)
  }

  lemma AreFirstReadings(pairs: seq<Pair>, batches: seq<ReceiptBatch>, stamps: seq<nat>, provider: Provider)
    requires IsPlan(batches) && PairsFor(pairs, batches) && OwnReplies(pairs, provider.replies)
    requires Willing(provider) ==> Stamps(batches) == stamps
    ensures Willing(provider) ==> FirstReadings(ReadingsOf(pairs), batches, stamps, provider.replies)
  {
  }

  /** Both passes over the batches, before the merge. `seen` is what the first pass read. */
  method ReadAndVerify(batches: seq<ReceiptBatch>, provider: Provider, retry: nat)
    returns (ok: bool, pairs: seq<Pair>, retries: nat, verifiedAt: Option<nat>, notes: seq<Reason>,
             ghost again: set<nat>, ghost seen: seq<Reading>)
    requires IsPlan(batches)
    modifies provider, batches
    ensures Risen(old(Stamps(batches)), Stamps(batches), retry)
    ensures ok ==> PairsFor(pairs, batches)
    ensures ok ==> AllSettled(pairs, old(Stamps(batches)), retry)
    ensures ok ==> retries == |again| && AskedOnceMore(old(provider.asked), provider.asked, |batches|, again)
    ensures ok ==> Within(again, |batches|)
    ensures ok ==> verifiedAt == AcceptedStamp(Claims(ReadingsOf(pairs)))
    ensures ok && notes == [] && verifiedAt.Some? ==> verifiedAt.value >= retry
    ensures if ok then OwnReplies(pairs, provider.replies) else CanFail(provider.replies)
    ensures ok && AllSharp(old(Stamps(batches)), retry) ==>
              retries == 0 && notes == [] && FirstAnswers(pairs, provider.replies, |old(provider.asked)|)
    ensures ok && Willing(provider) ==> FirstReadings(seen, batches, old(Stamps(batches)), provider.replies)
    ensures ok ==> AllSharpened(seen, batches, provider, retry)
  {
    pairs, verifiedAt, notes, seen := [], None, [], [];
    ghost var stamps0 := Stamps(batches);
    var first;
    ok, first, retries, again := FirstPass(batches, provider, retry);
    if !ok {
      return false, pairs, retries, verifiedAt, notes, again, seen;
    }
    ghost var mid := Stamps(batches);
    SettledWere(first, batches, stamps0, retry);
    SharpClaimsNeedNoReRead(first, batches, stamps0, retry);
    seen := ReadingsOf(first);
    AreFirstReadings(first, batches, stamps0, provider);
    var calls;
    ghost var asked0 := old(provider.asked);
    ok, pairs, calls, verifiedAt, notes, again :=
      VerifyGrandTotal(batches, first, provider, retry, asked0, again, seen);
    RisenTwice(stamps0, mid, Stamps(batches), retry);
    if !ok {
      return false, pairs, retries, verifiedAt, notes, again, seen;
    }
    retries := retries + calls;
    SettledForGood(pairs, first, stamps0, mid, retry);
  }

  /** A stamp tells what its answer was read at exactly when it was honest at the start of the run. */
  ghost predicate HonestWhereFresh(pairs: seq<Pair>, start: seq<nat>)
    reads (set p <- pairs :: p.batch)
  {
    |pairs| == |start| && forall k :: 0 <= k < |pairs| ==>
      (pairs[k].batch.dpi == pairs[k].reply.pixels <==> start[k] == pairs[k].batch.imageDpi)
  }

  lemma SettledIsHonestWhereFresh(pairs: seq<Pair>, batches: seq<ReceiptBatch>, start: seq<nat>, retry: nat)
    requires PairsFor(pairs, batches) && AllSettled(pairs, start, retry) && WellStamped(batches, start, retry)
    ensures HonestWhereFresh(pairs, start)
  {
    forall k | 0 <= k < |pairs|
      ensures pairs[k].batch.dpi == pairs[k].reply.pixels <==> start[k] == pairs[k].batch.imageDpi
    {
      assert pairs[k].batch == batches[k];
      StampsAreHonest(pairs[k], start[k], retry);
    }
  }

  /** No stamp claims more than a re-read by this or an earlier provider could have justified. */
  ghost predicate WellStamped(batches: seq<ReceiptBatch>, start: seq<nat>, retry: nat) {
    |batches| == |start| && forall k ::
        0 <= k < |batches|
        ==> start[k] == batches[k].imageDpi || batches[k].imageDpi < retry == start[k]
  }

  lemma RisenStaysStamped(batches: seq<ReceiptBatch>, start: seq<nat>, end: seq<nat>, retry: nat)
    requires WellStamped(batches, start, retry) && Risen(start, end, retry)
    ensures WellStamped(batches, end, retry)
  {
  }

  /** Every extra call is counted, and no batch is asked about more than twice. */
  ghost predicate CallsAreCounted(before: seq<Ask>, after: seq<Ask>, n: nat, merged: Merged) {
    && merged.dpiRetries == |after| - |before| - n
    && forall k: nat :: CountAsks(after, k) <= CountAsks(before, k) + if k < n then 2 else 0
  }

  lemma CallsCounted(before: seq<Ask>, after: seq<Ask>, n: nat, again: set<nat>, merged: Merged)
    requires AskedOnceMore(before, after, n, again) && Within(again, n) && merged.dpiRetries == |again|
    ensures CallsAreCounted(before, after, n, merged)
  {
    NeverAskedTwiceMore(before, after, n, again);
  }

  lemma NothingObjectsMeansVerified(rs: seq<Reading>, merged: Merged, pagesTotal: nat, pagesUsed: nat, retry: nat)
    requires Says(merged, rs) && merged.verifiedAt == AcceptedStamp(Claims(rs))
    ensures !MergeObjects(rs, pagesTotal, pagesUsed) && merged.verifiedAt.Some? && merged.verifiedAt.value >= retry
            ==> TotalIsVerified(rs, merged, retry)
    ensures Claims(rs) != [] <==> merged.verifiedAt.Some?
  {
    var cs := Claims(rs);
    if cs != [] {
      TotalMeans(cs[|cs| - 1].reply);
    }
  }

  /**
   When a total is claimed, the resolution reported for it is what it was read at exactly when its batch's
   stamp was true.
   */
  ghost predicate ReportsHonestly(rs: seq<Reading>, batches: seq<ReceiptBatch>, start: seq<nat>, merged: Merged) {
    var cs := Claims(rs);
    cs != [] ==>
      var c := cs[|cs| - 1];
      && c.index < |batches| == |start|
      && (merged.verifiedAt == Some(c.reply.pixels) <==> start[c.index] == batches[c.index].imageDpi)
  }

  lemma HonestWhereItCounts(pairs: seq<Pair>, batches: seq<ReceiptBatch>, start: seq<nat>, merged: Merged)
    requires IsPlan(batches) && PairsFor(pairs, batches) && HonestWhereFresh(pairs, start)
    requires merged.verifiedAt == AcceptedStamp(Claims(ReadingsOf(pairs)))
    ensures ReportsHonestly(ReadingsOf(pairs), batches, start, merged)
  {
    var cs := Claims(ReadingsOf(pairs));
    ClaimsOfPairs(pairs, batches, 0, {});
    if cs != [] {
      var c := cs[|cs| - 1];
      assert c in cs && pairs[c.index].batch == batches[c.index];
    }
  }

  /**
   A batched run over one plan with one provider. `pairs` are the answers the merge was given, `seen` is what
   the first pass read.
   */
  method RunBatchedPlan(batches: seq<ReceiptBatch>, provider: Provider, retry: nat, pagesTotal: nat, pagesUsed: nat)
    returns (ok: bool, merged: Merged, ghost pairs: seq<Pair>, ghost seen: seq<Reading>)
    requires IsPlan(batches) && WellStamped(batches, Stamps(batches), retry)
    modifies provider, batches
    ensures WellStamped(batches, Stamps(batches), retry) && Risen(old(Stamps(batches)), Stamps(batches), retry)
    ensures batches == [] ==> !ok
    ensures ok ==> PairsFor(pairs, batches)
    ensures ok ==> CallsAreCounted(old(provider.asked), provider.asked, |batches|, merged)
    // an unflagged total is claimed, undisputed, and stamped at the retry resolution or sharper
    ensures ok && !FlaggedLow(merged) ==> TotalIsVerified(ReadingsOf(pairs), merged, retry)
    ensures ok ==> merged.verifiedAt == AcceptedStamp(Claims(ReadingsOf(pairs)))
    ensures ok ==> HonestWhereFresh(pairs, old(Stamps(batches)))
    // the reported resolution is true exactly when the accepted batch's stamp was, whatever the result is flagged for
    ensures ok ==> ReportsHonestly(ReadingsOf(pairs), batches, old(Stamps(batches)), merged)
    // nothing but a failing call stops a run, and nothing but the provider's answers enters it
    ensures if ok then OwnReplies(pairs, provider.replies) else batches == [] || CanFail(provider.replies)
    ensures ok ==> Says(merged, ReadingsOf(pairs)) && MoneyIsReadOff(merged, ReadingsOf(pairs))
    // a run over sharp stamps re-reads nothing and flags only what the merge objects to
    ensures ok && AllSharp(old(Stamps(batches)), retry) ==>
              && merged.dpiRetries == 0
              && FirstAnswers(pairs, provider.replies, |old(provider.asked)|)
              && (FlaggedLow(merged) <==> MergeObjects(ReadingsOf(pairs), pagesTotal, pagesUsed))
    // a provider that never balks gets what the first pass calls for sharpened
    ensures ok && Willing(provider) ==> FirstReadings(seen, batches, old(Stamps(batches)), provider.replies)
    ensures ok ==> AllSharpened(seen, batches, provider, retry)
  {
    ghost var start := Stamps(batches);
    merged, pairs, seen := Merged(Blank, Blank, false, false, [], 0, None), [], [];
    if batches == [] {
      return false, merged, pairs, seen;
    }
    var read, retries, verifiedAt, notes;
    ghost var again;
    ok, read, retries, verifiedAt, notes, again, seen := ReadAndVerify(batches, provider, retry);
    RisenStaysStamped(batches, start, Stamps(batches), retry);
    if !ok {
      return false, merged, pairs, seen;
    }
    pairs := read;
    ReadingsHaveOwnIndex(read, batches);
    merged := MergeVerified(ReadingsOf(read), pagesTotal, pagesUsed, notes, retries, verifiedAt);
    NothingObjectsMeansVerified(ReadingsOf(read), merged, pagesTotal, pagesUsed, retry);
    CallsCounted(old(provider.asked), provider.asked, |batches|, again, merged);
    SettledIsHonestWhereFresh(pairs, batches, start, retry);
    HonestWhereItCounts(pairs, batches, start, merged);
  }

  /** The answer whose total is reported. */
  function Accepted(rs: seq<Reading>): Reply
    requires Claims(rs) != []
  {
    Claims(rs)[|Claims(rs)| - 1].reply
  }

  /** The total was really read at the resolution reported, and that is the retry resolution or sharper. */
  ghost predicate TotalIsSharp(rs: seq<Reading>, merged: Merged, retry: nat) {
    var cs := Claims(rs);
    && TotalIsVerified(rs, merged, retry)
    && merged.verifiedAt == Some(cs[|cs| - 1].reply.pixels) && cs[|cs| - 1].reply.pixels >= retry
  }

  /** On a plan no provider has touched yet, the reported resolution is true, and it is the retry one unless flagged. */
  method RunFreshPlan(batches: seq<ReceiptBatch>, provider: Provider, retry: nat, pagesTotal: nat, pagesUsed: nat)
    returns (ok: bool, merged: Merged, ghost pairs: seq<Pair>)
    requires IsPlan(batches) && forall k :: 0 <= k < |batches| ==> batches[k].dpi == batches[k].imageDpi
    modifies provider, batches
    ensures ok ==> PairsFor(pairs, batches)
    ensures ok && Claims(ReadingsOf(pairs)) != [] ==> merged.verifiedAt == Some(Accepted(ReadingsOf(pairs)).pixels)
    ensures ok && !FlaggedLow(merged) ==> TotalIsSharp(ReadingsOf(pairs), merged, retry)
  {
    ghost var start := Stamps(batches);
    assert forall k :: 0 <= k < |batches| ==> start[k] == batches[k].imageDpi;
    ghost var seen;
    ok, merged, pairs, seen := RunBatchedPlan(batches, provider, retry, pagesTotal, pagesUsed);
  }
}
