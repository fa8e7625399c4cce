/**
 The plan of a long scanned receipt, and the chain of providers that share it: each may raise stamps the next
 one finds, while the page images stay as they were rendered.
 */
module ReceiptChain {
  import opened Basics
  import opened ReceiptClaims
  import opened ReceiptReader

  // ----------------------------------------------------------------------------------- the plan

  const RECEIPT_BATCH_SIZE: nat := 4
  const RECEIPT_SINGLE_CALL_MAX_PAGES: nat := 4
  const RECEIPT_MAX_VISION_PAGES: nat := 40

  /** The first four pages are rendered at one resolution, the others at another. */
  function PageDpi(page: nat, firstDpi: nat, overflowDpi: nat): nat {
    if page <= RECEIPT_SINGLE_CALL_MAX_PAGES then firstDpi else overflowDpi
  }

  /** `dpi` is the lowest resolution among the pages from `first` to `last`. */
  ghost predicate LowestDpi(dpi: nat, first: nat, last: nat, firstDpi: nat, overflowDpi: nat) {
    && (forall page :: first <= page <= last ==> dpi <= PageDpi(page, firstDpi, overflowDpi))
    && (exists page :: first <= page <= last && dpi == PageDpi(page, firstDpi, overflowDpi))
  }

  method FaintestPage(first: nat, last: nat, firstDpi: nat, overflowDpi: nat) returns (dpi: nat)
    requires first <= last
    ensures LowestDpi(dpi, first, last, firstDpi, overflowDpi)
  {
    dpi := PageDpi(first, firstDpi, overflowDpi);
    for page := first to last
      invariant LowestDpi(dpi, first, page, firstDpi, overflowDpi)
    {
      if PageDpi(page + 1, firstDpi, overflowDpi) < dpi {
        dpi := PageDpi(page + 1, firstDpi, overflowDpi);
      }
    }
  }

  ghost predicate WellCut(b: ReceiptBatch, firstDpi: nat, overflowDpi: nat)
    reads b
  {
    && 1 <= b.firstPage <= b.lastPage < b.firstPage + 4
    && b.dpi == b.imageDpi && b.hasSource
    && LowestDpi(b.imageDpi, b.firstPage, b.lastPage, firstDpi, overflowDpi)
  }

  /** Consecutive batches covering exactly the pages 1 to `pages`, all of them full but perhaps the last. */
  ghost predicate Tiles(batches: seq<ReceiptBatch>, pages: nat) {
    && (batches != [] ==> batches[0].firstPage == 1)
    && (forall j, k :: 0 <= j && j + 1 == k < |batches| ==> batches[k].firstPage == batches[j].lastPage + 1)
    && (if batches == [] then 0 else batches[|batches| - 1].lastPage) == pages
    && forall k :: 0 <= k < |batches| - 1 ==> batches[k].lastPage == 4 * (k + 1)
  }

  /** Cuts a scanned document into batches, each stamped with the lowest resolution of its pages. */
  method BuildPlan(pageCount: nat, firstDpi: nat, overflowDpi: nat) returns (batches: seq<ReceiptBatch>, pagesUsed: nat)
    ensures pagesUsed == if pageCount < 40 then pageCount else 40
    ensures IsPlan(batches) && fresh(batches) && Tiles(batches, pagesUsed)
    ensures forall b <- batches :: WellCut(b, firstDpi, overflowDpi)
    // the first batch holds the first four pages, and no other batch holds any of them
    ensures forall k :: 0 <= k < |batches| ==>
              batches[k].dpi == batches[k].imageDpi == if k == 0 then firstDpi else overflowDpi
  {
    pagesUsed := if pageCount < RECEIPT_MAX_VISION_PAGES then pageCount else RECEIPT_MAX_VISION_PAGES;
    batches := [];
    var start := 0;
    while start < pagesUsed
      invariant 0 <= start <= pagesUsed
      invariant IsPlan(batches) && fresh(batches) && Tiles(batches, start)
      invariant start == pagesUsed || start == RECEIPT_BATCH_SIZE * |batches|
      invariant forall b <- batches :: WellCut(b, firstDpi, overflowDpi)
    {
      var last := if start + RECEIPT_BATCH_SIZE < pagesUsed then start + RECEIPT_BATCH_SIZE else pagesUsed;
      var dpi := FaintestPage(start + 1, last, firstDpi, overflowDpi);
      var batch := new ReceiptBatch(|batches|, start + 1, last, dpi, true);
      OneMoreTile(batches, batch, start);
      batches := batches + [batch];
      start := last;
    }
    FirstBatchHoldsTheFirstPages(batches, pagesUsed, firstDpi, overflowDpi);
  }

  lemma FirstBatchHoldsTheFirstPages(batches: seq<ReceiptBatch>, pages: nat, firstDpi: nat, overflowDpi: nat)
    requires Tiles(batches, pages) && forall b <- batches :: WellCut(b, firstDpi, overflowDpi)
    ensures forall k :: 0 <= k < |batches| ==>
              batches[k].dpi == batches[k].imageDpi == if k == 0 then firstDpi else overflowDpi
  {
    forall k | 0 <= k < |batches|
      ensures batches[k].dpi == batches[k].imageDpi == if k == 0 then firstDpi else overflowDpi
    {
      assert batches[k] in batches;
      if k > 0 {
        assert batches[k].firstPage == batches[k - 1].lastPage + 1 && batches[k - 1].lastPage == 4 * k;
      }
    }
  }

  lemma OneMoreTile(batches: seq<ReceiptBatch>, batch: ReceiptBatch, pages: nat)
    requires Tiles(batches, pages) && pages == RECEIPT_BATCH_SIZE * |batches| && batch.firstPage == pages + 1
    ensures Tiles(batches + [batch], batch.lastPage)
  {
  }

  // --------------------------------------------------------------------------------- the provider chain

  /** No vendor, but a date and a total: the next provider is asked for a second opinion. */
  predicate NeedsSecondOpinion(m: Merged) {
    !m.named && m.dated && Figure(m.total) > 0.0
  }

  /** What a result rests on, whoever gave it: `rs` was read by a run that found the stamps `start`. */
  ghost predicate Rests(rs: seq<Reading>, batches: seq<ReceiptBatch>, start: seq<nat>, merged: Merged, retry: nat) {
    && MoneyIsReadOff(merged, rs)
    && ReportsHonestly(rs, batches, start, merged)
    && (!FlaggedLow(merged) ==> TotalIsVerified(rs, merged, retry))
  }

  /** How a chain went: `results` has an entry for each provider asked, None where it failed. */
  ghost predicate ChainWent(results: seq<Option<Merged>>, n: nat) {
    && |results| <= n
    && (forall i :: 0 <= i < |results| - 1 && results[i].Some? ==> HandsOver(results[i].value))
    && (|results| < n ==>
          results != [] && results[|results| - 1].Some? && !HandsOver(results[|results| - 1].value))
  }

  /** The answer has a date and a total over zero, and names no vendor. */
  ghost predicate HandsOver(m: Merged) {
    m.dated && !m.named && m.total.Text? && m.total.figure > 0.0
  }

  /** The answer that counts is the last one given, by the provider `giver`. */
  ghost predicate LastGiven(results: seq<Option<Merged>>, last: Option<Merged>, giver: nat) {
    if last.None? then forall i :: 0 <= i < |results| ==> results[i].None?
    else giver < |results| && results[giver] == last && forall i :: giver < i < |results| ==> results[i].None?
  }

  /** One provider of the chain. */
  method RunNext(batches: seq<ReceiptBatch>, provider: Provider, retry: nat, pagesTotal: nat, pagesUsed: nat)
    returns (result: Option<Merged>, ghost rs: seq<Reading>)
    requires IsPlan(batches) && WellStamped(batches, Stamps(batches), retry)
    modifies provider, batches
    ensures WellStamped(batches, Stamps(batches), retry)
    ensures if result.Some? then Rests(rs, batches, old(Stamps(batches)), result.value, retry)
            else batches == [] || CanFail(provider.replies)
  {
    ghost var pairs, seen;
    var ok, merged;
    ok, merged, pairs, seen := RunBatchedPlan(batches, provider, retry, pagesTotal, pagesUsed);
    rs := ReadingsOf(pairs);
    result := if ok then Some(merged) else None;
  }

  /** A provider gave no answer only because one of its calls failed, or because there was no page to read. */
  ghost predicate FailuresExplained(results: seq<Option<Merged>>, providers: seq<Provider>,
                                    batches: seq<ReceiptBatch>)
  {
    |results| <= |providers| && forall i ::
        0 <= i < |results| && results[i].None?
        ==> batches == [] || CanFail(providers[i].replies)
  }

  ghost predicate AllHandOver(results: seq<Option<Merged>>) {
    forall i :: 0 <= i < |results| && results[i].Some? ==> NeedsSecondOpinion(results[i].value)
  }

  lemma ChainExtends(results: seq<Option<Merged>>, providers: seq<Provider>, batches: seq<ReceiptBatch>,
                     result: Option<Merged>, last: Option<Merged>, giver: nat)
    requires AllHandOver(results) && LastGiven(results, last, giver) && |results| < |providers|
    requires FailuresExplained(results, providers, batches)
    requires result.None? ==> batches == [] || CanFail(providers[|results|].replies)
    ensures FailuresExplained(results + [result], providers, batches)
    ensures result.Some? ==> LastGiven(results + [result], result, |results|)
    ensures result.None? ==> LastGiven(results + [result], last, giver)
    ensures result.None? || NeedsSecondOpinion(result.value) ==> AllHandOver(results + [result])
    ensures result.Some? && (|results| + 1 == |providers| || !NeedsSecondOpinion(result.value))
            ==> ChainWent(results + [result], |providers|)
  {
  }

  /**
   The chain over one plan: a provider that fails, or whose answer needs a second opinion, hands over to the
   next, and the last answer given counts. `giver` gave it, having found the stamps `start`.
   */
  method RunChain(batches: seq<ReceiptBatch>, providers: seq<Provider>, retry: nat, pagesTotal: nat, pagesUsed: nat)
    returns (last: Option<Merged>, ghost results: seq<Option<Merged>>, ghost giver: nat,
             ghost rs: seq<Reading>, ghost start: seq<nat>)
    requires IsPlan(batches) && WellStamped(batches, Stamps(batches), retry)
    modifies providers, batches
    ensures WellStamped(batches, Stamps(batches), retry)
    ensures ChainWent(results, |providers|) && LastGiven(results, last, giver)
    ensures FailuresExplained(results, providers, batches)
    ensures last.Some? ==> Rests(rs, batches, start, last.value, retry)
    ensures last.Some? && giver == 0 ==> start == old(Stamps(batches))
  {
    last, results, giver, rs, start := None, [], 0, [], [];
    for i := 0 to |providers|
      invariant WellStamped(batches, Stamps(batches), retry)
      invariant |results| == i && LastGiven(results, last, giver) && AllHandOver(results)
      invariant FailuresExplained(results, providers, batches)
      invariant last.Some? ==> Rests(rs, batches, start, last.value, retry)
      invariant last.Some? && giver == 0 ==> start == old(Stamps(batches))
      invariant i == 0 ==> Stamps(batches) == old(Stamps(batches))
    {
      ghost var found := Stamps(batches);
      var result;
      ghost var readings;
      result, readings := RunNext(batches, providers[i], retry, pagesTotal, pagesUsed);
      ChainExtends(results, providers, batches, result, last, giver);
      results := results + [result];
      if result.Some? {
        last, giver, rs, start := result, i, readings, found;
        if i == |providers| - 1 || !NeedsSecondOpinion(result.value) {
          break;
        }
      }
    }
  }

  /** An answer that claims `figure` as the grand total of page 8 and reads a date, but no vendor. */
  function NamelessTotal(figure: real): Reply {
    Reply(map["total" := Text(figure, None, false, false), "grand_total_page" := Text(8.0, Some(8), false, false),
              "date" := Text(20260301.0, None, false, false)], false, 0)
  }

  /** Two batches, the first rendered at 200 dpi and the second at 150. */
  ghost predicate TwoBatches(batches: seq<ReceiptBatch>) {
    && |batches| == 2 && IsPlan(batches) && AllSourced(batches) && batches[1].lastPage == 8
    && batches[0].imageDpi == 200 && batches[1].imageDpi == 150
  }

  lemma EightPages(batches: seq<ReceiptBatch>)
    requires IsPlan(batches) && Tiles(batches, 8) && forall b <- batches :: WellCut(b, 200, 150)
    ensures TwoBatches(batches) && Stamps(batches) == [200, 150]
  {
    var n := |batches|;
    assert n > 0 && batches[0] in batches && batches[n - 1] in batches;
    assert batches[0].firstPage == 1;
    if n > 1 {
      assert batches[n - 2].lastPage == RECEIPT_BATCH_SIZE * (n - 1);
      assert batches[n - 1].firstPage == batches[n - 2].lastPage + 1;
    }
    assert n == 2;
  }

  /** Two readings of one such answer: both claim the total, and the later batch's claim is accepted. */
  lemma {:induction false} TwoNamelessReadings(rs: seq<Reading>, figure: real)
    requires |rs| == 2 && figure > 0.0 && forall k :: 0 <= k < 2 ==> rs[k].index == k
    requires forall r <- rs :: r.reply.fields == NamelessTotal(figure).fields && !r.reply.low
    ensures Claims(rs) == [Claim(8, 0, rs[0].dpi, rs[0].reply, figure), Claim(8, 1, rs[1].dpi, rs[1].reply, figure)]
    ensures AllNearFirst(Claims(rs)) && Figure(MergedTotal(rs)) == figure
    ensures !Reports(rs, "vendor") && Reports(rs, "date")
  {
    assert rs[0] in rs && rs[1] in rs;
    NamelessClaim(rs[0], figure);
    NamelessClaim(rs[1], figure);
    assert rs[1..] == [rs[1]] && [rs[1]][1..] == [];
    assert Claims(rs[1..]) == [Claim(8, 1, rs[1].dpi, rs[1].reply, figure)];
  }

  lemma NamelessClaim(r: Reading, figure: real)
    requires figure > 0.0 && r.reply.fields == NamelessTotal(figure).fields
    ensures ClaimOf(r) == Some(Claim(8, r.index, r.dpi, r.reply, figure))
  {
    assert NamedPage(r.reply, PAGE_KEYS) == Some(8);
  }

  /** What comes back when every answer of the provider is that one. */
  lemma AlwaysNameless(rs: seq<Reading>, replies: nat -> Option<Reply>, figure: real)
    requires forall n :: replies(n) == Some(NamelessTotal(figure))
    requires forall r <- rs :: OwnReply(r.reply, replies)
    ensures forall r <- rs :: r.reply.fields == NamelessTotal(figure).fields && !r.reply.low
  {
  }

  lemma NamelessPairs(pairs: seq<Pair>, batches: seq<ReceiptBatch>, replies: nat -> Option<Reply>, figure: real)
    requires TwoBatches(batches) && figure > 0.0 && forall n :: replies(n) == Some(NamelessTotal(figure))
    requires PairsFor(pairs, batches) && OwnReplies(pairs, replies)
    ensures var rs := ReadingsOf(pairs);
            && Claims(rs) == [Claim(8, 0, batches[0].dpi, pairs[0].reply, figure),
                Claim(8, 1, batches[1].dpi, pairs[1].reply, figure)]
            && AllNearFirst(Claims(rs)) && Figure(MergedTotal(rs)) == figure
            && !Reports(rs, "vendor") && Reports(rs, "date")
            && forall r <- rs :: !r.reply.low
  {
    AlwaysNameless(ReadingsOf(pairs), replies, figure);
    TwoNamelessReadings(ReadingsOf(pairs), figure);
  }

  method Nameless(figure: real) returns (provider: Provider)
    ensures fresh(provider) && provider.asked == []
    ensures forall n :: provider.replies(n) == Some(NamelessTotal(figure)) && provider.renderable(n)
  {
    provider := new Provider(_ => Some(NamelessTotal(figure)), _ => true);
  }

  lemma NamelessIsWilling(provider: Provider, figure: real)
    requires forall n :: provider.replies(n) == Some(NamelessTotal(figure)) && provider.renderable(n)
    ensures Willing(provider)
  {
    assert "total" in NamelessTotal(figure).fields && IsContent("total", NamelessTotal(figure).fields["total"]);
  }

  /** The first pass calls for the later batch to be read again, and nothing is in the way. */
  lemma LaterBatchIsSharpened(seen: seq<Reading>, batches: seq<ReceiptBatch>, provider: Provider, figure: real)
    requires TwoBatches(batches) && figure > 0.0
    requires forall n :: provider.replies(n) == Some(NamelessTotal(figure)) && provider.renderable(n)
    requires Willing(provider) && FirstReadings(seen, batches, [200, 150], provider.replies)
    requires AllSharpened(seen, batches, provider, 200)
    ensures batches[1].dpi >= 200
  {
    AlwaysNameless(seen, provider.replies, figure);
    TwoNamelessReadings(seen, figure);
    var targets := ReReadTargets(Claims(seen), 200);
    assert targets == [Claims(seen)[1]] by {
      OneDistinctTotalMeansAgreement(Claims(seen));
    }
    assert targets[0].index == 1;
  }

  /** A provider that never balks answers the whole run, and what its first pass calls for is sharpened. */
  method RunWilling(batches: seq<ReceiptBatch>, provider: Provider, retry: nat, pagesTotal: nat, pagesUsed: nat)
    returns (merged: Merged, ghost pairs: seq<Pair>, ghost seen: seq<Reading>)
    requires IsPlan(batches) && batches != [] && WellStamped(batches, Stamps(batches), retry) && Willing(provider)
    modifies provider, batches
    ensures Risen(old(Stamps(batches)), Stamps(batches), retry)
    ensures PairsFor(pairs, batches) && OwnReplies(pairs, provider.replies) && Says(merged, ReadingsOf(pairs))
    ensures FirstReadings(seen, batches, old(Stamps(batches)), provider.replies)
    ensures AllSharpened(seen, batches, provider, retry)
  {
    var ok;
    ok, merged, pairs, seen := RunBatchedPlan(batches, provider, retry, pagesTotal, pagesUsed);
  }

  /** The first provider re-reads the later batch, whose stamp moves up, and its answer needs a second opinion. */
  method FirstOpinion(batches: seq<ReceiptBatch>, figure: real) returns (merged: Merged)
    requires TwoBatches(batches) && Stamps(batches) == [200, 150] && figure > 0.0
    modifies batches
    ensures NeedsSecondOpinion(merged) && Stamps(batches) == [200, 200]
  {
    var provider := Nameless(figure);
    NamelessIsWilling(provider, figure);
    ghost var pairs, seen;
    merged, pairs, seen := RunWilling(batches, provider, 200, 8, 8);
    NamelessNeedsSecondOpinion(pairs, batches, provider.replies, figure, merged);
    LaterBatchIsSharpened(seen, batches, provider, figure);
    assert Stamps(batches)[1] == 200;
  }

  lemma NamelessNeedsSecondOpinion(pairs: seq<Pair>, batches: seq<ReceiptBatch>, replies: nat -> Option<Reply>,
                                   figure: real, merged: Merged)
    requires TwoBatches(batches) && figure > 0.0 && forall n :: replies(n) == Some(NamelessTotal(figure))
    requires PairsFor(pairs, batches) && OwnReplies(pairs, replies) && Says(merged, ReadingsOf(pairs))
    ensures NeedsSecondOpinion(merged)
  {
    NamelessPairs(pairs, batches, replies, figure);
  }

  /** Over sharp stamps a provider that never fails is asked once a batch, and only the merge can object. */
  method RunOverSharpStamps(batches: seq<ReceiptBatch>, provider: Provider, retry: nat, pagesTotal: nat, pagesUsed: nat)
    returns (merged: Merged, ghost pairs: seq<Pair>)
    requires IsPlan(batches) && batches != [] && WellStamped(batches, Stamps(batches), retry)
    requires AllSharp(Stamps(batches), retry) && !CanFail(provider.replies)
    modifies provider, batches
    ensures Stamps(batches) == old(Stamps(batches))
    ensures PairsFor(pairs, batches) && OwnReplies(pairs, provider.replies) && Says(merged, ReadingsOf(pairs))
    ensures FirstAnswers(pairs, provider.replies, |old(provider.asked)|)
    ensures merged.verifiedAt == AcceptedStamp(Claims(ReadingsOf(pairs))) && merged.dpiRetries == 0
    ensures FlaggedLow(merged) <==> MergeObjects(ReadingsOf(pairs), pagesTotal, pagesUsed)
  {
    var ok;
    ghost var seen;
    ok, merged, pairs, seen := RunBatchedPlan(batches, provider, retry, pagesTotal, pagesUsed);
  }

  /** The second provider finds both stamps sharp, re-reads nothing, and reports what it read at 150 as read at 200. */
  method SecondOpinion(batches: seq<ReceiptBatch>, figure: real) returns (merged: Merged, ghost rs: seq<Reading>)
    requires TwoBatches(batches) && Stamps(batches) == [200, 200] && figure > 0.0
    modifies batches
    ensures !FlaggedLow(merged) && Claims(rs) != [] && Says(merged, rs) && Figure(merged.total) == figure
    ensures merged.verifiedAt == Some(200) && Accepted(rs).pixels == 150
  {
    var provider := Nameless(figure);
    ghost var pairs;
    merged, pairs := RunOverSharpStamps(batches, provider, 200, 8, 8);
    rs := ReadingsOf(pairs);
    LaterClaimIsStale(pairs, batches, provider.replies, figure, merged);
    assert Stamps(batches)[1] == 200;
  }

  lemma LaterClaimIsStale(pairs: seq<Pair>, batches: seq<ReceiptBatch>, replies: nat -> Option<Reply>, figure: real,
                          merged: Merged)
    requires TwoBatches(batches) && figure > 0.0 && forall n :: replies(n) == Some(NamelessTotal(figure))
    requires PairsFor(pairs, batches) && OwnReplies(pairs, replies) && Some(pairs[1].reply) == AnswerTo(replies(1), 150)
    requires Says(merged, ReadingsOf(pairs)) && merged.verifiedAt == AcceptedStamp(Claims(ReadingsOf(pairs)))
    ensures !MergeObjects(ReadingsOf(pairs), 8, 8) && Claims(ReadingsOf(pairs)) != [] && Figure(merged.total) == figure
    ensures merged.verifiedAt == Some(batches[1].dpi) && Accepted(ReadingsOf(pairs)).pixels == 150
  {
    NamelessPairs(pairs, batches, replies, figure);
  }

  /**
   The promise fails when a second provider takes over a plan on which an earlier one re-read a batch: the stamp
   has moved up, the page images have not. An eight-page scan is read by a provider that finds a total and a date
   on it but no vendor; the next one reads some other figure off the 150 dpi images of the last four pages, and
   that figure is reported, unflagged, as verified at 200.
   */
  method StaleStampGoesUnnoticed(figure: real, misread: real)
    returns (earlier: Merged, merged: Merged, ghost rs: seq<Reading>)
    requires figure > 0.0 && misread > 0.0
    ensures NeedsSecondOpinion(earlier)
    ensures !FlaggedLow(merged) && Claims(rs) != [] && Says(merged, rs) && Figure(merged.total) == misread
    ensures merged.verifiedAt == Some(200) && Accepted(rs).pixels == 150
  {
    var batches, pages := BuildPlan(8, 200, 150);
    EightPages(batches);
    earlier := FirstOpinion(batches, figure);
    merged, rs := SecondOpinion(batches, misread);
  }
}
