# Ledger engine: a verified model

This project models the parts of a bookkeeping engine whose mistakes cost money: which bank rows are joined as
transfers, what a long receipt's total is trusted to be, when a bank statement's reading is believed, what an audit
binder adds up to and opens, and the small state machines around them. Each component is written as the program is,
loops as loops and stateful objects as classes, and proved against a specification; the theorems are about that
specification.

| file | component |
|---|---|
| `Transfers`, `LinkScoring`, `TransferLinker` | rows, the score of a pair, and the deterministic linker from pool to classified links |
| `GreedyAssignment`, `GreedyTheorems` | the greedy assignment both linkers run, what every step keeps, and its optimality |
| `LinkChains` | the breadth-first grouping of links into chains |
| `LlmLinker` | cleaning model verdicts, assigning them, and collecting them from concurrent batches |
| `ReceiptClaims`, `ReceiptReader` | the batched reading of a receipt by an arbitrary model, and what an unflagged total rests on |
| `ReceiptChain` | the plan of a long receipt, and the chain of providers that share it |
| `JsonScanner` | cutting one JSON value out of surrounding text |
| `StatementValidation` | checking a model's reading of a statement, and the corrective retry |
| `StatementText`, `StatementReconstruction` | rebuilding signed transactions from running balances, out to CSV and back |
| `BinderFigures`, `BinderReport`, `BinderLedger` | the binder's money by currency, by category and section, and by account |
| `NameParts`, `ArchiveNames`, `BinderArchive` | names and paths inside the archive, the verified map, the proof tally and the list of missing proofs |
| `Migrations` | the migration runner under failures, crashes and concurrent runs |
| `VerdictMemory` | the verdict cache |
| `ReasonablenessBand` | dismissing, ranking, capping and summing up flags |
| `Basics`, `Sorting`, `NameOrder`, `Numerals` | shared vocabulary: options, sums, selections and stripped text, the stable sort, name order, decimal numerals |

`dafny verify dfyconfig.toml` checks everything. Money and scores are `real`, or `int` cents where text is printed and
parsed; uuids are a fresh counter; models, file stores and schedules are arbitrary functions or sequences.

## Where the code does less than it says

Each of these is stated as a lemma or a method contract, with the condition under which the promise does hold.

- `config/transfer_keywords.yaml:12-15` promises that a pair is a candidate only when both legs match a keyword, and that a
  leg matching nothing is never paired. The code admits a row by its category too and scores a pair on what else it has,
  so a card payment whose card side matches nothing is auto-approved on a whole run
  (`TransferLinker.OneSidedPaymentIsAutoApproved`, `LinkScoring.OneSidedPairReachesTheLine`). When exactly a pair not named
  by both legs is auto-approved, or proposed at all: `LinkScoring.UnnamedPairIsAutoApprovedExactly`,
  `LinkScoring.UnnamedPairIsProposedExactly`, `LinkScoring.UnnamedExactPairIsProposedExactly`.
- A refund leg larger than its charge is never linked (`GreedyTheorems.OversizedLegDefeatsTheBound`, on a whole run
  `TransferLinker.OversizedRefundIsDropped`), so the greedy pass is half-optimal exactly as long as every candidate fits
  under its anchor alone (`GreedyTheorems.BoundHoldsExactly`, `GreedyTheorems.AssignmentIsHalfOptimal`).
- Chains compare links as records, so equal links share none although they are connected; chains tell connection exactly
  when no link is listed twice (`LinkChains.EqualLinksShareNoChain`, `LinkChains.ChainsTellConnectionExactly`).
- A progress callback that raises after its batch was answered counts the batch twice, and as a failure although its
  reply is kept (`LlmLinker.CountersAtTheEnd`).
- `total_verified_at_dpi` is documented as the resolution the accepted figure was read at (`core/extraction.py:1268-1271`).
  A re-read raises a batch's stamp and leaves its page images, so when a second provider takes over the same plan the
  stamp can be 200 on a figure read at 150 (`ReceiptChain.StaleStampGoesUnnoticed`). The documentation is right exactly
  when the run that read the accepted figure found that batch's own resolution on it (`ReceiptReader.RunBatchedPlan`,
  `ReceiptChain.RunChain`), so always for the first provider of a plan (`ReceiptReader.RunFreshPlan`).
- A bracket in the text before a JSON value makes the scanner start there (`JsonScanner.ScannerInvertsPrinter`).
- A corrective retry is kept for a closer balance even when its confidence tier is lower
  (`StatementValidation.CloserBalanceCanLowerTheTier`); when exactly that happens is
  `StatementValidation.CloserBalanceLowersTheTierExactly`, part of the contract of `StatementValidation.ValidateWithRetry`
  and, under the default tolerance, `StatementValidation.RetriedMediumBecomesLowExactly`.
- A line of three amounts is documented as debit, credit and balance (`core/pdf_statement_parser.py:619`); such a line is
  always read as a debit of its first amount (`StatementReconstruction.ThreeColumnsAreAlwaysADebit`), and the balance is
  accounted for exactly when no such credit is lost (`StatementReconstruction.BalanceIsAccountedForExactly`).
- The row counts of the ledger workbook include transfers and those of the report do not
  (`BinderLedger.CountsAgreeWithoutTransfers`).

## Model

| member | source | states |
|---|---|---|
| `LinkScoring.ScoreKeywords` | core/transaction_linker.py:294-329 | The loop over both rows' keyword matches returns the evidence of the best compatible pair, first found among equals |
| `LinkScoring.BestPairMeans` | core/transaction_linker.py:294-329 | The pair kept has the highest summed priority of all compatible pairs, and its type is one that an entry on each row names from opposite sides |
| `LinkScoring.BestPairIsFirst` | core/transaction_linker.py:294-329 | Among pairs of equal priority the first counts, sources outermost; with no pair of positive priority the type is the catch-all |
| `LinkScoring.OneSidedEvidenceMeans` | core/transaction_linker.py:294-329 | When no type is named from both sides, the first of the strongest entries of both rows gives the type at 0.60, and with no entry at all it is the catch-all at 0.15 |
| `LinkScoring.PrintedRateMeansConversion` | core/transaction_linker.py:486-491 | A rate printed on either row between different currencies makes the pair a conversion, unless the keywords say it is a Wise transfer; otherwise the type is the keywords' own |
| `LinkScoring.ScoresStayInRange` | core/transaction_linker.py:495-526 | A proposed pair scores between the review threshold and 1 |
| `LinkScoring.AutoApprovalIsEarned` | core/transaction_linker.py:495-526 | A score at or over the auto-approval line means equal sums to the cent in one currency, or a CAD and a USD sum that a rate printed on either row converts into each other within half a per cent of the target |
| `LinkScoring.AmountScoreMeans` | core/transaction_linker.py:213-267 | For any two rows, exactly when the amount score is each of its values, read off the two sums, their currencies and the printed rates: equal sums, a gap of so many cents, the CAD sum against rate times the USD sum whichever row is the source, or a ratio inside the CAD/USD band |
| `LinkScoring.AccountScoreMeans` | core/transaction_linker.py:332-372 | The account score by the accounts of the two rows alone: full for a pair valid for the type, half for one valid for another, nothing otherwise |
| `LinkScoring.DateScoreMeans` | core/transaction_linker.py:270-291 | The date score is that of the first row of the type's table the gap in days is within, and nothing past the table |
| `LinkScoring.FinalScoreMeans` | core/transaction_linker.py:493-526 | The score is amount, dates, keywords and accounts by the weights 0.45, 0.25, 0.20 and 0.10, lifted to 0.92 for a certain pair and held at 0.85 for one currency and different sums |
| `LinkScoring.ProposedExactly` | core/transaction_linker.py:495-513 | A pair is proposed exactly when its weighted parts come to 0.55 and its days lie within the last day of its type: 3, 4, 7, 10, 21, or 14 for the catch-all |
| `LinkScoring.CertainPairsAreAutoApproved` | core/transaction_linker.py:510-523 | A certain pair is proposed exactly when it is inside its date window, and then always at or over the auto-approval line |
| `LinkScoring.CertainPairMeans` | core/transaction_linker.py:515-523 | Certain means: one of four types, one sum, one currency, an account pair valid for the type, and keywords on both rows that name it from opposite sides |
| `LinkScoring.UnnamedPairIsAutoApprovedExactly` | core/transaction_linker.py:483-612 | A pair whose rows do not both match a keyword of one type from opposite sides is still auto-approved exactly when one of them matches some keyword, the sums are equal in one currency, the days are equal and the account pair is valid for the type |
| `LinkScoring.UnnamedPairIsProposedExactly` | core/transaction_linker.py:483-513 | Such a pair is proposed exactly when, inside its window, amount, dates and accounts make up for the missing keywords |
| `LinkScoring.UnnamedExactPairIsProposedExactly` | core/transaction_linker.py:483-513 | With equal sums in one currency that is the whole date window if one row matches a keyword, and three days if none does |
| `LinkScoring.OneSidedPairReachesTheLine` | config/transfer_keywords.yaml:12-15 | A card payment whose card side matches no keyword scores exactly the auto-approval line, against the promise that such a leg is never paired |
| `LinkScoring.ScoresHaveFourDecimals` | core/transaction_linker.py:534-542 | No score has more than four decimals, so rounding scores to four decimals changes no comparison |
| `TransferLinker.ReadExisting` | core/transaction_linker.py:440-451 | The loop over stored links finds the rows that are spoken for and the refund anchors still open |
| `TransferLinker.GeneratePairs` | core/transaction_linker.py:375-400 | The nested loops list exactly the pairs of rows on different accounts, opposite in direction, and not rejected either way round |
| `TransferLinker.AssignLinks` | core/transaction_linker.py:555-602 | The greedy loop, with its bookkeeping in separate variables, computes the assignment the theorems are about |
| `TransferLinker.Classify` | core/transaction_linker.py:607-612 | Every link lands in exactly one of the two lists, by the auto-approval threshold |
| `TransferLinker.ProposalsAreBipartite` | core/transaction_linker.py:375-400 | No row is the source of one proposal and the target of another; proposals are sorted and inside the score range |
| `TransferLinker.ProposalsAreComplete` | core/transaction_linker.py:460-545 | Any two rows of the pool that may still be linked, pair and score above review are on the list of proposals; which rows may be linked is said of their category, keywords and status and of the stored links |
| `TransferLinker.LinkedRowsAreFit` | core/transaction_linker.py:434-473 | Every link of a run joins two rows of the pool on different accounts, a debit and a credit, not rejected either way round; each is nobody's target and the source of no stored link but refunds, of one at least if it is settled, and its category or a keyword names a transfer |
| `TransferLinker.AutoApprovedLinksAreSound` | core/transaction_linker.py:403-628 | An auto-approved link of a whole run joins two rows of the pool that may be linked, debit to credit, equal to the cent or converted into each other by a printed rate, and never a rejected pair |
| `TransferLinker.PairsOverTheLineEndAutoApproved` | core/transaction_linker.py:460-612 | Any two eligible rows that score at or over the line end with an auto-approved link on one of them, refunds included |
| `TransferLinker.CertainPairsEndAutoApproved` | core/transaction_linker.py:510-612 | A certain pair inside its window always ends with an auto-approved link on one of its two rows |
| `TransferLinker.OneSidedPaymentIsAutoApproved` | config/transfer_keywords.yaml:12-15 | A whole run over two rows, one matching no keyword but filed as a transfer, ends with an auto-approved link |
| `TransferLinker.OversizedRefundIsDropped` | core/transaction_linker.py:570-590 | On a whole run, a refund a little larger than its charge is the only proposal and nothing is linked |
| `TransferLinker.SpokenRowsAreLeftAlone` | core/transaction_linker.py:434-473 | A run links no row that is already a target, and no row that is already the source of a link other than a refund |
| `TransferLinker.LinkRunIsSound` | core/transaction_linker.py:403-628 | The structural guarantees hold for every run over a pool with unique ids |
| `TransferLinker.LinkRunIsHalfOptimal` | core/transaction_linker.py:548-602 | On a whole run, any set of proposals that share no row and fit alone has at most twice the confidence accepted |
| `GreedyAssignment.RunIsSound` | core/transaction_linker.py:555-602 | After any prefix of any candidate list: exclusive roles, chain positions 0..k-1 in one chain per refund source, recorded anchors, and claims equal to the legs' sum |
| `GreedyTheorems.AssignmentIsExclusive` | core/transaction_linker.py:555-602 | Sources and targets are disjoint, each target has one link, and only a refund source has several, all of them refunds |
| `GreedyTheorems.AnchorsAreConserved` | core/transaction_linker.py:570-590 | The sizes of an anchor's comparable legs, summed over the links themselves, come to at most its own amount and one cent; legs without a known row are never linked |
| `GreedyTheorems.UnknownLegsAreNotLinked` | core/llm_transaction_linker.py:546-560 | With a ledger, a refund leg whose anchor or own row is not in it is never accepted |
| `GreedyTheorems.NoLedgerNoCap` | core/llm_transaction_linker.py:546-560 | Without a ledger there is no cap: any two legs of one refund source are both accepted, however large |
| `GreedyTheorems.EverythingSeenIsBlocked` | core/transaction_linker.py:562-602 | Every candidate walked past is blocked in the final state, so none could be added at the end |
| `GreedyTheorems.PassMeans` | core/transaction_linker.py:555-602 | Said of links alone: each candidate is linked, after those before it, exactly when its target is free, its source is free or open to refunds and it is one, and the anchor has room for it beside its other legs |
| `GreedyTheorems.EveryCandidateIsExcluded` | core/transaction_linker.py:562-602 | At the end nothing is left out without such a cause |
| `GreedyTheorems.AssignmentIsMaximal` | core/transaction_linker.py:562-602 | Walking the whole list again over the final state accepts nothing |
| `GreedyTheorems.AssignmentIsStable` | core/transaction_linker.py:555-602 | Every candidate shares a row with an accepted link of at least its confidence, unless it is a refund leg that does not fit under its anchor even alone |
| `GreedyTheorems.AssignmentIsHalfOptimal` | core/transaction_linker.py:555-602 | Any set of candidates that share no transaction, each fitting alone, has at most twice the accepted confidence; refunds included |
| `GreedyTheorems.PlainAssignmentIsHalfOptimal` | core/llm_transaction_linker.py:525-588 | Without refund candidates the bound needs no condition on amounts |
| `GreedyTheorems.OversizedLegIsNeverLinked` | core/transaction_linker.py:570-590 | A comparable leg larger than its anchor and a cent is never accepted, whatever else is proposed |
| `GreedyTheorems.OversizedLegDefeatsTheBound` | core/transaction_linker.py:570-590 | So the bound fails without the condition: any one such leg of positive score, alone on the list, is not accepted |
| `GreedyTheorems.BoundHoldsExactly` | core/transaction_linker.py:555-602 | Half-optimality holds for every sorted list drawn from some candidates exactly when each of them with a positive score fits under its anchor alone |
| `GreedyTheorems.HalfIsTight` | core/transaction_linker.py:555-602 | The factor two cannot be improved: three candidates reach it |
| `LinkChains.BuildAdjacency` | core/transaction_linker.py:658-662 | The adjacency lists hold, for each row, exactly the links that touch it |
| `LinkChains.Explore` | core/transaction_linker.py:672-689 | The queue-driven search ends, and finds exactly the rows connected to its start and one copy of each distinct link among them |
| `LinkChains.BuildChains` | core/transaction_linker.py:653-709 | The loop over start rows labels every component of two or more distinct links once, and rewrites no other link |
| `LinkChains.ChainSays` | core/transaction_linker.py:691-709 | Of a labelled chain: its links carry its id and keep their pairs; the id is that of the first link that had one, and positions stay, or is fresh, and positions count from zero |
| `LinkChains.ConfidenceIsTheMean` | core/transaction_linker.py:704-709 | The confidence of a chain times the number of its links is the sum of their scores |
| `LinkChains.ChainsAreComponents` | core/transaction_linker.py:664-709 | Two different links share a chain exactly when shared transactions connect them |
| `LinkChains.EqualLinksShareNoChain` | core/transaction_linker.py:682-684 | Equal records of any list are connected and share no chain, because only one of them is recorded |
| `LinkChains.ChainsTellConnectionExactly` | core/transaction_linker.py:664-709 | Sharing a chain is being connected, for every two links, exactly when the list names no link twice |
| `LinkChains.ConnectedMeansSameSource` | core/transaction_linker.py:664-689 | On links the greedy pass made, being connected means having the same source |
| `LinkChains.SameSourceSharesGroup` | core/transaction_linker.py:585-597 | Two links of one source carry the same minted chain id |
| `LinkChains.GreedyChainsRewriteNothing` | core/transaction_linker.py:691-703 | On links the greedy pass made, the renumbering branch is unreachable and no id or position changes |
| `LinkChains.GreedyChainsAreRefundGroups` | core/transaction_linker.py:653-709 | On links the greedy pass made, two links share a chain exactly when they have one source; both are then refunds under one minted id, in order of position |
| `LlmLinker.ParseResponse` | core/llm_transaction_linker.py:409-492 | The loop over a reply keeps, for each pair with a verdict, the first best one, in order of first appearance: its pair, its details, its kind if known, and the model's own factor, cut to [0, 1]; every entry that names an asked pair of two different known rows with a factor has a result for its pair |
| `LlmLinker.CleanedIsUnique` | core/llm_transaction_linker.py:409-492 | That description leaves no choice: a reply has one cleaned form |
| `LlmLinker.UsableEvaluations` | core/llm_transaction_linker.py:409-492 | Whatever the model answers, a usable evaluation names a pair that was asked about, two known rows and a factor in [0, 1] |
| `LlmLinker.PickedExactly` | core/llm_transaction_linker.py:519-523 | The candidates are exactly the evaluations at or over the threshold, each with its own rows, kind and factor |
| `LlmLinker.AssignVerdicts` | core/llm_transaction_linker.py:499-592 | The verdict pass computes the same assignment as the deterministic one, on exactly the evaluations at or over the threshold, without a cap when the ledger is missing or empty |
| `LlmLinker.VerdictAssignmentIsSound` | core/llm_transaction_linker.py:499-592 | So the structural guarantees and stability hold for links made from model verdicts |
| `LlmLinker.VerdictRunIsSound` | core/llm_transaction_linker.py:676-775 | For any replies, failures, raising callbacks and finished interleaving: the candidates are exactly the stored evaluations at or over 0.55, and the links join pairs asked about, are exclusive and stable, and are worth half of any disjoint choice that fits alone |
| `LlmLinker.MakeBatches` | core/llm_transaction_linker.py:652-665 | Batches concatenate to the capped candidates; all are full but perhaps the last, none is empty |
| `LlmLinker.EveryInstantIsConsistent` | core/llm_transaction_linker.py:717-761 | At every instant of every interleaving each slot holds nothing or its own batch's reply, and the counters are the sum of what each worker has reported |
| `LlmLinker.CollectionIsSerial` | core/llm_transaction_linker.py:676-765 | When all batches have finished, the collected evaluations are the serial concatenation, whatever the interleaving |
| `LlmLinker.ScheduleDoesNotMatter` | core/llm_transaction_linker.py:676-771 | Any two schedules accept the same links |
| `LlmLinker.CountersAtTheEnd` | core/llm_transaction_linker.py:717-764 | The pair counter ends at the candidate count, and the failure counter at the failed batches, exactly when no progress callback raised after an answer |
| `ReceiptClaims.ReadNothingClaimsNothing` | core/extraction.py:1058-1092 | A batch that read nothing is never a candidate for the grand total |
| `ReceiptClaims.OneFieldMore` | core/extraction.py:1058-1092 | An answer still reads nothing after one more field exactly when that is a flag, a blank, an empty list, a bookkeeping key or one kept by the program |
| `ReceiptClaims.EmptyReplyReadsNothing` | core/extraction.py:1058-1092 | An answer without fields reads nothing |
| `ReceiptClaims.ClaimMeans` | core/extraction.py:1162-1223 | A claim is read off the answer: the first of three fields to name a positive whole page, or the last page on a yes; and the figure of the field "total", of "amount" only when that is blank, other than zero |
| `ReceiptClaims.ClaimsAreRead` | core/extraction.py:1200-1223 | The candidates are exactly the claims so read, ordered by page and then by batch |
| `ReceiptClaims.ClaimsAreRanked` | core/extraction.py:1200-1223 | The candidates are the claims made, one a batch, in page order |
| `ReceiptClaims.AcceptedClaimIsLatest` | core/extraction.py:1200-1223 | The claim accepted is a reading's own, and every other reading claims an earlier page, or that page in an earlier batch |
| `ReceiptClaims.OneDistinctTotalMeansAgreement` | core/extraction.py:1226-1240 | One distinct total means that every claim is within two cents of the first, and only that |
| `ReceiptClaims.NearFirstMeansUndisputed` | core/extraction.py:1226-1240 | Which is that no two readings claim figures more than two cents from the earliest claim's |
| `ReceiptReader.RetryAtHigherDpi` | core/extraction.py:1095-1159 | A re-read happens only below the retry resolution, is one call, and raises the stamp exactly when its answer reads something |
| `ReceiptReader.FirstPass` | core/extraction.py:2089-2113 | One call a batch, and one more, counted, for each batch that read nothing and could be sharpened |
| `ReceiptReader.ReReadAll` | core/extraction.py:1274-1325 | At most two re-reads, none of a batch already asked again; a figure that moves by more than two cents is noted |
| `ReceiptReader.TargetsMean` | core/extraction.py:1281-1293 | What is read again: all claims below the retry resolution, in order, when totals are disputed; otherwise the accepted one if it is below |
| `ReceiptReader.VerifyGrandTotal` | core/extraction.py:1243-1351 | With no note left, the accepted stamp is at the retry resolution or sharper; a total already sharp and undisputed costs no call |
| `ReceiptReader.MergeBatches` | core/extraction.py:1354-1508 | Whatever the answers hold: the total carried is the field "total" of the accepted claim's answer, of the last answer with a figure when nobody claims, and its field "amount" only when that is blank; without any figure it is the first plain amount that parses; the result is flagged exactly for a note, a missing or disputed claim, unread pages or a low batch |
| `ReceiptReader.RunBatchedPlan` | core/extraction.py:2061-2136 | Whatever the model answers: only a failing call stops a run, every answer merged is the provider's own, the money is read off the accepted answer's own fields, extra calls are all counted, no batch is asked more than twice, an unflagged total is claimed, undisputed and stamped at the retry resolution or sharper, and the resolution reported is true exactly when the accepted batch's stamp was |
| `ReceiptReader.NeverAskedTwiceMore` | core/extraction.py:1058-1159 | Across the two rules no batch is asked about more than once again |
| `ReceiptReader.StampsAreHonest` | core/extraction.py:1125-1159 | After a run a batch's stamp is what its answer was read at exactly when the run started from an honest stamp |
| `ReceiptReader.RunFreshPlan` | core/extraction.py:2061-2136 | On a plan no provider has touched, the reported resolution is what the accepted figure was read at, flagged or not, and it is the retry resolution or sharper unless flagged |
| `ReceiptChain.BuildPlan` | core/extraction.py:914-954 | Batches tile the pages used, four in each but perhaps the last, stamped with the lowest resolution of their pages: that of the first pages for the first batch, the other one for the rest |
| `ReceiptChain.RunChain` | core/extraction.py:2247-2282 | A provider hands over exactly for a failure, or for an answer with a date and a positive total but no vendor; the last answer given counts, its money is read off the answers, what an unflagged total rests on holds for it, and the first provider finds the plan's own stamps |
| `ReceiptChain.RunWilling` | core/extraction.py:1274-1325 | With a provider that answers every call and pages that render, the batches the first pass calls for are sharpened when they are within the budget |
| `ReceiptChain.StaleStampGoesUnnoticed` | core/extraction.py:1255-1271 | On an eight-page plan a first provider names no vendor after re-reading the last batch, and the second one's figure, read off the 150 dpi images, is reported unflagged as verified at 200 |
| `JsonScanner.ExtractJson` | core/llm_sync.py:147-205 | The one-pass loop over depth, string and escape flags computes the span found, a truncation or the absence of brackets |
| `JsonScanner.ScannerInvertsPrinter` | core/llm_sync.py:172-205 | For every object or array printed by RFC 8259 sections 2 to 7, every lead-in and every trailing text, the span found is that value exactly when the lead-in has no bracket |
| `JsonScanner.EveryTruncationIsDetected` | core/llm_sync.py:172-205 | Every proper prefix of a printed value that reaches its first bracket is reported as truncated |
| `JsonScanner.FoundTextIsShortest` | core/llm_sync.py:172-205 | On any text, what is found starts at the first bracket, ends at a matching one, and no shorter cut of the text would do |
| `JsonScanner.ValueLeadsNowhere` | core/llm_sync.py:187-204 | Scanning a value inside brackets returns the automaton to the depth it had, outside strings, without closing |
| `StatementValidation.DedupRows` | core/llm_statement_parser.py:717-731 | The loop with its set of seen keys keeps, in order, exactly the rows no earlier row is the same as: same date and amount as written, descriptions that agree for forty characters |
| `StatementValidation.DedupKeepsEachKeyOnce` | core/llm_statement_parser.py:717-731 | Every key survives, once |
| `StatementValidation.DedupKeepsFirsts` | core/llm_statement_parser.py:717-731 | The row that survives for a key is the first to carry it |
| `StatementValidation.Extraction.Validate` | core/llm_statement_parser.py:1245-1416 | The row list is replaced by the rows that are no summaries; the difference is how far the sum of their signed amounts misses the printed balances, the sign read off each row and the kind of account; each flag is raised exactly under its own condition on them |
| `StatementValidation.GapMeans` | core/llm_statement_parser.py:1300-1317 | The difference is opening balance, plus money in, less money out, less closing balance, without its sign; for a card money out raises what is owed; unreadable balances count as zero |
| `StatementValidation.HighMeans` | core/llm_statement_parser.py:1388-1401 | High confidence holds exactly when nothing was dropped, opening balance and signed amounts come to the closing balance within two cents, all dates are within two days of the period, at most one printed balance in twenty does not follow from the one before, no two rows are the same, no amount is an outlier and there are rows enough |
| `StatementValidation.LowMeans` | core/llm_statement_parser.py:1388-1401 | Low confidence holds exactly when the signed amounts miss the balances by more than five cents, a balance cannot be read, or too few rows are left |
| `StatementValidation.DedupedRowsAreNeverSuspected` | core/llm_statement_parser.py:1362-1369 | Rows that went through deduplication never raise the duplicate flag |
| `StatementValidation.ValidateWithRetry` | core/llm_statement_parser.py:1633-1708 | The result is wholly one extraction's, the retry's exactly when its balance is closer and the first one's was out of tolerance; the tier falls below the first reading's exactly when a taken retry is the less trusted one |
| `StatementValidation.CloserBalanceLowersTheTierExactly` | core/llm_statement_parser.py:1676-1690 | A closer retry lowers the tier exactly when the first reading passed every check and the retry fails one besides the balance, or the first was not low and the retry's balances are unreadable or its rows too few |
| `StatementValidation.RetriedMediumBecomesLowExactly` | core/llm_statement_parser.py:1633-1690 | Over a tolerance of two cents or more a retried reading is never high, and the tier falls exactly from medium to low, for unreadable balances or too few rows |
| `StatementValidation.CloserBalanceCanLowerTheTier` | core/llm_statement_parser.py:1676-1690 | Three rows four cents off the balance, re-read as one row a cent off, go from medium confidence to low |
| `StatementReconstruction.ReadLines` | core/pdf_statement_parser.py:577-660 | The row loop, carrying the previous balance, computes the rows of the specification |
| `StatementReconstruction.CleanDescriptionMeans` | core/pdf_statement_parser.py:655-656 | A description loses the spaces around it and then the commas at its end, and nothing else |
| `StatementReconstruction.TwoAmountsAreRead` | core/pdf_statement_parser.py:632-652 | Of two amounts the first is the size; money came in exactly if the balance rose, or with no balance before it on the word of the description |
| `StatementReconstruction.WriteCsv` | core/pdf_statement_parser.py:709-723 | One record a row, with the debit sign put back |
| `StatementReconstruction.ReadCsv` | core/bank_parser.py:84-116 | Records become transactions in order; short ones are stepped over and the first unreadable date or amount stops the import |
| `StatementReconstruction.Convert` | core/pdf_statement_parser.py:577-723 | Lines in, transactions out, through the rows and the CSV records in between |
| `StatementReconstruction.StatementRoundTrip` | core/pdf_statement_parser.py:577-723 | A statement that prints an opening balance and then magnitudes with running balances, other lines in between, is imported as exactly its transactions: dates, signs, amounts, order |
| `StatementReconstruction.OnlyEssentialLinesCount` | core/pdf_statement_parser.py:581-614 | Summary lines, unknown months and lines with one amount change nothing in the loop's state |
| `StatementReconstruction.YearRuleExact` | core/pdf_statement_parser.py:600-605 | The year rule gives the true year exactly when the month is among the twelve that end with the statement |
| `StatementReconstruction.ReadingOfALine` | core/pdf_statement_parser.py:609-652 | On a line of two amounts the signed reading is the balance's move exactly when the printed size is; on one of three it misses the printed credit |
| `StatementReconstruction.RecoveredAmountsSumToTheBalanceChange` | core/pdf_statement_parser.py:577-660 | On any statement whose lines add up, the recovered amounts sum to closing less opening, less the credits printed in a column of their own |
| `StatementReconstruction.BalanceIsAccountedForExactly` | core/pdf_statement_parser.py:616-631 | So they account for the balance exactly when those credits sum to nothing |
| `StatementReconstruction.ThreeColumnsAreAlwaysADebit` | core/pdf_statement_parser.py:616-631 | With three amounts the first is read as a debit; the other two branches cannot be taken |
| `StatementReconstruction.DepositInThreeColumnsIsLost` | core/pdf_statement_parser.py:616-631 | A deposit printed as 0.00, amount, balance adds up and comes back as a debit of nothing |
| `StatementText.AmountRoundTrip` | core/pdf_statement_parser.py:718-720 | An amount written to the CSV reads back as itself |
| `StatementText.CleaningReadsPrintedAmounts` | core/pdf_statement_parser.py:755-766 | Cleaning recovers every comma-grouped amount, of any sign and size |
| `StatementText.CleanedMeans` | core/pdf_statement_parser.py:755-766 | Cleaning takes out every dollar sign, comma and blank, and nothing else |
| `StatementText.DateRoundTrip` | core/bank_parser.py:103 | A calendar date written as eight digits reads back as itself |
| `StatementText.ParsedDatePrintsBack` | core/bank_parser.py:103 | And nothing else is read: eight digits read as a date are how that date of the calendar is written |
| `StatementText.OnCalendarMeans` | core/bank_parser.py:103 | The calendar: thirty-one days at most, thirty in four of the months, twenty-nine in February and those in leap years only |
| `BinderReport.CurrencyTotals` | core/html_binder.py:263-285 | For each currency, income is the sum of the sizes of its credits, expenses that of its debits, net their difference and the count their number, over the rows that are no transfers |
| `BinderReport.CategoryRows` | core/html_binder.py:288-319 | One row for each currency and category with counted money, holding the sums of its credits and debits and their difference, under the section of its category |
| `BinderReport.BreakDown` | core/html_binder.py:326-352 | A currency's breakdown is its sections in the fixed order, each with its rows by size of net and the sums of those rows' own figures |
| `BinderReport.CategoryBreakdowns` | core/html_binder.py:288-355 | Exactly the currencies with counted money get a breakdown, each its own |
| `BinderReport.SectionHoldsItsMoney` | core/html_binder.py:321-342 | The rows of a section hold the money of the section's transactions, all of it and nothing else |
| `BinderReport.BreakdownAgreesWithSummary` | core/html_binder.py:263-355 | Income, expenses and net of the breakdown equal the executive totals, missing currencies counting as zero |
| `BinderReport.UnlistedSectionsAreMissing` | core/html_binder.py:330-333 | A section missing from the display order takes exactly its own money out of the breakdown |
| `BinderFigures.GroupsAddUp` | core/html_binder.py:288-352 | Grouping rows by a key, one group a key, neither loses nor repeats any of their money |
| `BinderFigures.TotalPermuted` | core/html_binder.py:334 | Sorting the rows of a section does not change its sums |
| `BinderLedger.OrderedKeys` | core/export_binder.py:70-82 | Account ordering lists every key once: known ones first in their order, the rest alphabetically, character by character |
| `BinderLedger.GroupByAccount` | core/export_binder.py:242-246 | Each account's group is the rows that name it, in order, and no row is outside every group |
| `BinderLedger.GrandTotals` | core/export_binder.py:613-672 | For each currency, income is the sum of the sizes of its credits that are no transfers, expenses that of its debits, and the count the number of all its rows; the nested loops reach it over the accounts' buckets |
| `BinderLedger.GrandTotalsAreWhole` | core/export_binder.py:616-672 | For every currency that sum is the bucket of all its rows: no account is dropped or counted twice |
| `BinderLedger.LedgerAgreesWithSummary` | core/export_binder.py:616-672 | The workbook's grand totals equal the report's executive totals in income, expenses and net |
| `BinderLedger.CountsAgreeWithoutTransfers` | core/export_binder.py:629-631 | Their row counts agree exactly when the currency has no transfer |
| `BinderArchive.TallyProofs` | core/html_binder.py:91-166 | Each line of the tally counts rows by their own fields: those with a proof in the map, and those without one by their status; what needs a proof is all but the unproved ignored and excluded rows |
| `BinderArchive.TallyCoversEveryRow` | core/html_binder.py:119-153 | The lines of the tally add up to the number of rows |
| `BinderArchive.MissingProofRows` | core/export_binder.py:744-787 | The list of missing proofs is the matched rows absent from the verified map, in order, each with its cause: no stored path, or the distinct reasons of its paths in order |
| `BinderArchive.PrintedReasonsAreTrue` | core/export_binder.py:769-787 | For the archive's own maps, a listed row that has stored paths lost every one of them, and the reasons printed are exactly those the store gave for them |
| `BinderArchive.FallbackReason` | core/export_binder.py:769-787 | A path whose failure was not noted is reported as gone, unless there is nothing on it but white space |
| `BinderArchive.ListMatchesTally` | core/export_binder.py:752-753 | That list is never longer than the tally says, and as long exactly when no matched row is noted with an empty list |
| `BinderArchive.ArchiveListMatchesTally` | core/export_binder.py:1464-1474 | For the map the archive itself builds, list and tally always agree |
| `ArchiveNames.Mint` | core/export_binder.py:1424-1430 | The collision loop ends and returns a free name: the base, or its first free number |
| `ArchiveNames.FirstFreeIsNear` | core/export_binder.py:1424-1430 | A free number is found within as many attempts as names are taken |
| `ArchiveNames.NumberedIsInjective` | core/export_binder.py:1427-1430 | Different numbers give different names, whatever stem and extension are |
| `ArchiveNames.NumberedMeans` | core/export_binder.py:1427-1430 | The number goes between the stem and the extension |
| `ArchiveNames.NameProofs` | core/export_binder.py:1400-1437 | Every stored path listed in the batch gets one name, by the first transaction to list it, and no two paths share one; each transaction's names follow its proofs |
| `ArchiveNames.SheetTitle` | core/export_binder.py:257-267 | The sheet-title loop ends with a title not taken: the name cut to 31 characters if that is free, and of at most 31 characters while sheets number under a million |
| `ArchiveNames.TitleMeans` | core/export_binder.py:263-267 | A numbered title is as much of the base as leaves room for an underscore and the number in 31 characters |
| `ArchiveNames.TitlesAreInjective` | core/export_binder.py:263-267 | Different numbers give different titles even though the base is cut to make room |
| `BinderArchive.BuildArchive` | core/export_binder.py:1400-1502 | Naming, fetching, verifying, choosing folders and writing, one after the other, for any answers of the file store |
| `NameParts.PrefixHasNoSlash` | core/export_binder.py:198-203 | Neither the stem of a proof's name nor a bundle's folder holds a slash, for any vendor text |
| `NameParts.SafeFilenameMeans` | core/export_binder.py:198-203 | A safe name is the text with every unsafe character and every run of white space an underscore, without dots and underscores at its ends, cut to eighty characters, never empty |
| `NameParts.PrefixMeans` | core/export_binder.py:1404-1423 | A proof's name is its date, vendor, amount and currency with dashes between them, and date and amount read back |
| `NameParts.PrefixTells` | core/export_binder.py:1404-1423 | Two transactions give the same name exactly when they agree in date, amount, currency and sanitised vendor, dashes in vendors or not |
| `NameParts.ExtensionHasNoSlash` | core/export_binder.py:1421-1423 | Nor does the extension taken from a stored path |
| `NameParts.ExtensionMeans` | core/export_binder.py:1421-1423 | The extension is what follows the last dot of the last part of the path; a name that only starts with a dot has none |
| `NameParts.NoExtensionMeans` | core/export_binder.py:1421-1423 | A path whose last part has no dot gets the extension .pdf, in whatever folder |
| `BinderArchive.AssignFolders` | core/export_binder.py:1483-1494 | Every proof of a transaction with several has a folder, and it is that of such a transaction; the order they are gone through is open |
| `BinderArchive.BundlesLieTogether` | core/export_binder.py:1483-1501 | A proof of a transaction with several lies in that transaction's folder unless another such transaction lists it, and a proof of none lies at the top |
| `BinderArchive.EntriesAreDistinct` | core/export_binder.py:1490-1502 | No two proofs are written to one place, whatever vendors, paths and bundle folders they have |
| `BinderArchive.FetchedProofIsThere` | core/export_binder.py:1464-1502 | A stored proof that could be fetched is in the verified map of every transaction that lists it, and its own bytes are at the path its name leads to |
| `BinderArchive.EveryLinkOpensItsProof` | core/export_binder.py:1464-1502 | Every name in the verified map leads to an entry holding the bytes of a proof stored for that transaction |
| `Migrations.DiscoveryIsOrdered` | db/migrate.py:49-54 | Discovery lists the names of the directory that end in .sql but not in .rollback.sql, each once, in alphabetical order |
| `NameOrder.NameOrderIsAlphabetical` | db/migrate.py:49-54 | The order of names is alphabetical: one begins the other, or the first character in which they differ is smaller |
| `Migrations.PendingIsWhatIsLeft` | db/migrate.py:43-46 | Pending files are those not recorded, in the same order |
| `Migrations.Database.Run` | db/migrate.py:57-115 | One run commits a prefix of the pending files and records exactly those, whatever fails or crashes; a baseline run records all or none and executes nothing |
| `Migrations.EveryHistoryIsAtAPrefix` | db/migrate.py:77-113 | After any interleaving of any number of runs, each cut off anywhere, the committed state is a prefix of the pending files, each applied once, and exactly those are recorded, unless a baseline run recorded the rest |
| `Migrations.CompletionIsFinal` | db/migrate.py:77-113 | Once a run has completed, the state is that of an uninterrupted run, nothing is pending, and no later history changes it |
| `Migrations.SoloRun` | db/migrate.py:96-113 | A run left alone goes through the prefixes one file at a time |
| `VerdictMemory.AdjudicationMemory.constructor` | core/adjudication_memory.py:139-158 | Opening loads the usable rows: a question is known when one names it, and the last such row gives its verdict; nothing is pending or counted |
| `VerdictMemory.AdjudicationMemory.Get` | core/adjudication_memory.py:160-170 | A lookup answers what is known and counts one hit if it does and one miss if not; a disabled memory answers nothing and counts nothing |
| `VerdictMemory.AdjudicationMemory.Put` | core/adjudication_memory.py:172-200 | A verdict is stored and listed as pending exactly if its question is new, its agent one of the three and the memory enabled |
| `VerdictMemory.FirstVerdictStays` | core/adjudication_memory.py:172-200 | Over any sequence of calls the first verdict for a question is never replaced |
| `VerdictMemory.PendingListsExactlyTheNewKeys` | core/adjudication_memory.py:202-205 | The pending list holds exactly the questions answered since loading, once each, with the verdicts lookups return |
| `VerdictMemory.EveryLookupIsCounted` | core/adjudication_memory.py:160-170 | Hits and misses add up to the lookups of an enabled memory |
| `VerdictMemory.HitsAreExact` | core/adjudication_memory.py:160-170 | Over any sequence of calls the hits are the lookups whose question was known at the start or stored by an earlier call |
| `VerdictMemory.ReloadingRebuildsTheMemory` | core/adjudication_memory.py:139-158 | The rows loaded plus the pending ones rebuild the same memory |
| `VerdictMemory.AnsweredQuestionsDoNotDependOnOrder` | core/adjudication_memory.py:160-200 | Which questions end up answered does not depend on how calls interleave |
| `ReasonablenessBand.Finish` | core/reasonableness.py:1343-1353 | Dismissed flags go, the rest are ranked, heaviest first, equal weights by key, else as they stood; the first few are shown; the band is typical without a concern shown, several with enough that stand out or enough at all |
| `ReasonablenessBand.RankIsARanking` | core/reasonableness.py:1347 | Ranking is a permutation, heaviest first, equal weights by key |
| `ReasonablenessBand.CapIsSafeExactly` | core/reasonableness.py:1347-1353 | For any limits of at least one, the cap never changes the band exactly when it leaves room for "several" concerns beside every info flag |
| `ReasonablenessBand.DefaultCapIsSafe` | core/reasonableness.py:1404-1412 | With five shown and four for "several" the cap is safe with one info flag, and would not be with two |
| `ReasonablenessBand.DismissingNeverWorsens` | core/reasonableness.py:1344-1353 | While the cap is safe, dismissing more flags never raises the band |

## Left out

- Binary floating point, `Decimal` precision and NaN: arithmetic is exact. Scores need no rounding (`LinkScoring.ScoresHaveFourDecimals`); a model verdict's 0.95 discount and its rounding, and the rounding of a chain's confidence, which enter no decision, are not modelled.
- Regular expressions: keyword and rate recognition, statement detection, line matching, think and fence stripping. The model starts from matched rows, tokens and stripped text.
- Explanation and variance texts, exchange-rate strings, the list of unlinked transfers, and the cap on a refund group across runs, which the code does not keep either.
- The pre-filter, heuristic score and prompt of the verdict pass; `MakeBatches` starts from the ranked candidates. A progress callback that raises before a batch starts or in its failure report is outside the interleaving model.
- Receipt fields other than the amount (tax, line items, telemetry; of the vendor and the date only whether a batch reports them), pages that render to nothing, and the parsing of amounts from strings. The two modes with a single call need no protocol.
- JSON text is a sequence of characters; decoding bytes and parsing the text found are `json.loads`.
- Row normalisation, provider fallback and page counts of the statement parser. A correction retry that raises is the case where no second extraction arrives.
- The generic statement parser, the table parser, the credit-card and PayPal formats; CSV quoting, where a record is its list of fields; years before 1000 and date texts that are not eight digits, which the writer produces only from such years.
- Tie-breaking and display order of currencies, hyperlinks, styles and formats of the workbook and the report.
- Inside a proof's name, white space beyond the six ASCII characters, and a stored path that ends in a `.` component, which names no file.
- ArchiveNames.SheetTitle: compares titles exactly, because the workbook library's own case-insensitive renaming is not part of this model.
- Naming and fetching of statement files, which repeat the collision loop of the proofs.
- The schema changes a migration file makes: a file's effect is that it was executed. Reading the directory and connecting are assumed to succeed.
- Fingerprints and hashes of the verdict cache: a question is its key. The lock is the atomicity of each call. A pending verdict that a caller mutates after storing it is not modelled.
- How flags and comparisons of the reasonableness check arise, cohort selection and status bounds; the band stage holds for any flags.
- `LLMCallStats`, whose methods are single counter updates under a lock.
- Credentials, network, rendering, storage and the database.
