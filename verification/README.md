# Sashiko, modelled and proved in Dafny

This project models the parts of Sashiko (an automated reviewer of kernel patches) whose
promises are about whole runs, about every input, or about two pieces of code agreeing, and
proves those promises. Text is modelled as the sequence of its UTF-8 bytes, one `char` a byte.

| file | what it models |
|---|---|
| `Options.dfy`, `Text.dfy` | options, results, first occurrences, and the string library as far as it is used: trimming, words, lines, searching, ASCII case |
| `Events.dfy`, `Ingest.dfy`, `IngestProgress.dfy` | article receipts and the NNTP high-water mark: the tracker as a class, the fetch loop around it as a state machine with crashes, and how far the mark gets |
| `EmailText.dfy`, `EmailProse.dfy`, `EmailLayout.dfy` | greedy wrapping at 72 columns, re-wrapping of mixed prose and quotes, and what becomes of each line |
| `FetchQueue.dfy`, `FetchQueueSafety.dfy`, `FetchQueueProgress.dfy` | one row of the durable fetch queue and any number of agents leasing it: what never happens, and what undisturbed agents achieve |
| `RangeExtraction.dfy`, `RangeSeries.dfy`, `FetchBatch.dfy`, `FetchOutcomes.dfy` | a commit range as a numbered series, and the in-memory batch that gives every queued item one outcome |
| `Addresses.dfy`, `Router.dfy`, `RouterMethods.dfy`, `RouterSafety.dfy`, `RouterRecipients.dfy` | who a review, and a review without findings, is mailed to |
| `Patchwork.dfy`, `PatchworkTargets.dfy`, `RelatedBugs.dfy` | folds of list policies over an unordered map |
| `Backfill.dfy`, `BackfillRuns.dfy` | re-deriving stored access rows when the grants change, across boots and crashes |
| `Benchmark.dfy`, `BenchmarkCommits.dfy`, `BenchmarkEvaluation.dfy`, `BenchmarkResults.dfy` | the benchmark summary's books, from the numbering of findings to the totals |
| `Authority.dfy`, `AuthorityStandings.dfy` | how much a speaker's word counts |
| `ForgeSubjects.dfy`, `ForgeComments.dfy`, `ForgeContents.dfy` | request subjects and review comments that are read back later |
| `Mbox.dfy` | splitting an mbox |
| `BugMarkdown.dfy`, `BugText.dfy` | fenced blocks, single lines and URI components made of untrusted text |

Code that changes variables step by step is a method with the same loop, proved against a
function or predicate of its inputs, and the promises are lemmas about that function. Beside
each such function stand lemmas that tell its results in the terms of the input alone.
Protocols are step relations, and their promises are lemmas about every reachable state.
Where the source iterates a hash map or a set, the order is an argument, or chosen
arbitrarily, and the results hold for all orders. Git, the network, the judge, regular
expressions and the mailmap are function-valued arguments, so that a result holds for every
behaviour they may show.

Six promises do not hold of the code as they stand. For each there is the exact condition
under which it holds, and an input that breaks it:

- A stored mark does move back, exactly when a group is selected whose mark is ahead of a
  non-empty server (`Ingest.MarkMovesBackOnlyOnReset`, `Ingest.MarkCanMoveBack`).
- A superseded fetch agent may still finish a row, and a row may be retried beyond its cap,
  because lock stamps are whole seconds. An agent gets that chance exactly when a finished
  row is enqueued in the second in which an agent still at work locked it
  (`FetchQueueSafety.RiskArisesExactly`); without such a chance no superseded agent ever does
  harm, and with one some does (`FetchQueueSafety.HarmNeedsExactlyARiskyAgent`); and only such
  an agent's rescheduling takes a row beyond the cap (`FetchQueueSafety.CapIsLeftExactly`).
  Runs that end badly: `FetchQueueSafety.HastyEnqueueLetsASupersededAgentPost` and
  `FetchQueueSafety.HastyEnqueueOverrunsTheCap`.
- A grant set that returns finds its fingerprint still recorded when the boot in between did
  not record another one: it failed, or it had no MAINTAINERS file and ran with an empty
  index. Rows that boot attributed or re-derived are then right exactly when both grant sets
  derive them alike (`BackfillRuns.BootKeepsConsistentExactly`,
  `BackfillRuns.ReturningGrantsExactly`); three runs in which they are not:
  `BackfillRuns.ReturningGrantsCanLeaveStaleRows`.
- The first list that matches may loosen the policy on related bugs
  (`RelatedBugs.MoreListsAreStricter`, `RelatedBugs.FirstListCanLoosen`).
- Scored plus skipped entries are not all entries: one that is not versioned and was never
  judged is in neither (`Benchmark.OutcomesSumToTotal`, `Benchmark.UnjudgedClassicEntryIsNowhere`).
  A result with an unknown status would be missed by every counter, but evaluation yields none
  (`BenchmarkEvaluation.EvaluatedIsFaithful`).
- A truncated review comment loses its incomplete-review marker when the footer is long
  (`ForgeComments.IncompleteIsRecognisedExactly`, `ForgeComments.LongLinkHidesMarker`,
  `ForgeComments.IncompleteCanGoUnrecognised`).

Check everything with `dafny verify dfyconfig.toml`.

## Model

| member | source | states |
|---|---|---|
| Events.IngestTracker.Issue | src/events.rs:64-71 | a receipt is live from its issue on, for its article, unsettled |
| Events.IngestTracker.TakeSafeMark | src/events.rs:90-97 | the mark stops right below the least article lost since the last take, or at what was handed off; the record of losses is cleared and nothing else changes |
| Events.IngestReceipt.Settle | src/events.rs:115-117 | the receipt is settled |
| Events.IngestReceipt.Drop | src/events.rs:120-134 | dropping ends the receipt, records a loss exactly when it was not settled, and notifies exactly when it was the last one live |
| Ingest.NothingBelowTheMarkIsLost | src/events.rs:38-99 | over every interleaving, error and crash: the counter is the number of live receipts, the record is the least article lost since the last take, and every article between a mark's last reinitialisation and the mark was settled or reported absent |
| Ingest.MarkMovesBackOnlyOnReset | src/ingestor.rs:516-555 | a stored mark moves back exactly when a group is selected whose mark is ahead of a non-empty server |
| Ingest.MarkCanMoveBack | src/ingestor.rs:516-555 | a reachable state in which it does |
| Ingest.QuietWaiterProceeds | src/events.rs:74-84 | no lost wakeup: a waiter parked while nothing is in flight has been notified, and on its own reaches the point of taking the mark |
| Ingest.MarkTakenOnlyWhenQuiet | src/events.rs:74-99 | the wait ends only by reading zero under the lock, and no receipt is live when the mark is taken |
| IngestProgress.MarkStopsOnlyAtALoss | src/ingestor.rs:198-217 | taken and stored in any reachable state, the mark has passed exactly the numbers handed off with no loss at or below them |
| IngestProgress.MarkIsBelowALossOrAtTheEnd | src/ingestor.rs:198-217 | it is at everything handed off, right below a loss, or held where it was by one |
| IngestProgress.CycleStartsAtTheMark | src/ingestor.rs:516-555 | a cycle reads on from the stored mark, a first read from an overlap below the tip, and a mark ahead of the server from 100 below the tip |
| IngestProgress.BatchOfAHundred | src/ingestor.rs:557-592 | the mark is stored as soon as a hundred articles are handed off, and not before |
| IngestProgress.UndisturbedCycleReachesTip | src/ingestor.rs:488-635 | undisturbed, a cycle takes the mark to the tip of the server |
| EmailText.Wrap | src/email_text.rs:25-44 | the word-by-word loop writes the greedy layout of the words, one terminated line a row |
| EmailText.GreedyIsLayout | src/email_text.rs:19-44 | for any words and prefixes the rows hold the words in order, each row fits 72 bytes or holds one word, and every row but the last is full |
| EmailText.FullIsGreedy | src/email_text.rs:25-44 | a full layout is the only one: it is what greedy wrapping yields |
| EmailText.GreedyIsOptimal | src/email_text.rs:25-44 | no layout of the same words under the same width rule uses fewer lines |
| EmailText.GreedyStaysAhead | src/email_text.rs:25-44 | greedy wrapping never needs more lines for what is left than a layout that has placed fewer words |
| EmailProse.WrapIsLossless | src/email_text.rs:25-44 | the words of the output are those of the first prefix and of the text, in order |
| EmailProse.WrapProse | src/email_text.rs:75-97 | the paragraph buffer and its flushes write each verbatim line in place and each paragraph wrapped |
| EmailProse.ProseIsLossless | src/email_text.rs:75-97 | re-wrapping any text keeps its words and their order |
| EmailProse.VerbatimStaysInPlace | src/email_text.rs:75-97 | a blank, quoted or indented line stays where it is, and splits what surrounds it into two independent texts |
| EmailProse.RowsAreStable | src/email_text.rs:75-97 | wrapped rows re-wrap to themselves, even when some begin with `>` and count as quotes the second time |
| EmailProse.ProseIsIdempotent | src/email_text.rs:72-97 | re-wrapping what was re-wrapped changes nothing, for every text |
| EmailLayout.WrappedFits72 | src/email_text.rs:25-44 | every line of wrapped text has at most 72 bytes or is one word behind its prefix |
| EmailLayout.RowsFill72 | src/email_text.rs:25-44 | the first word of a line would have made the line before longer than 72 bytes |
| EmailLayout.KeptLinesStay | src/email_text.rs:75-97 | every blank, quoted or indented line of the text is a line of the result, but for trailing blanks, in order |
| EmailLayout.RunIsReflowed | src/email_text.rs:75-97 | a run of other lines becomes one full layout of its words, in its place |
| EmailLayout.ShortLinesJoin | src/email_text.rs:75-97 | two such lines that fit together become one |
| FetchQueueSafety.OneOutcomePerGeneration | src/fetcher.rs:240-296 | between two enqueues a row yields nothing, one failure, or the leading part of one numbered batch; only an ended generation yields anything, and it yields all of it unless its poster stopped or its last write was answered by an error |
| FetchQueueSafety.SupersededAgentIsHarmless | src/fetcher.rs:334-477 | an agent whose lease was taken over changes neither the row nor what is emitted and never starts posting, unless the row carries its stamp again or is about to |
| FetchQueueSafety.RiskArisesExactly | src/db.rs:15560-15636 | somebody comes to be in that position exactly when a finished row is enqueued in the second in which an agent still at work locked it |
| FetchQueueSafety.HarmNeedsExactlyARiskyAgent | src/db.rs:15494-15800 | from any reachable state, without another such enqueue, some superseded agent can come to do harm exactly when one is in that position |
| FetchQueueSafety.CalmRunsAreSafe | src/fetcher.rs:232-477 | over any run without such an enqueue nobody is ever in that position and the row stays within its cap |
| FetchQueueSafety.NoLeaseNoEffect | src/db.rs:15638-15787 | a step under a stamp that the row does not carry has no effect on the row or the channel |
| FetchQueueSafety.HastyEnqueueLetsASupersededAgentPost | src/db.rs:15560-15636 | a reachable run in which a superseded agent finishes a row, through equal one-second stamps |
| FetchQueueSafety.GivesUpExactlyAtTheCap | src/fetcher.rs:240-477 | a transient failure, of git, of the lease test or of marking the row done, is given up exactly when the locks of the generation, swept ones aside, have reached max(1, max_retries), and they are no more exactly when the row was within its cap |
| FetchQueueSafety.CapIsLeftExactly | src/fetcher.rs:232-268 | a step takes the row beyond its cap exactly when a superseded agent, whose stamp the row carries again, reschedules it with no attempt left |
| FetchQueueSafety.HastyEnqueueOverrunsTheCap | src/db.rs:15560-15636 | a reachable run with three locks in one generation where two are allowed |
| FetchQueueSafety.LeasesKept | src/db.rs:15494-15800 | every step keeps the row, its holder and the stamps and retry counts of all agents in agreement |
| FetchQueueProgress.NoRowIsStuck | src/db.rs:15560-15800 | wherever its holder died, an unfinished row goes to any idle agent once the lease of ten minutes and the wait are over |
| FetchQueueProgress.SweepTakesExpiredLeases | src/db.rs:15789-15800 | a sweep takes a row back exactly when it was locked more than 600 seconds ago, at no other cost |
| FetchQueueProgress.LocksExactly | src/db.rs:15560-15612 | an idle agent gets the row exactly when it is waiting, due and wanted |
| FetchQueueProgress.RequestedRowIsDue | src/db.rs:15494-15558 | a request makes a waiting or finished row due at once, a finished one in a new generation with all its attempts, and leaves a locked one alone |
| FetchQueueProgress.CancelledTargetEndsRow | src/db.rs:15560-15574 | once the target is cancelled the next agent that comes by cancels an unfinished row |
| FetchQueueProgress.CancelledTargetStopsHolder | src/db.rs:15614-15787 | so does the holder at its next update, and emits nothing |
| FetchQueueProgress.FinishedStaysFinished | src/db.rs:15494-15800 | only a request takes a finished row up again |
| FetchQueueProgress.DeathLeavesRow | src/fetcher.rs:211-238 | a dead agent leaves the row to the sweep |
| FetchQueueProgress.UndisturbedAgentDelivers | src/fetcher.rs:334-477 | a holder that is not disturbed marks the row done and sends its whole batch, numbered and in order |
| FetchQueueProgress.UndisturbedAgentReportsMissing | src/fetcher.rs:334-352 | where there is nothing to fetch from it marks the row failed and sends one failure |
| FetchQueueProgress.UndisturbedAgentReportsFailure | src/fetcher.rs:414-448 | so it does where nothing can be extracted |
| FetchQueueProgress.UndisturbedAgentReschedules | src/fetcher.rs:232-268 | after a transient failure with attempts left the row waits 5, 30 or 180 seconds for one more attempt |
| FetchQueueProgress.UndisturbedAgentGivesUp | src/fetcher.rs:240-296 | with none left it fails, and says so once |
| RangeExtraction.ReadCommits | src/fetcher.rs:654-670 | all commits of the range, or the error of the first one that cannot be read |
| RangeExtraction.Separate | src/fetcher.rs:672-703 | one pass finds the real commits, the base of the leading trackers and the first change id |
| RangeExtraction.ExtractRange | src/fetcher.rs:636-747 | the in-place edits and the numbering loop yield the series that the range specifies, or its error |
| RangeExtraction.KeptIsASelection | src/fetcher.rs:672-703 | the patches are the commits at strictly increasing positions: exactly the real ones when there is one, otherwise all |
| RangeExtraction.RangeIsAllOrNothing | src/fetcher.rs:644-707 | events leave exactly when the range resolves, is not empty and every commit can be read; then each kept commit leaves once, in order, under its own sha |
| RangeExtraction.NumberedOneToN | src/fetcher.rs:709-746 | patches are numbered 1..n of n exactly as long as n fits the 32-bit counter |
| RangeExtraction.LeadingBaseIs | src/fetcher.rs:678-700 | the inherited base is that of the first tracker recording one, all commits up to it being trackers without one |
| RangeExtraction.ChangeIdOnce | src/fetcher.rs:712-725 | the first message only grows, then names a change, and is not given a second one |
| RangeExtraction.TrackersOnlyTouchTheFirst | src/fetcher.rs:677-746 | trackers change nothing but the base and the message of the first patch |
| RangeSeries.EventsAreTheCommits | src/fetcher.rs:672-746 | the events are the commits that are no trackers, or all, in order and under their own shas, and carry what was read but for base and message of the first |
| RangeSeries.FirstEventInheritsBase | src/fetcher.rs:677-700 | the first event has the base of the first tracker with one ahead of every real commit, and otherwise its own |
| RangeSeries.FirstEventGetsChangeId | src/fetcher.rs:712-725 | the first message is its own, with the first tracker's change id in a paragraph of its own unless it names one |
| FetchBatch.EndpointsOfRange | src/fetcher.rs:298-316 | `base..head` and `base...head` have the endpoints they are written with |
| FetchBatch.FetchAgent.Gather | src/fetcher.rs:526-559 | the missing commits are the absent endpoints, each once, and the needing items those with an absent endpoint |
| FetchBatch.FetchAgent.ProcessRangeItem | src/fetcher.rs:796-822 | a range leaves its whole series, or one failure |
| FetchBatch.FetchAgent.ProcessSingleCommitItem | src/fetcher.rs:749-847 | a commit leaves one submission, or one failure |
| FetchBatch.FetchAgent.ProcessRepository | src/fetcher.rs:509-632 | after one remote fetch every item of a repository has left its outcome exactly once, and the missing commits were gathered right |
| FetchBatch.FetchAgent.ProcessQueue | src/fetcher.rs:506-634 | the queue is drained, and what was sent is one outcome for every queued (repository, item), whatever the order |
| FetchBatch.AsManyOutcomesAsItems | src/fetcher.rs:506-634 | there are as many outcomes as queued items |
| FetchBatch.OutcomesAreWhole | src/fetcher.rs:495-634 | an outcome is one failure or a complete, non-empty, numbered batch, under the item's own article id throughout |
| FetchBatch.RemoteFailsOnlyTheNeedy | src/fetcher.rs:561-632 | over the whole queue, every item gets what git yields for it or has an absent endpoint and its remote's error, and a remote that fails is reported by some item |
| FetchOutcomes.RemoteDecidesNeedyItems | src/fetcher.rs:561-632 | an item lacking an endpoint fails, with the remote's error, when the remote cannot be set up, and when both the fetch of the missing commits and the full fetch fail |
| FetchOutcomes.OthersAreExtracted | src/fetcher.rs:561-632 | every other item gets what git yields for it, also when only the full fetch succeeded |
| FetchOutcomes.CommitIsSubmittedAsRead | src/fetcher.rs:749-847 | a commit is submitted as read, under its full sha, as a series of one, or fails with what git said |
| FetchOutcomes.RangeIsSubmittedWhole | src/fetcher.rs:796-822 | a range is submitted as its whole series, or fails with what git said |
| FetchOutcomes.EndpointsOfHalfRange | src/fetcher.rs:298-316 | an empty side of a range is no endpoint |
| FetchOutcomes.EndpointsOfChain | src/fetcher.rs:298-316 | two separators leave nothing to check |
| Addresses.DedupAddresses | src/email_router.rs:173-214 | the index-by-address loop yields the deduplicated survivors and the set of their bare addresses |
| Addresses.DedupIsDedup | src/email_router.rs:173-214 | one address for each bare form, in first-occurrence order, being its first named form if it has one |
| Addresses.SurvivorsAre | src/email_router.rs:173-214 | the addresses compared are the trimmed candidates that pass the tests for blanks, the bot and the excluded |
| Addresses.BareOfNamed | src/email_policy.rs:218-228 | the address in the first angle brackets counts, trimmed and in lower case |
| Addresses.BareOfUnnamed | src/email_policy.rs:218-228 | without a closed bracket the whole text does |
| RouterMethods.MatchLists | src/email_router.rs:303-343 | the lists a mail is addressed to, sorted by bare address |
| RouterMethods.TallyMatched | src/email_router.rs:345-371 | what all matched lists ask for together |
| RouterMethods.ResolveRecipients | src/email_router.rs:285-441 | the recipients of a review, or muting, as the routing function specifies them |
| RouterMethods.ResolvePositiveRecipients | src/email_router.rs:443-625 | the recipients of a review without findings, each resolver iterating the map in an order of its own |
| RouterSafety.RouteIgnoresMapOrder | src/email_router.rs:308-343 | with one list a bare address, the order in which the map of lists is iterated changes nothing, not even the order of the addresses |
| RouterSafety.RoutePositiveIgnoresMapOrder | src/email_router.rs:443-625 | the same of a review without findings |
| RouterSafety.RecipientsIgnoreMapOrder | src/email_router.rs:285-441 | under any policy, two lists with one bare address included: muting, the To list, the addresses in Cc and the positive policy do not depend on that order |
| RouterSafety.PositiveRecipientsIgnoreMapOrder | src/email_router.rs:443-625 | nor does who gets a review without findings, the two resolvers iterating in orders of their own |
| RouterSafety.TwinsLeaveCcToTheMap | src/email_router.rs:308-430 | inputs for which order or spelling within Cc does depend on the map order: two keys with one bare address and different cc |
| RouterSafety.PositiveReachesNoOneNew | src/email_router.rs:443-625 | under the policy `All`, who gets a positive review would have got a review with findings, also across the cap |
| RouterSafety.CappedBelow | src/email_router.rs:137-166 | the cap counts no fewer individuals for a positive review, so relaying there implies relaying here |
| RouterSafety.NobodyTwiceAndNeverTheBot | src/email_router.rs:382-430 | To and Cc name nobody twice, not even across the two, and never the bot |
| RouterSafety.MailedIsSurvivors | src/email_router.rs:382-430 | an address is mailed exactly when some candidate with that bare address passes the tests |
| RouterSafety.AtMost128Individuals | src/email_router.rs:131-166 | beyond lists, author and configured cc addresses, at most 128 addresses are mailed |
| RouterSafety.SortSorts | src/email_router.rs:342-345 | the matched lists are sorted by bare address and permuted |
| RouterRecipients.ReviewReachesExactly | src/email_router.rs:285-441 | who is in To and in Cc, told from policy and mail: the author, lists, individuals within the cap and configured copies, each exactly where a list the mail is addressed to asks for it, or the defaults when there is none |
| RouterRecipients.MutedExactly | src/email_router.rs:285-441 | nothing is sent exactly when the author is ignored or the bot, silence is asked for, or nobody belongs anywhere |
| RouterRecipients.CleanReviewReachesExactly | src/email_router.rs:443-602 | under the policy All, the same of a review without findings, with only the lists that want it |
| RouterRecipients.CleanReviewReachesAuthor | src/email_router.rs:443-505 | under the other policies it reaches nobody, or the author alone |
| RouterRecipients.ToKeepsOrder | src/email_router.rs:382-430 | To begins with the author and keeps the order of the mail |
| Severities.ParseShow | src/db.rs:483-541 | a severity parses back from its own name |
| Patchwork.ResolvePatchwork | src/email_router.rs:216-283 | exactly one policy for every server and every address among the enabled contributing policies, each the merge of what they offer it |
| Patchwork.MergedFailsAtLowest | src/email_router.rs:112-123 | the failing threshold is the lowest of the contributors' |
| Patchwork.MergedReportsFromLowest | src/email_router.rs:98-113 | everything is reported when some contributor reports everything, otherwise the lowest floor counts |
| Patchwork.MergedTakesFirstToken | src/email_router.rs:120-122 | the first token is kept |
| Patchwork.MergedIgnoresOrder | src/email_router.rs:98-123 | contributors to one target merge to the same policy in any order, but for which token is kept |
| Patchwork.ResolutionIgnoresMapOrder | src/email_router.rs:216-283 | two iteration orders resolve to the same policies for the same targets, but for tokens |
| PatchworkTargets.TargetsExactly | src/email_router.rs:216-283 | exactly the servers and addresses that an enabled contributing policy names, each by itself |
| PatchworkTargets.TargetFailsAtMildest | src/email_router.rs:98-123 | a target fails at the mildest severity at which a policy naming it fails, in the order unknown, low, medium, high, critical |
| PatchworkTargets.TargetReportsFromMildest | src/email_router.rs:98-123 | it is told everything when one of them tells everything, otherwise from the mildest floor on |
| PatchworkTargets.ServerHasToken | src/email_router.rs:120-122 | a server has a token of one of them, if any has one |
| PatchworkTargets.ParseReadsNames | src/db.rs:520-541 | critical by its whole name, the others by what the text begins with, in any case |
| RelatedBugs.RelatedPreexistingFor | src/email_policy.rs:346-380 | the defaults when no list matches, otherwise disabled by any matched list and the strictest floor of all |
| RelatedBugs.ResolvedIs | src/email_policy.rs:353-380 | the defaults without a list, otherwise enabled exactly when every list enables it, itself or by default, from the strictest of their floors on |
| RelatedBugs.ResolvedIsUnique | src/email_policy.rs:353-380 | the answer does not depend on the order of the map |
| RelatedBugs.MoreListsAreStricter | src/email_policy.rs:346-380 | once a list has matched, more lists only make the policy stricter; before, exactly under a condition on the defaults |
| RelatedBugs.FirstListCanLoosen | src/email_policy.rs:353-380 | an input for which the first list that matches loosens the policy |
| Grants.UpstreamGrantSections | src/maintainers.rs:496-512 | the sections of the grants that cover some file, each once, in grant order |
| Grants.DerivedIs | src/maintainers.rs:496-512 | a row is derived exactly from a grant one of whose trimmed paths matches a file |
| Grants.FingerprintDetermines | src/maintainers.rs:538-552 | equal fingerprints derive equal rows for all files |
| Backfill.IdsAfter | src/db.rs:4690-4720 | a page is the next ids in ascending order, as many as fit |
| Backfill.Database.ReconcileBugs | src/backfill.rs:176-201 | the paged walk ends, visits every bug exactly once in ascending order, counts those without files, and re-derives every row up to where it got |
| Backfill.Database.ReconcilePatchsets | src/backfill.rs:204-227 | the same of patchsets, whose files are those of all their parts |
| Backfill.Database.ReconcileUpstreamGrantSections | src/backfill.rs:141-173 | one attempt, failing anywhere, re-derives bugs before patchsets and records the fingerprint only after both; it does nothing without an index or when the fingerprint is recorded; it fails only when a database call does, after at most three calls a row |
| BackfillRuns.CrashSafe | src/backfill.rs:126-173 | any boots, crashes, restarts and ingestion, each under the same grants or under an index, the empty one included, that gives what it touches the same rows: from the first successful call on, every bug and patchset row is what the grants derive from its files |
| BackfillRuns.BootKeepsConsistentExactly | src/main.rs:1035-1085 | a whole boot under any index, however it ends, leaves right rows right exactly when the grants derive what it attributed or re-derived alike |
| BackfillRuns.StaysConsistentExactly | src/backfill.rs:126-173 | the same of any number of boots |
| BackfillRuns.SuccessIsConsistentExactly | src/backfill.rs:148-172 | a successful call leaves every row right exactly when another fingerprint was recorded or the rows were right already |
| BackfillRuns.ReturningGrantsExactly | src/backfill.rs:126-173 | after a whole boot under any index and a successful call under the grants again, every row is right exactly when the boot recorded another fingerprint or the grants derive what it touched alike |
| BackfillRuns.ReturningGrantsCanLeaveStaleRows | src/backfill.rs:141-173 | three runs that end with stale rows: an unfinished walk, an arrival after a call that wrote nothing, and an arrival under an empty index |
| Benchmark.CountResults | src/benchmark.rs:3621-3809 | every counter is the number of results of its kind, and every bucket counts its own |
| Benchmark.SummaryBalances | src/benchmark.rs:3581-3842 | miss reasons sum to missed plus unreviewed, scored attributions split into correct, wrong and missing, and the outcomes sum to the total exactly when every status is recognised |
| Benchmark.OutcomesSumToTotal | src/benchmark.rs:3729-3824 | outcome counters, and scored plus skipped entries, never exceed the total, and reach it exactly under conditions on the statuses |
| Benchmark.UnjudgedClassicEntryIsNowhere | src/benchmark.rs:3634-3655 | an entry that is not versioned and was never judged is neither scored nor skipped |
| Benchmark.MissesAndAttributionsBalance | src/benchmark.rs:3645-3777 | every miss has one reason and every expected attribution one verdict, for any results |
| Benchmark.DismissalsSumToCounter | src/benchmark.rs:3742-3760 | the per-stage dismissals sum to their counter |
| BenchmarkCommits.CollectMatches | src/benchmark.rs:3781-3809 | the matched findings of a commit are the distinct ones that results name |
| BenchmarkCommits.SumCommits | src/benchmark.rs:3843-3904 | the pass over the commits sums findings, matches and extra findings of the reviewed ones |
| BenchmarkCommits.FindingsSplit | src/benchmark.rs:3860-3897 | patch findings are the matched and the extra ones, exactly when the saturating subtraction never saturates |
| BenchmarkCommits.FaithfulIsCovered | src/benchmark.rs:3884-3897 | with numbered findings and results that name findings of their commit it never does |
| BenchmarkCommits.PatchFindingsAreIndexes | src/benchmark.rs:906-912 | numbered findings are counted by their numbers |
| BenchmarkEvaluation.PopulateFindings | src/benchmark.rs:2715-2762 | exactly the findings that state a problem are appended, in order, with their trimmed problem, and numbered on |
| BenchmarkEvaluation.LoadNew | src/benchmark.rs:2863-2948 | exactly the rows whose problem is new are appended, in order, as bugs or as findings, and numbered on |
| BenchmarkEvaluation.LoadedOnce | src/benchmark.rs:2863-2948 | afterwards every stated problem is known, and none that was appended is the problem of another finding |
| BenchmarkEvaluation.DeduplicateCommits | src/benchmark.rs:997-1007 | the distinct trimmed commits, in the order they first occur |
| BenchmarkEvaluation.InEntryOrder | src/benchmark.rs:2950-2984 | results that complete in any order end in the order of the entries |
| BenchmarkEvaluation.EvaluateAll | src/benchmark.rs:2950-2984 | result i is entry i judged by its own verdict, whenever its turn came |
| BenchmarkEvaluation.EvaluatedIsFaithful | src/benchmark.rs:2986-3152 | an evaluated entry has a recognised status, a reason when missed, an attribution when expected, and matches only what its review found |
| BenchmarkEvaluation.EvaluatedRunBalances | src/benchmark.rs:2950-3904 | the books of any evaluated run close |
| BenchmarkResults.StatusIs | src/benchmark.rs:2986-3120 | the status of an entry, case by case |
| BenchmarkResults.FoundIs | src/benchmark.rs:2986-3152 | found is what was detected or rightly suppressed |
| BenchmarkResults.MatchedIs | src/benchmark.rs:3050-3083 | a judged entry matches the finding the judge names by number, or the only one when none is named |
| BenchmarkResults.MissIs | src/benchmark.rs:3110-3130 | which entries have a miss reason and a dismissing stage, and which |
| BenchmarkResults.AttributionIs | src/benchmark.rs:3108-3152 | whose attribution is scored, and when it is missing |
| BenchmarkResults.OutcomeCountersAre | src/benchmark.rs:3729-3780 | each outcome counter is the number of results of its status |
| BenchmarkResults.FailureCountersAre | src/benchmark.rs:3634-3672 | which unjudged and silently suppressed results are counted |
| BenchmarkResults.AttributionCountersAre | src/benchmark.rs:3645-3662 | each attribution counter is the number of rated results of its kind |
| BenchmarkResults.MissCountersAre | src/benchmark.rs:3742-3776 | each miss counter is the number of results with its reason |
| BenchmarkResults.BucketsAre | src/benchmark.rs:3729-3745 | each subsystem's bucket counts its results by status |
| BenchmarkResults.DismissalsAre | src/benchmark.rs:3746-3754 | each stage's tally is the number of misses it is to blame for |
| BenchmarkResults.TotalsAre | src/benchmark.rs:3843-3904 | every total is a sum over the reviewed commits of what their findings and hits are |
| Authority.Build | src/authority.rs:677-703 | the view maps every canonical address to the sections that list it |
| Authority.ViewAgreesWithScan | src/authority.rs:713-735 | the view gives the role and the sections that scanning every section would |
| Authority.ResponsibleSections | src/authority.rs:878-897 | the specific sections of every file, and the catch-alls when some file has none |
| Authority.ResponsibleDistributes | src/authority.rs:878-897 | the sections of a union of file lists are the union of their sections |
| Authority.CatchAllsExactly | src/authority.rs:872-897 | catch-alls are responsible, all together, exactly when some file has no specific section |
| Authority.MoreFilesNeverLower | src/authority.rs:744-772 | touching more files never lowers a speaker's tier nor the trust in what they claim |
| Authority.AssociationOnlyRaises | src/authority.rs:116-156 | a repository association never lowers a standing, does not move a bot's, and gives everyone else the highest |
| AuthorityStandings.RoleIs | src/authority.rs:713-735 | a role told from the sections and the touched files: maintainer of what is touched, else reviewer, else listed elsewhere, else nobody |
| AuthorityStandings.StandingIs | src/authority.rs:744-772 | tier and claim trust told from the same and the kind of speaker |
| AuthorityStandings.AssociationMakesMaintainer | src/authority.rs:131-156 | an association makes a maintainer of everyone but bots and designated reviewers |
| Decimals.ParseNatural | src/forge.rs:1401-1403 | a 32-bit number parses back from its decimal form |
| Decimals.ParseRefuses | src/forge.rs:1401-1403 | a plus sign is allowed, anything else and any larger number refused |
| ForgeSubjects.VersionReadsBack | src/forge.rs:1355-1408 | a formatted subject tells its version, at least 1, to whoever knows the number |
| ForgeSubjects.RetaggingReplaces | src/forge.rs:1355-1389 | tagging what was tagged for the same number is tagging the original title |
| ForgeSubjects.StripIsTrimmed | src/forge.rs:1368-1389 | stripping a tag leaves no outer blanks |
| ForgeSubjects.SubjectLooks | src/forge.rs:1355-1389 | a subject reads mark, number, version from the second on, and title, with the mark of the forge |
| ForgeSubjects.OtherSubjectsTellNothing | src/forge.rs:1392-1412 | a subject without the number tells no version |
| ForgeComments.ComposePrReviewComment | src/forge.rs:819-931 | the buffer, its truncation and the backward-moving cut yield the specified comment |
| ForgeComments.IncompleteIsRecognisedExactly | src/forge.rs:799-931 | a comment is recognised as incomplete exactly when a commit or the patchset failed and a truncated comment's footer left room for header and marker |
| ForgeComments.LongLinkHidesMarker | src/forge.rs:819-931 | with a link as long as the bound no comment is recognised |
| ForgeComments.IncompleteCanGoUnrecognised | src/forge.rs:799-931 | a failed review whose comment is not recognised |
| ForgeComments.CommentsFit | src/forge.rs:918-931 | a comment on findings or failures fits the bound exactly when it need not be cut or note and footer fit on their own, and the cut is at a character boundary |
| ForgeContents.CleanExactly | src/forge.rs:844-866 | a review is confirmed as clean exactly when nothing failed and no patch has findings |
| ForgeContents.CommentEndsWithLink | src/forge.rs:819-931 | every comment ends with the link to the log |
| ForgeContents.HostOfLink | src/forge.rs:832-836 | the link is shown under the host of its address |
| ForgeContents.UncutCommentIsWhole | src/forge.rs:868-931 | an uncut comment is header, banner, summary, findings and footer |
| ForgeContents.SectionsAre | src/forge.rs:897-915 | one section for each patch with findings, in order, with its place, subject and findings |
| ForgeContents.BannerIs | src/forge.rs:872-890 | the banner counts the failed patches, or says that the review failed |
| ForgeContents.CutCommentKeepsMost | src/forge.rs:919-928 | a comment too long is cut at the last character boundary that leaves 64 bytes and the footer, and says so |
| Mbox.IsMboxSeparator | src/mbox.rs:62-94 | the shrinking loop and the index arithmetic decide the separator format without running out of bounds |
| Mbox.SplitMbox | src/mbox.rs:29-50 | the message buffer yields the runs between separator lines |
| Mbox.SplitKeepsEverythingElse | src/mbox.rs:29-50 | on any input the messages concatenate to exactly the lines that are no separators, and none is empty |
| Mbox.SplitOfJoin | src/mbox.rs:29-50 | splitting undoes joining with From lines |
| Mbox.MessagesStayWhole | src/mbox.rs:29-50 | a message that was split out splits no further |
| Mbox.FromLinesAreSeparators | src/mbox.rs:52-94 | sender and date make a From line exactly when the sender is not empty, and otherwise no separator at all, whichever way the day is written |
| Mbox.SeparatorsAre | src/mbox.rs:62-94 | the separators are exactly the lines that read From, a sender, a weekday and a time |
| BugMarkdown.LongestBacktickRun | src/bug_markdown.rs:113-125 | the text has a run of that length and none longer |
| BugMarkdown.PushFencedBlock | src/bug_markdown.rs:96-111 | the body, without trailing line endings, between fences of at least four backticks and one more than its longest run |
| BugMarkdown.FencedOutputReadsBack | src/bug_markdown.rs:96-111 | a scanner after section 4.5 of CommonMark 0.31.2 reads back exactly the bodies |
| BugMarkdown.BodyNeverCloses | src/bug_markdown.rs:96-111 | no line of a body closes its fence |
| BugText.SingleLine | src/bug_markdown.rs:61-80 | the trimmed text with its line breaks squeezed: one trimmed line, with the words of the text in order |
| BugText.RunBecomesSpace | src/bug_markdown.rs:61-80 | a run of line breaks becomes one space, or none after a space |
| BugText.SqueezedSame | src/bug_markdown.rs:61-80 | a text without line breaks is kept as it is |
| BugText.EncodeUriComponent | src/bug_markdown.rs:82-94 | the bytes are encoded one by one |
| BugText.EncodedByteIs | src/bug_markdown.rs:82-94 | unreserved characters are kept, every other byte becomes a percent sign and two upper-case hexadecimal digits |
| BugText.EncodingIsInvertible | src/bug_markdown.rs:82-94 | percent-decoding gives the bytes back, and the encoding holds nothing but unreserved characters and percent signs |

## Left out

- Unicode: whitespace, upper and lower case beyond ASCII are not modelled; byte lengths and character boundaries are.
- Fetch queue: one row is modelled, since the rows do not influence each other; every database call is one atomic step.
- Fetch queue: the clock never steps back; the source stamps leases with wall-clock seconds, which may.
- Fetch queue: webhooks, target rows other than their being cancelled, and the selection of the next row are outside the model.
- FetchBatch.FetchAgent.ProcessQueue: a channel whose receiver is gone, where the source logs and goes on, is not modelled.
- RouterMethods.Deliver: the source writes out capping, collecting and deduplication in both resolvers; the model shares them.
- RouterMethods.TallyMatchedPositive: shown only as a step of the positive resolver.
- RouterSafety.RecipientsIgnoreMapOrder: with two lists of one bare address, the order within Cc, and the form in which an address is written there, can depend on the map order (`RouterSafety.TwinsLeaveCcToTheMap`).
- Backfill: `backfill_patchset_maintainer_sections` is left out; its writes of grant rows count as attributions before the call.
- Backfill: what attribution writes during ingestion is taken to be what the loaded grants derive from the recorded files.
- BenchmarkEvaluation.LoadNew: the two loaders of the source, for the findings table and for bugs, are one method with a flag.
- Benchmark: category buckets are left out; unlike the totals they count attributions whether or not one was expected, so theirs need not sum to the expected ones.
- Benchmark: detections by stage are one more tally; rates, percentiles and averages are floating point.
- Authority: address parsing, the mailmap file and b4 relay addresses are behind the canonical-address oracle.
- ForgeComments: adjusting other comment bodies, tokens and posting are left out.
- Baseline scoring, review prompts, access levels, signatures and the web interface are not part of this model.
