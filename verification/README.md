# lambo: verified models of its stateful and arithmetic core

This project models, in Dafny, the parts of lambo whose correctness is not
visible in any one function, and proves what they promise.

* **The call ledger** (`src/ledger.rs`). Handles, some scoped to a session,
  append lines to one bounded channel; one writer thread drains it into batches
  and hands each batch to a sink; `shutdown` drops the only sender, waits, and
  abandons a writer that does not finish by arithmetic on the counters.
  `call_ledger.dfy` is the state machine of all threads' steps with the history
  of a run, `ledger_invariant.dfy` proves that every step keeps its invariant,
  `ledger_theorems.dfy` and `ledger_sends.dfy` state what follows for every
  reachable state,
  `ledger_witnesses.dfy` has runs in which the accounting is off, and
  `ledger_handles.dfy` has the objects themselves (counters, shared core,
  handles), whose methods do steps of the machine. A step with a sink result,
  a refused thread, a panic or a missed deadline is taken or not by the
  environment, so every theorem holds for every interleaving of any number of
  appends.
* **The bytes of a line** (`append`). `json_text.dfy` has the compact printer of
  serde_json, whose text `json_meaning.dfy` spells out, and a parser for the grammar
  of RFC 8259; `json_round_trip.dfy` proves them inverse and that splicing the
  `session` key into
  printed bytes prints the stamped object; `json_torn.dfy` and `json_glued.dfy`
  prove that no cut line parses, nor one with others behind it; `ledger_file.dfy`
  joins this to the machine: what is read back from a file is what was appended.
* **The evaluation arithmetic** (`examples/eval_measure`, `examples/eval_fusion`,
  `evidence/issue-87-calibration`): nearest-rank quantiles and the constants
  matched with them, the split-conformal gate, the pairwise AUC (`quantiles.dfy`,
  `auc.dfy`), the schema's validator (`eval_schema.dfy`), and hits, reciprocal
  ranks and nDCG over the sets it accepts, for whole rankings and for the first
  hits of a recall (`ranking.dfy`, `evaluation_run.dfy`, `recall_run.dfy`), with
  what their numbers count (`metrics_meaning.dfy`).
  Scores are reals; the discount of a rank is any positive, nonincreasing function,
  strictly decreasing where that matters.
* **The embedding cache** of both examples (`cache_key.dfy`, `cache_text.dfy`,
  `vector_cache.dfy`, `cache_reruns.dfy`, `fusion_cache.dfy`): the hashed key, the
  file of lines with torn and damaged ones, its bytes, the cache objects, over an
  embedder whose failures and short answers are an arbitrary script, and what a run
  embeds again after an interrupted one. The hash is any function without
  collisions, and an element of a vector is a finite f32, counted in units of 2^-149.
* **The redaction of parse errors** (`src/config.rs`; `redaction.dfy`,
  `redaction_theorems.dfy`, `redaction_limits.dfy`, `redaction_meaning.dfy`), **the OAuth token cache**
  (`src/gcp_auth.rs`; `token_source.dfy`) and **the greedy replay** of the same-content rule
  (`evidence/issue-181/hitk_replay.py`; `replay.dfy`).

`prelude.dfy` and `reals.dfy` hold shared datatypes and facts about real
quotients. `dafny verify dfyconfig.toml` checks the whole project.

## Where code and comments differ

The model follows the code. Each of these has a lemma with a run or an input
that shows it, and a statement of exactly when the comment is right.

* `shutdown` calls its count of abandoned lines settled and exact. It subtracts
  `write_failed`, which also holds drops that were never accepted: one append
  after the sender is gone hides one abandoned line
  (`LedgerWitnesses.LateAppendHidesAnAbandonedLine`; exact condition:
  `LedgerTheorems.AbandonIsExactWhen`). When that append is another session's,
  the sessions' counts do not add up to the file's
  (`LedgerWitnesses.SessionsNeedNotAddUp`; `LedgerTheorems.SessionsSumToFile`).
* Every failure of the ledger is said to be a counted drop. Lines that a
  panicking writer took along are counted nowhere
  (`LedgerWitnesses.PanickedWriterLosesALine`;
  `LedgerTheorems.JoinedWriterAccounts`).
* Redaction is said to replace each unknown variant. serde prints a variant raw,
  and the scan ends at its first backtick: of a variant that holds one, the rest
  is shown (`RedactionLimits.VariantCanShow`, `RedactionLimits.VariantShownBeforeList`; exactly when:
  `RedactionLimits.VariantIsHiddenExactWhen`). A key with a backtick in it is
  shown in the same way if it begins like a plain key
  (`RedactionLimits.KeyCanShow`; `RedactionLimits.QuotedIsWholeExactWhen`).
* Numbers are said to be redacted as values too. serde puts the words "floating
  point" before a number that is no integer, and no pass looks for them: the
  number is shown (`RedactionLimits.FloatIsShown`; which words get a number
  hidden: `RedactionLimits.NumberIsHiddenExactWhen`).
* A token is said never to be cached for longer than its lifetime
  (`expires_in`); one with a lifetime of zero is cached for a second
  (`TokenSource.ExpiryLeavesMarginExactWhen`).
* eval_fusion checks the width of a stored vector before it serves it;
  eval_measure, which writes the same file, does not
  (`CacheKey.UncheckedLoadServesCutVector`;
  `CacheKey.UncheckedLoadServesRightExactWhen`). Its `docs` reports success with
  a text left out when a batch falls short
  (`VectorCache.ShortBatchGoesUnnoticed`; `VectorCache.Cache.Docs`), which its
  export pass refuses.
* An interrupted run is said to keep its progress. The line it tore is skipped,
  but the next run's first line is glued to it and lost as well: a text that was
  embedded and written is embedded again (`CacheReruns.DocsRerun`, which says
  exactly which texts are; nothing is if and only if no line was torn or the run
  had nothing to write).
* The conformal gate is said to keep a coverage of at least 1 - alpha on
  exchangeable data. It does so from alpha (n + 1) >= 1 on, and not with fewer
  scores (`Quantiles.ConformalCoverage`; `Quantiles.ConformalNeedsEnoughScores`).

## Model

| member | source | states |
|---|---|---|
| CallLedger.CountAll | src/ledger.rs:629-633 | counting a batch's lines over all sessions is its length, so the file's one addition of `lines` agrees with line-by-line counts |
| CallLedger.LinesWithBatch | src/ledger.rs:631-643 | settling a batch adds exactly its lines, in order, to those written or to those failed, and none to the other |
| LedgerInvariant.InvStep | src/ledger.rs:358-658 | every step of every thread, in any order, keeps the invariant: lines flow in order from accepted to counted, each counter is a tally of the history, each file holds its lines' bytes, batches and warnings have their shape |
| LedgerInvariant.ReachableInv | src/ledger.rs:358-658 | the invariant holds in every state that any interleaving from an opened ledger reaches, with or without a writer thread |
| LedgerInvariant.QueuedIsUncounted | src/ledger.rs:211-217 | what `queued()` reads, for the file or a session, in terms of the lines in the channel and the writer's hands, in every reachable state |
| LedgerInvariant.NothingOfOthers | src/ledger.rs:402-414 | a session no handle was scoped to has no line anywhere, so creating its counters at zero is right at any time |
| LedgerTheorems.Conservation | src/ledger.rs:504-531 | before an abandon, finished appends (and a running accepted one) equal written + channel_full + write_failed + held + channel |
| LedgerTheorems.EachAppendHasOneFate | src/ledger.rs:504-531 | each append is refused, or its line stands at exactly one place: written, failed, in the batch or in the channel |
| LedgerSends.SendIsAnsweredExactly | src/ledger.rs:504-523 | a send is accepted if and only if there is a sender, a live writer and fewer than 1024 lines in the channel; otherwise it is refused for the first of these that is missing |
| LedgerSends.AppendCountsOnce | src/ledger.rs:504-531 | a whole append puts its line into the channel and counts it as accepted, or counts one drop of the right kind, for the file and its session and no other |
| LedgerSends.FirstSendsAreAccepted | src/ledger.rs:504-523 | in any run of a ledger with a writer, until someone takes the sender or the writer panics, the first 1024 sends are accepted |
| LedgerSends.RefusedForItsReason | src/ledger.rs:504-531 | in every reachable state, an append refused by a full channel follows at least 1024 accepted ones, one without a sender means it is gone, and one without a receiver that the writer panicked or never was |
| LedgerSends.CountersCountCalls | src/ledger.rs:445-450 | in every reachable state the file's and each session's counters are numbers of appends by outcome and of settled lines by result |
| LedgerTheorems.RanksIncrease | src/ledger.rs:504-531 | no two accepted appends share that place, and later ones lie further on |
| LedgerTheorems.QueuedMeaning | src/ledger.rs:211-217 | `queued()` is the uncounted lines less the drops never accepted, floored at 0; between appends it is exact if and only if there are no such drops or no such lines |
| LedgerTheorems.QueuedBounded | src/ledger.rs:202-210 | for the file and every session it never exceeds that view's lines in the channel and the writer's hands, so at most the channel's capacity plus the batch, even after an abandon |
| LedgerTheorems.AbandonIsExactWhen | src/ledger.rs:550-558 | the abandon step counts all lines left if and only if there were no unaccepted drops (or no lines), and levels the totals if and only if those drops do not outnumber the lines |
| LedgerTheorems.OvershootAfterAbandon | src/ledger.rs:550-568 | in every later state the totals overshoot by exactly the lines the abandoned writer settled since, plus the drops not set off against lines at the abandon step |
| LedgerWitnesses.LateAppendHidesAnAbandonedLine | src/ledger.rs:551-555 | a reachable state with one line left of which the abandon step counts none |
| LedgerTheorems.JoinedWriterAccounts | src/ledger.rs:572-573 | joining a finished writer leaves no line unaccounted; joining a panicked one leaves exactly the lines it took along |
| LedgerWitnesses.PanickedWriterLosesALine | src/ledger.rs:572-573 | a reachable state in which the shutdown joins a writer and an accepted line is neither written nor dropped |
| LedgerTheorems.FilesAreAFifoLog | src/ledger.rs:616-643 | the files' lines are accepted appends' lines, in acceptance order, none twice and none split; their number is `written`; moving the file away only cuts the sequence |
| LedgerTheorems.HandleKeepsOrder | src/ledger.rs:504-519 | two lines of one handle stand in the files in that handle's program order and come from two different appends of it |
| LedgerTheorems.SessionsSumToFile | src/ledger.rs:445-450 | written, channel_full and accepted of the file are always the unscoped lines plus the sum over sessions; write_failed too if and only if an abandon clamped nowhere or everywhere |
| LedgerWitnesses.SessionsNeedNotAddUp | src/ledger.rs:551-558 | a reachable state in which two sessions' failed writes are two and the file's one |
| LedgerTheorems.OneWarningPerFailureBlock | src/ledger.rs:597-655 | the number of warnings is the number of maximal failure blocks in the sequence of startup probe and sink results |
| LedgerTheorems.BatchBounded | src/ledger.rs:616-628 | a batch is at most its first line, or one byte short of the limit plus the longest line |
| LedgerSends.SealedWhenFull | src/ledger.rs:616-628 | a batch takes line after line and is sealed if and only if the channel is empty or it has reached 1048576 bytes |
| LedgerTheorems.WriterNeverStuck | src/ledger.rs:616-657 | once the sender is gone, a writer that has not ended has a step to take, whatever its sink answers |
| LedgerSends.WriterHasAStep | src/ledger.rs:616-657 | a live writer with lines in the channel or in hand has a step to take, the ledger open or not |
| LedgerTheorems.WriterStops | src/ledger.rs:616-658 | no run has more writer steps than a measure of the closed state, and a run that takes them all ends with an empty channel |
| LedgerHandles.LedgerCounters.AbandonQueued | src/ledger.rs:221-225 | the counters' new value, and that the returned number is what `queued()` read |
| LedgerHandles.Core.Scope | src/ledger.rs:402-404 | every handle onto one session gets the same counters object, and no other session's object changes |
| LedgerHandles.Core.Send | src/ledger.rs:504-523 | the channel send under the lock is the machine's step: no sender, no receiver, full, or the line with its session's counters enters the channel |
| LedgerHandles.Core.Count | src/ledger.rs:445-450 | the count is the machine's step: it changes the file's counters and the line's session's, and no other object |
| LedgerHandles.Core.DrainAll | src/ledger.rs:617-628 | the drain loop does the machine's drain steps until the channel is empty or the batch large, then seals the batch |
| LedgerHandles.Core.Settle | src/ledger.rs:631-655 | bumping each line's counters through shared references comes to the machine's settle step for every session |
| LedgerHandles.Core.Round | src/ledger.rs:616-657 | one turn of the writer's loop is the machine's receive, drains, sink and settle |
| LedgerHandles.Core.Write | src/ledger.rs:597-658 | the thread is the machine's probe and its rounds until the channel is empty; there it ends if no sender is left, and waits otherwise |
| LedgerHandles.Core.Move | src/ledger.rs:616-657 | the writer's next step, whatever it is, is the machine's |
| LedgerHandles.Core.Shutdown | src/ledger.rs:543-574 | taking the sender and polling the thread, with any writer steps between the looks, joins it once it is done and abandons it at the deadline, for the file's and every session's counters; a second call does nothing more |
| LedgerHandles.ShutdownMeans | src/ledger.rs:543-574 | what the shutdown leaves: joined with no counter touched if the last look finds the thread ended, and otherwise each view's accepted lines that are neither written nor failed are counted as failed |
| LedgerHandles.PatientShutdown | src/ledger.rs:549-573 | a writer that gets as many answers before the deadline as it has steps ahead is joined, not abandoned, with an empty channel |
| LedgerHandles.Ledger.ForSession | src/ledger.rs:402-414 | another handle onto the same core, whose scope replaces the old one |
| LedgerHandles.Ledger.SessionCounters | src/ledger.rs:440-442 | a scoped handle reads its session's counters in the machine's state, an unscoped one the file's |
| LedgerHandles.Ledger.Append | src/ledger.rs:459-532 | an append is the machine's send and count of the printed, stamped, newline-ended value, or its drop if the value does not serialize |
| JsonRoundTrip.StringRoundTrip | src/ledger.rs:472 | any string's printed form parses back to it, whatever follows |
| JsonRoundTrip.ValueRoundTrip | src/ledger.rs:472 | any value's printed form parses back to it, nested arrays and objects included, and leaves what follows |
| JsonRoundTrip.PrintedValueParses | src/ledger.rs:472 | a printed value is a complete JSON text and parses to that value |
| JsonMeaning.PrintsAreJson | src/ledger.rs:472 | literals, numbers, lists and objects are printed as the grammar of JSON has them |
| JsonMeaning.EscapesAreJson | src/ledger.rs:472 | a byte of a string is printed as itself, or as the two-character or `u00` escape of RFC 8259 where it must be escaped |
| JsonMeaning.StringsArePrintedByByte | src/ledger.rs:472 | a string is printed byte by byte between quotes |
| JsonRoundTrip.LineBytes | src/ledger.rs:466-502 | the bytes that `append` pops, extends and ends are the printed stamped value and a newline |
| JsonRoundTrip.SpliceIsStamp | src/ledger.rs:489-501 | opening an object's bytes at the closing brace for one more member prints the object with that member, the empty object included |
| JsonRoundTrip.StampedLineParses | src/ledger.rs:466-502 | an object without a top-level `session` reads back as itself plus `session`, for any session string; any other value reads back unchanged |
| JsonRoundTrip.PrintVisible | src/ledger.rs:472 | printed values hold no control bytes, so no newline |
| JsonRoundTrip.AppendedLineFramed | src/ledger.rs:502 | an appended line has exactly one newline, its last byte |
| JsonRoundTrip.SplitRecoversLines | src/ledger.rs:617-623 | splitting a concatenation of framed lines at newlines recovers each of them |
| JsonTorn.ValueExtends | examples/eval_measure/main.rs:202-204 | the parser's answer to a text that ends a value stays the same when more text follows, unless the value is a number |
| JsonTorn.TornValueDoesNotParse | examples/eval_measure/main.rs:202-206 | no proper beginning of a printed object, array or string is JSON, so a torn last line is skipped |
| JsonTorn.TornParsesExactWhen | examples/eval_measure/main.rs:202-204 | a proper beginning of any printed value parses if and only if the value is a number and the beginning is one too, and then to that number |
| JsonGlued.CutValue | examples/eval_measure/main.rs:202-206 | a printed value that is cut and runs into another line stops the parser, wherever it is cut; a list or an object is no value at all |
| JsonGlued.GlueParses | examples/eval_measure/main.rs:231-239 | of pieces of entries run together, only one that is whole and alone is JSON |
| LedgerFile.LinesReadBack | src/ledger.rs:616-632 | a batch's bytes, split at newlines, parse to the stamped values of its lines |
| LedgerFile.FileReadsBack | src/ledger.rs:459-658 | in every reachable state, each file the path has named reads back as the stamped values of accepted appends in order |
| Quantiles.QuantilesAgree | examples/eval_measure/main.rs:83-86 | the Rust and the Python nearest-rank quantile are the same function for every rank, out of range ones included |
| Quantiles.KthSmallest | evidence/issue-87-calibration/derive.py:39-41 | the k-th of a sorted list passes a threshold if and only if at least k elements do |
| Quantiles.QuantileGalois | evidence/issue-87-calibration/derive.py:39-45 | quantile(v, p) <= c if and only if p <= share_at_or_below(v, c), for 0 < p <= 1 |
| Quantiles.FewerBelowQuantile | evidence/issue-87-calibration/derive.py:39-45 | less than a share p lies strictly below the p-quantile |
| Quantiles.RecallConstantMatches | evidence/issue-87-calibration/derive.py:99-101 | the derived recall constant admits no larger irrelevant share than the reference constant does, and is the least that does so once the reference keeps anything out |
| Quantiles.MergeConstantBrackets | evidence/issue-87-calibration/derive.py:120-127 | share_above <= m < share_at_or_above for the derived merge threshold, if and only if m < 1 |
| Quantiles.RefusedAtMostRank | examples/eval_measure/main.rs:689-703 | of n + 1 scores, at most as many as the gate's rank fall strictly below the threshold tuned on the others, ties included |
| Quantiles.ConformalCoverage | examples/eval_measure/main.rs:689-705 | with alpha (n + 1) >= 1 the gate refuses at most alpha (n + 1) of the n + 1 choices of a held-out score |
| Quantiles.RefusedExactly | examples/eval_measure/main.rs:689-705 | of n + 1 different scores exactly floor(alpha (n + 1)) choices are refused, that number kept between 1 and n, so the bound is tight |
| Quantiles.RefusedExactWhen | examples/eval_measure/main.rs:689-705 | a held-out score is refused if and only if no more of all scores than the gate's rank are at most as high, ties included |
| Quantiles.ConformalNeedsEnoughScores | examples/eval_measure/main.rs:695 | with alpha (n + 1) < 1 there are n + 1 scores for which it refuses more, so the condition is exact |
| Quantiles.TuningScoresKept | examples/eval_fusion/main.rs:633-641 | the tuning scores themselves always keep a share of at least 1 - alpha |
| Quantiles.TuningScoresKeptExactly | examples/eval_fusion/main.rs:633-641 | of n different tuning scores exactly n + 1 - floor(alpha (n + 1)) are kept, within the same limits |
| Auc.TopOneArea | examples/eval_fusion/main.rs:610-623 | the nested loops compute the mean pair score, for empty lists too |
| Auc.AreaCountsPairs | examples/eval_fusion/main.rs:610-623 | the area is the share of pairs whose answerable score is the higher one, ties counted half |
| Auc.SeparatedIsOne | examples/eval_fusion/main.rs:610-623 | it is 1 if and only if every answerable score exceeds every other, and 0 if and only if each lies below |
| Auc.RaisingHelps | examples/eval_fusion/main.rs:610-623 | raising an answerable score never lowers it |
| Auc.AreaIsProper | examples/eval_fusion/main.rs:606-623 | it lies in [0, 1], and auc(a, b) + auc(b, a) = 1 for nonempty lists |
| Auc.AreaIgnoresOrder | examples/eval_fusion/main.rs:610-623 | it does not change under any permutation of either list |
| Auc.AreaIgnoresScale | examples/eval_fusion/main.rs:610-623 | nor under any strictly increasing map of the scores |
| EvalSchema.CheckText | examples/eval_measure/schema.rs:181-194 | it adds exactly the messages of the rules broken, so none if and only if the text is visible, short enough in UTF-8 bytes and not redacted |
| JsonMeaning.ByteLengthIsEncoded | examples/eval_measure/schema.rs:181-191 | the length that is limited is that of the text's UTF-8 encoding |
| EvalSchema.CheckCommon | examples/eval_measure/schema.rs:196-224 | it adds exactly the messages of the rules broken, so none if and only if split, labeller, date shape and review note are right |
| EvalSchema.CheckCorpus | examples/eval_measure/schema.rs:230-250 | its messages are exactly those of the rules broken, none if and only if ids and texts are unique and each concept well formed; and exactly the corpus ids are known to the later checks |
| EvalSchema.CheckQuery | examples/eval_measure/schema.rs:254-313 | it adds exactly the messages of the rules broken, so none if and only if id and text are new and the query is well formed over the corpus, by kind |
| EvalSchema.CheckPair | examples/eval_measure/schema.rs:317-392 | it adds exactly the messages of the rules broken, so none if and only if id and unordered texts are new and the pair is well formed, by label, family and relation |
| EvalSchema.KeysAreUnordered | examples/eval_measure/schema.rs:322-329 | two pairs have one key if and only if they have the same two texts in some order |
| EvalSchema.Validate | examples/eval_measure/schema.rs:227-402 | its messages are exactly those of the rules that are broken, all of them and each at its item, and there are none if and only if the set is well formed as a whole: unique ids and texts, known concepts, grades, kinds, families, relations, no two pairs of the same texts, and the export |
| EvalSchema.SampleIsSound | examples/eval_measure/schema.rs:227-402 | a set with a concept, a query and a pair that meets every rule |
| EvalSchema.ExportIsTheFilter | examples/eval_measure/schema.rs:165-179 | the expected export is the texts of the related-but-distinct pairs that await no review and whose id does not begin with p-198-, all of them, in order |
| Ranking.HighestGainMost | examples/eval_measure/main.rs:648-655 | no choice of n of the relevant grades gains more than the n highest |
| Ranking.DominanceDiscounted | examples/eval_measure/main.rs:639-655 | a grade sequence behind another in every prefix is behind it after any decreasing discount |
| Ranking.RankedGradesAreRelevant | examples/eval_measure/main.rs:639-647 | the positive grades along a ranking of distinct concepts are among the query's grades, each used once |
| Ranking.DcgAtMostIdeal | examples/eval_measure/main.rs:639-655 | dcg <= ideal dcg for every ranking of distinct concepts and every query that lists none twice |
| Ranking.NdcgInUnitInterval | examples/eval_measure/main.rs:628-669 | for every answerable query of a set `validate` accepts, and every ranking of distinct concepts, nDCG@10 lies in [0, 1] and its ideal is positive |
| MetricsMeaning.NdcgIsQuotient | examples/eval_measure/main.rs:639-669 | for every answerable query of a validated set, nDCG times what its grades gain in ideal order is what the first ten ranked concepts gain: 3 for grade 2, 1 for grade 1, each times its rank's discount |
| Ranking.NdcgIsOneExactWhen | examples/eval_measure/main.rs:639-669 | with a strictly decreasing discount it is 1 if and only if the first ten ranks carry the ideal grades |
| Ranking.StrictDominance | examples/eval_measure/main.rs:639-655 | being behind the ideal in one prefix costs discounted gain, whatever later ranks catch up |
| Ranking.RankedTwiceOverflows | examples/eval_measure/schema.rs:232-236 | a ranking that names one concept twice exceeds 1, so the unique ids are needed |
| Ranking.FirstHit | examples/eval_measure/main.rs:638 | the first rank with a grade-2 concept, or none if there is none |
| MetricsMeaning.FirstIsFound | examples/eval_measure/main.rs:638-668 | a query counts as a hit at k if and only if one of its grade-2 concepts stands among the first k |
| MetricsMeaning.EachAddsItsReciprocal | examples/eval_measure/main.rs:661-669 | a query adds one over the rank of its first hit, and its own nDCG, to each key it falls under |
| Ranking.Accumulate | examples/eval_measure/main.rs:656-670 | the map of accumulators has exactly the keys that occur, each with the totals of the queries counted under it |
| Ranking.TotalsCoherent | examples/eval_measure/main.rs:661-669 | scores in [0, 1] give hit1 <= hit5 <= hit10 <= n, hit1 <= rr <= n and ndcg <= n in every accumulator |
| Ranking.SplitsAddUp | examples/eval_measure/main.rs:656-669 | totals of the two splits add up to those of all queries when each query is in one of them |
| EvaluationRun.ScoreIsFair | examples/eval_measure/main.rs:638-669 | a scored query of a validated set, over any ranking of its corpus: nDCG in [0, 1], a known split, and a grade-2 concept that is found |
| EvaluationRun.MetricsOfSoundSet | examples/eval_measure/main.rs:587-669 | for every validated set and any rankings of its corpus every accumulator is coherent, its reciprocal ranks are positive, the splits add up, and each scored query counts once |
| MetricsMeaning.MetricsCountQueries | examples/eval_measure/main.rs:587-671 | for every validated set, any rankings and every key, n and the hits at 1, 5 and 10 are the numbers of answerable, adjudicated queries, and of those with a grade-2 concept among the first 1, 5 and 10 |
| EvaluationRun.Evaluate | examples/eval_measure/main.rs:587-671 | the accumulators the loop returns have exactly the keys that occur and are those totals, with all these properties |
| RecallRun.ChosenAre | examples/eval_fusion/main.rs:436-441 | the queries of a run are exactly those that await no review and are in dev, or in any split on request, each once |
| RecallRun.FamiliesAddUp | examples/eval_fusion/main.rs:517-529 | totals of distinct families that cover the queries add up to the total of all queries |
| RecallRun.AccumulateRecall | examples/eval_fusion/main.rs:466-531 | the map has exactly the split and split-and-family keys that occur, each with the totals of the queries in it |
| RecallRun.MetricsOfRecall | examples/eval_fusion/main.rs:436-531 | for every validated set and any lists of at most ten distinct hits: every accumulator is coherent, rr <= hit10 <= 10 rr, the families of a split add up to it, each scored query counts in one split, and none as held out unless asked for |
| MetricsMeaning.RecallCountsQueries | examples/eval_fusion/main.rs:466-531 | so are the numbers of each split, and of each family of a split, in a recall run |
| RecallRun.EvaluateRecall | examples/eval_fusion/main.rs:466-531 | the loop returns exactly those totals, and no held-out key in a run over dev alone |
| CacheKey.PartInjective | examples/eval_measure/main.rs:220-223 | a length-prefixed part can be cut off its string in one way only |
| CacheKey.KeyBytesInjective | examples/eval_measure/main.rs:217-225 | the hashed bytes determine contract, role and text |
| CacheKey.KeyBytesAre | examples/eval_measure/main.rs:217-225 | what is hashed is contract, role name and text, each behind its length in eight bytes, lowest first |
| CacheKey.EntryForIsRight | examples/eval_measure/main.rs:231-239 | an appended entry is the right vector for everything its key could stand for |
| CacheKey.LoadedExactly | examples/eval_measure/main.rs:200-206 | a reader finds a key if and only if an accepted line has it, and takes the last one |
| CacheKey.CheckedLoadFinds | examples/eval_fusion/main.rs:381-388 | with the width check a key is found if and only if an entry of the right width has it, and the last such entry is what is found |
| CacheKey.CheckedLoadServesRight | examples/eval_fusion/main.rs:221-226 | with the width check, a file whose damage shows in width or syntax yields right vectors only |
| CacheKey.UncheckedLoadServesRightExactWhen | examples/eval_measure/main.rs:200-206 | without it, if and only if no text's last entry has lost its width |
| CacheKey.UncheckedLoadServesCutVector | examples/eval_measure/main.rs:200-206 | one shortened line that is served |
| CacheText.DecimalIsExact | examples/eval_measure/main.rs:190-194 | there is a way to print and read elements that loses nothing: whole numbers in decimal are JSON numbers and read back as themselves |
| CacheText.EntryIsRead | examples/eval_measure/main.rs:231-239 | a kept entry's line reads back as its key and vector |
| CacheText.FileReadsAsModel | examples/eval_measure/main.rs:200-239 | whatever was appended and wherever each append ended, a reader that splits the bytes and parses each line sees what the model of the file says |
| CacheText.BytesServeRight | examples/eval_measure/main.rs:175-206 | after appends of any contracts, each cut anywhere or not, a reader of the bytes serves every contract only its own embedder's vectors |
| CacheText.FairWorldAndDigits | examples/eval_measure/main.rs:175-206 | a hash, embedders that tell all texts apart, and digits that meet what these results ask for |
| VectorCache.ByLengthSorts | examples/eval_measure/main.rs:257-259 | the sort by length orders the texts and keeps each once |
| VectorCache.ByLengthIsStable | examples/eval_measure/main.rs:257-259 | and leaves texts of one length in their order |
| VectorCache.MissingAre | examples/eval_measure/main.rs:243-256 | the texts to embed are exactly those in neither map, each once |
| VectorCache.Cache.Open | examples/eval_measure/main.rs:197-215 | it fails if and only if a line is no text, and otherwise holds what the readable lines give |
| VectorCache.Cache.Docs | examples/eval_measure/main.rs:243-272 | every vector it holds stays the embedder's; if nothing fails it succeeds, and it fails only because a text was refused or a line not written; on success exactly the missing texts were asked for, once and in order, the number left unanswered is what the batch sizes say, all texts are present if and only if that is zero, and the file then gained exactly their entries; on failure with no text left unanswered, it gained the entries up to there and at most a part of the next |
| VectorCache.ShortBatchGoesUnnoticed | examples/eval_measure/main.rs:260-271 | a run in which `docs` succeeds and the text is not there |
| VectorCache.Cache.Queries | examples/eval_measure/main.rs:274-295 | the same for queries: it succeeds if nothing fails, fails only because a text was refused or a line not written, and on success all are present, the missing ones asked once and kept |
| VectorCache.Cache.ExportPass | examples/eval_measure/main.rs:319-347 | it asks for every text, duplicates included and never from the cache, keeps exactly the new ones, and fails only for a short batch, a refused text or a line not written |
| VectorCache.RunsServeRight | examples/eval_measure/main.rs:175-180 | after any runs under any contracts over one file, with torn and damaged lines between, a reader with the width check serves only its own embedder's vectors; one without it too, if the damage is only tearing |
| CacheReruns.RerunEmbedsExactly | examples/eval_measure/main.rs:175-180 | a run over the file of an interrupted one embeds exactly the texts not yet written, and where the first run wrote behind a torn line, its first text and the torn line's |
| CacheReruns.RerunEmbedsLittle | examples/eval_measure/main.rs:175-180 | after a run that got to its end nothing is embedded again if and only if no line was torn before it or it had nothing to write, and at most two texts otherwise |
| CacheReruns.DocsRerun | examples/eval_measure/main.rs:243-272 | both for documents, in the order of the texts or by length, wherever the first run stopped |
| CacheReruns.QueriesRerun | examples/eval_measure/main.rs:274-295 | both for queries |
| FusionCache.ReadableText | examples/eval_fusion/main.rs:381-381 | reading ends at the first line that is no text, and only there |
| FusionCache.CachedEmbedder.Open | examples/eval_fusion/main.rs:377-389 | it holds the accepted lines up to that one, and serves right vectors from any file damaged in width or syntax |
| FusionCache.CachedEmbedder.Keep | examples/eval_fusion/main.rs:173-189 | the vector is kept in memory even if the write fails, and the first failed write is remembered |
| FusionCache.CachedEmbedder.Embed | examples/eval_fusion/main.rs:193-212 | there is no answer if and only if the text is unknown and the embedder refuses it, and otherwise it is the embedder's; a known text costs no call and is a hit, any other one call and a miss; what was embedded is known from then on and appended to the file |
| Redaction.RedactMessage | src/config.rs:637-673 | the scanner's loop and the four passes compute the specified text and end on every message |
| Redaction.RedactQuoted | src/config.rs:637-666 | the scanner's loops find the first value, skip to the first closing character that is not escaped, and start afresh behind it |
| Redaction.RedactBackticked | src/config.rs:686-708 | a pass shows a closed or unclosed quoted text if it is a plain key and hides it otherwise, left to right |
| RedactionTheorems.HideValuesIsExact | src/config.rs:637-666 | on plain text with Debug-escaped strings and variants that are hidden at all (RedactionLimits.VariantIsHiddenExactWhen), the scanner replaces exactly the values |
| RedactionTheorems.EscapedIsConsumed | src/config.rs:657-662 | the scan consumes exactly an escaped string and its closing quote, whatever the string and whatever follows |
| RedactionMeaning.StringIsHidden | src/config.rs:632-663 | a string quoted the way Debug prints it is replaced by (value not shown), whatever it holds and whatever follows, in the message as redacted to the end |
| RedactionMeaning.UnclosedIsHidden | src/config.rs:663-664 | a string or a variant that nothing closes is hidden to the end |
| RedactionMeaning.UnclosedIsHiddenByWords | src/config.rs:684-708 | so is a number or a pasted key; a plain key is shown, with its backtick closed |
| RedactionMeaning.ValueIsHidden | src/config.rs:637-670 | a plain text in backticks behind the word variant, integer or float is hidden |
| RedactionMeaning.KeyIsShownExactWhen | src/config.rs:669-682 | a quoted field name or key is shown if and only if it is 1 to 40 letters, digits, underscores and hyphens |
| RedactionMeaning.AddressIsHidden | src/config.rs:666-672 | so an address with a password, pasted as a key, is hidden |
| RedactionTheorems.ValuesDoNotShow | src/config.rs:632-637 | two messages that differ only in such values redact to the same text |
| RedactionLimits.VariantShowsBehindBacktick | src/config.rs:655-663 | of a variant with a backtick, the scanner hides the part before it and goes on behind it, so a plain rest is shown unchanged |
| RedactionLimits.VariantIsHiddenExactWhen | src/config.rs:632-663 | a variant is hidden before every continuation if and only if it holds no backtick |
| RedactionLimits.VariantCanShow | src/config.rs:632-673 | of a variant with a backtick, the whole redaction shows the quote-free rest, whatever serde says next, and redacts what follows for itself |
| RedactionLimits.VariantShownBeforeList | src/config.rs:632-673 | so before serde's list of the variants there are |
| RedactionLimits.VariantsCanDiffer | src/config.rs:632-673 | messages that differ only there redact differently, whatever follows |
| RedactionLimits.TickedIsHiddenByWords | src/config.rs:637-673 | a quote-free text in backticks is hidden by exactly five words before it, two of them only if it is no plain key, and shown as it is behind any others; what follows is redacted for itself |
| RedactionLimits.NumberIsHiddenExactWhen | src/config.rs:666-670 | a number is hidden if and only if one of those words stands before it, and shown as printed if and only if none does |
| RedactionLimits.FloatIsShown | src/config.rs:666-670 | a number behind serde's words for a float is shown |
| RedactionLimits.FloatsDiffer | src/config.rs:632-673 | messages that differ only in such a number redact differently |
| RedactionTheorems.LaterPassIsExact | src/config.rs:684-708 | a pass replaces exactly the quoted texts behind its prefix that are not plain keys it keeps, and changes nothing else |
| RedactionLimits.QuotedIsWholeExactWhen | src/config.rs:666-708 | a later pass treats a quoted text as a whole before every continuation if and only if it holds no backtick |
| RedactionLimits.KeyCanShow | src/config.rs:666-672 | a name that is no plain key, for a backtick in it, is shown unchanged, whatever follows |
| RedactionTheorems.RedactedIsSettled | src/config.rs:632-673 | in the redacted text no quote opens behind "string ", "unknown variant ", "integer " or "float ", and behind the words for a field or a key only a short plain key that is closed; behind other words anything may stand |
| RedactionTheorems.RedactIsIdleExactWhen | src/config.rs:637-673 | redaction leaves a text as it is if and only if it is settled in that sense |
| RedactionTheorems.RedactIsIdempotent | src/config.rs:637-673 | redacting twice is redacting once: no pass makes a trigger for itself or another |
| TokenSource.GoogleOAuthTokenSource.AccessTokenWithExpiry | src/gcp_auth.rs:450-526 | the answer and the new cached token, for a live token and for every outcome of the exchange, an overflowing lifetime included |
| TokenSource.GoogleOAuthTokenSource.AccessToken | src/gcp_auth.rs:440-442 | the same answer without the expiry, with the same effect on the cache |
| TokenSource.EachExchangeIsAnswered | src/gcp_auth.rs:450-526 | each way a call can end: from the cache, with the exchange's own token and its expiry, or with the error of its kind, which leaves the cache as it was |
| TokenSource.MintsExactWhen | src/gcp_auth.rs:450-525 | a call mints if and only if no token lives and its exchange yields one whose expiry can be represented |
| TokenSource.CachedIsLatestMint | src/gcp_auth.rs:524-525 | over any run of calls, the cached token is the latest one minted |
| TokenSource.AnswerIsLatestAndLive | src/gcp_auth.rs:450-455 | a token handed out is the latest one minted, and at that instant before its expiry |
| TokenSource.AnswerIsTheServersToken | src/gcp_auth.rs:506-526 | over any run, the token handed out is, word for word, the server's of the latest minting call, and its expiry 60 s short of the stated lifetime, of an hour if none is stated, but no sooner than after a second |
| TokenSource.CacheHoldsTheServersToken | src/gcp_auth.rs:524-525 | so is the cached one |
| TokenSource.MintsAreApart | src/gcp_auth.rs:519-525 | with a clock that does not run back, mints lie at least the earlier token's time to live apart |
| TokenSource.CallsAreServedFromCacheExactly | src/gcp_auth.rs:450-455 | a call's answer does not depend on any exchange if and only if a minted token still lives |
| TokenSource.FailuresKeepTheToken | src/gcp_auth.rs:489-513 | any number of failed exchanges leaves token and expiry |
| TokenSource.ExpiryLeavesMarginExactWhen | src/gcp_auth.rs:514-524 | a token is minted if and only if its expiry can be represented; the expiry is then exactly 60 s short of the stated lifetime if and only if that exceeds 60 s, and within the lifetime if and only if that is not zero |
| Replay.ReplayHits | evidence/issue-181/hitk_replay.py:45-65 | the loop picks and skips exactly what the closed form says, ranks, twins and full-text marks included |
| Replay.PickedExactWhen | evidence/issue-181/hitk_replay.py:48-65 | a hit is picked unless it lies in the window behind one that has its normalized full text, redacted ones aside |
| Replay.SkippedExactWhen | evidence/issue-181/hitk_replay.py:58-63 | a skip is made for each hit in the window that has one with its text before it, and names the first |
| Replay.RanksAreOfPicked | evidence/issue-181/hitk_replay.py:64-65 | the returned ranks are those of the picked hits, in their order |
| Replay.PickedAreFirstStayers | evidence/issue-181/hitk_replay.py:55-65 | the picks are the first k hits that lie outside the window, are redacted or come first with their text; fewer than k means all hits were looked at |
| Replay.EachHitStaysOrLeaves | evidence/issue-181/hitk_replay.py:58-64 | each hit looked at is picked or skipped and not both, and a skipped one names an earlier picked hit with the same text |
| Replay.StayersDiffer | evidence/issue-181/hitk_replay.py:58-64 | no two picked hits in the window have the same text |

## Left out

- LedgerHandles.Core.Shutdown: lets the writer alone run during the wait; appends and other handles' steps during it are interleaved in the machine, whose theorems cover them.
- LedgerHandles.Core.Settle: does the file's and the sessions' counts of a batch in one step, as the machine does; a reader between the single additions is not modelled, nor is one between an append's two counts.
- RedactionTheorems.ValuesDoNotShow: covers strings, and the variants that are hidden at all; that integers and unusual keys are gone is stated by RedactedIsSettled for every message, and that floats are not by RedactionLimits.FloatIsShown.
- VectorCache.Cache.Open: takes the lines as classified; that the bytes of appends, cut anywhere, have these classes is CacheText.FileReadsAsModel, and lines that are no text stand for damage from outside.
- Counters are unbounded where the code has `u64`, and memory orderings are left out: each step is atomic.
- A sink call writes a batch wholly or not at all; partial writes of the ledger's file, tracing text and the line builders are left out.
- JSON numbers are kept as their printed tokens, strings as bytes without a check that they are UTF-8, object members in the order given; the parser has no recursion limit.
- Real numbers stand for floating point: rounding, the display rounding of reports, the rounding of the shipped constants, NaN and the values of `log2` are left out. An element of a vector that is not finite is printed as `null` and its line not read back; such elements are left out.
- SHA-256 is any function without collisions; the embedding models, their deadlines and progress output are left out.
- JSON report assembly, medians, summaries and argument parsing of the two examples are left out: each is a single expression over lists whose quantiles and counts are modelled.
- In `src/gcp_auth.rs` the credential path precedence, JWT signing, HTTP and the credential files are left out.
- In `src/config.rs` TOML parsing, defaults, range checks and environment precedence are left out.
- `src/memory.rs`, `src/writeq.rs`, `src/resolve.rs`, `src/main.rs`, `web/app.js` and the remaining evidence scripts are left out.
