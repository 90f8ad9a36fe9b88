# Verified models of menhir's measurement and maintenance scripts

Dafny models of the self-contained algorithms under `scripts/` of the menhir repository, with proofs of what those
scripts promise. `dafny verify dfyconfig.toml` checks the whole project. Every lemma switches automatic induction
off, so the body of a lemma is its proof.

Four groups are modelled.

1. **Claim alignment and the k-vote gate.** k samples of a model's readings of an episode are grouped into claim
   heads (connected components of a span-overlap graph that pass an acceptance test) or exact-key buckets, and each
   group is put to a unanimity vote. `VoteGate`, `Components`, `ClaimHeads`, `AlignmentScore`, `HeadSearch`,
   `AlignmentGuarantee` and `AlignmentRun` model `eval_span_alignment.py`; `ProbeAlign` models the second
   implementation in `probe_scalar_proposer_reviewer.py`.
2. **Exact statistics.** Fisher's exact test, the Wilson interval, the sign test and nDCG, over exact integers and
   reals: `Binomial`, `FisherTest`, `WilsonInterval`, `SignTest`, `RankingGain`.
3. **Fault isolation and concurrency.** The halving reader of the tolerant export (`TolerantExport`) and the spending
   cap that concurrent calls share (`UsageBudget`).
4. **Plan, review, apply, verify.** The recall-hygiene migration (`HygieneManifest`, `HygieneMigration`,
   `HygieneVerification`, `HygieneExamples`), the retention backfill (`RetentionBackfill`), the two source-time repairs
   (`FixtureIndex`, `SourceTimeRepair`, `ValidAtRepair`) and the all-or-nothing file edits of the release script
   (`BumpEdits`).

Loops and objects that the scripts update in place are methods and classes, each proved equal to a function of its
inputs or of its old state; the theorems are lemmas about those functions.

## What the proofs found

Where the code does not meet a claim made about it, the code is kept as it is, a lemma gives a concrete input, and
another says exactly when the claim holds.

| claim | input that breaks it | exact condition |
|---|---|---|
| `align`'s worst case is the status quo | `AlignmentGuarantee.ReadTwiceIsLostByProbe`: one sample reads the clause twice | `AlignmentGuarantee.ProbeKeepsCommitIff`: the span is not empty and its component has k readings |
| alignment never loses a commit, for keys that do not fix the location | `AlignmentGuarantee.SharedKeyAcrossEpisodesLosesACommit`: one key in two episodes | `AlignmentGuarantee.AlignmentKeepsCommitIff`: no head holds a part of the bucket only |
| nDCG lies in [0, 1] | `RankingGain.NegativeGradeLeavesUnit`: a grade of -1 | `RankingGain.NdcgInUnitIff`: no grade is negative, or there is nothing to gain |
| the spending cap holds | `UsageBudget.FirstCallCanPassTheCap`: 400 characters that bill 200 prompt tokens | `UsageBudget.CapHeldIff`: no request can be answered at more than its own estimate; `UsageBudget.PromptDecides`: for answers within the completion limit, a prompt token for every four characters at most |
| apply and verification of a hygiene manifest agree | `HygieneExamples.AnchoredNoteDrifts`: a note anchored to a legacy file row; `HygieneExamples.BlankRoleIsCleared`: an anchor with a blank role | `HygieneManifest.ReviewedManifestSettlesIff`: each row's anchors gain what they lose; `HygieneVerification.SettlesIff` for edited rows too |
| a reviewed retention candidate can be written | `RetentionBackfill.NamelessCandidateIsRefusedAtWrite`: two episodes without names | `RetentionBackfill.ApplyThenVerify`: every approved source has a name |
| `--revert` restores the corpus exactly | `ValidAtRepair.UndatedIsNotRestored`: an undated episode that the fixture covers | `ValidAtRepair.RevertRestoresIff`: the episode had a date, or no apply covered it |
| the source-time repair overwrites no stored time | `SourceTimeRepair.TwinIsOverwritten`: a node outside the prefix with a planned turn id, overwritten before the refusal | `SourceTimeRepair.StoredTimesKeptIff`: every node with a stored time and a planned turn id already holds the planned time |

The tie branch of the gate, the collision counter, the pagination-gap warning, the refusal "post-repair verification is
not idempotent" and both clamps of the Wilson interval never take effect.

## Model

| member | source | states |
|---|---|---|
| VoteGate.TallyCounts | scripts/eval_span_alignment.py:79 | the counter built vote by vote lists every label cast exactly once, with its multiplicity, and nothing else |
| VoteGate.MostCommonSorts | scripts/eval_span_alignment.py:80 | the ranking is a reordering of the tally in descending order of count |
| VoteGate.GateIsUnanimity | scripts/eval_span_alignment.py:74-88 | with k votes for k samples the gate commits iff all k samples cast one and the same real label |
| VoteGate.TieIsUnreachable | scripts/eval_span_alignment.py:86-87 | the tie branch is dead when each sample has one vote |
| VoteGate.AbstentionReasons | scripts/eval_span_alignment.py:81-85 | "no real vote" means that only sentinels were cast; "scattered n of k" reports the best real multiplicity, below k |
| Components.Explore | scripts/eval_span_alignment.py:61-69 | the stack search from a node marks and lists, each once, exactly the nodes connected to it |
| Components.ConnectedComponents | scripts/eval_span_alignment.py:54-71 | over a symmetric graph the result lists every connected component once, each sorted, and partitions the nodes |
| ClaimHeads.CommonIntersectionMeaning | scripts/eval_span_alignment.py:48-51 | max of starts below min of ends iff some character position lies in every span |
| ClaimHeads.Helly | scripts/eval_span_alignment.py:11-14 | for non-empty spans a common position exists iff the spans overlap pairwise |
| ClaimHeads.EmptySpanBreaksHelly | scripts/eval_span_alignment.py:153 | with an empty span the two conditions differ, so the hypothesis is needed |
| ClaimHeads.AcceptedIsClique | scripts/eval_span_alignment.py:156-165 | a component of two or more is accepted iff its members come from distinct samples and every two of them are linked |
| ClaimHeads.ChainIsRejected | scripts/eval_span_alignment.py:13-14 | a chain A-B, B-C whose ends do not overlap is one component and is not accepted |
| ClaimHeads.BucketNeverSplit | scripts/eval_span_alignment.py:134-171 | readings that share a key are either all grouped into heads or all left over |
| ClaimHeads.AlignedPartitions | scripts/eval_span_alignment.py:141-171 | every reading lies in exactly one head or leftover bucket |
| ClaimHeads.AlignmentCoarsens | scripts/eval_span_alignment.py:11-17 | two readings of one key that lie in a head lie in the same head |
| AlignmentGuarantee.NeverLosesACommit | scripts/eval_span_alignment.py:116-220 | every bucket the baseline commits is committed, as the same set of readings, by the aligned grouping |
| AlignmentGuarantee.GainIsExactlyTheRescued | scripts/eval_span_alignment.py:203-207 | aligned commits are the baseline commits plus, disjointly, the committed heads that mix keys |
| AlignmentGuarantee.BucketsNeverRise | scripts/eval_span_alignment.py:24-25 | heads and leftover buckets together are never more than the baseline buckets |
| AlignmentGuarantee.ConflictingValuesAbstain | scripts/eval_span_alignment.py:19-22 | a group with two different values never commits |
| AlignmentGuarantee.SharedKeyAcrossEpisodesLosesACommit | scripts/eval_span_alignment.py:120 | were one key to name two episodes, a baseline commit could be lost: a concrete family |
| AlignmentGuarantee.AlignmentKeepsCommitIff | scripts/eval_span_alignment.py:116-220 | whatever the keys are, a baseline commit is kept iff no head holds one of its readings without holding all |
| AlignmentGuarantee.ProbeCommitsOnlyHeads | scripts/probe_scalar_proposer_reviewer.py:110-122 | with two or more samples `align` commits heads only, short of the aligned count by the unanimous leftover buckets |
| AlignmentGuarantee.ProbeKeepsCommitIff | scripts/probe_scalar_proposer_reviewer.py:61-66 | exactly when `align` keeps a baseline commit: the span is not empty and its component has k readings |
| AlignmentGuarantee.ReadTwiceIsLostByProbe | scripts/probe_scalar_proposer_reviewer.py:65-66 | one sample reads the clause twice: baseline and aligned grouping commit it, `align` commits nothing |
| AlignmentScore.FlattenedBelow | scripts/eval_span_alignment.py:135-136 | flattening k samples tags every proposal with a sample below k |
| AlignmentScore.GroupIndices | scripts/eval_span_alignment.py:137-139 | the dictionary of lists holds, ascending, exactly the positions of each key that are not skipped |
| AlignmentScore.BucketVotes | scripts/eval_span_alignment.py:123-130 | the order-dependent vote loop gives each sample nothing, its one label, or the conflict sentinel iff it holds two labels |
| AlignmentScore.HeadVotes | scripts/eval_span_alignment.py:178-181 | the head loop, which has no conflict check, gives the same votes on a head |
| AlignmentScore.GateCommitsUnanimous | scripts/eval_span_alignment.py:131-132 | loop and gate together commit a group iff all k samples read it and every reading carries one real label |
| HeadSearch.BuildEdges | scripts/eval_span_alignment.py:144-155 | the nested loops link exactly the overlapping pairs of different samples, both ways |
| HeadSearch.EpisodeComponent | scripts/eval_span_alignment.py:143-156 | a component found inside its episode is a component of the overlap graph of all readings |
| HeadSearch.AcceptableMeaning | scripts/eval_span_alignment.py:159-161 | the acceptance test on a listed component is the grouping rule on its set of readings |
| HeadSearch.Consider | scripts/eval_span_alignment.py:156-165 | one component becomes a head, an abstention or nothing, and exactly the right counters move |
| HeadSearch.CollectHeads | scripts/eval_span_alignment.py:141-165 | the heads are exactly the accepted components, each once, with the grouped readings and the number of abstentions |
| AlignmentRun.CountBuckets | scripts/eval_span_alignment.py:117-132 | both bucket passes: counters equal the number of exact-key buckets of the readings not skipped and of the unanimous ones |
| AlignmentRun.CountHeads | scripts/eval_span_alignment.py:173-203 | commits, conflicting heads and conflicting commits equal the sizes of those families, collisions stay 0, and no conflicting head commits when the label determines the value |
| AlignmentRun.ScoreNamespace | scripts/eval_span_alignment.py:113-220 | every reported counter is the size of the family it stands for, and aligned commits are baseline commits plus rescued heads |
| AlignmentRun.ScoreAll | scripts/eval_span_alignment.py:104-220 | over all namespaces commits never fall, buckets never rise and both self-checks stay 0 |
| ProbeAlign.AlignComponent | scripts/probe_scalar_proposer_reviewer.py:100-109 | the three tests in sequence accept exactly what the other script accepts |
| ProbeAlign.Align | scripts/probe_scalar_proposer_reviewer.py:61-113 | the returned groups are exactly the accepted components and the single ungrouped readings, each once |
| ProbeAlign.HeadCommitsMeaning | scripts/probe_scalar_proposer_reviewer.py:119-120 | with one reading per sample a head counts iff all k samples read it and all readings are equal |
| ProbeAlign.HeadCommitsUnanimous | scripts/probe_scalar_proposer_reviewer.py:116-122 | on such a head the count and the gate of the other script agree |
| ProbeAlign.ProbeScore | scripts/probe_scalar_proposer_reviewer.py:61-122 | the commits counted on what `align` returns are the unanimous groups, and for k of two or more the unanimous heads |
| Binomial.CombFactorial | scripts/score_proposer_reviewer_gates.py:31 | the recursive binomial coefficient is n! over k! (n-k)! |
| Binomial.Vandermonde | scripts/score_proposer_reviewer_gates.py:27-31 | the convolution of two binomial rows is a binomial coefficient |
| Binomial.RowSum | scripts/eval_attach.py:142 | a binomial row sums to 2^n |
| FisherTest.MassesSumToOne | scripts/score_proposer_reviewer_gates.py:41-45 | the hypergeometric masses over lo..hi sum to exactly 1 |
| FisherTest.TailsMeetAtObserved | scripts/score_proposer_reviewer_gates.py:34-45 | the two tails sum to 1 plus the point mass of the observed table |
| FisherTest.TailsAreProbabilities | scripts/score_proposer_reviewer_gates.py:34-45 | both p-values lie in (0, 1] |
| FisherTest.MoreHitsSmallerP | scripts/score_proposer_reviewer_gates.py:37-40 | with fixed margins one more hit in row 1 lowers the improvement tail and raises the regression tail |
| FisherTest.RowSwap | scripts/score_proposer_reviewer_gates.py:37-40 | testing row 1 for a higher rate equals testing row 2 for a lower one |
| WilsonInterval.IntervalInvertsScoreTest | scripts/score_proposer_reviewer_gates.py:52-56 | for z >= 0 the unclamped interval is exactly the set of rates the score test accepts |
| WilsonInterval.WilsonIsScoreInterval | scripts/score_proposer_reviewer_gates.py:48-56 | the interval contains hits/total, lies in [0, 1], and both clamps are no-ops |
| WilsonInterval.BoundsInOrderIff | scripts/score_proposer_reviewer_gates.py:54-56 | the unclamped bounds are in order iff z >= 0 |
| SignTest.SignTestIsTwoSidedTail | scripts/eval_attach.py:136-143 | the result is the fair-coin probability of a split at least as lopsided as the observed one |
| SignTest.ClampOnlyWhenBalanced | scripts/eval_attach.py:143 | the clamp at 1 takes effect iff x equals y |
| SignTest.SignTestSymmetric | scripts/eval_attach.py:136-143 | exchanging the sides changes nothing |
| SignTest.SignTestRange | scripts/eval_attach.py:136-143 | the p-value lies in (0, 1] and is 1 iff the counts differ by at most one |
| RankingGain.SortDownSorts | scripts/_calibrate_combiner.py:90 | the sorted grades are a descending reordering of the judged ones |
| RankingGain.DrawnIsNoBetter | scripts/_calibrate_combiner.py:88-92 | rearrangement: a list drawn from a descending one never beats the same number of its first entries |
| RankingGain.ListingBelowIdeal | scripts/_calibrate_combiner.py:89-91 | no listing of distinct ids gains more than the ideal one, unjudged ids and cut-offs included |
| RankingGain.NdcgInUnit | scripts/_calibrate_combiner.py:88-92 | nDCG lies in [0, 1] for distinct ids, non-negative grades and any positive non-increasing discount |
| RankingGain.NdcgInUnitIff | scripts/_calibrate_combiner.py:88-92 | every listing scores in [0, 1] iff no grade is negative or the ideal gain is not positive |
| RankingGain.NegativeGradeLeavesUnit | scripts/_calibrate_combiner.py:88-92 | grades -1 and 1, the first listed alone: the score is -1/2 |
| RankingGain.GradeOrderScoresOne | scripts/_calibrate_combiner.py:88-92 | a listing of all judged ids in descending order of grade scores 1 |
| TolerantExport.CeilLog2IsLeast | scripts/export_graph_backup_tolerant.py:17-19 | the logarithm in the cost bound is the least exponent whose power of two reaches n |
| TolerantExport.CostBound | scripts/export_graph_backup_tolerant.py:113-136 | isolating c bad rows in a window of n takes at most 1 + 2 c ceil(log2 n) full reads |
| TolerantExport.OneBadRowCost | scripts/export_graph_backup_tolerant.py:131-136 | one bad row in a window of 2^e rows costs exactly 1 + 2e reads, so the bound is met |
| TolerantExport.ExportCostBound | scripts/export_graph_backup_tolerant.py:15-19 | a whole export reads once per window plus the logarithmic extra for each bad row |
| TolerantExport.Exporter.ReadWindow | scripts/export_graph_backup_tolerant.py:98-140 | under any failure pattern a window is fully accounted for, every skip is justified by a failed read of that row alone, and written plus skipped is the window |
| TolerantExport.Exporter.ExportAll | scripts/export_graph_backup_tolerant.py:214-222 | every offset gets exactly one record in offset order, written plus skipped is the total, at the stated number of reads |
| TolerantExport.ExportGraph | scripts/export_graph_backup_tolerant.py:246-268 | exit code 0 iff no row was skipped; the pagination-gap warning is never printed |
| UsageBudget.UsageTap.Begin | scripts/eval_anchored_time.py:226-234 | a call is admitted iff its estimate fits under the cap; an admitted one joins the calls in flight with everything committed under the cap, a refused one only raises the flag, and the budget invariant is kept |
| UsageBudget.UsageTap.Complete | scripts/eval_anchored_time.py:237-244 | keeps the budget invariant: the other calls keep their reservations, and what is committed grows by no more than the response cost beyond its own estimate |
| UsageBudget.UsageTap.Fail | scripts/eval_anchored_time.py:235-238 | keeps the budget invariant: the reservation is again the sum of the estimates still in flight, and nothing is billed |
| UsageBudget.BudgetHolds | scripts/eval_anchored_time.py:226-245 | over every interleaving the reservation is the sum of the estimates in flight, and spending plus reservations exceed the cap by at most the total overrun |
| UsageBudget.CapMissedByWorkersAtMost | scripts/eval_anchored_time.py:226-286 | with overruns of at most s each the cap is missed by at most workers times s, however many calls were made |
| UsageBudget.CapHeldWithoutOverruns | scripts/eval_anchored_time.py:213 | in a run whose answers never exceed their estimates, spending plus reservations stay under the cap |
| UsageBudget.CapHeldIff | scripts/eval_anchored_time.py:226-245 | over every non-negative cap, number of workers and interleaving nothing is spent beyond the cap iff no request can be answered at more than its own estimate |
| UsageBudget.PromptDecides | scripts/eval_anchored_time.py:227-229 | all answers within a request's completion limit stay within its estimate iff the prompt bills at most one token for every four characters |
| UsageBudget.FirstCallCanPassTheCap | scripts/eval_anchored_time.py:228-229 | a request with a completion limit whose prompt bills more than a quarter of its characters, under a cap of exactly its estimate: admitted, and spends more than the cap |
| HygieneManifest.PlannedNeedsReview | scripts/migrate_flagged_bootstrap_scope_manifest.py:46-69 | a freshly planned candidate of any kind fails validation until it is reviewed |
| HygieneManifest.Manifest.Validate | scripts/migrate_flagged_bootstrap_scope_manifest.py:157-164 | no problem is reported iff uuids are named and unique and every candidate passes its kind's tests; each is rewritten to its normal form |
| HygieneManifest.RolesClearedIff | scripts/migrate_flagged_bootstrap_scope_candidates.py:76-107 | a validated, otherwise unedited manifest clears a role iff a pending row's role is blank |
| HygieneManifest.ReviewedManifestSettlesIff | scripts/migrate_flagged_bootstrap_scope_commands.py:152-229 | from review to verification: such a manifest settles iff, for every row and both columns, what is read through the anchors that become structural is what is read through those that lose their role; then a second apply writes nothing |
| HygieneManifest.LosesRoleIff | scripts/migrate_flagged_bootstrap_scope_manifest.py:72-111 | an entity loses its role iff its pending row was planned with a blank one |
| HygieneManifest.SettlesWithoutBlankRoles | scripts/migrate_flagged_bootstrap_scope_commands.py:152-229 | without blank roles it settles iff no row is anchored to an entity that it turns structural |
| HygieneExamples.AnchoredNoteDrifts | scripts/migrate_flagged_bootstrap_scope_candidates.py:66-67 | a flagged note anchored to a legacy file row: both planned, reviewed, validated and clean, and verification reports drift |
| HygieneExamples.BlankRoleIsCleared | src/menhir/domain/structural_memory.py:92-103 | an entity with a blank role and an anchored note: validated and clean, yet drifting after the apply |
| HygieneMigration.EvaluateManifest | scripts/migrate_flagged_bootstrap_scope_commands.py:123-144 | every candidate lands in exactly the list its verdict names, in manifest order |
| HygieneMigration.Store.WriteInBatches | scripts/migrate_flagged_bootstrap_scope_commands.py:192-209 | for every batch size the graph becomes the row-by-row write of the pending rows, all of them counted |
| HygieneMigration.Store.Apply | scripts/migrate_flagged_bootstrap_scope_commands.py:170-229 | a manifest with missing or drifted rows changes nothing and exits 2; otherwise exit 0 iff every row then evaluates as unchanged |
| HygieneVerification.SettlesIff | scripts/migrate_flagged_bootstrap_scope_commands.py:114-137 | a clean row, edited or not, evaluates as unchanged after the apply iff its preserved columns are those of its node and each anchor column plans what is read now and gained, less what is lost |
| HygieneVerification.AnchorsBalance | scripts/migrate_flagged_bootstrap_scope_commands.py:90-93 | conservation: what is read through a node's anchors after the apply, and what was lost, is what was read before and what was gained |
| HygieneVerification.UneditedSettlesIff | scripts/migrate_flagged_bootstrap_scope_commands.py:114-137 | an unedited row settles iff its anchors gain what they lose |
| HygieneVerification.EditedRowDrifts | scripts/migrate_flagged_bootstrap_scope_commands.py:135-139 | a pending row drifts iff a preserved column was edited in the manifest or an anchor column does not balance |
| HygieneVerification.SettlesIffNoAnchorBecomesStructural | scripts/migrate_flagged_bootstrap_scope_commands.py:90-93 | with no role cleared, an unedited row settles iff none of its Entity anchors gets a role in the same manifest where it had none |
| HygieneVerification.ApplySettlesIff | scripts/migrate_flagged_bootstrap_scope_commands.py:211-229 | the post-apply verification passes iff every row's anchors gain what they lose, and then a second apply writes nothing |
| RetentionBackfill.Store.ApplyLinks | scripts/backfill_legacy_retention.py:242-278 | the write loop succeeds iff every row in turn is accepted, and then made exactly their links |
| RetentionBackfill.Store.Transact | scripts/backfill_legacy_retention.py:370-375 | review and write together, or a graph without any new link |
| RetentionBackfill.ReviewedRowMatchesIffNamed | scripts/backfill_legacy_retention.py:80-113 | a row that is ready for review matches the write statement iff its source has a name |
| RetentionBackfill.ApplyAll | scripts/backfill_legacy_retention.py:246-277 | reviewed rows are all accepted iff every source has a name, and then add exactly one direct link each |
| RetentionBackfill.ApplyThenVerify | scripts/backfill_legacy_retention.py:281-320 | exact reviewed delta: if review passes, the apply succeeds iff every approved source has a name, and verification then accepts it with the approved count |
| RetentionBackfill.NamelessCandidateIsRefusedAtWrite | scripts/backfill_legacy_retention.py:251 | two episodes without names: ready for review, refused at the write |
| FixtureIndex.LoadIndex | scripts/repair_lme_scalar_source_times_planning.py:30-85 | an index is built iff the fixture is well-formed, every date parses and no session has two dates; it then holds exactly the listed sessions |
| FixtureIndex.SpelledDefaultCollides | scripts/repair_lme_scalar_source_times_planning.py:65-77 | a session id that spells another session's default name merges the two and gets the fixture refused |
| SourceTimeRepair.Graph.ReviewEvidence | scripts/repair_lme_scalar_source_times_planning.py:138-180 | the evidence loop yields the targets, updates and tallies of the row verdicts, and the first applicable refusal |
| SourceTimeRepair.Graph.ReviewAssertions | scripts/repair_lme_scalar_source_times_planning.py:199-257 | likewise for the assertions, with the set of subjects to rebuild |
| SourceTimeRepair.Graph.BuildPlan | scripts/repair_lme_scalar_source_times_planning.py:118-267 | the whole plan or its refusal, refusals in the order in which they are raised |
| SourceTimeRepair.RebuildMeaning | scripts/repair_lme_scalar_source_times_planning.py:241-245 | a subject is rebuilt iff a bound, settled assertion of its namespace with a single target names it |
| SourceTimeRepair.PlanSplits | scripts/repair_lme_scalar_source_times_planning.py:259-267 | updates and already correct rows make up the totals, for evidence and assertions |
| SourceTimeRepair.AcceptedIffCarriedOnce | scripts/repair_lme_scalar_source_times_apply.py:128-131 | the written counts agree with the plan iff every planned id is carried by exactly one node of the graph |
| SourceTimeRepair.ReplanIsSettled | scripts/repair_lme_scalar_source_times_apply.py:166-172 | after an accepted write re-planning finds no updates, the same totals and rebuild targets, and no stored time was overwritten |
| SourceTimeRepair.AssertionKeeps | scripts/repair_lme_scalar_source_times_apply.py:113-115 | no run of writes changes a backup that is there, or anything but the time and the backup |
| SourceTimeRepair.AssertionsSettle | scripts/repair_lme_scalar_source_times_apply.py:110-118 | an accepted write backs up exactly the old value of each updated assertion without a backup |
| SourceTimeRepair.Graph.ApplyRepair | scripts/repair_lme_scalar_source_times_apply.py:101-172 | what the write leaves, which refusal follows a count mismatch and that it leaves a changed graph, and that re-verification never refuses |
| SourceTimeRepair.TwinIsOverwritten | scripts/repair_lme_scalar_source_times_apply.py:101-129 | a node outside the prefix with a planned turn id loses its time before the refusal |
| SourceTimeRepair.StoredTimesKeptIff | scripts/repair_lme_scalar_source_times_apply.py:103-109 | the write keeps every stored time iff each node with a stored time and a planned turn id already holds the time planned last for that id |
| SourceTimeRepair.RefusalLeavesChanges | scripts/repair_lme_scalar_source_times_apply.py:127-131 | a refusal on either count always leaves a graph that differs from the one before |
| ValidAtRepair.Database.Plan | scripts/repair_lme_valid_at.py:87-109 | the planned updates are exactly the covered episodes whose time is not within a minute of the fixture, each once |
| ValidAtRepair.Database.Apply | scripts/repair_lme_valid_at.py:120-129 | the write, for every batch size, rewrites exactly those episodes and backs up their old value |
| ValidAtRepair.Database.Revert | scripts/repair_lme_valid_at.py:63-70 | in scope every dated episode is its original again and no backup is left; out of scope and without a backup nothing changes; the count is the number of episodes that changed |
| ValidAtRepair.ApplyIsIdempotent | scripts/repair_lme_valid_at.py:22-23 | a second apply on the same fixture plans nothing and changes nothing |
| ValidAtRepair.BackupNeverClobbered | scripts/repair_lme_valid_at.py:125-127 | under any run of applies and reverts a dated episode's backup is absent, with the original in place, or the original |
| ValidAtRepair.UndatedGetsADate | scripts/repair_lme_valid_at.py:104-109 | an undated episode changes iff some apply covers it, and then has a date |
| ValidAtRepair.RevertRestoresIff | scripts/repair_lme_valid_at.py:21-22 | after any run of applies revert restores an episode iff it had a date or was never covered |
| ValidAtRepair.UndatedIsNotRestored | scripts/repair_lme_valid_at.py:63-70 | one undated episode, one apply, one revert: the fixture's time stays |
| ValidAtRepair.RevertRestoresDated | scripts/repair_lme_valid_at.py:21-22 | a dated episode is restored after any run of applies and reverts |
| BumpEdits.ReplaceLength | scripts/bump.py:119-122 | replacing changes the length by the count times the difference of the lengths |
| BumpEdits.WorkingTree.ApplyEdits | scripts/bump.py:102-128 | all edits or none: refused iff a file is unreadable or a count differs, with every file as it was; otherwise each touched file is the left-to-right fold of its edits |
| BumpEdits.FileSize | scripts/bump.py:115-122 | a file's size changes by the sum over its edits of count times the length difference, as encoded |
| BumpEdits.RestoreUndoes | scripts/bump.py:131-133 | writing the returned originals back gives the tree before the edits |
| BumpEdits.WorkingTree.Finish | scripts/bump.py:332-340 | when the lock check fails the tree is exactly as it was |
| BumpEdits.EditCommutes | scripts/bump.py:116-122 | an edit of a CRLF file is the CRLF form of the same edit of the LF file |
| BumpEdits.CheckoutsAgree | scripts/bump.py:103 | CRLF and LF checkouts of a file stay the same text through any edits |
| BumpEdits.FoldExpanded | scripts/bump.py:136-137 | reading a file with CRLF folded to LF inverts the expansion |

## Left out

- Hypotheses on code that is not modelled: `KeyFixesLocation` (a `source_key` names one episode and one span; it is a
  digest of a string that strips the episode uuid, `src/menhir/domain/typed_assertion.py`), `LabelFixesValue` (the
  interpretation label contains the value) and `LabelsAreReal` (a label does not start with NUL, which only
  `commits_from_heads` relies on).
- The production gate and the fold engine under `src/menhir/services`: the two scripts are modelled, not what they
  mirror.
- The frozen-set loader, the decomposition of failed heads by label field, the list of rescued claims and all report
  printing of `eval_span_alignment.py`: display only.
- Floating point: statistics are over exact integers and reals. `1 / log2(rank + 2)` is any positive non-increasing
  discount, and the square root of the Wilson interval is a parameter that squares to its radicand.
- WilsonInterval.BoundsInOrderIff: the clamped pair for a negative z is not characterised; the script's z is 1.96.
- TolerantExport.Exporter.ExportAll: the table does not change during the export, and `--batch` is at least 1 (the
  script loops forever on 0); record contents beyond offset and id are not modelled.
- UsageBudget.BudgetHolds: rates are non-negative and one step is what runs between two awaits; the resolver's own
  retries are further calls. The text that is measured is a number of characters (`json.dumps` itself is left out).
- HygieneManifest.Manifest.Validate: the header checks (version, uri, counts, coverage, digest of fingerprints) are
  not modelled, and case folding and white space are those of ASCII.
- HygieneMigration.Store.Apply: `--batch-size` is at least 1, which the script checks before; the backup file check and
  the dry run are left out, and an anchor's `structure_project` and `structure_path` are never null (sorting a list
  with a null raises).
- RetentionBackfill.ApplyThenVerify: a digest is the inventory it digests, the candidate query is any duplicate-free
  listing that depends on uuids only, and other writers are fenced, as the maintenance procedure requires.
- SourceTimeRepair.Graph.ApplyRepair: the rebuild of the projections between write and verification, the audit file,
  the repair id and the recorded old value are left out; the rebuild is taken to leave evidence and assertions alone.
- SourceTimeRepair.Graph.ReviewAssertions: two assertion nodes that agree in every returned column are one row of the
  query but two rows of the model; an update of either is refused in both.
- FixtureIndex.LoadIndex: JSON types, date syntax and the fixture digest; a date is an instant or does not parse.
- ValidAtRepair.Database.Plan: how a session id is found in an episode's name; times are whole seconds.
- BumpEdits.WorkingTree.ApplyEdits: text is bytes from the start (UTF-8 encoding is left out), and writes do not fail.
- BumpEdits.CheckoutsAgree: needs a line break in the file before each edit, without which the style is not visible.
- Nodes are keyed by a unique uuid, except in `SourceTimeRepair`, where nothing is assumed about ids.
- Hashing is injective, Cypher is set semantics, and Neo4j, OpenAI, HTTP, git and the file system are maps, oracles or
  step inputs.
- Manifest planning, `cmd_plan` and `cmd_verify`, the bounded scan and the coverage of candidate kinds: plumbing around
  the modelled evaluation.
- `deploy/`, `scripts/release.py` and the remaining lab scripts: chains of external commands.
