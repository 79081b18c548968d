# Proofs of delivery, archive and audit behaviour

This project models seven components of the repository and proves what they are
relied on for. `dafny verify dfyconfig.toml` checks all of it.

* **Guard reader and guard sweep** (`Actions`, `GuardReader`, `GuardFaults`,
  `GuardPlaces`, `ActionRuns`, `ActionBranches`, `GuardSweep`, `GuardListing`,
  `GuardUse`, `GuardMisuse`). The action language has a meaning
  over pairs of states and, separately, a left-to-right evaluation that fills in
  the next state. The reader is a class that mutates its listing while it walks.
  The main results are that the walk stops exactly at the faults it names, that
  the two meanings agree on accepted actions, that the listing misses no guard,
  that the search for other uses decides what the sweep rests on, and that
  comparing state counts after removing guards decides whether any new state is
  reached.
* **Configuration rewriting** (`ConfigText`, `ConfigRewrite`, `ConfigGrammar`,
  `ConfigClaims`). A lexer that blanks comments in place, a sectioner and a
  rewriter, with what a piece of text and a section are, and an exact condition,
  over all texts, for the rewritten one to read back as intended.
* **Fan-out drain** (`Positions`, `PostgresDrain`, `DrainSweep`,
  `DrainOutcomes`, `DrainProcess`). A state machine over enqueues, calls,
  failures and crashes, what the end of a call says, and the program that takes
  its steps.
* **Spanner drains** (`OutboxOrder`, `ShardedDrain`, `WatermarkDrain`). In-memory
  scan floors against a table whose deletes are the real cursor.
* **Client availability rollup** (`ClientCounters`, `ClientRollup`,
  `ClientExtreme`, `ClientWindows`, `ClientAggregate`, `ClientOrder`). Integer
  capping and scaling with conservation laws and exact rounding bounds.
* **Immutable archive** (`Fingerprints`, `Archive`, `RestoreDrill`). Order-free
  fingerprints and the publish protocol under any number of archivers.
* **Bounded scans, backfills and the schema audit** (`PagedScan`,
  `ReservationBackfill`, `KeyUsage`, `KeyUsageLog`, `SqlTokens`,
  `SqlCase`, `SchemaAudit`).

`Common` and `Multiples` hold what these share. Where a property fails,
exactly when it holds is proved, with an input for which it does not where the
condition alone does not show one:

* no branch gives a variable twice (`RepeatedUnchanged`, `GivesOnceExactly`);
* an action without its guards is enabled (`EmptyChoiceHasNoRow`,
  `ListingIsComplete`);
* a configuration can be rewritten to one claim (`RewriteRefused` for an open
  last section, `EmptyTextFails` for a text without a token, on which
  `zip(strict=True)` raises ValueError, and `RewritingIsExact`);
* the order of log lines does not matter (`ReadingIsOrderFree`): the docstring of
  `parse_log` says lines come in any order, but the code keeps the first of
  several latest settles, so that holds only if they agree on the charge;
* one statement stands for a history of settles (`RolledAheadDiffers`,
  `UpdateStandsForHistory`);
* parentheses around an expression are neutral (`EnclosingIsNeutral`);
* a difference can be allowed (`ExplainableIff`).

Two failures are given by an input alone: equal state counts where an action is
also asked to be ENABLED (`CountsMislead`; using actions only as steps is
sufficient, and is what the search decides, `SearchIsExact`), and an archive rerun after a
stop behind the manifest (`LateRerunIsRefused`; `ArchiveDay` says when an
undisturbed run succeeds). The bound of six lost requests is reached
(`SixIsReached`).

Times are integers, counters are unbounded naturals, and 64-bit sums wrap
explicitly. Whatever the outside world decides, such as which target accepts or
what other writers do between two accesses, is a parameter.

## Model

| member | source | states |
|---|---|---|
| Actions.ReadsDecide | proofs/check_mutants.py:716-766 | an expression has the same value in two contexts that agree on the parameters and bound names it can reach, on the state if its recorded level is 1 or more, and on the next state if it is 2; so the levels and `_parameters_under` bound what an expression can depend on |
| GuardReader.Reader.Visit | proofs/check_mutants.py:963-1065 | the mutating walk (`found`, `assigns`, `reading`) returns what the recursive reading of the node returns, refuses exactly what it refuses, leaves every remembered action correctly remembered, and adds to the listing exactly the guards of the node and of each action it read for the first time, each once |
| GuardReader.Reader.VisitCall | proofs/check_mutants.py:987-1001 | the same for a call: an action calling itself or given something primed is refused, an action is read once and remembered |
| GuardReader.Reader.VisitAnd | proofs/check_mutants.py:1029-1041 | the same for a conjunction: conditions are listed, and two operands that give one variable are refused |
| GuardReader.Reader.VisitOr | proofs/check_mutants.py:1007-1012 | the same for a disjunction; a disjunct that is no action is refused |
| GuardReader.Reader.VisitIf | proofs/check_mutants.py:1042-1050 | the same for an IF; a branch that is no action is refused |
| GuardReader.Reader.Conditions | proofs/check_mutants.py:948-961 | lists one guard for each leaf of a nested conjunction of conditions, once, and no other |
| GuardFaults.WalkIsExact | proofs/check_mutants.py:963-1065 | the walk stops if and only if it comes to one of its faults: a shape it does not read, a disjunct or branch that is no action, a domain that reads the state or depends on a parameter, a definition that is no action or a fact or given something primed, a call to what is being read, or two conjuncts giving one variable; otherwise it returns exactly the variables it comes to an effect on |
| GuardFaults.VarsAreSpelled | proofs/check_mutants.py:774-798 | UNCHANGED is read if and only if its operand is spelled with variables alone, through tuples and definitions, and then as these variables |
| GuardFaults.FollowsCalls | proofs/check_mutants.py:985-1001 | the actions followed are exactly those of the calls the walk comes to |
| GuardPlaces.LevelMeans | proofs/check_mutants.py:722-724 | a level is reached if and only if some node outside ENABLED and UNCHANGED has it: a variable, a prime, UNCHANGED, ENABLED or a call to a definition of that recorded level |
| GuardPlaces.ParamsMean | proofs/check_mutants.py:747-767 | an expression depends on a parameter if and only if the parameter stands in it, or in a definition it names that has no parameter of that name |
| GuardPlaces.GuardIs | proofs/check_mutants.py:948-961 | a path is a guard's if and only if it leads through actions to a conjunct that reads no next state and on through conjunctions to something that is none |
| GuardReader.OpenMore | proofs/check_mutants.py:992-1001 | an action read with fewer names being read is read the same with more, so remembering its result for later callers is right |
| GuardListing.ListGuards | proofs/check_mutants.py:1082-1118 | refused exactly if the relation primes nothing, the walk comes to a fault, or two guards of one action have the same text; otherwise it holds exactly the guards that stand in the relation or in an action whose call the walk comes to, each once |
| ActionBranches.GivesOnceExactly | proofs/check_mutants.py:974-978 | for every accepted action whose disjunctions have disjuncts: no branch, conditions ignored, gives a variable a value twice if and only if no UNCHANGED it reaches names one twice |
| ActionBranches.RunIsBranch | proofs/check_mutants.py:963-1065 | whatever a left-to-right evaluation gives, in its order, is given along a branch of the action |
| ActionBranches.NoSecondValue | proofs/check_mutants.py:974-978 | what any evaluation of an accepted action gives lies in the set the walk returns, and where no UNCHANGED names a variable twice nothing is given twice |
| ActionBranches.NeverClashes | proofs/check_mutants.py:974-978 | from a progress without the action's variables no effect of an accepted action ever meets a value its variable already has and could differ from, repeated variables or not |
| ActionBranches.RepeatedUnchanged | proofs/check_mutants.py:774-798 | the walk accepts `UNCHANGED <<x, x>>`, and running it gives x twice |
| ActionRuns.RunSound | proofs/check_mutants.py:963-1065 | a step the left-to-right evaluation takes satisfies the action as a relation, in every next state that fits what was filled in |
| ActionRuns.RunComplete | proofs/check_mutants.py:963-1065 | every pair of states in the relation is found by some left-to-right evaluation |
| ActionRuns.RunsAreSteps | proofs/check_mutants.py:963-1065 | for every accepted action the operational reading (a second `x' = e` is a test) and the relation over pairs of states are the same |
| GuardListing.ListingIsComplete | proofs/check_mutants.py:963-1065 | with every listed guard replaced by TRUE the relation has a step from a state if and only if some disjunct, some value of each quantifier and every conjunct find an element in each set a next value is chosen from: the listing misses no guard, however else the actions are used |
| GuardListing.BareSteps | proofs/check_mutants.py:963-1065 | the same for any accepted action whose conditions are all TRUE |
| GuardListing.Strip | proofs/check_mutants.py:1136-1162 | taking all listed guards out of an accepted node leaves one the walk accepts with the same variables, whose conditions are all TRUE |
| GuardListing.StaysAction | proofs/check_mutants.py:716-724 | an accepted action keeps its level without its guards |
| GuardListing.NeverEmptyCan | proofs/check_mutants.py:963-1065 | where no set is empty an accepted action can choose, so without its guards it is enabled in every state |
| GuardListing.EmptyChoiceHasNoRow | proofs/check_mutants.py:1051-1055 | an effect choosing from an empty set is accepted, has no row, and blocks the step |
| GuardListing.DomainIsConstant | proofs/check_mutants.py:1013-1028 | a quantifier domain the walk accepts has one value whatever the state and whatever the callers' parameters are |
| GuardSweep.Unaffected | proofs/check_mutants.py:897-930 | an expression that reaches no changed action keeps its value in every context, ENABLED included |
| GuardSweep.StepSurvives | proofs/check_mutants.py:1136-1162 | any set of guards removed, in an action and in whatever it calls: every step of the accepted action is still a step |
| GuardSweep.RemovalOnlyAdds | proofs/check_mutants.py:1121-1162 | for a specification whose actions are used only as steps, every state reached with the guards is reached without them |
| GuardSweep.SameCountSameStates | proofs/guard_sweep.py:100-109 | for one configuration with finitely many states, equal counts and equal sets of states are the same thing |
| GuardUse.UsedOtherwise | proofs/check_mutants.py:897-946 | the search from body to body, through definitions and through named theorems and assumptions, finds nothing if and only if every reference to a followed action, in whatever the formula comes to name, is one of the calls the walk follows |
| GuardUse.SearchAdmits | proofs/check_mutants.py:897-930 | where it finds nothing, the relation uses every action only as a step and the initial condition comes to none, which is what the sweep rests on |
| GuardUse.SearchIsExact | proofs/check_mutants.py:897-946 | the converse too: where every call resolves, the search finds nothing if and only if the relation uses every action only as a step and the initial condition comes to none, so it refuses no specification the sweep may accept |
| GuardMisuse.CountsMislead | proofs/check_mutants.py:897-930 | the refusal of actions used otherwise is needed: where a relation also asks whether an action is ENABLED, removing its guard loses one state and gains another, and the counts are equal |
| GuardSweep.CountsDecide | proofs/guard_sweep.py:100-109 | the verdict `no new state`, read from per-configuration counts, holds exactly when every configuration reaches the same states with and without the guards |
| ConfigText.ScanPiece | proofs/check_mutants.py:152-188 | scanning forward finds the piece of text at a place: space, comment of either kind with nesting, string, word, `<-` or one character |
| ConfigGrammar.PieceIs | proofs/check_mutants.py:132-190 | exactly one piece stands at each place, and it is the one taken: white space, a comment up to the end of its line, a comment whose nested marks balance, a string up to a quote no backslash takes, a longest word, `<-`, or one character; or a comment or string that never ends |
| ConfigGrammar.CommentEndIs | proofs/check_mutants.py:158-169 | a nested comment ends where the steps over its marks first come to depth zero |
| ConfigGrammar.StringEndIs | proofs/check_mutants.py:170-177 | a string stops at the first quote that no backslash takes |
| ConfigGrammar.WordCharacters | proofs/check_mutants.py:178-183 | the ASCII characters of words, by their codes |
| ConfigText.Blank | proofs/check_mutants.py:144-148 | blanks a range in place and keeps line ends and the length |
| ConfigText.Scan | proofs/check_mutants.py:132-190 | the lexing loop finds the tokens of the recursive reading, with their places, and blanks exactly the characters that lie in comments |
| ConfigRewrite.BlankingKeepsTokens | proofs/check_mutants.py:132-190 | the text with its comments blanked reads as the same tokens in the same places, and has no comment left |
| ConfigRewrite.SameToken | proofs/check_mutants.py:132-190 | a token reads as one token in any text that repeats it and does not run on into it |
| ConfigRewrite.Slice | proofs/check_mutants.py:193-218 | the text from one token to a later one reads as exactly the tokens in between |
| ConfigRewrite.SplitFlatten | proofs/check_mutants.py:193-218 | proper sections, each but the last closed, read back as themselves when joined |
| ConfigRewrite.SplitReadable | proofs/check_mutants.py:193-218 | what the reader splits off is such a list of sections, and joined again it is all the tokens |
| ConfigGrammar.SectionsStart | proofs/check_mutants.py:193-218 | the sections start at exactly the keywords that stand outside every bracket and are not the value after `=` or `<-`, and together are all the tokens |
| ConfigGrammar.DepthIs | proofs/check_mutants.py:203-207 | the bracket depth is the number of opening less that of closing brackets of all three kinds |
| ConfigClaims.CutTokens | proofs/check_mutants.py:193-218 | the loop over tokens with a bracket depth cuts the sections the recursive reading cuts |
| ConfigClaims.ReadSections | proofs/check_mutants.py:193-218 | reading a configuration text gives its sections, or fails exactly when it does not lex, has no token, or does not start with a keyword |
| ConfigClaims.SectionsRead | proofs/check_mutants.py:193-218 | the written form kept for each section reads as that section's keyword and body |
| ConfigClaims.RewriteReadsBack | proofs/check_mutants.py:231-264 | a rewritten configuration reads back as the same other sections, in order, and the one claim |
| ConfigClaims.RewriteRefused | proofs/check_mutants.py:231-264 | a configuration whose last kept section has an open bracket or ends on `=` or `<-` is refused, because the claim would be read as part of it |
| ConfigClaims.RewritingIsExact | proofs/check_mutants.py:231-264 | for every text: rewriting succeeds if and only if the text has sections and the last one is a claim or is closed, and then it reads back exactly |
| ConfigClaims.NothingToRead | proofs/check_mutants.py:193-218 | a text that lexes has no token exactly if nothing but white space is left once comments are blanked, and then it can neither be read nor rewritten (`zip` of no heads with one end raises ValueError) |
| ConfigClaims.EmptyTextFails | proofs/check_mutants.py:193-218 | the empty text is one |
| PostgresDrain.RunDurable | clickhouse/ingest_operational_outbox_postgres.py:961-1038 | in every run of enqueues, sweeps, calls with any failures, failed or unseen deletes, crashes, and crashes while writing: a removed row is held by every target as every event derived from it, or as its quarantine row if it raises ValueError, and every row ever offered is queued or removed |
| PostgresDrain.RunGenuine | clickhouse/ingest_operational_outbox_postgres.py:961-1038 | in every run a target holds only events derived from a row once offered, or the quarantine event of one that raises ValueError |
| PostgresDrain.DrainDurable | clickhouse/ingest_operational_outbox_postgres.py:961-1038 | one call keeps that |
| PostgresDrain.WriteDurable | clickhouse/ingest_operational_outbox_postgres.py:471-511 | writing a batch, whichever targets fail and whatever a failing one kept, takes nothing from any target |
| DrainProcess.Normalise | clickhouse/ingest_operational_outbox_postgres.py:1012-1021 | a batch is given up if and only if some row raises something other than ValueError; otherwise its events are exactly those derived from its rows, and the quarantine event of each row that raises ValueError |
| DrainProcess.OutboxDrain.DrainShardOnce | clickhouse/ingest_operational_outbox_postgres.py:961-1038 | the read, write, delete program changes outbox, cursors, counters and targets exactly as the step function does, and ends in exactly the way that what happened says: read, rows, targets asked, delete |
| DrainProcess.OutboxDrain.Write | clickhouse/ingest_operational_outbox_postgres.py:471-511 | the write leaves each target with what it accepted or kept, and reports failure exactly when some target was skipped or refused |
| DrainProcess.OutboxDrain.StepOver | clickhouse/ingest_operational_outbox_postgres.py:993-1031 | a batch not deleted moves the shard's cursor past its last row, or back to the head if it was short |
| DrainProcess.OutboxDrain.Remove | clickhouse/ingest_operational_outbox_postgres.py:933-951 | deletes exactly the rows of the batch |
| DrainProcess.OutboxDrain.Enqueue | src/trusted_router/storage_postgres_operational_analytics_outbox.py:47-53 | an enqueue of a key already queued changes nothing |
| DrainProcess.OutboxDrain.DrainOnce | clickhouse/ingest_operational_outbox_postgres.py:1041-1119 | a sweep resets the breaker and goes through every shard whatever fails; it counts the shards whose call failed, those whose batch was offered and refused by every target, and the writes of the targets that took a batch |
| DrainProcess.OutboxDrain.Sweeps | clickhouse/ingest_operational_outbox_postgres.py:1213-1276 | the process leaves at exactly the first sweep that ends the bound's number in a row in each of which some shard's batch was offered and every target was skipped or refused it, and every other shard was read and empty or refused likewise; otherwise it never leaves |
| DrainOutcomes.OutcomeMeans | clickhouse/ingest_operational_outbox_postgres.py:961-1097 | how a call ended, by what happened in it, both ways: the read failed; nothing was read; a row raised; some target, of those that are still dialled, did not accept, with the number that did; the delete failed; or everything went through |
| DrainOutcomes.RefusalMeans | clickhouse/ingest_operational_outbox_postgres.py:1088-1091 | all targets are said to have refused if and only if a batch was read and normalised, there is a target, and each was skipped or refused |
| DrainOutcomes.CountedMeans | clickhouse/ingest_operational_outbox_postgres.py:1078-1109 | what one call adds to each counter of the sweep |
| DrainOutcomes.CallLeaves | clickhouse/ingest_operational_outbox_postgres.py:961-1038 | a call takes out of the table exactly the rows of a batch that was offered, taken by every target and whose delete was not rolled back; other rows keep their payload, and only what is enqueued meanwhile is new |
| DrainOutcomes.CallPlaces | clickhouse/ingest_operational_outbox_postgres.py:985-1031 | where each shard's cursor stands after a call, by how the call went |
| DrainSweep.TallyMeans | clickhouse/ingest_operational_outbox_postgres.py:1059-1119 | what the three counters of a sweep say about the outcomes of its shards |
| DrainSweep.DeadSweep | clickhouse/ingest_operational_outbox_postgres.py:1226-1234 | a sweep counts towards the exit exactly when some shard failed and every shard that did not come up empty was refused by all targets; then no target took any batch |
| DrainSweep.UndeliveredCall | clickhouse/ingest_operational_outbox_postgres.py:993-1031 | a batch some target refused is stepped over, deletes nothing, and reaches every target that accepts |
| DrainSweep.DeliveredCall | clickhouse/ingest_operational_outbox_postgres.py:1008-1038 | a batch every target took leaves the table, nothing else of the shard does whatever arrives meanwhile, and the next call starts at the head |
| DrainSweep.PassHandsEveryRow | clickhouse/ingest_operational_outbox_postgres.py:993-1031 | every row present for the whole of a pass of the cursor is in one of its batches, whatever is enqueued meanwhile |
| DrainSweep.PassReachesHealthy | clickhouse/ingest_operational_outbox_postgres.py:993-1031 | while some target refuses, one pass hands every row queued throughout it over in some batch, and if that batch can be normalised it reaches every target that accepts throughout, whatever the other batches hold |
| DrainSweep.QuietPass | clickhouse/ingest_operational_outbox_postgres.py:993-1031 | iterating the cursor over n unchanging rows in batches of b takes exactly n div b + 1 calls |
| DrainSweep.PassTakes | clickhouse/ingest_operational_outbox_postgres.py:993-1031 | so does every pass the drain makes over an unchanging shard while a target refuses |
| DrainSweep.BatchesLeft | clickhouse/ingest_operational_outbox_postgres.py:1008-1038 | what a delivered batch leaves takes one batch less if it was read from the head, and no more in any case |
| DrainSweep.ShardEmpties | clickhouse/ingest_operational_outbox_postgres.py:961-1119 | once all targets accept, in every run of sweeps, calls on any shards, crashes and enqueues for other shards, ceil(n/b) + 1 calls on a shard of n rows leave it empty, wherever its cursor stood |
| DrainSweep.OtherStep | clickhouse/ingest_operational_outbox_postgres.py:961-1038 | a step that is no call on the shard leaves its rows alone, and its cursor where it was or at the head |
| DrainSweep.CallsOfCounts | clickhouse/ingest_operational_outbox_postgres.py:1073-1080 | the calls of a run on a shard, counted |
| DrainSweep.FanOutWriter.Insert | clickhouse/ingest_operational_outbox_postgres.py:471-511 | the loop over targets with its breaker fails, accepts and counts exactly as the fan-out function says, and keeps each target's consecutive failures |
| DrainSweep.FanOutWriter.BeginSweep | clickhouse/ingest_operational_outbox_postgres.py:463-466 | resets the sweep's failure counts and nothing else |
| DrainSweep.FanOutMeans | clickhouse/ingest_operational_outbox_postgres.py:471-511 | for distinct targets: who is dialled, who accepts, that failure means some target was skipped or refused, and whose counter rises |
| DrainSweep.RefusedAtMostThrice | clickhouse/ingest_operational_outbox_postgres.py:471-511 | within one sweep a target is dialled and refuses at most three times; from then on it is not dialled and every batch is refused, so nothing is deleted |
| DrainSweep.DeadIsDialledThrice | clickhouse/ingest_operational_outbox_postgres.py:471-511 | a target that never accepts is dialled exactly until it has failed three times |
| DrainSweep.HealthyIsDialled | clickhouse/ingest_operational_outbox_postgres.py:471-511 | a target that accepts is dialled for every batch of the sweep |
| Positions.FirstNIs | clickhouse/ingest_operational_outbox_postgres.py:896-931 | the bounded ordered read holds the smallest positions, in order, as many as there are up to the limit |
| OutboxOrder.FirstRowsIs | clickhouse/ingest_outbox.py:140-177 | the bounded read in (commit timestamp, shard, event id) order holds the first rows and no other |
| ShardedDrain.BatchIsPrefix | clickhouse/ingest_outbox.py:140-177 | the merged and truncated batch, restricted to any shard, is a prefix of that shard's live rows |
| ShardedDrain.FlooredReadIsFull | clickhouse/ingest_outbox.py:140-177 | if no live row lies below its floor, the floored batch is the unfloored one, starts with the globally oldest live row, and is empty only if nothing is live |
| ShardedDrain.BatchIs | clickhouse/ingest_outbox.py:140-177 | for every floor that is safe: a row is in the batch if and only if it is live, fewer rows of its shard come before it than a shard may give, and fewer such rows come before it than the limit |
| ShardedDrain.PerShard | clickhouse/ingest_outbox.py:146-146 | what a shard may give is twice its part of the limit, rounded up, and at least one row |
| ShardedDrain.ShortBatch | clickhouse/ingest_outbox.py:143-146 | a batch shorter than the limit leaves out only rows with at least twice their shard's part of the limit before them in their shard |
| ShardedDrain.StepKeepsInv | clickhouse/ingest_outbox.py:179-191 | commits, reads, deletes that succeed, fail or succeed unseen, foreign deletes and crashes all keep every floor at or below its shard's live rows |
| ShardedDrain.FloorsAreSafe | clickhouse/ingest_outbox.py:119-191 | in every run the floored read is the full read and the floor canary never warns |
| ShardedDrain.SpannerOutboxSource.Fetch | clickhouse/ingest_outbox.py:140-177 | the loop over shards with one sort and one cut computes that batch |
| ShardedDrain.SpannerOutboxSource.AdvanceFloors | clickhouse/ingest_outbox.py:179-191 | raises each deleted row's floor to the largest timestamp deleted in its shard |
| ShardedDrain.SpannerOutboxSource.ResetScanFloors | clickhouse/ingest_outbox.py:116-117 | forgets every floor |
| ShardedDrain.RaisedIs | clickhouse/ingest_outbox.py:179-191 | a shard's floor becomes the largest of its old floor and the timestamps deleted in it, and stays unset if there are none |
| WatermarkDrain.StepKeepsInv | clickhouse/ingest_operational_outbox.py:334-422 | with one watermark for all shards, reads that cut through timestamp ties, failed deletes that reset it, head reads and crashes keep it at or below every live row |
| WatermarkDrain.WatermarkIsSafe | clickhouse/ingest_operational_outbox.py:334-422 | in every run whatever answers the read from the watermark answers the full read, an empty answer means an empty outbox, and the first row carries the oldest timestamp |
| WatermarkDrain.SpannerOperationalOutboxSource.Advance | clickhouse/ingest_operational_outbox.py:406-422 | the watermark becomes the larger of the old one and the newest timestamp deleted |
| WatermarkDrain.SpannerOperationalOutboxSource.OldestCommitTs | clickhouse/ingest_operational_outbox.py:451-485 | the head read that seeks each shard from the watermark finds the true oldest live timestamp, or none exactly if nothing is live |
| WatermarkDrain.OutboxHeartbeatPublisher.AfterPass | clickhouse/ingest_operational_outbox.py:941-972 | publishes at most once an interval, with the true head of the snapshot behind it and the last delivery time |
| ClientCounters.MergeHistogram | clickhouse/rollup_client_events.py:143-147 | the bucket loop adds two histograms, keeping every bucket of either |
| ClientCounters.MergeAccumulator | clickhouse/rollup_client_events.py:253-267 | adds two accumulators field by field |
| ClientCounters.ApplyCounter | clickhouse/rollup_client_events.py:180-203 | which of the nine counters rises by which field of the row, for a request row by outcome and fault and for an attempt row by fault; each bucket of both histograms rises by the row's own count for a request row; a row of another level changes nothing |
| ClientCounters.ContributionMeans | clickhouse/rollup_client_events.py:180-203 | the same of what a row adds to an empty accumulator |
| ClientCounters.TotalMeans | clickhouse/rollup_client_events.py:207-217 | every counter and every bucket of an accumulator is the sum of that amount over the rows under its facet |
| ClientCounters.FacetsOnce | clickhouse/rollup_client_events.py:170-177 | a row names each of its facets once, so it never counts twice in one accumulator |
| ClientCounters.FacetsMean | clickhouse/rollup_client_events.py:170-177 | exactly which facets a row falls under |
| ClientCounters.Contribution | clickhouse/rollup_client_events.py:180-203 | what a row adds partitions its requests into successes, faults of the router and exclusions |
| ClientCounters.Total | clickhouse/rollup_client_events.py:180-217 | requests equal successes plus router faults plus exclusions in every tenant and all-traffic accumulator |
| ClientCounters.TenantAccumulators | clickhouse/rollup_client_events.py:207-217 | the nested loops leave exactly the tenants of the rows, for each exactly the facets of its rows, and for each of these the sum of the contributions |
| ClientCounters.FoldRow | clickhouse/rollup_client_events.py:213-216 | folding one row into a tenant's accumulators |
| ClientCounters.TotalIgnoresOrder | clickhouse/rollup_client_events.py:207-217 | an accumulator depends on which rows there are and how often, not on their order |
| ClientCounters.TotalInMore | clickhouse/rollup_client_events.py:409-441 | taking one more tenant in adds that tenant's total |
| ClientCounters.TotalInAll | clickhouse/rollup_client_events.py:409-441 | the tenants together make up the total over all rows |
| ClientRollup.CapTenantRequests | clickhouse/rollup_client_events.py:113-124 | negative counts read as 0; each tenant is allowed its count or a quarter of the total (at least 1), whichever is less; allowed and capped requests add up to the total |
| ClientRollup.Limit | clickhouse/rollup_client_events.py:122-122 | the cap is a quarter of the total, rounded down, but at least one |
| ClientRollup.Normalised | clickhouse/rollup_client_events.py:118-118 | negative counts read as zero and the others as they are |
| ClientRollup.ScaledIs | clickhouse/rollup_client_events.py:220-221 | a value scaled is its share of the allowance rounded down, or itself where there are no requests |
| ClientRollup.ScaleMeans | clickhouse/rollup_client_events.py:224-250 | each counter and each bucket is scaled by itself |
| ClientRollup.AtMostThreeOver | clickhouse/rollup_client_events.py:113-124 | at most three tenants can be over the cap, whatever the traffic |
| ClientRollup.ThreeWayLoss | clickhouse/rollup_client_events.py:220-221 | scaling three parts of a value instead of the value loses at most two, and never gains |
| ClientRollup.WeighedPart | clickhouse/rollup_client_events.py:224-250 | a tenant's scaled accumulator never holds more requests than the tenant had, its outcomes fall short of its requests by at most two, it is unchanged if the tenant is under the cap, and its overall requests are exactly the allowance |
| ClientRollup.FleetSoFar | clickhouse/rollup_client_events.py:376-396 | over any merged tenants the outcomes fall short by at most two per tenant over the cap |
| ClientRollup.FleetRounding | clickhouse/rollup_client_events.py:370-407 | in every fleet row the outcomes fall short of the requests by at most two per tenant over the cap and so by at most six; with nobody over the cap the row is the plain total |
| ClientExtreme.SixIsReached | clickhouse/rollup_client_events.py:370-407 | six are lost by three tenants of five requests each, so no smaller bound holds |
| ClientAggregate.FleetRow | clickhouse/rollup_client_events.py:376-396 | the loop over tenants computes the merged scaled accumulators, the number of contributing tenants, and a capped count that with the row's requests makes the facet's uncapped total |
| ClientAggregate.FleetAllRow | clickhouse/rollup_client_events.py:413-428 | the loop over tenants computes the plain total and the number of contributing tenants |
| ClientAggregate.CapIsAllowance | clickhouse/rollup_client_events.py:370-375 | for the overall facet the cap's own capped count and the allowances make the uncapped total |
| ClientAggregate.Aggregate | clickhouse/rollup_client_events.py:324-441 | for one window: exactly one row for each tenant and facet, each facet of real traffic and each facet of all traffic, and every row says what it should |
| ClientAggregate.RecomputePeriod | clickhouse/rollup_client_events.py:494-524 | grouping the rows once and aggregating each group gives, for every start of the lookback, the rows of that window of the whole input |
| ClientAggregate.RollupOutcomes | clickhouse/rollup_client_events.py:340-441 | in every published row the outcomes account for the requests, exactly except for at most six in a fleet row with somebody over the cap |
| ClientAggregate.QuietFleetIsAll | clickhouse/rollup_client_events.py:367-441 | with no synthetic rows and nobody over the cap a facet's fleet row and all-traffic row have the same counters, histograms, tenants and capped count |
| ClientAggregate.TenantPeriodsNest | clickhouse/rollup_client_events.py:70-88 | a tenant's hour is the field-wise sum of its twelve five-minute periods, its day of its twenty-four hours |
| ClientOrder.RollupsIgnoreOrder | clickhouse/rollup_client_events.py:324-441 | shuffling the input changes no rollup row of any window or scope, nor which rows there are |
| ClientOrder.SameFleet | clickhouse/rollup_client_events.py:370-396 | the capped fleet totals and the contributing tenants do not depend on row order |
| ClientWindows.FloorIs | clickhouse/rollup_client_events.py:70-78 | the calendar floor is the last multiple of the period not after the time |
| ClientWindows.WindowsJoin | clickhouse/rollup_client_events.py:340-348 | two windows end to end hold what the window over both holds |
| ClientWindows.PeriodsNest | clickhouse/rollup_client_events.py:70-88 | an hour of all traffic is the sum of twelve five-minute periods, a day of twenty-four hours |
| ClientWindows.GroupByPeriod | clickhouse/rollup_client_events.py:472-481 | each group is the window that starts at its key, and an aligned window without a group is empty |
| ClientWindows.Starts | clickhouse/rollup_client_events.py:484-491 | exactly the aligned starts from the lookback to now, in order |
| Fingerprints.CombineParts | clickhouse/archive_daily.py:827-839 | combining sums modulo 2^64 (reduced once at the end) and exclusive ors is the fold of the parts |
| Fingerprints.WholeIgnoresOrder | clickhouse/archive_daily.py:781-794 | a fingerprint depends on the rows and how often each occurs, not on their order |
| Fingerprints.PartsMakeWhole | clickhouse/archive_daily.py:381-399 | for every row collection and every part count, splitting by shard hash modulo the count and combining the parts' fingerprints is the fingerprint of the whole |
| Fingerprints.FilesMakeWhole | clickhouse/archive_daily.py:381-399 | files that hold the parts, each in whatever order, combine to the fingerprint of the whole, whose row count is the number of rows; for any number of files, none only if there are no rows |
| Fingerprints.StableDayHasParity | clickhouse/archive_daily.py:870-887 | a day that does not change between fingerprint and export passes the parity check for every part size and every order inside the files, the empty day with no parts at all, and what the parts combine to counts the rows |
| Fingerprints.NoPartsOnlyIfEmpty | clickhouse/archive_daily.py:870-870 | there are no parts exactly when there are no rows |
| Archive.RunOnlyGrows | clickhouse/archive_daily.py:438-471 | whatever any archiver stored, every later state still holds unchanged |
| Archive.AdvanceSound | clickhouse/archive_daily.py:889-939 | one step of one archiver keeps the store and its own progress sound |
| Archive.RunIsSound | clickhouse/archive_daily.py:842-946 | so do all steps of any number of archivers, crashes anywhere included |
| Archive.PointerIsRestorable | clickhouse/archive_daily.py:842-946 | in every run, of any datasets and days, a stored pointer names a stored manifest of its day and fingerprint, whose parts are all stored under that day with the recorded hashes and combine to it |
| Archive.PointerMovesOnlyIfUnmoved | clickhouse/archive_daily.py:480-490 | whatever other archivers do between an archiver's read of the pointer's generation and its write: the write goes through exactly if nobody moved the pointer meanwhile, and otherwise changes nothing |
| Archive.UndisturbedCompletes | clickhouse/archive_daily.py:889-939 | an archiver left alone with no object in its way completes in as many steps as it has files and three more, with all its files, its manifest and the pointer in place |
| Archive.LateRerunIsRefused | clickhouse/archive_daily.py:911-931 | a rerun need not complete: an archiver that stopped after its manifest makes a later one with another export time fail, and the day keeps no pointer |
| RestoreDrill.ObjectStore.PutFileIfAbsent | clickhouse/archive_daily.py:438-462 | create if absent; a file already there must have the same hash |
| RestoreDrill.ObjectStore.PutJsonIfAbsent | clickhouse/archive_daily.py:464-478 | create if absent; a manifest already there must be byte for byte the same |
| RestoreDrill.ObjectStore.PutJsonPointer | clickhouse/archive_daily.py:480-490 | uncontended: with nobody between its read and its write the write goes through; the contended write, which fails, is a step of the concurrent model |
| RestoreDrill.ObjectStore.UploadParts | clickhouse/archive_daily.py:889-909 | succeeds exactly when every part object is absent or the same, and keeps everything stored |
| RestoreDrill.ObjectStore.ArchiveDay | clickhouse/archive_daily.py:842-946 | run alone: refuses a bad part size, an unknown dataset, a wrong number of files and a parity mismatch, skips a published day without touching the store, publishes exactly when no needed object differs, and on failure leaves all pointers and manifests alone |
| RestoreDrill.VerifyArchivedDay | clickhouse/verify_archive_restore.py:84-162 | the drill with its early exits (unknown dataset, keys outside the day, schema version, identity, fingerprints, an empty column list, parts) succeeds exactly on what is restorable, each read seeing its own state of the store, and reports day, rows, parts and revision; without recorded columns it measures over those of today |
| RestoreDrill.DrillAcceptsEveryPointer | clickhouse/verify_archive_restore.py:84-162 | the drill accepts every published pointer, however archivers run, stop and overtake it between its reads, and whatever columns the dataset has by then |
| RestoreDrill.SoundIsRestorable | clickhouse/verify_archive_restore.py:84-162 | a store as `ArchiveDay` leaves it passes the drill for every published day |
| KeyUsage.EffectiveAfter | src/trusted_router/storage_gcp_counter_dml.py:523-533 | after settles in time order a window holds, as the limiter reads it, what it held before if it was current plus the settles in the current window |
| KeyUsage.NullIsNothing | src/trusted_router/storage_gcp_counter_dml.py:515-533 | a NULL usage column counts as zero, whatever is booked later |
| KeyUsage.BookAllByColumn | src/trusted_router/storage_gcp_counter_dml.py:515-533 | booking settles one at a time acts on each column by itself and adds every amount to the lifetime usage |
| KeyUsage.SinceOfMerge | scripts/backfill_leased_key_usage.py:171-175 | the amounts of a merged history are those of its parts |
| KeyUsage.UpdateStandsForHistory | scripts/backfill_leased_key_usage.py:186-208 | one window: the planned statement gives the limiter the same figure as booking each missed settle in time order if and only if the window has not turned since the plan, or nothing was booked in the new window before it ran, or nothing was missed in the planned one |
| KeyUsage.UpdateIsHistory | scripts/backfill_leased_key_usage.py:186-208 | run before any window turns, the statement leaves the same lifetime total and the same effective day, week and month usage |
| KeyUsage.RolledAheadDiffers | scripts/backfill_leased_key_usage.py:186-208 | the row must not have been rolled past the missed settles when the history begins: otherwise late booking and the statement differ |
| KeyUsage.DayAndWeekAreFloors | src/trusted_router/spend_windows.py:110-116 | midnight and Monday midnight are monotone, idempotent and never after their argument |
| KeyUsageLog.ParseLog | scripts/backfill_leased_key_usage.py:65-84 | the loop keeps, for each authorization, the reading defined line by line, and defers exactly those a later line names |
| KeyUsageLog.SettledMeans | scripts/backfill_leased_key_usage.py:65-84 | what is kept for an authorization is one of its won settles with no later one, and it is kept exactly if it has one |
| KeyUsageLog.NamedMeans | scripts/backfill_leased_key_usage.py:65-84 | the time kept for a naming is the latest |
| KeyUsageLog.ReadingIsOrderFree | scripts/backfill_leased_key_usage.py:65-84 | the reading is the same for every order of the lines if and only if each authorization's latest settles agree on the charge |
| KeyUsageLog.SettledStands | scripts/backfill_leased_key_usage.py:65-84 | what is kept for an authorization is a latest settle, and of several the first the log has |
| KeyUsageLog.JudgeMeans | scripts/backfill_leased_key_usage.py:149-169 | from the lines of the log, both ways: a row is booked at its settle's time if a settle stands for it, the row is settled so, no later line names it, the settle is before the bound and its charge is the cost and positive; each reason for leaving it out is the first of these that fails |
| KeyUsageLog.Backfill | scripts/backfill_leased_key_usage.py:211-228 | from log to plan: exactly the keys in which the log calls for a booking, with the sums of these bookings; every row left out with its reason, and every authorization without a row |
| KeyUsageLog.Plan | scripts/backfill_leased_key_usage.py:132-183 | the loop over rows keeps, for exactly the keys with something to book, the lifetime and window sums of the settles that are judged to count, and lists the others |
| KeyUsageLog.PlanIsHistory | scripts/backfill_leased_key_usage.py:132-208 | from log to row: the planned statement of a key stands for booking each admitted settle at its log time |
| PagedScan.Fetch | clickhouse/verify_postgres_delivery.py:174-220 | the paging loop fails exactly if it meets an unsafe id before it stops, returns the in-window rows within both limits, and reports complete if and only if the table fits the scan limit and the window the limit; then it returns precisely the window and every id |
| PagedScan.InWindowIs | clickhouse/verify_postgres_delivery.py:199-201 | the rows of a window are exactly those created at its start or later and before its end |
| PagedScan.PageIsSlice | clickhouse/verify_postgres_delivery.py:45-51 | a keyset page after the first k rows is the next slice of the table |
| PagedScan.Classify | clickhouse/verify_postgres_delivery.py:319-323 | missing and pending split the expected rows that are not stored, by whether they settled before the cutoff |
| PagedScan.Enqueue | clickhouse/repair_postgres_activity.py:75-99 | in chunks, every selected id that still has an entity is enqueued once, in order, and the others are reported, nothing lost or twice; it fails if and only if an entity stores another id, and then exactly the chunks before that one are enqueued |
| PagedScan.EnqueueChunk | clickhouse/repair_postgres_activity.py:84-96 | one transaction enqueues all of its chunk or fails on an entity that stores another id |
| PagedScan.KeptAndLost | clickhouse/repair_postgres_activity.py:84-96 | together they are the selected ids as often as each was, by whether the entity is there |
| PagedScan.KeptAscends | clickhouse/repair_postgres_activity.py:84-96 | and in their order |
| PagedScan.RunSelects | clickhouse/repair_postgres_activity.py:176-179 | a run selects exactly the missing ids after the one key and up to the other, and the keys rise |
| PagedScan.SelectedOnce | clickhouse/repair_postgres_activity.py:176-198 | along a chain of resumed runs no id is selected twice, whatever becomes missing or delivered in between |
| PagedScan.StaysMissingIsSelected | clickhouse/repair_postgres_activity.py:176-198 | an id that stays missing throughout a chain that ran to its end was selected |
| PagedScan.RunsSelectAll | clickhouse/repair_postgres_activity.py:176-179 | over a fixed set the runs select it all, in order, in as few runs as the limit allows |
| ReservationBackfill.StatusCounts | scripts/backfill_reservation_terminal_at.py:77-87 | candidates less excluded rows is the number of rows the batch query can return |
| ReservationBackfill.StatusIs | scripts/backfill_reservation_terminal_at.py:29-46 | what the four counts count: settled rows without a terminal time, settled rows with one, open holds, and the first kind with a pending or dead intent |
| ReservationBackfill.StatusCoversAll | scripts/backfill_reservation_terminal_at.py:97-109 | every row is a candidate, armed or an open hold, and counted once |
| ReservationBackfill.EligibleIs | scripts/backfill_reservation_terminal_at.py:49-57 | a row is eligible exactly if it is settled, has no terminal time, and no pending or dead intent is for its authorization |
| ReservationBackfill.ArmedIs | scripts/backfill_reservation_terminal_at.py:68-75 | the guarded UPDATE sets the terminal time of exactly the eligible rows asked for and changes nothing else |
| ReservationBackfill.ArmingShrinks | scripts/backfill_reservation_terminal_at.py:67-74 | what was armed is eligible no more, and nothing became so |
| ReservationBackfill.Store.ArmStep | scripts/backfill_reservation_terminal_at.py:142-162 | a batch under interference is guarded and counted; alone, it arms all it selected |
| ReservationBackfill.Store.RunBackfill | scripts/backfill_reservation_terminal_at.py:172-246 | however others interleave: every write is guarded and counted, the program ends, it returns 0 after applying if and only if its last look found nothing eligible, and alone it arms exactly what was eligible |
| ReservationBackfill.NoneLeftIsAll | scripts/backfill_reservation_terminal_at.py:172-246 | if only rows eligible at the start were armed and none is left, exactly those were armed |
| SqlCase.CasedIs | scripts/audit_spanner_schema.py:95-104 | exactly these tokens come out in upper case: the dotted path before a parenthesis that names a known function, a keyword standing alone, and a type standing alone after what comes out as AS; all others stay |
| SqlCase.UpperCharIs | scripts/audit_spanner_schema.py:101-104 | upper case moves the 26 small letters by 32 and nothing else |
| SqlCase.DepthCounts | scripts/audit_spanner_schema.py:107-112 | the depth of some tokens is their number of opening less that of closing parentheses |
| SqlTokens.NormaliseTokens | scripts/audit_spanner_schema.py:95-116 | the case pass and the stripping loop compute the normal form |
| SqlTokens.FirstReturn | scripts/audit_spanner_schema.py:107-114 | the scan ends at the last token exactly when the depth returns to zero nowhere earlier |
| SqlTokens.StripUndoesWrap | scripts/audit_spanner_schema.py:105-115 | stripping takes an added pair of parentheses off again if and only if the expression never closes more than it has opened |
| SqlTokens.StrippedIsBare | scripts/audit_spanner_schema.py:105-115 | what is left has no enclosing pair, so stripping twice is stripping once |
| SqlTokens.CasedWrapped | scripts/audit_spanner_schema.py:95-104 | inside an added pair the case pass does what it did without it |
| SqlTokens.CasedDepth | scripts/audit_spanner_schema.py:95-104 | the case pass moves no parenthesis |
| SqlTokens.EnclosingIsNeutral | scripts/audit_spanner_schema.py:82-116 | parentheses around a whole expression leave its normal form alone if and only if the expression never closes more than it has opened |
| SchemaAudit.DifferencesAreUnique | scripts/audit_spanner_schema.py:401-435 | no two differences share object and attribute |
| SchemaAudit.Differences | scripts/audit_spanner_schema.py:401-435 | the loops find exactly the differences, each once |
| SchemaAudit.UnreadyStates | scripts/audit_spanner_schema.py:405-413 | the unready states of one production object, with the primary-key pseudo-index excepted |
| SchemaAudit.Compare | scripts/audit_spanner_schema.py:414-429 | the difference of one object in presence or in compared attributes; a missing attribute reads as null, states and a column's position are not compared |
| SchemaAudit.NoDifferenceIsAgreement | scripts/audit_spanner_schema.py:393-435 | there is no difference if and only if the schemas are equal after normalisation and every production object is ready |
| SchemaAudit.EnclosedSpellingAgrees | scripts/audit_spanner_schema.py:393-398 | two spellings that differ by an enclosing pair make no difference in an expression attribute, and do in any other |
| SchemaAudit.CheckEntries | scripts/audit_spanner_schema.py:443-456 | accepts exactly the lists whose entries have an attribute and a reason that are not all white space, distinct identities and two different sides |
| SchemaAudit.ApplyAllowlist | scripts/audit_spanner_schema.py:443-470 | exit 0 if and only if every difference has an entry that matches it exactly and every entry a difference; unexplained and stale are exactly the rest |
| SchemaAudit.PassingPairsOff | scripts/audit_spanner_schema.py:443-470 | a passing allowlist pairs entries and differences off one to one |
| SchemaAudit.ExplainableIff | scripts/audit_spanner_schema.py:443-470 | some allowlist passes a list of differences if and only if the two sides of each differ; an object not ready in the same state on both sides can never be allowed |

## Left out

- Front end and model checker: the TLA+ parser, its XML, the columns of guard spans and the order of the listing, and the shape comparison of a mutated specification; the model starts from an abstract syntax tree and takes sets of reached states as given.
- Definitions that call themselves: no call to a name being evaluated has a value; the walk refuses recursive actions, and a recursive operator in a value reads as FALSE.
- ListingIsComplete: asks that values and the conditions of an IF read the current state only; an effect value that reads a primed variable set earlier in the step is not covered.
- SearchAdmits: the state constraint of a configuration is not read by the search, so that it names no followed action stays a premise of the sweep.
- ScanPiece: letters and digits beyond ASCII do not count as parts of words, where the source goes by the Unicode categories; white space is complete.
- The other checks made on configurations and survivor tables.
- RewriteReadsBack: the new claim's name is one word that is no keyword, as the claims of these configurations are.
- The fan-out drain: a position stands for (event_kind, event_id); retries inside one database operation, the bare writer used for a single target, lag metrics, the degraded-target list, the counts of rows fetched, inserted and quarantined, and systemd messages are not modelled; the targets and the normaliser are fixed for a run.
- Payload normalisation field by field: a row yields at least one event, raises ValueError, or raises something else.
- The Spanner drains: transactions and snapshots are steps of an abstract table; a row that commits after a strong snapshot carries a later timestamp than every row shown.
- AfterPass: what clock and transport do is a parameter, and so is whether the heartbeat insert succeeds.
- The rollup: coverage counts, identifiers and rendering of rows; JSON values are already typed, whether a row is a router fault is a field of it, and facets and tenants are taken in any order where the source sorts them.
- The archive: hash functions (a file stands for its own SHA-256 and fingerprints are compared as fingerprints), object-store clients, the byte size of a part, malformed JSON and keys of other shapes, deletions by anyone, and the rounding of `math.ceil(rows / rows_per_part)` beyond 2^53 rows.
- The pointer's compare-and-set guards only its own read-then-write: nothing is said about pointers never moving back to an older fingerprint.
- The usage backfill: log regular expressions, the number of settles per entry, BYOK settles; months are any monotone, idempotent floor not after its argument.
- UpdateIsHistory: asks that the row was not rolled past the settles when the history begins (`RolledAheadDiffers` shows why) and that the log's settles are not in the future.
- The delivery check: field comparison, duplicates, the extra rows of the analytics store and the privilege check; an identifier is its place in text order and the empty string is none.
- PagedScan.Fetch: the table does not change during one scan.
- The reservation backfill: the count of pinned gateway authorizations, printing, and the number of empty selections before it gives up.
- RunBackfill: the other writers are a finite list of arbitrary changes, one before each access; with infinitely many it need not end.
- The schema audit: reading and validating metadata, tokenising (a text that does not tokenise ends the audit before any comparison), sorting and formatting of the report, and Python's equality of True and 1.
