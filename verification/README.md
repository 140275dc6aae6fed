# SentinelHost: a verified model

SentinelHost runs several malware scanners over a hosting account, merges their reports into one
weighted verdict per file and content, and may move a confirmed file into a reversible vault. This
project models the parts on which its promises rest and proves those promises with Dafny.

`dafny verify dfyconfig.toml` checks everything. There is one module per file. No lemma depends on
Dafny's automatic induction: `--manual-lemma-induction` gives the same result.

## What the model covers

* **Vault** (`Vault.dfy`, `VaultSafety.dfy`). Quarantine, restore and purge, call by call, over a
  disk (names, inodes, bytes), the vault's copies and the record table. Every call has a *fate*: it
  works, fails (before or after having taken effect), writes wrong bytes, or the process dies in it.
  A class performs the calls in the order of the source and is proved equal to a function of the
  old state; the theorems are about that function and about whole runs, in which others change the
  site at will between operations.
* **Consensus and action** (`Verdicts.dfy`, `Consolidation.dfy`, `Reach.dfy`, `Acting.dfy`,
  `Schema.dfy`). From reports to votes, scores, levels and actions, and what must hold before a
  file is moved without being asked. Maps are iterated in an arbitrary order; floating-point
  numbers are reals.
* **Coverage** (`Coverage.dfy`). Batching, shielding and merging: an engine that did not look at
  everything abstains. An adapter may do anything at all.
* **Baseline** (`Baseline.dfy`, `BaselineRuns.dfy`). The incremental cycle, with the in-place
  compaction of `HashEntries` on a real array, and what is remembered over runs of cycles.
* **Paths and searches** (`PathMatch.dfy`, `Walk.dfy`, `OwnData.dfy`, `WordPressSearch.dfy`). The `**`
  matcher, the pruning walker, the exclusion of the program's own data from the configured text to
  the name that is walked, and the bounded breadth-first search.
* **Whole cycles** (`WholeCycle.dfy`). The action loop on the vault itself, and the baseline's save
  rule on the reports themselves: what the other modules guarantee, composed.
* **Time** (`Calendar.dfy`, `Decimal.dfy`, `Timestamps.dfy`, `Cron.dfy`, `CronOverflow.dfy`,
  `Delivery.dfy`, `DeliveryRuns.dfy`). Timestamps are stored as text in the format of section 5.6 of RFC 3339 and
  compared as text, as section 5.1 describes; retention and retries rest on that order. The calendar
  is modelled down to leap years.
* `Optional.dfy`, `Text.dfy`, `Paths.dfy` and `Ordering.dfy` hold what the others share: absent values,
  byte order of strings, splitting, trimming, cleaning of paths, and sorting by a strict order.

## Where a stronger claim is false

Each of these is a property the code or its comments suggest. The model keeps the code as it is; a
lemma gives the failing case, or the exact condition under which the property holds, or both.

* *Text order is clock order.* The zero time is stored as the empty text and so sorts before the
  year 0000, which is earlier: `Timestamps.StoredOrder` (exact). The migration's order needs no
  condition: `Timestamps.MigratedOrder`.
* *A cron field's list stays in range, and a schedule matches what is written.* A step near the
  largest 64-bit integer wraps around and leaves negative values, and sometimes unwritten ones in
  range: `CronOverflow.HugeStepLeavesRange` (the field `*/9223372036854775807`), `Cron.FieldMeaning`
  (exact). A list that the overflow has made as long as a complete one counts as complete:
  `CronOverflow.UnwrittenDaysMatch` (the days `1-29,*/9223372036854775807` match every 30th and
  31st), `Cron.ExpressionMeaning` (exact).
* *A changed file is always offered to the engines.* One that cannot be read, and one that a cycle
  was cancelled before it hashed, keeps its old hash with its new size and time, counts as unchanged,
  and is then forgotten: `BaselineRuns.IncrementalAgrees` (exact, wherever the hashing is cut short),
  `BaselineRuns.OverlookedStaysOverlooked`, `BaselineRuns.CancelledCycleForgets` (the cycle that
  stores it). The baseline is stored after any vote, and with no targets every engine whose probe
  succeeds votes: `WholeCycle.EmptyListVotes`. What stands in the way after a cancellation is the
  probes: those of the four shipped adapters all fail once the context is done, because
  `internal/exec/exec.go:109-175` kills the command that three of them run and the search of the
  fourth stops at its first directory (`internal/adapter/wpchecksums/detect.go:262-268`). An adapter whose
  probe ignores the context would store it. For the same reason a new file that was not hashed stays
  a target: `BaselineRuns.QuietSecondCycle` and `BaselineRuns.QuietAfterFull` (exact).
* *A full scan names each target once, and every known file.* `HashEntries` compacts the very slice
  that is walked next, and overlapping roots list a file twice: `BaselineRuns.FullTargetsUnrepeated`
  (exact). A known file that could not be read is left out if the compaction has written over its
  place, and offered if not: `BaselineRuns.FullTargetsExactly` (exact).
* *Restore overwrites nothing.* The exclusive create fails on whatever occupies the path, and the
  clean-up of the failed copy removes it, unless a check has stopped the restore before:
  `VaultSafety.RestoreOverwritesExactly` (exact, under every fate). The Stat misses what it cannot
  answer about, and a symbolic link that leads nowhere: `VaultSafety.SeenIsSparedExactly` (exact),
  `VaultSafety.DanglingLinkRemoved`.
* *A failed quarantine loses nothing.* True for fresh references; on a vault path that is taken, the
  clean-up removes the other's copy: `VaultSafety.FreshnessExactly` (exact). And true unless the
  removal of the original takes effect and reports failure all the same: the record is then closed
  and the only copy removed. `VaultSafety.QuarantineNeverLoses` (exact, one call),
  `VaultSafety.ConservationExactly` (exact, whole runs), `VaultSafety.FalseReportLoses` (the case).
* *The program never walks its own data.* The glob is derived from the text in the configuration,
  which is neither cleaned nor made absolute unless it starts with `~`, while the walker meets the
  directory under its absolute, clean name; and the glob is a pattern, so that a name with pattern
  characters need not match it. `OwnData.OwnDataExactly` (exact, for whatever name the walker meets),
  `OwnData.OwnTextDecides` (exact, by the text alone: absolute, with no empty, `.` or `..` element but
  for leading separators and one trailing one), `OwnData.DoubledSeparatorIsWalked` (`/h//s`),
  `OwnData.RelativeIsWalked` (`s` and `./s`). Each directory stands for itself: the default vault
  directory below `/h//s` is joined, hence clean, and stays unwalked, while the rest is walked.
* *A merged report's findings carry its engine's name.* They keep the name the adapter gave them:
  `Coverage.LabelsExactly` (exact). Two names are what two votes rest on, so action safety is stated
  for adapters that label their own findings.
* *Two engines must agree.* A property of the weights: `Verdicts.TwoEnginesExactly` (exact),
  `Verdicts.DefaultsNeedTwo`.
* *At most five delivery attempts in total.* Five are recorded; a request whose record is lost is
  sent again: `DeliveryRuns.LostRecordsRepeat` (any number of requests), `DeliveryRuns.SendsAreBounded`.
* *A pending delivery is resumed in the next cycle.* Only the fifty oldest are read, and e-mails left
  pending are read but skipped: `DeliveryRuns.ListedExactly` (exact), `DeliveryRuns.MailStarvesRetries`.
* *Recording a mail touches its own delivery.* Its insert's error is ignored, and the update that
  follows goes by id: `DeliveryRuns.MailFreshExactly` (exact).

Where code and documentation disagree, the model follows the code. The webhook contract
(`specs/001-orquestrador-mvp/contracts/webhooks.md`, lines 42-44) lists delays of 1, 4, 16, 64 and
256 seconds with jitter; the code never waits 256 seconds, because no retry follows the fifth
attempt, and has no jitter. The crontab page of POSIX.1-2017 lets month restrict together with day
of month; the code always requires the month.

## Hypotheses

* Others may change the site between two operations of the vault in any way, but not a path during
  one; they do not write the vault's copies or records. Vault paths and site paths are different
  places. References are fresh, where a theorem says so.
* A digest stands for its content: different contents have different digests, and no digest is empty.
* Conservation is about files whose removal took effect and whose record is still active. A removal
  that takes effect, reports failure and makes the program give up the record or the copy breaks it;
  theorems that need its absence say so, and it is exactly what they need.
* Baseline theorems about content assume that equal size and time mean equal content since the
  baseline was taken, and that a file listed twice, by overlapping roots, has the same size, time
  and permissions both times.
* Clocks of the delivery machine read later than the zero time and earlier than the last minute or
  so of the year 9999. The delivery process is alone; a payload is readable as enqueued or not at all.

## Model

| member | source | states |
|---|---|---|
| Vault.Process.QuarantineFile | internal/quarantine/vault.go:100-235 | the calls of a quarantine in their order (re-hash, stat, refusals, copy, verify, record, remove), each with its error exit and its death, leave exactly the state and outcome of the specification |
| Vault.Process.RestoreItem | internal/quarantine/vault.go:238-302 | the same for a restore: verify the copy, refuse an occupied path, copy out, set mode and time, close the record, drop the copy |
| Vault.Process.PurgeItem | internal/quarantine/vault.go:308-333 | the same for a purge, forced or guarded by the retention column; a copy that cannot be removed is an error |
| Vault.PermsRoundTrip | internal/quarantine/vault.go:452-458 | printing a mode as octal text and reading it back gives its nine permission bits, for every mode |
| VaultSafety.QuarantineKeeps | internal/quarantine/vault.go:160-234 | whatever fails and wherever it dies, a quarantine under a fresh reference that is not betrayed by a false report of its removal keeps every moved file's bytes, hash, path, mode and time intact under its active record |
| VaultSafety.QuarantineNeverLoses | internal/quarantine/vault.go:100-235 | at every stopping point the file is as it was, or it is moved with an intact copy, an active record and no name left for its inode, if and only if no removal takes effect, reports failure and is given up; success means moved; nothing else differs |
| VaultSafety.FalseReportLoses | internal/quarantine/vault.go:225-232 | where a quarantine would have succeeded, a removal that works and reports failure leaves neither file nor copy, and a record marked purged |
| VaultSafety.OnlyExpectedMoves | internal/quarantine/vault.go:101-120 | with an expected digest, the bytes moved are the bytes of that digest and no others, from the path asked for |
| VaultSafety.QuarantineSucceedsExactly | internal/quarantine/vault.go:100-235 | with every call working, a quarantine succeeds if and only if the file is plain and has no other name, its digest is the expected one, its path can be expressed and, once cleaned, lies within some root if there are roots, and reference and vault path are free |
| VaultSafety.OnlyWithinRoots | internal/quarantine/vault.go:122-135 | under every fate, a file is moved only if there are no roots, or the clean elements of some root start those of its path |
| Paths.WithinMeans | internal/adapter/pathsafety.go:58-77 | the text comparison after cleaning holds if and only if the clean elements of the root start those of the path, both absolute or both relative; `.` contains only itself |
| VaultSafety.FreshnessExactly | internal/quarantine/vault.go:173-183 | a request keeps the moved bytes under every fate that does not betray it if and only if its vault path is not that of a moved, active record |
| VaultSafety.RestoreKeeps | internal/quarantine/vault.go:238-302 | every restore, wherever it fails or dies, keeps the invariant |
| VaultSafety.RestoreGivesBack | internal/quarantine/vault.go:277-301 | a record that a restore closes has its recorded bytes back at the original path |
| VaultSafety.RestoreSucceedsExactly | internal/quarantine/vault.go:238-302 | in any reachable state a restore whose calls work succeeds if and only if the original path is free, and gives back path, bytes, nine permission bits and time |
| VaultSafety.QuarantineThenRestore | internal/quarantine/vault.go:100-302 | quarantine followed by restore is the identity on path, bytes, nine permission bits and time |
| VaultSafety.RestoreOverwritesExactly | internal/quarantine/vault.go:238-276 | for any name at the original path and under every fate: it survives a restore if and only if a check stops the restore, or it dies in the copy, or the clean-up has no effect; a file that the Stat sees stops it with nothing changed |
| VaultSafety.SeenIsSparedExactly | internal/quarantine/vault.go:258-276 | with an intact copy and every other call working, a name at the path survives if and only if the Stat works and finds something there |
| VaultSafety.DanglingLinkRemoved | internal/quarantine/vault.go:258-271 | with every call working, a restore removes a link at its path that leads nowhere, and fails |
| VaultSafety.PurgeKeeps | internal/quarantine/vault.go:308-333 | every purge, wherever it fails or dies, keeps the invariant |
| VaultSafety.PurgeSucceedsExactly | internal/quarantine/vault.go:304-333 | with every call working, a purge succeeds if and only if the record is active and it is forced or past its retention instant |
| VaultSafety.NoRunLosesBytes | internal/quarantine/vault.go:100-354 | after any run of operations, with any failures and deaths and any changes by others between them, short of a betraying report, every removed file whose record is active is intact in the vault, and restoring it succeeds when its path is free |
| VaultSafety.ConservationExactly | internal/quarantine/vault.go:100-354 | every step of a run keeps the invariant and every quarantine in it keeps or safely moves its file, if and only if no quarantine in it is betrayed |
| VaultSafety.NewlyMovedAnswer | internal/quarantine/vault.go:100-235 | after any run of quarantines, with failures, deaths and changes by others, whatever the run has moved is under an active record |
| VaultSafety.StepAdvances | internal/store/quarantine.go:54-190 | no operation drops or reopens a record, or changes what an active record says |
| VaultSafety.PurgedOnlyWhenAllowed | internal/store/quarantine.go:154-190 | a moved record is purged only by force or by a clock past its retention instant |
| VaultSafety.RetentionHolds | internal/store/quarantine.go:117-190 | after a run without forced purges a moved record is active with its copy intact, or restored by a restore after which its very bytes stood at their path, or purged by a purge whose clock had passed its retention instant; never purged without one |
| VaultSafety.PurgeExpired | internal/quarantine/vault.go:335-354 | each expired record is purged unforced in turn, failures do not stop the loop and only a death does, and the number returned is that of the purges that succeeded |
| VaultSafety.SmoothPurgesAll | internal/quarantine/vault.go:335-354 | when every call works, all expired records are purged, and counted |
| Verdicts.CollectBest | internal/verdict/verdict.go:212-236 | the map holds, per engine with a positive weight, the vote of the first of its strongest findings |
| Verdicts.ListValues | internal/verdict/verdict.go:238-241 | ranging over the map in an arbitrary order lists each engine's vote once |
| Verdicts.BuildVotes | internal/verdict/verdict.go:212-251 | the result is the ballot: one best vote per engine, strictly sorted |
| Verdicts.BallotUnique | internal/verdict/verdict.go:207-251 | the findings determine the ballot, so map iteration order cannot show |
| Verdicts.SharesUnordered | internal/verdict/verdict.go:207-251 | reordering or repeating findings leaves the strictly ordered list of engines and effective weights unchanged |
| Verdicts.SumGrows | internal/verdict/verdict.go:134-137 | a ballot that matches every vote of another with one at least as strong has at least its sum |
| Verdicts.ScoreGrows | internal/verdict/verdict.go:268-300 | the saturating score and the level thresholds are monotone in the sum |
| Verdicts.BallotsGrow | internal/verdict/verdict.go:207-300 | adding findings never lowers the score or the level's rank |
| Verdicts.TwoEnginesExactly | internal/verdict/verdict.go:268-300 | a confirmed level always takes two engines, for any number of findings, if and only if no engine's strongest vote alone reaches the threshold |
| Verdicts.DefaultsNeedTwo | internal/config/defaults.go:93-120 | the default weights and thresholds are such weights |
| Consolidation.CollectAbstentions | internal/verdict/verdict.go:303-326 | the abstentions listed are those of reports that abstain and of expected engines with no report |
| Consolidation.CollectOfficial | internal/verdict/verdict.go:333-344 | the contents vouched for are those of completed reports only |
| Consolidation.GroupBySha | internal/verdict/verdict.go:347-369 | each group holds exactly the malware findings of non-abstaining reports about its non-empty hash, in order |
| Consolidation.DistinctPaths | internal/verdict/verdict.go:375-387 | the paths named, each once, sorted, none empty |
| Consolidation.ConsolidateFile | internal/verdict/verdict.go:123-205 | one verdict: the ballot's score and level, then veto, reachability and whitelist in that precedence |
| Consolidation.ConsolidateContent | internal/verdict/verdict.go:106-113 | one verdict for every path of a content, and none else, in path order |
| Consolidation.Consolidate | internal/verdict/verdict.go:71-120 | exactly one verdict per named (hash, path), sorted by hash then path, and the abstentions; nothing lost, nothing invented |
| Consolidation.SameEvidenceSameDecisions | internal/verdict/verdict.go:71-120 | two consolidations of the same evidence agree on every hash, path, share list, score, level, action, location and rule, in the same order |
| Consolidation.ReorderedEvidence | internal/verdict/verdict.go:71-120 | reordering the reports leaves the evidence unchanged |
| Consolidation.ReorderedFindingsEvidence | internal/verdict/verdict.go:347-369 | so does reordering or repeating findings inside reports |
| Consolidation.AbstentionsAreNeutral | internal/schema/report.go:100-105 | deleting every abstaining report leaves the evidence unchanged |
| Consolidation.MoreEvidenceNeverLowers | internal/verdict/verdict.go:71-300 | more findings, with no new content vouched for, keep every verdict and never lower its score or level |
| Consolidation.SameContentSameVotes | internal/verdict/verdict.go:92-113 | all verdicts of one hash carry the same vote list, score and level |
| Consolidation.OneVerdictEach | internal/verdict/verdict.go:92-113 | no (hash, path) has two verdicts |
| Reach.UnreachableMeans | internal/reach/reach.go:101-178 | from the directories as configured and the working directory: a path is unreachable if and only if it is in a trash, by place or by name, or document roots are known and none is an ancestor of it, all by whole elements of the absolute, clean paths |
| Reach.FewerRootsFewerReachable | internal/reach/reach.go:131-149 | removing some document roots never makes an unreachable path reachable |
| Text.UnderIsByElement | internal/reach/reach.go:168-178 | the string test for "under" is the prefix relation on path elements |
| Acting.UndecidedMeans | internal/verdict/verdict.go:138-205 | a confirmed verdict is left undecided if and only if no veto, whitelist rule or unreachable path applies |
| Acting.ConfirmedHasTwo | internal/verdict/verdict.go:268-300 | under such weights a confirmed verdict has votes of two different engines |
| Acting.ActionSafety | internal/cycle/persist.go:130-172 | the vault is called only if two distinct engines, with completed reports over all targets, flagged that hash, nobody vouched for it, no whitelist pattern matches (for a path with a name in it and a glob whose empty pattern matches the empty name only), the path is not unreachable, and neither observation, grace period nor dry run applies |
| WholeCycle.ActOnVault | internal/cycle/persist.go:136-213 | the action loop on the vault: the vault is called for exactly the verdicts it may act on, in turn, up to the first call in which the process dies, and ends as those calls leave it; each verdict passed ends as the vault answered it; whatever is moved is the file at the path of such a verdict with the content whose digest was judged, for all that others do to the site between the calls; if those calls are fresh and unbetrayed, the vault's invariant holds and whatever they moved is active, intact, and restored when its path is free |
| WholeCycle.CycleOnVault | internal/cycle/cycle.go:211-233 | engines, consolidation and the vault in sequence: the consolidated verdicts are acted on as said, every call of the vault is justified, and every file moved held bytes that two distinct engines flagged, under everything else action safety requires |
| WholeCycle.FreshDrawsSuffice | internal/quarantine/vault.go:137-183 | when no draw takes the vault path of an active record or of another draw, and in none a removal that worked reports failure and is given up, all the calls of a cycle are fresh and unbetrayed |
| Schema.FailedReport | internal/schema/report.go:115-138 | a failed report abstains whatever status it was given, with no findings and no clean hashes |
| Coverage.SafeScanAndParse | internal/adapter/safe.go:44-110 | for every adapter behaviour a report results; it counts as a vote only if the call completed, parsed and satisfied the schema |
| Coverage.EachBatch | internal/exec/batch.go:45-63 | the batches are non-empty, within the size, and concatenate to the items if the context let all of them be given; otherwise to a proper prefix, cut where the context was first done, before a batch or in a pause |
| Coverage.RunEngineBatches | internal/cycle/cycle.go:509-566 | one report per batch given, and a killed one more when cancelled, which happens only to an engine that is given batches and only where the context was done |
| Coverage.MergeReports | internal/cycle/persist.go:21-90 | the merge has the worst status, everything concatenated in order if that is completed, and nothing otherwise |
| Coverage.MergedStatusUnordered | internal/cycle/persist.go:92-105 | the merged status depends on which statuses occur, not on their order |
| Coverage.VoteMeansFullCoverage | internal/cycle/cycle.go:501-566 | a merged report that counts as a vote means that the batches are the target list exactly and every call in it completed, parsed and validated; and conversely |
| Coverage.LabelsExactly | internal/cycle/persist.go:21-90 | all findings of a merged vote carry its engine's name if and only if every partial report with findings did |
| Coverage.FindingsCarryTheirEngine | internal/schema/validate.go:148-190 | under adapters that use their own slug or none, every merged finding is valid and carries its report's engine |
| Coverage.RunEngines | internal/cycle/cycle.go:423-499 | each available engine leaves exactly one report, in order, from a run and its merge or from an empty list, and each engine an outcome; "some engine voted" is "some report does not abstain" |
| WholeCycle.EmptyListVotes | internal/cycle/cycle.go:453-471 | no vote without an engine whose probe succeeds, and over an empty target list there is a vote if and only if there is such an engine |
| Baseline.HashEntries | internal/baseline/walk.go:253-275 | the array's front becomes the hashed readable entries, what lies behind stays as it was, and the counts add up |
| Baseline.Baseline.NeedsHash | internal/baseline/baseline.go:147-160 | a fresh array of exactly the entries that are unknown, changed in size or time, or without a hash |
| Baseline.Baseline.Compare | internal/baseline/baseline.go:112-145 | the targets are the new then the modified entries, in order; every entry is counted once; removed is what was not seen |
| Baseline.Baseline.Update | internal/baseline/baseline.go:162-182 | the files become the entries with a hash, the old hash under new metadata for those without, less the removed |
| Baseline.CollectTargets | internal/cycle/cycle.go:373-420 | both modes as the slices are shared: what full mode merges is the compacted list |
| Baseline.Merge | internal/cycle/cycle.go:383-400 | each walked entry gets its fresh hash, else its remembered one, else none |
| BaselineRuns.CollectAccounted | internal/cycle/cycle.go:373-416 | no empty hash is ever stored, and every stored pair was stored before or is a target now |
| BaselineRuns.Provenance | internal/cycle/cycle.go:235-262 | over any run of cycles, a stored (path, hash) was a target with that hash in an earlier cycle in which an engine voted |
| WholeCycle.StoredWasLookedAt | internal/cycle/cycle.go:249-262 | with each vote tied to the reports over that cycle's targets, a stored (path, hash) was among targets of which some engine was given every one in successful calls |
| BaselineRuns.NoVoteNoAdvance | internal/cycle/cycle.go:249-262 | a cycle in which no engine voted leaves the stored baseline, and the targets of the next cycle, as if it had not been |
| BaselineRuns.IncrementalAgrees | internal/baseline/baseline.go:112-160 | wherever the hashing is cut short, the incremental targets are those of hashing every file if and only if no known file with changed content is left unhashed, being unreadable or not reached |
| BaselineRuns.UncutHashes | internal/baseline/walk.go:258-275 | when nothing cuts it short, a file is hashed if and only if it is new or changed in size or time, or without a hash, and can be read |
| BaselineRuns.QuietSecondCycle | internal/cycle/cycle.go:373-412 | after a stored incremental cycle, cancelled or not, a second one over an unchanged disk has no targets if and only if the first hashed every file that was unknown |
| BaselineRuns.QuietAfterFull | internal/cycle/cycle.go:373-416 | the same after a full cycle, for all that its compaction overwrites |
| BaselineRuns.OverlookedStaysOverlooked | internal/baseline/baseline.go:162-182 | a change that was not hashed is not offered, and not looked at again even when it can be read |
| BaselineRuns.CancelledCycleForgets | internal/cycle/cycle.go:249-250 | after any run, a stored incremental cycle that did not hash a changed file has not offered it and has a baseline that no longer sees the change |
| BaselineRuns.FullTargetsExactly | internal/cycle/cycle.go:373-409 | wherever the hashing is cut short, full mode offers a path if and only if it hashed it, or knows a hash for it and an entry of it stands behind what the compaction has written |
| BaselineRuns.FullTargetsUnrepeated | internal/baseline/walk.go:258-275 | full mode names no target twice if and only if no unreadable file precedes a readable one and no path that is offered was walked twice |
| PathMatch.MatchMeaning | internal/pathmatch/pathmatch.go:73-102 | the search succeeds if and only if the path can be cut into one run per segment, any run for `**`, one matching segment for the others |
| PathMatch.TrailingAny | internal/pathmatch/pathmatch.go:73-102 | a pattern with `**` appended matches a path if and only if the pattern matches some prefix of it |
| PathMatch.AnyCoversBelow | internal/pathmatch/pathmatch.go:73-102 | a pattern ending in `**` that matches a path matches everything below it |
| PathMatch.PlainMatchesItself | internal/pathmatch/pathmatch.go:73-102 | segments that match themselves make a pattern that matches its own path |
| PathMatch.WhichMatches | internal/pathmatch/pathmatch.go:60-67 | the first matching pattern, or the empty text when none matches |
| Walk.Walker.Visit | internal/baseline/walk.go:125-218 | the callback's recursion meets exactly the names of the tree, in order and with the verdict due to each, up to the file that hits the limit; entries, every skip counter, the number considered and the links reported are those of the names met |
| Walk.NothingSilent | internal/baseline/walk.go:125-218 | the names met are as many as the entries and the counted skips together |
| Walk.WalkRoot | internal/baseline/walk.go:113-224 | the entries are the root's admissible files, all of them or cut at the limit and then reported as truncated, with the counters of what was met; every link to an uncovered directory is counted and up to twenty of them are named |
| Walk.NeverReturnedExactly | internal/baseline/walk.go:142-155 | no walk from a root outside a directory returns anything at or under it if and only if the exclusion list matches the directory itself |
| OwnData.ExcludeOwnData | internal/config/load.go:145-165 | the list grows by one glob per directory that is not covered yet |
| OwnData.OwnGlobMatches | internal/config/load.go:159-163 | the glob written for a directory matches every path that starts with the directory's elements, when these match themselves |
| OwnData.OwnDataExactly | internal/config/load.go:138-165 | after the exclusion is added, the directory is never walked under a given name if and only if the user's list matches that name, or the glob was written and matches it |
| OwnData.OwnNameExactly | internal/config/load.go:71-101 | with no list of the user's and no pattern characters: the directory is never walked if and only if the elements of its text start the absolute, clean name it resolves to |
| OwnData.OwnTextDecides | internal/config/load.go:71-101 | under the same hypotheses, the directory is never walked wherever the program is started, if and only if its text is absolute and has no empty, `.` or `..` element |
| OwnData.OwnDataNeverWalked | internal/config/load.go:101-119 | every own directory written that way, whose elements match themselves, stays unwalked under the name it resolves to, whatever the user wrote and whatever is appended later |
| OwnData.DoubledSeparatorIsWalked | internal/config/load.go:280-295 | `/h//s` resolves to `/h/s`, which is walked |
| OwnData.RelativeIsWalked | internal/config/load.go:280-295 | `s` and `./s`, with the program started in `/h`, resolve to `/h/s`, which is walked |
| WordPressSearch.ScanLevel | internal/adapter/wpchecksums/detect.go:255-318 | one level of the nested loops is the scan of that level, and gathers the next level |
| WordPressSearch.WalkForWordPress | internal/adapter/wpchecksums/detect.go:249-324 | the nested loops are one scan of the breadth-first order |
| WordPressSearch.DetectAll | internal/adapter/wpchecksums/detect.go:215-247 | both ceilings hold; everything listed is an installation within the depth of some root, and listed once across overlapping roots; a stop reason is true, and no stop reason means that every installation within the depth was found |
| WordPressSearch.ScanBounded | internal/adapter/wpchecksums/detect.go:252-324 | the scan never exceeds the bounds or repeats an installation |
| WordPressSearch.ScanExamines | internal/adapter/wpchecksums/detect.go:257-290 | the scan examined exactly a prefix of the order, kept every installation in it, and kept no other |
| WordPressSearch.OrderComplete | internal/adapter/wpchecksums/detect.go:292-321 | every directory a chain of unskipped, readable names reaches within the depth is in the order, at that depth |
| WordPressSearch.OrderSound | internal/adapter/wpchecksums/detect.go:292-321 | and nothing else is |
| WordPressSearch.ShallowestKept | internal/adapter/wpchecksums/detect.go:249-290 | a stopped search of one root never misses an installation strictly shallower than a directory it examined |
| WordPressSearch.UnstoppedFindsAll | internal/adapter/wpchecksums/detect.go:252-324 | a search without a stop reason found every installation within the depth |
| Calendar.CalendarOrder | internal/store/time.go:32-43 | calendar order of civil times is clock order, both ways, for the years 0000 to 9999 |
| Calendar.InstantRoundTrip | internal/store/time.go:38-63 | reading an instant off the calendar and back gives the instant |
| Calendar.CivilRoundTrip | internal/store/time.go:38-63 | a valid civil time names one instant that reads back as it |
| Timestamps.StoredOrder | internal/store/time.go:32-43 | byte order of stored times is clock order if and only if the pair does not set the zero time against an earlier instant |
| Timestamps.ColumnBefore | internal/store/quarantine.go:121-175 | the retention guard on text holds exactly for a set instant before the clock |
| Timestamps.ColumnNotAfter | internal/store/deliveries.go:91-99 | the retry guard on text holds exactly for no instant or one not after the clock |
| Timestamps.StoredRoundTrip | internal/store/time.go:38-70 | reading undoes writing, NULL and the zero time included |
| Timestamps.MigrationIsCanonical | internal/store/migrations.go:217-315 | every readable UTC stamp of any fraction width becomes the fixed-width stamp of its instant |
| Timestamps.MigrationIsIdempotent | internal/store/migrations.go:231-239 | a second application changes nothing, on any text |
| Timestamps.MigratedOrder | internal/store/migrations.go:217-240 | migrated stamps of all shapes sort by the clock and keep their instants |
| Timestamps.TrimmedRoundTrip | internal/store/time.go:28-31 | the old form reads back as its instant and migrates to its fixed form |
| Timestamps.TrimmedMisorders | internal/store/time.go:13-26 | in the old form a whole second sorts after every later instant of that second |
| Cron.ParseField | internal/sched/cron.go:84-139 | the nested loops, on 64-bit integers, compute the specified list and refuse the malformed fields |
| Cron.FieldMeaning | internal/sched/cron.go:84-139 | an accepted field is duplicate-free, and in range and equal to the union of its stepped ranges if and only if no part's first step overflows |
| Cron.SteppedDenotes | internal/sched/cron.go:125-133 | without overflow a part adds exactly start, start + step, and so on up to its end |
| CronOverflow.HugeStepLeavesRange | internal/sched/cron.go:84-139 | the field `*/9223372036854775807` of the day of month is accepted and yields 1 and two negative numbers |
| CronOverflow.UnwrittenDaysMatch | internal/sched/cron.go:60-139 | an accepted expression whose days are `1-29,*/9223372036854775807` matches at midnight on every 30th and 31st, which it does not write |
| Cron.CountInterval | internal/sched/cron.go:66-72 | a duplicate-free list within an interval has the interval's size if and only if nothing is missing |
| Cron.EitherDayRule | internal/sched/cron.go:60-82 | for any lists that each hold a value of their range: matching follows the either-day rule at every moment if and only if fewer than 31 days and fewer than 7 weekdays are listed exactly when some one is missing |
| Cron.MatchesExactly | internal/sched/cron.go:60-82 | a schedule matches exactly the moments meant if and only if no list holds an unmeant value of its range and the lengths of the day and weekday lists tell whether something is missing |
| Cron.ParseCron | internal/sched/cron.go:29-53 | a schedule results if and only if there are five fields and each is accepted, and its lists are those of minute, hour, day, month and weekday |
| Cron.ExpressionMeaning | internal/sched/cron.go:29-139 | for every accepted expression: it matches the moments written, by the either-day rule, if and only if overflow has put no unwritten value into a list's range and has not made the day or weekday list look complete; always so without overflow |
| Delivery.Backoff | internal/alert/webhook/webhook.go:155-164 | the multiplying loop yields 4^(attempt-1) seconds for attempts 1 to 4 and zero otherwise |
| Delivery.Ladder | internal/alert/webhook/webhook.go:148-164 | the delays are 1, 4, 16 and 64 seconds, and never 256 |
| Delivery.Dispatcher.EnqueueDelivery | internal/store/deliveries.go:43-59 | a new id gets its row, a taken one is refused |
| Delivery.Dispatcher.RecordAttempt | internal/store/deliveries.go:66-89 | the row of that id, whatever its status, becomes delivered, failed or pending with one more attempt; no other row differs |
| Delivery.Dispatcher.AttemptWebhook | internal/alert/dispatcher.go:131-158 | one attempt records delivered, failed, or the next attempt at the clock plus the delay |
| Delivery.Dispatcher.DispatchWebhooks | internal/alert/dispatcher.go:102-128 | each enabled subscribed webhook is queued first and then tried once, up to the first death |
| Delivery.Dispatcher.DispatchEmail | internal/alert/dispatcher.go:207-231 | a mail is queued, the queue's failure ignored, sent once and recorded |
| Delivery.Dispatcher.RetryPending | internal/alert/dispatcher.go:160-196 | each listed delivery, as read, is skipped, closed or tried once more, up to the first death; the count is of those tried |
| DeliveryRuns.QueuedIsNotLost | internal/alert/dispatcher.go:85-128 | once its insert took effect a delivery is in the table whatever happens, with its one attempt recorded or due at any clock |
| DeliveryRuns.DueExactly | internal/store/deliveries.go:91-99 | a waiting delivery is due if and only if 4^(k-1) seconds have passed since its last recorded failure |
| DeliveryRuns.RetryActsOnEach | internal/alert/dispatcher.go:170-195 | each listed delivery gets the outcome of its own attempt, independent of the others |
| DeliveryRuns.OutcomeExactly | internal/alert/dispatcher.go:131-194 | a recorded retry ends delivered if and only if accepted, waits if and only if one of the first four attempts was refused, and fails otherwise |
| DeliveryRuns.DeliveriesAreBounded | internal/alert/dispatcher.go:102-196 | over any run with failures and deaths: at most five recorded attempts, a waiting delivery has one to four and its scheduled time, delivered and failed are final, every change uses up one of the five |
| DeliveryRuns.NeverRetriedEarly | internal/alert/dispatcher.go:160-196 | in no run is a delivery tried before its delay has passed |
| DeliveryRuns.SendsAreBounded | internal/alert/dispatcher.go:130-150 | requests sent are recorded attempts plus lost records less unsent ones; at most five if no record is lost |
| DeliveryRuns.LostRecordsRepeat | internal/alert/dispatcher.go:144-150 | for every n a run whose records are all lost sends one delivery n times |
| DeliveryRuns.MailFreshExactly | internal/alert/dispatcher.go:218-230 | existing deliveries survive every mail if and only if its id is new |
| DeliveryRuns.ListedExactly | internal/store/deliveries.go:91-99 | a due delivery may be read if and only if fewer than fifty due ones were created before it, and must be if and only if fewer than fifty others were created no later; for one that shares its instant with no other the two coincide |
| DeliveryRuns.MailStarvesRetries | internal/alert/dispatcher.go:164-175 | behind fifty older pending mails no run ever tries a webhook delivery again |

## Left out

- The HTTP server, sessions, panel, PHP bridge, command line, and the rendering of mails and chat messages: input, output and user interface.
- The adapters' own parsers: an adapter is an arbitrary outcome.
- Digests and signatures: a digest is its content; the 12-digit ids of verdicts and findings are not modelled.
- The database engine: each statement is one atomic step that may take effect and still report failure; of the queries only the conditions and orders that carry a property are kept.
- The file lock: mutual exclusion does not hold in all interleavings, and nothing here relies on it.
- `Config.Clone`, configuration validation messages, signature updates, process limits, timeouts, downloads: nothing here depends on them.
- `filepath.Match` is a parameter; that a plain segment matches itself is assumed only where a row says so.
- The cancellation of a walk (its result is then discarded) and the symbolic-link test against covered ground: a walked tree says what each link is.
- `excludeAccountFurniture` and `expandHome`: the exclusion theorems hold whatever is appended to the list.
- Relative roots of walks and searches: `filepath.Abs` is taken as done on them. A working directory that cannot be read, with which `filepath.Abs` fails.
- Symbolic links on the way to a data directory: `filepath.Abs` leaves them, and so does the model; `OwnData.OwnDataExactly` holds for any name.
- Parsing of stamps with a numeric zone offset, and anything else the general parser accepts beyond UTC stamps: the program writes UTC only.
- White space other than blanks, tabs and line ends in cron fields, and the splitting of the expression into fields; case folding beyond ASCII in trash names.
- Sizes, durations, resource counters, notes and skipped counts of reports, and the texts of error messages.
- Confidence and category text of verdicts beyond what votes carry, and the emission of events.
- Owners and bits beyond the nine permission bits, and the copy's own mode in the vault.
- Rounding of floating-point scores: scores are reals.
- `ScanStatus` strings outside its five values.
- The grace period counts days of 24 hours.
- A valid payload that names another delivery's id, and the retention of delivered rows.
- The encoding of the baseline file and its atomic replacement: a cycle says whether it could be read and whether it was stored.
