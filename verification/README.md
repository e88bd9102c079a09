# Verified models of gstack-extend's protocols, ledgers, indexes and text transformations

Dafny models of the parts of the repository where a wrong branch is expensive: the rule that a pull request gets one
review request, the crash-tolerant event ledger and telemetry handoffs, the indexes and in-place tables that must
agree with a simple scan, the texts that must read back, and the file publications that may fail at any step.
`dafny verify dfyconfig.toml` checks everything.

## What is modelled

**Greptile once** (`GreptileModel`, `GreptileHistory`, `GreptileDecision`, `GreptileTheorems`, `GreptileProtocol`,
`GreptileDerivation`, `GreptileWitnesses`). `GreptileHistory` says, without any order, what history an observation
derives; the methods of `GreptileDerivation` are the loops of `computeHistory` and are proved to derive it.
`GreptileDecision` is the decision core, branch by branch. `GreptileProtocol` lets any number of sessions post,
snapshot, journal, decide, journal `attempted` and send, in any interleaving; a crash is a session that takes no
further step, and clocks only have to keep posting order. Its rules are those of the header of decide.ts and of the
journal in types.ts: one account; comment ids and times increase in posting order; a comment list is complete up to
some moment; a session's journal view holds all of its own entries; an observation is acted on once, with `attempted`
journaled first; and a never-submitted proof exists only for a reservation on which nobody will act again.

**Ledger, handoffs and markers** (`Ledger`, `FinishRetry`, `HandoffOrder`). Every environment call is a field of an
`Env` value: it succeeds, fails, is cut short, or the process dies. The ledger is a byte string; a torn append leaves
any prefix of the line.

**Indexes and tables** (`PlaceStep`, `UsageFacts`, `IndexLookups`, `NearestPassage`).

**Texts** (`Text`, `Fences`, `LineEndings`, `LineLooks`, `Glob`, `ReceiptBody` to `UpsertTheorems`, `PlanParts` to
`SealRoundTrip`). Texts are strings, cut into lines at LF; regular expressions are text that is read into atoms and
matched. The closing rules for fences are those of section 4.5 of the CommonMark Spec 0.31.2 as far as the two line
readers follow them.

**Publication** (`ApplyMoves`, `SealPublication`). The file system is a map; each call may fail, and every state the
files pass through is kept in a ghost trace, so the theorems hold wherever the process stops.

## What the code does not do

Five expectations turned out false of the code. Each has an input that shows it and an exact condition.

- The reviewed body is not always kept by `upsert`: one pass of CRLF to LF leaves a CRLF where the body had CR CR LF,
  and the second pass then changes the body, so the `INTERNAL` branch is reachable (`DocsShipInternal` gives a body, a
  receipt and a reader that accepts it). `UpsertSucceedsExactly` gives the condition, in both directions. For the same
  reason a second `upsert` is the identity exactly when no CRLF stands around the block (`SecondUpsert`).
- A successful seal is not always one that can be read back. A plan that ends inside a fence, without a record or report
  heading before it, is written and reported as sealed, but what was appended stays behind the open fence
  (`OpenFenceLosesSeal`, for a plan of three backticks). `SealPlan` states exactly when the sealed plan names and hashes
  its sidecar, and `UnreadSealIsLost` what follows otherwise: the next seal takes the sidecar for a foreign one, and with
  `--replace` overwrites it without an archive.
- A sealed path may hold a carriage return (or U+2028, U+2029), after which the multi-line `^` of `readSeal` sees a new
  line: such a path can name any size (`CarriageReturnForgesSize`). `SealReadsBack` gives the condition.
- A fact's charged source depends on arrival order when several sources of the winning class report it; only the class
  does not (`ChargeOrderIndependence`: the order does not matter exactly when there is one candidate).
- With the request history unavailable, a standing E1 (b) waiver makes a draft ready although settings will start a run
  and a run exists that is not visible yet (`ReadyReliesOnVisibleEvidence`). `ReadyIsSafeExactly` gives the condition:
  whatever the unavailable histories would show, nothing is consumed exactly when comments, submissions, journal and runs
  were all available.

The glob compiler keeps to its documented meaning on the paths git lists. On other paths it is stricter: a `**` skips
nonempty segments only. `CompiledMeansGlob` gives what it accepts on every path, and `AgreesExactly` shows that all globs
keep to the documented meaning on a path exactly when no segment of it is empty.

## Model

| member | source | states |
|---|---|---|
| GreptileProtocol.AtMostOneTrigger | src/greptile-lifecycle/decide.ts:39-58 | in every run of the session protocol, whatever crashes, interleavings and clock readings, at most one trigger is sent |
| GreptileProtocol.StepKeepsInvariant | src/greptile-lifecycle/types.ts:270-291 | every step keeps that each open right is the earliest unreleased marker, journaled first by its own session, and attempted before it is sent |
| GreptileProtocol.OpenRightsAgree | src/greptile-lifecycle/decide.ts:1189-1212 | two rights to send on reservations that are still open are one and the same right |
| GreptileProtocol.GrantWins | src/greptile-lifecycle/decide.ts:1146-1166 | a marker that wins in one session's snapshot comes before every unreleased marker ever posted |
| GreptileProtocol.GrantFirst | src/greptile-lifecycle/decide.ts:1189-1210 | a fresh own reservation was journaled first, by this very session and observation |
| GreptileWitnesses.OneTriggerIsSent | src/greptile-lifecycle/decide.ts:1916-1926 | the protocol is not silent: some run sends exactly one trigger |
| GreptileWitnesses.ReadyReliesOnVisibleEvidence | src/greptile-lifecycle/decide.ts:1401-1417 | with histories unavailable and a standing E1 (b) waiver the draft is ready although settings will start a run; once the run is visible it is not |
| GreptileTheorems.HistoryDetermined | src/greptile-lifecycle/decide.ts:1116-1264 | the order-free derivation has exactly one result |
| GreptileTheorems.OrderIndependent | src/greptile-lifecycle/decide.ts:1116-1389 | reordering comments, submissions, journal and run observations changes neither history nor decision |
| GreptileTheorems.TriggerExactly | src/greptile-lifecycle/decide.ts:1842-1930 | a trigger is returned exactly when the earlier rows pass, nothing was requested, and this session's fresh reservation is the least live marker, which it names |
| GreptileTheorems.RecordReservationExactly | src/greptile-lifecycle/decide.ts:1842-1930 | a reservation is asked for exactly when the earlier rows pass, nothing was requested, no live marker exists and this observation has no journal entry |
| GreptileTheorems.FreshExactly | src/greptile-lifecycle/decide.ts:1194-1212 | with nothing requested, the derived own state makes a marker the fresh winner exactly when the raw journal shows it read back, unattempted and unshared |
| GreptileTheorems.EmptyHistoryMeans | src/greptile-lifecycle/decide.ts:1214-1263 | a resolved history without runs and consumption means that nothing was requested in the raw evidence |
| GreptileTheorems.EmptyHistory | src/greptile-lifecycle/decide.ts:1214-1263 | and nothing requested, with every winner fresh and own, gives such a history |
| GreptileTheorems.NoSecondRun | src/greptile-lifecycle/decide.ts:1676-1706 | a ready draft has excluded settings, or nothing visible consumed the allowance and Greptile is inapplicable or waived by an E1 (b) offered on its edge |
| GreptileTheorems.ReadyIsSafeExactly | src/greptile-lifecycle/decide.ts:1401-1417 | for a ready draft whose settings may start a run, no completion of the unavailable histories shows consumption exactly when comments, submissions, journal and runs were all available |
| GreptileTheorems.TriggerNeedsQuietSettings | src/greptile-lifecycle/decide.ts:1471-1482 | a trigger is only sent while the settings exclude an automatic run |
| GreptileTheorems.ExcludedMeansNoEvents | src/greptile-lifecycle/policy.ts:438-459 | decided from the tips, excluded means that neither tip declares any event |
| GreptileDerivation.ComputeHistory | src/greptile-lifecycle/decide.ts:1116-1264 | the loops derive the history the order-free specification describes, or the unresolved or contradiction rule |
| GreptileDerivation.ReleasedReservations | src/greptile-lifecycle/decide.ts:1021-1050 | the proofs read in one pass release exactly the reservations whose every attempt a later proof of the same session and observation covers |
| GreptileDerivation.ReduceRuns | src/greptile-lifecycle/decide.ts:1301-1389 | the reduced runs are exactly the runs of the observed ids, in order, unless an observation is misattributed or a group is bad, when the first bad rule is returned |
| GreptileDerivation.ReduceGroup | src/greptile-lifecycle/decide.ts:1301-1389 | one group reduces to its run, is a contradiction exactly when its observations contradict, or has no known status |
| GreptileDerivation.LiveMarkersOf | src/greptile-lifecycle/decide.ts:1146-1166 | the account's unreleased markers, and the least of them by time and id |
| GreptileDerivation.AttemptsOf | src/greptile-lifecycle/decide.ts:1169-1173 | the attempted reservations, and those whose attempt is not explained by a comment |
| GreptileDerivation.DeletedRequests | src/greptile-lifecycle/decide.ts:1181-1187 | the journaled reservations that are no longer visible, each with its earliest journaled time |
| GreptileDerivation.RecordedOf | src/greptile-lifecycle/decide.ts:1434-1455 | the recorded requests that no bound never-submitted proof discharges |
| GreptileDerivation.OwnReservation | src/greptile-lifecycle/decide.ts:1189-1210 | this observation's latest journal entry as unconfirmed, stale or fresh |
| GreptileDerivation.RequestsOf | src/greptile-lifecycle/decide.ts:1214-1234 | exactly the requests that markers, submissions and deleted reservations make, with their times and kinds |
| GreptileDerivation.ConsumptionFrom | src/greptile-lifecycle/decide.ts:1247-1262 | the governing request: the first confirmed comment unless an uncertain request exists, else the earliest; with the latest time |
| GreptileDerivation.UnseenRequest | src/greptile-lifecycle/decide.ts:1271-1295 | beside observed runs, whether some request may have a run of its own |
| Ledger.LedgerFile.Mutate | bin/lib/workflow_metrics.py:1008-1087 | one call's result and new file are those of the specification, for every outcome of every file operation |
| Ledger.ParseLedger | bin/lib/workflow_metrics.py:903-921 | the loop over the lines yields the records, the malformed count and the torn tail of the specification |
| Ledger.ParseAppend | bin/lib/workflow_metrics.py:903-921 | appended bytes parse after the stored records when no tail is torn |
| Ledger.CallKeeps | bin/lib/workflow_metrics.py:1008-1087 | a call keeps the ledger sound, only extends bytes and records, and leaves a torn ledger as it is |
| Ledger.EveryRunIsSound | bin/lib/workflow_metrics.py:1008-1087 | after any calls the ledger has distinct events, one run-begin first, one stage, no malformed line and stays within its caps |
| Ledger.TornIsFrozen | bin/lib/workflow_metrics.py:1028-1044 | once torn, no call changes the file or records; a call replays exactly when its event is stored and confirmed |
| Ledger.RetriesReplay | bin/lib/workflow_metrics.py:1028-1040 | a stored event replays with its first time after any later calls, even when its confirmation was lost |
| Ledger.RecordedOnce | bin/lib/workflow_metrics.py:1028-1040 | an event id is recorded at most once |
| FinishRetry.SessionFiles.Finish | bin/lib/telemetry.py:2734-2841 | one finish leaves exactly the files and rows of the specification, for every failure, retry state and death |
| FinishRetry.SessionFiles.ProvenanceOutput | bin/lib/telemetry.py:2789-2812 | the provenance half: append, then save the progress, or keep the row for a retry |
| FinishRetry.SessionFiles.UsageOutput | bin/lib/telemetry.py:1018-1039 | the usage half: a retry after an uncertain delegate looks in the sink first, and holds when it cannot |
| FinishRetry.RecordedStaysRecorded | bin/lib/telemetry.py:580-599 | an output that the saved progress lists is never written again, whatever later finishes do, fail at or die after |
| FinishRetry.FinishKeeps | bin/lib/telemetry.py:2734-2841 | a finish keeps the row bounds, the marker's truth and the removal order of the twin |
| FinishRetry.NeverOverDelivers | bin/lib/telemetry.py:2734-2841 | over any finishes provenance rows are at most one plus the appends whose save was lost, usage rows likewise, a marker lists only written outputs, and no twin outlives the handoff |
| FinishRetry.MarkedStaysDone | bin/lib/telemetry.py:2734-2760 | after a marker no explicit finish writes a row |
| FinishRetry.CleanFinishCompletes | bin/lib/telemetry.py:2819-2839 | a finish in which nothing fails writes what is owed, leaves the marker and consumes handoff and twin |
| HandoffOrder.NextSeq | bin/lib/telemetry.py:480-487 | the stamp of a new start is above every open handoff's and not below the clock, or past the range and refused |
| HandoffOrder.PickAdoption | bin/lib/telemetry.py:507-519 | the pick is adoptable and comes before every other adoptable handoff in rank and arrival |
| HandoffOrder.AdoptedInOrder | bin/lib/telemetry.py:388-398 | sort order is start order, so the pick is the newest or the oldest start of its rank |
| HandoffOrder.StackOrQueue | bin/lib/telemetry.py:507-519 | within one rank finishes take starts as a stack for resumable skills and as a queue for the others |
| HandoffOrder.Store.Start | bin/lib/telemetry.py:2714-2724 | a start arrives last, for any clock reading, or nothing changes |
| HandoffOrder.Store.Finish | bin/lib/telemetry.py:522-569 | a start-less finish removes exactly the start it pairs with, in that order |
| PlaceStep.Place | bin/lib/telemetry_usage.py:1108-1151 | the walk over parents, cyclic or not, ends with the placement of the specification |
| PlaceStep.PlacedMeaning | bin/lib/telemetry_usage.py:1134-1151 | with acyclic parents a time is placed in s exactly when s contains it and every other containing step is a proper ancestor of s; overlapping exactly when at least two contain it and no such step exists |
| PlaceStep.MarkAll | bin/lib/telemetry_usage.py:1134-1147 | the marked steps are the containing ones that are proper ancestors of a containing one |
| UsageFacts.Facts.Set | bin/lib/telemetry_usage.py:317-321 | storing a fact places it by its time stamp and keeps every bucket equal to the one recomputed from the stored facts, compacted or not, until capacity is declared |
| UsageFacts.Facts.Delete | bin/lib/telemetry_usage.py:323-325 | deleting a fact does so too |
| UsageFacts.Facts.Add | bin/lib/telemetry_usage.py:272-315 | adding to a bucket compacts at the bucket limit and declares capacity only beyond the source and model limit |
| UsageFacts.Compact | bin/lib/telemetry_usage.py:291-303 | compaction turns the fine buckets into the coarse ones of the same facts |
| UsageFacts.BucketsCoverFacts | bin/lib/telemetry_usage.py:272-315 | the buckets together hold the totals of all facts, and as many responses as there are facts |
| UsageFacts.Facts.Merge | bin/lib/telemetry_usage.py:328-342 | an id stays stored once, charged as the merge of the earlier charge with the new report, and the fact that is kept is placed by its own time stamp |
| UsageFacts.ChargedClass | bin/lib/telemetry_usage.py:328-342 | the charge is direct exactly when any report is, and a child's exactly when a direct child reported it |
| UsageFacts.ChargeOrderIndependence | bin/lib/telemetry_usage.py:328-342 | the charged source is the same in every arrival order exactly when there is one candidate source |
| UsageFacts.FirstCandidateKeeps | bin/lib/telemetry_usage.py:333-342 | a source of the winning class that reports first keeps the charge |
| UsageFacts.LargestOutputKept | bin/lib/quota/usage.py:130-134 | the fact kept is one of the reports of the winning pool with the largest output |
| IndexLookups.Build | src/layout-scaffold/preflight.ts:14-37 | the four maps of one pass answer like linear scans |
| IndexLookups.EntriesAreScan | src/layout-scaffold/preflight.ts:39-39 | entries are exactly the same-spelling items, in order |
| IndexLookups.VariantIsScan | src/layout-scaffold/preflight.ts:40-43 | variant is the first fold-equal item of another spelling |
| IndexLookups.Conflict | src/layout-scaffold/preflight.ts:44-47 | conflict is the first item at, above or beneath the path |
| IndexLookups.Gitlink | src/layout-scaffold/preflight.ts:48-48 | gitlink is the first gitlink at the path or above it |
| NearestPassage.LcsRow | src/docs-ship/check.ts:83-94 | the row overwritten in place ends with the longest-common-subsequence recursion |
| NearestPassage.LcsIsLongest | src/docs-ship/check.ts:83-94 | that number is the greatest length of a common subsequence |
| NearestPassage.NearestPassage | src/docs-ship/check.ts:97-117 | within limits and budget, the first window of greatest score when it reaches the threshold; nothing when none does or the limits are passed |
| NearestPassage.FullScoreIsVerbatim | src/docs-ship/check.ts:110-112 | scores lie between 0 and 1, and are 1 exactly for a verbatim window |
| Glob.GlobMatcher | src/merge-gate/glob.ts:24-28 | brackets and braces are refused; otherwise a path is matched exactly when some glob matches it, which on proper paths is the documented meaning |
| Glob.CompileGlob | src/merge-gate/glob.ts:31-45 | the expression text reads back as the atoms of the glob, segment by segment |
| Glob.SegmentRegex | src/merge-gate/glob.ts:47-54 | a segment's text reads back as its stars and escaped literals |
| Glob.CompiledMeansGlob | src/merge-gate/glob.ts:31-45 | on every path the compiled expression accepts exactly what the glob matches segment by segment, an inner `**` skipping nonempty segments; on proper paths this is the documented relation |
| Glob.AgreesExactly | src/merge-gate/glob.ts:3-8 | all globs keep to the documented meaning on a path exactly when no segment of the path is empty |
| Fences.FencedLines | src/docs-ship/markdown.ts:7-24 | the fenced lines are those of the fence automaton, fence lines included |
| ReceiptBody.SplitBody | src/docs-ship/body.ts:23-43 | the loop finds the block between the two marker lines, or refuses unpaired and repeated markers |
| ReceiptTheorems.BlockIsFound | src/docs-ship/body.ts:23-43 | a closed receipt between texts that may surround a block is found again, with exactly these texts around it |
| ReceiptRoundTrip.FoundParts | src/docs-ship/body.ts:23-43 | and a block is only found between such texts |
| UpsertTheorems.UpsertSucceedsExactly | src/docs-ship/body.ts:66-84 | an accepted receipt is inserted exactly when there is a block to replace or no fence is left open, the receipt leaves none open, and no CRLF survives in the reviewed body, which is then unchanged |
| UpsertTheorems.DocsShipUpsert | src/docs-ship/body.ts:66-84 | the same for the two docs-ship markers |
| UpsertTheorems.CrlfIsInternalError | src/docs-ship/body.ts:82-82 | with fences closed and a surviving CRLF the internal error is what happens |
| UpsertTheorems.DocsShipInternal | src/docs-ship/body.ts:82-82 | there are a body, a receipt and a reader that accepts it for which the docs-ship upsert ends in the internal error |
| UpsertTheorems.BlockReadBack | src/docs-ship/body.ts:79-83 | the block read back is the inserted one exactly when no CRLF is left in the receipt |
| UpsertTheorems.SecondUpsert | src/docs-ship/body.ts:80-83 | a second insertion succeeds, and is the identity exactly when no CRLF stands around the block |
| UpsertTheorems.FirstInsertionIsStable | src/docs-ship/body.ts:81-81 | after a first insertion it always is the identity |
| PlanParts.ScanLines | src/autoplan-lean/plan.ts:48-68 | the loop marks exactly the lines the fence automaton has inside a fence |
| PlanSeal.SectionReadBack | src/autoplan-lean/plan.ts:269-283 | replaced, inserted before the report or appended, the section is the record read back; behind an open fence no record is |
| PlanSeal.ProperUnchanged | src/autoplan-lean/plan.ts:202-204 | the plan proper as reviewed is unchanged exactly when the plan can carry the record and is not empty |
| PlanSeal.ReplaceRecord | src/autoplan-lean/plan.ts:273-276 | replacing a record leaves the plan proper as it was |
| PlanSeal.InsertRecord | src/autoplan-lean/plan.ts:277-280 | so does inserting one before the report |
| PlanSeal.AppendClosed | src/autoplan-lean/plan.ts:281-282 | an appended record is found after the whole plan |
| SealText.PlanLookSound | src/autoplan-lean/plan.ts:70-72 | both headings are level-two headings, and no line is both |
| SealRoundTrip.SealReadsBack | src/autoplan-lean/plan.ts:247-266 | path and hash read back exactly when the plan can carry the record and the path is nonempty and free of backticks; the size as well exactly when no line inside the path reads as another size |
| SealRoundTrip.SealKeepsProper | src/autoplan-lean/plan.ts:83-98 | and the plan proper as reviewed is unchanged exactly when the plan can carry the record and is not empty |
| SealRoundTrip.SealRoundTrips | src/autoplan-lean/plan.ts:247-283 | for a one-line path and a nonempty plan that can carry the record both hold |
| SealRoundTrip.CarriageReturnForgesSize | src/autoplan-lean/plan.ts:251-251 | a carriage return in the path can give any size |
| SealPublication.SealPlan | src/autoplan-lean/cli.ts:345-424 | in every state the sealed record stands at the sidecar or its archive and a new plan only beside the new sidecar; every outcome but a failed recovery leaves both old or both new; after success the plan names and hashes the sidecar exactly when the plan could carry the record and the path be named, and its size too exactly when no line inside the path reads as another size; a failed recovery keeps the old record in its backup |
| SealPublication.UnreadSealIsLost | src/autoplan-lean/cli.ts:349-359 | after sealing a plan that cannot carry the record, or with a path it cannot name, the next seal stops, or with replace overwrites the record without archiving it |
| SealPublication.OpenFenceLosesSeal | src/autoplan-lean/plan.ts:269-283 | a plan of one fence line is sealed with success and carries no seal |
| SealPublication.Publish | src/autoplan-lean/cli.ts:389-408 | sidecar first, then plan, with the sidecar put back when the plan cannot be published |
| SealPublication.CleanUp | src/autoplan-lean/cli.ts:409-419 | removing staging files touches nothing else and spares the recovery copy |
| SealPublication.Disk.Stage | src/autoplan-lean/cli.ts:151-168 | a staging file is complete under a fresh name, or at most a fresh leftover remains |
| SealPublication.ArchivedAlready | src/autoplan-lean/cli.ts:348-359 | an archive that passes the checks holds exactly the sealed bytes |
| SealPublication.PartialArchiveStops | src/autoplan-lean/cli.ts:353-356 | an archive with other bytes stops every later seal of that record |
| ApplyMoves.Apply | src/layout-scaffold/apply.ts:31-93 | in every state each planned file is whole at its source or destination and no other file has changed; completed, failed and pending are the plan in order; finished moves have arrived, pending ones are untouched; staged and unstaged count the finished moves; an error before any attempt changes nothing |
| ApplyMoves.MoveTracked | src/layout-scaffold/apply.ts:43-60 | a tracked move is complete only when the rename and the index both happened |
| ApplyMoves.MoveLoose | src/layout-scaffold/apply.ts:59-82 | link or exclusive copy, then unlink; the bytes never leave both paths |
| ApplyMoves.CopyInstead | src/layout-scaffold/apply.ts:63-77 | the copy fallback creates the destination whole or removes what it created, and never touches an existing one |
| ApplyMoves.KeptStep | src/layout-scaffold/apply.ts:31-93 | a move between two planned paths keeps every other planned file where it was |

## Left out

- Validation tables, subject mismatches, labels, reasons, references and diagnostics of the greptile lifecycle: input is assumed valid and outputs are the rule, action and their operands.
- R04 (restriction row), the pre-trigger and readiness gates, and whether a recorded grant is valid: each is an input of the model, because they are long flat tables; everything after them is modelled.
- Receipts in file order and trust of a receipt record: recorded answers are given trusted and in their order.
- GreptileProtocol.AtMostOneTrigger: another account, and a session that acts against its own journal rules, are outside the protocol, as decide.ts says of itself.
- Ledger.LedgerFile.Mutate: the JSON encoding is any codec that reads back what it writes and writes no newline; digests, permissions, symbolic links and directory syncs appear only as operations that may fail.
- workflow_metrics.py's summaries (`_union_ms`, `_effective_selection`, `_finding_totals`) and `capture_usage`: sums over parsed records that would add easy members.
- FinishRetry.SessionFiles.Finish: unreadable handoffs, pruning of old markers, an explicit finish with neither handoff nor marker, and a lock that cannot be taken.
- PlaceStep.Place: the deadline, which answers "outside-steps" when it passes.
- UsageFacts.Facts.Add: the reasons and first-fact fields of a source, and invalid model names.
- IndexLookups.Build: NFC normalization and case folding are any pure functions; the rest of `preflight` only consults these lookups.
- NearestPassage.NearestPassage: tokens are given; scores are exact fractions, which floating point orders alike at these sizes.
- Glob.GlobMatcher: code points outside the basic plane, which the regular expression sees as two literals.
- UpsertTheorems.UpsertSucceedsExactly: reading the receipt's fields is an input (well-formed, recorded hash), and SHA-256 is an injective function; white space is ECMAScript's, and other Unicode detail is left out.
- SealRoundTrip.SealReadsBack: a path with a newline in it; a size beyond 2^53, where `Number` rounds.
- SealPublication.SealPlan: a sidecar path with a newline in it, whose lines could be headings, is left out of the clauses on reading back; file modes, symbolic links, budgets and raw-output checks; the assembled record is an input.
- ApplyMoves.Apply: a plan lists every file once, so that sources differ, which is assumed of its input; `git mv` is seen from outside (it renames to a free destination or leaves both files, and exits with 0 only after renaming), the audit after the loop and time stamps are left out, and no other process writes meanwhile.
- Link checks, heading anchors and slugs, claim scanners, roadmap audits, test selection, reporting and doctor output.
