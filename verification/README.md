# Daimon Matrix: coordination, canonical text and selection, verified

This Dafny project models the parts of the Daimon Matrix repository whose guarantees come from several functions
working together, and proves those guarantees for all inputs and all runs.

- **The claim protocol.** Daimons coordinate work on GitHub issues through signed commands. A handler answers each
  command with a receipt, a comment that names the digest of the receipt before it. Labels mirror the state so that
  other issues can be scanned for conflicts; a periodic sweep expires leases; an accepted review reruns an audit.
  `Claims` holds the decision and its validation, `Decisions` says what every decision means, `ReceiptText` and
  `AsciiText` hold the text that a receipt's digest is taken of, `ReceiptLog` the hash-linked logs, `ReceiptBreaks`
  why a bag of receipts is none, `HandlerLogs` what the handlers can write into one log, the `Coordination*` modules
  the many-issue protocol as a state machine over calls, edits and time (`CoordinationHandling` and
  `CoordinationLabels` say what each operation answers and leaves behind, in any repository, `CoordinationDrift` what
  a sweep repairs when labels or logs are not in order), `OverlapAudit` and `AuditRerun` the two audits.
- **The canonical JSON printer** whose output every identifier is a hash of: `CanonicalJson` prints (section 3.2 of
  RFC 8785), `JsonReader` reads, `JsonRoundTrip` proves them inverse, `JsonCanonical` that no shorter text would do
  for a string, `Utf` holds the UTF-16 and UTF-8 encodings and the key order, `Sorting` the sorted order of distinct
  strings.
- **The context exporter**: `SourcePaths` and `SourceSelection` decide about one path, `ExportRules` spells out every
  rule they apply, `ExportWalk` is the pruned walk, `ExportWalkFates` and `ExportSelected` say what it selects,
  `ExportInventory` is the walk as a class with growing lists, `ExportScan` the chunked credential scan.
- **Chat links**: `ChatLink` drafts a two-author plan, `ChatLinkSigning` signs it, `ChatLinkInstall` installs it into
  a ledger and retries, `ChatLinkRules` spells out scripts and ingestion, `ChatLinkEnrollment` puts the three
  together.
- **Configuration**: `ConfigLeaves` flattens and looks up; `ConfigText` spells and reads one line, `ConfigTables` and
  `ConfigRoundTrip` print and read tables (`ConfigLayout` says how they are laid out), `ConfigInstall` updates a
  configuration and installs it twice, `ConfigSettings` says what each setting becomes.

Conventions. The receipt digest is a parameter (`Rules`), assumed collision-free where a lemma says so; that chains
are acyclic is proved from it, and `DigestIsCollisionFree` shows that the assumption on bodies is the one usually made
of the hash, on canonical bytes. Formats of names, sessions and hashes are fields of `Rules` as well, so the theorems
hold for any such formats; `PublishedRules` fills in the published ones. Times are integers (microseconds). Python's
TOML parser and its spellings of floats, dates and times are parameters of the configuration model: the parser is
assumed to give well-formed dictionaries, and to read what is printed of one, if all its values can be written, as the
reader of the model does (`ReadsToml`). A class with mutable fields stands for each source object that is updated step
by step, and each of its methods is proved equal to a function on values about which the lemmas speak.

Where a hoped-for statement is false of the code, the exact condition is proved together with a counterexample:

- every validated command gets a receipt: `DecisionTotalExactly`, `EarlyReplayGetsNoReceipt`;
- an accepted claim excludes others: `ClaimExclusionExactly` and `HandledExclusionExactly`, `ClosedHolderIsOverlooked`;
- a sweep repairs every issue: `SweepExactly`, `UnlabelledLeaseIsMissed`;
- printed text reads back before any text: `RoundTripExactly`, `GluedDigits`;
- what nothing refuses is listed: `SelectedExactly`, `RefusedNameLosesFiles`;
- a scan by windows is a scan of the file: `SeenExactly` and `ScansExactly`, `LongRunsCanBeMissed` for what is missed
  and `EdgesCanAlarm` for what is refused without cause;
- a configuration that was parsed can be printed: `ConfigBytesExactly`, `DeleteIsLost`, `InfinityIsRefused`.

Where documentation and code disagree, the code is followed. `docs/github-coordination.md:57-60` promises that the
scheduled pass repairs label drift, but the pass looks only at open issues that carry one of three status labels
(`SweepExactly`), and the conflict scan only at open issues labelled claimed or in review (`ClaimExclusionExactly`); a
live holder that lost its label, or whose issue was closed, is seen by neither. Python treats `True == 1`, so its
equality on printed values is coarser than the one used here, under which `true` and `1` are different values with
different texts.

## Model

| member | source | states |
|---|---|---|
| Claims.ExpiryTotal | coordination/github_claims.py:776-792 | an expiry receipt is produced exactly for an active head whose lease has run out, and then it always passes validation |
| Claims.DecisionTotalExactly | coordination/github_claims.py:795-884 | a validated command on a validated head gets a publishable receipt if and only if no rejection would have to copy a live lease reaching more than a day past now |
| Claims.EarlyRejectionFails | coordination/github_claims.py:795-884 | the exception is real: one microsecond before the time of a head whose lease is a full day, every rejection fails for its lease |
| CoordinationExample.EarlyReplayGetsNoReceipt | coordination/github_claims.py:795-884 | a concrete command and head for which that happens |
| Claims.DecisionTotal | coordination/github_claims.py:555-647 | with a clock that does not run back, every validated command gets a receipt that passes validation |
| Claims.ReasonTexts | coordination/github_claims.py:795-884 | every reason the protocol itself gives has a text that the receipt validator accepts |
| ReceiptText.ReasonsDiffer | coordination/github_claims.py:732-773 | different reasons have different texts |
| ReceiptText.BodiesDiffer | coordination/github_claims.py:732-773 | different receipt bodies are different JSON values, provided that timestamps are told apart by their spelling |
| ReceiptText.MembersExactly | coordination/github_claims.py:732-773 | the value that is hashed has exactly eighteen members, each under its own name and with its own spelling of what the body says |
| ReceiptText.HashedExactly | coordination/github_claims.py:538-539 | what is hashed is the receipt domain, a zero byte and the canonical bytes |
| AsciiText.AsciiExactly | coordination/github_claims.py:211-224 | exactly the characters before U+007F stay as they are; all others become escapes with lower-case digits, beyond U+FFFF a surrogate pair |
| AsciiText.AsciiReadsBack | coordination/github_claims.py:211-224 | canonical text in which U+007F and everything beyond ASCII is escaped, in surrogate pairs where needed, reads back as the printed text |
| AsciiText.CanonicalBytesDetermineValue | coordination/github_claims.py:211-224 | canonical bytes are equal if and only if the values are |
| ReceiptText.DigestIsCollisionFree | coordination/github_claims.py:538-539 | the digest is collision-free on receipt bodies if and only if the hash is on the domain and canonical bytes of them |
| ReceiptLog.SortIsStable | coordination/github_claims.py:696-713 | sorting a bag of comments by identifier gives a permutation in ascending order that keeps the order of equal identifiers |
| ReceiptLog.ReduceReceipts | coordination/github_claims.py:696-713 | the loop over previous and seen computes the reduction: the head, or the first break found |
| ReceiptLog.ReduceExactly | coordination/github_claims.py:696-713 | a bag of receipts reduces if and only if, in comment order, it is a chain of one issue without repeated identifiers, and then to its last receipt |
| ReceiptBreaks.OrderExactly | coordination/github_claims.py:696-713 | comment order is by ascending identifier, in the given order where identifiers agree, and nothing is lost or added |
| ReceiptBreaks.BreaksExactly | coordination/github_claims.py:696-713 | a bag that does not reduce breaks at the first receipt that does not continue the ones before it, and for what is wrong with that one: another issue, a repeated identifier, a wrong predecessor, or a time that runs back |
| ReceiptLog.ChainIdsDistinct | coordination/github_claims.py:696-713 | with a collision-free digest the identifiers of a chain are pairwise distinct: chains are acyclic by the link check alone |
| ReceiptLog.ChainIsDistinct | coordination/github_claims.py:701-713 | so the separate duplicate check never decides |
| ReceiptLog.OnlyPrefixesReduce | coordination/github_claims.py:696-713 | anything drawn from a valid log, in any order and with repetitions, reduces if and only if it is a prefix of the log |
| ReceiptLog.NoForks | coordination/github_claims.py:696-713 | no two receipts of a chain name the same predecessor |
| ReceiptLog.SiblingsBreak | coordination/github_claims.py:696-713 | two different receipts with one predecessor cannot both be in a chain |
| ReceiptLog.MergedBranchesFail | coordination/github_claims.py:696-713 | a bag that holds the first receipts of two branches of one history never reduces |
| Decisions.DecisionExactly | coordination/github_claims.py:795-884 | a decision answers this command, by its identifier, on this issue and head; it accepts if and only if the clock is within ten minutes, the command lists its own issue and names the head, nothing conflicts, and it claims what is free and ready or continues what is held unchanged; then it does what was asked, and otherwise it leaves everything as it is and gives the text that belongs to the first condition that failed |
| Decisions.ExpiryExactly | coordination/github_claims.py:776-792 | an expiry exists exactly for a lapsed lease; it answers no command, frees the issue and keeps the rest of the head |
| Decisions.ValidExactly | coordination/github_claims.py:555-647 | a receipt is valid if and only if it bears its own digest, its numbers, lease and fields are in bounds, and its command and predecessor are named as its kind demands |
| HandlerLogs.LogIsLawful | tools/github_coordination.py:215-326 | every log the handlers can write is valid, linked, addressed by digest, and each receipt lawfully follows the one before |
| HandlerLogs.EpisodeStructure | tools/github_coordination.py:235-268 | every such log is a sequence of episodes claim, then heartbeats, reviews and rejections, then release or expiry, with only rejections outside; it is inside one exactly if its head is active |
| HandlerLogs.NeverDone | coordination/github_claims.py:716-773 | starting from an empty log, no receipt is ever in state done |
| HandlerLogs.OwnershipStable | coordination/github_claims.py:716-773 | between accepted claims the claim, its owner, session, resources and branch stay the same, the pull request is written once, and review never goes back to work in progress |
| HandlerLogs.ReviewNamesPullRequest | coordination/github_claims.py:859-884 | every receipt in review names a pull request, which validation alone does not enforce |
| HandlerLogs.LeaseProvenance | coordination/github_claims.py:862-870 | an active lease was granted, for at most a day, by the last acceptance in the log; rejections copy it and never extend it |
| HandlerLogs.ClaimFindsNoLease | coordination/github_claims.py:814-824 | exactly the active receipts carry a lease, and an accepted claim finds none on its predecessor |
| HandlerLogs.ClaimsAreSeparated | coordination/github_claims.py:776-844 | between a held claim and the next accepted one, the first was released or its lease had run out |
| HandlerLogs.LogExtends | tools/github_coordination.py:198-268 | a handler's step keeps a handler log one, with the new receipt as head |
| HandlerLogs.ReplayIsStale | coordination/github_claims.py:810-811 | a command that names a head of the past is refused for it, unless its clock is refused first |
| HandlerLogs.ReplayIsRejected | coordination/github_claims.py:795-857 | once accepted, a command is rejected by every later decision, with the stated reason |
| CoordinationInvariants.StateOfHealthy | tools/github_coordination.py:121-138 | on an issue whose trusted comments form a handler log, reading the state succeeds and yields the head |
| CoordinationInvariants.NoConflictExactly | tools/github_coordination.py:343-377 | the scan finds no conflict if and only if every other listed issue can be read and is not live, has the same owner, or shares no resource |
| CoordinationHandling.ScanExactly | tools/github_coordination.py:343-377 | for any repository: the first claimed issue in ascending order that blocks gives the reason, a conflict or a log that cannot be read; without one there is none |
| CoordinationInvariants.ClockKeeps | tools/github_coordination.py:215-269 | time passing keeps exclusion: it only ends leases |
| CoordinationSteps.DecideSteps | tools/github_coordination.py:215-269 | deciding on an admitted command appends exactly one lawful receipt to that issue's log, relabels it to the new state, and keeps the invariants |
| CoordinationSteps.HandleSteps | tools/github_coordination.py:215-294 | a whole handler call appends the due expiry, if any, then one decision, to the one issue it is about, and keeps the invariants; what it decides is stated by HandleExactly |
| CoordinationHandling.RefusedUnread | tools/github_coordination.py:215-237 | what is refused before the log is read, each with its own condition, an untrusted or foreign author among them; nothing changes then |
| CoordinationHandling.UnreadableStops | tools/github_coordination.py:215-237 | a log that cannot be read stops the handler, and nothing changes |
| CoordinationHandling.HandleExactly | tools/github_coordination.py:215-294 | for any repository: a claim is accepted if and only if it is timely, names the head after the due expiry and lists its own issue, no claim is held, the issue is ready then, no blocker is open, and no other listed issue blocks; a claim that is heard with an open blocker is rejected with `dependency_blocked`; what is posted and how the labels end is stated as well |
| CoordinationHandling.OpenBlockersReject | tools/github_coordination.py:246-268 | a claim that is heard while a blocker is open is rejected with `dependency_blocked`, whatever else stands against it |
| CoordinationHandling.AnsweredExactly | tools/github_coordination.py:215-294 | in an orderly repository every carried command gets an answer, except exactly a claim whose blockers cannot be found |
| CoordinationLabels.SetStatusExactly | tools/github_coordination.py:170-195 | setting a status keeps every other label and leaves exactly one status label: ready, claimed or review, as the state says |
| CoordinationLabels.HandleLabels | tools/github_coordination.py:215-294 | a handler call keeps every other label of every issue; after an accepted command, release included, the label of its state stands alone |
| CoordinationSweep.ExpireSteps | tools/github_coordination.py:297-326 | expiring one issue posts its expiry exactly if its lease is due, settles its label, and touches nothing else |
| CoordinationHandling.ExpireExactly | tools/github_coordination.py:297-326 | expiring an issue of any repository posts exactly the expiry of a lapsed head and makes the issue ready, or gives a head that has not lapsed its label back |
| CoordinationHandling.ExpireFails | tools/github_coordination.py:297-326 | it fails exactly for an unknown issue or a log that cannot be read |
| CoordinationLabels.ExpireLabels | tools/github_coordination.py:297-326 | it keeps every other label of every issue, and exactly one status label stands |
| CoordinationSweep.UnsweptNotDue | tools/github_coordination.py:380-406 | under the protocol's invariant no due lease escapes the issues that the sweep lists |
| CoordinationSweep.SweepCorrect | tools/github_coordination.py:380-406 | under the protocol's invariant, after a sweep no lease is due, every log grew by its expiry and nothing else, no call failed, and the expired issues are exactly those that were due |
| CoordinationLabels.SweepLabels | tools/github_coordination.py:380-406 | a sweep keeps every other label; each listed, readable issue with a head ends with exactly one status label, ready if its lease had run out and that of its head if not; all others keep theirs |
| CoordinationHandling.ReportsClimb | tools/github_coordination.py:380-406 | the issues reported as expired and as failed are listed in ascending order, each once |
| CoordinationSweep.SweepSparesLive | tools/github_coordination.py:380-406 | a live claim keeps its log through a sweep |
| CoordinationSweep.SecondSweepIsIdle | tools/github_coordination.py:380-406 | a second sweep at the same time changes nothing at all |
| CoordinationDrift.SeenAfterPost | tools/github_coordination.py:121-208 | on any readable log, whoever wrote it, a posted valid successor is what is read back as the head |
| CoordinationDrift.ExpireAny | tools/github_coordination.py:297-326 | expiring one issue of any repository: it fails, changing nothing, exactly if the log cannot be read; otherwise it expires exactly a due lease and leaves the issue at rest |
| CoordinationDrift.SweepExactly | tools/github_coordination.py:380-406 | for any repository: a sweep fails on exactly the listed issues that cannot be read, expires exactly the listed due leases, and leaves an issue at rest exactly if it was listed and readable, or at rest before |
| CoordinationExample.UnlabelledLeaseIsMissed | tools/github_coordination.py:380-406 | a concrete open issue without a status label keeps its due lease through a sweep |
| CoordinationRuns.RunKeeps | tools/github_coordination.py:215-406 | every permitted run keeps the readable logs, the labels of active heads and resource exclusion |
| CoordinationRuns.ResourceExclusion | tools/github_coordination.py:343-377 | in every reachable state two different issues live at the current time share an owner and session, or no resource |
| CoordinationRuns.ReachableLogs | tools/github_coordination.py:121-138 | every log of every reachable state is a handler log and reads back as its head |
| CoordinationRuns.RunGrows | tools/github_coordination.py:198-208 | later states only extend the logs of earlier ones |
| CoordinationRuns.DecisionRecorded | tools/github_coordination.py:238-268 | a published decision is the last receipt of the new log; it names the command by its identifier, with its action, issue and time, on the head left by the due expiry, and decides as DecisionExactly says |
| CoordinationRuns.AcceptedAtMostOnce | tools/github_coordination.py:238-268 | over a whole run, a delivered command is accepted at most once; every later delivery that is answered is rejected, for its clock or as stale |
| CoordinationVisibility.UntrustedIsInert | tools/github_coordination.py:121-138 | comments of untrusted accounts change nothing, wherever they stand |
| CoordinationHandling.CollectExactly | tools/github_coordination.py:121-138 | comments are read up to the first of a trusted account that is bad, and those of other accounts count for nothing |
| CoordinationHandling.StateExactly | tools/github_coordination.py:121-138 | the state is what the receipts of trusted accounts reduce to, if none of them is bad |
| CoordinationVisibility.ScanIgnoresHidden | tools/github_coordination.py:329-377 | what stands on a closed or unlabelled issue cannot influence the conflict scan |
| CoordinationVisibility.ClaimExclusionExactly | tools/github_coordination.py:343-377 | on any readable state, an accepted claim keeps exclusion if and only if it is apart from the issues the scan did not list |
| CoordinationVisibility.HandledExclusionExactly | tools/github_coordination.py:215-294 | the same for a whole handler call, with the expiry it may post first |
| CoordinationExample.ClosedHolderIsOverlooked | tools/github_coordination.py:329-377 | a concrete state and request: the holder's issue is closed, and the handler accepts a conflicting claim of another session |
| CoordinationTool.Repository.State | tools/github_coordination.py:121-138 | the loop over comments, which stops at the first bad receipt, computes the state |
| CoordinationTool.Repository.PostReceipt | tools/github_coordination.py:198-208 | appends one comment with a new identifier |
| CoordinationTool.Repository.SetStatus | tools/github_coordination.py:170-195 | replaces the labels of the one issue, in place, by those that SetStatusExactly describes |
| CoordinationTool.Repository.ResourceConflict | tools/github_coordination.py:343-377 | the loop over listed issues in ascending order returns the first conflict |
| CoordinationTool.Repository.HandleComment | tools/github_coordination.py:215-294 | the handler, updating comments and labels in place, ends in the state that HandleExactly describes |
| CoordinationTool.Repository.ExpireIssue | tools/github_coordination.py:297-326 | likewise for the expiry of one issue |
| CoordinationTool.Repository.ExpireAll | tools/github_coordination.py:380-406 | likewise for the sweep, which goes on past issues that fail |
| OverlapAudit.AuditResourceOverlaps | coordination/github_claims.py:887-900 | the nested loops report exactly the pairs of live receipts with different claims and a common resource, each once and in order |
| OverlapAudit.OverlapExactly | coordination/github_claims.py:891-893 | two receipts overlap exactly if their claims differ and some resource is in both |
| OverlapAudit.LiveExactly | coordination/github_claims.py:888 | the receipts paired are those given whose lease has not run out, in the order given |
| OverlapAudit.ReachableOverlapsShareOwner | coordination/github_claims.py:887-900 | on the heads of a reachable state every reported pair has one owner and session |
| AuditRerun.ExactlyOneRerun | tools/github_coordination.py:571-687 | among any number of pull requests and runs, in every order of their events and handler calls, exactly one rerun of a run is requested if its pull request was refreshed after both an accepted review and the failed first attempt, and none otherwise |
| AuditRerun.RefreshExactly | tools/github_coordination.py:571-645 | every answer of a refresh has its own condition in terms of the pull request and its runs: closed, not linked, not in review, no run, no failed audit, or a rerun requested, of the latest run alone; only a request changes anything |
| AuditRerun.RefreshOfOther | tools/github_coordination.py:571-645 | the refresh of one pull request never reruns the run of another |
| AuditRerun.CompletionRefreshes | tools/github_coordination.py:648-687 | the completion handler of a failed first attempt comes to its pull request, unless the rerun was requested before |
| AuditRerun.CompletionExactly | tools/github_coordination.py:648-687 | a completed run refreshes exactly the pull requests associated with it that are open at its head, in ascending order, if it is a failed first attempt of the workflow |
| AuditRerun.RefreshAllExactly | tools/github_coordination.py:648-687 | it refreshes them in turn up to the first that raises |
| AuditRerun.NoRerunIsLost | tools/github_coordination.py:279-287 | if each of the two events is followed by its own handler call, the rerun was requested once, whatever else happens in between |
| CanonicalJson.PrintString | tools/generate_dm011_vectors.py:110-121 | the loop that collects pieces prints the quoted, escaped string that StringIsShortest describes |
| JsonCanonical.CharIsShortest | tools/generate_dm011_vectors.py:105-121 | no text that reads as a character is shorter than what is printed for it, and none of that length is another but for upper-case digits in an escape |
| JsonCanonical.StringIsShortest | tools/generate_dm011_vectors.py:105-121 | no text that reads back as the string is shorter than the printed one, and the printed one is the only text of its length with lower-case escapes: the canonical form of section 3.2.2.2 of RFC 8785 |
| CanonicalJson.KeysAscend | tools/generate_dm011_vectors.py:137-139 | keys are printed in strictly ascending order of UTF-16 code units, each once, and the same for every order of insertion |
| Utf.BytesCompareAsUnits | tools/generate_dm011_vectors.py:138-139 | comparing big-endian bytes is comparing code units |
| Utf.UnitsExactly | tools/generate_dm011_vectors.py:138-139 | a character is its own code unit, or the surrogate pair that carries what is beyond U+FFFF |
| Utf.KeysCompareAsCodeUnits | tools/generate_dm011_vectors.py:138-139 | the sort key gives the order that section 3.2.3 of RFC 8785 asks for |
| Utf.NotCodePointOrder | tools/generate_dm011_vectors.py:138-139 | which is not the order of code points |
| Utf.KeyOrder | tools/generate_dm011_vectors.py:138-139 | the order is total and strict, so equal sort keys mean equal keys |
| Utf.Utf8CharExactly | tools/generate_dm011_vectors.py:134 | a character takes as many bytes as section 3 of RFC 3629 allows at least, the first of which says how many, and they carry its code |
| Utf.Utf8Injective | tools/generate_dm011_vectors.py:134 | encoded text determines the text |
| JsonRoundTrip.RoundTripExactly | tools/generate_dm011_vectors.py:123-143 | a printed value followed by anything reads back as that value and that rest, if and only if the rest does not glue a digit to a non-zero integer |
| JsonRoundTrip.GluedDigits | tools/generate_dm011_vectors.py:131-132 | the exception is real: 5 followed by "3" reads as 53 |
| JsonRoundTrip.WriteCheckHolds | tools/generate_dm011_vectors.py:759-762 | the round-trip assertion before a file is written never fails |
| JsonRoundTrip.TextDeterminesValue | tools/generate_dm011_vectors.py:123-143 | two values print alike if and only if they are equal, and only an integer's text is the start of another value's |
| JsonRoundTrip.BytesAreText | tools/generate_dm011_vectors.py:123-143 | the bytes joined by the printer are the UTF-8 encoding of the canonical text |
| JsonRoundTrip.BytesDetermineValue | tools/generate_dm011_vectors.py:123-143 | printed bytes are equal if and only if the values are |
| SourceSelection.OmittedExactly | tools/export_being.py:205-208 | the reason given is that of the first omission holding the path, and there is one exactly if some omission holds it |
| ExportRules.ScopeExactly | tools/export_being.py:200-214 | a path has the reason of the first omission that holds it; otherwise it is selected exactly if an anchor holds it or, for a directory, lies below it |
| ExportRules.ExcludedExactly | tools/export_being.py:128-152 | a path is refused for the first that applies, each spelled out: names of credentials, `.git`, names of what can be rebuilt, sidecars of databases |
| ExportRules.SafeExactly | tools/export_being.py:91-103 | a recorded name is safe if and only if it is the text of a path without a backslash or a colon |
| ExportRules.SelectionExactly | tools/export_being.py:155-197 | every fault of a selection has its own condition, in the order of the checks |
| SourceSelection.AnchorsAreSelected | tools/export_being.py:155-197 | a selection that passes validation never drops one of its own anchors |
| SourceSelection.ScopeReachesDown | tools/export_being.py:200-214 | every directory above a selected path is itself selected, so pruning by scope loses nothing |
| SourceSelection.ExcludedAbove | tools/export_being.py:128-152 | above a path that is not excluded, a directory is excluded exactly for a name that is refused where it stands last |
| SourcePaths.UnderComparable | tools/export_being.py:207-213 | two paths that hold a third are comparable |
| SourcePaths.TextInjective | tools/export_being.py:250-254 | different locations have different recorded paths |
| ExportWalkFates.WalkReports | tools/export_being.py:246-322 | the walk's two lists hold exactly the kept and the dropped paths, each once and with its reason, as found by following each path alone; it fails exactly if some reached path does |
| ExportWalkFates.InventoryIsSorted | tools/export_being.py:320-322 | the lists returned ascend strictly by recorded path and hold just what the walk found |
| ExportSelected.FateAlong | tools/export_being.py:246-260 | a path is passed over exactly when the walk stopped at a directory above it; otherwise only its own directory decides |
| ExportRules.DirFateExactly | tools/export_being.py:217-260 | what becomes of a directory, or of a link to one, by its own path |
| ExportRules.SidecarExactly | tools/export_being.py:261-274 | a file is a sidecar exactly if it is a write-ahead file of a listed database beside it |
| ExportRules.FileFateExactly | tools/export_being.py:261-319 | what becomes of a file, a link or anything else that is no directory |
| ExportSelected.EveryNodeIsAccountedFor | tools/export_being.py:246-322 | every node that is not a directory is exactly one of listed, omitted, or below an omitted directory |
| ExportSelected.SelectedExactly | tools/export_being.py:246-322 | a file is listed if and only if its own path gives no reason, it is no sidecar of a listed database, and no directory above it bears a refused file name |
| ExportSelected.ProfilesNeedAnchors | tools/export_being.py:217-231 | a listed file below a profiles directory lies in a profile that has an anchor of its own |
| ExportSelected.RefusedNameLosesFiles | tools/export_being.py:128-137 | a file below a directory called `.key` is lost although nothing refuses the file itself |
| ExportInventory.ExpectedAreSidecars | tools/export_being.py:261-274 | because names are sorted, the set of expected sidecars decides exactly the files beside a listed database |
| ExportInventory.InventoryState.VisitDirs | tools/export_being.py:247-260 | the directory loop records refused directories and keeps the others |
| ExportInventory.InventoryState.VisitFiles | tools/export_being.py:261-319 | the file loop appends what each file's fate says and extends the expected sidecars |
| ExportInventory.InventoryState.Visit | tools/export_being.py:246-319 | the recursive walk over growing lists adds what the walk function says |
| ExportInventory.TakeInventory | tools/export_being.py:234-322 | the whole inventory equals its specification, failures included |
| ExportRules.InventoryExactly | tools/export_being.py:234-322 | what the inventory refuses at once, and that it is otherwise the walk in order |
| ExportScan.WindowIsSlice | tools/export_being.py:480-505 | the carried overlap is the last 4096 bytes read or all of them, and offsets in a window are true file positions |
| ExportScan.SeenExactly | tools/export_being.py:480-505 | a run of bytes is shown whole by some window exactly if it starts at most 4096 bytes before the chunk of its last byte |
| ExportScan.ShortRunsAreSeen | tools/export_being.py:480-505 | however the file is cut, every run of at most 4097 bytes is shown whole |
| ExportScan.BytewiseExactly | tools/export_being.py:480-505 | read a byte at a time, the scan shows exactly the runs of at most 4097 bytes |
| ExportScan.BoundaryRunIsMissed | tools/export_being.py:480-505 | at every chunk boundary beyond the overlap, the run of 4098 bytes that ends one byte after it is shown by no window |
| ExportScan.LongRunsCanBeMissed | tools/export_being.py:480-505 | read in blocks of 1 MiB, every longer file has such a run at its first block boundary |
| ExportScan.Scan | tools/export_being.py:474-505 | the loop refuses a file exactly if some window, taken as a slice of the file at its true offset, has a refused match |
| ExportScan.NothingIsMissed | tools/export_being.py:474-505 | a match of at most 4095 bytes that a scan of the whole file refuses is never missed, even if the pattern looks at the bytes beside it |
| ExportScan.ScansExactly | tools/export_being.py:474-505 | for such patterns the scan refuses what a scan of the whole file refuses, and beyond that only matches at the edge of a window, beside which it cannot see |
| ExportScan.EdgesCanAlarm | tools/export_being.py:474-505 | such a refusal without cause is real: in every file whose only `x` is the last byte of the first 1 MiB block, inside a word, a pattern for words that end in `x` is refused though none does |
| ExportScan.WindowsAreEnough | tools/export_being.py:474-505 | for patterns of at most 4097 bytes that do not look beside their match, the scan refuses exactly the files that hold a refused match |
| ChatLink.Planner.Append | tools/chat_link.py:299-331 | adds the author's next draft on top of that author's last event and keeps both authors' chains |
| ChatLink.MakePlan | tools/chat_link.py:366-547 | the plan follows the script, each author's events continue that author's ledger head without a gap, every event named is reused or drafted earlier, and what else a draft says is what is given for its author and kind |
| ChatLink.ScriptLength | tools/chat_link.py:366-547 | a plan has nine events and one more for each author without a reusable card |
| ChatLinkRules.ScriptExactly | tools/chat_link.py:366-547 | what stands at each position of a plan: its author, its kind and the events it names |
| ChatLinkRules.DraftsExactly | tools/chat_link.py:299-331 | drafts are numbered and linked per author on the head of that author's ledger, and the local author's are signed |
| ChatLinkSigning.SignProposals | tools/chat_link.py:656-749 | the signing loop, with its running sequence and tip, returns the signed plan or the first failure |
| ChatLinkSigning.SignsExactly | tools/chat_link.py:703-749 | it succeeds if and only if every event passes its own checks and the local drafts continue the chain, and then changes nothing but the local signatures |
| ChatLinkSigning.SignedExactly | tools/chat_link.py:656-749 | what stops the signing of any plan, the first event and the first check, an expired plan and a foreign identity among them; otherwise exactly the local author's events become signed |
| ChatLinkSigning.PlansCanBeSigned | tools/chat_link.py:656-749 | on an unchanged head a plan is never refused for its length, its chain, its scope or its hashes, and the remote author can sign exactly the plans with valid payloads |
| ChatLinkSigning.SigningKeepsChains | tools/chat_link.py:727-749 | signing leaves both chains as they were |
| ChatLinkInstall.TipDeterminesLedger | src/daimon_matrix/ledger.py:1748-1769 | two ledgers with one tip are the same, following the predecessors back |
| ChatLinkRules.HeadExactly | src/daimon_matrix/ledger.py:1748-1769 | the head of a ledger is its last event with that event's number |
| ChatLinkInstall.GuardExactly | tools/chat_link.py:967-978 | installation goes on if and only if the ledger is the one the plan was made on, extended by a prefix of the author's own events |
| ChatLinkInstall.RetryCompletes | tools/chat_link.py:967-1086 | after any partial ingest a retry passes the guard and ends with the same ledger |
| ChatLinkRules.PageExactly | src/daimon_matrix/ledger.py:1410-1426 | a page is refused for an event that does not verify, then for its order, then for a repetition |
| ChatLinkRules.IngestExactly | src/daimon_matrix/ledger.py:1428-1603 | ingesting any page into any ledger adds all new events if every one fits on what is there, and otherwise nothing, for what is wrong with the first that does not |
| ChatLinkInstall.Ledger.TakeIn | src/daimon_matrix/ledger.py:1410-1603 | ingesting adds all missing events of a page, or refuses and changes nothing |
| ChatLinkInstall.Ledger.Install | tools/chat_link.py:958-1086 | on a head that the plan does not know, nothing happens to the ledger |
| ChatLinkEnrollment.PlanInstalls | tools/chat_link.py:967-1086 | a plan made on two ledgers and signed by the remote author passes the guard on either ledger, and installs whole, after any partial ingest of the author's own part |
| ChatLinkEnrollment.Enroll | tools/chat_link.py:366-1086 | planning, signing and installing in turn appends to each ledger exactly its author's part of the plan, or, exactly for an invalid payload, changes neither ledger |
| ConfigLeaves.LeavesExactly | tools/behavior_inventory.py:62-70 | the leaves are exactly the scalars of the tree, each under its own path |
| ConfigLeaves.LeavesAreDistinct | tools/behavior_inventory.py:62-70 | no path is yielded twice |
| ConfigLeaves.LeavesArePrefixFree | tools/behavior_inventory.py:62-70 | no leaf's path is a prefix of another's |
| ConfigLeaves.InputDeclaration | tools/behavior_inventory.py:252-266 | the walk answers with the value at the key, with the scalar met above it, or with nothing if there is neither |
| ConfigLeaves.DeclarationIsUnique | tools/behavior_inventory.py:252-266 | for each key exactly one answer satisfies that description |
| ConfigLeaves.LookupMeetsLeaves | tools/behavior_inventory.py:252-266 | looking up a leaf's path finds exactly that leaf, and an ancestor is answered if and only if a leaf's path is a proper prefix of the key, and then it is that leaf |
| Decimal.ToNatOfNat | tools/behavior_inventory.py:66-67 | a list position's numeral is canonical and reads back as the position |
| Decimal.OfNatToNat | tools/behavior_inventory.py:260-262 | a canonical numeral is the one that its number prints as |
| ConfigText.TomlValueReads | tools/install_codex_identity.py:39-62 | writing a value fails exactly on a float that is not finite or an integer of more than 4300 digits, anywhere inside; what is written, lists and inline tables included, reads back as the value before anything that cannot lengthen it, if and only if none of its strings holds a raw U+007F |
| ConfigText.RefusedExactly | tools/install_codex_identity.py:39-62 | what cannot be written: integers of more than 4300 digits, the floats `inf`, `-inf` and `nan`, and lists and inline tables with one of these inside |
| ConfigText.LongNumberIsRefused | tools/install_codex_identity.py:44-45 | there are integers that cannot be written |
| ConfigText.DocumentReads | tools/install_codex_identity.py:65-82 | the text of any lines splits back into them and each reads back, if and only if no string in them holds a raw U+007F |
| ConfigRoundTrip.ReadBack | tools/install_codex_identity.py:65-82 | reading the printed lines gives the same tables, with one-line values moved before sub-tables and empty tables kept |
| ConfigLayout.LayoutExactly | tools/install_codex_identity.py:68-77 | a blank line stands exactly before every header, and the tables come in depth-first order |
| ConfigInstall.NormKeepsMeaning | tools/install_codex_identity.py:79-81 | moving them changes nothing in the dictionary that Python compares |
| ConfigInstall.ConfigBytesExactly | tools/install_codex_identity.py:65-82 | printing a dictionary fails exactly if a value cannot be written or, as text that is not TOML, if a string holds a raw U+007F; its round-trip check never finds a difference |
| ConfigInstall.DeleteIsLost | tools/install_codex_identity.py:39-41 | the second exception is real: TOML reads the character escaped, the printer writes it raw, and that does not read |
| ConfigInstall.InfinityIsRefused | tools/install_codex_identity.py:46-49 | so is the first: `x = inf` parses and can be updated, and rendering over it fails |
| ConfigInstall.UnprintableStops | tools/install_codex_identity.py:117-132 | a value that cannot be written, under a key that the installer leaves alone, stops it |
| ConfigInstall.ReprintsAlike | tools/install_codex_identity.py:65-82 | printing what was read back gives the same lines |
| ConfigInstall.ApplyExactly | tools/install_codex_identity.py:117-130 | the settings can be applied if and only if the limit compares with a number and the two tables, if there, are tables |
| ConfigInstall.ApplyIsSettled | tools/install_codex_identity.py:117-130 | the outcome is a dictionary in which the settings need no further change, and every other top-level setting is as it was |
| ConfigSettings.SettingsInForce | tools/install_codex_identity.py:117-130 | key by key: the model, provider, effort, policy and sandbox are the ones asked for, the limit is at least 32768 and the old one if that was, five features are off, and every other setting, at the top and inside the two tables, is as it was |
| ConfigSettings.InstalledExactly | tools/install_codex_identity.py:85-132 | the rendered text reads as the original with every setting under its own name as wanted, and nothing else changed but the order inside tables |
| ConfigSettings.AppliesExactly | tools/install_codex_identity.py:117-130 | the settings can be applied exactly if the limit can be compared with a number and the two tables are tables where they are there |
| ConfigSettings.KeysStayInPlace | tools/install_codex_identity.py:117-130 | keys that were there keep their places, and new ones come after them in the order in which they are set |
| ConfigInstall.RenderSettles | tools/install_codex_identity.py:117-132 | rendering over what was rendered from any dictionary that the parser may give, however its text was written, gives the same bytes |
| ConfigInstall.RenderIsIdempotent | tools/install_codex_identity.py:85-132 | rendering any text succeeds if and only if it parses, its values can be updated, and the outcome can be written and is free of raw U+007F; and rendering the outcome again gives the same bytes |
| ConfigInstall.ReaderReadsToml | tools/install_codex_identity.py:80 | what is assumed of the parser can be met: the reader of this model, kept to well-formed dictionaries, meets it |
| ConfigInstall.Printer.PrintTable | tools/install_codex_identity.py:65-77 | the recursive printer appends exactly the lines of the table to the shared list, or fails exactly if a value cannot be written |
| ConfigInstall.CodexHome.Install | tools/install_codex_identity.py:157-213 | reports a change exactly if a file would differ, writes both files only when asked to, and changes nothing on failure |
| ConfigInstall.CodexHome.InstallTwice | tools/install_codex_identity.py:157-213 | after a successful installation over any original a second one reports no change; after a failed one it fails alike |

## Left out

- Concurrency inside a handler: each handler call, sweep step and refresh is one atomic step. A crash between posting a
  receipt and setting the label, and two handlers interleaving on one issue, are not modelled.
- Runs in `CoordinationRuns` do not close an issue, relabel it or edit trusted comments while its head is active; what
  happens then is the subject of `CoordinationVisibility.HandledExclusionExactly`, `CoordinationDrift.SweepExactly` and
  `CoordinationExample`.
- Signatures, the registry of principals and the JSON shape of commands and receipts: a request carries the verdict of
  parsing and verifying. Digest text is opaque, so the shape of its base64 form is not checked.
- AsciiText.CanonicalBytesDetermineValue: sorts keys by UTF-16 units where `canonical_json` of the coordination module
  sorts them by code points; on ASCII keys, which are all that it is given, the orders are the same.
- ReceiptText.DigestIsCollisionFree: receipts read from trusted accounts are taken to spell their times as
  `format_timestamp` does.
- GitHub calls, pagination and the text of comments: the remote is issue logs, labels, runs and pull requests. The list
  of blockers is an input. The `note` and `session_key` fields of receipts carry no rule and are not modelled.
- Time formats and the year range of timestamps: times are unbounded integers.
- Error texts: failures are enumerations. The texts of overlap findings are index pairs.
- AuditRerun.ExactlyOneRerun: does not model a pull request whose own head, body or eligibility is taken back, a newer
  run of it, or a rerun requested by hand, because the repository promises nothing about the rerun then; the second read
  before the request equals the first, since a refresh is atomic. Runs and pull requests are values, not objects updated
  in place, because they belong to GitHub.
- Floats, white space and escaped surrogates, which Python's JSON parser also reads: `JsonReader` refuses them, and the
  canonical text has none.
- Everything else in `tools/generate_dm011_vectors.py`, the other vector generators and the check scripts: fixed
  tables and shape checks with only easy properties.
- ExportWalkFates.WalkReports: visits subdirectories in sorted order where the operating system chooses; the order only
  decides which of several failures is reported.
- Lower-casing in `excluded` and blank omission reasons use the ASCII letters and spaces; Python also knows those of
  Unicode.
- Field types of a selection, file permissions, SQLite backups, archives, JPEG tables, Python references and dotenv
  files: the export model starts from typed selections and a fixed tree.
- ExportScan.Scan: does not model the syntax of regular expressions; a pattern with its exemptions is any rule about a
  run, the bytes beside it and its true position, so the choice among overlapping matches is not covered.
- ChatLink.MakePlan: does not model the contents of payloads beyond the events they name, nor the verification of
  reused cards.
- ChatLinkInstall.Ledger.TakeIn: does not model several lanes, page limits and conversation evidence of the ledger; the
  chat link feeds it one author's lane.
- ChatLinkInstall.Ledger.Install: does not model the relationship store, routes, keys, visibility and runtime files,
  which are other programs' state.
- ConfigText.TomlValueReads: does not compute the spelling of floats, dates and times; such a value is its spelling,
  compared as text. Only its number is looked at, through a parameter, where the installer takes a maximum. The limit of
  digits is the interpreter's default one; limits of its stack on deeply nested values are not modelled.
- ConfigInstall.ConfigBytesExactly: does not model the rest of TOML: the parser is a parameter, and it may read any text
  that is not printed as it likes, as long as it gives a well-formed dictionary.
- ConfigInstall.CodexHome.Install: does not model locking, backups, restoring after a failed write, and the override
  file; the instructions arrive put together.
