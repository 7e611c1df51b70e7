# Verification of the decision logic

A Dafny model of the parts of this repository that decide something on their own, behind injected
callbacks: what a vulnerable range means and whether a pinned floor is safe, which contacts a sweep
may merge, where evidence blocks begin and end, how changelog fragments are folded in, which number a
digest item answers to, when a mail request may be sent again, what is left of a mail's HTML, whether
cached identities are current, and whether the audit log is intact.

Each imperative routine is a method or a class with the loops of the original, proved equal to a
specification function; what the original promises is then proved about those functions, for all
inputs, runs and interleavings. Beside those laws stand results that say outright what is computed:
over the answers of the registry and the databases, the log of a sweep, the characters of a text.
Everything read from outside (registries, clocks, classifiers, servers, hashes, stores that may refuse
a write) is a parameter and may behave in any way.

| files | component |
|---|---|
| `Common`, `Sorting`, `Text` | options and results, the stable sort, the string vocabulary |
| `Semver`, `SemverWindows`, `AdvisoryRanges`, `AdvisoryRangeMeaning`, `AdvisoryRefusals`, `AdvisoryReading`, `AdvisoryAlternatives`, `AdvisoryEnds` | releases and comparators; free-form range text to an OR of AND-groups, and what the groups mean |
| `OverrideAudit`, `OverrideAuditTheorems`, `OverrideAuditAnswers`, `OverrideAuditVerdicts`, `OverrideAuditOverTime` | the override-floor auditor |
| `DedupSweep`, `DedupSweepTheorems`, `DedupSweepDecisions` | the contact dedup sweep |
| `EvidenceDoc`, `EvidenceTheorems`, `EvidenceRoundTrip`, `EvidenceReading` | printer, parser and retention trimmer of the evidence document |
| `Changelog`, `ChangelogTheorems`, `ChangelogAssembly`, `ChangelogLayout` | parser, renderer, validator and assembler of the changelog |
| `DigestNumbers`, `DigestRuns`, `DigestOrder`, `DigestWrites` | the digest's number allocator, and runs of its two writers |
| `NylasClient`, `NylasPacing`, `PlainText`, `PlainTextTheorems`, `PlainTextContent` | retry loop, page walk, and HTML to text |
| `IdentityRefresh` | the generation guard over overlapping refreshes |
| `AuditChain` | the paginated hash-chain walk |

`dafny verify dfyconfig.toml` checks the project.

## Where the code and its documentation part

The model follows the code. Five promises hold only under a condition; each condition is proved exact,
and each failure has a concrete witness.

- Range grouping is documented to fail only towards over-matching. A release can be lost where a bound
  is taken for the partner of the bound before it: a bare upper and a lone lower bound side by side that
  overlap (`<5 >=3`, `LoneBoundsExactly`); a pair with a gap after an open upper bound (`<5 >=3 <2`,
  `CrossedPairExactly`); the cap of a pair so taken, before a lone lower bound (`<5 >=3 <8 >=7`,
  `LongerTextLoses`); and, by design, a version directly before a bare upper bound (`1.2.0 <3`,
  `VersionBeforeCapExactly`). Apart from that last reading, every loss in any accepted text lies in the gap
  of such a step (`LossOnlyInGaps`), and the promise holds for a text exactly if none of the finitely many
  ends of its own bounds is named, in a gap and not read (`UnderMatchExactly`). What is matched too many
  comes from empty pairs (`OverMatchExactly`), and the two together decide whether the text is read as
  its union (`RecoveredExactly`).
- The evidence trimmer promises to keep any text before the first block. It drops a preamble whose
  first line looks like a bare header above an older stamp (`PreambleKeptExactly`, `PreambleLost`).
- A printed blank subject is read back as the recipients line (`SubjectReadsBackExactly`,
  `MissingSubjectReadsRecipients`).
- The digest writer calls a stored mark without a stored digest harmless. It renumbers items that
  carry no number yet, so a number already shown moves (`NumberMovesExactly`, `ShownNumberCanMove`).
- Overlapping identity refreshes are to leave the fresh rows in the cache. Whatever the last mutation
  writes, the holders show it exactly if some refresh that read after the mutation finishes before
  another one starts (`CatchesUpExactly`). If the newest refresh's read fails, an older one that did
  read the new rows can have been discarded, and the cache stays behind (`FailureLosesAFreshRead`).

Smaller ones: assembling a changelog whose Unreleased heading is the first line adds a blank line
above it, and a negative `maxScan` is not a ceiling but cuts from the end.

## Model

| member | source | states |
|---|---|---|
| `AdvisoryRanges.TokenizeAtoms` | scripts/audit-override-floors.ts:482-531 | the token loop produces the atom list `Tokenized`: hyphen windows (spaced and unspaced) as one atom, caret and tilde windows kept, bare versions exact |
| `AdvisoryRanges.NormalizeAdvisoryRange` | scripts/audit-override-floors.ts:580-656 | the whole grouping loop over all hard groups, with its four ways to refuse a text (nothing to read, a group without atoms, not semver, an alternative no release matches), equals `Normalized` |
| `Semver.MinVersionDecides` | scripts/audit-override-floors.ts:533-542 | `isSatisfiable` is a decision procedure: `minVersion` exists iff some release satisfies all comparators, and it is then the least such release |
| `Semver.FullOperandMeaning` | scripts/audit-override-floors.ts:1035-1037 | on a full version the operators are the plain comparisons of the release order (partial versions go through their floor and next release) |
| `SemverWindows.BoundsMean` | scripts/audit-override-floors.ts:1035-1037 | `>=`, `>`, `<`, `<=`, `=` and hyphen ranges on full and partial operands, by the releases an operand stands for and the component-wise order |
| `SemverWindows.CaretMeans` | scripts/audit-override-floors.ts:1035-1037 | `^`: not before the operand and equal to it up to its first component that is not zero, for one, two and three components |
| `SemverWindows.TildeMeans` | scripts/audit-override-floors.ts:1035-1037 | `~`: not before the operand and equal to it in major and, where given, minor |
| `SemverWindows.EarlierIsLt` | scripts/audit-override-floors.ts:785-789 | the release order: the first component in which two releases differ decides, and any two releases compare |
| `AdvisoryRangeMeaning.GroupingConserves` | scripts/audit-override-floors.ts:583-636 | for arbitrary atoms each group has at most one lower and one upper bound (or is one window or version), and the groups in order are exactly the rewritten atoms, none lost, copied or moved |
| `AdvisoryRangeMeaning.RejectedExactly` | scripts/audit-override-floors.ts:580-656 | a text is refused iff it has no group, a group has no atom, or one comparator alone matches no release; it is refused as not semver iff one comparator is unreadable; joining bounds never makes a range unreadable and no accepted group is empty |
| `AdvisoryRangeMeaning.DeadComparators` | scripts/audit-override-floors.ts:646-654 | which single comparators match no release at all: `<0.0.0`, a backwards hyphen window, an unreadable token; nothing else |
| `AdvisoryRefusals.RefusedAs` | scripts/audit-override-floors.ts:580-656 | which of the four refusals a text gets: nothing to read, a group without tokens, an unreadable comparator, or a comparator no release matches |
| `AdvisoryRefusals.GarbledIsRefused` | scripts/audit-override-floors.ts:638-645 | one operand that cannot be read, wherever it stands, refuses the whole text |
| `AdvisoryRefusals.HyphenEnds` | scripts/audit-override-floors.ts:482-531 | a spaced hyphen between two versions, either with a leading `=`, is one window; with any other operator it is unreadable |
| `AdvisoryReading.GroupsReadExactly` | scripts/audit-override-floors.ts:590-635 | for arbitrary atoms the groups accept exactly what a left-to-right reading accepts that remembers one waiting bound and pairs it with the next opposite bound it meets |
| `AdvisoryReading.TextReadsExactly` | scripts/audit-override-floors.ts:580-656 | the same for every accepted text of any tokens, across hard boundaries |
| `AdvisoryAlternatives.TokenizeSpelling` | scripts/audit-override-floors.ts:482-531 | every spelling of a list of alternatives tokenizes to the atoms of those alternatives, in order |
| `AdvisoryAlternatives.UnionRecovered` | scripts/audit-override-floors.ts:583-656 | main result: any list of non-empty alternatives, in any order, spelling and overlap, across hard boundaries, with no version directly before a bare upper bound and no harmful step, is accepted, and the OR of the groups admits exactly the union of the alternatives |
| `AdvisoryAlternatives.LossOnlyInGaps` | scripts/audit-override-floors.ts:583-656 | for every text, empty and crossed alternatives included, a release that is named is accepted or lies in a gap; a gap is what a bound loses by being taken for the partner of the bound before it, given as an interval |
| `AdvisoryAlternatives.HarmlessTextExactly` | scripts/audit-override-floors.ts:583-656 | a text has a gap at all iff a harmful step stands in it, read off its bounds from left to right |
| `AdvisoryEnds.UnderMatchExactly` | scripts/audit-override-floors.ts:451-455 | the documented failure direction, for every text, empty and crossed pairs included: no release that is named is dropped iff none of the finitely many ends of the bounds written is named, in a gap and unread; without a harmful step it always holds |
| `AdvisoryEnds.OverMatchExactly` | scripts/audit-override-floors.ts:451-455 | the other direction, for every text: nothing is matched too many iff none of those ends is read, in the excess of an empty pair and not named |
| `AdvisoryEnds.RecoveredExactly` | scripts/audit-override-floors.ts:583-656 | the union of any accepted text is recovered iff no end is dropped and none added; if no alternative is empty, iff every end in a gap is read by the rest of the text |
| `AdvisoryEnds.EndStandsFor` | scripts/audit-override-floors.ts:583-656 | why finitely many ends decide: every release is named, read, in a gap or in an excess just as one of the ends is |
| `AdvisoryAlternatives.AlternativeStep` | scripts/audit-override-floors.ts:616-634 | one alternative: what it and the waiting bound name is read or lies in its gap, so a lower bound that joins an open upper bound loses nothing once its own cap closes the gap |
| `AdvisoryAlternatives.CappedAlternatives` | scripts/audit-override-floors.ts:583-656 | for bare upper bounds, pairs (explicit or implied lower) and hyphen, caret or tilde windows no step is harmful, so the union is recovered with no condition on which stand next to each other |
| `AdvisoryAlternatives.LoneBoundsExactly` | scripts/audit-override-floors.ts:616-634 | a bare upper bound and a lone lower bound side by side, in either order, are read as their union iff they have no release in common |
| `AdvisoryAlternatives.SameTextAsPair` | scripts/audit-override-floors.ts:603-607 | why a version directly before a bare upper bound is kept out of the union results: its spelling, or with `=` its atoms, are those of one lower-upper pair |
| `AdvisoryAlternatives.CrossedPairExactly` | scripts/audit-override-floors.ts:616-634 | a bare upper bound before a pair, explicit or implied: if the lower bound falls below the first cap the union is recovered iff the pair leaves no gap, otherwise iff the pair is not empty |
| `AdvisoryAlternatives.VersionBeforeCapExactly` | scripts/audit-override-floors.ts:603-607 | a version directly before a bare upper bound, meant as two alternatives, is recovered iff it covers 0.0.0 and lies below the cap |
| `AdvisoryAlternatives.LongerTextLoses` | scripts/audit-override-floors.ts:616-634 | the witness `<5 >=3 <8 >=7`: three non-empty, uncrossed alternatives, and 1.0.0 is lost to the cap of the pair |
| `OverrideAudit.CollectAdvisories` | scripts/audit-override-floors.ts:1052-1099 | the collection with its early exits and two merging loops equals `Collected`, which `CollectedExactly` gives in terms of the answers |
| `OverrideAuditAnswers.CollectedExactly` | scripts/audit-override-floors.ts:1052-1099 | in terms of the answers alone: the collection fails iff a read failed; otherwise it holds, for every id in whatever letter case, the last global record or, where there is none, the first upstream one, and nothing else; an unknown or reduced upstream leg leaves the global records and a note unless declared |
| `Text.CaseFolds` | scripts/audit-override-floors.ts:1090-1097 | letter case: the twenty-six letters, each with its partner, and nothing else |
| `OverrideAuditAnswers.ValidatedExactly` | scripts/audit-override-floors.ts:1025-1033 | validation fails iff some collected advisory has a text that is refused, and names the first such advisory |
| `OverrideAuditAnswers.HitMeans` | scripts/audit-override-floors.ts:832-863 | a release is hit iff some collected advisory without an exception under its id has a text that accepts it |
| `OverrideAuditTheorems.GlobalRecordWins` | scripts/audit-override-floors.ts:1084-1098 | the merged list has one record per upper-cased id: the last global record if there is one, else the first upstream record |
| `OverrideAudit.FindVulnerable` | scripts/audit-override-floors.ts:852-863 | the nested loop over advisories and admitted releases computes the tally |
| `OverrideAuditTheorems.AdmittedExactly` | scripts/audit-override-floors.ts:785-789 | the admitted list is ascending and holds exactly the published releases the floor accepts |
| `OverrideAuditTheorems.TallyExactly` | scripts/audit-override-floors.ts:852-863 | a version is counted vulnerable iff it is admitted and some effective advisory range accepts it |
| `OverrideAuditTheorems.SafeVersionLeast` | scripts/audit-override-floors.ts:867-879 | the safe version is the least admitted version from which every admitted version is clean; it is absent iff the highest admitted version is vulnerable |
| `OverrideAuditTheorems.RenderedFloorNarrows` | scripts/audit-override-floors.ts:663-675 | with a `>=` or `^` token everything the rendered floor admits was admitted before and is at or above the safe version, including `^0.y.z` and `^0.0.z` windows |
| `OverrideAuditTheorems.RenderedFloorAdmitsSafe` | scripts/audit-override-floors.ts:663-675 | the rendered floor admits the safe version it was built around |
| `OverrideAuditTheorems.RenderedFloorExactly` | scripts/audit-override-floors.ts:663-675 | the rendered floor admits only what the original did iff the specifier has a `>=` or `^` token or nothing bounds it from above |
| `OverrideAuditTheorems.RenderedFloorIsSound` | scripts/audit-override-floors.ts:867-879 | under the rendered floor no published release that matched an advisory is admitted |
| `OverrideAudit.JudgeQuarantine` | scripts/audit-override-floors.ts:892-932 | the loop over clean versions with its early exits equals `JudgeFrom` |
| `OverrideAuditTheorems.JudgeExactly` | scripts/audit-override-floors.ts:892-932 | the loop says waiting iff every candidate has a known expiry after now, and then reports the least one with its version |
| `OverrideAuditTheorems.QuarantinedExactly` | scripts/audit-override-floors.ts:881-946 | a finding is quarantined iff a quarantine is set, a clean version exists and every clean version has a known expiry after now; the time reported is the minimum and belongs to the version reported |
| `OverrideAuditTheorems.QuarantineClears` | scripts/audit-override-floors.ts:974-1013 | with an unchanged registry the verdict stays quarantined, with the same instant, until that instant and is stale from it on |
| `OverrideAudit.JudgeRemedy` | scripts/audit-override-floors.ts:867-946 | from the finding to stale or quarantined |
| `OverrideAudit.TestAdmitted` | scripts/audit-override-floors.ts:813-946 | from the collected advisories to the verdict |
| `OverrideAudit.AuditOverride` | scripts/audit-override-floors.ts:782-949 | one turn of the loop: every throw, continue and push as one verdict with its notes |
| `OverrideAudit.AuditEntries` | scripts/audit-override-floors.ts:781-950 | the loop over the overrides fills the report as `FileAll` does |
| `OverrideAudit.AuditOverrideFloors` | scripts/audit-override-floors.ts:725-972 | the whole audit equals `Audit` |
| `OverrideAuditTheorems.CleanExactly` | scripts/audit-override-floors.ts:782-865 | an override is clean iff its floor is readable, everything it needs was read, some release is admitted and none is hit by an effective advisory |
| `OverrideAuditTheorems.CleanIsSound` | scripts/audit-override-floors.ts:782-865 | clean means no published release the floor admits matches any collected, non-allowlisted advisory |
| `OverrideAuditTheorems.FindingMeans` | scripts/audit-override-floors.ts:844-879 | a finding carries the admitted releases, exactly the matched ones, and a floor from the first clean one |
| `OverrideAuditTheorems.FileAllFiles` | scripts/audit-override-floors.ts:781-950 | every override's verdict is in the list of its kind |
| `OverrideAuditTheorems.FileAllCounts` | scripts/audit-override-floors.ts:781-950 | every verdict is filed exactly once: the lists are in number the verdicts of each kind, errors plus checked is all of them |
| `OverrideAuditTheorems.VerdictRecord` | scripts/audit-override-floors.ts:844-945 | a verdict carries its own override's whole record (key, subject, floor, admitted releases), and a quarantine reported has not expired |
| `OverrideAuditTheorems.QuietMeansCovered` | scripts/audit-override-floors.ts:1060-1082 | no coverage note means the upstream leg was read or declared away |
| `OverrideAuditTheorems.ExitZeroExactly` | scripts/audit-override-floors.ts:728-777 | the exit code is 0 iff the policy, the release age and the overrides block are valid and every override is clean or quarantined with no note |
| `OverrideAuditTheorems.ExitZeroIsSound` | scripts/audit-override-floors.ts:781-972 | main result: after exit 0 every override's record is in the checked list, and each one is reported quarantined under that record with an unexpired time or admits no published release that matches any collected, non-allowlisted advisory, with full coverage |
| `OverrideAuditVerdicts.VerdictExactly` | scripts/audit-override-floors.ts:782-946 | main result for one override, over the answers of the registry and both databases: clean iff no offered release is covered by an advisory in force, quarantined iff a fix exists and every release with it is under the release age, stale otherwise; the finding lists exactly the covered releases, the advisories that cover them and the floor raised to the least fix, and the quarantine its first end and release |
| `OverrideAuditVerdicts.ErrorExactly` | scripts/audit-override-floors.ts:782-827 | an override is an error iff its floor, its releases, its advisories or their texts could not be read, nothing is offered, or silence is not declared; and which of these is reported |
| `OverrideAuditVerdicts.UnknownAgeNoted` | scripts/audit-override-floors.ts:905-918 | a finding is noted as of unknown age iff the first fixed release not known to wait has an unreadable publish time |
| `OverrideAuditVerdicts.EarlyErrors` | scripts/audit-override-floors.ts:728-777 | what is reported before any override is looked at: an exception without its reason or an unreadable workspace ends the run, a release age above a week is an error |
| `OverrideAuditVerdicts.ExitZeroFromAnswers` | scripts/audit-override-floors.ts:725-972 | main result: exit 0 iff every exception names its subject and gives a reason, the release age is at most a week, the workspace was read and every override passes by that rule with its upstream leg read or declared away |
| `OverrideAuditTheorems.SuggestionUnhit` | scripts/audit-override-floors.ts:867-879 | the suggested floor admits something and nothing any effective advisory matches |
| `OverrideAuditTheorems.ApplyingTheSuggestionIsClean` | scripts/audit-override-floors.ts:663-675 | writing the suggested floor into the workspace and auditing again over the same registry gives a clean verdict |
| `OverrideAuditTheorems.NoSuggestionExactly` | scripts/audit-override-floors.ts:872-879 | a finding has no suggested floor iff its highest admitted release is vulnerable |
| `OverrideAuditOverTime.ExitZeroExcludesNamed` | scripts/audit-override-floors.ts:725-972 | end to end: after exit 0 a published release an unquarantined floor admits lies in no alternative that a non-allowlisted advisory text spells, except inside the explicit gaps of that text; a text without a harmful step has none |
| `OverrideAuditOverTime.PassesLater` | scripts/audit-override-floors.ts:881-946 | an override that passes goes on passing, over an unchanged registry, exactly until the quarantine it rests on ends |
| `OverrideAuditOverTime.GreenUntilFirstExpiry` | scripts/audit-override-floors.ts:970-994 | a run that exits 0 goes on exiting 0, over an unchanged registry, exactly until the first of the instants it reports |
| `DedupSweep.DedupRun.constructor` | scripts/dedup-contacts.ts:157-222 | the run starts with the given snapshot, identities and zero counters |
| `DedupSweep.DedupRun.ReattachExclusionsInSnapshot` | scripts/dedup-contacts.ts:193-205 | re-pointing every exclusion of the secondary onto the primary, dropping the one between the two, in place |
| `DedupSweep.DedupRun.VisitPair` | scripts/dedup-contacts.ts:231-430 | one pair of the inner loop against `Visit`, whose decisions `EveryDecisionExplained` gives |
| `DedupSweep.DedupRun.MergePair` | scripts/dedup-contacts.ts:277-338 | the merge branch: survivor choice, dry run, failure, identity move, exclusion re-pointing |
| `DedupSweep.DedupRun.FileTask` | scripts/dedup-contacts.ts:339-429 | the task branch: score band, principal guard, existing tasks, caps, dry run, failure |
| `DedupSweep.DedupRun.Run` | scripts/dedup-contacts.ts:229-431 | the nested index loops visit the pairs in order |
| `DedupSweep.RunDedup` | scripts/dedup-contacts.ts:150-435 | the whole sweep, with failing loads aborting before any merge, equals `Sweep` |
| `DedupSweepDecisions.EveryDecisionExplained` | scripts/dedup-contacts.ts:229-431 | main result: every decision of any sweep is the one its classification calls for, given the identities, rulings and tasks the log before it leaves: a structural pair not ruled apart and without the principal is merged into the right survivor (or its merge failed), one with the principal or a fuzzy score inside the band asks for a task, the rest is skipped for its own reason |
| `DedupSweepDecisions.TasksAreCapped` | scripts/dedup-contacts.ts:362-379 | no task under noTasks and never more than maxTasks, dry or real |
| `DedupSweepDecisions.DecidedInOrder` | scripts/dedup-contacts.ts:229-240 | decisions are taken in the order of the contacts, first index before second, and none twice |
| `DedupSweepDecisions.LoadsFailClosed` | scripts/dedup-contacts.ts:168-215 | a failing load aborts before any decision, and fewer than two contacts are not looked at |
| `DedupSweepTheorems.KeyNames` | scripts/dedup-contacts.ts:224-227 | a canonical key names its two contacts whatever their order |
| `DedupSweepTheorems.MergeKeepsApart` | scripts/dedup-contacts.ts:193-205 | one merge of a pair that is not excluded keeps every ruling |
| `DedupSweepTheorems.RulingsSurviveTheSweep` | scripts/dedup-contacts.ts:180-343 | main result: over any sweep with chains of merges, classifier errors and merge failures, contacts ruled apart at the start never share a survivor, the snapshot contains the pair of their survivors, and every contact's survivor is alive |
| `DedupSweepTheorems.KindsPartition` | scripts/dedup-contacts.ts:229-431 | the decisions partition the visited pairs |
| `DedupSweepTheorems.SweepIsAccounted` | scripts/dedup-contacts.ts:217-431 | each visited pair is counted exactly once (or classified null), merges equal the contacts merged away, and a merged-away contact is never looked at again |
| `DedupSweepTheorems.SweepPreserves` | scripts/dedup-contacts.ts:271-343 | the principal is never merged, a contact with a graph node ends at a survivor with one, and in a real run each identity ends with its contact's survivor |
| `DedupSweepTheorems.MoveConserves` | scripts/dedup-contacts.ts:318-328 | moving identities between two contacts keeps the multiset of identities |
| `DedupSweepTheorems.IdentitiesConserved` | scripts/dedup-contacts.ts:312-338 | a whole sweep conserves the multiset of channel identities |
| `DedupSweepTheorems.EveryPairSettled` | scripts/dedup-contacts.ts:229-240 | every pair was decided or lost a member to a merge |
| `DedupSweepTheorems.DryRunPredictsRealRun` | scripts/dedup-contacts.ts:301-393 | when no callback fails and merging changes no classification, dry and real run decide every pair alike, so all counters, the snapshot and the merged-away set agree under any cap and score band |
| `EvidenceDoc.Keeps` | skills/_shared/sent-observe-match.ts:330-346 | the loop body keeps a part unless it is a block with a readable stamp before the cutoff |
| `EvidenceDoc.TrimParts` | skills/_shared/sent-observe-match.ts:328-347 | the loop keeps the parts in order |
| `EvidenceDoc.TrimEvidenceDoc` | skills/_shared/sent-observe-match.ts:319-350 | the trimmer equals `TrimmedDoc` |
| `EvidenceDoc.ExtractSection` | skills/_shared/voice-learn-logic.ts:48-64 | the marker scan with first or last terminator equals `SectionOf` |
| `EvidenceDoc.ParseBlock` | skills/_shared/voice-learn-logic.ts:28-43 | one block to at most one pair |
| `EvidenceDoc.ParsePendingDiffs` | skills/_shared/voice-learn-logic.ts:17-46 | the parser equals `Parsed` |
| `EvidenceReading.SignalExactly` | skills/_shared/voice-learn-logic.ts:66-96 | a pair carries signal iff a body has words, the words differ by more than letter case and white space, and, where both have words, at least 15 percent of their joint vocabulary is shared |
| `EvidenceReading.WordsOfSpaced` | skills/_shared/voice-learn-logic.ts:66-68 | the words of a text are those between its white space |
| `EvidenceReading.EveryTextIsSpaced` | skills/_shared/voice-learn-logic.ts:66-68 | every text is words kept apart by white space, so the signal rule covers all bodies |
| `EvidenceReading.StampExactly` | skills/_shared/sent-observe-match.ts:331-338 | the stamp of a part is what follows the first line that begins with its key, or nothing |
| `EvidenceReading.FieldExactly` | skills/_shared/voice-learn-logic.ts:33-34 | a field is what follows the first occurrence of its key anywhere |
| `EvidenceReading.NoMarkerNoSection` | skills/_shared/voice-learn-logic.ts:54-55 | a section whose marker is missing is empty |
| `EvidenceReading.SectionExactly` | skills/_shared/voice-learn-logic.ts:48-64 | a section is the trimmed text from its marker to the first, or last, line that begins with the terminator |
| `EvidenceReading.HeaderIdsExactly` | skills/_shared/voice-learn-logic.ts:28-32 | the ids are those of the first `draft … sent` in the header |
| `EvidenceReading.ParsedByBoundaries` | skills/_shared/voice-learn-logic.ts:17-64 | main result for any document at all: its pairs are those of its blocks in order, from one boundary to the next, a block giving one exactly if its header names two ids and its bodies carry signal; what stands before the first boundary gives none |
| `EvidenceReading.PrintedText` | skills/_shared/sent-observe-match.ts:263-285 | the printed block, line by line |
| `EvidenceReading.NoCutoffKeepsAll` | skills/_shared/sent-observe-match.ts:319-321 | a cutoff that is no date trims nothing |
| `EvidenceReading.PrintedGaps` | skills/_shared/sent-observe-match.ts:263-285 | how an empty body and a missing thread are printed |
| `EvidenceTheorems.SplitIsPartition` | skills/_shared/sent-observe-match.ts:328 | splitting at anchored headers loses no line and finds every boundary |
| `EvidenceTheorems.SplitOfFlatten` | skills/_shared/sent-observe-match.ts:328-349 | dropping whole blocks creates no boundary and hides none: the joined rest splits into the same parts |
| `EvidenceTheorems.SplitOfTrimmed` | skills/_shared/sent-observe-match.ts:319-350 | the trimmed document splits into exactly the kept parts |
| `EvidenceTheorems.TrimDropsExactly` | skills/_shared/sent-observe-match.ts:330-347 | the parts kept are the parts in order minus exactly those with a readable older stamp |
| `EvidenceTheorems.TrimComposes` | skills/_shared/sent-observe-match.ts:319-350 | trimming at two cutoffs in any order is trimming at the later one |
| `EvidenceTheorems.ParseOfTrimmed` | skills/_shared/voice-learn-logic.ts:17-46 | parser and trimmer agree on every document: parsing the trimmed text gives the pairs of the kept blocks |
| `EvidenceTheorems.PreambleKeptExactly` | skills/_shared/sent-observe-match.ts:311-347 | text before the first block survives iff it is not itself taken for an expired block, which happens exactly when its first line looks like a bare header and an older stamp stands below |
| `EvidenceTheorems.PreambleLost` | skills/_shared/sent-observe-match.ts:330-347 | a three-line document whose preamble, under an ISO stamp of 2020 and any later cutoff, is dropped against the documented promise |
| `EvidenceRoundTrip.PartIsBlock` | skills/_shared/sent-observe-match.ts:263-285 | a printed block is one block: anchored at its header and nowhere else |
| `EvidenceRoundTrip.SubjectReads` | skills/_shared/voice-learn-logic.ts:34 | a non-blank subject reads back trimmed; a blank one reads back as the recipients line |
| `EvidenceRoundTrip.SubjectReadsBackExactly` | skills/_shared/voice-learn-logic.ts:34 | the parser's subject field, and the subject of the pair parsed from the printed block, equal the trimmed subject iff it is not blank |
| `EvidenceRoundTrip.MissingSubjectReadsRecipients` | skills/_shared/voice-learn-logic.ts:34 | a concrete printable match without a subject, for which the parser finds the recipients line |
| `EvidenceRoundTrip.ParseInvertsPrint` | skills/_shared/voice-learn-logic.ts:17-64 | main result: parsing any preamble followed by any list of printed blocks gives each block's ids, stamp, subject and trimmed bodies in order, minus the pairs without signal, even with `---` lines or look-alike headers in a sent body |
| `EvidenceRoundTrip.TrimmedDocumentReads` | skills/_shared/sent-observe-match.ts:319-350 | trimming a printed document and parsing it gives the pairs of exactly the blocks whose stamp is unreadable or not older than the cutoff |
| `Changelog.ParseSections` | scripts/changelog-assemble.ts:75-111 | the line loop over section map, current section and open item equals `ScanAll` |
| `ChangelogLayout.HeadingSpelled` | scripts/changelog-assemble.ts:82-89 | three hashes, white space and a title, with any white space after it, are a heading with that title |
| `ChangelogLayout.HeadingExactly` | scripts/changelog-assemble.ts:82-89 | a section heading is three hashes, white space and at least one character more; a title of white space alone is its last character |
| `Changelog.AddMap` | scripts/changelog-assemble.ts:252-260 | merging one parsed map into another, title by title |
| `Changelog.MergeAll` | scripts/changelog-assemble.ts:248-260 | fragments in order, then the old Unreleased sections |
| `Changelog.Assemble` | scripts/changelog-assemble.ts:213-281 | the whole assembly with its four refusals equals `Assembled` |
| `ChangelogTheorems.ParseConserves` | scripts/changelog-assemble.ts:75-111 | under every title the parsed items read in order are exactly the text lines under that heading (all occurrences merged), the titles are exactly the headings, and the stray lines are those before any |
| `ChangelogTheorems.ParseOfRendered` | scripts/changelog-assemble.ts:184-193 | parsing rendered sections gives the normal form (known titles first, empty ones gone), with each plain-text item joined to the one before it |
| `ChangelogTheorems.RoundTripExactly` | scripts/changelog-assemble.ts:184-193 | parsing inverts rendering iff every item that follows another in its section starts with a bullet |
| `ChangelogTheorems.RenderIsNormalForm` | scripts/changelog-assemble.ts:184-193 | rendered text parses and renders back to itself, holds under each title exactly that section's lines, and has a heading iff the section has items |
| `ChangelogTheorems.NormalKeeps` | scripts/changelog-assemble.ts:179-193 | ordering and dropping empty sections keeps the items under every title, orders titles by rank and leaves no empty section |
| `ChangelogAssembly.OrderedByName` | scripts/changelog-assemble.ts:251 | the fragments are only rearranged, into file-name order |
| `ChangelogAssembly.MergedKeeps` | scripts/changelog-assemble.ts:248-260 | the merged map holds under each title the fragments' lines in order and then the old lines |
| `ChangelogAssembly.AssemblyConserves` | scripts/changelog-assemble.ts:213-281 | main result: the new block holds per title exactly the fragments' lines in file-name order followed by the old Unreleased lines, text before the heading and from the next release heading on is unchanged (a heading on the very first line gets a blank line above it), and a release leaves Unreleased empty |
| `ChangelogAssembly.AssemblingAgain` | scripts/changelog-assemble.ts:213-281 | assembling the output again with no fragments returns it unchanged |
| `ChangelogAssembly.SameReleaseRefused` | scripts/changelog-assemble.ts:234-239 | a version just assembled is refused a second time |
| `ChangelogAssembly.ValidExactly` | scripts/changelog-assemble.ts:131-173 | a fragment has no problems iff it is in the documented format, stated line by line without the parser |
| `ChangelogLayout.ValidSpelled` | scripts/changelog-assemble.ts:131-173 | the same with the format spelled out: five allowed headings, no other level, at most fifteen words, bullets of one shape |
| `ChangelogLayout.ProblemsTell` | scripts/changelog-assemble.ts:131-173 | which problems a fragment has, each with the line or title it is about |
| `ChangelogLayout.BulletSpelled` | scripts/changelog-assemble.ts:158-161 | that shape: a dash, a name in double asterisks, a long dash and text |
| `ChangelogLayout.OtherHeadingSpelled` | scripts/changelog-assemble.ts:138-142 | a heading of another level is one, two or at least four hashes before white space |
| `ChangelogLayout.SectionsInOrder` | scripts/changelog-assemble.ts:179-193 | sections are written Added, Changed, Fixed, Removed, Security, then the others as first seen, empty ones left out |
| `ChangelogLayout.RenderedIsSpaced` | scripts/changelog-assemble.ts:184-193 | one blank line after every heading and before every heading but the first, none elsewhere |
| `ChangelogLayout.AssembledText` | scripts/changelog-assemble.ts:262-280 | the whole output text around the rendered sections, with the release heading in its place |
| `ChangelogLayout.HeadingText` | scripts/changelog-assemble.ts:195-197 | the release and section headings character by character |
| `ChangelogLayout.BlockFound` | scripts/changelog-assemble.ts:226-232 | which lines the Unreleased block is: from the first such heading to the next release heading |
| `ChangelogLayout.RefusedExactly` | scripts/changelog-assemble.ts:213-247 | which refusal a call gets, in terms of the fragments and the lines of the changelog |
| `DigestNumbers.KeepNumbers` | skills/_shared/learning-state.ts:417-424 | the first loop: stored numbers, the earliest holder of each winning, and the next free number |
| `DigestNumbers.NumberRest` | skills/_shared/learning-state.ts:425-430 | the second loop: every other entry, counting up in order |
| `DigestNumbers.Rebuild` | skills/_shared/learning-state.ts:432-437 | the map is rebuilt in its own key order |
| `DigestNumbers.AssignDigestNumbers` | skills/_shared/learning-state.ts:407-438 | the allocator, a sort and three loops, equals `Numbered`, which `NumberedExactly` gives entry by entry |
| `DigestOrder.NumberedExactly` | skills/_shared/learning-state.ts:396-430 | main result, with clocks and keys compared character by character: an item keeps its stored number iff that is valid and the item comes first of those that hold it; the others get, without a gap, one above the mark and all valid stored numbers and up, the earlier clock first, no clock last, equal clocks by key |
| `DigestOrder.EarlierIsSmaller` | skills/_shared/learning-state.ts:396-398 | of two items that keep no number the one that comes first gets the smaller one |
| `DigestNumbers.PruneExpired` | skills/_shared/learning-state.ts:193-215 | collecting expired ids and deleting them keeps exactly the entries not strictly older than ninety days; an entry without a clock never expires |
| `DigestRuns.NumberedIsClean` | skills/_shared/learning-state.ts:388-438 | every entry gets a positive number of its own and nothing else changes |
| `DigestRuns.CleanIsFixed` | skills/_shared/learning-state.ts:407-438 | a fully numbered digest is a fixed point whatever the mark |
| `DigestRuns.NumberingIsIdempotent` | skills/_shared/learning-state.ts:407-438 | numbering twice is numbering once, even under a later mark |
| `DigestRuns.OrderDoesNotMatter` | skills/_shared/learning-state.ts:407-416 | the numbers do not depend on the map's insertion order |
| `DigestRuns.ReadNumbered` | skills/_shared/learning-state.ts:329-336 | the numbered view of the store and the highest number issued, the mark unread when the digest is empty |
| `DigestRuns.RecordAdds` | skills/learning/tools/task-completion-from-sent/handler.ts:222-233 | the loop over new items: a retried item keeps its clock and number, a new one takes the next |
| `DigestRuns.AddToDigest` | skills/learning/tools/task-completion-from-sent/handler.ts:208-255 | the writer: number, prune, add, then mark before digest, either write possibly refused |
| `DigestRuns.ClearDigestItem` | skills/learning/tools/resolve-learning-digest/handler.ts:107-122 | resolving an item: the mark first when it moves, then the pruned rest |
| `DigestWrites.WrittenExactly` | skills/learning/tools/task-completion-from-sent/handler.ts:208-255 | what a full write leaves under every key: items not added stand unless past ninety days; an added one has its last note and keeps clock and number, or gets the present instant and the next number above all issued, in order of addition |
| `DigestWrites.MarkExactly` | skills/learning/tools/task-completion-from-sent/handler.ts:234-255 | what is stored when a write is refused: nothing, or the mark alone, raised to the highest number that would have been given |
| `DigestWrites.HighestAdded` | skills/learning/tools/task-completion-from-sent/handler.ts:216-239 | adding items raises the highest number issued by exactly as many as there are new keys |
| `DigestWrites.AddedInPlace` | skills/learning/tools/task-completion-from-sent/handler.ts:222-233 | items that were there keep their place, new ones follow with ascending numbers |
| `DigestWrites.ResolvedExactly` | skills/learning/tools/resolve-learning-digest/handler.ts:107-122 | what clearing leaves under every key, and the mark, for every outcome of the two writes |
| `DigestWrites.RestartsWhenEmpty` | skills/_shared/learning-state.ts:325-336 | the highest number issued counts as 0 when the digest is empty, and is at least the mark otherwise |
| `DigestRuns.PruneExactly` | skills/_shared/learning-state.ts:180-215 | which entry each key has after pruning |
| `DigestRuns.NumberMovesExactly` | skills/learning/tools/task-completion-from-sent/handler.ts:234-255 | an item that stays on the digest changes its number iff the mark was stored, the digest was not, and the item had no stored number to keep |
| `DigestRuns.ShownNumberCanMove` | skills/learning/tools/task-completion-from-sent/handler.ts:235-254 | the witness: a lone unnumbered item is shown as 1 and moves after a refused digest write, although the comment calls the skipped numbers harmless |
| `DigestRuns.NewNumbersAreAbove` | skills/_shared/learning-state.ts:388-438 | after any step every shown number was shown under the same key before or is above everything issued |
| `DigestRuns.RetiredForGood` | skills/_shared/learning-state.ts:297-303 | over any run of adds, resolves and refused writes, a number that names nothing any more stays so until the digest empties |
| `DigestRuns.NeverRenamed` | skills/_shared/learning-state.ts:394-398 | a number once shown never comes to name another item until the digest empties |
| `DigestRuns.ShownNamesOne` | skills/_shared/learning-state.ts:388-406 | a shown number names one item |
| `DigestRuns.LeavingRetires` | skills/learning/tools/task-completion-from-sent/handler.ts:215-234 | a digest write that resolves an item or ages it out retires its number, even when the same task is queued again in that write |
| `DigestRuns.ResolvedIsRetired` | skills/learning/tools/resolve-learning-digest/handler.ts:107-122 | resolving an item retires its number |
| `DigestRuns.AgedOutIsRetired` | skills/_shared/learning-state.ts:193-215 | an item that has aged out loses its number for good at the next digest write |
| `DigestRuns.LiveNumberIsStable` | skills/_shared/learning-state.ts:391-393 | once every item carries a number, a live item's number never changes over any run, whichever writes fail |
| `NylasClient.MailClient.constructor` | skills/_shared/ceo-nylas-client.ts:195-207 | a client with a deadline and nothing sent |
| `NylasClient.MailClient.Turn` | skills/_shared/ceo-nylas-client.ts:727-814 | one turn of the retry loop: what is sent, whether and how long it waits (`DelayInBand`), how it ends |
| `NylasClient.MailClient.RequestWithCursor` | skills/_shared/ceo-nylas-client.ts:710-816 | the loop's requests, waits and result are those of `RunFrom` |
| `NylasClient.DelayBounded` | skills/_shared/ceo-nylas-client.ts:744-765 | every wait is between 0 and 37,500 ms, jitter included |
| `NylasClient.BackoffDoubles` | skills/_shared/ceo-nylas-client.ts:762-765 | without a usable Retry-After the wait doubles per attempt within a quarter either way |
| `NylasPacing.DelayInBand` | skills/_shared/ceo-nylas-client.ts:744-765 | the wait lies within a quarter of what was asked for, to the millisecond: the seconds of a positive Retry-After up to thirty, else half a second, one and two |
| `NylasPacing.JitterSpreads` | skills/_shared/ceo-nylas-client.ts:766-768 | the jitter reaches the lower end of the band, and its middle gives what was asked for |
| `NylasPacing.EveryWaitIsPaced` | skills/_shared/ceo-nylas-client.ts:726-787 | in every run every wait follows a reply and lies in the band of that reply |
| `NylasPacing.SendsAgainExactly` | skills/_shared/ceo-nylas-client.ts:737-787 | in every run a request is followed by another iff its reply is 429, or 5xx to a GET, fewer than three retries were made, the wait fits and the budget stands after it |
| `NylasPacing.EndsExactly` | skills/_shared/ceo-nylas-client.ts:726-814 | how every run ends, by its last reply and the budget at that moment |
| `NylasClient.StaysWithinBudget` | skills/_shared/ceo-nylas-client.ts:727-785 | in every run no request is sent once the budget has expired, no wait is scheduled past the deadline, and no wait exceeds 37,500 ms |
| `NylasClient.ResendsAreSafe` | skills/_shared/ceo-nylas-client.ts:737-787 | at most four requests with one wait between two, and a request is followed by another only after a 429 or, for a read, a 5xx |
| `NylasClient.MutationActsAtMostOnce` | skills/_shared/ceo-nylas-client.ts:698-701 | a non-GET request that is sent again was answered 429, so at most its last send can have been processed |
| `NylasClient.SucceedsExactly` | skills/_shared/ceo-nylas-client.ts:789-814 | a call succeeds iff its last reply is a success carrying data, and returns that data |
| `NylasClient.GivesUpForCause` | skills/_shared/ceo-nylas-client.ts:726-814 | a retriable reply is given up on only when all attempts are spent or the wait outlasts the budget; cancellation needs an expired reading |
| `NylasClient.ListAllMessages` | skills/_shared/ceo-nylas-client.ts:283-327 | the cursor walk against an arbitrary server equals `Listed` of `Walk` |
| `NylasClient.WalkFollowsCursors` | skills/_shared/ceo-nylas-client.ts:292-319 | each request carries the cursor of the page before it, and every page passed has messages and a cursor |
| `NylasClient.WalkIsBounded` | skills/_shared/ceo-nylas-client.ts:300-319 | the walk terminates: at most `maxScan` pages (or the first), stopping short only at an empty page or a missing cursor |
| `NylasClient.ListingIsHonest` | skills/_shared/ceo-nylas-client.ts:321-326 | the result is a prefix of all that was read; it is within the ceiling iff the ceiling is not negative or its magnitude covers what was read; `truncated` is false iff the last page had no cursor and nothing was cut |
| `NylasClient.WalkDrainsExactly` | skills/_shared/ceo-nylas-client.ts:292-319 | against a server holding given pages the walk reads them all iff no page before the last is empty or reaches the ceiling |
| `NylasClient.DrainedExactly` | skills/_shared/ceo-nylas-client.ts:283-327 | `truncated` is false iff the listing is the whole mailbox |
| `PlainText.RunUntilStable` | skills/_shared/ceo-nylas-client.ts:1026-1041 | the repeat-until-unchanged loop terminates with text length as measure and equals `Settle` |
| `PlainText.HtmlToPlainText` | skills/_shared/ceo-nylas-client.ts:1011-1056 | the whole conversion, absent and empty input included, equals `PlainTextOf`, which `MarkupReadsAsText` and `PageReadsBack` read |
| `PlainTextContent.MarkupReadsAsText` | skills/_shared/ceo-nylas-client.ts:1011-1041 | main result: scripts and styles go with all they hold, in any letter case and with any attributes; br, p, div and li tags become their line breaks, every other tag goes, and the text between stays |
| `PlainTextContent.PageReadsBack` | skills/_shared/ceo-nylas-client.ts:1011-1056 | any text, escaped, with any such markup between, reads back with its breaks, up to long runs of blank lines and outer white space |
| `PlainTextContent.OpenEndReads` | skills/_shared/ceo-nylas-client.ts:1037-1041 | a last tag that is never closed goes with at most five hundred characters after its first letter |
| `PlainTextContent.LoneAngleStays` | skills/_shared/ceo-nylas-client.ts:1037-1041 | a `<` that opens no tag, as in `1 < 2` or `<>`, stays in the text |
| `PlainTextContent.EntitiesRead` | skills/_shared/ceo-nylas-client.ts:1047-1053 | each of the six entities reads as its character |
| `PlainTextContent.CollapseByLine` | skills/_shared/ceo-nylas-client.ts:1054 | line by line: characters stay, and three or more breaks become two |
| `PlainText.SubShrinks` | skills/_shared/ceo-nylas-client.ts:1037-1041 | a deleting replacement changes the text iff it shortens it iff something matches |
| `PlainText.SettleIsStable` | skills/_shared/ceo-nylas-client.ts:1026-1041 | the loop ends with text neither pattern matches anywhere, reached by striking out characters only, and unchanged iff nothing matched |
| `PlainTextTheorems.NoMarkupIsLeft` | skills/_shared/ceo-nylas-client.ts:1037-1041 | before decoding no complete tag and no `<` before a letter is left |
| `PlainTextTheorems.OneMore` | skills/_shared/ceo-nylas-client.ts:1048-1053 | decoding with a table and then one more entity is decoding with both in one pass |
| `PlainTextTheorems.ChainIsSinglePass` | skills/_shared/ceo-nylas-client.ts:1048-1053 | chained replacements with distinct first letters and the ampersand last are one left-to-right pass |
| `PlainTextTheorems.OrderedIsSinglePass` | skills/_shared/ceo-nylas-client.ts:1048-1053 | the six ordered replacements are one left-to-right decoding pass, on every input |
| `PlainTextTheorems.DecodeUndoesEscape` | skills/_shared/ceo-nylas-client.ts:1048-1053 | decoding an escaped text gives the text |
| `PlainTextTheorems.NoAngleNoStripping` | skills/_shared/ceo-nylas-client.ts:1014-1041 | text without `<` passes all stripping stages untouched |
| `PlainTextTheorems.EscapedTextReadsBack` | skills/_shared/ceo-nylas-client.ts:1011-1056 | the whole conversion of an escaped text gives the text, up to long runs of line breaks and outer white space |
| `PlainTextTheorems.CollapseLeavesNoTriple` | skills/_shared/ceo-nylas-client.ts:1054 | no three line breaks in a row are left |
| `IdentityRefresh.PrincipalCache.constructor` | src/index.ts:922-938 | the holders start cleared |
| `IdentityRefresh.PrincipalCache.BeginRefresh` | src/index.ts:940-948 | up to the await: a new generation, or everything cleared without a principal |
| `IdentityRefresh.PrincipalCache.FinishRefresh` | src/index.ts:951-959 | after the await: all four holders from one read, unless a newer refresh has started |
| `IdentityRefresh.Replay` | src/index.ts:940-959 | every interleaving carried out on the cache object leaves its holders and generation equal to those of the step model |
| `IdentityRefresh.StepKeeps` | src/index.ts:940-959 | every step of every interleaving keeps the cache equal to one read of one state the database was in |
| `IdentityRefresh.CacheNeverGoesBack` | src/index.ts:933-959 | in every interleaving neither the installed generation nor the database state it shows ever goes back |
| `IdentityRefresh.CatchesUpExactly` | src/index.ts:940-959 | the exact condition, on the trace alone: whatever the last mutation writes, the holders end up showing it iff some refresh that read after it finishes before another starts; nothing need have settled and other reads may fail |
| `IdentityRefresh.WriteIsCaught` | src/index.ts:940-959 | the installed read is of the last mutation iff such a refresh lands, and then the holders show its rows |
| `IdentityRefresh.EveryRunFromBoot` | src/index.ts:922-959 | in every run from boot the cache shows one read as a whole, never goes back, and catches up under that condition |
| `IdentityRefresh.LandingShowsTheRows` | src/index.ts:949-961 | after such a refresh the holders show the verified and active identities in order, the first email of them, the designated primary address and the profile; nothing if the contact is gone |
| `IdentityRefresh.CacheCatchesUp` | src/index.ts:788-795 | the settled case: if a refresh starts after the last mutation and no refresh is left under way, the newest one is the one installed iff its own read did not fail, and then the cache equals the database |
| `IdentityRefresh.SettledIsNewest` | src/index.ts:951-953 | once settled the installed refresh is the newest iff that refresh's own read did not fail |
| `IdentityRefresh.FailureLosesAFreshRead` | src/index.ts:951-953 | the witness for the other case: the newest read fails and an older refresh that had read the new rows is discarded |
| `AuditChain.QueryIsNextPage` | scripts/audit-verify.ts:79-89 | asking for rows past the last one seen gives the next rows of the log, for any storage order |
| `AuditChain.FetchPage` | scripts/audit-verify.ts:77-91 | the query as the loop uses it; a short page means the log is exhausted |
| `AuditChain.VerifyPage` | scripts/audit-verify.ts:93-133 | the loop over one page equals a pass over its rows |
| `AuditChain.Verify` | scripts/audit-verify.ts:57-136 | for any page size the paginated walk gives the verdict of one pass over the whole log |
| `AuditChain.StorageOrderDoesNotMatter` | scripts/audit-verify.ts:79-89 | the log depends only on the set of rows |
| `AuditChain.PassAppend` | scripts/audit-verify.ts:77-136 | a pass over two parts carries the previous hash and the counters across |
| `AuditChain.UnhashedRowsDoNotMatter` | scripts/audit-verify.ts:96-99 | rows without a hash never affect the verdict |
| `AuditChain.VerdictExactly` | scripts/audit-verify.ts:121-132 | the verdict is intact iff every link of the hashed rows holds; otherwise it names the first that does not, with the expected hash |
| `AuditChain.EveryRowIsCounted` | scripts/audit-verify.ts:93-136 | a pass that ends well has counted every row, as checked or as skipped |
| `AuditChain.HashedExactly` | scripts/audit-verify.ts:96-99 | the rows whose links are checked are those with a stored hash that is not empty |
| `AuditChain.HeadPinsChain` | scripts/audit-verify.ts:121-132 | under an injective hash that never yields the genesis value, two intact chains with the same last hash hold the same rows |
| `AuditChain.HeadPinsLog` | scripts/audit-verify.ts:57-136 | the same for two whole tables the walk finds intact, whatever their storage order, pages and unhashed rows: equal heads mean the same hashed rows in the same order, and those are all the hashed rows of each table |
| `AuditChain.EditIsCaught` | scripts/audit-verify.ts:121-132 | changing what a hashed row says is reported at that row |
| `AuditChain.RemovalIsCaught` | scripts/audit-verify.ts:121-132 | removing a row that others follow is reported at the next one; losing the last row is not noticed |

## Left out

- Range text before tokens: the regular-expression cleaning, the length cap, `x` wildcards, prerelease tags and build metadata. The model starts from tokens; a token that is not a comparator is `Unreadable`.
- Override specifiers: parsing of the workspace YAML, of override keys and of specifier text, including the space after an operator on which the floor rendering would drop a bound. A specifier is a list of comparators or a fixed set of malformed kinds.
- Auditor reporting: the severity order of implicated advisories, the unused-allowlist lists and report formatting.
- Network, database, file system, command line and logging in every component, and all of the remaining wiring in `src/index.ts`.
- Dedup: `classifyPair` is an arbitrary function that may throw, contacts have distinct ids and loaded exclusions are canonical pairs, as the database's keys demand; task and log text are not modelled.
- Evidence: only `\n` ends a line, the header's ids are read over white-space separated words, and case folding is ASCII. Date parsing is a parameter.
- Changelog: word counting, collation and the count of fragment bullets (the first two are parameters); release fields are one line; a heading's title holds no carriage return or Unicode line separator.
- Digest: JSON and shape checks of stored values (a mark that no longer parses reads as 0), object keys that look like array indices, and two writers running at once.
- Mail client: message fields and filters, reading a response body that fails, and fractional milliseconds. `listAllDrafts` and the folder cache make no promise to prove.
- HTML: case folding in tag names is ASCII.
- Identities: a principal contact that is replaced after boot.
- Audit log: rows appended while the walk runs, and the canonical JSON of a row's fields; injectivity of the hash is an assumption of the lemmas that name it.
- `matchDraftToSent` and `matchTasksToSent`: one scan with a fixed preference order each; their members would be easy.
- RunDedup: the options' defaults and the loaders' row conversion, because they only feed the parameters.
- HeadPinsLog: says nothing about unhashed rows or sequence numbers, because neither is hashed.
