# Verified model of ptest's step-by-step cores

ptest is a test runner with an agent-facing side. This project models the parts of it whose
correctness depends on many steps: file-tree transactions, a process-containment protocol, bounded
evidence collection, argument fitting, file publication, bundle installation and stratified sampling.
`dafny verify dfyconfig.toml` checks everything.

| file | what it models |
|---|---|
| `GuidanceTree.dfy`, `GuidanceTrace.dfy`, `GuidanceJournal.dfy`, `GuidanceApply.dfy` | the journalled transaction of the guidance command, the account of its writes, and its rollback, over a trace of whole trees in which other processes may rewrite anything between looks and any call may fail |
| `GuidanceRuns.dfy` | runs of it on which others' changes are lost |
| `ManagedBlock.dfy` | the managed-block classifier and editor |
| `GuidanceRules.dfy`, `GuidanceAgreement.dfy`, `GuidanceEffect.dfy`, `GuidanceCommand.dfy`, `GuidanceLimits.dfy`, `GuidanceTwice.dfy` | preview, apply and refresh: how they agree, which files they may touch, and runs at the size limit |
| `OwnedGroup.dfy` | stopping an owned process group over a process table that changes between any two calls |
| `CodexStream.dfy` | the reader of a Codex event stream |
| `Utf8.dfy` | UTF-8 by section 3 of RFC 3629 and the truncation that respects it |
| `Admission.dfy`, `ProjectionBounds.dfy`, `PacketPool.dfy`, `PacketLog.dfy`, `PacketBuild.dfy`, `PacketRuns.dfy` | the shared read ledger, admission, its projection and when that can be relied on, the pool of ranked texts, chain selection, trimming, the account of every candidate, and runs on which a promise does not hold |
| `Assembly.dfy` | the reply assembler and its citations |
| `ArgvFit.dfy` | collapsing an over-long selection |
| `SafeFiles.dfy` | exclusive creation, atomic publication and the descriptor walk |
| `BundleInstall.dfy` | staging, completing and publishing a release bundle |
| `Sampling.dfy` | stratified sampling of mutation sites |

Where other processes act, their steps are an arbitrary function of the moment and the state, fixed
before the run and no choice of the program, limited only by what the source relies on: in `OwnedGroup`
no outsider carries the private session and nobody else reaps the child; in `SafeFiles` and
`BundleInstall` others do not write to an inode just made, do not use a random temporary name, and do
not touch a bundle under construction. In `GuidanceApply` they may do anything except between the last
identity check and the call it guards. Each of these modules keeps every state it went through, and its
validity says that the states are linked: nothing changes but by a step of the program, which names the
entry it writes, or by that function. Which calls the kernel refuses in `OwnedGroup` is such a function
too.

## What the code does that its documentation does not say

Each of these is a property that fails as documented, or that its documentation leaves out. The model
follows the code; the first member named says exactly when the property holds, and the last one is a
run or an input on which it does not.

- Rollback removes a created file whose bytes were edited in place between its two looks
  (`GuidanceTrace.RemovalLosesEdit`, `GuidanceRuns.EditInWindowIsLost`).
- The identity of a created directory is read one moment after the directory is made, so one that others
  put there in between is recorded as made here, and removed if it is empty
  (`GuidanceJournal.RemovedDirectoryIsOurs`, `GuidanceRuns.ForeignDirectoryIsRemoved`).
- Rollback cannot recognise a written text longer than its read limit, so a failed apply restores the
  tree exactly when the texts it wrote are within it (`GuidanceApply.Transaction.Apply`,
  `GuidanceCommand.ApplyRules`, `GuidanceLimits.LongFileIsNotRestored`).
- A second apply is refused exactly when the first one grew an instruction file beyond the size limit
  (`GuidanceAgreement.SecondApplyWritesNothing`, `GuidanceTwice.SecondApplyIsRefused`).
- A carriage return in a file to be rewritten makes apply fail after preview promised an update
  (`GuidanceAgreement.ApplyAgrees`, `GuidanceAgreement.ReturnBlocksApply`).
- Any error of the pin call counts as "already exited", so a live member can be left out silently:
  only one on which a call was refused during the last enumeration (`OwnedGroup.Kernel.StopOwned`,
  `OwnedGroup.MemberIsLeftOut`).
- The child is not always reaped: it is left exactly when it still runs at the look of the last wait, or
  that call is refused (`OwnedGroup.Kernel.StopOwned`, `OwnedGroup.ChildIsNotReaped`).
- A well-formed event stream whose last message holds a lone surrogate raises instead of being accepted
  or rejected (`CodexStream.NormalizeCodex`, `CodexStream.SurrogateRaises`).
- Truncation returns a valid prefix but not always the longest one (`Utf8.LongestIff`,
  `Utf8.AsciiLosesThree`).
- `chain_fits` does not guarantee admission of uncached files, and a chain that is rolled back keeps what
  it added to the counters and the ledger (`Admission.FittingChainAdmitted`,
  `PacketBuild.Builder.AdmitFitting`, `PacketRuns.FittingChainIsTakenBack`).
- The projection differs from admission where they do not find the same room (`Admission.StepAgrees`), which
  the listed sizes rule out exactly when no file is close to the byte cap or beyond a cap of three bytes or
  fewer (`ProjectionBounds.CertainMeansAgreed`, `ProjectionBounds.AsciiDecides`, `Admission.TinyCapDiffers`).
- A cached prefix read with a smaller limit is taken for a complete file
  (`Admission.ShortEntryMisleads`, `PacketRuns.ShortEntryIsShownComplete`).
- A trimmed packet exceeds the prompt cap exactly when no prefix of its excerpts, the empty one included,
  is within it (`PacketBuild.Builder.Trim`, `PacketRuns.EmptyPacketIsTooLarge`).
- `assemble_child` refuses aligned input of which more reviews are applicable than the checklist has
  items, because the score has that bound (`Assembly.AssembleChild`, `Assembly.RepeatedItemIsRefused`).
- A folder run too long for a request deselects a recorded test that the user named by its own name
  (`ArgvFit.FolderLosesExactly`, `ArgvFit.OnlyNamedTestsAreLost`, `ArgvFit.NamedTestIsLost`), because
  planned and named arguments are compared as whole strings.
- A folder run can stay beyond the budget: always when the named arguments are beyond it by themselves,
  and when the planned part alone is within it (`ArgvFit.NamedDecide`,
  `ArgvFit.FittingPlanIsNotCollapsed`, `ArgvFit.OneTooMany`).
- The walk to a parent directory leaks one descriptor exactly when the type of a child cannot be read
  (`SafeFiles.Store.WalkToParent`, `SafeFiles.Store.CreateExclusive`, `SafeFiles.DescriptorLeaks`).
- Publication removes whatever has its temporary name, even when it could not create it
  (`SafeFiles.Store.PublishAtomic`, `SafeFiles.ForeignTemporaryIsRemoved`).
- A fault between making a bundle directory and the first guarded step leaves that directory behind
  (`BundleInstall.Installer.Begin`, `BundleInstall.BundleStaysBehind`).

Beside these, `_admit_candidate` documents a False result that it never gives
(`PacketBuild.Builder.AdmitCandidate`).

## Model

| member | source | states |
|---|---|---|
| `Sampling.SampleMutants` | scripts/selection_eval.py:283-302 | exactly min(count, sites of the eight classes) mutants, numbered in order and taken from the given sites without repetition; they are the sites of the first turns that have one, in the order of the turns, each from the end of its shuffled pool, so that no class is more than one pick ahead of a class that still has sites, for every shuffle |
| `Sampling.SampleClasses` | scripts/selection_eval.py:290-300 | the same for any list of classes |
| `Sampling.TakeTurns` | scripts/selection_eval.py:297-300 | one round gives each class that still has sites one turn while picks are wanted, in the order of the classes; what is picked and what is left together stay what there was |
| `Sampling.TurnsDecide` | scripts/selection_eval.py:296-300 | of each length there is only one list of picks that takes turns so: round by round, class by class, without a gap |
| `Sampling.RoundIsFair` | scripts/selection_eval.py:297-300 | between turns of one round two classes that both still have sites differ by at most one pick |
| `Sampling.ConservedBounds` | scripts/selection_eval.py:296-302 | picks never repeat and never exceed the eligible sites; when the pools are empty every eligible site is picked |
| `Sampling.PoolsHoldEligible` | scripts/selection_eval.py:291-295 | the shuffled pools hold exactly the sites of the eight classes, each once, in the pool of its class |
| `Sampling.EligibleCounts` | scripts/selection_eval.py:292-295 | the eligible sites are each site of a named class as often as it is given |
| `Sampling.OfClassCounts` | scripts/selection_eval.py:293 | so are the sites of one class |
| `CodexStream.NormalizeCodex` | src/ptest/agent_providers.py:741-787 | rejects exactly the streams that are not well formed and reports the reason of the first misfit (a line that is not JSON decides first); accepts a good stream with the UTF-8 bytes of its last completed agent message, and raises exactly when a good stream's last message holds a surrogate |
| `CodexStream.GoodMeansFits` | src/ptest/agent_providers.py:753-786 | a stream is good (allowed kinds and items, at most one start, one completion and it is last, a nonempty last message) exactly when every event fits the ones before it and the stream ends well |
| `CodexStream.MisfitDecides` | src/ptest/agent_providers.py:753-782 | one event that does not fit spoils every stream it begins, whatever follows |
| `CodexStream.SurrogateRaises` | src/ptest/agent_providers.py:787 | a concrete stream that is well formed and raises |
| `ManagedBlock.CountAbsent` | src/ptest/agent_rules.py:469-475 | a marker count of zero means no occurrence at any position |
| `ManagedBlock.CountSingle` | src/ptest/agent_rules.py:469-475 | a marker count of one means exactly one position, and it is the one the search finds |
| `ManagedBlock.NoStraddle` | src/ptest/agent_rules.py:1573-1588 | no marker can arise across a splice boundary: an occurrence in a joined text lies wholly in one part |
| `ManagedBlock.OnePair` | src/ptest/agent_rules.py:469-491 | marker-free text around a section leaves exactly the section's own pair of markers |
| `ManagedBlock.ManagedSplits` | src/ptest/agent_rules.py:469-491 | a text classified as managed is marker-free text, the exact section of that variant, and marker-free text |
| `ManagedBlock.SplicedReads` | src/ptest/agent_rules.py:469-491 | marker-free text around a section is classified as that section's variant |
| `ManagedBlock.ReadingMeans` | src/ptest/agent_rules.py:469-491 | the classifier by what the text holds: unmanaged exactly without any marker, managed exactly as one of the two sections between parts without markers, malformed otherwise |
| `ManagedBlock.AppendReads` | src/ptest/agent_rules.py:1584-1588 | appending to a text without markers gives the requested variant and keeps the text up to some k: from k on the text is newlines, k is 0 or the character before it is none, and the result is the text up to k, two newlines and the block |
| `ManagedBlock.UpgradeReads` | src/ptest/agent_rules.py:1577-1583 | upgrading a base block yields the policy variant and changes no character outside the block |
| `ManagedBlock.ReconcileEdits` | src/ptest/agent_rules.py:1571-1590 | the edit of a readable text: none exactly when it holds the policy block, or a base block that is enough; otherwise the block is appended as above, or the policy section takes the place of the base section between the same two parts |
| `ManagedBlock.ReconcileSettles` | src/ptest/agent_rules.py:1571-1590 | one reconciliation reaches the wanted variant and a second one has nothing to do |
| `ManagedBlock.ReconcileHasNoReturn` | src/ptest/agent_rules.py:1571-1590 | reconciling never brings in a carriage return |
| `ManagedBlock.BlockReads` | src/ptest/agent_rules.py:460-491 | a fresh block alone is classified as its own variant |
| `GuidanceApply.Transaction.Replace` | src/ptest/agent_rules.py:901-982 | its only write, if any, is the last moment and puts the text over a file that had the expected bytes (and identity, where one is given) the moment before; without a fault it refuses only if, at one look or between two, the file was not the same regular file with the expected bytes; cleanup working, no temporary is left |
| `GuidanceApply.Transaction.CreateLeaf` | src/ptest/agent_rules.py:811-867 | every write makes the file at a free name or touches only the inode made there; a success names that very inode and its bytes; after a failure, whoever else acts, nothing was made or the name no longer leads to the inode made there, unless a call of the clean-up failed; a refusal without a fault has a moment at which the name was taken, a directory above was missing, or the new leaf was interfered with |
| `GuidanceApply.Transaction.FillLeaf` | src/ptest/agent_rules.py:834-842 | every write touches only the inode just made, whatever others do to the name |
| `GuidanceApply.Transaction.WithdrawLeaf` | src/ptest/agent_rules.py:843-860 | whoever else acts: every write empties or unlinks only the own inode; unless a call fails, it is emptied at once if the name leads to it, and afterwards the name does not lead to it |
| `GuidanceApply.Transaction.EnsureDir` | src/ptest/agent_rules.py:743-782 | its only write makes a directory at a free name; anything else there that is not a real directory is refused; whoever else acts, a success either found a directory or made one and recorded the identity seen one moment after the making; on a failure nothing is recorded, and a directory made was no directory one moment later or the look at it failed |
| `GuidanceApply.Transaction.EnsureTree` | src/ptest/agent_rules.py:785-808 | every write makes a missing directory above the path; whoever else acts, every record names one of these writes and every write has its record, but for a last one after which the directory could not be recorded, as in `EnsureDir`; a refusal without a fault has a moment at which a directory above was lost; undisturbed, exactly the missing ones are made and journalled |
| `GuidanceApply.Transaction.CreateFile` | src/ptest/agent_rules.py:1508-1520 | every write makes a missing directory or the leaf, or touches the leaf's own inode; whoever else acts, every new record names such a write with the identity made there, and every write has its record, but after a failure for a directory that could not be recorded or a leaf that was made in vain and withdrawn |
| `GuidanceApply.Transaction.UpdateFile` | src/ptest/agent_rules.py:1522-1527 | every write replaces a regular file that still held the original bytes, with its mode and the new text; whoever else acts, there is a record exactly if there was a write, with the identity that write made |
| `GuidanceApply.Transaction.UndoUpdate` | src/ptest/agent_rules.py:1382-1399 | restores the recorded bytes and mode only over the inode and bytes this process wrote, and otherwise reports; it gives up without a fault only if at some moment the file was no longer that |
| `GuidanceApply.Transaction.UndoFile` | src/ptest/agent_rules.py:1400-1437 | removes a created file only if its bytes and identity were the recorded ones at a look of this turn and its identity still was at the removal; it answers gone only if a look of this turn found the name free; with nothing failing its answer is determined by the trees at the two looks |
| `GuidanceApply.Transaction.UndoDir` | src/ptest/agent_rules.py:1438-1473 | removes a created directory only while it is that directory and empty, answers gone only if a look of this turn found the name free |
| `GuidanceApply.Transaction.UndoUpdates` | src/ptest/agent_rules.py:1382-1399 | the turns of the updates, last first, each borne out by the trace; the report names exactly those left in place |
| `GuidanceApply.Transaction.UndoFiles` | src/ptest/agent_rules.py:1400-1437 | the same for created files; an error ends the loop |
| `GuidanceApply.Transaction.UndoDirs` | src/ptest/agent_rules.py:1438-1473 | the same for created directories; an error ends the loop |
| `GuidanceApply.Transaction.Rollback` | src/ptest/agent_rules.py:1368-1474 | over a linked trace of whole trees in which others may do anything: the moments from the start on are the turns of the journal's records in reverse order, each borne out by the trace, and the report names exactly the records left in place; undisturbed, the tree looks as before if and only if every written text is within the read limit |
| `GuidanceApply.Transaction.Forward` | src/ptest/agent_rules.py:1531-1608 | whoever else acts: a step goes through only if it decided at its look that there is nothing to do, or wrote, and then the journal has exactly the records of its writes; it fails only for a failed call, a refusal at its look, or a logged moment that stood in its way, and then too every write has its record, but for a directory that could not be recorded or a leaf that was withdrawn; every write creates at a free name or rewrites the bytes decided on; undisturbed, it has its full effect or fails |
| `GuidanceApply.Transaction.Apply` | src/ptest/agent_rules.py:1529-1617 | whoever else acts: every step before the end went through, as in `Forward`, and on success there is an account of all of them; after a failure the account ends with a step that fell short, as in `Forward`, and the journal that is rolled back is exactly that account; undisturbed, for faults before and inside any call, after a failure behind k steps bytes, modes and directories of every path are as before if and only if every text those k steps wrote is within the read limit |
| `GuidanceJournal.RecordsNameWrites` | src/ptest/agent_rules.py:1506-1527 | in every run, over any number of steps that went through, every record names a write of this run (the inode made there, or the bytes replaced) and every write is explained by a record |
| `GuidanceApply.RecordsOfFailure` | src/ptest/agent_rules.py:1594-1608 | when the rollback of a failed run begins, every record of the journal names a write of this run |
| `GuidanceApply.RecordOfWrite` | src/ptest/agent_rules.py:1594-1608 | and every write of the run, those of the step that failed included, has its record in that journal, but for a directory of that step which was no directory one moment later (or could not be looked at) and a leaf of that step to which its name no longer leads (unless the clean-up failed) |
| `GuidanceApply.EmptyReportUndoesAll` | src/ptest/agent_rules.py:1368-1474 | in every failed run with an empty report, each write, those of the step that failed included, was undone in the turn of its own record, or what it made was found gone there, or it is one of those that need no record |
| `GuidanceTrace.WritesUndo` | src/ptest/agent_rules.py:1368-1474 | in every run each write of a rollback undoes one recorded change, on the inode and bytes, the inode last seen with those bytes, or the empty directory that was recorded |
| `GuidanceTrace.IntactMeans` | src/ptest/agent_rules.py:1382-1474 | for texts within the limit a record is still intact if and only if the very inode holds the very bytes at its path, or the very directory is there and empty |
| `GuidanceTrace.EmptyReportMeans` | src/ptest/agent_rules.py:1368-1474 | a report is empty if and only if every record was undone by a write of its own turn or found gone at a look of its own turn |
| `GuidanceTrace.RemovalLosesEdit` | src/ptest/agent_rules.py:1400-1437 | in every run the bytes a rollback removes differ from the written ones if and only if others edited the file in place between the look at its bytes and the removal (for a written text within the size limit; beyond it, also when the file outgrew the bounded read) |
| `GuidanceRuns.EditInWindowIsLost` | src/ptest/agent_rules.py:1400-1437 | a run of apply: a file is created, the next step is refused, others edit the file inside the window, and the rollback removes the edited bytes with an empty report although nothing fails |
| `GuidanceJournal.RemovedDirectoryIsOurs` | src/ptest/agent_rules.py:764-780 | a directory that a rollback removes under its recorded identity is not the one made here if and only if others replaced the entry in the one moment between making it and reading its identity |
| `GuidanceRuns.ForeignDirectoryIsRemoved` | src/ptest/agent_rules.py:764-780 | a run of apply: others put their own directory in place of the one just made, the next step is refused, and the rollback removes theirs with an empty report although nothing fails |
| `GuidanceTrace.RestoreSeesWritten` | src/ptest/agent_rules.py:1312-1358 | in every run a restore overwrites bytes other than the written ones if and only if the file outgrew the bounded read |
| `GuidanceTrace.LongTextNeverRecognised` | src/ptest/agent_rules.py:1312-1358 | a written text longer than the read limit is never recognised again, one within it always is |
| `GuidanceLimits.LongFileIsNotRestored` | src/ptest/agent_rules.py:1312-1358 | a concrete run of the command: an instruction file of 262144 characters gets the block appended, the next target fails, and the tree is not as it was although nothing fails and nobody interferes |
| `GuidanceTree.PushUpdated` | src/ptest/agent_rules.py:1522-1527 | journalling an update keeps the journal an exact account of the difference from the original tree |
| `GuidanceTree.PushCreated` | src/ptest/agent_rules.py:1508-1520 | journalling a creation keeps the account exact |
| `GuidanceTree.PushDir` | src/ptest/agent_rules.py:743-782 | journalling a directory keeps the account exact |
| `GuidanceTree.PopUpdated` | src/ptest/agent_rules.py:1382-1399 | undoing the last update leaves an exact account of the rest |
| `GuidanceTree.PopCreated` | src/ptest/agent_rules.py:1400-1437 | undoing the last creation leaves an exact account of the rest |
| `GuidanceTree.PopDir` | src/ptest/agent_rules.py:1438-1473 | undoing the last directory leaves an exact account of the rest |
| `GuidanceTree.LastDirEmpty` | src/ptest/agent_rules.py:1438-1473 | in reverse order the last directory made is empty when its turn comes |
| `GuidanceTree.TracksNothing` | src/ptest/agent_rules.py:1368-1474 | an empty journal accounts only for a tree that looks as before |
| `GuidanceRules.StepSettles` | src/ptest/agent_rules.py:1250-1309 | doing what a verdict says makes the target present, exactly when the written text is within the size limit |
| `GuidanceRules.UniversalSplit` | src/ptest/agent_rules.py:536-550 | text-mode reading goes part by part, wherever no line end is cut in two |
| `GuidanceRules.UniversalEnds` | src/ptest/agent_rules.py:536-550 | and the three line ends each become one newline, any other character itself |
| `GuidanceAgreement.StepPerforms` | src/ptest/agent_rules.py:1531-1608 | one target of apply does exactly what its previewed verdict says and leaves every other entry alone, or refuses, exactly when the file it would rewrite holds a carriage return |
| `GuidanceAgreement.PerformReaches` | src/ptest/agent_rules.py:1531-1608 | after k targets those hold what their verdicts said and the others what they held |
| `GuidanceAgreement.ApplyAgrees` | src/ptest/agent_rules.py:1495-1608 | undisturbed apply performs exactly the previewed creates and updates; it goes through if and only if no file to be rewritten holds a carriage return |
| `GuidanceCommand.TextsArePreviewed` | src/ptest/agent_rules.py:1495-1608 | what the first k targets write is what was previewed for them, so the restorability of a failed apply can be told from the preview |
| `GuidanceCommand.StopsAtReturn` | src/ptest/agent_rules.py:536-550 | undisturbed apply stops at the first file to be rewritten that holds a carriage return, and at no other |
| `GuidanceAgreement.SecondApplyWritesNothing` | src/ptest/agent_rules.py:1495-1504 | the same invocation afterwards is refused if and only if the first one grew an instruction file beyond the size limit, and otherwise finds the same targets, all of them present |
| `GuidanceTwice.SecondApplyIsRefused` | src/ptest/agent_rules.py:640-693 | a run of the command twice on an instruction file of 262144 characters: the first succeeds and the second is refused |
| `GuidanceAgreement.ApplyLeavesNothingToRefresh` | src/ptest/agent_rules.py:1136-1175 | after any apply over the installed providers, whatever its texts' sizes, no refresh target remains |
| `GuidanceAgreement.ListedAfter` | src/ptest/agent_rules.py:1571-1590 | an instruction file ends as a text with a managed block exactly when its edited text is within the size limit, and then with the policy block exactly when the policy is wanted or was recorded |
| `GuidanceAgreement.UnlistedAfter` | src/ptest/agent_rules.py:1571-1590 | an instruction file that was not there is still not there |
| `GuidanceAgreement.OtherTargetKept` | src/ptest/agent_rules.py:1495-1608 | what no target names is unchanged |
| `GuidanceAgreement.ReturnBlocksApply` | src/ptest/agent_rules.py:536-550 | concrete witness: a two-character file ending in a carriage return is previewed as an update that apply then refuses |
| `GuidanceCommand.ApplyRules` | src/ptest/agent_rules.py:1495-1617 | the whole command: it declines if and only if some file it may have to write is neither missing nor current nor a recognised older version, or is no regular file within the limit below possible directories, or an instruction file is illegible, and then changes nothing; whatever others do and whatever fails, no write before a rollback replaces anything but an older text of its own, or an instruction text by its edit; undisturbed it goes through if and only if no file to be rewritten holds a carriage return, and then every file is as told by `Effect`; when it fails the tree is as it was if and only if every text previewed for the targets before that one is within the read limit |
| `GuidanceEffect.AcceptedExactly` | src/ptest/agent_rules.py:1090-1117 | preview goes ahead if and only if the guide, the policy file when it is wanted, and the skill of every requested agent are each missing, current or a recognised older version, and every instruction file is missing, the permitted link, or a text with at most one whole block; a text of the user in one of these places refuses it |
| `GuidanceEffect.FollowedIsEffect` | src/ptest/agent_rules.py:1531-1608 | what a completed command leaves, file by file: shipped files current with their old mode, wanted blocks brought into the instruction files, AGENTS.md made when there is none, and everything else as it was but for directories made on the way |
| `GuidanceEffect.UnwritableExactly` | src/ptest/agent_rules.py:536-550 | an accepted command cannot be carried out if and only if an older guide or policy file, or an instruction file that lacks the wanted block, holds a carriage return |
| `GuidanceCommand.ForwardSpares` | src/ptest/agent_rules.py:1508-1608 | whatever others do meanwhile: each write of the forward part makes a directory or file where there was nothing, changes the file made so, or replaces bytes that are an older text of ptest, or the instruction text its edit was made from |
| `GuidanceEffect.RecordedExactly` | src/ptest/agent_rules.py:494-533 | the policy counts as recorded if and only if some instruction file holds the policy block and none before it does or gives trouble |
| `GuidanceEffect.InstalledAre` | src/ptest/agent_rules.py:1477-1492 | a provider counts as installed if and only if its skill file is one of ptest's own texts |
| `GuidanceEffect.RefreshIsOlder` | src/ptest/agent_rules.py:1136-1175 | refresh takes exactly the older guide, policy and skill files that apply would rewrite, but for a document with a carriage return |
| `OwnedGroup.Kernel.Look` | src/ptest/agent_providers.py:363-394 | a numeric read shows the current holder of the number, or fails |
| `OwnedGroup.Kernel.OpenPin` | src/ptest/agent_providers.py:469-474 | a pin names the holder at that moment; a refused call counts as exited and is recorded as a refusal with its moment |
| `OwnedGroup.Kernel.Send` | src/ptest/agent_providers.py:477-490 | a pinned signal reaches the pinned process and no other, and fails only if it is gone or the kernel refused the call |
| `OwnedGroup.Kernel.Exited` | src/ptest/agent_providers.py:493-507 | a positive answer means that the pinned process is no longer running |
| `OwnedGroup.Kernel.GroupPids` | src/ptest/agent_providers.py:377-394 | every process in the group throughout the listing is listed, unless reading its group was refused |
| `OwnedGroup.Kernel.Validate` | src/ptest/agent_providers.py:577-611 | after a pin, a kept descriptor is safe (its process is dead, or was in the private session when it was read) and a skipped one is not running; where no call fails without a reason, a live pin is refused only for a running process of another session or an earlier start |
| `OwnedGroup.Kernel.Examine` | src/ptest/agent_providers.py:571-611 | one member is pinned safely, is not the child and was no zombie throughout unless a read was refused; or it is skipped because it is not running or the pin was refused, or fails the whole enumeration with its descriptor closed |
| `OwnedGroup.ReadsVet` | src/ptest/agent_providers.py:540-549 | numeric reads after a pin may see a recycled number, but then the pinned process is dead; otherwise they vet the pinned process itself |
| `OwnedGroup.RightfulReachesOurs` | src/ptest/agent_providers.py:536-552 | whoever receives a pinned signal is a descendant of the child, not the child itself, and no older than the leader |
| `OwnedGroup.Kernel.OwnedMembers` | src/ptest/agent_providers.py:531-618 | pins exactly the verified members, misses no process that stays in the group but those a call was refused on, and closes every descriptor on failure |
| `OwnedGroup.Kernel.SendAll` | src/ptest/agent_providers.py:624-629 | signals every pin; each signal is rightful |
| `OwnedGroup.Kernel.Sweep` | src/ptest/agent_providers.py:621-629 | every member but the child that stayed throughout is sent the signal, or a call on it was refused meanwhile; every signal reaches a vetted process, every descriptor is closed |
| `OwnedGroup.Kernel.SignalChild` | src/ptest/agent_providers.py:649-664 | a numeric signal reaches only the unreaped child, and is sent unless the child had exited by then or the call was refused |
| `OwnedGroup.Kernel.KillUntilQuiet` | src/ptest/agent_providers.py:671-689 | sweeps until one finds nobody or the first clock reading a grace period after the start; every member that stayed through the last sweep was killed in it or a call on it was refused; a quiet end means that the last enumeration was after the last signal and found nobody but processes on which the kernel refused a call during it, and survivors are reported only with one found by it; when every pin is refused it always ends quietly |
| `OwnedGroup.Kernel.Grace` | src/ptest/agent_providers.py:657-659 | the grace phase ends with the child reaped, and then at the very look that found it exited, or with the child still running and two clock readings a grace period apart, and then at the first such reading |
| `OwnedGroup.Kernel.KillIsPatient` | src/ptest/agent_providers.py:657-664 | a numeric hard signal reaches the child unreaped, which was still running when a grace period had passed on the clock since the polite sweep |
| `OwnedGroup.Kernel.StopOwned` | src/ptest/agent_providers.py:632-696 | for every interleaving: every signal is rightful; every descriptor is closed whatever the outcome; unless the group is unverifiable, the child and then every member that stayed were asked to end and later, in the same order, killed, but for those that had exited or on which a call was refused meanwhile; nothing at all is killed before the grace phase is over, and the child by number only if it outlived it; a quiet return means that nobody but the child stayed in the group through an enumeration after the last signal, except processes on which a call was refused during that enumeration, and nobody at all where the kernel refuses nothing; a kernel that refuses every pin always gets a quiet return; where no call fails without a reason it gives up only for want of something to compare with or because a running process failed validation; survivors are reported only after the deadline, with one found by the last enumeration; the child is reaped if and only if it had exited at the look of the last wait and that call was not refused, and where nothing is refused if and only if it ever stopped running |
| `OwnedGroup.Kernel.NobodyHidden` | src/ptest/agent_providers.py:469-507 | where the kernel refuses nothing, nobody is excused |
| `OwnedGroup.MemberIsLeftOut` | src/ptest/agent_providers.py:469-474 | a concrete run in which every pin is refused: the stop ends quietly although a member is still running in the group and was never signalled |
| `OwnedGroup.ChildIsNotReaped` | src/ptest/agent_providers.py:692-696 | a concrete run in which no call is refused, the child is sent both signals, does not exit, and is left unreaped |
| `Utf8.EncodedIsValid` | src/ptest/agent_assessment.py:649-660 | every encoded text is accepted by the strict decoder |
| `Utf8.ValidIsEncoded` | src/ptest/agent_assessment.py:649-660 | every accepted string is the encoding of a text, so encoding what was decoded gives it back |
| `Utf8.DecodeEncode` | src/ptest/agent_assessment.py:649-660 | decoding an encoded text by its bits gives the text back |
| `Utf8.BoundaryNear` | src/ptest/agent_assessment.py:649-660 | a character boundary lies at most three bytes before any position of valid UTF-8 |
| `Utf8.Truncate` | src/ptest/agent_assessment.py:649-660 | input within the cap is unchanged; otherwise the result is the shortest valid string left after dropping up to three bytes |
| `Utf8.ShortenedFacts` | src/ptest/agent_assessment.py:649-660 | the result is a valid prefix within the cap, and at most three bytes short of it for a prefix of valid UTF-8 |
| `Utf8.SplitHead` | src/ptest/agent_assessment.py:649-660 | whatever is cut from valid UTF-8 is whole characters followed by a part of one |
| `Utf8.LongestIff` | src/ptest/agent_assessment.py:654-655 | the whole characters are the longest valid prefix, and the result is that prefix if and only if the last of them and the part after it are together longer than three bytes (or there is none) |
| `Utf8.AsciiLosesThree` | src/ptest/agent_assessment.py:654-655 | so ASCII text over the cap always loses three bytes that were valid |
| `Admission.AdmitSound` | src/ptest/agent_assessment.py:1469-1576 | caps, byte count and excerpt quality survive every candidate, whatever the read returned |
| `Admission.ExactlyOneFate` | src/ptest/agent_assessment.py:1469-1576 | every candidate is exactly one of admitted, skipped and truncated; only a cut excerpt also counts as truncated |
| `Admission.FateDecided` | src/ptest/agent_assessment.py:1469-1576 | each candidate's fate from its bytes and the counts before it: skipped if and only if it is in reach and the read failed, or the bytes had no budget cut and are empty, or they have room and what the cap leaves is no text; admitted if and only if they have room and are nonempty text; truncated otherwise; with the exact excerpt, path entry and ledger charge |
| `Admission.AdmitPaths` | src/ptest/agent_assessment.py:1469-1576 | excerpts are only added, only for this candidate, and stay distinct |
| `Admission.ProjectStaticAdmission` | src/ptest/agent_assessment.py:1421-1452 | the loop computes the projection |
| `Admission.ProjectionRefines` | src/ptest/agent_assessment.py:1421-1452 | over files within the per-file cap the projection and real admission agree on every count, bytes included |
| `Admission.StepAgrees` | src/ptest/agent_assessment.py:1421-1452 | from equal counts, one file of any size keeps them equal if and only if admission and projection find the same room for it |
| `Admission.ProjectionFollows` | src/ptest/agent_assessment.py:1421-1452 | over a whole list, cached or not, the projected counts follow admission after every file if and only if both find the same room for every file |
| `Admission.ProjectionBalances` | src/ptest/agent_assessment.py:1421-1452 | the projection counts every file once, and a cut one twice |
| `Admission.ProjectionClose` | src/ptest/agent_assessment.py:1421-1452 | over plain files of any size, cached or not, the counts agree as long as the projection has room, and its byte estimate is at most three too high per cut file |
| `Admission.CutAdmittedIff` | src/ptest/agent_assessment.py:1538-1576 | a larger file for which there is room is admitted, cut, if and only if the per-file cap exceeds three bytes, while the projection admits it under every cap |
| `ProjectionBounds.CertainMeansAgreed` | src/ptest/agent_assessment.py:1421-1452 | told from the listed sizes alone: where no file falls within three bytes per cut file of the byte cap, and none is beyond a cap under which nothing can be cut, the projected counts follow admission after every file, whatever the files contain |
| `ProjectionBounds.AsciiDecides` | src/ptest/agent_assessment.py:1421-1452 | that condition on the sizes cannot be relaxed: over ASCII files the projected counts follow admission if and only if it holds |
| `ProjectionBounds.EnoughRoom` | src/ptest/agent_assessment.py:1421-1452 | it holds whenever all sizes together are within the byte cap, unless a file is beyond a per-file cap of three bytes or fewer |
| `ProjectionBounds.NoneCut` | src/ptest/agent_assessment.py:1421-1452 | and whenever no file is beyond the per-file cap |
| `Admission.TinyCapDiffers` | src/ptest/agent_assessment.py:1421-1452 | a concrete file on which they differ under a cap of three bytes |
| `Admission.FittingChainAdmitted` | src/ptest/agent_assessment.py:2277-2299 | a chain for which `chain_fits` holds is admitted whole if and only if its uncached reads do not end exactly on the byte budget |
| `Admission.TakenExactly` | src/ptest/agent_assessment.py:2277-2339 | `chain_fits` holds and the reads do not end on the byte budget if and only if admission would take each of the files whole in its turn |
| `Admission.FitsExactly` | src/ptest/agent_assessment.py:2277-2299 | `chain_fits` holds if and only if admission would take the chain whole with one byte more to read |
| `Admission.AdditionsSplit` | src/ptest/agent_assessment.py:2278-2279 | what a packet lacks of a chain is told member by member, in order |
| `Admission.UncachedSplit` | src/ptest/agent_assessment.py:2291 | so are the files not read yet |
| `Admission.OneMember` | src/ptest/agent_assessment.py:2278-2291 | a single file is lacking exactly when its path is not in the packet, and unread exactly when it is not in the cache |
| `Admission.CompleteMeansWhole` | src/ptest/agent_assessment.py:1487-1496 | over unchanging files and a faithful cache an excerpt is flagged complete exactly when it is the whole file |
| `Admission.ShortEntryMisleads` | src/ptest/agent_assessment.py:1487-1496 | a cache entry read with a smaller limit is flagged complete although the file goes on exactly when the file exceeds that limit |
| `PacketRuns.ShortEntryIsShownComplete` | src/ptest/agent_assessment.py:1649-1679 | a concrete run: the context reader takes two bytes of a three-byte file, and admission then shows those as the complete file |
| `PacketRuns.FittingChainIsTakenBack` | src/ptest/agent_assessment.py:2277-2339 | a concrete run: a chain of two one-byte files fits, its reads end on the byte budget, it is taken back, and the truncated counter and the ledger are not what they were |
| `PacketRuns.EmptyPacketIsTooLarge` | src/ptest/agent_assessment.py:2485-2503 | a concrete run: everything is dropped and the packet is still beyond the prompt cap |
| `PacketBuild.Builder.Reader` | src/ptest/agent_assessment.py:1649-1679 | the context reader stays within the ledger even when reads fail, and keeps the cache faithful when it asks for at least one sentinel read; over unchanging files it returns the bytes asked for exactly when the budget has room for all of them or the file ends before it |
| `PacketBuild.Builder.CandidateTextPool` | src/ptest/agent_assessment.py:1777-1849 | only complete text files of the listed size are ranked, and the ledger caps hold; over unchanging files the texts are exactly those of the candidates for which, in order, the cache holds the listed size or the ledger suffices to read it, until an unread candidate finds the ledger used up |
| `PacketPool.PoolDecided` | src/ptest/agent_assessment.py:1777-1849 | of unread candidates with true sizes and different paths, exactly those are ranked that are text, within the per-file cap, smaller than a sentinel read, and for which files and bytes suffice after those before them; each with its whole text |
| `PacketBuild.Builder.PoolRead` | src/ptest/agent_assessment.py:1812-1840 | one candidate's bytes are the cached or freshly read ones of the listed size, or none; it stops exactly when the candidate is small enough, unread, and the ledger is used up; over unchanging files it answers, charges and caches exactly what `PacketPool.PoolOf` says |
| `PacketBuild.Builder.ProbeLock` | src/ptest/agent_assessment.py:1024-1064 | a lock file counts as locked exactly when the probed prefix is text and the budget did not cut it |
| `PacketBuild.Builder.AdmitCandidate` | src/ptest/agent_assessment.py:1455-1576 | the imperative admission computes the specified state, logs the one fate that the counters and excerpts bear out, which is decided by the bytes and the counts before as in `FateDecided`, and never asks intake to stop |
| `PacketBuild.Builder.AdmitFresh` | src/ptest/agent_assessment.py:1499-1535 | the branch that opens the file reserves before opening and settles after |
| `PacketBuild.Builder.AdmitList` | src/ptest/agent_assessment.py:2151-2160 | a list of candidates: exactly these are logged, in order, each with its own fate; over unchanging files the state is that of admitting them in order |
| `PacketBuild.Builder.AdmitChain` | src/ptest/agent_assessment.py:2301-2339 | a chain is kept, completed, and recorded, or excerpts, path map and byte count are as before; it is given to admission if and only if it fits, can be completed, and still fits, and then kept if and only if every file it lacked was admitted, which over listed unchanging files means that its reads do not end exactly on the byte budget; everything given is logged, as withdrawn if the chain was not kept |
| `PacketBuild.Builder.AdmitFitting` | src/ptest/agent_assessment.py:2319-2339 | after a positive fit check: the files the chain lacks are given, the chain is kept if and only if all of them are admitted, and otherwise excerpts, path map and byte count are restored; over listed unchanging files it is kept if and only if the reads do not end exactly on the byte budget, and the counters are in either case those of having admitted it |
| `PacketBuild.WholeWhenAdmitted` | src/ptest/agent_assessment.py:2326-2339 | of files that were not in the packet, all are in afterwards if and only if each was admitted |
| `PacketLog.BalancedBack` | src/ptest/agent_assessment.py:2332-2339 | taking back a chain's excerpts but not its counters keeps the account of every candidate balanced |
| `PacketBuild.Builder.SelectChains` | src/ptest/agent_assessment.py:2341-2355 | each item gets at most two chains from different callers, all wholly in the packet; fewer only if each of its chains comes from a caller it has or was tried for it in vain, with the reason `AdmitChain` gives; the packet holds only core files and chain files, and what was offered is exactly what the tries gave |
| `PacketBuild.Builder.SelectAlternatives` | src/ptest/agent_assessment.py:2430-2444 | an item with fewer than three chains gets the first one from a new caller that is wholly in the packet already, if there is one, and nothing else changes |
| `PacketBuild.Builder.Trim` | src/ptest/agent_assessment.py:2485-2503 | trimming keeps the longest prefix of excerpts whose packet fits, with exact counts, or nothing; the packet fits afterwards if and only if some prefix of the excerpts, the empty one included, does |
| `PacketLog.BalancedDrop` | src/ptest/agent_assessment.py:2485-2503 | so does dropping the last excerpt and counting it as truncated |
| `PacketLog.ReportsAll` | src/ptest/agent_assessment.py:1455-1576 | in a balanced account every candidate is reported exactly once, except that a cut file counts twice and a withdrawn one not at all |
| `PacketBuild.Builder.ProjectRest` | src/ptest/agent_assessment.py:2385-2397 | the counters move exactly by the projection of the sizes, and over plain files, where the listed sizes leave no doubt as in `CertainMeansAgreed`, to where admitting every candidate would have moved them |
| `PacketBuild.Builder.BuildFull` | src/ptest/agent_assessment.py:2009-2537 | over a whole run: reads and reservations within the caps, distinct paths, the byte count is the sum of the excerpts and within its cap, the packet keeps the longest prefix that fits and exactly the chains still whole in it; over unchanging files every inventoried context file was read, a lock is told locked exactly by its first bytes, and the ranking texts are those of the pool, as far as the ledger reached; the candidates given are exactly the core files, in order what the recorded tries of chains gave, and the files no selected chain needed; every try was decided as in `AdmitChain`, and an item has fewer than two chains only when each of its chains was tried in vain; the excerpts are exactly those admitted and neither withdrawn nor dropped, in order; and kept, skipped and truncated add up to the candidates, plus the cut ones, less those withdrawn with their chain |
| `PacketBuild.Builder.BuildStatic` | src/ptest/agent_assessment.py:2365-2397 | the same for a static packet: the candidates given are exactly core and marker files, the rest moves the counters exactly by its projection, and kept, projected, skipped and truncated add up to all candidates plus the cut ones |
| `PacketBuild.CompleteKeeps` | src/ptest/agent_assessment.py:2526-2533 | trimming drops from the record exactly the chains that are no longer whole |
| `PacketBuild.CompleteSplit` | src/ptest/agent_assessment.py:2526-2534 | the record is told chain by chain, in order |
| `PacketBuild.CompleteOne` | src/ptest/agent_assessment.py:2528-2532 | a single chain is recorded exactly when all its files are in the packet |
| `PacketBuild.UnprotectedSplit` | src/ptest/agent_assessment.py:2398-2405 | the remaining files are told file by file, in order |
| `Assembly.BindSourceIds` | src/ptest/agent_assessment.py:3186-3226 | citations for all identifiers in order, or rejection: at most sixteen, distinct, offered, and each an original span of a complete admitted excerpt |
| `Assembly.BoundStand` | src/ptest/agent_assessment.py:3186-3226 | identifiers are bound if and only if there are at most sixteen, none twice, and each was selected and names a unit that quotes the lines of a complete admitted file; each citation gives just those lines and the digest of that file |
| `Assembly.JoinSplits` | src/ptest/agent_assessment.py:3217-3220 | the text of a unit is the lines it names put one after the other |
| `Assembly.BoundCites` | src/ptest/agent_assessment.py:3186-3226 | every bound citation lies inside an admitted excerpt and carries its hash |
| `Assembly.ConfigSectionSpan` | src/ptest/agent_assessment.py:3404-3427 | the span runs from the first header of the section to just before the next foreign header; none exactly when there is no such header |
| `Assembly.AddoptsSpan` | src/ptest/agent_assessment.py:3502-3536 | the span runs from the first entry in a deciding section to the first line after which brackets balance and no continuation follows |
| `Assembly.Narrow` | src/ptest/agent_assessment.py:3553-3580 | a citation is narrowed to exactly that section or entry, or to the whole excerpt |
| `Assembly.ReadingTable` | src/ptest/agent_assessment.py:3553-3580 | which items narrow to which section or entry, and that no other item does |
| `Assembly.NarrowedCites` | src/ptest/agent_assessment.py:3553-3580 | a narrowed citation never leaves its excerpt |
| `Assembly.AnswerChildRow` | src/ptest/agent_assessment.py:3539-3597 | a deterministic answer keeps its status and reason with its citations, or becomes unknown without evidence, and says so, when it cannot be cited |
| `Assembly.ValidateOneRow` | src/ptest/agent_assessment.py:3229-3298 | a reply is accepted exactly when it meets every requirement; then row and finding hold what it says, with the citations that stand for its identifiers |
| `Assembly.CheckReview` | src/ptest/agent_assessment.py:3624-3657 | a review passes exactly when everything it offers is fresh for this packet |
| `Assembly.FreshMeans` | src/ptest/agent_assessment.py:3624-3657 | fresh means: the scope and every excerpt path are those of the packet, every unit quotes a complete admitted file under the identifier this packet gives it and is not excluded, no identifier is there twice, and every selected one is there |
| `Assembly.RowCites` | src/ptest/agent_assessment.py:3660-3712 | for any reply bytes: the row is the review's own, it has a finding exactly when it is a gap, the finding has evidence, and every citation lies inside an admitted excerpt with its hash |
| `Assembly.AssembleChild` | src/ptest/agent_assessment.py:3600-3717 | it succeeds if and only if reviews and replies are aligned, fresh and matching, and no more of the reviews end as applicable than the checklist has items; then it returns one row per review in order and the gap rows' findings in order, whatever the reply bytes, with the score that counts the satisfied rows, the rows that apply, and the floor of their percentage; it reports stale input if and only if the first review that is not fine is stale |
| `Assembly.ScoreCounts` | src/ptest/agent_assessment.py:2540-2556 | the score by the indices of the rows: satisfied counts the satisfied ones, applicable those that are not excused, percent is the floor of their percentage, and there is none exactly when no row applies |
| `Assembly.RepeatedItemIsRefused` | src/ptest/agent_assessment.py:3600-3717 | a concrete aligned and fresh input that is refused: two failed reviews of a one-item checklist |
| `Assembly.AdmittedFit` | src/ptest/agent_assessment.py:1561-1567 | an admitted excerpt spans exactly the lines of its text |
| `Assembly.ScoreBounds` | src/ptest/agent_assessment.py:2540-2555 | such a score is within its bounds, and a hundred exactly when every row that applies is satisfied |
| `ArgvFit.CoveringDirs` | src/ptest/cli.py:3418-3434 | the loop finds the deepest level that fits, or the project root; a level is told from the characters of the paths: what stands for a file is the file itself at the root and otherwise the ancestor of exactly that many components, or of as many as the path has slashes, and the level is exactly the entries not below another, each once |
| `ArgvFit.CoveringCovers` | src/ptest/cli.py:3418-3434 | every file lies under the covering directories |
| `ArgvFit.CoveringFits` | src/ptest/cli.py:3418-3434 | the covering directories fit the request |
| `ArgvFit.CoveringIsDeepest` | src/ptest/cli.py:3418-3434 | no deeper level fits, whichever way its entries are listed |
| `ArgvFit.PickedStands` | src/ptest/cli.py:3426-3427 | for every depth exactly that ancestor stands for a file |
| `ArgvFit.CoveringIs` | src/ptest/cli.py:3418-3434 | the covering directories over all depths there are, from the characters of the paths alone |
| `ArgvFit.ByteLengthIs` | src/ptest/cli.py:3412-3415 | the size of a path is the length of its UTF-8 encoding |
| `ArgvFit.TestFileIs` | src/ptest/contracts.py:1477-1479 | the file of a test is the text before the first separator |
| `ArgvFit.NarrowedExactly` | src/ptest/cli.py:3450-3469 | a collapsed run is narrowed if and only if there is an index and the deselections stay within two hundred thousand; the extra ones are exactly the recorded, bindable tests of indexed files under the directories that are neither planned, kept nor deselected, one for each record |
| `ArgvFit.DeepestIsOwnDirectory` | src/ptest/cli.py:3424-3427 | the deepest level stands for every file by its own directory |
| `ArgvFit.FitArgv` | src/ptest/cli.py:3437-3469 | in every exit the arguments fit, deselections are only added and stay within their cap; over paths a test that was to run still runs unless only a directory argument covers it, and within the cap nothing recorded runs from outside the planned and kept files |
| `ArgvFit.NeverLosesATest` | src/ptest/cli.py:3437-3469 | over plain files every test that was to run still runs, in every exit |
| `ArgvFit.LostExactly` | src/ptest/cli.py:3458-3465 | over paths a test is lost if and only if it is a recorded, bindable test of an indexed file that only a directory argument covers |
| `ArgvFit.StaysInPlan` | src/ptest/cli.py:3458-3469 | within the deselection cap every recorded, bindable test of an indexed file that runs lies in a planned or kept file |
| `ArgvFit.GivenUpKeepsDeselect` | src/ptest/cli.py:3466-3468 | deselections are only added, only by a successful narrowing, and never beyond the cap |
| `ArgvFit.FittedFits` | src/ptest/cli.py:3412-3469 | the arguments fit the request for relative paths |
| `ArgvFit.FilterFolderDeselect` | src/ptest/cli.py:3795-3807 | keeps in order exactly the deselections of folder files that the user did not name |
| `ArgvFit.FolderDeselectSplits` | src/ptest/cli.py:3795-3807 | the filter works deselection by deselection, in order |
| `ArgvFit.FolderDeselectOne` | src/ptest/cli.py:3795-3807 | one is kept exactly if a selected argument has its file and no named one has |
| `ArgvFit.WithoutSplits` | src/ptest/cli.py:3903-3916 | what is left of a list is told item by item, in order |
| `ArgvFit.FitFolderArgv` | src/ptest/cli.py:3895-3911 | everything the user named stays an argument, and a test of the filtered plan still runs if and only if it is not dropped as in `FolderLosesExactly` |
| `ArgvFit.FolderLosesExactly` | src/ptest/cli.py:3895-3911 | in a folder run, with node ids among the named arguments, a test is lost if and only if the selection is collapsed and narrowed and it is a recorded, bindable test of an indexed file that lies under the collapsed directories and is not itself an argument |
| `ArgvFit.NamedDecide` | src/ptest/cli.py:3904-3911 | named arguments leave room for some folder run if and only if they fit by themselves, each taken once; beyond the budget no run with them fits, whatever is planned beside them |
| `ArgvFit.FittingPlanIsNotCollapsed` | src/ptest/cli.py:3904-3911 | a selection beyond the budget whose planned part fits by itself stays beyond it: nothing is collapsed |
| `ArgvFit.PlannedAloneFits` | src/ptest/cli.py:3904-3911 | without named arguments a folder run over relative paths always fits |
| `ArgvFit.OneTooMany` | src/ptest/cli.py:3904-3911 | a concrete run: two hundred planned files beside one named file do not fit, although either part does |
| `ArgvFit.WholeFilesKeepTheirTests` | src/ptest/cli.py:3895-3911 | a file that is itself an argument loses no test, and one the user named runs also those the plan deselects |
| `ArgvFit.OnlyNamedTestsAreLost` | src/ptest/cli.py:3661-3676 | where no argument is a directory of test files, every lost test was named by the user |
| `ArgvFit.NamedTestIsLost` | src/ptest/cli.py:3454-3465 | a concrete family of runs: beside more than two hundred planned files of one directory, a recorded test named by the user is an argument, is deselected as well, and does not run |
| `SafeFiles.Store.WalkToParent` | src/ptest/files.py:80-125 | on success only the returned descriptor stays open; on failure none does, except one child exactly when its type could not be read |
| `SafeFiles.DescriptorLeaks` | src/ptest/files.py:80-125 | a concrete run that leaves a descriptor open |
| `SafeFiles.Store.WriteAll` | src/ptest/files.py:357-360 | the write loop ends with the whole payload in the own inode or fails, and touches nothing else |
| `SafeFiles.Store.CreateExclusive` | src/ptest/files.py:313-396 | over a linked log of every folder state, others' steps included, no pre-existing or raced-in entry or content is ever touched; a failed call leaves its own inode under the name with content only if invalidating it and inspecting or removing it failed; a descriptor stays open if and only if the type of a directory on the way could not be read; where no call fails it refuses only because the name was taken, at the start or at a logged moment; with nothing failing and nobody acting it succeeds exactly when the name is free, and then only that name and its content are new; a failing check or finalizing step, and a way that is no directory, never end in success |
| `SafeFiles.Store.RollBack` | src/ptest/files.py:370-387 | a failed creation empties its own inode and removes the entry only while it leads to that inode |
| `SafeFiles.Store.PublishAtomic` | src/ptest/files.py:539-588 | over the same log, each own step leaves readers of the name with what they saw or shows them the whole payload, and touches no other content; it answers true exactly with a logged step that published, and false only if no own step did; where no call fails it answers false only because the temporary name was taken; the temporary is gone unless removing it failed; descriptors are closed; with nothing failing and nobody acting only that name's content is new, while otherwise exactly the entry of the temporary name is removed |
| `SafeFiles.ForeignTemporaryIsRemoved` | src/ptest/files.py:557-588 | a run that publishes nothing and removes another's file, because it had the temporary name |
| `SafeFiles.Store.WriteAndSwap` | src/ptest/files.py:557-580 | nothing shows before the rename, and the rename shows the whole payload |
| `BundleInstall.Installer.InstallBundle` | scripts/install.py:264-376 | over a linked log of every host state, others' steps included: from a host whose public name does not lead to this bundle, after every move it leads there only if the bundle is published and complete, whatever fails; nothing ever published is touched; where no call fails it gives up only because its name was taken or the public name was at some moment a foreign file; after a raised fault the temporary link is left if and only if removing it failed, and an unpublished bundle if and only if preparing its directory, removing it, or removing the link before it failed; with nothing failing it installs exactly when its name is free and the public name is not a foreign file, and then adds just its bundle, link and publication; whatever others do, an installed bundle has all its wheels, its environment and its marker, and no call it cannot do without failed |
| `BundleInstall.Installer.Begin` | scripts/install.py:274-285 | when the bundle's name was free and beginning failed, its directory is left if and only if preparing it failed |
| `BundleInstall.BundleStaysBehind` | scripts/install.py:274-285 | a concrete run that leaves an unpublished bundle directory behind |
| `BundleInstall.Installer.Swap` | scripts/install.py:348-360 | the link is swapped only onto a bundle whose marker is written, and only after a moment at which the public name was not a foreign file |
| `BundleInstall.Installer.WriteMarker` | scripts/install.py:238-261 | the bundle counts as complete only after the whole marker is written; a failed write leaves no whole marker, and none at all unless removing it failed |
| `BundleInstall.Installer.AbandonStaging` | scripts/install.py:318-322 | a fault while staging removes the unpublished bundle unless that fails, and then the root if it is empty unless that fails |
| `BundleInstall.Installer.CleanUp` | scripts/install.py:371-376 | a later fault removes the temporary link, and the bundle only if it was not published |
| `BundleInstall.StepsCompose` | scripts/install.py:264-376 | installers with different random names do not disturb what the others rely on |
| `BundleInstall.OwnLinkResolves` | scripts/install.py:348-360 | over any run of fair moves from a host whose public name does not lead to this bundle: at every later moment it leads to the bundle only when that is published and complete |
| `BundleInstall.PublicLinkResolves` | scripts/install.py:348-376 | over any run of fair moves from a host whose public link resolves: it resolves after every move, unless others at a logged moment put a link there that does not |
| `BundleInstall.PublishedStays` | scripts/install.py:264-376 | over any run in which every move is fair, at any later moment: a bundle that was once published is still published and complete, and its contents are the same unless a move of others changed them |

## Left out

- The scheduler, the dynamic selection engine, provider launching with its pipes and heartbeats, the command line, terminal and report rendering, the checklist and skill texts, and the mutation operators: not part of this model.
- Error codes and message wording: errors are kept apart only where a caller's behaviour depends on it (a rejected reply's row says "invalid reply" without the detail).
- Permissions, ownership, fsync and symlink policy beyond refusing what is not a regular file or a real directory.
- The instruction files and the guide are read once, before the first step of apply; the model lets each step decide at a look of its own, which sees the same texts where nobody else acts, and where others act at a later moment than the source does.
- Paths in the guidance transaction are whole paths: a directory renamed away while a descriptor on it is held is not modelled.
- In the guidance modules a file's text stands for its bytes (UTF-8 encoding is taken as the identity), and temporaries are only counted.
- A hard link that others make to an inode being written is not modelled in the guidance transaction.
- The fault between making a directory and looking at it before it is journalled is modelled by a separate switch that the all-or-nothing theorem excludes.
- Foreign steps between the last identity check and the system call it guards, which no program can exclude.
- Signals that interrupt the program itself (such as a keyboard interrupt) between a call and the next statement.
- Reuse of the child's number after it is reaped: members carrying that number are excluded from the containment statement, as the source skips them.
- FitArgv: which tests still run is stated for planned files that are paths, the only ones its callers pass.
- Hashing, JSON, regular expressions, prose checks and line splitting are functions given from outside; so are the safety check of test identifiers, the importance order of candidates, item chains and their completion, and the packet's size.
- Excerpt texts are kept in encoded form; decoding them is covered by `Utf8`.
- The second map of texts kept for ranking, dependency facts beyond the lock probe, and the notes about missing support files.
- A deadline that expires while a packet is built: the packet is discarded.
- The order of covering directories and extra deselections: the model keeps the order of the files and of the recorded tests, the source sorts.
- The filter of conditional entries of folder files, which differs from the deselection filter only in the entries' type.
- Writes of zero bytes without an error in the file write loops, which would never end in the source.
- `unlink_if_same`, private directories and locked creation in the same file: single-branch operations beside the modelled ones.
- The zero-padded form of mutant identifiers and the random generator behind the shuffles (any shuffle is allowed).
