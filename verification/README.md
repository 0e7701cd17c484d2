# Basaltwater: models of its parsers and recovery protocols

Basaltwater provisions and configures machines. The parts that are hard to get right are
not the commands it runs but what surrounds them: a ZIP reader that works on byte ranges of
a remote archive, a JSONC normaliser, a check of firewall rules, and many protocols that
write a record, change the machine, and must survive being interrupted anywhere in between.
This project models those parts in Dafny, with one module per component, and proves what
they are for.

| module | component |
|---|---|
| `RemoteZip` | one member of a remote ZIP archive, fetched by byte ranges and rebuilt as an archive of one (APPNOTE.TXT sections 4.3.7, 4.3.12 and 4.3.16) |
| `ZipFormat` | archives written field by field as APPNOTE.TXT has them, and what the reader answers for them |
| `Jsonc` | comments and trailing commas out of a JSONC configuration |
| `JsoncText` | the same stages on literals, comments, commas and JSON values written out character by character |
| `T3Activation` | switching a user service to a new release, with rollback |
| `NetworkTransition` | a live network change that is prepared, committed, aborted or finalized |
| `Firewall` | the verification of rule order, and the rewrite of the rule list |
| `BuildHostMarker` | the ownership marker of the build host, with lists of at most two digests |
| `Ed25519Key` | the one accepted spelling of an ssh-ed25519 public key |
| `AgentContext` | defaults kept in a user's configuration file, and a plugin file |
| `AgentSecurity` | restrictions of an agent's account that can be taken back |
| `BuildTarget` | enrollment under a serving hold, with a plan of directories to create |
| `StorageMerge` | merging a request into a saved guest layout, and reusing saved metadata |
| `TestOutput` | a text stream that keeps a bounded tail |
| `StorageCases`, `ContextCases`, `HostCases`, `NetworkCases`, `FirewallCases` | the conditions of the modules above with every name, number, word and digest written out |
| `Common`, `Slices`, `Bytes`, `Texts` | shared values, slices of slices, little-endian fields, Python's operations on strings |

How interruption is modelled. The state that survives the process is a value, and every
write the code makes is one step between such values. A class stands for one run; it keeps
the sequence of the values that an interruption could leave behind, and the contracts of its
methods speak about all of them. Methods named `Lifetime` put any number of runs, each cut
off anywhere, behind one another. In `T3Activation` the same is said of traces, and in
`NetworkTransition` of all runs of a state machine whose steps the methods are shown to take.
Failures that do not depend on the modelled state are parameters: a command that is refused,
a file that cannot be written, a worker that is busy, a user who edits a file meanwhile.

How definitions are pinned down. A method and the function that specifies it can be wrong
together, so the functions have statements that do not use their words: a writer of ZIP
records that shares nothing with the reader, texts made of literal characters, status lines
made of literal words, and for each decision the exact condition in names and numbers. The
plainest of them, which write out a constant, a path or the fields of a record, have no row
in the table below.

## What does not hold, and exactly when it does

- **An archive member whose local record is 2^32-1 bytes long.** The rebuilt archive is then
  taken for ZIP64 by the code's own reader. `MiniZipRoundTrip` has the equivalence,
  `LongestMemberIsExtractable` an archive whose directory lists such a member; a member that
  ends before the end record is never one (`MemberBeforeEndRoundTrips`).
- **Firewall lines that are passed over.** The check reads a status line as text, and four
  kinds of lines may open a guarded port before its guard without being noticed: a subnet,
  whose prefix length is read as a protocol (`10.0.0.0/8`); an address of version 6, whose
  first and last group are read as a range of ports (`2001:db8::1`); a comment that goes on
  after setup's own (`allow-old`), which is exempt here and yet not deleted by the rewrite; and
  a rule between two addresses of version 6, which shows no `(v6)`. `OverlookedRules` has an
  accepted list for each, and `IsStray` is the condition. Apart from these lines, the guard
  itself is read too kindly: a line that shows port, `DENY IN` and setup's guard comment passes
  for the guard even if it denies one source only (`NarrowGuardIsOverlooked`,
  `NarrowGuardIsAccepted`). These are all: `OpenedExactly` and `AcceptedOrderProtects` show that
  exactly the packets get in that come first to a stray rule before the guard line, or to an
  accepting rule while the guard line does not deny them. `PlainListIsProtected` is the case
  without any: rules that show family, action and ports, and guard lines that are guards.
- **A selected source that somebody denies.** `ufw prepend` skips a selected rule when there is
  a rule for the very same packets, and only an allow rule is taken out of the way. A selected
  rule is in the list in the end if and only if no such other rule is there
  (`SelectedSourcesEnter`); the verification accepts the outcome (`DeniedSourceStaysOut`).
- **A source line indented under a stanza of the interface.** It passes for the include of
  the directory, and then goes with the stanza, so that the managed file is not read any more:
  `IndentedIncludeIsLost`, with the exact condition in `IncludeIsKept`.
- **Defaults that change between two interrupted refreshes.** The first journal entry of a
  refresh replaces the pending record while the active one stays, so a file known only
  through the replaced record becomes a user override: `JournalledStart`,
  `ChangedDefaultsLoseTrack`, and for the plugin the last clause of `Plugin.Install`.
- **Three versions of a sudoers file, of the unit or of the admission file in a row.** The list
  of two digests can evict that of the file that is there. The file then passes for one that
  somebody modified, and neither enrolling nor disabling goes on (`StuckIsRefused`). For one
  enrollment the exact condition is that the cap of the list keeps both digests (`EnrollOnce`,
  `CapKeeps`, `ThirdDigest`). `SudoersEviction`, `UnitEviction` and `AdmissionEviction` are runs
  of three versions that get there; with two versions it cannot happen to sudoers files and
  units, and with one format not to the admission file (`BuildHostMarker.Lifetime`).
- **An admission file whose format changes.** A marker that announces the first admission file
  does not parse for a version that writes another one: `OtherFormatParses`, with a run that
  leaves such a marker in `AnnouncedFirstFile`.
- **A backup copy that is cut short.** The network persistence keeps the empty or incomplete
  backup for good: `TornBackupIsKept`, with the exact condition in `ContentIsBackedUp`. Aborting
  still restores everything.
- **Retrying an interrupted build-host enrollment.** It succeeds, but the store stays drained,
  because the drain it found is restored, and that was the interrupted run's: `Retry`.
- **Closing the serving gate.** Between the write and the truncation the gate holds a text
  that no lease accepts, so an interruption there leaves the target to its operator:
  `GateInBetween`, `WhatCanBeRepeated`.
- **A transaction directory that nobody has claimed yet, and a unit file with set-id or sticky
  bits.** T3 recovery refuses both and changes nothing: `ActivationIsAtomic`.
- **Two commas before one closing bracket.** One is left, on purpose, for the JSON parser to
  reject: `TwoTrailingCommasLeaveOne`, with the exact condition in
  `NoTrailingUnlessDoubled`.

## Model

| member | source | states |
|---|---|---|
| RemoteZip.FindEndRecord | common/godot_steps.py:367-382 | the greatest index with the signature whose comment reaches exactly to the end, and an error only if there is none: moving the search bound to each rejected position loses no candidate |
| RemoteZip.TailAnswersForArchive | common/godot_steps.py:469-481 | the end record of the last 128 KiB is that of the whole archive, and one exists in the tail if one exists at all |
| RemoteZip.ParseCentralDirectory | common/godot_steps.py:385-460 | every read is in bounds, and the loop computes what the records from the first byte on mean |
| RemoteZip.ScanOfRecords | common/godot_steps.py:393-456 | scanning a concatenation of whole records, whatever surrounds it, admits those records in order |
| RemoteZip.ScanReadsRecords | common/godot_steps.py:393-456 | whatever a scan accepts is that many whole records in a row |
| RemoteZip.AdmitAllExactly | common/godot_steps.py:419-456 | admission succeeds exactly on lists whose names decode and whose expected names are new, supported and not repeated; then the selection gains just those |
| RemoteZip.DirectoryOfRecords | common/godot_steps.py:385-460 | on the concatenation of any records it accepts if and only if every name decodes and each expected name is listed once and readable, and then returns each expected member with its own offset, size and verbatim record, and no other |
| RemoteZip.AcceptedDirectoryIsRecords | common/godot_steps.py:385-460 | every accepted directory is such a concatenation |
| RemoteZip.ReadDirectoryAt | common/godot_steps.py:482-528 | a directory inside the tail and a directory fetched by range give the same slice of the archive, and so the same answer |
| RemoteZip.ReadRemoteDirectory | common/godot_steps.py:463-528 | two bounded ranges answer as the whole archive would |
| RemoteZip.RewriteRange | common/godot_steps.py:575-594 | the file is the local record, the central record with offset zero, and an end record for the two |
| RemoteZip.ExtractMember | common/godot_steps.py:531-594 | exactly when each refusal happens; "truncated" if and only if the local record overruns the archive |
| RemoteZip.RelocatedRecord | common/godot_steps.py:577-580 | the patch changes nothing but the local offset |
| RemoteZip.MiniZipReread | common/godot_steps.py:367-594 | the code's own finder and parser on the rebuilt bytes |
| RemoteZip.MiniZipRoundTrip | common/godot_steps.py:531-594 | in the rebuilt bytes the end record is the appended one, the directory is exactly the one member at offset zero unless its local record is 2^32-1 bytes long, the local record is the archive's, and rebuilding again changes nothing |
| RemoteZip.LongestMemberIsExtractable | common/godot_steps.py:367-594 | an archive from which the reader returns a supported member of that length, while it refuses the archive rebuilt from it as ZIP64 |
| RemoteZip.MemberBeforeEndRoundTrips | common/godot_steps.py:367-594 | a member whose local record ends before the end record always makes the round trip |
| ZipFormat.CentralRead | common/godot_steps.py:393-427 | a central record written by section 4.3.12 is read back field by field, with exactly its name, for all field values |
| ZipFormat.OrdinaryIsSupported | common/godot_steps.py:428-447 | supported is exactly: not encrypted, stored or deflated, first disk, and no field that says ZIP64 |
| ZipFormat.WrittenDirectoryIsRead | common/godot_steps.py:385-460 | a written directory is accepted if and only if every name decodes and each expected member is listed once as an ordinary one; each then has its own offset, size and record |
| ZipFormat.RefusedMember | common/godot_steps.py:385-460 | the answer for a directory of one member, error by error |
| ZipFormat.RefusedBytes | common/godot_steps.py:395-419 | bytes that are no central header, and a record that is cut short |
| ZipFormat.LocalRead | common/godot_steps.py:555-575 | the length of a local record written by section 4.3.7 |
| ZipFormat.EndRead | common/godot_steps.py:367-382 | an end record written by section 4.3.16 is one, and its fields are read back |
| ZipFormat.EndInWords | common/godot_steps.py:367-382 | what is taken for an end record, byte by byte |
| ZipFormat.WrittenArchiveIsRead | common/godot_steps.py:367-528 | the reader at the end record of a written archive: several disks and ZIP64 counts are refused, an empty directory too, anything else is read as its directory |
| Jsonc.StripComments | common/browser_automation_steps.py:202-244 | the character loop with its string and escape state computes the specified stripping, and fails exactly on an unterminated block comment |
| Jsonc.StripTrailingCommas | common/browser_automation_steps.py:247-280 | outside strings a comma goes if and only if the next character that is not white space closes an object or a list |
| Jsonc.NormalizeConfig | common/browser_automation_steps.py:283-297 | the two stages one after the other |
| Jsonc.NewlinesSurvive | common/browser_automation_steps.py:202-244 | stripping comments leaves the sequence of newline characters unchanged |
| Jsonc.UncommentIsIdempotent | common/browser_automation_steps.py:202-244 | stripping comments again changes nothing |
| Jsonc.DocumentUncommented | common/browser_automation_steps.py:202-244 | on a document, exactly the comments are replaced by their newlines |
| Jsonc.DocumentDecommaed | common/browser_automation_steps.py:247-280 | on a document without comments, exactly the trailing commas go |
| Jsonc.LexOfDocument | common/browser_automation_steps.py:283-297 | a lexer reads the tokens back from a document without comments: none lost, none fused |
| Jsonc.NormalizedTokens | common/browser_automation_steps.py:202-297 | for any tokens with any white space and comments between them, the normalised text lexes to the same tokens, string literals byte for byte, less the commas directly before a closing token |
| Jsonc.StrictJsonIsRead | common/browser_automation_steps.py:202-297 | a document with any white space and comments is read as a given value of strict JSON if and only if it has the tokens of that value with at most one extra comma before each closing token |
| Jsonc.JsonIsClosed | common/browser_automation_steps.py:283-297 | in the tokens of a strict JSON value no comma stands directly before a closing token |
| Jsonc.NoTrailingUnlessDoubled | common/browser_automation_steps.py:247-280 | the comma stage leaves no comma directly before a closing token if and only if no two commas stand before one |
| Jsonc.RemovedCommas | common/browser_automation_steps.py:247-280 | if none is left, the commas dropped were one before each of some closing tokens |
| Jsonc.TwoTrailingCommasLeaveOne | common/browser_automation_steps.py:247-280 | of two commas before a closing bracket one is left |
| JsoncText.LiteralIsCopied | common/browser_automation_steps.py:202-280 | both stages copy every string literal, escapes included |
| JsoncText.BodyHasUnits | common/browser_automation_steps.py:202-280 | every literal that the lexer takes is of that form |
| JsoncText.LineCommentGoes | common/browser_automation_steps.py:202-244 | a line comment goes, up to its line break, which stays |
| JsoncText.BlockCommentGoes | common/browser_automation_steps.py:202-244 | a block comment becomes a space and its line breaks; without an end it is an error |
| JsoncText.OtherCharacterStays | common/browser_automation_steps.py:202-244 | every other character outside literals stays |
| JsoncText.CommaGoesExactly | common/browser_automation_steps.py:247-280 | outside literals a comma goes if and only if only white space stands between it and `}` or `]`; every other character stays |
| JsoncText.TrailingCommasGo | common/browser_automation_steps.py:283-297 | every JSON value written with a trailing comma in each of its lists and objects is normalised to itself without them, and JSON stays as it is |
| JsoncText.ValueIsRead | common/browser_automation_steps.py:283-297 | every JSON value has a document with exactly its tokens, and the normaliser and lexer read it as that value |
| T3Activation.Host.Inspect | common/cachyos_t3.py:570-622 | the refusals of recovery, in the order in which it looks for them, and no effect |
| T3Activation.Host.Recover | common/cachyos_t3.py:594-640 | recovery passes through exactly the worlds of its specified trace; it refuses without any effect |
| T3Activation.Host.Activate | common/cachyos_t3.py:643-683 | activation passes through exactly the worlds of its specified trace, and through recovery's when the service does not come up or the unit is not setup's |
| T3Activation.Host.WriteManaged | common/cachyos_steps.py:153-163 | a unit without the marker is refused and stays; one whose text is already right is kept with its mode; another is replaced |
| T3Activation.ActivationIsAtomic | common/cachyos_t3.py:594-683 | recovery from every world of an activation ends with binary, unit text and mode, enablement and activity all as before, or from the commit on all as proposed; exactly when it refuses instead, changing nothing |
| T3Activation.QuietRecovery | common/cachyos_t3.py:634-640 | a recovery that is not to start the old service ends the same but for the service being stopped |
| T3Activation.RecoveryIsRestartable | common/cachyos_t3.py:594-640 | interrupted anywhere, recovery is recognised again and ends the same |
| T3Activation.ForeignFilesSurvive | common/cachyos_t3.py:594-640 | a unit text or executable that is neither old nor proposed, put there at any interruption of an activation or of the recovery after it, is never touched by recovery; on record and uncommitted, nothing at all changes |
| T3Activation.RefusalAtInterruption | common/cachyos_t3.py:570-622 | what recovery says at any interruption of a recorded activation, for any files that a user has put there or removed |
| T3Activation.MissingFilesAreReported | common/cachyos_t3.py:594-622 | an executable or unit that was there before and is gone is refused, and nothing changes |
| T3Activation.ForeignFilesSurviveRuns | common/cachyos_t3.py:512-640 | neither such files, nor files that are missing, are touched by any number of further attempts |
| T3Activation.AttemptIsAtomic | common/cachyos_t3.py:512-555 | one attempt to complete setup, killed or failing anywhere, leaves the settled service as it was or as the candidate's |
| T3Activation.InterruptedRunsAreAtomic | common/cachyos_t3.py:512-683 | any number of attempts refine one atomic switch per attempt whose commit was reached |
| T3Activation.WaitForUi | common/cachyos_t3.py:335-397 | it succeeds at the first of three rounds in a row answered under one invocation, unless the unit failed before |
| NetworkTransition.PersistableIsSnapshotted | common/network_steps.py:337-463 | every file that persistence may create, move or rewrite, also after earlier interrupted attempts, is in the snapshot taken before |
| NetworkTransition.EffectKeepsRecoverable | common/network_steps.py:765-1086 | every effect, in whatever order, keeps every difference from the baseline on record |
| NetworkTransition.RunStaysRecoverable | common/network_steps.py:765-1086 | over any run, no address that was live is ever missing, and whenever anything differs from the baseline the journal is there |
| NetworkTransition.RestoredFilesAreTheBaselines | common/network_steps.py:727-762 | when the snapshotted files are restored, all files are as in the baseline |
| NetworkTransition.OwnJournalLoads | common/network_steps.py:623-947 | the loader and the rollback validation accept every journal that prepare writes |
| NetworkTransition.Machine.SelectPolicyTable | common/network_steps.py:513-544 | the least free table of the range, or none only if none is free |
| NetworkTransition.Machine.CaptureSnapshot | common/network_steps.py:557-620 | exactly the snapshot paths with their present contents; refused only for a directory among them |
| NetworkTransition.Machine.WriteJournal | common/network_steps.py:775-810 | on failure nothing has happened; on success the journal captures the world before |
| NetworkTransition.Machine.RestoreFiles | common/network_steps.py:727-762 | all snapshotted files are as recorded, and no other file is touched |
| NetworkTransition.Machine.Prepare | common/network_steps.py:765-847 | on success all requested addresses, rules and routes are there; on failure, with cleanup commands that work, the world is exactly the one before; it succeeds where no command fails, tables are free and no directory is in the way |
| NetworkTransition.Machine.Abort | common/network_steps.py:1057-1074 | success means exactly the baseline; with commands that work it succeeds from every reachable world; otherwise the journal is kept |
| NetworkTransition.AbortRestores | common/network_steps.py:958-1074 | from any world of any run, aborting restores exactly the world at its beginning |
| NetworkTransition.Machine.Commit | common/network_steps.py:958-988 | live state is untouched; on failure the files are the baseline's and the transition stays prepared; committing twice changes nothing; it succeeds where nothing fails, the main file is readable and old backups can be moved |
| NetworkTransition.Machine.Finalize | common/network_steps.py:1077-1086 | succeeds exactly without a journal or with a valid committed one, and only drops the journal |
| NetworkTransition.StripStanzas | common/network_steps.py:319-334 | the loop with its skip flag computes the specified stripping |
| NetworkTransition.StrippedFacts | common/network_steps.py:319-334 | no stanza of the interface is left, stripping again changes nothing, and every other top-level line stays in order |
| NetworkTransition.IncludeSurvives | common/network_steps.py:319-334 | a source line is left if and only if one was outside the dropped stanzas |
| NetworkTransition.IncludeIsKept | common/network_steps.py:371-453 | the main file reads the directory afterwards if and only if it had no source line, or had one outside the stanzas |
| NetworkTransition.IndentedIncludeIsLost | common/network_steps.py:371-453 | a file for which it does not |
| NetworkTransition.Machine.CopyToBackup | common/network_steps.py:360-368 | the backup is made through a state in which it is empty |
| NetworkTransition.Machine.WriteWithBackup | common/network_steps.py:360-368 | the new content with the old mode, and the old content in a backup unless there is one |
| NetworkTransition.ContentIsBackedUp | common/network_steps.py:360-368 | the content replaced is in the backup if and only if no other backup was there |
| NetworkTransition.TornBackupIsKept | common/network_steps.py:360-368 | after an interrupted copy the retry leaves the empty backup |
| NetworkTransition.Machine.RelocateBackups | common/network_steps.py:346-357 | every old backup, and nothing else, is moved unchanged; refused only for a link, a non-file or a taken destination |
| NetworkTransition.Machine.EnsureInclude | common/network_steps.py:392-407 | the main file has an include afterwards and is otherwise as it was |
| NetworkTransition.MainIsKept | common/network_steps.py:392-407 | the new main text is the old one up to its last line that is not blank, one blank line, and the source line |
| NetworkTransition.TopLinesAreKept | common/network_steps.py:319-407 | every top-level line outside the stanzas stays, in order, and only the source line is added |
| NetworkTransition.MainKeepsItsLines | common/network_steps.py:371-453 | so it is for the main file after persistence, which has the loopback lines if there was none before |
| NetworkCases.SnapshotInWords | common/network_steps.py:574-620 | which paths are recorded before anything is changed |
| NetworkTransition.Machine.RemoveStanzas | common/network_steps.py:371-389 | every configuration file has lost just its stanzas of the interface, no backup is overwritten, nothing else changes |
| NetworkTransition.Machine.ConfigureIfupdown | common/network_steps.py:445-453 | the managed file holds the request, and no other file that ifupdown reads has a stanza of the interface |
| NetworkTransition.Machine.Persist | common/network_steps.py:466-485 | the backend's files and the cloud-init file are as requested |
| Firewall.ColumnOverlaps | common/cachyos_firewall.py:225-235 | how the destination column is read: the text after the first slash, parts between commas, first and last piece between colons, and an overlap if one is no number |
| Firewall.VerifyRuleOrder | common/cachyos_firewall.py:207-238 | accepts exactly the lists in which every guard, in both families, has no line before it that reads as a threat |
| Firewall.OpenedExactly | common/cachyos_firewall.py:207-238 | under first match, in an accepted order, a packet to a guarded port is let in by somebody else's rule if and only if it comes first to a stray rule before the line that reads as the guard, or to an accepting rule while that line does not deny it |
| Firewall.TrueGuardLeavesStrays | common/cachyos_firewall.py:213-219 | with a guard line that denies what it shows, only stray rules are left |
| Firewall.AcceptedOrderProtects | common/cachyos_firewall.py:207-238 | so acceptance protects all packets to guarded ports in a family if and only if no such rule comes first for any of them |
| Firewall.CoversExactly | common/cachyos_firewall.py:207-238 | the overlap arithmetic: a rule covers a guard if and only if some packet to a guarded port matches it |
| Firewall.ShownPortsAreRead | common/cachyos_firewall.py:229-235 | a column of ports as they are shown is read as those ports: it is clear of the guard if and only if no range meets it |
| Firewall.PlainRulesAreNotStray | common/cachyos_firewall.py:220-236 | a rule that shows its family, its action and its ports is never passed over, unless its comment begins like setup's |
| Firewall.PlainListIsProtected | common/cachyos_firewall.py:207-238 | an accepted list whose foreign accepting rules are all such, and whose guard lines are guards, protects every packet to every guarded port |
| Firewall.OpenLineIsThreat | common/cachyos_firewall.py:220-237 | a line that shows ports that meet the guard, its protocol, the family, and then `ALLOW IN` or `LIMIT IN`, is a threat |
| Firewall.OpenLineIsRefused | common/cachyos_firewall.py:207-238 | such a rule before the first guard line of its family makes the verification fail, in every list |
| Firewall.OpenLineIsPlain | common/cachyos_firewall.py:220-236 | and it is one of the rules that are never passed over |
| Firewall.OpenRuleIsPlain | common/cachyos_firewall.py:220-236 | so is the rule that opens a guard's own ports |
| Firewall.AcceptedHasGuardLine | common/cachyos_firewall.py:213-219 | an accepted list has, for each guard and family, a line with that family, the ports as a word, `DENY IN` and setup's guard comment |
| Firewall.AcceptedInFront | common/cachyos_firewall.py:220-237 | in front of it, a line of the family with `ALLOW IN` or `LIMIT IN` has setup's allow comment or a column that names something else |
| FirewallCases.WordInWords | common/cachyos_firewall.py:214-216 | when a line shows a word: at its beginning, or behind a bracket and spaces, and with a space behind it |
| FirewallCases.PartInWords | common/cachyos_firewall.py:229-235 | when a port or a range in the column is clear of the guard |
| FirewallCases.ManagedInWords | common/cachyos_firewall.py:171-175 | which lines setup deletes |
| Firewall.StrayIsAccepted | common/cachyos_firewall.py:207-238 | every stray rule, before the guard of its family, is accepted and lets in all packets to guarded ports that it covers |
| Firewall.AddressReadsElsewhere | common/cachyos_firewall.py:226-233 | every address whose first and last group are decimal numbers clear of the guard is read as a range of other ports |
| Firewall.OverlookedRules | common/cachyos_firewall.py:207-238 | accepted lists with a subnet, an address of version 6, a longer comment, and a hidden family, each with a packet that gets in |
| Firewall.NarrowGuardIsAccepted | common/cachyos_firewall.py:213-219 | every line that reads as a guard makes a list accepted in which all packets that it does not deny get in |
| Firewall.NarrowGuardIsOverlooked | common/cachyos_firewall.py:213-219 | such a list, with a guard for one source only and no stray rule |
| Firewall.Ufw.DeleteObsolete | common/cachyos_firewall.py:171-177 | deleting collected numbers from the highest down removes exactly the managed allows and keeps all other rules in order |
| Firewall.Ufw.Rebuild | common/cachyos_firewall.py:154-195 | the commands in order produce the specified list: guards in, old allows out, new allows in front |
| Firewall.OtherRulesKept | common/cachyos_firewall.py:154-195 | every rule that setup has nothing to say about survives, in its order |
| Firewall.GuardsPresent | common/cachyos_firewall.py:144-195 | every guard is there in the end, in both families, and the verification recognises it |
| Firewall.Configure | common/cachyos_firewall.py:144-238 | the rewrite and then the verification, which never misses a guard |
| Firewall.OnlySelectedSourcesEnter | common/cachyos_firewall.py:131-238 | after an accepted run a packet to a guarded port is let in otherwise than by a selected rule if and only if it comes first to a stray rule, or to an accepting rule while the guard line does not deny it |
| Firewall.SelectedSourcesEnter | common/cachyos_firewall.py:154-195 | a selected rule is in the list in the end if and only if nobody has a rule for the very same packets other than an allow; and then every packet it describes is let in |
| Firewall.DeniedSourceStaysOut | common/cachyos_firewall.py:154-238 | an accepted outcome in which a selected source is refused, because somebody denies it |
| BuildHostMarker.CapKeeps | common/build_host_steps.py:652-681 | the capped list keeps a digest if and only if at most one other is larger |
| BuildHostMarker.CapLosesNothing | common/build_host_steps.py:652-681 | a list with a free place, or with the digest in it, loses nothing |
| BuildHostMarker.ThirdDigest | common/build_host_steps.py:652-681 | with two digests on record a third leaves file and successor on record if and only if the remaining one is the least |
| BuildHostMarker.EnrollOnce | common/build_host_steps.py:652-1454 | at every interruption of an enrollment that completes, the admission file is accepted by the preflight, and the unit and each enrolled principal's sudoers file have their digests in the marker, each if and only if the cap of its list keeps the old digest and the new one |
| BuildHostMarker.SudoersEviction | common/build_host_steps.py:652-681 | runs of three versions after which a sudoers file is not on record and no later run goes on |
| BuildHostMarker.UnitEviction | common/build_host_steps.py:954-1327 | the same for the unit, through a disable run that is rolled back |
| BuildHostMarker.AdmissionEviction | common/build_host_steps.py:1033-1045 | the same for the admission file, with three formats |
| BuildHostMarker.StuckIsRefused | common/build_host_steps.py:881-1169 | where a file is not on record, every later run of every version refuses |
| BuildHostMarker.OtherFormatParses | common/build_host_steps.py:372-452 | a version with another admission file parses the marker if and only if no first admission file of the other format is announced |
| BuildHostMarker.AnnouncedFirstFile | common/build_host_steps.py:372-1045 | a first enrollment that leaves a marker which another format refuses |
| BuildHostMarker.Host.ReconcileSudoers | common/build_host_steps.py:652-681 | refuses exactly a file that is not on record, changing nothing; otherwise the file is the desired one or gone, other records untouched |
| BuildHostMarker.Host.BeginEnrollment | common/build_host_steps.py:954-975 | succeeds exactly for an admissible admission file and no other pending enrollment; then intent and digests are on record before anything changes |
| BuildHostMarker.Host.PublishSsh | common/build_host_steps.py:1033-1045 | the admission file is published between two writes of the marker, at each of which marker and file agree |
| BuildHostMarker.Host.PrepareEnrollment | common/build_host_steps.py:954-1046 | configuration, admission and sudoers files are exactly the enrollment's; with files on record it does not refuse |
| BuildHostMarker.Host.Configure | common/build_host_steps.py:1330-1454 | success leaves exactly the files of the enrollment and their digests, and every principal managed; an inadmissible run changes nothing; an admissible one succeeds, or names what is busy and changes nothing but the drain, or reports the unit that failed; the drain afterwards |
| BuildHostMarker.Host.Revoke | common/build_host_steps.py:1172-1209 | from any state with files on record, all authority is gone |
| BuildHostMarker.Host.Disable | common/build_host_steps.py:1247-1327 | success leaves no file, an empty record and a drained store; a modified file is refused and nothing changes; a busy worker is named and the store drained; when the unit transaction is rolled back, the unit and its digests are left |
| BuildHostMarker.Lifetime | common/build_host_steps.py:372-1454 | at every interruption of any runs of any versions and formats the marker is well formed, the configuration file is on record, and a pending reconciliation is drained; with one admission format the marker parses and the admission preflight accepts; with any mixture of two versions, units and sudoers files are on record too |
| HostCases.AdmissibleInWords | common/build_host_steps.py:881-951 | what an enrollment needs: no file at all without a marker; with one, every file on record, no removal begun and no other enrollment |
| HostCases.CurrentInWords | common/build_host_steps.py:372-1454 | the unit, every sudoers file and the admission file on record, file by file |
| HostCases.KeptInWords | common/build_host_steps.py:652-681 | the condition of `EnrollOnce` in digests: of what is on record and what comes, at most one is greater than the old digest, and at most one than the new |
| BuildHostMarker.RetryIsAdmitted | common/build_host_steps.py:881-951 | an interrupted enrollment is admitted again |
| BuildHostMarker.RemovalIsAdmitted | common/build_host_steps.py:1082-1169 | an interrupted removal can be repeated from any of its states |
| BuildHostMarker.Retry | common/build_host_steps.py:1401-1444 | the repeated enrollment completes, and the store stays drained |
| Ed25519Key.EncodedReadsBack | common/build_host_steps.py:104-109 | base 64 decoding undoes encoding |
| Ed25519Key.DecodingIsAmbiguous | common/build_host_steps.py:108-109 | two texts decode alike, so the comparison with the canonical text is needed |
| Ed25519Key.KeyOfIsExact | common/build_host_steps.py:111-123 | a blob that is taken apart is the wire encoding of its 32-byte key |
| Ed25519Key.PublicKey | common/build_host_steps.py:98-124 | accepts exactly the lines of 32-byte keys, and returns the line and its wire encoding |
| Ed25519Key.LinesAndBlobsAreOneToOne | common/build_host_steps.py:98-124 | lines, blobs and keys determine each other |
| Ed25519Key.GroupInWords | common/build_host_steps.py:104-109 | three bytes and their four characters are the same number, most significant first |
| Ed25519Key.LinesBeginAlike | common/build_host_steps.py:98-124 | every accepted line has eighty characters and begins with the well-known `ssh-ed25519 AAAAC3NzaC1lZDI1NTE5AAAA` |
| AgentContext.PathsAreLeaves | lib/agent_context_state.py:53-62 | the collected paths are exactly the scalar leaves |
| AgentContext.RemovePaths | lib/agent_context_state.py:65-76 | the paths are gone, every other leaf stays, nothing is added |
| AgentContext.NoParentIsLeftEmpty | lib/agent_context_state.py:65-76 | no object on the way to a removed place is left empty |
| AgentContext.MergedLeaves | common/agent_context_steps.py:101-106 | merging gives the leaves of both |
| AgentContext.ProjectionGets | lib/agent_context_state.py:26-46 | the projection has the managed places as they are |
| AgentContext.MergedProjection | common/agent_context_steps.py:147-149 | defaults merged into an object without managed preferences are its projection |
| AgentContext.Renew | common/agent_context_steps.py:145-149 | every managed leaf becomes the default's, every other leaf stays |
| AgentContext.ParseAfterBlock | common/agent_context_steps.py:109-157 | a text behind a block parses to its own settings and the block's, and fails exactly when they overlap |
| AgentContext.CodexParts | common/agent_context_steps.py:139-157 | the new block before the rest of the file always parses, its projection is the defaults, and the rest is unchanged |
| AgentContext.Decide | common/agent_context_steps.py:125-145 | refreshes if and only if the file is setup's own by an active or pending record, or has no managed preference and no record |
| AgentContext.Seeder.Seed | common/agent_context_steps.py:113-171 | a file that is not setup's own is not written and becomes an override; an override stays one; an edit in between is kept; a refresh leaves the defaults, and nothing else differs; every state of the disk on the way is rightful |
| AgentContext.JournalledStart | common/agent_context_steps.py:162-165 | after its first journal entry an interrupted refresh is recognised if and only if the file does not depend on the record replaced |
| AgentContext.JournalledEnd | common/agent_context_steps.py:168-170 | after the file is replaced it is always recognised |
| AgentContext.ChangedDefaultsLoseTrack | common/agent_context_steps.py:162-165 | the situation in which it is not |
| AgentContext.Lifetime | common/agent_context_steps.py:113-171 | over any runs, each with its own defaults, edits before and during it, and an interruption anywhere: setup replaces a file only by journalled defaults, only if the journal knew the file right before this refresh was entered in it, and never once it is overridden; nothing but managed preferences differs then |
| AgentContext.OverrideIsAbsorbing | common/agent_context_steps.py:133-137 | after an override no later run, whatever its defaults, writes the file |
| AgentContext.OtherTextIsPreserved | common/agent_context_steps.py:147-170 | over any number of refreshes with any defaults, the text outside the block and every leaf that is not managed stay |
| AgentContext.SteadyLifetime | common/agent_context_steps.py:113-171 | with the same defaults, over any interruptions, the file is always recognised, only managed preferences change, and an uninterrupted run leaves the defaults |
| ContextCases.ParseInWords | common/agent_context_steps.py:113-157 | the top-level settings of a text are those of the lines before its first table, and there are none if one comes twice |
| ContextCases.OutsideInWords | common/agent_context_steps.py:139-157 | a file that setup refreshes is its block and the rest, or has none of the settings |
| ContextCases.MayRefreshInWords | common/agent_context_steps.py:125-145 | when a file is refreshed: by journal, records, preferences and block, without the words of the decision |
| AgentContext.Plugin.Install | common/agent_context_steps.py:205-240 | a plugin that was changed, removed or brought by the user is never touched again; otherwise the content is installed; exactly when an interruption leaves it recognised |
| AgentSecurity.PasswordComesBack | common/agent_security_steps.py:409-425 | the recorded status is enough to bring the password back with its hash |
| AgentSecurity.Account.Restrict | common/agent_security_steps.py:462-493 | what is taken away is on record before it is taken |
| AgentSecurity.Account.RejoinGroups | common/agent_security_steps.py:495-510 | exactly the wanted groups that exist are joined; missing ones are retained |
| AgentSecurity.Account.RestoreControls | common/agent_security_steps.py:409-433 | home mode, password and linger are the original ones |
| AgentSecurity.Account.Configure | common/agent_security_steps.py:436-534 | the groups, record and controls after a run of each posture; no denied group is left; refused exactly for a denied primary group or an invalid record |
| AgentSecurity.Lifetime | common/agent_security_steps.py:394-534 | over any postures and interruptions, groups and recorded groups make up the original ones, and controls that differ are on record with their original values |
| AgentSecurity.TakeBack | common/agent_security_steps.py:409-534 | an uninterrupted standard run restores the account exactly, but for groups that no longer exist, which stay on record |
| BuildTarget.MissingParentDirectories | common/build_target_steps.py:144-158 | refuses exactly an unsafe chain, and returns the missing prefixes, shortest first |
| BuildTarget.DeploymentParentPlan | common/build_target_steps.py:161-167 | every missing ancestor of the parents, once each, none before a shorter one |
| BuildTarget.ParentComesFirst | common/build_target_steps.py:161-167 | each planned directory is in one that exists or is planned before it |
| BuildTarget.Target.CreateDeploymentParents | common/build_target_steps.py:170-192 | for a plan of this tree every step finds just its own path missing, no step fails, and all parents exist in the end |
| BuildTarget.GateInBetween | lib/build_target_maintenance.py:80-86 | closing the gate passes through a text that is neither held nor ready; opening it does not |
| BuildTarget.Target.RemoveFiles | common/build_target_steps.py:437-439 | while keys are being removed no retired grant is left |
| BuildTarget.Target.WriteFiles | common/build_target_steps.py:440-442 | a new principal has its keys only when it has its grant |
| BuildTarget.Target.Reconcile | common/build_target_steps.py:391-449 | serving, files, marker and parents afterwards; between the first and the last write of the marker every state is marked as unfinished; no state before the last serves |
| BuildTarget.Target.Configure | common/build_target_steps.py:452-510 | completes exactly for safe parents and a runnable state; otherwise nothing changes |
| BuildTarget.RunnableInWords | lib/build_target_maintenance.py:90-131 | what a run needs to find, in full |
| BuildTarget.WhatCanBeRepeated | lib/build_target_maintenance.py:90-131 | which interrupted states a later run accepts |
| BuildTarget.Lifetime | common/build_target_steps.py:391-510 | at every interruption serving is on only with an enabled marker, nothing pending, and an inventory that is exactly the managed files; an interruption of a run that has changed anything leaves it off |
| StorageMerge.NamedSpecs | basaltwater.py:1433-1443 | a dictionary of the declarations, exactly when no name is empty or repeated |
| StorageMerge.MergeAdditiveStorage | basaltwater.py:1457-1563 | merges exactly additive requests and returns the new names; on refusal the configuration is unchanged |
| StorageMerge.AdditiveRequestExists | basaltwater.py:1457-1563 | there are requests that it merges |
| StorageMerge.MergedLayout | basaltwater.py:1543-1563 | the saved layout is a prefix, names stay unique, every requested declaration is there, and disks and mounts gain the same names, those returned |
| StorageMerge.MergeIsIdempotent | basaltwater.py:1457-1563 | repeating the request against the merged layout is accepted, adds nothing and changes nothing, disk settings included |
| StorageMerge.Hydrate | basaltwater.py:1663-1721 | every field is the saved one or the one of the command line, as its group demands, and no assignment undoes another |
| StorageMerge.ReuseCachedMetadata | basaltwater.py:1630-1751 | exactly when the provider need not be asked |
| StorageMerge.ReusedShapeIsSaved | basaltwater.py:1630-1751 | without a reason to ask, every field of the guest's shape is the saved one |
| StorageMerge.ReusedNameIsSaved | basaltwater.py:1651-1677 | nor does the name of a saved VM change |
| StorageMerge.AddedDisksAreProvisioned | basaltwater.py:1566-1751 | a merge that adds disks is never skipped, and its storage arguments are not reported as unsupported |
| StorageMerge.Plan | basaltwater.py:1977-2019 | refuses exactly the unsupported changes of the merged request; otherwise saved metadata are trusted only without a reason to ask, for the saved shape and with no disk to create; only merged names are created |
| StorageCases.RefusedInFull | basaltwater.py:1566-1610 | which settings a saved guest cannot change, from the fields themselves: of a VM its kind, image and caches, its bridge unless the provider is bound anew, and its layout unless it only adds disks or has the same; of a container everything but its lifecycle |
| StorageCases.AskedInFull | basaltwater.py:1630-1751 | when the provider is asked, from the fields themselves |
| StorageCases.AdditiveInWords | basaltwater.py:1457-1563 | when a layout only adds disks, declaration by declaration |
| StorageCases.DefaultsMakeNoDifference | basaltwater.py:1446-1455 | a mount with its defaults written out merges as the same mount without them |
| StorageCases.SettingsInWords | basaltwater.py:1543-1563 | the disk settings after a merge |
| StorageCases.NetworkComesFrom | basaltwater.py:1663-1721 | where key and network settings come from |
| StorageCases.SwapComesFrom | basaltwater.py:1663-1721 | where swap settings come from |
| TestOutput.Output.Write | run_tests.py:604-634 | the stream holds exactly the last characters of all that was written, up to the limit; held and omitted add up; a closed stream takes nothing |
| TestOutput.Output.Trim | run_tests.py:622-633 | the loop drops exactly the excess at the head, with the offset inside the first chunk |
| TestOutput.Output.GetValue | run_tests.py:636-640 | the notice of what is missing, then the tail |
| TestOutput.Output.HeldIsBounded | run_tests.py:619-633 | the chunks take up less than twice the limit |
| TestOutput.WriteAll | run_tests.py:604-634 | the tail does not depend on how the text was divided into writes |

## Left out

- Commands and their output: `systemctl`, `apt`, `ufw`, `ip`, `passwd` and the like are state updates; a firewall status line is its text after the number, and how `ufw` itself prints, skips, replaces and numbers rules is assumed.
- curl, DEFLATE, CRC checks and the naming of ZIP members: the archive is a sequence of bytes, and decoding a name (UTF-8 or code page 437) is a parameter.
- The NetworkManager backend of network transitions, and the transition identity that commit, abort and finalize may be asked to match.
- File descriptors, symbolic-link and ownership checks, locks, fsync; replacing a file atomically and deleting a tree are single steps.
- A backup path that is a dangling link: copying a file writes through such a link, in the model it replaces it.
- T3 desktop mode, the download and check of releases, and the record of a pending completion.
- Transport accounts, authorized keys and Node toolchains of the build host; the worker identity is constant, and the transport user of a principal is the principal.
- The order of keys and the spelling of JSON and TOML files, and their size limit; a refresh is compared leaf by leaf, so empty objects do not count; a digest stands for what it was taken of.
- Blanks at the end of the last line of the main interfaces file, which are stripped with the blank lines after it: a line is taken as a whole.
- Malformed journals of context defaults: the journal file is setup's own.
- Accounts, packages and SSH directories of the build target, and the syntax check of its sudoers files.
- Parsing of command lines, dispatch, messages, network and address validation.
- RemoteZip.ExtractMember: the archive is at most 2^32-1 bytes long, which the code checks when it asks for the length of the download.
- AgentContext.Seeder.Seed: records in the journal are such as setup writes, which the code only checks in part.
- Ed25519Key.PublicKey: texts that are no whole groups of four characters are refused when they are decoded, where the code may refuse them only when it compares with the canonical text.
- Firewall.ColumnOverlaps: digits in other scripts than ASCII, which Python reads too, are no digits.
