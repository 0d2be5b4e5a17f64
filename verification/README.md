# Ku: verified models of its governance, runtime and supervision core

Ku is a language toolchain with a package registry, an interpreter, native backends and
process supervision. This project models its most intricate parts in Dafny and proves
what they promise.

- **Registry governance** (`Text`, `Sets`, `Hex`, `Names`, `Governance*`). The registry keeps
  developers, teams, package owners and token digests in one text file together with an
  audit log. Every command edits the data and appends an event; validation replays the
  log through a second implementation and demands the same data. `Governance`,
  `GovernanceReplay`, `GovernanceChain`, `GovernanceCommands`, `GovernanceEffects`,
  `GovernanceMigration`, `GovernanceFile`, `GovernanceLegacy` and `GovernanceFormat` are the
  value-level model and its theorems; `GovernanceAcl` and
  `GovernanceStore` are the loops and the mutable state, proved against it.
- **Match patterns** (`MatchPattern`, `PatternDebug`). Stack-free traversal, comparison,
  copying, release and printing of trees, each proved equal to its recursive definition.
- **Archive validation** (`Kmp`, `Archive`, `ArchiveWriter`). A streaming matcher, the
  `ar` parser, their budgets, and a writer as the parser's reference.
- **Batch coordinator** (`Supervise`, `Coordinator`, `Receipts`). Budget partition, the
  scheduling loop under every sequence of process events, and the receipt encoders.
- **Environment** (`Bindings`, `Ownership`, `ScopeTasks`). Shared cells, one cleanup
  owner per cell, loans, and task collection at scope exit.
- **Compiled-program inspection** (`Inspection`), **checked arithmetic** (`CheckedInt`)
  and the **resident supervisor's restart policy** (`Restart`).

Conventions. SHA-256 is a parameter, any function from text to 32 bytes: no property
assumes that it is injective. Where equality rests on it, the lemma returns the colliding
texts; where validation rests on a transition hash differing from its predecessor, that is
part of the condition. Sets are visited in any order, of which the sorted or hashed order
of the source is one. Clocks, processes, pipes and the file system answer through a tape:
a function from question number to answer, over which every theorem quantifies. `hide`
statements only keep definitions out of a proof.

Where code and documentation differ, the model follows the code. The service promises that
a replacement starts only after the earlier process is confirmed gone. `launch`
(src/service_supervision.rs:296-307) passes on errors whose `cleanup_confirmed` flag is set
although nothing was confirmed, because plain provider errors set it
(src/process_execution/platform.rs:37-42): those of a termination or cleanup after a failed
release (src/service_supervision/child.rs:208-212), and those of a spawn that was given up
with the results of kill and wait discarded (src/service_supervision/child.rs:104-121).
`Restart.ReplacementIsSafeIff` states exactly when the promise holds. A tentative binding
can be borrowed and then committed; the view is lost, and the dropped lease then restores
the old value over the committed one. `Ownership.Runtime.CommitIn` and
`Ownership.Runtime.Loan` state exactly when a view is kept.
A plain archive member named `#1` is refused (`ArchiveWriter.PlainUnderstoodIff`), and
`MIN % -1` is an overflow (`CheckedInt.RefusedRemainder`).

`dafny verify dfyconfig.toml` checks the whole project.

## Model

| member | source | states |
|---|---|---|
| GovernanceReplay.SafeAtEveryPrefix | src/registry_admin.rs:812-992 | At every prefix of every accepted log: references resolve to existing developers and teams, no digest has two developers or an all scope beside another, every owned package has an active token of its owner, names are well formed, and the phase fits the data. |
| GovernanceReplay.ReplayIsSafe | src/registry_admin.rs:826-992 | The same safety at the end of every accepted log, by induction over its events. |
| GovernanceReplay.SafeKept | src/registry_admin.rs:826-992 | Every single event that replay accepts keeps that safety. |
| GovernanceReplay.PackageTokenWasImported | src/registry_admin.rs:940-950 | Every package-scoped token held after an accepted log was imported by an event replayed in the migrating phase; the lemma finds the event. |
| GovernanceReplay.PhaseOrder | src/registry_admin.rs:832-969 | The phase only moves Empty, Migrating, Normal or Empty, Normal, never back, and is Empty only for the empty log. |
| GovernanceCommands.LiveMatchesReplay | src/registry_admin.rs:270-461 | From data without orphans, a live command commits a change that fits the access-list limit exactly when replay accepts its event with the same resulting data. |
| GovernanceCommands.EditRefinesStep | src/registry_admin.rs:270-461 | Whatever a command's own edit produces, replay of its event produces too. |
| GovernanceCommands.StepRefinesEdit | src/registry_admin.rs:826-992 | Whatever replay accepts for a command's event, the command's own edit produces, and the phase stays Normal. |
| GovernanceCommands.CommandAgreesWithReplay | src/registry_admin.rs:1649-1721 | From any valid state, if a command's guard passes, the extended log replays to exactly the edited data, and the new state validates if and only if the record limits, the access-list limit and the digest's no-fixed-point test hold. |
| GovernanceCommands.ReplayableCommandsRun | src/registry_admin.rs:270-461 | No event that replay would accept is refused by the live command while the access list fits. |
| GovernanceCommands.HistoryStaysValid | src/registry_admin.rs:994-1146 | Every state in every history of committed commands validates. |
| GovernanceCommands.BootstrapValid | src/registry_admin.rs:227-244 | Initialization yields a valid state exactly when the first transition hash differs from the root. |
| GovernanceEffects.StepEffect | src/registry_admin.rs:826-992 | Every accepted event changes exactly what it names: field by field, each set holds what it held and what the event adds, without what it removes; a revocation removes exactly the developer's tokens with that digest. The phase changes only at the initial and final events. |
| GovernanceEffects.CommandEffect | src/registry_admin.rs:270-461 | Every command that goes through has exactly that effect. |
| GovernanceEffects.AcceptedIff | src/registry_admin.rs:826-992 | Replay accepts an event if and only if it is acceptable: stated for each event on the phase and the data and, where authority is taken away, on its only possible successor. |
| GovernanceEffects.PermittedIff | src/registry_admin.rs:270-461 | From data without orphans, a command whose result fits the access-list limit goes through if and only if its event is acceptable. |
| GovernanceEffects.RefusalsAreTrue | src/registry_admin.rs:270-461 | Every refusal of a command names a reason that holds. |
| GovernanceEffects.CommandActions | src/registry_admin.rs:270-461 | Each command is logged under its own action name. |
| GovernanceEffects.RevokeAcl | src/registry_admin.rs:426-461 | On coherent data a revocation takes away exactly the pairs of that digest. |
| GovernanceEffects.IssueAcl | src/registry_admin.rs:346-393 | Issuing adds exactly the new digest's pairs with the packages its developer speaks for. |
| GovernanceEffects.AddMemberAcl | src/registry_admin.rs:296-318 | A new member brings exactly their tokens to the team's packages. |
| GovernanceEffects.RemoveMemberAcl | src/registry_admin.rs:320-336 | On coherent data a removed member takes exactly their digests off the team's packages. |
| GovernanceEffects.ChangeOwnerAcl | src/registry_admin.rs:1673-1721 | A claim or transfer gives the package to exactly the new owner's tokens and leaves every other package alone. |
| GovernanceChain.EventTextInjective | src/registry_admin.rs:659-671 | The text that is hashed for an event determines every field of the record. |
| GovernanceChain.TransitionTextInjective | src/registry_admin.rs:679-682 | The text hashed for a transition determines the previous hash, the action and the subject. |
| GovernanceChain.LastTransitionDeterminesActions | src/registry_admin.rs:673-714 | Two accepted logs with the same last transition hash performed the same actions on the same subjects, or two different transition texts of theirs are exhibited that collide. |
| GovernanceChain.LastHashDeterminesLog | src/registry_admin.rs:684-714 | Two accepted logs with the same last event hash are equal, or the lemma exhibits two different event texts with the same digest. |
| GovernanceChain.LastHashDeterminesState | src/registry_admin.rs:994-1154 | Two valid states with the same last event hash are equal, log and data, or a digest collision between two concrete events is exhibited. |
| Governance.EventCodec | src/registry_admin.rs:826-992 | An action and subject decode to an event if and only if they are exactly what that well-formed event is written as. |
| Governance.TokenSubjectCodec | src/registry_admin.rs:751-793 | Token subjects are accepted in exactly one spelling: no upper-case digest, extra field or unknown scope. |
| Governance.OwnerSubjectCodec | src/registry_admin.rs:726-737 | Package-owner subjects are accepted in exactly one spelling. |
| Governance.MemberSubjectCodec | src/registry_admin.rs:739-749 | Team-member subjects are accepted in exactly one spelling. |
| Governance.RevokeSubjectCodec | src/registry_admin.rs:795-810 | Revocation subjects are accepted in exactly one spelling. |
| Governance.OwnerCodec | src/registry_admin.rs:634-657 | Owner texts and owners with valid names correspond one to one. |
| Governance.SubjectIsValid | src/registry_admin.rs:1634-1647 | The subject of every well-formed event passes the subject check and is at most 209 characters. |
| Hex.CanonicalHexIsEncoded | src/registry_admin.rs:2004-2009 | A digest spelling is canonical if and only if it decodes and re-encodes to itself. |
| Hex.DecodeOfEncode | src/registry_admin.rs:3320-3348 | Decoding undoes encoding for all byte strings. |
| Hex.Encode | src/registry_admin.rs:3320-3328 | The encoding loop computes the two-digits-per-byte text. |
| Hex.Decode | src/registry_admin.rs:3330-3348 | The decoding loop accepts exactly 64 digits of either case and computes their bytes. |
| Names.NameIsPlain | src/package.rs:9793-9831 | A valid name holds no separator of any subject or line. |
| Names.NameRule | src/package.rs:9793-9831 | Exactly which names are valid, device names included. |
| Hex.CaseDoesNotMatter | src/registry_admin.rs:3341-3348 | Upper-case digits decode like lower-case ones. |
| GovernanceFormat.RecordForms | src/registry_admin.rs:1393-1432 | Every line of the file, literally. |
| GovernanceFormat.SubjectForms | src/registry_admin.rs:652-762 | Every audit subject, literally. |
| GovernanceFormat.HashedTexts | src/registry_admin.rs:659-682 | The texts that are hashed, literally. |
| GovernanceFormat.DocumentedLimits | docs/registry-api.md:208-208 | The limits on records, events, authorizations, lines and files, in numbers. |
| GovernanceFormat.SubjectRule | src/registry_admin.rs:1634-1647 | Exactly which audit subjects are valid. |
| GovernanceFormat.Utf8Length | src/registry_admin.rs:1183-1183 | Line and file lengths are counted in UTF-8 bytes. |
| GovernanceFormat.IgnoredLine | src/registry_admin.rs:1182-1191 | Blank lines and comments may stand anywhere without changing what is parsed. |
| GovernanceFormat.SpacedRecord | src/registry_admin.rs:1189-1206 | A record line may be indented and its fields spaced apart freely. |
| GovernanceFormat.SpaceRule | src/registry_admin.rs:1188-1205 | Exactly which characters separate fields and which are trimmed. |
| GovernanceFormat.CarriageReturn | src/registry_admin.rs:1182-1182 | A carriage return in front of a newline is dropped. |
| GovernanceFormat.RepeatedRecord | src/registry_admin.rs:1206-1340 | No record but an audit event may be repeated. |
| GovernanceFormat.RefusedLine | src/registry_admin.rs:1182-1391 | One refused line refuses the file. |
| GovernanceFormat.WriteThenReadLegacy | src/registry_admin.rs:1723-1804 | The legacy parser reads back every well-written file, comments and either case of digits included, and refuses it exactly for a repeated credential or too many. |
| GovernanceFormat.LegacyLineMeans | src/registry_admin.rs:1769-1804 | Exactly which lines are ignored and which are credentials. |
| GovernanceFormat.MalformedRefused | src/registry_admin.rs:1738-1742 | A line that is neither refuses the whole file. |
| GovernanceFile.PrintThenParse | src/registry_admin.rs:1173-1438 | For every valid state and every order of writing its sets, parsing the printed text returns exactly that state; names are well formed only because replay rebuilt them. |
| GovernanceFile.ReplayedNames | src/registry_admin.rs:994-1146 | Every name held by a valid state is well formed. |
| GovernanceFile.ParseIsStable | src/registry_admin.rs:1173-1438 | Printing whatever was parsed, in any order, and parsing it again changes nothing. |
| GovernanceFile.RecordCodec | src/registry_admin.rs:1200-1377 | A list of fields parses to a record if and only if it is the record's own field list and the record is valid. |
| GovernanceFile.LineRoundTrip | src/registry_admin.rs:1173-1391 | A printed record line parses back to its record and advances the parse by exactly that record. |
| GovernanceLegacy.PrintedSize | src/registry_admin.rs:1393-1438 | A bound on the printed size of every valid state from its record counts. |
| GovernanceLegacy.ReadLegacy | src/registry_admin.rs:1723-1804 | The line loop of the legacy parser computes the specified list of authorizations or refusal. |
| GovernanceLegacy.LegacyFileMigrates | src/registry_admin.rs:246-268 | Every non-empty list that the legacy parser accepts migrates to a state that serializes within the file limit in every order, parses back to itself, and has exactly the legacy access list (digest fixed points aside). |
| GovernanceMigration.MigrationIsExact | src/registry_admin.rs:597-623 | For every non-empty legacy list, repeated lines included, the effective access list of the migrated state is exactly the legacy set; the state validates if and only if that set fits the limit and no transition hash is a fixed point. |
| GovernanceMigration.MigrationReplays | src/registry_admin.rs:597-623 | The migrated data is the expected data, the chain is correct, and the log replays to it in Normal exactly when the legacy set fits the limit. |
| GovernanceMigration.ImportAllCorrect | src/registry_admin.rs:597-623 | The import loop builds the expected data together with a log that replays to it, one accepted event at a time. |
| GovernanceMigration.ExpectedAcl | src/registry_admin.rs:1487-1544 | The migrated tokens authorize exactly the legacy pairs: no cross product of tokens and packages. |
| GovernanceAcl.Credentials | src/registry_admin.rs:1487-1566 | The indexed expansion lists exactly the authorized (digest, package) pairs, each once, and fails if and only if there are more than the limit. |
| GovernanceAcl.BuildIndexes | src/registry_admin.rs:1440-1485 | The indexes hold exactly the all-scoped digests per developer, the members per team and the package tokens. |
| GovernanceAcl.AllPackagesRemainAuthorized | src/registry_admin.rs:1621-1632 | The count of distinct listed packages decides: the access list fits the limit and every owned package has an active token of its owner. |
| GovernanceAcl.OwnerHasActiveToken | src/registry_admin.rs:1591-1619 | The loop over tokens decides the simple relation. |
| GovernanceAcl.AuthorizedIffListed | src/registry_admin.rs:1591-1632 | An owned package appears in the access list if and only if its owner has an active token for it. |
| GovernanceStore.GovernanceState.ApplyAuditEvent | src/registry_admin.rs:826-992 | The in-place replay of one event succeeds exactly when the transition function does, with exactly its data and phase. |
| GovernanceStore.GovernanceState.InsertReplayedToken | src/registry_admin.rs:812-824 | A token is added exactly when it is coherent with those held. |
| GovernanceStore.GovernanceState.RevokeInPlace | src/registry_admin.rs:970-984 | Retaining the other tokens, then checking, is the revocation transition. |
| GovernanceStore.GovernanceState.AppendAudit | src/registry_admin.rs:684-714 | Exactly one record is appended, with the sequence number, links and hashes of the chain. |
| GovernanceStore.GovernanceState.Validate | src/registry_admin.rs:994-1146 | Accepts exactly the valid states: limits, references, coherent tokens, correct chain, replay equal to the held data in Normal, access list within its limit. |
| GovernanceStore.GovernanceState.ChainReplays | src/registry_admin.rs:1093-1146 | The replay loop on a scratch state accepts exactly a correct chain that replays to the held data. |
| GovernanceStore.GovernanceState.TokensAreCoherent | src/registry_admin.rs:1027-1073 | The token loops accept exactly resolved developers, coherent digests and owned scopes. |
| GovernanceStore.GovernanceState.Execute | src/registry_admin.rs:270-461 | A command edits in place, checks and appends its event, or is refused for the reason its specification gives. |
| GovernanceStore.GovernanceState.MigrateLegacy | src/registry_admin.rs:597-623 | The in-place migration builds exactly the migrated state. |
| GovernanceStore.GovernanceState.ReadFrom | src/registry_admin.rs:1173-1391 | The line loop fills a fresh state with exactly the parsed state, or refuses exactly when parsing does. |
| GovernanceStore.GovernanceState.WriteTo | src/registry_admin.rs:1393-1438 | Serialization writes the state in some order of its sets, refuses exactly invalid or oversized states, and what it writes parses back to the state. |
| GovernanceStore.CredentialsFile.RunCommand | src/registry_admin.rs:1649-1721 | On success the new file parses to exactly the committed state; on any other report the file is unchanged; bad names, unreadable files and refused commands are reported exactly, with the reason. |
| GovernanceStore.CredentialsFile.Initialize | src/registry_admin.rs:227-244 | Goes through exactly for a valid name, a file whose lines are all blank or comments, and a first transition hash that differs from the root; the file then parses to the bootstrap state, and is unchanged otherwise. |
| GovernanceStore.CredentialsFile.MigrateFile | src/registry_admin.rs:246-268 | Goes through if and only if the name is valid, the legacy file is readable and not empty, and no transition hash is a fixed point; the new file then has exactly the legacy access list, and is unchanged otherwise. |
| GovernanceStore.CredentialsFile.IssueFresh | src/registry_admin.rs:346-393 | The first candidate digest that no token uses is issued and the file then parses to the state with that token, or that state cannot be written; a bad name, an unreadable file, an unknown developer and candidates that are all in use are each reported exactly. |
| MatchPattern.Preorder.Next | src/ast/match_pattern.rs:15-42 | Each call yields exactly the head of the remaining recursive preorder, with a cursor stack never higher than the tree. |
| MatchPattern.Drain | src/ast/match_pattern.rs:4-42 | The iterator yields the recursive preorder. |
| MatchPattern.TreeLockstep | src/ast/match_pattern.rs:122-155 | Walking two preorders in lockstep with arity checks passes the front trees exactly when they are structurally the same. |
| MatchPattern.Equal | src/ast/match_pattern.rs:122-155 | The iterative comparison decides structural equality, for every literal equality. |
| MatchPattern.SameIsEqual | src/ast/match_pattern.rs:122-155 | With ordinary equality of literals, what the comparison decides is equality of trees. |
| MatchPattern.Clone | src/ast/match_pattern.rs:44-100 | The frame-based copy is the source tree. |
| MatchPattern.CloseFrames | src/ast/match_pattern.rs:82-97 | Closing frames keeps the tree under construction, or yields the finished copy, and uses up pending fields. |
| MatchPattern.Release | src/ast/match_pattern.rs:102-120 | The drop loop releases the detached nodes in worklist order and ends. |
| MatchPattern.ReleasedOnce | src/ast/match_pattern.rs:102-120 | Every node below the root is released exactly once, as its own shell. |
| MatchPattern.ReleasedCount | src/ast/match_pattern.rs:102-120 | As many nodes are released as the forest has. |
| MatchPattern.ReleasedChildless | src/ast/match_pattern.rs:102-120 | No released node still has children. |
| PatternDebug.Format | src/ast/match_pattern.rs:157-297 | The worklist writes exactly the recursive rendering, compact or pretty. |
| PatternDebug.ExpandCorrect | src/ast/match_pattern.rs:185-297 | Each work item writes a prefix of what it shows, leaves exactly the rest on the worklist, and makes it lighter. |
| PatternDebug.CompactIsDerived | src/ast/match_pattern.rs:185-297 | The compact output is what a derived implementation builds from structs, tuples and lists. |
| PatternDebug.PrettyIsDerived | src/ast/match_pattern.rs:157-297 | The pretty output at depth n is the derived rendering moved n levels right, for leaves that print on one line. |
| PatternDebug.PrettyAtRoot | src/ast/match_pattern.rs:157-297 | The pretty output of a pattern is what a derived implementation prints. |
| Kmp.BuildPrefix | src/native_tls_archive.rs:330-347 | The table holds the longest proper border of every prefix of the needle. |
| Kmp.LongestBorderMeaning | src/native_tls_archive.rs:330-347 | The table entry in textbook terms: a proper border, and no longer one. |
| Kmp.Advance | src/native_tls_archive.rs:373-383 | One byte takes the longest match to the longest match; fallbacks are paid for by earlier progress. |
| Kmp.ScanWithPrefix | src/native_tls_archive.rs:349-388 | For every chunk size, a range inside the file is decided exactly, with at most one fallback per byte read; a range that leaves the file fails unless the needle was found before. |
| Kmp.Evidence.ScanBuildId | src/native_tls_archive.rs:395-426 | The flag is true exactly when some charged range holds the build id, while charged bytes and ranges stay within their limits; refused only for a limit or a range outside the file. |
| Kmp.Evidence.ChargeSections | src/native_tls_archive.rs:319-328 | Sections are charged exactly while their total fits. |
| Kmp.Evidence.RecordSymbol | src/native_tls_archive.rs:297-317 | Every symbol is charged, and a required one may be defined once. |
| Archive.Members | src/native_tls_archive.rs:184-282 | The cursor loop computes the parsed members with every read in bounds, and ends because the cursor advances. |
| Archive.MembersAreSound | src/native_tls_archive.rs:184-282 | Payload ranges are ordered, disjoint, a header apart, inside the file; names are non-empty bounded basenames without separators or control bytes; there is at least one member. |
| Archive.FileIsConsumed | src/native_tls_archive.rs:203-282 | The headers tile the file exactly to its end, within the member limit. |
| Archive.KeepName | src/native_tls_archive.rs:135-161 | A kept name is always safe. |
| Archive.EntryInCell | src/native_tls_archive.rs:205-274 | Each member lies behind its own header and before the next one. |
| ArchiveWriter.WriteThenParse | src/native_tls_archive.rs:184-282 | Every archive of plain, BSD and GNU members, name tables and symbol indexes that a writer can produce is accepted, and exactly its files are found with their names, offsets and lengths. |
| ArchiveWriter.PieceRoundTrip | src/native_tls_archive.rs:205-274 | One written member, name table or symbol index reads back as itself, wherever it stands; an index leaves no member and keeps the name table. |
| ArchiveWriter.MemberHoldsPayload | src/native_tls_archive.rs:256-263 | The range given for a member holds its payload. |
| ArchiveWriter.IndexRoundTrip | src/native_tls_archive.rs:219-236 | Symbol indexes are skipped: / and /SYM64/ anywhere, the __.SYMDEF names as first member, in the header or in the payload. |
| ArchiveWriter.SafeNameRule | src/native_tls_archive.rs:135-161 | Exactly which names are safe, in numbers. |
| ArchiveWriter.KeepNameIff | src/native_tls_archive.rs:135-161 | A raw name is kept exactly as the safe last component of a path without control bytes. |
| ArchiveWriter.AcceptedHeader | src/native_tls_archive.rs:205-273 | Nothing but a terminated header with a decimal size that fits, followed by a newline where the size is odd, is accepted. |
| ArchiveWriter.AcceptedGnu | src/native_tls_archive.rs:239-253 | A name from the table is terminated there, at the first possible place. |
| ArchiveWriter.PaddingLimit | src/native_tls_archive.rs:163-175 | Up to seven bytes of padding are stripped, more are refused. |
| ArchiveWriter.PlainUnderstoodIff | src/native_tls_archive.rs:215-256 | A safe plain name closed by a slash is understood exactly unless it is #1, which then reads as the BSD marker and is refused. |
| Supervise.BudgetPartition | src/process_execution.rs:99-190 | Control reserve and worker budget partition the total exactly, the worker budget is aligned, and the number of workers is the greatest that the policy allows and the budget covers; a validated policy is refused only when the total cannot cover the request and one worker. |
| Supervise.PolicyRule | src/process_execution.rs:984-997 | Exactly which policies are valid, in numbers. |
| Supervise.RequestedParts | src/process_execution.rs:99-150 | What the control reserve is made of: a fixed part, and what each worker, each job and each byte of queued paths adds. |
| Supervise.RequestedFits | src/process_execution.rs:99-190 | No checked step of the reserve computation can overflow for a validated policy. |
| Supervise.PrepareQueue | src/process_execution.rs:999-1065 | The queue is accepted exactly when every entry is acceptable and both limits hold; ids count from one. |
| Supervise.CaptureState.Append | src/process_execution.rs:244-254 | What is kept is a prefix of each stream within the shared limit; it is complete unless, and only unless, the flag says the limit was exceeded. |
| Coordinator.RunBatch | src/process_execution.rs:567-766 | Under every schedule of events the loop ends once the clock passes the deadline. On normal finish the receipts are exactly the jobs, reservations are zero and failed counts the non-completed receipts; after an early stop, reserved bytes are worker memory times the unconfirmed workers. Peaks never exceed the worker budget, and every receipt states what was observed. |
| Coordinator.Admit | src/process_execution.rs:576-648 | Jobs are taken from the front of the queue; at most one worker is started per pass, and a slot stays free only for want of jobs or because a start was attempted; the reservation never fails. |
| Coordinator.AdmitOne | src/process_execution.rs:577-647 | The first job is reported as expired exactly when its deadline has passed, and started otherwise. |
| Coordinator.Start | src/process_execution.rs:612-647 | A start puts the worker on the active list, or reports and releases it, or stops the batch with its memory still reserved. |
| Coordinator.PollActive | src/process_execution.rs:650-752 | Every worker is observed in each pass; after the deadline none stays active. |
| Coordinator.Retire | src/process_execution.rs:684-751 | A finished worker leaves by swap-remove, is released only if cleaned, and gets the receipt that the observations determine. |
| Coordinator.StopActive | src/process_execution.rs:881-891 | Exactly the workers whose cleanup fails stay reserved; nothing else changes. |
| Coordinator.OutcomeMeaning | src/process_execution.rs:652-722 | For each outcome, exactly which observations before and after cleanup lead to it. |
| Coordinator.PolicyAdmits | src/process_execution.rs:99-205 | A reserve computed from a validated policy always has room for the workers it admits, so the admission-failure branch is unreachable. |
| Coordinator.OneReceiptEach | src/process_execution.rs:567-766 | A finished batch has one receipt for each submitted entry and no other. |
| Coordinator.Ledger.ReserveWorker | src/process_execution.rs:192-205 | Reserved bytes are exactly worker memory per active worker; a reservation is refused exactly when every slot is taken. |
| Coordinator.Ledger.ReleaseWorker | src/process_execution.rs:207-211 | A release gives back exactly one worker's memory. |
| Coordinator.Ledger.Dequeue | src/process_execution.rs:213-217 | Queue counters stay equal to the queue. |
| Receipts.WriteBase64 | src/process_execution.rs:1266-1289 | What is written decodes, by section 4 of RFC 4648, to the same bytes, and has the padded length. |
| Receipts.Base64RoundTrip | src/process_execution.rs:1266-1289 | Decoding undoes encoding for all byte strings. |
| Receipts.WriteJsonString | src/process_execution.rs:1247-1264 | A reader of section 7 of RFC 8259, with all its escapes and surrogate pairs, gets the text back and stops exactly at its end, whatever follows. |
| Receipts.EscapeIsMinimal | src/process_execution.rs:1249-1261 | Only quotes, backslashes and control characters are escaped. |
| Receipts.JsonStringRoundTrip | src/process_execution.rs:1247-1264 | Reading undoes quoting for all texts, quotes and control characters included. |
| Inspection.RejectCompiledAsync | src/ast/compiled.rs:10-16 | A program is accepted exactly when no async function, await or async function type occurs anywhere in it, no node is deeper than 512 and there are at most 262144 nodes; each refusal names a true reason. |
| Inspection.Inspection.Run | src/ast/compiled.rs:104-350 | The same for any worklist in progress, which never holds more than the scheduled nodes, and these never exceed the budget; the loop ends. |
| Inspection.Inspection.Push | src/ast/compiled.rs:60-83 | Refused exactly when the node is too deep or the budget is spent, without growing the worklist. |
| Inspection.ChildrenAreComplete | src/ast/compiled.rs:107-347 | The scheduled children miss no field: the nodes of a tree, read off its fields, are its root and the nodes of its children. |
| Inspection.DeepStep | src/ast/compiled.rs:105-106 | A tree is too deep at a depth exactly when one of its children is at the next. |
| Inspection.WorkStep | src/ast/compiled.rs:104-350 | Replacing an entry by its children keeps the async verdict up to that entry and removes one node. |
| Ownership.Runtime.Run | src/env.rs:286-551 | Over every history of operations by any tasks on any number of environments that share cells: each cell has at most one owning scope and a tentative binding none; a lease that is not dropped keeps its value; its cell holds the same view exactly unless an event disturbed it, and, if no other open lease had the cell, exactly unless that very cell was committed. |
| Ownership.Runtime.Step | src/env.rs:286-551 | Every single operation keeps one owner per cell, closes no lease but the one it drops, takes new leases only from cells not on loan, causes exactly the stated event, and keeps each view exactly unless that event disturbs it. |
| Ownership.Runtime.Loan | src/env.rs:256-271 | After borrow, any operations of any tasks but the drop of this lease, and drop, the cell holds exactly the value it had, whatever happened. Until then it held the same view exactly unless an event disturbed it; if no other open lease had the cell, exactly unless that very cell was committed. |
| Ownership.Runtime.CommitIn | src/env.rs:427-459 | A commit goes through exactly for an owned value and a tentative cell of the same task in the innermost scope, which gets its only owner; every view on any cell is kept if and only if the commit does not go through or hits another cell. |
| Ownership.CommitDuringLoan | src/env.rs:427-486 | The failing case: a tentative cell is borrowed, then committed; the view is gone and dropping the lease puts the old value over the committed one. |
| Ownership.Runtime.BorrowIn | src/env.rs:461-486 | A lease is made exactly for a value that is neither a view nor a scalar, so reborrowing makes no second one; owners and all other loans are kept. |
| Ownership.Runtime.WriteIn | src/env.rs:530-551 | Assignment, appends, takes and owning reads never touch a value on loan, and keep owners and leases. |
| Ownership.NewOwnerIsUnique | src/env.rs:278-299 | A cell without an owner may get one: owners stay unique. |
| Bindings.TreeMeaning | src/runtime/value.rs:214-285 | The tasks a value owns are the tasks in its tree, in order, and it contains a view exactly when its tree does. |
| Bindings.BindLookup | src/env.rs:521-528 | Binding a name changes what that name denotes and nothing else. |
| Bindings.Env.Define | src/env.rs:324-399 | A definition succeeds exactly for an admissible value and a free name; the name then denotes a fresh cell that the innermost scope owns, and every other name what it did. |
| Bindings.Env.DefineProbe | src/env.rs:401-425 | A tentative binding is a fresh cell that no scope owns. |
| Bindings.Env.CommitProbe | src/env.rs:427-459 | A commit succeeds exactly for a tentative cell of the same task and an owned value, sets the value and the owner, and touches no other cell. |
| Bindings.Env.Borrow | src/env.rs:461-486 | A view is handed on and a scalar copied without a lease; any other value moves into a new lease whose view is left in the cell. |
| Bindings.BorrowLease.Drop | src/env.rs:256-271 | The value goes back to its cell once. |
| Bindings.Env.Assign | src/env.rs:535-551 | Succeeds exactly for an admissible value and an assignable innermost binding. |
| Bindings.Env.AppendString | src/env.rs:1060-1079 | Appends exactly to an assignable string. |
| Bindings.Env.AppendArray | src/env.rs:1085-1102 | Appends exactly to an assignable array, and only an owned value. |
| Bindings.Env.Take | src/env.rs:667-739 | Moves out exactly an unborrowed value of a binding its scope owns, of the right kind and, for JSON, unshared. |
| Bindings.Env.GetOwning | src/env.rs:626-662 | A value that owns tasks moves only from its owner, any other is copied; another task's read during a loan sees the loaned value itself. |
| Bindings.Env.Clone | src/env.rs:286-299 | A clone shares every cell and owns none. |
| Bindings.Env.Capture | src/env.rs:506-519 | A capture binds exactly the names that resolve, to their cells, and owns none. |
| ScopeTasks.CollectReserved | src/env.rs:858-914 | Succeeds if and only if the simple count answers and fits the free slots, then appends exactly the general collector's handles; the buffer never outgrows its capacity, also on failure. |
| ScopeTasks.SimpleTaskCount | src/env.rs:803-853 | The count loop computes the specified count or refusal. |
| ScopeTasks.OwnedTasks | src/env.rs:935-956 | The general collector's loop gathers the tasks of the visited cells, through leases where on loan; visiting the scope's owned names once each, it gathers a task exactly when some visible owned cell owns it. |
| ScopeTasks.SimpleShapes | src/env.rs:70-136 | Exactly which values have a simple count. |
| ScopeTasks.CountMatchesGeneral | src/env.rs:70-100 | Whenever the simple count answers n, the general collector succeeds with n handles. |
| ScopeTasks.OrderDoesNotMatter | src/env.rs:943-951 | Permuted observations give the same multiset of handles. |
| ScopeTasks.AnyOrder | src/env.rs:820-956 | Whatever order a scope's owned names are visited in, the general collector gathers the same handles and the simple count gives the same answer. |
| ScopeTasks.SimpleCountIsExact | src/env.rs:70-136 | A simple count is the number of tasks the value owns; selected results own none. |
| CheckedInt.Add | src/backend/c_int.rs:42-57 | With or without builtins: succeeds exactly when the true sum is representable and stores it, otherwise writes nothing. |
| CheckedInt.Sub | src/backend/c_int.rs:58-70 | The same for the difference. |
| CheckedInt.Mul | src/backend/c_int.rs:72-92 | The same for the product, with every intermediate quotient representable. |
| CheckedInt.Neg | src/backend/c_int.rs:37-41 | The same for the negation. |
| CheckedInt.Div | src/backend/c_int.rs:93-98 | Division by zero and MIN by -1 are reported and write nothing; otherwise the truncated quotient is stored. |
| CheckedInt.Rem | src/backend/c_int.rs:99-105 | The same statuses for the remainder, whose sign is that of the dividend. |
| CheckedInt.PortableAgreesWithBuiltin | src/backend/c_int.rs:42-70 | The portable tests refuse exactly the sums and differences that the overflow builtins flag. |
| CheckedInt.ProductTestIsExact | src/backend/c_int.rs:72-92 | The sign-by-sign quotient comparisons refuse exactly the products that are not representable. |
| CheckedInt.DivisionIsUnique | src/backend/c_int.rs:93-105 | The stored quotient and remainder are the only ones that satisfy truncating division. |
| CheckedInt.DivisionFits | src/backend/c_int.rs:93-105 | Quotients are representable except MIN by -1; remainders always are. |
| CheckedInt.RefusedRemainder | src/backend/c_int.rs:99-105 | MIN by -1 is refused although its remainder, zero, is representable. |
| Restart.Serve | src/service_supervision.rs:199-272 | Over any number of passes: no window holds more replacements than the limit, every pause lies between its bounds and is the first pause doubled once per failing replacement since the last stable instance; generations count up from one, each replacement waits out its pause, no start follows a requested stop or a launch that is not replaced, what ended the service is named, and a start finds every earlier process confirmed gone if and only if no earlier launch was mislabelled. |
| Restart.WindowHoldsAtMostLimit | src/service_supervision.rs:246-262 | No window, wherever it starts, holds more replacements than the limit. |
| Restart.Service.AdmitRestart | src/service_supervision.rs:246-262 | One more restart is admitted exactly when fewer than the limit happened within the last window. |
| Restart.Service.Follow | src/service_supervision.rs:246-271 | The rate limit, the pause and its growth keep the whole history in order; the loop gives up exactly when the limit is reached within a window. |
| Restart.Service.Pass | src/service_supervision.rs:201-271 | How a pass ends is decided by its answers: stopped, exhausted, halted, over the limit, or going on. |
| Restart.ReplacedIff | src/service_supervision.rs:214-245 | Exactly the instances that exited or were unhealthy and were cleaned, and the failed launches whose flag is set, are replaced; exactly a clean requested stop ends the service. |
| Restart.PolicyRule | src/service_supervision.rs:988-1049 | Exactly which restart policies are valid, in numbers. |
| Restart.ReplacementIsSafeIff | src/service_supervision.rs:214-308 | A replacement follows a launch only if its process is confirmed gone (nothing started, reaped, or retired by a cleanup that succeeded), if and only if the launch is not mislabelled: a child killed and waited for in vain, or a release that failed and whose termination or cleanup then failed with an error that carries the confirmation flag. |
| Restart.MislabelledLaunches | src/service_supervision.rs:296-307 | A concrete launch of each kind, after which a replacement starts with the earlier process unconfirmed. |
| Restart.StableMeansReady | src/service_supervision.rs:328-494 | An instance counts as stable exactly when it exited after being ready for a whole window and was cleaned; only an exit with code zero that is not put down to the memory limit spares the next pause its doubling. |

## Left out

- File locking, atomic replacement, permissions and access-control preservation of the credentials file: operating-system calls. `CredentialsFile` is the text and its replacement.
- Error codes and messages of the governance parser, validator and replay: a refusal is one value there; command refusals keep their reasons.
- The legacy token issue and revoke commands on unmigrated files, command-line parsing, and printing of confirmations.
- Decoding of UTF-8: texts are sequences of characters, with byte lengths where limits need them; a file that is not UTF-8 is refused before the model starts.
- Field decoding of COFF, ELF and Mach-O objects: only the range checks and charges they make are modelled.
- Pipes, reader threads, sockets, HTTP probes, memory domains and real clocks: answers on a tape. The probe loop of one service instance is summarised by how the instance ended.
- Restart.Serve: the service may run for ever, so the statement is for every number of passes; errors while reading the control socket or drawing a fresh token end a pass like a stop. A failed spawn in a memory domain is taken to leave no process behind exactly when its error says so, as the domain's own checks do.
- Coordinator.RunBatch: a failure to publish the configuration or the summary line, and other fields of a receipt, are not modelled.
- Supervise.RequestedFits: the sizes of the compiled job and worker descriptors are parameters of at most 1 MiB.
- PatternDebug.PrettyIsDerived: literals are assumed to print on one line, as their escaping forms do; field names and leaf formatting are parameters.
- Allocation failure, mutex poisoning, reference counts and thread identity: operations are single atomic steps. `Bindings.Env.Take` is told whether a cell is shared.
- Bindings.Env.GetOwning: structs, enums, functions and listener leases are not among the modelled values, and views of a part of a value are left out.
- Task projections, temporary leases, observers of owned bindings and payload charges of the environment.
- ScopeTasks.SimpleTaskCount: an overflow of the machine's count is not modelled.
- Inspection.RejectCompiledAsync: source positions of its messages; node kinds that it treats alike share a constructor, and the inspection of a single template expression is the one-item case.
- Text of JSON receipts beyond their strings and captured bytes.
- Deployment scripts, database budgets, C output buffers, diagnostics, editor and website files: no property as hard as those above.
