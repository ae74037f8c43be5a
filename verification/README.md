# A verified model of the account server

The repository is a server that holds a pool of accounts, hands requests to them, and is operated through a client program. This project states in Dafny what its stateful parts do and proves what they keep.

| part | modules |
|---|---|
| durable state: three kinds of writer, three locks, one dirty flag, one file | `Durable`, `Server`, `Interleaving`, `InterleavingProofs`, `InterleavingTheorems`, `InterleavingAnswers` |
| client registry and operator slot | `Secret`, `Registry`, `Names`, `RegistryRuns` |
| rotating log and the reader that follows it | `LogFiles`, `Follower`, `FollowerLog`, `FollowerProofs`, `FollowerTheorems`, `FollowerSwitches`, `FollowerProgress`, `Tail` |
| Claude Code settings: install and uninstall | `Settings`, `SettingsTheorems`, `SettingsCommands` |
| edits of the TOML configuration | `Edit`, `EditTheorems`, `Routes`, `RouteTheorems` |
| canonical JSON (RFC 8785), kit verification | `CanonicalJson`, `CanonicalJsonTheorems`, `CanonicalShortest`, `Kit` |
| Ed25519 (RFC 8032) of the kit tool | `Modular`, `Edwards`, `EdwardsGroup`, `EdwardsAssociates`, `Multiples`, `Ed25519`, `Ed25519Theorems`, `SmallCurve` |
| smaller machines | `Login`, `LoginRuns`, `KitCache`, `Redaction`, `Reload`, `ReloadKeys`, `References` |

`dafny verify dfyconfig.toml` checks everything.

## How it is built

What the source changes in place is a class whose methods change the same fields; each method's `ensures` ties the new state to a function of the old one, and the theorems are about that function. What several threads or processes do at once is a transition system: a machine, a choice the environment makes, `Step`, `Run` over any list of choices, an invariant kept by every step, and theorems about every run. The persistence protocol appears both ways: `Server` one call at a time, `Interleaving` one effect at a time, with a program counter per thread, a shared temporary file, and a crash possible after any step.

A disk keeps the inode a name stands for, whether it was fsynced, and the renames since the directory's last fsync; after a crash the name may stand for any of those, and bytes never fsynced may come back as anything.

## Where the code and its own comments differ

- `mutate_registry` says a failed write leaves both the file and the registry unchanged (src/server.rs:257-258). When the directory fsync fails the rename has already happened and the file holds the candidate. `MutateRegistry` and `MutatePool` say exactly when the claim holds; `FailedMutationChangesTheFile` is a run where it does not.
- A quota change noted after the pool lock is dropped (src/pool/probe.rs:318-325, src/data_plane/exchange.rs:1175) leaves a window with the file behind and the flag down. The model has callers of both kinds; `LateMarkLeavesAWindow` shows the window and `EarlyMarkersLeaveNoWindow` that the other kind has none.
- A failed flush has already taken the dirty flag down (src/server.rs:342-354): the change stays unwritten until the next change or mutation.
- On Unix the command written quotes a `'` in the program's path (src/settings.rs:40-64), and the program may then not know its own settings entries: exactly when the path does not occur in its own quoted command, as `/a'b` does not.
- An uninstall with no install before it rewrites a file it has something to take from, and keeps no copy (src/settings.rs:210-314). An empty `hooks` is enough, with nothing of ours in the file.
- `config` edits promise that the file never says what the server refused (src/cli/edit.rs:50). It does when putting the previous bytes back fails before its own rename.
- Off Unix the log follower tells files apart by length (src/cli/tail.rs:349-352), so a file that grew is read again from its start, and a new file as long as the old one is taken for it. `ShowsInOrderIff` and `LosesNothingIff` say what that does to a whole run.
- The redaction scan does not see a `://` whose colon ends an authority it has just passed (src/logging.rs:97-130). `://://u@h` is left as it is.
- A kit path pointed elsewhere between the request and the read puts one file's verdict under another's identity (src/control/client_kit.rs:94-101). `UndisturbedAnswerIsItsOwn` and `AnswerIsItsOwnIffReadUndisturbed` say when that cannot happen and when it has.
- U+2028 and U+2029 are escaped in canonical JSON (src/bundle.rs:281-299); section 3.2.2.2 of RFC 8785 does not ask for it. The escaped text still reads back.

## Model

| member | source | states |
|---|---|---|
| Durable.SharedTemporaryNameNeedsTheLock | src/state.rs:126-156 | two writers inside the write at once can rename a truncated file over the state, and then a crash may leave any bytes: the temporary name, one per process, needs `state_write` |
| Server.Server.WritePrivateAtomic | src/state.rs:126-156 | Ok leaves the whole bytes durable under the name; failing before the rename leaves the file and its directory entry as they were; failing at the directory fsync leaves the bytes in place but not settled |
| Server.Server.MutateRegistry | src/server.rs:257-287 | when the closure accepts, Ok exactly when the write goes through, and then the file is the live state, settled; an error leaves the live registry; the file is then unchanged exactly when the write failed before its rename or would have written what was there |
| Server.Server.MutatePool | src/server.rs:319-332 | the same for the pool: never live before it is durable, and answered Ok exactly when the write goes through |
| Server.Server.MarkQuotaDirty | src/server.rs:334-337 | the flag is up |
| Server.Server.FlushQuota | src/server.rs:339-354 | Ok exactly when nothing had to be written or the write goes through; whatever the outcome the flag is down and the expiry is live; Ok after a marked change means the file is the live state; nothing to write means the disk is untouched |
| Server.Server.RequestStop | src/server.rs:293-302 | the first reason to stop stands |
| InterleavingProofs.StepKeepsInv | src/server.rs:96-99 | every step of every thread (lock, build, each file effect, failure, install, update, mark, read) keeps the protocol's invariant |
| InterleavingProofs.RunKeepsInv | src/cli/mod.rs:957-1020 | from any startup state every schedule keeps it |
| InterleavingTheorems.OneWriterAtATime | src/server.rs:96-99 | no two threads are ever inside the file write |
| InterleavingTheorems.QuietFileIsCurrent | src/server.rs:257-354 | with `state_write` free and no failure on record the file's registry is the live one, and its pool too unless the difference is marked or about to be |
| InterleavingTheorems.EarlyMarkersLeaveNoWindow | src/control/client_surface.rs:48-51 | where every update marks under the pool lock, the flag down and both locks free mean the file is the live state |
| InterleavingTheorems.LateMarkLeavesAWindow | src/pool/probe.rs:318-325 | one update marked after the pool lock: the file is behind, the flag down, nothing failed |
| InterleavingTheorems.RenamesNeverGoBack | src/server.rs:96-99 | snapshots are renamed in the order of the versions they show, each past every mutation committed before it: no mutation that returned Ok is undone by a later write |
| InterleavingTheorems.CrashLeavesOneWholeSnapshot | src/state.rs:126-156 | after a crash at any step the file decodes to exactly one snapshot, at or past every mutation answered Ok and every registry a reader was given |
| InterleavingTheorems.EffectsSurviveACrash | src/server.rs:259-287 | and at or past every mutation that ever became live, answered or not |
| InterleavingTheorems.LiveRegistryIsDurable | src/server.rs:249-255 | the registry a reader would get now is settled, and no crash can leave an earlier one |
| InterleavingTheorems.NoDeadlock | src/server.rs:96-99 | with any thread inside a call some thread can step |
| InterleavingTheorems.EveryStepIsProgress | src/server.rs:257-354 | each step of a call brings it strictly nearer its return and moves no other thread |
| InterleavingTheorems.CallsAreShort | src/server.rs:257-354 | under any schedule a call that has not returned has taken at most eight steps and one for each byte it writes |
| InterleavingTheorems.FailedMutationChangesTheFile | src/server.rs:257-287 | a registry mutation that fails at its directory fsync: the live state is what it was and the file holds the refused candidate |
| InterleavingAnswers.HealthyMutationAnswers | src/server.rs:257-332 | over every schedule a mutation none of whose own effects fails returns either refused by its closure, with nothing touched, or accepted: live, answered, its own snapshot the newest in the file and settled |
| InterleavingAnswers.AcceptedMutationCanCommit | src/server.rs:257-332 | from every state with the locks free, a mutation its closure accepts has a schedule that ends live, answered and settled in the file |
| InterleavingAnswers.FlushCanFinish | src/server.rs:339-354 | so has a flush with something to write: the expiry live, the file the live state, the flag down, no failure on record |
| InterleavingAnswers.ReadersAreAnswered | src/server.rs:249-255 | a reader waits only for the registry lock, and is given the live registry |
| InterleavingAnswers.ReadCanFinish | src/server.rs:249-255 | two steps from idle to that answer |
| InterleavingAnswers.UpdateCanApply | src/server.rs:96-99 | a quota update is live as soon as it has the pool lock |
| Secret.ConstantTimeEqIsEquality | src/secret.rs:96-103 | the fold that never stops early decides equality |
| Secret.FramingIsInjective | src/secret.rs:73-85 | domain, zero byte and secret can be told apart again |
| Secret.VerifierIs | src/secret.rs:20-85 | the text digested is the role's domain, a zero byte and the secret |
| Secret.MatchesOnlyItsOwn | src/secret.rs:73-94 | a verifier matches exactly the role and the secret it was made from |
| Names.ValidIdIff | src/registry.rs:120-137 | an id is 1 to 63 lower-case letters, digits, `_` and `-`, the first a letter or digit |
| Names.ValidDisplayNameIff | src/registry.rs:139-150 | a name is accepted exactly when its trimmed text is not empty, at most 128 bytes of UTF-8 and without control characters, and is kept trimmed |
| Names.TrimIs | src/registry.rs:139-150 | trimming takes white space off both ends, and all of it |
| Names.Utf8LengthIs | src/registry.rs:139-150 | the length counted is that of the encoded text |
| Names.LowerOrDigitIff | src/registry.rs:120-137 | the letters and digits are the 36 of ASCII |
| Names.WhitespaceIff | src/registry.rs:139-150 | the white space is the 25 characters of the Unicode property |
| Registry.LiveRegistry.Issue | src/registry.rs:152-181 | a new pending entry at the end, or a refusal that changes nothing |
| Registry.LiveRegistry.Reissue | src/registry.rs:183-206 | the entry is pending again with a new code and the next generation, whatever it was |
| Registry.LiveRegistry.Claim | src/registry.rs:208-238 | one of three refusals in the source's order, or activation with the secret in the code's place |
| Registry.LiveRegistry.SetNoAccount | src/registry.rs:240-245 | only that flag of that entry |
| Registry.LiveRegistry.Rotate | src/registry.rs:247-259 | an active entry alone gets a new secret and the next generation |
| Registry.LiveRegistry.Revoke | src/registry.rs:261-272 | the verifier and the deadline go, the time is kept |
| Registry.LiveRegistry.Rename | src/registry.rs:274-284 | the trimmed, validated name, or nothing |
| Registry.LiveRegistry.ProvisionOperatorSecret | src/registry.rs:286-297 | one operator slot, overwritten |
| Registry.LiveRegistry.RemoveOperatorSecret | src/registry.rs:299-302 | the slot is empty |
| RegistryRuns.PerformKeeps | src/registry.rs:152-302 | each operation keeps entries and the full record of disclosures in step: ids unique and valid, state matching verifier and time fields, generation one more than reissues and rotations |
| RegistryRuns.RunKeeps | src/registry.rs:152-302 | so does every run from the empty registry |
| RegistryRuns.AuthenticatesNewestSecretOnly | src/registry.rs:99-110 | a secret authenticates as an id exactly when it is the newest secret disclosed for it with no reissue or revocation since |
| RegistryRuns.ClaimNeedsTheCurrentCode | src/registry.rs:208-238 | the outcome of a claim, cause included, is decided by the newest code issued for the id: unconsumed, unrevoked, not past its deadline |
| RegistryRuns.CodeLivesItsLifetime | src/registry.rs:152-238 | after an accepted issue or reissue at `now` with lifetime `l`, whatever calls follow that do not end the code, it is granted up to `now + l` and refused as expired exactly after that; `l` is capped at the largest signed 64-bit number |
| RegistryRuns.CodeIsGiven | src/registry.rs:152-206 | an accepted issue or reissue makes its code the current one, with that deadline |
| RegistryRuns.CodeStands | src/registry.rs:152-302 | and it stays the current one until claimed, replaced or revoked |
| RegistryRuns.AcceptedIff | src/registry.rs:152-284 | an issue is accepted exactly when id and name are valid and the id was never issued, and is a duplicate when only that fails; a reissue or revocation exactly when it was issued, a rename when the name is valid too, a rotation exactly when the id has a current secret |
| RegistryRuns.EntryCarriesItsFacts | src/registry.rs:152-284 | over every run an entry holds the newest accepted name, trimmed, the newest flag, and the times of the issue, claim and revocation that gave them |
| RegistryRuns.OperatorCarriesItsTime | src/registry.rs:286-302 | the operator slot holds the time of the provisioning that stands |
| RegistryRuns.VerifiedIsPending | src/registry.rs:226-229 | the second WrongCode branch is never taken |
| RegistryRuns.RunClaimsFollowIssues | src/registry.rs:208-238 | every consumed code was the newest of its id when it was consumed |
| RegistryRuns.NoCodeIsClaimedTwice | src/registry.rs:205-238 | no code is ever claimed twice, for one id or two |
| RegistryRuns.OperatorIsTheNewestSecret | src/registry.rs:112-117 | the operator slot answers for the newest operator secret alone, and none after removal |
| RegistryRuns.RolesStayApart | src/secret.rs:20-37 | no text is both a client's secret and the operator's |
| RegistryRuns.BootstrapEndsWithTheFirstClient | src/registry.rs:86-88 | the exception holds exactly while no client was ever issued and no operator secret stands |
| LogFiles.RotatingFile.Open | src/logfile.rs:20-30 | an existing log is continued, a missing one begun |
| LogFiles.RotatingFile.AppendLine | src/logfile.rs:48-58 | the files afterwards are those of the log with the record appended, rotated first when it would overflow; `size` is the active file's length |
| LogFiles.RotatingFile.RotateFiles | src/logfile.rs:66-78 | the descending renames move every file one name up, drop the last and begin a new one |
| LogFiles.RotatingFile.RetainedCount | src/logfile.rs:40-46 | the number of rotated files |
| LogFiles.RenameMovesDown | src/logfile.rs:66-72 | one rename of the loop, whichever names are missing, leaves the names above it moved and the rest untouched |
| LogFiles.RotationShows | src/logfile.rs:66-78 | the renames on the disk are the rotation of the log, no two names sharing a file |
| LogFiles.RotationKeepsTheRest | src/logfile.rs:66-78 | a rotation loses only the files pushed out |
| LogFiles.AppendKeepsTheRest | src/logfile.rs:48-78 | an append loses only what it drops, and its record comes last |
| LogFiles.KeptIsASuffix | src/logfile.rs:48-78 | after any appends the files from `.k` down to the active one are a suffix of everything appended, the missing part being the drops in order |
| LogFiles.AppendsKeepPacking | src/logfile.rs:48-58 | every file stays within the limit or is one oversized record, no more than the retained number exist, and none was rotated away while its successor's first record still fitted |
| Follower.FirstLine | src/cli/tail.rs:291-313 | a text ending in its only LF at the front of whole lines is the first of them |
| FollowerProofs.ChunkIsTheNextLine | src/cli/tail.rs:291-313 | a completed chunk, with the kept part before it, is the next whole line, never a torn one |
| FollowerProofs.ReadKeepsReader | src/cli/tail.rs:291-313 | a read delivers the next line or nothing |
| FollowerProofs.StepKeeps | src/cli/tail.rs:199-219 | every step of writer and reader keeps the invariant |
| FollowerProofs.RunKeeps | src/cli/tail.rs:199-219 | so does every interleaving |
| FollowerTheorems.DeliversWholeLinesInOrder | src/cli/tail.rs:268-341 | where files are told apart by inode, under any interleaving with appends and rotations the delivered lines are an in-order, duplicate-free selection of whole written lines |
| FollowerTheorems.ShrankNeverFires | src/cli/tail.rs:332-340 | the truncation branch is never taken against this writer: a reopen switches exactly when the name stands for another inode |
| FollowerTheorems.SwitchSkipsNothingIffClean | src/cli/tail.rs:317-330 | a switch skips no line exactly when it goes to the very next file from the end of the one before |
| FollowerTheorems.LosslessIffSwitchesAreClean | src/cli/tail.rs:199-219 | a run loses nothing if and only if every switch in it was clean |
| FollowerTheorems.OneRotationLosesNothing | src/cli/tail.rs:199-219 | at most one new file between reopens, and nothing written to the old one after its drain: nothing is lost |
| FollowerTheorems.CaughtUp | src/cli/tail.rs:199-219 | such a reader at the end of the newest file has shown every line since it began |
| FollowerTheorems.ReplaysIffGrown | src/cli/tail.rs:349-352 | with identity by length, one reopen of the same file goes back to its start exactly when the file changed length since it was opened and some of its lines were shown |
| FollowerTheorems.LengthIdentityShowsALineTwice | src/cli/tail.rs:349-352 | one line, shown twice |
| FollowerSwitches.StartsOverIff | src/cli/tail.rs:317-356 | the reader's own file is started over never by inode, and by length exactly when it is not as long as when it was opened |
| FollowerSwitches.RunSeen | src/cli/tail.rs:268-356 | over every run, whatever tells files apart: what was shown of the reader's file is all its lines up to the furthest one completed |
| FollowerSwitches.ShowsInOrderIff | src/cli/tail.rs:199-219 | over every run, whatever tells files apart: the places shown ascend, none twice, if and only if no line is completed in a file that was started over after lines of it were shown and not left since |
| FollowerSwitches.LosesNothingIff | src/cli/tail.rs:199-219 | over every run, whatever tells files apart: no line is lost if and only if every move goes to the very next file, from one the reader had been at the end of |
| FollowerSwitches.SwitchMissedIff | src/cli/tail.rs:317-356 | with identity by length, a reader at the end of a rotated file misses the switch exactly while the new file is as long as the old one is and was when opened |
| FollowerSwitches.MissedSwitchHoldsBack | src/cli/tail.rs:199-219 | while switches are missed nothing written to the newer files is shown, however much it is |
| FollowerSwitches.EqualLengthHidesALine | src/cli/tail.rs:349-356 | two files of one length: the second line is not shown and a reopen changes nothing |
| FollowerSwitches.UnixLosesALine | src/cli/tail.rs:199-219 | by inode too a line written between the last drain and the rotation is lost |
| FollowerLog.WriterKeepsTheLog | src/logfile.rs:48-78 | over every run of the step-wise writer and its readers, between two lines the files show exactly the log that appending the lines makes |
| FollowerProgress.LineBegins | src/logfile.rs:48-58 | an idle writer begins any line, with a rotation first exactly when the line would overflow a file that is not empty |
| FollowerProgress.LineCanBeFinished | src/logfile.rs:48-78 | from every reachable point inside a line or its rotation the writer can finish, and the line is then the newest whole one |
| FollowerProgress.AnyLineCanBeWritten | src/logfile.rs:48-78 | so whenever the writer is idle any line can be written whole |
| FollowerProgress.ReaderTakesAChunk | src/cli/tail.rs:291-313 | the reader takes any chunk there is, and shows the kept part with it when it ends a line |
| Tail.LogReader.Open | src/cli/tail.rs:269-288 | the reader starts at the beginning of the file there is, or without one |
| Tail.LogReader.Drain | src/cli/tail.rs:291-313 | the loop returns every line completed up to the end of the file |
| Tail.LogReader.ReopenAfterRotation | src/cli/tail.rs:317-330 | switches on another identity or a shorter file, and drops the kept part then |
| Tail.DrainReachesTheEnd | src/cli/tail.rs:291-313 | nothing is left unread, and each line returned is whole |
| Tail.DrainSplitsAtLfs | src/cli/tail.rs:291-313 | lines out and part kept together are the part kept before and everything unread |
| Tail.DrainIsReads | src/cli/tail.rs:291-313 | the loop is a run of the machine's reads, so the theorems about runs hold of it |
| Tail.LastMatches | src/cli/tail.rs:223-235 | the history is the last `count` matches in order, none for zero |
| Tail.LastOfIsTheEnd | src/cli/tail.rs:223-235 | the history is the end of the matches, as many as asked for or all there are |
| Tail.MatchesInOrder | src/cli/tail.rs:223-235 | each line is considered once, in its place |
| Settings.SettingsFile.PlanInstall | src/settings.rs:77-176 | the plan the specification gives for the file and the backup; nothing is written |
| Settings.SettingsFile.Keep | src/settings.rs:144-152 | the foreign groups in their order |
| Settings.SettingsFile.PlanUninstall | src/settings.rs:210-314 | the plan the specification gives, restoring the backup's own bytes when it says the same |
| Settings.SettingsFile.Commit | src/settings.rs:332-342 | the backup first and only once, then the file, with either write failing before or after its rename; Ok exactly when the file was written after any backup it needed |
| Settings.SettingsFile.RemoveBackup | src/settings.rs:319-328 | the backup goes exactly when the file has its bytes |
| SettingsTheorems.PlainPathIsNamed | src/settings.rs:40-64 | a path without a single quote, and any path on Windows, is found in its own command |
| SettingsTheorems.QuotedPathMayBeHidden | src/settings.rs:40-64 | `/a'b` is not |
| SettingsTheorems.ForeignKeepsForeign | src/settings.rs:51-57 | what is kept is not ours, and everything is kept exactly when nothing was |
| SettingsTheorems.StatusComesBackIff | src/settings.rs:77-314 | the status-line half of the round trip |
| SettingsTheorems.HooksComeBackIff | src/settings.rs:77-314 | the hooks half: exactly when the hook command is recognised and the prompt event, if there, is a non-empty array |
| SettingsTheorems.UninstallUndoesInstallIff | src/settings.rs:77-314 | with nothing of ours before, uninstall after install gives the settings back exactly when both commands are recognised and `hooks` has a shape that survives |
| SettingsTheorems.BytesComeBackIff | src/settings.rs:210-342 | and byte for byte, backup gone, under exactly the same condition |
| SettingsTheorems.MissingFileEndsEmpty | src/settings.rs:77-314 | a file that was not there ends as an empty object |
| SettingsTheorems.SecondInstallPlansNothingIff | src/settings.rs:77-176 | a second install changes nothing exactly when the hook command is recognised |
| SettingsTheorems.InstallTouchesOnlyItsEntries | src/settings.rs:77-176 | one group after the foreign ones, in their order; no other key, event or foreign status line changes |
| SettingsTheorems.InstalledGroupsIff | src/settings.rs:77-176 | the groups of the prompt event after an install are ours and exactly those before it, array or single object, that were not ours |
| SettingsTheorems.UninstalledGroupsIff | src/settings.rs:210-314 | and after an uninstall exactly those before it that were not ours |
| SettingsTheorems.ForeignHooksSurvive | src/settings.rs:51-57 | a group with any foreign hook, or with none at all, is kept |
| SettingsTheorems.InstallRefusedIff | src/settings.rs:77-143 | an install is refused exactly when the file is no JSON, no object, `hooks` is no object or the prompt event neither null, array nor object, each with its own cause; a missing file never is |
| SettingsTheorems.UninstallRefusedIff | src/settings.rs:210-314 | likewise for an uninstall, which ignores a `hooks` that is no object |
| SettingsCommands.UnixCommandIsTwoWords | src/settings.rs:40-48 | a POSIX shell splits the command for any path whatever and a plain verb into exactly the path and the verb |
| SettingsCommands.WindowsCommandIsTwoWordsIff | src/settings.rs:40-48 | on Windows the words are these exactly when the path holds no double quote |
| SettingsCommands.InstalledCommandsRun | src/settings.rs:77-176 | after an install the last prompt group is one hook whose command runs `title-hook` with its two-second limit; the status line runs `statusline` where it was absent or ours, with the new entry's padding and interval, and is the engineer's otherwise |
| SettingsTheorems.UninstallLeavesNothingOfOurs | src/settings.rs:210-314 | nothing of ours is left, and uninstalling again changes nothing |
| SettingsTheorems.PlansUninstallIff | src/settings.rs:210-314 | an uninstall rewrites a file exactly when it is a JSON object whose prompt event is well formed and whose status line is ours, whose `hooks` is empty, or whose prompt event is a group of ours or lists one |
| SettingsTheorems.OriginalIsNeverLostIff | src/cli/uninstall.rs:31-41 | the original bytes survive every run of installs and uninstalls if and only if that does not hold of them |
| SettingsTheorems.EmptyHooksAreTaken | src/settings.rs:210-314 | `{"hooks": {}}`, with nothing of ours, is rewritten as `{}` with no copy kept |
| SettingsTheorems.OriginalIsNeverLost | src/cli/uninstall.rs:31-41 | over any run of installs and uninstalls with any write failing, the original bytes are in the backup or still in the file, when an uninstall of the original had nothing to do |
| SettingsTheorems.UninstallWithoutInstallKeepsNoCopy | src/settings.rs:210-314 | otherwise one uninstall replaces them and leaves no backup |
| Edit.Document.ParentTable | src/cli/edit.rs:619-665 | walking, creating on the way, changes nothing about what a later set means; without `create` nothing changes; its errors are the specification's |
| Edit.Document.SetKey | src/cli/edit.rs:528-542 | the document the recursive specification gives, or its refusal |
| Edit.Document.UnsetKey | src/cli/edit.rs:544-563 | the same for unsetting; a refusal leaves the document |
| Edit.Document.PruneEmpty | src/cli/edit.rs:571-591 | from the deepest segment up to the first container that is not empty |
| Edit.PruneFromTheFront | src/cli/edit.rs:571-591 | seen from the root: a table goes exactly when pruning inside it left nothing |
| Edit.RemoveThenPruneIsUnset | src/cli/edit.rs:544-591 | removing then pruning upwards is the one-pass recursive unset |
| EditTheorems.SetThenLookup | src/cli/edit.rs:528-542 | the key leads to the value set |
| EditTheorems.SetTouchesNothingElse | src/cli/edit.rs:528-542 | every unrelated key leads where it did |
| EditTheorems.UnsetTouchesNothingElse | src/cli/edit.rs:544-591 | also when tables were pruned |
| EditTheorems.UnsetThenLookup | src/cli/edit.rs:544-563 | the key is gone |
| EditTheorems.UnsetUndoesSetIff | src/cli/edit.rs:528-591 | unsetting a key just set gives the document back exactly when no table on the path was there empty |
| EditTheorems.UnsetKeyUndoesSetKeyIff | src/cli/edit.rs:528-591 | the same for dotted keys as given on the command line |
| EditTheorems.SetBackUndoesSet | src/cli/edit.rs:528-542 | setting the old value undoes any setting of it |
| EditTheorems.JoinUndoesSplit | src/cli/edit.rs:528-563 | splitting at dots loses nothing |
| EditTheorems.SetCreates | src/cli/edit.rs:528-542 | setting below a key that is not there appends one chain of tables, each spelled as the one it stands in, and nothing more |
| EditTheorems.SetIntoNothing | src/cli/edit.rs:619-665 | in an empty table that chain is all there is |
| EditTheorems.SetRefusedIff | src/cli/edit.rs:528-542 | a set is refused exactly when something on the path is there and no table |
| EditTheorems.UnsetRefusedIff | src/cli/edit.rs:544-563 | an unset is accepted exactly when the key leads somewhere; it is refused for a non-table on the path, and as not found otherwise |
| EditTheorems.RefusedAsUsageIff | src/cli/edit.rs:528-563 | either is refused as usage exactly when a segment is empty or the key is left to the verbs for routes and priorities |
| EditTheorems.TableArrayKeyIff | src/cli/edit.rs:607-617 | those keys are the ones whose first two segments are `selection` and `routes` or `priorities` |
| EditTheorems.UnderVerbIff | src/cli/edit.rs:607-617 | a key is under a name exactly when its segments begin with the name's |
| Routes.SelectionEntry | src/cli/edit.rs:906-950 | the entries of `selection.<key>` in either spelling, created where missing, with nothing changed on an error |
| Routes.PruneTakesEntries | src/cli/edit.rs:571-591 | an array left empty goes, and `[selection]` with it when that leaves nothing |
| Routes.AddRoute | src/cli/edit.rs:961-979 | the specification's document, or its refusal in its order |
| Routes.RemoveRoute | src/cli/edit.rs:981-993 | likewise; a refusal leaves the document |
| Routes.Prioritise | src/cli/edit.rs:853-885 | the entries of the account take the value in place; told whether there was one |
| Routes.SetPriority | src/cli/edit.rs:1109-1119 | as specified, appending one entry when there is none |
| Routes.ClearPriority | src/cli/edit.rs:1121-1127 | as specified; a refusal leaves the document |
| RouteTheorems.AddPlacesTheRoute | src/cli/edit.rs:961-979 | the new route stands at its anchor, the others keep their order, folded names stay unique |
| RouteTheorems.AddedRouteHolds | src/cli/edit.rs:819-849 | the route added carries its name, patterns, accounts and bucket, each under its own key and the optional ones only when given; the others stand as they were |
| RouteTheorems.RouteEntryHolds | src/cli/edit.rs:819-849 | the entry written holds the arguments and nothing else |
| RouteTheorems.AddRouteAcceptedIff | src/cli/edit.rs:961-979 | a route is added exactly when the array can be read, no route folds to its name, and the anchor it names is there |
| RouteTheorems.RemoveTakesTheFirst | src/cli/edit.rs:981-993 | a removal takes exactly the first route that folds to the name, and is accepted exactly when there is one |
| RouteTheorems.RefusedBecause | src/cli/edit.rs:906-993 | each verb's refusal names its cause: an array or `[selection]` of another kind, a name already there, a route or anchor missing |
| RouteTheorems.EntriesStandUnderSelection | src/cli/edit.rs:906-950 | the arrays are those the keys `selection.routes` and `selection.priorities` lead to |
| RouteTheorems.LiteralIff | src/cli/edit.rs:790-806 | only a text counts as the name or account of an entry |
| RouteTheorems.RemoveRouteUndoesAddRouteIff | src/cli/edit.rs:961-993 | the document comes back exactly when neither `[selection]` nor its routes were there empty |
| RouteTheorems.ClearUndoesSetPriorityIff | src/cli/edit.rs:1109-1127 | likewise for a priority |
| RouteTheorems.SetPriorityReachesItsEntries | src/cli/edit.rs:851-885 | every entry of the account carries the value, the others stand as they were |
| RouteTheorems.AppendedPriorityHolds | src/cli/edit.rs:851-885 | where the account has no entry, one is appended that names it and carries the value |
| RouteTheorems.RetainedIn | src/cli/edit.rs:887-893 | clearing keeps exactly the entries that are not the account's |
| RouteTheorems.RetainedInOrder | src/cli/edit.rs:887-893 | in their order |
| RouteTheorems.PutTouchesNothingElse | src/cli/edit.rs:906-993 | nothing outside the array changes |
| RouteTheorems.ConfigFile.EditAndReload | src/cli/edit.rs:31-55 | the file ends with the candidate if and only if it parsed, edited and validated, the server answered, and the reload applied, or the write failed after its rename, or putting the old bytes back failed before its own; each error is told apart by exactly its stage |
| CanonicalJson.Writer.WriteJsonString | src/bundle.rs:281-299 | appends the escaped string and nothing else |
| CanonicalJson.Writer.WriteCanonical | src/bundle.rs:248-279 | appends the canonical text |
| CanonicalJson.Writer.WriteArray | src/bundle.rs:254-263 | likewise for an array |
| CanonicalJson.Writer.WriteObject | src/bundle.rs:264-277 | likewise for an object, members by the UTF-16 units of their keys |
| CanonicalJsonTheorems.EscapeIsRead | src/bundle.rs:281-299 | every escape reads back to its character |
| CanonicalShortest.EscapeIsShortest | src/bundle.rs:281-299 | of all texts that read to a character other than the two separators its escape is the shortest, and the only one as short with lower-case digits: nothing is escaped that need not be, and by its short form where it has one |
| CanonicalShortest.SeparatorsAreEscaped | src/bundle.rs:281-299 | U+2028 and U+2029 are written as six characters |
| CanonicalShortest.LongEscapeIs | src/bundle.rs:281-299 | any other six-character escape is of a control character, with its code in lower-case hexadecimal |
| CanonicalShortest.ValueNoShorter | src/bundle.rs:242-299 | no text that reads to a value without those separators is shorter than the text written for it: no white space, no longer spelling anywhere |
| CanonicalShortest.CanonicalIsShortest | src/bundle.rs:242-299 | so without those separators the canonical form is as short as any text that decodes to the same value |
| CanonicalJsonTheorems.TextIsRead | src/bundle.rs:242-299 | reading what was written, whatever follows it, gives the value and leaves what follows |
| CanonicalJsonTheorems.CanonicalReadsBack | src/bundle.rs:242-299 | decoding the canonical form gives the value with its members in key order |
| CanonicalJsonTheorems.CanonicalAgreesIffSame | src/bundle.rs:242-279 | two values have the same canonical form exactly when they are equal up to member order |
| CanonicalJsonTheorems.SameIffOrderedAlike | src/bundle.rs:264-277 | ordering members decides sameness |
| CanonicalJsonTheorems.SortedKeysAscend | src/bundle.rs:265-266 | the sort is by UTF-16 code units (section 3.2.3 of RFC 8785) |
| CanonicalJsonTheorems.OrderedAscends | src/bundle.rs:264-277 | every object read back has ascending keys, and canonicalising again changes nothing |
| CanonicalJsonTheorems.Utf16IsInjective | src/bundle.rs:265-266 | keys with the same units are the same key |
| CanonicalJsonTheorems.SupplementaryKeysComeEarlier | src/bundle.rs:265-266 | the order is not code-point order: U+10000 comes before U+FF61 |
| Kit.ReadZip | src/bundle.rs:360-403 | accepts exactly the archives of regular, relative, readable entries with no two names equal up to case, and maps exactly them; a refusal names what is wrong with the first faulty entry |
| Kit.CheckMembers | src/bundle.rs:408-424 | no error exactly when the seven names are there and no other; a missing name is told before one that does not belong |
| Kit.CheckBindings | src/bundle.rs:466-497 | no error exactly when every binding's length and digest is met and every kit member is bound; else the fault of the first binding that is not met |
| Kit.VerifyKitZip | src/bundle.rs:408-502 | accepts exactly the readable archives whose members verify; each refusal names the first check that fails, in the order of the source |
| Kit.SameManifestSameFiles | src/bundle.rs:408-502 | two accepted kits with the same manifest bytes carry the same files save for its signature |
| Kit.AcceptedArchiveIsExact | src/bundle.rs:360-502 | an accepted archive has seven regular entries, the seven names once each |
| Kit.AcceptedManifestWasSigned | src/bundle.rs:208-240 | under a key whose holder signed only the messages of a set, the manifest of every accepted kit is in it, and its signature names that key |
| Kit.SignedIff | src/bundle.rs:208-240 | where a message has one signature, a signature file is taken exactly when it names the key and carries the manifest's signature and the one over that and its comment |
| Kit.GenuineKitIsAccepted | src/bundle.rs:408-502 | a kit made as the release describes verifies |
| Kit.RelativeStaysInside | src/bundle.rs:371-380 | a path taken is not absolute, has no backslash and no part that climbs |
| Kit.RequiredAreRelative | src/bundle.rs:371-424 | the seven names are taken |
| Modular.InvIsInverse | tools/make-client-kit.py:38-39 | x^(m-2) is the inverse of x |
| Modular.NoZeroDivisors | tools/make-client-kit.py:38-39 | no two nonzero factors make zero |
| Modular.EqualSquares | tools/make-client-kit.py:42-49 | equal squares come from equal or opposite numbers |
| Edwards.Complete | tools/make-client-kit.py:57-68 | the addition law has no exceptional pair: its denominators are never zero |
| Edwards.SumEquation | tools/make-client-kit.py:57-68 | the curve equation of the sum as an identity of the formula's parts |
| EdwardsGroup.AddKeepsExtended | tools/make-client-kit.py:57-68 | T Z = X Y and the curve equation hold of every sum |
| EdwardsGroup.AddRepresents | tools/make-client-kit.py:57-68 | the formula in extended coordinates computes the affine law |
| EdwardsGroup.AddOnCurve | tools/make-client-kit.py:57-68 | the sum of two points of the curve is on it |
| EdwardsAssociates.Balanced | tools/make-client-kit.py:57-68 | the two ways of adding three points have equal quotients: an identity of their sizes x y and x^2 + y^2 that uses the curve equation through two products only |
| EdwardsAssociates.AddAssociates | tools/make-client-kit.py:57-68 | the addition law is associative: for any three points of any curve on which -1 has a square root and d has none, (A + B) + C = A + (B + C) |
| EdwardsGroup.ZeroIsNeutral | tools/make-client-kit.py:57-78 | the point (0, 1) is neutral |
| EdwardsGroup.NegativeIsInverse | tools/make-client-kit.py:57-68 | every point of the curve has its negative on the curve, and the two add up to the neutral point: with the rows above, a commutative group |
| EdwardsGroup.AddCommutes | tools/make-client-kit.py:57-68 | the law is commutative |
| Multiples.ScalarMult | tools/make-client-kit.py:71-78 | the loop computes double-and-add |
| Multiples.ScalarMultIsMultiple | tools/make-client-kit.py:71-78 | double-and-add is n-fold addition |
| Multiples.MultipleAdds | tools/make-client-kit.py:102-134 | [m + n] A = [m] A + [n] A |
| Multiples.MultipleOfOrder | tools/make-client-kit.py:102-134 | scalars may be reduced modulo the order |
| Ed25519.BytesRoundTrip | tools/make-client-kit.py:81-134 | little-endian bytes read back |
| Ed25519.BytesAreLittleEndian | tools/make-client-kit.py:81-134 | the last byte counts most |
| Ed25519.ClampedScalar | tools/make-client-kit.py:89-94 | the secret scalar is a multiple of 8 in [2^254, 2^255) (section 5.1.5 of RFC 8032) |
| Ed25519.SecretOfSeed | tools/make-client-kit.py:89-94 | for every seed with a 64-byte digest the prefix is its second half, and the scalar is the first half, little-endian, with bits 0 to 2 cleared and those from 254 up replaced by 2^254 |
| Ed25519Theorems.XrecoverFindsTheRoot | tools/make-client-kit.py:42-49 | for any point of the curve the x recovered from y is its even root |
| Ed25519Theorems.CompressIsEncode | tools/make-client-kit.py:81-86 | compression depends only on the point, not on its coordinates (section 5.1.2) |
| Ed25519Theorems.EncodedNumber | tools/make-client-kit.py:81-86 | the number encoded is y with the parity of x at bit 255 |
| Ed25519Theorems.EncodeIsInjective | tools/make-client-kit.py:81-86 | two points with one encoding are one point |
| Ed25519Theorems.DecompressIsDecode | tools/make-client-kit.py:113-130 | decoding an encoding gives the point back (section 5.1.3) |
| Ed25519Theorems.SignatureEquation | tools/make-client-kit.py:102-134 | [(r + k a) mod L] B = [r] B + [k] [a] B |
| Ed25519Theorems.PublicKeyIs | tools/make-client-kit.py:97-99 | the public key encodes the secret scalar's multiple of the base point |
| Ed25519Theorems.SignatureIs | tools/make-client-kit.py:102-110 | a signature is the encoding of [r] B and the number (r + k a) mod L, with r and k the digests section 5.1.6 names |
| Ed25519Theorems.VerifyIff | tools/make-client-kit.py:113-134 | for a key and first half that encode points, verification accepts exactly when s < L and [s] B = R + [k] A (section 5.1.7) |
| Ed25519Theorems.OnlySixtyFourBytes | tools/make-client-kit.py:113-116 | and nothing of another length than 64 bytes |
| Ed25519Theorems.SignatureVerifies | tools/make-client-kit.py:97-134 | every signature made verifies under the key derived, for all seeds, messages and digests and any curve, base point and order that suit (sections 5.1.5 to 5.1.7) |
| Ed25519Theorems.ToolFits | tools/make-client-kit.py:28-31 | the tool's modulus is 2^255 - 19, which is 5 modulo 8, and its order fits 32 bytes |
| Ed25519Theorems.ToolConstants | tools/make-client-kit.py:28-54 | where the modulus passes Fermat's theorem the tool's d is -121665/121666, its base point's y is 4/5 and its order is 2^252 + 27742317777372353535851937790883648493 |
| Ed25519Theorems.RootOfMinusOneIff | tools/make-client-kit.py:31-54 | for a modulus that is 5 modulo 8, passes Fermat's theorem and has a root of -1 at all, 2^((m-1)/4) is one exactly when 2 is not a square |
| Ed25519Theorems.ToolRoot | tools/make-client-kit.py:31-54 | so it is with the tool's root of -1 |
| SmallCurve.SmallCurveSuits | tools/make-client-kit.py:28-54 | what is asked of the parameters can be met: the curve modulo 5 with d = 2, and a point of order 4 |
| Redaction.RedactUserInfo | src/logging.rs:97-130 | the loop ends with the scan's text and report |
| Redaction.AuthorityEndsAt | src/logging.rs:97-130 | an authority ends at the first of the twelve delimiters, or with the text |
| Redaction.ReportsIffDifferent | src/logging.rs:97-130 | a change is reported exactly when the text differs |
| Redaction.ReplacesUserInfoOnly | src/logging.rs:97-130 | the result is the text with some stretches between a `://` and the last `@` before a delimiter replaced, and nothing else |
| Redaction.NothingLeftToRedact | src/logging.rs:97-130 | no scanned authority of the result keeps an `@` |
| Redaction.RedactionIsIdempotent | src/logging.rs:97-130 | redacting twice is redacting once |
| Redaction.CleanIffNothingOverlooked | src/logging.rs:97-130 | no `://` anywhere in the result is followed by user information, exactly when the scan overlooked none |
| Redaction.PassedOver | src/logging.rs:97-130 | a text it overlooks |
| Login.ParsePaste | src/login.rs:83-121 | the loop over the pairs gives the specification's code, refusal or emptiness |
| Login.LastValueIsSaid | src/login.rs:96-112 | a parameter has a value exactly when some pair names it |
| Login.CodeIff | src/login.rs:83-121 | which code a paste gives: all of a bare one, trimmed; of a callback the last `code`, exactly when there is no `error` and the last `state`, if any, is this login's |
| Login.QueryOfIs | src/login.rs:83-95 | what counts as a callback: the text after the first `?` of a URL, or a text with `=` and no `?` |
| Login.PairsAreTheQuery | src/login.rs:96-112 | its pairs are the query cut at every `&` |
| Login.PairIsCut | src/login.rs:96-112 | each is cut at its first `=` and both sides decoded |
| Login.ForeignStateIsRefused | src/login.rs:83-121 | a callback whose last state is another login's is refused |
| Login.Logins.Start | src/login.rs:254-312 | sweeps and adds one awaiting record |
| Login.Logins.Submit | src/login.rs:350-361 | queued only for a login that is awaiting; Unknown exactly for an identifier not in the table, Conflict exactly for a login past awaiting |
| Login.Logins.CancelLogin | src/login.rs:364-375 | likewise |
| Login.Logins.SetState | src/login.rs:377-381 | only that record's state |
| Login.Logins.Finish | src/login.rs:383-391 | state, account and end time together |
| Login.Logins.Sweep | src/login.rs:394-407 | forgets only records that ended long enough ago |
| LoginRuns.RunKeeps | src/login.rs:414-489 | over every interleaving of requests and drivers each record says where its driver is |
| LoginRuns.PoolMovesIffSucceeded | src/login.rs:520-588 | a login moves the pool at most once, and exactly when it ends Succeeded |
| LoginRuns.FirstDecisiveDecides | src/login.rs:414-489 | it ends by the first decisive thing its driver takes up, and takes up nothing after it |
| LoginRuns.QueueIsInOrder | src/login.rs:350-375 | what the driver took up is a prefix of what was accepted |
| LoginRuns.RunningIsRemembered | src/login.rs:394-407 | a running login is never forgotten; the end time is set exactly when it ended |
| LoginRuns.ForgottenAfterAnHourIff | src/login.rs:394-407 | a login is forgotten exactly when another is started 3600 seconds or more after it ended |
| LoginRuns.StartedLoginWaits | src/login.rs:254-312 | a login started waits, with an empty queue, its deadline and its owner |
| LoginRuns.AcceptedIffAwaiting | src/login.rs:350-375 | a paste or cancel joins the end of the queue exactly while the login awaits |
| LoginRuns.WaitingDriverTakesUp | src/login.rs:414-489 | a waiting driver takes up whatever reaches it: the oldest of the queue, a callback, the listener's failure, the deadline |
| LoginRuns.DecidedDriverGoesOn | src/login.rs:414-489 | from a code the driver goes on to the exchange, from its outcome to the end, and from there to the record |
| LoginRuns.RecordCarriesTheAccount | src/login.rs:383-391 | the record of an ended login names the account it was given exactly when it succeeded |
| LoginRuns.StatesFollowTheGraph | src/login.rs:377-391 | each step moves a record along Awaiting, Exchanging, Succeeded, Failed, Cancelled as drawn, and an ended one not at all |
| KitCache.Cache.Request | src/control/client_kit.rs:77-104 | answers from a verdict on this identity only, and starts a verification when none runs for it |
| KitCache.Cache.Verified | src/control/client_kit.rs:94-101 | the verdict and the mark are those of the specification |
| KitCache.RunKeeps | src/control/client_kit.rs:66-125 | under any finishing order the cache's invariant holds |
| KitCache.OfferIsOfTheCurrentFile | src/control/client_kit.rs:77-104 | a kit is offered only from a finished verification begun for the file the path names now |
| KitCache.UndisturbedAnswerIsItsOwn | src/control/client_kit.rs:77-104 | over every run in which no path is pointed elsewhere while a verification has yet to read it, every decided answer is the current file's own verdict |
| KitCache.AnswerIsItsOwnIffReadUndisturbed | src/control/client_kit.rs:77-104 | in every run a decided answer is the verdict on what was read at one step; where files are told apart it is the current file's own if and only if the path named that file at that step |
| KitCache.UndecidedIsVerifying | src/control/client_kit.rs:77-104 | after a request a verdict stands on what the path names, be it no file, or a verification for it runs |
| KitCache.OneVerificationAtATime | src/control/client_kit.rs:77-104 | over any run in which no verification of the file ends and no other file is asked for, no second verification is begun for it |
| KitCache.QuietCacheConverges | src/control/client_kit.rs:106-125 | with nothing running, one request and one verification give the file's own verdict |
| KitCache.RepointedVerdictIsAnothers | src/control/client_kit.rs:94-101 | a path pointed away and back leaves another file's verdict |
| Reload.TlsRowsDecide | src/config/mod.rs:121-151 | three comparisons tell all nine pairs of listener settings apart |
| Reload.NoRestartKeyIff | src/config/reload.rs:11-93 | no restart key changed exactly when the two agree in everything but the live settings |
| ReloadKeys.RestartKeyIff | src/config/reload.rs:11-93 | each restart key by its name: listed exactly when its own setting changed, the listener's three keys by what of it changed |
| ReloadKeys.ChangedInOrder | src/config/reload.rs:11-93 | the keys stand in the order of the table |
| Reload.DiffInto | src/config/reload.rs:110-125 | the recursion appends exactly the differing keys, in table order |
| Reload.NoDifferenceIffEqual | src/config/reload.rs:110-125 | none differ exactly when the views are equal |
| Reload.DiffIsDiffPaths | src/config/reload.rs:110-125 | the reported keys are the dotted paths of differing leaves |
| Reload.ListedIffDiffers | src/config/reload.rs:95-125 | a path is listed exactly when it leads to a leaf that differs |
| Reload.ReplacingListedGivesCandidate | src/config/reload.rs:95-125 | taking the listed leaves from the candidate, and no others, gives its view |
| Reload.ViewsShareShape | src/config/mod.rs:417-454 | two views always have the same objects and keys |
| ReloadKeys.GeneralSettingsAreShown | src/config/mod.rs:417-454 | every setting of `accounts`, `quota` and `clients` is shown at the path of its own name |
| ReloadKeys.FileSettingsAreShown | src/config/mod.rs:417-454 | likewise of `diagnostics`, `mitm`, `storage`, `logging` and `audit` |
| ReloadKeys.SelectionSettingsAreShown | src/config/mod.rs:417-454 | likewise of `selection` and its ramp |
| ReloadKeys.ListenerSettingsAreShown | src/config/mod.rs:417-454 | likewise of `data_plane` |
| ReloadKeys.EgressSettingsAreShown | src/config/mod.rs:417-454 | likewise of `data_plane.egress` |
| ReloadKeys.ReducedSettingsAreShown | src/config/mod.rs:417-454 | the listener's kind and files and the proxy URL are shown as reduced: a name, presence, and the paths only |
| ReloadKeys.VersionIsShown | src/config/mod.rs:417-454 | the version is shown as a constant |
| ReloadKeys.JoinPathHasDots | src/config/reload.rs:110-125 | a reported key is its segments with dots between them |
| Reload.NothingChangedIffEqual | src/config/reload.rs:95-125 | no restart key and no live key changed exactly when the configurations are equal, hidden proxy URL and TLS files included |
| References.Resolve | src/config/references.rs:13-26 | the loop over providers gives the specification's accounts or refusal |
| References.ResolvesIff | src/config/references.rs:13-26 | a reference resolves exactly when it names an account and no provider has two it names, and then to all it names |
| References.RefusedWhy | src/config/references.rs:13-26 | a reference is refused as not found exactly when no account answers to it, and as ambiguous exactly when two of one provider do |
| References.Errors | src/config/references.rs:32-62 | the errors of the specification, in order |
| References.NoErrorsIffConsistent | src/config/references.rs:32-62 | none exactly when every reference resolves and the priority entries cover pairwise disjoint accounts |
| References.ErrorsNameFaultyEntries | src/config/references.rs:32-62 | the targets reported are exactly those of the entries that do not resolve or cover an account covered before |
| References.CoversIff | src/config/references.rs:32-62 | a priority entry covers the accounts its reference names, when it resolves; a route covers none |
| References.CoveredSoFarIff | src/config/references.rs:32-62 | covered before means by an earlier entry that was not itself reported |
| References.Conflicts | src/config/references.rs:75-99 | the broken references of the selection, in order |
| References.MadeByIff | src/config/references.rs:75-99 | the references judged are every account a route lists and every priority entry by its index |
| References.BrokenInOrder | src/config/references.rs:75-99 | they are reported in the order they are judged |
| References.Introduced | src/config/references.rs:111-124 | what is broken after and was not before |
| References.IntroducedInOrder | src/config/references.rs:111-124 | in the same order |
| References.GateOpensIff | src/control/accounts.rs:247-260 | an operation goes through exactly when it succeeds and every reference it leaves broken was broken before |
| References.GatedRunsBreakNothing | src/control/accounts.rs:247-260 | over any run of gated operations every reference broken at the end was broken at the start |

## Left out

- InterleavingTheorems.QuietFileIsCurrent: counts a change whose thread has not reached its marking yet as noted, because several callers mark late; `EarlyMarkersLeaveNoWindow` has no such allowance.
- InterleavingTheorems.CrashLeavesOneWholeSnapshot: the snapshot a crash leaves may be one whose write reported an error at the directory fsync; the file system offers no more.
- Ed25519Theorems.SignatureVerifies: takes as hypotheses on the parameters that the modulus passes Fermat's theorem, that i squares to -1 and d has no root, and that the base point is on the curve with the stated order. Completeness, the laws of a commutative group and the formulas are proved; for the tool's own numbers (`TOOL`) these hypotheses are known number theory that is not proved here.
- FollowerTheorems.DeliversWholeLinesInOrder: the reader's chunks end between characters; a read error on invalid UTF-8, a line torn by a disk error, and an inode number reused while the old file is open are not modelled.
- LogFiles.RotatingFile.RotateFiles: disk errors in the middle of a rotation; the retained count is at least one, as src/config/validate.rs:839 and 853 demand.
- SettingsTheorems.UninstallUndoesInstallIff: objects are maps, so nothing is said about member order.
- Login.Logins.Start: the identifier is one not in use, as a random one is; reason texts, the callback page and the browser are absent.
- Kit.VerifyKitZip: parsing minisign files, base64, zip decompression and the manifest's JSON are abstract functions of the bytes.
- CanonicalJsonTheorems.CanonicalReadsBack: numbers are integers; floating-point numbers are not part of the value type.
- Reload.NothingChangedIffEqual: a setting is taken to be shown injectively, save for the proxy URL and the TLS files, which are modelled as the view reduces them.
- References.Resolve: whether an account answers to a reference is an abstract relation.
- Server.Server.FlushQuota: what expiry changes is an abstract function that reports whether the durable part changed.
- Mutex poisoning: a panic while a lock is held is not a step.
- SHA-256 and SHA-512: any function of the bytes, without collisions where a row needs it; secrets are fresh tokens.
- TLS, HTTP, sockets, the scheduler of asynchronous tasks, Windows access lists and file modes: only their outcomes appear, as choices.
- The pool's account selection, quota rules, refresh and probes: the pool is an abstract value with accounts, quota records and a run-time part.
- The kit tool's own JSON writer and archive building (tools/make-client-kit.py:191-252): the program's canonical writer and verifier are modelled instead.
- Command-line parsing, rendering, the status line and prompts.
- One-key checks of the configuration (src/config/validate.rs): their clean result is assumed.
