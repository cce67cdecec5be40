# Project storage on a compute node, modelled in Dafny

This project models the per-project storage manager of a multi-user
notebook server: the `Project` class of `salvus/scripts/bup_storage.py`.
Each project is a Unix account. Its live files are in
`/bup/projects/<id>`, and its history is a bup repository in
`/bup/bups/<id>` with branches, tags, a `HEAD` file, settings, a touch
marker and a save log. The model covers:

- how a project is opened from its id: the uid, the username and the
  current branch;
- switching branches and initialising the repository;
- the exclusion list, saving a snapshot, tagging and listing snapshots;
- reading and updating settings;
- stopping, archiving and destroying a project;
- replication to peer hosts (`sync` and `_sync`).

Everything the script learns from the world is an input to the model. That
covers the results of external commands, the clock, process counts, and the
replica's repository a pull copies from. Each operation returns:

- the project state afterwards;
- the external effects it issued, in order;
- its value, or the text of the exception it raised.

Modules:

- `Wrappers`: `Option` and `Result`.
- `Text`: the Python 2 string operations the script relies on:
  - `strip`;
  - `split(sep)` and `split()`;
  - `splitlines`;
  - substring `in`;
  - `int()`.
- `Shell`: the module-level `cmd` helper. With `ignore_errors` a failure
  becomes output ending in `ERROR`; without it, the raw output is raised.
- `Identity`: the uid derivation and the project-id checks.
- `Settings`: `DEFAULT_SETTINGS`, `get_settings` and the map part of
  `settings`.
- `Storage`: the project record, `__init__`, `set_branch`, `init` and
  `exclude`.
- `History`: `tag`, `snapshots` and `newest_snapshot`.
- `Lifecycle`: `touch`, `last_touch_time`, `stop`, `archive` and
  `destroy`.
- `Replication`: `_sync` and `sync`.
- `Saving`: `save`, including the parts of `mount_snapshots` it depends
  on.

## Model

| member | source | states |
|---|---|---|
| Shell.Tolerant | salvus/scripts/bup_storage.py:151-153 | a failed command with errors ignored yields text that contains `ERROR` and ends with it, whatever it printed |
| Shell.Checked | salvus/scripts/bup_storage.py:151-160 | without `ignore_errors` a command fails exactly when its exit status is non-zero, and the raised text is the raw output |
| Text.SplitOn | salvus/scripts/bup_storage.py:692 | `split(sep)` gives at least one piece; no piece contains the separator; there are two or more pieces exactly when the separator occurs; joining the pieces gives the input back |
| Text.SplitJoin | salvus/scripts/bup_storage.py:692 | splitting a separator-joined list of separator-free parts gives the parts back |
| Text.Strip | salvus/scripts/bup_storage.py:160 | `strip()` gives the slice of its input that starts after the leading whitespace (`Indent`) and is followed only by whitespace; it has no whitespace at either end, and is empty only for all-whitespace input |
| Text.StripIdempotent | salvus/scripts/bup_storage.py:160 | stripping twice is stripping once |
| Text.Lines | salvus/scripts/bup_storage.py:756 | no line that `splitlines` yields contains a line break |
| Text.LinesJoin | salvus/scripts/bup_storage.py:756 | `splitlines` recovers break-free lines joined with `\n` whose last line is not empty |
| Text.JoinLines | salvus/scripts/bup_storage.py:756 | text without `\r` that does not end in `\n` is its lines joined back with `\n`: nothing is lost |
| Text.LinesOfStripped | salvus/scripts/bup_storage.py:756 | stripped command output without `\r` is exactly its `splitlines` joined with `\n` |
| Text.Words | salvus/scripts/bup_storage.py:481 | no word that `split()` yields is empty or contains whitespace |
| Text.LinesUnlines | salvus/scripts/bup_storage.py:756 | `splitlines` recovers the lines of newline-terminated text |
| Text.WordsUnwords | salvus/scripts/bup_storage.py:481 | whitespace `split()` recovers the words of blank-separated text |
| Text.WordsStrip | salvus/scripts/bup_storage.py:435 | stripping before `split()` does not change the words |
| Text.ParseInt | salvus/scripts/bup_storage.py:435 | `int()` accepts exactly an optional sign followed by decimal digits |
| Text.ParseShowNat | salvus/scripts/bup_storage.py:435 | a printed whole number reads back as itself |
| Identity.HexValue | salvus/scripts/bup_storage.py:106 | the value of k hex digits is below 16^k |
| Identity.HexRoundTrip | salvus/scripts/bup_storage.py:106 | reading back the k-digit hex rendering of n gives n |
| Identity.Pow16Prefix | salvus/scripts/bup_storage.py:106 | eight hex digits hold values below 2^32 |
| Identity.Uid | salvus/scripts/bup_storage.py:101-108 | every uid lies between 65537 and 2^31-1, clear of the ids the system reserves |
| Identity.UidOfPrefix | salvus/scripts/bup_storage.py:106-108 | the uid is half the first eight digest digits, shifted up by 65537 when that half is 65537 or less |
| Identity.UidDependsOnlyOnPrefix | salvus/scripts/bup_storage.py:106 | digests that agree on their first eight hex digits give the same uid |
| Identity.UidFoldCollides | salvus/scripts/bup_storage.py:107-108 | the upward shift can collide with an unshifted uid: prefixes 00000002 and 00020004 both give 65538 |
| Identity.RemoveDashes | salvus/scripts/bup_storage.py:176 | the username has no dash and keeps every other character of the id |
| Identity.RemoveDashesConcat | salvus/scripts/bup_storage.py:176 | removing dashes distributes over concatenation |
| Identity.UsernameOfCanonicalId | salvus/scripts/bup_storage.py:176 | the username of an 8-4-4-4-12 id is its 32 hex digits, in order |
| Identity.IsV4Uuid | salvus/scripts/bup_storage.py:169-171 | the constructor's check: `uuid.UUID` accepts the id, dashed or undashed hex, and its version nibble is 4 |
| Settings.Load | salvus/scripts/bup_storage.py:548-561 | every default key is present; a readable document keeps all of its keys and values; a missing or unreadable file gives exactly the defaults |
| Settings.LoadComplete | salvus/scripts/bup_storage.py:554-556 | a document that already has every default key reads back unchanged |
| Settings.LoadIdempotent | salvus/scripts/bup_storage.py:548-561 | writing back what was read and reading again changes nothing |
| Settings.Apply | salvus/scripts/bup_storage.py:614-649 | each passed argument sets its key; every other key, known or not, keeps its value; nothing else is added |
| Settings.MissingShellIgnored | salvus/scripts/bup_storage.py:646-649 | a login shell whose path does not exist leaves `login_shell` unchanged |
| Settings.ExistingShellApplied | salvus/scripts/bup_storage.py:646-647 | a login shell whose path exists replaces `login_shell` |
| Settings.PassedMintimeApplied | salvus/scripts/bup_storage.py:641-642 | a passed mintime replaces the stored one |
| Settings.Update | salvus/scripts/bup_storage.py:609-656 | `settings(...)` always leaves a readable document behind |
| Settings.LoadAfterUpdate | salvus/scripts/bup_storage.py:609-656 | the next `get_settings()` returns exactly the updated map |
| Settings.UpdateWithoutArguments | salvus/scripts/bup_storage.py:614-649 | `settings()` with no arguments changes no setting |
| Settings.ApplyNothing | salvus/scripts/bup_storage.py:616-649 | a request that passes nothing leaves the map as it was |
| Storage.BranchOf | salvus/scripts/bup_storage.py:187 | a project without a `HEAD` file is on `master` |
| Storage.ParseHead | salvus/scripts/bup_storage.py:187 | the branch is the text after the last `/` of `HEAD`, stripped |
| Storage.HeadRoundTrip | salvus/scripts/bup_storage.py:187-292 | the constructor reads back the branch that `set_branch` wrote |
| Storage.HeadLosesSlashedPrefix | salvus/scripts/bup_storage.py:187-292 | a branch name with a slash does not survive: `a/b` reads back as `b` |
| Storage.Open | salvus/scripts/bup_storage.py:168-187 | opening succeeds exactly for version-4 uuids, and otherwise fails with "invalid project uuid='<id>'"; on success the uid is the one derived from the digest, gid equals uid, the username is the id without dashes (32 characters), and the branch agrees with `HEAD` |
| Storage.SetBranch | salvus/scripts/bup_storage.py:289-292 | an empty or unchanged branch is a no-op; otherwise the branch is switched and `HEAD` rewritten to name it, and nothing else changes |
| Storage.SetBranchPersists | salvus/scripts/bup_storage.py:289-292 | after a switch, the in-memory branch still agrees with `HEAD` |
| Storage.ReopenAfterSetBranch | salvus/scripts/bup_storage.py:168-187 | reopening a project after a branch switch lands on the new branch |
| Storage.Init | salvus/scripts/bup_storage.py:279-287 | `bup init` runs exactly when the repository has no objects, and only its failure makes `init` fail; on success the repository and the home directory exist and nothing else changed |
| Storage.InitIdempotent | salvus/scripts/bup_storage.py:279-287 | a second `init` runs no `bup init` and changes nothing |
| Storage.Exclude | salvus/scripts/bup_storage.py:398-400 | one `--exclude=` argument per pattern, in order: the flag, then the prefix, then exactly that pattern |
| Storage.ExcludeCoversSnapshotMount | salvus/scripts/bup_storage.py:398-400 | indexing the project directory excludes its own snapshot mount |
| Storage.ExcludeRelative | salvus/scripts/bup_storage.py:398-400 | with an empty prefix the arguments carry the bare patterns, in order |
| History.Tag | salvus/scripts/bup_storage.py:452-459 | the tag is created on the current branch or deleted; every other tag is untouched; a failed `bup tag` changes nothing |
| History.TagThenUntag | salvus/scripts/bup_storage.py:452-459 | creating and then deleting a new tag restores the project |
| History.Snapshots | salvus/scripts/bup_storage.py:471-481 | a branch without a head file has no snapshots; otherwise a failed `bup ls` raises, and the result is the listing's words minus the last one |
| History.SnapshotsOfListing | salvus/scripts/bup_storage.py:471-481 | a listing of snapshot names followed by `latest` gives exactly those names |
| History.NewestSnapshot | salvus/scripts/bup_storage.py:461-469 | `None` exactly when there are no snapshots, else the last snapshot; it fails exactly when `snapshots` does |
| History.NoNewestWithoutBranch | salvus/scripts/bup_storage.py:461-479 | a branch that does not exist has no newest snapshot |
| History.NewestOfListing | salvus/scripts/bup_storage.py:461-481 | the newest snapshot is the last name listed before `latest` |
| Lifecycle.Touch | salvus/scripts/bup_storage.py:323-324 | touching records the clock and changes nothing else |
| Lifecycle.LastTouchTime | salvus/scripts/bup_storage.py:326-330 | the marker's time when the marker exists, else the current clock |
| Lifecycle.LastTouchAfterTouch | salvus/scripts/bup_storage.py:323-330 | right after a touch, the last touch time is the touch's clock |
| Lifecycle.RoundsFrom | salvus/scripts/bup_storage.py:348-359 | the kill loop runs until no process is left, and for at most 10 rounds |
| Lifecycle.KillRounds | salvus/scripts/bup_storage.py:348-359 | between 1 and 10 kill rounds run |
| Lifecycle.KillTrace | salvus/scripts/bup_storage.py:350-355 | the rounds are issued in order |
| Lifecycle.StaysUp | salvus/scripts/bup_storage.py:334-345 | an idle-gated stop refuses exactly when the stored mintime is above zero and more than the time since the last touch, in Python 2's ordering |
| Settings.AtMostZero | salvus/scripts/bup_storage.py:337 | `v <= 0` as Python 2 compares a JSON value with 0: None is below, strings and containers above, booleans are 0 and 1 |
| Settings.Below | salvus/scripts/bup_storage.py:343 | `x < v` for a float against a JSON value, with the same ordering |
| Lifecycle.Shutdown | salvus/scripts/bup_storage.py:348-362 | the kill rounds come first, then account deletion, the two quota removals and unmounting, cut short only by a failing quota removal, which is what fails the stop |
| Lifecycle.Stop | salvus/scripts/bup_storage.py:332-362 | an idle-gated stop of a recently touched project does nothing; otherwise the kill rounds come first and then account deletion, quota removal and unmounting; the stop fails only when removing a quota fails; the project record is unchanged |
| Lifecycle.IdleGate | salvus/scripts/bup_storage.py:334-345 | with a positive mintime, a gated stop does nothing exactly when less than mintime seconds passed since the last touch |
| Lifecycle.NoMarkerNeverIdle | salvus/scripts/bup_storage.py:326-345 | a project never touched counts as just touched, so a gated stop refuses |
| Lifecycle.UngatedStopProceeds | salvus/scripts/bup_storage.py:334-338 | without the gate, or with mintime at most zero, the kill loop starts |
| Lifecycle.IdleScenario | salvus/scripts/bup_storage.py:334-345 | with mintime 3600, a project touched 1800 s ago stays up and one touched 3601 s ago is stopped |
| Lifecycle.KillLoopStopsEarly | salvus/scripts/bup_storage.py:356-359 | when the first round leaves no process, only one round runs |
| Lifecycle.KillLoopBounded | salvus/scripts/bup_storage.py:348-350 | processes that never die stop the loop after 10 rounds |
| Lifecycle.Archive | salvus/scripts/bup_storage.py:374-389 | archiving succeeds exactly when the stop succeeds and the live directory exists; it removes the live files and the account and keeps the repository |
| Lifecycle.Destroy | salvus/scripts/bup_storage.py:391-396 | destroying succeeds exactly when archiving does, and then removes the repository last |
| Lifecycle.DestroyForgetsEverything | salvus/scripts/bup_storage.py:391-396 | after a destroy, no history, settings, tags or save log remain |
| Lifecycle.ArchiveTwiceFails | salvus/scripts/bup_storage.py:386-388 | a second archive finds no live directory and raises |
| Replication.LivePhase | salvus/scripts/bup_storage.py:722-735 | the live push runs only when the live directory exists; quota output triggers exactly one remote quota raise and at most one retry, each raising on failure; other `ERROR` output raises |
| Replication.QuotaRetryRescuesPush | salvus/scripts/bup_storage.py:728-735 | the quota test comes before the `ERROR` test, so a quota failure answered by a successful raise and retry does not abort the target |
| Replication.OtherPushFailureAborts | salvus/scripts/bup_storage.py:734-735 | any other failed live push raises its output |
| Replication.ParseHeadLine | salvus/scripts/bup_storage.py:757-758 | a head line raises exactly when it has no colon; otherwise the branch is a bare file name, free of slashes and colons, and the id is a colon-free suffix of the line |
| Replication.HeadLineRoundTrip | salvus/scripts/bup_storage.py:748-758 | the `grep -H` line for a head parses back to its branch and id |
| Replication.ParseHeadLines | salvus/scripts/bup_storage.py:755-758 | all lines parse, in order, or the query raises |
| Replication.HeadLinesRoundTrip | salvus/scripts/bup_storage.py:748-758 | the head lines of a set of remote branches parse back to exactly those heads |
| Replication.RemoteHeads | salvus/scripts/bup_storage.py:748-758 | a remote without a repository has no heads; any other failure, or other `ERROR` output, raises; otherwise every output line is parsed as a head |
| Replication.ConflictTags | salvus/scripts/bup_storage.py:770-777 | tags come in head order, one per head only if its commit is unseen, and each is named `conflict-<branch>-<stamp>` and holds the head's id |
| Replication.ConflictTagsComplete | salvus/scripts/bup_storage.py:770-777 | every unseen head gets a tag |
| Replication.ConflictTagIff | salvus/scripts/bup_storage.py:766-777 | once a pack arrived, a head is tagged exactly when the reflog files the conflict test reads have not seen its id |
| Replication.WriteTags | salvus/scripts/bup_storage.py:776-777 | the tag names afterwards are the old names and the written ones |
| Replication.WriteTagsWritten | salvus/scripts/bup_storage.py:776-777 | a written tag that no later tag of the same name overwrites holds its commit id |
| Replication.WriteTagsKept | salvus/scripts/bup_storage.py:776-777 | a tag none of the written ones names keeps what it held |
| Replication.Unseen | salvus/scripts/bup_storage.py:772-773 | "have we ever seen this commit" answered no: the branch has no local reflog, or the reflog text does not contain the id |
| Replication.Conflicts | salvus/scripts/bup_storage.py:766 | tags are written only when the remote had heads and a `.pack` file came back |
| Replication.MergePhase | salvus/scripts/bup_storage.py:747-781 | the merge queries the heads first, and a failed query raises its text and does nothing more; the pull runs exactly when the query and the push succeed and completes exactly when it succeeds too; only then are conflict tags computed, against the local reflog files merged with the replica's; they are pushed back exactly when one was written, and then only the tag push can still fail |
| Replication.Transfer | salvus/scripts/bup_storage.py:760-781 | after the head query: push, then pull; the pull runs exactly when the push succeeded and completes exactly when both succeed; conflict tags are those of the heads, the pulled listing and the reflog files after the pull, and the tag push runs exactly when one was written |
| Replication.Extends | salvus/scripts/bup_storage.py:764-765 | what a transfer without `--delete` can do to a repository: every branch head and tag name stays, and `HEAD`, the objects, the settings, the touch marker and the save log stay wherever they existed |
| Replication.PulledReflog | salvus/scripts/bup_storage.py:760-765 | after the push and the pull, the reflog files are the local ones, unchanged, plus those only the replica had |
| Replication.Pulled | salvus/scripts/bup_storage.py:764-765 | the repository after the pull only gains files |
| Replication.PulledContents | salvus/scripts/bup_storage.py:760-765 | the pull brings in every branch head, reflog file and tag name the replica has, keeps the local reflog files, and takes the replica's settings and save log where the local repository has none |
| Replication.PulledTags | salvus/scripts/bup_storage.py:764-765 | a local tag keeps its target; a tag only the replica has arrives with the replica's target |
| Replication.PullNothingNew | salvus/scripts/bup_storage.py:764-765 | when the replica has nothing the local repository lacks, the pull changes nothing |
| Replication.EarlierPullHidesReplicaLog | salvus/scripts/bup_storage.py:760-773 | a reflog file an earlier target's pull brought in is pushed over the replica's own, so a commit only the replica's file mentions turns from seen to unseen |
| Replication.PullTwice | salvus/scripts/bup_storage.py:764-765 | pulling the same replica twice is pulling it once |
| Replication.Merged | salvus/scripts/bup_storage.py:764-777 | a merge only adds files to the repository, and changes nothing when no pull ran |
| Replication.FailedPullKeepsCopies | salvus/scripts/bup_storage.py:764-765 | a pull that fails part-way raises its output and leaves the files it had already copied |
| Replication.SyncTarget | salvus/scripts/bup_storage.py:707-781 | one target's replication only adds files to the repository: no head, tag name, `HEAD`, settings, touch marker or save log that existed is lost or replaced |
| Replication.LiveFailureAborts | salvus/scripts/bup_storage.py:734-735 | a live phase that raised ends the target with the project unchanged |
| Replication.LiveOnlyWithoutSnapshots | salvus/scripts/bup_storage.py:737-739 | without snapshots, only the live phase runs |
| Replication.DestructiveNeverMerges | salvus/scripts/bup_storage.py:741-745 | a destructive sync is the live phase plus one mirror push; it succeeds exactly when the mirror does and changes nothing locally |
| Replication.MergeSyncOutcome | salvus/scripts/bup_storage.py:747-781 | a merge sync's effects and failure are those of the merge after the live phase |
| Replication.NoPackNoTags | salvus/scripts/bup_storage.py:766 | with no remote heads or no pack file, a merge writes no tag and pushes none back, and the repository is exactly what the pull left |
| Replication.QuietPullNoTags | salvus/scripts/bup_storage.py:763-766 | as written the pull has no `-v` and prints nothing on success, so no pack file is seen and no conflict tag is written |
| Replication.NewRemoteNoTags | salvus/scripts/bup_storage.py:750-751 | a replica without a repository yet gives no heads, so no tags |
| Replication.TagPushStaysLocal | salvus/scripts/bup_storage.py:780-781 | the tag push destination as written names a local directory, not the replica |
| Replication.TagPushReachesReplica | salvus/scripts/bup_storage.py:760-761 | the replica's repository, as the other transfers name it, is a remote destination |
| Replication.StatusOf | salvus/scripts/bup_storage.py:698-704 | each record carries its host and elapsed time, and an error exactly when that target raised |
| Replication.MergeView | salvus/scripts/bup_storage.py:747-781 | run from two sets of reflog files, the merge takes the same steps; without the conflict test it is the same merge, and with a tag push that succeeds it raises the same thing |
| Replication.SyncTargetView | salvus/scripts/bup_storage.py:707-781 | a target's outcome depends only on the project id, the live directory and the settings file, unless the conflict test runs and the tag push fails; without the conflict test its effects do too |
| Replication.PulledSettingsFeedLaterTargets | salvus/scripts/bup_storage.py:730-765 | a project without a settings file takes the replica's from the first completed pull, so later quota raises send the replica's disk value |
| Replication.SyncTargetKeepsView | salvus/scripts/bup_storage.py:707-781 | a target leaves the id, the live directory and an existing settings file as they were |
| Replication.SyncFrom | salvus/scripts/bup_storage.py:698-705 | one record per host, in order, each with its time; the repository only gains files |
| Replication.Sync | salvus/scripts/bup_storage.py:690-705 | `sync` never raises and returns one record per comma-separated target, in order; empty targets give the single record `{host: ''}` and no replication; the repository only gains files |
| Replication.SyncFromIsolated | salvus/scripts/bup_storage.py:698-704 | for a project with a settings file, each target's record is what syncing to that target alone from the starting state would give, unless that target runs the conflict test and its tag push fails |
| Replication.RecordAt | salvus/scripts/bup_storage.py:698-704 | reference definition of target k's record: run the earlier targets one by one, then record target k |
| Replication.SyncFromRecords | salvus/scripts/bup_storage.py:698-704 | the loop's record for each target is the reference record |
| Replication.RecordAtSeen | salvus/scripts/bup_storage.py:698-781 | from any state that agrees on id, live directory and settings file, the reference record of target k is that of target k alone, unless target k runs the conflict test and its tag push fails |
| Replication.SyncIsolated | salvus/scripts/bup_storage.py:690-705 | for a project with a settings file, what earlier targets did changes a target's record only when that target runs the conflict test and its tag push fails |
| Replication.SyncHostsInOrder | salvus/scripts/bup_storage.py:692 | syncing to comma-joined hosts reports on exactly those hosts, in order |
| Saving.Trunc | salvus/scripts/bup_storage.py:425 | `int(time.time())` truncates toward zero |
| Saving.QuotaCheckMissesCommandOutput | salvus/scripts/bup_storage.py:314-320 | as written, a `bup fuse` failure whose output mentions the quota among other text is still fatal |
| Saving.QuotaNonfatalExtends | salvus/scripts/bup_storage.py:317 | the corrected quota test accepts every failure the written test accepts |
| Saving.MountSnapshotsRun | salvus/scripts/bup_storage.py:307-320 | remounting unmounts first; a failure is swallowed exactly when its message mentions the quota, and any other failure raises its message |
| Saving.FilesSaved | salvus/scripts/bup_storage.py:418-419 | nothing is saved exactly when the listing has at most the directory itself; otherwise the count is the listing minus that line |
| Saving.RelativeFiles | salvus/scripts/bup_storage.py:444-445 | the logged file list is no longer than the listing and holds no empty name |
| Saving.RelativeFilesAppend | salvus/scripts/bup_storage.py:444-445 | the file list keeps the listing's order: the list for two parts of a listing is the first part's list followed by the second's |
| Saving.RelativeFilesFromListing | salvus/scripts/bup_storage.py:444-445 | every logged file is a listed line longer than the project-directory prefix, with that prefix dropped |
| Saving.RelativeFilesOfListing | salvus/scripts/bup_storage.py:444-445 | the directory's own line drops out and every changed path loses exactly the project-directory prefix |
| Saving.RepoSize | salvus/scripts/bup_storage.py:435 | a `du` failure, empty output or a non-number raises; a success is the number before the `k` of the first word |
| Saving.RepoSizeOfReport | salvus/scripts/bup_storage.py:435 | a `du` report of n kB reads back as n |
| Saving.SaveTimestamp | salvus/scripts/bup_storage.py:423-425 | the given timestamp, or else the clock when saving started, truncated |
| Saving.Committed | salvus/scripts/bup_storage.py:429 | a successful `bup save` leaves a head for the current branch and its reflog as the save wrote it, and only adds files |
| Saving.AfterCommit | salvus/scripts/bup_storage.py:431-446 | after the commit: a failed size measurement or remount keeps the commit and leaves the save log alone; success appends one record with the count, the details and the file list, and a sync entry exactly when asked for |
| Saving.Recorded | salvus/scripts/bup_storage.py:440-446 | the sync when asked for, with one record per target, then exactly one record appended to the save log |
| Saving.SaveChanged | salvus/scripts/bup_storage.py:421-446 | once something changed: `bup save` on the current branch first; if it fails nothing changes; after it, the branch has a head, even when a later step fails; only files are added; success appends to the save log a last record carrying the count, the details and the relative file list, and when the log existed (or there was no sync) that record is the only change to it; the details hold a sync entry exactly when a sync was asked for, with one record per target |
| Saving.Save | salvus/scripts/bup_storage.py:402-450 | `save` touches the project, switches branch, indexes and lists first; details are returned exactly when files were saved, and then they carry the snapshot's time stamp, the branch has a head, the save log ends with a record of the count, the details and the listed files relative to the project directory, that record is the only change to a log that existed, and the details include a sync entry exactly when a sync was asked for; otherwise the log is unchanged |
| Saving.NothingChangedNothingSaved | salvus/scripts/bup_storage.py:416-421 | with nothing changed there is no snapshot, no sync and no log record, and `save` answers `{files_saved: 0}` |
| Saving.SaveStamp | salvus/scripts/bup_storage.py:423-427 | the snapshot carries the given timestamp, or else the whole seconds of the clock when saving started |
| Saving.SnapshotsAfterSave | salvus/scripts/bup_storage.py:429-481 | after a save that recorded files, listing the branch's snapshots asks bup and returns its listing minus `latest` |
| Saving.SaveSkipsSnapshotMount | salvus/scripts/bup_storage.py:416 | saving the project directory never indexes its own snapshot mount |

## Findings

| source | as written | input that shows it | evidently intended | confidence | as-written member | corrected member |
|---|---|---|---|---|---|---|
| salvus/scripts/bup_storage.py:317 | `'Disk quota exceeded' in msg` tests membership among the exception's arguments, compared whole (Python 2 exceptions are indexable) | `bup fuse` fails with output `fuse: Disk quota exceeded`: the `RuntimeError` is re-raised and `save` fails | treat any failure whose message mentions the quota as nonfatal | medium, not executed | Saving.QuotaCheckMissesCommandOutput | Saving.MountSnapshotsRun |
| salvus/scripts/bup_storage.py:764-765 | the pull back runs rsync without `-v`, although the comment above it says `-v` is important; rsync then prints no file names on success, so `back` never holds a `.pack` line and lines 766-781 never run | any merge sync whose pull succeeds: the output is empty and no conflict tag is written, even for a remote head the local reflog has never seen | a `-v` pull that lists the transferred files | high, not executed | Replication.QuietPullNoTags | Replication.ConflictTagIff |
| salvus/scripts/bup_storage.py:780-781 | reachable only once the pull at 764-765 lists files: the tag push sends the repository to `'root@'+remote+'/'`, which has no colon, so rsync copies into a local directory of that name | any merge sync that writes a conflict tag to a replica `host1`: the push goes to `./root@host1/` on the local node | push to the replica's repository `root@host1:/bup/bups/<id>/`, as lines 760-761 do | high, not executed | Replication.TagPushStaysLocal | Replication.TagPushReachesReplica |

In every case the rest of the model uses the corrected behaviour:
`Saving.Save` remounts through `Saving.MountSnapshotsRun`;
`Replication.MergePhase` reads the pull's output as the file listing a
`-v` pull prints, and pushes the tags to `Replication.RemoteRepo`.

## Left out

- The effects of external commands: process spawning, output capture,
  `cmd`'s timeout and `SIGALRM` path, and the `IOError` path that returns
  plain `ERROR`. Each command's outcome is an input.
- Shell.Tolerant: states only the failure case; a successful output is
  stripped, which the definition does but the contract does not repeat.
- Identity.Uid: takes the SHA-512 hex digest as its input; the hash itself
  is not modelled.
- Storage.Open: models `uuid.UUID` only on dashed or undashed hex. The
  `urn:uuid:` prefix and surrounding braces that the library also strips
  are not modelled.
- The instance paths that nothing in the core reads: `conf_path`,
  `settings_path`, `replicas_path`, `touch_file`, `save_log` and the
  group name. Where their files matter they are fields of the repository
  record.
- Settings: the part of `settings(...)` after the file is written (lines
  658-688): quotas, cgroups and the login shell of the account. That is
  system administration outside the storage core. A write that fails with
  `IOError` is swallowed by the source; the model always writes.
- Settings.Load: a settings file holding JSON that is not an object (a
  list, a number, a string) makes `get_settings` raise `TypeError`, which
  lines 554-557 do not catch. The model's `Stored` has no such case: a
  document is missing, unreadable, or an object.
- `get_settings` creating the configuration directory, and `init`
  creating directories and changing ownership (`makedirs`, `chown`): these
  are file-system side effects; `init` records the home directory as one
  effect.
- Lifecycle.Stop: the grace-period sleep and the output of the kill
  commands, which are ignored. `num_procs` is an input giving the process
  count after each round.
- Lifecycle.Destroy: removing a repository directory that does not exist
  would raise; the model assumes the directory exists once archiving
  succeeded.
- Replication: the `--timeout` option, ssh options and the exclusion
  arguments of the live push. Each transfer is one input result. The pull
  is modelled by what it does to the local repository: the replica's
  repository is an input, and the pull copies in the files it has and the
  local one lacks, since the pull has no `--delete` and follows a push of
  every local file. Which files those are is tracked for branch heads,
  tags, `HEAD`, the objects, the settings, the touch marker and the save
  log, and the reflog files after the pull are derived from the local ones
  and the replica's; pack files themselves are not tracked, and the file
  listing the pull prints is an input per target, so a pack an earlier
  target's pull already brought in may still be listed again. The
  `strftime` stamp of each conflict tag is an input per head.
- Replication.Merged: a pull that fails part-way leaves the files it had
  copied; which files those are is an input (`partial`), as a repository of
  its own, not derived from the replica.
- Replication.SyncIsolated and Replication.SyncFromIsolated: proved only
  for a project that has a settings file. Without one, the first completed
  pull brings in the replica's settings and later targets raise quotas with
  that disk value (Replication.PulledSettingsFeedLaterTargets). Even with
  one, a target that runs the conflict test and then fails to push its
  tags can end differently after earlier targets: the test reads the
  reflog files, which earlier pulls can bring in and which the push then
  copies over the replica's own (Replication.EarlierPullHidesReplicaLog),
  so which tags are written, and whether the failing tag push is reached,
  depends on them. The lemmas state the records equal outside that case.
- Replication.Sync: `replication_factor` is accepted but unused by the
  source, so it is not a parameter.
- Saving.MountSnapshotsRun: the `rmdir` and `makedirs` of the mount point
  are folded into one failure input, and the `bup fuse` mount itself is
  not modelled.
- Saving.Save and Saving.SaveChanged: when the project had no save log and
  the sync pulled one in, only the last record of the log is stated, not
  what precedes it.
- Lifecycle.Touch: always succeeds. The source's `open(touch_file, 'w')`
  raises `IOError` when `conf/` is missing: a project never initialised,
  whose settings were never read, or one just destroyed. Whether `conf/`
  exists is not part of the repository record.
- Saving.Save: the touch it starts with always succeeds in the model, so
  a save of a project without `conf/` (one just destroyed, say) goes on
  to index and commit where the source raises `IOError` first.
- Saving.Save: the output of `bup index`, which the source ignores; the
  JSON layout of the save log (a record per line); the path argument of
  `bup save`.
- `start`, `status`, `create_user`, `checkout`, `cleanup`, quota helpers,
  migrations and the command-line front end: they are outside the storage
  core.
