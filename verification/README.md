# hyperion-vault in Dafny

A model of the replicated, crash-safe secret store at the centre of hyperion-vault, with proofs about whole
runs of it. The model covers five connected parts.

- The command state machine. `Effects.Apply` says what each of the sixteen commands does to the eight tables.
  `Store.WriteTransaction` is the same thing as it runs, changing tables row by row with the loops of the source,
  and every one of its methods is proved equal to that function.
- The Raft storage: the log table with its metadata, batched apply, snapshots and the startup repair. `RaftStore`
  is the running form; `LogSafety` and `Cluster` are machines whose steps are single commits, so that a crash may
  fall between any two of them.
- The ordered `name NUL version` keys, and the byte-range scans over them.
- The requests on secrets. A rotation or an update reads, later commits against the version it read, and later
  still may write a password to an external system. These are separate steps, interleaved in any order.
- The envelope: sealing, opening, re-wrapping onto new master keys, the data-key cache, and the re-wrap pass, again
  step by step with other writers in between (`Sweep`) and as it runs (`RewrapPass`).

Conventions. Tables are maps, and a transaction is a copy that is committed or dropped. The key service and the
cipher are free datatypes, so a blob opens only under the key id and context it was made for. Records are typed:
encoding and decoding are the identity. Clocks, random draws and the answers of external services are parameters.
Integers are unbounded except where the width matters, and there it is written out: 32-bit versions, saturating
64-bit times, the wrap-around a release build has in the lockout arithmetic, 64-bit log indexes in the repair
scan, the audit key range. Strings are compared by code point, which is the order of their UTF-8 bytes.

`CurrentVersion.Good` is the invariant most results start from: every secret has its current row without an
expiry, every other row belongs to a stored secret, is older and has an expiry. It holds over every run of commands
of the shape the requests build (`Service.CreatesAreShaped`, `Service.CommitsAreShaped`); the state machine alone
accepts more, and `CurrentVersion.UnshapedCreateBreaksGood` shows why the shape is needed.

## What turned out not to hold

Each of these is a failing run or input, and the condition that decides it where the failing step has one.

- A restart re-creates the admin role, and the bootstrap token when one is configured, in the node's own tables and
  outside the log. The node still agrees with the common log exactly when both were there already
  (`Cluster.RestartAgreesIff`, `Cluster.RestoreWithoutAdminThenRestartDiverges`). On logs that never drop the
  admin role, and without a bootstrap token, restarts are harmless (`Cluster.AgreementAcrossRestarts`).
- The saved snapshot is handed out with the metadata of the present. It is faithful exactly when its rows still
  restore to the node's own six tables (`Snapshots.StaleSnapshotMisleads`, `Cluster.CurrentSnapshotFaithfulIff`,
  `Cluster.CurrentSnapshotMeta`).
- A snapshot is built from three reads in separate transactions. It is faithful exactly when neither the six tables nor
  the membership changed in between (`Snapshots.TornBuildMisleads`, `Cluster.BuiltFaithfulIff`), as on a node that does
  not apply or install while it builds (`Cluster.IdleBuildIsUntorn`).
- After a crash inside a purge, the log report alone can fall short of the applied index; the startup repair is what
  restores it (`LogSafety.CrashedPurgeForgetsApplied`, `LogSafety.CrashedPurgeReportsAppliedIff`).
- A backup is refused by the restorer exactly when the one audit key past the plausible range is in use
  (`Closure.RestoreThenAppendCannotBeBackedUp`, `Closure.BackupAcceptedIff`).
- A re-wrap that read its row before the secret was deleted and created again makes the new row unopenable
  (`Envelope.RewrapAcrossRecreateLosesValue`, `Envelope.RewrapKeepsOpenableIff`).
- A rotation that commits onto a secret that became manual in between gives it a timer the worker can never serve
  (`Rotation.KindChangeBreaksSchedule`, `Rotation.CommitKeepsTimerIff`).
- Two rotations that both won may reach the external system in the other order, which leaves it on the superseded
  password (`SingleWinner.OverlappingAppliesFallBehind`, `SingleWinner.ApplySyncsIff`).
- A cache hit skips the key service's check of key id and context (`Cache.WarmCacheSkipsTheContext`,
  `Cache.CachedAgreesIff`).
- A version whose sealing began before a re-wrap pass was marked and that commits after its secret was listed stays below
  the watermark, and the worker does not come back for it (`Missed.RotationMissedByPass`). Such versions are exactly the
  live rows a pass without failures leaves below its target (`Sweep.PendingAfterPassIff`).
- The operator's pass can move the watermark back (`Missed.OperatorMovesMarkBack`); the worker's cannot.
- After three failed applies in a row, a secret that logs in as itself no longer tries the password the external
  system kept (`Recovery.ThreeFailuresOutOfReach`, `Recovery.RecoversIff`). Without a grace period one sweep between the
  commit and the listing is enough (`Recovery.SweepBeforeListingLosesLogin`).
- A failure recorded with a clock that went back, or under a shorter lockout, ends a running lock early
  (`Lockout.EarlierClockShortensLock`, `Lockout.StepKeepsLockIff`).

Documentation and code. `docs/API.md` describes a rotation both as alter-then-commit (lines 163-165) and as
commit-then-apply (line 169), and `docs/INTEGRATION.md` (line 32) has the first. The code commits first, and the
model follows the code. Lockouts count in fixed windows, so a sliding interval may hold more than the maximum number
of failures without a lock; how many more is `Lockout.SlidingBound`, and `Lockout.BoundIsTight` shows it is sharp.

## Model

| member | source | states |
|---|---|---|
| Keys.SplitOfKey | crates/hyperion-vault-api/src/store/engine.rs:30-50 | Printing a version key and splitting it gives the name and version back, for every name without a NUL; a negative version is never accepted |
| Keys.KeyOfSplit | crates/hyperion-vault-api/src/store/engine.rs:44-50 | A key splits to a pair exactly when it is the printed key of that pair, so splitting then printing is the identity |
| Keys.KeyInjective | crates/hyperion-vault-api/src/store/engine.rs:30-32 | Different names or versions never share a row key, whatever the names contain and negative versions included |
| Keys.KeyOrder | crates/hyperion-vault-api/src/store/engine.rs:30-32 | Byte order of one secret's keys is the numeric order of their versions |
| Keys.ScanRefinesOwnership | crates/hyperion-vault-api/src/store/engine.rs:34-55 | The byte-range scan filtered by the parsed name visits exactly the keys of the form name NUL version |
| Keys.ScanIsolation | crates/hyperion-vault-api/src/store/engine.rs:44-55 | The filter never accepts another secret's row, whatever characters either name contains |
| Keys.AadInjective | crates/hyperion-vault-core/src/types.rs:75-81 | The associated data names one secret and one version, for all names |
| Store.OwnKeys | crates/hyperion-vault-api/src/store/apply.rs:165-182 | The range scan collects exactly the rows the name owns, said without any byte range |
| Store.ExpiredKeys | crates/hyperion-vault-api/src/store/apply.rs:309-320 | The pass collects exactly the rows whose expiry is at or before the given time |
| Store.FindNextAuditKey | crates/hyperion-vault-api/src/store/apply.rs:363-379 | One past the greatest key of the plausible range, ignoring rows above it; zero for an empty range |
| Store.CheckSecretRows | crates/hyperion-vault-api/src/store/backup.rs:70-89 | The three checking loops accept exactly the data all of whose names, version keys and audit keys are valid |
| Store.RestoreTable | crates/hyperion-vault-api/src/store/backup.rs:130-147 | Clearing and refilling leaves a table that holds the last row of every key of the data and nothing of what was there |
| Store.DumpStrings | crates/hyperion-vault-api/src/store/backup.rs:91-102 | The dump loop yields the table's rows in ascending key order |
| Store.DumpIndexes | crates/hyperion-vault-api/src/store/backup.rs:117-128 | The dump loop over numeric keys yields the audit rows in ascending order |
| Store.WriteTransaction.CreateSecret | crates/hyperion-vault-api/src/store/apply.rs:43-65 | In place, the tables and outcome of the create effect, with its three refusals |
| Store.WriteTransaction.PutVersion | crates/hyperion-vault-api/src/store/apply.rs:67-125 | In place, the tables and outcome of the compare-and-set of a new version |
| Store.WriteTransaction.UpdateMeta | crates/hyperion-vault-api/src/store/apply.rs:127-156 | In place, the tables and outcome of the metadata compare-and-set |
| Store.WriteTransaction.ApplyMeta | crates/hyperion-vault-api/src/store/apply.rs:425-446 | Each field is replaced only when the command carries it |
| Store.WriteTransaction.DeleteSecret | crates/hyperion-vault-api/src/store/apply.rs:158-187 | Scan then removals leave exactly the rows that are not the secret's own |
| Store.WriteTransaction.DeleteRole | crates/hyperion-vault-api/src/store/apply.rs:216-234 | Refused exactly while some token names the role |
| Store.WriteTransaction.AddToken | crates/hyperion-vault-api/src/store/apply.rs:236-266 | Both token tables updated, or the refusal for a taken fingerprint or name |
| Store.WriteTransaction.RevokeToken | crates/hyperion-vault-api/src/store/apply.rs:268-290 | In place, the revocation effect with its three not-found cases |
| Store.WriteTransaction.ExpireGraceVersions | crates/hyperion-vault-api/src/store/apply.rs:308-325 | Collecting then removing leaves exactly the rows that are not expired |
| Store.WriteTransaction.RewrapVersion | crates/hyperion-vault-api/src/store/apply.rs:327-353 | A missing row or a generation at or above the target is left alone |
| Store.WriteTransaction.AppendAudit | crates/hyperion-vault-api/src/store/apply.rs:363-386 | The entry goes to the next key with this node's id |
| Store.WriteTransaction.RecordAuthFailure | crates/hyperion-vault-api/src/store/apply.rs:393-421 | In place, one step of the lockout record with the source's wrapping arithmetic |
| Store.WriteTransaction.RestoreTables | crates/hyperion-vault-api/src/store/backup.rs:52-68 | Every row is checked before any table is touched; then seven tables are replaced and lockouts kept |
| Store.WriteTransaction.ApplySmall | crates/hyperion-vault-api/src/store/apply.rs:189-361 | In place, the role, touch and watermark commands |
| Store.WriteTransaction.ApplyCommand | crates/hyperion-vault-api/src/store/apply.rs:41-423 | Every command does to the tables what the state machine function says, and returns its outcome |
| Store.RedbStore.ApplyOne | crates/hyperion-vault-api/src/store/engine.rs:337-353 | One transaction: the state machine step when it succeeds, and no change at all when it is rejected |
| Store.RedbStore.DumpAll | crates/hyperion-vault-api/src/store/backup.rs:27-41 | The seven tables as sorted rows |
| Effects.RejectionChangesNothing | crates/hyperion-vault-api/src/store/apply.rs:41-423 | Every not-found, conflict and version-conflict path leaves every table as it was |
| Readers.LiveVersions | crates/hyperion-vault-api/src/store/engine.rs:187-209 | Scan, filter and sort return the collected rows as a permutation with versions in descending order |
| Readers.ReaderReturnsLiveList | crates/hyperion-vault-api/src/store/engine.rs:187-209 | Over good tables the reader returns each live row of the secret once, strictly newest first, and no other row |
| CurrentVersion.StepKeepsGood | crates/hyperion-vault-api/src/store/apply.rs:43-187 | Each command of service shape keeps: current row present and without expiry, all other rows older and expiring, none orphaned |
| CurrentVersion.RunKeepsGood | crates/hyperion-vault-api/src/store/apply.rs:43-391 | The same over every run, on whichever node |
| CurrentVersion.CurrentVersionNeverMissing | crates/hyperion-vault-api/src/store/engine.rs:151-171 | After any service run the reader finds a live current row exactly for the secrets that exist |
| CurrentVersion.UnshapedCreateBreaksGood | crates/hyperion-vault-api/src/store/apply.rs:43-65 | A create whose record and row disagree is accepted and leaves a secret without a current row |
| Grace.SupersededExpiry | crates/hyperion-vault-api/src/store/apply.rs:95-112 | In any tables a superseded row gets the command's expiry unless it had one, which stays |
| Grace.PutSupersedes | crates/hyperion-vault-api/src/store/apply.rs:95-110 | The commit that supersedes a version leaves it with exactly the expiry of the command |
| Grace.GraceWindow | crates/hyperion-vault-api/src/store/apply.rs:95-110 | Over every later run without delete or restore, a superseded version is live exactly while now is below supersede time plus grace, saturated |
| Grace.ExpiryIsInvisible | crates/hyperion-vault-api/src/store/apply.rs:308-325 | An expiry sweep changes no read made at a time no earlier than its own |
| Grace.ExpirySetOnce | crates/hyperion-vault-api/src/store/apply.rs:95-110 | An expiry, once set, is never changed by any command |
| Access.TokensAndRolesOverRuns | crates/hyperion-vault-api/src/store/apply.rs:216-306 | Over runs without restore: the two token tables stay inverse, tokens keep name and role, revocations never change, a role a token names stays |
| Access.CreateRoleDoes | crates/hyperion-vault-api/src/store/apply.rs:189-201 | A role is created as sent, exactly for a free name, and nothing else changes |
| Access.SetPermissionsDoes | crates/hyperion-vault-api/src/store/apply.rs:203-214 | Succeeds exactly for a stored role, replaces its permissions and nothing else in any table |
| Access.DeleteRoleDoes | crates/hyperion-vault-api/src/store/apply.rs:216-234 | A role goes exactly if it is stored and no token names it; a token that names it is reported first |
| Access.AddTokenDoes | crates/hyperion-vault-api/src/store/apply.rs:236-266 | A token is stored as sent under fingerprint and name, exactly when both are free |
| Access.RevokeTokenDoes | crates/hyperion-vault-api/src/store/apply.rs:268-290 | A revocation succeeds exactly for a stored token that is not revoked, and writes its time |
| Access.TouchTokenDoes | crates/hyperion-vault-api/src/store/apply.rs:292-306 | A use never fails and writes the time of that token alone |
| Access.PermissionsAreLastSet | crates/hyperion-vault-api/src/store/apply.rs:189-234 | Over runs without restore a role is as created, has the permissions of the last accepted set, or is gone, whichever accepted write came last |
| Access.LastUseIsLastTouch | crates/hyperion-vault-api/src/store/apply.rs:292-306 | Over runs without restore a token's last use is the time of the last touch of it |
| Access.RevokedForever | crates/hyperion-vault-api/src/store/apply.rs:268-290 | Revoking by name changes exactly that token, and its first revocation time stays for the rest of any run without restore |
| Lockout.RecordMeansWindow | crates/hyperion-vault-api/src/store/apply.rs:393-421 | The record counts the failures since its window opened, and a lock ends lockout seconds after its failure |
| Lockout.EveryLockIsEarned | crates/hyperion-vault-api/src/store/apply.rs:409-416 | Every lock is preceded by max failures inside one window |
| Lockout.SlidingBound | crates/hyperion-vault-api/src/store/apply.rs:393-421 | Any interval shorter than the window with 2*max-2 failures (max in a one-second window, one if max is one) contains one that locks |
| Lockout.BoundIsTight | crates/hyperion-vault-api/src/store/apply.rs:393-421 | For every policy with max at least two and a positive window whose times fit the clock, one failure fewer can pass unlocked |
| Lockout.StepKeepsLockIff | crates/hyperion-vault-api/src/store/apply.rs:393-421 | A command keeps a lock to its end exactly unless it is a failure of the key that writes an earlier end |
| Lockout.EarlierClockShortensLock | crates/hyperion-vault-api/src/store/apply.rs:414-416 | The run of max failures at one moment and one more with a clock a second behind: the key is locked, then open in the last second of its lock |
| Lockout.SteadyClockNeverShortens | crates/hyperion-vault-api/src/store/apply.rs:393-421 | Under one lockout length and a clock that does not go back no run shortens a lock |
| Lockout.LockedThroughout | crates/hyperion-vault-api/src/store/apply.rs:393-421 | In any run of commands under one lockout length and a clock that does not go back, a failure that locks at t bars the key at every later point of the run for all of t to t plus lockout |
| Lockout.LockLastsItsTime | crates/hyperion-vault-api/src/lockout.rs:45-57 | A key locked at t is refused at every time before t plus lockout, whatever commands follow, restores included, as long as none shortens the lock |
| Lockout.RowIsRecord | crates/hyperion-vault-api/src/store/apply.rs:400-419 | The stored row after a run of failures is the record the bounds speak about |
| Backup.CollapseIsLastWins | crates/hyperion-vault-api/src/store/backup.rs:130-147 | A restored table holds the last row of each key that occurs and no other key |
| Backup.DumpAcceptedIff | crates/hyperion-vault-api/src/store/backup.rs:70-89 | A dump is accepted exactly when the tables hold only names, version keys and audit keys in range |
| Backup.RestoreOfDump | crates/hyperion-vault-api/src/store/backup.rs:27-68 | Restoring a dump over any tables brings back the seven dumped ones and keeps the lockouts |
| Backup.RestoreDependsOnlyOnData | crates/hyperion-vault-api/src/store/backup.rs:52-68 | The outcome and the restored tables do not depend on what was there; a refused restore changes nothing |
| Backup.RestoreIdempotent | crates/hyperion-vault-api/src/store/backup.rs:52-68 | Restoring twice is restoring once |
| Backup.DumpOfRestore | crates/hyperion-vault-api/src/store/backup.rs:91-147 | Dump after restore of a string-keyed table is the restored rows collapsed to the last of each key and sorted |
| Backup.DumpOfRestoredAudit | crates/hyperion-vault-api/src/store/backup.rs:117-185 | The same for the audit table and its numeric keys |
| Closure.StepKeepsValid | crates/hyperion-vault-api/src/store/apply.rs:19-39 | Any command at all, however built, keeps every stored name and version key valid |
| Closure.AuditStaysDense | crates/hyperion-vault-api/src/store/apply.rs:363-386 | The audit log has no gaps: its length is the number of appends up to the end of its key range |
| Closure.BackupAcceptedIff | crates/hyperion-vault-api/src/store/backup.rs:52-89 | After any run from empty, the dump is accepted exactly when the audit key past the range is unused |
| Closure.RestoreThenAppendCannotBeBackedUp | crates/hyperion-vault-api/src/store/apply.rs:363-391 | Two commands suffice: restore a row at the greatest plausible audit key, then append one, and the dump is refused |
| Closure.BuiltSnapshotAccepted | crates/hyperion-vault-api/src/raft/store.rs:490-614 | In every reachable cluster each built snapshot is installable up to the plausible log length, and installing it brings a node to the state it stands for |
| RaftLog.NormalizeExact | crates/hyperion-vault-api/src/raft/store.rs:46-100 | For any log and metadata the repair keeps exactly the longest run of consecutive indexes above the floor |
| RaftLog.NormalizeIdempotentAndResumable | crates/hyperion-vault-api/src/raft/store.rs:85-100 | A second repair changes nothing, and one cut short between its commits is completed by the next |
| LogSafety.LogStoreCrashSafe | crates/hyperion-vault-api/src/raft/store.rs:221-325 | After any run with crashes at every commit boundary, a serving node has every unapplied entry it wrote and reports a range that is wholly present |
| LogSafety.ReportIsPresent | crates/hyperion-vault-api/src/raft/store.rs:221-255 | After any run, in any phase and between any two commits, every index the log report spans is stored |
| LogSafety.TruncateCuts | crates/hyperion-vault-api/src/raft/store.rs:291-306 | A truncate in any reachable state leaves exactly the entries below its index, as they were; nothing from there on is reported, and if the log reached that index the next append carries it |
| LogSafety.RestartLeavesUnappliedTail | crates/hyperion-vault-api/src/raft/store.rs:40-108 | A restart from any crash leaves exactly the unapplied entries, contiguous from the applied index |
| LogSafety.CrashedPurgeReportsAppliedIff | crates/hyperion-vault-api/src/raft/store.rs:308-325 | After a crash inside a purge the raw report reaches the applied index exactly when an entry survived or the mark was there already |
| LogSafety.CrashedPurgeForgetsApplied | crates/hyperion-vault-api/src/raft/store.rs:308-325 | The run append, apply, first half of a purge, crash: the raw report knows of no entry although one was applied |
| RaftStore.OutsideRun | crates/hyperion-vault-api/src/raft/store.rs:46-73 | The single ascending pass with wrapping arithmetic collects exactly the indexes outside the run above the floor |
| RaftStore.RaftNode.Append | crates/hyperion-vault-api/src/raft/store.rs:265-289 | The insert loop leaves the appended log |
| RaftStore.RaftNode.Truncate | crates/hyperion-vault-api/src/raft/store.rs:291-306 | The removals leave exactly the entries with a smaller index, as they were |
| RaftStore.RaftNode.Purge | crates/hyperion-vault-api/src/raft/store.rs:308-325 | Entries up to the index are gone and the mark is set |
| RaftStore.RaftNode.Normalize | crates/hyperion-vault-api/src/raft/store.rs:40-108 | The running repair reaches the normalized log and metadata for every 64-bit state |
| RaftStore.RaftNode.GetLogState | crates/hyperion-vault-api/src/raft/store.rs:221-255 | The report the consensus library gets, with its fallback to the applied id above a gap |
| RaftStore.RaftNode.ApplyEntries | crates/hyperion-vault-api/src/raft/store.rs:424-478 | The batch loop gives the batch state and one result per entry, rejections included |
| RaftStore.RaftNode.MakeSnapshot | crates/hyperion-vault-api/src/raft/store.rs:357-403 | Six tables of the moment as sorted rows, with the applied id and membership that were read before, saved and handed out |
| RaftStore.RaftNode.Install | crates/hyperion-vault-api/src/raft/store.rs:490-549 | Refused whole, or tables, metadata and the covered log entries replaced together; lockouts and audit kept |
| RaftStore.RaftNode.SavedSnapshot | crates/hyperion-vault-api/src/raft/store.rs:551-574 | The saved bytes under the present metadata, as the source pairs them |
| RaftStore.CheckSnapshotRows | crates/hyperion-vault-api/src/raft/store.rs:594-614 | The checking loops accept exactly the rows with valid names and version keys |
| Replica.BatchEqualsOneAtATime | crates/hyperion-vault-api/src/raft/store.rs:424-478 | A batch in one transaction gives the tables and results of applying each entry alone with abort on rejection |
| Replica.BatchSplits | crates/hyperion-vault-api/src/raft/store.rs:424-478 | Splitting a batch anywhere changes neither the state nor the results |
| Replica.SharedDeterminism | crates/hyperion-vault-api/src/store/apply.rs:41-423 | The six replicated tables and the outcome of a log command depend on neither the node id nor the local tables |
| Replica.LocalKeepsShared | crates/hyperion-vault-api/src/store/model.rs:187-192 | Commands that bypass the log touch no replicated table |
| Replica.ContentsRestore | crates/hyperion-vault-api/src/raft/store.rs:357-403 | The rows of a snapshot restore to the tables it was built from |
| Replica.BootChangesNothingIff | crates/hyperion-vault-api/src/store/engine.rs:96-122 | Opening a store writes nothing exactly when the admin role is there and the bootstrap token or its name is |
| Replica.BootSeeds | crates/hyperion-vault-api/src/store/engine.rs:96-122 | What opening leaves: the admin role, with full access if it was missing, the configured token with that role unless fingerprint or name was taken, and nothing else changed |
| Cluster.ReplicaAgreement | crates/hyperion-vault-api/src/raft/store.rs:357-549 | In every run of batches, local writes, untorn snapshots, installs and quiet restarts each node is the log up to what it applied, command by command, so equal applied ids mean equal replicated state; its membership is that of the last membership entry it applied, or none |
| Cluster.RestartAgreesIff | crates/hyperion-vault-api/src/store/engine.rs:96-122 | A restart keeps a node in agreement exactly when everything it seeds is already there |
| Cluster.AgreementAcrossRestarts | crates/hyperion-vault-api/src/lib.rs:54-80 | With restarts anywhere and no bootstrap token, agreement holds on every log that never drops the admin role |
| Cluster.RestoreWithoutAdminThenRestartDiverges | crates/hyperion-vault-api/src/store/engine.rs:96-122 | A restore without the admin role followed by a restart takes the node off the common state |
| Cluster.CurrentSnapshotFaithfulIff | crates/hyperion-vault-api/src/raft/store.rs:551-574 | In every reachable cluster a saved snapshot handed out later is faithful exactly when its rows restore to the six tables the node has now |
| Cluster.CurrentSnapshotMeta | crates/hyperion-vault-api/src/raft/store.rs:551-574 | If the node neither applied nor installed since its build, whatever others did, the handed-out metadata is the one in the bytes exactly when the build read the node's own of that moment; one applied entry later the log ids differ |
| Cluster.BuiltFaithfulIff | crates/hyperion-vault-api/src/raft/store.rs:357-403 | In every reachable cluster a build that read its applied id, its membership and its tables in three steps hands out a faithful snapshot exactly when tables and membership did not change in between |
| Cluster.IdleBuildIsUntorn | crates/hyperion-vault-api/src/raft/store.rs:357-403 | That is so on every node that neither applies nor installs while it builds, whatever it writes locally and the others do |
| Snapshots.TornBuildMisleads | crates/hyperion-vault-api/src/raft/store.rs:357-365 | From an empty log: read the applied id, apply an entry, read the tables; every node accepts the snapshot and a follower that installs it leaves the common state |
| Snapshots.StaleSnapshotMisleads | crates/hyperion-vault-api/src/raft/store.rs:551-574 | From an empty log: build, apply an entry, hand out the saved bytes; every node accepts the pair, and a follower that installs it has the log id and not the tables |
| Envelope.SealOpenRoundTrip | crates/hyperion-vault-api/src/service.rs:742-805 | Opening returns the sealed value under its own name and version and nothing under any other |
| Envelope.OpensIff | crates/hyperion-vault-api/src/service.rs:774-805 | A row opens to a value exactly when that value was sealed for this very name and version under the key its blob holds, and the blob is wrapped for the same under the row's master key |
| Envelope.RewrapKeepsOpenableIff | crates/hyperion-vault-api/src/store/apply.rs:327-353 | A re-wrap keeps a row openable exactly when it is stale or carries the row's own key under its key id and context |
| Envelope.StoredValuesStayOpenable | crates/hyperion-vault-api/src/service.rs:742-805 | A committed version opens to its own value for as long as its row exists, through any interleaving of writes and re-wraps in flight, without delete or restore |
| Envelope.RewrapAcrossRecreateLosesValue | crates/hyperion-vault-api/src/rewrap.rs:71-94 | The run create, re-wrap read, delete, create, re-wrap write from an empty vault: the new row opened before and does not open after |
| Cache.DekCache.Get | crates/hyperion-vault-api/src/cache.rs:26-39 | A hit exactly before the entry's store time plus the lifetime, unchanged cache on a hit, the looked-up entry gone on a miss |
| Cache.CurrentIff | crates/hyperion-vault-api/src/cache.rs:32-52 | An entry serves for exactly its lifetime from the moment it was stored |
| Cache.DekCache.DropStale | crates/hyperion-vault-api/src/cache.rs:47-49 | Exactly the entries still within their lifetime remain |
| Cache.DekCache.FindOldest | crates/hyperion-vault-api/src/cache.rs:50-55 | No entry is older than the one found |
| Cache.DekCache.Put | crates/hyperion-vault-api/src/cache.rs:41-60 | The entry is stored, the size never exceeds the cap, and a full cache loses only stale entries or one oldest current one |
| Cache.DekCache.Open | crates/hyperion-vault-api/src/service.rs:774-805 | Opening through the cache asks the key service only on a miss and keeps every cached key the one inside its blob |
| Cache.CachedAgreesIff | crates/hyperion-vault-api/src/service.rs:789-804 | In every sound cache the cached answer is the uncached one exactly on a miss, for a row bound to its key id and context, or for one that would not open anyway |
| Cache.WarmCacheSkipsTheContext | crates/hyperion-vault-api/src/service.rs:789-804 | The run create, open, restore of a row under another version's key blob: the cache that served the open opens it, a new one does not |
| Cache.OpenableThroughCache | crates/hyperion-vault-api/src/service.rs:774-805 | Rows the vault sealed or re-wrapped open to the same value with and without the cache |
| Cache.StoredValuesOpenThroughCache | crates/hyperion-vault-api/src/service.rs:742-805 | A committed version opens to its own value through every sound cache for as long as its row exists, over the same interleavings |
| Service.BegunIsWellBegun | crates/hyperion-vault-api/src/service.rs:203-385 | A begun rotation or update carries the next version, no expiry, a valid interval and the kind it read |
| Service.CreatesAreShaped | crates/hyperion-vault-api/src/service.rs:41-90 | Create requests build commands of the shape the run theorems assume |
| Service.CommitsAreShaped | crates/hyperion-vault-api/src/service.rs:250-386 | So do rotations, updates and retries |
| Service.SegmentsAreParts | crates/hyperion-vault-core/src/types.rs:66-76 | The parts a name is checked by contain no slash and give the name when joined by slashes |
| Outcomes.CreateBuiltIff | crates/hyperion-vault-api/src/service.rs:41-60 | A create request is refused exactly for an unclean name, a grace or interval out of range, or an automatic secret without an interval |
| Outcomes.CreateDoes | crates/hyperion-vault-api/src/service.rs:61-91 | A create succeeds exactly for a free name; the value reads back at version 1, the record holds everything the request said and the timer, and nothing else changed |
| Outcomes.BadRowsRefused | crates/hyperion-vault-api/src/store/apply.rs:43-80 | Rows with a name or version out of bounds are refused as such before anything is looked up |
| Outcomes.IdleCommandsSucceed | crates/hyperion-vault-api/src/store/apply.rs:308-353 | A re-wrap of a missing row is accepted and does nothing; a sweep is always accepted |
| Outcomes.DeleteDoes | crates/hyperion-vault-api/src/store/apply.rs:158-187 | A delete succeeds exactly for a stored secret; none of its rows is left and no other secret or row changed |
| Outcomes.RotateBeginsIff | crates/hyperion-vault-api/src/service.rs:325-366 | A rotation begins exactly for an automatic secret with a version left and, for a login, a readable current one |
| Outcomes.UpdateBeginsAs | crates/hyperion-vault-api/src/service.rs:205-270 | An update is refused exactly for bounds, format, version or an unreadable login; it becomes a new version exactly if it sends a value, a password alone included |
| Outcomes.UpdateDoes | crates/hyperion-vault-api/src/service.rs:239-300 | An unraced update: sent fields replace stored ones and the others stay, the version moves exactly with a value, the timer restarts exactly for an automatic secret with a new value or interval |
| Outcomes.NewVersionDoes | crates/hyperion-vault-api/src/store/apply.rs:67-125 | A commit onto the version it was built for succeeds, reads back, and touches two rows only |
| Outcomes.RotateDoes | crates/hyperion-vault-api/src/service.rs:319-386 | A rotation nobody raced: next version, fresh token under the old username, old row live for the grace period, timer one interval on |
| Outcomes.ReplaceDoes | crates/hyperion-vault-api/src/service.rs:244-300 | A value update stores the merged value, keeps the old row for the old grace period, restarts the timer of automatic secrets only |
| Rotation.CommitKeepsTimerIff | crates/hyperion-vault-api/src/service.rs:244-300 | A commit leaves a rightly timed secret so exactly unless it sets a timer on a secret that is manual now |
| Rotation.KindChangeBreaksSchedule | crates/hyperion-vault-api/src/service.rs:319-386 | The run create automatic, rotation reads, delete, create manual, rotation commits: a manual secret with a timer that no rotation accepts |
| Rotation.ScheduleHolds | crates/hyperion-vault-api/src/service.rs:52-88 | In every interleaving where no secret is removed under a request, manual secrets have no timer and automatic ones have one and a positive interval |
| SingleWinner.CommitWinsIff | crates/hyperion-vault-api/src/store/apply.rs:80-86 | A new version commits exactly when the version it read is still current; a loser changes nothing |
| SingleWinner.EachVersionHasOneWinner | crates/hyperion-vault-api/src/service.rs:319-430 | After any interleaving on an undeleted secret the append-only list of commits holds its versions once each, in order and without a gap up to the current one; no client committed twice; the external system holds its first password or one a committed version stored |
| SingleWinner.MetadataAppliesIff | crates/hyperion-vault-api/src/store/apply.rs:127-156 | An update without a value, or a retry, applies exactly while the version it was made for is current; otherwise it changes nothing |
| SingleWinner.TurnsToTargetIff | crates/hyperion-vault-api/src/service.rs:388-416 | A rotation turns to the external system exactly if it won, the secret has a target and stores a login, and it brings its own token |
| SingleWinner.FailedApplyRetries | crates/hyperion-vault-api/src/service.rs:399-416 | A failed apply leaves the external system alone and, if its version is still current, brings the next rotation to a minute after its time |
| SingleWinner.LateRetryChangesNothing | crates/hyperion-vault-api/src/service.rs:703-720 | A retry that arrives after a newer version was committed changes no table, the timer included |
| SingleWinner.ApplySyncsIff | crates/hyperion-vault-api/src/service.rs:388-416 | A successful apply puts the external system on the current version exactly when its own version is still current |
| SingleWinner.OverlappingAppliesFallBehind | crates/hyperion-vault-api/src/service.rs:388-416 | The run of two overlapping rotations from any vault that can begin one: both win, the newer applies and is in step, the older applies and the external system is left on the superseded password |
| Logins.ChooseVersions | crates/hyperion-vault-api/src/service.rs:682-688 | The push-and-truncate loop yields the chosen candidate list |
| Logins.ChosenShape | crates/hyperion-vault-api/src/service.rs:682-688 | At most four different versions, the superseded one first, then live ones from new to old, nothing else |
| Logins.ChosenIff | crates/hyperion-vault-api/src/service.rs:682-688 | A live version is tried exactly when it was just superseded or at most two other live ones are newer |
| Recovery.PlayFallsBehind | crates/hyperion-vault-api/src/service.rs:388-416 | After k committed rotations whose applies failed, with others writing to other secrets, sweeping and re-wrapping before, during and after each, the external system is exactly k live, openable versions behind |
| Recovery.RecoversIff | crates/hyperion-vault-api/src/service.rs:627-701 | The next rotation, listing within its grace period and after others wrote again, tries the login the external system kept exactly when k is at most two; past it, unless k is zero and the superseded row is swept first |
| Recovery.SweepBeforeListingLosesLogin | crates/hyperion-vault-api/src/service.rs:676-701 | From an empty vault without a grace period: create, rotate, sweep before the listing, and the rotation does not try the login the external system holds |
| Recovery.ThreeFailuresOutOfReach | crates/hyperion-vault-api/src/service.rs:627-701 | From an empty vault: create, three failed applies, and the fourth rotation does not try the login the external system holds |
| Logins.OpenLogins | crates/hyperion-vault-api/src/service.rs:690-700 | Missing rows and other formats are skipped, an unopenable row fails the request |
| Logins.LoginsSplit | crates/hyperion-vault-api/src/service.rs:690-700 | Logins come in the order of their versions |
| Logins.SelfLoginCandidates | crates/hyperion-vault-api/src/service.rs:676-701 | The request's logins are those of the chosen versions of the reader's list |
| Logins.SelfLoginWorksIff | crates/hyperion-vault-api/src/service.rs:627-701 | The login the external system holds is among those tried exactly under the rank condition |
| Verify.VerifyDesk.Check | crates/hyperion-vault-api/src/service.rs:432-496 | Unknown names, locked keys, empty values and missing secrets as the source answers them, otherwise the first match of the list; one audit row that says how it ended, one more failure of this caller and secret exactly for a wrong value, nothing else |
| Verify.AcceptsIff | crates/hyperion-vault-api/src/service.rs:462-471 | A live version accepts a value exactly when its stored value, or the password of its stored login, is that value |
| Verify.FailsIff | crates/hyperion-vault-api/src/service.rs:462-463 | The check fails exactly at a row that does not open, if no row before it decided |
| Verify.VerifyKeyInjective | crates/hyperion-vault-api/src/lockout.rs:41-43 | Different callers or secrets are never counted together |
| Verify.WrongValuesLock | crates/hyperion-vault-api/src/lockout.rs:34-73 | A caller is kept out after exactly max wrong values, and exactly until their time plus the lockout |
| Verify.AnswerIsNewestMatch | crates/hyperion-vault-api/src/service.rs:457-496 | When stored rows open, the answer is the newest live version holding the value, and invalid exactly when none does |
| Verify.OldValueAnswered | crates/hyperion-vault-api/src/service.rs:457-496 | The answer to a superseded value is its version exactly until supersede time plus grace and invalid from then on, unless another version stores it, through any rotations, sweeps and re-wraps in flight |
| Worker.RotationWorker.Rotate | crates/hyperion-vault-api/src/service.rs:319-430 | One rotation with others writing while it waits for the key service and for the external system, retry included, as a function of the store; it reports success exactly when it began, won its commit and reached its target |
| Worker.DueRotations | crates/hyperion-vault-api/src/store/engine.rs:227-243 | The scan loop lists the due records in key order |
| Worker.AllDueListed | crates/hyperion-vault-api/src/store/engine.rs:227-243 | Over good tables the list holds exactly the due secrets, each once |
| Worker.RotatedTimer | crates/hyperion-vault-api/src/service.rs:366-416 | A rotation that begins on a secret whose record others leave alone wins and leaves a timer after its own time, or at the end of time, also when the apply failed |
| Worker.DueIsRotatable | crates/hyperion-vault-api/src/store/engine.rs:227-243 | What is due is automatic, so the list needs no check of the kind: a due secret is refused only if sealing fails, versions are used up or its stored login is unreadable |
| Worker.RotationWorker.Tick | crates/hyperion-vault-api/src/rotation_worker.rs:24-50 | With others writing before the listing and during every rotation: a secret they leave alone, re-wraps under its own key aside, is listed exactly when due, due afterwards exactly when it was and one of those causes held, and its rows past their time are gone; the row invariant is kept, and with nobody else the timers too |
| Rewrap.RewrapsKeepGreatest | crates/hyperion-vault-api/src/store/apply.rs:327-353 | Any replay of re-wraps leaves the greatest generation and the same ciphertext, nonce, associated data, version and expiry |
| Rewrap.OrderDoesNotMatter | crates/hyperion-vault-api/src/store/apply.rs:340-348 | The generation does not depend on the order of the re-wraps |
| Rewrap.MovedOpensTheSame | crates/hyperion-vault-api/src/rewrap.rs:71-94 | A row the pass moved opens as it did before |
| Rewrap.ListSecrets | crates/hyperion-vault-api/src/store/engine.rs:211-225 | All secrets as a permutation sorted by name |
| RewrapPass.Rewrapper.RewrapOne | crates/hyperion-vault-api/src/rewrap.rs:71-94 | The key of the row as listed is re-encrypted exactly when the key service can, and committed to whatever row is there after others wrote; otherwise only the others wrote |
| RewrapPass.Rewrapper.PassOver | crates/hyperion-vault-api/src/rewrap.rs:46-67 | The rows of one secret, others writing at every wait, as steps of the pass machine whose invariant they keep; with nobody else writing only key fields change |
| RewrapPass.Rewrapper.RunPass | crates/hyperion-vault-api/src/rewrap.rs:36-69 | Refused while one runs; without failures every row from before that is live carries the target, of every secret others neither deleted nor restored over; with nobody else writing every live row does and a second pass re-wraps nothing |
| RewrapPass.Rewrapper.Tick | crates/hyperion-vault-api/src/rewrap_worker.rs:22-69 | Seeds without a watermark, runs a pass exactly when the newest rotation is past it and none is running, rests otherwise; the pass moves the watermark to its target exactly when no row failed, and with nobody else writing and a key service that answers every live row then carries the target; the watermark never moves back |
| RewrapPass.Rewrapper.Force | crates/hyperion-vault-api/src/rewrap.rs:117-129 | The operator's pass runs exactly when none is running, gives the same guarantees for its target and marks it, whatever was marked before |
| Sweep.RunKeepsCaughtRow | crates/hyperion-vault-api/src/store/apply.rs:340-348 | A row that carries the target carries it for as long as it exists, whoever else writes |
| Sweep.SealedAfterMarkIsCaught | crates/hyperion-vault-api/src/service.rs:755-771 | A version sealed once a pass is marked is not below that pass's target |
| Sweep.ScannedRowsCarryTarget | crates/hyperion-vault-api/src/rewrap.rs:36-94 | Over every interleaving of pass steps and other writes: after a pass without failures each listed row that still exists, and each live row from before, carries the target, for secrets neither deleted nor restored over |
| Sweep.PendingAfterPassIff | crates/hyperion-vault-api/src/rewrap.rs:36-115 | The live rows below the target after such a pass are exactly those committed after their secret was listed with a generation below it |
| Missed.RotationMissedByPass | crates/hyperion-vault-api/src/service.rs:755-771 | The run pass, mark, commit of a rotation begun before: the watermark is the target, the current row is below it, and no later tick sweeps for it |
| Missed.OperatorMovesMarkBack | crates/hyperion-vault-api/src/rewrap.rs:117-122 | The run of an operator's pass to an older rotation: the watermark moves back |

## Left out

- openraft (elections, quorums, replication): assumed to deliver one common committed log and to keep its order of append, truncate, purge and apply; `LogSafety.Allowed` and `Cluster.Allowed` write that order down.
- The network layer, request routing, authorization checks, allow lists, configuration and the Postgres connection: the external system is a cell that an apply may or may not update.
- Real cryptography, randomness and the AWS key service: free datatypes stand for them, so nothing is said about their strength.
- JSON encoding and rows that do not decode: records are typed, and an opaque value that happens to read as a username and password pair is not modelled.
- Storage-engine failures and the text of conflict messages: an outcome carries a reason instead.
- `reset_raft_state`, votes and snapshot ids: the first is followed by an install in practice and breaks the replay property until then; the others add easy members only.
- Follower read lag, pacing sleeps, async scheduling and logging: reads see the tables of one moment.
- Length and content checks of values and of rotation targets in create and update: only name, interval, grace, format and kind are modelled.
- Role matching of tokens to secret paths (rbac) and IP rules: small predicates.
- Verify.AnswerIsNewestMatch: needs every stored row of the secret to open; `Verify.OldValueAnswered` proves that over runs of sealed versions.
- Worker.RotationWorker.Tick: of a secret whose record others write to during the tick only the row invariant is promised; such races are the subject of `Rotation` and `SingleWinner`.
- RewrapPass.Rewrapper.RunPass: other writers may issue any command of service shape; nothing is promised for a secret they delete or restore over during the pass.
- Lockout.SlidingBound: times do not decrease, no sum leaves the 64-bit range and no window counts 2^32 failures; the step itself wraps as the source does.
