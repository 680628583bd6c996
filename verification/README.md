# Agent protocols, modelled and proved

This project models the stateful core of the backup Agent - the code that must stay right when a command fails
halfway, a process dies, or callers race - and two pieces of the platform around it.

* **Server change** (`Transaction.dfy`, `Configure.dfy`, `EnvPatch.dfy`, `ComposeLines.dfy`, `ComposePatch.dfy`,
  `ServerPatch.dfy`).
  `configure` snapshots the managed files, writes a recovery record, stops components, writes files, restarts,
  verifies, and commits by deleting the record; its deferred rollback and two kinds of recovery can fail or die as
  well. The class `Node` takes these steps one by one; each answers "ok", "error" or "crash", with or without its
  effect. `Transaction` says which steps are legal and proves what every legal run keeps.
* **Managed workspace lifecycle** (`WorkspaceProtocol.dfy`, `Workspace.dfy`). Prepare and two-phase cleanup over
  tombstone, identity, workspace and trash, with the bulk deletion outside the lock, for any number of callers.
* **Two registries** (`PathLock.dfy`, `ClientCleanup.dfy`): the per-path backup lock with its token channel, and the
  reference-counted local state of temporary repository clients with its background cleanup.
* **Workspace reconciliation** (`ReconcileSpec.dfy`, `Reconcile.dfy`): recursive removal of what a snapshot does not
  hold.
* **Restore selection, download names, browsing, repository preparation** (`RestoreSelection.dfy`,
  `DownloadNames.dfy`, `Paging.dfy`, `RepositoryPrepare.dfy`).
* **Backup boundary and policy lists** (`BackupPolicy.dfy`), **permission closure** (`Permissions.dfy`) and the
  **environment literal** with its reader (`EnvLiteral.dfy`).

Code that changes state is a class or a method with loops, proved against a specification; the lemmas are about the
specification. Where several callers act, the class methods are proved to take only steps of a state machine, and the
lemmas quantify over all of its runs. In `Calm` conditions nothing fails and nobody else acts; clauses about them carry
the liveness half: what an undisturbed command is bound to achieve. A node's `Unlucky` conditions are a script of faults,
for runs that show what can go wrong.

`dafny verify dfyconfig.toml` checks everything.

## What turned out not to hold

Each of these is stated exactly, by a condition that decides it and an input or a run for which it fails.

* A recovery can be stranded. A failed rollback keeps the state file and then removes the lock directory; dying inside
  that removal leaves a directory whose owner cannot be read, and every later recovery refuses it
  (`Configure.Node.StrandRecovery`, a run of the command itself; `Configure.Node.RecoverConnection` says that, nothing
  else failing, this is the only case).
* Originals can be lost. After a failed rollback the state file stays, the lock is released, and only then does the
  process exit. A command that starts in between finds a live owner and no lock, and writes its own record, made from
  the half-changed files, over the one with the originals. `Configure.Node.Configure` shows that this is the only case,
  by a condition on the state file, the owner and the lock before the command; `Configure.Node.LoseOriginals` is a run.
* A command does run before the ownership of a bucket is checked: `cache set`, exactly when the config file is there and
  its cache policy differs from the requested one, if that could be parsed (`RepositoryPrepare.Preparation.Prepare`,
  `RepositoryPrepare.CacheSetComesFirst`). No create, connect or status does.
* A workspace can get stuck. The identity file is created and then written; dying in between leaves a file that every
  prepare and every cleanup refuses (`WorkspaceProtocol.DeathLeavesCorrupt`, `WorkspaceProtocol.CorruptIsStuck`). From
  every other reachable state an undisturbed cleanup by the owner succeeds (`Workspace.Host.RunCleanup`).
* Patching a Compose file is not always idempotent. When the mapping has to be inserted as a block and what follows is
  indented six spaces or more, the block runs into it and the second patch is refused (`ComposePatch.IdempotentIff`,
  `ComposePatch.SecondPatchCanBeRefused`).
* The pattern that protects the Agent root is trimmed and has its backslashes replaced, so it is not literally the path
  of every root (`BackupPolicy.RootIsNamedIff`, `BackupPolicy.RootCanBeUnnamed`). Only literal naming is meant: a root
  such as `[agent]` or `!agent` is named literally, but as an ignore rule its pattern would not match it.
* A value with a line break does not survive the environment file (`EnvLiteral.RoundTrip`), and a dependency on an
  unknown key that is also a legacy key makes normalizing permissions not idempotent (`Permissions.IdempotentIff`,
  `Permissions.SecondTimeCanGrow`). That is about catalogues in general: in the one that ships every dependency is on a
  known action, so it meets `Permissions.StaysKnown` and normalizing is idempotent.

## Model

| member | source | states |
|---|---|---|
| `Transaction.CrashAtomicity` | src/agent/internal/connection/configure.go:354-790 | After any number of moves of any legal run - that is, wherever it is cut short - either there is no state file and the managed files are exactly the last version, or the state file decodes, holds the original of every managed file of that version, and, while it says "prepared", no content or mode has changed; a version is what was committed, or what was found when a record was overwritten |
| `Transaction.RunKeepsInv` | src/agent/internal/connection/configure.go:354-790 | Every legal run keeps the invariant, and the configuration a recovery would leave is always the last version |
| `Transaction.StepKeepsInv` | src/agent/internal/connection/configure.go:200-212 | Only a commit, or a record written over one that is still there, changes the configuration a recovery would leave, and it changes it to the files as they then are |
| `Transaction.ComponentDiscipline` | src/agent/internal/connection/configure.go:652-755 | At every point of a stretch of a run without a daemon's own recovery: a move that changes one of the four configuration files finds every component recorded as running stopped, and no move of the program starts a component that the last record calls stopped |
| `Configure.Node.StrandRecovery` | src/agent/internal/connection/configure.go:523-694 | From every settled, complete installation with a running Agent and a change of agent.env: a scripted run of the command - the new connection is not verified, the Agent cannot be stopped again, and the process dies while it removes its lock - leaves a state file beside a lock directory that cannot be read, and no number of later commands, recoveries and daemon starts, under any conditions, gets rid of either |
| `Configure.Node.SaveState` | src/agent/internal/connection/configure.go:200-212 | On success the state file holds the record; otherwise it holds what it held before or the record; a fresh record written over another gives up what that one would have brought back |
| `Configure.Node.Restore` | src/agent/internal/connection/configure.go:231-251 | Success only when every managed file is the last committed one; every file is tried; whatever fails, the run goes on legally |
| `Configure.Node.RestoreFile` | src/agent/internal/connection/configure.go:233-249 | No other file changes, and success means this one is the saved one, present or absent |
| `Configure.Node.PrepareWhenIdle` | src/agent/internal/connection/configure.go:254-283 | Success means the record is on disk; a failure leaves what was there, no record, or exactly this one, never a changed file |
| `Configure.Node.StopAgent` | src/agent/internal/connection/runtime.go:243-267 | Success means the Agent was seen stopped; stopping never starts it |
| `Configure.Node.StopAIEngine` | src/agent/internal/connection/runtime.go:243-274 | Success means the engine was seen stopped; stopping never starts it |
| `Configure.Node.ApplyLens` | src/agent/internal/connection/runtime.go:222-232 | Success means the engine runs exactly as requested, and it may only be started on request |
| `Configure.Node.ResumeOriginal` | src/agent/internal/connection/runtime.go:278-300 | Never starts what the record calls stopped; success means exactly the recorded components run |
| `Configure.Node.RecoverConnection` | src/agent/internal/connection/configure.go:354-403 | Commits nothing; success, with the owner gone, means no state file, the original files, the engine as recorded if the change had begun, and the dead owner's lock - only that one - removed; with no state file or a live owner nothing is touched, so a second recovery does nothing; a state file beside an unreadable lock stays, and in calm conditions that is the only way to fail |
| `Configure.Node.FinishRecovery` | src/agent/internal/connection/configure.go:384-402 | The state file is removed only after the dead owner's lock is gone; another owner's lock stays, and an unreadable one is an error |
| `Configure.Node.RecoverForCommand` | src/agent/internal/connection/configure.go:413-455 | As above, with the recorded components stopped before files of a begun change are restored and a recorded Agent running again afterwards; components are never started beyond the record |
| `Configure.Node.RecoverAbandoned` | src/agent/internal/connection/configure.go:428-454 | The part of that after the record was found to be abandoned |
| `Configure.Node.StopForChange` | src/agent/internal/connection/configure.go:695-718 | Success means the record says "applying" and every recorded component is stopped; no failure loses the record |
| `Configure.Node.WriteUpdates` | src/agent/internal/connection/configure.go:719-731 | Success leaves every updated path with its new content, its old mode and its old owner, and every other path alone |
| `Configure.Node.Activate` | src/agent/internal/connection/configure.go:732-778 | Success means exactly the recorded components run, and of the files only a gateway's fingerprint was rewritten |
| `Configure.Node.Transact` | src/agent/internal/connection/configure.go:695-781 | Success commits exactly the target files with exactly the recorded components running; a failure commits nothing and keeps the record; before the files-changed flag is raised no file has changed |
| `Configure.Node.Rollback` | src/agent/internal/connection/configure.go:652-694 | Commits nothing, and success means the original files, exactly the recorded components, and no state file |
| `Configure.Node.ChangePrepared` | src/agent/internal/connection/configure.go:640-790 | The change with its deferred rollback: at most one commit, and a reported restoration is complete |
| `Configure.Node.ConfigureLocked` | src/agent/internal/connection/configure.go:524-790 | The command under its lock, up to the release: the outcome is settled, and in calm conditions it succeeds exactly when the installation is complete |
| `Configure.Node.Configure` | src/agent/internal/connection/configure.go:489-790 | From every start. The originals of a record are given up only when its owner is alive, has not rolled back and has already released its lock, and in calm conditions then exactly when there is something to change; otherwise: success means no state file, and the files are the target, newly committed, exactly when they were not current before; failure, nothing committed, and a reported restoration left the original files and components; death, at most the one commit, with everything in place. A live owner's record that is not given up is left alone. In calm conditions success is decided by the lock, the owner and the completeness of the installation |
| `Configure.Node.ConfigureRecovered` | src/agent/internal/connection/configure.go:497-790 | The part of that after the recovery step |
| `Configure.Node.ChangeIfNeeded` | src/agent/internal/connection/configure.go:629-790 | A current configuration changes nothing; any other is changed as settled |
| `Configure.Node.LoseOriginals` | src/agent/internal/connection/configure.go:425-427 | From every settled, complete installation with a running Agent: a scripted first command fails with its rollback and releases its lock, and a second one, started before the first has exited and with nothing failing, commits on top of the half-made change, which it kept as its original |
| `Configure.TargetIsCurrent` | src/agent/internal/connection/configure.go:629-639 | If patching the contents at hand twice is patching them once, the target is current |
| `Configure.Node.ConfigureAgain` | src/agent/internal/connection/configure.go:629-639 | The same configuration requested twice, when patching the contents at hand twice is patching them once: if both commands succeed, the second changed nothing |
| `ServerPatch.AddressSettles` | src/agent/internal/connection/configure.go:581-619 | The contents the command really computes are such, given that config.json's are and, on a gateway, the Compose file has room for the mapping |
| `ServerPatch.SameServerTwice` | src/agent/internal/connection/configure.go:629-639 | So the same server requested twice changes nothing the second time |
| `Configure.Node.Lifetime` | src/agent/internal/connection/configure.go:330-334 | Any number of commands, recoveries and daemon starts, each failing or dying anywhere, among others that move components and take the lock, but with no command from an exposed start: one legal run, atomic after every move, in which each new version is, file by file, the target of the one before for one of the requests |
| `EnvPatch.PatchEnv` | src/agent/internal/connection/configure.go:150-167 | The in-place loop computes the text specified by `Patched` |
| `EnvPatch.PatchAchieves` | src/agent/internal/connection/configure.go:150-167 | Afterwards every changed key that may be added is assigned, every assignment of a changed key carries the new value, and all other lines are there in order but for empty ones at the end |
| `EnvPatch.Idempotent` | src/agent/internal/connection/configure.go:150-167 | Patching a patched file changes nothing, for every text and all changes |
| `WorkspaceProtocol.StepKeepsInv` | src/agent/internal/engine/lens_prepare.go:356-591 | Every step of any caller, completed or cut short, keeps the invariant - workspace and trash never both exist, either implies an identity, retired implies that all three are gone - and the tombstone only goes from absent to retiring to retired, never changing its owner or creation time |
| `WorkspaceProtocol.LifecycleInvariant` | src/agent/internal/engine/lens_prepare.go:356-591 | The same over every interleaving of prepares, cleanups, failures and deaths |
| `WorkspaceProtocol.NoResurrection` | src/agent/internal/engine/lens_prepare.go:375-384 | Once there is a tombstone, in no continuation does another prepare succeed or the workspace come back, not even while trash is deleted outside the lock |
| `WorkspaceProtocol.CorruptIsStuck` | src/agent/internal/engine/lens_prepare.go:242-259 | A half-written identity nobody is still writing is stuck: from there no prepare or cleanup ever succeeds and the disk never changes |
| `WorkspaceProtocol.DeathLeavesCorrupt` | src/agent/internal/engine/lens_prepare.go:261-288 | That state is reachable from an empty disk |
| `WorkspaceProtocol.NextSpares` | src/agent/internal/engine/lens_workspace_lock.go:5-22 | A caller's step leaves what any other caller relies on, unless both were inside the lock |
| `Workspace.Host.RunPrepare` | src/agent/internal/engine/lens_prepare.go:356-434 | Every prepare is a run of the protocol; success means the caller finished as prepared; undisturbed, it succeeds exactly when there is no tombstone and no other or half-written identity, and leaves the identity and the workspace |
| `Workspace.Host.RunCleanup` | src/agent/internal/engine/lens_prepare.go:436-591 | Every cleanup is a run of the protocol; success means retired with nothing else left; undisturbed, from every reachable state it succeeds exactly when the identity is not half-written and identity and tombstone, if any, are the caller's, and keeps an existing creation time |
| `Workspace.Host.Act` | src/agent/internal/engine/lens_prepare.go:356-591 | A caller's next step among any steps of others, completed or not, brings it closer to its end |
| `PathLock.RunKeepsInv` | src/agent/internal/engine/managed_backup_path_lock.go:37-76 | In every interleaving `refs` counts the callers that reference an entry, holders and tokens of an entry are one together, and an entry is in the map exactly while it is referenced |
| `PathLock.StepKeepsInv` | src/agent/internal/engine/managed_backup_path_lock.go:37-76 | The same for one step |
| `PathLock.AtMostOneHolder` | src/agent/internal/engine/managed_backup_path_lock.go:37-67 | Two callers holding the same key at the same time are one, across all entries ever made for the key |
| `PathLock.ReleaseNeverBlocks` | src/agent/internal/engine/managed_backup_path_lock.go:61-66 | While a caller holds an entry its channel is empty, so the send of its release can go ahead |
| `PathLock.WaiterCanProceed` | src/agent/internal/engine/managed_backup_path_lock.go:53-58 | A waiting caller can take the token unless another caller holds it |
| `PathLock.EmptyWhenUnreferenced` | src/agent/internal/engine/managed_backup_path_lock.go:69-76 | The map is empty exactly when no caller references anything |
| `PathLock.Registry.Acquire` | src/agent/internal/engine/managed_backup_path_lock.go:37-67 | Among any other callers: success holds the requested key, a cancelled call references nothing |
| `PathLock.Registry.Register` | src/agent/internal/engine/managed_backup_path_lock.go:43-51 | The mutex section is one step of the protocol |
| `PathLock.Registry.Drop` | src/agent/internal/engine/managed_backup_path_lock.go:69-76 | So is dropping a reference |
| `PathLock.Registry.Release` | src/agent/internal/engine/managed_backup_path_lock.go:60-66 | The first call gives the lock up; every further call changes nothing |
| `ClientCleanup.RunKeepsInv` | src/agent/internal/engine/kopia_server_client_cleanup.go:37-109 | In every interleaving `users` counts the holders, a client has users exactly while it has no cleaning channel, has a cleaner exactly while that channel is open, and is registered until it is closed |
| `ClientCleanup.StepKeepsInv` | src/agent/internal/engine/kopia_server_client_cleanup.go:37-109 | The same for one step |
| `ClientCleanup.NeverDeletedWhileHeld` | src/agent/internal/engine/kopia_server_client_cleanup.go:76-109 | No cleanup of a config file runs while a caller holds a client of that file |
| `ClientCleanup.OneCleanupPerFile` | src/agent/internal/engine/kopia_server_client_cleanup.go:89-107 | Two cleanups of one config file at the same time are one |
| `ClientCleanup.ChannelClosedOnce` | src/agent/internal/engine/kopia_server_client_cleanup.go:94-105 | In every run a cleaning channel is closed exactly once if it ends up closed and never otherwise |
| `ClientCleanup.ChannelGoesForward` | src/agent/internal/engine/kopia_server_client_cleanup.go:94-105 | Each step leaves a cleaning channel alone or moves it from none to open to closed, and the closing step finds it open |
| `ClientCleanup.WaiterIsWoken` | src/agent/internal/engine/kopia_server_client_cleanup.go:66-72 | A waiting caller's channel is closed or has a cleaner that will close it |
| `ClientCleanup.EmptyWhenIdle` | src/agent/internal/engine/kopia_server_client_cleanup.go:97-106 | The map is empty exactly when there is no holder and no cleanup |
| `ClientCleanup.Registry.Acquire` | src/agent/internal/engine/kopia_server_client_cleanup.go:52-73 | Among any other calls and cleanups: success holds a client of the requested file that nobody is cleaning, a cancelled call holds nothing |
| `ClientCleanup.Registry.TryAcquire` | src/agent/internal/engine/kopia_server_client_cleanup.go:53-67 | The locked part of the retry loop is one step of the protocol |
| `ClientCleanup.Registry.Release` | src/agent/internal/engine/kopia_server_client_cleanup.go:80-107 | The first call of a release is one step of the protocol and every other call changes nothing |
| `ClientCleanup.Registry.Clean` | src/agent/internal/engine/kopia_server_client_cleanup.go:97-106 | The background goroutine ends with its channel closed |
| `ReconcileSpec.RetainedIsProtected` | src/agent/internal/engine/lens_workspace_reconcile.go:134-171 | Everything of the reconciled tree is protected, whatever the tree |
| `ReconcileSpec.RetainedAtLevel` | src/agent/internal/engine/lens_workspace_reconcile.go:141-187 | What remains at each level is a listed name, a sidecar of one, or at the root the permitted marker |
| `ReconcileSpec.DescentIsSafe` | src/agent/internal/engine/lens_workspace_reconcile.go:172-185 | A directory whose listed directories were each left safe is safe |
| `ReconcileSpec.DescentIsExact` | src/agent/internal/engine/lens_workspace_reconcile.go:172-185 | A directory with only kept names whose listed directories are each reconciled is reconciled |
| `ReconcileSpec.SafeThroughout` | src/agent/internal/engine/lens_workspace_reconcile.go:141-187 | Safety of the removal loop and of the recursion make safety of the directory |
| `ReconcileSpec.ExactThroughout` | src/agent/internal/engine/lens_workspace_reconcile.go:141-187 | So do exactness of both |
| `Reconcile.ManagedTree.RemoveEntry` | src/agent/internal/engine/lens_workspace_reconcile_linux.go:32-75 | Recursive deletion, children first: nothing outside the entry is ever gone; success means nothing of it is left; every unlink is counted |
| `Reconcile.ManagedTree.CheckListing` | src/agent/internal/engine/lens_workspace_reconcile.go:81-100 | Accepts exactly the listings that are short enough with safe and pairwise different names |
| `Reconcile.ManagedTree.CheckEntries` | src/agent/internal/engine/lens_workspace_reconcile.go:134-140 | Accepts exactly when every listed name is there with its type |
| `Reconcile.ManagedTree.RemoveUnlisted` | src/agent/internal/engine/lens_workspace_reconcile.go:141-171 | However the loop ends only removable paths are gone; when it succeeds only kept names are left |
| `Reconcile.ManagedTree.ReconcileDirectory` | src/agent/internal/engine/lens_workspace_reconcile.go:71-187 | However it ends nothing outside the directory and nothing protected in it is gone; success means it is exactly reconciled; the recursion ends on every finite snapshot |
| `Reconcile.ManagedTree.Descend` | src/agent/internal/engine/lens_workspace_reconcile.go:172-186 | The same for the recursion over the listed directories |
| `Reconcile.ManagedTree.ReconcileWorkspace` | src/agent/internal/engine/lens_workspace_reconcile.go:39-69 | No run, failed or cancelled, removes anything protected; a successful one leaves every entry of the snapshot with its type at every level and of the rest exactly what may stay; over a reconciled tree nothing is removed; progress counts the entries unlinked |
| `RestoreSelection.RestoreSelectedPaths` | src/agent/internal/engine/managed_backup.go:4188-4225 | The loop, compacting its slice in place, returns exactly the minimal cleaned paths, each once, in order of first appearance, or the root alone when nothing is selected or something selected is the root |
| `RestoreSelection.Compact` | src/agent/internal/engine/managed_backup.go:4213-4219 | The in-place filter keeps exactly, and in order, what the new path does not cover |
| `RestoreSelection.CoversIsAnOrder` | src/agent/internal/engine/managed_backup.go:4227-4229 | Covering is a partial order |
| `RestoreSelection.SelectionIsLeastCover` | src/agent/internal/engine/managed_backup.go:4188-4225 | The selection consists of inputs, is an antichain, and covers every input |
| `RestoreSelection.LeastCoverIsUnique` | src/agent/internal/engine/managed_backup.go:4188-4225 | No other set does |
| `RestoreSelection.OrderDoesNotMatter` | src/agent/internal/engine/managed_backup.go:4188-4225 | Inputs with the same elements give selections with the same elements |
| `RestoreSelection.OneMoreInput` | src/agent/internal/engine/managed_backup.go:4203-4219 | Skipping a covered path, or dropping what a new one covers and appending it, keeps the selection minimal |
| `DownloadNames.SourceDirectoryNames` | src/agent/internal/engine/managed_backup.go:2888-2919 | One name per group, pairwise different without case, each the first free candidate of its group, and at most 180 bytes for fewer than 10^168 groups |
| `DownloadNames.PickName` | src/agent/internal/engine/managed_backup.go:2903-2915 | The collision loop ends within two more tries than names are used, with the first candidate that is free |
| `DownloadNames.TriesAreBounded` | src/agent/internal/engine/managed_backup.go:2903-2915 | If all candidates so far are taken, at least nearly as many names are used |
| `DownloadNames.CandidatesDiffer` | src/agent/internal/engine/managed_backup.go:2909-2914 | Different collision indexes give names that differ even without case |
| `DownloadNames.CandidateFits` | src/agent/internal/engine/managed_backup.go:2899-2914 | Every candidate with an index of at most 168 digits has at most 180 bytes |
| `DownloadNames.TruncatedFits` | src/agent/internal/engine/managed_backup.go:2876-2886 | A truncated name has at most 180 bytes when its suffix is shorter than that |
| `DownloadNames.FittingIsLongest` | src/agent/internal/engine/managed_backup.go:2881-2884 | The cut keeps whole runes and cannot keep one more |
| `DownloadNames.CountBases` | src/agent/internal/engine/managed_backup.go:2889-2894 | The counts are those of the base names without case |
| `Decimal.ParseNumeral` | src/agent/internal/engine/managed_backup.go:2114-2119 | A cursor reads back as the number it was written for |
| `Paging.FollowCursors` | src/agent/internal/engine/managed_backup.go:2011-2119 | Following cursors from the start gives every usable line exactly once and in order, no empty page after the first, full pages but for the last, and max(1, ceil(n/limit)) pages |
| `Paging.FetchPage` | src/agent/internal/engine/managed_backup.go:2294-2350 | A page is exactly the usable lines from its offset on, at most the limit, and the next cursor is there exactly when there are more, however late the listing is stopped; only a malformed cursor is refused |
| `Paging.Collector.Consume` | src/agent/internal/engine/managed_backup.go:2035-2073 | After any lines the collector holds the page of the usable ones, and asks to stop only when there are more |
| `Paging.RestIsIrrelevant` | src/agent/internal/engine/managed_backup.go:2306-2316 | Lines after a full page and one more item do not change the page |
| `RepositoryPrepare.Preparation.Prepare` | src/agent/internal/engine/managed_backup.go:523-866 | Whatever each command and check answers: ready means the last command is a successful status, and for a bound repository the ownership check passed after it; an initialization connects only to a repository whose marker matched before creation was tried; a connection never creates a repository or claims one, and writes a marker only by an allowed adoption, directly after a successful status; without adoption a bound repository is verified before its mount is written to; a bucket's ownership is confirmed before the first create, connect or status, and when the answer is ready some command ran before that exactly when the config file is there with a cache policy that differs from the requested one, and that one could be parsed; when nothing fails, ready is decided by the request and the config file |
| `RepositoryPrepare.CommandBeforeBucketIff` | src/agent/internal/engine/managed_backup.go:697 | In an orderly log a command precedes the bucket's check exactly when the cache was set |
| `RepositoryPrepare.CacheSetComesFirst` | src/agent/internal/engine/managed_backup.go:697-714 | A run of the preparation in which one does |
| `RepositoryPrepare.Preparation.VerifyOwnership` | src/agent/internal/engine/repository_ownership.go:176-225 | Only an adoption may write the missing marker, and it is only tried where the log allows it |
| `RepositoryPrepare.Preparation.ApplyCachePolicy` | src/agent/internal/engine/kopia_cache_policy.go:128-157 | The cache is set exactly when the policy is valid and the config file's differs, before any repository command |
| `RepositoryPrepare.Preparation.RunInitialize` | src/agent/internal/engine/managed_backup.go:767-793 | Connects only after creation found a repository and the marker had matched |
| `RepositoryPrepare.Preparation.RunConnection` | src/agent/internal/engine/managed_backup.go:794-825 | Counts as verified only after a successful status |
| `RepositoryPrepare.Preparation.CloseWithStatus` | src/agent/internal/engine/managed_backup.go:826-847 | Success means a successful status is the last command, with at most one reconnection |
| `RepositoryPrepare.Preparation.PrepareMount` | src/agent/internal/engine/managed_backup.go:598-649 | Mounts and writes without any command; without adoption a bound repository is written to only after it was verified |
| `RepositoryPrepare.ReadyByPosition` | src/agent/internal/engine/managed_backup.go:826-847 | Read by position: the log has a successful status with no command after it |
| `RepositoryPrepare.ConfirmedByPosition` | src/agent/internal/engine/managed_backup.go:849-854 | ... and a passed ownership check after that |
| `RepositoryPrepare.OwnByPosition` | src/agent/internal/engine/managed_backup.go:773-783 | ... and before any connect of an initialization a creation that found a repository, and before that a matching marker |
| `ComposePatch.PatchLensCompose` | src/agent/internal/connection/compose.go:27-96 | The scan answers exactly what the unique service block, address line and hosts block demand, and refuses every other text |
| `ComposePatch.OtherLinesKept` | src/agent/internal/connection/compose.go:62-95 | On success every line but the address line is kept in order and at most the host mapping is inserted, for the Docker host only |
| `ComposePatch.PatchAchieves` | src/agent/internal/connection/compose.go:62-95 | Afterwards the service has exactly one address line, the new one, and for the Docker host - room permitting - a hosts block that maps it |
| `ComposePatch.IdempotentIff` | src/agent/internal/connection/compose.go:14-97 | A second patch changes nothing when no block had to be inserted or there was room for it, and is refused otherwise |
| `ComposePatch.TextIdempotentIff` | src/agent/internal/connection/compose.go:27-96 | The same for the whole text |
| `ComposePatch.FourSpaceKeysAreEnough` | src/agent/internal/connection/compose.go:71-73 | There is room whenever the service's keys are indented four spaces, so the patch is then idempotent |
| `ComposePatch.SecondPatchCanBeRefused` | src/agent/internal/connection/compose.go:71-76 | A file that is patched once and then refused |
| `ComposePatch.FindMapping` | src/agent/internal/connection/compose.go:64-85 | The loop over the hosts block answers what scanning the block means |
| `BackupPolicy.ProtectedPatternValues` | src/agent/internal/engine/managed_backup_policy.go:355-375 | The trimmed nonempty values, each once, in order of first appearance |
| `BackupPolicy.ManagedIgnorePatterns` | src/agent/internal/engine/managed_backup_policy.go:377-400 | Duplicate-free; the user's own patterns in their order, then every protected one |
| `BackupPolicy.VerifyProtection` | src/agent/internal/engine/managed_backup_policy.go:402-465 | Accepts exactly when every protected pattern is stored and, if there is one, dot-ignore files are off |
| `BackupPolicy.StoredOrderDoesNotMatter` | src/agent/internal/engine/managed_backup_policy.go:447-458 | A stored list with the elements of the applied one, in any order, holds every protected pattern |
| `BackupPolicy.NewBackupPathBoundary` | src/agent/internal/engine/agent_path_boundary.go:33-113 | Accepts exactly a source below a managed source mount, or one outside the Agent root that the system rules allow; in the second case it is disjoint from the Agent root or has the root among its patterns and exclusions |
| `BackupPolicy.RootIsNamedIff` | src/agent/internal/engine/agent_path_boundary.go:157-159 | Whatever the system's own patterns are, the root's path is literally among the protected ones exactly when it has no backslash and no space at either end, or is itself one of those patterns |
| `BackupPolicy.ProtectSource` | src/agent/internal/engine/managed_backup_policy.go:308-465 | From boundary to verification: what is stored is, in any order, exactly the nonempty trimmed patterns of user and boundary; an accepted source passes exactly when dot-ignore files are off or nothing is protected; and the root inside an accepted source is stored by its own path if that can be written as a pattern |
| `BackupPolicy.RootCanBeUnnamed` | src/agent/internal/engine/agent_path_boundary.go:157-159 | A root for which it does not |
| `Permissions.Normalize` | src/backend/common/platform_authz.py:370-379 | For every input and dependency map, cyclic or not, the worklist ends with the least dependency-closed superset of the known expanded actions |
| `Permissions.ExpandRaw` | src/backend/common/platform_authz.py:356-367 | Known actions, legacy keys expanded, everything else dropped |
| `Permissions.Unique` | src/backend/common/platform_authz.py:370-379 | There is only one such set |
| `Permissions.Monotone` | src/backend/common/platform_authz.py:370-379 | More actions give no fewer permissions |
| `Permissions.DistributesOverUnion` | src/backend/common/platform_authz.py:370-379 | Two lists together give what they give apart |
| `Permissions.IdempotentIff` | src/backend/common/platform_authz.py:370-379 | Normalizing a result again changes nothing exactly when it already has every known action its unknown members expand to |
| `Permissions.StaysKnown` | src/backend/common/platform_authz.py:370-379 | With known dependency targets only known actions are granted, and normalizing is idempotent |
| `Permissions.SecondTimeCanGrow` | src/backend/common/platform_authz.py:363-379 | A catalogue with which normalizing twice grants more |
| `EnvLiteral.RoundTrip` | deploy/installer/apply-runtime-config.py:341-348 | Whatever precedes the assignment in the file, reading it back gives the original value exactly when that has no line break |
| `EnvLiteral.DecodedLiteral` | deploy/installer/apply-runtime-config.py:341-348 | Decoding the printed literal gives the value, for every value |
| `EnvLiteral.LexBody` | deploy/installer/sourcelens/sync-sentry-runtime.py:27-32 | The lexer undoes backslash and quote escapes and keeps the doubled dollars |
| `EnvLiteral.CollapseDoubled` | deploy/installer/sourcelens/sync-sentry-runtime.py:33 | Collapsing leftmost pairs undoes doubling |
| `EnvLiteral.ReadEnv` | deploy/installer/sourcelens/sync-sentry-runtime.py:19-34 | The loop computes the map specified line by line, later assignments winning |
| `EnvLiteral.ReadKeepsLine` | deploy/installer/sourcelens/sync-sentry-runtime.py:19-34 | No value that is read ever has a line break |

## Left out

Server change:

- One command or recovery at a time - a command may start before the one before it has exited, but not before it is
  done - an exact test of whether the owner of a record is alive, and no other writer of the managed files are assumed.
  A single-file write is atomic; a failed unlink leaves the file; any other failed operation may or may not have had its
  effect.
- HTTP, SQLite, TLS, processes, Docker and the checks made through them are arbitrary answers. New file contents come
  from a parameter that maps a path and its old content to the new one; `ServerPatch` says what it is for the
  environment files and the Compose file; config.json and the fingerprint are not modelled further.
- Configure.Node.Restore: owner and group are one number, and the directory that receives the file is always there.
- Configure.Node.RecoverConnection: the record on disk is one this program wrote; `decodeRecovery` refusing foreign or
  damaged records, and a state file that cannot be read, are not modelled beyond an arbitrary failure.
- Transaction.ComponentDiscipline: a daemon's own recovery restores files without stopping components; such changes
  carry a mark and the statement covers stretches of runs without them. Between commands others may start and stop
  components; within a command nobody else does.
- The pid and operation files of the lock directory are one value, and a lock with either of them missing is
  unreadable. The user installation's separate lock name, the backup copy, and the messages printed are left out.
- EnvPatch.Idempotent: quoting is a parameter that yields no line feed, as `strconv.Quote` does.

Managed workspace:

- One UID with its one path: the identity record does not hold the path. Contents of workspace and trash, directory
  layout, update times and result fields are not modelled; nor is the branch that reads an identity file found to exist
  at creation, which the lock makes unreachable.
- Workspace.Host.RunPrepare: liveness is for an undisturbed caller; fairness among callers of the file lock is not
  modelled.

Registries:

- Pointers are numbered by allocation; a context ends at any look of the waiting caller. How keys are computed from
  paths, and requests for clients that are not temporary or not managed, are left out.
- ClientCleanup.Registry.Clean: deleting the files may fail without effect on the protocol, as in the source, which only
  logs it.

Reconciliation:

- Reconcile.ManagedTree.ReconcileWorkspace: paths are component sequences in one tree that nobody else changes; file
  descriptors, symlink replacement during the walk, batch sizes and the every-thousand rhythm of progress are left out.
  The marker is permitted at the root only, as in the source.

Algorithms:

- RestoreSelection.RestoreSelectedPaths: trimming and lexical cleaning are parameters.
- DownloadNames.SourceDirectoryNames: sanitizing, the hash and lower-casing are parameters, of which only this is
  assumed: eight hexadecimal digits, and digits, a to f and hyphens are their own lower case. Strings are sequences of
  valid runes, so lower-casing is rune by rune.
- Paging.FetchPage: a cursor is empty or a string of digits; surrounding space, a plus sign and integer overflow are left
  out, as are the fields of an entry other than its name and whether it was verified, and a listing that itself fails.
- RepositoryPrepare.Preparation.Prepare: contents of commands, progress and messages are left out, and so is the S3
  connection fingerprint. Of the config file only what its first look shows is modelled, and `wrote` in the log says that
  adoption wrote a marker, not what it holds.
- ComposePatch.PatchLensCompose: parsing the URL, detecting a loopback host and quoting happen before; `docker` and
  `quoted` are their results.
- BackupPolicy.NewBackupPathBoundary: paths are already canonical; symlink resolution, case folding on Windows and the
  system's own rules are left out, and what a glob pattern matches is not modelled.
- EnvLiteral.ReadEnv: `shlex` is modelled in its POSIX mode without comments; decoding of the file's bytes is left out.
- EnvLiteral.RoundTrip: the line rewriting of `apply_configuration` around the literal is left out.
- Permissions.Normalize: the role tables and authorization checks around it are left out.

Not modelled: the frontend, the website, the other installers and release tooling, the scheduler, cache sizing, HMAC
identities, and the remaining plumbing, which would add only single-function facts.
