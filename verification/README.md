# Verified model of the private cloud's sync, storage and streaming core

A Dafny model of the parts of the system whose correctness rests on reasoning about whole runs:
the two-way sync engine of the client, the two-tier blob store, the seekable object reader and the
staging of resumable uploads, the strings a signed request is computed over, the delta transfer,
the garbage collector of the content-addressed store, and the parser of streamed answers.
`dafny verify dfyconfig.toml` checks all of it.

## How it is organised

- **Sync engine.** `Base`, `Paths`, `LocalDisk` and `ConflictNames` are the vocabulary: server paths
  as segment sequences (and the proof that the program's string tests mean the same), a disk as a map
  with the few system calls the engine makes, and the naming of conflict copies. `Pull`, `Reconcile`,
  `Server`, `Push`, `Selective` and `Sync` say what each step does as functions on the client's state;
  `TreeWalk` is the queue discipline of the full walk. `Engine` is the engine itself, a class whose
  methods change disk, database and server in place in the steps and loops of the program; each is
  proved to do exactly what those functions say. `Journal`, `Shadow`, `Resume`, `Rerun`, `Refusals`,
  `StuckRerun`, `EditSurvival`, `Leftovers`, `Contents` and `Usurped` hold the theorems about replaying the
  change journal: what a replay leaves in the database and on disk, when replaying again is harmless, when
  an entry is refused, and what becomes of local edits and of the files of trashed nodes. `Vanished` says
  what a full walk does to the disk, `Exclusion` and `ExclusionLimits` what a pass does at the excluded
  paths, and `Visible` that on all others it does what a pass without excludes does.
  `Devices` holds those about several devices on one account and about pass after pass.
- **Blob store.** `Tiered` is the two-tier store as a state machine: every store access, every step
  under the mutex, every failure and a crash are atomic steps in any order. `TieredLimits` holds runs
  that show its hypotheses are needed, and exactly when an upload is safe; `Answers` says exactly
  which step decides how a promotion ends and what a call is told, and what a promotion and a demotion
  achieve undisturbed. `Warm`, `S3Reader`, `Staging` and `Canonical` (with `Ordering` and `Text`) follow the code in place.
- **Delta transfer and garbage collection.** `Transfer`; `Gc` (the SQL statements and their
  interleavings) and `Collector` (the queries, the refcount trigger row by row, and the passes).
- **Event stream.** `Sse` (the parser object and chunking) and `SseRoundTrip`.

Hash functions are symbolic: a digest remembers the bytes it was computed from, which is the
assumption that no two contents in play collide. What a run leaves open is a parameter over which the
theorems quantify: for the sync engine the order in which a directory walk or a table scan meets
things, and after how many entries a pull stops; for the blob store and the staging of uploads also
which access fails, what the network delivers and when the process dies. The sync engine itself fails
for structural reasons only: a refused rename, a file or directory in the way, a name taken. Where
Linux and macOS differ from Windows, as they do for a path beneath a file, the theorems hold for both:
which one the client was built for is left open (`LocalDisk.POSIX`).

## What was found

Ten statements that the code or its comments make, or suggest, hold only under a condition. Each has
a lemma with a concrete run that breaks it and the condition under which it holds.

1. *A replayed journal leaves the database mirroring the server.* The branch of `applyFileUpsert` that
   finds the recorded remote hash unchanged returns without recording the node. When the row belongs to
   another node that has moved away and then dies, the new node is lost for good although the cursor
   moves on (`Shadow.ShadowLosesANode`). The database mirrors the server if and only if no node's last
   upsert is met in that state (`Journal.ReplayMirrors`), which cannot happen unless a live file took
   over path and content of a dead one (`Shadow.NoTwinsClean`).
2. *Reapplying a page after an interruption is harmless.* When a page deletes one folder and moves
   another into its place, the rerun fails on the same entry forever (`StuckRerun.RerunGetsStuck`).
   Wherever a pull stops, each entry it has replayed is harmless to replay again if and only if the run
   was quiet: no entry took away the place of a live node upserted before it (by deleting a folder
   above it, or moving one), and none brought back a node deleted before it
   (`Rerun.HarmlessIffQuiet`). On a quiet run the rerun ends as the uninterrupted pull does
   (`Rerun.ResumeIsExact`); without restores quietness is also necessary for the rerun of what was
   replayed to leave the client where it stopped (`Rerun.CrashSafeIffQuiet`). An entry is refused
   exactly when it is blocked (`Refusals.FailsIffBlocked`): by a file on the way to its target or, on
   Linux and macOS, above the path recorded for its node, by a move beneath itself, or by something that
   is not a file replacing, being replaced or being deleted. A rerun of any history returns nil with a
   database that mirrors the server if and only if no entry is blocked when its turn comes and case 1
   does not arise (`Refusals.ResumeSucceedsIff`).
3. *A full reconcile restores agreement after a reset.* Paths, kinds, versions and content always agree
   afterwards; a node id may be stale, if and only if an untouched file with the same content was
   recorded at that path for another node (`Reconcile.ReconcileAgrees`, `Reconcile.StaleIdSurvives`).
4. *Content once uploaded has a good copy, and a live key is never reported lost.* The first does not
   extend to content uploaded again after a delete that left a bad object in the bucket
   (`TieredLimits.ReuploadAfterDeleteIsLost`). An upload is safe if and only if the object that answers
   for the key, local before bucket, is right or there is none (`TieredLimits.UploadIsSafeIff`), and both
   statements hold again of a key once its last delete has left nothing wrong behind, as one that
   reached both tiers has (`TieredLimits.CompleteDeleteSettles`). The second needs the key to be live
   when the caller that starts the promotion looks at the local store; live when `begin` runs is too
   late (`TieredLimits.LiveSinceBeginIsNotEnough`).
5. *The saved hash state of a resumable upload is that of the accepted bytes.* When the fsync (or the
   PUT) after a copy fails, `AppendPartial` returns zero bytes but the hasher has absorbed them, and the
   session commits the old offset with the new hash state (`Staging.FailedSyncSpoilsTheHash`). Apart
   from that it holds (`Staging.Session.AppendChunk` states both directions).
6. *A path that is not there is no error.* `localStatus`, `applyDelete` and `moveLocal` let "does not
   exist" pass, but beneath a regular file Linux and macOS report ENOTDIR, which `os.IsNotExist` does not
   accept. When a folder moves, a new file takes its old name and a file that moved along is trashed,
   the pull fails on that delete every time, without any change on the user's side
   (`StuckRerun.BarredPullGetsStuck`). The exact conditions are those of `Refusals.FailsIffBlocked` and,
   for selective sync, `Selective.PruneFailsIff`.
7. *A file trashed on the server disappears from the device.* When a folder above it moved in the same
   stretch of the journal, the file went along and its row did not, for the upsert that would have moved
   the row carries no node any more. The delete then misses the file, and the next push uploads it as a
   new node (`Leftovers.TrashedFileReturns`). An unedited tracked file of a dead node is removed by its
   delete if and only if no folder move has carried it away from its recorded path
   (`Leftovers.RemovedIffNotCarried`).

8. *After a pull, what is on disk is what the server has.* When a folder moves, a file in it is trashed and
   another file takes its name, the files have gone along with the folder: the second one's upsert finds
   its row's old path empty and the new one taken, records it there with its version, and downloads
   nothing. The path holds the bytes of the trashed file, and the push uploads them as the new version of
   the other one (`Usurped.MovedFileIsUsurped`). A replay that returns nil leaves a live node's path with
   the node's own bytes if and only if its last upsert did not leave alone a file that is not the version's
   (`Contents.ReplayContent`, `Contents.ReplayHoldsIff`); then there is nothing to push
   (`Contents.NothingToPush`).
9. *A file changed on both sides is set aside, nothing is overwritten.* So it is where the journal brings a
   new version of an edited tracked file (`Contents.EditStepsAside`) or a full walk finds it gone from the
   server, unless a recorded folder above it is gone too (`Vanished.EditSetAsideIff`). It is not where a
   full walk finds an edited or untracked file at the path of a live one, whose bytes are then nowhere any
   more (`Vanished.EditIsOverwritten`), nor where an upsert meets an untracked file
   (`Contents.UntrackedIsOverwritten`).
10. *Excluding a path never touches it on the server.* When a folder is renamed so that something in it
   comes to lie at an excluded path, that upsert is ignored and its row stays behind at the old path, which
   is not excluded and no longer there: the push trashes the node on the server
   (`ExclusionLimits.RenameTrashesExcluded`). If every row is at its node's place, an excluded node dies in
   a push if and only if the user deleted a recorded folder above it, and nothing else happens to any
   (`Exclusion.PushSparesExcluded`). Without that condition it dies if and only if the entry of a path that
   is neither seen nor excluded names it or a folder above it (`Exclusion.DiesIff`).

## Model

| member | source | states |
|---|---|---|
| `Paths.UnderIsPrefix` | client/internal/engine/paths.go:49-54 | the string test of isUnder holds exactly when one segment sequence is a prefix of the other |
| `Paths.RenderInjective` | client/internal/engine/paths.go:10-13 | different segment paths never share a spelling |
| `Paths.DirAndBase` | client/internal/engine/paths.go:38-45 | parentPath and baseName take a spelled path apart as Parent and BaseName do |
| `Paths.Segments` | client/internal/engine/paths.go:10-13 | every rooted string is the spelling of a slash-free segment path |
| `ConflictNames.CopyPathIsFree` | client/internal/engine/conflict.go:29-48 | the search ends at the first free candidate, in the same folder, different from the original, so the rename overwrites nothing |
| `ConflictNames.CopyKeepsStemAndExtension` | client/internal/engine/conflict.go:65-80 | what stands before the last dot stays in front and the extension at the end, with machine, date and number between them; a name without a dot is only lengthened |
| `ConflictNames.CandidateInjective` | client/internal/engine/conflict.go:65-80 | candidate names are injective in their number, whatever the stem and extension |
| `ConflictNames.SearchBound` | client/internal/engine/conflict.go:35-45 | pigeonhole: while all earlier candidates are taken the search is bounded by the number of taken paths |
| `Pull.ApplyChangeSound` | client/internal/engine/pull.go:151-187 | every journal entry, applied or failed half way, keeps the disk a tree, one row per node, and recorded hashes that name the same bytes |
| `Journal.ReplayMirrors` | client/internal/engine/pull.go:117-227 | replaying the journal from a mirrored tree, over any history of creates, edits, moves, trashes and restores, ends with a state database that mirrors the current tree if and only if no last upsert was shadowed |
| `Journal.UpsertRows` | client/internal/engine/pull.go:165-223 | an upsert touches the node's own row and the row at its path only, and tracks the node unless shadowed |
| `Journal.AncestorsAreSteady` | server/internal/files/store.go:517-531 | a folder that moves takes its subtree along, so above a node that has come to rest every folder is at rest too |
| `Shadow.NoTwinsClean` | client/internal/engine/pull.go:191-213 | if no live file took over path and content of a dead one, no upsert is shadowed |
| `Shadow.NoTwinsMirrors` | client/internal/engine/pull.go:117-227 | then every replay that returns without an error leaves a database that mirrors the server |
| `Shadow.ShadowLosesANode` | client/internal/engine/pull.go:205-213 | a three-entry journal the server can produce after which a live node has neither row nor file |
| `Resume.ResumeMirrors` | client/internal/engine/pull.go:117-148 | a pull stopped after any number of entries whose rerun from the saved cursor returns nil leaves a database that mirrors the server if and only if no last upsert of the rerun was shadowed |
| `Leftovers.RemovedIffNotCarried` | client/internal/engine/pull.go:245-276 | an unedited tracked file whose node is dead is removed from disk by its delete if and only if the folder moves replayed before have not carried it away from its recorded path; otherwise it stays there, untracked |
| `Leftovers.UntrackedReturns` | client/internal/engine/push.go:144-178 | a push from a mirroring database makes a live node with the same bytes of every untracked file |
| `Leftovers.TrashedFileReturns` | client/internal/engine/pull.go:151-276 | a three-entry journal after which the pull succeeds, the database mirrors the server, and the push uploads the trashed file again |
| `Contents.EditStepsAside` | client/internal/engine/pull.go:191-227 | when both sides changed a tracked file, the server's bytes stand at the name afterwards and the edit at a conflict name that was free |
| `Contents.UntrackedIsOverwritten` | client/internal/engine/pull.go:191-243 | an untracked file at the path of an upsert is replaced, and nothing else on disk changes |
| `Contents.UpsertHoldsIff` | client/internal/engine/pull.go:151-227 | after an upsert that is not shadowed the node's path holds the node's bytes if and only if the upsert did not leave alone a present file that is not the version its row names |
| `Contents.ReplayContent` | client/internal/engine/pull.go:117-227 | after a replay that returns nil and meets no shadow, the path of a live node it was about holds the node's version, or folder, if and only if the last upsert left no such file alone; the path of any other node that held its own still does |
| `Contents.ReplayHoldsIff` | client/internal/engine/pull.go:117-227 | from a client holding the tree of its cursor a replay ends holding the tree of now if and only if no last upsert left such a file alone |
| `Contents.NothingToPush` | client/internal/engine/push.go:20-212 | from a client that holds the server's tree and nothing else the push does nothing |
| `Usurped.MovedFileIsUsurped` | client/internal/engine/pull.go:151-227 | a five-entry journal after which the pull of an unedited client in step returns nil, the database mirrors the server, a live file has the bytes of a trashed one, and the push uploads them as its new version |
| `Refusals.ResumeSucceedsIff` | client/internal/engine/pull.go:117-148 | the rerun of a pull stopped anywhere, or the first run, returns nil and leaves a database that mirrors the server if and only if no entry is blocked when its turn comes and no last upsert is shadowed |
| `Rerun.HarmlessIffQuiet` | client/internal/engine/pull.go:151-227 | wherever a pull stops, every entry it has replayed changes nothing when replayed again, if and only if no entry took away the place of a live node upserted before it or brought back a node deleted before it |
| `Rerun.QuietIsExact` | client/internal/engine/pull.go:175-276 | one more entry, of any kind, leaves all entries so far without effect if and only if it is quiet |
| `Rerun.NoOpIffIdle` | client/internal/engine/pull.go:175-227 | an entry changes nothing if and only if its effect is in place or it is shadowed |
| `Rerun.ResumeIsExact` | client/internal/engine/pull.go:117-148 | a quiet pull stopped anywhere and run again from any earlier entry ends in the same disk, database and download count, or the same error, as the uninterrupted one |
| `Rerun.CrashSafeIffQuiet` | client/internal/engine/pull.go:117-148 | when no node is restored, rerunning what was replayed leaves the client where it stopped, at every stop, if and only if the run was quiet |
| `Rerun.RestoreDownloadsAgain` | client/internal/engine/pull.go:175-227 | a file trashed and restored within the page is deleted and downloaded again by every rerun |
| `Rerun.RestoredFolderIsMadeAgain` | client/internal/engine/pull.go:245-276 | an empty folder trashed and restored is deleted and made again, so that the rerun ends where it began although the run is not quiet |
| `Refusals.FailsIffBlocked` | client/internal/engine/pull.go:151-354 | an entry is refused if and only if, before it, a file stands on the way to its target or, on POSIX systems, above the recorded path it moves or deletes, the target lies beneath the recorded path, something that is not a file would replace or be replaced, or a file to delete has become a directory that is not empty |
| `Refusals.ReplayFailsIff` | client/internal/engine/pull.go:132-136 | a replay stops with an error if and only if some entry is blocked where the replay stands when it comes to it |
| `Refusals.RerunRefusal` | client/internal/engine/pull.go:132-136 | a rerun without restores that fails on an entry already replayed fails because a live node's path is blocked, never for a move or a delete |
| `Refusals.RefusedAgain` | client/internal/engine/pull.go:306-319 | a refused entry is refused again from where it left the client, which changes no more |
| `Refusals.StuckForever` | client/internal/engine/pull.go:117-148 | a quiet replay that stops at a blocked entry stops there again however often it is repeated |
| `Resume.AppliedIsNoOp` | client/internal/engine/pull.go:175-227 | applying an entry whose effect is in place changes nothing and downloads nothing |
| `StuckRerun.RerunGetsStuck` | client/internal/engine/pull.go:306-319 | a page for which the uninterrupted pull succeeds and every rerun of an interrupted one fails on the same entry |
| `StuckRerun.BarredPullGetsStuck` | client/internal/engine/pull.go:245-276 | a page on which, on Linux and macOS, the first pull of an unedited client in step fails on a delete beneath a new file, and every pull after it; on Windows it goes through |
| `EditSurvival.EditsSurvive` | client/internal/engine/pull.go:151-319 | across the replay of any stretch whose entries do not aim at it, completed or stopped by an error, a locally edited tracked file survives byte for byte at one of three places: its own path as recorded, the path to which the folder moves carried it, or a conflict-copy name; and the push will see it |
| `Reconcile.ReconcileAgrees` | client/internal/engine/pull.go:20-86 | a full reconcile that returns nil leaves rows and disk agreeing with the server on paths, kinds, versions and content, and on ids if and only if no stale row was kept |
| `Reconcile.StaleIdSurvives` | client/internal/engine/pull.go:99-114 | a state in which the full reconcile keeps the id of a node that is gone |
| `Vanished.OnlyUntrackedAndCopies` | client/internal/engine/pull.go:64-86 | after a full reconcile that returns nil every unrecorded path of the disk was untracked before and is as it was, or is an edit of a path that vanished, under a conflict name |
| `Vanished.VanishedIsGone` | client/internal/engine/pull.go:279-303 | a recorded path that is not live has no row and is gone from disk, with all beneath it if it was a folder, unless it is itself the conflict name of another |
| `Vanished.EditSetAsideIff` | client/internal/engine/pull.go:279-303 | an edit at a vanished path is at a conflict name beside it afterwards if and only if no recorded folder above it vanished |
| `Vanished.UntrackedStaysIff` | client/internal/engine/pull.go:279-303 | what was never recorded and is not on the server stays if and only if no recorded folder above it vanished |
| `Vanished.NothingComesBack` | client/internal/engine/pull.go:20-86 | with nothing untracked and no edit where something vanished, disk and database name the same paths, and the push after it does nothing |
| `Vanished.EditIsOverwritten` | client/internal/engine/pull.go:99-114 | at a live file's path stands the server's version; bytes that stood there and nowhere else are on no path any more |
| `TreeWalk.WalkEnds` | client/internal/engine/pull.go:25-62 | when the breadth-first queue runs dry every live node that is not excluded was met once, after its folder |
| `TreeWalk.Meet` | client/internal/engine/pull.go:32-61 | meeting a node keeps the partition into met, queued folder and still to list |
| `Selective.NormalizeExcludes` | client/internal/engine/selective.go:94-114 | the result is strictly increasing and holds exactly the non-empty normal forms: rooted, no trailing slash, never the root |
| `Selective.SortedIsOutermostFirst` | client/internal/engine/selective.go:112-113 | sorted prefixes list an outer one before any inner one |
| `Selective.FirstMatchIsOutermost` | client/internal/engine/selective.go:173-180 | in that order the first match is the outermost |
| `Selective.PruneIsSafe` | client/internal/engine/selective.go:125-170 | however far pruning gets, it touches nothing outside and deletes nothing beneath an outermost prefix that holds an edited tracked file; if it succeeds, no excluded path is left tracked |
| `Selective.PruneFailsIff` | client/internal/engine/selective.go:125-170 | pruning fails if and only if it comes to a recorded file it cannot look at before it has found an edit under its prefix, or cannot remove a prefix without edits, a file standing above |
| `Selective.PruneReclaimsIff` | client/internal/engine/selective.go:116-170 | if pruning succeeds, what stands beneath an excluded prefix is removed if and only if the outermost such prefix has recorded entries and none of them is an edited file |
| `Exclusion.PushSparesExcluded` | client/internal/engine/push.go:20-212 | for any excludes, from a database whose rows are at their nodes' places a push changes no row, makes no node and changes none at an excluded path; a node there dies, and only then the journal mentions it, if and only if the user deleted a recorded folder above it that is not excluded |
| `Exclusion.DiesIff` | client/internal/engine/push.go:181-212 | from any database a node dies in the deletions if and only if the row of a path neither seen nor excluded names it or a folder above it |
| `Exclusion.ReplayRecordsNothing` | client/internal/engine/pull.go:151-187 | a replay, completed or stopped, adds and changes no row at an excluded path |
| `Exclusion.ReplayPutsNothing` | client/internal/engine/pull.go:151-187 | nor does it put anything on disk there, unless an entry carries it there in a folder, or the path is a conflict name that is itself on the list |
| `Exclusion.ArrivesIffCarried` | client/internal/engine/pull.go:169-177 | following a move puts something at an excluded path if and only if a directory is moved one of whose entries comes to lie there |
| `Exclusion.ReconcilePutsNothing` | client/internal/engine/pull.go:20-86 | a full reconcile, completed or stopped, adds no row at an excluded path and puts nothing there but a conflict copy whose very name is on the list |
| `ExclusionLimits.PassSparesExcluded` | client/internal/engine/engine.go:125-181 | a whole pass, by replay or full walk, under the same conditions |
| `ExclusionLimits.RenameTrashesExcluded` | client/internal/engine/push.go:181-212 | a folder renamed on another device, after which the pull of an unedited client returns nil and the push trashes the excluded file in it on the server |
| `Visible.ReplayIsShown` | client/internal/engine/pull.go:151-187 | a replay under excludes is, step by step, the replay without them against a server that shows only what is not excluded |
| `Visible.PullIsShown` | client/internal/engine/engine.go:163-181 | so is any pull, by replay or full walk, from a database that records nothing excluded |
| `Visible.PushIsShown` | client/internal/engine/push.go:20-212 | what a push does under excludes to the rest of disk and server, a push without them does to a disk and a server that hold nothing else |
| `Visible.ReplayMirrorsTheRest` | client/internal/engine/pull.go:117-227 | while no node moves into or out of an excluded subtree, the database mirrors the rest of the server after a replay that returns nil if and only if no last upsert of the rest was shadowed |
| `Visible.PushConvergesOnTheRest` | client/internal/engine/push.go:20-212 | from a database that mirrors the rest of the server a push ends with the rest of disk and server in agreement if and only if there no path changed kind and the gate hides no edit |
| `Visible.SelectiveSyncConverges` | client/internal/engine/engine.go:125-181 | so does a whole pass under excludes whose pull returns nil, as of where the pull left it; after a full walk always |
| `Selective.UnsortedLosesAnEdit` | client/internal/engine/selective.go:125-180 | with the prefixes in another order the same pruning destroys an edit |
| `Server.UploadKeepsValid` | client/internal/engine/push.go:164-168 | an accepted upload, new node or new version, keeps the server a tree with unique paths and live parents |
| `Server.TrashKeepsValid` | client/internal/engine/push.go:203-207 | trashing a node with its subtree keeps the server a tree |
| `Push.PushConverges` | client/internal/engine/push.go:20-212 | from a database that mirrors the server and honest recorded hashes a push always succeeds, in any walk and list order, and leaves disk, database and server agreeing on paths, kinds, ids, versions and content; what it uploaded is live and what it trashed is not |
| `Push.PushConvergesIff` | client/internal/engine/push.go:20-212 | from a database that mirrors the server a push ends in agreement if and only if no recorded path changed kind and the size and modification time gate hides no edit |
| `Push.ConvergedPushIsIdle` | client/internal/engine/push.go:144-212 | from agreement a push changes no row, no node, no journal entry and no count |
| `Push.NewVersion` | client/internal/engine/push.go:144-178 | pushing a new or edited file succeeds, keeps the mirror and puts exactly that path in step |
| `Push.PushedContent` | client/internal/engine/push.go:144-178 | after a push from a mirroring database the server holds the bytes of every file on disk at its path |
| `Push.AdoptsOnlyFolders` | client/internal/engine/push.go:85-141 | when the name of a new folder is taken, the server's folder of that name is recorded, a file of that name is not, and the server stays as it is |
| `Push.TrashStep` | client/internal/engine/push.go:181-212 | one deletion, cascade or 404, keeps every path that is on disk recorded and live |
| `Sync.PollSkipsNothing` | server/internal/httpapi/changes.go:19-88 | a page is a stretch of the journal without a gap from the cursor on, all of it retained; a page that is not full ends at the head; a reset is answered only when the entry after the cursor is gone |
| `Sync.PagesAreReplay` | client/internal/engine/pull.go:117-148 | paging is replaying: success means everything past the cursor was applied and the head saved; failure means the saved cursor ends a page whose entries are all applied |
| `Sync.SyncConverges` | client/internal/engine/engine.go:125-181 | a pass whose pull returns nil over a server at rest, the rerun of one cut short included, succeeds and ends with disk, database and server in agreement if and only if, where the pull left it, no recorded path had changed kind and the gate hid no edit, as is always so after a full walk; the device is then in step as of its cursor again |
| `Sync.FailedPullResumes` | client/internal/engine/pull.go:117-148 | a pull that fails in its first page leaves a device from which a later pull can take over |
| `Sync.SyncConvergesWithoutTwins` | client/internal/engine/engine.go:125-181 | the same, with a condition on the trees at the cursor and now in place of the one on shadowed upserts |
| `Sync.FirstSyncConverges` | client/internal/engine/engine.go:163-178 | the first pass of a device, over any files already on disk, succeeds exactly when its pull does, and then converges |
| `Sync.NoEcho` | client/internal/engine/engine.go:125-141 | the pass after it changes nothing but the cursor, though it replays the first pass's own pushes, or walks the tree again after a reset |
| `Devices.PushGrows` | client/internal/engine/push.go:20-212 | whatever a push does, one that stops half way at a missing parent or a taken name included, the server journals as transactions another device can replay |
| `Devices.TrashIsCommit` | client/internal/engine/push.go:201-207 | trashing a node with its subtree journals a delete for every node that dies, and changes nothing else |
| `Devices.OthersMayPush` | client/internal/engine/pull.go:117-148 | a device in step as of its cursor stays so while other devices push |
| `Devices.ConvergedAlike` | client/internal/engine/engine.go:5-9 | devices that converged on the same server hold the same paths, kinds and bytes |
| `Devices.OtherDeviceConverges` | client/internal/engine/engine.go:5-9 | a device that syncs after others have pushed converges under the exact condition of a pass, and holds the same files as they do if it had nothing to add |
| `Devices.RoundsConverge` | client/internal/engine/engine.go:125-181 | pass after pass, with the user's edits and other devices' pushes between them, every pass succeeds and converges |
| `Engine.SyncEngine.GetByNodeID` | client/internal/state/state.go:104-112 | finds the row of a node, or that there is none |
| `Engine.SyncEngine.FreeName` | client/internal/engine/conflict.go:34-45 | the search loop terminates at the free name of the specification |
| `Engine.SyncEngine.ConflictCopy` | client/internal/engine/conflict.go:29-60 | sets the file aside and forgets the row, in place |
| `Engine.SyncEngine.MoveLocal` | client/internal/engine/pull.go:306-319 | the rename, refused beneath a file on POSIX systems, and the rekeying of the node's own row |
| `Engine.SyncEngine.ForgetSubtree` | client/internal/engine/pull.go:322-335 | deletes exactly the rows at or beneath the root |
| `Engine.SyncEngine.ApplyFileUpsert` | client/internal/engine/pull.go:191-227 | refines the specification of a file upsert, what is in the way of the download included |
| `Engine.SyncEngine.ApplyDelete` | client/internal/engine/pull.go:245-276 | refines the specification of a delete, the failures beneath a file included |
| `Engine.SyncEngine.DropLocal` | client/internal/engine/pull.go:279-303 | refines what a vanished entry and a delete share, the failures beneath a file included |
| `Engine.SyncEngine.ApplyChange` | client/internal/engine/pull.go:151-187 | refines one journal entry |
| `Engine.SyncEngine.ApplyRemote` | client/internal/engine/pull.go:117-148 | the poll loop equals paging, or a full reconcile that adopts the head after a reset |
| `Engine.SyncEngine.WalkTree` | client/internal/engine/pull.go:20-62 | the queue loop is a walk of the whole tree, unless a step failed |
| `Engine.SyncEngine.DropVanished` | client/internal/engine/pull.go:64-85 | the loop over the recorded entries, as recorded when the walk ended |
| `Engine.SyncEngine.ReconcileTree` | client/internal/engine/pull.go:20-86 | walk and vanished entries together |
| `Engine.SyncEngine.PullRemote` | client/internal/engine/engine.go:163-181 | full reconcile from an empty database with the head captured before it, replay otherwise |
| `Engine.SyncEngine.PruneExcluded` | client/internal/engine/selective.go:125-170 | the scan over the entries as listed and the removal of the prefixes in any order are those of the specification, up to the same error |
| `Engine.SyncEngine.PushFolder` | client/internal/engine/push.go:85-113 | creates, adopts or leaves a folder as specified |
| `Engine.SyncEngine.AdoptExistingFolder` | client/internal/engine/push.go:125-141 | records the folder of that name among the parent's children, and nothing if a file has the name |
| `Engine.SyncEngine.PushFile` | client/internal/engine/push.go:144-178 | refines the upload of one file |
| `Engine.SyncEngine.PushExisting` | client/internal/engine/push.go:30-82 | the disk walk, and the set of paths it saw |
| `Engine.SyncEngine.PushDeletions` | client/internal/engine/push.go:181-212 | the loop over the recorded entries, as listed before it |
| `Engine.SyncEngine.Sync` | client/internal/engine/engine.go:125-141 | prune, pull and push in place are a pass of the specification |
| `Engine.SyncEngine.FirstSync` | client/internal/engine/engine.go:163-178 | the engine's own first pass converges whenever it returns nil |
| `Engine.SyncEngine.SyncAgain` | client/internal/engine/engine.go:125-141 | the engine's next pass succeeds and changes nothing but the cursor |
| `Tiered.TierSafety` | server/internal/blob/tiered.go:338-449 | under every interleaving, failure and crash, bad cold writes included, a key uploaded and not deleted since, earlier settled deletes or not, has a right copy in hot or else in cold, and every hot copy is right |
| `Tiered.SettleKeepsInv` | server/internal/blob/tiered.go:338-346 | a deleted key under which nothing wrong is left is as good as new |
| `Tiered.StoresStepKeeps` | server/internal/blob/tiered.go:405-449 | each access of a demotion keeps the local copy until the right bytes were read back, and no write changes an object already there |
| `Tiered.NextPhaseSafe` | server/internal/blob/tiered.go:288-321 | what a promotion read is what the bucket still holds, and is right once it sees hot missing |
| `Tiered.LookedKeeps` | server/internal/blob/tiered.go:148-162 | an upload may report "existed" on the strength of either tier without losing the content |
| `Tiered.LiveIsNeverLost` | server/internal/blob/tiered.go:197-281 | Warm and Stat answer "not found" only for a key that was not live when the caller, or the starter of the promotion it joined, looked at hot, or that was deleted between that look and the answer |
| `Answers.PromotionEndsIff` | server/internal/blob/tiered.go:288-321 | a promotion ends in "not found" if and only if the bucket lacked the object when it opened it, in success if and only if its look found hot holding the key or its write reported ok, and in failure if and only if one of its accesses failed |
| `Answers.AnswerIff` | server/internal/blob/tiered.go:197-331 | Warm and Stat have given an answer if and only if the deciding step said so: hot found, a size in either tier, nothing in either, a failed look, the wait over, or for a Warm that waited the step that decided its promotion |
| `Answers.UndisturbedWarm` | server/internal/blob/tiered.go:197-321 | a Warm that nothing disturbs, of a key in the bucket only, answers "hot", leaves in hot what the bucket holds, keeps the bucket's copy, and no promotion is in flight |
| `Answers.UndisturbedDemotion` | server/internal/blob/tiered.go:405-449 | a demotion that nothing disturbs frees the local copy and leaves the bytes in the bucket if and only if no other object had the key there, and changes neither tier otherwise |
| `Tiered.SingleFlight` | server/internal/blob/tiered.go:255-281 | at most one promotion per key runs at once |
| `Tiered.WarmNilWasHot` | server/internal/blob/tiered.go:197-228 | Warm returns nil only if the key was in hot when it looked or at a moment since the promotion was started |
| `TieredLimits.LiveSinceBeginIsNotEnough` | server/internal/blob/tiered.go:197-281 | a run in which a key live and hot since before the promotion began is reported absent |
| `TieredLimits.UploadIsSafeIff` | server/internal/blob/tiered.go:148-162 | from any state an undisturbed upload leaves a right copy if and only if the object that answered for the key was right or there was none |
| `TieredLimits.CompleteDeleteSettles` | server/internal/blob/tiered.go:338-346 | a delete that reaches both tiers with nothing moving is settled, and an upload after it is covered again |
| `TieredLimits.ReuploadAfterDeleteIsLost` | server/internal/blob/tiered.go:148-162 | a run in which a delete never settles and content uploaded again after it is in neither tier |
| `Warm.WarmManifest` | server/internal/cas/tier.go:31-84 | every promotion is started before any is waited for; nil exactly if all are hot, "restoring" exactly if some are and none failed, otherwise the first failure; and on the answers of a run of the store, nil means every chunk was in hot since its promotion began |
| `Warm.NilMeansWarm` | server/internal/cas/tier.go:64-84 | if every wait of a run answers "hot", each chunk was in hot since its promotion was started |
| `S3Reader.Reader.Read` | server/internal/blob/s3.go:566-588 | returned bytes are the object's at the position, the end is reported at the end only, whatever the server and the connections do; a read fails exactly when no connection can be had or the one there is breaks or ends early, and on a sound network it yields something |
| `S3Reader.Reader.Reopen` | server/internal/blob/s3.go:590-629 | a ranged answer, or a whole one that reaches the position, leaves a body that continues there, and no other answer does |
| `S3Reader.Reader.Seek` | server/internal/blob/s3.go:631-653 | the three origins, past the end, and negative targets that change nothing |
| `S3Reader.Reader.Session` | server/internal/blob/s3.go:552-653 | any sequence of reads and seeks gets the replies of a file in memory |
| `S3Reader.Reader.Copy` | server/internal/blob/s3.go:566-588 | a copy through the reader is complete or fails, and on a sound network it is complete |
| `S3Reader.Reader.CopyLimited` | server/internal/blob/s3.go:459-469 | a limited copy has that many bytes or all there are, or fails, and does not depend on the network behind the limit |
| `S3Reader.ReadBodyFollows` | server/internal/blob/s3.go:576-587 | a body that follows the object from an offset keeps following it through short reads |
| `Staging.Partial.AppendToFile` | server/internal/blob/blob.go:378-408 | truncate, append and hash meet the common specification |
| `Staging.Partial.AppendToObject` | server/internal/blob/s3.go:438-480 | read back, append, rewrite and hash meet the same specification, whatever the network does to the read-back |
| `Staging.Session.AppendChunk` | server/internal/files/uploads.go:319-368 | the first offset bytes are the accepted data and the hash state is theirs, crashes and early ends included, unless the store failed after hashing something |
| `Staging.Session.Run` | server/internal/files/uploads.go:319-368 | over any run of attempts the accepted data is the committed pieces in order |
| `Staging.Session.Finish` | server/internal/files/uploads.go:388-403 | a finished upload hands over exactly the accepted bytes with their digest |
| `Staging.FailedSyncSpoilsTheHash` | server/internal/files/uploads.go:341-359 | one failed fsync leaves a session whose saved hash state is not that of the accepted bytes |
| `Canonical.EscapeQuery` | server/internal/blob/s3.go:830-845 | the loop emits only unreserved characters and percent signs, each percent sign followed by two of 0-9 and A-F; letters, digits and "-_.~" come out as themselves; and percent-decoding gives the input back |
| `Canonical.NormalIsUnique` | server/internal/blob/s3.go:830-845 | of all strings that decode to the input, exactly one uses upper-case digits and escapes no plain character, and the loop emits that one |
| `Canonical.EscapePath` | server/internal/blob/s3.go:850-856 | escapes segment by segment |
| `Canonical.EscapePathKeepsSegments` | server/internal/blob/s3.go:850-856 | the escaped path splits into exactly the escaped segments |
| `Canonical.EscapePathInjective` | server/internal/blob/s3.go:850-856 | different paths are escaped differently |
| `Canonical.CanonicalQuery` | server/internal/blob/s3.go:810-826 | prints every pair as often as it occurs, by key and then by value |
| `Ordering.LessAtFirstDifference` | server/internal/blob/s3.go:815-821 | the order in which keys and values are sorted is decided at the first differing character, or by length when there is none |
| `Canonical.CanonicalIsExact` | server/internal/blob/s3.go:810-826 | two queries print alike if and only if every pair occurs in both equally often |
| `Transfer.UploadChunked` | client/internal/engine/transfer.go:57-100 | only missing chunks are sent, each once; success means the whole manifest is on the server, even if the file changed between the two reads; an unchanged file succeeds unless a needed chunk cannot be sent |
| `Transfer.SendMissing` | client/internal/engine/transfer.go:76-95 | the second pass sends each needed piece when it is first met |
| `Transfer.Dedupe` | client/internal/engine/transfer.go:120-130 | each distinct hash once |
| `Transfer.ChunkServer.CommitManifest` | server/internal/cas/delta.go:259-323 | refused exactly for an empty list, a missing chunk, or a hash that is not the assembled content's |
| `Transfer.AssembledIsFlat` | client/internal/engine/transfer.go:160-170 | chunks stored under the hashes of the pieces assemble to the pieces |
| `Transfer.Download.DownloadFile` | client/internal/engine/transfer.go:138-203 | the file at its final name is what the manifest describes, or what it was before |
| `Transfer.RoundTrip` | client/internal/engine/transfer.go:57-203 | content uploaded and downloaded again is byte-identical with the recorded hash, other uploads in between or not |
| `Gc.GcSafety` | server/internal/cas/gc.go:57-149 | in every interleaving, driven by any stale lists, recorded refcounts are the true counts, no version names a missing manifest and no manifest a missing chunk |
| `Gc.CommitTakesEffect` | server/internal/cas/delta.go:338-366 | an accepted manifest lists exactly its hashes in their order, and no other manifest changes |
| `Gc.DeleteTakesEffect` | server/internal/cas/gc.go:140-149 | an unreferenced manifest goes with its rows and with no other |
| `Gc.ChunkGoes` | server/internal/cas/gc.go:90-96 | a chunk row is deleted if and only if no manifest lists the chunk |
| `Gc.VersionKeepsItsChunks` | server/internal/cas/gc.go:135-149 | as long as a version is not deleted it names the same manifest, listing the same chunks, all there |
| `Gc.RestrictNeverFires` | server/internal/db/migrations/00007_cas.sql:83-87 | a recorded count of zero always means what it says, so the foreign key never refuses the collector |
| `Collector.Database.CommitManifest` | server/internal/cas/delta.go:338-366 | inserting the rows one by one, each firing the trigger, reaches the state of the statement |
| `Collector.Database.DeleteManifestRow` | server/internal/cas/gc.go:140-149 | the conditional delete with its row-by-row cascade |
| `Collector.Database.DeleteChunkRow` | server/internal/cas/gc.go:90-96 | deletes exactly a chunk whose recorded count is still zero |
| `Collector.Database.UnreferencedManifests` | server/internal/cas/gc.go:111-133 | only old unreferenced manifests, and all of them unless the limit is reached |
| `Collector.Database.UnreferencedChunks` | server/internal/cas/gc.go:57-81 | only old chunks with count zero, and all of them unless the limit is reached |
| `Collector.Database.VerifyRefcounts` | server/internal/cas/gc.go:166-193 | reports true disagreements only, all of them up to the limit, and none in a reachable state |
| `Collector.Database.CollectManifests` | server/internal/files/service.go:682-706 | a pass deletes all it listed: it frees as many as the limit allows, or nothing stale is left; nothing younger than the grace period goes, manifest, row or chunk |
| `Collector.Database.CollectChunks` | server/internal/files/service.go:714-747 | the same for chunks, of which each is still unreferenced when its turn comes |
| `Collector.Database.CollectUntilIdle` | server/internal/cas/gc.go:98-149 | with uploads stopped and the grace period over, passes with any positive limit end, leaving exactly the manifests that versions name and the chunks those list |
| `Sse.GapStays` | web/src/sse.ts:74-96 | the two terminators cannot overlap, so the blank line found early is the first of the whole text |
| `Sse.CutAppend` | web/src/sse.ts:74-103 | cutting what has arrived and later the rest is cutting it all at once |
| `Sse.NormalizeMeans` | web/src/sse.ts:119-121 | a carriage return, with or without a line feed after it, becomes one line feed, and the rest is left alone |
| `Sse.FrameSays` | web/src/sse.ts:43-72 | a frame is one event: the values of its data lines, with or without a space after the colon, joined, under the name given last or "message"; comments, `id`, `retry` and other fields say nothing, and without data there is no event |
| `Sse.SseParser.Push` | web/src/sse.ts:100-104 | reports the events of the complete frames and keeps the rest |
| `Sse.SseParser.End` | web/src/sse.ts:105-114 | reports what never got its blank line, unless it is blank |
| `Sse.ParseInChunks` | web/src/sse.ts:37-116 | for every text and every way of cutting it, the events are those of one push |
| `SseRoundTrip.RoundTrip` | web/src/sse.ts:43-97 | any events, written with either line ending and comments anywhere, are read back in order |
| `SseRoundTrip.RoundTripUnterminated` | web/src/sse.ts:105-114 | a last event that lost its blank line is still reported |
| `SseRoundTrip.BlockDispatches` | web/src/sse.ts:43-72 | one block, normalized and dispatched, is the event it was written for, or none for comments |

## Left out

- Journal.ReplayMirrors: the history is a sequence of server transactions that journal every node they change; that the server writes such journals (`Journal.ValidCommit`) is proved of the operations a push issues, and a hypothesis for moves, restores and purges, whose SQL is not modelled.
- Leftovers.RemovedIffNotCarried: stretches in which no entry brings another node to the file's row or place, deletes a folder above them, or moves a folder onto recorded paths.
- Sync.SyncConverges: nobody else changes the server during the pass; excludes are empty, and `Visible.SelectiveSyncConverges` is the same for any excludes.
- Visible.ReplayMirrorsTheRest: no node moves into or out of an excluded subtree in the stretch replayed; `ExclusionLimits.RenameTrashesExcluded` shows what happens when one does.
- Exclusion.PushSparesExcluded: every row is at its node's place, as after a pull that mirrors what is not excluded.
- Contents.ReplayContent: within one server transaction no path passes from one node to another, and excludes are empty.
- Vanished.EditSetAsideIff: no vanished path has the conflict name of another vanished path, and excludes are empty; under excludes a full walk is one of what is not excluded (`Visible.PullIsShown`).
- Sync.FailedPullResumes: a pull that had already saved the end of a page in the middle of a server transaction, and then failed, is not covered.
- Devices.RoundsConverge: of rounds whose pull returns nil, meets no shadowed upsert, and leaves kinds and gate as a push needs them.
- EditSurvival.EditsSurvive: edits covered by a folder delete or sitting where another node is to be placed are outside the theorem, as the program destroys or overwrites them; so is a conflict name that is free on disk but still recorded.
- Rerun.CrashSafeIffQuiet: pages without restores; with one, quietness is still exact entry by entry (`Rerun.HarmlessIffQuiet`) but not for the rerun as a whole (`Rerun.RestoredFolderIsMadeAgain`).
- Engine.SyncEngine.ApplyFileUpsert: failed downloads and failed database writes of the engine are not modelled, here as in the rest of the engine.
- Engine.SyncEngine.Sync: requires one row per node at the start, which every replay keeps but a full reconcile that kept a stale id may not.
- Transfer.UploadChunked: the content-defined splitter is any function that partitions a content; compression and HTTP are not modelled.
- Tiered.TierSafety: at most one demotion per key at a time, both stores start empty, and a key counts as deleted until its delete has settled; an object read by several ranged GETs is one read; mutex, channels and background copies are steps on values, not objects.
- Gc.GcSafety: a transaction that writes a manifest with its rows is one step; row locks and isolation levels are not modelled.
- `.pcsyncignore` rules, symbolic links, permissions, case folding of names and partial failures of single disk writes.
- The modification time a download gets is a function of path and version; clocks, timers, contexts and cancellation are the caller's parameters.
- The list order of tables and the order of directory walks: theorems hold for any order that puts folders first.
- `Open` after a successful `Warm`, the tier column and access times, whole-file `Put`, and deleting chunk bytes after the row.
- Blob refcounts, media variants, upload expiry, quotas, sharing, authentication, signing (HMAC), the updater and every user interface.
- `parseEventData` and the text decoder of `readSSEStream`: the parser is modelled from decoded text on.
