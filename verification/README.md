# kanibako: verified models of its crash-safe, protocol and supervisor code

kanibako runs agents in containers ("boxes").  The host changes trees that a box may write at the
same time, supervises an agent from the box's first process, and talks to helper boxes over a
socket.  This project models that code in Dafny and proves what it promises.  Check it with
`dafny verify dfyconfig.toml`.

The files, by component:

- `options`, `collections`, `powers`: a value or none, and small facts about sets and sequences.
- `trees`, `merge`: trees as values, and what a no-clobber merge of one into another means, without
  inodes, stacks or order.
- `copy_steps`, `copy_scope`, `copy_enters`, `boxfs`, `copy_tree`, `followed`: the copy on a map of inodes.  The
  explicit stack of `_copy_entries` refines a recursive merge, which refines the merge on trees, with any call
  failing; its scope says what it may touch while it runs, `copy_enters` which directories it enters, and
  `followed` what it carries, read off the disk, links followed or not.
- `moves`: a rename and its cross-device fallback, with every intermediate state recorded.
- `walk`: the descriptor walk and the check for links, against a box that swaps any name between two calls.
- `restore`, `free_names`, `relocate`: the transactional restore of a vault, and the carrying of a snapshot
  store, on directories seen as maps of names to trees; `tree_level` derives the clauses of their primitives
  from the copies, moves and removals on inodes.
- `lifecycle`, `watch_loop`, `supervisor`, `markers`, `panel`, `takeover`: the first process of a box.  A
  loop is a method over a sequence of ticks, each saying what its probes answer or that they raise.
- `frames`, `demux`: the wire format and the full-duplex client.  A thread's step is one action; an
  interleaving is a sequence of actions; the class methods are those steps.
- `helper_tree`, `hub`, `hub_daemon`, `budgets`: helper numbers, the hub, its watch loop, and spawn
  budgets.
- `keyspec`, `coverage`, `kuid`, `decimal`: interval and codec arithmetic.

A primitive that may fail is a nondeterministic choice, so a property of a method holds for every
placement of failures; the fields `failed` and `Faults.seen` remember that one did, so that a method
which gives up without cause does not meet its contract.

## What the proofs found

- `Relocate.LinkReplaced`: the free-name test follows links, so a carried file replaces a destination
  link that leads nowhere.  `Relocate.CarryEntries` conserves everything where `LandsFree` holds, and,
  where no call fails, only there: no name found free is held by such a link, there before or carried
  before.  It holds when the carried
  entries are directories (snapshots are), when no carried name is in the destination, and when neither
  store holds a link.
- `HelperTree.WalkIsDisk`: a helper directory named with a leading zero is listed under its number, but
  looked up under the canonical name, so what is below it is not listed, and the hub's counter does not
  see those numbers.  `Hub.SeventhIsTaken` hands out such a number; `Hub.HandedIsNewIff` says exactly
  when no run does.
- `Panel.DeathLost`: the panel loop scans the markers twice a tick, removes what either scan finds stale, and
  drops what the second found.  A death reaches a decision exactly if the scan that first reports it is the
  first of a tick that comes to its decision (`Panel.DeathCountsIff`).  It is lost when it falls between the
  two scans, and when its tick raises after the first scan; and a start of a CLI that raises is not repeated.
- `Demux.RecvStuck`: a `recv` without a timeout that passed its check for a socket waits for ever when
  `close` replaces the inbox before it is looked up.
- `Takeover.TargetIsSafe`: when the system does not say which group the supervisor is in, the guard on its
  own group is off.  `os.getpgrp` does not fail on a real system, so only an injected probe leads there.
- `BoxFs.BoxDisk.CopyEntries`: two descriptors stay open, where no call fails before, if and only if the copy
  enters a directory below its source whose listing raises; `CopyEnters.Enters` reads off the two trees which
  directories it enters, and `BoxFs.LeakyCopy` is a copy that leaves them open.
- `Panel.ActsAloneIff`: what the panel loop takes for no live agent is a first scan that reports none.  A tick that
  tears the box down, or starts a CLI, leaves no panel agent alive at its second scan if and only if none of those
  alive then was overlooked: the first scan could not list the directory, a probe raised on it, it was then the
  CLI's own, or it came up after that scan.  `Panel.TornDownOver` and `Panel.StartedBeside` are such ticks.
- `Restore.RestoreSnapshot`: where the backup directory cannot be made, the roll-back fails on listing it: the error
  then names a backup that is not there, although nothing was moved and the vault is as it was.
- `Hub.RefusedStopIsLost`: the answers of the runtime's stop and removal are not looked at, so a container whose
  stop is refused is no longer held, and the hub then refuses to stop it.  `Hub.HoldsAllIff`: the hub holds every
  container it launched that is not gone if and only if there is none of that kind.
- The README of the program describes helper numbers as N x B + k; the code hands them out from a counter,
  and so does the model.

## Model

| member | source | states |
|---|---|---|
| `Walk.WalkStaysInside` | src/kanibako/boxfs.py:93-104 | however names are swapped between the calls of a walk, every directory it was on was reached from the root by real directory edges, so it never leaves the box tree |
| `Walk.QuietWalkResolves` | src/kanibako/boxfs.py:93-104 | while nothing is swapped, the walk ends at the directory the path leads to |
| `Walk.Walker.OpenDirAt` | src/kanibako/boxfs.py:74-90 | a descriptor is on a directory that the name really was at one moment; a link is refused by its index; where nothing is found and a directory is to be made, it is made, once, and then opened, unless the making fails with other than EEXIST |
| `Walk.Walker.OpenDirs` | src/kanibako/boxfs.py:93-104 | each component is opened under the last; on every path, failures included, exactly the returned descriptor stays open; a refusal names the component that was a link; without a failed call, a walk stops only where at some moment no directory was |
| `Walk.Walker.Parent` | src/kanibako/boxfs.py:108-118 | a path not under the root, climbing out of it, or equal to it is refused before any call; else the parent is walked and the leaf left unopened |
| `Walk.Walker.FirstSymlink` | src/kanibako/boxfs.py:150-182 | the check returns the first component of a path that it met as a link at some moment, or that could not be looked into, and only if directories alone led there; else none; no descriptor stays open.  Read off how its calls ended: a call that fails with other than ENOENT or ENOTDIR answers with the component it was met at, the root included; these two, and no link, answer with none |
| `Walk.QuietCheckFinds` | src/kanibako/boxfs.py:150-182 | while nothing is swapped and no call fails, a path is refused at a component if and only if that is a link and real directories lead to it |
| `Merge.CarriedOrReported` | src/kanibako/boxfs.py:568-643 | each file, link and directory of the source is carried, or it or a directory on the way to it is in the list of what was left out |
| `Merge.ReportedUntouched` | src/kanibako/boxfs.py:568-643 | what is reported as left out was not touched at the destination |
| `Merge.UnnamedUntouched` | src/kanibako/boxfs.py:568-643 | destination links, and destination entries the source does not name, stay exactly as they were |
| `Merge.CopyToAbsent` | src/kanibako/boxfs.py:844-876 | a tree copied to where nothing is arrives less its special files, and nothing is reported |
| `Merge.CarriedWhole` | src/kanibako/boxfs.py:844-876 | a copy carries a tree whole if and only if the tree holds no socket, FIFO or device |
| `Merge.MergedIs` | src/kanibako/boxfs.py:496-559 | where directories or nothing lead to a path, what a merge leaves there and whether it reports it, by the kinds of what is read and what is there |
| `Merge.ReportedIs` | src/kanibako/boxfs.py:496-559 | a path is reported if and only if that is so by those kinds, and directories or nothing lead to it |
| `Merge.CopyDisjoint` | src/kanibako/snapshots.py:473-528 | a copy of a plain directory into one that shares no name with it is the disjoint union of the two |
| `CopySteps.CopyIsMerge` | src/kanibako/boxfs.py:457-565 | the merge on inodes, directory by directory, gives the merged tree and reports exactly what the merge leaves out; it never strays into the directories it writes |
| `BoxFs.FinishLeaf` | src/kanibako/boxfs.py:496-559 | finishing one name that is not entered and then the rest of the stack is finishing the stack |
| `BoxFs.FinishEnter` | src/kanibako/boxfs.py:517-539 | pushing a directory and finishing the taller stack is finishing the stack: the explicit stack is the recursion |
| `BoxFs.FinishPop` | src/kanibako/boxfs.py:484-495 | popping a finished directory leaves what is still to be done unchanged |
| `BoxFs.BoxDisk.ReplaceAt` | src/kanibako/boxfs.py:239-271 | a file is replaced in one step; a failure at any call leaves every entry of the directory in place, and no new one unless the removal of the temp file fails too |
| `BoxFs.BoxDisk.CopyName` | src/kanibako/boxfs.py:496-559 | one listed name is copied, reported, entered or refused as the plan for its kind on both sides says, whatever call fails |
| `BoxFs.BoxDisk.CopyStack` | src/kanibako/boxfs.py:481-565 | the loop ends; it delivers what the recursive merge delivers, or an error; at every step only destination directories the source has directories for were written, no entry was lost, and only files the source has files for were replaced; however it ends, no name is in use that was not in use before, unless the removal of a temp file failed |
| `BoxFs.BoxDisk.CopyEntries` | src/kanibako/boxfs.py:457-565 | a copy that comes through leaves the merged tree and the exact report; where no call fails it comes through if and only if its top directory and all it enters can be listed, and descriptors are balanced but for two that stay open if and only if one that it enters cannot; else it raises only where a call fails |
| `CopyEnters.EnteredIs` | src/kanibako/boxfs.py:496-539 | the directories a copy enters are those that directories alone lead to in the source, none of them the destination or one being copied, each with a directory or nothing in its place |
| `BoxFs.LeakyCopy` | src/kanibako/boxfs.py:539-564 | a copy of a directory with one subdirectory that cannot be listed leaves two descriptors open, unless a call fails before |
| `CopyScope.SparedBy` | src/kanibako/boxfs.py:457-565 | however far a copy got, what the source does not name at the destination, and every link there, holds the tree it held |
| `CopyTree.Copy` | src/kanibako/boxfs.py:568-643 | a copy makes or merges into its destination without following a link; at every step and however it ends it wrote nothing else, and spared every destination link and every entry the source does not name; it leaves no temp file unless the removal of one failed; it refuses an existing destination without merge and a copy onto itself, and then changes nothing |
| `CopyTree.DestNotEntered` | src/kanibako/boxfs.py:517-520 | a destination inside the source is not copied into itself: what it holds there stays as it was |
| `CopyTree.ReadIsTree` | src/kanibako/boxfs.py:496-539 | read without following links, a source tree that does not hold the destination is that tree |
| `CopyTree.ForestApart` | src/kanibako/boxfs.py:568-643 | following source links, a copy still starts apart from its destination when no followed link resolves inside it |
| `Followed.SourceHolds` | src/kanibako/boxfs.py:497-504 | the source of a copy that follows links is exactly what its entries hold on the disk: a link that resolves to a file is that file; to a directory, its entries; back to one being copied, a loop; nowhere, dangling |
| `Followed.FollowedFileArrives` | src/kanibako/boxfs.py:497-559 | a file that a path of entries, links followed, leads to arrives with its bytes under that path and is not reported, where its place is free or a file and directories or nothing lead to it |
| `Followed.EntryCopied` | src/kanibako/boxfs.py:496-559 | what a copy that came through made of each entry, by the kinds of the two inodes, links followed or not: carried, passed over, or reported and left as it was |
| `Followed.DanglingLeft` | src/kanibako/boxfs.py:497-504 | a followed link that leads nowhere is reported, and what is in its place stays |
| `Moves.Rename` | src/kanibako/boxfs.py:844-876 | after every single step of a move the entry is whole at its source or at its destination, and every other entry of the two directories names what it named; the three ways it ends say what is left; without a failed call it comes through if and only if nothing stands in the way: by a rename, a destination of another kind or a directory that is not empty; across devices, what blocks the fallback; a part of a copy, or a part of the source, is left only where a removal failed |
| `Moves.MoveAcross` | src/kanibako/boxfs.py:879-930 | the same for the fallback after EXDEV: without a failed call it comes through if and only if the source is no special file, a directory has an absent destination, and a leaf does not land on a directory |
| `Moves.MoveLeaf` | src/kanibako/boxfs.py:879-907 | a file or link is put at the destination through a temp name, and only then unlinked at the source; nothing else is touched |
| `Moves.MoveDir` | src/kanibako/boxfs.py:908-927 | a copy that fails, or that the box came between, is dropped and no entry that was there is touched; else the source is removed after the copy is whole |
| `Moves.DropPartial` | src/kanibako/boxfs.py:943-948 | dropping a partial copy, whatever the box wrote in it, restores the starting state, or, where its removal fails and only there, leaves a part of the copy beside the untouched source |
| `Moves.RemoveAt` | src/kanibako/boxfs.py:671-700 | removing an entry touches that entry and the directories below it only, at every step; an entry that names a directory goes only once the directory is empty; it fails only where a call fails |
| `Moves.AllEmptied` | src/kanibako/boxfs.py:671-700 | after a removal that comes through, every directory of the removed tree is empty |
| `TreeLevel.CopyComes` | src/kanibako/boxfs.py:568-643 | for two directories seen as maps of names to trees, a merging copy that comes through leaves the merge, and reports nothing if and only if the merge leaves nothing out |
| `TreeLevel.CopySpares` | src/kanibako/boxfs.py:568-643 | at every step of a merging copy, and however it ends, each destination entry the source does not name is as it was, and so is the source |
| `TreeLevel.MoveEnds` | src/kanibako/boxfs.py:844-930 | for two such directories, a move takes the entry from one to the other, or leaves the source as it was and the destination all it had, or leaves the entry in both |
| `TreeLevel.MoveIsRefused` | src/kanibako/boxfs.py:844-930 | onto a free name or a link, what is refused is exactly a directory onto the link, or a special file across devices |
| `TreeLevel.RemovalEnds` | src/kanibako/boxfs.py:671-700 | a removal leaves the other entries as they were, also where it fails part-way, and nothing of the entry where it comes through |
| `TreeLevel.RemoveEntry` | src/kanibako/boxfs.py:671-700 | the removal of an entry of a directory that holds a tree: the other entries stay, and nothing of it is left, its directories emptied, or a call failed |
| `Restore.MoveEntries` | src/kanibako/snapshots.py:473-528 | what is on the done list is whole at the destination, the rest whole at the source, and the destination keeps what it had, whichever call fails |
| `Restore.CopyRest` | src/kanibako/snapshots.py:511-528 | the entries a rename cannot move are copied together, and removed only when nothing was left out |
| `Restore.RollBack` | src/kanibako/snapshots.py:1021-1029 | a roll-back that comes through puts the old contents back exactly; one that fails leaves each old entry whole in the vault or the backup |
| `Restore.Swap` | src/kanibako/snapshots.py:994-1044 | moving the live contents aside and the staged in ends with the snapshot in place, the old contents put back, or each old entry safe |
| `Restore.RestoreSnapshot` | src/kanibako/snapshots.py:867-1051 | all or nothing: a normal return leaves the vault equal to the snapshot, an error equal to its old contents, and a failed undo loses no entry; an earlier backup is never touched; without a failed call, a missing snapshot or an earlier backup the restore comes through.  The backup is gone unless the undo failed, or its removal did; the staging directory unless its removal did; after a failed undo the backup is there if and only if it was made |
| `Restore.RestoreTwice` | src/kanibako/snapshots.py:935-1049 | after a restore whose calls all succeed, a second one is not refused |
| `Relocate.OverlapIsSharing` | src/kanibako/snapshots.py:243-259 | two stores that can be resolved overlap if and only if some path is below both, but for two spellings of one directory that the system does not say are one; of others the spelling and the system decide |
| `FreeNames.CandidatesDiffer` | src/kanibako/snapshots.py:294-310 | no two names tried for a snapshot are the same |
| `FreeNames.CandidatesAre` | src/kanibako/snapshots.py:294-310 | the names tried, in their order: the snapshot's own, the one with its owner's, and counted ones |
| `FreeNames.UniqueDest` | src/kanibako/snapshots.py:294-310 | the search ends at the first name, in the order tried, at which nothing is seen, links followed |
| `Relocate.MoveEntry` | src/kanibako/snapshots.py:460-463 | a snapshot is removed at its source only once it is whole under its new name; a move that does not land touches no entry |
| `Relocate.CarryEntries` | src/kanibako/snapshots.py:857-861 | the destination keeps its old entries and gains each carried one under a free name of its own, however the carry ends, if every name found free is free; and where no call fails, only if |
| `Relocate.ApartLandsFree` | src/kanibako/snapshots.py:857-861 | that is so, whatever the links, when no carried name is in the destination; then all are carried but special files across devices |
| `Relocate.DirsLandFree` | src/kanibako/snapshots.py:857-861 | it is so when the carried entries are directories, as snapshots are |
| `Relocate.NoLinksLandFree` | src/kanibako/snapshots.py:857-861 | and when neither store holds a link |
| `Relocate.LinkReplaced` | src/kanibako/snapshots.py:294-310 | a carry where it is not: a file lands on a destination link that leads nowhere, because the free-name test follows links |
| `Relocate.Carry` | src/kanibako/snapshots.py:843-864 | overlapping stores and ways refused for a link change nothing; a missing store is moved whole; an existing one is merged into as `CarryEntries` does; without a failed call it comes through if and only if no move is refused |
| `Relocate.Relocate` | src/kanibako/snapshots.py:796-864 | the old name in the new base is carried only where that base is the box's own; there is nothing to carry exactly where neither store is the box's, real, and apart from the destination; the store not carried is not touched |
| `Lifecycle.TransitionIs` | src/kanibako/box_lifecycle.py:114-132 | a detach is exactly the loss of a surface, also when another appears; an attach exactly a gain without loss; none exactly no change |
| `WatchLoop.LossFires` | src/kanibako/box_supervisor.py:1456-1500 | a surface there at one committed snapshot and gone at the next that is compared fires the detach hook, across any ticks that raise: in both loops |
| `WatchLoop.RestartUntilAlive` | src/kanibako/box_supervisor.py:1212-1226 | restarts stop at the first that leaves the agent alive or raises, else after the bound, with a wait twice as long after each but the last |
| `WatchLoop.HealedIs` | src/kanibako/box_supervisor.py:1212-1226 | a retry heals if and only if an attempt leaves the agent alive and all before it fell short; it is used up if and only if all fall short |
| `Supervisor.RunForever` | src/kanibako/box_supervisor.py:1391-1504 | over any run: the hook fires exactly at losses since the last committed snapshot, restarts happen exactly where allowed, the loop returns exactly at the first closing tick or used-up restart, and with the right code |
| `Supervisor.Pass` | src/kanibako/box_supervisor.py:1424-1502 | one tick, whatever raises in it: hook, end latch, restart, commit, and the code it returns |
| `Supervisor.PassIs` | src/kanibako/box_supervisor.py:1424-1502 | each pass of a run, in the answers of its probes alone: when the agent is restarted, the box closes, a snapshot is committed and the hook fires; and which pass is the last |
| `Supervisor.EndIsFinal` | src/kanibako/box_supervisor.py:1459-1499 | after an END tick the agent is never restarted, and the next dead-agent tick without VS Code whose end can be read closes the box with code 0 |
| `Supervisor.TeardownRun` | src/kanibako/box_supervisor.py:1462-1499 | a run under the teardown policy never restarts the agent; it returns exactly at the first tick with the agent dead, no VS Code and an end that can be read, and with the agent's own status where one is known, else 70 or 1 |
| `Markers.MarkerDir.Scan` | src/kanibako/box_supervisor.py:435-485 | a scan parts the markers into live and stale and removes exactly the stale; none that is alive and not judged otherwise, nor one a probe raised on; a directory that cannot be listed shows none |
| `Markers.ReportsBounded` | src/kanibako/box_supervisor.py:435-485 | the scans of any run report no more stale markers than there were at the start or were written |
| `Markers.ReportedOnce` | src/kanibako/box_supervisor.py:447-450 | a stale marker is reported by one scan and by no later one, unless it is written again |
| `Markers.UnjudgedStays` | src/kanibako/box_supervisor.py:452-456 | a marker that no scan judges stale is never removed |
| `Panel.RunPanelWatch` | src/kanibako/box_supervisor.py:1506-1573 | over any run: teardown exactly at ticks with no surface, no live CLI and a first scan that reports no live panel agent, after some surface was seen; a CLI started exactly when the first scan reports the panel agent dead and none alive, VS Code is connected and no CLI alive; the detach hook exactly at losses since the last committed snapshot |
| `Panel.Pass` | src/kanibako/box_supervisor.py:1524-1571 | one tick, whatever raises in it, a listing of the markers included, with the markers directory it leaves behind |
| `Panel.PassIs` | src/kanibako/box_supervisor.py:1524-1571 | each pass of a run, in the answers of its probes alone: it closes the box if and only if neither surface is attached, no agent is seen alive, and some snapshot up to it, or that of the start, differed from that |
| `Panel.MarkersAfter` | src/kanibako/box_supervisor.py:435-485 | which markers a pass leaves, in the answers of its two scans |
| `Panel.HealsBounded` | src/kanibako/box_supervisor.py:1198-1208 | the ticks that start a CLI number at most the markers at the start and ever written |
| `Panel.DeathCountsIff` | src/kanibako/box_supervisor.py:1539-1571 | a death is counted by a decision if and only if the scan that first reports it is the first scan of a tick that comes to its decision; and then by that one alone |
| `Panel.CountedStartsIff` | src/kanibako/box_supervisor.py:1554-1566 | a decision that counts a death starts a CLI if and only if its scan reports no other agent alive, none is alive in the session, and VS Code is connected |
| `Panel.RaisedIsNotRepeated` | src/kanibako/box_supervisor.py:1562-1571 | after a decision no CLI is started for a marker that was stale then, also where its start raised, unless the marker is written again |
| `Panel.DeathLost` | src/kanibako/box_supervisor.py:1539-1571 | runs that lose a death: it falls between the two scans, its tick raises before it decides, or the start of the CLI raises; VS Code stays connected, and no CLI is ever started later |
| `Panel.LeftAreOverlooked` | src/kanibako/box_supervisor.py:1198-1208 | the panel agents alive at the second scan of a tick whose first reported none are exactly those the first could not list, could not judge or took for the CLI, and those that came up after it |
| `Panel.ActsAloneIff` | src/kanibako/box_supervisor.py:1539-1571 | a tick that tears down or starts a CLI leaves no panel agent alive at its second scan if and only if there is none of these |
| `Panel.SureIff` | src/kanibako/box_supervisor.py:1198-1208 | no answer of the second probes can show such a decision wrong if and only if nothing was overlooked but markers of the CLI and files that name no process |
| `Panel.TornDownOver` | src/kanibako/box_supervisor.py:295-300 | runs that tear the box down over an agent alive at the second scan: the first could not list, could not judge, or came before it |
| `Panel.StartedBeside` | src/kanibako/box_supervisor.py:475-477 | a run that starts a CLI beside a panel agent on which a probe raised |
| `Takeover.TargetIsSafe` | src/kanibako/box_supervisor.py:1007-1035 | a group kill never targets group 0 or 1, and targets the supervisor's own exactly when the system does not answer which that is and the pid is in it |
| `Takeover.Signaller.KillAgentSession` | src/kanibako/box_supervisor.py:1037-1043 | where nothing raises, the group of each listed pid above 1 is sent its kill, unless it is group 0 or 1 or the one known to be the supervisor's, before one last kill of the session; no other group is |
| `Takeover.Signaller.TakeOver` | src/kanibako/box_supervisor.py:1157-1196 | on every path, failures included, the signals sent are pauses in ascending order, warning and wait, kills, and one resume for each process stopped; when nothing goes wrong every newcomer is sent a stop, and the incumbent is evicted, each of its groups with it, iff one took effect |
| `Takeover.StoppedIsResumed` | src/kanibako/box_supervisor.py:1157-1196 | every newcomer that was stopped is sent SIGCONT later |
| `Takeover.KillsAreDue` | src/kanibako/box_supervisor.py:1157-1196 | a kill comes after a stop that took effect and after the grace wait, while every stopped newcomer still is |
| `Frames.IterFrames` | src/kanibako/channels/helper_client.py:45-84 | however the stream is cut into reads, the frames and the refusal are those of the whole stream, and each received byte is scanned at most once |
| `Frames.EndIs` | src/kanibako/channels/helper_client.py:45-84 | the first error, stop or end of the stream decides how a reader ends, and what it receives is what came before |
| `Frames.TakeLines` | src/kanibako/channels/helper_client.py:73-84 | one read: its complete lines leave the buffer, and only its bytes are scanned |
| `Frames.RefusedIff` | src/kanibako/channels/helper_client.py:79-84 | a stream is refused if and only if a line or its unterminated tail is over the limit |
| `Frames.DeliveredIff` | src/kanibako/channels/helper_client.py:73-84 | a line is delivered if and only if it holds a byte that is not blank, and it and all before it are within the limit |
| `Frames.TooLargeStays` | src/kanibako/channels/helper_client.py:79-84 | once a stream is over the limit, more bytes change nothing that is delivered |
| `Frames.SentIsDelivered` | src/kanibako/channels/helper_client.py:33-42 | a reader delivers exactly the frames that were sent, whatever they are, within the limit |
| `Demux.StepKeeps` | src/kanibako/channels/helper_client.py:121-307 | every step of every caller, of the reader and of the hub keeps the invariant |
| `Demux.OwnResponse` | src/kanibako/channels/helper_client.py:288-307 | in every interleaving the k-th request gets the k-th response, or none once the reader is gone |
| `Demux.PushesInOrder` | src/kanibako/channels/helper_client.py:214-229 | pushes are returned in order, none lost, none twice; while the reader runs the rest are queued or on the wire |
| `Demux.ClosureSeen` | src/kanibako/channels/helper_client.py:259-307 | once the reader is gone every later request sees closure, and no waiting caller is left without a sign |
| `Demux.ComesBackIff` | src/kanibako/channels/helper_client.py:214-229 | a caller of recv that saw a socket can come back if and only if close had not yet replaced the inbox when it looked it up, or it set a timeout |
| `Demux.RecvStuck` | src/kanibako/channels/helper_client.py:231-257 | a run where it cannot: close runs between the check and the look-up, and recv without a timeout waits on a queue nothing fills |
| `Demux.HelperConnection.RouteFrame` | src/kanibako/channels/helper_client.py:94-118 | a frame goes to the queue its shape names; one of neither shape ends the reader |
| `Demux.HelperConnection.TakeResponse` | src/kanibako/channels/helper_client.py:299-307 | the waiting caller takes the oldest item and releases the lock; a closed sign is owed back |
| `HelperTree.ExistingHelpers` | src/kanibako/channels/helpers.py:297-323 | the helper numbers of a level, sorted, or a refusal when an entry cannot be read |
| `HelperTree.Listed` | src/kanibako/channels/helpers.py:310-323 | a number is listed if and only if the name of some helper directory of the level reads as it |
| `HelperTree.Walk` | src/kanibako/channels/helpers.py:336-357 | the walk with its own stack gives exactly the recursive post-order, and ends |
| `HelperTree.WalkIsDisk` | src/kanibako/channels/helpers.py:336-357 | the walk lists every helper on disk and nothing else if and only if every helper directory has the name its number is written as |
| `HelperTree.PostDeepestFirst` | src/kanibako/channels/helpers.py:336-357 | where names are canonical each helper is listed once, and after the helpers below it |
| `HelperTree.SeededPastIff` | src/kanibako/channels/helper_listener.py:122-124 | the counter a hub starts with is past every helper on disk if and only if what is below oddly named directories has no greater numbers than what is listed |
| `HelperTree.OddTreeIsMissed` | src/kanibako/channels/helpers.py:336-357 | a tree where it is not: helper 7 inside a directory named "01"; helper 1 alone is listed |
| `Hub.NumbersGoUp` | src/kanibako/channels/helper_listener.py:416-421 | over any requests the numbers handed out go up, each past the seed and past every number handed out or launched before |
| `Hub.HandsOutIff` | src/kanibako/channels/helper_listener.py:416-421 | exactly the numbers past the seed can be handed out |
| `Hub.HandedIsNewIff` | src/kanibako/channels/helper_listener.py:116-128 | no run hands out the number of a helper that was on disk at the start if and only if what is below oddly named directories has no greater numbers than what is listed |
| `Hub.HandedIsNew` | src/kanibako/channels/helper_listener.py:116-128 | so it is where every helper directory has its number's own name |
| `Hub.SeventhIsTaken` | src/kanibako/channels/helper_listener.py:116-128 | a hub that starts on that tree hands out 7 as its sixth number |
| `Hub.NeverRebound` | src/kanibako/channels/helper_listener.py:460-472 | a number with a held container keeps its home for the rest of the hub's life, and no other number has that home |
| `Hub.RunNests` | src/kanibako/channels/helper_listener.py:445-472 | over any run every helper's home is in the director's directory, or in the helpers directory of another home a helper was launched into |
| `Hub.HelperHub.HandleSpawn` | src/kanibako/channels/helper_listener.py:423-552 | a spawn is placed under its requester, refused when the number is another home's, and a failed launch gives the reservation back |
| `Hub.SpawnIs` | src/kanibako/channels/helper_listener.py:423-552 | the answer to a spawn and what it leaves, read off the homes held |
| `Hub.HelperHub.HandleStop` | src/kanibako/channels/helper_listener.py:576-645 | a held container is asked to stop and go, and no longer held whatever the runtime answers; where a call raises, the client is dropped and the container stays held; any other name is only asked about |
| `Hub.StopIs` | src/kanibako/channels/helper_listener.py:576-645 | the answer to a stop: a container that is held is asked to go, and nothing else is |
| `Hub.OnlyOwnAreHalted` | src/kanibako/channels/helper_listener.py:576-645 | whatever is asked, a hub stops only containers it launched and has not let go of since, and holds exactly those |
| `Hub.HoldsAllIff` | src/kanibako/channels/helper_listener.py:631-645 | a hub holds every container it launched that is not gone if and only if there is none whose stop the runtime refused and that was not launched again; such a one it no longer stops |
| `Hub.RefusedStopIsLost` | src/kanibako/channels/helper_listener.py:631-645 | a run that loses a running container: a refused stop is answered as done, the next as for a container of others |
| `Hub.RegistrationStays` | src/kanibako/channels/helper_listener.py:375-386 | over any requests, a connection holds a number at the end if and only if it took it at some point and no later request was its own unregister or a newer registration |
| `Hub.LateCloseKeeps` | src/kanibako/channels/helper_listener.py:375-386 | a registration outlives the late close of an older connection |
| `Hub.OwnCloseEnds` | src/kanibako/channels/helper_listener.py:375-386 | its own connection's unregister ends it |
| `HubDaemon.Watch` | src/kanibako/channels/hub_daemon.py:298-342 | the watch exits at the first tick whose last reads were all misses and where the box was seen or had its time, and never otherwise; every other tick rebinds iff the hub was not listening |
| `HubDaemon.LiveReadPutsOff` | src/kanibako/channels/hub_daemon.py:78-91 | a live read puts the exit off by the miss limit |
| `Budgets.TreesBounded` | src/kanibako/channels/helpers.py:54-69 | no tree reachable by spawns and removals is deeper than d or holds more than b + ... + b^d helpers |
| `Budgets.FullMeets` | src/kanibako/channels/helpers.py:63-69 | both bounds are met by the tree in which every helper spawns all it may |
| `Budgets.ReachedIff` | src/kanibako/channels/helpers.py:54-69 | the trees that spawns and removals reach are exactly those in which each helper has no more children than its budget, at no more than its depth |
| `Budgets.FlagsRaiseNothing` | src/kanibako/channels/helpers.py:72-90 | no flag changes a handed-down budget or one the settings give, and no setting changes a handed-down one |
| `Keyspec.ParseSections` | scripts/keyspec-extract.py:126-185 | the sections found are exactly those the headings outside fences declare, preambles included; or an id is named that is declared twice |
| `Keyspec.FencesAlternate` | scripts/keyspec-extract.py:126-145 | from a fence to the next, lines are inside one exactly if those before it were not |
| `Keyspec.HeadingIsRead` | scripts/keyspec-extract.py:98-99 | a numbered heading as it is written is read back: its level, its title and its id, with a section sign or without |
| `Keyspec.IdIs` | scripts/keyspec-extract.py:99 | an id is digits and then letters, with a dot and a space after it |
| `Keyspec.FenceIs` | scripts/keyspec-extract.py:97 | a fence is a line of at most three spaces and then three backticks or tildes |
| `Keyspec.SectionsNest` | scripts/keyspec-extract.py:154-185 | sections are pairwise nested or disjoint, preambles included |
| `Keyspec.ParentTiled` | scripts/keyspec-extract.py:157-184 | a section whose first child is numbered is exactly tiled by its preamble and its chained children |
| `Keyspec.TiledOnce` | scripts/keyspec-extract.py:157-184 | every line of a tiled range is in exactly one tile |
| `Keyspec.ChainDeclared` | scripts/keyspec-extract.py:154-169 | each numbered section of the chain is declared |
| `Keyspec.TwiceIsTwoHeadings` | scripts/keyspec-extract.py:145-184 | an id is refused only when two numbered headings carry it: a preamble clashes with nothing |
| `Coverage.CoverageGaps` | scripts/keyspec-extract.py:188-208 | the gaps are the maximal runs of lines nobody asked for, all of them, in order, each named by its neighbours |
| `Coverage.GapLineIff` | scripts/keyspec-extract.py:188-208 | a line is in one of the gaps if and only if nobody asked for it |
| `Coverage.ExactIsUnique` | scripts/keyspec-extract.py:188-208 | only one list of ranges is that |
| `Coverage.CoverageSummary` | scripts/keyspec-extract.py:242-262 | the covered count is the size of the union of the requested sections |
| `Kuid.DecodeEncode` | src/kanibako/kuid.py:39-61 | every value below 2^25 decodes back to itself, and its text is canonical |
| `Kuid.EncodeDecode` | src/kanibako/kuid.py:50-61 | whatever decodes encodes to its own canonical form |
| `Kuid.Encode` | src/kanibako/kuid.py:39-47 | the loop writes the base-32 digits, most significant first, and refuses a value out of range |
| `Kuid.Decode` | src/kanibako/kuid.py:50-61 | the loop reads the canonical form, and refuses a wrong length and a character not in the alphabet |
| `Kuid.CanonicalizeIs` | src/kanibako/kuid.py:64-71 | the input rules character by character: hyphens go, letters are lowered, and o, i and l are read as 0, 1 and 1 |
| `Kuid.CanonicalizeFixed` | src/kanibako/kuid.py:64-71 | folding twice is folding once; the fixed points are the strings no input rule changes |
| `Kuid.AssembledIsValid` | src/kanibako/kuid.py:87-98 | every assembled kuid is valid and never the sentinel |
| `Kuid.AssembledFields` | src/kanibako/kuid.py:87-98 | the milliseconds and the random bits can be read back from an assembled kuid |
| `Kuid.OneBitFlipsValidity` | src/kanibako/kuid.py:74-84 | inverting any one of the 25 bits turns a valid kuid invalid, and an invalid one valid |
| `Kuid.SentinelIsZero` | src/kanibako/kuid.py:20-25 | the sentinel is the text of zero and is not valid |

## Left out

- Modes, times, owners and extended attributes: a file is its bytes, a link its text.
- The widening of read-only directories on a forced removal: removal is a primitive that may fail part-way.
- `Walk.Walker.OpenDirs`: the swaps of the box are the states between two calls; what happens inside one system call is not modelled.
- `BoxFs.BoxDisk.CopyEntries`: the box changes nothing while a copy runs; the walk alone is proved against any change.
- `Moves.MoveDir`: what the box writes in the new directories comes after the copy, and a copy it came between counts as one that left something out.
- `TreeLevel.MoveEnds`: a rename onto another name of the same inode does nothing; the two directories have no directory in common.
- `Merge.CarriedWhole`: sockets, FIFOs and devices are not carried across devices and not reported; moves and restores are stated for what a copy carries.
- `CopyTree.ForestApart`: a followed link whose target cannot be read is one that leads nowhere.
- `Restore.RestoreSnapshot`: at the level of trees; the vault's old contents and the snapshot hold no special file; the safety snapshot and the staging copy are exact or fail; an interrupt that is not an `Exception` is not modelled.
- `Restore.MoveEntries`: names are taken in any order.
- `Relocate.Relocate`: the base is already marked; the resolving of a repointed base, the sweep of a legacy flat layout and the adoption of a renamed standalone store are not modelled.
- `Relocate.Carry`: what the check for links met on the way to each store is an input (`Walk.Walker.FirstSymlink` says what it is).
- `Relocate.CarryEntries`: whether a link leads somewhere is a function of what the two stores hold.
- `Supervisor.RunForever`: the takeover flag is off; the freshness check of directives and the printed output are not modelled; SIGTERM is the flag seen before a pass.
- `Panel.RunPanelWatch`: the newcomer report is only whether it raised; a markers directory is configured.
- `Markers.MarkerDir.Scan`: a removal succeeds, and no one else removes a marker; what the probes say of a pid is an input.
- `Takeover.Signaller.TakeOver`: a signal is sent or refused by the system; another error may come before any step but not inside a resume.
- `Frames.IterFrames`: a frame is bytes; JSON is not modelled, only that a JSON text is on one line and not blank.
- `Demux.OwnResponse`: a request is written in one step, the hub answers each request once and in order, and a request whose write fails is not sent.
- `Demux.ComesBackIff`: one connection; the fresh queues that `close` leaves are those of a later `connect`, which is not modelled.
- `Hub.NeverRebound`: each handler is one step; a container is known by the number its name is rendered from, and `render_container_name` (utils.py) is not part of this model.
- `Hub.HelperHub.HandleSpawn`: mounts, documents and stale containers are part of whether the launch succeeds.
- Message routing, broadcast, fork and the shutdown sweep of the hub.
- `Budgets.TreesBounded`: the defaults of the budgets (settings/bootstrap.py) are a parameter; bootstrap.py is not part of this model.
- `Keyspec.ParseSections`: spaces are the ASCII ones.
- `Coverage.CoverageSummary`: the numbers, not the text.
- `Kuid.CanonicalizeFixed`: lower-casing is that of ASCII letters.
- Not modelled: `tweakcc_cache.py`, `bun_sea.py`, `agent_ref.py`, `identifiers.py`, the commands, the VS Code wiring and the browser automation.
