# A verified model of the ROX-Filer core

This project models, in Dafny 4.11, the parts of the file manager that keep state and can lose data, and proves
what they promise. `dafny verify dfyconfig.toml` checks all of it.

- **Copy, move, delete** (`paths`, `kernel`, `child`, `conflicts`, `copy`, `copy_theorems`, `move`, `move_theorems`,
  `delete`, `empty_dirs`): the recursive engines of `action.c`, as methods that issue one system call at a time on a mutable
  file tree (`Kernel.nodes`, a map from path to file, link or directory with mode and time). A call that changes
  something or reads a directory may fail at any moment (`faulty`), and `lstat` fails for any fixed set of paths
  (`blind`); answers come from an oracle, which records every question and every answer, and the conflict policy and
  the flags may change in mid-run.
  `Copying.AnyRun`, `Moving.AnyMove` and `Deleting.Deleted` hold of every run; `ExactBut` says path by path, with no
  order of steps in it, what a run leaves in which no call fails: exactly the plan (`WhenAgreed`) at every path outside
  the refused places. If one answer is to skip everything that exists, a path may also be left alone, but only as part
  of something that stood below the destination and is left alone as a whole (`Copying.LeftAlone`, `Moving.HeldFor`);
  what had nothing in its way still arrives. `Exact` is the plan with nothing refused; `CopyTheorems` and
  `MoveTheorems` say what it comes to for each policy, in terms of contents and times alone. A deletion asks what it
  has to ask and nothing else (`Deleting.Questioned`).
- **Messages** (`framing`): four hex digits and a body, over a pipe whose reads return what happens to have arrived,
  or an error.
- **Directory cache** (`dir_views`, `dir`): the items, the pending arrays, the recheck list, the timers, and for
  every user the log of messages it was sent. `View` is what the messages say is there; `ViewByName` is what a window
  shows, which drops items by leaf name and is rebuilt from the table at the end of a scan. Each rescan hands out what
  the disk said (`Reading`), and what follows from it is stated for the table, the list and every log
  (`Directory.Rescanned`). `cares` says which names a window asks to be rechecked. `Directory.Valid` holds between any
  two operations, `Dirs.AnyRun` composes them in any order, and `Dirs.ScanToEnd` ends every scan.
- **Collection** (`grid`, `items`, `collection`): the growing array with its selection count, cursor, two layouts,
  lasso, in-place filter, sort and binary search; `display` has the comparison functions the last two rely on.
- **Drive monitor** (`drives`): requests from any thread, one scan at a time, weakly held subscribers whose
  callbacks may subscribe others. `Interfere` stands for whatever other threads do between two steps.
- **Search** (`search_spec`, `search`): depth first over directories that may lead back to each other;
  `search_promises` says in terms of the entries what the options promise.
- **Bulk rename** (`bulk_rename`, `subst`) and the **history list** (`history`).

What the environment says is nondeterministic or a parameter: failures, answers, directory order, what `lstat`
finds, which thread runs. `cp -p` is a copy of one file with its metadata, `mv` takes a whole subtree or nothing, the
C library's `qsort` returns a sorted permutation, and a link that is copied or a directory that is entered gets its
time from the kernel (`Like` ignores exactly these times).

Where the code and what one would expect of it part, the model follows the code:

- An empty message ends the conversation, so the framing round trip holds exactly when no message is empty
  (`Framing.RoundTrip`).
- `insert_item` is meant to skip `.` and `..` but looks for a newline after them (`ROX-Filer/src/dir.c:596-598`), so it
  skips neither (`Dirs.FoundIsTaken`). A listing has dropped these names already, but `dir_update_item` and
  `dir_check_this` take any name: `Dirs.ShowsDot` puts an item named `.` into a window.
- The views agree with the cache exactly as long as no unlisted name is inserted twice between two merges
  (`DirViews.DoubledExactly`; `Dirs.AddsTwice` is a run that does it). A window drops items by leaf name
  (`ROX-Filer/src/filer.c:381-394`), so it loses an item whose name was both gone and new in one merge, and only then
  (`DirViews.ByNameExactly`; `Dirs.LosesReturned` is such a run). The next end of a scan puts every window right, since
  the window is then rebuilt from the table (`ROX-Filer/src/filer.c:645-712`; `Dirs.Directory.FinishScan`).
- A search of several roots that nothing disturbs is exhaustive whatever the tree and the roots exactly when
  `one_filesystem` or `recursive` is off, or every directory has a device number, or all device numbers that are
  reported are the same (`SearchSpec.ExhaustiveExactly`). Otherwise `Search.MissesWithoutDeviceNumbers` is a search
  that misses a directory.
- A bulk rename does not look at a dangling link: `access` takes it for nothing, and `rename` then replaces it. A run
  keeps every file and link exactly when no row replaces something (`BulkRenaming.RunLosesExactly`), and within one
  directory exactly when no link stands at a new name (`BulkRenaming.LosesExactly`); `BulkRenaming.LinkIsLost` is a list
  that loses one.
- A bulk rename whose list was accepted can stop halfway. Within one directory it goes through exactly when every old
  name is there, no link at a new name comes to lead anywhere, and no link at all stands at the new name of a directory,
  where `rename` fails (`BulkRenaming.AcceptedGoesThrough`). `BulkRenaming.LinkGetsInTheWay` and
  `BulkRenaming.FolderOntoLink` are lists that stop, and so is `BulkRenaming.FolderIntoItself`, where a confirmed slash
  takes a directory into itself.
- Sorting by owner is an order exactly when no two owners share a name, and sorting by group when no two groups do
  (`Display.OwnerRanksExactly`, `Display.GroupRanksExactly`).
- `do_copy` and `do_move` look only for a destination inside the source; that the source does not lie inside the
  destination is a precondition here.

## Model

| member | source | states |
|---|---|---|
| `Children.Child.ProcessFlag` | ROX-Filer/src/action.c:833-865 | a toggle changes its own flag and no other, and the text of an entry replaces the one before |
| `Children.Child.CheckFlags` | ROX-Filer/src/action.c:868-895 | the toggles that have come are all obeyed, in order; without anybody at the window nothing changes |
| `Children.FlippedExactly` | ROX-Filer/src/action.c:833-865 | which letter stands for which flag |
| `Children.Child.Prompt` | ROX-Filer/src/action.c:901-944 | a question is recorded with what it is about and the answer it got |
| `Children.Child.Reply` | ROX-Filer/src/action.c:901-944 | a quiet run is never asked unless the question insists; otherwise it asks once about this path, only Y is a yes, and a no is remembered against the path |
| `Children.Child.ConflictReply` | ROX-Filer/src/action.c:948-1000 | replace-all and skip answer by themselves and stay; otherwise there is one question about this path, Y and N decide it alone, and A and S change the policy for good |
| `Conflicts.ClearAway` | ROX-Filer/src/action.c:2290-2304 | a leaf or an empty directory goes, a directory with something in it never does |
| `Conflicts.SettleConflict` | ROX-Filer/src/action.c:2264-2288 | skip and update-newer answer by themselves, replace-all and a merge agreed to go on, and else the user is asked; the answer is the one the policy comes to |
| `Conflicts.MakeWay` | ROX-Filer/src/action.c:2257-2315 | an item goes on exactly when the policy lets it and the user does not refuse; it asks about this path exactly when the policy leaves it open; a refusal changes nothing; at most the childless entry at the destination is cleared |
| `Copying.DoCopy2` | ROX-Filer/src/action.c:2240-2430 | every run: only the destination subtree changes, each path in it becomes its planned copy, stays, or is lost only if it was a childless entry cleared away; refused places are untouched; when no call fails everything outside the refused places is exactly as planned for the policy, except what stood at the destination and was left alone as a whole after an answer to skip all |
| `Copying.CopyDir` | ROX-Filer/src/action.c:2317-2380 | a directory is made with the source's mode and time although it is first made wider and then filled, or merged into the one there |
| `Copying.CopyContents` | ROX-Filer/src/action.c:658-694 | the walk settles every child once, keeps the source and leaves the others waiting as they were; the new leaf name of the top level never reaches them |
| `Copying.FillDir` | ROX-Filer/src/action.c:2348-2375 | contents first, then mode and time of a directory that was made |
| `Copying.PutCopy` | ROX-Filer/src/action.c:2317-2430 | once the way is free the plan is carried out |
| `Copying.CopyLeaf` | ROX-Filer/src/action.c:2381-2430 | a link is made anew with its target, a file comes with all its metadata; or nothing changes |
| `Copying.DoCopy` | ROX-Filer/src/action.c:2590-2599 | an object is not copied onto or into itself; otherwise as DoCopy2, and the source is unchanged |
| `Copying.StepExact` | ROX-Filer/src/action.c:658-694 | one child copied keeps the children done as planned, but for the places refused |
| `Copying.Skipped` | ROX-Filer/src/action.c:2262-2265 | after an answer to skip all, a child that exists is left alone as a whole, and one that does not is copied as planned |
| `Copying.FreeArrives` | ROX-Filer/src/action.c:2240-2430 | whatever had nothing in its way and was not refused arrives in every run in which no call fails |
| `Copying.StepHonoured` | ROX-Filer/src/action.c:658-694 | what the user refused stays untouched while the walk goes on |
| `Copying.DirDone` | ROX-Filer/src/action.c:2348-2376 | settled children and the directory's own final stamp make up the whole plan |
| `CopyTheorems.CopyToFreeName` | ROX-Filer/src/action.c:2317-2430 | to a free name: an equal tree, mode and time of directories included |
| `CopyTheorems.OrderIrrelevant` | ROX-Filer/src/action.c:658-694 | two runs that follow the plan end the same whatever the order of the names |
| `CopyTheorems.ReplaceAllOutcome` | ROX-Filer/src/action.c:2262-2304 | replace-all overwrites leaves and merges directories, and never puts a leaf in the place of a directory with something in it |
| `CopyTheorems.UpdateNewerOutcome` | ROX-Filer/src/action.c:2266-2269 | update-newer: where a leaf meets something it can replace, the later of the two is there in the end, with its own content |
| `CopyTheorems.SkipExistingOutcome` | ROX-Filer/src/action.c:2262-2265 | skip-existing: to a free name everything is copied, and otherwise nothing changes |
| `CopyTheorems.SafeInAnyRun` | ROX-Filer/src/action.c:2240-2430 | in every run what has no counterpart stays, and so does a directory that has something in it or meets another; a leaf at the destination was there before or is a copy |
| `CopyTheorems.CopyTwice` | ROX-Filer/src/action.c:2240-2430 | a second copy changes nothing more |
| `CopyTheorems.SameShapeSameTree` | ROX-Filer/src/action.c:2240-2430 | agreement path by path is equality of trees |
| `CopyTheorems.CopyMergesTrees` | ROX-Filer/src/action.c:2240-2430 | step-by-step copying with replace-all is the recursive merge of two trees |
| `Moving.DoMove2` | ROX-Filer/src/action.c:2433-2585 | every run conserves what is moved and changes nothing outside the two subtrees; refused places and what was to go there are untouched; when no call fails everything outside the refused places is exactly as planned, except what stood at the destination and was left alone as a whole after an answer to skip all |
| `Moving.MergeDirs` | ROX-Filer/src/action.c:2535-2545 | directories that meet are merged, and the source's goes exactly when nothing is left in it |
| `Moving.MoveContents` | ROX-Filer/src/action.c:658-694 | the walk settles each pair of children and leaves the other pairs as they were |
| `Moving.MoveAway` | ROX-Filer/src/action.c:2546-2560 | `mv` of a whole subtree to the cleared name, or nothing |
| `Moving.PutMove` | ROX-Filer/src/action.c:2514-2560 | once the way is free the plan is carried out |
| `Moving.DoMove` | ROX-Filer/src/action.c:2604-2614 | an object is not moved onto or into itself; otherwise as DoMove2 |
| `Moving.LeafAtOnePlace` | ROX-Filer/src/action.c:2433-2585 | in every run each source leaf is, with its content, at exactly one of its old path and its image; a destination directory with something in it is safe |
| `Moving.LeftOver` | ROX-Filer/src/action.c:2535-2545 | something is left in a merged source directory exactly when a leaf that the policy refuses, or a place refused by the user or skipped, is below it |
| `Moving.ClosedExact` | ROX-Filer/src/action.c:2538-2544 | the final rmdir makes a merged source directory go exactly when it should |
| `Moving.StepExact` | ROX-Filer/src/action.c:658-694 | one child moved keeps the others as planned, what the user is asked about later included |
| `Moving.Skipped` | ROX-Filer/src/action.c:2433-2585 | after an answer to skip all, a child that exists is left alone as a whole, and one that does not is moved as planned |
| `Moving.FreeMoves` | ROX-Filer/src/action.c:2433-2585 | whatever had nothing in its way and was not refused is moved in every run in which no call fails |
| `Moving.StepTidy` | ROX-Filer/src/action.c:658-694 | merged directories stay tidy while the walk goes on |
| `MoveTheorems.MoveToFreeName` | ROX-Filer/src/action.c:2546-2560 | to a free name: the whole tree is there as it was, and gone from its old place |
| `MoveTheorems.SafeInAnyMove` | ROX-Filer/src/action.c:2433-2585 | in every run nothing changes where nothing is to be moved, directories that meet stay or leave only the place of the source, and any other directory is at one of its two places |
| `MoveTheorems.UpdateNewerMoves` | ROX-Filer/src/action.c:2463-2466 | update-newer: the later of two leaves is at the destination in the end; the older one is gone if it was there, and left at the source if it was not to be moved |
| `MoveTheorems.ReplaceAllMoves` | ROX-Filer/src/action.c:2463-2530 | replace-all: a leaf arrives wherever no directory with something in it is in its way, and is left at the source otherwise |
| `MoveTheorems.SkipExistingMoves` | ROX-Filer/src/action.c:2461-2462 | skip-existing: to a free name everything is moved, and otherwise nothing changes |
| `MoveTheorems.DirectoriesMeet` | ROX-Filer/src/action.c:2535-2545 | directories that meet become one, whatever their age, with the mode of the one that was there |
| `Deleting.DoDelete` | ROX-Filer/src/action.c:1208-1279 | exactly the refused subtrees, the entries that would not go and their ancestors survive; what had to be asked about and is gone was asked about, and nothing else was; every refusal is honoured, everything that survives has a cause in this run, and a smooth run leaves nothing |
| `Deleting.MayDelete` | ROX-Filer/src/action.c:1224-1240 | one entry is asked about exactly when the run is not quiet, or it is protected, no link and not forced |
| `Deleting.QuestionsDue` | ROX-Filer/src/action.c:1224-1240 | a run that is not quiet removes nothing unasked, one without force nothing protected; a quiet run asks only about what is protected, with force about nothing |
| `Deleting.QuestionedOn` | ROX-Filer/src/action.c:658-694 | questions about one child are added to those about the children before |
| `Deleting.DeleteDir` | ROX-Filer/src/action.c:1247-1255 | a directory goes exactly when it has been emptied |
| `Deleting.RemoveEmptied` | ROX-Filer/src/action.c:1250-1255 | the rmdir after the contents takes the directory when nothing was held back below |
| `Deleting.DeleteContents` | ROX-Filer/src/action.c:658-694 | the children are dealt with one by one, the others waiting as they were |
| `Deleting.HeldBack` | ROX-Filer/src/action.c:1247-1255 | a directory still has something in it exactly when something below was held back |
| `EmptyDirs.RemoveEmptySourceDirs` | ROX-Filer/src/action.c:2133-2157 | without failures exactly the directories with no non-directory below them go; in any run no file or link does |
| `EmptyDirs.CleanContents` | ROX-Filer/src/action.c:2138-2155 | the directories in it are cleaned one by one, the other entries waiting as they were |
| `EmptyDirs.LeftExactlyWithLeaf` | ROX-Filer/src/action.c:2143-2156 | a cleaned directory has something left in it exactly when a leaf is below it |
| `EmptyDirs.CleaningTwice` | ROX-Filer/src/action.c:2133-2157 | a second pass changes nothing |
| `Framing.Pipe.SendMsg` | ROX-Filer/src/action.c:747-759 | a message shorter than 0xffff is written as header and body, a longer one not at all |
| `Framing.Pipe.ReadExact` | ROX-Filer/src/action.c:697-709 | the bytes asked for however they are split; failure only when too few come or a read fails; nothing is lost or read twice |
| `Framing.Pipe.MessageFromChild` | ROX-Filer/src/action.c:624-647 | one message is taken off the front, or the conversation is over because nothing more can be read or a read fails |
| `Framing.Pipe.ReceiveAll` | ROX-Filer/src/action.c:624-655 | all messages of the stream, in order, or those before a read that fails |
| `Framing.Hex4RoundTrip` | ROX-Filer/src/action.c:631-637 | a header of four hex digits reads back as the length |
| `Framing.DigitsOfHex` | ROX-Filer/src/action.c:631-637 | the digits are those of `%x`, and are read back in either case |
| `Framing.StreamDecoded` | ROX-Filer/src/action.c:624-647 | what is sent arrives up to the first empty message |
| `Framing.RoundTrip` | ROX-Filer/src/action.c:624-647 | the round trip holds exactly when no message is empty |
| `Framing.Converse` | ROX-Filer/src/action.c:747-759 | writer and reader together: what is received is what was sent up to the first empty message, or a front part of that when a read fails |
| `Dirs.Directory.DirAttach` | ROX-Filer/src/dir.c:140-182 | one more user, told everything known and in step. Of a directory that was marked the listing is taken, and the others hear of the scan first and then of what was pending, or everybody hears of the error; otherwise only what this window cares about joins the list, and a scan that is on goes on |
| `Dirs.Directory.DirDetach` | ROX-Filer/src/dir.c:185-214 | the first user with this token leaves, the others and the cache are untouched, and the scan stops with the last |
| `Dirs.Directory.RescanSoon` | ROX-Filer/src/dir.c:118-123 | a change leaves the directory marked with the timer armed |
| `Dirs.Directory.RescanTimeoutCb` | ROX-Filer/src/dir.c:105-116 | the timer only dies when the scan it stands for has been made or is on; the directory is read when it was marked, with what a rescan comes to |
| `Dirs.Directory.RecheckCallback` | ROX-Filer/src/dir.c:375-414 | one name off the list and rechecked; the last one ends the scan, and a rescan owed is made: the listing is taken and every user has heard of a new start |
| `Dirs.Directory.EndOfList` | ROX-Filer/src/dir.c:399-413 | what was pending is told, the scan ends with every window exact, and exactly when a rescan is owed it is made |
| `Dirs.Directory.IdleStep` | ROX-Filer/src/dir.c:375-414 | the same from the idle loop: the list one shorter, the name among those checked, and after the last one no scan, every window exact, or what the rescan that was owed has come to |
| `Dirs.Directory.RecheckFirst` | ROX-Filer/src/dir.c:384-394 | the first name of the list, and only that, is rechecked, and table and item say what the disk said |
| `Dirs.Directory.QueueInteresting` | ROX-Filer/src/dir.c:996-1004 | a window is asked for every flagged item it shows and cares about and for no other, and each of these is on the list afterwards |
| `Dirs.Directory.SetIdleCallback` | ROX-Filer/src/dir.c:695-718 | a scan is on exactly while names are listed and users are attached |
| `Dirs.Directory.DirSetScanning` | ROX-Filer/src/dir.c:323-339 | every user is told of a change of the flag and afterwards believes what it says; at the end of a scan every window shows exactly the table |
| `Dirs.Directory.DirErrorChanged` | ROX-Filer/src/dir.c:356-370 | everybody is told, and no view and no belief changes |
| `Dirs.Directory.NotifyMerge` | ROX-Filer/src/dir.c:424-442 | every user is told what is new, changed and gone, in this order |
| `Dirs.Directory.DirMergeNew` | ROX-Filer/src/dir.c:419-460 | every user is told what was pending, it takes effect, and nothing is pending any more; afterwards every view is the table, if no name was new twice |
| `Dirs.Directory.NotifyTimeout` | ROX-Filer/src/dir.c:560-572 | every user is told the pending changes, they take effect, and every view is the table unless an unlisted name was new twice |
| `Dirs.Directory.InsertItem` | ROX-Filer/src/dir.c:589-679 | one name looked at: the table, the pending arrays and the item say what the disk said, and all the rest is as it was |
| `Dirs.Directory.RecheckKnown` | ROX-Filer/src/dir.c:603-679 | a known item is updated, or leaves the table at once and joins those gone |
| `Dirs.Directory.AddUnlisted` | ROX-Filer/src/dir.c:615-631 | an item that was not known joins those new |
| `Dirs.Directory.RemoveMissing` | ROX-Filer/src/dir.c:527-558 | items not listed leave table and views together; every user is told of just these, and of nothing if there are none |
| `Dirs.Directory.DirQueueRecheck` | ROX-Filer/src/dir.c:306-315 | a flagged item is put on the list and loses its flag; no other |
| `Dirs.Directory.MarkListed` | ROX-Filer/src/dir.c:963-988 | every listed name is flagged, known or new |
| `Dirs.Directory.TakeListing` | ROX-Filer/src/dir.c:956-1004 | the table has exactly the listed names; each is flagged or on the list, on the list if a window cares about it, and only then |
| `Dirs.Directory.BeginScan` | ROX-Filer/src/dir.c:937-1004 | every user hears the start of the scan, then what was pending, and only then the listing |
| `Dirs.Directory.FinishScan` | ROX-Filer/src/dir.c:399-408 | at the end of a scan everything pending is told and every window shows exactly the table |
| `Dirs.Directory.DirRescan` | ROX-Filer/src/dir.c:888-1009 | the mark is taken off. If the directory can be read, its listing is taken: the listed names are the entries without `.` and `..`, the table has them all but for one that was already rechecked, only names that a window cares about are on the list, and every user has heard of the start of the scan and then of what was pending. If it cannot be opened, the error is set and heard of; if it cannot be looked at, an old error is taken back and nothing else changes |
| `Dirs.Directory.Rescan` | ROX-Filer/src/dir.c:937-1009 | a listing taken: nothing pending afterwards, and a scan on exactly when there is something to recheck and somebody to tell |
| `Dirs.Directory.MergeFreshly` | ROX-Filer/src/dir.c:419-460 | a merge leaves everything that is still to be looked at flagged or on the list |
| `Dirs.SkipDots` | ROX-Filer/src/dir.c:943-952 | every entry but `.` and `..`, once |
| `Dirs.Directory.Refresh` | ROX-Filer/src/dir.c:681-690 | a directory that is being scanned is marked, and any other is read, with what a rescan comes to |
| `Dirs.Directory.DirRecheck` | ROX-Filer/src/dir.c:750-760 | one item rechecked, everything else as it was |
| `Dirs.Directory.DirUpdateItem` | ROX-Filer/src/dir.c:291-300 | the name is known afterwards exactly when it was found or was new already, and every view is the table |
| `Dirs.ScanToEnd` | ROX-Filer/src/dir.c:375-414 | whatever happens between its steps, a scan ends within one step for each name not yet checked; unless a rescan is owed every window then shows exactly the directory, and every name that a window cares about has been looked at since the listing |
| `Dirs.LosesReturned` | ROX-Filer/src/dir.c:750-760 | an item gone and back before the timeout is lost to a window |
| `Dirs.FoundIsTaken` | ROX-Filer/src/dir.c:596-598 | a name that is found is passed over exactly when a newline follows its dots, so `.` and `..` are not |
| `Dirs.ShowsDot` | ROX-Filer/src/dir.c:291-300 | an item named `.` in the table and in every view |
| `Dirs.AddsTwice` | ROX-Filer/src/dir.c:589-679 | an unlisted name rechecked twice before the timeout leaves a view with an item the table does not know |
| `Dirs.AnyRun` | ROX-Filer/src/dir.c:140-214 | all invariants of the cache hold in every reachable state |
| `DirViews.MergeViewOk` | ROX-Filer/src/dir.c:419-460 | a merge makes a view that lay between the table and the table with what is gone equal to the new table |
| `DirViews.MergeViews` | ROX-Filer/src/dir.c:419-460 | and so for all users, none of whom changes its belief about scanning |
| `DirViews.MergeSays` | ROX-Filer/src/dir.c:424-442 | a user hears of what is new, changed and gone, in this order, and of nothing else |
| `DirViews.MissingRemoved` | ROX-Filer/src/dir.c:527-558 | removing unlisted items keeps a view right |
| `DirViews.NameGone` | ROX-Filer/src/dir.c:638-646 | an item gone stays in the views until it is told, and nowhere else |
| `DirViews.ItemQueued` | ROX-Filer/src/dir.c:306-315 | queueing a flagged item never puts a name on the list twice |
| `DirViews.NewListed` | ROX-Filer/src/dir.c:980-986 | a new name starts out flagged and not queued |
| `DirViews.LookFresh` | ROX-Filer/src/dir.c:589-679 | a look at one name leaves everything still to be looked at flagged or on the list |
| `DirViews.MergeFresh` | ROX-Filer/src/dir.c:419-460 | and so does a merge |
| `DirViews.ByNameExactly` | ROX-Filer/src/dir.c:419-460 | a window is complete after a merge exactly when no name was both gone and new in it |
| `DirViews.EndShown` | ROX-Filer/src/filer.c:645-712 | at the end of a scan a window shows exactly what the directory knows |
| `DirViews.DoubledExactly` | ROX-Filer/src/dir.c:589-679 | a view is the table after a merge exactly when no name was new twice in it |
| `DirViews.ScanBounded` | ROX-Filer/src/dir.c:375-414 | names rechecked and names waiting are together no more than those listed |
| `Grids.ItemHasCell` | ROX-Filer/src/collection.c:1750-1764 | every item has a cell inside the grid and is the item of that cell, in both orders |
| `Grids.CellHasItem` | ROX-Filer/src/collection.c:1771-1782 | a cell that holds an item is the cell of that item |
| `Grids.ColumnsFit` | ROX-Filer/src/collection.c:153-163 | no more columns are filled than there are |
| `Grids.RowsExactly` | ROX-Filer/src/collection.c:142-148 | there are just as many rows as the items need, at least one, and no cell below them holds an item |
| `Grids.Grid.Target` | ROX-Filer/src/collection.c:1615-1702 | the cursor always lands on an item |
| `Grids.DownGoesOn` | ROX-Filer/src/collection.c:1655-1682 | in vertical order Down goes to the next item, to the last at most |
| `Grids.UpGoesBack` | ROX-Filer/src/collection.c:1655-1682 | and Up to the one before, to the first at most |
| `Grids.RightAndLeft` | ROX-Filer/src/collection.c:1648-1695 | in horizontal order Right and Left do |
| `Grids.DownOneRow` | ROX-Filer/src/collection.c:1683-1695 | in horizontal order Down moves one row, to the last item at most |
| `Grids.UpOneRow` | ROX-Filer/src/collection.c:1683-1695 | and Up one row back, unless there is none |
| `Grids.RightOneColumn` | ROX-Filer/src/collection.c:1648-1653 | in vertical order Right moves one column, to the last item at most |
| `Grids.LeftOneColumn` | ROX-Filer/src/collection.c:1648-1653 | and Left one column back, unless there is none |
| `Grids.ManyRows` | ROX-Filer/src/collection.c:1654-1695 | a move by pages stays in its column and goes to the first or last row at most, or to the last item where there is none |
| `Grids.BackIntoView` | ROX-Filer/src/collection.c:1654-1662 | a cursor out of view comes back to the nearest row in view, in its column |
| `Grids.FromNowhere` | ROX-Filer/src/collection.c:1637-1641 | from nowhere the cursor comes to the first item of the first row in view |
| `Grids.RangeExact` | ROX-Filer/src/collection.c:768-784 | the range has exactly the cells that meet the dragged interval, margins off, for any integers |
| `Grids.MarginExactly` | ROX-Filer/src/collection.c:770-770 | the margin is a quarter of the cell, at most 40 pixels |
| `Grids.LassoExact` | ROX-Filer/src/collection.c:792-817 | the lasso takes exactly the cells it meets on both axes, once 8 pixels long on one |
| `Items.LassoTakes` | ROX-Filer/src/collection.c:819-872 | and exactly the items in them |
| `Items.InvertTwice` | ROX-Filer/src/collection.c:841-858 | inverting the same area twice changes nothing |
| `Items.LassoNext` | ROX-Filer/src/collection.c:841-858 | the scan of the area touches each item at its own cell and no other |
| `Items.UnselectedAhead` | ROX-Filer/src/collection.c:1132-1142 | the count says that an unselected item is still ahead |
| `Items.SelectedAhead` | ROX-Filer/src/collection.c:1204-1214 | the count says that a selected item other than the kept one is still ahead |
| `Items.SurvivorsAt` | ROX-Filer/src/collection.c:1549-1578 | each item that stays stands after as many items as stayed before it |
| `Items.CursorAfter` | ROX-Filer/src/collection.c:1568-1582 | the cursor stays on its item, or goes to the nearest earlier one that stays, or nowhere |
| `Items.SurvivorsCount` | ROX-Filer/src/collection.c:1592-1601 | a filter never makes more items selected |
| `Items.NeighboursSorted` | ROX-Filer/src/collection.c:1318-1325 | items in order pair by pair are in order |
| `Items.AnnouncedTells` | ROX-Filer/src/collection.c:1048-1067 | a client that follows GAIN and LOSE knows whether anything is selected |
| `Items.CountPermutation` | ROX-Filer/src/collection.c:1353-1357 | sorting does not change how many are selected |
| `Items.QSort` | ROX-Filer/src/collection.c:1353-1357 | the assumed contract of the C library's sort, met by a sort of our own |
| `Collections.Collection.ResizeArrays` | ROX-Filer/src/collection.c:634-643 | a larger or smaller array with the same items |
| `Collections.Collection.Insert` | ROX-Filer/src/collection.c:1081-1103 | the item is appended unselected; the array always has room |
| `Collections.Collection.ItemSetSelected` | ROX-Filer/src/collection.c:1035-1068 | one flag changes, the count with it, and the signals are those due |
| `Collections.Collection.SelectItem` | ROX-Filer/src/collection.c:1105-1113 | the same with the client kept informed |
| `Collections.Collection.ToggleItem` | ROX-Filer/src/collection.c:1115-1119 | the flag of one item is flipped |
| `Collections.Collection.SelectAll` | ROX-Filer/src/collection.c:1122-1147 | all items selected and nothing else changed; the client hears of it once, and only if something was not selected |
| `Collections.Collection.SelectOthers` | ROX-Filer/src/collection.c:1132-1142 | the unbounded inner search stays within the array and ends |
| `Collections.Collection.ClearExcept` | ROX-Filer/src/collection.c:1184-1220 | exactly the given item selected, or none; the signals are those due, in order |
| `Collections.Collection.ClearOthers` | ROX-Filer/src/collection.c:1204-1214 | the unbounded inner search stays within the array and ends |
| `Collections.Collection.ClearSelection` | ROX-Filer/src/collection.c:1223-1229 | nothing selected |
| `Collections.Collection.InvertSelection` | ROX-Filer/src/collection.c:1150-1179 | every flag flipped and the count exact; the signals are those due |
| `Collections.Collection.DeleteIf` | ROX-Filer/src/collection.c:1536-1610 | exactly the items that stay, in order and with their flags; count, cursor and signals to match |
| `Collections.Collection.Sift` | ROX-Filer/src/collection.c:1549-1578 | the pass in place yields the items that stay at the front |
| `Collections.Collection.Clear` | ROX-Filer/src/collection.c:1073-1076 | nothing is left |
| `Collections.Collection.IsSorted` | ROX-Filer/src/collection.c:1314-1325 | whether the collection is in order already |
| `Collections.Collection.QuickSort` | ROX-Filer/src/collection.c:1297-1380 | a sorted permutation; a collection in order is left as it is, and the cursor goes along with its data |
| `Collections.Collection.FindItem` | ROX-Filer/src/collection.c:1385-1417 | in a sorted collection an item that compares equal is found exactly when there is one |
| `Collections.SortAndFind` | ROX-Filer/src/collection.c:1297-1417 | after sorting by any of the rankings each item of its own name is found at its own place |
| `Collections.Collection.SetCursorItem` | ROX-Filer/src/collection.c:1464-1492 | the cursor moves within the items, and the place it was hidden at is remembered |
| `Collections.Collection.MoveCursor` | ROX-Filer/src/collection.c:1615-1702 | the cursor goes to its target, and only the target is selected or unselected on the way |
| `Collections.Collection.ProcessArea` | ROX-Filer/src/collection.c:819-872 | exactly the items of the area are selected or flipped; the client hears whether there are any selected now, and of a change exactly when the area holds an item |
| `Collections.Collection.EndLasso` | ROX-Filer/src/collection.c:1718-1729 | the same for the cells the box covers |
| `Collections.LassoTwice` | ROX-Filer/src/collection.c:1718-1729 | inverting with the same box twice restores selection and count |
| `Display.NameRanks` | ROX-Filer/src/display.c:280-306 | sorting by name is an order in which only equal names tie |
| `Display.TypeRanks` | ROX-Filer/src/display.c:308-340 | so is sorting by type |
| `Display.OwnerRanksExactly` | ROX-Filer/src/display.c:342-356 | sorting by owner is one exactly when no two owners share a name |
| `Display.GroupRanksExactly` | ROX-Filer/src/display.c:358-372 | sorting by group is one exactly when no two groups share a name |
| `Display.DateRanks` | ROX-Filer/src/display.c:374-408 | sorting by any date is one |
| `Display.SizeRanks` | ROX-Filer/src/display.c:410-420 | sorting by size is one |
| `Display.DirectoriesFirst` | ROX-Filer/src/display.c:280-306 | sorted by name or size, directories come first, and in each part the smaller first |
| `Display.OlderFirst` | ROX-Filer/src/display.c:374-408 | by date the older comes first, and equal dates leave it to the name |
| `Display.TypesInOrder` | ROX-Filer/src/display.c:308-340 | by type the base types decide, applications last of theirs, then media type, subtype and name |
| `Display.NamesInOrder` | ROX-Filer/src/display.c:342-372 | by owner or group their names decide, and the same one leaves it to the name of the item |
| `Orders.LexConsistent` | ROX-Filer/src/display.c:293-306 | falling back on a second order keeps an order |
| `Orders.StrCmpConsistent` | ROX-Filer/src/display.c:305-305 | comparing bytes is an order |
| `Orders.FirstByteDecides` | ROX-Filer/src/display.c:305-305 | the first byte that differs decides; a beginning comes before the whole |
| `Drives.DriveArrayEqual` | ROX-Filer/src/drives_monitor.c:37-78 | two snapshots count as equal exactly when they are the same, field by field, or both missing |
| `Drives.DrivesMonitor.RequestExchange` | ROX-Filer/src/drives_monitor.c:232-239 | after the exchange a request is on its way, whoever set the flag |
| `Drives.DrivesMonitor.RequestIdleAdd` | ROX-Filer/src/drives_monitor.c:232-239 | one idle call for each flag set |
| `Drives.DrivesMonitor.Interfere` | ROX-Filer/src/drives_monitor.c:232-239 | no interleaving of other threads loses a request |
| `Drives.DrivesMonitor.RequestScanInMain` | ROX-Filer/src/drives_monitor.c:223-230 | a request that arrives starts a scan, or one is owed after the scan that is running, whatever comes between clearing the flag and starting |
| `Drives.DrivesMonitor.StartScan` | ROX-Filer/src/drives_monitor.c:210-221 | a scan is started, or owed while one is running; never two at once |
| `Drives.DrivesMonitor.ScanDone` | ROX-Filer/src/drives_monitor.c:175-208 | the snapshot is the new array, or the old one after an error; everybody alive has it, and is told of an error but not of an array that is no different; a scan owed is started |
| `Drives.DrivesMonitor.TakeResult` | ROX-Filer/src/drives_monitor.c:189-204 | an array that is no different need not be delivered |
| `Drives.DrivesMonitor.NotifySubscribers` | ROX-Filer/src/drives_monitor.c:115-149 | everybody subscribed and alive is called, although callbacks change the list; afterwards nobody dead is on it, and it is polled for exactly while there is somebody |
| `Drives.DrivesMonitor.CallTargets` | ROX-Filer/src/drives_monitor.c:140-144 | each target, none of them dead, in turn, others keeping what they have; if callbacks do nothing by themselves each is told exactly once and nobody else is |
| `Drives.DrivesMonitor.TellError` | ROX-Filer/src/drives_monitor.c:197-199 | a client called with an error has been told of one more, and keeps the array it has |
| `Drives.DrivesMonitor.Subscribe` | ROX-Filer/src/drives_monitor.c:345-385 | the client is on the list while it lives and has the snapshot, or a scan is running that will bring one; for the first live one a scan is started, or owed, in any case |
| `Drives.DrivesMonitor.CompactSubscribers` | ROX-Filer/src/drives_monitor.c:98-111 | exactly the dead are dropped |
| `Drives.DrivesMonitor.UpdatePollState` | ROX-Filer/src/drives_monitor.c:277-289 | polling exactly while there are subscribers |
| `Drives.DrivesMonitor.VolumeChanged` | ROX-Filer/src/drives_monitor.c:241-250 | an event with live subscribers starts a scan, or one is owed after the scan that is running |
| `Drives.DrivesMonitor.PollCb` | ROX-Filer/src/drives_monitor.c:265-275 | so does a poll; without live subscribers it is the last |
| `Drives.QuietMeansServed` | ROX-Filer/src/drives_monitor.c:175-239 | when nothing is on its way and nothing runs, a scan begun after the last request has been delivered |
| `Drives.RunToRest` | ROX-Filer/src/drives_monitor.c:175-239 | left to itself the monitor comes to rest in at most five steps, in none exactly when it rests already, whatever their order, and the last request has been served by then |
| `Drives.AnyRun` | ROX-Filer/src/drives_monitor.c:175-385 | no run breaks any of this |
| `Search.SearchJob.SearchThread` | rox-find/rox-find.c:449-513 | undisturbed and with one root or device numbers that cannot hide a directory: exactly the reachable directories are entered and every match is reported once; in any run only reachable ones and only matches, and nothing more once the search has noticed that it is cancelled |
| `Search.SearchJob.ScanDirectory` | rox-find/rox-find.c:370-447 | a scan enters what is reachable and not yet visited, and ends on any cycle of links |
| `Search.SearchJob.ScanEntry` | rox-find/rox-find.c:402-443 | one entry is reported if it matches and entered if the rules allow, whether it matches or not |
| `Search.SearchJob.MatchesFile` | rox-find/rox-find.c:414-430 | an entry matches by type, size, name and content |
| `Search.SearchJob.MarkDirectoryVisited` | rox-find/rox-find.c:341-368 | true exactly the first time a key comes, be it a file id or a URI |
| `Search.SearchJob.QueueResult` | rox-find/rox-find.c:306-339 | the count is the number of results, none of them twice |
| `Search.MissesWithoutDeviceNumbers` | rox-find/rox-find.c:434-440 | for any two device numbers beside a directory without one, a search of two roots that misses a directory |
| `SearchSpec.ExhaustiveExactly` | rox-find/rox-find.c:370-513 | every undisturbed search is exhaustive exactly when `one_filesystem` or `recursive` is off, no device number is missing, or all those there are equal |
| `SearchSpec.OutcomeIsExhaustive` | rox-find/rox-find.c:449-513 | how an undisturbed search comes to be exhaustive, for any number of roots |
| `SearchSpec.FencedMisses` | rox-find/rox-find.c:434-440 | whatever way such a search goes, it misses the directory |
| `SearchSpec.EntryEntered` | rox-find/rox-find.c:434-440 | a scan within a scan keeps what the outer one has to answer for |
| `SearchSpec.ScanSettles` | rox-find/rox-find.c:449-513 | under one device rule every visited directory is settled by the rule of its own device |
| `SearchSpec.SettledIsExhaustive` | rox-find/rox-find.c:449-513 | a settled set that holds the roots is exactly what is reachable |
| `SearchSpec.OneScanHoldsAll` | rox-find/rox-find.c:370-447 | with one root the scan is exact whatever the devices say |
| `SearchPromises.FoundFits` | rox-find/rox-find.c:414-430 | whatever disturbs it, a search only reports entries of the type, name, size and content that is asked for, hidden ones only if they are |
| `SearchPromises.FittingFound` | rox-find/rox-find.c:370-447 | and one that nothing disturbs reports every such entry of a directory it has searched |
| `SearchPromises.OneTypeOfAny` | rox-find/rox-find.c:295-304 | a search for one type finds exactly the hits of that type of a search for any |
| `SearchPromises.TypesPartition` | rox-find/rox-find.c:295-304 | each hit of any type is found by exactly one of the searches for files, directories and links, or is special |
| `SearchPromises.ContentIsInFiles` | rox-find/rox-find.c:419-423 | a search for content finds the same for files as for anything |
| `SearchPromises.SameVisited` | rox-find/rox-find.c:434-440 | where a search goes does not depend on the type it is for |
| `SearchPromises.SearchedByRules` | rox-find/rox-find.c:434-440 | each directory searched is a root, or was led to by an entry that the options allow to be entered |
| `SearchPromises.EveryLeadFollowed` | rox-find/rox-find.c:434-440 | and a search that nothing disturbs follows each such entry |
| `BulkRenaming.BulkRename.Validate` | ROX-Filer/src/bulk_rename.c:407-450 | a list is accepted exactly when no name is used twice, in whatever order, and no new name is taken |
| `BulkRenaming.BulkRename.CheckRow` | ROX-Filer/src/bulk_rename.c:411-449 | one row against the names so far |
| `BulkRenaming.NamesOnceExactly` | ROX-Filer/src/bulk_rename.c:411-449 | a list passes for its names exactly when all the names it uses are different |
| `BulkRenaming.WhereTo` | ROX-Filer/src/bulk_rename.c:438-441 | an absolute new name stands as it is, any other for a name in the directory |
| `BulkRenaming.ReachesExactly` | ROX-Filer/src/bulk_rename.c:442-447 | what `access` finds: links lead, in no more steps than allowed, to an entry that is none |
| `BulkRenaming.BulkRename.DoRename` | ROX-Filer/src/bulk_rename.c:372-389 | a file is renamed to a name that is free, or nothing happens because the name is taken, the file is missing or `rename` refuses it |
| `BulkRenaming.BulkRename.RenameItems` | ROX-Filer/src/bulk_rename.c:391-512 | the rows left are exactly those not done, those done have all taken effect, no file is ever overwritten, and no directory gets lost in itself; a list with a slash in it is only run when that is confirmed, and a list that is not run changes nothing |
| `BulkRenaming.BulkRename.Process` | ROX-Filer/src/bulk_rename.c:475-505 | rows are done in order and dropped; the first that fails is the first left |
| `BulkRenaming.StepKeeps` | ROX-Filer/src/bulk_rename.c:372-389 | one rename loses nothing but a dangling link |
| `BulkRenaming.StepLosesExactly` | ROX-Filer/src/bulk_rename.c:372-389 | one rename loses something exactly when it replaces something |
| `BulkRenaming.RunLosesExactly` | ROX-Filer/src/bulk_rename.c:475-505 | any run keeps every file and link exactly when none of its renames replaces anything |
| `BulkRenaming.FolderMoves` | ROX-Filer/src/bulk_rename.c:372-389 | moving a directory leaves the tree a tree exactly when it is not moved into itself, which `rename` refuses |
| `BulkRenaming.RunStaysTree` | ROX-Filer/src/bulk_rename.c:475-505 | no run makes a directory lie below itself |
| `BulkRenaming.AppliedIsSimultaneous` | ROX-Filer/src/bulk_rename.c:475-505 | row after row within one directory is one simultaneous renaming |
| `BulkRenaming.AppliedIsAtOnce` | ROX-Filer/src/bulk_rename.c:475-505 | and leaves exactly the files with all names replaced at once |
| `BulkRenaming.CollisionExactly` | ROX-Filer/src/bulk_rename.c:372-451 | an accepted list runs into a new name exactly when a link stands there that leads somewhere once the rows before are done |
| `BulkRenaming.RefusedExactly` | ROX-Filer/src/bulk_rename.c:372-389 | within a directory `rename` refuses a row exactly when it takes a directory to a name where a link stands |
| `BulkRenaming.AcceptedGoesThrough` | ROX-Filer/src/bulk_rename.c:372-505 | an accepted list goes through exactly when every old name is there, no link at a new name comes to lead anywhere, and no link stands at the new name of a directory |
| `BulkRenaming.ReplacesExactly` | ROX-Filer/src/bulk_rename.c:372-451 | as far as it comes it replaces nothing exactly when no link stands at a new name |
| `BulkRenaming.LosesExactly` | ROX-Filer/src/bulk_rename.c:372-505 | an accepted list that goes through keeps every file and link exactly when no link stands at a new name |
| `BulkRenaming.RenameWithin` | ROX-Filer/src/bulk_rename.c:391-512 | the rows done are done at once; success exactly when the list is accepted and goes through, and loss exactly when a link stood at a new name |
| `BulkRenaming.LinkGetsInTheWay` | ROX-Filer/src/bulk_rename.c:372-451 | a list that is accepted and stops halfway |
| `BulkRenaming.FolderOntoLink` | ROX-Filer/src/bulk_rename.c:372-389 | a list of one directory that is accepted and stops at a dangling link |
| `BulkRenaming.FolderIntoItself` | ROX-Filer/src/bulk_rename.c:372-389 | a list of one directory that is accepted and stops because it would go into itself |
| `BulkRenaming.LinkIsLost` | ROX-Filer/src/bulk_rename.c:372-389 | a list that is accepted, goes through and loses a link |
| `Substitution.Subst` | ROX-Filer/src/bulk_rename.c:209-253 | the match is replaced by what the text stands for, the rest is kept |
| `Substitution.Expand` | ROX-Filer/src/bulk_rename.c:224-247 | one piece of the text: a group, an escaped character, or a character |
| `Substitution.WrittenIsRead` | ROX-Filer/src/bulk_rename.c:222-247 | any sequence of characters and groups can be written down and is read back as meant |
| `Substitution.PiecesJoin` | ROX-Filer/src/bulk_rename.c:222-247 | what two texts stand for, one after the other, is what the two together stand for |
| `Substitution.GroupIsItsText` | ROX-Filer/src/bulk_rename.c:224-247 | a backslash and a digit stand for what that group has matched, if it took part |
| `Substitution.CharacterIsItself` | ROX-Filer/src/bulk_rename.c:224-247 | anything else stands for itself, and so does what follows a backslash |
| `Substitution.WholeMatchIsIdentity` | ROX-Filer/src/bulk_rename.c:209-253 | putting the whole match back leaves the name as it was |
| `Histories.History.Remove` | ROX-Filer/src/bookmarks.c:241-256 | the path and nothing else leaves list and index |
| `Histories.History.DeleteLink` | ROX-Filer/src/bookmarks.c:248-253 | the chain, both its ends and the tail are right without the node |
| `Histories.History.Prepend` | ROX-Filer/src/bookmarks.c:281-284 | the path comes first in the list, and the index knows its node |
| `Histories.History.Evict` | ROX-Filer/src/bookmarks.c:286-291 | the oldest entries go until no more are left than allowed |
| `Histories.History.AddHistory` | ROX-Filer/src/bookmarks.c:262-292 | the first CLAMP(limit, 1, 200) of the path followed by the old list without it and its parent; index, chain and tail agree with the list |
| `Histories.RunIsRecent` | ROX-Filer/src/bookmarks.c:258-292 | after any run of visits the list is ordered by last visit and within the limit |
| `Histories.RecentStays` | ROX-Filer/src/bookmarks.c:258-292 | a visited place stays, at most one further down for each later visit, until it is superseded or cut off |
| `Histories.VisitTwice` | ROX-Filer/src/bookmarks.c:258-292 | visiting the same place again at once changes nothing |
| `Histories.LimitExactly` | ROX-Filer/src/bookmarks.c:286-291 | a limit from 1 to 200 is kept to and made use of, any other counts as the nearer of the two |

## Left out

- Ownership, extended attributes and `lchown`: `cp -p` and the directory stamp are modelled for mode and time only.
- The rsync engines (`do_copy_fast`, `do_move_fast`, `run_rsync_*`): their work is done by another program; of these paths only `remove_empty_source_dirs` is modelled.
- Paths that reach one place by two names (links in the middle of a path, `is_sub_dir` on real paths): a path in the copy, move and delete model is a sequence of names that is not followed through links.
- Text of messages, progress tracking and size counting in `action.c`; chmod, set type, mount, eject and link actions.
- Windows that read `>` and `<` prompts: answers are an oracle, with the paths refused recorded.
- `strtol` on a sign, a blank or a `0x` prefix, which no sender writes; partial writes and errors of the writer's end.
- Kernels.Kernel.Lstat: fails only for the paths in `blind`, which stay the same for the whole run; that it fails for a path at one moment and not at another is not modelled.
- Kernels.Kernel.CopyFile: a copy that fails leaves nothing behind; a partial file that `cp` may leave is not modelled.
- Which items a window's filter hides from view: in the model a window shows every item it is told of. The filter only decides which names it asks to be rechecked (`cares`), and stays the same for the life of the directory.
- The stat failure of `dir_rescan` with `o_close_dir_when_missing` off, the file system monitor object, and `dir_force_update_item`.
- Callbacks of directory users other than recording messages and queueing the flagged items they care about.
- Dirs.Directory.Fresh: after a reading that failed, a window that came while the directory was marked has not been asked what it cares about (`ROX-Filer/src/dir.c:172-175`), so until the next listing nothing is stated about that.
- The wink effect, scrolling, drawing, hit testing and signals as a mechanism in `collection.c`; of GAIN, LOSE and SELECTION_CHANGED a log is kept.
- Integer overflow of pixel coordinates, of `result_count` and of item numbers.
- Collections.Collection.LibQSort: the C library's own algorithm is not modelled; only sortedness and permutation are used.
- What a drive is: reading `/sys` and GVolume objects, and the text of scan errors. Of an error only how often each client was told of one is recorded.
- Drives.DrivesMonitor.React: the number of callbacks nested in each other is bounded by an arbitrary number, because recursion must end.
- Regular expressions, the text tests of the search (`filename_matches`, `content_matches_file`) and `regexec`: their results are parameters.
- Search keys: a directory has one key for the whole search, and there are finitely many. Links that lead back to a directory without a file id give ever new URIs, and how such a search ends is not modelled.
- Search.SearchJob.SearchThread: the order of the results is not stated, only that each is there once.
- Paths in bulk rename: which entry a path names is a parameter that may change with the tree; only for plain names within the directory is it required to be stable.
- BulkRenaming.BulkRename.Rename: `faulty` stands for what does not lie in the tree: permissions, other file systems, mount points, a full disk. Symbolic links are taken to have one name each: a rename of one hard link onto another of the same link, which does nothing, is not modelled.
- Saving and loading of history, bookmarks and options; `update_model` and the dialog of bulk rename.
- GTK widgets, X11 and Wayland backends, wallpaper, panels, themes, translations and packaging.
