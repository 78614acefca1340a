# Talos Panel, modelled and proved in Dafny

Talos Panel manages Minecraft servers. This project models the parts of it that keep state or transform
data, and proves what a maintainer relies on: that a backup brings back what it was taken of, that a failed
restore or extraction leaves nothing half done, that the settings file keeps its layout, that crash recovery
and the backup schedule stay within their bounds over every run, that a restarted container runs what the
record says, and that sessions, failed logins and administrators are kept as promised.

`dafny verify dfyconfig.toml` verifies everything.

## How the model is built

- `Paths`, `Trees`: a server directory is a finite map from paths (sequences of names) to files, directories
  and symbolic links. `os.walk` is a method over a stack; the order in which a directory is listed is
  arbitrary.
- `Backups`: an archive is a sequence of members with printed names. `create_backup` and `restore_backup` are
  methods of classes that change files in place; a fault oracle says which file-system calls raise.
- `FileRules`, `Resolution`: `resolve_server_path`, on the tree and on a whole disk with arbitrary links.
  `Resolution` shows that the two agree, so that the other modules use the one on the tree.
- `Zips`, `Downloads`, `Moves`: `extract_zip`, `create_directory_archive`, `move_path`, `copy_path`.
- `Text`, `Properties`, `Rewrites`, `Readings`: `server.properties`, character by character.
- `Operations`: the maintenance loop, as the record it updates and as runs of passes and owner actions.
- `Containers`: the Docker container of one server, its labels and what it was created with.
- `Versions`: the backup, update, rollback and restore handlers over one server, as a class whose methods take
  exactly the steps of a transition system, and runs of that system.
- `VarInts`: the variable-length integers (unsigned LEB128, section 7.6 of the DWARF Debugging Information
  Format, Version 5) and the framed status reply.
- `Accounts`: users, sessions and failed logins, as a class whose methods take exactly the steps of a
  transition system, and runs of that system.
- `Surprises`: concrete inputs on which the code does less than one would expect.
- `Common`, `Sequences`: helpers.

Each operation is specified by a function of the state before it, and what that function has to mean is then
stated apart from it, in the terms of the panel: which inputs are accepted, what every field is afterwards, with
the source's own numbers and names written out.

Every handler call and every pass of the maintenance loop is one atomic step. There is one clock. SHA-256 is
injective.

## Where the code does less than it seems to

In each case the code is modelled as it is, the exact condition is proved, and `Surprises` holds an input.

- A failed `extract_zip` undoes what it recorded, and only while file entries are still open. It forgets the
  directories that `mkdir(parents=True)` makes above a directory entry and the file it was writing when a call
  failed, and leaves them behind; and once only directory entries are open, a call that raises undoes nothing
  at all. `Zips.FailureLeavesNothing` says exactly which failures leave the first tree, in terms of the order
  of the entries, and `Zips.OrderedArchiveIsUndone` what an archive in order gains. The inputs are
  `Surprises.ExtractionLeavesParent`, `Surprises.ExtractionLeavesHalfFile` and
  `Surprises.ExtractionUndoesNothing`.
- `create_directory_archive` writes an entry for a directory only if `os.walk` yields nothing in it, and links
  to files count as something: a directory that holds only such links is missing from the download.
  `Downloads.CarriesEverything` is the exact condition, `Surprises.DownloadLosesDirectory` the input.
- `copy_path` on a directory makes the missing parents of its destination, and does not remove them when the
  copy fails. `Moves.CopyTouchesNothingElse` is the exact condition for a copy that succeeds and
  `Moves.FailedCopyTouchesNothing` for one that fails; `Surprises.CopyMakesParents` and
  `Surprises.FailedCopyLeavesParent` are the inputs.
- `create_backup` has no size limit, while `restore_backup` refuses an archive above
  `max_backup_restore_bytes`: the panel takes backups that it will not restore. `Versions.HeldCanBeRestored` is
  the exact condition, `Surprises.BackupBeyondLimit` the input.
- `write_server_properties` replaces carriage returns and line feeds in the message, but the file is split at
  more characters than those two. A message with a vertical tab, say, does not come back, and what stood after
  the tab can survive the next write. `Properties.RoundTrip` and `Rewrites.TraceLaw` are the exact conditions,
  `Surprises.TabCutsTheMessage` and `Surprises.TabLeavesALine` the inputs.
- The Java version is no container label: a container whose labels match is started with the Java it was
  created with. `Containers.JavaIsKeptWhenLabelsMatch` is the exact condition, `Surprises.JavaStaysBehind` the
  input.

One guard, on the other hand, is never needed: the counts of administrators in `update_user_status` and
`delete_user` refuse nothing, since the one who acts is an active administrator other than the target
(`Accounts.CountsNeverRefuse`).

## Model

| member | source | states |
|---|---|---|
| Paths.PartsOfJoin | talos_panel/file_service.py:68-74 | reading a printed path gives the path back |
| Paths.RelativePathOfJoin | talos_panel/file_service.py:209-215 | a path built by the panel, printed and checked again, is accepted as itself |
| Paths.RelativePathParts | talos_panel/file_service.py:68-74 | an accepted path has no empty, `.` or `..` part, no slash, backslash or control character |
| Paths.PartsMeans | talos_panel/file_service.py:71 | the parts of any text: those before and after a slash, one for a name, none for nothing and for `.` |
| Paths.StripSlashesMeans | talos_panel/file_service.py:278 | all slashes at the end go, and nothing else |
| FileRules.ResolvesExactly | talos_panel/file_service.py:77-100 | accepted, as its parts, is exactly a readable path that crosses no link and lies outside the trash, and not the root where that is not allowed |
| Paths.StripJoinedSlash | talos_panel/file_service.py:278 | stripping the trailing slash of a directory entry gives its path |
| Paths.JoinInjective | talos_panel/backup_service.py:76 | different paths have different archive names |
| Trees.Walk | talos_panel/backup_service.py:67-74 | the walk with pruning yields each directory reached through kept, real directories exactly once, and nothing else, in whatever order directories are listed |
| Trees.MakeDirsAdds | talos_panel/backup_service.py:134-136 | `mkdir(parents=True, exist_ok=True)` adds exactly the missing prefixes, as directories, and changes nothing that was there |
| Trees.MakeDirsWithin | talos_panel/backup_service.py:134-136 | making directories that a larger tree has never leaves that tree |
| Backups.WriteArchive | talos_panel/backup_service.py:65-81 | the loop writes a backup: each file and directory outside the trash once, as it is, no link, nothing else |
| Backups.AddEntries | talos_panel/backup_service.py:74-81 | the inner loops append the entries of one directory's names, links left out |
| Backups.ListingIsBackup | talos_panel/backup_service.py:66-81 | whatever the listing order, the walk's entries are exactly the backed-up paths, each once |
| Backups.BackupStore.CreateBackup | talos_panel/backup_service.py:53-87 | succeeds exactly if the directory is there and no call fails; then one new file holds a backup, with its checksum; otherwise no file changes |
| Backups.BackupStore.DeleteBackup | talos_panel/backup_service.py:90-95 | removes exactly the named file, or fails and removes nothing |
| Backups.PlaceKeepsStaging | talos_panel/backup_service.py:119-142 | no entry puts a link into staging, which stays a tree |
| Backups.RestoreRoundTrip | talos_panel/backup_service.py:66-81 | unpacking a backup rebuilds exactly the tree without links and trash, modes cut to 0o777, empty directories included |
| Backups.RestoredIsStable | talos_panel/backup_service.py:66-81 | what a restore brought back is carried whole by the next backup |
| Backups.SizeOfBackup | talos_panel/backup_service.py:115-118 | the size compared with the limit is that of all files backed up together |
| Backups.RestoredIsWellFormed | talos_panel/backup_service.py:66-81 | pruning links and trash leaves no path without its directory |
| Backups.RestoredMeans | talos_panel/backup_service.py:66-142 | path by path what comes back: every file and directory outside the real trash directory, contents whole, the lowest nine bits of the mode |
| Backups.PlacesExactly | talos_panel/backup_service.py:119-142 | an entry is unpacked exactly if it is relative, without `..`, not empty, a file or directory, and nothing of another kind is in its way |
| Backups.PlaceEffect | talos_panel/backup_service.py:133-142 | its path is there, its node is what it says, and nothing else changes |
| Backups.UnpackMeans | talos_panel/backup_service.py:114-142 | any archive that unpacks has only safe entries, and leaves their paths, each with the last file of that path or a directory |
| Backups.RestoreArea.Stage | talos_panel/backup_service.py:119-142 | the loop fills staging with the unpacked members, or stops because an entry is refused or a call failed; staging never holds a link |
| Backups.RestoreArea.MoveAside | talos_panel/backup_service.py:143-145 | the server directory is out of the way, or nothing changed |
| Backups.RestoreArea.Install | talos_panel/backup_service.py:146-146 | staging is the server directory, or nothing changed |
| Backups.RestoreArea.MoveBack | talos_panel/backup_service.py:153-155 | the directory moved aside is back, or nothing changed |
| Backups.RestoreArea.Swap | talos_panel/backup_service.py:143-159 | either the staged tree is in place or, with at most one fault, the old one is; at each rename a complete tree exists |
| Backups.RestoreArea.Recover | talos_panel/backup_service.py:149-159 | the compensating rename brings the old tree back unless it fails too; staging is removed unless that fails |
| Backups.RestoreArea.DiscardPrevious | talos_panel/backup_service.py:147-148 | the old tree is gone unless that fails |
| Backups.RestoreArea.Restore | talos_panel/backup_service.py:98-159 | all or nothing for every member list and every fault point, with the checks of checksum and size; succeeds if nothing is wrong; a complete old or new tree at every step; nothing left lying about without a fault |
| Resolution.ResolveServerPath | talos_panel/file_service.py:77-100 | the checks in their order, on a disk with arbitrary links |
| Resolution.AcceptedStaysBelowRoot | talos_panel/file_service.py:88-100 | an accepted path resolves to the resolved root followed by exactly its parts |
| Resolution.PartsCheckIsPhysical | talos_panel/file_service.py:93-97 | the loop over the parts finds no link exactly if no physical component below the resolved root is one |
| Resolution.EscapeCrossesLink | talos_panel/file_service.py:89-97 | whatever the escape check refuses, the loop over the parts refuses as well |
| Resolution.AcceptedExactly | talos_panel/file_service.py:77-100 | accepted is exactly a readable path below a root that is no link and resolves, outside the trash, with no link among its parts |
| Resolution.ResolvedIsPhysical | talos_panel/file_service.py:89-90 | what a path resolves to has no link in it |
| Resolution.PhysicalIsResolved | talos_panel/file_service.py:89-90 | a path without links resolves to itself |
| Resolution.TreeCheckAgrees | talos_panel/file_service.py:77-100 | the checks on the tree alone accept the same paths, as the same paths |
| Resolution.StagingCheckHolds | talos_panel/backup_service.py:130-132 | with no link in staging the resolve check on a destination cannot fail |
| Zips.PlanAll | talos_panel/file_service.py:275-293 | the planning loop gives the first refusal or a plan of new, different, link-free targets outside the trash |
| Zips.PlanFromIsPlan | talos_panel/file_service.py:277-293 | what planning accepts is such a plan |
| Zips.PlanExactly | talos_panel/file_service.py:262-293 | which archives are accepted: a ZIP file, at most ten thousand entries, within the byte limit, each no link and a new path with accepted names outside the trash, no two the same; the plan is those entries in order |
| Zips.UnpacksExactly | talos_panel/file_service.py:294-312 | an entry can be unpacked exactly if nothing on its way is anything but a directory |
| Zips.FilesAreCounted | talos_panel/file_service.py:313-320 | the number returned is that of the entries that are files |
| Zips.UnpackPlanAdds | talos_panel/file_service.py:294-312 | a successful extraction changes nothing that was there, and each planned entry is there with its content |
| Zips.Extraction.MakeAncestors | talos_panel/file_service.py:297 | the ancestors of a directory entry, made one by one until a call fails, and recorded nowhere |
| Zips.Extraction.MakeDirectory | talos_panel/file_service.py:297-300 | a missing directory, its ancestors first |
| Zips.Extraction.AddDirectory | talos_panel/file_service.py:295-301 | makes the directory and its ancestors, however far it comes, and records the directory only |
| Zips.Extraction.AddParents | talos_panel/file_service.py:302-308 | makes the missing parents one by one, recording each |
| Zips.Extraction.MakeOne | talos_panel/file_service.py:305-308 | makes one directory where there is none, and records it |
| Zips.Extraction.AddFile | talos_panel/file_service.py:302-312 | creates the file with its content, recorded only when everything went well |
| Zips.Extraction.AddEntry | talos_panel/file_service.py:294-312 | one round of the loop, and what it makes without recording |
| Zips.Extraction.AddEntryAt | talos_panel/file_service.py:294-312 | the same in terms of the plan |
| Zips.Extraction.Process | talos_panel/file_service.py:294-312 | stops at the first entry that fails; what is unrecorded by then is known exactly |
| Zips.Extraction.Rollback | talos_panel/file_service.py:321-327 | leaves exactly the first tree plus what lies above an unrecorded node |
| Zips.Extraction.Run | talos_panel/file_service.py:294-327 | on success the planned tree and the number of files; on a failure exactly which nodes are left |
| Zips.FailureLeavesNothing | talos_panel/file_service.py:294-327 | which failures leave the first tree: with files open, exactly those before which each directory entry found its parent and whose own entry made neither file nor ancestor; otherwise those at which nothing had been made |
| Zips.OrderedArchiveIsUndone | talos_panel/file_service.py:294-327 | if each directory entry comes after its parent, every failure with files open but a half-written file is undone |
| Zips.NothingImplicit | talos_panel/file_service.py:295-300 | nothing goes unrecorded above the directory entries of a stretch that unpacks if and only if each found its parent there |
| Zips.ExtractZip | talos_panel/file_service.py:261-327 | a refused archive changes nothing; an accepted one ends as its plan says; never alters a node that was there |
| Downloads.CreateDirectoryArchive | talos_panel/file_service.py:144-172 | succeeds exactly for a directory with no failing call, with an entry for each file and each hollow directory |
| Downloads.WriteEntries | talos_panel/file_service.py:155-168 | the loop over the walk writes the entries of the listed paths in order |
| Downloads.AddVisit | talos_panel/file_service.py:160-168 | the entries of one directory: itself if hollow, and its files |
| Downloads.AddFiles | talos_panel/file_service.py:164-168 | the inner loop over the files, links left out |
| Downloads.WalkListsAll | talos_panel/file_service.py:155-168 | the walk lists each such path exactly once |
| Downloads.DownloadRoundTrip | talos_panel/file_service.py:155-313 | a download unpacked where its name is free, in a directory that is there or still to be made, recreates every carried path with its content and changes nothing else |
| Downloads.CarriesEverything | talos_panel/file_service.py:157-168 | every file and directory is carried if and only if no directory holds links to files and nothing else that is real |
| Downloads.LinkFreeCarriesEverything | talos_panel/file_service.py:155-168 | a directory without links is carried whole |
| Moves.ContainsLink | talos_panel/file_service.py:422-427 | true exactly if a link lies below the directory |
| Moves.CheckedIsRoute | talos_panel/file_service.py:209-223 | what passes the checks is a link-free source, a free destination, and no directory into itself |
| Moves.CheckedExactly | talos_panel/file_service.py:209-223 | the checks accept exactly the routes from a source without links to a free place with an accepted name |
| Moves.ServerDirectory.CheckPaths | talos_panel/file_service.py:231-245 | the checks in their order |
| Moves.ServerDirectory.MovePath | talos_panel/file_service.py:209-228 | carries the subtree over and changes nothing else, exactly if the checks pass, the parent exists and the call goes through; otherwise nothing changes |
| Moves.MovedIsWellFormed | talos_panel/file_service.py:222-228 | after a move every path still lies in a directory, so none became its own descendant |
| Moves.MoveIsUndone | talos_panel/file_service.py:209-228 | the reverse move is accepted and gives exactly the first tree |
| Moves.CopiesExactlyThere | talos_panel/file_service.py:246-250 | a file can be copied if and only if the parent is a directory, a directory if and only if its parent can be made |
| Moves.ServerDirectory.CopyPath | talos_panel/file_service.py:231-258 | checks passed and no call failing, succeeds exactly there; the subtree at the destination equals the source; what a failed copy leaves |
| Moves.CopyTouchesNothingElse | talos_panel/file_service.py:246-250 | a copy leaves every path outside the destination unchanged if and only if the parent was a directory |
| Moves.FailedCopyTouchesNothing | talos_panel/file_service.py:246-257 | a failed copy changes nothing if and only if it made no missing parent: for a file always, for a directory being copied if and only if the parent was there |
| Moves.FailedCopyLeavesParents | talos_panel/file_service.py:248-257 | a failed copy of a directory leaves exactly the parents it came to, as directories |
| Text.SplitJoin | talos_panel/server_settings.py:58 | joining lines and splitting the text gives the lines back |
| Text.SplitAround | talos_panel/server_settings.py:153 | a text of joined lines around one that breaks splits into the lines before, its pieces and the lines after |
| Text.StripTrims | talos_panel/server_settings.py:66 | stripping leaves a text unchanged exactly if it has no space around it |
| Text.StripMeans | talos_panel/server_settings.py:66 | stripping takes spaces from both ends and nothing else |
| Text.LowerMeans | talos_panel/server_settings.py:44 | comparing in lower case is comparing letter by letter in either case |
| Text.ParseIntMeans | talos_panel/server_settings.py:71 | which texts are numbers: a sign or none, digits with single underscores between them, at most 4300, and which number each is |
| Text.ParseIntOfShow | talos_panel/server_settings.py:71 | a printed number is read back |
| Properties.PropertiesStore.ReadServerProperties | talos_panel/server_settings.py:47-89 | the settings the text stands for, or the error for a link or an unreadable file |
| Properties.PropertiesStore.WriteServerProperties | talos_panel/server_settings.py:114-162 | the file holds the rewritten text, or an error and the old file |
| Properties.RewriteLines | talos_panel/server_settings.py:135-147 | the two loops give the rewritten lines |
| Properties.RewriteExisting | talos_panel/server_settings.py:137-144 | the first loop keeps unmanaged lines and replaces the first line of each managed key |
| Properties.AppendMissing | talos_panel/server_settings.py:145-147 | the second loop appends the keys not written yet |
| Properties.ReadIsValid | talos_panel/server_settings.py:57-89 | any text reads as settings within the declared bounds |
| Properties.WriteKeepsLayout | talos_panel/server_settings.py:135-153 | unmanaged lines survive verbatim in order, each managed key occurs once, at its first old place or at the end |
| Properties.LastWriteWins | talos_panel/server_settings.py:135-153 | writing twice gives the text of the second write alone, for one-line messages |
| Properties.RoundTrip | talos_panel/server_settings.py:57-153 | for every old file, the settings written are read back if and only if the message is trimmed and on one line |
| Readings.AssignmentReads | talos_panel/server_settings.py:58-88 | a line with a setting's name before its first equals sign assigns what follows: words in any case, old numbers, bounds, message cut at 100 |
| Readings.OthersArePassedOver | talos_panel/server_settings.py:60-65 | any other line is passed over |
| Readings.NothingReads | talos_panel/server_settings.py:14-23 | what no line sets has its default |
| Readings.ReadsInOrder | talos_panel/server_settings.py:57-89 | lines are read one over the other |
| Readings.LaterLinesKeep | talos_panel/server_settings.py:57-89 | of several lines for one setting the last counts |
| Readings.LinesStayInPlace | talos_panel/server_settings.py:135-147 | kept lines and first lines of a setting stay in order, repeated ones go, missing settings follow in the order of the form |
| Readings.FlattenMeans | talos_panel/server_settings.py:125 | carriage returns and line feeds in a message become spaces, and they alone |
| Readings.FlattenedComesBack | talos_panel/server_settings.py:57-153 | such a message comes back with those spaces, trimmed |
| Rewrites.TraceLaw | talos_panel/server_settings.py:125-153 | the last write wins for every file and second write if and only if the message breaks only into assignments to the message |
| Rewrites.LayoutOfWritten | talos_panel/server_settings.py:135-153 | what lines a written file has, whatever the message breaks into |
| Operations.ServerRecord.SampleAndRecover | talos_panel/operations_service.py:95-139 | the new record, the audit events and the start call of one pass |
| Operations.PassMeans | talos_panel/operations_service.py:95-139 | one pass spelled out: when a crash is reported, when start is called, every field and event afterwards |
| Operations.FailuresStayWithinLimit | talos_panel/operations_service.py:100-116 | over every run the failure count stays within the limit |
| Operations.StartsSpendTheBudget | talos_panel/operations_service.py:100-116 | without a running observation or a save of a disabled policy, start calls are at most what the limit leaves |
| Operations.RetriesUntilSpent | talos_panel/operations_service.py:110-116 | a wanted, watched server that stays down is started in every pass until the budget is spent |
| Operations.StartsAreAudited | talos_panel/operations_service.py:117-138 | over every run start calls equal restart events |
| Operations.CrashFollowsRunning | talos_panel/operations_service.py:95-109 | each crash belongs to the pass before it, which ended with the server running |
| Operations.CrashesHaveOwnPasses | talos_panel/operations_service.py:95-109 | no two crashes share that pass |
| Operations.ServerRecord.UpdateRestartPolicy | talos_panel/web.py:1299-1302 | the saved policy, and the failure count it resets |
| Operations.ServerRecord.UpdateBackupPolicy | talos_panel/web.py:939-944 | the saved policy and when the next backup is due; rows and files stay |
| Operations.DueMeansAttempted | talos_panel/operations_service.py:141-197 | a due backup is attempted whatever the container does, succeeds exactly if its calls do and then has its row; the next is due exactly an interval, or after a failure an hour, later |
| Operations.NewFileIsThere | talos_panel/operations_service.py:162-167 | and its file |
| Operations.DueBackupIsAttempted | talos_panel/operations_service.py:141-197 | over every run with passes at most a period apart, the first pass from the due time on attempts the backup, less than a period late |
| Operations.ServerRecord.ScheduledBackup | talos_panel/operations_service.py:141-209 | one step of the runs: each outcome exactly when it is due, due time, rows and files left, console commands; rows keep files of their own |
| Operations.ServerRecord.MakeArtifact | talos_panel/operations_service.py:153-184 | saving is resumed on every way out on which it was paused |
| Operations.ServerRecord.KeepBackup | talos_panel/operations_service.py:185-209 | the new row, the next due time, and the retention it triggers; rows keep files of their own |
| Operations.ServerRecord.AddRow | talos_panel/web.py:902-913 | the row and file of a new backup, newest first |
| Operations.ServerRecord.DeleteRow | talos_panel/web.py:1167-1189 | row and file go together or not at all |
| Operations.ServerRecord.DeleteExpired | talos_panel/operations_service.py:198-209 | exactly the expired rows whose file can be deleted go, with their files and no others |
| Operations.BackupsKeepTheInterval | talos_panel/operations_service.py:147-197 | after a success no attempt comes before the interval then in force, over every run without a save |
| Operations.FailureWaitsAnHour | talos_panel/operations_service.py:168-177 | after a failure no attempt comes within the hour |
| Operations.SavedPolicyStartsAfresh | talos_panel/web.py:939-944 | after a save no attempt comes before the new interval |
| Operations.RetainedIsNewest | talos_panel/operations_service.py:191-209 | a row is left if and only if fewer than `backup_retention` are newer or its file could not be deleted |
| Operations.PassKeepsTheNewest | talos_panel/operations_service.py:185-209 | the same of the rows one pass finds, its own new row among them |
| Operations.RunStaysOrderly | talos_panel/operations_service.py:141-209 | over every run of passes, policy saves, backups taken, deleted and lost, with increasing backup times, rows stay newest first, not younger than the clock, each with a file of its own |
| Operations.RetentionHolds | talos_panel/operations_service.py:185-209 | after every such run a successful pass leaves exactly the newest `backup_retention` rows, its own among them, and those whose file it could not delete, and no file goes but with its row |
| Operations.NothingStuckNothingLeft | talos_panel/operations_service.py:198-209 | if every file is there and can be deleted, exactly the newest rows are left, at most `backup_retention` |
| Containers.LabelsTellTheProfile | talos_panel/runtime.py:129-137 | the labels of a container match a record if and only if it was created for the same memory, port, flags, type and version |
| Containers.ProfileTextInjective | talos_panel/runtime.py:192-195 | different flag settings are hashed from different texts |
| Containers.LabelsStayTrue | talos_panel/runtime.py:123-190 | over every run the labels are those of the record the container was created for |
| Containers.SameProfileSameLaunch | talos_panel/runtime.py:144-190 | the launch entry by entry: version, type in capitals, memory, Aikar flag, the `-XX` flags and the others in order or no such entry, port, memory limit, image |
| Containers.StartSucceeds | talos_panel/runtime.py:123-190 | with Docker willing, a start succeeds exactly if the container runs, matches, or can be created: Java 8, 11, 17, 21 or 25 and readable flags |
| Containers.FailedStartLeaves | talos_panel/runtime.py:123-190 | a start that raises leaves the container, none, or a new one that does not run |
| Containers.StopStops | talos_panel/runtime.py:209-230 | a stop changes the status of a running container and nothing else, and when it succeeds |
| Containers.RestartSucceeds | talos_panel/runtime.py:407-409 | with Docker willing, a restart succeeds exactly if the profile matches or a container can be created |
| Containers.RemoveRemoves | talos_panel/runtime.py:411-424 | a removal that succeeds leaves no container, one that raises leaves it, perhaps stopped |
| Containers.StartRunsTheRecord | talos_panel/runtime.py:123-190 | a start from a stopped or missing container leaves one that runs, launched entry by entry as the record says |
| Containers.RestartRunsTheRecord | talos_panel/runtime.py:407-409 | so does a restart after any run |
| Containers.JavaIsKeptWhenLabelsMatch | talos_panel/runtime.py:129-142 | it also runs the record's Java if and only if it was replaced or had that Java before |
| Containers.StartSparesWhatRuns | talos_panel/runtime.py:138-142 | no start touches a running container or replaces one whose profile matches |
| Containers.ForeignIsLeftAlone | talos_panel/runtime.py:94-102 | a container without the panel's labels is never touched |
| Containers.DockerRuntime.StartSync | talos_panel/runtime.py:118-190 | the container and the answer of one start, for each call that may fail |
| Containers.DockerRuntime.StopServer | talos_panel/runtime.py:209-230 | the container and the answer of one stop |
| Containers.DockerRuntime.RestartServer | talos_panel/runtime.py:407-409 | a stop, and a start unless it raised |
| Containers.DockerRuntime.RemoveContainer | talos_panel/runtime.py:411-424 | the container and the answer of one removal |
| Versions.RestoreUndoesTheRun | talos_panel/web.py:1114-1158 | a backup restored after any steps that kept it brings back the pruned tree and the version columns |
| Versions.SafetyUndoesTheRestore | talos_panel/web.py:1116-1132 | restoring the safety backup after any steps that kept it undoes the restore |
| Versions.RollbackUndoesTheUpdate | talos_panel/web.py:1046-1079 | rolling an update back brings back the pruned tree; the version columns come back if and only if they were those the installed version implies |
| Versions.TakeMeans | talos_panel/web.py:893-911 | the row holds the version columns and the checksum, the file the archive, and nothing else changes |
| Versions.UpdateMeans | talos_panel/web.py:986-1033 | column by column: all three are the target's if it goes through, and what the update row says in each case |
| Versions.RollbackMeans | talos_panel/web.py:1060-1076 | all three columns and the mark, or none of them |
| Versions.RestoreMeans | talos_panel/web.py:1115-1138 | a safety backup first, then the directory; no column changes unless the archive was put in place |
| Versions.RestoreBringsColumns | talos_panel/web.py:1139-1156 | the columns are the row's, with the fallbacks for a game or Java version it lacks |
| Versions.OldRowBringsUpdate | talos_panel/web.py:1142-1156 | an old row brings what the latest update that names it started from, or nothing |
| Versions.DeleteMeans | talos_panel/web.py:1177-1184 | row and file go, and no update names the backup any more |
| Versions.LatestIsLinked | talos_panel/web.py:1142-1147 | the linked update is the latest that names the backup |
| Versions.ColumnsComeBack | talos_panel/web.py:1139-1156 | a row brings its columns back exactly when they are recoverable, whatever they are by then |
| Versions.RestoreGivesBack | talos_panel/web.py:1131-1156 | a restore of a backup of a tree brings back that tree, pruned, and the columns |
| Versions.RollbackGivesBack | talos_panel/web.py:1062-1076 | so does a rollback, with the columns the first version implies |
| Versions.HeldCanBeRestored | talos_panel/backup_service.py:106-136 | a backup the panel holds passes the checks of a restore if and only if the files backed up fit into the limit together |
| Versions.RunKeepsBackup | talos_panel/web.py:881-1189 | a row and its file stay what they are over every run that does not delete them |
| Versions.StepKeepsValid | talos_panel/web.py:881-1189 | rows keep their own files, updates name rows that exist, and the directory stays a tree |
| Versions.Panel.CreateServerBackup | talos_panel/web.py:881-921 | succeeds exactly for a stopped server with a directory; one new row and file, or no change |
| Versions.Panel.Take | talos_panel/web.py:893-911 | the archive and the row that describes it, or no change |
| Versions.Panel.UpdateServerVersion | talos_panel/web.py:973-1043 | a backup first, then the new version columns, a failed update row, or one left downloading when an exception goes through |
| Versions.Panel.RollbackServerUpdate | talos_panel/web.py:1046-1079 | the restored directory, and the columns unless a later call raises |
| Versions.Panel.RestoreFile | talos_panel/backup_service.py:98-159 | the directory after a restore that returned or raised; without faults it returns if and only if the backup is good and within the limit |
| Versions.Panel.RestoreVersions | talos_panel/web.py:1139-1156 | the columns a row brings back, with the update it belongs to as a fallback |
| Versions.Panel.RestoreServerBackup | talos_panel/web.py:1100-1164 | a safety backup first, then directory and columns; when it succeeds and what a failure leaves |
| Versions.Panel.DeleteServerBackup | talos_panel/web.py:1167-1189 | row and file go together or not at all |
| VarInts.VarInt | talos_panel/minecraft_status.py:71-79 | the canonical encoding of the number below 2^32 that differs from the value by a multiple of 2^32 |
| VarInts.DecodeVarInt | talos_panel/minecraft_status.py:104-114 | the buffer decoder, on every input and offset |
| VarInts.StreamReader.ReadExactly | talos_panel/minecraft_status.py:90-101 | the next bytes, or none and the stream is used up |
| VarInts.DecodeMeaning | talos_panel/minecraft_status.py:104-114 | it returns a value and an end exactly for an encoding of that value that ends there |
| VarInts.DecodeErrors | talos_panel/minecraft_status.py:104-114 | otherwise the bytes end before a last group, or five groups go by without one |
| VarInts.CanonicalIsUnique | talos_panel/minecraft_status.py:71-79 | there is one canonical encoding of each number |
| VarInts.MinusOne | talos_panel/minecraft_status.py:132 | -1 is written FF FF FF FF 0F |
| VarInts.VarIntRoundTrip | talos_panel/minecraft_status.py:71-114 | for every integer the bytes are canonical, and decoding them, whatever surrounds them, uses exactly those one to five bytes and gives the number below 2^32 that differs by a multiple of 2^32 |
| VarInts.VarIntIsMinimal | talos_panel/minecraft_status.py:71-114 | no accepted encoding of a value is shorter, and none as short is different |
| VarInts.StreamReader.ReadVarInt | talos_panel/minecraft_status.py:87-94 | the stream decoder agrees with the buffer decoder on every input |
| VarInts.StreamReader.ReadPacket | talos_panel/minecraft_status.py:97-101 | the packet framed at the position, or why there is none |
| VarInts.StreamReader.ReadStatus | talos_panel/minecraft_status.py:136-143 | the text of the status packet, or why there is none |
| VarInts.ReplyRoundTrip | talos_panel/minecraft_status.py:136-143 | a framed reply comes back as its text if and only if it has at most 131068 bytes |
| VarInts.StatusMeaning | talos_panel/minecraft_status.py:97-142 | which bytes are accepted as a reply, and as which text: a packet of 1 to 2097152 bytes that is the number 0, a length of at most 131068, and that many bytes |
| Accounts.Panel.LoadIdentity | talos_panel/auth.py:120-143 | whom the session belongs to, and what the check writes into it |
| Accounts.IdentityMeans | talos_panel/auth.py:120-143 | whom a request belongs to, and what the check writes into the session |
| Accounts.Panel.CreateSession | talos_panel/auth.py:83-105 | a session seen now that expires after the absolute period |
| Accounts.UsedSessionStaysAccepted | talos_panel/auth.py:124-143 | requests at most the idle period less a minute apart are all accepted until the absolute expiry, whatever happens to other sessions and users |
| Accounts.LoginLasts | talos_panel/auth.py:83-143 | so a login used at that pace lasts for the whole absolute period |
| Accounts.MinuteIsNeeded | talos_panel/auth.py:138-140 | with gaps a microsecond longer one may be rejected |
| Accounts.SilentSessionIsOver | talos_panel/auth.py:130-134 | after a silence of the idle period or longer the next request and every later one is rejected, whatever others do meanwhile |
| Accounts.OverIsForGood | talos_panel/auth.py:128-134 | a revoked or expired session stays rejected over every run |
| Accounts.StepStaysGoverned | talos_panel/auth_web.py:117-685 | no request takes the last active administrator away |
| Accounts.FailureStaysThrottled | talos_panel/auth_web.py:159-189 | an attempt that is let through may be recorded without filling any window beyond five |
| Accounts.DisabledUserIsOut | talos_panel/auth_web.py:646-658 | disabling or deleting a user ends all their sessions for good |
| Accounts.NeverMoreThanFive | talos_panel/auth_web.py:159-189 | over every run no closed fifteen-minute window holds more than five recorded failures of one address |
| Accounts.FiveFailuresBlock | talos_panel/auth_web.py:159-167 | five failures within fifteen minutes do block the address |
| Accounts.BlockedByFive | talos_panel/auth_web.py:159-167 | blocked is exactly an address with five failures in the last fifteen minutes |
| Accounts.LoginNeedsProof | talos_panel/auth_web.py:158-196 | a session is made only for a proven login to an active account from an address that is not blocked; any other attempt is recorded unless blocked |
| Accounts.SetupWorksOnce | talos_panel/auth_web.py:117-140 | only without users, and it makes an active administrator |
| Accounts.AlwaysGoverned | talos_panel/auth_web.py:117-140 | over every run, if there are users there is an active administrator |
| Accounts.CountsNeverRefuse | talos_panel/auth_web.py:628-683 | the guards let an administrator disable or delete exactly the existing other users |
| Accounts.StrangersDoNothing | talos_panel/auth.py:161-172 | a request without an identity changes nothing but the session it names |
| Accounts.MembersKeepToThemselves | talos_panel/auth_web.py:542 | a member changes no user and nobody else's session, and with an administrator's deed no session but the one of the request |
| Accounts.OwnDeeds | talos_panel/auth_web.py:202-322 | what each deed on one's own account does to every session |
| Accounts.AdministratorsChangeUsers | talos_panel/auth_web.py:534-685 | what each deed of an administrator does to the users |
| Accounts.AdministratorsEndSessions | talos_panel/auth_web.py:558-685 | and to every session |
| Accounts.Panel.SetupAdmin | talos_panel/auth_web.py:117-140 | makes the first user, an active administrator, only while there is none |
| Accounts.Panel.LogIn | talos_panel/auth_web.py:150-199 | blocked, recorded as a failure, or a new session |
| Accounts.Panel.RevokeOpen | talos_panel/auth_web.py:647-656 | the loop revokes exactly the open sessions of the user |
| Accounts.Panel.Handle | talos_panel/auth.py:161-172 | one request is one step; unauthorized exactly without an identity, forbidden exactly for a member's request for an administrator's deed, and otherwise granted exactly if feasible |
| Accounts.Panel.RevokeOwnSession | talos_panel/auth_web.py:271-291 | another session of one's own, never the current one |
| Accounts.Panel.AddUser | talos_panel/auth_web.py:534-555 | a new active user unless there is one |
| Accounts.Panel.EnableUser | talos_panel/auth_web.py:645-645 | the user is active afterwards |
| Accounts.Panel.DisableUser | talos_panel/auth_web.py:619-661 | the guards in their order; the user is inactive and their sessions are revoked |
| Accounts.Panel.RemoveUser | talos_panel/auth_web.py:663-685 | the guards in their order; the user and their sessions are gone |
| Surprises.AloneHasRoom | talos_panel/file_service.py:262-265 | a directory with only the archive in it is one the next three apply to |
| Surprises.ExtractionLeavesParent | talos_panel/file_service.py:295-300 | an archive with `a/b/` before `c` is accepted, and an extraction that fails at `c` leaves the tree with `a` |
| Surprises.ExtractionLeavesHalfFile | talos_panel/file_service.py:309-312 | an extraction that fails while writing `c` leaves the tree with `c` |
| Surprises.ExtractionUndoesNothing | talos_panel/file_service.py:318-327 | with directory entries `a/` and `b/` only, an extraction that fails at `b` leaves the tree with `a` |
| Surprises.DownloadLosesDirectory | talos_panel/file_service.py:162-167 | a directory with one link to a file is not carried |
| Surprises.CopyMakesParents | talos_panel/file_service.py:248 | a copy to `p/a` makes `p` |
| Surprises.FailedCopyLeavesParent | talos_panel/file_service.py:248-257 | a copy to `p/a` that fails leaves `p` |
| Surprises.BackupBeyondLimit | talos_panel/backup_service.py:115-118 | a directory with one file above the limit has a backup that is above it |
| Surprises.JavaStaysBehind | talos_panel/runtime.py:129-142 | a stopped container made with Java 17 is started with it when the record says 21 |
| Surprises.TabCutsTheMessage | talos_panel/server_settings.py:125 | a message with a vertical tab never comes back |
| Surprises.TabLeavesALine | talos_panel/server_settings.py:125 | and leaves a trace that some later write keeps |

## Left out

- Concurrency: handlers and passes are atomic steps. Stale rows, two handlers on one directory, failing commits and the rollback of a session are not modelled; in the maintenance loop an exception in one server's pass, which discards the changes of servers before it, is not either.
- Zips.Extraction.Rollback: the calls of the rollback itself do not fail.
- Zips.Extraction.AddFile: opening and copying are one call each that may fail; how much of a half-written file is there is not modelled.
- Backups.RestoreArea: a member is written in one call that may fail; the owner of restored files is not modelled.
- Moves.ServerDirectory.CopyPath: removing the half-made copy after a failure does not fail.
- Trees.Walk: `os.walk` skips directories it cannot read; here every directory can be read.
- Byte formats of tar, gzip and zip, time stamps, ownership, hard links and special files: archives are entry lists. ZIP modes are not applied by the code and not modelled.
- `BACKUP_NAME` and the rest of `resolve_backup_file`: a file name either names a backup file or does not.
- Resolution: that `lstat` raises on names of more than 255 bytes is not modelled; a leading link in the part of the path above the server root is resolved by the same walk; the kernel's limit of forty links is not modelled.
- Text: `int()` and `lower()` are modelled on ASCII; other digits and letters cannot spell a managed value, but `int()` also reads other decimal digits, which here counts as no number.
- Properties: UTF-8 decoding is one flag; text is a sequence of characters.
- Containers: `shlex.split` and the flag checks are a function parameter, the image's behaviour is not modelled, and a container that disappears in the middle of a call is not either.
- Versions: `java_version_for` is a function parameter, so the results hold for every such table; `installation_state`, the container id and the retention loop are left to the other modules.
- Operations: metric samples, the status query and `use_panel_restart_policy`, which change nothing that recovery reads.
- Accounts: passwords, TOTP, recovery codes, CSRF, random tokens (a token or id that is taken is refused) and the enabling of two-factor login, which revokes sessions as a password change does; audit retention does not remove failed logins.
- VarInts: JSON, the handshake that is sent, and time-outs.
- `changed_setting_fields`, `live_setting_commands`, path protection while the server runs, uploads, plugin toggles, audit paging, presentation: they would add only easy members.
