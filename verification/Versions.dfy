/**
  * The backup, update, rollback and restore handlers of `web.py`, over one server: its directory, its version
  * columns, its backup rows and their files. Every handler call is one step; runs of steps are arbitrary.
  */
module Versions {
  import opened Common
  import opened Paths
  import opened Trees
  import opened Backups

  type Id = string

  /** The version columns of a server. */
  datatype Version = Version(installed: Option<string>, game: string, java: Option<nat>)

  /** A backup row; old rows may lack a checksum and versions. */
  datatype Backup = Backup(
    fileName: string,
    checksum: Option<Digest>,
    installed: Option<string>,
    game: Option<string>,
    java: Option<nat>)

  datatype Progress = Downloading | Completed | Failed | RolledBack

  datatype Update = Update(backupId: Option<Id>, fromVersion: string, progress: Progress)

  datatype State = State(
    root: Option<Tree>,
    version: Version,
    backups: map<Id, Backup>,
    archives: map<string, Archive>,
    updates: seq<Update>)

  /** `java_version_for`: None where it raises. */
  type JavaFor = string -> Option<nat>

  // ------------------------------------------------------------------
  // Steps
  // ------------------------------------------------------------------

  /** A new backup: the id of its row, its file name and the archive written. */
  datatype Taken = Taken(id: Id, fileName: string, archive: Archive)

  /** How `restore_backup` ends: raising with the directory as it was, raising with it moved aside, or well. */
  datatype Ending = Untouched | MovedAside | Done

  /** How far `update_server_version` gets once the backup is taken; `Broken` is an exception it does not catch. */
  datatype Reach = Unavailable | Broken | Replaced

  /** How `runtime.remove` ends: well, with the runtime's own error, or with one of Docker's. */
  datatype Removal = Removed | Refused | Broke

  datatype Action =
    | TakeBackup(taken: Taken)
    | UpdateVersion(taken: Taken, target: string, reach: Reach)
    | Rollback(update: nat, ending: Ending, removed: bool)
    | RestoreBackup(id: Id, safety: Taken, ending: Ending)
    | DeleteBackup(id: Id)
    | FilesChange(root: Option<Tree>)
    | VersionReported(version: Version)

  function BackupOf(v: Version, taken: Taken): Backup {
    Backup(taken.fileName, Some(Sha256(taken.archive)), v.installed, Some(v.game), v.java)
  }

  function WithBackup(s: State, taken: Taken): State {
    s.(backups := s.backups[taken.id := BackupOf(s.version, taken)],
       archives := s.archives[taken.fileName := taken.archive])
  }

  /** The most recent update that names the backup. */
  function LinkedUpdate(updates: seq<Update>, id: Id): Option<Update> {
    if updates == [] then None
    else
      var last := updates[|updates| - 1];
      if last.backupId == Some(id) then Some(last) else LinkedUpdate(updates[..|updates| - 1], id)
  }

  /** What `restored_version`, `restored_game_version` and `restored_java_version` end up as. */
  function RowVersions(javaFor: JavaFor, row: Backup, linked: Option<Update>): Option<Backup> {
    if row.installed.Some? || linked.None? then Some(row)
    else if javaFor(linked.value.fromVersion).None? then None
    else
      Some(row.(installed := Some(linked.value.fromVersion),
                game := Some(linked.value.fromVersion),
                java := javaFor(linked.value.fromVersion)))
  }

  /** Python's `a or b` with the falsy values of the columns. */
  function GameOr(game: Option<string>, installed: string): string {
    if game in {None, Some("")} then installed else game.value
  }

  function JavaOr(java: Option<nat>, fallback: Option<nat>): Option<nat> {
    if java in {None, Some(0)} then fallback else java
  }

  /** The version columns after a restore, or None where `java_version_for` raises and nothing is saved. */
  function VersionAfter(javaFor: JavaFor, v: Version, row: Backup, linked: Option<Update>): Option<Version> {
    match RowVersions(javaFor, row, linked)
    case None => None
    case Some(r) =>
      if r.installed.None? then Some(v)
      else
        var java := JavaOr(r.java, javaFor(r.installed.value));
        if java.None? then None else Some(Version(r.installed, GameOr(r.game, r.installed.value), java))
  }

  function RootAfter(s: State, row: Backup, ending: Ending): Option<Tree> {
    match ending
    case Untouched => s.root
    case MovedAside => None
    case Done => if row.fileName in s.archives then Unpack(map[], s.archives[row.fileName]) else s.root
  }

  /** `ON DELETE SET NULL` */
  function Unlink(updates: seq<Update>, id: Id): seq<Update> {
    if updates == [] then []
    else
      [if updates[0].backupId == Some(id) then updates[0].(backupId := None) else updates[0]]
      + Unlink(updates[1..], id)
  }

  function AfterUpdate(javaFor: JavaFor, s: State, taken: Taken, target: string, reach: Reach): State
    requires s.version.installed.Some?
  {
    var saved := WithBackup(s, taken);
    var fromVersion := s.version.installed.value;
    match reach
    case Unavailable => saved.(updates := s.updates + [Update(Some(taken.id), fromVersion, Failed)])
    case Broken => saved.(updates := s.updates + [Update(Some(taken.id), fromVersion, Downloading)])
    case Replaced =>
      // the columns are assigned before `java_version_for` may raise
      if javaFor(target).None? then
        saved.(version := Version(Some(target), target, s.version.java),
               updates := s.updates + [Update(Some(taken.id), fromVersion, Failed)])
      else
        saved.(version := Version(Some(target), target, javaFor(target)),
               updates := s.updates + [Update(Some(taken.id), fromVersion, Completed)])
  }

  function AfterRollback(javaFor: JavaFor, s: State, update: nat, ending: Ending, removed: bool): State
    requires update < |s.updates| && s.updates[update].backupId.Some? && s.updates[update].backupId.value in s.backups
  {
    var u := s.updates[update];
    var restored := s.(root := RootAfter(s, s.backups[u.backupId.value], ending));
    if !ending.Done? || javaFor(u.fromVersion).None? || !removed then restored
    else
      restored.(version := Version(Some(u.fromVersion), u.fromVersion, javaFor(u.fromVersion)),
                updates := s.updates[update := u.(progress := RolledBack)])
  }

  function AfterRestore(javaFor: JavaFor, s: State, id: Id, safety: Taken, ending: Ending): State
    requires id in s.backups
  {
    var saved := WithBackup(s, safety);
    var row := s.backups[id];
    var restored := saved.(root := RootAfter(s, row, ending));
    var version := VersionAfter(javaFor, s.version, row, LinkedUpdate(s.updates, id));
    if ending.Done? && version.Some? then restored.(version := version.value) else restored
  }

  /** A backup can be taken: of a directory that is there, under names that nothing has. */
  ghost predicate CanTake(s: State, taken: Taken) {
    && s.root.Some?
    && IsFresh(s, taken.id, taken.fileName)
    && IsBackupOf(taken.archive, s.root.value)
  }

  /** `restore_backup` may return normally. */
  predicate CanRestore(s: State, row: Backup) {
    && row.fileName in s.archives
    && row.checksum in {None, Some(Sha256(s.archives[row.fileName]))}
    && Unpack(map[], s.archives[row.fileName]).Some?
  }

  /** The backup is good and within the limit. */
  predicate IsRestorable(s: State, row: Backup, maxBytes: nat) {
    CanRestore(s, row) && TotalSize(s.archives[row.fileName]) <= maxBytes
  }

  ghost predicate Enabled(s: State, a: Action) {
    match a
    case TakeBackup(taken) => CanTake(s, taken)
    case UpdateVersion(taken, target, reach) => CanTake(s, taken) && s.version.installed !in {None, Some("")}
    case Rollback(update, ending, removed) =>
      && update < |s.updates|
      && s.updates[update].backupId.Some?
      && s.updates[update].backupId.value in s.backups
      && (ending.Done? ==> CanRestore(s, s.backups[s.updates[update].backupId.value]))
    case RestoreBackup(id, safety, ending) =>
      id in s.backups && CanTake(s, safety) && (ending.Done? ==> CanRestore(s, s.backups[id]))
    case DeleteBackup(id) => id in s.backups && s.backups[id].fileName in s.archives
    case FilesChange(root) => root.Some? ==> WellFormed(root.value)
    case VersionReported(version) => true
  }

  function Next(javaFor: JavaFor, s: State, a: Action): State
    requires Enabled(s, a)
  {
    match a
    case TakeBackup(taken) => WithBackup(s, taken)
    case UpdateVersion(taken, target, reach) => AfterUpdate(javaFor, s, taken, target, reach)
    case Rollback(update, ending, removed) => AfterRollback(javaFor, s, update, ending, removed)
    case RestoreBackup(id, safety, ending) => AfterRestore(javaFor, s, id, safety, ending)
    case DeleteBackup(id) =>
      s.(backups := s.backups - {id},
         archives := s.archives - {s.backups[id].fileName},
         updates := Unlink(s.updates, id))
    case FilesChange(root) => s.(root := root)
    case VersionReported(version) => s.(version := version)
  }

  /** The action was possible, and it is what happened. */
  ghost predicate Moved(javaFor: JavaFor, before: State, a: Action, after: State) {
    Enabled(before, a) && after == Next(javaFor, before, a)
  }

  /** A row id and a file name with random digits in them, which nothing has yet. */
  ghost predicate IsFresh(s: State, id: Id, fileName: string) {
    && id !in s.backups
    && fileName !in s.archives
    && forall other :: other in s.backups ==> s.backups[other].fileName != fileName
  }

  // ------------------------------------------------------------------
  // The steps, column by column
  // ------------------------------------------------------------------

  /** The row holds the version columns of the moment, the file its archive, and nothing else has changed. */
  predicate HasTaken(before: State, after: State, taken: Taken) {
    && after.backups.Keys == before.backups.Keys + {taken.id}
    && (forall id :: id in before.backups && id != taken.id ==> after.backups[id] == before.backups[id])
    && after.backups[taken.id].fileName == taken.fileName
    && after.backups[taken.id].checksum == Some(Sha256(taken.archive))
    && after.backups[taken.id].installed == before.version.installed
    && after.backups[taken.id].game == Some(before.version.game)
    && after.backups[taken.id].java == before.version.java
    && after.archives == before.archives[taken.fileName := taken.archive]
  }

  lemma TakeMeans(javaFor: JavaFor, s: State, taken: Taken)
    requires Enabled(s, TakeBackup(taken))
    ensures
      var after := Next(javaFor, s, TakeBackup(taken));
      HasTaken(s, after, taken) && after.root == s.root && after.version == s.version && after.updates == s.updates
  {
  }

  /**
    * An update takes a backup first. If it goes through, all three version columns are those of the target; the
    * row it leaves says from which version, with which backup, and how it ended.
    */
  lemma UpdateMeans(javaFor: JavaFor, s: State, taken: Taken, target: string, reach: Reach)
    requires Enabled(s, UpdateVersion(taken, target, reach))
    ensures
      var after := Next(javaFor, s, UpdateVersion(taken, target, reach));
      && HasTaken(s, after, taken) && after.root == s.root
      && after.version.installed == (if reach == Replaced then Some(target) else s.version.installed)
      && after.version.game == (if reach == Replaced then target else s.version.game)
      && after.version.java ==
         (if reach == Replaced && javaFor(target).Some? then javaFor(target) else s.version.java)
      && |after.updates| == |s.updates| + 1 && after.updates[..|s.updates|] == s.updates
      && after.updates[|s.updates|].backupId == Some(taken.id)
      && Some(after.updates[|s.updates|].fromVersion) == s.version.installed
      && after.updates[|s.updates|].progress ==
         (if reach == Broken then Downloading
          else if reach == Replaced && javaFor(target).Some? then Completed
          else Failed)
  {
  }

  /** What the directory is after the archive behind a row was or was not put in its place. */
  predicate HasRestored(before: State, after: State, row: Backup, ending: Ending) {
    match ending
    case Untouched => after.root == before.root
    case MovedAside => after.root == None
    case Done => row.fileName in before.archives && after.root == Unpack(map[], before.archives[row.fileName])
  }

  /** A rollback sets all three columns and its mark, or none of them. */
  lemma RollbackMeans(javaFor: JavaFor, s: State, update: nat, ending: Ending, removed: bool)
    requires Enabled(s, Rollback(update, ending, removed))
    ensures
      var after := Next(javaFor, s, Rollback(update, ending, removed));
      var u := s.updates[update];
      var saved := ending == Done && removed && javaFor(u.fromVersion).Some?;
      && HasRestored(s, after, s.backups[u.backupId.value], ending)
      && after.backups == s.backups && after.archives == s.archives
      && after.version.installed == (if saved then Some(u.fromVersion) else s.version.installed)
      && after.version.game == (if saved then u.fromVersion else s.version.game)
      && after.version.java == (if saved then javaFor(u.fromVersion) else s.version.java)
      && |after.updates| == |s.updates|
      && (forall i :: 0 <= i < |s.updates| && i != update ==> after.updates[i] == s.updates[i])
      && after.updates[update].backupId == u.backupId && after.updates[update].fromVersion == u.fromVersion
      && after.updates[update].progress == (if saved then RolledBack else u.progress)
  {
  }

  /** `u` is the last of the updates that name the backup. */
  predicate IsLatest(updates: seq<Update>, id: Id, i: nat) {
    && i < |updates| && updates[i].backupId == Some(id)
    && forall j :: i < j < |updates| ==> updates[j].backupId != Some(id)
  }

  /** All three columns say `name`, if there is a Java version for it; otherwise they are as before. */
  predicate IsVersionOf(javaFor: JavaFor, name: string, before: Version, after: Version) {
    if javaFor(name).None? then after == before
    else after.installed == Some(name) && after.game == name && after.java == javaFor(name)
  }

  lemma {:induction false} FindLatest(updates: seq<Update>, id: Id) returns (i: nat)
    requires LinkedUpdate(updates, id).Some?
    ensures i < |updates| && updates[i] == LinkedUpdate(updates, id).value && updates[i].backupId == Some(id)
    ensures forall j :: i < j < |updates| ==> updates[j].backupId != Some(id)
  {
    var n := |updates| - 1;
    if updates[n].backupId == Some(id) {
      i := n;
    } else {
      i := FindLatest(updates[..n], id);
      assert forall j :: 0 <= j < n ==> updates[..n][j] == updates[j];
    }
  }

  lemma {:induction false} NoneNames(updates: seq<Update>, id: Id)
    requires LinkedUpdate(updates, id).None?
    ensures forall i :: 0 <= i < |updates| ==> updates[i].backupId != Some(id)
  {
    if updates != [] {
      var n := |updates| - 1;
      NoneNames(updates[..n], id);
      assert forall i :: 0 <= i < n ==> updates[..n][i] == updates[i];
    }
  }

  lemma VersionsOfOldRow(javaFor: JavaFor, v: Version, row: Backup, linked: Option<Update>)
    requires row.installed.None?
    ensures linked.None? ==> VersionAfter(javaFor, v, row, linked) == Some(v)
    ensures linked.Some? ==>
              var after := VersionAfter(javaFor, v, row, linked);
              IsVersionOf(javaFor, linked.value.fromVersion, v, if after.Some? then after.value else v)
  {
  }

  /** The latest update is unique, so that what it says is what is linked. */
  lemma LatestIsLinked(updates: seq<Update>, id: Id, i: nat)
    requires IsLatest(updates, id, i)
    ensures LinkedUpdate(updates, id) == Some(updates[i])
  {
    if LinkedUpdate(updates, id).None? {
      NoneNames(updates, id);
    } else {
      var j := FindLatest(updates, id);
      assert i == j;
    }
  }

  /**
    * A restore takes a safety backup first, puts the directory in place, and changes columns only when all went
    * well.
    */
  lemma RestoreMeans(javaFor: JavaFor, s: State, id: Id, safety: Taken, ending: Ending)
    requires Enabled(s, RestoreBackup(id, safety, ending))
    ensures
      var after := Next(javaFor, s, RestoreBackup(id, safety, ending));
      && HasTaken(s, after, safety) && HasRestored(s, after, s.backups[id], ending) && after.updates == s.updates
      && (ending != Done ==> after.version == s.version)
  {
  }

  /**
    * The columns are those of the row: the installed version, the game version, or the installed one if the row
    * has none, and the Java version, or the one the installed version implies if the row has none.
    */
  lemma RestoreBringsColumns(javaFor: JavaFor, s: State, id: Id, safety: Taken)
    requires Enabled(s, RestoreBackup(id, safety, Done)) && s.backups[id].installed.Some?
    ensures
      var row := s.backups[id];
      var version := Next(javaFor, s, RestoreBackup(id, safety, Done)).version;
      var java := if row.java in {None, Some(0)} then javaFor(row.installed.value) else row.java;
      if java.None? then version == s.version
      else
        && version.installed == row.installed && version.java == java
        && version.game == if row.game in {None, Some("")} then row.installed.value else row.game.value
  {
  }

  /**
    * An old row without an installed version brings what the latest update that names it started from; without such
    * an update, nothing.
    */
  lemma OldRowBringsUpdate(javaFor: JavaFor, s: State, id: Id, safety: Taken)
    requires Enabled(s, RestoreBackup(id, safety, Done)) && s.backups[id].installed.None?
    ensures
      var version := Next(javaFor, s, RestoreBackup(id, safety, Done)).version;
      forall i: nat :: IsLatest(s.updates, id, i) ==> IsVersionOf(javaFor, s.updates[i].fromVersion, s.version, version)
    ensures (forall i :: 0 <= i < |s.updates| ==> s.updates[i].backupId != Some(id)) ==>
              Next(javaFor, s, RestoreBackup(id, safety, Done)).version == s.version
  {
    VersionsOfOldRow(javaFor, s.version, s.backups[id], LinkedUpdate(s.updates, id));
    forall i: nat | IsLatest(s.updates, id, i) ensures LinkedUpdate(s.updates, id) == Some(s.updates[i]) {
      LatestIsLinked(s.updates, id, i);
    }
    if forall i :: 0 <= i < |s.updates| ==> s.updates[i].backupId != Some(id) {
      UnreferencedIsNotLinked(s.updates, id);
    }
  }

  /** A deleted backup is gone, row and file, and no update names it any more. */
  lemma DeleteMeans(javaFor: JavaFor, s: State, id: Id)
    requires Enabled(s, DeleteBackup(id))
    ensures
      var after := Next(javaFor, s, DeleteBackup(id));
      && after.backups == s.backups - {id} && after.archives == s.archives - {s.backups[id].fileName}
      && after.root == s.root && after.version == s.version
      && |after.updates| == |s.updates|
      && forall i :: 0 <= i < |s.updates| ==>
           && after.updates[i].backupId == (if s.updates[i].backupId == Some(id) then None else s.updates[i].backupId)
           && after.updates[i].fromVersion == s.updates[i].fromVersion
           && after.updates[i].progress == s.updates[i].progress
  {
    UnlinkKeeps(s.updates, id);
  }

  // ------------------------------------------------------------------
  // Runs
  // ------------------------------------------------------------------

  /** What every step keeps. */
  ghost predicate Valid(s: State) {
    && (s.root.Some? ==> WellFormed(s.root.value))
    && OwnFiles(s.backups)
    && (forall i :: 0 <= i < |s.updates| ==> RefersTo(s.updates[i], s.backups))
  }

  /** No two rows share a file. */
  ghost predicate OwnFiles(backups: map<Id, Backup>) {
    forall a, b :: a in backups && b in backups && a != b ==> backups[a].fileName != backups[b].fileName
  }

  predicate RefersTo(u: Update, backups: map<Id, Backup>) {
    u.backupId.Some? ==> u.backupId.value in backups
  }

  /** The steps can be taken one after the other, and none of them deletes the backup `id`. */
  ghost predicate KeepsBackup(javaFor: JavaFor, s: State, actions: seq<Action>, id: Id)
    decreases |actions|
  {
    actions == [] ||
    (&& Enabled(s, actions[0])
     && actions[0] != DeleteBackup(id)
     && KeepsBackup(javaFor, Next(javaFor, s, actions[0]), actions[1..], id))
  }

  ghost function Run(javaFor: JavaFor, s: State, actions: seq<Action>, id: Id): State
    requires KeepsBackup(javaFor, s, actions, id)
    decreases |actions|
  {
    if actions == [] then s else Run(javaFor, Next(javaFor, s, actions[0]), actions[1..], id)
  }

  /** The row `id` and its file hold a backup of the tree `t` at the version `v`. */
  ghost predicate Holds(s: State, id: Id, t: Tree, v: Version) {
    && id in s.backups
    && var row := s.backups[id];
    && row.fileName in s.archives
    && IsBackupOf(s.archives[row.fileName], t)
    && row == BackupOf(v, Taken(id, row.fileName, s.archives[row.fileName]))
    && (v.installed.None? ==> Unreferenced(s.updates, id))
  }

  predicate Unreferenced(updates: seq<Update>, id: Id) {
    forall i :: 0 <= i < |updates| ==> updates[i].backupId != Some(id)
  }

  lemma {:induction false} UnreferencedIsNotLinked(updates: seq<Update>, id: Id)
    requires Unreferenced(updates, id)
    ensures LinkedUpdate(updates, id).None?
  {
    if updates != [] {
      UnreferencedIsNotLinked(updates[..|updates| - 1], id);
    }
  }

  lemma {:induction false} UnlinkKeeps(updates: seq<Update>, id: Id)
    ensures |Unlink(updates, id)| == |updates|
    ensures forall i :: 0 <= i < |updates| ==>
              Unlink(updates, id)[i] == if updates[i].backupId == Some(id) then updates[i].(backupId := None) else updates[i]
  {
    if updates != [] {
      UnlinkKeeps(updates[1..], id);
    }
  }

  lemma {:induction false} UnpackIsWellFormed(t: Tree, archive: Archive)
    requires WellFormed(t) && NoLinks(t) && Unpack(t, archive).Some?
    ensures WellFormed(Unpack(t, archive).value)
    decreases |archive|
  {
    if archive != [] {
      PlaceKeepsStaging(t, archive[0]);
      UnpackIsWellFormed(Place(t, archive[0]).value, archive[1..]);
    }
  }

  // ------------------------------------------------------------------
  // Every run keeps the state valid and the backups it does not delete
  // ------------------------------------------------------------------

  lemma TakingKeepsValid(s: State, taken: Taken)
    requires Valid(s) && CanTake(s, taken)
    ensures Valid(WithBackup(s, taken))
    ensures Holds(WithBackup(s, taken), taken.id, s.root.value, s.version)
  {
    var after := WithBackup(s, taken);
    forall i | 0 <= i < |after.updates| ensures RefersTo(after.updates[i], after.backups) {
      assert RefersTo(s.updates[i], s.backups);
    }
    forall i | 0 <= i < |s.updates| ensures s.updates[i].backupId != Some(taken.id) {
      assert RefersTo(s.updates[i], s.backups);
    }
  }

  lemma RestoringKeepsWellFormed(s: State, row: Backup, ending: Ending)
    requires Valid(s) && (ending.Done? ==> CanRestore(s, row))
    ensures var root := RootAfter(s, row, ending); root.Some? ==> WellFormed(root.value)
  {
    if ending.Done? {
      UnpackIsWellFormed(map[], s.archives[row.fileName]);
    }
  }

  lemma DeletingKeepsValid(javaFor: JavaFor, s: State, id: Id)
    requires Valid(s) && Enabled(s, DeleteBackup(id))
    ensures Valid(Next(javaFor, s, DeleteBackup(id)))
  {
    var after := Next(javaFor, s, DeleteBackup(id));
    UnlinkKeeps(s.updates, id);
    forall i | 0 <= i < |after.updates| ensures RefersTo(after.updates[i], after.backups) {
      assert RefersTo(s.updates[i], s.backups);
    }
  }

  lemma UpdatingKeepsValid(javaFor: JavaFor, s: State, taken: Taken, target: string, reach: Reach)
    requires Valid(s) && Enabled(s, UpdateVersion(taken, target, reach))
    ensures Valid(AfterUpdate(javaFor, s, taken, target, reach))
  {
    TakingKeepsValid(s, taken);
    var after := AfterUpdate(javaFor, s, taken, target, reach);
    forall i | 0 <= i < |after.updates| ensures RefersTo(after.updates[i], after.backups) {
      if i < |s.updates| {
        assert RefersTo(s.updates[i], s.backups);
      }
    }
  }

  lemma RollingBackKeepsValid(javaFor: JavaFor, s: State, update: nat, ending: Ending, removed: bool)
    requires Valid(s) && Enabled(s, Rollback(update, ending, removed))
    ensures Valid(AfterRollback(javaFor, s, update, ending, removed))
  {
    RestoringKeepsWellFormed(s, s.backups[s.updates[update].backupId.value], ending);
    var after := AfterRollback(javaFor, s, update, ending, removed);
    forall i | 0 <= i < |after.updates| ensures RefersTo(after.updates[i], after.backups) {
      assert RefersTo(s.updates[i], s.backups);
    }
  }

  lemma RestoringKeepsValid(javaFor: JavaFor, s: State, id: Id, safety: Taken, ending: Ending)
    requires Valid(s) && Enabled(s, RestoreBackup(id, safety, ending))
    ensures Valid(AfterRestore(javaFor, s, id, safety, ending))
  {
    TakingKeepsValid(s, safety);
    RestoringKeepsWellFormed(s, s.backups[id], ending);
  }

  lemma StepKeepsValid(javaFor: JavaFor, s: State, a: Action)
    requires Valid(s) && Enabled(s, a)
    ensures Valid(Next(javaFor, s, a))
  {
    match a
    case TakeBackup(taken) => TakingKeepsValid(s, taken);
    case UpdateVersion(taken, target, reach) => UpdatingKeepsValid(javaFor, s, taken, target, reach);
    case Rollback(update, ending, removed) => RollingBackKeepsValid(javaFor, s, update, ending, removed);
    case RestoreBackup(id, safety, ending) => RestoringKeepsValid(javaFor, s, id, safety, ending);
    case DeleteBackup(id) => DeletingKeepsValid(javaFor, s, id);
    case FilesChange(root) =>
    case VersionReported(version) =>
  }

  lemma TakingKeepsOthers(s: State, taken: Taken, id: Id, t: Tree, v: Version)
    requires CanTake(s, taken) && Holds(s, id, t, v)
    ensures Holds(WithBackup(s, taken), id, t, v)
  {
  }

  lemma DeletingKeepsOthers(javaFor: JavaFor, s: State, gone: Id, id: Id, t: Tree, v: Version)
    requires Valid(s) && Enabled(s, DeleteBackup(gone)) && gone != id && Holds(s, id, t, v)
    ensures Holds(Next(javaFor, s, DeleteBackup(gone)), id, t, v)
  {
    UnlinkKeeps(s.updates, gone);
  }

  lemma StepKeepsBackup(javaFor: JavaFor, s: State, a: Action, id: Id, t: Tree, v: Version)
    requires Valid(s) && Enabled(s, a) && a != DeleteBackup(id) && Holds(s, id, t, v)
    ensures Holds(Next(javaFor, s, a), id, t, v)
  {
    match a
    case TakeBackup(taken) => TakingKeepsOthers(s, taken, id, t, v);
    case UpdateVersion(taken, target, reach) => TakingKeepsOthers(s, taken, id, t, v);
    case Rollback(update, ending, removed) =>
    case RestoreBackup(other, safety, ending) => TakingKeepsOthers(s, safety, id, t, v);
    case DeleteBackup(gone) => DeletingKeepsOthers(javaFor, s, gone, id, t, v);
    case FilesChange(root) =>
    case VersionReported(version) =>
  }

  /** A backup stays what it is over every run that does not delete it. */
  lemma {:induction false} RunKeepsBackup(
    javaFor: JavaFor, s: State, actions: seq<Action>, id: Id, t: Tree, v: Version)
    requires Valid(s) && KeepsBackup(javaFor, s, actions, id) && Holds(s, id, t, v)
    ensures Valid(Run(javaFor, s, actions, id)) && Holds(Run(javaFor, s, actions, id), id, t, v)
    decreases |actions|
  {
    if actions != [] {
      StepKeepsValid(javaFor, s, actions[0]);
      StepKeepsBackup(javaFor, s, actions[0], id, t, v);
      RunKeepsBackup(javaFor, Next(javaFor, s, actions[0]), actions[1..], id, t, v);
    }
  }

  // ------------------------------------------------------------------
  // What a restore brings back
  // ------------------------------------------------------------------

  /** Columns that a backup row carries through a restore. */
  predicate Recoverable(javaFor: JavaFor, v: Version) {
    && v.installed.Some?
    && (v.game != "" || v.installed.value == "")
    && v.java.Some?
    && (v.java.value != 0 || javaFor(v.installed.value) == v.java)
  }

  /**
    * A row with an installed version brings the columns back exactly when they are recoverable, whatever they
    * are when it is restored; a row without one, that no update names, changes nothing.
    */
  lemma ColumnsComeBack(javaFor: JavaFor, v: Version, now: Version, taken: Taken, linked: Option<Update>)
    ensures v.installed.Some? ==>
              (VersionAfter(javaFor, now, BackupOf(v, taken), linked) == Some(v) <==> Recoverable(javaFor, v))
    ensures v.installed.None? && linked.None? ==>
              VersionAfter(javaFor, now, BackupOf(v, taken), linked) == Some(now)
  {
  }

  /** The directory is that tree, pruned, and the version columns are back if they can be. */
  predicate GivesBack(javaFor: JavaFor, after: State, t: Tree, v: Version) {
    after.root == Some(Restored(t)) && (Recoverable(javaFor, v) ==> after.version == v)
  }

  /**
    * A backup the panel holds passes every check a restore makes of it, except that `create_backup` knows no
    * limit: it is restorable if and only if the files that were backed up fit into the limit together.
    */
  lemma HeldCanBeRestored(s: State, id: Id, t: Tree, v: Version, maxBytes: nat)
    requires WellFormed(t) && Holds(s, id, t, v)
    ensures CanRestore(s, s.backups[id])
    ensures IsRestorable(s, s.backups[id], maxBytes) <==> SizeOf(Restored(t)) <= maxBytes
  {
    RestoreRoundTrip(t, s.archives[s.backups[id].fileName]);
    SizeOfBackup(s.archives[s.backups[id].fileName], t);
  }

  lemma RestoreGivesBack(javaFor: JavaFor, s: State, id: Id, safety: Taken, t: Tree, v: Version)
    requires WellFormed(t) && Holds(s, id, t, v) && Enabled(s, RestoreBackup(id, safety, Done))
    ensures GivesBack(javaFor, Next(javaFor, s, RestoreBackup(id, safety, Done)), t, v)
    ensures v.installed.None? ==> Next(javaFor, s, RestoreBackup(id, safety, Done)).version == s.version
  {
    var row := s.backups[id];
    RestoreRoundTrip(t, s.archives[row.fileName]);
    if v.installed.None? {
      UnreferencedIsNotLinked(s.updates, id);
    }
    ColumnsComeBack(javaFor, v, s.version, Taken(id, row.fileName, s.archives[row.fileName]), LinkedUpdate(s.updates, id));
  }

  /** The steps lead from `s` to `after`, and none of them deletes the backup `id`. */
  ghost predicate Leads(javaFor: JavaFor, s: State, actions: seq<Action>, id: Id, after: State) {
    KeepsBackup(javaFor, s, actions, id) && Run(javaFor, s, actions, id) == after
  }

  /**
    * A backup taken in any state, and restored after any later steps that kept it, brings back the directory of
    * that state, pruned, and its version columns.
    */
  lemma RestoreUndoesTheRun(
    javaFor: JavaFor, s: State, taken: Taken, later: seq<Action>, before: State, safety: Taken)
    requires Valid(s) && CanTake(s, taken) && Leads(javaFor, WithBackup(s, taken), later, taken.id, before)
    requires Enabled(before, RestoreBackup(taken.id, safety, Done))
    ensures GivesBack(javaFor, Next(javaFor, before, RestoreBackup(taken.id, safety, Done)), s.root.value, s.version)
    ensures s.version.installed.None? ==>
              Next(javaFor, before, RestoreBackup(taken.id, safety, Done)).version == before.version
  {
    TakingKeepsValid(s, taken);
    RunKeepsBackup(javaFor, WithBackup(s, taken), later, taken.id, s.root.value, s.version);
    RestoreGivesBack(javaFor, before, taken.id, safety, s.root.value, s.version);
  }

  /** And restoring the safety backup a restore took, after any later steps that kept it, undoes the restore. */
  lemma SafetyUndoesTheRestore(
    javaFor: JavaFor, s: State, id: Id, safety: Taken, ending: Ending, restored: State, later: seq<Action>,
    before: State, another: Taken)
    requires Valid(s) && Moved(javaFor, s, RestoreBackup(id, safety, ending), restored)
    requires Leads(javaFor, restored, later, safety.id, before)
    requires Enabled(before, RestoreBackup(safety.id, another, Done))
    ensures GivesBack(javaFor, Next(javaFor, before, RestoreBackup(safety.id, another, Done)), s.root.value, s.version)
  {
    TakingKeepsValid(s, safety);
    StepKeepsValid(javaFor, s, RestoreBackup(id, safety, ending));
    RunKeepsBackup(javaFor, restored, later, safety.id, s.root.value, s.version);
    RestoreGivesBack(javaFor, before, safety.id, another, s.root.value, s.version);
  }

  // ------------------------------------------------------------------
  // Rolling an update back
  // ------------------------------------------------------------------

  /** The `n`-th update started from `fromVersion` with the backup `id`. */
  predicate Records(s: State, n: nat, id: Id, fromVersion: string) {
    n < |s.updates| && s.updates[n].backupId == Some(id) && s.updates[n].fromVersion == fromVersion
  }

  lemma StepKeepsRecord(javaFor: JavaFor, s: State, a: Action, n: nat, id: Id, fromVersion: string)
    requires Enabled(s, a) && a != DeleteBackup(id) && Records(s, n, id, fromVersion)
    ensures Records(Next(javaFor, s, a), n, id, fromVersion)
  {
    if a.DeleteBackup? {
      UnlinkKeeps(s.updates, a.id);
    }
  }

  lemma {:induction false} RunKeepsRecord(
    javaFor: JavaFor, s: State, actions: seq<Action>, n: nat, id: Id, fromVersion: string)
    requires KeepsBackup(javaFor, s, actions, id) && Records(s, n, id, fromVersion)
    ensures Records(Run(javaFor, s, actions, id), n, id, fromVersion)
    decreases |actions|
  {
    if actions != [] {
      StepKeepsRecord(javaFor, s, actions[0], n, id, fromVersion);
      RunKeepsRecord(javaFor, Next(javaFor, s, actions[0]), actions[1..], n, id, fromVersion);
    }
  }

  lemma RollbackGivesBack(
    javaFor: JavaFor, s: State, n: nat, id: Id, fromVersion: string, t: Tree, v: Version)
    requires WellFormed(t) && Holds(s, id, t, v) && Records(s, n, id, fromVersion)
    requires Enabled(s, Rollback(n, Done, true)) && javaFor(fromVersion).Some?
    ensures var after := Next(javaFor, s, Rollback(n, Done, true));
            && after.root == Some(Restored(t))
            && after.version == Version(Some(fromVersion), fromVersion, javaFor(fromVersion))
  {
    RestoreRoundTrip(t, s.archives[s.backups[id].fileName]);
  }

  /**
    * Rolling an update back, after any steps that kept its backup, brings back the directory from before the
    * update. The version columns become those the installed version implies; they are the ones from before
    * the update if and only if the game version was the installed one and the Java version the one it implies.
    */
  lemma RollbackUndoesTheUpdate(
    javaFor: JavaFor, s: State, taken: Taken, target: string, reach: Reach, updated: State, later: seq<Action>,
    before: State, after: State)
    requires Valid(s) && Moved(javaFor, s, UpdateVersion(taken, target, reach), updated)
    requires Leads(javaFor, updated, later, taken.id, before)
    requires Moved(javaFor, before, Rollback(|s.updates|, Done, true), after)
    requires javaFor(s.version.installed.value).Some?
    ensures after.root == Some(Restored(s.root.value)) && after.version.installed == s.version.installed
    ensures after.version == s.version <==>
            Some(s.version.game) == s.version.installed && s.version.java == javaFor(s.version.game)
  {
    TakingKeepsValid(s, taken);
    StepKeepsValid(javaFor, s, UpdateVersion(taken, target, reach));
    RunKeepsBackup(javaFor, updated, later, taken.id, s.root.value, s.version);
    RunKeepsRecord(javaFor, updated, later, |s.updates|, taken.id, s.version.installed.value);
    RollbackGivesBack(
      javaFor, before, |s.updates|, taken.id, s.version.installed.value, s.root.value, s.version);
  }

  // ------------------------------------------------------------------
  // The handlers
  // ------------------------------------------------------------------

  /** 404, 409, or an exception the handler does not catch (500). */
  datatype HttpError = NotFound | Conflict | Uncaught

  function HowFar(target: string, versions: Option<seq<string>>, removal: Removal): Reach {
    if versions.None? || target !in versions.value || removal.Refused? then Unavailable
    else if removal.Broke? then Broken
    else Replaced
  }

  class Panel {
    const javaFor: JavaFor
    const store: BackupStore
    var root: Option<Tree>
    var installedVersion: Option<string>
    var gameVersion: string
    var javaVersion: Option<nat>
    var backups: map<Id, Backup>
    var updates: seq<Update>

    constructor (javaFor: JavaFor, root: Option<Tree>, gameVersion: string)
      requires root.Some? ==> WellFormed(root.value)
      ensures this.javaFor == javaFor && fresh(store)
      ensures Now() == State(root, Version(None, gameVersion, None), map[], map[], []) && Valid(Now())
    {
      this.javaFor, this.root, this.gameVersion := javaFor, root, gameVersion;
      store := new BackupStore();
      installedVersion, javaVersion, backups, updates := None, None, map[], [];
    }

    ghost function Now(): State
      reads this, store
    {
      State(root, Version(installedVersion, gameVersion, javaVersion), backups, store.files, updates)
    }

    /** `create_backup` and the row for it. */
    method Take(id: Id, fileName: string, scan: Path -> seq<Name>, fault: bool)
      returns (r: Result<(), BackupError>, ghost taken: Taken)
      requires root.Some? ==> WellFormed(root.value) && IsScan(root.value, scan)
      requires IsFresh(Now(), id, fileName)
      modifies this`backups, store
      ensures r.Err? ==> Now() == old(Now())
      ensures r.Ok? <==> old(root).Some? && !fault
      ensures r.Ok? ==> taken.id == id && CanTake(old(Now()), taken) && Now() == WithBackup(old(Now()), taken)
    {
      taken := Taken(id, fileName, []);
      var artifact := store.CreateBackup(root, scan, fileName, fault);
      if artifact.Err? {
        return Err(artifact.error), taken;
      }
      taken := Taken(id, fileName, store.files[fileName]);
      var checksum := artifact.value.checksum;
      backups := backups[id := Backup(fileName, Some(checksum), installedVersion, Some(gameVersion), javaVersion)];
      r := Ok(());
    }

    /** `create_server_backup` */
    method CreateServerBackup(running: bool, id: Id, fileName: string, scan: Path -> seq<Name>, fault: bool)
      returns (r: Result<(), HttpError>, ghost taken: Taken)
      requires root.Some? ==> WellFormed(root.value) && IsScan(root.value, scan)
      requires IsFresh(Now(), id, fileName)
      modifies this`backups, store
      ensures r.Ok? <==> !running && old(root).Some? && !fault
      ensures r.Err? ==> r == Err(Conflict) && Now() == old(Now())
      ensures r.Ok? ==> taken.id == id && Moved(javaFor, old(Now()), TakeBackup(taken), Now())
    {
      if running {
        return Err(Conflict), Taken(id, fileName, []);
      }
      var made;
      made, taken := Take(id, fileName, scan, fault);
      if made.Err? {
        return Err(Conflict), taken;
      }
      r := Ok(());
    }

    /** `update_server_version`; `versions` are those the resolver lists, None when it raises. */
    method UpdateServerVersion(
      running: bool, target: string, versions: Option<seq<string>>, removal: Removal,
      id: Id, fileName: string, scan: Path -> seq<Name>, fault: bool)
      returns (r: Result<(), HttpError>, ghost taken: Taken)
      requires root.Some? ==> WellFormed(root.value) && IsScan(root.value, scan)
      requires IsFresh(Now(), id, fileName)
      modifies this, store
      ensures
        var begun := !running && old(installedVersion) !in {None, Some("")} && old(root).Some? && !fault;
        var reach := HowFar(target, versions, removal);
        && (!begun ==> r.Err? && Now() == old(Now()))
        && (begun ==> taken.id == id && Moved(javaFor, old(Now()), UpdateVersion(taken, target, reach), Now()))
        && (r.Ok? <==> begun && versions.Some? && target in versions.value && removal == Removed && javaFor(target).Some?)
        && (r.Ok? ==> installedVersion == Some(target) && gameVersion == target && javaVersion == javaFor(target))
        && (begun ==> r == if reach.Broken? then Err(Uncaught)
                           else if reach.Replaced? && javaFor(target).Some? then Ok(())
                           else Err(Conflict))
    {
      if running || installedVersion in {None, Some("")} {
        return Err(Conflict), Taken(id, fileName, []);
      }
      var made;
      made, taken := Take(id, fileName, scan, fault);
      if made.Err? {
        return Err(Uncaught), taken;
      }
      var n := |updates|;
      updates := updates + [Update(Some(id), installedVersion.value, Downloading)];
      var failed := true;
      if versions.Some? && target in versions.value {
        if removal.Broke? {
          return Err(Uncaught), taken;
        }
        if removal.Removed? {
          installedVersion := Some(target);
          gameVersion := target;
          if javaFor(target).Some? {
            javaVersion := javaFor(target);
            failed := false;
          }
        }
      }
      updates := updates[n := updates[n].(progress := if failed then Failed else Completed)];
      r := if failed then Err(Conflict) else Ok(());
    }

    /** `restore_backup` on a row's file, in the parent of the server directory. */
    method RestoreFile(row: Backup, faults: nat -> bool, maxBytes: nat) returns (ghost ending: Ending, ok: bool)
      requires root.Some? ==> WellFormed(root.value)
      modifies this`root
      ensures ok <==> ending.Done?
      ensures ending.Done? ==> CanRestore(old(Now()), row)
      ensures Now() == old(Now()).(root := RootAfter(old(Now()), row, ending))
      ensures AtMostOneFault(faults) ==> !ending.MovedAside?
      ensures ok ==> IsRestorable(old(Now()), row, maxBytes)
      ensures IsRestorable(old(Now()), row, maxBytes) && (forall i: nat :: !faults(i)) ==> ok
    {
      var area := new RestoreArea(root, faults);
      var r := area.Restore(
        if row.fileName in store.files then Some(store.files[row.fileName]) else None, row.checksum, maxBytes);
      ending := if r.Ok? then Done else if area.server == root then Untouched else MovedAside;
      root := area.server;
      ok := r.Ok?;
    }

    /** `rollback_server_update`; `removed` says that `runtime.remove` goes through. */
    method RollbackServerUpdate(running: bool, update: nat, faults: nat -> bool, maxBytes: nat, removed: bool)
      returns (r: Result<(), HttpError>, ghost ending: Ending)
      requires Valid(Now())
      modifies this
      ensures
        var found := !running && update < |old(updates)| && old(updates)[update].backupId.Some?;
        && (!found ==> r.Err? && Now() == old(Now()))
        && (found ==> Moved(javaFor, old(Now()), Rollback(update, ending, removed), Now()))
        && (r.Ok? <==> found && ending.Done? && removed && javaFor(old(updates)[update].fromVersion).Some?)
        && (r.Ok? ==>
              var from := old(updates)[update].fromVersion;
              installedVersion == Some(from) && gameVersion == from && javaVersion == javaFor(from))
        && (found && AtMostOneFault(faults) ==> !ending.MovedAside?)
    {
      ending := Untouched;
      if running {
        return Err(Conflict), ending;
      }
      if update >= |updates| || updates[update].backupId.None? {
        return Err(NotFound), ending;
      }
      assert RefersTo(updates[update], backups);
      var u := updates[update];
      var restored;
      ending, restored := RestoreFile(backups[u.backupId.value], faults, maxBytes);
      if !restored || javaFor(u.fromVersion).None? || !removed {
        return Err(Uncaught), ending;
      }
      installedVersion := Some(u.fromVersion);
      gameVersion := u.fromVersion;
      javaVersion := javaFor(u.fromVersion);
      updates := updates[update := u.(progress := RolledBack)];
      r := Ok(());
    }

    /** The version columns after a restore; on an error nothing of them is saved. */
    method RestoreVersions(id: Id, backup: Backup) returns (ok: bool)
      modifies this`installedVersion, this`gameVersion, this`javaVersion
      ensures
        var after := VersionAfter(javaFor, old(Now().version), backup, LinkedUpdate(updates, id));
        ok == after.Some? && Now() == old(Now()).(version := if ok then after.value else old(Now().version))
    {
      var restoredVersion, restoredGame, restoredJava := backup.installed, backup.game, backup.java;
      if restoredVersion.None? {
        var linked := LinkedUpdate(updates, id);
        if linked.Some? {
          restoredVersion := Some(linked.value.fromVersion);
          restoredGame := Some(linked.value.fromVersion);
          restoredJava := javaFor(linked.value.fromVersion);
          if restoredJava.None? {
            return false;
          }
        }
      }
      if restoredVersion.Some? {
        var java := JavaOr(restoredJava, javaFor(restoredVersion.value));
        if java.None? {
          return false;
        }
        installedVersion := restoredVersion;
        gameVersion := GameOr(restoredGame, restoredVersion.value);
        javaVersion := java;
      }
      ok := true;
    }

    /** `restore_server_backup` */
    method RestoreServerBackup(
      running: bool, id: Id, safetyId: Id, fileName: string, scan: Path -> seq<Name>, fault: bool,
      faults: nat -> bool, maxBytes: nat)
      returns (r: Result<(), HttpError>, ghost safety: Taken, ghost ending: Ending)
      requires Valid(Now()) && (root.Some? ==> IsScan(root.value, scan))
      requires IsFresh(Now(), safetyId, fileName)
      modifies this, store
      ensures
        var begun := id in old(backups) && !running && old(root).Some? && !fault;
        && (!begun ==> r.Err? && Now() == old(Now()))
        && (begun ==>
              && safety.id == safetyId
              && Moved(javaFor, old(Now()), RestoreBackup(id, safety, ending), Now()))
        && (begun && ending.Done? ==>
              var row, linked := old(backups)[id], LinkedUpdate(old(updates), id);
              r.Ok? <==> VersionAfter(javaFor, old(Now().version), row, linked).Some?)
        && (r.Ok? ==> begun && ending.Done?)
        && (begun && AtMostOneFault(faults) ==> !ending.MovedAside?)
        && (begun && ending.Done? ==> IsRestorable(old(Now()), old(backups)[id], maxBytes))
        && (begun && IsRestorable(old(Now()), old(backups)[id], maxBytes) && (forall i: nat :: !faults(i))
            ==> ending.Done?)
    {
      ending, safety := Untouched, Taken(safetyId, fileName, []);
      if id !in backups {
        return Err(NotFound), safety, ending;
      }
      var backup := backups[id];
      if running {
        return Err(Conflict), safety, ending;
      }
      var made;
      made, safety := Take(safetyId, fileName, scan, fault);
      if made.Err? {
        return Err(Conflict), safety, ending;
      }
      var restored;
      ending, restored := RestoreFile(backup, faults, maxBytes);
      if !restored {
        return Err(Conflict), safety, ending;
      }
      var versioned := RestoreVersions(id, backup);
      r := if versioned then Ok(()) else Err(Uncaught);
    }

    /** `delete_server_backup` */
    method DeleteServerBackup(id: Id, fault: bool) returns (r: Result<(), HttpError>)
      modifies this, store
      ensures r.Ok? <==> id in old(backups) && old(backups)[id].fileName in old(store.files) && !fault
      ensures r.Err? ==> Now() == old(Now())
      ensures r.Ok? ==> Moved(javaFor, old(Now()), DeleteBackup(id), Now())
    {
      if id !in backups {
        return Err(NotFound);
      }
      var deleted := store.DeleteBackup(backups[id].fileName, fault);
      if deleted.Err? {
        return Err(Conflict);
      }
      backups := backups - {id};
      updates := Unlink(updates, id);
      r := Ok(());
    }
  }
}
