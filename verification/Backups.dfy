/** `backup_service.py`: what a backup archive holds, and what restoring it does to the server directory. */
module Backups {
  import opened Common
  import opened Paths
  import opened Sequences
  import opened Trees

  datatype Payload =
    | DirectoryMember
    | FileMember(content: Content, mode: nat)
    | OtherMember  // symbolic link, hard link, device

  datatype Member = Member(name: string, payload: Payload)

  type Archive = seq<Member>

  /** SHA-256 as a free, hence injective, function of the archive. */
  datatype Digest = Sha256(of: Archive)

  datatype BackupError =
    | NoServerDirectory
    | NotCreated
    | NoBackupFile
    | ChecksumMismatch
    | TooLarge
    | NotRestored

  datatype Artifact = Artifact(fileName: string, checksum: Digest)

  // ------------------------------------------------------------------
  // What a backup is of
  // ------------------------------------------------------------------

  predicate InTrash(t: Tree, p: Path) {
    p != [] && p[0] == TRASH && [TRASH] in t && t[[TRASH]].Dir?
  }

  /** Everything but symbolic links and the panel's own trash directory. */
  predicate IsBackedUp(t: Tree, p: Path) {
    p in t && !t[p].Link? && !InTrash(t, p)
  }

  function MemberFor(p: Path, n: Node): Member {
    Member(Join(p),
      match n
      case File(content, mode) => FileMember(content, mode)
      case Dir => DirectoryMember
      case Link(_, _) => OtherMember)
  }

  /** The archive holds each backed-up path once, as it was, and nothing else. */
  ghost predicate IsBackupOf(archive: Archive, t: Tree) {
    && Distinct(archive)
    && (forall m :: m in archive ==>
         IsBackedUp(t, Parts(m.name)) && m == MemberFor(Parts(m.name), t[Parts(m.name)]))
    && (forall p :: IsBackedUp(t, p) ==> MemberFor(p, t[p]) in archive)
  }

  function Masked(n: Node): Node {
    match n
    case File(content, mode) => File(content, mode % 0x200)
    case _ => n
  }

  /** What restoring a backup of `t` has to bring back. */
  function Restored(t: Tree): Tree {
    map p | p in t && IsBackedUp(t, p) :: Masked(t[p])
  }

  /**
    * Path by path: every file and directory comes back but what lies in the panel's trash directory, with its
    * content, and with the lowest nine bits of its mode.
    */
  lemma RestoredMeans(t: Tree, p: Path)
    ensures p in Restored(t) <==>
              && p in t && (t[p].File? || t[p].Dir?)
              && !(p != [] && p[0] == ".trash" && [".trash"] in t && t[[".trash"]].Dir?)
    ensures p in Restored(t) && t[p].Dir? ==> Restored(t)[p].Dir?
    ensures p in Restored(t) && t[p].File? ==>
              && Restored(t)[p].File? && Restored(t)[p].content == t[p].content
              && 0 <= Restored(t)[p].mode < 512 && (t[p].mode - Restored(t)[p].mode) % 512 == 0
  {
  }

  lemma RestoredIsWellFormed(t: Tree)
    requires WellFormed(t)
    ensures WellFormed(Restored(t))
  {
    var r := Restored(t);
    forall p | p in r ensures HasPlace(r, p) {
      assert HasPlace(t, p);
      var q := Parent(p);
      if q != [] {
        assert q[0] == p[0];
        assert IsBackedUp(t, q);
      }
    }
  }

  /** What a restore brought back, a second backup carries whole. */
  lemma RestoredIsStable(t: Tree)
    ensures Restored(Restored(t)) == Restored(t)
  {
    var r := Restored(t);
    forall p | p in r ensures IsBackedUp(r, p) && Masked(r[p]) == r[p] {
      assert [TRASH] in r ==> IsBackedUp(t, [TRASH]) && t[[TRASH]].Dir? == r[[TRASH]].Dir?;
    }
  }

  // ------------------------------------------------------------------
  // create_backup
  // ------------------------------------------------------------------

  /** What `create_backup` leaves in `directories[:]`. */
  function BackupKeeps(t: Tree): Path -> bool {
    p => p in t && !t[p].Link? && p != [TRASH]
  }

  /** The entries added for one directory's names, links left out. */
  function Emit(t: Tree, current: Path, names: seq<Name>): Archive {
    if names == [] then []
    else
      var p := current + [names[0]];
      (if p in t && !t[p].Link? then [MemberFor(p, t[p])] else []) + Emit(t, current, names[1..])
  }

  function EmitVisit(t: Tree, v: Visit): Archive {
    Emit(t, v.current, v.directories) + Emit(t, v.current, v.files)
  }

  function Listing(t: Tree, scan: Path -> seq<Name>, order: seq<Path>): Archive {
    if order == [] then []
    else EmitVisit(t, VisitAt(t, scan, BackupKeeps(t), order[0])) + Listing(t, scan, order[1..])
  }

  lemma MemberForPath(t: Tree, p: Path)
    requires WellFormed(t) && p in t
    ensures Parts(MemberFor(p, t[p]).name) == p
  {
    NamesOfPath(t, p);
    PartsOfJoin(p);
  }

  /** `m` is the entry of the child `n` of `current`. */
  predicate IsEntryOf(t: Tree, current: Path, n: Name, m: Member) {
    current + [n] in t && !t[current + [n]].Link? && m == MemberFor(current + [n], t[current + [n]])
  }

  lemma EntryDeterminesName(t: Tree, current: Path, n: Name, n': Name, m: Member)
    requires WellFormed(t) && IsEntryOf(t, current, n, m)
    ensures IsEntryOf(t, current, n', m) ==> n == n'
  {
    if IsEntryOf(t, current, n', m) {
      MemberForPath(t, current + [n]);
      MemberForPath(t, current + [n']);
      assert (current + [n])[|current|] == n && (current + [n'])[|current|] == n';
    }
  }

  lemma {:induction false} EmitMembers(t: Tree, current: Path, names: seq<Name>)
    requires WellFormed(t) && Distinct(names)
    ensures forall m :: m in Emit(t, current, names) <==>
              exists n :: n in names && IsEntryOf(t, current, n, m)
    ensures Distinct(Emit(t, current, names))
  {
    if names != [] {
      DistinctTail(names);
      EmitMembers(t, current, names[1..]);
      assert names == [names[0]] + names[1..];
      var rest := Emit(t, current, names[1..]);
      var p := current + [names[0]];
      if p in t && !t[p].Link? {
        var first := MemberFor(p, t[p]);
        assert IsEntryOf(t, current, names[0], first);
        forall n | n in names[1..] ensures !IsEntryOf(t, current, n, first) {
          EntryDeterminesName(t, current, names[0], n, first);
        }
        DistinctConcat([first], rest);
      }
      forall m ensures m in Emit(t, current, names) <==> exists n :: n in names && IsEntryOf(t, current, n, m) {
        if m in rest {
          var n :| n in names[1..] && IsEntryOf(t, current, n, m);
          assert n in names;
        }
      }
    }
  }

  /** The entries written while `os.walk` is at one directory: its backed-up children, each once. */
  lemma EmitVisitMembers(t: Tree, scan: Path -> seq<Name>, d: Path)
    requires WellFormed(t) && IsScan(t, scan) && IsDirAt(t, d) && !InTrash(t, d)
    ensures var archive := EmitVisit(t, VisitAt(t, scan, BackupKeeps(t), d));
            Distinct(archive) &&
            forall m :: m in archive <==>
              exists n :: IsBackedUp(t, d + [n]) && m == MemberFor(d + [n], t[d + [n]])
  {
    var v := VisitAt(t, scan, BackupKeeps(t), d);
    VisitAtIsVisit(t, scan, BackupKeeps(t), d);
    EmitMembers(t, d, v.directories);
    EmitMembers(t, d, v.files);
    var a, b := Emit(t, d, v.directories), Emit(t, d, v.files);
    forall m | m in a ensures m !in b {
      var n :| n in v.directories && IsEntryOf(t, d, n, m);
      forall n' | n' in v.files ensures !IsEntryOf(t, d, n', m) {
        EntryDeterminesName(t, d, n, n', m);
      }
    }
    DistinctConcat(a, b);
    forall n ensures IsBackedUp(t, d + [n]) <==>
        d + [n] in t && !t[d + [n]].Link? && (n in v.directories || n in v.files) {
      if d + [n] in t {
        ChildBackedUp(t, d, n);
      }
    }
    forall m ensures m in a + b <==> exists n :: IsBackedUp(t, d + [n]) && m == MemberFor(d + [n], t[d + [n]]) {
      if n :| IsBackedUp(t, d + [n]) && m == MemberFor(d + [n], t[d + [n]]) {
        assert IsEntryOf(t, d, n, m);
      }
      if m in a + b {
        var n :| (n in v.directories || n in v.files) && IsEntryOf(t, d, n, m);
        assert IsBackedUp(t, d + [n]);
      }
    }
  }

  lemma ChildBackedUp(t: Tree, d: Path, n: Name)
    requires WellFormed(t) && IsDirAt(t, d) && !InTrash(t, d) && d + [n] in t
    ensures IsBackedUp(t, d + [n]) <==> !t[d + [n]].Link? && (t[d + [n]].Dir? ==> d + [n] != [TRASH])
  {
    var p := d + [n];
    if d == [] {
      assert p == [n];
    } else {
      assert p[0] == d[0];
    }
  }

  lemma {:induction false} ReachedForBackup(t: Tree, d: Path)
    requires WellFormed(t)
    ensures Reached(t, [], BackupKeeps(t), d) <==> IsDirAt(t, d) && !InTrash(t, d)
    decreases |d|
  {
    if d != [] {
      ReachedForBackup(t, Parent(d));
      if d in t {
        assert HasPlace(t, d);
        if |d| > 1 {
          assert Parent(d)[0] == d[0];
        } else {
          assert d == [d[0]];
        }
      }
    }
  }

  /** `m` is written while the walk is at `d`. */
  ghost predicate WrittenAt(t: Tree, d: Path, m: Member) {
    exists n :: IsBackedUp(t, d + [n]) && m == MemberFor(d + [n], t[d + [n]])
  }

  /** `m` is the entry of its own path, which lies directly in `d`. */
  predicate BelongsTo(t: Tree, d: Path, m: Member) {
    var p := Parts(m.name);
    p != [] && Parent(p) == d && IsBackedUp(t, p) && m == MemberFor(p, t[p])
  }

  lemma WrittenBelongs(t: Tree, d: Path, m: Member)
    requires WellFormed(t) && WrittenAt(t, d, m)
    ensures BelongsTo(t, d, m)
  {
    var n :| IsBackedUp(t, d + [n]) && m == MemberFor(d + [n], t[d + [n]]);
    var p := d + [n];
    MemberForPath(t, p);
    assert Parts(m.name) == p && Parent(p) == d;
  }

  lemma WrittenAtParent(t: Tree, d: Path, m: Member)
    requires WellFormed(t)
    ensures WrittenAt(t, d, m) <==> BelongsTo(t, d, m)
  {
    if WrittenAt(t, d, m) {
      WrittenBelongs(t, d, m);
    }
    if BelongsTo(t, d, m) {
      var p := Parts(m.name);
      assert p == d + [Last(p)];
    }
  }

  lemma {:induction false} ListingMembers(t: Tree, scan: Path -> seq<Name>, order: seq<Path>)
    requires WellFormed(t) && IsScan(t, scan) && Distinct(order)
    requires forall d :: d in order ==> IsDirAt(t, d) && !InTrash(t, d)
    ensures Distinct(Listing(t, scan, order))
    ensures forall m :: m in Listing(t, scan, order) <==> exists d :: d in order && WrittenAt(t, d, m)
  {
    if order != [] {
      DistinctTail(order);
      assert order == [order[0]] + order[1..];
      ListingMembers(t, scan, order[1..]);
      EmitVisitMembers(t, scan, order[0]);
      var first := EmitVisit(t, VisitAt(t, scan, BackupKeeps(t), order[0]));
      var rest := Listing(t, scan, order[1..]);
      forall m ensures m in first <==> WrittenAt(t, order[0], m) {
      }
      forall m | m in first ensures m !in rest {
        WrittenAtParent(t, order[0], m);
        forall d | d in order[1..] ensures !WrittenAt(t, d, m) {
          WrittenAtParent(t, d, m);
        }
      }
      DistinctConcat(first, rest);
    }
  }

  /** Whatever order directories are listed in, the walk writes a backup of the whole tree. */
  lemma ListingIsBackup(t: Tree, scan: Path -> seq<Name>, order: seq<Path>)
    requires WellFormed(t) && IsScan(t, scan) && IsWalk(t, [], BackupKeeps(t), order)
    ensures IsBackupOf(Listing(t, scan, order), t)
  {
    forall d ensures d in order <==> IsDirAt(t, d) && !InTrash(t, d) {
      ReachedForBackup(t, d);
    }
    ListingMembers(t, scan, order);
    var archive := Listing(t, scan, order);
    forall m | m in archive
      ensures IsBackedUp(t, Parts(m.name)) && m == MemberFor(Parts(m.name), t[Parts(m.name)])
    {
      var d :| d in order && WrittenAt(t, d, m);
      WrittenAtParent(t, d, m);
    }
    forall p | IsBackedUp(t, p) ensures MemberFor(p, t[p]) in archive {
      var m := MemberFor(p, t[p]);
      MemberForPath(t, p);
      assert HasPlace(t, p);
      assert |p| > 1 ==> Parent(p)[0] == p[0];
      assert Parent(p) in order;
      WrittenAtParent(t, Parent(p), m);
    }
  }

  /** The archiving loop of `create_backup`. */
  method WriteArchive(t: Tree, scan: Path -> seq<Name>) returns (archive: Archive)
    requires WellFormed(t) && IsScan(t, scan)
    ensures IsBackupOf(archive, t)
  {
    var order := Walk(t, [], scan, BackupKeeps(t));
    archive := [];
    var i := 0;
    while i < |order|
      invariant 0 <= i <= |order|
      invariant archive + Listing(t, scan, order[i..]) == Listing(t, scan, order)
    {
      var v := VisitAt(t, scan, BackupKeeps(t), order[i]);
      ListingStep(t, scan, order[i..], archive);
      assert order[i..][1..] == order[i + 1..];
      archive := AddEntries(t, v.current, v.directories, archive);
      archive := AddEntries(t, v.current, v.files, archive);
      i := i + 1;
    }
    assert order[i..] == [] && archive + [] == archive;
    ListingIsBackup(t, scan, order);
  }

  /** `for name in names: archive.add(...)`, links left out. */
  method AddEntries(t: Tree, current: Path, names: seq<Name>, before: Archive) returns (archive: Archive)
    ensures archive == before + Emit(t, current, names)
  {
    archive := before;
    for i := 0 to |names|
      invariant archive + Emit(t, current, names[i..]) == before + Emit(t, current, names)
    {
      var p := current + [names[i]];
      assert names[i..][1..] == names[i + 1..];
      if p in t && !t[p].Link? {
        archive := archive + [MemberFor(p, t[p])];
      }
    }
    assert names[|names|..] == [] && archive + [] == archive;
  }

  lemma ListingStep(t: Tree, scan: Path -> seq<Name>, order: seq<Path>, done: Archive)
    requires order != []
    ensures var v := VisitAt(t, scan, BackupKeeps(t), order[0]);
            done + Listing(t, scan, order) ==
            done + Emit(t, v.current, v.directories) + Emit(t, v.current, v.files) + Listing(t, scan, order[1..])
  {
    var v := VisitAt(t, scan, BackupKeeps(t), order[0]);
    Regroup(done, EmitVisit(t, v), Listing(t, scan, order[1..]));
    Regroup(done, Emit(t, v.current, v.directories), Emit(t, v.current, v.files));
  }

  /** The backup directory of one server: file name to archive. */
  class BackupStore {
    var files: map<string, Archive>

    constructor ()
      ensures files == map[]
    {
      files := map[];
    }

    /**
      * `create_backup`. `root` is None when the server directory is missing or a link; `fault` says that
      * some call made while archiving fails. The name carries random digits, so it is not in use.
      */
    method CreateBackup(root: Option<Tree>, scan: Path -> seq<Name>, fileName: string, fault: bool)
      returns (r: Result<Artifact, BackupError>)
      requires root.Some? ==> WellFormed(root.value) && IsScan(root.value, scan)
      requires fileName !in files
      modifies this
      ensures r.Ok? <==> root.Some? && !fault
      ensures r.Err? ==> files == old(files)
      ensures r.Ok? ==>
                exists archive: Archive ::
                  && IsBackupOf(archive, root.value)
                  && files == old(files)[fileName := archive]
                  && r.value == Artifact(fileName, Sha256(archive))
    {
      if root.None? {
        return Err(NoServerDirectory);
      }
      var archive := WriteArchive(root.value, scan);
      if fault {
        return Err(NotCreated);
      }
      files := files[fileName := archive];
      r := Ok(Artifact(fileName, Sha256(archive)));
    }

    /** `delete_backup`; `fault` says that `unlink` fails. */
    method DeleteBackup(fileName: string, fault: bool) returns (r: Result<(), BackupError>)
      modifies this
      ensures r.Ok? <==> fileName in old(files) && !fault
      ensures files == if r.Ok? then old(files) - {fileName} else old(files)
    {
      if fileName !in files || fault {
        return Err(NoBackupFile);
      }
      files := files - {fileName};
      r := Ok(());
    }
  }

  // ------------------------------------------------------------------
  // restore_backup
  // ------------------------------------------------------------------

  /** The entry may be unpacked: a relative path with a name, no "..", a file or a directory. */
  predicate IsSafeMember(m: Member) {
    && !IsAbsolute(m.name) && ".." !in Parts(m.name) && Parts(m.name) != []
    && !m.payload.OtherMember?
  }

  /** Unpacking one entry into the staging directory; None where the code raises. */
  function Place(t: Tree, m: Member): Option<Tree> {
    var p := Parts(m.name);
    if !IsSafeMember(m) || exists i :: 0 <= i < |p| && !IsEntryName(p[i]) then None
    else
      match m.payload
      case DirectoryMember => MakeDirs(t, p)
      case FileMember(content, mode) =>
        (match MakeDirs(t, Parent(p))
         case None => None
         case Some(u) =>
           if p in u && !u[p].File? then None
           else Some(u[p := File(content, mode % 0x200)]))
      case OtherMember => None
  }

  /** Unpacking entries one after the other. */
  function Unpack(t: Tree, archive: Archive): Option<Tree>
    decreases |archive|
  {
    if archive == [] then Some(t)
    else
      match Place(t, archive[0])
      case None => None
      case Some(u) => Unpack(u, archive[1..])
  }

  ghost predicate NoLinks(t: Tree) {
    forall p :: p in t ==> !t[p].Link?
  }

  /** Nothing the restore loop does puts a symbolic link into staging. */
  lemma PlaceKeepsStaging(t: Tree, m: Member)
    requires WellFormed(t) && NoLinks(t) && Place(t, m).Some?
    ensures WellFormed(Place(t, m).value) && NoLinks(Place(t, m).value)
  {
    var p := Parts(m.name);
    if m.payload.DirectoryMember? {
      MakeDirsAdds(t, p);
    } else {
      assert forall i :: 0 <= i < |Parent(p)| ==> Parent(p)[i] == p[i];
      MakeDirsAdds(t, Parent(p));
      FileKeepsStaging(MakeDirs(t, Parent(p)).value, p, Place(t, m).value[p]);
    }
  }

  lemma FileKeepsStaging(u: Tree, p: Path, n: Node)
    requires WellFormed(u) && NoLinks(u) && n.File? && (p in u ==> u[p].File?)
    requires p != [] && IsEntryName(Last(p)) && IsDirAt(u, Parent(p))
    ensures WellFormed(u[p := n]) && NoLinks(u[p := n])
  {
    var v := u[p := n];
    forall q | q in v ensures HasPlace(v, q) {
      if q != p {
        assert HasPlace(u, q);
      }
    }
  }

  /** An entry is unpacked exactly if it is safe and nothing of another kind is in its way. */
  lemma PlacesExactly(t: Tree, m: Member)
    requires WellFormed(t)
    ensures
      var p := Parts(m.name);
      Place(t, m).Some? <==>
        && !(m.name != "" && m.name[0] == '/') && ".." !in p && p != [] && !m.payload.OtherMember?
        && (forall i :: 0 <= i < |p| ==> IsEntryName(p[i]))
        && (forall k :: 0 < k < |p| && p[..k] in t ==> t[p[..k]].Dir?)
        && (p in t ==> if m.payload.DirectoryMember? then t[p].Dir? else t[p].File?)
  {
    var p := Parts(m.name);
    if p != [] {
      MakeDirsFails(t, p);
      MakeDirsFails(t, Parent(p));
      PrefixesStep(p);
      forall k | 0 < k < |p| ensures p[..k] in Prefixes(Parent(p)) {
        assert p[..k] == Parent(p)[..k];
      }
      forall x | x in Prefixes(Parent(p)) ensures x == p[..|x|] && 0 < |x| < |p| {
      }
      if (forall i :: 0 <= i < |p| ==> IsEntryName(p[i])) && MakeDirs(t, Parent(p)).Some? {
        assert forall i :: 0 <= i < |Parent(p)| ==> Parent(p)[i] == p[i];
        MakeDirsAdds(t, Parent(p));
      }
    }
  }

  /** What one entry does: its path is there, its own node is what it says, and nothing else changes. */
  lemma PlaceEffect(t: Tree, m: Member)
    requires WellFormed(t) && Place(t, m).Some?
    ensures
      var p, v := Parts(m.name), Place(t, m).value;
      && p != [] && v.Keys == t.Keys + Prefixes(p) && p in v
      && (m.payload.FileMember? ==> v[p] == File(m.payload.content, m.payload.mode % 512))
      && (!m.payload.FileMember? ==> v[p].Dir?)
      && (forall q :: q in v && q != p ==> v[q] == if q in t then t[q] else Dir)
      && (p in t ==> v[p].File? == t[p].File?)
  {
    var p := Parts(m.name);
    PrefixesStep(p);
    if m.payload.DirectoryMember? {
      MakeDirsAdds(t, p);
    } else {
      assert forall i :: 0 <= i < |Parent(p)| ==> Parent(p)[i] == p[i];
      MakeDirsAdds(t, Parent(p));
      forall q | q in Prefixes(Parent(p)) ensures q != p {
      }
    }
  }

  predicate IsFileAt(m: Member, p: Path) {
    m.payload.FileMember? && Parts(m.name) == p
  }

  /**
    * What `p` is once the archive has been unpacked over `before`: the last file of that path, or what it was, or
    * a directory.
    */
  function NodeAfter(before: Option<Node>, archive: Archive, p: Path): Node
    decreases |archive|
  {
    if archive == [] then (if before.Some? then before.value else Dir)
    else
      var last := archive[|archive| - 1];
      if IsFileAt(last, p) then File(last.payload.content, last.payload.mode % 512)
      else NodeAfter(before, archive[..|archive| - 1], p)
  }

  function NodeAt(t: Tree, p: Path): Option<Node> {
    if p in t then Some(t[p]) else None
  }

  /** The paths an archive brings. */
  function PathsOf(archive: Archive): set<Path> {
    if archive == [] then {} else Prefixes(Parts(archive[0].name)) + PathsOf(archive[1..])
  }

  lemma {:induction false} NodeAfterFirst(before: Option<Node>, m: Member, archive: Archive, p: Path)
    ensures NodeAfter(before, [m] + archive, p) ==
            NodeAfter(if IsFileAt(m, p) then Some(File(m.payload.content, m.payload.mode % 512)) else before, archive, p)
    decreases |archive|
  {
    var whole := [m] + archive;
    if archive == [] {
      assert whole[..0] == [];
    } else {
      assert whole[..|whole| - 1] == [m] + archive[..|archive| - 1];
      NodeAfterFirst(before, m, archive[..|archive| - 1], p);
    }
  }

  lemma {:induction false} DirOrNothing(archive: Archive, p: Path)
    ensures NodeAfter(Some(Dir), archive, p) == NodeAfter(None, archive, p)
    decreases |archive|
  {
    if archive != [] {
      DirOrNothing(archive[..|archive| - 1], p);
    }
  }

  /**
    * Unpacking any archive, whoever made it: if it goes through, every entry is safe, the paths are those of the
    * entries with what they lie in, and each is the last file of that path, or a directory.
    */
  lemma {:induction false} UnpackMeans(t: Tree, archive: Archive)
    requires WellFormed(t) && NoLinks(t)
    ensures Unpack(t, archive).Some? ==>
              forall m :: m in archive ==>
                && !(m.name != "" && m.name[0] == '/') && ".." !in Parts(m.name) && Parts(m.name) != []
                && !m.payload.OtherMember?
    ensures Unpack(t, archive).Some? ==> Unpack(t, archive).value.Keys == t.Keys + PathsOf(archive)
    ensures Unpack(t, archive).Some? ==>
              forall p :: p in Unpack(t, archive).value ==>
                Unpack(t, archive).value[p] == NodeAfter(NodeAt(t, p), archive, p)
    decreases |archive|
  {
    if archive != [] && Unpack(t, archive).Some? {
      var m, rest := archive[0], archive[1..];
      var v := Place(t, m).value;
      PlacesExactly(t, m);
      PlaceEffect(t, m);
      PlaceKeepsStaging(t, m);
      UnpackMeans(v, rest);
      assert archive == [m] + rest;
      forall p | p in Unpack(t, archive).value
        ensures Unpack(t, archive).value[p] == NodeAfter(NodeAt(t, p), archive, p)
      {
        NodeAfterFirst(NodeAt(t, p), m, rest, p);
        DirOrNothing(rest, p);
        AfterFirst(t, m, rest, p);
      }
    }
  }

  lemma AfterFirst(t: Tree, m: Member, rest: Archive, p: Path)
    requires WellFormed(t) && Place(t, m).Some?
    ensures
      var first := if IsFileAt(m, p) then Some(File(m.payload.content, m.payload.mode % 512)) else NodeAt(t, p);
      NodeAfter(NodeAt(Place(t, m).value, p), rest, p) == NodeAfter(first, rest, p)
  {
    PlaceEffect(t, m);
    DirOrNothing(rest, p);
    var v := Place(t, m).value;
    if p == Parts(m.name) && m.payload.DirectoryMember? && p in t {
      PlacesExactly(t, m);
    }
  }

  /** An entry of a backup of something inside `u` unpacks without leaving `u`. */
  lemma PlaceWithin(t: Tree, u: Tree, p: Path, n: Node)
    requires WellFormed(t) && WellFormed(u) && IsSubtree(t, u)
    requires p in u && !n.Link? && u[p] == Masked(n)
    ensures Place(t, MemberFor(p, n)).Some?
    ensures var v := Place(t, MemberFor(p, n)).value;
            WellFormed(v) && IsSubtree(t, v) && IsSubtree(v, u) && p in v
  {
    NamesOfPath(u, p);
    PartsOfJoin(p);
    assert HasPlace(u, p);
    JoinShape(p);
    if n.Dir? {
      MakeDirsWithin(t, u, p);
    } else {
      MakeDirsWithin(t, u, Parent(p));
      var w := MakeDirs(t, Parent(p)).value;
      var v := w[p := u[p]];
      forall q | q in v ensures HasPlace(v, q) {
        if q != p { assert HasPlace(w, q); }
      }
    }
  }

  lemma {:induction false} UnpackWithin(t: Tree, u: Tree, archive: Archive, source: Tree)
    requires WellFormed(t) && WellFormed(u) && IsSubtree(t, u)
    requires WellFormed(source) && u == Restored(source)
    requires forall m :: m in archive ==>
               IsBackedUp(source, Parts(m.name)) && m == MemberFor(Parts(m.name), source[Parts(m.name)])
    ensures Unpack(t, archive).Some?
    ensures var v := Unpack(t, archive).value;
            IsSubtree(t, v) && IsSubtree(v, u) && forall m :: m in archive ==> Parts(m.name) in v
    decreases |archive|
  {
    if archive != [] {
      var m := archive[0];
      var p := Parts(m.name);
      PlaceWithin(t, u, p, source[p]);
      var w := Place(t, m).value;
      UnpackWithin(w, u, archive[1..], source);
      assert archive == [m] + archive[1..];
    }
  }

  /**
    * The round trip: unpacking a backup of `t` rebuilds exactly `t` without its links and its trash,
    * with file modes cut down to their permission bits.
    */
  lemma RestoreRoundTrip(t: Tree, archive: Archive)
    requires WellFormed(t) && IsBackupOf(archive, t)
    ensures Unpack(map[], archive) == Some(Restored(t))
  {
    var u := Restored(t);
    RestoredIsWellFormed(t);
    UnpackWithin(map[], u, archive, t);
    var v := Unpack(map[], archive).value;
    forall p | p in u ensures p in v {
      assert MemberFor(p, t[p]) in archive;
      MemberForPath(t, p);
    }
    assert v == u;
  }

  function TotalSize(archive: Archive): nat {
    if archive == [] then 0
    else (if archive[0].payload.FileMember? then |archive[0].payload.content| else 0) + TotalSize(archive[1..])
  }

  function NodeSize(n: Node): nat {
    if n.File? then |n.content| else 0
  }

  /** The bytes of all files in a tree. */
  ghost function SizeOf(t: Tree): nat
    decreases |t|
  {
    if t == map[] then 0
    else
      var p :| p in t;
      NodeSize(t[p]) + SizeOf(t - {p})
  }

  lemma {:induction false} SizeWithout(t: Tree, p: Path)
    requires p in t
    ensures SizeOf(t) == NodeSize(t[p]) + SizeOf(t - {p})
    decreases |t|
  {
    var q :| q in t && SizeOf(t) == NodeSize(t[q]) + SizeOf(t - {q});
    if p != q {
      SizeWithout(t - {q}, p);
      SizeWithout(t - {p}, q);
      assert t - {q} - {p} == t - {p} - {q};
    }
  }

  /** The archive holds each path of `u`, a part of what is backed up of `t`, once. */
  ghost predicate Covers(archive: Archive, t: Tree, u: Tree) {
    && Distinct(archive)
    && (forall m :: m in archive ==>
         Parts(m.name) in u && Parts(m.name) in t && m == MemberFor(Parts(m.name), t[Parts(m.name)]))
    && (forall p :: p in u ==> p in t && !t[p].Link? && u[p] == Masked(t[p]) && MemberFor(p, t[p]) in archive)
  }

  lemma CoversRest(archive: Archive, t: Tree, u: Tree)
    requires WellFormed(t) && Covers(archive, t, u) && archive != []
    ensures Covers(archive[1..], t, u - {Parts(archive[0].name)})
  {
    var first := Parts(archive[0].name);
    DistinctTail(archive);
    forall m | m in archive[1..] ensures Parts(m.name) != first {
      assert m in archive && m != archive[0];
    }
    forall p | p in u - {first} ensures MemberFor(p, t[p]) in archive[1..] {
      MemberForPath(t, p);
      assert archive == [archive[0]] + archive[1..];
    }
  }

  lemma {:induction false} SizeOfCovered(archive: Archive, t: Tree, u: Tree)
    requires WellFormed(t) && Covers(archive, t, u)
    ensures TotalSize(archive) == SizeOf(u)
    decreases |archive|
  {
    if archive == [] {
      assert u == map[];
    } else {
      var p := Parts(archive[0].name);
      CoversRest(archive, t, u);
      SizeOfCovered(archive[1..], t, u - {p});
      assert archive[0] in archive;
      SizeWithout(u, p);
    }
  }

  /** The size that a restore compares with its limit is the size of what was backed up. */
  lemma SizeOfBackup(archive: Archive, t: Tree)
    requires WellFormed(t) && IsBackupOf(archive, t)
    ensures TotalSize(archive) == SizeOf(Restored(t))
  {
    forall m | m in archive ensures Parts(m.name) in Restored(t) {
      assert IsBackedUp(t, Parts(m.name));
    }
    SizeOfCovered(archive, t, Restored(t));
  }

  /** What stands in the place of the server directory, and what was moved aside. */
  datatype Places = Places(server: Option<Tree>, previous: Option<Tree>)

  /** A complete old or a complete new tree is on disk. */
  ghost predicate Complete(s: Places, before: Option<Tree>, after: Option<Tree>) {
    s.server == before || s.previous == before || (after.Some? && s.server == after)
  }

  /** No two of the numbered file-system calls fail. */
  ghost predicate AtMostOneFault(faults: nat -> bool) {
    forall i: nat, j: nat :: faults(i) && faults(j) ==> i == j
  }

  /** The parent of the server directory, while one backup is being restored there. */
  class RestoreArea {
    var server: Option<Tree>
    var previous: Option<Tree>
    var staging: Option<Tree>
    var calls: nat
    const faults: nat -> bool
    ghost var history: seq<Places>

    constructor (server: Option<Tree>, faults: nat -> bool)
      requires server.Some? ==> WellFormed(server.value)
      ensures this.server == server && this.faults == faults
      ensures previous.None? && staging.None? && calls == 0 && history == []
    {
      this.server, this.faults := server, faults;
      previous, staging, calls, history := None, None, 0, [];
    }

    ghost function Now(): Places
      reads this
    {
      Places(server, previous)
    }

    /** One call into the file system; `faults` says which calls raise OSError. */
    method Attempt() returns (ok: bool)
      modifies this`calls
      ensures calls == old(calls) + 1 && ok == !faults(old(calls))
    {
      ok := !faults(calls);
      calls := calls + 1;
    }

    /** `os.replace(server_root, previous)` */
    method MoveAside() returns (ok: bool)
      requires server.Some?
      modifies this`server, this`previous, this`calls, this`history
      ensures calls == old(calls) + 1 && ok == !faults(old(calls))
      ensures server == (if ok then None else old(server))
      ensures previous == (if ok then old(server) else old(previous))
      ensures history == old(history) + [Now()]
    {
      ok := Attempt();
      if ok {
        server, previous := None, server;
      }
      history := history + [Now()];
    }

    /** `os.replace(staging, server_root)` */
    method Install() returns (ok: bool)
      requires server.None? && staging.Some?
      modifies this`server, this`staging, this`calls, this`history
      ensures calls == old(calls) + 1 && ok == !faults(old(calls))
      ensures server == (if ok then old(staging) else None)
      ensures staging == (if ok then None else old(staging))
      ensures history == old(history) + [Now()]
    {
      ok := Attempt();
      if ok {
        server, staging := staging, None;
      }
      history := history + [Now()];
    }

    /** `os.replace(previous, server_root)` */
    method MoveBack() returns (ok: bool)
      requires server.None? && previous.Some?
      modifies this`server, this`previous, this`calls, this`history
      ensures calls == old(calls) + 1 && ok == !faults(old(calls))
      ensures server == (if ok then old(previous) else None)
      ensures previous == (if ok then None else old(previous))
      ensures history == old(history) + [Now()]
    {
      ok := Attempt();
      if ok {
        server, previous := previous, None;
      }
      history := history + [Now()];
    }

    /** `shutil.rmtree(previous, ignore_errors=True)`: on a fault some of it stays behind. */
    method DiscardPrevious()
      requires previous.Some?
      modifies this`previous, this`calls, this`history
      ensures history == old(history) + [Now()]
      ensures !faults(old(calls)) ==> previous.None?
    {
      var ok := Attempt();
      previous := if ok then None else Some(map[]);
      history := history + [Now()];
    }

    /** The `except` and `finally` clauses. */
    method Recover(movedPrevious: bool)
      requires movedPrevious ==> previous.Some?
      modifies this
      ensures movedPrevious && old(server).None? && !faults(old(calls)) ==>
                server == old(previous) && previous.None?
      ensures !(movedPrevious && old(server).None? && !faults(old(calls))) ==>
                server == old(server) && previous == old(previous)
      ensures old(history) <= history
      ensures forall i :: |old(history)| <= i < |history| ==> history[i] == Now()
      ensures (forall i: nat :: i >= old(calls) ==> !faults(i)) ==> staging.None?
    {
      if movedPrevious && server.None? {
        var _ := MoveBack();
      }
      if staging.Some? {
        var ok := Attempt();
        staging := if ok then None else staging;
      }
    }

    /** The loop over the members: each is checked and written into staging in turn. */
    method Stage(archive: Archive) returns (ok: bool)
      requires staging == Some(map[])
      modifies this`staging, this`calls
      ensures calls >= old(calls) && staging.Some? && NoLinks(staging.value) && WellFormed(staging.value)
      ensures ok ==> staging == Unpack(map[], archive)
      ensures !ok ==> Unpack(map[], archive).None? || exists i: nat :: old(calls) <= i < calls && faults(i)
    {
      var i := 0;
      while i < |archive|
        invariant 0 <= i <= |archive| && calls >= old(calls)
        invariant staging.Some? && WellFormed(staging.value) && NoLinks(staging.value)
        invariant Unpack(staging.value, archive[i..]) == Unpack(map[], archive)
      {
        assert archive[i..][0] == archive[i] && archive[i..][1..] == archive[i + 1..];
        var next := Place(staging.value, archive[i]);
        if next.None? {
          return false;
        }
        PlaceKeepsStaging(staging.value, archive[i]);
        var fine := Attempt();
        if !fine {
          assert faults(calls - 1);
          return false;
        }
        staging := next;
        i := i + 1;
      }
      assert archive[i..] == [];
      ok := true;
    }

    /**
      * `restore_backup`. `archive` is None when the file name does not resolve to a backup file.
      * It returns with the server directory equal to the unpacked archive, or raises with the server
      * directory as it was; and whenever the directory is looked at in between, a complete old or new
      * tree is there. Only a second fault, in the compensating rename, leaves the old tree moved aside.
      */
    method Restore(archive: Option<Archive>, expected: Option<Digest>, maxBytes: nat)
      returns (r: Result<(), BackupError>)
      requires staging.None? && previous.None?
      modifies this
      ensures r.Ok? ==>
                && archive.Some? && expected in {None, Some(Sha256(archive.value))}
                && TotalSize(archive.value) <= maxBytes
                && server.Some? && server == Unpack(map[], archive.value)
      ensures r.Err? ==> server == old(server) || (server.None? && previous == old(server))
      ensures r.Err? && AtMostOneFault(faults) ==> server == old(server)
      ensures archive.None? || expected !in {None, Some(Sha256(archive.value))} ==> r.Err? && calls == old(calls)
      ensures (&& archive.Some? && expected in {None, Some(Sha256(archive.value))}
               && TotalSize(archive.value) <= maxBytes && Unpack(map[], archive.value).Some?
               && forall i: nat :: !faults(i)) ==> r.Ok?
      ensures r.Ok? ==> staging.None?
      ensures r.Err? && AtMostOneFault(faults) ==> previous.None?
      ensures (forall i: nat :: !faults(i)) ==> staging.None? && previous.None?
      ensures old(history) <= history
      ensures forall i :: |old(history)| <= i < |history| ==>
                Complete(history[i], old(server), if archive.Some? then Unpack(map[], archive.value) else None)
    {
      if archive.None? {
        return Err(NoBackupFile);
      }
      if expected.Some? && expected.value != Sha256(archive.value) {
        return Err(ChecksumMismatch);
      }
      var made := Attempt();  // mkdtemp
      if !made {
        return Err(NotRestored);
      }
      staging := Some(map[]);
      var readable := Attempt();
      if !readable {
        Recover(false);
        return Err(NotRestored);
      }
      if TotalSize(archive.value) > maxBytes {
        Recover(false);
        return Err(TooLarge);
      }
      var staged := Stage(archive.value);
      if !staged {
        Recover(false);
        return Err(NotRestored);
      }
      r := Swap();
    }

    /** The two renames, and what is done when one of them fails. */
    method Swap() returns (r: Result<(), BackupError>)
      requires staging.Some? && previous.None?
      modifies this
      ensures r.Ok? ==> server == old(staging) && staging.None?
      ensures r.Err? && AtMostOneFault(faults) ==> previous.None?
      ensures (forall i: nat :: !faults(i)) ==> staging.None? && previous.None?
      ensures r.Err? ==> server == old(server) || (server.None? && previous == old(server))
      ensures r.Err? && AtMostOneFault(faults) ==> server == old(server)
      ensures (forall i: nat :: !faults(i)) ==> r.Ok?
      ensures old(history) <= history
      ensures forall i :: |old(history)| <= i < |history| ==>
                Complete(history[i], old(server), old(staging))
    {
      var movedPrevious := false;
      if server.Some? {
        movedPrevious := MoveAside();
        if !movedPrevious {
          Recover(false);
          return Err(NotRestored);
        }
      }
      var installed := Install();
      if !installed {
        Recover(movedPrevious);
        return Err(NotRestored);
      }
      if movedPrevious {
        DiscardPrevious();
      }
      r := Ok(());
    }
  }
}
