/** `create_directory_archive` of `file_service.py`, and what unpacking its ZIP brings back. */
module Downloads {
  import opened Common
  import opened Paths
  import opened Sequences
  import opened Trees
  import opened FileRules
  import opened Zips

  function NoLinkKept(t: Tree): Path -> bool {
    p => p in t && !t[p].Link?
  }

  /** The path lies at or below the downloaded directory. */
  predicate Within(source: Path, p: Path) {
    source <= p
  }

  /** `os.walk` hands over neither subdirectories (links are pruned) nor files (links count). */
  ghost predicate IsHollow(t: Tree, d: Path) {
    forall n :: d + [n] in t ==> t[d + [n]].Link? && t[d + [n]].toDirectory
  }

  /** The archive has an entry for `p`: a file, or a hollow directory. */
  ghost predicate IsListed(t: Tree, source: Path, p: Path) {
    p in t && Within(source, p) && (t[p].File? || (t[p].Dir? && IsHollow(t, p)))
  }

  /** Where `p` goes in the archive: below the name of the directory. */
  function ArchivePath(source: Path, p: Path): Path
    requires source != []
  {
    [Last(source)] + (if |source| <= |p| then p[|source|..] else [])
  }

  function EntryFor(t: Tree, source: Path, p: Path): ZipEntry
    requires source != []
  {
    if p in t && t[p].File? then ZipEntry(Join(ArchivePath(source, p)), false, t[p].content)
    else ZipEntry(Join(ArchivePath(source, p)) + "/", false, [])
  }

  function EntriesFor(t: Tree, source: Path, paths: seq<Path>): seq<ZipEntry>
    requires source != []
  {
    if paths == [] then [] else [EntryFor(t, source, paths[0])] + EntriesFor(t, source, paths[1..])
  }

  lemma {:induction false} EntriesForConcat(t: Tree, source: Path, a: seq<Path>, b: seq<Path>)
    requires source != []
    ensures EntriesFor(t, source, a + b) == EntriesFor(t, source, a) + EntriesFor(t, source, b)
  {
    if a == [] {
      assert a + b == b;
    } else {
      assert (a + b)[1..] == a[1..] + b;
      EntriesForConcat(t, source, a[1..], b);
    }
  }

  /** The archive has exactly one entry for each listed path; `paths` is the order they come in. */
  ghost predicate IsDownloadOf(entries: seq<ZipEntry>, t: Tree, source: Path, paths: seq<Path>) {
    && source != [] && Distinct(paths)
    && (forall p :: p in paths <==> IsListed(t, source, p))
    && entries == EntriesFor(t, source, paths)
  }

  // ------------------------------------------------------------------
  // create_directory_archive
  // ------------------------------------------------------------------

  /** The files among the names of one directory, links left out. */
  function FilePaths(t: Tree, current: Path, names: seq<Name>): seq<Path> {
    if names == [] then []
    else
      var p := current + [names[0]];
      (if p in t && !t[p].Link? then [p] else []) + FilePaths(t, current, names[1..])
  }

  function VisitPaths(t: Tree, v: Visit): seq<Path> {
    (if v.directories == [] && v.files == [] then [v.current] else []) + FilePaths(t, v.current, v.files)
  }

  function ListedPaths(t: Tree, scan: Path -> seq<Name>, order: seq<Path>): seq<Path> {
    if order == [] then []
    else VisitPaths(t, VisitAt(t, scan, NoLinkKept(t), order[0])) + ListedPaths(t, scan, order[1..])
  }

  /** The directory during whose visit `p` is written. */
  function Owner(t: Tree, p: Path): Path
    requires p != []
  {
    if p in t && t[p].Dir? then p else Parent(p)
  }

  lemma {:induction false} FilePathsMembers(t: Tree, current: Path, names: seq<Name>)
    requires Distinct(names)
    ensures forall p :: p in FilePaths(t, current, names) <==>
              p != [] && Parent(p) == current && Last(p) in names && p in t && !t[p].Link?
    ensures Distinct(FilePaths(t, current, names))
  {
    if names != [] {
      DistinctTail(names);
      FilePathsMembers(t, current, names[1..]);
      assert names == [names[0]] + names[1..];
      var p := current + [names[0]];
      assert Parent(p) == current && Last(p) == names[0];
      forall q | q != [] && Parent(q) == current && Last(q) == names[0] ensures q == p {
        assert q == Parent(q) + [Last(q)];
      }
      if p in t && !t[p].Link? {
        DistinctConcat([p], FilePaths(t, current, names[1..]));
      }
    }
  }

  lemma VisitPathsMembers(t: Tree, scan: Path -> seq<Name>, source: Path, d: Path)
    requires WellFormed(t) && IsScan(t, scan) && d in t && t[d].Dir? && Within(source, d)
    ensures var paths := VisitPaths(t, VisitAt(t, scan, NoLinkKept(t), d));
            Distinct(paths) &&
            forall p :: p in paths <==> p != [] && Owner(t, p) == d && IsListed(t, source, p)
  {
    var v := VisitAt(t, scan, NoLinkKept(t), d);
    VisitAtIsVisit(t, scan, NoLinkKept(t), d);
    HollowMeansNothingYielded(t, v);
    FilePathsMembers(t, d, v.files);
    var files := FilePaths(t, d, v.files);
    assert HasPlace(t, d);
    forall p ensures p in files <==> p != [] && Owner(t, p) == d && IsListed(t, source, p) && t[p].File? {
      FileOfVisit(t, v, source, p);
    }
    assert d !in files;
    if v.directories == [] && v.files == [] {
      DistinctConcat([d], files);
    }
  }

  lemma FileOfVisit(t: Tree, v: Visit, source: Path, p: Path)
    requires IsVisit(t, NoLinkKept(t), v) && Within(source, v.current)
    ensures (p != [] && Parent(p) == v.current && Last(p) in v.files && p in t && !t[p].Link?) <==>
            (p != [] && Owner(t, p) == v.current && IsListed(t, source, p) && t[p].File?)
  {
    if p != [] && Parent(p) == v.current {
      assert p == v.current + [Last(p)];
    }
  }

  lemma HollowMeansNothingYielded(t: Tree, v: Visit)
    requires IsVisit(t, NoLinkKept(t), v)
    ensures v.directories == [] && v.files == [] <==> IsHollow(t, v.current)
  {
    if v.directories != [] {
      assert v.directories[0] in v.directories;
      assert v.current + [v.directories[0]] in t;
    }
    if v.files != [] {
      assert v.files[0] in v.files;
      assert v.current + [v.files[0]] in t;
    }
    forall n | v.current + [n] in t
      ensures n in v.directories || n in v.files ||
              (t[v.current + [n]].Link? && t[v.current + [n]].toDirectory)
    {
    }
  }

  lemma {:induction false} ListedPathsMembers(t: Tree, scan: Path -> seq<Name>, source: Path, order: seq<Path>)
    requires WellFormed(t) && IsScan(t, scan) && Distinct(order)
    requires forall d :: d in order ==> d in t && t[d].Dir? && Within(source, d)
    ensures Distinct(ListedPaths(t, scan, order))
    ensures forall p :: p in ListedPaths(t, scan, order) <==>
              p != [] && Owner(t, p) in order && IsListed(t, source, p)
  {
    if order != [] {
      DistinctTail(order);
      assert order == [order[0]] + order[1..];
      ListedPathsMembers(t, scan, source, order[1..]);
      VisitPathsMembers(t, scan, source, order[0]);
      DistinctConcat(VisitPaths(t, VisitAt(t, scan, NoLinkKept(t), order[0])), ListedPaths(t, scan, order[1..]));
    }
  }

  lemma {:induction false} ReachedForDownload(t: Tree, source: Path, d: Path)
    requires WellFormed(t) && source in t && t[source].Dir?
    ensures Reached(t, source, NoLinkKept(t), d) <==> d in t && t[d].Dir? && Within(source, d)
    decreases |d|
  {
    if d in t && IsBelow(source, d) {
      ReachedForDownload(t, source, Parent(d));
      assert HasPlace(t, d);
    } else if d == source {
    } else if Within(source, d) {
      assert |d| == |source| ==> d == source;
    }
  }

  /** The walk finds exactly the files and the hollow directories, each once. */
  lemma WalkListsAll(t: Tree, scan: Path -> seq<Name>, source: Path, order: seq<Path>)
    requires WellFormed(t) && IsScan(t, scan) && source in t && t[source].Dir?
    requires IsWalk(t, source, NoLinkKept(t), order)
    ensures Distinct(ListedPaths(t, scan, order))
    ensures forall p :: p in ListedPaths(t, scan, order) <==> IsListed(t, source, p)
  {
    forall d ensures d in order <==> d in t && t[d].Dir? && Within(source, d) {
      ReachedForDownload(t, source, d);
    }
    ListedPathsMembers(t, scan, source, order);
    forall p | IsListed(t, source, p) ensures p != [] && Owner(t, p) in order {
      assert HasPlace(t, p) && HasPlace(t, source);
      if t[p].File? {
        assert p != source;
        assert |p| == |source| ==> p == source;
        assert Within(source, Parent(p));
      }
    }
  }

  /** `create_directory_archive`; `fault` says that a call made while archiving fails. */
  method CreateDirectoryArchive(t: Tree, value: string, scan: Path -> seq<Name>, fault: bool)
    returns (r: Result<seq<ZipEntry>, FileError>, ghost paths: seq<Path>)
    requires WellFormed(t) && IsScan(t, scan)
    ensures r.Ok? <==>
              && Resolve(t, value, false).Ok? && !fault
              && var source := Resolve(t, value, false).value; source in t && t[source].Dir?
    ensures r.Ok? ==> IsDownloadOf(r.value, t, Resolve(t, value, false).value, paths)
  {
    paths := [];
    var resolved := Resolve(t, value, false);
    if resolved.Err? {
      return Err(resolved.error), paths;
    }
    var source := resolved.value;
    if source !in t || !t[source].Dir? {
      return Err(DoesNotExist), paths;
    }
    var order := Walk(t, source, scan, NoLinkKept(t));
    WalkListsAll(t, scan, source, order);
    forall d ensures d in order ==> d in t && t[d].Dir? {
      ReachedForDownload(t, source, d);
    }
    paths := ListedPaths(t, scan, order);
    var entries := WriteEntries(t, source, scan, order);
    if fault {
      return Err(CallFailed), paths;
    }
    r := Ok(entries);
  }

  /** The loop over the directories `os.walk` yields. */
  method WriteEntries(t: Tree, source: Path, scan: Path -> seq<Name>, order: seq<Path>)
    returns (entries: seq<ZipEntry>)
    requires source != [] && IsScan(t, scan) && forall d :: d in order ==> d in t && t[d].Dir?
    ensures entries == EntriesFor(t, source, ListedPaths(t, scan, order))
  {
    entries := [];
    var i := 0;
    while i < |order|
      invariant 0 <= i <= |order|
      invariant entries + EntriesFor(t, source, ListedPaths(t, scan, order[i..]))
                == EntriesFor(t, source, ListedPaths(t, scan, order))
    {
      assert order[i] in order && order[i..][1..] == order[i + 1..];
      ListedStep(t, scan, source, order[i..], entries);
      entries := AddVisitAt(t, source, scan, order[i], entries);
      i := i + 1;
    }
    assert order[i..] == [] && entries + [] == entries;
  }

  lemma ListedStep(t: Tree, scan: Path -> seq<Name>, source: Path, order: seq<Path>, done: seq<ZipEntry>)
    requires source != [] && order != []
    ensures done + EntriesFor(t, source, ListedPaths(t, scan, order)) ==
            done + EntriesFor(t, source, VisitPaths(t, VisitAt(t, scan, NoLinkKept(t), order[0]))) +
            EntriesFor(t, source, ListedPaths(t, scan, order[1..]))
  {
    var first, rest := VisitPaths(t, VisitAt(t, scan, NoLinkKept(t), order[0])), ListedPaths(t, scan, order[1..]);
    assert ListedPaths(t, scan, order) == first + rest;
    EntriesForConcat(t, source, first, rest);
    Regroup(done, EntriesFor(t, source, first), EntriesFor(t, source, rest));
  }

  method AddVisitAt(t: Tree, source: Path, scan: Path -> seq<Name>, d: Path, before: seq<ZipEntry>)
    returns (entries: seq<ZipEntry>)
    requires source != [] && IsScan(t, scan) && d in t && t[d].Dir?
    ensures entries == before + EntriesFor(t, source, VisitPaths(t, VisitAt(t, scan, NoLinkKept(t), d)))
  {
    VisitedFiles(t, scan, source, d);
    entries := AddVisit(t, source, VisitAt(t, scan, NoLinkKept(t), d), before);
  }

  lemma VisitedFiles(t: Tree, scan: Path -> seq<Name>, source: Path, d: Path)
    requires IsScan(t, scan) && IsDirAt(t, d)
    ensures forall n :: n in VisitAt(t, scan, NoLinkKept(t), d).files ==> d + [n] in t && !t[d + [n]].Dir?
  {
    VisitAtIsVisit(t, scan, NoLinkKept(t), d);
  }

  /** What is written while the walk is at one directory. */
  method AddVisit(t: Tree, source: Path, v: Visit, before: seq<ZipEntry>) returns (entries: seq<ZipEntry>)
    requires source != [] && v.current in t && t[v.current].Dir?
    requires forall n :: n in v.files ==> v.current + [n] in t && !t[v.current + [n]].Dir?
    ensures entries == before + EntriesFor(t, source, VisitPaths(t, v))
  {
    if v.directories == [] && v.files == [] {
      assert VisitPaths(t, v) == [v.current] && [v.current][1..] == [];
      assert EntriesFor(t, source, [v.current]) == [EntryFor(t, source, v.current)];
      return before + [ZipEntry(Join(ArchivePath(source, v.current)) + "/", false, [])];
    }
    entries := AddFiles(t, source, v.current, v.files, before);
    assert [] + FilePaths(t, v.current, v.files) == FilePaths(t, v.current, v.files);
  }

  /** `for name in files`, links left out. */
  method AddFiles(t: Tree, source: Path, current: Path, names: seq<Name>, before: seq<ZipEntry>)
    returns (entries: seq<ZipEntry>)
    requires source != [] && forall n :: n in names ==> current + [n] in t && !t[current + [n]].Dir?
    ensures entries == before + EntriesFor(t, source, FilePaths(t, current, names))
  {
    entries := before;
    for i := 0 to |names|
      invariant entries + EntriesFor(t, source, FilePaths(t, current, names[i..]))
                == before + EntriesFor(t, source, FilePaths(t, current, names))
    {
      var p := current + [names[i]];
      FilesStep(t, source, current, names[i..]);
      assert names[i..][1..] == names[i + 1..];
      if p in t && !t[p].Link? {
        entries := entries + [ZipEntry(Join(ArchivePath(source, p)), false, t[p].content)];
      }
    }
    assert names[|names|..] == [];
  }

  lemma FilesStep(t: Tree, source: Path, current: Path, names: seq<Name>)
    requires source != [] && names != []
    requires current + [names[0]] in t && !t[current + [names[0]]].Dir?
    ensures var p := current + [names[0]];
            EntriesFor(t, source, FilePaths(t, current, names)) ==
            (if t[p].Link? then [] else [ZipEntry(Join(ArchivePath(source, p)), false, t[p].content)]) +
            EntriesFor(t, source, FilePaths(t, current, names[1..]))
  {
    var p, rest := current + [names[0]], FilePaths(t, current, names[1..]);
    if t[p].Link? {
      assert [] + rest == rest;
    } else {
      assert ([p] + rest)[1..] == rest;
    }
  }

  // ------------------------------------------------------------------
  // Unpacking what was downloaded
  // ------------------------------------------------------------------

  /** Something the archive has an entry for lies at or below `p`, so that unpacking brings `p` back. */
  ghost predicate IsCarried(t: Tree, source: Path, p: Path) {
    Within(source, p) && exists l :: IsListed(t, source, l) && p <= l
  }

  /** As the panel recreates it: the content, with the mode of a new file. */
  function Recreated(n: Node): Node {
    match n
    case File(content, _) => File(content, NEW_FILE_MODE)
    case _ => n
  }

  /** `u` is `t2` with a copy of the carried part of `source` put at `top`, and the directories above it made. */
  ghost predicate IsGraft(u: Tree, t2: Tree, t: Tree, source: Path, top: Path)
    requires top != []
  {
    && (forall q :: !Within(top, q) ==>
         && (q in u <==> q in t2 || (q in Prefixes(Parent(top)) && IsCarried(t, source, source)))
         && (q in u ==> u[q] == if q in t2 then t2[q] else Dir))
    && (forall p {:trigger Rebase(source, top, p)} :: Within(source, p) ==>
         && (Rebase(source, top, p) in u <==> IsCarried(t, source, p))
         && (IsCarried(t, source, p) ==> p in t && u[Rebase(source, top, p)] == Recreated(t[p])))
  }

  function PlannedFor(t: Tree, source: Path, top: Path, p: Path): Planned
    requires p in t
  {
    if t[p].File? then Planned(Rebase(source, top, p), false, t[p].content)
    else Planned(Rebase(source, top, p), true, [])
  }

  /** The place chosen for unpacking: a directory, there or still to be made, in which the downloaded name is free. */
  predicate IsFreePlace(t2: Tree, destination: Path, name: Name) {
    && ResolveParts(t2, destination, true).Ok?
    && HasEntryNames(destination) && (forall x :: x in Prefixes(destination) && x in t2 ==> t2[x].Dir?)
    && destination + [name] !in t2
    && !(destination == [] && name == TRASH)
  }

  /** The panel accepts the names it would have to create. */
  ghost predicate NamesAccepted(t: Tree, source: Path)
    requires source != []
  {
    forall p :: IsListed(t, source, p) ==> AllAccepted(ArchivePath(source, p))
  }

  lemma EntryIsPlanned(t: Tree, source: Path, p: Path, t2: Tree, destination: Path)
    requires WellFormed(t) && source != [] && IsListed(t, source, p) && AllAccepted(ArchivePath(source, p))
    requires WellFormed(t2) && IsFreePlace(t2, destination, Last(source))
    requires AllParts(destination) && ".." !in destination && AllPrintable(destination)
    ensures PlanEntry(t2, destination, EntryFor(t, source, p)) ==
            Ok(Some(PlannedFor(t, source, destination + [Last(source)], p)))
  {
    var relative := ArchivePath(source, p);
    EntryMatchesPlan(t, source, p, destination);
    EntryReadsBack(t, source, p);
    AcceptedTargetReadsBack(destination, relative);
    NewTargetIsClear(t2, destination, relative);
    PlannedAs(t2, destination, EntryFor(t, source, p), relative);
  }

  lemma EntryMatchesPlan(t: Tree, source: Path, p: Path, destination: Path)
    requires source != [] && p in t && Within(source, p)
    ensures !EntryFor(t, source, p).link
    ensures PlannedFor(t, source, destination + [Last(source)], p) ==
            Planned(destination + ArchivePath(source, p), !t[p].File?, EntryFor(t, source, p).content)
  {
    assert destination + ArchivePath(source, p) == Rebase(source, destination + [Last(source)], p);
  }

  lemma PlannedAs(t2: Tree, destination: Path, e: ZipEntry, relative: Path)
    requires RelativePath(StripSlashes(e.filename)) == Ok(relative) && relative != [] && AllAccepted(relative) && !e.link
    requires RelativePath(Join(destination + relative)) == Ok(destination + relative)
    requires ResolveParts(t2, destination + relative, false) == Ok(destination + relative)
    requires destination + relative !in t2
    ensures PlanEntry(t2, destination, e) ==
            Ok(Some(Planned(destination + relative, IsDirectoryEntry(e), e.content)))
  {
    assert forall i :: 0 <= i < |relative| ==> IsAcceptedName(relative[i]);
  }

  lemma EntryReadsBack(t: Tree, source: Path, p: Path)
    requires source != [] && p in t && AllAccepted(ArchivePath(source, p))
    ensures var e := EntryFor(t, source, p);
            && RelativePath(StripSlashes(e.filename)) == Ok(ArchivePath(source, p))
            && (IsDirectoryEntry(e) <==> !t[p].File?)
  {
    AcceptedTargetReadsBack([], ArchivePath(source, p));
  }

  /** Names the panel accepts survive being printed, read back, and printed again below the destination. */
  lemma AcceptedTargetReadsBack(destination: Path, relative: Path)
    requires relative != [] && AllAccepted(relative)
    requires AllParts(destination) && ".." !in destination && AllPrintable(destination)
    ensures RelativePath(StripSlashes(Join(relative))) == Ok(relative)
    ensures RelativePath(StripSlashes(Join(relative) + "/")) == Ok(relative)
    ensures Join(relative) != "" && Join(relative)[|Join(relative)| - 1] != '/'
    ensures RelativePath(Join(destination + relative)) == Ok(destination + relative)
  {
    forall i | 0 <= i < |relative|
      ensures IsPart(relative[i]) && relative[i] != ".." && Printable(relative[i])
    {
      assert IsAcceptedName(relative[i]);
    }
    JoinShape(relative);
    StripJoinedSlash(relative);
    RelativePathOfJoin(relative);
    RelativePathOfJoin(destination + relative);
  }

  lemma NewTargetIsClear(t2: Tree, destination: Path, relative: Path)
    requires WellFormed(t2) && relative != [] && IsFreePlace(t2, destination, relative[0])
    ensures ResolveParts(t2, destination + relative, false) == Ok(destination + relative)
    ensures destination + relative !in t2
  {
    var target := destination + relative;
    var top := destination + [relative[0]];
    forall k | 0 < k <= |target| ensures !(target[..k] in t2 && t2[target[..k]].Link?) {
      if k <= |destination| {
        assert target[..k] == destination[..k];
      } else if target[..k] in t2 {
        assert top <= target[..k];
        PrefixInTree(t2, target[..k], top);
      }
    }
    if target in t2 {
      PrefixInTree(t2, target, top);
    }
    assert destination == [] ==> target[0] == relative[0];
    assert destination != [] ==> target[0] == destination[0];
  }

  ghost predicate IsPlanFor(plan: seq<Planned>, t: Tree, source: Path, top: Path, paths: seq<Path>) {
    && |plan| == |paths|
    && forall i :: 0 <= i < |plan| ==> paths[i] in t && plan[i] == PlannedFor(t, source, top, paths[i])
  }

  lemma {:induction false} DownloadIsPlanned(
    t: Tree, source: Path, paths: seq<Path>, k: nat, plan: seq<Planned>, t2: Tree, destination: Path)
    requires WellFormed(t) && source != [] && k <= |paths| && Distinct(paths)
    requires forall p :: p in paths ==> IsListed(t, source, p) && AllAccepted(ArchivePath(source, p))
    requires WellFormed(t2) && IsFreePlace(t2, destination, Last(source))
    requires AllParts(destination) && ".." !in destination && AllPrintable(destination)
    requires IsPlanFor(plan, t, source, destination + [Last(source)], paths[..k])
    ensures PlanFrom(t2, destination, EntriesFor(t, source, paths[k..]), plan).Ok?
    ensures IsPlanFor(PlanFrom(t2, destination, EntriesFor(t, source, paths[k..]), plan).value,
              t, source, destination + [Last(source)], paths)
    decreases |paths| - k
  {
    var top := destination + [Last(source)];
    if k == |paths| {
      assert paths[..k] == paths && paths[k..] == [];
    } else {
      var p := paths[k];
      assert p in paths && paths[k..][0] == p && paths[k..][1..] == paths[k + 1..];
      EntryIsPlanned(t, source, p, t2, destination);
      var q := PlannedFor(t, source, top, p);
      forall i | 0 <= i < |plan| ensures plan[i].target != q.target {
        assert paths[..k][i] == paths[i] && paths[i] in paths;
        RebaseInjective(source, top, paths[i], p);
      }
      assert paths[..k + 1] == paths[..k] + [p];
      var entries := EntriesFor(t, source, paths[k..]);
      assert entries[0] == EntryFor(t, source, p) && entries[1..] == EntriesFor(t, source, paths[k + 1..]);
      DownloadIsPlanned(t, source, paths, k + 1, plan + [q], t2, destination);
    }
  }

  /** What makes the unpacked entries fit together: the plan of a download, at a free place. */
  ghost predicate IsFitting(
    plan: seq<Planned>, t: Tree, source: Path, paths: seq<Path>, t2: Tree, destination: Path)
  {
    && WellFormed(t) && WellFormed(t2) && source != [] && Distinct(paths)
    && IsFreePlace(t2, destination, Last(source))
    && (forall p :: p in paths ==> IsListed(t, source, p))
    && IsPlanFor(plan, t, source, destination + [Last(source)], paths)
    && HasTargets(plan)
  }

  lemma PrefixOfTarget(plan: seq<Planned>, q: Path) returns (i: nat)
    requires q in TargetPrefixes(plan)
    ensures i < |plan| && q <= plan[i].target && q != []
  {
    var last := |plan| - 1;
    if q in Prefixes(plan[last].target) {
      i := last;
      var k :| 0 < k <= |plan[last].target| && q == plan[last].target[..k];
    } else {
      i := PrefixOfTarget(plan[..last], q);
    }
  }

  lemma {:induction false} TargetPrefixesHas(plan: seq<Planned>, i: nat, q: Path)
    requires i < |plan| && q != [] && q <= plan[i].target
    ensures q in TargetPrefixes(plan)
    decreases |plan|
  {
    if i == |plan| - 1 {
      assert q == plan[i].target[..|q|];
    } else {
      TargetPrefixesHas(plan[..|plan| - 1], i, q);
    }
  }

  /** A listed path lies above another one only if they are the same. */
  lemma ListedAreLeaves(t: Tree, source: Path, p: Path, l: Path)
    requires WellFormed(t) && IsListed(t, source, p) && IsListed(t, source, l) && p <= l
    ensures p == l
  {
    if p != l {
      assert |p| == |l| ==> p == l;
      var c := l[..|p| + 1];
      assert c == p + [Last(c)];
      PrefixInTree(t, l, c);
      assert HasPlace(t, p);
      PrefixInTree(t, l, p);
    }
  }

  /** The next entry of a download always unpacks. */
  lemma NextEntryFits(
    plan: seq<Planned>, t: Tree, source: Path, paths: seq<Path>, t2: Tree, destination: Path, k: nat)
    requires IsFitting(plan, t, source, paths, t2, destination) && k < |plan|
    requires HasEntryNames(plan[k].target)
    requires UnpackPlan(t2, plan[..k]).Some?
    ensures UnpackEntry(UnpackPlan(t2, plan[..k]).value, plan[k]).Some?
  {
    var v := UnpackPlan(t2, plan[..k]).value;
    UnpackPlanAdds(t2, plan[..k]);
    var target := plan[k].target;
    forall x | x in Prefixes(target) && x in v ensures v[x].Dir? && (x == target ==> plan[k].directory) {
      var n :| 0 < n <= |target| && x == target[..n];
      TakenPrefixIsDir(plan, t, source, paths, t2, destination, k, x);
    }
    MakeDirsFails(v, target);
    PrefixesStep(target);
    MakeDirsFails(v, Parent(target));
    if !plan[k].directory {
      assert target in Prefixes(target);
      assert forall i :: 0 <= i < |Parent(target)| ==> Parent(target)[i] == target[i];
      MakeDirsAdds(v, Parent(target));
      forall x | x in Prefixes(Parent(target)) ensures x != target {
      }
    }
  }

  lemma TakenPrefixIsDir(
    plan: seq<Planned>, t: Tree, source: Path, paths: seq<Path>, t2: Tree, destination: Path, k: nat, x: Path)
    requires IsFitting(plan, t, source, paths, t2, destination) && k < |plan|
    requires UnpackPlan(t2, plan[..k]).Some?
    requires x != [] && x <= plan[k].target && x in UnpackPlan(t2, plan[..k]).value
    ensures UnpackPlan(t2, plan[..k]).value[x].Dir? && (x == plan[k].target ==> plan[k].directory)
  {
    var top := destination + [Last(source)];
    var v := UnpackPlan(t2, plan[..k]).value;
    UnpackPlanAdds(t2, plan[..k]);
    assert paths[k] in paths;
    assert plan[k].target == Rebase(source, top, paths[k]) && top <= plan[k].target;
    if x in t2 {
      if |x| > |destination| {
        assert top <= x;
        PrefixInTree(t2, x, top);
      } else {
        assert x == destination[..|x|] && x in Prefixes(destination);
      }
    } else {
      var j := PrefixOfTarget(plan[..k], x);
      assert paths[j] in paths && plan[..k][j] == plan[j];
      if x == plan[k].target {
        RebaseInjective(source, top, paths[k], paths[j]);
        ListedAreLeaves(t, source, paths[k], paths[j]);
      }
      if i :| 0 <= i < k && plan[..k][i].target == x {
        assert paths[i] in paths && plan[..k][i] == plan[i];
        RebaseInjective(source, top, paths[i], paths[k]);
        ListedAreLeaves(t, source, paths[i], paths[k]);
      }
    }
  }

  lemma {:induction false} DownloadUnpacks(
    plan: seq<Planned>, t: Tree, source: Path, paths: seq<Path>, t2: Tree, destination: Path, k: nat)
    requires IsFitting(plan, t, source, paths, t2, destination) && k <= |plan|
    requires forall i :: 0 <= i < |plan| ==> HasEntryNames(plan[i].target)
    ensures UnpackPlan(t2, plan[..k]).Some?
  {
    if k > 0 {
      DownloadUnpacks(plan, t, source, paths, t2, destination, k - 1);
      NextEntryFits(plan, t, source, paths, t2, destination, k - 1);
      assert plan[..k][..k - 1] == plan[..k - 1];
    }
  }

  /** What has been unpacked is a copy of the carried part. */
  lemma UnpackedIsGraft(
    plan: seq<Planned>, t: Tree, source: Path, paths: seq<Path>, t2: Tree, destination: Path)
    requires IsFitting(plan, t, source, paths, t2, destination) && UnpackPlan(t2, plan).Some?
    requires forall p :: IsListed(t, source, p) ==> p in paths
    ensures IsGraft(UnpackPlan(t2, plan).value, t2, t, source, destination + [Last(source)])
  {
    var top := destination + [Last(source)];
    var u := UnpackPlan(t2, plan).value;
    UnpackPlanAdds(t2, plan);
    assert Parent(top) == destination;
    forall q | !Within(top, q)
      ensures q in u <==> q in t2 || (q in Prefixes(destination) && IsCarried(t, source, source))
      ensures q in u ==> u[q] == if q in t2 then t2[q] else Dir
    {
      AboveTheGraft(plan, t, source, paths, t2, destination, q);
    }
    forall p | Within(source, p)
      ensures (Rebase(source, top, p) in u <==> IsCarried(t, source, p))
      ensures IsCarried(t, source, p) ==> p in t && u[Rebase(source, top, p)] == Recreated(t[p])
    {
      CarriedIsUnpacked(plan, t, source, paths, t2, destination, p);
    }
  }

  /** Outside of the copy, only the directories that lead to it are new. */
  lemma AboveTheGraft(
    plan: seq<Planned>, t: Tree, source: Path, paths: seq<Path>, t2: Tree, destination: Path, q: Path)
    requires IsFitting(plan, t, source, paths, t2, destination) && UnpackPlan(t2, plan).Some?
    requires forall p :: IsListed(t, source, p) ==> p in paths
    requires !Within(destination + [Last(source)], q)
    ensures
      var u := UnpackPlan(t2, plan).value;
      && (q in u <==> q in t2 || (q in Prefixes(destination) && IsCarried(t, source, source)))
      && (q in u ==> u[q] == if q in t2 then t2[q] else Dir)
  {
    var top := destination + [Last(source)];
    var u := UnpackPlan(t2, plan).value;
    UnpackPlanAdds(t2, plan);
    if q in u && q !in t2 {
      var i := PrefixOfTarget(plan, q);
      assert paths[i] in paths && top <= plan[i].target;
      Comparable(top, q, plan[i].target);
      assert |q| < |top| && q == destination[..|q|];
      assert IsListed(t, source, paths[i]) && source <= paths[i];
      forall j | 0 <= j < |plan| ensures plan[j].target != q {
        assert paths[j] in paths && top <= plan[j].target;
      }
    }
    if q in Prefixes(destination) && IsCarried(t, source, source) {
      var l :| IsListed(t, source, l) && source <= l;
      var i :| 0 <= i < |paths| && paths[i] == l;
      assert q <= destination && top <= plan[i].target;
      TargetPrefixesHas(plan, i, q);
    }
  }

  lemma CarriedIsUnpacked(
    plan: seq<Planned>, t: Tree, source: Path, paths: seq<Path>, t2: Tree, destination: Path, p: Path)
    requires IsFitting(plan, t, source, paths, t2, destination) && UnpackPlan(t2, plan).Some?
    requires forall l :: IsListed(t, source, l) ==> l in paths
    requires Within(source, p)
    ensures var q := Rebase(source, destination + [Last(source)], p);
            var u := UnpackPlan(t2, plan).value;
            && (q in u <==> IsCarried(t, source, p))
            && (IsCarried(t, source, p) ==> p in t && u[q] == Recreated(t[p]))
  {
    var top := destination + [Last(source)];
    var q := Rebase(source, top, p);
    var u := UnpackPlan(t2, plan).value;
    UnpackPlanAdds(t2, plan);
    if q in t2 {
      PrefixInTree(t2, q, top);
    }
    if q in u {
      var i := PrefixOfTarget(plan, q);
      assert paths[i] in paths;
      RebaseInjective(source, top, p, paths[i]);
      assert IsCarried(t, source, p);
    }
    if IsCarried(t, source, p) {
      var l :| IsListed(t, source, l) && p <= l;
      var i :| 0 <= i < |paths| && paths[i] == l;
      RebaseInjective(source, top, p, l);
      TargetPrefixesHas(plan, i, q);
      assert HasPlace(t, l);
      assert p != [];
      PrefixInTree(t, l, p);
      if p == l {
        assert IsAsPlanned(u, plan[i]);
      } else {
        forall j | 0 <= j < |plan| ensures plan[j].target != q {
          assert paths[j] in paths;
          RebaseInjective(source, top, paths[j], p);
          if paths[j] == p {
            ListedAreLeaves(t, source, p, l);
          }
        }
      }
    }
  }

  /**
    * Download and unpack: the entries of a download of `source`, unpacked at a free place, put there a copy
    * of every carried path with its content, and change nothing else.
    */
  lemma DownloadRoundTrip(
    t: Tree, source: Path, entries: seq<ZipEntry>, paths: seq<Path>,
    t2: Tree, archive: string, place: string, maxBytes: nat)
    requires WellFormed(t) && IsDownloadOf(entries, t, source, paths) && NamesAccepted(t, source)
    requires WellFormed(t2) && Resolve(t2, place, true).Ok?
    requires IsFreePlace(t2, Resolve(t2, place, true).value, Last(source))
    requires Resolve(t2, archive, false).Ok?
    requires var file := Resolve(t2, archive, false).value; file in t2 && t2[file].File? && IsZipName(Last(file))
    requires |entries| <= MAX_ENTRIES && TotalSize(entries) <= maxBytes
    ensures var plan := Plan(t2, archive, place, entries, maxBytes);
            && plan.Ok? && HasTargets(plan.value) && UnpackPlan(t2, plan.value).Some?
            && IsGraft(UnpackPlan(t2, plan.value).value, t2, t, source,
                 Resolve(t2, place, true).value + [Last(source)])
  {
    var destination := Resolve(t2, place, true).value;
    RelativePathParts(place);
    assert paths[..0] == [] && paths[0..] == paths;
    DownloadIsPlanned(t, source, paths, 0, [], t2, destination);
    var plan := PlanFrom(t2, destination, entries, []).value;
    PlanFromIsPlan(t2, destination, entries, []);
    forall i | 0 <= i < |plan| ensures HasEntryNames(plan[i].target) {
      assert paths[i] in paths;
      PlannedNames(t, source, paths[i], destination);
    }
    assert plan[..|plan|] == plan;
    DownloadUnpacks(plan, t, source, paths, t2, destination, |plan|);
    UnpackedIsGraft(plan, t, source, paths, t2, destination);
  }

  lemma PlannedNames(t: Tree, source: Path, p: Path, destination: Path)
    requires source != [] && IsListed(t, source, p) && AllAccepted(ArchivePath(source, p))
    requires HasEntryNames(destination)
    ensures HasEntryNames(Rebase(source, destination + [Last(source)], p))
  {
    assert Rebase(source, destination + [Last(source)], p) == destination + ArchivePath(source, p);
  }

  // ------------------------------------------------------------------
  // When a download carries everything
  // ------------------------------------------------------------------

  /** A directory that holds something besides links. */
  ghost predicate HasRealChild(t: Tree, d: Path) {
    exists n :: d + [n] in t && !t[d + [n]].Link?
  }

  ghost function PathsBelow(t: Tree, p: Path): set<Path> {
    set q | q in t && p <= q
  }

  /** Under any file or directory there is a listed path, if no directory holds only links to files. */
  lemma {:induction false} LeafBelow(t: Tree, source: Path, p: Path) returns (l: Path)
    requires WellFormed(t) && p in t && !t[p].Link? && Within(source, p)
    requires forall d :: d in t && t[d].Dir? && Within(source, d) ==> IsHollow(t, d) || HasRealChild(t, d)
    ensures IsListed(t, source, l) && p <= l
    decreases |PathsBelow(t, p)|
  {
    if t[p].File? || IsHollow(t, p) {
      l := p;
    } else {
      var n :| p + [n] in t && !t[p + [n]].Link?;
      var c := p + [n];
      assert PathsBelow(t, c) < PathsBelow(t, p) by {
        assert p in PathsBelow(t, p) && p !in PathsBelow(t, c);
      }
      StrictSubset(PathsBelow(t, c), PathsBelow(t, p));
      l := LeafBelow(t, source, c);
    }
  }

  lemma {:induction false} StrictSubset<T>(a: set<T>, b: set<T>)
    requires a < b
    ensures |a| < |b|
  {
    assert b == a + (b - a);
    assert |b| == |a| + |b - a|;
    var x :| x in b - a;
  }

  /**
    * The download carries every file and directory exactly when no directory is lost: each one either is
    * hollow or holds something besides links. A directory whose only entry is a link to a file is lost.
    */
  lemma CarriesEverything(t: Tree, source: Path)
    requires WellFormed(t)
    ensures (forall p :: p in t && !t[p].Link? && Within(source, p) ==> IsCarried(t, source, p)) <==>
            (forall d :: d in t && t[d].Dir? && Within(source, d) ==> IsHollow(t, d) || HasRealChild(t, d))
  {
    if forall d :: d in t && t[d].Dir? && Within(source, d) ==> IsHollow(t, d) || HasRealChild(t, d) {
      forall p | p in t && !t[p].Link? && Within(source, p) ensures IsCarried(t, source, p) {
        var l := LeafBelow(t, source, p);
      }
    }
    if forall p :: p in t && !t[p].Link? && Within(source, p) ==> IsCarried(t, source, p) {
      forall d | d in t && t[d].Dir? && Within(source, d) ensures IsHollow(t, d) || HasRealChild(t, d) {
        var l :| IsListed(t, source, l) && d <= l;
        if d != l {
          assert |d| == |l| ==> d == l;
          var c := l[..|d| + 1];
          assert c == d + [Last(c)];
          PrefixInTree(t, l, c);
        }
      }
    }
  }

  /** In particular a directory without symbolic links comes back whole. */
  lemma LinkFreeCarriesEverything(t: Tree, source: Path)
    requires WellFormed(t) && forall p :: p in t && Within(source, p) ==> !t[p].Link?
    ensures forall p :: p in t && Within(source, p) ==> IsCarried(t, source, p)
  {
    forall d | d in t && t[d].Dir? && Within(source, d) ensures IsHollow(t, d) || HasRealChild(t, d) {
      if n :| d + [n] in t {
        assert Within(source, d + [n]);
      }
    }
    CarriesEverything(t, source);
  }
}
