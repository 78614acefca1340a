/** `extract_zip` of `file_service.py`: unpacking a ZIP archive into the server directory, and undoing half of it. */
module Zips {
  import opened Common
  import opened Paths
  import opened Trees
  import opened FileRules

  /** What `zipfile` reports of one entry; `link` is the symbolic-link bit of its mode. */
  datatype ZipEntry = ZipEntry(filename: string, link: bool, content: Content)

  datatype Planned = Planned(target: Path, directory: bool, content: Content)

  const MAX_ENTRIES := 10_000

  /** Mode of a file the panel creates; ZIP modes are not applied. */
  const NEW_FILE_MODE: nat := 0x1A4

  predicate IsDirectoryEntry(e: ZipEntry) {
    e.filename != "" && e.filename[|e.filename| - 1] == '/'
  }

  function TotalSize(entries: seq<ZipEntry>): nat {
    if entries == [] then 0 else |entries[0].content| + TotalSize(entries[1..])
  }

  // ------------------------------------------------------------------
  // Planning: nothing is written before every entry has been accepted
  // ------------------------------------------------------------------

  /** The checks on one entry; None for the entries that are skipped. */
  function PlanEntry(t: Tree, destination: Path, e: ZipEntry): Result<Option<Planned>, FileError> {
    match RelativePath(StripSlashes(e.filename))
    case Err(_) => Err(InvalidFilePath)
    case Ok(relative) =>
      if relative == [] then Ok(None)
      else if exists i :: 0 <= i < |relative| && !IsAcceptedName(relative[i]) then Err(InvalidFileName)
      else if e.link then Err(LinksNotSupported)
      else
        match Resolve(t, Join(destination + relative), false)
        case Err(error) => Err(error)
        case Ok(target) =>
          if target in t then Err(AlreadyExists)
          else Ok(Some(Planned(target, IsDirectoryEntry(e), e.content)))
  }

  predicate IsTarget(plan: seq<Planned>, p: Path) {
    exists i :: 0 <= i < |plan| && plan[i].target == p
  }

  function PlanFrom(t: Tree, destination: Path, entries: seq<ZipEntry>, plan: seq<Planned>)
    : Result<seq<Planned>, FileError>
    decreases |entries|
  {
    if entries == [] then Ok(plan)
    else
      match PlanEntry(t, destination, entries[0])
      case Err(error) => Err(error)
      case Ok(None) => PlanFrom(t, destination, entries[1..], plan)
      case Ok(Some(q)) =>
        if IsTarget(plan, q.target) then Err(DuplicatePaths)
        else PlanFrom(t, destination, entries[1..], plan + [q])
  }

  predicate IsNewTarget(t: Tree, p: Path) {
    p != [] && p !in t && p[0] != TRASH && !CrossesLink(t, p)
  }

  /** What planning guarantees: new, different, link-free targets outside the trash. */
  ghost predicate IsPlan(t: Tree, plan: seq<Planned>) {
    && HasTargets(plan)
    && (forall i :: 0 <= i < |plan| ==> IsNewTarget(t, plan[i].target))
    && (forall i, j :: 0 <= i < j < |plan| ==> plan[i].target != plan[j].target)
  }

  lemma {:induction false} PlanFromIsPlan(t: Tree, destination: Path, entries: seq<ZipEntry>, plan: seq<Planned>)
    requires IsPlan(t, plan)
    ensures PlanFrom(t, destination, entries, plan).Ok? ==> IsPlan(t, PlanFrom(t, destination, entries, plan).value)
    decreases |entries|
  {
    if entries != [] {
      match PlanEntry(t, destination, entries[0])
      case Err(_) =>
      case Ok(None) => PlanFromIsPlan(t, destination, entries[1..], plan);
      case Ok(Some(q)) =>
        if !IsTarget(plan, q.target) {
          PlanFromIsPlan(t, destination, entries[1..], plan + [q]);
        }
    }
  }

  // ------------------------------------------------------------------
  // Unpacking, when every call succeeds
  // ------------------------------------------------------------------

  // ------------------------------------------------------------------
  // Which archives are accepted, and as what
  // ------------------------------------------------------------------

  /** Where the entry goes below the destination, as far as its name can be read. */
  function RelativeOf(e: ZipEntry): Option<Path> {
    match RelativePath(StripSlashes(e.filename))
    case Ok(relative) => Some(relative)
    case Err(_) => None
  }

  predicate IsNothing(e: ZipEntry) {
    RelativeOf(e) == Some([])
  }

  /** A new path with accepted names, not through a link and not into the trash; and the entry is no link itself. */
  predicate IsAcceptable(t: Tree, destination: Path, e: ZipEntry) {
    && RelativeOf(e).Some? && !e.link
    && var target := destination + RelativeOf(e).value;
    && (forall i :: 0 <= i < |RelativeOf(e).value| ==> IsAcceptedName(RelativeOf(e).value[i]))
    && target != [] && IsOpenWay(t, target) && target !in t
  }

  /** Entries `i` and `j` do not go to the same place. */
  predicate Apart(entries: seq<ZipEntry>, i: nat, j: nat) {
    i < j < |entries| && !IsNothing(entries[i]) ==> RelativeOf(entries[i]) != RelativeOf(entries[j])
  }

  ghost predicate AllApart(entries: seq<ZipEntry>) {
    forall i: nat, j: nat {:trigger Apart(entries, i, j)} :: Apart(entries, i, j)
  }

  /** The plan is the entries in their order, but for those that are the destination itself. */
  predicate IsPlanOf(plan: seq<Planned>, entries: seq<ZipEntry>, destination: Path)
    decreases |entries|
  {
    if entries == [] then plan == []
    else if IsNothing(entries[0]) then IsPlanOf(plan, entries[1..], destination)
    else
      var name := entries[0].filename;
      && plan != [] && RelativeOf(entries[0]).Some?
      && plan[0].target == destination + RelativeOf(entries[0]).value
      && plan[0].directory == (name != "" && name[|name| - 1] == '/')
      && plan[0].content == entries[0].content
      && IsPlanOf(plan[1..], entries[1..], destination)
  }

  predicate IsCleanPlace(destination: Path) {
    AllParts(destination) && ".." !in destination && AllPrintable(destination)
  }

  lemma EntryExactly(t: Tree, destination: Path, e: ZipEntry)
    requires IsCleanPlace(destination)
    ensures IsNothing(e) ==> PlanEntry(t, destination, e) == Ok(None)
    ensures !IsNothing(e) ==>
              (PlanEntry(t, destination, e).Ok? <==> IsAcceptable(t, destination, e)) &&
              (IsAcceptable(t, destination, e) ==>
                 PlanEntry(t, destination, e)
                 == Ok(Some(Planned(destination + RelativeOf(e).value, IsDirectoryEntry(e), e.content))))
  {
    if RelativeOf(e).Some? && !IsNothing(e) {
      RelativePathParts(StripSlashes(e.filename));
      var target := destination + RelativeOf(e).value;
      RelativePathOfJoin(target);
      ResolvesExactly(t, Join(target), false, target);
    }
  }

  lemma ApartFromRest(entries: seq<ZipEntry>)
    requires entries != []
    ensures AllApart(entries) <==>
            AllApart(entries[1..]) &&
            (IsNothing(entries[0]) || forall e :: e in entries[1..] ==> RelativeOf(e) != RelativeOf(entries[0]))
  {
    var rest := entries[1..];
    if AllApart(entries) {
      forall i: nat, j: nat ensures Apart(rest, i, j) {
        assert Apart(entries, i + 1, j + 1);
      }
      forall e | e in rest && !IsNothing(entries[0]) ensures RelativeOf(e) != RelativeOf(entries[0]) {
        var j: nat :| j < |rest| && rest[j] == e;
        assert Apart(entries, 0, j + 1);
      }
    }
    if AllApart(rest) && (IsNothing(entries[0]) || forall e :: e in rest ==> RelativeOf(e) != RelativeOf(entries[0])) {
      forall i: nat, j: nat ensures Apart(entries, i, j) {
        if i < j < |entries| {
          assert entries[j] == rest[j - 1];
          if i > 0 {
            assert entries[i] == rest[i - 1] && Apart(rest, i - 1, j - 1);
          }
        }
      }
    }
  }

  /** No entry goes where the plan so far already goes. */
  predicate IsClearOf(plan: seq<Planned>, entries: seq<ZipEntry>, destination: Path) {
    forall e :: e in entries && RelativeOf(e).Some? && !IsNothing(e) ==>
      !IsTarget(plan, destination + RelativeOf(e).value)
  }

  lemma ClearOfMore(plan: seq<Planned>, q: Planned, entries: seq<ZipEntry>, destination: Path, relative: Path)
    requires q.target == destination + relative && relative != []
    ensures IsClearOf(plan + [q], entries, destination) <==>
            IsClearOf(plan, entries, destination) && forall e :: e in entries ==> RelativeOf(e) != Some(relative)
  {
    var more := plan + [q];
    forall e | e in entries && RelativeOf(e).Some? && !IsNothing(e)
      ensures IsTarget(more, destination + RelativeOf(e).value) <==>
              IsTarget(plan, destination + RelativeOf(e).value) || RelativeOf(e) == Some(relative)
    {
      var target := destination + RelativeOf(e).value;
      assert target[|destination|..] == RelativeOf(e).value && q.target[|destination|..] == relative;
      assert more[|plan|] == q && forall i :: 0 <= i < |plan| ==> more[i] == plan[i];
    }
  }

  lemma {:induction false} PlanFromExactly(t: Tree, destination: Path, entries: seq<ZipEntry>, plan: seq<Planned>)
    requires IsCleanPlace(destination)
    ensures PlanFrom(t, destination, entries, plan).Ok? <==>
              && (forall e :: e in entries ==> IsNothing(e) || IsAcceptable(t, destination, e))
              && AllApart(entries) && IsClearOf(plan, entries, destination)
    ensures PlanFrom(t, destination, entries, plan).Ok? ==>
              var r := PlanFrom(t, destination, entries, plan).value;
              plan <= r && IsPlanOf(r[|plan|..], entries, destination)
    decreases |entries|
  {
    if entries != [] {
      var e, rest := entries[0], entries[1..];
      assert entries == [e] + rest;
      EntryExactly(t, destination, e);
      ApartFromRest(entries);
      if IsNothing(e) {
        PlanFromExactly(t, destination, rest, plan);
      } else if IsAcceptable(t, destination, e) {
        var relative := RelativeOf(e).value;
        var q := Planned(destination + relative, IsDirectoryEntry(e), e.content);
        PlanFromExactly(t, destination, rest, plan + [q]);
        ClearOfMore(plan, q, rest, destination, relative);
        if PlanFrom(t, destination, entries, plan).Ok? {
          var r := PlanFrom(t, destination, entries, plan).value;
          assert r[|plan|..][1..] == r[|plan + [q]|..] && r[|plan|] == (plan + [q])[|plan|];
        }
      }
    }
  }

  predicate HasEntryNames(p: Path) {
    forall i :: 0 <= i < |p| ==> IsEntryName(p[i])
  }

  function UnpackEntry(t: Tree, q: Planned): Option<Tree>
    requires q.target != []
  {
    if !HasEntryNames(q.target) then None
    else if q.directory then MakeDirs(t, q.target)
    else
      match MakeDirs(t, Parent(q.target))
      case None => None
      case Some(u) =>
        if q.target in u then None else Some(u[q.target := File(q.content, NEW_FILE_MODE)])
  }

  predicate HasTargets(plan: seq<Planned>) {
    forall i :: 0 <= i < |plan| ==> plan[i].target != []
  }

  function UnpackPlan(t: Tree, plan: seq<Planned>): Option<Tree>
    requires HasTargets(plan)
    decreases |plan|
  {
    if plan == [] then Some(t)
    else
      match UnpackPlan(t, plan[..|plan| - 1])
      case None => None
      case Some(u) => UnpackEntry(u, plan[|plan| - 1])
  }

  function FileCount(plan: seq<Planned>): nat {
    if plan == [] then 0
    else FileCount(plan[..|plan| - 1]) + (if plan[|plan| - 1].directory then 0 else 1)
  }

  /** The entries of the plan that are files. */
  function FileEntries(plan: seq<Planned>): set<nat> {
    set i | 0 <= i < |plan| && !plan[i].directory
  }

  lemma {:induction false} FilesAreCounted(plan: seq<Planned>)
    ensures FileCount(plan) == |FileEntries(plan)|
  {
    if plan != [] {
      var n := |plan| - 1;
      FilesAreCounted(plan[..n]);
      assert FileEntries(plan) == FileEntries(plan[..n]) + if plan[n].directory then {} else {n};
    }
  }

  /** The ancestors that `mkdir(parents=True)` makes for a directory entry without recording them. */
  function Implicit(t: Tree, q: Planned): set<Path>
    requires q.target != []
  {
    if q.directory && q.target !in t then Prefixes(Parent(q.target)) - t.Keys else {}
  }

  function ImplicitOf(t: Tree, plan: seq<Planned>): set<Path>
    requires HasTargets(plan)
    decreases |plan|
  {
    if plan == [] then {}
    else
      ImplicitOf(t, plan[..|plan| - 1]) +
      (match UnpackPlan(t, plan[..|plan| - 1])
       case None => {}
       case Some(u) => Implicit(u, plan[|plan| - 1]))
  }

  function TargetPrefixes(plan: seq<Planned>): set<Path> {
    if plan == [] then {} else TargetPrefixes(plan[..|plan| - 1]) + Prefixes(plan[|plan| - 1].target)
  }

  ghost predicate IsAsPlanned(u: Tree, q: Planned) {
    q.target in u && u[q.target] == if q.directory then Dir else File(q.content, NEW_FILE_MODE)
  }

  /**
    * What a successful extraction amounts to: nothing that was there changes, every planned file and
    * directory is there with its content, and the only other new nodes are their ancestors.
    */
  lemma {:induction false} UnpackPlanAdds(t: Tree, plan: seq<Planned>)
    requires WellFormed(t) && HasTargets(plan) && UnpackPlan(t, plan).Some?
    ensures var u := UnpackPlan(t, plan).value;
            && WellFormed(u) && IsSubtree(t, u)
            && u.Keys == t.Keys + TargetPrefixes(plan)
            && (forall i :: 0 <= i < |plan| ==> IsAsPlanned(u, plan[i]))
            && forall p :: p in u && p !in t && !IsTarget(plan, p) ==> u[p] == Dir
    decreases |plan|
  {
    if plan != [] {
      var init, q := plan[..|plan| - 1], plan[|plan| - 1];
      UnpackPlanAdds(t, init);
      var v := UnpackPlan(t, init).value;
      UnpackEntryAdds(v, q);
      var u := UnpackPlan(t, plan).value;
      forall i | 0 <= i < |plan| ensures IsAsPlanned(u, plan[i]) {
        if i < |init| { assert IsAsPlanned(v, init[i]); }
      }
      forall p | p in u && p !in t && !IsTarget(plan, p) ensures u[p] == Dir {
        assert plan[|plan| - 1].target != p;
        if p in v {
          assert !IsTarget(init, p) by {
            forall i | 0 <= i < |init| ensures init[i].target != p {
              assert plan[i].target != p;
            }
          }
        }
      }
    }
  }

  lemma PrefixInTree(t: Tree, p: Path, d: Path)
    requires WellFormed(t) && p in t && d != [] && d <= p
    ensures d in t && (d == p || t[d].Dir?)
  {
    if d != p {
      AncestorIsDir(t, p, |d|);
      assert p[..|d|] == d;
    }
  }

  /** One entry: what was there stays, and only the target and its missing ancestors are added. */
  lemma UnpackEntryAdds(t: Tree, q: Planned)
    requires WellFormed(t) && q.target != [] && UnpackEntry(t, q).Some?
    ensures var u := UnpackEntry(t, q).value;
            && WellFormed(u) && IsSubtree(t, u)
            && u.Keys == t.Keys + Prefixes(q.target)
            && (q.directory ==> u[q.target] == Dir)
            && (!q.directory ==> q.target !in t && u[q.target] == File(q.content, NEW_FILE_MODE))
            && forall p :: p in u && p !in t && p != q.target ==> u[p] == Dir
  {
    PrefixesStep(q.target);
    if q.directory {
      MakeDirsAdds(t, q.target);
    } else {
      var parent := Parent(q.target);
      assert forall i :: 0 <= i < |parent| ==> parent[i] == q.target[i];
      MakeDirsAdds(t, parent);
      var v := MakeDirs(t, parent).value;
      var u := UnpackEntry(t, q).value;
      forall p | p in u ensures HasPlace(u, p) {
        if p != q.target { assert HasPlace(v, p); }
      }
    }
  }

  /** One `mkdir` on the way down does not change where `mkdir -p` ends. */
  lemma {:induction false} MakeDirsFromOneDown(t: Tree, p: Path, k: nat)
    requires WellFormed(t) && 0 < k <= |p| && p[..k] !in t && IsDirAt(t, p[..k - 1])
    ensures MakeDirs(t[p[..k] := Dir], p) == MakeDirs(t, p)
    decreases |p|
  {
    var u := t[p[..k] := Dir];
    if k == |p| {
      assert p[..k] == p && p[..k - 1] == Parent(p);
      assert MakeDirs(t, Parent(p)) == Some(t);
    } else {
      if p in t {
        PrefixInTree(t, p, p[..k]);
      }
      assert Parent(p)[..k] == p[..k] && Parent(p)[..k - 1] == p[..k - 1];
      MakeDirsFromOneDown(t, Parent(p), k);
    }
  }

  // ------------------------------------------------------------------
  // Unpacking, when calls may fail
  // ------------------------------------------------------------------

  ghost predicate TopDown(directories: seq<Path>) {
    forall i, j {:trigger directories[i], directories[j]} ::
      0 <= i < j < |directories| ==> !(directories[j] <= directories[i])
  }

  ghost predicate LiesUnder(p: Path, roots: set<Path>) {
    exists u :: u in roots && p <= u
  }

  /**
    * The lists one extraction keeps agree with the tree: what is new is a recorded file, a recorded
    * directory, or unrecorded.
    */
  ghost predicate Recorded(start: Tree, t: Tree, files: seq<Path>, directories: seq<Path>, unrecorded: set<Path>) {
    && WellFormed(start) && WellFormed(t) && IsSubtree(start, t)
    && t.Keys == start.Keys + Members(files) + Members(directories) + unrecorded
    && start.Keys !! Members(files) !! Members(directories) !! unrecorded
    && (forall p :: p in files ==> p in t && t[p].File?)
    && (forall p :: p in directories ==> p in t && t[p].Dir?)
    && TopDown(directories)
  }

  lemma RecordDirectory(
    start: Tree, t: Tree, files: seq<Path>, directories: seq<Path>, unrecorded: set<Path>,
    t': Tree, target: Path, implicit: set<Path>)
    requires Recorded(start, t, files, directories, unrecorded)
    requires WellFormed(t') && IsSubtree(t, t') && target in t' && t'[target].Dir? && target !in t
    requires t'.Keys == t.Keys + implicit + {target}
    requires target !in implicit && implicit !! t.Keys
    ensures Recorded(start, t', files, directories + [target], unrecorded + implicit)
  {
    var directories' := directories + [target];
    assert Members(directories') == Members(directories) + {target};
    forall i, j | 0 <= i < j < |directories'| ensures !(directories'[j] <= directories'[i]) {
      if j == |directories| && target <= directories[i] {
        assert directories[i] in Members(directories);
        assert HasPlace(t', target);
        PrefixInTree(t, directories[i], target);
      }
    }
  }

  lemma RecordFile(
    start: Tree, t: Tree, files: seq<Path>, directories: seq<Path>, unrecorded: set<Path>,
    t': Tree, target: Path, kept: bool)
    requires Recorded(start, t, files, directories, unrecorded)
    requires WellFormed(t') && target !in t && IsSubtree(t, t')
    requires target in t' && (kept ==> t'[target].File?) && t'.Keys == t.Keys + {target}
    ensures kept ==> Recorded(start, t', files + [target], directories, unrecorded)
    ensures !kept ==> Recorded(start, t', files, directories, unrecorded + {target})
  {
    assert Members(files + [target]) == Members(files) + {target};
  }

  lemma RemoveFile(t: Tree, p: Path)
    requires WellFormed(t) && p in t && !t[p].Dir?
    ensures WellFormed(t - {p})
  {
    forall q | q in t - {p} ensures HasPlace(t - {p}, q) {
      assert HasPlace(t, q);
    }
  }

  predicate HasChild(t: Tree, d: Path) {
    exists p :: p in t && p != [] && Parent(p) == d
  }

  lemma RemoveEmptyDirectory(t: Tree, d: Path)
    requires WellFormed(t) && d in t && !HasChild(t, d)
    ensures WellFormed(t - {d})
  {
    forall q | q in t - {d} ensures HasPlace(t - {d}, q) {
      assert HasPlace(t, q);
    }
  }

  /** The recorded directories that cannot be removed: something unrecorded lies in them. */
  ghost function Stuck(directories: seq<Path>, unrecorded: set<Path>): set<Path> {
    set d | d in directories && LiesUnder(d, unrecorded)
  }

  /** State of the second rollback loop: the directories before `i` are still all there. */
  ghost predicate RollingBack(start: Tree, t: Tree, directories: seq<Path>, i: nat, unrecorded: set<Path>) {
    && i <= |directories|
    && WellFormed(start) && WellFormed(t) && IsSubtree(start, t)
    && TopDown(directories)
    && start.Keys !! Members(directories) && start.Keys !! unrecorded && Members(directories) !! unrecorded
    && t.Keys == start.Keys + unrecorded + Members(directories[..i]) + Stuck(directories[i..], unrecorded)
  }

  lemma StuckStep(directories: seq<Path>, i: nat, unrecorded: set<Path>)
    requires i < |directories|
    ensures Stuck(directories[i..], unrecorded) ==
            Stuck(directories[i + 1..], unrecorded) +
            (if LiesUnder(directories[i], unrecorded) then {directories[i]} else {})
    ensures Members(directories[..i + 1]) == Members(directories[..i]) + {directories[i]}
  {
    assert directories[i..] == [directories[i]] + directories[i + 1..];
    assert directories[..i + 1] == directories[..i] + [directories[i]];
  }

  /** `rmdir` fails on a recorded directory exactly when something unrecorded lies in it. */
  lemma StuckMeansChild(start: Tree, t: Tree, directories: seq<Path>, i: nat, unrecorded: set<Path>)
    requires i < |directories| && RollingBack(start, t, directories, i + 1, unrecorded)
    ensures directories[i] in t
    ensures HasChild(t, directories[i]) <==> LiesUnder(directories[i], unrecorded)
  {
    var d := directories[i];
    assert d in directories[..i + 1];
    assert d in Members(directories[..i + 1]) && d in directories && d in Members(directories);
    if LiesUnder(d, unrecorded) {
      var u :| u in unrecorded && d <= u;
      assert d !in unrecorded;
      assert |u| == |d| ==> u == d;
      var c := u[..|d| + 1];
      PrefixInTree(t, u, c);
      assert Parent(c) == d;
    }
    if HasChild(t, d) {
      var c :| c in t && c != [] && Parent(c) == d;
      assert HasPlace(t, c) && HasPlace(t, d) && d <= c;
      if c in start {
        assert HasPlace(start, c);
      } else if c in Members(directories[..i + 1]) {
        var j :| 0 <= j < i + 1 && directories[j] == c;
        assert directories[i] <= directories[j];
      } else if c in unrecorded {
        assert LiesUnder(d, unrecorded);
      } else {
        var u :| u in unrecorded && c <= u;
        assert d <= u;
      }
    }
  }

  lemma RollbackStep(start: Tree, t: Tree, directories: seq<Path>, i: nat, unrecorded: set<Path>)
    requires i < |directories| && RollingBack(start, t, directories, i + 1, unrecorded)
    ensures directories[i] in t
    ensures RollingBack(start, if HasChild(t, directories[i]) then t else t - {directories[i]},
              directories, i, unrecorded)
  {
    var d := directories[i];
    StuckMeansChild(start, t, directories, i, unrecorded);
    StuckStep(directories, i, unrecorded);
    if HasChild(t, d) {
    } else {
      RemoveEmptyDirectory(t, d);
      forall j | 0 <= j < i ensures directories[j] != d {
        assert !(directories[i] <= directories[j]);
      }
      assert d !in Stuck(directories[i + 1..], unrecorded);
      assert d in Members(directories);
    }
  }

  /** `[path for path in reversed(target.parents) if not path.exists()]`, for `p` the parent of the target. */
  function Missing(t: Tree, p: Path): seq<Path>
    decreases |p|
  {
    if p == [] || p in t then [] else Missing(t, Parent(p)) + [p]
  }

  /** The outermost missing ancestor, and what is missing once it has been made. */
  lemma {:induction false} MissingHead(t: Tree, p: Path) returns (k: nat)
    requires WellFormed(t) && Missing(t, p) != []
    ensures 0 < k <= |p| && Missing(t, p)[0] == p[..k] && p[..k] !in t
    ensures p[..k - 1] == [] || p[..k - 1] in t
    ensures Missing(t[p[..k] := Dir], p) == Missing(t, p)[1..]
    decreases |p|
  {
    if Missing(t, Parent(p)) == [] {
      k := |p|;
      assert p[..k] == p && p[..k - 1] == Parent(p);
    } else {
      k := MissingHead(t, Parent(p));
      assert Parent(p)[..k] == p[..k] && Parent(p)[..k - 1] == p[..k - 1];
    }
  }

  lemma AddDirAt(t: Tree, p: Path)
    requires WellFormed(t) && p != [] && IsEntryName(Last(p)) && IsDirAt(t, Parent(p)) && p !in t
    ensures WellFormed(t[p := Dir]) && IsSubtree(t, t[p := Dir])
  {
    var u := t[p := Dir];
    forall q | q in u ensures HasPlace(u, q) {
      if q != p { assert HasPlace(t, q); }
    }
  }

  lemma AddFileAt(t: Tree, p: Path, n: Node)
    requires WellFormed(t) && p != [] && IsEntryName(Last(p)) && IsDirAt(t, Parent(p)) && p !in t
    ensures WellFormed(t[p := n]) && IsSubtree(t, t[p := n])
  {
    var u := t[p := n];
    forall q | q in u ensures HasPlace(u, q) {
      if q != p { assert HasPlace(t, q); }
    }
  }

  /** A missing ancestor under something that is not a directory: the entry cannot be unpacked. */
  lemma BlockedAncestor(t: Tree, p: Path, k: nat)
    requires WellFormed(t) && 0 < k <= |p| && !IsDirAt(t, p[..k - 1]) && p[..k - 1] in t
    ensures MakeDirs(t, p).None?
  {
    MakeDirsFails(t, p);
    assert p[..k - 1] in Prefixes(p);
  }

  lemma NamesWithLast(t: Tree, p: Path)
    requires WellFormed(t) && p != [] && IsDirAt(t, Parent(p)) && IsEntryName(Last(p))
    ensures HasEntryNames(p)
  {
    if Parent(p) != [] {
      NamesOfPath(t, Parent(p));
    }
    forall i | 0 <= i < |p| ensures IsEntryName(p[i]) {
      if i < |p| - 1 { assert p[i] == Parent(p)[i]; }
    }
  }

  /**
    * How an extraction ends: entry `at` fails, with or without its own target having been made. For a
    * directory entry, `depth` says how many components of its target are there by then.
    */
  datatype Outcome = Extracted(count: nat) | Failed(at: nat, made: bool, depth: nat)

  /** `t` is `u` once `mkdir(parents=True)` has come down to `depth` on its way to `p`. */
  ghost predicate IsPathMade(u: Tree, p: Path, made: bool, depth: nat, t: Tree) {
    && depth <= |p| && (made <==> depth == |p|)
    && HasEntryNames(p[..depth]) && MakeDirs(u, p[..depth]) == Some(t)
  }

  /** What that has made without recording it. */
  ghost function ImplicitTo(u: Tree, q: Planned, made: bool, depth: nat): set<Path>
    requires q.target != [] && depth <= |q.target|
  {
    if made then Implicit(u, q) else Prefixes(q.target[..depth]) - u.Keys
  }

  /** What the rollback cannot remove: nodes made for the entries so far and recorded nowhere. */
  ghost function Leftover(start: Tree, plan: seq<Planned>, at: nat, made: bool, depth: nat): set<Path>
    requires HasTargets(plan) && at < |plan| && depth <= |plan[at].target|
  {
    ImplicitOf(start, plan[..at]) +
    (if !plan[at].directory then (if made then {plan[at].target} else {})
     else
       match UnpackPlan(start, plan[..at])
       case None => {}
       case Some(u) => ImplicitTo(u, plan[at], made, depth))
  }

  /**
    * How the tree can stand when the call ends. On success nothing is undone. When an entry fails while
    * file entries are still open, what is left over is exactly what was made without being recorded, with
    * the directories it lies in; when only directory entries were open, nothing is undone at all.
    */
  ghost predicate IsResult(start: Tree, plan: seq<Planned>, outcome: Outcome, t: Tree)
    requires HasTargets(plan)
  {
    && WellFormed(t) && IsSubtree(start, t)
    && match outcome
       case Extracted(count) => count == FileCount(plan) && UnpackPlan(start, plan) == Some(t)
       case Failed(at, made, depth) =>
         && at < |plan| && depth <= |plan[at].target| && UnpackPlan(start, plan[..at]).Some?
         && var u := UnpackPlan(start, plan[..at]).value;
         && (plan[at].directory ==> exists v :: IsPathMade(u, plan[at].target, made, depth, v))
         && if FileCount(plan[..at]) < FileCount(plan) then
              forall p :: p in t <==>
                p in start || (p != [] && LiesUnder(p, Leftover(start, plan, at, made, depth)))
            else
              plan[at].directory && IsPathMade(u, plan[at].target, made, depth, t)
  }

  lemma {:induction false} ImplicitIsNew(start: Tree, plan: seq<Planned>)
    requires WellFormed(start) && HasTargets(plan)
    ensures ImplicitOf(start, plan) !! start.Keys && [] !in ImplicitOf(start, plan)
    decreases |plan|
  {
    if plan != [] {
      var init := plan[..|plan| - 1];
      ImplicitIsNew(start, init);
      if UnpackPlan(start, init).Some? {
        UnpackPlanAdds(start, init);
      }
    }
  }

  /** The check a caller can make: each directory entry finds its parent there when its turn comes. */
  ghost predicate ParentsComeFirst(start: Tree, plan: seq<Planned>)
    requires HasTargets(plan)
  {
    forall i :: 0 <= i < |plan| && plan[i].directory ==>
      var known := start.Keys + TargetPrefixes(plan[..i]) + {[]};
      plan[i].target in known || Parent(plan[i].target) in known
  }

  lemma {:induction false} ParentsComeFirstStep(start: Tree, plan: seq<Planned>)
    requires plan != [] && HasTargets(plan)
    ensures ParentsComeFirst(start, plan) <==>
              ParentsComeFirst(start, plan[..|plan| - 1]) &&
              (plan[|plan| - 1].directory ==>
                 var known := start.Keys + TargetPrefixes(plan[..|plan| - 1]) + {[]};
                 plan[|plan| - 1].target in known || Parent(plan[|plan| - 1].target) in known)
  {
    var init := plan[..|plan| - 1];
    assert forall i :: 0 <= i < |init| ==> init[..i] == plan[..i];
  }

  /** Nothing goes unrecorded on the way exactly when that check holds. */
  lemma {:induction false} NothingImplicit(start: Tree, plan: seq<Planned>)
    requires WellFormed(start) && HasTargets(plan) && UnpackPlan(start, plan).Some?
    ensures ImplicitOf(start, plan) == {} <==> ParentsComeFirst(start, plan)
    decreases |plan|
  {
    if plan != [] {
      var init, q := plan[..|plan| - 1], plan[|plan| - 1];
      NothingImplicit(start, init);
      UnpackPlanAdds(start, init);
      ParentsComeFirstStep(start, plan);
      var u := UnpackPlan(start, init).value;
      var parent := Parent(q.target);
      if q.directory && q.target !in u {
        if parent in u {
          PrefixesAreThere(u, parent);
          assert Implicit(u, q) == {};
        } else if parent != [] {
          PrefixesStep(parent);
          assert parent in Implicit(u, q);
        } else {
          assert Implicit(u, q) == {};
        }
      }
    }
  }

  /** By the time of entry `at`, `p` is there if everything before it went well. */
  predicate IsKnown(start: Tree, plan: seq<Planned>, at: nat, p: Path)
    requires at <= |plan|
  {
    p == [] || p in start || p in TargetPrefixes(plan[..at])
  }

  lemma KnownIsThere(start: Tree, plan: seq<Planned>, at: nat, p: Path)
    requires WellFormed(start) && HasTargets(plan) && at <= |plan| && UnpackPlan(start, plan[..at]).Some?
    ensures var u := UnpackPlan(start, plan[..at]).value;
            && (IsKnown(start, plan, at, p) <==> p == [] || p in u)
            && (Prefixes(p) <= u.Keys <==> IsKnown(start, plan, at, p))
  {
    UnpackPlanAdds(start, plan[..at]);
    var u := UnpackPlan(start, plan[..at]).value;
    if p in u {
      PrefixesAreThere(u, p);
    }
    if p != [] {
      PrefixesStep(p);
    } else {
      assert Prefixes(p) == {};
    }
  }

  /** Nothing is left over exactly if the archive keeps the order up to the failing entry. */
  lemma NothingLeftOver(start: Tree, plan: seq<Planned>, at: nat, made: bool, depth: nat)
    requires WellFormed(start) && HasTargets(plan) && at < |plan| && depth <= |plan[at].target|
    requires UnpackPlan(start, plan[..at]).Some?
    requires plan[at].directory ==>
               exists v :: IsPathMade(UnpackPlan(start, plan[..at]).value, plan[at].target, made, depth, v)
    ensures Leftover(start, plan, at, made, depth) == {} <==>
            if !plan[at].directory then !made && ParentsComeFirst(start, plan[..at])
            else if made then ParentsComeFirst(start, plan[..at + 1])
            else ParentsComeFirst(start, plan[..at]) && IsKnown(start, plan, at, plan[at].target[..depth])
  {
    var q := plan[at];
    var u := UnpackPlan(start, plan[..at]).value;
    NothingImplicit(start, plan[..at]);
    if q.directory && made {
      assert q.target[..depth] == q.target;
      PlanStep(start, plan, at);
      NothingImplicit(start, plan[..at + 1]);
    } else if q.directory {
      var above := q.target[..depth];
      KnownIsThere(start, plan, at, above);
      NoneMissing(Prefixes(above), u.Keys);
      NoneMissing(ImplicitOf(start, plan[..at]) + (Prefixes(above) - u.Keys), {});
    }
  }

  lemma NoneMissing<T>(a: set<T>, b: set<T>)
    ensures a - b == {} <==> a <= b
  {
    forall x | a - b == {} && x in a ensures x in b {
      assert x in b || x in a - b;
    }
  }

  /**
    * When a failed extraction leaves the first tree. While file entries are still open: exactly if each
    * directory entry so far found its parent there, and the failing entry had made neither its file nor an
    * ancestor of its directory. When only directory entries are open, exactly if nothing had been made at all.
    */
  lemma FailureLeavesNothing(start: Tree, plan: seq<Planned>, at: nat, made: bool, depth: nat, t: Tree)
    requires WellFormed(start) && IsPlan(start, plan) && IsResult(start, plan, Failed(at, made, depth), t)
    ensures t == start <==>
            if FileCount(plan[..at]) == FileCount(plan) then at == 0 && IsKnown(start, plan, 0, plan[0].target[..depth])
            else if !plan[at].directory then !made && ParentsComeFirst(start, plan[..at])
            else if made then ParentsComeFirst(start, plan[..at + 1])
            else ParentsComeFirst(start, plan[..at]) && IsKnown(start, plan, at, plan[at].target[..depth])
  {
    FileCountMonotone(plan, at);
    if FileCount(plan[..at]) < FileCount(plan) {
      NothingLeftOver(start, plan, at, made, depth);
      LeftoverShows(start, plan, at, made, depth, t);
    } else {
      NothingUndone(start, plan, at, made, depth, t);
    }
  }

  lemma LeftoverShows(start: Tree, plan: seq<Planned>, at: nat, made: bool, depth: nat, t: Tree)
    requires WellFormed(start) && IsPlan(start, plan) && IsResult(start, plan, Failed(at, made, depth), t)
    requires FileCount(plan[..at]) < FileCount(plan)
    ensures t == start <==> Leftover(start, plan, at, made, depth) == {}
  {
    var left := Leftover(start, plan, at, made, depth);
    ImplicitIsNew(start, plan[..at]);
    UnpackPlanAdds(start, plan[..at]);
    assert IsNewTarget(start, plan[at].target);
    assert left !! start.Keys && [] !in left;
    if left == {} {
      assert t.Keys == start.Keys;
    } else {
      var u :| u in left;
      assert u <= u && u in t;
    }
  }

  lemma NothingUndone(start: Tree, plan: seq<Planned>, at: nat, made: bool, depth: nat, t: Tree)
    requires WellFormed(start) && IsPlan(start, plan) && IsResult(start, plan, Failed(at, made, depth), t)
    requires FileCount(plan[..at]) == FileCount(plan)
    ensures t == start <==> at == 0 && IsKnown(start, plan, 0, plan[0].target[..depth])
  {
    var p := plan[at].target[..depth];
    var u := UnpackPlan(start, plan[..at]).value;
    UnpackPlanAdds(start, plan[..at]);
    MakeDirsAdds(u, p);
    assert IsNewTarget(start, plan[0].target);
    if at == 0 {
      assert plan[..0] == [] && TargetPrefixes([]) == {};
      KnownIsThere(start, plan, 0, p);
    } else {
      assert IsAsPlanned(u, plan[..at][0]);
    }
  }

  lemma {:induction false} OrderOfPrefix(start: Tree, plan: seq<Planned>, k: nat)
    requires HasTargets(plan) && ParentsComeFirst(start, plan) && k <= |plan|
    ensures ParentsComeFirst(start, plan[..k])
  {
    assert forall i :: 0 <= i < k ==> plan[..k][i] == plan[i] && plan[..k][..i] == plan[..i];
  }

  /** An archive in order, that is what a caller can check: every failure but a half-written file is undone. */
  lemma OrderedArchiveIsUndone(start: Tree, plan: seq<Planned>, at: nat, made: bool, depth: nat, t: Tree)
    requires WellFormed(start) && IsPlan(start, plan) && IsResult(start, plan, Failed(at, made, depth), t)
    requires ParentsComeFirst(start, plan) && FileCount(plan[..at]) < FileCount(plan)
    ensures t == start <==> plan[at].directory || !made
  {
    FailureLeavesNothing(start, plan, at, made, depth, t);
    OrderOfPrefix(start, plan, at);
    OrderOfPrefix(start, plan, at + 1);
    if plan[at].directory && !made {
      var p := plan[at].target;
      var known := start.Keys + TargetPrefixes(plan[..at]) + {[]};
      assert p in known || Parent(p) in known;
      KnownIsThere(start, plan, at, if p in known then p else Parent(p));
      KnownIsThere(start, plan, at, p[..depth]);
      ShorterPrefixes(p, depth);
    }
  }

  lemma ShorterPrefixes(p: Path, depth: nat)
    requires depth < |p|
    ensures Prefixes(p[..depth]) <= Prefixes(Parent(p)) <= Prefixes(p)
  {
    forall q | q in Prefixes(p[..depth]) ensures q in Prefixes(Parent(p)) {
      assert q == Parent(p)[..|q|];
    }
    PrefixesStep(p);
  }

  predicate CanMake(t: Tree, p: Path) {
    HasEntryNames(p) && MakeDirs(t, p).Some?
  }

  lemma CanMakeParent(t: Tree, p: Path)
    requires p != [] && p !in t
    ensures CanMake(t, p) ==> CanMake(t, Parent(p)) && IsEntryName(Last(p))
  {
    assert forall i :: 0 <= i < |Parent(p)| ==> Parent(p)[i] == p[i];
  }

  /** One component further on the way down to `p`. */
  lemma MakeOneMore(t: Tree, u: Tree, p: Path, depth: nat)
    requires WellFormed(t) && depth < |p| && HasEntryNames(p[..depth]) && MakeDirs(t, p[..depth]) == Some(u)
    ensures var path := p[..depth + 1];
            && WellFormed(u) && Parent(path) == p[..depth] && IsDirAt(u, p[..depth])
            && (IsEntryName(Last(path)) ==> HasEntryNames(path))
            && (path in u && !u[path].Dir? ==> MakeDirs(t, p).None?)
            && (path in u && u[path].Dir? ==> HasEntryNames(path) && MakeDirs(t, path) == Some(u))
            && (path in u ==> Prefixes(path) - t.Keys == Prefixes(p[..depth]) - t.Keys)
            && (path !in u ==> MakeDirs(t, path) == Some(u[path := Dir]) && path !in t)
            && (path !in u ==> Prefixes(path) - t.Keys == Prefixes(p[..depth]) - t.Keys + {path})
  {
    var above, path := p[..depth], p[..depth + 1];
    assert Parent(path) == above;
    assert forall i :: 0 <= i < depth ==> path[i] == above[i];
    MakeDirsAdds(t, above);
    PrefixesStep(path);
    if path in u {
      forall k | 0 < k <= |above| ensures above[..k] != path {
      }
      assert path in t && path in Prefixes(p);
      PrefixesAreThere(t, path);
      NamesOfPath(t, path);
      MakeDirsFails(t, p);
      if above != [] {
        assert above in Prefixes(path);
      }
    }
  }

  /** The state of one call of `extract_zip` once the plan has been made. */
  class Extraction {
    ghost const start: Tree
    const faults: nat -> bool
    var tree: Tree
    var createdFiles: seq<Path>
    var createdDirectories: seq<Path>
    var calls: nat
    ghost var unrecorded: set<Path>

    constructor (tree: Tree, faults: nat -> bool)
      requires WellFormed(tree)
      ensures start == tree && this.tree == tree && this.faults == faults && calls == 0
      ensures createdFiles == [] && createdDirectories == [] && unrecorded == {}
      ensures Valid()
    {
      start, this.tree, this.faults := tree, tree, faults;
      createdFiles, createdDirectories, calls, unrecorded := [], [], 0, {};
    }

    ghost predicate Valid()
      reads this
    {
      Recorded(start, tree, createdFiles, createdDirectories, unrecorded)
    }

    /** One call into the file system; `faults` says which calls raise. */
    method Attempt() returns (ok: bool)
      modifies this`calls
      ensures calls == old(calls) + 1 && ok == !faults(old(calls))
    {
      ok := !faults(calls);
      calls := calls + 1;
    }

    /** `target.mkdir(parents=True)` down to the parent of the target: what is made is recorded nowhere. */
    method MakeAncestors(parent: Path) returns (ok: bool, depth: nat)
      requires Valid()
      modifies this`tree, this`calls, this`unrecorded
      ensures Valid() && calls >= old(calls)
      ensures depth <= |parent| && (ok ==> depth == |parent|)
      ensures HasEntryNames(parent[..depth]) && MakeDirs(old(tree), parent[..depth]) == Some(tree)
      ensures unrecorded == old(unrecorded) + (Prefixes(parent[..depth]) - old(tree).Keys)
      ensures CanMake(old(tree), parent) && (forall i: nat :: !faults(i)) ==> ok
    {
      depth := 0;
      assert parent[..0] == [] && Prefixes([]) == {};
      while depth < |parent|
        invariant depth <= |parent| && Valid() && calls >= old(calls)
        invariant HasEntryNames(parent[..depth]) && MakeDirs(old(tree), parent[..depth]) == Some(tree)
        invariant unrecorded == old(unrecorded) + (Prefixes(parent[..depth]) - old(tree).Keys)
      {
        var path := parent[..depth + 1];
        MakeOneMore(old(tree), tree, parent, depth);
        if path in tree {
          if !tree[path].Dir? {
            return false, depth;
          }
        } else {
          var fine := Attempt();
          if !IsEntryName(Last(path)) || !fine {
            return false, depth;
          }
          AddDirAt(tree, path);
          RecordFile(start, tree, createdFiles, createdDirectories, unrecorded, tree[path := Dir], path, false);
          tree := tree[path := Dir];
          unrecorded := unrecorded + {path};
        }
        depth := depth + 1;
      }
      ok := true;
    }

    /** A directory that is not there yet: its ancestors, then itself, which alone is recorded. */
    method MakeDirectory(q: Planned) returns (ok: bool, made: bool, depth: nat)
      requires Valid() && q.target != [] && q.directory && q.target !in tree
      modifies this
      ensures Valid() && calls >= old(calls)
      ensures createdFiles == old(createdFiles) && (ok ==> made)
      ensures IsPathMade(old(tree), q.target, made, depth, tree)
      ensures unrecorded == old(unrecorded) + ImplicitTo(old(tree), q, made, depth)
      ensures CanMake(old(tree), q.target) && (forall i: nat :: !faults(i)) ==> ok
    {
      var parent := Parent(q.target);
      ghost var before := tree;
      CanMakeParent(before, q.target);
      ok, depth := MakeAncestors(parent);
      assert parent[..depth] == q.target[..depth];
      if !ok {
        return false, false, depth;
      }
      assert parent[..depth] == parent;
      MakeDirsAdds(before, parent);
      PrefixesStep(q.target);
      var owned;
      made, owned := MakeOne(q.target);
      if made {
        assert forall i :: 0 <= i < |parent| ==> q.target[i] == parent[i];
        assert q.target[..|q.target|] == q.target;
        depth := |q.target|;
      }
      ok := made && owned;
    }

    /**
      * A directory entry. `made` says whether the directory was there before anything failed, `depth` how far
      * its path was.
      */
    method AddDirectory(q: Planned) returns (ok: bool, made: bool, depth: nat)
      requires Valid() && q.target != [] && q.directory && q.target !in start
      modifies this
      ensures Valid() && calls >= old(calls)
      ensures createdFiles == old(createdFiles) && (ok ==> made)
      ensures IsPathMade(old(tree), q.target, made, depth, tree)
      ensures unrecorded == old(unrecorded) + ImplicitTo(old(tree), q, made, depth)
      ensures CanMake(old(tree), q.target) && (forall i: nat :: !faults(i)) ==> ok
    {
      var existed := q.target in tree;
      if existed {
        var fine := Attempt();
        if !tree[q.target].Dir? || !fine {
          assert q.target[..0] == [] && Prefixes([]) == {};
          return false, false, 0;
        }
        NamesOfPath(tree, q.target);
        assert q.target[..|q.target|] == q.target;
        return true, true, |q.target|;
      }
      ok, made, depth := MakeDirectory(q);
    }

    /** `parent.mkdir()`, the note of it, and the change of owner. */
    method MakeOne(path: Path) returns (made: bool, owned: bool)
      requires Valid() && path != [] && path !in tree
      modifies this
      ensures Valid() && calls >= old(calls)
      ensures createdFiles == old(createdFiles) && unrecorded == old(unrecorded)
      ensures tree == if made then old(tree)[path := Dir] else old(tree)
      ensures made ==> IsDirAt(old(tree), Parent(path)) && IsEntryName(Last(path))
      ensures (forall i: nat :: !faults(i)) ==>
                owned == made == (IsDirAt(old(tree), Parent(path)) && IsEntryName(Last(path)))
    {
      var fine := Attempt();
      if !IsDirAt(tree, Parent(path)) || !IsEntryName(Last(path)) || !fine {
        return false, false;
      }
      AddDirAt(tree, path);
      RecordDirectory(start, tree, createdFiles, createdDirectories, unrecorded, tree[path := Dir], path, {});
      assert unrecorded + {} == unrecorded;
      tree := tree[path := Dir];
      createdDirectories := createdDirectories + [path];
      made := true;
      owned := Attempt();  // chown
    }

    /** The missing parents of a file entry, made one by one and each recorded at once. */
    method AddParents(parent: Path) returns (ok: bool)
      requires Valid()
      modifies this
      ensures Valid() && calls >= old(calls)
      ensures createdFiles == old(createdFiles) && unrecorded == old(unrecorded)
      ensures MakeDirs(tree, parent) == MakeDirs(old(tree), parent)
      ensures forall p :: p in tree && p !in old(tree) ==> p <= parent
      ensures ok ==> parent == [] || parent in tree
      ensures (MakeDirs(old(tree), parent).Some? && HasEntryNames(parent) && forall i: nat :: !faults(i)) ==> ok
    {
      var missing := Missing(tree, parent);
      var j := 0;
      while j < |missing|
        invariant Valid() && calls >= old(calls)
        invariant createdFiles == old(createdFiles) && unrecorded == old(unrecorded)
        invariant MakeDirs(tree, parent) == MakeDirs(old(tree), parent)
        invariant forall p :: p in tree && p !in old(tree) ==> p <= parent
        invariant 0 <= j <= |missing| && missing[j..] == Missing(tree, parent)
      {
        var path := missing[j];
        ghost var k := MissingHead(tree, parent);
        assert path == parent[..k] && Parent(path) == parent[..k - 1];
        ghost var before := tree;
        var made, owned := MakeOne(path);
        if !made {
          if !IsDirAt(before, Parent(path)) {
            BlockedAncestor(before, parent, k);
          } else {
            assert parent[k - 1] == Last(path);
          }
          return false;
        }
        MakeDirsFromOneDown(before, parent, k);
        assert missing[j..][1..] == missing[j + 1..];
        j := j + 1;
        if !owned {
          return false;
        }
      }
      ok := true;
    }

    /** A file entry. `made` says whether the file itself was made before anything failed. */
    method AddFile(q: Planned) returns (ok: bool, made: bool)
      requires Valid() && q.target != [] && !q.directory && q.target !in start
      modifies this
      ensures Valid() && calls >= old(calls) && (ok ==> made)
      ensures createdFiles == old(createdFiles) + (if ok then [q.target] else [])
      ensures unrecorded == old(unrecorded) + (if made && !ok then {q.target} else {})
      ensures ok ==> UnpackEntry(old(tree), q) == Some(tree)
      ensures (UnpackEntry(old(tree), q).Some? && forall i: nat :: !faults(i)) ==> ok
    {
      ghost var before := tree;
      var parent := Parent(q.target);
      assert HasEntryNames(q.target) ==> HasEntryNames(parent);
      var prepared := AddParents(parent);
      if !prepared {
        return false, false;
      }
      assert q.target in tree ==> q.target in before;
      var created := Attempt();
      if !created || q.target in tree || !IsDirAt(tree, parent) || !IsEntryName(Last(q.target)) {
        return false, false;
      }
      NamesWithLast(tree, q.target);
      AddFileAt(tree, q.target, File([], NEW_FILE_MODE));
      AddFileAt(tree, q.target, File(q.content, NEW_FILE_MODE));
      var copied := Attempt();
      if !copied {
        RecordFile(start, tree, createdFiles, createdDirectories, unrecorded,
          tree[q.target := File([], NEW_FILE_MODE)], q.target, false);
        tree := tree[q.target := File([], NEW_FILE_MODE)];
        unrecorded := unrecorded + {q.target};
        return false, true;
      }
      RecordFile(start, tree, createdFiles, createdDirectories, unrecorded,
        tree[q.target := File(q.content, NEW_FILE_MODE)], q.target, false);
      RecordFile(start, tree, createdFiles, createdDirectories, unrecorded,
        tree[q.target := File(q.content, NEW_FILE_MODE)], q.target, true);
      tree := tree[q.target := File(q.content, NEW_FILE_MODE)];
      var owned := Attempt();  // chown
      if !owned {
        unrecorded := unrecorded + {q.target};
        return false, true;
      }
      createdFiles := createdFiles + [q.target];
      return true, true;
    }

    /** The writing half of `extract_zip`, with its `finally` clause. */
    method Run(plan: seq<Planned>) returns (outcome: Outcome)
      requires Valid() && tree == start && createdFiles == [] && createdDirectories == [] && unrecorded == {}
      requires IsPlan(start, plan)
      modifies this
      ensures IsResult(start, plan, outcome, tree)
      ensures (UnpackPlan(start, plan).Some? && forall i: nat :: !faults(i)) ==> outcome.Extracted?
    {
      forall i | 0 <= i < |plan| ensures plan[i].target !in start {
        assert IsNewTarget(start, plan[i].target);
      }
      var at, made, depth := Process(plan);
      if at == |plan| {
        assert plan[..at] == plan;
        return Extracted(|createdFiles|);
      }
      FileCountMonotone(plan, at);
      if |createdFiles| < FileCount(plan) {
        Rollback();
      }
      outcome := Failed(at, made, depth);
    }

    /** One round of the loop over the plan. */
    method AddEntry(q: Planned) returns (ok: bool, made: bool, depth: nat)
      requires Valid() && q.target != [] && q.target !in start
      modifies this
      ensures Valid() && depth <= |q.target|
      ensures ok ==> UnpackEntry(old(tree), q) == Some(tree)
      ensures !ok && q.directory ==> IsPathMade(old(tree), q.target, made, depth, tree)
      ensures unrecorded == old(unrecorded) +
                (if ok then Implicit(old(tree), q)
                 else if q.directory then ImplicitTo(old(tree), q, made, depth)
                 else if made then {q.target}
                 else {})
      ensures |createdFiles| == old(|createdFiles|) + (if ok && !q.directory then 1 else 0)
      ensures (UnpackEntry(old(tree), q).Some? && forall i: nat :: !faults(i)) ==> ok
    {
      if q.directory {
        ok, made, depth := AddDirectory(q);
        assert q.target[..|q.target|] == q.target;
      } else {
        ok, made := AddFile(q);
        depth := 0;
      }
    }

    /** The first `at` entries have been unpacked, and the lists say so. */
    ghost predicate Unpacked(plan: seq<Planned>, at: nat)
      requires HasTargets(plan) && at <= |plan|
      reads this
    {
      && UnpackPlan(start, plan[..at]) == Some(tree)
      && unrecorded == ImplicitOf(start, plan[..at])
      && |createdFiles| == FileCount(plan[..at])
    }

    /** Entry `at` has failed, and what has been made for it is known. */
    ghost predicate StoppedAt(plan: seq<Planned>, at: nat, made: bool, depth: nat)
      requires HasTargets(plan) && at < |plan|
      reads this
    {
      && depth <= |plan[at].target|
      && UnpackPlan(start, plan[..at]).Some?
      && unrecorded == Leftover(start, plan, at, made, depth)
      && |createdFiles| == FileCount(plan[..at])
      && (plan[at].directory ==>
            IsPathMade(UnpackPlan(start, plan[..at]).value, plan[at].target, made, depth, tree))
    }

    /** One round of the loop, in terms of the plan. */
    method AddEntryAt(plan: seq<Planned>, at: nat) returns (ok: bool, made: bool, depth: nat)
      requires HasTargets(plan) && at < |plan| && plan[at].target !in start
      requires Valid() && Unpacked(plan, at)
      modifies this
      ensures Valid()
      ensures if ok then Unpacked(plan, at + 1) else StoppedAt(plan, at, made, depth)
      ensures (UnpackPlan(start, plan).Some? && forall i: nat :: !faults(i)) ==> ok
    {
      PlanStep(start, plan, at);
      if UnpackPlan(start, plan).Some? {
        UnpackPrefix(start, plan, at + 1);
      }
      ok, made, depth := AddEntry(plan[at]);
    }

    /** The loop over the plan: `at` is the entry that failed, or the length of the plan. */
    method Process(plan: seq<Planned>) returns (at: nat, made: bool, depth: nat)
      requires Valid() && tree == start && createdFiles == [] && createdDirectories == [] && unrecorded == {}
      requires HasTargets(plan) && forall i :: 0 <= i < |plan| ==> plan[i].target !in start
      modifies this
      ensures Valid() && at <= |plan|
      ensures if at == |plan| then Unpacked(plan, at) else StoppedAt(plan, at, made, depth)
      ensures (UnpackPlan(start, plan).Some? && forall i: nat :: !faults(i)) ==> at == |plan|
    {
      at, made, depth := 0, false, 0;
      while at < |plan|
        invariant 0 <= at <= |plan| && Valid() && Unpacked(plan, at)
      {
        var ok;
        ok, made, depth := AddEntryAt(plan, at);
        if !ok {
          return;
        }
        at := at + 1;
      }
    }

    /** The `finally` clause of an incomplete extraction. */
    method Rollback()
      requires Valid()
      modifies this`tree
      ensures WellFormed(tree) && IsSubtree(start, tree) && IsSubtree(tree, old(tree))
      ensures forall p :: p in tree <==> p in start || (p != [] && LiesUnder(p, unrecorded))
    {
      ghost var whole := tree;
      var i := |createdFiles|;
      while i > 0
        invariant 0 <= i <= |createdFiles|
        invariant WellFormed(tree) && IsSubtree(start, tree) && IsSubtree(tree, whole)
        invariant tree.Keys == whole.Keys - Members(createdFiles[i..])
      {
        i := i - 1;
        var path := createdFiles[i];
        assert path in createdFiles && path in Members(createdFiles);
        assert createdFiles[i..] == [path] + createdFiles[i + 1..];
        if path in tree {
          RemoveFile(tree, path);
          tree := tree - {path};
        }
      }
      i := |createdDirectories|;
      assert createdDirectories[..i] == createdDirectories;
      while i > 0
        invariant IsSubtree(tree, whole)
        invariant RollingBack(start, tree, createdDirectories, i, unrecorded)
      {
        i := i - 1;
        var path := createdDirectories[i];
        RollbackStep(start, tree, createdDirectories, i, unrecorded);
        if !HasChild(tree, path) {
          tree := tree - {path};
        }
      }
      RolledBack(start, whole, createdFiles, createdDirectories, unrecorded, tree);
    }
  }

  lemma PlanStep(start: Tree, plan: seq<Planned>, i: nat)
    requires i < |plan| && HasTargets(plan) && UnpackPlan(start, plan[..i]).Some?
    ensures var t := UnpackPlan(start, plan[..i]).value;
            && UnpackPlan(start, plan[..i + 1]) == UnpackEntry(t, plan[i])
            && ImplicitOf(start, plan[..i + 1]) == ImplicitOf(start, plan[..i]) + Implicit(t, plan[i])
            && FileCount(plan[..i + 1]) == FileCount(plan[..i]) + (if plan[i].directory then 0 else 1)
  {
    assert plan[..i + 1][..i] == plan[..i];
  }

  lemma {:induction false} FileCountMonotone(plan: seq<Planned>, i: nat)
    requires i < |plan|
    ensures FileCount(plan[..i]) + (if plan[i].directory then 0 else 1) <= FileCount(plan)
    decreases |plan|
  {
    if i == |plan| - 1 {
    } else {
      FileCountMonotone(plan[..|plan| - 1], i);
      assert plan[..|plan| - 1][..i] == plan[..i];
    }
  }

  lemma {:induction false} UnpackPrefix(start: Tree, plan: seq<Planned>, i: nat)
    requires i <= |plan| && HasTargets(plan) && UnpackPlan(start, plan).Some?
    ensures UnpackPlan(start, plan[..i]).Some?
    decreases |plan|
  {
    if i == |plan| {
      assert plan[..i] == plan;
    } else {
      UnpackPrefix(start, plan[..|plan| - 1], i);
      assert plan[..|plan| - 1][..i] == plan[..i];
    }
  }

  lemma RolledBack(
    start: Tree, whole: Tree, files: seq<Path>, directories: seq<Path>, unrecorded: set<Path>, t: Tree)
    requires Recorded(start, whole, files, directories, unrecorded)
    requires RollingBack(start, t, directories, 0, unrecorded) && IsSubtree(t, whole)
    ensures forall p :: p in t <==> p in start || (p != [] && LiesUnder(p, unrecorded))
  {
    assert directories[0..] == directories;
    forall p ensures p in t <==> p in start || (p != [] && LiesUnder(p, unrecorded)) {
      if p in t {
        assert HasPlace(t, p);
        assert p in unrecorded ==> p <= p;
      }
      if p != [] && LiesUnder(p, unrecorded) {
        var u :| u in unrecorded && p <= u;
        PrefixInTree(whole, u, p);
        if p in Members(files) {
          assert p in files;
          assert p == u;
        }
      }
    }
  }

  predicate IsZipName(name: Name) {
    && |name| > 4
    && name[|name| - 4] == '.' && name[|name| - 3] in {'z', 'Z'}
    && name[|name| - 2] in {'i', 'I'} && name[|name| - 1] in {'p', 'P'}
  }

  /** The checks before anything is written, and the plan they end in. */
  function Plan(t: Tree, archive: string, destination: string, entries: seq<ZipEntry>, maxBytes: nat)
    : Result<seq<Planned>, FileError>
  {
    match Resolve(t, archive, false)
    case Err(error) => Err(error)
    case Ok(path) =>
      match Resolve(t, destination, true)
      case Err(error) => Err(error)
      case Ok(parent) =>
        if path == [] || path !in t || !t[path].File? || !IsZipName(Last(path)) then Err(NotAnArchive)
        else if |entries| > MAX_ENTRIES then Err(TooManyEntries)
        else if TotalSize(entries) > maxBytes then Err(TooLarge)
        else PlanFrom(t, parent, entries, [])
  }

  function BytesOf(entries: seq<ZipEntry>): nat {
    if entries == [] then 0 else BytesOf(entries[..|entries| - 1]) + |entries[|entries| - 1].content|
  }

  lemma {:induction false} BytesAdd(e: ZipEntry, entries: seq<ZipEntry>)
    ensures BytesOf([e] + entries) == |e.content| + BytesOf(entries)
    decreases |entries|
  {
    var whole := [e] + entries;
    if entries == [] {
      assert whole[..0] == [];
    } else {
      assert whole[..|whole| - 1] == [e] + entries[..|entries| - 1];
      BytesAdd(e, entries[..|entries| - 1]);
    }
  }

  lemma {:induction false} SizeIsBytes(entries: seq<ZipEntry>)
    ensures TotalSize(entries) == BytesOf(entries)
  {
    if entries != [] {
      SizeIsBytes(entries[1..]);
      BytesAdd(entries[0], entries[1..]);
      assert entries == [entries[0]] + entries[1..];
    }
  }

  predicate IsArchive(t: Tree, value: string) {
    && RelativePath(value).Ok?
    && var p := RelativePath(value).value;
    && p != [] && IsOpenWay(t, p) && p in t && t[p].File? && IsZipName(Last(p))
  }

  /**
    * An archive is accepted exactly if it is a ZIP file of the panel's with at most ten thousand entries, within
    * the byte limit, each of which is the destination itself or acceptable, no two going to the same place; and
    * the plan is those entries, in order, each as what it is.
    */
  lemma PlanExactly(t: Tree, archive: string, destination: string, entries: seq<ZipEntry>, maxBytes: nat)
    requires WellFormed(t)
    ensures Plan(t, archive, destination, entries, maxBytes).Ok? <==>
              && IsArchive(t, archive)
              && RelativePath(destination).Ok?
              && var place := RelativePath(destination).value;
              && IsOpenWay(t, place)
              && |entries| <= 10_000 && BytesOf(entries) <= maxBytes
              && (forall e :: e in entries ==> IsNothing(e) || IsAcceptable(t, place, e)) && AllApart(entries)
    ensures Plan(t, archive, destination, entries, maxBytes).Ok? ==>
              IsPlanOf(Plan(t, archive, destination, entries, maxBytes).value, entries, RelativePath(destination).value)
  {
    SizeIsBytes(entries);
    if RelativePath(archive).Ok? {
      ResolvesExactly(t, archive, false, RelativePath(archive).value);
    }
    if RelativePath(destination).Ok? {
      RelativePathParts(destination);
      var place := RelativePath(destination).value;
      ResolvesExactly(t, destination, true, place);
      PlanFromExactly(t, place, entries, []);
      if PlanFrom(t, place, entries, []).Ok? {
        assert PlanFrom(t, place, entries, []).value[0..] == PlanFrom(t, place, entries, []).value;
      }
    }
  }

  /** An entry can be unpacked exactly if its path can be made: nothing on the way is anything but a directory. */
  lemma UnpacksExactly(t: Tree, q: Planned)
    requires WellFormed(t) && q.target != []
    ensures UnpackEntry(t, q).Some? <==>
              && (forall i :: 0 <= i < |q.target| ==> IsEntryName(q.target[i]))
              && (forall k :: 0 < k < |q.target| && q.target[..k] in t ==> t[q.target[..k]].Dir?)
              && (q.target in t ==> q.directory && t[q.target].Dir?)
  {
    var p := q.target;
    MakeDirsFails(t, p);
    MakeDirsFails(t, Parent(p));
    PrefixesStep(p);
    assert p[..|p|] == p;
    forall k | 0 < k < |p| ensures p[..k] in Prefixes(Parent(p)) {
      assert p[..k] == Parent(p)[..k];
    }
    forall x | x in Prefixes(Parent(p)) ensures x == p[..|x|] && 0 < |x| < |p| {
    }
    if HasEntryNames(p) && MakeDirs(t, Parent(p)).Some? {
      assert forall i :: 0 <= i < |Parent(p)| ==> Parent(p)[i] == p[i];
      MakeDirsAdds(t, Parent(p));
    }
  }

  /** `extract_zip`: `entries` is what the archive file holds, `after` the tree when the call has ended. */
  method ExtractZip(
    t: Tree, archive: string, destination: string, entries: seq<ZipEntry>, maxBytes: nat, faults: nat -> bool)
    returns (r: Result<nat, FileError>, after: Tree, ghost outcome: Outcome)
    requires WellFormed(t)
    ensures IsSubtree(t, after)
    ensures Plan(t, archive, destination, entries, maxBytes).Err? ==> r.Err? && after == t
    ensures Plan(t, archive, destination, entries, maxBytes).Ok? ==>
              var plan := Plan(t, archive, destination, entries, maxBytes).value;
              && IsPlan(t, plan) && IsResult(t, plan, outcome, after)
              && (r.Ok? <==> outcome.Extracted?) && (r.Ok? ==> r.value == |FileEntries(plan)|)
              && ((UnpackPlan(t, plan).Some? && forall i: nat :: !faults(i)) ==> r.Ok?)
  {
    outcome := Failed(0, false, 0);
    after := t;
    var source := Resolve(t, archive, false);
    if source.Err? {
      return Err(source.error), t, outcome;
    }
    var parent := Resolve(t, destination, true);
    if parent.Err? {
      return Err(parent.error), t, outcome;
    }
    var path := source.value;
    if path == [] || path !in t || !t[path].File? || !IsZipName(Last(path)) {
      return Err(NotAnArchive), t, outcome;
    }
    if |entries| > MAX_ENTRIES {
      return Err(TooManyEntries), t, outcome;
    }
    if TotalSize(entries) > maxBytes {
      return Err(TooLarge), t, outcome;
    }
    var planned := PlanAll(t, parent.value, entries);
    if planned.Err? {
      return Err(planned.error), t, outcome;
    }
    var extraction := new Extraction(t, faults);
    var result := extraction.Run(planned.value);
    outcome, after := result, extraction.tree;
    FilesAreCounted(planned.value);
    r := match result
         case Extracted(count) => Ok(count)
         case Failed(_, _, _) => Err(CallFailed);
  }

  /** The planning loop. */
  method PlanAll(t: Tree, destination: Path, entries: seq<ZipEntry>) returns (r: Result<seq<Planned>, FileError>)
    ensures r == PlanFrom(t, destination, entries, [])
    ensures r.Ok? ==> IsPlan(t, r.value)
  {
    var planned := [];
    var i := 0;
    while i < |entries|
      invariant 0 <= i <= |entries|
      invariant PlanFrom(t, destination, entries[i..], planned) == PlanFrom(t, destination, entries, [])
    {
      assert entries[i..][0] == entries[i] && entries[i..][1..] == entries[i + 1..];
      var q := PlanEntry(t, destination, entries[i]);
      if q.Err? {
        return Err(q.error);
      }
      if q.value.Some? {
        if IsTarget(planned, q.value.value.target) {
          return Err(DuplicatePaths);
        }
        planned := planned + [q.value.value];
      }
      i := i + 1;
    }
    assert entries[i..] == [];
    PlanFromIsPlan(t, destination, entries, []);
    r := Ok(planned);
  }
}
