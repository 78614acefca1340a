/** Inputs on which the code does less than one would expect; the exact conditions are proved beside the code. */
module Surprises {
  import opened Common
  import opened Paths
  import opened Trees
  import opened Text
  import P = Properties
  import R = Rewrites
  import B = Backups
  import C = Containers
  import FileRules
  import Zips
  import Downloads
  import Moves

  // ------------------------------------------------------------------
  // extract_zip
  // ------------------------------------------------------------------

  /** The directory `t` holds a ZIP archive, and has room for `parent/child` and for `file`. */
  ghost predicate HasRoom(t: Tree, archive: string, parent: Name, child: Name, file: Name) {
    && WellFormed(t)
    && FileRules.Resolve(t, archive, false).Ok?
    && IsArchiveAt(t, FileRules.Resolve(t, archive, false).value)
    && IsAcceptedName(parent) && IsAcceptedName(child) && IsAcceptedName(file) && parent != file
    && parent != TRASH && file != TRASH && [parent] !in t && [file] !in t
  }

  predicate IsArchiveAt(t: Tree, p: Path) {
    p != [] && p in t && t[p].File? && Zips.IsZipName(Last(p))
  }

  /** There is such a directory: one with nothing in it but the archive. */
  lemma AloneHasRoom(name: Name, content: Content, parent: Name, child: Name, file: Name)
    requires IsAcceptedName(name) && Zips.IsZipName(name) && name != TRASH
    requires IsAcceptedName(parent) && IsAcceptedName(child) && IsAcceptedName(file)
    requires parent !in {name, file, TRASH} && file !in {name, TRASH}
    ensures HasRoom(map[[name] := File(content, 0)], name, parent, child, file)
  {
    var p: Path := [name];
    var t: Tree := map[p := File(content, 0)];
    assert Parent(p) == [] && HasPlace(t, p);
    assert forall i :: 0 <= i < |p| ==> IsAcceptedName(p[i]);
    Downloads.AcceptedTargetReadsBack([], p);
    assert [] + p == p && Join(p) == name;
    assert [parent][0] != name && [file][0] != name;
  }

  function EntryOf(p: Path, directory: bool): Zips.ZipEntry {
    Zips.ZipEntry(if directory then Join(p) + "/" else Join(p), false, [])
  }

  /** An entry for a new path with accepted names is planned as it is. */
  lemma PlainEntry(t: Tree, p: Path, directory: bool)
    requires WellFormed(t) && p != [] && AllAccepted(p) && [p[0]] !in t && p[0] != TRASH
    ensures Zips.PlanEntry(t, [], EntryOf(p, directory)) == Ok(Some(Zips.Planned(p, directory, [])))
  {
    ReadsBack(p, directory);
    NotThere(t, p);
    assert FileRules.ResolveParts(t, p, false) == Ok(p);
    assert [] + p == p;
    assert forall i :: 0 <= i < |p| ==> IsAcceptedName(p[i]);
  }

  lemma ReadsBack(p: Path, directory: bool)
    requires p != [] && AllAccepted(p)
    ensures RelativePath(StripSlashes(EntryOf(p, directory).filename)) == Ok(p) && RelativePath(Join(p)) == Ok(p)
    ensures Zips.IsDirectoryEntry(EntryOf(p, directory)) <==> directory
  {
    Downloads.AcceptedTargetReadsBack([], p);
    assert [] + p == p;
  }

  lemma HasNames(p: Path)
    requires AllAccepted(p)
    ensures Zips.HasEntryNames(p)
  {
    forall i | 0 <= i < |p| ensures IsEntryName(p[i]) {
      assert IsAcceptedName(p[i]);
    }
  }

  lemma MakesOne(t: Tree, n: Name)
    requires [n] !in t
    ensures MakeDirs(t, [n]) == Some(t[[n] := Dir])
  {
    var p: Path := [n];
    assert Parent(p) == [];
    assert MakeDirs(t, []) == Some(t);
  }

  lemma MakesTwo(t: Tree, n: Name, m: Name)
    requires [n] !in t && [n, m] !in t
    ensures MakeDirs(t, [n, m]) == Some(t[[n] := Dir][[n, m] := Dir])
  {
    var p: Path := [n, m];
    assert Parent(p) == [n];
    MakesOne(t, n);
  }

  lemma NotThere(t: Tree, p: Path)
    requires WellFormed(t) && p != [] && [p[0]] !in t
    ensures p !in t && !FileRules.CrossesLink(t, p)
  {
    forall k | 0 < k <= |p| ensures p[..k] !in t {
      if p[..k] in t {
        assert [p[0]] <= p[..k];
        Zips.PrefixInTree(t, p[..k], [p[0]]);
      }
    }
    assert p[..|p|] == p;
  }

  lemma RootResolves(t: Tree)
    ensures FileRules.Resolve(t, "", true) == Ok([])
  {
    assert Parts("") == [];
  }

  /** Two entries are planned one after the other. */
  lemma TwoEntries(t: Tree, archive: string, e: Zips.ZipEntry, f: Zips.ZipEntry, p: Zips.Planned, q: Zips.Planned)
    requires FileRules.Resolve(t, archive, false).Ok? && IsArchiveAt(t, FileRules.Resolve(t, archive, false).value)
    requires Zips.PlanEntry(t, [], e) == Ok(Some(p)) && Zips.PlanEntry(t, [], f) == Ok(Some(q))
    requires p.target != q.target && e.content == [] && f.content == []
    ensures Zips.Plan(t, archive, "", [e, f], 0) == Ok([p, q])
  {
    RootResolves(t);
    var entries := [e, f];
    assert entries[1..] == [f] && [f][1..] == [];
    assert [] + [p] == [p] && [p] + [q] == [p, q];
    assert !Zips.IsTarget([], p.target) && !Zips.IsTarget([p], q.target);
    assert Zips.PlanFrom(t, [], [f], [p]) == Zips.PlanFrom(t, [], [], [p, q]);
    assert Zips.PlanFrom(t, [], entries, []) == Zips.PlanFrom(t, [], [f], [p]);
    assert Zips.TotalSize([f]) == 0 && Zips.TotalSize(entries) == 0;
  }

  lemma PlansTwo(t: Tree, archive: string, p: Zips.Planned, q: Zips.Planned)
    requires WellFormed(t)
    requires FileRules.Resolve(t, archive, false).Ok? && IsArchiveAt(t, FileRules.Resolve(t, archive, false).value)
    requires p.target != [] && AllAccepted(p.target) && [p.target[0]] !in t && p.target[0] != TRASH
    requires q.target != [] && AllAccepted(q.target) && [q.target[0]] !in t && q.target[0] != TRASH
    requires p.target != q.target && p.content == [] && q.content == []
    ensures Zips.Plan(t, archive, "", [EntryOf(p.target, p.directory), EntryOf(q.target, q.directory)], 0) == Ok([p, q])
  {
    PlainEntry(t, p.target, p.directory);
    PlainEntry(t, q.target, q.directory);
    TwoEntries(t, archive, EntryOf(p.target, p.directory), EntryOf(q.target, q.directory), p, q);
  }

  lemma AddsOne(t: Tree, n: Name, node: Node)
    requires WellFormed(t) && IsEntryName(n) && [n] !in t
    ensures WellFormed(t[[n] := node]) && IsSubtree(t, t[[n] := node]) && t[[n] := node] != t
  {
    var p: Path := [n];
    var u := t[p := node];
    assert Parent(p) == [];
    forall q | q in u ensures HasPlace(u, q) {
      if q != p {
        assert HasPlace(t, q);
      }
    }
  }

  lemma OnePrefix(n: Name)
    ensures Prefixes([n]) == {[n]}
  {
    var p: Path := [n];
    PrefixesStep(p);
    assert Prefixes(Parent(p)) == {};
  }

  /** What is left of a tree that gained the one node `[n]`, when that node is left over. */
  lemma LeftWithOne(t: Tree, n: Name, node: Node, left: set<Path>)
    requires left == {[n]}
    ensures forall q :: q in t[[n] := node] <==> q in t || (q != [] && Zips.LiesUnder(q, left))
  {
    var p: Path := [n];
    forall q ensures q != [] && Zips.LiesUnder(q, left) <==> q == p {
      if q == p {
        assert q <= p && p in left;
      }
    }
  }

  lemma FirstOfTwo(t: Tree, plan: seq<Zips.Planned>)
    requires Zips.HasTargets(plan) && |plan| == 2
    ensures Zips.UnpackPlan(t, plan[..0]) == Some(t) && Zips.ImplicitOf(t, plan[..0]) == {}
    ensures Zips.UnpackPlan(t, plan[..1]) == Zips.UnpackEntry(t, plan[0])
    ensures Zips.ImplicitOf(t, plan[..1]) == Zips.Implicit(t, plan[0])
    ensures Zips.FileCount(plan[..0]) == 0
    ensures Zips.FileCount(plan[..1]) == (if plan[0].directory then 0 else 1)
    ensures Zips.FileCount(plan) == Zips.FileCount(plan[..1]) + (if plan[1].directory then 0 else 1)
  {
    assert plan[..0] == [] && plan[..1][..0] == [] && plan[..1][0] == plan[0] && plan[..|plan| - 1] == plan[..1];
  }

  /**
    * With `parent/child/` before `file`, an extraction that cannot create `file` leaves `parent` behind, which it
    * forgot having made.
    */
  lemma ExtractionLeavesParent(t: Tree, archive: string, parent: Name, child: Name, file: Name)
    requires HasRoom(t, archive, parent, child, file)
    ensures var entries := [EntryOf([parent, child], true), EntryOf([file], false)];
            var plan := [Zips.Planned([parent, child], true, []), Zips.Planned([file], false, [])];
            && Zips.Plan(t, archive, "", entries, 0) == Ok(plan) && Zips.HasTargets(plan)
            && Zips.IsResult(t, plan, Zips.Failed(1, false, 0), t[[parent] := Dir])
            && t[[parent] := Dir] != t
  {
    var p, q := Zips.Planned([parent, child], true, []), Zips.Planned([file], false, []);
    var plan := [p, q];
    PlansTwo(t, archive, p, q);
    FirstOfTwo(t, plan);
    AddsOne(t, parent, Dir);
    OnePrefix(parent);
    assert Parent(p.target) == [parent] && Parent([parent]) == [];
    NotThere(t, p.target);
    HasNames(p.target);
    MakesTwo(t, parent, child);
    assert Zips.Leftover(t, plan, 1, false, 0) == {[parent]};
    LeftWithOne(t, parent, Dir, {[parent]});
  }

  /** A file that is not written to its end stays, for it is recorded only afterwards. */
  lemma ExtractionLeavesHalfFile(t: Tree, archive: string, parent: Name, child: Name, file: Name, half: Content)
    requires HasRoom(t, archive, parent, child, file)
    ensures var entries := [EntryOf([file], false), EntryOf([parent], false)];
            var plan := [Zips.Planned([file], false, []), Zips.Planned([parent], false, [])];
            && Zips.Plan(t, archive, "", entries, 0) == Ok(plan) && Zips.HasTargets(plan)
            && Zips.IsResult(t, plan, Zips.Failed(0, true, 0), t[[file] := File(half, Zips.NEW_FILE_MODE)])
            && t[[file] := File(half, Zips.NEW_FILE_MODE)] != t
  {
    var p, q := Zips.Planned([file], false, []), Zips.Planned([parent], false, []);
    var plan := [p, q];
    PlansTwo(t, archive, p, q);
    FirstOfTwo(t, plan);
    AddsOne(t, file, File(half, Zips.NEW_FILE_MODE));
    assert Zips.Leftover(t, plan, 0, true, 0) == {[file]};
    LeftWithOne(t, file, File(half, Zips.NEW_FILE_MODE), {[file]});
  }

  /** With no file left to extract, a failure undoes nothing at all. */
  lemma ExtractionUndoesNothing(t: Tree, archive: string, parent: Name, child: Name, file: Name)
    requires HasRoom(t, archive, parent, child, file)
    ensures var entries := [EntryOf([parent], true), EntryOf([file], true)];
            var plan := [Zips.Planned([parent], true, []), Zips.Planned([file], true, [])];
            && Zips.Plan(t, archive, "", entries, 0) == Ok(plan) && Zips.HasTargets(plan)
            && Zips.IsResult(t, plan, Zips.Failed(1, false, 0), t[[parent] := Dir])
            && t[[parent] := Dir] != t
  {
    var p, q := Zips.Planned([parent], true, []), Zips.Planned([file], true, []);
    var plan := [p, q];
    PlansTwo(t, archive, p, q);
    AddsOne(t, parent, Dir);
    DirectoryStays(t, p, q);
  }

  lemma DirectoryStays(t: Tree, p: Zips.Planned, q: Zips.Planned)
    requires WellFormed(t) && p.directory && q.directory && |p.target| == 1 && q.target != []
    requires AllAccepted(p.target) && p.target !in t
    ensures Zips.HasTargets([p, q]) && Zips.IsResult(t, [p, q], Zips.Failed(1, false, 0), t[p.target := Dir])
  {
    var plan := [p, q];
    FirstOfTwo(t, plan);
    HasNames(p.target);
    assert p.target == [p.target[0]];
    MakesOne(t, p.target[0]);
    AddsOne(t, p.target[0], Dir);
    assert q.target[..0] == [];
    assert Zips.IsPathMade(t[p.target := Dir], q.target, false, 0, t[p.target := Dir]);
  }

  // ------------------------------------------------------------------
  // Other calls
  // ------------------------------------------------------------------

  /** A directory that holds only a link to a file is missing from its own download. */
  lemma DownloadLosesDirectory()
    ensures var t: Tree := map[["s"] := Dir, ["s", "l"] := Link("f", false)];
            WellFormed(t) && !Downloads.IsCarried(t, ["s"], ["s"])
  {
    var t: Tree := map[["s"] := Dir, ["s", "l"] := Link("f", false)];
    var s: Path, l: Path := ["s"], ["s", "l"];
    assert Parent(l) == s && s + ["l"] == l;
    assert HasPlace(t, s) && HasPlace(t, l);
    assert !Downloads.IsHollow(t, s);
  }

  /** Copying a directory makes the parents its destination lacks. */
  lemma CopyMakesParents()
    ensures var t: Tree := map[["a"] := Dir];
            var u: Tree := map[["a"] := Dir, ["p"] := Dir, ["p", "a"] := Dir];
            Moves.IsCopied(t, u, ["a"], ["p", "a"]) && ["p"] !in t
  {
    var t: Tree := map[["a"] := Dir];
    var u: Tree := map[["a"] := Dir, ["p"] := Dir, ["p", "a"] := Dir];
    var source: Path, destination: Path, parent: Path := ["a"], ["p", "a"], ["p"];
    assert Parent(destination) == parent;
    PrefixesStep(parent);
    assert Prefixes(parent) == {parent};
    forall p | source <= p
      ensures Rebase(source, destination, p) in u <==> p in t
      ensures p in t ==> u[Rebase(source, destination, p)] == t[p]
    {
      var q := Rebase(source, destination, p);
      assert |q| == |p| + 1 && q[0] == "p";
      assert p in t ==> p == source;
      assert |p| == 1 ==> p == source && q == destination;
    }
  }

  /** A failed copy leaves the parent it made. */
  lemma FailedCopyLeavesParent()
    ensures var t: Tree := map[["a"] := Dir];
            Moves.AfterFailedCopy(t, ["a"], ["p", "a"], Moves.WhileCopying) == map[["a"] := Dir, ["p"] := Dir]
  {
    var t: Tree := map[["a"] := Dir];
    var destination: Path, parent: Path := ["p", "a"], ["p"];
    assert Parent(destination) == parent && Parent(parent) == [] && parent[..1] == parent;
    assert Zips.CanMake(t, parent);
    assert destination[..1] == parent;
  }

  /** A backup of more than the limit is taken without complaint, and cannot be restored. */
  lemma BackupBeyondLimit(content: Content, maxBytes: nat)
    requires |content| > maxBytes
    ensures var t: Tree := map[["w"] := File(content, 0)];
            var archive := [B.MemberFor(["w"], File(content, 0))];
            WellFormed(t) && B.IsBackupOf(archive, t) && B.TotalSize(archive) > maxBytes
  {
    var t: Tree := map[["w"] := File(content, 0)];
    var p: Path := ["w"];
    assert Parent(p) == [] && HasPlace(t, p);
    var m := B.MemberFor(p, File(content, 0));
    B.MemberForPath(t, p);
    assert B.IsBackedUp(t, p);
    assert forall q :: B.IsBackedUp(t, q) ==> q == p;
    var archive := [m];
    assert archive[1..] == [] && m in archive;
  }

  /** A stopped container made with Java 17 is started with it although the record has moved on to Java 21. */
  lemma JavaStaysBehind(split: C.Splitter, serverId: string, id: string, made: C.Record, d: C.Docker)
    requires made.java == Some(17) && split(made.customFlags).Some? && d.ready && d.starts
    ensures
      var r := made.(java := Some(21));
      var c := C.Container(id, C.Exited, C.LabelsOf(serverId, made), C.LaunchOf(split, made).value);
      var answer := C.Start(split, serverId, Some(c), r, d);
      && C.CreatedFor(split, serverId, c, made)
      && answer.result == Ok(id)
      && Some(answer.container.value.launch) != C.LaunchOf(split, r)
  {
    var r := made.(java := Some(21));
    var c := C.Container(id, C.Exited, C.LabelsOf(serverId, made), C.LaunchOf(split, made).value);
    C.LabelsTellTheProfile(serverId, made, r);
    C.JavaIsKeptWhenLabelsMatch(split, serverId, c, made, r, d);
  }

  // ------------------------------------------------------------------
  // server.properties
  // ------------------------------------------------------------------

  const WITH_TAB := "a\U{000B}b"

  lemma TabBreaks()
    ensures !IsOneLine(WITH_TAB)
  {
    assert IsBreak(WITH_TAB[1]);
  }

  /** A vertical tab, which the form lets through, ends the message early, in every file. */
  lemma TabCutsTheMessage(text: string, s: P.Settings)
    requires P.IsValid(s.(motd := WITH_TAB))
    ensures P.Read(P.Write(text, s.(motd := WITH_TAB))) != s.(motd := WITH_TAB)
  {
    TabBreaks();
    P.RoundTrip(text, s.(motd := WITH_TAB));
  }

  lemma PiecesOfTab(s: P.Settings)
    requires s.motd == WITH_TAB
    ensures R.MessageTail(s) == ["b"]
  {
    var front, rest := P.KeyName(P.Motd) + "=a", "\U{000B}b\n";
    assert P.FlattenLine(WITH_TAB) == WITH_TAB;
    assert P.Assignment(s, P.Motd) + "\n" == front + rest;
    P.KeyNameIsOneLine(P.Motd);
    R.CleanPrefix(front, rest, "");
    assert "" + front == front;
    assert rest[1..] == "b\n" && rest[1..][1..] == "\n" && "" + ["b"[0]] == "b";
    assert LinesFrom("\n", "b") == ["b"];
    assert LinesFrom("b\n", "") == ["b"];
    assert LinesFrom(rest, front) == [front] + ["b"];
  }

  /** And what stood after it stays in some file when the settings are written again. */
  lemma TabLeavesALine(s: P.Settings)
    requires P.IsValid(s) && s.motd == WITH_TAB
    ensures !R.LeavesNoTrace(s)
  {
    PiecesOfTab(s);
    assert R.MessageTail(s)[0] == "b" && P.Slot("b").None?;
    R.TraceLaw(s);
  }
}
