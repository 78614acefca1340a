/** `move_path` and `copy_path` of `file_service.py`. */
module Moves {
  import opened Common
  import opened Paths
  import opened Trees
  import opened FileRules
  import opened Zips

  predicate HasLinkBelow(t: Tree, d: Path) {
    exists p :: p in t && IsBelow(d, p) && t[p].Link?
  }

  function Everything(): Path -> bool {
    p => true
  }

  lemma {:induction false} ReachedEverywhere(t: Tree, top: Path, d: Path)
    requires WellFormed(t) && IsDirAt(t, top)
    ensures Reached(t, top, Everything(), d) <==> IsDirAt(t, d) && top <= d
    decreases |d|
  {
    if IsBelow(top, d) && IsDirAt(t, d) {
      assert HasPlace(t, d);
      ReachedEverywhere(t, top, Parent(d));
    } else if top <= d {
      assert |d| == |top| ==> d == top;
    }
  }

  predicate HoldsLink(t: Tree, d: Path) {
    exists p :: p in t && p != [] && Parent(p) == d && t[p].Link?
  }

  predicate AnyLink(t: Tree, current: Path, names: seq<Name>) {
    exists n | n in names :: current + [n] in t && t[current + [n]].Link?
  }

  lemma LinksAreListed(t: Tree, v: Visit)
    requires IsVisit(t, Everything(), v)
    ensures HoldsLink(t, v.current) <==> AnyLink(t, v.current, v.directories + v.files)
  {
    if HoldsLink(t, v.current) {
      var p :| p in t && p != [] && Parent(p) == v.current && t[p].Link?;
      assert p == v.current + [Last(p)];
      assert Last(p) in v.directories + v.files;
    }
  }

  /** The walk passes by every link. */
  lemma LinksAreHeld(t: Tree, d: Path, order: seq<Path>)
    requires WellFormed(t) && IsDirAt(t, d) && IsWalk(t, d, Everything(), order)
    ensures HasLinkBelow(t, d) <==> exists i :: 0 <= i < |order| && HoldsLink(t, order[i])
  {
    forall p | p in t && IsBelow(d, p) ensures Parent(p) in order {
      assert HasPlace(t, p);
      ReachedEverywhere(t, d, Parent(p));
    }
    forall i | 0 <= i < |order| ensures d <= order[i] && IsDirAt(t, order[i]) {
      assert order[i] in order;
      ReachedEverywhere(t, d, order[i]);
    }
    if i :| 0 <= i < |order| && HoldsLink(t, order[i]) {
      var p :| p in t && p != [] && Parent(p) == order[i] && t[p].Link?;
      assert IsBelow(d, p);
    }
  }

  /** `_contains_symlink` */
  method ContainsLink(t: Tree, d: Path, scan: Path -> seq<Name>) returns (found: bool)
    requires WellFormed(t) && IsScan(t, scan) && IsDirAt(t, d)
    ensures found <==> HasLinkBelow(t, d)
  {
    var order := Walk(t, d, scan, Everything());
    LinksAreHeld(t, d, order);
    var i := 0;
    while i < |order|
      invariant 0 <= i <= |order|
      invariant forall k :: 0 <= k < i ==> !HoldsLink(t, order[k])
    {
      assert order[i] in order;
      ReachedEverywhere(t, d, order[i]);
      var v := VisitAt(t, scan, Everything(), order[i]);
      VisitAtIsVisit(t, scan, Everything(), order[i]);
      LinksAreListed(t, v);
      if AnyLink(t, v.current, v.directories + v.files) {
        return true;
      }
      i := i + 1;
    }
    found := false;
  }

  /** The checks both calls make, in their order; the answer is where from and where to. */
  function Checked(t: Tree, sourceValue: string, parentValue: string, name: Name)
    : Result<(Path, Path), FileError>
  {
    if !IsAcceptedName(name) then Err(InvalidFileName)
    else
      match Resolve(t, sourceValue, false)
      case Err(error) => Err(error)
      case Ok(source) =>
        match Resolve(t, parentValue, true)
        case Err(error) => Err(error)
        case Ok(parent) =>
          match Resolve(t, Join(parent + [name]), false)
          case Err(error) => Err(error)
          case Ok(destination) =>
            if source !in t then Err(DoesNotExist)
            else if t[source].Dir? && HasLinkBelow(t, source) then Err(LinksNotSupported)
            else if destination in t then Err(AlreadyExists)
            else if t[source].Dir? && source <= destination then Err(IntoItself)
            else Ok((source, destination))
  }

  /** What passing the checks means. */
  ghost predicate IsRoute(t: Tree, source: Path, destination: Path) {
    && source != [] && destination != [] && source in t && !t[source].Link? && destination !in t
    && !(t[source].Dir? && source <= destination)
    && source[0] != TRASH && destination[0] != TRASH
    && !CrossesLink(t, source) && !CrossesLink(t, destination)
    && AllParts(source) && ".." !in source && AllPrintable(source)
    && AllParts(destination) && ".." !in destination && AllPrintable(destination)
    && IsAcceptedName(Last(destination))
  }

  lemma CheckedIsRoute(t: Tree, sourceValue: string, parentValue: string, name: Name)
    requires WellFormed(t) && Checked(t, sourceValue, parentValue, name).Ok?
    ensures var (source, destination) := Checked(t, sourceValue, parentValue, name).value;
            && IsRoute(t, source, destination)
            && destination == Resolve(t, parentValue, true).value + [name]
  {
    var source := Resolve(t, sourceValue, false).value;
    var parent := Resolve(t, parentValue, true).value;
    RelativePathParts(sourceValue);
    RelativePathParts(parentValue);
    var destination := parent + [name];
    assert AllParts(destination) && ".." !in destination && AllPrintable(destination);
    RelativePathOfJoin(destination);
    assert source[..|source|] == source;
  }

  /**
    * The checks accept exactly the routes: a source that is there, outside of links and the trash and without
    * links below it, and a new name for it in a place that is free, not inside itself.
    */
  lemma CheckedExactly(
    t: Tree, sourceValue: string, parentValue: string, name: Name, source: Path, destination: Path)
    requires WellFormed(t)
    ensures Checked(t, sourceValue, parentValue, name) == Ok((source, destination)) <==>
              && IsAcceptedName(name)
              && RelativePath(sourceValue) == Ok(source)
              && destination != [] && Last(destination) == name && RelativePath(parentValue) == Ok(Parent(destination))
              && IsRoute(t, source, destination)
              && (t[source].Dir? ==> !HasLinkBelow(t, source))
  {
    if Checked(t, sourceValue, parentValue, name) == Ok((source, destination)) {
      CheckedIsRoute(t, sourceValue, parentValue, name);
      var parent := Resolve(t, parentValue, true).value;
      assert destination == parent + [name] && Parent(destination) == parent;
    }
    if && IsAcceptedName(name) && RelativePath(sourceValue) == Ok(source)
       && destination != [] && Last(destination) == name && RelativePath(parentValue) == Ok(Parent(destination))
       && IsRoute(t, source, destination) && (t[source].Dir? ==> !HasLinkBelow(t, source))
    {
      RouteIsChecked(t, sourceValue, parentValue, name, source, destination);
    }
  }

  lemma RouteIsChecked(
    t: Tree, sourceValue: string, parentValue: string, name: Name, source: Path, destination: Path)
    requires WellFormed(t) && IsAcceptedName(name) && RelativePath(sourceValue) == Ok(source)
    requires destination != [] && Last(destination) == name && RelativePath(parentValue) == Ok(Parent(destination))
    requires IsRoute(t, source, destination) && (t[source].Dir? ==> !HasLinkBelow(t, source))
    ensures Checked(t, sourceValue, parentValue, name) == Ok((source, destination))
  {
    var parent := Parent(destination);
    assert parent + [name] == destination;
    assert forall k :: 0 < k <= |parent| ==> destination[..k] == parent[..k];
    assert parent != [] ==> parent[0] == destination[0];
    RelativePathOfJoin(destination);
    assert ResolveParts(t, parent, true) == Ok(parent) && ResolveParts(t, destination, false) == Ok(destination);
  }

  // ------------------------------------------------------------------
  // move_path
  // ------------------------------------------------------------------

  /** `os.replace(source, destination)`: the subtree at `source` is at `destination` afterwards. */
  function Rename(t: Tree, source: Path, destination: Path): Tree {
    (map p | p in t && !(source <= p) :: t[p]) +
    (map q | q in (set p | p in t && source <= p :: Rebase(source, destination, p))
      :: if Rebase(destination, source, q) in t then t[Rebase(destination, source, q)] else Dir)
  }

  /** `u` is `t` with the subtree at `source` carried over to `destination`, and nothing else changed. */
  ghost predicate IsMoved(t: Tree, u: Tree, source: Path, destination: Path) {
    && (forall p {:trigger Rebase(source, destination, p)} :: source <= p ==>
         && (Rebase(source, destination, p) in u <==> p in t)
         && (p in t ==> u[Rebase(source, destination, p)] == t[p]))
    && (forall p {:trigger p in u} :: source <= p ==> p !in u)
    && (forall p {:trigger p in u} {:trigger p in t} :: !(source <= p) && !(destination <= p) ==>
         (p in u <==> p in t) && (p in t ==> u[p] == t[p]))
  }

  lemma RebaseBack(source: Path, destination: Path, p: Path)
    requires source <= p
    ensures destination <= Rebase(source, destination, p)
    ensures Rebase(destination, source, Rebase(source, destination, p)) == p
  {
    assert Rebase(source, destination, p)[|destination|..] == p[|source|..];
    assert source + p[|source|..] == p;
  }

  lemma NothingBelowFree(t: Tree, d: Path, p: Path)
    requires WellFormed(t) && d != [] && d !in t && d <= p
    ensures p !in t
  {
    if p in t {
      PrefixInTree(t, p, d);
    }
  }

  lemma RenameMoves(t: Tree, source: Path, destination: Path)
    requires WellFormed(t) && IsRoute(t, source, destination) && IsDirAt(t, Parent(destination))
    ensures IsMoved(t, Rename(t, source, destination), source, destination)
    ensures !(source <= destination) && !(destination <= source)
  {
    var u := Rename(t, source, destination);
    if source <= destination {
      assert source != destination;
      Comparable(source, Parent(destination), destination);
      assert source <= Parent(destination);
      PrefixInTree(t, Parent(destination), source);
    }
    if destination <= source {
      PrefixInTree(t, source, destination);
    }
    forall p | source <= p
      ensures Rebase(source, destination, p) in u <==> p in t
      ensures p in t ==> u[Rebase(source, destination, p)] == t[p]
    {
      var q := Rebase(source, destination, p);
      RebaseBack(source, destination, p);
      NothingBelowFree(t, destination, q);
      if q in u {
        var p' :| p' in t && source <= p' && q == Rebase(source, destination, p');
        RebaseInjective(source, destination, p, p');
      }
    }
    forall p | source <= p ensures p !in u {
      if p in u {
        var p' :| p' in t && source <= p' && p == Rebase(source, destination, p');
        RebaseBack(source, destination, p');
        Comparable(source, destination, p);
      }
    }
    forall p | !(source <= p) && !(destination <= p) ensures (p in u <==> p in t) && (p in t ==> u[p] == t[p]) {
      forall p' | p' in t && source <= p' ensures p != Rebase(source, destination, p') {
        RebaseBack(source, destination, p');
      }
    }
  }

  /** After a move every path still lies in a directory: no directory has become its own descendant. */
  lemma MovedIsWellFormed(t: Tree, u: Tree, source: Path, destination: Path)
    requires WellFormed(t) && IsRoute(t, source, destination) && IsDirAt(t, Parent(destination))
    requires IsMoved(t, u, source, destination) && !(source <= destination) && !(destination <= source)
    ensures WellFormed(u)
  {
    forall q | q in u ensures HasPlace(u, q) {
      if destination <= q {
        RebaseBack(destination, source, q);
        var p := Rebase(destination, source, q);
        assert Rebase(source, destination, p) == q;
        assert HasPlace(t, p);
        if q == destination {
          assert !(source <= Parent(destination));
          assert Parent(destination) == [] || Parent(destination) in u;
        } else {
          MovedChildHasPlace(t, u, source, destination, p, q);
        }
      } else {
        assert HasPlace(t, q);
        var d := Parent(q);
        assert d <= q;
        assert !(source <= d) && !(destination <= d);
      }
    }
  }

  lemma MovedChildHasPlace(t: Tree, u: Tree, source: Path, destination: Path, p: Path, q: Path)
    requires WellFormed(t) && IsMoved(t, u, source, destination) && source != [] && destination != []
    requires p in t && source <= p && q == Rebase(source, destination, p) && q != destination
    ensures HasPlace(u, q)
  {
    assert HasPlace(t, p);
    assert |p| == |source| ==> p == source && q == destination;
    assert |p| > |source|;
    assert source <= Parent(p);
    assert Rebase(source, destination, Parent(p)) == Parent(q);
    assert q != [] && Last(q) == Last(p);
    assert Parent(p) in t;
  }

  /** The tree after a move is determined by what a move is. */
  lemma MovedIsUnique(t: Tree, u: Tree, v: Tree, source: Path, destination: Path)
    requires IsMoved(t, u, source, destination) && IsMoved(t, v, source, destination)
    ensures u == v
  {
    forall q ensures (q in u <==> q in v) && (q in u ==> u[q] == v[q]) {
      if destination <= q {
        RebaseBack(destination, source, q);
        var p := Rebase(destination, source, q);
        assert Rebase(source, destination, p) == q;
      }
    }
  }

  /** Moving back what was moved gives the first tree again. */
  lemma MovedBack(t: Tree, u: Tree, source: Path, destination: Path)
    requires WellFormed(t) && destination != [] && destination !in t
    requires IsMoved(t, u, source, destination)
    requires !(source <= destination) && !(destination <= source)
    ensures IsMoved(u, t, destination, source)
  {
    forall q | destination <= q
      ensures Rebase(destination, source, q) in t <==> q in u
      ensures q in u ==> t[Rebase(destination, source, q)] == u[q]
    {
      RebaseBack(destination, source, q);
      assert Rebase(source, destination, Rebase(destination, source, q)) == q;
    }
    forall q | destination <= q ensures q !in t {
      NothingBelowFree(t, destination, q);
    }
  }

  /** No link lies on the way to something that is itself no link. */
  lemma ClearWay(t: Tree, p: Path)
    requires WellFormed(t) && (p == [] || (p in t && !t[p].Link?))
    ensures !CrossesLink(t, p)
  {
    forall k | 0 < k <= |p| ensures !(p[..k] in t && t[p[..k]].Link?) {
      if k < |p| {
        AncestorIsDir(t, p, k);
      } else {
        assert p[..k] == p;
      }
    }
  }

  lemma ClearWayToNew(t: Tree, p: Path)
    requires WellFormed(t) && p != [] && p !in t && IsDirAt(t, Parent(p))
    ensures !CrossesLink(t, p)
  {
    ClearWay(t, Parent(p));
    forall k | 0 < k <= |p| ensures !(p[..k] in t && t[p[..k]].Link?) {
      if k < |p| {
        assert p[..k] == Parent(p)[..k];
      } else {
        assert p[..k] == p;
      }
    }
  }

  /** A path with clean parts, and no link on the way, resolves to itself. */
  lemma CleanPathResolves(t: Tree, p: Path, allowRoot: bool)
    requires IsCleanPath(p) && !CrossesLink(t, p) && (p == [] ==> allowRoot)
    ensures Resolve(t, Join(p), allowRoot) == Ok(p)
  {
    RelativePathOfJoin(p);
  }

  lemma MovedHoldsNoLink(t: Tree, u: Tree, source: Path, destination: Path)
    requires IsMoved(t, u, source, destination) && !HasLinkBelow(t, source)
    ensures !HasLinkBelow(u, destination)
  {
    if HasLinkBelow(u, destination) {
      var q :| q in u && IsBelow(destination, q) && u[q].Link?;
      var p := Rebase(destination, source, q);
      RebaseBack(destination, source, q);
      assert Rebase(source, destination, p) == q;
      assert IsBelow(source, p);
      assert false;
    }
  }

  lemma HomeIsThere(t: Tree, u: Tree, source: Path, destination: Path)
    requires WellFormed(t) && source != [] && source in t
    requires IsMoved(t, u, source, destination) && !(source <= destination) && !(destination <= source)
    ensures IsDirAt(u, Parent(source)) && source !in u
  {
    assert HasPlace(t, source);
    var home := Parent(source);
    assert !(source <= home) && !(destination <= home);
  }

  predicate IsCleanPath(p: Path) {
    AllParts(p) && ".." !in p && AllPrintable(p) && (p != [] ==> p[0] != TRASH)
  }

  lemma ParentIsClean(p: Path)
    requires p != [] && IsCleanPath(p)
    ensures IsCleanPath(Parent(p))
  {
    assert forall i :: 0 <= i < |Parent(p)| ==> Parent(p)[i] == p[i];
  }

  /** What it takes to pass. */
  lemma Passes(
    t: Tree, sourceValue: string, parentValue: string, name: Name, source: Path, parent: Path, destination: Path)
    requires IsAcceptedName(name) && Resolve(t, sourceValue, false) == Ok(source)
    requires Resolve(t, parentValue, true) == Ok(parent) && Resolve(t, Join(parent + [name]), false) == Ok(destination)
    requires source in t && destination !in t && !(source <= destination)
    requires t[source].Dir? ==> !HasLinkBelow(t, source)
    ensures Checked(t, sourceValue, parentValue, name) == Ok((source, destination))
  {
  }

  lemma NameIsAccepted(t: Tree, p: Path)
    requires WellFormed(t) && p in t && p != [] && AllPrintable(p)
    ensures IsAcceptedName(Last(p)) && Parent(p) + [Last(p)] == p
  {
    assert HasPlace(t, p);
    assert Printable(p[|p| - 1]);
  }

  lemma WayBackResolves(t: Tree, u: Tree, source: Path, destination: Path)
    requires WellFormed(u) && IsCleanPath(source) && IsCleanPath(destination) && source != []
    requires destination != [] && destination in u && !u[destination].Link?
    requires source !in u && IsDirAt(u, Parent(source))
    ensures Resolve(u, Join(destination), false) == Ok(destination)
    ensures Resolve(u, Join(Parent(source)), true) == Ok(Parent(source))
    ensures Resolve(u, Join(source), false) == Ok(source)
  {
    ClearWay(u, destination);
    CleanPathResolves(u, destination, false);
    ClearWay(u, Parent(source));
    ParentIsClean(source);
    CleanPathResolves(u, Parent(source), true);
    ClearWayToNew(u, source);
    CleanPathResolves(u, source, false);
  }

  /** The way back passes all checks of `move_path`, and the directory to go back to is still there. */
  lemma WayBackIsAccepted(t: Tree, u: Tree, source: Path, destination: Path)
    requires WellFormed(t) && WellFormed(u) && IsRoute(t, source, destination)
    requires IsMoved(t, u, source, destination) && !(source <= destination) && !(destination <= source)
    requires t[source].Dir? ==> !HasLinkBelow(t, source)
    ensures Checked(u, Join(destination), Join(Parent(source)), Last(source)) == Ok((destination, source))
    ensures IsDirAt(u, Parent(source)) && Resolve(u, Join(Parent(source)), true) == Ok(Parent(source))
  {
    assert Rebase(source, destination, source) == destination;
    HomeIsThere(t, u, source, destination);
    WayBackResolves(t, u, source, destination);
    if u[destination].Dir? {
      MovedHoldsNoLink(t, u, source, destination);
    }
    NameIsAccepted(t, source);
    Passes(u, Join(destination), Join(Parent(source)), Last(source), destination, Parent(source), source);
  }

  // ------------------------------------------------------------------
  // copy_path
  // ------------------------------------------------------------------

  /** `shutil.copytree` or `shutil.copy2`, into a tree where the parent of `destination` is there. */
  function Duplicate(t: Tree, source: Path, destination: Path): Tree {
    t + (map q | q in (set p | p in t && source <= p :: Rebase(source, destination, p))
      :: if Rebase(destination, source, q) in t then t[Rebase(destination, source, q)] else Dir)
  }

  /** The tree the copy goes into: `copytree` makes missing parents, `copy2` does not. */
  function CopyBase(t: Tree, source: Path, destination: Path): Option<Tree>
    requires source in t && destination != []
  {
    var parent := Parent(destination);
    if t[source].Dir? then
      if HasEntryNames(parent) then MakeDirs(t, parent) else None
    else if IsDirAt(t, parent) then Some(t)
    else None
  }

  /**
    * There is room for a copy: a file needs the directory it is copied into; a directory needs one that can be
    * made, so that nothing on the way is anything else and the missing names are ones a directory can hold.
    */
  predicate CanCopy(t: Tree, source: Path, destination: Path)
    requires source in t && destination != []
  {
    var parent := destination[..|destination| - 1];
    if t[source].Dir? then
      forall k :: 0 < k <= |parent| ==> if parent[..k] in t then t[parent[..k]].Dir? else IsEntryName(parent[k - 1])
    else parent == [] || (parent in t && t[parent].Dir?)
  }

  lemma CopiesExactlyThere(t: Tree, source: Path, destination: Path)
    requires WellFormed(t) && source in t && destination != []
    ensures CopyBase(t, source, destination).Some? <==> CanCopy(t, source, destination)
  {
    var parent := Parent(destination);
    if t[source].Dir? {
      MakeDirsFails(t, parent);
      if CanCopy(t, source, destination) {
        forall i | 0 <= i < |parent| ensures IsEntryName(parent[i]) {
          var above := parent[..i + 1];
          if above in t {
            assert HasPlace(t, above) && Last(above) == parent[i];
          }
        }
        forall q | q in Prefixes(parent) && q in t ensures t[q].Dir? {
          var k :| 0 < k <= |parent| && q == parent[..k];
        }
      }
      if CopyBase(t, source, destination).Some? {
        forall k | 0 < k <= |parent|
          ensures if parent[..k] in t then t[parent[..k]].Dir? else IsEntryName(parent[k - 1])
        {
          assert parent[..k] in Prefixes(parent);
        }
      }
    }
  }

  /** `u` is `t` with a copy of the subtree at `source` put at `destination`, and its missing parents made. */
  ghost predicate IsCopied(t: Tree, u: Tree, source: Path, destination: Path)
    requires destination != []
  {
    && (forall p {:trigger Rebase(source, destination, p)} :: source <= p ==>
         && (Rebase(source, destination, p) in u <==> p in t)
         && (p in t ==> u[Rebase(source, destination, p)] == t[p]))
    && (forall p {:trigger p in u} {:trigger p in t} :: !(destination <= p) ==>
         && (p in u <==> p in t || p in Prefixes(Parent(destination)))
         && (p in u ==> u[p] == if p in t then t[p] else Dir))
  }

  lemma DuplicateCopies(t: Tree, source: Path, destination: Path)
    requires WellFormed(t) && IsRoute(t, source, destination) && CopyBase(t, source, destination).Some?
    ensures var u := Duplicate(CopyBase(t, source, destination).value, source, destination);
            IsCopied(t, u, source, destination)
    ensures var base := CopyBase(t, source, destination).value;
            WellFormed(base) && IsDirAt(base, Parent(destination)) && IsSubtree(t, base) && destination !in base
    ensures !(source <= destination)
  {
    var base := CopyBase(t, source, destination).value;
    var parent := Parent(destination);
    CopyBaseAdds(t, source, destination);
    if source <= destination {
      assert source != destination;
      Comparable(source, parent, destination);
      PrefixInTree(t, parent, source);
    }
    var u := Duplicate(base, source, destination);
    forall p | source <= p
      ensures Rebase(source, destination, p) in u <==> p in t
      ensures p in t ==> u[Rebase(source, destination, p)] == t[p]
    {
      CopiedPath(t, base, source, destination, p);
    }
    forall p | !(destination <= p)
      ensures p in u <==> p in t || p in Prefixes(parent)
      ensures p in u ==> u[p] == if p in t then t[p] else Dir
    {
      forall p' | p' in base && source <= p' ensures p != Rebase(source, destination, p') {
        RebaseBack(source, destination, p');
      }
    }
  }

  lemma CopiedPath(t: Tree, base: Tree, source: Path, destination: Path, p: Path)
    requires WellFormed(base) && IsSubtree(t, base) && source <= p && destination != [] && destination !in base
    requires forall q :: q in base && source <= q ==> q in t
    ensures var u := Duplicate(base, source, destination);
            && (Rebase(source, destination, p) in u <==> p in t)
            && (p in t ==> u[Rebase(source, destination, p)] == t[p])
  {
    var q := Rebase(source, destination, p);
    RebaseBack(source, destination, p);
    NothingBelowFree(base, destination, q);
    if p' :| p' in base && source <= p' && q == Rebase(source, destination, p') {
      RebaseInjective(source, destination, p, p');
    }
  }

  lemma CopyBaseAdds(t: Tree, source: Path, destination: Path)
    requires WellFormed(t) && IsRoute(t, source, destination) && CopyBase(t, source, destination).Some?
    ensures var base := CopyBase(t, source, destination).value;
            && WellFormed(base) && IsSubtree(t, base) && IsDirAt(base, Parent(destination))
            && base.Keys == t.Keys + Prefixes(Parent(destination)) && destination !in base
            && (forall q :: q in base && q !in t ==> base[q].Dir?)
            && (forall q :: q in base && source <= q ==> q in t)
  {
    var parent := Parent(destination);
    if t[source].Dir? {
      MakeDirsAdds(t, parent);
      forall q | q in Prefixes(parent) ensures !(source <= q) {
        assert q <= destination;
      }
    } else if parent != [] {
      PrefixesAreThere(t, parent);
    } else {
      assert Prefixes(parent) == {};
    }
    forall q | q in Prefixes(parent) ensures q != destination {
    }
  }

  lemma CopiedIsWellFormed(t: Tree, base: Tree, u: Tree, source: Path, destination: Path)
    requires WellFormed(t) && IsRoute(t, source, destination)
    requires WellFormed(base) && IsSubtree(base, u) && IsDirAt(base, Parent(destination))
    requires forall q :: q in u && !(destination <= q) ==> q in base
    requires IsCopied(t, u, source, destination)
    ensures WellFormed(u)
  {
    forall q | q in u ensures HasPlace(u, q) {
      if destination <= q {
        RebaseBack(destination, source, q);
        var p := Rebase(destination, source, q);
        assert Rebase(source, destination, p) == q;
        assert HasPlace(t, p);
        if q != destination {
          assert |p| == |source| ==> p == source && q == destination;
          assert source <= Parent(p);
          assert Rebase(source, destination, Parent(p)) == Parent(q);
          assert Last(q) == Last(p);
        }
      } else {
        assert HasPlace(base, q);
      }
    }
  }

  /**
    * A copy leaves every path outside the destination as it was exactly when the parent of the
    * destination is already a directory: otherwise `copytree` makes the missing parents as well.
    */
  lemma CopyTouchesNothingElse(t: Tree, u: Tree, source: Path, destination: Path)
    requires WellFormed(t) && WellFormed(u) && source in t && destination != []
    requires IsCopied(t, u, source, destination)
    ensures (forall q :: !(destination <= q) ==> (q in u <==> q in t) && (q in t ==> u[q] == t[q])) <==>
            IsDirAt(t, Parent(destination))
  {
    var parent := Parent(destination);
    if IsDirAt(t, parent) {
      if parent != [] {
        PrefixesAreThere(t, parent);
      }
      forall q | !(destination <= q) ensures (q in u <==> q in t) && (q in t ==> u[q] == t[q]) {
      }
    } else if forall q :: !(destination <= q) ==> (q in u <==> q in t) && (q in t ==> u[q] == t[q]) {
      assert Rebase(source, destination, source) == destination;
      assert HasPlace(u, destination);
      assert !(destination <= parent);
    }
  }

  lemma NothingLostByCopy(base: Tree, source: Path, destination: Path)
    requires WellFormed(base) && destination != [] && destination !in base
    ensures IsSubtree(base, Duplicate(base, source, destination))
    ensures forall q :: q in Duplicate(base, source, destination) && !(destination <= q) ==> q in base
  {
    forall p' | p' in base && source <= p' ensures destination <= Rebase(source, destination, p') {
      RebaseBack(source, destination, p');
    }
    forall p | p in base ensures !(destination <= p) {
      if destination <= p {
        NothingBelowFree(base, destination, p);
      }
    }
  }

  /** Where a call made during the copy fails, if one does: once so many parents are there, or later. */
  datatype CopyFault = NoFault | AmongParents(made: nat) | WhileCopying

  /** How far down `p`, at most to `k`, the directories can be made. */
  function Reachable(t: Tree, p: Path, k: nat): (depth: nat)
    requires k <= |p|
    ensures depth <= k
  {
    if k == 0 || CanMake(t, p[..k]) then k else Reachable(t, p, k - 1)
  }

  lemma {:induction false} ReachableCanBeMade(t: Tree, p: Path, k: nat)
    requires k <= |p|
    ensures CanMake(t, p[..Reachable(t, p, k)])
    decreases k
  {
    if k > 0 && !CanMake(t, p[..k]) {
      ReachableCanBeMade(t, p, k - 1);
    }
  }

  /** How far the parents of the destination are made when the copy fails; `copy2` makes none. */
  function ParentDepth(t: Tree, source: Path, destination: Path, fault: CopyFault): (depth: nat)
    requires source in t && destination != []
    ensures depth < |destination|
  {
    var parent := Parent(destination);
    if !t[source].Dir? then 0
    else Reachable(t, parent, if fault.AmongParents? && fault.made < |parent| then fault.made else |parent|)
  }

  /** The tree a failed copy leaves: the half-made copy is removed again, the parents are not. */
  function AfterFailedCopy(t: Tree, source: Path, destination: Path, fault: CopyFault): Tree
    requires source in t && destination != []
  {
    match MakeDirs(t, destination[..ParentDepth(t, source, destination, fault)])
    case None => t
    case Some(u) => u
  }

  /**
    * A failed copy changes nothing exactly if it made no parent that was missing: for a file always, and for a
    * directory whose copying had begun if and only if the parent was there.
    */
  lemma FailedCopyTouchesNothing(t: Tree, source: Path, destination: Path, fault: CopyFault)
    requires WellFormed(t) && source in t && destination != []
    ensures AfterFailedCopy(t, source, destination, fault) == t <==>
            IsDirAt(t, destination[..ParentDepth(t, source, destination, fault)])
    ensures !t[source].Dir? ==> AfterFailedCopy(t, source, destination, fault) == t
    ensures t[source].Dir? && fault.WhileCopying? && CopyBase(t, source, destination).Some? ==>
              (AfterFailedCopy(t, source, destination, fault) == t <==> IsDirAt(t, Parent(destination)))
    ensures WellFormed(AfterFailedCopy(t, source, destination, fault))
  {
    var depth := ParentDepth(t, source, destination, fault);
    var made := destination[..depth];
    assert destination[..0] == [];
    if t[source].Dir? {
      var parent := Parent(destination);
      ReachableCanBeMade(t, parent, if fault.AmongParents? && fault.made < |parent| then fault.made else |parent|);
      assert made == parent[..depth] && parent[..|parent|] == parent;
    }
    MakeDirsAdds(t, made);
    if made != [] {
      PrefixesStep(made);
    }
  }

  /** Otherwise it leaves the parents it made, which are as many as it came to. */
  lemma FailedCopyLeavesParents(t: Tree, source: Path, destination: Path, fault: CopyFault)
    requires WellFormed(t) && source in t && destination != [] && t[source].Dir? && CanCopy(t, source, destination)
    ensures
      var after := AfterFailedCopy(t, source, destination, fault);
      var parent := Parent(destination);
      var made := if fault.AmongParents? && fault.made < |parent| then parent[..fault.made] else parent;
      && after.Keys == t.Keys + Prefixes(made) && IsSubtree(t, after)
      && forall p :: p in after && p !in t ==> after[p] == Dir
  {
    var parent := Parent(destination);
    var k := if fault.AmongParents? && fault.made < |parent| then fault.made else |parent|;
    CopiesExactlyThere(t, source, destination);
    MakeDirsFails(t, parent);
    MakeDirsFails(t, parent[..k]);
    assert Prefixes(parent[..k]) <= Prefixes(parent) by {
      forall q | q in Prefixes(parent[..k]) ensures q in Prefixes(parent) {
        assert q == parent[..|q|];
      }
    }
    assert CanMake(t, parent[..k]);
    assert destination[..k] == parent[..k] && parent[..|parent|] == parent;
    MakeDirsAdds(t, parent[..k]);
  }

  /** The server directory, as the file handlers change it. */
  class ServerDirectory {
    var tree: Tree

    constructor (tree: Tree)
      requires WellFormed(tree)
      ensures this.tree == tree
    {
      this.tree := tree;
    }

    /** `move_path`; `fault` says that `os.replace` fails for a reason of its own. */
    method MovePath(
      sourceValue: string, parentValue: string, name: Name, scan: Path -> seq<Name>, fault: bool)
      returns (r: Result<Path, FileError>)
      requires WellFormed(tree) && IsScan(tree, scan)
      modifies this
      ensures WellFormed(tree)
      ensures r.Err? ==> tree == old(tree)
      ensures r.Ok? <==>
                && Checked(old(tree), sourceValue, parentValue, name).Ok? && !fault
                && IsDirAt(old(tree), Resolve(old(tree), parentValue, true).value)
      ensures r.Ok? ==>
                var (source, destination) := Checked(old(tree), sourceValue, parentValue, name).value;
                r.value == destination && IsMoved(old(tree), tree, source, destination)
    {
      var route := CheckPaths(sourceValue, parentValue, name, scan);
      if route.Err? {
        return Err(route.error);
      }
      var (source, destination) := route.value;
      CheckedIsRoute(tree, sourceValue, parentValue, name);
      assert Parent(destination) == Resolve(tree, parentValue, true).value;
      if !IsDirAt(tree, Parent(destination)) || fault {
        return Err(CallFailed);
      }
      RenameMoves(tree, source, destination);
      MovedIsWellFormed(tree, Rename(tree, source, destination), source, destination);
      tree := Rename(tree, source, destination);
      r := Ok(destination);
    }

    /** `copy_path` */
    method CopyPath(
      sourceValue: string, parentValue: string, name: Name, scan: Path -> seq<Name>, fault: CopyFault)
      returns (r: Result<Path, FileError>)
      requires WellFormed(tree) && IsScan(tree, scan)
      modifies this
      ensures WellFormed(tree)
      ensures Checked(old(tree), sourceValue, parentValue, name).Err? ==> r.Err? && tree == old(tree)
      ensures Checked(old(tree), sourceValue, parentValue, name).Ok? ==>
                var (source, destination) := Checked(old(tree), sourceValue, parentValue, name).value;
                && IsRoute(old(tree), source, destination)
                && (r.Ok? <==> CanCopy(old(tree), source, destination) && fault.NoFault?)
                && (r.Ok? ==> r.value == destination && IsCopied(old(tree), tree, source, destination))
                && (r.Err? ==> tree == AfterFailedCopy(old(tree), source, destination, fault))
    {
      var route := CheckPaths(sourceValue, parentValue, name, scan);
      if route.Err? {
        return Err(route.error);
      }
      var (source, destination) := route.value;
      CheckedIsRoute(tree, sourceValue, parentValue, name);
      CopiesExactlyThere(tree, source, destination);
      var base := CopyBase(tree, source, destination);
      if base.None? || !fault.NoFault? {
        FailedCopyTouchesNothing(tree, source, destination, fault);
        tree := AfterFailedCopy(tree, source, destination, fault);
        return Err(CallFailed);
      }
      DuplicateCopies(tree, source, destination);
      CopyBaseAdds(tree, source, destination);
      var whole := Duplicate(base.value, source, destination);
      NothingLostByCopy(base.value, source, destination);
      CopiedIsWellFormed(tree, base.value, whole, source, destination);
      tree := whole;
      r := Ok(destination);
    }

    /** The checks of `move_path` and `copy_path`, links looked for with `os.walk`. */
    method CheckPaths(sourceValue: string, parentValue: string, name: Name, scan: Path -> seq<Name>)
      returns (r: Result<(Path, Path), FileError>)
      requires WellFormed(tree) && IsScan(tree, scan)
      ensures r == Checked(tree, sourceValue, parentValue, name)
    {
      if !IsAcceptedName(name) {
        return Err(InvalidFileName);
      }
      var source := Resolve(tree, sourceValue, false);
      if source.Err? {
        return Err(source.error);
      }
      var parent := Resolve(tree, parentValue, true);
      if parent.Err? {
        return Err(parent.error);
      }
      var destination := Resolve(tree, Join(parent.value + [name]), false);
      if destination.Err? {
        return Err(destination.error);
      }
      if source.value !in tree {
        return Err(DoesNotExist);
      }
      if tree[source.value].Dir? {
        var linked := ContainsLink(tree, source.value, scan);
        if linked {
          return Err(LinksNotSupported);
        }
      }
      if destination.value in tree {
        return Err(AlreadyExists);
      }
      if tree[source.value].Dir? && source.value <= destination.value {
        return Err(IntoItself);
      }
      r := Ok((source.value, destination.value));
    }
  }

  /**
    * The reverse move: after `move_path` has put `source` at `destination`, moving `destination` back to
    * its old parent and name is accepted and gives exactly the first tree.
    */
  lemma MoveIsUndone(t: Tree, sourceValue: string, parentValue: string, name: Name, u: Tree)
    requires WellFormed(t) && Checked(t, sourceValue, parentValue, name).Ok?
    requires IsDirAt(t, Resolve(t, parentValue, true).value)
    requires var (source, destination) := Checked(t, sourceValue, parentValue, name).value;
             IsMoved(t, u, source, destination)
    ensures var (source, destination) := Checked(t, sourceValue, parentValue, name).value;
            && Checked(u, Join(destination), Join(Parent(source)), Last(source)) == Ok((destination, source))
            && Resolve(u, Join(Parent(source)), true) == Ok(Parent(source)) && IsDirAt(u, Parent(source))
            && forall v :: IsMoved(u, v, destination, source) ==> v == t
  {
    var (source, destination) := Checked(t, sourceValue, parentValue, name).value;
    CheckedIsRoute(t, sourceValue, parentValue, name);
    assert Parent(destination) == Resolve(t, parentValue, true).value;
    RouteIsUndone(t, u, source, destination);
  }

  lemma RouteIsUndone(t: Tree, u: Tree, source: Path, destination: Path)
    requires WellFormed(t) && IsRoute(t, source, destination) && IsDirAt(t, Parent(destination))
    requires IsMoved(t, u, source, destination) && (t[source].Dir? ==> !HasLinkBelow(t, source))
    ensures Checked(u, Join(destination), Join(Parent(source)), Last(source)) == Ok((destination, source))
    ensures IsDirAt(u, Parent(source)) && Resolve(u, Join(Parent(source)), true) == Ok(Parent(source))
    ensures forall v :: IsMoved(u, v, destination, source) ==> v == t
  {
    RenameMoves(t, source, destination);
    MovedIsWellFormed(t, u, source, destination);
    WayBackIsAccepted(t, u, source, destination);
    forall v | IsMoved(u, v, destination, source) ensures v == t {
      MovedBackIs(t, u, v, source, destination);
    }
  }

  lemma MovedBackIs(t: Tree, u: Tree, v: Tree, source: Path, destination: Path)
    requires WellFormed(t) && destination != [] && destination !in t
    requires !(source <= destination) && !(destination <= source)
    requires IsMoved(t, u, source, destination) && IsMoved(u, v, destination, source)
    ensures v == t
  {
    MovedBack(t, u, source, destination);
    MovedIsUnique(u, v, t, destination, source);
  }
}
