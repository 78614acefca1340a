/** `resolve_server_path` of `file_service.py` on a disk with arbitrary symbolic links. */
module Resolution {
  import opened Common
  import opened Paths
  import opened Trees
  import opened FileRules

  datatype Entry = Regular | Directory | SymbolicLink(target: string)

  /** What lies at each absolute path, once no link is left in it. */
  type Disk = map<Path, Entry>

  predicate IsLinkAt(disk: Disk, p: Path) {
    p in disk && disk[p].SymbolicLink?
  }

  function Links(disk: Disk): set<Path> {
    set p | p in disk && IsLinkAt(disk, p)
  }

  /** Where `realpath` has got to; `ok` is false when it has met a loop and given up. */
  datatype Walked = Walked(path: Path, ok: bool, seen: map<Path, Option<Path>>)

  /**
    * `posixpath._joinrealpath`: go down `rest` from the link-free `path`. `seen` remembers each link, with
    * what it led to or None while that is being worked out.
    */
  function RealPath(disk: Disk, path: Path, rest: Path, seen: map<Path, Option<Path>>): (w: Walked)
    ensures seen.Keys <= w.seen.Keys
    decreases Links(disk) - seen.Keys, |rest|
  {
    if rest == [] then Walked(path, true, seen)
    else
      var name, tail := rest[0], rest[1..];
      if name == ".." then
        RealPath(disk, if path == [] then [] else Parent(path), tail, seen)
      else
        var next := path + [name];
        if !IsLinkAt(disk, next) then RealPath(disk, next, tail, seen)
        else if next in seen then
          match seen[next]
          case Some(known) => RealPath(disk, known, tail, seen)
          case None => Walked(next + tail, false, seen)
        else
          var target := disk[next].target;
          assert next in Links(disk) - seen.Keys;
          var inner := RealPath(disk, if IsAbsolute(target) then [] else path, Parts(target), seen[next := None]);
          if !inner.ok then Walked(inner.path + tail, false, inner.seen)
          else RealPath(disk, inner.path, tail, inner.seen[next := Some(inner.path)])
  }

  /** `Path.resolve(strict=False)` of an absolute path; None for the RuntimeError a loop raises. */
  function Resolved(disk: Disk, p: Path): Option<Path> {
    var w := RealPath(disk, [], p, map[]);
    if w.ok then Some(w.path) else None
  }

  /** `Path.is_symlink()`: the last component, looked up where the leading ones lead. */
  predicate IsSymlink(disk: Disk, p: Path) {
    p != [] && Resolved(disk, Parent(p)).Some? && IsLinkAt(disk, Resolved(disk, Parent(p)).value + [Last(p)])
  }

  /** Resolving a path in two stretches. */
  lemma {:induction false} RealPathAppend(disk: Disk, path: Path, a: Path, b: Path, seen: map<Path, Option<Path>>)
    ensures RealPath(disk, path, a + b, seen) ==
            var w := RealPath(disk, path, a, seen);
            if w.ok then RealPath(disk, w.path, b, w.seen) else Walked(w.path + b, false, w.seen)
    decreases Links(disk) - seen.Keys, |a|
  {
    if a == [] {
      assert a + b == b;
    } else {
      var name, tail := a[0], a[1..];
      assert (a + b)[0] == name && (a + b)[1..] == tail + b;
      if name == ".." {
        RealPathAppend(disk, if path == [] then [] else Parent(path), tail, b, seen);
      } else {
        var next := path + [name];
        if !IsLinkAt(disk, next) {
          RealPathAppend(disk, next, tail, b, seen);
        } else if next in seen {
          match seen[next]
          case Some(known) => RealPathAppend(disk, known, tail, b, seen);
          case None => assert next + (tail + b) == next + tail + b;
        } else {
          var target := disk[next].target;
          assert next in Links(disk) - seen.Keys;
          var inner := RealPath(disk, if IsAbsolute(target) then [] else path, Parts(target), seen[next := None]);
          if inner.ok {
            RealPathAppend(disk, inner.path, tail, b, inner.seen[next := Some(inner.path)]);
          } else {
            assert inner.path + (tail + b) == inner.path + tail + b;
          }
        }
      }
    }
  }

  /** Neither the path nor anything above it is a link. */
  predicate IsPhysical(disk: Disk, p: Path) {
    forall k :: 0 <= k <= |p| ==> !IsLinkAt(disk, p[..k])
  }

  predicate SeenPhysical(disk: Disk, seen: map<Path, Option<Path>>) {
    forall p :: p in seen && seen[p].Some? ==> IsPhysical(disk, seen[p].value)
  }

  lemma OneDown(disk: Disk, p: Path, name: Name)
    requires IsPhysical(disk, p)
    ensures IsPhysical(disk, if p == [] then [] else Parent(p))
    ensures !IsLinkAt(disk, p + [name]) ==> IsPhysical(disk, p + [name])
  {
    if p != [] {
      assert forall k :: 0 <= k <= |Parent(p)| ==> Parent(p)[..k] == p[..k];
    }
    var next := p + [name];
    assert forall k :: 0 <= k <= |p| ==> next[..k] == p[..k];
    assert next[..|next|] == next;
  }

  lemma {:induction false} RealPathIsPhysical(disk: Disk, path: Path, rest: Path, seen: map<Path, Option<Path>>)
    requires IsPhysical(disk, path) && SeenPhysical(disk, seen)
    requires !IsLinkAt(disk, [])
    ensures var w := RealPath(disk, path, rest, seen);
            SeenPhysical(disk, w.seen) && (w.ok ==> IsPhysical(disk, w.path))
    decreases Links(disk) - seen.Keys, |rest|
  {
    if rest != [] {
      var name, tail := rest[0], rest[1..];
      OneDown(disk, path, name);
      if name == ".." {
        RealPathIsPhysical(disk, if path == [] then [] else Parent(path), tail, seen);
      } else {
        var next := path + [name];
        if !IsLinkAt(disk, next) {
          RealPathIsPhysical(disk, next, tail, seen);
        } else if next in seen {
          match seen[next]
          case Some(known) => RealPathIsPhysical(disk, known, tail, seen);
          case None =>
        } else {
          var target := disk[next].target;
          var from := if IsAbsolute(target) then [] else path;
          assert next in Links(disk) - seen.Keys;
          RealPathIsPhysical(disk, from, Parts(target), seen[next := None]);
          var inner := RealPath(disk, from, Parts(target), seen[next := None]);
          if inner.ok {
            RealPathIsPhysical(disk, inner.path, tail, inner.seen[next := Some(inner.path)]);
          }
        }
      }
    }
  }

  /** What a path resolves to has no link in it any more. */
  lemma ResolvedIsPhysical(disk: Disk, p: Path)
    requires !IsLinkAt(disk, [])
    ensures Resolved(disk, p).Some? ==> IsPhysical(disk, Resolved(disk, p).value)
  {
    RealPathIsPhysical(disk, [], p, map[]);
  }

  /** And a path without links resolves to itself. */
  lemma PhysicalIsResolved(disk: Disk, p: Path)
    requires IsPhysical(disk, p) && ".." !in p
    ensures Resolved(disk, p) == Some(p)
  {
    assert forall k :: 0 < k <= |p| ==> [] + p[..k] == p[..k];
    RealPathPlain(disk, [], p, map[]);
    assert [] + p == p;
  }

  /** Going down through real directories only. */
  lemma {:induction false} RealPathPlain(disk: Disk, path: Path, rest: Path, seen: map<Path, Option<Path>>)
    requires ".." !in rest
    requires forall k :: 0 < k <= |rest| ==> !IsLinkAt(disk, path + rest[..k])
    ensures RealPath(disk, path, rest, seen) == Walked(path + rest, true, seen)
    decreases |rest|
  {
    if rest != [] {
      var next, tail := path + [rest[0]], rest[1..];
      assert next == path + rest[..1];
      forall k | 0 < k <= |tail| ensures !IsLinkAt(disk, next + tail[..k]) {
        assert next + tail[..k] == path + rest[..k + 1];
      }
      RealPathPlain(disk, next, tail, seen);
      assert next + tail == path + rest;
    }
  }

  /** No component below the root is a symbolic link: what the loop over the parts checks. */
  ghost predicate PartsAreReal(disk: Disk, root: Path, relative: Path) {
    forall k :: 0 < k <= |relative| ==> !IsSymlink(disk, root + relative[..k])
  }

  ghost predicate NoLinksBelow(disk: Disk, base: Path, relative: Path) {
    forall k :: 0 < k <= |relative| ==> !IsLinkAt(disk, base + relative[..k])
  }

  /** If nothing below the resolved root is a link, the path resolves to the root followed by its parts. */
  lemma PlainBelowRoot(disk: Disk, root: Path, relative: Path)
    requires Resolved(disk, root).Some? && ".." !in relative
    requires NoLinksBelow(disk, Resolved(disk, root).value, relative)
    ensures Resolved(disk, root + relative) == Some(Resolved(disk, root).value + relative)
  {
    var w := RealPath(disk, [], root, map[]);
    RealPathAppend(disk, [], root, relative, map[]);
    RealPathPlain(disk, w.path, relative, w.seen);
  }

  lemma PartsStep(disk: Disk, root: Path, relative: Path)
    requires relative != []
    ensures PartsAreReal(disk, root, relative) <==>
              PartsAreReal(disk, root, Parent(relative)) && !IsSymlink(disk, root + relative)
  {
    assert relative[..|relative|] == relative;
    assert forall k :: 0 < k < |relative| ==> Parent(relative)[..k] == relative[..k];
  }

  lemma NoLinksStep(disk: Disk, base: Path, relative: Path)
    requires relative != []
    ensures NoLinksBelow(disk, base, relative) <==>
              NoLinksBelow(disk, base, Parent(relative)) && !IsLinkAt(disk, base + relative)
  {
    assert relative[..|relative|] == relative;
    assert forall k :: 0 < k < |relative| ==> Parent(relative)[..k] == relative[..k];
  }

  /** The per-part check looks at the physical components, one after the other. */
  lemma {:induction false} PartsCheckIsPhysical(disk: Disk, root: Path, relative: Path)
    requires Resolved(disk, root).Some? && ".." !in relative
    ensures PartsAreReal(disk, root, relative) <==> NoLinksBelow(disk, Resolved(disk, root).value, relative)
    decreases |relative|
  {
    var base := Resolved(disk, root).value;
    if relative != [] {
      var init := Parent(relative);
      PartsCheckIsPhysical(disk, root, init);
      PartsStep(disk, root, relative);
      NoLinksStep(disk, base, relative);
      if NoLinksBelow(disk, base, init) {
        PlainBelowRoot(disk, root, init);
        assert Parent(root + relative) == root + init && Last(root + relative) == Last(relative);
        assert base + init + [Last(relative)] == base + relative;
      }
    }
  }

  datatype ResolveError = RootIsLink | BadPath | Managed | Loop | Escapes | CrossesALink | RootItself

  /** The checks of `resolve_server_path`, in their order; the answer is the relative path. */
  function Accepted(disk: Disk, root: Path, value: string, allowRoot: bool): Result<Path, ResolveError> {
    if IsSymlink(disk, root) then Err(RootIsLink)
    else
      match RelativePath(value)
      case Err(_) => Err(BadPath)
      case Ok(relative) =>
        if relative != [] && relative[0] == TRASH then Err(Managed)
        else if Resolved(disk, root).None? || Resolved(disk, root + relative).None? then Err(Loop)
        else if !(Resolved(disk, root).value <= Resolved(disk, root + relative).value) then Err(Escapes)
        else if exists k :: 0 < k <= |relative| && IsSymlink(disk, root + relative[..k]) then Err(CrossesALink)
        else if !allowRoot && Resolved(disk, root + relative) == Resolved(disk, root) then Err(RootItself)
        else Ok(relative)
  }

  /** `resolve_server_path` */
  method ResolveServerPath(disk: Disk, root: Path, value: string, allowRoot: bool)
    returns (r: Result<Path, ResolveError>)
    ensures r == match Accepted(disk, root, value, allowRoot)
                 case Err(error) => Err(error)
                 case Ok(relative) => Ok(root + relative)
  {
    if IsSymlink(disk, root) {
      return Err(RootIsLink);
    }
    var parsed := RelativePath(value);
    if parsed.Err? {
      return Err(BadPath);
    }
    var relative := parsed.value;
    if relative != [] && relative[0] == TRASH {
      return Err(Managed);
    }
    var candidate := root + relative;
    var resolvedRoot, resolvedCandidate := Resolved(disk, root), Resolved(disk, candidate);
    if resolvedRoot.None? || resolvedCandidate.None? {
      return Err(Loop);
    }
    if !(resolvedRoot.value <= resolvedCandidate.value) {
      return Err(Escapes);
    }
    var current := root;
    var i := 0;
    while i < |relative|
      invariant 0 <= i <= |relative| && current == root + relative[..i]
      invariant forall k :: 0 < k <= i ==> !IsSymlink(disk, root + relative[..k])
    {
      current := current + [relative[i]];
      i := i + 1;
      assert current == root + relative[..i];
      if IsSymlink(disk, current) {
        return Err(CrossesALink);
      }
    }
    if !allowRoot && resolvedCandidate == resolvedRoot {
      return Err(RootItself);
    }
    r := Ok(candidate);
  }

  /** An accepted path resolves to the resolved root followed by exactly its parts, so it stays below the root. */
  lemma AcceptedStaysBelowRoot(disk: Disk, root: Path, value: string, allowRoot: bool)
    requires Accepted(disk, root, value, allowRoot).Ok?
    ensures var relative := Accepted(disk, root, value, allowRoot).value;
            && Resolved(disk, root).Some?
            && Resolved(disk, root + relative) == Some(Resolved(disk, root).value + relative)
            && Resolved(disk, root).value <= Resolved(disk, root + relative).value
  {
    var relative := Accepted(disk, root, value, allowRoot).value;
    PartsCheckIsPhysical(disk, root, relative);
    PlainBelowRoot(disk, root, relative);
  }

  /** The escape check refuses nothing that the loop over the parts would let through. */
  lemma EscapeCrossesLink(disk: Disk, root: Path, relative: Path)
    requires Resolved(disk, root).Some? && ".." !in relative
    requires Resolved(disk, root + relative).None? ||
             !(Resolved(disk, root).value <= Resolved(disk, root + relative).value)
    ensures exists k :: 0 < k <= |relative| && IsSymlink(disk, root + relative[..k])
  {
    PartsCheckIsPhysical(disk, root, relative);
    if PartsAreReal(disk, root, relative) {
      PlainBelowRoot(disk, root, relative);
      assert false;
    }
  }

  /** `t` is what lies below the server root on `disk`, as far as symbolic links go. */
  ghost predicate IsTreeAt(disk: Disk, base: Path, t: Tree) {
    forall p :: p != [] ==> ((p in t && t[p].Link?) <==> IsLinkAt(disk, base + p))
  }

  /** The check on the tree alone, without resolving anything, accepts the same paths as the one on the disk. */
  lemma TreeCheckAgrees(disk: Disk, root: Path, t: Tree, value: string, allowRoot: bool)
    requires Resolved(disk, root).Some? && !IsSymlink(disk, root)
    requires IsTreeAt(disk, Resolved(disk, root).value, t)
    ensures Accepted(disk, root, value, allowRoot).Ok? <==> Resolve(t, value, allowRoot).Ok?
    ensures Resolve(t, value, allowRoot).Ok? ==>
              Accepted(disk, root, value, allowRoot).value == Resolve(t, value, allowRoot).value
  {
    if RelativePath(value).Ok? {
      var relative := RelativePath(value).value;
      RelativePathParts(value);
      TreeCrossesAgrees(disk, root, t, relative);
      if !CrossesLink(t, relative) {
        AcceptedIfReal(disk, root, value, allowRoot);
      }
    }
  }

  /** With no link on the way only the trash rule and the rule about the root itself are left. */
  lemma AcceptedIfReal(disk: Disk, root: Path, value: string, allowRoot: bool)
    requires RelativePath(value).Ok? && Resolved(disk, root).Some? && !IsSymlink(disk, root)
    requires var relative := RelativePath(value).value;
             && PartsAreReal(disk, root, relative)
             && Resolved(disk, root + relative) == Some(Resolved(disk, root).value + relative)
    ensures var relative := RelativePath(value).value;
            Accepted(disk, root, value, allowRoot) ==
              if relative != [] && relative[0] == TRASH then Err(Managed)
              else if !allowRoot && relative == [] then Err(RootItself)
              else Ok(relative)
  {
    var relative := RelativePath(value).value;
    var base := Resolved(disk, root).value;
    if relative == [] {
      assert base + relative == base;
    } else {
      assert base <= base + relative && |base + relative| != |base|;
    }
  }

  /**
    * Accepted, as its parts, is exactly a path that can be read, below a root that is no link and resolves, not in
    * the trash, without a link among its parts, and not the root itself where that is not allowed: the escape check
    * adds nothing.
    */
  lemma AcceptedExactly(disk: Disk, root: Path, value: string, allowRoot: bool, relative: Path)
    ensures Accepted(disk, root, value, allowRoot) == Ok(relative) <==>
              && !IsSymlink(disk, root) && Resolved(disk, root).Some?
              && RelativePath(value) == Ok(relative)
              && (relative == [] || relative[0] != ".trash")
              && (forall k :: 0 < k <= |relative| ==> !IsSymlink(disk, root + relative[..k]))
              && (allowRoot || relative != [])
  {
    if RelativePath(value).Ok? && Resolved(disk, root).Some? && !IsSymlink(disk, root)
       && PartsAreReal(disk, root, RelativePath(value).value)
    {
      RelativePathParts(value);
      PartsCheckIsPhysical(disk, root, RelativePath(value).value);
      PlainBelowRoot(disk, root, RelativePath(value).value);
      AcceptedIfReal(disk, root, value, allowRoot);
    }
  }

  lemma TreeCrossesAgrees(disk: Disk, root: Path, t: Tree, relative: Path)
    requires Resolved(disk, root).Some? && ".." !in relative
    requires IsTreeAt(disk, Resolved(disk, root).value, t)
    ensures CrossesLink(t, relative) <==> !PartsAreReal(disk, root, relative)
    ensures !CrossesLink(t, relative) ==>
              Resolved(disk, root + relative) == Some(Resolved(disk, root).value + relative)
  {
    var base := Resolved(disk, root).value;
    PartsCheckIsPhysical(disk, root, relative);
    forall k | 0 < k <= |relative|
      ensures IsLinkAt(disk, base + relative[..k]) <==> relative[..k] in t && t[relative[..k]].Link?
    {
      assert relative[..k] != [];
    }
    if NoLinksBelow(disk, base, relative) {
      PlainBelowRoot(disk, root, relative);
    }
  }

  /** While a restore fills its staging directory without links, the check on each destination cannot fail. */
  lemma StagingCheckHolds(disk: Disk, staging: Path, relative: Path)
    requires Resolved(disk, staging).Some? && ".." !in relative
    requires forall p :: p != [] ==> !IsLinkAt(disk, Resolved(disk, staging).value + p)
    ensures Resolved(disk, staging + relative).Some?
    ensures Resolved(disk, staging).value <= Resolved(disk, staging + relative).value
  {
    assert forall k :: 0 < k <= |relative| ==> relative[..k] != [];
    PlainBelowRoot(disk, staging, relative);
  }
}
