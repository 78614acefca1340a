/** A server directory as a finite tree, and the two primitives the archive code is built on: `os.walk` and `mkdir`. */
module Trees {
  import opened Common
  import opened Paths
  import opened Sequences

  type Content = seq<bv8>

  datatype Node =
    | File(content: Content, mode: nat)
    | Dir
    | Link(target: string, toDirectory: bool)  // toDirectory: what `is_dir()` says through the link

  /** Every path below the root with what is there; the root directory itself is implicit. */
  type Tree = map<Path, Node>

  predicate IsDirAt(t: Tree, p: Path) {
    p == [] || (p in t && t[p].Dir?)
  }

  /** `p` has a name a directory can hold, and what it lies in is a directory. */
  predicate HasPlace(t: Tree, p: Path) {
    p != [] && IsEntryName(Last(p)) && IsDirAt(t, Parent(p))
  }

  predicate WellFormed(t: Tree) {
    forall p {:trigger HasPlace(t, p)} :: p in t ==> HasPlace(t, p)
  }

  /** `t` holds nothing that `u` does not hold in the same way. */
  predicate IsSubtree(t: Tree, u: Tree) {
    forall p :: p in t ==> p in u && u[p] == t[p]
  }

  lemma {:induction false} AncestorIsDir(t: Tree, p: Path, k: nat)
    requires WellFormed(t) && k < |p| && (p in t || IsDirAt(t, p))
    ensures IsDirAt(t, p[..k])
    decreases |p|
  {
    assert HasPlace(t, p);
    if k < |p| - 1 {
      AncestorIsDir(t, Parent(p), k);
      assert Parent(p)[..k] == p[..k];
    } else {
      assert Parent(p) == p[..k];
    }
  }

  lemma {:induction false} NamesOfPath(t: Tree, p: Path)
    requires WellFormed(t) && p in t
    ensures forall i :: 0 <= i < |p| ==> IsEntryName(p[i])
    ensures AllParts(p) && ".." !in p
    decreases |p|
  {
    assert HasPlace(t, p);
    var q := Parent(p);
    if q != [] {
      NamesOfPath(t, q);
    }
    forall i | 0 <= i < |p| ensures IsEntryName(p[i]) {
      if i < |q| { assert q[i] == p[i]; }
    }
  }

  // ------------------------------------------------------------------
  // os.walk
  // ------------------------------------------------------------------

  /** `names` is one listing of the directory `d`, in whatever order the file system gives it. */
  ghost predicate Lists(t: Tree, d: Path, names: seq<Name>) {
    Distinct(names) && forall n :: n in names <==> d + [n] in t
  }

  ghost predicate IsScan(t: Tree, scan: Path -> seq<Name>) {
    forall d {:trigger Lists(t, d, scan(d))} :: IsDirAt(t, d) ==> Lists(t, d, scan(d))
  }

  predicate LooksLikeDirectory(n: Node) {
    n.Dir? || (n.Link? && n.toDirectory)
  }

  /** One tuple `os.walk` yields, after the caller has pruned `directories`. */
  datatype Visit = Visit(current: Path, directories: seq<Name>, files: seq<Name>)

  /** `d` is reached from `top` through real directories the caller kept. */
  ghost predicate Reached(t: Tree, top: Path, keep: Path -> bool, d: Path)
    decreases |d|
  {
    IsDirAt(t, d) &&
    (d == top || (IsBelow(top, d) && keep(d) && Reached(t, top, keep, Parent(d))))
  }

  ghost predicate IsVisit(t: Tree, keep: Path -> bool, v: Visit) {
    && Distinct(v.directories) && Distinct(v.files)
    && (forall n :: n in v.directories <==>
         v.current + [n] in t && LooksLikeDirectory(t[v.current + [n]]) && keep(v.current + [n]))
    && (forall n :: n in v.files <==>
         v.current + [n] in t && !LooksLikeDirectory(t[v.current + [n]]))
  }

  /** Every reached directory comes up exactly once, and nothing else does. */
  ghost predicate IsWalk(t: Tree, top: Path, keep: Path -> bool, order: seq<Path>) {
    && Distinct(order)
    && forall d :: d in order <==> Reached(t, top, keep, d)
  }

  lemma {:induction false} ReachedAncestor(t: Tree, top: Path, keep: Path -> bool, d: Path, k: nat)
    requires Reached(t, top, keep, d) && |top| <= k <= |d|
    ensures Reached(t, top, keep, d[..k])
    decreases |d|
  {
    if k == |d| {
      assert d[..k] == d;
    } else {
      ReachedAncestor(t, top, keep, Parent(d), k);
      assert Parent(d)[..k] == d[..k];
    }
  }

  /** The subdirectories to push, last one first; links are listed but not followed. */
  function Descend(t: Tree, current: Path, names: seq<Name>): seq<Path> {
    if names == [] then []
    else
      var p := current + [names[0]];
      Descend(t, current, names[1..]) + (if p in t && t[p].Link? then [] else [p])
  }

  lemma {:induction false} DescendMembers(t: Tree, current: Path, names: seq<Name>)
    requires Distinct(names)
    ensures forall p :: p in Descend(t, current, names) <==>
              p != [] && Parent(p) == current && Last(p) in names && !(p in t && t[p].Link?)
    ensures Distinct(Descend(t, current, names))
  {
    if names != [] {
      DistinctTail(names);
      DescendMembers(t, current, names[1..]);
      var p := current + [names[0]];
      assert names == [names[0]] + names[1..];
      assert Parent(p) == current && Last(p) == names[0];
      forall q | q != [] && Parent(q) == current && Last(q) == names[0] ensures q == p {
        assert q == Parent(q) + [Last(q)];
      }
    }
  }

  /** The names of one listing that go to `directories` (wanted) or to `files` (not wanted). */
  function Select(t: Tree, current: Path, names: seq<Name>, wanted: bool): seq<Name> {
    if names == [] then []
    else
      var p := current + [names[0]];
      (if p in t && LooksLikeDirectory(t[p]) == wanted then [names[0]] else [])
        + Select(t, current, names[1..], wanted)
  }

  /** `directories[:] = [name for name in directories if keep(current / name)]` */
  function Prune(keep: Path -> bool, current: Path, names: seq<Name>): seq<Name> {
    if names == [] then []
    else (if keep(current + [names[0]]) then [names[0]] else []) + Prune(keep, current, names[1..])
  }

  lemma {:induction false} SelectMembers(t: Tree, current: Path, names: seq<Name>, wanted: bool)
    ensures forall n :: n in Select(t, current, names, wanted) <==>
              n in names && current + [n] in t && LooksLikeDirectory(t[current + [n]]) == wanted
    ensures Distinct(names) ==> Distinct(Select(t, current, names, wanted))
  {
    if names != [] {
      SelectMembers(t, current, names[1..], wanted);
      assert names == [names[0]] + names[1..];
      if Distinct(names) {
        DistinctTail(names);
      }
    }
  }

  lemma {:induction false} PruneMembers(keep: Path -> bool, current: Path, names: seq<Name>)
    ensures forall n :: n in Prune(keep, current, names) <==> n in names && keep(current + [n])
    ensures Distinct(names) ==> Distinct(Prune(keep, current, names))
  {
    if names != [] {
      PruneMembers(keep, current, names[1..]);
      assert names == [names[0]] + names[1..];
      if Distinct(names) {
        DistinctTail(names);
      }
    }
  }

  /** What `os.walk` yields for one directory. */
  function VisitAt(t: Tree, scan: Path -> seq<Name>, keep: Path -> bool, current: Path): Visit {
    var directories := Select(t, current, scan(current), true);
    Visit(current, Prune(keep, current, directories), Select(t, current, scan(current), false))
  }

  lemma VisitAtIsVisit(t: Tree, scan: Path -> seq<Name>, keep: Path -> bool, current: Path)
    requires IsScan(t, scan) && IsDirAt(t, current)
    ensures IsVisit(t, keep, VisitAt(t, scan, keep, current))
  {
    var names := scan(current);
    assert Lists(t, current, names);
    SelectMembers(t, current, names, true);
    SelectMembers(t, current, names, false);
    PruneMembers(keep, current, Select(t, current, names, true));
  }

  ghost function ReachedSet(t: Tree, top: Path, keep: Path -> bool): set<Path> {
    set d | d in t.Keys + {[]} && Reached(t, top, keep, d)
  }

  /** The paths pushed for a visited directory are exactly the reached directories right below it. */
  lemma DescendIsReached(t: Tree, scan: Path -> seq<Name>, top: Path, keep: Path -> bool, current: Path, n: Name)
    requires IsScan(t, scan) && Reached(t, top, keep, current)
    ensures var v := VisitAt(t, scan, keep, current);
            current + [n] in Descend(t, current, v.directories) <==>
            current + [n] in ReachedSet(t, top, keep) && current + [n] != top
  {
    VisitAtIsVisit(t, scan, keep, current);
    var v := VisitAt(t, scan, keep, current);
    DescendMembers(t, current, v.directories);
    ReachedBelowTop(t, top, keep, current);
    var p := current + [n];
    assert Parent(p) == current && Last(p) == n;
    assert n in v.directories <==> p in t && LooksLikeDirectory(t[p]) && keep(p);
    assert p in ReachedSet(t, top, keep) <==> Reached(t, top, keep, p);
  }

  // The stack discipline, over the set of reached directories alone.

  ghost predicate Unrelated(p: Path, q: Path) {
    !(p <= q) && !(q <= p)
  }

  ghost predicate StackOk(reach: set<Path>, stack: seq<Path>) {
    && (forall i :: 0 <= i < |stack| ==> stack[i] in reach)
    && (forall i, j {:trigger Unrelated(stack[i], stack[j])} ::
         0 <= i < j < |stack| ==> Unrelated(stack[i], stack[j]))
  }

  ghost predicate NothingSeenBelow(stack: seq<Path>, seen: seq<Path>) {
    forall i, j :: 0 <= i < |stack| && 0 <= j < |seen| ==> !(stack[i] <= seen[j])
  }

  ghost predicate Covered(reach: set<Path>, stack: seq<Path>, seen: seq<Path>) {
    forall d :: d in reach ==> d in seen || exists i :: 0 <= i < |stack| && stack[i] <= d
  }

  ghost predicate IsChildren(reach: set<Path>, current: Path, children: seq<Path>) {
    && Distinct(children)
    && forall i :: 0 <= i < |children| ==>
         children[i] in reach && children[i] != [] && Parent(children[i]) == current
  }

  lemma StackStep(reach: set<Path>, stack: seq<Path>, seen: seq<Path>, children: seq<Path>)
    requires stack != [] && StackOk(reach, stack) && NothingSeenBelow(stack, seen)
    requires IsChildren(reach, stack[|stack| - 1], children)
    ensures StackOk(reach, stack[..|stack| - 1] + children)
    ensures NothingSeenBelow(stack[..|stack| - 1] + children, seen + [stack[|stack| - 1]])
  {
    var rest, cur := stack[..|stack| - 1], stack[|stack| - 1];
    var stack' := rest + children;
    forall i, j | 0 <= i < j < |stack'| ensures Unrelated(stack'[i], stack'[j]) {
      if j >= |rest| {
        var c := children[j - |rest|];
        assert cur <= c && |c| == |cur| + 1;
        if i < |rest| {
          assert Unrelated(stack[i], cur);
        } else {
          var b := children[i - |rest|];
          assert |b| == |c| && b != c;
        }
      }
    }
    var seen' := seen + [cur];
    forall i, j | 0 <= i < |stack'| && 0 <= j < |seen'| ensures !(stack'[i] <= seen'[j]) {
      if i < |rest| {
        if j == |seen| { assert Unrelated(stack[i], cur); }
      } else {
        var c := children[i - |rest|];
        assert cur <= c && |c| == |cur| + 1;
        if j < |seen| { assert !(cur <= seen[j]); }
      }
    }
  }

  lemma CoverStep(reach: set<Path>, stack: seq<Path>, seen: seq<Path>, children: seq<Path>)
    requires stack != [] && Covered(reach, stack, seen)
    requires var cur := stack[|stack| - 1];
             forall d :: d in reach && IsBelow(cur, d) ==> d[..|cur| + 1] in children
    ensures Covered(reach, stack[..|stack| - 1] + children, seen + [stack[|stack| - 1]])
  {
    var rest, cur := stack[..|stack| - 1], stack[|stack| - 1];
    var stack' := rest + children;
    forall d | d in reach
      ensures d in seen + [cur] || exists i :: 0 <= i < |stack'| && stack'[i] <= d
    {
      if d !in seen {
        var i :| 0 <= i < |stack| && stack[i] <= d;
        if i < |rest| {
          assert stack'[i] <= d;
        } else if d != cur {
          var c := d[..|cur| + 1];
          var k :| 0 <= k < |children| && children[k] == c;
          assert stack'[|rest| + k] <= d;
        }
      }
    }
  }

  lemma PushedAreChildren(t: Tree, scan: Path -> seq<Name>, top: Path, keep: Path -> bool, cur: Path)
    requires IsScan(t, scan) && Reached(t, top, keep, cur)
    ensures IsChildren(ReachedSet(t, top, keep), cur, Descend(t, cur, VisitAt(t, scan, keep, cur).directories))
  {
    VisitAtIsVisit(t, scan, keep, cur);
    var directories := VisitAt(t, scan, keep, cur).directories;
    DescendMembers(t, cur, directories);
    var children := Descend(t, cur, directories);
    forall i | 0 <= i < |children|
      ensures children[i] in ReachedSet(t, top, keep) && children[i] != [] && Parent(children[i]) == cur
    {
      assert children[i] in children;
      assert children[i] == cur + [Last(children[i])];
      DescendIsReached(t, scan, top, keep, cur, Last(children[i]));
    }
  }

  lemma PushedLeadTo(t: Tree, scan: Path -> seq<Name>, top: Path, keep: Path -> bool, cur: Path, d: Path)
    requires IsScan(t, scan) && Reached(t, top, keep, cur)
    requires Reached(t, top, keep, d) && IsBelow(cur, d)
    ensures d[..|cur| + 1] in Descend(t, cur, VisitAt(t, scan, keep, cur).directories)
  {
    var n := NextReached(t, top, keep, cur, d);
    DescendIsReached(t, scan, top, keep, cur, n);
  }

  /** The next directory on the way from `cur` down to `d`. */
  lemma NextReached(t: Tree, top: Path, keep: Path -> bool, cur: Path, d: Path) returns (n: Name)
    requires Reached(t, top, keep, cur) && Reached(t, top, keep, d) && IsBelow(cur, d)
    ensures d[..|cur| + 1] == cur + [n] && cur + [n] != top && cur + [n] in ReachedSet(t, top, keep)
  {
    ReachedBelowTop(t, top, keep, cur);
    ReachedAncestor(t, top, keep, d, |cur| + 1);
    n := d[|cur|];
    assert d[..|cur| + 1] == cur + [n];
  }

  lemma VisitStep(t: Tree, scan: Path -> seq<Name>, top: Path, keep: Path -> bool, stack: seq<Path>, seen: seq<Path>)
    requires WellFormed(t) && IsScan(t, scan)
    requires var reach := ReachedSet(t, top, keep);
             stack != [] && StackOk(reach, stack) && NothingSeenBelow(stack, seen) && Covered(reach, stack, seen)
    ensures var reach, cur := ReachedSet(t, top, keep), stack[|stack| - 1];
            var stack' := stack[..|stack| - 1] + Descend(t, cur, VisitAt(t, scan, keep, cur).directories);
            StackOk(reach, stack') && NothingSeenBelow(stack', seen + [cur]) && Covered(reach, stack', seen + [cur])
  {
    var reach, cur := ReachedSet(t, top, keep), stack[|stack| - 1];
    var v := VisitAt(t, scan, keep, cur);
    var children := Descend(t, cur, v.directories);
    assert Reached(t, top, keep, cur);
    PushedAreChildren(t, scan, top, keep, cur);
    forall d | d in reach && IsBelow(cur, d) ensures d[..|cur| + 1] in children {
      PushedLeadTo(t, scan, top, keep, cur, d);
    }
    StackStep(reach, stack, seen, children);
    CoverStep(reach, stack, seen, children);
  }

  lemma ReachedBelowTop(t: Tree, top: Path, keep: Path -> bool, d: Path)
    requires Reached(t, top, keep, d)
    ensures top <= d
  {
  }

  /**
    * `os.walk(top, topdown=True, followlinks=False)` with `directories[:]` cut down to the names `keep`
    * accepts: the directories in the order it yields them. `VisitAt` is what it yields for each.
    */
  method Walk(t: Tree, top: Path, scan: Path -> seq<Name>, keep: Path -> bool) returns (order: seq<Path>)
    requires WellFormed(t) && IsScan(t, scan) && IsDirAt(t, top)
    ensures IsWalk(t, top, keep, order)
  {
    order := [];
    var stack := [top];
    WalkStart(t, top, keep);
    while stack != []
      invariant WalkInvariant(ReachedSet(t, top, keep), stack, order)
      decreases ReachedSet(t, top, keep) - Members(order)
    {
      var current := stack[|stack| - 1];
      ghost var stack0, order0 := stack, order;
      stack := stack[..|stack| - 1] + Descend(t, current, VisitAt(t, scan, keep, current).directories);
      order := order + [current];
      WalkStep(t, scan, top, keep, stack0, order0, stack, order);
    }
    WalkDone(t, top, keep, order);
  }

  ghost function Members(s: seq<Path>): set<Path> {
    set p | p in s
  }

  ghost predicate WalkInvariant(reach: set<Path>, stack: seq<Path>, seen: seq<Path>) {
    && StackOk(reach, stack) && NothingSeenBelow(stack, seen) && Covered(reach, stack, seen)
    && Distinct(seen) && Members(seen) <= reach
  }

  lemma WalkStart(t: Tree, top: Path, keep: Path -> bool)
    requires IsDirAt(t, top)
    ensures top in ReachedSet(t, top, keep) && Covered(ReachedSet(t, top, keep), [top], [])
  {
    forall d | d in ReachedSet(t, top, keep) ensures [top][0] <= d {
      ReachedBelowTop(t, top, keep, d);
    }
  }

  lemma WalkStep(
    t: Tree, scan: Path -> seq<Name>, top: Path, keep: Path -> bool,
    stack: seq<Path>, seen: seq<Path>, stack': seq<Path>, seen': seq<Path>)
    requires WellFormed(t) && IsScan(t, scan)
    requires stack != [] && WalkInvariant(ReachedSet(t, top, keep), stack, seen)
    requires var current := stack[|stack| - 1];
             && stack' == stack[..|stack| - 1] + Descend(t, current, VisitAt(t, scan, keep, current).directories)
             && seen' == seen + [current]
    ensures ReachedSet(t, top, keep) - Members(seen') < ReachedSet(t, top, keep) - Members(seen)
    ensures WalkInvariant(ReachedSet(t, top, keep), stack', seen')
  {
    var current := stack[|stack| - 1];
    VisitStep(t, scan, top, keep, stack, seen);
    forall j | 0 <= j < |seen| ensures seen[j] != current {
      assert !(stack[|stack| - 1] <= seen[j]);
    }
    assert Members(seen') == Members(seen) + {current};
    assert current in ReachedSet(t, top, keep) - Members(seen);
  }

  lemma WalkDone(t: Tree, top: Path, keep: Path -> bool, order: seq<Path>)
    requires WalkInvariant(ReachedSet(t, top, keep), [], order)
    ensures IsWalk(t, top, keep, order)
  {
    forall d ensures d in order <==> Reached(t, top, keep, d) {
      assert d in order ==> d in Members(order);
      assert Reached(t, top, keep, d) ==> d in ReachedSet(t, top, keep);
    }
  }

  // ------------------------------------------------------------------
  // mkdir
  // ------------------------------------------------------------------

  /** `root.joinpath(*p).mkdir(parents=True, exist_ok=True)`; None where it raises. */
  function MakeDirs(t: Tree, p: Path): Option<Tree>
    decreases |p|
  {
    if p == [] then Some(t)
    else if p in t then (if t[p].Dir? then Some(t) else None)
    else
      match MakeDirs(t, Parent(p))
      case None => None
      case Some(u) => Some(u[p := Dir])
  }

  /** All non-root prefixes of `p`, itself included. */
  function Prefixes(p: Path): set<Path> {
    set k | 0 < k <= |p| :: p[..k]
  }

  lemma {:induction false} PrefixesStep(p: Path)
    requires p != []
    ensures Prefixes(p) == Prefixes(Parent(p)) + {p}
  {
    forall q | q in Prefixes(p) ensures q in Prefixes(Parent(p)) + {p} {
      var k :| 0 < k <= |p| && q == p[..k];
      if k < |p| { assert q == Parent(p)[..k]; } else { assert q == p; }
    }
    forall q | q in Prefixes(Parent(p)) + {p} ensures q in Prefixes(p) {
      if q == p {
        assert q == p[..|p|];
      } else {
        var k :| 0 < k <= |Parent(p)| && q == Parent(p)[..k];
        assert q == p[..k];
      }
    }
  }

  /** `mkdir -p` keeps what is there and adds exactly the missing prefixes, as directories. */
  lemma {:induction false} MakeDirsAdds(t: Tree, p: Path)
    requires WellFormed(t) && MakeDirs(t, p).Some?
    requires forall i :: 0 <= i < |p| ==> IsEntryName(p[i])
    ensures var u := MakeDirs(t, p).value;
            && WellFormed(u) && IsSubtree(t, u) && IsDirAt(u, p)
            && u.Keys == t.Keys + Prefixes(p)
            && forall q :: q in u && q !in t ==> u[q].Dir?
    decreases |p|
  {
    if p == [] {
      assert Prefixes(p) == {};
    } else if p in t {
      PrefixesAreThere(t, p);
    } else {
      PrefixesStep(p);
      MakeDirsAdds(t, Parent(p));
      MakeDirsAddsOne(t, MakeDirs(t, Parent(p)).value, p);
    }
  }

  lemma MakeDirsAddsOne(t: Tree, u: Tree, p: Path)
    requires p != [] && p !in t && IsEntryName(Last(p))
    requires WellFormed(u) && IsSubtree(t, u) && IsDirAt(u, Parent(p))
    requires u.Keys == t.Keys + Prefixes(Parent(p))
    requires forall q :: q in u && q !in t ==> u[q].Dir?
    requires Prefixes(p) == Prefixes(Parent(p)) + {p}
    ensures var v := u[p := Dir];
            && WellFormed(v) && IsSubtree(t, v) && IsDirAt(v, p)
            && v.Keys == t.Keys + Prefixes(p)
            && forall q :: q in v && q !in t ==> v[q].Dir?
  {
    var v := u[p := Dir];
    forall q | q in v ensures HasPlace(v, q) {
      assert q != p ==> HasPlace(u, q);
    }
  }

  lemma PrefixesAreThere(t: Tree, p: Path)
    requires WellFormed(t) && p in t
    ensures t.Keys + Prefixes(p) == t.Keys
  {
    forall q | q in Prefixes(p) ensures q in t {
      PrefixIsThere(t, p, q);
    }
  }

  lemma PrefixIsThere(t: Tree, p: Path, q: Path)
    requires WellFormed(t) && p in t && q in Prefixes(p)
    ensures q in t && (q == p || t[q].Dir?)
  {
    var k :| 0 < k <= |p| && q == p[..k];
    if k < |p| {
      AncestorIsDir(t, p, k);
    } else {
      assert q == p;
    }
  }

  /** `mkdir -p` fails exactly where some prefix is there and is not a directory. */
  lemma {:induction false} MakeDirsFails(t: Tree, p: Path)
    requires WellFormed(t)
    ensures MakeDirs(t, p).None? <==> exists q :: q in Prefixes(p) && q in t && !t[q].Dir?
    decreases |p|
  {
    if p == [] {
    } else if p in t {
      assert p[..|p|] == p;
      assert p in Prefixes(p);
      forall q | q in Prefixes(p) ensures q in t && (q == p || t[q].Dir?) {
        PrefixIsThere(t, p, q);
      }
    } else {
      PrefixesStep(p);
      MakeDirsFails(t, Parent(p));
    }
  }

  /** Making the ancestors of something `u` holds never leaves `u`. */
  lemma {:induction false} MakeDirsWithin(t: Tree, u: Tree, p: Path)
    requires WellFormed(t) && WellFormed(u) && IsSubtree(t, u) && IsDirAt(u, p)
    ensures MakeDirs(t, p).Some?
    ensures var t' := MakeDirs(t, p).value;
            WellFormed(t') && IsSubtree(t, t') && IsSubtree(t', u) && IsDirAt(t', p)
    decreases |p|
  {
    if p != [] && p !in t {
      assert HasPlace(u, p);
      MakeDirsWithin(t, u, Parent(p));
      var t1 := MakeDirs(t, Parent(p)).value;
      var t' := t1[p := Dir];
      forall q | q in t' ensures HasPlace(t', q) {
        assert q != p ==> HasPlace(t1, q);
      }
    }
  }
}
