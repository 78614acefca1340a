/** File names and relative paths, as `pathlib.PurePosixPath` and the panel's own checks read them. */
module Paths {
  import opened Common

  type Name = string

  /** A path below some root, as its parts; the root itself is the empty path. */
  type Path = seq<Name>

  datatype PathError = InvalidPath | InvalidName

  const TRASH: Name := ".trash"

  /** Bytes `str.encode("utf-8")` takes for one character. */
  function Utf8Width(c: char): nat {
    if c as int < 0x80 then 1 else if c as int < 0x800 then 2 else if c as int < 0x10000 then 3 else 4
  }

  function Utf8Length(s: string): nat {
    if s == "" then 0 else Utf8Width(s[0]) + Utf8Length(s[1..])
  }

  /** No backslash and no control character (NUL is one). */
  predicate Printable(s: string) {
    forall i :: 0 <= i < |s| ==> s[i] != '\\' && s[i] as int >= 32
  }

  /** What a POSIX directory can hold as the name of an entry. */
  predicate IsEntryName(n: Name) {
    n != "" && n != "." && n != ".." && '/' !in n && '\0' !in n && Utf8Length(n) <= 255
  }

  /** The panel's `_validate_name`. */
  predicate IsAcceptedName(n: Name) {
    IsEntryName(n) && Printable(n)
  }

  /** A component that `PurePosixPath` keeps as it is. */
  predicate IsPart(n: Name) {
    n != "" && n != "." && '/' !in n
  }

  predicate AllParts(p: Path) {
    forall i :: 0 <= i < |p| ==> IsPart(p[i])
  }

  predicate AllAccepted(p: Path) {
    forall i :: 0 <= i < |p| ==> IsAcceptedName(p[i])
  }

  predicate NoSlash(pieces: seq<string>) {
    forall i :: 0 <= i < |pieces| ==> '/' !in pieces[i]
  }

  predicate AllPrintable(pieces: seq<string>) {
    forall i :: 0 <= i < |pieces| ==> Printable(pieces[i])
  }

  predicate IsAbsolute(s: string) {
    s != "" && s[0] == '/'
  }

  function SplitSlash(s: string): (pieces: seq<string>)
    ensures |pieces| >= 1
  {
    if s == "" then [""]
    else if s[0] == '/' then [""] + SplitSlash(s[1..])
    else
      var rest := SplitSlash(s[1..]);
      [[s[0]] + rest[0]] + rest[1..]
  }

  function DropBlank(pieces: seq<string>): Path {
    if pieces == [] then []
    else if pieces[0] == "" || pieces[0] == "." then DropBlank(pieces[1..])
    else [pieces[0]] + DropBlank(pieces[1..])
  }

  /** `PurePosixPath(s).parts` of a relative path. */
  function Parts(s: string): Path {
    DropBlank(SplitSlash(s))
  }

  /** `PurePosixPath(*p).as_posix()`. */
  function Join(p: Path): string {
    if p == [] then "."
    else if |p| == 1 then p[0]
    else p[0] + "/" + Join(p[1..])
  }

  /** `s.rstrip("/")` */
  function StripSlashes(s: string): string {
    if s != "" && s[|s| - 1] == '/' then StripSlashes(s[..|s| - 1]) else s
  }

  /** The panel's `_relative_path`. */
  function RelativePath(value: string): Result<Path, PathError> {
    if !Printable(value) then Err(InvalidPath)
    else if IsAbsolute(value) || ".." in Parts(value) then Err(InvalidPath)
    else Ok(Parts(value))
  }

  function Parent(p: Path): Path
    requires p != []
  {
    p[..|p| - 1]
  }

  function Last(p: Path): Name
    requires p != []
  {
    p[|p| - 1]
  }

  predicate IsBelow(top: Path, p: Path) {
    top <= p && |top| < |p|
  }

  lemma {:induction false} SplitLeading(n: Name, rest: string)
    requires '/' !in n
    requires rest == "" || rest[0] == '/'
    ensures SplitSlash(n + rest) == [n] + (if rest == "" then [] else SplitSlash(rest[1..]))
  {
    if n == "" {
      assert n + rest == rest;
    } else {
      SplitLeading(n[1..], rest);
      assert (n + rest)[1..] == n[1..] + rest;
      assert [n[0]] + n[1..] == n;
    }
  }

  /** Printing a path and reading it back gives the path. */
  lemma {:induction false} PartsOfJoin(p: Path)
    requires AllParts(p)
    ensures Parts(Join(p)) == p
  {
    if p == [] {
      assert SplitSlash(".") == ["."] by { SplitLeading(".", ""); }
    } else if |p| == 1 {
      assert p[0] + "" == p[0];
      SplitLeading(p[0], "");
      assert SplitSlash(p[0]) == [p[0]] == p && p[1..] == [];
      assert DropBlank(p) == [p[0]] + DropBlank(p[1..]);
    } else {
      PartsOfJoin(p[1..]);
      var rest := "/" + Join(p[1..]);
      assert p[0] + "/" + Join(p[1..]) == p[0] + rest;
      SplitLeading(p[0], rest);
      assert rest[1..] == Join(p[1..]);
      var pieces := SplitSlash(Join(p[1..]));
      assert ([p[0]] + pieces)[1..] == pieces;
    }
  }

  lemma {:induction false} JoinShape(p: Path)
    requires p != [] && AllParts(p)
    ensures Join(p) != "" && Join(p)[0] != '/' && Join(p)[|Join(p)| - 1] != '/'
    ensures AllPrintable(p) ==> Printable(Join(p))
  {
    if |p| == 1 {
    } else {
      JoinShape(p[1..]);
      var tail := Join(p[1..]);
      assert Join(p) == p[0] + "/" + tail;
      assert Join(p)[|Join(p)| - 1] == tail[|tail| - 1];
      if AllPrintable(p) {
        assert forall i :: 0 <= i < |p[1..]| ==> p[1..][i] == p[i + 1];
      }
    }
  }

  /** The panel prints a path it built with `as_posix()` and checks the text again: the check returns that path. */
  lemma RelativePathOfJoin(p: Path)
    requires AllParts(p) && ".." !in p && AllPrintable(p)
    ensures RelativePath(Join(p)) == Ok(p)
  {
    PartsOfJoin(p);
    if p != [] {
      JoinShape(p);
    }
  }

  lemma {:induction false} SplitPieces(s: string)
    ensures NoSlash(SplitSlash(s))
    ensures Printable(s) ==> AllPrintable(SplitSlash(s))
  {
    if s != "" {
      SplitPieces(s[1..]);
      var rest := SplitSlash(s[1..]);
      if s[0] != '/' {
        assert '/' !in [s[0]] + rest[0];
        if Printable(s) {
          assert forall i :: 0 <= i < |s[1..]| ==> s[1..][i] == s[i + 1];
          assert Printable([s[0]] + rest[0]);
        }
      } else if Printable(s) {
        assert forall i :: 0 <= i < |s[1..]| ==> s[1..][i] == s[i + 1];
      }
    }
  }

  lemma {:induction false} DropBlankParts(pieces: seq<string>)
    requires NoSlash(pieces)
    ensures AllParts(DropBlank(pieces))
    ensures AllPrintable(pieces) ==> AllPrintable(DropBlank(pieces))
  {
    if pieces != [] {
      assert forall i :: 0 <= i < |pieces[1..]| ==> pieces[1..][i] == pieces[i + 1];
      DropBlankParts(pieces[1..]);
    }
  }

  /** A path that passes `_relative_path` has clean parts. */
  lemma RelativePathParts(value: string)
    requires RelativePath(value).Ok?
    ensures var p := RelativePath(value).value;
            AllParts(p) && ".." !in p && AllPrintable(p)
  {
    SplitPieces(value);
    DropBlankParts(SplitSlash(value));
  }

  /** A ZIP directory entry ends in one slash, which the reader strips. */
  lemma StripJoinedSlash(p: Path)
    requires p != [] && AllParts(p)
    ensures StripSlashes(Join(p) + "/") == Join(p) && StripSlashes(Join(p)) == Join(p)
  {
    JoinShape(p);
    assert (Join(p) + "/")[..|Join(p)|] == Join(p);
  }

  /** One more character in front. */
  function Grown(c: char, pieces: seq<string>): seq<string>
    requires pieces != []
  {
    if c == '/' then [""] + pieces else [[c] + pieces[0]] + pieces[1..]
  }

  lemma SplitGrown(c: char, s: string)
    ensures SplitSlash([c] + s) == Grown(c, SplitSlash(s))
  {
    assert ([c] + s)[1..] == s;
  }

  lemma GrownConcat(c: char, a: seq<string>, b: seq<string>)
    requires a != []
    ensures Grown(c, a + b) == Grown(c, a) + b
  {
    assert (a + b)[1..] == a[1..] + b;
  }

  lemma {:induction false} SplitAt(a: string, b: string)
    ensures SplitSlash(a + "/" + b) == SplitSlash(a) + SplitSlash(b)
    decreases |a|
  {
    if a == "" {
      assert a + "/" + b == ['/'] + b;
      SplitGrown('/', b);
    } else {
      var c, rest := a[0], a[1..];
      assert a == [c] + rest && a + "/" + b == [c] + (rest + "/" + b);
      SplitAt(rest, b);
      SplitGrown(c, rest);
      SplitGrown(c, rest + "/" + b);
      GrownConcat(c, SplitSlash(rest), SplitSlash(b));
    }
  }

  lemma {:induction false} DropBlankConcat(a: seq<string>, b: seq<string>)
    ensures DropBlank(a + b) == DropBlank(a) + DropBlank(b)
  {
    if a == [] {
      assert a + b == b;
    } else {
      assert (a + b)[1..] == a[1..] + b;
      DropBlankConcat(a[1..], b);
    }
  }

  /** What the parts of any text are: those of what stands before and after a slash, and a name between slashes is one. */
  lemma PartsMeans(a: string, b: string)
    ensures Parts(a + "/" + b) == Parts(a) + Parts(b)
    ensures '/' !in a ==> Parts(a) == if a == "" || a == "." then [] else [a]
  {
    SplitAt(a, b);
    DropBlankConcat(SplitSlash(a), SplitSlash(b));
    if '/' !in a {
      SplitLeading(a, "");
      assert a + "" == a && SplitSlash(a) == [a] && [a][1..] == [];
    }
  }

  /** Stripping takes away slashes at the end, and all of them. */
  lemma {:induction false} StripSlashesMeans(s: string)
    ensures StripSlashes(s) <= s && forall i :: |StripSlashes(s)| <= i < |s| ==> s[i] == '/'
    ensures StripSlashes(s) == "" || StripSlashes(s)[|StripSlashes(s)| - 1] != '/'
  {
    if s != "" && s[|s| - 1] == '/' {
      StripSlashesMeans(s[..|s| - 1]);
    }
  }

  /** Different paths print differently. */
  lemma JoinInjective(p: Path, q: Path)
    requires AllParts(p) && AllParts(q) && Join(p) == Join(q)
    ensures p == q
  {
    PartsOfJoin(p);
    PartsOfJoin(q);
  }

  /** The path `p`, at or below `source`, carried over to `top`. */
  function Rebase(source: Path, top: Path, p: Path): Path {
    top + (if |source| <= |p| then p[|source|..] else [])
  }

  /** Carrying over keeps which path lies below which, and mixes no two up. */
  lemma RebaseInjective(source: Path, top: Path, p: Path, q: Path)
    requires source <= p && source <= q
    ensures Rebase(source, top, p) <= Rebase(source, top, q) <==> p <= q
    ensures Rebase(source, top, p) == Rebase(source, top, q) <==> p == q
  {
    assert p == source + p[|source|..] && q == source + q[|source|..];
    var a, b := p[|source|..], q[|source|..];
    assert Rebase(source, top, p) == top + a && Rebase(source, top, q) == top + b;
    if top + a <= top + b {
      assert a == (top + a)[|top|..] && b == (top + b)[|top|..];
      assert a <= b by {
        assert forall i :: 0 <= i < |a| ==> a[i] == (top + a)[|top| + i] && b[i] == (top + b)[|top| + i];
      }
      assert p <= q by {
        assert forall i :: 0 <= i < |p| ==> p[i] == (source + a)[i] && q[i] == (source + b)[i];
      }
    }
    if p <= q {
      assert a <= b by {
        assert forall i :: 0 <= i < |a| ==> a[i] == p[|source| + i] && b[i] == q[|source| + i];
      }
    }
  }

  lemma Comparable(p: Path, q: Path, whole: Path)
    requires p <= whole && q <= whole
    ensures p <= q || q <= p
  {
  }
}
