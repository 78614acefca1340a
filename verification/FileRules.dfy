/** The rules of `file_service.py` for naming something in a server directory. */
module FileRules {
  import opened Common
  import opened Paths
  import opened Trees

  datatype FileError =
    | InvalidFilePath
    | InvalidFileName
    | ManagedByPanel
    | LinksNotSupported
    | RootNotAllowed
    | DoesNotExist
    | AlreadyExists
    | DuplicatePaths
    | IntoItself
    | NotAnArchive
    | TooManyEntries
    | TooLarge
    | CallFailed

  /** Some component on the way to `p`, or `p` itself, is a symbolic link. */
  predicate CrossesLink(t: Tree, p: Path) {
    exists k :: 0 < k <= |p| && p[..k] in t && t[p[..k]].Link?
  }

  /**
    * `resolve_server_path` on the parts of the path. The separate escape check is left out here: a path
    * that escapes crosses a link, as `Resolution.AcceptedStaysBelowRoot` shows, so it is refused anyway.
    */
  function ResolveParts(t: Tree, p: Path, allowRoot: bool): Result<Path, FileError> {
    if p != [] && p[0] == TRASH then Err(ManagedByPanel)
    else if CrossesLink(t, p) then Err(LinksNotSupported)
    else if !allowRoot && p == [] then Err(RootNotAllowed)
    else Ok(p)
  }

  /** `resolve_server_path` */
  function Resolve(t: Tree, value: string, allowRoot: bool): Result<Path, FileError> {
    match RelativePath(value)
    case Err(_) => Err(InvalidFilePath)
    case Ok(p) => ResolveParts(t, p, allowRoot)
  }

  /** The way to `p` is open: not through the panel's trash, and not across a link. */
  predicate IsOpenWay(t: Tree, p: Path) {
    (p == [] || p[0] != ".trash") && !CrossesLink(t, p)
  }

  /**
    * A path is accepted, as its parts, exactly if it can be read, its way is open, and it is not the root where
    * that is not allowed.
    */
  lemma ResolvesExactly(t: Tree, value: string, allowRoot: bool, p: Path)
    ensures Resolve(t, value, allowRoot) == Ok(p) <==>
            RelativePath(value) == Ok(p) && IsOpenWay(t, p) && (allowRoot || p != [])
  {
  }
}
