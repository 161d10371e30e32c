/** The pruned walk over a source tree, and the fate it gives to every path. */
module ExportWalk {
  import opened Sorting
  import opened SourcePaths
  import opened SourceSelection
  import opened TextFormats
  import opened Wrappers

  datatype Stat = Stat(bytes: nat, mtime: int, inode: nat)

  datatype Node =
    | Dir(entries: map<string, Node>)
    | Link(toDirectory: bool)
    | File(stat: Stat, mode: nat, sqlite: bool)
    | Special

  datatype Source = Source(kind: Kind, selection: Option<Selection>)

  /** Entries of the two lists that the walk returns; the path is `Text(path)`. */
  datatype Listed = Listed(path: seq<string>, stat: Stat, mode: nat)
  datatype Left = Left(path: seq<string>, reason: Reason, stat: Option<Stat>)
  datatype Found = Found(files: seq<Listed>, omissions: seq<Left>)

  predicate OkTree(t: Node) {
    t.Dir? ==> forall n :: n in t.entries ==> IsName(n) && OkTree(t.entries[n])
  }

  /** What the walk lists among the directories: also links that lead to one. */
  predicate LooksLikeDirectory(t: Node) { t.Dir? || (t.Link? && t.toDirectory) }

  function DirNames(t: Node): (names: set<string>)
    requires t.Dir?
    ensures forall n :: n in names <==> n in t.entries && LooksLikeDirectory(t.entries[n])
  {
    set n | n in t.entries && LooksLikeDirectory(t.entries[n])
  }

  function FileNames(t: Node): (names: set<string>)
    requires t.Dir?
    ensures forall n :: n in names <==> n in t.entries && !LooksLikeDirectory(t.entries[n])
  {
    set n | n in t.entries && !LooksLikeDirectory(t.entries[n])
  }

  predicate Within(names: seq<string>, all: set<string>) { forall i :: 0 <= i < |names| ==> names[i] in all }

  // Directories.

  function DirReason(at: seq<string>, t: Node, src: Source): Option<Reason>
    requires at != []
  {
    var scope := SelectionReason(Text(at), src.selection, true);
    if scope.Some? then scope
    else if Excluded(at, src.kind).Some? then Excluded(at, src.kind)
    else if t.Link? then Some(UnresolvedSymlink)
    else None
  }

  /** A child of a profiles directory that is selected without an anchor of its own. */
  predicate IsUnanchored(at: seq<string>, t: Node, s: Selection)
    requires at != []
  {
    SelectionReason(Text(at), Some(s), LooksLikeDirectory(t)) == None &&
    forall i :: 0 <= i < |s.anchors| ==> !Under(s.anchors[i], Text(at))
  }

  /** `check_profile_scope`. */
  function ProfileFault(at: seq<string>, t: Node, src: Source): Option<Failure>
    requires t.Dir?
  {
    match src.selection
    case None => Some(ProfilesNeedSelection)
    case Some(s) =>
      if exists n :: n in t.entries && IsUnanchored(at + [n], t.entries[n], s) then Some(ProfileNeedsAnchor) else None
  }

  function DirFault(at: seq<string>, t: Node, src: Source): Option<Failure>
    requires at != [] && LooksLikeDirectory(t)
  {
    if DirReason(at, t, src) == None && at[|at| - 1] == "profiles" && (src.kind.Hermes? || src.kind.Codex?)
    then ProfileFault(at, t, src) else None
  }

  // Files.

  /** The reason that a file's own path gives. */
  function OwnReason(at: seq<string>, src: Source): Option<Reason>
    requires at != []
  {
    var scope := SelectionReason(Text(at), src.selection, false);
    if scope.Some? then scope else Excluded(at, src.kind)
  }

  predicate HasSidecarSuffix(name: string) { EndsWith(name, "-wal") || EndsWith(name, "-shm") }

  /** The file is read and listed. */
  predicate IsChosen(at: seq<string>, t: Node, name: string, src: Source)
    requires t.Dir?
    decreases |name|, 1
  {
    name in t.entries && t.entries[name].File? && OwnReason(at + [name], src) == None && !IsSidecar(at, t, name, src)
  }

  /** The file belongs to a database beside it that is listed by selection. */
  predicate IsSidecar(at: seq<string>, t: Node, name: string, src: Source)
    requires t.Dir?
    decreases |name|, 0
  {
    src.selection.Some? && HasSidecarSuffix(name) &&
    IsChosen(at, t, name[..|name| - 4], src) && t.entries[name[..|name| - 4]].sqlite
  }

  /** What becomes of a path. */
  datatype Fate =
    | Absent
    | Entered
    | Kept(stat: Stat, mode: nat)
    | Dropped(reason: Reason, info: Option<Stat>)
    | BelowDropped
    | Fails(failure: Failure)

  predicate IsScopeReason(r: Reason) { r.OwnerSelectedOmission? || r.OutsideSelection? }

  function DroppedFile(t: Node, name: string, own: Option<Reason>): Fate {
    var reason := if own.Some? then own.value else if t.Link? then UnresolvedSymlink else UnresolvedSpecialFile;
    Dropped(reason, if t.File? && !EndsWith(name, "-shm") && !IsScopeReason(reason) then Some(t.stat) else None)
  }

  function FileFate(at: seq<string>, t: Node, name: string, src: Source): Fate
    requires t.Dir? && name in t.entries
  {
    var node, path := t.entries[name], at + [name];
    var own := OwnReason(path, src);
    if !IsSafe(Text(path)) then Fails(UnsafePath)
    else if IsSidecar(at, t, name, src) then
      if own.Some? && own.value.OwnerSelectedOmission? then Fails(SidecarConflictsWithSelection)
      else if !node.File? then Fails(SidecarMustBeRegular)
      else DroppedFile(node, name, Some(SqliteSidecar))
    else if own.Some? || !node.File? then DroppedFile(node, name, own)
    else if src.selection.Some? && node.sqlite && !src.selection.value.sqliteOwnership.SameBeing?
    then Fails(SqliteNeedsOwnership)
    else Kept(node.stat, node.mode)
  }

  // The walk.

  const NOTHING := Found([], [])

  function Both(a: Found, b: Found): Found { Found(a.files + b.files, a.omissions + b.omissions) }

  function Combine(a: Result<Found, Failure>, b: Result<Found, Failure>): Result<Found, Failure> {
    if a.Err? then a else if b.Err? then b else Ok(Both(a.value, b.value))
  }

  function EntryOf(path: seq<string>, fate: Fate): Result<Found, Failure> {
    match fate
    case Kept(stat, mode) => Ok(Found([Listed(path, stat, mode)], []))
    case Dropped(reason, stat) => Ok(Found([], [Left(path, reason, stat)]))
    case Fails(f) => Err(f)
    case _ => Ok(NOTHING)
  }

  function DirFate(at: seq<string>, t: Node, src: Source): (fate: Fate)
    requires at != [] && LooksLikeDirectory(t)
    ensures fate.Entered? ==> t.Dir?
  {
    var reason := DirReason(at, t, src);
    if reason.Some? then Dropped(reason.value, None)
    else if DirFault(at, t, src).Some? then Fails(DirFault(at, t, src).value)
    else Entered
  }

  function WalkDirs(at: seq<string>, t: Node, names: seq<string>, src: Source): Result<Found, Failure>
    requires t.Dir? && Within(names, DirNames(t))
  {
    if names == [] then Ok(NOTHING)
    else Combine(EntryOf(at + [names[0]], DirFate(at + [names[0]], t.entries[names[0]], src)),
                 WalkDirs(at, t, names[1..], src))
  }

  function WalkFiles(at: seq<string>, t: Node, names: seq<string>, src: Source): Result<Found, Failure>
    requires t.Dir? && Within(names, FileNames(t))
  {
    if names == [] then Ok(NOTHING)
    else Combine(EntryOf(at + [names[0]], FileFate(at, t, names[0], src)), WalkFiles(at, t, names[1..], src))
  }

  /** One directory: its subdirectories, its files, then what lies below the directories it entered. */
  function Walk(at: seq<string>, t: Node, src: Source): Result<Found, Failure>
    requires t.Dir?
    decreases t, 1
  {
    var dirs := SortedNames(DirNames(t));
    Combine(Combine(WalkDirs(at, t, dirs, src), WalkFiles(at, t, SortedNames(FileNames(t)), src)),
            WalkBelow(at, t, dirs, src))
  }

  function WalkBelow(at: seq<string>, t: Node, names: seq<string>, src: Source): Result<Found, Failure>
    requires t.Dir? && Within(names, DirNames(t))
    decreases t, 0, |names|
  {
    if names == [] then Ok(NOTHING)
    else
      var child := t.entries[names[0]];
      Combine(if DirFate(at + [names[0]], child, src).Entered? then Walk(at + [names[0]], child, src) else Ok(NOTHING),
              WalkBelow(at, t, names[1..], src))
  }

  function PathKey(path: seq<string>): string { if path == [] then "" else Text(path) }

  function ListedKey(l: Listed): string { PathKey(l.path) }

  function LeftKey(o: Left): string { PathKey(o.path) }

  /** Both lists, sorted by path. */
  function InOrder(found: Found): Found {
    Found(SortBy(ListedKey, found.files), SortBy(LeftKey, found.omissions))
  }

  /** `inventory` on a readable root. */
  function Inventory(root: Node, src: Source): Result<Found, Failure> {
    if !root.Dir? then Err(RootMustBeDirectory)
    else if src.selection.Some? && SelectionFault(src.selection.value).Some?
    then Err(SelectionFault(src.selection.value).value)
    else
      match Walk([], root, src)
      case Err(f) => Err(f)
      case Ok(found) => Ok(InOrder(found))
  }

  // The fate of one path, followed down from the root without walking.

  predicate Exists(t: Node, rest: seq<string>) {
    rest == [] || (t.Dir? && rest[0] in t.entries && Exists(t.entries[rest[0]], rest[1..]))
  }

  function FateOf(at: seq<string>, t: Node, rest: seq<string>, src: Source): Fate
    requires t.Dir? && rest != []
    decreases rest
  {
    if !Exists(t, rest) then Absent
    else
      var child, here := t.entries[rest[0]], at + [rest[0]];
      if !LooksLikeDirectory(child) then FileFate(at, t, rest[0], src)
      else if |rest| == 1 then DirFate(here, child, src)
      else if DirFate(here, child, src).Entered? then FateOf(here, child, rest[1..], src)
      else BelowDropped
  }
}
