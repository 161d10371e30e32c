/** The exporter's walk as it runs: two lists and a set of expected sidecars, updated step by step. */
module ExportInventory {
  import opened ExportWalk
  import opened ExportSelected
  import opened Sorting
  import opened SourcePaths
  import opened SourceSelection
  import opened TextFormats
  import opened Wrappers

  function Prepend(done: Found, r: Result<Found, Failure>): Result<Found, Failure> { Combine(Ok(done), r) }

  lemma PrependEntry(done: Found, entry: Found, r: Result<Found, Failure>)
    ensures Prepend(done, Combine(Ok(entry), r)) == Prepend(Both(done, entry), r)
  {
    if r.Ok? {
      assert Both(done, Both(entry, r.value)) == Both(Both(done, entry), r.value);
    }
  }

  lemma PrependNothing(r: Result<Found, Failure>)
    ensures Prepend(NOTHING, r) == r == Combine(r, Ok(NOTHING))
  {
    if r.Ok? {
      assert Both(NOTHING, r.value) == r.value == Both(r.value, NOTHING);
    }
  }

  lemma WithinConcat(a: seq<string>, b: seq<string>, all: set<string>)
    requires Within(a, all) && Within(b, all)
    ensures Within(a + b, all)
  {
  }

  /** A directory that was taken off the list is not walked. */
  lemma {:induction false} SkipRefused(at: seq<string>, t: Node, a: seq<string>, n: string, b: seq<string>, src: Source)
    requires t.Dir? && Within(a, DirNames(t)) && Within([n] + b, DirNames(t))
    requires n in DirNames(t) && !DirFate(at + [n], t.entries[n], src).Entered?
    ensures Within(a + ([n] + b), DirNames(t)) && Within(a + b, DirNames(t))
    ensures WalkBelow(at, t, a + ([n] + b), src) == WalkBelow(at, t, a + b, src)
  {
    hide DirFate, Walk, DirNames;
    assert Within(b, DirNames(t)) by { assert forall i :: 0 <= i < |b| ==> b[i] == ([n] + b)[i + 1]; }
    WithinConcat(a, b, DirNames(t));
    WithinConcat(a, [n] + b, DirNames(t));
    if a == [] {
      assert a + ([n] + b) == [n] + b && a + b == b && ([n] + b)[1..] == b;
      PrependNothing(WalkBelow(at, t, b, src));
    } else {
      assert (a + ([n] + b))[1..] == a[1..] + ([n] + b) && (a + b)[1..] == a[1..] + b;
      SkipRefused(at, t, a[1..], n, b, src);
      assert (a + b)[0] == (a + ([n] + b))[0];
    }
  }

  lemma DirsStep(at: seq<string>, t: Node, dirs: seq<string>, i: int, done: Found, src: Source)
    requires t.Dir? && Within(dirs, DirNames(t)) && 0 <= i < |dirs|
    ensures var path := at + [dirs[i]];
            var fate := DirFate(path, t.entries[dirs[i]], src);
            var all := Prepend(done, WalkDirs(at, t, dirs[i..], src));
            match fate
            case Dropped(reason, _) =>
              all == Prepend(Both(done, Found([], [Left(path, reason, None)])), WalkDirs(at, t, dirs[i + 1..], src))
            case Fails(f) => all == Err(f)
            case _ => all == Prepend(done, WalkDirs(at, t, dirs[i + 1..], src))
  {
    hide DirNames, DirReason, DirFault;
    var path := at + [dirs[i]];
    var fate := DirFate(path, t.entries[dirs[i]], src);
    assert dirs[i..][1..] == dirs[i + 1..];
    if !fate.Fails? {
      PrependEntry(done, EntryOf(path, fate).value, WalkDirs(at, t, dirs[i + 1..], src));
      assert Both(done, NOTHING) == done;
    }
  }

  /** The directories kept so far, together with those to come, lead to the same places. */
  predicate KeptSoFar(at: seq<string>, t: Node, dirs: seq<string>, i: nat, kept: seq<string>, src: Source)
    requires t.Dir? && Within(dirs, DirNames(t)) && i <= |dirs|
  {
    Within(kept, DirNames(t)) && Within(kept + dirs[i..], DirNames(t)) && Distinct(kept) &&
    (forall j :: 0 <= j < |kept| ==> kept[j] in dirs[..i]) &&
    (forall j :: 0 <= j < |kept| ==> DirFate(at + [kept[j]], t.entries[kept[j]], src).Entered?) &&
    WalkBelow(at, t, kept + dirs[i..], src) == WalkBelow(at, t, dirs, src)
  }

  lemma KeepStep(at: seq<string>, t: Node, dirs: seq<string>, i: nat, kept: seq<string>, src: Source)
    requires t.Dir? && Within(dirs, DirNames(t)) && Distinct(dirs) && i < |dirs| && KeptSoFar(at, t, dirs, i, kept, src)
    ensures var entered := DirFate(at + [dirs[i]], t.entries[dirs[i]], src).Entered?;
            KeptSoFar(at, t, dirs, i + 1, if entered then kept + [dirs[i]] else kept, src)
  {
    hide DirNames, DirFate, WalkBelow;
    assert dirs[i..] == [dirs[i]] + dirs[i + 1..] && dirs[..i + 1] == dirs[..i] + [dirs[i]];
    if DirFate(at + [dirs[i]], t.entries[dirs[i]], src).Entered? {
      assert kept + dirs[i..] == (kept + [dirs[i]]) + dirs[i + 1..];
    } else {
      SkipRefused(at, t, kept, dirs[i], dirs[i + 1..], src);
    }
  }

  /** A listed database whose sidecars are expected. */
  predicate IsDatabase(at: seq<string>, t: Node, name: string, src: Source)
    requires t.Dir?
  {
    src.selection.Some? && IsChosen(at, t, name, src) && t.entries[name].sqlite
  }

  predicate IsSidecarOf(name: string, base: string) { name == base + "-wal" || name == base + "-shm" }

  lemma SidecarHasBase(at: seq<string>, t: Node, name: string, base: string, src: Source)
    requires t.Dir? && IsDatabase(at, t, base, src) && IsSidecarOf(name, base)
    ensures IsSidecar(at, t, name, src)
  {
    assert name[..|name| - 4] == base;
  }

  function FileEntry(at: seq<string>, t: Node, name: string, src: Source): Result<Found, Failure>
    requires t.Dir? && name in t.entries
  {
    EntryOf(at + [name], FileFate(at, t, name, src))
  }

  lemma FilesStep(at: seq<string>, t: Node, names: seq<string>, i: int, done: Found, src: Source)
    requires t.Dir? && Within(names, FileNames(t)) && 0 <= i < |names|
    ensures var entry := FileEntry(at, t, names[i], src);
            Prepend(done, WalkFiles(at, t, names[i..], src)) ==
            if entry.Err? then entry else Prepend(Both(done, entry.value), WalkFiles(at, t, names[i + 1..], src))
  {
    hide FileNames, FileFate;
    var entry := FileEntry(at, t, names[i], src);
    assert names[i..][1..] == names[i + 1..];
    if entry.Ok? {
      PrependEntry(done, entry.value, WalkFiles(at, t, names[i + 1..], src));
    }
  }

  /** The expected sidecars below `at` are those of the databases among the first `i` names. */
  ghost predicate Expected(at: seq<string>, t: Node, names: seq<string>, i: nat, paths: set<seq<string>>, src: Source)
    requires t.Dir? && i <= |names|
  {
    forall p :: at < p ==> (p in paths <==> |p| == |at| + 1 && IsExpected(at, t, names, i, p[|at|], src))
  }

  ghost predicate IsExpected(at: seq<string>, t: Node, names: seq<string>, i: nat, name: string, src: Source)
    requires t.Dir? && i <= |names|
  {
    exists j :: 0 <= j < i && IsDatabase(at, t, names[j], src) && IsSidecarOf(name, names[j])
  }

  /** Names come in order, so a database is met before its sidecars and the set decides them. */
  lemma ExpectedAreSidecars(at: seq<string>, t: Node, names: seq<string>, i: nat, src: Source)
    requires t.Dir? && names == SortedNames(FileNames(t)) && i < |names|
    ensures IsExpected(at, t, names, i, names[i], src) <==> IsSidecar(at, t, names[i], src)
  {
    hide OwnReason, Less, SortedNames;
    var name := names[i];
    NamesAscend(FileNames(t));
    if IsExpected(at, t, names, i, name, src) {
      var j :| 0 <= j < i && IsDatabase(at, t, names[j], src) && IsSidecarOf(name, names[j]);
      SidecarHasBase(at, t, name, names[j], src);
    }
    if IsSidecar(at, t, name, src) {
      var base := name[..|name| - 4];
      assert name == base + name[|name| - 4..];
      assert IsChosen(at, t, base, src) && t.entries[base].File?;
      assert base in FileNames(t);
      var j :| 0 <= j < |names| && names[j] == base;
      PrefixIsLess(base, name);
      LessTotal(base, name);
      assert j < i;
      assert IsDatabase(at, t, names[j], src) && IsSidecarOf(name, names[j]);
    }
  }

  lemma ExpectedStep(at: seq<string>, t: Node, names: seq<string>, i: nat, paths: set<seq<string>>, src: Source)
    requires t.Dir? && i < |names| && Expected(at, t, names, i, paths, src)
    ensures Expected(at, t, names, i + 1,
                     if IsDatabase(at, t, names[i], src) then paths + SidecarPaths(at, names[i]) else paths, src)
  {
    hide IsDatabase;
    forall p | at < p
      ensures p in SidecarPaths(at, names[i]) <==> |p| == |at| + 1 && IsSidecarOf(p[|at|], names[i])
    {
      assert |p| == |at| + 1 ==> p == at + [p[|at|]];
    }
    forall name ensures IsExpected(at, t, names, i + 1, name, src) <==>
                        IsExpected(at, t, names, i, name, src)
                        || (IsDatabase(at, t, names[i], src) && IsSidecarOf(name, names[i]))
    {
      if IsExpected(at, t, names, i, name, src) {
        var j :| 0 <= j < i && IsDatabase(at, t, names[j], src) && IsSidecarOf(name, names[j]);
      }
    }
  }

  ghost function Texts(paths: set<seq<string>>): set<string>
    requires forall p :: p in paths ==> p != []
  {
    set p | p in paths :: Text(p)
  }

  lemma TextsOfMore(paths: set<seq<string>>, a: seq<string>, b: seq<string>)
    requires (forall p :: p in paths ==> p != []) && a != [] && b != []
    ensures Texts(paths + {a, b}) == Texts(paths) + {Text(a), Text(b)}
  {
    hide Text;
    var all := paths + {a, b};
    assert a in all && b in all;
    forall p | p in paths ensures Text(p) in Texts(all) {
      assert p in all;
    }
  }

  function SidecarPaths(at: seq<string>, name: string): set<seq<string>> {
    {at + [name + "-wal"], at + [name + "-shm"]}
  }

  class InventoryState {
    const src: Source
    var files: seq<Listed>
    var omissions: seq<Left>
    var sidecars: set<string>
    /** The expected sidecars by their components. */
    ghost var paths: set<seq<string>>

    ghost predicate Valid() reads this`paths, this`sidecars {
      (forall p :: p in paths ==> IsPath(p)) && sidecars == Texts(paths)
    }

    ghost function State(): Found reads this`files, this`omissions { Found(files, omissions) }

    constructor (src: Source)
      ensures Valid() && State() == NOTHING && paths == {} && this.src == src
    {
      this.src := src;
      files, omissions, sidecars, paths := [], [], {}, {};
    }

    lemma Expects(path: seq<string>)
      requires Valid() && IsPath(path)
      ensures Text(path) in sidecars <==> path in paths
    {
      if Text(path) in sidecars {
        var p :| p in paths && Text(p) == Text(path);
        TextInjective(p, path);
      }
    }

    /** The directories of one level: refused ones are recorded and taken off the list. */
    method VisitDirs(at: seq<string>, t: Node) returns (failure: Option<Failure>, kept: seq<string>)
      requires t.Dir?
      modifies this`omissions
      ensures var dirs := SortedNames(DirNames(t));
              var r := WalkDirs(at, t, dirs, src);
              if failure.Some? then r == Err(failure.value)
              else r.Ok? && State() == Both(old(State()), r.value)
                   && Within(kept, DirNames(t)) && Distinct(kept)
                   && (forall i :: 0 <= i < |kept| ==> DirFate(at + [kept[i]], t.entries[kept[i]], src).Entered?)
                   && WalkBelow(at, t, kept, src) == WalkBelow(at, t, dirs, src)
    {
      hide DirNames, DirReason, DirFault, DirFate, WalkDirs, WalkBelow, KeptSoFar, Prepend, Combine, Text;
      var dirs := SortedNames(DirNames(t));
      NamesAscend(DirNames(t));
      kept := [];
      ghost var done := NOTHING;
      StartDirs(at, t, dirs, src);
      assert State() == Both(State(), NOTHING);
      for i := 0 to |dirs|
        invariant State() == Both(old(State()), done)
        invariant WalkDirs(at, t, dirs, src) == Prepend(done, WalkDirs(at, t, dirs[i..], src))
        invariant KeptSoFar(at, t, dirs, i, kept, src)
      {
        var path, node := at + [dirs[i]], t.entries[dirs[i]];
        DirsStep(at, t, dirs, i, done, src);
        KeepStep(at, t, dirs, i, kept, src);
        DirFateParts(path, node, src);
        var reason := DirReason(path, node, src);
        if reason.Some? {
          ghost var entry := Found([], [Left(path, reason.value, None)]);
          done := Both(done, entry);
          omissions := omissions + [Left(path, reason.value, None)];
          assert State() == Both(old(State()), done);
        } else {
          var fault := DirFault(path, node, src);
          if fault.Some? {
            return fault, [];
          }
          kept := kept + [dirs[i]];
        }
      }
      EndDirs(at, t, dirs, kept, done, src);
      failure := None;
    }

    /** The sidecars of a listed database are expected from now on. */
    method Expect(at: seq<string>, name: string)
      requires Valid() && (forall i :: 0 <= i < |at| ==> IsName(at[i])) && IsName(name)
      modifies this`sidecars, this`paths
      ensures Valid() && paths == old(paths) + SidecarPaths(at, name)
    {
      hide Text, Texts;
      TextsOfMore(paths, at + [name + "-wal"], at + [name + "-shm"]);
      sidecars := sidecars + {Text(at + [name]) + "-wal", Text(at + [name]) + "-shm"};
      paths := paths + SidecarPaths(at, name);
      TextSuffix(at, name, "-wal");
      TextSuffix(at, name, "-shm");
    }

    /** Looking a file up among the expected sidecars decides whether it is one. */
    lemma Looks(at: seq<string>, t: Node, names: seq<string>, i: nat)
      requires Valid() && t.Dir? && OkTree(t) && (forall i :: 0 <= i < |at| ==> IsName(at[i]))
      requires names == SortedNames(FileNames(t)) && i < |names| && Expected(at, t, names, i, paths, src)
      ensures Text(at + [names[i]]) in sidecars <==> IsSidecar(at, t, names[i], src)
    {
      hide IsSidecar, IsExpected, Text, SortedNames;
      assert names[i] in t.entries;
      assert IsPath(at + [names[i]]);
      Expects(at + [names[i]]);
      ExpectedAreSidecars(at, t, names, i, src);
    }

    /** What to do with one file. */
    method Judge(at: seq<string>, t: Node, name: string) returns (fate: Fate)
      requires t.Dir? && name in t.entries && !LooksLikeDirectory(t.entries[name])
      requires Text(at + [name]) in sidecars <==> IsSidecar(at, t, name, src)
      ensures fate == FileFate(at, t, name, src)
      ensures (fate.Kept? && t.entries[name].File?) || fate.Dropped? || fate.Fails?
    {
      hide OwnReason, IsSafe, IsSidecar, Text;
      var path, node := at + [name], t.entries[name];
      if !IsSafe(Text(path)) {
        return Fails(UnsafePath);
      }
      var own := OwnReason(path, src);
      var reason := own;
      if Text(path) in sidecars {
        if own.Some? && own.value.OwnerSelectedOmission? {
          return Fails(SidecarConflictsWithSelection);
        }
        if !node.File? {
          return Fails(SidecarMustBeRegular);
        }
        reason := Some(SqliteSidecar);
      }
      if reason.Some? || !node.File? {
        return DroppedFile(node, name, reason);
      }
      if src.selection.Some? && node.sqlite && !src.selection.value.sqliteOwnership.SameBeing? {
        return Fails(SqliteNeedsOwnership);
      }
      fate := Kept(node.stat, node.mode);
    }

    method VisitFile(at: seq<string>, t: Node, name: string) returns (failure: Option<Failure>)
      requires Valid() && t.Dir? && OkTree(t) && (forall i :: 0 <= i < |at| ==> IsName(at[i]))
      requires name in t.entries && !LooksLikeDirectory(t.entries[name])
      requires Text(at + [name]) in sidecars <==> IsSidecar(at, t, name, src)
      modifies this
      ensures Valid()
      ensures var entry := FileEntry(at, t, name, src);
              if failure.Some? then entry == Err(failure.value)
              else entry.Ok? && State() == Both(old(State()), entry.value)
      ensures failure == None ==>
                paths == if IsDatabase(at, t, name, src) then old(paths) + SidecarPaths(at, name) else old(paths)
    {
      hide FileFate, IsDatabase, IsSidecar, Text, SidecarPaths, Valid;
      var path, node := at + [name], t.entries[name];
      assert IsName(name);
      KeptIsDatabase(at, t, name, src);
      var fate := Judge(at, t, name);
      match fate {
        case Fails(f) =>
          return Some(f);
        case Dropped(reason, stat) =>
          omissions := omissions + [Left(path, reason, stat)];
        case Kept(stat, mode) =>
          if src.selection.Some? && node.sqlite {
            Expect(at, name);
          }
          files := files + [Listed(path, stat, mode)];
      }
      failure := None;
    }

    /** The files of one level, in order. */
    method VisitFiles(at: seq<string>, t: Node) returns (failure: Option<Failure>)
      requires Valid() && t.Dir? && OkTree(t) && (forall i :: 0 <= i < |at| ==> IsName(at[i]))
      requires forall p :: p in paths ==> !(at < p)
      modifies this
      ensures Valid()
      ensures var r := WalkFiles(at, t, SortedNames(FileNames(t)), src);
              if failure.Some? then r == Err(failure.value)
              else r.Ok? && State() == Both(old(State()), r.value)
      ensures failure == None ==> forall p :: p in paths ==> p in old(paths) || (at < p && |p| == |at| + 1)
      ensures failure == None ==> old(paths) <= paths
    {
      hide Valid, State, FileNames, FileEntry, IsDatabase, IsSidecar, OkTree, Text, WalkFiles, Prepend, Combine,
          Expected,
        SortedNames, Both;
      var names := SortedNames(FileNames(t));
      ghost var done := NOTHING;
      StartFiles(at, t, names, paths, src);
      BothNothing(State());
      for i := 0 to |names|
        invariant Valid() && State() == Both(old(State()), done)
        invariant WalkFiles(at, t, names, src) == Prepend(done, WalkFiles(at, t, names[i..], src))
        invariant Expected(at, t, names, i, paths, src)
        invariant forall p :: p in paths ==> p in old(paths) || (at < p && |p| == |at| + 1)
        invariant old(paths) <= paths
      {
        FilesStep(at, t, names, i, done, src);
        ExpectedStep(at, t, names, i, paths, src);
        Looks(at, t, names, i);
        failure := VisitFile(at, t, names[i]);
        if failure.Some? {
          return;
        }
        BothAssociates(old(State()), done, FileEntry(at, t, names[i], src).value);
        done := Both(done, FileEntry(at, t, names[i], src).value);
      }
      EndFiles(at, t, names, done, src);
      failure := None;
    }

    /** One directory and all below it. */
    method Visit(at: seq<string>, t: Node) returns (failure: Option<Failure>)
      requires Valid() && t.Dir? && OkTree(t) && (forall i :: 0 <= i < |at| ==> IsName(at[i]))
      requires forall p :: p in paths ==> !(at < p)
      modifies this
      ensures Valid()
      ensures var r := Walk(at, t, src);
              if failure.Some? then r == Err(failure.value)
              else r.Ok? && State() == Both(old(State()), r.value)
      ensures failure == None ==> forall p :: p in paths ==> p in old(paths) || at < p
      decreases t, 1
    {
      hide Valid, State, FileNames, DirNames, OkTree, DirFate, WalkFiles, WalkDirs, WalkBelow, SortedNames, Both,
          IsName;
      var kept;
      failure, kept := VisitDirs(at, t);
      if failure.Some? {
        return;
      }
      ghost var a := WalkDirs(at, t, SortedNames(DirNames(t)), src);
      failure := VisitFiles(at, t);
      if failure.Some? {
        return;
      }
      ghost var b := WalkFiles(at, t, SortedNames(FileNames(t)), src);
      BothAssociates(old(State()), a.value, b.value);
      failure := VisitBelow(at, t, kept, old(paths));
      if failure.Some? {
        return;
      }
      BothAssociates(old(State()), Both(a.value, b.value), WalkBelow(at, t, kept, src).value);
    }

    /** The directories that were kept, one after the other. */
    method VisitBelow(at: seq<string>, t: Node, kept: seq<string>, ghost before: set<seq<string>>)
      returns (failure: Option<Failure>)
      requires Valid() && t.Dir? && OkTree(t) && (forall i :: 0 <= i < |at| ==> IsName(at[i]))
      requires Within(kept, DirNames(t)) && Distinct(kept)
      requires forall i :: 0 <= i < |kept| ==> DirFate(at + [kept[i]], t.entries[kept[i]], src).Entered?
      requires forall p :: p in before ==> !(at < p)
      requires forall p :: p in paths ==> p in before || (at < p && |p| == |at| + 1)
      modifies this
      ensures Valid()
      ensures var r := WalkBelow(at, t, kept, src);
              if failure.Some? then r == Err(failure.value)
              else r.Ok? && State() == Both(old(State()), r.value)
      ensures failure == None ==> forall p :: p in paths ==> p in before || at < p
      decreases t, 0
    {
      hide Valid, State, DirNames, OkTree, DirFate, Walk, WalkBelow, Both, IsName, Combine, Prepend;
      ghost var done := NOTHING;
      BothNothing(State());
      StartBelow(at, t, kept, src);
      for i := 0 to |kept|
        invariant Valid() && State() == Both(old(State()), done)
        invariant WalkBelow(at, t, kept, src) == Prepend(done, WalkBelow(at, t, kept[i..], src))
        invariant OnlyBelow(at, kept, i, paths, before)
      {
        var name := kept[i];
        ChildIsOk(t, name);
        BelowStep(at, t, kept, i, done, src);
        FreshBelow(at, kept, i, paths, before);
        ghost var were := paths;
        failure := Visit(at + [name], t.entries[name]);
        if failure.Some? {
          return;
        }
        ghost var more := Walk(at + [name], t.entries[name], src).value;
        BothAssociates(old(State()), done, more);
        done := Both(done, more);
        StillBelow(at, kept, i, were, paths, before);
      }
      EndBelow(at, t, kept, done, src);
      failure := None;
    }
  }

  /** Apart from what was expected before, only files here or below the first `i` directories are. */
  ghost predicate OnlyBelow(at: seq<string>, kept: seq<string>, i: nat, paths: set<seq<string>>,
      before: set<seq<string>>)
    requires i <= |kept|
  {
    forall p :: p in paths ==> p in before || (at < p && (|p| == |at| + 1 || p[|at|] in kept[..i]))
  }

  lemma BelowHere(at: seq<string>, name: string, p: seq<string>)
    requires at + [name] < p
    ensures at < p && |p| > |at| + 1 && p[|at|] == name
  {
    var here := at + [name];
    assert p[|at|] == here[|at|];
  }

  /** No expected sidecar lies below a directory that is still to be walked. */
  lemma FreshBelow(at: seq<string>, kept: seq<string>, i: nat, paths: set<seq<string>>, before: set<seq<string>>)
    requires i < |kept| && Distinct(kept) && OnlyBelow(at, kept, i, paths, before)
    requires forall p :: p in before ==> !(at < p)
    ensures forall p :: p in paths ==> !(at + [kept[i]] < p)
  {
    forall p | at + [kept[i]] < p ensures at < p && |p| > |at| + 1 && p[|at|] == kept[i] {
      BelowHere(at, kept[i], p);
    }
  }

  lemma StillBelow(at: seq<string>, kept: seq<string>, i: nat, were: set<seq<string>>, paths: set<seq<string>>,
                   before: set<seq<string>>)
    requires i < |kept| && OnlyBelow(at, kept, i, were, before)
    requires forall p :: p in paths ==> p in were || at + [kept[i]] < p
    ensures OnlyBelow(at, kept, i + 1, paths, before)
  {
    assert kept[..i + 1] == kept[..i] + [kept[i]];
    forall p | at + [kept[i]] < p ensures at < p && p[|at|] == kept[i] {
      BelowHere(at, kept[i], p);
    }
  }

  lemma ChildIsOk(t: Node, name: string)
    requires t.Dir? && OkTree(t) && name in t.entries
    ensures IsName(name) && OkTree(t.entries[name])
  {
  }

  lemma StartBelow(at: seq<string>, t: Node, kept: seq<string>, src: Source)
    requires t.Dir? && Within(kept, DirNames(t))
    ensures WalkBelow(at, t, kept, src) == Prepend(NOTHING, WalkBelow(at, t, kept[0..], src))
  {
    hide WalkBelow;
    assert kept[0..] == kept;
    PrependNothing(WalkBelow(at, t, kept, src));
  }

  lemma BelowStep(at: seq<string>, t: Node, kept: seq<string>, i: int, done: Found, src: Source)
    requires t.Dir? && Within(kept, DirNames(t)) && 0 <= i < |kept|
    requires DirFate(at + [kept[i]], t.entries[kept[i]], src).Entered?
    ensures t.entries[kept[i]].Dir?
    ensures var r := Walk(at + [kept[i]], t.entries[kept[i]], src);
            Prepend(done, WalkBelow(at, t, kept[i..], src)) ==
            if r.Err? then r else Prepend(Both(done, r.value), WalkBelow(at, t, kept[i + 1..], src))
  {
    hide DirFate, Walk, DirNames;
    assert kept[i..][1..] == kept[i + 1..];
    var r := Walk(at + [kept[i]], t.entries[kept[i]], src);
    if r.Ok? {
      PrependEntry(done, r.value, WalkBelow(at, t, kept[i + 1..], src));
    }
  }

  lemma EndBelow(at: seq<string>, t: Node, kept: seq<string>, done: Found, src: Source)
    requires t.Dir? && Within(kept, DirNames(t))
    ensures Prepend(done, WalkBelow(at, t, kept[|kept|..], src)) == Ok(done)
  {
    hide DirNames;
    assert kept[|kept|..] == [] && Both(done, NOTHING) == done;
  }

  /** `inventory` from a fresh start. */
  method TakeInventory(root: Node, src: Source) returns (r: Result<Found, Failure>)
    requires OkTree(root)
    ensures r == Inventory(root, src)
  {
    hide Walk, SelectionFault;
    if !root.Dir? {
      return Err(RootMustBeDirectory);
    }
    if src.selection.Some? {
      var fault := SelectionFault(src.selection.value);
      if fault.Some? {
        return Err(fault.value);
      }
    }
    var inventory := new InventoryState(src);
    var failure := inventory.Visit([], root);
    if failure.Some? {
      return Err(failure.value);
    }
    BothNothing(Walk([], root, src).value);
    r := Ok(InOrder(Found(inventory.files, inventory.omissions)));
  }

  lemma BothNothing(a: Found)
    ensures Both(a, NOTHING) == a == Both(NOTHING, a)
  {
  }

  lemma BothAssociates(a: Found, b: Found, c: Found)
    ensures Both(Both(a, b), c) == Both(a, Both(b, c))
  {
  }

  lemma DirFateParts(path: seq<string>, node: Node, src: Source)
    requires path != [] && LooksLikeDirectory(node)
    ensures var fate, reason := DirFate(path, node, src), DirReason(path, node, src);
            if reason.Some? then fate == Dropped(reason.value, None)
            else if DirFault(path, node, src).Some? then fate == Fails(DirFault(path, node, src).value)
            else fate == Entered
  {
    hide DirReason, DirFault;
  }

  lemma StartDirs(at: seq<string>, t: Node, dirs: seq<string>, src: Source)
    requires t.Dir? && Within(dirs, DirNames(t))
    ensures KeptSoFar(at, t, dirs, 0, [], src)
    ensures WalkDirs(at, t, dirs, src) == Prepend(NOTHING, WalkDirs(at, t, dirs[0..], src))
  {
    hide DirFate, DirNames, WalkDirs, WalkBelow;
    assert [] + dirs[0..] == dirs == dirs[0..];
    PrependNothing(WalkDirs(at, t, dirs, src));
  }

  lemma EndDirs(at: seq<string>, t: Node, dirs: seq<string>, kept: seq<string>, done: Found, src: Source)
    requires t.Dir? && Within(dirs, DirNames(t)) && KeptSoFar(at, t, dirs, |dirs|, kept, src)
    ensures Prepend(done, WalkDirs(at, t, dirs[|dirs|..], src)) == Ok(done)
    ensures Within(kept, DirNames(t)) && Distinct(kept) && WalkBelow(at, t, kept, src) == WalkBelow(at, t, dirs, src)
    ensures forall i :: 0 <= i < |kept| ==> DirFate(at + [kept[i]], t.entries[kept[i]], src).Entered?
  {
    hide DirFate, DirNames, WalkBelow;
    assert kept + dirs[|dirs|..] == kept && dirs[|dirs|..] == [];
    assert Both(done, NOTHING) == done;
  }

  lemma {:induction false} TextSuffix(at: seq<string>, name: string, suffix: string)
    ensures Text(at + [name + suffix]) == Text(at + [name]) + suffix
  {
    if at != [] {
      TextConcat(at, [name]);
      TextConcat(at, [name + suffix]);
      assert Text(at) + "/" + (name + suffix) == Text(at) + "/" + name + suffix;
    }
  }

  lemma KeptIsDatabase(at: seq<string>, t: Node, name: string, src: Source)
    requires t.Dir? && name in t.entries
    ensures var f := FileFate(at, t, name, src);
            !f.Fails? ==> (IsDatabase(at, t, name, src) <==> f.Kept? && src.selection.Some? && t.entries[name].sqlite)
  {
    hide OwnReason, IsSidecar, IsSafe;
    if t.entries[name].File? {
      FileFateKept(at, t, name, src);
    }
  }

  lemma StartFiles(at: seq<string>, t: Node, names: seq<string>, paths: set<seq<string>>, src: Source)
    requires t.Dir? && Within(names, FileNames(t)) && forall p :: p in paths ==> !(at < p)
    ensures Expected(at, t, names, 0, paths, src)
    ensures WalkFiles(at, t, names, src) == Prepend(NOTHING, WalkFiles(at, t, names[0..], src))
  {
    hide FileNames, WalkFiles;
    assert names[0..] == names;
    PrependNothing(WalkFiles(at, t, names, src));
  }

  lemma EndFiles(at: seq<string>, t: Node, names: seq<string>, done: Found, src: Source)
    requires t.Dir? && Within(names, FileNames(t))
    ensures Prepend(done, WalkFiles(at, t, names[|names|..], src)) == Ok(done)
  {
    hide FileNames;
    assert names[|names|..] == [] && Both(done, NOTHING) == done;
  }
}
