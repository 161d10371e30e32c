/** What the walk selects, in terms of each file's own path. */
module ExportSelected {
  import opened ExportWalk
  import opened ExportWalkFates
  import opened SourcePaths
  import opened SourceSelection
  import opened Sorting
  import opened TextFormats
  import opened Wrappers

  function NodeAt(t: Node, rest: seq<string>): Node
    requires Exists(t, rest)
  {
    if rest == [] then t else NodeAt(t.entries[rest[0]], rest[1..])
  }

  lemma {:induction false} ExistsAbove(t: Node, rest: seq<string>, k: nat)
    requires Exists(t, rest) && k <= |rest|
    ensures Exists(t, rest[..k])
    ensures k < |rest| ==> NodeAt(t, rest[..k]).Dir? && rest[k] in NodeAt(t, rest[..k]).entries
                           && Exists(t, rest[..k + 1])
                           && NodeAt(t, rest[..k + 1]) == NodeAt(t, rest[..k]).entries[rest[k]]
  {
    if rest != [] && k > 0 {
      var child := t.entries[rest[0]];
      ExistsAbove(child, rest[1..], k - 1);
      assert rest[..k][1..] == rest[1..][..k - 1] && rest[..k][0] == rest[0];
      if k < |rest| {
        assert rest[..k + 1][1..] == rest[1..][..k] && rest[..k + 1][0] == rest[0];
      }
    } else if rest != [] {
      assert rest[..1][1..] == [];
      assert NodeAt(t.entries[rest[0]], []) == t.entries[rest[0]];
    }
  }

  /** The fate of an existing path that the walk reaches. */
  function LocalFate(at: seq<string>, t: Node, rest: seq<string>, src: Source): Fate
    requires t.Dir? && rest != [] && Exists(t, rest)
  {
    ExistsAbove(t, rest, |rest| - 1);
    assert rest[..|rest| - 1 + 1] == rest;
    var above, name := rest[..|rest| - 1], rest[|rest| - 1];
    if LooksLikeDirectory(NodeAt(t, rest)) then DirFate(at + rest, NodeAt(t, rest), src)
    else FileFate(at + above, NodeAt(t, above), name, src)
  }

  /** The walk stops at the directory that holds the first `k` components. */
  predicate Stops(at: seq<string>, t: Node, rest: seq<string>, k: int, src: Source)
    requires t.Dir?
  {
    0 < k < |rest| && Exists(t, rest[..k]) &&
    (LocalFate(at, t, rest[..k], src).Dropped? || LocalFate(at, t, rest[..k], src).Fails?)
  }

  predicate StoppedAbove(at: seq<string>, t: Node, rest: seq<string>, src: Source)
    requires t.Dir?
  {
    exists k :: 0 < k < |rest| && Stops(at, t, rest, k, src)
  }

  lemma LocalShift(at: seq<string>, t: Node, rest: seq<string>, src: Source)
    requires t.Dir? && |rest| > 1 && Exists(t, rest)
    ensures t.entries[rest[0]].Dir?
    ensures LocalFate(at, t, rest, src) == LocalFate(at + [rest[0]], t.entries[rest[0]], rest[1..], src)
  {
    hide DirFate, FileFate;
    var child, here := t.entries[rest[0]], at + [rest[0]];
    var above := rest[..|rest| - 1];
    assert Exists(child, rest[1..]);
    ExistsAbove(t, rest, |above|);
    assert here + rest[1..] == at + rest;
    assert above[1..] == rest[1..][..|rest[1..]| - 1];
    assert here + above[1..] == at + above;
    assert NodeAt(t, above) == NodeAt(child, above[1..]);
    assert NodeAt(t, rest) == NodeAt(child, rest[1..]);
    assert rest[1..][|rest[1..]| - 1] == rest[|rest| - 1];
  }

  lemma StopsShift(at: seq<string>, t: Node, rest: seq<string>, k: int, src: Source)
    requires t.Dir? && Exists(t, rest) && 1 < k < |rest|
    ensures t.entries[rest[0]].Dir?
    ensures Stops(at, t, rest, k, src) <==> Stops(at + [rest[0]], t.entries[rest[0]], rest[1..], k - 1, src)
  {
    hide LocalFate;
    ExistsAbove(t, rest, k);
    LocalShift(at, t, rest[..k], src);
    assert rest[..k][1..] == rest[1..][..k - 1];
    assert Exists(t.entries[rest[0]], rest[..k][1..]);
  }

  lemma OneStep(at: seq<string>, t: Node, name: string, src: Source)
    requires t.Dir? && name in t.entries
    ensures Exists(t, [name])
    ensures LocalFate(at, t, [name], src) ==
            if LooksLikeDirectory(t.entries[name]) then DirFate(at + [name], t.entries[name], src)
            else FileFate(at, t, name, src)
    ensures FateOf(at, t, [name], src) == LocalFate(at, t, [name], src)
  {
    hide DirFate, FileFate;
    assert [name][1..] == [] && [name][..0] == [] && at + [] == at;
    assert Exists(t.entries[name], []);
    assert NodeAt(t, [name]) == t.entries[name] by {
      assert NodeAt(t.entries[name], []) == t.entries[name];
    }
  }

  /** A path is passed over exactly when the walk stopped at a directory above it. */
  lemma {:induction false} FateAlong(at: seq<string>, t: Node, rest: seq<string>, src: Source)
    requires t.Dir? && rest != [] && Exists(t, rest)
    ensures FateOf(at, t, rest, src) ==
            if StoppedAbove(at, t, rest, src) then BelowDropped else LocalFate(at, t, rest, src)
    decreases rest
  {
    hide LocalFate, DirFate, FileFate, Stops;
    OneStep(at, t, rest[0], src);
    if |rest| == 1 {
      assert rest == [rest[0]];
    } else {
      LocalShift(at, t, rest, src);
      var child, here := t.entries[rest[0]], at + [rest[0]];
      FateAlong(here, child, rest[1..], src);
      FirstStop(at, t, rest, src);
      forall k | 1 < k < |rest| ensures Stops(at, t, rest, k, src) <==> Stops(here, child, rest[1..], k - 1, src) {
        StopsShift(at, t, rest, k, src);
      }
      if StoppedAbove(here, child, rest[1..], src) {
        var k :| 0 < k < |rest[1..]| && Stops(here, child, rest[1..], k, src);
        assert Stops(at, t, rest, k + 1, src);
      }
    }
  }

  lemma FirstStop(at: seq<string>, t: Node, rest: seq<string>, src: Source)
    requires t.Dir? && |rest| > 1 && Exists(t, rest) && t.entries[rest[0]].Dir?
    ensures Stops(at, t, rest, 1, src) <==> !DirFate(at + [rest[0]], t.entries[rest[0]], src).Entered?
  {
    OneStep(at, t, rest[0], src);
    assert rest[..1] == [rest[0]];
  }

  // What an export holds.

  ghost predicate IsListed(found: Found, path: seq<string>) { exists l :: l in found.files && l.path == path }

  ghost predicate IsOmitted(found: Found, path: seq<string>) { exists o :: o in found.omissions && o.path == path }

  ghost predicate IsBelowOmitted(found: Found, path: seq<string>) {
    exists k :: 0 < k < |path| && IsOmitted(found, path[..k])
  }

  lemma ListsHoldFates(root: Node, src: Source, found: Found, path: seq<string>)
    requires root.Dir? && Walk([], root, src) == Ok(found) && path != []
    ensures IsListed(found, path) <==> FateOf([], root, path, src).Kept?
    ensures IsOmitted(found, path) <==> FateOf([], root, path, src).Dropped?
    ensures !FateOf([], root, path, src).Fails?
  {
    hide Walk, FateOf;
    WalkReports([], root, src);
    var fate := WalkFates([], root, src)(path);
    assert path[0..] == path;
    assert fate == FateOf([], root, path, src);
    if fate.Kept? {
      assert Listed(path, fate.stat, fate.mode) in found.files;
    }
    if fate.Dropped? {
      assert Left(path, fate.reason, fate.info) in found.omissions;
    }
  }

  lemma BelowOmittedExactly(root: Node, src: Source, found: Found, path: seq<string>)
    requires root.Dir? && Walk([], root, src) == Ok(found) && path != [] && Exists(root, path)
    ensures IsBelowOmitted(found, path) <==> StoppedAbove([], root, path, src)
    ensures forall k :: 0 < k < |path| && !StoppedAbove([], root, path[..k], src)
                        ==> (IsOmitted(found, path[..k]) <==> Stops([], root, path, k, src))
  {
    hide Walk, FateOf, LocalFate, IsOmitted, IsListed;
    forall k | 0 < k < |path| && !StoppedAbove([], root, path[..k], src)
      ensures IsOmitted(found, path[..k]) <==> Stops([], root, path, k, src)
    {
      ExistsAbove(root, path, k);
      FateAlong([], root, path[..k], src);
      ListsHoldFates(root, src, found, path[..k]);
    }
    if StoppedAbove([], root, path, src) {
      var k := FirstStopAt(root, src, path);
      assert IsOmitted(found, path[..k]);
    }
    if IsBelowOmitted(found, path) {
      var k :| 0 < k < |path| && IsOmitted(found, path[..k]);
      ExistsAbove(root, path, k);
      FateAlong([], root, path[..k], src);
      ListsHoldFates(root, src, found, path[..k]);
      assert Stops([], root, path, k, src);
    }
  }

  /** The first directory on the way at which the walk stops. */
  lemma FirstStopAt(root: Node, src: Source, path: seq<string>) returns (k: int)
    requires root.Dir? && StoppedAbove([], root, path, src)
    ensures 0 < k < |path| && Stops([], root, path, k, src) && !StoppedAbove([], root, path[..k], src)
  {
    hide LocalFate;
    k :| 0 < k < |path| && Stops([], root, path, k, src);
    while StoppedAbove([], root, path[..k], src)
      invariant 0 < k < |path| && Stops([], root, path, k, src)
      decreases k
    {
      var j :| 0 < j < k && Stops([], root, path[..k], j, src);
      assert path[..k][..j] == path[..j];
      k := j;
    }
  }

  /** Every node that is not a directory is selected, omitted, or below an omitted directory; exactly one. */
  lemma EveryNodeIsAccountedFor(root: Node, src: Source, found: Found, path: seq<string>)
    requires root.Dir? && Walk([], root, src) == Ok(found)
    requires path != [] && Exists(root, path) && !LooksLikeDirectory(NodeAt(root, path))
    ensures IsListed(found, path) || IsOmitted(found, path) || IsBelowOmitted(found, path)
    ensures !(IsListed(found, path) && IsOmitted(found, path))
    ensures !(IsListed(found, path) && IsBelowOmitted(found, path))
    ensures !(IsOmitted(found, path) && IsBelowOmitted(found, path))
  {
    hide Walk, FateOf, DirFate, IsOmitted, IsListed, IsBelowOmitted, Stops;
    FateAlong([], root, path, src);
    ListsHoldFates(root, src, found, path);
    BelowOmittedExactly(root, src, found, path);
  }

  predicate IsFile(root: Node, path: seq<string>) { path != [] && Exists(root, path) && NodeAt(root, path).File? }

  /** The file at the path is the sidecar of a listed database beside it. */
  predicate IsSidecarAt(root: Node, path: seq<string>, src: Source)
    requires path != [] && Exists(root, path)
  {
    var k := |path| - 1;
    Exists(root, path[..k]) && NodeAt(root, path[..k]).Dir? &&
        IsSidecar(path[..k], NodeAt(root, path[..k]), path[k], src)
  }

  /** A directory on the way carries a name that is refused where it stands last. */
  predicate HasRefusedName(path: seq<string>) { exists k :: 0 <= k < |path| - 1 && NamesAFile(path[k]) }

  lemma StopsExactly(root: Node, src: Source, path: seq<string>, k: int)
    requires root.Dir? && path != [] && Exists(root, path) && OwnReason(path, src) == None && 0 < k < |path|
    requires Exists(root, path[..k])
    requires !LocalFate([], root, path[..k], src).Fails?
    ensures Stops([], root, path, k, src) <==> NamesAFile(path[k - 1])
  {
    hide Excluded, NamesAFile, SelectionReason, DirFault;
    ExistsAbove(root, path, k);
    var above := path[..k];
    assert [] + above == above;
    PrefixHolds(above, path);
    ScopeReachesDown(Text(path), Text(above), src.selection, false);
    ExcludedAbove(path, above, src.kind);
  }

  /** Exactly the files that the owner selected and the exporter does not refuse are listed, save the sidecars of
      listed databases and what lies below a directory with a refused file name. Scope pruning loses nothing. */
  lemma SelectedExactly(root: Node, src: Source, found: Found, path: seq<string>)
    requires root.Dir? && Walk([], root, src) == Ok(found) && IsFile(root, path)
    ensures IsListed(found, path) <==>
            OwnReason(path, src) == None && !IsSidecarAt(root, path, src) && !HasRefusedName(path)
  {
    hide Walk, FateOf, OwnReason, StoppedAbove, HasRefusedName, IsListed, IsSidecarAt, LocalFate;
    FateAlong([], root, path, src);
    ListsHoldFates(root, src, found, path);
    ReachedFile(root, src, path);
    if OwnReason(path, src) == None {
      StoppedByNames(root, src, found, path);
    }
  }

  lemma FileFateKept(at: seq<string>, t: Node, name: string, src: Source)
    requires t.Dir? && name in t.entries && t.entries[name].File?
    ensures var f := FileFate(at, t, name, src);
            !f.Fails? ==> (f.Kept? <==> OwnReason(at + [name], src) == None && !IsSidecar(at, t, name, src))
  {
    hide OwnReason, IsSidecar;
  }

  lemma ReachedFile(root: Node, src: Source, path: seq<string>)
    requires root.Dir? && IsFile(root, path)
    ensures var f := LocalFate([], root, path, src);
            !f.Fails? ==> (f.Kept? <==> OwnReason(path, src) == None && !IsSidecarAt(root, path, src))
  {
    hide OwnReason, IsSidecar, FileFate, NodeAt, Exists;
    var k := |path| - 1;
    ExistsAbove(root, path, k);
    assert path[..k + 1] == path;
    assert path[..k] + [path[k]] == path;
    assert [] + path[..k] == path[..k];
    FileFateKept(path[..k], NodeAt(root, path[..k]), path[k], src);
  }

  /** On the way to a file with no reason of its own, the walk stops only at refused names. */
  lemma StoppedByNames(root: Node, src: Source, found: Found, path: seq<string>)
    requires root.Dir? && Walk([], root, src) == Ok(found) && path != [] && Exists(root, path)
    requires OwnReason(path, src) == None
    ensures StoppedAbove([], root, path, src) <==> HasRefusedName(path)
  {
    hide Walk, OwnReason, NamesAFile, Stops;
    if StoppedAbove([], root, path, src) {
      var k := FirstStopAt(root, src, path);
      ReachedAbove(root, src, found, path, k);
      StopsExactly(root, src, path, k);
      assert NamesAFile(path[k - 1]);
    }
    if HasRefusedName(path) {
      RefusedStops(root, src, found, path);
    }
  }

  lemma ReachedAbove(root: Node, src: Source, found: Found, path: seq<string>, k: int)
    requires root.Dir? && Walk([], root, src) == Ok(found) && Exists(root, path) && 0 < k < |path|
    requires !StoppedAbove([], root, path[..k], src)
    ensures Exists(root, path[..k]) && !LocalFate([], root, path[..k], src).Fails?
  {
    hide Walk, FateOf, LocalFate, IsListed, IsOmitted;
    ExistsAbove(root, path, k);
    FateAlong([], root, path[..k], src);
    ListsHoldFates(root, src, found, path[..k]);
  }

  lemma RefusedStops(root: Node, src: Source, found: Found, path: seq<string>)
    requires root.Dir? && Walk([], root, src) == Ok(found) && path != [] && Exists(root, path)
    requires OwnReason(path, src) == None && HasRefusedName(path)
    ensures StoppedAbove([], root, path, src)
  {
    hide Walk, OwnReason, NamesAFile, LocalFate;
    var k :| 0 <= k < |path| - 1 && NamesAFile(path[k]);
    if StoppedAbove([], root, path[..k + 1], src) {
      var j :| 0 < j < k + 1 && Stops([], root, path[..k + 1], j, src);
      assert path[..k + 1][..j] == path[..j];
      assert Stops([], root, path, j, src);
    } else {
      ReachedAbove(root, src, found, path, k + 1);
      StopsExactly(root, src, path, k + 1);
    }
  }

  /** A profile is never exported on the strength of a wider anchor: each one needs an anchor in it. */
  lemma ProfilesNeedAnchors(root: Node, src: Source, found: Found, path: seq<string>, k: int)
    requires root.Dir? && Walk([], root, src) == Ok(found) && IsFile(root, path) && IsListed(found, path)
    requires src.kind.Hermes? || src.kind.Codex?
    requires 0 < k < |path| && path[k - 1] == "profiles"
    ensures src.selection.Some? &&
            exists i :: 0 <= i < |src.selection.value.anchors| &&
                Under(src.selection.value.anchors[i], Text(path[..k + 1]))
  {
    hide Walk, FateOf, Excluded, NamesAFile, SelectionReason, IsListed, IsSidecar, Text, Under;
    FateAlong([], root, path, src);
    ListsHoldFates(root, src, found, path);
    SelectedExactly(root, src, found, path);
    ExistsAbove(root, path, k);
    var above, here := path[..k], path[..k + 1];
    assert here == above + [path[k]] && [] + above == above && [] + here == here;
    assert !Stops([], root, path, k, src);
    assert DirReason(above, NodeAt(root, above), src) == None && DirFault(above, NodeAt(root, above), src) == None;
    var child := NodeAt(root, here);
    assert SelectionReason(Text(here), src.selection, LooksLikeDirectory(child)) == None by {
      if k + 1 == |path| {
        assert here == path;
      } else {
        ExistsAbove(root, path, k + 1);
        assert !Stops([], root, path, k + 1, src);
      }
    }
    assert !IsUnanchored(here, child, src.selection.value);
  }

  lemma OneName(n: string)
    ensures SortedNames({n}) == [n]
  {
    LessIsOrder();
    NamesAscend({n});
    AscendingIsUnique(Less, SortedNames({n}), [n]);
  }

  function KeyDirectory(stat: Stat): Node { Dir(map["n" := File(stat, 0, false)]) }

  function KeyTree(stat: Stat): Node { Dir(map[".key" := KeyDirectory(stat)]) }

  const PLAIN := Source(Memory, None)

  lemma KeyTreeHoldsFile(stat: Stat)
    ensures IsFile(KeyTree(stat), [".key", "n"])
  {
    var path := [".key", "n"];
    assert path[1..] == ["n"] && ["n"][1..] == [];
    var file, below := File(stat, 0, false), KeyDirectory(stat);
    assert Exists(file, []) && NodeAt(file, []) == file;
    assert Exists(below, ["n"]) && NodeAt(below, ["n"]) == file;
  }

  lemma KeyTreeWalks(stat: Stat)
    ensures Walk([], KeyTree(stat), PLAIN).Ok?
  {
    hide Excluded, SelectionReason, DirFault, Text;
    var root := KeyTree(stat);
    KeyIsRefused();
    assert DirNames(root) == {".key"} && FileNames(root) == {};
    OneName(".key");
    assert [] + [".key"] == [".key"];
    assert DirFate([".key"], KeyDirectory(stat), PLAIN).Dropped?;
    assert [".key"][1..] == [] && SortedNames({}) == [];
    assert WalkDirs([], root, [".key"], PLAIN).Ok?;
    assert WalkBelow([], root, [".key"], PLAIN).Ok?;
  }

  /** A file below a directory called `.key` is lost, though neither rule refuses the file itself. */
  lemma RefusedNameLosesFiles(stat: Stat)
    ensures IsFile(KeyTree(stat), [".key", "n"]) && OwnReason([".key", "n"], PLAIN) == None
    ensures Walk([], KeyTree(stat), PLAIN).Ok? && !IsListed(Walk([], KeyTree(stat), PLAIN).value, [".key", "n"])
  {
    hide Walk, IsListed, NamesAFile, Excluded, Text;
    KeyIsRefused();
    KeyTreeHoldsFile(stat);
    KeyTreeWalks(stat);
    var path := [".key", "n"];
    assert HasRefusedName(path) by { assert NamesAFile(path[0]); }
    SelectedExactly(KeyTree(stat), PLAIN, Walk([], KeyTree(stat), PLAIN).value, path);
  }

  lemma KeyLowers()
    ensures Lower(".key") == ".key" && Lower("n") == "n"
  {
    var k: string := ".key";
    assert k[1..] == "key" && k[1..][1..] == "ey" && k[1..][1..][1..] == "y" && k[1..][1..][1..][1..] == "";
    assert Lower("") == "" && Lower("y") == "y" && Lower("ey") == "ey" && Lower("key") == "key";
  }

  lemma KeyIsRefused()
    ensures NamesAFile(".key") && Excluded([".key"], Memory).Some? && Excluded([".key", "n"], Memory) == None
  {
    hide Lower;
    KeyLowers();
    var k: string, path: seq<string> := ".key", [".key", "n"];
    assert EndsWith(k, ".key");
    assert IsSecretName(k);
    assert !IsSecretDirectory(k) && !IsSecretDirectory("n") && !HoldsSecrets(path);
    assert !IsSecretName("n") && !IsSidecarName("n");
    assert path[0][0] == '.' && |path[0]| == 4;
  }
}
