/** The walk reports exactly the fate of every path. */
module ExportWalkFates {
  import opened ExportWalk
  import opened Sorting
  import opened SourcePaths
  import opened SourceSelection
  import opened Wrappers

  predicate IsSilent(f: Fate) { !f.Kept? && !f.Dropped? && !f.Fails? }

  /** No path stands twice in a list. */
  predicate NoRepeats(found: Found) {
    (forall i, j :: 0 <= i < j < |found.files| ==> found.files[i].path != found.files[j].path) &&
    forall i, j :: 0 <= i < j < |found.omissions| ==> found.omissions[i].path != found.omissions[j].path
  }

  /** The two lists hold exactly the kept and the dropped paths, each once, or the error is some path's failure. */
  ghost predicate Reports(r: Result<Found, Failure>, fate: seq<string> -> Fate) {
    match r
    case Ok(found) =>
      (forall l :: l in found.files <==> fate(l.path) == Kept(l.stat, l.mode)) &&
      (forall o :: o in found.omissions <==> fate(o.path) == Dropped(o.reason, o.stat)) &&
      (forall p :: !fate(p).Fails?) && NoRepeats(found)
    case Err(f) => exists p :: fate(p) == Fails(f)
  }

  /** At every path at most one of two reports speaks, and a third says the same. */
  ghost predicate Splits(whole: seq<string> -> Fate, a: seq<string> -> Fate, b: seq<string> -> Fate) {
    forall p :: (IsSilent(a(p)) && (whole(p) == b(p) || (IsSilent(whole(p)) && IsSilent(b(p))))) ||
                (IsSilent(b(p)) && (whole(p) == a(p) || (IsSilent(whole(p)) && IsSilent(a(p)))))
  }

  lemma BothNoRepeats(a: Found, b: Found, fa: seq<string> -> Fate, fb: seq<string> -> Fate, fc: seq<string> -> Fate)
    requires Reports(Ok(a), fa) && Reports(Ok(b), fb) && Splits(fc, fa, fb)
    ensures NoRepeats(Both(a, b))
  {
    forall l, m | l in a.files && m in b.files ensures l.path != m.path {
      assert IsSilent(fa(l.path)) || IsSilent(fb(l.path));
    }
    forall o, q | o in a.omissions && q in b.omissions ensures o.path != q.path {
      assert IsSilent(fa(o.path)) || IsSilent(fb(o.path));
    }
    var files, omissions := a.files + b.files, a.omissions + b.omissions;
    forall i, j | 0 <= i < j < |files| ensures files[i].path != files[j].path {
      if i < |a.files| <= j {
        assert files[i] in a.files && files[j] in b.files;
      }
    }
    forall i, j | 0 <= i < j < |omissions| ensures omissions[i].path != omissions[j].path {
      if i < |a.omissions| <= j {
        assert omissions[i] in a.omissions && omissions[j] in b.omissions;
      }
    }
  }

  lemma CombineReports(a: Result<Found, Failure>, b: Result<Found, Failure>, fa: seq<string> -> Fate,
                       fb: seq<string> -> Fate, fc: seq<string> -> Fate)
    requires Reports(a, fa) && Reports(b, fb) && Splits(fc, fa, fb)
    ensures Reports(Combine(a, b), fc)
  {
    if a.Err? {
      var p :| fa(p) == Fails(a.error);
      assert fc(p) == Fails(a.error);
    } else if b.Err? {
      var p :| fb(p) == Fails(b.error);
      assert fc(p) == Fails(b.error);
    } else {
      var found := Both(a.value, b.value);
      forall l ensures l in found.files <==> fc(l.path) == Kept(l.stat, l.mode) {
        assert l in found.files <==> l in a.value.files || l in b.value.files;
      }
      forall o ensures o in found.omissions <==> fc(o.path) == Dropped(o.reason, o.stat) {
        assert o in found.omissions <==> o in a.value.omissions || o in b.value.omissions;
      }
      BothNoRepeats(a.value, b.value, fa, fb, fc);
    }
  }

  /** `p` is the child of `at` with one of the names. */
  predicate IsChild(at: seq<string>, names: seq<string>, p: seq<string>) {
    |p| == |at| + 1 && at <= p && p[|at|] in names
  }

  function OnlyAt(path: seq<string>, fate: Fate): seq<string> -> Fate {
    p => if p == path then fate else Absent
  }

  lemma EntryReports(path: seq<string>, fate: Fate)
    ensures Reports(EntryOf(path, fate), OnlyAt(path, fate))
  {
    assert fate.Fails? ==> OnlyAt(path, fate)(path) == fate;
  }

  lemma NothingReports(fate: seq<string> -> Fate)
    requires forall p :: fate(p) == Absent
    ensures Reports(Ok(NOTHING), fate)
  {
  }

  function DirFates(at: seq<string>, t: Node, names: seq<string>, src: Source): seq<string> -> Fate
    requires t.Dir? && Within(names, DirNames(t))
  {
    p => if IsChild(at, names, p) && p[|at|] in DirNames(t) then DirFate(p, t.entries[p[|at|]], src) else Absent
  }

  function FileFates(at: seq<string>, t: Node, names: seq<string>, src: Source): seq<string> -> Fate
    requires t.Dir? && Within(names, FileNames(t))
  {
    p => if IsChild(at, names, p) && p[|at|] in FileNames(t) then FileFate(at, t, p[|at|], src) else Absent
  }

  lemma ChildOfFirst(at: seq<string>, names: seq<string>, p: seq<string>)
    requires names != [] && Distinct(names)
    ensures IsChild(at, names, p) <==> p == at + [names[0]] || IsChild(at, names[1..], p)
    ensures p == at + [names[0]] ==> !IsChild(at, names[1..], p) && |p| == |at| + 1 && p[|at|] == names[0]
  {
    assert names == [names[0]] + names[1..];
    if |p| == |at| + 1 && at <= p {
      assert p == at + [p[|at|]];
    }
  }

  lemma {:induction false} DirsReport(at: seq<string>, t: Node, names: seq<string>, src: Source)
    requires t.Dir? && Within(names, DirNames(t)) && Distinct(names)
    ensures Reports(WalkDirs(at, t, names, src), DirFates(at, t, names, src))
  {
    hide Reports, DirFate, DirNames, Combine, EntryOf;
    if names == [] {
      NothingReports(DirFates(at, t, names, src));
    } else {
      var path, rest := at + [names[0]], names[1..];
      var fate := DirFate(path, t.entries[names[0]], src);
      EntryReports(path, fate);
      DirsReport(at, t, rest, src);
      forall p ensures IsChild(at, names, p) <==> p == path || IsChild(at, rest, p)
               ensures p == path ==> !IsChild(at, rest, p) {
        ChildOfFirst(at, names, p);
      }
      assert Splits(DirFates(at, t, names, src), OnlyAt(path, fate), DirFates(at, t, rest, src));
      CombineReports(EntryOf(path, fate), WalkDirs(at, t, rest, src), OnlyAt(path, fate), DirFates(at, t, rest, src),
                     DirFates(at, t, names, src));
    }
  }

  lemma {:induction false} FilesReport(at: seq<string>, t: Node, names: seq<string>, src: Source)
    requires t.Dir? && Within(names, FileNames(t)) && Distinct(names)
    ensures Reports(WalkFiles(at, t, names, src), FileFates(at, t, names, src))
  {
    hide Reports, FileFate, FileNames, Combine, EntryOf;
    if names == [] {
      NothingReports(FileFates(at, t, names, src));
    } else {
      var path, rest := at + [names[0]], names[1..];
      var fate := FileFate(at, t, names[0], src);
      EntryReports(path, fate);
      FilesReport(at, t, rest, src);
      forall p ensures IsChild(at, names, p) <==> p == path || IsChild(at, rest, p)
               ensures p == path ==> !IsChild(at, rest, p) {
        ChildOfFirst(at, names, p);
      }
      assert Splits(FileFates(at, t, names, src), OnlyAt(path, fate), FileFates(at, t, rest, src));
      CombineReports(EntryOf(path, fate), WalkFiles(at, t, rest, src), OnlyAt(path, fate), FileFates(at, t, rest, src),
                     FileFates(at, t, names, src));
    }
  }

  /** The fates of the entries of one directory. */
  function LevelFates(at: seq<string>, t: Node, src: Source): seq<string> -> Fate
    requires t.Dir?
  {
    p => if |p| != |at| + 1 || !(at <= p) then Absent
         else if p[|at|] in DirNames(t) then DirFate(p, t.entries[p[|at|]], src)
         else if p[|at|] in FileNames(t) then FileFate(at, t, p[|at|], src)
         else Absent
  }

  /** The fates of what lies below some of the directories that the walk entered. */
  function BelowFates(at: seq<string>, t: Node, names: seq<string>, src: Source): seq<string> -> Fate
    requires t.Dir?
  {
    p => if |p| > |at| + 1 && at <= p && p[|at|] in names && IsEntered(at, t, p[|at|], src)
         then FateOf(at + [p[|at|]], t.entries[p[|at|]], p[|at| + 1..], src) else Absent
  }

  predicate IsEntered(at: seq<string>, t: Node, name: string, src: Source)
    requires t.Dir?
  {
    name in DirNames(t) && t.entries[name].Dir? && DirFate(at + [name], t.entries[name], src).Entered?
  }

  function WalkFates(at: seq<string>, t: Node, src: Source): seq<string> -> Fate
    requires t.Dir?
  {
    p => if at < p then FateOf(at, t, p[|at|..], src) else Absent
  }

  lemma FateStep(at: seq<string>, t: Node, p: seq<string>, src: Source)
    requires t.Dir? && at < p
    ensures |p| == |at| + 1 ==> WalkFates(at, t, src)(p) == LevelFates(at, t, src)(p)
    ensures |p| > |at| + 1 ==>
              var fate := BelowFates(at, t, SortedNames(DirNames(t)), src)(p);
              WalkFates(at, t, src)(p) == fate || (IsSilent(WalkFates(at, t, src)(p)) && IsSilent(fate))
  {
    hide DirFate, FileFate;
    var rest := p[|at|..];
    assert p == at + rest && rest[0] == p[|at|] && rest[1..] == p[|at| + 1..];
    if rest[0] in t.entries {
      var child, name := t.entries[rest[0]], rest[0];
      assert Exists(t, rest) <==> Exists(child, rest[1..]);
      if |rest| == 1 {
        assert p == at + [name] && Exists(child, rest[1..]);
      } else {
        assert Exists(child, rest[1..]) ==> child.Dir?;
        assert child.Dir? ==> name in SortedNames(DirNames(t));
      }
    } else {
      assert !Exists(t, rest);
    }
  }

  lemma LevelSplits(at: seq<string>, t: Node, src: Source)
    requires t.Dir?
    ensures Splits(LevelFates(at, t, src), DirFates(at, t, SortedNames(DirNames(t)), src),
                   FileFates(at, t, SortedNames(FileNames(t)), src))
  {
    hide DirFate, FileFate;
  }

  lemma WalkSplits(at: seq<string>, t: Node, src: Source)
    requires t.Dir?
    ensures Splits(WalkFates(at, t, src), LevelFates(at, t, src), BelowFates(at, t, SortedNames(DirNames(t)), src))
  {
    hide DirFate, FileFate, FateOf, IsEntered, DirNames, FileNames;
    forall p | at < p
      ensures |p| == |at| + 1 ==> WalkFates(at, t, src)(p) == LevelFates(at, t, src)(p)
      ensures |p| > |at| + 1 ==>
                var fate := BelowFates(at, t, SortedNames(DirNames(t)), src)(p);
                WalkFates(at, t, src)(p) == fate || (IsSilent(WalkFates(at, t, src)(p)) && IsSilent(fate))
    {
      FateStep(at, t, p, src);
    }
  }

  function FirstBelow(at: seq<string>, t: Node, name: string, src: Source): Result<Found, Failure>
    requires t.Dir? && name in DirNames(t)
  {
    if DirFate(at + [name], t.entries[name], src).Entered? then Walk(at + [name], t.entries[name], src)
    else Ok(NOTHING)
  }

  function FirstFates(at: seq<string>, t: Node, name: string, src: Source): seq<string> -> Fate
    requires t.Dir? && name in DirNames(t)
  {
    if IsEntered(at, t, name, src) then WalkFates(at + [name], t.entries[name], src) else _ => Absent
  }

  lemma BelowSplits(at: seq<string>, t: Node, names: seq<string>, src: Source)
    requires t.Dir? && Within(names, DirNames(t)) && Distinct(names) && names != []
    ensures Splits(BelowFates(at, t, names, src), FirstFates(at, t, names[0], src), BelowFates(at, t, names[1..], src))
  {
    hide DirFate, FateOf, IsEntered, DirNames;
    var here := at + [names[0]];
    assert names == [names[0]] + names[1..];
    forall p ensures here < p <==> |p| > |at| + 1 && at <= p && p[|at|] == names[0] {
      assert here < p ==> p[|at|] == here[|at|];
    }
  }

  /** The walk below one directory reports the fate of every path below it. */
  lemma {:induction false} WalkReports(at: seq<string>, t: Node, src: Source)
    requires t.Dir?
    ensures Reports(Walk(at, t, src), WalkFates(at, t, src))
    decreases t, 1
  {
    hide Reports, Splits, Combine, WalkDirs, WalkFiles, WalkBelow, DirFates, FileFates, LevelFates, BelowFates;
    var dirs, files := SortedNames(DirNames(t)), SortedNames(FileNames(t));
    NamesAscend(DirNames(t));
    NamesAscend(FileNames(t));
    DirsReport(at, t, dirs, src);
    FilesReport(at, t, files, src);
    LevelSplits(at, t, src);
    CombineReports(WalkDirs(at, t, dirs, src), WalkFiles(at, t, files, src), DirFates(at, t, dirs, src),
                   FileFates(at, t, files, src), LevelFates(at, t, src));
    BelowReports(at, t, dirs, src);
    WalkSplits(at, t, src);
    CombineReports(Combine(WalkDirs(at, t, dirs, src), WalkFiles(at, t, files, src)), WalkBelow(at, t, dirs, src),
                   LevelFates(at, t, src), BelowFates(at, t, dirs, src), WalkFates(at, t, src));
  }

  lemma {:induction false} BelowReports(at: seq<string>, t: Node, names: seq<string>, src: Source)
    requires t.Dir? && Within(names, DirNames(t)) && Distinct(names)
    ensures Reports(WalkBelow(at, t, names, src), BelowFates(at, t, names, src))
    decreases t, 0, |names|
  {
    hide Splits, Combine, Walk, FateOf, DirFate;
    if names != [] {
      var child, here := t.entries[names[0]], at + [names[0]];
      assert names[0] in DirNames(t);
      if IsEntered(at, t, names[0], src) {
        WalkReports(here, child, src);
      }
      assert Reports(FirstBelow(at, t, names[0], src), FirstFates(at, t, names[0], src)) by {
        assert DirFate(here, child, src).Entered? ==> child.Dir?;
      }
      BelowReports(at, t, names[1..], src);
      BelowSplits(at, t, names, src);
      CombineReports(FirstBelow(at, t, names[0], src), WalkBelow(at, t, names[1..], src),
                     FirstFates(at, t, names[0], src), BelowFates(at, t, names[1..], src),
                     BelowFates(at, t, names, src));
    }
  }

  // The sorted result.

  lemma {:induction false} ExistsIsPath(t: Node, rest: seq<string>)
    requires OkTree(t) && Exists(t, rest) && rest != []
    ensures IsPath(rest)
  {
    if |rest| > 1 {
      ExistsIsPath(t.entries[rest[0]], rest[1..]);
      assert rest == [rest[0]] + rest[1..];
    }
  }

  lemma ReportedIsPath(root: Node, src: Source, path: seq<string>)
    requires root.Dir? && OkTree(root) && WalkFates([], root, src)(path) != Absent
    ensures IsPath(path)
  {
    hide FateOf;
    assert path[0..] == path;
    FateExists(root, path, src);
    ExistsIsPath(root, path);
  }

  lemma FateExists(t: Node, rest: seq<string>, src: Source)
    requires t.Dir? && rest != [] && FateOf([], t, rest, src) != Absent
    ensures Exists(t, rest)
  {
  }

  /** The inventory lists the same entries as the walk, each once, in strictly ascending order of their paths. */
  lemma InventoryIsSorted(root: Node, src: Source, found: Found)
    requires OkTree(root) && Inventory(root, src) == Ok(found)
    ensures root.Dir? && Walk([], root, src).Ok?
    ensures forall l :: l in found.files <==> l in Walk([], root, src).value.files
    ensures forall o :: o in found.omissions <==> o in Walk([], root, src).value.omissions
    ensures StrictlyAscendsBy(ListedKey, found.files) && StrictlyAscendsBy(LeftKey, found.omissions)
  {
    hide Walk, WalkFates, SortBy, SelectionFault, OkTree, IsPath, Text;
    WalkReports([], root, src);
    var walked := Walk([], root, src).value;
    forall i, j | 0 <= i < j < |walked.files| ensures ListedKey(walked.files[i]) != ListedKey(walked.files[j]) {
      assert walked.files[i] in walked.files && walked.files[j] in walked.files;
      KeysDiffer(root, src, walked.files[i].path, walked.files[j].path);
    }
    forall i, j | 0 <= i < j < |walked.omissions| ensures LeftKey(walked.omissions[i]) != LeftKey(walked.omissions[j]) {
      assert walked.omissions[i] in walked.omissions && walked.omissions[j] in walked.omissions;
      KeysDiffer(root, src, walked.omissions[i].path, walked.omissions[j].path);
    }
    SortByStrict(ListedKey, walked.files);
    SortByStrict(LeftKey, walked.omissions);
    assert forall l :: l in found.files <==> l in multiset(found.files);
    assert forall l :: l in walked.files <==> l in multiset(walked.files);
    assert forall o :: o in found.omissions <==> o in multiset(found.omissions);
    assert forall o :: o in walked.omissions <==> o in multiset(walked.omissions);
  }

  lemma KeysDiffer(root: Node, src: Source, a: seq<string>, b: seq<string>)
    requires root.Dir? && OkTree(root) && a != b
    requires WalkFates([], root, src)(a) != Absent && WalkFates([], root, src)(b) != Absent
    ensures PathKey(a) != PathKey(b)
  {
    hide WalkFates, OkTree, Text;
    ReportedIsPath(root, src, a);
    ReportedIsPath(root, src, b);
    if PathKey(a) == PathKey(b) {
      TextInjective(a, b);
    }
  }
}
