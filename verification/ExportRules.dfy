/** The rules of the exporter, each by its own condition: the scope of a path, what is refused by name, what a selection
    must satisfy, and what becomes of one file or directory. */
module ExportRules {
  import opened ExportWalk
  import opened Sorting
  import opened SourcePaths
  import opened SourceSelection
  import opened TextFormats
  import opened Wrappers

  // Texts.

  predicate StartsWith(text: string, front: string) { |front| <= |text| && text[..|front|] == front }

  predicate StopsWith(text: string, back: string) { |back| <= |text| && text[|text| - |back|..] == back }

  lemma EndsExactly(text: string, back: string)
    ensures EndsWith(text, back) <==> StopsWith(text, back)
  {
  }

  /** The path is `above`, or lies below it. */
  predicate LiesIn(path: string, above: string) { path == above || StartsWith(path, above + "/") }

  lemma LiesExactly(path: string, above: string)
    ensures Under(path, above) <==> LiesIn(path, above)
  {
  }

  /** Lower case, letter by letter. */
  lemma {:induction false} LowerExactly(s: string)
    ensures |Lower(s)| == |s|
    ensures forall i :: 0 <= i < |s| ==>
              Lower(s)[i] == if 'A' <= s[i] <= 'Z' then (s[i] as int - 'A' as int + 'a' as int) as char else s[i]
  {
    if s != "" {
      LowerExactly(s[1..]);
    }
  }

  /** Safe texts are the texts of paths, without backslashes and colons. */
  lemma SafeExactly(text: string)
    ensures IsSafe(text) <==>
            '\\' !in text && ':' !in text && exists parts :: parts != [] && IsPath(parts) && Text(parts) == text
  {
    if IsSafe(text) {
      SplitParts(text);
      assert Text(Split(text)) == text;
    }
    if parts :| parts != [] && IsPath(parts) && Text(parts) == text {
      SplitText(parts);
      NoNul(parts);
    }
  }

  lemma {:induction false} SplitParts(text: string)
    ensures Text(Split(text)) == text
    ensures forall i :: 0 <= i < |Split(text)| ==>
              '/' !in Split(text)[i] && forall c :: c in Split(text)[i] ==> c in text
  {
    if text != "" {
      SplitParts(text[1..]);
      var rest := Split(text[1..]);
      if text[0] == '/' {
        assert ([""] + rest)[1..] == rest;
      } else {
        var parts := [[text[0]] + rest[0]] + rest[1..];
        assert parts[1..] == rest[1..];
        assert Text(parts) == [text[0]] + Text(rest);
      }
      assert forall c :: c in text[1..] ==> c in text;
    }
  }

  lemma {:induction false} NoNul(parts: seq<string>)
    requires parts != [] && forall i :: 0 <= i < |parts| ==> IsName(parts[i])
    ensures '\0' !in Text(parts) && Text(parts) != ""
  {
    if |parts| > 1 {
      NoNul(parts[1..]);
    }
  }

  // The scope of a path.

  /** The anchor holds the path, or a directory at the path leads to it; the anchor `.` holds everything. */
  predicate Selects(anchor: string, path: string, directory: bool) {
    anchor == "." || LiesIn(path, anchor) || (directory && StartsWith(anchor, path + "/"))
  }

  /** The first omission that holds the path gives the reason; otherwise some anchor must select it. */
  lemma ScopeExactly(path: string, s: Selection, directory: bool)
    ensures SelectionReason(path, None, directory) == None
    ensures var r := SelectionReason(path, Some(s), directory);
            && (forall i :: 0 <= i < |s.omit| && LiesIn(path, s.omit[i].path) &&
                            (forall j :: 0 <= j < i ==> !LiesIn(path, s.omit[j].path)) ==>
                  r == Some(OwnerSelectedOmission(s.omit[i].reason)))
            && ((forall i :: 0 <= i < |s.omit| ==> !LiesIn(path, s.omit[i].path)) ==>
                  r == if exists i :: 0 <= i < |s.anchors| && Selects(s.anchors[i], path, directory)
                       then None else Some(OutsideSelection))
  {
    hide Under, LiesIn, StartsWith;
    OmittedExactly(path, s.omit);
    forall p ensures Under(path, p) <==> LiesIn(path, p) {
      LiesExactly(path, p);
    }
    forall i | 0 <= i < |s.anchors|
      ensures Reaches(path, s.anchors[i], directory) <==> Selects(s.anchors[i], path, directory)
    {
      LeadsExactly(path, s.anchors[i]);
    }
  }

  lemma LeadsExactly(path: string, anchor: string)
    ensures path + "/" <= anchor <==> StartsWith(anchor, path + "/")
  {
  }

  // What is refused by name.

  predicate HoldsCredentials(parts: seq<string>)
    requires parts != []
  {
    var n := Lower(parts[|parts| - 1]);
    || (exists i :: 0 <= i < |parts| && Lower(parts[i]) in [".ssh", "custody", "keyring"])
    || n in [".env", ".envrc", "auth.json", "auth.lock", "credentials.json", "credentials", "id_rsa", "id_ed25519",
             ".netrc", ".npmrc", ".pypirc", "custody.json", "capability.json", "capabilities.json"]
    || StartsWith(n, ".env.")
    || StopsWith(n, ".pem") || StopsWith(n, ".key") || StopsWith(n, ".p12") || StopsWith(n, ".pfx")
  }

  predicate IsRebuildable(parts: seq<string>, kind: Kind) {
    && (kind == Hermes || kind == Codex || kind == Project)
    && exists i :: 0 <= i < |parts| &&
         parts[i] in ["__pycache__", ".venv", "node_modules", ".pytest_cache", ".ruff_cache"]
  }

  predicate IsDatabaseSidecar(name: string) {
    || StopsWith(name, ".db-wal") || StopsWith(name, ".db-shm") || StopsWith(name, ".sqlite-wal")
    || StopsWith(name, ".sqlite-shm") || StopsWith(name, ".sqlite3-wal") || StopsWith(name, ".sqlite3-shm")
  }

  /** The reasons for which a path is refused, the first that applies. */
  lemma ExcludedExactly(parts: seq<string>, kind: Kind)
    requires parts != []
    ensures var r, credentials := Excluded(parts, kind), HoldsCredentials(parts);
            var history, rebuildable := ".git" in parts, IsRebuildable(parts, kind);
            var sidecar := IsDatabaseSidecar(parts[|parts| - 1]);
            && (credentials ==> r == Some(Credential))
            && (!credentials && history ==> r == Some(RepositoryHistory))
            && (!credentials && !history && rebuildable ==> r == Some(RebuildableRuntime))
            && (!credentials && !history && !rebuildable && sidecar ==> r == Some(SqliteSidecar))
            && (!credentials && !history && !rebuildable && !sidecar ==> r == None)
  {
    hide Lower;
    CredentialsExactly(parts);
    RebuildableExactly(parts, kind);
    SidecarsExactly(parts[|parts| - 1]);
  }

  lemma CredentialsExactly(parts: seq<string>)
    requires parts != []
    ensures HoldsCredentials(parts) <==> HoldsSecrets(parts) || IsSecretName(parts[|parts| - 1])
  {
    hide Lower;
    forall i | 0 <= i < |parts|
      ensures IsSecretDirectory(parts[i]) <==> Lower(parts[i]) in [".ssh", "custody", "keyring"]
    {
    }
  }

  lemma RebuildableExactly(parts: seq<string>, kind: Kind)
    ensures IsRebuildable(parts, kind) <==> Rebuilds(kind) && HoldsEphemera(parts)
  {
    forall i | 0 <= i < |parts|
      ensures IsEphemeral(parts[i]) <==>
              parts[i] in ["__pycache__", ".venv", "node_modules", ".pytest_cache", ".ruff_cache"]
    {
    }
  }

  lemma SidecarsExactly(name: string)
    ensures IsDatabaseSidecar(name) <==> IsSidecarName(name)
  {
    hide StopsWith, EndsWith;
    forall back ensures EndsWith(name, back) <==> StopsWith(name, back) {
      EndsExactly(name, back);
    }
  }

  // What a selection must satisfy.

  /** Nothing but white space. */
  predicate IsBlankText(text: string) {
    forall i :: 0 <= i < |text| ==> text[i] as int in {9, 10, 11, 12, 13, 28, 29, 30, 31, 32}
  }

  lemma BlankExactly(text: string)
    ensures IsBlank(text) <==> IsBlankText(text)
  {
  }

  /** An omission without a reason, or else with an unsafe path. */
  predicate IsBadOmission(o: Omission) { IsBlankText(o.reason) || !IsSafe(o.path) }

  predicate IsFirstBad(omit: seq<Omission>, k: nat) {
    k < |omit| && IsBadOmission(omit[k]) && forall i :: 0 <= i < k ==> !IsBadOmission(omit[i])
  }

  /** The first bad omission decides. */
  lemma {:induction false} OmissionsExactly(omit: seq<Omission>) returns (bad: Option<nat>)
    ensures match bad
            case None => OmissionFault(omit) == None && forall i :: 0 <= i < |omit| ==> !IsBadOmission(omit[i])
            case Some(k) =>
              && IsFirstBad(omit, k)
              && OmissionFault(omit) == Some(if IsBlankText(omit[k].reason) then OmissionReasonRequired else UnsafePath)
  {
    hide IsBlank, IsBlankText, IsSafe;
    bad := None;
    if omit != [] {
      BlankExactly(omit[0].reason);
      if IsBadOmission(omit[0]) {
        bad := Some(0);
      } else {
        var below := OmissionsExactly(omit[1..]);
        bad := if below == None then None else Some(below.value + 1);
      }
    }
  }

  /** Two anchors, or the paths of two omissions, are the same. */
  predicate RepeatsPaths(s: Selection) {
    || (exists i, j :: 0 <= i < j < |s.anchors| && s.anchors[i] == s.anchors[j])
    || (exists i, j :: 0 <= i < j < |s.omit| && s.omit[i].path == s.omit[j].path)
  }

  predicate DropsAnchor(s: Selection) {
    exists i, j :: 0 <= i < |s.anchors| && 0 <= j < |s.omit| && LiesIn(s.anchors[i], s.omit[j].path)
  }

  /** Why a selection is refused: each fault has its own condition, in the order of the checks. */
  lemma SelectionExactly(s: Selection)
    ensures var owned := s.ownership == SameBeing || s.ownership == SharedCommons;
            var declared := s.sqliteOwnership in {SameBeing, UnknownOwner, MixedOwners};
            var safe := forall i :: 0 <= i < |s.anchors| ==> s.anchors[i] == "." || IsSafe(s.anchors[i]);
            var reasoned := forall i :: 0 <= i < |s.omit| ==> !IsBadOmission(s.omit[i]);
            var r := SelectionFault(s);
            && (!owned ==> r == Some(OwnershipRequired))
            && (owned && !declared ==> r == Some(InvalidSqliteOwnership))
            && (owned && declared && s.anchors == [] ==> r == Some(NonemptySelectionRequired))
            && (owned && declared && s.anchors != [] && !safe ==> r == Some(UnsafePath))
            && (owned && declared && s.anchors != [] && safe ==>
                  forall k: nat :: IsFirstBad(s.omit, k) ==>
                    r == Some(if IsBlankText(s.omit[k].reason) then OmissionReasonRequired else UnsafePath))
            && (owned && declared && s.anchors != [] && safe && reasoned ==>
                  && (RepeatsPaths(s) ==> r == Some(DuplicatePath))
                  && (!RepeatsPaths(s) && DropsAnchor(s) ==> r == Some(AnchorConflictsWithOmission))
                  && (!RepeatsPaths(s) && !DropsAnchor(s) ==> r == None))
  {
    hide IsSafe, Under, LiesIn, IsBadOmission;
    var bad := OmissionsExactly(s.omit);
    RepeatsExactly(s);
    DropsExactly(s);
  }

  lemma RepeatsExactly(s: Selection)
    ensures RepeatsPaths(s) <==> !DistinctAnchors(s.anchors) || !DistinctPaths(s.omit)
  {
  }

  lemma DropsExactly(s: Selection)
    ensures DropsAnchor(s) <==> exists i :: 0 <= i < |s.anchors| && Covers(s.omit, s.anchors[i])
  {
    hide Under, LiesIn;
    forall path, above ensures Under(path, above) <==> LiesIn(path, above) {
      LiesExactly(path, above);
    }
    if i, j :| 0 <= i < |s.anchors| && 0 <= j < |s.omit| && LiesIn(s.anchors[i], s.omit[j].path) {
      assert Covers(s.omit, s.anchors[i]);
    }
    if i :| 0 <= i < |s.anchors| && Covers(s.omit, s.anchors[i]) {
      var j :| 0 <= j < |s.omit| && Under(s.anchors[i], s.omit[j].path);
      assert LiesIn(s.anchors[i], s.omit[j].path);
    }
  }

  // Directories.

  /** A child that the selection reaches although no anchor lies in it. */
  predicate NeedsAnchor(at: seq<string>, t: Node, n: string, s: Selection)
    requires t.Dir? && n in t.entries
  {
    var path, child := Text(at + [n]), t.entries[n];
    && SelectionReason(path, Some(s), child.Dir? || (child.Link? && child.toDirectory)) == None
    && forall i :: 0 <= i < |s.anchors| ==> !LiesIn(s.anchors[i], path)
  }

  /** What becomes of a directory, or of a link to one. */
  lemma DirFateExactly(at: seq<string>, t: Node, src: Source)
    requires at != [] && (t.Dir? || (t.Link? && t.toDirectory))
    ensures var scope, refused := SelectionReason(Text(at), src.selection, true), Excluded(at, src.kind);
            var fate, profiles := DirFate(at, t, src), at[|at| - 1] == "profiles" && src.kind in {Hermes, Codex};
            && (scope != None ==> fate == Dropped(scope.value, None))
            && (scope == None && refused != None ==> fate == Dropped(refused.value, None))
            && (scope == None && refused == None && t.Link? ==> fate == Dropped(UnresolvedSymlink, None))
            && (scope == None && refused == None && t.Dir? && !profiles ==> fate == Entered)
            && (scope == None && refused == None && t.Dir? && profiles ==>
                  fate == if src.selection == None then Fails(ProfilesNeedSelection)
                          else if exists n :: n in t.entries && NeedsAnchor(at, t, n, src.selection.value)
                          then Fails(ProfileNeedsAnchor) else Entered)
  {
    hide SelectionReason, Excluded, Under, LiesIn;
    if t.Dir? && src.selection.Some? {
      forall n | n in t.entries
        ensures NeedsAnchor(at, t, n, src.selection.value) <==>
                IsUnanchored(at + [n], t.entries[n], src.selection.value)
      {
        AnchorExactly(at, t, n, src.selection.value);
      }
    }
  }

  lemma AnchorExactly(at: seq<string>, t: Node, n: string, s: Selection)
    requires t.Dir? && n in t.entries
    ensures NeedsAnchor(at, t, n, s) <==> IsUnanchored(at + [n], t.entries[n], s)
  {
    hide SelectionReason, Under, LiesIn;
    var path := Text(at + [n]);
    forall i | 0 <= i < |s.anchors| ensures Under(s.anchors[i], path) <==> LiesIn(s.anchors[i], path) {
      LiesExactly(s.anchors[i], path);
    }
  }

  // Files.

  /** A file that would be listed: nothing stands against its path, and it is no sidecar itself. */
  predicate IsListable(at: seq<string>, t: Node, name: string, src: Source)
    requires t.Dir?
  {
    && name in t.entries && t.entries[name].File? && SelectionReason(Text(at + [name]), src.selection, false) == None
    && Excluded(at + [name], src.kind) == None && !IsSidecar(at, t, name, src)
  }

  lemma CutExactly(name: string, base: string)
    ensures HasSidecarSuffix(name) ==> |name| >= 4
    ensures name == base + "-wal" || name == base + "-shm" <==>
            HasSidecarSuffix(name) && base == name[..|name| - 4]
  {
    if HasSidecarSuffix(name) && base == name[..|name| - 4] {
      assert name == base + name[|name| - 4..];
    }
  }

  lemma ListableExactly(at: seq<string>, t: Node, name: string, src: Source)
    requires t.Dir?
    ensures IsChosen(at, t, name, src) <==> IsListable(at, t, name, src)
    ensures IsListable(at, t, name, src) ==> name in t.entries
  {
    hide SelectionReason, Excluded, IsSidecar;
  }

  /** The write-ahead files of a listed database beside them are its sidecars. */
  lemma SidecarExactly(at: seq<string>, t: Node, name: string, src: Source)
    requires t.Dir?
    ensures IsSidecar(at, t, name, src) <==>
            && src.selection != None
            && exists base :: base in t.entries && (name == base + "-wal" || name == base + "-shm") &&
                 IsListable(at, t, base, src) && t.entries[base].sqlite
  {
    hide IsListable, HasSidecarSuffix, IsChosen;
    CutExactly(name, "");
    forall base ensures name == base + "-wal" || name == base + "-shm" <==>
                        HasSidecarSuffix(name) && base == name[..|name| - 4]
    {
      CutExactly(name, base);
    }
    if HasSidecarSuffix(name) {
      ListableExactly(at, t, name[..|name| - 4], src);
    }
  }

  predicate StopsAsSidecar(name: string) { StopsWith(name, "-wal") || StopsWith(name, "-shm") }

  /** What is recorded of an omitted file: its state, unless it is shared memory or out of scope. */
  predicate HasInfo(node: Node, name: string, scoped: bool, info: Option<Stat>) {
    info == if node.File? && !StopsWith(name, "-shm") && !scoped then Some(node.stat) else None
  }

  /** What becomes of a file, a link or anything else that is no directory. */
  lemma FileFateExactly(at: seq<string>, t: Node, name: string, src: Source)
    requires t.Dir? && name in t.entries
    ensures var node, path, fate := t.entries[name], Text(at + [name]), FileFate(at, t, name, src);
            var scope, refused := SelectionReason(path, src.selection, false), Excluded(at + [name], src.kind);
            var safe, sidecar := IsSafe(path), IsSidecar(at, t, name, src);
            var omitted := scope != None && scope.value.OwnerSelectedOmission?;
            && (!safe ==> fate == Fails(UnsafePath))
            && (safe && sidecar && omitted ==> fate == Fails(SidecarConflictsWithSelection))
            && (safe && sidecar && !omitted && !node.File? ==> fate == Fails(SidecarMustBeRegular))
            && (safe && sidecar && !omitted && node.File? ==>
                  fate.Dropped? && fate.reason == SqliteSidecar && HasInfo(node, name, false, fate.info))
            && (safe && !sidecar && scope != None ==>
                  fate.Dropped? && fate.reason == scope.value && HasInfo(node, name, true, fate.info))
            && (safe && !sidecar && scope == None && refused != None ==>
                  fate.Dropped? && fate.reason == refused.value && HasInfo(node, name, false, fate.info))
            && (safe && !sidecar && scope == None && refused == None ==>
                  && (node.Link? ==> fate == Dropped(UnresolvedSymlink, None))
                  && (node.Special? || node.Dir? ==> fate == Dropped(UnresolvedSpecialFile, None))
                  && (node.File? ==>
                        fate == if src.selection != None && node.sqlite &&
                                   src.selection.value.sqliteOwnership != SameBeing
                                then Fails(SqliteNeedsOwnership) else Kept(node.stat, node.mode)))
  {
    hide IsSafe, IsSidecar, EndsWith, StopsWith;
    EndsExactly(name, "-shm");
    ScopeReasons(Text(at + [name]), src.selection);
    ExcludedReasons(at + [name], src.kind);
  }

  lemma ScopeReasons(path: string, selection: Option<Selection>)
    ensures var r := SelectionReason(path, selection, false);
            r != None ==> r.value.OwnerSelectedOmission? || r.value.OutsideSelection?
  {
    hide FirstOmission, InScope;
  }

  lemma ExcludedReasons(parts: seq<string>, kind: Kind)
    requires parts != []
    ensures var r := Excluded(parts, kind);
            r != None ==> r.value in {Credential, RepositoryHistory, RebuildableRuntime, SqliteSidecar}
  {
    hide HoldsSecrets, IsSecretName, HoldsEphemera, IsSidecarName;
  }

  /** The whole inventory: what it refuses at once, and that it is otherwise the walk in order. */
  lemma InventoryExactly(root: Node, src: Source)
    ensures var r := Inventory(root, src);
            var fault := if src.selection == None then None else SelectionFault(src.selection.value);
            && (!root.Dir? ==> r == Err(RootMustBeDirectory))
            && (root.Dir? && fault != None ==> r == Err(fault.value))
            && (root.Dir? && fault == None ==>
                  match Walk([], root, src)
                  case Err(f) => r == Err(f)
                  case Ok(found) =>
                    && r.Ok? && multiset(r.value.files) == multiset(found.files)
                    && multiset(r.value.omissions) == multiset(found.omissions))
  {
    hide Walk, SelectionFault;
    if root.Dir? && Walk([], root, src).Ok? {
      var found := Walk([], root, src).value;
      SortByAscends(ListedKey, found.files);
      SortByAscends(LeftKey, found.omissions);
    }
  }
}
