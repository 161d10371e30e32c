/** Which paths of a source an owner selected, and which the exporter refuses by itself. */
module SourceSelection {
  import opened SourcePaths
  import opened TextFormats
  import opened Wrappers

  datatype Kind = Hermes | Codex | Memory | Skills | Context | Sessions | Project

  datatype Ownership = SameBeing | SharedCommons | UnknownOwner | MixedOwners | OtherOwnership

  datatype Omission = Omission(path: string, reason: string)

  datatype Selection = Selection(anchors: seq<string>, omit: seq<Omission>, ownership: Ownership,
                                 sqliteOwnership: Ownership)

  /** Why a path is left out. */
  datatype Reason =
    | OwnerSelectedOmission(text: string)
    | OutsideSelection
    | Credential
    | RepositoryHistory
    | RebuildableRuntime
    | SqliteSidecar
    | UnresolvedSymlink
    | UnresolvedSpecialFile

  datatype Failure =
    | OwnershipRequired
    | InvalidSqliteOwnership
    | NonemptySelectionRequired
    | UnsafePath
    | OmissionReasonRequired
    | DuplicatePath
    | AnchorConflictsWithOmission
    | ProfilesNeedSelection
    | ProfileNeedsAnchor
    | SidecarConflictsWithSelection
    | SidecarMustBeRegular
    | SqliteNeedsOwnership
    | RootMustBeDirectory

  // The selection itself.

  predicate IsBlank(s: string) { forall i :: 0 <= i < |s| ==> IsSpace(s[i]) }

  predicate DistinctPaths(omit: seq<Omission>) {
    forall i, j :: 0 <= i < j < |omit| ==> omit[i].path != omit[j].path
  }

  predicate DistinctAnchors(anchors: seq<string>) {
    forall i, j :: 0 <= i < j < |anchors| ==> anchors[i] != anchors[j]
  }

  predicate Covers(omit: seq<Omission>, path: string) {
    exists i :: 0 <= i < |omit| && Under(path, omit[i].path)
  }

  function OmissionFault(omit: seq<Omission>): Option<Failure> {
    if omit == [] then None
    else if IsBlank(omit[0].reason) then Some(OmissionReasonRequired)
    else if !IsSafe(omit[0].path) then Some(UnsafePath)
    else OmissionFault(omit[1..])
  }

  /** `validate_selection` on a selection whose fields have the right types. */
  function SelectionFault(s: Selection): Option<Failure> {
    if !s.ownership.SameBeing? && !s.ownership.SharedCommons? then Some(OwnershipRequired)
    else if s.sqliteOwnership.SharedCommons? || s.sqliteOwnership.OtherOwnership? then Some(InvalidSqliteOwnership)
    else if s.anchors == [] then Some(NonemptySelectionRequired)
    else if exists i :: 0 <= i < |s.anchors| && s.anchors[i] != "." && !IsSafe(s.anchors[i]) then Some(UnsafePath)
    else if OmissionFault(s.omit).Some? then OmissionFault(s.omit)
    else if !DistinctAnchors(s.anchors) || !DistinctPaths(s.omit) then Some(DuplicatePath)
    else if exists i :: 0 <= i < |s.anchors| && Covers(s.omit, s.anchors[i]) then Some(AnchorConflictsWithOmission)
    else None
  }

  // The scope of a path.

  /** The reason of the first omission that holds the path. */
  function FirstOmission(path: string, omit: seq<Omission>): Option<string> {
    if omit == [] then None
    else if Under(path, omit[0].path) then Some(omit[0].reason)
    else FirstOmission(path, omit[1..])
  }

  /** An anchor that holds the path, or that a directory at the path leads to. */
  predicate Reaches(path: string, anchor: string, directory: bool) {
    anchor == "." || Under(path, anchor) || (directory && path + "/" <= anchor)
  }

  predicate InScope(path: string, anchors: seq<string>, directory: bool) {
    exists i :: 0 <= i < |anchors| && Reaches(path, anchors[i], directory)
  }

  function SelectionReason(path: string, selection: Option<Selection>, directory: bool): Option<Reason> {
    match selection
    case None => None
    case Some(s) =>
      if FirstOmission(path, s.omit).Some? then Some(OwnerSelectedOmission(FirstOmission(path, s.omit).value))
      else if InScope(path, s.anchors, directory) then None
      else Some(OutsideSelection)
  }

  lemma {:induction false} OmittedExactly(path: string, omit: seq<Omission>)
    ensures FirstOmission(path, omit).Some? <==> Covers(omit, path)
    ensures forall i :: 0 <= i < |omit| && Under(path, omit[i].path)
                        && (forall j :: 0 <= j < i ==> !Under(path, omit[j].path))
                        ==> FirstOmission(path, omit) == Some(omit[i].reason)
  {
    hide Under;
    if omit != [] {
      var rest := omit[1..];
      OmittedExactly(path, rest);
      assert omit == [omit[0]] + rest;
      if !Under(path, omit[0].path) {
        if Covers(omit, path) {
          var i :| 0 <= i < |omit| && Under(path, omit[i].path);
          assert rest[i - 1] == omit[i];
        }
        if Covers(rest, path) {
          var i :| 0 <= i < |rest| && Under(path, rest[i].path);
          assert omit[i + 1] == rest[i];
        }
        forall i | 0 <= i < |omit| && Under(path, omit[i].path) && (forall j :: 0 <= j < i ==>
            !Under(path, omit[j].path))
          ensures FirstOmission(path, omit) == Some(omit[i].reason)
        {
          assert rest[i - 1] == omit[i];
          assert forall j :: 0 <= j < i - 1 ==> rest[j] == omit[j + 1];
        }
      }
    }
  }

  /** A validated selection never drops one of its own anchors. */
  lemma AnchorsAreSelected(s: Selection, i: int, directory: bool)
    requires SelectionFault(s) == None && 0 <= i < |s.anchors| && s.anchors[i] != "."
    ensures SelectionReason(s.anchors[i], Some(s), directory) == None
  {
    hide Under, IsSafe, OmissionFault;
    OmittedExactly(s.anchors[i], s.omit);
    assert Reaches(s.anchors[i], s.anchors[i], directory) by {
      SelfUnder(s.anchors[i]);
    }
  }

  lemma SelfUnder(path: string)
    ensures Under(path, path)
  {
  }

  /** An anchor above a path, or below it, is reached from every directory on the way. */
  lemma ReachesFromAbove(path: string, above: string, anchor: string, directory: bool)
    requires above + "/" <= path && Reaches(path, anchor, directory)
    ensures Reaches(above, anchor, true)
  {
    if anchor != "." {
      if Under(path, anchor) {
        UnderComparable(path, above, anchor);
      }
    }
  }

  lemma CoversBelow(omit: seq<Omission>, path: string, above: string)
    requires above + "/" <= path && Covers(omit, above)
    ensures Covers(omit, path)
  {
    hide Under;
    var i :| 0 <= i < |omit| && Under(above, omit[i].path);
    GoesUnder(path, above);
    UnderTransitive(path, above, omit[i].path);
  }

  /** Pruning by scope loses nothing: whatever is selected is reachable through selected directories. */
  lemma ScopeReachesDown(path: string, above: string, selection: Option<Selection>, directory: bool)
    requires above + "/" <= path
    requires SelectionReason(path, selection, directory) == None
    ensures SelectionReason(above, selection, true) == None
  {
    hide Reaches, Under;
    if selection.Some? {
      var s := selection.value;
      OmittedExactly(path, s.omit);
      OmittedExactly(above, s.omit);
      if Covers(s.omit, above) {
        CoversBelow(s.omit, path, above);
      }
      var i :| 0 <= i < |s.anchors| && Reaches(path, s.anchors[i], directory);
      ReachesFromAbove(path, above, s.anchors[i], directory);
    }
  }

  lemma GoesUnder(path: string, above: string)
    requires above + "/" <= path
    ensures Under(path, above)
  {
  }

  // What the exporter refuses by itself.

  function LowerChar(c: char): char { if IsUpper(c) then (c as int + 32) as char else c }

  function Lower(s: string): string {
    if s == "" then "" else [LowerChar(s[0])] + Lower(s[1..])
  }

  predicate IsSecretDirectory(name: string) { Lower(name) in [".ssh", "custody", "keyring"] }

  predicate IsSecretName(name: string) {
    var n := Lower(name);
    n in [".env", ".envrc", "auth.json", "auth.lock", "credentials.json", "credentials", "id_rsa", "id_ed25519",
          ".netrc", ".npmrc", ".pypirc", "custody.json", "capability.json", "capabilities.json"] ||
    ".env." <= n || EndsWith(n, ".pem") || EndsWith(n, ".key") || EndsWith(n, ".p12") || EndsWith(n, ".pfx")
  }

  predicate IsEphemeral(name: string) {
    name in ["__pycache__", ".venv", "node_modules", ".pytest_cache", ".ruff_cache"]
  }

  predicate IsSidecarName(name: string) {
    EndsWith(name, ".db-wal") || EndsWith(name, ".db-shm") || EndsWith(name, ".sqlite-wal") ||
    EndsWith(name, ".sqlite-shm") || EndsWith(name, ".sqlite3-wal") || EndsWith(name, ".sqlite3-shm")
  }

  predicate Rebuilds(kind: Kind) { kind.Hermes? || kind.Codex? || kind.Project? }

  predicate HoldsSecrets(parts: seq<string>) { exists i :: 0 <= i < |parts| && IsSecretDirectory(parts[i]) }

  predicate HoldsEphemera(parts: seq<string>) { exists i :: 0 <= i < |parts| && IsEphemeral(parts[i]) }

  /** `excluded`. */
  function Excluded(parts: seq<string>, kind: Kind): Option<Reason>
    requires parts != []
  {
    var last := parts[|parts| - 1];
    if HoldsSecrets(parts) || IsSecretName(last) then Some(Credential)
    else if ".git" in parts then Some(RepositoryHistory)
    else if Rebuilds(kind) && HoldsEphemera(parts) then Some(RebuildableRuntime)
    else if IsSidecarName(last) then Some(SqliteSidecar)
    else None
  }

  /** A name that is refused where it stands last, though nothing below it is refused for it. */
  predicate NamesAFile(name: string) { IsSecretName(name) || IsSidecarName(name) }

  /** On the way to a path that is not refused, only such a name can be refused. */
  lemma ExcludedAbove(parts: seq<string>, above: seq<string>, kind: Kind)
    requires above != [] && above < parts && Excluded(parts, kind) == None
    ensures Excluded(above, kind) != None <==> NamesAFile(above[|above| - 1])
  {
    hide IsSecretDirectory, IsSecretName, IsEphemeral, IsSidecarName;
    HoldsBelow(parts, above);
  }

  lemma HoldsBelow(parts: seq<string>, above: seq<string>)
    requires above <= parts
    ensures HoldsSecrets(above) ==> HoldsSecrets(parts)
    ensures HoldsEphemera(above) ==> HoldsEphemera(parts)
    ensures ".git" in above ==> ".git" in parts
  {
    hide IsSecretDirectory, IsEphemeral;
    if HoldsSecrets(above) {
      var i :| 0 <= i < |above| && IsSecretDirectory(above[i]);
      assert IsSecretDirectory(parts[i]);
    }
    if HoldsEphemera(above) {
      var i :| 0 <= i < |above| && IsEphemeral(above[i]);
      assert IsEphemeral(parts[i]);
    }
  }
}
