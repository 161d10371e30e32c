/** What an installation makes of a configuration, key by key: every value it sets, every value it keeps, and where new
    keys are put. */
module ConfigSettings {
  import opened ConfigInstall
  import opened ConfigTables
  import opened ConfigText
  import opened Wrappers

  /** The limit can be compared with a number: it is a number, a truth value or a float. */
  predicate CanCompare(item: Option<Item>, py: Python) {
    match item
    case None => true
    case Some(Table(_)) => false
    case Some(One(v)) =>
      || v.Number? || v.Flag?
      || (v.Plain? && (v.form in ["inf", "-inf", "nan"] || py.float(v.form) != None))
  }

  /** An integer of at least 32768 stays, and so does a float above it; everything else becomes 32768. */
  predicate HasLimit(before: Option<Item>, next: Option<Item>, py: Python) {
    match before
    case Some(One(Number(n))) => next == (if n >= 32768 then before else Some(One(Number(32768))))
    case Some(One(Plain(form))) =>
      var finite := form !in ["-inf", "nan"] && py.float(form) != None;
      var stays := form == "inf" || (finite && py.float(form).value > 32768.0);
      next == if stays then before else Some(One(Number(32768)))
    case _ => next == Some(One(Number(32768)))
  }

  /** The keys of the table are switched off, and all others are as they were. */
  ghost predicate SwitchesOff(before: Option<Item>, next: Option<Item>, keys: seq<string>) {
    && next.Some? && next.value.Table?
    && (forall k :: k in keys ==> Get(next.value.row, k) == Some(One(Flag(false))))
    && forall k :: k !in keys ==>
         Get(next.value.row, k) == if before.Some? && before.value.Table? then Get(before.value.row, k) else None
  }

  lemma UpdatedTable(row: Row, key: string, changes: seq<Change>, keys: seq<string>, other: string)
    requires UpdateTable(row, key, changes).Some? && |changes| == |keys| && DistinctChanges(changes)
    requires forall i :: 0 <= i < |keys| ==> changes[i] == Change(keys[i], One(Flag(false)))
    ensures var next := UpdateTable(row, key, changes).value;
            SwitchesOff(Get(row, key), Get(next, key), keys) && (other != key ==> Get(next, other) == Get(row, other))
  {
    hide UpdateAll, Get, DistinctChanges;
    var t := match Get(row, key) case Some(Table(t)) => t case _ => [];
    var after := UpdateAll(t, changes);
    UpdateMakes(t, changes);
    GetOfSet(row, key, Table(after), key);
    GetOfSet(row, key, Table(after), other);
    GetOfNothing();
    forall k | k !in keys ensures Get(after, k) == Get(t, k) {
      UpdateKeeps(t, changes, k);
    }
    forall k | k in keys ensures Get(after, k) == Some(One(Flag(false))) {
      var i :| 0 <= i < |keys| && keys[i] == k;
      HasOne(after, changes, i);
    }
  }

  lemma GetOfNothing()
    ensures forall k :: Get([], k) == None
  {
  }

  /** What the two tables become, and that nothing else changes with them. */
  lemma TablesOff(first: Row, second: Row, third: Row, key: string)
    requires UpdateTable(first, "features", FEATURES) == Some(second)
    requires UpdateTable(second, "memories", MEMORIES) == Some(third)
    ensures SwitchesOff(Get(first, "features"), Get(third, "features"),
                        ["hooks", "memories", "external_agent_memory_import"])
    ensures SwitchesOff(Get(first, "memories"), Get(third, "memories"), ["generate_memories", "use_memories"])
    ensures key !in ["features", "memories"] ==> Get(third, key) == Get(first, key)
  {
    hide Get, UpdateTable, SwitchesOff, DistinctChanges;
    ChangesAreDistinct(Settings("", "", "", ""), One(Flag(true)));
    var on, off := ["hooks", "memories", "external_agent_memory_import"], ["generate_memories", "use_memories"];
    var features, memories := "features", "memories";
    assert features != memories;
    UpdatedTable(first, features, FEATURES, on, memories);
    UpdatedTable(first, features, FEATURES, on, key);
    UpdatedTable(second, memories, MEMORIES, off, features);
    UpdatedTable(second, memories, MEMORIES, off, key);
  }

  lemma FirstKeeps(row: Row, s: Settings, bytes: Item, key: string)
    requires IsOtherKey(key) || key in ["features", "memories"]
    ensures Get(UpdateAll(row, TopChanges(s, bytes)), key) == Get(row, key)
  {
    hide Get, UpdateAll;
    UpdateKeeps(row, TopChanges(s, bytes), key);
  }

  lemma TopSettings(first: Row, s: Settings, bytes: Item)
    requires Has(first, TopChanges(s, bytes))
    ensures Get(first, "model") == Some(One(Text(s.model))) && Get(first, "model_provider") == Some(One(Text("openai")))
    ensures Get(first, "model_reasoning_effort") == Some(One(Text(s.reasoning)))
    ensures Get(first, "approval_policy") == Some(One(Text(s.approval)))
    ensures Get(first, "sandbox_mode") == Some(One(Text(s.sandbox)))
    ensures Get(first, "project_doc_max_bytes") == Some(bytes)
  {
    hide Get;
    var cs := TopChanges(s, bytes);
    forall i | 0 <= i < 6 ensures Get(first, cs[i].key) == Some(cs[i].item) {
      HasOne(first, cs, i);
    }
    assert cs[0].key == "model" && cs[1].key == "model_provider" && cs[2].key == "model_reasoning_effort";
    assert cs[3].key == "approval_policy" && cs[4].key == "sandbox_mode" && cs[5].key == "project_doc_max_bytes";
  }

  lemma LimitHolds(before: Option<Item>, py: Python)
    requires MaxBytes(before, py.float).Some?
    ensures HasLimit(before, MaxBytes(before, py.float), py)
  {
  }

  lemma Stages(row: Row, s: Settings, py: Python) returns (bytes: Item, first: Row, second: Row)
    requires Apply(row, s, py).Some?
    ensures MaxBytes(Get(row, "project_doc_max_bytes"), py.float) == Some(bytes)
    ensures first == UpdateAll(row, TopChanges(s, bytes)) && Has(first, TopChanges(s, bytes))
    ensures UpdateTable(first, "features", FEATURES) == Some(second)
    ensures UpdateTable(second, "memories", MEMORIES) == Apply(row, s, py)
  {
    hide Get, UpdateAll, UpdateTable, MaxBytes, Has, DistinctChanges;
    bytes := MaxBytes(Get(row, BYTES), py.float).value;
    first := UpdateAll(row, TopChanges(s, bytes));
    second := UpdateTable(first, "features", FEATURES).value;
    ChangesAreDistinct(s, bytes);
    UpdateMakes(row, TopChanges(s, bytes));
  }

  /** The settings at the top. */
  predicate HasTop(row: Row, next: Row, s: Settings, py: Python) {
    && Get(next, "model") == Some(One(Text(s.model)))
    && Get(next, "model_provider") == Some(One(Text("openai")))
    && Get(next, "model_reasoning_effort") == Some(One(Text(s.reasoning)))
    && Get(next, "approval_policy") == Some(One(Text(s.approval)))
    && Get(next, "sandbox_mode") == Some(One(Text(s.sandbox)))
    && HasLimit(Get(row, "project_doc_max_bytes"), Get(next, "project_doc_max_bytes"), py)
  }

  lemma TopInForce(row: Row, s: Settings, py: Python)
    requires Apply(row, s, py).Some?
    ensures HasTop(row, Apply(row, s, py).value, s, py)
  {
    hide Get, Apply, UpdateAll, UpdateTable, MaxBytes, HasLimit, TopChanges, Has;
    var bytes, first, second := Stages(row, s, py);
    var third := Apply(row, s, py).value;
    TopSettings(first, s, bytes);
    LimitHolds(Get(row, "project_doc_max_bytes"), py);
    TablesOff(first, second, third, "model");
    TablesOff(first, second, third, "model_provider");
    TablesOff(first, second, third, "model_reasoning_effort");
    TablesOff(first, second, third, "approval_policy");
    TablesOff(first, second, third, "sandbox_mode");
    TablesOff(first, second, third, "project_doc_max_bytes");
  }

  lemma TablesInForce(row: Row, s: Settings, py: Python)
    requires Apply(row, s, py).Some?
    ensures var next := Apply(row, s, py).value;
            && SwitchesOff(Get(row, "features"), Get(next, "features"),
                           ["hooks", "memories", "external_agent_memory_import"])
            && SwitchesOff(Get(row, "memories"), Get(next, "memories"), ["generate_memories", "use_memories"])
  {
    hide Get, Apply, UpdateAll, UpdateTable, MaxBytes, SwitchesOff, TopChanges, Has;
    var bytes, first, second := Stages(row, s, py);
    TablesOff(first, second, Apply(row, s, py).value, "model");
    FirstKeeps(row, s, bytes, "features");
    FirstKeeps(row, s, bytes, "memories");
  }

  lemma OthersKept(row: Row, s: Settings, py: Python, key: string)
    requires Apply(row, s, py).Some? && IsOtherKey(key)
    ensures Get(Apply(row, s, py).value, key) == Get(row, key)
  {
    hide Get, Apply, UpdateAll, UpdateTable, MaxBytes, SwitchesOff, TopChanges, Has;
    var bytes, first, second := Stages(row, s, py);
    TablesOff(first, second, Apply(row, s, py).value, key);
    FirstKeeps(row, s, bytes, key);
  }

  /** Every setting, by its name. */
  lemma SettingsInForce(row: Row, s: Settings, py: Python)
    requires Apply(row, s, py).Some?
    ensures var next := Apply(row, s, py).value;
            && HasTop(row, next, s, py)
            && SwitchesOff(Get(row, "features"), Get(next, "features"),
                           ["hooks", "memories", "external_agent_memory_import"])
            && SwitchesOff(Get(row, "memories"), Get(next, "memories"), ["generate_memories", "use_memories"])
            && forall key :: IsOtherKey(key) ==> Get(next, key) == Get(row, key)
  {
    hide Get, Apply, SwitchesOff, HasTop, IsOtherKey;
    TopInForce(row, s, py);
    TablesInForce(row, s, py);
    forall key | IsOtherKey(key) ensures Get(Apply(row, s, py).value, key) == Get(row, key) {
      OthersKept(row, s, py, key);
    }
  }

  /** When the settings can be applied. */
  lemma AppliesExactly(row: Row, s: Settings, py: Python)
    ensures Apply(row, s, py) != None <==>
            && CanCompare(Get(row, "project_doc_max_bytes"), py)
            && (Get(row, "features") != None ==> Get(row, "features").value.Table?)
            && (Get(row, "memories") != None ==> Get(row, "memories").value.Table?)
  {
    hide Get, Apply;
    ApplyExactly(row, s, py);
  }

  // What is read of the installed text.

  predicate MeansSame(a: Option<Item>, b: Option<Item>) {
    (a == None <==> b == None) && (a != None && b != None ==> ItemMeaning(a.value) == ItemMeaning(b.value))
  }

  /** The keys of the table are switched off, and all others mean what they meant. */
  ghost predicate IsSwitchedOff(before: Option<Item>, next: Option<Item>, keys: seq<string>) {
    && next.Some? && next.value.Table?
    && (forall k :: k in keys ==> Get(next.value.row, k) == Some(One(Flag(false))))
    && forall k :: k !in keys ==>
         MeansSame(Get(next.value.row, k),
                   if before.Some? && before.value.Table? then Get(before.value.row, k) else None)
  }

  lemma NormMeansSame(row: Row, key: string)
    requires IsDict(row)
    ensures MeansSame(Get(Norm(row), key), Get(row, key))
    ensures Get(row, key).Some? && Get(row, key).value.One? ==> Get(Norm(row), key) == Get(row, key)
  {
    hide Norm, Get, IsDict;
    GetOfNorm(row, key);
    if Get(row, key).Some? && Get(row, key).value.Table? {
      GetIsDict(row, key);
      NormKeepsMeaning(Get(row, key).value.row);
    }
  }

  lemma NormIsSwitchedOff(row: Row, key: string, before: Option<Item>, keys: seq<string>)
    requires IsDict(row) && SwitchesOff(before, Get(row, key), keys)
    ensures IsSwitchedOff(before, Get(Norm(row), key), keys)
  {
    hide Norm, Get, IsDict, MeansSame;
    GetOfNorm(row, key);
    GetIsDict(row, key);
    var t := Get(row, key).value.row;
    forall k ensures k in keys ==> Get(Norm(t), k) == Some(One(Flag(false)))
             ensures MeansSame(Get(Norm(t), k), Get(t, k))
    {
      NormMeansSame(t, k);
    }
  }

  lemma NormHasTop(row: Row, next: Row, s: Settings, py: Python)
    requires IsDict(next) && HasTop(row, next, s, py)
    ensures HasTop(row, Norm(next), s, py)
  {
    hide Norm, Get, IsDict, MeansSame;
    NormMeansSame(next, "model");
    NormMeansSame(next, "model_provider");
    NormMeansSame(next, "model_reasoning_effort");
    NormMeansSame(next, "approval_policy");
    NormMeansSame(next, "sandbox_mode");
    NormMeansSame(next, "project_doc_max_bytes");
  }

  lemma RenderedIs(original: string, s: Settings, py: Python) returns (row: Row)
    requires ReadsToml(py) && Render(original, s, py).Ok?
    ensures py.parse(original) == Some(row) && Apply(row, s, py).Some? && IsDict(Apply(row, s, py).value)
    ensures py.parse(Render(original, s, py).value) == Some(Norm(Apply(row, s, py).value))
  {
    hide IsDict, Apply, Print, ReadDocument, DocumentText, IsCleanRow, IsPrintable, AllAtoms, MeaningOf, Norm;
    row := py.parse(original).value;
    var next := Apply(row, s, py).value;
    ApplyIsSettled(row, s, py);
    ApplyIsWellFormed(row, s, py);
    ConfigBytesExactly(next, py);
    TextReadsBack(next);
  }

  /** The text that is installed reads as the original with the settings, each under its name, and with nothing else
      changed but the order inside tables. */
  lemma InstalledExactly(original: string, s: Settings, py: Python) returns (row: Row, installed: Row)
    requires ReadsToml(py) && Render(original, s, py).Ok?
    ensures py.parse(original) == Some(row) && py.parse(Render(original, s, py).value) == Some(installed)
    ensures HasTop(row, installed, s, py)
    ensures IsSwitchedOff(Get(row, "features"), Get(installed, "features"),
                          ["hooks", "memories", "external_agent_memory_import"])
    ensures IsSwitchedOff(Get(row, "memories"), Get(installed, "memories"), ["generate_memories", "use_memories"])
    ensures forall key :: IsOtherKey(key) ==> MeansSame(Get(installed, key), Get(row, key))
  {
    hide ReadsToml, Render, Get, Apply, Norm, IsDict, HasTop, SwitchesOff, IsSwitchedOff, IsOtherKey, MeansSame;
    row := RenderedIs(original, s, py);
    var next := Apply(row, s, py).value;
    installed := Norm(next);
    SettingsInForce(row, s, py);
    NormHasTop(row, next, s, py);
    NormIsSwitchedOff(next, "features", Get(row, "features"), ["hooks", "memories", "external_agent_memory_import"]);
    NormIsSwitchedOff(next, "memories", Get(row, "memories"), ["generate_memories", "use_memories"]);
    forall key | IsOtherKey(key) ensures MeansSame(Get(installed, key), Get(row, key)) {
      NormMeansSame(next, key);
    }
  }

  // Order.

  function Keys(row: Row): seq<string> { if row == [] then [] else [row[0].key] + Keys(row[1..]) }

  /** The keys of the second list that are not there yet are put at the end, in order. */
  function Appended(keys: seq<string>, more: seq<string>): seq<string>
    decreases |more|
  {
    if more == [] then keys
    else Appended(if more[0] in keys then keys else keys + [more[0]], more[1..])
  }

  lemma {:induction false} KeysOfSet(row: Row, key: string, item: Item)
    ensures Keys(SetKey(row, key, item)) == Appended(Keys(row), [key])
    decreases row
  {
    assert [key][1..] == [];
    if row != [] && row[0].key != key {
      KeysOfSet(row[1..], key, item);
    }
  }

  lemma {:induction false} KeysOfUpdate(row: Row, changes: seq<Change>, names: seq<string>)
    requires |names| == |changes| && forall i :: 0 <= i < |names| ==> names[i] == changes[i].key
    ensures Keys(UpdateAll(row, changes)) == Appended(Keys(row), names)
    decreases changes
  {
    hide SetKey;
    if changes != [] {
      KeysOfSet(row, changes[0].key, changes[0].item);
      assert [names[0]][1..] == [];
      KeysOfUpdate(SetKey(row, changes[0].key, changes[0].item), changes[1..], names[1..]);
    }
  }

  /** Keys that were there keep their places, and new ones come after them, in the order in which they are set. */
  lemma KeysStayInPlace(row: Row, s: Settings, py: Python)
    requires Apply(row, s, py).Some?
    ensures Keys(Apply(row, s, py).value) ==
            Appended(Appended(Appended(Keys(row),
                ["model", "model_provider", "model_reasoning_effort", "approval_policy", "sandbox_mode",
                 "project_doc_max_bytes"]), ["features"]), ["memories"])
  {
    hide Get, UpdateAll, MaxBytes, Appended, Keys, SetKey;
    var bytes := MaxBytes(Get(row, BYTES), py.float).value;
    var changes := TopChanges(s, bytes);
    KeysOfUpdate(row, changes, ["model", "model_provider", "model_reasoning_effort", "approval_policy", "sandbox_mode",
                                "project_doc_max_bytes"]);
    var first := UpdateAll(row, changes);
    var t := match Get(first, "features") case Some(Table(t)) => t case _ => [];
    KeysOfSet(first, "features", Table(UpdateAll(t, FEATURES)));
    var second := UpdateTable(first, "features", FEATURES).value;
    var u := match Get(second, "memories") case Some(Table(u)) => u case _ => [];
    KeysOfSet(second, "memories", Table(UpdateAll(u, MEMORIES)));
  }
}
