/** Rendering an identity's configuration over an existing one, and installing it. */
module ConfigInstall {
  import opened CanonicalJson
  import opened ConfigRoundTrip
  import opened ConfigTables
  import opened ConfigText
  import opened Wrappers

  // Printing what was read.

  lemma {:induction false} AtomLinesConcat(a: Row, b: Row)
    ensures AtomLines(a + b) == AtomLines(a) + AtomLines(b)
    decreases a
  {
    hide AtomLine;
    if a == [] {
      assert a + b == b;
    } else {
      AtomLinesConcat(a[1..], b);
      assert (a + b)[1..] == a[1..] + b && (a + b)[0] == a[0];
    }
  }

  lemma {:induction false} SubtableLinesConcat(a: Row, b: Row, prefix: seq<string>)
    ensures SubtableLines(a + b, prefix) == SubtableLines(a, prefix) + SubtableLines(b, prefix)
    decreases a
  {
    hide TableLines;
    if a == [] {
      assert a + b == b;
    } else {
      SubtableLinesConcat(a[1..], b, prefix);
      assert (a + b)[1..] == a[1..] + b && (a + b)[0] == a[0];
      Regroup(
        if a[0].item.Table? then TableLines(a[0].item.row, prefix + [a[0].key]) else [],
        SubtableLines(a[1..], prefix), SubtableLines(b, prefix));
    }
  }

  lemma {:induction false} AtomsPrint(row: Row, prefix: seq<string>)
    ensures AtomLines(Atoms(row)) == AtomLines(row) && SubtableLines(Atoms(row), prefix) == []
    decreases row
  {
    if row != [] {
      AtomsPrint(row[1..], prefix);
      if row[0].item.One? {
        assert Atoms(row)[1..] == Atoms(row[1..]);
      } else {
        assert Atoms(row) == Atoms(row[1..]);
      }
    }
  }

  lemma {:induction false} NormPrints(row: Row, prefix: seq<string>)
    ensures TableLines(Norm(row), prefix) == TableLines(row, prefix)
    decreases row, 1
  {
    hide Atoms, AtomLines;
    AtomsPrint(row, prefix);
    NormTablesPrint(row, prefix);
    AtomLinesConcat(Atoms(row), NormTables(row));
    SubtableLinesConcat(Atoms(row), NormTables(row), prefix);
    assert AtomLines(row) + [] == AtomLines(row);
    assert [] + SubtableLines(row, prefix) == SubtableLines(row, prefix);
  }

  lemma {:induction false} NormTablesPrint(row: Row, prefix: seq<string>)
    ensures AtomLines(NormTables(row)) == [] && SubtableLines(NormTables(row), prefix) == SubtableLines(row, prefix)
    decreases row, 0
  {
    hide TableLines, Norm;
    if row != [] {
      NormTablesPrint(row[1..], prefix);
      if row[0].item.Table? {
        NormPrints(row[0].item.row, prefix + [row[0].key]);
        assert NormTables(row)[1..] == NormTables(row[1..]);
      } else {
        assert NormTables(row) == NormTables(row[1..]);
      }
    }
  }

  /** Printing what was read back prints the same lines. */
  lemma ReprintsAlike(row: Row)
    requires IsDict(row)
    ensures Read(Print(row)).Some? && Print(Read(Print(row)).value) == Print(row)
  {
    hide IsDict, Read, TableLines, Norm;
    ReadBack(row);
    NormPrints(row, []);
  }

  // Equality of tables as Python sees it.

  function NormItem(item: Item): Item { if item.Table? then Table(Norm(item.row)) else item }

  lemma {:induction false} GetOfAtoms(row: Row, key: string)
    requires IsDict(row)
    ensures Get(Atoms(row), key) == if Get(row, key).Some? && Get(row, key).value.One? then Get(row, key) else None
    decreases row
  {
    hide IsDict;
    if row != [] {
      DictTail(row);
      GetOfAtoms(row[1..], key);
      if row[0].item.One? {
        assert Atoms(row)[1..] == Atoms(row[1..]);
      } else {
        assert Atoms(row) == Atoms(row[1..]);
        if row[0].key == key {
          AbsentGet(row[1..], key);
        }
      }
    }
  }

  lemma {:induction false} AbsentGet(row: Row, key: string)
    ensures Get(row, key) == None <==> forall i :: 0 <= i < |row| ==> row[i].key != key
    decreases row
  {
    if row != [] {
      AbsentGet(row[1..], key);
      assert row == [row[0]] + row[1..];
    }
  }

  lemma {:induction false} GetOfTables(row: Row, key: string)
    requires IsDict(row)
    ensures Get(NormTables(row), key) ==
            if Get(row, key).Some? && Get(row, key).value.Table? then Some(NormItem(Get(row, key).value)) else None
    decreases row
  {
    hide IsDict, Norm;
    if row != [] {
      DictTail(row);
      GetOfTables(row[1..], key);
      if row[0].item.Table? {
        assert NormTables(row)[1..] == NormTables(row[1..]);
      } else {
        assert NormTables(row) == NormTables(row[1..]);
        if row[0].key == key {
          AbsentGet(row[1..], key);
        }
      }
    }
  }

  lemma GetOfNorm(row: Row, key: string)
    requires IsDict(row)
    ensures Get(Norm(row), key) == match Get(row, key) case None => None case Some(item) => Some(NormItem(item))
  {
    hide IsDict, Atoms, NormTables, Get;
    GetOfAtoms(row, key);
    GetOfTables(row, key);
    GetOfAppend(Atoms(row), NormTables(row), key);
  }

  /** What a table means: its keys and their values, without an order. */
  datatype Meaning = Value(atom: Atom) | Map(entries: map<string, Meaning>)

  function MeaningOf(row: Row): map<string, Meaning>
    decreases row, 1
  {
    if row == [] then map[] else MeaningOf(row[1..])[row[0].key := ItemMeaning(row[0].item)]
  }

  function ItemMeaning(item: Item): Meaning
    decreases item, 0
  {
    match item
    case One(atom) => Value(atom)
    case Table(row) => Map(MeaningOf(row))
  }

  lemma {:induction false} MeaningAt(row: Row, key: string)
    ensures key in MeaningOf(row) <==> Get(row, key).Some?
    ensures Get(row, key).Some? ==> MeaningOf(row)[key] == ItemMeaning(Get(row, key).value)
    decreases row
  {
    if row != [] {
      MeaningAt(row[1..], key);
    }
  }

  lemma {:induction false} GetIsEntry(row: Row, key: string) returns (i: int)
    requires Get(row, key).Some?
    ensures 0 <= i < |row| && row[i] == Entry(key, Get(row, key).value)
    decreases row
  {
    if row[0].key == key {
      i := 0;
    } else {
      i := GetIsEntry(row[1..], key);
      i := i + 1;
    }
  }

  lemma {:induction false} NormKeepsMeaning(row: Row)
    requires IsDict(row)
    ensures MeaningOf(Norm(row)) == MeaningOf(row)
    decreases row
  {
    hide Norm, Get, MeaningOf;
    var a, b := MeaningOf(Norm(row)), MeaningOf(row);
    forall k ensures (k in a <==> k in b) && (k in b ==> a[k] == b[k]) {
      MeaningAt(row, k);
      MeaningAt(Norm(row), k);
      GetOfNorm(row, k);
      if Get(row, k).Some? && Get(row, k).value.Table? {
        var i := GetIsEntry(row, k);
        NormKeepsMeaning(row[i].item.row);
      }
    }
    assert a == b;
  }

  // The text.

  /** No key and no string holds a raw delete character. */
  predicate IsCleanRow(row: Row) {
    forall i :: 0 <= i < |row| ==>
      IsClean(row[i].key) &&
      match row[i].item
      case One(atom) => IsCleanAtom(atom)
      case Table(below) => IsCleanRow(below)
  }

  lemma CleanConcat(a: seq<Line>, b: seq<Line>)
    ensures AreCleanLines(a + b) <==> AreCleanLines(a) && AreCleanLines(b)
    ensures HaveHeaders(a + b) <==> HaveHeaders(a) && HaveHeaders(b)
  {
    hide IsCleanLine;
    assert forall i :: 0 <= i < |a| ==> (a + b)[i] == a[i];
    assert forall i :: 0 <= i < |b| ==> (a + b)[|a| + i] == b[i];
  }

  predicate IsCleanPath(path: seq<string>) { forall i :: 0 <= i < |path| ==> IsClean(path[i]) }

  /** The one-line entries of a row are clean. */
  predicate HasCleanAtoms(row: Row) {
    forall i :: 0 <= i < |row| && row[i].item.One? ==> IsClean(row[i].key) && IsCleanAtom(row[i].item.atom)
  }

  predicate HasCleanTables(row: Row) {
    forall i :: 0 <= i < |row| && row[i].item.Table? ==> IsClean(row[i].key) && IsCleanRow(row[i].item.row)
  }

  lemma {:induction false} AtomLinesClean(row: Row)
    ensures AreCleanLines(AtomLines(row)) <==> HasCleanAtoms(row)
    ensures HaveHeaders(AtomLines(row))
    decreases row
  {
    hide IsCleanAtom, IsClean;
    if row != [] {
      AtomLinesClean(row[1..]);
      CleanConcat(AtomLine(row[0]), AtomLines(row[1..]));
      assert row == [row[0]] + row[1..];
      assert row[0].item.One? ==> AreCleanLines(AtomLine(row[0])) ==> IsCleanLine(AtomLine(row[0])[0]);
    }
  }

  /** The lines of a table are clean exactly if the table and the path to it are. */
  lemma {:induction false} TableLinesClean(row: Row, prefix: seq<string>)
    ensures AreCleanLines(TableLines(row, prefix)) <==> IsCleanPath(prefix) && IsCleanRow(row)
    ensures HaveHeaders(TableLines(row, prefix))
    decreases row, 1
  {
    hide IsCleanAtom, IsClean, AtomLines, SubtableLines, AreCleanLines, IsCleanPath;
    var header := if prefix == [] then [] else [Blank, Header(prefix)];
    HeaderClean(prefix);
    AtomLinesClean(row);
    SubtableLinesClean(row, prefix);
    CleanConcat(header, AtomLines(row));
    CleanConcat(header + AtomLines(row), SubtableLines(row, prefix));
  }

  lemma HeaderClean(prefix: seq<string>)
    ensures var header := if prefix == [] then [] else [Blank, Header(prefix)];
            (AreCleanLines(header) <==> IsCleanPath(prefix)) && HaveHeaders(header)
  {
    hide IsClean;
    if prefix != [] {
      var header := [Blank, Header(prefix)];
      assert header[1] == Header(prefix);
    }
  }

  lemma {:induction false} SubtableLinesClean(row: Row, prefix: seq<string>)
    ensures IsCleanPath(prefix) ==> (AreCleanLines(SubtableLines(row, prefix)) <==> HasCleanTables(row))
    ensures HaveHeaders(SubtableLines(row, prefix))
    decreases row, 0
  {
    hide TableLines, IsClean, IsCleanRow, AreCleanLines;
    if row != [] {
      SubtableLinesClean(row[1..], prefix);
      assert row == [row[0]] + row[1..];
      var first := if row[0].item.Table? then TableLines(row[0].item.row, prefix + [row[0].key]) else [];
      if row[0].item.Table? {
        TableLinesClean(row[0].item.row, prefix + [row[0].key]);
        PathGrows(prefix, row[0].key);
      }
      CleanConcat(first, SubtableLines(row[1..], prefix));
      NothingIsClean();
    } else {
      NothingIsClean();
    }
  }

  lemma NothingIsClean()
    ensures AreCleanLines([]) && HaveHeaders([])
  {
  }

  lemma PathGrows(prefix: seq<string>, key: string)
    ensures IsCleanPath(prefix + [key]) <==> IsCleanPath(prefix) && IsClean(key)
  {
    hide IsClean;
    var path := prefix + [key];
    assert path[|prefix|] == key && forall i :: 0 <= i < |prefix| ==> path[i] == prefix[i];
  }

  // What holds of every value.

  /** `ok` holds of every one-line value, in this table and in those below. */
  predicate AllAtoms(row: Row, ok: Atom -> bool)
    decreases row, 1
  {
    forall i :: 0 <= i < |row| ==> AllInItem(row[i].item, ok)
  }

  predicate AllInItem(item: Item, ok: Atom -> bool)
    decreases item, 0
  {
    match item
    case One(atom) => ok(atom)
    case Table(row) => AllAtoms(row, ok)
  }

  lemma {:induction false} AllOfSet(row: Row, key: string, item: Item, ok: Atom -> bool)
    requires AllAtoms(row, ok) && AllInItem(item, ok)
    ensures AllAtoms(SetKey(row, key, item), ok)
    decreases row
  {
    hide AllInItem;
    if row != [] && row[0].key != key {
      AllOfSet(row[1..], key, item, ok);
    }
  }

  lemma {:induction false} AllOfUpdate(row: Row, changes: seq<Change>, ok: Atom -> bool)
    requires AllAtoms(row, ok) && forall i :: 0 <= i < |changes| ==> AllInItem(changes[i].item, ok)
    ensures AllAtoms(UpdateAll(row, changes), ok)
    decreases changes
  {
    hide AllInItem, AllAtoms;
    if changes != [] {
      AllOfSet(row, changes[0].key, changes[0].item, ok);
      AllOfUpdate(SetKey(row, changes[0].key, changes[0].item), changes[1..], ok);
    }
  }

  lemma AllOfGet(row: Row, key: string, ok: Atom -> bool)
    requires AllAtoms(row, ok) && Get(row, key).Some?
    ensures AllInItem(Get(row, key).value, ok)
  {
    hide AllInItem;
    var i := GetIsEntry(row, key);
  }

  lemma {:induction false} AllOfNorm(row: Row, ok: Atom -> bool)
    requires AllAtoms(row, ok)
    ensures AllAtoms(Norm(row), ok)
    decreases row, 1
  {
    hide Atoms, NormTables;
    AllOfParts(row, ok);
  }

  lemma {:induction false} AllOfParts(row: Row, ok: Atom -> bool)
    requires AllAtoms(row, ok)
    ensures AllAtoms(Atoms(row), ok) && AllAtoms(NormTables(row), ok)
    decreases row, 0
  {
    hide Norm;
    if row != [] {
      assert AllInItem(row[0].item, ok);
      AllOfParts(row[1..], ok);
      if row[0].item.Table? {
        AllOfNorm(row[0].item.row, ok);
      }
    }
  }

  // Rendering.

  datatype Failure = InvalidConfig | UnsupportedValue | UnprintableValue | InvalidText | RoundTripFailed

  /** What the model takes from Python: the TOML parser, which texts are spellings of finite floats, of dates and of
      times, and the numeric value of a float's spelling. */
  datatype Python = Python(parse: string -> Option<Row>, spells: string -> bool, float: PlainText -> Option<real>)

  /** A value that the parser may give: other values than text, numbers and flags are spelled as Python spells them,
      and dictionaries have distinct keys. */
  predicate IsWellFormedAtom(v: Atom, spells: string -> bool)
    decreases v
  {
    match v
    case Plain(form) => spells(form) || IsNonfinite(form)
    case Array(items) => forall i :: 0 <= i < |items| ==> IsWellFormedAtom(items[i], spells)
    case Inline(pairs) =>
      (forall i, j :: 0 <= i < j < |pairs| ==> pairs[i].key != pairs[j].key) &&
      forall i :: 0 <= i < |pairs| ==> IsWellFormedAtom(pairs[i].value, spells)
    case _ => true
  }

  /** A value of a table that is no table itself. */
  predicate IsWellFormedValue(v: Atom, spells: string -> bool) { !v.Inline? && IsWellFormedAtom(v, spells) }

  /** A dictionary that the parser may give. */
  predicate IsWellFormed(row: Row, spells: string -> bool) {
    IsDict(row) && AllAtoms(row, v => IsWellFormedValue(v, spells))
  }

  /** `toml_value` can write every value. */
  predicate IsPrintable(row: Row) { AllAtoms(row, IsPrintableAtom) }

  /** The parser yields well-formed dictionaries, and it reads what is printed of one as the reader of this model
      does. */
  ghost predicate ReadsToml(py: Python) {
    (forall t :: py.parse(t).Some? ==> IsWellFormed(py.parse(t).value, py.spells)) &&
    forall row :: IsWellFormed(row, py.spells) && IsPrintable(row) ==>
      py.parse(DocumentText(Print(row))) == ReadDocument(DocumentText(Print(row)))
  }

  /** `config_bytes`: the text, checked to mean what it was printed from. */
  function ConfigBytes(row: Row, py: Python): Result<string, Failure> {
    if !IsPrintable(row) then Err(UnprintableValue)
    else match py.parse(DocumentText(Print(row)))
      case None => Err(InvalidText)
      case Some(again) =>
        if MeaningOf(again) == MeaningOf(row) then Ok(DocumentText(Print(row))) else Err(RoundTripFailed)
  }

  /** Printed text reads back exactly if it is clean, and then as the same dictionary. */
  lemma TextReadsBack(row: Row)
    requires IsDict(row)
    ensures ReadDocument(DocumentText(Print(row))) == if IsCleanRow(row) then Some(Norm(row)) else None
  {
    hide IsDict, IsCleanRow, TableLines, AreCleanLines, ReadDocument, DocumentText, Read, Norm;
    TableLinesClean(row, []);
    DocumentReads(Print(row));
    ReadBack(row);
  }

  /** Printing fails exactly on a value that cannot be written and on a raw delete character, never on a difference. */
  lemma ConfigBytesExactly(row: Row, py: Python)
    requires ReadsToml(py) && IsWellFormed(row, py.spells)
    ensures ConfigBytes(row, py) ==
            if !IsPrintable(row) then Err(UnprintableValue)
            else if IsCleanRow(row) then Ok(DocumentText(Print(row)))
            else Err(InvalidText)
  {
    hide IsDict, IsCleanRow, IsPrintable, AllAtoms, Print, ReadDocument, DocumentText, Norm, MeaningOf;
    if IsPrintable(row) {
      TextReadsBack(row);
      NormKeepsMeaning(row);
    }
  }

  /** TOML can write a delete character in a string, escaped; the printer writes it raw, which does not read. */
  lemma DeleteIsLost()
    ensures var escaped: string := "\"\\u007f\""; ReadQuoted(escaped) == Some(([DELETE], ""))
    ensures ReadQuoted(JcsString([DELETE])) == None
  {
    var escaped: string := "\"\\u007f\"";
    var body := escaped[1..];
    EscapedCharReads("007f", "\"", DELETE);
    assert body == "\\u" + "007f" + "\"";
    assert ReadString("\"") == Some(("", "")) by { assert "\""[1..] == ""; }
    assert ReadString(body) == Some(([DELETE] + "", ""));
    assert [DELETE] + "" == [DELETE];
    QuotedReadsBack([DELETE], "");
    assert JcsString([DELETE]) + "" == JcsString([DELETE]);
  }

  datatype Settings = Settings(model: string, reasoning: string, approval: string, sandbox: string)

  datatype Change = Change(key: string, item: Item)

  /** `row.update(...)`: existing keys keep their place. */
  function UpdateAll(row: Row, changes: seq<Change>): Row
    decreases changes
  {
    if changes == [] then row else UpdateAll(SetKey(row, changes[0].key, changes[0].item), changes[1..])
  }

  const BYTES := "project_doc_max_bytes"

  /** `max(32768, value)`, or a type error. */
  function MaxBytes(item: Option<Item>, float: PlainText -> Option<real>): Option<Item> {
    match item
    case None => Some(One(Number(32768)))
    case Some(One(Number(n))) => Some(One(Number(if n > 32768 then n else 32768)))
    case Some(One(Flag(_))) => Some(One(Number(32768)))
    case Some(One(Plain(form))) =>
      if IsNonfinite(form) then Some(One(if form == "inf" then Plain(form) else Number(32768)))
      else if float(form).None? then None
      else Some(One(if float(form).value > 32768.0 then Plain(form) else Number(32768)))
    case _ => None
  }

  function TopChanges(s: Settings, bytes: Item): seq<Change> {
    [Change("model", One(Text(s.model))), Change("model_provider", One(Text("openai"))),
     Change("model_reasoning_effort", One(Text(s.reasoning))), Change("approval_policy", One(Text(s.approval))),
     Change("sandbox_mode", One(Text(s.sandbox))), Change(BYTES, bytes)]
  }

  const FEATURES := [Change("hooks", One(Flag(false))), Change("memories", One(Flag(false))),
                     Change("external_agent_memory_import", One(Flag(false)))]

  const MEMORIES := [Change("generate_memories", One(Flag(false))), Change("use_memories", One(Flag(false)))]

  /** `value.setdefault(key, {}).update(...)`, or an attribute error. */
  function UpdateTable(row: Row, key: string, changes: seq<Change>): Option<Row> {
    match Get(row, key)
    case None => Some(SetKey(row, key, Table(UpdateAll([], changes))))
    case Some(Table(t)) => Some(SetKey(row, key, Table(UpdateAll(t, changes))))
    case Some(One(_)) => None
  }

  /** The configuration that an installation wants, over the one that is there. */
  function Apply(row: Row, s: Settings, py: Python): Option<Row> {
    match MaxBytes(Get(row, BYTES), py.float)
    case None => None
    case Some(bytes) =>
      match UpdateTable(UpdateAll(row, TopChanges(s, bytes)), "features", FEATURES)
      case None => None
      case Some(next) => UpdateTable(next, "memories", MEMORIES)
  }

  /** The configuration part of `render`. */
  function Render(original: string, s: Settings, py: Python): Result<string, Failure> {
    match py.parse(original)
    case None => Err(InvalidConfig)
    case Some(row) =>
      match Apply(row, s, py)
      case None => Err(UnsupportedValue)
      case Some(next) => ConfigBytes(next, py)
  }

  // Installing again.

  predicate Has(row: Row, changes: seq<Change>) {
    forall i :: 0 <= i < |changes| ==> Get(row, changes[i].key) == Some(changes[i].item)
  }

  predicate DistinctChanges(changes: seq<Change>) {
    forall i, j :: 0 <= i < j < |changes| ==> changes[i].key != changes[j].key
  }

  lemma {:induction false} UpdateKeeps(row: Row, changes: seq<Change>, key: string)
    requires forall i :: 0 <= i < |changes| ==> changes[i].key != key
    ensures Get(UpdateAll(row, changes), key) == Get(row, key)
    decreases changes
  {
    if changes != [] {
      GetOfSet(row, changes[0].key, changes[0].item, key);
      UpdateKeeps(SetKey(row, changes[0].key, changes[0].item), changes[1..], key);
    }
  }

  lemma {:induction false} UpdateMakes(row: Row, changes: seq<Change>)
    requires DistinctChanges(changes)
    ensures Has(UpdateAll(row, changes), changes)
    decreases changes
  {
    hide Get;
    if changes != [] {
      var next := SetKey(row, changes[0].key, changes[0].item);
      GetOfSet(row, changes[0].key, changes[0].item, changes[0].key);
      UpdateKeeps(next, changes[1..], changes[0].key);
      UpdateMakes(next, changes[1..]);
      assert changes == [changes[0]] + changes[1..];
    }
  }

  lemma {:induction false} UpdateSettles(row: Row, changes: seq<Change>)
    requires Has(row, changes)
    ensures UpdateAll(row, changes) == row
    decreases changes
  {
    if changes != [] {
      SetSame(row, changes[0].key, changes[0].item);
      UpdateSettles(row, changes[1..]);
    }
  }

  lemma {:induction false} UpdateIsDict(row: Row, changes: seq<Change>)
    requires IsDict(row) && forall i :: 0 <= i < |changes| ==> changes[i].item.One?
    ensures IsDict(UpdateAll(row, changes))
    decreases changes
  {
    hide IsDict;
    if changes != [] {
      SetIsDict(row, changes[0].key, changes[0].item);
      UpdateIsDict(SetKey(row, changes[0].key, changes[0].item), changes[1..]);
    }
  }

  lemma {:induction false} SetIsDict(row: Row, key: string, item: Item)
    requires IsDict(row) && (item.Table? ==> IsDict(item.row))
    ensures IsDict(SetKey(row, key, item))
    decreases row
  {
    hide IsDict, Get;
    if row == [] {
      NothingIsDict();
      AbsentGet([], key);
      ConsIsDict(Entry(key, item), []);
      assert [Entry(key, item)] + [] == [Entry(key, item)];
    } else {
      DictTail(row);
      AbsentGet(row[1..], row[0].key);
      if row[0].key == key {
        ConsIsDict(Entry(key, item), row[1..]);
      } else {
        SetIsDict(row[1..], key, item);
        GetOfSet(row[1..], key, item, row[0].key);
        ConsIsDict(row[0], SetKey(row[1..], key, item));
      }
    }
  }

  lemma ConsIsDict(e: Entry, row: Row)
    requires IsDict(row) && (e.item.Table? ==> IsDict(e.item.row)) && Get(row, e.key) == None
    ensures IsDict([e] + row)
  {
    AbsentGet(row, e.key);
    var all := [e] + row;
    forall i | 0 < i < |all| ensures all[i] == row[i - 1] && all[i].key != e.key {
    }
  }

  lemma AppendIsDict(row: Row, e: Entry)
    requires IsDict(row) && (e.item.Table? ==> IsDict(e.item.row)) && Get(row, e.key) == None
    ensures IsDict(row + [e])
  {
    AbsentGet(row, e.key);
  }

  lemma GetIsDict(row: Row, key: string)
    requires IsDict(row) && Get(row, key).Some? && Get(row, key).value.Table?
    ensures IsDict(Get(row, key).value.row)
  {
    var i := GetIsEntry(row, key);
  }

  lemma {:induction false} SetRowIsDict(root: Row, path: seq<string>, row: Row)
    requires IsDict(root) && IsDict(row) && RowAt(root, path).Some?
    ensures IsDict(SetRow(root, path, row)) && IsDict(RowAt(root, path).value)
    decreases path
  {
    hide IsDict, Get, SetKey;
    if path != [] {
      var below := Get(root, path[0]).value.row;
      GetIsDict(root, path[0]);
      SetRowIsDict(below, path[1..], row);
      SetIsDict(root, path[0], Table(SetRow(below, path[1..], row)));
    }
  }

  lemma StepIsDict(s: State, line: Line)
    requires IsDict(s.root) && Step(s, line).Some?
    ensures IsDict(Step(s, line).value.root)
  {
    hide IsDict, Get, SetRow, RowAt;
    var at, e;
    match line {
      case Blank =>
        return;
      case Header(path) =>
        at, e := path[..|path| - 1], Entry(path[|path| - 1], Table([]));
        NothingIsDict();
      case KeyValue(key, atom) =>
        at, e := s.at, Entry(key, One(atom));
    }
    var current := RowAt(s.root, at).value;
    SetRowIsDict(s.root, at, s.root);
    AppendIsDict(current, e);
    SetRowIsDict(s.root, at, current + [e]);
  }

  lemma NothingIsDict()
    ensures IsDict([])
  {
  }

  lemma {:induction false} RunIsDict(s: State, lines: seq<Line>)
    requires IsDict(s.root) && Run(s, lines).Some?
    ensures IsDict(Run(s, lines).value.root)
    decreases lines
  {
    hide IsDict, Step;
    if lines != [] {
      StepIsDict(s, lines[0]);
      RunIsDict(Step(s, lines[0]).value, lines[1..]);
    }
  }

  lemma ReadIsDict(lines: seq<Line>)
    requires Read(lines).Some?
    ensures IsDict(Read(lines).value)
  {
    hide IsDict, Run;
    NothingIsDict();
    RunIsDict(State([], []), lines);
  }

  lemma ChangesAreDistinct(s: Settings, bytes: Item)
    ensures DistinctChanges(TopChanges(s, bytes)) && DistinctChanges(FEATURES) && DistinctChanges(MEMORIES)
    ensures forall i :: 0 <= i < |TopChanges(s, bytes)| ==> TopChanges(s, bytes)[i].key !in ["features", "memories"]
  {
  }

  predicate IsSettledTable(row: Row, key: string, changes: seq<Change>) {
    match Get(row, key)
    case Some(Table(t)) => Has(t, changes)
    case _ => false
  }

  /** The configuration is as an installation leaves it. */
  predicate IsSettled(row: Row, s: Settings, py: Python) {
    MaxBytes(Get(row, BYTES), py.float) == Get(row, BYTES) && Get(row, BYTES).Some? &&
    Has(row, TopChanges(s, Get(row, BYTES).value)) &&
    IsSettledTable(row, "features", FEATURES) && IsSettledTable(row, "memories", MEMORIES)
  }

  lemma TableSettles(row: Row, key: string, changes: seq<Change>)
    requires IsSettledTable(row, key, changes)
    ensures UpdateTable(row, key, changes) == Some(row)
  {
    hide Has;
    var t := Get(row, key).value.row;
    UpdateSettles(t, changes);
    SetSame(row, key, Table(t));
  }

  lemma ApplySettles(row: Row, s: Settings, py: Python)
    requires IsSettled(row, s, py)
    ensures Apply(row, s, py) == Some(row)
  {
    hide Has, TopChanges, FEATURES, MEMORIES, Get, UpdateTable, IsSettledTable;
    UpdateSettles(row, TopChanges(s, Get(row, BYTES).value));
    TableSettles(row, "features", FEATURES);
    TableSettles(row, "memories", MEMORIES);
  }

  lemma TableUpdated(row: Row, key: string, changes: seq<Change>, other: string)
    requires IsDict(row) && UpdateTable(row, key, changes).Some? && DistinctChanges(changes)
    requires forall i :: 0 <= i < |changes| ==> changes[i].item.One?
    ensures var next := UpdateTable(row, key, changes).value;
            IsDict(next) && IsSettledTable(next, key, changes) && (other != key ==> Get(next, other) == Get(row, other))
  {
    hide IsDict, Has, DistinctChanges, UpdateAll;
    var t := if Get(row, key).Some? then Get(row, key).value.row else [];
    if Get(row, key).Some? {
      GetIsDict(row, key);
    } else {
      NothingIsDict();
    }
    UpdateMakes(t, changes);
    UpdateIsDict(t, changes);
    var item := Table(UpdateAll(t, changes));
    SetIsDict(row, key, item);
    GetOfSet(row, key, item, key);
    GetOfSet(row, key, item, other);
  }

  lemma MaxIsStable(item: Option<Item>, float: PlainText -> Option<real>)
    requires MaxBytes(item, float).Some?
    ensures MaxBytes(MaxBytes(item, float), float) == MaxBytes(item, float) && MaxBytes(item, float).value.One?
  {
  }

  /** The installer has nothing to say about the key. */
  predicate IsOtherKey(key: string) {
    key !in ["model", "model_provider", "model_reasoning_effort", "approval_policy", "sandbox_mode",
             "project_doc_max_bytes", "features", "memories"]
  }

  /** What is applied settles the configuration, and leaves every other top-level setting alone. */
  lemma ApplyIsSettled(row: Row, s: Settings, py: Python)
    requires IsDict(row) && Apply(row, s, py).Some?
    ensures var next := Apply(row, s, py).value;
            IsDict(next) && IsSettled(next, s, py) &&
            forall key :: IsOtherKey(key) ==> Get(next, key) == Get(row, key)
  {
    hide IsDict, Has, DistinctChanges, UpdateAll, UpdateTable, IsSettledTable, Get, MaxBytes, FEATURES, MEMORIES;
    var bytes := MaxBytes(Get(row, BYTES), py.float).value;
    MaxIsStable(Get(row, BYTES), py.float);
    var changes := TopChanges(s, bytes);
    ChangesAreDistinct(s, bytes);
    FlagsAreAtoms();
    UpdateMakes(row, changes);
    UpdateIsDict(row, changes);
    var first := UpdateAll(row, changes);
    var second := UpdateTable(first, "features", FEATURES).value;
    var third := UpdateTable(second, "memories", MEMORIES).value;
    assert "features" != "memories";
    TableUpdated(first, "features", FEATURES, "memories");
    TableUpdated(second, "memories", MEMORIES, "features");
    forall key | key !in ["features", "memories"] ensures Get(third, key) == Get(first, key) {
      TableUpdated(first, "features", FEATURES, key);
      TableUpdated(second, "memories", MEMORIES, key);
    }
    HasAfter(first, third, changes);
    SameTable(second, third, "features", FEATURES);
    assert changes[5] == Change(BYTES, bytes) && Get(third, BYTES) == Some(bytes) by {
      HasOne(third, changes, 5);
    }
    forall key | IsOtherKey(key) ensures Get(third, key) == Get(row, key)
    {
      SameKeys(s, bytes, key);
      UpdateKeeps(row, changes, key);
    }
  }

  predicate MayUpdate(item: Option<Item>) { item.Some? ==> item.value.Table? }

  /** When the settings can be applied: the limit can be compared with a number, and the two tables are tables if they
      are there. */
  lemma ApplyExactly(row: Row, s: Settings, py: Python)
    ensures Apply(row, s, py).Some? <==>
            MaxBytes(Get(row, BYTES), py.float).Some? &&
            MayUpdate(Get(row, "features")) && MayUpdate(Get(row, "memories"))
  {
    hide Get, MaxBytes, UpdateAll, TopChanges, FEATURES, MEMORIES;
    if MaxBytes(Get(row, BYTES), py.float).Some? {
      var bytes := MaxBytes(Get(row, BYTES), py.float).value;
      var changes := TopChanges(s, bytes);
      ChangesAreDistinct(s, bytes);
      UpdateKeeps(row, changes, "features");
      UpdateKeeps(row, changes, "memories");
      var first := UpdateAll(row, changes);
      if UpdateTable(first, "features", FEATURES).Some? {
        var t := match Get(first, "features") case Some(Table(t)) => t case _ => [];
        assert "features" != "memories";
        GetOfSet(first, "features", Table(UpdateAll(t, FEATURES)), "memories");
      }
    }
  }

  lemma FlagsAreAtoms()
    ensures forall i :: 0 <= i < |FEATURES| ==> FEATURES[i].item.One?
    ensures forall i :: 0 <= i < |MEMORIES| ==> MEMORIES[i].item.One?
  {
  }

  lemma HasAfter(a: Row, b: Row, changes: seq<Change>)
    requires Has(a, changes) && forall i :: 0 <= i < |changes| ==> Get(b, changes[i].key) == Get(a, changes[i].key)
    ensures Has(b, changes)
  {
  }

  lemma HasOne(row: Row, changes: seq<Change>, i: int)
    requires Has(row, changes) && 0 <= i < |changes|
    ensures Get(row, changes[i].key) == Some(changes[i].item)
  {
  }

  lemma SameTable(a: Row, b: Row, key: string, changes: seq<Change>)
    requires IsSettledTable(a, key, changes) && Get(a, key) == Get(b, key)
    ensures IsSettledTable(b, key, changes)
  {
  }

  lemma SameKeys(s: Settings, bytes: Item, key: string)
    requires IsOtherKey(key)
    ensures forall i :: 0 <= i < |TopChanges(s, bytes)| ==> TopChanges(s, bytes)[i].key != key
  {
  }

  lemma HasInNorm(row: Row, changes: seq<Change>)
    requires IsDict(row) && Has(row, changes) && forall i :: 0 <= i < |changes| ==> changes[i].item.One?
    ensures Has(Norm(row), changes)
  {
    hide IsDict, Norm, Get;
    forall i | 0 <= i < |changes| ensures Get(Norm(row), changes[i].key) == Some(changes[i].item) {
      GetOfNorm(row, changes[i].key);
    }
  }

  lemma TableInNorm(row: Row, key: string, changes: seq<Change>)
    requires IsDict(row) && IsSettledTable(row, key, changes)
    requires forall i :: 0 <= i < |changes| ==> changes[i].item.One?
    ensures IsSettledTable(Norm(row), key, changes)
  {
    hide IsDict, Norm, Get, Has;
    GetOfNorm(row, key);
    GetIsDict(row, key);
    HasInNorm(Get(row, key).value.row, changes);
  }

  lemma NormIsSettled(row: Row, s: Settings, py: Python)
    requires IsDict(row) && IsSettled(row, s, py)
    ensures IsSettled(Norm(row), s, py)
  {
    hide IsDict, Norm, Get, Has, IsSettledTable, FEATURES, MEMORIES;
    MaxIsStable(Get(row, BYTES), py.float);
    GetOfNorm(row, BYTES);
    HasInNorm(row, TopChanges(s, Get(row, BYTES).value));
    FlagsAreAtoms();
    TableInNorm(row, "features", FEATURES);
    TableInNorm(row, "memories", MEMORIES);
  }

  /** What is applied to a well-formed dictionary is well-formed. */
  lemma ApplyIsWellFormed(row: Row, s: Settings, py: Python)
    requires IsWellFormed(row, py.spells) && Apply(row, s, py).Some?
    ensures IsWellFormed(Apply(row, s, py).value, py.spells)
  {
    hide IsDict, AllAtoms, Get, MaxBytes, UpdateAll, UpdateTable, FEATURES, MEMORIES, TopChanges;
    ApplyIsSettled(row, s, py);
    var ok := v => IsWellFormedValue(v, py.spells);
    var bytes := MaxBytes(Get(row, BYTES), py.float).value;
    var changes := TopChanges(s, bytes);
    ChangesAreWellFormed(row, s, bytes, py);
    AllOfUpdate(row, changes, ok);
    var first := UpdateAll(row, changes);
    AllOfTable(first, "features", FEATURES, ok);
    AllOfTable(UpdateTable(first, "features", FEATURES).value, "memories", MEMORIES, ok);
  }

  lemma ChangesAreWellFormed(row: Row, s: Settings, bytes: Item, py: Python)
    requires IsWellFormed(row, py.spells) && MaxBytes(Get(row, BYTES), py.float) == Some(bytes)
    ensures var ok := v => IsWellFormedValue(v, py.spells);
            && (forall i :: 0 <= i < |TopChanges(s, bytes)| ==> AllInItem(TopChanges(s, bytes)[i].item, ok))
            && (forall i :: 0 <= i < |FEATURES| ==> AllInItem(FEATURES[i].item, ok))
            && (forall i :: 0 <= i < |MEMORIES| ==> AllInItem(MEMORIES[i].item, ok))
  {
    hide IsDict, AllAtoms, Get;
    if Get(row, BYTES).Some? {
      AllOfGet(row, BYTES, v => IsWellFormedValue(v, py.spells));
    }
  }

  lemma AllOfTable(row: Row, key: string, changes: seq<Change>, ok: Atom -> bool)
    requires AllAtoms(row, ok) && UpdateTable(row, key, changes).Some?
    requires forall i :: 0 <= i < |changes| ==> AllInItem(changes[i].item, ok)
    ensures AllAtoms(UpdateTable(row, key, changes).value, ok)
  {
    hide UpdateAll, Get;
    if Get(row, key).Some? {
      AllOfGet(row, key, ok);
    }
    var t := if Get(row, key).Some? then Get(row, key).value.row else [];
    AllOfUpdate(t, changes, ok);
    AllOfSet(row, key, Table(UpdateAll(t, changes)), ok);
  }

  /** Rendering over a rendered dictionary, whatever text it was first parsed from, changes nothing. */
  lemma RenderSettles(row: Row, s: Settings, py: Python)
    requires ReadsToml(py) && IsWellFormed(row, py.spells) && Apply(row, s, py).Some?
    requires IsPrintable(Apply(row, s, py).value) && IsCleanRow(Apply(row, s, py).value)
    ensures var text := DocumentText(Print(Apply(row, s, py).value)); Render(text, s, py) == Ok(text)
  {
    hide IsDict, Apply, Print, Norm, IsSettled, ReadDocument, DocumentText, IsCleanRow, MeaningOf, AllAtoms;
    ApplyIsSettled(row, s, py);
    ApplyIsWellFormed(row, s, py);
    var next := Apply(row, s, py).value;
    TextReadsBack(next);
    NormIsSettled(next, s, py);
    ApplySettles(Norm(next), s, py);
    NormPrints(next, []);
    AllOfNorm(next, IsPrintableAtom);
    assert Print(Norm(next)) == Print(next) by {
      PrintIs(Norm(next));
      PrintIs(next);
    }
  }

  /** When rendering succeeds: the text is TOML, its values can be updated, and the outcome can be printed and holds no
      raw delete character. Rendering over the outcome, with the same settings, gives the same bytes. */
  lemma RenderIsIdempotent(original: string, s: Settings, py: Python)
    requires ReadsToml(py)
    ensures Render(original, s, py).Ok? <==>
            py.parse(original).Some? && Apply(py.parse(original).value, s, py).Some? &&
            IsPrintable(Apply(py.parse(original).value, s, py).value) &&
            IsCleanRow(Apply(py.parse(original).value, s, py).value)
    ensures Render(original, s, py).Ok? ==> Render(Render(original, s, py).value, s, py) == Render(original, s, py)
  {
    hide IsDict, Apply, Print, ReadDocument, DocumentText, IsCleanRow, IsPrintable, AllAtoms, MeaningOf;
    if py.parse(original).Some? && Apply(py.parse(original).value, s, py).Some? {
      var row := py.parse(original).value;
      ApplyIsWellFormed(row, s, py);
      var next := Apply(row, s, py).value;
      ConfigBytesExactly(next, py);
      if IsPrintable(next) && IsCleanRow(next) {
        RenderSettles(row, s, py);
      }
    }
  }

  /** A value that cannot be written, under a key that the installer leaves alone, stops it. */
  lemma UnprintableStops(original: string, s: Settings, py: Python, key: string)
    requires py.parse(original).Some? && IsDict(py.parse(original).value)
    requires Apply(py.parse(original).value, s, py).Some? && IsOtherKey(key)
    requires Get(py.parse(original).value, key).Some?
    requires !AllInItem(Get(py.parse(original).value, key).value, IsPrintableAtom)
    ensures Render(original, s, py) == Err(UnprintableValue)
  {
    hide IsDict, Apply, Get, AllInItem, AllAtoms, MeaningOf, DocumentText;
    var row := py.parse(original).value;
    ApplyIsSettled(row, s, py);
    var next := Apply(row, s, py).value;
    if IsPrintable(next) {
      AllOfGet(next, key, IsPrintableAtom);
    }
  }

  const INFINITE: string := "\"x\" = inf\n"

  lemma InfinityReads() returns (v: Atom)
    ensures v.Plain? && v.form == "inf" && ReadDocument(INFINITE) == Some([Entry("x", One(v))])
  {
    hide TokenValue, ReadDocument, LineText, Read, SplitLines;
    var key: string := "x";
    v := InfinityIsPlain();
    var line := KeyValue(key, v);
    DocumentReads([line]);
    InfinityIsSpelled(v);
    assert LineTexts([line]) == [LineText(line)] && JoinLines([LineText(line)]) == LineText(line);
    assert DocumentText([line]) == INFINITE;
    assert Read([line]) == Some([Entry(key, One(v))]) by {
      OneLineReads(key, v);
    }
    assert IsCleanLine(line);
  }

  lemma InfinityIsPlain() returns (v: Atom)
    ensures v.Plain? && v.form == "inf"
  {
    var form: string := "inf";
    assert IsToken(form);
    v := TokenValue(form);
  }

  lemma InfinityIsSpelled(v: Atom)
    requires v.Plain? && v.form == "inf"
    ensures LineText(KeyValue("x", v)) == "\"x\" = inf"
  {
    var key: string := "x";
    assert EscapeChar(key[0]) == key && Escape(key[1..]) == "";
    assert Escape(key) == key + "" == key;
    assert JcsString(key) == "\"x\"";
  }

  lemma OneLineReads(key: string, v: Atom)
    ensures Read([KeyValue(key, v)]) == Some([Entry(key, One(v))])
  {
    var line := KeyValue(key, v);
    var start := State([], []);
    var next := State([Entry(key, One(v))], []);
    assert [line][1..] == [] && [] + [Entry(key, One(v))] == [Entry(key, One(v))];
    assert RowAt(start.root, []) == Some([]) && Get([], key) == None;
    assert Step(start, line) == Some(next) && Run(next, []) == Some(next);
    assert Run(start, [line]) == Run(next, [line][1..]);
  }

  /** TOML has infinite floats. The printer refuses them, though the text parses, is clean and can be updated. */
  lemma InfinityIsRefused(s: Settings, py: Python)
    requires py.parse(INFINITE) == ReadDocument(INFINITE)
    ensures py.parse(INFINITE).Some? && IsCleanRow(py.parse(INFINITE).value)
    ensures Apply(py.parse(INFINITE).value, s, py).Some? && Render(INFINITE, s, py) == Err(UnprintableValue)
  {
    hide IsDict, ReadDocument, Render, UpdateAll;
    var v := InfinityReads();
    var row := py.parse(INFINITE).value;
    OneEntry(Entry("x", One(v)), s, py);
    UnprintableStops(INFINITE, s, py, "x");
  }

  lemma OneEntry(e: Entry, s: Settings, py: Python)
    requires e.key == "x" && e.item.One?
    ensures IsDict([e]) && Apply([e], s, py).Some? && IsOtherKey("x") && Get([e], "x") == Some(e.item)
  {
    hide MaxBytes, Apply;
    assert [e][1..] == [] && Get([], BYTES) == Get([], "features") == Get([], "memories") == None;
    assert MaxBytes(None, py.float).Some? by { MaxOfNothing(py); }
    ApplyExactly([e], s, py);
  }

  lemma MaxOfNothing(py: Python)
    ensures MaxBytes(None, py.float).Some?
  {
  }

  /** The reader of this model, where it gives well-formed dictionaries. */
  function StrictReader(spells: string -> bool): string -> Option<Row> {
    t => match ReadDocument(t)
      case None => None
      case Some(row) => if IsWellFormed(row, spells) then Some(row) else None
  }

  /** What is assumed of Python can be met, whatever it spells and converts. */
  lemma ReaderReadsToml(spells: string -> bool, float: PlainText -> Option<real>)
    ensures ReadsToml(Python(StrictReader(spells), spells, float))
  {
    hide IsDict, AllAtoms, Print, DocumentText, ReadDocument, IsCleanRow, Norm;
    forall row | IsWellFormed(row, spells) && IsPrintable(row)
      ensures StrictReader(spells)(DocumentText(Print(row))) == ReadDocument(DocumentText(Print(row)))
    {
      TextReadsBack(row);
      NormIsDict(row);
      AllOfNorm(row, v => IsWellFormedValue(v, spells));
    }
  }

  lemma NormIsDict(row: Row)
    requires IsDict(row)
    ensures IsDict(Norm(row))
  {
    hide IsDict, Print, Read, Norm;
    ReadBack(row);
    ReadIsDict(Print(row));
  }

  // The programs.

  /** `config_bytes` with its shared list of lines. */
  class Printer {
    var lines: seq<Line>

    constructor ()
      ensures lines == []
    {
      lines := [];
    }

    method PrintTable(row: Row, prefix: seq<string>) returns (ok: bool)
      modifies this
      ensures ok <==> IsPrintable(row)
      ensures ok ==> lines == old(lines) + TableLines(row, prefix)
      decreases row
    {
      hide TableLines, AtomLines, SubtableLines, TomlValue;
      ghost var header := if prefix == [] then [] else [Blank, Header(prefix)];
      if prefix != [] {
        lines := lines + [Blank, Header(prefix)];
      }
      assert lines == old(lines) + header;
      EmptyRow(row, prefix);
      for i := 0 to |row|
        invariant lines == old(lines) + header + AtomLines(row[..i])
        invariant forall j :: 0 <= j < i && row[j].item.One? ==> IsPrintableAtom(row[j].item.atom)
      {
        KeyStep(row, i, prefix);
        if row[i].item.One? {
          TomlValueIs(row[i].item.atom);
          if TomlValue(row[i].item.atom).None? {
            assert !AllInItem(row[i].item, IsPrintableAtom);
            return false;
          }
          lines := lines + [KeyValue(row[i].key, row[i].item.atom)];
        }
      }
      for i := 0 to |row|
        invariant lines == old(lines) + header + AtomLines(row) + SubtableLines(row[..i], prefix)
        invariant forall j :: 0 <= j < i ==> AllInItem(row[j].item, IsPrintableAtom)
      {
        KeyStep(row, i, prefix);
        if row[i].item.Table? {
          var below := PrintTable(row[i].item.row, prefix + [row[i].key]);
          if !below {
            assert !AllInItem(row[i].item, IsPrintableAtom);
            return false;
          }
        }
      }
      TableIs(row, prefix);
      ok := true;
    }
  }

  lemma EmptyRow(row: Row, prefix: seq<string>)
    ensures AtomLines(row[..0]) == [] && SubtableLines(row[..0], prefix) == [] && row[..|row|] == row
  {
  }

  lemma KeyStep(row: Row, i: nat, prefix: seq<string>)
    requires i < |row|
    ensures AtomLines(row[..i + 1]) == AtomLines(row[..i]) + AtomLine(row[i])
    ensures SubtableLines(row[..i + 1], prefix) ==
            SubtableLines(row[..i], prefix) +
            if row[i].item.Table? then TableLines(row[i].item.row, prefix + [row[i].key]) else []
  {
    hide TableLines, AtomLine;
    var e := row[i];
    assert row[..i + 1] == row[..i] + [e] && [e][1..] == [];
    AtomLinesConcat(row[..i], [e]);
    SubtableLinesConcat(row[..i], [e], prefix);
    assert AtomLines([]) == [] && SubtableLines([], prefix) == [];
    assert AtomLines([e]) == AtomLine(e) + [] == AtomLine(e);
  }

  /** The two installed files; a missing configuration reads as an empty one. */
  class CodexHome {
    const py: Python
    var agents: Option<string>
    var config: Option<string>

    constructor (py: Python, agents: Option<string>, config: Option<string>)
      ensures this.py == py && this.agents == agents && this.config == config
    {
      this.py, this.agents, this.config := py, agents, config;
    }

    function Original(): string
      reads this
    {
      if config.Some? then config.value else ""
    }

    /** `install`, with the instructions already put together. */
    method Install(instructions: string, s: Settings, apply: bool) returns (r: Result<bool, Failure>)
      modifies this
      ensures var rendered := Render(old(Original()), s, py);
              match rendered
              case Err(f) => r == Err(f) && agents == old(agents) && config == old(config)
              case Ok(text) =>
                r == Ok(old(agents) != Some(instructions) || old(config) != Some(text)) &&
                if apply then agents == Some(instructions) && config == Some(text)
                else agents == old(agents) && config == old(config)
    {
      hide Apply, Print, MeaningOf, DocumentText, IsPrintable;
      var row := py.parse(Original());
      if row == None {
        return Err(InvalidConfig);
      }
      var next := Apply(row.value, s, py);
      if next == None {
        return Err(UnsupportedValue);
      }
      var printer := new Printer();
      var printed := printer.PrintTable(next.value, []);
      if !printed {
        return Err(UnprintableValue);
      }
      assert printer.lines == Print(next.value) by { PrintIs(next.value); }
      var text := DocumentText(printer.lines);
      var again := py.parse(text);
      if again == None {
        return Err(InvalidText);
      }
      if MeaningOf(again.value) != MeaningOf(next.value) {
        return Err(RoundTripFailed);
      }
      var changed := agents != Some(instructions) || config != Some(text);
      if apply && changed {
        agents := Some(instructions);
        config := Some(text);
      }
      r := Ok(changed);
    }

    /** A second installation of the same inputs reports no change and makes none. */
    method InstallTwice(instructions: string, s: Settings)
      returns (first: Result<bool, Failure>, second: Result<bool, Failure>)
      requires ReadsToml(py)
      modifies this
      ensures first.Ok? ==> second == Ok(false)
      ensures first.Err? ==> second == first && agents == old(agents) && config == old(config)
    {
      hide Render, Apply, IsCleanRow, IsPrintable;
      first := Install(instructions, s, true);
      RenderIsIdempotent(old(Original()), s, py);
      second := Install(instructions, s, true);
    }
  }

  lemma PrintIs(row: Row)
    ensures [] + TableLines(row, []) == Print(row)
  {
    hide TableLines;
  }
}
