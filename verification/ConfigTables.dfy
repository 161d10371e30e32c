/** Configuration tables in insertion order, the lines they are printed as, and the reader of such lines. */
module ConfigTables {
  import opened Decimal
  import opened TextFormats
  import opened Wrappers

  /** A character of an unquoted value, and the values so written that are neither integers nor booleans: Python's
      own spelling of a float, a date or a time stands for the value. */
  predicate IsTokenChar(c: char) { c !in ",[]{}\" \n\U{7f}" && c as int >= 0x20 }

  predicate IsToken(t: string) { t != "" && forall i :: 0 <= i < |t| ==> IsTokenChar(t[i]) }

  predicate IsInteger(t: string) {
    IsCanonical(t) || ("-" <= t && IsCanonical(t[1..]) && t[1..] != "0")
  }

  type PlainText = t: string | IsToken(t) && t != "true" && t != "false" && !IsInteger(t)
    witness (LetterIsPlain(); "x")

  lemma LetterIsPlain()
    ensures IsToken("x") && !IsInteger("x")
  {
    assert !IsDigit("x"[0]);
  }

  /** A value that is written on one line; a table inside a list is written inline. */
  datatype Atom =
    | Text(text: string)
    | Number(n: int)
    | Flag(b: bool)
    | Plain(form: PlainText)
    | Array(items: seq<Atom>)
    | Inline(pairs: seq<Pair>)

  datatype Pair = Pair(key: string, value: Atom)

  datatype Item = One(atom: Atom) | Table(row: seq<Entry>)
  datatype Entry = Entry(key: string, item: Item)
  type Row = seq<Entry>

  datatype Line = Blank | Header(path: seq<string>) | KeyValue(key: string, atom: Atom)

  /** Keys are distinct, at every level. */
  predicate IsDict(row: Row) {
    (forall i, j :: 0 <= i < j < |row| ==> row[i].key != row[j].key) &&
    forall i :: 0 <= i < |row| && row[i].item.Table? ==> IsDict(row[i].item.row)
  }

  function Get(row: Row, key: string): Option<Item> {
    if row == [] then None else if row[0].key == key then Some(row[0].item) else Get(row[1..], key)
  }

  // Printing.

  function AtomLine(e: Entry): seq<Line> { if e.item.One? then [KeyValue(e.key, e.item.atom)] else [] }

  function AtomLines(row: Row): seq<Line> {
    if row == [] then [] else AtomLine(row[0]) + AtomLines(row[1..])
  }

  /** `table(row, prefix)`. */
  function TableLines(row: Row, prefix: seq<string>): seq<Line>
    decreases row, 1
  {
    (if prefix == [] then [] else [Blank, Header(prefix)]) + AtomLines(row) + SubtableLines(row, prefix)
  }

  function SubtableLines(row: Row, prefix: seq<string>): seq<Line>
    decreases row, 0
  {
    if row == [] then []
    else
      (if row[0].item.Table? then TableLines(row[0].item.row, prefix + [row[0].key]) else []) +
      SubtableLines(row[1..], prefix)
  }

  lemma TableIs(row: Row, prefix: seq<string>)
    ensures TableLines(row, prefix) ==
            (if prefix == [] then [] else [Blank, Header(prefix)]) + AtomLines(row) + SubtableLines(row, prefix)
  {
  }

  function Print(row: Row): seq<Line> { TableLines(row, []) }

  // What printing keeps: one-line values first, then tables.

  function Atoms(row: Row): Row {
    if row == [] then [] else (if row[0].item.One? then [row[0]] else []) + Atoms(row[1..])
  }

  function Norm(row: Row): Row
    decreases row, 1
  {
    Atoms(row) + NormTables(row)
  }

  function NormTables(row: Row): Row
    decreases row, 0
  {
    if row == [] then []
    else
      (if row[0].item.Table? then [Entry(row[0].key, Table(Norm(row[0].item.row)))] else []) + NormTables(row[1..])
  }

  // Reading.

  /** The table at a path. */
  function RowAt(root: Row, path: seq<string>): Option<Row>
    decreases path
  {
    if path == [] then Some(root)
    else match Get(root, path[0])
      case Some(Table(row)) => RowAt(row, path[1..])
      case _ => None
  }

  /** Replaces the item of a key, or adds the key at the end: `row[key] = item`. */
  function SetKey(row: Row, key: string, item: Item): Row {
    if row == [] then [Entry(key, item)]
    else if row[0].key == key then [Entry(key, item)] + row[1..]
    else [row[0]] + SetKey(row[1..], key, item)
  }

  function SetRow(root: Row, path: seq<string>, row: Row): Row
    requires RowAt(root, path).Some?
    decreases path
  {
    if path == [] then row
    else SetKey(root, path[0], Table(SetRow(Get(root, path[0]).value.row, path[1..], row)))
  }

  /** The document so far, and the table that key lines go to. */
  datatype State = State(root: Row, at: seq<string>)

  /** One line. A header opens a new table in one that is there; a key may be set once. */
  function Step(s: State, line: Line): Option<State> {
    match line
    case Blank => Some(s)
    case Header(path) =>
      if path == [] then None
      else
        var parent, key := path[..|path| - 1], path[|path| - 1];
        if RowAt(s.root, parent) == None || Get(RowAt(s.root, parent).value, key).Some? then None
        else Some(State(SetRow(s.root, parent, RowAt(s.root, parent).value + [Entry(key, Table([]))]), path))
    case KeyValue(key, atom) =>
      if RowAt(s.root, s.at) == None || Get(RowAt(s.root, s.at).value, key).Some? then None
      else Some(State(SetRow(s.root, s.at, RowAt(s.root, s.at).value + [Entry(key, One(atom))]), s.at))
  }

  function Run(s: State, lines: seq<Line>): Option<State>
    decreases lines
  {
    if lines == [] then Some(s)
    else match Step(s, lines[0])
      case None => None
      case Some(t) => Run(t, lines[1..])
  }

  function Read(lines: seq<Line>): Option<Row> {
    match Run(State([], []), lines)
    case None => None
    case Some(s) => Some(s.root)
  }

  // Laws of tables.

  lemma {:induction false} GetOfSet(row: Row, key: string, item: Item, other: string)
    ensures Get(SetKey(row, key, item), other) == if other == key then Some(item) else Get(row, other)
    decreases row
  {
    if row != [] && row[0].key != key {
      GetOfSet(row[1..], key, item, other);
      assert SetKey(row, key, item)[1..] == SetKey(row[1..], key, item);
    }
  }

  lemma {:induction false} SetTwice(row: Row, key: string, a: Item, b: Item)
    ensures SetKey(SetKey(row, key, a), key, b) == SetKey(row, key, b)
    decreases row
  {
    if row != [] && row[0].key != key {
      SetTwice(row[1..], key, a, b);
      assert SetKey(row, key, a)[1..] == SetKey(row[1..], key, a);
    }
  }

  lemma {:induction false} SetSame(row: Row, key: string, item: Item)
    requires Get(row, key) == Some(item)
    ensures SetKey(row, key, item) == row
    decreases row
  {
    if row[0].key != key {
      SetSame(row[1..], key, item);
    }
    assert row == [row[0]] + row[1..];
    assert row[0].key == key ==> row[0] == Entry(key, item);
  }

  lemma {:induction false} GetOfAppend(a: Row, b: Row, key: string)
    ensures Get(a + b, key) == if Get(a, key).Some? then Get(a, key) else Get(b, key)
    decreases a
  {
    if a == [] {
      assert a + b == b;
    } else {
      GetOfAppend(a[1..], b, key);
      assert (a + b)[1..] == a[1..] + b;
    }
  }

  lemma {:induction false} RowOfSet(root: Row, path: seq<string>, row: Row)
    requires RowAt(root, path).Some?
    ensures RowAt(SetRow(root, path, row), path) == Some(row)
    decreases path
  {
    if path != [] {
      var below := Get(root, path[0]).value.row;
      RowOfSet(below, path[1..], row);
      GetOfSet(root, path[0], Table(SetRow(below, path[1..], row)), path[0]);
    }
  }

  lemma {:induction false} SetRowTwice(root: Row, path: seq<string>, a: Row, b: Row)
    requires RowAt(root, path).Some?
    ensures RowAt(SetRow(root, path, a), path).Some? && SetRow(SetRow(root, path, a), path, b) == SetRow(root, path, b)
    decreases path
  {
    RowOfSet(root, path, a);
    if path != [] {
      var below := Get(root, path[0]).value.row;
      SetRowTwice(below, path[1..], a, b);
      GetOfSet(root, path[0], Table(SetRow(below, path[1..], a)), path[0]);
      SetTwice(root, path[0], Table(SetRow(below, path[1..], a)), Table(SetRow(below, path[1..], b)));
    }
  }

  lemma {:induction false} SetRowSame(root: Row, path: seq<string>)
    requires RowAt(root, path).Some?
    ensures SetRow(root, path, RowAt(root, path).value) == root
    decreases path
  {
    if path != [] {
      SetRowSame(Get(root, path[0]).value.row, path[1..]);
      SetSame(root, path[0], Get(root, path[0]).value);
    }
  }

  /** One level further down. */
  lemma {:induction false} RowBelow(root: Row, path: seq<string>, key: string, row: Row)
    requires RowAt(root, path).Some?
    ensures RowAt(root, path + [key]) ==
            match Get(RowAt(root, path).value, key) case Some(Table(t)) => Some(t) case _ => None
    ensures RowAt(root, path + [key]).Some? ==>
              SetRow(root, path + [key], row) == SetRow(root, path, SetKey(RowAt(root, path).value, key, Table(row)))
    decreases path
  {
    if path == [] {
      assert path + [key] == [key] && [key][1..] == [];
    } else {
      RowBelow(Get(root, path[0]).value.row, path[1..], key, row);
      assert (path + [key])[1..] == path[1..] + [key];
    }
  }

  lemma {:induction false} RunConcat(s: State, a: seq<Line>, b: seq<Line>)
    ensures Run(s, a + b) == match Run(s, a) case None => None case Some(t) => Run(t, b)
    decreases a
  {
    if a == [] {
      assert a + b == b;
    } else {
      assert (a + b)[1..] == a[1..] + b;
      if Step(s, a[0]).Some? {
        RunConcat(Step(s, a[0]).value, a[1..], b);
      }
    }
  }
}
