/** Reading printed tables back gives the same tables, and printing them again gives the same lines. */
module ConfigRoundTrip {
  import opened ConfigTables
  import opened Wrappers

  predicate IsFresh(row: Row, current: Row) { forall i :: 0 <= i < |row| ==> Get(current, row[i].key) == None }

  predicate TablesAreFresh(row: Row, current: Row) {
    forall i :: 0 <= i < |row| && row[i].item.Table? ==> Get(current, row[i].key) == None
  }

  lemma DictTail(row: Row)
    requires IsDict(row) && row != []
    ensures IsDict(row[1..]) && (forall i :: 0 <= i < |row[1..]| ==> row[1..][i].key != row[0].key)
    ensures row[0].item.Table? ==> IsDict(row[0].item.row)
  {
  }

  lemma KeyLineRuns(s: State, e: Entry, current: Row)
    requires RowAt(s.root, s.at) == Some(current) && e.item.One? && Get(current, e.key) == None
    ensures Run(s, AtomLine(e)) == Some(State(SetRow(s.root, s.at, current + [e]), s.at))
  {
    hide RowAt, SetRow;
    var line := KeyValue(e.key, e.item.atom);
    assert AtomLine(e) == [line] && [line][1..] == [];
    assert e == Entry(e.key, One(e.item.atom));
    assert Run(Step(s, line).value, []) == Step(s, line);
  }

  /** The key lines of a table go into the current table, in order. */
  lemma {:induction false} AtomsRead(s: State, row: Row, current: Row)
    requires RowAt(s.root, s.at) == Some(current) && IsDict(row) && IsFresh(row, current)
    ensures Run(s, AtomLines(row)) == Some(State(SetRow(s.root, s.at, current + Atoms(row)), s.at))
    decreases row
  {
    hide IsDict, RowAt, SetRow;
    if row == [] {
      assert current + [] == current;
      SetRowSame(s.root, s.at);
    } else {
      DictTail(row);
      var e, rest := row[0], row[1..];
      if e.item.One? {
        var t := State(SetRow(s.root, s.at, current + [e]), s.at);
        RowOfSet(s.root, s.at, current + [e]);
        forall i | 0 <= i < |rest| ensures Get(current + [e], rest[i].key) == None {
          GetOfAppend(current, [e], rest[i].key);
          assert rest[i] == row[i + 1];
        }
        KeyLineRuns(s, e, current);
        AtomsRead(t, rest, current + [e]);
        RunConcat(s, AtomLine(e), AtomLines(rest));
        SetRowTwice(s.root, s.at, current + [e], current + [e] + Atoms(rest));
        assert current + ([e] + Atoms(rest)) == current + [e] + Atoms(rest);
      } else {
        assert AtomLines(row) == [] + AtomLines(rest) == AtomLines(rest) && Atoms(row) == Atoms(rest);
        forall i | 0 <= i < |rest| ensures Get(current, rest[i].key) == None {
          assert rest[i] == row[i + 1];
        }
        AtomsRead(s, rest, current);
      }
    }
  }

  lemma {:induction false} AtomsAreRows(row: Row, key: string)
    requires Get(Atoms(row), key).Some?
    ensures exists i :: 0 <= i < |row| && row[i].key == key && row[i].item.One?
    decreases row
  {
    if row[0].item.One? && row[0].key == key {
    } else {
      if row[0].item.One? {
        assert Atoms(row)[1..] == Atoms(row[1..]);
      } else {
        assert Atoms(row) == Atoms(row[1..]);
      }
      AtomsAreRows(row[1..], key);
      var i :| 0 <= i < |row[1..]| && row[1..][i].key == key && row[1..][i].item.One?;
      assert row[i + 1].key == key;
    }
  }

  lemma TablesAreNotAtoms(row: Row)
    requires IsDict(row)
    ensures TablesAreFresh(row, Atoms(row))
  {
    forall i | 0 <= i < |row| && row[i].item.Table? ensures Get(Atoms(row), row[i].key) == None {
      if Get(Atoms(row), row[i].key).Some? {
        AtomsAreRows(row, row[i].key);
      }
    }
  }

  lemma {:induction false} SetLast(row: Row, key: string, a: Item, b: Item)
    requires Get(row, key) == None
    ensures SetKey(row + [Entry(key, a)], key, b) == row + [Entry(key, b)]
    decreases row
  {
    if row == [] {
      assert row + [Entry(key, a)] == [Entry(key, a)];
    } else {
      SetLast(row[1..], key, a, b);
      assert (row + [Entry(key, a)])[1..] == row[1..] + [Entry(key, a)];
    }
  }

  /** A header and what follows it build one table, whole and in place. */
  lemma {:induction false} TableReads(s: State, prefix: seq<string>, key: string, row: Row, current: Row)
    requires RowAt(s.root, prefix) == Some(current) && Get(current, key) == None && IsDict(row)
    ensures var r := Run(s, TableLines(row, prefix + [key]));
            r.Some? && r.value.root == SetRow(s.root, prefix, current + [Entry(key, Table(Norm(row)))])
    decreases row, 1
  {
    hide IsDict, RowAt, SetRow, SetKey, Get;
    var path := prefix + [key];
    var started := current + [Entry(key, Table([]))];
    var t := State(SetRow(s.root, prefix, started), path);
    assert path[..|path| - 1] == prefix && path[|path| - 1] == key;
    assert Step(s, Header(path)) == Some(t);
    HeaderRuns(s, t, path);
    OpenedIsEmpty(s.root, prefix, key, current);
    FreshInNothing(row);
    AtomsRead(t, row, []);
    assert [] + Atoms(row) == Atoms(row);
    var u := State(SetRow(t.root, path, Atoms(row)), path);
    RowOfSet(t.root, path, Atoms(row));
    TablesAreNotAtoms(row);
    SubtablesRead(u, path, row, Atoms(row));
    SetRowTwice(t.root, path, Atoms(row), Norm(row));
    RunConcat(s, [Blank, Header(path)], AtomLines(row));
    RunConcat(s, [Blank, Header(path)] + AtomLines(row), SubtableLines(row, path));
    FilledInPlace(s.root, prefix, key, current, Norm(row));
  }

  lemma HeaderRuns(s: State, t: State, path: seq<string>)
    requires Step(s, Header(path)) == Some(t)
    ensures Run(s, [Blank, Header(path)]) == Some(t)
  {
    assert [Blank, Header(path)][1..] == [Header(path)] && [Header(path)][1..] == [];
    assert Run(t, []) == Some(t);
    assert Run(s, [Header(path)]) == Some(t);
  }

  lemma FreshInNothing(row: Row)
    ensures IsFresh(row, [])
  {
  }

  lemma OpenedIsEmpty(root: Row, prefix: seq<string>, key: string, current: Row)
    requires RowAt(root, prefix) == Some(current) && Get(current, key) == None
    ensures RowAt(SetRow(root, prefix, current + [Entry(key, Table([]))]), prefix + [key]) == Some([])
  {
    hide RowAt, SetRow;
    var started := current + [Entry(key, Table([]))];
    RowOfSet(root, prefix, started);
    RowBelow(SetRow(root, prefix, started), prefix, key, []);
    GetOfAppend(current, [Entry(key, Table([]))], key);
  }

  lemma FilledInPlace(root: Row, prefix: seq<string>, key: string, current: Row, row: Row)
    requires RowAt(root, prefix) == Some(current) && Get(current, key) == None
    requires RowAt(SetRow(root, prefix, current + [Entry(key, Table([]))]), prefix + [key]).Some?
    ensures SetRow(SetRow(root, prefix, current + [Entry(key, Table([]))]), prefix + [key], row) ==
            SetRow(root, prefix, current + [Entry(key, Table(row))])
  {
    hide RowAt, SetRow;
    var started := current + [Entry(key, Table([]))];
    RowOfSet(root, prefix, started);
    RowBelow(SetRow(root, prefix, started), prefix, key, row);
    SetLast(current, key, Table([]), Table(row));
    SetRowTwice(root, prefix, started, current + [Entry(key, Table(row))]);
  }

  lemma {:induction false} SubtablesRead(s: State, prefix: seq<string>, row: Row, current: Row)
    requires RowAt(s.root, prefix) == Some(current) && IsDict(row) && TablesAreFresh(row, current)
    ensures var r := Run(s, SubtableLines(row, prefix));
            r.Some? && r.value.root == SetRow(s.root, prefix, current + NormTables(row))
    decreases row, 0
  {
    hide IsDict, RowAt, SetRow, TableLines, Norm;
    if row == [] {
      assert current + [] == current;
      SetRowSame(s.root, prefix);
    } else {
      DictTail(row);
      var e, rest := row[0], row[1..];
      forall i | 0 <= i < |rest| ensures rest[i] == row[i + 1] {
      }
      if e.item.Table? {
        TableReads(s, prefix, e.key, e.item.row, current);
        var added := [Entry(e.key, Table(Norm(e.item.row)))];
        var t := Run(s, TableLines(e.item.row, prefix + [e.key])).value;
        RowOfSet(s.root, prefix, current + added);
        forall i | 0 <= i < |rest| && rest[i].item.Table? ensures Get(current + added, rest[i].key) == None {
          GetOfAppend(current, added, rest[i].key);
        }
        SubtablesRead(t, prefix, rest, current + added);
        RunConcat(s, TableLines(e.item.row, prefix + [e.key]), SubtableLines(rest, prefix));
        SetRowTwice(s.root, prefix, current + added, current + added + NormTables(rest));
        assert current + (added + NormTables(rest)) == current + added + NormTables(rest);
      } else {
        assert SubtableLines(row, prefix) == [] + SubtableLines(rest, prefix) == SubtableLines(rest, prefix);
        assert NormTables(row) == [] + NormTables(rest) == NormTables(rest);
        SubtablesRead(s, prefix, rest, current);
      }
    }
  }

  /** What is printed reads back, with one-line values moved before tables. */
  lemma ReadBack(row: Row)
    requires IsDict(row)
    ensures Read(Print(row)) == Some(Norm(row))
  {
    hide IsDict, AtomLines, SubtableLines, Atoms, NormTables;
    var s := State([], []);
    FreshInNothing(row);
    AtomsRead(s, row, []);
    assert [] + Atoms(row) == Atoms(row);
    var t := State(Atoms(row), []);
    TablesAreNotAtoms(row);
    SubtablesRead(t, [], row, Atoms(row));
    RunConcat(s, AtomLines(row), SubtableLines(row, []));
    assert [] + AtomLines(row) + SubtableLines(row, []) == AtomLines(row) + SubtableLines(row, []);
  }
}
