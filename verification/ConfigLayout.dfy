/** How a printed configuration is laid out: where the blank lines are, and in which order the tables come. */
module ConfigLayout {
  import opened ConfigTables

  /** A blank line stands exactly before every header. */
  predicate BlankBeforeHeaders(lines: seq<Line>) {
    && (lines != [] ==> !lines[0].Header?)
    && forall i :: 0 <= i < |lines| ==> (lines[i].Blank? <==> i + 1 < |lines| && lines[i + 1].Header?)
  }

  /** The tables, in the order of their headers. */
  function Tables(lines: seq<Line>): seq<seq<string>> {
    if lines == [] then [] else (if lines[0].Header? then [lines[0].path] else []) + Tables(lines[1..])
  }

  /** Every table comes once and after those above it, and between a table and one below it come only tables that are
      below it, too. */
  predicate AreNested(paths: seq<seq<string>>) {
    && (forall i, k :: 0 <= i < k < |paths| ==> !(paths[k] <= paths[i]))
    && forall i, j, k :: 0 <= i < j < k < |paths| && paths[i] <= paths[k] ==> paths[i] <= paths[j]
  }

  // Blank lines.

  lemma BlanksConcat(a: seq<Line>, b: seq<Line>)
    requires BlankBeforeHeaders(a) && BlankBeforeHeaders(b)
    ensures BlankBeforeHeaders(a + b)
  {
    var lines := a + b;
    assert lines != [] ==> lines[0] == if a != [] then a[0] else b[0];
    forall i | 0 <= i < |lines| ensures lines[i].Blank? <==> (i + 1 < |lines| && lines[i + 1].Header?) {
      if i < |a| {
        assert a[i].Blank? <==> (i + 1 < |a| && a[i + 1].Header?);
        assert lines[i] == a[i] && (i + 1 < |lines| ==> lines[i + 1] == if i + 1 < |a| then a[i + 1] else b[0]);
      } else {
        var j := i - |a|;
        assert b[j].Blank? <==> (j + 1 < |b| && b[j + 1].Header?);
        assert lines[i] == b[j] && (i + 1 < |lines| ==> lines[i + 1] == b[j + 1]);
      }
    }
  }

  lemma {:induction false} ValuesOnly(row: Row)
    ensures forall i :: 0 <= i < |AtomLines(row)| ==> AtomLines(row)[i].KeyValue?
    decreases row
  {
    if row != [] {
      ValuesOnly(row[1..]);
    }
  }

  lemma HeadBlanks(prefix: seq<string>, values: seq<Line>)
    requires forall i :: 0 <= i < |values| ==> values[i].KeyValue?
    ensures BlankBeforeHeaders((if prefix == [] then [] else [Blank, Header(prefix)]) + values)
  {
  }

  lemma {:induction false} TableBlanks(row: Row, prefix: seq<string>)
    ensures BlankBeforeHeaders(TableLines(row, prefix))
    decreases row, 1
  {
    hide TableLines, SubtableLines, AtomLines, BlankBeforeHeaders;
    ValuesOnly(row);
    SubtableBlanks(row, prefix);
    TableIs(row, prefix);
    HeadBlanks(prefix, AtomLines(row));
    BlanksConcat((if prefix == [] then [] else [Blank, Header(prefix)]) + AtomLines(row), SubtableLines(row, prefix));
  }

  lemma {:induction false} SubtableBlanks(row: Row, prefix: seq<string>)
    ensures BlankBeforeHeaders(SubtableLines(row, prefix))
    decreases row, 0
  {
    hide TableLines;
    if row != [] {
      SubtableBlanks(row[1..], prefix);
      var first := if row[0].item.Table? then TableLines(row[0].item.row, prefix + [row[0].key]) else [];
      if row[0].item.Table? {
        TableBlanks(row[0].item.row, prefix + [row[0].key]);
      }
      BlanksConcat(first, SubtableLines(row[1..], prefix));
    }
  }

  // The order of the tables.

  lemma {:induction false} TablesConcat(a: seq<Line>, b: seq<Line>)
    ensures Tables(a + b) == Tables(a) + Tables(b)
  {
    if a == [] {
      assert a + b == b;
    } else {
      TablesConcat(a[1..], b);
      assert (a + b)[1..] == a[1..] + b;
    }
  }

  lemma {:induction false} NoTables(values: seq<Line>)
    requires forall i :: 0 <= i < |values| ==> values[i].KeyValue?
    ensures Tables(values) == []
  {
    if values != [] {
      NoTables(values[1..]);
    }
  }

  /** The tables lie strictly below `prefix`, in one that `row` lists. */
  predicate LieBelow(paths: seq<seq<string>>, prefix: seq<string>, row: Row) {
    forall i :: 0 <= i < |paths| ==>
                  prefix < paths[i] && exists e :: 0 <= e < |row| && row[e].key == paths[i][|prefix|]
  }

  lemma NestedConcat(a: seq<seq<string>>, b: seq<seq<string>>)
    requires AreNested(a) && AreNested(b)
    requires forall i, k :: 0 <= i < |a| && 0 <= k < |b| ==> !(a[i] <= b[k]) && !(b[k] <= a[i])
    ensures AreNested(a + b)
  {
  }

  lemma EmptyNests()
    ensures AreNested([])
  {
  }

  lemma NestedBelow(prefix: seq<string>, below: seq<seq<string>>)
    requires AreNested(below) && forall i :: 0 <= i < |below| ==> prefix < below[i]
    ensures AreNested([prefix] + below)
  {
  }

  lemma TablesBelow(row: Row, prefix: seq<string>)
    ensures Tables(TableLines(row, prefix)) ==
            (if prefix == [] then [] else [prefix]) + Tables(SubtableLines(row, prefix))
  {
    hide TableLines, SubtableLines, AtomLines;
    ValuesOnly(row);
    NoTables(AtomLines(row));
    TableIs(row, prefix);
    var head := if prefix == [] then [] else [Blank, Header(prefix)];
    TablesConcat(head + AtomLines(row), SubtableLines(row, prefix));
    TablesConcat(head, AtomLines(row));
    assert [Blank, Header(prefix)][1..] == [Header(prefix)] && [Header(prefix)][1..] == [];
  }

  lemma {:induction false} TableNests(row: Row, prefix: seq<string>)
    requires IsDict(row)
    ensures AreNested(Tables(TableLines(row, prefix)))
    ensures forall i :: 0 <= i < |Tables(TableLines(row, prefix))| ==> prefix <= Tables(TableLines(row, prefix))[i]
    decreases row, 1
  {
    hide TableLines, SubtableLines, AtomLines, IsDict, AreNested, Tables;
    SubtablesNest(row, prefix);
    TablesBelow(row, prefix);
    var below := Tables(SubtableLines(row, prefix));
    NestedBelow(prefix, below);
    assert [] + below == below;
  }

  lemma {:induction false} SubtablesNest(row: Row, prefix: seq<string>)
    requires IsDict(row)
    ensures AreNested(Tables(SubtableLines(row, prefix))) && LieBelow(Tables(SubtableLines(row, prefix)), prefix, row)
    decreases row, 0
  {
    hide TableLines, AreNested;
    if row == [] {
      EmptyNests();
    } else {
      var rest, inner := row[1..], prefix + [row[0].key];
      SubtablesNest(rest, prefix);
      var b := Tables(SubtableLines(rest, prefix));
      BelowMore(b, prefix, row);
      if row[0].item.Table? {
        TableNests(row[0].item.row, inner);
        TablesConcat(TableLines(row[0].item.row, inner), SubtableLines(rest, prefix));
        Beside(Tables(TableLines(row[0].item.row, inner)), b, prefix, row);
      } else {
        assert [] + SubtableLines(rest, prefix) == SubtableLines(rest, prefix);
      }
    }
  }

  lemma BelowMore(b: seq<seq<string>>, prefix: seq<string>, row: Row)
    requires row != [] && LieBelow(b, prefix, row[1..])
    ensures LieBelow(b, prefix, row)
  {
    forall i | 0 <= i < |b| ensures prefix < b[i] && exists e :: 0 <= e < |row| && row[e].key == b[i][|prefix|] {
      var e :| 0 <= e < |row[1..]| && row[1..][e].key == b[i][|prefix|];
      assert row[e + 1].key == b[i][|prefix|];
    }
  }

  /** The first table that is listed, with all in it, stands beside the others. */
  lemma Beside(a: seq<seq<string>>, b: seq<seq<string>>, prefix: seq<string>, row: Row)
    requires row != [] && LieBelow(b, prefix, row[1..]) && AreNested(a) && AreNested(b)
    requires forall i :: 1 <= i < |row| ==> row[0].key != row[i].key
    requires forall i :: 0 <= i < |a| ==> prefix + [row[0].key] <= a[i]
    ensures AreNested(a + b) && LieBelow(a + b, prefix, row)
  {
    BelowMore(b, prefix, row);
    forall i | 0 <= i < |a| ensures prefix < a[i] && a[i][|prefix|] == row[0].key {
      assert a[i][..|prefix| + 1] == prefix + [row[0].key];
    }
    NestedConcat(a, b);
  }

  /** A printed dictionary: a blank line exactly before every header, and the tables in depth-first order. */
  lemma LayoutExactly(row: Row)
    requires IsDict(row)
    ensures BlankBeforeHeaders(Print(row)) && AreNested(Tables(Print(row)))
  {
    hide TableLines, BlankBeforeHeaders, AreNested;
    TableBlanks(row, []);
    TableNests(row, []);
  }
}
