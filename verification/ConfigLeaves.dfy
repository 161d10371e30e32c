/** Flattening a configuration into leaves, and finding where a key is declared in it. */
module ConfigLeaves {
  import opened Decimal
  import opened Sorting
  import opened Wrappers

  datatype Config =
    | Scalar(text: string)
    | Dict(entries: map<string, Config>)
    | List(items: seq<Config>)

  type Path = seq<string>

  datatype Leaf = Leaf(path: Path, value: Config)

  // Flattening.

  /** `leaves(value, prefix)`. */
  function Leaves(v: Config, prefix: Path): seq<Leaf>
    decreases v, 1
  {
    match v
    case Scalar(_) => [Leaf(prefix, v)]
    case Dict(entries) => LeavesOfKeys(v, SortedNames(entries.Keys), prefix)
    case List(_) => LeavesOfItems(v, 0, prefix)
  }

  function LeavesOfKeys(v: Config, keys: seq<string>, prefix: Path): seq<Leaf>
    requires v.Dict? && forall i :: 0 <= i < |keys| ==> keys[i] in v.entries
    decreases v, 0, |keys|
  {
    if keys == [] then []
    else Leaves(v.entries[keys[0]], prefix + [keys[0]]) + LeavesOfKeys(v, keys[1..], prefix)
  }

  function LeavesOfItems(v: Config, index: nat, prefix: Path): seq<Leaf>
    requires v.List? && index <= |v.items|
    decreases v, 0, |v.items| - index
  {
    if index == |v.items| then []
    else Leaves(v.items[index], prefix + [OfNat(index)]) + LeavesOfItems(v, index + 1, prefix)
  }

  // Lookup.

  /** The value at a path; list positions are canonical decimal numerals. */
  function ValueAt(v: Config, path: Path): Option<Config>
    decreases path
  {
    if path == [] then Some(v)
    else match v
      case Scalar(_) => None
      case Dict(entries) => if path[0] in entries then ValueAt(entries[path[0]], path[1..]) else None
      case List(items) =>
        if IsCanonical(path[0]) && ToNat(path[0]) < |items| then ValueAt(items[ToNat(path[0])], path[1..]) else None
  }

  datatype Declaration =
    | Undeclared
    | Ancestor(path: Path, value: Config)
    | Exact(path: Path, value: Config)

  predicate IsLeafAt(v: Config, path: Path, x: Config) { x.Scalar? && ValueAt(v, path) == Some(x) }

  predicate ScalarAt(v: Config, path: Path) { ValueAt(v, path).Some? && ValueAt(v, path).value.Scalar? }

  /** What `input_declaration` answers: a value at the key, a scalar above it, or nothing. */
  predicate Declares(v: Config, key: Path, d: Declaration) {
    match d
    case Exact(path, x) => path == key && ValueAt(v, key) == Some(x)
    case Ancestor(path, x) => path < key && IsLeafAt(v, path, x)
    case Undeclared =>
      ValueAt(v, key) == None && forall n :: 0 <= n < |key| ==> !ScalarAt(v, key[..n])
  }

  lemma {:induction false} ValueBelow(v: Config, a: Path, b: Path)
    ensures ValueAt(v, a + b) == match ValueAt(v, a) case None => None case Some(x) => ValueAt(x, b)
    decreases a
  {
    if a == [] {
      assert a + b == b;
    } else {
      assert (a + b)[1..] == a[1..] + b;
      match v
      case Scalar(_) =>
      case Dict(entries) => if a[0] in entries { ValueBelow(entries[a[0]], a[1..], b); }
      case List(items) =>
        if IsCanonical(a[0]) && ToNat(a[0]) < |items| { ValueBelow(items[ToNat(a[0])], a[1..], b); }
    }
  }

  /** Nothing lies at or below a missing value, nor below a scalar. */
  lemma NothingBelow(v: Config, path: Path, n: nat)
    requires n <= |path|
    requires ValueAt(v, path[..n]) == None || (n < |path| && ValueAt(v, path[..n]).value.Scalar?)
    ensures ValueAt(v, path) == None
    ensures forall m :: n < m <= |path| ==> ValueAt(v, path[..m]) == None
  {
    ValueBelow(v, path[..n], path[n..]);
    assert path == path[..n] + path[n..];
    forall m | n < m <= |path| ensures ValueAt(v, path[..m]) == None {
      ValueBelow(v, path[..n], path[n..m]);
      assert path[..m] == path[..n] + path[n..m];
    }
  }

  lemma ValueStep(v: Config, path: Path, n: nat, x: Config)
    requires n < |path| && ValueAt(v, path[..n]) == Some(x)
    ensures ValueAt(v, path[..n + 1]) == ValueAt(x, [path[n]])
    ensures x.Dict? ==> ValueAt(x, [path[n]]) == if path[n] in x.entries then Some(x.entries[path[n]]) else None
    ensures x.List? ==> ValueAt(x, [path[n]]) ==
                          if IsCanonical(path[n]) && ToNat(path[n]) < |x.items|
                              then Some(x.items[ToNat(path[n])]) else None
  {
    ValueBelow(v, path[..n], [path[n]]);
    assert path[..n + 1] == path[..n] + [path[n]];
    assert [path[n]][1..] == [];
  }

  /** `input_declaration`. */
  method InputDeclaration(config: Config, key: Path) returns (d: Declaration)
    ensures Declares(config, key, d)
  {
    hide ValueAt, ToNat;
    var value := config;
    assert ValueAt(config, key[..0]) == Some(config) by { Here(config); }
    for index := 0 to |key|
      invariant ValueAt(config, key[..index]) == Some(value)
      invariant forall n :: 0 <= n < index ==> !ScalarAt(config, key[..n])
    {
      var part := key[index];
      ValueStep(config, key, index, value);
      match value {
        case Dict(entries) =>
          if part !in entries {
            NothingBelow(config, key, index + 1);
            return Undeclared;
          }
          value := entries[part];
        case List(items) =>
          if !IsCanonical(part) || ToNat(part) >= |items| {
            NothingBelow(config, key, index + 1);
            return Undeclared;
          }
          value := items[ToNat(part)];
        case Scalar(_) =>
          return Ancestor(key[..index], value);
      }
    }
    assert key[..|key|] == key;
    d := Exact(key, value);
  }

  lemma Here(v: Config)
    ensures ValueAt(v, []) == Some(v)
  {
  }

  // Agreement.

  predicate IsLeaf(v: Config, prefix: Path, l: Leaf) {
    prefix <= l.path && IsLeafAt(v, l.path[|prefix|..], l.value)
  }

  lemma StepToKey(v: Config, prefix: Path, k: string, l: Leaf)
    requires v.Dict? && k in v.entries
    ensures IsLeaf(v.entries[k], prefix + [k], l) <==>
            IsLeaf(v, prefix, l) && |l.path| > |prefix| && l.path[|prefix|] == k
  {
    if prefix <= l.path && |l.path| > |prefix| && l.path[|prefix|] == k {
      var rest := l.path[|prefix|..];
      assert l.path == prefix + rest && rest[0] == k && rest[1..] == l.path[|prefix + [k]|..];
      assert l.path == prefix + [k] + rest[1..];
    }
  }

  lemma StepToItem(v: Config, prefix: Path, i: nat, l: Leaf)
    requires v.List? && i < |v.items|
    ensures IsLeaf(v.items[i], prefix + [OfNat(i)], l) <==>
            IsLeaf(v, prefix, l) && |l.path| > |prefix| && l.path[|prefix|] == OfNat(i)
  {
    hide OfNat, ToNat, IsCanonical;
    ToNatOfNat(i);
    if prefix <= l.path && |l.path| > |prefix| && l.path[|prefix|] == OfNat(i) {
      var rest := l.path[|prefix|..];
      assert l.path == prefix + rest && rest[0] == OfNat(i) && rest[1..] == l.path[|prefix + [OfNat(i)]|..];
      assert l.path == prefix + [OfNat(i)] + rest[1..];
    }
  }

  /** A leaf of a table or a list lies in one of its entries. */
  lemma FirstStep(v: Config, prefix: Path, l: Leaf)
    requires IsLeaf(v, prefix, l) && !v.Scalar?
    ensures |l.path| > |prefix|
    ensures v.Dict? ==> l.path[|prefix|] in v.entries
    ensures v.List? ==> exists i :: 0 <= i < |v.items| && l.path[|prefix|] == OfNat(i)
  {
    var rest := l.path[|prefix|..];
    if v.List? {
      OfNatToNat(rest[0]);
    }
  }

  /** The leaves are exactly the scalars, each under its own path. */
  lemma {:induction false} LeavesExactly(v: Config, prefix: Path)
    ensures forall l :: l in Leaves(v, prefix) <==> IsLeaf(v, prefix, l)
    decreases v, 1
  {
    hide OfNat, IsLeaf;
    forall l ensures l in Leaves(v, prefix) <==> IsLeaf(v, prefix, l) {
      match v
      case Scalar(_) => ScalarLeaf(v, prefix, l);
      case Dict(entries) =>
        var keys := SortedNames(entries.Keys);
        KeysExactly(v, keys, prefix, l);
        if IsLeaf(v, prefix, l) {
          FirstStep(v, prefix, l);
          assert l.path[|prefix|] in keys;
        }
      case List(items) =>
        ItemsExactly(v, 0, prefix, l);
        if IsLeaf(v, prefix, l) {
          FirstStep(v, prefix, l);
        }
    }
  }

  lemma ScalarLeaf(v: Config, prefix: Path, l: Leaf)
    requires v.Scalar?
    ensures l in Leaves(v, prefix) <==> IsLeaf(v, prefix, l)
  {
    if IsLeaf(v, prefix, l) {
      assert l.path[|prefix|..] == [] && l.path == prefix;
    }
    assert prefix[|prefix|..] == [];
  }

  lemma {:induction false} KeysExactly(v: Config, keys: seq<string>, prefix: Path, l: Leaf)
    requires v.Dict? && forall i :: 0 <= i < |keys| ==> keys[i] in v.entries
    ensures l in LeavesOfKeys(v, keys, prefix) <==>
            IsLeaf(v, prefix, l) && |l.path| > |prefix| && l.path[|prefix|] in keys
    decreases v, 0, |keys|
  {
    hide IsLeaf;
    if keys != [] {
      LeavesExactly(v.entries[keys[0]], prefix + [keys[0]]);
      StepToKey(v, prefix, keys[0], l);
      KeysExactly(v, keys[1..], prefix, l);
      assert keys == [keys[0]] + keys[1..];
    }
  }

  lemma {:induction false} ItemsExactly(v: Config, index: nat, prefix: Path, l: Leaf)
    requires v.List? && index <= |v.items|
    ensures l in LeavesOfItems(v, index, prefix) <==>
            && IsLeaf(v, prefix, l) && |l.path| > |prefix|
            && exists i :: index <= i < |v.items| && l.path[|prefix|] == OfNat(i)
    decreases v, 0, |v.items| - index
  {
    hide IsLeaf, OfNat;
    if index < |v.items| {
      LeavesExactly(v.items[index], prefix + [OfNat(index)]);
      StepToItem(v, prefix, index, l);
      ItemsExactly(v, index + 1, prefix, l);
    }
  }

  predicate DistinctLeaves(ls: seq<Leaf>) { forall i, j :: 0 <= i < j < |ls| ==> ls[i].path != ls[j].path }

  lemma DistinctConcat(a: seq<Leaf>, b: seq<Leaf>)
    requires DistinctLeaves(a) && DistinctLeaves(b)
    requires forall l, m :: l in a && m in b ==> l.path != m.path
    ensures DistinctLeaves(a + b)
  {
    var c := a + b;
    forall i, j | 0 <= i < j < |c| ensures c[i].path != c[j].path {
      if i < |a| <= j {
        assert c[i] in a && c[j] in b;
      }
    }
  }

  lemma {:induction false} LeavesAreDistinct(v: Config, prefix: Path)
    ensures DistinctLeaves(Leaves(v, prefix))
    decreases v, 1
  {
    match v
    case Scalar(_) =>
    case Dict(entries) =>
      NamesAscend(entries.Keys);
      KeysAreDistinct(v, SortedNames(entries.Keys), prefix);
    case List(_) => ItemsAreDistinct(v, 0, prefix);
  }

  lemma {:induction false} KeysAreDistinct(v: Config, keys: seq<string>, prefix: Path)
    requires v.Dict? && (forall i :: 0 <= i < |keys| ==> keys[i] in v.entries) && Distinct(keys)
    ensures DistinctLeaves(LeavesOfKeys(v, keys, prefix))
    decreases v, 0, |keys|
  {
    hide IsLeaf, DistinctLeaves;
    if keys != [] {
      var a, b := Leaves(v.entries[keys[0]], prefix + [keys[0]]), LeavesOfKeys(v, keys[1..], prefix);
      LeavesAreDistinct(v.entries[keys[0]], prefix + [keys[0]]);
      KeysAreDistinct(v, keys[1..], prefix);
      LeavesExactly(v.entries[keys[0]], prefix + [keys[0]]);
      forall l, m | l in a && m in b ensures l.path != m.path {
        StepToKey(v, prefix, keys[0], l);
        KeysExactly(v, keys[1..], prefix, m);
      }
      DistinctConcat(a, b);
    } else {
      NoLeaves();
    }
  }

  lemma NoLeaves()
    ensures DistinctLeaves([])
  {
  }

  lemma {:induction false} ItemsAreDistinct(v: Config, index: nat, prefix: Path)
    requires v.List? && index <= |v.items|
    ensures DistinctLeaves(LeavesOfItems(v, index, prefix))
    decreases v, 0, |v.items| - index
  {
    hide IsLeaf, OfNat, DistinctLeaves;
    if index < |v.items| {
      var a, b := Leaves(v.items[index], prefix + [OfNat(index)]), LeavesOfItems(v, index + 1, prefix);
      LeavesAreDistinct(v.items[index], prefix + [OfNat(index)]);
      ItemsAreDistinct(v, index + 1, prefix);
      LeavesExactly(v.items[index], prefix + [OfNat(index)]);
      forall l, m | l in a && m in b ensures l.path != m.path {
        StepToItem(v, prefix, index, l);
        ItemsExactly(v, index + 1, prefix, m);
        var i :| index + 1 <= i < |v.items| && m.path[|prefix|] == OfNat(i);
        ToNatOfNat(i);
        ToNatOfNat(index);
      }
      DistinctConcat(a, b);
    } else {
      NoLeaves();
    }
  }

  /** No leaf's path is a prefix of another's. */
  lemma LeavesArePrefixFree(v: Config, i: int, j: int)
    requires 0 <= i < |Leaves(v, [])| && 0 <= j < |Leaves(v, [])| && i != j
    ensures !(Leaves(v, [])[i].path <= Leaves(v, [])[j].path)
  {
    hide ValueAt, Leaves;
    var ls := Leaves(v, []);
    LeavesExactly(v, []);
    LeavesAreDistinct(v, []);
    assert ls[i] in ls && ls[j] in ls;
    var p, q := ls[i].path, ls[j].path;
    assert p[0..] == p && q[0..] == q;
    if p <= q {
      assert p != q;
      assert q[..|p|] == p;
      NothingBelow(v, q, |p|);
    }
  }

  /** Looking a leaf's path up finds exactly that leaf, and what lies above any other key is a leaf too. */
  lemma LookupMeetsLeaves(v: Config, key: Path, d: Declaration)
    requires Declares(v, key, d)
    ensures forall l :: l in Leaves(v, []) && l.path == key ==> d == Exact(key, l.value)
    ensures d.Exact? && d.value.Scalar? ==> Leaf(key, d.value) in Leaves(v, [])
    ensures d.Ancestor? <==> exists l :: l in Leaves(v, []) && l.path < key
    ensures d.Ancestor? ==> Leaf(d.path, d.value) in Leaves(v, []) && d.path < key
  {
    hide ValueAt, Leaves;
    LeavesExactly(v, []);
    forall l | l in Leaves(v, []) ensures IsLeafAt(v, l.path, l.value) {
      assert l.path[0..] == l.path;
    }
    if d.Ancestor? || d.Exact? {
      assert d.path[0..] == d.path;
      var l := Leaf(d.path, d.value);
      assert d.value.Scalar? ==> IsLeaf(v, [], l);
    }
    if l :| l in Leaves(v, []) && l.path < key {
      LeafAbove(v, key, l, d);
    }
    forall l | l in Leaves(v, []) && l.path == key ensures d == Exact(key, l.value) {
      LeafHere(v, key, l, d);
    }
  }

  lemma LeafAbove(v: Config, key: Path, l: Leaf, d: Declaration)
    requires Declares(v, key, d) && IsLeafAt(v, l.path, l.value) && l.path < key
    ensures d.Ancestor?
  {
    hide ValueAt;
    var n := |l.path|;
    assert key[..n] == l.path;
    NothingBelow(v, key, n);
  }

  lemma LeafHere(v: Config, key: Path, l: Leaf, d: Declaration)
    requires Declares(v, key, d) && IsLeafAt(v, key, l.value)
    ensures d == Exact(key, l.value)
  {
    hide ValueAt;
    if d.Ancestor? {
      assert key[..|d.path|] == d.path;
      NothingBelow(v, key, |d.path|);
    }
  }

  /** The answer is determined by the key. */
  lemma DeclarationIsUnique(v: Config, key: Path, d: Declaration, e: Declaration)
    requires Declares(v, key, d) && Declares(v, key, e)
    ensures d == e
  {
    hide ValueAt;
    if d.Ancestor? {
      assert key[..|d.path|] == d.path;
      NothingBelow(v, key, |d.path|);
    }
    if e.Ancestor? {
      assert key[..|e.path|] == e.path;
      NothingBelow(v, key, |e.path|);
    }
  }
}
