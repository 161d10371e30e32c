/** `sorted` on distinct values, under any strict total order. */
module Sorting {
  import opened TextFormats

  ghost predicate IsOrder<T(!new)>(less: (T, T) -> bool) {
    (forall a, b :: less(a, b) || a == b || less(b, a)) &&
    (forall a, b :: less(a, b) ==> !less(b, a) && a != b) &&
    (forall a, b, c :: less(a, b) && less(b, c) ==> less(a, c))
  }

  predicate IsLeast<T(==,!new)>(less: (T, T) -> bool, k: T, ks: set<T>) {
    k in ks && forall j :: j in ks ==> j == k || less(k, j)
  }

  lemma {:induction false} LeastExists<T(!new)>(less: (T, T) -> bool, ks: set<T>)
    requires IsOrder(less) && ks != {}
    ensures exists k :: IsLeast(less, k, ks)
  {
    var k :| k in ks;
    var rest := ks - {k};
    assert ks == rest + {k};
    if rest == {} {
      assert IsLeast(less, k, ks);
    } else {
      LeastExists(less, rest);
      var l :| IsLeast(less, l, rest);
      assert IsLeast(less, if less(k, l) then k else l, ks);
    }
  }

  /** The members of a set in order. */
  function Sorted<T(==,!new)>(less: (T, T) -> bool, ks: set<T>): (sorted: seq<T>)
    requires IsOrder(less)
    ensures forall k :: k in sorted <==> k in ks
  {
    if ks == {} then []
    else
      LeastExists(less, ks);
      var k :| IsLeast(less, k, ks);
      [k] + Sorted(less, ks - {k})
  }

  predicate Ascends<T(==,!new)>(less: (T, T) -> bool, ks: seq<T>) {
    forall i, j :: 0 <= i < j < |ks| ==> less(ks[i], ks[j])
  }

  predicate Distinct<T(==)>(ks: seq<T>) { forall i, j :: 0 <= i < j < |ks| ==> ks[i] != ks[j] }

  lemma {:induction false} SortedAscends<T(!new)>(less: (T, T) -> bool, ks: set<T>)
    requires IsOrder(less)
    ensures Ascends(less, Sorted(less, ks)) && Distinct(Sorted(less, ks))
  {
    if ks != {} {
      LeastExists(less, ks);
      var k :| IsLeast(less, k, ks);
      var rest := Sorted(less, ks - {k});
      SortedAscends(less, ks - {k});
      var s := Sorted(less, ks);
      assert s == [k] + rest;
      forall i, j | 0 <= i < j < |s| ensures less(s[i], s[j]) {
        assert rest[j - 1] in ks - {k};
      }
    }
  }

  /** Insertion sort of a listing. */
  function Insert<T(==,!new)>(less: (T, T) -> bool, k: T, ks: seq<T>): seq<T> {
    if ks == [] || less(k, ks[0]) then [k] + ks else [ks[0]] + Insert(less, k, ks[1..])
  }

  function SortListing<T(==,!new)>(less: (T, T) -> bool, listing: seq<T>): seq<T> {
    if listing == [] then [] else Insert(less, listing[0], SortListing(less, listing[1..]))
  }

  lemma {:induction false} InsertAscends<T(!new)>(less: (T, T) -> bool, k: T, ks: seq<T>)
    requires IsOrder(less) && Ascends(less, ks) && k !in ks
    ensures Ascends(less, Insert(less, k, ks))
    ensures forall j :: j in Insert(less, k, ks) <==> j == k || j in ks
  {
    if ks != [] {
      assert ks == [ks[0]] + ks[1..];
      if !less(k, ks[0]) {
        var rest := Insert(less, k, ks[1..]);
        InsertAscends(less, k, ks[1..]);
        assert Insert(less, k, ks) == [ks[0]] + rest;
        forall j | 0 <= j < |rest| ensures less(ks[0], rest[j]) {
          assert rest[j] in rest;
        }
      }
    }
  }

  lemma {:induction false} SortListingAscends<T(!new)>(less: (T, T) -> bool, listing: seq<T>)
    requires IsOrder(less) && Distinct(listing)
    ensures Ascends(less, SortListing(less, listing))
    ensures forall k :: k in SortListing(less, listing) <==> k in listing
  {
    if listing != [] {
      assert listing == [listing[0]] + listing[1..];
      SortListingAscends(less, listing[1..]);
      InsertAscends(less, listing[0], SortListing(less, listing[1..]));
    }
  }

  lemma SameHead<T(!new)>(less: (T, T) -> bool, a: seq<T>, b: seq<T>)
    requires IsOrder(less) && Ascends(less, a) && Ascends(less, b) && a != [] && b != []
    requires a[0] in b && b[0] in a
    ensures a[0] == b[0]
  {
    var i :| 0 <= i < |b| && b[i] == a[0];
    var j :| 0 <= j < |a| && a[j] == b[0];
  }

  lemma {:induction false} AscendingIsUnique<T(!new)>(less: (T, T) -> bool, a: seq<T>, b: seq<T>)
    requires IsOrder(less) && Ascends(less, a) && Ascends(less, b)
    requires forall k :: k in a <==> k in b
    ensures a == b
  {
    assert (a != [] ==> a[0] in b) && (b != [] ==> b[0] in a);
    if a != [] {
      SameHead(less, a, b);
      TailOfAscending(less, a);
      TailOfAscending(less, b);
      AscendingIsUnique(less, a[1..], b[1..]);
      assert a == [a[0]] + a[1..] && b == [b[0]] + b[1..];
    }
  }

  lemma TailOfAscending<T(!new)>(less: (T, T) -> bool, ks: seq<T>)
    requires IsOrder(less) && Ascends(less, ks) && ks != []
    ensures forall k :: k in ks[1..] <==> k in ks && k != ks[0]
  {
    forall k ensures k in ks[1..] <==> k in ks && k != ks[0] {
      if k in ks[1..] {
        var i :| 0 <= i < |ks[1..]| && ks[1..][i] == k;
        assert less(ks[0], ks[i + 1]);
      }
      assert ks == [ks[0]] + ks[1..];
    }
  }

  /** Whatever order the keys are listed in, sorting them gives the same sequence. */
  lemma AnyOrderSortsAlike<T(!new)>(less: (T, T) -> bool, listing: seq<T>, ks: set<T>)
    requires IsOrder(less) && Distinct(listing) && forall k :: k in listing <==> k in ks
    ensures SortListing(less, listing) == Sorted(less, ks)
  {
    SortListingAscends(less, listing);
    SortedAscends(less, ks);
    AscendingIsUnique(less, SortListing(less, listing), Sorted(less, ks));
  }

  // Python's order on numbers.

  predicate Below(a: nat, b: nat) { a < b }

  /** The numbers of a set in ascending order. */
  function Ascending(s: set<nat>): (ns: seq<nat>)
    ensures forall n :: n in ns <==> n in s
  {
    Sorted(Below, s)
  }

  predicate Climbs(numbers: seq<nat>) { forall i, j :: 0 <= i < j < |numbers| ==> numbers[i] < numbers[j] }

  lemma AscendingIsSorted(s: set<nat>)
    ensures Climbs(Ascending(s))
  {
    SortedAscends(Below, s);
    var ns := Ascending(s);
    forall i, j | 0 <= i < j < |ns| ensures ns[i] < ns[j] {
      assert Below(ns[i], ns[j]);
    }
  }

  lemma ClimbsBelow(numbers: seq<nat>)
    requires numbers != [] && Climbs(numbers)
    ensures Climbs(numbers[1..]) && forall n :: n in numbers[1..] ==> numbers[0] < n
  {
    assert numbers == [numbers[0]] + numbers[1..];
  }

  lemma ConsClimbs(n: nat, rest: seq<nat>, above: seq<nat>)
    requires Climbs(rest) && (forall k :: k in rest ==> k in above) && forall k :: k in above ==> n < k
    ensures Climbs([n] + rest)
  {
    var all := [n] + rest;
    forall i, j | 0 <= i < j < |all| ensures all[i] < all[j] {
      assert all[j] == rest[j - 1] && rest[j - 1] in rest;
    }
  }

  lemma AppendClimbs(numbers: seq<nat>, n: nat)
    requires Climbs(numbers) && forall k :: k in numbers ==> k < n
    ensures Climbs(numbers + [n])
  {
    var all := numbers + [n];
    forall i, j | 0 <= i < j < |all| ensures all[i] < all[j] {
      assert all[i] == numbers[i] && numbers[i] in numbers;
    }
  }

  // Python's order on strings.

  lemma {:induction false} LessTotal(a: string, b: string)
    ensures Less(a, b) || a == b || Less(b, a)
    ensures Less(a, b) ==> !Less(b, a) && a != b
  {
    if a != [] && b != [] && a[0] == b[0] {
      LessTotal(a[1..], b[1..]);
      assert a == [a[0]] + a[1..] && b == [b[0]] + b[1..];
    }
  }

  lemma {:induction false} LessTransitive(a: string, b: string, c: string)
    requires Less(a, b) && Less(b, c)
    ensures Less(a, c)
  {
    if a != [] && a[0] == b[0] == c[0] {
      LessTransitive(a[1..], b[1..], c[1..]);
    }
  }

  lemma LessIsOrder()
    ensures IsOrder(Less)
  {
    forall a, b ensures (Less(a, b) || a == b || Less(b, a)) && (Less(a, b) ==> !Less(b, a) && a != b) {
      LessTotal(a, b);
    }
    forall a, b, c | Less(a, b) && Less(b, c) ensures Less(a, c) {
      LessTransitive(a, b, c);
    }
  }

  lemma {:induction false} PrefixIsLess(a: string, b: string)
    requires a < b
    ensures Less(a, b)
  {
    if a != [] {
      assert a[0] == b[0];
      PrefixIsLess(a[1..], b[1..]);
    }
  }

  /** `sorted(names)`. */
  function SortedNames(names: set<string>): (sorted: seq<string>)
    ensures forall k :: k in sorted <==> k in names
  {
    LessIsOrder();
    Sorted(Less, names)
  }

  lemma NamesAscend(names: set<string>)
    ensures forall i, j :: 0 <= i < j < |SortedNames(names)| ==> Less(SortedNames(names)[i], SortedNames(names)[j])
    ensures Distinct(SortedNames(names))
  {
    LessIsOrder();
    SortedAscends(Less, names);
  }

  // `sorted(items, key=key)` on strings.

  function InsertBy<T>(key: T -> string, item: T, items: seq<T>): seq<T> {
    if items == [] || Less(key(item), key(items[0])) then [item] + items
    else [items[0]] + InsertBy(key, item, items[1..])
  }

  function SortBy<T>(key: T -> string, items: seq<T>): seq<T> {
    if items == [] then [] else InsertBy(key, items[|items| - 1], SortBy(key, items[..|items| - 1]))
  }

  predicate AscendsBy<T>(key: T -> string, items: seq<T>) {
    forall i, j :: 0 <= i < j < |items| ==> !Less(key(items[j]), key(items[i]))
  }

  lemma {:induction false} InsertByAscends<T>(key: T -> string, item: T, items: seq<T>)
    requires AscendsBy(key, items)
    ensures AscendsBy(key, InsertBy(key, item, items))
    ensures multiset(InsertBy(key, item, items)) == multiset(items) + multiset{item}
  {
    hide Less;
    var r := InsertBy(key, item, items);
    if items != [] {
      assert items == [items[0]] + items[1..];
      if Less(key(item), key(items[0])) {
        forall j | 0 <= j < |items| ensures !Less(key(items[j]), key(item)) {
          LessTotal(key(items[j]), key(item));
          if Less(key(items[j]), key(item)) {
            LessTransitive(key(items[j]), key(item), key(items[0]));
          }
        }
      } else {
        var rest := InsertBy(key, item, items[1..]);
        InsertByAscends(key, item, items[1..]);
        assert r == [items[0]] + rest;
        forall j | 0 <= j < |rest| ensures !Less(key(rest[j]), key(items[0])) {
          assert rest[j] in multiset(rest);
          assert rest[j] == item || rest[j] in multiset(items[1..]);
        }
      }
    }
  }

  lemma NothingAscends<T>(key: T -> string)
    ensures AscendsBy(key, [])
  {
  }

  lemma {:induction false} SortByAscends<T>(key: T -> string, items: seq<T>)
    ensures AscendsBy(key, SortBy(key, items)) && multiset(SortBy(key, items)) == multiset(items)
  {
    hide Less, InsertBy, AscendsBy;
    if items == [] {
      NothingAscends(key);
    } else {
      var front, last := items[..|items| - 1], items[|items| - 1];
      SortByAscends(key, front);
      InsertByAscends(key, last, SortBy(key, front));
      assert items == front + [last];
    }
  }

  predicate StrictlyAscendsBy<T>(key: T -> string, items: seq<T>) {
    forall i, j :: 0 <= i < j < |items| ==> Less(key(items[i]), key(items[j]))
  }

  predicate DistinctBy<T>(key: T -> string, items: seq<T>) {
    forall i, j :: 0 <= i < j < |items| ==> key(items[i]) != key(items[j])
  }

  /** Every item of the longer list is the new one or an old one. */
  lemma {:induction false} InsertedAt<T>(key: T -> string, item: T, items: seq<T>, j: nat)
    requires j < |InsertBy(key, item, items)|
    ensures var x := InsertBy(key, item, items)[j]; x == item || exists k :: 0 <= k < |items| && x == items[k]
  {
    hide Less;
    if items != [] && !Less(key(item), key(items[0])) {
      if j > 0 {
        InsertedAt(key, item, items[1..], j - 1);
        var x := InsertBy(key, item, items)[j];
        if x != item {
          var k :| 0 <= k < |items[1..]| && x == items[1..][k];
          assert items[k + 1] == x;
        }
      } else {
        assert InsertBy(key, item, items)[0] == items[0];
      }
    } else if j > 0 {
      assert InsertBy(key, item, items)[j] == items[j - 1];
    }
  }

  lemma {:induction false} InsertByStrict<T>(key: T -> string, item: T, items: seq<T>)
    requires StrictlyAscendsBy(key, items) && forall i :: 0 <= i < |items| ==> key(items[i]) != key(item)
    ensures StrictlyAscendsBy(key, InsertBy(key, item, items))
  {
    hide Less;
    if items != [] {
      LessTotal(key(item), key(items[0]));
      if Less(key(item), key(items[0])) {
        forall j | 0 < j < |items| ensures Less(key(item), key(items[j])) {
          LessTransitive(key(item), key(items[0]), key(items[j]));
        }
      } else {
        var rest := InsertBy(key, item, items[1..]);
        InsertByStrict(key, item, items[1..]);
        assert InsertBy(key, item, items) == [items[0]] + rest;
        forall j | 0 <= j < |rest| ensures Less(key(items[0]), key(rest[j])) {
          InsertedAt(key, item, items[1..], j);
        }
      }
    }
  }

  /** Sorting by distinct keys keeps the items and puts the keys in strict order. */
  lemma {:induction false} SortByStrict<T>(key: T -> string, items: seq<T>)
    requires DistinctBy(key, items)
    ensures StrictlyAscendsBy(key, SortBy(key, items))
    ensures multiset(SortBy(key, items)) == multiset(items)
  {
    hide Less;
    if items != [] {
      var front, last := items[..|items| - 1], items[|items| - 1];
      SortByStrict(key, front);
      SortByAscends(key, items);
      var sorted := SortBy(key, front);
      forall i | 0 <= i < |sorted| ensures key(sorted[i]) != key(last) {
        assert sorted[i] in multiset(sorted);
        assert sorted[i] in multiset(front);
        var k :| 0 <= k < |front| && front[k] == sorted[i];
        assert items[k] == front[k];
      }
      InsertByStrict(key, last, sorted);
      assert items == front + [last];
    }
  }
}
