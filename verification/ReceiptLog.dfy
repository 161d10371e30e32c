/** An issue's receipt log: the bag of published receipts is ordered by comment and must form
    one hash-linked chain. */
module ReceiptLog {
  import opened Wrappers
  import opened Claims

  /** A receipt as found in a comment. */
  datatype Posted = Posted(commentId: Option<nat>, receipt: Receipt) {
    function Key(): nat { if commentId.Some? then commentId.value else 0 }
  }

  datatype Break = WrongIssue | DuplicateReceipt | BrokenChain | TimeRegressed

  function Receipts(ps: seq<Posted>): (rs: seq<Receipt>)
    ensures |rs| == |ps|
    ensures forall i :: 0 <= i < |ps| ==> rs[i] == ps[i].receipt
  {
    if ps == [] then [] else [ps[0].receipt] + Receipts(ps[1..])
  }

  function Last(rs: seq<Receipt>): Option<Receipt> {
    if rs == [] then None else Some(rs[|rs| - 1])
  }

  // Ordering by comment.

  predicate Ordered(ps: seq<Posted>) {
    forall i, j :: 0 <= i < j < |ps| ==> ps[i].Key() <= ps[j].Key()
  }

  function Insert(ps: seq<Posted>, p: Posted): seq<Posted> {
    if ps == [] || ps[|ps| - 1].Key() <= p.Key() then ps + [p]
    else Insert(ps[..|ps| - 1], p) + [ps[|ps| - 1]]
  }

  /** The stable sort by comment number. */
  function SortByComment(ps: seq<Posted>): seq<Posted> {
    if ps == [] then [] else Insert(SortByComment(ps[..|ps| - 1]), ps[|ps| - 1])
  }

  /** The entries of one comment number, in the order given. */
  function WithKey(ps: seq<Posted>, k: nat): seq<Posted> {
    if ps == [] then []
    else WithKey(ps[..|ps| - 1], k) + if ps[|ps| - 1].Key() == k then [ps[|ps| - 1]] else []
  }

  lemma {:induction false} InsertIsPermutation(ps: seq<Posted>, p: Posted)
    ensures multiset(Insert(ps, p)) == multiset(ps) + multiset{p}
  {
    if ps != [] && ps[|ps| - 1].Key() > p.Key() {
      InsertIsPermutation(ps[..|ps| - 1], p);
      assert ps == ps[..|ps| - 1] + [ps[|ps| - 1]];
    }
  }

  lemma {:induction false} InsertBound(ps: seq<Posted>, p: Posted, bound: nat)
    requires forall q :: q in ps ==> q.Key() <= bound
    requires p.Key() <= bound
    ensures forall q :: q in Insert(ps, p) ==> q.Key() <= bound
  {
    if ps != [] && ps[|ps| - 1].Key() > p.Key() {
      InsertBound(ps[..|ps| - 1], p, bound);
    }
  }

  lemma {:induction false} InsertKeepsOrder(ps: seq<Posted>, p: Posted)
    requires Ordered(ps)
    ensures Ordered(Insert(ps, p))
  {
    if ps != [] && ps[|ps| - 1].Key() > p.Key() {
      var front, last := ps[..|ps| - 1], ps[|ps| - 1];
      InsertKeepsOrder(front, p);
      InsertBound(front, p, last.Key());
      var inner := Insert(front, p);
      forall i, j | 0 <= i < j < |inner| + 1
        ensures (inner + [last])[i].Key() <= (inner + [last])[j].Key()
      {
        assert inner[i] in inner;
      }
    }
  }

  lemma {:induction false} InsertWithKey(ps: seq<Posted>, p: Posted, k: nat)
    requires Ordered(ps)
    ensures WithKey(Insert(ps, p), k) == WithKey(ps, k) + if p.Key() == k then [p] else []
  {
    var r := Insert(ps, p);
    if ps == [] || ps[|ps| - 1].Key() <= p.Key() {
      assert r[..|r| - 1] == ps;
    } else {
      var front, last := ps[..|ps| - 1], ps[|ps| - 1];
      InsertWithKey(front, p, k);
      assert r[..|r| - 1] == Insert(front, p);
    }
  }

  /** Sorting is a rearrangement, in comment order, that leaves equal comments as they were. */
  lemma {:induction false} SortIsStable(ps: seq<Posted>)
    ensures Ordered(SortByComment(ps))
    ensures multiset(SortByComment(ps)) == multiset(ps)
    ensures forall k: nat :: WithKey(SortByComment(ps), k) == WithKey(ps, k)
  {
    if ps != [] {
      var front, last := ps[..|ps| - 1], ps[|ps| - 1];
      assert ps == front + [last];
      SortIsStable(front);
      InsertKeepsOrder(SortByComment(front), last);
      InsertIsPermutation(SortByComment(front), last);
      forall k: nat
        ensures WithKey(SortByComment(ps), k) == WithKey(ps, k)
      {
        InsertWithKey(SortByComment(front), last, k);
      }
    }
  }

  /** The receipts in the comments are the receipts in comment order. */
  lemma SameReceipts(ps: seq<Posted>, r: Receipt)
    ensures r in Receipts(SortByComment(ps)) <==> exists p :: p in ps && p.receipt == r
  {
    var sorted := SortByComment(ps);
    SortIsStable(ps);
    if r in Receipts(sorted) {
      var i :| 0 <= i < |sorted| && Receipts(sorted)[i] == r;
      assert sorted[i] in multiset(ps);
    }
    if exists p :: p in ps && p.receipt == r {
      var p :| p in ps && p.receipt == r;
      assert p in multiset(sorted);
      var i :| 0 <= i < |sorted| && sorted[i] == p;
      assert Receipts(sorted)[i] == r;
    }
  }

  lemma {:induction false} SortOfOrdered(ps: seq<Posted>)
    requires Ordered(ps)
    ensures SortByComment(ps) == ps
  {
    if ps != [] {
      SortOfOrdered(ps[..|ps| - 1]);
      assert ps[..|ps| - 1] + [ps[|ps| - 1]] == ps;
    }
  }

  // Reduction.

  /** What is wrong with `r` as the receipt after `previous`. */
  function LinkFault(issue: IssueRef, previous: Option<Receipt>, seen: set<string>, r: Receipt): Option<Break> {
    if r.body.issue != issue then Some(WrongIssue)
    else if r.id in seen then Some(DuplicateReceipt)
    else if r.body.previousId != IdOf(previous) || r.body.previousHash != HashOf(previous) then Some(BrokenChain)
    else if previous.Some? && r.body.at < previous.value.body.at then Some(TimeRegressed)
    else None
  }

  function ReduceFrom(issue: IssueRef, previous: Option<Receipt>, seen: set<string>, rest: seq<Receipt>)
    : Result<Option<Receipt>, Break>
    decreases |rest|
  {
    if rest == [] then Ok(previous)
    else
      var fault := LinkFault(issue, previous, seen, rest[0]);
      if fault.Some? then Err(fault.value)
      else ReduceFrom(issue, Some(rest[0]), seen + {rest[0].id}, rest[1..])
  }

  function Reduce(receipts: seq<Posted>, issue: IssueRef): Result<Option<Receipt>, Break> {
    ReduceFrom(issue, None, {}, Receipts(SortByComment(receipts)))
  }

  method ReduceReceipts(receipts: seq<Posted>, issue: IssueRef) returns (result: Result<Option<Receipt>, Break>)
    ensures result == Reduce(receipts, issue)
  {
    var ordered := Receipts(SortByComment(receipts));
    var previous: Option<Receipt> := None;
    var seen: set<string> := {};
    for i := 0 to |ordered|
      invariant ReduceFrom(issue, previous, seen, ordered[i..]) == Reduce(receipts, issue)
    {
      var receipt := ordered[i];
      assert ordered[i..][0] == receipt && ordered[i..][1..] == ordered[i + 1..];
      if receipt.body.issue != issue {
        return Err(WrongIssue);
      }
      if receipt.id in seen {
        return Err(DuplicateReceipt);
      }
      seen := seen + {receipt.id};
      if receipt.body.previousId != IdOf(previous) || receipt.body.previousHash != HashOf(previous) {
        return Err(BrokenChain);
      }
      if previous.Some? && receipt.body.at < previous.value.body.at {
        return Err(TimeRegressed);
      }
      previous := Some(receipt);
    }
    result := Ok(previous);
  }

  /** `r` may follow `previous` in the log of `issue`. */
  predicate Linked(issue: IssueRef, previous: Option<Receipt>, r: Receipt) {
    && r.body.issue == issue
    && r.body.previousId == IdOf(previous) && r.body.previousHash == HashOf(previous)
    && (previous.Some? ==> previous.value.body.at <= r.body.at)
  }

  /** One issue, every receipt naming the one before it, no time going back. */
  predicate Chain(issue: IssueRef, rs: seq<Receipt>) {
    rs == [] || (Chain(issue, rs[..|rs| - 1]) && Linked(issue, Last(rs[..|rs| - 1]), rs[|rs| - 1]))
  }

  function Before(rs: seq<Receipt>, i: nat): Option<Receipt>
    requires i <= |rs|
  {
    if i == 0 then None else Some(rs[i - 1])
  }

  predicate DistinctIds(rs: seq<Receipt>) {
    forall i, j :: 0 <= i < j < |rs| ==> rs[i].id != rs[j].id
  }

  predicate AllAddressed(rules: Rules, rs: seq<Receipt>) {
    forall i :: 0 <= i < |rs| ==> Addressed(rules, rs[i])
  }

  function Ids(rs: seq<Receipt>): set<string> {
    set r | r in rs :: r.id
  }

  lemma {:induction false} ChainAt(issue: IssueRef, rs: seq<Receipt>, i: nat)
    requires Chain(issue, rs) && i < |rs|
    ensures Linked(issue, Before(rs, i), rs[i])
  {
    if i < |rs| - 1 {
      ChainAt(issue, rs[..|rs| - 1], i);
    }
  }

  lemma {:induction false} ChainPrefix(issue: IssueRef, rs: seq<Receipt>, n: nat)
    requires Chain(issue, rs) && n <= |rs|
    ensures Chain(issue, rs[..n])
  {
    if n < |rs| {
      ChainPrefix(issue, rs[..|rs| - 1], n);
      assert rs[..|rs| - 1][..n] == rs[..n];
    } else {
      assert rs[..n] == rs;
    }
  }

  lemma LinkExactly(issue: IssueRef, done: seq<Receipt>, r: Receipt)
    requires Chain(issue, done) && DistinctIds(done)
    ensures LinkFault(issue, Last(done), Ids(done), r).None? <==>
              Chain(issue, done + [r]) && DistinctIds(done + [r])
  {
    var more := done + [r];
    assert more[..|done|] == done && more[|done|] == r;
    if r.id in Ids(done) {
      var j :| 0 <= j < |done| && done[j].id == r.id;
      assert more[j].id == more[|done|].id;
    }
  }

  lemma {:induction false} ReduceFromExactly(issue: IssueRef, done: seq<Receipt>, rest: seq<Receipt>)
    requires Chain(issue, done) && DistinctIds(done)
    ensures ReduceFrom(issue, Last(done), Ids(done), rest).Ok? <==>
              Chain(issue, done + rest) && DistinctIds(done + rest)
    ensures ReduceFrom(issue, Last(done), Ids(done), rest).Ok? ==>
              ReduceFrom(issue, Last(done), Ids(done), rest).value == Last(done + rest)
    decreases |rest|
  {
    hide Chain, DistinctIds, LinkFault;
    if rest == [] {
      assert done + rest == done;
    } else {
      var r, more := rest[0], done + [rest[0]];
      LinkExactly(issue, done, r);
      assert more + rest[1..] == done + rest;
      if LinkFault(issue, Last(done), Ids(done), r).None? {
        assert Ids(more) == Ids(done) + {r.id};
        ReduceFromExactly(issue, more, rest[1..]);
      } else if Chain(issue, done + rest) && DistinctIds(done + rest) {
        assert (done + rest)[..|more|] == more;
        ChainPrefix(issue, done + rest, |more|);
        DistinctPrefix(done + rest, |more|);
        assert false;
      }
    }
  }

  lemma DistinctPrefix(rs: seq<Receipt>, n: nat)
    requires DistinctIds(rs) && n <= |rs|
    ensures DistinctIds(rs[..n])
  {
  }

  /** What `reduce_receipts` accepts, and what it returns. */
  lemma ReduceExactly(receipts: seq<Posted>, issue: IssueRef)
    ensures var rs := Receipts(SortByComment(receipts));
            && (Reduce(receipts, issue).Ok? <==> Chain(issue, rs) && DistinctIds(rs))
            && (Reduce(receipts, issue).Ok? ==> Reduce(receipts, issue).value == Last(rs))
  {
    var rs := Receipts(SortByComment(receipts));
    ReduceFromExactly(issue, [], rs);
    assert [] + rs == rs;
    assert Ids([]) == {};
  }

  /** With a collision-free digest, an identifier determines the receipt. */
  lemma IdDetermines(rules: Rules, a: Receipt, b: Receipt)
    requires rules.CollisionFree() && Addressed(rules, a) && Addressed(rules, b) && a.id == b.id
    ensures a == b
  {
    assert a.id[|rules.prefix|..] == a.hash && b.id[|rules.prefix|..] == b.hash;
  }

  /** The links alone make the identifiers pairwise distinct: the duplicate check is implied. */
  lemma {:induction false} ChainIdsDistinct(rules: Rules, issue: IssueRef, rs: seq<Receipt>, i: nat, j: nat)
    requires rules.CollisionFree() && AllAddressed(rules, rs) && Chain(issue, rs)
    requires i < j < |rs|
    ensures rs[i].id != rs[j].id
  {
    if rs[i].id == rs[j].id {
      IdDetermines(rules, rs[i], rs[j]);
      ChainAt(issue, rs, i);
      ChainAt(issue, rs, j);
      if i > 0 {
        ChainIdsDistinct(rules, issue, rs, i - 1, j - 1);
      }
      assert false;
    }
  }

  lemma ChainIsDistinct(rules: Rules, issue: IssueRef, rs: seq<Receipt>)
    requires rules.CollisionFree() && AllAddressed(rules, rs) && Chain(issue, rs)
    ensures DistinctIds(rs)
  {
    forall i, j | 0 <= i < j < |rs|
      ensures rs[i].id != rs[j].id
    {
      ChainIdsDistinct(rules, issue, rs, i, j);
    }
  }

  lemma {:induction false} DrawnChainAgrees(rules: Rules, issue: IssueRef, log: seq<Receipt>, picked: seq<Receipt>,
      i: nat)
    requires rules.CollisionFree() && AllAddressed(rules, log) && Chain(issue, log) && Chain(issue, picked)
    requires forall r :: r in picked ==> r in log
    requires i < |picked|
    ensures i < |log| && picked[i] == log[i]
  {
    hide Chain, AllAddressed, Rules.CollisionFree;
    assert picked[i] in log;
    var j :| 0 <= j < |log| && log[j] == picked[i];
    ChainAt(issue, picked, i);
    ChainAt(issue, log, j);
    if i > 0 {
      DrawnChainAgrees(rules, issue, log, picked, i - 1);
      ChainIsDistinct(rules, issue, log);
    }
  }

  /** Any collection drawn from a valid log, in any order and with any repetitions, is accepted
      exactly when its comments spell out a prefix of that log. */
  lemma {:induction false} OnlyPrefixesReduce(rules: Rules, issue: IssueRef, log: seq<Receipt>, picked: seq<Posted>)
    requires rules.CollisionFree() && AllAddressed(rules, log) && Chain(issue, log)
    requires forall p :: p in picked ==> p.receipt in log
    ensures Reduce(picked, issue).Ok? <==> Receipts(SortByComment(picked)) <= log
  {
    hide Chain, Reduce, SortByComment, Receipts, Rules.CollisionFree;
    var rs := Receipts(SortByComment(picked));
    ReduceExactly(picked, issue);
    forall r | r in rs
      ensures r in log
    {
      SameReceipts(picked, r);
    }
    if Chain(issue, rs) {
      forall i | 0 <= i < |rs|
        ensures i < |log| && rs[i] == log[i]
      {
        DrawnChainAgrees(rules, issue, log, rs, i);
      }
      if rs != [] {
        DrawnChainAgrees(rules, issue, log, rs, |rs| - 1);
      }
      assert rs == log[..|rs|];
    }
    if rs <= log {
      assert log[..|rs|] == rs;
      ChainPrefix(issue, log, |rs|);
      ChainIsDistinct(rules, issue, rs);
    }
  }

  /** An accepted log holds no two receipts that name the same predecessor. */
  lemma NoForks(rules: Rules, issue: IssueRef, rs: seq<Receipt>, i: nat, j: nat)
    requires rules.CollisionFree() && AllAddressed(rules, rs) && Chain(issue, rs)
    requires i < j < |rs|
    ensures rs[i].body.previousId != rs[j].body.previousId
  {
    ChainAt(issue, rs, i);
    ChainAt(issue, rs, j);
    if i > 0 {
      ChainIdsDistinct(rules, issue, rs, i - 1, j - 1);
    }
  }

  lemma SiblingsBreak(rules: Rules, issue: IssueRef, rs: seq<Receipt>, a: Receipt, b: Receipt)
    requires rules.CollisionFree() && AllAddressed(rules, rs)
    requires a in rs && b in rs && a != b && a.body.previousId == b.body.previousId
    ensures !Chain(issue, rs)
  {
    if Chain(issue, rs) {
      var i :| 0 <= i < |rs| && rs[i] == a;
      var j :| 0 <= j < |rs| && rs[j] == b;
      NoForks(rules, issue, rs, if i < j then i else j, if i < j then j else i);
      assert false;
    }
  }

  lemma SamePredecessor(issue: IssueRef, left: seq<Receipt>, right: seq<Receipt>, k: nat)
    requires Chain(issue, left) && Chain(issue, right)
    requires k < |left| && k < |right| && left[..k] == right[..k]
    ensures left[k].body.previousId == right[k].body.previousId
  {
    ChainAt(issue, left, k);
    ChainAt(issue, right, k);
    if k > 0 {
      assert left[k - 1] == left[..k][k - 1] == right[..k][k - 1] == right[k - 1];
    }
  }

  /** Two branches of one history cannot both be in an accepted collection. */
  lemma {:induction false} MergedBranchesFail(
    rules: Rules, issue: IssueRef, left: seq<Receipt>, right: seq<Receipt>, k: nat, picked: seq<Posted>)
    requires rules.CollisionFree() && Chain(issue, left) && Chain(issue, right)
    requires k < |left| && k < |right| && left[..k] == right[..k] && left[k] != right[k]
    requires forall p :: p in picked ==> Addressed(rules, p.receipt)
    requires exists p :: p in picked && p.receipt == left[k]
    requires exists p :: p in picked && p.receipt == right[k]
    ensures Reduce(picked, issue).Err?
  {
    hide Chain, SortByComment;
    var rs := Receipts(SortByComment(picked));
    ReduceExactly(picked, issue);
    SamePredecessor(issue, left, right, k);
    SameReceipts(picked, left[k]);
    SameReceipts(picked, right[k]);
    forall r | r in rs
      ensures Addressed(rules, r)
    {
      SameReceipts(picked, r);
    }
    SiblingsBreak(rules, issue, rs, left[k], right[k]);
  }
}
