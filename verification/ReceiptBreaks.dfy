/** Where a bag of receipts breaks: the first receipt, in comment order, that does not continue the ones before it, and
    what is wrong with it. */
module ReceiptBreaks {
  import opened Wrappers
  import opened Claims
  import opened ReceiptLog

  /** The number of a comment; without one, 0. */
  function Number(p: Posted): nat {
    match p.commentId
    case None => 0
    case Some(n) => n
  }

  /** The receipts in comment order: the same ones, by ascending number, and in the given order where numbers agree. */
  lemma OrderExactly(ps: seq<Posted>)
    ensures var s := SortByComment(ps);
            && multiset(s) == multiset(ps) && (forall i, j :: 0 <= i < j < |s| ==> Number(s[i]) <= Number(s[j]))
            && forall k: nat :: OfNumber(s, k) == OfNumber(ps, k)
  {
    var s := SortByComment(ps);
    SortIsStable(ps);
    forall i, j | 0 <= i < j < |s| ensures Number(s[i]) <= Number(s[j]) {
      assert s[i].Key() <= s[j].Key();
    }
    forall k: nat ensures OfNumber(s, k) == OfNumber(ps, k) {
      OfNumberIs(s, k);
      OfNumberIs(ps, k);
    }
  }

  function OfNumber(ps: seq<Posted>, k: nat): seq<Posted> {
    if ps == [] then [] else OfNumber(ps[..|ps| - 1], k) + if Number(ps[|ps| - 1]) == k then [ps[|ps| - 1]] else []
  }

  lemma {:induction false} OfNumberIs(ps: seq<Posted>, k: nat)
    ensures OfNumber(ps, k) == WithKey(ps, k)
  {
    if ps != [] {
      OfNumberIs(ps[..|ps| - 1], k);
    }
  }

  predicate IsOfOther(rs: seq<Receipt>, k: nat, issue: IssueRef)
    requires k < |rs|
  {
    rs[k].body.issue.repository != issue.repository || rs[k].body.issue.number != issue.number
  }

  predicate IsRepeated(rs: seq<Receipt>, k: nat)
    requires k < |rs|
  {
    exists j :: 0 <= j < k && rs[j].id == rs[k].id
  }

  /** The receipt does not name the one before it, or names one although it is the first. */
  predicate IsUnlinked(rs: seq<Receipt>, k: nat)
    requires k < |rs|
  {
    if k == 0 then rs[k].body.previousId != None || rs[k].body.previousHash != None
    else rs[k].body.previousId != Some(rs[k - 1].id) || rs[k].body.previousHash != Some(rs[k - 1].hash)
  }

  predicate IsEarlier(rs: seq<Receipt>, k: nat)
    requires k < |rs|
  {
    k > 0 && rs[k].body.at < rs[k - 1].body.at
  }

  predicate Continues(rs: seq<Receipt>, k: nat, issue: IssueRef)
    requires k < |rs|
  {
    !IsOfOther(rs, k, issue) && !IsRepeated(rs, k) && !IsUnlinked(rs, k) && !IsEarlier(rs, k)
  }

  /** What is wrong with the receipt, the first that applies. */
  predicate BreaksFor(rs: seq<Receipt>, k: nat, issue: IssueRef, fault: Break)
    requires k < |rs|
  {
    var other, repeated, unlinked := IsOfOther(rs, k, issue), IsRepeated(rs, k), IsUnlinked(rs, k);
    && (other ==> fault == WrongIssue)
    && (!other && repeated ==> fault == DuplicateReceipt)
    && (!other && !repeated && unlinked ==> fault == BrokenChain)
    && (!other && !repeated && !unlinked ==> fault == TimeRegressed)
  }

  lemma FaultExactly(rs: seq<Receipt>, k: nat, issue: IssueRef)
    requires k < |rs|
    ensures var fault := LinkFault(issue, Last(rs[..k]), Ids(rs[..k]), rs[k]);
            && (fault == None <==> Continues(rs, k, issue))
            && (fault != None ==> BreaksFor(rs, k, issue, fault.value))
  {
    var done := rs[..k];
    assert rs[k].id in Ids(done) <==> IsRepeated(rs, k) by {
      if j :| 0 <= j < k && rs[j].id == rs[k].id {
        assert done[j].id == rs[k].id;
      }
    }
  }

  lemma {:induction false} ReduceFromExactlyAt(rs: seq<Receipt>, k: nat, issue: IssueRef)
    requires k <= |rs|
    ensures var r := ReduceFrom(issue, Last(rs[..k]), Ids(rs[..k]), rs[k..]);
            match r
            case Ok(head) =>
              && (forall j :: k <= j < |rs| ==> Continues(rs, j, issue))
              && head == if rs == [] then None else Some(rs[|rs| - 1])
            case Err(fault) =>
              exists j :: k <= j < |rs| && !Continues(rs, j, issue) && BreaksFor(rs, j, issue, fault) &&
                forall i :: k <= i < j ==> Continues(rs, i, issue)
    decreases |rs| - k
  {
    hide LinkFault, Continues, BreaksFor, Ids;
    if k < |rs| {
      FaultExactly(rs, k, issue);
      ReduceFromExactlyAt(rs, k + 1, issue);
      assert rs[k..][0] == rs[k] && rs[k..][1..] == rs[k + 1..];
      assert rs[..k + 1] == rs[..k] + [rs[k]];
      IdsGrow(rs[..k], rs[k]);
    } else {
      assert rs[..k] == rs;
    }
  }

  lemma IdsGrow(rs: seq<Receipt>, r: Receipt)
    ensures Ids(rs + [r]) == Ids(rs) + {r.id}
  {
    var all := rs + [r];
    assert all[|rs|] == r && forall i :: 0 <= i < |rs| ==> all[i] == rs[i];
  }

  /** A bag reduces to its last receipt if every receipt continues the ones before it, and otherwise breaks at the
      first that does not, for what is wrong with it. */
  lemma BreaksExactly(ps: seq<Posted>, issue: IssueRef)
    ensures var rs := Receipts(SortByComment(ps));
            match Reduce(ps, issue)
            case Ok(head) =>
              && (forall k :: 0 <= k < |rs| ==> Continues(rs, k, issue))
              && head == if rs == [] then None else Some(rs[|rs| - 1])
            case Err(fault) =>
              exists k :: 0 <= k < |rs| && !Continues(rs, k, issue) && BreaksFor(rs, k, issue, fault) &&
                forall i :: 0 <= i < k ==> Continues(rs, i, issue)
  {
    hide Continues, BreaksFor, ReduceFrom, SortByComment;
    var rs := Receipts(SortByComment(ps));
    ReduceFromExactlyAt(rs, 0, issue);
    assert rs[..0] == [] && rs[0..] == rs && Ids(rs[..0]) == {} && Last(rs[..0]) == None;
    assert Reduce(ps, issue) == ReduceFrom(issue, Last(rs[..0]), Ids(rs[..0]), rs[0..]);
  }
}
