/** The audit of live claims that overlap on a resource. */
module OverlapAudit {
  import opened Wrappers
  import opened Claims
  import opened Coordination
  import opened CoordinationInvariants
  import opened CoordinationRuns
  import opened Decisions
  import opened Sorting

  /** A finding names two live receipts, by their positions among the live ones. */
  datatype Finding = Finding(left: nat, right: nat)

  function LiveReceipts(receipts: seq<Receipt>, now: Time): seq<Receipt> {
    if receipts == [] then []
    else
      var front := LiveReceipts(receipts[..|receipts| - 1], now);
      var r := receipts[|receipts| - 1];
      if r.IsLive(now) then front + [r] else front
  }

  predicate Overlap(a: Receipt, b: Receipt) {
    a.body.scope.claimId != b.body.scope.claimId && !a.body.scope.Disjoint(b.body.scope)
  }

  /** The pairs whose left position is below `i`, and those at `i` whose right position is below `j`. */
  predicate Reported(live: seq<Receipt>, i: nat, j: nat, f: Finding) {
    && f.left < f.right < |live| && Overlap(live[f.left], live[f.right])
    && (f.left < i || (f.left == i && f.right < j))
  }

  /** By the left receipt and then by the right one, without repetition. */
  predicate InOrder(findings: seq<Finding>) {
    forall a, b :: 0 <= a < b < |findings| ==> Precedes(findings[a], findings[b])
  }

  predicate Precedes(f: Finding, g: Finding) { f.left < g.left || (f.left == g.left && f.right < g.right) }

  lemma AppendInOrder(findings: seq<Finding>, g: Finding)
    requires InOrder(findings) && forall f :: f in findings ==> Precedes(f, g)
    ensures InOrder(findings + [g])
  {
    var all := findings + [g];
    forall a, b | 0 <= a < b < |all| ensures Precedes(all[a], all[b]) {
      assert all[a] == findings[a] && findings[a] in findings;
    }
  }

  /** Exactly the overlapping pairs of live receipts with different claims, each once and in order. */
  method AuditResourceOverlaps(receipts: seq<Receipt>, now: Time) returns (findings: seq<Finding>)
    ensures var live := LiveReceipts(receipts, now);
            forall f :: f in findings <==> f.left < f.right < |live| && Overlap(live[f.left], live[f.right])
    ensures InOrder(findings)
  {
    var live: seq<Receipt> := [];
    assert receipts[..0] == [];
    for k := 0 to |receipts|
      invariant live == LiveReceipts(receipts[..k], now)
    {
      assert receipts[..k + 1][..k] == receipts[..k];
      if receipts[k].IsLive(now) {
        live := live + [receipts[k]];
      }
    }
    assert receipts[..|receipts|] == receipts;
    findings := [];
    for i := 0 to |live|
      invariant forall f :: f in findings <==> Reported(live, i, 0, f)
      invariant InOrder(findings)
    {
      for j := i + 1 to |live|
        invariant forall f :: f in findings <==> Reported(live, i, j, f)
        invariant InOrder(findings)
      {
        if Overlap(live[i], live[j]) {
          AppendInOrder(findings, Finding(i, j));
          findings := findings + [Finding(i, j)];
        }
      }
    }
  }

  /** Where the live receipts stand. */
  ghost predicate AreLivePlaces(receipts: seq<Receipt>, now: Time, places: seq<nat>) {
    && Climbs(places) && forall i :: i in places <==> 0 <= i < |receipts| && Holds(Some(receipts[i]), now)
  }

  lemma LivePlacesGrow(receipts: seq<Receipt>, now: Time, before: seq<nat>, places: seq<nat>)
    requires receipts != [] && AreLivePlaces(receipts[..|receipts| - 1], now, before)
    requires places == before + if Holds(Some(receipts[|receipts| - 1]), now) then [|receipts| - 1] else []
    ensures AreLivePlaces(receipts, now, places)
  {
    hide Holds;
    var last := |receipts| - 1;
    assert forall i :: 0 <= i < last ==> receipts[..last][i] == receipts[i];
    AppendClimbs(before, last);
    assert before + [] == before;
  }

  /** The receipts that are compared are the live ones, in the order given. */
  lemma {:induction false} LiveExactly(receipts: seq<Receipt>, now: Time) returns (places: seq<nat>)
    ensures AreLivePlaces(receipts, now, places) && |places| == |LiveReceipts(receipts, now)|
    ensures forall k :: 0 <= k < |places| ==>
                          places[k] < |receipts| && receipts[places[k]] == LiveReceipts(receipts, now)[k]
  {
    hide AreLivePlaces;
    if receipts == [] {
      places := [];
      assert AreLivePlaces([], now, []) by { NothingIsLive(now); }
    } else {
      var last := |receipts| - 1;
      var before := LiveExactly(receipts[..last], now);
      places := before + if Holds(Some(receipts[last]), now) then [last] else [];
      LivePlacesGrow(receipts, now, before, places);
    }
  }

  lemma NothingIsLive(now: Time)
    ensures AreLivePlaces([], now, [])
  {
  }

  lemma OverlapExactly(a: Receipt, b: Receipt)
    ensures Overlap(a, b) <==>
            && a.body.scope.claimId != b.body.scope.claimId
            && exists r :: r in a.body.scope.resources && r in b.body.scope.resources
  {
  }

  /** `heads` are the heads of different issues of `w`. */
  predicate HeadsOf(cfg: Config, w: World, numbers: seq<nat>, heads: seq<Receipt>) {
    && |numbers| == |heads|
    && (forall i, j :: 0 <= i < j < |numbers| ==> numbers[i] != numbers[j])
    && forall i :: 0 <= i < |numbers| ==>
                     numbers[i] in w.issues && Head(cfg, w.issues[numbers[i]]) == Some(heads[i])
  }

  /** On the heads of a reachable state every overlap is between claims of one owner. */
  lemma ReachableOverlapsShareOwner(
    cfg: Config, w: World, es: seq<Event>, numbers: seq<nat>, heads: seq<Receipt>, i: nat, j: nat)
    requires Untouched(cfg, w) && PermittedRun(cfg, w, es)
    requires HeadsOf(cfg, After(cfg, w, es), numbers, heads)
    requires i < j < |heads| && heads[i].IsLive(After(cfg, w, es).clock) && heads[j].IsLive(After(cfg, w, es).clock)
    requires Overlap(heads[i], heads[j])
    ensures heads[i].body.scope.SameOwner(heads[j].body.scope)
  {
    hide Untouched, PermittedRun, After, Log;
    ResourceExclusion(cfg, w, es, numbers[i], numbers[j]);
  }
}
