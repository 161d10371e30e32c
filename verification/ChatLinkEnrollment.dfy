/** A whole enrollment: a plan made on two ledgers, signed by the remote author, and installed on both. */
module ChatLinkEnrollment {
  import opened ChatLink
  import opened ChatLinkInstall
  import opened ChatLinkSigning
  import opened Wrappers

  /** The identifiers of the drafts are new: they differ from each other and from those of the ledger. */
  predicate AreNew(ids: nat -> string, n: nat, ledger: seq<Event>) {
    (forall i, j :: 0 <= i < j < n ==> ids(i) != ids(j)) &&
    forall i, k :: 0 <= i < n && 0 <= k < |ledger| ==> ledger[k].core.id != ids(i)
  }

  lemma {:induction false} OwnIsIn(events: seq<Event>, actor: nat, e: Event) returns (i: int)
    requires e in Own(events, actor)
    ensures 0 <= i < |events| && events[i] == e && e.core.owner == actor
    decreases events
  {
    if events[0] == e && e.core.owner == actor {
      i := 0;
    } else {
      i := OwnIsIn(events[1..], actor, e);
      i := i + 1;
    }
  }

  lemma {:induction false} SignedAt(events: seq<Event>, actor: nat, i: nat)
    requires i < |events|
    ensures SignAll(events, actor)[i] == SignedBy(events[i], actor)
    decreases events
  {
    if i > 0 {
      SignedAt(events[1..], actor, i - 1);
    }
  }

  /** The signed plan: every event has its planned identifier and verifies. */
  lemma SignedPlan(events: seq<Event>, ids: nat -> string, hash: Hash, i: nat)
    requires AreStamped(events, ids, hash) && i < |events|
    ensures var e := SignAll(events, 1)[i]; e.core.id == ids(i) && Verifies(e, hash)
  {
    SignedAt(events, 1, i);
  }

  lemma OwnIdentify(events: seq<Event>, ids: nat -> string, hash: Hash, ledger: seq<Event>, actor: nat)
    requires AreStamped(events, ids, hash) && AreNew(ids, |events|, ledger) && IdsIdentify(Elements(ledger))
    ensures IdsIdentify(Elements(ledger) + Elements(Own(SignAll(events, 1), actor)))
    ensures forall i :: 0 <= i < |Own(SignAll(events, 1), actor)| ==> Verifies(Own(SignAll(events, 1), actor)[i], hash)
  {
    hide AreStamped, Verifies;
    var signed := SignAll(events, 1);
    var own := Own(signed, actor);
    forall e, f | e in Elements(ledger) + Elements(own) && f in Elements(ledger) + Elements(own) &&
        e.core.id == f.core.id
      ensures e == f
    {
      if e in own {
        var i := OwnIsIn(signed, actor, e);
        SignedPlan(events, ids, hash, i);
        if f in own {
          var j := OwnIsIn(signed, actor, f);
          SignedPlan(events, ids, hash, j);
        }
      } else if f in own {
        var j := OwnIsIn(signed, actor, f);
        SignedPlan(events, ids, hash, j);
      }
    }
    forall i | 0 <= i < |own| ensures Verifies(own[i], hash) {
      var j := OwnIsIn(signed, actor, own[i]);
      SignedPlan(events, ids, hash, j);
    }
  }

  /** The ledger heads that the two authors plan on. */
  function Bases(incarnations: seq<string>, ledgers: seq<seq<Event>>): seq<Option<Head>>
    requires |incarnations| == |ledgers| == 2
  {
    [LedgerHead(incarnations[0], ledgers[0]), LedgerHead(incarnations[1], ledgers[1])]
  }

  /** A plan made on two ledgers can be signed by the remote author if its payloads are valid, and the signed plan
      installs on either ledger, however much of the author's own part was taken in before. */
  lemma PlanInstalls(
    incarnations: seq<string>, ledgers: seq<seq<Event>>, cards: seq<Option<string>>, ids: nat -> string, hash: Hash,
    events: seq<Event>, valid: Event -> bool, actor: nat, k: nat)
    requires |incarnations| == |ledgers| == 2 && actor < 2
    requires IsLedger(ledgers[0]) && IsLedger(ledgers[1])
    requires IsPlan(events, Bases(incarnations, ledgers), cards, ids, hash)
    requires IdsIdentify(Elements(ledgers[actor])) && AreNew(ids, |events|, ledgers[actor])
    ensures var head := Bases(incarnations, ledgers)[1];
            var r := Sign(events, 1, head, head, true, true, valid, hash);
            (r.Ok? <==> AllValid(events, valid)) && (r.Ok? ==> r == Ok(SignAll(events, 1)))
    ensures var ledger, own := ledgers[actor], Own(SignAll(events, 1), actor);
            k <= |own| ==>
              && IsAllowed(incarnations[actor], LedgerHead(incarnations[actor], ledger), own,
                           LedgerHead(incarnations[actor], ledger + own[..k]))
              && Ingest(ledger + own[..k], own, e => Verifies(e, hash)) == Ok(ledger + own)
  {
    hide Sign, Chains, AreStamped, AreNew, IdsIdentify, Script, Own, Verifies, AllValid;
    var heads := Bases(incarnations, ledgers);
    PlansCanBeSigned(events, heads, cards, ids, hash, 1, valid);
    var ledger, own := ledgers[actor], Own(SignAll(events, 1), actor);
    SigningKeepsChains(events, 1, actor, SequenceOf(heads[actor]), TipOf(heads[actor]));
    OwnIdentify(events, ids, hash, ledger, actor);
    if k <= |own| {
      RetryCompletes(incarnations[actor], ledger, own, k, e => Verifies(e, hash));
    }
  }

  /** The enrollment as it runs: planned on the local side, signed on the remote side, installed on both. It is
      refused exactly for an invalid payload, and then neither ledger changes. */
  method Enroll(
    local: Ledger, remote: Ledger, incarnations: seq<string>, cards: seq<Option<string>>, ids: nat -> string,
    hash: Hash, payloads: (nat, Kind) -> string, valid: Event -> bool)
    returns (refused: bool, plan: seq<Event>)
    requires local != remote && |incarnations| == |cards| == 2
    requires IsLedger(local.log) && IsLedger(remote.log)
    requires IdsIdentify(Elements(local.log)) && IdsIdentify(Elements(remote.log))
    requires AreNew(ids, |Script(cards, ids)|, local.log) && AreNew(ids, |Script(cards, ids)|, remote.log)
    modifies local, remote
    ensures Follows(plan, Script(cards, ids)) && AreFilled(plan, payloads) && (refused <==> !AllValid(plan, valid))
    ensures local.log == old(local.log) + if refused then [] else Own(SignAll(plan, 1), 0)
    ensures remote.log == old(remote.log) + if refused then [] else Own(SignAll(plan, 1), 1)
  {
    hide Sign, Chains, AreNew, IdsIdentify, Script, Own, Verifies, IsAllowed, Ingest, IsLedger, RefsPrecede, AllValid;
    ghost var ledgers := [local.log, remote.log];
    var heads := [LedgerHead(incarnations[0], local.log), LedgerHead(incarnations[1], remote.log)];
    plan := MakePlan(heads, cards, ids, hash, payloads);
    PlanInstalls(incarnations, ledgers, cards, ids, hash, plan, valid, 0, 0);
    PlanInstalls(incarnations, ledgers, cards, ids, hash, plan, valid, 1, 0);
    assert local.log + [] == local.log && remote.log + [] == remote.log;
    var r := SignProposals(plan, 1, heads[1], heads[1], true, true, valid, hash);
    if r.Err? {
      return true, plan;
    }
    var signed := r.value;
    assert Own(signed, 0)[..0] == Own(signed, 1)[..0] == [];
    var verifies := e => Verifies(e, hash);
    var changed, refusal := local.Install(incarnations[0], heads[0], Own(signed, 0), verifies);
    var changed', refusal' := remote.Install(incarnations[1], heads[1], Own(signed, 1), verifies);
    refused := changed || changed' || refusal.Some? || refusal'.Some?;
  }
}
