/** Signing the local author's drafts of a plan. */
module ChatLinkSigning {
  import opened ChatLink
  import opened Wrappers

  datatype Failure =
    | PlanExpiredOrInvalid
    | IdentityMismatch
    | EventCount
    | LocalHeadChanged
    | EventScope
    | InvalidPayload
    | BadSignature
    | EventChain
    | DraftChanged

  /** `verify_event`: signed, and hashed as it reads. */
  predicate Verifies(e: Event, hash: Hash) { e.signed && e.hash == hash(e.core) }

  /** What one event must satisfy, apart from the chain: its scope, its payload, and its author's part. */
  function EventFault(e: Event, actor: nat, valid: Event -> bool, hash: Hash): (fault: Option<Failure>)
    ensures fault.Some? ==> fault.value.EventScope? || fault.value.InvalidPayload? || fault.value.BadSignature?
  {
    if e.core.owner > 1 || e.core.kind.OtherKind? then Some(EventScope)
    else if !valid(e) then Some(InvalidPayload)
    else if e.core.owner != actor && !Verifies(e, hash) then Some(BadSignature)
    else None
  }

  predicate Links(e: Event, sequence: nat, previous: Option<string>) {
    e.core.sequence == sequence + 1 && e.core.previous == previous
  }

  function SignedBy(e: Event, actor: nat): Event { if e.core.owner == actor then e.(signed := true) else e }

  function SignAll(events: seq<Event>, actor: nat): (signed: seq<Event>)
    ensures |signed| == |events|
  {
    if events == [] then [] else [SignedBy(events[0], actor)] + SignAll(events[1..], actor)
  }

  /** What the loop makes of the remaining events, given the sequence and the tip reached so far. */
  function SignFrom(events: seq<Event>, actor: nat, sequence: nat, previous: Option<string>, valid: Event -> bool,
                    hash: Hash): Result<seq<Event>, Failure>
    decreases events
  {
    if events == [] then Ok([])
    else
      var e := events[0];
      var own := e.core.owner == actor;
      if EventFault(e, actor, valid, hash).Some? then Err(EventFault(e, actor, valid, hash).value)
      else if own && !Links(e, sequence, previous) then Err(EventChain)
      else if own && e.hash != hash(e.core) then Err(DraftChanged)
      else
        match SignFrom(events[1..], actor, if own then sequence + 1 else sequence,
                       if own then Some(e.core.id) else previous, valid, hash)
        case Err(f) => Err(f)
        case Ok(others) => Ok([SignedBy(e, actor)] + others)
  }

  predicate AreFaultless(events: seq<Event>, actor: nat, valid: Event -> bool, hash: Hash) {
    forall i :: 0 <= i < |events| ==>
      EventFault(events[i], actor, valid, hash) == None &&
      (events[i].core.owner == actor ==> events[i].hash == hash(events[i].core))
  }

  /** The loop signs exactly the plans whose local drafts continue the chain, and changes nothing else in them. */
  lemma {:induction false} SignsExactly(events: seq<Event>, actor: nat, sequence: nat, previous: Option<string>,
                                        valid: Event -> bool, hash: Hash)
    ensures var r := SignFrom(events, actor, sequence, previous, valid, hash);
            (r.Ok? <==> AreFaultless(events, actor, valid, hash) && Chains(sequence, previous, Own(events, actor))) &&
            (r.Ok? ==> r.value == SignAll(events, actor)) &&
            (r == Err(EventChain) ==> !Chains(sequence, previous, Own(events, actor)))
    decreases events
  {
    hide EventFault;
    if events != [] {
      var e, rest := events[0], events[1..];
      var own := e.core.owner == actor;
      SignsExactly(rest, actor, if own then sequence + 1 else sequence, if own then Some(e.core.id) else previous,
                   valid, hash);
      FaultlessStep(events, actor, valid, hash);
      OwnStep(events, actor);
    }
  }

  lemma FaultlessStep(events: seq<Event>, actor: nat, valid: Event -> bool, hash: Hash)
    requires events != []
    ensures AreFaultless(events, actor, valid, hash) <==>
            EventFault(events[0], actor, valid, hash) == None
            && (events[0].core.owner == actor ==> events[0].hash == hash(events[0].core))
            && AreFaultless(events[1..], actor, valid, hash)
  {
    hide EventFault;
    assert events == [events[0]] + events[1..];
  }

  lemma OwnStep(events: seq<Event>, actor: nat)
    requires events != []
    ensures events[0].core.owner != actor ==> Own(events, actor) == Own(events[1..], actor)
    ensures events[0].core.owner == actor ==>
              var own := Own(events, actor);
              own != [] && own[0] == events[0] && own[1..] == Own(events[1..], actor)
  {
  }

  /** The other failures have their causes in the events. */
  lemma {:induction false} FailuresHaveCauses(events: seq<Event>, actor: nat, sequence: nat, previous: Option<string>,
                                              valid: Event -> bool, hash: Hash)
    ensures var r := SignFrom(events, actor, sequence, previous, valid, hash);
            (r == Err(EventScope) ==> exists e :: e in events && (e.core.owner > 1 || e.core.kind.OtherKind?)) &&
            (r == Err(DraftChanged) ==> exists e :: e in events && e.hash != hash(e.core)) &&
            r != Err(EventCount) && r != Err(LocalHeadChanged)
    decreases events
  {
    if events != [] {
      var e := events[0];
      var own := e.core.owner == actor;
      assert e in events;
      FailuresHaveCauses(events[1..], actor, if own then sequence + 1 else sequence,
                         if own then Some(e.core.id) else previous, valid, hash);
      assert forall x :: x in events[1..] ==> x in events;
    }
  }

  /** `sign_proposals`. `ready` says that the plan is in force and names this runtime. */
  function Sign(events: seq<Event>, actor: nat, actual: Option<Head>, base: Option<Head>, current: bool, matches: bool,
                valid: Event -> bool, hash: Hash): Result<seq<Event>, Failure>
  {
    if !current then Err(PlanExpiredOrInvalid)
    else if !matches then Err(IdentityMismatch)
    else if |events| !in {9, 10, 11} then Err(EventCount)
    else if actual != base then Err(LocalHeadChanged)
    else SignFrom(events, actor, SequenceOf(actual), TipOf(actual), valid, hash)
  }

  // What stops the signing, event by event.

  /** The sequence number and the predecessor that the author's next event must have after the first `k` events. */
  predicate StandsNext(events: seq<Event>, k: nat, actor: nat, sequence: nat, previous: Option<string>)
    requires k < |events|
  {
    var before := Own(events[..k], actor);
    && events[k].core.sequence == sequence + |before| + 1
    && events[k].core.previous == if before == [] then previous else Some(before[|before| - 1].core.id)
  }

  predicate IsInScope(e: Event) { (e.core.owner == 0 || e.core.owner == 1) && e.core.kind != OtherKind }

  /** Nothing stops the signing at event `k`. */
  predicate IsSignable(
    events: seq<Event>, k: nat, actor: nat, sequence: nat, previous: Option<string>, valid: Event -> bool, hash: Hash)
    requires k < |events|
  {
    var e := events[k];
    && IsInScope(e) && valid(e) && e.hash == hash(e.core)
    && if e.core.owner == actor then StandsNext(events, k, actor, sequence, previous) else e.signed
  }

  /** Every failure has its own condition on the event where the signing stops. */
  predicate StopsFor(
    events: seq<Event>, k: nat, actor: nat, sequence: nat, previous: Option<string>, valid: Event -> bool, hash: Hash,
    fault: Failure)
    requires k < |events|
  {
    var e := events[k];
    var fine, own := IsInScope(e) && valid(e), e.core.owner == actor;
    && (!IsInScope(e) ==> fault == EventScope)
    && (IsInScope(e) && !valid(e) ==> fault == InvalidPayload)
    && (fine && !own ==> fault == BadSignature)
    && (fine && own && !StandsNext(events, k, actor, sequence, previous) ==> fault == EventChain)
    && (fine && own && StandsNext(events, k, actor, sequence, previous) ==> fault == DraftChanged)
  }

  /** The signing stops at the first event that is not signable. */
  ghost predicate StopsFirst(
    events: seq<Event>, actor: nat, sequence: nat, previous: Option<string>, valid: Event -> bool, hash: Hash,
    fault: Failure)
  {
    exists k :: 0 <= k < |events| && !IsSignable(events, k, actor, sequence, previous, valid, hash) &&
      (forall j :: 0 <= j < k ==> IsSignable(events, j, actor, sequence, previous, valid, hash)) &&
      StopsFor(events, k, actor, sequence, previous, valid, hash, fault)
  }

  lemma NextBelow(events: seq<Event>, k: nat, actor: nat, sequence: nat, previous: Option<string>)
    requires 0 < k < |events|
    ensures var e := events[0];
            StandsNext(events, k, actor, sequence, previous) <==>
            StandsNext(events[1..], k - 1, actor, if e.core.owner == actor then sequence + 1 else sequence,
                       if e.core.owner == actor then Some(e.core.id) else previous)
  {
    var front := events[..k];
    assert front[0] == events[0] && front[1..] == events[1..][..k - 1];
  }

  lemma {:induction false} SignsOrStops(
    events: seq<Event>, actor: nat, sequence: nat, previous: Option<string>, valid: Event -> bool, hash: Hash)
    ensures var r := SignFrom(events, actor, sequence, previous, valid, hash);
            match r
            case Ok(signed) =>
              && |signed| == |events|
              && forall k :: 0 <= k < |events| ==>
                   && IsSignable(events, k, actor, sequence, previous, valid, hash)
                   && signed[k] == events[k].(signed := events[k].signed || events[k].core.owner == actor)
            case Err(fault) => StopsFirst(events, actor, sequence, previous, valid, hash, fault)
    decreases events
  {
    hide StandsNext, IsInScope, StopsFor;
    if events != [] {
      var e, rest := events[0], events[1..];
      var own := e.core.owner == actor;
      var sequence', previous' := if own then sequence + 1 else sequence, if own then Some(e.core.id) else previous;
      SignsOrStops(rest, actor, sequence', previous', valid, hash);
      forall k | 0 < k < |events|
        ensures IsSignable(events, k, actor, sequence, previous, valid, hash) <==>
                IsSignable(rest, k - 1, actor, sequence', previous', valid, hash)
      {
        NextBelow(events, k, actor, sequence, previous);
      }
      FirstStops(events, actor, sequence, previous, valid, hash);
      var below := SignFrom(rest, actor, sequence', previous', valid, hash);
      if IsSignable(events, 0, actor, sequence, previous, valid, hash) && below.Err? {
        var k :| 0 <= k < |rest| && !IsSignable(rest, k, actor, sequence', previous', valid, hash) &&
          (forall j :: 0 <= j < k ==> IsSignable(rest, j, actor, sequence', previous', valid, hash)) &&
          StopsFor(rest, k, actor, sequence', previous', valid, hash, below.error);
        NextBelow(events, k + 1, actor, sequence, previous);
        StopsBelow(events, k + 1, actor, sequence, previous, valid, hash, below.error);
        assert !IsSignable(events, k + 1, actor, sequence, previous, valid, hash);
      }
    }
  }

  lemma StopsBelow(
    events: seq<Event>, k: nat, actor: nat, sequence: nat, previous: Option<string>, valid: Event -> bool, hash: Hash,
    fault: Failure)
    requires 0 < k < |events|
    ensures var own := events[0].core.owner == actor;
            StopsFor(events, k, actor, sequence, previous, valid, hash, fault) <==>
            StopsFor(events[1..], k - 1, actor, if own then sequence + 1 else sequence,
                     if own then Some(events[0].core.id) else previous, valid, hash, fault)
  {
    hide StandsNext;
    NextBelow(events, k, actor, sequence, previous);
  }

  lemma FirstStops(
    events: seq<Event>, actor: nat, sequence: nat, previous: Option<string>, valid: Event -> bool, hash: Hash)
    requires events != []
    ensures var r := SignFrom(events, actor, sequence, previous, valid, hash);
            !IsSignable(events, 0, actor, sequence, previous, valid, hash) ==>
              r.Err? && StopsFor(events, 0, actor, sequence, previous, valid, hash, r.error)
    ensures var own := events[0].core.owner == actor;
            IsSignable(events, 0, actor, sequence, previous, valid, hash) ==>
              SignFrom(events, actor, sequence, previous, valid, hash) ==
              match SignFrom(events[1..], actor, if own then sequence + 1 else sequence,
                             if own then Some(events[0].core.id) else previous, valid, hash)
              case Err(f) => Err(f)
              case Ok(others) =>
                Ok([events[0].(signed := events[0].signed || own)] + others)
  {
    assert events[..0] == [];
  }

  /** The whole of `sign_proposals`: what it refuses before it looks at the events, where it stops among them, and what
      it changes otherwise, which is the local signatures alone. */
  lemma SignedExactly(
    events: seq<Event>, actor: nat, actual: Option<Head>, base: Option<Head>, current: bool, matches: bool,
    valid: Event -> bool, hash: Hash)
    ensures var r := Sign(events, actor, actual, base, current, matches, valid, hash);
            var counted := 9 <= |events| <= 11;
            var sequence, previous := if actual == None then 0 else actual.value.sequence,
                                      if actual == None then None else Some(actual.value.tip);
            && (!current ==> r == Err(PlanExpiredOrInvalid))
            && (current && !matches ==> r == Err(IdentityMismatch))
            && (current && matches && !counted ==> r == Err(EventCount))
            && (current && matches && counted && actual != base ==> r == Err(LocalHeadChanged))
            && (current && matches && counted && actual == base ==>
                  match r
                  case Ok(signed) =>
                    && |signed| == |events|
                    && forall k :: 0 <= k < |events| ==>
                         && IsSignable(events, k, actor, sequence, previous, valid, hash)
                         && signed[k] == events[k].(signed := events[k].signed || events[k].core.owner == actor)
                  case Err(fault) => StopsFirst(events, actor, sequence, previous, valid, hash, fault))
  {
    hide SignFrom, IsSignable, StopsFirst;
    SignsOrStops(events, actor, SequenceOf(actual), TipOf(actual), valid, hash);
  }

  function Continue(done: seq<Event>, r: Result<seq<Event>, Failure>): Result<seq<Event>, Failure> {
    match r
    case Err(f) => Err(f)
    case Ok(others) => Ok(done + others)
  }

  method SignProposals(events: seq<Event>, actor: nat, actual: Option<Head>, base: Option<Head>, current: bool,
                       matches: bool, valid: Event -> bool, hash: Hash) returns (r: Result<seq<Event>, Failure>)
    ensures r == Sign(events, actor, actual, base, current, matches, valid, hash)
  {
    if !current {
      return Err(PlanExpiredOrInvalid);
    }
    if !matches {
      return Err(IdentityMismatch);
    }
    if |events| !in {9, 10, 11} {
      return Err(EventCount);
    }
    if actual != base {
      return Err(LocalHeadChanged);
    }
    var result, previous, sequence := [], TipOf(actual), SequenceOf(actual);
    ghost var all := SignFrom(events, actor, sequence, previous, valid, hash);
    assert events[0..] == events;
    ContinueNothing(all);
    for i := 0 to |events|
      invariant all == Continue(result, SignFrom(events[i..], actor, sequence, previous, valid, hash))
    {
      hide EventFault;
      var event := events[i];
      assert events[i..][0] == event && events[i..][1..] == events[i + 1..];
      var fault := EventFault(event, actor, valid, hash);
      if fault.Some? {
        return Err(fault.value);
      }
      if event.core.owner == actor {
        sequence := sequence + 1;
        if event.core.sequence != sequence || event.core.previous != previous {
          return Err(EventChain);
        }
        if event.hash != hash(event.core) {
          return Err(DraftChanged);
        }
        previous := Some(event.core.id);
      }
      ghost var later := SignFrom(events[i + 1..], actor, sequence, previous, valid, hash);
      if later.Ok? {
        assert result + ([SignedBy(event, actor)] + later.value) == result + [SignedBy(event, actor)] + later.value;
      }
      result := result + [SignedBy(event, actor)];
    }
    assert events[|events|..] == [] && result + [] == result;
    r := Ok(result);
  }

  lemma ContinueNothing(r: Result<seq<Event>, Failure>)
    ensures Continue([], r) == r
  {
    if r.Ok? {
      assert [] + r.value == r.value;
    }
  }

  /** A plan as `MakePlan` leaves it. */
  predicate IsPlan(
    events: seq<Event>, bases: seq<Option<Head>>, cards: seq<Option<string>>, ids: nat -> string, hash: Hash)
  {
    |bases| == |cards| == 2 && Follows(events, Script(cards, ids)) && AreStamped(events, ids, hash) &&
    ChainsOn(bases[0], Own(events, 0)) && ChainsOn(bases[1], Own(events, 1))
  }

  predicate AllValid(events: seq<Event>, valid: Event -> bool) {
    forall i :: 0 <= i < |events| ==> valid(events[i])
  }

  lemma FaultlessIsValid(events: seq<Event>, actor: nat, valid: Event -> bool, hash: Hash)
    ensures AreFaultless(events, actor, valid, hash) ==> AllValid(events, valid)
  {
  }

  /** On an unchanged head a plan is never refused for its length or its chain. The remote author, whose drafts
      alone are unsigned, can sign exactly the plans whose payloads are valid. */
  lemma {:induction false} PlansCanBeSigned(
    events: seq<Event>, bases: seq<Option<Head>>, cards: seq<Option<string>>, ids: nat -> string, hash: Hash,
    actor: nat, valid: Event -> bool)
    requires IsPlan(events, bases, cards, ids, hash) && actor < 2
    ensures var r := Sign(events, actor, bases[actor], bases[actor], true, true, valid, hash);
            r != Err(EventCount) && r != Err(LocalHeadChanged) && r != Err(EventChain) && r != Err(DraftChanged) &&
            r != Err(EventScope) &&
            (r.Ok? ==> r == Ok(SignAll(events, actor)) && AllValid(events, valid)) &&
            (actor == 1 && AllValid(events, valid) ==> r.Ok?)
  {
    hide EventFault, Chains, Script, SignFrom;
    ScriptLength(cards, ids);
    var sequence, previous := SequenceOf(bases[actor]), TipOf(bases[actor]);
    SignsExactly(events, actor, sequence, previous, valid, hash);
    FailuresHaveCauses(events, actor, sequence, previous, valid, hash);
    forall i | 0 <= i < |events| ensures !events[i].core.kind.OtherKind? {
      ScriptKinds(cards, ids, i);
    }
    FaultlessIsValid(events, actor, valid, hash);
    if actor == 1 && AllValid(events, valid) {
      forall i | 0 <= i < |events| ensures EventFault(events[i], actor, valid, hash) == None {
        RemoteIsFaultless(events[i], valid, hash);
      }
    }
  }

  lemma ScriptKinds(cards: seq<Option<string>>, ids: nat -> string, i: int)
    requires |cards| == 2 && 0 <= i < |Script(cards, ids)|
    ensures !Script(cards, ids)[i].kind.OtherKind?
  {
    CardKinds(cards, 2);
    var at := |CardDrafts(cards, 2)| + 5;
    assert GrantDrafts(ids, at, 0) == [];
    assert forall d :: d in GrantDrafts(ids, at, 1) ==> !d.kind.OtherKind?;
    assert forall d :: d in GrantDrafts(ids, at, 2) ==> !d.kind.OtherKind?;
    assert Script(cards, ids)[i] in Script(cards, ids);
  }

  lemma {:induction false} CardKinds(cards: seq<Option<string>>, n: nat)
    requires n <= |cards|
    ensures forall d :: d in CardDrafts(cards, n) ==> d.kind.Card?
  {
    if n > 0 {
      CardKinds(cards, n - 1);
    }
  }

  lemma RemoteIsFaultless(e: Event, valid: Event -> bool, hash: Hash)
    requires e.core.owner < 2 && !e.core.kind.OtherKind? && valid(e) && e.hash == hash(e.core)
    requires e.signed <==> e.core.owner == 0
    ensures EventFault(e, 1, valid, hash) == None
  {
  }

  /** Signing leaves both chains as they were. */
  lemma {:induction false} SigningKeepsChains(events: seq<Event>, signer: nat, author: nat, sequence: nat,
                                              previous: Option<string>)
    ensures |Own(SignAll(events, signer), author)| == |Own(events, author)|
    ensures Chains(sequence, previous, Own(SignAll(events, signer), author)) <==>
            Chains(sequence, previous, Own(events, author))
    decreases events
  {
    if events != [] {
      var signed := SignAll(events, signer);
      assert signed[0].core == events[0].core && signed[1..] == SignAll(events[1..], signer);
      OwnStep(events, author);
      OwnStep(signed, author);
      if events[0].core.owner == author {
        SigningKeepsChains(events[1..], signer, author, sequence + 1, Some(events[0].core.id));
        assert Own(events, author) == [events[0]] + Own(events[1..], author);
        assert Own(signed, author) == [signed[0]] + Own(signed[1..], author);
      } else {
        SigningKeepsChains(events[1..], signer, author, sequence, previous);
      }
    }
  }
}
