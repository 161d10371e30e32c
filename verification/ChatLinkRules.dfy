/** The rules of a chat link, each by its own condition: what a plan drafts at every position, what the head of a ledger
    is, and where ingesting stops. */
module ChatLinkRules {
  import opened ChatLink
  import opened ChatLinkInstall
  import opened TextFormats
  import opened Wrappers

  // The plan.

  /** How many cards a plan drafts. */
  function NewCards(cards: seq<Option<string>>): nat
    requires |cards| == 2
  {
    (if cards[0] == None then 1 else 0) + (if cards[1] == None then 1 else 0)
  }

  /** The events that stand for the two cards: reused ones, or the drafts at the front, in the order of the authors. */
  predicate AreCards(cards: seq<Option<string>>, ids: nat -> string, refs: seq<string>)
    requires |cards| == 2
  {
    && |refs| == 2
    && refs[0] == (if cards[0] == None then ids(0) else cards[0].value)
    && refs[1] == (if cards[1] != None then cards[1].value else if cards[0] == None then ids(1) else ids(0))
  }

  /** What stands at each position of a plan: the author, the kind, and the events named. */
  lemma ScriptExactly(cards: seq<Option<string>>, ids: nat -> string) returns (refs: seq<string>)
    requires |cards| == 2
    ensures var s, n := Script(cards, ids), NewCards(cards);
            && AreCards(cards, ids, refs) && |s| == n + 9
            && (cards[0] == None ==> s[0] == Draft(0, Card, []))
            && (cards[1] == None ==> s[n - 1] == Draft(1, Card, []))
            && s[n] == Draft(0, Offer, refs)
            && s[n + 1] == Draft(1, Acceptance, [ids(n)] + refs)
            && s[n + 2] == Draft(0, TribeDeclaration, [])
            && s[n + 3] == Draft(0, TribeInvitation, [])
            && s[n + 4] == Draft(1, MembershipAcceptance, [ids(n + 3)])
            && s[n + 5] == Draft(0, Grant, [])
            && s[n + 6] == Draft(1, GrantAcceptance, [ids(n + 5)])
            && s[n + 7] == Draft(1, Grant, [ids(n + 5)])
            && s[n + 8] == Draft(0, GrantAcceptance, [ids(n + 7)])
  {
    refs := CardRefs(cards, ids, 2);
    assert CardDrafts(cards, 0) == [] && CardRefs(cards, ids, 0) == [];
    assert CardDrafts(cards, 1) == if cards[0] == None then [Draft(0, Card, [])] else [];
    assert CardRefs(cards, ids, 1) == [if cards[0] == None then ids(0) else cards[0].value];
    var at := |CardDrafts(cards, 2)| + 5;
    assert GrantDrafts(ids, at, 0) == [];
    assert GrantDrafts(ids, at, 1) == [Draft(0, Grant, []), Draft(1, GrantAcceptance, [ids(at)])];
  }

  /** How the drafts of a plan are written: numbered and linked per author on the head of that author's ledger, under
      their identifiers and hashes, the local author's signed. */
  lemma DraftsExactly(events: seq<Event>, ids: nat -> string, hash: Hash, base: Option<Head>, actor: nat, k: nat)
    requires AreStamped(events, ids, hash) && ChainsOn(base, Own(events, actor)) && k < |Own(events, actor)|
    ensures var own := Own(events, actor);
            && own[k].core.sequence == (if base == None then 0 else base.value.sequence) + k + 1
            && own[k].core.previous ==
               (if k > 0 then Some(own[k - 1].core.id) else if base == None then None else Some(base.value.tip))
    ensures forall i :: 0 <= i < |events| ==>
              && events[i].core.id == ids(i) && events[i].hash == hash(events[i].core)
              && (events[i].signed <==> events[i].core.owner == 0)
  {
    hide Own;
    ChainAt(SequenceOf(base), TipOf(base), Own(events, actor), k);
  }

  // The ledger.

  lemma HeadExactly(incarnation: string, log: seq<Event>)
    ensures log == [] ==> LedgerHead(incarnation, log) == None
    ensures log != [] ==>
              var h, last := LedgerHead(incarnation, log), log[|log| - 1];
              && h != None && h.value.incarnation == incarnation && h.value.sequence == last.core.sequence
              && h.value.tip == last.core.id && h.value.tipHash == last.hash
  {
  }

  // Ingesting.

  /** The page comes by ascending sequence number, and identifier where numbers agree. */
  predicate IsPageSorted(events: seq<Event>) {
    forall i :: 0 < i < |events| ==>
      var a, b := events[i - 1].core, events[i].core;
      a.sequence < b.sequence || (a.sequence == b.sequence && !Less(b.id, a.id))
  }

  /** Why a page is refused before the ledger is looked at. */
  lemma PageExactly(events: seq<Event>, verifies: Event -> bool)
    ensures var fault, verified := PageFault(events, verifies), forall e :: e in events ==> verifies(e);
            var repeats := exists i, j :: 0 <= i < j < |events| && events[i].core.id == events[j].core.id;
            && (!verified ==> fault == Some(InvalidEvent))
            && (verified && !IsPageSorted(events) ==> fault == Some(NotSorted))
            && (verified && IsPageSorted(events) && repeats ==> fault == Some(DuplicateInPage))
            && (verified && IsPageSorted(events) && !repeats ==> fault == None)
  {
    hide Less;
  }

  predicate IsHeld(log: seq<Event>, e: Event) { exists i :: 0 <= i < |log| && log[i].core.id == e.core.id }

  /** The events of the page whose identifiers the ledger does not hold. */
  function News(log: seq<Event>, events: seq<Event>): seq<Event> {
    if events == [] then []
    else News(log, events[..|events| - 1]) + if IsHeld(log, events[|events| - 1]) then [] else [events[|events| - 1]]
  }

  predicate IsTaken(all: seq<Event>, sequence: nat) { exists i :: 0 <= i < |all| && all[i].core.sequence == sequence }

  /** The event goes on top of the lane. */
  predicate IsNext(all: seq<Event>, e: Event) {
    && e.core.sequence == (if all == [] then 1 else all[|all| - 1].core.sequence + 1)
    && e.core.previous == if all == [] then None else Some(all[|all| - 1].core.id)
  }

  /** The ledger, with what the page has brought before position `k`, can take the event there: it holds just this
      event, or it has no event of its number and the event is the next one. */
  predicate Fits(log: seq<Event>, events: seq<Event>, k: nat)
    requires k < |events|
  {
    var e, all := events[k], log + News(log, events[..k]);
    if IsHeld(log, e) then e in log else !IsTaken(all, e.core.sequence) && IsNext(all, e)
  }

  predicate RefusedFor(log: seq<Event>, events: seq<Event>, k: nat, r: Refusal)
    requires k < |events|
  {
    var e, all := events[k], log + News(log, events[..k]);
    r == if IsHeld(log, e) || IsTaken(all, e.core.sequence) then Equivocation else SequenceGap
  }

  lemma {:induction false} MissingExactly(log: seq<Event>, events: seq<Event>, k: nat)
    requires k <= |events|
    ensures match Missing(log, News(log, events[..k]), events[k..])
            case Ok(missing) => (forall j :: k <= j < |events| ==> Fits(log, events, j)) && missing == News(log, events)
            case Err(r) =>
              exists j :: k <= j < |events| && !Fits(log, events, j) && RefusedFor(log, events, j, r) &&
                forall i :: k <= i < j ==> Fits(log, events, i)
    decreases |events| - k
  {
    hide IsTaken, IsHeld, HoldsId, HoldsSequence, Fits, RefusedFor;
    if k < |events| {
      MissingExactly(log, events, k + 1);
      MissingStep(log, events, k);
    } else {
      assert events[..k] == events;
    }
  }

  /** What `Missing` does with one event. */
  lemma MissingStep(log: seq<Event>, events: seq<Event>, k: nat)
    requires k < |events|
    ensures var r := Missing(log, News(log, events[..k]), events[k..]);
            if Fits(log, events, k) then r == Missing(log, News(log, events[..k + 1]), events[k + 1..])
            else r.Err? && RefusedFor(log, events, k, r.error)
  {
    hide IsTaken, IsHeld, HoldsId, HoldsSequence;
    var e, staged := events[k], News(log, events[..k]);
    assert events[k..][0] == e && events[k..][1..] == events[k + 1..];
    assert events[..k + 1][..k] == events[..k] && events[..k + 1][k] == e;
    assert staged + [] == staged;
    HeldExactly(log, staged, e);
  }

  lemma HeldExactly(log: seq<Event>, staged: seq<Event>, e: Event)
    ensures HoldsId(log, e.core.id) <==> IsHeld(log, e)
    ensures HoldsSequence(staged, e.core.sequence) || HoldsSequence(log, e.core.sequence) <==>
            IsTaken(log + staged, e.core.sequence)
    ensures e.core.sequence == LastSequence(log + staged) + 1 && e.core.previous == LastId(None, log + staged) <==>
            IsNext(log + staged, e)
  {
    var all, n := log + staged, e.core.sequence;
    if i :| 0 <= i < |log| && log[i].core.sequence == n {
      assert all[i] == log[i];
    }
    if i :| 0 <= i < |staged| && staged[i].core.sequence == n {
      assert all[|log| + i] == staged[i];
    }
    if i :| 0 <= i < |all| && all[i].core.sequence == n {
      assert i < |log| ==> log[i] == all[i];
      assert i >= |log| ==> staged[i - |log|] == all[i];
    }
  }

  /** Ingesting any page into any ledger: all new events are added if every one fits, and otherwise the first that does
      not fit decides why nothing is added. */
  lemma IngestExactly(log: seq<Event>, events: seq<Event>, verifies: Event -> bool)
    ensures var fault := PageFault(events, verifies);
            match Ingest(log, events, verifies)
            case Ok(after) =>
              && fault == None && after == log + News(log, events)
              && forall k :: 0 <= k < |events| ==> Fits(log, events, k)
            case Err(r) =>
              if fault != None then r == fault.value
              else exists k :: 0 <= k < |events| && !Fits(log, events, k) && RefusedFor(log, events, k, r) &&
                     forall i :: 0 <= i < k ==> Fits(log, events, i)
  {
    hide PageFault, Fits, RefusedFor;
    MissingExactly(log, events, 0);
    assert events[..0] == [] && events[0..] == events && News(log, []) == [];
  }
}
