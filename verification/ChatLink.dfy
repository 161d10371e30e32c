/** A chat-link plan: two authors' drafts, interleaved, each author's a chain on top of that author's ledger. */
module ChatLink {
  import opened Wrappers

  datatype Kind =
    | Card
    | Offer
    | Acceptance
    | TribeDeclaration
    | TribeInvitation
    | MembershipAcceptance
    | Grant
    | GrantAcceptance
    | OtherKind

  /** What a content hash covers. `owner` is the index of the author; `refs` are the events that the payload names. */
  datatype Core = Core(id: string, owner: nat, sequence: nat, previous: Option<string>, kind: Kind, payload: string,
                       refs: seq<string>)

  datatype Event = Event(core: Core, hash: string, signed: bool)

  /** A ledger head; an empty ledger has none. */
  datatype Head = Head(incarnation: string, sequence: nat, tip: string, tipHash: string)

  type Hash = Core -> string

  function SequenceOf(head: Option<Head>): nat { if head.Some? then head.value.sequence else 0 }

  function TipOf(head: Option<Head>): Option<string> { if head.Some? then Some(head.value.tip) else None }

  /** The events of one author, in order. */
  function Own(events: seq<Event>, actor: nat): seq<Event> {
    if events == [] then []
    else (if events[0].core.owner == actor then [events[0]] else []) + Own(events[1..], actor)
  }

  /** Consecutive sequence numbers, each event naming the one before. */
  predicate Chains(sequence: nat, previous: Option<string>, own: seq<Event>)
    decreases own
  {
    own == [] ||
    (own[0].core.sequence == sequence + 1 && own[0].core.previous == previous &&
     Chains(sequence + 1, Some(own[0].core.id), own[1..]))
  }

  predicate ChainsOn(head: Option<Head>, own: seq<Event>) { Chains(SequenceOf(head), TipOf(head), own) }

  function LastId(previous: Option<string>, own: seq<Event>): Option<string> {
    if own == [] then previous else Some(own[|own| - 1].core.id)
  }

  lemma {:induction false} OwnAppend(events: seq<Event>, e: Event, actor: nat)
    ensures Own(events + [e], actor) == Own(events, actor) + (if e.core.owner == actor then [e] else [])
    decreases events
  {
    if events == [] {
      assert events + [e] == [e] && [e][1..] == [];
    } else {
      OwnAppend(events[1..], e, actor);
      assert (events + [e])[1..] == events[1..] + [e];
    }
  }

  lemma {:induction false} ChainAppend(sequence: nat, previous: Option<string>, own: seq<Event>, e: Event)
    ensures Chains(sequence, previous, own + [e]) <==>
            Chains(sequence, previous, own) && e.core.sequence == sequence + |own| + 1
            && e.core.previous == LastId(previous, own)
    decreases own
  {
    if own == [] {
      assert own + [e] == [e] && [e][1..] == [];
    } else {
      ChainAppend(sequence + 1, Some(own[0].core.id), own[1..], e);
      assert (own + [e])[1..] == own[1..] + [e];
    }
  }

  /** An author, a kind and the events that the payload names, in the order the planner drafts them. */
  datatype Draft = Draft(actor: nat, kind: Kind, refs: seq<string>)

  /** A card for each of the first `n` authors without a reusable one. */
  function CardDrafts(cards: seq<Option<string>>, n: nat): seq<Draft>
    requires n <= |cards|
  {
    if n == 0 then []
    else CardDrafts(cards, n - 1) + if cards[n - 1].Some? then [] else [Draft(n - 1, Card, [])]
  }

  /** The cards that the relationship is built on. `ids(i)` is the identifier of the draft at position `i`. */
  function CardRefs(cards: seq<Option<string>>, ids: nat -> string, n: nat): seq<string>
    requires n <= |cards|
  {
    if n == 0 then []
    else
      CardRefs(cards, ids, n - 1) +
      [if cards[n - 1].Some? then cards[n - 1].value else ids(|CardDrafts(cards, n - 1)|)]
  }

  /** Each of the first `n` authors grants, the second out of the first's grant, and the other accepts. */
  function GrantDrafts(ids: nat -> string, at: nat, n: nat): seq<Draft>
    requires n <= 2
  {
    if n == 0 then []
    else
      GrantDrafts(ids, at, n - 1) +
      [Draft(n - 1, Grant, if n == 1 then [] else [ids(at)]), Draft(2 - n, GrantAcceptance, [ids(at + 2 * (n - 1))])]
  }

  /** Offer and acceptance, tribe, invitation and membership; the first stands at position `n`. */
  function Agreement(ids: nat -> string, n: nat, refs: seq<string>): seq<Draft> {
    [Draft(0, Offer, refs), Draft(1, Acceptance, [ids(n)] + refs),
     Draft(0, TribeDeclaration, []), Draft(0, TribeInvitation, []),
     Draft(1, MembershipAcceptance, [ids(n + 3)])]
  }

  /** The plan's script: the cards that are missing, then nine fixed drafts. */
  function Script(cards: seq<Option<string>>, ids: nat -> string): seq<Draft>
    requires |cards| == 2
  {
    var n, refs := |CardDrafts(cards, 2)|, CardRefs(cards, ids, 2);
    CardDrafts(cards, 2) + Agreement(ids, n, refs) + GrantDrafts(ids, n + 5, 2)
  }

  predicate Follows(events: seq<Event>, script: seq<Draft>) {
    |events| == |script| &&
    forall i :: 0 <= i < |events| ==>
      var core := events[i].core;
      Draft(core.owner, core.kind, core.refs) == script[i]
  }

  /** Each event names only cards that are reused and events drafted before it. */
  predicate RefsPrecede(events: seq<Event>, cards: seq<Option<string>>) {
    forall i, r :: 0 <= i < |events| && r in events[i].core.refs ==>
      Some(r) in cards || exists j :: 0 <= j < i && events[j].core.id == r
  }

  /** The counters of one author: the sequence and the tip that its own events lead to. */
  predicate IsLane(base: Option<Head>, own: seq<Event>, sequence: nat, previous: Option<string>) {
    ChainsOn(base, own) && sequence == SequenceOf(base) + |own| && previous == LastId(TipOf(base), own)
  }

  lemma LaneAppend(base: Option<Head>, events: seq<Event>, e: Event, actor: nat, sequence: nat,
      previous: Option<string>)
    requires IsLane(base, Own(events, actor), sequence, previous)
    requires e.core.owner == actor ==> e.core.sequence == sequence + 1 && e.core.previous == previous
    ensures if e.core.owner == actor then IsLane(base, Own(events + [e], actor), sequence + 1, Some(e.core.id))
            else IsLane(base, Own(events + [e], actor), sequence, previous)
  {
    hide Own, Chains;
    OwnAppend(events, e, actor);
    if e.core.owner == actor {
      ChainAppend(SequenceOf(base), TipOf(base), Own(events, actor), e);
    } else {
      assert Own(events, actor) + [] == Own(events, actor);
    }
  }

  /** Every draft has its identifier and its hash; the local author's are signed. */
  predicate AreStamped(events: seq<Event>, ids: nat -> string, hash: Hash) {
    forall i :: 0 <= i < |events| ==>
      var e := events[i];
      e.core.owner < 2 && e.core.id == ids(i) && e.hash == hash(e.core) && (e.signed <==> e.core.owner == 0)
  }

  /** What else a draft says is decided by its author and kind. */
  predicate AreFilled(events: seq<Event>, payloads: (nat, Kind) -> string) {
    forall i :: 0 <= i < |events| ==> events[i].core.payload == payloads(events[i].core.owner, events[i].core.kind)
  }

  /** Every event named is reused, or is one of the first `n` drafts. */
  predicate Knows(cards: seq<Option<string>>, ids: nat -> string, n: nat, refs: seq<string>) {
    forall i :: 0 <= i < |refs| ==> Some(refs[i]) in cards || exists j: nat :: j < n && ids(j) == refs[i]
  }

  lemma {:induction false} CardsAreKnown(cards: seq<Option<string>>, ids: nat -> string, i: nat)
    requires i <= |cards|
    ensures Knows(cards, ids, |CardDrafts(cards, i)|, CardRefs(cards, ids, i))
  {
    if i > 0 {
      CardsAreKnown(cards, ids, i - 1);
      var before, n := CardRefs(cards, ids, i - 1), |CardDrafts(cards, i - 1)|;
      var refs := CardRefs(cards, ids, i);
      assert n <= |CardDrafts(cards, i)|;
      forall k | 0 <= k < |refs|
        ensures Some(refs[k]) in cards || exists j: nat :: j < |CardDrafts(cards, i)| && ids(j) == refs[k]
      {
        if k < |before| {
          assert refs[k] == before[k];
        } else if cards[i - 1].Some? {
          assert Some(refs[k]) == cards[i - 1];
        } else {
          assert ids(n) == refs[k];
        }
      }
    }
  }

  lemma KnowsDraft(cards: seq<Option<string>>, ids: nat -> string, n: nat, k: nat, refs: seq<string>)
    requires k < n && Knows(cards, ids, k, refs)
    ensures Knows(cards, ids, n, [ids(k)]) && Knows(cards, ids, n, [ids(k)] + refs)
  {
  }

  /** The planner's shared lists, which `append` updates. */
  class Planner {
    const bases: seq<Option<Head>>
    const cards: seq<Option<string>>
    const ids: nat -> string
    const hash: Hash
    const payloads: (nat, Kind) -> string
    /** What was drafted so far. */
    ghost var script: seq<Draft>
    var sequences: seq<nat>
    var previous: seq<Option<string>>
    var events: seq<Event>

    ghost predicate Valid() reads this {
      |bases| == |cards| == |sequences| == |previous| == 2 &&
      IsLane(bases[0], Own(events, 0), sequences[0], previous[0]) &&
      IsLane(bases[1], Own(events, 1), sequences[1], previous[1]) &&
      AreStamped(events, ids, hash) && AreFilled(events, payloads) && RefsPrecede(events, cards) &&
      Follows(events, script)
    }

    constructor (bases: seq<Option<Head>>, cards: seq<Option<string>>, ids: nat -> string, hash: Hash,
                 payloads: (nat, Kind) -> string)
      requires |bases| == |cards| == 2
      ensures Valid() && events == [] && script == []
      ensures this.bases == bases && this.cards == cards && this.ids == ids && this.hash == hash
      ensures this.payloads == payloads
    {
      this.bases, this.cards, this.ids, this.hash, this.payloads := bases, cards, ids, hash, payloads;
      sequences := [SequenceOf(bases[0]), SequenceOf(bases[1])];
      previous := [TipOf(bases[0]), TipOf(bases[1])];
      events, script := [], [];
    }

    /** What `Append` adds: the next sequence number of that author, on top of that author's last event. */
    ghost function Next(actor: nat, kind: Kind, refs: seq<string>): Event
      requires |bases| == 2 && actor < 2
      reads this
    {
      var core := Core(ids(|events|), actor, SequenceOf(bases[actor]) + |Own(events, actor)| + 1,
                       LastId(TipOf(bases[actor]), Own(events, actor)), kind, payloads(actor, kind), refs);
      Event(core, hash(core), actor == 0)
    }

    /** `append`: the next draft of one author; the local author's are signed at once. */
    method Append(actor: nat, kind: Kind, refs: seq<string>) returns (id: string)
      requires Valid() && actor < 2 && Knows(cards, ids, |events|, refs)
      modifies this
      ensures Valid() && id == ids(|old(events)|) && script == old(script) + [Draft(actor, kind, refs)]
      ensures events == old(events) + [old(Next(actor, kind, refs))]
    {
      hide IsLane, Own, AreStamped, RefsPrecede, Knows;
      id := ids(|events|);
      var core := Core(id, actor, sequences[actor] + 1, previous[actor], kind, payloads(actor, kind), refs);
      var event := Event(core, hash(core), actor == 0);
      LaneAppend(bases[0], events, event, 0, sequences[0], previous[0]);
      LaneAppend(bases[1], events, event, 1, sequences[1], previous[1]);
      StampAppend(event);
      LaneCounts(bases[actor], Own(events, actor), sequences[actor], previous[actor]);
      sequences := sequences[actor := sequences[actor] + 1];
      previous := previous[actor := Some(id)];
      events := events + [event];
      script := script + [Draft(actor, kind, refs)];
    }

    lemma StampAppend(e: Event)
      requires AreStamped(events, ids, hash) && RefsPrecede(events, cards) && Knows(cards, ids, |events|, e.core.refs)
      requires e.core.owner < 2 && e.core.id == ids(|events|) && e.hash == hash(e.core) && (e.signed <==>
          e.core.owner == 0)
      ensures AreStamped(events + [e], ids, hash) && RefsPrecede(events + [e], cards)
    {
      var all := events + [e];
      forall i, r | 0 <= i < |all| && r in all[i].core.refs
        ensures Some(r) in cards || exists j :: 0 <= j < i && all[j].core.id == r
      {
        if i < |events| {
          assert all[i] == events[i];
          if Some(r) !in cards {
            var j :| 0 <= j < i && events[j].core.id == r;
            assert all[j].core.id == r;
          }
        } else {
          var k :| 0 <= k < |e.core.refs| && e.core.refs[k] == r;
          if Some(r) !in cards {
            var j: nat :| j < |events| && ids(j) == r;
            assert events[j].core.id == r && all[j].core.id == r;
          }
        }
      }
    }
  }

  lemma LaneCounts(base: Option<Head>, own: seq<Event>, sequence: nat, previous: Option<string>)
    requires IsLane(base, own, sequence, previous)
    ensures sequence == SequenceOf(base) + |own| && previous == LastId(TipOf(base), own)
  {
  }

  /** `make_plan`: drafts the whole script on top of the two heads. `payloads(actor, kind)` is the rest of a draft. */
  method MakePlan(bases: seq<Option<Head>>, cards: seq<Option<string>>, ids: nat -> string, hash: Hash,
                  payloads: (nat, Kind) -> string) returns (events: seq<Event>)
    requires |bases| == |cards| == 2
    ensures Follows(events, Script(cards, ids)) && RefsPrecede(events, cards) && AreStamped(events, ids, hash)
    ensures AreFilled(events, payloads)
    ensures ChainsOn(bases[0], Own(events, 0)) && ChainsOn(bases[1], Own(events, 1))
  {
    hide Own, Chains, RefsPrecede, AreStamped, AreFilled, Script, Knows, CardRefs, CardDrafts, GrantDrafts;
    var planner := new Planner(bases, cards, ids, hash, payloads);
    var refs := DraftCards(planner);
    CardsAreKnown(cards, ids, 2);
    DraftAgreement(planner, refs);
    DraftGrants(planner);
    events := planner.events;
    ScriptParts(cards, ids);
  }

  lemma ScriptParts(cards: seq<Option<string>>, ids: nat -> string)
    requires |cards| == 2
    ensures var n, refs := |CardDrafts(cards, 2)|, CardRefs(cards, ids, 2);
            Script(cards, ids) == CardDrafts(cards, 2) + Agreement(ids, n, refs) + GrantDrafts(ids, n + 5, 2)
  {
  }

  method DraftCards(planner: Planner) returns (refs: seq<string>)
    requires planner.Valid() && planner.script == []
    modifies planner
    ensures planner.Valid()
    ensures planner.script == CardDrafts(planner.cards, 2) && refs == CardRefs(planner.cards, planner.ids, 2)
  {
    hide Own, Chains, RefsPrecede, AreStamped, AreFilled, Knows, IsLane;
    refs := [];
    for i := 0 to 2
      invariant planner.Valid()
      invariant planner.script == CardDrafts(planner.cards, i) && refs == CardRefs(planner.cards, planner.ids, i)
    {
      if planner.cards[i].Some? {
        refs := refs + [planner.cards[i].value];
      } else {
        KnowsNone(planner.cards, planner.ids, |planner.events|);
        var id := planner.Append(i, Card, []);
        refs := refs + [id];
      }
    }
  }

  lemma KnowsNone(cards: seq<Option<string>>, ids: nat -> string, n: nat)
    ensures Knows(cards, ids, n, [])
  {
  }

  method DraftAgreement(planner: Planner, refs: seq<string>)
    requires planner.Valid() && Knows(planner.cards, planner.ids, |planner.events|, refs)
    modifies planner
    ensures planner.Valid()
    ensures planner.script == old(planner.script) + Agreement(planner.ids, |old(planner.script)|, refs)
  {
    hide Own, Chains, RefsPrecede, AreStamped, AreFilled, Knows, IsLane, Planner.Next;
    var n := |planner.events|;
    var offer := planner.Append(0, Offer, refs);
    KnowsDraft(planner.cards, planner.ids, n + 1, n, refs);
    var _ := planner.Append(1, Acceptance, [offer] + refs);
    KnowsNone(planner.cards, planner.ids, n + 2);
    var _ := planner.Append(0, TribeDeclaration, []);
    KnowsNone(planner.cards, planner.ids, n + 3);
    var invitation := planner.Append(0, TribeInvitation, []);
    KnowsNone(planner.cards, planner.ids, n + 3);
    KnowsDraft(planner.cards, planner.ids, n + 4, n + 3, []);
    var _ := planner.Append(1, MembershipAcceptance, [invitation]);
  }

  method DraftGrants(planner: Planner)
    requires planner.Valid()
    modifies planner
    ensures planner.Valid()
    ensures planner.script == old(planner.script) + GrantDrafts(planner.ids, |old(planner.script)|, 2)
  {
    hide Own, Chains, RefsPrecede, AreStamped, AreFilled, Knows, IsLane;
    var n := |planner.events|;
    var grants := [];
    for i := 0 to 2
      invariant planner.Valid()
      invariant planner.script == old(planner.script) + GrantDrafts(planner.ids, n, i)
      invariant |planner.events| == n + 2 * i && |grants| == i && (i > 0 ==> grants[0] == planner.ids(n))
    {
      var k := n + 2 * i;
      KnowsNone(planner.cards, planner.ids, k);
      KnowsNone(planner.cards, planner.ids, n);
      if i > 0 {
        KnowsDraft(planner.cards, planner.ids, k, n, []);
      }
      var grant := planner.Append(i, Grant, if i == 0 then [] else [grants[0]]);
      KnowsDraft(planner.cards, planner.ids, k + 1, k, []);
      var _ := planner.Append(1 - i, GrantAcceptance, [grant]);
      grants := grants + [grant];
    }
  }

  /** Nine drafts are fixed, and a card is drafted for each author who has none to reuse. */
  lemma ScriptLength(cards: seq<Option<string>>, ids: nat -> string)
    requires |cards| == 2
    ensures |Script(cards, ids)| == 9 + (if cards[0].Some? then 0 else 1) + (if cards[1].Some? then 0 else 1)
  {
    var at := |CardDrafts(cards, 2)| + 5;
    assert |GrantDrafts(ids, at, 0)| == 0 && |GrantDrafts(ids, at, 1)| == 2 && |GrantDrafts(ids, at, 2)| == 4;
    assert |CardDrafts(cards, 1)| == if cards[0].Some? then 0 else 1;
  }
}
