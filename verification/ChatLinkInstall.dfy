/** Installing a signed plan: the guard on the local head, and the ledger that takes the author's own events in. */
module ChatLinkInstall {
  import opened ChatLink
  import opened TextFormats
  import opened Wrappers

  // The local lane of a ledger, oldest event first.

  function HeadOf(incarnation: string, e: Event): Head { Head(incarnation, e.core.sequence, e.core.id, e.hash) }

  /** `heads()` for one incarnation. */
  function LedgerHead(incarnation: string, log: seq<Event>): Option<Head> {
    if log == [] then None else Some(HeadOf(incarnation, log[|log| - 1]))
  }

  predicate IsLedger(log: seq<Event>) { Chains(0, None, log) }

  /** No two events share an identifier, as random identifiers promise. */
  predicate IdsIdentify(events: set<Event>) {
    forall e, f :: e in events && f in events && e.core.id == f.core.id ==> e == f
  }

  function Elements(events: seq<Event>): set<Event> { set e | e in events }

  // The guard.

  /** `allowed_heads`. */
  predicate IsAllowed(incarnation: string, base: Option<Head>, own: seq<Event>, actual: Option<Head>) {
    actual == base || exists i :: 0 <= i < |own| && actual == Some(HeadOf(incarnation, own[i]))
  }

  lemma {:induction false} ChainAt(sequence: nat, previous: Option<string>, log: seq<Event>, i: nat)
    requires Chains(sequence, previous, log) && i < |log|
    ensures log[i].core.sequence == sequence + i + 1
    ensures log[i].core.previous == if i == 0 then previous else Some(log[i - 1].core.id)
    decreases log
  {
    if i > 0 {
      ChainAt(sequence + 1, Some(log[0].core.id), log[1..], i - 1);
    }
  }

  lemma {:induction false} ChainPrefix(sequence: nat, previous: Option<string>, log: seq<Event>, n: nat)
    requires Chains(sequence, previous, log) && n <= |log|
    ensures Chains(sequence, previous, log[..n])
    decreases log
  {
    if n > 0 {
      ChainPrefix(sequence + 1, Some(log[0].core.id), log[1..], n - 1);
      assert log[..n][1..] == log[1..][..n - 1];
    }
  }

  lemma {:induction false} ChainConcat(sequence: nat, previous: Option<string>, a: seq<Event>, b: seq<Event>)
    ensures Chains(sequence, previous, a + b) <==>
            Chains(sequence, previous, a) && Chains(sequence + |a|, LastId(previous, a), b)
    decreases a
  {
    if a == [] {
      assert a + b == b;
    } else {
      ChainConcat(sequence + 1, Some(a[0].core.id), a[1..], b);
      assert (a + b)[1..] == a[1..] + b;
    }
  }

  /** Following the names back from one tip, two ledgers are the same. */
  lemma {:induction false} TipDeterminesLedger(a: seq<Event>, b: seq<Event>, events: set<Event>)
    requires IsLedger(a) && IsLedger(b) && IdsIdentify(events) && Elements(a) <= events && Elements(b) <= events
    requires LastId(None, a) == LastId(None, b)
    ensures a == b
    decreases |a|
  {
    if a != [] && b != [] {
      var i, j := |a| - 1, |b| - 1;
      assert a[i] in events && b[j] in events;
      assert a[i] == b[j];
      ChainAt(0, None, a, i);
      ChainAt(0, None, b, j);
      ChainPrefix(0, None, a, i);
      ChainPrefix(0, None, b, j);
      assert forall e :: e in Elements(a[..i]) ==> e in Elements(a);
      assert forall e :: e in Elements(b[..j]) ==> e in Elements(b);
      TipDeterminesLedger(a[..i], b[..j], events);
      assert a == a[..i] + [a[i]] && b == b[..j] + [b[j]];
    }
  }

  /** Own events chain on a ledger's head exactly when the ledger extended by them is a ledger. */
  lemma OwnExtends(incarnation: string, base: seq<Event>, own: seq<Event>)
    requires IsLedger(base)
    ensures ChainsOn(LedgerHead(incarnation, base), own) <==> IsLedger(base + own)
  {
    ChainConcat(0, None, base, own);
    if base != [] {
      ChainAt(0, None, base, |base| - 1);
    }
  }

  /** The guard lets an installation go on exactly from the ledger that the plan was made on, extended by some
      prefix of the author's own events. */
  lemma GuardExactly(incarnation: string, base: seq<Event>, own: seq<Event>, log: seq<Event>)
    requires IsLedger(base) && IsLedger(log) && ChainsOn(LedgerHead(incarnation, base), own)
    requires IdsIdentify(Elements(base) + Elements(own) + Elements(log))
    ensures IsAllowed(incarnation, LedgerHead(incarnation, base), own, LedgerHead(incarnation, log)) <==>
            exists k :: 0 <= k <= |own| && log == base + own[..k]
  {
    hide IdsIdentify, Chains;
    var all := Elements(base) + Elements(own) + Elements(log);
    var head, actual := LedgerHead(incarnation, base), LedgerHead(incarnation, log);
    OwnExtends(incarnation, base, own);
    if IsAllowed(incarnation, head, own, actual) {
      if actual == head {
        TipDeterminesLedger(log, base, all);
        assert log == base + own[..0];
      } else {
        var i :| 0 <= i < |own| && actual == Some(HeadOf(incarnation, own[i]));
        PrefixIsLedger(base, own, i + 1, all);
        TipDeterminesLedger(log, base + own[..i + 1], all);
      }
    }
    if k :| 0 <= k <= |own| && log == base + own[..k] {
      if k > 0 {
        assert log[|log| - 1] == own[k - 1];
      }
    }
  }

  lemma PrefixIsLedger(base: seq<Event>, own: seq<Event>, k: nat, events: set<Event>)
    requires IsLedger(base + own) && k <= |own| && Elements(base) <= events && Elements(own) <= events
    ensures IsLedger(base + own[..k]) && Elements(base + own[..k]) <= events
    ensures k > 0 ==> LastId(None, base + own[..k]) == Some(own[k - 1].core.id)
  {
    ChainPrefix(0, None, base + own, |base| + k);
    assert (base + own)[..|base| + k] == base + own[..k];
    forall e | e in Elements(base + own[..k]) ensures e in events {
      assert e in Elements(base) || e in Elements(own);
    }
  }

  // Ingesting.

  datatype Refusal = InvalidEvent | NotSorted | DuplicateInPage | Equivocation | SequenceGap

  predicate IsBefore(a: Event, b: Event) {
    a.core.sequence < b.core.sequence || (a.core.sequence == b.core.sequence && Less(a.core.id, b.core.id))
  }

  /** `_ordered_page`. */
  function PageFault(events: seq<Event>, verifies: Event -> bool): Option<Refusal> {
    if exists i :: 0 <= i < |events| && !verifies(events[i]) then Some(InvalidEvent)
    else if exists i :: 0 < i < |events| && IsBefore(events[i], events[i - 1]) then Some(NotSorted)
    else if exists i, j :: 0 <= i < j < |events| && events[i].core.id == events[j].core.id then Some(DuplicateInPage)
    else None
  }

  predicate HoldsId(log: seq<Event>, id: string) { exists i :: 0 <= i < |log| && log[i].core.id == id }

  predicate HoldsSequence(log: seq<Event>, sequence: nat) {
    exists i :: 0 <= i < |log| && log[i].core.sequence == sequence
  }

  function LastSequence(log: seq<Event>): nat { if log == [] then 0 else log[|log| - 1].core.sequence }

  /** The events that are missing from the ledger, given those staged already. */
  function Missing(log: seq<Event>, staged: seq<Event>, events: seq<Event>): Result<seq<Event>, Refusal>
    decreases events
  {
    if events == [] then Ok(staged)
    else
      var e := events[0];
      if HoldsId(log, e.core.id) then
        if e in log then Missing(log, staged, events[1..]) else Err(Equivocation)
      else if HoldsSequence(staged, e.core.sequence) || HoldsSequence(log, e.core.sequence) then Err(Equivocation)
      else if e.core.sequence != LastSequence(log + staged) + 1 || e.core.previous != LastId(None, log + staged)
      then Err(SequenceGap)
      else Missing(log, staged + [e], events[1..])
  }

  /** The ledger after `ingest`, which adds all missing events or none. */
  function Ingest(log: seq<Event>, events: seq<Event>, verifies: Event -> bool): Result<seq<Event>, Refusal> {
    if PageFault(events, verifies).Some? then Err(PageFault(events, verifies).value)
    else match Missing(log, [], events)
      case Err(r) => Err(r)
      case Ok(missing) => Ok(log + missing)
  }

  /** The events of a ledger stand at their sequence numbers and repeat no identifier. */
  lemma LedgerIsDistinct(log: seq<Event>, i: nat, j: nat)
    requires IsLedger(log) && IdsIdentify(Elements(log)) && i < |log| && j < |log|
    ensures log[i].core.sequence == i + 1
    ensures i != j ==> log[i].core.id != log[j].core.id && log[i].core.sequence != log[j].core.sequence
  {
    ChainAt(0, None, log, i);
    ChainAt(0, None, log, j);
    assert log[i] in Elements(log) && log[j] in Elements(log);
  }

  lemma OwnEventIsMissing(base: seq<Event>, own: seq<Event>, k: nat, i: nat)
    requires IsLedger(base + own) && IdsIdentify(Elements(base + own)) && k <= i < |own|
    ensures !HoldsId(base + own[..k], own[i].core.id)
    ensures !HoldsSequence(own[k..i], own[i].core.sequence) && !HoldsSequence(base + own[..k], own[i].core.sequence)
    ensures own[i].core.sequence == LastSequence(base + own[..k] + own[k..i]) + 1
    ensures own[i].core.previous == LastId(None, base + own[..k] + own[k..i])
  {
    hide Chains, IdsIdentify;
    var all, n := base + own, |base|;
    assert all[n + i] == own[i];
    forall j | 0 <= j < n + k
      ensures (base + own[..k])[j].core.id != own[i].core.id &&
          (base + own[..k])[j].core.sequence != own[i].core.sequence
    {
      assert (base + own[..k])[j] == all[j];
      LedgerIsDistinct(all, j, n + i);
    }
    forall j | 0 <= j < i - k ensures own[k..i][j].core.sequence != own[i].core.sequence {
      assert own[k..i][j] == all[n + k + j];
      LedgerIsDistinct(all, n + k + j, n + i);
    }
    assert base + own[..k] + own[k..i] == all[..n + i];
    ChainAt(0, None, all, n + i);
    if n + i > 0 {
      LedgerIsDistinct(all, n + i - 1, n + i);
    }
  }

  lemma {:induction false} MissingIsTheRest(base: seq<Event>, own: seq<Event>, k: nat, i: nat)
    requires IsLedger(base + own) && IdsIdentify(Elements(base + own)) && k <= |own| && i <= |own|
    ensures Missing(base + own[..k], if i < k then [] else own[k..i], own[i..]) == Ok(own[k..])
    decreases |own| - i
  {
    hide HoldsId, HoldsSequence, LastSequence, Chains, IdsIdentify;
    if i < |own| {
      assert own[i..][0] == own[i] && own[i..][1..] == own[i + 1..];
      MissingIsTheRest(base, own, k, i + 1);
      if i < k {
        assert (base + own[..k])[|base| + i] == own[i];
        assert HoldsId(base + own[..k], own[i].core.id) by {
          Holds(base + own[..k], |base| + i);
        }
        assert i + 1 == k ==> own[k..i + 1] == [];
      } else {
        OwnEventIsMissing(base, own, k, i);
        assert own[k..i] + [own[i]] == own[k..i + 1];
      }
    } else {
      assert own[i..] == [];
      assert own[k..i] == own[k..];
    }
  }

  lemma Holds(log: seq<Event>, i: nat)
    requires i < |log|
    ensures HoldsId(log, log[i].core.id)
  {
  }

  lemma OwnPageIsFine(base: seq<Event>, own: seq<Event>, verifies: Event -> bool)
    requires IsLedger(base + own) && IdsIdentify(Elements(base + own))
    requires forall i :: 0 <= i < |own| ==> verifies(own[i])
    ensures PageFault(own, verifies) == None
  {
    hide Chains, IdsIdentify;
    var all, n := base + own, |base|;
    forall i, j | 0 <= i < j < |own| ensures own[i].core.sequence < own[j].core.sequence &&
        own[i].core.id != own[j].core.id {
      assert all[n + i] == own[i] && all[n + j] == own[j];
      LedgerIsDistinct(all, n + i, n + j);
      LedgerIsDistinct(all, n + j, n + i);
    }
  }

  /** However much of the author's own history was taken in before, a retry passes the guard and ends with the
      same ledger. */
  lemma RetryCompletes(incarnation: string, base: seq<Event>, own: seq<Event>, k: nat, verifies: Event -> bool)
    requires IsLedger(base) && ChainsOn(LedgerHead(incarnation, base), own) && k <= |own|
    requires IdsIdentify(Elements(base) + Elements(own))
    requires forall i :: 0 <= i < |own| ==> verifies(own[i])
    ensures IsAllowed(incarnation, LedgerHead(incarnation, base), own, LedgerHead(incarnation, base + own[..k]))
    ensures Ingest(base + own[..k], own, verifies) == Ok(base + own)
  {
    hide Chains, PageFault, Missing;
    OwnExtends(incarnation, base, own);
    assert Elements(base + own) == Elements(base) + Elements(own);
    if k == 0 {
      assert base + own[..k] == base;
    } else {
      assert (base + own[..k])[|base| + k - 1] == own[k - 1];
    }
    OwnPageIsFine(base, own, verifies);
    MissingIsTheRest(base, own, k, 0);
    assert own[0..] == own && own[0..0] == [];
    assert base + own[..k] + own[k..] == base + own;
  }

  /** The local ledger as an installation changes it. */
  class Ledger {
    var log: seq<Event>

    /** `ingest`: all missing events are added in one transaction, or none. */
    method TakeIn(events: seq<Event>, verifies: Event -> bool) returns (refusal: Option<Refusal>)
      modifies this
      ensures match Ingest(old(log), events, verifies)
              case Ok(after) => refusal == None && log == after
              case Err(r) => refusal == Some(r) && log == old(log)
    {
      var fault := PageFault(events, verifies);
      if fault.Some? {
        return fault;
      }
      var staged := [];
      assert events[0..] == events;
      for i := 0 to |events|
        invariant log == old(log)
        invariant Missing(log, [], events) == Missing(log, staged, events[i..])
      {
        hide PageFault, LastSequence, HoldsId, HoldsSequence;
        var event := events[i];
        assert events[i..][0] == event && events[i..][1..] == events[i + 1..];
        if HoldsId(log, event.core.id) {
          if event !in log {
            return Some(Equivocation);
          }
        } else {
          if HoldsSequence(staged, event.core.sequence) || HoldsSequence(log, event.core.sequence) {
            return Some(Equivocation);
          }
          if event.core.sequence != LastSequence(log + staged) + 1 ||
              event.core.previous != LastId(None, log + staged) {
            return Some(SequenceGap);
          }
          staged := staged + [event];
        }
      }
      assert events[|events|..] == [];
      log := log + staged;
      refusal := None;
    }

    /** The part of `install_link` that touches the ledger: nothing happens on a head the plan does not know. */
    method Install(incarnation: string, base: Option<Head>, own: seq<Event>, verifies: Event -> bool)
      returns (headChanged: bool, refusal: Option<Refusal>)
      modifies this
      ensures headChanged <==> !IsAllowed(incarnation, base, own, LedgerHead(incarnation, old(log)))
      ensures headChanged ==> log == old(log) && refusal == None
      ensures !headChanged ==>
                match Ingest(old(log), own, verifies)
                case Ok(after) => refusal == None && log == after
                case Err(r) => refusal == Some(r) && log == old(log)
    {
      headChanged := !IsAllowed(incarnation, base, own, LedgerHead(incarnation, log));
      refusal := None;
      if !headChanged {
        refusal := TakeIn(own, verifies);
      }
    }
  }
}
