/** The receipt logs that the handlers can write, and what every such log satisfies. */
module HandlerLogs {
  import opened Wrappers
  import opened Claims
  import opened ReceiptLog

  /** One call of the decision function. */
  datatype Call = Call(command: Command, now: Time, sha: string, issueReady: bool, conflict: Option<Reason>)

  ghost predicate Expires(rules: Rules, current: Option<Receipt>, r: Receipt, now: Time, sha: string) {
    current.Some? && current.value.body.at <= now && ExpireIfDue(rules, current, now, sha) == Some(Ok(r))
  }

  /** The handlers decide only after a due lease has been expired, on a clock that does not go back. */
  ghost predicate Decides(rules: Rules, issue: IssueRef, current: Option<Receipt>, r: Receipt, call: Call) {
    && ValidCommand(rules, call.command) && call.command.issue == issue && IsConflict(rules, call.conflict)
    && !Due(current, call.now) && (current.Some? ==> current.value.body.at <= call.now)
    && DecideCommand(rules, call.command, current, call.now, call.sha, call.issueReady, call.conflict) == Ok(r)
  }

  ghost predicate Step(rules: Rules, issue: IssueRef, current: Option<Receipt>, r: Receipt) {
    || (exists now: Time, sha: string :: Expires(rules, current, r, now, sha))
    || (exists call: Call :: Decides(rules, issue, current, r, call))
  }

  /** A log in which every receipt was written by a handler. */
  ghost predicate HandlerLog(rules: Rules, issue: IssueRef, rs: seq<Receipt>) {
    rs == [] ||
    (HandlerLog(rules, issue, rs[..|rs| - 1]) && Step(rules, issue, Last(rs[..|rs| - 1]), rs[|rs| - 1]))
  }

  /** A lease of between a minute and a day, counted from the receipt that grants it. */
  predicate Grants(r: Receipt) {
    r.body.leaseUntil.Some? &&
    r.body.at + 60 * SECOND <= r.body.leaseUntil.value <= r.body.at + MAX_LEASE
  }

  /** `r` continues the live claim `p`. */
  predicate Continues(p: Option<Receipt>, r: Receipt) {
    p.Some? && p.value.IsLive(r.body.at) && r.body.scope == p.value.body.scope
  }

  /** The lawful successors of a head. */
  predicate Follows(p: Option<Receipt>, r: Receipt) {
    match r.body.decision
    case Expired =>
      && p.Some? && Due(p, r.body.at) && r.body.state.Ready? && r.body.leaseUntil.None?
      && r.body.scope == p.value.body.scope && r.body.pullRequest == p.value.body.pullRequest
    case Rejected =>
      if p.None? then r.body.state.Ready? && r.body.leaseUntil.None? && r.body.pullRequest.None?
      else
        && (p.value.body.state.Active() ==> p.value.IsLive(r.body.at))
        && r.body.scope == p.value.body.scope && r.body.state == p.value.body.state
        && r.body.leaseUntil == p.value.body.leaseUntil && r.body.pullRequest == p.value.body.pullRequest
    case Accepted =>
      match r.body.action
      case Claim =>
        && (p.Some? ==> !p.value.body.state.Active())
        && r.body.state.InProgress? && Grants(r) && r.body.pullRequest.None?
      case Heartbeat =>
        && Continues(p, r) && Grants(r)
        && r.body.state == p.value.body.state && r.body.pullRequest == p.value.body.pullRequest
      case Review =>
        && Continues(p, r) && Grants(r) && r.body.state.InReview? && r.body.pullRequest.Some?
        && (p.value.body.pullRequest.Some? ==> r.body.pullRequest == p.value.body.pullRequest)
      case Release =>
        && Continues(p, r) && r.body.state.Ready? && r.body.leaseUntil.None?
        && r.body.pullRequest == p.value.body.pullRequest
      case Expire => false
  }

  lemma ActiveHasLease(rules: Rules, r: Receipt)
    requires ValidReceipt(rules, r)
    ensures r.body.state.Active() <==> r.body.leaseUntil.Some?
    ensures r.body.state.Active() ==> r.body.at < r.body.leaseUntil.value <= r.body.at + MAX_LEASE
  {

  }

  lemma ExpiryFollows(rules: Rules, issue: IssueRef, p: Option<Receipt>, r: Receipt, now: Time, sha: string)
    requires p.Some? ==> ValidReceipt(rules, p.value) && p.value.body.issue == issue
    requires Expires(rules, p, r, now, sha)
    ensures ValidReceipt(rules, r) && Linked(issue, p, r) && Follows(p, r)
  {
    hide Defect;
  }

  lemma DecisionFollows(rules: Rules, issue: IssueRef, p: Option<Receipt>, r: Receipt, call: Call)
    requires p.Some? ==> ValidReceipt(rules, p.value) && p.value.body.issue == issue
    requires Decides(rules, issue, p, r, call)
    ensures ValidReceipt(rules, r) && Linked(issue, p, r) && Follows(p, r)
  {
    hide Defect;
    if p.Some? {
      ActiveHasLease(rules, p.value);
    }
  }

  lemma AcceptedBody(
    rules: Rules, c: Command, p: Option<Receipt>, now: Time, sha: string, issueReady: bool, conflict: Option<Reason>)
    requires IsConflict(rules, conflict)
    ensures var b := DecisionBody(rules, c, p, now, sha, issueReady, conflict);
            && b.action == c.action && b.at == now && b.reason == DecisionReason(rules, c, p, now, issueReady, conflict)
            && (b.decision.Accepted? || b.decision.Rejected?)
            && (b.decision.Accepted? <==> DecisionReason(rules, c, p, now, issueReady, conflict) == AcceptedReason)
            && (b.decision.Accepted? ==> conflict.None? && b.scope == c.scope && c.previousId == IdOf(p))
  {
    hide SameClaim;
  }

  predicate AllValid(rules: Rules, rs: seq<Receipt>) {
    forall i :: 0 <= i < |rs| ==> ValidReceipt(rules, rs[i])
  }

  lemma StepFollows(rules: Rules, issue: IssueRef, rs: seq<Receipt>, r: Receipt)
    requires Chain(issue, rs) && AllValid(rules, rs) && Step(rules, issue, Last(rs), r)
    ensures ValidReceipt(rules, r) && Linked(issue, Last(rs), r) && Follows(Last(rs), r)
  {
    hide Defect, Follows, Decides, Expires;
    if exists now: Time, sha: string :: Expires(rules, Last(rs), r, now, sha) {
      var now: Time, sha: string :| Expires(rules, Last(rs), r, now, sha);
      ExpiryFollows(rules, issue, Last(rs), r, now, sha);
    } else {
      var call: Call :| Decides(rules, issue, Last(rs), r, call);
      DecisionFollows(rules, issue, Last(rs), r, call);
    }
  }

  /** A log in which every receipt lawfully follows the one before it. */
  predicate Lawful(rs: seq<Receipt>) {
    rs == [] || (Lawful(rs[..|rs| - 1]) && Follows(Last(rs[..|rs| - 1]), rs[|rs| - 1]))
  }

  /** The logs that the handlers write are valid, linked and lawful. */
  lemma {:induction false} LogIsLawful(rules: Rules, issue: IssueRef, rs: seq<Receipt>)
    requires HandlerLog(rules, issue, rs)
    ensures Chain(issue, rs) && AllValid(rules, rs) && AllAddressed(rules, rs) && Lawful(rs)
  {
    hide Defect, Follows, Step;
    if rs != [] {
      var front, r := rs[..|rs| - 1], rs[|rs| - 1];
      LogIsLawful(rules, issue, front);
      StepFollows(rules, issue, front, r);
      ValidIsAddressed(rules, r);
      assert forall i :: 0 <= i < |front| ==> rs[i] == front[i];
    }
  }

  lemma {:induction false} LawfulAt(rs: seq<Receipt>, i: nat)
    requires Lawful(rs) && i < |rs|
    ensures Follows(Before(rs, i), rs[i])
  {
    hide Follows;
    if i < |rs| - 1 {
      LawfulAt(rs[..|rs| - 1], i);
      assert Before(rs[..|rs| - 1], i) == Before(rs, i);
    }
  }

  // Episodes.

  predicate Opens(r: Receipt) { r.body.decision.Accepted? && r.body.action.Claim? }

  predicate Renews(r: Receipt) { r.body.decision.Accepted? && (r.body.action.Heartbeat? || r.body.action.Review?) }

  predicate Closes(r: Receipt) {
    r.body.decision.Expired? || (r.body.decision.Accepted? && r.body.action.Release?)
  }

  /** `rejection* (claim ...)`: what may be written while nobody holds the issue. */
  predicate Outside(rs: seq<Receipt>)
    decreases |rs|
  {
    rs == [] ||
    (rs[0].body.decision.Rejected? && Outside(rs[1..])) ||
    (Opens(rs[0]) && Inside(rs[1..]))
  }

  /** `(rejection | heartbeat | review)* ((release | expiry) ...)`: while somebody does. */
  predicate Inside(rs: seq<Receipt>)
    decreases |rs|
  {
    rs == [] ||
    ((rs[0].body.decision.Rejected? || Renews(rs[0])) && Inside(rs[1..])) ||
    (Closes(rs[0]) && Outside(rs[1..]))
  }

  predicate WellFormed(inside: bool, rs: seq<Receipt>) { if inside then Inside(rs) else Outside(rs) }

  /** Whether a log that starts inside, or outside, an episode ends inside one. */
  function EndsInside(inside: bool, rs: seq<Receipt>): bool
    decreases |rs|
  {
    if rs == [] then inside else EndsInside(Opens(rs[0]) || (inside && !Closes(rs[0])), rs[1..])
  }

  lemma {:induction false} EpisodesExtend(inside: bool, rs: seq<Receipt>, r: Receipt)
    requires WellFormed(inside, rs)
    requires r.body.decision.Rejected? || if EndsInside(inside, rs) then Renews(r) || Closes(r) else Opens(r)
    ensures WellFormed(inside, rs + [r])
    ensures EndsInside(inside, rs + [r]) <==> Opens(r) || (EndsInside(inside, rs) && !Closes(r))
    decreases |rs|
  {
    if rs == [] {
      assert (rs + [r])[1..] == [];
      assert Outside([]) && Inside([]);
    } else {
      var next := Opens(rs[0]) || (inside && !Closes(rs[0]));
      EpisodesExtend(next, rs[1..], r);
      assert (rs + [r])[1..] == rs[1..] + [r];
    }
  }

  /** A lawful log is a sequence of episodes with only rejections between them, and it is inside
      an episode exactly while its head is active. */
  lemma {:induction false} EpisodeStructure(rs: seq<Receipt>)
    requires Lawful(rs)
    ensures Outside(rs)
    ensures EndsInside(false, rs) <==> rs != [] && rs[|rs| - 1].body.state.Active()
  {
    hide Outside, Inside, EndsInside;
    if rs != [] {
      var front, r := rs[..|rs| - 1], rs[|rs| - 1];
      EpisodeStructure(front);
      EpisodesExtend(false, front, r);
      assert front + [r] == rs;
    } else {
      EmptyLog();
    }
  }

  lemma EmptyLog()
    ensures Outside([]) && !EndsInside(false, [])
  {
  }

  /** Starting from nothing, no issue is ever marked done. */
  lemma {:induction false} NeverDone(rs: seq<Receipt>, i: nat)
    requires Lawful(rs) && i < |rs|
    ensures !rs[i].body.state.Done?
  {
    hide Lawful;
    LawfulAt(rs, i);
    if i > 0 {
      NeverDone(rs, i - 1);
    }
  }

  // Ownership.

  /** No claim is accepted after position `i` up to position `j`. */
  predicate NoClaimIn(rs: seq<Receipt>, i: nat, j: nat)
    requires j < |rs|
  {
    forall k :: i < k <= j ==> !Opens(rs[k])
  }

  /** Between accepted claims nothing that identifies the claim changes, the pull request is
      written at most once, and a review never goes back to work in progress. */
  lemma {:induction false} OwnershipStable(rs: seq<Receipt>, i: nat, j: nat)
    requires Lawful(rs)
    requires i <= j < |rs| && NoClaimIn(rs, i, j)
    ensures rs[j].body.scope == rs[i].body.scope
    ensures rs[i].body.pullRequest.Some? ==> rs[j].body.pullRequest == rs[i].body.pullRequest
    ensures !rs[i].body.state.InProgress? ==> !rs[j].body.state.InProgress?
  {
    hide Lawful;
    if i < j {
      OwnershipStable(rs, i, j - 1);
      LawfulAt(rs, j);
    }
  }

  /** A log in review always names its pull request. */
  lemma {:induction false} ReviewNamesPullRequest(rs: seq<Receipt>, j: nat)
    requires Lawful(rs) && j < |rs| && rs[j].body.state.InReview?
    ensures rs[j].body.pullRequest.Some?
  {
    hide Lawful;
    LawfulAt(rs, j);
    if j > 0 && rs[j - 1].body.state.InReview? {
      ReviewNamesPullRequest(rs, j - 1);
    }
  }

  // Leases.

  /** The receipts after position `i` up to position `j` are rejections. */
  predicate OnlyRejectedIn(rs: seq<Receipt>, i: nat, j: nat)
    requires j < |rs|
  {
    forall k :: i < k <= j ==> rs[k].body.decision.Rejected?
  }

  /** The lease of position `j` was granted at position `i` by an accepted claim, heartbeat or
      review, and only rejections, which copied it, were written since. */
  predicate GrantedAt(rs: seq<Receipt>, i: nat, j: nat)
    requires i <= j < |rs|
  {
    && OnlyRejectedIn(rs, i, j) && (Opens(rs[i]) || Renews(rs[i])) && Grants(rs[i])
    && rs[j].body.leaseUntil == rs[i].body.leaseUntil && rs[j].body.state == rs[i].body.state
  }

  /** An active lease was granted, for at most a day, by the last acceptance in the log. */
  lemma {:induction false} LeaseProvenance(rs: seq<Receipt>, j: nat)
    requires Lawful(rs) && j < |rs| && rs[j].body.state.Active()
    ensures exists i: nat :: i <= j && GrantedAt(rs, i, j)
  {
    hide Lawful;
    LawfulAt(rs, j);
    if rs[j].body.decision.Rejected? {
      LeaseProvenance(rs, j - 1);
      var i: nat :| i <= j - 1 && GrantedAt(rs, i, j - 1);
      assert GrantedAt(rs, i, j);
    } else {
      assert GrantedAt(rs, j, j);
    }
  }

  /** Exactly the active receipts carry a lease, so none is in force when a claim is accepted. */
  lemma {:induction false} ClaimFindsNoLease(rs: seq<Receipt>, j: nat)
    requires Lawful(rs) && j < |rs|
    ensures rs[j].body.state.Active() <==> rs[j].body.leaseUntil.Some?
    ensures Opens(rs[j]) && j > 0 ==> rs[j - 1].body.leaseUntil.None?
  {
    hide Lawful;
    LawfulAt(rs, j);
    if j > 0 {
      ClaimFindsNoLease(rs, j - 1);
    }
  }

  /** Position `k` ends the claim held before it, by release or after its last lease ran out. */
  predicate EndsAt(rs: seq<Receipt>, k: nat)
    requires 0 < k < |rs|
  {
    && Closes(rs[k]) && rs[k - 1].body.state.Active()
    && (rs[k].body.decision.Expired? ==> !rs[k - 1].IsLive(rs[k].body.at))
  }

  /** Between two accepted claims the first one was ended. */
  lemma {:induction false} ClaimsAreSeparated(rs: seq<Receipt>, i: nat, j: nat)
    requires Lawful(rs) && i < j < |rs| && rs[i].body.state.Active() && Opens(rs[j])
    ensures exists k: nat :: i < k < j && EndsAt(rs, k)
    decreases j - i
  {
    hide Lawful;
    LawfulAt(rs, i + 1);
    LawfulAt(rs, j);
    if Closes(rs[i + 1]) {
      assert EndsAt(rs, i + 1);
    } else {
      ClaimsAreSeparated(rs, i + 1, j);
    }
  }

  // Growing logs.

  lemma LogExtends(rules: Rules, issue: IssueRef, rs: seq<Receipt>, r: Receipt)
    requires HandlerLog(rules, issue, rs) && Step(rules, issue, Last(rs), r)
    ensures HandlerLog(rules, issue, rs + [r]) && Last(rs + [r]) == Some(r)
  {
    hide Step;
    assert (rs + [r])[..|rs|] == rs;
  }

  // Replays.

  /** A head never comes back, so a command that named a head of the past is always refused. */
  lemma ReplayIsStale(
    rules: Rules, issue: IssueRef, rs: seq<Receipt>, n: nat,
    c: Command, now: Time, issueReady: bool, conflict: Option<Reason>)
    requires rules.CollisionFree() && Chain(issue, rs) && AllAddressed(rules, rs) && n < |rs|
    requires rules.issueResource(c.issue) in c.scope.resources && c.previousId == IdOf(Before(rs, n))
    ensures DecisionReason(rules, c, Last(rs), now, issueReady, conflict) ==
              if now - c.at > MAX_CLOCK_SKEW || c.at - now > MAX_CLOCK_SKEW then CommandClockSkew
              else StaleReceiptHead
  {
    if n > 0 {
      ChainIdsDistinct(rules, issue, rs, n - 1, |rs| - 1);
    }
  }

  /** Once a command was accepted after `early`, every decision on it after more of the log is a
      rejection, for its clock or for naming a head of the past. */
  lemma ReplayIsRejected(
    rules: Rules, issue: IssueRef, early: seq<Receipt>, first: Body, late: seq<Receipt>, again: Body,
    c: Command, call: Call, call': Call)
    requires rules.CollisionFree() && Chain(issue, late) && AllAddressed(rules, late) && early < late
    requires ValidCommand(rules, c) && IsConflict(rules, call.conflict) && IsConflict(rules, call'.conflict)
    requires first == DecisionBody(rules, c, Last(early), call.now, call.sha, call.issueReady, call.conflict)
    requires first.decision.Accepted?
    requires again == DecisionBody(rules, c, Last(late), call'.now, call'.sha, call'.issueReady, call'.conflict)
    ensures again.decision.Rejected?
    ensures again.reason == if call'.now - c.at > MAX_CLOCK_SKEW || c.at - call'.now > MAX_CLOCK_SKEW
                            then CommandClockSkew else StaleReceiptHead
  {
    hide DecisionBody, DecisionReason, IsConflict;
    AcceptedBody(rules, c, Last(early), call.now, call.sha, call.issueReady, call.conflict);
    AcceptedBody(rules, c, Last(late), call'.now, call'.sha, call'.issueReady, call'.conflict);
    assert Before(late, |early|) == Last(early);
    ReplayIsStale(rules, issue, late, |early|, c, call'.now, call'.issueReady, call'.conflict);
  }
}
