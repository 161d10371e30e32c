/** What a published decision or expiry says, field by field, and for which reason: every branch of the decision in
    terms of the command, the head and the clock alone. */
module Decisions {
  import opened Wrappers
  import opened Claims

  /** The head is an active claim whose lease has not run out. */
  predicate Holds(p: Option<Receipt>, now: Time) {
    && p.Some? && (p.value.body.state == InProgress || p.value.body.state == InReview)
    && p.value.body.leaseUntil.Some? && now < p.value.body.leaseUntil.value
  }

  /** The head is an active claim whose lease has run out. */
  predicate HasLapsed(p: Option<Receipt>, now: Time) {
    && p.Some? && (p.value.body.state == InProgress || p.value.body.state == InReview)
    && p.value.body.leaseUntil.Some? && p.value.body.leaseUntil.value <= now
  }

  /** The command's own time is within ten minutes of the clock. */
  predicate IsTimely(c: Command, now: Time) { -600_000_000 <= now - c.at <= 600_000_000 }

  predicate NamesHead(c: Command, p: Option<Receipt>) {
    match p
    case None => c.previousId == None && c.previousHash == None
    case Some(r) => c.previousId == Some(r.id) && c.previousHash == Some(r.hash)
  }

  /** The command passes everything that is checked before its action. */
  predicate IsHeard(rules: Rules, c: Command, p: Option<Receipt>, now: Time, conflict: Option<Reason>) {
    && IsTimely(c, now) && rules.issueResource(c.issue) in c.scope.resources && NamesHead(c, p)
    && conflict == None
  }

  predicate HasOwner(c: Command, held: Scope) {
    c.scope.principal == held.principal && c.scope.sessionId == held.sessionId
  }

  predicate HasTerms(c: Command, held: Scope) {
    c.scope.resources == held.resources && c.scope.branch == held.branch
  }

  predicate KeepsPullRequest(c: Command, held: Body) {
    c.action == Review && held.pullRequest != None ==> c.pullRequest == held.pullRequest
  }

  /** What the body says whatever was decided: it answers this command, on this issue and head, now. */
  predicate IsAnswerBody(c: Command, p: Option<Receipt>, now: Time, sha: string, b: Body) {
    && b.commandId == Some(c.commandId) && b.action == c.action && b.issue == c.issue
    && b.at == now && b.workflowSha == sha
    && b.previousId == (if p.Some? then Some(p.value.id) else None)
    && b.previousHash == (if p.Some? then Some(p.value.hash) else None)
  }

  /** The receipt has such a body, and is published under its digest. */
  predicate IsAnswer(rules: Rules, c: Command, p: Option<Receipt>, now: Time, sha: string, r: Receipt) {
    && IsAnswerBody(c, p, now, sha, r.body)
    && r.hash == rules.digest(r.body) && r.id == rules.prefix + r.hash
  }

  /** A rejection leaves everything as it is. */
  predicate LeavesAsIs(c: Command, p: Option<Receipt>, now: Time, b: Body) {
    && b.decision == Rejected && b.reason.Text() != "accepted"
    && match p
       case None => b.scope == c.scope && b.pullRequest == None && b.state == Ready && b.leaseUntil == None
       case Some(r) =>
         && b.scope == r.body.scope && b.pullRequest == r.body.pullRequest
         && if HasLapsed(p, now) then b.state == Ready && b.leaseUntil == None
            else b.state == r.body.state && b.leaseUntil == r.body.leaseUntil
  }

  /** The lease that a command asks for. */
  predicate HasNewLease(c: Command, now: Time, b: Body) {
    b.leaseUntil == Some(now + 1_000_000 * (if c.leaseSeconds == None then 0 else c.leaseSeconds.value))
  }

  /** An acceptance does what the command asks for. */
  predicate DoesAsAsked(c: Command, p: Option<Receipt>, now: Time, b: Body) {
    && b.decision == Accepted && b.reason.Text() == "accepted" && b.scope == c.scope
    && match c.action
       case Claim => b.state == InProgress && b.pullRequest == None && HasNewLease(c, now, b)
       case Heartbeat =>
         && p.Some? && b.state == p.value.body.state && b.pullRequest == p.value.body.pullRequest
         && HasNewLease(c, now, b)
       case Review => b.state == InReview && b.pullRequest == c.pullRequest && HasNewLease(c, now, b)
       case Release =>
         p.Some? && b.state == Ready && b.pullRequest == p.value.body.pullRequest && b.leaseUntil == None
       case Expire => false
  }

  /** When a heard command is accepted. */
  predicate IsDue(c: Command, p: Option<Receipt>, now: Time, issueReady: bool) {
    if c.action == Claim then !Holds(p, now) && issueReady
    else
      && Holds(p, now) && c.scope.claimId == p.value.body.scope.claimId && HasOwner(c, p.value.body.scope)
      && HasTerms(c, p.value.body.scope) && KeepsPullRequest(c, p.value.body)
  }

  /** Why a command is refused: every refusal has its own condition, and one of them holds unless it is accepted. */
  predicate HasReason(
    rules: Rules, c: Command, p: Option<Receipt>, now: Time, issueReady: bool, conflict: Option<Reason>, b: Body)
  {
    var heard, text := IsHeard(rules, c, p, now, conflict), b.reason.Text();
    && (!IsTimely(c, now) ==> text == "command_clock_skew")
    && (IsTimely(c, now) && rules.issueResource(c.issue) !in c.scope.resources ==> text == "missing_issue_resource")
    && (IsTimely(c, now) && rules.issueResource(c.issue) in c.scope.resources && !NamesHead(c, p) ==>
          text == "stale_receipt_head")
    && (IsHeard(rules, c, p, now, None) && conflict != None ==> b.reason == conflict.value)
    && (heard && c.action == Claim && Holds(p, now) ==> text == "already_claimed")
    && (heard && c.action == Claim && !Holds(p, now) && !issueReady ==> text == "issue_not_ready")
    && (heard && c.action != Claim && !Holds(p, now) ==> text == "no_live_claim")
    && (heard && c.action != Claim && Holds(p, now) ==> HasMismatch(c, p.value.body, text))
  }

  /** How the claim of a command differs from the one that the head holds. */
  predicate HasMismatch(c: Command, held: Body, text: string) {
    var sameClaim, sameOwner := c.scope.claimId == held.scope.claimId, HasOwner(c, held.scope);
    var sameTerms, samePull := HasTerms(c, held.scope), KeepsPullRequest(c, held);
    && (!sameClaim ==> text == "claim_id_mismatch")
    && (sameClaim && !sameOwner ==> text == "claimant_session_mismatch")
    && (sameClaim && sameOwner && !sameTerms ==> text == "claim_scope_changed")
    && (sameClaim && sameOwner && sameTerms && !samePull ==> text == "pull_request_changed")
  }

  lemma BodyAnswers(
    rules: Rules, c: Command, p: Option<Receipt>, now: Time, sha: string, issueReady: bool, conflict: Option<Reason>)
    ensures IsAnswerBody(c, p, now, sha, DecisionBody(rules, c, p, now, sha, issueReady, conflict))
  {
    hide DecisionReason;
  }

  lemma AnswersCommand(
    rules: Rules, c: Command, p: Option<Receipt>, now: Time, sha: string, issueReady: bool, conflict: Option<Reason>)
    requires DecideCommand(rules, c, p, now, sha, issueReady, conflict).Ok?
    ensures IsAnswer(rules, c, p, now, sha, DecideCommand(rules, c, p, now, sha, issueReady, conflict).value)
  {
    hide Defect, DecisionReason;
  }

  lemma GivesReason(
    rules: Rules, c: Command, p: Option<Receipt>, now: Time, sha: string, issueReady: bool, conflict: Option<Reason>)
    requires DecideCommand(rules, c, p, now, sha, issueReady, conflict).Ok?
    ensures var b := DecideCommand(rules, c, p, now, sha, issueReady, conflict).value.body;
            && HasReason(rules, c, p, now, issueReady, conflict, b)
            && (IsConflict(rules, conflict) ==>
                  (b.decision == Accepted <==> IsHeard(rules, c, p, now, conflict) && IsDue(c, p, now, issueReady)))
  {
    hide Defect;
  }

  lemma HasContents(
    rules: Rules, c: Command, p: Option<Receipt>, now: Time, sha: string, issueReady: bool, conflict: Option<Reason>)
    requires DecideCommand(rules, c, p, now, sha, issueReady, conflict).Ok?
    requires IsConflict(rules, conflict) && !c.action.Expire?
    ensures var b := DecideCommand(rules, c, p, now, sha, issueReady, conflict).value.body;
            if b.decision == Accepted then DoesAsAsked(c, p, now, b) else LeavesAsIs(c, p, now, b)
  {
    hide Defect, Reason.Text;
    OnlyAcceptedText(DecisionReason(rules, c, p, now, issueReady, conflict));
  }

  lemma OnlyAcceptedText(reason: Reason)
    ensures reason.Text() == "accepted" <==> reason.AcceptedReason?
  {
  }

  /** A decision, whatever the labels and the conflict: when it accepts, why it refuses, and what it says. */
  lemma DecisionExactly(
    rules: Rules, c: Command, p: Option<Receipt>, now: Time, sha: string, issueReady: bool, conflict: Option<Reason>)
    requires DecideCommand(rules, c, p, now, sha, issueReady, conflict).Ok?
    requires IsConflict(rules, conflict) && !c.action.Expire?
    ensures var r := DecideCommand(rules, c, p, now, sha, issueReady, conflict).value;
            && IsAnswer(rules, c, p, now, sha, r) && HasReason(rules, c, p, now, issueReady, conflict, r.body)
            && (r.body.decision == Accepted <==>
                  IsHeard(rules, c, p, now, conflict) && IsDue(c, p, now, issueReady))
            && if r.body.decision == Accepted then DoesAsAsked(c, p, now, r.body) else LeavesAsIs(c, p, now, r.body)
  {
    hide DecideCommand, IsAnswer, HasReason, IsHeard, IsDue, DoesAsAsked, LeavesAsIs;
    AnswersCommand(rules, c, p, now, sha, issueReady, conflict);
    GivesReason(rules, c, p, now, sha, issueReady, conflict);
    HasContents(rules, c, p, now, sha, issueReady, conflict);
  }

  /** What an expiry says: that the claim of the head is over, and nothing else. */
  predicate EndsClaim(rules: Rules, p: Receipt, now: Time, sha: string, r: Receipt) {
    && r.body.decision == Expired && r.body.action == Expire && r.body.reason.Text() == "lease_expired"
    && r.body.commandId == None && r.body.state == Ready && r.body.leaseUntil == None
    && r.body.scope == p.body.scope && r.body.issue == p.body.issue && r.body.pullRequest == p.body.pullRequest
    && r.body.at == now && r.body.workflowSha == sha
    && r.body.previousId == Some(p.id) && r.body.previousHash == Some(p.hash)
    && r.hash == rules.digest(r.body) && r.id == rules.prefix + r.hash
  }

  lemma ExpiryExactly(rules: Rules, p: Option<Receipt>, now: Time, sha: string)
    ensures ExpireIfDue(rules, p, now, sha) != None <==> HasLapsed(p, now)
    ensures HasLapsed(p, now) && ExpireIfDue(rules, p, now, sha).value.Ok? ==>
              EndsClaim(rules, p.value, now, sha, ExpireIfDue(rules, p, now, sha).value.value)
  {
    hide Defect;
  }

  // What validation asks for.

  predicate HasUsualNumbers(b: Body) {
    && 1 <= b.issue.number <= 9_007_199_254_740_991
    && (b.pullRequest != None ==> 1 <= b.pullRequest.value <= 9_007_199_254_740_991)
  }

  /** Active receipts have a lease of at most a day, and only they have one. */
  predicate HasUsualLease(b: Body) {
    if b.state == InProgress || b.state == InReview
    then b.leaseUntil != None && b.at < b.leaseUntil.value <= b.at + 86_400_000_000
    else b.leaseUntil == None
  }

  predicate HasUsualFields(rules: Rules, b: Body) {
    && rules.isRepository(b.issue.repository) && rules.isUuid(b.scope.claimId)
    && rules.isPrincipal(b.scope.principal) && rules.isSession(b.scope.sessionId) && rules.isBranch(b.scope.branch)
    && rules.areResources(b.scope.resources) && rules.issueResource(b.issue) in b.scope.resources
    && rules.isSha(b.workflowSha) && (b.reason.OtherReason? ==> rules.isReason(b.reason.text))
  }

  /** Which receipts are valid. */
  lemma ValidExactly(rules: Rules, r: Receipt)
    ensures ValidReceipt(rules, r) <==>
            var b := r.body;
            && r.hash == rules.digest(b) && r.id == rules.prefix + rules.digest(b)
            && HasUsualNumbers(b) && HasUsualLease(b) && HasUsualFields(rules, b)
            && (b.decision == Expired ==> b.action == Expire && b.state == Ready && b.commandId == None)
            && (b.decision != Expired ==> b.commandId != None && rules.isUuid(b.commandId.value))
            && (b.commandId != None ==> rules.isUuid(b.commandId.value))
            && (b.previousId == None <==> b.previousHash == None)
            && (b.previousId != None ==> b.previousId.value == rules.prefix + b.previousHash.value)
  {
  }
}
