/** Signed claim commands, content-addressed receipts, and the transition function that
    turns the current receipt and a command into the next receipt. */
module Claims {
  import opened Wrappers
  import TextFormats
  import Decimal

  /** Microseconds on the trusted UTC clock. */
  type Time = int

  const SECOND: int := 1_000_000
  const MAX_LEASE_SECONDS: int := 24 * 60 * 60
  const MAX_LEASE: int := MAX_LEASE_SECONDS * SECOND
  const MAX_CLOCK_SKEW: int := 10 * 60 * SECOND
  const MAX_SAFE_INTEGER: int := 0x1F_FFFF_FFFF_FFFF

  datatype State = Ready | InProgress | InReview | Done {
    predicate Active() { InProgress? || InReview? }
  }

  datatype Action = Claim | Heartbeat | Review | Release | Expire

  datatype Decision = Accepted | Rejected | Expired

  /** The texts of the reasons that the protocol itself gives. */
  const REASON_TEXTS := [
    "accepted", "command_clock_skew", "missing_issue_resource", "stale_receipt_head", "already_claimed",
    "issue_not_ready", "no_live_claim", "claim_id_mismatch", "claimant_session_mismatch", "claim_scope_changed",
    "pull_request_changed", "lease_expired", "dependency_blocked", "resource_state_unavailable", "resource_conflict"]

  /** Any other text, so that every text is the text of exactly one reason. */
  type OtherText = t: string | t !in REASON_TEXTS witness ""

  datatype Reason =
    | AcceptedReason | CommandClockSkew | MissingIssueResource | StaleReceiptHead | AlreadyClaimed | IssueNotReady
    | NoLiveClaim | ClaimIdMismatch | ClaimantSessionMismatch | ClaimScopeChanged | PullRequestChanged
    | LeaseExpired | DependencyBlocked | ResourceStateUnavailable | ResourceConflicting | OtherReason(text: OtherText)
  {
    function Text(): string {
      match this
      case AcceptedReason => "accepted"
      case CommandClockSkew => "command_clock_skew"
      case MissingIssueResource => "missing_issue_resource"
      case StaleReceiptHead => "stale_receipt_head"
      case AlreadyClaimed => "already_claimed"
      case IssueNotReady => "issue_not_ready"
      case NoLiveClaim => "no_live_claim"
      case ClaimIdMismatch => "claim_id_mismatch"
      case ClaimantSessionMismatch => "claimant_session_mismatch"
      case ClaimScopeChanged => "claim_scope_changed"
      case PullRequestChanged => "pull_request_changed"
      case LeaseExpired => "lease_expired"
      case DependencyBlocked => "dependency_blocked"
      case ResourceStateUnavailable => "resource_state_unavailable"
      case ResourceConflicting => "resource_conflict"
      case OtherReason(text) => text
    }
  }

  datatype IssueRef = IssueRef(repository: string, number: int)

  /** What a receipt says about the claim itself, as opposed to its progress. */
  datatype Scope = Scope(
    claimId: string, principal: string, sessionId: string, resources: seq<string>, branch: string)
  {
    predicate SameOwner(other: Scope) {
      principal == other.principal && sessionId == other.sessionId
    }

    predicate Disjoint(other: Scope) {
      forall r :: r in resources ==> r !in other.resources
    }
  }

  datatype Command = Command(
    commandId: string, action: Action, scope: Scope, issue: IssueRef, at: Time,
    leaseSeconds: Option<int>, pullRequest: Option<int>,
    previousId: Option<string>, previousHash: Option<string>)

  datatype Body = Body(
    decision: Decision, action: Action, reason: Reason, commandId: Option<string>,
    scope: Scope, issue: IssueRef, state: State, at: Time, leaseUntil: Option<Time>,
    pullRequest: Option<int>, previousId: Option<string>, previousHash: Option<string>,
    workflowSha: string)

  /** A receipt: a closed body with the identifier and the hash it is published under. */
  datatype Receipt = Receipt(body: Body, id: string, hash: string) {
    predicate IsLive(now: Time) {
      body.state.Active() && body.leaseUntil.Some? && body.leaseUntil.value > now
    }
  }

  /** Everything about the texts of the protocol: the hash of a receipt body, the prefix of receipt
      identifiers, the resource that names an issue, and the formats of the fields. Nothing below
      depends on what the formats accept. */
  datatype Rules = Rules(
    digest: Body -> string, prefix: string, issueResource: IssueRef -> string,
    isUuid: string -> bool, isPrincipal: string -> bool, isSession: string -> bool, isReason: string -> bool,
    areResources: seq<string> -> bool, isBranch: string -> bool, isRepository: string -> bool, isSha: string -> bool)
  {
    /** The one assumption made about the hash: different bodies have different digests. */
    ghost predicate CollisionFree() {
      forall a: Body, b: Body :: digest(a) == digest(b) ==> a == b
    }

    function Id(hash: string): string { prefix + hash }
  }

  function IssueResource(issue: IssueRef): string {
    "issue:" + issue.repository + "#" + Decimal.OfInt(issue.number)
  }

  /** The texts of the published protocol, for a given hash. */
  function PublishedRules(digest: Body -> string): Rules {
    Rules(digest, "dm:claim-receipt:v0:", IssueResource,
          TextFormats.IsUuid4, TextFormats.IsPrincipal, TextFormats.IsSession, TextFormats.IsReason,
          TextFormats.AreResources, TextFormats.IsBranch, TextFormats.IsRepository, TextFormats.IsSha)
  }

  predicate IsSafeInteger(n: int) { -MAX_SAFE_INTEGER <= n <= MAX_SAFE_INTEGER }

  predicate IsPositive(n: int) { 1 <= n && IsSafeInteger(n) }

  predicate IsIssue(rules: Rules, issue: IssueRef) {
    rules.isRepository(issue.repository) && IsPositive(issue.number)
  }

  predicate AreResources(rules: Rules, rs: seq<string>, issue: IssueRef) {
    rules.areResources(rs) && rules.issueResource(issue) in rs
  }

  predicate IsReference(rules: Rules, id: Option<string>, hash: Option<string>) {
    (id.None? && hash.None?) || (id.Some? && hash.Some? && id.value == rules.Id(hash.value))
  }

  predicate IsReason(rules: Rules, reason: Reason) {
    reason.OtherReason? ==> rules.isReason(reason.text)
  }

  predicate IsScope(rules: Rules, s: Scope, issue: IssueRef) {
    rules.isUuid(s.claimId) && rules.isPrincipal(s.principal) && rules.isSession(s.sessionId) &&
    AreResources(rules, s.resources, issue) && rules.isBranch(s.branch)
  }

  /** What every command that passed `validate_command` satisfies. */
  predicate ValidCommand(rules: Rules, c: Command) {
    !c.action.Expire? && rules.isUuid(c.commandId) && IsIssue(rules, c.issue) && IsScope(rules, c.scope, c.issue) &&
    |c.scope.principal| <= 128 && IsReference(rules, c.previousId, c.previousHash) &&
    (if c.action.Release? then c.leaseSeconds.None?
     else c.leaseSeconds.Some? && 60 <= c.leaseSeconds.value <= MAX_LEASE_SECONDS) &&
    (if c.action.Review? then c.pullRequest.Some? && IsPositive(c.pullRequest.value)
     else c.pullRequest.None?)
  }

  /** The rules a receipt can break, in the order they are checked. */
  datatype Fault =
    | UnsafeInteger | DigestMismatch | MalformedIssue | MalformedPrincipal | MalformedSession | MalformedReason
    | InvalidLease | LeaseAfterEnd | MalformedExpiry | MissingCommand | MalformedCommandId | MalformedPredecessor
    | MalformedResources | MalformedBranch | MalformedPullRequest | MalformedWorkflow | MalformedClaimId

  /** The first rule of `validate_receipt` that a receipt breaks. */
  function Defect(rules: Rules, r: Receipt): Option<Fault> {
    var b := r.body;
    if !IsSafeInteger(b.issue.number) || (b.pullRequest.Some? && !IsSafeInteger(b.pullRequest.value)) then
      Some(UnsafeInteger)
    else if r.hash != rules.digest(b) || r.id != rules.Id(rules.digest(b)) then Some(DigestMismatch)
    else if !IsIssue(rules, b.issue) then Some(MalformedIssue)
    else if !rules.isPrincipal(b.scope.principal) then Some(MalformedPrincipal)
    else if !rules.isSession(b.scope.sessionId) then Some(MalformedSession)
    else if !IsReason(rules, b.reason) then Some(MalformedReason)
    else if b.state.Active() &&
            (b.leaseUntil.None? || b.leaseUntil.value <= b.at || b.leaseUntil.value - b.at > MAX_LEASE) then
      Some(InvalidLease)
    else if !b.state.Active() && b.leaseUntil.Some? then Some(LeaseAfterEnd)
    else if b.decision.Expired? && (!b.action.Expire? || !b.state.Ready? || b.commandId.Some?) then
      Some(MalformedExpiry)
    else if !b.decision.Expired? && b.commandId.None? then Some(MissingCommand)
    else if b.commandId.Some? && !rules.isUuid(b.commandId.value) then Some(MalformedCommandId)
    else if !IsReference(rules, b.previousId, b.previousHash) then Some(MalformedPredecessor)
    else if !AreResources(rules, b.scope.resources, b.issue) then Some(MalformedResources)
    else if !rules.isBranch(b.scope.branch) then Some(MalformedBranch)
    else if b.pullRequest.Some? && b.pullRequest.value < 1 then Some(MalformedPullRequest)
    else if !rules.isSha(b.workflowSha) then Some(MalformedWorkflow)
    else if !rules.isUuid(b.scope.claimId) then Some(MalformedClaimId)
    else None
  }

  predicate ValidReceipt(rules: Rules, r: Receipt) { Defect(rules, r).None? }

  function ValidateReceipt(rules: Rules, raw: Receipt): Result<Receipt, Fault> {
    var defect := Defect(rules, raw);
    if defect.Some? then Err(defect.value) else Ok(raw)
  }

  function BuildReceipt(rules: Rules, body: Body): Result<Receipt, Fault> {
    ValidateReceipt(rules, Receipt(body, rules.Id(rules.digest(body)), rules.digest(body)))
  }

  function SameClaim(c: Command, current: Receipt): Option<Reason> {
    var s := current.body.scope;
    if c.scope.claimId != s.claimId then Some(ClaimIdMismatch)
    else if !c.scope.SameOwner(s) then Some(ClaimantSessionMismatch)
    else if c.scope.resources != s.resources || c.scope.branch != s.branch then Some(ClaimScopeChanged)
    else if c.action.Review? && current.body.pullRequest.Some? && c.pullRequest != current.body.pullRequest then
      Some(PullRequestChanged)
    else None
  }

  /** The identifier, or the hash, of the receipt a successor must name. */
  function IdOf(current: Option<Receipt>): Option<string> {
    if current.Some? then Some(current.value.id) else None
  }

  function HashOf(current: Option<Receipt>): Option<string> {
    if current.Some? then Some(current.value.hash) else None
  }

  function ReceiptBody(
    command: Option<Command>, current: Option<Receipt>, issue: IssueRef, now: Time, sha: string,
    decision: Decision, action: Action, reason: Reason, state: State, leaseUntil: Option<Time>): Body
    requires command.Some? || current.Some?
  {
    var scope := if (decision.Rejected? && current.Some?) || command.None? then current.value.body.scope
                 else command.value.scope;
    var kept := if current.Some? then current.value.body.pullRequest else None;
    var pullRequest := if decision.Accepted? && command.Some? && command.value.action.Claim? then None
                       else if decision.Accepted? && command.Some? && command.value.action.Review?
                       then command.value.pullRequest
                       else kept;
    Body(decision, action, reason, if command.Some? then Some(command.value.commandId) else None,
         scope, issue, state, now, leaseUntil, pullRequest, IdOf(current), HashOf(current), sha)
  }

  /** An active receipt whose lease has run out. */
  predicate Due(current: Option<Receipt>, now: Time) {
    current.Some? && current.value.body.state.Active() &&
    current.value.body.leaseUntil.Some? && current.value.body.leaseUntil.value <= now
  }

  function ExpireIfDue(rules: Rules, current: Option<Receipt>, now: Time, sha: string): Option<Result<Receipt, Fault>> {
    if !Due(current, now) then None
    else Some(BuildReceipt(rules, ReceiptBody(None, current, current.value.body.issue, now, sha,
                                              Expired, Expire, LeaseExpired, Ready, None)))
  }

  function DecisionReason(
    rules: Rules, c: Command, current: Option<Receipt>, now: Time, issueReady: bool, conflict: Option<Reason>): Reason
  {
    if now - c.at > MAX_CLOCK_SKEW || c.at - now > MAX_CLOCK_SKEW then CommandClockSkew
    else if rules.issueResource(c.issue) !in c.scope.resources then MissingIssueResource
    else if c.previousId != IdOf(current) || c.previousHash != HashOf(current) then StaleReceiptHead
    else if conflict.Some? then conflict.value
    else if c.action.Claim? then
      if current.Some? && current.value.IsLive(now) then AlreadyClaimed
      else if !issueReady then IssueNotReady
      else AcceptedReason
    else if current.None? || !current.value.IsLive(now) then NoLiveClaim
    else
      var mismatch := SameClaim(c, current.value);
      if mismatch.Some? then mismatch.value else AcceptedReason
  }

  function NewLease(c: Command, now: Time): Option<Time> {
    Some(now + (if c.leaseSeconds.Some? then c.leaseSeconds.value else 0) * SECOND)
  }

  function DecisionBody(
    rules: Rules, c: Command, current: Option<Receipt>, now: Time, sha: string,
    issueReady: bool, conflict: Option<Reason>): Body
  {
    var reason := DecisionReason(rules, c, current, now, issueReady, conflict);
    if !reason.AcceptedReason? then
      var lost := current.None? || Due(current, now);
      ReceiptBody(Some(c), current, c.issue, now, sha, Rejected, c.action, reason,
                  if lost then Ready else current.value.body.state,
                  if lost then None else current.value.body.leaseUntil)
    else
      var state := if c.action.Release? then Ready
                   else if c.action.Review? then InReview
                   else if c.action.Heartbeat? && current.Some? then current.value.body.state
                   else InProgress;
      ReceiptBody(Some(c), current, c.issue, now, sha, Accepted, c.action, AcceptedReason, state,
                  if c.action.Release? then None else NewLease(c, now))
  }

  function DecideCommand(
    rules: Rules, c: Command, current: Option<Receipt>, now: Time, sha: string,
    issueReady: bool, conflict: Option<Reason>): Result<Receipt, Fault>
  {
    BuildReceipt(rules, DecisionBody(rules, c, current, now, sha, issueReady, conflict))
  }

  /** The receipt is published under the digest of its body. */
  predicate Addressed(rules: Rules, r: Receipt) {
    r.hash == rules.digest(r.body) && r.id == rules.Id(r.hash)
  }

  lemma ValidIsAddressed(rules: Rules, r: Receipt)
    requires ValidReceipt(rules, r)
    ensures Addressed(rules, r)
  {
  }

  // Every call is answered.

  lemma ClaimReasonTexts(reason: Reason)
    requires reason in {AcceptedReason, CommandClockSkew, MissingIssueResource, StaleReceiptHead, AlreadyClaimed}
    ensures TextFormats.IsReason(reason.Text())
  {
    match reason
    case AcceptedReason =>
    case CommandClockSkew =>
    case MissingIssueResource =>
    case StaleReceiptHead =>
    case AlreadyClaimed =>
  }

  lemma HolderReasonTexts(reason: Reason)
    requires reason in {IssueNotReady, NoLiveClaim, ClaimIdMismatch, ClaimantSessionMismatch, ClaimScopeChanged}
    ensures TextFormats.IsReason(reason.Text())
  {
    match reason
    case IssueNotReady =>
    case NoLiveClaim =>
    case ClaimIdMismatch =>
    case ClaimantSessionMismatch =>
    case ClaimScopeChanged =>
  }

  lemma OtherReasonTexts(reason: Reason)
    requires reason in {PullRequestChanged, LeaseExpired, DependencyBlocked, ResourceStateUnavailable,
        ResourceConflicting}
    ensures TextFormats.IsReason(reason.Text())
  {
    match reason
    case PullRequestChanged =>
    case LeaseExpired =>
    case DependencyBlocked =>
    case ResourceStateUnavailable =>
    case ResourceConflicting =>
  }

  /** The texts of the protocol's own reasons are well formed. */
  lemma {:induction false} ReasonTexts(reason: Reason)
    requires !reason.OtherReason?
    ensures TextFormats.IsReason(reason.Text())
  {
    if reason in {AcceptedReason, CommandClockSkew, MissingIssueResource, StaleReceiptHead, AlreadyClaimed} {
      ClaimReasonTexts(reason);
    } else if reason in {IssueNotReady, NoLiveClaim, ClaimIdMismatch, ClaimantSessionMismatch, ClaimScopeChanged} {
      HolderReasonTexts(reason);
    } else {
      OtherReasonTexts(reason);
    }
  }

  /** A reason that a caller may pass in to refuse a command. */
  predicate IsConflict(rules: Rules, conflict: Option<Reason>) {
    conflict.Some? ==> IsReason(rules, conflict.value) && !conflict.value.AcceptedReason?
  }

  /** Expiry of a due receipt never fails. */
  lemma ExpiryTotal(rules: Rules, current: Receipt, now: Time, sha: string)
    requires ValidReceipt(rules, current) && rules.isSha(sha)
    ensures ExpireIfDue(rules, Some(current), now, sha).Some? <==> current.body.state.Active() && !current.IsLive(now)
    ensures ExpireIfDue(rules, Some(current), now, sha).Some? ==>
              ExpireIfDue(rules, Some(current), now, sha).value.Ok?
  {
  }

  /** A rejection copies the lease of a receipt that is still live. */
  predicate CopiesLease(
    rules: Rules, c: Command, current: Option<Receipt>, now: Time, issueReady: bool, conflict: Option<Reason>)
  {
    !DecisionReason(rules, c, current, now, issueReady, conflict).AcceptedReason? &&
    current.Some? && current.value.IsLive(now)
  }

  /** Exactly when a decision can be published: always, except that a rejection cannot copy a
      lease that reaches further than a day past the decision. */
  lemma DecisionTotalExactly(
    rules: Rules, c: Command, current: Option<Receipt>, now: Time, sha: string,
    issueReady: bool, conflict: Option<Reason>)
    requires ValidCommand(rules, c) && rules.isSha(sha) && IsConflict(rules, conflict)
    requires current.Some? ==> ValidReceipt(rules, current.value) && current.value.body.issue == c.issue
    ensures DecideCommand(rules, c, current, now, sha, issueReady, conflict).Ok? <==>
              (CopiesLease(rules, c, current, now, issueReady, conflict) ==>
                 current.value.body.leaseUntil.value - now <= MAX_LEASE)
  {
  }

  /** The exception is real: one microsecond before the time of a head with a full day's lease, no rejection can be
      published. */
  lemma EarlyRejectionFails(
    rules: Rules, c: Command, current: Receipt, sha: string, issueReady: bool, conflict: Option<Reason>)
    requires ValidCommand(rules, c) && rules.isSha(sha) && IsConflict(rules, conflict)
    requires ValidReceipt(rules, current) && current.body.issue == c.issue
    requires current.body.state.Active() && current.body.leaseUntil == Some(current.body.at + MAX_LEASE)
    requires !DecisionReason(rules, c, Some(current), current.body.at - 1, issueReady, conflict).AcceptedReason?
    ensures DecideCommand(rules, c, Some(current), current.body.at - 1, sha, issueReady, conflict) == Err(InvalidLease)
  {
  }

  /** On a clock that does not go back, every validated command gets a receipt. */
  lemma DecisionTotal(
    rules: Rules, c: Command, current: Option<Receipt>, now: Time, sha: string,
    issueReady: bool, conflict: Option<Reason>)
    requires ValidCommand(rules, c) && rules.isSha(sha) && IsConflict(rules, conflict)
    requires current.Some? ==> ValidReceipt(rules, current.value) && current.value.body.issue == c.issue
    requires current.Some? ==> current.value.body.at <= now
    ensures DecideCommand(rules, c, current, now, sha, issueReady, conflict).Ok?
  {
    DecisionTotalExactly(rules, c, current, now, sha, issueReady, conflict);
  }
}
