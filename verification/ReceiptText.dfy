/**
 * The canonical text that a receipt is hashed from. Different bodies have different texts, so a digest of that text is
 * collision-free on bodies exactly when the hash is on the texts.
 */
module ReceiptText {
  import opened AsciiText
  import opened CanonicalJson
  import opened Claims
  import opened JsonRoundTrip
  import opened Wrappers

  /** The fields of a receipt body. */
  datatype Field =
    | Schema | DecisionField | ActionField | ReasonField | CommandId | ClaimId | Issue | PrincipalField | SessionId
    | StateField | At | LeaseUntil | Resources | Branch | PullRequest | PreviousId | PreviousHash | WorkflowSha

  function Name(f: Field): string {
    match f
    case Schema => "schema"
    case DecisionField => "decision"
    case ActionField => "action"
    case ReasonField => "reason"
    case CommandId => "command_id"
    case ClaimId => "claim_id"
    case Issue => "issue"
    case PrincipalField => "principal"
    case SessionId => "session_id"
    case StateField => "state"
    case At => "at"
    case LeaseUntil => "lease_until"
    case Resources => "resources"
    case Branch => "branch"
    case PullRequest => "pull_request"
    case PreviousId => "previous_receipt_id"
    case PreviousHash => "previous_receipt_hash"
    case WorkflowSha => "workflow_sha"
  }

  /** Length and first letter tell the names apart. */
  function NameShape(f: Field): (int, char) {
    match f
    case Schema => (6, 's')
    case DecisionField => (8, 'd')
    case ActionField => (6, 'a')
    case ReasonField => (6, 'r')
    case CommandId => (10, 'c')
    case ClaimId => (8, 'c')
    case Issue => (5, 'i')
    case PrincipalField => (9, 'p')
    case SessionId => (10, 's')
    case StateField => (5, 's')
    case At => (2, 'a')
    case LeaseUntil => (11, 'l')
    case Resources => (9, 'r')
    case Branch => (6, 'b')
    case PullRequest => (12, 'p')
    case PreviousId => (19, 'p')
    case PreviousHash => (21, 'p')
    case WorkflowSha => (12, 'w')
  }

  lemma NameHasShape(f: Field)
    ensures Name(f) != "" && (|Name(f)|, Name(f)[0]) == NameShape(f)
  {
  }

  lemma NamesDiffer()
    ensures forall f, g :: Name(f) == Name(g) ==> f == g
  {
    hide Name;
    forall f, g | Name(f) == Name(g) ensures f == g {
      NameHasShape(f);
      NameHasShape(g);
    }
  }

  function Names(): set<string> { set f: Field | true :: Name(f) }

  function FieldNamed(name: string): (f: Field)
    requires name in Names()
    ensures Name(f) == name
  {
    NamesDiffer();
    var f: Field :| Name(f) == name;
    f
  }

  // Reasons.

  function ReasonShape(r: Reason): (int, char)
    requires !r.OtherReason?
  {
    match r
    case AcceptedReason => (8, 'a')
    case CommandClockSkew => (18, 'c')
    case MissingIssueResource => (22, 'm')
    case StaleReceiptHead => (18, 's')
    case AlreadyClaimed => (15, 'a')
    case IssueNotReady => (15, 'i')
    case NoLiveClaim => (13, 'n')
    case ClaimIdMismatch => (17, 'c')
    case ClaimantSessionMismatch => (25, 'c')
    case ClaimScopeChanged => (19, 'c')
    case PullRequestChanged => (20, 'p')
    case LeaseExpired => (13, 'l')
    case DependencyBlocked => (18, 'd')
    case ResourceStateUnavailable => (26, 'r')
    case ResourceConflicting => (17, 'r')
  }

  lemma ReasonHasShape(r: Reason)
    requires !r.OtherReason?
    ensures r.Text() != "" && (|r.Text()|, r.Text()[0]) == ReasonShape(r)
  {
  }

  lemma FixedTextIsListed(r: Reason)
    requires !r.OtherReason?
    ensures r.Text() in REASON_TEXTS
  {
    var i := match r
      case AcceptedReason => 0
      case CommandClockSkew => 1
      case MissingIssueResource => 2
      case StaleReceiptHead => 3
      case AlreadyClaimed => 4
      case IssueNotReady => 5
      case NoLiveClaim => 6
      case ClaimIdMismatch => 7
      case ClaimantSessionMismatch => 8
      case ClaimScopeChanged => 9
      case PullRequestChanged => 10
      case LeaseExpired => 11
      case DependencyBlocked => 12
      case ResourceStateUnavailable => 13
      case ResourceConflicting => 14;
    assert REASON_TEXTS[i] == r.Text();
  }

  /** A reason's text determines the reason. */
  lemma ReasonsDiffer(a: Reason, b: Reason)
    requires a.Text() == b.Text()
    ensures a == b
  {
    hide Reason.Text, REASON_TEXTS;
    if !a.OtherReason? {
      ReasonHasShape(a);
      FixedTextIsListed(a);
    }
    if !b.OtherReason? {
      ReasonHasShape(b);
      FixedTextIsListed(b);
    }
    if a.OtherReason? && b.OtherReason? {
      OtherSaysItsText(a);
      OtherSaysItsText(b);
    } else if a.OtherReason? {
      OtherSaysItsText(a);
    } else if b.OtherReason? {
      OtherSaysItsText(b);
    }
  }

  lemma OtherSaysItsText(r: Reason)
    requires r.OtherReason?
    ensures r.Text() == r.text
  {
  }

  // The body as a value.

  function DecisionText(d: Decision): string {
    match d
    case Accepted => "accepted"
    case Rejected => "rejected"
    case Expired => "expired"
  }

  function ActionText(a: Action): string {
    match a
    case Claim => "claim"
    case Heartbeat => "heartbeat"
    case Review => "review"
    case Release => "release"
    case Expire => "expire"
  }

  function StateText(s: State): string {
    match s
    case Ready => "ready"
    case InProgress => "in_progress"
    case InReview => "in_review"
    case Done => "done"
  }

  function OptionalText(t: Option<string>): Value { if t.Some? then Str(t.value) else Null }

  function Texts(ts: seq<string>): (items: seq<Value>)
    ensures |items| == |ts| && forall i :: 0 <= i < |ts| ==> items[i] == Str(ts[i])
  {
    seq(|ts|, i requires 0 <= i < |ts| => Str(ts[i]))
  }

  function IssueValue(issue: IssueRef): Value {
    Dict(map["repository" := Str(issue.repository), "number" := Int(issue.number)])
  }

  /** One field of `_receipt_body`. `time` spells timestamps. */
  function FieldValue(b: Body, time: Time -> string, f: Field): Value {
    match f
    case Schema => Str("daimon-claim-receipt/v0")
    case DecisionField => Str(DecisionText(b.decision))
    case ActionField => Str(ActionText(b.action))
    case ReasonField => Str(b.reason.Text())
    case CommandId => OptionalText(b.commandId)
    case ClaimId => Str(b.scope.claimId)
    case Issue => IssueValue(b.issue)
    case PrincipalField => Str(b.scope.principal)
    case SessionId => Str(b.scope.sessionId)
    case StateField => Str(StateText(b.state))
    case At => Str(time(b.at))
    case LeaseUntil => if b.leaseUntil.Some? then Str(time(b.leaseUntil.value)) else Null
    case Resources => List(Texts(b.scope.resources))
    case Branch => Str(b.scope.branch)
    case PullRequest => if b.pullRequest.Some? then Int(b.pullRequest.value) else Null
    case PreviousId => OptionalText(b.previousId)
    case PreviousHash => OptionalText(b.previousHash)
    case WorkflowSha => Str(b.workflowSha)
  }

  /** `_receipt_body` as a value of the JSON model. */
  function BodyValue(b: Body, time: Time -> string): Value {
    Dict(map k | k in Names() :: FieldValue(b, time, FieldNamed(k)))
  }

  lemma FieldIsThere(b: Body, time: Time -> string)
    ensures var fields := BodyValue(b, time).fields;
            forall f :: Name(f) in fields && fields[Name(f)] == FieldValue(b, time, f)
  {
    hide Name, FieldValue;
    NamesDiffer();
    forall f ensures Name(f) in Names() && FieldNamed(Name(f)) == f {
    }
  }

  // Member by member.

  predicate Has(fields: map<string, Value>, name: string, v: Value) { name in fields && fields[name] == v }

  predicate HasOptional(fields: map<string, Value>, name: string, text: Option<string>) {
    Has(fields, name, if text == None then Null else Str(text.value))
  }

  predicate HasChoices(fields: map<string, Value>, b: Body) {
    && (b.decision == Accepted ==> Has(fields, "decision", Str("accepted")))
    && (b.decision == Rejected ==> Has(fields, "decision", Str("rejected")))
    && (b.decision == Expired ==> Has(fields, "decision", Str("expired")))
    && (b.action == Claim ==> Has(fields, "action", Str("claim")))
    && (b.action == Heartbeat ==> Has(fields, "action", Str("heartbeat")))
    && (b.action == Review ==> Has(fields, "action", Str("review")))
    && (b.action == Release ==> Has(fields, "action", Str("release")))
    && (b.action == Expire ==> Has(fields, "action", Str("expire")))
    && (b.state == Ready ==> Has(fields, "state", Str("ready")))
    && (b.state == InProgress ==> Has(fields, "state", Str("in_progress")))
    && (b.state == InReview ==> Has(fields, "state", Str("in_review")))
    && (b.state == Done ==> Has(fields, "state", Str("done")))
  }

  predicate HasTexts(fields: map<string, Value>, b: Body) {
    && Has(fields, "schema", Str("daimon-claim-receipt/v0")) && Has(fields, "reason", Str(b.reason.Text()))
    && Has(fields, "claim_id", Str(b.scope.claimId)) && Has(fields, "principal", Str(b.scope.principal))
    && Has(fields, "session_id", Str(b.scope.sessionId)) && Has(fields, "branch", Str(b.scope.branch))
  }

  predicate HasReferences(fields: map<string, Value>, b: Body) {
    && Has(fields, "workflow_sha", Str(b.workflowSha)) && HasOptional(fields, "command_id", b.commandId)
    && HasOptional(fields, "previous_receipt_id", b.previousId)
    && HasOptional(fields, "previous_receipt_hash", b.previousHash)
  }

  predicate HasOthers(fields: map<string, Value>, b: Body, time: Time -> string) {
    && Has(fields, "issue", Dict(map["number" := Int(b.issue.number), "repository" := Str(b.issue.repository)]))
    && Has(fields, "pull_request", if b.pullRequest == None then Null else Int(b.pullRequest.value))
    && Has(fields, "at", Str(time(b.at)))
    && HasOptional(fields, "lease_until", if b.leaseUntil == None then None else Some(time(b.leaseUntil.value)))
    && "resources" in fields && fields["resources"].List? && |fields["resources"].items| == |b.scope.resources|
    && forall i :: 0 <= i < |b.scope.resources| ==> fields["resources"].items[i] == Str(b.scope.resources[i])
  }

  lemma NamesExactly()
    ensures Names() == {"schema", "decision", "action", "reason", "command_id", "claim_id", "issue", "principal",
                        "session_id", "state", "at", "lease_until", "resources", "branch", "pull_request",
                        "previous_receipt_id", "previous_receipt_hash", "workflow_sha"}
  {
    var names := {"schema", "decision", "action", "reason", "command_id", "claim_id", "issue", "principal",
                  "session_id", "state", "at", "lease_until", "resources", "branch", "pull_request",
                  "previous_receipt_id", "previous_receipt_hash", "workflow_sha"};
    assert forall f :: Name(f) in names;
    assert names == {Name(Schema), Name(DecisionField), Name(ActionField), Name(ReasonField), Name(CommandId),
                     Name(ClaimId), Name(Issue), Name(PrincipalField), Name(SessionId), Name(StateField), Name(At),
                     Name(LeaseUntil), Name(Resources), Name(Branch), Name(PullRequest), Name(PreviousId),
                     Name(PreviousHash), Name(WorkflowSha)};
  }

  lemma FieldHas(b: Body, time: Time -> string, f: Field, name: string, v: Value)
    requires Name(f) == name && FieldValue(b, time, f) == v
    ensures Has(BodyValue(b, time).fields, name, v)
  {
    hide Name, FieldValue;
    FieldIsThere(b, time);
  }

  lemma ChoicesAreThere(b: Body, time: Time -> string)
    ensures HasChoices(BodyValue(b, time).fields, b)
  {
    hide BodyValue, Has;
    FieldHas(b, time, DecisionField, "decision", Str(DecisionText(b.decision)));
    FieldHas(b, time, ActionField, "action", Str(ActionText(b.action)));
    FieldHas(b, time, StateField, "state", Str(StateText(b.state)));
  }

  lemma TextsAreThere(b: Body, time: Time -> string)
    ensures HasTexts(BodyValue(b, time).fields, b)
  {
    hide BodyValue, Has, Reason.Text;
    FieldHas(b, time, Schema, "schema", Str("daimon-claim-receipt/v0"));
    FieldHas(b, time, ReasonField, "reason", Str(b.reason.Text()));
    FieldHas(b, time, ClaimId, "claim_id", Str(b.scope.claimId));
    FieldHas(b, time, PrincipalField, "principal", Str(b.scope.principal));
    FieldHas(b, time, SessionId, "session_id", Str(b.scope.sessionId));
    FieldHas(b, time, Branch, "branch", Str(b.scope.branch));
  }

  lemma ReferencesAreThere(b: Body, time: Time -> string)
    ensures HasReferences(BodyValue(b, time).fields, b)
  {
    hide BodyValue, Has;
    FieldHas(b, time, CommandId, "command_id", OptionalText(b.commandId));
    FieldHas(b, time, PreviousId, "previous_receipt_id", OptionalText(b.previousId));
    FieldHas(b, time, PreviousHash, "previous_receipt_hash", OptionalText(b.previousHash));
    FieldHas(b, time, WorkflowSha, "workflow_sha", Str(b.workflowSha));
  }

  lemma OthersAreThere(b: Body, time: Time -> string)
    ensures HasOthers(BodyValue(b, time).fields, b, time)
  {
    hide BodyValue;
    FieldHas(b, time, Issue, "issue", IssueValue(b.issue));
    FieldHas(b, time, At, "at", Str(time(b.at)));
    FieldHas(b, time, LeaseUntil, "lease_until", FieldValue(b, time, LeaseUntil));
    FieldHas(b, time, Resources, "resources", List(Texts(b.scope.resources)));
    FieldHas(b, time, PullRequest, "pull_request", FieldValue(b, time, PullRequest));
  }

  /** The text of a body has eighteen members, each under its name. */
  lemma MembersExactly(b: Body, time: Time -> string)
    ensures var fields := BodyValue(b, time).fields;
            && fields.Keys == {"schema", "decision", "action", "reason", "command_id", "claim_id", "issue",
                               "principal", "session_id", "state", "at", "lease_until", "resources", "branch",
                               "pull_request", "previous_receipt_id", "previous_receipt_hash", "workflow_sha"}
            && HasChoices(fields, b) && HasTexts(fields, b) && HasReferences(fields, b) && HasOthers(fields, b, time)
  {
    hide Name, FieldValue, Names, HasChoices, HasTexts, HasReferences, HasOthers;
    NamesExactly();
    assert BodyValue(b, time).fields.Keys == Names();
    ChoicesAreThere(b, time);
    TextsAreThere(b, time);
    ReferencesAreThere(b, time);
    OthersAreThere(b, time);
  }

  lemma FieldsAgree(a: Body, b: Body, time: Time -> string)
    requires BodyValue(a, time) == BodyValue(b, time)
    ensures forall f :: FieldValue(a, time, f) == FieldValue(b, time, f)
  {
    hide Name, FieldValue;
    NamesDiffer();
    FieldIsThere(a, time);
    FieldIsThere(b, time);
    forall f ensures FieldValue(a, time, f) == FieldValue(b, time, f) {
      assert BodyValue(a, time).fields[Name(f)] == FieldValue(a, time, f);
      assert BodyValue(b, time).fields[Name(f)] == FieldValue(b, time, f);
    }
  }

  lemma EnumerationsDiffer(a: Body, b: Body)
    ensures DecisionText(a.decision) == DecisionText(b.decision) ==> a.decision == b.decision
    ensures ActionText(a.action) == ActionText(b.action) ==> a.action == b.action
    ensures StateText(a.state) == StateText(b.state) ==> a.state == b.state
  {
  }

  lemma IssuesDiffer(a: IssueRef, b: IssueRef)
    requires IssueValue(a) == IssueValue(b)
    ensures a == b
  {
    assert IssueValue(a).fields["repository"] == IssueValue(b).fields["repository"];
    assert IssueValue(a).fields["number"] == IssueValue(b).fields["number"];
  }

  lemma TextsDiffer(a: seq<string>, b: seq<string>)
    requires Texts(a) == Texts(b)
    ensures a == b
  {
    forall i | 0 <= i < |a| ensures a[i] == b[i] {
      assert Texts(a)[i] == Texts(b)[i];
    }
  }

  /** No two spellings of a time coincide. */
  ghost predicate TellsTimes(time: Time -> string) { forall s, t :: time(s) == time(t) ==> s == t }

  /** Different bodies are different values. */
  lemma BodiesDiffer(a: Body, b: Body, time: Time -> string)
    requires TellsTimes(time) && BodyValue(a, time) == BodyValue(b, time)
    ensures a == b
  {
    hide BodyValue, FieldValue;
    FieldsAgree(a, b, time);
    EnumerationsAgree(a, b, time);
    TextsAgree(a, b, time);
    OptionsAgree(a, b, time);
    assert a.scope == b.scope;
  }

  lemma EnumerationsAgree(a: Body, b: Body, time: Time -> string)
    requires forall f :: FieldValue(a, time, f) == FieldValue(b, time, f)
    ensures a.decision == b.decision && a.action == b.action && a.state == b.state && a.reason == b.reason
  {
    hide Reason.Text, DecisionText, ActionText, StateText;
    assert FieldValue(a, time, DecisionField) == FieldValue(b, time, DecisionField);
    assert FieldValue(a, time, ActionField) == FieldValue(b, time, ActionField);
    assert FieldValue(a, time, StateField) == FieldValue(b, time, StateField);
    EnumerationsDiffer(a, b);
    assert FieldValue(a, time, ReasonField) == FieldValue(b, time, ReasonField);
    ReasonsDiffer(a.reason, b.reason);
  }

  lemma TextsAgree(a: Body, b: Body, time: Time -> string)
    requires TellsTimes(time) && forall f :: FieldValue(a, time, f) == FieldValue(b, time, f)
    ensures a.scope == b.scope && a.issue == b.issue && a.workflowSha == b.workflowSha && a.at == b.at
  {
    hide Reason.Text, DecisionText, ActionText, StateText, Texts, IssueValue;
    assert FieldValue(a, time, Issue) == FieldValue(b, time, Issue);
    IssuesDiffer(a.issue, b.issue);
    assert FieldValue(a, time, Resources) == FieldValue(b, time, Resources);
    TextsDiffer(a.scope.resources, b.scope.resources);
    assert FieldValue(a, time, ClaimId) == FieldValue(b, time, ClaimId);
    assert FieldValue(a, time, PrincipalField) == FieldValue(b, time, PrincipalField);
    assert FieldValue(a, time, SessionId) == FieldValue(b, time, SessionId);
    assert FieldValue(a, time, Branch) == FieldValue(b, time, Branch);
    assert FieldValue(a, time, WorkflowSha) == FieldValue(b, time, WorkflowSha);
    assert FieldValue(a, time, At) == FieldValue(b, time, At);
    assert time(a.at) == time(b.at);
  }

  lemma OptionsAgree(a: Body, b: Body, time: Time -> string)
    requires TellsTimes(time) && forall f :: FieldValue(a, time, f) == FieldValue(b, time, f)
    ensures a.commandId == b.commandId && a.previousId == b.previousId && a.previousHash == b.previousHash
    ensures a.leaseUntil == b.leaseUntil && a.pullRequest == b.pullRequest
  {
    hide Reason.Text, DecisionText, ActionText, StateText, Texts, IssueValue;
    assert FieldValue(a, time, CommandId) == FieldValue(b, time, CommandId);
    assert FieldValue(a, time, PreviousId) == FieldValue(b, time, PreviousId);
    assert FieldValue(a, time, PreviousHash) == FieldValue(b, time, PreviousHash);
    assert FieldValue(a, time, LeaseUntil) == FieldValue(b, time, LeaseUntil);
    assert FieldValue(a, time, PullRequest) == FieldValue(b, time, PullRequest);
    if a.leaseUntil.Some? && b.leaseUntil.Some? {
      assert time(a.leaseUntil.value) == time(b.leaseUntil.value);
      assert a.leaseUntil.value == b.leaseUntil.value;
    }
  }

  // The digest.

  /** The domain that separates receipts from everything else that is hashed. */
  function Domain(): seq<int> { Ascii("daimon/github-coordination-receipt/v0") + [0] }

  /** What `_receipt_digest` hashes: the domain and the canonical bytes of the body. */
  function Hashed(b: Body, time: Time -> string): seq<int> { Domain() + CanonicalBytes(BodyValue(b, time)) }

  lemma HashedExactly(b: Body, time: Time -> string)
    ensures Hashed(b, time) ==
            Ascii("daimon/github-coordination-receipt/v0") + [0] + CanonicalBytes(BodyValue(b, time))
  {
    hide CanonicalBytes, BodyValue;
  }

  function Digest(hash: seq<int> -> string, time: Time -> string): Body -> string { b => hash(Hashed(b, time)) }

  /** The hash has no collision on what is hashed of receipts. */
  ghost predicate TellsReceipts(hash: seq<int> -> string, time: Time -> string) {
    forall a, b :: hash(Hashed(a, time)) == hash(Hashed(b, time)) ==> Hashed(a, time) == Hashed(b, time)
  }

  lemma HashedDetermines(a: Body, b: Body, time: Time -> string)
    requires TellsTimes(time) && Hashed(a, time) == Hashed(b, time)
    ensures a == b
  {
    hide BodyValue, CanonicalBytes, Domain, TellsTimes;
    var x, y := CanonicalBytes(BodyValue(a, time)), CanonicalBytes(BodyValue(b, time));
    assert x == (Domain() + x)[|Domain()|..] == (Domain() + y)[|Domain()|..] == y;
    CanonicalBytesDetermineValue(BodyValue(a, time), BodyValue(b, time));
    BodiesDiffer(a, b, time);
  }

  /** The assumption on the digest says no more than that the hash has no collisions on receipts. */
  lemma DigestIsCollisionFree(hash: seq<int> -> string, time: Time -> string)
    requires TellsTimes(time)
    ensures PublishedRules(Digest(hash, time)).CollisionFree() <==> TellsReceipts(hash, time)
  {
    hide Hashed, TellsTimes;
    var digest := Digest(hash, time);
    if TellsReceipts(hash, time) {
      forall a, b | digest(a) == digest(b) ensures a == b {
        HashedDetermines(a, b, time);
      }
    }
    if PublishedRules(digest).CollisionFree() {
      forall a, b | hash(Hashed(a, time)) == hash(Hashed(b, time)) ensures Hashed(a, time) == Hashed(b, time) {
        assert digest(a) == digest(b);
      }
    }
  }
}
