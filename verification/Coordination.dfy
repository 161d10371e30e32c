/** The coordination tool over the issues of one repository: comments, labels and a clock. Each
    handler call is one atomic step; the functions here say what a step does to the world. */
module Coordination {
  import opened Wrappers
  import opened Claims
  import opened ReceiptLog
  import opened Sorting

  /** What the tool finds in a comment: no receipt block, a block that cannot be read or was
      edited, or one readable receipt. */
  datatype Content = NoReceipt | Unreadable | Block(receipt: Receipt)

  datatype Comment = Comment(id: nat, author: string, content: Content)

  /** Labels, those whose name starts with `status:` apart. */
  datatype Label = StatusReady | StatusClaimed | StatusReview | OtherStatus(text: string) | Plain(text: string)

  datatype Issue = Issue(comments: seq<Comment>, labels: set<Label>, open: bool)

  datatype World = World(issues: map<nat, Issue>, clock: Time, nextComment: nat)

  datatype Principal = Principal(enabled: bool, logins: set<string>)

  /** The repository, its principal registry, the account that posts receipts, and the hash. */
  datatype Config = Config(
    repository: string, principals: map<string, Principal>, receiptAuthors: set<string>, bot: string, rules: Rules)
  {
    function Ref(number: nat): IssueRef { IssueRef(repository, number) }
  }

  datatype Failure =
    | NoSuchIssue | NoCommand | MalformedCommand | OtherIssue | SlashMismatch | Unauthorized
    | UnreadableReceipt | InvalidReceipt(fault: Fault) | BrokenLog(chainFault: Break) | MissingBlocker
    | Unpublishable(fault: Fault)

  // Reading the log.

  function Collect(cfg: Config, comments: seq<Comment>): Result<seq<Posted>, Failure> {
    if comments == [] then Ok([])
    else
      var front, c := comments[..|comments| - 1], comments[|comments| - 1];
      match Collect(cfg, front)
      case Err(e) => Err(e)
      case Ok(ps) =>
        if c.author !in cfg.receiptAuthors then Ok(ps)
        else match c.content
          case NoReceipt => Ok(ps)
          case Unreadable => Err(UnreadableReceipt)
          case Block(raw) =>
            match ValidateReceipt(cfg.rules, raw)
            case Err(fault) => Err(InvalidReceipt(fault))
            case Ok(r) => Ok(ps + [Posted(Some(c.id), r)])
  }

  function StateOf(cfg: Config, number: nat, comments: seq<Comment>): Result<Option<Receipt>, Failure> {
    match Collect(cfg, comments)
    case Err(e) => Err(e)
    case Ok(ps) =>
      match Reduce(ps, cfg.Ref(number))
      case Err(fault) => Err(BrokenLog(fault))
      case Ok(head) => Ok(head)
  }

  // Labels.

  function StatusLabel(state: State): Label {
    match state
    case Ready => StatusReady
    case InProgress => StatusClaimed
    case InReview => StatusReview
    case Done => StatusReview
  }

  function SetStatus(labels: set<Label>, state: State): set<Label> {
    (set l | l in labels && l.Plain?) + {StatusLabel(state)}
  }

  function Labelled(w: World, name: Label): set<nat> {
    set n | n in w.issues && w.issues[n].open && name in w.issues[n].labels
  }

  // Conflicts.

  /** What one active issue says about a claim on other resources. */
  function ConflictWith(cfg: Config, w: World, other: nat, scope: Scope, now: Time): Option<Reason>
    requires other in w.issues
  {
    match StateOf(cfg, other, w.issues[other].comments)
    case Err(_) => Some(ResourceStateUnavailable)
    case Ok(None) => None
    case Ok(Some(head)) =>
      if !head.IsLive(now) || head.body.scope.SameOwner(scope) || scope.Disjoint(head.body.scope) then None
      else Some(ResourceConflicting)
  }

  function ConflictAmong(cfg: Config, w: World, number: nat, others: seq<nat>, scope: Scope, now: Time): Option<Reason>
    requires forall n :: n in others ==> n in w.issues
    decreases |others|
  {
    if others == [] then None
    else if others[0] == number then ConflictAmong(cfg, w, number, others[1..], scope, now)
    else
      var c := ConflictWith(cfg, w, others[0], scope, now);
      if c.Some? then c else ConflictAmong(cfg, w, number, others[1..], scope, now)
  }

  function Scanned(w: World): set<nat> { Labelled(w, StatusClaimed) + Labelled(w, StatusReview) }

  function ResourceConflict(cfg: Config, w: World, number: nat, scope: Scope, now: Time): Option<Reason> {
    ConflictAmong(cfg, w, number, Ascending(Scanned(w)), scope, now)
  }

  // Steps.

  function WithIssue(w: World, n: nat, issue: Issue): World { w.(issues := w.issues[n := issue]) }

  function Post(cfg: Config, w: World, n: nat, r: Receipt): World
    requires n in w.issues
  {
    var issue := w.issues[n];
    WithIssue(w, n, issue.(comments := issue.comments + [Comment(w.nextComment, cfg.bot, Block(r))]))
    .(nextComment := w.nextComment + 1)
  }

  function Relabel(w: World, n: nat, state: State): World
    requires n in w.issues
  {
    WithIssue(w, n, w.issues[n].(labels := SetStatus(w.issues[n].labels, state)))
  }

  /** Everything that a handler call is given or fetches from outside the issue log. */
  datatype Request = Request(
    number: nat, parsed: Result<Option<Command>, ()>, slash: Option<Action>, author: string,
    openBlockers: Result<bool, ()>, now: Time, sha: string)

  /** The checks made before the log is read. */
  function Admit(cfg: Config, req: Request): Result<Command, Failure> {
    match req.parsed
    case Err(_) => Err(MalformedCommand)
    case Ok(None) => Err(NoCommand)
    case Ok(Some(c)) =>
      if c.issue != cfg.Ref(req.number) then Err(OtherIssue)
      else if req.slash != Some(c.action) then Err(SlashMismatch)
      else if c.scope.principal !in cfg.principals || !cfg.principals[c.scope.principal].enabled
              || req.author !in cfg.principals[c.scope.principal].logins then Err(Unauthorized)
      else Ok(c)
  }

  /** Post the expiry of a due head and make the issue ready. */
  function Materialize(cfg: Config, w: World, n: nat, current: Option<Receipt>, now: Time, sha: string)
    : Result<(World, Option<Receipt>), Failure>
    requires n in w.issues
  {
    match ExpireIfDue(cfg.rules, current, now, sha)
    case None => Ok((w, current))
    case Some(Err(fault)) => Err(Unpublishable(fault))
    case Some(Ok(r)) => Ok((Relabel(Post(cfg, w, n, r), n, Ready), Some(r)))
  }

  function ConflictReason(cfg: Config, w: World, req: Request, c: Command): Result<Option<Reason>, Failure> {
    if !c.action.Claim? then Ok(None)
    else match req.openBlockers
      case Err(_) => Err(MissingBlocker)
      case Ok(true) => Ok(Some(DependencyBlocked))
      case Ok(false) => Ok(ResourceConflict(cfg, w, req.number, c.scope, req.now))
  }

  /** Decide on the materialized head, post the receipt, and relabel if it was accepted. */
  function Decide(cfg: Config, w: World, req: Request, c: Command, current: Option<Receipt>)
    : (World, Result<Receipt, Failure>)
    requires req.number in w.issues
  {
    match ConflictReason(cfg, w, req, c)
    case Err(e) => (w, Err(e))
    case Ok(conflict) =>
      match DecideCommand(cfg.rules, c, current, req.now, req.sha, StatusReady in w.issues[req.number].labels, conflict)
      case Err(fault) => (w, Err(Unpublishable(fault)))
      case Ok(r) =>
        var posted := Post(cfg, w, req.number, r);
        (if r.body.decision.Accepted? then Relabel(posted, req.number, r.body.state) else posted, Ok(r))
  }

  function HandleComment(cfg: Config, w0: World, req: Request): (World, Result<Receipt, Failure>) {
    var w := w0.(clock := req.now);
    if req.number !in w.issues then (w, Err(NoSuchIssue))
    else
      match Admit(cfg, req)
      case Err(e) => (w, Err(e))
      case Ok(c) =>
        match StateOf(cfg, req.number, w.issues[req.number].comments)
        case Err(e) => (w, Err(e))
        case Ok(current) =>
          match Materialize(cfg, w, req.number, current, req.now, req.sha)
          case Err(e) => (w, Err(e))
          case Ok((w1, current1)) => Decide(cfg, w1, req, c, current1)
  }

  /** The outcome is whether a lease was expired. */
  function ExpireIssue(cfg: Config, w0: World, n: nat, now: Time, sha: string): (World, Result<bool, Failure>) {
    var w := w0.(clock := now);
    if n !in w.issues then (w, Err(NoSuchIssue))
    else
      match StateOf(cfg, n, w.issues[n].comments)
      case Err(e) => (w, Err(e))
      case Ok(current) =>
        if !Due(current, now) then
          (if current.Some? then Relabel(w, n, current.value.body.state) else w, Ok(false))
        else
          match Materialize(cfg, w, n, current, now, sha)
          case Err(e) => (w, Err(e))
          case Ok((w1, _)) => (w1, Ok(true))
  }

  datatype SweepResult = SweepResult(world: World, expired: seq<nat>, failed: seq<nat>)

  function SweepIssues(cfg: Config, done: SweepResult, rest: seq<nat>, now: Time, sha: string): SweepResult
    decreases |rest|
  {
    if rest == [] then done
    else
      var (w, outcome) := ExpireIssue(cfg, done.world, rest[0], now, sha);
      var next := match outcome
        case Err(_) => SweepResult(w, done.expired, done.failed + [rest[0]])
        case Ok(true) => SweepResult(w, done.expired + [rest[0]], done.failed)
        case Ok(false) => SweepResult(w, done.expired, done.failed);
      SweepIssues(cfg, next, rest[1..], now, sha)
  }

  function Swept(w: World): set<nat> { Labelled(w, StatusReady) + Scanned(w) }

  function ExpireAll(cfg: Config, w: World, now: Time, sha: string): SweepResult {
    SweepIssues(cfg, SweepResult(w.(clock := now), [], []), Ascending(Swept(w)), now, sha)
  }
}
