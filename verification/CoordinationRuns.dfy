/** Whole runs: any number of handler calls, sweeps and outside events, in any order. */
module CoordinationRuns {
  import opened Wrappers
  import opened Claims
  import opened ReceiptLog
  import opened HandlerLogs
  import opened Coordination
  import opened CoordinationInvariants
  import opened CoordinationSteps
  import opened CoordinationSweep
  import opened Decisions

  /** Handler calls, and what people outside the tool do. */
  datatype Event =
    | Handle(req: Request)
    | Expire(number: nat, now: Time, sha: string)
    | Sweep(now: Time, sha: string)
    | Chatter(number: nat, author: string, content: Content)
    | Open(number: nat, labels: set<Label>)
    | SetLabels(number: nat, labels: set<Label>)
    | SetOpen(number: nat, open: bool)

  /** The clock does not go back; commands were validated and address open issues; nobody but the
      trusted accounts posts under their names; and whoever edits an issue with an active head
      leaves it open and keeps its status label. */
  predicate Permitted(cfg: Config, w: World, e: Event) {
    match e
    case Handle(req) => Admissible(cfg, w, req)
    case Expire(_, now, sha) => w.clock <= now && cfg.rules.isSha(sha)
    case Sweep(now, sha) => w.clock <= now && cfg.rules.isSha(sha)
    case Chatter(n, author, _) => n in w.issues && author !in cfg.receiptAuthors
    case Open(n, _) => n !in w.issues
    case SetLabels(n, labels) =>
      n in w.issues &&
      var head := Head(cfg, w.issues[n]); IsActive(head) ==> StatusLabel(head.value.body.state) in labels
    case SetOpen(n, open) => n in w.issues && (IsActive(Head(cfg, w.issues[n])) ==> open)
  }

  function Apply(cfg: Config, w: World, e: Event): World
    requires Permitted(cfg, w, e)
  {
    match e
    case Handle(req) => HandleComment(cfg, w, req).0
    case Expire(n, now, sha) => ExpireIssue(cfg, w, n, now, sha).0
    case Sweep(now, sha) => ExpireAll(cfg, w, now, sha).world
    case Chatter(n, author, content) =>
      WithIssue(w, n, w.issues[n].(comments := w.issues[n].comments + [Comment(w.nextComment, author, content)]))
      .(nextComment := w.nextComment + 1)
    case Open(n, labels) => WithIssue(w, n, Issue([], labels, true))
    case SetLabels(n, labels) => WithIssue(w, n, w.issues[n].(labels := labels))
    case SetOpen(n, open) => WithIssue(w, n, w.issues[n].(open := open))
  }

  predicate PermittedRun(cfg: Config, w: World, es: seq<Event>)
    decreases |es|, 0
  {
    es == [] ||
    (PermittedRun(cfg, w, es[..|es| - 1]) && Permitted(cfg, After(cfg, w, es[..|es| - 1]), es[|es| - 1]))
  }

  /** The world after a run. */
  function After(cfg: Config, w: World, es: seq<Event>): World
    requires PermittedRun(cfg, w, es)
    decreases |es|, 1
  {
    if es == [] then w else Apply(cfg, After(cfg, w, es[..|es| - 1]), es[|es| - 1])
  }

  /** Where runs start: no trusted account has posted anything yet. */
  ghost predicate Untouched(cfg: Config, w: World) {
    && GoodConfig(cfg) && cfg.rules.CollisionFree()
    && forall n :: n in w.issues ==>
                     && IdsBelow(w.issues[n].comments, w.nextComment)
                     && forall c :: c in w.issues[n].comments ==> c.author !in cfg.receiptAuthors
  }

  lemma {:induction false} NoTrustedReceipts(cfg: Config, comments: seq<Comment>)
    requires forall c :: c in comments ==> c.author !in cfg.receiptAuthors
    ensures Trusted(cfg, comments) == []
  {
    if comments != [] {
      NoTrustedReceipts(cfg, comments[..|comments| - 1]);
      assert comments[|comments| - 1] in comments;
    }
  }

  lemma UntouchedIsGood(cfg: Config, w: World)
    requires Untouched(cfg, w)
    ensures Good(cfg, w) && Exclusive(cfg, w)
  {
    forall n | n in w.issues
      ensures Log(cfg, w.issues[n]) == []
    {
      NoTrustedReceipts(cfg, w.issues[n].comments);
    }
  }

  /** An event that only edits issue `n` without touching its trusted receipts. */
  lemma EditKeeps(cfg: Config, w: World, n: nat, issue: Issue, next: nat)
    requires Good(cfg, w) && w.nextComment <= next
    requires Healthy(cfg, n, issue, w.clock, next) && Visible(cfg, issue)
    requires if n in w.issues then Log(cfg, issue) == Log(cfg, w.issues[n]) else Log(cfg, issue) == []
    ensures var w' := WithIssue(w, n, issue).(nextComment := next);
            Good(cfg, w') && (Exclusive(cfg, w) ==> Exclusive(cfg, w'))
  {
    hide HandlerLog, Log, IdsBelow, Readable, Visible;
    var w' := WithIssue(w, n, issue).(nextComment := next);
    forall i | i in w'.issues
      ensures Healthy(cfg, i, w'.issues[i], w'.clock, next) && Visible(cfg, w'.issues[i])
    {
      if i != n {
        HealthyLater(cfg, i, w.issues[i], w.clock, w.nextComment, w.clock, next);
      }
    }
    if Exclusive(cfg, w) {
      forall i, j | i in w'.issues && j in w'.issues && i != j
        ensures Apart(Head(cfg, w'.issues[i]), Head(cfg, w'.issues[j]), w'.clock)
      {
        if i in w.issues && j in w.issues {
          assert Apart(Head(cfg, w.issues[i]), Head(cfg, w.issues[j]), w.clock);
        }
      }
    }
  }

  lemma ChatterKeeps(cfg: Config, n: nat, issue: Issue, c: Comment, clock: Time, next: nat)
    requires Healthy(cfg, n, issue, clock, next) && c.author !in cfg.receiptAuthors && c.id == next
    ensures var issue' := issue.(comments := issue.comments + [c]);
            Healthy(cfg, n, issue', clock, next + 1) && Log(cfg, issue') == Log(cfg, issue)
  {
    hide HandlerLog;
    var comments := issue.comments + [c];
    assert comments[..|comments| - 1] == issue.comments;
    assert Trusted(cfg, issue.comments) + [] == Trusted(cfg, issue.comments);
  }

  lemma OutsideKeeps(cfg: Config, w: World, e: Event)
    requires Good(cfg, w) && Permitted(cfg, w, e) && !e.Handle? && !e.Expire? && !e.Sweep?
    ensures Good(cfg, Apply(cfg, w, e)) && (Exclusive(cfg, w) ==> Exclusive(cfg, Apply(cfg, w, e)))
    ensures e.number in w.issues ==>
              (e.number in Apply(cfg, w, e).issues &&
               Log(cfg, Apply(cfg, w, e).issues[e.number]) == Log(cfg, w.issues[e.number]))
  {
    hide Log, IdsBelow, Readable, HandlerLog, Healthy, Exclusive;
    var w', n := Apply(cfg, w, e), e.number;
    match e {
      case Chatter(_, author, content) =>
        ChatterKeeps(cfg, n, w.issues[n], Comment(w.nextComment, author, content), w.clock, w.nextComment);
      case Open(_, labels) =>
        EmptyIssue(cfg, n, labels, w.clock, w.nextComment);
      case SetLabels(_, _) =>
        SameComments(cfg, n, w.issues[n], w'.issues[n], w.clock, w.nextComment);
      case SetOpen(_, _) =>
        SameComments(cfg, n, w.issues[n], w'.issues[n], w.clock, w.nextComment);
    }
    EditKeeps(cfg, w, n, w'.issues[n], w'.nextComment);
  }

  lemma EmptyIssue(cfg: Config, n: nat, labels: set<Label>, clock: Time, next: nat)
    ensures var issue := Issue([], labels, true);
            Healthy(cfg, n, issue, clock, next) && Visible(cfg, issue) && Log(cfg, issue) == []
  {
  }

  /** Logs only ever grow at the end. */
  predicate LogsGrow(cfg: Config, w: World, w': World) {
    forall n :: n in w.issues ==> n in w'.issues && Log(cfg, w.issues[n]) <= Log(cfg, w'.issues[n])
  }

  lemma GrewGrows(cfg: Config, w: World, w': World, n: nat, rs: seq<Receipt>)
    requires Grew(cfg, w, w', n, rs)
    ensures LogsGrow(cfg, w, w')
  {
    hide Log;
  }

  lemma HandleKeeps(cfg: Config, w: World, req: Request)
    requires Good(cfg, w) && Admissible(cfg, w, req)
    ensures var w' := HandleComment(cfg, w, req).0;
            Good(cfg, w') && (Exclusive(cfg, w) ==> Exclusive(cfg, w')) && LogsGrow(cfg, w, w')
  {
    hide Good, Exclusive, HandleComment, Admissible, Grew, Answers, LogsGrow;
    HandleSteps(cfg, w, req);
    var (w', outcome) := HandleComment(cfg, w, req);
    var w1 := w.(clock := req.now);
    ClockGrows(cfg, w, req.now);
    if req.number in w.issues && Admit(cfg, req).Ok? {
      var expiry := Expiry(cfg, w1, req.number, req.now, req.sha);
      if outcome.Ok? {
        GrewGrows(cfg, w1, w', req.number, expiry + [outcome.value]);
      } else {
        GrewGrows(cfg, w1, w', req.number, expiry);
      }
      GrowsFrom(cfg, w, req.now, w');
    }
  }

  lemma ClockGrows(cfg: Config, w: World, now: Time)
    ensures LogsGrow(cfg, w, w.(clock := now))
  {
    hide Log;
  }

  lemma GrowsFrom(cfg: Config, w: World, now: Time, w': World)
    requires LogsGrow(cfg, w.(clock := now), w')
    ensures LogsGrow(cfg, w, w')
  {
    hide Log;
  }

  lemma ExpireKeeps(cfg: Config, w0: World, n: nat, now: Time, sha: string)
    requires Good(cfg, w0) && w0.clock <= now && cfg.rules.isSha(sha)
    ensures var w' := ExpireIssue(cfg, w0, n, now, sha).0;
            Good(cfg, w') && (Exclusive(cfg, w0) ==> Exclusive(cfg, w')) && LogsGrow(cfg, w0, w')
  {
    hide Good, Exclusive, Log, StateOf, Materialize, LogsGrow;
    var w := w0.(clock := now);
    ClockKeeps(cfg, w0, now);
    ClockGrows(cfg, w0, now);
    if n in w.issues {
      ExpireSteps(cfg, w, n, sha);
      assert ExpireIssue(cfg, w, n, now, sha) == ExpireIssue(cfg, w0, n, now, sha);
      GrewGrows(cfg, w, ExpireIssue(cfg, w, n, now, sha).0, n, Expiry(cfg, w, n, now, sha));
      GrowsFrom(cfg, w0, now, ExpireIssue(cfg, w, n, now, sha).0);
    }
  }

  lemma SweepKeeps(cfg: Config, w0: World, now: Time, sha: string)
    requires Good(cfg, w0) && w0.clock <= now && cfg.rules.isSha(sha)
    ensures var w' := ExpireAll(cfg, w0, now, sha).world;
            Good(cfg, w') && (Exclusive(cfg, w0) ==> Exclusive(cfg, w')) && LogsGrow(cfg, w0, w')
  {
    hide Good, Exclusive, Log, ExpireAll;
    SweepCorrect(cfg, w0, now, sha);
  }

  lemma ApplyKeeps(cfg: Config, w: World, e: Event)
    requires Good(cfg, w) && Permitted(cfg, w, e)
    ensures Good(cfg, Apply(cfg, w, e)) && (Exclusive(cfg, w) ==> Exclusive(cfg, Apply(cfg, w, e)))
    ensures LogsGrow(cfg, w, Apply(cfg, w, e))
  {
    hide Good, Exclusive, Log, Admissible;
    match e {
      case Handle(req) => HandleKeeps(cfg, w, req);
      case Expire(n, now, sha) => ExpireKeeps(cfg, w, n, now, sha);
      case Sweep(now, sha) => SweepKeeps(cfg, w, now, sha);
      case _ => OutsideKeeps(cfg, w, e);
    }
  }

  lemma {:induction false} RunKeeps(cfg: Config, w: World, es: seq<Event>)
    requires Good(cfg, w) && Exclusive(cfg, w) && PermittedRun(cfg, w, es)
    ensures Good(cfg, After(cfg, w, es)) && Exclusive(cfg, After(cfg, w, es))
    decreases |es|
  {
    hide Good, Exclusive, Permitted, Apply;
    if es != [] {
      RunKeeps(cfg, w, es[..|es| - 1]);
      ApplyKeeps(cfg, After(cfg, w, es[..|es| - 1]), es[|es| - 1]);
    }
  }

  /** Resource exclusion: in every reachable state two different issues whose heads are live have
      one owner or share no resource. */
  lemma {:induction false} ResourceExclusion(cfg: Config, w: World, es: seq<Event>, i: nat, j: nat)
    requires Untouched(cfg, w) && PermittedRun(cfg, w, es)
    requires i in After(cfg, w, es).issues && j in After(cfg, w, es).issues && i != j
    ensures var w' := After(cfg, w, es);
            var a, b := Head(cfg, w'.issues[i]), Head(cfg, w'.issues[j]);
            LiveAt(a, w'.clock) && LiveAt(b, w'.clock) ==>
              a.value.body.scope.SameOwner(b.value.body.scope) || a.value.body.scope.Disjoint(b.value.body.scope)
  {
    hide Good, After, Log, PermittedRun;
    UntouchedIsGood(cfg, w);
    RunKeeps(cfg, w, es);
    var now := After(cfg, w, es);
    assert Apart(Head(cfg, now.issues[i]), Head(cfg, now.issues[j]), now.clock);
  }

  /** Every log of every reachable state was written by the handlers alone. */
  lemma {:induction false} ReachableLogs(cfg: Config, w: World, es: seq<Event>, n: nat)
    requires Untouched(cfg, w) && PermittedRun(cfg, w, es) && n in After(cfg, w, es).issues
    ensures HandlerLog(cfg.rules, cfg.Ref(n), Log(cfg, After(cfg, w, es).issues[n]))
    ensures Lawful(Log(cfg, After(cfg, w, es).issues[n]))
    ensures StateOf(cfg, n, After(cfg, w, es).issues[n].comments) == Ok(Head(cfg, After(cfg, w, es).issues[n]))
  {
    hide After, Log, PermittedRun, HandlerLog, StateOf, Exclusive;
    UntouchedIsGood(cfg, w);
    RunKeeps(cfg, w, es);
    var w' := After(cfg, w, es);
    StateOfHealthy(cfg, n, w'.issues[n], w'.clock, w'.nextComment);
    LogIsLawful(cfg.rules, cfg.Ref(n), Log(cfg, w'.issues[n]));
  }

  // Replays.

  lemma {:induction false} PrefixPermitted(cfg: Config, w: World, es: seq<Event>, k: nat)
    requires PermittedRun(cfg, w, es) && k <= |es|
    ensures PermittedRun(cfg, w, es[..k])
    ensures k < |es| ==> Permitted(cfg, After(cfg, w, es[..k]), es[k])
    ensures k < |es| ==> PermittedRun(cfg, w, es[..k + 1]) &&
                         After(cfg, w, es[..k + 1]) == Apply(cfg, After(cfg, w, es[..k]), es[k])
    decreases |es|
  {
    hide Permitted, Apply;
    if k == |es| {
      assert es[..k] == es;
    } else if k + 1 == |es| {
      assert es[..k + 1] == es;
    } else {
      var front := es[..|es| - 1];
      PrefixPermitted(cfg, w, front, k);
      assert front[..k] == es[..k] && front[..k + 1] == es[..k + 1];
    }
  }

  lemma {:induction false} RunGrows(cfg: Config, w: World, es: seq<Event>, k: nat)
    requires Good(cfg, w) && Exclusive(cfg, w) && PermittedRun(cfg, w, es) && k <= |es|
    ensures PermittedRun(cfg, w, es[..k]) && LogsGrow(cfg, After(cfg, w, es[..k]), After(cfg, w, es))
    decreases |es|
  {
    hide Good, Exclusive, Permitted, Apply, Log;
    PrefixPermitted(cfg, w, es, k);
    if k == |es| {
      assert es[..k] == es;
    } else {
      var front := es[..|es| - 1];
      RunGrows(cfg, w, front, k);
      assert front[..k] == es[..k];
      RunKeeps(cfg, w, front);
      ApplyKeeps(cfg, After(cfg, w, front), es[|es| - 1]);
    }
  }

  /** The outcome of the handler call at position `k` of a run. */
  function Outcome(cfg: Config, w: World, es: seq<Event>, k: nat): Result<Receipt, Failure>
    requires k < |es| && es[k].Handle? && PermittedRun(cfg, w, es[..k])
  {
    HandleComment(cfg, After(cfg, w, es[..k]), es[k].req).1
  }

  lemma LogBefore(cfg: Config, issue: IssueRef, log: seq<Receipt>, r: Receipt)
    requires HandlerLog(cfg.rules, issue, log + [r])
    ensures Chain(issue, log) && AllAddressed(cfg.rules, log)
  {
    hide HandlerLog, Chain, Lawful;
    LogIsLawful(cfg.rules, issue, log + [r]);
    ChainPrefix(issue, log + [r], |log|);
    assert (log + [r])[..|log|] == log;
    forall i | 0 <= i < |log| ensures (log + [r])[i] == log[i] {
    }
  }

  /** A published decision was appended last, and answers the command on the log before it. */
  lemma {:induction false} DecisionRecorded(cfg: Config, w: World, req: Request, c: Command)
      returns (log: seq<Receipt>, call: Call)
    requires Good(cfg, w) && Admissible(cfg, w, req) && req.parsed == Ok(Some(c)) && HandleComment(cfg, w, req).1.Ok?
    ensures var (w', outcome) := HandleComment(cfg, w, req);
            && req.number in w.issues && req.number in w'.issues
            && c.issue == cfg.Ref(req.number) && ValidCommand(cfg.rules, c)
            && Log(cfg, w.issues[req.number]) <= log && Log(cfg, w'.issues[req.number]) == log + [outcome.value]
            && Chain(c.issue, log) && AllAddressed(cfg.rules, log)
            && call.now == req.now && IsConflict(cfg.rules, call.conflict)
            && IsAnswerBody(c, Last(log), req.now, req.sha, outcome.value.body)
            && outcome.value.body ==
               DecisionBody(cfg.rules, c, Last(log), call.now, call.sha, call.issueReady, call.conflict)
  {
    hide Exclusive, HandleComment, Log, ValidCommand, DecisionBody, HandlerLog, Expiry, Chain, AllAddressed, IsConflict,
        IsAnswerBody;
    HandleSteps(cfg, w, req);
    var (w', outcome) := HandleComment(cfg, w, req);
    var w1 := w.(clock := req.now);
    var expiry := Expiry(cfg, w1, req.number, req.now, req.sha);
    log := Log(cfg, w.issues[req.number]) + expiry;
    assert log + [outcome.value] == Log(cfg, w.issues[req.number]) + (expiry + [outcome.value]);
    var ready, conflict :|
      && IsConflict(cfg.rules, conflict)
      && outcome.value.body == DecisionBody(cfg.rules, c, Last(log), req.now, req.sha, ready, conflict);
    call := Call(c, req.now, req.sha, ready, conflict);
    LogBefore(cfg, c.issue, log, outcome.value);
    BodyAnswers(cfg.rules, c, Last(log), req.now, req.sha, ready, conflict);
  }

  /** A command is accepted at most once in any run. Every later delivery of an accepted command
      that is answered at all is rejected, for its clock or for naming a head of the past. */
  lemma {:induction false} AcceptedAtMostOnce(cfg: Config, w: World, es: seq<Event>, a: nat, b: nat, c: Command)
    requires Untouched(cfg, w) && PermittedRun(cfg, w, es)
    requires a < b < |es| && es[a].Handle? && es[b].Handle?
    requires es[a].req.parsed == es[b].req.parsed == Ok(Some(c))
    requires PermittedRun(cfg, w, es[..a]) && PermittedRun(cfg, w, es[..b])
    requires Outcome(cfg, w, es, a).Ok? && Outcome(cfg, w, es, a).value.body.decision.Accepted?
    ensures var again := Outcome(cfg, w, es, b);
            again.Ok? ==>
              again.value.body.decision.Rejected? &&
              again.value.body.reason == (
                if es[b].req.now - c.at > MAX_CLOCK_SKEW || c.at - es[b].req.now > MAX_CLOCK_SKEW
                then CommandClockSkew else StaleReceiptHead)
  {
    hide Good, Exclusive, Permitted, Apply, Log, HandlerLog, DecisionBody, HandleComment, ValidCommand, After,
        IsConflict;
    UntouchedIsGood(cfg, w);
    PrefixPermitted(cfg, w, es, a);
    PrefixPermitted(cfg, w, es, b);
    var wa, wb := After(cfg, w, es[..a]), After(cfg, w, es[..b]);
    RunKeeps(cfg, w, es[..a]);
    RunKeeps(cfg, w, es[..b]);
    HandlersAdmissible(cfg, wa, es[a]);
    HandlersAdmissible(cfg, wb, es[b]);
    if Outcome(cfg, w, es, b).Ok? {
      var early, call := DecisionRecorded(cfg, wa, es[a].req, c);
      var late, call' := DecisionRecorded(cfg, wb, es[b].req, c);
      assert es[..b][..a + 1] == es[..a + 1];
      RunGrows(cfg, w, es[..b], a + 1);
      ReplayIsRejected(cfg.rules, c.issue, early, Outcome(cfg, w, es, a).value.body, late,
                       Outcome(cfg, w, es, b).value.body, c, call, call');
    }
  }

  lemma HandlersAdmissible(cfg: Config, w: World, e: Event)
    requires e.Handle? && Permitted(cfg, w, e)
    ensures Admissible(cfg, w, e.req)
    ensures Apply(cfg, w, e) == HandleComment(cfg, w, e.req).0
  {
    hide HandleComment;
  }
}
