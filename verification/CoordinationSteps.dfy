/** The handlers, step by step, in a world that satisfies the invariants. */
module CoordinationSteps {
  import opened Wrappers
  import opened Claims
  import opened ReceiptLog
  import opened HandlerLogs
  import opened Coordination
  import opened CoordinationInvariants
  import opened Sorting

  /** What the handlers may rely on: a clock that does not go back, a validated command, a
      workflow commit, and an open issue. */
  predicate Admissible(cfg: Config, w: World, req: Request) {
    && w.clock <= req.now && cfg.rules.isSha(req.sha)
    && (req.parsed.Ok? && req.parsed.value.Some? ==> ValidCommand(cfg.rules, req.parsed.value.value))
    && (req.number in w.issues ==> w.issues[req.number].open)
  }

  /** `w'` differs from `w` in issue `n`, whose log grew by `rs`. */
  predicate Grew(cfg: Config, w: World, w': World, n: nat, rs: seq<Receipt>) {
    && n in w.issues && w'.issues.Keys == w.issues.Keys && w'.clock == w.clock
    && w'.issues[n].open == w.issues[n].open
    && Log(cfg, w'.issues[n]) == Log(cfg, w.issues[n]) + rs
    && forall i :: i in w.issues && i != n ==> w'.issues[i] == w.issues[i]
  }

  lemma AppendGrows(cfg: Config, w: World, n: nat, r: Receipt, mark: Option<State>)
    requires GoodConfig(cfg) && n in w.issues
    ensures Grew(cfg, w, Append(cfg, w, n, r, mark), n, [r])
  {
    hide Log;
    LogOfMarked(cfg, w, n, r, mark);
  }

  /** The receipt that expires the head of issue `n`, if it is due. */
  function Expiry(cfg: Config, w: World, n: nat, now: Time, sha: string): seq<Receipt>
    requires n in w.issues
  {
    match ExpireIfDue(cfg.rules, Head(cfg, w.issues[n]), now, sha)
    case Some(Ok(r)) => [r]
    case _ => []
  }

  lemma ExpiryIsStep(cfg: Config, w: World, n: nat, sha: string)
    requires cfg.rules.CollisionFree() && n in w.issues && Healthy(cfg, n, w.issues[n], w.clock, w.nextComment)
    requires cfg.rules.isSha(sha) && Due(Head(cfg, w.issues[n]), w.clock)
    ensures var e := ExpireIfDue(cfg.rules, Head(cfg, w.issues[n]), w.clock, sha);
            && e.Some? && e.value.Ok?
            && Step(cfg.rules, cfg.Ref(n), Head(cfg, w.issues[n]), e.value.value)
            && e.value.value.body.at == w.clock && e.value.value.body.state.Ready?
            && e.value.value.body.leaseUntil.None?
            && e.value.value.body.decision.Expired?
  {
    hide Defect, HandlerLog, Log;
    var head := Head(cfg, w.issues[n]);
    StateOfHealthy(cfg, n, w.issues[n], w.clock, w.nextComment);
    ExpiryTotal(cfg.rules, head.value, w.clock, sha);
    assert Expires(cfg.rules, head, ExpireIfDue(cfg.rules, head, w.clock, sha).value.value, w.clock, sha);
  }

  lemma MaterializeSteps(cfg: Config, w: World, n: nat, sha: string)
    requires Good(cfg, w) && n in w.issues && cfg.rules.isSha(sha)
    ensures var m := Materialize(cfg, w, n, Head(cfg, w.issues[n]), w.clock, sha);
            && m.Ok? && Good(cfg, m.value.0) && (Exclusive(cfg, w) ==> Exclusive(cfg, m.value.0))
            && Grew(cfg, w, m.value.0, n, Expiry(cfg, w, n, w.clock, sha))
            && m.value.1 == Head(cfg, m.value.0.issues[n]) && !Due(m.value.1, w.clock)
  {
    hide Defect, HandlerLog, Log, Step;
    var head := Head(cfg, w.issues[n]);
    if Due(head, w.clock) {
      ExpiryIsStep(cfg, w, n, sha);
      var r := ExpireIfDue(cfg.rules, head, w.clock, sha).value.value;
      assert Materialize(cfg, w, n, head, w.clock, sha).value.0 == Append(cfg, w, n, r, Some(Ready));
      AppendGrows(cfg, w, n, r, Some(Ready));
      AppendKeepsGood(cfg, w, n, r, Some(Ready));
      if Exclusive(cfg, w) {
        AppendKeepsExclusive(cfg, w, n, r, Some(Ready));
      }
      LogOfMarked(cfg, w, n, r, Some(Ready));
    } else {
      assert Log(cfg, w.issues[n]) + [] == Log(cfg, w.issues[n]);
    }
  }

  function IsReady(w: World, n: nat): bool
    requires n in w.issues
  {
    StatusReady in w.issues[n].labels
  }

  lemma DecisionIsStep(cfg: Config, w: World, req: Request, c: Command, conflict: Option<Reason>)
    requires Good(cfg, w) && req.number in w.issues && w.clock == req.now
    requires ValidCommand(cfg.rules, c) && cfg.rules.isSha(req.sha) && c.issue == cfg.Ref(req.number) &&
        IsConflict(cfg.rules, conflict)
    requires !Due(Head(cfg, w.issues[req.number]), w.clock)
    ensures var d := DecideCommand(cfg.rules, c, Head(cfg, w.issues[req.number]), req.now, req.sha,
                                   IsReady(w, req.number), conflict);
            && d.Ok? && Step(cfg.rules, cfg.Ref(req.number), Head(cfg, w.issues[req.number]), d.value)
            && d.value.body == DecisionBody(cfg.rules, c, Head(cfg, w.issues[req.number]), req.now, req.sha,
                                            IsReady(w, req.number), conflict)
            && Follows(Head(cfg, w.issues[req.number]), d.value)
  {
    hide Defect, HandlerLog, Log, ValidCommand, DecisionBody, Follows;
    var head := Head(cfg, w.issues[req.number]);
    StateOfHealthy(cfg, req.number, w.issues[req.number], w.clock, w.nextComment);
    DecisionTotal(cfg.rules, c, head, req.now, req.sha, IsReady(w, req.number), conflict);
    var r := DecideCommand(cfg.rules, c, head, req.now, req.sha, IsReady(w, req.number), conflict).value;
    var call := Call(c, req.now, req.sha, IsReady(w, req.number), conflict);
    assert Decides(cfg.rules, cfg.Ref(req.number), head, r, call);
    DecisionFollows(cfg.rules, cfg.Ref(req.number), head, r, call);
  }

  lemma ConflictIsFormatted(cfg: Config, w: World, req: Request, c: Command)
    requires ConflictReason(cfg, w, req, c).Ok?
    ensures IsConflict(cfg.rules, ConflictReason(cfg, w, req, c).value)
  {
    hide StateOf;
    var conflict := ConflictReason(cfg, w, req, c).value;
    if conflict.Some? {
      if c.action.Claim? && req.openBlockers == Ok(false) {
        ConflictIsKnown(cfg, w, req.number, Ascending(Scanned(w)), c.scope, req.now);
      }
    }
  }

  lemma {:induction false} ConflictIsKnown(cfg: Config, w: World, n: nat, others: seq<nat>, scope: Scope, now: Time)
    requires forall i :: i in others ==> i in w.issues
    ensures var c := ConflictAmong(cfg, w, n, others, scope, now); c.Some? ==>
        c.value in {ResourceStateUnavailable, ResourceConflicting}
    decreases |others|
  {
    hide StateOf;
    if others != [] {
      ConflictIsKnown(cfg, w, n, others[1..], scope, now);
    }
  }

  /** The label set with a decision. */
  function Mark(r: Receipt): Option<State> {
    if r.body.decision.Accepted? then Some(r.body.state) else None
  }

  /** `r` is the decision on `c` at head `head`, for some state of the labels and of the other issues. */
  ghost predicate Answers(cfg: Config, c: Command, head: Option<Receipt>, req: Request, r: Receipt) {
    exists ready: bool, conflict: Option<Reason> ::
      IsConflict(cfg.rules, conflict) && r.body == DecisionBody(cfg.rules, c, head, req.now, req.sha, ready, conflict)
  }

  lemma DecideSteps(cfg: Config, w: World, req: Request, c: Command)
    requires Good(cfg, w) && req.number in w.issues && w.issues[req.number].open && w.clock == req.now
    requires ValidCommand(cfg.rules, c) && cfg.rules.isSha(req.sha) && c.issue == cfg.Ref(req.number)
    requires !Due(Head(cfg, w.issues[req.number]), w.clock)
    requires ConflictReason(cfg, w, req, c).Ok?
    ensures var (w', outcome) := Decide(cfg, w, req, c, Head(cfg, w.issues[req.number]));
            && outcome.Ok? && Good(cfg, w') && (Exclusive(cfg, w) ==> Exclusive(cfg, w'))
            && Grew(cfg, w, w', req.number, [outcome.value])
            && Answers(cfg, c, Head(cfg, w.issues[req.number]), req, outcome.value)
  {
    hide Defect, HandlerLog, Log, Step, ValidCommand, ConflictAmong, DecisionBody, IsConflict;
    var n := req.number;
    var head := Head(cfg, w.issues[n]);
    var conflict := ConflictReason(cfg, w, req, c).value;
    ConflictIsFormatted(cfg, w, req, c);
    DecisionIsStep(cfg, w, req, c, conflict);
    AcceptedBody(cfg.rules, c, head, req.now, req.sha, IsReady(w, n), conflict);
    var r := DecideCommand(cfg.rules, c, head, req.now, req.sha, IsReady(w, n), conflict).value;
    assert Decide(cfg, w, req, c, head).0 == Append(cfg, w, n, r, Mark(r));
    AppendGrows(cfg, w, n, r, Mark(r));
    AppendKeepsGood(cfg, w, n, r, Mark(r));
    if Exclusive(cfg, w) {
      if Opens(r) {
        NoConflictIsApart(cfg, w, n, r);
      }
      AppendKeepsExclusive(cfg, w, n, r, Mark(r));
    }
  }

  lemma MissingBlockerStops(cfg: Config, w: World, req: Request, c: Command)
    requires req.number in w.issues && ConflictReason(cfg, w, req, c).Err?
    ensures c.action.Claim? && req.openBlockers.Err?
    ensures Decide(cfg, w, req, c, Head(cfg, w.issues[req.number])) == (w, Err(MissingBlocker))
  {
    hide StateOf, Log;
  }

  /** Once admitted, a command appends the expiry of a due lease and then, unless a blocker is
      missing, exactly one decision. */
  ghost predicate Handled(cfg: Config, w: World, w': World, req: Request, c: Command, outcome: Result<Receipt, Failure>)
    requires req.number in w.issues
  {
    var expiry := Expiry(cfg, w, req.number, w.clock, req.sha);
    if c.action.Claim? && req.openBlockers.Err? then
      outcome == Err(MissingBlocker) && Grew(cfg, w, w', req.number, expiry)
    else
      && outcome.Ok? && Grew(cfg, w, w', req.number, expiry + [outcome.value])
      && Answers(cfg, c, Last(Log(cfg, w.issues[req.number]) + expiry), req, outcome.value)
  }

  lemma AdmittedSteps(cfg: Config, w: World, req: Request, c: Command)
    requires Good(cfg, w) && w.clock == req.now && cfg.rules.isSha(req.sha) && ValidCommand(cfg.rules, c)
    requires req.number in w.issues && w.issues[req.number].open && Admit(cfg, req) == Ok(c)
    ensures var (w', outcome) := HandleComment(cfg, w, req);
            && Good(cfg, w') && (Exclusive(cfg, w) ==> Exclusive(cfg, w'))
            && Handled(cfg, w, w', req, c, outcome)
  {
    hide Defect, HandlerLog, Log, Step, ValidCommand, Expiry, Materialize, Decide, StateOf, Answers, ConflictReason,
        Healthy, Visible, Due, Exclusive;
    var n := req.number;
    assert c.issue == cfg.Ref(n);
    assert Healthy(cfg, n, w.issues[n], w.clock, w.nextComment);
    StateOfHealthy(cfg, n, w.issues[n], w.clock, w.nextComment);
    MaterializeSteps(cfg, w, n, req.sha);
    var w1 := Materialize(cfg, w, n, Head(cfg, w.issues[n]), w.clock, req.sha).value.0;
    var expiry := Expiry(cfg, w, n, req.now, req.sha);
    var log, log1 := Log(cfg, w.issues[n]), Log(cfg, w1.issues[n]);
    assert w.(clock := req.now) == w;
    if ConflictReason(cfg, w1, req, c).Ok? {
      DecideSteps(cfg, w1, req, c);
      var r := Decide(cfg, w1, req, c, Head(cfg, w1.issues[n])).1.value;
      assert log1 + [r] == log + (expiry + [r]);
      ConflictNeedsBlockers(cfg, w1, req, c);
    } else {
      MissingBlockerStops(cfg, w1, req, c);
    }
  }

  lemma ConflictNeedsBlockers(cfg: Config, w: World, req: Request, c: Command)
    requires ConflictReason(cfg, w, req, c).Ok?
    ensures !(c.action.Claim? && req.openBlockers.Err?)
  {
  }

  /** A handled comment keeps the invariants, whatever becomes of it. */
  lemma {:induction false} HandleSteps(cfg: Config, w0: World, req: Request)
    requires Good(cfg, w0) && Admissible(cfg, w0, req)
    ensures var (w', outcome) := HandleComment(cfg, w0, req);
            var w := w0.(clock := req.now);
            && Good(cfg, w') && (Exclusive(cfg, w0) ==> Exclusive(cfg, w'))
            && if req.number !in w.issues then w' == w && outcome == Err(NoSuchIssue)
               else match Admit(cfg, req)
                 case Err(e) => w' == w && outcome == Err(e)
                 case Ok(c) => Handled(cfg, w, w', req, c, outcome)
  {
    hide Good, Exclusive, Handled, ValidCommand, StateOf, Materialize, Decide;
    var w := w0.(clock := req.now);
    ClockKeeps(cfg, w0, req.now);
    if req.number in w.issues && Admit(cfg, req).Ok? {
      AdmittedSteps(cfg, w, req, Admit(cfg, req).value);
      assert HandleComment(cfg, w, req) == HandleComment(cfg, w0, req);
    }
  }
}
