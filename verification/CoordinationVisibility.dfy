/** Exclusion rests on what the conflict scan can see. Exactly when an accepted claim keeps it,
    and what happens when the holder of a resource is hidden from the scan. */
module CoordinationVisibility {
  import opened Wrappers
  import opened Claims
  import opened ReceiptLog
  import opened HandlerLogs
  import opened Coordination
  import opened CoordinationInvariants
  import opened CoordinationSteps
  import opened Sorting

  /** Comments of untrusted accounts, wherever they stand and whatever they say, are inert. */
  lemma {:induction false} UntrustedIsInert(cfg: Config, n: nat, before: seq<Comment>, c: Comment, after: seq<Comment>)
    requires c.author !in cfg.receiptAuthors
    ensures Collect(cfg, before + [c] + after) == Collect(cfg, before + after)
    ensures StateOf(cfg, n, before + [c] + after) == StateOf(cfg, n, before + after)
    decreases |after|
  {
    hide Defect, Reduce;
    var with, without := before + [c] + after, before + after;
    if after == [] {
      assert with[..|with| - 1] == before && without == before;
    } else {
      var front := after[..|after| - 1];
      UntrustedIsInert(cfg, n, before, c, front);
      assert with[..|with| - 1] == before + [c] + front;
      assert without[..|without| - 1] == before + front;
    }
  }

  /** What stands in the log of an issue that is closed, or carries no active label, cannot
      influence the scan. */
  lemma ScanIgnoresHidden(cfg: Config, w: World, n: nat, scope: Scope, now: Time, hidden: nat, comments: seq<Comment>)
    requires hidden in w.issues && hidden !in Scanned(w)
    ensures var w' := WithIssue(w, hidden, w.issues[hidden].(comments := comments));
            ResourceConflict(cfg, w', n, scope, now) == ResourceConflict(cfg, w, n, scope, now)
  {
    hide StateOf, ConflictAmong;
    var w' := WithIssue(w, hidden, w.issues[hidden].(comments := comments));
    assert Scanned(w') == Scanned(w);
    SameConflict(cfg, w, w', n, Ascending(Scanned(w)), scope, now);
  }

  lemma {:induction false} SameConflict(
    cfg: Config, w: World, w': World, n: nat, others: seq<nat>, scope: Scope, now: Time)
    requires forall i :: i in others ==> i in w.issues && i in w'.issues && w.issues[i] == w'.issues[i]
    ensures ConflictAmong(cfg, w, n, others, scope, now) == ConflictAmong(cfg, w', n, others, scope, now)
    decreases |others|
  {
    hide StateOf;
    if others != [] {
      SameConflict(cfg, w, w', n, others[1..], scope, now);
    }
  }

  lemma AppendExclusiveExactly(cfg: Config, w: World, n: nat, r: Receipt, mark: Option<State>)
    requires GoodConfig(cfg) && Exclusive(cfg, w) && n in w.issues
    ensures Exclusive(cfg, Append(cfg, w, n, r, mark)) <==>
              forall j :: j in w.issues && j != n ==> Apart(Some(r), Head(cfg, w.issues[j]), w.clock)
  {
    hide Log, Apart;
    var w' := Append(cfg, w, n, r, mark);
    LogOfMarked(cfg, w, n, r, mark);
    if forall j :: j in w.issues && j != n ==> Apart(Some(r), Head(cfg, w.issues[j]), w.clock) {
      AppendKeepsExclusive(cfg, w, n, r, mark);
    } else {
      var j :| j in w.issues && j != n && !Apart(Some(r), Head(cfg, w.issues[j]), w.clock);
      assert !Apart(Head(cfg, w'.issues[n]), Head(cfg, w'.issues[j]), w'.clock);
    }
  }

  /** Every log can be read; nothing is said about labels or open issues. */
  ghost predicate HealthyLogs(cfg: Config, w: World) {
    && GoodConfig(cfg) && cfg.rules.CollisionFree()
    && forall n :: n in w.issues ==> Healthy(cfg, n, w.issues[n], w.clock, w.nextComment)
  }

  lemma HealthyClock(cfg: Config, w: World, now: Time)
    requires HealthyLogs(cfg, w) && w.clock <= now
    ensures HealthyLogs(cfg, w.(clock := now)) && (Exclusive(cfg, w) ==> Exclusive(cfg, w.(clock := now)))
  {
    hide HandlerLog, Log, Rules.CollisionFree;
    forall n | n in w.issues ensures Healthy(cfg, n, w.issues[n], now, w.nextComment) {
      HealthyLater(cfg, n, w.issues[n], w.clock, w.nextComment, now, w.nextComment);
    }
    if Exclusive(cfg, w) {
      forall i, j | i in w.issues && j in w.issues && i != j
        ensures Apart(Head(cfg, w.issues[i]), Head(cfg, w.issues[j]), now)
      {
        assert Apart(Head(cfg, w.issues[i]), Head(cfg, w.issues[j]), w.clock);
      }
    }
  }

  lemma AppendKeepsLogs(cfg: Config, w: World, n: nat, r: Receipt, mark: Option<State>)
    requires HealthyLogs(cfg, w) && n in w.issues
    requires Step(cfg.rules, cfg.Ref(n), Head(cfg, w.issues[n]), r) && r.body.at <= w.clock
    ensures HealthyLogs(cfg, Append(cfg, w, n, r, mark))
  {
    hide Defect, Step, HandlerLog, Log, Trusted, Healthy, Rules.CollisionFree;
    var w' := Append(cfg, w, n, r, mark);
    AppendIsHealthy(cfg, w, n, r, mark);
    forall i | i in w'.issues ensures Healthy(cfg, i, w'.issues[i], w'.clock, w'.nextComment) {
      if i != n {
        HealthyLater(cfg, i, w.issues[i], w.clock, w.nextComment, w'.clock, w'.nextComment);
      }
    }
  }

  /** Posting the expiry of a due head keeps the logs readable, exclusion, and the other issues. */
  lemma MaterializeKeepsLogs(cfg: Config, w: World, n: nat, sha: string)
    requires HealthyLogs(cfg, w) && n in w.issues && cfg.rules.isSha(sha)
    ensures var m := Materialize(cfg, w, n, Head(cfg, w.issues[n]), w.clock, sha);
            && m.Ok? && HealthyLogs(cfg, m.value.0) && (Exclusive(cfg, w) ==> Exclusive(cfg, m.value.0))
            && m.value.0.clock == w.clock && m.value.0.issues.Keys == w.issues.Keys
            && (forall i :: i in w.issues && i != n ==> m.value.0.issues[i] == w.issues[i])
            && m.value.1 == Head(cfg, m.value.0.issues[n])
  {
    hide Defect, HandlerLog, Log, Step, HealthyLogs, Rules.CollisionFree, Healthy, Exclusive;
    var head := Head(cfg, w.issues[n]);
    if Due(head, w.clock) {
      HealthyAt(cfg, w, n);
      ExpiryIsStep(cfg, w, n, sha);
      var r := ExpireIfDue(cfg.rules, head, w.clock, sha).value.value;
      assert Materialize(cfg, w, n, head, w.clock, sha).value.0 == Append(cfg, w, n, r, Some(Ready));
      AppendKeepsLogs(cfg, w, n, r, Some(Ready));
      if Exclusive(cfg, w) {
        AppendKeepsExclusive(cfg, w, n, r, Some(Ready));
      }
      LogOfMarked(cfg, w, n, r, Some(Ready));
    }
  }

  lemma HealthyAt(cfg: Config, w: World, n: nat)
    requires HealthyLogs(cfg, w) && n in w.issues
    ensures GoodConfig(cfg) && cfg.rules.CollisionFree() && Healthy(cfg, n, w.issues[n], w.clock, w.nextComment)
  {
  }

  /** An accepted claim keeps resource exclusion exactly if it is apart from the issues that the
      scan did not list: those closed or without an active label. */
  lemma {:induction false} ClaimExclusionExactly(cfg: Config, w: World, req: Request, c: Command)
    requires HealthyLogs(cfg, w) && Exclusive(cfg, w) && w.clock == req.now && req.number in w.issues
    requires Decide(cfg, w, req, c, Head(cfg, w.issues[req.number])).1.Ok?
    requires Opens(Decide(cfg, w, req, c, Head(cfg, w.issues[req.number])).1.value)
    ensures var (w', outcome) := Decide(cfg, w, req, c, Head(cfg, w.issues[req.number]));
            Exclusive(cfg, w') <==>
              forall j :: j in w.issues && j != req.number && j !in Scanned(w) ==>
                            Apart(Some(outcome.value), Head(cfg, w.issues[j]), w.clock)
  {
    hide Defect, Log, StateOf, DecisionBody, Exclusive, IsConflict, Healthy, ConflictAmong;
    var n := req.number;
    var head := Head(cfg, w.issues[n]);
    var (w', outcome) := Decide(cfg, w, req, c, head);
    var r := outcome.value;
    var conflict := ConflictReason(cfg, w, req, c).value;
    ConflictIsFormatted(cfg, w, req, c);
    AcceptedBody(cfg.rules, c, head, req.now, req.sha, IsReady(w, n), conflict);
    assert w' == Append(cfg, w, n, r, Mark(r));
    AppendExclusiveExactly(cfg, w, n, r, Mark(r));
    NoConflictExactly(cfg, w, n, r.body.scope, w.clock);
    forall j | j in w.issues && j != n && j in Scanned(w)
      ensures Apart(Some(r), Head(cfg, w.issues[j]), w.clock)
    {
      assert Healthy(cfg, j, w.issues[j], w.clock, w.nextComment);
      StateOfHealthy(cfg, j, w.issues[j], w.clock, w.nextComment);
    }
  }

  /** The same for a whole handler call, which may first expire the issue's own lease. */
  lemma HandledExclusionExactly(cfg: Config, w0: World, req: Request)
    requires HealthyLogs(cfg, w0) && Exclusive(cfg, w0) && w0.clock <= req.now && cfg.rules.isSha(req.sha)
    requires HandleComment(cfg, w0, req).1.Ok? && Opens(HandleComment(cfg, w0, req).1.value)
    ensures var (w', outcome) := HandleComment(cfg, w0, req);
            Exclusive(cfg, w') <==>
              forall j :: j in w0.issues && j != req.number && j !in Scanned(w0) ==>
                            Apart(Some(outcome.value), Head(cfg, w0.issues[j]), req.now)
  {
    hide Defect, Log, StateOf, Exclusive, Healthy, HealthyLogs, Materialize, Decide, Opens, Apart, Rules.CollisionFree;
    var n, w := req.number, w0.(clock := req.now);
    HealthyClock(cfg, w0, req.now);
    HealthyAt(cfg, w, n);
    StateOfHealthy(cfg, n, w.issues[n], w.clock, w.nextComment);
    MaterializeKeepsLogs(cfg, w, n, req.sha);
    var w1 := Materialize(cfg, w, n, Head(cfg, w.issues[n]), w.clock, req.sha).value.0;
    ClaimExclusionExactly(cfg, w1, req, Admit(cfg, req).value);
    forall j | j in w.issues && j != n ensures j in Scanned(w1) <==> j in Scanned(w0) {
      assert w1.issues[j] == w0.issues[j];
    }
  }
}
