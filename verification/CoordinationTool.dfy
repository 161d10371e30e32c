/** The tool itself: a repository whose issue comments and labels the handlers change in place.
    Every method is proved against the function of the same name on worlds. */
module CoordinationTool {
  import opened Wrappers
  import opened Claims
  import opened ReceiptLog
  import S = Coordination
  import opened Coordination
  import opened Sorting

  class Repository {
    const cfg: Config
    var issues: map<nat, Issue>
    var clock: Time
    var nextComment: nat

    constructor (cfg: Config, issues: map<nat, Issue>, now: Time, nextComment: nat)
      ensures this.cfg == cfg && View() == World(issues, now, nextComment)
    {
      this.cfg := cfg;
      this.issues := issues;
      this.clock := now;
      this.nextComment := nextComment;
    }

    function View(): World
      reads this
    {
      World(issues, clock, nextComment)
    }

    /** `_state`: only comments of trusted authors are evidence, and the first bad one raises. */
    method State(n: nat) returns (result: Result<Option<Receipt>, Failure>)
      requires n in issues
      ensures result == StateOf(cfg, n, issues[n].comments)
    {
      var comments := issues[n].comments;
      var receipts: seq<Posted> := [];
      assert comments[..0] == [];
      for i := 0 to |comments|
        invariant Collect(cfg, comments[..i]) == Ok(receipts)
      {
        var comment := comments[i];
        assert comments[..i + 1][..i] == comments[..i];
        if comment.author in cfg.receiptAuthors {
          match comment.content {
            case NoReceipt =>
            case Unreadable =>
              CollectStops(cfg, comments, i + 1);
              return Err(UnreadableReceipt);
            case Block(raw) =>
              match ValidateReceipt(cfg.rules, raw) {
                case Err(fault) =>
                  CollectStops(cfg, comments, i + 1);
                  return Err(InvalidReceipt(fault));
                case Ok(receipt) =>
                  receipts := receipts + [Posted(Some(comment.id), receipt)];
              }
          }
        }
      }
      assert comments[..|comments|] == comments;
      var reduced := ReduceReceipts(receipts, cfg.Ref(n));
      match reduced {
        case Err(fault) => result := Err(BrokenLog(fault));
        case Ok(head) => result := Ok(head);
      }
    }

    method PostReceipt(n: nat, r: Receipt)
      requires n in issues
      modifies this`issues, this`nextComment
      ensures View() == Post(cfg, old(View()), n, r)
    {
      var issue := issues[n];
      issues := issues[n := issue.(comments := issue.comments + [Comment(nextComment, cfg.bot, Block(r))])];
      nextComment := nextComment + 1;
    }

    method SetStatus(n: nat, state: State)
      requires n in issues
      modifies this`issues
      ensures View() == Relabel(old(View()), n, state)
    {
      var labels := set l | l in issues[n].labels && l.Plain?;
      labels := labels + {StatusLabel(state)};
      issues := issues[n := issues[n].(labels := labels)];
    }

    method ResourceConflict(number: nat, scope: Scope) returns (reason: Option<Reason>)
      ensures reason == S.ResourceConflict(cfg, View(), number, scope, clock)
    {
      var active := Ascending(Labelled(View(), StatusClaimed) + Labelled(View(), StatusReview));
      for i := 0 to |active|
        invariant forall other :: other in active[i..] ==> other in issues
        invariant ConflictAmong(cfg, View(), number, active[i..], scope, clock) ==
                  S.ResourceConflict(cfg, View(), number, scope, clock)
      {
        var other := active[i];
        assert other in active;
        assert active[i..][0] == other && active[i..][1..] == active[i + 1..];
        if other == number {
          continue;
        }
        var state := State(other);
        match state {
          case Err(_) => return Some(ResourceStateUnavailable);
          case Ok(None) =>
          case Ok(Some(head)) =>
            if head.IsLive(clock) && !head.body.scope.SameOwner(scope) && !scope.Disjoint(head.body.scope) {
              return Some(ResourceConflicting);
            }
        }
      }
      reason := None;
    }

    method HandleComment(req: Request) returns (outcome: Result<Receipt, Failure>)
      modifies this
      ensures (View(), outcome) == S.HandleComment(cfg, old(View()), req)
    {
      clock := req.now;
      if req.number !in issues {
        return Err(NoSuchIssue);
      }
      var admitted := Admit(cfg, req);
      if admitted.Err? {
        return Err(admitted.error);
      }
      var command := admitted.value;
      var state := State(req.number);
      if state.Err? {
        return Err(state.error);
      }
      var current := state.value;
      var expiry := ExpireIfDue(cfg.rules, current, clock, req.sha);
      if expiry.Some? {
        if expiry.value.Err? {
          return Err(Unpublishable(expiry.value.error));
        }
        PostReceipt(req.number, expiry.value.value);
        current := Some(expiry.value.value);
        SetStatus(req.number, Ready);
      }
      var conflict: Option<Reason> := None;
      if command.action.Claim? {
        if req.openBlockers.Err? {
          return Err(MissingBlocker);
        }
        if req.openBlockers.value {
          conflict := Some(DependencyBlocked);
        } else {
          conflict := ResourceConflict(req.number, command.scope);
        }
      }
      var ready := StatusReady in issues[req.number].labels;
      var decision := DecideCommand(cfg.rules, command, current, clock, req.sha, ready, conflict);
      if decision.Err? {
        return Err(Unpublishable(decision.error));
      }
      var receipt := decision.value;
      PostReceipt(req.number, receipt);
      if receipt.body.decision.Accepted? {
        SetStatus(req.number, receipt.body.state);
      }
      outcome := Ok(receipt);
    }

    method ExpireIssue(n: nat, now: Time, sha: string) returns (outcome: Result<bool, Failure>)
      modifies this
      ensures (View(), outcome) == S.ExpireIssue(cfg, old(View()), n, now, sha)
    {
      clock := now;
      if n !in issues {
        return Err(NoSuchIssue);
      }
      var state := State(n);
      if state.Err? {
        return Err(state.error);
      }
      var expiry := ExpireIfDue(cfg.rules, state.value, now, sha);
      if expiry.None? {
        if state.value.Some? {
          SetStatus(n, state.value.value.body.state);
        }
        return Ok(false);
      }
      if expiry.value.Err? {
        return Err(Unpublishable(expiry.value.error));
      }
      PostReceipt(n, expiry.value.value);
      SetStatus(n, Ready);
      outcome := Ok(true);
    }

    /** One corrupt issue does not stop the pass over the others. */
    method ExpireAll(now: Time, sha: string) returns (expired: seq<nat>, failures: seq<nat>)
      modifies this
      ensures SweepResult(View(), expired, failures) == S.ExpireAll(cfg, old(View()), now, sha)
    {
      var numbers := Ascending(Labelled(View(), StatusReady) +
                               (Labelled(View(), StatusClaimed) + Labelled(View(), StatusReview)));
      clock := now;
      expired, failures := [], [];
      assert Swept(View()) == Swept(old(View()));
      for i := 0 to |numbers|
        invariant SweepIssues(cfg, SweepResult(View(), expired, failures), numbers[i..], now, sha) ==
                  S.ExpireAll(cfg, old(View()), now, sha)
      {
        assert numbers[i..][0] == numbers[i] && numbers[i..][1..] == numbers[i + 1..];
        var outcome := ExpireIssue(numbers[i], now, sha);
        match outcome {
          case Err(_) => failures := failures + [numbers[i]];
          case Ok(true) => expired := expired + [numbers[i]];
          case Ok(false) =>
        }
      }
    }
  }

  /** What the first comments raise, all of them raise. */
  lemma {:induction false} CollectStops(cfg: Config, comments: seq<Comment>, k: nat)
    requires k <= |comments| && Collect(cfg, comments[..k]).Err?
    ensures Collect(cfg, comments) == Collect(cfg, comments[..k])
    decreases |comments|
  {
    if k < |comments| {
      var front := comments[..|comments| - 1];
      assert front[..k] == comments[..k];
      CollectStops(cfg, front, k);
    } else {
      assert comments[..k] == comments;
    }
  }
}
