/** A whole handler call, branch by branch: which requests are refused before the log is read, which commands are then
    accepted, and every comment and label that is left behind. */
module CoordinationHandling {
  import opened Wrappers
  import opened Claims
  import opened ReceiptLog
  import opened Coordination
  import opened CoordinationDrift
  import opened CoordinationInvariants
  import opened CoordinationLabels
  import opened CoordinationSteps
  import opened CoordinationSweep
  import opened Decisions
  import opened Sorting

  // Before the log is read.

  /** The account may speak for the principal. */
  predicate MaySpeak(cfg: Config, principal: string, author: string) {
    && principal in cfg.principals && cfg.principals[principal].enabled == true
    && author in cfg.principals[principal].logins
  }

  /** The request carries the command `c`, about this issue, under its slash command, from an account that may give
      it. */
  predicate Carries(cfg: Config, req: Request, c: Command) {
    && req.parsed == Ok(Some(c)) && c.issue.repository == cfg.repository && c.issue.number == req.number
    && req.slash == Some(c.action) && MaySpeak(cfg, c.scope.principal, req.author)
  }

  /** Why a command is not even looked at. */
  predicate HasUnreadReason(cfg: Config, req: Request, c: Command, outcome: Result<Receipt, Failure>) {
    var here := c.issue.repository == cfg.repository && c.issue.number == req.number;
    var same := req.slash == Some(c.action);
    && (outcome == Err(OtherIssue) <==> !here)
    && (outcome == Err(SlashMismatch) <==> here && !same)
    && (outcome == Err(Unauthorized) <==> here && same && !MaySpeak(cfg, c.scope.principal, req.author))
  }

  lemma {:induction false} CollectFaults(cfg: Config, comments: seq<Comment>)
    requires Collect(cfg, comments).Err?
    ensures Collect(cfg, comments).error.UnreadableReceipt? || Collect(cfg, comments).error.InvalidReceipt?
    decreases comments
  {
    hide Defect;
    if Collect(cfg, comments[..|comments| - 1]).Err? {
      CollectFaults(cfg, comments[..|comments| - 1]);
    }
  }

  lemma StateFaults(cfg: Config, n: nat, comments: seq<Comment>)
    requires StateOf(cfg, n, comments).Err?
    ensures var e := StateOf(cfg, n, comments).error;
            e.UnreadableReceipt? || e.InvalidReceipt? || e.BrokenLog?
  {
    hide Collect;
    if Collect(cfg, comments).Err? {
      CollectFaults(cfg, comments);
    }
  }

  lemma LaterFaults(cfg: Config, w: World, req: Request, c: Command)
    requires req.number in w.issues && Admit(cfg, req) == Ok(c)
    requires HandleComment(cfg, w, req).1.Err?
    ensures var e := HandleComment(cfg, w, req).1.error;
            e.UnreadableReceipt? || e.InvalidReceipt? || e.BrokenLog? || e.MissingBlocker? || e.Unpublishable?
  {
    hide StateOf, DecideCommand, ExpireIfDue, Admit, ResourceConflict;
    var comments := w.issues[req.number].comments;
    if StateOf(cfg, req.number, comments).Err? {
      StateFaults(cfg, req.number, comments);
    }
  }

  /** Every refusal before the log is read has its own condition, and changes nothing but the clock. */
  lemma RefusedUnread(cfg: Config, w: World, req: Request)
    ensures var (w', outcome) := HandleComment(cfg, w, req);
            && (outcome == Err(NoSuchIssue) <==> req.number !in w.issues)
            && (req.number in w.issues ==>
                  && (outcome == Err(MalformedCommand) <==> req.parsed.Err?)
                  && (outcome == Err(NoCommand) <==> req.parsed == Ok(None))
                  && (req.parsed.Ok? && req.parsed.value.Some? ==>
                        HasUnreadReason(cfg, req, req.parsed.value.value, outcome)))
            && (req.number !in w.issues || !(exists c :: Carries(cfg, req, c)) ==> w' == w.(clock := req.now))
  {
    hide StateOf, Materialize, Decide;
    if req.number in w.issues {
      if Admit(cfg, req).Ok? {
        var c := Admit(cfg, req).value;
        assert Carries(cfg, req, c);
        if HandleComment(cfg, w, req).1.Err? {
          LaterFaults(cfg, w, req, c);
        }
      }
    }
  }

  /** A log that cannot be read stops the handler, and changes nothing but the clock. */
  lemma UnreadableStops(cfg: Config, w: World, req: Request, c: Command)
    requires req.number in w.issues && Carries(cfg, req, c) && Seen(cfg, w, req.number).Err?
    ensures HandleComment(cfg, w, req) == (w.(clock := req.now), Err(Seen(cfg, w, req.number).error))
  {
    hide StateOf;
  }

  // The scan.

  /** An open issue that carries the label of an active claim. */
  predicate IsClaimed(w: World, i: nat) {
    i in w.issues && w.issues[i].open && (StatusClaimed in w.issues[i].labels || StatusReview in w.issues[i].labels)
  }

  /** What the head of another issue has against a claim on these resources: nothing, or one of two reasons. */
  predicate Blocks(state: Result<Option<Receipt>, Failure>, scope: Scope, now: Time) {
    state.Err? || OverlapsLive(state.value, scope, now)
  }

  predicate OverlapsLive(head: Option<Receipt>, scope: Scope, now: Time) {
    && Holds(head, now)
    && !(head.value.body.scope.principal == scope.principal && head.value.body.scope.sessionId == scope.sessionId)
    && exists r :: r in scope.resources && r in head.value.body.scope.resources
  }

  lemma {:induction false} FirstBlocking(cfg: Config, w: World, n: nat, others: seq<nat>, scope: Scope, now: Time)
      returns (hit: Option<nat>)
    requires Climbs(others) && forall i :: i in others ==> i in w.issues
    ensures match hit
            case None =>
              && ConflictAmong(cfg, w, n, others, scope, now) == None
              && forall i :: i in others && i != n ==> !Blocks(Seen(cfg, w, i), scope, now)
            case Some(k) =>
              && k in others && k != n && Blocks(Seen(cfg, w, k), scope, now)
              && (forall i :: i in others && i < k && i != n ==> !Blocks(Seen(cfg, w, i), scope, now))
              && ConflictAmong(cfg, w, n, others, scope, now) ==
                 Some(if Seen(cfg, w, k).Err? then ResourceStateUnavailable else ResourceConflicting)
    decreases |others|
  {
    hide StateOf, Blocks, Seen;
    hit := None;
    if others != [] {
      var first, rest := others[0], others[1..];
      assert others == [first] + rest;
      ClimbsBelow(others);
      OneBlocks(cfg, w, first, scope, now);
      if first != n && Blocks(Seen(cfg, w, first), scope, now) {
        hit := Some(first);
      } else {
        hit := FirstBlocking(cfg, w, n, rest, scope, now);
      }
    }
  }

  lemma OneBlocks(cfg: Config, w: World, i: nat, scope: Scope, now: Time)
    requires i in w.issues
    ensures ConflictWith(cfg, w, i, scope, now) ==
            if !Blocks(Seen(cfg, w, i), scope, now) then None
            else Some(if Seen(cfg, w, i).Err? then ResourceStateUnavailable else ResourceConflicting)
  {
    hide StateOf;
  }

  /** The scan's verdict: the first claimed issue that blocks, in ascending order, gives the reason. */
  lemma ScanExactly(cfg: Config, w: World, n: nat, scope: Scope, now: Time) returns (hit: Option<nat>)
    ensures match hit
            case None =>
              && ResourceConflict(cfg, w, n, scope, now) == None
              && forall i :: i in w.issues && IsClaimed(w, i) && i != n ==> !Blocks(Seen(cfg, w, i), scope, now)
            case Some(k) =>
              && k in w.issues && IsClaimed(w, k) && k != n && Blocks(Seen(cfg, w, k), scope, now)
              && (forall i :: i in w.issues && IsClaimed(w, i) && i < k && i != n ==>
                    !Blocks(Seen(cfg, w, i), scope, now))
              && ResourceConflict(cfg, w, n, scope, now) ==
                 Some(if Seen(cfg, w, k).Err? then ResourceStateUnavailable else ResourceConflicting)
  {
    hide StateOf, Blocks, Seen;
    AscendingIsSorted(Scanned(w));
    assert forall i :: i in Ascending(Scanned(w)) <==> IsClaimed(w, i);
    hit := FirstBlocking(cfg, w, n, Ascending(Scanned(w)), scope, now);
  }

  // The decision.

  /** Nothing stands against a claim: no blocker is open, and no claimed issue blocks its resources. */
  predicate IsUncontested(cfg: Config, w: World, req: Request, c: Command) {
    c.action == Claim ==>
      && req.openBlockers == Ok(false)
      && forall i :: i in w.issues && IsClaimed(w, i) && i != req.number ==> !Blocks(Seen(cfg, w, i), c.scope, req.now)
  }

  /** Why a contested claim is refused, as text: open blockers come first, and then the first issue that blocks. */
  predicate IsContestedText(cfg: Config, w: World, req: Request, c: Command, text: string) {
    && (req.openBlockers == Ok(true) ==> text == "dependency_blocked")
    && (req.openBlockers == Ok(false) ==>
          exists i :: i in w.issues && IsClaimed(w, i) && i != req.number &&
            Blocks(Seen(cfg, w, i), c.scope, req.now) &&
            (forall j :: j in w.issues && IsClaimed(w, j) && j < i && j != req.number ==>
               !Blocks(Seen(cfg, w, j), c.scope, req.now)) &&
            text == if Seen(cfg, w, i).Err? then "resource_state_unavailable" else "resource_conflict")
  }

  /** The two worlds differ in one issue at most. */
  predicate SameElsewhere(w: World, w': World, n: nat) {
    w'.issues.Keys == w.issues.Keys && forall i :: i in w.issues && i != n ==> w'.issues[i] == w.issues[i]
  }

  lemma SameScan(cfg: Config, w: World, w1: World, n: nat)
    requires SameElsewhere(w, w1, n)
    ensures forall i :: i in w.issues && i != n ==>
              i in w1.issues && Seen(cfg, w1, i) == Seen(cfg, w, i) && (IsClaimed(w1, i) <==> IsClaimed(w, i))
  {
    hide StateOf;
  }

  lemma ContestedExactly(cfg: Config, w: World, w1: World, req: Request, c: Command)
    requires SameElsewhere(w, w1, req.number) && ConflictReason(cfg, w1, req, c).Ok?
    ensures var conflict := ConflictReason(cfg, w1, req, c).value;
            && IsConflict(cfg.rules, conflict) && (conflict == None <==> IsUncontested(cfg, w, req, c))
            && (conflict != None ==> IsContestedText(cfg, w, req, c, conflict.value.Text()))
  {
    hide StateOf, Blocks, Seen, IsClaimed, ResourceConflict;
    ConflictIsFormatted(cfg, w1, req, c);
    if c.action.Claim? && req.openBlockers == Ok(false) {
      var hit := ScanExactly(cfg, w1, req.number, c.scope, req.now);
      SameScan(cfg, w, w1, req.number);
    }
  }

  /** What a call that answers leaves behind: the expiry of a lapsed head, and then the answer. */
  predicate Leaves(cfg: Config, w: World, w': World, req: Request, lapsed: bool, posted: seq<Receipt>, r: Receipt)
    requires req.number in w.issues
  {
    var n, issue, id := req.number, w.issues[req.number], w.nextComment;
    && |posted| == (if lapsed then 1 else 0)
    && SameElsewhere(w, w', n) && w'.clock == req.now && w'.nextComment == id + |posted| + 1
    && w'.issues[n].open == issue.open
    && w'.issues[n].comments == issue.comments +
       (if lapsed then [Comment(id, cfg.bot, Block(posted[0])), Comment(id + 1, cfg.bot, Block(r))]
        else [Comment(id, cfg.bot, Block(r))])
    && (r.body.decision != Accepted && !lapsed ==> w'.issues[n].labels == issue.labels)
  }

  /** After a lapsed head the issue is ready, and after an acceptance it shows the state of the receipt. */
  ghost predicate HasLabels(w: World, w': World, n: nat, lapsed: bool, r: Receipt)
    requires n in w.issues && n in w'.issues
  {
    && SamePlain(w'.issues[n].labels, w.issues[n].labels)
    && (r.body.decision == Accepted ==> Shows(w'.issues[n].labels, r.body.state))
    && (r.body.decision != Accepted && lapsed ==> Shows(w'.issues[n].labels, Ready))
  }

  /** When a command is accepted on head `p`, and what its receipt then says. */
  predicate IsDecided(cfg: Config, w: World, req: Request, c: Command, p: Option<Receipt>, ready: bool, r: Receipt) {
    var free := IsUncontested(cfg, w, req, c);
    && IsAnswer(cfg.rules, c, p, req.now, req.sha, r)
    && (r.body.decision == Accepted <==>
          IsHeard(cfg.rules, c, p, req.now, None) && free && IsDue(c, p, req.now, ready))
    && (if r.body.decision == Accepted then DoesAsAsked(c, p, req.now, r.body) else LeavesAsIs(c, p, req.now, r.body))
    && (free ==> HasReason(cfg.rules, c, p, req.now, ready, None, r.body))
    && (!free && IsHeard(cfg.rules, c, p, req.now, None) ==> IsContestedText(cfg, w, req, c, r.body.reason.Text()))
  }

  lemma DecidedExactly(cfg: Config, w: World, w1: World, req: Request, c: Command, p: Option<Receipt>)
    requires req.number in w1.issues && SameElsewhere(w, w1, req.number) && !c.action.Expire?
    requires Decide(cfg, w1, req, c, p).1.Ok?
    ensures var (w', outcome) := Decide(cfg, w1, req, c, p);
            && IsDecided(cfg, w, req, c, p, StatusReady in w1.issues[req.number].labels, outcome.value)
            && w' == if outcome.value.body.decision == Accepted
                     then Relabel(Post(cfg, w1, req.number, outcome.value), req.number, outcome.value.body.state)
                     else Post(cfg, w1, req.number, outcome.value)
  {
    hide DecideCommand, ConflictReason, IsUncontested, IsContestedText, IsAnswer, HasReason, IsDue, DoesAsAsked,
        LeavesAsIs, IsConflict, Post, Relabel;
    var conflict, ready := ConflictReason(cfg, w1, req, c).value, StatusReady in w1.issues[req.number].labels;
    ContestedExactly(cfg, w, w1, req, c);
    DecisionExactly(cfg.rules, c, p, req.now, req.sha, ready, conflict);
    HeardOrNot(cfg.rules, c, p, req.now, ready, conflict, Decide(cfg, w1, req, c, p).1.value.body);
  }

  lemma HeardOrNot(
    rules: Rules, c: Command, p: Option<Receipt>, now: Time, ready: bool, conflict: Option<Reason>, b: Body)
    requires HasReason(rules, c, p, now, ready, conflict, b)
    ensures conflict != None && IsHeard(rules, c, p, now, None) ==> b.reason == conflict.value
    ensures IsHeard(rules, c, p, now, conflict) <==> IsHeard(rules, c, p, now, None) && conflict == None
  {
  }

  /** A handler call that answers, in any repository: what it decides, why, and everything that it leaves behind. */
  lemma HandleExactly(cfg: Config, w: World, req: Request, c: Command, head: Option<Receipt>)
      returns (posted: seq<Receipt>)
    requires req.number in w.issues && Carries(cfg, req, c) && Seen(cfg, w, req.number) == Ok(head)
    requires !c.action.Expire? && HandleComment(cfg, w, req).1.Ok?
    ensures var (w', outcome) := HandleComment(cfg, w, req);
            var lapsed, r := HasLapsed(head, req.now), outcome.value;
            && Leaves(cfg, w, w', req, lapsed, posted, r) && HasLabels(w, w', req.number, lapsed, r)
            && (lapsed ==> EndsClaim(cfg.rules, head.value, req.now, req.sha, posted[0]))
            && IsDecided(cfg, w, req, c, if lapsed then Some(posted[0]) else head,
                         lapsed || StatusReady in w.issues[req.number].labels, r)
  {
    hide StateOf, Decide, ExpireIfDue, SetStatus, IsDecided, EndsClaim, HasLapsed, SamePlain, Shows;
    var n, now := req.number, w.(clock := req.now);
    ExpiryExactly(cfg.rules, head, req.now, req.sha);
    var lapsed := HasLapsed(head, req.now);
    posted := [];
    var w1, p := now, head;
    if lapsed {
      var e := ExpireIfDue(cfg.rules, head, req.now, req.sha).value.value;
      posted, p, w1 := [e], Some(e), Relabel(Post(cfg, now, n, e), n, Ready);
      SetStatusExactly(w.issues[n].labels, Ready);
    }
    DecidedExactly(cfg, w, w1, req, c, p);
    SetStatusExactly(w1.issues[n].labels, HandleComment(cfg, w, req).1.value.body.state);
    SamePlainThrough(HandleComment(cfg, w, req).0.issues[n].labels, w1.issues[n].labels, w.issues[n].labels);
    ReadyShows(w1.issues[n].labels);
  }

  /** A claim that is heard while a blocker is open is rejected for it, whatever else stands against it. */
  lemma OpenBlockersReject(cfg: Config, w: World, req: Request, c: Command, head: Option<Receipt>)
      returns (posted: seq<Receipt>)
    requires req.number in w.issues && Carries(cfg, req, c) && Seen(cfg, w, req.number) == Ok(head)
    requires c.action == Claim && req.openBlockers == Ok(true) && HandleComment(cfg, w, req).1.Ok?
    ensures var r, lapsed := HandleComment(cfg, w, req).1.value, HasLapsed(head, req.now);
            && (lapsed ==> |posted| == 1 && EndsClaim(cfg.rules, head.value, req.now, req.sha, posted[0]))
            && (IsHeard(cfg.rules, c, if lapsed then Some(posted[0]) else head, req.now, None) ==>
                  r.body.decision == Rejected && r.body.reason.Text() == "dependency_blocked")
  {
    hide HandleComment, HasLapsed, EndsClaim, IsHeard, IsAnswer, HasReason, IsDue, HasLabels;
    posted := HandleExactly(cfg, w, req, c, head);
  }

  lemma SamePlainThrough(a: set<Label>, b: set<Label>, c: set<Label>)
    ensures SamePlain(a, b) && SamePlain(b, c) ==> SamePlain(a, c)
    ensures SamePlain(a, a) && SamePlain(b, b) && SamePlain(c, c)
  {
  }

  lemma ReadyShows(labels: set<Label>)
    ensures Shows(labels, Ready) ==> StatusReady in labels
  {
  }

  /** In a repository that satisfies the invariants every command that is carried gets an answer, except a claim whose
      blockers cannot be found, which posts the expiry of a lapsed head and nothing else. */
  lemma AnsweredExactly(cfg: Config, w: World, req: Request, c: Command)
    requires Good(cfg, w) && Admissible(cfg, w, req) && req.number in w.issues && Carries(cfg, req, c)
    ensures var outcome := HandleComment(cfg, w, req).1;
            if c.action == Claim && req.openBlockers.Err? then outcome == Err(MissingBlocker) else outcome.Ok?
  {
    hide Good, Grew, Answers, HandleComment, Expiry;
    HandleSteps(cfg, w, req);
    assert Admit(cfg, req) == Ok(c);
  }

  // Expiring.

  /** Expiring one issue, in any repository: it posts the expiry of a lapsed head and makes the issue ready; a head that
      has not lapsed only gets its label back. */
  lemma ExpireExactly(cfg: Config, w: World, n: nat, now: Time, sha: string) returns (posted: seq<Receipt>)
    requires n in w.issues && Seen(cfg, w, n).Ok? && ExpireIssue(cfg, w, n, now, sha).1.Ok?
    ensures var (w', outcome), head := ExpireIssue(cfg, w, n, now, sha), Seen(cfg, w, n).value;
            var lapsed, issue, id := HasLapsed(head, now), w.issues[n], w.nextComment;
            && outcome.value == lapsed && |posted| == (if lapsed then 1 else 0)
            && (lapsed ==> EndsClaim(cfg.rules, head.value, now, sha, posted[0]))
            && SameElsewhere(w, w', n) && w'.clock == now && w'.nextComment == id + |posted|
            && w'.issues[n].open == issue.open && SamePlain(w'.issues[n].labels, issue.labels)
            && w'.issues[n].comments ==
               issue.comments + (if lapsed then [Comment(id, cfg.bot, Block(posted[0]))] else [])
            && (lapsed ==> Shows(w'.issues[n].labels, Ready))
            && (!lapsed && head != None ==> Shows(w'.issues[n].labels, head.value.body.state))
            && (head == None ==> w'.issues[n].labels == issue.labels)
  {
    hide StateOf, SetStatus, ExpireIfDue, EndsClaim, SamePlain, Shows;
    var head, issue := Seen(cfg, w, n).value, w.issues[n];
    ExpiryExactly(cfg.rules, head, now, sha);
    posted := if HasLapsed(head, now) then [ExpireIfDue(cfg.rules, head, now, sha).value.value] else [];
    SetStatusExactly(issue.labels, Ready);
    SamePlainThrough(issue.labels, issue.labels, issue.labels);
    assert issue.comments + [] == issue.comments;
    if head != None {
      SetStatusExactly(issue.labels, head.value.body.state);
    }
  }

  /** Expiring fails for an unknown issue, for a log that cannot be read, and for nothing else if the commit is one. */
  lemma ExpireFails(cfg: Config, w: World, n: nat, now: Time, sha: string)
    requires cfg.rules.isSha(sha) && Numbered(w)
    ensures var (w', outcome) := ExpireIssue(cfg, w, n, now, sha);
            && (n !in w.issues ==> outcome == Err(NoSuchIssue))
            && (n in w.issues && Seen(cfg, w, n).Err? ==> outcome == Err(Seen(cfg, w, n).error))
            && (n in w.issues && Seen(cfg, w, n).Ok? ==> outcome.Ok?)
            && (outcome.Err? ==> w' == w.(clock := now))
  {
    hide StateOf, Defect;
    if n in w.issues && Seen(cfg, w, n).Ok? {
      SeenIsChain(cfg, n, w.issues[n].comments, w.nextComment);
      var head := Seen(cfg, w, n).value;
      if head.Some? {
        ExpiryTotal(cfg.rules, head.value, now, sha);
      }
    }
  }

  lemma {:induction false} PassClimbs(cfg: Config, s: SweepResult, rest: seq<nat>, now: Time, sha: string)
    requires Climbs(s.expired) && Climbs(s.failed) && Climbs(rest)
    requires forall k, n :: (k in s.expired || k in s.failed) && n in rest ==> k < n
    ensures var r := SweepIssues(cfg, s, rest, now, sha); Climbs(r.expired) && Climbs(r.failed)
    decreases |rest|
  {
    hide ExpireIssue, Climbs;
    if rest != [] {
      var n := rest[0];
      var (w, outcome) := ExpireIssue(cfg, s.world, n, now, sha);
      ClimbsBelow(rest);
      assert rest == [n] + rest[1..] && n in rest;
      forall k | k in s.expired || k in s.failed ensures k < n {
        assert n in rest;
      }
      AppendClimbs(s.expired, n);
      AppendClimbs(s.failed, n);
      PassClimbs(cfg, Next(s, n, w, outcome), rest[1..], now, sha);
    }
  }

  /** A sweep reports the issues that it expired and those that failed in ascending order, each once. */
  lemma ReportsClimb(cfg: Config, w: World, now: Time, sha: string)
    ensures var r := ExpireAll(cfg, w, now, sha); Climbs(r.expired) && Climbs(r.failed)
  {
    hide SweepIssues;
    var at := w.(clock := now);
    AscendingIsSorted(Swept(w));
    assert Swept(at) == Swept(w);
    PassClimbs(cfg, SweepResult(at, [], []), Ascending(Swept(w)), now, sha);
  }

  // Reading.

  /** A comment of a trusted account whose receipt cannot be used. */
  predicate IsBad(cfg: Config, c: Comment) {
    && c.author in cfg.receiptAuthors
    && (c.content == Unreadable || (c.content.Block? && !ValidReceipt(cfg.rules, c.content.receipt)))
  }

  /** Why the comment cannot be used. */
  predicate IsBadFor(cfg: Config, c: Comment, fault: Failure) {
    if c.content == Unreadable then fault == UnreadableReceipt
    else c.content.Block? && fault.InvalidReceipt? && Defect(cfg.rules, c.content.receipt) == Some(fault.fault)
  }

  /** Comments are read up to the first of a trusted account that is bad; all others count for nothing. */
  lemma {:induction false} CollectExactly(cfg: Config, comments: seq<Comment>)
    ensures match Collect(cfg, comments)
            case Ok(ps) =>
              (forall i :: 0 <= i < |comments| ==> !IsBad(cfg, comments[i])) && ps == Trusted(cfg, comments)
            case Err(fault) =>
              exists k :: 0 <= k < |comments| && IsBad(cfg, comments[k]) && IsBadFor(cfg, comments[k], fault) &&
                forall i :: 0 <= i < k ==> !IsBad(cfg, comments[i])
    decreases comments
  {
    hide Defect;
    if comments != [] {
      var front, c := comments[..|comments| - 1], comments[|comments| - 1];
      CollectExactly(cfg, front);
      assert Trusted(cfg, front) + [] == Trusted(cfg, front);
      assert forall i :: 0 <= i < |front| ==> comments[i] == front[i];
      if Collect(cfg, front).Err? {
        var k :| 0 <= k < |front| && IsBad(cfg, front[k]) && IsBadFor(cfg, front[k], Collect(cfg, front).error) &&
          forall i :: 0 <= i < k ==> !IsBad(cfg, front[i]);
        assert comments[k] == front[k];
      }
    }
  }

  /** The state of an issue: what its trusted receipts reduce to, if none is bad. */
  lemma StateExactly(cfg: Config, n: nat, comments: seq<Comment>)
    ensures var state := StateOf(cfg, n, comments);
            if exists i :: 0 <= i < |comments| && IsBad(cfg, comments[i]) then
              state.Err? && Collect(cfg, comments) == Err(state.error)
            else
              match Reduce(Trusted(cfg, comments), IssueRef(cfg.repository, n))
              case Ok(head) => state == Ok(head)
              case Err(fault) => state == Err(BrokenLog(fault))
  {
    hide IsBad, IsBadFor, Reduce;
    CollectExactly(cfg, comments);
  }
}
