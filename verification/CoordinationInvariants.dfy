/** What every handler call keeps: readable handler logs, labels that the conflict scan sees, and
    no two live claims of different owners on one resource. */
module CoordinationInvariants {
  import opened Wrappers
  import opened Claims
  import opened ReceiptLog
  import opened HandlerLogs
  import opened Coordination
  import opened Sorting

  // Logs as seen through the comments.

  /** The receipt blocks posted by trusted accounts. */
  function Trusted(cfg: Config, comments: seq<Comment>): seq<Posted> {
    if comments == [] then []
    else
      var c := comments[|comments| - 1];
      Trusted(cfg, comments[..|comments| - 1]) +
      if c.author in cfg.receiptAuthors && c.content.Block? then [Posted(Some(c.id), c.content.receipt)] else []
  }

  function Log(cfg: Config, issue: Issue): seq<Receipt> { Receipts(Trusted(cfg, issue.comments)) }

  function Head(cfg: Config, issue: Issue): Option<Receipt> { Last(Log(cfg, issue)) }

  predicate Readable(cfg: Config, comments: seq<Comment>) {
    forall c :: c in comments ==> c.author in cfg.receiptAuthors ==> !c.content.Unreadable?
  }

  predicate IdsBelow(comments: seq<Comment>, next: nat) {
    comments == [] ||
    var c := comments[|comments| - 1];
    c.id < next && IdsBelow(comments[..|comments| - 1], c.id)
  }

  /** The log was written by the handlers, and its head is not in the future. */
  ghost predicate Healthy(cfg: Config, n: nat, issue: Issue, clock: Time, next: nat) {
    && IdsBelow(issue.comments, next) && Readable(cfg, issue.comments)
    && HandlerLog(cfg.rules, cfg.Ref(n), Log(cfg, issue))
    && (Head(cfg, issue).Some? ==> Head(cfg, issue).value.body.at <= clock)
  }

  predicate IsActive(head: Option<Receipt>) { head.Some? && head.value.body.state.Active() }

  /** An issue with an active head is open and carries the label of its state. */
  predicate Visible(cfg: Config, issue: Issue) {
    var head := Head(cfg, issue);
    IsActive(head) ==> issue.open && StatusLabel(head.value.body.state) in issue.labels
  }

  predicate GoodConfig(cfg: Config) { cfg.bot in cfg.receiptAuthors }

  ghost predicate Good(cfg: Config, w: World) {
    && GoodConfig(cfg) && cfg.rules.CollisionFree()
    && forall n :: n in w.issues ==>
                     Healthy(cfg, n, w.issues[n], w.clock, w.nextComment) && Visible(cfg, w.issues[n])
  }

  predicate LiveAt(head: Option<Receipt>, now: Time) { head.Some? && head.value.IsLive(now) }

  /** Two heads are not both live, or have one owner, or share no resource. */
  predicate Apart(a: Option<Receipt>, b: Option<Receipt>, now: Time) {
    LiveAt(a, now) && LiveAt(b, now) ==>
      a.value.body.scope.SameOwner(b.value.body.scope) || a.value.body.scope.Disjoint(b.value.body.scope)
  }

  /** Resource exclusion. */
  predicate Exclusive(cfg: Config, w: World) {
    forall i, j :: i in w.issues && j in w.issues && i != j ==>
                     Apart(Head(cfg, w.issues[i]), Head(cfg, w.issues[j]), w.clock)
  }

  // Reading a healthy log.

  lemma {:induction false} TrustedInOrder(cfg: Config, comments: seq<Comment>, next: nat)
    requires IdsBelow(comments, next)
    ensures Ordered(Trusted(cfg, comments))
    ensures forall p :: p in Trusted(cfg, comments) ==> p.Key() < next
  {
    if comments != [] {
      TrustedInOrder(cfg, comments[..|comments| - 1], comments[|comments| - 1].id);
      var front := Trusted(cfg, comments[..|comments| - 1]);
      assert forall i :: 0 <= i < |front| ==> front[i] in front;
    }
  }

  lemma {:induction false} CollectTrusted(cfg: Config, comments: seq<Comment>)
    requires Readable(cfg, comments)
    requires forall p :: p in Trusted(cfg, comments) ==> ValidReceipt(cfg.rules, p.receipt)
    ensures Collect(cfg, comments) == Ok(Trusted(cfg, comments))
  {
    hide Defect;
    if comments != [] {
      var front, c := comments[..|comments| - 1], comments[|comments| - 1];
      assert c in comments;
      CollectTrusted(cfg, front);
      if c.author in cfg.receiptAuthors && c.content.Block? {
        assert Posted(Some(c.id), c.content.receipt) in Trusted(cfg, comments);
      } else {
        assert Trusted(cfg, front) + [] == Trusted(cfg, front);
      }
    }
  }

  lemma StateOfHealthy(cfg: Config, n: nat, issue: Issue, clock: Time, next: nat)
    requires cfg.rules.CollisionFree() && Healthy(cfg, n, issue, clock, next)
    ensures StateOf(cfg, n, issue.comments) == Ok(Head(cfg, issue))
    ensures Head(cfg, issue).Some? ==>
              ValidReceipt(cfg.rules, Head(cfg, issue).value) && Head(cfg, issue).value.body.issue == cfg.Ref(n)
  {
    hide Defect, HandlerLog;
    var ps := Trusted(cfg, issue.comments);
    LogIsLawful(cfg.rules, cfg.Ref(n), Receipts(ps));
    forall p | p in ps
      ensures ValidReceipt(cfg.rules, p.receipt)
    {
      var i :| 0 <= i < |ps| && ps[i] == p;
      assert Receipts(ps)[i] == p.receipt;
    }
    CollectTrusted(cfg, issue.comments);
    TrustedInOrder(cfg, issue.comments, next);
    SortOfOrdered(ps);
    ReduceExactly(ps, cfg.Ref(n));
    ChainIsDistinct(cfg.rules, cfg.Ref(n), Receipts(ps));
    if ps != [] {
      ChainAt(cfg.Ref(n), Receipts(ps), |ps| - 1);
    }
  }

  // Posting.

  lemma {:induction false} ReceiptsAppend(ps: seq<Posted>, p: Posted)
    ensures Receipts(ps + [p]) == Receipts(ps) + [p.receipt]
  {
    if ps != [] {
      ReceiptsAppend(ps[1..], p);
      assert (ps + [p])[1..] == ps[1..] + [p];
    }
  }

  lemma LogOfPost(cfg: Config, w: World, n: nat, r: Receipt)
    requires GoodConfig(cfg) && n in w.issues
    ensures Log(cfg, Post(cfg, w, n, r).issues[n]) == Log(cfg, w.issues[n]) + [r]
    ensures Head(cfg, Post(cfg, w, n, r).issues[n]) == Some(r)
  {
    var comments := w.issues[n].comments;
    var posted := comments + [Comment(w.nextComment, cfg.bot, Block(r))];
    assert posted[..|posted| - 1] == comments;
    ReceiptsAppend(Trusted(cfg, comments), Posted(Some(w.nextComment), r));
  }

  /** Append a receipt and, if a state is given, set its label. */
  function Append(cfg: Config, w: World, n: nat, r: Receipt, mark: Option<State>): World
    requires n in w.issues
  {
    var posted := Post(cfg, w, n, r);
    if mark.Some? then Relabel(posted, n, mark.value) else posted
  }

  lemma AppendIsHealthy(cfg: Config, w: World, n: nat, r: Receipt, mark: Option<State>)
    requires GoodConfig(cfg) && n in w.issues && Healthy(cfg, n, w.issues[n], w.clock, w.nextComment)
    requires Step(cfg.rules, cfg.Ref(n), Head(cfg, w.issues[n]), r) && r.body.at <= w.clock
    ensures var w' := Append(cfg, w, n, r, mark);
            && Healthy(cfg, n, w'.issues[n], w'.clock, w'.nextComment)
            && Head(cfg, w'.issues[n]) == Some(r) && Log(cfg, w'.issues[n]) == Log(cfg, w.issues[n]) + [r]
  {
    hide Defect, Step, HandlerLog;
    LogOfPost(cfg, w, n, r);
    LogExtends(cfg.rules, cfg.Ref(n), Log(cfg, w.issues[n]), r);
    var comments := w.issues[n].comments;
    var posted := comments + [Comment(w.nextComment, cfg.bot, Block(r))];
    assert posted[..|posted| - 1] == comments;
  }

  lemma {:induction false} IdsBelowMore(comments: seq<Comment>, next: nat, more: nat)
    requires IdsBelow(comments, next) && next <= more
    ensures IdsBelow(comments, more)
  {
  }

  lemma HealthyLater(cfg: Config, n: nat, issue: Issue, clock: Time, next: nat, clock': Time, next': nat)
    requires Healthy(cfg, n, issue, clock, next) && clock <= clock' && next <= next'
    ensures Healthy(cfg, n, issue, clock', next')
  {
    hide HandlerLog;
    IdsBelowMore(issue.comments, next, next');
  }

  /** The label that goes with an appended receipt: the one set with it, or, for a receipt that
      copies an active head, the one already there. */
  predicate Marked(head: Option<Receipt>, r: Receipt, mark: Option<State>) {
    r.body.state.Active() ==>
      mark == Some(r.body.state) ||
      (mark.None? && IsActive(head) && head.value.body.state == r.body.state)
  }

  lemma AppendKeepsGood(cfg: Config, w: World, n: nat, r: Receipt, mark: Option<State>)
    requires Good(cfg, w) && n in w.issues && w.issues[n].open
    requires Step(cfg.rules, cfg.Ref(n), Head(cfg, w.issues[n]), r) && r.body.at <= w.clock
    requires Marked(Head(cfg, w.issues[n]), r, mark)
    ensures Good(cfg, Append(cfg, w, n, r, mark))
  {
    hide Defect, Step, HandlerLog, Log, Trusted;
    var w' := Append(cfg, w, n, r, mark);
    AppendIsHealthy(cfg, w, n, r, mark);
    forall i | i in w'.issues
      ensures Healthy(cfg, i, w'.issues[i], w'.clock, w'.nextComment) && Visible(cfg, w'.issues[i])
    {
      if i != n {
        assert w'.issues[i] == w.issues[i];
        HealthyLater(cfg, i, w.issues[i], w.clock, w.nextComment, w'.clock, w'.nextComment);
      }
    }
  }

  /** A live receipt may be appended if it continues a live claim, or is apart from all others. */
  predicate MayAppend(cfg: Config, w: World, n: nat, r: Receipt)
    requires n in w.issues
  {
    r.IsLive(w.clock) ==>
      || (LiveAt(Head(cfg, w.issues[n]), w.clock) && Head(cfg, w.issues[n]).value.body.scope == r.body.scope)
      || (forall j :: j in w.issues && j != n ==> Apart(Some(r), Head(cfg, w.issues[j]), w.clock))
  }

  lemma ApartSymmetric(a: Option<Receipt>, b: Option<Receipt>, now: Time)
    ensures Apart(a, b, now) <==> Apart(b, a, now)
  {
  }

  lemma AppendKeepsExclusive(cfg: Config, w: World, n: nat, r: Receipt, mark: Option<State>)
    requires GoodConfig(cfg) && Exclusive(cfg, w) && n in w.issues && MayAppend(cfg, w, n, r)
    ensures Exclusive(cfg, Append(cfg, w, n, r, mark))
  {
    hide Log;
    LogOfPost(cfg, w, n, r);
    var w' := Append(cfg, w, n, r, mark);
    assert Head(cfg, w'.issues[n]) == Some(r) by {
      LogOfMarked(cfg, w, n, r, mark);
    }
    forall i, j | i in w'.issues && j in w'.issues && i != j
      ensures Apart(Head(cfg, w'.issues[i]), Head(cfg, w'.issues[j]), w'.clock)
    {
      if i == n {
        assert Apart(Head(cfg, w.issues[n]), Head(cfg, w.issues[j]), w.clock);
      } else if j == n {
        assert Apart(Head(cfg, w.issues[n]), Head(cfg, w.issues[i]), w.clock);
        ApartSymmetric(Some(r), Head(cfg, w.issues[i]), w.clock);
      }
    }
  }

  lemma LogOfMarked(cfg: Config, w: World, n: nat, r: Receipt, mark: Option<State>)
    requires GoodConfig(cfg) && n in w.issues
    ensures Log(cfg, Append(cfg, w, n, r, mark).issues[n]) == Log(cfg, w.issues[n]) + [r]
    ensures Head(cfg, Append(cfg, w, n, r, mark).issues[n]) == Some(r)
  {
    LogOfPost(cfg, w, n, r);
  }

  lemma ClockKeeps(cfg: Config, w: World, now: Time)
    requires Good(cfg, w) && w.clock <= now
    ensures Good(cfg, w.(clock := now))
    ensures Exclusive(cfg, w) ==> Exclusive(cfg, w.(clock := now))
  {
    hide HandlerLog, Log;
    forall n | n in w.issues
      ensures Healthy(cfg, n, w.issues[n], now, w.nextComment)
    {
      HealthyLater(cfg, n, w.issues[n], w.clock, w.nextComment, now, w.nextComment);
    }
    if Exclusive(cfg, w) {
      forall i, j | i in w.issues && j in w.issues && i != j
        ensures Apart(Head(cfg, w.issues[i]), Head(cfg, w.issues[j]), now)
      {
        assert Apart(Head(cfg, w.issues[i]), Head(cfg, w.issues[j]), w.clock);
      }
    }
  }

  // The conflict scan.

  lemma {:induction false} NoConflictAmong(
    cfg: Config, w: World, n: nat, others: seq<nat>, scope: Scope, now: Time)
    requires forall i :: i in others ==> i in w.issues
    ensures ConflictAmong(cfg, w, n, others, scope, now).None? <==>
              forall i :: i in others && i != n ==> ConflictWith(cfg, w, i, scope, now).None?
    decreases |others|
  {
    hide StateOf;
    if others != [] {
      NoConflictAmong(cfg, w, n, others[1..], scope, now);
      assert others == [others[0]] + others[1..];
    }
  }

  /** The scan passes exactly when every other issue it lists can be read and is not live, has
      the same owner, or shares no resource. */
  lemma NoConflictExactly(cfg: Config, w: World, n: nat, scope: Scope, now: Time)
    ensures ResourceConflict(cfg, w, n, scope, now).None? <==>
              forall i :: i in Scanned(w) && i != n ==>
                            var state := StateOf(cfg, i, w.issues[i].comments);
                            state.Ok? &&
                            (LiveAt(state.value, now) ==>
                               state.value.value.body.scope.SameOwner(scope) ||
                               scope.Disjoint(state.value.value.body.scope))
  {
    hide StateOf;
    NoConflictAmong(cfg, w, n, Ascending(Scanned(w)), scope, now);
  }

  /** A claim that passes the scan is apart from every other issue of a good world. */
  lemma NoConflictIsApart(cfg: Config, w: World, n: nat, r: Receipt)
    requires Good(cfg, w) && ResourceConflict(cfg, w, n, r.body.scope, w.clock).None?
    ensures forall j :: j in w.issues && j != n ==> Apart(Some(r), Head(cfg, w.issues[j]), w.clock)
  {
    hide StateOf, HandlerLog, Log;
    NoConflictExactly(cfg, w, n, r.body.scope, w.clock);
    forall j | j in w.issues && j != n
      ensures Apart(Some(r), Head(cfg, w.issues[j]), w.clock)
    {
      StateOfHealthy(cfg, j, w.issues[j], w.clock, w.nextComment);
      if LiveAt(Head(cfg, w.issues[j]), w.clock) {
        assert j in Scanned(w);
      }
    }
  }
}
