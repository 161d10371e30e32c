/** Sweeps of arbitrary repositories: unreadable logs, labels that drifted, clocks that went back. */
module CoordinationDrift {
  import opened Wrappers
  import opened Claims
  import opened ReceiptLog
  import opened HandlerLogs
  import opened Coordination
  import opened CoordinationInvariants
  import opened CoordinationSweep
  import opened Sorting

  /** Comments are numbered in the order in which they were posted. */
  predicate Numbered(w: World) { forall n :: n in w.issues ==> IdsBelow(w.issues[n].comments, w.nextComment) }

  function Seen(cfg: Config, w: World, n: nat): Result<Option<Receipt>, Failure>
    requires n in w.issues
  {
    StateOf(cfg, n, w.issues[n].comments)
  }

  /** The log can be read, nothing is due, and the only status label is that of the head. */
  predicate AtRest(cfg: Config, w: World, n: nat)
    requires n in w.issues
  {
    Seen(cfg, w, n).Ok? &&
    var head := Seen(cfg, w, n).value;
    !Due(head, w.clock) &&
    (head.Some? ==> w.issues[n].labels == SetStatus(w.issues[n].labels, head.value.body.state))
  }

  lemma {:induction false} CollectedInOrder(cfg: Config, comments: seq<Comment>, next: nat)
    requires IdsBelow(comments, next) && Collect(cfg, comments).Ok?
    ensures var ps := Collect(cfg, comments).value;
            Ordered(ps) && (forall p :: p in ps ==> p.Key() < next && ValidReceipt(cfg.rules, p.receipt))
  {
    hide Defect;
    if comments != [] {
      var front := comments[..|comments| - 1];
      CollectedInOrder(cfg, front, comments[|comments| - 1].id);
      var ps := Collect(cfg, front).value;
      assert forall i :: 0 <= i < |ps| ==> ps[i] in ps;
    }
  }

  /** A head that was read is valid, of this issue, and the last of a chain of the collected receipts. */
  lemma SeenIsChain(cfg: Config, n: nat, comments: seq<Comment>, next: nat)
    requires IdsBelow(comments, next) && StateOf(cfg, n, comments).Ok?
    ensures Collect(cfg, comments).Ok?
    ensures var ps := Collect(cfg, comments).value;
            && Ordered(ps) && SortByComment(ps) == ps && Chain(cfg.Ref(n), Receipts(ps))
            && AllAddressed(cfg.rules, Receipts(ps)) && StateOf(cfg, n, comments).value == Last(Receipts(ps))
            && (forall p :: p in ps ==> p.Key() < next)
    ensures var head := StateOf(cfg, n, comments).value;
            head.Some? ==> ValidReceipt(cfg.rules, head.value) && head.value.body.issue == cfg.Ref(n)
  {
    hide Defect, Reduce, SortByComment;
    var ps := Collect(cfg, comments).value;
    CollectedInOrder(cfg, comments, next);
    SortOfOrdered(ps);
    ReduceExactly(ps, cfg.Ref(n));
    forall i | 0 <= i < |Receipts(ps)| ensures ValidReceipt(cfg.rules, Receipts(ps)[i]) {
      assert Receipts(ps)[i] == ps[i].receipt && ps[i] in ps;
    }
    forall i | 0 <= i < |Receipts(ps)| ensures Addressed(cfg.rules, Receipts(ps)[i]) {
      ValidIsAddressed(cfg.rules, Receipts(ps)[i]);
    }
    if ps != [] {
      ChainAt(cfg.Ref(n), Receipts(ps), |ps| - 1);
    }
  }

  /** A valid successor that the tool posts is the new head. */
  lemma SeenAfterPost(cfg: Config, w: World, n: nat, r: Receipt)
    requires GoodConfig(cfg) && cfg.rules.CollisionFree() && Numbered(w) && n in w.issues && Seen(cfg, w, n).Ok?
    requires ValidReceipt(cfg.rules, r) && Linked(cfg.Ref(n), Seen(cfg, w, n).value, r)
    ensures Seen(cfg, Post(cfg, w, n, r), n) == Ok(Some(r))
  {
    hide Collect, Defect, Reduce, SortByComment, Rules.CollisionFree, Chain, AllAddressed, Ordered, Linked;
    var comments, c := w.issues[n].comments, Comment(w.nextComment, cfg.bot, Block(r));
    SeenIsChain(cfg, n, comments, w.nextComment);
    var ps, p := Collect(cfg, comments).value, Posted(Some(c.id), r);
    CollectPost(cfg, comments, c, r);
    ReducePost(cfg, n, ps, p);
  }

  lemma CollectPost(cfg: Config, comments: seq<Comment>, c: Comment, r: Receipt)
    requires Collect(cfg, comments).Ok? && c.author in cfg.receiptAuthors && c.content == Block(r)
    requires ValidReceipt(cfg.rules, r)
    ensures Collect(cfg, comments + [c]) == Ok(Collect(cfg, comments).value + [Posted(Some(c.id), r)])
  {
    hide Defect;
    assert (comments + [c])[..|comments|] == comments;
  }

  lemma ReducePost(cfg: Config, n: nat, ps: seq<Posted>, p: Posted)
    requires cfg.rules.CollisionFree() && Ordered(ps) && (forall q :: q in ps ==> q.Key() < p.Key())
    requires Chain(cfg.Ref(n), Receipts(ps)) && AllAddressed(cfg.rules, Receipts(ps))
    requires ValidReceipt(cfg.rules, p.receipt) && Linked(cfg.Ref(n), Last(Receipts(ps)), p.receipt)
    ensures Reduce(ps + [p], cfg.Ref(n)) == Ok(Some(p.receipt))
  {
    hide Defect, Reduce, SortByComment, Rules.CollisionFree, Linked, Chain, AllAddressed, DistinctIds, Ordered;
    OrderedPost(ps, p);
    SortOfOrdered(ps + [p]);
    ReceiptsAppend(ps, p);
    ValidIsAddressed(cfg.rules, p.receipt);
    ChainPost(cfg.rules, cfg.Ref(n), Receipts(ps), p.receipt);
    ReduceExactly(ps + [p], cfg.Ref(n));
  }

  lemma OrderedPost(ps: seq<Posted>, p: Posted)
    requires Ordered(ps) && (forall q :: q in ps ==> q.Key() < p.Key())
    ensures Ordered(ps + [p])
  {
    assert forall i :: 0 <= i < |ps| ==> ps[i] in ps;
  }

  lemma ChainPost(rules: Rules, issue: IssueRef, rs: seq<Receipt>, r: Receipt)
    requires rules.CollisionFree() && Chain(issue, rs) && AllAddressed(rules, rs) && Addressed(rules, r)
    requires Linked(issue, Last(rs), r)
    ensures Chain(issue, rs + [r]) && DistinctIds(rs + [r]) && Last(rs + [r]) == Some(r)
  {
    hide Rules.CollisionFree, Linked, DistinctIds;
    assert (rs + [r])[..|rs|] == rs;
    ChainIsDistinct(rules, issue, rs + [r]);
  }

  /** Expiring any issue: an unreadable one is left alone and fails; a readable one comes to rest. */
  lemma ExpireAny(cfg: Config, w: World, n: nat, sha: string)
    requires GoodConfig(cfg) && cfg.rules.CollisionFree() && cfg.rules.isSha(sha) && Numbered(w) && n in w.issues
    ensures var (w', outcome) := ExpireIssue(cfg, w, n, w.clock, sha);
            && w'.clock == w.clock && w'.issues.Keys == w.issues.Keys && Numbered(w')
            && (forall i :: i in w.issues && i != n ==> w'.issues[i] == w.issues[i])
            && match Seen(cfg, w, n)
               case Err(e) => w' == w && outcome == Err(e)
               case Ok(head) =>
                 && outcome == Ok(Due(head, w.clock)) && AtRest(cfg, w', n)
                 && w'.issues[n].open == w.issues[n].open
                 && (!Due(head, w.clock) ==> w'.issues[n].comments == w.issues[n].comments)
  {
    hide Defect, StateOf, IdsBelow, SetStatus, Rules.CollisionFree;
    assert w.(clock := w.clock) == w;
    if Seen(cfg, w, n).Ok? {
      var head := Seen(cfg, w, n).value;
      if Due(head, w.clock) {
        DuePosts(cfg, w, n, sha);
      } else if head.Some? {
        SetStatusTwice(w.issues[n].labels, head.value.body.state);
      }
    }
  }

  lemma DuePosts(cfg: Config, w: World, n: nat, sha: string)
    requires GoodConfig(cfg) && cfg.rules.CollisionFree() && cfg.rules.isSha(sha) && Numbered(w) && n in w.issues
    requires Seen(cfg, w, n).Ok? && Due(Seen(cfg, w, n).value, w.clock)
    ensures var m := Materialize(cfg, w, n, Seen(cfg, w, n).value, w.clock, sha);
            && m.Ok? && m.value.0.clock == w.clock && m.value.0.issues.Keys == w.issues.Keys && Numbered(m.value.0)
            && (forall i :: i in w.issues && i != n ==> m.value.0.issues[i] == w.issues[i])
            && AtRest(cfg, m.value.0, n) && m.value.0.issues[n].open == w.issues[n].open
  {
    hide Defect, StateOf, SetStatus, Rules.CollisionFree;
    var head := Seen(cfg, w, n).value;
    SeenIsChain(cfg, n, w.issues[n].comments, w.nextComment);
    ExpiryTotal(cfg.rules, head.value, w.clock, sha);
    ActiveHasLease(cfg.rules, head.value);
    var e := ExpireIfDue(cfg.rules, head, w.clock, sha).value.value;
    assert Linked(cfg.Ref(n), head, e);
    SeenAfterPost(cfg, w, n, e);
    PostIsNumbered(cfg, w, n, e);
    SetStatusTwice(w.issues[n].labels, Ready);
  }

  lemma PostIsNumbered(cfg: Config, w: World, n: nat, r: Receipt)
    requires Numbered(w) && n in w.issues
    ensures Numbered(Post(cfg, w, n, r))
  {
    var w' := Post(cfg, w, n, r);
    forall i | i in w'.issues ensures IdsBelow(w'.issues[i].comments, w'.nextComment) {
      if i == n {
        var comments, c := w.issues[n].comments, Comment(w.nextComment, cfg.bot, Block(r));
        assert (comments + [c])[..|comments|] == comments;
      } else {
        IdsBelowMore(w.issues[i].comments, w.nextComment, w'.nextComment);
      }
    }
  }

  // The sweep.

  /** What a pass over `done` has made of the world `w`. */
  ghost predicate Did(cfg: Config, w: World, s: SweepResult, done: set<nat>) {
    && done <= w.issues.Keys == s.world.issues.Keys && s.world.clock == w.clock && Numbered(s.world)
    && (forall n :: n in w.issues && (n !in done || Seen(cfg, w, n).Err?) ==> s.world.issues[n] == w.issues[n])
    && (forall n :: n in done && Seen(cfg, w, n).Ok? ==> AtRest(cfg, s.world, n))
    && (forall n :: n in s.failed <==> n in done && Seen(cfg, w, n).Err?)
    && (forall n :: n in s.expired <==> n in done && Seen(cfg, w, n).Ok? && Due(Seen(cfg, w, n).value, w.clock))
  }

  lemma RestIsLocal(cfg: Config, v: World, w: World, n: nat)
    requires n in v.issues && n in w.issues && v.issues[n] == w.issues[n] && v.clock == w.clock
    ensures Seen(cfg, v, n) == Seen(cfg, w, n) && (AtRest(cfg, v, n) <==> AtRest(cfg, w, n))
  {
  }

  lemma DidStep(cfg: Config, w: World, s: SweepResult, done: set<nat>, n: nat, sha: string)
    requires GoodConfig(cfg) && cfg.rules.CollisionFree() && cfg.rules.isSha(sha)
    requires Did(cfg, w, s, done) && n in w.issues && n !in done
    ensures var (w', outcome) := ExpireIssue(cfg, s.world, n, w.clock, sha);
            Did(cfg, w, Next(s, n, w', outcome), done + {n})
  {
    hide ExpireIssue, AtRest, Seen, Due, Numbered, Rules.CollisionFree;
    ExpireAny(cfg, s.world, n, sha);
    RestIsLocal(cfg, s.world, w, n);
    var (w', outcome) := ExpireIssue(cfg, s.world, n, w.clock, sha);
    forall i | i in done ensures w'.issues[i] == s.world.issues[i] && (AtRest(cfg, w', i) <==>
        AtRest(cfg, s.world, i)) {
      RestIsLocal(cfg, w', s.world, i);
    }
  }

  lemma {:induction false} DidAll(
    cfg: Config, w: World, s: SweepResult, done: set<nat>, rest: seq<nat>, all: set<nat>, sha: string)
    requires GoodConfig(cfg) && cfg.rules.CollisionFree() && cfg.rules.isSha(sha) && Did(cfg, w, s, done)
    requires forall i :: 0 <= i < |rest| ==> rest[i] in w.issues && rest[i] !in done
    requires forall i, j :: 0 <= i < j < |rest| ==> rest[i] != rest[j]
    requires forall n :: n in all <==> n in done || n in rest
    ensures Did(cfg, w, SweepIssues(cfg, s, rest, w.clock, sha), all)
    decreases |rest|
  {
    hide Did, ExpireIssue, Rules.CollisionFree;
    if rest == [] {
      assert done == all;
    } else {
      var n := rest[0];
      var (w', outcome) := ExpireIssue(cfg, s.world, n, w.clock, sha);
      DidStep(cfg, w, s, done, n, sha);
      assert rest == [n] + rest[1..];
      DidAll(cfg, w, Next(s, n, w', outcome), done + {n}, rest[1..], all, sha);
    }
  }

  /** What a sweep does to any repository. It fails on exactly the listed issues whose logs cannot be read and goes on
      past them; it expires exactly the listed due leases; and afterwards an issue is at rest exactly if it was listed
      and readable, or at rest already. Whatever is not listed stays as it is, due leases and drifted labels
      included. */
  lemma {:induction false} SweepExactly(cfg: Config, w0: World, now: Time, sha: string)
    requires GoodConfig(cfg) && cfg.rules.CollisionFree() && cfg.rules.isSha(sha) && Numbered(w0)
    ensures var s, w := ExpireAll(cfg, w0, now, sha), w0.(clock := now);
            s.world.issues.Keys == w.issues.Keys && s.world.clock == now &&
            forall n :: n in w.issues ==>
              && (n in s.failed <==> n in Swept(w) && Seen(cfg, w, n).Err?)
              && (n in s.expired <==> n in Swept(w) && Seen(cfg, w, n).Ok? && Due(Seen(cfg, w, n).value, now))
              && (AtRest(cfg, s.world, n) <==> (n in Swept(w) && Seen(cfg, w, n).Ok?) || AtRest(cfg, w, n))
              && (n !in Swept(w) || Seen(cfg, w, n).Err? ==> s.world.issues[n] == w.issues[n])
  {
    hide SweepIssues, AtRest, Seen, Due, Swept, Rules.CollisionFree;
    var w := w0.(clock := now);
    var start := SweepResult(w, [], []);
    SweepClock(cfg, w0, now, sha);
    assert w.(clock := w.clock) == w;
    AscendingIsSorted(Swept(w));
    SweptExist(w);
    DidAll(cfg, w, start, {}, Ascending(Swept(w)), Swept(w), sha);
    var s := ExpireAll(cfg, w, now, sha);
    forall n | n in w.issues
      ensures AtRest(cfg, s.world, n) <==> (n in Swept(w) && Seen(cfg, w, n).Ok?) || AtRest(cfg, w, n)
    {
      if n !in Swept(w) || Seen(cfg, w, n).Err? {
        RestIsLocal(cfg, s.world, w, n);
        if Seen(cfg, w, n).Err? {
          UnreadableIsNotAtRest(cfg, w, n);
        }
      }
    }
  }

  lemma UnreadableIsNotAtRest(cfg: Config, w: World, n: nat)
    requires n in w.issues && Seen(cfg, w, n).Err?
    ensures !AtRest(cfg, w, n)
  {
  }
}
