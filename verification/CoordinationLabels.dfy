/** What the operations do to labels: all labels without a status stay, and after an accepted command, an expiry or a
    sweep exactly one status label stands, that of the head. Nothing is assumed of logs or labels. */
module CoordinationLabels {
  import opened Wrappers
  import opened Claims
  import opened Coordination
  import opened CoordinationDrift
  import opened CoordinationInvariants
  import opened CoordinationSweep
  import opened Decisions
  import opened Sorting

  /** The labels that stand for no status are the same. */
  ghost predicate SamePlain(a: set<Label>, b: set<Label>) {
    forall text: string :: Plain(text) in a <==> Plain(text) in b
  }

  /** The label is the only one of a status. */
  predicate StandsAlone(labels: set<Label>, name: Label) {
    name in labels && forall l :: l in labels && !l.Plain? ==> l == name
  }

  /** Exactly the label of the state stands. */
  predicate Shows(labels: set<Label>, state: State) {
    match state
    case Ready => StandsAlone(labels, StatusReady)
    case InProgress => StandsAlone(labels, StatusClaimed)
    case InReview => StandsAlone(labels, StatusReview)
    case Done => StandsAlone(labels, StatusReview)
  }

  lemma SetStatusExactly(labels: set<Label>, state: State)
    ensures SamePlain(SetStatus(labels, state), labels) && Shows(SetStatus(labels, state), state)
  {
  }

  /** Every issue has the plain labels that it had. */
  ghost predicate KeepsPlain(w: World, w': World) {
    w'.issues.Keys == w.issues.Keys && forall n :: n in w.issues ==> SamePlain(w'.issues[n].labels, w.issues[n].labels)
  }

  lemma RelabelKeepsPlain(cfg: Config, w: World, n: nat, r: Receipt, state: State)
    requires n in w.issues
    ensures KeepsPlain(w, Post(cfg, w, n, r)) && KeepsPlain(w, Relabel(w, n, state))
    ensures KeepsPlain(w, Relabel(Post(cfg, w, n, r), n, state))
    ensures Shows(Relabel(w, n, state).issues[n].labels, state)
    ensures Shows(Relabel(Post(cfg, w, n, r), n, state).issues[n].labels, state)
  {
    hide SetStatus, Shows;
    SetStatusExactly(w.issues[n].labels, state);
  }

  lemma SameIssuesKeepPlain(w: World, w': World)
    requires w.issues == w'.issues
    ensures KeepsPlain(w, w')
  {
  }

  lemma PlainKeepsKeys(w: World, w': World)
    requires KeepsPlain(w, w')
    ensures w'.issues.Keys == w.issues.Keys
  {
  }

  lemma PlainThrough(a: World, b: World, c: World)
    requires KeepsPlain(a, b) && KeepsPlain(b, c)
    ensures KeepsPlain(a, c)
  {
  }

  /** A handler call keeps all plain labels; when it accepts, the label of the new state stands alone. */
  lemma HandleLabels(cfg: Config, w: World, req: Request)
    ensures var (w', outcome) := HandleComment(cfg, w, req);
            && KeepsPlain(w, w')
            && (outcome.Ok? && outcome.value.body.decision == Accepted ==>
                  req.number in w'.issues && Shows(w'.issues[req.number].labels, outcome.value.body.state))
  {
    hide StateOf, Admit, Relabel, Post, DecideCommand, ConflictReason, ExpireIfDue, KeepsPlain, Shows;
    var n, now := req.number, w.(clock := req.now);
    SameIssuesKeepPlain(w, now);
    if n in w.issues && Admit(cfg, req).Ok? && StateOf(cfg, n, w.issues[n].comments).Ok? {
      var head := StateOf(cfg, n, w.issues[n].comments).value;
      var expiry := ExpireIfDue(cfg.rules, head, req.now, req.sha);
      if expiry.Some? && expiry.value.Ok? {
        RelabelKeepsPlain(cfg, now, n, expiry.value.value, Ready);
      }
      SameIssuesKeepPlain(now, now);
      if Materialize(cfg, now, n, head, req.now, req.sha).Ok? {
        var (w1, p) := Materialize(cfg, now, n, head, req.now, req.sha).value;
        PlainKeepsKeys(now, w1);
        var (w2, outcome) := Decide(cfg, w1, req, Admit(cfg, req).value, p);
        SameIssuesKeepPlain(w1, w1);
        if outcome.Ok? {
          RelabelKeepsPlain(cfg, w1, n, outcome.value, outcome.value.body.state);
        }
        PlainThrough(w, now, w1);
        PlainThrough(w, w1, w2);
      }
    }
  }

  /** Expiring or relabelling an issue keeps all plain labels of all issues, and the label of the head stands alone. */
  lemma ExpireLabels(cfg: Config, w: World, n: nat, now: Time, sha: string)
    ensures var (w', outcome) := ExpireIssue(cfg, w, n, now, sha);
            && KeepsPlain(w, w')
            && (outcome == Ok(true) ==> n in w'.issues && Shows(w'.issues[n].labels, Ready))
            && (outcome == Ok(false) ==>
                  && n in w.issues && n in w'.issues && Seen(cfg, w, n).Ok?
                  && (Seen(cfg, w, n).value.Some? ==>
                        Shows(w'.issues[n].labels, Seen(cfg, w, n).value.value.body.state)))
  {
    hide StateOf, Relabel, Post, Due, KeepsPlain, Shows;
    var at := w.(clock := now);
    SameIssuesKeepPlain(w, at);
    if n in w.issues && StateOf(cfg, n, w.issues[n].comments).Ok? {
      var head := StateOf(cfg, n, w.issues[n].comments).value;
      if Due(head, now) {
        if ExpireIfDue(cfg.rules, head, now, sha).value.Ok? {
          RelabelKeepsPlain(cfg, at, n, ExpireIfDue(cfg.rules, head, now, sha).value.value, Ready);
        }
      } else if head.Some? {
        RelabelKeepsPlain(cfg, at, n, head.value, head.value.body.state);
      }
    }
    var w' := ExpireIssue(cfg, w, n, now, sha).0;
    SameIssuesKeepPlain(at, at);
    PlainThrough(w, at, w');
  }

  lemma {:induction false} PassKeepsPlain(cfg: Config, s: SweepResult, rest: seq<nat>, now: Time, sha: string)
    ensures KeepsPlain(s.world, SweepIssues(cfg, s, rest, now, sha).world)
    decreases |rest|
  {
    hide ExpireIssue, SamePlain;
    if rest == [] {
      SameIssuesKeepPlain(s.world, s.world);
    } else {
      var (w, outcome) := ExpireIssue(cfg, s.world, rest[0], now, sha);
      ExpireLabels(cfg, s.world, rest[0], now, sha);
      PassKeepsPlain(cfg, Next(s, rest[0], w, outcome), rest[1..], now, sha);
      PlainThrough(s.world, w, SweepIssues(cfg, s, rest, now, sha).world);
    }
  }

  /** Expiring one issue leaves the others alone, and what it makes of the labels depends on that issue alone. */
  lemma ExpireIsLocal(cfg: Config, w: World, m: nat, n: nat, now: Time, sha: string)
    requires n in w.issues && m != n
    ensures var w' := ExpireIssue(cfg, w, m, now, sha).0;
            && n in w'.issues && w'.issues[n] == w.issues[n]
            && var a, b := ExpireIssue(cfg, w', n, now, sha), ExpireIssue(cfg, w, n, now, sha);
               n in a.0.issues && n in b.0.issues && a.0.issues[n].labels == b.0.issues[n].labels && a.1 == b.1
  {
    hide StateOf, SetStatus, Due, ReceiptBody, BuildReceipt;
  }

  lemma {:induction false} PassAt(cfg: Config, s: SweepResult, rest: seq<nat>, n: nat, now: Time, sha: string)
    requires n in s.world.issues && forall i, j :: 0 <= i < j < |rest| ==> rest[i] != rest[j]
    ensures var w' := SweepIssues(cfg, s, rest, now, sha).world;
            && n in w'.issues && n in ExpireIssue(cfg, s.world, n, now, sha).0.issues
            && w'.issues[n].labels ==
               if n in rest then ExpireIssue(cfg, s.world, n, now, sha).0.issues[n].labels else s.world.issues[n].labels
    decreases |rest|
  {
    hide ExpireIssue, KeepsPlain;
    ExpireKeepsKeys(cfg, s.world, n, now, sha);
    if rest != [] {
      var m := rest[0];
      var (w, outcome) := ExpireIssue(cfg, s.world, m, now, sha);
      ExpireKeepsKeys(cfg, s.world, m, now, sha);
      PassAt(cfg, Next(s, m, w, outcome), rest[1..], n, now, sha);
      if m != n {
        ExpireIsLocal(cfg, s.world, m, n, now, sha);
        assert n in rest <==> n in rest[1..];
      }
    }
  }

  lemma ExpireKeepsKeys(cfg: Config, w: World, n: nat, now: Time, sha: string)
    ensures ExpireIssue(cfg, w, n, now, sha).0.issues.Keys == w.issues.Keys
  {
    ExpireLabels(cfg, w, n, now, sha);
  }

  /** The issues that a sweep lists. */
  predicate IsListed(w: World, n: nat) {
    && n in w.issues && w.issues[n].open
    && (StatusReady in w.issues[n].labels || StatusClaimed in w.issues[n].labels || StatusReview in w.issues[n].labels)
  }

  /** A sweep keeps every plain label, and gives each listed and readable issue that has a head exactly one status
      label: ready if the lease had run out, and otherwise that of the head. All other issues keep their labels. */
  lemma {:induction false} SweepLabels(cfg: Config, w0: World, now: Time, sha: string)
    requires GoodConfig(cfg) && cfg.rules.CollisionFree() && cfg.rules.isSha(sha) && Numbered(w0)
    ensures var w := ExpireAll(cfg, w0, now, sha).world;
            && KeepsPlain(w0, w)
            && forall n :: n in w0.issues ==>
                 if IsListed(w0, n) && Seen(cfg, w0, n).Ok? && Seen(cfg, w0, n).value.Some? then
                   var head := Seen(cfg, w0, n).value;
                   Shows(w.issues[n].labels, if HasLapsed(head, now) then Ready else head.value.body.state)
                 else w.issues[n].labels == w0.issues[n].labels
  {
    hide SweepIssues, ExpireIssue, StateOf, Shows, SamePlain, HasLapsed, Rules.CollisionFree;
    var w := w0.(clock := now);
    var s := SweepResult(w, [], []);
    AscendingIsSorted(Swept(w));
    PassKeepsPlain(cfg, s, Ascending(Swept(w)), now, sha);
    assert Swept(w0) == Swept(w);
    forall n | n in w0.issues
      ensures var after := ExpireAll(cfg, w0, now, sha).world.issues[n].labels;
              if IsListed(w0, n) && Seen(cfg, w0, n).Ok? && Seen(cfg, w0, n).value.Some? then
                var head := Seen(cfg, w0, n).value;
                Shows(after, if HasLapsed(head, now) then Ready else head.value.body.state)
              else after == w0.issues[n].labels
    {
      PassAt(cfg, s, Ascending(Swept(w)), n, now, sha);
      assert n in Swept(w) <==> IsListed(w0, n);
      ExpireAny(cfg, w, n, sha);
      ExpireLabels(cfg, w, n, now, sha);
      UnheadedStays(cfg, w, n, now, sha);
    }
  }

  lemma UnheadedStays(cfg: Config, w: World, n: nat, now: Time, sha: string)
    requires n in w.issues
    ensures Seen(cfg, w, n).Err? || Seen(cfg, w, n).value.None? ==>
              ExpireIssue(cfg, w, n, now, sha).0.issues == w.issues
    ensures Seen(cfg, w, n).Ok? ==> (Due(Seen(cfg, w, n).value, now) <==> HasLapsed(Seen(cfg, w, n).value, now))
  {
    hide StateOf;
  }
}
