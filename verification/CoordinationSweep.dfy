/** Expiry of one issue and of all of them. */
module CoordinationSweep {
  import opened Wrappers
  import opened Claims
  import opened HandlerLogs
  import opened Coordination
  import opened CoordinationInvariants
  import opened CoordinationSteps
  import opened Sorting

  /** An issue that a pass at the clock of `w` leaves as it is: nothing is due, and the only
      status label is that of the head. */
  predicate Settled(cfg: Config, w: World, n: nat)
    requires n in w.issues
  {
    var head := Head(cfg, w.issues[n]);
    && !Due(head, w.clock)
    && (head.Some? ==> w.issues[n].labels == SetStatus(w.issues[n].labels, head.value.body.state))
  }

  lemma SetStatusTwice(labels: set<Label>, state: State)
    ensures SetStatus(SetStatus(labels, state), state) == SetStatus(labels, state)
  {
  }

  lemma SameComments(cfg: Config, n: nat, a: Issue, b: Issue, clock: Time, next: nat)
    requires a.comments == b.comments
    ensures Log(cfg, a) == Log(cfg, b)
    ensures Healthy(cfg, n, a, clock, next) <==> Healthy(cfg, n, b, clock, next)
  {
    hide HandlerLog, Trusted, IdsBelow;
  }

  lemma SameHeads(cfg: Config, w: World, w': World)
    requires w'.issues.Keys == w.issues.Keys && w'.clock == w.clock && Exclusive(cfg, w)
    requires forall i :: i in w.issues ==> Head(cfg, w'.issues[i]) == Head(cfg, w.issues[i])
    ensures Exclusive(cfg, w')
  {
    hide Log, Apart;
    forall i, j | i in w'.issues && j in w'.issues && i != j
      ensures Apart(Head(cfg, w'.issues[i]), Head(cfg, w'.issues[j]), w'.clock)
    {
      assert Apart(Head(cfg, w.issues[i]), Head(cfg, w.issues[j]), w.clock);
    }
  }

  lemma RelabelKeepsGood(cfg: Config, w: World, n: nat)
    requires Good(cfg, w) && n in w.issues && Head(cfg, w.issues[n]).Some?
    ensures var w' := Relabel(w, n, Head(cfg, w.issues[n]).value.body.state);
            && Good(cfg, w') && (Exclusive(cfg, w) ==> Exclusive(cfg, w')) && Grew(cfg, w, w', n, [])
  {
    hide Healthy, Log, Exclusive;
    var w' := Relabel(w, n, Head(cfg, w.issues[n]).value.body.state);
    SameComments(cfg, n, w.issues[n], w'.issues[n], w.clock, w.nextComment);
    assert Log(cfg, w.issues[n]) + [] == Log(cfg, w.issues[n]);
    if Exclusive(cfg, w) {
      SameHeads(cfg, w, w');
    }
  }

  lemma MaterializeLabels(cfg: Config, w: World, n: nat, sha: string)
    requires Good(cfg, w) && n in w.issues && cfg.rules.isSha(sha) && Due(Head(cfg, w.issues[n]), w.clock)
    ensures var m := Materialize(cfg, w, n, Head(cfg, w.issues[n]), w.clock, sha);
            && m.Ok? && n in m.value.0.issues
            && m.value.0.issues[n].labels == SetStatus(w.issues[n].labels, Ready)
            && m.value.1.Some? && m.value.1.value.body.state.Ready?
  {
    hide Defect, HandlerLog, Log, Step;
    ExpiryIsStep(cfg, w, n, sha);
  }

  /** Expiring one issue settles it, posts its expiry if its lease is due, and touches nothing else. */
  lemma {:induction false} ExpireSteps(cfg: Config, w: World, n: nat, sha: string)
    requires Good(cfg, w) && n in w.issues && cfg.rules.isSha(sha)
    ensures var (w', outcome) := ExpireIssue(cfg, w, n, w.clock, sha);
            && outcome == Ok(Due(Head(cfg, w.issues[n]), w.clock))
            && Good(cfg, w') && (Exclusive(cfg, w) ==> Exclusive(cfg, w'))
            && Grew(cfg, w, w', n, Expiry(cfg, w, n, w.clock, sha)) && Settled(cfg, w', n)
            && (Head(cfg, w.issues[n]).None? ==> w' == w)
            && (Settled(cfg, w, n) ==> w' == w)
  {
    hide Defect, HandlerLog, Log, Step, Materialize, StateOf, Exclusive, SetStatus;
    var head := Head(cfg, w.issues[n]);
    StateOfHealthy(cfg, n, w.issues[n], w.clock, w.nextComment);
    assert w.(clock := w.clock) == w;
    if Due(head, w.clock) {
      MaterializeSteps(cfg, w, n, sha);
      MaterializeLabels(cfg, w, n, sha);
      SetStatusTwice(w.issues[n].labels, Ready);
    } else {
      assert Log(cfg, w.issues[n]) + [] == Log(cfg, w.issues[n]);
      if head.Some? {
        RelabelKeepsGood(cfg, w, n);
        SetStatusTwice(w.issues[n].labels, head.value.body.state);
      }
    }
  }

  // The sweep.

  /** Issue `n` is settled, and its log grew by its expiry if one was due. */
  predicate Treated(cfg: Config, w0: World, w: World, n: nat, sha: string)
    requires n in w0.issues && n in w.issues
  {
    && Settled(cfg, w, n)
    && w.issues[n].open == w0.issues[n].open
    && (Head(cfg, w0.issues[n]).None? ==> w.issues[n] == w0.issues[n])
    && Log(cfg, w.issues[n]) == Log(cfg, w0.issues[n]) + Expiry(cfg, w0, n, w0.clock, sha)
  }

  /** What a pass has done so far: issues in `done` are settled, their logs grew by their expiry
      if one was due, and the others are as they were. */
  ghost predicate Passed(cfg: Config, w0: World, s: SweepResult, done: set<nat>, sha: string) {
    && done <= w0.issues.Keys == s.world.issues.Keys && s.world.clock == w0.clock && s.failed == []
    && Good(cfg, s.world) && (Exclusive(cfg, w0) ==> Exclusive(cfg, s.world))
    && (forall n :: n in done ==> Treated(cfg, w0, s.world, n, sha))
    && (forall n :: n in w0.issues && n !in done ==> s.world.issues[n] == w0.issues[n])
    && (forall n :: n in s.expired <==> n in done && Due(Head(cfg, w0.issues[n]), w0.clock))
  }

  function Next(s: SweepResult, n: nat, w: World, outcome: Result<bool, Failure>): SweepResult {
    match outcome
    case Err(_) => SweepResult(w, s.expired, s.failed + [n])
    case Ok(true) => SweepResult(w, s.expired + [n], s.failed)
    case Ok(false) => SweepResult(w, s.expired, s.failed)
  }

  lemma PassStep(cfg: Config, w0: World, s: SweepResult, done: set<nat>, n: nat, sha: string)
    requires Passed(cfg, w0, s, done, sha) && n in w0.issues && n !in done && cfg.rules.isSha(sha)
    ensures var (w', outcome) := ExpireIssue(cfg, s.world, n, w0.clock, sha);
            Passed(cfg, w0, Next(s, n, w', outcome), done + {n}, sha)
  {
    hide Log, Good, Exclusive, ExpireIssue, Treated, Due, Expiry;
    ExpireSteps(cfg, s.world, n, sha);
    var (w', outcome) := ExpireIssue(cfg, s.world, n, w0.clock, sha);
    assert s.world.issues[n] == w0.issues[n];
    StepTreats(cfg, w0, s.world, w', n, sha);
    forall i | i in done ensures Treated(cfg, w0, w', i, sha) {
      TreatedFrame(cfg, w0, s.world, w', i, sha);
    }
  }

  lemma StepTreats(cfg: Config, w0: World, w: World, w': World, n: nat, sha: string)
    requires n in w0.issues && n in w.issues && w.clock == w0.clock && w.issues[n] == w0.issues[n]
    requires Grew(cfg, w, w', n, Expiry(cfg, w, n, w.clock, sha)) && Settled(cfg, w', n)
    requires Head(cfg, w.issues[n]).None? ==> w' == w
    ensures Treated(cfg, w0, w', n, sha)
  {
    hide Log, Settled;
  }

  lemma TreatedFrame(cfg: Config, w0: World, w: World, w': World, n: nat, sha: string)
    requires n in w0.issues && n in w.issues && n in w'.issues && w.issues[n] == w'.issues[n] && w.clock == w'.clock
    requires Treated(cfg, w0, w, n, sha)
    ensures Treated(cfg, w0, w', n, sha)
  {
    hide Log, Expiry;
  }

  lemma {:induction false} PassAll(
    cfg: Config, w0: World, s: SweepResult, done: set<nat>, rest: seq<nat>, all: set<nat>, sha: string)
    requires Passed(cfg, w0, s, done, sha) && cfg.rules.isSha(sha)
    requires forall i :: 0 <= i < |rest| ==> rest[i] in w0.issues && rest[i] !in done
    requires forall i, j :: 0 <= i < j < |rest| ==> rest[i] != rest[j]
    requires forall n :: n in all <==> n in done || n in rest
    ensures Passed(cfg, w0, SweepIssues(cfg, s, rest, w0.clock, sha), all, sha)
    decreases |rest|
  {
    hide Passed, ExpireIssue;
    if rest == [] {
      assert done == all;
    } else {
      var n := rest[0];
      var (w', outcome) := ExpireIssue(cfg, s.world, n, w0.clock, sha);
      PassStep(cfg, w0, s, done, n, sha);
      assert rest == [n] + rest[1..];
      PassAll(cfg, w0, Next(s, n, w', outcome), done + {n}, rest[1..], all, sha);
    }
  }

  lemma PassStart(cfg: Config, w: World, sha: string)
    requires Good(cfg, w)
    ensures Passed(cfg, w, SweepResult(w, [], []), {}, sha)
  {
    hide Good, Exclusive, Settled, Due, Log, Expiry;
  }

  lemma SweptExist(w: World)
    ensures forall n :: n in Swept(w) ==> n in w.issues
  {
  }

  lemma SweepClock(cfg: Config, w: World, now: Time, sha: string)
    ensures ExpireAll(cfg, w, now, sha) == ExpireAll(cfg, w.(clock := now), now, sha)
  {
    hide SweepIssues;
    assert Swept(w) == Swept(w.(clock := now));
    assert w.(clock := now).(clock := now) == w.(clock := now);
  }

  lemma SweepPasses(cfg: Config, w: World, sha: string)
    requires Good(cfg, w) && cfg.rules.isSha(sha)
    ensures Passed(cfg, w, ExpireAll(cfg, w, w.clock, sha), Swept(w), sha)
  {
    hide Good, SweepIssues, Passed;
    var start := SweepResult(w, [], []);
    assert w.(clock := w.clock) == w;
    AscendingIsSorted(Swept(w));
    SweptExist(w);
    PassStart(cfg, w, sha);
    PassAll(cfg, w, start, {}, Ascending(Swept(w)), Swept(w), sha);
  }

  /** A sweep misses no due lease: a due head is active, so its issue is open and labelled. */
  lemma UnsweptNotDue(cfg: Config, w: World, n: nat)
    requires Good(cfg, w) && n in w.issues && n !in Swept(w)
    ensures !Due(Head(cfg, w.issues[n]), w.clock)
  {
    hide Healthy, Log;
  }

  /** After a sweep nothing is due, every log grew by the expiry of its due lease and by nothing
      else, exactly the issues with a due lease are reported, and no issue failed. */
  lemma {:induction false} SweepCorrect(cfg: Config, w0: World, now: Time, sha: string)
    requires Good(cfg, w0) && w0.clock <= now && cfg.rules.isSha(sha)
    ensures var s := ExpireAll(cfg, w0, now, sha);
            var w := w0.(clock := now);
            && Good(cfg, s.world) && (Exclusive(cfg, w0) ==> Exclusive(cfg, s.world))
            && s.failed == [] && s.world.issues.Keys == w.issues.Keys
            && forall n :: n in w.issues ==>
                             && !Due(Head(cfg, s.world.issues[n]), now)
                             && Log(cfg, s.world.issues[n]) ==
                                Log(cfg, w.issues[n]) + Expiry(cfg, w, n, now, sha)
                             && (n in s.expired <==> Due(Head(cfg, w.issues[n]), now))
  {
    hide Good, Exclusive, ExpireAll, Log, Due, Swept;
    var w := w0.(clock := now);
    ClockKeeps(cfg, w0, now);
    SweepPasses(cfg, w, sha);
    SweepClock(cfg, w0, now, sha);
    forall n | n in w.issues && n !in Swept(w)
      ensures !Due(Head(cfg, w.issues[n]), now) && Expiry(cfg, w, n, now, sha) == []
      ensures Log(cfg, w.issues[n]) + Expiry(cfg, w, n, now, sha) == Log(cfg, w.issues[n])
    {
      UnsweptNotDue(cfg, w, n);
    }
  }

  /** A live claim is untouched by a sweep. */
  lemma {:induction false} SweepSparesLive(cfg: Config, w0: World, now: Time, sha: string, n: nat)
    requires Good(cfg, w0) && w0.clock <= now && cfg.rules.isSha(sha)
    requires n in w0.issues && LiveAt(Head(cfg, w0.issues[n]), now)
    ensures var w := ExpireAll(cfg, w0, now, sha).world;
            n in w.issues && Log(cfg, w.issues[n]) == Log(cfg, w0.issues[n])
  {
    hide Good, Exclusive, ExpireAll, Log;
    SweepCorrect(cfg, w0, now, sha);
    assert Log(cfg, w0.issues[n]) + [] == Log(cfg, w0.issues[n]);
  }

  lemma {:induction false} SettledPass(cfg: Config, w: World, s: SweepResult, rest: seq<nat>, sha: string)
    requires Good(cfg, w) && cfg.rules.isSha(sha) && s.world == w
    requires forall n :: n in rest ==> n in w.issues && Settled(cfg, w, n)
    ensures SweepIssues(cfg, s, rest, w.clock, sha) == s
    decreases |rest|
  {
    hide Good, ExpireIssue, Settled;
    if rest != [] {
      ExpireSteps(cfg, w, rest[0], sha);
      assert !Due(Head(cfg, w.issues[rest[0]]), w.clock) by {
        SettledNotDue(cfg, w, rest[0]);
      }
      SettledPass(cfg, w, s, rest[1..], sha);
    }
  }

  lemma SettledNotDue(cfg: Config, w: World, n: nat)
    requires n in w.issues && Settled(cfg, w, n)
    ensures !Due(Head(cfg, w.issues[n]), w.clock)
  {
  }

  lemma PassedIsSettled(cfg: Config, w: World, s: SweepResult, sha: string)
    requires Passed(cfg, w, s, Swept(w), sha)
    ensures s.world.clock == w.clock && Good(cfg, s.world)
    ensures forall n :: n in Swept(s.world) ==> n in s.world.issues && Settled(cfg, s.world, n)
  {
    hide Good, Exclusive, Settled, Due, Log, Expiry;
    forall n | n in Swept(s.world)
      ensures n in Swept(w)
    {
    }
  }

  /** A second sweep at the same time changes nothing at all: no receipt and no label. */
  lemma SecondSweepIsIdle(cfg: Config, w0: World, now: Time, sha: string, sha': string)
    requires Good(cfg, w0) && w0.clock <= now && cfg.rules.isSha(sha) && cfg.rules.isSha(sha')
    ensures var w := ExpireAll(cfg, w0, now, sha).world;
            ExpireAll(cfg, w, now, sha') == SweepResult(w, [], [])
  {
    hide Good, Exclusive, SweepIssues, Log, Passed, Settled, Swept;
    ClockKeeps(cfg, w0, now);
    var w1 := w0.(clock := now);
    SweepPasses(cfg, w1, sha);
    SweepClock(cfg, w0, now, sha);
    var s := ExpireAll(cfg, w1, now, sha);
    PassedIsSettled(cfg, w1, s, sha);
    assert s.world.(clock := now) == s.world;
    SettledPass(cfg, s.world, SweepResult(s.world, [], []), Ascending(Swept(s.world)), sha');
  }
}
