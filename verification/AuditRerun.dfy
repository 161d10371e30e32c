/** The one automatic rerun of a pull request's audit, among any number of pull requests and runs. A refresh is
    requested by an accepted review and by the completion of a failed first attempt; each refresh is one atomic step. */
module AuditRerun {
  import opened Sorting
  import opened Wrappers

  datatype Conclusion = Success | Failed | OtherConclusion

  /** A native job; `conclusion` is absent while it runs. */
  datatype Job = Job(name: string, runId: nat, sha: string, conclusion: Option<Conclusion>)

  datatype Association = Association(number: nat, sha: string, branch: string)

  /** A workflow run. `ofWorkflow` says that identifier and path are those of the coordination
      workflow, `ofPullRequest` that a pull request event started it. */
  datatype Run = Run(
    id: nat, ofWorkflow: bool, ofPullRequest: bool, sha: string, branch: string, repository: string,
    associated: seq<Association>, conclusion: Option<Conclusion>, attempt: nat, jobs: seq<Job>)

  /** `eligible` is the verdict of the audit of the pull request's claim. */
  datatype Pull = Pull(number: nat, open: bool, sha: string, branch: string, repository: string, eligible: bool)

  /** `requests` lists the runs of which a job rerun was requested. */
  datatype Remote = Remote(pulls: map<nat, Pull>, runs: map<nat, Run>, requests: seq<nat>)

  datatype Status =
    | NotEligible | Closed | AwaitingInitialRun | AwaitingInitialCompletion | AlreadyAttempted | MalformedJobs
    | AlreadySuccessful | NotFailedAudit | RerunRequested

  predicate Candidate(run: Run, pull: Pull) {
    && run.ofWorkflow && run.ofPullRequest
    && run.sha == pull.sha && run.branch == pull.branch && run.repository == pull.repository
    && exists a :: a in run.associated && a == Association(pull.number, pull.sha, pull.branch)
  }

  function Candidates(remote: Remote, pull: Pull): set<nat> {
    set id | id in remote.runs && Candidate(remote.runs[id], pull)
  }

  predicate Above(a: nat, b: nat) { a > b }

  function Greatest(s: set<nat>): (m: nat)
    requires s != {}
    ensures m in s && forall n :: n in s ==> n <= m
  {
    LeastExists(Above, s);
    var m :| IsLeast(Above, m, s);
    m
  }

  const AUDIT_JOB := "pull-request"

  function AuditJobs(jobs: seq<Job>): seq<Job> {
    if jobs == [] then []
    else (if jobs[0].name == AUDIT_JOB then [jobs[0]] else []) + AuditJobs(jobs[1..])
  }

  /** The jobs once the audit job stands at a conclusion; all others, such as the skipped ones, stay as they are. */
  function WithAudit(jobs: seq<Job>, conclusion: Option<Conclusion>): seq<Job> {
    if jobs == [] then []
    else
      [if jobs[0].name == AUDIT_JOB then jobs[0].(conclusion := conclusion) else jobs[0]] +
      WithAudit(jobs[1..], conclusion)
  }

  lemma {:induction false} AuditOfOthers(jobs: seq<Job>, conclusion: Option<Conclusion>)
    ensures |AuditJobs(jobs)| == 1 ==>
              AuditJobs(WithAudit(jobs, conclusion)) == [AuditJobs(jobs)[0].(conclusion := conclusion)]
    ensures AuditJobs(jobs) == [] ==> AuditJobs(WithAudit(jobs, conclusion)) == []
  {
    if jobs != [] {
      AuditOfOthers(jobs[1..], conclusion);
      assert WithAudit(jobs, conclusion)[1..] == WithAudit(jobs[1..], conclusion);
      if jobs[0].name != AUDIT_JOB {
        assert AuditJobs(jobs) == AuditJobs(jobs[1..]);
      }
    }
  }

  /** A rerun starts the run's next attempt; its audit job runs again. */
  function Rerun(remote: Remote, id: nat): Remote
    requires id in remote.runs
  {
    var run := remote.runs[id];
    var again := run.(conclusion := None, attempt := run.attempt + 1, jobs := WithAudit(run.jobs, None));
    remote.(runs := remote.runs[id := again], requests := remote.requests + [id])
  }

  function RefreshReview(remote: Remote, number: nat): (result: (Remote, Status))
    requires number in remote.pulls
    ensures result.0.pulls == remote.pulls && result.0.runs.Keys == remote.runs.Keys
  {
    var pull := remote.pulls[number];
    if !pull.eligible then (remote, NotEligible)
    else if !pull.open then (remote, Closed)
    else
      var candidates := Candidates(remote, pull);
      if candidates == {} then (remote, AwaitingInitialRun)
      else
        var id := Greatest(candidates);
        var run := remote.runs[id];
        if run.conclusion.None? then (remote, AwaitingInitialCompletion)
        else if run.attempt != 1 then (remote, AlreadyAttempted)
        else
          var audits := AuditJobs(run.jobs);
          if |audits| != 1 || audits[0].runId != id || audits[0].sha != pull.sha then (remote, MalformedJobs)
          else if audits[0].conclusion == Some(Success) then (remote, AlreadySuccessful)
          else if audits[0].conclusion != Some(Failed) then (remote, NotFailedAudit)
          else (Rerun(remote, id), RerunRequested)
  }

  /** `refresh_review_pr` raised. */
  predicate Raises(remote: Remote, number: nat)
    requires number in remote.pulls
  {
    RefreshReview(remote, number).1.MalformedJobs?
  }

  /** The associated pull requests, in ascending order. */
  function Associated(run: Run): (numbers: seq<nat>)
    ensures forall n :: n in numbers <==> exists a :: a in run.associated && a.number == n
  {
    Ascending(set a | a in run.associated :: a.number)
  }

  /** The pull request is open at the head of the run. */
  predicate IsAtHead(remote: Remote, run: Run, number: nat)
    requires number in remote.pulls
  {
    var pull := remote.pulls[number];
    pull.open && pull.sha == run.sha && pull.branch == run.branch && pull.repository == run.repository
  }

  /** `[pull for pull in pulls_by_number if ...]`. */
  function AtHead(remote: Remote, run: Run, numbers: seq<nat>): (r: seq<nat>)
    requires forall n :: n in numbers ==> n in remote.pulls
    ensures forall n :: n in r <==> n in numbers && IsAtHead(remote, run, n)
  {
    if numbers == [] then []
    else
      (if IsAtHead(remote, run, numbers[0]) then [numbers[0]] else []) + AtHead(remote, run, numbers[1..])
  }

  /** One refresh after the other, up to the first that raises. */
  function RefreshAll(remote: Remote, numbers: seq<nat>): (result: Remote)
    requires forall n :: n in numbers ==> n in remote.pulls
    ensures result.pulls == remote.pulls && result.runs.Keys == remote.runs.Keys
    decreases |numbers|
  {
    if numbers == [] then remote
    else if Raises(remote, numbers[0]) then RefreshReview(remote, numbers[0]).0
    else RefreshAll(RefreshReview(remote, numbers[0]).0, numbers[1..])
  }

  /** The completion is that of a failed first attempt, and every associated pull request can be fetched. */
  predicate IsRelevant(remote: Remote, id: nat)
    requires id in remote.runs
  {
    var run := remote.runs[id];
    && run.ofWorkflow && run.ofPullRequest && run.conclusion == Some(Failed) && run.attempt == 1
    && forall n :: n in Associated(run) ==> n in remote.pulls
  }

  function RefreshCompletedRun(remote: Remote, id: nat): (result: Remote)
    requires id in remote.runs
    ensures result.pulls == remote.pulls && result.runs.Keys == remote.runs.Keys
  {
    if !IsRelevant(remote, id) then remote
    else RefreshAll(remote, AtHead(remote, remote.runs[id], Associated(remote.runs[id])))
  }

  // What a refresh does, case by case.

  /** A pull request run of the workflow, at the head of the pull request and associated with it. */
  predicate IsRunOf(run: Run, pull: Pull) {
    && run.ofWorkflow == true && run.ofPullRequest == true
    && run.sha == pull.sha && run.branch == pull.branch && run.repository == pull.repository
    && exists a :: a in run.associated && a.number == pull.number && a.sha == pull.sha && a.branch == pull.branch
  }

  predicate IsLatestRun(remote: Remote, pull: Pull, id: nat) {
    && id in remote.runs && IsRunOf(remote.runs[id], pull)
    && forall k :: k in remote.runs && IsRunOf(remote.runs[k], pull) ==> k <= id
  }

  /** The audit job at position `i` is the only one. */
  predicate IsOnlyAudit(jobs: seq<Job>, i: nat) {
    && i < |jobs| && jobs[i].name == "pull-request"
    && forall j :: 0 <= j < |jobs| && j != i ==> jobs[j].name != "pull-request"
  }

  lemma {:induction false} AuditsExactly(jobs: seq<Job>)
    ensures |AuditJobs(jobs)| == 1 <==> exists i :: 0 <= i < |jobs| && IsOnlyAudit(jobs, i)
    ensures forall i :: 0 <= i < |jobs| && IsOnlyAudit(jobs, i) ==> AuditJobs(jobs) == [jobs[i]]
    ensures AuditJobs(jobs) == [] <==> forall i :: 0 <= i < |jobs| ==> jobs[i].name != "pull-request"
  {
    if jobs != [] {
      var rest := jobs[1..];
      AuditsExactly(rest);
      assert jobs == [jobs[0]] + rest;
      forall i | 1 <= i < |jobs| ensures jobs[i] == rest[i - 1] {
      }
      if jobs[0].name == "pull-request" {
        assert IsOnlyAudit(jobs, 0) <==> AuditJobs(rest) == [];
      } else {
        forall i | 1 <= i < |jobs| ensures IsOnlyAudit(jobs, i) <==> IsOnlyAudit(rest, i - 1) {
        }
        forall i | 0 <= i < |rest| && IsOnlyAudit(rest, i) ensures IsOnlyAudit(jobs, i + 1) {
        }
      }
    }
  }

  /** The run's next attempt has begun, and a rerun of it was requested; nothing else has changed. */
  predicate IsRerun(before: Remote, after: Remote, id: nat) {
    && id in before.runs && after.runs.Keys == before.runs.Keys && after.pulls == before.pulls
    && after.requests == before.requests + [id]
    && (forall k :: k in before.runs && k != id ==> after.runs[k] == before.runs[k])
    && var run, again := before.runs[id], after.runs[id];
       && again == run.(conclusion := None, attempt := run.attempt + 1, jobs := again.jobs)
       && |again.jobs| == |run.jobs|
       && forall i :: 0 <= i < |run.jobs| ==>
            again.jobs[i] ==
              if run.jobs[i].name == "pull-request" then run.jobs[i].(conclusion := None) else run.jobs[i]
  }

  lemma {:induction false} WithAuditExactly(jobs: seq<Job>, conclusion: Option<Conclusion>)
    ensures var after := WithAudit(jobs, conclusion);
            |after| == |jobs| &&
            forall i :: 0 <= i < |jobs| ==>
              after[i] == if jobs[i].name == "pull-request" then jobs[i].(conclusion := conclusion) else jobs[i]
  {
    if jobs != [] {
      WithAuditExactly(jobs[1..], conclusion);
    }
  }

  /** The answer of a refresh that has found the latest run. */
  predicate HasRunStatus(pull: Pull, id: nat, run: Run, status: Status) {
    var found := exists i :: 0 <= i < |run.jobs| && IsOnlyAudit(run.jobs, i) && run.jobs[i].runId == id &&
                             run.jobs[i].sha == pull.sha;
    && (run.conclusion == None ==> status == AwaitingInitialCompletion)
    && (run.conclusion != None && run.attempt != 1 ==> status == AlreadyAttempted)
    && (run.conclusion != None && run.attempt == 1 && !found ==> status == MalformedJobs)
    && (run.conclusion != None && run.attempt == 1 && found ==>
          forall i :: 0 <= i < |run.jobs| && IsOnlyAudit(run.jobs, i) ==>
            && (run.jobs[i].conclusion == Some(Success) ==> status == AlreadySuccessful)
            && (run.jobs[i].conclusion == Some(Failed) ==> status == RerunRequested)
            && (run.jobs[i].conclusion !in {Some(Success), Some(Failed)} ==> status == NotFailedAudit))
  }

  lemma LatestExactly(remote: Remote, n: nat, id: nat)
    requires n in remote.pulls && remote.pulls[n].eligible && remote.pulls[n].open
    requires id in remote.runs && IsLatestRun(remote, remote.pulls[n], id)
    ensures var (after, status) := RefreshReview(remote, n);
            && HasRunStatus(remote.pulls[n], id, remote.runs[id], status)
            && (status == RerunRequested ==> IsRerun(remote, after, id))
  {
    hide AuditJobs, WithAudit, IsOnlyAudit, IsRunOf, Candidate;
    var pull, jobs := remote.pulls[n], remote.runs[id].jobs;
    forall k | k in remote.runs ensures Candidate(remote.runs[k], pull) <==> IsRunOf(remote.runs[k], pull) {
      CandidateExactly(remote.runs[k], pull);
    }
    assert id in Candidates(remote, pull) && Greatest(Candidates(remote, pull)) == id;
    AuditsExactly(jobs);
    WithAuditExactly(jobs, None);
  }

  /** Every answer of a refresh has its own condition, and only a request changes anything. */
  lemma RefreshExactly(remote: Remote, n: nat)
    requires n in remote.pulls
    ensures var pull, (after, status) := remote.pulls[n], RefreshReview(remote, n);
            && (!pull.eligible ==> status == NotEligible)
            && (pull.eligible && !pull.open ==> status == Closed)
            && (pull.eligible && pull.open && (forall id :: id in remote.runs ==> !IsRunOf(remote.runs[id], pull)) ==>
                  status == AwaitingInitialRun)
            && (forall id :: id in remote.runs && IsLatestRun(remote, pull, id) && pull.eligible && pull.open ==>
                  && HasRunStatus(pull, id, remote.runs[id], status)
                  && (status == RerunRequested ==> IsRerun(remote, after, id)))
            && (status != RerunRequested ==> after == remote)
  {
    hide AuditJobs, WithAudit, IsOnlyAudit, HasRunStatus, IsRerun, IsLatestRun, IsRunOf, Candidate;
    var pull := remote.pulls[n];
    forall id | id in remote.runs ensures Candidate(remote.runs[id], pull) <==> IsRunOf(remote.runs[id], pull) {
      CandidateExactly(remote.runs[id], pull);
    }
    forall id | id in remote.runs && IsLatestRun(remote, pull, id) && pull.eligible && pull.open
      ensures var (after, status) := RefreshReview(remote, n);
              && HasRunStatus(pull, id, remote.runs[id], status)
              && (status == RerunRequested ==> IsRerun(remote, after, id))
    {
      LatestExactly(remote, n, id);
    }
  }

  lemma CandidateExactly(run: Run, pull: Pull)
    ensures Candidate(run, pull) <==> IsRunOf(run, pull)
  {
    if a :| a in run.associated && a.number == pull.number && a.sha == pull.sha && a.branch == pull.branch {
      assert a == Association(pull.number, pull.sha, pull.branch);
    }
  }

  lemma AssociatedAscends(run: Run)
    ensures Climbs(Associated(run))
  {
    AscendingIsSorted(set a | a in run.associated :: a.number);
  }

  lemma {:induction false} AtHeadAscends(remote: Remote, run: Run, numbers: seq<nat>)
    requires forall n :: n in numbers ==> n in remote.pulls
    requires Climbs(numbers)
    ensures Climbs(AtHead(remote, run, numbers))
  {
    hide IsAtHead, Climbs;
    if numbers != [] {
      ClimbsBelow(numbers);
      AtHeadAscends(remote, run, numbers[1..]);
      var rest := AtHead(remote, run, numbers[1..]);
      ConsClimbs(numbers[0], rest, numbers[1..]);
      assert [] + rest == rest;
    }
  }

  /** The associated pull request is open at the head of the run. */
  predicate IsConcerned(remote: Remote, run: Run, n: nat) {
    && n in remote.pulls && (exists a :: a in run.associated && a.number == n)
    && remote.pulls[n].open && remote.pulls[n].sha == run.sha && remote.pulls[n].branch == run.branch
    && remote.pulls[n].repository == run.repository
  }

  /** The pull requests that a completed run refreshes: those associated with it that are open at its head, in ascending
      order, if it is a failed first attempt of the workflow for pull requests that can all be fetched. */
  lemma CompletionExactly(remote: Remote, id: nat) returns (numbers: seq<nat>)
    requires id in remote.runs
    ensures var run := remote.runs[id];
            var known := forall a :: a in run.associated ==> a.number in remote.pulls;
            if run.ofWorkflow && run.ofPullRequest && run.conclusion == Some(Failed) && run.attempt == 1 && known then
              && (forall n :: n in numbers ==> n in remote.pulls)
              && (forall n :: n in remote.pulls ==> (n in numbers <==> IsConcerned(remote, run, n)))
              && Climbs(numbers) && RefreshCompletedRun(remote, id) == RefreshAll(remote, numbers)
            else RefreshCompletedRun(remote, id) == remote
  {
    hide Climbs, RefreshAll;
    var run := remote.runs[id];
    numbers := [];
    assert forall a :: a in run.associated ==> a.number in Associated(run);
    if IsRelevant(remote, id) {
      numbers := AtHead(remote, run, Associated(run));
      AssociatedAscends(run);
      AtHeadAscends(remote, run, Associated(run));
    }
  }

  /** The refreshes of a completed run go on up to the first that raises. */
  lemma RefreshAllExactly(remote: Remote, numbers: seq<nat>)
    requires forall n :: n in numbers ==> n in remote.pulls
    ensures numbers == [] ==> RefreshAll(remote, numbers) == remote
    ensures numbers != [] ==>
              var (next, status) := RefreshReview(remote, numbers[0]);
              RefreshAll(remote, numbers) ==
                if status == MalformedJobs then next else RefreshAll(next, numbers[1..])
  {
  }

  // What can happen.

  /** Reviews are accepted, attempts end, and the two handlers run: for any pull requests and runs, in any order and any
      number of times. */
  datatype Event =
    | ReviewAccepted(pull: nat)
    | AttemptEnded(run: nat, conclusion: Conclusion)
    | OnReview(pull: nat)
    | OnCompletion(run: nat)

  /** Only a running attempt can end. */
  predicate Possible(remote: Remote, e: Event) {
    match e
    case ReviewAccepted(n) => n in remote.pulls
    case AttemptEnded(id, _) => id in remote.runs && remote.runs[id].conclusion.None?
    case OnReview(n) => n in remote.pulls
    case OnCompletion(id) => id in remote.runs
  }

  function EndAttempt(run: Run, conclusion: Conclusion): Run {
    run.(conclusion := Some(conclusion), jobs := WithAudit(run.jobs, Some(conclusion)))
  }

  function Happen(remote: Remote, e: Event): Remote
    requires Possible(remote, e)
  {
    match e
    case ReviewAccepted(n) => remote.(pulls := remote.pulls[n := remote.pulls[n].(eligible := true)])
    case AttemptEnded(id, conclusion) =>
      remote.(runs := remote.runs[id := EndAttempt(remote.runs[id], conclusion)])
    case OnReview(n) => RefreshReview(remote, n).0
    case OnCompletion(id) => RefreshCompletedRun(remote, id)
  }

  predicate PossibleRun(remote: Remote, es: seq<Event>)
    decreases |es|, 0
  {
    es == [] ||
    (PossibleRun(remote, es[..|es| - 1]) && Possible(After(remote, es[..|es| - 1]), es[|es| - 1]))
  }

  function After(remote: Remote, es: seq<Event>): Remote
    requires PossibleRun(remote, es)
    decreases |es|, 1
  {
    if es == [] then remote else Happen(After(remote, es[..|es| - 1]), es[|es| - 1])
  }

  // One pull request and its latest run, among the others.

  predicate AreNumbered(remote: Remote) { forall n :: n in remote.pulls ==> remote.pulls[n].number == n }

  /** Run `r` is the latest of pull request `p`, belongs to it alone, and among its jobs has one audit job whose
      outcome is that of the run. */
  predicate Bound(remote: Remote, p: nat, r: nat) {
    && p in remote.pulls && remote.pulls[p].open && r in remote.runs
    && var pull, run := remote.pulls[p], remote.runs[r];
       && run.id == r && Candidate(run, pull) && (forall id :: id in Candidates(remote, pull) ==> id <= r)
       && (forall a :: a in run.associated ==> a.number == p)
       && AuditJobs(run.jobs) == [Job(AUDIT_JOB, r, pull.sha, run.conclusion)]
  }

  /** What has happened so far to `p` and `r`, as seen in the remote state: a request was made exactly if the attempt
      counter says so. */
  predicate Consistent(remote: Remote, p: nat, r: nat, accepted: bool, failed: bool, handled: bool) {
    && AreNumbered(remote) && Bound(remote, p, r) && remote.pulls[p].eligible == accepted
    && multiset(remote.requests)[r] == (if handled then 1 else 0)
    && var run := remote.runs[r];
       if handled then
         accepted && failed && run.attempt == 2
       else
         run.attempt == 1 && (run.conclusion == Some(Failed) <==> failed)
  }

  lemma RefreshOnce(remote: Remote, p: nat, r: nat, accepted: bool, failed: bool, handled: bool)
    requires Consistent(remote, p, r, accepted, failed, handled)
    ensures RefreshReview(remote, p).0 == (if accepted && failed && !handled then Rerun(remote, r) else remote)
    ensures !Raises(remote, p)
  {
    var pull, run := remote.pulls[p], remote.runs[r];
    assert Greatest(Candidates(remote, pull)) == r by {
      assert r in Candidates(remote, pull);
    }
  }

  /** The refresh of another pull request reruns another run, if any. */
  lemma RefreshOfOther(remote: Remote, p: nat, r: nat, n: nat)
    requires AreNumbered(remote) && Bound(remote, p, r) && n in remote.pulls && n != p
    ensures var after := RefreshReview(remote, n).0;
            after == remote || exists id :: id in remote.runs && id != r && after == Rerun(remote, id)
  {
    var pull := remote.pulls[n];
    if Candidates(remote, pull) != {} {
      var id := Greatest(Candidates(remote, pull));
      assert Candidate(remote.runs[id], pull);
    }
  }

  /** Attempts, conclusions, jobs and verdicts do not decide which runs belong to a pull request. */
  lemma SameCandidates(before: Remote, after: Remote, p: nat, id: nat)
    requires p in before.pulls && p in after.pulls && id in before.runs && id in after.runs
    requires after.pulls[p] == before.pulls[p].(eligible := after.pulls[p].eligible)
    requires var a, b := after.runs[id], before.runs[id];
             a == b.(conclusion := a.conclusion, attempt := a.attempt, jobs := a.jobs)
    requires after.runs == before.runs[id := after.runs[id]]
    ensures Candidates(after, after.pulls[p]) == Candidates(before, before.pulls[p])
    ensures forall k :: k in before.runs ==>
              (Candidate(after.runs[k], after.pulls[p]) <==> Candidate(before.runs[k], before.pulls[p]))
  {
    hide AuditJobs;
    var pull, pull' := before.pulls[p], after.pulls[p];
    forall k | k in before.runs ensures Candidate(after.runs[k], pull') <==> Candidate(before.runs[k], pull) {
      assert after.runs[k].associated == before.runs[k].associated;
    }
  }

  lemma RerunConsistent(remote: Remote, p: nat, r: nat)
    requires Consistent(remote, p, r, true, true, false)
    ensures Consistent(Rerun(remote, r), p, r, true, true, true)
  {
    AuditOfOthers(remote.runs[r].jobs, None);
    SameCandidates(remote, Rerun(remote, r), p, r);
  }

  /** What happens to other runs and to other pull requests does not show. */
  lemma OthersDoNotShow(
    before: Remote, after: Remote, p: nat, r: nat, id: nat, accepted: bool, failed: bool, handled: bool)
    requires Consistent(before, p, r, accepted, failed, handled) && id in before.runs && id in after.runs && id != r
    requires after.pulls == before.pulls && after.runs == before.runs[id := after.runs[id]]
    requires var a, b := after.runs[id], before.runs[id];
             a == b.(conclusion := a.conclusion, attempt := a.attempt, jobs := a.jobs)
    requires multiset(after.requests)[r] == multiset(before.requests)[r]
    ensures Consistent(after, p, r, accepted, failed, handled)
  {
    hide AuditJobs;
    SameCandidates(before, after, p, id);
  }

  lemma RefreshKeeps(remote: Remote, p: nat, r: nat, n: nat, accepted: bool, failed: bool, handled: bool)
    requires Consistent(remote, p, r, accepted, failed, handled) && n in remote.pulls
    ensures Consistent(RefreshReview(remote, n).0, p, r, accepted, failed, handled || (accepted && failed && n == p))
  {
    hide Consistent, RefreshReview;
    if n == p {
      RefreshOnce(remote, p, r, accepted, failed, handled);
      if accepted && failed && !handled {
        RerunConsistent(remote, p, r);
      }
    } else {
      RefreshElsewhere(remote, p, r, n, accepted, failed, handled);
    }
  }

  lemma RefreshElsewhere(remote: Remote, p: nat, r: nat, n: nat, accepted: bool, failed: bool, handled: bool)
    requires Consistent(remote, p, r, accepted, failed, handled) && n in remote.pulls && n != p
    ensures Consistent(RefreshReview(remote, n).0, p, r, accepted, failed, handled)
  {
    hide RefreshReview, Bound;
    RefreshOfOther(remote, p, r, n);
    var after := RefreshReview(remote, n).0;
    if after != remote {
      var id :| id in remote.runs && id != r && after == Rerun(remote, id);
      OthersDoNotShow(remote, after, p, r, id, accepted, failed, handled);
    }
  }

  /** Whether a chain of refreshes comes to pull request `p`. */
  predicate Reaches(remote: Remote, numbers: seq<nat>, p: nat)
    requires forall n :: n in numbers ==> n in remote.pulls
    decreases |numbers|
  {
    numbers != [] &&
    (numbers[0] == p ||
     (!Raises(remote, numbers[0]) && Reaches(RefreshReview(remote, numbers[0]).0, numbers[1..], p)))
  }

  lemma {:induction false} RefreshAllKeeps(
    remote: Remote, p: nat, r: nat, numbers: seq<nat>, accepted: bool, failed: bool, handled: bool)
    requires Consistent(remote, p, r, accepted, failed, handled) && forall n :: n in numbers ==> n in remote.pulls
    ensures Consistent(RefreshAll(remote, numbers), p, r, accepted, failed,
                       handled || (accepted && failed && Reaches(remote, numbers, p)))
    decreases |numbers|
  {
    hide Consistent, RefreshReview, Raises;
    if numbers != [] {
      var n := numbers[0];
      RefreshKeeps(remote, p, r, n, accepted, failed, handled);
      if n == p {
        RefreshOnce(remote, p, r, accepted, failed, handled);
      }
      if !Raises(remote, n) {
        var handled' := handled || (accepted && failed && n == p);
        RefreshAllKeeps(RefreshReview(remote, n).0, p, r, numbers[1..], accepted, failed, handled');
      }
    }
  }

  /** The event is a handler call that refreshes pull request `p`. */
  predicate Refreshes(remote: Remote, e: Event, p: nat)
    requires Possible(remote, e)
  {
    match e
    case OnReview(n) => n == p
    case OnCompletion(id) =>
      IsRelevant(remote, id) && Reaches(remote, AtHead(remote, remote.runs[id], Associated(remote.runs[id])), p)
    case _ => false
  }

  lemma HappenConsistent(remote: Remote, p: nat, r: nat, e: Event, accepted: bool, failed: bool, handled: bool)
    requires Consistent(remote, p, r, accepted, failed, handled) && Possible(remote, e)
    ensures Consistent(Happen(remote, e), p, r, accepted || e == ReviewAccepted(p),
                       failed || e == AttemptEnded(r, Failed),
                       handled || (accepted && failed && Refreshes(remote, e, p)))
  {
    hide RefreshReview, RefreshAll, Reaches;
    match e
    case OnReview(n) => RefreshKeeps(remote, p, r, n, accepted, failed, handled);
    case OnCompletion(id) =>
      if IsRelevant(remote, id) {
        var numbers := AtHead(remote, remote.runs[id], Associated(remote.runs[id]));
        RefreshAllKeeps(remote, p, r, numbers, accepted, failed, handled);
      }
    case ReviewAccepted(n) => AcceptKeeps(remote, p, r, n, accepted, failed, handled);
    case AttemptEnded(id, conclusion) => EndKeeps(remote, p, r, id, conclusion, accepted, failed, handled);
  }

  lemma AcceptKeeps(remote: Remote, p: nat, r: nat, n: nat, accepted: bool, failed: bool, handled: bool)
    requires Consistent(remote, p, r, accepted, failed, handled) && n in remote.pulls
    ensures Consistent(Happen(remote, ReviewAccepted(n)), p, r, accepted || n == p, failed, handled)
  {
    hide AuditJobs;
    SameCandidates(remote, Happen(remote, ReviewAccepted(n)), p, r);
  }

  lemma EndKeeps(
    remote: Remote, p: nat, r: nat, id: nat, conclusion: Conclusion, accepted: bool, failed: bool, handled: bool)
    requires Consistent(remote, p, r, accepted, failed, handled) && Possible(remote, AttemptEnded(id, conclusion))
    ensures Consistent(Happen(remote, AttemptEnded(id, conclusion)), p, r, accepted,
                       failed || (id == r && conclusion.Failed?), handled)
  {
    var after := Happen(remote, AttemptEnded(id, conclusion));
    if id == r {
      AuditOfOthers(remote.runs[r].jobs, Some(conclusion));
      SameCandidates(remote, after, p, r);
    } else {
      OthersDoNotShow(remote, after, p, r, id, accepted, failed, handled);
    }
  }

  // Every order of events.

  lemma {:induction false} PrefixPossible(remote: Remote, es: seq<Event>, k: nat)
    requires PossibleRun(remote, es) && k <= |es|
    ensures PossibleRun(remote, es[..k])
    ensures k < |es| ==> Possible(After(remote, es[..k]), es[k])
    decreases |es|
  {
    hide Possible;
    if k == |es| {
      assert es[..k] == es;
    } else if k < |es| - 1 {
      PrefixPossible(remote, es[..|es| - 1], k);
      assert es[..|es| - 1][..k] == es[..k];
    }
  }

  /** The `k`-th event refreshed `p` after its review was accepted and the first attempt of `r` had failed. */
  predicate RefreshedAt(remote: Remote, p: nat, r: nat, es: seq<Event>, k: int)
    requires PossibleRun(remote, es)
  {
    0 <= k < |es| && ReviewAccepted(p) in es[..k] && AttemptEnded(r, Failed) in es[..k] &&
    (PrefixPossible(remote, es, k); Refreshes(After(remote, es[..k]), es[k], p))
  }

  predicate RefreshedAfterBoth(remote: Remote, p: nat, r: nat, es: seq<Event>)
    requires PossibleRun(remote, es)
  {
    exists k :: 0 <= k < |es| && RefreshedAt(remote, p, r, es, k)
  }

  lemma HistoryGrows(remote: Remote, p: nat, r: nat, es: seq<Event>)
    requires es != [] && PossibleRun(remote, es)
    ensures var front, e := es[..|es| - 1], es[|es| - 1];
            && (ReviewAccepted(p) in es <==> ReviewAccepted(p) in front || e == ReviewAccepted(p))
            && (AttemptEnded(r, Failed) in es <==> AttemptEnded(r, Failed) in front || e == AttemptEnded(r, Failed))
            && (RefreshedAfterBoth(remote, p, r, es) <==>
                RefreshedAfterBoth(remote, p, r, front) ||
                (ReviewAccepted(p) in front && AttemptEnded(r, Failed) in front &&
                 Refreshes(After(remote, front), e, p)))
  {
    hide After, Refreshes;
    var n := |es| - 1;
    var front := es[..n];
    assert es == front + [es[n]];
    forall k | 0 <= k < n ensures RefreshedAt(remote, p, r, es, k) <==> RefreshedAt(remote, p, r, front, k) {
      assert front[..k] == es[..k] && front[k] == es[k];
    }
    assert RefreshedAt(remote, p, r, es, n) <==>
           ReviewAccepted(p) in front && AttemptEnded(r, Failed) in front && Refreshes(After(remote, front), es[n], p);
  }

  lemma {:induction false} RunConsistent(remote: Remote, p: nat, r: nat, es: seq<Event>)
    requires Consistent(remote, p, r, false, false, false) && PossibleRun(remote, es)
    ensures Consistent(After(remote, es), p, r, ReviewAccepted(p) in es, AttemptEnded(r, Failed) in es,
                       RefreshedAfterBoth(remote, p, r, es))
    decreases |es|
  {
    hide Consistent, Happen, RefreshedAfterBoth, Possible, Refreshes;
    if es == [] {
      NothingYet(remote, p, r);
    } else {
      var front, e := es[..|es| - 1], es[|es| - 1];
      RunConsistent(remote, p, r, front);
      HappenConsistent(After(remote, front), p, r, e, ReviewAccepted(p) in front, AttemptEnded(r, Failed) in front,
                       RefreshedAfterBoth(remote, p, r, front));
      HistoryGrows(remote, p, r, es);
    }
  }

  lemma NothingYet(remote: Remote, p: nat, r: nat)
    ensures !RefreshedAfterBoth(remote, p, r, [])
  {
  }

  /** Whatever happens, to these and to any others, and however often the handlers run: one rerun of `r` is requested if
      some handler call refreshed `p` after both the acceptance and the failure, and none otherwise. */
  lemma ExactlyOneRerun(remote: Remote, p: nat, r: nat, es: seq<Event>)
    requires Consistent(remote, p, r, false, false, false) && PossibleRun(remote, es)
    ensures multiset(After(remote, es).requests)[r] == if RefreshedAfterBoth(remote, p, r, es) then 1 else 0
  {
    hide After, PossibleRun, RefreshedAfterBoth;
    RunConsistent(remote, p, r, es);
  }

  /** The handler of the failed run itself comes to its pull request, unless the rerun was requested before. */
  lemma CompletionRefreshes(remote: Remote, p: nat, r: nat, accepted: bool)
    requires Consistent(remote, p, r, accepted, true, false)
    ensures Refreshes(remote, OnCompletion(r), p)
  {
    var run := remote.runs[r];
    assert Associated(run) == [p] by {
      assert (set a | a in run.associated :: a.number) == {p};
      OnlyOne(p);
    }
    assert AtHead(remote, run, [p]) == [p] by {
      assert [p][1..] == [] && AtHead(remote, run, []) == [];
    }
  }

  lemma OnlyOne(p: nat)
    ensures Ascending({p}) == [p]
  {
    assert {p} - {p} == {};
    assert Sorted(Below, {p})[0] in Ascending({p});
  }

  /** Once the acceptance and the completion have each been handled, the rerun was requested: the
      handler of the later one ran after both. */
  lemma NoRerunIsLost(remote: Remote, p: nat, r: nat, es: seq<Event>, a: nat, a': nat, f: nat, f': nat)
    requires Consistent(remote, p, r, false, false, false) && PossibleRun(remote, es)
    requires a < a' < |es| && es[a] == ReviewAccepted(p) && es[a'] == OnReview(p)
    requires f < f' < |es| && es[f] == AttemptEnded(r, Failed) && es[f'] == OnCompletion(r)
    ensures multiset(After(remote, es).requests)[r] == 1
  {
    hide Consistent, After, PossibleRun, Refreshes;
    ExactlyOneRerun(remote, p, r, es);
    var k := if a' < f' then f' else a';
    assert es[..k][a] == es[a] && es[..k][f] == es[f];
    PrefixPossible(remote, es, k);
    RunConsistent(remote, p, r, es[..k]);
    if RefreshedAfterBoth(remote, p, r, es[..k]) {
      var j :| 0 <= j < k && RefreshedAt(remote, p, r, es[..k], j);
      assert es[..k][..j] == es[..j] && es[..k][j] == es[j];
      assert RefreshedAt(remote, p, r, es, j);
    } else {
      HandlerRefreshes(After(remote, es[..k]), p, r, es[k]);
      assert RefreshedAt(remote, p, r, es, k);
    }
  }

  lemma HandlerRefreshes(remote: Remote, p: nat, r: nat, e: Event)
    requires Consistent(remote, p, r, true, true, false) && e in {OnReview(p), OnCompletion(r)}
    ensures Possible(remote, e) && Refreshes(remote, e, p)
  {
    hide Consistent, IsRelevant, Reaches;
    assert p in remote.pulls && r in remote.runs by { Places(remote, p, r); }
    if e == OnCompletion(r) {
      CompletionRefreshes(remote, p, r, true);
    }
  }

  lemma Places(remote: Remote, p: nat, r: nat)
    requires Consistent(remote, p, r, true, true, false)
    ensures p in remote.pulls && r in remote.runs
  {
  }
}
