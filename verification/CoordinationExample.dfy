/** Concrete cases: a live holder whose issue was closed and whom the conflict scan misses, a due lease whose issue lost
    its label and which the sweep misses, and a head with a full day's lease that a clock went back behind. */
module CoordinationExample {
  import opened Wrappers
  import opened TextFormats
  import C = Claims
  import opened ReceiptLog
  import opened HandlerLogs
  import opened Coordination
  import opened CoordinationInvariants
  import opened CoordinationSteps
  import opened CoordinationVisibility
  import opened Sorting

  type Hash = C.Body -> string

  function Uuid(): string {
    seq(36, i => if i == 8 || i == 13 || i == 18 || i == 23 then '-' else if i == 14 then '4' else '8')
  }

  function Session(key: char): string { "dm:coord-session:v0:" + seq(42, _ => key) + "A" }

  function Sha(): string { seq(40, _ => 'a') }

  function IssueName(number: nat): string { C.IssueResource(C.IssueRef("o/r", number)) }

  function Holder(number: nat, key: char): C.Command {
    C.Command(Uuid(), C.Claim, C.Scope(Uuid(), "p", Session(key), [IssueName(number), "path:x"], "b"),
              C.IssueRef("o/r", number), 0, Some(60), None, None, None)
  }

  function Configuration(hash: Hash): Config {
    Config("o/r", map["p" := Principal(true, {"login"})], {"bot"}, "bot", C.PublishedRules(hash))
  }

  function Held(hash: Hash): C.Receipt {
    var rules := C.PublishedRules(hash);
    var body := C.DecisionBody(rules, Holder(1, 'A'), None, 0, Sha(), true, None);
    C.Receipt(body, rules.Id(hash(body)), hash(body))
  }

  /** Issue 1 holds `path:x` with a live lease but is closed; issue 2 is ready. */
  function Start(hash: Hash): World {
    World(map[1 := Issue([Comment(0, "bot", Block(Held(hash)))], {StatusClaimed}, false),
              2 := Issue([], {StatusReady}, true)], 0, 1)
  }

  function ClaimOfTwo(): Request {
    Request(2, Ok(Some(Holder(2, 'B'))), Some(C.Claim), "login", Ok(false), 0, Sha())
  }

  lemma Names(hash: Hash, key: char)
    requires IsAlnum(key)
    ensures var rules := C.PublishedRules(hash);
            && rules.isUuid(Uuid()) && rules.isSession(Session(key)) && rules.isSha(Sha()) && rules.isPrincipal("p")
  {
  }

  lemma Places(hash: Hash)
    ensures C.PublishedRules(hash).isBranch("b") && C.PublishedRules(hash).isRepository("o/r")
  {
    var repository := "o/r";
    assert repository[..1] == "o" && repository[2..] == "r" && repository[1] == '/';
  }

  lemma IssueNames()
    ensures IssueName(1) == "issue:o/r#1" && IssueName(2) == "issue:o/r#2"
    ensures Less("issue:o/r#1", "path:x") && Less("issue:o/r#2", "path:x")
  {
  }

  lemma IssueNameIsResource(digit: string)
    requires digit == "1" || digit == "2"
    ensures IsResource("issue:o/r#" + digit)
  {
    assert RESOURCE_KINDS[0] in RESOURCE_KINDS;
    assert IsOfKind("issue:o/r#" + digit, RESOURCE_KINDS[0]);
  }

  lemma PathIsResource()
    ensures IsResource("path:x")
  {
    assert RESOURCE_KINDS[1] in RESOURCE_KINDS;
    assert IsOfKind("path:x", RESOURCE_KINDS[1]);
  }

  lemma Resources(number: nat)
    requires number == 1 || number == 2
    ensures AreResources([IssueName(number), "path:x"])
  {
    hide IsResource, Less, IssueName;
    IssueNames();
    IssueNameIsResource(if number == 1 then "1" else "2");
    assert "issue:o/r#" + "1" == "issue:o/r#1" && "issue:o/r#" + "2" == "issue:o/r#2";
    PathIsResource();
  }

  lemma HolderIsValid(hash: Hash, number: nat, key: char)
    requires (number == 1 || number == 2) && IsAlnum(key)
    ensures C.ValidCommand(C.PublishedRules(hash), Holder(number, key))
  {
    Resources(number);
    Names(hash, key);
    Places(hash);
  }

  lemma Overlap()
    ensures !Holder(2, 'B').scope.SameOwner(Holder(1, 'A').scope)
    ensures !Holder(2, 'B').scope.Disjoint(Holder(1, 'A').scope)
  {
    var a, b := Holder(1, 'A').scope, Holder(2, 'B').scope;
    assert a.resources[1] == "path:x" == b.resources[1];
    assert "path:x" in a.resources && "path:x" in b.resources;
    assert a.sessionId[20] == 'A' && b.sessionId[20] == 'B';
  }

  lemma Heads(hash: Hash)
    ensures var cfg, w := Configuration(hash), Start(hash);
            && Head(cfg, w.issues[1]) == Some(Held(hash)) && Log(cfg, w.issues[1]) == [Held(hash)]
            && Head(cfg, w.issues[2]) == None && Log(cfg, w.issues[2]) == [] && Scanned(w) == {}
  {
    hide Held;
    var comments := [Comment(0, "bot", Block(Held(hash)))];
    assert comments[..0] == [];
    assert Trusted(Configuration(hash), comments) == [Posted(Some(0), Held(hash))];
  }

  lemma HeldIsStep(hash: Hash)
    ensures Step(C.PublishedRules(hash), C.IssueRef("o/r", 1), None, Held(hash))
  {
    hide C.Defect, Uuid, Session, IssueName;
    var rules, c := C.PublishedRules(hash), Holder(1, 'A');
    HolderIsValid(hash, 1, 'A');
    Names(hash, 'A');
    C.DecisionTotal(rules, c, None, 0, Sha(), true, None);
    assert Decides(rules, C.IssueRef("o/r", 1), None, Held(hash), Call(c, 0, Sha(), true, None));
  }

  /** The holder's log is genuine: it is what the handler writes on a first claim. */
  lemma StartIsHealthy(hash: Hash)
    requires C.PublishedRules(hash).CollisionFree()
    ensures HealthyLogs(Configuration(hash), Start(hash))
  {
    hide Step, Held, Log, Trusted;
    var cfg, w := Configuration(hash), Start(hash);
    Heads(hash);
    HeldIsStep(hash);
    assert [Held(hash)][..0] == [];
    assert HandlerLog(cfg.rules, cfg.Ref(1), [Held(hash)]);
    assert IdsBelow([], 0) && w.issues[1].comments[..0] == [];
    HeldAtZero(hash);
    assert Healthy(cfg, 1, w.issues[1], 0, 1);
    assert Healthy(cfg, 2, w.issues[2], 0, 1);
  }

  lemma HeldAtZero(hash: Hash)
    ensures Held(hash).body.at == 0
  {
  }

  lemma ClaimOfTwoIsAccepted(hash: Hash)
    ensures var cfg, w, c := Configuration(hash), Start(hash), Holder(2, 'B');
            var d := C.DecideCommand(cfg.rules, c, None, 0, Sha(), true, None);
            && d.Ok? && Opens(d.value) && d.value.body.scope == c.scope && d.value.IsLive(0)
            && Decide(cfg, w, ClaimOfTwo(), c, None) == (Append(cfg, w, 2, d.value, Mark(d.value)), Ok(d.value))
  {
    hide C.Defect, C.IssueResource, Uuid, Session, IssueName;
    Heads(hash);
    HolderIsValid(hash, 2, 'B');
    Names(hash, 'B');
    assert Ascending(Scanned(Start(hash))) == [];
    C.DecisionTotal(C.PublishedRules(hash), Holder(2, 'B'), None, 0, Sha(), true, None);
  }

  /** The handler admits the claim and decides on an empty log. */
  lemma ClaimOfTwoIsDecided(hash: Hash)
    ensures var cfg, w, req := Configuration(hash), Start(hash), ClaimOfTwo();
            HandleComment(cfg, w, req) == Decide(cfg, w, req, Holder(2, 'B'), None)
  {
    hide Decide, C.PublishedRules, Uuid, Session, IssueName, Held;
    var cfg, w, req := Configuration(hash), Start(hash), ClaimOfTwo();
    var c := Holder(2, 'B');
    assert c.scope.principal == "p" && cfg.principals["p"] == Principal(true, {"login"});
    assert Admit(cfg, req) == Ok(c);
    assert w.(clock := req.now) == w;
    assert Collect(cfg, []) == Ok([]) && StateOf(cfg, 2, w.issues[2].comments) == Ok(None) by {
      NothingReduces(cfg.Ref(2));
    }
  }

  lemma NothingReduces(issue: C.IssueRef)
    ensures Reduce([], issue) == Ok(None)
  {
    assert Receipts([]) == [] && SortByComment([]) == [];
  }

  /** The handler accepts the claim on issue 2 although issue 1 holds `path:x` for another session. */
  lemma ClosedHolderIsOverlooked(hash: Hash)
    requires C.PublishedRules(hash).CollisionFree()
    ensures var cfg, w := Configuration(hash), Start(hash);
            var (w', outcome) := HandleComment(cfg, w, ClaimOfTwo());
            && HealthyLogs(cfg, w) && Exclusive(cfg, w)
            && outcome.Ok? && Opens(outcome.value) && !Exclusive(cfg, w')
  {
    hide C.Defect, Log, Uuid, Session, Holder, Decide, HandleComment, HealthyLogs;
    Heads(hash);
    StartIsHealthy(hash);
    ClaimOfTwoIsAccepted(hash);
    ClaimOfTwoIsDecided(hash);
    Overlap();
    var cfg, w := Configuration(hash), Start(hash);
    var r := C.DecideCommand(cfg.rules, Holder(2, 'B'), None, 0, Sha(), true, None).value;
    AppendExclusiveExactly(cfg, w, 2, r, Mark(r));
    HeldIsLive(hash);
    assert !Apart(Some(r), Head(cfg, w.issues[1]), 0);
  }

  // A lease that the sweep misses.

  /** Issue 1 is open and its lease runs out after a minute, but somebody removed its label. */
  function Unlabelled(hash: Hash): World {
    World(map[1 := Issue([Comment(0, "bot", Block(Held(hash)))], {}, true)], 0, 1)
  }

  /** A sweep that runs when the lease is due leaves the issue as it was, lease and label. */
  lemma UnlabelledLeaseIsMissed(hash: Hash)
    ensures var cfg, w, now := Configuration(hash), Unlabelled(hash), 60 * C.SECOND;
            var s := ExpireAll(cfg, w, now, Sha());
            && s.world.issues == w.issues && s.expired == [] && s.failed == []
            && C.Due(Head(cfg, s.world.issues[1]), now)
  {
    hide Held;
    var cfg, w := Configuration(hash), Unlabelled(hash);
    assert Swept(w) == {} && Ascending({}) == [];
    var comments := w.issues[1].comments;
    assert comments[..0] == [];
    assert Trusted(cfg, comments) == [Posted(Some(0), Held(hash))];
    HeldIsDue(hash);
  }

  lemma HeldIsDue(hash: Hash)
    ensures C.Due(Some(Held(hash)), 60 * C.SECOND)
  {
    hide Uuid, Session, IssueName;
    HolderIsValid(hash, 1, 'A');
  }

  // A clock that went back.

  function DayHolder(): C.Command { Holder(1, 'A').(leaseSeconds := Some(C.MAX_LEASE_SECONDS)) }

  function DayHeld(hash: Hash): C.Receipt {
    var rules := C.PublishedRules(hash);
    var body := C.DecisionBody(rules, DayHolder(), None, 0, Sha(), true, None);
    C.Receipt(body, rules.Id(hash(body)), hash(body))
  }

  lemma DayHolderIsValid(hash: Hash)
    ensures C.ValidCommand(C.PublishedRules(hash), DayHolder())
  {
    hide Uuid, Session, IssueName;
    HolderIsValid(hash, 1, 'A');
  }

  lemma DayHeldIsValid(hash: Hash)
    ensures var r := DayHeld(hash);
            && C.ValidReceipt(C.PublishedRules(hash), r) && r.body.at == 0 && r.body.state.Active()
            && r.body.leaseUntil == Some(C.MAX_LEASE) && r.body.issue == C.IssueRef("o/r", 1)
  {
    hide C.Defect, Uuid, Session, IssueName;
    DayHolderIsValid(hash);
    Names(hash, 'A');
    C.DecisionTotal(C.PublishedRules(hash), DayHolder(), None, 0, Sha(), true, None);
    assert C.DecideCommand(C.PublishedRules(hash), DayHolder(), None, 0, Sha(), true, None) == Ok(DayHeld(hash));
  }

  /** The same command again, one microsecond before the head it led to, gets no receipt at all. */
  lemma EarlyReplayGetsNoReceipt(hash: Hash)
    ensures C.DecideCommand(C.PublishedRules(hash), DayHolder(), Some(DayHeld(hash)), -1, Sha(), true, None)
            == Err(C.InvalidLease)
  {
    hide C.Defect, C.ValidCommand, Uuid, Session, DayHeld, IssueName;
    DayHolderIsValid(hash);
    DayHeldIsValid(hash);
    Names(hash, 'A');
    assert DayHolder().previousId != C.IdOf(Some(DayHeld(hash)));
    C.EarlyRejectionFails(C.PublishedRules(hash), DayHolder(), DayHeld(hash), Sha(), true, None);
  }

  lemma HeldIsLive(hash: Hash)
    ensures Held(hash).IsLive(0) && Held(hash).body.scope == Holder(1, 'A').scope
  {
    hide Uuid, Session, IssueName;
    HolderIsValid(hash, 1, 'A');
  }
}
