/** Honest agents pass every challenge until their proof expires. */
module Completeness {
  import opened Basics
  import opened Json
  import opened Timestamp
  import opened Uuid
  import opened ProofModel
  import opened ProofStore
  import opened Hashing
  import opened Client
  import opened Commits
  import opened Exchange
  import opened Verify
  import Mem = InMemoryStore
  import Sql = SqliteStore
  import Adapter
  import SystemUri

  /** A proof that matches the confirmed commit under its own ids is accepted. */
  lemma MatchingProofVerifies(h: HashFn, p: StoredProof, exchange: ExchangeView)
    requires
      var reply := exchange(SystemUri.SystemIdOf(p.task.systemUri), p.task.taskId);
      reply.Fetched? && reply.commit.status.Confirmed? && Matches(h, p, reply.commit.sketch)
    ensures VerifyTask(h, p.task, exchange) == Verdict(true, CONFIRMED_MESSAGE)
  {
    hide HashWithPrefix, DependenciesHash, SystemUri.SystemIdOf;
  }

  /** A confirmed commit under these ids holds the hashes of this content. */
  predicate HeldFor(h: HashFn, commits: CommitTable, k: (string, string), invocation: Json, outcome: Json) {
    && k in commits && commits[k].status.Confirmed?
    && commits[k].sketch.invocationHash == HashWithPrefix(h, invocation)
    && commits[k].sketch.outcomeHash == HashWithPrefix(h, outcome)
  }

  /** Looking a commit up. */
  lemma Lookups(commits: CommitTable, systemId: string, taskId: string)
    ensures
      var reply := ViewOf(commits)(systemId, taskId);
      if (systemId, taskId) in commits && IsUuidText(taskId) then reply == Fetched(commits[(systemId, taskId)])
      else reply.LookupFailed?
  {
    hide IsUuidText, Complaint;
  }

  /**
   * After a POST, however it ended, the stored proof verifies exactly when its task id is a UUID text and its own
   * URI leads back to the system it was recorded for, or to one that already held a commit with the same task id
   * and content.
   */
  lemma CommittedProofVerifies(
    h: HashFn, c: ClientState, f: FinishedTask, systemId: string, commits: CommitTable, outcome: PostOutcome)
    requires Committable(f)
    ensures
      var exchange := ViewOf(AfterPost(commits, RequestFor(h, c, systemId, f.taskId, SketchFor(h, f)), outcome));
      var id := SystemUri.SystemIdOf(f.systemUri);
      VerifyTask(h, ProofFor(h, f).task, exchange).verified <==>
        && IsUuidText(f.taskId)
        && ((!outcome.NotRecorded? && id == systemId) || HeldFor(h, commits, (id, f.taskId), f.invocation, f.outcome))
  {
    hide HashWithPrefix, DependenciesHash, SystemUri.SystemIdOf, Committable, IsUuidText, Complaint, ViewOf;
    var request := RequestFor(h, c, systemId, f.taskId, SketchFor(h, f));
    var after := AfterPost(commits, request, outcome);
    var id := SystemUri.SystemIdOf(f.systemUri);
    SentMatchesStored(h, f, c, systemId);
    ProofIds(h, f);
    Lookups(after, id, f.taskId);
    if !outcome.NotRecorded? && id == systemId {
      assert after[(systemId, f.taskId)] == Commit(request.sketch, Confirmed);
    } else {
      var k := (id, f.taskId);
      assert k in after <==> k in commits;
      assert k in commits ==> after[k] == commits[k];
    }
  }

  /** A task whose id is no UUID text is refused: neither verifier accepts it, and `challenge` reports it COMPROMISED. */
  lemma OddIdRefused(
    h: HashFn, c: ClientState, f: FinishedTask, systemId: string, commits: CommitTable, outcome: PostOutcome)
    requires Committable(f) && !IsUuidText(f.taskId)
    ensures
      var p := ProofFor(h, f);
      var exchange := ViewOf(AfterPost(commits, RequestFor(h, c, systemId, f.taskId, SketchFor(h, f)), outcome));
      var r := ChallengeAndVerify(h, true, Replied(DumpProof(p)), exchange, None, None);
      var challenge := Challenge(h, true, true, Some(p), exchange);
      && r.Returned? && !r.verdict.verified && r.reports == []
      && challenge.Challenged? && !challenge.verdict.verified
      && challenge.reports == [Report(SystemUri.SystemIdOf(f.systemUri), f.taskId, AssessedCompromised)]
  {
    hide HashWithPrefix, DependenciesHash, SystemUri.SystemIdOf, Committable, IsUuidText, Complaint, ViewOf, ChallengeAndVerify,
         DumpProof, RequestFor, SketchFor, Challenge, VerifyTask;
    var after := AfterPost(commits, RequestFor(h, c, systemId, f.taskId, SketchFor(h, f)), outcome);
    ProofIds(h, f);
    ProofHashes(h, f);
    Lookups(after, SystemUri.SystemIdOf(f.systemUri), f.taskId);
    CommittedProofVerifies(h, c, f, systemId, commits, outcome);
    VerifiersAgree(h, ProofFor(h, f), ViewOf(after));
    ChallengeVerdict(h, ProofFor(h, f), ViewOf(after));
  }

  /** The id in the adapter's own usage example is one of these. */
  lemma ExampleIdIsOdd()
    ensures !IsUuidText("abc-123")
  {
    ShortTextRefused("abc-123");
  }

  lemma ProofHashes(h: HashFn, f: FinishedTask)
    requires Committable(f)
    ensures
      var t := ProofFor(h, f).task;
      && t.invocation == f.invocation && t.invocationHash == HashWithPrefix(h, f.invocation)
      && t.outcome == f.outcome && t.outcomeHash == HashWithPrefix(h, f.outcome)
  {
    hide HashWithPrefix;
  }

  lemma ChallengeVerdict(h: HashFn, p: StoredProof, exchange: ExchangeView)
    ensures
      var c := Challenge(h, true, true, Some(p), exchange);
      && c.Challenged? && c.verdict == VerifyTask(h, p.task, exchange)
      && c.reports == ChallengeReports(p.task, c.verdict)
  {
    hide VerifyTask;
  }

  /**
   * Completing a committed id again while the second POST is not recorded: the agent then discloses the new proof
   * and the Exchange holds the old sketch. Both verifiers accept exactly when nothing changed; otherwise both
   * report the honest agent COMPROMISED.
   */
  lemma UnrecordedRecommit(
    h: HashFn, c: ClientState, c': ClientState, f: FinishedTask, g: FinishedTask, systemId: string,
    commits: CommitTable, first: PostOutcome)
    requires Injective(h) && Committable(f) && Committable(g) && f.taskId == g.taskId && IsUuidText(g.taskId)
    requires SystemUri.SystemIdOf(g.systemUri) == systemId && !first.NotRecorded?
    requires f.invocation.Obj? && g.invocation.Obj? && WellFormed(f.invocation) && WellFormed(g.invocation)
    requires f.outcome.Obj? && g.outcome.Obj? && WellFormed(f.outcome) && WellFormed(g.outcome)
    ensures
      var p := ProofFor(h, g);
      var once := AfterPost(commits, RequestFor(h, c, systemId, f.taskId, SketchFor(h, f)), first);
      var exchange := ViewOf(AfterPost(once, RequestFor(h, c', systemId, g.taskId, SketchFor(h, g)), NotRecorded));
      var same := Meaning(f.invocation) == Meaning(g.invocation) && Meaning(f.outcome) == Meaning(g.outcome);
      var r := ChallengeAndVerify(h, true, Replied(DumpProof(p)), exchange, None, None);
      var challenge := Challenge(h, true, true, Some(p), exchange);
      && r.Returned? && challenge.Challenged? && challenge.verdict == r.verdict && challenge.reports == r.reports
      && (r.verdict.verified <==> same)
      && r.reports == [Report(systemId, g.taskId, if same then AssessedVerified else AssessedCompromised)]
  {
    hide HashWithPrefix, DependenciesHash, SystemUri.SystemIdOf, Committable, IsUuidText, Complaint, ViewOf, ChallengeAndVerify,
         DumpProof, Meaning, WellFormed, ProofFor, SketchFor, RequestFor, Matches, Challenge, VerifyTask;
    var request := RequestFor(h, c, systemId, f.taskId, SketchFor(h, f));
    var once := AfterPost(commits, request, first);
    RequestKey(h, c, systemId, f);
    SentHashes(h, f, c, systemId);
    ProofIds(h, g);
    ProofHashes(h, g);
    Lookups(once, systemId, g.taskId);
    ContainerHashDecides(h, f.invocation, g.invocation);
    ContainerHashDecides(h, f.outcome, g.outcome);
    AcceptedExactlyWhenCommitted(h, ProofFor(h, g).task, ViewOf(once));
    VerifiersAgree(h, ProofFor(h, g), ViewOf(once));
    ChallengeVerdict(h, ProofFor(h, g), ViewOf(once));
  }

  lemma RequestKey(h: HashFn, c: ClientState, systemId: string, f: FinishedTask)
    requires Committable(f)
    ensures
      var r := RequestFor(h, c, systemId, f.taskId, SketchFor(h, f));
      r.systemId == systemId && r.taskId == f.taskId
  {
    hide SketchFor, Committable;
  }

  lemma SentHashes(h: HashFn, f: FinishedTask, c: ClientState, systemId: string)
    requires Committable(f)
    ensures
      var sent := RequestFor(h, c, systemId, f.taskId, SketchFor(h, f)).sketch;
      sent.invocationHash == HashWithPrefix(h, f.invocation) && sent.outcomeHash == HashWithPrefix(h, f.outcome)
  {
    hide HashWithPrefix, DependenciesHash, RequestFor, SketchFor;
    SentMatchesStored(h, f, c, systemId);
    ProofHashes(h, f);
  }

  /** Nothing is recorded yet under this task id, by any system: true of the ids contexts draw. */
  predicate FreshTask(commits: CommitTable, taskId: string) {
    forall k :: k in commits ==> k.1 != taskId
  }

  lemma ProofIds(h: HashFn, f: FinishedTask)
    requires Committable(f)
    ensures ProofFor(h, f).task.systemUri == f.systemUri && ProofFor(h, f).task.taskId == f.taskId
  {
  }

  /**
   * A context's proof verifies exactly when its POST was recorded and the first system's id holds no slash, whatever
   * URI was sent; its task id is a fresh UUID.
   */
  lemma ContextProofVerifies(
    h: HashFn, c: ClientState, config: Config, taskId: string, classification: string, query: string, response: string,
    dependencies: seq<Dependency>, now: int, commits: CommitTable, outcome: PostOutcome)
    requires CommitClock(now, config.ttl) && FormattableDependencies(dependencies)
    requires FirstSystem(c) != "" && FreshTask(commits, taskId) && IsUuidText(taskId)
    ensures
      var f := ContextTask(c, config, taskId, classification, query, response, dependencies, now);
      var exchange := ViewOf(AfterPost(commits, RequestFor(h, c, FirstSystem(c), taskId, SketchFor(h, f)), outcome));
      VerifyTask(h, ProofFor(h, f).task, exchange).verified <==> !outcome.NotRecorded? && '/' !in FirstSystem(c)
  {
    hide HashWithPrefix, DependenciesHash, SystemUri.SystemIdOf, SystemUri.Build, FormattableDependencies, CommitClock, IsUuidText;
    var f := ContextTask(c, config, taskId, classification, query, response, dependencies, now);
    CommittedProofVerifies(h, c, f, FirstSystem(c), commits, outcome);
    ContextTaskBuiltFor(c, config, taskId, classification, query, response, dependencies, now);
  }

  /** The id the URI of an adapter's proof leads to: the kept URI's last segment, or the system's id if slash-free. */
  predicate AdapterLeadsBack(systemId: string, systemUri: Option<string>) {
    if systemUri.GetOr("") != "" then SystemUri.SystemIdOf(systemUri.value) == systemId else '/' !in systemId
  }

  /**
   * The adapter's proof verifies if its POST was recorded, its URI leads back to its system, and the id its caller
   * chose is a UUID text; for an id new to the Exchange, only then. An odd id is never accepted.
   */
  lemma AdapterProofVerifies(
    h: HashFn, c: ClientState, systemId: string, systemUri: Option<string>, taskId: string, query: string, response: string,
    artifacts: Option<Json>, classification: Option<string>, now: int, ttl: nat, commits: CommitTable, outcome: PostOutcome)
    requires CommitClock(now, ttl) && systemId != ""
    ensures
      var f := Adapter.AdapterTask(c, systemId, systemUri, taskId, query, response, artifacts, classification, now, ttl);
      var exchange := ViewOf(AfterPost(commits, RequestFor(h, c, systemId, taskId, SketchFor(h, f)), outcome));
      var verified := VerifyTask(h, ProofFor(h, f).task, exchange).verified;
      var recorded := IsUuidText(taskId) && !outcome.NotRecorded? && AdapterLeadsBack(systemId, systemUri);
      (recorded ==> verified) && (verified ==> IsUuidText(taskId)) && (FreshTask(commits, taskId) ==> (verified <==> recorded))
  {
    hide HashWithPrefix, DependenciesHash, SystemUri.SystemIdOf, SystemUri.Build, CommitClock, IsUuidText;
    var f := Adapter.AdapterTask(c, systemId, systemUri, taskId, query, response, artifacts, classification, now, ttl);
    CommittedProofVerifies(h, c, f, systemId, commits, outcome);
    SystemUri.BuildThenSplit(if c.exchangeUrl != "" then c.exchangeUrl else DEFAULT_EXCHANGE_URL, systemId);
  }

  /** Both stores give a saved proof back until its expiry, and report it expired after. */
  lemma StoredUntilExpiry(h: HashFn, f: FinishedTask, m: Mem.Proofs, rows: Sql.Rows, at: int)
    requires Committable(f) && Sql.IsoRows(rows)
    ensures ValidDateTime(ProofFor(h, f).expiresAt)
    ensures
      var p := ProofFor(h, f);
      var expected := if at <= f.now + f.ttl then Found(p) else Expired(p.expiresAt);
      && Mem.GetResult(m[f.taskId := p], f.taskId, at) == expected
      && Sql.GetResult(Sql.Inserted(rows, p), f.taskId, at) == expected
  {
    hide ProofFor, Sql.GetResult, Sql.NowText, IsoFormat, Committable;
    ExpiryOfProof(h, f);
    Sql.GetSelectsByTime(Sql.Inserted(rows, ProofFor(h, f)), f.taskId, at);
  }

  /**
   * The whole way: a recorded task, challenged before its proof expires, is disclosed, and it is verified and
   * reported VERIFIED exactly when its id is a UUID text.
   */
  lemma HonestTaskPassesChallenge(
    h: HashFn, c: ClientState, f: FinishedTask, systemId: string, commits: CommitTable, outcome: PostOutcome,
    m: Mem.Proofs, at: int)
    requires Committable(f) && !outcome.NotRecorded?
    requires SystemUri.SystemIdOf(f.systemUri) == systemId
    requires at <= f.now + f.ttl
    ensures
      var exchange := ViewOf(AfterPost(commits, RequestFor(h, c, systemId, f.taskId, SketchFor(h, f)), outcome));
      var answer := Adapter.AnswerFor(Mem.GetResult(m[f.taskId := ProofFor(h, f)], f.taskId, at));
      && answer.Disclosed?
      && (ChallengeAndVerify(h, true, Replied(answer.proof), exchange, None, None)
          == Returned(answer.proof, Verdict(true, CONFIRMED_MESSAGE), [Report(systemId, f.taskId, AssessedVerified)])
          <==> IsUuidText(f.taskId))
  {
    hide HashWithPrefix, DependenciesHash, SystemUri.SystemIdOf, Committable, ChallengeAndVerify, VerifyTask, DumpProof,
         Mem.GetResult, ProofFor, SketchFor, RequestFor, IsUuidText, ViewOf;
    var p := ProofFor(h, f);
    var after := AfterPost(commits, RequestFor(h, c, systemId, f.taskId, SketchFor(h, f)), outcome);
    StoredUntilExpiry(h, f, m, map[], at);
    CommittedProofVerifies(h, c, f, systemId, commits, outcome);
    ProofIds(h, f);
    VerifiersAgree(h, p, ViewOf(after));
    VerifiedMessage(h, p.task, ViewOf(after));
  }

  lemma VerifiedMessage(h: HashFn, task: ProofTask, exchange: ExchangeView)
    ensures VerifyTask(h, task, exchange).verified ==> VerifyTask(h, task, exchange).message == CONFIRMED_MESSAGE
  {
  }
}
