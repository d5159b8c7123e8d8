/** The two verifiers of a disclosed proof, and what an accepted proof binds. */
module Verify {
  import opened Basics
  import opened Json
  import opened ProofModel
  import opened Hashing
  import SystemUri

  /** What fetching a commit gives; every error is an exception with its text. */
  datatype LookupReply = Fetched(commit: Commit) | LookupFailed(error: string)

  /** `get_commit_by_system_and_task`. */
  type ExchangeView = (string, string) -> LookupReply

  datatype Assessment = AssessedVerified | AssessedCompromised

  /** An integrity assessment sent to the Exchange; sending it may fail without any effect here. */
  datatype Report = Report(systemId: string, taskId: string, assessment: Assessment)

  datatype Verdict = Verdict(verified: bool, message: string)

  const INVOCATION_MISMATCH := "Proof invocation hash mismatch (proof is invalid)"
  const OUTCOME_MISMATCH := "Proof outcome hash mismatch (proof is invalid)"
  const EXCHANGE_INVOCATION_MISMATCH := "Invocation hash doesn't match ATP Exchange"
  const EXCHANGE_OUTCOME_MISMATCH := "Outcome hash doesn't match ATP Exchange"
  const CONFIRMED_MESSAGE := "\U{2705} Verified and confirmed"

  function StatusText(s: Status): string {
    if s.Confirmed? then "confirmed" else "failed"
  }

  // ----- ATPClient._verify and challenge -----

  /** `_verify`, on a parsed proof. */
  function VerifyTask(h: HashFn, task: ProofTask, exchange: ExchangeView): Verdict {
    var systemId := SystemUri.SystemIdOf(task.systemUri);
    if HashWithPrefix(h, task.invocation) != task.invocationHash then Verdict(false, INVOCATION_MISMATCH)
    else if HashWithPrefix(h, task.outcome) != task.outcomeHash then Verdict(false, OUTCOME_MISMATCH)
    else
      match exchange(systemId, task.taskId)
      case LookupFailed(error) => Verdict(false, "Failed to verify with ATP Exchange: " + error)
      case Fetched(commit) =>
        if commit.sketch.invocationHash != task.invocationHash then Verdict(false, EXCHANGE_INVOCATION_MISMATCH)
        else if commit.sketch.outcomeHash != task.outcomeHash then Verdict(false, EXCHANGE_OUTCOME_MISMATCH)
        else if commit.status.Confirmed? then Verdict(true, CONFIRMED_MESSAGE)
        else Verdict(false, "Commit in unexpected state: " + StatusText(commit.status))
  }

  /** The report `challenge` sends after `_verify`: one for every verdict. */
  function ChallengeReports(task: ProofTask, v: Verdict): seq<Report> {
    [Report(SystemUri.SystemIdOf(task.systemUri), task.taskId, if v.verified then AssessedVerified else AssessedCompromised)]
  }

  /** What `challenge` returns, or the exception it raises. */
  datatype ChallengeOutcome = ChallengeRaised | Challenged(proof: StoredProof, verdict: Verdict, reports: seq<Report>)

  /** `challenge`: without a registered system, or without a parsed proof in the answer, it raises. */
  function Challenge(
    h: HashFn, registered: bool, verify: bool, answer: Option<StoredProof>, exchange: ExchangeView): ChallengeOutcome
  {
    if !registered || answer.None? then ChallengeRaised
    else if !verify then Challenged(answer.value, Verdict(false, "Verification skipped"), [])
    else
      var v := VerifyTask(h, answer.value.task, exchange);
      Challenged(answer.value, v, ChallengeReports(answer.value.task, v))
  }

  // ----- challenge_and_verify, on the raw reply -----

  /** The agent's answer to the JSON-RPC request. */
  datatype AgentReply = Replied(result: Json) | RpcError(error: string) | TransportFailed(error: string)

  /** A returned tuple and the reports attempted, or an exception. */
  datatype ChallengeResult =
    | Returned(proof: Json, verdict: Verdict, reports: seq<Report>)
    | RaisedError

  datatype RawTask = RawTask(
    systemUri: Json, taskId: Json, invocation: Json, invocationHash: Json, outcome: Json, outcomeHash: Json)

  function ReadTask(proof: Json): Option<RawTask> {
    var data :- Subscript(proof, "proof_data");
    var task :- Subscript(data, "task");
    var systemUri :- Subscript(task, "system_uri");
    var taskId :- Subscript(task, "task_id");
    var invocation :- Subscript(task, "invocation");
    var invocationHash :- Subscript(task, "invocation_hash");
    var outcome :- Subscript(task, "outcome");
    var outcomeHash :- Subscript(task, "outcome_hash");
    Some(RawTask(systemUri, taskId, invocation, invocationHash, outcome, outcomeHash))
  }

  /** Hash, Exchange and optional content checks on fields read from the reply; a task id is used as `str(task_id)`. */
  function VerifyRaw(
    h: HashFn, proof: Json, systemId: string, raw: RawTask, exchange: ExchangeView,
    expectedInvocation: Option<Json>, expectedOutcome: Option<Json>): (r: ChallengeResult)
    ensures r.Returned?
  {
    var taskId := DataText(raw.taskId);
    var compromised := [Report(systemId, taskId, AssessedCompromised)];
    if Str(HashWithPrefix(h, raw.invocation)) != raw.invocationHash then
      Returned(proof, Verdict(false, INVOCATION_MISMATCH), compromised)
    else if Str(HashWithPrefix(h, raw.outcome)) != raw.outcomeHash then
      Returned(proof, Verdict(false, OUTCOME_MISMATCH), compromised)
    else
      match exchange(systemId, taskId)
      case LookupFailed(error) => Returned(proof, Verdict(false, "Failed to verify with ATP Exchange: " + error), [])
      case Fetched(commit) =>
        if Str(commit.sketch.invocationHash) != raw.invocationHash then
          Returned(proof, Verdict(false, EXCHANGE_INVOCATION_MISMATCH), compromised)
        else if Str(commit.sketch.outcomeHash) != raw.outcomeHash then
          Returned(proof, Verdict(false, EXCHANGE_OUTCOME_MISMATCH), compromised)
        else if expectedInvocation.Some? && Meaning(raw.invocation) != Meaning(expectedInvocation.value) then
          Returned(proof, Verdict(false, "Invocation content mismatch: " + DataText(raw.invocation)), compromised)
        else if expectedOutcome.Some? && Meaning(raw.outcome) != Meaning(expectedOutcome.value) then
          Returned(proof, Verdict(false, "Outcome content mismatch: " + DataText(raw.outcome)), compromised)
        else if commit.status.Confirmed? then
          Returned(proof, Verdict(true, CONFIRMED_MESSAGE), [Report(systemId, taskId, AssessedVerified)])
        else Returned(proof, Verdict(false, "Commit in unexpected state: " + StatusText(commit.status)), [])
  }

  const NO_PROOF := Obj(Nil)

  /** `challenge_and_verify`; `registered` says whether the caller's first system id is there. */
  function ChallengeAndVerify(
    h: HashFn, registered: bool, reply: AgentReply, exchange: ExchangeView,
    expectedInvocation: Option<Json>, expectedOutcome: Option<Json>): ChallengeResult
  {
    if !registered then
      Returned(NO_PROOF, Verdict(false, "No registered system found. Call client.register_system() first."), [])
    else
      match reply
      case RpcError(error) => Returned(NO_PROOF, Verdict(false, "Challenge failed: " + error), [])
      case TransportFailed(error) => Returned(NO_PROOF, Verdict(false, "Challenge request failed: " + error), [])
      case Replied(proof) =>
        var raw := ReadTask(proof);
        if raw.None? then Returned(proof, Verdict(false, "Invalid proof structure"), [])
        else if !raw.value.systemUri.Str? then RaisedError
        else VerifyRaw(h, proof, SystemUri.SystemIdOf(raw.value.systemUri.s), raw.value, exchange,
                       expectedInvocation, expectedOutcome)
  }

  // ----- The disclosed form of a stored proof -----

  function TrustText(t: TrustLevel): string {
    match t
    case Trusted => "Trusted"
    case Verified => "Verified"
    case Untrusted => "Untrusted"
    case Unverified => "Unverified"
  }

  /** The task dict of `model_dump(mode="json")`; times and dependencies, which no verifier reads, are left out. */
  function DumpTask(t: ProofTask): Json {
    Obj(Field("system_uri", Str(t.systemUri),
        Field("system_type", Str(t.systemType),
        Field("task_id", Str(t.taskId),
        Field("invocation", t.invocation,
        Field("invocation_hash", Str(t.invocationHash),
        Field("outcome", t.outcome,
        Field("outcome_hash", Str(t.outcomeHash),
        Field("trust_level", Str(TrustText(t.trustLevel)), Nil)))))))))
  }

  function DumpProof(p: StoredProof): Json {
    Obj(Field("proof_data", Obj(Field("task", DumpTask(p.task), Nil)), Nil))
  }

  lemma LookupField(key: string, value: Json, rest: List<Member>, wanted: string)
    ensures Lookup(Field(key, value, rest), wanted) == if key == wanted then Some(value) else Lookup(rest, wanted)
  {
  }

  /** The keys the verifier reads give the stored fields back. */
  lemma ReadDumped(p: StoredProof)
    ensures ReadTask(DumpProof(p)) ==
            Some(RawTask(Str(p.task.systemUri), Str(p.task.taskId), p.task.invocation, Str(p.task.invocationHash),
                         p.task.outcome, Str(p.task.outcomeHash)))
  {
    var t := p.task;
    var m8 := Field("trust_level", Str(TrustText(t.trustLevel)), Nil);
    var m7 := Field("outcome_hash", Str(t.outcomeHash), m8);
    var m6 := Field("outcome", t.outcome, m7);
    var m5 := Field("invocation_hash", Str(t.invocationHash), m6);
    var m4 := Field("invocation", t.invocation, m5);
    var m3 := Field("task_id", Str(t.taskId), m4);
    var m2 := Field("system_type", Str(t.systemType), m3);
    LookupField("outcome_hash", Str(t.outcomeHash), m8, "outcome_hash");
    LookupField("outcome", t.outcome, m7, "outcome_hash");
    LookupField("outcome", t.outcome, m7, "outcome");
    forall key | key in ["outcome_hash", "outcome"]
      ensures Lookup(m4, key) == Lookup(m6, key)
    {
      LookupField("invocation_hash", Str(t.invocationHash), m6, key);
      LookupField("invocation", t.invocation, m5, key);
    }
    LookupField("invocation_hash", Str(t.invocationHash), m6, "invocation_hash");
    LookupField("invocation", t.invocation, m5, "invocation_hash");
    LookupField("invocation", t.invocation, m5, "invocation");
    forall key | key in ["outcome_hash", "outcome", "invocation_hash", "invocation"]
      ensures Lookup(m2, key) == Lookup(m4, key)
    {
      LookupField("task_id", Str(t.taskId), m4, key);
      LookupField("system_type", Str(t.systemType), m3, key);
    }
    assert Lookup(m2, "task_id") == Some(Str(t.taskId));
    assert DumpTask(t) == Obj(Field("system_uri", Str(t.systemUri), m2));
  }

  /** The disclosed task dict has these keys and no others, and names the trust level. */
  lemma DumpedKeys(t: ProofTask)
    ensures Keys(DumpTask(t).members) == {"system_uri", "system_type", "task_id", "invocation", "invocation_hash", "outcome",
                                          "outcome_hash", "trust_level"}
    ensures t.trustLevel == Unverified ==> TrustText(t.trustLevel) == "Unverified"
    ensures t.trustLevel == Verified ==> TrustText(t.trustLevel) == "Verified"
  {
    hide Lookup;
    var m8 := Field("trust_level", Str(TrustText(t.trustLevel)), Nil);
    var m7 := Field("outcome_hash", Str(t.outcomeHash), m8);
    var m6 := Field("outcome", t.outcome, m7);
    var m5 := Field("invocation_hash", Str(t.invocationHash), m6);
    var m4 := Field("invocation", t.invocation, m5);
    var m3 := Field("task_id", Str(t.taskId), m4);
    var m2 := Field("system_type", Str(t.systemType), m3);
    assert Keys(m8) == {"trust_level"} && Keys(m7) == {"outcome_hash"} + Keys(m8) && Keys(m6) == {"outcome"} + Keys(m7);
    assert Keys(m5) == {"invocation_hash"} + Keys(m6) && Keys(m4) == {"invocation"} + Keys(m5);
    assert Keys(m3) == {"task_id"} + Keys(m4) && Keys(m2) == {"system_type"} + Keys(m3);
  }

  // ----- What each branch answers -----

  /** `challenge`: without a registered system or a parsed proof it raises; unverified, it reports nothing. */
  lemma ChallengeCases(h: HashFn, registered: bool, verify: bool, answer: Option<StoredProof>, exchange: ExchangeView)
    ensures
      var c := Challenge(h, registered, verify, answer, exchange);
      && (c.ChallengeRaised? <==> !registered || answer.None?)
      && (c.Challenged? ==> c.proof == answer.value)
      && (c.Challenged? && !verify ==> c.verdict == Verdict(false, "Verification skipped") && c.reports == [])
      && (c.Challenged? && verify ==> c.verdict == VerifyTask(h, answer.value.task, exchange) && |c.reports| == 1)
  {
    hide VerifyTask;
  }

  /** `challenge_and_verify` before there is anything to verify: nothing is accepted, nothing reported. */
  lemma UnansweredCases(
    h: HashFn, registered: bool, reply: AgentReply, exchange: ExchangeView,
    expectedInvocation: Option<Json>, expectedOutcome: Option<Json>)
    ensures
      var r := ChallengeAndVerify(h, registered, reply, exchange, expectedInvocation, expectedOutcome);
      if !registered then
        r == Returned(Obj(Nil), Verdict(false, "No registered system found. Call client.register_system() first."), [])
      else
        match reply
        case RpcError(error) => r == Returned(Obj(Nil), Verdict(false, "Challenge failed: " + error), [])
        case TransportFailed(error) => r == Returned(Obj(Nil), Verdict(false, "Challenge request failed: " + error), [])
        case Replied(proof) =>
          (ReadTask(proof).None? <==> r == Returned(proof, Verdict(false, "Invalid proof structure"), []))
  {
    hide ReadTask, Meaning, HashWithPrefix, DataText, SystemUri.SystemIdOf;
  }

  /** The message names the first check that fails, in the order: contents, Exchange, status. */
  lemma VerdictMessages(h: HashFn, task: ProofTask, exchange: ExchangeView)
    ensures
      var v := VerifyTask(h, task, exchange);
      var reply := exchange(SystemUri.SystemIdOf(task.systemUri), task.taskId);
      && (HashWithPrefix(h, task.invocation) != task.invocationHash ==> v == Verdict(false, "Proof invocation hash mismatch (proof is invalid)"))
      && (HashWithPrefix(h, task.invocation) == task.invocationHash && HashWithPrefix(h, task.outcome) != task.outcomeHash ==>
          v == Verdict(false, "Proof outcome hash mismatch (proof is invalid)"))
      && (HashWithPrefix(h, task.invocation) == task.invocationHash && HashWithPrefix(h, task.outcome) == task.outcomeHash ==>
          match reply
          case LookupFailed(error) => v == Verdict(false, "Failed to verify with ATP Exchange: " + error)
          case Fetched(commit) =>
            if commit.sketch.invocationHash != task.invocationHash then v == Verdict(false, "Invocation hash doesn't match ATP Exchange")
            else if commit.sketch.outcomeHash != task.outcomeHash then v == Verdict(false, "Outcome hash doesn't match ATP Exchange")
            else if commit.status.Confirmed? then v == Verdict(true, "\U{2705} Verified and confirmed")
            else v == Verdict(false, "Commit in unexpected state: failed"))
  {
    hide HashWithPrefix, SystemUri.SystemIdOf;
  }

  // ----- The two verifiers agree -----

  /** A recomputed or committed hash differs from the declared one. */
  predicate ConcreteMismatch(h: HashFn, task: ProofTask, exchange: ExchangeView) {
    var reply := exchange(SystemUri.SystemIdOf(task.systemUri), task.taskId);
    || HashWithPrefix(h, task.invocation) != task.invocationHash
    || HashWithPrefix(h, task.outcome) != task.outcomeHash
    || (reply.Fetched? && (reply.commit.sketch.invocationHash != task.invocationHash
                           || reply.commit.sketch.outcomeHash != task.outcomeHash))
  }

  /**
   * On every stored proof and every Exchange reply: same verdict and message. `challenge` reports every
   * verdict; `challenge_and_verify` reports VERIFIED alike and COMPROMISED only on a concrete mismatch.
   */
  lemma VerifiersAgree(h: HashFn, p: StoredProof, exchange: ExchangeView)
    ensures
      var c := Challenge(h, true, true, Some(p), exchange);
      var r := ChallengeAndVerify(h, true, Replied(DumpProof(p)), exchange, None, None);
      var verified := Report(SystemUri.SystemIdOf(p.task.systemUri), p.task.taskId, AssessedVerified);
      && c.Challenged? && r.Returned? && r.verdict == c.verdict && r.proof == DumpProof(p)
      && (c.verdict.verified <==> r.reports == [verified])
      && (c.verdict.verified <==> c.reports == [verified])
      && (!c.verdict.verified ==> c.reports == [verified.(assessment := AssessedCompromised)])
      && (ConcreteMismatch(h, p.task, exchange) <==> r.reports == [verified.(assessment := AssessedCompromised)])
      && (!c.verdict.verified && !ConcreteMismatch(h, p.task, exchange) <==> r.reports == [])
  {
    hide Meaning, SystemUri.SystemIdOf, ReadTask, DumpProof;
    ReadDumped(p);
  }

  /** Their reports differ exactly when the hashes are fine but the Exchange could not be asked or says "failed". */
  lemma ReportsDifferExactly(h: HashFn, p: StoredProof, exchange: ExchangeView)
    ensures
      var c := Challenge(h, true, true, Some(p), exchange);
      var r := ChallengeAndVerify(h, true, Replied(DumpProof(p)), exchange, None, None);
      var reply := exchange(SystemUri.SystemIdOf(p.task.systemUri), p.task.taskId);
      c.Challenged? && r.Returned? && (r.reports != c.reports <==>
        && HashWithPrefix(h, p.task.invocation) == p.task.invocationHash
        && HashWithPrefix(h, p.task.outcome) == p.task.outcomeHash
        && (reply.LookupFailed? ||
            (reply.commit.sketch.invocationHash == p.task.invocationHash
             && reply.commit.sketch.outcomeHash == p.task.outcomeHash && reply.commit.status.Failed?)))
  {
    hide Meaning, SystemUri.SystemIdOf, ReadTask, DumpProof;
    ReadDumped(p);
  }

  /**
   * Expected values only narrow what is accepted, and by value rather than by text: key order in them is
   * irrelevant. A reply refused for its content alone is reported, whatever the status of its commit.
   */
  lemma ExpectationsNarrow(
    h: HashFn, reply: AgentReply, exchange: ExchangeView, expectedInvocation: Option<Json>, expectedOutcome: Option<Json>)
    requires reply.Replied? && ReadTask(reply.result).Some?
    ensures
      var plain := ChallengeAndVerify(h, true, reply, exchange, None, None);
      var r := ChallengeAndVerify(h, true, reply, exchange, expectedInvocation, expectedOutcome);
      var raw := ReadTask(reply.result).value;
      var asExpected := (expectedInvocation.Some? ==> Meaning(raw.invocation) == Meaning(expectedInvocation.value))
                        && (expectedOutcome.Some? ==> Meaning(raw.outcome) == Meaning(expectedOutcome.value));
      && (r.RaisedError? <==> !raw.systemUri.Str?) && (plain.RaisedError? <==> !raw.systemUri.Str?)
      && (r.Returned? ==> (r.verdict.verified <==> plain.verdict.verified && asExpected))
      && (asExpected ==> r == plain)
      && (r.Returned? && r != plain ==> r.reports == [Report(SystemUri.SystemIdOf(raw.systemUri.s), DataText(raw.taskId), AssessedCompromised)])
  {
    hide Meaning, SystemUri.SystemIdOf, ReadTask, HashWithPrefix, DataText;
  }

  // ----- What acceptance means -----

  /** Content hashes to what is declared and to what a confirmed commit under the given ids holds. */
  predicate HashesCommitted(
    h: HashFn, systemUri: string, taskId: string, invocation: Json, invocationHash: string,
    outcome: Json, outcomeHash: string, exchange: ExchangeView)
  {
    var reply := exchange(SystemUri.SystemIdOf(systemUri), taskId);
    && HashWithPrefix(h, invocation) == invocationHash
    && HashWithPrefix(h, outcome) == outcomeHash
    && reply.Fetched? && reply.commit.status.Confirmed?
    && reply.commit.sketch.invocationHash == invocationHash
    && reply.commit.sketch.outcomeHash == outcomeHash
  }

  predicate Committed(h: HashFn, task: ProofTask, exchange: ExchangeView) {
    HashesCommitted(h, task.systemUri, task.taskId, task.invocation, task.invocationHash, task.outcome, task.outcomeHash, exchange)
  }

  lemma AcceptedExactlyWhenCommitted(h: HashFn, task: ProofTask, exchange: ExchangeView)
    ensures VerifyTask(h, task, exchange).verified <==> Committed(h, task, exchange)
  {
  }

  /** Typed proofs hold dicts. */
  predicate TypedTask(t: ProofTask) {
    t.invocation.Obj? && t.outcome.Obj? && WellFormed(t.invocation) && WellFormed(t.outcome)
  }

  /** Binding: two accepted proofs for one (system, task) carry the same invocation and outcome as JSON values. */
  lemma Binding(h: HashFn, p: ProofTask, q: ProofTask, exchange: ExchangeView)
    requires Injective(h) && TypedTask(p) && TypedTask(q)
    requires SystemUri.SystemIdOf(p.systemUri) == SystemUri.SystemIdOf(q.systemUri) && p.taskId == q.taskId
    requires VerifyTask(h, p, exchange).verified && VerifyTask(h, q, exchange).verified
    ensures Meaning(p.invocation) == Meaning(q.invocation) && Meaning(p.outcome) == Meaning(q.outcome)
  {
    hide Meaning, SystemUri.SystemIdOf, HashWithPrefix;
    AcceptedExactlyWhenCommitted(h, p, exchange);
    AcceptedExactlyWhenCommitted(h, q, exchange);
    ContainerHashDecides(h, p.invocation, q.invocation);
    ContainerHashDecides(h, p.outcome, q.outcome);
  }

  /** A string that spells the dict's canonical text, or equal values: all the raw verifier can confuse. */
  predicate SameOrSpelled(a: Json, b: Json) {
    || Meaning(a) == Meaning(b)
    || (a.Str? && !b.Str? && a.s == DataText(b))
    || (b.Str? && !a.Str? && b.s == DataText(a))
  }

  /**
   * Binding for raw replies, exactly: once one reply is accepted, another for the same task is accepted just when
   * it declares the same hashes and its content equals the first one's, up to a string spelling the other's text.
   */
  lemma RawBinding(
    h: HashFn, proofP: Json, proofQ: Json, systemId: string, p: RawTask, q: RawTask, exchange: ExchangeView)
    requires Injective(h)
    requires WellFormed(p.invocation) && WellFormed(q.invocation) && WellFormed(p.outcome) && WellFormed(q.outcome)
    requires DataText(p.taskId) == DataText(q.taskId)
    requires VerifyRaw(h, proofP, systemId, p, exchange, None, None).verdict.verified
    ensures VerifyRaw(h, proofQ, systemId, q, exchange, None, None).verdict.verified <==>
            && q.invocationHash == p.invocationHash && q.outcomeHash == p.outcomeHash
            && SameOrSpelled(p.invocation, q.invocation) && SameOrSpelled(p.outcome, q.outcome)
  {
    hide Meaning, DataText;
    PrefixCancels(h(DataText(p.invocation)), h(DataText(q.invocation)));
    PrefixCancels(h(DataText(p.outcome)), h(DataText(q.outcome)));
    DataTextCollisions(p.invocation, q.invocation);
    DataTextCollisions(p.outcome, q.outcome);
  }
}
