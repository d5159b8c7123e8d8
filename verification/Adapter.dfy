/** `MinimalAdapter`: the second producer of proofs, and the side that answers challenges. */
module Adapter {
  import opened Basics
  import opened Json
  import opened ProofStore
  import opened Timestamp
  import opened Hashing
  import opened Client
  import opened Commits
  import opened Exchange
  import opened InMemoryStore
  import Verify
  import SystemUri

  /** The adapter keeps no evaluations and lets the caller choose the task id. */
  function AdapterTask(
    c: ClientState, systemId: string, systemUri: Option<string>, taskId: string, query: string, response: string,
    artifacts: Option<Json>, classification: Option<string>, now: int, ttl: nat): FinishedTask
  {
    var url := if c.exchangeUrl != "" then c.exchangeUrl else DEFAULT_EXCHANGE_URL;
    var uri := if systemUri.GetOr("") != "" then systemUri.value else SystemUri.Build(url, systemId);
    FinishedTask(uri, if systemId in c.systemTypes then c.systemTypes[systemId] else "agent", taskId,
             Some(classification.GetOr(DEFAULT_CLASSIFICATION)),
             InvocationDict(query), OutcomeDict(response, artifacts), [], now, ttl)
  }

  /** The adapter's task: the query asked, the response given, any artifacts, and no dependencies. */
  lemma AdapterTaskFields(
    c: ClientState, systemId: string, systemUri: Option<string>, taskId: string, query: string, response: string,
    artifacts: Option<Json>, classification: Option<string>, now: int, ttl: nat)
    ensures
      var f := AdapterTask(c, systemId, systemUri, taskId, query, response, artifacts, classification, now, ttl);
      && f.systemUri == (if systemUri.GetOr("") != "" then systemUri.value
                         else (if c.exchangeUrl != "" then c.exchangeUrl else "http://localhost:8080") + "/systems/" + systemId)
      && f.systemType == (if systemId in c.systemTypes then c.systemTypes[systemId] else "agent")
      && f.taskId == taskId && f.dependencies == []
      && f.classification == Some(if classification.Some? then classification.value else "question-answering")
      && f.invocation == InvocationDict(query) && f.outcome == OutcomeDict(response, artifacts)
      && f.now == now && f.ttl == ttl
  {
    hide InvocationDict, OutcomeDict;
  }

  lemma NothingToFormat()
    ensures FormattableDependencies([])
  {
  }

  lemma DictsAreObjects(query: string, response: string, artifacts: Option<Json>)
    ensures InvocationDict(query).Obj? && OutcomeDict(response, artifacts).Obj?
  {
  }

  datatype CompleteResult = NotRegistered | PostFailed | Completed

  /** The answer to a challenge, or the error raised instead. */
  datatype ChallengeAnswer = Disclosed(proof: Json) | NotFound | ProofExpired | StoreError

  function AnswerFor(r: GetOutcome): ChallengeAnswer {
    match r
    case Found(p) => Disclosed(Verify.DumpProof(p))
    case Missing => NotFound
    case Expired(_) => ProofExpired
    case StorageError => StoreError
  }

  class MinimalAdapter {
    const client: ATPClient
    const proofStore: InMemoryProofStore
    const exchange: ExchangeServer
    const ttl: nat
    var systemId: Option<string>
    var systemUri: Option<string>

    constructor (client: ATPClient, proofStore: InMemoryProofStore, exchange: ExchangeServer, ttl: nat)
      ensures this.client == client && this.proofStore == proofStore && this.exchange == exchange && this.ttl == ttl
      ensures systemId == None && systemUri == None
    {
      this.client, this.proofStore, this.exchange, this.ttl := client, proofStore, exchange, ttl;
      systemId, systemUri := None, None;
    }

    /** Keeps the id and URI of the registration; a failed one changes nothing here. */
    method Register(name: string, systemType: string, reply: RegisterReply) returns (r: Option<Registration>)
      modifies this, client
      ensures client.View() == AfterRegister(old(client.View()), name, systemType, reply)
      ensures r == RegisterResult(old(client.View()), name, reply)
      ensures r.Some? ==> systemId == Some(r.value.systemId) && systemUri == Some(r.value.systemUri)
      ensures r.None? ==> systemId == old(systemId) && systemUri == old(systemUri)
    {
      r := client.RegisterSystem(name, systemType, reply);
      if r.Some? {
        systemId, systemUri := Some(r.value.systemId), Some(r.value.systemUri);
      }
    }

    /** The task record: the registered URI, or one built from the configured URL that leads back to the system. */
    method Describe(
      taskId: string, query: string, response: string, artifacts: Option<Json>,
      classification: Option<string>, now: int) returns (task: FinishedTask)
      requires systemId.GetOr("") != ""
      ensures task == AdapterTask(client.View(), systemId.value, systemUri, taskId, query, response,
                                  artifacts, classification, now, ttl)
      ensures if systemUri.GetOr("") != "" then task.systemUri == systemUri.value else BuiltFor(task, systemId.value)
      ensures task.invocation.Obj? && WellFormed(task.invocation) && task.outcome.Obj?
      ensures (artifacts.Some? ==> WellFormed(artifacts.value)) ==> WellFormed(task.outcome)
    {
      hide InvocationDict, OutcomeDict, SystemUri.Build, SystemUri.SystemIdOf, WellFormed;
      var id := systemId.value;
      var url := if client.exchangeUrl != "" then client.exchangeUrl else DEFAULT_EXCHANGE_URL;
      var uri := if systemUri.GetOr("") != "" then systemUri.value else SystemUri.Build(url, id);
      var result := OutcomeDict(response, None);
      if artifacts.Some? {
        result := OutcomeDict(response, artifacts);
      }
      var systemType := if id in client.systemTypes then client.systemTypes[id] else "agent";
      task := FinishedTask(uri, systemType, taskId, Some(classification.GetOr(DEFAULT_CLASSIFICATION)),
                           InvocationDict(query), result, [], now, ttl);
      SystemUri.BuildThenSplit(url, id);
      DictsAreObjects(query, response, artifacts);
      BuiltDictsWellFormed(query, response, None);
      if artifacts.Some? && WellFormed(artifacts.value) {
        BuiltDictsWellFormed(query, response, artifacts);
      }
    }

    /** The proof is saved before the sketch is posted. */
    method OnTaskComplete(
      h: HashFn, taskId: string, query: string, response: string, artifacts: Option<Json>,
      classification: Option<string>, now: int, outcome: PostOutcome) returns (r: CompleteResult)
      requires CommitClock(now, ttl)
      modifies proofStore, exchange
      ensures r.NotRegistered? <==> systemId.GetOr("") == ""
      ensures r.NotRegistered? ==> proofStore.proofs == old(proofStore.proofs) && exchange.commits == old(exchange.commits)
      ensures !r.NotRegistered? ==>
                var task := AdapterTask(client.View(), systemId.value, systemUri, taskId, query, response,
                                        artifacts, classification, now, ttl);
                && proofStore.proofs == old(proofStore.proofs)[taskId := ProofFor(h, task)]
                && exchange.commits == AfterPost(old(exchange.commits),
                     RequestFor(h, client.View(), systemId.value, taskId, SketchFor(h, task)), outcome)
      ensures !r.NotRegistered? ==>
                var id := systemId.value;
                && taskId in proofStore.proofs
                && var p := proofStore.proofs[taskId];
                && ProofHolds(h, p,
                              if systemUri.GetOr("") != "" then systemUri.value
                              else (if client.exchangeUrl != "" then client.exchangeUrl else "http://localhost:8080") + "/systems/" + id,
                              if id in client.systemTypes then client.systemTypes[id] else "agent", taskId,
                              InvocationDict(query), OutcomeDict(response, artifacts), [], now, ttl)
                && (!outcome.NotRecorded? ==>
                    && (id, taskId) in exchange.commits
                    && var s := exchange.commits[(id, taskId)].sketch;
                    && SketchesProof(h, s, p)
                    && s.classification == Some(if classification.Some? then classification.value else "question-answering")
                    && s.systemUri == if id in client.systemUris then client.systemUris[id] else client.exchangeUrl + "/systems/" + id)
      ensures r.Completed? <==> systemId.GetOr("") != "" && outcome.Acknowledged?
    {
      hide ProofFor, SketchFor, RequestFor, CommitClock, InvocationDict, OutcomeDict, SystemUri.Build, AdapterTask, ProofHolds, SketchesProof;
      if systemId.GetOr("") == "" {
        return NotRegistered;
      }
      var task := Describe(taskId, query, response, artifacts, classification, now);
      AdapterTaskFields(client.View(), systemId.value, systemUri, taskId, query, response, artifacts, classification, now, ttl);
      NothingToFormat();
      var sketch := SketchFor(h, task);
      proofStore.Save(ProofFor(h, task));
      var request := client.CreateCommit(h, systemId.value, taskId, sketch);
      ProofForHolds(h, task);
      SentSketchesProof(h, task, client.View(), systemId.value);
      SentRequest(h, client.View(), systemId.value, taskId, sketch);
      var ok := exchange.Post(request, outcome);
      return if ok then Completed else PostFailed;
    }

    /** Answering a challenge reads the store, and removes the proof when it has expired. */
    method OnChallenge(taskId: string, now: int) returns (r: ChallengeAnswer)
      modifies proofStore
      ensures r == AnswerFor(GetResult(old(proofStore.proofs), taskId, now))
      ensures proofStore.proofs == AfterGet(old(proofStore.proofs), taskId, now)
      ensures
        if taskId !in old(proofStore.proofs) then r == NotFound && proofStore.proofs == old(proofStore.proofs)
        else
          var p := old(proofStore.proofs)[taskId];
          if p.expiresAt.offset.None? then r == StoreError && proofStore.proofs == old(proofStore.proofs)
          else if Instant(p.expiresAt) < now then r == ProofExpired && proofStore.proofs == old(proofStore.proofs) - {taskId}
          else r == Disclosed(Verify.DumpProof(p)) && proofStore.proofs == old(proofStore.proofs)
    {
      hide Verify.DumpProof, Instant;
      var stored := proofStore.Get(taskId, now);
      match stored
      case Found(p) => return Disclosed(Verify.DumpProof(p));
      case Missing => return NotFound;
      case Expired(_) => return ProofExpired;
      case StorageError => return StoreError;
    }
  }
}
