/** `ATPTaskContext`: one task from start to commit. */
module TaskContext {
  import opened Basics
  import opened Json
  import opened ProofModel
  import opened Hashing
  import opened Client
  import opened Commits
  import opened Exchange
  import opened InMemoryStore
  import SystemUri

  /** What `add_dependent_proof` accepts; anything else raises TypeError. */
  datatype Reference = OfProof(proof: StoredProof) | OfDependency(dependency: Dependency)

  /** A stored proof becomes a flat reference; evaluations join those a dependency already has. */
  function ToDependency(r: Reference, evaluations: seq<Evaluation>): Dependency {
    match r
    case OfProof(p) => Dependency(Some(p.task.systemUri), p.task.taskId, None, evaluations)
    case OfDependency(d) => d.(evaluations := d.evaluations + evaluations)
  }

  /** Nothing to do, no system (RuntimeError), a failed POST (raised), or committed. */
  datatype CommitResult = Skipped | NoSystem | PostFailed | Committed

  class ATPTaskContext {
    const client: ATPClient
    const store: InMemoryProofStore
    const exchange: ExchangeServer
    const taskId: string
    const query: string
    const classification: string
    const config: Config
    var response: Option<string>
    var committed: bool
    var dependencies: seq<Dependency>

    constructor (
      client: ATPClient, store: InMemoryProofStore, exchange: ExchangeServer,
      taskId: string, query: string, classification: string, config: Config)
      ensures this.client == client && this.store == store && this.exchange == exchange
      ensures this.taskId == taskId && this.query == query && this.classification == classification && this.config == config
      ensures response == None && !committed && dependencies == []
    {
      this.client, this.store, this.exchange := client, store, exchange;
      this.taskId, this.query, this.classification, this.config := taskId, query, classification, config;
      response, committed, dependencies := None, false, [];
    }

    method SetResponse(text: string)
      modifies this`response
      ensures response == Some(text)
    {
      response := Some(text);
    }

    method AddDependentProof(reference: Reference, evaluations: Option<seq<Evaluation>>)
      modifies this`dependencies
      ensures dependencies == old(dependencies) + [ToDependency(reference, evaluations.GetOr([]))]
      ensures
        var added := dependencies[|dependencies| - 1];
        match reference
        case OfProof(p) =>
          && added.systemUri == Some(p.task.systemUri) && added.taskId == p.task.taskId && added.challengeUrl == None
          && added.evaluations == evaluations.GetOr([])
        case OfDependency(d) =>
          && added.systemUri == d.systemUri && added.taskId == d.taskId && added.challengeUrl == d.challengeUrl
          && added.evaluations == d.evaluations + evaluations.GetOr([])
    {
      match reference
      case OfProof(p) =>
        var d := Dependency(Some(p.task.systemUri), p.task.taskId, None, evaluations.GetOr([]));
        dependencies := dependencies + [d];
      case OfDependency(d) =>
        var merged := d;
        if evaluations.GetOr([]) != [] {
          merged := d.(evaluations := d.evaluations + evaluations.value);
        }
        assert d.evaluations + [] == d.evaluations;
        dependencies := dependencies + [merged];
    }

    /** What this context would commit at `now`. */
    ghost function Task(now: int): FinishedTask
      reads this, client
    {
      ContextTask(client.View(), config, taskId, classification, query, response.GetOr(""), dependencies, now)
    }

    /**
     * What a commit leaves behind: a stored proof of exactly what the context holds, under the first registered
     * system, and, if the POST was recorded, its sketch with the same dependencies and their hash.
     */
    ghost predicate Holds(h: HashFn, now: int, outcome: PostOutcome)
      reads this, client, store, exchange
      requires CommitClock(now, config.ttl)
    {
      && client.registered != [] && response.Some? && taskId in store.proofs
      && var id, p := client.registered[0].systemId, store.proofs[taskId];
      && ProofHolds(h, p, (if config.exchangeUrl != "" then config.exchangeUrl else "http://localhost:8080") + "/systems/" + id,
                    if id in client.systemTypes then client.systemTypes[id] else "agent", taskId,
                    InvocationDict(query), OutcomeDict(response.value, None), dependencies, now, config.ttl)
      && (!outcome.NotRecorded? ==>
          && (id, taskId) in exchange.commits
          && var s := exchange.commits[(id, taskId)].sketch;
          && SketchesProof(h, s, p) && s.classification == Some(classification)
          && s.systemUri == if id in client.systemUris then client.systemUris[id] else client.exchangeUrl + "/systems/" + id)
    }

    /** The task record under the first registered system; its URI leads back to that system, its dicts hold no key twice. */
    method Describe(now: int) returns (task: FinishedTask)
      requires FirstSystem(client.View()) != "" && response.Some?
      ensures task == Task(now)
      ensures BuiltFor(task, FirstSystem(client.View()))
      ensures task.invocation.Obj? && WellFormed(task.invocation) && task.outcome.Obj? && WellFormed(task.outcome)
    {
      hide InvocationDict, OutcomeDict, SystemUri.Build, BuiltFor, WellFormed;
      var systemId := client.registered[0].systemId;
      var url := if config.exchangeUrl != "" then config.exchangeUrl else DEFAULT_EXCHANGE_URL;
      var systemType := if systemId in client.systemTypes then client.systemTypes[systemId] else "agent";
      task := FinishedTask(SystemUri.Build(url, systemId), systemType, taskId, Some(classification),
                           InvocationDict(query), OutcomeDict(response.value, None), dependencies, now, config.ttl);
      ContextTaskBuiltFor(client.View(), config, taskId, classification, query, response.value, dependencies, now);
      BuiltDictsWellFormed(query, response.value, None);
    }

    /**
     * `_commit`: the proof is saved before the sketch is posted, and a failed POST leaves the saved proof
     * and the context uncommitted.
     */
    method Commit(h: HashFn, now: int, outcome: PostOutcome) returns (r: CommitResult)
      requires CommitClock(now, config.ttl) && FormattableDependencies(dependencies)
      modifies this`committed, store, exchange
      ensures r.Skipped? <==> old(committed) || response == None || response == Some("")
      ensures r.NoSystem? <==>
                !r.Skipped? && (client.registered == [] || client.registered[0].systemId == "")
      ensures r.Skipped? || r.NoSystem? ==>
                store.proofs == old(store.proofs) && exchange.commits == old(exchange.commits) && committed == old(committed)
      ensures r.PostFailed? || r.Committed? ==>
                && store.proofs == old(store.proofs)[taskId := ProofFor(h, old(Task(now)))]
                && exchange.commits == AfterPost(old(exchange.commits),
                     RequestFor(h, client.View(), FirstSystem(client.View()), taskId, SketchFor(h, old(Task(now)))), outcome)
      ensures r.PostFailed? || r.Committed? ==> Holds(h, now, outcome)
      ensures r.Committed? <==> !r.Skipped? && !r.NoSystem? && outcome.Acknowledged?
      ensures committed == (old(committed) || r.Committed?)
    {
      hide ProofFor, SketchFor, RequestFor, CommitClock, FormattableDependencies, InvocationDict, OutcomeDict, SystemUri.Build, ContextTask,
           ProofHolds, SketchesProof;
      if committed || response.GetOr("") == "" {
        return Skipped;
      }
      var systemId := if client.registered == [] then "" else client.registered[0].systemId;
      if systemId == "" {
        return NoSystem;
      }
      var task := Describe(now);
      ContextCommits(h, client.View(), config, taskId, classification, query, response.value, dependencies, now);
      var sketch := SketchFor(h, task);
      store.Save(ProofFor(h, task));
      var request := client.CreateCommit(h, systemId, taskId, sketch);
      var ok := exchange.Post(request, outcome);
      if !ok {
        return PostFailed;
      }
      committed := true;
      return Committed;
    }

    /** `__aexit__`: a body that raised commits nothing, any other commits as `Commit` does. */
    method Exit(h: HashFn, raised: bool, now: int, outcome: PostOutcome) returns (r: CommitResult)
      requires CommitClock(now, config.ttl) && FormattableDependencies(dependencies)
      modifies this`committed, store, exchange
      ensures r.Skipped? <==> raised || old(committed) || response == None || response == Some("")
      ensures r.NoSystem? <==>
                !r.Skipped? && (client.registered == [] || client.registered[0].systemId == "")
      ensures r.Skipped? || r.NoSystem? ==>
                store.proofs == old(store.proofs) && exchange.commits == old(exchange.commits) && committed == old(committed)
      ensures r.PostFailed? || r.Committed? ==>
                && store.proofs == old(store.proofs)[taskId := ProofFor(h, old(Task(now)))]
                && exchange.commits == AfterPost(old(exchange.commits),
                     RequestFor(h, client.View(), FirstSystem(client.View()), taskId, SketchFor(h, old(Task(now)))), outcome)
      ensures r.PostFailed? || r.Committed? ==> Holds(h, now, outcome)
      ensures r.PostFailed? ==> !outcome.Acknowledged? && committed == old(committed)
      ensures r.Committed? ==> outcome.Acknowledged? && committed
    {
      hide ProofHolds, SketchesProof, ContextTask, ProofFor, SketchFor, RequestFor;
      if !raised && response.GetOr("") != "" {
        r := Commit(h, now, outcome);
      } else {
        r := Skipped;
      }
    }
  }
}
