/** What an agent stores and what it commits for one finished task. */
module Commits {
  import opened Basics
  import opened Json
  import opened Calendar
  import opened Timestamp
  import opened ProofModel
  import opened ProofStore
  import opened Hashing
  import opened Client
  import ProofMessage
  import SystemUri

  const DEFAULT_EXCHANGE_URL := "http://localhost:8080"

  /** 1000-01-01T00:00:00, the first year `strftime("%Y")` is known to pad right. */
  const FIRST_FORMATTABLE := 364_878 * MICROS_PER_DAY

  /** A clock reading from which the expiry can still be computed; `ttl` in microseconds. */
  predicate CommitClock(now: int, ttl: nat) {
    FIRST_FORMATTABLE <= now && now + ttl <= LAST_INSTANT
  }

  lemma CommitClockFormattable(now: int, ttl: nat)
    requires CommitClock(now, ttl)
    ensures InlineFormattable(Utc(FromMicros(now)))
    ensures ValidDateTime(Utc(FromMicros(now + ttl)))
  {
    hide FromMicros;
    var first := Civil(1000, 1, 1, 0, 0, 0, 0);
    assert Micros(first) == FIRST_FORMATTABLE;
    FieldsOrderInstants(FromMicros(now), first);
    InRangeYear(now);
    InRangeYear(now + ttl);
  }

  /** The canonical invocation dict of a query. */
  function InvocationDict(query: string): Json {
    Obj(Field("method", Str("query"),
        Field("trigger", Obj(Field("type", Str("user_message"), Nil)),
        Field("input", Obj(Field("query", Str(query), Nil)), Nil))))
  }

  /** The canonical outcome dict of a response; the adapter may add artifacts. */
  function OutcomeDict(response: string, artifacts: Option<Json>): Json {
    Obj(Field("response", Obj(Field("text", Str(response), Nil)),
        Field("status", Str("success"),
        Field("actions", Arr(Nil),
        Field("error", Null,
              if artifacts.Some? then Field("artifacts", artifacts.value, Nil) else Nil)))))
  }

  /** Who commits, what, and when. */
  datatype FinishedTask = FinishedTask(
    systemUri: string, systemType: string, taskId: string, classification: Option<string>,
    invocation: Json, outcome: Json, dependencies: seq<Dependency>, now: int, ttl: nat)

  predicate Committable(f: FinishedTask) {
    CommitClock(f.now, f.ttl) && FormattableDependencies(f.dependencies)
  }

  function ProofFor(h: HashFn, f: FinishedTask): (p: StoredProof)
    requires Committable(f)
    ensures p.task.taskId == f.taskId
  {
    var now := Utc(FromMicros(f.now));
    var task := ProofTask(f.systemUri, f.systemType, f.taskId,
                          f.invocation, HashWithPrefix(h, f.invocation), f.outcome, HashWithPrefix(h, f.outcome),
                          now, Unverified);
    StoredProof(task, f.dependencies, now, Utc(FromMicros(f.now + f.ttl)))
  }

  function SketchFor(h: HashFn, f: FinishedTask): (s: Sketch)
    requires Committable(f)
    ensures InlineFormattable(s.timestamp)
  {
    CommitClockFormattable(f.now, f.ttl);
    Sketch(f.systemUri, f.systemType, f.taskId, f.classification, f.dependencies,
           HashWithPrefix(h, f.invocation), HashWithPrefix(h, f.outcome),
           Some(DependenciesHash(h, Some(f.dependencies))), Utc(FromMicros(f.now)))
  }

  // ----- What a proof and a sketch hold -----

  /** A proof made at `now` from exactly these, not yet trusted. */
  predicate ProofHolds(
    h: HashFn, p: StoredProof, systemUri: string, systemType: string, taskId: string, invocation: Json, outcome: Json,
    dependencies: seq<Dependency>, now: int, ttl: nat)
    requires CommitClock(now, ttl)
  {
    && p.task.systemUri == systemUri && p.task.systemType == systemType && p.task.taskId == taskId
    && p.task.invocation == invocation && p.task.invocationHash == HashWithPrefix(h, invocation)
    && p.task.outcome == outcome && p.task.outcomeHash == HashWithPrefix(h, outcome)
    && p.task.trustLevel == Unverified && p.dependencies == dependencies
    && p.task.timestamp == p.createdAt && UtcExpiry(p)
    && Instant(p.createdAt) == now && Instant(p.expiresAt) == now + ttl
  }

  /** The sketch of a proof: its ids, hashes and dependencies, at the time it was made. */
  predicate SketchesProof(h: HashFn, s: Sketch, p: StoredProof) {
    && s.taskId == p.task.taskId && s.systemType == p.task.systemType
    && s.invocationHash == p.task.invocationHash && s.outcomeHash == p.task.outcomeHash
    && s.dependencies == p.dependencies && FormattableDependencies(p.dependencies)
    && s.dependenciesHash == Some(DependenciesHash(h, Some(p.dependencies)))
    && s.timestamp == p.createdAt
  }

  lemma ProofForHolds(h: HashFn, f: FinishedTask)
    requires Committable(f)
    ensures ProofHolds(h, ProofFor(h, f), f.systemUri, f.systemType, f.taskId, f.invocation, f.outcome, f.dependencies, f.now, f.ttl)
  {
    hide HashWithPrefix, FromMicros, Micros, Valid, InlineFormattable, FormattableDependencies;
    CommitClockFormattable(f.now, f.ttl);
  }

  lemma SentSketchesProof(h: HashFn, f: FinishedTask, client: ClientState, systemId: string)
    requires Committable(f)
    ensures
      var sent := RequestFor(h, client, systemId, f.taskId, SketchFor(h, f)).sketch;
      SketchesProof(h, sent, ProofFor(h, f)) && (f.classification.Some? ==> sent.classification == f.classification)
  {
    hide DependenciesHash, HashWithPrefix, ProofMessage.Message, FromMicros, CommitClock, InlineFormattable, RequestFor;
    SentRequest(h, client, systemId, f.taskId, SketchFor(h, f));
  }

  /** What is sent to the Exchange still matches what was stored, although the URI may have been replaced. */
  lemma SentMatchesStored(h: HashFn, f: FinishedTask, client: ClientState, systemId: string)
    requires Committable(f)
    ensures Matches(h, ProofFor(h, f), RequestFor(h, client, systemId, f.taskId, SketchFor(h, f)).sketch)
  {
    hide DependenciesHash, HashWithPrefix, ProofMessage.ProofHash, FromMicros, CommitClock, InlineFormattable, Matches, RequestFor;
    SketchMatches(h, f);
    SentStillMatches(h, client, systemId, f.taskId, SketchFor(h, f), ProofFor(h, f));
  }

  /** The sketch tells the truth about the proof made from the same task. */
  lemma SketchMatches(h: HashFn, f: FinishedTask)
    requires Committable(f)
    ensures Matches(h, ProofFor(h, f), SketchFor(h, f))
  {
    hide DependenciesHash, HashWithPrefix, FromMicros, CommitClock, InlineFormattable;
  }

  /** A sketch of the task's proof in every field but its URI. */
  predicate TruthfulSketch(h: HashFn, task: FinishedTask, sketch: Sketch)
    requires Committable(task)
  {
    && Matches(h, ProofFor(h, task), sketch) && SketchesProof(h, sketch, ProofFor(h, task))
    && (task.classification.Some? ==> sketch.classification == task.classification)
  }

  lemma SentIsTruthful(h: HashFn, f: FinishedTask, client: ClientState, systemId: string)
    requires Committable(f)
    ensures TruthfulSketch(h, f, RequestFor(h, client, systemId, f.taskId, SketchFor(h, f)).sketch)
  {
    hide Matches, SketchesProof, RequestFor, SketchFor, ProofFor;
    SentMatchesStored(h, f, client, systemId);
    SentSketchesProof(h, f, client, systemId);
  }

  /** The proof expires `ttl` after it was made, in UTC. */
  lemma ExpiryOfProof(h: HashFn, f: FinishedTask)
    requires Committable(f)
    ensures UtcExpiry(ProofFor(h, f)) && Instant(ProofFor(h, f).expiresAt) == f.now + f.ttl
  {
    hide HashWithPrefix, FromMicros, Micros, Valid, InlineFormattable, FormattableDependencies;
    CommitClockFormattable(f.now, f.ttl);
  }

  /** The first registered system, under which every task context commits; "" stands for none. */
  function FirstSystem(c: ClientState): string {
    if c.registered == [] then "" else c.registered[0].systemId
  }

  /** The configuration a context works with: its own, or else its client's. */
  datatype Config = Config(exchangeUrl: string, ttl: nat)

  /** The `FinishedTask` record `_commit` works with. */
  function ContextTask(
    c: ClientState, config: Config, taskId: string, classification: string, query: string, response: string,
    dependencies: seq<Dependency>, now: int): FinishedTask
  {
    var id := FirstSystem(c);
    var url := if config.exchangeUrl != "" then config.exchangeUrl else DEFAULT_EXCHANGE_URL;
    FinishedTask(SystemUri.Build(url, id), if id in c.systemTypes then c.systemTypes[id] else "agent",
                 taskId, Some(classification), InvocationDict(query), OutcomeDict(response, None), dependencies, now, config.ttl)
  }

  /** A context's task: everything the context was given, under the first registered system. */
  lemma ContextTaskFields(
    c: ClientState, config: Config, taskId: string, classification: string, query: string, response: string,
    dependencies: seq<Dependency>, now: int)
    requires c.registered != []
    ensures
      var f := ContextTask(c, config, taskId, classification, query, response, dependencies, now);
      var id := c.registered[0].systemId;
      && f.systemUri == (if config.exchangeUrl != "" then config.exchangeUrl else "http://localhost:8080") + "/systems/" + id
      && f.systemType == (if id in c.systemTypes then c.systemTypes[id] else "agent")
      && f.taskId == taskId && f.classification == Some(classification) && f.dependencies == dependencies
      && f.invocation == InvocationDict(query) && f.outcome == OutcomeDict(response, None)
      && f.now == now && f.ttl == config.ttl
  {
    hide InvocationDict, OutcomeDict;
  }

  /** The task was built for this system: its URI leads back to it exactly when the id holds no slash. */
  predicate BuiltFor(task: FinishedTask, systemId: string) {
    systemId != "" && (SystemUri.SystemIdOf(task.systemUri) == systemId <==> '/' !in systemId)
  }

  lemma ContextTaskBuiltFor(
    c: ClientState, config: Config, taskId: string, classification: string, query: string, response: string,
    dependencies: seq<Dependency>, now: int)
    requires FirstSystem(c) != ""
    ensures
      var task := ContextTask(c, config, taskId, classification, query, response, dependencies, now);
      task.taskId == taskId && task.now == now && task.ttl == config.ttl && BuiltFor(task, FirstSystem(c))
  {
    hide SystemUri.Build, SystemUri.SystemIdOf, InvocationDict, OutcomeDict;
    SystemUri.BuildThenSplit(if config.exchangeUrl != "" then config.exchangeUrl else DEFAULT_EXCHANGE_URL, FirstSystem(c));
  }

  /** The built dicts hold no key twice, so their hashes decide their meaning. */
  lemma BuiltDictsWellFormed(query: string, response: string, artifacts: Option<Json>)
    requires artifacts.Some? ==> WellFormed(artifacts.value)
    ensures InvocationDict(query).Obj? && WellFormed(InvocationDict(query))
    ensures OutcomeDict(response, artifacts).Obj? && WellFormed(OutcomeDict(response, artifacts))
  {
    var extra := if artifacts.Some? then Field("artifacts", artifacts.value, Nil) else Nil;
    var error := Field("error", Null, extra);
    var actions := Field("actions", Arr(Nil), error);
    var status := Field("status", Str("success"), actions);
    assert Keys(Nil) == {} && Keys(extra) <= {"artifacts"};
    assert Keys(error) <= {"error", "artifacts"};
    assert Keys(actions) <= {"actions", "error", "artifacts"};
    assert Keys(status) <= {"status", "actions", "error", "artifacts"};
    assert WellFormedMembers(Nil);
    assert WellFormedMembers(extra);
    assert WellFormedMembers(error);
    assert WellFormedMembers(actions);
    assert WellFormedMembers(status);
    var text := Field("text", Str(response), Nil);
    assert WellFormedMembers(text) && WellFormed(Obj(text));
    var kind, input := Field("type", Str("user_message"), Nil), Field("query", Str(query), Nil);
    assert WellFormedMembers(kind) && WellFormed(Obj(kind));
    assert WellFormedMembers(input) && WellFormed(Obj(input));
    var last := Field("input", Obj(input), Nil);
    var trigger := Field("trigger", Obj(kind), last);
    assert Keys(last) == {"input"} && Keys(trigger) == {"trigger", "input"};
    assert WellFormedMembers(last);
    assert WellFormedMembers(trigger);
  }

  // ----- The committed hashes determine what was asked and answered -----

  lemma {:induction false} LookupMeaning(ms: List<Member>, key: string)
    ensures key in Keys(ms) <==> Lookup(ms, key).Some?
    ensures key in Keys(ms) ==> MembersMeaning(ms)[key] == Meaning(Lookup(ms, key).value)
  {
    if ms.Cons? && ms.head.key != key {
      LookupMeaning(ms.tail, key);
    }
  }

  /** Equal meaning makes equal lookups, up to meaning. */
  lemma SameLookup(a: Json, b: Json, key: string)
    requires a.Obj? && b.Obj? && Meaning(a) == Meaning(b)
    ensures Subscript(a, key).Some? <==> Subscript(b, key).Some?
    ensures Subscript(a, key).Some? ==> Meaning(Subscript(a, key).value) == Meaning(Subscript(b, key).value)
  {
    LookupMeaning(a.members, key);
    LookupMeaning(b.members, key);
    assert MembersMeaning(a.members) == MembersMeaning(b.members);
    assert Keys(a.members) == MembersMeaning(a.members).Keys == Keys(b.members);
  }

  lemma BuiltLookups(query: string, response: string, artifacts: Option<Json>)
    ensures Subscript(InvocationDict(query), "input") == Some(Obj(Field("query", Str(query), Nil)))
    ensures Subscript(Obj(Field("query", Str(query), Nil)), "query") == Some(Str(query))
    ensures Subscript(OutcomeDict(response, artifacts), "response") == Some(Obj(Field("text", Str(response), Nil)))
    ensures Subscript(Obj(Field("text", Str(response), Nil)), "text") == Some(Str(response))
    ensures Subscript(OutcomeDict(response, artifacts), "artifacts") == artifacts
  {
    var last := Field("input", Obj(Field("query", Str(query), Nil)), Nil);
    var trigger := Field("trigger", Obj(Field("type", Str("user_message"), Nil)), last);
    assert Lookup(last, "input") == Some(Obj(Field("query", Str(query), Nil)));
    assert Lookup(trigger, "input") == Lookup(last, "input");
    var extra := if artifacts.Some? then Field("artifacts", artifacts.value, Nil) else Nil;
    var error := Field("error", Null, extra);
    var actions := Field("actions", Arr(Nil), error);
    var status := Field("status", Str("success"), actions);
    assert Lookup(extra, "artifacts") == artifacts;
    assert Lookup(error, "artifacts") == artifacts;
    assert Lookup(actions, "artifacts") == artifacts;
    assert Lookup(status, "artifacts") == artifacts;
  }

  /** Equal invocation hashes mean the same query; equal outcome hashes the same response and artifacts. */
  lemma HashesDetermineContent(
    h: HashFn, query: string, response: string, artifacts: Option<Json>, query': string, response': string, artifacts': Option<Json>)
    requires Injective(h)
    requires artifacts.Some? ==> WellFormed(artifacts.value)
    requires artifacts'.Some? ==> WellFormed(artifacts'.value)
    ensures HashWithPrefix(h, InvocationDict(query)) == HashWithPrefix(h, InvocationDict(query')) <==> query == query'
    ensures HashWithPrefix(h, OutcomeDict(response, artifacts)) == HashWithPrefix(h, OutcomeDict(response', artifacts')) ==>
              response == response' && artifacts.Some? == artifacts'.Some?
              && (artifacts.Some? ==> Meaning(artifacts.value) == Meaning(artifacts'.value))
  {
    hide InvocationDict, OutcomeDict, HashWithPrefix, Subscript;
    var i, i' := InvocationDict(query), InvocationDict(query');
    var o, o' := OutcomeDict(response, artifacts), OutcomeDict(response', artifacts');
    BuiltDictsWellFormed(query, response, artifacts);
    BuiltDictsWellFormed(query', response', artifacts');
    BuiltLookups(query, response, artifacts);
    BuiltLookups(query', response', artifacts');
    ContainerHashDecides(h, i, i');
    ContainerHashDecides(h, o, o');
    if Meaning(i) == Meaning(i') {
      SameLookup(i, i', "input");
      SameLookup(Obj(Field("query", Str(query), Nil)), Obj(Field("query", Str(query'), Nil)), "query");
    }
    if Meaning(o) == Meaning(o') {
      SameLookup(o, o', "response");
      SameLookup(Obj(Field("text", Str(response), Nil)), Obj(Field("text", Str(response'), Nil)), "text");
      SameLookup(o, o', "artifacts");
    }
  }

  /** `d[outer][inner]`. */
  function Subscript2(j: Json, outer: string, inner: string): Option<Json> {
    var value :- Subscript(j, outer);
    Subscript(value, inner)
  }

  lemma SameNested(a: Json, b: Json, outer: string, inner: string, s: string)
    requires a.Obj? && b.Obj? && Meaning(a) == Meaning(b) && Subscript2(b, outer, inner) == Some(Str(s))
    ensures Subscript2(a, outer, inner) == Some(Str(s))
  {
    hide MembersMeaning, Lookup;
    SameLookup(a, b, outer);
    var x, y := Subscript(a, outer).value, Subscript(b, outer).value;
    assert x.Obj? && y.Obj?;
    SameLookup(x, y, inner);
  }

  /** A dict that means the same as a built one carries the same query, or the same response. */
  lemma MeaningCarriesContent(invocation: Json, outcome: Json, query: string, response: string)
    requires invocation.Obj? && Meaning(invocation) == Meaning(InvocationDict(query))
    requires outcome.Obj? && Meaning(outcome) == Meaning(OutcomeDict(response, None))
    ensures Subscript2(invocation, "input", "query") == Some(Str(query))
    ensures Subscript2(outcome, "response", "text") == Some(Str(response))
  {
    hide InvocationDict, OutcomeDict, Meaning;
    BuiltDictsWellFormed(query, response, None);
    BuiltLookups(query, response, None);
    SameNested(invocation, InvocationDict(query), "input", "query", query);
    SameNested(outcome, OutcomeDict(response, None), "response", "text", response);
  }

  /** All a context stores and sends, put together. */
  lemma ContextCommits(
    h: HashFn, c: ClientState, config: Config, taskId: string, classification: string, query: string, response: string,
    dependencies: seq<Dependency>, now: int)
    requires c.registered != [] && CommitClock(now, config.ttl) && FormattableDependencies(dependencies)
    ensures
      var f := ContextTask(c, config, taskId, classification, query, response, dependencies, now);
      var id := c.registered[0].systemId;
      && Committable(f) && f.taskId == taskId
      && var p, s := ProofFor(h, f), RequestFor(h, c, id, taskId, SketchFor(h, f)).sketch;
      && ProofHolds(h, p, (if config.exchangeUrl != "" then config.exchangeUrl else "http://localhost:8080") + "/systems/" + id,
                    if id in c.systemTypes then c.systemTypes[id] else "agent", taskId,
                    InvocationDict(query), OutcomeDict(response, None), dependencies, now, config.ttl)
      && SketchesProof(h, s, p) && s.classification == Some(classification)
      && s.systemUri == (if id in c.systemUris then c.systemUris[id] else c.exchangeUrl + "/systems/" + id)
  {
    hide ContextTask, ProofFor, SketchFor, RequestFor, InvocationDict, OutcomeDict, ProofHolds, SketchesProof, CommitClock,
         FormattableDependencies;
    var f := ContextTask(c, config, taskId, classification, query, response, dependencies, now);
    var id := c.registered[0].systemId;
    ContextTaskFields(c, config, taskId, classification, query, response, dependencies, now);
    ProofForHolds(h, f);
    SentSketchesProof(h, f, c, id);
    SentRequest(h, c, id, taskId, SketchFor(h, f));
  }
}
