/** An agent as a whole: any number of task contexts over one SQLite store, one client and one Exchange. */
module World {
  import opened Basics
  import opened Timestamp
  import opened ProofModel
  import opened ProofStore
  import opened Hashing
  import opened Client
  import opened Commits
  import opened Exchange
  import opened SqliteStore
  import opened Uuid
  import R = Registrations
  import S = SqliteInterleaving

  type ContextId = nat

  /** A task context; its `_commit` awaits the save, then the POST. */
  datatype Context =
    | Running(id: string)
    | Saving(task: FinishedTask, systemId: string, call: S.CallId)
    | Sending(task: FinishedTask, systemId: string, request: CommitRequest)
    | Posted(task: FinishedTask, systemId: string, committed: bool)
    | Ended(id: string)

  function IdOf(x: Context): string {
    if x.Running? || x.Ended? then x.id else x.task.taskId
  }

  /**
   * `used` holds every task id drawn so far or found in the store at the start, `deleted` those deleted on
   * request since they were saved; `savers` says which context a save call belongs to, and `posted` which task
   * a commit was made from.
   */
  datatype World = World(
    store: S.State, registry: R.State, commits: CommitTable, contexts: map<ContextId, Context>,
    used: set<string>, deleted: set<string>,
    savers: map<S.CallId, ContextId>, posted: map<(string, string), FinishedTask>)

  /** What the user of a context supplies before it commits. */
  datatype Answer = Answer(config: Config, classification: string, query: string, response: string, dependencies: seq<Dependency>)

  /**
   * `Enter` draws a fresh UUID as the task id (`DrawnIsUuid`). `Restart` ends the process, whatever it was
   * doing, and starts another on the same file.
   */
  datatype Event =
    | Store(e: S.Event)
    | Registering(step: R.Event)
    | Enter(x: ContextId, id: string)
    | StartCommit(x: ContextId, call: S.CallId, answer: Answer)
    | SaveReturned(x: ContextId)
    | Post(x: ContextId, outcome: PostOutcome)
    | Leave(x: ContextId)
    | Restart(exchangeUrl: string)

  function TaskAt(w: World, id: string, a: Answer): FinishedTask {
    ContextTask(w.registry.client, a.config, id, a.classification, a.query, a.response, a.dependencies, w.store.now)
  }

  function DeletedBy(s: S.State, e: S.Event): set<string> {
    if e.DeleteAsked? && S.At(s, e.c) && s.calls[e.c].DeleteReady? then {s.calls[e.c].id} else {}
  }

  /** This step writes a row for `id`. */
  predicate SavesId(s: S.State, e: S.Event, id: string) {
    e.Insert? && S.At(s, e.c) && s.calls[e.c].SaveReady? && s.calls[e.c].proof.task.taskId == id
  }

  function SavedBy(s: S.State, e: S.Event): set<string> {
    if e.Insert? && S.At(s, e.c) && s.calls[e.c].SaveReady? then {s.calls[e.c].proof.task.taskId} else {}
  }

  function With(w: World, x: ContextId, c: Context): World {
    w.(contexts := w.contexts[x := c])
  }

  predicate In(w: World, x: ContextId) {
    x in w.contexts
  }

  predicate Next(h: HashFn, w: World, e: Event, w': World) {
    match e
    case Store(se) =>
      && !(se.Begin? && se.op.Save?)
      && S.Next(w.store, se, w'.store)
      && w' == w.(store := w'.store, deleted := w.deleted - SavedBy(w.store, se) + DeletedBy(w.store, se))
    case Registering(step) => R.Next(w.registry, step, w'.registry) && w' == w.(registry := w'.registry)
    case Enter(x, id) =>
      !In(w, x) && id !in w.used && IsUuidText(id) && w' == With(w.(used := w.used + {id}), x, Running(id))
    case StartCommit(x, call, a) =>
      && In(w, x) && w.contexts[x].Running?
      && a.response != "" && FirstSystem(w.registry.client) != ""
      && var task := TaskAt(w, w.contexts[x].id, a);
      && Committable(task)
      && S.Next(w.store, S.Begin(call, Save(ProofFor(h, task))), w'.store)
      && w' == With(w.(store := w'.store, savers := w.savers[call := x]), x, Saving(task, FirstSystem(w.registry.client), call))
    case SaveReturned(x) =>
      && In(w, x) && w.contexts[x].Saving?
      && var c := w.contexts[x];
      && S.At(w.store, c.call) && w.store.calls[c.call].Finished? && Committable(c.task)
      && w' == With(w, x,
           if w.store.calls[c.call].outcome == Done
           then Sending(c.task, c.systemId, RequestFor(h, w.registry.client, c.systemId, c.task.taskId, SketchFor(h, c.task)))
           else Ended(c.task.taskId))
    case Post(x, outcome) =>
      && In(w, x) && w.contexts[x].Sending?
      && var c := w.contexts[x];
      && w' == With(w.(commits := AfterPost(w.commits, c.request, outcome),
                       posted := if outcome.NotRecorded? then w.posted
                                 else w.posted[(c.request.systemId, c.request.taskId) := c.task]),
                    x, Posted(c.task, c.systemId, outcome.Acknowledged?))
    case Leave(x) => In(w, x) && w.contexts[x].Running? && w' == With(w, x, Ended(w.contexts[x].id))
    case Restart(url) =>
      w' == w.(store := w.store.(calls := map[]), registry := R.Fresh(url), contexts := map[], savers := map[])
  }

  /** A start: a store left by an earlier process, nothing in flight, nothing committed yet. */
  predicate Init(w: World) {
    && S.Good(w.store) && w.store.calls == map[] && w.store.rows.Keys <= w.used
    && w.commits == map[] && w.posted == map[] && w.contexts == map[] && w.savers == map[]
  }

  predicate Run(h: HashFn, worlds: seq<World>, events: seq<Event>) {
    && |worlds| == |events| + 1
    && Init(worlds[0])
    && forall i :: 0 <= i < |events| ==> Next(h, worlds[i], events[i], worlds[i + 1])
  }

  // ----- What the store keeps for one task id -----

  /** The row a get in flight has read for `id`. */
  predicate HasRead(pc: S.Pc, id: string, row: Row) {
    || (pc.GetRead? && pc.id == id && pc.row == Some(row))
    || (pc.GetDeleting? && pc.id == id && pc.expired == row)
  }

  /** No row for `id`, and no get that has read one. */
  ghost predicate Unseen(s: S.State, id: string) {
    id !in s.rows && forall c, row :: c in s.calls ==> !HasRead(s.calls[c], id, row)
  }

  /** The only row ever seen for `id` is `row`, still there unless deleted on request or expired. */
  ghost predicate Kept(s: S.State, id: string, row: Row, deleted: bool) {
    && (id in s.rows ==> s.rows[id] == row)
    && (id !in s.rows ==> deleted || ExpiryOf(row) < s.now)
    && forall c, r :: c in s.calls && HasRead(s.calls[c], id, r) ==> r == row
  }

  /** Reading comes from the row that is there; a check keeps what was read. */
  lemma ReadFrom(s: S.State, e: S.Event, s': S.State, c: S.CallId, id: string, row: Row)
    requires S.Next(s, e, s') && c in s'.calls && HasRead(s'.calls[c], id, row)
    ensures (id in s.rows && s.rows[id] == row) || (c in s.calls && HasRead(s.calls[c], id, row))
  {
    hide CheckRow, NowText, ListedIds, Collected, ValidClock, UtcExpiry, ValidDateTime, Inserted;
  }

  lemma RowsFrom(s: S.State, e: S.Event, s': S.State, id: string)
    requires S.Next(s, e, s') && !SavesId(s, e, id) && id in s'.rows
    ensures id in s.rows && s.rows[id] == s'.rows[id]
  {
    hide CheckRow, NowText, ListedIds, ValidClock, UtcExpiry, ValidDateTime, ToRow, S.AfterCheck;
  }

  lemma StepKeepsUnseen(s: S.State, e: S.Event, s': S.State, id: string)
    requires S.Next(s, e, s') && Unseen(s, id) && !SavesId(s, e, id)
    ensures Unseen(s', id)
  {
    hide S.Next, HasRead;
    if id in s'.rows {
      RowsFrom(s, e, s', id);
    }
    forall c, row | c in s'.calls
      ensures !HasRead(s'.calls[c], id, row)
    {
      if HasRead(s'.calls[c], id, row) {
        ReadFrom(s, e, s', c, id, row);
      }
    }
  }
}
