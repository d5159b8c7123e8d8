/** Whole runs of an agent, restarts included: what the Exchange holds, the store can answer for. */
module WorldResults {
  import opened Basics
  import opened Json
  import opened Timestamp
  import opened ProofModel
  import opened ProofStore
  import opened Hashing
  import opened Client
  import opened Commits
  import opened Exchange
  import opened SqliteStore
  import opened Uuid
  import opened World
  import opened WorldSafety
  import C = Completeness
  import R = Registrations
  import S = SqliteInterleaving
  import SystemUri
  import Verify

  lemma {:induction false} RunGood(h: HashFn, worlds: seq<World>, events: seq<Event>, n: nat)
    requires Run(h, worlds, events) && n < |worlds|
    ensures Good(h, worlds[n])
  {
    hide Next, Good;
    if n > 0 {
      RunGood(h, worlds, events, n - 1);
      NextKeepsGood(h, worlds[n - 1], events[n - 1], worlds[n]);
    } else {
      InitGood(h, worlds[0]);
    }
  }

  lemma RunStep(h: HashFn, worlds: seq<World>, events: seq<Event>, n: nat)
    requires Run(h, worlds, events) && n < |events|
    ensures |worlds| == |events| + 1 && Next(h, worlds[n], events[n], worlds[n + 1])
  {
    hide Next, Init;
  }

  // ----- Task ids are UUIDs -----

  /** Those of contexts and of commits. */
  predicate IdsAreUuids(w: World) {
    && (forall x :: x in w.contexts ==> IsUuidText(IdOf(w.contexts[x])))
    && (forall k :: k in w.commits ==> IsUuidText(k.1))
  }

  lemma NextKeepsUuids(h: HashFn, w: World, e: Event, w': World)
    requires Good(h, w) && Next(h, w, e, w') && IdsAreUuids(w)
    ensures IdsAreUuids(w')
  {
    hide Good, IsUuidText, S.Next, R.Next, ProofFor, SketchFor, RequestFor, Committable, ContextTask, GoodCommit, Uncommitted;
    if e.Post? {
      PostedGood(h, w, e, w');
    } else if e.StartCommit? {
      var p := StartFrame(h, w, e, w');
      StarterGood(h, w, e, w');
    }
  }

  lemma {:induction false} RunUuids(h: HashFn, worlds: seq<World>, events: seq<Event>, n: nat)
    requires Run(h, worlds, events) && n < |worlds|
    ensures IdsAreUuids(worlds[n])
  {
    hide Next, Good, IsUuidText;
    if n > 0 {
      RunUuids(h, worlds, events, n - 1);
      RunGood(h, worlds, events, n - 1);
      NextKeepsUuids(h, worlds[n - 1], events[n - 1], worlds[n]);
    }
  }

  // ----- Every commit is answerable -----

  lemma GoodCommitFacts(h: HashFn, w: World, k: (string, string))
    requires Good(h, w) && k in w.commits
    ensures GoodCommit(h, w, k)
  {
    hide S.Good, IdsUsed, IdsDistinct, SavesOwned, ContextsGood, GoodCommit;
  }

  /**
   * In every interleaving of contexts, gets, deletes, GC passes, registrations, clock ticks, failing calls and
   * restarts: each commit the Exchange holds tells the truth about the proof of the task it was made from, and
   * that proof is still in the store unless it has expired or was deleted on request since it was saved.
   */
  lemma CommitsAnswerable(h: HashFn, worlds: seq<World>, events: seq<Event>, n: nat, k: (string, string))
    requires Run(h, worlds, events) && n < |worlds| && k in worlds[n].commits
    ensures k in worlds[n].posted
    ensures
      var w := worlds[n];
      var task := w.posted[k];
      && Committable(task) && task.taskId == k.1 && IsUuidText(k.1) && BuiltFor(task, k.0)
      && w.commits[k].status.Confirmed?
      && Matches(h, ProofFor(h, task), w.commits[k].sketch)
      && SketchesProof(h, w.commits[k].sketch, ProofFor(h, task))
      && (task.classification.Some? ==> w.commits[k].sketch.classification == task.classification)
      && (k.1 in w.store.rows ==> w.store.rows[k.1].proof == ProofFor(h, task))
      && (k.1 in w.store.rows || k.1 in w.deleted || task.now + task.ttl < w.store.now)
  {
    hide Good, Matches, SketchesProof, ProofFor, Committable, BuiltFor, Run, HasRead, ExpiryOf, ValidDateTime, UtcRow, IsUuidText;
    RunGood(h, worlds, events, n);
    RunUuids(h, worlds, events, n);
    GoodCommitFacts(h, worlds[n], k);
    ProofRowUtc(h, worlds[n].posted[k]);
  }

  /** Task ids are fresh, also across restarts, so the Exchange never holds two commits for one task. */
  lemma OneCommitPerTask(h: HashFn, worlds: seq<World>, events: seq<Event>, n: nat, k: (string, string), l: (string, string))
    requires Run(h, worlds, events) && n < |worlds|
    requires k in worlds[n].commits && l in worlds[n].commits && k.1 == l.1
    ensures k == l
  {
    hide Run, S.Good, IdsUsed, SavesOwned, CommitsGood, ContextsGood;
    RunGood(h, worlds, events, n);
  }

  // ----- The save comes first -----

  /** This step is the POST that records `k` for this task. */
  predicate Posts(w: World, e: Event, k: (string, string), task: FinishedTask) {
    && e.Post? && !e.outcome.NotRecorded? && e.x in w.contexts && w.contexts[e.x].Sending?
    && w.contexts[e.x].systemId == k.0 && w.contexts[e.x].task == task && task.taskId == k.1
  }

  /** The context's proof has been written. */
  predicate PastSave(w: World, x: ContextId) {
    && x in w.contexts
    && var c := w.contexts[x];
    || c.Sending? || c.Posted?
    || (c.Saving? && c.call in w.store.calls && w.store.calls[c.call] == S.Finished(Done))
  }

  function TaskOf(w: World, x: ContextId): FinishedTask
    requires PastSave(w, x)
  {
    w.contexts[x].task
  }

  /** This step writes the proof of this task. */
  predicate WritesProof(h: HashFn, w: World, e: Event, task: FinishedTask) {
    && Committable(task) && e.Store? && e.e.Insert? && e.e.c in w.store.calls
    && w.store.calls[e.e.c] == S.SaveReady(ProofFor(h, task))
  }

  lemma SaveStep(h: HashFn, w: World, e: Event, w': World, x: ContextId)
    requires Good(h, w) && Next(h, w, e, w') && PastSave(w', x)
    ensures (PastSave(w, x) && TaskOf(w, x) == TaskOf(w', x)) || WritesProof(h, w, e, TaskOf(w', x))
  {
    hide Good, S.Next, R.Next, ProofFor, SketchFor, RequestFor, Committable, ContextTask, AfterPost, SavedBy, DeletedBy;
    if e.StartCommit? {
      var p := StartFrame(h, w, e, w');
    }
    if e.Store? && !PastSave(w, x) {
      var c := w.contexts[x];
      ContextGood(h, w, x);
      SavingCall(h, w, x, c);
      SaveCallMoves(w.store, e.e, w'.store, c.call);
    }
  }

  lemma SavingCall(h: HashFn, w: World, x: ContextId, c: Context)
    requires GoodContext(h, w, x, c) && c.Saving?
    ensures Committable(c.task) && c.call in w.store.calls
    ensures w.store.calls[c.call] != S.Finished(Done) ==>
              w.store.calls[c.call] == S.SaveReady(ProofFor(h, c.task)) || w.store.calls[c.call].Finished?
  {
    hide Kept, Unseen, ProofFor, Committable, BuiltFor, Uncommitted;
  }

  /** A context past its save had its proof written at some earlier step. */
  lemma {:induction false} SavedBefore(h: HashFn, worlds: seq<World>, events: seq<Event>, n: nat, x: ContextId) returns (i: nat)
    requires Run(h, worlds, events) && n < |worlds| && PastSave(worlds[n], x)
    ensures i < n && WritesProof(h, worlds[i], events[i], TaskOf(worlds[n], x))
  {
    hide Good, Next, WritesProof;
    assert n > 0;
    RunGood(h, worlds, events, n - 1);
    SaveStep(h, worlds[n - 1], events[n - 1], worlds[n], x);
    if PastSave(worlds[n - 1], x) && TaskOf(worlds[n - 1], x) == TaskOf(worlds[n], x) {
      i := SavedBefore(h, worlds, events, n - 1, x);
    } else {
      i := n - 1;
    }
  }

  /** A commit stays as it is, and so does what explains a missing proof. */
  lemma StepKeepsCommit(h: HashFn, w: World, e: Event, w': World, k: (string, string))
    requires Good(h, w) && Next(h, w, e, w') && k in w.commits
    ensures k in w.posted && k in w'.commits && k in w'.posted
    ensures w'.commits[k] == w.commits[k] && w'.posted[k] == w.posted[k]
    ensures k.1 in w.deleted ==> k.1 in w'.deleted
    ensures w.store.now <= w'.store.now
  {
    hide Good, S.Next, R.Next, ProofFor, SketchFor, RequestFor, Committable, ContextTask, GoodCommit, Uncommitted;
    GoodCommitFacts(h, w, k);
    CommitPosted(h, w, k);
    if e.Post? {
      PostedGood(h, w, e, w');
      UncommittedIsNew(w, IdOf(w.contexts[e.x]), k);
    } else if e.StartCommit? {
      var p := StartFrame(h, w, e, w');
    } else if e.Store? {
      TimeGoesOn(w.store, e.e, w'.store);
      DeletionStays(h, w, e.e, k);
    }
  }

  lemma UncommittedIsNew(w: World, id: string, k: (string, string))
    requires Uncommitted(w, id) && k in w.commits
    ensures k.1 != id
  {
  }

  lemma DeletionStays(h: HashFn, w: World, e: S.Event, k: (string, string))
    requires Good(h, w) && k in w.commits
    ensures k.1 !in SavedBy(w.store, e)
  {
    hide Good;
    if k.1 in SavedBy(w.store, e) {
      OnlyOwnerSaves(h, w, e, k.1);
    }
  }

  /** A commit that a step brings is that step's POST. */
  lemma NewCommitPosted(h: HashFn, w: World, e: Event, w': World, k: (string, string))
    requires Good(h, w) && Next(h, w, e, w') && k !in w.commits && k in w'.commits
    ensures k in w'.posted && Posts(w, e, k, w'.posted[k])
  {
    hide Good, S.Next, R.Next, ProofFor, SketchFor, RequestFor, Committable, ContextTask, GoodCommit, Uncommitted;
    if e.Post? {
      PostedGood(h, w, e, w');
    } else if e.StartCommit? {
      var p := StartFrame(h, w, e, w');
    }
  }

  /** Every commit was recorded by the POST of its own task, and the proof of that task was written before. */
  lemma {:induction false} SavePrecedesCommit(h: HashFn, worlds: seq<World>, events: seq<Event>, n: nat, k: (string, string))
    returns (i: nat, j: nat)
    requires Run(h, worlds, events) && n < |worlds| && k in worlds[n].commits
    ensures k in worlds[n].posted && i < j < n
    ensures WritesProof(h, worlds[i], events[i], worlds[n].posted[k])
    ensures Posts(worlds[j], events[j], k, worlds[n].posted[k])
  {
    hide Good, Next, WritesProof;
    assert n > 0;
    var w, e, w' := worlds[n - 1], events[n - 1], worlds[n];
    RunGood(h, worlds, events, n - 1);
    if k in w.commits {
      StepKeepsCommit(h, w, e, w', k);
      i, j := SavePrecedesCommit(h, worlds, events, n - 1, k);
    } else {
      NewCommitPosted(h, w, e, w', k);
      j := n - 1;
      i := SavedBefore(h, worlds, events, n - 1, e.x);
    }
  }

  // ----- A get for a commit finds its proof -----

  /** The proof behind a commit has neither expired nor been deleted. */
  predicate Answerable(w: World, k: (string, string)) {
    k in w.posted && w.store.now <= w.posted[k].now + w.posted[k].ttl && k.1 !in w.deleted
  }

  lemma CommitIsPosted(h: HashFn, worlds: seq<World>, events: seq<Event>, n: nat, k: (string, string))
    requires Run(h, worlds, events) && n < |worlds| && k in worlds[n].commits
    ensures k in worlds[n].posted
  {
    hide Good, GoodCommit, Run;
    RunGood(h, worlds, events, n);
    GoodCommitFacts(h, worlds[n], k);
    CommitPosted(h, worlds[n], k);
  }

  /** From the step that records it on, a commit stays; and a proof still answerable was so all along. */
  lemma {:induction false} CommitStays(h: HashFn, worlds: seq<World>, events: seq<Event>, i: nat, n: nat, k: (string, string))
    requires Run(h, worlds, events) && i <= n < |worlds| && k in worlds[i].commits
    ensures k in worlds[n].commits && worlds[n].commits[k] == worlds[i].commits[k]
    ensures k in worlds[i].posted && k in worlds[n].posted && worlds[n].posted[k] == worlds[i].posted[k]
    ensures Answerable(worlds[n], k) ==> Answerable(worlds[i], k)
    decreases n
  {
    hide Good, Next;
    CommitIsPosted(h, worlds, events, i, k);
    if i < n {
      CommitStays(h, worlds, events, i, n - 1, k);
      RunGood(h, worlds, events, n - 1);
      StepKeepsCommit(h, worlds[n - 1], events[n - 1], worlds[n], k);
    }
  }

  /** A get that has read no row was so before the step, or did not find one. */
  lemma NoRowReadFrom(s: S.State, e: S.Event, s': S.State, c: S.CallId, id: string)
    requires S.Next(s, e, s') && c in s'.calls && s'.calls[c] == S.GetRead(id, None)
    ensures id !in s.rows || (c in s.calls && s.calls[c] == S.GetRead(id, None))
    ensures e == S.SelectRow(c) ==> id !in s.rows
  {
    hide CheckRow, NowText, ListedIds, Collected, ValidClock, UtcExpiry, ValidDateTime, Inserted;
  }

  lemma NoRowReadStep(h: HashFn, w: World, e: Event, w': World, c: S.CallId, id: string)
    requires Next(h, w, e, w') && c in w'.store.calls && w'.store.calls[c] == S.GetRead(id, None)
    ensures id !in w.store.rows || (c in w.store.calls && w.store.calls[c] == S.GetRead(id, None))
    ensures e == Store(S.SelectRow(c)) ==> id !in w.store.rows
  {
    hide S.Next, R.Next, ProofFor, SketchFor, RequestFor, Committable, ContextTask;
    if e.StartCommit? {
      var p := StartFrame(h, w, e, w');
    } else if e.Store? {
      NoRowReadFrom(w.store, e.e, w'.store, c, id);
    }
  }

  /** A get that selects after the commit was recorded does not miss an answerable proof. */
  lemma {:induction false} GetHasRow(
    h: HashFn, worlds: seq<World>, events: seq<Event>, i: nat, n: nat, c: S.CallId, k: (string, string))
    requires Run(h, worlds, events) && i < n < |worlds| && k in worlds[i].commits && Answerable(worlds[n], k)
    requires events[i] == Store(S.SelectRow(c))
    ensures c in worlds[n].store.calls ==> worlds[n].store.calls[c] != S.GetRead(k.1, None)
    decreases n
  {
    hide Good, Next, Answerable, Run;
    var m: nat := n - 1;
    RunBounds(h, worlds, events);
    RunStep(h, worlds, events, m);
    CommitStays(h, worlds, events, i, m, k);
    CommitStays(h, worlds, events, m, n, k);
    AnswerableHasRow(h, worlds, events, m, k);
    if c in worlds[n].store.calls && worlds[n].store.calls[c] == S.GetRead(k.1, None) {
      NoRowReadStep(h, worlds[m], events[m], worlds[n], c, k.1);
      if i < m {
        GetHasRow(h, worlds, events, i, m, c, k);
      }
    }
  }

  lemma RunBounds(h: HashFn, worlds: seq<World>, events: seq<Event>)
    requires Run(h, worlds, events)
    ensures |worlds| == |events| + 1
  {
    hide Next, Init;
  }

  lemma AnswerableHasRow(h: HashFn, worlds: seq<World>, events: seq<Event>, n: nat, k: (string, string))
    requires Run(h, worlds, events) && n < |worlds| && k in worlds[n].commits && Answerable(worlds[n], k)
    ensures k.1 in worlds[n].store.rows
  {
    hide Run, ProofFor, Matches, Committable, BuiltFor;
    CommitsAnswerable(h, worlds, events, n, k);
  }

  /** Step `i` is the SELECT of call `c` for `id`, step `n` the check of what it read. */
  predicate Gets(worlds: seq<World>, events: seq<Event>, i: nat, n: nat, c: S.CallId, id: string) {
    && i < n < |events| && n < |worlds|
    && events[i] == Store(S.SelectRow(c)) && events[n] == Store(S.Check(c))
    && c in worlds[n].store.calls && worlds[n].store.calls[c].GetRead? && worlds[n].store.calls[c].id == id
  }

  /** Whatever runs between its SELECT and its check, a get for a commit returns the proof, if that is still answerable. */
  lemma GetFindsProof(
    h: HashFn, worlds: seq<World>, events: seq<Event>, i: nat, n: nat, c: S.CallId, k: (string, string))
    requires Run(h, worlds, events) && Gets(worlds, events, i, n, c, k.1)
    requires k in worlds[i].commits && Answerable(worlds[n], k)
    ensures |worlds| == |events| + 1 && Committable(worlds[n].posted[k]) && c in worlds[n + 1].store.calls
    ensures worlds[n + 1].store.calls[c] == S.Finished(Got(Found(ProofFor(h, worlds[n].posted[k]))))
  {
    hide Good, Run, Next, ProofFor, Committable, Matches, BuiltFor, S.AfterCheck, UtcRow, ExpiryOf, S.Next;
    RunBounds(h, worlds, events);
    RunStep(h, worlds, events, n);
    RunGood(h, worlds, events, n);
    GetHasRow(h, worlds, events, i, n, c, k);
    CommitStays(h, worlds, events, i, n, k);
    CommitsAnswerable(h, worlds, events, n, k);
    var w := worlds[n];
    var pc := w.store.calls[c];
    var task := w.posted[k];
    GoodCommitFacts(h, w, k);
    ReadRowKept(h, w, k, c);
    ProofRowUtc(h, task);
    CheckFinds(h, w, events[n], worlds[n + 1], c);
  }

  lemma ReadRowKept(h: HashFn, w: World, k: (string, string), c: S.CallId)
    requires GoodCommit(h, w, k) && c in w.store.calls && w.store.calls[c].GetRead? && w.store.calls[c].id == k.1
    requires w.store.calls[c] != S.GetRead(k.1, None)
    ensures Committable(w.posted[k]) && ValidDateTime(ProofFor(h, w.posted[k]).expiresAt)
    ensures w.store.calls[c].row == Some(ToRow(ProofFor(h, w.posted[k])))
  {
    hide ProofFor, ToRow, Committable, ValidDateTime, BuiltFor, Matches, ExpiryOf;
    var pc := w.store.calls[c];
    assert HasRead(pc, k.1, pc.row.value);
  }

  lemma CheckFinds(h: HashFn, w: World, e: Event, w': World, c: S.CallId)
    requires Good(h, w) && Next(h, w, e, w') && e == Store(S.Check(c))
    requires c in w.store.calls && w.store.calls[c].GetRead? && w.store.calls[c].row.Some?
    requires w.store.now <= ExpiryOf(w.store.calls[c].row.value)
    ensures c in w'.store.calls
    ensures w'.store.calls[c] == S.Finished(Got(Found(w.store.calls[c].row.value.proof)))
  {
    hide ExpiryOf, S.AfterCheck, IsoRow, ValidClock, ContextsGood, CommitsGood, IdsUsed, IdsDistinct, SavesOwned;
    var pc := w.store.calls[c];
    assert S.GoodPc(pc, w.store.now);
    S.CheckedPcGood(pc.id, pc.row, w.store.now);
  }

  // ----- End to end -----

  /** A proof naming another system than the one that committed it is refused: there is no such commit. */
  lemma StrayProofRefused(
    h: HashFn, worlds: seq<World>, events: seq<Event>, n: nat, k: (string, string), p: ProofTask)
    requires Run(h, worlds, events) && n < |worlds| && k in worlds[n].commits
    requires p.taskId == k.1 && SystemUri.SystemIdOf(p.systemUri) != k.0
    ensures !Verify.VerifyTask(h, p, ViewOf(worlds[n].commits)).verified
  {
    hide Run, SystemUri.SystemIdOf, HashWithPrefix;
    var l := (SystemUri.SystemIdOf(p.systemUri), p.taskId);
    if l in worlds[n].commits {
      OneCommitPerTask(h, worlds, events, n, k, l);
    }
  }

  /** The proof of a committed task verifies at any moment exactly when the committing system's id holds no slash. */
  lemma CommittedTaskVerifies(h: HashFn, worlds: seq<World>, events: seq<Event>, n: nat, k: (string, string))
    requires Run(h, worlds, events) && n < |worlds| && k in worlds[n].commits
    ensures k in worlds[n].posted && Committable(worlds[n].posted[k])
    ensures
      var p := ProofFor(h, worlds[n].posted[k]);
      var exchange := ViewOf(worlds[n].commits);
      && (Verify.VerifyTask(h, p.task, exchange).verified <==> '/' !in k.0)
      && ('/' !in k.0 ==>
          Verify.ChallengeAndVerify(h, true, Verify.Replied(Verify.DumpProof(p)), exchange, None, None)
          == Verify.Returned(Verify.DumpProof(p), Verify.Verdict(true, Verify.CONFIRMED_MESSAGE),
                             [Verify.Report(k.0, k.1, Verify.AssessedVerified)]))
  {
    hide Matches, ProofFor, Committable, Run, Verify.VerifyTask, Verify.ChallengeAndVerify, Verify.DumpProof, SystemUri.SystemIdOf,
         IsUuidText, ViewOf;
    var w := worlds[n];
    CommitsAnswerable(h, worlds, events, n, k);
    var p := ProofFor(h, w.posted[k]);
    C.ProofIds(h, w.posted[k]);
    if '/' in k.0 {
      StrayProofRefused(h, worlds, events, n, k, p.task);
    } else {
      C.Lookups(w.commits, k.0, k.1);
      C.MatchingProofVerifies(h, p, ViewOf(w.commits));
      Verify.VerifiersAgree(h, p, ViewOf(w.commits));
    }
  }

  /**
   * End to end: a get that selects after the commit and checks while its proof has neither expired nor been
   * deleted returns the proof; and from then on, at every later moment `m`, that proof verifies exactly when the
   * committing system's id holds no slash, and then the other verifier accepts its disclosed form too.
   */
  lemma LiveCommitsVerify(
    h: HashFn, worlds: seq<World>, events: seq<Event>, i: nat, n: nat, m: nat, c: S.CallId, k: (string, string))
    requires Run(h, worlds, events) && Gets(worlds, events, i, n, c, k.1) && n < m < |worlds|
    requires k in worlds[i].commits && Answerable(worlds[n], k)
    ensures c in worlds[n + 1].store.calls && worlds[n + 1].store.calls[c].Finished?
    ensures worlds[n + 1].store.calls[c].outcome.Got? && worlds[n + 1].store.calls[c].outcome.result.Found?
    ensures
      var p := worlds[n + 1].store.calls[c].outcome.result.proof;
      var exchange := ViewOf(worlds[m].commits);
      && (Verify.VerifyTask(h, p.task, exchange).verified <==> '/' !in k.0)
      && ('/' !in k.0 ==>
          Verify.ChallengeAndVerify(h, true, Verify.Replied(Verify.DumpProof(p)), exchange, None, None)
          == Verify.Returned(Verify.DumpProof(p), Verify.Verdict(true, Verify.CONFIRMED_MESSAGE),
                             [Verify.Report(k.0, k.1, Verify.AssessedVerified)]))
  {
    hide Run, Matches, ProofFor, Committable, Verify.VerifyTask, Verify.ChallengeAndVerify, Verify.DumpProof, Answerable;
    GetFindsProof(h, worlds, events, i, n, c, k);
    CommitStays(h, worlds, events, i, n, k);
    CommitStays(h, worlds, events, n, m, k);
    CommittedTaskVerifies(h, worlds, events, m, k);
  }

  // ----- Binding over a whole run -----

  predicate HasTask(w: World, x: ContextId) {
    x in w.contexts && (w.contexts[x].Saving? || w.contexts[x].Sending? || w.contexts[x].Posted?)
  }

  /** This step starts the commit of this task under this system, from what the user supplied. */
  predicate Starts(w: World, e: Event, task: FinishedTask, systemId: string) {
    && e.StartCommit? && e.x in w.contexts && w.contexts[e.x].Running? && task == TaskAt(w, task.taskId, e.answer)
    && systemId == FirstSystem(w.registry.client) && systemId != "" && e.answer.response != ""
  }

  predicate SameTask(a: Context, b: Context)
    requires !a.Running? && !a.Ended? && !b.Running? && !b.Ended?
  {
    a.task == b.task && a.systemId == b.systemId
  }

  lemma StartStep(h: HashFn, w: World, e: Event, w': World, x: ContextId)
    requires Next(h, w, e, w') && HasTask(w', x)
    ensures (HasTask(w, x) && SameTask(w.contexts[x], w'.contexts[x])) || Starts(w, e, w'.contexts[x].task, w'.contexts[x].systemId)
  {
    hide S.Next, R.Next, ProofFor, SketchFor, RequestFor, Committable, AfterPost, IsUuidText, SystemUri.Build, InvocationDict, OutcomeDict;
  }

  /** A context with a task built it from an answer at some earlier step. */
  lemma {:induction false} StartedBefore(h: HashFn, worlds: seq<World>, events: seq<Event>, n: nat, x: ContextId) returns (i: nat)
    requires Run(h, worlds, events) && n < |worlds| && HasTask(worlds[n], x)
    ensures i < n && Starts(worlds[i], events[i], worlds[n].contexts[x].task, worlds[n].contexts[x].systemId)
  {
    hide Next, Starts;
    assert n > 0;
    StartStep(h, worlds[n - 1], events[n - 1], worlds[n], x);
    if HasTask(worlds[n - 1], x) && SameTask(worlds[n - 1].contexts[x], worlds[n].contexts[x]) {
      i := StartedBefore(h, worlds, events, n - 1, x);
    } else {
      i := n - 1;
    }
  }

  /**
   * Every commit comes from one answer of one context: the task behind it holds that answer, made under the first
   * system registered then, and the sketch the Exchange has carries its dependencies, their hash and its
   * classification.
   */
  lemma CommitCarriesAnswer(h: HashFn, worlds: seq<World>, events: seq<Event>, n: nat, k: (string, string)) returns (i: nat)
    requires Run(h, worlds, events) && n < |worlds| && k in worlds[n].commits
    ensures k in worlds[n].posted && i < n && events[i].StartCommit? && k.0 == FirstSystem(worlds[i].registry.client)
    ensures
      var task, answer := worlds[n].posted[k], events[i].answer;
      && answer.response != "" && task.taskId == k.1 && task.dependencies == answer.dependencies && task.classification == Some(answer.classification)
      && task.invocation == InvocationDict(answer.query) && task.outcome == OutcomeDict(answer.response, None)
      && task.systemUri
         == (if answer.config.exchangeUrl != "" then answer.config.exchangeUrl else "http://localhost:8080") + "/systems/" + k.0
      && task.now == worlds[i].store.now && task.ttl == answer.config.ttl
    ensures
      var answer, sketch := events[i].answer, worlds[n].commits[k].sketch;
      && sketch.dependencies == answer.dependencies && FormattableDependencies(answer.dependencies)
      && sketch.dependenciesHash == Some(DependenciesHash(h, Some(answer.dependencies)))
      && sketch.classification == Some(answer.classification)
  {
    hide Run, Matches, ProofFor, Committable, BuiltFor, HashWithPrefix, IsUuidText, WritesProof, ContextTask, InvocationDict, OutcomeDict,
         FormattableDependencies, DependenciesHash;
    var w := worlds[n];
    CommitsAnswerable(h, worlds, events, n, k);
    var task := w.posted[k];
    var saved, j := SavePrecedesCommit(h, worlds, events, n, k);
    RunBounds(h, worlds, events);
    i := StartedBefore(h, worlds, events, j, events[j].x);
    var start, answer := worlds[i], events[i].answer;
    RegisteredFirst(start.registry.client);
    ContextTaskFields(start.registry.client, answer.config, k.1, answer.classification, answer.query, answer.response,
                      answer.dependencies, start.store.now);
    ProofDependencies(h, task);
  }

  lemma RegisteredFirst(c: ClientState)
    requires FirstSystem(c) != ""
    ensures c.registered != [] && c.registered[0].systemId == FirstSystem(c)
  {
  }

  lemma ProofDependencies(h: HashFn, task: FinishedTask)
    requires Committable(task)
    ensures ProofFor(h, task).dependencies == task.dependencies && FormattableDependencies(task.dependencies)
  {
    hide FormattableDependencies;
  }

  /** What was asked and answered, as read from a disclosed proof. */
  predicate AsksAndAnswers(p: ProofTask, query: string, response: string) {
    && Subscript2(p.invocation, "input", "query") == Some(Str(query))
    && Subscript2(p.outcome, "response", "text") == Some(Str(response))
  }

  /**
   * At any moment of any run, whatever dicts a proof accepted for a commit discloses, they equal, up to key order,
   * those of the one task behind that commit: it asks the query and gives the response of the context that
   * started it.
   */
  lemma RunBinds(h: HashFn, worlds: seq<World>, events: seq<Event>, n: nat, k: (string, string), p: ProofTask) returns (i: nat)
    requires Injective(h) && Run(h, worlds, events) && n < |worlds| && k in worlds[n].commits
    requires Verify.TypedTask(p) && SystemUri.SystemIdOf(p.systemUri) == k.0 && p.taskId == k.1
    requires Verify.VerifyTask(h, p, ViewOf(worlds[n].commits)).verified
    ensures k in worlds[n].posted && i < n && events[i].StartCommit?
    ensures
      var task := worlds[n].posted[k];
      && Meaning(p.invocation) == Meaning(task.invocation) && Meaning(p.outcome) == Meaning(task.outcome)
      && task.dependencies == events[i].answer.dependencies
      && AsksAndAnswers(p, events[i].answer.query, events[i].answer.response)
  {
    hide Run, Matches, SketchesProof, ProofFor, Committable, BuiltFor, HashWithPrefix, Meaning, WellFormed, SystemUri.SystemIdOf,
         IsUuidText, ViewOf, Verify.VerifyTask, Subscript2, InvocationDict, OutcomeDict, FormattableDependencies, DependenciesHash;
    var w := worlds[n];
    CommitsAnswerable(h, worlds, events, n, k);
    RunBounds(h, worlds, events);
    i := CommitCarriesAnswer(h, worlds, events, n, k);
    var task, answer := w.posted[k], events[i].answer;
    BuiltDictsWellFormed(answer.query, answer.response, None);
    AcceptedMatches(h, w, k, p);
    ContainerHashDecides(h, p.invocation, task.invocation);
    ContainerHashDecides(h, p.outcome, task.outcome);
    MeaningCarriesContent(p.invocation, p.outcome, answer.query, answer.response);
  }

  /** An accepted proof has the hashes of the posted task. */
  lemma AcceptedMatches(h: HashFn, w: World, k: (string, string), p: ProofTask)
    requires k in w.commits && k in w.posted && Committable(w.posted[k])
    requires Matches(h, ProofFor(h, w.posted[k]), w.commits[k].sketch)
    requires SystemUri.SystemIdOf(p.systemUri) == k.0 && p.taskId == k.1
    requires Verify.VerifyTask(h, p, ViewOf(w.commits)).verified
    ensures HashWithPrefix(h, p.invocation) == HashWithPrefix(h, w.posted[k].invocation)
    ensures HashWithPrefix(h, p.outcome) == HashWithPrefix(h, w.posted[k].outcome)
  {
    hide HashWithPrefix, SystemUri.SystemIdOf, IsUuidText, ViewOf, ProofFor, Committable, FormattableDependencies, DependenciesHash,
         Verify.VerifyTask;
    C.Lookups(w.commits, k.0, k.1);
    C.ProofHashes(h, w.posted[k]);
    Verify.AcceptedExactlyWhenCommitted(h, p, ViewOf(w.commits));
  }

  // ----- A context that counts as committed -----

  /** Its commit is with the Exchange. */
  predicate CommittedIsRecorded(w: World) {
    forall x :: x in w.contexts && w.contexts[x].Posted? && w.contexts[x].committed ==>
      var c := w.contexts[x];
      var k := (c.systemId, c.task.taskId);
      k in w.commits && k in w.posted && w.posted[k] == c.task
  }

  lemma NextKeepsRecorded(h: HashFn, w: World, e: Event, w': World)
    requires Good(h, w) && Next(h, w, e, w') && CommittedIsRecorded(w)
    ensures CommittedIsRecorded(w')
  {
    hide Good, S.Next, R.Next, ProofFor, SketchFor, RequestFor, Committable, ContextTask, GoodCommit, Uncommitted, IsUuidText;
    forall x | x in w'.contexts && w'.contexts[x].Posted? && w'.contexts[x].committed
      ensures
        var c := w'.contexts[x];
        var k := (c.systemId, c.task.taskId);
        k in w'.commits && k in w'.posted && w'.posted[k] == c.task
    {
      var k := (w'.contexts[x].systemId, w'.contexts[x].task.taskId);
      if e.Post? && e.x == x {
        PostedGood(h, w, e, w');
      } else {
        KeepsPosted(h, w, e, w', x);
        StepKeepsCommit(h, w, e, w', k);
      }
    }
  }

  lemma KeepsPosted(h: HashFn, w: World, e: Event, w': World, x: ContextId)
    requires Next(h, w, e, w') && x in w'.contexts && w'.contexts[x].Posted? && !(e.Post? && e.x == x)
    ensures x in w.contexts && w.contexts[x] == w'.contexts[x]
  {
    hide S.Next, R.Next, ProofFor, SketchFor, RequestFor, Committable, ContextTask, IsUuidText, AfterPost;
  }

  /** In every run, a context whose commit flag is set has its commit recorded, made from its own task. */
  lemma {:induction false} FlagMeansRecorded(h: HashFn, worlds: seq<World>, events: seq<Event>, n: nat)
    requires Run(h, worlds, events) && n < |worlds|
    ensures CommittedIsRecorded(worlds[n])
  {
    hide Next, Good;
    if n > 0 {
      FlagMeansRecorded(h, worlds, events, n - 1);
      RunGood(h, worlds, events, n - 1);
      NextKeepsRecorded(h, worlds[n - 1], events[n - 1], worlds[n]);
    }
  }

  // ----- A context can always commit -----

  function HonestEvents(x: ContextId, id: string, call: S.CallId, a: Answer): seq<Event> {
    [Enter(x, id), StartCommit(x, call, a), Store(S.Insert(call, true)), SaveReturned(x), Post(x, Acknowledged)]
  }

  /** One context entering, saving and posting, with nothing in between and nothing failing. */
  function HonestWorlds(h: HashFn, w: World, x: ContextId, id: string, call: S.CallId, a: Answer): seq<World>
    requires Committable(TaskAt(w, id, a)) && ValidDateTime(ProofFor(h, TaskAt(w, id, a)).expiresAt)
  {
    var task := TaskAt(w, id, a);
    var p := ProofFor(h, task);
    var system := FirstSystem(w.registry.client);
    var request := RequestFor(h, w.registry.client, system, id, SketchFor(h, task));
    var w1 := With(w.(used := w.used + {id}), x, Running(id));
    var w2 := With(w1.(store := S.Goto(w1.store, call, S.SaveReady(p)), savers := w1.savers[call := x]), x, Saving(task, system, call));
    var w3 := w2.(store := S.Goto(w2.store.(rows := Inserted(w2.store.rows, p)), call, S.Finished(Done)), deleted := w2.deleted - {id});
    var w4 := With(w3, x, Sending(task, system, request));
    var w5 := With(w4.(commits := AfterPost(w4.commits, request, Acknowledged), posted := w4.posted[(system, id) := task]),
                   x, Posted(task, system, true));
    [w, w1, w2, w3, w4, w5]
  }

  lemma HonestFacts(h: HashFn, w: World, id: string, a: Answer)
    requires FirstSystem(w.registry.client) != "" && Committable(TaskAt(w, id, a))
    ensures
      var task := TaskAt(w, id, a);
      var request := RequestFor(h, w.registry.client, FirstSystem(w.registry.client), id, SketchFor(h, task));
      && task.taskId == id && request.systemId == FirstSystem(w.registry.client) && request.taskId == id
      && ValidDateTime(ProofFor(h, task).expiresAt) && ProofFor(h, task).task.taskId == id
  {
    hide ProofFor, SketchFor, RequestFor, Committable, TaskAt, ValidDateTime, UtcRow, BuiltFor;
    TaskAtBuilt(w, id, a);
    ProofRowUtc(h, TaskAt(w, id, a));
    C.ProofIds(h, TaskAt(w, id, a));
    RequestIds(h, w.registry.client, FirstSystem(w.registry.client), TaskAt(w, id, a));
  }

  lemma HonestStart(h: HashFn, w: World, x: ContextId, id: string, call: S.CallId, a: Answer, i: nat)
    requires !In(w, x) && id !in w.used && IsUuidText(id) && call !in w.store.calls
    requires a.response != "" && FirstSystem(w.registry.client) != "" && Committable(TaskAt(w, id, a))
    requires i < 2 && ValidDateTime(ProofFor(h, TaskAt(w, id, a)).expiresAt)
    ensures Next(h, HonestWorlds(h, w, x, id, call, a)[i], HonestEvents(x, id, call, a)[i], HonestWorlds(h, w, x, id, call, a)[i + 1])
  {
    hide ProofFor, SketchFor, RequestFor, Committable, ContextTask, ValidDateTime, IsUuidText, ToRow;
    HonestFacts(h, w, id, a);
  }

  lemma HonestInsert(h: HashFn, w: World, x: ContextId, id: string, call: S.CallId, a: Answer)
    requires !In(w, x) && id !in w.used && IsUuidText(id) && call !in w.store.calls
    requires a.response != "" && FirstSystem(w.registry.client) != "" && Committable(TaskAt(w, id, a))
    requires ValidDateTime(ProofFor(h, TaskAt(w, id, a)).expiresAt)
    ensures Next(h, HonestWorlds(h, w, x, id, call, a)[2], HonestEvents(x, id, call, a)[2], HonestWorlds(h, w, x, id, call, a)[3])
  {
    hide ProofFor, SketchFor, RequestFor, Committable, ContextTask, ValidDateTime, IsUuidText, ToRow, R.Next;
    HonestFacts(h, w, id, a);
    var w2 := HonestWorlds(h, w, x, id, call, a)[2];
    assert w2.deleted - {id} + {} == w2.deleted - {id};
  }

  lemma HonestPost(h: HashFn, w: World, x: ContextId, id: string, call: S.CallId, a: Answer, i: nat)
    requires !In(w, x) && id !in w.used && IsUuidText(id) && call !in w.store.calls
    requires a.response != "" && FirstSystem(w.registry.client) != "" && Committable(TaskAt(w, id, a))
    requires 3 <= i < 5 && ValidDateTime(ProofFor(h, TaskAt(w, id, a)).expiresAt)
    ensures Next(h, HonestWorlds(h, w, x, id, call, a)[i], HonestEvents(x, id, call, a)[i], HonestWorlds(h, w, x, id, call, a)[i + 1])
  {
    hide ProofFor, SketchFor, RequestFor, Committable, ContextTask, ValidDateTime, IsUuidText, ToRow;
    HonestFacts(h, w, id, a);
  }

  /** From any state at all, with a system registered, a new context that answers can run to a recorded commit. */
  lemma HonestContextCanCommit(h: HashFn, w: World, x: ContextId, id: string, call: S.CallId, a: Answer)
    requires !In(w, x) && id !in w.used && IsUuidText(id) && call !in w.store.calls
    requires a.response != "" && FirstSystem(w.registry.client) != "" && Committable(TaskAt(w, id, a))
    ensures ValidDateTime(ProofFor(h, TaskAt(w, id, a)).expiresAt)
    ensures
      var worlds, events := HonestWorlds(h, w, x, id, call, a), HonestEvents(x, id, call, a);
      && (forall i :: 0 <= i < |events| ==> Next(h, worlds[i], events[i], worlds[i + 1]))
      && (Init(w) ==> Run(h, worlds, events))
      && worlds[5].commits.Keys == w.commits.Keys + {(FirstSystem(w.registry.client), id)}
      && worlds[5].store.rows.Keys == w.store.rows.Keys + {id}
      && worlds[5].contexts[x] == Posted(TaskAt(w, id, a), FirstSystem(w.registry.client), true)
  {
    hide ProofFor, SketchFor, RequestFor, Committable, ContextTask, ValidDateTime, IsUuidText, ToRow, Init, Next;
    HonestFacts(h, w, id, a);
    forall i | 0 <= i < 5
      ensures Next(h, HonestWorlds(h, w, x, id, call, a)[i], HonestEvents(x, id, call, a)[i], HonestWorlds(h, w, x, id, call, a)[i + 1])
    {
      if i < 2 {
        HonestStart(h, w, x, id, call, a, i);
      } else if i == 2 {
        HonestInsert(h, w, x, id, call, a);
      } else {
        HonestPost(h, w, x, id, call, a, i);
      }
    }
  }
}
