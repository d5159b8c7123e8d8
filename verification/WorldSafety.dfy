/** What every step of an agent keeps: the proof behind each commit stays until it expires or is deleted. */
module WorldSafety {
  import opened Timestamp
  import opened ProofModel
  import opened ProofStore
  import opened Hashing
  import opened Client
  import opened Commits
  import opened Exchange
  import opened SqliteStore
  import opened World
  import R = Registrations
  import Safe = SqliteSafety
  import S = SqliteInterleaving
  import Uuid

  // ----- A kept row stays kept -----

  lemma RemovedRowExplained(s: S.State, e: S.Event, s': S.State, id: string)
    requires S.Good(s) && S.Next(s, e, s') && id in s.rows && id !in s'.rows && UtcRow(s.rows[id])
    ensures id in DeletedBy(s, e) || ExpiryOf(s.rows[id]) < s.now
            || (e.DeleteExpired? && S.At(s, e.c) && s.calls[e.c].GetDeleting? && s.calls[e.c].id == id
                && ExpiryOf(s.calls[e.c].expired) < s.now)
  {
    hide S.Good, S.Next, ExpiryOf, IsoFormat;
    if s.now <= ExpiryOf(s.rows[id]) {
      Safe.LiveRowRemovers(s, e, s', id);
    }
  }

  lemma TimeGoesOn(s: S.State, e: S.Event, s': S.State)
    requires S.Next(s, e, s')
    ensures s.now <= s'.now
  {
    hide CheckRow, NowText, ListedIds, Collected, ValidClock, UtcExpiry, ValidDateTime, Inserted, S.AfterCheck;
  }

  /** The only row ever seen for an id stays until it expires or is deleted on request. */
  lemma StepKeepsKept(s: S.State, e: S.Event, s': S.State, id: string, row: Row, deleted: bool)
    requires S.Good(s) && S.Next(s, e, s') && Kept(s, id, row, deleted) && UtcRow(row) && !SavesId(s, e, id)
    ensures Kept(s', id, row, deleted || id in DeletedBy(s, e))
  {
    hide S.Good, S.Next, ExpiryOf, HasRead, DeletedBy, UtcRow, SavesId;
    TimeGoesOn(s, e, s');
    if id in s'.rows {
      RowsFrom(s, e, s', id);
    } else if id in s.rows {
      RemovedRowExplained(s, e, s', id);
      if e.DeleteExpired? && S.At(s, e.c) && s.calls[e.c].GetDeleting? && s.calls[e.c].id == id {
        DeletingHasRead(s.calls[e.c]);
      }
    }
    forall c, r | c in s'.calls && HasRead(s'.calls[c], id, r)
      ensures r == row
    {
      ReadFrom(s, e, s', c, id, r);
    }
  }

  lemma DeletingHasRead(pc: S.Pc)
    requires pc.GetDeleting?
    ensures HasRead(pc, pc.id, pc.expired)
  {
  }

  /** The save of an unseen id makes its row the only one. */
  lemma SaveKeeps(s: S.State, e: S.Event, s': S.State, id: string)
    requires S.Next(s, e, s') && Unseen(s, id) && SavesId(s, e, id)
    ensures ValidDateTime(s.calls[e.c].proof.expiresAt)
    ensures forall deleted: bool :: Kept(s', id, ToRow(s.calls[e.c].proof), deleted)
    ensures s'.calls == s.calls[e.c := S.Ending(e.closed, Done)]
  {
    hide CheckRow, NowText, ListedIds, Collected, ValidClock, UtcExpiry, ValidDateTime, ToRow, ExpiryOf, S.AfterCheck;
  }

  // ----- The invariant -----

  /** No commit under this task id. */
  ghost predicate Uncommitted(w: World, id: string) {
    forall k :: k in w.commits ==> k.1 != id
  }

  ghost predicate KeptProof(h: HashFn, w: World, task: FinishedTask)
    requires Committable(task)
  {
    && ValidDateTime(ProofFor(h, task).expiresAt)
    && Kept(w.store, task.taskId, ToRow(ProofFor(h, task)), task.taskId in w.deleted)
  }

  /** The save call of a context is pending with its proof, done, or failed. */
  ghost predicate GoodSave(h: HashFn, w: World, x: ContextId, c: Context)
    requires c.Saving? && Committable(c.task)
  {
    && c.call in w.store.calls && c.call in w.savers && w.savers[c.call] == x
    && (if w.store.calls[c.call] == S.Finished(Done) then KeptProof(h, w, c.task)
        else if w.store.calls[c.call].Finished? then true
        else w.store.calls[c.call] == S.SaveReady(ProofFor(h, c.task)) && Unseen(w.store, c.task.taskId))
  }

  ghost predicate GoodContext(h: HashFn, w: World, x: ContextId, c: Context) {
    match c
    case Running(id) => Unseen(w.store, id) && Uncommitted(w, id)
    case Saving(task, systemId, _) =>
      Committable(task) && BuiltFor(task, systemId) && Uncommitted(w, task.taskId) && GoodSave(h, w, x, c)
    case Sending(task, systemId, request) =>
      && Committable(task) && BuiltFor(task, systemId) && Uncommitted(w, task.taskId) && KeptProof(h, w, task)
      && request.systemId == systemId && request.taskId == task.taskId && TruthfulSketch(h, task, request.sketch)
    case Posted(_, _, _) => true
    case Ended(_) => true
  }

  /** A save in flight belongs to the context that waits for it. */
  predicate OwnedSave(w: World, c: S.CallId) {
    c in w.savers && w.savers[c] in w.contexts && w.contexts[w.savers[c]].Saving? && w.contexts[w.savers[c]].call == c
  }

  /** A commit tells the truth about the proof of the task it was made from, and that proof is kept. */
  ghost predicate GoodCommit(h: HashFn, w: World, k: (string, string)) {
    && k in w.commits && k in w.posted
    && var task := w.posted[k];
    && task.taskId == k.1 && Committable(task) && BuiltFor(task, k.0)
    && w.commits[k].status.Confirmed? && TruthfulSketch(h, task, w.commits[k].sketch)
    && KeptProof(h, w, task)
  }

  /** Every id in sight has been drawn. */
  ghost predicate IdsUsed(w: World) {
    && w.store.rows.Keys <= w.used
    && (forall c, id, row :: c in w.store.calls && HasRead(w.store.calls[c], id, row) ==> id in w.used)
    && (forall k :: k in w.commits ==> k.1 in w.used)
    && (forall x :: x in w.contexts ==> IdOf(w.contexts[x]) in w.used)
  }

  /** No two contexts share a task id, and no two commits do. */
  ghost predicate IdsDistinct(w: World) {
    && (forall x, y :: x in w.contexts && y in w.contexts && x != y ==> IdOf(w.contexts[x]) != IdOf(w.contexts[y]))
    && (forall k, l :: k in w.commits && l in w.commits && k != l ==> k.1 != l.1)
  }

  ghost predicate SavesOwned(w: World) {
    forall c :: c in w.store.calls && w.store.calls[c].SaveReady? ==> OwnedSave(w, c)
  }

  ghost predicate CommitsGood(h: HashFn, w: World) {
    forall k :: k in w.commits ==> GoodCommit(h, w, k)
  }

  ghost predicate ContextsGood(h: HashFn, w: World) {
    forall x :: x in w.contexts ==> GoodContext(h, w, x, w.contexts[x])
  }

  ghost predicate Good(h: HashFn, w: World) {
    S.Good(w.store) && IdsUsed(w) && IdsDistinct(w) && SavesOwned(w) && CommitsGood(h, w) && ContextsGood(h, w)
  }

  lemma InitGood(h: HashFn, w: World)
    requires Init(w)
    ensures Good(h, w)
  {
    hide S.Good, GoodContext, GoodCommit;
  }

  // ----- Store steps -----

  /** A pending save stays pending, is done by its INSERT, or fails; a finished call stays finished. */
  lemma SaveCallMoves(s: S.State, e: S.Event, s': S.State, c: S.CallId)
    requires S.Next(s, e, s') && c in s.calls && (s.calls[c].SaveReady? || s.calls[c].Finished?)
    ensures c in s'.calls
    ensures s.calls[c].Finished? ==> s'.calls[c] == s.calls[c]
    ensures s.calls[c].SaveReady? && !(e.Insert? && e.c == c) ==>
              s'.calls[c] == s.calls[c] || s'.calls[c] == S.Finished(Got(StorageError))
    ensures e.Insert? && e.c == c ==> s.calls[c].SaveReady? && s'.calls[c] == S.Ending(e.closed, Done)
  {
    hide CheckRow, NowText, ListedIds, Collected, ValidClock, UtcExpiry, ValidDateTime, Inserted, S.AfterCheck;
  }

  lemma SaveReadyFrom(s: S.State, e: S.Event, s': S.State, c: S.CallId)
    requires S.Next(s, e, s') && c in s'.calls && s'.calls[c].SaveReady?
    ensures (c in s.calls && s.calls[c] == s'.calls[c]) || (e.Begin? && e.c == c && e.op == Save(s'.calls[c].proof))
  {
    hide CheckRow, NowText, ListedIds, Collected, ValidClock, UtcExpiry, ValidDateTime, Inserted;
  }

  lemma StoreFrame(h: HashFn, w: World, e: S.Event, w': World)
    requires Next(h, w, Store(e), w')
    ensures S.Next(w.store, e, w'.store)
    ensures w'.commits == w.commits && w'.contexts == w.contexts && w'.savers == w.savers && w'.posted == w.posted
    ensures w'.used == w.used
    ensures w'.deleted == w.deleted - SavedBy(w.store, e) + DeletedBy(w.store, e)
    ensures !(e.Begin? && e.op.Save?)
  {
    hide S.Next;
  }

  /** A row is written only by the context that waits for the save. */
  lemma SaverContext(h: HashFn, w: World, e: S.Event, id: string)
    requires Good(h, w) && SavesId(w.store, e, id)
    ensures e.Insert? && OwnedSave(w, e.c)
    ensures
      var c := w.contexts[w.savers[e.c]];
      && c.task.taskId == id && Committable(c.task) && Uncommitted(w, id) && Unseen(w.store, id) && id in w.used
      && e.c in w.store.calls && w.store.calls[e.c] == S.SaveReady(ProofFor(h, c.task))
  {
    hide S.Good, Kept, Unseen, BuiltFor, HasRead, TruthfulSketch, KeptProof, Committable, CommitsGood, Uncommitted, IdsDistinct;
    assert OwnedSave(w, e.c);
    var x := w.savers[e.c];
    assert GoodContext(h, w, x, w.contexts[x]);
  }

  /** So it is never a committed task's row, and another context's row only if it is that context's own save. */
  lemma OnlyOwnerSaves(h: HashFn, w: World, e: S.Event, id: string)
    requires Good(h, w) && SavesId(w.store, e, id)
    ensures forall k :: k in w.commits ==> k.1 != id
    ensures forall x :: x in w.contexts && IdOf(w.contexts[x]) == id ==> w.contexts[x].Saving? && w.contexts[x].call == e.c
  {
    hide S.Good, ContextsGood, CommitsGood, Unseen, Committable, ProofFor, SavesId, SavesOwned, IdsUsed;
    SaverContext(h, w, e, id);
  }

  lemma ProofRowUtc(h: HashFn, task: FinishedTask)
    requires Committable(task)
    ensures ValidDateTime(ProofFor(h, task).expiresAt) && UtcRow(ToRow(ProofFor(h, task)))
    ensures ExpiryOf(ToRow(ProofFor(h, task))) == task.now + task.ttl
  {
    hide ProofFor, Committable, IsoFormat, Instant;
    ExpiryOfProof(h, task);
  }

  lemma StoreKeepsProof(h: HashFn, w: World, e: S.Event, w': World, task: FinishedTask)
    requires S.Good(w.store) && Next(h, w, Store(e), w') && Committable(task) && KeptProof(h, w, task)
    requires !SavesId(w.store, e, task.taskId)
    ensures KeptProof(h, w', task)
  {
    hide Next, S.Next, S.Good, Kept, ProofFor, DeletedBy, ToRow, Committable, ValidDateTime, UtcRow, ExpiryOf;
    StoreFrame(h, w, e, w');
    ProofRowUtc(h, task);
    StepKeepsKept(w.store, e, w'.store, task.taskId, ToRow(ProofFor(h, task)), task.taskId in w.deleted);
    assert task.taskId in w'.deleted <==> task.taskId in w.deleted || task.taskId in DeletedBy(w.store, e);
  }

  /** The INSERT of a context's own save makes its proof the kept one, whatever was deleted before. */
  lemma OwnInsert(h: HashFn, w: World, e: S.Event, w': World, x: ContextId)
    requires Good(h, w) && Next(h, w, Store(e), w') && x in w.contexts && w.contexts[x].Saving?
    requires SavesId(w.store, e, w.contexts[x].task.taskId)
    ensures Committable(w.contexts[x].task) && KeptProof(h, w', w.contexts[x].task)
    ensures w.contexts[x].call in w'.store.calls && w'.store.calls[w.contexts[x].call].Finished?
  {
    hide S.Next, S.Good, Kept, Unseen, ProofFor, ToRow, Committable, ValidDateTime, Good, Next, SavesId, Uncommitted;
    var id := w.contexts[x].task.taskId;
    StoreFrame(h, w, e, w');
    OnlyOwnerSaves(h, w, e, id);
    SaverContext(h, w, e, id);
    ContextGood(h, w, x);
    OwnContext(h, w, x, w.contexts[x]);
    SaveKeeps(w.store, e, w'.store, id);
  }

  lemma OwnContext(h: HashFn, w: World, x: ContextId, c: Context)
    requires GoodContext(h, w, x, c) && c.Saving?
    ensures c.call in w.savers && w.savers[c.call] == x
  {
    hide Kept, Unseen, ProofFor, Committable, BuiltFor, KeptProof, Uncommitted;
  }

  lemma ContextGood(h: HashFn, w: World, x: ContextId)
    requires Good(h, w) && x in w.contexts
    ensures GoodContext(h, w, x, w.contexts[x]) && S.Good(w.store)
  {
    hide GoodContext, S.Good, CommitsGood, IdsUsed, IdsDistinct, SavesOwned;
  }

  /** A waiting context sees its save done, failed or still pending. */
  lemma StoreKeepsSaving(h: HashFn, w: World, e: S.Event, w': World, x: ContextId)
    requires Good(h, w) && Next(h, w, Store(e), w') && x in w.contexts && w.contexts[x].Saving?
    ensures GoodContext(h, w', x, w.contexts[x])
  {
    hide S.Next, S.Good, Kept, Unseen, ProofFor, DeletedBy, ToRow, Committable, ValidDateTime, BuiltFor, Good, Next, SavesId, KeptProof;
    var c := w.contexts[x];
    ContextGood(h, w, x);
    StoreFrame(h, w, e, w');
    if SavesId(w.store, e, c.task.taskId) {
      OwnInsert(h, w, e, w', x);
    } else {
      SaveCallMoves(w.store, e, w'.store, c.call);
      if w.store.calls[c.call] == S.Finished(Done) {
        StoreKeepsProof(h, w, e, w', c.task);
      } else if w.store.calls[c.call].SaveReady? {
        NotItsInsert(h, w, e, c);
        StepKeepsUnseen(w.store, e, w'.store, c.task.taskId);
      }
    }
  }

  lemma NotItsInsert(h: HashFn, w: World, e: S.Event, c: Context)
    requires c.Saving? && Committable(c.task) && c.call in w.store.calls
    requires w.store.calls[c.call] == S.SaveReady(ProofFor(h, c.task)) && !SavesId(w.store, e, c.task.taskId)
    ensures !(e.Insert? && e.c == c.call)
  {
    hide Committable;
  }

  lemma StoreKeepsContext(h: HashFn, w: World, e: S.Event, w': World, x: ContextId)
    requires Good(h, w) && Next(h, w, Store(e), w') && x in w.contexts
    ensures GoodContext(h, w', x, w.contexts[x])
  {
    hide S.Next, S.Good, Kept, Unseen, ProofFor, DeletedBy, ToRow, Committable, ValidDateTime, BuiltFor, TruthfulSketch,
         KeptProof, Good, Next, GoodSave, SavesId;
    var c := w.contexts[x];
    if c.Saving? {
      StoreKeepsSaving(h, w, e, w', x);
    } else {
      ContextGood(h, w, x);
      StoreFrame(h, w, e, w');
      if SavesId(w.store, e, IdOf(c)) {
        OnlyOwnerSaves(h, w, e, IdOf(c));
      }
      match c
      case Running(id) => StepKeepsUnseen(w.store, e, w'.store, id);
      case Sending(task, _, _) => StoreKeepsProof(h, w, e, w', task);
      case _ =>
    }
  }

  lemma StoreKeepsCommit(h: HashFn, w: World, e: S.Event, w': World, k: (string, string))
    requires Good(h, w) && Next(h, w, Store(e), w') && k in w.commits
    ensures GoodCommit(h, w', k)
  {
    hide S.Next, S.Good, Next, SavesId, KeptProof, ProofFor, Committable, BuiltFor, TruthfulSketch, ContextsGood, IdsUsed, SavesOwned, IdsDistinct;
    StoreFrame(h, w, e, w');
    assert GoodCommit(h, w, k);
    if SavesId(w.store, e, k.1) {
      OnlyOwnerSaves(h, w, e, k.1);
    }
    StoreKeepsProof(h, w, e, w', w.posted[k]);
  }

  lemma StoreKeepsIds(h: HashFn, w: World, e: S.Event, w': World)
    requires Good(h, w) && Next(h, w, Store(e), w')
    ensures IdsUsed(w') && IdsDistinct(w') && SavesOwned(w')
  {
    hide Next, S.Next, S.Good, HasRead, CommitsGood, ContextsGood, SavesId, OwnedSave;
    StoreFrame(h, w, e, w');
    forall id | id in w'.store.rows
      ensures id in w'.used
    {
      if SavesId(w.store, e, id) {
        SaverContext(h, w, e, id);
      } else {
        RowsFrom(w.store, e, w'.store, id);
      }
    }
    forall c, id, row | c in w'.store.calls && HasRead(w'.store.calls[c], id, row)
      ensures id in w'.used
    {
      ReadFrom(w.store, e, w'.store, c, id, row);
    }
    forall c | c in w'.store.calls && w'.store.calls[c].SaveReady?
      ensures OwnedSave(w', c)
    {
      SaveReadyFrom(w.store, e, w'.store, c);
      OwnedFrame(w, w', c);
    }
  }

  lemma OwnedFrame(w: World, w': World, c: S.CallId)
    requires OwnedSave(w, c) && w'.savers == w.savers && w'.contexts == w.contexts
    ensures OwnedSave(w', c)
  {
  }

  lemma StoreKeepsGood(h: HashFn, w: World, e: S.Event, w': World)
    requires Good(h, w) && Next(h, w, Store(e), w')
    ensures Good(h, w')
  {
    hide Next, S.Next, S.Good, GoodContext, GoodCommit, IdsUsed, IdsDistinct, SavesOwned;
    StoreFrame(h, w, e, w');
    StoreKeepsIds(h, w, e, w');
    S.NextKeepsGood(w.store, e, w'.store);
    forall x | x in w'.contexts
      ensures GoodContext(h, w', x, w'.contexts[x])
    {
      StoreKeepsContext(h, w, e, w', x);
    }
    forall k | k in w'.commits
      ensures GoodCommit(h, w', k)
    {
      StoreKeepsCommit(h, w, e, w', k);
    }
  }

  // ----- Context steps -----

  /** A context that keeps its store, its deletions, its save call and its lack of commits stays good. */
  lemma ContextFrame(h: HashFn, w: World, w': World, x: ContextId, c: Context)
    requires GoodContext(h, w, x, c)
    requires w'.store == w.store && w'.deleted == w.deleted
    requires forall call :: call in w.savers ==> call in w'.savers && w'.savers[call] == w.savers[call]
    requires Uncommitted(w, IdOf(c)) ==> Uncommitted(w', IdOf(c))
    ensures GoodContext(h, w', x, c)
  {
    hide Kept, Unseen, ProofFor, ToRow, Committable, ValidDateTime, BuiltFor, TruthfulSketch, Uncommitted;
  }

  lemma CommitFrame(h: HashFn, w: World, w': World, k: (string, string))
    requires GoodCommit(h, w, k)
    requires k in w'.commits && w'.commits[k] == w.commits[k] && k in w'.posted && w'.posted[k] == w.posted[k]
    requires w'.store == w.store && w'.deleted == w.deleted
    ensures GoodCommit(h, w', k)
  {
    hide Kept, ProofFor, ToRow, Committable, ValidDateTime, BuiltFor, TruthfulSketch;
  }

  lemma CommitsFrame(h: HashFn, w: World, w': World)
    requires CommitsGood(h, w)
    requires w'.commits == w.commits && w'.posted == w.posted && w'.store == w.store && w'.deleted == w.deleted
    ensures CommitsGood(h, w')
  {
    hide GoodCommit;
    forall k | k in w'.commits
      ensures GoodCommit(h, w', k)
    {
      CommitPosted(h, w, k);
      CommitFrame(h, w, w', k);
    }
  }

  lemma CommitPosted(h: HashFn, w: World, k: (string, string))
    requires GoodCommit(h, w, k)
    ensures k in w.commits && k in w.posted && w.posted[k].taskId == k.1
  {
    hide KeptProof, ProofFor, Committable, BuiltFor, TruthfulSketch;
  }

  /** Contexts whose surroundings stay the same. */
  lemma ContextsFrame(h: HashFn, w: World, w': World, x: ContextId)
    requires ContextsGood(h, w)
    requires w'.store == w.store && w'.deleted == w.deleted && w'.savers == w.savers && w'.commits == w.commits
    requires forall y :: y in w'.contexts && y != x ==> y in w.contexts && w'.contexts[y] == w.contexts[y]
    ensures forall y :: y in w'.contexts && y != x ==> GoodContext(h, w', y, w'.contexts[y])
  {
    hide GoodContext;
    forall y | y in w'.contexts && y != x
      ensures GoodContext(h, w', y, w'.contexts[y])
    {
      ContextFrame(h, w, w', y, w.contexts[y]);
    }
  }

  /** Replacing a context that waits for no save by one with the same id. */
  lemma ReplaceKeepsGood(h: HashFn, w: World, w': World, x: ContextId, c: Context)
    requires Good(h, w) && x in w.contexts && w' == With(w, x, c) && IdOf(c) == IdOf(w.contexts[x])
    requires w.contexts[x].Saving? ==> w.contexts[x].call in w.store.calls && w.store.calls[w.contexts[x].call].Finished?
    requires GoodContext(h, w', x, c)
    ensures Good(h, w')
  {
    hide S.Good, HasRead, GoodContext, GoodCommit, CommitsGood;
    CommitsFrame(h, w, w');
    ContextsFrame(h, w, w', x);
    forall d | d in w'.store.calls && w'.store.calls[d].SaveReady?
      ensures OwnedSave(w', d)
    {
      assert OwnedSave(w, d);
    }
  }

  lemma LeaveKeepsGood(h: HashFn, w: World, e: Event, w': World)
    requires Good(h, w) && e.Leave? && Next(h, w, e, w')
    ensures Good(h, w')
  {
    hide Good, GoodContext;
    EndedGood(h, w', e.x, w'.contexts[e.x]);
    ReplaceKeepsGood(h, w, w', e.x, w'.contexts[e.x]);
  }

  lemma EndedGood(h: HashFn, w: World, x: ContextId, c: Context)
    requires c.Ended? || c.Posted?
    ensures GoodContext(h, w, x, c)
  {
  }

  /** A finished save moves its context on with everything it needs to post. */
  lemma SendingGood(h: HashFn, w: World, e: Event, w': World)
    requires Good(h, w) && e.SaveReturned? && Next(h, w, e, w')
    ensures GoodContext(h, w', e.x, w'.contexts[e.x])
  {
    hide S.Good, Kept, Unseen, ProofFor, SketchFor, RequestFor, ToRow, Committable, ValidDateTime, BuiltFor, TruthfulSketch, Good;
    var c := w.contexts[e.x];
    ContextGood(h, w, e.x);
    SentIsTruthful(h, c.task, w.registry.client, c.systemId);
    RequestIds(h, w.registry.client, c.systemId, c.task);
  }

  lemma RequestIds(h: HashFn, client: ClientState, systemId: string, task: FinishedTask)
    requires Committable(task)
    ensures
      var r := RequestFor(h, client, systemId, task.taskId, SketchFor(h, task));
      r.systemId == systemId && r.taskId == task.taskId
  {
    hide ProofFor, SketchFor, Committable;
  }

  lemma SaveReturnedKeepsGood(h: HashFn, w: World, e: Event, w': World)
    requires Good(h, w) && e.SaveReturned? && Next(h, w, e, w')
    ensures Good(h, w')
  {
    hide Good, GoodContext, Committable, RequestFor, SketchFor;
    SendingGood(h, w, e, w');
    ReplaceKeepsGood(h, w, w', e.x, w'.contexts[e.x]);
  }

  lemma EnterKeepsIds(h: HashFn, w: World, e: Event, w': World)
    requires Good(h, w) && e.Enter? && Next(h, w, e, w')
    ensures IdsUsed(w') && IdsDistinct(w') && SavesOwned(w')
  {
    hide S.Good, HasRead, CommitsGood, ContextsGood, Uuid.IsUuidText;
    forall d | d in w'.store.calls && w'.store.calls[d].SaveReady?
      ensures OwnedSave(w', d)
    {
      assert OwnedSave(w, d);
    }
  }

  lemma EnterKeepsGood(h: HashFn, w: World, e: Event, w': World)
    requires Good(h, w) && e.Enter? && Next(h, w, e, w')
    ensures Good(h, w')
  {
    hide S.Good, GoodContext, GoodCommit, CommitsGood, IdsUsed, IdsDistinct, SavesOwned, Uuid.IsUuidText;
    EnterKeepsIds(h, w, e, w');
    FreshIdUnseen(w, e.id);
    RunningGood(h, w', e.x, e.id);
    CommitsFrame(h, w, w');
    ContextsFrame(h, w, w', e.x);
  }

  lemma FreshIdUnseen(w: World, id: string)
    requires IdsUsed(w) && id !in w.used
    ensures Unseen(w.store, id) && Uncommitted(w, id)
  {
    hide HasRead;
  }

  lemma RunningGood(h: HashFn, w: World, x: ContextId, id: string)
    requires Unseen(w.store, id) && Uncommitted(w, id)
    ensures GoodContext(h, w, x, Running(id))
  {
  }

  lemma RegisteringKeepsGood(h: HashFn, w: World, e: Event, w': World)
    requires Good(h, w) && e.Registering? && Next(h, w, e, w')
    ensures Good(h, w')
  {
    hide S.Good, HasRead, GoodContext, GoodCommit, CommitsGood, R.Next, OwnedSave;
    CommitsFrame(h, w, w');
    forall x | x in w'.contexts
      ensures GoodContext(h, w', x, w'.contexts[x])
    {
      ContextFrame(h, w, w', x, w.contexts[x]);
    }
    forall d | d in w'.store.calls && w'.store.calls[d].SaveReady?
      ensures OwnedSave(w', d)
    {
      OwnedFrame(w, w', d);
    }
  }

  /** The file and the Exchange outlive the process; nothing else does. */
  lemma RestartKeepsGood(h: HashFn, w: World, e: Event, w': World)
    requires Good(h, w) && e.Restart? && Next(h, w, e, w')
    ensures Good(h, w')
  {
    hide IsoRows, GoodContext, GoodCommit, ValidClock;
    forall k | k in w'.commits
      ensures GoodCommit(h, w', k)
    {
      RestartKeepsCommit(h, w, w', k);
    }
  }

  lemma RestartKeepsCommit(h: HashFn, w: World, w': World, k: (string, string))
    requires GoodCommit(h, w, k)
    requires w'.commits == w.commits && w'.posted == w.posted && w'.deleted == w.deleted
    requires w'.store == w.store.(calls := map[])
    ensures GoodCommit(h, w', k)
  {
    hide ProofFor, ToRow, Committable, ValidDateTime, BuiltFor, TruthfulSketch, HasRead, ExpiryOf;
  }

  // ----- Posting -----

  /** The new commit tells the truth, and neither a commit nor another context had its id. */
  lemma PostedGood(h: HashFn, w: World, e: Event, w': World)
    requires Good(h, w) && e.Post? && Next(h, w, e, w')
    ensures
      var c := w.contexts[e.x];
      var k := (c.request.systemId, c.request.taskId);
      && k == (c.systemId, IdOf(c)) && Uncommitted(w, IdOf(c))
      && (!e.outcome.NotRecorded? ==> k in w'.commits && GoodCommit(h, w', k) && w'.posted[k] == c.task)
  {
    hide S.Good, Kept, Unseen, ProofFor, ToRow, Committable, ValidDateTime, BuiltFor, TruthfulSketch, Good;
    ContextGood(h, w, e.x);
  }

  lemma PostFrame(h: HashFn, w: World, e: Event, w': World)
    requires Good(h, w) && e.Post? && Next(h, w, e, w')
    ensures forall y :: y in w'.contexts && y != e.x ==> GoodContext(h, w', y, w'.contexts[y])
    ensures CommitsGood(h, w')
  {
    hide S.Good, GoodContext, GoodCommit, SavesOwned, IdsUsed;
    var c := w.contexts[e.x];
    var added := (c.request.systemId, c.request.taskId);
    PostedGood(h, w, e, w');
    forall y | y in w'.contexts && y != e.x
      ensures GoodContext(h, w', y, w'.contexts[y])
    {
      assert IdOf(w.contexts[y]) != c.request.taskId;
      ContextFrame(h, w, w', y, w.contexts[y]);
    }
    forall k | k in w'.commits
      ensures GoodCommit(h, w', k)
    {
      if e.outcome.NotRecorded? || k != added {
        assert k in w.commits && k.1 != c.request.taskId;
        CommitPosted(h, w, k);
        CommitFrame(h, w, w', k);
      }
    }
  }

  lemma PostKeepsIds(h: HashFn, w: World, e: Event, w': World)
    requires Good(h, w) && e.Post? && Next(h, w, e, w')
    ensures IdsUsed(w') && IdsDistinct(w') && SavesOwned(w')
  {
    hide S.Good, GoodContext, GoodCommit, HasRead, CommitsGood, ContextsGood;
    PostedGood(h, w, e, w');
    forall d | d in w'.store.calls && w'.store.calls[d].SaveReady?
      ensures OwnedSave(w', d)
    {
      assert OwnedSave(w, d);
    }
  }

  lemma PostKeepsGood(h: HashFn, w: World, e: Event, w': World)
    requires Good(h, w) && e.Post? && Next(h, w, e, w')
    ensures Good(h, w')
  {
    hide S.Good, GoodContext, CommitsGood, IdsUsed, IdsDistinct, SavesOwned, AfterPost;
    PostFrame(h, w, e, w');
    PostKeepsIds(h, w, e, w');
    EndedGood(h, w', e.x, w'.contexts[e.x]);
  }

  // ----- Starting a commit -----

  /** Beginning a save touches no row and no other call. */
  lemma BeginSaveFrame(s: S.State, s': S.State, call: S.CallId, p: StoredProof)
    requires S.Next(s, S.Begin(call, Save(p)), s')
    ensures call !in s.calls && s' == s.(calls := s.calls[call := S.SaveReady(p)])
  {
    hide ValidDateTime;
  }

  lemma BeginKeepsStoreFacts(s: S.State, s': S.State, call: S.CallId, p: StoredProof, id: string)
    requires call !in s.calls && s' == s.(calls := s.calls[call := S.SaveReady(p)])
    ensures Unseen(s, id) ==> Unseen(s', id)
    ensures forall row, deleted :: Kept(s, id, row, deleted) ==> Kept(s', id, row, deleted)
  {
    hide ExpiryOf;
  }

  /** A context other than the starter. */
  lemma BeginKeepsContext(h: HashFn, w: World, w': World, call: S.CallId, p: StoredProof, y: ContextId, c: Context)
    requires GoodContext(h, w, y, c)
    requires call !in w.store.calls && w'.store == w.store.(calls := w.store.calls[call := S.SaveReady(p)])
    requires w'.deleted == w.deleted && w'.commits == w.commits
    requires forall d :: d in w.savers && d != call ==> d in w'.savers && w'.savers[d] == w.savers[d]
    ensures GoodContext(h, w', y, c)
  {
    hide Kept, Unseen, ProofFor, ToRow, Committable, ValidDateTime, BuiltFor, TruthfulSketch;
    BeginKeepsStoreFacts(w.store, w'.store, call, p, IdOf(c));
  }

  lemma BeginKeepsCommit(h: HashFn, w: World, w': World, call: S.CallId, p: StoredProof, k: (string, string))
    requires GoodCommit(h, w, k)
    requires call !in w.store.calls && w'.store == w.store.(calls := w.store.calls[call := S.SaveReady(p)])
    requires w'.deleted == w.deleted && w'.commits == w.commits && w'.posted == w.posted
    ensures GoodCommit(h, w', k)
  {
    hide Kept, ProofFor, ToRow, Committable, ValidDateTime, BuiltFor, TruthfulSketch;
    BeginKeepsStoreFacts(w.store, w'.store, call, p, k.1);
  }

  lemma TaskAtBuilt(w: World, id: string, a: Answer)
    requires FirstSystem(w.registry.client) != ""
    ensures TaskAt(w, id, a).taskId == id && BuiltFor(TaskAt(w, id, a), FirstSystem(w.registry.client))
  {
    hide ContextTask, BuiltFor;
    ContextTaskBuiltFor(w.registry.client, a.config, id, a.classification, a.query, a.response, a.dependencies, w.store.now);
  }

  /** The starter itself now waits for a pending save of its unseen id. */
  lemma StarterGood(h: HashFn, w: World, e: Event, w': World)
    requires Good(h, w) && e.StartCommit? && Next(h, w, e, w')
    ensures GoodContext(h, w', e.x, w'.contexts[e.x])
    ensures IdOf(w'.contexts[e.x]) == IdOf(w.contexts[e.x])
  {
    hide S.Good, S.Next, Kept, Unseen, ProofFor, ToRow, Committable, ValidDateTime, BuiltFor, TruthfulSketch, Good, ContextTask;
    var id := w.contexts[e.x].id;
    var task := TaskAt(w, id, e.answer);
    ContextGood(h, w, e.x);
    TaskAtBuilt(w, id, e.answer);
    BeginSaveFrame(w.store, w'.store, e.call, ProofFor(h, task));
    BeginKeepsStoreFacts(w.store, w'.store, e.call, ProofFor(h, task), id);
  }

  lemma StartFrame(h: HashFn, w: World, e: Event, w': World) returns (p: StoredProof)
    requires e.StartCommit? && Next(h, w, e, w')
    ensures e.x in w.contexts && w.contexts[e.x].Running?
    ensures e.call !in w.store.calls && e.x in w'.contexts && w'.contexts[e.x].Saving? && w'.contexts[e.x].call == e.call
    ensures S.Next(w.store, S.Begin(e.call, Save(p)), w'.store)
    ensures w'.store == w.store.(calls := w.store.calls[e.call := S.SaveReady(p)])
    ensures w' == With(w.(store := w'.store, savers := w.savers[e.call := e.x]), e.x, w'.contexts[e.x])
  {
    hide S.Next, ProofFor, Committable, ContextTask;
    p := ProofFor(h, TaskAt(w, w.contexts[e.x].id, e.answer));
    BeginSaveFrame(w.store, w'.store, e.call, p);
  }

  lemma StartKeepsIds(h: HashFn, w: World, e: Event, w': World, p: StoredProof)
    requires Good(h, w) && e.StartCommit? && e.x in w.contexts && e.x in w'.contexts && w.contexts[e.x].Running?
    requires w'.store == w.store.(calls := w.store.calls[e.call := S.SaveReady(p)])
    requires w' == With(w.(store := w'.store, savers := w.savers[e.call := e.x]), e.x, w'.contexts[e.x])
    requires IdOf(w'.contexts[e.x]) == IdOf(w.contexts[e.x])
    requires w'.contexts[e.x].Saving? && w'.contexts[e.x].call == e.call
    ensures IdsUsed(w') && IdsDistinct(w') && SavesOwned(w')
  {
    hide S.Good, CommitsGood, ContextsGood;
    forall d | d in w'.store.calls && w'.store.calls[d].SaveReady?
      ensures OwnedSave(w', d)
    {
      assert d != e.call ==> OwnedSave(w, d);
    }
  }

  lemma StartKeepsGood(h: HashFn, w: World, e: Event, w': World)
    requires Good(h, w) && e.StartCommit? && Next(h, w, e, w')
    ensures Good(h, w')
  {
    hide Next, S.Next, S.Good, GoodContext, GoodCommit, IdsUsed, IdsDistinct, SavesOwned;
    var p := StartFrame(h, w, e, w');
    StarterGood(h, w, e, w');
    StartKeepsIds(h, w, e, w', p);
    S.NextKeepsGood(w.store, S.Begin(e.call, Save(p)), w'.store);
    forall y | y in w'.contexts
      ensures GoodContext(h, w', y, w'.contexts[y])
    {
      if y != e.x {
        BeginKeepsContext(h, w, w', e.call, p, y, w.contexts[y]);
      }
    }
    forall k | k in w'.commits
      ensures GoodCommit(h, w', k)
    {
      BeginKeepsCommit(h, w, w', e.call, p, k);
    }
  }

  // ----- Every step -----

  lemma NextKeepsGood(h: HashFn, w: World, e: Event, w': World)
    requires Good(h, w) && Next(h, w, e, w')
    ensures Good(h, w')
  {
    hide Good, Next;
    match e
    case Store(se) => StoreKeepsGood(h, w, se, w');
    case Registering(_) => RegisteringKeepsGood(h, w, e, w');
    case Enter(_, _) => EnterKeepsGood(h, w, e, w');
    case StartCommit(_, _, _) => StartKeepsGood(h, w, e, w');
    case SaveReturned(_) => SaveReturnedKeepsGood(h, w, e, w');
    case Post(_, _) => PostKeepsGood(h, w, e, w');
    case Leave(_) => LeaveKeepsGood(h, w, e, w');
    case Restart(_) => RestartKeepsGood(h, w, e, w');
  }
}
