/** Safety over whole runs of the concurrent SQLite store. */
module SqliteSafety {
  import opened Basics
  import opened Text
  import opened Timestamp
  import opened ProofModel
  import opened ProofStore
  import opened SqliteStore
  import opened SqliteInterleaving

  /** A run: any starting table, as a reopened file has it, no call in flight, then one event after another. */
  predicate Run(states: seq<State>, events: seq<Event>) {
    && |states| == |events| + 1
    && Good(states[0]) && states[0].calls == map[]
    && forall i :: 0 <= i < |events| ==> Next(states[i], events[i], states[i + 1])
  }

  /** Step `j` writes a row for `id`. */
  predicate Saves(states: seq<State>, events: seq<Event>, j: nat, id: string) {
    && j < |events| && j < |states|
    && events[j].Insert? && At(states[j], events[j].c)
    && states[j].calls[events[j].c].SaveReady?
    && states[j].calls[events[j].c].proof.task.taskId == id
  }

  /** Step `i` is the SELECT of call `c` for `id`. */
  predicate Selects(states: seq<State>, events: seq<Event>, i: nat, c: CallId, id: string) {
    i < |events| && i < |states| && events[i] == SelectRow(c) && At(states[i], c) && states[i].calls[c] == GetReady(id)
  }

  /** A row that has not expired at step `n`. */
  predicate LiveAt(s: State, id: string) {
    id in s.rows && s.now <= ExpiryOf(s.rows[id])
  }

  lemma {:induction false} RunGood(states: seq<State>, events: seq<Event>, n: nat)
    requires Run(states, events) && n < |states|
    ensures Good(states[n])
  {
    hide Next, Good;
    if n > 0 {
      RunGood(states, events, n - 1);
      NextKeepsGood(states[n - 1], events[n - 1], states[n]);
    }
  }

  /** The row a get has read, if any. */
  function RowRead(pc: Pc): Option<Row>
    requires pc.GetRead? || pc.GetDeleting?
  {
    if pc.GetRead? then pc.row else Some(pc.expired)
  }

  /** Only the SELECT itself brings a get past its SELECT; a check keeps the row it read. */
  lemma StepPastSelect(s: State, e: Event, s': State, c: CallId)
    requires Good(s) && Next(s, e, s') && At(s', c) && (s'.calls[c].GetRead? || s'.calls[c].GetDeleting?)
    ensures At(s, c)
    ensures
      || (e == SelectRow(c) && s.calls[c] == GetReady(s'.calls[c].id) && s'.rows == s.rows
          && RowRead(s'.calls[c]) == Select(s.rows, s'.calls[c].id))
      || (e != SelectRow(c) && (s.calls[c].GetRead? || s.calls[c].GetDeleting?)
          && s.calls[c].id == s'.calls[c].id && RowRead(s.calls[c]) == RowRead(s'.calls[c]))
  {
    hide CheckRow, NowText, ListedIds, Collected, Inserted, UtcRow, ValidClock, ExpiryOf, UtcExpiry, ValidDateTime;
  }

  /** A step that does not save `id` leaves its row as it is or removes it. */
  lemma StepKeepsRow(s: State, e: Event, s': State, id: string)
    requires Next(s, e, s') && id in s'.rows
    requires !(e.Insert? && At(s, e.c) && s.calls[e.c].SaveReady? && s.calls[e.c].proof.task.taskId == id)
    ensures id in s.rows && s'.rows[id] == s.rows[id]
  {
    hide CheckRow, NowText, ListedIds, ValidClock, UtcExpiry, ValidDateTime, AfterCheck, ToRow;
  }

  /**
   * A get past its SELECT made that SELECT at some step `i`; unless the id was saved since,
   * the table still holds the row it read, or no row.
   */
  lemma {:induction false} SelectedBefore(states: seq<State>, events: seq<Event>, n: nat, c: CallId) returns (i: nat)
    requires Run(states, events) && n < |states|
    requires At(states[n], c) && (states[n].calls[c].GetRead? || states[n].calls[c].GetDeleting?)
    ensures i < n && Selects(states, events, i, c, states[n].calls[c].id)
    ensures RowRead(states[n].calls[c]) == Select(states[i].rows, states[n].calls[c].id)
    ensures
      var id := states[n].calls[c].id;
      (forall j :: i < j < n ==> !Saves(states, events, j, id)) && id in states[n].rows ==>
        RowRead(states[n].calls[c]) == Some(states[n].rows[id])
  {
    hide Good, Next, RowRead;
    assert n > 0;
    var s, e, s' := states[n - 1], events[n - 1], states[n];
    RunGood(states, events, n - 1);
    StepPastSelect(s, e, s', c);
    if e == SelectRow(c) {
      i := n - 1;
    } else {
      i := SelectedBefore(states, events, n - 1, c);
      var id := s'.calls[c].id;
      if id in s'.rows && forall j :: i < j < n ==> !Saves(states, events, j, id) {
        assert !Saves(states, events, n - 1, id);
        StepKeepsRow(s, e, s', id);
      }
    }
  }

  /** This step is a GC pass whose text comparison selects the row of `id`. */
  predicate CollectsRow(s: State, e: Event, id: string) {
    && e.Collect? && At(s, e.c) && s.calls[e.c].GcReady? && ValidClock(s.calls[e.c].readAt)
    && id in s.rows && Less(s.rows[id].expiresAt, NowText(s.calls[e.c].readAt))
  }

  /**
   * The steps that can remove a live row: an explicit delete, the second half of a get that saw an expired one,
   * or a GC pass misled by a text that is not in UTC.
   */
  lemma LiveRowRemovers(s: State, e: Event, s': State, id: string)
    requires Good(s) && Next(s, e, s') && LiveAt(s, id) && id !in s'.rows
    ensures
      || (e.DeleteAsked? && At(s, e.c) && s.calls[e.c] == DeleteReady(id))
      || (e.DeleteExpired? && At(s, e.c) && s.calls[e.c].GetDeleting? && s.calls[e.c].id == id
          && ExpiryOf(s.calls[e.c].expired) < s.now)
      || (CollectsRow(s, e, id) && !UtcExpiry(s.rows[id].proof))
  {
    hide Next, Good, ValidClock, UtcExpiry, ExpiryOf, Less, NowText;
    RowRemovers(s, e, s', id);
    if CollectsRow(s, e, id) && UtcExpiry(s.rows[id].proof) {
      UtcRowNotCollected(s, e, id);
    }
    if e.DeleteExpired? {
      DeletingExpired(s, e.c);
    }
  }

  lemma RowRemovers(s: State, e: Event, s': State, id: string)
    requires Next(s, e, s') && id in s.rows && id !in s'.rows
    ensures
      || (e.DeleteAsked? && At(s, e.c) && s.calls[e.c] == DeleteReady(id))
      || (e.DeleteExpired? && At(s, e.c) && s.calls[e.c].GetDeleting? && s.calls[e.c].id == id)
      || CollectsRow(s, e, id)
  {
    hide CheckRow, NowText, ListedIds, Collected, ValidClock, ValidDateTime, AfterCheck, ToRow, CollectsRow;
    if e.Collect? {
      CollectRemoves(s, e, id);
    }
  }

  lemma DeletingExpired(s: State, c: CallId)
    requires Good(s) && At(s, c) && s.calls[c].GetDeleting?
    ensures ExpiryOf(s.calls[c].expired) < s.now
  {
    hide ValidClock, IsoRow, IsoRows, ExpiryOf;
    assert GoodPc(s.calls[c], s.now);
  }

  lemma CollectRemoves(s: State, e: Event, id: string)
    requires e.Collect? && At(s, e.c) && s.calls[e.c].GcReady? && ValidClock(s.calls[e.c].readAt) && id in s.rows
    ensures id !in Collected(s.rows, NowText(s.calls[e.c].readAt)) <==> CollectsRow(s, e, id)
  {
    hide NowText, Less;
  }

  /** GC never selects a live row whose expiry is in UTC. */
  lemma UtcRowNotCollected(s: State, e: Event, id: string)
    requires Good(s) && LiveAt(s, id) && UtcExpiry(s.rows[id].proof)
    ensures !CollectsRow(s, e, id)
  {
    hide NowText, UtcExpiry, IsoFormat, Less;
    if CollectsRow(s, e, id) {
      assert GoodPc(s.calls[e.c], s.now);
      assert UtcRow(s.rows[id]);
      RowOrder(s.rows[id], s.calls[e.c].readAt);
    }
  }

  /** A call was asked to delete `id` and step `n` is its DELETE. */
  predicate DeletesOnRequest(states: seq<State>, events: seq<Event>, n: nat, id: string) {
    n < |events| && n < |states| && events[n].DeleteAsked? && At(states[n], events[n].c)
    && states[n].calls[events[n].c] == DeleteReady(id)
  }

  /** Step `n` is the DELETE of a get whose SELECT saw an expired row, and `id` was saved between the two. */
  ghost predicate SavedDuringExpiredGet(states: seq<State>, events: seq<Event>, n: nat, id: string) {
    && n < |events| && n < |states| && events[n].DeleteExpired?
    && exists i: nat, j: nat :: i < j < n && SelectsExpired(states, events, i, n, id) && Saves(states, events, j, id)
  }

  /** Step `i` is the SELECT of the call that deletes at step `n`, and the row it saw has expired by then. */
  predicate SelectsExpired(states: seq<State>, events: seq<Event>, i: nat, n: nat, id: string) {
    && n < |events| && n < |states| && events[n].DeleteExpired?
    && Selects(states, events, i, events[n].c, id)
    && id in states[i].rows && ExpiryOf(states[i].rows[id]) < states[n].now
  }

  /** Step `n` is a GC pass that selects the live row of `id` because its text is not in UTC. */
  predicate MisleadsGc(states: seq<State>, events: seq<Event>, n: nat, id: string) {
    && n < |events| && n < |states| && CollectsRow(states[n], events[n], id)
    && !UtcExpiry(states[n].rows[id].proof)
  }

  /** From its SELECT on, a call is past it for good. */
  lemma {:induction false} PastSelect(states: seq<State>, events: seq<Event>, i: nat, c: CallId, id: string, m: nat)
    requires Run(states, events) && Selects(states, events, i, c, id) && i < m < |states|
    ensures At(states[m], c) && !states[m].calls[c].GetReady?
    decreases m
  {
    hide Good, Next;
    if m == i + 1 {
      StepLeavesReady(states[i], events[i], states[i + 1], c);
    } else {
      PastSelect(states, events, i, c, id, m - 1);
      StepLeavesReady(states[m - 1], events[m - 1], states[m], c);
    }
  }

  lemma StepLeavesReady(s: State, e: Event, s': State, c: CallId)
    requires Next(s, e, s') && At(s, c) && (e == SelectRow(c) || !s.calls[c].GetReady?)
    ensures At(s', c) && !s'.calls[c].GetReady?
  {
    hide CheckRow, NowText, ListedIds, Collected, Inserted, ValidClock, ValidDateTime;
  }

  /** A call selects once. */
  lemma SelectsOnce(states: seq<State>, events: seq<Event>, i: nat, j: nat, c: CallId, id: string, id': string)
    requires Run(states, events) && Selects(states, events, i, c, id) && Selects(states, events, j, c, id')
    ensures i == j && id == id'
  {
    hide Next;
    if i < j {
      PastSelect(states, events, i, c, id, j);
    } else if j < i {
      PastSelect(states, events, j, c, id', i);
    }
  }

  /**
   * In every interleaving, exactly when a live row is lost: to an explicit delete, to a save of its id falling
   * between the SELECT and the DELETE of a get that saw an expired row, or to GC for want of a UTC expiry.
   */
  lemma LiveRowLostExactly(states: seq<State>, events: seq<Event>, n: nat, id: string)
    requires Run(states, events) && n < |events| && LiveAt(states[n], id)
    ensures id !in states[n + 1].rows <==>
            || DeletesOnRequest(states, events, n, id)
            || SavedDuringExpiredGet(states, events, n, id)
            || MisleadsGc(states, events, n, id)
  {
    hide Good, Next, ExpiryOf, Less, NowText, ValidClock, UtcExpiry;
    RunStep(states, events, n);
    RunGood(states, events, n);
    if id !in states[n + 1].rows {
      LiveRowRemovers(states[n], events[n], states[n + 1], id);
      if events[n].DeleteExpired? {
        LossIsRace(states, events, n, id);
      }
    } else if SavedDuringExpiredGet(states, events, n, id) {
      RaceLoses(states, events, n, id);
    } else {
      OthersLose(states, events, n, id);
    }
  }

  lemma RunStep(states: seq<State>, events: seq<Event>, n: nat)
    requires Run(states, events) && n < |events|
    ensures Next(states[n], events[n], states[n + 1])
  {
    hide Next, Good;
  }

  lemma LossIsRace(states: seq<State>, events: seq<Event>, n: nat, id: string)
    requires Run(states, events) && n < |events| && LiveAt(states[n], id)
    requires events[n].DeleteExpired? && At(states[n], events[n].c) && states[n].calls[events[n].c].GetDeleting?
    requires states[n].calls[events[n].c].id == id && ExpiryOf(states[n].calls[events[n].c].expired) < states[n].now
    ensures SavedDuringExpiredGet(states, events, n, id)
  {
    hide Good, Next, ExpiryOf;
    var c := events[n].c;
    var i := SelectedBefore(states, events, n, c);
    RowReadOfDeleting(states[n].calls[c]);
    assert SelectsExpired(states, events, i, n, id);
    assert states[n].calls[c].expired != states[n].rows[id];
  }

  lemma RaceLoses(states: seq<State>, events: seq<Event>, n: nat, id: string)
    requires Run(states, events) && n < |events| && SavedDuringExpiredGet(states, events, n, id)
    ensures id !in states[n + 1].rows
  {
    hide Good, ExpiryOf, Next;
    var i: nat, j: nat :| i < j < n && SelectsExpired(states, events, i, n, id) && Saves(states, events, j, id);
    RunStep(states, events, n);
    DeleteExpiredRemoves(states[n], events[n], states[n + 1]);
    var i' := SelectedBefore(states, events, n, events[n].c);
    SelectsOnce(states, events, i, i', events[n].c, id, states[n].calls[events[n].c].id);
  }

  lemma DeleteExpiredRemoves(s: State, e: Event, s': State)
    requires Next(s, e, s') && e.DeleteExpired?
    ensures At(s, e.c) && s.calls[e.c].GetDeleting? && s.calls[e.c].id !in s'.rows
  {
    hide ValidClock, ValidDateTime;
  }

  lemma OthersLose(states: seq<State>, events: seq<Event>, n: nat, id: string)
    requires Run(states, events) && n < |events| && id in states[n + 1].rows
    ensures !DeletesOnRequest(states, events, n, id) && !MisleadsGc(states, events, n, id)
  {
    hide Good, UtcExpiry, NowText, Less, Collected, ListedIds, CheckRow, AfterCheck, ValidClock;
    RunStep(states, events, n);
    if CollectsRow(states[n], events[n], id) {
      CollectRemoves(states[n], events[n], id);
    }
  }

  lemma RowReadOfDeleting(pc: Pc)
    requires pc.GetDeleting?
    ensures RowRead(pc) == Some(pc.expired)
  {
  }

  // ----- Each id saved once -----

  /** A row that was not in the file at the start was written by an earlier save. */
  lemma {:induction false} RowWasSaved(states: seq<State>, events: seq<Event>, n: nat, id: string) returns (j: nat)
    requires Run(states, events) && n < |states| && id !in states[0].rows && id in states[n].rows
    ensures j < n && Saves(states, events, j, id)
  {
    hide Good, Next;
    assert n > 0;
    if Saves(states, events, n - 1, id) {
      j := n - 1;
    } else {
      StepKeepsRow(states[n - 1], events[n - 1], states[n], id);
      j := RowWasSaved(states, events, n - 1, id);
    }
  }

  /** `id` is written once in the life of the file; a row already there counts as that one save. */
  predicate SavedAtMostOnce(states: seq<State>, events: seq<Event>, id: string) {
    && (forall i, j :: 0 <= i < |events| && 0 <= j < |events| && Saves(states, events, i, id) && Saves(states, events, j, id) ==> i == j)
    && (states != [] && id in states[0].rows ==> forall i :: 0 <= i < |events| ==> !Saves(states, events, i, id))
  }

  /** When an id is saved once with a UTC expiry, exactly an explicit delete removes its row before it expires. */
  lemma FreshIdsNeverLost(states: seq<State>, events: seq<Event>, n: nat, id: string)
    requires Run(states, events) && n < |events|
    requires SavedAtMostOnce(states, events, id)
    requires LiveAt(states[n], id) && UtcExpiry(states[n].rows[id].proof)
    ensures id !in states[n + 1].rows <==> DeletesOnRequest(states, events, n, id)
  {
    hide Good, Next, ExpiryOf, UtcExpiry, CollectsRow;
    LiveRowLostExactly(states, events, n, id);
    if SavedDuringExpiredGet(states, events, n, id) {
      var i: nat, j: nat :| i < j < n && SelectsExpired(states, events, i, n, id) && Saves(states, events, j, id);
      if id !in states[0].rows {
        var first := RowWasSaved(states, events, i, id);
      }
    }
  }

  // ----- The race is real -----

  /** A store whose row for the id has expired, a get and a save of the same id, the save between SELECT and DELETE. */
  function RaceEvents(renewed: StoredProof): seq<Event> {
    [Begin(0, Get(renewed.task.taskId)), SelectRow(0), Check(0),
     Begin(1, Save(renewed)), Insert(1, true), DeleteExpired(0, true)]
  }

  function RaceStates(stale: StoredProof, renewed: StoredProof, now: int): seq<State>
    requires ValidDateTime(stale.expiresAt) && ValidDateTime(renewed.expiresAt)
  {
    var id := renewed.task.taskId;
    var before := map[id := ToRow(stale)];
    var after := Inserted(before, renewed);
    var deleting := GetDeleting(id, ToRow(stale));
    [State(before, now, map[]),
     State(before, now, map[0 := GetReady(id)]),
     State(before, now, map[0 := GetRead(id, Some(ToRow(stale)))]),
     State(before, now, map[0 := deleting]),
     State(before, now, map[0 := deleting, 1 := SaveReady(renewed)]),
     State(after, now, map[0 := deleting, 1 := Finished(Done)]),
     State(after - {id}, now, map[0 := Finished(Got(Expired(stale.expiresAt))), 1 := Finished(Done)])]
  }

  /** For every expired proof and every live one with its id, the live one can be lost: saving an id twice is unsafe. */
  lemma SavingTwiceCanLoseLiveRow(stale: StoredProof, renewed: StoredProof, now: int)
    requires UtcExpiry(stale) && UtcExpiry(renewed) && stale.task.taskId == renewed.task.taskId && ValidClock(now)
    requires Instant(stale.expiresAt) < now <= Instant(renewed.expiresAt)
    ensures
      var states, events := RaceStates(stale, renewed, now), RaceEvents(renewed);
      && Run(states, events)
      && LiveAt(states[5], renewed.task.taskId) && states[5].rows[renewed.task.taskId].proof == renewed
      && renewed.task.taskId !in states[6].rows
      && !DeletesOnRequest(states, events, 5, renewed.task.taskId)
  {
    hide ParseIso, IsoFormat, CheckRow, NowText, ValidDateTime, Instant, AfterCheck;
    var states, events := RaceStates(stale, renewed, now), RaceEvents(renewed);
    var id := renewed.task.taskId;
    assert IsoRow(ToRow(stale));
    CheckedPcGood(id, Some(ToRow(stale)), now);
    assert Next(states[0], events[0], states[1]);
    assert Next(states[1], events[1], states[2]);
    assert Next(states[2], events[2], states[3]);
    assert Next(states[3], events[3], states[4]);
    assert Next(states[4], events[4], states[5]);
    assert Next(states[5], events[5], states[6]);
  }

  // ----- What a get returns -----

  /** A proof a get returns was in the table at that get's SELECT and had not expired at its check. */
  lemma FoundWasStoredAndLive(states: seq<State>, events: seq<Event>, n: nat, c: CallId, p: StoredProof) returns (i: nat)
    requires Run(states, events) && n < |events| && events[n] == Check(c)
    requires At(states[n + 1], c) && states[n + 1].calls[c] == Finished(Got(Found(p)))
    ensures i < n && At(states[n], c) && states[n].calls[c].GetRead?
    ensures Selects(states, events, i, c, states[n].calls[c].id)
    ensures states[n].calls[c].id in states[i].rows && states[i].rows[states[n].calls[c].id].proof == p
    ensures states[n].now <= Instant(p.expiresAt)
  {
    hide CheckRow, NowText, AfterCheck, ListedIds, Collected, UtcRow, ValidClock, IsoFormat, ParseIso, ValidDateTime;
    RunGood(states, events, n);
    assert Next(states[n], events[n], states[n + 1]);
    var pc := states[n].calls[c];
    CheckedPcGood(pc.id, pc.row, states[n].now);
    i := SelectedBefore(states, events, n, c);
  }

  // ----- Every call does what it was asked to -----

  /** A call begun with `op` at clock reading `t` stands here. */
  predicate Serves(pc: Pc, op: Op, t: int) {
    match pc
    case SaveReady(p) => op == Save(p)
    case GetReady(id) => op == Get(id)
    case GetRead(id, _) => op == Get(id)
    case GetDeleting(id, _) => op == Get(id)
    case DeleteReady(id) => op == Delete(id)
    case ListReady(readAt) => op == List && readAt == t
    case GcReady(readAt) => op == Gc && readAt == t
    case Finished(_) => true
  }

  lemma StepServes(s: State, e: Event, s': State, c: CallId, op: Op, t: int)
    requires Next(s, e, s') && At(s, c) && Serves(s.calls[c], op, t)
    ensures At(s', c) && Serves(s'.calls[c], op, t)
  {
    hide CheckRow, NowText, ListedIds, Collected, Inserted, ValidClock, ValidDateTime;
  }

  lemma StepBegins(s: State, e: Event, s': State, c: CallId)
    requires Next(s, e, s') && !At(s, c) && At(s', c)
    ensures e.Begin? && e.c == c && Serves(s'.calls[c], e.op, s.now)
  {
    hide CheckRow, NowText, ListedIds, Collected, Inserted, ValidClock, ValidDateTime, AfterCheck;
  }

  /** A call in flight was begun once, for the operation it is at, with the clock reading it uses. */
  lemma {:induction false} BegunFor(states: seq<State>, events: seq<Event>, n: nat, c: CallId) returns (i: nat)
    requires Run(states, events) && n < |states| && At(states[n], c)
    ensures i < n && events[i].Begin? && events[i].c == c && Serves(states[n].calls[c], events[i].op, states[i].now)
  {
    hide Good, Next, Serves;
    assert n > 0;
    if At(states[n - 1], c) {
      i := BegunFor(states, events, n - 1, c);
      StepServes(states[n - 1], events[n - 1], states[n], c, events[i].op, states[i].now);
    } else {
      StepBegins(states[n - 1], events[n - 1], states[n], c);
      i := n - 1;
    }
  }

  /** What a step that writes or lists does, for a call begun with `op` at clock reading `t`; `rows` before, `rows'` after. */
  predicate DoesAsAsked(op: Op, t: int, rows: Rows, rows': Rows, outcome: Outcome, failed: bool) {
    && (failed ==> outcome == Got(StorageError))
    && match op
    case Save(p) =>
      && rows'.Keys == rows.Keys + {p.task.taskId} && rows'[p.task.taskId].proof == p
      && (forall k :: k in rows && k != p.task.taskId ==> rows'[k] == rows[k])
      && (!failed ==> outcome == Done)
    case Get(id) =>
      rows' == rows - {id} && (!failed ==> outcome.Got? && outcome.result.Expired?)
    case Delete(id) => rows' == rows - {id} && (!failed ==> outcome == Done)
    case List => rows' == rows && outcome.Listed? && (forall k :: k in outcome.ids ==> k in rows)
                 && forall k :: k in rows && UtcExpiry(rows[k].proof) ==> (k in outcome.ids <==> t < ExpiryOf(rows[k]))
    case Gc => (forall k :: k in rows' ==> k in rows && rows'[k] == rows[k])
               && forall k :: k in rows && UtcExpiry(rows[k].proof) ==> (k in rows' <==> t <= ExpiryOf(rows[k]))
  }

  /** The statement that ends a call, or the DELETE of an expired get; `failed` when closing its connection then raised. */
  predicate Completes(e: Event) {
    e.Insert? || e.DeleteExpired? || e.DeleteAsked? || e.Scan? || e.Collect?
  }

  function FailedToClose(e: Event): bool
    requires Completes(e)
  {
    if e.Insert? || e.DeleteExpired? || e.DeleteAsked? then !e.closed else false
  }

  /**
   * In every run, each completing statement does what its call was begun for: a save writes that proof and no other
   * row, a delete removes that id, an expired get the id it was asked for, a list gives and a GC pass keeps, among
   * rows in UTC, exactly those the clock reading of its start selects; and the call ends with that outcome.
   */
  lemma CallsDoAsAsked(states: seq<State>, events: seq<Event>, n: nat) returns (i: nat)
    requires Run(states, events) && n < |events| && Completes(events[n])
    ensures At(states[n + 1], events[n].c) && states[n + 1].calls[events[n].c].Finished?
    ensures i < n && events[i].Begin? && events[i].c == events[n].c
    ensures DoesAsAsked(events[i].op, states[i].now, states[n].rows, states[n + 1].rows,
                        states[n + 1].calls[events[n].c].outcome, FailedToClose(events[n]))
  {
    hide Good, Next, Serves, DoesAsAsked;
    RunStep(states, events, n);
    RunGood(states, events, n);
    CompletingCall(states[n], events[n], states[n + 1]);
    i := BegunFor(states, events, n, events[n].c);
    CompletesAsAsked(states[n], events[n], states[n + 1], events[i].op, states[i].now);
  }

  lemma CompletingCall(s: State, e: Event, s': State)
    requires Next(s, e, s') && Completes(e)
    ensures At(s, e.c) && At(s', e.c) && s'.calls[e.c].Finished?
  {
    hide CheckRow, NowText, ListedIds, Collected, Inserted, ValidClock, ValidDateTime, AfterCheck;
  }

  lemma CompletesAsAsked(s: State, e: Event, s': State, op: Op, t: int)
    requires Good(s) && Next(s, e, s') && Completes(e) && At(s, e.c) && Serves(s.calls[e.c], op, t)
    ensures At(s', e.c) && s'.calls[e.c].Finished?
    ensures DoesAsAsked(op, t, s.rows, s'.rows, s'.calls[e.c].outcome, FailedToClose(e))
  {
    hide CheckRow, NowText, ListedIds, Collected, ValidDateTime, AfterCheck, UtcExpiry, ExpiryOf, IsoFormat, IsoRow, ValidClock;
    assert GoodPc(s.calls[e.c], s.now);
    if e.Scan? {
      ListedSelects(s.rows, t);
    } else if e.Collect? {
      CollectedKeeps(s.rows, t);
    }
  }

  /** A failed step, or one that completes nothing, touches no row. */
  lemma OtherStepsKeepRows(s: State, e: Event, s': State)
    requires Next(s, e, s') && !Completes(e)
    ensures s'.rows == s.rows
    ensures e.Fail? ==> At(s, e.c) && !s.calls[e.c].Finished? && At(s', e.c) && s'.calls[e.c] == Finished(Got(StorageError))
  {
    hide CheckRow, NowText, AfterCheck, ValidClock, ValidDateTime;
  }
}
