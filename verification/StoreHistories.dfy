/** Whole histories of store calls: the two stores agree, and garbage collection cannot be seen. */
module StoreHistories {
  import opened Calendar
  import opened Timestamp
  import opened ProofModel
  import opened ProofStore
  import Mem = InMemoryStore
  import Sql = SqliteStore

  function SqlStep(rows: Sql.Rows, call: Call): (Sql.Rows, Outcome)
    requires ValidClock(call.now)
    requires call.op.Save? ==> UtcExpiry(call.op.proof)
  {
    match call.op
    case Save(p) => (Sql.Inserted(rows, p), Done)
    case Get(id) => (Sql.AfterGet(rows, id, call.now), Got(Sql.GetResult(rows, id, call.now)))
    case Delete(id) => (rows - {id}, Done)
    case List => (rows, Listed(Sql.ListedIds(rows, Sql.NowText(call.now))))
    case Gc => (Sql.Collected(rows, Sql.NowText(call.now)), Done)
  }

  /** A sweep that reads one clock value throughout. */
  function SweptAt(m: Mem.Proofs, now: int): Mem.Proofs {
    Mem.Survivors(m, map k | k in m :: now)
  }

  function MemStep(m: Mem.Proofs, call: Call): (Mem.Proofs, Outcome) {
    match call.op
    case Save(p) => (m[p.task.taskId := p], Done)
    case Get(id) => (Mem.AfterGet(m, id, call.now), Got(Mem.GetResult(m, id, call.now)))
    case Delete(id) => (m - {id}, Done)
    case List => (m, Listed(m.Keys))
    case Gc => (SweptAt(m, call.now), Done)
  }

  // ----- What each call means -----

  /** After one call on SQLite: which rows there are, seen by a get at any later time. */
  lemma SqlCallMeans(rows: Sql.Rows, call: Call, id: string, later: int)
    requires Sql.IsoRows(rows) && ValidClock(call.now) && call.now <= later
    requires call.op.Save? ==> UtcExpiry(call.op.proof)
    ensures Sql.IsoRows(SqlStep(rows, call).0)
    ensures
      var before, after := Sql.GetResult(rows, id, later), Sql.GetResult(SqlStep(rows, call).0, id, later);
      match call.op
      case Save(p) =>
        after == (if id != p.task.taskId then before
                  else if Instant(p.expiresAt) < later then Expired(p.expiresAt) else Found(p))
      case Delete(gone) => after == if id == gone then Missing else before
      case Get(asked) => after == if id == asked && Sql.GetResult(rows, id, call.now).Expired? then Missing else before
      case List => after == before
      case Gc =>
        id in rows && UtcExpiry(rows[id].proof) ==>
          after == if Sql.GetResult(rows, id, call.now).Expired? then Missing else before
    ensures
      match call.op
      case Get(asked) => SqlStep(rows, call).1 == Got(Sql.GetResult(rows, asked, call.now))
      case List =>
        && SqlStep(rows, call).1.Listed? && (forall k :: k in SqlStep(rows, call).1.ids ==> k in rows)
        && forall k :: k in rows && UtcExpiry(rows[k].proof) ==>
             (k in SqlStep(rows, call).1.ids <==> call.now < Sql.ExpiryOf(rows[k]))
      case _ => SqlStep(rows, call).1 == Done
  {
    hide Sql.NowText, Sql.CheckRow, IsoFormat, ValidClock, Micros, Sql.GetResult;
    Sql.GetSelectsByTime(rows, id, later);
    match call.op
    case Save(p) => Sql.GetSelectsByTime(SqlStep(rows, call).0, id, later);
    case Delete(_) => Sql.GetSelectsByTime(SqlStep(rows, call).0, id, later);
    case List => Sql.ListedSelects(rows, call.now);
    case Get(asked) =>
      Sql.GetSelectsByTime(rows, asked, call.now);
      GetKeepsRows(rows, asked, call.now);
      Sql.GetSelectsByTime(SqlStep(rows, call).0, id, later);
    case Gc =>
      Sql.CollectedKeeps(rows, call.now);
      Sql.GetSelectsByTime(rows, id, call.now);
      Sql.GetSelectsByTime(SqlStep(rows, call).0, id, later);
  }

  lemma GetKeepsRows(rows: Sql.Rows, id: string, now: int)
    requires Sql.IsoRows(rows)
    ensures Sql.AfterGet(rows, id, now) == if Sql.GetResult(rows, id, now).Expired? then rows - {id} else rows
  {
  }

  // ----- The two stores agree -----

  /** Same ids, same proofs, each expiry written as its ISO text. */
  predicate SameContent(rows: Sql.Rows, m: Mem.Proofs) {
    && rows.Keys == m.Keys
    && forall k :: k in m ==> UtcExpiry(m[k]) && rows[k] == Sql.ToRow(m[k])
  }

  /** Equal outcomes, except that SQLite lists only keys expiring after `now`. */
  predicate OutcomesAgree(sql: Outcome, mem: Outcome, m: Mem.Proofs, now: int) {
    match mem
    case Listed(ids) => sql == Listed(set k | k in ids && k in m && now < Instant(m[k].expiresAt))
    case _ => sql == mem
  }

  predicate HistoriesAgree(rows: Sql.Rows, m: Mem.Proofs, calls: seq<Call>)
    requires ValidCalls(calls)
    decreases |calls|
  {
    if calls == [] then true
    else
      var (rows', sql) := SqlStep(rows, calls[0]);
      var (m', mem) := MemStep(m, calls[0]);
      && OutcomesAgree(sql, mem, m, calls[0].now)
      && HistoriesAgree(rows', m', calls[1..])
  }

  lemma ContentIsUtc(rows: Sql.Rows, m: Mem.Proofs)
    requires SameContent(rows, m)
    ensures Sql.UtcRows(rows) && Sql.IsoRows(rows)
  {
    hide IsoFormat;
  }

  lemma SavesAgree(rows: Sql.Rows, m: Mem.Proofs, p: StoredProof)
    requires SameContent(rows, m) && UtcExpiry(p)
    ensures SameContent(Sql.Inserted(rows, p), m[p.task.taskId := p])
  {
    hide IsoFormat;
  }

  lemma DeletesAgree(rows: Sql.Rows, m: Mem.Proofs, id: string)
    requires SameContent(rows, m)
    ensures SameContent(rows - {id}, m - {id})
  {
    hide IsoFormat;
  }

  lemma GetsAgree(rows: Sql.Rows, m: Mem.Proofs, id: string, now: int)
    requires SameContent(rows, m)
    ensures SameContent(Sql.AfterGet(rows, id, now), Mem.AfterGet(m, id, now))
    ensures Sql.GetResult(rows, id, now) == Mem.GetResult(m, id, now)
  {
    hide IsoFormat, Sql.CheckRow, Micros;
    ContentIsUtc(rows, m);
    Sql.GetSelectsByTime(rows, id, now);
  }

  lemma ListsAgree(rows: Sql.Rows, m: Mem.Proofs, now: int)
    requires SameContent(rows, m) && ValidClock(now)
    ensures Sql.ListedIds(rows, Sql.NowText(now)) == set k | k in m && now < Instant(m[k].expiresAt)
  {
    hide Sql.NowText, IsoFormat, Micros;
    ContentIsUtc(rows, m);
    Sql.TextSelectsByTime(rows, now);
  }

  lemma SweepsAgree(rows: Sql.Rows, m: Mem.Proofs, now: int)
    requires SameContent(rows, m) && ValidClock(now)
    ensures SameContent(Sql.Collected(rows, Sql.NowText(now)), SweptAt(m, now))
  {
    hide Sql.NowText, IsoFormat, Micros;
    ContentIsUtc(rows, m);
    Sql.TextSelectsByTime(rows, now);
  }

  lemma StepsAgree(rows: Sql.Rows, m: Mem.Proofs, call: Call)
    requires SameContent(rows, m) && ValidClock(call.now)
    requires call.op.Save? ==> UtcExpiry(call.op.proof)
    ensures SameContent(SqlStep(rows, call).0, MemStep(m, call).0)
    ensures OutcomesAgree(SqlStep(rows, call).1, MemStep(m, call).1, m, call.now)
  {
    hide Sql.NowText, Sql.AfterGet, Sql.GetResult, Sql.ListedIds, Sql.Collected, Mem.AfterGet, Mem.GetResult, SweptAt,
         SameContent, Sql.Inserted, Instant, UtcExpiry, ValidClock;
    match call.op
    case Save(p) => SavesAgree(rows, m, p);
    case Get(id) => GetsAgree(rows, m, id, call.now);
    case Delete(id) => DeletesAgree(rows, m, id);
    case List => ListsAgree(rows, m, call.now);
    case Gc => SweepsAgree(rows, m, call.now);
  }

  /** On every history with UTC expiries the two stores give the same outcomes, call by call. */
  lemma {:induction false} TwoStoresAgree(rows: Sql.Rows, m: Mem.Proofs, calls: seq<Call>)
    requires SameContent(rows, m) && ValidCalls(calls)
    ensures HistoriesAgree(rows, m, calls)
    decreases |calls|
  {
    hide SameContent, SqlStep, MemStep, OutcomesAgree, ValidCalls;
    if calls != [] {
      ValidTail(calls);
      StepsAgree(rows, m, calls[0]);
      TwoStoresAgree(SqlStep(rows, calls[0]).0, MemStep(m, calls[0]).0, calls[1..]);
    }
  }

  /** For a single saved proof `get` agrees exactly on aware expiries, whatever their offset: a naive one raises in memory. */
  lemma GetAgreesExactlyOnAware(p: StoredProof, now: int)
    requires ValidDateTime(p.expiresAt)
    ensures
      var id := p.task.taskId;
      Sql.GetResult(map[id := Sql.ToRow(p)], id, now) == Mem.GetResult(map[id := p], id, now)
      <==> p.expiresAt.offset.Some?
  {
    hide ParseIso, IsoFormat, Micros;
    IsoRoundTrip(p.expiresAt);
  }

  // ----- Garbage collection is unobservable -----

  /** The outcomes of all calls but the GC passes. */
  function SqlRun(rows: Sql.Rows, calls: seq<Call>): seq<Outcome>
    requires ValidCalls(calls)
    decreases |calls|
  {
    if calls == [] then []
    else
      var (rows', outcome) := SqlStep(rows, calls[0]);
      if calls[0].op.Gc? then SqlRun(rows', calls[1..]) else [outcome] + SqlRun(rows', calls[1..])
  }

  function WithoutGc(calls: seq<Call>): (r: seq<Call>)
    ensures forall c :: c in r ==> c in calls && !c.op.Gc?
  {
    if calls == [] then []
    else if calls[0].op.Gc? then WithoutGc(calls[1..])
    else [calls[0]] + WithoutGc(calls[1..])
  }

  /** A call that comes no later than the rest, put in front of it. */
  lemma ConsValid(call: Call, rest: seq<Call>)
    requires ValidCalls([call]) && ValidCalls(rest)
    requires forall c :: c in rest ==> call.now <= c.now
    ensures ValidCalls([call] + rest)
  {
    hide UtcExpiry, ValidClock;
    var calls := [call] + rest;
    assert [call][0] == call;
    forall i | 0 <= i < |calls|
      ensures ValidClock(calls[i].now) && call.now <= calls[i].now
      ensures calls[i].op.Save? ==> UtcExpiry(calls[i].op.proof)
    {
      assert i > 0 ==> calls[i] == rest[i - 1];
    }
  }

  lemma {:induction false} WithoutGcValid(calls: seq<Call>)
    requires ValidCalls(calls)
    ensures ValidCalls(WithoutGc(calls))
  {
    hide UtcExpiry, ValidClock;
    if calls != [] {
      WithoutGcValid(calls[1..]);
      ConsValid(calls[0], WithoutGc(calls[1..]));
    }
  }

  /** The same, except that an expired proof may already be gone. */
  predicate Indistinguishable(with: Outcome, without: Outcome) {
    with == without || (with == Got(Missing) && without.Got? && without.result.Expired?)
  }

  predicate RunsIndistinguishable(with: seq<Outcome>, without: seq<Outcome>) {
    |with| == |without| && forall i :: 0 <= i < |with| ==> Indistinguishable(with[i], without[i])
  }

  /** `rows` is `full` with some rows dropped that had expired before `now`. */
  predicate Lags(rows: Sql.Rows, full: Sql.Rows, now: int) {
    && Sql.UtcRows(full)
    && (forall k :: k in rows ==> k in full && rows[k] == full[k])
    && (forall k :: k in full && k !in rows ==> Sql.ExpiryOf(full[k]) < now)
  }

  lemma GcStep(rows: Sql.Rows, full: Sql.Rows, call: Call)
    requires Lags(rows, full, call.now) && ValidClock(call.now) && call.op.Gc?
    ensures Lags(SqlStep(rows, call).0, full, call.now)
  {
    hide Sql.NowText, IsoFormat;
    Sql.TextSelectsByTime(rows, call.now);
  }

  lemma LagsLater(rows: Sql.Rows, full: Sql.Rows, now: int, later: int)
    requires Lags(rows, full, now) && now <= later
    ensures Lags(rows, full, later)
  {
    hide IsoFormat;
  }

  lemma GetLags(rows: Sql.Rows, full: Sql.Rows, id: string, now: int)
    requires Lags(rows, full, now) && ValidClock(now)
    ensures Lags(Sql.AfterGet(rows, id, now), Sql.AfterGet(full, id, now), now)
    ensures Indistinguishable(Got(Sql.GetResult(rows, id, now)), Got(Sql.GetResult(full, id, now)))
  {
    hide Sql.NowText, Sql.CheckRow, IsoFormat;
    assert Sql.IsoRows(full) && Sql.IsoRows(rows);
    Sql.GetSelectsByTime(rows, id, now);
    Sql.GetSelectsByTime(full, id, now);
  }

  lemma ListLags(rows: Sql.Rows, full: Sql.Rows, now: int)
    requires Lags(rows, full, now) && ValidClock(now)
    ensures Sql.ListedIds(rows, Sql.NowText(now)) == Sql.ListedIds(full, Sql.NowText(now))
  {
    hide Sql.NowText, IsoFormat;
    Sql.TextSelectsByTime(rows, now);
    Sql.TextSelectsByTime(full, now);
  }

  lemma CallLags(rows: Sql.Rows, full: Sql.Rows, call: Call)
    requires Lags(rows, full, call.now) && ValidClock(call.now) && !call.op.Gc?
    requires call.op.Save? ==> UtcExpiry(call.op.proof)
    ensures Lags(SqlStep(rows, call).0, SqlStep(full, call).0, call.now)
    ensures Indistinguishable(SqlStep(rows, call).1, SqlStep(full, call).1)
  {
    hide Sql.NowText, Sql.AfterGet, Sql.GetResult, IsoFormat;
    match call.op
    case Get(id) => GetLags(rows, full, id, call.now);
    case List => ListLags(rows, full, call.now);
    case _ =>
  }

  lemma ValidTail(calls: seq<Call>)
    requires ValidCalls(calls) && calls != []
    ensures ValidCalls(calls[1..]) && ValidClock(calls[0].now)
    ensures calls[0].op.Save? ==> UtcExpiry(calls[0].op.proof)
    ensures |calls| > 1 ==> calls[0].now <= calls[1].now
  {
    hide UtcExpiry;
  }

  lemma RunsCons(a: Outcome, b: Outcome, xs: seq<Outcome>, ys: seq<Outcome>)
    requires Indistinguishable(a, b) && RunsIndistinguishable(xs, ys)
    ensures RunsIndistinguishable([a] + xs, [b] + ys)
  {
  }

  lemma {:induction false} RunsLag(rows: Sql.Rows, full: Sql.Rows, now: int, calls: seq<Call>)
    requires ValidCalls(calls) && ValidCalls(WithoutGc(calls)) && Lags(rows, full, now)
    requires calls != [] ==> now <= calls[0].now
    ensures RunsIndistinguishable(SqlRun(rows, calls), SqlRun(full, WithoutGc(calls)))
    decreases |calls|
  {
    if calls != [] {
      hide Lags, SqlStep, RunsIndistinguishable, Indistinguishable, ValidCalls;
      var call := calls[0];
      ValidTail(calls);
      LagsLater(rows, full, now, call.now);
      WithoutGcValid(calls[1..]);
      if call.op.Gc? {
        GcStep(rows, full, call);
        RunsLag(SqlStep(rows, call).0, full, call.now, calls[1..]);
      } else {
        CallLags(rows, full, call);
        RunsLag(SqlStep(rows, call).0, SqlStep(full, call).0, call.now, calls[1..]);
        assert WithoutGc(calls)[0] == call && WithoutGc(calls)[1..] == WithoutGc(calls[1..]);
        RunsCons(SqlStep(rows, call).1, SqlStep(full, call).1,
                 SqlRun(SqlStep(rows, call).0, calls[1..]),
                 SqlRun(SqlStep(full, call).0, WithoutGc(calls[1..])));
      }
    }
  }

  /** Dropping every GC pass changes no result, except that an "expired" may be a "missing" with GC. */
  lemma GcUnobservable(rows: Sql.Rows, calls: seq<Call>)
    requires Sql.UtcRows(rows) && ValidCalls(calls)
    ensures ValidCalls(WithoutGc(calls))
    ensures RunsIndistinguishable(SqlRun(rows, calls), SqlRun(rows, WithoutGc(calls)))
  {
    WithoutGcValid(calls);
    RunsLag(rows, rows, if calls == [] then 0 else calls[0].now, calls);
  }

  // ----- Each store swept by its own GC task -----

  /** One call on the in-memory store; a sweep reads its own clock for each key, `seen` says when. */
  datatype MemCall = MemCall(call: Call, seen: map<string, int>)

  function Calls(calls: seq<MemCall>): (r: seq<Call>)
    ensures |r| == |calls| && forall i :: 0 <= i < |r| ==> r[i] == calls[i].call
  {
    seq(|calls|, i requires 0 <= i < |calls| => calls[i].call)
  }

  /** A sweep is over by the time of its call. */
  predicate ValidMemCalls(calls: seq<MemCall>) {
    && ValidCalls(Calls(calls))
    && forall i, id :: 0 <= i < |calls| && calls[i].call.op.Gc? && id in calls[i].seen ==> calls[i].seen[id] <= calls[i].call.now
  }

  /** The listed ids that have not expired: all that a caller of SQLite's `list` sees. */
  function LiveIds(m: Mem.Proofs, now: int): set<string> {
    set k | k in m && now < Instant(m[k].expiresAt)
  }

  /** The outcomes of all calls but the sweeps, with lists cut down to the ids not expired. */
  function MemRun(m: Mem.Proofs, calls: seq<MemCall>): seq<Outcome>
    decreases |calls|
  {
    if calls == [] then []
    else
      var c := calls[0].call;
      if c.op.Gc? then MemRun(Mem.Survivors(m, calls[0].seen), calls[1..])
      else
        var (m', outcome) := MemStep(m, c);
        [if outcome.Listed? then Listed(LiveIds(m, c.now)) else outcome] + MemRun(m', calls[1..])
  }

  /** `m` is the content of `rows` with some proofs dropped that had expired before `now`. */
  predicate MemLags(m: Mem.Proofs, rows: Sql.Rows, now: int) {
    && (forall k :: k in rows ==> UtcExpiry(rows[k].proof) && rows[k] == Sql.ToRow(rows[k].proof))
    && (forall k :: k in m ==> k in rows && rows[k].proof == m[k])
    && (forall k :: k in rows && k !in m ==> Sql.ExpiryOf(rows[k]) < now)
  }

  lemma SweepLags(m: Mem.Proofs, rows: Sql.Rows, seen: map<string, int>, now: int)
    requires MemLags(m, rows, now) && forall id :: id in seen ==> seen[id] <= now
    ensures MemLags(Mem.Survivors(m, seen), rows, now)
  {
    hide IsoFormat, Micros;
  }

  lemma MemLagsLater(m: Mem.Proofs, rows: Sql.Rows, now: int, later: int)
    requires MemLags(m, rows, now) && now <= later
    ensures MemLags(m, rows, later)
  {
    hide IsoFormat;
  }

  lemma LaggingRowsUtc(m: Mem.Proofs, rows: Sql.Rows, now: int)
    requires MemLags(m, rows, now)
    ensures Sql.UtcRows(rows) && Sql.IsoRows(rows)
  {
    hide IsoFormat;
  }

  lemma MemGetLags(m: Mem.Proofs, rows: Sql.Rows, id: string, now: int)
    requires MemLags(m, rows, now)
    ensures MemLags(Mem.AfterGet(m, id, now), Sql.AfterGet(rows, id, now), now)
    ensures Indistinguishable(Got(Mem.GetResult(m, id, now)), Got(Sql.GetResult(rows, id, now)))
  {
    hide Sql.CheckRow, Sql.ToRow, IsoFormat, Micros;
    LaggingRowsUtc(m, rows, now);
    Sql.GetSelectsByTime(rows, id, now);
  }

  lemma MemListLags(m: Mem.Proofs, rows: Sql.Rows, now: int)
    requires MemLags(m, rows, now) && ValidClock(now)
    ensures LiveIds(m, now) == Sql.ListedIds(rows, Sql.NowText(now))
  {
    hide Sql.NowText, Sql.ToRow, IsoFormat, Micros;
    LaggingRowsUtc(m, rows, now);
    Sql.TextSelectsByTime(rows, now);
  }

  lemma MemSaveLags(m: Mem.Proofs, rows: Sql.Rows, p: StoredProof, now: int)
    requires MemLags(m, rows, now) && UtcExpiry(p)
    ensures MemLags(m[p.task.taskId := p], Sql.Inserted(rows, p), now)
  {
    hide IsoFormat;
  }

  lemma MemDeleteLags(m: Mem.Proofs, rows: Sql.Rows, id: string, now: int)
    requires MemLags(m, rows, now)
    ensures MemLags(m - {id}, rows - {id}, now)
  {
    hide IsoFormat;
  }

  lemma MemCallLags(m: Mem.Proofs, rows: Sql.Rows, call: Call)
    requires MemLags(m, rows, call.now) && ValidClock(call.now) && !call.op.Gc?
    requires call.op.Save? ==> UtcExpiry(call.op.proof)
    ensures MemLags(MemStep(m, call).0, SqlStep(rows, call).0, call.now)
    ensures
      var outcome := MemStep(m, call).1;
      Indistinguishable(if outcome.Listed? then Listed(LiveIds(m, call.now)) else outcome, SqlStep(rows, call).1)
  {
    hide Sql.NowText, Sql.AfterGet, Sql.GetResult, Sql.ListedIds, Sql.Collected, Mem.AfterGet, Mem.GetResult, SweptAt,
         MemLags, Sql.Inserted, LiveIds, UtcExpiry, ValidClock;
    match call.op
    case Save(p) => MemSaveLags(m, rows, p, call.now);
    case Get(id) => MemGetLags(m, rows, id, call.now);
    case Delete(id) => MemDeleteLags(m, rows, id, call.now);
    case List => MemListLags(m, rows, call.now);
  }

  lemma ValidMemTail(calls: seq<MemCall>)
    requires ValidMemCalls(calls) && calls != []
    ensures ValidMemCalls(calls[1..]) && Calls(calls[1..]) == Calls(calls)[1..]
    ensures calls[0].call.op.Gc? ==> forall id :: id in calls[0].seen ==> calls[0].seen[id] <= calls[0].call.now
  {
    hide UtcExpiry, ValidClock;
  }

  /** The in-memory store under its own sweeps, beside the SQLite store without any. */
  lemma {:induction false} MemRunLags(m: Mem.Proofs, rows: Sql.Rows, now: int, calls: seq<MemCall>)
    requires ValidMemCalls(calls) && ValidCalls(WithoutGc(Calls(calls))) && MemLags(m, rows, now)
    requires calls != [] ==> now <= calls[0].call.now
    ensures RunsIndistinguishable(MemRun(m, calls), SqlRun(rows, WithoutGc(Calls(calls))))
    decreases |calls|
  {
    if calls != [] {
      hide MemLags, SqlStep, MemStep, RunsIndistinguishable, Indistinguishable, ValidCalls, ValidMemCalls, LiveIds, Mem.Survivors;
      var all, call := Calls(calls), calls[0].call;
      MemCallsValid(calls);
      ValidTail(all);
      ValidMemTail(calls);
      MemLagsLater(m, rows, now, call.now);
      WithoutGcValid(all[1..]);
      if call.op.Gc? {
        SweepLags(m, rows, calls[0].seen, call.now);
        MemRunLags(Mem.Survivors(m, calls[0].seen), rows, call.now, calls[1..]);
      } else {
        MemCallLags(m, rows, call);
        MemRunLags(MemStep(m, call).0, SqlStep(rows, call).0, call.now, calls[1..]);
        assert WithoutGc(all)[0] == call && WithoutGc(all)[1..] == WithoutGc(all[1..]);
        RunsCons(if MemStep(m, call).1.Listed? then Listed(LiveIds(m, call.now)) else MemStep(m, call).1, SqlStep(rows, call).1,
                 MemRun(MemStep(m, call).0, calls[1..]),
                 SqlRun(SqlStep(rows, call).0, WithoutGc(all[1..])));
      }
    }
  }

  lemma MemCallsValid(calls: seq<MemCall>)
    requires ValidMemCalls(calls)
    ensures ValidCalls(Calls(calls))
  {
  }

  /** Equal, or one store still knows an expired proof the other has swept. */
  predicate AgreeUpToSweeping(a: Outcome, b: Outcome) {
    || a == b
    || (a == Got(Missing) && b.Got? && b.result.Expired?)
    || (b == Got(Missing) && a.Got? && a.result.Expired?)
  }

  /**
   * The two stores under the same calls, each swept by its own GC task at its own times, the in-memory one with its
   * own clock reading for each key: call by call the outcomes agree, up to "missing" against "expired", and the
   * SQLite list is the in-memory list cut down to the ids not expired.
   */
  lemma StoresAgreeUnderOwnGc(rows: Sql.Rows, m: Mem.Proofs, sqlCalls: seq<Call>, memCalls: seq<MemCall>)
    requires SameContent(rows, m) && ValidCalls(sqlCalls) && ValidMemCalls(memCalls)
    requires WithoutGc(sqlCalls) == WithoutGc(Calls(memCalls))
    ensures |SqlRun(rows, sqlCalls)| == |MemRun(m, memCalls)|
    ensures forall i :: 0 <= i < |MemRun(m, memCalls)| ==> AgreeUpToSweeping(SqlRun(rows, sqlCalls)[i], MemRun(m, memCalls)[i])
  {
    hide SqlRun, MemRun, ValidCalls, ValidMemCalls, WithoutGc, Calls;
    ContentIsUtc(rows, m);
    GcUnobservable(rows, sqlCalls);
    var start := if memCalls == [] then 0 else memCalls[0].call.now;
    ContentLags(rows, m, start);
    MemRunLags(m, rows, start, memCalls);
    var base := SqlRun(rows, WithoutGc(sqlCalls));
    forall i | 0 <= i < |base|
      ensures AgreeUpToSweeping(SqlRun(rows, sqlCalls)[i], MemRun(m, memCalls)[i])
    {
      assert Indistinguishable(SqlRun(rows, sqlCalls)[i], base[i]) && Indistinguishable(MemRun(m, memCalls)[i], base[i]);
    }
  }

  lemma ContentLags(rows: Sql.Rows, m: Mem.Proofs, now: int)
    requires SameContent(rows, m)
    ensures MemLags(m, rows, now)
  {
    hide IsoFormat;
  }
}
