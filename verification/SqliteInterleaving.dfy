/** Concurrent calls on one SQLite store: every SQL statement is atomic, everything between statements interleaves. */
module SqliteInterleaving {
  import opened Basics
  import opened Timestamp
  import opened ProofModel
  import opened ProofStore
  import opened SqliteStore

  type CallId = nat

  /** Where a call in flight stands; the name says which statement comes next. */
  datatype Pc =
    | SaveReady(proof: StoredProof)
    | GetReady(id: string)
    | GetRead(id: string, row: Option<Row>)
    | GetDeleting(id: string, expired: Row)
    | DeleteReady(id: string)
    | ListReady(readAt: int)
    | GcReady(readAt: int)
    | Finished(outcome: Outcome)

  datatype State = State(rows: Rows, now: int, calls: map<CallId, Pc>)

  /** A writing statement takes effect; `closed` says whether closing its connection then worked or raised. */
  datatype Event =
    | Tick(to: int)
    | Begin(c: CallId, op: Op)
    | Insert(c: CallId, closed: bool)
    | SelectRow(c: CallId)
    | Check(c: CallId)
    | DeleteExpired(c: CallId, closed: bool)
    | DeleteAsked(c: CallId, closed: bool)
    | Scan(c: CallId)
    | Collect(c: CallId)
    | Fail(c: CallId)

  /** `list` and the GC read the clock before they open a connection. */
  function FirstPc(op: Op, now: int): Pc {
    match op
    case Save(p) => SaveReady(p)
    case Get(id) => GetReady(id)
    case Delete(id) => DeleteReady(id)
    case List => ListReady(now)
    case Gc => GcReady(now)
  }

  function AfterCheck(id: string, row: Option<Row>, now: int): Pc {
    var r := CheckRow(row, now);
    if r.Expired? && row.Some? then GetDeleting(id, row.value) else Finished(Got(r))
  }

  function Goto(s: State, c: CallId, pc: Pc): State {
    s.(calls := s.calls[c := pc])
  }

  function Ending(closed: bool, outcome: Outcome): Pc {
    Finished(if closed then outcome else Got(StorageError))
  }

  predicate At(s: State, c: CallId) {
    c in s.calls
  }

  /** One step; a failing statement ends its call without touching the rows. */
  predicate Next(s: State, e: Event, s': State) {
    match e
    case Tick(to) => s.now <= to && ValidClock(to) && s' == s.(now := to)
    case Begin(c, op) => !At(s, c) && (op.Save? ==> ValidDateTime(op.proof.expiresAt)) && s' == Goto(s, c, FirstPc(op, s.now))
    case Insert(c, closed) =>
      && At(s, c) && s.calls[c].SaveReady? && ValidDateTime(s.calls[c].proof.expiresAt)
      && s' == Goto(s.(rows := Inserted(s.rows, s.calls[c].proof)), c, Ending(closed, Done))
    case SelectRow(c) =>
      && At(s, c) && s.calls[c].GetReady?
      && s' == Goto(s, c, GetRead(s.calls[c].id, Select(s.rows, s.calls[c].id)))
    case Check(c) =>
      && At(s, c) && s.calls[c].GetRead?
      && s' == Goto(s, c, AfterCheck(s.calls[c].id, s.calls[c].row, s.now))
    case DeleteExpired(c, closed) =>
      && At(s, c) && s.calls[c].GetDeleting?
      && s' == Goto(s.(rows := s.rows - {s.calls[c].id}), c, Ending(closed, Got(Expired(s.calls[c].expired.proof.expiresAt))))
    case DeleteAsked(c, closed) =>
      && At(s, c) && s.calls[c].DeleteReady?
      && s' == Goto(s.(rows := s.rows - {s.calls[c].id}), c, Ending(closed, Done))
    case Scan(c) =>
      && At(s, c) && s.calls[c].ListReady? && ValidClock(s.calls[c].readAt)
      && s' == Goto(s, c, Finished(Listed(ListedIds(s.rows, NowText(s.calls[c].readAt)))))
    case Collect(c) =>
      && At(s, c) && s.calls[c].GcReady? && ValidClock(s.calls[c].readAt)
      && s' == Goto(s.(rows := Collected(s.rows, NowText(s.calls[c].readAt))), c, Finished(Done))
    case Fail(c) =>
      && At(s, c) && !s.calls[c].Finished?
      && s' == Goto(s, c, Finished(Got(StorageError)))
  }

  // ----- What every step keeps -----

  predicate GoodPc(pc: Pc, now: int) {
    match pc
    case SaveReady(p) => ValidDateTime(p.expiresAt)
    case GetRead(_, row) => row.Some? ==> IsoRow(row.value)
    case GetDeleting(_, row) => IsoRow(row) && ExpiryOf(row) < now
    case ListReady(t) => ValidClock(t) && t <= now
    case GcReady(t) => ValidClock(t) && t <= now
    case _ => true
  }

  /** Expiry texts are what `isoformat` writes; a get about to delete has seen an expired row; readings lie in the past. */
  predicate Good(s: State) {
    && ValidClock(s.now) && IsoRows(s.rows)
    && forall c :: c in s.calls ==> GoodPc(s.calls[c], s.now)
  }

  lemma CheckedPcGood(id: string, row: Option<Row>, now: int)
    requires ValidClock(now) && GoodPc(GetRead(id, row), now)
    ensures GoodPc(AfterCheck(id, row, now), now)
    ensures row.Some? && now <= ExpiryOf(row.value) ==> AfterCheck(id, row, now) == Finished(Got(Found(row.value.proof)))
    ensures row.Some? && ExpiryOf(row.value) < now ==> AfterCheck(id, row, now) == GetDeleting(id, row.value)
    ensures row.None? ==> AfterCheck(id, row, now) == Finished(Got(Missing))
  {
    hide NowText, CheckRow, ExpiryOf, IsoRow;
    if row.Some? {
      CheckByTime(row.value, now);
    } else {
      MissingRow(now);
    }
  }

  lemma NextKeepsGood(s: State, e: Event, s': State)
    requires Good(s) && Next(s, e, s')
    ensures Good(s')
  {
    hide NowText, IsoFormat, CheckRow, AfterCheck, ListedIds, Collected, ValidDateTime;
    match e
    case Check(c) => CheckedPcGood(s.calls[c].id, s.calls[c].row, s.now);
    case Collect(c) => CollectedSubset(s.rows, NowText(s.calls[c].readAt));
    case _ =>
  }

  lemma CollectedSubset(rows: Rows, nowText: string)
    ensures forall k :: k in Collected(rows, nowText) ==> k in rows && Collected(rows, nowText)[k] == rows[k]
  {
  }
}
