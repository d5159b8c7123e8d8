/** The SQLite-backed proof store, its statements atomic and its expiry column text. */
module SqliteStore {
  import opened Basics
  import opened Text
  import opened Calendar
  import opened Timestamp
  import opened ProofModel
  import opened ProofStore

  /** A row of `atp_proofs`, keyed by task id. */
  datatype Row = Row(proof: StoredProof, expiresAt: string)

  type Rows = map<string, Row>

  /** `datetime.now(UTC).isoformat()`. */
  function NowText(now: int): string
    requires ValidClock(now)
  {
    IsoFormat(Utc(FromMicros(now)))
  }

  function ToRow(p: StoredProof): Row
    requires ValidDateTime(p.expiresAt)
  {
    Row(p, IsoFormat(p.expiresAt))
  }

  /** INSERT OR REPLACE. */
  function Inserted(rows: Rows, p: StoredProof): Rows
    requires ValidDateTime(p.expiresAt)
  {
    rows[p.task.taskId := ToRow(p)]
  }

  /** The checks `get` makes on the row it read; a naive expiry counts as UTC. */
  function CheckRow(row: Option<Row>, now: int): GetOutcome {
    if row.None? then Missing
    else
      match ParseIso(row.value.expiresAt)
      case None => StorageError
      case Some(at) => if Instant(at) < now then Expired(at) else Found(row.value.proof)
  }

  function Select(rows: Rows, id: string): Option<Row> {
    if id in rows then Some(rows[id]) else None
  }

  function GetResult(rows: Rows, id: string, now: int): GetOutcome {
    CheckRow(Select(rows, id), now)
  }

  function AfterGet(rows: Rows, id: string, now: int): Rows {
    if GetResult(rows, id, now).Expired? then rows - {id} else rows
  }

  /** SELECT task_id ... WHERE expires_at > ?, on text. */
  function ListedIds(rows: Rows, nowText: string): set<string> {
    set k | k in rows && Less(nowText, rows[k].expiresAt)
  }

  /** DELETE ... WHERE expires_at < ?, on text. */
  function Collected(rows: Rows, nowText: string): Rows {
    map k | k in rows && !Less(rows[k].expiresAt, nowText) :: rows[k]
  }

  class SqliteProofStore {
    var rows: map<string, Row>

    constructor ()
      ensures rows == map[]
    {
      rows := map[];
    }

    method Save(proof: StoredProof)
      requires ValidDateTime(proof.expiresAt)
      modifies this
      ensures rows == Inserted(old(rows), proof)
    {
      var expiresAt := IsoFormat(proof.expiresAt);
      rows := rows[proof.task.taskId := Row(proof, expiresAt)];
    }

    method Get(id: string, now: int) returns (r: GetOutcome)
      modifies this
      ensures r == GetResult(old(rows), id, now)
      ensures rows == AfterGet(old(rows), id, now)
    {
      if id !in rows {
        return Missing;
      }
      var row := rows[id];
      var parsed := ParseIso(row.expiresAt);
      if parsed.None? {
        return StorageError;
      }
      if Instant(parsed.value) < now {
        Delete(id);
        return Expired(parsed.value);
      }
      return Found(row.proof);
    }

    method Delete(id: string)
      modifies this
      ensures rows == old(rows) - {id}
    {
      rows := rows - {id};
    }

    method List(now: int) returns (ids: set<string>)
      requires ValidClock(now)
      ensures ids == ListedIds(rows, NowText(now))
    {
      var text := NowText(now);
      ids := set k | k in rows && Less(text, rows[k].expiresAt);
    }

    /** One pass of `_gc_loop`. */
    method CollectGarbage(now: int) returns (deleted: nat)
      requires ValidClock(now)
      modifies this
      ensures rows == Collected(old(rows), NowText(now))
      ensures deleted == |old(rows)| - |rows|
    {
      var text := NowText(now);
      var kept := map k | k in rows && !Less(rows[k].expiresAt, text) :: rows[k];
      assert |rows.Keys - kept.Keys| == |rows.Keys| - |kept.Keys|;
      deleted := |rows.Keys - kept.Keys|;
      rows := kept;
    }
  }

  // ----- Rows as `save` writes them -----

  predicate IsoRow(row: Row) {
    ValidDateTime(row.proof.expiresAt) && row.expiresAt == IsoFormat(row.proof.expiresAt)
  }

  predicate IsoRows(rows: Rows) {
    forall k :: k in rows ==> IsoRow(rows[k])
  }

  /** `get` decides by the instant, whatever the offset; a naive expiry counts as UTC. */
  lemma CheckByTime(row: Row, now: int)
    requires IsoRow(row)
    ensures CheckRow(Some(row), now) ==
            if ExpiryOf(row) < now then Expired(row.proof.expiresAt) else Found(row.proof)
  {
    hide ParseIso, IsoFormat;
    IsoRoundTrip(row.proof.expiresAt);
  }

  // ----- On UTC expiries the text comparisons are the datetime comparisons -----

  predicate UtcRow(row: Row) {
    UtcExpiry(row.proof) && row.expiresAt == IsoFormat(row.proof.expiresAt)
  }

  predicate UtcRows(rows: Rows) {
    forall k :: k in rows ==> UtcRow(rows[k])
  }

  function ExpiryOf(row: Row): int {
    Instant(row.proof.expiresAt)
  }

  lemma RowOrder(row: Row, now: int)
    requires UtcRow(row) && ValidClock(now)
    ensures Less(row.expiresAt, NowText(now)) <==> ExpiryOf(row) < now
    ensures Less(NowText(now), row.expiresAt) <==> now < ExpiryOf(row)
    ensures ParseIso(row.expiresAt) == Some(row.proof.expiresAt)
  {
    InRangeYear(now);
    IsoTextOrder(row.proof.expiresAt, Utc(FromMicros(now)));
    IsoTextOrder(Utc(FromMicros(now)), row.proof.expiresAt);
    IsoRoundTrip(row.proof.expiresAt);
  }

  /**
   * The exact condition: both text comparisons follow the clock at every reading only when the expiry is
   * written in UTC; for any other offset, and for a naive expiry, the reading equal to it is decided wrongly.
   */
  lemma TextFollowsClockExactlyOnUtc(dt: DateTime)
    requires ValidDateTime(dt) && ValidClock(Instant(dt))
    ensures
      (forall now :: ValidClock(now) ==>
         && (Less(IsoFormat(dt), NowText(now)) <==> Instant(dt) < now)
         && (Less(NowText(now), IsoFormat(dt)) <==> now < Instant(dt)))
      <==> dt.offset == Some(0)
  {
    hide IsoFormat, ParseIso, Micros, FromMicros;
    if dt.offset == Some(0) {
      forall now | ValidClock(now)
        ensures Less(IsoFormat(dt), NowText(now)) <==> Instant(dt) < now
        ensures Less(NowText(now), IsoFormat(dt)) <==> now < Instant(dt)
      {
        InRangeYear(now);
        IsoTextOrder(dt, Utc(FromMicros(now)));
        IsoTextOrder(Utc(FromMicros(now)), dt);
      }
    } else {
      var now := Instant(dt);
      InRangeYear(now);
      IsoRoundTrip(dt);
      IsoRoundTrip(Utc(FromMicros(now)));
      LessTrichotomy(IsoFormat(dt), NowText(now));
      assert NowText(now) != IsoFormat(dt);
    }
  }

  /** The text comparisons of `list` and GC select exactly the rows the datetime comparisons would. */
  lemma TextSelectsByTime(rows: Rows, now: int)
    requires UtcRows(rows) && ValidClock(now)
    ensures ListedIds(rows, NowText(now)) == set k | k in rows && now < ExpiryOf(rows[k])
    ensures Collected(rows, NowText(now)) == map k | k in rows && now <= ExpiryOf(rows[k]) :: rows[k]
  {
    hide Less, NowText, ExpiryOf, UtcRow, ValidClock;
    forall k | k in rows
      ensures Less(rows[k].expiresAt, NowText(now)) <==> ExpiryOf(rows[k]) < now
      ensures Less(NowText(now), rows[k].expiresAt) <==> now < ExpiryOf(rows[k])
    {
      RowOrder(rows[k], now);
    }
  }

  /** GC keeps rows as they are, and among those in UTC exactly the ones that have not expired. */
  lemma CollectedKeeps(rows: Rows, now: int)
    requires IsoRows(rows) && ValidClock(now)
    ensures forall k :: k in Collected(rows, NowText(now)) ==> k in rows && Collected(rows, NowText(now))[k] == rows[k]
    ensures forall k :: k in rows && UtcExpiry(rows[k].proof) ==> (k in Collected(rows, NowText(now)) <==> now <= ExpiryOf(rows[k]))
  {
    hide NowText, Less, UtcExpiry, ExpiryOf, IsoFormat, ValidClock;
    forall k | k in rows && UtcExpiry(rows[k].proof)
      ensures k in Collected(rows, NowText(now)) <==> now <= ExpiryOf(rows[k])
    {
      assert UtcRow(rows[k]);
      RowOrder(rows[k], now);
    }
  }

  /** `list` gives ids of the table, and among those in UTC exactly the ones expiring later. */
  lemma ListedSelects(rows: Rows, now: int)
    requires IsoRows(rows) && ValidClock(now)
    ensures forall k :: k in ListedIds(rows, NowText(now)) ==> k in rows
    ensures forall k :: k in rows && UtcExpiry(rows[k].proof) ==> (k in ListedIds(rows, NowText(now)) <==> now < ExpiryOf(rows[k]))
  {
    hide NowText, Less, UtcExpiry, ExpiryOf, IsoFormat, ValidClock;
    forall k | k in rows && UtcExpiry(rows[k].proof)
      ensures k in ListedIds(rows, NowText(now)) <==> now < ExpiryOf(rows[k])
    {
      assert UtcRow(rows[k]);
      RowOrder(rows[k], now);
    }
  }

  /** `get` decides by the datetime, on rows of any offset. */
  lemma GetSelectsByTime(rows: Rows, id: string, now: int)
    requires IsoRows(rows)
    ensures GetResult(rows, id, now) ==
            if id !in rows then Missing
            else if ExpiryOf(rows[id]) < now then Expired(rows[id].proof.expiresAt)
            else Found(rows[id].proof)
  {
    hide CheckRow, ExpiryOf;
    if id in rows {
      CheckByTime(rows[id], now);
    } else {
      MissingRow(now);
    }
  }

  lemma MissingRow(now: int)
    ensures CheckRow(None, now) == Missing
  {
  }
}
