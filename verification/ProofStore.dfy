/** The proof store interface: outcomes, calls, and which of them a history may contain. */
module ProofStore {
  import opened Basics
  import opened Calendar
  import opened Timestamp
  import opened ProofModel

  /** `ATPProofExpiredError` is `Expired`, `ATPStorageError` is `StorageError`. */
  datatype GetOutcome = Found(proof: StoredProof) | Missing | Expired(at: DateTime) | StorageError

  datatype Op = Save(proof: StoredProof) | Get(id: string) | Delete(id: string) | List | Gc

  /** One call and the clock reading it uses. */
  datatype Call = Call(op: Op, now: int)

  datatype Outcome = Done | Got(result: GetOutcome) | Listed(ids: set<string>)

  /** Clock readings `datetime.now(UTC)` can give. */
  predicate ValidClock(now: int) {
    FIRST_INSTANT <= now <= LAST_INSTANT
  }

  /** The expiries `_commit` and the adapter produce: aware, in UTC. */
  predicate UtcExpiry(p: StoredProof) {
    ValidDateTime(p.expiresAt) && p.expiresAt.offset == Some(0)
  }

  predicate ValidCalls(calls: seq<Call>) {
    && (forall i :: 0 <= i < |calls| ==> ValidClock(calls[i].now))
    && (forall i :: 0 <= i < |calls| && calls[i].op.Save? ==> UtcExpiry(calls[i].op.proof))
    && (forall i, j :: 0 <= i <= j < |calls| ==> calls[i].now <= calls[j].now)
  }
}
