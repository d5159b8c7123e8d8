/** The dict-backed proof store. */
module InMemoryStore {
  import opened Timestamp
  import opened ProofModel
  import opened ProofStore

  type Proofs = map<string, StoredProof>

  /** `expires_at < now`; comparing a naive expiry raises instead. */
  predicate ExpiredAt(p: StoredProof, now: int) {
    p.expiresAt.offset.Some? && Instant(p.expiresAt) < now
  }

  function GetResult(m: Proofs, id: string, now: int): GetOutcome {
    if id !in m then Missing
    else if m[id].expiresAt.offset.None? then StorageError
    else if ExpiredAt(m[id], now) then Expired(m[id].expiresAt)
    else Found(m[id])
  }

  function AfterGet(m: Proofs, id: string, now: int): Proofs {
    if GetResult(m, id, now).Expired? then m - {id} else m
  }

  /** What is left once every key of `seen` has been looked at, each at its own time. */
  function Survivors(m: Proofs, seen: map<string, int>): Proofs {
    map k | k in m && !(k in seen && ExpiredAt(m[k], seen[k])) :: m[k]
  }

  /** Looking at one more key is one more `get`. */
  lemma SweepStep(m: Proofs, seen: map<string, int>, id: string, now: int)
    requires id in m && id !in seen
    ensures AfterGet(Survivors(m, seen), id, now) == Survivors(m, seen[id := now])
    ensures |Survivors(m, seen[id := now])| ==
            |Survivors(m, seen)| - (if GetResult(Survivors(m, seen), id, now).Expired? then 1 else 0)
  {
    var before := Survivors(m, seen);
    assert id in before && before[id] == m[id];
    if ExpiredAt(m[id], now) {
      assert Survivors(m, seen[id := now]) == before - {id};
      RemovalShrinks(before, id);
    } else {
      assert Survivors(m, seen[id := now]) == before;
    }
  }

  class InMemoryProofStore {
    var proofs: map<string, StoredProof>

    constructor ()
      ensures proofs == map[]
    {
      proofs := map[];
    }

    method Save(proof: StoredProof)
      modifies this
      ensures proofs == old(proofs)[proof.task.taskId := proof]
    {
      proofs := proofs[proof.task.taskId := proof];
    }

    /** Reads the clock once; an expired proof is removed and reported. */
    method Get(id: string, now: int) returns (r: GetOutcome)
      modifies this
      ensures r == GetResult(old(proofs), id, now)
      ensures proofs == AfterGet(old(proofs), id, now)
    {
      if id !in proofs {
        return Missing;
      }
      var stored := proofs[id];
      if stored.expiresAt.offset.None? {
        return StorageError;
      }
      if Instant(stored.expiresAt) < now {
        Delete(id);
        return Expired(stored.expiresAt);
      }
      return Found(stored);
    }

    method Delete(id: string)
      modifies this
      ensures proofs == old(proofs) - {id}
    {
      proofs := proofs - {id};
    }

    /** All keys, expired or not. */
    method List() returns (ids: set<string>)
      ensures ids == proofs.Keys
    {
      ids := proofs.Keys;
    }

    /** One pass of `garbage_collect`; `clock(i)` is the i-th reading of the clock. */
    method Sweep(clock: nat -> int) returns (deleted: nat, ghost seen: map<string, int>)
      requires forall i: nat, j: nat :: i <= j ==> clock(i) <= clock(j)
      modifies this
      ensures seen.Keys == old(proofs).Keys
      ensures forall k :: k in seen ==> clock(0) <= seen[k]
      ensures proofs == Survivors(old(proofs), seen)
      ensures forall k :: k in proofs && proofs[k].expiresAt.offset.Some? ==> clock(0) <= Instant(proofs[k].expiresAt)
      ensures deleted == |old(proofs)| - |proofs|
    {
      var pending := List();
      var reading: nat := 0;
      deleted := 0;
      seen := map[];
      assert proofs == Survivors(old(proofs), seen);
      while pending != {}
        invariant pending !! seen.Keys && pending + seen.Keys == old(proofs).Keys
        invariant forall k :: k in seen ==> clock(0) <= seen[k]
        invariant proofs == Survivors(old(proofs), seen)
        invariant deleted == |old(proofs)| - |proofs|
        decreases pending
      {
        var id :| id in pending;
        pending := pending - {id};
        var now := clock(reading);
        reading := reading + 1;
        SweepStep(old(proofs), seen, id, now);
        var r := Get(id, now);
        if r.Expired? {
          deleted := deleted + 1;
        }
        seen := seen[id := now];
      }
    }
  }

  lemma RemovalShrinks(m: Proofs, id: string)
    requires id in m
    ensures |m - {id}| == |m| - 1
  {
    assert (m - {id}).Keys == m.Keys - {id};
    assert |(m - {id}).Keys| == |m.Keys| - 1;
  }
}
