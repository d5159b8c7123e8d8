/** `pre_challenge_dependencies`: challenging every upstream task named in a request. */
module PreChallenge {
  import opened Basics
  import opened Json
  import opened ProofModel
  import opened Hashing
  import opened Verify
  import SystemUri

  /** The `ProofData` appended for a verified dependency; its timestamp is left out. */
  datatype VerifiedDependency = VerifiedDependency(
    systemUri: string, systemType: string, taskId: string,
    invocation: Json, invocationHash: string, outcome: Json, outcomeHash: string, trustLevel: TrustLevel)

  /** The agent's live list, appended to in place. */
  class DependencyList {
    var items: seq<VerifiedDependency>

    constructor ()
      ensures items == []
    {
      items := [];
    }
  }

  /** `task_data.get("system_type", "agent")`. */
  function SystemTypeOf(task: Json): Json {
    Subscript(task, "system_type").GetOr(Str("agent"))
  }

  /** Building the record; a field of the wrong type raises a validation error. */
  function ToRecord(proof: Json): Option<VerifiedDependency> {
    var raw :- ReadTask(proof);
    var data :- Subscript(proof, "proof_data");
    var task :- Subscript(data, "task");
    if raw.systemUri.Str? && SystemTypeOf(task).Str? && raw.taskId.Str? && raw.invocation.Obj? && raw.invocationHash.Str?
       && raw.outcome.Obj? && raw.outcomeHash.Str?
    then Some(VerifiedDependency(raw.systemUri.s, SystemTypeOf(task).s, raw.taskId.s,
                                 raw.invocation, raw.invocationHash.s, raw.outcome, raw.outcomeHash.s, Verified))
    else None
  }

  /** The record of a typed task. */
  function RecordOfTask(t: ProofTask): VerifiedDependency {
    VerifiedDependency(t.systemUri, t.systemType, t.taskId, t.invocation, t.invocationHash, t.outcome, t.outcomeHash, Verified)
  }

  /** One entry of the request with what its challenge meets. */
  datatype Entry = Entry(dependency: Dependency, reply: AgentReply, exchange: ExchangeView)

  predicate Challenged(e: Entry) {
    e.dependency.challengeUrl.GetOr("") != "" && e.dependency.taskId != ""
  }

  function ResultOf(h: HashFn, registered: bool, e: Entry): ChallengeResult {
    ChallengeAndVerify(h, registered, e.reply, e.exchange, None, None)
  }

  /** The record an entry adds, if any; a raising challenge adds none. */
  function RecordsOf(h: HashFn, registered: bool, e: Entry): (r: seq<VerifiedDependency>)
    ensures |r| <= 1
  {
    var result := ResultOf(h, registered, e);
    if Challenged(e) && result.Returned? && result.verdict.verified && ToRecord(result.proof).Some?
    then [ToRecord(result.proof).value] else []
  }

  function AllRecords(h: HashFn, registered: bool, entries: seq<Entry>): seq<VerifiedDependency>
  {
    if entries == [] then []
    else AllRecords(h, registered, entries[..|entries| - 1]) + RecordsOf(h, registered, entries[|entries| - 1])
  }

  lemma OneMoreEntry(
    h: HashFn, registered: bool, entries: seq<Entry>, i: nat, start: seq<VerifiedDependency>)
    requires i < |entries|
    ensures start + AllRecords(h, registered, entries[..i]) + RecordsOf(h, registered, entries[i])
            == start + AllRecords(h, registered, entries[..i + 1])
  {
    hide RecordsOf;
    assert entries[..i + 1][..i] == entries[..i];
  }

  /** What one pass of the loop appends, read off its two tests. */
  lemma EntryRecords(h: HashFn, registered: bool, e: Entry)
    ensures !Challenged(e) ==> RecordsOf(h, registered, e) == []
    ensures
      var result := ChallengeAndVerify(h, registered, e.reply, e.exchange, None, None);
      && (!(result.Returned? && result.verdict.verified) ==> RecordsOf(h, registered, e) == [])
      && (result.Returned? && ToRecord(result.proof).None? ==> RecordsOf(h, registered, e) == [])
      && (Challenged(e) && result.Returned? && result.verdict.verified && ToRecord(result.proof).Some? ==>
          RecordsOf(h, registered, e) == [ToRecord(result.proof).value])
  {
    hide ChallengeAndVerify, ToRecord, Challenged;
  }

  // ----- What the records are worth -----

  /** A record marked VERIFIED whose content is what the Exchange holds under the record's own ids. */
  predicate Backed(h: HashFn, r: VerifiedDependency, exchange: ExchangeView) {
    && r.trustLevel == Verified
    && HashesCommitted(h, r.systemUri, r.taskId, r.invocation, r.invocationHash, r.outcome, r.outcomeHash, exchange)
  }

  /** Every appended record is backed by the Exchange. */
  lemma RecordBacked(h: HashFn, registered: bool, e: Entry)
    ensures forall r :: r in RecordsOf(h, registered, e) ==> Backed(h, r, e.exchange)
  {
    hide HashWithPrefix, Meaning, SystemUri.SystemIdOf, ReadTask;
  }

  /** An entry without a challenge URL, or without a task id, adds nothing whatever an agent would answer. */
  lemma SkippedEntry(h: HashFn, registered: bool, e: Entry)
    requires e.dependency.challengeUrl == None || e.dependency.challengeUrl == Some("") || e.dependency.taskId == ""
    ensures RecordsOf(h, registered, e) == []
  {
    hide ChallengeAndVerify, ToRecord;
  }

  /** An entry that did not verify, or whose challenge raised, adds nothing. */
  lemma RefusedEntry(h: HashFn, registered: bool, e: Entry)
    requires
      var result := ChallengeAndVerify(h, registered, e.reply, e.exchange, None, None);
      result.RaisedError? || !result.verdict.verified
    ensures RecordsOf(h, registered, e) == []
  {
    hide ChallengeAndVerify, ToRecord;
  }

  /**
   * An entry with a challenge URL and a task id that verified adds one record exactly when the record can be built:
   * its task id is a string, its contents are dicts, and its system type is absent or a string. The record holds
   * the fields of the reply, with "agent" for an absent type.
   */
  lemma VerifiedEntryRecorded(h: HashFn, registered: bool, e: Entry)
    requires e.dependency.challengeUrl.Some? && e.dependency.challengeUrl.value != "" && e.dependency.taskId != ""
    requires
      var result := ChallengeAndVerify(h, registered, e.reply, e.exchange, None, None);
      result.Returned? && result.verdict.verified
    ensures e.reply.Replied? && ReadTask(e.reply.result).Some?
    ensures
      var raw := ReadTask(e.reply.result).value;
      var task := Subscript(Subscript(e.reply.result, "proof_data").value, "task").value;
      var systemType := if Subscript(task, "system_type").Some? then Subscript(task, "system_type").value else Str("agent");
      if raw.taskId.Str? && raw.invocation.Obj? && raw.outcome.Obj? && systemType.Str? then
        && raw.systemUri.Str? && raw.invocationHash.Str? && raw.outcomeHash.Str?
        && RecordsOf(h, registered, e) ==
           [VerifiedDependency(raw.systemUri.s, systemType.s, raw.taskId.s, raw.invocation, raw.invocationHash.s,
                               raw.outcome, raw.outcomeHash.s, Verified)]
      else RecordsOf(h, registered, e) == []
  {
    hide HashWithPrefix, Meaning, SystemUri.SystemIdOf, DataText;
  }

  /** Records come in input order, each from one entry that verified. */
  lemma {:induction false} AllBacked(h: HashFn, registered: bool, entries: seq<Entry>)
    ensures forall r :: r in AllRecords(h, registered, entries) ==>
              exists i :: 0 <= i < |entries| && Challenged(entries[i]) && Backed(h, r, entries[i].exchange)
  {
    hide Backed;
    if entries != [] {
      var last := |entries| - 1;
      AllBacked(h, registered, entries[..last]);
      RecordBacked(h, registered, entries[last]);
      forall r | r in AllRecords(h, registered, entries)
        ensures exists i :: 0 <= i < |entries| && Challenged(entries[i]) && Backed(h, r, entries[i].exchange)
      {
        if r in AllRecords(h, registered, entries[..last]) {
          var i :| 0 <= i < last && Challenged(entries[..last][i]) && Backed(h, r, entries[..last][i].exchange);
          assert entries[..last][i] == entries[i];
        } else {
          assert r in RecordsOf(h, registered, entries[last]);
        }
      }
    }
  }

  /** Splitting the request splits the records: no entry, failed or not, affects another. */
  lemma {:induction false} EntriesIndependent(h: HashFn, registered: bool, before: seq<Entry>, after: seq<Entry>)
    ensures AllRecords(h, registered, before + after) == AllRecords(h, registered, before) + AllRecords(h, registered, after)
  {
    hide RecordsOf;
    if after == [] {
      assert before + after == before;
    } else {
      var last := |after| - 1;
      EntriesIndependent(h, registered, before, after[..last]);
      assert (before + after)[..|before| + last] == before + after[..last];
    }
  }

  lemma ReadSystemType(p: StoredProof)
    ensures Subscript(DumpProof(p), "proof_data").Some?
    ensures Subscript(Subscript(DumpProof(p), "proof_data").value, "task") == Some(DumpTask(p.task))
    ensures SystemTypeOf(DumpTask(p.task)) == Str(p.task.systemType)
  {
    var members := DumpTask(p.task).members;
    assert members.tail.head == Member("system_type", Str(p.task.systemType));
    assert members.head.key == "system_uri" && |members.head.key| != |"system_type"|;
    assert Lookup(members, "system_type") == Lookup(members.tail, "system_type");
  }

  /** A challenged entry answered with a typed stored proof adds exactly its task, exactly when the client would verify it. */
  lemma HonestEntryRecorded(h: HashFn, e: Entry, p: StoredProof)
    requires e.dependency.challengeUrl.Some? && e.dependency.challengeUrl.value != "" && e.dependency.taskId != ""
    requires e.reply == Replied(DumpProof(p)) && TypedTask(p.task)
    ensures RecordsOf(h, true, e) == if VerifyTask(h, p.task, e.exchange).verified then [RecordOfTask(p.task)] else []
  {
    hide ReadTask, DumpProof, DumpTask, ChallengeAndVerify, VerifyTask, ChallengeReports, Meaning, HashWithPrefix, SystemTypeOf, Subscript;
    ReadDumped(p);
    ReadSystemType(p);
    VerifiersAgree(h, p, e.exchange);
  }

  // ----- The loop -----

  /** A challengeable entry whose agent discloses a typed proof that the client's own verifier accepts. */
  predicate Honest(h: HashFn, e: Entry, p: StoredProof) {
    && e.dependency.challengeUrl.Some? && e.dependency.challengeUrl.value != "" && e.dependency.taskId != ""
    && e.reply == Replied(DumpProof(p)) && TypedTask(p.task) && VerifyTask(h, p.task, e.exchange).verified
  }

  lemma {:induction false} SkippedEntries(h: HashFn, registered: bool, entries: seq<Entry>)
    ensures (forall i :: 0 <= i < |entries| ==>
               entries[i].dependency.challengeUrl.GetOr("") == "" || entries[i].dependency.taskId == "") ==>
            AllRecords(h, registered, entries) == []
  {
    hide RecordsOf;
    if entries != [] && forall i :: 0 <= i < |entries| ==>
         entries[i].dependency.challengeUrl.GetOr("") == "" || entries[i].dependency.taskId == "" {
      var last := |entries| - 1;
      SkippedEntries(h, registered, entries[..last]);
      SkippedEntry(h, registered, entries[last]);
    }
  }

  lemma {:induction false} RecordKept(h: HashFn, registered: bool, entries: seq<Entry>, i: nat, r: VerifiedDependency)
    requires i < |entries| && RecordsOf(h, registered, entries[i]) == [r]
    ensures r in AllRecords(h, registered, entries)
  {
    hide RecordsOf;
    var last := |entries| - 1;
    if i < last {
      RecordKept(h, registered, entries[..last], i, r);
    } else {
      assert r in RecordsOf(h, registered, entries[last]);
    }
  }

  method PreChallengeDependencies(h: HashFn, registered: bool, list: DependencyList, entries: seq<Entry>)
    modifies list
    ensures list.items == old(list.items) + AllRecords(h, registered, entries)
    ensures (forall i :: 0 <= i < |entries| ==>
               entries[i].dependency.challengeUrl.GetOr("") == "" || entries[i].dependency.taskId == "") ==>
            list.items == old(list.items)
    ensures forall i, p :: 0 <= i < |entries| && Honest(h, entries[i], p) && registered ==>
              RecordOfTask(p.task) in list.items[|old(list.items)|..]
  {
    assert AllRecords(h, registered, entries[..0]) == [];
    hide ChallengeAndVerify, ToRecord, AllRecords, Challenged, RecordsOf, Honest, RecordOfTask;
    var i := 0;
    assert list.items == old(list.items) + [];
    while i < |entries|
      invariant i <= |entries|
      invariant list.items == old(list.items) + AllRecords(h, registered, entries[..i])
    {
      var e := entries[i];
      ghost var before := list.items;
      OneMoreEntry(h, registered, entries, i, old(list.items));
      EntryRecords(h, registered, e);
      if Challenged(e) {
        var result := ChallengeAndVerify(h, registered, e.reply, e.exchange, None, None);
        if result.Returned? && result.verdict.verified {
          var record := ToRecord(result.proof);
          if record.Some? {
            list.items := list.items + [record.value];
          }
        }
      }
      assert list.items == before + RecordsOf(h, registered, e);
      i := i + 1;
    }
    assert entries[..i] == entries;
    SkippedEntries(h, registered, entries);
    forall i, p | 0 <= i < |entries| && Honest(h, entries[i], p) && registered
      ensures RecordOfTask(p.task) in AllRecords(h, registered, entries)
    {
      HonestEntryRecorded(h, entries[i], p);
      RecordKept(h, registered, entries, i, RecordOfTask(p.task));
    }
  }
}
