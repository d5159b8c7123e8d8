/** `verify_response`: checking a response text against a commit. */
module ResponseCheck {
  import opened Basics
  import opened Json
  import opened CanonicalJson
  import opened ProofModel
  import opened Hashing
  import opened Client
  import opened Commits
  import opened Verify

  /** Hashes the bare text; None stands for the exception a failed lookup raises. */
  function VerifyResponse(h: HashFn, reply: LookupReply, data: string): Option<bool> {
    match reply
    case LookupFailed(_) => None
    case Fetched(commit) => Some(HashWithPrefix(h, Str(data)) == commit.sketch.outcomeHash)
  }

  // ----- A printed value is at least as long as every text in it -----

  lemma {:induction false} EscapeAllLength(s: string)
    ensures |EscapeAll(s)| >= |s|
  {
    if s != "" {
      EscapeAllLength(s[1..]);
    }
  }

  lemma {:induction false} MembersLength(ms: List<Member>, key: string)
    requires Lookup(ms, key).Some?
    ensures |PrintMembers(ms)| >= |Print(Lookup(ms, key).value)|
  {
    if ms.head.key != key {
      MembersLength(ms.tail, key);
    }
  }

  /** The canonical text of an outcome holds the response text and more. */
  lemma OutcomeTextLonger(response: string, artifacts: Option<Json>)
    requires artifacts.Some? ==> WellFormed(artifacts.value)
    ensures |Dumps(OutcomeDict(response, artifacts))| > |response|
  {
    hide OutcomeDict, Canon, Print, PrintMembers, Meaning, MembersMeaning;
    var o := OutcomeDict(response, artifacts);
    var text := Obj(Field("text", Str(response), Nil));
    BuiltDictsWellFormed("", response, artifacts);
    CanonSorts(o);
    CanonKeepsObject(o);
    BuiltLookups("", response, artifacts);
    SameLookup(o, Canon(o), "response");
    var v := Subscript(Canon(o), "response").value;
    MeaningShapes(v, text);
    SameLookup(text, v, "text");
    MeaningShapes(Subscript(v, "text").value, Str(response));
    NestedLength(Canon(o), "response", "text");
    StringLength(response);
  }

  lemma CanonKeepsObject(j: Json)
    requires j.Obj?
    ensures Canon(j).Obj?
  {
  }

  lemma MeaningShapes(a: Json, b: Json)
    requires Meaning(a) == Meaning(b)
    ensures a.Obj? <==> b.Obj?
    ensures b.Str? ==> a == b
  {
  }

  lemma StringLength(s: string)
    ensures |Print(Str(s))| > |s|
  {
    EscapeAllLength(s);
  }

  lemma NestedLength(j: Json, key: string, inner: string)
    requires Subscript(j, key).Some? && Subscript(Subscript(j, key).value, inner).Some?
    ensures |Print(j)| >= |Print(Subscript(Subscript(j, key).value, inner).value)|
  {
    MembersLength(j.members, key);
    MembersLength(Subscript(j, key).value.members, inner);
  }

  // ----- Main results -----

  /** The check passes exactly for the canonical text of the whole outcome dict. */
  lemma AcceptsExactlyOutcomeText(h: HashFn, c: ClientState, f: FinishedTask, systemId: string, status: Status, data: string)
    requires Injective(h) && Committable(f) && f.outcome.Obj?
    ensures
      var sent := RequestFor(h, c, systemId, f.taskId, SketchFor(h, f)).sketch;
      VerifyResponse(h, Fetched(Commit(sent, status)), data) == Some(data == Dumps(f.outcome))
  {
    hide DependenciesHash, Committable, Dumps;
    SentMatchesStored(h, f, c, systemId);
    PrefixCancels(h(data), h(Dumps(f.outcome)));
  }

  /** So the response text itself, for which the check is documented, is refused for every outcome the agents build. */
  lemma ResponseTextRefused(
    h: HashFn, c: ClientState, f: FinishedTask, systemId: string, status: Status, response: string, artifacts: Option<Json>)
    requires Injective(h) && Committable(f)
    requires f.outcome == OutcomeDict(response, artifacts)
    requires artifacts.Some? ==> WellFormed(artifacts.value)
    ensures
      var sent := RequestFor(h, c, systemId, f.taskId, SketchFor(h, f)).sketch;
      VerifyResponse(h, Fetched(Commit(sent, status)), response) == Some(false)
  {
    hide Committable, Dumps, SketchFor, RequestFor, VerifyResponse;
    AcceptsExactlyOutcomeText(h, c, f, systemId, status, response);
    OutcomeTextLonger(response, artifacts);
  }
}
