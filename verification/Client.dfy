/** The client's registration caches and the commits it sends. */
module Client {
  import opened Basics
  import opened Timestamp
  import opened ProofModel
  import opened Hashing
  import opened ProofMessage
  import SystemUri

  const DEFAULT_CLASSIFICATION := "question-answering"

  datatype Registered = Registered(name: string, systemId: string)

  /** The three caches; `registered` keeps the insertion order of the dict. */
  datatype ClientState = ClientState(
    exchangeUrl: string, registered: seq<Registered>, systemUris: map<string, string>, systemTypes: map<string, string>)

  /** What the Exchange answers to a registration; refusals, network errors and bad bodies raise. */
  datatype RegisterReply = Accepted(systemUri: string, systemId: string) | Refused

  datatype Registration = Registration(systemUri: string, systemId: string)

  datatype CommitRequest = CommitRequest(systemId: string, taskId: string, sketch: Sketch, proofHash: string)

  predicate Knows(registered: seq<Registered>, name: string) {
    exists i :: 0 <= i < |registered| && registered[i].name == name
  }

  function IdFor(registered: seq<Registered>, name: string): (r: string)
    requires Knows(registered, name)
    ensures exists i :: 0 <= i < |registered| && registered[i] == Registered(name, r)
  {
    if registered[0].name == name then registered[0].systemId
    else
      assert Knows(registered[1..], name) by {
        var i :| 0 <= i < |registered| && registered[i].name == name;
        assert registered[1..][i - 1].name == name;
      }
      var id := IdFor(registered[1..], name);
      assert exists i :: 0 <= i < |registered| && registered[i] == Registered(name, id) by {
        var j :| 0 <= j < |registered[1..]| && registered[1..][j] == Registered(name, id);
        assert registered[j + 1] == Registered(name, id);
      }
      id
  }

  /** Assigning to the dict: a known name keeps its place and gets the new id, a new one goes last. */
  function Put(registered: seq<Registered>, name: string, id: string): (r: seq<Registered>)
    ensures |r| == |registered| + if Knows(registered, name) then 0 else 1
    ensures forall i :: 0 <= i < |registered| ==> r[i].name == registered[i].name
    ensures Knows(r, name)
  {
    if Knows(registered, name) then
      var r := seq(|registered|, i requires 0 <= i < |registered| =>
                     if registered[i].name == name then Registered(name, id) else registered[i]);
      assert Knows(r, name) by {
        var i :| 0 <= i < |registered| && registered[i].name == name;
        assert r[i].name == name;
      }
      r
    else
      assert (registered + [Registered(name, id)])[|registered|].name == name;
      registered + [Registered(name, id)]
  }

  /** What `register_system` does with an answer; it does not look at the name again. */
  function AfterAnswer(c: ClientState, name: string, systemType: string, reply: RegisterReply): ClientState {
    if reply.Refused? then c
    else c.(registered := Put(c.registered, name, reply.systemId),
            systemUris := c.systemUris[reply.systemId := reply.systemUri],
            systemTypes := c.systemTypes[reply.systemId := systemType])
  }

  /** `register_system` with nothing in between: a known name is answered from the cache. */
  function AfterRegister(c: ClientState, name: string, systemType: string, reply: RegisterReply): ClientState {
    if Knows(c.registered, name) then c else AfterAnswer(c, name, systemType, reply)
  }

  function RegisterResult(c: ClientState, name: string, reply: RegisterReply): Option<Registration> {
    if Knows(c.registered, name) then
      var id := IdFor(c.registered, name);
      Some(Registration(SystemUri.Build(c.exchangeUrl, id), id))
    else if reply.Refused? then None
    else Some(Registration(reply.systemUri, reply.systemId))
  }

  /** The URI the Exchange gave, else one built from the configured URL. */
  function UriFor(c: ClientState, systemId: string): string {
    if systemId in c.systemUris then c.systemUris[systemId] else SystemUri.Build(c.exchangeUrl, systemId)
  }

  /** `create_commit`: the sketch's URI and a missing classification are overwritten before hashing. */
  function RequestFor(h: HashFn, c: ClientState, systemId: string, taskId: string, sketch: Sketch): CommitRequest
    requires InlineFormattable(sketch.timestamp)
  {
    var uri := UriFor(c, systemId);
    var sent := sketch.(systemUri := uri,
                        classification := Some(sketch.classification.GetOr(DEFAULT_CLASSIFICATION)));
    CommitRequest(systemId, taskId, sent,
                  ProofHash(h, Parts(uri, taskId, sent.invocationHash, sent.outcomeHash, sent.dependenciesHash, sent.timestamp)))
  }

  /** What `verify_signature` recomputes from a stored commit. */
  function SignatureHash(h: HashFn, sketch: Sketch): string
    requires InlineFormattable(sketch.timestamp)
  {
    ProofHash(h, SketchParts(sketch))
  }

  class ATPClient {
    const exchangeUrl: string
    var registered: seq<Registered>
    var systemUris: map<string, string>
    var systemTypes: map<string, string>

    constructor (exchangeUrl: string)
      ensures View() == ClientState(exchangeUrl, [], map[], map[])
    {
      this.exchangeUrl := exchangeUrl;
      registered := [];
      systemUris := map[];
      systemTypes := map[];
    }

    ghost function View(): ClientState
      reads this
    {
      ClientState(exchangeUrl, registered, systemUris, systemTypes)
    }

    /** Up to the POST: a known name is answered from the cache. */
    method FindRegistered(name: string) returns (r: Option<Registration>)
      ensures r.Some? <==> Knows(registered, name)
      ensures r.Some? ==> Registered(name, r.value.systemId) in registered
      ensures r.Some? ==> r.value.systemUri == SystemUri.Build(exchangeUrl, r.value.systemId)
      ensures r.Some? ==> r.value.systemId == IdFor(registered, name)
    {
      if Knows(registered, name) {
        var id := IdFor(registered, name);
        return Some(Registration(SystemUri.Build(exchangeUrl, id), id));
      }
      return None;
    }

    /** After the POST: the answer goes into all three caches, whatever happened in between. */
    method RecordAnswer(name: string, systemType: string, reply: RegisterReply) returns (r: Option<Registration>)
      modifies this
      ensures View() == AfterAnswer(old(View()), name, systemType, reply)
      ensures r == if reply.Refused? then None else Some(Registration(reply.systemUri, reply.systemId))
    {
      match reply
      case Refused => return None;
      case Accepted(uri, id) =>
        registered := Put(registered, name, id);
        systemUris := systemUris[id := uri];
        systemTypes := systemTypes[id := systemType];
        return Some(Registration(uri, id));
    }

    /** A call that no other registration overlaps. */
    method RegisterSystem(name: string, systemType: string, reply: RegisterReply) returns (r: Option<Registration>)
      modifies this
      ensures View() == AfterRegister(old(View()), name, systemType, reply)
      ensures r == RegisterResult(old(View()), name, reply)
    {
      r := FindRegistered(name);
      if r.None? {
        r := RecordAnswer(name, systemType, reply);
      }
    }

    method CreateCommit(h: HashFn, systemId: string, taskId: string, sketch: Sketch) returns (request: CommitRequest)
      requires InlineFormattable(sketch.timestamp)
      ensures request == RequestFor(h, View(), systemId, taskId, sketch)
      ensures request.systemId == systemId && request.taskId == taskId
      ensures request.sketch.systemUri ==
              if systemId in systemUris then systemUris[systemId] else exchangeUrl + "/systems/" + systemId
      ensures request.sketch.classification == if sketch.classification.Some? then sketch.classification else Some("question-answering")
      ensures request.sketch == sketch.(systemUri := request.sketch.systemUri, classification := request.sketch.classification)
      ensures taskId == sketch.taskId ==> SignatureHash(h, request.sketch) == request.proofHash
      ensures forall p: StoredProof :: Matches(h, p, sketch) ==> Matches(h, p, request.sketch)
    {
      hide Matches, Message;
      var uri := if systemId in systemUris then systemUris[systemId] else SystemUri.Build(exchangeUrl, systemId);
      var sent := sketch.(systemUri := uri);
      if sent.classification.None? {
        sent := sent.(classification := Some(DEFAULT_CLASSIFICATION));
      }
      var proofHash := ProofHash(h, Parts(uri, taskId, sent.invocationHash, sent.outcomeHash, sent.dependenciesHash, sent.timestamp));
      request := CommitRequest(systemId, taskId, sent, proofHash);
      forall p: StoredProof | Matches(h, p, sketch)
        ensures Matches(h, p, request.sketch)
      {
        SentStillMatches(h, View(), systemId, taskId, sketch, p);
      }
    }
  }

  // ----- Commit hash and signature hash -----

  /**
   * What is sent: the URI cached at registration, or else one built from the configured URL; the classification
   * given, or the default; everything else as it was; and the hash of the message over exactly that.
   */
  lemma SentRequest(h: HashFn, c: ClientState, systemId: string, taskId: string, sketch: Sketch)
    requires InlineFormattable(sketch.timestamp)
    ensures
      var r := RequestFor(h, c, systemId, taskId, sketch);
      && r.systemId == systemId && r.taskId == taskId
      && r.sketch.systemUri == (if systemId in c.systemUris then c.systemUris[systemId] else c.exchangeUrl + "/systems/" + systemId)
      && r.sketch.classification == (if sketch.classification.Some? then sketch.classification else Some("question-answering"))
      && r.sketch == sketch.(systemUri := r.sketch.systemUri, classification := r.sketch.classification)
      && r.proofHash == h(Message(Parts(r.sketch.systemUri, taskId, sketch.invocationHash, sketch.outcomeHash,
                                        sketch.dependenciesHash, sketch.timestamp)))
  {
  }

  /** Overwriting the URI and the classification keeps a sketch truthful. */
  lemma SentStillMatches(h: HashFn, c: ClientState, systemId: string, taskId: string, sketch: Sketch, p: StoredProof)
    requires InlineFormattable(sketch.timestamp) && Matches(h, p, sketch)
    ensures Matches(h, p, RequestFor(h, c, systemId, taskId, sketch).sketch)
  {
    hide DependenciesHash, HashWithPrefix, ProofHash, FormattableDependencies;
  }

  /** The stored sketch re-hashes to what was sent when the task ids agree; with bar-free ids, only then. */
  lemma SignatureHashAgrees(h: HashFn, c: ClientState, systemId: string, taskId: string, sketch: Sketch)
    requires InlineFormattable(sketch.timestamp)
    ensures
      var r := RequestFor(h, c, systemId, taskId, sketch);
      && r.sketch.systemUri == UriFor(c, systemId)
      && (taskId == sketch.taskId ==> SignatureHash(h, r.sketch) == r.proofHash)
      && (Injective(h) && BarFree(taskId) && BarFreeAfterUri(SketchParts(sketch)) ==>
          (SignatureHash(h, r.sketch) == r.proofHash <==> taskId == sketch.taskId))
  {
    hide Message;
    var r := RequestFor(h, c, systemId, taskId, sketch);
    if Injective(h) && BarFree(taskId) && BarFreeAfterUri(SketchParts(sketch)) {
      MessageDetermines(SketchParts(r.sketch), SketchParts(r.sketch).(taskId := taskId));
    }
  }
}
