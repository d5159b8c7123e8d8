/** Overlapping `register_system` calls: the name is checked before the POST, the caches are written after it. */
module Registrations {
  import opened Client
  import opened Hashing
  import opened ProofModel
  import opened Timestamp

  type RequestId = nat

  datatype Asked = Asked(name: string, systemType: string)

  /** The caches, and the registrations waiting for the Exchange. */
  datatype State = State(client: ClientState, asked: map<RequestId, Asked>)

  datatype Event =
    | Ask(r: RequestId, name: string, systemType: string)
    | Answer(r: RequestId, reply: RegisterReply)

  function Fresh(exchangeUrl: string): State {
    State(ClientState(exchangeUrl, [], map[], map[]), map[])
  }

  predicate Next(s: State, e: Event, s': State) {
    match e
    case Ask(r, name, systemType) =>
      && r !in s.asked
      && s' == if Knows(s.client.registered, name) then s else s.(asked := s.asked[r := Asked(name, systemType)])
    case Answer(r, reply) =>
      && r in s.asked
      && s' == State(AfterAnswer(s.client, s.asked[r].name, s.asked[r].systemType, reply), s.asked - {r})
  }

  predicate Run(states: seq<State>, events: seq<Event>) {
    && |states| == |events| + 1
    && states[0] == Fresh(states[0].client.exchangeUrl)
    && forall i :: 0 <= i < |events| ==> Next(states[i], events[i], states[i + 1])
  }

  // ----- Every registered id is cached -----

  /** Step `i` brought this id and URI from the Exchange, for a request that declared this type. */
  predicate AnsweredAt(states: seq<State>, events: seq<Event>, i: nat, id: string, uri: string, systemType: string) {
    && i < |events| && i < |states| && events[i].Answer? && events[i].r in states[i].asked
    && events[i].reply == Accepted(uri, id) && states[i].asked[events[i].r].systemType == systemType
  }

  /** One name, one entry; every registered id has a URI and a type, both from one earlier answer. */
  predicate CachesComplete(states: seq<State>, events: seq<Event>, n: nat)
    requires n < |states|
  {
    var c := states[n].client;
    && (forall i, j :: 0 <= i < j < |c.registered| ==> c.registered[i].name != c.registered[j].name)
    && (forall i :: 0 <= i < |c.registered| ==> c.registered[i].systemId in c.systemUris)
    && c.systemTypes.Keys == c.systemUris.Keys
    && (forall id :: id in c.systemUris ==>
          exists i: nat :: i < n && AnsweredAt(states, events, i, id, c.systemUris[id], c.systemTypes[id]))
  }

  lemma PutKeepsNames(registered: seq<Registered>, name: string, id: string)
    requires forall i, j :: 0 <= i < j < |registered| ==> registered[i].name != registered[j].name
    ensures
      var r := Put(registered, name, id);
      forall i, j :: 0 <= i < j < |r| ==> r[i].name != r[j].name
  {
  }

  /** A step changes the URI and type of an id only by answering with that id. */
  lemma StepChangesUri(s: State, e: Event, s': State, id: string)
    requires Next(s, e, s') && id in s'.client.systemUris && id in s'.client.systemTypes
    ensures
      || (e.Answer? && e.r in s.asked && e.reply == Accepted(s'.client.systemUris[id], id)
          && s.asked[e.r].systemType == s'.client.systemTypes[id])
      || (id in s.client.systemUris && s'.client.systemUris[id] == s.client.systemUris[id]
          && (id in s.client.systemTypes ==> s'.client.systemTypes[id] == s.client.systemTypes[id]))
  {
    hide Put, Knows;
  }

  lemma StepKeepsShape(states: seq<State>, events: seq<Event>, n: nat)
    requires 0 < n < |states| && n <= |events| && Next(states[n - 1], events[n - 1], states[n])
    requires CachesComplete(states, events, n - 1)
    ensures
      var c := states[n].client;
      && (forall i, j :: 0 <= i < j < |c.registered| ==> c.registered[i].name != c.registered[j].name)
      && (forall i :: 0 <= i < |c.registered| ==> c.registered[i].systemId in c.systemUris)
      && c.systemTypes.Keys == c.systemUris.Keys
  {
    hide AnsweredAt, Knows;
    var s, e := states[n - 1], events[n - 1];
    if e.Answer? && e.reply.Accepted? {
      PutKeepsNames(s.client.registered, s.asked[e.r].name, e.reply.systemId);
      PutIds(s.client.registered, s.asked[e.r].name, e.reply.systemId);
    }
  }

  lemma PutIds(registered: seq<Registered>, name: string, id: string)
    ensures
      var r := Put(registered, name, id);
      forall i :: 0 <= i < |r| ==> r[i].systemId == id || (i < |registered| && r[i].systemId == registered[i].systemId)
  {
  }

  /** In every interleaving of registrations, the URI sent for a registered id is one the Exchange gave for it. */
  lemma {:induction false} RegisteredIdsCached(states: seq<State>, events: seq<Event>, n: nat)
    requires Run(states, events) && n < |states|
    ensures CachesComplete(states, events, n)
  {
    hide Next, Put, Knows;
    if n > 0 {
      RegisteredIdsCached(states, events, n - 1);
      StepKeepsShape(states, events, n);
      var s, c := states[n - 1].client, states[n].client;
      forall id | id in c.systemUris
        ensures exists i: nat :: i < n && AnsweredAt(states, events, i, id, c.systemUris[id], c.systemTypes[id])
      {
        StepChangesUri(states[n - 1], events[n - 1], states[n], id);
        if id in s.systemUris && c.systemUris[id] == s.systemUris[id] && c.systemTypes[id] == s.systemTypes[id] {
          var i: nat :| i < n - 1 && AnsweredAt(states, events, i, id, s.systemUris[id], s.systemTypes[id]);
          assert AnsweredAt(states, events, i, id, c.systemUris[id], c.systemTypes[id]);
        } else {
          assert AnsweredAt(states, events, n - 1, id, c.systemUris[id], c.systemTypes[id]);
        }
      }
    }
  }

  /** In every run, the sketch sent for a registered id carries a URI that an earlier answer gave for that id. */
  lemma SentUriFromExchange(
    h: HashFn, states: seq<State>, events: seq<Event>, n: nat, i: nat, taskId: string, sketch: Sketch) returns (j: nat)
    requires Run(states, events) && n < |states| && i < |states[n].client.registered| && InlineFormattable(sketch.timestamp)
    ensures
      var c := states[n].client;
      var id := c.registered[i].systemId;
      && id in c.systemTypes && j < n
      && AnsweredAt(states, events, j, id, RequestFor(h, c, id, taskId, sketch).sketch.systemUri, c.systemTypes[id])
  {
    hide Run, RequestFor;
    RegisteredIdsCached(states, events, n);
    var c := states[n].client;
    var id := c.registered[i].systemId;
    j :| j < n && AnsweredAt(states, events, j, id, c.systemUris[id], c.systemTypes[id]);
    SentRequest(h, c, id, taskId, sketch);
  }

  // ----- The first system -----

  /** A request for the name of the first system is waiting. */
  predicate WaitsForFirst(s: State, r: RequestId) {
    s.client.registered != [] && r in s.asked && s.asked[r].name == s.client.registered[0].name
  }

  /**
   * From the moment `f` a first system is registered, its name stays first, and the requests waiting for that
   * name are among those that were waiting at `f`.
   */
  lemma {:induction false} FirstNameStays(states: seq<State>, events: seq<Event>, f: nat, n: nat)
    requires Run(states, events) && f <= n < |states| && states[f].client.registered != []
    ensures states[n].client.registered != []
    ensures states[n].client.registered[0].name == states[f].client.registered[0].name
    ensures forall r :: WaitsForFirst(states[n], r) ==> WaitsForFirst(states[f], r)
    decreases n
  {
    if f < n {
      FirstNameStays(states, events, f, n - 1);
      assert Next(states[n - 1], events[n - 1], states[n]);
    }
  }

  /**
   * Its id changes at a step exactly when that step answers, with another id, a request for the same name that
   * was already waiting when the first system was registered.
   */
  lemma FirstIdChangesExactly(states: seq<State>, events: seq<Event>, f: nat, n: nat)
    requires Run(states, events) && f <= n < |events| && states[f].client.registered != []
    ensures states[n].client.registered != [] && states[n + 1].client.registered != []
    ensures
      states[n + 1].client.registered[0].systemId != states[n].client.registered[0].systemId <==>
      && events[n].Answer? && events[n].reply.Accepted?
      && WaitsForFirst(states[f], events[n].r) && WaitsForFirst(states[n], events[n].r)
      && events[n].reply.systemId != states[n].client.registered[0].systemId
  {
    FirstNameStays(states, events, f, n);
    FirstNameStays(states, events, f, n + 1);
    assert Next(states[n], events[n], states[n + 1]);
  }

  /** Without an overlapping request for its name, the first system keeps its id for good. */
  lemma {:induction false} FirstSystemStays(states: seq<State>, events: seq<Event>, f: nat, n: nat)
    requires Run(states, events) && f <= n < |states| && states[f].client.registered != []
    requires forall r :: !WaitsForFirst(states[f], r)
    ensures states[n].client.registered != [] && states[n].client.registered[0] == states[f].client.registered[0]
    decreases n
  {
    hide Run;
    if f < n {
      RunLength(states, events);
      FirstSystemStays(states, events, f, n - 1);
      FirstIdChangesExactly(states, events, f, n - 1);
      FirstNameStays(states, events, f, n);
    }
  }

  lemma RunLength(states: seq<State>, events: seq<Event>)
    requires Run(states, events)
    ensures |states| == |events| + 1
  {
  }

  /** Two overlapping calls for one new name. */
  function OverlapEvents(name: string, systemType: string, first: RegisterReply, second: RegisterReply): seq<Event> {
    [Ask(0, name, systemType), Ask(1, name, systemType), Answer(0, first), Answer(1, second)]
  }

  function OverlapStates(url: string, name: string, systemType: string, first: RegisterReply, second: RegisterReply): seq<State> {
    var c := Fresh(url).client;
    var a := Asked(name, systemType);
    var c1 := AfterAnswer(c, name, systemType, first);
    [State(c, map[]), State(c, map[0 := a]), State(c, map[0 := a, 1 := a]), State(c1, map[1 := a]),
     State(AfterAnswer(c1, name, systemType, second), map[])]
  }

  /** They both register, and the second answer replaces the id of the first, for every name and pair of answers. */
  lemma OverlapReplacesFirst(url: string, name: string, systemType: string, first: RegisterReply, second: RegisterReply)
    requires first.Accepted? && second.Accepted?
    ensures
      var states, events := OverlapStates(url, name, systemType, first, second), OverlapEvents(name, systemType, first, second);
      && Run(states, events)
      && states[3].client.registered == [Registered(name, first.systemId)]
      && states[4].client.registered == [Registered(name, second.systemId)]
  {
    hide Next, OverlapStates, OverlapEvents;
    var states, events := OverlapStates(url, name, systemType, first, second), OverlapEvents(name, systemType, first, second);
    OverlapShape(url, name, systemType, first, second);
    forall i | 0 <= i < 4
      ensures Next(states[i], events[i], states[i + 1])
    {
      OverlapStep(url, name, systemType, first, second, i);
    }
  }

  lemma OverlapShape(url: string, name: string, systemType: string, first: RegisterReply, second: RegisterReply)
    requires first.Accepted? && second.Accepted?
    ensures
      var states := OverlapStates(url, name, systemType, first, second);
      && |states| == 5 && |OverlapEvents(name, systemType, first, second)| == 4
      && states[0] == Fresh(url)
      && states[3].client.registered == [Registered(name, first.systemId)]
      && states[4].client.registered == [Registered(name, second.systemId)]
  {
    var states := OverlapStates(url, name, systemType, first, second);
    assert states[3].client.registered == [Registered(name, first.systemId)];
    assert states[3].client.registered[0].name == name;
  }

  lemma OverlapStep(url: string, name: string, systemType: string, first: RegisterReply, second: RegisterReply, i: nat)
    requires i < 4 && first.Accepted? && second.Accepted?
    ensures Next(OverlapStates(url, name, systemType, first, second)[i], OverlapEvents(name, systemType, first, second)[i],
                 OverlapStates(url, name, systemType, first, second)[i + 1])
  {
    hide Put;
    assert !Knows([], name);
  }
}
