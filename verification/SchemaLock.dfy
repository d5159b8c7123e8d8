/** Double-checked schema creation: `_ensure_schema` and `_open` under any number of concurrent callers. */
module SchemaLock {
  import opened Basics

  type CallId = nat

  /** Where a caller of `_open` stands; a step that awaits is a state of its own. */
  datatype Pc =
    | Entering
    | Waiting
    | Rechecking
    | Connecting
    | SettingWal
    | CreatingTable
    | CreatingIndex
    | Committing
    | Closing(worked: bool)
    | Opening
    | Opened
    | Raised

  /** `completions` counts how often the flag was set. */
  datatype State = State(ready: bool, lock: Option<CallId>, wal: bool, table: bool, index: bool, completions: nat, calls: map<CallId, Pc>)

  datatype Event =
    | Arrive(c: CallId)
    | FirstCheck(c: CallId)
    | Acquire(c: CallId)
    | Recheck(c: CallId)
    | Work(c: CallId)
    | Break(c: CallId)
    | OpenData(c: CallId)

  /** A new store object on a file that may already have the journal mode, the table and the index. */
  function Start(wal: bool, table: bool, index: bool): State {
    State(false, None, wal, table, index, 0, map[])
  }

  predicate At(s: State, c: CallId, pc: Pc) {
    c in s.calls && s.calls[c] == pc
  }

  function Goto(s: State, c: CallId, pc: Pc): State {
    s.(calls := s.calls[c := pc])
  }

  /** Leaving the `async with` block. */
  function Released(s: State, c: CallId, pc: Pc): State {
    Goto(s.(lock := None), c, pc)
  }

  /** The creation block: after the second check found the flag unset, until the lock is given up. */
  predicate Creating(pc: Pc) {
    pc.Connecting? || pc.SettingWal? || pc.CreatingTable? || pc.CreatingIndex? || pc.Committing? || pc.Closing?
  }

  /** The next statement of the creation block succeeds. */
  function Worked(s: State, c: CallId, pc: Pc): State
    requires Creating(pc)
  {
    match pc
    case Connecting => Goto(s, c, SettingWal)
    case SettingWal => Goto(s.(wal := true), c, CreatingTable)
    case CreatingTable => Goto(s.(table := true), c, CreatingIndex)
    case CreatingIndex => Goto(s.(index := true), c, Committing)
    case Committing => Goto(s, c, Closing(true))
    case Closing(worked) =>
      if worked then Released(s.(ready := true, completions := s.completions + 1), c, Opening)
      else Released(s, c, Raised)
  }

  /** It fails: a failed connect or close leaves the block at once, other failures close the connection first. */
  function Broken(s: State, c: CallId, pc: Pc): State
    requires Creating(pc)
  {
    if pc.Connecting? || pc.Closing? then Released(s, c, Raised) else Goto(s, c, Closing(false))
  }

  predicate Next(s: State, e: Event, s': State) {
    match e
    case Arrive(c) => c !in s.calls && s' == Goto(s, c, Entering)
    case FirstCheck(c) => At(s, c, Entering) && s' == Goto(s, c, if s.ready then Opening else Waiting)
    case Acquire(c) => At(s, c, Waiting) && s.lock == None && s' == Goto(s.(lock := Some(c)), c, Rechecking)
    case Recheck(c) =>
      At(s, c, Rechecking) && s' == if s.ready then Released(s, c, Opening) else Goto(s, c, Connecting)
    case Work(c) => c in s.calls && Creating(s.calls[c]) && s' == Worked(s, c, s.calls[c])
    case Break(c) =>
      c in s.calls &&
      if Creating(s.calls[c]) then s' == Broken(s, c, s.calls[c])
      else (s.calls[c] == Waiting || s.calls[c] == Opening) && s' == Goto(s, c, Raised)
    case OpenData(c) => At(s, c, Opening) && s' == Goto(s, c, Opened)
  }

  predicate Run(states: seq<State>, events: seq<Event>) {
    && |states| == |events| + 1
    && states[0] == Start(states[0].wal, states[0].table, states[0].index)
    && forall i :: 0 <= i < |events| ==> Next(states[i], events[i], states[i + 1])
  }

  // ----- The invariant -----

  predicate Holds(pc: Pc) {
    pc.Rechecking? || Creating(pc)
  }

  predicate GoodCall(s: State, c: CallId, pc: Pc) {
    && (Holds(pc) <==> s.lock == Some(c))
    && (Creating(pc) ==> !s.ready)
    && (pc.CreatingTable? || pc.CreatingIndex? || pc.Committing? || pc == Closing(true) ==> s.wal)
    && (pc.CreatingIndex? || pc.Committing? || pc == Closing(true) ==> s.table)
    && (pc.Committing? || pc == Closing(true) ==> s.index)
    && (pc.Opening? || pc.Opened? ==> s.ready)
  }

  predicate Good(s: State) {
    && (s.ready ==> s.wal && s.table && s.index)
    && s.completions == (if s.ready then 1 else 0)
    && (s.lock.Some? ==> s.lock.value in s.calls)
    && forall c :: c in s.calls ==> GoodCall(s, c, s.calls[c])
  }

  lemma NextKeepsCall(s: State, e: Event, s': State, d: CallId)
    requires Next(s, e, s') && d in s'.calls
    requires d in s.calls ==> GoodCall(s, d, s.calls[d])
    requires e.c in s.calls ==> GoodCall(s, e.c, s.calls[e.c])
    requires s.ready ==> s.wal && s.table && s.index
    requires d !in s.calls ==> s.lock != Some(d)
    ensures GoodCall(s', d, s'.calls[d])
  {
    if d == e.c {
      MoverStaysGood(s, e, s');
    }
  }

  lemma MoverStaysGood(s: State, e: Event, s': State)
    requires Next(s, e, s')
    requires e.c in s.calls ==> GoodCall(s, e.c, s.calls[e.c])
    requires s.ready ==> s.wal && s.table && s.index
    requires e.c !in s.calls ==> s.lock != Some(e.c)
    ensures e.c in s'.calls && GoodCall(s', e.c, s'.calls[e.c])
  {
  }

  lemma NextKeepsGood(s: State, e: Event, s': State)
    requires Good(s) && Next(s, e, s')
    ensures Good(s')
    ensures (s.wal ==> s'.wal) && (s.table ==> s'.table) && (s.index ==> s'.index)
    ensures s.ready ==> s'.ready
  {
    forall d | d in s'.calls
      ensures GoodCall(s', d, s'.calls[d])
    {
      NextKeepsCall(s, e, s', d);
    }
  }

  lemma {:induction false} RunGood(states: seq<State>, events: seq<Event>, n: nat)
    requires Run(states, events) && n < |states|
    ensures Good(states[n])
  {
    if n > 0 {
      RunGood(states, events, n - 1);
      NextKeepsGood(states[n - 1], events[n - 1], states[n]);
    }
  }

  // ----- Main results -----

  /** At most one caller is inside the creation block. */
  lemma OneCreator(states: seq<State>, events: seq<Event>, n: nat, c: CallId, d: CallId)
    requires Run(states, events) && n < |states|
    requires c in states[n].calls && Creating(states[n].calls[c])
    requires d in states[n].calls && Creating(states[n].calls[d])
    ensures c == d
  {
    RunGood(states, events, n);
  }

  /** No caller opens its data connection before journal mode, table and index are there; creation completes at most once. */
  lemma TableBeforeData(states: seq<State>, events: seq<Event>, n: nat)
    requires Run(states, events) && n < |states|
    ensures forall c :: c in states[n].calls && (states[n].calls[c].Opening? || states[n].calls[c].Opened?) ==>
              states[n].wal && states[n].table && states[n].index
    ensures states[n].completions <= 1
    ensures states[n].ready <==> states[n].completions == 1
  {
    RunGood(states, events, n);
  }

  /** Once the flag is set, a new caller takes no lock and runs no statement of the creation block. */
  lemma ReadySkipsLock(s: State, s': State, c: CallId)
    requires s.ready && At(s, c, Entering) && Next(s, FirstCheck(c), s')
    ensures At(s', c, Opening) && s'.lock == s.lock
  {
  }

  /** A caller that waited while another completed creation finds the flag set and does not create again. */
  lemma WaiterSkipsCreation(s: State, s': State, c: CallId)
    requires s.ready && At(s, c, Rechecking) && Next(s, Recheck(c), s')
    ensures At(s', c, Opening) && s'.lock == None
  {
  }

  /** A statement that fails after connecting still closes the connection before the lock is given up. */
  lemma FailureCloses(s: State, s': State, c: CallId)
    requires c in s.calls && Creating(s.calls[c]) && !s.calls[c].Connecting? && !s.calls[c].Closing? && Next(s, Break(c), s')
    ensures At(s', c, Closing(false)) && s'.lock == s.lock && !s'.ready == !s.ready
  {
  }

  /** An attempt that raises leaves the flag unset and the lock free. */
  lemma FailureAllowsRetry(states: seq<State>, events: seq<Event>, n: nat, c: CallId)
    requires Run(states, events) && n < |events|
    requires c in states[n].calls && Creating(states[n].calls[c]) && At(states[n + 1], c, Raised)
    ensures !states[n + 1].ready && states[n + 1].lock == None
  {
    RunGood(states, events, n);
  }

  /** And a waiting caller can then enter the creation block itself. */
  lemma WaitingCallerCanRetry(s: State, d: CallId)
    requires Good(s) && !s.ready && s.lock == None && At(s, d, Waiting)
    ensures
      exists s1: State, s2: State :: Next(s, Acquire(d), s1) && Next(s1, Recheck(d), s2) && At(s2, d, Connecting)
  {
    var s1 := Goto(s.(lock := Some(d)), d, Rechecking);
    var s2 := Goto(s1, d, Connecting);
    assert Next(s, Acquire(d), s1) && Next(s1, Recheck(d), s2);
  }

  /** The callers never block each other for good: while one is unfinished, one can move. */
  lemma NeverStuck(states: seq<State>, events: seq<Event>, n: nat, c: CallId)
    requires Run(states, events) && n < |states|
    requires c in states[n].calls && !states[n].calls[c].Opened? && !states[n].calls[c].Raised?
    ensures exists e: Event, s': State :: !e.Arrive? && !e.Break? && Next(states[n], e, s')
  {
    RunGood(states, events, n);
    var s := states[n];
    var d := if s.calls[c].Waiting? && s.lock.Some? then s.lock.value else c;
    assert d in s.calls && GoodCall(s, d, s.calls[d]);
    var pc := s.calls[d];
    if pc.Entering? {
      assert Next(s, FirstCheck(d), Goto(s, d, if s.ready then Opening else Waiting));
    } else if pc.Waiting? {
      assert Next(s, Acquire(d), Goto(s.(lock := Some(d)), d, Rechecking));
    } else if pc.Rechecking? {
      assert Next(s, Recheck(d), if s.ready then Released(s, d, Opening) else Goto(s, d, Connecting));
    } else if pc.Opening? {
      assert Next(s, OpenData(d), Goto(s, d, Opened));
    } else {
      assert Next(s, Work(d), Worked(s, d, pc));
    }
  }
}
