/** The queue of writers and its leaders (DBImpl::Write, db/db_impl.cc), one step per stretch with the mutex held. */
module WriterQueue {
  import opened Wrappers
  import opened WriteBatch
  import opened BatchGroup

  datatype Outcome = Done | Failed(reason: nat)

  /** A writer that has left the wait loop: making room (the mutex may be released), or logging with it released. */
  datatype Stage = MakingRoom | Writing(count: nat)

  /** What one leader did: writers lo to hi, operations logged from sequence number first on, and how it ended. */
  datatype Turn = Turn(lo: nat, hi: nat, first: nat, ops: seq<Op>, logged: bool, outcome: Option<Outcome>)

  /** A record of the log: operations, and the sequence number of the first. */
  datatype Record = Record(first: nat, ops: seq<Op>)

  /** What the leader's calls reported: the append, the sync (if it asks for one) and the insertion. */
  datatype Calls = Calls(appended: bool, synced: bool, inserted: bool)

  datatype State = State(
    base: nat,                    // the last sequence number when the database was opened
    requests: seq<Request>,       // every Write call so far, in the order they took the mutex; a writer's id is its index
    writers: seq<nat>,            // writers_
    running: map<nat, Stage>,
    done: map<nat, Outcome>,      // w.done and w.status, until the writer has seen them
    woken: set<nat>,              // signalled and not yet looked
    returned: map<nat, Outcome>,
    tmp: seq<Op>,                 // tmp_batch_
    lastSequence: nat,
    turns: seq<Turn>,
    log: seq<Record>,             // what has been appended to log_ in full
    synced: nat,                  // how many of these a sync has covered
    inserted: seq<Record>,        // what has been inserted into mem_ in full
    reports: map<nat, Calls>)     // what the calls of each turn reported, by the turn's index

  datatype Step =
    | Arrive(request: Request)
    | Wake(id: nat)
    | RoomMade(id: nat, outcome: Outcome, count: nat)
    | Written(id: nat, calls: Calls, outcome: Outcome)

  /** The requests still queued. */
  ghost function Queued(s: State): seq<Request>
    requires forall i :: 0 <= i < |s.writers| ==> s.writers[i] < |s.requests|
  {
    seq(|s.writers|, i requires 0 <= i < |s.writers| => s.requests[s.writers[i]])
  }

  /** A writer joins the queue, and goes on only if it is at the front. */
  function Arrived(s: State, r: Request): State {
    var id := |s.requests|;
    s.(requests := s.requests + [r], writers := s.writers + [id],
       running := if s.writers == [] then s.running[id := MakingRoom] else s.running)
  }

  /** A waiting writer takes the mutex, signalled or not: it returns, leads, or waits again. */
  function Woken(s: State, id: nat): State {
    var t := s.(woken := s.woken - {id});
    if id in s.done then t.(returned := s.returned[id := s.done[id]])
    else if s.writers != [] && s.writers[0] == id then t.(running := s.running[id := MakingRoom])
    else t
  }

  /** The leader has its group; the sequence numbers after the last one are its. */
  ghost function Grouped(s: State, id: nat, count: nat, group: seq<Request>): State {
    s.(running := s.running[id := Writing(count)],
       tmp := if Joined(group, count) then Merged(group) else [],
       turns := s.turns + [Turn(id, id + count, s.lastSequence + 1, Merged(group), true, None)])
  }

  /** The first n writers of the queue without the leader. */
  function Riders(writers: seq<nat>, n: nat): seq<nat>
    requires n <= |writers|
  {
    if n == 0 then [] else writers[1..n]
  }

  function Told(done: map<nat, Outcome>, riders: seq<nat>, outcome: Outcome): map<nat, Outcome> {
    done + (map w | w in riders :: outcome)
  }

  function Signalled(woken: set<nat>, riders: seq<nat>): set<nat> {
    woken + (set w | w in riders)
  }

  /** The first n writers leave the queue: the leader returns, the others are told, and the new front is woken. */
  function Finished(s: State, id: nat, n: nat, outcome: Outcome): State
    requires 1 <= n <= |s.writers| && s.turns != []
  {
    var rest, last := s.writers[n..], s.turns[|s.turns| - 1];
    s.(writers := rest,
       running := s.running - {id},
       done := Told(s.done, Riders(s.writers, n), outcome),
       woken := Signalled(s.woken, Riders(s.writers, n)) + (if rest == [] then {} else {rest[0]}),
       returned := s.returned[id := outcome],
       turns := s.turns[|s.turns| - 1 := last.(outcome := Some(outcome))])
  }

  /** The leader is back from the log and the memtable; the sequence number moves on whatever happened. */
  function Logged(s: State, id: nat, calls: Calls): State
    requires s.turns != [] && id < |s.requests|
  {
    var last := s.turns[|s.turns| - 1];
    var log := if calls.appended then s.log + [Record(last.first, last.ops)] else s.log;
    s.(tmp := [], lastSequence := s.lastSequence + |last.ops|, log := log,
       synced := if calls.synced then |log| else s.synced,
       inserted := if calls.inserted then s.inserted + [Record(last.first, last.ops)] else s.inserted,
       reports := s.reports[|s.turns| - 1 := calls])
  }

  /** Each call is made only after the ones before it went well, and the sync only on request. */
  predicate InOrder(sync: bool, calls: Calls) {
    (calls.synced ==> calls.appended && sync) && (calls.inserted ==> calls.appended && (sync ==> calls.synced))
  }

  predicate Succeeded(sync: bool, calls: Calls) {
    calls.appended && (sync ==> calls.synced) && calls.inserted
  }

  function Alone(s: State, id: nat): Turn {
    Turn(id, id + 1, s.lastSequence + 1, [], false, None)
  }

  ghost predicate Next(s: State, step: Step, s': State) {
    match step
    case Arrive(r) => s' == Arrived(s, r)
    case Wake(id) =>
      id < |s.requests| && id !in s.running && id !in s.returned && s' == Woken(s, id)
    case RoomMade(id, outcome, count) =>
      && id in s.running && s.running[id].MakingRoom? && id < |s.requests| && s.writers != []
      && (forall i :: 0 <= i < |s.writers| ==> s.writers[i] < |s.requests|)
      && if outcome.Done? && s.requests[id].batch.Some? then
           IsGroup(Queued(s), count) && s' == Grouped(s, id, count, Queued(s)[..count])
         else
           s' == Finished(s.(turns := s.turns + [Alone(s, id)]), id, 1, outcome)
    case Written(id, calls, outcome) =>
      && id in s.running && s.running[id].Writing? && 1 <= s.running[id].count <= |s.writers| && s.turns != []
      && id < |s.requests| && InOrder(s.requests[id].sync, calls) && (outcome.Done? <==> Succeeded(s.requests[id].sync, calls))
      && s' == Finished(Logged(s, id, calls), id, s.running[id].count, outcome)
  }

  // ----- What holds whenever the mutex is free -----

  function Head(s: State): int {
    |s.requests| - |s.writers|
  }

  ghost predicate WriterAt(s: State, i: nat)
    requires i < |s.writers|
  {
    s.writers[i] == Head(s) + i
  }

  ghost predicate QueueOk(s: State) {
    Head(s) >= 0 && forall i :: 0 <= i < |s.writers| ==> WriterAt(s, i)
  }

  /** Where turn i starts: in the queue, and in the sequence numbers. */
  function StartOf(turns: seq<Turn>, i: nat): nat
    requires i <= |turns|
  {
    if i == 0 then 0 else turns[i - 1].hi
  }

  function FirstOf(base: nat, turns: seq<Turn>, i: nat): nat
    requires i <= |turns|
  {
    if i == 0 then base + 1 else turns[i - 1].first + |turns[i - 1].ops|
  }

  /** A turn starts where the one before ended, in the queue and in the sequence numbers, and its group is allowed. */
  ghost predicate TurnOk(base: nat, requests: seq<Request>, turns: seq<Turn>, i: nat)
    requires i < |turns|
  {
    var t := turns[i];
    && t.lo == StartOf(turns, i) && t.lo < t.hi <= |requests|
    && t.first == FirstOf(base, turns, i)
    && (i < |turns| - 1 ==> t.outcome.Some?)
    && if t.logged then Grouping(requests[t.lo..t.hi], t)
       else t.ops == [] && t.hi == t.lo + 1 && (t.outcome == Some(Done) ==> requests[t.lo].batch.None?)
  }

  ghost predicate Grouping(rs: seq<Request>, t: Turn) {
    t.ops == Merged(rs) && Allowed(rs, |rs|)
  }

  ghost predicate Turns(s: State) {
    forall i :: 0 <= i < |s.turns| ==> TurnOk(s.base, s.requests, s.turns, i)
  }

  /** A group is being logged. */
  predicate Underway(s: State) {
    s.turns != [] && s.turns[|s.turns| - 1].outcome.None?
  }

  /** What the queue's front is doing, and what that means for the batch the leader may use and the sequence number. */
  ghost predicate LeaderOk(s: State) {
    if Underway(s) then
      var last := s.turns[|s.turns| - 1];
      && last.logged && s.writers != [] && last.lo == Head(s) < last.hi <= |s.requests|
      && s.writers[0] in s.running && s.running[s.writers[0]] == Writing(last.hi - last.lo)
      && s.lastSequence + 1 == last.first
      && (s.tmp == [] || s.tmp == last.ops)
    else
      && StartOf(s.turns, |s.turns|) == Head(s)
      && s.lastSequence + 1 == FirstOf(s.base, s.turns, |s.turns|)
      && s.tmp == []
      && (s.writers != [] && s.writers[0] in s.running ==> s.running[s.writers[0]].MakingRoom?)
  }

  /** Only the front of the queue runs, and when it does not, it has been signalled. */
  ghost predicate FrontOk(s: State) {
    && (forall id :: id in s.running ==> s.writers != [] && id == s.writers[0])
    && (s.writers != [] ==> s.writers[0] in s.running || s.writers[0] in s.woken)
  }

  /** How writer id's turn ended, if it had one among the first n. */
  function OutcomeOf(turns: seq<Turn>, n: nat, id: nat): Option<Outcome>
    requires n <= |turns|
  {
    if n == 0 then None
    else if turns[n - 1].lo <= id < turns[n - 1].hi then turns[n - 1].outcome
    else OutcomeOf(turns, n - 1, id)
  }

  /** Writers that left the queue know their outcome or have been signalled; those in it have none. */
  ghost predicate WriterOk(s: State, id: nat) {
    && (id in s.returned ==> id < Head(s) && OutcomeOf(s.turns, |s.turns|, id) == Some(s.returned[id]))
    && (id in s.done ==> id < Head(s) && OutcomeOf(s.turns, |s.turns|, id) == Some(s.done[id]))
    && (id < Head(s) ==> id in s.returned || (id in s.done && id in s.woken))
  }

  ghost predicate Ok(s: State) {
    && QueueOk(s) && Turns(s) && LeaderOk(s) && FrontOk(s)
    && forall id: nat :: WriterOk(s, id)
  }

  function Opened(base: nat): State {
    State(base, [], [], map[], map[], {}, map[], [], base, [], [], 0, [], map[])
  }

  lemma OpenedIsOk(base: nat)
    ensures Ok(Opened(base)) && LogOk(Opened(base))
  {
  }

  // ----- Every step keeps it -----

  lemma ArrivedIsOk(s: State, r: Request)
    requires Ok(s)
    ensures Ok(Arrived(s, r))
  {
    hide Grouping, OutcomeOf;
    var t := Arrived(s, r);
    forall i | 0 <= i < |t.writers| ensures WriterAt(t, i) {
      assert i < |s.writers| ==> WriterAt(s, i);
    }
    forall i | 0 <= i < |t.turns| ensures TurnOk(t.base, t.requests, t.turns, i) {
      assert TurnOk(s.base, s.requests, s.turns, i);
      assert t.requests[s.turns[i].lo..s.turns[i].hi] == s.requests[s.turns[i].lo..s.turns[i].hi];
    }
    forall id: nat ensures WriterOk(t, id) {
      assert WriterOk(s, id);
    }
    assert s.writers != [] ==> WriterAt(s, 0);
  }

  lemma SameQueue(s: State, t: State)
    requires t.base == s.base && t.requests == s.requests && t.writers == s.writers && t.turns == s.turns
    ensures QueueOk(s) ==> QueueOk(t)
    ensures Turns(s) ==> Turns(t)
  {
    hide Grouping;
    if QueueOk(s) {
      forall i | 0 <= i < |t.writers| ensures WriterAt(t, i) {
        assert WriterAt(s, i);
      }
    }
    if Turns(s) {
      forall i | 0 <= i < |t.turns| ensures TurnOk(t.base, t.requests, t.turns, i) {
        assert TurnOk(s.base, s.requests, s.turns, i);
      }
    }
  }

  lemma FrontIsHead(s: State)
    requires QueueOk(s) && s.writers != []
    ensures s.writers[0] == Head(s)
  {
    assert WriterAt(s, 0);
  }

  lemma WokenIsOk(s: State, id: nat)
    requires Ok(s) && id < |s.requests| && id !in s.running && id !in s.returned
    ensures Ok(Woken(s, id))
  {
    hide Turns, QueueOk, LeaderOk, FrontOk, WriterOk;
    var t := Woken(s, id);
    SameQueue(s, t);
    if s.writers != [] { FrontIsHead(s); }
    assert WriterOk(s, id);
    WokenFront(s, id);
    forall w: nat ensures WriterOk(t, w) {
      assert WriterOk(s, w);
      WokenWriter(s, id, w);
    }
  }

  lemma WokenFront(s: State, id: nat)
    requires LeaderOk(s) && FrontOk(s) && WriterOk(s, id) && (s.writers != [] ==> s.writers[0] == Head(s))
    requires id !in s.running && id !in s.returned
    ensures LeaderOk(Woken(s, id)) && FrontOk(Woken(s, id))
  {
    hide OutcomeOf, StartOf, FirstOf, Merged;
  }

  lemma WokenWriter(s: State, id: nat, w: nat)
    requires WriterOk(s, w) && WriterOk(s, id) && (s.writers != [] ==> s.writers[0] == Head(s))
    requires id !in s.returned
    ensures WriterOk(Woken(s, id), w)
  {
    hide OutcomeOf;
  }

  lemma QueuedIsSlice(s: State)
    requires QueueOk(s)
    ensures forall i :: 0 <= i < |s.writers| ==> s.writers[i] < |s.requests|
    ensures Queued(s) == s.requests[Head(s)..]
  {
    forall i | 0 <= i < |s.writers| ensures s.writers[i] < |s.requests| {
      assert WriterAt(s, i);
    }
    forall i | 0 <= i < |s.writers| ensures Queued(s)[i] == s.requests[Head(s)..][i] {
      assert WriterAt(s, i);
    }
  }

  lemma PrefixAllowed(rs: seq<Request>, n: nat)
    requires Allowed(rs, n)
    ensures Allowed(rs[..n], n)
  {
    hide Total, Weight;
    assert rs[..n][..n] == rs[..n];
    forall i | 0 < i < n ensures SyncOk(rs[..n], i) {
      assert SyncOk(rs, i);
    }
  }

  lemma TurnAdded(s: State, t: Turn)
    requires Turns(s) && !Underway(s)
    requires t.lo == StartOf(s.turns, |s.turns|) && t.lo < t.hi <= |s.requests|
    requires t.first == FirstOf(s.base, s.turns, |s.turns|)
    requires if t.logged then Grouping(s.requests[t.lo..t.hi], t)
             else t.ops == [] && t.hi == t.lo + 1 && t.outcome.None?
    ensures forall i :: 0 <= i <= |s.turns| ==> TurnOk(s.base, s.requests, s.turns + [t], i)
  {
    hide Grouping;
    forall i | 0 <= i <= |s.turns| ensures TurnOk(s.base, s.requests, s.turns + [t], i) {
      assert i < |s.turns| ==> TurnOk(s.base, s.requests, s.turns, i);
    }
  }

  /** What a turn still under way does to the outcomes: nothing yet. */
  lemma {:induction false} OutcomesKept(turns: seq<Turn>, t: Turn, n: nat, id: nat)
    requires n <= |turns|
    ensures OutcomeOf(turns + [t], n, id) == OutcomeOf(turns, n, id)
  {
    if n > 0 { OutcomesKept(turns, t, n - 1, id); }
  }

  lemma GroupedIsOk(s: State, id: nat, count: nat)
    requires Ok(s) && id in s.running && s.running[id].MakingRoom?
    requires forall i :: 0 <= i < |s.writers| ==> s.writers[i] < |s.requests|
    requires IsGroup(Queued(s), count)
    ensures count <= |s.writers|
    ensures Ok(Grouped(s, id, count, Queued(s)[..count]))
  {
    hide Merged, IsGroup, Allowed;
    GroupFits(Queued(s), count);
    var group := Queued(s)[..count];
    var t := Grouped(s, id, count, group);
    var turn := t.turns[|s.turns|];
    QueuedIsSlice(s);
    assert WriterAt(s, 0);
    assert group == s.requests[turn.lo..turn.hi];
    TurnAdded(s, turn);
    forall i | 0 <= i < |t.writers| ensures WriterAt(t, i) {
      assert WriterAt(s, i);
    }
    forall w: nat ensures WriterOk(t, w) {
      assert WriterOk(s, w);
      OutcomesKept(s.turns, turn, |s.turns|, w);
    }
  }

  lemma GroupFits(rs: seq<Request>, n: nat)
    requires IsGroup(rs, n)
    ensures 1 <= n <= |rs| && Allowed(rs[..n], |rs[..n]|)
  {
    PrefixAllowed(rs, n);
  }

  /** A turn of n writers from the front is over. */
  lemma FinishedIsOk(s: State, id: nat, n: nat, outcome: Outcome)
    requires QueueOk(s) && Turns(s) && FrontOk(s) && Underway(s)
    requires 1 <= n <= |s.writers| && id == s.writers[0] && s.tmp == []
    requires var last := s.turns[|s.turns| - 1];
             last.lo == Head(s) && last.hi == Head(s) + n && s.lastSequence + 1 == last.first + |last.ops|
    requires forall w: nat :: WriterOk(s, w)
    requires EndsWell(s, outcome)
    ensures Ok(Finished(s, id, n, outcome))
  {
    hide Grouping;
    var t := Finished(s, id, n, outcome);
    forall i | 0 <= i < |t.writers| ensures WriterAt(t, i) {
      assert WriterAt(s, n + i);
    }
    assert QueueOk(t);
    TurnsFinished(s, id, n, outcome);
    assert WriterAt(s, 0);
    forall w: nat ensures WriterOk(t, w) {
      WriterFinished(s, id, n, outcome, w);
    }
  }

  /** A turn that logged nothing may only succeed when there was nothing to log. */
  ghost predicate EndsWell(s: State, outcome: Outcome)
    requires Underway(s)
  {
    var last := s.turns[|s.turns| - 1];
    last.lo < |s.requests| && (!last.logged && outcome.Done? ==> s.requests[last.lo].batch.None?)
  }

  lemma TurnsFinished(s: State, id: nat, n: nat, outcome: Outcome)
    requires Turns(s) && Underway(s) && 1 <= n <= |s.writers| && EndsWell(s, outcome)
    ensures Turns(Finished(s, id, n, outcome))
  {
    hide Grouping;
    var t := Finished(s, id, n, outcome);
    forall i | 0 <= i < |t.turns| ensures TurnOk(t.base, t.requests, t.turns, i) {
      assert TurnOk(s.base, s.requests, s.turns, i);
      Regrouped(s.requests[s.turns[i].lo..s.turns[i].hi], s.turns[i], outcome);
    }
  }

  lemma Regrouped(rs: seq<Request>, t: Turn, outcome: Outcome)
    ensures Grouping(rs, t) <==> Grouping(rs, t.(outcome := Some(outcome)))
  {
  }

  lemma WriterFinished(s: State, id: nat, n: nat, outcome: Outcome, w: nat)
    requires QueueOk(s) && Turns(s) && Underway(s)
    requires 1 <= n <= |s.writers| && id == s.writers[0]
    requires s.turns[|s.turns| - 1].lo == Head(s) && s.turns[|s.turns| - 1].hi == Head(s) + n
    requires WriterOk(s, w)
    ensures WriterOk(Finished(s, id, n, outcome), w)
  {
    hide Turns, QueueOk, Riders;
    var t := Finished(s, id, n, outcome);
    var k: nat := |s.turns| - 1;
    RidersAre(s, n, w);
    OutcomesSet(s.turns, t.turns, k, w);
  }

  /** Who rides with a leader: the writers right behind it. */
  lemma RidersAre(s: State, n: nat, w: nat)
    requires QueueOk(s) && 1 <= n <= |s.writers|
    ensures s.writers[0] == Head(s)
    ensures w in Riders(s.writers, n) <==> Head(s) < w < Head(s) + n
  {
    assert WriterAt(s, 0);
    if w in s.writers[1..n] {
      var i: nat :| i < n - 1 && s.writers[1..n][i] == w;
      assert WriterAt(s, i + 1);
    }
    if Head(s) < w < Head(s) + n {
      assert WriterAt(s, w - Head(s));
      assert s.writers[1..n][w - Head(s) - 1] == w;
    }
  }

  lemma {:induction false} OutcomesSet(before: seq<Turn>, after: seq<Turn>, n: nat, id: nat)
    requires n <= |before| && n <= |after| && forall i :: 0 <= i < n ==> after[i] == before[i]
    ensures OutcomeOf(after, n, id) == OutcomeOf(before, n, id)
  {
    if n > 0 { OutcomesSet(before, after, n - 1, id); }
  }

  /** A leader that got no room, or brought no batch, leaves alone. */
  lemma AloneIsOk(s: State, id: nat, outcome: Outcome)
    requires Ok(s) && id in s.running && s.running[id].MakingRoom? && s.writers != [] && id < |s.requests|
    requires outcome.Done? ==> s.requests[id].batch.None?
    ensures Ok(Finished(s.(turns := s.turns + [Alone(s, id)]), id, 1, outcome))
  {
    var t := s.(turns := s.turns + [Alone(s, id)]);
    assert WriterAt(s, 0);
    TurnAdded(s, Alone(s, id));
    forall i | 0 <= i < |t.writers| ensures WriterAt(t, i) {
      assert WriterAt(s, i);
    }
    forall w: nat ensures WriterOk(t, w) {
      assert WriterOk(s, w);
      OutcomesKept(s.turns, Alone(s, id), |s.turns|, w);
    }
    FinishedIsOk(t, id, 1, outcome);
  }

  lemma WrittenIsOk(s: State, id: nat, calls: Calls, outcome: Outcome)
    requires Ok(s) && id in s.running && s.running[id].Writing? && s.turns != [] && id < |s.requests|
    ensures 1 <= s.running[id].count <= |s.writers|
    ensures Ok(Finished(Logged(s, id, calls), id, s.running[id].count, outcome))
  {
    var t := Logged(s, id, calls);
    SameQueue(s, t);
    forall w: nat ensures WriterOk(t, w) {
      assert WriterOk(s, w);
    }
    FinishedIsOk(t, id, s.running[id].count, outcome);
  }

  lemma NextIsOk(s: State, step: Step, s': State)
    requires Ok(s) && Next(s, step, s')
    ensures Ok(s')
  {
    hide Ok, Finished, Grouped, Logged, Arrived, Woken, IsGroup;
    match step
    case Arrive(r) => { ArrivedIsOk(s, r); }
    case Wake(id) => { WokenIsOk(s, id); }
    case RoomMade(id, outcome, count) => {
      if outcome.Done? && s.requests[id].batch.Some? { GroupedIsOk(s, id, count); } else { AloneIsOk(s, id, outcome); }
    }
    case Written(id, calls, outcome) => { WrittenIsOk(s, id, calls, outcome); }
  }

  // ----- Whole runs -----

  ghost predicate StepAt(states: seq<State>, steps: seq<Step>, k: nat)
    requires |states| == |steps| + 1 && k < |steps|
  {
    Next(states[k], steps[k], states[k + 1])
  }

  ghost predicate Run(states: seq<State>, steps: seq<Step>) {
    && |states| == |steps| + 1 && states[0] == Opened(states[0].base)
    && forall k :: 0 <= k < |steps| ==> StepAt(states, steps, k)
  }

  lemma {:induction false} RunIsOk(states: seq<State>, steps: seq<Step>, k: nat)
    requires Run(states, steps) && k < |states|
    ensures Ok(states[k]) && LogOk(states[k])
  {
    hide Ok, LogOk, Next;
    if k == 0 {
      OpenedIsOk(states[0].base);
    } else {
      RunIsOk(states, steps, k - 1);
      assert StepAt(states, steps, k - 1);
      NextIsOk(states[k - 1], steps[k - 1], states[k]);
      NextLogs(states[k - 1], steps[k - 1], states[k]);
    }
  }

  // ----- What is in the log -----

  /** The turn's group is a record of the log, a synced one if its leader asked for that, and is in the memtable. */
  ghost predicate InLog(s: State, t: Turn) {
    && t.lo < |s.requests| && Record(t.first, t.ops) in s.inserted
    && exists r :: 0 <= r < |s.log| && s.log[r] == Record(t.first, t.ops) && (s.requests[t.lo].sync ==> r < s.synced)
  }

  /** An acknowledged group is in the log and in the memtable; nothing else is in the log, nor in the memtable unlogged. */
  ghost predicate LogOk(s: State) {
    && s.synced <= |s.log|
    && (forall i :: 0 <= i < |s.turns| && s.turns[i].logged && s.turns[i].outcome == Some(Done) ==> InLog(s, s.turns[i]))
    && (forall r :: 0 <= r < |s.log| ==> FromTurn(s, s.log[r]))
    && (forall r :: r in s.inserted ==> r in s.log)
  }

  ghost predicate FromTurn(s: State, record: Record) {
    exists i :: 0 <= i < |s.turns| && s.turns[i].logged && record == Record(s.turns[i].first, s.turns[i].ops)
  }

  /** The log only grows, and so does what has been synced. */
  ghost predicate LogGrows(s: State, s': State) {
    s.requests <= s'.requests && s.log <= s'.log && s.synced <= s'.synced <= |s'.log| && s.inserted <= s'.inserted
  }

  lemma InLogLasts(s: State, s': State, t: Turn)
    requires LogGrows(s, s') && InLog(s, t)
    ensures InLog(s', t)
  {
    var r :| 0 <= r < |s.log| && s.log[r] == Record(t.first, t.ops) && (s.requests[t.lo].sync ==> r < s.synced);
    assert s'.log[r] == s.log[r];
  }

  /** Between log calls the log is as it was, and no group with something to log is acknowledged. */
  lemma LogUntouched(s: State, s': State)
    requires LogOk(s) && Recorded(s, s') && s'.log == s.log && s'.synced == s.synced && s'.inserted == s.inserted
    requires forall i :: 0 <= i < |s'.turns| && s'.turns[i].logged && s'.turns[i].outcome == Some(Done) ==>
                           i < |s.turns| && s'.turns[i] == s.turns[i]
    ensures LogOk(s')
  {
    hide InLog;
    forall i | 0 <= i < |s'.turns| && s'.turns[i].logged && s'.turns[i].outcome == Some(Done) ensures InLog(s', s'.turns[i]) {
      InLogLasts(s, s', s.turns[i]);
    }
    RecordsKept(s, s');
  }

  lemma RecordsKept(s: State, s': State)
    requires LogOk(s) && Recorded(s, s')
    ensures forall r :: 0 <= r < |s.log| ==> FromTurn(s', s.log[r])
  {
    forall r | 0 <= r < |s.log| ensures FromTurn(s', s.log[r]) {
      assert FromTurn(s, s.log[r]);
      var i :| 0 <= i < |s.turns| && s.turns[i].logged && s.log[r] == Record(s.turns[i].first, s.turns[i].ops);
      assert SameTurn(s.turns[i], s'.turns[i]);
    }
  }

  /** The leader's group goes into the log, and is acknowledged only then. */
  lemma WrittenLogs(s: State, id: nat, calls: Calls, outcome: Outcome)
    requires Ok(s) && LogOk(s) && id in s.running && s.running[id].Writing? && 1 <= s.running[id].count <= |s.writers|
    requires s.turns != [] && id < |s.requests| && (outcome.Done? ==> Succeeded(s.requests[id].sync, calls))
    requires InOrder(s.requests[id].sync, calls)
    ensures LogOk(Finished(Logged(s, id, calls), id, s.running[id].count, outcome))
  {
    hide InLog, FromTurn, Turns, Merged, WriterOk, StartOf, FirstOf, Told, Signalled, Riders;
    var s' := Finished(Logged(s, id, calls), id, s.running[id].count, outcome);
    var last := |s.turns| - 1;
    FinishedRecords(Logged(s, id, calls), id, s.running[id].count, outcome);
    RecordsKept(s, s');
    forall i | 0 <= i < |s'.turns| && s'.turns[i].logged && s'.turns[i].outcome == Some(Done) ensures InLog(s', s'.turns[i]) {
      if i < last { InLogLasts(s, s', s.turns[i]); } else { LastInLog(s, s', id, calls, outcome); }
    }
    LastFromTurn(s, s', id, calls, outcome);
  }

  lemma LastInLog(s: State, s': State, id: nat, calls: Calls, outcome: Outcome)
    requires QueueOk(s) && LeaderOk(s) && FrontOk(s) && id in s.running && s.running[id].Writing?
    requires 1 <= s.running[id].count <= |s.writers| && s.turns != [] && id < |s.requests|
    requires s' == Finished(Logged(s, id, calls), id, s.running[id].count, outcome)
    requires Succeeded(s.requests[id].sync, calls)
    ensures InLog(s', s'.turns[|s.turns| - 1])
  {
    FrontIsHead(s);
    assert s'.log[|s.log|] == Record(s'.turns[|s.turns| - 1].first, s'.turns[|s.turns| - 1].ops);
  }

  lemma LastFromTurn(s: State, s': State, id: nat, calls: Calls, outcome: Outcome)
    requires LeaderOk(s) && FrontOk(s) && id in s.running && s.running[id].Writing?
    requires 1 <= s.running[id].count <= |s.writers| && s.turns != [] && id < |s.requests|
    requires s' == Finished(Logged(s, id, calls), id, s.running[id].count, outcome)
    ensures |s'.log| == |s.log| || (s'.log == s.log + [s'.log[|s.log|]] && FromTurn(s', s'.log[|s.log|]))
    ensures calls.appended || s'.log == s.log
  {
    if calls.appended {
      var t := s'.turns[|s.turns| - 1];
      assert s'.log[|s.log|] == Record(t.first, t.ops);
    }
  }

  lemma NextLogs(s: State, step: Step, s': State)
    requires Ok(s) && LogOk(s) && Next(s, step, s')
    ensures LogOk(s')
  {
    hide LogOk, Turns, QueueOk, WriterOk, Merged, IsGroup, Queued, FirstOf, StartOf, Told, Signalled, Riders, Recorded;
    NextRecords(s, step, s');
    match step
    case Arrive(r) => { LogUntouched(s, s'); }
    case Wake(id) => { LogUntouched(s, s'); }
    case RoomMade(id, outcome, count) => { LogUntouched(s, s'); }
    case Written(id, calls, outcome) => { WrittenLogs(s, id, calls, outcome); }
  }

  // ----- Why writes fail -----

  /** The turn went well exactly when all its calls did. */
  predicate Explained(requests: seq<Request>, t: Turn, calls: Calls) {
    && t.lo < |requests|
    && (t.outcome == Some(Done) <==> calls.appended && (requests[t.lo].sync ==> calls.synced) && calls.inserted)
  }

  ghost predicate ReportAt(s: State, i: nat)
    requires i < |s.turns|
  {
    if s.turns[i].logged && s.turns[i].outcome.Some? then i in s.reports && Explained(s.requests, s.turns[i], s.reports[i])
    else i !in s.reports
  }

  ghost predicate ReportsOk(s: State) {
    && (forall i :: i in s.reports ==> i < |s.turns|)
    && forall i :: 0 <= i < |s.turns| ==> ReportAt(s, i)
  }

  lemma ReportsUntouched(s: State, s': State)
    requires ReportsOk(s) && Recorded(s, s') && s'.reports == s.reports
    requires forall i :: 0 <= i < |s.turns| ==> s'.turns[i] == s.turns[i] && s.turns[i].lo < |s.requests|
    requires forall i :: |s.turns| <= i < |s'.turns| ==> !s'.turns[i].logged || s'.turns[i].outcome.None?
    ensures ReportsOk(s')
  {
    forall i | 0 <= i < |s'.turns| ensures ReportAt(s', i) {
      if i < |s.turns| { assert ReportAt(s, i); }
    }
  }

  lemma WrittenReports(s: State, id: nat, calls: Calls, outcome: Outcome)
    requires LeaderOk(s) && FrontOk(s) && QueueOk(s) && ReportsOk(s) && id in s.running && s.running[id].Writing?
    requires 1 <= s.running[id].count <= |s.writers| && s.turns != [] && id < |s.requests|
    requires forall i :: 0 <= i < |s.turns| ==> s.turns[i].lo < |s.requests|
    requires outcome.Done? <==> Succeeded(s.requests[id].sync, calls)
    ensures ReportsOk(Finished(Logged(s, id, calls), id, s.running[id].count, outcome))
  {
    FrontIsHead(s);
    var s' := Finished(Logged(s, id, calls), id, s.running[id].count, outcome);
    forall i | 0 <= i < |s'.turns| ensures ReportAt(s', i) {
      assert ReportAt(s, i);
    }
  }

  lemma NextReports(s: State, step: Step, s': State)
    requires Ok(s) && ReportsOk(s) && Next(s, step, s')
    ensures ReportsOk(s')
  {
    hide ReportsOk, Merged, IsGroup, Queued, FirstOf, StartOf, Grouping, Succeeded, Finished, Logged, Grouped, Recorded;
    NextRecords(s, step, s');
    TurnsInQueue(s);
    match step
    case Arrive(r) => { ReportsUntouched(s, s'); }
    case Wake(id) => { ReportsUntouched(s, s'); }
    case RoomMade(id, outcome, count) => { RoomReports(s, id, outcome, count, s'); }
    case Written(id, calls, outcome) => { WrittenReports(s, id, calls, outcome); }
  }

  lemma RoomReports(s: State, id: nat, outcome: Outcome, count: nat, s': State)
    requires ReportsOk(s) && Recorded(s, s') && Next(s, RoomMade(id, outcome, count), s')
    requires forall i :: 0 <= i < |s.turns| ==> s.turns[i].lo < |s.requests|
    ensures ReportsOk(s')
  {
    hide ReportsOk, Recorded, Merged, IsGroup, Queued, Told, Signalled, Riders;
    ReportsUntouched(s, s');
  }

  lemma TurnsInQueue(s: State)
    requires Turns(s)
    ensures forall i :: 0 <= i < |s.turns| ==> s.turns[i].lo < |s.requests|
  {
    hide Grouping;
    forall i | 0 <= i < |s.turns| ensures s.turns[i].lo < |s.requests| {
      assert TurnOk(s.base, s.requests, s.turns, i);
    }
  }

  lemma {:induction false} RunIsExplained(states: seq<State>, steps: seq<Step>, k: nat)
    requires Run(states, steps) && k < |states|
    ensures ReportsOk(states[k])
  {
    hide Ok, LogOk, Next;
    if k > 0 {
      RunIsOk(states, steps, k - 1);
      RunIsExplained(states, steps, k - 1);
      assert StepAt(states, steps, k - 1);
      hide ReportsOk;
      NextReports(states[k - 1], steps[k - 1], states[k]);
    }
  }

  /** A write that had its group written is reported as failed only if the append, the sync it needed or the insertion failed. */
  lemma FailureHasReason(states: seq<State>, steps: seq<Step>, k: nat, id: nat) returns (i: nat)
    requires Run(states, steps) && k < |states| && id in states[k].returned && states[k].returned[id].Failed?
    ensures id < |states[k].requests| && TurnOfWriter(states[k], id, i) && i < |states[k].turns|
    ensures states[k].turns[i].logged ==>
              && i in states[k].reports && states[k].turns[i].lo < |states[k].requests|
              && var calls := states[k].reports[i];
                 !calls.appended || (states[k].requests[states[k].turns[i].lo].sync && !calls.synced) || !calls.inserted
  {
    hide LogOk, Next, Run;
    var s := states[k];
    RunIsOk(states, steps, k);
    RunIsExplained(states, steps, k);
    assert WriterOk(s, id);
    i := OneTurnEach(s, id);
    OutcomeOfTurn(s, |s.turns|, id, i);
    assert ReportAt(s, i);
  }

  /** Turns stay as they were, but for the outcome of the one under way. */
  ghost predicate SameTurn(t: Turn, t': Turn) {
    t' == t || (t.outcome.None? && t' == t.(outcome := t'.outcome))
  }

  ghost predicate Recorded(s: State, s': State) {
    && s'.base == s.base && s.requests <= s'.requests && |s.turns| <= |s'.turns|
    && forall i :: 0 <= i < |s.turns| ==> SameTurn(s.turns[i], s'.turns[i])
  }

  /** What was logged, and for whom, is never taken back or logged again. */
  lemma {:induction false} TurnsAreKept(states: seq<State>, steps: seq<Step>, j: nat, k: nat)
    requires Run(states, steps) && j <= k < |states|
    ensures Recorded(states[j], states[k])
    decreases k
  {
    hide Next, QueueOk, Turns, WriterOk, LeaderOk, FrontOk;
    if j < k {
      TurnsAreKept(states, steps, j, k - 1);
      assert StepAt(states, steps, k - 1);
      RunIsOk(states, steps, k - 1);
      NextRecords(states[k - 1], steps[k - 1], states[k]);
      forall i | 0 <= i < |states[j].turns| ensures SameTurn(states[j].turns[i], states[k].turns[i]) {
        assert SameTurn(states[j].turns[i], states[k - 1].turns[i]);
        assert SameTurn(states[k - 1].turns[i], states[k].turns[i]);
      }
    }
  }

  lemma NextRecords(s: State, step: Step, s': State)
    requires LeaderOk(s) && FrontOk(s) && Next(s, step, s')
    ensures Recorded(s, s')
  {
    hide Merged, IsGroup, Finished, Queued;
    match step
    case Arrive(r) => {}
    case Wake(id) => {}
    case RoomMade(id, outcome, count) => {
      if !(outcome.Done? && s.requests[id].batch.Some?) {
        FinishedRecords(s.(turns := s.turns + [Alone(s, id)]), id, 1, outcome);
      }
    }
    case Written(id, calls, outcome) => { FinishedRecords(Logged(s, id, calls), id, s.running[id].count, outcome); }
  }

  lemma FinishedRecords(s: State, id: nat, n: nat, outcome: Outcome)
    requires 1 <= n <= |s.writers| && Underway(s)
    ensures var t := Finished(s, id, n, outcome);
            t.base == s.base && t.requests == s.requests && |t.turns| == |s.turns|
            && (forall i :: 0 <= i < |s.turns| - 1 ==> t.turns[i] == s.turns[i])
            && t.turns[|s.turns| - 1] == s.turns[|s.turns| - 1].(outcome := Some(outcome))
  {
  }

  /** Earlier turns come before later ones, in the queue and in the sequence numbers. */
  lemma {:induction false} TurnsAreDisjoint(s: State, i: nat, j: nat)
    requires Turns(s) && i < j < |s.turns|
    ensures s.turns[i].hi <= s.turns[j].lo
    ensures s.turns[i].first + |s.turns[i].ops| <= s.turns[j].first
    decreases j
  {
    hide Grouping;
    assert TurnOk(s.base, s.requests, s.turns, j);
    if i < j - 1 {
      TurnsAreDisjoint(s, i, j - 1);
      assert TurnOk(s.base, s.requests, s.turns, j - 1);
    }
  }

  ghost predicate TurnOfWriter(s: State, id: nat, i: nat) {
    i < |s.turns| && s.turns[i].lo <= id < s.turns[i].hi
  }

  /** Every writer that left the queue had one turn, and only one. */
  lemma OneTurnEach(s: State, id: nat) returns (i: nat)
    requires Ok(s) && id < Head(s)
    ensures TurnOfWriter(s, id, i)
    ensures forall j :: TurnOfWriter(s, id, j) ==> j == i
  {
    i := FindTurn(s, |s.turns|, id);
    forall j: nat | TurnOfWriter(s, id, j) ensures j == i {
      if i < j { TurnsAreDisjoint(s, i, j); } else if j < i { TurnsAreDisjoint(s, j, i); }
    }
  }

  lemma {:induction false} FindTurn(s: State, n: nat, id: nat) returns (i: nat)
    requires Turns(s) && n <= |s.turns| && id < StartOf(s.turns, n)
    ensures i < n && TurnOfWriter(s, id, i)
  {
    hide Grouping;
    assert TurnOk(s.base, s.requests, s.turns, n - 1);
    if id < s.turns[n - 1].lo {
      i := FindTurn(s, n - 1, id);
    } else {
      i := n - 1;
    }
  }

  lemma {:induction false} OutcomeOfTurn(s: State, n: nat, id: nat, i: nat)
    requires Turns(s) && n <= |s.turns| && i < n && TurnOfWriter(s, id, i)
    ensures OutcomeOf(s.turns, n, id) == s.turns[i].outcome
  {
    if i < n - 1 {
      TurnsAreDisjoint(s, i, n - 1);
      OutcomeOfTurn(s, n - 1, id, i);
    }
  }

  /**
   * A write is acknowledged only when the one group that holds its batch is a record of the log, one that a sync has
   * covered if the write asked for that, and has been inserted into the memtable; its group is no larger than it may be.
   */
  lemma AcknowledgedWasLogged(s: State, id: nat) returns (i: nat)
    requires Ok(s) && LogOk(s) && id in s.returned && s.returned[id] == Done
    ensures id < |s.requests| && TurnOfWriter(s, id, i) && s.turns[i].outcome == Some(Done)
    ensures s.requests[id].batch.Some? ==> s.turns[i].logged
    ensures s.turns[i].lo < s.turns[i].hi <= |s.requests|
    ensures s.turns[i].logged ==>
              var group := s.requests[s.turns[i].lo..s.turns[i].hi];
              && s.turns[i].ops == Merged(group)
              && (s.requests[id].sync ==> group[0].sync)
              && Total(group) <= Limit(Weight(group[0]))
              && exists r :: 0 <= r < |s.log| && s.log[r] == Record(s.turns[i].first, Merged(group))
                             && (s.requests[id].sync ==> r < s.synced)
    ensures s.turns[i].logged ==> Record(s.turns[i].first, s.turns[i].ops) in s.inserted
  {
    assert WriterOk(s, id);
    i := OneTurnEach(s, id);
    OutcomeOfTurn(s, |s.turns|, id, i);
    assert TurnOk(s.base, s.requests, s.turns, i);
    if s.turns[i].logged {
      var group := s.requests[s.turns[i].lo..s.turns[i].hi];
      assert group[..|group|] == group && InLog(s, s.turns[i]);
      if id > s.turns[i].lo {
        assert SyncOk(group, id - s.turns[i].lo);
      }
    }
  }

  /** Nobody runs but the front of the queue, and the temporary batch is empty unless that one is logging a group. */
  lemma OneLeader(s: State, a: nat, b: nat)
    requires Ok(s) && a in s.running && b in s.running
    ensures a == b == s.writers[0]
    ensures s.running[a].MakingRoom? ==> s.tmp == []
  {
  }

  /** While the queue is not empty, some step of a thread that is running or signalled is possible. */
  lemma SomebodyMoves(s: State) returns (step: Step, s': State)
    requires Ok(s) && s.writers != []
    ensures Next(s, step, s') && !step.Arrive?
    ensures step.Wake? ==> step.id == s.writers[0] && step.id in s.woken
    ensures step.RoomMade? || step.Written? ==> step.id == s.writers[0]
    ensures Remaining(s') < Remaining(s)
  {
    var id := s.writers[0];
    assert WriterAt(s, 0) && WriterOk(s, id);
    if id !in s.running {
      step, s' := Wake(id), Woken(s, id);
    } else if s.running[id].MakingRoom? {
      QueuedIsSlice(s);
      step, s' := LeaderGetsRoom(s, id);
    } else {
      var calls := Calls(true, s.requests[id].sync, true);
      WrittenIsOk(s, id, calls, Done);
      step, s' := Written(id, calls, Done), Finished(Logged(s, id, calls), id, s.running[id].count, Done);
    }
  }

  /** How far the queue is from being empty. */
  function Remaining(s: State): nat {
    if s.writers == [] then 0
    else 3 * |s.writers| - (if s.writers[0] !in s.running then 0 else if s.running[s.writers[0]].MakingRoom? then 1 else 2)
  }

  lemma LeaderGetsRoom(s: State, id: nat) returns (step: Step, s': State)
    requires Ok(s) && s.writers != [] && id == s.writers[0] && id in s.running && s.running[id].MakingRoom?
    requires id < |s.requests| && forall i :: 0 <= i < |s.writers| ==> s.writers[i] < |s.requests|
    ensures Next(s, step, s') && step.RoomMade? && step.id == id && Remaining(s') < Remaining(s)
  {
    hide Ok;
    if s.requests[id].batch.Some? {
      AloneIsAllowed(Queued(s));
      var count := GroupExists(Queued(s), 1);
      GroupFits(Queued(s), count);
      step, s' := RoomMade(id, Done, count), Grouped(s, id, count, Queued(s)[..count]);
    } else {
      step, s' := RoomMade(id, Done, 1), Finished(s.(turns := s.turns + [Alone(s, id)]), id, 1, Done);
    }
  }

  /** From every reachable state the queue can empty by itself: every writer gets its turn and its answer. */
  lemma {:induction false} QueueDrains(s: State) returns (states: seq<State>, steps: seq<Step>)
    requires Ok(s)
    ensures |states| == |steps| + 1 && states[0] == s
    ensures forall k :: 0 <= k < |steps| ==> StepAt(states, steps, k) && !steps[k].Arrive?
    ensures states[|steps|].writers == [] && Ok(states[|steps|])
    decreases Remaining(s)
  {
    hide Ok, Next;
    if s.writers == [] {
      states, steps := [s], [];
    } else {
      var step, s' := SomebodyMoves(s);
      NextIsOk(s, step, s');
      var states', steps' := QueueDrains(s');
      states, steps := [s] + states', [step] + steps';
      forall k | 0 <= k < |steps| ensures StepAt(states, steps, k) && !steps[k].Arrive? {
        if k > 0 { assert StepAt(states', steps', k - 1); }
      }
    }
  }

  // ----- The end of a turn as Write runs it -----

  class Queue {
    var writers: seq<nat>
    var done: map<nat, Outcome>
    var woken: set<nat>

    /** These are the queue's fields of a state. */
    ghost predicate Holds(s: State)
      reads this
    {
      writers == s.writers && done == s.done && woken == s.woken
    }

    /** Pops the leader and the writers that rode with it, tells them, and wakes the next leader. */
    method PopGroup(w: nat, lastWriter: nat, status: Outcome, ghost s: State, ghost n: nat)
      requires Holds(s) && QueueOk(s) && s.turns != [] && 1 <= n <= |writers|
      requires w == writers[0] && lastWriter == writers[n - 1]
      modifies this
      ensures Holds(Finished(s, w, n, status))
    {
      hide Told, Signalled, Riders, QueueOk;
      ghost var i := 0;
      NoRiders(s);
      PlaceIs(s, 0);
      PlaceIs(s, n - 1);
      while true
        invariant 0 <= i < n && writers == s.writers[i..]
        invariant done == Told(s.done, Riders(s.writers, i), status)
        invariant woken == Signalled(s.woken, Riders(s.writers, i))
        decreases n - i
      {
        var ready := writers[0];
        PlaceIs(s, i);
        writers := writers[1..];
        OneRider(s, i, status);
        if ready != w {
          done := done[ready := status];
          woken := woken + {ready};
        }
        i := i + 1;
        if ready == lastWriter { break; }
      }
      if writers != [] {
        woken := woken + {writers[0]};
      }
    }
  }

  lemma PlaceIs(s: State, i: nat)
    requires QueueOk(s) && i < |s.writers|
    ensures s.writers[i] == Head(s) + i
  {
    assert WriterAt(s, i);
  }

  lemma NoRiders(s: State)
    ensures forall outcome :: Told(s.done, Riders(s.writers, 0), outcome) == s.done
    ensures Signalled(s.woken, Riders(s.writers, 0)) == s.woken
  {
  }

  lemma OneRider(s: State, i: nat, outcome: Outcome)
    requires i < |s.writers|
    ensures var told, now := Told(s.done, Riders(s.writers, i), outcome), Told(s.done, Riders(s.writers, i + 1), outcome);
            now == if i == 0 then told else told[s.writers[i] := outcome]
    ensures var woken, now := Signalled(s.woken, Riders(s.writers, i)), Signalled(s.woken, Riders(s.writers, i + 1));
            now == if i == 0 then woken else woken + {s.writers[i]}
  {
    hide Told, Signalled;
    if i == 0 {
      assert Riders(s.writers, 1) == [] == Riders(s.writers, 0);
    } else {
      assert Riders(s.writers, i + 1) == Riders(s.writers, i) + [s.writers[i]];
      ToldOne(s.done, Riders(s.writers, i), s.writers[i], outcome);
      SignalledOne(s.woken, Riders(s.writers, i), s.writers[i]);
    }
  }

  lemma ToldOne(done: map<nat, Outcome>, riders: seq<nat>, w: nat, outcome: Outcome)
    ensures Told(done, riders + [w], outcome) == Told(done, riders, outcome)[w := outcome]
  {
  }

  lemma SignalledOne(woken: set<nat>, riders: seq<nat>, w: nat)
    ensures Signalled(woken, riders + [w]) == Signalled(woken, riders) + {w}
  {
  }
}
