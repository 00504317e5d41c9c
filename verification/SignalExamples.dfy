/** Two runs: disconnect_all does not reach an emission under way, and a destructor can deadlock. */
module SignalExamples {
  import opened Wrappers
  import opened SlotTable
  import opened SignalProtocol
  import opened SignalRuns
  import opened SignalDeadlock

  // ----- a slot removed in bulk during an emission is still called

  /** An action of a writer or reader that accesses only live memory is its step. */
  lemma ActIs(s: State, a: ActivityId)
    requires a in s.acts && (WantsMutex(s.acts[a]) ==> s.mutex == None)
    requires !Waits(s.acts[a]) && s.parent == map[]
    requires var t := Touched(s, s.acts[a]); t.Some? ==> t.value in s.heap
    ensures Enabled(s, Act(a))
    ensures var x := s.acts[a];
            After(s, Act(a)) == if x.Writing? then WriteStep(s, a, x.op, x.phase) else ReadStep(s, a, x)
  {
    hide WriteStep, ReadStep;
  }

  /** One more action of activity a. */
  lemma Advance(states: seq<State>, labels: seq<Label>, a: ActivityId) returns (more: seq<State>, path: seq<Label>)
    requires Run(states, labels)
    requires var s := states[|states| - 1];
             && a in s.acts && (WantsMutex(s.acts[a]) ==> s.mutex == None)
             && !Waits(s.acts[a]) && s.parent == map[]
             && var t := Touched(s, s.acts[a]); t.Some? ==> t.value in s.heap
    ensures Run(more, path) && |more| == |states| + 1 && more[..|states|] == states
    ensures var s, x := states[|states| - 1], states[|states| - 1].acts[a];
            more[|more| - 1] == if x.Writing? then WriteStep(s, a, x.op, x.phase) else ReadStep(s, a, x)
  {
    hide Run, WriteStep, ReadStep, Touched, After, Enabled;
    RunNonempty(states, labels);
    ActIs(states[|states| - 1], a);
    more, path := Extend(states, labels, Act(a));
  }

  lemma RunNonempty(states: seq<State>, labels: seq<Label>)
    requires Run(states, labels)
    ensures |states| > 0
  {
  }

  const LIST: seq<Group> := [Group(0, [7])]

  /** Slot 7 is connected and listed, alone. */
  predicate SevenListed(s: State) {
    && s.cur == 0 && 0 in s.heap && s.heap[0].groups == LIST && s.mutex == None
    && 7 !in s.disconnected && 7 !in s.blocked && 7 !in s.tracks && s.parent == map[]
  }

  lemma ConnectSeven() returns (states: seq<State>, labels: seq<Label>)
    ensures Run(states, labels) && |states| > 0
    ensures var s := states[|states| - 1];
            && SevenListed(s) && s.heap == map[0 := Payload(1, LIST)] && s.nextAct == 1 && s.acts == map[]
            && s.nextPayload == 1 && !s.signalBlocked && s.group.Keys == {7} && 7 in s.added
  {
    states, labels := BeginConnect();
    hide Run;
    states, labels := Advance(states, labels, 0);
    AddSeven();
    states, labels := Advance(states, labels, 0);
    states, labels := Advance(states, labels, 0);
  }

  lemma AddSeven()
    ensures AddSlot(Table([], map[7 := 0]), 7, 0).groups == LIST
  {
    assert LowerBound([], 0) == 0;
    assert WithGroup([], 0) == [Group(0, [])];
    assert [] + [7] == [7];
    assert [Group(0, [])][0 := Group(0, [7])] == LIST;
  }

  lemma BeginConnect() returns (states: seq<State>, labels: seq<Label>)
    ensures Run(states, labels) && |states| > 0
    ensures states[|states| - 1] == Put(Connected(INIT, 7, 0, None).(mutex := Some(0)), 0, Writing(Add(7), Ready))
  {
    states, labels := [INIT], [];
    assert Run(states, labels);
    hide Run;
    states, labels := Extend(states, labels, CallConnect(7, 0, None, None));
    states, labels := Advance(states, labels, 0);
    states, labels := Advance(states, labels, 0);
    var s := Connected(INIT, 7, 0, None);
    assert s.acts[0 := Writing(Add(7), Testing)][0 := Writing(Add(7), Ready)] == s.acts[0 := Writing(Add(7), Ready)];
  }

  const FETCHING: Activity := Emitting(View(0, LIST), 0, 0, Fetch, [])

  /** Emission 1 has its snapshot, and has not looked at slot 7 yet. */
  predicate Snapshot(s: State) {
    && 0 in s.heap && s.heap[0].groups == LIST && 1 in s.acts && s.acts[1] == FETCHING
    && 7 !in s.disconnected && 7 !in s.blocked && 7 !in s.tracks && s.parent == map[]
  }

  lemma EmitUpToSnapshot() returns (states: seq<State>, labels: seq<Label>)
    ensures Run(states, labels) && |states| > 0
    ensures var s := states[|states| - 1];
            Snapshot(s) && SevenListed(s) && s.heap[0].count == 2 && s.nextAct == 2 && s.nextPayload == 1
  {
    states, labels := ConnectSeven();
    hide Run;
    states, labels := Extend(states, labels, CallEmit(None));
    states, labels := Advance(states, labels, 1);
    states, labels := Advance(states, labels, 1);
    states, labels := Advance(states, labels, 1);
    states, labels := Advance(states, labels, 1);
  }

  /** RemoveAll up to the point where it has copied the list. */
  lemma CopyForRemoveAll() returns (states: seq<State>, labels: seq<Label>)
    ensures Run(states, labels) && |states| > 0
    ensures var s := states[|states| - 1];
            && Snapshot(s) && s.cur == 0 && s.heap[0].count == 2 && 1 in s.heap && s.heap[1] == Payload(1, LIST)
            && 2 in s.acts && s.acts[2] == Writing(RemoveAll, Duplicated(1))
  {
    states, labels := EmitUpToSnapshot();
    hide Run;
    states, labels := Extend(states, labels, CallBulk(RemoveAll, None));
    states, labels := Advance(states, labels, 2);
    states, labels := Advance(states, labels, 2);
    states, labels := Advance(states, labels, 2);
  }

  /** RemoveAll up to the point where it owns the copy. */
  lemma BeginRemoveAll() returns (states: seq<State>, labels: seq<Label>)
    ensures Run(states, labels) && |states| > 0
    ensures var s := states[|states| - 1];
            && Snapshot(s) && s.cur == 1 && 1 in s.heap && s.heap[1] == Payload(1, LIST) && s.heap[0].count == 2
            && 2 in s.acts && s.acts[2] == Writing(RemoveAll, Swapped(0))
  {
    states, labels := CopyForRemoveAll();
    hide Run;
    states, labels := Advance(states, labels, 2);
  }

  /** RemoveAll returns. */
  lemma EndRemoveAll() returns (states: seq<State>, labels: seq<Label>)
    ensures Run(states, labels) && |states| > 0
    ensures var s := states[|states| - 1]; Snapshot(s) && 7 in s.bulk && 2 !in s.acts
  {
    states, labels := MutateRemoveAll();
    hide Run;
    states, labels := Advance(states, labels, 2);
    states, labels := Advance(states, labels, 2);
    states, labels := Advance(states, labels, 2);
  }

  lemma MutateRemoveAll() returns (states: seq<State>, labels: seq<Label>)
    ensures Run(states, labels) && |states| > 0
    ensures var s := states[|states| - 1];
            && Snapshot(s) && 7 in s.bulk && 2 in s.acts
            && s.acts[2].Writing? && s.acts[2].op == RemoveAll && s.acts[2].phase.Destroying?
  {
    states, labels := ReadyRemoveAll();
    hide Run, Flatten, Dropped;
    FlattenSeven();
    states, labels := Advance(states, labels, 2);
  }

  lemma ReadyRemoveAll() returns (states: seq<State>, labels: seq<Label>)
    ensures Run(states, labels) && |states| > 0
    ensures var s := states[|states| - 1];
            && Snapshot(s) && s.cur == 1 && 1 in s.heap && s.heap[1] == Payload(1, LIST)
            && 2 in s.acts && s.acts[2] == Writing(RemoveAll, Ready)
  {
    states, labels := BeginRemoveAll();
    hide Run;
    states, labels := Advance(states, labels, 2);
  }

  lemma FlattenSeven()
    ensures 7 in Flatten(LIST) && Flatten([]) == []
  {
    assert LIST[..0] == [];
  }

  /** disconnect_all does not reach an emission that already has its snapshot: in this run it has removed slot
  7 and returned by step j, before the slot's turn, and the callback runs in the last state. */
  lemma RemovedInBulkStillCalled() returns (states: seq<State>, labels: seq<Label>, j: nat)
    ensures Run(states, labels) && j < |states| - 1
    ensures 7 in states[j].bulk && 1 in states[j].acts && states[j].acts[1] == FETCHING && 2 !in states[j].acts
    ensures var s := states[|states| - 1];
            7 in s.bulk && 1 in s.acts && s.acts[1].Emitting? && s.acts[1].turn == Visit(7, Calling)
  {
    states, labels := EndRemoveAll();
    hide Run;
    j := |states| - 1;
    ghost var before := states;
    states, labels := Advance(states, labels, 1);
    assert states[j] == before[j];
    states, labels := Advance(states, labels, 1);
    assert states[j] == before[j];
    states, labels := Advance(states, labels, 1);
    assert states[j] == before[j];
  }

  // ----- a destructor that calls the signal under the mutex

  const TWO: seq<Group> := [Group(0, [7]), Group(1, [8])]

  /** Slots 7 and 8 are listed, in groups 0 and 1, and nothing else refers to them. */
  predicate TwoListed(s: State) {
    && s.heap == map[0 := Payload(1, TWO)] && s.cur == 0 && s.mutex == None && s.parent == map[]
    && 7 in s.added && 7 !in s.disconnected
  }

  lemma BeginEight() returns (states: seq<State>, labels: seq<Label>)
    ensures Run(states, labels) && |states| > 0
    ensures var s := states[|states| - 1];
            && s.heap == map[0 := Payload(1, LIST)] && s.cur == 0 && s.mutex == Some(1) && s.parent == map[]
            && 7 in s.added && 7 !in s.disconnected && s.nextAct == 2
            && s.acts.Keys == {1} && s.acts[1] == Writing(Add(8), Ready)
            && 8 in s.group && s.group[8] == 1 && 8 in s.index
  {
    states, labels := ConnectSeven();
    hide Run;
    states, labels := Extend(states, labels, CallConnect(8, 1, None, None));
    states, labels := Advance(states, labels, 1);
    states, labels := Advance(states, labels, 1);
  }

  lemma ConnectEight() returns (states: seq<State>, labels: seq<Label>)
    ensures Run(states, labels) && |states| > 0
    ensures var s := states[|states| - 1]; TwoListed(s) && s.acts == map[] && s.nextAct == 2
  {
    states, labels := BeginEight();
    hide Run, AddSlot;
    AddEight(states[|states| - 1].index);
    states, labels := Advance(states, labels, 1);
    states, labels := Advance(states, labels, 1);
    states, labels := Advance(states, labels, 1);
  }

  lemma AddEight(index: map<SlotId, nat>)
    ensures AddSlot(Table(LIST, index), 8, 1).groups == TWO
  {
    assert LowerBound(LIST, 1) == 1 by { assert LIST[1..] == []; }
    assert WithGroup(LIST, 1) == [Group(0, [7]), Group(1, [])];
    assert [] + [8] == [8];
  }

  /** disconnect(1) is about to empty group 1. */
  lemma BeginRemoveEight() returns (states: seq<State>, labels: seq<Label>)
    ensures Run(states, labels) && |states| > 0
    ensures var s := states[|states| - 1];
            && s.heap == map[0 := Payload(1, TWO)] && s.cur == 0 && s.mutex == Some(2) && s.parent == map[]
            && 7 in s.added && 7 !in s.disconnected && s.nextAct == 3
            && s.acts.Keys == {2} && s.acts[2] == Writing(RemoveGroup(1), Ready)
  {
    states, labels := ConnectEight();
    hide Run;
    states, labels := Extend(states, labels, CallBulk(RemoveGroup(1), None));
    states, labels := Advance(states, labels, 2);
    states, labels := Advance(states, labels, 2);
  }

  lemma RemoveEight(index: map<SlotId, nat>)
    ensures DisconnectGroup(Table(TWO, index), 1).0.groups == [Group(0, [7]), Group(1, [])]
    ensures 8 in Flatten(TWO) && 8 !in Flatten([Group(0, [7]), Group(1, [])])
  {
    assert GroupIndex(TWO, 1) == 1 by { assert TWO[1..] == [Group(1, [8])]; }
    var rest := [Group(0, [7]), Group(1, [])];
    assert TWO[..1] == LIST && rest[..1] == LIST && LIST[..0] == [];
    assert Flatten(LIST) == [7];
  }

  /** It has dropped slot 8, and destroys its callable while it holds the mutex. */
  lemma DestroyEight() returns (states: seq<State>, labels: seq<Label>)
    ensures Run(states, labels) && |states| > 0
    ensures var s := states[|states| - 1];
            && s.parent == map[] && 7 in s.added && 7 !in s.disconnected && s.nextAct == 3
            && 2 in s.acts && s.acts[2].Writing? && s.acts[2].phase.Destroying? && 8 in s.acts[2].phase.dead
  {
    states, labels := BeginRemoveEight();
    hide Run, Flatten, DisconnectGroup;
    ghost var s := states[|states| - 1];
    RemoveEight(s.index);
    assert !ReferredElsewhere(s, 8);
    states, labels := Advance(states, labels, 2);
  }

  /** The callable of slot 8 owns a ScopedConnection to slot 7, so its destructor disconnects slot 7: the
  cleanup waits for the mutex that disconnect(1) holds, and disconnect(1) waits for the destructor. */
  lemma DestructorDeadlocks() returns (states: seq<State>, labels: seq<Label>)
    ensures Run(states, labels) && |states| > 0 && Deadlocked(states[|states| - 1], 2, 3)
  {
    states, labels := DestroyEight();
    hide Run;
    states, labels := Extend(states, labels, CallDisconnect(7, Some(2)));
  }
}
