/** Which slots an emission gives a turn. */
module SignalEmissions {
  import opened Wrappers
  import opened SlotTable
  import opened SignalProtocol
  import opened SignalMemory
  import opened SignalSlots
  import opened SignalInvariant
  import opened SignalRuns
  import opened SignalTheorems

  // ----- which slots get a turn

  /** An emission that took its reference at step j: its snapshot holds exactly the slots remaining then. */
  lemma SnapshotSlots(states: seq<State>, labels: seq<Label>, j: nat, k: nat, a: ActivityId)
    requires Run(states, labels) && j < k < |states|
    requires a in states[j].acts && states[j].acts[a] == Referencing(Emission) && labels[j] == Act(a)
    requires a in states[k].acts && states[k].acts[a].Emitting?
    ensures Elems(Flatten(states[k].acts[a].view.snap)) == Remaining(states[j])
  {
    hide Inv, Slots, Enabled, WellFormed, Flatten, NoCleanupPending, ViewOf;
    InvRun(states, labels, j);
    ReferenceTakesCurrent(states, labels, j, a);
    ListIsLedger(states, labels, j);
    ViewStable(states, labels, j + 1, k, a);
    ReaderFacts(states[k].acts[a]);
    FlattenElems(states[k].acts[a].view.snap);
  }

  /** An emission that took its reference at step j and has been through its snapshot gave a slot a turn if
  and only if the slot had been added, and not removed by any route, at step j. What happens to the slot
  later, short of that, does not matter. */
  lemma TurnIffListed(states: seq<State>, labels: seq<Label>, j: nat, k: nat, a: ActivityId, slot: SlotId)
    requires Run(states, labels) && j < k < |states|
    requires a in states[j].acts && states[j].acts[a] == Referencing(Emission) && labels[j] == Act(a)
    requires a in states[k].acts && states[k].acts[a].Emitting?
    requires states[k].acts[a].g == |states[k].acts[a].view.snap|
    ensures slot in LogSlots(states[k].acts[a].log) <==> slot in Remaining(states[j])
  {
    hide Run, Flatten, LogSlots, Remaining, Distinct;
    SnapshotSlots(states, labels, j, k, a);
    EmissionOrder(states, labels, k, a);
    InElems(Flatten(states[k].acts[a].view.snap), slot);
  }

  lemma InElems<T>(s: seq<T>, x: T)
    ensures x in s <==> x in Elems(s)
  {
  }

  /** A slot removed by any route before an emission takes its reference gets no turn in it. */
  lemma RemovedBeforeNoTurn(states: seq<State>, labels: seq<Label>, j: nat, k: nat, a: ActivityId, slot: SlotId)
    requires Run(states, labels) && j < k < |states|
    requires a in states[j].acts && states[j].acts[a] == Referencing(Emission) && labels[j] == Act(a)
    requires a in states[k].acts && states[k].acts[a].Emitting?
    requires slot in states[j].bulk || slot in states[j].cleaned
    ensures states[k].acts[a].turn.Visit? ==> states[k].acts[a].turn.slot != slot
    ensures forall i :: 0 <= i < |states[k].acts[a].log| ==> states[k].acts[a].log[i].slot != slot
  {
    hide Run, Flatten, LogSlots, Distinct;
    SnapshotSlots(states, labels, j, k, a);
    EmissionOrder(states, labels, k, a);
    var x := states[k].acts[a];
    var all := Flatten(x.view.snap);
    LogEntries(x.log);
    forall i | 0 <= i < |all| ensures all[i] != slot {
      assert all[i] in Elems(all);
    }
    forall i | 0 <= i < |x.log| ensures x.log[i].slot != slot {
      assert x.log[i].slot == LogSlots(x.log)[i] == all[i];
    }
  }
}
