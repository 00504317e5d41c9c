/** When slots are destroyed, and which of them while the mutex is held. */
module SignalDestruction {
  import opened Wrappers
  import opened SlotTable
  import opened SignalProtocol
  import opened SignalMemory
  import opened SignalSlots
  import opened SignalInvariant
  import opened SignalRuns

  ghost predicate OnSomeList(s: State, slot: SlotId) {
    exists p :: p in s.heap && slot in Flatten(s.heap[p].groups)
  }

  ghost predicate KeptByCall(s: State, slot: SlotId) {
    exists b :: b in s.acts && Keeps(s.acts[b], slot)
  }

  /** Somebody holds a shared pointer to the slot. */
  ghost predicate Alive(s: State, slot: SlotId) { OnSomeList(s, slot) || KeptByCall(s, slot) }

  /** The slot is destroyed on the way from s to t. */
  ghost predicate Dies(s: State, t: State, slot: SlotId) { Alive(s, slot) && !Alive(t, slot) }

  // ----- transitions that destroy nothing

  ghost predicate HasList(s: State, groups: seq<Group>) {
    exists p :: p in s.heap && s.heap[p].groups == groups
  }

  /** Lists stay, or are replaced by lists with the same slots. */
  lemma ListsKept(s: State, t: State, slot: SlotId)
    requires forall p :: p in s.heap ==> HasList(t, s.heap[p].groups)
    requires OnSomeList(s, slot)
    ensures OnSomeList(t, slot)
  {
    hide Flatten;
    var p :| p in s.heap && slot in Flatten(s.heap[p].groups);
    var q :| q in t.heap && t.heap[q].groups == s.heap[p].groups;
    assert slot in Flatten(t.heap[q].groups);
  }

  /** Activities other than a keep what they kept; so does a, if its operation goes on or ends likewise. */
  lemma CallsKeep(s: State, t: State, a: ActivityId, slot: SlotId)
    requires SameOthers(s, t, a) && KeptByCall(s, slot)
    requires a in s.acts && Keeps(s.acts[a], slot) ==> a in t.acts && Keeps(t.acts[a], slot)
    ensures KeptByCall(t, slot)
  {
    hide Keeps;
    var b :| b in s.acts && Keeps(s.acts[b], slot);
    assert b in t.acts && Keeps(t.acts[b], slot);
  }

  /** The phases of a writer that only handle payloads, and the end of the critical section. */
  lemma QuietPhases(s: State, a: ActivityId, op: Op, phase: WritePhase, slot: SlotId)
    requires MemoryInv(s) && a in s.acts && s.acts[a] == Writing(op, phase) && !Faults(s, s.acts[a])
    requires phase.Testing? || phase.Duplicating? || phase.Duplicated? || phase.Swapped? || phase.Destroying?
    requires var t := Touched(s, Writing(op, phase)); t.Some? ==> t.value in s.heap
    ensures !Dies(s, WriteStep(s, a, op, phase), slot)
  {
    hide OnSomeList, KeptByCall, MemoryInv, WriteStep, HasList, Faults, Keeps, SameOthers;
    var t := WriteStep(s, a, op, phase);
    QuietLists(s, a, op, phase);
    if OnSomeList(s, slot) { ListsKept(s, t, slot); }
    if KeptByCall(s, slot) {
      WriterFrame(s, a, op, phase);
      QuietKeepsSlots(s, a, op, phase, slot);
      CallsKeep(s, t, a, slot);
    }
  }

  lemma QuietKeepsSlots(s: State, a: ActivityId, op: Op, phase: WritePhase, slot: SlotId)
    requires a in s.acts && s.acts[a] == Writing(op, phase) && !Faults(s, s.acts[a])
    requires phase.Testing? || phase.Duplicating? || phase.Duplicated? || phase.Swapped? || phase.Destroying?
    requires var t := Touched(s, Writing(op, phase)); t.Some? ==> t.value in s.heap
    ensures var t := WriteStep(s, a, op, phase);
            Keeps(s.acts[a], slot) ==> a in t.acts && Keeps(t.acts[a], slot)
  {
    hide Mutate, Dropped;
  }

  lemma QuietLists(s: State, a: ActivityId, op: Op, phase: WritePhase)
    requires MemoryInv(s) && a in s.acts && s.acts[a] == Writing(op, phase) && !Faults(s, s.acts[a])
    requires phase.Testing? || phase.Duplicating? || phase.Duplicated? || phase.Swapped? || phase.Destroying?
    requires var t := Touched(s, Writing(op, phase)); t.Some? ==> t.value in s.heap
    ensures var t := WriteStep(s, a, op, phase);
            forall p :: p in s.heap ==> HasList(t, s.heap[p].groups)
  {
    hide MemoryInv, Mutate, Dropped;
    NextIsNew(s);
    var t := WriteStep(s, a, op, phase);
    forall p | p in s.heap ensures HasList(t, s.heap[p].groups) {
      assert p in t.heap && t.heap[p].groups == s.heap[p].groups;
    }
  }

  /** Deleting the replaced list in write() destroys no slot: its copy holds them all. */
  lemma DiscardingDestroysNothing(s: State, a: ActivityId, op: Op, p: PayloadId, slot: SlotId)
    requires MemoryInv(s) && a in s.acts && s.acts[a] == Writing(op, Discarding(p))
    ensures !Dies(s, Put(Delete(s, p), a, Writing(op, Ready)), slot)
  {
    hide OnSomeList, KeptByCall, MemoryInv, HasList;
    var t := Put(Delete(s, p), a, Writing(op, Ready));
    MemoryParts(s, a);
    DiscardLists(s, t, op, p);
    if OnSomeList(s, slot) { ListsKept(s, t, slot); }
    if KeptByCall(s, slot) { CallsKeep(s, t, a, slot); }
  }

  lemma DiscardLists(s: State, t: State, op: Op, p: PayloadId)
    requires ActOk(s, Writing(op, Discarding(p))) && s.cur in s.heap && t.heap == s.heap - {p}
    ensures forall q :: q in s.heap ==> HasList(t, s.heap[q].groups)
  {
    forall q | q in s.heap ensures HasList(t, s.heap[q].groups) {
      if q == p { assert s.cur in t.heap && t.heap[s.cur].groups == s.heap[p].groups; } else { assert q in t.heap; }
    }
  }

  // ----- mutations

  /** What a mutation leaves alone: lists other than the current one, and other activities. */
  ghost predicate Mutates(s: State, t: State, a: ActivityId) {
    && s.cur in s.heap && t.cur == s.cur
    && (exists groups :: t.heap == s.heap[s.cur := s.heap[s.cur].(groups := groups)])
    && SameOthers(s, t, a) && a in s.acts && a in t.acts
  }

  /** A slot is alive before a mutation exactly if the list or something else refers to it; likewise after. */
  lemma AliveSplit(s: State, t: State, a: ActivityId, slot: SlotId)
    requires Mutates(s, t, a)
    ensures Alive(s, slot) <==> slot in Flatten(s.heap[s.cur].groups) || ReferredElsewhere(s, slot)
    ensures s.cur in t.heap
    ensures (Keeps(s.acts[a], slot) <==> Keeps(t.acts[a], slot)) ==>
              (Alive(t, slot) <==> slot in Flatten(t.heap[s.cur].groups) || ReferredElsewhere(s, slot))
  {
    hide Flatten, Keeps;
    SplitAt(s, slot);
    SplitAt(t, slot);
    if Keeps(s.acts[a], slot) <==> Keeps(t.acts[a], slot) { SameReferences(s, t, a, slot); }
  }

  lemma SplitAt(s: State, slot: SlotId)
    requires s.cur in s.heap
    ensures Alive(s, slot) <==> slot in Flatten(s.heap[s.cur].groups) || ReferredElsewhere(s, slot)
  {
    hide Flatten, Keeps;
  }

  lemma SameReferences(s: State, t: State, a: ActivityId, slot: SlotId)
    requires Mutates(s, t, a) && (Keeps(s.acts[a], slot) <==> Keeps(t.acts[a], slot))
    ensures ReferredElsewhere(t, slot) <==> ReferredElsewhere(s, slot)
  {
    hide Flatten, Keeps;
    assert forall p :: p != s.cur ==> (p in s.heap <==> p in t.heap);
    assert forall p :: p in s.heap && p != s.cur ==> t.heap[p] == s.heap[p];
    assert forall b :: b in s.acts <==> b in t.acts;
  }

  /** connect and clean take no slot off the list but the one clean is for. */
  lemma KeptOnList(s: State, op: Op, slot: SlotId)
    requires SlotsInv(s) && s.cur in s.heap && !IsBulk(op) && op.slot in s.group && op.slot in s.index
    requires op.Add? ==> op.slot !in s.added
    requires slot in Flatten(s.heap[s.cur].groups) && op != CleanUp(slot)
    ensures slot in Flatten(ListOf(Mutate(s, op), s.cur))
  {
    hide Flatten, Slots, WellFormed, AddSlot, Clean, PendingInv, AddingInv, ViewsInv, Distinct;
    var c, u := CurTable(s), Mutate(s, op);
    FlattenElems(c.groups);
    FlattenElems(ListOf(u, s.cur));
    assert slot in Elems(Flatten(c.groups));
    if op.Add? {
      AddSlotEffect(c, op.slot, s.group[op.slot], s.group);
    } else {
      CleanEffect(c, op.slot, s.group[op.slot], s.group);
    }
    assert slot in Elems(Flatten(ListOf(u, s.cur)));
  }

  lemma AddedOnList(s: State, slot: SlotId)
    requires SlotsInv(s) && s.cur in s.heap && slot in s.group && slot !in s.added
    ensures slot in Flatten(ListOf(Mutate(s, Add(slot)), s.cur))
  {
    hide Flatten, Slots, WellFormed, AddSlot, PendingInv, AddingInv, ViewsInv, Distinct;
    var c, u := CurTable(s), Mutate(s, Add(slot));
    AddSlotEffect(c, slot, s.group[slot], s.group);
    FlattenElems(ListOf(u, s.cur));
    assert slot in Elems(Flatten(ListOf(u, s.cur)));
  }

  /** The mutation of connect or clean destroys nothing: clean's caller still holds the slot. */
  lemma SingleDestroysNothing(s: State, a: ActivityId, op: Op, slot: SlotId)
    requires MemoryInv(s) && SlotsInv(s) && a in s.acts && s.acts[a] == Writing(op, Ready) && !IsBulk(op)
    requires s.cur in s.heap && !UnknownSlot(s, s.acts[a])
    ensures !Dies(s, Put(Mutate(s, op), a, Writing(op, Mutated)), slot)
  {
    hide Flatten, Mutate, MemoryInv, SlotsInv, Alive, ReferredElsewhere, AddingInv;
    var u := Mutate(s, op);
    var t := Put(u, a, Writing(op, Mutated));
    MutateFrame(s, op);
    assert t.heap == s.heap[s.cur := s.heap[s.cur].(groups := u.heap[s.cur].groups)];
    AliveSplit(s, t, a, slot);
    if op.Add? { NotYetAdded(s, a); }
    if op == Add(slot) {
      AddedOnList(s, slot);
      SplitAt(t, slot);
    } else if op == CleanUp(slot) {
      KeptMeans(s, a, slot);
    } else if slot in Flatten(s.heap[s.cur].groups) {
      KeptOnList(s, op, slot);
    }
  }

  lemma NotYetAdded(s: State, a: ActivityId)
    requires SlotsInv(s) && a in s.acts && AddingSlot(s.acts[a]).Some?
    ensures AddingSlot(s.acts[a]).value !in s.added
  {
    hide TableInv, LedgerInv, PendingInv, ViewsInv;
    AddingFacts(s, a, AddingSlot(s.acts[a]).value);
  }

  lemma KeptMeans(s: State, a: ActivityId, slot: SlotId)
    requires a in s.acts && Keeps(s.acts[a], slot)
    ensures ReferredElsewhere(s, slot)
  {
    hide Keeps;
  }

  /** The mutation of a bulk removal destroys exactly the slots whose last reference it drops. */
  lemma BulkDestroysDropped(s: State, a: ActivityId, op: Op, phase: WritePhase, slot: SlotId)
    requires a in s.acts && s.acts[a] == Writing(op, Ready) && IsBulk(op) && s.cur in s.heap
    ensures Dies(s, Put(Mutate(s, op), a, Writing(op, phase)), slot) <==> slot in Dropped(s, Mutate(s, op))
  {
    hide Flatten, Mutate, Alive, ReferredElsewhere;
    var u := Mutate(s, op);
    var t := Put(u, a, Writing(op, phase));
    MutateFrame(s, op);
    assert t.heap == s.heap[s.cur := s.heap[s.cur].(groups := u.heap[s.cur].groups)];
    AliveSplit(s, t, a, slot);
  }

  /** A slot is destroyed while the mutex is held exactly when a bulk removal takes it off the list, no other
  list holds it, that is, no emission or slot_count under way has it in its snapshot, and no connect or
  disconnect call keeps it. connect, clean and the copying in write() destroy nothing under the mutex. */
  lemma DestroyedUnderMutex(s: State, a: ActivityId, slot: SlotId)
    requires Inv(s) && Enabled(s, Act(a)) && s.mutex == Some(a) && After(s, Act(a)).mutex == Some(a)
    ensures var x := s.acts[a];
            Dies(s, After(s, Act(a)), slot) <==>
              && x.Writing? && x.phase.Ready? && IsBulk(x.op) && s.cur in s.heap
              && slot in Dropped(s, Mutate(s, x.op))
  {
    hide MemoryInv, SlotsInv, CursorsInv, PinsInv, After, Dies, Dropped, Mutate, UnknownSlot, HasMutex;
    hide WriteStep, ReadStep;
    var x := s.acts[a];
    ActUnfolds(s, a);
    MemoryParts(s, a);
    KnownSlot(s, a);
    InsideMutex(s, a);
    if x.Writing? {
      WriterDestroys(s, a, x.op, x.phase, slot);
    } else {
      ReferenceDestroysNothing(s, a, slot);
    }
  }

  lemma WriterDestroys(s: State, a: ActivityId, op: Op, phase: WritePhase, slot: SlotId)
    requires MemoryInv(s) && SlotsInv(s) && a in s.acts && s.acts[a] == Writing(op, phase) && s.cur in s.heap
    requires !phase.Waiting? && !phase.Returning? && !UnknownSlot(s, s.acts[a])
    requires var t := Touched(s, Writing(op, phase)); t.Some? ==> t.value in s.heap
    requires WriteStep(s, a, op, phase).mutex == Some(a)
    ensures Dies(s, WriteStep(s, a, op, phase), slot) <==>
              phase.Ready? && IsBulk(op) && slot in Dropped(s, Mutate(s, op))
  {
    hide MemoryInv, SlotsInv, Dies, Dropped, Mutate;
    match phase
    case Ready =>
      if IsBulk(op) {
        BulkDestroysDropped(s, a, op, AfterMutation(s, Mutate(s, op), op), slot);
      } else {
        SingleDestroysNothing(s, a, op, slot);
      }
    case Discarding(p) => DiscardingDestroysNothing(s, a, op, p, slot);
    case Swapped(_) => SwappedLive(s, a); QuietPhases(s, a, op, phase, slot);
    case Testing => QuietPhases(s, a, op, phase, slot);
    case Duplicating => QuietPhases(s, a, op, phase, slot);
    case Duplicated(_) => QuietPhases(s, a, op, phase, slot);
    case Destroying(_) => QuietPhases(s, a, op, phase, slot);
    case Mutated =>
  }

  /** What may act inside the mutex. */
  lemma InsideMutex(s: State, a: ActivityId)
    requires MemoryInv(s) && a in s.acts && s.mutex == Some(a)
    ensures HasMutex(s.acts[a])
    ensures !s.acts[a].Writing? ==> s.acts[a].Referencing? || s.acts[a].Leaving?
    ensures s.acts[a].Writing? ==> !s.acts[a].phase.Waiting? && !s.acts[a].phase.Returning?
  {
    hide Counted, ActsOk, DoomedOnce, Accounted;
  }

  lemma SwappedLive(s: State, a: ActivityId)
    requires MemoryInv(s) && a in s.acts && s.acts[a].Writing? && s.acts[a].phase.Swapped?
    ensures CountOf(s, s.acts[a].phase.replaced) > 0
  {
    hide MemoryInv, Held;
    WriterFacts(s.acts[a].op, s.acts[a].phase);
    HeldCounts(s, a, s.acts[a].phase.replaced);
  }

  lemma ReferenceDestroysNothing(s: State, a: ActivityId, slot: SlotId)
    requires MemoryInv(s) && a in s.acts && s.cur in s.heap && (s.acts[a].Referencing? || s.acts[a].Leaving?)
    ensures !Dies(s, ReadStep(s, a, s.acts[a]), slot)
  {
    hide MemoryInv, OnSomeList, KeptByCall, HasList;
    var t := ReadStep(s, a, s.acts[a]);
    ReferenceLists(s, a);
    if OnSomeList(s, slot) { ListsKept(s, t, slot); }
    if KeptByCall(s, slot) { CallsKeep(s, t, a, slot); }
  }

  lemma ReferenceLists(s: State, a: ActivityId)
    requires a in s.acts && s.cur in s.heap && (s.acts[a].Referencing? || s.acts[a].Leaving?)
    ensures forall p :: p in s.heap ==> HasList(ReadStep(s, a, s.acts[a]), s.heap[p].groups)
  {
    var t := ReadStep(s, a, s.acts[a]);
    forall p | p in s.heap ensures HasList(t, s.heap[p].groups) {
      assert p in t.heap && t.heap[p].groups == s.heap[p].groups;
    }
  }
}
