/** What each critical section does to the list, in every run: the list is what the operations, one after
another in the order of their mutations, make of an empty one. */
module SignalEffects {
  import opened Wrappers
  import opened SlotTable
  import opened SignalProtocol
  import opened SignalMemory
  import opened SignalSlots
  import opened SignalInvariant
  import opened SignalRuns

  /** The slots on the current list. */
  ghost function Listed(s: State): set<SlotId> { Slots(ListOf(s, s.cur)) }

  /** What an operation makes of a set of slots, each created for a group. */
  function Applied(op: Op, listed: set<SlotId>, group: map<SlotId, int>): set<SlotId> {
    match op
    case Add(slot) => listed + {slot}
    case CleanUp(slot) => listed - {slot}
    case RemoveIf(matching) => listed - matching
    case RemoveGroup(gid) => set slot | slot in listed && !(slot in group && group[slot] == gid)
    case RemoveAll => {}
  }

  /** The records of a mutation from s to t: what was added, what a bulk removal took, what was cleaned. */
  ghost predicate Records(s: State, t: State, op: Op) {
    && t.added == s.added + (if op.Add? then {op.slot} else {})
    && t.bulk == s.bulk + (if IsBulk(op) then Listed(s) - Listed(t) else {})
    && t.cleaned == s.cleaned + (if op.CleanUp? then [op.slot] else [])
  }

  // ----- the mutation

  lemma MutationEffect(s: State, a: ActivityId, op: Op)
    requires SlotsInv(s) && s.cur in s.heap && a in s.acts && s.acts[a] == Writing(op, Ready)
    requires op.Add? || op.CleanUp? ==> op.slot in s.group && op.slot in s.index
    ensures var t := Mutate(s, op); Listed(t) == Applied(op, Listed(s), s.group) && Records(s, t, op)
  {
    hide SlotsInv, Mutate, Listed, Records;
    if op.Add? {
      AddEffect(s, a, op.slot);
    } else if op.CleanUp? {
      CleanUpEffect(s, op.slot);
    } else {
      BulkEffect(s, op);
    }
  }

  lemma AddEffect(s: State, a: ActivityId, slot: SlotId)
    requires SlotsInv(s) && s.cur in s.heap && a in s.acts && s.acts[a] == Writing(Add(slot), Ready) && slot in s.group
    ensures var t := Mutate(s, Add(slot)); Listed(t) == Listed(s) + {slot} && Records(s, t, Add(slot))
  {
    hide PendingInv, AddingInv, ViewsInv, LedgerInv, Slots, WellFormed, AddSlot;
    AddingFacts(s, a, slot);
    NotListedYet(s, slot);
    AddSlotEffect(CurTable(s), slot, s.group[slot], s.group);
    StoreRecords(s, AddSlot(CurTable(s), slot, s.group[slot]));
    hide Store;
  }

  lemma CleanUpEffect(s: State, slot: SlotId)
    requires SlotsInv(s) && s.cur in s.heap && slot in s.group && slot in s.index
    ensures var t := Mutate(s, CleanUp(slot)); Listed(t) == Listed(s) - {slot} && Records(s, t, CleanUp(slot))
  {
    hide PendingInv, AddingInv, ViewsInv, LedgerInv, Slots, WellFormed, Clean;
    CleanEffect(CurTable(s), slot, s.group[slot], s.group);
    StoreRecords(s, Clean(CurTable(s), slot, s.group[slot]));
    hide Store;
  }

  lemma StoreRecords(s: State, u: Table)
    requires s.cur in s.heap
    ensures var t := Store(s, u);
            && t.cur == s.cur && ListOf(t, t.cur) == u.groups
            && t.added == s.added && t.bulk == s.bulk && t.cleaned == s.cleaned
  {
  }

  lemma BulkEffect(s: State, op: Op)
    requires SlotsInv(s) && s.cur in s.heap && IsBulk(op)
    ensures var t := Mutate(s, op); Listed(t) == Applied(op, Listed(s), s.group) && Records(s, t, op)
  {
    hide PendingInv, AddingInv, ViewsInv, LedgerInv, Slots, WellFormed, DisconnectIf, DisconnectGroup, Bulk;
    var c := CurTable(s);
    match op
    case RemoveIf(matching) =>
      DisconnectIfEffect(c, matching, s.group);
      BulkRecords(s, DisconnectIf(c, matching).0);
    case RemoveGroup(gid) =>
      DisconnectGroupEffect(c, gid, s.group);
      BulkRecords(s, DisconnectGroup(c, gid).0);
    case RemoveAll =>
      ClearEffect(c, s.group);
      BulkRecords(s, Clear(c));
  }

  lemma NotListedYet(s: State, slot: SlotId)
    requires SlotsInv(s) && slot !in s.added
    ensures slot !in Listed(s)
  {
    hide PendingInv, AddingInv, ViewsInv, TableInv, Slots, Distinct;
  }

  lemma BulkRecords(s: State, u: Table)
    requires s.cur in s.heap
    ensures var t := Bulk(s, u);
            && ListOf(t, t.cur) == u.groups && t.added == s.added && t.cleaned == s.cleaned
            && t.bulk == s.bulk + (Listed(s) - Slots(u.groups))
  {
    hide Flatten, Slots;
    FlattenElems(s.heap[s.cur].groups);
    FlattenElems(u.groups);
  }

  // ----- every other transition

  /** The list and its records are the same. */
  ghost predicate SameList(s: State, t: State) {
    ListOf(t, t.cur) == ListOf(s, s.cur) && t.added == s.added && t.bulk == s.bulk && t.cleaned == s.cleaned
  }

  /** Activity a is about to mutate the list. */
  predicate AtMutation(s: State, l: Label) {
    l.Act? && l.a in s.acts && s.acts[l.a].Writing? && s.acts[l.a].phase.Ready?
  }

  lemma LedgerIsList(s: State, t: State)
    requires SameLedger(s, t)
    ensures SameList(s, t)
  {
  }

  lemma ReadLedger(s: State, a: ActivityId, x: Activity)
    requires MemoryInv(s) && a in s.acts && s.acts[a] == x && !x.Writing? && !(x.Emitting? && x.turn.Visit?)
    requires var t := Touched(s, x); t.Some? ==> t.value in s.heap
    ensures SameLedger(s, ReadStep(s, a, x))
  {
    hide MemoryInv, SameLedger, SameOthers, PlainAt, Release;
    MemoryParts(s, a);
    match x
    case Emitting(v, g, i, _, _) =>
      if g >= |s.heap[v.p].groups| {
        ReleaseQuiet(s, a, v.p);
      } else {
        CursorQuiet(s, a, ReadStep(s, a, x).acts[a]);
      }
    case Counting(v, g, _) =>
      if g >= |s.heap[v.p].groups| {
        ReleaseQuiet(s, a, v.p);
      } else {
        CursorQuiet(s, a, ReadStep(s, a, x).acts[a]);
      }
    case Freeing(p) =>
      FreeingQuiet(s, a, p);
    case _ =>
      EnterQuiet(s, a, x);
  }

  /** Nothing that the list depends on differs. */
  predicate SameFields(s: State, t: State) {
    && t.heap == s.heap && t.cur == s.cur
    && t.added == s.added && t.bulk == s.bulk && t.cleaned == s.cleaned
  }

  lemma FieldsAreList(s: State, t: State)
    requires SameFields(s, t)
    ensures SameList(s, t)
  {
  }

  lemma PutFields(s: State, t: State, a: ActivityId, x: Activity)
    requires SameFields(s, t)
    ensures SameFields(s, Put(t, a, x))
  {
  }

  lemma ExchangeFields(s: State, slot: SlotId)
    ensures SameFields(s, Exchange(s, slot))
  {
    hide Spawn;
    SpawnFields(s.(disconnected := s.disconnected + {slot}), Writing(CleanUp(slot), Waiting));
  }

  lemma VisitSameList(s: State, a: ActivityId, x: Activity, slot: SlotId, check: Check)
    requires x.Emitting?
    ensures SameList(s, VisitStep(s, a, x, slot, check))
  {
    hide NextTurn, Exchange, Put, SameList;
    ExchangeFields(s, slot);
    PutFields(s, if check.Expired? then Exchange(s, slot) else s, a, NextTurn(s, x, slot, check));
    FieldsAreList(s, VisitStep(s, a, x, slot, check));
  }

  lemma QuietStep(s: State, l: Label)
    requires Inv(s) && Enabled(s, l) && !AtMutation(s, l)
    ensures SameList(s, After(s, l))
  {
    hide MemoryInv, SlotsInv, CursorsInv, PinsInv, SameList, WriteStep, After, VisitStep;
    if l.Act? {
      var a, x := l.a, s.acts[l.a];
      ActUnfolds(s, a);
      if x.Writing? {
        WriterQuiet(s, a, x.op, x.phase);
        LedgerIsList(s, WriteStep(s, a, x.op, x.phase));
      } else if x.Emitting? && x.turn.Visit? {
        VisitSameList(s, a, x, x.turn.slot, x.turn.check);
      } else {
        ReadLedger(s, a, x);
        LedgerIsList(s, ReadStep(s, a, x));
      }
    } else {
      AfterIsEffect(s, l);
      CallSameList(s, l);
      SameListParent(s, Effect(s, l), After(s, l));
    }
  }

  lemma SameListParent(s: State, t: State, u: State)
    requires SameList(s, t) && u == t.(parent := u.parent)
    ensures SameList(s, u)
  {
  }

  lemma CallSameList(s: State, l: Label)
    requires Enabled(s, l) && !l.Act?
    ensures SameList(s, Effect(s, l))
  {
    hide SameList, Connected, Exchange, Spawn, Enabled;
    match l {
      case CallConnect(slot, gid, obj, _) => ConnectFields(s, slot, gid, obj);
      case CallDisconnect(slot, _) => ExchangeFields(s, slot);
      case CallEmit(_) => SpawnFields(s, Entering);
      case CallSlotCount(_) => SpawnFields(s, Asking(Count));
      case CallBulk(op, _) => SpawnFields(s, Writing(op, Waiting));
      case _ => FlagFields(s, l);
    }
    FieldsAreList(s, Effect(s, l));
  }

  lemma FlagFields(s: State, l: Label)
    requires Enabled(s, l) && (l.SetBlocked? || l.BlockSignal? || l.Expire?)
    ensures SameFields(s, Effect(s, l))
  {
    hide Enabled;
  }

  lemma ConnectFields(s: State, slot: SlotId, gid: int, obj: Option<ObjectId>)
    ensures SameFields(s, Connected(s, slot, gid, obj))
  {
    hide Connected;
    ConnectedFields(s, slot, gid, obj);
  }

  lemma SpawnFields(s: State, x: Activity)
    ensures SameFields(s, Spawn(s, x))
  {
  }

  lemma ReadyStep(s: State, l: Label)
    requires Inv(s) && Enabled(s, l) && AtMutation(s, l)
    ensures var t, op := After(s, l), s.acts[l.a].op;
            Listed(t) == Applied(op, Listed(s), s.group) && Records(s, t, op)
  {
    hide MemoryInv, SlotsInv, CursorsInv, PinsInv, UnknownSlot, Mutate, Dropped, Slots, After, Applied;
    var a, op := l.a, s.acts[l.a].op;
    ActUnfolds(s, a);
    MemoryParts(s, a);
    KnownSlot(s, a);
    SlotsKnown(s, a);
    MutationEffect(s, a, op);
  }

  lemma SlotsKnown(s: State, a: ActivityId)
    requires a in s.acts && s.acts[a].Writing? && s.acts[a].phase.Ready? && !UnknownSlot(s, s.acts[a])
    ensures var op := s.acts[a].op; op.Add? || op.CleanUp? ==> op.slot in s.group && op.slot in s.index
  {
  }

  // ----- runs

  /** In every run, the list changes only by mutations, and a mutation does to it what its operation says:
  connect adds its slot, clean removes its own, disconnect_if the matching ones, disconnect(gid) those of the
  group, and disconnect_all everything. The records say what was added, removed in bulk and cleaned. */
  lemma CriticalSections(states: seq<State>, labels: seq<Label>, k: nat)
    requires Run(states, labels) && k < |labels|
    ensures var s, t, l := states[k], states[k + 1], labels[k];
            if AtMutation(s, l) then
              Listed(t) == Applied(s.acts[l.a].op, Listed(s), s.group) && Records(s, t, s.acts[l.a].op)
            else SameList(s, t)
  {
    hide Inv, After, Enabled, Applied, Records, SameList, AtMutation;
    InvRun(states, labels, k);
    if AtMutation(states[k], labels[k]) {
      ReadyStep(states[k], labels[k]);
    } else {
      QuietStep(states[k], labels[k]);
    }
  }

  /** The slots a bulk removal selects. */
  predicate Selects(op: Op, slot: SlotId, group: map<SlotId, int>) {
    match op
    case RemoveIf(matching) => slot in matching
    case RemoveGroup(gid) => slot in group && group[slot] == gid
    case _ => op.RemoveAll?
  }

  /** A bulk removal takes the selected slots off the list and keeps all others; what it took is on record. */
  lemma BulkTakesSelected(states: seq<State>, labels: seq<Label>, k: nat, slot: SlotId)
    requires Run(states, labels) && k < |labels| && AtMutation(states[k], labels[k])
    requires IsBulk(states[k].acts[labels[k].a].op)
    ensures var s, t, op := states[k], states[k + 1], states[k].acts[labels[k].a].op;
            && (slot in Listed(t) <==> slot in Listed(s) && !Selects(op, slot, s.group))
            && (slot in t.bulk <==> slot in s.bulk || (slot in Listed(s) && Selects(op, slot, s.group)))
  {
    RunLengths(states, labels);
    hide Run, Listed, Applied, Selects;
    CriticalSections(states, labels, k);
    AppliedBulk(states[k].acts[labels[k].a].op, Listed(states[k]), states[k].group, slot);
  }

  lemma AppliedBulk(op: Op, listed: set<SlotId>, group: map<SlotId, int>, slot: SlotId)
    requires IsBulk(op)
    ensures slot in Applied(op, listed, group) <==> slot in listed && !Selects(op, slot, group)
  {
  }

  // ----- the list as the outcome of a sequence of operations

  /** The operations of the mutations before state k, in order. */
  ghost function Performed(states: seq<State>, labels: seq<Label>, k: nat): seq<Op>
    requires k <= |labels| < |states|
  {
    if k == 0 then []
    else
      var s, l := states[k - 1], labels[k - 1];
      Performed(states, labels, k - 1) + if AtMutation(s, l) then [s.acts[l.a].op] else []
  }

  /** What operations one after another make of an empty list. */
  function Replayed(ops: seq<Op>, group: map<SlotId, int>): set<SlotId> {
    if ops == [] then {} else Applied(ops[|ops| - 1], Replayed(ops[..|ops| - 1], group), group)
  }

  /** Only slots that were added can be listed, so the group of another slot does not matter. */
  lemma {:induction false} ReplayedGrows(ops: seq<Op>, group: map<SlotId, int>, slot: SlotId, gid: int)
    requires Add(slot) !in ops && slot !in group
    ensures slot !in Replayed(ops, group) && Replayed(ops, group[slot := gid]) == Replayed(ops, group)
  {
    if ops == [] {
    } else {
      var k := |ops| - 1;
      assert ops[k] in ops && forall op :: op in ops[..k] ==> op in ops;
      ReplayedGrows(ops[..k], group, slot, gid);
    }
  }

  /** However calls are interleaved, the list is the one that the operations performed so far, one after
  another, give; and a slot counts as added exactly when one of them added it. */
  lemma {:induction false} SequentialList(states: seq<State>, labels: seq<Label>, k: nat)
    requires Run(states, labels) && k < |states|
    ensures var ops := Performed(states, labels, k);
            && Listed(states[k]) == Replayed(ops, states[k].group)
            && forall slot :: slot in states[k].added <==> Add(slot) in ops
    decreases k
  {
    hide Inv, After, Enabled, Slots, Applied;
    if k == 0 {
      NothingListed();
    } else {
      var s, t, l, ops := states[k - 1], states[k], labels[k - 1], Performed(states, labels, k - 1);
      SequentialList(states, labels, k - 1);
      CriticalSections(states, labels, k - 1);
      InvRun(states, labels, k - 1);
      StepFollows(s, l);
      if AtMutation(s, l) {
        var op := s.acts[l.a].op;
        assert (ops + [op])[..|ops|] == ops;
      } else {
        assert ops + [] == ops;
        if l.CallConnect? { ConnectReplayed(s, l, ops); }
      }
    }
  }

  lemma NothingListed()
    ensures Listed(INIT) == {}
  {
  }

  lemma ConnectReplayed(s: State, l: Label, ops: seq<Op>)
    requires Inv(s) && l.CallConnect? && Enabled(s, l) && forall slot :: slot in s.added <==> Add(slot) in ops
    ensures Replayed(ops, After(s, l).group) == Replayed(ops, s.group)
  {
    hide MemoryInv, SlotsInv, CursorsInv, PinsInv, Connected, After, Replayed;
    ConnectIs(s, l);
    ConnectedFields(s, l.slot, l.gid, l.tracked);
    AddedKnown(s);
    ReplayedGrows(ops, s.group, l.slot, l.gid);
  }
}
